/**
 * The document-level operations of the résumé API that do not touch the
 * backing file: the section lookup, POST's spread, PUT's required-field check
 * and DELETE's removal.
 */
module Documents {
  import opened Wrappers
  import opened Json
  import opened Merge

  /** GET /api/resume/:section finds a section when `data[section]` is truthy. */
  function Section(doc: Doc, name: string): (r: Option<Json>)
    ensures r.Some? <==> name in doc && Truthy(doc[name])
    ensures r.Some? ==> r.value == doc[name]
  {
    if TruthyAt(doc, name) then Some(doc[name]) else None
  }

  /** POST's `{ ...currentData, ...newData }`: each body key replaces the section whole. */
  function AddSections(doc: Doc, body: Doc): (r: Doc)
    ensures r.Keys == doc.Keys + body.Keys
    ensures forall k :: k in body ==> r[k] == body[k]
    ensures forall k :: k in doc && k !in body ==> r[k] == doc[k]
  {
    doc + body
  }

  /** PUT's check `!newData.personal_info || !newData.skills` fails. */
  predicate HasRequiredFields(body: Doc): (r: bool)
    ensures r ==> "personal_info" in body && "skills" in body
    ensures r ==> body["personal_info"] != JNull && body["skills"] != JNull
  {
    TruthyAt(body, "personal_info") && TruthyAt(body, "skills")
  }

  /** DELETE's `delete currentData[section]`. */
  function RemoveSection(doc: Doc, name: string): (r: Doc)
    ensures r.Keys == doc.Keys - {name}
    ensures forall k :: k in r ==> r[k] == doc[k]
  {
    doc - {name}
  }

  /** After POST, a section reads as the body's value if the body names it, and as before otherwise. */
  lemma SectionAfterAdd(doc: Doc, body: Doc, name: string)
    ensures Section(AddSections(doc, body), name) ==
      if name in body then Section(body, name) else Section(doc, name)
  {
  }

  /** After DELETE of a section, that section is not found and every other section reads as before. */
  lemma SectionAfterRemove(doc: Doc, removed: string, name: string)
    ensures Section(RemoveSection(doc, removed), name) ==
      if name == removed then None else Section(doc, name)
  {
  }

  /** Adding back a removed section restores the document: POST undoes DELETE. */
  lemma AddUndoesRemove(doc: Doc, name: string)
    requires name in doc
    ensures AddSections(RemoveSection(doc, name), map[name := doc[name]]) == doc
  {
  }

  /** Posting the same body twice leaves what posting it once leaves. */
  lemma AddIdempotent(doc: Doc, body: Doc)
    ensures AddSections(AddSections(doc, body), body) == AddSections(doc, body)
  {
  }

  /** The check is truthiness, not presence: empty objects and arrays pass it. */
  lemma EmptyRequiredFieldsPass()
    ensures HasRequiredFields(map["personal_info" := JObj(map[]), "skills" := JArr([])])
  {
  }

  /** A required field that is present but falsy (null, false, 0 or "") fails the check. */
  lemma FalsyRequiredFieldsFail(info: Json, skills: Json)
    requires !Truthy(info) || !Truthy(skills)
    ensures !HasRequiredFields(map["personal_info" := info, "skills" := skills])
  {
  }

  /**
   * POST does not recurse: {a:{x:1}} posted over {a:{y:2}} leaves {a:{x:1}},
   * where PATCH would leave {a:{x:1, y:2}}.
   */
  lemma PostDoesNotRecurse()
    ensures AddSections(map["a" := JObj(map["y" := JNum(2)])], map["a" := JObj(map["x" := JNum(1)])])
         == map["a" := JObj(map["x" := JNum(1)])]
    ensures MergeFields(map["a" := JObj(map["y" := JNum(2)])], map["a" := JObj(map["x" := JNum(1)])])
         != map["a" := JObj(map["x" := JNum(1)])]
  {
    var merged := MergeFields(map["a" := JObj(map["y" := JNum(2)])], map["a" := JObj(map["x" := JNum(1)])]);
    assert "y" in merged["a"].fields;
  }
}
