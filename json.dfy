/**
 * JSON values as the server holds them after `JSON.parse`, and the
 * JavaScript truthiness that its handlers test them with.
 */
module Json {
  import opened Wrappers

  /** A JSON value. Numbers are integers here (see README, "Left out"). */
  datatype Json =
    | JNull
    | JBool(b: bool)
    | JNum(n: int)
    | JStr(s: string)
    | JArr(items: seq<Json>)
    | JObj(fields: map<string, Json>)

  /** The résumé document: section name to section content. Request bodies have the same shape. */
  type Doc = map<string, Json>

  /**
   * `!!v` in JavaScript: null, false, 0 and "" are falsy, and every array and
   * every object is truthy, the empty ones included.
   */
  predicate Truthy(v: Json): (r: bool)
    ensures v.JArr? || v.JObj? ==> r
    ensures v == JNull ==> !r
  {
    match v
    case JNull => false
    case JBool(b) => b
    case JNum(n) => n != 0
    case JStr(s) => s != ""
    case JArr(_) => true
    case JObj(_) => true
  }

  /** The four falsy JSON values, listed outright; the partner of Truthy. */
  lemma FalsyValues(v: Json)
    ensures !Truthy(v) <==> v in {JNull, JBool(false), JNum(0), JStr("")}
  {
  }

  /** `doc[key]` read as a property: `undefined` (None) when the key is absent. */
  function Get(doc: Doc, key: string): Option<Json>
  {
    if key in doc then Some(doc[key]) else None
  }

  /** `!!doc[key]`: the key is present and holds a truthy value. */
  predicate TruthyAt(doc: Doc, key: string): (r: bool)
    ensures r ==> key in doc
    ensures key in doc && (doc[key].JObj? || doc[key].JArr?) ==> r
  {
    key in doc && Truthy(doc[key])
  }
}
