/**
 * What PATCH's deep merge promises, proved about the specification in module Merge.
 */
module MergeLaws {
  import opened Wrappers
  import opened Json
  import opened ArrayIndex
  import opened Merge

  /** Keys the patch does not name keep their values; no key is ever removed. */
  lemma PatchKeepsOtherKeys(m: Doc, s: Doc, k: string)
    ensures MergeFields(m, s).Keys == m.Keys + s.Keys
    ensures k in m && k !in s ==> MergeFields(m, s)[k] == m[k]
  {
  }

  /**
   * An array, null or scalar in the patch is written as it is; an object in
   * the patch is copied over a falsy or missing old value.
   */
  lemma PatchWritesValue(m: Doc, s: Doc, k: string)
    requires k in s
    requires !s[k].JObj? || !TruthyAt(m, k)
    ensures MergeFields(m, s)[k] == s[k]
  {
    if s[k].JObj? {
      MergeIntoEmptyObject(s[k].fields);
      assert Seed(Get(m, k)) == JObj(map[]);
    }
  }

  /**
   * An object in the patch over a truthy old value is merged into it: into an
   * object key by key, into an array element by element, and into a string,
   * number or `true` not at all.
   */
  lemma PatchMergesInto(m: Doc, s: Doc, k: string)
    requires k in s && s[k].JObj? && TruthyAt(m, k)
    ensures MergeFields(m, s)[k] == match m[k]
      case JObj(inner) => JObj(MergeFields(inner, s[k].fields))
      case JArr(items) => JArr(MergeElements(items, s[k].fields))
      case _ => m[k]
  {
    assert MergeFields(m, s)[k] == MergeInto(m[k], s[k].fields);
  }

  /** Merging a patch into `{}` reproduces the patch: nested objects are copied, not merged away. */
  lemma {:induction false} MergeIntoEmptyObject(s: Doc)
    ensures MergeInto(JObj(map[]), s) == JObj(s)
    decreases JObj(s)
  {
    var r := MergeFields(map[], s);
    forall k | k in s
      ensures r[k] == s[k]
    {
      assert r[k] == Assigned(None, s[k]);
      if s[k].JObj? {
        MergeIntoEmptyObject(s[k].fields);
        assert Seed(None) == JObj(map[]);
      }
    }
  }

  /** A patch with no keys changes nothing. */
  lemma MergeNothing(t: Json)
    requires Truthy(t)
    ensures MergeInto(t, map[]) == t
  {
    if t.JArr? {
      MergeNothingIntoArray(t.items);
    }
  }

  /** Without nested objects in the patch, PATCH writes exactly what POST's spread writes. */
  lemma FlatPatchIsSpread(m: Doc, s: Doc)
    requires forall k :: k in s ==> !s[k].JObj?
    ensures MergeFields(m, s) == m + s
  {
  }

  /** Applying the same patch twice is the same as applying it once. */
  lemma {:induction false} MergeIdempotent(t: Json, s: Doc)
    requires Truthy(t)
    ensures MergeInto(MergeInto(t, s), s) == MergeInto(t, s)
    decreases JObj(s), 2
  {
    match t
    case JObj(m) => FieldsIdempotent(m, s);
    case JArr(a) => ElementsIdempotent(a, s);
    case _ =>
  }

  lemma {:induction false} FieldsIdempotent(m: Doc, s: Doc)
    ensures MergeFields(MergeFields(m, s), s) == MergeFields(m, s)
    decreases JObj(s), 1
  {
    var once := MergeFields(m, s);
    var twice := MergeFields(once, s);
    forall k | k in s
      ensures twice[k] == once[k]
    {
      AssignedIdempotent(Get(m, k), s[k]);
    }
  }

  lemma {:induction false} ElementsIdempotent(a: seq<Json>, s: Doc)
    ensures MergeElements(MergeElements(a, s), s) == MergeElements(a, s)
    decreases JObj(s), 1
  {
    var once := MergeElements(a, s);
    var twice := MergeElements(once, s);
    assert |twice| == |once|;
    forall j | 0 <= j < |once|
      ensures twice[j] == once[j]
    {
      assert once[j] == MergedElement(a, s, j);
      assert twice[j] == MergedElement(once, s, j);
      if j < IndexLimit && IndexName(j) in s {
        AssignedIdempotent(ElemAt(a, j), s[IndexName(j)]);
      }
    }
  }

  /** Writing the same patch value twice at one place writes what writing it once does. */
  lemma {:induction false} AssignedIdempotent(prior: Option<Json>, v: Json)
    ensures Assigned(Some(Assigned(prior, v)), v) == Assigned(prior, v)
    decreases v, 3
  {
    if v.JObj? {
      MergeIdempotent(Seed(prior), v.fields);
    }
  }

  /** Every value of the patch can be read back from `r` at the same path. */
  ghost predicate Carries(r: Json, s: Doc)
    decreases JObj(s)
  {
    && r.JObj?
    && forall k :: k in s ==>
         && k in r.fields
         && if s[k].JObj? then Carries(r.fields[k], s[k].fields) else r.fields[k] == s[k]
  }

  /**
   * Along every path where the patch holds an object, the document holds an
   * object too or nothing truthy: no truthy scalar or array stands in the way.
   */
  ghost predicate Mergeable(t: Json, s: Doc)
    decreases JObj(s)
  {
    && t.JObj?
    && forall k :: k in s && s[k].JObj? && TruthyAt(t.fields, k) ==> Mergeable(t.fields[k], s[k].fields)
  }

  /** Where nothing stands in the way, PATCH leaves every value of the patch readable at its path. */
  lemma {:induction false} PatchCarried(t: Json, s: Doc)
    requires Mergeable(t, s)
    ensures Carries(MergeInto(t, s), s)
    decreases JObj(s)
  {
    var r := MergeInto(t, s);
    assert r.fields == MergeFields(t.fields, s);
    forall k | k in s
      ensures k in r.fields
      ensures if s[k].JObj? then Carries(r.fields[k], s[k].fields) else r.fields[k] == s[k]
    {
      if s[k].JObj? {
        var seed := Seed(Get(t.fields, k));
        assert r.fields[k] == MergeInto(seed, s[k].fields);
        assert Mergeable(seed, s[k].fields);
        PatchCarried(seed, s[k].fields);
      }
    }
  }

  /** {a:{x:1}} merged into {a:{y:2}} gives {a:{x:1, y:2}}: sibling keys survive. */
  lemma NestedObjectsMerge()
    ensures MergeFields(map["a" := JObj(map["y" := JNum(2)])], map["a" := JObj(map["x" := JNum(1)])])
         == map["a" := JObj(map["x" := JNum(1), "y" := JNum(2)])]
  {
    var inner := MergeFields(map["y" := JNum(2)], map["x" := JNum(1)]);
    assert inner == map["x" := JNum(1), "y" := JNum(2)];
  }

  /** {a:[1,2]} merged into {a:[9]} gives {a:[1,2]}: arrays are replaced, never merged. */
  lemma ArraysReplaced()
    ensures MergeFields(map["a" := JArr([JNum(9)])], map["a" := JArr([JNum(1), JNum(2)])])
         == map["a" := JArr([JNum(1), JNum(2)])]
  {
  }

  /** {a:null} merged into {a:{y:2}} gives {a:null}: null overwrites rather than being skipped. */
  lemma NullOverwrites()
    ensures MergeFields(map["a" := JObj(map["y" := JNum(2)])], map["a" := JNull])
         == map["a" := JNull]
  {
  }

  /** {a:{b:1}} merged into {a:"x"} leaves {a:"x"}: the write lands on a string and is lost. */
  lemma TruthyScalarKept()
    ensures MergeFields(map["a" := JStr("x")], map["a" := JObj(map["b" := JNum(1)])])
         == map["a" := JStr("x")]
  {
  }

  /** {a:{b:1}} merged into {a:0} gives {a:{b:1}}: a falsy value is replaced by the merged object. */
  lemma FalsyReplaced()
    ensures MergeFields(map["a" := JNum(0)], map["a" := JObj(map["b" := JNum(1)])])
         == map["a" := JObj(map["b" := JNum(1)])]
  {
    PatchWritesValue(map["a" := JNum(0)], map["a" := JObj(map["b" := JNum(1)])], "a");
  }

  /**
   * {a:{"2":5, "x":1}} merged into {a:[9]} gives {a:[9, null, 5]}: "2" names
   * element 2, the hole before it is written out as null, and "x" becomes an
   * array property that is not written out.
   */
  lemma ObjectIntoArray()
    ensures MergeFields(map["a" := JArr([JNum(9)])], map["a" := JObj(map["2" := JNum(5), "x" := JNum(1)])])
         == map["a" := JArr([JNum(9), JNull, JNum(5)])]
  {
    var patch := map["2" := JNum(5), "x" := JNum(1)];
    assert ParseIndex("2") == Some(2);
    assert ParseIndex("x") == None;
    assert patch.Keys == {"2", "x"};
    assert IndexEnd("2") == 3 && IndexEnd("x") == 0;
    ExtentIsMax(patch.Keys);
    assert Extent(patch.Keys) == 3;
    assert IndexName(0) == "0" && IndexName(1) == "1" && IndexName(2) == "2";
    var items := MergeElements([JNum(9)], patch);
    assert items[0] == JNum(9) && items[1] == JNull && items[2] == JNum(5);
    assert items == [JNum(9), JNull, JNum(5)];
  }
}
