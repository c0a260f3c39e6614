/**
 * The `deepMerge` closure of the PATCH handler.
 *
 * `deepMerge(target, source)` walks the keys of `source`. Where `source[key]`
 * is a plain object (not an array, not null) it merges it into the value
 * `target[key] || {}` and writes the result back to `target[key]`; any other
 * value is written to `target[key]` as it is. The functions below say what
 * the merged value is once it is serialised; the methods compute it with the
 * loop of the source and are proved to agree with them.
 *
 * What a write `target[key] = v` does depends on the kind of `target`:
 *  - a plain object gains or overwrites the property `key`;
 *  - an array has element i overwritten (or added, with holes that serialise
 *    as null) when `key` is the name of index i, and gains an unserialised
 *    property otherwise;
 *  - a string, number or `true` ignores the write (assignments to properties
 *    of a primitive do nothing outside strict mode), so its old value stays.
 * Falsy values never become a target: the seed `target[key] || {}` replaces
 * them by a fresh empty object.
 */
module Merge {
  import opened Wrappers
  import opened Json
  import opened ArrayIndex

  /** `prior || {}`: the target a nested merge starts from. */
  function Seed(prior: Option<Json>): (r: Json)
    ensures Truthy(r)
  {
    if prior.Some? && Truthy(prior.value) then prior.value else JObj(map[])
  }

  /** The value the loop of `deepMerge` writes to `target[key]`, where `prior` is what `target[key]` read. */
  ghost function Assigned(prior: Option<Json>, v: Json): (r: Json)
    ensures !v.JObj? ==> r == v
    ensures v.JObj? ==> Truthy(r)
    decreases v, 3
  {
    if v.JObj? then MergeInto(Seed(prior), v.fields) else v
  }

  /** The value `deepMerge(target, source)` leaves behind, as it serialises. */
  ghost function MergeInto(target: Json, source: Doc): (r: Json)
    requires Truthy(target)
    ensures r.JObj? <==> target.JObj?
    ensures r.JArr? <==> target.JArr?
    ensures !target.JObj? && !target.JArr? ==> r == target
    decreases JObj(source), 2
  {
    match target
    case JObj(m) => JObj(MergeFields(m, source))
    case JArr(a) => JArr(MergeElements(a, source))
    case _ => target
  }

  /** Merging into a plain object: every key of either side, each key of `source` assigned. */
  ghost function MergeFields(m: Doc, source: Doc): (r: Doc)
    ensures r.Keys == m.Keys + source.Keys
    ensures forall k :: k in m && k !in source ==> r[k] == m[k]
    decreases JObj(source), 1
  {
    map k | k in m.Keys + source.Keys :: if k in source then Assigned(Get(m, k), source[k]) else m[k]
  }

  /** Element i of an array as a read sees it: `undefined` past the end. */
  function ElemAt(a: seq<Json>, i: nat): Option<Json>
  {
    if i < |a| then Some(a[i]) else None
  }

  /** Element j of an array after the index-named keys of `source` were written into it. */
  ghost function MergedElement(a: seq<Json>, source: Doc, j: nat): (r: Json)
    ensures !(j < IndexLimit && IndexName(j) in source) ==> r == if j < |a| then a[j] else JNull
    decreases JObj(source), 0
  {
    if j < IndexLimit && IndexName(j) in source then Assigned(ElemAt(a, j), source[IndexName(j)])
    else if j < |a| then a[j]
    else JNull
  }

  /** Merging into an array: the array grows to one past the largest index written. */
  ghost function MergeElements(a: seq<Json>, source: Doc): (r: seq<Json>)
    ensures |r| >= |a|
    ensures forall j :: 0 <= j < |a| && !(j < IndexLimit && IndexName(j) in source) ==> r[j] == a[j]
    decreases JObj(source), 1
  {
    var n := Max(|a|, Extent(source.Keys));
    seq(n, j requires 0 <= j < n => MergedElement(a, source, j))
  }

  function Max(x: nat, y: nat): nat
  {
    if x < y then y else x
  }

  /** One past the index a key names, 0 when it names none. */
  function IndexEnd(key: string): nat
  {
    match ParseIndex(key)
    case Some(i) => i + 1
    case None => 0
  }

  /** One past the largest array index named in `keys`, 0 when there is none. */
  ghost function Extent(keys: set<string>): nat
    decreases keys
  {
    if keys == {} then 0 else var k :| k in keys; Max(IndexEnd(k), Extent(keys - {k}))
  }

  /** Extent is the maximum of IndexEnd over the keys, whatever order it picked them in. */
  lemma {:induction false} ExtentIsMax(keys: set<string>)
    ensures forall k :: k in keys ==> IndexEnd(k) <= Extent(keys)
    ensures Extent(keys) == 0 || exists k :: k in keys && Extent(keys) == IndexEnd(k)
    decreases keys
  {
    if keys != {} {
      // Naming some member of keys lets the solver see that Extent's own `:|` has a witness.
      var some :| some in keys;
      var k :| k in keys && Extent(keys) == Max(IndexEnd(k), Extent(keys - {k}));
      ExtentIsMax(keys - {k});
      assert Max(IndexEnd(k), Extent(keys - {k})) >= IndexEnd(k);
      assert Extent(keys) >= IndexEnd(k);
      forall k' | k' in keys
        ensures IndexEnd(k') <= Extent(keys)
      {
        if k' != k {
          assert k' in keys - {k};
        }
      }
    }
  }

  /** Adding one key moves the extent past that key's index, if it names one. */
  lemma ExtentInsert(keys: set<string>, key: string)
    ensures Extent(keys + {key}) == Max(Extent(keys), IndexEnd(key))
  {
    ExtentIsMax(keys);
    ExtentIsMax(keys + {key});
  }

  /** `target[i] = v` on an array: overwrite, or extend with holes (serialised null) up to i. */
  function SetIndex(a: seq<Json>, i: nat, v: Json): (r: seq<Json>)
    ensures |r| == Max(|a|, i + 1)
    ensures r[i] == v
    ensures forall j :: 0 <= j < |r| && j != i ==> r[j] == if j < |a| then a[j] else JNull
  {
    if i < |a| then a[i := v] else a + seq(i - |a|, _ => JNull) + [v]
  }

  /** `deepMerge(target, source)`: dispatches on what kind of value the target is. */
  method DeepMerge(target: Json, source: Doc) returns (r: Json)
    requires Truthy(target)
    ensures r == MergeInto(target, source)
    decreases JObj(source), 2
  {
    match target
    case JObj(m) =>
      var fields := MergeObject(m, source);
      r := JObj(fields);
    case JArr(a) =>
      var items := MergeArray(a, source);
      r := JArr(items);
    case _ =>
      r := target;
  }

  /** The `for (const key in source)` loop over a plain-object target. */
  method MergeObject(m: Doc, source: Doc) returns (fields: Doc)
    ensures fields == MergeFields(m, source)
    decreases JObj(source), 1
  {
    fields := m;
    var pending := source.Keys;
    while pending != {}
      invariant pending <= source.Keys
      invariant fields.Keys == m.Keys + (source.Keys - pending)
      invariant forall k :: k in fields ==>
        fields[k] == if k in source && k !in pending then Assigned(Get(m, k), source[k]) else m[k]
      decreases pending
    {
      var key :| key in pending;
      var v := source[key];
      if v.JObj? {
        v := DeepMerge(Seed(Get(fields, key)), v.fields);
      }
      fields := fields[key := v];
      pending := pending - {key};
    }
  }

  /** The entries of `source` whose keys are in `keys`. */
  function Restrict(source: Doc, keys: set<string>): (r: Doc)
    ensures r.Keys == source.Keys * keys
  {
    map k | k in source && k in keys :: source[k]
  }

  /** Writing a key that does not name element j leaves element j as it was. */
  lemma MergedElementOther(a: seq<Json>, s: Doc, key: string, v: Json, j: nat)
    requires key !in s
    requires j < IndexLimit ==> IndexName(j) != key
    ensures MergedElement(a, s[key := v], j) == MergedElement(a, s, j)
  {
  }

  /** Writing the key that names element i sets element i to the value assigned there. */
  lemma MergedElementAt(a: seq<Json>, s: Doc, key: string, v: Json, i: nat)
    requires key !in s
    requires ParseIndex(key) == Some(i)
    ensures MergedElement(a, s[key := v], i) == Assigned(ElemAt(a, i), v)
  {
    ParseIndexInverse(key, i);
  }

  /**
   * One turn of the loop over an array target: writing one more key of the
   * source overwrites or adds the element it names, and changes nothing when
   * it names no element.
   */
  lemma ArrayWriteStep(a: seq<Json>, s: Doc, key: string, v: Json)
    requires key !in s
    ensures var before := MergeElements(a, s);
      MergeElements(a, s[key := v]) ==
        match ParseIndex(key)
        case None => before
        case Some(i) => SetIndex(before, i, Assigned(ElemAt(before, i), v))
  {
    var before := MergeElements(a, s);
    var after := MergeElements(a, s[key := v]);
    assert s[key := v].Keys == s.Keys + {key};
    ExtentInsert(s.Keys, key);
    match ParseIndex(key) {
      case None =>
        forall j | 0 <= j < |after|
          ensures after[j] == before[j]
        {
          if j < IndexLimit {
            ParseIndexName(j);
          }
          MergedElementOther(a, s, key, v, j);
        }
      case Some(i) =>
        var expected := SetIndex(before, i, Assigned(ElemAt(before, i), v));
        ExtentIsMax(s.Keys);
        if i < |before| {
          assert IndexName(i) !in s by {
            ParseIndexInverse(key, i);
          }
          assert before[i] == MergedElement(a, s, i);
        }
        assert Seed(ElemAt(before, i)) == Seed(ElemAt(a, i));
        MergedElementAt(a, s, key, v, i);
        forall j | 0 <= j < |after|
          ensures after[j] == expected[j]
        {
          if j != i {
            if j < IndexLimit {
              ParseIndexName(j);
            }
            MergedElementOther(a, s, key, v, j);
          }
        }
    }
  }

  /** An array merged with no keys is unchanged. */
  lemma MergeNothingIntoArray(a: seq<Json>)
    ensures MergeElements(a, map[]) == a
  {
    var r := MergeElements(a, map[]);
    assert |r| == |a|;
    forall j | 0 <= j < |a|
      ensures r[j] == a[j]
    {
    }
  }

  /** The `for (const key in source)` loop over an array target. */
  method MergeArray(a: seq<Json>, source: Doc) returns (items: seq<Json>)
    ensures items == MergeElements(a, source)
    decreases JObj(source), 1
  {
    items := a;
    var pending := source.Keys;
    assert Restrict(source, source.Keys - pending) == map[];
    MergeNothingIntoArray(a);
    while pending != {}
      invariant pending <= source.Keys
      invariant items == MergeElements(a, Restrict(source, source.Keys - pending))
      decreases pending
    {
      var key :| key in pending;
      ghost var done := Restrict(source, source.Keys - pending);
      assert Restrict(source, source.Keys - (pending - {key})) == done[key := source[key]];
      ArrayWriteStep(a, done, key, source[key]);
      match ParseIndex(key) {
        case None =>
        case Some(i) =>
          var v := source[key];
          if v.JObj? {
            v := DeepMerge(Seed(ElemAt(items, i)), v.fields);
          }
          items := SetIndex(items, i, v);
      }
      pending := pending - {key};
    }
    assert Restrict(source, source.Keys - pending) == source;
  }
}
