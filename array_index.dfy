/**
 * Which property names of a JavaScript array name its elements.
 *
 * When `deepMerge` writes `target[key]` into an existing array, the write lands
 * on an element exactly when `key` is an array index: the canonical decimal
 * form of an integer below 2^32 - 1 ("0", "7", "12", but not "07", "-1" or
 * "1.0"). Any other name becomes a plain property, which `JSON.stringify`
 * does not write out for arrays.
 */
module ArrayIndex {
  import opened Wrappers

  /** 2^32 - 1, the first integer that is not an array index. */
  const IndexLimit: nat := 4294967295

  predicate IsDigit(c: char)
  {
    '0' <= c <= '9'
  }

  function DigitValue(c: char): nat
    requires IsDigit(c)
  {
    c as int - '0' as int
  }

  function DigitChar(d: nat): char
    requires d < 10
  {
    ('0' as int + d) as char
  }

  predicate AllDigits(s: string)
  {
    forall i :: 0 <= i < |s| ==> IsDigit(s[i])
  }

  /** The number a string of decimal digits denotes. */
  function DigitsValue(s: string): nat
    requires AllDigits(s)
  {
    if |s| == 0 then 0 else DigitsValue(s[..|s| - 1]) * 10 + DigitValue(s[|s| - 1])
  }

  /** Decimal digits without a leading zero: the form `String(n)` gives a natural number. */
  predicate IsCanonicalDecimal(s: string)
  {
    && |s| > 0
    && AllDigits(s)
    && (s[0] == '0' ==> |s| == 1)
  }

  /** The array index a property name denotes, if it denotes one. */
  function ParseIndex(key: string): (r: Option<nat>)
    ensures r.Some? ==> r.value < IndexLimit && IsCanonicalDecimal(key)
  {
    if IsCanonicalDecimal(key) && DigitsValue(key) < IndexLimit then Some(DigitsValue(key)) else None
  }

  /** The property name of element i, `String(i)`. */
  function IndexName(i: nat): (r: string)
    ensures IsCanonicalDecimal(r)
    ensures r[0] == '0' <==> i == 0
  {
    if i < 10 then [DigitChar(i)] else IndexName(i / 10) + [DigitChar(i % 10)]
  }

  lemma {:induction false} IndexNameValue(i: nat)
    ensures DigitsValue(IndexName(i)) == i
  {
    if i >= 10 {
      var s := IndexName(i);
      assert s[..|s| - 1] == IndexName(i / 10);
      IndexNameValue(i / 10);
    }
  }

  /** A canonical decimal with a non-zero first digit denotes at least 10^(length-1) >= 1. */
  lemma {:induction false} LeadingDigitPositive(s: string)
    requires IsCanonicalDecimal(s) && s[0] != '0'
    ensures DigitsValue(s) >= 1
    ensures |s| > 1 ==> DigitsValue(s) >= 10
  {
    if |s| > 1 {
      var p := s[..|s| - 1];
      assert p[0] == s[0];
      LeadingDigitPositive(p);
    }
  }

  /** Every canonical decimal is the name of the number it denotes. */
  lemma {:induction false} CanonicalIsIndexName(s: string)
    requires IsCanonicalDecimal(s)
    ensures IndexName(DigitsValue(s)) == s
  {
    if |s| > 1 {
      var p := s[..|s| - 1];
      assert p[0] == s[0];
      LeadingDigitPositive(s);
      LeadingDigitPositive(p);
      CanonicalIsIndexName(p);
      assert s == p + [s[|s| - 1]];
    }
  }

  /** Reading the name of an index gives the index back. */
  lemma ParseIndexName(i: nat)
    requires i < IndexLimit
    ensures ParseIndex(IndexName(i)) == Some(i)
  {
    IndexNameValue(i);
  }

  /** A name that parses as an index is that index's name: each element has exactly one name. */
  lemma ParseIndexInverse(key: string, i: nat)
    requires ParseIndex(key) == Some(i)
    ensures IndexName(i) == key
  {
    CanonicalIsIndexName(key);
  }
}
