/**
 * The few java.lang.String operations the core relies on: literal search
 * (String.indexOf / String.contains / a literal Matcher.find), prefix tests,
 * ASCII case-insensitive comparison (String.equalsIgnoreCase) and the
 * decimal rendering of an int ("%d").
 */
module Text {
  import opened Wrappers

  /** `kw` occurs in `s` starting at index `j`. */
  predicate OccursAt(s: string, kw: string, j: int) {
    0 <= j && j + |kw| <= |s| && s[j..j + |kw|] == kw
  }

  /**
   * The first index at or after `from` where `kw` occurs in `s`; this is what
   * String.indexOf(kw, from) returns and where a Matcher for the literal
   * pattern `kw` reports its next match.
   */
  function IndexOfFrom(s: string, kw: string, from: nat): (r: Option<nat>)
    requires from <= |s|
    ensures r.Some? ==> from <= r.value && OccursAt(s, kw, r.value)
    ensures r.Some? ==> forall j :: from <= j < r.value ==> !OccursAt(s, kw, j)
    ensures r.None? ==> forall j :: from <= j ==> !OccursAt(s, kw, j)
    decreases |s| - from
  {
    if from + |kw| > |s| then None
    else if s[from..from + |kw|] == kw then Some(from)
    else IndexOfFrom(s, kw, from + 1)
  }

  /** String.contains: `sub` occurs somewhere in `s` (case-sensitive; the empty string always does). */
  function Contains(s: string, sub: string): (r: bool)
    ensures r <==> exists j :: OccursAt(s, sub, j)
  {
    IndexOfFrom(s, sub, 0).Some?
  }

  /** Whatever stands between `p` and `q` is contained in `p + sub + q`. */
  lemma ContainsInfix(p: string, sub: string, q: string)
    ensures Contains(p + sub + q, sub)
  {
    var s := p + sub + q;
    assert s[|p|..|p| + |sub|] == sub;
    assert OccursAt(s, sub, |p|);
  }

  /** String.startsWith. */
  predicate StartsWith(s: string, pre: string) {
    |pre| <= |s| && s[..|pre|] == pre
  }

  /** ASCII lower-casing of one character; every other character is left alone. */
  function LowerAscii(c: char): char {
    if 'A' <= c <= 'Z' then (c as int + 32) as char else c
  }

  /** String.equalsIgnoreCase restricted to ASCII case folding. */
  predicate EqualsIgnoreCase(a: string, b: string) {
    |a| == |b| && forall i :: 0 <= i < |a| ==> LowerAscii(a[i]) == LowerAscii(b[i])
  }

  lemma EqualsIgnoreCaseIsEquivalence(a: string, b: string, c: string)
    ensures EqualsIgnoreCase(a, a)
    ensures EqualsIgnoreCase(a, b) ==> EqualsIgnoreCase(b, a)
    ensures EqualsIgnoreCase(a, b) && EqualsIgnoreCase(b, c) ==> EqualsIgnoreCase(a, c)
  {
  }

  function DigitChar(d: nat): char
    requires d < 10
  {
    ('0' as int + d) as char
  }

  function DigitValue(c: char): nat {
    if '0' <= c <= '9' then c as int - '0' as int else 0
  }

  /** The decimal digits of a natural number, most significant first, without leading zeros. */
  function NatDigits(n: nat): (r: string)
    ensures |r| >= 1
    ensures forall i :: 0 <= i < |r| ==> '0' <= r[i] <= '9'
    ensures |r| > 1 ==> r[0] != '0'
  {
    if n < 10 then [DigitChar(n)] else NatDigits(n / 10) + [DigitChar(n % 10)]
  }

  /** The number a string of decimal digits denotes. */
  function DigitsValue(s: string): nat {
    if s == [] then 0 else DigitsValue(s[..|s| - 1]) * 10 + DigitValue(s[|s| - 1])
  }

  /** Reading back the digits of `n` gives `n`. */
  lemma {:induction false} NatDigitsRoundTrip(n: nat)
    ensures DigitsValue(NatDigits(n)) == n
  {
    if n >= 10 {
      var q, d := n / 10, n % 10;
      NatDigitsRoundTrip(q);
      var s := NatDigits(n);
      assert s == NatDigits(q) + [DigitChar(d)];
      assert s[..|s| - 1] == NatDigits(q);
      assert DigitValue(s[|s| - 1]) == d;
      assert n == q * 10 + d;
    }
  }

  /** Decimal digits only, with no leading zero unless the number is 0 itself. */
  predicate Canonical(digits: string) {
    && |digits| >= 1
    && (forall i | 0 <= i < |digits| :: '0' <= digits[i] <= '9')
    && (|digits| > 1 ==> digits[0] != '0')
  }

  /**
   * Java's "%d" rendering of an int: a minus sign for negative values, then
   * the canonical digits of the absolute value.
   */
  function IntDecimal(n: int): (r: string)
    ensures |r| >= 1
    ensures (r[0] == '-') <==> n < 0
    ensures n >= 0 ==> Canonical(r) && DigitsValue(r) == n
    ensures n < 0 ==> Canonical(r[1..]) && DigitsValue(r[1..]) == -n
  {
    NatDigitsRoundTrip(if n < 0 then -n else n);
    if n < 0 then "-" + NatDigits(-n) else NatDigits(n)
  }
}
