/**
 * The few behaviours of java.lang.String, Integer and Long that the Empire-db core
 * relies on: upper-casing, equalsIgnoreCase, substring search, decimal toString and
 * parseInt/parseLong. Case folding covers the ASCII letters only and parsing accepts
 * ASCII digits only.
 */
module JavaText {
  import opened Wrappers

  const MinInt: int := -0x8000_0000
  const MaxInt: int := 0x7FFF_FFFF
  const MinLong: int := -0x8000_0000_0000_0000
  const MaxLong: int := 0x7FFF_FFFF_FFFF_FFFF

  /** Character.toUpperCase on ASCII letters; every other character is kept. */
  function UpperChar(c: char): (u: char)
    ensures u == c <==> !('a' <= c <= 'z')
    ensures 'a' <= c <= 'z' ==> 'A' <= u <= 'Z'
  {
    if 'a' <= c <= 'z' then (c as int - 32) as char else c
  }

  /** String.toUpperCase, character by character. */
  function ToUpper(s: string): (r: string)
    ensures |r| == |s|
    ensures forall i :: 0 <= i < |s| ==> r[i] == UpperChar(s[i])
  {
    if s == [] then [] else [UpperChar(s[0])] + ToUpper(s[1..])
  }

  /** Upper-casing never creates nor removes a character that is not a letter. */
  lemma ToUpperKeepsChar(s: string, c: char)
    requires !('a' <= c <= 'z') && !('A' <= c <= 'Z')
    ensures c in s <==> c in ToUpper(s)
  {
    if c in s {
      var i :| 0 <= i < |s| && s[i] == c;
      assert ToUpper(s)[i] == c;
    }
    if c in ToUpper(s) {
      var i :| 0 <= i < |s| && ToUpper(s)[i] == c;
      assert s[i] == c;
    }
  }

  /** Upper-casing an upper-cased string changes nothing. */
  lemma ToUpperIdempotent(s: string)
    ensures ToUpper(ToUpper(s)) == ToUpper(s)
  {
    assert forall i :: 0 <= i < |s| ==> ToUpper(ToUpper(s))[i] == ToUpper(s)[i];
  }

  /** String.equalsIgnoreCase: equal lengths and equal characters up to case. */
  predicate EqualsIgnoreCase(a: string, b: string) {
    ToUpper(a) == ToUpper(b)
  }

  /** `sub` starts at position `i` of `s`. */
  predicate OccursAt(s: string, sub: string, i: int) {
    0 <= i && i + |sub| <= |s| && s[i..i + |sub|] == sub
  }

  /** String.contains / `indexOf(sub) >= 0`. */
  predicate ContainsSubstring(s: string, sub: string) {
    exists i | 0 <= i <= |s| :: OccursAt(s, sub, i)
  }

  /** A string contains itself. */
  lemma ContainsItself(s: string)
    ensures ContainsSubstring(s, s)
  {
    assert OccursAt(s, s, 0);
  }

  /** A string contains every string it ends with. */
  lemma ContainsSuffix(prefix: string, sub: string)
    ensures ContainsSubstring(prefix + sub, sub)
  {
    assert OccursAt(prefix + sub, sub, |prefix|);
  }

  predicate IsDigit(c: char) {
    '0' <= c <= '9'
  }

  predicate AllDigits(s: string) {
    forall i :: 0 <= i < |s| ==> IsDigit(s[i])
  }

  function DigitChar(d: nat): (c: char)
    requires d < 10
    ensures IsDigit(c) && c as int - '0' as int == d
  {
    ('0' as int + d) as char
  }

  /** The decimal digits of a natural number, without leading zeros. */
  function NatDigits(n: nat): (r: string)
    ensures |r| > 0 && AllDigits(r)
  {
    if n < 10 then [DigitChar(n)] else NatDigits(n / 10) + [DigitChar(n % 10)]
  }

  /** Integer.toString / Long.toString: a minus sign for negative numbers, then the digits. */
  function DecimalString(n: int): (r: string)
    ensures |r| > 0
    ensures n >= 0 ==> AllDigits(r)
    ensures n < 0 ==> r[0] == '-' && AllDigits(r[1..])
  {
    if n < 0 then "-" + NatDigits(-n) else NatDigits(n)
  }

  /** The value of a string of decimal digits, read from the left. */
  function DigitsValue(s: string): nat
    requires AllDigits(s)
  {
    if s == [] then 0 else DigitsValue(s[..|s| - 1]) * 10 + (s[|s| - 1] as int - '0' as int)
  }

  lemma {:induction false} DigitsValueOfNatDigits(n: nat)
    ensures DigitsValue(NatDigits(n)) == n
  {
    if n >= 10 {
      var s := NatDigits(n / 10) + [DigitChar(n % 10)];
      assert s[..|s| - 1] == NatDigits(n / 10);
      DigitsValueOfNatDigits(n / 10);
    }
  }

  /**
   * Integer.parseInt / Long.parseLong for the range [lo, hi]: an optional '+' or '-',
   * then at least one digit and nothing else; a value outside the range, like any
   * other malformed text, throws NumberFormatException (here `None`).
   */
  function ParseSigned(s: string, lo: int, hi: int): (r: Option<int>)
    ensures r.Some? ==> lo <= r.value <= hi
    ensures r.Some? ==> |s| > 0
  {
    if |s| == 0 then None
    else
      var signed := s[0] == '-' || s[0] == '+';
      var digits := if signed then s[1..] else s;
      if |digits| == 0 || !AllDigits(digits) then None
      else
        var v: int := if s[0] == '-' then 0 - DigitsValue(digits) as int else DigitsValue(digits);
        if lo <= v <= hi then Some(v) else None
  }

  /** Integer.parseInt. */
  function ParseInt(s: string): (r: Option<int>)
    ensures r.Some? ==> MinInt <= r.value <= MaxInt
  {
    ParseSigned(s, MinInt, MaxInt)
  }

  /** Long.parseLong. */
  function ParseLong(s: string): (r: Option<int>)
    ensures r.Some? ==> MinLong <= r.value <= MaxLong
  {
    ParseSigned(s, MinLong, MaxLong)
  }

  /** The digits of a natural number parse back to it: no sign, all digits. */
  lemma ParseNatDigits(n: nat, lo: int, hi: int)
    requires lo <= n <= hi
    ensures ParseSigned(NatDigits(n), lo, hi) == Some(n)
  {
    var s := NatDigits(n);
    assert IsDigit(s[0]);
    DigitsValueOfNatDigits(n);
  }

  /** A minus sign and the digits of a positive number parse back to its negation. */
  lemma ParseNegatedDigits(n: nat, lo: int, hi: int)
    requires lo <= -(n as int) <= hi
    ensures ParseSigned("-" + NatDigits(n), lo, hi) == Some(-(n as int))
  {
    var s := "-" + NatDigits(n);
    assert s[0] == '-' && s[1..] == NatDigits(n);
    DigitsValueOfNatDigits(n);
  }

  /**
   * Parsing the decimal text of a number gives the number back when it is in range,
   * and throws (None) when it is not: parseInt rejects the text of a long too large
   * for an int rather than narrowing it.
   */
  lemma DecimalParse(n: int, lo: int, hi: int)
    ensures ParseSigned(DecimalString(n), lo, hi) == if lo <= n <= hi then Some(n) else None
  {
    DecimalRoundTrip(n, n, n);
  }

  /** Parsing the decimal text of a number in range gives the number back. */
  lemma DecimalRoundTrip(n: int, lo: int, hi: int)
    requires lo <= n <= hi
    ensures ParseSigned(DecimalString(n), lo, hi) == Some(n)
  {
    if n < 0 {
      ParseNegatedDigits(-n, lo, hi);
    } else {
      ParseNatDigits(n, lo, hi);
    }
  }
}
