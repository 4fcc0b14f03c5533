/**
 * Small pieces of the Java platform and of the Kettle utility classes that the
 * modelled classes lean on: a null-able reference as an Option, the 32-bit
 * `int` range, `Utils.isEmpty` on strings and `Const.toInt` (which rests on
 * `Integer.parseInt`).
 */
module JavaLang {

  /** A Java reference that may be null. */
  datatype Option<+T> = None | Some(value: T)

  const MinInt: int := -0x8000_0000
  const MaxInt: int := 0x7FFF_FFFF

  /** The values a Java `int` can hold. */
  predicate InInt32(n: int) {
    MinInt <= n <= MaxInt
  }

  /** `Utils.isEmpty(String)`: null or of length zero. */
  predicate IsEmpty(s: Option<string>) {
    s.None? || |s.value| == 0
  }

  /** `Character.toLowerCase` on the ASCII letters; every other character is left as it is. */
  function ToLowerAscii(c: char): (r: char)
    ensures 'A' <= c <= 'Z' ==> r as int == c as int + 32
    ensures !('A' <= c <= 'Z') ==> r == c
  {
    if 'A' <= c <= 'Z' then (c as int + 32) as char else c
  }

  /** `String.equalsIgnoreCase`, for text whose letters are ASCII. */
  predicate EqualsIgnoreCase(a: string, b: string) {
    |a| == |b| && forall i :: 0 <= i < |a| ==> ToLowerAscii(a[i]) == ToLowerAscii(b[i])
  }

  /** Ignoring case is an equivalence that includes equality. */
  lemma EqualsIgnoreCaseEquivalence(a: string, b: string, c: string)
    ensures EqualsIgnoreCase(a, a)
    ensures EqualsIgnoreCase(a, b) ==> EqualsIgnoreCase(b, a)
    ensures EqualsIgnoreCase(a, b) && EqualsIgnoreCase(b, c) ==> EqualsIgnoreCase(a, c)
  {
  }

  predicate IsDigit(c: char) {
    '0' <= c <= '9'
  }

  /** The value of a non-empty string of decimal digits, read left to right. */
  function DigitsValue(ds: string): (n: nat)
    requires forall i :: 0 <= i < |ds| ==> IsDigit(ds[i])
  {
    if ds == [] then 0
    else
      assert IsDigit(ds[|ds| - 1]);
      DigitsValue(ds[..|ds| - 1]) * 10 + (ds[|ds| - 1] as int - '0' as int)
  }

  /**
   * `Integer.parseInt(s)` on decimal text written with ASCII digits: an
   * optional sign followed by at least one digit, and the value must fit an
   * `int`; any other ASCII text is a `NumberFormatException`, here `None`.
   * (Java also accepts the decimal digits of other scripts; this model does
   * not.)
   */
  function ParseInt(s: string): (r: Option<int>)
    ensures r.Some? ==> InInt32(r.value)
    ensures r.Some? ==> |s| > 0
    ensures |s| > 0 && (forall i :: 0 <= i < |s| ==> IsDigit(s[i])) ==>
              (r.Some? <==> DigitsValue(s) <= MaxInt) && (r.Some? ==> r.value == DigitsValue(s))
  {
    var signed := |s| > 0 && (s[0] == '-' || s[0] == '+');
    var sign := if signed && s[0] == '-' then -1 else 1;
    var digits := if signed then s[1..] else s;
    if |digits| == 0 || exists i :: 0 <= i < |digits| && !IsDigit(digits[i]) then None
    else
      var v := sign * DigitsValue(digits);
      if InInt32(v) then Some(v) else None
  }

  /** `Const.toInt(str, def)`: the parsed value, or `def` when `str` is null or does not parse. */
  function ToInt(str: Option<string>, def: int): (r: int)
    ensures str.Some? && ParseInt(str.value).Some? ==> r == ParseInt(str.value).value
    ensures (str.None? || ParseInt(str.value).None?) ==> r == def
  {
    match str
    case None => def
    case Some(s) => match ParseInt(s) { case Some(v) => v case None => def }
  }

  /** Decimal rendering of a natural number, the partner of `DigitsValue`. */
  function NatToDigits(n: nat): (ds: string)
    ensures |ds| > 0
    ensures forall i :: 0 <= i < |ds| ==> IsDigit(ds[i])
  {
    if n < 10 then ['0' + n as char]
    else NatToDigits(n / 10) + ['0' + (n % 10) as char]
  }

  lemma {:induction false} DigitsRoundTrip(n: nat)
    ensures DigitsValue(NatToDigits(n)) == n
  {
    if n >= 10 {
      var ds := NatToDigits(n);
      assert ds[..|ds| - 1] == NatToDigits(n / 10);
      DigitsRoundTrip(n / 10);
    }
  }

  /** Every non-negative `int`, written out in decimal, parses back to itself. */
  lemma ParseIntRoundTrip(n: nat)
    requires n <= MaxInt
    ensures ParseInt(NatToDigits(n)) == Some(n)
    ensures ToInt(Some(NatToDigits(n)), 10) == n
  {
    DigitsRoundTrip(n);
  }
}
