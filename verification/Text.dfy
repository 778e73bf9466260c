/** Decimal numbers and substrings, as Go's strconv and strings packages treat them. */
module Text {

  datatype Option<+T> = None | Some(value: T)

  const INT32_MAX := 0x7fff_ffff
  const INT64_MAX := 0x7fff_ffff_ffff_ffff

  predicate IsDigit(c: char) { '0' <= c <= '9' }

  predicate AllDigits(s: string) { forall i :: 0 <= i < |s| ==> IsDigit(s[i]) }

  function DigitsValue(s: string): nat
    requires AllDigits(s)
  {
    if s == "" then 0 else 10 * DigitsValue(s[..|s|-1]) + (s[|s|-1] as int - '0' as int)
  }

  /** The decimal rendering of a natural number. */
  function Itoa(n: nat): (r: string)
    ensures r != "" && AllDigits(r) && DigitsValue(r) == n
    decreases n
  {
    var last := [('0' as int + n % 10) as char];
    if n < 10 then last
    else
      var r := Itoa(n / 10) + last;
      assert r[..|r|-1] == Itoa(n / 10);
      r
  }

  lemma ItoaInjective(a: nat, b: nat)
    requires Itoa(a) == Itoa(b)
    ensures a == b
  {
    assert DigitsValue(Itoa(a)) == DigitsValue(Itoa(b));
  }

  /** Base 10 with an optional sign, as strconv.ParseInt and strconv.Atoi read it. */
  function ParseInt(s: string, max: nat): Option<int> {
    var negative: bool := s != "" && s[0] == '-';
    var digits := if s != "" && (s[0] == '-' || s[0] == '+') then s[1..] else s;
    if digits == "" || !AllDigits(digits) then None
    else if negative then (if DigitsValue(digits) <= max + 1 then Some(0 - DigitsValue(digits)) else None)
    else if DigitsValue(digits) <= max then Some(DigitsValue(digits))
    else None
  }

  lemma ParseDigits(s: string, max: nat)
    requires s != "" && AllDigits(s)
    ensures ParseInt(s, max) == if DigitsValue(s) <= max then Some(DigitsValue(s)) else None
  {
    assert IsDigit(s[0]);
  }

  ghost predicate OccursAt(s: string, pat: string, i: int) {
    0 <= i && i + |pat| <= |s| && s[i..i+|pat|] == pat
  }

  /** The last position of pat in s, or -1. */
  function LastIndex(s: string, pat: string): (r: int)
    ensures -1 <= r
    ensures r >= 0 ==> OccursAt(s, pat, r)
    ensures forall i :: OccursAt(s, pat, i) ==> i <= r
  {
    LastIndexFrom(s, pat, |s| - |pat|)
  }

  function LastIndexFrom(s: string, pat: string, i: int): (r: int)
    requires i + |pat| <= |s|
    ensures -1 <= r
    ensures r >= 0 ==> r <= i && OccursAt(s, pat, r)
    ensures forall j :: j <= i && OccursAt(s, pat, j) ==> j <= r
    decreases i + |pat| + 1
  {
    if i < 0 then -1
    else if s[i..i+|pat|] == pat then i
    else LastIndexFrom(s, pat, i - 1)
  }
}
