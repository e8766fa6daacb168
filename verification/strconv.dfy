/** The two conversions of Go's strconv package that slugs rely on:
    `FormatInt(n, 16)` and `ParseInt(s, 16, 64)`. */
module Strconv {
  import opened Results
  import opened GoInt

  predicate IsHexDigit(c: char) {
    '0' <= c <= '9' || 'a' <= c <= 'f' || 'A' <= c <= 'F'
  }

  predicate IsLowerHexDigit(c: char) {
    '0' <= c <= '9' || 'a' <= c <= 'f'
  }

  predicate AllHexDigits(s: string) {
    forall i :: 0 <= i < |s| ==> IsHexDigit(s[i])
  }

  function DigitValue(c: char): (v: nat)
    requires IsHexDigit(c)
    ensures v < 16
  {
    if '0' <= c <= '9' then c as int - '0' as int
    else if 'a' <= c <= 'f' then c as int - 'a' as int + 10
    else c as int - 'A' as int + 10
  }

  /** The lower-case digit FormatInt writes for `d`. */
  function DigitChar(d: nat): (c: char)
    requires d < 16
    ensures IsLowerHexDigit(c)
    ensures DigitValue(c) == d
  {
    if d < 10 then ('0' as int + d) as char else ('a' as int + d - 10) as char
  }

  /** The number a string of hex digits denotes, most significant first. */
  function DigitsValue(s: string): nat
    requires AllHexDigits(s)
  {
    if s == [] then 0 else 16 * DigitsValue(s[..|s| - 1]) + DigitValue(s[|s| - 1])
  }

  /** strconv.FormatInt(n, 16) for a non-negative n: lower-case digits,
      most significant first, with a leading zero only for zero itself. */
  function FormatHex(n: nat): (s: string)
    ensures 1 <= |s|
    ensures forall i :: 0 <= i < |s| ==> IsLowerHexDigit(s[i])
    ensures s[0] == '0' <==> n == 0
    decreases n
  {
    if n < 16 then [DigitChar(n)] else FormatHex(n / 16) + [DigitChar(n % 16)]
  }

  /** Reading back what FormatHex wrote yields the number written. */
  lemma {:induction false} FormatHexRoundTrip(n: nat)
    ensures AllHexDigits(FormatHex(n))
    ensures DigitsValue(FormatHex(n)) == n
  {
    var s := FormatHex(n);
    if n >= 16 {
      FormatHexRoundTrip(n / 16);
      assert s[..|s| - 1] == FormatHex(n / 16);
    } else {
      assert s[..|s| - 1] == [];
    }
  }

  /** The text ParseInt reads digits from: `s` without its sign, if any. */
  function Unsigned(s: string): (d: string)
    ensures |d| <= |s|
    ensures d == s || (s != [] && (s[0] == '+' || s[0] == '-') && d == s[1..])
  {
    if s != [] && (s[0] == '+' || s[0] == '-') then s[1..] else s
  }

  /** strconv.ParseInt(s, 16, 64): an optional '+' or '-', then at least one
      hex digit of either case, and the value must fit in an int64. `None`
      stands for the syntax and range errors alike. */
  function ParseHexInt64(s: string): (r: Option<Int64>)
    ensures s == [] ==> r == None
    ensures r.Some? <==>
      && s != []
      && Unsigned(s) != []
      && AllHexDigits(Unsigned(s))
      && (if s[0] == '-' then DigitsValue(Unsigned(s)) <= -MinInt64 else DigitsValue(Unsigned(s)) <= MaxInt64)
    ensures r.Some? ==>
      r.value == (if s[0] == '-' then -(DigitsValue(Unsigned(s)) as int) else DigitsValue(Unsigned(s)))
    ensures r.Some? ==> forall i :: 0 < i < |s| ==> IsHexDigit(s[i])
    ensures r.Some? && r.value < 0 ==> s[0] == '-'
    ensures s != [] && AllHexDigits(s) ==> (r.Some? <==> DigitsValue(s) <= MaxInt64)
    ensures s != [] && AllHexDigits(s) && r.Some? ==> r.value == DigitsValue(s)
  {
    if s == [] then None
    else
      var negative := s[0] == '-';
      var digits := Unsigned(s);
      if digits == [] || !AllHexDigits(digits) then None
      else
        var v: int := DigitsValue(digits);
        if negative then (if v <= -MinInt64 then Some(-v) else None)
        else (if v <= MaxInt64 then Some(v) else None)
  }

  /** ParseInt refuses a bare sign and a non-hex character in first place,
      and reads a sign and upper-case digits. */
  lemma ParseHexInt64Examples()
    ensures ParseHexInt64("+") == None && ParseHexInt64("-") == None
    ensures ParseHexInt64("g1") == None && ParseHexInt64("x1") == None
    ensures ParseHexInt64("-1") == Some(-1) && ParseHexInt64("+A") == Some(10)
  {
    assert Unsigned("+") == [] && Unsigned("-") == [];
    assert !IsHexDigit('g') && !IsHexDigit('x');
    assert Unsigned("-1") == "1" && Unsigned("+A") == "A";
  }

  /** FormatInt followed by ParseInt is the identity on every int64 that
      is not negative. */
  lemma FormatParseRoundTrip(n: nat)
    requires n <= MaxInt64
    ensures ParseHexInt64(FormatHex(n)) == Some(n)
  {
    FormatHexRoundTrip(n);
  }
}
