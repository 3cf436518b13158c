/** Decimal numerals as the C++ library prints and reads them: std::to_string, std::stoi, std::stoul. */
module Decimal {

  const INT_MIN := -0x8000_0000
  const INT_MAX := 0x7fff_ffff
  const ULONG_MAX := 0xffff_ffff_ffff_ffff  // unsigned long has 64 bits

  predicate IsInt(n: int) {
    INT_MIN <= n <= INT_MAX
  }

  predicate IsDigit(c: char) {
    '0' <= c <= '9'
  }

  predicate IsSpace(c: char) {
    c == ' ' || '\t' <= c <= '\r'
  }

  function DigitValue(c: char): nat
    requires IsDigit(c)
  {
    c as int - '0' as int
  }

  function Digits(n: nat): (s: string)
    ensures s != "" && forall i :: 0 <= i < |s| ==> IsDigit(s[i])
    ensures |s| > 1 ==> s[0] != '0'
  {
    if n < 10 then [(n + '0' as int) as char] else Digits(n / 10) + [(n % 10 + '0' as int) as char]
  }

  function ToString(n: int): (s: string)
  {
    if n < 0 then "-" + Digits(-n) else Digits(n)
  }

  function Value(s: string): (v: int)
    requires forall i :: 0 <= i < |s| ==> IsDigit(s[i])
    ensures v >= 0
  {
    if s == "" then 0 else 10 * Value(s[..|s| - 1]) + DigitValue(s[|s| - 1])
  }

  /** A read number with the count of characters used, or the exception thrown. */
  datatype Reading = Number(value: int, used: nat) | InvalidArgument | OutOfRange

  function SkipSpace(s: string, i: nat): (k: nat)
    requires i <= |s|
    ensures i <= k <= |s|
    decreases |s| - i
  {
    if i < |s| && IsSpace(s[i]) then SkipSpace(s, i + 1) else i
  }

  function SkipDigits(s: string, i: nat): (k: nat)
    requires i <= |s|
    ensures i <= k <= |s|
    ensures forall j :: i <= j < k ==> IsDigit(s[j])
    decreases |s| - i
  {
    if i < |s| && IsDigit(s[i]) then SkipDigits(s, i + 1) else i
  }

  /** The longest numeral at the front: blanks, a sign, digits. */
  function Read(s: string): Reading
  {
    var start := SkipSpace(s, 0);
    var first := if start < |s| && (s[start] == '-' || s[start] == '+') then start + 1 else start;
    var end := SkipDigits(s, first);
    if end == first then InvalidArgument
    else
      var magnitude := Value(s[first..end]);
      Number(if s[start] == '-' then -magnitude else magnitude, end)
  }

  function Stoi(s: string): Reading {
    match Read(s)
    case Number(v, used) => if IsInt(v) then Number(v, used) else OutOfRange
    case other => other
  }

  /** A negative numeral is accepted and wraps around. */
  function Stoul(s: string): Reading {
    match Read(s)
    case Number(v, used) =>
      if v > ULONG_MAX || v < -ULONG_MAX then OutOfRange
      else Number(if v < 0 then v + ULONG_MAX + 1 else v, used)
    case other => other
  }

  lemma {:induction false} ValueOfDigits(n: nat)
    ensures Value(Digits(n)) == n
  {
    if n >= 10 {
      ValueOfDigits(n / 10);
      assert Digits(n)[..|Digits(n)| - 1] == Digits(n / 10);
    }
  }

  lemma {:induction false} SkipDigitsStops(s: string, i: nat, k: nat)
    requires i <= k <= |s| && (forall j :: i <= j < k ==> IsDigit(s[j]))
    requires k == |s| || !IsDigit(s[k])
    ensures SkipDigits(s, i) == k
    decreases k - i
  {
    if i < k {
      SkipDigitsStops(s, i + 1, k);
    }
  }

  lemma ReadNumeral(s: string, first: nat, end: nat)
    requires first < end <= |s| && (forall j :: first <= j < end ==> IsDigit(s[j]))
    requires end == |s| || !IsDigit(s[end])
    requires first == 0 || (first == 1 && s[0] == '-')
    ensures Read(s) == Number(if first == 1 then -Value(s[first..end]) else Value(s[first..end]), end)
  {
    SkipDigitsStops(s, first, end);
  }

  /** Reading what was printed gives the number back, whatever non-digit follows. */
  lemma ReadPrinted(n: int, rest: string)
    requires rest == "" || !IsDigit(rest[0])
    ensures Read(ToString(n) + rest) == Number(n, |ToString(n)|)
  {
    var s, end, magnitude := ToString(n) + rest, |ToString(n)|, if n < 0 then -n else n;
    var first := if n < 0 then 1 else 0;
    var digits := Digits(magnitude);
    assert s[first..end] == digits;
    forall j | first <= j < end ensures IsDigit(s[j]) {
      assert s[j] == digits[j - first];
    }
    ReadNumeral(s, first, end);
    ValueOfDigits(magnitude);
  }
}
