/** Decimal printing (`std::to_string`, `operator<<`) and parsing (`std::stoull`). */
module Decimal {
  import opened Types

  predicate IsDigit(c: char) {
    '0' <= c <= '9'
  }

  predicate AllDigits(s: string) {
    forall i :: 0 <= i < |s| ==> IsDigit(s[i])
  }

  predicate IsSpace(c: char) {
    c == ' ' || ('\t' <= c <= '\r')
  }

  function DigitChar(d: nat): (c: char)
    requires d < 10
    ensures IsDigit(c) && DigitValue(c) == d
  {
    ('0' as int + d) as char
  }

  function DigitValue(c: char): nat
    requires IsDigit(c)
  {
    c as int - '0' as int
  }

  function ToDecimal(n: nat): (s: string)
    ensures s != [] && AllDigits(s)
  {
    if n < 10 then [DigitChar(n)] else ToDecimal(n / 10) + [DigitChar(n % 10)]
  }

  function Value(s: string): nat
    requires AllDigits(s)
  {
    if s == [] then 0 else Value(s[..|s| - 1]) * 10 + DigitValue(s[|s| - 1])
  }

  lemma {:induction false} ValueOfDecimal(n: nat)
    ensures Value(ToDecimal(n)) == n
  {
    if n >= 10 {
      ValueOfDecimal(n / 10);
      var s := ToDecimal(n);
      assert s[..|s| - 1] == ToDecimal(n / 10);
    }
  }

  lemma DecimalInjective(a: nat, b: nat)
    requires ToDecimal(a) == ToDecimal(b)
    ensures a == b
  {
    ValueOfDecimal(a);
    ValueOfDecimal(b);
  }

  function LeadingSpaces(s: string): (n: nat)
    ensures n <= |s|
  {
    if s != [] && IsSpace(s[0]) then 1 + LeadingSpaces(s[1..]) else 0
  }

  function LeadingDigits(s: string): (n: nat)
    ensures n <= |s| && AllDigits(s[..n])
    ensures AllDigits(s) ==> n == |s|
  {
    if s != [] && IsDigit(s[0]) then
      var n := 1 + LeadingDigits(s[1..]);
      assert s[..n] == [s[0]] + s[1..][..n - 1];
      n
    else 0
  }

  /** The longest run of digits; `None` if there is none or its value does not fit in 64 bits. */
  function FromDigits(u: string): Option<Uint64> {
    var n := LeadingDigits(u);
    if n == 0 || Value(u[..n]) >= UINT64_MODULUS then None else Some(Value(u[..n]))
  }

  /** An optional sign before them; a minus sign negates modulo 2^64. */
  function FromSigned(t: string): Option<Uint64> {
    if t != [] && t[0] == '-' then
      var v := FromDigits(t[1..]);
      if v.None? then None else Some((UINT64_MODULUS - v.value) % UINT64_MODULUS)
    else if t != [] && t[0] == '+' then FromDigits(t[1..])
    else FromDigits(t)
  }

  /** `std::stoull` in base ten: blanks first. `None` stands for the exceptions. */
  function StringToUint64(s: string): Option<Uint64> {
    FromSigned(s[LeadingSpaces(s)..])
  }

  lemma ParseDecimal(n: Uint64)
    ensures StringToUint64(ToDecimal(n)) == Some(n)
  {
    var s := ToDecimal(n);
    ValueOfDecimal(n);
    assert IsDigit(s[0]);
    assert s[0..] == s && s[..|s|] == s;
  }

  lemma ParseRejectsLetters(s: string)
    requires s != [] && !IsSpace(s[0]) && !IsDigit(s[0]) && s[0] != '-' && s[0] != '+'
    ensures StringToUint64(s) == None
  {
    assert s[0..] == s;
  }
}
