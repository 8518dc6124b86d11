/** Decimal printing and parsing of unsigned integers, with the limits of the
    machine types the services use. */
module Decimal {
  import opened Wrappers

  const U64: nat := 0x1_0000_0000_0000_0000
  const I64: nat := 0x8000_0000_0000_0000

  const DIGITS := "0123456789"

  predicate IsDigit(c: char) {
    '0' <= c <= '9'
  }

  predicate AllDigits(s: string) {
    forall i :: 0 <= i < |s| ==> IsDigit(s[i])
  }

  function DigitValue(c: char): (d: nat)
    requires IsDigit(c)
    ensures d < 10
  {
    (c as int) - ('0' as int)
  }

  function Value(s: string): nat
    requires AllDigits(s)
  {
    if s == "" then 0 else Value(s[..|s| - 1]) * 10 + DigitValue(s[|s| - 1])
  }

  function Print(n: nat): (s: string)
    ensures s != "" && AllDigits(s)
    decreases n
  {
    if n < 10 then [DIGITS[n]] else Print(n / 10) + [DIGITS[n % 10]]
  }

  /** Parsing of a number below `limit`: one leading plus sign is accepted,
      leading zeros are accepted, anything else but digits is refused. */
  function Parse(s: string, limit: nat): Option<nat> {
    var digits := if s != "" && s[0] == '+' then s[1..] else s;
    if digits == "" || !AllDigits(digits) then None
    else if Value(digits) < limit then Some(Value(digits))
    else None
  }

  function ParseU64(s: string): Option<nat> {
    Parse(s, U64)
  }

  lemma {:induction false} ValueOfPrint(n: nat)
    ensures Value(Print(n)) == n
    decreases n
  {
    if n >= 10 {
      ValueOfPrint(n / 10);
      var s := Print(n);
      assert s[..|s| - 1] == Print(n / 10);
      assert s[|s| - 1] == DIGITS[n % 10];
    }
  }

  /** Printing then parsing is the identity exactly below the limit. */
  lemma ParsePrint(n: nat, limit: nat)
    ensures Parse(Print(n), limit) == if n < limit then Some(n) else None
  {
    ValueOfPrint(n);
    assert IsDigit(Print(n)[0]);
  }

  lemma PrintInjective(m: nat, n: nat)
    ensures Print(m) == Print(n) ==> m == n
  {
    ValueOfPrint(m);
    ValueOfPrint(n);
  }

  // ---------------------------------------------------------------------
  // Numerals
  // ---------------------------------------------------------------------

  function Zeros(k: nat): string {
    if k == 0 then "" else Zeros(k - 1) + "0"
  }

  /** s writes n in decimal: perhaps a plus sign, any number of zeros, its digits. */
  ghost predicate Writes(s: string, n: nat) {
    exists k: nat :: s == Zeros(k) + Print(n) || s == "+" + (Zeros(k) + Print(n))
  }

  lemma {:induction false} ZerosAreNothing(k: nat, n: nat)
    ensures AllDigits(Zeros(k) + Print(n)) && Value(Zeros(k) + Print(n)) == n
    decreases n, k
  {
    var s := Zeros(k) + Print(n);
    if n >= 10 {
      assert s[..|s| - 1] == Zeros(k) + Print(n / 10);
      ZerosAreNothing(k, n / 10);
    } else {
      ZerosOnly(k);
      assert s[..|s| - 1] == Zeros(k) && s[|s| - 1] == DIGITS[n];
    }
  }

  lemma {:induction false} ZerosOnly(k: nat)
    ensures AllDigits(Zeros(k)) && Value(Zeros(k)) == 0
    decreases k
  {
    if k > 0 {
      ZerosOnly(k - 1);
      assert Zeros(k)[..|Zeros(k)| - 1] == Zeros(k - 1);
    }
  }

  lemma PrintAppend(v: nat, d: nat)
    requires d < 10
    ensures Print(v * 10 + d) == (if v == 0 then "" else Print(v)) + [DIGITS[d]]
  {
    assert (v * 10 + d) / 10 == v && (v * 10 + d) % 10 == d;
  }

  lemma ValueAppend(init: string, c: char)
    requires AllDigits(init) && IsDigit(c)
    ensures AllDigits(init + [c]) && Value(init + [c]) == Value(init) * 10 + DigitValue(c)
    ensures DIGITS[DigitValue(c)] == c
  {
    assert (init + [c])[..|init|] == init;
  }

  lemma PrintZero()
    ensures Print(0) == "0" && Value("") == 0
  {
  }

  /** A non-empty string of digits is zeros and the digits of its value. */
  lemma {:induction false} DigitsWrite(s: string) returns (k: nat)
    requires s != "" && AllDigits(s)
    ensures s == Zeros(k) + Print(Value(s))
    decreases |s|
  {
    hide Print, Value, DigitValue;
    var init, c := s[..|s| - 1], s[|s| - 1];
    assert s == init + [c];
    ValueAppend(init, c);
    PrintAppend(Value(init), DigitValue(c));
    PrintZero();
    k := 0;
    if init != "" {
      var j := DigitsWrite(init);
      k := if Value(init) == 0 then j + 1 else j;
    }
  }

  lemma DigitsFirst(k: nat, n: nat)
    ensures var s := Zeros(k) + Print(n); s != "" && s[0] != '+'
  {
    ZerosAreNothing(k, n);
    assert IsDigit((Zeros(k) + Print(n))[0]);
  }

  /** Parsing accepts exactly the ways of writing a number below the limit. */
  lemma ParseMeaning(s: string, limit: nat, n: nat)
    ensures Parse(s, limit) == Some(n) <==> n < limit && Writes(s, n)
  {
    hide Print, Zeros;
    if Parse(s, limit) == Some(n) {
      var k := DigitsWrite(if s[0] == '+' then s[1..] else s);
      assert s[0] == '+' ==> s == "+" + s[1..];
    }
    if n < limit && Writes(s, n) {
      var k: nat :| s == Zeros(k) + Print(n) || s == "+" + (Zeros(k) + Print(n));
      ZerosAreNothing(k, n);
      DigitsFirst(k, n);
      if s[0] == '+' {
        assert s[1..] == Zeros(k) + Print(n);
      }
    }
  }

  /** Nothing but signs and digits is a number. */
  lemma WritesDigits(s: string, n: nat, c: char)
    requires Writes(s, n) && !IsDigit(c) && c != '+'
    ensures c !in s
  {
    hide Print, Zeros;
    var k: nat :| s == Zeros(k) + Print(n) || s == "+" + (Zeros(k) + Print(n));
    ZerosAreNothing(k, n);
  }
}
