/** Decimal numerals: how node ids, name suffixes and positional references spell a number. */
module Decimal {

  datatype Parsed = NotANumber | Number(value: int)

  const MAX_INT64 := 0x7FFF_FFFF_FFFF_FFFF

  predicate IsDigit(c: char) { '0' <= c <= '9' }

  function DigitChar(d: nat): (c: char)
    requires d < 10
    ensures IsDigit(c) && DigitValue(c) == d
  {
    ('0' as int + d) as char
  }

  function DigitValue(c: char): (d: nat)
    requires IsDigit(c)
  {
    c as int - '0' as int
  }

  /** The numeral of n, most significant digit first. */
  function Numeral(n: nat): (s: string)
    ensures |s| > 0
    ensures forall i :: 0 <= i < |s| ==> IsDigit(s[i])
  {
    if n < 10 then [DigitChar(n)] else Numeral(n / 10) + [DigitChar(n % 10)]
  }

  predicate AllDigits(s: string) {
    forall i :: 0 <= i < |s| ==> IsDigit(s[i])
  }

  function Value(s: string): nat
    requires AllDigits(s)
  {
    if s == [] then 0 else 10 * Value(s[..|s| - 1]) + DigitValue(s[|s| - 1])
  }

  lemma {:induction false} NumeralValue(n: nat)
    ensures Value(Numeral(n)) == n
  {
    var s := Numeral(n);
    if n >= 10 {
      NumeralValue(n / 10);
      assert s[..|s| - 1] == Numeral(n / 10);
    } else {
      assert s[..|s| - 1] == [];
    }
  }

  lemma NumeralInjective(a: nat, b: nat)
    requires Numeral(a) == Numeral(b)
    ensures a == b
  {
    NumeralValue(a);
    NumeralValue(b);
  }

  /** strconv.Atoi on 64 bits: an optional sign, at least one ASCII digit, nothing else, in range. */
  function Atoi(s: string): Parsed {
    var signed := |s| > 0 && (s[0] == '-' || s[0] == '+');
    var digits := if signed then s[1..] else s;
    if digits == [] || !AllDigits(digits) then NotANumber
    else
      var v: int := if signed && s[0] == '-' then 0 - Value(digits) else Value(digits);
      if -MAX_INT64 - 1 <= v <= MAX_INT64 then Number(v) else NotANumber
  }

  /** Reading back a position that was written as a numeral. */
  lemma AtoiNumeral(n: nat)
    requires n <= MAX_INT64
    ensures Atoi(Numeral(n)) == Number(n)
  {
    NumeralValue(n);
    assert IsDigit(Numeral(n)[0]);
  }

  lemma NotNumeric(s: string)
    requires s != "" && !IsDigit(s[0]) && s[0] != '-' && s[0] != '+'
    ensures Atoi(s) == NotANumber
  {
    assert !AllDigits(s) by { assert !IsDigit(s[0]); }
  }
}
