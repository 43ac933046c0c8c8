/** Go's strconv.Itoa and strconv.Atoi on base-ten strings. */
module Decimal {

  const INT64_MIN := -0x8000_0000_0000_0000
  const INT64_MAX := 0x7fff_ffff_ffff_ffff

  predicate FitsInt64(n: int) {
    INT64_MIN <= n <= INT64_MAX
  }

  predicate IsDigit(c: char) {
    '0' <= c <= '9'
  }

  function DigitChar(d: nat): char
    requires d < 10
  {
    '0' + d as char
  }

  function DigitValue(c: char): nat
    requires IsDigit(c)
  {
    c as nat - '0' as nat
  }

  predicate AllDigits(s: string) {
    forall i :: 0 <= i < |s| ==> IsDigit(s[i])
  }

  /** The digits of a natural number, without leading zeros. */
  function Digits(n: nat): (s: string)
    ensures s != [] && AllDigits(s)
  {
    if n < 10 then [DigitChar(n)] else Digits(n / 10) + [DigitChar(n % 10)]
  }

  /** The number a string of digits stands for. */
  function Value(s: string): nat
    requires AllDigits(s)
  {
    if s == [] then 0 else 10 * Value(s[..|s| - 1]) + DigitValue(s[|s| - 1])
  }

  lemma {:induction false} ValueOfDigits(n: nat)
    ensures Value(Digits(n)) == n
  {
    if n < 10 {
      assert Digits(n)[..0] == [];
    } else {
      var front := Digits(n / 10);
      ValueOfDigits(n / 10);
      assert Digits(n)[..|front|] == front;
    }
  }

  /** n divided by ten k times. */
  function TensOff(n: nat, k: nat): nat {
    if k == 0 then n else TensOff(n / 10, k - 1)
  }

  /** The k-th digit from the right is what remains of the k-th quotient, and none is written in vain. */
  lemma {:induction false} DigitAt(n: nat, k: nat)
    ensures k < |Digits(n)| ==> Digits(n)[|Digits(n)| - 1 - k] == "0123456789"[TensOff(n, k) % 10]
    ensures n > 0 ==> Digits(n)[0] != '0'
  {
    if n >= 10 { DigitAt(n / 10, if k > 0 then k - 1 else 0); }
  }

  function Itoa(n: int): string {
    if n < 0 then "-" + Digits(-n) else Digits(n)
  }

  lemma {:induction false} DigitsInjective(m: nat, n: nat)
    requires Digits(m) == Digits(n)
    ensures m == n
  {
    ValueOfDigits(m);
    ValueOfDigits(n);
  }

  /** A minus sign stands for a negative number, and the digits follow. */
  lemma {:induction false} ItoaSign(n: int)
    ensures Itoa(n) != [] && (Itoa(n)[0] == '-' <==> n < 0)
    ensures n < 0 ==> Itoa(n)[1..] == Digits(-n)
  {
    if n >= 0 { assert IsDigit(Digits(n)[0]); }
  }

  lemma {:induction false} ItoaInjective(m: int, n: int)
    requires Itoa(m) == Itoa(n)
    ensures m == n
  {
    ItoaSign(m);
    ItoaSign(n);
    if m < 0 {
      DigitsInjective(-m, -n);
    } else {
      DigitsInjective(m, n);
    }
  }

  datatype Parsed = Number(n: int) | Invalid

  /** An optional sign, at least one digit, and a value in the 64-bit range. */
  function Atoi(s: string): Parsed {
    var body := if s != [] && (s[0] == '-' || s[0] == '+') then s[1..] else s;
    if body == [] || !AllDigits(body) then Invalid
    else
      var n: int := if s[0] == '-' then -(Value(body) as int) else Value(body);
      if FitsInt64(n) then Number(n) else Invalid
  }

  lemma {:induction false} LeadingZero(s: string)
    requires AllDigits(s)
    ensures AllDigits("0" + s) && Value("0" + s) == Value(s)
  {
    if s == [] {
      assert ("0" + s)[..0] == [];
    } else {
      LeadingZero(s[..|s| - 1]);
      assert ("0" + s)[..|s|] == "0" + s[..|s| - 1];
    }
  }

  /** Signs and leading zeros: a plus and zeros change nothing, a minus negates. */
  lemma {:induction false} AtoiForms(digits: string)
    requires digits != [] && AllDigits(digits)
    ensures Atoi("+" + digits) == Atoi("0" + digits) == Atoi(digits)
    ensures Atoi(digits) == if FitsInt64(Value(digits)) then Number(Value(digits)) else Invalid
    ensures var n: int := Value(digits); Atoi("-" + digits) == if FitsInt64(-n) then Number(-n) else Invalid
  {
    LeadingZero(digits);
    assert IsDigit(digits[0]);
    assert ("+" + digits)[1..] == digits && ("-" + digits)[1..] == digits;
  }

  /** What is not digits, with at most a sign before them, is no number. */
  lemma {:induction false} AtoiRejects(s: string)
    requires forall sign, digits ::
      sign in {"", "+", "-"} && digits != [] && AllDigits(digits) ==> s != sign + digits
    ensures Atoi(s) == Invalid
  {
    if s != [] && (s[0] == '-' || s[0] == '+') {
      assert s == [s[0]] + s[1..] && [s[0]] in {"", "+", "-"};
    } else {
      assert s == "" + s;
    }
  }

  /** Printing and parsing are inverse on the 64-bit range, and only there. */
  lemma {:induction false} AtoiOfItoa(n: int)
    ensures Atoi(Itoa(n)) == if FitsInt64(n) then Number(n) else Invalid
  {
    var digits := Digits(if n < 0 then -n else n);
    ValueOfDigits(if n < 0 then -n else n);
    assert IsDigit(digits[0]);
    if n < 0 {
      assert Itoa(n)[1..] == digits;
    }
  }
}
