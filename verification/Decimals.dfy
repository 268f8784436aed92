/** Decimal notation. */
module Decimals {
  predicate IsDigit(c: char) { '0' <= c <= '9' }

  predicate AllDigits(text: string) { forall c <- text :: IsDigit(c) }

  function DigitValue(c: char): nat
    requires IsDigit(c)
  {
    c as int - '0' as int
  }

  function DigitChar(n: nat): (c: char)
    requires n < 10
    ensures IsDigit(c) && DigitValue(c) == n
  {
    ('0' as int + n) as char
  }

  /** The number a string of digits denotes. */
  function Number(digits: string): nat
    requires AllDigits(digits)
  {
    if digits == "" then 0 else Number(digits[..|digits| - 1]) * 10 + DigitValue(digits[|digits| - 1])
  }

  /** The shortest decimal notation of `n`. */
  function Digits(n: nat): (digits: string)
    ensures AllDigits(digits) && |digits| >= 1
  {
    if n < 10 then [DigitChar(n)] else Digits(n / 10) + [DigitChar(n % 10)]
  }

  function Zeros(n: nat): (zeros: string)
    ensures |zeros| == n && AllDigits(zeros)
  {
    if n == 0 then "" else Zeros(n - 1) + "0"
  }

  lemma {:induction false} NumberOfDigits(n: nat)
    ensures Number(Digits(n)) == n
  {
    if n >= 10 {
      NumberOfDigits(n / 10);
      assert Digits(n)[..|Digits(n)| - 1] == Digits(n / 10);
    }
  }

  lemma {:induction false} NumberOfPadded(zeros: nat, digits: string)
    requires AllDigits(digits)
    ensures AllDigits(Zeros(zeros) + digits) && Number(Zeros(zeros) + digits) == Number(digits)
  {
    if digits == "" {
      assert Zeros(zeros) + "" == Zeros(zeros);
      NumberOfZeros(zeros);
    } else {
      var n := |digits| - 1;
      NumberOfPadded(zeros, digits[..n]);
      assert (Zeros(zeros) + digits)[..zeros + n] == Zeros(zeros) + digits[..n];
    }
  }

  lemma {:induction false} NumberOfZeros(n: nat)
    ensures Number(Zeros(n)) == 0
  {
    if n > 0 {
      NumberOfZeros(n - 1);
      assert Zeros(n)[..n - 1] == Zeros(n - 1);
    }
  }
}
