/** Natural numbers as decimal text. */
module Decimals {

  predicate IsDigit(c: char) {
    '0' <= c <= '9'
  }

  predicate AllDigits(s: string) {
    forall i :: 0 <= i < |s| ==> IsDigit(s[i])
  }

  function Digit(d: nat): char
    requires d < 10
  {
    '0' + d as char
  }

  /** Decimal without padding. */
  function Decimal(n: nat): (s: string)
    ensures s != "" && AllDigits(s)
  {
    if n < 10 then [Digit(n)] else Decimal(n / 10) + [Digit(n % 10)]
  }

  lemma {:induction false} NoLeadingZero(n: nat)
    ensures Decimal(n)[0] == '0' ==> n == 0
  {
    if n >= 10 {
      NoLeadingZero(n / 10);
    }
  }

  /** The number a run of digits denotes, leading zeros included. */
  function Value(digits: string): nat
    requires AllDigits(digits)
  {
    if digits == "" then 0 else 10 * Value(digits[..|digits| - 1]) + (digits[|digits| - 1] - '0') as nat
  }

  lemma {:induction false} ValueOfDecimal(n: nat)
    ensures Value(Decimal(n)) == n
  {
    var s := Decimal(n);
    if n < 10 {
      assert s[..0] == "";
    } else {
      ValueOfDecimal(n / 10);
      assert s[..|s| - 1] == Decimal(n / 10);
    }
  }

  function Pow10(w: nat): nat {
    if w == 0 then 1 else 10 * Pow10(w - 1)
  }

  lemma OneDigitValue(c: char)
    requires IsDigit(c)
    ensures Value([c]) == (c - '0') as nat
  {
    assert [c][..0] == "";
  }

  lemma Distribute(x: nat, y: nat, z: nat, c: nat)
    ensures 10 * (x * y + z) + c == x * (10 * y) + (10 * z + c)
  {
  }

  /** The weight of a digit grows by ten towards the front. */
  lemma {:induction false} ValueConcat(a: string, b: string)
    requires AllDigits(a) && AllDigits(b)
    ensures AllDigits(a + b) && Value(a + b) == Value(a) * Pow10(|b|) + Value(b)
    decreases |b|
  {
    if b == "" {
      assert a + b == a;
    } else {
      var front, last := b[..|b| - 1], b[|b| - 1];
      assert (a + b)[..|a + b| - 1] == a + front;
      ValueConcat(a, front);
      Distribute(Value(a), Pow10(|front|), Value(front), (last - '0') as nat);
    }
  }

  function Zeros(n: nat): (s: string)
    ensures |s| == n && AllDigits(s)
  {
    if n == 0 then "" else "0" + Zeros(n - 1)
  }

  lemma {:induction false} ValueOfZeros(n: nat)
    ensures Value(Zeros(n)) == 0
  {
    if n > 0 {
      ValueOfZeros(n - 1);
      ValueConcat("0", Zeros(n - 1));
      OneDigitValue('0');
    }
  }

  /** Leading zeros do not count. */
  lemma ZerosDoNotCount(n: nat, digits: string)
    requires AllDigits(digits)
    ensures AllDigits(Zeros(n) + digits) && Value(Zeros(n) + digits) == Value(digits)
  {
    ValueOfZeros(n);
    ValueConcat(Zeros(n), digits);
  }

  lemma {:induction false} ZerosEnd(n: nat)
    ensures Zeros(n) + "0" == Zeros(n + 1)
  {
    if n > 0 {
      ZerosEnd(n - 1);
      assert "0" + (Zeros(n - 1) + "0") == Zeros(n) + "0";
    }
  }

  lemma DigitOf(c: char)
    requires IsDigit(c)
    ensures Digit((c - '0') as nat) == c
  {
  }

  lemma LastDigit(front: string, last: char)
    requires AllDigits(front) && IsDigit(last)
    ensures AllDigits(front + [last]) && Value(front + [last]) == 10 * Value(front) + (last - '0') as nat
    ensures Value(front) > 0 ==> Decimal(Value(front + [last])) == Decimal(Value(front)) + [last]
    ensures Value(front) == 0 ==> Decimal(Value(front + [last])) == [last]
  {
    assert (front + [last])[..|front|] == front;
    DigitOf(last);
  }

  /** Conversely every run of digits is zeros in front of the decimal of its value. */
  lemma {:induction false} DigitsAreZerosAndDecimal(digits: string) returns (zeros: nat)
    requires AllDigits(digits) && digits != ""
    ensures digits == Zeros(zeros) + Decimal(Value(digits))
    decreases |digits|
  {
    var front, last := digits[..|digits| - 1], digits[|digits| - 1];
    assert digits == front + [last];
    LastDigit(front, last);
    zeros := 0;
    if front != "" {
      zeros := DigitsAreZerosAndDecimal(front);
      if Value(front) == 0 {
        ZerosEnd(zeros);
        zeros := zeros + 1;
      } else {
        assert Zeros(zeros) + Decimal(Value(front)) + [last] == Zeros(zeros) + (Decimal(Value(front)) + [last]);
      }
    }
  }
}
