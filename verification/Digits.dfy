/** Decimal text of natural numbers. */
module Digits {
  import opened ByteOrder

  function Pow10(n: nat): (r: nat)
    ensures r > 0
  {
    if n == 0 then 1 else 10 * Pow10(n - 1)
  }

  /** A number followed by some zeros. */
  function Shift(n: nat, digits: nat): nat {
    if digits == 0 then n else 10 * Shift(n, digits - 1)
  }

  lemma {:induction false} ShiftZero(digits: nat)
    ensures Shift(0, digits) == 0
  {
    if digits > 0 {
      ShiftZero(digits - 1);
    }
  }

  predicate IsDigit(c: char) { '0' <= c <= '9' }

  predicate AllDigits(s: string) { forall i :: 0 <= i < |s| ==> IsDigit(s[i]) }

  function DigitOf(n: nat): (c: char)
    requires n < 10
    ensures IsDigit(c)
  {
    '0' + n as char
  }

  function ValueOfDigit(c: char): (n: nat)
    requires IsDigit(c)
    ensures n < 10 && DigitOf(n) == c
  {
    (c - '0') as int
  }

  /** The number written by some digits, which may begin with zeros. */
  function ValueOf(s: string): nat
    requires AllDigits(s)
  {
    if s == "" then 0 else 10 * ValueOf(s[..|s| - 1]) + ValueOfDigit(s[|s| - 1])
  }

  /** str(n) */
  function ToText(n: nat): (s: string)
    ensures s != "" && AllDigits(s)
  {
    if n < 10 then [DigitOf(n)] else ToText(n / 10) + [DigitOf(n % 10)]
  }

  lemma PowersOf10()
    ensures Pow10(0) == 1 && Pow10(1) == 10 && Pow10(2) == 100 && Pow10(3) == 1000 && Pow10(4) == 1_0000
    ensures Pow10(5) == 10_0000 && Pow10(6) == 100_0000 && Pow10(7) == 1000_0000 && Pow10(8) == 1_0000_0000
    ensures Pow10(9) == 10_0000_0000
  {
    assert Pow10(2) == 10 * Pow10(1) && Pow10(4) == 10 * Pow10(3) && Pow10(6) == 10 * Pow10(5);
    assert Pow10(8) == 10 * Pow10(7);
  }

  lemma {:induction false} DigitAt(n: nat, k: nat)
    requires k < |ToText(n)|
    ensures ToText(n)[|ToText(n)| - 1 - k] == DigitOf(n / Pow10(k) % 10)
  {
    if k > 0 {
      DigitAt(n / 10, k - 1);
      DivideTwice(n, 10, Pow10(k - 1));
    }
  }

  lemma DigitsInOrder(n: nat)
    requires n < 10
    ensures DigitOf(n) == "0123456789"[n]
  {
  }

  /** The k-th character from the end is the digit of weight 10^k. */
  lemma PrintedDigit(n: nat, k: nat)
    requires k < |ToText(n)|
    ensures ToText(n)[|ToText(n)| - 1 - k] == "0123456789"[n / Pow10(k) % 10]
  {
    DigitAt(n, k);
    DigitsInOrder(n / Pow10(k) % 10);
  }

  /** There are as many digits as needed and no more. */
  lemma {:induction false} DigitCount(n: nat)
    ensures n < Pow10(|ToText(n)|) && (n > 0 ==> Pow10(|ToText(n)| - 1) <= n)
  {
    if n >= 10 {
      DigitCount(n / 10);
    }
  }

  lemma {:induction false} ReadBack(n: nat)
    ensures ValueOf(ToText(n)) == n
  {
    var s := ToText(n);
    if n < 10 {
      assert s[..0] == "" && ValueOf(s[..0]) == 0;
    } else {
      ReadBack(n / 10);
      assert s[..|s| - 1] == ToText(n / 10);
    }
  }

  lemma {:induction false} ValueOfConcat(a: string, b: string)
    requires AllDigits(a) && AllDigits(b)
    ensures AllDigits(a + b) && ValueOf(a + b) == Shift(ValueOf(a), |b|) + ValueOf(b)
  {
    if b == "" {
      assert a + b == a;
    } else {
      var front := b[..|b| - 1];
      ValueOfConcat(a, front);
      assert (a + b)[..|a + b| - 1] == a + front;
    }
  }

  function Zeros(n: nat): (s: string)
    ensures |s| == n && AllDigits(s)
  {
    seq(n, _ => '0')
  }

  lemma {:induction false} ValueOfZeros(n: nat)
    ensures ValueOf(Zeros(n)) == 0
  {
    if n > 0 {
      ValueOfZeros(n - 1);
      assert Zeros(n)[..n - 1] == Zeros(n - 1);
    }
  }

  /** The number padded with zeros on the left to a width. */
  function Pad(n: nat, width: nat): (s: string)
    ensures s != "" && AllDigits(s)
  {
    var text := ToText(n);
    if width <= |text| then text else Zeros(width - |text|) + text
  }

  lemma {:induction false} LengthOfText(n: nat, width: nat)
    requires width > 0 && n < Pow10(width)
    ensures |ToText(n)| <= width
  {
    if n >= 10 {
      LengthOfText(n / 10, width - 1);
    }
  }

  /** Padding keeps the number, and has the width if the number fits. */
  lemma Padded(n: nat, width: nat)
    ensures ValueOf(Pad(n, width)) == n
    ensures width > 0 && n < Pow10(width) ==> |Pad(n, width)| == width
  {
    ReadBack(n);
    var text := ToText(n);
    if |text| < width {
      ValueOfZeros(width - |text|);
      ShiftZero(|text|);
      ValueOfConcat(Zeros(width - |text|), text);
    }
    if width > 0 && n < Pow10(width) {
      LengthOfText(n, width);
    }
  }

  /** All but the last digits of a number. */
  function HighDigits(n: nat, digits: nat): nat {
    if digits == 0 then n else HighDigits(n / 10, digits - 1)
  }

  /** They are the quotient by a power of ten. */
  lemma {:induction false} HighIsQuotient(n: nat, digits: nat)
    ensures HighDigits(n, digits) == n / Pow10(digits)
  {
    if digits > 0 {
      HighIsQuotient(n / 10, digits - 1);
      DivideTwice(n, 10, Pow10(digits - 1));
    }
  }

  /** The last digits of a number. */
  function LowDigits(n: nat, digits: nat): (r: nat)
    ensures r < Pow10(digits)
  {
    if digits == 0 then 0 else 10 * LowDigits(n / 10, digits - 1) + n % 10
  }

  lemma {:induction false} HighAndLow(n: nat, digits: nat)
    ensures n == Shift(HighDigits(n, digits), digits) + LowDigits(n, digits)
  {
    if digits > 0 {
      HighAndLow(n / 10, digits - 1);
    }
  }

  lemma {:induction false} ShiftIsProduct(n: nat, digits: nat)
    ensures Shift(n, digits) == Pow10(digits) * n
  {
    if digits > 0 {
      ShiftIsProduct(n, digits - 1);
      assert 10 * (Pow10(digits - 1) * n) == 10 * Pow10(digits - 1) * n;
    }
  }

  /** They are the remainder of that. */
  lemma LowIsRemainder(n: nat, digits: nat)
    ensures LowDigits(n, digits) == n % Pow10(digits)
  {
    HighAndLow(n, digits);
    HighIsQuotient(n, digits);
    ShiftIsProduct(n / Pow10(digits), digits);
    assert n == Pow10(digits) * (n / Pow10(digits)) + n % Pow10(digits);
  }

  lemma {:induction false} HighIsBelow(n: nat, digits: nat, high: nat)
    requires n < Pow10(high + digits)
    ensures HighDigits(n, digits) < Pow10(high)
  {
    if digits > 0 {
      HighIsBelow(n / 10, digits - 1, high);
    }
  }

  lemma {:induction false} LowSplit(n: nat, k: nat, digits: nat)
    ensures LowDigits(n, digits + k) == Shift(LowDigits(HighDigits(n, k), digits), k) + LowDigits(n, k)
  {
    if k > 0 {
      LowSplit(n / 10, k - 1, digits);
      assert LowDigits(n, digits + k) == 10 * LowDigits(n / 10, digits + (k - 1)) + n % 10;
    }
  }

  lemma LowOfFew(n: nat, digits: nat)
    requires n < Pow10(digits)
    ensures LowDigits(n, digits) == n
  {
  }
}
