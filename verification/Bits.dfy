/** Unsigned 64-bit shifts and ors, written out on natural numbers. */
module Bits {
  const U64_LIMIT: nat := 0x1_0000_0000_0000_0000

  type Byte = b: nat | b < 256
  type U64 = v: nat | v < U64_LIMIT

  function Pow2(n: nat): (p: nat)
    ensures p > 0
  {
    if n == 0 then 1 else 2 * Pow2(n - 1)
  }

  function BitOr(a: nat, b: nat): nat {
    if a == 0 then b
    else if b == 0 then a
    else (if a % 2 == 1 || b % 2 == 1 then 1 else 0) + 2 * BitOr(a / 2, b / 2)
  }

  /** `value << shift`; bits past the 64th are dropped. */
  function ShiftLeft(value: nat, shift: nat): U64 {
    value * Pow2(shift) % U64_LIMIT
  }

  lemma {:induction false} Pow2Sum(a: nat, b: nat)
    ensures Pow2(a + b) == Pow2(a) * Pow2(b)
  {
    if a > 0 {
      Pow2Sum(a - 1, b);
      Pow2Next(a - 1);
      Pow2Next(a - 1 + b);
      hide Pow2;
      DoubleFirst(Pow2(a - 1), Pow2(b));
    }
  }

  lemma Pow2Next(n: nat)
    ensures Pow2(n + 1) == 2 * Pow2(n)
  {
  }

  lemma DoubleFirst(x: nat, y: nat)
    ensures 2 * (x * y) == (2 * x) * y
  {
  }

  lemma Pow2Known()
    ensures Pow2(3) == 8 && Pow2(7) == 128 && Pow2(63) * 2 == Pow2(64) == U64_LIMIT
  {
    assert Pow2(3) == 8 && Pow2(4) == 16;
    Pow2Sum(4, 3);
    Pow2Sum(4, 4);
    Pow2Sum(8, 8);
    Pow2Sum(16, 16);
    Pow2Sum(32, 32);
  }

  lemma {:induction false} BitOrSymmetric(a: nat, b: nat)
    ensures BitOr(a, b) == BitOr(b, a)
  {
    if a != 0 && b != 0 {
      BitOrSymmetric(a / 2, b / 2);
    }
  }

  /** Or-ing bits that do not overlap adds them. */
  lemma {:induction false} BitOrIsSum(low: nat, high: nat, k: nat)
    requires low < Pow2(k)
    ensures BitOr(low, high * Pow2(k)) == low + high * Pow2(k) == BitOr(high * Pow2(k), low)
    decreases k
  {
    BitOrSymmetric(low, high * Pow2(k));
    if k > 0 && low > 0 && high > 0 {
      Pow2Next(k - 1);
      hide Pow2, BitOr;
      var half := high * Pow2(k - 1);
      assert half > 0;
      DoubleFirst(Pow2(k - 1), high);
      assert high * Pow2(k) == 2 * half;
      BitOrIsSum(low / 2, high, k - 1);
      DoubledOr(low, half);
    }
  }

  lemma DoubledOr(low: nat, half: nat)
    requires low > 0 && half > 0
    ensures BitOr(low, 2 * half) == low % 2 + 2 * BitOr(low / 2, half)
  {
  }

  lemma AtLeastOnce(d: int, m: nat)
    ensures d >= 1 ==> d * m >= m
    ensures d <= -1 ==> d * m + m <= 0
  {
    if d >= 1 {
      assert (d - 1) * m >= 0;
    } else if d <= -1 {
      assert (-d - 1) * m >= 0;
    }
  }

  lemma QuotientUnique(x: nat, m: nat, q: nat, r: nat)
    requires m > 0 && x == q * m + r && r < m
    ensures x / m == q && x % m == r
  {
    var d := q - x / m;
    assert x == x / m * m + x % m;
    assert d * m == q * m - x / m * m;
    AtLeastOnce(d, m);
  }

  lemma ProductBelow(rest: nat, p: nat, q: nat)
    requires rest < q && p > 0
    ensures rest * p <= p * q - p
  {
    assert rest * p <= (q - 1) * p;
  }

  lemma Regroup(value: nat, quotient: nat, rest: nat, p: nat, q: nat)
    requires value == quotient * q + rest
    ensures value * p == quotient * (p * q) + rest * p
  {
    assert value * p == quotient * q * p + rest * p;
    assert quotient * q * p == quotient * (q * p);
  }

  /** Shifting keeps the low bits that still fit and leaves `shift` zeros below them. */
  lemma ShiftLeftSplits(value: nat, shift: nat)
    requires shift <= 64
    ensures ShiftLeft(value, shift) == value % Pow2(64 - shift) * Pow2(shift)
    ensures ShiftLeft(value, shift) <= U64_LIMIT - Pow2(shift)
  {
    hide Pow2;
    var p, q := Pow2(shift), Pow2(64 - shift);
    Pow2Sum(shift, 64 - shift);
    Pow2Known();
    var quotient, rest := value / q, value % q;
    Regroup(value, quotient, rest, p, q);
    ProductBelow(rest, p, q);
    QuotientUnique(value * p, U64_LIMIT, quotient, rest * p);
  }

  /** Adding a digit above `value` modulo `p * q` keeps the digit modulo `q`. */
  lemma DigitModulo(value: nat, digit: nat, p: nat, q: nat)
    requires value < p && q > 0
    ensures value + digit % q * p < p * q
    ensures p * q > 0 && (value + digit * p) % (p * q) == value + digit % q * p
  {
    var quotient, rest := digit / q, digit % q;
    Regroup(digit, quotient, rest, p, q);
    ProductBelow(rest, p, q);
    QuotientUnique(value + digit * p, p * q, quotient, value + rest * p);
  }

  /** Or-ing a shifted digit onto smaller bits adds as much of it as fits into 64 bits. */
  lemma OrShiftedIsSum(value: nat, digit: nat, shift: nat)
    requires shift <= 64 && value < Pow2(shift)
    ensures BitOr(value, ShiftLeft(digit, shift)) == (value + digit * Pow2(shift)) % U64_LIMIT
  {
    hide *;
    ShiftLeftSplits(digit, shift);
    BitOrIsSum(value, digit % Pow2(64 - shift), shift);
    Pow2Sum(shift, 64 - shift);
    Pow2Known();
    DigitModulo(value, digit, Pow2(shift), Pow2(64 - shift));
  }

  lemma OrBelowShiftedIsSum(high: nat, low: nat, k: nat)
    requires low < Pow2(k) && high * Pow2(k) < U64_LIMIT
    ensures BitOr(ShiftLeft(high, k), low) == high * Pow2(k) + low
  {
    hide Pow2, BitOr;
    BitOrIsSum(low, high, k);
  }

  lemma DigitFits(value: nat, digit: nat, p: nat, base: nat)
    requires value < p && digit < base
    ensures value + digit * p < base * p
  {
    ProductBelow(digit, p, base);
  }
}
