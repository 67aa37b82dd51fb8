/** Powers and bit lengths. */
module Numbers {

  function Pow2(n: nat): (r: nat)
    ensures r >= 1
  {
    if n == 0 then 1 else 2 * Pow2(n - 1)
  }

  function Pow(base: int, exponent: nat): (r: int)
    ensures base >= 0 ==> r >= 0
    ensures base >= 1 ==> r >= 1
  {
    if exponent == 0 then 1 else base * Pow(base, exponent - 1)
  }

  /** Number of bits of the binary notation of `n`; 0 for 0. */
  function BitLength(n: nat): nat {
    if n == 0 then 0 else 1 + BitLength(n / 2)
  }

  lemma {:induction false} Pow2Add(a: nat, b: nat)
    ensures Pow2(a + b) == Pow2(a) * Pow2(b)
  {
    if a > 0 {
      Pow2Add(a - 1, b);
      assert Pow2(a + b) == 2 * Pow2(a - 1 + b);
    }
  }

  lemma {:induction false} Pow2Monotone(a: nat, b: nat)
    requires a <= b
    ensures Pow2(a) <= Pow2(b)
    ensures a < b ==> 2 * Pow2(a) <= Pow2(b)
    decreases b - a
  {
    if a < b {
      Pow2Monotone(a + 1, b);
    }
  }

  /** `BitLength` is the exact exponent range of a positive number. */
  lemma {:induction false} BitLengthBounds(n: nat)
    ensures n < Pow2(BitLength(n))
    ensures n > 0 ==> BitLength(n) > 0 && Pow2(BitLength(n) - 1) <= n
  {
    if n > 0 {
      BitLengthBounds(n / 2);
    }
  }

  lemma BitLengthUnique(n: nat, width: nat)
    requires n < Pow2(width) && (width > 0 ==> Pow2(width - 1) <= n)
    ensures BitLength(n) == width
  {
    BitLengthBounds(n);
    if BitLength(n) < width {
      Pow2Monotone(BitLength(n), width - 1);
    } else if BitLength(n) > width {
      Pow2Monotone(width, BitLength(n) - 1);
    }
  }

  lemma {:induction false} BitLengthMonotone(a: nat, b: nat)
    requires a <= b
    ensures BitLength(a) <= BitLength(b)
  {
    if a > 0 {
      BitLengthMonotone(a / 2, b / 2);
    }
  }

  /** A number has more than `width` bits exactly when it reaches 2^width. */
  lemma BitLengthExceeds(n: nat, width: nat)
    ensures BitLength(n) > width <==> n >= Pow2(width)
  {
    BitLengthBounds(n);
    if BitLength(n) > width {
      Pow2Monotone(width, BitLength(n) - 1);
    } else {
      Pow2Monotone(BitLength(n), width);
    }
  }

  lemma BitLengthShift(n: nat, shift: nat)
    requires n > 0
    ensures n * Pow2(shift) > 0 && BitLength(n * Pow2(shift)) == BitLength(n) + shift
  {
    var width := BitLength(n);
    BitLengthBounds(n);
    Pow2Add(width, shift);
    Pow2Add(width - 1, shift);
    MulMonotone(n + 1, Pow2(width), Pow2(shift));
    MulMonotone(Pow2(width - 1), n, Pow2(shift));
    assert (n + 1) * Pow2(shift) == n * Pow2(shift) + Pow2(shift);
    BitLengthUnique(n * Pow2(shift), width + shift);
  }

  lemma MulMonotone(a: int, b: int, c: nat)
    requires a <= b
    ensures a * c <= b * c
  {
    assert (b - a) * c >= 0;
  }

  lemma MulMonotoneBoth(a: nat, b: nat, c: nat, d: nat)
    requires a <= b && c <= d
    ensures a * c <= b * d
  {
    MulMonotone(a, b, c);
    MulMonotone(c, d, b);
  }

  lemma {:induction false} PowAdd(base: int, a: nat, b: nat)
    ensures Pow(base, a + b) == Pow(base, a) * Pow(base, b)
  {
    if a > 0 {
      PowAdd(base, a - 1, b);
      assert Pow(base, a + b) == base * Pow(base, a - 1 + b);
      Associate(base, Pow(base, a - 1), Pow(base, b));
    }
  }

  lemma Associate(a: int, b: int, c: int)
    ensures a * (b * c) == (a * b) * c
  {
  }

  lemma {:induction false} PowMonotone(base: nat, a: nat, b: nat)
    requires base >= 1 && a <= b
    ensures 1 <= Pow(base, a) <= Pow(base, b)
  {
    if a < b {
      PowMonotone(base, a, b - 1);
      MulMonotone(1, base, Pow(base, b - 1));
    }
  }

  lemma {:induction false} PowOfPow2(log: nat, exponent: nat)
    ensures Pow(Pow2(log), exponent) == Pow2(log * exponent)
  {
    if exponent > 0 {
      PowOfPow2(log, exponent - 1);
      Pow2Add(log, log * (exponent - 1));
      assert log + log * (exponent - 1) == log * exponent;
    }
  }
}
