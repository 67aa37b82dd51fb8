/** The type of a concrete base raised to an exactly known exponent. */
module PowerTypes {
  import opened Numbers
  import opened Options
  import opened Limbs
  import opened LimbShift
  import opened PowerWidth
  import opened Integers
  import opened Widths
  import opened NumericTypes

  /** The result family: signed only for odd powers of signed bases. */
  predicate PowerSigned(isSigned: bool, exponent: nat) { isSigned && exponent % 2 == 1 }

  /** power_range_endpoints. */
  function PowerEnds(isSigned: bool, width: nat, exponent: nat): (int, int)
    requires width >= 1
  {
    if exponent == 0 then (1, 1)
    else if isSigned && exponent % 2 == 0 then (0, Pow(-Least(isSigned, width), exponent))
    else (if isSigned then Pow(Least(isSigned, width), exponent) else 0, Pow(Greatest(isSigned, width), exponent))
  }

  lemma {:induction false} PowBaseMonotone(a: nat, b: nat, exponent: nat)
    requires a <= b
    ensures Pow(a, exponent) <= Pow(b, exponent)
  {
    if exponent > 0 {
      PowBaseMonotone(a, b, exponent - 1);
      MulMonotoneBoth(a, b, Pow(a, exponent - 1), Pow(b, exponent - 1));
    }
  }

  lemma {:induction false} PowSign(base: int, exponent: nat)
    ensures base >= 0 || exponent % 2 == 0 ==> Pow(base, exponent) == Pow(Abs(base), exponent)
    ensures base < 0 && exponent % 2 == 1 ==> Pow(base, exponent) == -Pow(Abs(base), exponent)
  {
    if exponent > 0 {
      PowSign(base, exponent - 1);
      Negated(base, Pow(Abs(base), exponent - 1));
      NegatedBoth(-base, Pow(Abs(base), exponent - 1));
    }
  }

  lemma ZeroPower(exponent: nat)
    ensures Pow(0, exponent) == if exponent == 0 then 1 else 0
  {
    if exponent > 0 {
      assert Pow(0, exponent) == 0 * Pow(0, exponent - 1);
    }
  }

  /** The endpoints bound every power over the base range, and are powers of bases in the range. */
  lemma PowerEndsExact(isSigned: bool, width: nat, exponent: nat, x: int)
    requires width >= 1 && Fits(x, isSigned, width)
    ensures var (lo, hi) := PowerEnds(isSigned, width, exponent); lo <= Pow(x, exponent) <= hi
  {
    var a, b := Least(isSigned, width), Greatest(isSigned, width);
    PowSign(x, exponent);
    PowSign(a, exponent);
    PowSign(b, exponent);
    if exponent > 0 {
      if isSigned {
        PowBaseMonotone(Abs(x), Abs(a), exponent);
        if x >= 0 {
          PowBaseMonotone(x, b, exponent);
        }
      } else {
        PowBaseMonotone(x, b, exponent);
      }
    }
  }

  lemma PowerEndsAttained(isSigned: bool, width: nat, exponent: nat)
    requires width >= 1
    ensures var (lo, hi) := PowerEnds(isSigned, width, exponent);
            && lo <= hi
            && (exists x :: Fits(x, isSigned, width) && Pow(x, exponent) == lo)
            && (exists x :: Fits(x, isSigned, width) && Pow(x, exponent) == hi)
            && (lo < 0 ==> PowerSigned(isSigned, exponent))
  {
    var a, b := Least(isSigned, width), Greatest(isSigned, width);
    ZeroPower(exponent);
    PowSign(a, exponent);
    assert Fits(0, isSigned, width) && Fits(a, isSigned, width) && Fits(b, isSigned, width);
    assert Pow(0, exponent) == Pow(0, exponent) && Pow(a, exponent) == Pow(a, exponent) && Pow(b, exponent) == Pow(b, exponent);
    PowerEndsExact(isSigned, width, exponent, a);
  }

  // ----- Bernoulli

  /** n * (n-1)^e >= n^e * (n - e). */
  lemma {:induction false} Bernoulli(n: nat, e: nat)
    requires n >= 1
    ensures n * Pow(n - 1, e) >= Pow(n, e) * (n - e)
  {
    if e > 0 {
      Bernoulli(n, e - 1);
      BernoulliStep(n, e, Pow(n - 1, e - 1), Pow(n, e - 1));
    } else {
      assert Pow(n, 0) == 1 && Pow(n - 1, 0) == 1;
    }
  }

  lemma BernoulliStep(n: nat, e: nat, p: nat, q: nat)
    requires n >= 1 && e >= 1 && n * p >= q * (n - (e - 1))
    ensures n * ((n - 1) * p) >= n * q * (n - e)
  {
    MulMonotone(q * (n - e + 1), n * p, n - 1);
    assert n * p * (n - 1) == n * ((n - 1) * p);
    assert q * (n - e + 1) * (n - 1) == q * ((n - e + 1) * (n - 1));
    assert (n - e + 1) * (n - 1) == n * (n - e) + e - 1;
    assert q * (n * (n - e) + (e - 1)) == n * q * (n - e) + q * (e - 1);
    MulMonotone(0, q, e - 1);
  }

  /** The step behind the closed form: (2^W - 1)^e >= 2^(We - 1) when 2e <= 2^W. */
  lemma MaximumPowerKeepsWidth(width: nat, exponent: nat)
    requires width >= 2 && exponent >= 1 && 2 * exponent <= Pow2(width)
    ensures width * exponent >= 1
    ensures Pow2(width * exponent - 1) <= Pow(Pow2(width) - 1, exponent) < Pow2(width * exponent)
  {
    var n := Pow2(width);
    MulMonotoneBoth(1, width, 1, exponent);
    PowOfPow2(width, exponent);
    Bernoulli(n, exponent);
    HalfRemains(n, exponent, Pow(n - 1, exponent), Pow(n, exponent));
    assert Pow2(width * exponent) == 2 * Pow2(width * exponent - 1);
    SmallerBase(n, exponent);
  }

  lemma HalfRemains(n: nat, e: nat, p: nat, q: nat)
    requires n >= 1 && 2 * e <= n && n * p >= q * (n - e)
    ensures 2 * p >= q
  {
    MulMonotone(n, 2 * (n - e), q);
    assert n * q <= 2 * (q * (n - e)) by {
      assert 2 * (n - e) * q == 2 * (q * (n - e));
    }
    assert (2 * p + 1) * n == 2 * (n * p) + n && q * n == n * q;
    if 2 * p < q {
      MulMonotone(2 * p + 1, q, n);
    }
  }

  lemma {:induction false} SmallerBase(n: nat, exponent: nat)
    requires n >= 2 && exponent >= 1
    ensures Pow(n - 1, exponent) < Pow(n, exponent)
  {
    if exponent > 1 {
      SmallerBase(n, exponent - 1);
      MulMonotone(Pow(n - 1, exponent - 1) + 1, Pow(n, exponent - 1), n);
      assert (Pow(n - 1, exponent - 1) + 1) * n == (n - 1) * Pow(n - 1, exponent - 1) + Pow(n - 1, exponent - 1) + n;
      assert Pow(n, exponent - 1) * n == n * Pow(n, exponent - 1);
    } else {
      assert Pow(n, 1) == n * Pow(n, 0) && Pow(n - 1, 1) == (n - 1) * Pow(n - 1, 0);
    }
  }

  // ----- closed widths

  /** The exact width: of the endpoints, in the result family. */
  function PowerRangeWidth(isSigned: bool, width: nat, exponent: nat): Option<nat>
    requires width >= 1
  {
    var (lo, hi) := PowerEnds(isSigned, width, exponent);
    FamilyWidth(lo, hi, PowerSigned(isSigned, exponent))
  }

  lemma SignedPowerWidth(width: nat, exponent: nat)
    requires width >= 2 && exponent >= 1
    ensures PowerRangeWidth(true, width, exponent) == Some((width - 1) * exponent + 1)
    ensures (width - 1) * exponent >= exponent
  {
    hide FamilyWidth;
    var h, k := Pow2(width - 1), (width - 1) * exponent;
    MulMonotone(1, width - 1, exponent);
    PowOfPow2(width - 1, exponent);
    PowSign(-(h as int), exponent);
    Pow2Monotone(1, width - 1);
    assert Pow2(1) == 2;
    SmallerBase(h, exponent);
    Pow2Monotone(k, k + 1);
    if exponent % 2 == 0 {
      SpanUp(Pow2(k), k + 1);
    } else {
      assert Pow2(k) == 2 * Pow2(k - 1);
      SpanSigned(Pow2(k), Pow(h - 1, exponent), k);
    }
  }

  lemma UnsignedPowerWidth(width: nat, exponent: nat, bits: nat)
    requires width >= 2 && exponent >= 1 && BitLength(Pow(Pow2(width) - 1, exponent)) == bits
    ensures PowerRangeWidth(false, width, exponent) == Some(bits)
  {
    hide BitLength;
    Pow2Monotone(2, width);
    assert Pow2(2) == 4;
    PowMonotone(Pow2(width) - 1, 0, exponent);
  }

  lemma NarrowPowerWidth(isSigned: bool, width: nat, exponent: nat)
    requires width >= 1 && (width == 1 || exponent == 0)
    ensures PowerRangeWidth(isSigned, width, exponent) == Some(1)
  {
    ZeroPower(exponent);
    UnitPowers(1, exponent);
    UnitPowers(-1, exponent);
    assert Pow2(0) == 1 && Pow2(1) == 2;
    assert BitLength(1) == 1 && OneBit(1);
  }

  /** Exponents beyond 64 bits make every non-trivial power wider than the width domain. */
  lemma HugePowerWidth(isSigned: bool, width: nat, exponent: nat)
    requires width >= 2 && exponent > MAX64
    ensures PowerRangeWidth(isSigned, width, exponent).Some? && PowerRangeWidth(isSigned, width, exponent).value > MAX64
  {
    if isSigned {
      SignedPowerWidth(width, exponent);
    } else {
      var base := Pow2(width) - 1;
      Pow2Monotone(2, width);
      assert Pow2(2) == 4;
      PowerReachesTwo(base, exponent);
      BitLengthExceeds(Pow(base, exponent), exponent);
      UnsignedPowerWidth(width, exponent, BitLength(Pow(base, exponent)));
    }
  }

  const LIMIT: nat := 0x8000_0000_0000_0000

  /**
   * closed_power_range_width: a returned width is exact, and none is returned only for negative exponents and
   * for powers wider than 2^63 bits. It always decides, so the power endpoint path behind it never runs.
   */
  method ClosedPowerWidth(isSigned: bool, width: nat, exponent: int) returns (result: Option<nat>)
    requires 1 <= width <= MAX64
    ensures result.Some? ==> exponent >= 0 && PowerRangeWidth(isSigned, width, exponent) == result
    ensures result.None? && exponent >= 0 ==>
      PowerRangeWidth(isSigned, width, exponent).Some? && PowerRangeWidth(isSigned, width, exponent).value > LIMIT
  {
    hide PowerRangeWidth, Pow, BitLength;
    if exponent < 0 {
      return None;
    }
    if width == 1 || exponent == 0 {
      NarrowPowerWidth(isSigned, width, exponent);
    }
    if width == 1 {
      return Some(1);
    }
    if exponent > MAX64 {
      HugePowerWidth(isSigned, width, exponent);
      return None;
    }
    if exponent == 0 {
      return Some(1);
    }
    if isSigned {
      SignedPowerWidth(width, exponent);
      if width - 1 > MAX64 / exponent {
        QuotientExceeded(width - 1, MAX64, exponent);
        return None;
      }
      var product := (width - 1) * exponent;
      if product > MAX64 - 1 {
        return None;
      }
      return Some(product + 1);
    }
    if exponent == 1 {
      FirstPower(width);
      return Some(width);
    }
    var exponentWidth := UnsignedWidth(exponent);
    ExponentBits(exponent, width);
    if exponentWidth < width {
      MaximumPowerKeepsWidth(width, exponent);
      BitLengthUnique(Pow(Pow2(width) - 1, exponent), width * exponent);
      UnsignedPowerWidth(width, exponent, width * exponent);
      if width > MAX64 / exponent {
        QuotientExceeded(width, MAX64, exponent);
        return None;
      }
      return Some(width * exponent);
    }
    WordWidth(width);
    var base := Pow2(width) - 1;
    var bits := PowerWidthU64(base, exponent);
    UnsignedPowerWidth(width, exponent, BitLength(Pow(base, exponent)));
    PositivePower(width, exponent);
    return bits;
  }

  lemma PositivePower(width: nat, exponent: nat)
    requires width >= 1
    ensures Pow(Pow2(width) - 1, exponent) >= 1
  {
    PowMonotone(Pow2(width) - 1, 0, exponent);
  }

  lemma FirstPower(width: nat)
    requires width >= 2
    ensures PowerRangeWidth(false, width, 1) == Some(width)
  {
    assert Pow(Pow2(width) - 1, 1) == (Pow2(width) - 1) * Pow(Pow2(width) - 1, 0);
    BitLengthUnique(Pow2(width) - 1, width);
    UnsignedPowerWidth(width, 1, width);
  }

  /** A 64-bit exponent has at most 64 bits; fewer bits than `width` means at most half of 2^width. */
  lemma ExponentBits(exponent: nat, width: nat)
    requires 1 <= exponent <= MAX64
    ensures UnsignedWidth(exponent) <= 64
    ensures UnsignedWidth(exponent) < width ==> 2 * exponent <= Pow2(width)
  {
    Pow2Of32();
    Pow2Add(32, 32);
    BitLengthExceeds(exponent, 64);
    if UnsignedWidth(exponent) < width {
      BitLengthBounds(exponent);
      Pow2Monotone(UnsignedWidth(exponent), width - 1);
    }
  }

  lemma WordWidth(width: nat)
    requires width <= 64
    ensures Pow2(width) - 1 <= MAX64
  {
    Pow2Of32();
    Pow2Add(32, 32);
    Pow2Monotone(width, 64);
  }

  /** Everything a base of the type can be raised to lies in the type of the exact width. */
  lemma PowerFits(isSigned: bool, width: nat, exponent: nat, x: int)
    requires width >= 1 && Fits(x, isSigned, width) && PowerRangeWidth(isSigned, width, exponent).Some?
    ensures Fits(Pow(x, exponent), PowerSigned(isSigned, exponent), PowerRangeWidth(isSigned, width, exponent).value)
  {
    var (lo, hi) := PowerEnds(isSigned, width, exponent);
    var family, result := PowerSigned(isSigned, exponent), PowerRangeWidth(isSigned, width, exponent).value;
    PowerEndsExact(isSigned, width, exponent, x);
    FamilyWidthMinimal(lo, hi, family, 1);
    FamilyWidthMinimal(lo, hi, family, result);
    FitsBetween(lo, Pow(x, exponent), hi, family, result);
  }

  /** One bit less would not hold all powers: the returned width is the smallest. */
  lemma PowerWidthSmallest(isSigned: bool, width: nat, exponent: nat, narrow: nat)
    requires width >= 1 && PowerRangeWidth(isSigned, width, exponent).Some?
    requires 1 <= narrow < PowerRangeWidth(isSigned, width, exponent).value
    ensures exists x :: Fits(x, isSigned, width) && !Fits(Pow(x, exponent), PowerSigned(isSigned, exponent), narrow)
  {
    var (lo, hi) := PowerEnds(isSigned, width, exponent);
    PowerEndsAttained(isSigned, width, exponent);
    FamilyWidthMinimal(lo, hi, PowerSigned(isSigned, exponent), narrow);
    var a :| Fits(a, isSigned, width) && Pow(a, exponent) == lo;
    var b :| Fits(b, isSigned, width) && Pow(b, exponent) == hi;
    assert !Fits(Pow(a, exponent), PowerSigned(isSigned, exponent), narrow)
        || !Fits(Pow(b, exponent), PowerSigned(isSigned, exponent), narrow);
  }
}
