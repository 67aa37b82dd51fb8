/**
 * pigen_integer_power_width_u64: the exact bit width of base^exponent from dyadic intervals of bounded precision,
 * without computing the power.
 */
module PowerWidth {
  import opened Numbers
  import opened Options
  import opened Limbs
  import opened LimbShift

  const MAX64: nat := 0xFFFF_FFFF_FFFF_FFFF

  /** lower * 2^shift and upper * 2^shift enclose a number. */
  datatype Interval = Interval(lower: seq<Limb>, upper: seq<Limb>, shift: nat)

  /**
   * The interval encloses `x`; the relative gap is at most error / 2^(precision - 2); and as long as `x` itself
   * fits the precision nothing has been rounded.
   */
  ghost predicate Tight(i: Interval, x: nat, precision: nat, error: nat) {
    && Normal(i.lower) && Normal(i.upper) && precision >= 2
    && Value(i.lower) * Pow2(i.shift) <= x <= Value(i.upper) * Pow2(i.shift)
    && Value(i.lower) <= Value(i.upper)
    && (Value(i.upper) - Value(i.lower)) * Pow2(precision - 2) <= error * Value(i.upper)
    && (BitLength(x) <= precision ==> i.shift == 0 && i.lower == i.upper)
  }

  // ----- arithmetic of one multiplication

  /** The gap of a product. */
  lemma GapOfProduct(l1: nat, u1: nat, l2: nat, u2: nat, k: nat, e1: nat, e2: nat)
    requires l1 <= u1 && l2 <= u2 && (u1 - l1) * k <= e1 * u1 && (u2 - l2) * k <= e2 * u2
    ensures l1 * l2 <= u1 * u2 && (u1 * u2 - l1 * l2) * k <= (e1 + e2) * (u1 * u2)
  {
    MulMonotoneBoth(l1, u1, l2, u2);
    var a, b := u1 - l1, u2 - l2;
    calc {
      (u1 * u2 - l1 * l2) * k;
      { assert u1 * u2 - l1 * l2 == u1 * b + l2 * a; }
      (u1 * b + l2 * a) * k;
      { Products(u1, b, l2, a, k); }
      u1 * (b * k) + l2 * (a * k);
    }
    MulMonotone(b * k, e2 * u2, u1);
    MulMonotoneBoth(l2, u2, a * k, e1 * u1);
    assert u1 * (e2 * u2) == e2 * (u1 * u2);
    assert u2 * (e1 * u1) == e1 * (u1 * u2);
    assert e1 * (u1 * u2) + e2 * (u1 * u2) == (e1 + e2) * (u1 * u2);
  }

  lemma Products(u: int, b: int, l: int, a: int, k: int)
    ensures (u * b + l * a) * k == u * (b * k) + l * (a * k)
  {
    assert (u * b) * k == u * (b * k) && (l * a) * k == l * (a * k);
  }

  /** Rounding outwards by `drop` bits costs one unit of error when the rounded upper end keeps enough bits. */
  lemma GapOfRounding(l: nat, u: nat, drop: nat, k: nat, e: nat)
    requires l <= u && (u - l) * k <= e * u && 2 * k * Pow2(drop) <= u
    ensures ShiftedDown(l, drop, false) <= ShiftedDown(u, drop, true)
    ensures (ShiftedDown(u, drop, true) - ShiftedDown(l, drop, false)) * k <= (e + 1) * ShiftedDown(u, drop, true)
  {
    hide ShiftedDown, Pow2;
    RoundedEnds(l, u, drop);
    GapRounded(l, u, ShiftedDown(l, drop, false), ShiftedDown(u, drop, true), Pow2(drop), k, e);
  }

  lemma GapRounded(l: nat, u: nat, l': nat, u': nat, d: nat, k: nat, e: nat)
    requires l <= u && (u - l) * k <= e * u && 2 * k * d <= u && d >= 1
    requires l' * d <= l < l' * d + d && u <= u' * d < u + d && l' <= u'
    ensures (u' - l') * k <= (e + 1) * u'
  {
    var gap := u' - l';
    assert gap * d == u' * d - l' * d;
    MulMonotone(gap * d, (u - l) + 2 * d, k);
    ScaledGap(u - l, d, k);
    MulMonotone(u, u' * d, e + 1);
    Reorder(e, u, u', d, gap, k);
    Cancel(gap * k, (e + 1) * u', d);
  }

  lemma ScaledGap(a: int, d: int, k: int)
    ensures (a + 2 * d) * k == a * k + 2 * k * d
  {
    assert 2 * d * k == 2 * k * d;
  }

  lemma Reorder(e: int, u: int, u': int, d: int, gap: int, k: int)
    ensures u * (e + 1) == e * u + u
    ensures u' * d * (e + 1) == (e + 1) * u' * d
    ensures gap * d * k == gap * k * d
  {
    assert u' * d * (e + 1) == (e + 1) * (u' * d);
  }

  lemma Cancel(a: int, b: int, d: nat)
    requires d >= 1 && a * d <= b * d
    ensures a <= b
  {
    if a > b {
      assert (a - b) * d >= 1 * d by {
        MulMonotone(1, a - b, d);
      }
    }
  }

  lemma RoundedEnds(l: nat, u: nat, drop: nat)
    requires l <= u
    ensures var d := Pow2(drop);
            && ShiftedDown(l, drop, false) * d <= l < ShiftedDown(l, drop, false) * d + d
            && u <= ShiftedDown(u, drop, true) * d < u + d
            && ShiftedDown(l, drop, false) <= ShiftedDown(u, drop, true)
  {
    RoundedDown(l, drop);
    RoundedUp(u, drop);
    OrderedEnds(l, u, ShiftedDown(l, drop, false), ShiftedDown(u, drop, true), Pow2(drop));
  }

  lemma RoundedDown(l: nat, drop: nat)
    ensures ShiftedDown(l, drop, false) * Pow2(drop) <= l < ShiftedDown(l, drop, false) * Pow2(drop) + Pow2(drop)
  {
    hide Pow2;
    var d := Pow2(drop);
    assert l == (l / d) * d + l % d;
  }

  lemma RoundedUp(u: nat, drop: nat)
    ensures u <= ShiftedDown(u, drop, true) * Pow2(drop) < u + Pow2(drop)
  {
    hide Pow2;
    var d := Pow2(drop);
    assert u == (u / d) * d + u % d;
    OneMore(u / d, d);
  }

  lemma OrderedEnds(l: nat, u: nat, l': nat, u': nat, d: nat)
    requires l <= u && l' * d <= l && u <= u' * d && d >= 1
    ensures l' <= u'
  {
    Cancel(l', u', d);
  }

  /** A small gap leaves the lower end positive. */
  lemma LowerPositive(l: nat, u: nat, k: nat, e: nat)
    requires l <= u && u > 0 && (u - l) * k <= e * u && e < k
    ensures l > 0
  {
    MulMonotone(e + 1, k, u);
    OneMore(e, u);
    assert u * k == k * u;
  }

  lemma TightPositive(i: Interval, x: nat, precision: nat, error: nat)
    requires Tight(i, x, precision, error) && x >= 1 && error < Pow2(precision - 2)
    ensures Value(i.lower) >= 1 && Value(i.upper) >= 1 && i.lower != [] && i.upper != []
  {
    assert 0 * Pow2(i.shift) == 0;
    LowerPositive(Value(i.lower), Value(i.upper), Pow2(precision - 2), error);
  }

  /** Enclosures multiply. */
  lemma ProductEnclosed(l1: nat, u1: nat, s1: nat, x: nat, l2: nat, u2: nat, s2: nat, y: nat)
    requires l1 * Pow2(s1) <= x <= u1 * Pow2(s1) && l2 * Pow2(s2) <= y <= u2 * Pow2(s2)
    ensures l1 * l2 * Pow2(s1 + s2) <= x * y <= u1 * u2 * Pow2(s1 + s2)
  {
    Pow2Add(s1, s2);
    MulMonotoneBoth(l1 * Pow2(s1), x, l2 * Pow2(s2), y);
    MulMonotoneBoth(x, u1 * Pow2(s1), y, u2 * Pow2(s2));
    Shuffle(l1, Pow2(s1), l2, Pow2(s2));
    Shuffle(u1, Pow2(s1), u2, Pow2(s2));
  }

  lemma Shuffle(a: int, p: int, b: int, q: int)
    ensures (a * p) * (b * q) == a * b * (p * q)
  {
    calc {
      (a * p) * (b * q);
      { Associate(a * p, b, q); }
      ((a * p) * b) * q;
      { assert (a * p) * b == (a * b) * p; }
      ((a * b) * p) * q;
      { Associate(a * b, p, q); }
      (a * b) * (p * q);
    }
  }

  /** Rounding outwards keeps the enclosure, with a larger shift. */
  lemma RoundingEncloses(l: nat, u: nat, s: nat, drop: nat, x: nat)
    requires l <= u && l * Pow2(s) <= x <= u * Pow2(s)
    ensures ShiftedDown(l, drop, false) * Pow2(s + drop) <= x <= ShiftedDown(u, drop, true) * Pow2(s + drop)
  {
    hide ShiftedDown, Pow2;
    RoundedEnds(l, u, drop);
    Pow2Add(s, drop);
    Widen(l, u, ShiftedDown(l, drop, false), ShiftedDown(u, drop, true), Pow2(drop), Pow2(s), x);
  }

  lemma Widen(l: nat, u: nat, l': nat, u': nat, d: nat, p: nat, x: nat)
    requires l' * d <= l && u <= u' * d && l * p <= x <= u * p
    ensures l' * (p * d) <= x <= u' * (p * d)
  {
    MulMonotone(l' * d, l, p);
    MulMonotone(u, u' * d, p);
    assert l' * d * p == l' * (p * d) && u' * d * p == u' * (p * d);
  }

  /** A number that reaches 2^shift has more than `shift` bits. */
  lemma ShiftBelowBits(l: nat, shift: nat, x: nat)
    requires l >= 1 && l * Pow2(shift) <= x
    ensures BitLength(x) > shift
  {
    MulMonotone(1, l, Pow2(shift));
    BitLengthExceeds(x, shift);
  }

  lemma FactorsFit(x: nat, y: nat, precision: nat)
    requires x >= 1 && y >= 1 && BitLength(x * y) <= precision
    ensures BitLength(x) <= precision && BitLength(y) <= precision
  {
    MulMonotone(1, y, x);
    MulMonotone(1, x, y);
    BitLengthMonotone(x, x * y);
    BitLengthMonotone(y, x * y);
  }

  // ----- the interval product

  /** A copy of `limbs` rounded by `drop` bits in place. */
  method Rounded(limbs: seq<Limb>, drop: nat, roundUp: bool) returns (rounded: seq<Limb>)
    requires Normal(limbs)
    ensures Normal(rounded) && Value(rounded) == ShiftedDown(Value(limbs), drop, roundUp)
  {
    var buffer := new Limb[|limbs|](i requires 0 <= i < |limbs| => limbs[i]);
    assert buffer[..|limbs|] == limbs;
    var count := ShiftRight(buffer, |limbs|, drop, roundUp);
    rounded := buffer[..count];
  }

  /** magnitude_interval_multiply: fails only when the product needs more than 2^64 - 1 bits. */
  method IntervalMultiply(left: Interval, right: Interval, precision: nat, ghost x: nat, ghost y: nat, ghost e1: nat, ghost e2: nat)
    returns (result: Option<Interval>)
    requires x >= 1 && y >= 1 && Tight(left, x, precision, e1) && Tight(right, y, precision, e2)
    requires e1 + e2 + 1 < Pow2(precision - 2)
    ensures result.None? ==> BitLength(x * y) > MAX64
    ensures result.Some? ==> Tight(result.value, x * y, precision, e1 + e2 + 1)
  {
    hide Value, Pow2, BitLength, MagnitudeWidth, ShiftedDown;
    TightPositive(left, x, precision, e1);
    TightPositive(right, y, precision, e2);
    ProductTight(left, right, precision, x, y, e1, e2);
    if left.shift > MAX64 - right.shift {
      MulMonotoneBoth(1, Value(left.lower), 1, Value(right.lower));
      ProductEnclosed(Value(left.lower), Value(left.upper), left.shift, x, Value(right.lower), Value(right.upper), right.shift, y);
      ShiftBelowBits(Value(left.lower) * Value(right.lower), left.shift + right.shift, x * y);
      return None;
    }
    var shift := left.shift + right.shift;
    var lower := MagnitudeMultiply(left.lower, right.lower);
    var upper := MagnitudeMultiply(left.upper, right.upper);
    ghost var exact := Interval(lower, upper, shift);
    SameExact(left, right, lower, upper);
    var upperWidth := MagnitudeWidth(upper);
    WidthIsBitLength(upper);
    if upperWidth > precision {
      var drop := upperWidth - precision;
      var low := Rounded(lower, drop, false);
      var high := Rounded(upper, drop, true);
      RoundedTight(exact, Interval(low, high, shift + drop), drop, x * y, precision, e1 + e2);
      if shift > MAX64 - drop {
        TightPositive(Interval(low, high, shift + drop), x * y, precision, e1 + e2 + 1);
        ShiftBelowBits(Value(low), shift + drop, x * y);
        return None;
      }
      return Some(Interval(low, high, shift + drop));
    }
    MulMonotone(e1 + e2, e1 + e2 + 1, Value(upper));
    return Some(Interval(lower, upper, shift));
  }

  lemma SameExact(left: Interval, right: Interval, lower: seq<Limb>, upper: seq<Limb>)
    requires Normal(lower) && Normal(upper)
    requires Value(lower) == Value(left.lower) * Value(right.lower) && Value(upper) == Value(left.upper) * Value(right.upper)
    ensures left.lower == left.upper && right.lower == right.upper ==> lower == upper
  {
    if left.lower == left.upper && right.lower == right.upper {
      NormalIsCanonical(lower, upper);
    }
  }

  /** The unrounded product interval. */
  lemma ProductTight(left: Interval, right: Interval, precision: nat, x: nat, y: nat, e1: nat, e2: nat)
    requires x >= 1 && y >= 1 && Tight(left, x, precision, e1) && Tight(right, y, precision, e2)
    ensures x * y >= 1
    ensures forall i: Interval ::
      && Normal(i.lower) && Normal(i.upper) && i.shift == left.shift + right.shift
      && Value(i.lower) == Value(left.lower) * Value(right.lower) && Value(i.upper) == Value(left.upper) * Value(right.upper)
      && (left.lower == left.upper && right.lower == right.upper ==> i.lower == i.upper)
      ==> Tight(i, x * y, precision, e1 + e2)
  {
    hide Value, Pow2, BitLength;
    MulMonotoneBoth(1, x, 1, y);
    ProductEnclosed(Value(left.lower), Value(left.upper), left.shift, x, Value(right.lower), Value(right.upper), right.shift, y);
    GapOfProduct(Value(left.lower), Value(left.upper), Value(right.lower), Value(right.upper), Pow2(precision - 2), e1, e2);
    if BitLength(x * y) <= precision {
      FactorsFit(x, y, precision);
    }
  }

  /** Rounding an interval whose upper end exceeds the precision. */
  lemma RoundedTight(i: Interval, r: Interval, drop: nat, x: nat, precision: nat, error: nat)
    requires Tight(i, x, precision, error) && drop > 0 && BitLength(Value(i.upper)) == precision + drop
    requires Normal(r.lower) && Normal(r.upper) && r.shift == i.shift + drop
    requires Value(r.lower) == ShiftedDown(Value(i.lower), drop, false) && Value(r.upper) == ShiftedDown(Value(i.upper), drop, true)
    ensures Tight(r, x, precision, error + 1)
  {
    hide Value, ShiftedDown;
    RoundingEncloses(Value(i.lower), Value(i.upper), i.shift, drop, x);
    BitLengthBounds(Value(i.upper));
    Pow2Add(precision - 1, drop);
    assert Pow2(precision - 1) == 2 * Pow2(precision - 2);
    assert 2 * Pow2(precision - 2) * Pow2(drop) <= Value(i.upper);
    GapOfRounding(Value(i.lower), Value(i.upper), drop, Pow2(precision - 2), error);
    assert Pow2(0) == 1;
    assert i.shift == 0 && i.lower == i.upper ==> x == Value(i.upper);
  }

  // ----- powering

  lemma SingleTight(limbs: seq<Limb>, x: nat, precision: nat, error: nat)
    requires Normal(limbs) && Value(limbs) == x && precision >= 2
    ensures Tight(Interval(limbs, limbs, 0), x, precision, error)
  {
    assert Pow2(0) == 1;
    assert 0 * Pow2(precision - 2) == 0;
  }

  /** magnitude_interval_u64. */
  method LimbsOf(value: nat) returns (limbs: seq<Limb>)
    requires value <= MAX64
    ensures Normal(limbs) && Value(limbs) == value
  {
    var low: Limb, high: Limb := value % BASE, value / BASE;
    TwoLimbs(low, high);
    limbs := if high != 0 then [low, high] else if value != 0 then [low] else [];
  }

  lemma TwoLimbs(low: Limb, high: Limb)
    ensures Value([]) == 0 && Value([low]) == low && Value([low, high]) == low + BASE * high
  {
    assert Place(0) == 1 && Place(1) == BASE;
    ValueSnoc([], low);
    ValueSnoc([low], high);
    assert [] + [low] == [low] && [low] + [high] == [low, high];
  }

  /** Exponents stay far below the precision: no error bound is ever used up. */
  lemma ErrorRoom(exponent: nat, precision: nat)
    requires exponent <= MAX64 && precision >= 128
    ensures 4 * exponent + 4 < Pow2(precision - 2)
  {
    Pow2Of32();
    Pow2Add(32, 32);
    Pow2Add(64, 3);
    assert Pow2(3) == 8;
    Pow2Monotone(67, precision - 2);
  }

  /** One attempt at a fixed precision: exponentiation by squaring on intervals. */
  method PowerInterval(base: nat, exponent: nat, precision: nat) returns (result: Option<Interval>)
    requires 2 <= base <= MAX64 && 1 <= exponent <= MAX64 && precision >= 128
    ensures result.None? ==> BitLength(Pow(base, exponent)) > MAX64
    ensures result.Some? ==> Tight(result.value, Pow(base, exponent), precision, 2 * exponent)
  {
    hide Tight, Pow2, BitLength, Value;
    ErrorRoom(exponent, precision);
    var one := LimbsOf(1);
    var first := LimbsOf(base);
    var product, factor := Interval(one, one, 0), Interval(first, first, 0);
    SingleTight(one, 1, precision, 0);
    SingleTight(first, base, precision, 1);
    var power := exponent;
    ghost var done, step := 0, 1;
    assert Pow(base, 1) == base * Pow(base, 0);
    while power != 0
      invariant step >= 1 && done + step * power == exponent
      invariant Tight(product, Pow(base, done), precision, 2 * done)
      invariant power > 0 ==> Tight(factor, Pow(base, step), precision, 2 * step - 1)
    {
      var half := power / 2;
      StepsFit(done, step, power, exponent);
      PowMonotone(base, 0, done);
      PowMonotone(base, 0, step);
      if power % 2 == 1 {
        PowAdd(base, done, step);
        PowMonotone(base, done + step, exponent);
        BitLengthMonotone(Pow(base, done + step), Pow(base, exponent));
        var next := IntervalMultiply(product, factor, precision, Pow(base, done), Pow(base, step), 2 * done, 2 * step - 1);
        if next.None? {
          return None;
        }
        product := next.value;
        done := done + step;
      }
      power := half;
      if power != 0 {
        PowAdd(base, step, step);
        PowMonotone(base, step + step, exponent);
        BitLengthMonotone(Pow(base, step + step), Pow(base, exponent));
        var next := IntervalMultiply(factor, factor, precision, Pow(base, step), Pow(base, step), 2 * step - 1, 2 * step - 1);
        if next.None? {
          return None;
        }
        factor := next.value;
      }
      step := step + step;
    }
    return Some(product);
  }

  lemma StepsFit(done: nat, step: nat, power: nat, exponent: nat)
    requires step >= 1 && power > 0 && done + step * power == exponent
    ensures power % 2 == 1 ==> done + step <= exponent && done + step + (step + step) * (power / 2) == exponent
    ensures power % 2 == 0 ==> done + (step + step) * (power / 2) == exponent
    ensures power / 2 > 0 ==> step + step <= exponent
    ensures done <= exponent && step <= exponent
  {
    var half := power / 2;
    MulMonotone(1, power, step);
    assert power == 2 * half + power % 2;
    assert step * power == (step + step) * half + step * (power % 2);
    if half > 0 {
      MulMonotone(2, power, step);
    }
  }

  /** The width of an enclosed number lies between the widths of the ends. */
  lemma WidthEnclosed(i: Interval, x: nat, precision: nat, error: nat)
    requires Tight(i, x, precision, error) && x >= 1 && error < Pow2(precision - 2)
    ensures i.shift + MagnitudeWidth(i.lower) <= BitLength(x) <= i.shift + MagnitudeWidth(i.upper)
    ensures BitLength(x) <= precision ==> MagnitudeWidth(i.lower) == MagnitudeWidth(i.upper)
  {
    TightPositive(i, x, precision, error);
    WidthIsBitLength(i.lower);
    WidthIsBitLength(i.upper);
    BitLengthShift(Value(i.lower), i.shift);
    BitLengthShift(Value(i.upper), i.shift);
    BitLengthMonotone(Value(i.lower) * Pow2(i.shift), x);
    BitLengthMonotone(x, Value(i.upper) * Pow2(i.shift));
  }

  /** Unsigned width of a number: one bit for zero. */
  function UnsignedWidth(value: nat): nat { if value == 0 then 1 else BitLength(value) }

  /** base & (base - 1) is zero exactly when one bit is set. */
  predicate OneBit(value: nat) {
    value > 0 && if value % 2 == 0 then OneBit(value / 2) else value == 1
  }

  lemma {:induction false} OneBitIsPow2(value: nat)
    requires value > 0
    ensures OneBit(value) <==> value == Pow2(BitLength(value) - 1)
  {
    if value > 1 {
      OneBitIsPow2(value / 2);
      assert Pow2(BitLength(value) - 1) == 2 * Pow2(BitLength(value / 2) - 1);
    }
  }

  lemma OneBitPower(base: nat, exponent: nat)
    requires base >= 2 && OneBit(base)
    ensures BitLength(base) >= 2 && Pow(base, exponent) >= 0
    ensures UnsignedWidth(Pow(base, exponent)) == BitLength(Pow(base, exponent)) == exponent * (BitLength(base) - 1) + 1
  {
    var log := BitLength(base) - 1;
    OneBitIsPow2(base);
    PowOfPow2(log, exponent);
    hide *;
    BitLengthOfPow2(log * exponent);
  }

  lemma BitLengthOfPow2(k: nat)
    ensures UnsignedWidth(Pow2(k)) == BitLength(Pow2(k)) == k + 1
  {
    BitLengthUnique(Pow2(k), k + 1);
  }

  /** The branch for powers of two: the exponent times the base's logarithm, plus one. */
  method PowerOfTwoWidth(base: nat, exponent: nat) returns (width: Option<nat>)
    requires 2 <= base <= MAX64 && exponent <= MAX64 && OneBit(base)
    ensures width.Some? ==> width.value == UnsignedWidth(Pow(base, exponent))
    ensures width.None? ==> BitLength(Pow(base, exponent)) > MAX64
  {
    OneBitPower(base, exponent);
    hide *;
    var log := BitLength(base) - 1;
    if exponent > (MAX64 - 1) / log {
      QuotientExceeded(exponent, MAX64 - 1, log);
      return None;
    }
    return Some(exponent * log + 1);
  }

  lemma QuotientExceeded(a: nat, b: nat, d: nat)
    requires d >= 1 && a > b / d
    ensures a * d > b
  {
    MulMonotone(b / d + 1, a, d);
    OneMore(b / d, d);
  }

  /**
   * The width is exact whenever one is returned, and one is returned unless the power needs more than
   * 2^63 bits.
   */
  method PowerWidthU64(base: nat, exponent: nat) returns (width: Option<nat>)
    requires base <= MAX64 && exponent <= MAX64
    ensures Pow(base, exponent) >= 0
    ensures width.Some? ==> width.value == UnsignedWidth(Pow(base, exponent))
    ensures width.None? ==> BitLength(Pow(base, exponent)) > 0x8000_0000_0000_0000
  {
    hide Tight, Pow2, Value, Pow, MagnitudeWidth, BitLength;
    TinyBase(base, exponent);
    if exponent == 0 || base <= 1 {
      return Some(1);
    }
    if OneBit(base) {
      width := PowerOfTwoWidth(base, exponent);
      return;
    }
    var precision := 128;
    PowMonotone(base, 0, exponent);
    while true
      invariant 128 <= precision
      decreases 0x1_0000_0000_0000_0000 - precision
    {
      ErrorRoom(exponent, precision);
      var attempt := PowerInterval(base, exponent, precision);
      if attempt.None? {
        return None;
      }
      var i := attempt.value;
      WidthEnclosed(i, Pow(base, exponent), precision, 2 * exponent);
      var lowerWidth := i.shift + MagnitudeWidth(i.lower);
      var upperWidth := i.shift + MagnitudeWidth(i.upper);
      if lowerWidth > MAX64 {
        return None;
      }
      if upperWidth <= MAX64 && lowerWidth == upperWidth {
        return Some(lowerWidth);
      }
      if precision > 0x7FFF_FFFF_FFFF_FFFF {
        return None;
      }
      precision := precision * 2;
    }
  }

  lemma TinyBase(base: nat, exponent: nat)
    ensures Pow(base, exponent) >= 0
    ensures exponent == 0 || base <= 1 ==> UnsignedWidth(Pow(base, exponent)) == 1
  {
    if base >= 1 {
      PowMonotone(base, 0, exponent);
    }
    if base == 1 {
      PowOfOne(exponent);
    } else if base == 0 && exponent > 0 {
      assert Pow(base, exponent) == 0 * Pow(base, exponent - 1);
    }
  }

  lemma {:induction false} PowOfOne(exponent: nat)
    ensures Pow(1, exponent) == 1
  {
    if exponent > 0 {
      PowOfOne(exponent - 1);
    }
  }
}
