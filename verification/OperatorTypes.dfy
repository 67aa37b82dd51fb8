/** Typing of binary operators: the mathematical result always lies in the result type. */
module OperatorTypes {
  import opened Numbers
  import opened Options
  import opened Limbs
  import opened LimbShift
  import opened PowerWidth
  import opened Integers
  import opened Widths
  import opened NumericTypes
  import opened PowerTypes

  datatype Binary = Arithmetic(op: Operator) | ShiftLeftBy | ShiftRightBy

  /** exact_width and the width a concrete operand needs in the common family. */
  function WidthIn(t: Numeric, isSigned: bool): nat {
    match t
    case Exact(value) => if isSigned then SignedWidth(value) else UnsignedWidth(Abs(value))
    case Concrete(own, width) => if isSigned && !own then width + 1 else width
  }

  predicate NeedsSign(t: Numeric) {
    match t
    case Exact(value) => value < 0
    case Concrete(own, _) => own
  }

  function Larger(a: nat, b: nat): nat { if a > b then a else b }

  /** common_numerical_type: one family and width for both operands; not defined for two exact integers. */
  function CommonType(left: Numeric, right: Numeric): Option<Numeric> {
    if left.Exact? && right.Exact? then None
    else
      var isSigned := NeedsSign(left) || NeedsSign(right);
      Some(Concrete(isSigned, Larger(WidthIn(left, isSigned), WidthIn(right, isSigned))))
  }

  lemma WidthInHolds(t: Numeric, isSigned: bool, value: int)
    requires Proper(t) && Denotes(t, value) && (NeedsSign(t) ==> isSigned)
    ensures WidthIn(t, isSigned) >= 1 && Fits(value, isSigned, WidthIn(t, isSigned))
  {
    match t
    case Exact(known) =>
      SignedWidthMinimal(known, SignedWidth(known));
      SignedWidthMinimal(known, 1);
      UnsignedWidthMinimal(Abs(known), 1);
      UnsignedWidthMinimal(Abs(known), UnsignedWidth(Abs(known)));
    case Concrete(own, width) =>
      if isSigned && !own {
        UnsignedFitsSigned(value, width);
      }
  }

  /** The common type holds both operands. */
  lemma CommonTypeHolds(left: Numeric, right: Numeric, a: int, b: int)
    requires Proper(left) && Proper(right) && CommonType(left, right).Some? && Denotes(left, a) && Denotes(right, b)
    ensures Proper(CommonType(left, right).value)
    ensures Denotes(CommonType(left, right).value, a) && Denotes(CommonType(left, right).value, b)
  {
    var t := CommonType(left, right).value;
    WidthInHolds(left, t.isSigned, a);
    WidthInHolds(right, t.isSigned, b);
    WiderFits(a, t.isSigned, WidthIn(left, t.isSigned), t.width);
    WiderFits(b, t.isSigned, WidthIn(right, t.isSigned), t.width);
  }

  /** pigen_data_type_resolve_binary_operation, restricted to the operators whose results grow. */
  function ResolveBinary(binary: Binary, left: Numeric, right: Numeric): Option<Numeric>
    requires Proper(left) && Proper(right)
  {
    match binary
    case Arithmetic(op) =>
      if left.Exact? && right.Exact? then Some(Exact(Apply(op, left.value, right.value, false)))
      else if left.Exact? then RangeType(op, right.isSigned, right.width, left.value, true)
      else if right.Exact? then RangeType(op, left.isSigned, left.width, right.value, false)
      else
        var common := CommonType(left, right).value;
        (match op
         case MultiplyOp => Some(Concrete(left.isSigned || right.isSigned, left.width + right.width))
         case AddOp => Some(Concrete(common.isSigned, common.width + 1))
         case SubtractOp => Some(Concrete(true, common.width + 1)))
    case ShiftLeftBy => if ShiftOk(left, right) then Some(Concrete(left.isSigned, left.width + MostShift(right))) else None
    case ShiftRightBy => if ShiftOk(left, right) then Some(left) else None
  }

  /** Shifts take a concrete left operand and an unsigned or exact amount. */
  predicate ShiftOk(left: Numeric, right: Numeric) {
    left.Concrete? && if right.Exact? then 0 <= right.value <= SIZE_MAX else !right.isSigned
  }

  function MostShift(right: Numeric): nat
    requires right.Exact? ==> right.value >= 0
  {
    match right
    case Exact(value) => value
    case Concrete(_, width) => Pow2(width) - 1
  }

  /** The mathematical meaning of an operator; right shifts round towards minus infinity. */
  function Meaning(binary: Binary, a: int, b: int): int
    requires binary.Arithmetic? || b >= 0
  {
    match binary
    case Arithmetic(op) => Apply(op, a, b, false)
    case ShiftLeftBy => a * Pow2(b)
    case ShiftRightBy => if a >= 0 then a / Pow2(b) else -(((-a) + Pow2(b) - 1) / Pow2(b))
  }

  /** No operator overflows its result type, for any operand values. */
  lemma NeverOverflows(binary: Binary, left: Numeric, right: Numeric, a: int, b: int)
    requires Proper(left) && Proper(right) && Denotes(left, a) && Denotes(right, b)
    requires ResolveBinary(binary, left, right).Some?
    requires left.Exact? ==> UnsignedWidth(Abs(left.value)) < MAX64
    requires right.Exact? ==> UnsignedWidth(Abs(right.value)) < MAX64
    ensures binary.Arithmetic? || b >= 0
    ensures Denotes(ResolveBinary(binary, left, right).value, Meaning(binary, a, b))
  {
    match binary
    case Arithmetic(op) =>
      if left.Exact? && !right.Exact? {
        RangeHolds(op, right.isSigned, right.width, left.value, true, b);
      } else if right.Exact? && !left.Exact? {
        RangeHolds(op, left.isSigned, left.width, right.value, false, a);
      } else if left.Concrete? {
        ConcreteHolds(op, left, right, a, b);
      }
    case ShiftLeftBy => ShiftHolds(left, right, a, b);
    case ShiftRightBy => ShrinkHolds(left, a, b);
  }

  lemma RangeHolds(op: Operator, isSigned: bool, width: nat, exact: int, exactIsLeft: bool, x: int)
    requires width >= 1 && UnsignedWidth(Abs(exact)) < MAX64 && Fits(x, isSigned, width)
    requires RangeType(op, isSigned, width, exact, exactIsLeft).Some?
    ensures Denotes(RangeType(op, isSigned, width, exact, exactIsLeft).value, Apply(op, x, exact, exactIsLeft))
  {
    hide Fits, RangeType;
    if Trivial(op, exact, exactIsLeft) {
      TrivialHolds(op, isSigned, width, exact, exactIsLeft, x);
    } else {
      RangeTypeExact(op, isSigned, width, exact, exactIsLeft);
    }
  }

  lemma ConcreteHolds(op: Operator, left: Numeric, right: Numeric, a: int, b: int)
    requires Proper(left) && Proper(right) && left.Concrete? && right.Concrete? && Denotes(left, a) && Denotes(right, b)
    ensures Denotes(ResolveBinary(Arithmetic(op), left, right).value, Apply(op, a, b, false))
  {
    if op == MultiplyOp {
      ProductHolds(left.isSigned, left.width, right.isSigned, right.width, a, b);
    } else {
      CommonTypeHolds(left, right, a, b);
    }
  }

  lemma ProductHolds(s: bool, v: nat, r: bool, w: nat, a: int, b: int)
    requires v >= 1 && w >= 1 && Fits(a, s, v) && Fits(b, r, w)
    ensures Fits(a * b, s || r, v + w)
  {
    var m, n: nat := Abs(a), Abs(b);
    AbsProduct(a, b);
    if !s && !r {
      MulMonotone(0, a, b);
      StrictProduct(m, Pow2(v), n, Pow2(w));
      Pow2Add(v, w);
    } else {
      var p, q := if s then v - 1 else v, if r then w - 1 else w;
      MulMonotoneBoth(m, Pow2(p), n, Pow2(q));
      Pow2Add(p, q);
      Pow2Monotone(p + q, v + w - 1);
      if s && r {
        assert Pow2(v + w - 1) == 2 * Pow2(p + q);
      } else if !s {
        StrictProduct(n, Pow2(q) + 1, m, Pow2(p));
        TopProduct(m, Pow2(p), n, Pow2(q));
      } else {
        TopProduct(n, Pow2(q), m, Pow2(p));
      }
    }
  }

  lemma StrictProduct(m: nat, p: nat, n: nat, q: nat)
    requires m < p && n < q
    ensures m * n < p * q
  {
    MulMonotoneBoth(m, p - 1, n, q - 1);
    assert (p - 1) * (q - 1) == p * q - p - q + 1;
  }

  /** One factor strictly below its bound keeps the product strictly below. */
  lemma TopProduct(m: nat, p: nat, n: nat, q: nat)
    requires m < p && n <= q && q >= 1
    ensures m * n < p * q && n * m == m * n
  {
    MulMonotoneBoth(m, p - 1, n, q);
    assert (p - 1) * q == p * q - q;
  }

  lemma ShiftHolds(left: Numeric, right: Numeric, a: int, b: int)
    requires Proper(left) && Proper(right) && ShiftOk(left, right) && Denotes(left, a) && Denotes(right, b)
    ensures b >= 0 && Fits(a * Pow2(b), left.isSigned, left.width + MostShift(right))
  {
    var w, m := left.width, MostShift(right);
    assert 0 <= b <= m;
    if left.isSigned {
      Pow2Add(w - 1, b);
      SignedScale(a, Pow2(w - 1), Pow2(b));
    } else {
      Pow2Add(w, b);
      UnsignedScale(a, Pow2(w), Pow2(b));
    }
    WiderFits(a * Pow2(b), left.isSigned, w + b, w + m);
  }

  lemma SignedScale(a: int, h: nat, d: nat)
    requires -(h as int) <= a < h && d >= 1
    ensures -(h * d as int) <= a * d < h * d
  {
    MulMonotone(-(h as int), a, d);
    MulMonotone(a, h - 1, d);
    NegatedBoth(h, d);
    assert (h - 1) * d == h * d - d;
  }

  lemma UnsignedScale(a: nat, h: nat, d: nat)
    requires a < h && d >= 1
    ensures 0 <= a * d < h * d
  {
    MulMonotone(0, a, d);
    MulMonotone(a, h - 1, d);
    assert (h - 1) * d == h * d - d;
  }

  lemma ShrinkHolds(left: Numeric, a: int, b: int)
    requires Proper(left) && left.Concrete? && Denotes(left, a) && b >= 0
    ensures Denotes(left, Meaning(ShiftRightBy, a, b))
  {
    var d := Pow2(b);
    if a >= 0 {
      QuotientAtMost(a, d);
    } else {
      CeilingAtMost(-a, d);
    }
  }

  lemma QuotientAtMost(a: nat, d: nat)
    requires d >= 1
    ensures 0 <= a / d <= a
  {
    MulMonotone(1, d, a / d);
  }

  lemma CeilingAtMost(a: nat, d: nat)
    requires d >= 1 && a >= 1
    ensures 0 <= (a + d - 1) / d <= a
  {
    var q := (a + d - 1) / d;
    assert q * d <= a + d - 1;
    if q > a {
      MulMonotone(a + 1, q, d);
      MulMonotone(1, d, a);
      OneMore(a, d);
    }
  }

  /** Odd powers of a signed base, and no others, can be negative. */
  lemma SomePowerNegative(base: Numeric, e: nat)
    requires Proper(base) && base.Concrete?
    ensures PowerSigned(base.isSigned, e) <==> exists x :: Denotes(base, x) && Pow(x, e) < 0
  {
    forall x | Denotes(base, x)
      ensures Pow(x, e) < 0 <==> x < 0 && e % 2 == 1
    {
      PowSign(x, e);
    }
    if base.isSigned {
      assert FitsSigned(-1, base.width) && Denotes(base, -1);
    }
  }

  /** concrete_exact_power_type: every power of every base value lies in the result type. */
  method ResolvePower(base: Numeric, exponent: Numeric) returns (result: Option<Numeric>)
    requires Proper(base) && base.Concrete? && base.width <= MAX64 && exponent.Exact?
    ensures result.Some? ==>
      && exponent.value >= 0 && Proper(result.value) && result.value.Concrete?
      && (result.value.isSigned <==> exists x :: Denotes(base, x) && Pow(x, exponent.value) < 0)
      && (forall x :: Denotes(base, x) ==> Denotes(result.value, Pow(x, exponent.value)))
      && (forall narrow: nat | 1 <= narrow < result.value.width :: !HoldsPowers(base.isSigned, base.width, exponent.value, narrow))
    ensures result.None? && exponent.value >= 0 ==> forall width: nat | 1 <= width <= LIMIT ::
      !HoldsPowers(base.isSigned, base.width, exponent.value, width)
  {
    if exponent.value < 0 {
      return None;
    }
    var e: nat := exponent.value;
    var width := ClosedPowerWidth(base.isSigned, base.width, e);
    PowerRangeDefined(base.isSigned, base.width, e);
    if width.None? {
      forall narrow: nat | 1 <= narrow <= LIMIT
        ensures !HoldsPowers(base.isSigned, base.width, e, narrow)
      {
        PowerWidthSmallest(base.isSigned, base.width, e, narrow);
      }
      return None;
    }
    forall x | Denotes(base, x)
      ensures Fits(Pow(x, e), PowerSigned(base.isSigned, e), width.value)
    {
      PowerFits(base.isSigned, base.width, e, x);
    }
    forall narrow: nat | 1 <= narrow < width.value
      ensures !HoldsPowers(base.isSigned, base.width, e, narrow)
    {
      PowerWidthSmallest(base.isSigned, base.width, e, narrow);
    }
    SomePowerNegative(base, e);
    result := Some(Concrete(PowerSigned(base.isSigned, e), width.value));
  }

  /** All powers of a base range fit the result family at `result` bits. */
  ghost predicate HoldsPowers(isSigned: bool, width: nat, exponent: nat, result: nat) {
    forall x :: Fits(x, isSigned, width) ==> Fits(Pow(x, exponent), PowerSigned(isSigned, exponent), result)
  }

  lemma PowerRangeDefined(isSigned: bool, width: nat, exponent: nat)
    requires width >= 1
    ensures PowerRangeWidth(isSigned, width, exponent).Some? && PowerRangeWidth(isSigned, width, exponent).value >= 1
  {
    var (lo, hi) := PowerEnds(isSigned, width, exponent);
    PowerEndsAttained(isSigned, width, exponent);
    FamilyWidthMinimal(lo, hi, PowerSigned(isSigned, exponent), 1);
  }

  // ----- power by a concrete exponent

  /** The width the code gives base ** exponent for an unsigned exponent of `bits` bits. */
  function ConcretePowerWidth(width: nat, bits: nat): nat { width * (Pow2(bits) - 1) }

  /** Whether that width really holds every power. */
  ghost predicate ConcretePowerHolds(isSigned: bool, width: nat, bits: nat) {
    forall x: int, e: nat :: Fits(x, isSigned, width) && e < Pow2(bits) ==>
      Fits(Pow(x, e), isSigned, ConcretePowerWidth(width, bits))
  }

  /** It holds every power except for int[1] ** uint[1]: there -1 ** 0 is 1, which int[1] cannot hold. */
  lemma ConcretePowerExactly(isSigned: bool, width: nat, bits: nat)
    requires width >= 1 && bits >= 1
    ensures ConcretePowerHolds(isSigned, width, bits) <==> !(isSigned && width == 1 && bits == 1)
  {
    assert Pow2(1) == 2 && Pow2(0) == 1;
    if isSigned && width == 1 && bits == 1 {
      assert Fits(0, isSigned, width) && !Fits(Pow(0, 0), isSigned, ConcretePowerWidth(width, bits));
    } else {
      Pow2Monotone(1, bits);
      forall x: int, e: nat | Fits(x, isSigned, width) && e < Pow2(bits)
        ensures Fits(Pow(x, e), isSigned, ConcretePowerWidth(width, bits))
      {
        if isSigned {
          SignedConcretePower(width, Pow2(bits) - 1, x, e);
        } else {
          UnsignedConcretePower(width, Pow2(bits) - 1, x, e);
        }
      }
    }
  }

  lemma UnsignedConcretePower(width: nat, most: nat, x: nat, e: nat)
    requires width >= 1 && 1 <= most && x < Pow2(width) && e <= most
    ensures Pow(x, e) < Pow2(width * most)
  {
    PowOfPow2(width, e);
    MulMonotone(e, most, width);
    Pow2Monotone(width * e, width * most);
    if e == 0 {
      MulMonotoneBoth(1, width, 1, most);
      Pow2Monotone(1, width * most);
      assert Pow2(1) == 2;
    } else {
      PowBaseMonotone(x, Pow2(width) - 1, e);
      Pow2Monotone(1, width);
      assert Pow2(1) == 2;
      SmallerBase(Pow2(width), e);
    }
  }

  lemma SignedConcretePower(width: nat, most: nat, x: int, e: nat)
    requires width >= 1 && 1 <= most && e <= most && FitsSigned(x, width) && !(width == 1 && most == 1)
    ensures width * most >= 1 && FitsSigned(Pow(x, e), width * most)
  {
    MulMonotoneBoth(1, width, 1, most);
    if most >= 2 {
      hide Pow, Pow2;
      AbsPowerBound(width, most, x, e);
      Pow2Monotone(width * most - most, width * most - 1);
    } else if e == 0 {
      Pow2Monotone(1, width - 1);
      assert Pow2(1) == 2;
    } else {
      assert Pow(x, 1) == x * Pow(x, 0);
    }
  }

  lemma AbsPowerBound(width: nat, most: nat, x: int, e: nat)
    requires width >= 1 && e <= most && FitsSigned(x, width)
    ensures width * most >= most && Abs(Pow(x, e)) <= Pow2(width * most - most)
  {
    hide Pow, Pow2;
    PowAbs(x, e);
    PowBaseMonotone(Abs(x), Pow2(width - 1), e);
    PowOfPow2(width - 1, e);
    MulMonotone(e, most, width - 1);
    LessOne(width, most);
    Pow2Monotone((width - 1) * e, width * most - most);
  }

  lemma LessOne(width: int, most: int)
    requires width >= 1 && most >= 0
    ensures (width - 1) * most == width * most - most >= 0
  {
    MulMonotone(0, width - 1, most);
  }
}
