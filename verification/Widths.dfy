/** Width algebra: closed-form widths of ranges, the exact endpoint path they replace, and operator typing. */
module Widths {
  import opened Numbers
  import opened Options
  import opened Limbs
  import opened LimbShift
  import opened PowerWidth
  import opened Integers

  datatype Operator = AddOp | SubtractOp | MultiplyOp

  /** Whether `value` lies in the signed or unsigned type of `width` bits. */
  predicate Fits(value: int, isSigned: bool, width: nat) {
    if isSigned then width >= 1 && FitsSigned(value, width) else 0 <= value < Pow2(width)
  }

  /** concrete_integer_bounds. */
  function Least(isSigned: bool, width: nat): int
    requires width >= 1
  {
    if isSigned then -(Pow2(width - 1) as int) else 0
  }

  function Greatest(isSigned: bool, width: nat): int
    requires width >= 1
  {
    if isSigned then Pow2(width - 1) - 1 else Pow2(width) - 1
  }

  lemma BoundsAreFits(value: int, isSigned: bool, width: nat)
    requires width >= 1
    ensures Fits(value, isSigned, width) <==> Least(isSigned, width) <= value <= Greatest(isSigned, width)
  {
  }

  function Apply(op: Operator, x: int, exact: int, exactIsLeft: bool): int {
    match op
    case AddOp => x + exact
    case SubtractOp => if exactIsLeft then exact - x else x - exact
    case MultiplyOp => x * exact
  }

  /** arithmetic_range_endpoints. */
  function Endpoints(op: Operator, isSigned: bool, width: nat, exact: int, exactIsLeft: bool): (ends: (int, int))
    requires width >= 1
  {
    var a, b := Apply(op, Least(isSigned, width), exact, exactIsLeft), Apply(op, Greatest(isSigned, width), exact, exactIsLeft);
    match op
    case AddOp => (a, b)
    case SubtractOp => if exactIsLeft then (b, a) else (a, b)
    case MultiplyOp => if a <= b then (a, b) else (b, a)
  }

  /** The endpoints are the extreme results over the whole concrete range, and both are attained. */
  lemma EndpointsExact(op: Operator, isSigned: bool, width: nat, exact: int, exactIsLeft: bool, x: int)
    requires width >= 1
    ensures var (lo, hi) := Endpoints(op, isSigned, width, exact, exactIsLeft);
            && (Fits(x, isSigned, width) ==> lo <= Apply(op, x, exact, exactIsLeft) <= hi)
            && lo in {Apply(op, Least(isSigned, width), exact, exactIsLeft), Apply(op, Greatest(isSigned, width), exact, exactIsLeft)}
            && hi in {Apply(op, Least(isSigned, width), exact, exactIsLeft), Apply(op, Greatest(isSigned, width), exact, exactIsLeft)}
            && Fits(Least(isSigned, width), isSigned, width) && Fits(Greatest(isSigned, width), isSigned, width)
  {
    BoundsAreFits(x, isSigned, width);
    if op == MultiplyOp && Fits(x, isSigned, width) {
      var lo, hi := Least(isSigned, width), Greatest(isSigned, width);
      if exact >= 0 {
        MulMonotone(lo, x, exact);
        MulMonotone(x, hi, exact);
      } else {
        MulMonotone(lo, x, -exact);
        MulMonotone(x, hi, -exact);
        Negated(lo, exact);
        Negated(x, exact);
        Negated(hi, exact);
      }
    }
  }

  lemma Negated(a: int, b: int)
    ensures a * (-b) == -(a * b)
  {
  }

  lemma NegatedBoth(a: int, b: int)
    ensures (-a) * b == -(a * b) && (-a) * (-b) == a * b
  {
  }

  /** range_width_for_family: the width that holds both ends, if the family can hold them at all. */
  function FamilyWidth(lo: int, hi: int, isSigned: bool): Option<nat> {
    if lo > hi || (!isSigned && lo < 0) then None
    else if isSigned then Some(if SignedWidth(lo) > SignedWidth(hi) then SignedWidth(lo) else SignedWidth(hi))
    else Some(UnsignedWidth(hi))
  }

  /** It is the smallest width of the family that holds every number between the ends. */
  lemma FamilyWidthMinimal(lo: int, hi: int, isSigned: bool, width: nat)
    requires lo <= hi && width >= 1
    ensures FamilyWidth(lo, hi, isSigned).None? <==> !isSigned && lo < 0
    ensures FamilyWidth(lo, hi, isSigned).Some? ==>
      && FamilyWidth(lo, hi, isSigned).value >= 1
      && (FamilyWidth(lo, hi, isSigned).value <= width <==> Fits(lo, isSigned, width) && Fits(hi, isSigned, width))
  {
    if isSigned {
      SignedWidthMinimal(lo, width);
      SignedWidthMinimal(hi, width);
    } else if lo >= 0 {
      UnsignedWidthMinimal(lo, width);
      UnsignedWidthMinimal(hi, width);
      BitLengthMonotone(lo, hi);
    }
  }

  /** Everything between two numbers that fit fits. */
  lemma FitsBetween(lo: int, value: int, hi: int, isSigned: bool, width: nat)
    requires lo <= value <= hi && Fits(lo, isSigned, width) && Fits(hi, isSigned, width)
    ensures Fits(value, isSigned, width)
  {
  }

  /** A width that holds both ends while one bit less does not is the family width. */
  lemma FamilyWidthIs(lo: int, hi: int, isSigned: bool, width: nat)
    requires lo <= hi && width >= 1 && Fits(lo, isSigned, width) && Fits(hi, isSigned, width)
    requires width > 1 ==> !(Fits(lo, isSigned, width - 1) && Fits(hi, isSigned, width - 1))
    ensures FamilyWidth(lo, hi, isSigned) == Some(width)
  {
    FamilyWidthMinimal(lo, hi, isSigned, width);
    if width > 1 {
      FamilyWidthMinimal(lo, hi, isSigned, width - 1);
    }
  }

  // ----- the closed form for one concrete operand and one exact operand

  datatype Closed = Width(isSigned: bool, width: nat) | UseEndpoints | TooWide

  function Grown(isSigned: bool, width: nat, growth: nat): Closed {
    if width > MAX64 - growth then TooWide else Width(isSigned, width + growth)
  }

  /** dominant_arithmetic_range_width. */
  function DominantWidth(op: Operator, isSigned: bool, width: nat, exact: int, exactIsLeft: bool): Closed {
    var magnitude, negative := Abs(exact), exact < 0;
    if width <= UnsignedWidth(magnitude) + 2 then UseEndpoints
    else if magnitude == 0 then Grown(true, width, 1)
    else if !isSigned then
      match op
      case AddOp => Grown(negative, width, 1)
      case SubtractOp => Grown(exactIsLeft || !negative, width, if exactIsLeft && negative && magnitude != 1 then 2 else 1)
      case MultiplyOp =>
        if magnitude == 1 then Grown(negative, width, if negative then 1 else 0)
        else Grown(negative, width, UnsignedWidth(magnitude - 1) + if negative then 1 else 0)
    else
      match op
      case AddOp => Grown(true, width, 1)
      case SubtractOp => Grown(true, width, if exactIsLeft && negative && magnitude == 1 then 0 else 1)
      case MultiplyOp =>
        Grown(true, width, if negative then UnsignedWidth(magnitude)
                           else if magnitude == 1 then 0 else UnsignedWidth(magnitude - 1))
  }

  /** Operations that concrete_exact_range_type answers before computing any range. */
  predicate Trivial(op: Operator, exact: int, exactIsLeft: bool) {
    match op
    case MultiplyOp => exact == 0 || exact == 1
    case AddOp => exact == 0
    case SubtractOp => !exactIsLeft && exact == 0
  }

  /** symbolic_arithmetic_result_is_signed. */
  predicate SymbolicSigned(op: Operator, isSigned: bool, exact: int, exactIsLeft: bool) {
    isSigned || match op
                case AddOp => exact < 0
                case MultiplyOp => exact < 0
                case SubtractOp => exactIsLeft || exact >= 0
  }

  /** `answer` is the closed form of the family width of the given ends; too wide means wider than 64-bit widths. */
  ghost predicate Agrees(answer: Closed, lo: int, hi: int) {
    match answer
    case UseEndpoints => true
    case Width(isSigned, width) => FamilyWidth(lo, hi, isSigned) == Some(width) && (isSigned <==> lo < 0)
    case TooWide => FamilyWidth(lo, hi, lo < 0).Some? && FamilyWidth(lo, hi, lo < 0).value > MAX64
  }

  lemma GrownAgrees(lo: int, hi: int, isSigned: bool, width: nat, growth: nat)
    requires lo <= hi && width >= 2 && growth <= MAX64 && (isSigned <==> lo < 0)
    requires Fits(lo, isSigned, width + growth) && Fits(hi, isSigned, width + growth)
    requires !(Fits(lo, isSigned, width + growth - 1) && Fits(hi, isSigned, width + growth - 1))
    ensures Agrees(Grown(isSigned, width, growth), lo, hi)
  {
    FamilyWidthIs(lo, hi, isSigned, width + growth);
  }

  /** A dominated magnitude is below an eighth of the concrete range. */
  lemma Dominated(width: nat, magnitude: nat)
    requires width > UnsignedWidth(magnitude) + 2
    ensures width >= 4 && magnitude < Pow2(width - 3)
    ensures Pow2(width - 1) == 4 * Pow2(width - 3) && Pow2(width) == 8 * Pow2(width - 3) && Pow2(width + 1) == 16 * Pow2(width - 3)
  {
    BitLengthBounds(magnitude);
    Pow2Monotone(UnsignedWidth(magnitude), width - 3);
    assert Pow2(width - 2) == 2 * Pow2(width - 3);
  }

  lemma AddAgrees(isSigned: bool, width: nat, exact: int, exactIsLeft: bool)
    requires exact != 0 && width > UnsignedWidth(Abs(exact)) + 2
    ensures var (lo, hi) := Endpoints(AddOp, isSigned, width, exact, exactIsLeft);
            Agrees(DominantWidth(AddOp, isSigned, width, exact, exactIsLeft), lo, hi)
  {
    Dominated(width, Abs(exact));
    var (lo, hi) := Endpoints(AddOp, isSigned, width, exact, exactIsLeft);
    GrownAgrees(lo, hi, isSigned || exact < 0, width, 1);
  }

  lemma SubtractAgrees(isSigned: bool, width: nat, exact: int, exactIsLeft: bool)
    requires exactIsLeft || exact != 0
    requires width > UnsignedWidth(Abs(exact)) + 2
    ensures var (lo, hi) := Endpoints(SubtractOp, isSigned, width, exact, exactIsLeft);
            Agrees(DominantWidth(SubtractOp, isSigned, width, exact, exactIsLeft), lo, hi)
  {
    Dominated(width, Abs(exact));
    var (lo, hi) := Endpoints(SubtractOp, isSigned, width, exact, exactIsLeft);
    if isSigned {
      GrownAgrees(lo, hi, true, width, if exactIsLeft && exact == -1 then 0 else 1);
    } else {
      GrownAgrees(lo, hi, exactIsLeft || exact >= 0, width, if exactIsLeft && exact < -1 then 2 else 1);
    }
  }

  /** The power of two just reached by `magnitude`: 2^(g-1) < magnitude <= 2^g. */
  lemma JustReached(magnitude: nat, width: nat)
    requires magnitude >= 2
    ensures var g := UnsignedWidth(magnitude - 1);
            && g >= 1 && Pow2(g - 1) < magnitude <= Pow2(g) == 2 * Pow2(g - 1)
            && g <= UnsignedWidth(magnitude)
  {
    BitLengthBounds(magnitude - 1);
    BitLengthMonotone(magnitude - 1, magnitude);
  }

  /** (2^w - 1) * m needs exactly w + g bits, strictly more than half of them used. */
  lemma ProductSpan(n: nat, m: nat, h: nat)
    requires n >= 2 && h >= 1 && h + 1 < n && h < m <= 2 * h
    ensures n * h < (n - 1) * m < n * (2 * h)
    ensures n * h < n * m <= n * (2 * h)
  {
    MulMonotone(h + 1, m, n - 1);
    assert (h + 1) * (n - 1) == n * h + n - h - 1;
    assert m * (n - 1) == (n - 1) * m;
    MulMonotone(m, 2 * h, n);
    assert 2 * h * n == n * (2 * h) && m * n == n * m;
    assert (n - 1) * m == n * m - m;
    MulMonotone(h + 1, m, n);
    assert (h + 1) * n == n * h + n;
  }

  /** Ends 0 and `span`, with 2^(k-1) <= span < 2^k. */
  lemma SpanUp(span: nat, k: nat)
    requires k >= 2 && Pow2(k - 1) <= span < Pow2(k)
    ensures FamilyWidth(0, span, false) == Some(k)
  {
    FamilyWidthIs(0, span, false, k);
  }

  /** Ends -down and up, the larger of them just above 2^(k-1). */
  lemma SpanSigned(down: int, up: int, k: nat)
    requires k >= 1 && down <= Pow2(k) && 0 <= up < Pow2(k) && (down > Pow2(k - 1) || up >= Pow2(k - 1)) && down > 0
    ensures FamilyWidth(-down, up, true) == Some(k + 1)
  {
    FamilyWidthIs(-down, up, true, k + 1);
  }

  lemma GrownIs(isSigned: bool, width: nat, growth: nat, lo: int, hi: int)
    requires growth <= MAX64 && FamilyWidth(lo, hi, isSigned) == Some(width + growth) && (isSigned <==> lo < 0)
    ensures Agrees(Grown(isSigned, width, growth), lo, hi)
  {
  }

  lemma MultiplyUnsignedAgrees(width: nat, exact: int, exactIsLeft: bool)
    requires exact != 0 && exact != 1 && width > UnsignedWidth(Abs(exact)) + 2 && UnsignedWidth(Abs(exact)) < MAX64
    ensures var (lo, hi) := Endpoints(MultiplyOp, false, width, exact, exactIsLeft);
            Agrees(DominantWidth(MultiplyOp, false, width, exact, exactIsLeft), lo, hi)
  {
    hide FamilyWidth, Pow2, UnsignedWidth, Endpoints, Grown;
    var m: int, n: int := Abs(exact), Pow2(width);
    Dominated(width, m);
    UnsignedProducts(width, exact, exactIsLeft);
    if m == 1 {
      SpanSigned(n - 1, 0, width);
      GrownIs(true, width, 1, -(n - 1), 0);
    } else {
      UnsignedSpan(width, m);
      var g, span: int := UnsignedWidth(m - 1), (n - 1) * m;
      GrownIs(exact < 0, width, g + if exact < 0 then 1 else 0, if exact < 0 then -span else 0, if exact < 0 then 0 else span);
    }
  }

  lemma UnsignedSpan(width: nat, m: nat)
    requires m >= 2 && width > UnsignedWidth(m) + 2
    ensures var span, g := (Pow2(width) - 1) * m, UnsignedWidth(m - 1);
            && span > 0 && g <= UnsignedWidth(m)
            && FamilyWidth(0, span, false) == Some(width + g) && FamilyWidth(-span, 0, true) == Some(width + g + 1)
  {
    hide FamilyWidth;
    var n, g := Pow2(width), UnsignedWidth(m - 1);
    JustReached(m, width);
    SmallGrowth(width, m);
    Pow2Add(width, g);
    Pow2Add(width, g - 1);
    ProductSpan(n, m, Pow2(g - 1));
    SpanUp((n - 1) * m, width + g);
    SpanSigned((n - 1) * m, 0, width + g);
  }

  lemma UnsignedProducts(width: nat, exact: int, exactIsLeft: bool)
    requires width >= 1
    ensures var span := (Pow2(width) - 1) * Abs(exact);
            Endpoints(MultiplyOp, false, width, exact, exactIsLeft) == if exact < 0 then (-span, 0) else (0, span)
  {
    MulMonotone(0, Pow2(width) - 1, Abs(exact));
    Negated(Pow2(width) - 1, Abs(exact));
  }

  /** Widths of dominated magnitudes are far below 2^64 unless the concrete width itself is not. */
  lemma SmallGrowth(width: nat, m: nat)
    requires m >= 2 && width > UnsignedWidth(m) + 2
    ensures UnsignedWidth(m - 1) <= UnsignedWidth(m) < width
    ensures Pow2(UnsignedWidth(m - 1) - 1) + 1 < Pow2(width - 1)
  {
    JustReached(m, width);
    Dominated(width, m);
  }

  lemma MultiplySignedAgrees(width: nat, exact: int, exactIsLeft: bool)
    requires exact != 0 && exact != 1 && width > UnsignedWidth(Abs(exact)) + 2 && UnsignedWidth(Abs(exact)) < MAX64
    ensures var (lo, hi) := Endpoints(MultiplyOp, true, width, exact, exactIsLeft);
            Agrees(DominantWidth(MultiplyOp, true, width, exact, exactIsLeft), lo, hi)
  {
    hide FamilyWidth, Pow2, UnsignedWidth, Endpoints, Grown;
    var m: int, n: int := Abs(exact), Pow2(width - 1);
    Dominated(width, m);
    SignedProducts(width, exact, exactIsLeft);
    if exact < 0 {
      SignedSpanDown(width, m);
      GrownIs(true, width, UnsignedWidth(m), -((n - 1) * m), n * m);
    } else {
      SignedSpanUp(width, m);
      GrownIs(true, width, UnsignedWidth(m - 1), -(n * m), (n - 1) * m);
    }
  }

  lemma SignedProducts(width: nat, exact: int, exactIsLeft: bool)
    requires width >= 1
    ensures Endpoints(MultiplyOp, true, width, exact, exactIsLeft) ==
      var n, m := Pow2(width - 1), Abs(exact);
      if exact < 0 then (-((n - 1) * m), n * m) else (-(n * m), (n - 1) * m)
  {
    var n, m := Pow2(width - 1), Abs(exact);
    MulMonotone(0, n - 1, m);
    MulMonotone(0, n, m);
    Negated(n - 1, m);
    NegatedBoth(n, m);
  }

  lemma SignedSpanUp(width: nat, m: nat)
    requires m >= 2 && width > UnsignedWidth(m) + 2
    ensures var n, g := Pow2(width - 1), UnsignedWidth(m - 1);
            && n * m > 0 && g <= UnsignedWidth(m) && FamilyWidth(-(n * m), (n - 1) * m, true) == Some(width + g)
  {
    hide FamilyWidth;
    var n, g := Pow2(width - 1), UnsignedWidth(m - 1);
    JustReached(m, width);
    SmallGrowth(width, m);
    Dominated(width, m);
    Pow2Add(width - 1, g);
    Pow2Add(width - 1, g - 1);
    ProductSpan(n, m, Pow2(g - 1));
    SpanSigned(n * m, (n - 1) * m, width - 1 + g);
  }

  lemma SignedSpanDown(width: nat, m: nat)
    requires m >= 1 && width > UnsignedWidth(m) + 2
    ensures var n := Pow2(width - 1);
            && (n - 1) * m > 0 && FamilyWidth(-((n - 1) * m), n * m, true) == Some(width + UnsignedWidth(m))
  {
    hide FamilyWidth;
    var n, b := Pow2(width - 1), UnsignedWidth(m);
    Pow2Monotone(1, width - 1);
    assert Pow2(1) == 2;
    BitLengthBounds(m);
    Pow2Add(width - 1, b);
    Pow2Add(width - 1, b - 1);
    SpanDown(n, m, Pow2(b - 1));
    SpanSigned((n - 1) * m, n * m, width - 1 + b);
  }

  lemma SpanDown(n: nat, m: nat, p: nat)
    requires n >= 2 && 1 <= p <= m < 2 * p
    ensures 0 < (n - 1) * m < n * m < n * (2 * p) && n * p <= n * m
  {
    MulMonotone(m + 1, 2 * p, n);
    MulMonotone(p, m, n);
    MulMonotoneBoth(1, n - 1, 1, m);
    OneMore(m, n);
    assert (n - 1) * m == n * m - m;
  }

  /**
   * Where the closed form answers it gives the exact endpoint answer: the smallest width, in the signed family
   * exactly when some result is negative.
   */
  lemma ClosedFormExact(op: Operator, isSigned: bool, width: nat, exact: int, exactIsLeft: bool)
    requires !Trivial(op, exact, exactIsLeft) && 1 <= width && UnsignedWidth(Abs(exact)) < MAX64
    ensures var (lo, hi) := Endpoints(op, isSigned, width, exact, exactIsLeft);
            Agrees(DominantWidth(op, isSigned, width, exact, exactIsLeft), lo, hi)
  {
    if width > UnsignedWidth(Abs(exact)) + 2 {
      match op
      case AddOp => AddAgrees(isSigned, width, exact, exactIsLeft);
      case SubtractOp => SubtractAgrees(isSigned, width, exact, exactIsLeft);
      case MultiplyOp =>
        if isSigned {
          MultiplySignedAgrees(width, exact, exactIsLeft);
        } else {
          MultiplyUnsignedAgrees(width, exact, exactIsLeft);
        }
    }
  }
}
