/** Numerical types of the language and the types of its operators: no result ever overflows its type. */
module NumericTypes {
  import opened Numbers
  import opened Options
  import opened Limbs
  import opened LimbShift
  import opened PowerWidth
  import opened Integers
  import opened Widths

  /** uint[w], int[w], or the type of one exactly known integer. */
  datatype Numeric = Concrete(isSigned: bool, width: nat) | Exact(value: int)

  predicate Proper(t: Numeric) { t.Concrete? ==> t.width >= 1 }

  predicate Denotes(t: Numeric, value: int) {
    match t
    case Concrete(isSigned, width) => Fits(value, isSigned, width)
    case Exact(known) => value == known
  }

  lemma WiderFits(value: int, isSigned: bool, width: nat, wider: nat)
    requires width >= 1 && width <= wider && Fits(value, isSigned, width)
    ensures Fits(value, isSigned, wider)
  {
    Pow2Monotone(width, wider);
    Pow2Monotone(width - 1, wider - 1);
  }

  lemma UnsignedFitsSigned(value: int, width: nat)
    requires width >= 1 && Fits(value, false, width)
    ensures Fits(value, true, width + 1)
  {
  }

  // ----- one concrete and one exact operand

  /** type_containing_integer_range. */
  function Containing(lo: int, hi: int): Numeric
    requires lo <= hi
  {
    FamilyWidthMinimal(lo, hi, lo < 0, 1);
    Concrete(lo < 0, FamilyWidth(lo, hi, lo < 0).value)
  }

  lemma EndpointsOrdered(op: Operator, isSigned: bool, width: nat, exact: int, exactIsLeft: bool)
    requires width >= 1
    ensures Endpoints(op, isSigned, width, exact, exactIsLeft).0 <= Endpoints(op, isSigned, width, exact, exactIsLeft).1
  {
    EndpointsExact(op, isSigned, width, exact, exactIsLeft, Least(isSigned, width));
  }

  /** concrete_exact_range_type, for a known concrete width. */
  function RangeType(op: Operator, isSigned: bool, width: nat, exact: int, exactIsLeft: bool): Option<Numeric>
    requires width >= 1
  {
    if op == MultiplyOp && exact == 0 then Some(Concrete(false, 1))
    else if Trivial(op, exact, exactIsLeft) then Some(Concrete(isSigned, width))
    else
      match DominantWidth(op, isSigned, width, exact, exactIsLeft)
      case Width(signedResult, resultWidth) => Some(Concrete(signedResult, resultWidth))
      case TooWide => None
      case UseEndpoints =>
        EndpointsOrdered(op, isSigned, width, exact, exactIsLeft);
        var (lo, hi) := Endpoints(op, isSigned, width, exact, exactIsLeft);
        Some(Containing(lo, hi))
  }

  /** Every result of the operation over the concrete range fits the family and width. */
  ghost predicate HoldsAll(op: Operator, isSigned: bool, width: nat, exact: int, exactIsLeft: bool, family: bool, result: nat) {
    forall x :: Fits(x, isSigned, width) ==> Fits(Apply(op, x, exact, exactIsLeft), family, result)
  }

  /**
   * A type is tight for an operation when it holds all results, no narrower type of its family does, and it is
   * signed only because some result is negative.
   */
  ghost predicate TightFor(t: Numeric, op: Operator, isSigned: bool, width: nat, exact: int, exactIsLeft: bool) {
    && t.Concrete? && t.width >= 1
    && HoldsAll(op, isSigned, width, exact, exactIsLeft, t.isSigned, t.width)
    && (forall narrow: nat :: 1 <= narrow < t.width ==> !HoldsAll(op, isSigned, width, exact, exactIsLeft, t.isSigned, narrow))
    && (t.isSigned ==> exists x :: Fits(x, isSigned, width) && Apply(op, x, exact, exactIsLeft) < 0)
  }

  /** A family width holds all results exactly when it holds both endpoints. */
  lemma HoldsAllAtEnds(op: Operator, isSigned: bool, width: nat, exact: int, exactIsLeft: bool, family: bool, result: nat)
    requires width >= 1
    ensures var (lo, hi) := Endpoints(op, isSigned, width, exact, exactIsLeft);
            HoldsAll(op, isSigned, width, exact, exactIsLeft, family, result) <==> Fits(lo, family, result) && Fits(hi, family, result)
  {
    var (lo, hi) := Endpoints(op, isSigned, width, exact, exactIsLeft);
    EndpointsExact(op, isSigned, width, exact, exactIsLeft, Least(isSigned, width));
    if Fits(lo, family, result) && Fits(hi, family, result) {
      forall x | Fits(x, isSigned, width)
        ensures Fits(Apply(op, x, exact, exactIsLeft), family, result)
      {
        EndpointsExact(op, isSigned, width, exact, exactIsLeft, x);
        FitsBetween(lo, Apply(op, x, exact, exactIsLeft), hi, family, result);
      }
    }
  }

  /** The family width of the endpoints makes a tight type. */
  lemma EndpointTypeTight(op: Operator, isSigned: bool, width: nat, exact: int, exactIsLeft: bool, t: Numeric)
    requires width >= 1 && t.Concrete?
    requires var (lo, hi) := Endpoints(op, isSigned, width, exact, exactIsLeft);
             FamilyWidth(lo, hi, t.isSigned) == Some(t.width) && (t.isSigned <==> lo < 0)
    ensures TightFor(t, op, isSigned, width, exact, exactIsLeft)
  {
    hide FamilyWidth, Endpoints, Fits;
    var (lo, hi) := Endpoints(op, isSigned, width, exact, exactIsLeft);
    EndpointsOrdered(op, isSigned, width, exact, exactIsLeft);
    EndpointsExact(op, isSigned, width, exact, exactIsLeft, 0);
    FamilyWidthMinimal(lo, hi, t.isSigned, 1);
    FamilyWidthMinimal(lo, hi, t.isSigned, t.width);
    HoldsAllAtEnds(op, isSigned, width, exact, exactIsLeft, t.isSigned, t.width);
    forall narrow: nat | 1 <= narrow < t.width
      ensures !HoldsAll(op, isSigned, width, exact, exactIsLeft, t.isSigned, narrow)
    {
      FamilyWidthMinimal(lo, hi, t.isSigned, narrow);
      HoldsAllAtEnds(op, isSigned, width, exact, exactIsLeft, t.isSigned, narrow);
    }
    if t.isSigned {
      var x := if lo == Apply(op, Least(isSigned, width), exact, exactIsLeft) then Least(isSigned, width) else Greatest(isSigned, width);
      assert Fits(x, isSigned, width) && Apply(op, x, exact, exactIsLeft) < 0;
    }
  }

  /**
   * Concrete op exact is typed exactly: the result type holds every result, no narrower one does, and it is
   * signed only if some result is negative. No type means that the width leaves the 64-bit width domain.
   */
  lemma RangeTypeExact(op: Operator, isSigned: bool, width: nat, exact: int, exactIsLeft: bool)
    requires width >= 1 && UnsignedWidth(Abs(exact)) < MAX64 && !Trivial(op, exact, exactIsLeft)
    ensures RangeType(op, isSigned, width, exact, exactIsLeft).Some? ==>
      TightFor(RangeType(op, isSigned, width, exact, exactIsLeft).value, op, isSigned, width, exact, exactIsLeft)
    ensures RangeType(op, isSigned, width, exact, exactIsLeft).None? ==>
      var (lo, hi) := Endpoints(op, isSigned, width, exact, exactIsLeft);
      lo <= hi && Containing(lo, hi).width > MAX64
  {
    ClosedFormExact(op, isSigned, width, exact, exactIsLeft);
    EndpointsOrdered(op, isSigned, width, exact, exactIsLeft);
    var (lo, hi) := Endpoints(op, isSigned, width, exact, exactIsLeft);
    FamilyWidthMinimal(lo, hi, lo < 0, 1);
    match DominantWidth(op, isSigned, width, exact, exactIsLeft)
    case Width(signedResult, resultWidth) =>
      EndpointTypeTight(op, isSigned, width, exact, exactIsLeft, Concrete(signedResult, resultWidth));
    case UseEndpoints =>
      EndpointTypeTight(op, isSigned, width, exact, exactIsLeft, Containing(lo, hi));
    case TooWide =>
  }

  /** The shortcuts for neutral and absorbing constants also hold every result. */
  lemma TrivialHolds(op: Operator, isSigned: bool, width: nat, exact: int, exactIsLeft: bool, x: int)
    requires width >= 1 && Trivial(op, exact, exactIsLeft) && Fits(x, isSigned, width)
    ensures RangeType(op, isSigned, width, exact, exactIsLeft).Some?
    ensures Denotes(RangeType(op, isSigned, width, exact, exactIsLeft).value, Apply(op, x, exact, exactIsLeft))
  {
    if op == MultiplyOp {
      assert x * 0 == 0 && x * 1 == x;
    }
  }

  /** pigen_data_type_evaluate_numerical_range_width for add, subtract and multiply. */
  function EvaluateRange(op: Operator, isSigned: bool, width: nat, exact: int, exactIsLeft: bool, resultSigned: bool): Option<nat>
    requires width >= 1
  {
    match DominantWidth(op, isSigned, width, exact, exactIsLeft)
    case Width(signedResult, resultWidth) => if signedResult == resultSigned then Some(resultWidth) else None
    case TooWide => None
    case UseEndpoints =>
      var (lo, hi) := Endpoints(op, isSigned, width, exact, exactIsLeft);
      FamilyWidth(lo, hi, resultSigned)
  }

  /**
   * A symbolic width fixes its family before the concrete width is known. Whatever the width turns out to be,
   * the family is right: evaluation answers with the exact family width, or the width leaves the width domain.
   */
  lemma SymbolicFamilyNeverFails(op: Operator, isSigned: bool, width: nat, exact: int, exactIsLeft: bool)
    requires width >= 1 && UnsignedWidth(Abs(exact)) < MAX64 && !Trivial(op, exact, exactIsLeft)
    ensures var family := SymbolicSigned(op, isSigned, exact, exactIsLeft);
            var (lo, hi) := Endpoints(op, isSigned, width, exact, exactIsLeft);
            && FamilyWidth(lo, hi, family).Some?
            && EvaluateRange(op, isSigned, width, exact, exactIsLeft, family)
               == if DominantWidth(op, isSigned, width, exact, exactIsLeft).TooWide? then None else FamilyWidth(lo, hi, family)
  {
    hide FamilyWidth;
    ClosedFormExact(op, isSigned, width, exact, exactIsLeft);
    EndpointsOrdered(op, isSigned, width, exact, exactIsLeft);
    var (lo, hi) := Endpoints(op, isSigned, width, exact, exactIsLeft);
    var family := SymbolicSigned(op, isSigned, exact, exactIsLeft);
    FamilyWidthMinimal(lo, hi, family, 1);
    SymbolicFamily(op, isSigned, width, exact, exactIsLeft);
  }

  lemma SymbolicFamily(op: Operator, isSigned: bool, width: nat, exact: int, exactIsLeft: bool)
    requires width >= 1 && !Trivial(op, exact, exactIsLeft)
    ensures Endpoints(op, isSigned, width, exact, exactIsLeft).0 < 0 ==> SymbolicSigned(op, isSigned, exact, exactIsLeft)
    ensures DominantWidth(op, isSigned, width, exact, exactIsLeft).Width? ==>
      DominantWidth(op, isSigned, width, exact, exactIsLeft).isSigned == SymbolicSigned(op, isSigned, exact, exactIsLeft)
  {
    if op == MultiplyOp && !isSigned {
      UnsignedProducts(width, exact, exactIsLeft);
      MulMonotone(0, Pow2(width) - 1, Abs(exact));
    }
  }
}
