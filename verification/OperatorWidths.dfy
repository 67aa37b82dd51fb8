/** How tight the types of binary operators on two concrete operands are: one bit less would lose some result. */
module OperatorWidths {
  import opened Numbers
  import opened Options
  import opened Limbs
  import opened LimbShift
  import opened PowerWidth
  import opened Integers
  import opened Widths
  import opened NumericTypes
  import opened OperatorTypes

  /** Some operand values have a result outside the type. */
  ghost predicate Escapes(binary: Binary, left: Numeric, right: Numeric, isSigned: bool, width: nat) {
    exists a, b :: EscapesAt(binary, left, right, isSigned, width, a, b)
  }

  ghost predicate EscapesAt(binary: Binary, left: Numeric, right: Numeric, isSigned: bool, width: nat, a: int, b: int) {
    Denotes(left, a) && Denotes(right, b) && (binary.Arithmetic? || b >= 0) && !Fits(Meaning(binary, a, b), isSigned, width)
  }

  predicate IsUnit(t: Numeric, isSigned: bool) { t == Concrete(isSigned, 1) }

  /**
   * Where the result type is a bit wider than it need be: adding int[1] and an unsigned operand, subtracting an unsigned
   * operand from int[1], and multiplying by uint[1].
   */
  predicate Spare(op: Operator, left: Numeric, right: Numeric)
    requires left.Concrete? && right.Concrete?
  {
    match op
    case AddOp => (IsUnit(left, true) && !right.isSigned) || (!left.isSigned && IsUnit(right, true))
    case SubtractOp => IsUnit(left, true) && !right.isSigned
    case MultiplyOp => IsUnit(left, false) || IsUnit(right, false)
  }

  lemma HalfPow2(w: nat)
    requires w >= 1
    ensures Pow2(w) == 2 * Pow2(w - 1) && Pow2(w - 1) >= 1 && (Pow2(w - 1) == 1 <==> w == 1) && (w > 1 ==> Pow2(w - 1) >= 2)
  {
    if w > 1 {
      assert Pow2(w - 1) == 2 * Pow2(w - 2);
    }
  }

  lemma MaxPow2(v: nat, w: nat)
    ensures Pow2(Larger(v, w)) == Larger(Pow2(v), Pow2(w))
  {
    if v <= w {
      Pow2Monotone(v, w);
    } else {
      Pow2Monotone(w, v);
    }
  }

  /** An operand of sign `isSigned` and half range h, and whether a value lies in it. */
  predicate InRange(isSigned: bool, h: int, x: int) { if isSigned then -h <= x < h else 0 <= x < 2 * h }

  function Half(t: Numeric): (h: int)
    requires Proper(t) && t.Concrete?
    ensures h >= 1
  {
    Pow2(t.width - 1)
  }

  lemma DenotesRange(t: Numeric, x: int)
    requires Proper(t) && t.Concrete?
    ensures Denotes(t, x) <==> InRange(t.isSigned, Half(t), x)
    ensures Half(t) >= 1 && (Half(t) == 1 <==> t.width == 1)
  {
    HalfPow2(t.width);
  }

  lemma FitsRange(x: int, isSigned: bool, width: nat)
    requires width >= 1
    ensures Fits(x, isSigned, width) <==> InRange(isSigned, Pow2(width - 1), x)
  {
    HalfPow2(width);
  }

  function LargerInt(a: int, b: int): int { if a > b then a else b }

  /** Half the range of the common type. */
  lemma CommonHalf(left: Numeric, right: Numeric)
    requires Proper(left) && Proper(right) && left.Concrete? && right.Concrete?
    ensures var c := CommonType(left, right).value;
            && c.Concrete? && c.width >= 1 && c.isSigned == (left.isSigned || right.isSigned)
            && Half(c) == LargerInt(if c.isSigned && !left.isSigned then 2 * Half(left) else Half(left),
                                    if c.isSigned && !right.isSigned then 2 * Half(right) else Half(right))
  {
    HalfPow2(left.width);
    HalfPow2(right.width);
    var c := CommonType(left, right).value;
    assert left.width + 1 - 1 == left.width && right.width + 1 - 1 == right.width;
    MaxPow2(WidthIn(left, c.isSigned) - 1, WidthIn(right, c.isSigned) - 1);
    hide Pow2;
  }

  // ----- sums and differences

  predicate SumSpare(s: bool, g: int, r: bool, h: int) { (s && g == 1 && !r) || (!s && r && h == 1) }

  lemma SumRange(s: bool, g: int, r: bool, h: int, c: int) returns (x: int, y: int)
    requires g >= 1 && h >= 1
    requires c == LargerInt(if (s || r) && !s then 2 * g else g, if (s || r) && !r then 2 * h else h)
    ensures SumSpare(s, g, r, h) ==>
              forall x, y :: InRange(s, g, x) && InRange(r, h, y) ==> InRange(s || r, c, Apply(AddOp, x, y, false))
    ensures !SumSpare(s, g, r, h) ==> InRange(s, g, x) && InRange(r, h, y) && !InRange(s || r, c, Apply(AddOp, x, y, false))
  {
    x, y := if s && r then -g else if s then g - 1 else 2 * g - 1, if s && r then -h else if r then h - 1 else 2 * h - 1;
  }

  predicate DifferenceSpare(s: bool, g: int, r: bool) { s && g == 1 && !r }

  lemma DifferenceRange(s: bool, g: int, r: bool, h: int, c: int) returns (x: int, y: int)
    requires g >= 1 && h >= 1 && (g > 1 || h > 1 || s || r || g == h)
    requires c == LargerInt(if (s || r) && !s then 2 * g else g, if (s || r) && !r then 2 * h else h)
    ensures DifferenceSpare(s, g, r) ==>
              forall x, y :: InRange(s, g, x) && InRange(r, h, y) ==> InRange(true, c, Apply(SubtractOp, x, y, false))
    ensures !DifferenceSpare(s, g, r) ==> InRange(s, g, x) && InRange(r, h, y) && !InRange(true, c, Apply(SubtractOp, x, y, false))
  {
    var down := !r && (s || g < h);
    x, y := if down then (if s then -g else 0) else (if s then g - 1 else 2 * g - 1),
            if down then 2 * h - 1 else if r then -h else 0;
  }

  // ----- products

  predicate ProductSpare(s: bool, g: int, r: bool, h: int) { (!s && g == 1) || (!r && h == 1) }

  lemma ProductRange(s: bool, g: int, r: bool, h: int) returns (x: int, y: int)
    requires g >= 1 && h >= 1
    ensures ProductSpare(s, g, r, h) ==>
              forall x, y :: InRange(s, g, x) && InRange(r, h, y) ==> InRange(s || r, g * h, Apply(MultiplyOp, x, y, false))
    ensures !ProductSpare(s, g, r, h) ==> InRange(s, g, x) && InRange(r, h, y) && !InRange(s || r, g * h, Apply(MultiplyOp, x, y, false))
  {
    x, y := if s then -g else 2 * g - 1, if r then -h else 2 * h - 1;
    if ProductSpare(s, g, r, h) {
      forall x, y | InRange(s, g, x) && InRange(r, h, y)
        ensures InRange(s || r, g * h, x * y)
      {
        if !s && g == 1 {
          UnitProduct(x, r, h, y);
        } else {
          UnitProduct(y, s, g, x);
          Commutes(x, y);
          Commutes(g, h);
        }
      }
    } else if s && r {
      Signs(g, h);
    } else if s {
      LargeProduct(g, h);
    } else if r {
      LargeProduct(h, g);
      Commutes(x, y);
      Commutes(g, h);
    } else {
      TopsProduct(g, h);
    }
  }

  lemma Commutes(a: int, b: int)
    ensures a * b == b * a
  {
  }

  lemma UnitProduct(x: int, r: bool, h: int, y: int)
    requires 0 <= x < 2 && h >= 1 && InRange(r, h, y)
    ensures InRange(r, 1 * h, x * y) && 1 * h == h
  {
    if x == 0 {
      assert 0 * y == 0;
    } else {
      assert x == 1 && 1 * y == y;
    }
  }

  lemma Signs(g: int, h: int)
    ensures -g * -h == g * h
  {
  }

  lemma LargeProduct(g: int, h: int)
    requires g >= 1 && h >= 2
    ensures -g * (2 * h - 1) < -(g * h)
  {
    assert -g * (2 * h - 1) == -(2 * (g * h)) + g;
    MulMonotone(2, h, g);
    Commutes(g, h);
  }

  lemma TopsProduct(g: int, h: int)
    requires g >= 2 && h >= 2
    ensures (2 * g - 1) * (2 * h - 1) >= 2 * (g * h)
  {
    assert (2 * g - 1) * (2 * h - 1) == 4 * (g * h) - 2 * g - 2 * h + 1;
    assert (g - 1) * (h - 1) == g * h - g - h + 1;
    MulMonotone(1, g - 1, h - 1);
  }

  // ----- the result types

  lemma ResultIs(op: Operator, left: Numeric, right: Numeric)
    requires Proper(left) && Proper(right) && left.Concrete? && right.Concrete?
    ensures CommonType(left, right).Some? && CommonType(left, right).value.Concrete?
    ensures CommonType(left, right).value.isSigned == (left.isSigned || right.isSigned)
    ensures ResolveBinary(Arithmetic(op), left, right) ==
            Some(Concrete(op.SubtractOp? || left.isSigned || right.isSigned,
                          if op.MultiplyOp? then left.width + right.width else CommonType(left, right).value.width + 1))
  {
    hide WidthIn, Larger;
  }

  /** The range of a binary result one bit narrower than its type. */
  lemma NarrowHalf(op: Operator, left: Numeric, right: Numeric) returns (n: nat)
    requires Proper(left) && Proper(right) && left.Concrete? && right.Concrete?
    ensures ResolveBinary(Arithmetic(op), left, right).Some?
    ensures var t := ResolveBinary(Arithmetic(op), left, right).value;
            && t.Concrete? && t.width >= 2 && t.isSigned == (op.SubtractOp? || left.isSigned || right.isSigned)
            && n == Pow2(t.width - 2)
    ensures CommonType(left, right).Some? && Proper(CommonType(left, right).value) && CommonType(left, right).value.Concrete?
    ensures if op.MultiplyOp? then n == Half(left) * Half(right) else n == Half(CommonType(left, right).value)
  {
    hide Pow2, CommonType, ResolveBinary;
    ResultIs(op, left, right);
    CommonHalf(left, right);
    var t := ResolveBinary(Arithmetic(op), left, right).value;
    n := Pow2(t.width - 2);
    if op.MultiplyOp? {
      Pow2Add(left.width - 1, right.width - 1);
      assert left.width - 1 + (right.width - 1) == t.width - 2;
    }
  }

  /**
   * Adding, subtracting or multiplying two concrete operands always has a type. It is signed exactly for differences and
   * for signed operands, and one bit less would lose some result, but for the spare cases, where it would not.
   */
  lemma BinaryTight(op: Operator, left: Numeric, right: Numeric)
    requires Proper(left) && Proper(right) && left.Concrete? && right.Concrete?
    ensures ResolveBinary(Arithmetic(op), left, right).Some?
    ensures var t := ResolveBinary(Arithmetic(op), left, right).value;
            && t.Concrete? && t.width >= 2 && t.isSigned == (op.SubtractOp? || left.isSigned || right.isSigned)
            && (Escapes(Arithmetic(op), left, right, t.isSigned, t.width - 1) <==> !Spare(op, left, right))
  {
    var n := NarrowHalf(op, left, right);
    var t := ResolveBinary(Arithmetic(op), left, right).value;
    var s, g, r, h := left.isSigned, Half(left), right.isSigned, Half(right);
    CommonHalf(left, right);
    HalfIsOne(left);
    HalfIsOne(right);
    var x, y;
    if op.AddOp? {
      x, y := SumRange(s, g, r, h, n);
      assert Spare(op, left, right) <==> SumSpare(s, g, r, h);
      hide *;
      TightByRange(op, left, right, t, n, SumSpare(s, g, r, h), x, y);
    } else if op.SubtractOp? {
      x, y := DifferenceRange(s, g, r, h, n);
      assert Spare(op, left, right) <==> DifferenceSpare(s, g, r);
      hide *;
      TightByRange(op, left, right, t, n, DifferenceSpare(s, g, r), x, y);
    } else {
      x, y := ProductRange(s, g, r, h);
      assert Spare(op, left, right) <==> ProductSpare(s, g, r, h);
      hide *;
      TightByRange(op, left, right, t, n, ProductSpare(s, g, r, h), x, y);
    }
  }

  lemma HalfIsOne(t: Numeric)
    requires Proper(t) && t.Concrete?
    ensures Half(t) == 1 <==> t.width == 1
  {
    HalfPow2(t.width);
  }

  lemma TightByRange(op: Operator, left: Numeric, right: Numeric, t: Numeric, n: nat, spare: bool, x: int, y: int)
    requires Proper(left) && Proper(right) && left.Concrete? && right.Concrete? && t.Concrete? && t.width >= 2
    requires n == Pow2(t.width - 2)
    requires spare ==> forall a, b :: InRange(left.isSigned, Half(left), a) && InRange(right.isSigned, Half(right), b) ==>
                         InRange(t.isSigned, n, Apply(op, a, b, false))
    requires !spare ==> InRange(left.isSigned, Half(left), x) && InRange(right.isSigned, Half(right), y)
                        && !InRange(t.isSigned, n, Apply(op, x, y, false))
    ensures Escapes(Arithmetic(op), left, right, t.isSigned, t.width - 1) <==> !spare
  {
    hide InRange, Half, Apply, EscapesAt;
    EscapeAt(op, left, right, t, n, x, y);
    var isSigned, width := t.isSigned, t.width - 1;
    if a, b :| EscapesAt(Arithmetic(op), left, right, isSigned, width, a, b) {
      EscapeAt(op, left, right, t, n, a, b);
    }
  }

  lemma EscapeAt(op: Operator, left: Numeric, right: Numeric, t: Numeric, n: nat, x: int, y: int)
    requires Proper(left) && Proper(right) && left.Concrete? && right.Concrete? && t.Concrete? && t.width >= 2
    requires n == Pow2(t.width - 2)
    ensures EscapesAt(Arithmetic(op), left, right, t.isSigned, t.width - 1, x, y) <==>
            && InRange(left.isSigned, Half(left), x) && InRange(right.isSigned, Half(right), y)
            && !InRange(t.isSigned, n, Apply(op, x, y, false))
  {
    DenotesRange(left, x);
    DenotesRange(right, y);
    FitsRange(Apply(op, x, y, false), t.isSigned, t.width - 1);
  }

  /** A left shift has a type exactly for an unsigned amount or an exact one within 64 bits, and needs every bit of it. */
  lemma ShiftTight(left: Numeric, right: Numeric)
    requires Proper(left) && Proper(right)
    ensures ResolveBinary(ShiftLeftBy, left, right).Some? <==>
            left.Concrete? && if right.Exact? then 0 <= right.value < 0x1_0000_0000_0000_0000 else !right.isSigned
    ensures ResolveBinary(ShiftLeftBy, left, right).Some? ==>
              var t := ResolveBinary(ShiftLeftBy, left, right).value;
              && t.Concrete? && t.isSigned == left.isSigned
              && (t.width >= 2 ==> Escapes(ShiftLeftBy, left, right, t.isSigned, t.width - 1))
  {
    if ShiftOk(left, right) && left.width + MostShift(right) >= 2 {
      hide Escapes;
      ShiftEscapes(left, right);
    }
  }

  lemma ShiftEscapes(left: Numeric, right: Numeric)
    requires Proper(left) && Proper(right) && ShiftOk(left, right) && left.width + MostShift(right) >= 2
    ensures Escapes(ShiftLeftBy, left, right, left.isSigned, left.width + MostShift(right) - 1)
  {
    var m, h := MostShift(right), Half(left);
    var width := left.width + m - 1;
    var a: int := if left.isSigned then -h else 2 * h - 1;
    Pow2Positive(m);
    assert Denotes(right, m);
    assert Meaning(ShiftLeftBy, a, m) == a * Pow2(m);
    hide Pow2, Fits, MostShift, ShiftOk, Meaning;
    DenotesRange(left, a);
    FitsRange(a * Pow2(m), left.isSigned, width);
    ShiftedTop(left.width, m, left.isSigned);
    assert EscapesAt(ShiftLeftBy, left, right, left.isSigned, width, a, m);
  }

  lemma Pow2Positive(m: nat)
    ensures Pow2(m) >= 1
  {
  }

  lemma ShiftedTop(width: nat, m: nat, isSigned: bool)
    requires width >= 1 && width + m >= 2
    ensures var a, n := if isSigned then -(Pow2(width - 1) as int) else 2 * Pow2(width - 1) - 1, Pow2(width + m - 2);
            !InRange(isSigned, n, a * Pow2(m))
  {
    var h: int, d: int, n: int := Pow2(width - 1), Pow2(m), Pow2(width + m - 2);
    Pow2Add(width - 1, m);
    HalfPow2(width + m - 1);
    assert width + m - 1 - 1 == width + m - 2;
    hide Pow2;
    ScaledTop(h, d, n);
  }

  lemma ScaledTop(h: int, d: int, n: int)
    requires h >= 1 && d >= 1 && n >= 1 && h * d == 2 * n
    ensures -h * d < -n && (2 * h - 1) * d >= 2 * n
  {
    assert -h * d == -(h * d);
    assert (2 * h - 1) * d == 2 * (h * d) - d;
    MulMonotone(1, h, d);
  }

  /** A right shift has a type exactly where a left shift has one: that of its left operand, which it may yet leave spare. */
  lemma RightShiftTight(left: Numeric, right: Numeric)
    requires Proper(left) && Proper(right)
    ensures ResolveBinary(ShiftRightBy, left, right).Some? <==> ResolveBinary(ShiftLeftBy, left, right).Some?
    ensures ResolveBinary(ShiftRightBy, left, right).Some? ==>
              var t := ResolveBinary(ShiftRightBy, left, right).value;
              && t.Concrete? && t.isSigned == left.isSigned
              && (t.width >= 2 ==> (Escapes(ShiftRightBy, left, right, t.isSigned, t.width - 1) <==>
                                    !(right.Exact? && right.value > 0)))
  {
    if ShiftOk(left, right) && left.width >= 2 {
      hide Escapes;
      RightShiftEscapes(left, right);
    }
  }

  lemma RightShiftEscapes(left: Numeric, right: Numeric)
    requires Proper(left) && Proper(right) && ShiftOk(left, right) && left.width >= 2
    ensures Escapes(ShiftRightBy, left, right, left.isSigned, left.width - 1) <==> !(right.Exact? && right.value > 0)
  {
    var h: int := Pow2(left.width - 2);
    HalfPow2(left.width - 1);
    assert Half(left) == 2 * h && h >= 1 && Pow2(0) == 1;
    if right.Exact? && right.value > 0 {
      forall a, b | Denotes(left, a) && Denotes(right, b)
        ensures Fits(Meaning(ShiftRightBy, a, b), left.isSigned, left.width - 1)
      {
        HalfPow2(b + 1);
        DenotesRange(left, a);
        FitsRange(Meaning(ShiftRightBy, a, b), left.isSigned, left.width - 1);
        hide Pow2, Fits, Denotes, Half;
        ShiftedIsHalf(left.isSigned, h, a, Pow2(b));
      }
    } else {
      var a: int := if left.isSigned then -2 * h else 4 * h - 1;
      DenotesRange(left, a);
      FitsRange(a, left.isSigned, left.width - 1);
      assert Denotes(right, 0) by {
        if right.Concrete? {
          DenotesRange(right, 0);
        }
      }
      assert Meaning(ShiftRightBy, a, 0) == a;
      hide Pow2, Fits, Denotes, Half, Meaning;
      assert EscapesAt(ShiftRightBy, left, right, left.isSigned, left.width - 1, a, 0);
    }
  }

  lemma ShiftedIsHalf(isSigned: bool, h: int, a: int, d: int)
    requires h >= 1 && d >= 2 && InRange(isSigned, 2 * h, a)
    ensures InRange(isSigned, h, if a >= 0 then a / d else -((-a + d - 1) / d))
  {
    MulMonotone(2, d, h);
    MulMonotone(2, d, 2 * h);
    Commutes(d, h);
    Commutes(d, 2 * h);
    if a >= 0 {
      QuotientBelow(a, d, if isSigned then h else 2 * h);
    } else {
      assert d * (h + 1) == d * h + d;
      QuotientBelow(-a + d - 1, d, h + 1);
    }
  }

  /** The common type of two operands is signed only if one of them can be negative, and needs every bit of it. */
  lemma CommonTypeSmallest(left: Numeric, right: Numeric)
    requires Proper(left) && Proper(right) && CommonType(left, right).Some?
    ensures var c := CommonType(left, right).value;
            && c.Concrete? && (c.isSigned <==> exists x :: x < 0 && (Denotes(left, x) || Denotes(right, x)))
            && (c.width >= 2 ==> exists x :: (Denotes(left, x) || Denotes(right, x)) && !Fits(x, c.isSigned, c.width - 1))
  {
    var c := CommonType(left, right).value;
    var x := NegativeValue(left);
    var y := NegativeValue(right);
    var f := WidestValue(left, c.isSigned);
    var g := WidestValue(right, c.isSigned);
    if c.width >= 2 {
      var z := if WidthIn(left, c.isSigned) == c.width then f else g;
      assert (Denotes(left, z) || Denotes(right, z)) && !Fits(z, c.isSigned, c.width - 1);
    }
    if c.isSigned {
      var z := if NeedsSign(left) then x else y;
      assert z < 0 && (Denotes(left, z) || Denotes(right, z));
    }
  }

  lemma NegativeValue(t: Numeric) returns (x: int)
    requires Proper(t)
    ensures NeedsSign(t) ==> x < 0 && Denotes(t, x)
    ensures !NeedsSign(t) ==> forall y :: Denotes(t, y) ==> y >= 0
  {
    x := if t.Exact? then t.value else -1;
    if t.Concrete? && t.isSigned {
      DenotesRange(t, x);
    }
  }

  lemma WidestValue(t: Numeric, isSigned: bool) returns (x: int)
    requires Proper(t) && (NeedsSign(t) ==> isSigned)
    ensures Denotes(t, x) && (WidthIn(t, isSigned) >= 2 ==> !Fits(x, isSigned, WidthIn(t, isSigned) - 1))
  {
    var n := WidthIn(t, isSigned);
    match t
    case Exact(value) =>
      x := value;
      if n >= 2 {
        SignedWidthMinimal(value, n - 1);
        UnsignedWidthMinimal(Abs(value), n - 1);
      }
    case Concrete(own, width) =>
      x := if own then -Half(t) else 2 * Half(t) - 1;
      DenotesRange(t, x);
      if n >= 2 {
        FitsRange(x, isSigned, n - 1);
        HalfPow2(n - 1);
      }
  }
}
