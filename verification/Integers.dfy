/** Canonical arbitrary-precision signed integers: one id per integer, and exact arithmetic on ids. */
module Integers {
  import opened Numbers
  import opened Options
  import opened Limbs
  import opened LimbShift
  import opened LimbGrow
  import opened PowerWidth

  /** A stored integer: its sign and its slice of the limb arena. */
  datatype Record = Record(negative: bool, first: nat, count: nat)

  const SIZE_MAX: nat := 0xFFFF_FFFF_FFFF_FFFF

  predicate SliceOk(arena: seq<Limb>, r: Record) { r.first + r.count <= |arena| }

  function Slice(arena: seq<Limb>, r: Record): seq<Limb>
    requires SliceOk(arena, r)
  {
    arena[r.first..r.first + r.count]
  }

  function Signed(negative: bool, limbs: seq<Limb>): int {
    if negative then -(Value(limbs) as int) else Value(limbs)
  }

  function Abs(value: int): nat { if value < 0 then -value else value }

  /** Every record is in canonical form and no two records spell the same integer. */
  ghost predicate Canonical(records: seq<Record>, arena: seq<Limb>) {
    && (forall i :: 0 <= i < |records| ==> SliceOk(arena, records[i]) && Normal(Slice(arena, records[i])))
    && (forall i :: 0 <= i < |records| && records[i].negative ==> records[i].count > 0)
    && (forall i, j :: 0 <= i < j < |records| ==>
          !(records[i].negative == records[j].negative && Slice(arena, records[i]) == Slice(arena, records[j])))
  }

  ghost function ValueOf(records: seq<Record>, arena: seq<Limb>, id: nat): int
    requires Canonical(records, arena) && id < |records|
  {
    Signed(records[id].negative, Slice(arena, records[id]))
  }

  /** Sign and normal limbs are determined by the integer. */
  lemma SignedIsCanonical(n: bool, a: seq<Limb>, m: bool, b: seq<Limb>)
    requires Normal(a) && Normal(b) && (n ==> a != []) && (m ==> b != [])
    requires Signed(n, a) == Signed(m, b)
    ensures n == m && a == b
  {
    if a != [] {
      NormalIsLarge(a);
    }
    if b != [] {
      NormalIsLarge(b);
    }
    NormalIsCanonical(a, b);
  }

  /** Two ids are equal exactly when their integers are. */
  lemma IdsAreIntegers(records: seq<Record>, arena: seq<Limb>, i: nat, j: nat)
    requires Canonical(records, arena) && i < |records| && j < |records|
    ensures i == j <==> ValueOf(records, arena, i) == ValueOf(records, arena, j)
  {
    if ValueOf(records, arena, i) == ValueOf(records, arena, j) {
      SignedIsCanonical(records[i].negative, Slice(arena, records[i]), records[j].negative, Slice(arena, records[j]));
    }
  }

  /** Appending records and limbs keeps every stored integer. */
  lemma GrowingKeepsValues(records: seq<Record>, arena: seq<Limb>, records': seq<Record>, arena': seq<Limb>, id: nat)
    requires Canonical(records, arena) && Canonical(records', arena') && records <= records' && arena <= arena' && id < |records|
    ensures ValueOf(records', arena', id) == ValueOf(records, arena, id)
  {
    assert Slice(arena', records'[id]) == Slice(arena, records[id]);
  }

  /** Appending an integer that is not stored yet keeps the arena canonical. */
  lemma AppendCanonical(records: seq<Record>, arena: seq<Limb>, negative: bool, limbs: seq<Limb>)
    requires Canonical(records, arena) && Normal(limbs) && (negative ==> limbs != [])
    requires forall i :: 0 <= i < |records| ==> !(records[i].negative == negative && Slice(arena, records[i]) == limbs)
    ensures Canonical(records + [Record(negative, |arena|, |limbs|)], arena + limbs)
    ensures ValueOf(records + [Record(negative, |arena|, |limbs|)], arena + limbs, |records|) == Signed(negative, limbs)
  {
    var all, longer := records + [Record(negative, |arena|, |limbs|)], arena + limbs;
    forall i | 0 <= i < |records|
      ensures SliceOk(longer, all[i]) && Slice(longer, all[i]) == Slice(arena, records[i])
    {
    }
    assert Slice(longer, all[|records|]) == limbs;
  }

  // ----- widths of signed integers

  /** Least number of two's complement bits. */
  function SignedWidth(value: int): nat {
    if value == 0 then 1
    else if value < 0 && OneBit(-value) then BitLength(-value)
    else BitLength(Abs(value)) + 1
  }

  predicate FitsSigned(value: int, width: nat)
    requires width >= 1
  {
    -(Pow2(width - 1) as int) <= value < Pow2(width - 1)
  }

  /** The signed width is the smallest that fits. */
  lemma SignedWidthMinimal(value: int, width: nat)
    requires width >= 1
    ensures SignedWidth(value) >= 1
    ensures FitsSigned(value, width) <==> SignedWidth(value) <= width
  {
    var m := Abs(value);
    if value != 0 {
      BitLengthBounds(m);
      OneBitIsPow2(m);
      BitLengthExceeds(m, width - 1);
      if value < 0 && OneBit(m) {
        if BitLength(m) <= width {
          Pow2Monotone(BitLength(m) - 1, width - 1);
        } else {
          Pow2Monotone(width - 1, BitLength(m) - 1);
        }
      } else if value < 0 && m == Pow2(width - 1) {
        BitLengthUnique(Pow2(width - 1), width);
      }
    } else {
      assert Pow2(width - 1) >= 1;
    }
  }

  lemma UnsignedWidthMinimal(value: nat, width: nat)
    requires width >= 1
    ensures UnsignedWidth(value) >= 1
    ensures value < Pow2(width) <==> UnsignedWidth(value) <= width
  {
    BitLengthExceeds(value, width);
    BitLengthBounds(value);
  }

  // ----- powers of integers

  lemma {:induction false} PowAbs(base: int, exponent: nat)
    ensures Abs(Pow(base, exponent)) == Pow(Abs(base), exponent)
  {
    if exponent > 0 {
      PowAbs(base, exponent - 1);
      AbsProduct(base, Pow(base, exponent - 1));
    }
  }

  lemma AbsProduct(a: int, b: int)
    ensures Abs(a * b) == Abs(a) * Abs(b)
  {
    if a < 0 {
      assert a * b == -((-a) * b);
    }
    if b < 0 {
      assert Abs(a) * b == -(Abs(a) * (-b));
    }
    MulMonotone(0, Abs(a), Abs(b));
  }

  /** Bit lengths of powers grow with the exponent. */
  lemma PowerBitsGrow(base: int, a: nat, b: nat)
    requires Abs(base) >= 1 && a <= b
    ensures BitLength(Abs(Pow(base, a))) <= BitLength(Abs(Pow(base, b)))
  {
    PowAbs(base, a);
    PowAbs(base, b);
    PowMonotone(Abs(base), a, b);
    BitLengthMonotone(Abs(Pow(base, a)), Abs(Pow(base, b)));
  }

  lemma {:induction false} PowerReachesTwo(base: nat, exponent: nat)
    requires base >= 2
    ensures Pow(base, exponent) >= Pow2(exponent)
  {
    if exponent > 0 {
      PowerReachesTwo(base, exponent - 1);
      MulMonotoneBoth(2, base, Pow2(exponent - 1), Pow(base, exponent - 1));
    }
  }

  lemma {:induction false} UnitPowers(base: int, exponent: nat)
    requires base == 1 || base == -1
    ensures Pow(base, exponent) == if base == 1 || exponent % 2 == 0 then 1 else -1
  {
    if exponent > 0 {
      UnitPowers(base, exponent - 1);
    }
  }

  class IntegerModel {
    var records: seq<Record>
    var arena: seq<Limb>

    ghost predicate Valid()
      reads this
    {
      Canonical(records, arena)
    }

    ghost function Of(id: nat): int
      reads this
      requires Valid() && id < |records|
    {
      ValueOf(records, arena, id)
    }

    constructor ()
      ensures Valid() && records == []
    {
      records, arena := [], [];
    }

    /** integer_intern: the id of a sign and magnitude; known integers are found, new ones appended. */
    method Intern(negative: bool, limbs: seq<Limb>) returns (id: nat)
      requires Valid()
      modifies this
      ensures Valid() && old(records) <= records && old(arena) <= arena
      ensures id < |records| && Of(id) == Signed(negative, limbs)
    {
      var count := NormalizedCount(limbs);
      var kept := limbs[..count];
      ZeroValue(kept);
      var sign := negative && count > 0;
      id := 0;
      while id < |records|
        invariant id <= |records|
        invariant forall i :: 0 <= i < id ==> !(records[i].negative == sign && Slice(arena, records[i]) == kept)
      {
        if records[id].negative == sign && arena[records[id].first..records[id].first + records[id].count] == kept {
          return;
        }
        id := id + 1;
      }
      AppendCanonical(records, arena, sign, kept);
      records := records + [Record(sign, |arena|, count)];
      arena := arena + kept;
    }

    method InternU64(value: nat) returns (id: nat)
      requires Valid() && value <= MAX64
      modifies this
      ensures Valid() && old(records) <= records && old(arena) <= arena
      ensures id < |records| && Of(id) == value
    {
      var limbs := LimbsOf(value);
      id := Intern(false, limbs);
    }

    /** pigen_integer_intern_decimal: fails exactly on malformed spellings. */
    method InternDecimal(digits: string) returns (id: Option<nat>)
      requires Valid()
      modifies this
      ensures Valid() && old(records) <= records && old(arena) <= arena
      ensures id.None? <==> Decimal(digits) < 0 || !HasDigit(digits)
      ensures id.Some? ==> id.value < |records| && Of(id.value) == Decimal(digits)
    {
      var ok, limbs := ParseDecimal(digits);
      if !ok {
        return None;
      }
      var known := Intern(false, limbs);
      return Some(known);
    }

    method Negate(value: nat) returns (id: nat)
      requires Valid() && value < |records|
      modifies this
      ensures Valid() && old(records) <= records && old(arena) <= arena
      ensures id < |records| && Of(id) == -old(Of(value))
    {
      if records[value].count == 0 {
        return value;
      }
      var r := records[value];
      id := Intern(!r.negative, arena[r.first..r.first + r.count]);
    }

    /** pigen_integer_compare. */
    method Compare(left: nat, right: nat) returns (sign: int)
      requires Valid() && left < |records| && right < |records|
      ensures sign == if Of(left) < Of(right) then -1 else if Of(left) > Of(right) then 1 else 0
    {
      var l, r := records[left], records[right];
      SignOf(l.negative, Slice(arena, l));
      SignOf(r.negative, Slice(arena, r));
      if l.negative != r.negative {
        return if l.negative then -1 else 1;
      }
      var comparison := MagnitudeCompare(arena[l.first..l.first + l.count], arena[r.first..r.first + r.count]);
      return if l.negative then -comparison else comparison;
    }

    /** pigen_integer_add: magnitudes add for equal signs and subtract for different ones. */
    method Add(left: nat, right: nat) returns (id: nat)
      requires Valid() && left < |records| && right < |records|
      modifies this
      ensures Valid() && old(records) <= records && old(arena) <= arena
      ensures id < |records| && Of(id) == old(Of(left) + Of(right))
    {
      var l, r := records[left], records[right];
      var a, b := arena[l.first..l.first + l.count], arena[r.first..r.first + r.count];
      if l.negative == r.negative {
        var sum := MagnitudeAdd(a, b);
        id := Intern(l.negative, sum);
        return;
      }
      var comparison := MagnitudeCompare(a, b);
      if comparison == 0 {
        id := InternU64(0);
      } else if comparison > 0 {
        LargerIsLonger(a, b);
        var difference := MagnitudeSubtract(a, b);
        id := Intern(l.negative, difference);
      } else {
        LargerIsLonger(b, a);
        var difference := MagnitudeSubtract(b, a);
        id := Intern(r.negative, difference);
      }
    }

    method Subtract(left: nat, right: nat) returns (id: nat)
      requires Valid() && left < |records| && right < |records|
      modifies this
      ensures Valid() && old(records) <= records && old(arena) <= arena
      ensures id < |records| && Of(id) == old(Of(left) - Of(right))
    {
      var negative := Negate(right);
      GrowingKeepsValues(old(records), old(arena), records, arena, left);
      label negated:
      id := Add(left, negative);
    }

    /** integer_multiply_bounded: fails exactly when the product needs more than `maximumBits` bits. */
    method MultiplyBounded(left: nat, right: nat, maximumBits: nat) returns (id: Option<nat>)
      requires Valid() && left < |records| && right < |records|
      modifies this
      ensures Valid() && old(records) <= records && old(arena) <= arena
      ensures id.None? <==> maximumBits == 0 || BitLength(Abs(old(Of(left) * Of(right)))) > maximumBits
      ensures id.Some? ==> id.value < |records| && Of(id.value) == old(Of(left) * Of(right))
    {
      if maximumBits == 0 {
        return None;
      }
      var l, r := records[left], records[right];
      var a, b := arena[l.first..l.first + l.count], arena[r.first..r.first + r.count];
      SignedProduct(l.negative, a, r.negative, b);
      ghost var whole := Of(left) * Of(right);
      assert whole == Signed(l.negative, a) * Signed(r.negative, b) && BitLength(0) == 0;
      hide Value, Signed, BitLength, ValueOf, Canonical;
      if l.count == 0 || r.count == 0 {
        var zero := InternU64(0);
        return Some(zero);
      }
      var product := MagnitudeMultiply(a, b);
      WidthIsBitLength(product);
      assert Signed(l.negative != r.negative, product) == whole by {
        ProductSigned(l.negative, a, r.negative, b, product);
      }
      if |product| > 0 && ((|product| - 1) > (maximumBits - 1) / 32 || MagnitudeWidth(product) > maximumBits) {
        TooManyLimbs(product, maximumBits);
        return None;
      }
      var known := Intern(l.negative != r.negative, product);
      return Some(known);
    }

    method UnsignedWidthOf(id: nat) returns (width: nat)
      requires Valid() && id < |records|
      ensures width == if Of(id) < 0 then 0 else UnsignedWidth(Of(id))
    {
      var r := records[id];
      var limbs := arena[r.first..r.first + r.count];
      assert Of(id) == Signed(r.negative, limbs);
      UnsignedWidthByLimbs(r.negative, limbs);
      hide *;
      if r.negative {
        return 0;
      }
      if r.count == 0 {
        return 1;
      }
      return MagnitudeWidth(limbs);
    }

    method SignedWidthOf(id: nat) returns (width: nat)
      requires Valid() && id < |records|
      ensures width == SignedWidth(Of(id))
    {
      var r := records[id];
      var limbs := arena[r.first..r.first + r.count];
      SignOf(r.negative, limbs);
      if r.count == 0 {
        return 1;
      }
      WidthIsBitLength(limbs);
      var one := IsPowerOfTwo(limbs);
      width := MagnitudeWidth(limbs);
      return if r.negative && one then width else width + 1;
    }

    /** pigen_integer_shift_left: fails exactly when the shifted integer needs more than `maximumBits` bits. */
    method ShiftedLeft(value: nat, amount: nat, maximumBits: nat) returns (id: Option<nat>)
      requires Valid() && value < |records|
      modifies this
      ensures Valid() && old(records) <= records && old(arena) <= arena
      ensures id.None? <==> maximumBits == 0 || BitLength(Abs(old(Of(value)) * Pow2(amount))) > maximumBits
      ensures id.Some? ==> id.value < |records| && Of(id.value) == old(Of(value)) * Pow2(amount)
    {
      if maximumBits == 0 {
        return None;
      }
      var r := records[value];
      var limbs := arena[r.first..r.first + r.count];
      SignOf(r.negative, limbs);
      if r.count == 0 {
        assert 0 * Pow2(amount) == 0;
        return Some(value);
      }
      WidthIsBitLength(limbs);
      BitLengthShift(Value(limbs), amount);
      SignedShift(r.negative, limbs, Pow2(amount));
      var width := MagnitudeWidth(limbs);
      if width > maximumBits || amount > maximumBits - width {
        return None;
      }
      var shifted := ShiftLeft(limbs, amount);
      var known := Intern(r.negative, shifted);
      return Some(known);
    }

    /** pigen_integer_to_size: the value of a non-negative integer below 2^64. */
    method ToSize(id: nat) returns (size: Option<nat>)
      requires Valid() && id < |records|
      ensures size == if 0 <= Of(id) <= SIZE_MAX then Some(Of(id)) else None
    {
      var r := records[id];
      var limbs := arena[r.first..r.first + r.count];
      SignOf(r.negative, limbs);
      SizeOfLimbs(limbs);
      if r.negative || r.count > 2 {
        return None;
      }
      if r.count == 2 {
        TwoLimbs(limbs[0], limbs[1]);
        assert limbs == [limbs[0], limbs[1]];
        return Some(limbs[0] + BASE * limbs[1]);
      } else if r.count == 1 {
        TwoLimbs(limbs[0], 0);
        assert limbs == [limbs[0]];
        return Some(limbs[0]);
      }
      return Some(0);
    }

    /**
     * pigen_integer_power: for a non-negative exponent and a positive bound it fails exactly when the power
     * needs more than `maximumBits` bits.
     */
    method Power(base: nat, exponent: nat, maximumBits: nat) returns (id: Option<nat>)
      requires Valid() && base < |records| && exponent < |records| && maximumBits <= SIZE_MAX
      modifies this
      ensures Valid() && old(records) <= records && old(arena) <= arena
      ensures id.None? <==>
        maximumBits == 0 || old(Of(exponent)) < 0 || BitLength(Abs(Pow(old(Of(base)), old(Of(exponent))))) > maximumBits
      ensures id.Some? ==> old(Of(exponent)) >= 0 && id.value < |records| && Of(id.value) == Pow(old(Of(base)), old(Of(exponent)))
    {
      ghost var b, e := Of(base), Of(exponent);
      SignOf(records[exponent].negative, Slice(arena, records[exponent]));
      SignOf(records[base].negative, Slice(arena, records[base]));
      if maximumBits == 0 || records[exponent].negative {
        return None;
      }
      var size := ToSize(exponent);
      var odd := IsOdd(exponent);
      var exponentIsZero, baseIsZero := records[exponent].count == 0, records[base].count == 0;
      assert e >= 0 && (exponentIsZero <==> e == 0) && (baseIsZero <==> b == 0);
      TrivialPowers(b, e);
      hide Canonical, ValueOf, Slice, Signed, Pow, BitLength;
      var one := InternU64(1);
      GrowingKeepsValues(old(records), old(arena), records, arena, base);
      if exponentIsZero {
        return Some(one);
      }
      if baseIsZero {
        var zero := InternU64(0);
        return Some(zero);
      }
      var comparison := Compare(base, one);
      if comparison == 0 {
        return Some(one);
      }
      ghost var before, limbs := records, arena;
      var negativeOne := Negate(one);
      GrowingKeepsValues(before, limbs, records, arena, base);
      GrowingKeepsValues(before, limbs, records, arena, one);
      comparison := Compare(base, negativeOne);
      if comparison == 0 {
        return Some(if odd then negativeOne else one);
      }
      if size.None? {
        HugeExponent(b, e, maximumBits);
        return None;
      }
      id := PowerLoop(one, base, size.value, maximumBits);
    }

    /** The product of two powers of b on the way to b^exponent; `other` keeps its value. */
    method MultiplyPowers(left: nat, right: nat, ghost other: nat, ghost b: int, ghost i: nat, ghost j: nat,
                          ghost exponent: nat, maximumBits: nat)
      returns (id: Option<nat>)
      requires Valid() && left < |records| && right < |records| && other < |records| && maximumBits > 0
      requires Of(left) == Pow(b, i) && Of(right) == Pow(b, j) && Abs(b) >= 2 && i + j <= exponent
      modifies this
      ensures Valid() && old(records) <= records && old(arena) <= arena && Of(other) == old(Of(other))
      ensures id.None? ==> BitLength(Abs(Pow(b, exponent))) > maximumBits
      ensures id.Some? ==> id.value < |records| && Of(id.value) == Pow(b, i + j)
      ensures id.Some? && i + j == exponent ==> BitLength(Abs(Pow(b, exponent))) <= maximumBits
    {
      hide BitLength, Canonical, Pow;
      ghost var before, limbs := records, arena;
      PowAdd(b, i, j);
      PowerBitsGrow(b, i + j, exponent);
      id := MultiplyBounded(left, right, maximumBits);
      GrowingKeepsValues(before, limbs, records, arena, other);
    }

    /** Multiplies for a set bit of the exponent; the factor keeps its value. */
    method OddStep(result: nat, factor: nat, ghost b: int, ghost done: nat, ghost step: nat, power: nat,
                   ghost exponent: nat, maximumBits: nat)
      returns (id: Option<nat>)
      requires Valid() && result < |records| && factor < |records| && maximumBits > 0
      requires Of(result) == Pow(b, done) && Of(factor) == Pow(b, step) && Abs(b) >= 2
      requires power % 2 == 1 ==> done + step <= exponent
      modifies this
      ensures Valid() && Extends(old(records), old(arena), records, arena) && Of(factor) == old(Of(factor))
      ensures id.None? ==> BitLength(Abs(Pow(b, exponent))) > maximumBits
      ensures id.Some? ==> id.value < |records| && Of(id.value) == Pow(b, if power % 2 == 1 then done + step else done)
      ensures id.Some? && power % 2 == 1 && done + step == exponent ==> BitLength(Abs(Pow(b, exponent))) <= maximumBits
    {
      hide BitLength, Canonical, Pow;
      if power % 2 == 0 {
        return Some(result);
      }
      id := MultiplyPowers(result, factor, factor, b, done, step, exponent, maximumBits);
    }

    /** Squares the factor while bits of the exponent are left; the result so far keeps its value. */
    method SquareStep(factor: nat, ghost result: nat, ghost b: int, ghost step: nat, power: nat, ghost exponent: nat,
                      maximumBits: nat)
      returns (id: Option<nat>)
      requires Valid() && result < |records| && factor < |records| && maximumBits > 0
      requires Of(factor) == Pow(b, step) && Abs(b) >= 2 && (power > 0 ==> step + step <= exponent)
      modifies this
      ensures Valid() && Extends(old(records), old(arena), records, arena) && Of(result) == old(Of(result))
      ensures id.None? ==> BitLength(Abs(Pow(b, exponent))) > maximumBits
      ensures id.Some? ==> id.value < |records| && (power > 0 ==> Of(id.value) == Pow(b, step + step))
    {
      hide BitLength, Canonical, Pow;
      if power == 0 {
        return Some(factor);
      }
      id := MultiplyPowers(factor, factor, result, b, step, step, exponent, maximumBits);
    }

    /** The loop state: result is b^done, the factor b^step, and b^exponent is b^done times (b^step)^power. */
    ghost predicate Going(result: nat, factor: nat, power: nat, done: nat, step: nat, b: int, exponent: nat, maximumBits: nat)
      reads this
    {
      && Valid() && StepsLeft(done, step, power, exponent) && Abs(b) >= 2 && maximumBits > 0
      && result < |records| && Of(result) == Pow(b, done)
      && (power > 0 ==> factor < |records| && Of(factor) == Pow(b, step))
      && (power == 0 ==> BitLength(Abs(Pow(b, exponent))) <= maximumBits)
    }

    /** One turn of the loop: the product and the square, unless one of them exceeds the bound. */
    method PowerRound(result: nat, factor: nat, power: nat, ghost done: nat, ghost step: nat, ghost b: int,
                      ghost exponent: nat, maximumBits: nat)
      returns (product: Option<nat>, square: Option<nat>, ghost doneNow: nat)
      requires power > 0 && Going(result, factor, power, done, step, b, exponent, maximumBits)
      modifies this
      ensures Valid() && Extends(old(records), old(arena), records, arena)
      ensures product.Some? && square.Some? ==>
                Going(product.value, square.value, power / 2, doneNow, step + step, b, exponent, maximumBits)
      ensures product.None? || square.None? ==> BitLength(Abs(Pow(b, exponent))) > maximumBits
    {
      hide BitLength, Canonical, StepsLeft, Pow, ValueOf;
      StepsHalve(done, step, power, exponent);
      doneNow := if power % 2 == 1 then done + step else done;
      product := OddStep(result, factor, b, done, step, power, exponent, maximumBits);
      square := None;
      if product.Some? {
        ghost var before, limbs := records, arena;
        square := SquareStep(factor, product.value, b, step, power / 2, exponent, maximumBits);
        ExtendsOn(old(records), old(arena), before, limbs, records, arena);
      }
    }

    /** Square and multiply on ids, bounded at every step. */
    method PowerLoop(one: nat, base: nat, exponent: nat, maximumBits: nat) returns (id: Option<nat>)
      requires Valid() && one < |records| && base < |records| && maximumBits > 0 && exponent > 0
      requires Of(one) == 1 && Abs(Of(base)) >= 2
      modifies this
      ensures Valid() && old(records) <= records && old(arena) <= arena
      ensures id.None? <==> BitLength(Abs(Pow(old(Of(base)), exponent))) > maximumBits
      ensures id.Some? ==> id.value < |records| && Of(id.value) == Pow(old(Of(base)), exponent)
    {
      ghost var b := Of(base);
      assert Pow(b, 1) == b * Pow(b, 0);
      StepsAtFirst(exponent);
      id := PowerRounds(one, base, exponent, b, exponent, maximumBits);
    }

    lemma Arrived(result: nat, factor: nat, done: nat, step: nat, b: int, exponent: nat, maximumBits: nat)
      requires Going(result, factor, 0, done, step, b, exponent, maximumBits)
      ensures Valid() && result < |records| && Of(result) == Pow(b, exponent)
      ensures BitLength(Abs(Pow(b, exponent))) <= maximumBits
    {
      NoStepsLeft(done, step, exponent);
    }

    method PowerRounds(one: nat, base: nat, exponent: nat, ghost b: int, ghost e: nat, maximumBits: nat) returns (id: Option<nat>)
      requires Going(one, base, exponent, 0, 1, b, e, maximumBits)
      modifies this
      ensures Valid() && Extends(old(records), old(arena), records, arena)
      ensures id.None? <==> BitLength(Abs(Pow(b, e))) > maximumBits
      ensures id.Some? ==> id.value < |records| && Of(id.value) == Pow(b, e)
    {
      hide Going, Extends, Canonical, BitLength, Pow, ValueOf;
      var result: nat, factor: nat, power: nat := one, base, exponent;
      ghost var done: nat, step: nat := 0, 1;
      ExtendsItself(records, arena);
      while power != 0
        invariant Going(result, factor, power, done, step, b, e, maximumBits)
        invariant Extends(old(records), old(arena), records, arena)
      {
        ghost var before, limbs := records, arena;
        var product, square, doneNow := PowerRound(result, factor, power, done, step, b, e, maximumBits);
        ExtendsOn(old(records), old(arena), before, limbs, records, arena);
        if product.None? || square.None? {
          return None;
        }
        result, factor, power := product.value, square.value, power / 2;
        done, step := doneNow, step + step;
      }
      Arrived(result, factor, done, step, b, e, maximumBits);
      return Some(result);
    }

    method IsOdd(id: nat) returns (odd: bool)
      requires Valid() && id < |records|
      ensures odd <==> Of(id) % 2 != 0
    {
      var r := records[id];
      var limbs := arena[r.first..r.first + r.count];
      OddLimbs(limbs);
      OddSigned(r.negative, limbs);
      return r.count > 0 && limbs[0] % 2 == 1;
    }
  }

  lemma UnsignedWidthByLimbs(negative: bool, limbs: seq<Limb>)
    requires Normal(limbs) && (negative ==> limbs != [])
    ensures Signed(negative, limbs) < 0 <==> negative
    ensures !negative ==> UnsignedWidth(Signed(negative, limbs)) == if limbs == [] then 1 else MagnitudeWidth(limbs)
  {
    SignOf(negative, limbs);
    WidthIsBitLength(limbs);
  }

  lemma SignOf(negative: bool, limbs: seq<Limb>)
    requires Normal(limbs) && (negative ==> limbs != [])
    ensures negative <==> Signed(negative, limbs) < 0
    ensures limbs == [] <==> Signed(negative, limbs) == 0
    ensures Abs(Signed(negative, limbs)) == Value(limbs)
  {
    if limbs != [] {
      NormalIsLarge(limbs);
    }
  }

  lemma LargerIsLonger(a: seq<Limb>, b: seq<Limb>)
    requires Normal(a) && Normal(b) && Value(a) >= Value(b)
    ensures |a| >= |b|
  {
    if |a| < |b| {
      ShorterIsSmaller(a, b);
    }
  }

  lemma SignedProduct(n: bool, a: seq<Limb>, m: bool, b: seq<Limb>)
    ensures Signed(n, a) * Signed(m, b) == if n != m then -(Value(a) * Value(b)) else Value(a) * Value(b)
    ensures Abs(Signed(n, a) * Signed(m, b)) == Value(a) * Value(b)
    ensures a == [] || b == [] ==> Signed(n, a) * Signed(m, b) == 0
  {
    assert Value([]) == 0;
    hide Value;
    NegatedProducts(Value(a), Value(b));
  }

  /** Everything stored stays where it is. */
  ghost predicate Extends(records: seq<Record>, arena: seq<Limb>, records': seq<Record>, arena': seq<Limb>) {
    records <= records' && arena <= arena'
  }

  lemma ExtendsItself(records: seq<Record>, arena: seq<Limb>)
    ensures Extends(records, arena, records, arena)
  {
  }

  lemma ExtendsOn(r: seq<Record>, a: seq<Limb>, r': seq<Record>, a': seq<Limb>, r'': seq<Record>, a'': seq<Limb>)
    requires Extends(r, a, r', a') && Extends(r', a', r'', a'')
    ensures Extends(r, a, r'', a'')
  {
  }

  /** b^done times (b^step)^power is b^exponent. */
  ghost predicate StepsLeft(done: nat, step: nat, power: nat, exponent: nat) {
    step >= 1 && done + step * power == exponent
  }

  lemma StepsAtFirst(exponent: nat)
    ensures StepsLeft(0, 1, exponent, exponent)
  {
  }

  lemma StepsHalve(done: nat, step: nat, power: nat, exponent: nat)
    requires power > 0 && StepsLeft(done, step, power, exponent)
    ensures power % 2 == 1 ==> done + step <= exponent && StepsLeft(done + step, step + step, power / 2, exponent)
    ensures power == 1 ==> done + step == exponent
    ensures power % 2 == 0 ==> StepsLeft(done, step + step, power / 2, exponent)
    ensures power / 2 > 0 ==> step + step <= exponent
  {
    StepsFit(done, step, power, exponent);
  }

  lemma NoStepsLeft(done: nat, step: nat, exponent: nat)
    requires StepsLeft(done, step, 0, exponent)
    ensures done == exponent
  {
  }

  lemma NegatedProducts(x: int, y: int)
    requires x >= 0 && y >= 0
    ensures (-x) * y == -(x * y) && x * (-y) == -(x * y) && (-x) * (-y) == x * y && x * y >= 0
    ensures x == 0 || y == 0 ==> x * y == 0
  {
    MulMonotone(0, x, y);
  }

  lemma SignedShift(n: bool, a: seq<Limb>, p: nat)
    ensures Signed(n, a) * p == if n then -(Value(a) * p) else Value(a) * p
    ensures Abs(Signed(n, a) * p) == Value(a) * p
  {
    MulMonotone(0, Value(a), p);
    assert (-(Value(a) as int)) * p == -(Value(a) * p);
  }

  lemma ProductSigned(n: bool, a: seq<Limb>, m: bool, b: seq<Limb>, product: seq<Limb>)
    requires Value(product) == Value(a) * Value(b)
    ensures Signed(n != m, product) == Signed(n, a) * Signed(m, b)
  {
    hide Value;
    NegatedProducts(Value(a), Value(b));
  }

  lemma TooManyLimbs(product: seq<Limb>, maximumBits: nat)
    requires Normal(product) && maximumBits > 0 && product != []
    requires |product| - 1 > (maximumBits - 1) / 32 || MagnitudeWidth(product) > maximumBits
    ensures MagnitudeWidth(product) > maximumBits
  {
  }

  /** magnitude_is_power_of_two: one limb set, with one bit. */
  method IsPowerOfTwo(limbs: seq<Limb>) returns (one: bool)
    requires Normal(limbs) && limbs != []
    ensures one <==> OneBit(Value(limbs))
  {
    var found := false;
    for i := 0 to |limbs|
      invariant found ==> Value(limbs[..i]) > 0 && OneBit(Value(limbs[..i]))
      invariant !found ==> Value(limbs[..i]) == 0
    {
      assert limbs[..i + 1] == limbs[..i] + [limbs[i]];
      ValueSnoc(limbs[..i], limbs[i]);
      ValueBelow(limbs[..i]);
      PlaceIsPow2(i);
      if limbs[i] != 0 {
        TopBitAlone(Value(limbs[..i]), limbs[i], 32 * i);
        if found || !OneBit(limbs[i]) {
          MoreAbove(limbs, i + 1);
          return false;
        }
        found := true;
      }
    }
    assert limbs[..|limbs|] == limbs;
    NormalIsLarge(limbs);
    return found;
  }

  /** A number with bits both below and at or above `shift` has a single bit only if one part is clear. */
  lemma TopBitAlone(low: nat, top: nat, shift: nat)
    requires low < Pow2(shift) && top > 0
    ensures low + top * Pow2(shift) > 0
    ensures OneBit(low + top * Pow2(shift)) <==> low == 0 && OneBit(top)
  {
    var whole, width := low + top * Pow2(shift), BitLength(top);
    WidthWithTop(low, top, shift);
    MulMonotone(1, top, Pow2(shift));
    OneBitIsPow2(whole);
    OneBitIsPow2(top);
    BitLengthBounds(top);
    Pow2Add(width - 1, shift);
    MulMonotone(Pow2(width - 1), top, Pow2(shift));
    if top > Pow2(width - 1) {
      MulMonotone(Pow2(width - 1) + 1, top, Pow2(shift));
      OneMore(Pow2(width - 1), Pow2(shift));
    }
  }

  /** Bits found below stay: what follows can only add more. */
  lemma {:induction false} MoreAbove(limbs: seq<Limb>, i: nat)
    requires i <= |limbs| && Value(limbs[..i]) > 0 && !OneBit(Value(limbs[..i]))
    ensures !OneBit(Value(limbs))
    decreases |limbs| - i
  {
    if i < |limbs| {
      assert limbs[..i + 1] == limbs[..i] + [limbs[i]];
      ValueSnoc(limbs[..i], limbs[i]);
      ValueBelow(limbs[..i]);
      PlaceIsPow2(i);
      if limbs[i] != 0 {
        TopBitAlone(Value(limbs[..i]), limbs[i], 32 * i);
      }
      MoreAbove(limbs, i + 1);
    } else {
      assert limbs[..i] == limbs;
    }
  }

  lemma SizeOfLimbs(limbs: seq<Limb>)
    requires Normal(limbs)
    ensures |limbs| <= 2 <==> Value(limbs) <= SIZE_MAX
  {
    assert Place(2) == SIZE_MAX + 1 by {
      assert Place(1) == BASE;
    }
    if |limbs| <= 2 {
      ValueBelow(limbs);
      PlaceMonotone(|limbs|, 2);
    } else {
      NormalIsLarge(limbs);
      PlaceMonotone(2, |limbs| - 1);
    }
  }

  lemma {:induction false} OddLimbs(limbs: seq<Limb>)
    ensures Value(limbs) % 2 == if limbs == [] then 0 else limbs[0] % 2
  {
    hide Place;
    if |limbs| == 1 {
      TwoLimbs(limbs[0], 0);
      assert limbs == [limbs[0]];
    } else if |limbs| > 1 {
      var last := |limbs| - 1;
      OddLimbs(limbs[..last]);
      EvenPlace(limbs[last], last);
      EvenSum(Value(limbs[..last]), limbs[last] * Place(last));
    }
  }

  lemma EvenSum(a: nat, b: nat)
    requires b % 2 == 0
    ensures (a + b) % 2 == a % 2
  {
  }

  lemma EvenPlace(digit: Limb, i: nat)
    requires i > 0
    ensures (digit * Place(i)) % 2 == 0
  {
    var half := digit * (0x8000_0000 * Place(i - 1));
    assert digit * Place(i) == 2 * half;
  }

  lemma OddSigned(negative: bool, limbs: seq<Limb>)
    ensures Signed(negative, limbs) % 2 == Value(limbs) % 2
  {
  }

  lemma TrivialPowers(base: int, exponent: nat)
    ensures exponent == 0 ==> Pow(base, exponent) == 1
    ensures base == 0 && exponent > 0 ==> Pow(base, exponent) == 0
    ensures base == 1 ==> Pow(base, exponent) == 1
    ensures base == -1 ==> Pow(base, exponent) == if exponent % 2 == 0 then 1 else -1
    ensures BitLength(0) == 0 && BitLength(1) == 1
  {
    if base == 1 || base == -1 {
      UnitPowers(base, exponent);
    } else if base == 0 && exponent > 0 {
      assert Pow(base, exponent) == 0 * Pow(base, exponent - 1);
    }
  }

  lemma HugeExponent(base: int, exponent: nat, maximumBits: nat)
    requires Abs(base) >= 2 && exponent > SIZE_MAX >= maximumBits
    ensures BitLength(Abs(Pow(base, exponent))) > maximumBits
  {
    PowAbs(base, exponent);
    PowerReachesTwo(Abs(base), exponent);
    Pow2Monotone(maximumBits, exponent);
    BitLengthExceeds(Abs(Pow(base, exponent)), maximumBits);
  }
}
