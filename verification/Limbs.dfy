/** Magnitudes as little-endian sequences of 32-bit limbs, and the schoolbook operations on them. */
module Limbs {
  import opened Numbers

  const BASE: nat := 0x1_0000_0000

  type Limb = x: int | 0 <= x < 0x1_0000_0000 witness 0

  /** A uint64_t intermediate: every sum or product below must fit. */
  type Word = x: int | 0 <= x < 0x1_0000_0000_0000_0000 witness 0

  /** Weight of limb `n`. */
  function Place(n: nat): (r: nat)
    ensures r >= 1
  {
    if n == 0 then 1 else BASE * Place(n - 1)
  }

  function Value(limbs: seq<Limb>): nat {
    if limbs == [] then 0
    else Value(limbs[..|limbs| - 1]) + limbs[|limbs| - 1] * Place(|limbs| - 1)
  }

  /** No leading zero limb. */
  predicate Normal(limbs: seq<Limb>) { limbs != [] ==> limbs[|limbs| - 1] != 0 }

  lemma ValueSnoc(limbs: seq<Limb>, limb: Limb)
    ensures Value(limbs + [limb]) == Value(limbs) + limb * Place(|limbs|)
  {
    assert (limbs + [limb])[..|limbs|] == limbs;
  }

  lemma {:induction false} ValueBelow(limbs: seq<Limb>)
    ensures Value(limbs) < Place(|limbs|)
  {
    if limbs != [] {
      var last := |limbs| - 1;
      ValueBelow(limbs[..last]);
      var top: int := limbs[last];
      MulMonotone(top + 1, BASE, Place(last));
      OneMore(top, Place(last));
    }
  }

  lemma OneMore(d: int, p: int)
    ensures (d + 1) * p == d * p + p
  {
  }

  lemma {:induction false} PlaceAdd(a: nat, b: nat)
    ensures Place(a + b) == Place(a) * Place(b)
  {
    if a > 0 {
      PlaceAdd(a - 1, b);
      assert Place(a + b) == BASE * Place(a - 1 + b);
      Associate(BASE, Place(a - 1), Place(b));
    }
  }

  lemma {:induction false} PlaceIsPow2(n: nat)
    ensures Place(n) == Pow2(32 * n)
  {
    if n > 0 {
      PlaceIsPow2(n - 1);
      Pow2Add(32, 32 * (n - 1));
      Pow2Of32();
    }
  }

  lemma Pow2Of32()
    ensures Pow2(32) == BASE
  {
    assert Pow2(8) == 256;
    Pow2Add(8, 8);
    Pow2Add(16, 16);
  }

  lemma {:induction false} ValueConcat(low: seq<Limb>, high: seq<Limb>)
    ensures Value(low + high) == Value(low) + Place(|low|) * Value(high)
  {
    if high == [] {
      assert low + high == low;
    } else {
      var last := |high| - 1;
      ValueConcat(low, high[..last]);
      assert (low + high)[..|low| + last] == low + high[..last];
      PlaceAdd(|low|, last);
      Distribute(Place(|low|), Value(high[..last]), high[last], Place(last));
    }
  }

  lemma Distribute(p: int, v: int, d: int, q: int)
    ensures p * (v + d * q) == p * v + d * (p * q)
  {
    assert d * (p * q) == p * (d * q);
  }

  lemma {:induction false} ZerosAreZero(limbs: seq<Limb>)
    requires forall i :: 0 <= i < |limbs| ==> limbs[i] == 0
    ensures Value(limbs) == 0
  {
    if limbs != [] {
      ZerosAreZero(limbs[..|limbs| - 1]);
    }
  }

  /** A zero magnitude has no non-zero limb; a normal one has no limbs at all. */
  lemma {:induction false} ZeroValue(limbs: seq<Limb>)
    ensures Value(limbs) == 0 <==> forall i :: 0 <= i < |limbs| ==> limbs[i] == 0
  {
    if limbs != [] {
      var last := |limbs| - 1;
      ZeroValue(limbs[..last]);
      if limbs[last] != 0 {
        MulMonotone(1, limbs[last], Place(last));
      } else {
        assert forall i :: 0 <= i < last ==> limbs[..last][i] == limbs[i];
      }
    }
  }

  lemma NormalIsLarge(limbs: seq<Limb>)
    requires Normal(limbs) && limbs != []
    ensures Value(limbs) >= Place(|limbs| - 1)
  {
    MulMonotone(1, limbs[|limbs| - 1], Place(|limbs| - 1));
  }

  /** Normal limbs are a canonical notation: equal values, equal limbs. */
  lemma {:induction false} NormalIsCanonical(a: seq<Limb>, b: seq<Limb>)
    requires Normal(a) && Normal(b) && Value(a) == Value(b)
    ensures a == b
  {
    SameCount(a, b);
    SameDigits(a, b);
  }

  lemma SameCount(a: seq<Limb>, b: seq<Limb>)
    requires Normal(a) && Normal(b) && Value(a) == Value(b)
    ensures |a| == |b|
  {
    if |a| < |b| {
      ShorterIsSmaller(a, b);
    } else if |b| < |a| {
      ShorterIsSmaller(b, a);
    }
  }

  lemma ShorterIsSmaller(a: seq<Limb>, b: seq<Limb>)
    requires Normal(b) && |a| < |b|
    ensures Value(a) < Value(b)
  {
    ValueBelow(a);
    NormalIsLarge(b);
    PlaceMonotone(|a|, |b| - 1);
  }

  lemma {:induction false} PlaceMonotone(a: nat, b: nat)
    requires a <= b
    ensures Place(a) <= Place(b)
  {
    if a < b {
      PlaceMonotone(a, b - 1);
    }
  }

  lemma {:induction false} SameDigits(a: seq<Limb>, b: seq<Limb>)
    requires |a| == |b| && Value(a) == Value(b)
    ensures a == b
  {
    if a != [] {
      var last := |a| - 1;
      ValueBelow(a[..last]);
      ValueBelow(b[..last]);
      TopDigit(Value(a[..last]), a[last], Value(b[..last]), b[last], Place(last));
      SameDigits(a[..last], b[..last]);
      assert a == a[..last] + [a[last]] && b == b[..last] + [b[last]];
    }
  }

  lemma TopDigit(low: nat, d: nat, low': nat, d': nat, p: nat)
    requires low < p && low' < p && low + d * p == low' + d' * p
    ensures d == d' && low == low'
  {
    if d < d' {
      MulMonotone(d + 1, d', p);
    } else if d' < d {
      MulMonotone(d' + 1, d, p);
    }
    assert (d + 1) * p == d * p + p && (d' + 1) * p == d' * p + p;
  }

  // ----- normalisation, comparison, width

  /** normalized_count. */
  method NormalizedCount(limbs: seq<Limb>) returns (count: nat)
    ensures count <= |limbs| && Normal(limbs[..count]) && Value(limbs[..count]) == Value(limbs)
  {
    count := |limbs|;
    assert limbs[..count] == limbs;
    while count > 0 && limbs[count - 1] == 0
      invariant count <= |limbs| && Value(limbs[..count]) == Value(limbs)
    {
      assert limbs[..count][..count - 1] == limbs[..count - 1];
      count := count - 1;
    }
  }

  /** magnitude_compare: the sign of the difference. */
  method MagnitudeCompare(left: seq<Limb>, right: seq<Limb>) returns (sign: int)
    requires Normal(left) && Normal(right)
    ensures sign == if Value(left) < Value(right) then -1 else if Value(left) > Value(right) then 1 else 0
  {
    if |left| != |right| {
      if |left| < |right| {
        ShorterIsSmaller(left, right);
        return -1;
      }
      ShorterIsSmaller(right, left);
      return 1;
    }
    var at := |left|;
    assert left[..at] == left && right[..at] == right;
    while at > 0
      invariant at <= |left| && left[at..] == right[at..]
    {
      at := at - 1;
      if left[at] != right[at] {
        DigitDecides(left, right, at);
        return if left[at] < right[at] then -1 else 1;
      }
    }
    return 0;
  }

  lemma DigitDecides(a: seq<Limb>, b: seq<Limb>, at: nat)
    requires |a| == |b| && at < |a| && a[at + 1..] == b[at + 1..] && a[at] != b[at]
    ensures a[at] < b[at] <==> Value(a) < Value(b)
    ensures Value(a) != Value(b)
  {
    if a[at] < b[at] {
      LowerDigit(a, b, at);
    } else {
      LowerDigit(b, a, at);
    }
  }

  lemma LowerDigit(a: seq<Limb>, b: seq<Limb>, at: nat)
    requires |a| == |b| && at < |a| && a[at + 1..] == b[at + 1..] && a[at] < b[at]
    ensures Value(a) < Value(b)
  {
    SplitAt(a, at);
    SplitAt(b, at);
    ValueBelow(a[..at]);
    var d: int := a[at];
    MulMonotone(d + 1, b[at], Place(at));
    OneMore(d, Place(at));
  }

  lemma SplitAt(a: seq<Limb>, at: nat)
    requires at < |a|
    ensures Value(a) == Value(a[..at]) + a[at] * Place(at) + Place(at + 1) * Value(a[at + 1..])
  {
    assert a == (a[..at] + [a[at]]) + a[at + 1..];
    ValueConcat(a[..at] + [a[at]], a[at + 1..]);
    ValueSnoc(a[..at], a[at]);
  }

  /** magnitude_width: the bit length. */
  function MagnitudeWidth(limbs: seq<Limb>): nat {
    if limbs == [] then 0 else (|limbs| - 1) * 32 + BitLength(limbs[|limbs| - 1])
  }

  lemma WidthIsBitLength(limbs: seq<Limb>)
    requires Normal(limbs)
    ensures MagnitudeWidth(limbs) == BitLength(Value(limbs))
  {
    if limbs != [] {
      var last := |limbs| - 1;
      ValueBelow(limbs[..last]);
      PlaceIsPow2(last);
      WidthWithTop(Value(limbs[..last]), limbs[last], 32 * last);
    }
  }

  lemma WidthWithTop(low: nat, top: nat, shift: nat)
    requires low < Pow2(shift) && top > 0
    ensures BitLength(low + top * Pow2(shift)) == shift + BitLength(top)
  {
    var width := BitLength(top);
    BitLengthBounds(top);
    Pow2Add(width, shift);
    Pow2Add(width - 1, shift);
    MulMonotone(top + 1, Pow2(width), Pow2(shift));
    MulMonotone(Pow2(width - 1), top, Pow2(shift));
    OneMore(top, Pow2(shift));
    BitLengthUnique(low + top * Pow2(shift), shift + width);
  }

  // ----- addition and subtraction

  function Digit(limbs: seq<Limb>, i: nat): Limb { if i < |limbs| then limbs[i] else 0 }

  function Low(limbs: seq<Limb>, i: nat): nat { if i <= |limbs| then Value(limbs[..i]) else Value(limbs) }

  lemma LowStep(limbs: seq<Limb>, i: nat)
    ensures Low(limbs, i + 1) == Low(limbs, i) + Digit(limbs, i) * Place(i)
    ensures Low(limbs, 0) == 0 && (i >= |limbs| ==> Low(limbs, i) == Value(limbs))
  {
    if i < |limbs| {
      assert limbs[..i + 1] == limbs[..i] + [limbs[i]];
      ValueSnoc(limbs[..i], limbs[i]);
    }
    assert limbs[..|limbs|] == limbs;
  }

  /** Splitting a column into its digit and what is carried to the next place. */
  lemma Carry(column: int, digit: int, carry: int, place: nat)
    requires column == carry * BASE + digit
    ensures digit * place + carry * (BASE * place) == column * place
  {
    assert column * place == (carry * BASE) * place + digit * place;
    Associate(carry, BASE, place);
  }

  /** magnitude_add. */
  method MagnitudeAdd(left: seq<Limb>, right: seq<Limb>) returns (sum: seq<Limb>)
    ensures Value(sum) == Value(left) + Value(right)
    ensures Normal(left) && Normal(right) ==> Normal(sum)
  {
    var count := if |left| > |right| then |left| else |right|;
    var result := new Limb[count + 1];
    var carry: Word := 0;
    for i := 0 to count
      invariant carry <= 1 && Low(left, i) + Low(right, i) == Value(result[..i]) + carry * Place(i)
    {
      var column: Word := carry + Digit(left, i) + Digit(right, i);
      AddColumn(left, right, result[..i], carry, column, column % BASE, column / BASE);
      result[i] := column % BASE;
      assert result[..i + 1] == result[..i] + [result[i]];
      carry := column / BASE;
    }
    LowStep(left, count);
    LowStep(right, count);
    if carry != 0 {
      result[count] := carry;
      assert result[..count + 1] == result[..count] + [result[count]];
      ValueSnoc(result[..count], result[count]);
      count := count + 1;
    }
    sum := result[..count];
    if Normal(left) && Normal(right) && carry == 0 {
      LongEnough(left, right, sum);
    }
  }

  /** One column of the addition. */
  lemma AddColumn(left: seq<Limb>, right: seq<Limb>, low: seq<Limb>, carry: int, column: int, limb: Limb, next: int)
    requires Low(left, |low|) + Low(right, |low|) == Value(low) + carry * Place(|low|)
    requires column == carry + Digit(left, |low|) + Digit(right, |low|) && column == limb + BASE * next
    ensures Low(left, |low| + 1) + Low(right, |low| + 1) == Value(low + [limb]) + next * Place(|low| + 1)
  {
    hide Value, Low, Digit;
    LowStep(left, |low|);
    LowStep(right, |low|);
    Carry(column, limb, next, Place(|low|));
    Columns(carry, Digit(left, |low|), Digit(right, |low|), Place(|low|));
    ValueSnoc(low, limb);
  }

  lemma Columns(a: int, b: int, c: int, p: int)
    ensures (a + b + c) * p == a * p + b * p + c * p
  {
  }

  lemma LongEnough(left: seq<Limb>, right: seq<Limb>, sum: seq<Limb>)
    requires Normal(left) && Normal(right) && |sum| == if |left| > |right| then |left| else |right|
    requires Value(sum) == Value(left) + Value(right)
    ensures Normal(sum)
  {
    if sum != [] {
      NormalIsLarge(if |left| > |right| then left else right);
      ValueBelow(sum[..|sum| - 1]);
    }
  }

  /** magnitude_subtract: borrows instead of carries; the difference is normal. */
  method MagnitudeSubtract(larger: seq<Limb>, smaller: seq<Limb>) returns (difference: seq<Limb>)
    requires |smaller| <= |larger| && Value(smaller) <= Value(larger)
    ensures Value(difference) == Value(larger) - Value(smaller) && Normal(difference)
  {
    var result := new Limb[|larger|];
    var borrow: Word := 0;
    for i := 0 to |larger|
      invariant borrow <= 1 && Low(larger, i) + borrow * Place(i) == Value(result[..i]) + Low(smaller, i)
    {
      var subtrahend: Word := Digit(smaller, i) + borrow;
      var value: Word := larger[i];
      result[i] := (value - subtrahend) % BASE;
      assert result[..i + 1] == result[..i] + [result[i]];
      SubtractStep(larger, smaller, result[..i], i, borrow, result[i]);
      borrow := if value < subtrahend then 1 else 0;
    }
    LowStep(larger, |larger|);
    LowStep(smaller, |larger|);
    ValueBelow(result[..]);
    assert result[..|larger|] == result[..];
    var count := NormalizedCount(result[..]);
    difference := result[..][..count];
  }

  /** One column of a subtraction. */
  lemma SubtractStep(larger: seq<Limb>, smaller: seq<Limb>, was: seq<Limb>, i: nat, borrow: nat, digit: Limb)
    requires i == |was| < |larger| && borrow <= 1 && digit == (larger[i] - (Digit(smaller, i) + borrow)) % BASE
    requires Low(larger, i) + borrow * Place(i) == Value(was) + Low(smaller, i)
    ensures Low(larger, i + 1) + (if larger[i] < Digit(smaller, i) + borrow then 1 else 0) * Place(i + 1)
         == Value(was + [digit]) + Low(smaller, i + 1)
  {
    LowStep(larger, i);
    LowStep(smaller, i);
    ValueSnoc(was, digit);
    var subtrahend := Digit(smaller, i) + borrow;
    Borrow(larger[i], subtrahend, digit, if larger[i] < subtrahend then 1 else 0, Place(i));
    Columns(Digit(smaller, i), borrow, 0, Place(i));
  }

  lemma Borrow(value: int, subtrahend: int, digit: int, borrow: int, place: nat)
    requires 0 <= value < BASE && 0 <= subtrahend <= BASE && 0 <= digit < BASE && digit == (value - subtrahend) % BASE
    requires borrow == if value < subtrahend then 1 else 0
    ensures value * place + borrow * (BASE * place) == digit * place + subtrahend * place
  {
    assert digit == value - subtrahend + borrow * BASE;
    assert digit * place == value * place - subtrahend * place + (borrow * BASE) * place;
    Associate(borrow, BASE, place);
  }

  // ----- multiplication

  /** A digit product with what is already there and the carry never exceeds a word. */
  function Accumulated(digit: Limb, factor: Limb, current: Limb, carry: Limb): (product: nat)
    ensures product < 0x1_0000_0000_0000_0000 && product / BASE < BASE
  {
    ProductFits(digit, factor, current, carry);
    digit * factor + current + carry
  }

  /** One inner pass of magnitude_multiply: adds digit * right at limb `at`. */
  method AddScaled(result: array<Limb>, at: nat, digit: Limb, right: seq<Limb>)
    requires at + |right| < result.Length && result[at + |right|] == 0
    modifies result
    ensures Value(result[..at + |right| + 1]) == old(Value(result[..at + |right|])) + digit * Value(right) * Place(at)
    ensures result[at + |right| + 1..] == old(result[at + |right| + 1..])
  {
    ghost var before := result[..];
    var carry: Limb := 0;
    RowStart(before, right, at, digit);
    hide RowTo, Value, Place, Accumulated;
    for j := 0 to |right|
      invariant RowTo(before, result[..], right, at, j, digit, carry)
    {
      ghost var now := result[..];
      RowStep(before, now, right, at, j, digit, carry);
      var product: Word := Accumulated(digit, right[j], result[at + j], carry);
      var limb: Limb := product % BASE;
      result[at + j] := limb;
      assert result[..] == now[at + j := limb];
      carry := product / BASE;
    }
    ghost var now := result[..];
    result[at + |right|] := carry;
    assert result[..] == now[at + |right| := carry];
    RowEnd(before, now, right, at, digit, carry);
  }

  /** After `j` columns of an inner pass; the limbs above are untouched. */
  ghost predicate RowTo(before: seq<Limb>, now: seq<Limb>, right: seq<Limb>, at: nat, j: nat, digit: Limb, carry: Limb) {
    && |now| == |before| && at + j <= |now| && j <= |right| && now[at + j..] == before[at + j..]
    && Partial(now[..at + j], before, right, at, j, digit, carry)
  }

  /** The low limbs and the carry make up what was there and the partial product. */
  ghost predicate Partial(low: seq<Limb>, before: seq<Limb>, right: seq<Limb>, at: nat, j: nat, digit: Limb, carry: nat)
    requires at + j <= |before| && j <= |right|
  {
    Value(low) + carry * Place(at + j) == Value(before[..at + j]) + digit * Value(right[..j]) * Place(at)
  }

  lemma RowStart(before: seq<Limb>, right: seq<Limb>, at: nat, digit: Limb)
    requires at <= |before|
    ensures RowTo(before, before, right, at, 0, digit, 0)
  {
    assert right[..0] == [];
    assert digit * Value([]) * Place(at) == 0;
  }

  lemma RowStep(before: seq<Limb>, now: seq<Limb>, right: seq<Limb>, at: nat, j: nat, digit: Limb, carry: Limb)
    requires RowTo(before, now, right, at, j, digit, carry) && j < |right| && at + |right| < |now|
    ensures var product := Accumulated(digit, right[j], now[at + j], carry);
            RowTo(before, now[at + j := (product % BASE) as Limb], right, at, j + 1, digit, product / BASE)
  {
    assert now[at + j] == now[at + j..][0] == before[at + j..][0] == before[at + j];
    var product: Word := Accumulated(digit, right[j], now[at + j], carry);
    var limb: Limb := product % BASE;
    var next := now[at + j := limb];
    assert next[..at + j + 1] == now[..at + j] + [product % BASE];
    assert next[at + j + 1..] == now[at + j..][1..];
    assert before[at + j + 1..] == before[at + j..][1..];
    ScaledStep(now[..at + j], before, right, at, j, digit, carry, product);
  }

  lemma RowEnd(before: seq<Limb>, now: seq<Limb>, right: seq<Limb>, at: nat, digit: Limb, carry: Limb)
    requires RowTo(before, now, right, at, |right|, digit, carry) && at + |right| < |now|
    ensures var end := now[at + |right| := carry];
            && Value(end[..at + |right| + 1]) == Value(before[..at + |right|]) + digit * Value(right) * Place(at)
            && end[at + |right| + 1..] == before[at + |right| + 1..]
  {
    hide Value, Place;
    var end := now[at + |right| := carry];
    assert end[..at + |right| + 1] == now[..at + |right|] + [carry];
    ValueSnoc(now[..at + |right|], carry);
    assert right[..|right|] == right;
    assert end[at + |right| + 1..] == now[at + |right|..][1..];
    assert before[at + |right| + 1..] == before[at + |right|..][1..];
  }

  /** One column of an inner pass. */
  lemma ScaledStep(was: seq<Limb>, before: seq<Limb>, right: seq<Limb>, at: nat, j: nat, digit: Limb, carry: nat, product: Word)
    requires |was| == at + j < |before| && j < |right| && Partial(was, before, right, at, j, digit, carry)
    requires product == digit * right[j] + before[at + j] + carry
    ensures Partial(was + [product % BASE], before, right, at, j + 1, digit, product / BASE)
  {
    assert Place(at + j + 1) == BASE * Place(at + j);
    hide Value, Place;
    ValueSnoc(was, product % BASE);
    assert before[..at + j + 1] == before[..at + j] + [before[at + j]];
    ValueSnoc(before[..at + j], before[at + j]);
    assert right[..j + 1] == right[..j] + [right[j]];
    ValueSnoc(right[..j], right[j]);
    Carry(product, product % BASE, product / BASE, Place(at + j));
    PlaceAdd(at, j);
    ScaledTotal(digit, right[j], before[at + j], carry, product, product % BASE, product / BASE, Value(was),
                Value(before[..at + j]), Value(right[..j]), Place(at), Place(j), Place(at + j), Place(at + j + 1));
  }

  lemma {:induction false} ScaledTotal(digit: int, r: int, current: int, carry: int, product: int, limb: int, next: int, was: int, before: int,
                    value: int, pAt: int, pJ: int, p: int, pNext: int)
    requires p == pAt * pJ && product == digit * r + current + carry
    requires product * p == limb * p + next * pNext && was + carry * p == before + digit * value * pAt
    ensures was + limb * p + next * pNext == before + current * p + digit * (value + r * pJ) * pAt
  {
    ScaledColumn(digit, r, current, carry, value, pAt, pJ, p);
  }

  lemma ProductFits(a: nat, b: nat, c: nat, d: nat)
    requires a < BASE && b < BASE && c < BASE && d < BASE
    ensures a * b + c + d < BASE * BASE
  {
    MulMonotoneBoth(a, BASE - 1, b, BASE - 1);
  }

  lemma {:induction false} ScaledColumn(digit: int, r: int, old_: int, carry: int, value: int, pAt: int, pJ: int, p: int)
    requires p == pAt * pJ
    ensures (digit * r + old_ + carry) * p == digit * r * p + old_ * p + carry * p
    ensures digit * (value + r * pJ) * pAt == digit * value * pAt + digit * r * p
  {
    calc {
      digit * (value + r * pJ) * pAt;
      (digit * value + digit * (r * pJ)) * pAt;
      digit * value * pAt + digit * (r * pJ) * pAt;
      { assert digit * (r * pJ) * pAt == digit * r * (pAt * pJ); }
      digit * value * pAt + digit * r * p;
    }
  }

  /** magnitude_multiply: schoolbook multiplication. */
  method MagnitudeMultiply(left: seq<Limb>, right: seq<Limb>) returns (product: seq<Limb>)
    ensures Value(product) == Value(left) * Value(right) && Normal(product)
  {
    if |left| == 0 || |right| == 0 {
      return [];
    }
    var result := new Limb[|left| + |right|](i => 0);
    ZerosAreZero(result[..|right|]);
    for i := 0 to |left|
      invariant RowsTo(result[..], left, right, i)
    {
      ghost var now := result[..];
      assert now[i + |right|] == now[i + |right|..][0];
      AddScaled(result, i, left[i], right);
      RowsStep(now, result[..], left, right, i);
    }
    assert left[..|left|] == left && result[..][..|left| + |right|] == result[..];
    var count := NormalizedCount(result[..]);
    product := result[..][..count];
  }

  predicate AllZero(limbs: seq<Limb>) { forall k :: 0 <= k < |limbs| ==> limbs[k] == 0 }

  /** After `i` rows the low limbs hold the partial product and the rest is clear. */
  ghost predicate RowsTo(now: seq<Limb>, left: seq<Limb>, right: seq<Limb>, i: nat) {
    && |now| == |left| + |right| && i <= |left| && AllZero(now[i + |right|..])
    && Value(now[..i + |right|]) == Value(left[..i]) * Value(right)
  }

  lemma RowsStep(now: seq<Limb>, next: seq<Limb>, left: seq<Limb>, right: seq<Limb>, i: nat)
    requires RowsTo(now, left, right, i) && i < |left| && |next| == |now|
    requires Value(next[..i + |right| + 1]) == Value(now[..i + |right|]) + left[i] * Value(right) * Place(i)
    requires next[i + |right| + 1..] == now[i + |right| + 1..]
    ensures RowsTo(next, left, right, i + 1)
  {
    hide Value, Place;
    assert now[i + |right| + 1..] == now[i + |right|..][1..];
    assert left[..i + 1] == left[..i] + [left[i]];
    ValueSnoc(left[..i], left[i]);
    ScaledRow(Value(left[..i]), left[i], Place(i), Value(right));
    assert next[..i + 1 + |right|] == next[..i + |right| + 1];
  }

  lemma ScaledRow(low: int, digit: int, place: int, right: int)
    ensures (low + digit * place) * right == low * right + digit * right * place
  {
    assert digit * place * right == digit * right * place;
  }
}
