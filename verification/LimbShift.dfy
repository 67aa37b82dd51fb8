/** Shifting and rounding magnitudes. */
module LimbShift {
  import opened Numbers
  import opened Limbs

  /** Division by 2^amount, rounded down or up. */
  function ShiftedDown(value: nat, amount: nat, roundUp: bool): nat {
    value / Pow2(amount) + if roundUp && value % Pow2(amount) != 0 then 1 else 0
  }

  lemma DivisionUnique(value: nat, divisor: nat, quotient: nat, rest: nat)
    requires divisor > 0 && rest < divisor && value == quotient * divisor + rest
    ensures value / divisor == quotient && value % divisor == rest
  {
    var q, r := value / divisor, value % divisor;
    assert value == q * divisor + r;
    if q < quotient {
      MulMonotone(q + 1, quotient, divisor);
      OneMore(q, divisor);
    } else if q > quotient {
      MulMonotone(quotient + 1, q, divisor);
      OneMore(quotient, divisor);
    }
  }

  /** Limb `i` after shifting the limbs down by fewer than 32 bits. */
  function ShiftDigit(limbs: seq<Limb>, i: nat, divisor: nat): Limb
    requires i < |limbs| && divisor > 0
  {
    ((limbs[i] + BASE * Digit(limbs, i + 1)) / divisor) % BASE
  }

  function ShiftDigits(limbs: seq<Limb>, divisor: nat, count: nat): (digits: seq<Limb>)
    requires divisor > 0 && count <= |limbs|
    ensures |digits| == count
  {
    seq(count, i requires 0 <= i < count => ShiftDigit(limbs, i, divisor))
  }

  lemma QuotientBelow(low: nat, d: nat, m: nat)
    requires d > 0 && low < d * m
    ensures low / d < m
  {
    var q := low / d;
    assert low == q * d + low % d;
    if q >= m {
      MulMonotone(m, q, d);
    }
  }

  lemma JoinBelow(q: nat, k: nat, d: nat, m: nat)
    requires q < m && k < d
    ensures q + m * k < d * m
  {
    MulMonotone(k, d - 1, m);
    assert (d - 1) * m == d * m - m;
  }

  /** A limb takes its upper bits from itself and its missing bits from the limb above. */
  lemma DigitParts(low: nat, high: nat, bits: nat)
    requires low < BASE && high < BASE && bits < 32
    ensures ((low + BASE * high) / Pow2(bits)) % BASE * Pow2(bits) == low - low % Pow2(bits) + BASE * (high % Pow2(bits))
  {
    Pow2Add(bits, 32 - bits);
    Pow2Of32();
    DigitPartsOf(low, high, Pow2(bits), Pow2(32 - bits));
  }

  lemma DigitPartsOf(low: nat, high: nat, d: nat, m: nat)
    requires low < BASE && d > 0 && d * m == BASE
    ensures ((low + BASE * high) / d) % BASE * d == low - low % d + BASE * (high % d)
  {
    QuotientBelow(low, d, m);
    DivisionSplits(low, d);
    DivisionSplits(high, d);
    DigitPartsJoin(low, high, low / d, low % d, high / d, high % d, d, m);
  }

  lemma DivisionSplits(x: nat, d: nat)
    requires d > 0
    ensures x == (x / d) * d + x % d && 0 <= x % d < d && x / d >= 0
  {
  }

  lemma DigitPartsJoin(low: nat, high: nat, q: nat, r: nat, h: nat, k: nat, d: nat, m: nat)
    requires q < m && r < d && k < d && d * m == BASE && low == q * d + r && high == h * d + k
    ensures ((low + BASE * high) / d) % BASE * d == low - r + BASE * k
  {
    var quotient := q + m * k + BASE * h;
    JoinBelow(q, k, d, m);
    DigitQuotient(q, r, h, k, d, m);
    assert low + BASE * high == quotient * d + r;
    DivisionUnique(low + BASE * high, d, quotient, r);
    DivisionUnique(quotient, BASE, h, q + m * k);
    TimesDivisor(q, k, d, m);
  }

  lemma TimesDivisor(q: int, k: int, d: int, m: int)
    requires d * m == BASE
    ensures (q + m * k) * d == q * d + BASE * k
  {
    assert (m * k) * d == (d * m) * k;
  }

  lemma DigitQuotient(q: int, r: int, h: int, k: int, d: int, m: int)
    requires d * m == BASE
    ensures q * d + r + BASE * (h * d + k) == (q + m * k + BASE * h) * d + r
  {
    TimesDivisor(q, k, d, m);
    assert (q + m * k + BASE * h) * d == (q + m * k) * d + BASE * h * d;
    assert BASE * h * d == BASE * (h * d);
  }

  /** The shifted digits spell the quotient. */
  lemma {:induction false} ShiftDigitsValue(limbs: seq<Limb>, bits: nat, count: nat)
    requires bits < 32 && count <= |limbs|
    ensures Value(ShiftDigits(limbs, Pow2(bits), count)) * Pow2(bits) + Digit(limbs, 0) % Pow2(bits)
         == Value(limbs[..count]) + (Digit(limbs, count) % Pow2(bits)) * Place(count)
  {
    if count > 0 {
      var d, last := Pow2(bits), count - 1;
      ShiftDigitsValue(limbs, bits, last);
      var digit := ShiftDigit(limbs, last, d);
      assert ShiftDigits(limbs, d, count) == ShiftDigits(limbs, d, last) + [digit];
      ValueSnoc(ShiftDigits(limbs, d, last), digit);
      assert limbs[..count] == limbs[..last] + [limbs[last]];
      ValueSnoc(limbs[..last], limbs[last]);
      DigitParts(limbs[last], Digit(limbs, count), bits);
      ShiftColumn(Value(ShiftDigits(limbs, d, last)), digit, d, Place(last), limbs[last], limbs[last] % d, Digit(limbs, count) % d);
    }
  }

  lemma ShiftColumn(value: int, digit: int, d: int, place: int, limb: int, rest: int, next: int)
    requires digit * d == limb - rest + BASE * next
    ensures (value + digit * place) * d == value * d + limb * place - rest * place + next * (BASE * place)
  {
    calc {
      (value + digit * place) * d;
      value * d + digit * place * d;
      { assert digit * place * d == (digit * d) * place; }
      value * d + (limb - rest + BASE * next) * place;
      { assert BASE * next * place == next * (BASE * place); }
      value * d + limb * place - rest * place + next * (BASE * place);
    }
  }

  lemma ShiftDigitsWhole(kept: seq<Limb>, bits: nat)
    requires bits < 32 && kept != []
    ensures Value(kept) == Value(ShiftDigits(kept, Pow2(bits), |kept|)) * Pow2(bits) + kept[0] % Pow2(bits)
  {
    hide Value, Place, Pow2, ShiftDigits;
    ShiftDigitsValue(kept, bits, |kept|);
    assert kept[..|kept|] == kept;
    NothingLeft(Pow2(bits), Place(|kept|));
  }

  lemma NothingLeft(d: nat, p: nat)
    requires d > 0
    ensures (0 % d) * p == 0
  {
    DivisionUnique(0, d, 0, 0);
  }

  /** Dropping whole limbs and then bits divides by the power of two; what is dropped is the remainder. */
  lemma ShiftValue(limbs: seq<Limb>, amount: nat)
    requires amount / 32 < |limbs|
    ensures var kept, bits := limbs[amount / 32..], amount % 32;
            && Value(ShiftDigits(kept, Pow2(bits), |kept|)) == Value(limbs) / Pow2(amount)
            && (Value(limbs) % Pow2(amount) != 0 <==> Value(limbs[..amount / 32]) != 0 || limbs[amount / 32] % Pow2(bits) != 0)
  {
    hide Value, Place, Pow2, ShiftDigits;
    var words, bits := amount / 32, amount % 32;
    var kept := limbs[words..];
    ShiftDigitsWhole(kept, bits);
    assert limbs == limbs[..words] + kept;
    ValueConcat(limbs[..words], kept);
    ValueBelow(limbs[..words]);
    PlaceIsPow2(words);
    Pow2Add(32 * words, bits);
    ShiftParts(Value(limbs), Value(limbs[..words]), Place(words), Value(ShiftDigits(kept, Pow2(bits), |kept|)), Pow2(bits),
               kept[0] % Pow2(bits));
  }

  lemma ShiftParts(value: nat, low: nat, p: nat, quotient: nat, d: nat, rest: nat)
    requires value == low + p * (quotient * d + rest) && low < p && rest < d
    ensures p * d > 0 && value / (p * d) == quotient
    ensures value % (p * d) != 0 <==> low != 0 || rest != 0
  {
    MulMonotoneBoth(1, p, 1, d);
    assert p * (quotient * d + rest) == quotient * (p * d) + p * rest;
    MulMonotone(rest, d - 1, p);
    assert p * (d - 1) == p * d - p;
    DivisionUnique(value, p * d, quotient, p * rest + low);
    if rest > 0 {
      MulMonotone(1, rest, p);
    }
  }

  /** Everything is dropped. */
  lemma ShiftAway(limbs: seq<Limb>, amount: nat)
    requires amount / 32 >= |limbs|
    ensures Value(limbs) / Pow2(amount) == 0 && Value(limbs) % Pow2(amount) == Value(limbs)
  {
    ValueBelow(limbs);
    PlaceIsPow2(|limbs|);
    Pow2Monotone(32 * |limbs|, amount);
    DivisionUnique(Value(limbs), Pow2(amount), 0, Value(limbs));
  }

  /** Whether any of the first `count` limbs is set. */
  method AnySet(limbs: seq<Limb>, count: nat) returns (any: bool)
    requires count <= |limbs|
    ensures any <==> Value(limbs[..count]) != 0
  {
    any := false;
    for i := 0 to count
      invariant any <==> exists k :: 0 <= k < i && limbs[k] != 0
    {
      any := any || limbs[i] != 0;
    }
    ZeroValue(limbs[..count]);
    assert forall k :: 0 <= k < count ==> limbs[..count][k] == limbs[k];
  }

  /** After the carry of an increment has passed the first `i` limbs. */
  ghost predicate RippleTo(before: seq<Limb>, now: seq<Limb>, i: nat, carry: Limb) {
    && |now| == |before| && i <= |now| && carry <= 1 && now[i..] == before[i..]
    && Value(now[..i]) + carry * Place(i) == Value(before[..i]) + 1
    && (carry == 1 ==> AllZero(now[..i]))
    && (carry == 0 && Normal(before) ==> Normal(now))
  }

  lemma RippleStep(before: seq<Limb>, now: seq<Limb>, i: nat, limb: Limb, carry: Limb)
    requires RippleTo(before, now, i, 1) && i < |now|
    requires limb == (now[i] + 1) % BASE && carry == (now[i] + 1) / BASE
    ensures RippleTo(before, now[i := limb], i + 1, carry)
  {
    hide Place, Value;
    var next := now[i := limb];
    assert now[i] == now[i..][0] == before[i..][0] == before[i];
    assert next[..i + 1] == now[..i] + [limb];
    ValueSnoc(now[..i], limb);
    assert before[..i + 1] == before[..i] + [before[i]];
    ValueSnoc(before[..i], before[i]);
    var digit: int := now[i];
    Carry(digit + 1, limb, carry, Place(i));
    OneMore(digit, Place(i));
    PlaceNext(i);
    assert next[i + 1..] == now[i..][1..] && before[i + 1..] == before[i..][1..];
    if carry == 0 && Normal(before) && i + 1 < |now| {
      assert next[|next| - 1] == next[i + 1..][|next| - 2 - i] == before[i + 1..][|next| - 2 - i] == before[|next| - 1];
    }
  }

  lemma PlaceNext(i: nat)
    ensures Place(i + 1) == BASE * Place(i)
  {
  }

  /** A carry that stops leaves the limbs above alone; a carry that passes them all left zeros behind. */
  lemma RippleEnd(before: seq<Limb>, now: seq<Limb>, i: nat, carry: Limb)
    requires RippleTo(before, now, i, carry) && (carry == 0 || i == |now|)
    ensures carry == 0 ==> Value(now) == Value(before) + 1
    ensures carry == 1 ==> Value(now) == 0 && Value(before) + 1 == Place(|before|) && Value(now + [carry]) == Value(before) + 1
  {
    hide Place, Value;
    assert now == now[..i] + now[i..] && before == before[..i] + before[i..];
    ValueConcat(now[..i], now[i..]);
    ValueConcat(before[..i], before[i..]);
    if carry == 1 {
      assert now[..i] == now && before[..i] == before;
      ZerosAreZero(now);
      ValueSnoc(now, carry);
    }
  }

  /** Adding one in place; a carry out of the last limb takes a new limb. */
  method Increment(limbs: array<Limb>, count: nat) returns (newCount: nat)
    requires count <= limbs.Length && (count == limbs.Length ==> Value(limbs[..count]) + 1 < Place(count))
    modifies limbs
    ensures count <= newCount <= limbs.Length && Value(limbs[..newCount]) == old(Value(limbs[..count])) + 1
    ensures old(Normal(limbs[..count])) ==> Normal(limbs[..newCount])
  {
    ghost var before := limbs[..count];
    var carry: Limb := 1;
    var i := 0;
    while carry != 0 && i < count
      invariant i <= count && RippleTo(before, limbs[..count], i, carry)
    {
      var sum: Word := limbs[i] + carry;
      ghost var now := limbs[..count];
      var limb: Limb := sum % BASE;
      RippleStep(before, now, i, limb, sum / BASE);
      limbs[i] := limb;
      assert limbs[..count] == now[i := limb];
      carry := sum / BASE;
      i := i + 1;
    }
    RippleEnd(before, limbs[..count], i, carry);
    newCount := count;
    if carry != 0 {
      ghost var now := limbs[..count];
      limbs[count] := carry;
      assert limbs[..count + 1] == now + [carry];
      newCount := count + 1;
    }
  }

  /** Whether any of the bits to be shifted out is set. */
  method Discards(limbs: array<Limb>, count: nat, amount: nat) returns (discarded: bool)
    requires count <= limbs.Length
    ensures discarded <==> Value(limbs[..count]) % Pow2(amount) != 0
  {
    var words, bits := amount / 32, amount % 32;
    ghost var before := limbs[..count];
    discarded := AnySet(limbs[..], if words < count then words else count);
    if bits != 0 && words < count {
      discarded := discarded || limbs[words] % Pow2(bits) != 0;
    }
    if words >= count {
      ShiftAway(before, amount);
      assert limbs[..][..count] == before;
    } else {
      ShiftValue(before, amount);
      assert limbs[..][..words] == before[..words];
    }
  }

  /** Moves the kept limbs and bits down and drops leading zeros. */
  method DropBits(limbs: array<Limb>, count: nat, amount: nat) returns (newCount: nat)
    requires count <= limbs.Length
    modifies limbs
    ensures newCount <= count && Normal(limbs[..newCount])
    ensures Value(limbs[..newCount]) == old(Value(limbs[..count])) / Pow2(amount)
  {
    var words, bits := amount / 32, amount % 32;
    ghost var before := limbs[..count];
    if words >= count {
      ShiftAway(before, amount);
      newCount := 0;
    } else {
      ShiftValue(before, amount);
      MoveDown(limbs, count, words, bits);
      newCount := NormalizedCount(limbs[..count - words]);
      assert limbs[..count - words][..newCount] == limbs[..newCount];
    }
  }

  /** magnitude_shift_right: in place, rounding down or up; the buffer is always large enough. */
  method ShiftRight(limbs: array<Limb>, count: nat, amount: nat, roundUp: bool) returns (newCount: nat)
    requires count <= limbs.Length
    modifies limbs
    ensures newCount <= limbs.Length && Normal(limbs[..newCount])
    ensures Value(limbs[..newCount]) == ShiftedDown(old(Value(limbs[..count])), amount, roundUp)
  {
    ghost var before := limbs[..count];
    var discarded := Discards(limbs, count, amount);
    newCount := DropBits(limbs, count, amount);
    if roundUp && discarded {
      RoomToRound(before, amount, newCount, Value(limbs[..newCount]));
      newCount := Increment(limbs, newCount);
    }
  }

  /** The limbs from `words` on move to the front, shifted by `bits`. */
  method MoveDown(limbs: array<Limb>, count: nat, words: nat, bits: nat)
    requires words < count <= limbs.Length && bits < 32
    modifies limbs
    ensures limbs[..count - words] == old(ShiftDigits(limbs[words..count], Pow2(bits), count - words))
  {
    ghost var kept := limbs[words..count];
    var divisor := Pow2(bits);
    for i := 0 to count - words
      invariant limbs[..i] == ShiftDigits(kept, divisor, i)
      invariant forall k :: i + words <= k < count ==> limbs[k] == kept[k - words]
    {
      var value: Word := limbs[i + words];
      if bits != 0 && i + words + 1 < count {
        value := value + BASE * limbs[i + words + 1];
      }
      assert bits == 0 ==> (kept[i] + BASE * Digit(kept, i + 1)) % BASE == kept[i];
      limbs[i] := (value / divisor) % BASE;
      assert limbs[..i + 1] == limbs[..i] + [limbs[i]];
      assert ShiftDigits(kept, divisor, i + 1) == ShiftDigits(kept, divisor, i) + [ShiftDigit(kept, i, divisor)];
    }
  }

  /** Rounding up never needs more limbs than the number had before the shift. */
  lemma RoomToRound(before: seq<Limb>, amount: nat, newCount: nat, shifted: nat)
    requires Value(before) % Pow2(amount) != 0 && shifted == Value(before) / Pow2(amount)
    ensures |before| > 0
    ensures newCount == |before| ==> shifted + 1 < Place(newCount)
  {
    assert amount > 0 && before != [];
    ValueBelow(before);
    Pow2Monotone(1, amount);
    HalfAtMost(Value(before), Pow2(amount));
    PlaceMonotone(1, |before|);
  }

  lemma HalfAtMost(value: nat, divisor: nat)
    requires divisor >= 2
    ensures 2 * (value / divisor) <= value
  {
    MulMonotone(2, divisor, value / divisor);
  }
}
