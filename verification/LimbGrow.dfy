/** Operations that lengthen a magnitude: left shift, and the multiply-add of decimal parsing. */
module LimbGrow {
  import opened Numbers
  import opened Limbs
  import opened LimbShift

  // ----- decimal digits

  /** magnitude_multiply_small: in place, appending the last carry. */
  method MultiplySmall(limbs: seq<Limb>, multiplier: Limb) returns (product: seq<Limb>)
    ensures Value(product) == Value(limbs) * multiplier
  {
    product := limbs;
    var carry: Limb := 0;
    for i := 0 to |limbs|
      invariant ScaledTo(limbs, product, multiplier, i, carry)
    {
      ProductFits(product[i], multiplier, carry, 0);
      var wide: Word := product[i] * multiplier + carry;
      var limb: Limb := wide % BASE;
      ScaledNext(limbs, product, multiplier, i, carry, limb, wide / BASE);
      product := product[i := limb];
      carry := wide / BASE;
    }
    assert product[..|limbs|] == product && limbs[..|limbs|] == limbs;
    if carry != 0 {
      ValueSnoc(product, carry);
      product := product + [carry];
    }
  }

  ghost predicate ScaledTo(limbs: seq<Limb>, product: seq<Limb>, multiplier: Limb, i: nat, carry: Limb) {
    && |product| == |limbs| && i <= |limbs| && product[i..] == limbs[i..]
    && Value(product[..i]) + carry * Place(i) == Value(limbs[..i]) * multiplier
  }

  lemma ScaledNext(limbs: seq<Limb>, product: seq<Limb>, multiplier: Limb, i: nat, carry: Limb, limb: Limb, next: Limb)
    requires ScaledTo(limbs, product, multiplier, i, carry) && i < |limbs|
    requires product[i] * multiplier + carry == next * BASE + limb
    ensures ScaledTo(limbs, product[i := limb], multiplier, i + 1, next)
  {
    hide Value, Place;
    var now := product[i := limb];
    assert product[i] == product[i..][0] == limbs[i..][0] == limbs[i];
    assert now[..i + 1] == product[..i] + [limb] && limbs[..i + 1] == limbs[..i] + [limbs[i]];
    ValueSnoc(product[..i], limb);
    ValueSnoc(limbs[..i], limbs[i]);
    assert now[i + 1..] == product[i..][1..] && limbs[i + 1..] == limbs[i..][1..];
    Carry(product[i] * multiplier + carry, limb, next, Place(i));
    PlaceNext(i);
    SmallColumn(limbs[i], multiplier, carry, Value(limbs[..i]), Place(i));
  }

  lemma SmallColumn(d: int, m: int, c: int, v: int, p: int)
    ensures (d * m + c) * p == d * m * p + c * p
    ensures (v + d * p) * m == v * m + d * m * p
  {
    assert d * p * m == d * m * p;
  }

  /** magnitude_add_small: the carry stops early or is appended. */
  method AddSmall(limbs: seq<Limb>, addend: Limb) returns (sum: seq<Limb>)
    ensures Value(sum) == Value(limbs) + addend
  {
    sum := limbs;
    var carry: Limb := addend;
    var i := 0;
    while carry != 0 && i < |limbs|
      invariant AddedTo(limbs, sum, addend, i, carry)
    {
      var wide: Word := sum[i] + carry;
      var limb: Limb := wide % BASE;
      AddedNext(limbs, sum, addend, i, carry, limb, wide / BASE);
      sum := sum[i := limb];
      carry := wide / BASE;
      i := i + 1;
    }
    assert sum == sum[..i] + sum[i..] && limbs == limbs[..i] + limbs[i..];
    ValueConcat(sum[..i], sum[i..]);
    ValueConcat(limbs[..i], limbs[i..]);
    if carry != 0 {
      assert sum[..i] == sum && limbs[..i] == limbs;
      ValueSnoc(sum, carry);
      sum := sum + [carry];
    }
  }

  ghost predicate AddedTo(limbs: seq<Limb>, sum: seq<Limb>, addend: Limb, i: nat, carry: Limb) {
    && |sum| == |limbs| && i <= |limbs| && sum[i..] == limbs[i..]
    && Value(sum[..i]) + carry * Place(i) == Value(limbs[..i]) + addend
  }

  lemma AddedNext(limbs: seq<Limb>, sum: seq<Limb>, addend: Limb, i: nat, carry: Limb, limb: Limb, next: Limb)
    requires AddedTo(limbs, sum, addend, i, carry) && i < |limbs|
    requires sum[i] + carry == next * BASE + limb
    ensures AddedTo(limbs, sum[i := limb], addend, i + 1, next)
  {
    hide Value, Place;
    var now := sum[i := limb];
    assert sum[i] == sum[i..][0] == limbs[i..][0] == limbs[i];
    assert now[..i + 1] == sum[..i] + [limb] && limbs[..i + 1] == limbs[..i] + [limbs[i]];
    ValueSnoc(sum[..i], limb);
    ValueSnoc(limbs[..i], limbs[i]);
    assert now[i + 1..] == sum[i..][1..] && limbs[i + 1..] == limbs[i..][1..];
    Carry(sum[i] + carry, limb, next, Place(i));
    PlaceNext(i);
    Columns(sum[i], carry, 0, Place(i));
  }

  /** What a decimal spelling with `_` separators denotes, if it is one. */
  function Decimal(digits: string): (value: int)
    ensures value >= -1
  {
    if digits == "" then 0
    else
      var last := digits[|digits| - 1];
      var rest := Decimal(digits[..|digits| - 1]);
      if rest < 0 then -1
      else if last == '_' then rest
      else if '0' <= last <= '9' then 10 * rest + (last - '0') as int
      else -1
  }

  predicate HasDigit(digits: string) { exists i :: 0 <= i < |digits| && '0' <= digits[i] <= '9' }

  /** The loop of pigen_integer_intern_decimal. */
  method ParseDecimal(digits: string) returns (ok: bool, limbs: seq<Limb>)
    ensures ok <==> Decimal(digits) >= 0 && HasDigit(digits)
    ensures ok ==> Value(limbs) == Decimal(digits)
  {
    limbs := [];
    var any := false;
    for i := 0 to |digits|
      invariant Decimal(digits[..i]) == Value(limbs)
      invariant any <==> exists k :: 0 <= k < i && '0' <= digits[k] <= '9'
    {
      assert digits[..i + 1][..i] == digits[..i];
      if digits[i] == '_' {
        continue;
      }
      if digits[i] < '0' || digits[i] > '9' {
        BadDecimal(digits, i + 1);
        return false, [];
      }
      limbs := MultiplySmall(limbs, 10);
      limbs := AddSmall(limbs, (digits[i] - '0') as int);
      any := true;
    }
    assert digits[..|digits|] == digits;
    ok := any;
  }

  lemma {:induction false} BadDecimal(digits: string, i: nat)
    requires i <= |digits| && Decimal(digits[..i]) < 0
    ensures Decimal(digits) < 0
    decreases |digits| - i
  {
    if i < |digits| {
      assert digits[..i + 1][..i] == digits[..i];
      BadDecimal(digits, i + 1);
    } else {
      assert digits[..i] == digits;
    }
  }

  // ----- left shift

  /** The loop of pigen_integer_shift_left: whole limbs first, then bits spread over two limbs. */
  method ShiftLeft(source: seq<Limb>, amount: nat) returns (shifted: seq<Limb>)
    requires source != []
    ensures Value(shifted) == Value(source) * Pow2(amount)
  {
    hide Value, Place, Pow2, Spread;
    var words, bits := amount / 32, amount % 32;
    var factor := Pow2(bits);
    Pow2Add(bits, 32 - bits);
    Pow2Of32();
    var count := |source| + words + (if bits != 0 then 1 else 0);
    var result := new Limb[count](i => 0);
    SpreadStart(source, result[..], words, bits);
    for i := 0 to |source|
      invariant SpreadTo(source, result[..], words, bits, i)
    {
      ghost var now := result[..];
      FactorFits(source[i], factor, Pow2(32 - bits));
      var wide: Word := source[i] * factor;
      var low: Limb, high: Limb := wide % BASE, wide / BASE;
      SpreadNext(source, now, words, bits, i, low, high);
      result[i + words] := result[i + words] + low;
      if bits != 0 {
        result[i + words + 1] := result[i + words + 1] + high;
      }
      SpreadIs(now, result[..], words, bits, i, low, high);
    }
    SpreadEnd(source, result[..], words, bits);
    PlaceIsPow2(words);
    Pow2Add(bits, 32 * words);
    Associate(Value(source), factor, Place(words));
    shifted := result[..];
  }

  lemma SpreadStart(source: seq<Limb>, now: seq<Limb>, words: nat, bits: nat)
    requires bits < 32 && |now| == |source| + words + (if bits != 0 then 1 else 0)
    requires forall k :: 0 <= k < |now| ==> now[k] == 0
    ensures SpreadTo(source, now, words, bits, 0)
  {
    ZerosAreZero(now[..words]);
    assert 0 * Pow2(bits) * Place(words) == 0;
  }

  lemma SpreadIs(now: seq<Limb>, next: seq<Limb>, words: nat, bits: nat, i: nat, low: Limb, high: Limb)
    requires SpreadFits(now, words, bits, i, low, high) && |next| == |now|
    requires forall k :: 0 <= k < |now| ==> next[k] == if k == i + words then now[k] + low
                                                       else if bits != 0 && k == i + words + 1 then now[k] + high else now[k]
    ensures next == Spread(now, words, bits, i, low, high)
  {
  }

  lemma FactorFits(limb: nat, factor: nat, rest: nat)
    requires limb < BASE && factor * rest == BASE && rest >= 1 && factor >= 1
    ensures limb * factor < BASE * BASE && factor <= BASE
    ensures limb * factor / BASE < factor
  {
    MulMonotone(1, rest, factor);
    assert rest * factor == BASE;
    MulMonotoneBoth(limb, BASE - 1, factor, BASE);
    MulMonotone(limb, BASE - 1, factor);
    assert (BASE - 1) * factor == BASE * factor - factor;
    QuotientBelow(limb * factor, BASE, factor);
  }

  /** After `i` limbs; the next limb holds only the bits spilled from the previous one. */
  ghost predicate SpreadTo(source: seq<Limb>, now: seq<Limb>, words: nat, bits: nat, i: nat) {
    && bits < 32 && |now| == |source| + words + (if bits != 0 then 1 else 0) && i <= |source|
    && Digit(now, i + words) < Pow2(bits)
    && (forall k :: i + words < k < |now| ==> now[k] == 0)
    && Value(now[..i + words]) + Digit(now, i + words) * Place(i + words) == Value(source[..i]) * Pow2(bits) * Place(words)
  }

  predicate SpreadFits(now: seq<Limb>, words: nat, bits: nat, i: nat, low: Limb, high: Limb) {
    && i + words < |now| && now[i + words] + low < BASE
    && (bits != 0 ==> i + words + 1 < |now| && now[i + words + 1] + high < BASE)
  }

  function Spread(now: seq<Limb>, words: nat, bits: nat, i: nat, low: Limb, high: Limb): seq<Limb>
    requires SpreadFits(now, words, bits, i, low, high)
  {
    var first := now[i + words := now[i + words] + low];
    if bits != 0 then first[i + words + 1 := first[i + words + 1] + high] else first
  }

  lemma SpreadNext(source: seq<Limb>, now: seq<Limb>, words: nat, bits: nat, i: nat, low: Limb, high: Limb)
    requires SpreadTo(source, now, words, bits, i) && i < |source|
    requires source[i] * Pow2(bits) == high * BASE + low
    ensures SpreadFits(now, words, bits, i, low, high)
    ensures SpreadTo(source, Spread(now, words, bits, i, low, high), words, bits, i + 1)
  {
    hide Value, Place;
    var factor, rest, at := Pow2(bits), Pow2(32 - bits), i + words;
    Pow2Add(bits, 32 - bits);
    Pow2Of32();
    LowRoom(source[i], factor, rest, low, high, now[at]);
    var next := Spread(now, words, bits, i, low, high);
    assert next[..at] == now[..at];
    assert next[..at + 1] == now[..at] + [next[at]];
    ValueSnoc(now[..at], next[at]);
    assert source[..i + 1] == source[..i] + [source[i]];
    ValueSnoc(source[..i], source[i]);
    assert Digit(next, at + 1) == high by {
      if bits == 0 {
        assert Pow2(0) == 1;
      }
    }
    PlaceAdd(i, words);
    SpreadColumn(Value(now[..at]), now[at], low, high, Value(source[..i]), source[i], factor, Place(i), Place(words), Place(at));
    PlaceNext(at);
  }

  /** The spilled bits lie below the shifted limb's own bits. */
  lemma LowRoom(limb: Limb, factor: nat, rest: nat, low: Limb, high: Limb, spill: nat)
    requires factor * rest == BASE && rest >= 1 && factor >= 1 && limb * factor == high * BASE + low && spill < factor
    ensures spill + low < BASE && high < factor
    ensures factor == 1 ==> high == 0
  {
    FactorFits(limb, factor, rest);
    DivisionUnique(limb * factor, BASE, high, low);
    var q := limb % rest;
    assert limb == (limb / rest) * rest + q;
    assert limb * factor == (limb / rest) * (rest * factor) + q * factor;
    MulMonotone(q, rest - 1, factor);
    assert (rest - 1) * factor == rest * factor - factor;
    DivisionUnique(limb * factor, BASE, limb / rest, q * factor);
  }

  lemma {:induction false} SpreadColumn(v: int, spill: int, low: int, high: int, s: int, limb: int, f: int, pi: int, pw: int, p: int)
    requires v + spill * p == s * f * pw && limb * f == high * BASE + low && p == pi * pw
    ensures v + (spill + low) * p + high * (BASE * p) == (s + limb * pi) * f * pw
  {
    assert (spill + low) * p == spill * p + low * p;
    assert high * (BASE * p) == high * BASE * p;
    assert high * BASE * p + low * p == limb * f * p;
    assert limb * f * p == limb * pi * f * pw by {
      assert limb * f * (pi * pw) == limb * pi * (f * pw);
    }
    assert (s + limb * pi) * f * pw == s * f * pw + limb * pi * f * pw by {
      assert (s + limb * pi) * f == s * f + limb * pi * f;
    }
  }

  lemma SpreadEnd(source: seq<Limb>, now: seq<Limb>, words: nat, bits: nat)
    requires SpreadTo(source, now, words, bits, |source|)
    ensures Value(now) == Value(source) * Pow2(bits) * Place(words)
  {
    hide Place, Value;
    var at := |source| + words;
    assert source[..|source|] == source;
    if bits != 0 {
      assert now == now[..at] + [now[at]];
      ValueSnoc(now[..at], now[at]);
    } else {
      assert now[..at] == now;
    }
  }
}
