/** Path words of a routed fabric: fixed-width words read least significant bit first. */
module FabricWords {

  import opened Numbers

  /** The `width` low bits of `value`, least significant first. */
  function Bits(value: nat, width: nat): (bits: seq<bool>)
    ensures |bits| == width
  {
    if width == 0 then [] else [value % 2 == 1] + Bits(value / 2, width - 1)
  }

  function FromBits(bits: seq<bool>): nat
  {
    if bits == [] then 0 else (if bits[0] then 1 else 0) + 2 * FromBits(bits[1..])
  }

  /** `bits` rotated towards the least significant end by `count` places. */
  function Rotated(bits: seq<bool>, count: nat): (r: seq<bool>)
    requires count <= |bits|
    ensures |r| == |bits|
  {
    bits[count..] + bits[..count]
  }

  /** One hop: the consumed turn bit re-enters at the top of the word. */
  function ForwardWord(word: nat, width: nat): nat
    requires width > 0
  {
    word / 2 + (if word % 2 == 1 then Pow2(width - 1) else 0)
  }

  /** One hop undone: the top bit returns to the bottom. */
  function BackwardWord(word: nat, width: nat): nat
    requires width > 0
  {
    (word % Pow2(width - 1)) * 2 + (word / Pow2(width - 1)) % 2
  }

  lemma {:induction false} BitsAreFaithful(bits: seq<bool>)
    ensures FromBits(bits) < Pow2(|bits|)
    ensures Bits(FromBits(bits), |bits|) == bits
  {
    if bits != [] {
      BitsAreFaithful(bits[1..]);
      assert bits == [bits[0]] + bits[1..];
    }
  }

  /** Words below 2^width are determined by their bits. */
  lemma {:induction false} WordsAreFaithful(value: nat, width: nat)
    requires value < Pow2(width)
    ensures FromBits(Bits(value, width)) == value
  {
    if width > 0 {
      WordsAreFaithful(value / 2, width - 1);
      var bits := Bits(value, width);
      assert bits[1..] == Bits(value / 2, width - 1);
    }
  }

  lemma {:induction false} FromBitsAppend(bits: seq<bool>, top: bool)
    ensures FromBits(bits + [top]) == FromBits(bits) + (if top then Pow2(|bits|) else 0)
  {
    if bits == [] {
      assert bits + [top] == [top];
      assert [top][1..] == [];
    } else {
      assert (bits + [top])[1..] == bits[1..] + [top];
      FromBitsAppend(bits[1..], top);
    }
  }

  /** The emitted forward_packet arithmetic is a rotation by one place. */
  lemma ForwardRotates(word: nat, width: nat)
    requires width > 0 && word < Pow2(width)
    ensures ForwardWord(word, width) < Pow2(width)
    ensures Bits(ForwardWord(word, width), width) == Rotated(Bits(word, width), 1)
  {
    var bits := Bits(word, width);
    var rest := bits[1..];
    assert rest == Bits(word / 2, width - 1);
    WordsAreFaithful(word / 2, width - 1);
    FromBitsAppend(rest, bits[0]);
    BitsAreFaithful(rest + [bits[0]]);
    assert Rotated(bits, 1) == rest + [bits[0]];
  }

  /** Undoing a hop is the inverse of a hop. */
  lemma BackwardUndoesForward(word: nat, width: nat)
    requires width > 0 && word < Pow2(width)
    ensures ForwardWord(word, width) < Pow2(width)
    ensures BackwardWord(ForwardWord(word, width), width) == word
    ensures (ForwardWord(word, width) / Pow2(width - 1)) % 2 == word % 2
  {
    var half := Pow2(width - 1);
    var next := ForwardWord(word, width);
    assert word / 2 < half;
    if word % 2 == 0 {
      assert next == word / 2;
      DivideSmall(word / 2, half);
    } else {
      assert next == word / 2 + half;
      DivideShifted(word / 2, half);
    }
  }

  lemma DivideSmall(a: nat, b: nat)
    requires a < b
    ensures a / b == 0 && a % b == a
  {
  }

  lemma QuotientIsOne(q: int, b: nat, m: nat, a: nat)
    requires a < b && m < b && a + b == q * b + m
    ensures q == 1
  {
    assert q <= 0 ==> q * b <= 0;
    assert q >= 2 ==> q * b >= 2 * b;
  }

  lemma DivideShifted(a: nat, b: nat)
    requires a < b
    ensures (a + b) / b == 1 && (a + b) % b == a
  {
    var q, m := (a + b) / b, (a + b) % b;
    assert a + b == q * b + m;
    QuotientIsOne(q, b, m, a);
  }

  lemma RotatedOnce(bits: seq<bool>, count: nat)
    requires count < |bits|
    ensures Rotated(Rotated(bits, count), 1) == Rotated(bits, count + 1)
  {
  }

  /** Word after `hops` hops. */
  function WordAfter(word: nat, width: nat, hops: nat): nat
    requires width > 0
  {
    if hops == 0 then word else ForwardWord(WordAfter(word, width, hops - 1), width)
  }

  lemma {:induction false} WordAfterRotates(word: nat, width: nat, hops: nat)
    requires width > 0 && word < Pow2(width) && hops <= width
    ensures WordAfter(word, width, hops) < Pow2(width)
    ensures Bits(WordAfter(word, width, hops), width) == Rotated(Bits(word, width), hops)
  {
    if hops == 0 {
      assert Rotated(Bits(word, width), 0) == Bits(word, width);
    } else {
      WordAfterRotates(word, width, hops - 1);
      ForwardRotates(WordAfter(word, width, hops - 1), width);
      RotatedOnce(Bits(word, width), hops - 1);
    }
  }

  /** The bit consumed at hop `hops` is bit `hops` of the injected word. */
  lemma TurnBitAt(word: nat, width: nat, hops: nat)
    requires word < Pow2(width) && hops < width
    ensures WordAfter(word, width, hops) < Pow2(width)
    ensures (WordAfter(word, width, hops) % 2 == 1) == Bits(word, width)[hops]
  {
    WordAfterRotates(word, width, hops);
    var now := WordAfter(word, width, hops);
    assert Bits(now, width)[0] == (now % 2 == 1);
    assert Rotated(Bits(word, width), hops)[0] == Bits(word, width)[hops];
  }

  /** rotate_right_word: `count % width` single-place rotations of a word of at most 64 bits. */
  method RotateRightWord(value: nat, width: nat, count: nat) returns (word: nat)
    requires value < Pow2(width) && width <= 64
    ensures word < Pow2(width)
    ensures width > 0 ==> Bits(word, width) == Rotated(Bits(value, width), count % width)
    ensures width > 0 && count <= width ==> word == WordAfter(value, width, count)
  {
    if width == 0 {
      return 0;
    }
    word := value;
    var turns := count % width;
    TurnCount(count, width);
    var index := 0;
    while index < turns
      invariant index <= turns < width
      invariant word == WordAfter(value, width, index) && word < Pow2(width)
    {
      word := ForwardWord(word, width);
      index := index + 1;
      WordAfterRotates(value, width, index);
    }
    WordAfterRotates(value, width, turns);
    FullTurn(value, width);
  }

  lemma TurnCount(count: nat, width: nat)
    requires width > 0
    ensures 0 <= count % width < width
    ensures count < width ==> count % width == count
    ensures count == width ==> count % width == 0
  {
  }

  /** A whole turn of rotations is the identity. */
  lemma FullTurn(word: nat, width: nat)
    requires width > 0 && word < Pow2(width)
    ensures WordAfter(word, width, width) == word
  {
    WordAfterRotates(word, width, width);
    assert Rotated(Bits(word, width), width) == Bits(word, width);
    WordsAreFaithful(word, width);
    WordsAreFaithful(WordAfter(word, width, width), width);
  }
}
