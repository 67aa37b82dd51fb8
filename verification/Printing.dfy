/** The precedence-aware expression printer, and exactly when the parser undoes it. */
module Printing {
  import opened Options
  import opened Syntax
  import opened Parsing
  import opened ParseSound
  import opened ParseComplete
  import opened Decorations
  import opened Lexing
  import opened PrintedText
  import opened ReadBack

  /** An object may lack a name; an integer may lack its words, of which each holds 64 bits. */
  datatype Rtl =
    | Object(name: Option<string>)
    | Integer(words: seq<nat>, negative: bool)
    | Prefixed(unary: UnaryOp, operand: Rtl)
    | Infix(binary: BinaryOp, left: Rtl, right: Rtl)
    | Choice(condition: Rtl, whenTrue: Rtl, whenFalse: Rtl)
    | Joined(items: seq<Rtl>)

  const TWO63: nat := 0x8000_0000_0000_0000
  const TWO64: nat := 0x1_0000_0000_0000_0000

  /** Names are identifiers, words fit 64 bits, and negating the printed word does not overflow a signed one. */
  predicate WordsOk(r: Rtl) {
    match r
    case Object(name) => name.Some? ==> IsIdentifier(name.value)
    case Integer(ws, negative) =>
      (forall w :: w in ws ==> w < TWO64) && (ws != [] && negative ==> ws[0] != TWO63)
    case Prefixed(_, x) => WordsOk(x)
    case Infix(_, x, y) => WordsOk(x) && WordsOk(y)
    case Choice(c, x, y) => WordsOk(c) && WordsOk(x) && WordsOk(y)
    case Joined(xs) => forall x :: x in xs ==> WordsOk(x)
  }

  // ----- levels

  const STRUCT: nat := 0
  const LEAF: nat := 1
  const LOGICAL: nat := 9
  const CONDITIONAL: nat := 10

  function OperatorLevel(op: BinaryOp): nat {
    match op
    case Power => 2
    case Multiply => 3
    case Divide => 3
    case Modulo => 3
    case Add => 4
    case Subtract => 4
    case ShiftLeft => 5
    case ShiftRight => 5
    case ArithShiftLeft => 5
    case ArithShiftRight => 5
    case Less => 6
    case LessEqual => 6
    case Greater => 6
    case GreaterEqual => 6
    case Equal => 7
    case NotEqual => 7
    case CaseEqual => 7
    case CaseNotEqual => 7
    case WildcardEqual => 7
    case WildcardNotEqual => 7
    case BitwiseAnd => 8
    case BitwiseXor => 8
    case BitwiseXnor => 8
    case BitwiseOr => 8
    case LogicalAnd => 9
    case LogicalOr => 9
  }

  function Level(r: Rtl): nat {
    match r
    case Joined(_) => STRUCT
    case Object(_) => LEAF
    case Integer(_, _) => LEAF
    case Prefixed(_, _) => LEAF
    case Infix(op, _, _) => OperatorLevel(op)
    case Choice(_, _, _) => CONDITIONAL
  }

  /** A binary operand is parenthesised when it binds no tighter than the operator. */
  predicate ParenInBinary(r: Rtl, op: BinaryOp) {
    Level(r) > OperatorLevel(op) || (Level(r) == OperatorLevel(op) && r.Infix?)
  }

  predicate ParenInCondition(r: Rtl) { Level(r) > LOGICAL || (Level(r) == LOGICAL && r.Infix?) || r.Choice? }

  predicate ParenInBranch(r: Rtl) { Level(r) > CONDITIONAL || Level(r) == CONDITIONAL }

  predicate ParenInUnary(r: Rtl) { Level(r) < LEAF }

  // ----- what is printed, as a tree with groups

  /** The low word read as a signed 64-bit number, then negated for a negative literal. */
  function Printed(words: seq<nat>, negative: bool): int
    requires words != []
  {
    var v: int := if words[0] < TWO63 then words[0] else words[0] - TWO64;
    Signed(v, negative)
  }

  function Wrapped(paren: bool, t: Tree): Tree { if paren then Group(t) else t }

  /** The tree that the printed tokens spell; none when a name or the words of an integer are missing. */
  function Decorate(r: Rtl): Option<Tree> {
    match r
    case Object(n) => if n.Some? then Some(Name(n.value)) else None
    case Integer(ws, negative) => if ws == [] then None else Some(Literal(Printed(ws, negative)))
    case Prefixed(op, x) =>
      var dx := Decorate(x);
      if dx.Some? then Some(Unary(op, Wrapped(ParenInUnary(x), dx.value))) else None
    case Infix(op, x, y) =>
      var dx, dy := Decorate(x), Decorate(y);
      if dx.Some? && dy.Some? then
        Some(Binary(op, Wrapped(ParenInBinary(x, op), dx.value), Wrapped(ParenInBinary(y, op), dy.value)))
      else None
    case Choice(c, x, y) =>
      var dc, dx, dy := Decorate(c), Decorate(x), Decorate(y);
      if dc.Some? && dx.Some? && dy.Some? then
        Some(Conditional(Wrapped(ParenInCondition(c), dc.value), Wrapped(ParenInBranch(x), dx.value),
                         Wrapped(ParenInBranch(y), dy.value)))
      else None
    case Joined(xs) =>
      var ds := DecorateAll(xs);
      if ds.Some? then Some(Concatenation(ds.value)) else None
  }

  function DecorateAll(xs: seq<Rtl>): (r: Option<seq<Tree>>)
    ensures r.Some? ==> |r.value| == |xs| && forall i :: 0 <= i < |xs| ==> Decorate(xs[i]) == Some(r.value[i])
    ensures (forall i :: 0 <= i < |xs| ==> Decorate(xs[i]).Some?) ==> r.Some?
  {
    if xs == [] then Some([])
    else
      var first, rest := Decorate(xs[0]), DecorateAll(xs[1..]);
      if first.Some? && rest.Some? then Some([first.value] + rest.value) else None
  }

  // ----- what the expression means, as a tree without groups

  function Signed(n: int, negative: bool): int { if negative then -n else n }

  function Magnitude(words: seq<nat>): nat { if words == [] then 0 else words[0] + TWO64 * Magnitude(words[1..]) }

  function Surface(r: Rtl): Tree {
    match r
    case Object(n) => Name(if n.Some? then n.value else "")
    case Integer(ws, negative) => Literal(Signed(Magnitude(ws), negative))
    case Prefixed(op, x) => Unary(op, Surface(x))
    case Infix(op, x, y) => Binary(op, Surface(x), Surface(y))
    case Choice(c, x, y) => Conditional(Surface(c), Surface(x), Surface(y))
    case Joined(xs) => Concatenation(SurfaceAll(xs))
  }

  function SurfaceAll(xs: seq<Rtl>): (ys: seq<Tree>)
    ensures |ys| == |xs| && forall i :: 0 <= i < |xs| ==> ys[i] == Surface(xs[i])
  {
    if xs == [] then [] else [Surface(xs[0])] + SurfaceAll(xs[1..])
  }

  /**
   * What survives as a tree: no unary operator directly over a binary or conditional operand, no negative literal, no
   * literal from 2^63 on, no empty concatenation.
   */
  predicate Intact(r: Rtl) {
    match r
    case Object(_) => true
    case Integer(ws, negative) =>
      ws != [] && ws[0] < TWO63 && (forall i :: 1 <= i < |ws| ==> ws[i] == 0) && (negative ==> ws[0] == 0)
    case Prefixed(_, x) => Intact(x) && !x.Infix? && !x.Choice?
    case Infix(_, x, y) => Intact(x) && Intact(y)
    case Choice(c, x, y) => Intact(c) && Intact(x) && Intact(y)
    case Joined(xs) => xs != [] && forall x :: x in xs ==> Intact(x)
  }

  /** No unary operator directly over one that its text fuses with. */
  predicate Unfusing(r: Rtl) {
    match r
    case Object(_) => true
    case Integer(_, _) => true
    case Prefixed(op, x) => Unfusing(x) && !(x.Prefixed? && Fuses(op, x.unary))
    case Infix(_, x, y) => Unfusing(x) && Unfusing(y)
    case Choice(c, x, y) => Unfusing(c) && Unfusing(x) && Unfusing(y)
    case Joined(xs) => forall x :: x in xs ==> Unfusing(x)
  }

  /** What survives printing. */
  predicate Printable(r: Rtl) { Intact(r) && Unfusing(r) }

  lemma {:induction false} MagnitudeZero(words: seq<nat>)
    ensures Magnitude(words) == 0 <==> forall i :: 0 <= i < |words| ==> words[i] == 0
  {
    if words != [] {
      MagnitudeZero(words[1..]);
      assert forall i :: 1 <= i < |words| ==> words[i] == words[1..][i - 1];
      assert Magnitude(words) == words[0] + TWO64 * Magnitude(words[1..]);
    }
  }

  /** A literal is printed as itself, and is not negative, exactly when it is intact. */
  lemma LiteralSurvives(ws: seq<nat>, negative: bool)
    requires ws != [] && WordsOk(Integer(ws, negative))
    ensures Intact(Integer(ws, negative)) <==>
            Printed(ws, negative) >= 0 && Printed(ws, negative) == Signed(Magnitude(ws), negative)
  {
    MagnitudeZero(ws[1..]);
    assert ws[0] in ws;
    var high := Magnitude(ws[1..]);
    assert Magnitude(ws) == ws[0] + TWO64 * high;
    assert (forall i :: 1 <= i < |ws| ==> ws[i] == 0) <==> high == 0 by {
      assert forall i :: 0 <= i < |ws[1..]| ==> ws[1..][i] == ws[i + 1];
      if high == 0 {
        forall i | 1 <= i < |ws|
          ensures ws[i] == 0
        {
          assert ws[1..][i - 1] == 0;
        }
      }
    }
    assert high > 0 ==> TWO64 * high >= TWO64;
  }

  /** Tighter levels are higher precedences. */
  lemma LevelsFollowPrecedence(inner: BinaryOp, outer: BinaryOp)
    requires OperatorLevel(inner) < OperatorLevel(outer)
    ensures Precedence(inner) > Precedence(outer)
  {
  }

  lemma OperandFits(x: Rtl, d: Tree, op: BinaryOp)
    requires Decorate(x) == Some(d)
    ensures LeftFits(Wrapped(ParenInBinary(x, op), d), op)
    ensures Fits(Wrapped(ParenInBinary(x, op), d), RightMinimum(op))
  {
    if !ParenInBinary(x, op) && x.Infix? {
      LevelsFollowPrecedence(x.binary, op);
    }
  }

  /** A group changes neither shape nor meaning. */
  lemma WrappedIsSame(paren: bool, d: Tree)
    ensures Shaped(Wrapped(paren, d)) <==> Shaped(d)
    ensures Erase(Wrapped(paren, d)) == Erase(d)
  {
  }

  lemma PrefixedShaped(op: UnaryOp, x: Rtl, dx: Tree)
    requires Decorate(x) == Some(dx)
    ensures Decorate(Prefixed(op, x)).Some?
    ensures Shaped(Decorate(Prefixed(op, x)).value) <==> Shaped(dx) && !x.Infix? && !x.Choice?
    ensures Erase(Decorate(Prefixed(op, x)).value) == Unary(op, Erase(dx))
  {
  }

  lemma InfixShaped(op: BinaryOp, x: Rtl, y: Rtl, dx: Tree, dy: Tree)
    requires Decorate(x) == Some(dx) && Decorate(y) == Some(dy)
    ensures Decorate(Infix(op, x, y)).Some?
    ensures Shaped(Decorate(Infix(op, x, y)).value) <==> Shaped(dx) && Shaped(dy)
    ensures Erase(Decorate(Infix(op, x, y)).value) == Binary(op, Erase(dx), Erase(dy))
  {
    hide LeftFits, Fits, ParenInBinary;
    OperandFits(x, dx, op);
    OperandFits(y, dy, op);
  }

  lemma ConditionIsGrouped(c: Rtl, dc: Tree)
    requires Decorate(c) == Some(dc)
    ensures !Wrapped(ParenInCondition(c), dc).Conditional?
  {
  }

  lemma ChoiceIs(c: Rtl, x: Rtl, y: Rtl, dc: Tree, dx: Tree, dy: Tree)
    requires Decorate(c) == Some(dc) && Decorate(x) == Some(dx) && Decorate(y) == Some(dy)
    ensures Decorate(Choice(c, x, y)) ==
            Some(Conditional(Wrapped(ParenInCondition(c), dc), Wrapped(ParenInBranch(x), dx), Wrapped(ParenInBranch(y), dy)))
  {
    hide Wrapped, ParenInCondition, ParenInBranch;
  }

  lemma ChoiceShaped(c: Rtl, x: Rtl, y: Rtl, dc: Tree, dx: Tree, dy: Tree)
    requires Decorate(c) == Some(dc) && Decorate(x) == Some(dx) && Decorate(y) == Some(dy)
    ensures Decorate(Choice(c, x, y)).Some?
    ensures Shaped(Decorate(Choice(c, x, y)).value) <==> Shaped(dc) && Shaped(dx) && Shaped(dy)
    ensures Erase(Decorate(Choice(c, x, y)).value) == Conditional(Erase(dc), Erase(dx), Erase(dy))
  {
    ConditionIsGrouped(c, dc);
    WrappedIsSame(ParenInCondition(c), dc);
    WrappedIsSame(ParenInBranch(x), dx);
    WrappedIsSame(ParenInBranch(y), dy);
    hide Wrapped, ParenInCondition, ParenInBranch;
    ChoiceIs(c, x, y, dc, dx, dy);
    hide Decorate;
  }

  /** The printed tree is one the grammar produces, with the right meaning, exactly for intact expressions. */
  lemma {:induction false} ShapedIffIntact(r: Rtl)
    requires WordsOk(r) && Decorate(r).Some?
    ensures Intact(r) <==> Shaped(Decorate(r).value) && Erase(Decorate(r).value) == Surface(r)
  {
    hide Wrapped, Printed, Signed, Magnitude, Shaped, Erase;
    match r
    case Object(_) => LeafShaped(r);
    case Integer(_, _) => LeafShaped(r);
    case Prefixed(op, x) =>
      ShapedIffIntact(x);
      PrefixedShaped(op, x, Decorate(x).value);
    case Infix(op, x, y) =>
      ShapedIffIntact(x);
      ShapedIffIntact(y);
      InfixShaped(op, x, y, Decorate(x).value, Decorate(y).value);
    case Choice(c, x, y) =>
      ShapedIffIntact(c);
      ShapedIffIntact(x);
      ShapedIffIntact(y);
      ChoiceShaped(c, x, y, Decorate(c).value, Decorate(x).value, Decorate(y).value);
    case Joined(xs) =>
      ItemsShapedIffIntact(xs);
      JoinedShaped(DecorateAll(xs).value);
  }

  lemma LeafShaped(r: Rtl)
    requires WordsOk(r) && Decorate(r).Some? && (r.Object? || r.Integer?)
    ensures Intact(r) <==> Shaped(Decorate(r).value) && Erase(Decorate(r).value) == Surface(r)
  {
    if r.Integer? {
      LiteralSurvives(r.words, r.negative);
    }
  }

  lemma JoinedShaped(ds: seq<Tree>)
    ensures Shaped(Concatenation(ds)) <==> ds != [] && forall d :: d in ds ==> Shaped(d)
    ensures Erase(Concatenation(ds)) == Concatenation(EraseAll(ds))
  {
  }

  lemma {:induction false} ItemsShapedIffIntact(xs: seq<Rtl>)
    requires (forall x :: x in xs ==> WordsOk(x)) && DecorateAll(xs).Some?
    ensures (forall x :: x in xs ==> Intact(x)) <==>
            (forall d :: d in DecorateAll(xs).value ==> Shaped(d)) && EraseAll(DecorateAll(xs).value) == SurfaceAll(xs)
  {
    var ds := DecorateAll(xs).value;
    forall i | 0 <= i < |xs|
      ensures Intact(xs[i]) <==> Shaped(ds[i]) && Erase(ds[i]) == Surface(xs[i])
    {
      ShapedIffIntact(xs[i]);
    }
    assert (forall x :: x in xs ==> Intact(x)) <==> (forall i :: 0 <= i < |xs| ==> Intact(xs[i]));
    assert (forall d :: d in ds ==> Shaped(d)) <==> (forall i :: 0 <= i < |ds| ==> Shaped(ds[i]));
    assert EraseAll(ds) == SurfaceAll(xs) <==>
           (forall i :: 0 <= i < |xs| ==> EraseAll(ds)[i] == SurfaceAll(xs)[i]);
  }

  // ----- printing, then parsing

  lemma {:induction false} DecorationIsPlain(r: Rtl)
    requires Decorate(r).Some?
    ensures Plain(Decorate(r).value) && Skeleton(Decorate(r).value) == Skeleton(Surface(r))
  {
    hide Level, Printed, ParenInBinary, ParenInCondition, ParenInBranch, ParenInUnary;
    match r
    case Object(_) =>
    case Integer(_, _) =>
    case Prefixed(_, x) => DecorationIsPlain(x);
    case Infix(_, x, y) =>
      DecorationIsPlain(x);
      DecorationIsPlain(y);
    case Choice(c, x, y) =>
      DecorationIsPlain(c);
      DecorationIsPlain(x);
      DecorationIsPlain(y);
    case Joined(xs) =>
      var ds := DecorateAll(xs).value;
      forall i | 0 <= i < |xs|
        ensures Plain(ds[i]) && Skeleton(ds[i]) == Skeleton(SurfaceAll(xs)[i])
      {
        DecorationIsPlain(xs[i]);
      }
      assert SkeletonAll(ds) == SkeletonAll(SurfaceAll(xs));
  }

  /** The parser finds every well-shaped tree in its own tokens. */
  lemma YieldParses(t: Tree)
    requires Shaped(t)
    ensures Parse(Yield(t)) == Some(t)
  {
    OneSpelling(t);
    ParsesExactly(Yield(t), t);
  }

  lemma {:induction false} DecorationIsReadable(r: Rtl)
    requires WordsOk(r) && Decorate(r).Some?
    ensures Readable(Decorate(r).value)
  {
    hide IsIdentifier, Level, Printed, ParenInBinary, ParenInCondition, ParenInBranch, ParenInUnary;
    match r
    case Object(_) =>
    case Integer(_, _) =>
    case Prefixed(_, x) => DecorationIsReadable(x);
    case Infix(_, x, y) =>
      DecorationIsReadable(x);
      DecorationIsReadable(y);
    case Choice(c, x, y) =>
      DecorationIsReadable(c);
      DecorationIsReadable(x);
      DecorationIsReadable(y);
    case Joined(xs) =>
      forall i | 0 <= i < |xs|
        ensures Readable(DecorateAll(xs).value[i])
      {
        DecorationIsReadable(xs[i]);
      }
  }

  /** An intact expression starts with one unary operator per nested prefix. */
  lemma IntactHeads(r: Rtl)
    requires WordsOk(r) && Intact(r) && Decorate(r).Some? && !r.Infix? && !r.Choice?
    ensures r.Prefixed? <==> Heads(Decorate(r).value) != []
    ensures r.Prefixed? ==> Heads(Decorate(r).value)[0] == r.unary
  {
    if r.Integer? {
      LiteralSurvives(r.words, r.negative);
    }
  }

  lemma PrefixedUnfused(op: UnaryOp, x: Rtl)
    requires WordsOk(x) && Intact(x) && Decorate(x).Some? && !x.Infix? && !x.Choice?
    ensures Unfused(Decorate(Prefixed(op, x)).value) <==>
            Unfused(Decorate(x).value) && !(x.Prefixed? && Fuses(op, x.unary))
  {
    var d := Decorate(x).value;
    IntactHeads(x);
    RunOneMore([op] + Heads(d));
    assert ([op] + Heads(d))[1..] == Heads(d);
    if Unfused(d) {
      HeadsUnfused(d);
    }
  }

  lemma WrappedUnfused(paren: bool, d: Tree)
    ensures Unfused(Wrapped(paren, d)) <==> Unfused(d)
  {
  }

  /** In an intact expression operators fuse in the text exactly where a unary operator fuses with its operand's. */
  lemma {:induction false} UnfusedIffUnfusing(r: Rtl)
    requires WordsOk(r) && Intact(r) && Decorate(r).Some?
    ensures Unfused(Decorate(r).value) <==> Unfusing(r)
  {
    hide Wrapped, IsIdentifier, Level, Printed, ParenInBinary, ParenInCondition, ParenInBranch, ParenInUnary, RunUnfused, Fuses;
    match r
    case Object(_) =>
    case Integer(_, _) =>
    case Prefixed(op, x) =>
      UnfusedIffUnfusing(x);
      PrefixedUnfused(op, x);
    case Infix(op, x, y) =>
      UnfusedIffUnfusing(x);
      UnfusedIffUnfusing(y);
      WrappedUnfused(ParenInBinary(x, op), Decorate(x).value);
      WrappedUnfused(ParenInBinary(y, op), Decorate(y).value);
    case Choice(c, x, y) =>
      UnfusedIffUnfusing(c);
      UnfusedIffUnfusing(x);
      UnfusedIffUnfusing(y);
      WrappedUnfused(ParenInCondition(c), Decorate(c).value);
      WrappedUnfused(ParenInBranch(x), Decorate(x).value);
      WrappedUnfused(ParenInBranch(y), Decorate(y).value);
    case Joined(xs) =>
      var ds := DecorateAll(xs).value;
      forall i | 0 <= i < |xs|
        ensures Unfused(ds[i]) <==> Unfusing(xs[i])
      {
        UnfusedIffUnfusing(xs[i]);
      }
      assert (forall x :: x in xs ==> Unfusing(x)) <==> (forall i :: 0 <= i < |xs| ==> Unfusing(xs[i]));
      assert (forall d :: d in ds ==> Unfused(d)) <==> (forall i :: 0 <= i < |ds| ==> Unfused(ds[i]));
  }

  /** What a reader makes of printed characters. */
  function Read(text: string): Option<Tree> { Parse(Lex(text)) }

  /**
   * Reading the printed text gives the expression back, once groups are erased, exactly when it is printable: no
   * unary operator directly over a binary or conditional operand or over an operator it fuses with, no negative
   * literal, none from 2^63 on.
   */
  lemma RoundTrip(r: Rtl)
    requires WordsOk(r) && Decorate(r).Some?
    ensures var read := Read(Text(Decorate(r).value));
            read.Some? && Erase(read.value) == Surface(r) <==> Printable(r)
  {
    hide Lex, Text, Yield, Erase, Surface, WordsOk, Decorate, Unfused, Unfusing, Intact, Departs;
    var d := Decorate(r).value;
    var tokens := Lex(Text(d));
    DecorationIsPlain(r);
    DecorationIsReadable(r);
    TextReads(d);
    TokensRoundTrip(r);
    if Intact(r) {
      UnfusedIffUnfusing(r);
    }
    if !Unfused(d) && Parse(tokens).Some? && Erase(Parse(tokens).value) == Surface(r) {
      var u := Parse(tokens).value;
      ParsesExactly(tokens, u);
      SkeletonRead(r, u);
      NeverReadBack(d, u, tokens);
    }
  }

  lemma SkeletonRead(r: Rtl, u: Tree)
    requires Erase(u) == Surface(r)
    ensures Plain(u) && Skeleton(u) == Skeleton(Surface(r))
  {
    SurfaceIsPlain(r);
    ErasedSkeleton(u);
  }

  /** The same for the tokens meant, which the reader gets when no operators fuse. */
  lemma TokensRoundTrip(r: Rtl)
    requires WordsOk(r) && Decorate(r).Some?
    ensures var parsed := Parse(Yield(Decorate(r).value));
            parsed.Some? && Erase(parsed.value) == Surface(r) <==> Intact(r)
  {
    var d := Decorate(r).value;
    var ts := Yield(d);
    OneSpelling(d);
    ShapedIffIntact(r);
    ParsesExactly(ts, d);
    var parsed := Parse(ts);
    if parsed.Some? && Erase(parsed.value) == Surface(r) {
      var t := parsed.value;
      ParsesExactly(ts, t);
      assert Yield(t) == ts;
      DecorationIsPlain(r);
      SkeletonRead(r, t);
      TokensTellTrees(t, d);
    }
  }

  lemma {:induction false} SurfaceIsPlain(r: Rtl)
    ensures Plain(Surface(r))
  {
    match r
    case Joined(xs) =>
      forall i | 0 <= i < |xs|
        ensures Plain(SurfaceAll(xs)[i])
      {
        SurfaceIsPlain(xs[i]);
      }
    case Object(_) =>
    case Integer(_, _) =>
    case Prefixed(_, x) => SurfaceIsPlain(x);
    case Infix(_, x, y) =>
      SurfaceIsPlain(x);
      SurfaceIsPlain(y);
    case Choice(c, x, y) =>
      SurfaceIsPlain(c);
      SurfaceIsPlain(x);
      SurfaceIsPlain(y);
  }

  /** For example, `-(a + b)` is printed as `-a + b`, which reads as `(-a) + b`. */
  lemma NegatedSumIsLost(a: string, b: string)
    requires IsIdentifier(a) && IsIdentifier(b)
    ensures var r := Prefixed(Negate, Infix(Add, Object(Some(a)), Object(Some(b))));
            && Surface(r) == Unary(Negate, Binary(Add, Name(a), Name(b)))
            && Decorate(r).Some? && Text(Decorate(r).value) == "-" + a + " + " + b
            && Read("-" + a + " + " + b) == Some(Binary(Add, Unary(Negate, Name(a)), Name(b)))
  {
    var t := Binary(Add, Unary(Negate, Name(a)), Name(b));
    SumIs(a, b);
    NegationReads(a, b);
    TextReads(t);
    YieldParses(t);
  }

  lemma SumIs(a: string, b: string)
    ensures var r, d := Prefixed(Negate, Infix(Add, Object(Some(a)), Object(Some(b)))), Binary(Add, Name(a), Name(b));
            Decorate(r) == Some(Unary(Negate, d)) && Surface(r) == Unary(Negate, d)
    ensures Text(Unary(Negate, Binary(Add, Name(a), Name(b)))) == "-" + a + " + " + b
  {
    var sum, d := Infix(Add, Object(Some(a)), Object(Some(b))), Binary(Add, Name(a), Name(b));
    assert Decorate(sum) == Some(d) && Surface(sum) == d && !ParenInUnary(sum);
    assert Text(d) == a + " " + "+" + " " + b == a + " + " + b;
    assert "-" + (a + " + " + b) == "-" + a + " + " + b;
  }

  lemma NegationReads(a: string, b: string)
    requires IsIdentifier(a) && IsIdentifier(b)
    ensures var t := Binary(Add, Unary(Negate, Name(a)), Name(b));
            Plain(t) && Readable(t) && Shaped(t) && Unfused(t) && Text(t) == "-" + a + " + " + b
  {
    OneOperator(Negate);
    assert Heads(Name(a)) == [];
    var t := Binary(Add, Unary(Negate, Name(a)), Name(b));
    assert Text(t.left) == "-" + a;
    assert Text(t) == Text(t.left) + " " + "+" + " " + b;
  }

  lemma OneOperator(op: UnaryOp)
    ensures RunUnfused([op] + [])
  {
  }

  /** And `~(&a)` is printed as `~&a`, which reads as the reduction NAND of a. */
  lemma FusedIsLost(a: string)
    requires IsIdentifier(a)
    ensures var r := Prefixed(BitwiseNot, Prefixed(ReductionAnd, Object(Some(a))));
            && Surface(r) == Unary(BitwiseNot, Unary(ReductionAnd, Name(a)))
            && Decorate(r).Some? && Text(Decorate(r).value) == "~&" + a
            && Read("~&" + a) == Some(Unary(ReductionNand, Name(a)))
  {
    var t := Unary(ReductionNand, Name(a));
    InnerIs(a);
    assert Text(Unary(ReductionAnd, Name(a))) == "&" + a;
    assert "~" + ("&" + a) == "~&" + a == Text(t);
    TextReads(t);
    OneOperator(ReductionNand);
    assert Heads(Name(a)) == [] && Unfused(t);
    YieldParses(t);
  }

  lemma InnerIs(a: string)
    ensures var inner := Prefixed(ReductionAnd, Object(Some(a)));
            Decorate(inner) == Some(Unary(ReductionAnd, Name(a))) && Surface(inner) == Unary(ReductionAnd, Name(a))
  {
    var leaf := Object(Some(a));
    assert Decorate(leaf) == Some(Name(a)) && Surface(leaf) == Name(a);
    assert !ParenInUnary(leaf);
  }

  // ----- decimal digits

  function Backwards(s: string): string { if s == "" then "" else Backwards(s[1..]) + [s[0]] }

  lemma {:induction false} BackwardsSnoc(s: string, c: char)
    ensures Backwards(s + [c]) == [c] + Backwards(s)
    ensures |Backwards(s)| == |s|
    decreases |s|
  {
    if s == "" {
      assert [c][1..] == "";
    } else {
      assert (s + [c])[0] == s[0] && (s + [c])[1..] == s[1..] + [c];
      BackwardsSnoc(s[1..], c);
    }
  }

  /** One turn of the digit loop: the last digit of what is left goes behind the digits found. */
  lemma {:induction false} DigitStep(whole: nat, left: nat, found: string)
    requires DecimalText(whole) == DecimalText(left) + Backwards(found)
    ensures |found| < |DecimalText(whole)|
    ensures DecimalText(whole) ==
            (if left / 10 == 0 then "" else DecimalText(left / 10)) + Backwards(found + [DigitChar(left % 10)])
  {
    var last := DigitChar(left % 10);
    var front := if left / 10 == 0 then "" else DecimalText(left / 10);
    assert DecimalText(left) == front + [last];
    BackwardsSnoc(found, last);
    hide *;
    assert front + [last] + Backwards(found) == front + ([last] + Backwards(found));
  }

  function Pow10(k: nat): nat { if k == 0 then 1 else 10 * Pow10(k - 1) }

  lemma {:induction false} DecimalShort(n: nat, k: nat)
    requires n < Pow10(k) && k > 0
    ensures |DecimalText(n)| <= k
    decreases k
  {
    if n >= 10 {
      DecimalShort(n / 10, k - 1);
    }
  }

  /** A signed 64-bit number has at most 20 digits. */
  lemma SignedIsShort(n: nat)
    requires n <= TWO63
    ensures |DecimalText(n)| <= 20
  {
    assert Pow10(5) == 100000;
    assert Pow10(10) == 100000 * Pow10(5);
    assert Pow10(15) == 100000 * Pow10(10);
    assert Pow10(20) == 100000 * Pow10(15);
    DecimalShort(n, 20);
  }

  lemma PrintedFits(ws: seq<nat>, negative: bool)
    requires ws != [] && WordsOk(Integer(ws, negative))
    ensures -(TWO63 as int) <= Printed(ws, negative) < TWO63
  {
    assert ws[0] in ws;
  }

  // ----- the buffer and the recursive renderer

  lemma UnaryRendered(start: string, op: UnaryOp, x: Tree)
    ensures start + SymbolText(UnaryText(op)) + Text(x) == start + Text(Unary(op, x))
  {
  }

  lemma BinaryRendered(start: string, op: BinaryOp, x: Tree, y: Tree)
    ensures start + Text(x) + (" " + SymbolText(BinaryText(op)) + " ") + Text(y) == start + Text(Binary(op, x, y))
  {
    StringsAssociate(start, Text(x), " ", SymbolText(BinaryText(op)), " ", Text(y));
  }

  lemma StringsAssociate(s: string, a: string, b: string, c: string, d: string, e: string)
    ensures s + a + (b + c + d) + e == s + (a + b + c + d + e)
  {
  }

  lemma ConditionalRendered(start: string, c: Tree, x: Tree, y: Tree)
    ensures start + Text(c) + " ? " + Text(x) + " : " + Text(y) == start + Text(Conditional(c, x, y))
  {
    assert Text(Conditional(c, x, y)) == Text(c) + " ? " + Text(x) + " : " + Text(y);
    hide Text;
    LongStringsAssociate(start, Text(c), " ? ", Text(x), " : ", Text(y));
  }

  lemma LongStringsAssociate(s: string, a: string, b: string, c: string, d: string, e: string)
    ensures s + a + b + c + d + e == s + (a + b + c + d + e)
  {
  }

  lemma ConcatenationRendered(start: string, xs: seq<Tree>)
    ensures start + "{" + TextAll(xs) + "}" == start + Text(Concatenation(xs))
  {
  }

  lemma GroupRendered(start: string, x: Tree)
    ensures start + "(" + Text(x) + ")" == start + Text(Group(x))
  {
  }

  lemma {:induction false} TextAllSnoc(xs: seq<Tree>, x: Tree)
    ensures TextAll(xs + [x]) == if xs == [] then Text(x) else TextAll(xs) + "," + Text(x)
  {
    if xs == [] {
      assert xs + [x] == [x];
    } else {
      assert (xs + [x])[0] == xs[0] && (xs + [x])[1..] == xs[1..] + [x];
      TextAllSnoc(xs[1..], x);
    }
  }

  lemma DecorateAllSnoc(xs: seq<Rtl>, x: Rtl)
    requires DecorateAll(xs).Some? && Decorate(x).Some?
    ensures DecorateAll(xs + [x]) == Some(DecorateAll(xs).value + [Decorate(x).value])
  {
    var all := xs + [x];
    assert DecorateAll(all).Some?;
    assert DecorateAll(all).value == DecorateAll(xs).value + [Decorate(x).value];
  }

  /** The i-th item follows the earlier ones, after a comma unless it is the first. */
  lemma ItemRendered(start: string, xs: seq<Rtl>, i: nat)
    requires i < |xs| && DecorateAll(xs[..i]).Some? && Decorate(xs[i]).Some?
    ensures DecorateAll(xs[..i + 1]).Some?
    ensures start + TextAll(DecorateAll(xs[..i + 1]).value) ==
            start + TextAll(DecorateAll(xs[..i]).value) + (if i > 0 then "," else "") + Text(Decorate(xs[i]).value)
  {
    var done, x := DecorateAll(xs[..i]).value, Decorate(xs[i]).value;
    assert TextAll([]) == "";
    assert xs[..i + 1] == xs[..i] + [xs[i]];
    hide Text, TextAll, Decorate;
    DecorateAllSnoc(xs[..i], xs[i]);
    TextAllSnoc(done, x);
    if i > 0 {
      assert start + TextAll(done) + "," + Text(x) == start + (TextAll(done) + "," + Text(x));
    }
  }

  lemma ItemFailed(xs: seq<Rtl>, i: nat)
    requires i < |xs| && Decorate(xs[i]).None?
    ensures DecorateAll(xs).None?
  {
  }

  /** A growing buffer; once failed, nothing is appended. */
  class Buffer {
    var text: string
    var failed: bool

    constructor ()
      ensures text == "" && !failed
    {
      text, failed := "", false;
    }

    method Append(piece: string)
      modifies this
      ensures failed == old(failed) && text == old(text) + if failed then "" else piece
    {
      if !failed {
        text := text + piece;
      }
    }

    /** The decimal digits are found from the last one back and then appended in order. */
    method AppendInteger(value: int)
      requires -(TWO63 as int) <= value < TWO63
      modifies this
      ensures failed == old(failed) && text == old(text) + if failed then "" else Text(Literal(value))
    {
      hide DecimalText, Backwards;
      var digits, length := DigitsOf(value);
      if value < 0 {
        Append("-");
      }
      assert digits[..length] == digits[..][..length];
      AppendBackwards(digits, length);
    }

    method DigitsOf(value: int) returns (digits: array<char>, length: nat)
      requires -(TWO63 as int) <= value < TWO63
      ensures fresh(digits) && length <= digits.Length
      ensures Backwards(digits[..length]) == DecimalText(if value < 0 then -value else value)
    {
      digits := new char[24];
      var magnitude := if value < 0 then -(value + 1) + 1 else value;
      ghost var whole := magnitude;
      SignedIsShort(whole);
      assert DecimalText(whole) == DecimalText(whole) + Backwards("");
      hide DecimalText, Backwards, DigitChar;
      DigitStep(whole, magnitude, "");
      digits[0] := DigitChar(magnitude % 10);
      assert digits[..1] == "" + [digits[0]];
      magnitude := magnitude / 10;
      length := 1;
      while magnitude > 0
        invariant 0 <= magnitude && 1 <= length <= 20 && |DecimalText(whole)| <= 20
        invariant DecimalText(whole) == (if magnitude == 0 then "" else DecimalText(magnitude)) + Backwards(digits[..length])
      {
        ghost var before := digits[..length];
        DigitStep(whole, magnitude, before);
        digits[length] := DigitChar(magnitude % 10);
        assert digits[..length + 1] == before + [DigitChar(magnitude % 10)];
        magnitude := magnitude / 10;
        length := length + 1;
      }
    }

    method AppendBackwards(digits: array<char>, count: nat)
      requires count <= digits.Length
      modifies this
      ensures failed == old(failed) && text == old(text) + if failed then "" else old(Backwards(digits[..count]))
    {
      var length := count;
      while length > 0
        invariant 0 <= length <= count && failed == old(failed) && digits[..] == old(digits[..])
        invariant failed ==> text == old(text)
        invariant !failed ==> text + Backwards(digits[..length]) == old(text) + Backwards(old(digits[..count]))
      {
        length := length - 1;
        assert digits[..length + 1] == digits[..length] + [digits[length]];
        BackwardsSnoc(digits[..length], digits[length]);
        Append([digits[length]]);
      }
    }

    /** Appends the text of one operand, in parentheses when asked. */
    method RenderOperand(r: Rtl, paren: bool)
      requires !failed && WordsOk(r)
      modifies this
      ensures failed == Decorate(r).None?
      ensures !failed ==> text == old(text) + Text(Wrapped(paren, Decorate(r).value))
      decreases r, 2
    {
      hide WordsOk, Decorate, Text;
      if paren {
        Append("(");
      }
      Render(r);
      if failed {
        return;
      }
      if paren {
        Append(")");
        GroupRendered(old(text), Decorate(r).value);
      }
    }

    method Render(r: Rtl)
      requires !failed && WordsOk(r)
      modifies this
      ensures failed == Decorate(r).None?
      ensures !failed ==> text == old(text) + Text(Decorate(r).value)
      decreases r, 1
    {
      hide ParenInBinary, ParenInCondition, ParenInBranch, ParenInUnary, Printed, Wrapped;
      match r
      case Object(name) =>
        if name.None? {
          failed := true;
        } else {
          Append(name.value);
        }
      case Integer(words, negative) =>
        if words == [] {
          failed := true;
        } else {
          PrintedFits(words, negative);
          AppendInteger(Printed(words, negative));
        }
      case Prefixed(op, x) =>
        Append(SymbolText(UnaryText(op)));
        RenderOperand(x, ParenInUnary(x));
        if !failed {
          UnaryRendered(old(text), op, Wrapped(ParenInUnary(x), Decorate(x).value));
        }
      case Infix(op, x, y) => RenderInfix(op, x, y);
      case Choice(c, x, y) => RenderChoice(c, x, y);
      case Joined(xs) =>
        Append("{");
        RenderItems(xs);
        if !failed {
          Append("}");
          ConcatenationRendered(old(text), DecorateAll(xs).value);
        }
    }

    method RenderInfix(op: BinaryOp, x: Rtl, y: Rtl)
      requires !failed && WordsOk(x) && WordsOk(y)
      modifies this
      ensures failed == Decorate(Infix(op, x, y)).None?
      ensures !failed ==> text == old(text) + Text(Decorate(Infix(op, x, y)).value)
      decreases Infix(op, x, y), 0
    {
      hide Text, Wrapped, ParenInBinary, WordsOk;
      RenderOperand(x, ParenInBinary(x, op));
      if failed {
        return;
      }
      Append(" " + SymbolText(BinaryText(op)) + " ");
      RenderOperand(y, ParenInBinary(y, op));
      if !failed {
        BinaryRendered(old(text), op, Wrapped(ParenInBinary(x, op), Decorate(x).value),
                     Wrapped(ParenInBinary(y, op), Decorate(y).value));
      }
    }

    method RenderChoice(c: Rtl, x: Rtl, y: Rtl)
      requires !failed && WordsOk(c) && WordsOk(x) && WordsOk(y)
      modifies this
      ensures failed == Decorate(Choice(c, x, y)).None?
      ensures !failed ==> text == old(text) + Text(Decorate(Choice(c, x, y)).value)
      decreases Choice(c, x, y), 0
    {
      hide Text, Wrapped, ParenInCondition, ParenInBranch, WordsOk;
      RenderOperand(c, ParenInCondition(c));
      if failed {
        return;
      }
      Append(" ? ");
      RenderOperand(x, ParenInBranch(x));
      if failed {
        return;
      }
      Append(" : ");
      RenderOperand(y, ParenInBranch(y));
      if !failed {
        ConditionalRendered(old(text), Wrapped(ParenInCondition(c), Decorate(c).value),
                          Wrapped(ParenInBranch(x), Decorate(x).value), Wrapped(ParenInBranch(y), Decorate(y).value));
      }
    }

    method RenderItems(xs: seq<Rtl>)
      requires !failed && forall x :: x in xs ==> WordsOk(x)
      modifies this
      ensures failed == DecorateAll(xs).None?
      ensures !failed ==> text == old(text) + TextAll(DecorateAll(xs).value)
      decreases xs, 0
    {
      assert TextAll([]) == "" && DecorateAll(xs[..0]) == Some([]);
      hide Text, TextAll, WordsOk, Decorate, DecorateAll;
      var i := 0;
      while i < |xs|
        invariant 0 <= i <= |xs| && !failed
        invariant DecorateAll(xs[..i]).Some? && text == old(text) + TextAll(DecorateAll(xs[..i]).value)
      {
        if i > 0 {
          Append(",");
        }
        Render(xs[i]);
        if failed {
          ItemFailed(xs, i);
          return;
        }
        ItemRendered(old(text), xs, i);
        i := i + 1;
      }
      assert xs[..i] == xs;
    }
  }

  /** Nothing is returned for an expression that fails to render. */
  method RenderExpression(r: Rtl) returns (text: Option<string>)
    requires WordsOk(r)
    ensures text == if Decorate(r).Some? then Some(Text(Decorate(r).value)) else None
  {
    hide Text, WordsOk, Decorate;
    var b := new Buffer();
    b.Render(r);
    if b.failed {
      return None;
    }
    assert "" + Text(Decorate(r).value) == Text(Decorate(r).value);
    return Some(b.text);
  }
}
