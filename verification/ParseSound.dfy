/** Whatever the parser accepts is well shaped and spells exactly the tokens consumed. */
module ParseSound {
  import opened Options
  import opened Syntax
  import opened Parsing

  /** The tokens from `at` to `end` are ys, up to the two spellings of the same operator. */
  ghost predicate Spells(ts: seq<Token>, at: nat, end: nat, ys: seq<Token>) {
    at + |ys| == end <= |ts| && forall i :: 0 <= i < |ys| ==> Respell(ts[at + i]) == ys[i]
  }

  lemma SpellsJoin(ts: seq<Token>, at: nat, mid: nat, end: nat, x: seq<Token>, y: seq<Token>)
    requires Spells(ts, at, mid, x) && Spells(ts, mid, end, y)
    ensures Spells(ts, at, end, x + y)
  {
    forall i | 0 <= i < |x + y|
      ensures Respell(ts[at + i]) == (x + y)[i]
    {
      if i >= |x| {
        assert Respell(ts[mid + (i - |x|)]) == y[i - |x|];
      }
    }
  }

  lemma SpellsOne(ts: seq<Token>, at: nat, t: Token)
    requires at < |ts| && Respell(ts[at]) == t
    ensures Spells(ts, at, at + 1, [t])
  {
  }

  /** No operator of at least the minimum precedence follows. */
  ghost predicate Stops(ts: seq<Token>, at: nat, minimum: nat) {
    && (BinaryHere(ts, at).Some? ==> Precedence(BinaryHere(ts, at).value) < minimum)
    && (minimum <= 1 ==> !Is(ts, at, Question))
  }

  /** What follows cannot continue the tree's last operand. */
  ghost predicate Closed(ts: seq<Token>, at: nat, t: Tree) {
    && (t.Binary? && BinaryHere(ts, at).Some? ==> Precedence(BinaryHere(ts, at).value) < RightMinimum(t.binary))
    && (t.Conditional? ==> BinaryHere(ts, at).None? && !Is(ts, at, Question))
  }

  ghost predicate AllShaped(xs: seq<Tree>) { forall x :: x in xs ==> Shaped(x) }

  ghost predicate Sound(ts: seq<Token>, at: nat, r: Option<Parsed>) {
    r.Some? ==> Shaped(r.value.tree) && Spells(ts, at, r.value.at, Yield(r.value.tree))
  }

  ghost predicate SoundList(ts: seq<Token>, at: nat, r: Option<Several>) {
    r.Some? ==> AllShaped(r.value.trees) && Spells(ts, at, r.value.at, YieldAll(r.value.trees))
  }

  lemma {:induction false} PrecedenceSound(ts: seq<Token>, at: nat, minimum: nat)
    ensures Sound(ts, at, ParsePrecedence(ts, at, minimum))
    ensures var r := ParsePrecedence(ts, at, minimum);
            r.Some? ==> Fits(r.value.tree, minimum) && Stops(ts, r.value.at, minimum)
    decreases |ts| - at, 4
  {
    hide Spells, Shaped;
    PrefixSound(ts, at);
    var left := ParsePrefix(ts, at);
    if left.Some? {
      ClimbSound(ts, left.value.tree, at, left.value.at, minimum);
    }
  }

  lemma {:induction false} ClimbSound(ts: seq<Token>, left: Tree, start: nat, at: nat, minimum: nat)
    requires start < at <= |ts| && Shaped(left) && Fits(left, minimum) && Closed(ts, at, left)
    requires Spells(ts, start, at, Yield(left))
    ensures Sound(ts, start, Climb(ts, left, at, minimum))
    ensures var r := Climb(ts, left, at, minimum);
            r.Some? ==> Fits(r.value.tree, minimum) && Stops(ts, r.value.at, minimum)
    decreases |ts| - at, 5
  {
    hide Spells, Yield, ParsePrecedence;
    var op := BinaryHere(ts, at);
    if op.Some? && minimum <= Precedence(op.value) {
      PrecedenceSound(ts, at + 1, RightMinimum(op.value));
      var right := ParsePrecedence(ts, at + 1, RightMinimum(op.value));
      if right.Some? {
        BinarySpells(ts, start, at, right.value.at, op.value, left, right.value.tree);
        ClimbSound(ts, Binary(op.value, left, right.value.tree), start, right.value.at, minimum);
      }
    } else if minimum <= 1 && Is(ts, at, Question) {
      PrecedenceSound(ts, at + 1, 1);
      var whenTrue := ParsePrecedence(ts, at + 1, 1);
      if whenTrue.Some? && Is(ts, whenTrue.value.at, Colon) {
        PrecedenceSound(ts, whenTrue.value.at + 1, 1);
        var whenFalse := ParsePrecedence(ts, whenTrue.value.at + 1, 1);
        if whenFalse.Some? {
          ConditionalSpells(ts, start, at, whenTrue.value.at, whenFalse.value.at, left, whenTrue.value.tree,
                            whenFalse.value.tree);
          ClimbSound(ts, Conditional(left, whenTrue.value.tree, whenFalse.value.tree), start, whenFalse.value.at, minimum);
        }
      }
    }
  }

  lemma BinarySpells(ts: seq<Token>, start: nat, at: nat, end: nat, op: BinaryOp, l: Tree, r: Tree)
    requires at < end <= |ts| && BinaryHere(ts, at) == Some(op)
    requires Spells(ts, start, at, Yield(l)) && Spells(ts, at + 1, end, Yield(r))
    ensures Spells(ts, start, end, Yield(Binary(op, l, r)))
  {
    hide Spells;
    BinaryReadsText(ts[at].symbol, op);
    SpellsOne(ts, at, Op(BinaryText(op)));
    SpellsJoin(ts, start, at, at + 1, Yield(l), [Op(BinaryText(op))]);
    SpellsJoin(ts, start, at + 1, end, Yield(l) + [Op(BinaryText(op))], Yield(r));
  }

  lemma ConditionalSpells(ts: seq<Token>, start: nat, question: nat, colon: nat, end: nat, c: Tree, x: Tree, y: Tree)
    requires question < colon < end <= |ts| && Is(ts, question, Question) && Is(ts, colon, Colon)
    requires Spells(ts, start, question, Yield(c)) && Spells(ts, question + 1, colon, Yield(x))
    requires Spells(ts, colon + 1, end, Yield(y))
    ensures Spells(ts, start, end, Yield(Conditional(c, x, y)))
  {
    hide Spells;
    SpellsOne(ts, question, Question);
    SpellsOne(ts, colon, Colon);
    SpellsJoin(ts, start, question, question + 1, Yield(c), [Question]);
    SpellsJoin(ts, start, question + 1, colon, Yield(c) + [Question], Yield(x));
    SpellsJoin(ts, start, colon, colon + 1, Yield(c) + [Question] + Yield(x), [Colon]);
    SpellsJoin(ts, start, colon + 1, end, Yield(c) + [Question] + Yield(x) + [Colon], Yield(y));
  }

  lemma {:induction false} PrefixSound(ts: seq<Token>, at: nat)
    ensures Sound(ts, at, ParsePrefix(ts, at))
    ensures var r := ParsePrefix(ts, at); r.Some? ==> !r.value.tree.Binary? && !r.value.tree.Conditional?
    decreases |ts| - at, 3
  {
    hide Spells;
    var op := UnaryHere(ts, at);
    if op.Some? {
      PrefixSound(ts, at + 1);
      var operand := ParsePrefix(ts, at + 1);
      if operand.Some? {
        UnaryReadsText(ts[at].symbol, op.value);
        SpellsOne(ts, at, Op(UnaryText(op.value)));
        SpellsJoin(ts, at, at + 1, operand.value.at, [Op(UnaryText(op.value))], Yield(operand.value.tree));
      }
    } else {
      PostfixSound(ts, at);
    }
  }

  lemma {:induction false} PostfixSound(ts: seq<Token>, at: nat)
    ensures Sound(ts, at, ParsePostfix(ts, at))
    ensures var r := ParsePostfix(ts, at); r.Some? ==> Postfix(r.value.tree)
    decreases |ts| - at, 2
  {
    hide Spells, Shaped;
    PrimarySound(ts, at);
    var base := ParsePrimary(ts, at);
    if base.Some? {
      CallsSound(ts, base.value.tree, at, base.value.at);
    }
  }

  lemma {:induction false} CallsSound(ts: seq<Token>, base: Tree, start: nat, at: nat)
    requires start < at <= |ts| && Shaped(base) && Postfix(base) && Spells(ts, start, at, Yield(base))
    ensures Sound(ts, start, ParseCalls(ts, base, at))
    ensures var r := ParseCalls(ts, base, at); r.Some? ==> Postfix(r.value.tree)
    decreases |ts| - at, 5
  {
    hide Spells, Yield, YieldAll;
    if Is(ts, at, LParen) {
      SequenceSound(ts, at + 1, RParen);
      var arguments := CollectSequence(ts, at + 1, RParen);
      if arguments.Some? && Is(ts, arguments.value.at, RParen) {
        var end := arguments.value.at;
        var xs := arguments.value.trees;
        CallSpells(ts, start, at, end, base, xs);
        CallsSound(ts, Call(base, xs), start, end + 1);
      }
    }
  }

  lemma {:induction false} SequenceSound(ts: seq<Token>, at: nat, closer: Token)
    requires at <= |ts|
    ensures SoundList(ts, at, CollectSequence(ts, at, closer))
    decreases |ts| - at, 6
  {
    if !Is(ts, at, closer) {
      ItemsSound(ts, at, closer);
    }
  }

  lemma YieldOfOne(x: Tree)
    ensures YieldAll([x]) == Yield(x)
  {
  }

  lemma ShapedCons(x: Tree, xs: seq<Tree>)
    requires Shaped(x)
    ensures AllShaped([x]) && (AllShaped(xs) ==> AllShaped([x] + xs))
  {
  }

  lemma ListSpells(ts: seq<Token>, at: nat, comma: nat, end: nat, x: Tree, xs: seq<Tree>)
    requires comma < |ts| && Is(ts, comma, Comma) && xs != []
    requires Spells(ts, at, comma, Yield(x)) && Spells(ts, comma + 1, end, YieldAll(xs))
    ensures Spells(ts, at, end, YieldAll([x] + xs))
  {
    hide Spells, Yield;
    assert ([x] + xs)[1..] == xs;
    SpellsOne(ts, comma, Comma);
    SpellsJoin(ts, at, comma, comma + 1, Yield(x), [Comma]);
    SpellsJoin(ts, at, comma + 1, end, Yield(x) + [Comma], YieldAll(xs));
  }

  lemma {:induction false} ItemsSound(ts: seq<Token>, at: nat, closer: Token)
    requires at <= |ts|
    ensures SoundList(ts, at, CollectItems(ts, at, closer))
    decreases |ts| - at, 5
  {
    hide Spells, Yield, YieldAll, Shaped, AllShaped;
    PrecedenceSound(ts, at, 1);
    var item := ParsePrecedence(ts, at, 1);
    if item.Some? {
      YieldOfOne(item.value.tree);
      ShapedCons(item.value.tree, []);
    }
    if item.Some? && Is(ts, item.value.at, Comma) && !Is(ts, item.value.at + 1, closer) {
      ItemsSound(ts, item.value.at + 1, closer);
      var rest := CollectItems(ts, item.value.at + 1, closer);
      if rest.Some? {
        ShapedCons(item.value.tree, rest.value.trees);
        ListSpells(ts, at, item.value.at, rest.value.at, item.value.tree, rest.value.trees);
      }
    }
  }

  lemma {:induction false} MoreItemsSound(ts: seq<Token>, first: Tree, start: nat, at: nat)
    requires start < at <= |ts| && Shaped(first) && Spells(ts, start, at, Yield(first))
    ensures SoundList(ts, start, ParseItems(ts, first, at))
    decreases |ts| - at, 5
  {
    hide Spells, Yield, YieldAll, Shaped, AllShaped;
    YieldOfOne(first);
    ShapedCons(first, []);
    if Is(ts, at, Comma) {
      PrecedenceSound(ts, at + 1, 1);
      var item := ParsePrecedence(ts, at + 1, 1);
      if item.Some? {
        MoreItemsSound(ts, item.value.tree, at + 1, item.value.at);
        var rest := ParseItems(ts, item.value.tree, item.value.at);
        if rest.Some? {
          ShapedCons(first, rest.value.trees);
          ListSpells(ts, start, at, rest.value.at, first, rest.value.trees);
        }
      }
    }
  }

  lemma {:induction false} ConcatenationSound(ts: seq<Token>, at: nat)
    requires 0 < at <= |ts| && Is(ts, at - 1, LBrace)
    ensures Sound(ts, at - 1, ParseConcatenation(ts, at))
    ensures var r := ParseConcatenation(ts, at); r.Some? ==> Postfix(r.value.tree)
    decreases |ts| - at, 5
  {
    hide Spells, Yield, YieldAll;
    PrecedenceSound(ts, at, 1);
    var first := ParsePrecedence(ts, at, 1);
    if first.Some? && Is(ts, first.value.at, LBrace) {
      var body := first.value.at + 1;
      SequenceSound(ts, body, RBrace);
      var items := CollectSequence(ts, body, RBrace);
      if items.Some? && Is(ts, items.value.at, RBrace) && Is(ts, items.value.at + 1, RBrace) {
        ReplicationSpells(ts, at, first.value.at, items.value.at, first.value.tree, items.value.trees);
      }
    } else if first.Some? {
      MoreItemsSound(ts, first.value.tree, at, first.value.at);
      var items := ParseItems(ts, first.value.tree, first.value.at);
      if items.Some? && Is(ts, items.value.at, RBrace) {
        ConcatenationSpells(ts, at, items.value.at, items.value.trees);
      }
    }
  }

  lemma ConcatenationSpells(ts: seq<Token>, at: nat, end: nat, xs: seq<Tree>)
    requires 0 < at <= end && Is(ts, at - 1, LBrace) && Is(ts, end, RBrace) && Spells(ts, at, end, YieldAll(xs))
    ensures Spells(ts, at - 1, end + 1, Yield(Concatenation(xs)))
  {
    hide Spells;
    SpellsOne(ts, at - 1, LBrace);
    SpellsOne(ts, end, RBrace);
    SpellsJoin(ts, at - 1, at, end, [LBrace], YieldAll(xs));
    SpellsJoin(ts, at - 1, end, end + 1, [LBrace] + YieldAll(xs), [RBrace]);
  }

  lemma CallSpells(ts: seq<Token>, start: nat, at: nat, end: nat, f: Tree, xs: seq<Tree>)
    requires at < end && Is(ts, at, LParen) && Is(ts, end, RParen)
    requires Spells(ts, start, at, Yield(f)) && Spells(ts, at + 1, end, YieldAll(xs))
    ensures Spells(ts, start, end + 1, Yield(Call(f, xs)))
  {
    hide Spells;
    SpellsOne(ts, at, LParen);
    SpellsOne(ts, end, RParen);
    SpellsJoin(ts, start, at, at + 1, Yield(f), [LParen]);
    SpellsJoin(ts, start, at + 1, end, Yield(f) + [LParen], YieldAll(xs));
    SpellsJoin(ts, start, end, end + 1, Yield(f) + [LParen] + YieldAll(xs), [RParen]);
  }

  lemma ReplicationSpells(ts: seq<Token>, at: nat, brace: nat, end: nat, n: Tree, xs: seq<Tree>)
    requires 0 < at <= brace < end && Is(ts, at - 1, LBrace) && Is(ts, brace, LBrace)
    requires Is(ts, end, RBrace) && Is(ts, end + 1, RBrace)
    requires Spells(ts, at, brace, Yield(n)) && Spells(ts, brace + 1, end, YieldAll(xs))
    ensures Spells(ts, at - 1, end + 2, Yield(Replication(n, xs)))
  {
    SpellsOne(ts, at - 1, LBrace);
    SpellsOne(ts, brace, LBrace);
    SpellsOne(ts, end, RBrace);
    SpellsOne(ts, end + 1, RBrace);
    hide Spells;
    SpellsJoin(ts, at - 1, at, brace, [LBrace], Yield(n));
    SpellsJoin(ts, at - 1, brace, brace + 1, [LBrace] + Yield(n), [LBrace]);
    SpellsJoin(ts, at - 1, brace + 1, end, [LBrace] + Yield(n) + [LBrace], YieldAll(xs));
    var body := [LBrace] + Yield(n) + [LBrace] + YieldAll(xs);
    SpellsJoin(ts, at - 1, end, end + 1, body, [RBrace]);
    SpellsJoin(ts, at - 1, end + 1, end + 2, body + [RBrace], [RBrace]);
  }

  lemma GroupSpelt(ts: seq<Token>, at: nat, close: nat, x: Tree)
    requires Is(ts, at, LParen) && Is(ts, close, RParen) && Spells(ts, at + 1, close, Yield(x))
    ensures Spells(ts, at, close + 1, Yield(Group(x)))
  {
    hide Spells;
    SpellsOne(ts, at, LParen);
    SpellsOne(ts, close, RParen);
    SpellsJoin(ts, at, at + 1, close, [LParen], Yield(x));
    SpellsJoin(ts, at, close, close + 1, [LParen] + Yield(x), [RParen]);
  }

  lemma {:induction false} PrimarySound(ts: seq<Token>, at: nat)
    ensures Sound(ts, at, ParsePrimary(ts, at))
    ensures var r := ParsePrimary(ts, at); r.Some? ==> Postfix(r.value.tree)
    decreases |ts| - at, 1
  {
    hide Spells;
    if at < |ts| {
      match ts[at]
      case LParen =>
        PrecedenceSound(ts, at + 1, 1);
        var inner := ParsePrecedence(ts, at + 1, 1);
        if inner.Some? && Is(ts, inner.value.at, RParen) {
          GroupSpelt(ts, at, inner.value.at, inner.value.tree);
        }
      case LBrace => ConcatenationSound(ts, at + 1);
      case Number(n) => SpellsOne(ts, at, Number(n));
      case Ident(n) => SpellsOne(ts, at, Ident(n));
      case _ =>
    }
  }
}
