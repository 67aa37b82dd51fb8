/** Every well-shaped tree is what the parser finds in the tokens that spell it. */
module ParseComplete {
  import opened Options
  import opened Syntax
  import opened Parsing
  import opened ParseSound

  lemma SpellsSplit(ts: seq<Token>, at: nat, end: nat, x: seq<Token>, y: seq<Token>)
    requires Spells(ts, at, end, x + y)
    ensures Spells(ts, at, at + |x|, x) && Spells(ts, at + |x|, end, y)
  {
    forall i | 0 <= i < |x|
      ensures Respell(ts[at + i]) == x[i]
    {
      assert (x + y)[i] == x[i];
    }
    forall i | 0 <= i < |y|
      ensures Respell(ts[at + |x| + i]) == y[i]
    {
      assert (x + y)[|x| + i] == y[i];
    }
  }

  lemma SpeltAt(ts: seq<Token>, at: nat, end: nat, t: Token)
    requires Spells(ts, at, end, [t])
    ensures end == at + 1 && at < |ts| && Respell(ts[at]) == t
  {
    assert Respell(ts[at + 0]) == [t][0];
  }

  lemma SplitAround(ts: seq<Token>, at: nat, end: nat, x: seq<Token>, t: Token, y: seq<Token>)
    requires Spells(ts, at, end, x + [t] + y)
    ensures Spells(ts, at, at + |x|, x) && Spells(ts, at + |x| + 1, end, y)
    ensures at + |x| < |ts| && Respell(ts[at + |x|]) == t
  {
    hide Spells;
    SpellsSplit(ts, at, end, x + [t], y);
    SpellsSplit(ts, at, at + |x| + 1, x, [t]);
    SpeltAt(ts, at + |x|, at + |x| + 1, t);
  }

  /** A list in brackets. */
  lemma SplitInside(ts: seq<Token>, at: nat, end: nat, open: Token, x: seq<Token>, close: Token)
    requires Spells(ts, at, end, [open] + x + [close])
    ensures at + |x| + 2 == end <= |ts| && Spells(ts, at + 1, end - 1, x)
    ensures Respell(ts[at]) == open && Respell(ts[end - 1]) == close
  {
    SpellsSplit(ts, at, end, [open] + x, [close]);
    SpellsSplit(ts, at, at + 1 + |x|, [open], x);
    SpeltAt(ts, at, at + 1, open);
    SpeltAt(ts, at + 1 + |x|, end, close);
  }

  predicate IsOperand(t: Token) { t.Ident? || t.Number? || t.LParen? || t.LBrace? }

  predicate Opens(t: Token) { IsOperand(t) || (t.Op? && UnaryAt(t.symbol).Some?) }

  /** An expression never starts with a closing or separating token. */
  lemma {:induction false} FirstToken(t: Tree)
    requires Shaped(t)
    ensures Opens(Yield(t)[0]) && (Postfix(t) ==> IsOperand(Yield(t)[0]))
  {
    match t
    case Binary(_, l, _) => FirstToken(l);
    case Conditional(c, _, _) => FirstToken(c);
    case Call(f, _) => FirstToken(f);
    case _ =>
  }

  lemma FirstSpelt(ts: seq<Token>, at: nat, end: nat, t: Tree)
    requires Shaped(t) && Spells(ts, at, end, Yield(t))
    ensures at < end <= |ts| && Opens(ts[at]) && (Postfix(t) ==> IsOperand(ts[at]))
  {
    FirstToken(t);
    assert Respell(ts[at + 0]) == Yield(t)[0];
  }

  /** Parsing reaches the state in which the whole of the tree is the left operand. */
  lemma {:induction false} PrecedenceComplete(ts: seq<Token>, at: nat, end: nat, t: Tree, minimum: nat)
    requires Shaped(t) && Fits(t, minimum) && Spells(ts, at, end, Yield(t)) && Closed(ts, end, t) && !Is(ts, end, LParen)
    ensures ParsePrecedence(ts, at, minimum) == Climb(ts, t, end, minimum)
    decreases t, 4
  {
    hide Spells;
    match t
    case Binary(op, l, r) => BinaryComplete(ts, at, end, op, l, r, minimum);
    case Conditional(c, x, y) => ConditionalComplete(ts, at, end, c, x, y, minimum);
    case _ => PrefixComplete(ts, at, end, t);
  }

  /** Before a token that stops the climb, parsing returns the tree. */
  lemma {:induction false} WholeComplete(ts: seq<Token>, at: nat, end: nat, t: Tree, minimum: nat)
    requires Shaped(t) && Fits(t, minimum) && Spells(ts, at, end, Yield(t)) && Closed(ts, end, t) && !Is(ts, end, LParen)
    requires Stops(ts, end, minimum)
    ensures ParsePrecedence(ts, at, minimum) == Some(Parsed(t, end))
    decreases t, 5
  {
    hide Spells;
    PrecedenceComplete(ts, at, end, t, minimum);
  }

  /** The parts of a binary expression, and why the parser stops where they end. */
  lemma BinarySplit(ts: seq<Token>, at: nat, end: nat, op: BinaryOp, l: Tree, r: Tree)
    requires var t := Binary(op, l, r); Shaped(t) && Spells(ts, at, end, Yield(t)) && Closed(ts, end, t)
    ensures var mid := at + |Yield(l)|;
            && BinaryHere(ts, mid) == Some(op) && Spells(ts, at, mid, Yield(l)) && Spells(ts, mid + 1, end, Yield(r))
            && Closed(ts, mid, l) && Closed(ts, end, r) && Stops(ts, end, RightMinimum(op))
  {
    hide Spells;
    var mid := at + |Yield(l)|;
    SplitAround(ts, at, end, Yield(l), Op(BinaryText(op)), Yield(r));
    BinaryReadsText(ts[mid].symbol, op);
  }

  lemma {:induction false} BinaryComplete(ts: seq<Token>, at: nat, end: nat, op: BinaryOp, l: Tree, r: Tree, minimum: nat)
    requires var t := Binary(op, l, r);
             Shaped(t) && Fits(t, minimum) && Spells(ts, at, end, Yield(t)) && Closed(ts, end, t) && !Is(ts, end, LParen)
    ensures ParsePrecedence(ts, at, minimum) == Climb(ts, Binary(op, l, r), end, minimum)
    decreases Binary(op, l, r), 3
  {
    hide Spells, Yield, ParsePrecedence, Climb, Closed, Stops, RightMinimum;
    var mid := at + |Yield(l)|;
    BinarySplit(ts, at, end, op, l, r);
    LeftAccepts(op, l, minimum);
    PrecedenceComplete(ts, at, mid, l, minimum);
    WholeComplete(ts, mid + 1, end, r, RightMinimum(op));
    ClimbsBinary(ts, l, mid, op, r, end, minimum);
  }

  lemma ClimbsBinary(ts: seq<Token>, l: Tree, at: nat, op: BinaryOp, r: Tree, end: nat, minimum: nat)
    requires BinaryHere(ts, at) == Some(op) && minimum <= Precedence(op) && end <= |ts|
    requires ParsePrecedence(ts, at + 1, RightMinimum(op)) == Some(Parsed(r, end))
    ensures Climb(ts, l, at, minimum) == Climb(ts, Binary(op, l, r), end, minimum)
  {
    hide ParsePrecedence, RightMinimum;
  }

  lemma ClimbsConditional(ts: seq<Token>, c: Tree, at: nat, x: Tree, colon: nat, y: Tree, end: nat, minimum: nat)
    requires minimum <= 1 && Is(ts, at, Question) && Is(ts, colon, Colon) && end <= |ts|
    requires ParsePrecedence(ts, at + 1, 1) == Some(Parsed(x, colon))
    requires ParsePrecedence(ts, colon + 1, 1) == Some(Parsed(y, end))
    ensures Climb(ts, c, at, minimum) == Climb(ts, Conditional(c, x, y), end, minimum)
  {
    hide ParsePrecedence, RightMinimum;
  }

  /** The left operand binds at least as tightly as the operator after it. */
  lemma LeftAccepts(op: BinaryOp, l: Tree, minimum: nat)
    requires LeftFits(l, op) && minimum <= Precedence(op)
    ensures Fits(l, minimum)
  {
  }

  lemma ConditionalSplit(ts: seq<Token>, at: nat, end: nat, c: Tree, x: Tree, y: Tree)
    requires Spells(ts, at, end, Yield(Conditional(c, x, y)))
    ensures var question := at + |Yield(c)|;
            var colon := question + 1 + |Yield(x)|;
            && colon < |ts| && Is(ts, question, Question) && Is(ts, colon, Colon) && Spells(ts, at, question, Yield(c))
            && Spells(ts, question + 1, colon, Yield(x)) && Spells(ts, colon + 1, end, Yield(y))
  {
    hide Spells;
    SplitAround(ts, at, end, Yield(c) + [Question] + Yield(x), Colon, Yield(y));
    SplitAround(ts, at, at + |Yield(c)| + 1 + |Yield(x)|, Yield(c), Question, Yield(x));
  }

  lemma {:induction false} ConditionalComplete(ts: seq<Token>, at: nat, end: nat, c: Tree, x: Tree, y: Tree, minimum: nat)
    requires var t := Conditional(c, x, y);
             Shaped(t) && Fits(t, minimum) && Spells(ts, at, end, Yield(t)) && Closed(ts, end, t) && !Is(ts, end, LParen)
    ensures ParsePrecedence(ts, at, minimum) == Climb(ts, Conditional(c, x, y), end, minimum)
    decreases Conditional(c, x, y), 3
  {
    var question := at + |Yield(c)|;
    var colon := question + 1 + |Yield(x)|;
    hide Spells, Yield, ParsePrecedence, Climb;
    ConditionalSplit(ts, at, end, c, x, y);
    PrecedenceComplete(ts, at, question, c, minimum);
    WholeComplete(ts, question + 1, colon, x, 1);
    WholeComplete(ts, colon + 1, end, y, 1);
    ClimbsConditional(ts, c, question, x, colon, y, end, minimum);
  }

  lemma {:induction false} PrefixComplete(ts: seq<Token>, at: nat, end: nat, t: Tree)
    requires Shaped(t) && !t.Binary? && !t.Conditional? && Spells(ts, at, end, Yield(t)) && !Is(ts, end, LParen)
    ensures ParsePrefix(ts, at) == Some(Parsed(t, end))
    decreases t, 3
  {
    if t.Unary? {
      SpellsSplit(ts, at, end, [Op(UnaryText(t.unary))], Yield(t.operand));
      SpeltAt(ts, at, at + 1, Op(UnaryText(t.unary)));
      UnaryReadsText(ts[at].symbol, t.unary);
      hide Spells;
      PrefixComplete(ts, at + 1, end, t.operand);
    } else {
      FirstSpelt(ts, at, end, t);
      PostfixComplete(ts, at, end, t);
    }
  }

  lemma CallSplit(ts: seq<Token>, at: nat, end: nat, f: Tree, xs: seq<Tree>)
    requires Spells(ts, at, end, Yield(Call(f, xs)))
    ensures var open := at + |Yield(f)|;
            && open + 1 < end && Is(ts, open, LParen) && Is(ts, end - 1, RParen)
            && Spells(ts, at, open, Yield(f)) && Spells(ts, open + 1, end - 1, YieldAll(xs))
  {
    hide Spells, YieldAll;
    SpellsSplit(ts, at, end, Yield(f) + [LParen] + YieldAll(xs), [RParen]);
    SpeltAt(ts, end - 1, end, RParen);
    SplitAround(ts, at, end - 1, Yield(f), LParen, YieldAll(xs));
  }

  lemma {:induction false} PostfixComplete(ts: seq<Token>, at: nat, end: nat, t: Tree)
    requires Shaped(t) && Postfix(t) && Spells(ts, at, end, Yield(t))
    ensures ParsePostfix(ts, at) == ParseCalls(ts, t, end)
    decreases t, 2
  {
    hide Spells, Yield, YieldAll;
    if t.Call? {
      var f, xs := t.callee, t.items;
      var open := at + |Yield(f)|;
      CallSplit(ts, at, end, f, xs);
      PostfixComplete(ts, at, open, f);
      SequenceComplete(ts, open + 1, end - 1, xs, RParen);
    } else {
      PrimaryComplete(ts, at, end, t);
    }
  }

  lemma {:induction false} PrimaryComplete(ts: seq<Token>, at: nat, end: nat, t: Tree)
    requires Shaped(t) && Postfix(t) && !t.Call? && Spells(ts, at, end, Yield(t))
    ensures ParsePrimary(ts, at) == Some(Parsed(t, end))
    decreases t, 1
  {
    hide Spells, YieldAll;
    match t
    case Name(n) => SpeltAt(ts, at, end, Ident(n));
    case Literal(n) => SpeltAt(ts, at, end, Number(n));
    case Group(x) =>
      SplitInside(ts, at, end, LParen, Yield(x), RParen);
      hide Yield;
      WholeComplete(ts, at + 1, end - 1, x, 1);
    case Concatenation(xs) =>
      SplitInside(ts, at, end, LBrace, YieldAll(xs), RBrace);
      ConcatenationComplete(ts, at + 1, end - 1, xs);
    case Replication(n, xs) => ReplicationComplete(ts, at, end, n, xs);
  }

  lemma BracesSplit(ts: seq<Token>, at: nat, end: nat, x: seq<Token>, y: seq<Token>)
    requires Spells(ts, at, end, [LBrace] + x + [LBrace] + y + [RBrace] + [RBrace])
    ensures var brace := at + 1 + |x|;
            && brace + 2 < end && Is(ts, at, LBrace) && Is(ts, brace, LBrace) && Is(ts, end - 2, RBrace)
            && Is(ts, end - 1, RBrace) && Spells(ts, at + 1, brace, x) && Spells(ts, brace + 1, end - 2, y)
  {
    hide Spells;
    var body := [LBrace] + x + [LBrace] + y;
    SpellsSplit(ts, at, end, body + [RBrace], [RBrace]);
    SpeltAt(ts, end - 1, end, RBrace);
    SpellsSplit(ts, at, end - 1, body, [RBrace]);
    SpeltAt(ts, end - 2, end - 1, RBrace);
    SplitAround(ts, at, end - 2, [LBrace] + x, LBrace, y);
    SpellsSplit(ts, at, at + 1 + |x|, [LBrace], x);
    SpeltAt(ts, at, at + 1, LBrace);
  }

  lemma ReplicationSplit(ts: seq<Token>, at: nat, end: nat, n: Tree, xs: seq<Tree>)
    requires Spells(ts, at, end, Yield(Replication(n, xs)))
    ensures var brace := at + 1 + |Yield(n)|;
            && brace + 2 < end && Is(ts, at, LBrace) && Is(ts, brace, LBrace) && Is(ts, end - 2, RBrace)
            && Is(ts, end - 1, RBrace) && Spells(ts, at + 1, brace, Yield(n)) && Spells(ts, brace + 1, end - 2, YieldAll(xs))
  {
    YieldOfReplication(n, xs);
    hide *;
    BracesSplit(ts, at, end, Yield(n), YieldAll(xs));
  }

  lemma YieldOfReplication(n: Tree, xs: seq<Tree>)
    ensures Yield(Replication(n, xs)) == [LBrace] + Yield(n) + [LBrace] + YieldAll(xs) + [RBrace] + [RBrace]
  {
  }

  lemma {:induction false} ReplicationComplete(ts: seq<Token>, at: nat, end: nat, n: Tree, xs: seq<Tree>)
    requires Shaped(Replication(n, xs)) && Spells(ts, at, end, Yield(Replication(n, xs)))
    ensures ParsePrimary(ts, at) == Some(Parsed(Replication(n, xs), end))
    decreases Replication(n, xs), 0
  {
    var brace := at + 1 + |Yield(n)|;
    hide *;
    ReplicationShaped(n, xs);
    ReplicationSplit(ts, at, end, n, xs);
    BraceAfter(ts, at + 1, brace, n);
    WholeComplete(ts, at + 1, brace, n, 1);
    SequenceComplete(ts, brace + 1, end - 2, xs, RBrace);
    ReplicationParsed(ts, at, brace, end, n, xs);
  }

  lemma ReplicationShaped(n: Tree, xs: seq<Tree>)
    requires Shaped(Replication(n, xs))
    ensures Shaped(n) && Fits(n, 1) && xs != [] && AllShaped(xs)
  {
  }

  /** A brace after a tree ends it. */
  lemma BraceAfter(ts: seq<Token>, at: nat, brace: nat, n: Tree)
    requires Shaped(n) && Spells(ts, at, brace, Yield(n)) && Is(ts, brace, LBrace)
    ensures !Is(ts, at, RBrace) && Stops(ts, brace, 1) && Closed(ts, brace, n) && !Is(ts, brace, LParen)
  {
    hide Spells, Shaped, Yield;
    FirstSpelt(ts, at, brace, n);
  }

  lemma ReplicationParsed(ts: seq<Token>, at: nat, brace: nat, end: nat, n: Tree, xs: seq<Tree>)
    requires Is(ts, at, LBrace) && !Is(ts, at + 1, RBrace) && ParsePrecedence(ts, at + 1, 1) == Some(Parsed(n, brace))
    requires end >= 2 && xs != []
    requires Is(ts, brace, LBrace) && CollectSequence(ts, brace + 1, RBrace) == Some(Several(xs, end - 2))
    requires Is(ts, end - 2, RBrace) && Is(ts, end - 1, RBrace)
    ensures ParsePrimary(ts, at) == Some(Parsed(Replication(n, xs), end))
  {
    hide ParsePrecedence, CollectSequence;
  }

  lemma {:induction false} ConcatenationComplete(ts: seq<Token>, at: nat, end: nat, xs: seq<Tree>)
    requires xs != [] && AllShaped(xs) && Spells(ts, at, end, YieldAll(xs)) && Is(ts, end, RBrace)
    ensures ParseConcatenation(ts, at) == Some(Parsed(Concatenation(xs), end + 1))
    decreases xs, 4
  {
    hide Spells, Yield, YieldAll, Shaped, AllShaped, ParsePrecedence;
    ShapedHead(xs);
    ListSplit(ts, at, end, xs);
    var mid := at + |Yield(xs[0])|;
    FirstSpelt(ts, at, mid, xs[0]);
    WholeComplete(ts, at, mid, xs[0], 1);
    MoreItemsComplete(ts, at, end, xs);
  }

  /** After the first item comes a comma and the rest of the list, or the end. */
  lemma ListSplit(ts: seq<Token>, at: nat, end: nat, xs: seq<Tree>)
    requires xs != [] && Spells(ts, at, end, YieldAll(xs))
    ensures Spells(ts, at, at + |Yield(xs[0])|, Yield(xs[0]))
    ensures |xs| == 1 ==> at + |Yield(xs[0])| == end
    ensures |xs| > 1 ==> Is(ts, at + |Yield(xs[0])|, Comma) && Spells(ts, at + |Yield(xs[0])| + 1, end, YieldAll(xs[1..]))
  {
    var first, all := Yield(xs[0]), YieldAll(xs);
    if |xs| > 1 {
      var rest := YieldAll(xs[1..]);
      assert all == first + [Comma] + rest;
      hide Yield, YieldAll, Spells;
      SplitAround(ts, at, end, first, Comma, rest);
    }
  }

  lemma ShapedHead(xs: seq<Tree>)
    requires xs != [] && AllShaped(xs)
    ensures Shaped(xs[0]) && AllShaped(xs[1..])
  {
  }

  lemma {:induction false} MoreItemsComplete(ts: seq<Token>, at: nat, end: nat, xs: seq<Tree>)
    requires xs != [] && AllShaped(xs) && Spells(ts, at, end, YieldAll(xs)) && Is(ts, end, RBrace)
    ensures ParseItems(ts, xs[0], at + |Yield(xs[0])|) == Some(Several(xs, end))
    decreases xs, 3
  {
    hide Spells, Yield, YieldAll, Shaped, AllShaped, ParsePrecedence;
    ShapedHead(xs);
    ListSplit(ts, at, end, xs);
    var mid := at + |Yield(xs[0])|;
    if |xs| > 1 {
      var rest := xs[1..];
      ListSplit(ts, mid + 1, end, rest);
      ShapedHead(rest);
      WholeComplete(ts, mid + 1, mid + 1 + |Yield(rest[0])|, rest[0], 1);
      MoreItemsComplete(ts, mid + 1, end, rest);
      assert [xs[0]] + rest == xs;
    } else {
      assert [xs[0]] == xs;
    }
  }

  lemma {:induction false} SequenceComplete(ts: seq<Token>, at: nat, end: nat, xs: seq<Tree>, closer: Token)
    requires AllShaped(xs) && Spells(ts, at, end, YieldAll(xs)) && Is(ts, end, closer) && (closer.RParen? || closer.RBrace?)
    ensures CollectSequence(ts, at, closer) == Some(Several(xs, end))
    decreases xs, 4
  {
    if xs != [] {
      ListSplit(ts, at, end, xs);
      FirstSpelt(ts, at, at + |Yield(xs[0])|, xs[0]);
      ItemsComplete(ts, at, end, xs, closer);
    }
  }

  lemma {:induction false} ItemsComplete(ts: seq<Token>, at: nat, end: nat, xs: seq<Tree>, closer: Token)
    requires xs != [] && AllShaped(xs) && Spells(ts, at, end, YieldAll(xs))
    requires Is(ts, end, closer) && (closer.RParen? || closer.RBrace?)
    ensures CollectItems(ts, at, closer) == Some(Several(xs, end))
    decreases xs, 3
  {
    hide Spells, Yield, YieldAll, Shaped, AllShaped, ParsePrecedence;
    ShapedHead(xs);
    ListSplit(ts, at, end, xs);
    var mid := at + |Yield(xs[0])|;
    if |xs| > 1 {
      var rest := xs[1..];
      ListSplit(ts, mid + 1, end, rest);
      ShapedHead(rest);
      FirstSpelt(ts, mid + 1, mid + 1 + |Yield(rest[0])|, rest[0]);
      WholeComplete(ts, at, mid, xs[0], 1);
      ItemsComplete(ts, mid + 1, end, rest, closer);
      assert [xs[0]] + rest == xs;
    } else {
      WholeComplete(ts, at, mid, xs[0], 1);
      assert [xs[0]] == xs;
    }
  }

  /**
   * The parser accepts exactly the spellings of well-shaped trees, and finds the tree that was spelt: the grammar is
   * unambiguous and precedence climbing decides it.
   */
  lemma ParsesExactly(ts: seq<Token>, t: Tree)
    ensures Parse(ts) == Some(t) <==> Shaped(t) && Spells(ts, 0, |ts|, Yield(t))
  {
    if Parse(ts) == Some(t) {
      PrecedenceSound(ts, 0, 1);
    }
    if Shaped(t) && Spells(ts, 0, |ts|, Yield(t)) {
      WholeComplete(ts, 0, |ts|, t, 1);
    }
  }
}
