/** The characters printed for a tree, and the tokens read from them: operators printed without a space can fuse. */
module PrintedText {
  import opened Syntax
  import opened Lexing
  import opened Decorations

  function Text(t: Tree): string {
    match t
    case Name(n) => n
    case Literal(n) => if n < 0 then "-" + DecimalText(-n) else DecimalText(n)
    case Group(x) => "(" + Text(x) + ")"
    case Unary(op, x) => SymbolText(UnaryText(op)) + Text(x)
    case Binary(op, l, r) => Text(l) + " " + SymbolText(BinaryText(op)) + " " + Text(r)
    case Conditional(c, x, y) => Text(c) + " ? " + Text(x) + " : " + Text(y)
    case Concatenation(xs) => "{" + TextAll(xs) + "}"
    case Replication(n, xs) => "{" + Text(n) + "{" + TextAll(xs) + "}}"
    case Call(f, xs) => Text(f) + "(" + TextAll(xs) + ")"
  }

  function TextAll(xs: seq<Tree>): string {
    if xs == [] then "" else if |xs| == 1 then Text(xs[0]) else Text(xs[0]) + "," + TextAll(xs[1..])
  }

  /** Every name is an identifier. */
  predicate Readable(t: Tree) {
    match t
    case Name(n) => IsIdentifier(n)
    case Literal(_) => true
    case Group(x) => Readable(x)
    case Unary(_, x) => Readable(x)
    case Binary(_, l, r) => Readable(l) && Readable(r)
    case Conditional(c, x, y) => Readable(c) && Readable(x) && Readable(y)
    case Concatenation(xs) => forall x :: x in xs ==> Readable(x)
    case Replication(n, xs) => Readable(n) && forall x :: x in xs ==> Readable(x)
    case Call(f, xs) => Readable(f) && forall x :: x in xs ==> Readable(x)
  }

  // ----- runs of unary operators

  /** Written one after the other, the two operators are not read as themselves. */
  predicate Fuses(a: UnaryOp, b: UnaryOp) {
    match a
    case BitwiseNot => b.ReductionAnd? || b.ReductionOr? || b.ReductionXor?
    case ReductionXor => b.BitwiseNot? || b.ReductionNand? || b.ReductionNor? || b.ReductionXnor?
    case ReductionAnd => b.ReductionAnd?
    case ReductionOr => b.ReductionOr?
    case Positive => b.Positive?
    case Negate => b.Negate?
    case _ => false
  }

  ghost predicate RunUnfused(os: seq<UnaryOp>) { forall i :: 0 <= i < |os| - 1 ==> !Fuses(os[i], os[i + 1]) }

  function RunText(os: seq<UnaryOp>): string {
    if os == [] then "" else SymbolText(UnaryText(os[0])) + RunText(os[1..])
  }

  function Ops(os: seq<UnaryOp>): seq<Token> {
    if os == [] then [] else [Op(UnaryText(os[0]))] + Ops(os[1..])
  }

  /** The unary operators that the text of a tree starts with. */
  function Heads(t: Tree): seq<UnaryOp> {
    match t
    case Literal(n) => if n < 0 then [Negate] else []
    case Unary(op, x) => [op] + Heads(x)
    case Binary(_, l, _) => Heads(l)
    case Conditional(c, _, _) => Heads(c)
    case _ => []
  }

  /** No two operators of the text fuse. */
  ghost predicate Unfused(t: Tree) {
    match t
    case Name(_) => true
    case Literal(_) => true
    case Group(x) => Unfused(x)
    case Unary(op, x) => Unfused(x) && RunUnfused([op] + Heads(x))
    case Binary(_, l, r) => Unfused(l) && Unfused(r)
    case Conditional(c, x, y) => Unfused(c) && Unfused(x) && Unfused(y)
    case Concatenation(xs) => forall x :: x in xs ==> Unfused(x)
    case Replication(n, xs) => Unfused(n) && forall x :: x in xs ==> Unfused(x)
    case Call(f, xs) => Unfused(f) && forall x :: x in xs ==> Unfused(x)
  }

  lemma {:induction false} HeadsUnfused(t: Tree)
    requires Unfused(t)
    ensures RunUnfused(Heads(t))
  {
    match t
    case Binary(_, l, _) => HeadsUnfused(l);
    case Conditional(c, _, _) => HeadsUnfused(c);
    case _ =>
  }

  /** Adding one operator before the heads. */
  lemma RunExtends(os: seq<UnaryOp>, op: UnaryOp, heads: seq<UnaryOp>)
    ensures os + [op] + heads == os + ([op] + heads)
    ensures RunUnfused(os + [op] + heads) ==> RunUnfused([op] + heads)
  {
    var all, tail := os + [op] + heads, [op] + heads;
    if RunUnfused(all) {
      forall i | 0 <= i < |tail| - 1
        ensures !Fuses(tail[i], tail[i + 1])
      {
        assert all[|os| + i] == tail[i] && all[|os| + i + 1] == tail[i + 1];
      }
    }
  }

  lemma {:induction false} RunSnoc(os: seq<UnaryOp>, op: UnaryOp)
    ensures RunText(os + [op]) == RunText(os) + SymbolText(UnaryText(op))
    ensures Ops(os + [op]) == Ops(os) + [Op(UnaryText(op))]
    decreases |os|
  {
    if os == [] {
      assert [op][1..] == [];
      assert RunText([op]) == SymbolText(UnaryText(op)) + "";
    } else {
      assert (os + [op])[0] == os[0] && (os + [op])[1..] == os[1..] + [op];
      RunSnoc(os[1..], op);
    }
  }

  // ----- tokens read against tokens meant

  /** At the first difference an operator was meant and another symbol was read. */
  ghost predicate DepartsAt(read: seq<Token>, meant: seq<Token>, k: nat) {
    && k < |read| && k < |meant| && read[..k] == meant[..k]
    && meant[k].Op? && (read[k].Op? || read[k].Other?) && Respell(read[k]) != meant[k]
  }

  ghost predicate Departs(read: seq<Token>, meant: seq<Token>) { exists k: nat :: DepartsAt(read, meant, k) }

  ghost predicate Reads(read: seq<Token>, meant: seq<Token>, clean: bool) {
    if clean then read == meant else Departs(read, meant)
  }

  lemma ReadsJoin(a: seq<Token>, x: seq<Token>, p: bool, b: seq<Token>, y: seq<Token>, q: bool)
    requires Reads(a, x, p) && Reads(b, y, q)
    ensures Reads(a + b, x + y, p && q)
  {
    if !p {
      var k: nat :| DepartsAt(a, x, k);
      assert (a + b)[..k] == a[..k] && (x + y)[..k] == x[..k];
      assert DepartsAt(a + b, x + y, k);
    } else if !q {
      var k: nat :| DepartsAt(b, y, k);
      assert (a + b)[..|a| + k] == a + b[..k] && (x + y)[..|a| + k] == x + y[..k];
      assert DepartsAt(a + b, x + y, |a| + k);
    }
  }

  // ----- reading a run

  predicate IsRunChar(c: char) { c == '~' || c == '&' || c == '|' || c == '^' || c == '+' || c == '-' || c == '!' }

  /** No operator of a run reaches into these characters. */
  predicate StopsRun(s: string) { s == "" || IsWordChar(s[0]) || s[0] == '(' || s[0] == '{' }

  lemma LexStep(t: string)
    requires t != "" && !IsSpace(t[0])
    ensures Lex(t) == [FirstToken(t)] + Lex(t[TokenLength(t)..])
  {
  }

  /** The first symbol of a run ends within the run. */
  lemma RunStep(w: string, s: string)
    requires w != "" && StopsRun(s) && forall i :: 0 <= i < |w| ==> IsRunChar(w[i])
    ensures var n := TokenLength(w + s); n <= |w| && Lex(w + s) == [FirstToken(w + s)] + Lex(w[n..] + s)
  {
    var t := w + s;
    assert forall i :: 0 <= i < |w| ==> t[i] == w[i];
    assert |t| > |w| ==> t[|w|] == s[0];
    hide Lex, StopsRun, WordEnd;
    RunSymbol(t, |w|);
    var n := TokenLength(t);
    assert t[n..] == w[n..] + s;
    LexStep(t);
  }

  lemma RunSymbol(t: string, n: nat)
    requires 0 < n <= |t| && forall i :: 0 <= i < n ==> IsRunChar(t[i])
    requires |t| > n ==> IsWordChar(t[n]) || t[n] == '(' || t[n] == '{'
    ensures !IsSpace(t[0]) && TokenLength(t) == SymbolLength(t) <= n
  {
    assert SymbolLength(t) <= 2;
  }

  lemma {:induction false} SplitRun(w: string, s: string) returns (ts: seq<Token>)
    requires StopsRun(s) && forall i :: 0 <= i < |w| ==> IsRunChar(w[i])
    ensures Lex(w + s) == ts + Lex(s)
    decreases |w|
  {
    hide FirstToken, TokenLength, StopsRun, IsRunChar, Lex;
    if w == "" {
      assert w + s == s;
      ts := [];
    } else {
      RunStep(w, s);
      var n := TokenLength(w + s);
      var tail := SplitRun(w[n..], s);
      ts := [FirstToken(w + s)] + tail;
    }
  }

  lemma {:induction false} RunChars(os: seq<UnaryOp>)
    ensures forall i :: 0 <= i < |RunText(os)| ==> IsRunChar(RunText(os)[i])
  {
    if os != [] {
      RunChars(os[1..]);
    }
  }

  /** What follows an operator of a run. */
  predicate Succeeds(os: seq<UnaryOp>, u: string) {
    if os == [] then StopsRun(u)
    else u != "" && u[0] == SymbolText(UnaryText(os[0]))[0]
  }

  lemma RunSucceeds(os: seq<UnaryOp>, s: string)
    requires StopsRun(s)
    ensures Succeeds(os, RunText(os) + s)
  {
    if os == [] {
      assert RunText(os) + s == s;
    }
  }

  /** An operator is read as itself exactly when it does not fuse with the next one. */
  lemma OperatorAlone(a: UnaryOp, os: seq<UnaryOp>, u: string)
    requires Succeeds(os, u) && (os != [] ==> !Fuses(a, os[0]))
    ensures Lex(SymbolText(UnaryText(a)) + u) == [Op(UnaryText(a))] + Lex(u)
  {
    var w := SymbolText(UnaryText(a));
    var t := w + u;
    assert forall i :: 0 <= i < |w| ==> t[i] == w[i];
    assert |t| > |w| ==> t[|w|] == u[0];
    if os == [] {
      StoppedLength(a, t);
    } else {
      UnfusedLength(a, os[0], t);
    }
    SymbolReads(UnaryText(a));
    assert t[..|w|] == w && t[|w|..] == u;
  }

  lemma StoppedLength(a: UnaryOp, t: string)
    requires var w := SymbolText(UnaryText(a));
             && |t| >= |w| && (forall i :: 0 <= i < |w| ==> t[i] == w[i])
             && (|t| > |w| ==> IsWordChar(t[|w|]) || t[|w|] == '(' || t[|w|] == '{')
    ensures SymbolLength(t) == |SymbolText(UnaryText(a))| && !StartsUnread(t)
  {
  }

  lemma UnfusedLength(a: UnaryOp, b: UnaryOp, t: string)
    requires var w := SymbolText(UnaryText(a));
             && |t| > |w| && (forall i :: 0 <= i < |w| ==> t[i] == w[i]) && t[|w|] == SymbolText(UnaryText(b))[0]
    requires !Fuses(a, b)
    ensures SymbolLength(t) == |SymbolText(UnaryText(a))| && !StartsUnread(t)
  {
  }

  lemma OperatorFused(a: UnaryOp, os: seq<UnaryOp>, u: string)
    requires os != [] && Succeeds(os, u) && Fuses(a, os[0])
    ensures var t := SymbolText(UnaryText(a)) + u;
            && SymbolLength(t) == TokenLength(t) == 2 && !IsSpace(t[0])
            && (FirstToken(t).Op? || FirstToken(t).Other?) && Respell(FirstToken(t)) != Op(UnaryText(a))
  {
    var t := SymbolText(UnaryText(a)) + u;
    assert t[0] == SymbolText(UnaryText(a))[0] && t[1] == u[0];
    assert t[..2][0] == t[0] && t[..2][1] == t[1];
  }

  lemma {:induction false} LexRun(os: seq<UnaryOp>, s: string) returns (ts: seq<Token>)
    requires StopsRun(s)
    ensures Lex(RunText(os) + s) == ts + Lex(s)
    ensures Reads(ts, Ops(os), RunUnfused(os))
    decreases |os|
  {
    hide Lex, StopsRun, Fuses, RunUnfused, UnaryText, SymbolText;
    if os == [] {
      assert RunText(os) + s == s;
      assert RunUnfused([]) by {
        RunOfNone();
      }
      ts := [];
    } else {
      RunOneMore(os);
      RunSucceeds(os[1..], s);
      var u := RunText(os[1..]) + s;
      assert RunText(os) + s == SymbolText(UnaryText(os[0])) + u;
      if |os| > 1 && Fuses(os[0], os[1]) {
        ts := LexFusedRun(os, s);
      } else {
        OperatorAlone(os[0], os[1..], u);
        var tail := LexRun(os[1..], s);
        ts := [Op(UnaryText(os[0]))] + tail;
        ReadsJoin([Op(UnaryText(os[0]))], [Op(UnaryText(os[0]))], true, tail, Ops(os[1..]), RunUnfused(os[1..]));
      }
    }
  }

  lemma RunOfNone()
    ensures RunUnfused([])
  {
  }

  lemma RunOneMore(os: seq<UnaryOp>)
    requires os != []
    ensures RunUnfused(os) <==> (|os| > 1 ==> !Fuses(os[0], os[1])) && RunUnfused(os[1..])
  {
    var more := os[1..];
    assert forall i :: 0 <= i < |more| ==> more[i] == os[i + 1];
    if (|os| > 1 ==> !Fuses(os[0], os[1])) && RunUnfused(more) {
      forall i | 0 <= i < |os| - 1
        ensures !Fuses(os[i], os[i + 1])
      {
        if i > 0 {
          assert !Fuses(more[i - 1], more[i]);
        }
      }
    }
  }

  /** A run whose first two operators fuse. */
  lemma LexFusedRun(os: seq<UnaryOp>, s: string) returns (ts: seq<Token>)
    requires StopsRun(s) && |os| > 1 && Fuses(os[0], os[1])
    ensures Lex(RunText(os) + s) == ts + Lex(s)
    ensures Departs(ts, Ops(os))
  {
    hide Lex, StopsRun, IsRunChar, Fuses, UnaryText, SymbolText, FirstToken, TokenLength, SymbolLength, Succeeds, RunText, Ops;
    var t := RunText(os) + s;
    var u := RunText(os[1..]) + s;
    RunSplit(os);
    RunSucceeds(os[1..], s);
    OperatorFused(os[0], os[1..], u);
    assert t == SymbolText(UnaryText(os[0])) + u;
    RunChars(os);
    assert t[2..] == RunText(os)[2..] + s;
    var tail := SplitRun(RunText(os)[2..], s);
    LexStep(t);
    ts := [FirstToken(t)] + tail;
    assert DepartsAt(ts, Ops(os), 0);
  }

  lemma RunSplit(os: seq<UnaryOp>)
    requires os != []
    ensures RunText(os) == SymbolText(UnaryText(os[0])) + RunText(os[1..])
    ensures Ops(os) == [Op(UnaryText(os[0]))] + Ops(os[1..])
    ensures |os| > 1 ==> |RunText(os)| >= 2
  {
  }

  // ----- reading a tree

  /** What can follow an operand. */
  predicate Follows(rest: string) { rest == "" || rest[0] == ' ' || rest[0] == ')' || rest[0] == '}' || rest[0] == ',' }

  /** The tokens read from the text of a tree behind a run: those of the tree exactly if no operators fuse. */
  lemma {:induction false} LexTree(os: seq<UnaryOp>, t: Tree, rest: string) returns (ts: seq<Token>)
    requires Plain(t) && Readable(t) && Follows(rest)
    ensures Lex(RunText(os) + Text(t) + rest) == ts + Lex(rest)
    ensures Reads(ts, Ops(os) + Yield(t), RunUnfused(os + Heads(t)) && Unfused(t))
    decreases t, 1
  {
    hide Lex, Reads, RunUnfused, RunText, Ops, Follows, DecimalText, SymbolText, UnaryText;
    match t
    case Name(n) => ts := LexName(os, n, rest);
    case Literal(n) => ts := LexLiteral(os, n, rest);
    case Group(x) => ts := LexGroup(os, x, rest);
    case Unary(op, x) =>
      UnaryIs(os, op, x, rest);
      ts := LexTree(os + [op], x, rest);
    case Binary(op, l, r) => ts := LexBinary(os, op, l, r, rest);
    case Conditional(c, x, y) => ts := LexConditional(os, c, x, y, rest);
    case Concatenation(xs) => ts := LexConcatenation(os, xs, rest);
  }

  /** A unary operator is one more of the run. */
  lemma UnaryIs(os: seq<UnaryOp>, op: UnaryOp, x: Tree, rest: string)
    ensures RunText(os + [op]) + Text(x) + rest == RunText(os) + Text(Unary(op, x)) + rest
    ensures Ops(os + [op]) + Yield(x) == Ops(os) + Yield(Unary(op, x))
    ensures RunUnfused(os + [op] + Heads(x)) && Unfused(x) <==>
            RunUnfused(os + Heads(Unary(op, x))) && Unfused(Unary(op, x))
  {
    RunSnoc(os, op);
    RunExtends(os, op, Heads(x));
    hide RunUnfused, RunText, Ops, SymbolText, UnaryText;
  }

  lemma LexName(os: seq<UnaryOp>, n: string, rest: string) returns (ts: seq<Token>)
    requires IsIdentifier(n) && Follows(rest)
    ensures Lex(RunText(os) + n + rest) == ts + Lex(rest)
    ensures Reads(ts, Ops(os) + [Ident(n)], RunUnfused(os + []))
  {
    hide *;
    NameStops(n, rest);
    LexWord(n, rest);
    var run := LexRun(os, n + rest);
    assert RunText(os) + n + rest == RunText(os) + (n + rest);
    assert os + [] == os;
    ts := run + [Ident(n)];
    ReadsMore(run, Ops(os), RunUnfused(os), [Ident(n)]);
  }

  lemma NameStops(n: string, rest: string)
    requires IsIdentifier(n) && Follows(rest)
    ensures StopsRun(n + rest) && (rest != "" ==> !IsWordChar(rest[0]))
  {
    assert IsWordChar(n[0]);
  }

  lemma NumberStops(n: nat, rest: string)
    requires Follows(rest)
    ensures StopsRun(DecimalText(n) + rest) && (rest != "" ==> !InNumber(rest[0]))
  {
    DecimalReads(n);
    assert IsDigit(DecimalText(n)[0]);
  }

  lemma ReadsMore(a: seq<Token>, x: seq<Token>, p: bool, y: seq<Token>)
    requires Reads(a, x, p)
    ensures Reads(a + y, x + y, p)
  {
    ReadsJoin(a, x, p, y, y, true);
  }

  lemma LexNumber(os: seq<UnaryOp>, n: nat, rest: string) returns (ts: seq<Token>)
    requires Follows(rest)
    ensures Lex(RunText(os) + DecimalText(n) + rest) == ts + Lex(rest)
    ensures Reads(ts, Ops(os) + [Number(n)], RunUnfused(os))
  {
    hide *;
    NumberStops(n, rest);
    LexDecimal(n, rest);
    var run := LexRun(os, DecimalText(n) + rest);
    assert RunText(os) + DecimalText(n) + rest == RunText(os) + (DecimalText(n) + rest);
    ts := run + [Number(n)];
    ReadsMore(run, Ops(os), RunUnfused(os), [Number(n)]);
  }

  /** The sign of a negative literal is one more operator of the run. */
  lemma LexLiteral(os: seq<UnaryOp>, n: int, rest: string) returns (ts: seq<Token>)
    requires Follows(rest)
    ensures Lex(RunText(os) + Text(Literal(n)) + rest) == ts + Lex(rest)
    ensures Reads(ts, Ops(os) + Yield(Literal(n)), RunUnfused(os + Heads(Literal(n))))
  {
    hide *;
    if n < 0 {
      NegativeLiteral(os, n, rest);
      ts := LexNumber(os + [Negate], -n, rest);
    } else {
      PositiveLiteral(os, n);
      ts := LexNumber(os, n, rest);
    }
  }

  lemma NegativeLiteral(os: seq<UnaryOp>, n: int, rest: string)
    requires n < 0
    ensures RunText(os) + Text(Literal(n)) + rest == RunText(os + [Negate]) + DecimalText(-n) + rest
    ensures Ops(os) + Yield(Literal(n)) == Ops(os + [Negate]) + [Number(-n)]
    ensures Heads(Literal(n)) == [Negate]
  {
    RunSnoc(os, Negate);
    hide RunText, Ops, DecimalText;
  }

  lemma PositiveLiteral(os: seq<UnaryOp>, n: int)
    requires n >= 0
    ensures Text(Literal(n)) == DecimalText(n) && Yield(Literal(n)) == [Number(n)] && os + Heads(Literal(n)) == os
  {
  }

  /** A run in front of a bracket. */
  lemma LexOpened(os: seq<UnaryOp>, c: char, s: string) returns (ts: seq<Token>)
    requires c == '(' || c == '{'
    ensures Lex(RunText(os) + ([c] + s)) == ts + Lex(s)
    ensures Reads(ts, Ops(os) + [Symbol1(c)], RunUnfused(os))
  {
    assert StopsRun([c] + s);
    LexPunctuation(c, s);
    hide Lex, Reads, RunUnfused, RunText, Ops, StopsRun;
    var run := LexRun(os, [c] + s);
    ts := run + [Symbol1(c)];
    ReadsMore(run, Ops(os), RunUnfused(os), [Symbol1(c)]);
  }

  lemma {:induction false} LexGroup(os: seq<UnaryOp>, x: Tree, rest: string) returns (ts: seq<Token>)
    requires Plain(x) && Readable(x) && Follows(rest)
    ensures Lex(RunText(os) + Text(Group(x)) + rest) == ts + Lex(rest)
    ensures Reads(ts, Ops(os) + Yield(Group(x)), RunUnfused(os + []) && Unfused(x))
    decreases Group(x), 0
  {
    LexPunctuation(')', rest);
    assert Follows(")" + rest);
    GroupText(RunText(os), x, rest);
    GroupYield(Ops(os), x);
    assert Symbol1('(') == LParen && Symbol1(')') == RParen;
    hide *;
    var inner := LexAlone(x, ")" + rest);
    var open := LexOpened(os, '(', Text(x) + (")" + rest));
    assert os + [] == os;
    ts := open + inner + [RParen];
    Chain(open, inner, [RParen], Lex(rest));
    ReadsJoin(open, Ops(os) + [LParen], RunUnfused(os), inner, Yield(x), Unfused(x));
    ReadsMore(open + inner, Ops(os) + [LParen] + Yield(x), RunUnfused(os) && Unfused(x), [RParen]);
  }

  lemma Chain(a: seq<Token>, b: seq<Token>, c: seq<Token>, d: seq<Token>)
    ensures a + (b + (c + d)) == a + b + c + d
  {
  }

  lemma GroupText(run: string, x: Tree, rest: string)
    ensures run + Text(Group(x)) + rest == run + ("(" + (Text(x) + (")" + rest)))
  {
  }

  lemma GroupYield(start: seq<Token>, x: Tree)
    ensures start + [LParen] + Yield(x) + [RParen] == start + Yield(Group(x))
  {
  }

  /** A tree with no run in front of it. */
  lemma {:induction false} LexAlone(x: Tree, rest: string) returns (ts: seq<Token>)
    requires Plain(x) && Readable(x) && Follows(rest)
    ensures Lex(Text(x) + rest) == ts + Lex(rest)
    ensures Reads(ts, Yield(x), Unfused(x))
    decreases x, 2
  {
    assert RunText([]) + Text(x) + rest == Text(x) + rest;
    assert Ops([]) + Yield(x) == Yield(x);
    assert [] + Heads(x) == Heads(x);
    if Unfused(x) {
      HeadsUnfused(x);
    }
    hide Lex, Text, Yield, Heads;
    ts := LexTree([], x, rest);
  }

  lemma {:induction false} LexBinary(os: seq<UnaryOp>, op: BinaryOp, l: Tree, r: Tree, rest: string) returns (ts: seq<Token>)
    requires Plain(l) && Readable(l) && Plain(r) && Readable(r) && Follows(rest)
    ensures Lex(RunText(os) + Text(Binary(op, l, r)) + rest) == ts + Lex(rest)
    ensures Reads(ts, Ops(os) + Yield(Binary(op, l, r)), RunUnfused(os + Heads(l)) && Unfused(l) && Unfused(r))
    decreases Binary(op, l, r), 0
  {
    var s := SymbolText(BinaryText(op));
    var o := Op(BinaryText(op));
    var after := Text(r) + rest;
    assert Follows(" " + (s + " " + after));
    BinaryTextIs(RunText(os), op, l, r, rest);
    BinaryYield(Ops(os), op, l, r);
    hide *;
    var left := LexTree(os, l, " " + (s + " " + after));
    LexSpace(s + " " + after);
    LexSpaced(BinaryText(op), after);
    var right := LexAlone(r, rest);
    var clean := RunUnfused(os + Heads(l)) && Unfused(l);
    ts := left + [o] + right;
    Chain(left, [o], right, Lex(rest));
    ReadsMore(left, Ops(os) + Yield(l), clean, [o]);
    ReadsJoin(left + [o], Ops(os) + Yield(l) + [o], clean, right, Yield(r), Unfused(r));
  }

  lemma BinaryTextIs(run: string, op: BinaryOp, l: Tree, r: Tree, rest: string)
    ensures run + Text(Binary(op, l, r)) + rest
         == run + Text(l) + (" " + (SymbolText(BinaryText(op)) + " " + (Text(r) + rest)))
  {
    hide SymbolText, BinaryText;
    Spaced(run, Text(l), SymbolText(BinaryText(op)), Text(r), rest);
  }

  lemma BinaryYield(start: seq<Token>, op: BinaryOp, l: Tree, r: Tree)
    ensures start + Yield(l) + [Op(BinaryText(op))] + Yield(r) == start + Yield(Binary(op, l, r))
  {
  }

  lemma Spaced(a: string, b: string, c: string, d: string, e: string)
    ensures a + (b + " " + c + " " + d) + e == a + b + (" " + (c + " " + (d + e)))
  {
  }

  lemma {:induction false} LexConditional(os: seq<UnaryOp>, c: Tree, x: Tree, y: Tree, rest: string) returns (ts: seq<Token>)
    requires Plain(c) && Readable(c) && Plain(x) && Readable(x) && Plain(y) && Readable(y) && Follows(rest)
    ensures Lex(RunText(os) + Text(Conditional(c, x, y)) + rest) == ts + Lex(rest)
    ensures Reads(ts, Ops(os) + Yield(Conditional(c, x, y)),
                  RunUnfused(os + Heads(c)) && Unfused(c) && Unfused(x) && Unfused(y))
    decreases Conditional(c, x, y), 0
  {
    hide *;
    ColonIs(y, rest);
    QuestionIs(x, y, rest);
    ConditionalText(RunText(os), c, x, y, rest);
    ConditionalYield(Ops(os), c, x, y);
    var first := LexTree(os, c, FromQuestion(x, y, rest));
    var whenTrue := LexAlone(x, FromColon(y, rest));
    var whenFalse := LexAlone(y, rest);
    ts := first + [Question] + whenTrue + [Colon] + whenFalse;
    LongChain(first, [Question], whenTrue, [Colon], whenFalse, Lex(rest), Lex(FromQuestion(x, y, rest)),
              Lex(Text(x) + FromColon(y, rest)), Lex(FromColon(y, rest)), Lex(Text(y) + rest));
    ReadsFive(first, Ops(os) + Yield(c), RunUnfused(os + Heads(c)) && Unfused(c), Question,
              whenTrue, Yield(x), Unfused(x), Colon, whenFalse, Yield(y), Unfused(y));
  }

  function FromColon(y: Tree, rest: string): string { " " + (":" + (" " + (Text(y) + rest))) }

  function FromQuestion(x: Tree, y: Tree, rest: string): string { " " + ("?" + (" " + (Text(x) + FromColon(y, rest)))) }

  lemma ColonIs(y: Tree, rest: string)
    ensures Follows(FromColon(y, rest)) && Lex(FromColon(y, rest)) == [Colon] + Lex(Text(y) + rest)
  {
    hide Lex, Text;
    LexMark(':', Text(y) + rest);
    assert Symbol1(':') == Colon;
  }

  lemma QuestionIs(x: Tree, y: Tree, rest: string)
    ensures Follows(FromQuestion(x, y, rest))
    ensures Lex(FromQuestion(x, y, rest)) == [Question] + Lex(Text(x) + FromColon(y, rest))
  {
    hide Lex, Text, FromColon;
    LexMark('?', Text(x) + FromColon(y, rest));
    assert Symbol1('?') == Question;
  }

  lemma ReadsFive(a: seq<Token>, x: seq<Token>, p: bool, s: Token, b: seq<Token>, y: seq<Token>, q: bool, t: Token,
                  c: seq<Token>, z: seq<Token>, r: bool)
    requires Reads(a, x, p) && Reads(b, y, q) && Reads(c, z, r)
    ensures Reads(a + [s] + b + [t] + c, x + [s] + y + [t] + z, p && q && r)
  {
    hide *;
    ReadsMore(a, x, p, [s]);
    ReadsJoin(a + [s], x + [s], p, b, y, q);
    ReadsMore(a + [s] + b, x + [s] + y, p && q, [t]);
    ReadsJoin(a + [s] + b + [t], x + [s] + y + [t], p && q, c, z, r);
  }

  lemma LongChain(a: seq<Token>, b: seq<Token>, c: seq<Token>, d: seq<Token>, e: seq<Token>, f: seq<Token>,
                  afterA: seq<Token>, afterB: seq<Token>, afterC: seq<Token>, afterD: seq<Token>)
    requires afterA == b + afterB && afterB == c + afterC && afterC == d + afterD && afterD == e + f
    ensures a + afterA == a + b + c + d + e + f
  {
  }

  lemma ConditionalText(run: string, c: Tree, x: Tree, y: Tree, rest: string)
    ensures run + Text(Conditional(c, x, y)) + rest == run + Text(c) + FromQuestion(x, y, rest)
  {
    assert Text(Conditional(c, x, y)) == Text(c) + " ? " + Text(x) + " : " + Text(y);
    hide Text;
    Marked(run, Text(c), Text(x), Text(y), rest);
  }

  /** A mark between spaces. */
  lemma LexMark(c: char, s: string)
    requires c == '?' || c == ':'
    ensures Lex(" " + ([c] + (" " + s))) == [Symbol1(c)] + Lex(s)
  {
    LexSpace([c] + (" " + s));
    LexPunctuation(c, " " + s);
    LexSpace(s);
  }

  lemma Marked(a: string, b: string, c: string, d: string, e: string)
    ensures a + (b + " ? " + c + " : " + d) + e
         == a + b + (" " + ("?" + (" " + (c + (" " + (":" + (" " + (d + e))))))))
  {
  }

  lemma ConditionalYield(start: seq<Token>, c: Tree, x: Tree, y: Tree)
    ensures start + Yield(c) + [Question] + Yield(x) + [Colon] + Yield(y) == start + Yield(Conditional(c, x, y))
  {
    TokensAssociate(start, Yield(c), [Question], Yield(x), [Colon], Yield(y));
  }

  lemma TokensAssociate(s: seq<Token>, a: seq<Token>, b: seq<Token>, c: seq<Token>, d: seq<Token>, e: seq<Token>)
    ensures s + a + b + c + d + e == s + (a + b + c + d + e)
  {
  }

  lemma {:induction false} LexConcatenation(os: seq<UnaryOp>, xs: seq<Tree>, rest: string) returns (ts: seq<Token>)
    requires (forall x :: x in xs ==> Plain(x)) && (forall x :: x in xs ==> Readable(x)) && Follows(rest)
    ensures Lex(RunText(os) + Text(Concatenation(xs)) + rest) == ts + Lex(rest)
    ensures Reads(ts, Ops(os) + Yield(Concatenation(xs)), RunUnfused(os + []) && forall x :: x in xs ==> Unfused(x))
    decreases Concatenation(xs), 0
  {
    LexPunctuation('}', rest);
    assert Follows("}" + rest);
    ConcatenationText(RunText(os), xs, rest);
    ConcatenationYield(Ops(os), xs);
    assert Symbol1('{') == LBrace && Symbol1('}') == RBrace;
    hide *;
    var inner := LexItems(xs, "}" + rest);
    var open := LexOpened(os, '{', TextAll(xs) + ("}" + rest));
    assert os + [] == os;
    var clean := forall x :: x in xs ==> Unfused(x);
    ts := open + inner + [RBrace];
    Chain(open, inner, [RBrace], Lex(rest));
    ReadsJoin(open, Ops(os) + [LBrace], RunUnfused(os), inner, YieldAll(xs), clean);
    ReadsMore(open + inner, Ops(os) + [LBrace] + YieldAll(xs), RunUnfused(os) && clean, [RBrace]);
  }

  lemma ConcatenationText(run: string, xs: seq<Tree>, rest: string)
    ensures run + Text(Concatenation(xs)) + rest == run + ("{" + (TextAll(xs) + ("}" + rest)))
  {
  }

  lemma ConcatenationYield(start: seq<Token>, xs: seq<Tree>)
    ensures start + [LBrace] + YieldAll(xs) + [RBrace] == start + Yield(Concatenation(xs))
  {
  }

  lemma {:induction false} LexItems(xs: seq<Tree>, rest: string) returns (ts: seq<Token>)
    requires (forall x :: x in xs ==> Plain(x)) && (forall x :: x in xs ==> Readable(x)) && Follows(rest)
    ensures Lex(TextAll(xs) + rest) == ts + Lex(rest)
    ensures Reads(ts, YieldAll(xs), forall x :: x in xs ==> Unfused(x))
    decreases xs, 0
  {
    hide Lex, Reads, RunUnfused, Unfused, Text, Yield, Plain, Readable;
    if xs == [] {
      assert TextAll(xs) + rest == rest;
      NothingRead();
      ts := [];
    } else if |xs| == 1 {
      ts := LexAlone(xs[0], rest);
      assert (forall x :: x in xs ==> Unfused(x)) <==> Unfused(xs[0]);
    } else {
      var more := TextAll(xs[1..]) + rest;
      assert Follows("," + more);
      var first := LexAlone(xs[0], "," + more);
      LexPunctuation(',', more);
      var tail := LexItems(xs[1..], rest);
      assert TextAll(xs) + rest == Text(xs[0]) + ("," + more);
      var clean := forall x :: x in xs[1..] ==> Unfused(x);
      ts := first + [Comma] + tail;
      ReadsMore(first, Yield(xs[0]), Unfused(xs[0]), [Comma]);
      ReadsJoin(first + [Comma], Yield(xs[0]) + [Comma], Unfused(xs[0]), tail, YieldAll(xs[1..]), clean);
      assert (forall x :: x in xs ==> Unfused(x)) <==> Unfused(xs[0]) && clean by {
        assert xs == [xs[0]] + xs[1..];
      }
    }
  }

  lemma NothingRead()
    ensures Reads([], [], true)
  {
  }

  /** What is read from the text of a tree. */
  lemma TextReads(t: Tree)
    requires Plain(t) && Readable(t)
    ensures Reads(Lex(Text(t)), Yield(t), Unfused(t))
  {
    var ts := LexAlone(t, "");
    assert Text(t) + "" == Text(t);
    assert Lex("") == [];
    assert ts + [] == ts;
  }
}
