/** Precedence climbing as a function of the tokens: it accepts exactly the yields of well-shaped trees. */
module Parsing {
  import opened Options
  import opened Syntax

  datatype Parsed = Parsed(tree: Tree, at: nat)
  datatype Several = Several(trees: seq<Tree>, at: nat)

  predicate Is(ts: seq<Token>, at: nat, t: Token) { at < |ts| && ts[at] == t }

  function UnaryHere(ts: seq<Token>, at: nat): Option<UnaryOp> {
    if at < |ts| && ts[at].Op? then UnaryAt(ts[at].symbol) else None
  }

  function BinaryHere(ts: seq<Token>, at: nat): Option<BinaryOp> {
    if at < |ts| && ts[at].Op? then BinaryAt(ts[at].symbol) else None
  }

  function ParsePrecedence(ts: seq<Token>, at: nat, minimum: nat): (r: Option<Parsed>)
    ensures r.Some? ==> at < r.value.at <= |ts|
    decreases |ts| - at, 4
  {
    var left := ParsePrefix(ts, at);
    if left.None? then None else Climb(ts, left.value.tree, left.value.at, minimum)
  }

  /** Extends `left` while operators of at least the minimum precedence follow. */
  function Climb(ts: seq<Token>, left: Tree, at: nat, minimum: nat): (r: Option<Parsed>)
    requires at <= |ts|
    ensures r.Some? ==> at <= r.value.at <= |ts|
    decreases |ts| - at, 5
  {
    var op := BinaryHere(ts, at);
    if op.Some? && minimum <= Precedence(op.value) then
      var right := ParsePrecedence(ts, at + 1, RightMinimum(op.value));
      if right.None? then None else Climb(ts, Binary(op.value, left, right.value.tree), right.value.at, minimum)
    else if minimum <= 1 && Is(ts, at, Question) then
      var whenTrue := ParsePrecedence(ts, at + 1, 1);
      if whenTrue.None? || !Is(ts, whenTrue.value.at, Colon) then None
      else
        var whenFalse := ParsePrecedence(ts, whenTrue.value.at + 1, 1);
        if whenFalse.None? then None
        else Climb(ts, Conditional(left, whenTrue.value.tree, whenFalse.value.tree), whenFalse.value.at, minimum)
    else Some(Parsed(left, at))
  }

  function ParsePrefix(ts: seq<Token>, at: nat): (r: Option<Parsed>)
    ensures r.Some? ==> at < r.value.at <= |ts|
    decreases |ts| - at, 3
  {
    var op := UnaryHere(ts, at);
    if op.Some? then
      var operand := ParsePrefix(ts, at + 1);
      if operand.None? then None else Some(Parsed(Unary(op.value, operand.value.tree), operand.value.at))
    else ParsePostfix(ts, at)
  }

  function ParsePostfix(ts: seq<Token>, at: nat): (r: Option<Parsed>)
    ensures r.Some? ==> at < r.value.at <= |ts|
    decreases |ts| - at, 2
  {
    var base := ParsePrimary(ts, at);
    if base.None? then None else ParseCalls(ts, base.value.tree, base.value.at)
  }

  function ParseCalls(ts: seq<Token>, base: Tree, at: nat): (r: Option<Parsed>)
    requires at <= |ts|
    ensures r.Some? ==> at <= r.value.at <= |ts|
    decreases |ts| - at, 5
  {
    if !Is(ts, at, LParen) then Some(Parsed(base, at))
    else
      var arguments := CollectSequence(ts, at + 1, RParen);
      if arguments.None? || !Is(ts, arguments.value.at, RParen) then None
      else ParseCalls(ts, Call(base, arguments.value.trees), arguments.value.at + 1)
  }

  /** A possibly empty comma-separated list up to, but not including, the closer. */
  function CollectSequence(ts: seq<Token>, at: nat, closer: Token): (r: Option<Several>)
    requires at <= |ts|
    ensures r.Some? ==> at <= r.value.at <= |ts|
    decreases |ts| - at, 6
  {
    if Is(ts, at, closer) then Some(Several([], at)) else CollectItems(ts, at, closer)
  }

  function CollectItems(ts: seq<Token>, at: nat, closer: Token): (r: Option<Several>)
    requires at <= |ts|
    ensures r.Some? ==> at < r.value.at <= |ts| && r.value.trees != []
    decreases |ts| - at, 5
  {
    var item := ParsePrecedence(ts, at, 1);
    if item.None? then None
    else if !Is(ts, item.value.at, Comma) then Some(Several([item.value.tree], item.value.at))
    else if Is(ts, item.value.at + 1, closer) then None
    else
      var rest := CollectItems(ts, item.value.at + 1, closer);
      if rest.None? then None else Some(Several([item.value.tree] + rest.value.trees, rest.value.at))
  }

  /** The items of a concatenation, of which there is at least one. */
  function ParseItems(ts: seq<Token>, first: Tree, at: nat): (r: Option<Several>)
    requires at <= |ts|
    ensures r.Some? ==> at <= r.value.at <= |ts| && r.value.trees != []
    decreases |ts| - at, 5
  {
    if !Is(ts, at, Comma) then Some(Several([first], at))
    else
      var item := ParsePrecedence(ts, at + 1, 1);
      if item.None? then None
      else
        var rest := ParseItems(ts, item.value.tree, item.value.at);
        if rest.None? then None else Some(Several([first] + rest.value.trees, rest.value.at))
  }

  /** From just after the opening brace. */
  function ParseConcatenation(ts: seq<Token>, at: nat): (r: Option<Parsed>)
    requires at <= |ts|
    ensures r.Some? ==> at < r.value.at <= |ts|
    decreases |ts| - at, 5
  {
    if at >= |ts| || Is(ts, at, RBrace) then None
    else
      var first := ParsePrecedence(ts, at, 1);
      if first.None? then None
      else if Is(ts, first.value.at, LBrace) then
        var items := CollectSequence(ts, first.value.at + 1, RBrace);
        if items.None? || items.value.trees == [] || !Is(ts, items.value.at, RBrace) ||
           !Is(ts, items.value.at + 1, RBrace) then None
        else Some(Parsed(Replication(first.value.tree, items.value.trees), items.value.at + 2))
      else
        var items := ParseItems(ts, first.value.tree, first.value.at);
        if items.None? || !Is(ts, items.value.at, RBrace) then None
        else Some(Parsed(Concatenation(items.value.trees), items.value.at + 1))
  }

  function ParsePrimary(ts: seq<Token>, at: nat): (r: Option<Parsed>)
    ensures r.Some? ==> at < r.value.at <= |ts|
    decreases |ts| - at, 1
  {
    if at >= |ts| then None
    else
      match ts[at]
      case LParen =>
        var inner := ParsePrecedence(ts, at + 1, 1);
        if inner.None? || !Is(ts, inner.value.at, RParen) then None
        else Some(Parsed(Group(inner.value.tree), inner.value.at + 1))
      case LBrace => ParseConcatenation(ts, at + 1)
      case Number(n) => Some(Parsed(Literal(n), at + 1))
      case Ident(n) => Some(Parsed(Name(n), at + 1))
      case _ => None
  }

  /** The whole of `ts` is one expression. */
  function Parse(ts: seq<Token>): Option<Tree> {
    var r := ParsePrecedence(ts, 0, 1);
    if r.Some? && r.value.at == |ts| then Some(r.value.tree) else None
  }
}
