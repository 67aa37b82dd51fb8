/** The recursive parser: a position that advances, loops that extend the expression built so far, and a node arena. */
module Parser {
  import opened Options
  import opened Syntax
  import opened Parsing

  /** Nodes name their operands by smaller ids. */
  datatype Node =
    | NameNode(name: string)
    | LiteralNode(value: nat)
    | GroupNode(operand: nat)
    | UnaryNode(unary: UnaryOp, operand: nat)
    | BinaryNode(binary: BinaryOp, left: nat, right: nat)
    | ConditionalNode(condition: nat, whenTrue: nat, whenFalse: nat)
    | ConcatenationNode(items: seq<nat>)
    | ReplicationNode(count: nat, items: seq<nat>)
    | CallNode(callee: nat, items: seq<nat>)

  predicate Below(n: Node, id: nat) {
    match n
    case NameNode(_) => true
    case LiteralNode(_) => true
    case GroupNode(x) => x < id
    case UnaryNode(_, x) => x < id
    case BinaryNode(_, x, y) => x < id && y < id
    case ConditionalNode(c, x, y) => c < id && x < id && y < id
    case ConcatenationNode(xs) => forall i :: 0 <= i < |xs| ==> xs[i] < id
    case ReplicationNode(c, xs) => c < id && forall i :: 0 <= i < |xs| ==> xs[i] < id
    case CallNode(f, xs) => f < id && forall i :: 0 <= i < |xs| ==> xs[i] < id
  }

  ghost predicate NodesOk(nodes: seq<Node>) { forall i :: 0 <= i < |nodes| ==> Below(nodes[i], i) }

  /** The tree that a node stands for. */
  ghost function TreeAt(nodes: seq<Node>, id: nat): Tree
    requires NodesOk(nodes) && id < |nodes|
    decreases id, 1, 0
  {
    match nodes[id]
    case NameNode(n) => Name(n)
    case LiteralNode(n) => Literal(n)
    case GroupNode(x) => Group(TreeAt(nodes, x))
    case UnaryNode(op, x) => Unary(op, TreeAt(nodes, x))
    case BinaryNode(op, x, y) => Binary(op, TreeAt(nodes, x), TreeAt(nodes, y))
    case ConditionalNode(c, x, y) => Conditional(TreeAt(nodes, c), TreeAt(nodes, x), TreeAt(nodes, y))
    case ConcatenationNode(xs) => Concatenation(TreesAt(nodes, xs, id))
    case ReplicationNode(c, xs) => Replication(TreeAt(nodes, c), TreesAt(nodes, xs, id))
    case CallNode(f, xs) => Call(TreeAt(nodes, f), TreesAt(nodes, xs, id))
  }

  ghost function TreesAt(nodes: seq<Node>, ids: seq<nat>, bound: nat): (r: seq<Tree>)
    requires NodesOk(nodes) && bound <= |nodes| && forall i :: 0 <= i < |ids| ==> ids[i] < bound
    ensures |r| == |ids| && forall i :: 0 <= i < |ids| ==> r[i] == TreeAt(nodes, ids[i])
    decreases bound, 0, |ids|
  {
    if ids == [] then [] else [TreeAt(nodes, ids[0])] + TreesAt(nodes, ids[1..], bound)
  }

  lemma {:induction false} TreeStays(nodes: seq<Node>, more: seq<Node>, id: nat)
    requires NodesOk(nodes) && NodesOk(more) && nodes <= more && id < |nodes|
    ensures TreeAt(more, id) == TreeAt(nodes, id)
    decreases id
  {
    assert more[id] == nodes[id];
    match nodes[id]
    case NameNode(n) =>
    case LiteralNode(n) =>
    case GroupNode(x) => TreeStays(nodes, more, x);
    case UnaryNode(_, x) => TreeStays(nodes, more, x);
    case BinaryNode(_, x, y) =>
      TreeStays(nodes, more, x);
      TreeStays(nodes, more, y);
    case ConditionalNode(c, x, y) =>
      TreeStays(nodes, more, c);
      TreeStays(nodes, more, x);
      TreeStays(nodes, more, y);
    case ConcatenationNode(xs) => ItemsStay(nodes, more, xs, id);
    case ReplicationNode(c, xs) =>
      TreeStays(nodes, more, c);
      ItemsStay(nodes, more, xs, id);
    case CallNode(f, xs) =>
      TreeStays(nodes, more, f);
      ItemsStay(nodes, more, xs, id);
  }

  lemma {:induction false} ItemsStay(nodes: seq<Node>, more: seq<Node>, ids: seq<nat>, bound: nat)
    requires NodesOk(nodes) && NodesOk(more) && nodes <= more && bound <= |nodes| && forall i :: 0 <= i < |ids| ==> ids[i] < bound
    ensures TreesAt(more, ids, bound) == TreesAt(nodes, ids, bound)
    decreases bound, 0
  {
    forall i | 0 <= i < |ids|
      ensures TreeAt(more, ids[i]) == TreeAt(nodes, ids[i])
    {
      TreeStays(nodes, more, ids[i]);
    }
  }

  /** The ids stand for the trees. */
  ghost predicate Stand(nodes: seq<Node>, ids: seq<nat>, trees: seq<Tree>) {
    NodesOk(nodes) && |ids| == |trees| && forall i :: 0 <= i < |ids| ==> Stands(nodes, ids[i], trees[i])
  }

  ghost predicate Stands(nodes: seq<Node>, id: nat, tree: Tree) {
    NodesOk(nodes) && id < |nodes| && TreeAt(nodes, id) == tree
  }

  lemma StandsStays(nodes: seq<Node>, more: seq<Node>, id: nat, tree: Tree)
    requires Stands(nodes, id, tree) && nodes <= more && NodesOk(more)
    ensures Stands(more, id, tree)
  {
    TreeStays(nodes, more, id);
  }

  lemma StandStays(nodes: seq<Node>, more: seq<Node>, ids: seq<nat>, trees: seq<Tree>)
    requires Stand(nodes, ids, trees) && nodes <= more && NodesOk(more)
    ensures Stand(more, ids, trees)
  {
    forall i | 0 <= i < |ids|
      ensures Stands(more, ids[i], trees[i])
    {
      StandsStays(nodes, more, ids[i], trees[i]);
    }
  }

  /** The node's operands stand for the parts of the tree. */
  ghost predicate IsNodeOf(nodes: seq<Node>, n: Node, tree: Tree) {
    match n
    case NameNode(x) => tree == Name(x)
    case LiteralNode(x) => tree == Literal(x)
    case GroupNode(x) => tree.Group? && Stands(nodes, x, tree.operand)
    case UnaryNode(op, x) => tree.Unary? && tree.unary == op && Stands(nodes, x, tree.operand)
    case BinaryNode(op, x, y) =>
      tree.Binary? && tree.binary == op && Stands(nodes, x, tree.left) && Stands(nodes, y, tree.right)
    case ConditionalNode(c, x, y) =>
      && tree.Conditional? && Stands(nodes, c, tree.condition) && Stands(nodes, x, tree.whenTrue)
      && Stands(nodes, y, tree.whenFalse)
    case ConcatenationNode(xs) => tree.Concatenation? && Stand(nodes, xs, tree.items)
    case ReplicationNode(c, xs) => tree.Replication? && Stands(nodes, c, tree.count) && Stand(nodes, xs, tree.items)
    case CallNode(f, xs) => tree.Call? && Stands(nodes, f, tree.callee) && Stand(nodes, xs, tree.items)
  }

  lemma NodeStands(nodes: seq<Node>, n: Node, tree: Tree)
    requires NodesOk(nodes) && IsNodeOf(nodes, n, tree)
    ensures Stands(nodes + [n], |nodes|, tree)
  {
    var more := nodes + [n];
    if n.ConcatenationNode? || n.ReplicationNode? || n.CallNode? {
      assert forall i :: 0 <= i < |n.items| ==> Stands(nodes, n.items[i], tree.items[i]);
    }
    assert NodesOk(more);
    match n
    case NameNode(_) =>
    case LiteralNode(_) =>
    case GroupNode(x) => TreeStays(nodes, more, x);
    case UnaryNode(_, x) => TreeStays(nodes, more, x);
    case BinaryNode(_, x, y) =>
      TreeStays(nodes, more, x);
      TreeStays(nodes, more, y);
    case ConditionalNode(c, x, y) =>
      TreeStays(nodes, more, c);
      TreeStays(nodes, more, x);
      TreeStays(nodes, more, y);
    case ConcatenationNode(xs) => ItemsAre(nodes, more, xs, tree.items);
    case ReplicationNode(c, xs) =>
      TreeStays(nodes, more, c);
      ItemsAre(nodes, more, xs, tree.items);
    case CallNode(f, xs) =>
      TreeStays(nodes, more, f);
      ItemsAre(nodes, more, xs, tree.items);
  }

  lemma ItemsAre(nodes: seq<Node>, more: seq<Node>, ids: seq<nat>, trees: seq<Tree>)
    requires Stand(nodes, ids, trees) && NodesOk(more) && nodes <= more && forall i :: 0 <= i < |ids| ==> ids[i] < |nodes|
    ensures TreesAt(more, ids, |nodes|) == trees
  {
    forall i | 0 <= i < |ids|
      ensures TreeAt(more, ids[i]) == trees[i]
    {
      assert Stands(nodes, ids[i], trees[i]);
      TreeStays(nodes, more, ids[i]);
    }
  }

  class ExpressionParser {
    const tokens: seq<Token>
    var at: nat
    var nodes: seq<Node>

    constructor (tokens: seq<Token>, nodes: seq<Node>)
      requires NodesOk(nodes)
      ensures this.tokens == tokens && this.nodes == nodes && at == 0
    {
      this.tokens, this.nodes, at := tokens, nodes, 0;
    }

    /** A parse of one expression adds its node and moves to its end, or fails. */
    twostate predicate Built(new id: Option<nat>, new r: Option<Parsed>)
      reads this
    {
      && old(nodes) <= nodes && NodesOk(nodes) && id.Some? == r.Some?
      && (id.Some? ==> Stands(nodes, id.value, r.value.tree) && at == r.value.at)
    }

    /** A list adds the nodes of its items and moves to its end, or fails. */
    twostate predicate BuiltAll(new ids: Option<seq<nat>>, new r: Option<Several>)
      reads this
    {
      && old(nodes) <= nodes && NodesOk(nodes) && ids.Some? == r.Some?
      && (ids.Some? ==> Stand(nodes, ids.value, r.value.trees) && at == r.value.at)
    }

    method Add(n: Node, ghost tree: Tree) returns (id: nat)
      requires NodesOk(nodes) && IsNodeOf(nodes, n, tree)
      modifies this`nodes
      ensures old(nodes) <= nodes && Stands(nodes, id, tree)
    {
      NodeStands(nodes, n, tree);
      id := |nodes|;
      nodes := nodes + [n];
    }

    method ParsePrecedence(minimum: nat) returns (id: Option<nat>)
      requires NodesOk(nodes)
      modifies this`at, this`nodes
      ensures Built(id, Parsing.ParsePrecedence(tokens, old(at), minimum))
      decreases |tokens| - at, 4
    {
      hide Stands, NodesOk;
      ghost var start := at;
      ghost var first := Parsing.ParsePrefix(tokens, at);
      id := ParsePrefix();
      if id.None? {
        return;
      }
      var left := id.value;
      ghost var tree := first.value.tree;
      while true
        invariant start < at <= |tokens| && old(nodes) <= nodes && NodesOk(nodes) && Stands(nodes, left, tree)
        invariant Climb(tokens, tree, at, minimum) == Parsing.ParsePrecedence(tokens, start, minimum)
        decreases |tokens| - at
      {
        var op := BinaryHere(tokens, at);
        if op.Some? && minimum <= Precedence(op.value) {
          ghost var right := Parsing.ParsePrecedence(tokens, at + 1, RightMinimum(op.value));
          id := ParseRight(left, tree, op.value);
          if id.None? {
            return;
          }
          tree := Binary(op.value, tree, right.value.tree);
        } else if minimum <= 1 && Is(tokens, at, Question) {
          ghost var branches := ConditionalAt(tokens, tree, at);
          id := ParseBranches(left, tree);
          if id.None? {
            return;
          }
          tree := branches.value.tree;
        } else {
          return Some(left);
        }
        left := id.value;
      }
    }

    /** The right operand of an operator, whose token is next. */
    method ParseRight(left: nat, ghost tree: Tree, op: BinaryOp) returns (id: Option<nat>)
      requires at < |tokens| && Stands(nodes, left, tree)
      modifies this`at, this`nodes
      ensures var right := Parsing.ParsePrecedence(tokens, old(at) + 1, RightMinimum(op));
              Built(id, if right.None? then None
                        else Some(Parsed(Binary(op, tree, right.value.tree), right.value.at)))
      decreases |tokens| - at, 0
    {
      hide Parsing.ParsePrecedence;
      ghost var before, r := nodes, Parsing.ParsePrecedence(tokens, at + 1, RightMinimum(op));
      at := at + 1;
      var right := ParsePrecedence(RightMinimum(op));
      if right.None? {
        return None;
      }
      StandsStays(before, nodes, left, tree);
      var n := Add(BinaryNode(op, left, right.value), Binary(op, tree, r.value.tree));
      id := Some(n);
    }

    /** The branches of a conditional, whose question mark is next. */
    method ParseBranches(condition: nat, ghost tree: Tree) returns (id: Option<nat>)
      requires at < |tokens| && Stands(nodes, condition, tree)
      modifies this`at, this`nodes
      ensures Built(id, ConditionalAt(tokens, tree, old(at)))
      decreases |tokens| - at, 0
    {
      hide Parsing.ParsePrecedence;
      ghost var before, x := nodes, Parsing.ParsePrecedence(tokens, at + 1, 1);
      at := at + 1;
      var whenTrue := ParsePrecedence(1);
      if whenTrue.None? || !Is(tokens, at, Colon) {
        return None;
      }
      ghost var mid, y := nodes, Parsing.ParsePrecedence(tokens, at + 1, 1);
      at := at + 1;
      var whenFalse := ParsePrecedence(1);
      if whenFalse.None? {
        return None;
      }
      StandsStays(before, nodes, condition, tree);
      StandsStays(mid, nodes, whenTrue.value, x.value.tree);
      var n := Add(ConditionalNode(condition, whenTrue.value, whenFalse.value),
                   Conditional(tree, x.value.tree, y.value.tree));
      id := Some(n);
    }

    method ParsePrefix() returns (id: Option<nat>)
      requires NodesOk(nodes)
      modifies this`at, this`nodes
      ensures Built(id, Parsing.ParsePrefix(tokens, old(at)))
      decreases |tokens| - at, 3
    {
      hide Stands, NodesOk;
      var op := UnaryHere(tokens, at);
      if op.None? {
        id := ParsePostfix();
        return;
      }
      ghost var r := Parsing.ParsePrefix(tokens, at + 1);
      at := at + 1;
      var operand := ParsePrefix();
      if operand.None? {
        return None;
      }
      assert Stands(nodes, operand.value, r.value.tree);
      var n := Add(UnaryNode(op.value, operand.value), Unary(op.value, r.value.tree));
      id := Some(n);
    }

    method ParsePostfix() returns (id: Option<nat>)
      requires NodesOk(nodes)
      modifies this`at, this`nodes
      ensures Built(id, Parsing.ParsePostfix(tokens, old(at)))
      decreases |tokens| - at, 2
    {
      hide Stands, NodesOk, Parsing.ParsePrimary, Parsing.CollectSequence;
      ghost var start, first := at, Parsing.ParsePrimary(tokens, at);
      id := ParsePrimary();
      if id.None? {
        return;
      }
      var base := id.value;
      ghost var tree := first.value.tree;
      while Is(tokens, at, LParen)
        invariant start < at <= |tokens| && old(nodes) <= nodes && NodesOk(nodes) && Stands(nodes, base, tree)
        invariant ParseCalls(tokens, tree, at) == Parsing.ParsePostfix(tokens, start)
        decreases |tokens| - at
      {
        ghost var before, xs := nodes, Parsing.CollectSequence(tokens, at + 1, RParen);
        at := at + 1;
        var arguments := CollectSequence(RParen);
        if arguments.None? || !Is(tokens, at, RParen) {
          return None;
        }
        at := at + 1;
        StandsStays(before, nodes, base, tree);
        base := Add(CallNode(base, arguments.value), Call(tree, xs.value.trees));
        tree := Call(tree, xs.value.trees);
      }
      id := Some(base);
    }

    method CollectSequence(closer: Token) returns (ids: Option<seq<nat>>)
      requires NodesOk(nodes) && at <= |tokens|
      modifies this`at, this`nodes
      ensures BuiltAll(ids, Parsing.CollectSequence(tokens, old(at), closer))
      decreases |tokens| - at, 6
    {
      if Is(tokens, at, closer) {
        return Some([]);
      }
      ids := CollectListed(closer);
    }

    /** A list of at least one item. */
    method CollectListed(closer: Token) returns (ids: Option<seq<nat>>)
      requires NodesOk(nodes) && at <= |tokens|
      modifies this`at, this`nodes
      ensures BuiltAll(ids, CollectItems(tokens, old(at), closer))
      decreases |tokens| - at, 5
    {
      hide Stands, NodesOk, Stand, Parsing.ParsePrecedence, CollectItems, Prepended, ListAfter;
      NothingStands(nodes);
      ghost var start, done: seq<Tree> := at, [];
      var items: seq<nat> := [];
      PrependedToNothing(CollectItems(tokens, at, closer));
      while true
        invariant start <= at <= |tokens| && old(nodes) <= nodes && NodesOk(nodes) && Stand(nodes, items, done)
        invariant CollectItems(tokens, start, closer) == Prepended(done, CollectItems(tokens, at, closer))
        decreases |tokens| - at
      {
        ghost var before, x := nodes, Parsing.ParsePrecedence(tokens, at, 1);
        CollectHere(tokens, at, closer, done);
        var item := ParsePrecedence(1);
        if item.None? {
          return None;
        }
        CollectOne(tokens, x.value.at, closer, done, x.value.tree);
        StandsLast(before, nodes, items, done, item.value, x.value.tree);
        items, done := items + [item.value], done + [x.value.tree];
        if !Is(tokens, at, Comma) {
          return Some(items);
        }
        at := at + 1;
        if Is(tokens, at, closer) {
          return None;
        }
      }
    }

    method ParsePrimary() returns (id: Option<nat>)
      requires NodesOk(nodes)
      modifies this`at, this`nodes
      ensures Built(id, Parsing.ParsePrimary(tokens, old(at)))
      decreases |tokens| - at, 1
    {
      hide Stands, NodesOk, Parsing.ParsePrecedence, Parsing.ParseConcatenation;
      if at >= |tokens| {
        return None;
      }
      var n: nat;
      match tokens[at]
      case LParen =>
        ghost var r := Parsing.ParsePrecedence(tokens, at + 1, 1);
        at := at + 1;
        var inner := ParsePrecedence(1);
        if inner.None? || !Is(tokens, at, RParen) {
          return None;
        }
        at := at + 1;
        n := Add(GroupNode(inner.value), Group(r.value.tree));
        return Some(n);
      case LBrace =>
        at := at + 1;
        id := ParseConcatenation();
      case Number(value) =>
        at := at + 1;
        n := Add(LiteralNode(value), Literal(value));
        return Some(n);
      case Ident(name) =>
        at := at + 1;
        n := Add(NameNode(name), Name(name));
        return Some(n);
      case _ => id := None;
    }

    /** From just after the opening brace. */
    method ParseConcatenation() returns (id: Option<nat>)
      requires NodesOk(nodes) && at <= |tokens|
      modifies this`at, this`nodes
      ensures Built(id, Parsing.ParseConcatenation(tokens, old(at)))
      decreases |tokens| - at, 5
    {
      hide Stands, NodesOk, Parsing.ParsePrecedence, Parsing.CollectSequence, Parsing.ParseItems;
      if at >= |tokens| || Is(tokens, at, RBrace) {
        return None;
      }
      ghost var x := Parsing.ParsePrecedence(tokens, at, 1);
      var first := ParsePrecedence(1);
      if first.None? {
        return None;
      }
      ghost var mid := nodes;
      var n: nat;
      if Is(tokens, at, LBrace) {
        ghost var xs := Parsing.CollectSequence(tokens, at + 1, RBrace);
        at := at + 1;
        var items := CollectSequence(RBrace);
        if items.None? || items.value == [] || !Is(tokens, at, RBrace) {
          return None;
        }
        at := at + 1;
        if !Is(tokens, at, RBrace) {
          return None;
        }
        at := at + 1;
        StandsStays(mid, nodes, first.value, x.value.tree);
        n := Add(ReplicationNode(first.value, items.value), Replication(x.value.tree, xs.value.trees));
        return Some(n);
      }
      ghost var xs := Parsing.ParseItems(tokens, x.value.tree, at);
      var items := ParseItems(first.value, x.value.tree);
      if items.None? || !Is(tokens, at, RBrace) {
        return None;
      }
      at := at + 1;
      n := Add(ConcatenationNode(items.value), Concatenation(xs.value.trees));
      return Some(n);
    }

    /** The items of a concatenation after the first. */
    method ParseItems(first: nat, ghost tree: Tree) returns (ids: Option<seq<nat>>)
      requires at <= |tokens| && Stands(nodes, first, tree)
      modifies this`at, this`nodes
      ensures BuiltAll(ids, Parsing.ParseItems(tokens, tree, old(at)))
      decreases |tokens| - at, 5
    {
      hide Parsing.ParsePrecedence;
      ghost var start, done, last: Tree := at, [], tree;
      var items := [first];
      PrependedToNothing(Parsing.ParseItems(tokens, tree, at));
      while Is(tokens, at, Comma)
        invariant start <= at <= |tokens| && old(nodes) <= nodes && NodesOk(nodes) && Stand(nodes, items, done + [last])
        invariant Parsing.ParseItems(tokens, tree, start) == Prepended(done, Parsing.ParseItems(tokens, last, at))
        decreases |tokens| - at
      {
        ghost var before, x := nodes, Parsing.ParsePrecedence(tokens, at + 1, 1);
        at := at + 1;
        var item := ParsePrecedence(1);
        if item.None? {
          return None;
        }
        StandStays(before, nodes, items, done + [last]);
        PrependedTwice(done, last, Parsing.ParseItems(tokens, x.value.tree, at));
        items, done, last := items + [item.value], done + [last], x.value.tree;
      }
      ids := Some(items);
    }

    /** One expression that ends with the tokens; on failure the arena is as before. */
    method ParseExpression() returns (id: Option<nat>)
      requires NodesOk(nodes) && at == 0
      modifies this
      ensures NodesOk(nodes) && old(nodes) <= nodes && (id.None? ==> nodes == old(nodes))
      ensures id.Some? == Parse(tokens).Some?
      ensures id.Some? ==> Stands(nodes, id.value, Parse(tokens).value)
    {
      var count := |nodes|;
      id := ParsePrecedence(1);
      if id.None? || at != |tokens| {
        nodes := nodes[..count];
        return None;
      }
    }
  }

  /** The conditional whose question mark is at `at`. */
  function ConditionalAt(ts: seq<Token>, condition: Tree, at: nat): (r: Option<Parsed>)
    ensures r.Some? ==> at < r.value.at <= |ts|
  {
    var x := Parsing.ParsePrecedence(ts, at + 1, 1);
    if x.None? || !Is(ts, x.value.at, Colon) then None
    else
      var y := Parsing.ParsePrecedence(ts, x.value.at + 1, 1);
      if y.None? then None else Some(Parsed(Conditional(condition, x.value.tree, y.value.tree), y.value.at))
  }

  function Prepended(done: seq<Tree>, rest: Option<Several>): Option<Several> {
    if rest.None? then None else Some(Several(done + rest.value.trees, rest.value.at))
  }

  /** What follows one parsed item of a list. */
  function ListAfter(ts: seq<Token>, x: Tree, at: nat, closer: Token): Option<Several>
    requires at <= |ts|
  {
    if !Is(ts, at, Comma) then Some(Several([x], at))
    else if Is(ts, at + 1, closer) then None
    else Prepended([x], CollectItems(ts, at + 1, closer))
  }

  lemma CollectHere(ts: seq<Token>, at: nat, closer: Token, done: seq<Tree>)
    requires at <= |ts|
    ensures var x := Parsing.ParsePrecedence(ts, at, 1);
            Prepended(done, CollectItems(ts, at, closer)) ==
            if x.None? then None else Prepended(done, ListAfter(ts, x.value.tree, x.value.at, closer))
  {
    hide Parsing.ParsePrecedence;
  }

  lemma CollectOne(ts: seq<Token>, at: nat, closer: Token, done: seq<Tree>, x: Tree)
    requires at <= |ts|
    ensures Prepended(done, ListAfter(ts, x, at, closer)) ==
            if !Is(ts, at, Comma) then Some(Several(done + [x], at))
            else if Is(ts, at + 1, closer) then None
            else Prepended(done + [x], CollectItems(ts, at + 1, closer))
  {
    if Is(ts, at, Comma) && !Is(ts, at + 1, closer) {
      PrependedTwice(done, x, CollectItems(ts, at + 1, closer));
    }
  }

  lemma NothingStands(nodes: seq<Node>)
    requires NodesOk(nodes)
    ensures Stand(nodes, [], [])
  {
  }

  lemma StandsLast(nodes: seq<Node>, more: seq<Node>, ids: seq<nat>, trees: seq<Tree>, id: nat, tree: Tree)
    requires Stand(nodes, ids, trees) && nodes <= more && Stands(more, id, tree)
    ensures Stand(more, ids + [id], trees + [tree])
  {
    StandStays(nodes, more, ids, trees);
  }

  lemma PrependedToNothing(rest: Option<Several>)
    ensures Prepended([], rest) == rest
  {
    if rest.Some? {
      assert [] + rest.value.trees == rest.value.trees;
    }
  }

  lemma PrependedTwice(done: seq<Tree>, x: Tree, rest: Option<Several>)
    ensures Prepended(done, Prepended([x], rest)) == Prepended(done + [x], rest)
  {
    if rest.Some? {
      assert done + ([x] + rest.value.trees) == done + [x] + rest.value.trees;
    }
  }
}
