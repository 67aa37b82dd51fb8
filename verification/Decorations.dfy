/** Trees that differ only in their groups are told apart by their tokens. */
module Decorations {
  import opened Options
  import opened Syntax

  /** No replications or calls: what printed expressions are made of. */
  predicate Plain(t: Tree) {
    match t
    case Name(_) => true
    case Literal(_) => true
    case Group(x) => Plain(x)
    case Unary(_, x) => Plain(x)
    case Binary(_, l, r) => Plain(l) && Plain(r)
    case Conditional(c, x, y) => Plain(c) && Plain(x) && Plain(y)
    case Concatenation(xs) => forall x :: x in xs ==> Plain(x)
    case _ => false
  }

  /** The tree without groups and literal values. */
  function Skeleton(t: Tree): Tree {
    match t
    case Name(_) => t
    case Literal(_) => Literal(0)
    case Group(x) => Skeleton(x)
    case Unary(op, x) => Unary(op, Skeleton(x))
    case Binary(op, l, r) => Binary(op, Skeleton(l), Skeleton(r))
    case Conditional(c, x, y) => Conditional(Skeleton(c), Skeleton(x), Skeleton(y))
    case Concatenation(xs) => Concatenation(SkeletonAll(xs))
    case Replication(n, xs) => Replication(Skeleton(n), SkeletonAll(xs))
    case Call(f, xs) => Call(Skeleton(f), SkeletonAll(xs))
  }

  function SkeletonAll(xs: seq<Tree>): (ys: seq<Tree>)
    ensures |ys| == |xs|
    ensures forall i :: 0 <= i < |xs| ==> ys[i] == Skeleton(xs[i])
  {
    if xs == [] then [] else [Skeleton(xs[0])] + SkeletonAll(xs[1..])
  }

  // ----- counting

  function Atom(t: Token): nat { if t.Ident? || t.Number? || t.LBrace? then 1 else 0 }

  function Atoms(ys: seq<Token>): nat { if ys == [] then 0 else Atom(ys[0]) + Atoms(ys[1..]) }

  function Depth(ys: seq<Token>): int {
    if ys == [] then 0 else (if ys[0].LParen? then 1 else if ys[0].RParen? then -1 else 0) + Depth(ys[1..])
  }

  lemma {:induction false} CountsJoin(x: seq<Token>, y: seq<Token>)
    ensures Atoms(x + y) == Atoms(x) + Atoms(y) && Depth(x + y) == Depth(x) + Depth(y)
    decreases |x|
  {
    if x == [] {
      assert x + y == y;
    } else {
      CountsJoin(x[1..], y);
      assert (x + y)[1..] == x[1..] + y;
    }
  }

  /** Both counts of a token between two runs. */
  lemma CountsAround(x: seq<Token>, t: Token, y: seq<Token>)
    ensures Atoms(x + [t] + y) == Atoms(x) + Atom(t) + Atoms(y)
    ensures Depth(x + [t] + y) == Depth(x) + Depth([t]) + Depth(y)
  {
    CountsJoin(x + [t], y);
    CountsJoin(x, [t]);
    assert [t][1..] == [];
  }

  /** The number of atoms depends on the skeleton only; there is at least one. */
  lemma {:induction false} AtomsOfSkeleton(t: Tree)
    requires Plain(t)
    ensures Atoms(Yield(t)) == Atoms(Yield(Skeleton(t))) > 0
  {
    match t
    case Name(_) =>
    case Literal(n) =>
      if n < 0 {
        CountsJoin([Op(Minus)], [Number(-n)]);
        assert Yield(t) == [Op(Minus)] + [Number(-n)];
      }
    case Group(x) =>
      AtomsOfSkeleton(x);
      CountsAround([], LParen, Yield(x));
      CountsAround([LParen] + Yield(x), RParen, []);
      assert [] + [LParen] + Yield(x) == [LParen] + Yield(x);
      assert Yield(t) == [LParen] + Yield(x) + [RParen] + [];
    case Unary(op, x) =>
      AtomsOfSkeleton(x);
      CountsJoin([Op(UnaryText(op))], Yield(x));
      CountsJoin([Op(UnaryText(op))], Yield(Skeleton(x)));
    case Binary(op, l, r) =>
      AtomsOfSkeleton(l);
      AtomsOfSkeleton(r);
      CountsAround(Yield(l), Op(BinaryText(op)), Yield(r));
      CountsAround(Yield(Skeleton(l)), Op(BinaryText(op)), Yield(Skeleton(r)));
    case Conditional(c, x, y) =>
      AtomsOfSkeleton(c);
      AtomsOfSkeleton(x);
      AtomsOfSkeleton(y);
      CountsOfConditional(c, x, y);
      CountsOfConditional(Skeleton(c), Skeleton(x), Skeleton(y));
    case Concatenation(xs) =>
      AtomsOfSkeletons(xs);
      CountsInBraces(YieldAll(xs));
      CountsInBraces(YieldAll(SkeletonAll(xs)));
  }

  lemma CountsOfConditional(c: Tree, x: Tree, y: Tree)
    ensures Atoms(Yield(Conditional(c, x, y))) == Atoms(Yield(c)) + Atoms(Yield(x)) + Atoms(Yield(y))
    ensures Depth(Yield(Conditional(c, x, y))) == Depth(Yield(c)) + Depth(Yield(x)) + Depth(Yield(y))
  {
    CountsAround(Yield(c) + [Question] + Yield(x), Colon, Yield(y));
    CountsAround(Yield(c), Question, Yield(x));
  }

  lemma CountsInBraces(ys: seq<Token>)
    ensures Atoms([LBrace] + ys + [RBrace]) == 1 + Atoms(ys) && Depth([LBrace] + ys + [RBrace]) == Depth(ys)
  {
    CountsJoin([LBrace] + ys, [RBrace]);
    CountsJoin([LBrace], ys);
  }

  lemma {:induction false} AtomsOfSkeletons(xs: seq<Tree>)
    requires forall x :: x in xs ==> Plain(x)
    ensures Atoms(YieldAll(xs)) == Atoms(YieldAll(SkeletonAll(xs)))
    ensures xs != [] ==> Atoms(YieldAll(xs)) > 0
  {
    if |xs| >= 1 {
      AtomsOfSkeleton(xs[0]);
      AtomsOfSkeletons(xs[1..]);
      assert SkeletonAll(xs) == [Skeleton(xs[0])] + SkeletonAll(xs[1..]);
      assert SkeletonAll(xs)[1..] == SkeletonAll(xs[1..]);
      CountsAround(Yield(xs[0]), Comma, YieldAll(xs[1..]));
      CountsAround(Yield(Skeleton(xs[0])), Comma, YieldAll(SkeletonAll(xs[1..])));
    }
  }

  // ----- joints: an operator or separator is always followed by an operand

  predicate Joint(t: Token) { t.Op? || t.Question? || t.Colon? || t.Comma? }

  ghost predicate JointsFollowed(ys: seq<Token>) {
    forall i :: 0 <= i < |ys| && Joint(ys[i]) ==> Atoms(ys[i + 1..]) > 0
  }

  lemma JointsJoin(x: seq<Token>, y: seq<Token>)
    requires JointsFollowed(x) && JointsFollowed(y)
    ensures JointsFollowed(x + y)
  {
    var xy := x + y;
    forall i | 0 <= i < |xy| && Joint(xy[i])
      ensures Atoms(xy[i + 1..]) > 0
    {
      if i < |x| {
        assert xy[i + 1..] == x[i + 1..] + y;
        CountsJoin(x[i + 1..], y);
      } else {
        assert xy[i + 1..] == y[i - |x| + 1..];
      }
    }
  }

  lemma JointFirst(t: Token, y: seq<Token>)
    requires Joint(t) && Atoms(y) > 0 && JointsFollowed(y)
    ensures JointsFollowed([t] + y)
  {
    var ty := [t] + y;
    forall i | 0 <= i < |ty| && Joint(ty[i])
      ensures Atoms(ty[i + 1..]) > 0
    {
      assert ty[i + 1..] == y[i..];
    }
  }

  lemma JointsAround(x: seq<Token>, t: Token, y: seq<Token>)
    requires JointsFollowed(x) && Joint(t) && Atoms(y) > 0 && JointsFollowed(y)
    ensures JointsFollowed(x + [t] + y)
  {
    JointFirst(t, y);
    JointsJoin(x, [t] + y);
    assert x + [t] + y == x + ([t] + y);
  }

  lemma JointsInside(open: Token, ys: seq<Token>, close: Token)
    requires JointsFollowed(ys) && !Joint(open) && !Joint(close)
    ensures JointsFollowed([open] + ys + [close])
  {
    JointsJoin([open], ys);
    JointsJoin([open] + ys, [close]);
  }

  lemma {:induction false} YieldJoints(t: Tree)
    requires Plain(t)
    ensures JointsFollowed(Yield(t))
  {
    hide JointsFollowed, Atoms;
    AtomsOfSkeleton(t);
    match t
    case Name(n) => NoJoints(Ident(n));
    case Literal(n) => LiteralJoints(n);
    case Group(x) =>
      YieldJoints(x);
      JointsInside(LParen, Yield(x), RParen);
    case Unary(op, x) =>
      YieldJoints(x);
      AtomsOfSkeleton(x);
      JointFirst(Op(UnaryText(op)), Yield(x));
    case Binary(op, l, r) =>
      YieldJoints(l);
      YieldJoints(r);
      AtomsOfSkeleton(r);
      JointsAround(Yield(l), Op(BinaryText(op)), Yield(r));
    case Conditional(c, x, y) =>
      YieldJoints(c);
      YieldJoints(x);
      YieldJoints(y);
      AtomsOfSkeleton(x);
      AtomsOfSkeleton(y);
      JointsAround(Yield(c), Question, Yield(x));
      JointsAround(Yield(c) + [Question] + Yield(x), Colon, Yield(y));
    case Concatenation(xs) =>
      ListJoints(xs);
      JointsInside(LBrace, YieldAll(xs), RBrace);
  }

  lemma NoJoints(t: Token)
    requires !Joint(t)
    ensures JointsFollowed([t])
  {
  }

  lemma LiteralJoints(n: int)
    ensures JointsFollowed(Yield(Literal(n)))
  {
    if n < 0 {
      JointFirst(Op(Minus), [Number(-n)]);
      assert Yield(Literal(n)) == [Op(Minus)] + [Number(-n)];
    }
  }

  lemma {:induction false} ListJoints(xs: seq<Tree>)
    requires forall x :: x in xs ==> Plain(x)
    ensures JointsFollowed(YieldAll(xs))
  {
    if |xs| == 1 {
      YieldJoints(xs[0]);
    } else if |xs| > 1 {
      YieldJoints(xs[0]);
      ListJoints(xs[1..]);
      AtomsOfSkeletons(xs[1..]);
      JointsAround(Yield(xs[0]), Comma, YieldAll(xs[1..]));
    }
  }

  // ----- parentheses are balanced

  ghost predicate Balanced(ys: seq<Token>) { Depth(ys) == 0 && forall k :: 0 <= k <= |ys| ==> Depth(ys[..k]) >= 0 }

  lemma BalancedJoin(x: seq<Token>, y: seq<Token>)
    requires Balanced(x) && Balanced(y)
    ensures Balanced(x + y)
  {
    CountsJoin(x, y);
    forall k | 0 <= k <= |x + y|
      ensures Depth((x + y)[..k]) >= 0
    {
      if k <= |x| {
        assert (x + y)[..k] == x[..k];
      } else {
        assert (x + y)[..k] == x + y[..k - |x|];
        CountsJoin(x, y[..k - |x|]);
      }
    }
  }

  lemma BalancedOne(t: Token)
    requires !t.LParen? && !t.RParen?
    ensures Balanced([t])
  {
    forall k | 0 <= k <= 1
      ensures Depth([t][..k]) >= 0
    {
      assert [t][..k] == if k == 0 then [] else [t];
    }
  }

  /** A proper nonempty beginning of a parenthesised run is still open. */
  lemma InsideIsOpen(ys: seq<Token>, k: nat)
    requires Balanced(ys) && 0 < k < |ys| + 2
    ensures Depth(([LParen] + ys + [RParen])[..k]) > 0
  {
    assert ([LParen] + ys + [RParen])[..k] == [LParen] + ys[..k - 1];
    CountsJoin([LParen], ys[..k - 1]);
  }

  lemma BalancedGroup(ys: seq<Token>)
    requires Balanced(ys)
    ensures Balanced([LParen] + ys + [RParen])
  {
    var g := [LParen] + ys + [RParen];
    CountsJoin([LParen] + ys, [RParen]);
    CountsJoin([LParen], ys);
    forall k | 0 <= k <= |g|
      ensures Depth(g[..k]) >= 0
    {
      if 0 < k < |g| {
        InsideIsOpen(ys, k);
      } else if k == |g| {
        assert g[..k] == g;
      }
    }
  }

  lemma {:induction false} YieldBalanced(t: Tree)
    requires Plain(t)
    ensures Balanced(Yield(t))
  {
    hide Balanced;
    match t
    case Name(n) => BalancedOne(Ident(n));
    case Literal(n) =>
      if n < 0 {
        BalancedOne(Op(Minus));
        BalancedOne(Number(-n));
        BalancedJoin([Op(Minus)], [Number(-n)]);
        assert Yield(t) == [Op(Minus)] + [Number(-n)];
      } else {
        BalancedOne(Number(n));
      }
    case Group(x) =>
      YieldBalanced(x);
      BalancedGroup(Yield(x));
    case Unary(op, x) =>
      YieldBalanced(x);
      BalancedOne(Op(UnaryText(op)));
      BalancedJoin([Op(UnaryText(op))], Yield(x));
    case Binary(op, l, r) =>
      YieldBalanced(l);
      YieldBalanced(r);
      BalancedAround(Yield(l), Op(BinaryText(op)), Yield(r));
    case Conditional(c, x, y) =>
      YieldBalanced(c);
      YieldBalanced(x);
      YieldBalanced(y);
      BalancedAround(Yield(c), Question, Yield(x));
      BalancedAround(Yield(c) + [Question] + Yield(x), Colon, Yield(y));
    case Concatenation(xs) =>
      ListBalanced(xs);
      BalancedOne(LBrace);
      BalancedOne(RBrace);
      BalancedJoin([LBrace], YieldAll(xs));
      BalancedJoin([LBrace] + YieldAll(xs), [RBrace]);
  }

  lemma BalancedAround(x: seq<Token>, t: Token, y: seq<Token>)
    requires Balanced(x) && Balanced(y) && !t.LParen? && !t.RParen?
    ensures Balanced(x + [t] + y)
  {
    BalancedOne(t);
    BalancedJoin(x, [t]);
    BalancedJoin(x + [t], y);
  }

  lemma {:induction false} ListBalanced(xs: seq<Tree>)
    requires forall x :: x in xs ==> Plain(x)
    ensures Balanced(YieldAll(xs))
  {
    if |xs| == 1 {
      YieldBalanced(xs[0]);
    } else if |xs| > 1 {
      YieldBalanced(xs[0]);
      ListBalanced(xs[1..]);
      BalancedAround(Yield(xs[0]), Comma, YieldAll(xs[1..]));
    }
  }

  // ----- telling trees apart

  /** Two runs with equally many atoms, each followed by a joint, end at the same place. */
  lemma SplitIsUnique(x: seq<Token>, t: Token, y: seq<Token>, x': seq<Token>, t': Token, y': seq<Token>)
    requires x + [t] + y == x' + [t'] + y' && Joint(t) && Joint(t')
    requires JointsFollowed(x) && JointsFollowed(x') && Atoms(x) == Atoms(x')
    ensures x == x' && t == t' && y == y'
  {
    if |x| < |x'| {
      LongerSideHasMore(x, t, y, x', t', y');
      assert false;
    } else if |x'| < |x| {
      LongerSideHasMore(x', t', y', x, t, y);
      assert false;
    }
    var whole := x + [t] + y;
    assert x == whole[..|x|] && x' == whole[..|x'|];
    assert whole[|x|] == t && (x' + [t'] + y')[|x'|] == t';
    assert y == whole[|x| + 1..] && y' == (x' + [t'] + y')[|x'| + 1..];
  }

  lemma LongerSideHasMore(x: seq<Token>, t: Token, y: seq<Token>, x': seq<Token>, t': Token, y': seq<Token>)
    requires x + [t] + y == x' + [t'] + y' && Joint(t) && JointsFollowed(x') && |x| < |x'|
    ensures Atoms(x') > Atoms(x)
  {
    hide Atoms;
    var n := |x'| - |x| - 1;
    BeginningOf(x', [t'] + y', |x'|);
    assert x' + ([t'] + y') == x' + [t'] + y';
    BeginningAround(x, t, y, n);
    assert x'[|x|] == t && x'[|x| + 1..] == y[..n];
    CountsAround(x, t, y[..n]);
  }

  lemma BeginningOf(x: seq<Token>, y: seq<Token>, n: nat)
    requires n == |x|
    ensures (x + y)[..n] == x
  {
  }

  lemma BeginningAround(x: seq<Token>, t: Token, y: seq<Token>, n: nat)
    requires n <= |y|
    ensures (x + [t] + y)[..|x| + 1 + n] == x + [t] + y[..n]
  {
  }

  /** A grouped tree never has the tokens of an ungrouped one. */
  lemma GroupShows(x: Tree, u: Tree)
    requires Plain(x) && Plain(u) && !u.Group?
    ensures Yield(Group(x)) != Yield(u)
  {
    var ys, grouped := Yield(u), Yield(Group(x));
    YieldBalanced(x);
    assert grouped[0] == LParen;
    if u.Binary? || u.Conditional? {
      var first := Yield(if u.Binary? then u.left else u.condition);
      YieldBalanced(if u.Binary? then u.left else u.condition);
      assert ys[..|first|] == first;
      if |first| < |grouped| {
        InsideIsOpen(Yield(x), |first|);
      }
    }
  }

  /** Trees with the same skeleton and the same tokens are the same tree, groups and literals included. */
  lemma {:induction false} TokensTellTrees(t: Tree, u: Tree)
    requires Plain(t) && Plain(u) && Skeleton(t) == Skeleton(u) && Yield(t) == Yield(u)
    ensures t == u
    decreases t, 1
  {
    if t.Group? && u.Group? {
      assert Yield(t.operand) == Yield(t)[1..|Yield(t)| - 1];
      assert Yield(u.operand) == Yield(u)[1..|Yield(u)| - 1];
      TokensTellTrees(t.operand, u.operand);
    } else if t.Group? {
      GroupShows(t.operand, u);
    } else if u.Group? {
      GroupShows(u.operand, t);
    } else {
      match t
      case Name(_) =>
      case Literal(n) => assert Yield(t)[|Yield(t)| - 1] == Yield(u)[|Yield(u)| - 1];
      case Unary(op, x) =>
        assert Yield(x) == Yield(t)[1..] && Yield(u.operand) == Yield(u)[1..];
        TokensTellTrees(x, u.operand);
      case Binary(op, l, r) => BinariesTold(op, l, r, u.left, u.right);
      case Conditional(c, x, y) => ConditionalsTold(c, x, y, u.condition, u.whenTrue, u.whenFalse);
      case Concatenation(xs) =>
        assert YieldAll(xs) == Yield(t)[1..|Yield(t)| - 1];
        assert YieldAll(u.items) == Yield(u)[1..|Yield(u)| - 1];
        ListsTold(xs, u.items);
    }
  }

  lemma {:induction false} BinariesTold(op: BinaryOp, l: Tree, r: Tree, l': Tree, r': Tree)
    requires Plain(l) && Plain(r) && Plain(l') && Plain(r') && Skeleton(l) == Skeleton(l') && Skeleton(r) == Skeleton(r')
    requires Yield(Binary(op, l, r)) == Yield(Binary(op, l', r'))
    ensures l == l' && r == r'
    decreases Binary(op, l, r), 0
  {
    AtomsOfSkeleton(l);
    AtomsOfSkeleton(l');
    YieldJoints(l);
    YieldJoints(l');
    SplitIsUnique(Yield(l), Op(BinaryText(op)), Yield(r), Yield(l'), Op(BinaryText(op)), Yield(r'));
    TokensTellTrees(l, l');
    TokensTellTrees(r, r');
  }

  lemma {:induction false} ConditionalsTold(c: Tree, x: Tree, y: Tree, c': Tree, x': Tree, y': Tree)
    requires Plain(Conditional(c, x, y)) && Plain(Conditional(c', x', y'))
    requires Skeleton(c) == Skeleton(c') && Skeleton(x) == Skeleton(x') && Skeleton(y) == Skeleton(y')
    requires Yield(Conditional(c, x, y)) == Yield(Conditional(c', x', y'))
    ensures c == c' && x == x' && y == y'
    decreases Conditional(c, x, y), 0
  {
    var rest, rest' := Yield(x) + [Colon] + Yield(y), Yield(x') + [Colon] + Yield(y');
    assert Yield(Conditional(c, x, y)) == Yield(c) + [Question] + rest;
    assert Yield(Conditional(c', x', y')) == Yield(c') + [Question] + rest';
    AtomsOfSkeleton(c);
    AtomsOfSkeleton(c');
    YieldJoints(c);
    YieldJoints(c');
    SplitIsUnique(Yield(c), Question, rest, Yield(c'), Question, rest');
    AtomsOfSkeleton(x);
    AtomsOfSkeleton(x');
    YieldJoints(x);
    YieldJoints(x');
    SplitIsUnique(Yield(x), Colon, Yield(y), Yield(x'), Colon, Yield(y'));
    TokensTellTrees(c, c');
    TokensTellTrees(x, x');
    TokensTellTrees(y, y');
  }

  lemma {:induction false} ListsTold(xs: seq<Tree>, ys: seq<Tree>)
    requires (forall x :: x in xs ==> Plain(x)) && (forall y :: y in ys ==> Plain(y))
    requires SkeletonAll(xs) == SkeletonAll(ys) && YieldAll(xs) == YieldAll(ys)
    ensures xs == ys
    decreases xs, 0
  {
    assert |SkeletonAll(xs)| == |SkeletonAll(ys)|;
    if |xs| == 1 {
      assert Skeleton(xs[0]) == SkeletonAll(xs)[0] == SkeletonAll(ys)[0] == Skeleton(ys[0]);
      TokensTellTrees(xs[0], ys[0]);
    } else if |xs| > 1 {
      assert Skeleton(xs[0]) == SkeletonAll(xs)[0] == SkeletonAll(ys)[0] == Skeleton(ys[0]);
      assert SkeletonAll(xs[1..]) == SkeletonAll(xs)[1..] == SkeletonAll(ys)[1..] == SkeletonAll(ys[1..]);
      AtomsOfSkeleton(xs[0]);
      AtomsOfSkeleton(ys[0]);
      YieldJoints(xs[0]);
      YieldJoints(ys[0]);
      SplitIsUnique(Yield(xs[0]), Comma, YieldAll(xs[1..]), Yield(ys[0]), Comma, YieldAll(ys[1..]));
      TokensTellTrees(xs[0], ys[0]);
      ListsTold(xs[1..], ys[1..]);
    }
  }
}
