/** Fused operators are never read back as the tree that was printed. */
module ReadBack {
  import opened Syntax
  import opened ParseSound
  import opened Decorations
  import opened PrintedText

  ghost predicate Plainly(ys: seq<Token>) { forall i :: 0 <= i < |ys| ==> ys[i] != Op(CaretTilde) }

  lemma PlainlyAround(x: seq<Token>, t: Token, y: seq<Token>)
    requires Plainly(x) && Plainly(y) && t != Op(CaretTilde)
    ensures Plainly(x + [t] + y) && Plainly(x + [t]) && Plainly([t] + y)
  {
  }

  lemma {:induction false} OneSpelling(t: Tree)
    ensures Plainly(Yield(t))
  {
    match t
    case Name(_) =>
    case Literal(_) =>
    case Group(x) => OneSpelling(x);
    case Unary(_, x) => OneSpelling(x);
    case Binary(_, l, r) =>
      OneSpelling(l);
      OneSpelling(r);
    case Conditional(c, x, y) =>
      OneSpelling(c);
      OneSpelling(x);
      OneSpelling(y);
      hide Plainly;
      PlainlyAround(Yield(c), Question, Yield(x));
      PlainlyAround(Yield(c) + [Question] + Yield(x), Colon, Yield(y));
    case Concatenation(xs) => OneSpellings(xs);
    case Replication(n, xs) =>
      OneSpelling(n);
      OneSpellings(xs);
      PlainlyAround([], LBrace, Yield(n));
      PlainlyAround([LBrace] + Yield(n), LBrace, YieldAll(xs));
    case Call(f, xs) =>
      OneSpelling(f);
      OneSpellings(xs);
      hide Plainly;
      PlainlyAround(Yield(f), LParen, YieldAll(xs));
      PlainlyAround(Yield(f) + [LParen] + YieldAll(xs), RParen, []);
  }

  lemma {:induction false} OneSpellings(xs: seq<Tree>)
    ensures Plainly(YieldAll(xs))
  {
    if xs != [] {
      OneSpelling(xs[0]);
      OneSpellings(xs[1..]);
    }
  }

  lemma {:induction false} ErasedSkeleton(t: Tree)
    ensures Skeleton(Erase(t)) == Skeleton(t)
    ensures Plain(Erase(t)) <==> Plain(t)
  {
    match t
    case Name(_) =>
    case Literal(_) =>
    case Group(x) => ErasedSkeleton(x);
    case Unary(_, x) => ErasedSkeleton(x);
    case Binary(_, l, r) =>
      ErasedSkeleton(l);
      ErasedSkeleton(r);
    case Conditional(c, x, y) =>
      ErasedSkeleton(c);
      ErasedSkeleton(x);
      ErasedSkeleton(y);
    case Concatenation(xs) => ErasedSkeletons(xs);
    case Replication(n, xs) =>
      ErasedSkeleton(n);
      ErasedSkeletons(xs);
    case Call(f, xs) =>
      ErasedSkeleton(f);
      ErasedSkeletons(xs);
  }

  lemma {:induction false} ErasedSkeletons(xs: seq<Tree>)
    ensures SkeletonAll(EraseAll(xs)) == SkeletonAll(xs)
    ensures (forall x :: x in EraseAll(xs) ==> Plain(x)) <==> (forall x :: x in xs ==> Plain(x))
  {
    forall i | 0 <= i < |xs|
      ensures Skeleton(EraseAll(xs)[i]) == Skeleton(xs[i]) && (Plain(EraseAll(xs)[i]) <==> Plain(xs[i]))
    {
      ErasedSkeleton(xs[i]);
    }
    assert (forall x :: x in xs ==> Plain(x)) <==> (forall i :: 0 <= i < |xs| ==> Plain(xs[i]));
    assert (forall x :: x in EraseAll(xs) ==> Plain(x)) <==> (forall i :: 0 <= i < |xs| ==> Plain(EraseAll(xs)[i]));
  }

  // ----- without parentheses

  function Bare(ts: seq<Token>): seq<Token> {
    if ts == [] then [] else (if ts[0].LParen? || ts[0].RParen? then [] else [ts[0]]) + Bare(ts[1..])
  }

  lemma {:induction false} BareJoin(x: seq<Token>, y: seq<Token>)
    ensures Bare(x + y) == Bare(x) + Bare(y)
    decreases |x|
  {
    if x == [] {
      assert x + y == y;
    } else {
      assert (x + y)[1..] == x[1..] + y;
      BareJoin(x[1..], y);
    }
  }

  lemma BareAround(x: seq<Token>, t: Token, y: seq<Token>)
    ensures Bare(x + [t] + y) == Bare(x) + (if t.LParen? || t.RParen? then [] else [t]) + Bare(y)
  {
    BareOne(t);
    hide Bare;
    BareJoin(x + [t], y);
    BareJoin(x, [t]);
  }

  lemma BareOne(t: Token)
    ensures Bare([t]) == if t.LParen? || t.RParen? then [] else [t]
  {
    assert [t][1..] == [];
  }

  /** The parentheses of a printed expression are those of its groups. */
  lemma {:induction false} BareYield(t: Tree)
    requires Plain(t)
    ensures Bare(Yield(t)) == Yield(Erase(t))
  {
    match t
    case Name(_) =>
    case Literal(n) =>
      if n < 0 {
        BareAround([], Op(Minus), [Number(-n)]);
        BareAround([], Number(-n), []);
      } else {
        BareAround([], Number(n), []);
      }
    case Group(x) =>
      BareYield(x);
      BareAround([], LParen, Yield(x));
      BareAround([LParen] + Yield(x), RParen, []);
      assert [LParen] + Yield(x) + [RParen] + [] == Yield(t);
    case Unary(op, x) =>
      BareYield(x);
      BareAround([], Op(UnaryText(op)), Yield(x));
    case Binary(op, l, r) =>
      BareYield(l);
      BareYield(r);
      BareAround(Yield(l), Op(BinaryText(op)), Yield(r));
    case Conditional(c, x, y) =>
      BareYield(c);
      BareYield(x);
      BareYield(y);
      BareAround(Yield(c), Question, Yield(x));
      BareAround(Yield(c) + [Question] + Yield(x), Colon, Yield(y));
    case Concatenation(xs) =>
      BareItems(xs);
      BareAround([], LBrace, YieldAll(xs));
      BareAround([LBrace] + YieldAll(xs), RBrace, []);
      assert [LBrace] + YieldAll(xs) + [RBrace] + [] == Yield(t);
  }

  lemma {:induction false} BareItems(xs: seq<Tree>)
    requires forall x :: x in xs ==> Plain(x)
    ensures Bare(YieldAll(xs)) == YieldAll(EraseAll(xs))
  {
    if xs != [] {
      BareYield(xs[0]);
      BareItems(xs[1..]);
      BareAround(Yield(xs[0]), Comma, YieldAll(xs[1..]));
      assert EraseAll(xs)[1..] == EraseAll(xs[1..]);
    }
  }

  // ----- trees with the same skeleton

  ghost predicate NumberAt(x: seq<Token>, y: seq<Token>, k: nat) {
    k < |x| && k < |y| && x[..k] == y[..k] && x[k] != y[k] && (x[k].Number? || y[k].Number?)
  }

  /** At the first difference, if any, there is a number. */
  ghost predicate Alike(x: seq<Token>, y: seq<Token>) { x == y || exists k: nat :: NumberAt(x, y, k) }

  lemma AlikeJoin(a: seq<Token>, x: seq<Token>, b: seq<Token>, y: seq<Token>)
    requires Alike(a, x) && Alike(b, y)
    ensures Alike(a + b, x + y)
  {
    if a != x {
      var k: nat :| NumberAt(a, x, k);
      assert (a + b)[..k] == a[..k] && (x + y)[..k] == x[..k];
      assert NumberAt(a + b, x + y, k);
    } else if b != y {
      var k: nat :| NumberAt(b, y, k);
      assert (a + b)[..|a| + k] == a + b[..k] && (x + y)[..|a| + k] == x + y[..k];
      assert NumberAt(a + b, x + y, |a| + k);
    }
  }

  lemma AlikeAround(a: seq<Token>, x: seq<Token>, t: Token, b: seq<Token>, y: seq<Token>)
    requires Alike(a, x) && Alike(b, y)
    ensures Alike(a + [t] + b, x + [t] + y)
  {
    AlikeJoin(a, x, [t], [t]);
    AlikeJoin(a + [t], x + [t], b, y);
  }

  predicate Ungrouped(t: Tree) {
    match t
    case Name(_) => true
    case Literal(_) => true
    case Unary(_, x) => Ungrouped(x)
    case Binary(_, l, r) => Ungrouped(l) && Ungrouped(r)
    case Conditional(c, x, y) => Ungrouped(c) && Ungrouped(x) && Ungrouped(y)
    case Concatenation(xs) => forall x :: x in xs ==> Ungrouped(x)
    case _ => false
  }

  lemma {:induction false} SkeletonAlike(d: Tree, z: Tree)
    requires Ungrouped(d) && Ungrouped(z) && Skeleton(d) == Skeleton(z)
    ensures Alike(Yield(d), Yield(z))
  {
    hide Alike;
    match d
    case Name(_) => AlikeSame(Yield(d));
    case Literal(n) => LiteralsAlike(n, z.value);
    case Unary(op, x) =>
      SkeletonAlike(x, z.operand);
      AlikeSame([]);
      AlikeAround([], [], Op(UnaryText(op)), Yield(x), Yield(z.operand));
      assert [] + [Op(UnaryText(op))] + Yield(x) == Yield(d) && [] + [Op(UnaryText(op))] + Yield(z.operand) == Yield(z);
    case Binary(op, l, r) =>
      SkeletonAlike(l, z.left);
      SkeletonAlike(r, z.right);
      AlikeAround(Yield(l), Yield(z.left), Op(BinaryText(op)), Yield(r), Yield(z.right));
    case Conditional(c, x, y) =>
      SkeletonAlike(c, z.condition);
      SkeletonAlike(x, z.whenTrue);
      SkeletonAlike(y, z.whenFalse);
      AlikeAround(Yield(c), Yield(z.condition), Question, Yield(x), Yield(z.whenTrue));
      AlikeAround(Yield(c) + [Question] + Yield(x), Yield(z.condition) + [Question] + Yield(z.whenTrue), Colon,
                  Yield(y), Yield(z.whenFalse));
    case Concatenation(xs) =>
      ItemsAlike(xs, z.items);
      AlikeSame([]);
      assert [] + [LBrace] + YieldAll(xs) == [LBrace] + YieldAll(xs);
      assert [] + [LBrace] + YieldAll(z.items) == [LBrace] + YieldAll(z.items);
      AlikeAround([], [], LBrace, YieldAll(xs), YieldAll(z.items));
      AlikeAround([LBrace] + YieldAll(xs), [LBrace] + YieldAll(z.items), RBrace, [], []);
      assert [LBrace] + YieldAll(xs) + [RBrace] + [] == Yield(d);
      assert [LBrace] + YieldAll(z.items) + [RBrace] + [] == Yield(z);
  }

  lemma AlikeSame(x: seq<Token>)
    ensures Alike(x, x)
  {
  }

  lemma LiteralsAlike(n: int, m: int)
    ensures Alike(Yield(Literal(n)), Yield(Literal(m)))
  {
    var x, y := Yield(Literal(n)), Yield(Literal(m));
    if x != y {
      assert x[..0] == y[..0] && (n < 0 && m < 0 ==> x[..1] == y[..1]);
      assert NumberAt(x, y, if n < 0 && m < 0 then 1 else 0);
    }
  }

  lemma {:induction false} ItemsAlike(xs: seq<Tree>, zs: seq<Tree>)
    requires (forall x :: x in xs ==> Ungrouped(x)) && (forall z :: z in zs ==> Ungrouped(z))
    requires SkeletonAll(xs) == SkeletonAll(zs)
    ensures Alike(YieldAll(xs), YieldAll(zs))
  {
    hide Alike;
    if xs == [] {
      AlikeSame([]);
    } else {
      assert |xs| == |SkeletonAll(xs)| == |zs|;
      assert Skeleton(xs[0]) == SkeletonAll(xs)[0] == SkeletonAll(zs)[0] == Skeleton(zs[0]);
      SkeletonAlike(xs[0], zs[0]);
      assert SkeletonAll(xs[1..]) == SkeletonAll(xs)[1..] && SkeletonAll(zs[1..]) == SkeletonAll(zs)[1..];
      ItemsAlike(xs[1..], zs[1..]);
      AlikeAround(Yield(xs[0]), Yield(zs[0]), Comma, YieldAll(xs[1..]), YieldAll(zs[1..]));
    }
  }

  lemma {:induction false} ErasedIsUngrouped(t: Tree)
    requires Plain(t)
    ensures Ungrouped(Erase(t))
  {
    match t
    case Name(_) =>
    case Literal(_) =>
    case Group(x) => ErasedIsUngrouped(x);
    case Unary(_, x) => ErasedIsUngrouped(x);
    case Binary(_, l, r) =>
      ErasedIsUngrouped(l);
      ErasedIsUngrouped(r);
    case Conditional(c, x, y) =>
      ErasedIsUngrouped(c);
      ErasedIsUngrouped(x);
      ErasedIsUngrouped(y);
    case Concatenation(xs) =>
      forall i | 0 <= i < |xs|
        ensures Ungrouped(EraseAll(xs)[i])
      {
        ErasedIsUngrouped(xs[i]);
      }
  }

  // ----- what departs from the printed tokens is not that tree

  /** Tokens that depart from those of a tree never spell a tree with the same operators over the same names. */
  lemma NeverReadBack(d: Tree, u: Tree, read: seq<Token>)
    requires Plain(d) && Plain(u) && Skeleton(d) == Skeleton(u) && Departs(read, Yield(d))
    ensures !Spells(read, 0, |read|, Yield(u))
  {
    hide *;
    if Spells(read, 0, |read|, Yield(u)) {
      DepartureShows(d, u, read);
      ErasedSkeleton(d);
      ErasedSkeleton(u);
      ErasedIsUngrouped(d);
      ErasedIsUngrouped(u);
      SkeletonAlike(Erase(d), Erase(u));
    }
  }

  lemma DepartureShows(d: Tree, u: Tree, read: seq<Token>)
    requires Plain(d) && Plain(u) && Departs(read, Yield(d)) && Spells(read, 0, |read|, Yield(u))
    ensures !Alike(Yield(Erase(d)), Yield(Erase(u)))
  {
    OneSpelling(d);
    BareYield(d);
    BareYield(u);
    var k: nat :| DepartsAt(read, Yield(d), k);
    hide Yield, Erase, Bare, Alike, Plain;
    SpelledUpTo(Yield(d), Yield(u), read, k);
    Parting(Yield(d), Yield(u), k);
  }

  lemma SpelledUpTo(shown: seq<Token>, back: seq<Token>, read: seq<Token>, k: nat)
    requires DepartsAt(read, shown, k) && Spells(read, 0, |read|, back) && Plainly(shown)
    ensures k < |shown| && k < |back| && shown[..k] == back[..k] && back[k] == Respell(read[k])
  {
    forall i | 0 <= i < k
      ensures shown[i] == back[i]
    {
      assert read[i] == read[..k][i] == shown[..k][i];
      assert Respell(read[0 + i]) == back[i];
    }
    assert Respell(read[0 + k]) == back[k];
  }

  /** Runs that part at two operators still do so without parentheses. */
  lemma Parting(shown: seq<Token>, back: seq<Token>, k: nat)
    requires k < |shown| && k < |back| && shown[..k] == back[..k] && shown[k] != back[k]
    requires shown[k].Op? && (back[k].Op? || back[k].Other?)
    ensures !Alike(Bare(shown), Bare(back))
  {
    hide Bare, Alike;
    var x, y, z := shown[..k], shown[k + 1..], back[k + 1..];
    assert shown == x + [shown[k]] + y && back == x + [back[k]] + z;
    BareAround(x, shown[k], y);
    BareAround(x, back[k], z);
    NotAlike(Bare(x), shown[k], Bare(y), back[k], Bare(z));
  }

  lemma NotAlike(x: seq<Token>, a: Token, y: seq<Token>, b: Token, z: seq<Token>)
    requires a != b && !a.Number? && !b.Number?
    ensures !Alike(x + [a] + y, x + [b] + z)
  {
    var p, q := x + [a] + y, x + [b] + z;
    assert p[|x|] == a && q[|x|] == b;
    assert forall i :: 0 <= i < |x| ==> p[i] == x[i] && q[i] == x[i];
    forall k: nat | k > |x| && k < |p| && k < |q|
      ensures p[..k] != q[..k]
    {
      assert p[..k][|x|] == a && q[..k][|x|] == b;
    }
  }
}
