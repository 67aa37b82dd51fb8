/** Which symbols an expression reads the value of, told without its uses, and that the recorded contexts say just that. */
module Reading {
  import opened Options
  import opened Predicates
  import opened ExpressionUses
  import opened Targets

  // ----- what is read

  /**
   * Evaluating e reads the value of s: s is an operand or stands in an index. The bounds of a range and the width of a
   * part-select are not read for their value (`value` is false in them), but the conditions and indices in them are.
   */
  ghost predicate ReadsValue(a: Arena, e: nat, value: bool, v: Valuation, s: nat)
    requires ArenaOk(a) && e < |a.exprs|
    decreases e, 1, 0
  {
    match a.exprs[e]
    case Literal(_) => false
    case Symbol(t) => value && t == s
    case Group(x) => ReadsValue(a, x, value, v, s)
    case Unary(x) => ReadsValue(a, x, value, v, s)
    case Conversion(x) => ReadsValue(a, x, value, v, s)
    case Binary(x, y) => ReadsValue(a, x, value, v, s) || ReadsValue(a, y, value, v, s)
    case Conditional(c, x, y) => ReadsValue(a, c, true, v, s) || ReadsValue(a, if v(c) then x else y, value, v, s)
    case Index(x, y) => ReadsValue(a, x, value, v, s) || ReadsValue(a, y, true, v, s)
    case Select(isRange, x, y, z) =>
      ReadsValue(a, x, value, v, s) || ReadsValue(a, y, !isRange, v, s) || ReadsValue(a, z, false, v, s)
    case Concatenation(cs) => AnyReadsValue(a, e, cs, value, v, s)
  }

  ghost predicate AnyReadsValue(a: Arena, e: nat, cs: seq<nat>, value: bool, v: Valuation, s: nat)
    requires ArenaOk(a) && e < |a.exprs| && forall i :: 0 <= i < |cs| ==> cs[i] < e
    decreases e, 0, |cs|
  {
    exists i :: 0 <= i < |cs| && ReadsValue(a, cs[i], value, v, s)
  }

  /** Finding the place that e stands for reads the value of s: s stands in one of its indices. */
  ghost predicate LocatingReads(a: Arena, e: nat, v: Valuation, s: nat)
    requires ArenaOk(a) && e < |a.exprs|
    decreases e
  {
    match a.exprs[e]
    case Group(x) => LocatingReads(a, x, v, s)
    case Index(x, y) => LocatingReads(a, x, v, s) || ReadsValue(a, y, true, v, s)
    case Select(isRange, x, y, z) =>
      LocatingReads(a, x, v, s) || ReadsValue(a, y, !isRange, v, s) || ReadsValue(a, z, false, v, s)
    case _ => false
  }

  ghost predicate TargetReads(a: Arena, t: Target, v: Valuation, s: nat)
    requires ArenaOk(a)
  {
    match t
    case Projection(e) => e < |a.exprs| && LocatingReads(a, e, v, s)
    case Concatenated(ts) => exists i :: 0 <= i < |ts| && TargetReads(a, ts[i], v, s)
  }

  // ----- what is recorded as read

  /** Some use of the symbol, as an operand or an index, is live. */
  ghost predicate LiveRead(uses: seq<Use>, v: Valuation, s: nat) {
    exists i :: 0 <= i < |uses| && uses[i].symbol == s && (uses[i].context.Read? || uses[i].context.IndexUse?)
                && Holds(uses[i].guard, v)
  }

  lemma LiveReadBoth(x: Recording, y: Recording, v: Valuation, s: nat)
    requires Both(x, y).Recorded?
    ensures LiveRead(Both(x, y).uses, v, s) <==> LiveRead(x.uses, v, s) || LiveRead(y.uses, v, s)
  {
    hide Holds;
    var all := x.uses + y.uses;
    assert forall i :: 0 <= i < |x.uses| ==> all[i] == x.uses[i];
    assert forall i :: 0 <= i < |y.uses| ==> all[|x.uses| + i] == y.uses[i];
    if i :| 0 <= i < |y.uses| && y.uses[i].symbol == s && (y.uses[i].context.Read? || y.uses[i].context.IndexUse?)
            && Holds(y.uses[i].guard, v) {
      assert all[|x.uses| + i].symbol == s;
    }
    if i :| 0 <= i < |x.uses| && x.uses[i].symbol == s && (x.uses[i].context.Read? || x.uses[i].context.IndexUse?)
            && Holds(x.uses[i].guard, v) {
      assert all[i].symbol == s;
    }
  }

  lemma NothingRead(v: Valuation, s: nat)
    ensures !LiveRead([], v, s)
  {
  }

  lemma OneRead(u: Use, v: Valuation, s: nat)
    ensures LiveRead([u], v, s) <==> u.symbol == s && (u.context.Read? || u.context.IndexUse?) && Holds(u.guard, v)
  {
    assert [u][0] == u;
  }

  /**
   * A use recorded as a read of s is live under a valuation exactly when the starting guard holds there and evaluating
   * the expression reads the value of s.
   */
  lemma {:induction false} ReadsAreExact(a: Arena, e: nat, projection: Option<nat>, guard: Conjunction, context: Context,
                                         v: Valuation, s: nat)
    requires ArenaOk(a) && e < |a.exprs| && Canonical(guard) && !context.Lvalue?
    requires UsesOf(a, e, projection, guard, context).Recorded?
    ensures LiveRead(UsesOf(a, e, projection, guard, context).uses, v, s) <==>
            Holds(guard, v) && ReadsValue(a, e, !context.TypeUse?, v, s)
    decreases e, 1, 0
  {
    hide LiveRead, Holds, Conjoin, Canonical;
    var value := !context.TypeUse?;
    if guard.All? {
      match a.exprs[e]
      case Literal(_) => NothingRead(v, s);
      case Symbol(t) => OneRead(UsesOf(a, e, projection, guard, context).uses[0], v, s);
      case Group(x) => ReadsAreExact(a, x, Some(From(projection, e)), guard, context, v, s);
      case Unary(x) => ReadsAreExact(a, x, None, guard, context, v, s);
      case Conversion(x) => ReadsAreExact(a, x, None, guard, context, v, s);
      case Binary(x, y) =>
        LiveReadBoth(UsesOf(a, x, None, guard, context), UsesOf(a, y, None, guard, context), v, s);
        ReadsAreExact(a, x, None, guard, context, v, s);
        ReadsAreExact(a, y, None, guard, context, v, s);
      case Conditional(c, x, y) => ConditionalReadsExactly(a, e, projection, guard, context, v, s);
      case Index(x, y) =>
        LiveReadBoth(UsesOf(a, x, Some(From(projection, e)), guard, context), UsesOf(a, y, None, guard, IndexUse), v, s);
        ReadsAreExact(a, x, Some(From(projection, e)), guard, context, v, s);
        ReadsAreExact(a, y, None, guard, IndexUse, v, s);
      case Select(isRange, x, y, z) =>
        ReadsAreExact(a, x, Some(From(projection, e)), guard, context, v, s);
        BoundsReadExactly(a, isRange, y, z, guard, v, s);
        LiveReadBoth(UsesOf(a, x, Some(From(projection, e)), guard, context), BoundUses(a, isRange, y, z, guard), v, s);
      case Concatenation(cs) => AllReadsAreExact(a, e, cs, guard, context, v, s);
    } else {
      NothingRead(v, s);
      assert !Holds(guard, v) by {
        ImpossibleFails(v);
      }
    }
  }

  /** The uses in the two operands of a select beside its base. */
  function BoundUses(a: Arena, isRange: bool, y: nat, z: nat, guard: Conjunction): Recording
    requires ArenaOk(a) && y < |a.exprs| && z < |a.exprs| && Canonical(guard)
  {
    Both(UsesOf(a, y, None, guard, if isRange then TypeUse else IndexUse), UsesOf(a, z, None, guard, TypeUse))
  }

  lemma {:induction false} BoundsReadExactly(a: Arena, isRange: bool, y: nat, z: nat, guard: Conjunction,
                                             v: Valuation, s: nat)
    requires ArenaOk(a) && y < |a.exprs| && z < |a.exprs| && Canonical(guard) && BoundUses(a, isRange, y, z, guard).Recorded?
    ensures LiveRead(BoundUses(a, isRange, y, z, guard).uses, v, s) <==>
            Holds(guard, v) && (ReadsValue(a, y, !isRange, v, s) || ReadsValue(a, z, false, v, s))
    decreases if y < z then z else y, 2, 0
  {
    hide LiveRead, Holds, Canonical, UsesOf, ReadsValue;
    var context := if isRange then TypeUse else IndexUse;
    LiveReadBoth(UsesOf(a, y, None, guard, context), UsesOf(a, z, None, guard, TypeUse), v, s);
    ReadsAreExact(a, y, None, guard, context, v, s);
    ReadsAreExact(a, z, None, guard, TypeUse, v, s);
  }

  lemma {:induction false} ConditionalReadsExactly(a: Arena, e: nat, projection: Option<nat>, guard: Conjunction,
                                                   context: Context, v: Valuation, s: nat)
    requires ArenaOk(a) && e < |a.exprs| && Canonical(guard) && !context.Lvalue? && guard.All? && a.exprs[e].Conditional?
    requires UsesOf(a, e, projection, guard, context).Recorded?
    ensures LiveRead(UsesOf(a, e, projection, guard, context).uses, v, s) <==>
            Holds(guard, v) && ReadsValue(a, e, !context.TypeUse?, v, s)
    decreases e, 0, 0
  {
    hide LiveRead, Holds, Conjoin, Canonical;
    var x := a.exprs[e];
    var whenTrue, whenFalse := Conjoin(guard, x.condition, true), Conjoin(guard, x.condition, false);
    var uc := UsesOf(a, x.condition, None, guard, Read);
    var ut, uf := UsesOf(a, x.whenTrue, None, whenTrue, context), UsesOf(a, x.whenFalse, None, whenFalse, context);
    LiveReadBoth(uc, Both(ut, uf), v, s);
    LiveReadBoth(ut, uf, v, s);
    ReadsAreExact(a, x.condition, None, guard, Read, v, s);
    ReadsAreExact(a, x.whenTrue, None, whenTrue, context, v, s);
    ReadsAreExact(a, x.whenFalse, None, whenFalse, context, v, s);
    ConjoinMeans(guard, x.condition, true, v);
    ConjoinMeans(guard, x.condition, false, v);
  }

  lemma {:induction false} AllReadsAreExact(a: Arena, e: nat, cs: seq<nat>, guard: Conjunction, context: Context,
                                            v: Valuation, s: nat)
    requires ArenaOk(a) && e < |a.exprs| && Canonical(guard) && !context.Lvalue?
    requires forall i :: 0 <= i < |cs| ==> cs[i] < e
    requires UsesOfAll(a, e, cs, guard, context).Recorded?
    ensures LiveRead(UsesOfAll(a, e, cs, guard, context).uses, v, s) <==>
            Holds(guard, v) && AnyReadsValue(a, e, cs, !context.TypeUse?, v, s)
    decreases e, 0, |cs|
  {
    hide LiveRead, Holds, Canonical, UsesOf, ReadsValue;
    if cs == [] {
      NothingRead(v, s);
    } else {
      var front, last := cs[..|cs| - 1], cs[|cs| - 1];
      LiveReadBoth(UsesOfAll(a, e, front, guard, context), UsesOf(a, last, None, guard, context), v, s);
      AllReadsAreExact(a, e, front, guard, context, v, s);
      ReadsAreExact(a, last, None, guard, context, v, s);
      assert forall i :: 0 <= i < |front| ==> front[i] == cs[i];
    }
  }

  // ----- targets

  lemma {:induction false} ProjectionReadsExactly(a: Arena, e: nat, projection: Option<nat>, guard: Conjunction,
                                                  v: Valuation, s: nat)
    requires ArenaOk(a) && e < |a.exprs| && Canonical(guard) && ProjectionUses(a, e, projection, guard).Recorded?
    ensures LiveRead(ProjectionUses(a, e, projection, guard).uses, v, s) <==> Holds(guard, v) && LocatingReads(a, e, v, s)
    decreases e
  {
    hide LiveRead, Holds, Canonical, UsesOf, ReadsValue;
    match a.exprs[e]
    case Symbol(t) => OneRead(ProjectionUses(a, e, projection, guard).uses[0], v, s);
    case Group(x) => ProjectionReadsExactly(a, x, Some(From(projection, e)), guard, v, s);
    case Index(x, y) =>
      var on := Some(From(projection, e));
      ProjectionReadsExactly(a, x, on, guard, v, s);
      ReadsAreExact(a, y, None, guard, IndexUse, v, s);
      LiveReadBoth(ProjectionUses(a, x, on, guard), UsesOf(a, y, None, guard, IndexUse), v, s);
    case Select(isRange, x, y, z) =>
      var on := Some(From(projection, e));
      ProjectionReadsExactly(a, x, on, guard, v, s);
      BoundsReadExactly(a, isRange, y, z, guard, v, s);
      LiveReadBoth(ProjectionUses(a, x, on, guard), BoundUses(a, isRange, y, z, guard), v, s);
  }

  lemma {:induction false} TargetReadsExactly(a: Arena, t: Target, guard: Conjunction, v: Valuation, s: nat)
    requires ArenaOk(a) && Canonical(guard) && TargetUses(a, t, guard).Recorded?
    ensures LiveRead(TargetUses(a, t, guard).uses, v, s) <==> Holds(guard, v) && TargetReads(a, t, v, s)
  {
    hide LiveRead, Holds, Canonical, ProjectionUses, LocatingReads;
    match t
    case Projection(e) => ProjectionReadsExactly(a, e, None, guard, v, s);
    case Concatenated(ts) => TargetsReadExactly(a, ts, guard, v, s);
  }

  lemma {:induction false} TargetsReadExactly(a: Arena, ts: seq<Target>, guard: Conjunction, v: Valuation, s: nat)
    requires ArenaOk(a) && Canonical(guard) && TargetUsesAll(a, ts, guard).Recorded?
    ensures LiveRead(TargetUsesAll(a, ts, guard).uses, v, s) <==>
            Holds(guard, v) && exists i :: 0 <= i < |ts| && TargetReads(a, ts[i], v, s)
  {
    hide LiveRead, Holds, Canonical, TargetUses, TargetReads;
    if ts == [] {
      NothingRead(v, s);
    } else {
      var front, last := ts[..|ts| - 1], ts[|ts| - 1];
      TargetsReadExactly(a, front, guard, v, s);
      TargetReadsExactly(a, last, guard, v, s);
      LiveReadBoth(TargetUsesAll(a, front, guard), TargetUses(a, last, guard), v, s);
      assert forall i :: 0 <= i < |front| ==> front[i] == ts[i];
    }
  }

  // ----- every recorded use

  /** The guard can hold, the signal is the symbol's own, and the projection is the whole access to the symbol. */
  ghost predicate UseOk(a: Arena, u: Use)
    requires ArenaOk(a)
  {
    && u.guard.All? && Canonical(u.guard)
    && u.symbol < |a.symbols| && SignalOf(a.symbols[u.symbol]) == Some(u.signal)
    && u.projection < |a.exprs| && WritesTo(a, u.projection, u.symbol)
  }

  ghost predicate UsesOk(a: Arena, uses: seq<Use>)
    requires ArenaOk(a)
  {
    forall i :: 0 <= i < |uses| ==> UseOk(a, uses[i])
  }

  /** Expression p is an operand of its own: of an operator, a condition or branch, an index, a bound or an item. */
  ghost predicate Operand(a: Arena, p: nat) { exists q :: 0 <= q < |a.exprs| && OperandOf(a.exprs[q], p) }

  predicate OperandOf(x: Expr, p: nat) {
    match x
    case Literal(_) => false
    case Symbol(_) => false
    case Group(_) => false
    case Unary(y) => y == p
    case Conversion(y) => y == p
    case Binary(y, z) => y == p || z == p
    case Conditional(c, y, z) => c == p || y == p || z == p
    case Index(_, y) => y == p
    case Select(_, _, y, z) => y == p || z == p
    case Concatenation(cs) => p in cs
  }

  /** Projections are e itself, where e is an access to one symbol, or operands of their own inside it. */
  ghost predicate Outermost(a: Arena, uses: seq<Use>, e: nat) {
    forall i :: 0 <= i < |uses| ==> uses[i].projection == e || Operand(a, uses[i].projection)
  }

  ghost predicate Described(a: Arena, uses: seq<Use>, e: nat)
    requires ArenaOk(a)
  {
    UsesOk(a, uses) && Outermost(a, uses, e)
  }

  lemma DescribedBoth(a: Arena, x: Recording, y: Recording, e: nat)
    requires ArenaOk(a) && Both(x, y).Recorded? && Described(a, x.uses, e) && Described(a, y.uses, e)
    ensures Described(a, Both(x, y).uses, e)
  {
    hide UseOk, Operand;
  }

  /** Where e is an operand of its own, it need not be named. */
  lemma DescribedOperand(a: Arena, uses: seq<Use>, p: nat, e: nat)
    requires ArenaOk(a) && Described(a, uses, p) && Operand(a, p)
    ensures Described(a, uses, e)
  {
    hide UseOk, Operand;
  }

  /** An access on the way to the base: each symbol reached from x is reached from the projection. */
  ghost predicate Reaches(a: Arena, projection: Option<nat>, e: nat)
    requires ArenaOk(a)
  {
    From(projection, e) < |a.exprs| && e < |a.exprs| && forall s :: WritesTo(a, e, s) ==> WritesTo(a, From(projection, e), s)
  }

  lemma {:induction false} UsesAreDescribed(a: Arena, e: nat, projection: Option<nat>, guard: Conjunction, context: Context)
    requires ArenaOk(a) && e < |a.exprs| && Canonical(guard) && Reaches(a, projection, e)
    requires UsesOf(a, e, projection, guard, context).Recorded?
    ensures Described(a, UsesOf(a, e, projection, guard, context).uses, From(projection, e))
    decreases e, 1, 0
  {
    hide Conjoin, Canonical, Described, Operand;
    var top := From(projection, e);
    if guard.All? {
      match a.exprs[e]
      case Literal(_) => NothingDescribed(a, top);
      case Symbol(t) => OneDescribed(a, UsesOf(a, e, projection, guard, context).uses, top);
      case Group(x) => UsesAreDescribed(a, x, Some(top), guard, context);
      case Unary(x) => OperandDescribed(a, e, x, guard, context, top);
      case Conversion(x) => OperandDescribed(a, e, x, guard, context, top);
      case Binary(x, y) =>
        OperandDescribed(a, e, x, guard, context, top);
        OperandDescribed(a, e, y, guard, context, top);
        DescribedBoth(a, UsesOf(a, x, None, guard, context), UsesOf(a, y, None, guard, context), top);
      case Conditional(c, x, y) =>
        var whenTrue, whenFalse := Conjoin(guard, c, true), Conjoin(guard, c, false);
        var ut, uf := UsesOf(a, x, None, whenTrue, context), UsesOf(a, y, None, whenFalse, context);
        OperandDescribed(a, e, c, guard, Read, top);
        OperandDescribed(a, e, x, whenTrue, context, top);
        OperandDescribed(a, e, y, whenFalse, context, top);
        DescribedBoth(a, ut, uf, top);
        DescribedBoth(a, UsesOf(a, c, None, guard, Read), Both(ut, uf), top);
      case Index(x, y) =>
        UsesAreDescribed(a, x, Some(top), guard, context);
        OperandDescribed(a, e, y, guard, IndexUse, top);
        DescribedBoth(a, UsesOf(a, x, Some(top), guard, context), UsesOf(a, y, None, guard, IndexUse), top);
      case Select(isRange, x, y, z) =>
        var left := if isRange then TypeUse else IndexUse;
        UsesAreDescribed(a, x, Some(top), guard, context);
        OperandDescribed(a, e, y, guard, left, top);
        OperandDescribed(a, e, z, guard, TypeUse, top);
        DescribedBoth(a, UsesOf(a, y, None, guard, left), UsesOf(a, z, None, guard, TypeUse), top);
        DescribedBoth(a, UsesOf(a, x, Some(top), guard, context), BoundUses(a, isRange, y, z, guard), top);
      case Concatenation(cs) => AllUsesAreDescribed(a, e, cs, guard, context, top);
    } else {
      NothingDescribed(a, top);
    }
  }

  lemma NothingDescribed(a: Arena, e: nat)
    requires ArenaOk(a)
    ensures Described(a, [], e)
  {
  }

  lemma OneDescribed(a: Arena, uses: seq<Use>, e: nat)
    requires ArenaOk(a) && |uses| == 1 && UseOk(a, uses[0]) && uses[0].projection == e
    ensures Described(a, uses, e)
  {
    hide UseOk;
  }

  lemma {:induction false} OperandDescribed(a: Arena, e: nat, x: nat, guard: Conjunction, context: Context, top: nat)
    requires ArenaOk(a) && x < e < |a.exprs| && Canonical(guard) && OperandOf(a.exprs[e], x)
    requires UsesOf(a, x, None, guard, context).Recorded?
    ensures Described(a, UsesOf(a, x, None, guard, context).uses, top)
    decreases e, 0, 0
  {
    hide UsesOf, Canonical, Described;
    assert Operand(a, x);
    UsesAreDescribed(a, x, None, guard, context);
    DescribedOperand(a, UsesOf(a, x, None, guard, context).uses, x, top);
  }

  lemma {:induction false} AllUsesAreDescribed(a: Arena, e: nat, cs: seq<nat>, guard: Conjunction, context: Context, top: nat)
    requires ArenaOk(a) && e < |a.exprs| && Canonical(guard) && forall i :: 0 <= i < |cs| ==> cs[i] < e
    requires forall i :: 0 <= i < |cs| ==> OperandOf(a.exprs[e], cs[i])
    requires UsesOfAll(a, e, cs, guard, context).Recorded?
    ensures Described(a, UsesOfAll(a, e, cs, guard, context).uses, top)
    decreases e, 0, 1 + |cs|
  {
    hide UsesOf, Canonical, Described;
    if cs == [] {
      NothingDescribed(a, top);
    } else {
      var front, last := cs[..|cs| - 1], cs[|cs| - 1];
      AllUsesAreDescribed(a, e, front, guard, context, top);
      OperandDescribed(a, e, last, guard, context, top);
      DescribedBoth(a, UsesOfAll(a, e, front, guard, context), UsesOf(a, last, None, guard, context), top);
    }
  }

  lemma {:induction false} ProjectionUsesAreDescribed(a: Arena, e: nat, projection: Option<nat>, guard: Conjunction)
    requires ArenaOk(a) && e < |a.exprs| && guard.All? && Canonical(guard) && Reaches(a, projection, e)
    requires ProjectionUses(a, e, projection, guard).Recorded?
    ensures Described(a, ProjectionUses(a, e, projection, guard).uses, From(projection, e))
    decreases e
  {
    hide UsesOf, Canonical, Described, Operand;
    var top := From(projection, e);
    match a.exprs[e]
    case Symbol(t) => OneDescribed(a, ProjectionUses(a, e, projection, guard).uses, top);
    case Group(x) => ProjectionUsesAreDescribed(a, x, Some(top), guard);
    case Index(x, y) =>
      ProjectionUsesAreDescribed(a, x, Some(top), guard);
      OperandDescribed(a, e, y, guard, IndexUse, top);
      DescribedBoth(a, ProjectionUses(a, x, Some(top), guard), UsesOf(a, y, None, guard, IndexUse), top);
    case Select(isRange, x, y, z) =>
      var left := if isRange then TypeUse else IndexUse;
      ProjectionUsesAreDescribed(a, x, Some(top), guard);
      OperandDescribed(a, e, y, guard, left, top);
      OperandDescribed(a, e, z, guard, TypeUse, top);
      DescribedBoth(a, UsesOf(a, y, None, guard, left), UsesOf(a, z, None, guard, TypeUse), top);
      DescribedBoth(a, ProjectionUses(a, x, Some(top), guard), BoundUses(a, isRange, y, z, guard), top);
  }

  lemma {:induction false} TargetUsesAreOk(a: Arena, t: Target, guard: Conjunction)
    requires ArenaOk(a) && guard.All? && Canonical(guard) && TargetUses(a, t, guard).Recorded?
    ensures UsesOk(a, TargetUses(a, t, guard).uses)
  {
    hide Canonical, ProjectionUses, UseOk;
    match t
    case Projection(e) => ProjectionUsesAreDescribed(a, e, None, guard);
    case Concatenated(ts) => AllTargetUsesAreOk(a, ts, guard);
  }

  lemma {:induction false} AllTargetUsesAreOk(a: Arena, ts: seq<Target>, guard: Conjunction)
    requires ArenaOk(a) && guard.All? && Canonical(guard) && TargetUsesAll(a, ts, guard).Recorded?
    ensures UsesOk(a, TargetUsesAll(a, ts, guard).uses)
  {
    hide Canonical, TargetUses, UseOk;
    if ts != [] {
      AllTargetUsesAreOk(a, ts[..|ts| - 1], guard);
      TargetUsesAreOk(a, ts[|ts| - 1], guard);
    }
  }

  // ----- signals

  predicate Names(a: Arena, s: nat, signal: nat) { s < |a.symbols| && SignalOf(a.symbols[s]) == Some(Some(signal)) }

  /** Some use reads the signal's value, as an operand or as an index. */
  ghost predicate ReadIn(uses: seq<Use>, signal: nat) {
    exists i :: 0 <= i < |uses| && (uses[i].context.Read? || uses[i].context.IndexUse?) && uses[i].signal == Some(signal)
  }

  ghost predicate LiveSignal(a: Arena, uses: seq<Use>, signal: nat, v: Valuation, s: nat) {
    Names(a, s, signal) && LiveRead(uses, v, s)
  }

  /** A signal is recorded as read exactly when some symbol that names it is read under some valuation. */
  lemma ReadInIffLive(a: Arena, uses: seq<Use>, signal: nat)
    requires ArenaOk(a) && UsesOk(a, uses)
    ensures ReadIn(uses, signal) <==> exists v: Valuation, s: nat :: LiveSignal(a, uses, signal, v, s)
  {
    hide Holds, WritesTo, Canonical;
    if i :| 0 <= i < |uses| && (uses[i].context.Read? || uses[i].context.IndexUse?) && uses[i].signal == Some(signal) {
      assert UseOk(a, uses[i]);
      var v := Model(uses[i].guard.atoms, c => true);
      HoldsInModel(uses[i].guard);
      assert LiveSignal(a, uses, signal, v, uses[i].symbol);
    }
    if v: Valuation, s: nat :| LiveSignal(a, uses, signal, v, s) {
      var i :| 0 <= i < |uses| && uses[i].symbol == s && (uses[i].context.Read? || uses[i].context.IndexUse?)
               && Holds(uses[i].guard, v);
      assert UseOk(a, uses[i]);
    }
  }

  lemma HoldsInModel(guard: Conjunction)
    requires guard.All? && Canonical(guard)
    ensures Holds(guard, Model(guard.atoms, c => true))
  {
    ModelSatisfies(guard.atoms, c => true);
  }
}
