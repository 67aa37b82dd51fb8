/** What an assignment's target writes, and what its indices read. */
module Targets {
  import opened Options
  import opened Predicates
  import opened ExpressionUses

  /** One projection of a signal or variable, or several targets side by side. */
  datatype Target = Projection(expression: nat) | Concatenated(parts: seq<Target>)

  // ----- what an assignment to the target does

  /** The symbol behind the projections of e. */
  ghost predicate WritesTo(a: Arena, e: nat, s: nat)
    requires ArenaOk(a) && e < |a.exprs|
    decreases e
  {
    match a.exprs[e]
    case Symbol(t) => t == s
    case Group(x) => WritesTo(a, x, s)
    case Index(x, _) => WritesTo(a, x, s)
    case Select(_, x, _, _) => WritesTo(a, x, s)
    case _ => false
  }

  /** The symbols touched in finding the place e stands for. */
  ghost predicate LocatingTouches(a: Arena, e: nat, v: Valuation, s: nat)
    requires ArenaOk(a) && e < |a.exprs|
    decreases e
  {
    match a.exprs[e]
    case Group(x) => LocatingTouches(a, x, v, s)
    case Index(x, y) => LocatingTouches(a, x, v, s) || Touches(a, y, v, s)
    case Select(_, x, y, z) => LocatingTouches(a, x, v, s) || Touches(a, y, v, s) || Touches(a, z, v, s)
    case _ => false
  }

  ghost predicate Writes(a: Arena, t: Target, s: nat)
    requires ArenaOk(a)
  {
    match t
    case Projection(e) => e < |a.exprs| && WritesTo(a, e, s)
    case Concatenated(ts) => exists i :: 0 <= i < |ts| && Writes(a, ts[i], s)
  }

  ghost predicate Locates(a: Arena, t: Target, v: Valuation, s: nat)
    requires ArenaOk(a)
  {
    match t
    case Projection(e) => e < |a.exprs| && LocatingTouches(a, e, v, s)
    case Concatenated(ts) => exists i :: 0 <= i < |ts| && Locates(a, ts[i], v, s)
  }

  // ----- what is recorded

  /** visit_lvalue: the projected symbol is written, indices are read; nothing else can be assigned to. */
  function ProjectionUses(a: Arena, e: nat, projection: Option<nat>, guard: Conjunction): Recording
    requires ArenaOk(a) && e < |a.exprs| && Canonical(guard)
    decreases e
  {
    match a.exprs[e]
    case Symbol(s) =>
      if s < |a.symbols| && SignalOf(a.symbols[s]).Some? then
        Recorded([Use(From(projection, e), s, SignalOf(a.symbols[s]).value, guard, Lvalue)])
      else Refused([])
    case Group(x) => ProjectionUses(a, x, Some(From(projection, e)), guard)
    case Index(x, y) =>
      Both(ProjectionUses(a, x, Some(From(projection, e)), guard), UsesOf(a, y, None, guard, IndexUse))
    case Select(isRange, x, y, z) =>
      Both(ProjectionUses(a, x, Some(From(projection, e)), guard),
           Both(UsesOf(a, y, None, guard, if isRange then TypeUse else IndexUse), UsesOf(a, z, None, guard, TypeUse)))
    case _ => Refused([])
  }

  /** analyze_lvalue. */
  function TargetUses(a: Arena, t: Target, guard: Conjunction): Recording
    requires ArenaOk(a) && Canonical(guard)
  {
    match t
    case Projection(e) => if e < |a.exprs| then ProjectionUses(a, e, None, guard) else Refused([])
    case Concatenated(ts) => TargetUsesAll(a, ts, guard)
  }

  function TargetUsesAll(a: Arena, ts: seq<Target>, guard: Conjunction): Recording
    requires ArenaOk(a) && Canonical(guard)
  {
    if ts == [] then Recorded([])
    else Both(TargetUsesAll(a, ts[..|ts| - 1], guard), TargetUses(a, ts[|ts| - 1], guard))
  }

  /** Under an impossible guard no target is looked at. */
  function AnalysedTarget(a: Arena, t: Target, guard: Conjunction): Recording
    requires ArenaOk(a) && Canonical(guard)
  {
    if guard.Impossible? then Recorded([]) else TargetUses(a, t, guard)
  }

  // ----- it is exact

  /** Written symbols are recorded under the guard itself, with their signals. */
  ghost predicate WritesOk(a: Arena, uses: seq<Use>, guard: Conjunction) {
    forall i :: 0 <= i < |uses| && uses[i].context.Lvalue? ==>
      && uses[i].guard == guard && uses[i].symbol < |a.symbols|
      && SignalOf(a.symbols[uses[i].symbol]) == Some(uses[i].signal)
  }

  ghost predicate Written(uses: seq<Use>, s: nat) {
    exists i :: 0 <= i < |uses| && uses[i].context.Lvalue? && uses[i].symbol == s
  }

  lemma WritesJoin(a: Arena, x: seq<Use>, y: seq<Use>, guard: Conjunction, s: nat)
    requires WritesOk(a, x, guard) && WritesOk(a, y, guard)
    ensures WritesOk(a, x + y, guard) && (Written(x + y, s) <==> Written(x, s) || Written(y, s))
  {
    if i :| 0 <= i < |x| && x[i].context.Lvalue? && x[i].symbol == s {
      assert (x + y)[i] == x[i];
    }
    if i :| 0 <= i < |y| && y[i].context.Lvalue? && y[i].symbol == s {
      assert (x + y)[|x| + i] == y[i];
    }
  }

  ghost predicate ReadsOnly(uses: seq<Use>) { forall i :: 0 <= i < |uses| ==> !uses[i].context.Lvalue? }

  /** Analysing an expression that is read records no write. */
  lemma {:induction false} ReadingOnlyReads(a: Arena, e: nat, projection: Option<nat>, guard: Conjunction, context: Context)
    requires ArenaOk(a) && e < |a.exprs| && Canonical(guard) && !context.Lvalue?
    requires UsesOf(a, e, projection, guard, context).Recorded?
    ensures ReadsOnly(UsesOf(a, e, projection, guard, context).uses)
    decreases e, 1, 0
  {
    hide Conjoin, Canonical;
    if guard.All? {
      match a.exprs[e]
      case Literal(_) =>
      case Symbol(t) =>
      case Group(x) => ReadingOnlyReads(a, x, Some(From(projection, e)), guard, context);
      case Unary(x) => ReadingOnlyReads(a, x, None, guard, context);
      case Conversion(x) => ReadingOnlyReads(a, x, None, guard, context);
      case Binary(x, y) =>
        ReadingOnlyReads(a, x, None, guard, context);
        ReadingOnlyReads(a, y, None, guard, context);
      case Conditional(c, x, y) =>
        ReadingOnlyReads(a, c, None, guard, Read);
        ReadingOnlyReads(a, x, None, Conjoin(guard, c, true), context);
        ReadingOnlyReads(a, y, None, Conjoin(guard, c, false), context);
      case Index(x, y) =>
        ReadingOnlyReads(a, x, Some(From(projection, e)), guard, context);
        ReadingOnlyReads(a, y, None, guard, IndexUse);
      case Select(isRange, x, y, z) =>
        ReadingOnlyReads(a, x, Some(From(projection, e)), guard, context);
        ReadingOnlyReads(a, y, None, guard, if isRange then TypeUse else IndexUse);
        ReadingOnlyReads(a, z, None, guard, TypeUse);
      case Concatenation(cs) => AllReadingOnlyReads(a, e, cs, guard, context);
    }
  }

  lemma {:induction false} AllReadingOnlyReads(a: Arena, e: nat, cs: seq<nat>, guard: Conjunction, context: Context)
    requires ArenaOk(a) && e < |a.exprs| && Canonical(guard) && !context.Lvalue?
    requires forall i :: 0 <= i < |cs| ==> cs[i] < e
    requires UsesOfAll(a, e, cs, guard, context).Recorded?
    ensures ReadsOnly(UsesOfAll(a, e, cs, guard, context).uses)
    decreases e, 0, |cs|
  {
    hide UsesOf;
    if cs != [] {
      AllReadingOnlyReads(a, e, cs[..|cs| - 1], guard, context);
      ReadingOnlyReads(a, cs[|cs| - 1], None, guard, context);
    }
  }

  /** What a target's uses `uses` say about symbol s, when it writes and locates as given. */
  ghost predicate Exact(a: Arena, uses: seq<Use>, guard: Conjunction, v: Valuation, s: nat, writes: bool, locates: bool) {
    && WritesOk(a, uses, guard) && (Written(uses, s) <==> writes)
    && (Live(uses, v, s) <==> Holds(guard, v) && (writes || locates))
  }

  lemma ExactJoin(a: Arena, x: Recording, y: Recording, guard: Conjunction, v: Valuation, s: nat,
                  writes: bool, locates: bool, writesToo: bool, locatesToo: bool)
    requires Both(x, y).Recorded? && Exact(a, x.uses, guard, v, s, writes, locates)
    requires Exact(a, y.uses, guard, v, s, writesToo, locatesToo)
    ensures Exact(a, Both(x, y).uses, guard, v, s, writes || writesToo, locates || locatesToo)
  {
    hide Live, Written, WritesOk, Holds;
    WritesJoin(a, x.uses, y.uses, guard, s);
    LiveBoth(x, y, v, s);
  }

  lemma ReadIsExact(a: Arena, e: nat, guard: Conjunction, context: Context, v: Valuation, s: nat)
    requires ArenaOk(a) && e < |a.exprs| && Canonical(guard) && !context.Lvalue?
    requires UsesOf(a, e, None, guard, context).Recorded?
    ensures Exact(a, UsesOf(a, e, None, guard, context).uses, guard, v, s, false, Touches(a, e, v, s))
  {
    hide UsesOf, Touches, Live, Holds;
    UsesAreExact(a, e, None, guard, context, v, s);
    ReadingOnlyReads(a, e, None, guard, context);
  }

  lemma {:induction false} ProjectionIsExact(a: Arena, e: nat, projection: Option<nat>, guard: Conjunction, v: Valuation, s: nat)
    requires ArenaOk(a) && e < |a.exprs| && Canonical(guard) && ProjectionUses(a, e, projection, guard).Recorded?
    ensures Exact(a, ProjectionUses(a, e, projection, guard).uses, guard, v, s, WritesTo(a, e, s), LocatingTouches(a, e, v, s))
    decreases e
  {
    hide Exact, UsesOf, Touches, Canonical;
    match a.exprs[e]
    case Symbol(t) => WriteIsExact(a, ProjectionUses(a, e, projection, guard).uses, guard, v, s);
    case Group(x) => ProjectionIsExact(a, x, Some(From(projection, e)), guard, v, s);
    case Index(x, y) =>
      var on := Some(From(projection, e));
      ProjectionIsExact(a, x, on, guard, v, s);
      ReadIsExact(a, y, guard, IndexUse, v, s);
      ExactJoin(a, ProjectionUses(a, x, on, guard), UsesOf(a, y, None, guard, IndexUse), guard, v, s,
                WritesTo(a, x, s), LocatingTouches(a, x, v, s), false, Touches(a, y, v, s));
    case Select(isRange, x, y, z) =>
      var on, context := Some(From(projection, e)), if isRange then TypeUse else IndexUse;
      ProjectionIsExact(a, x, on, guard, v, s);
      ReadIsExact(a, y, guard, context, v, s);
      ReadIsExact(a, z, guard, TypeUse, v, s);
      ExactJoin(a, UsesOf(a, y, None, guard, context), UsesOf(a, z, None, guard, TypeUse), guard, v, s,
                false, Touches(a, y, v, s), false, Touches(a, z, v, s));
      ExactJoin(a, ProjectionUses(a, x, on, guard),
                Both(UsesOf(a, y, None, guard, context), UsesOf(a, z, None, guard, TypeUse)), guard, v, s,
                WritesTo(a, x, s), LocatingTouches(a, x, v, s), false, Touches(a, y, v, s) || Touches(a, z, v, s));
  }

  lemma WriteIsExact(a: Arena, uses: seq<Use>, guard: Conjunction, v: Valuation, s: nat)
    requires |uses| == 1 && uses[0].context.Lvalue? && uses[0].guard == guard && uses[0].symbol < |a.symbols|
    requires SignalOf(a.symbols[uses[0].symbol]) == Some(uses[0].signal)
    ensures Exact(a, uses, guard, v, s, uses[0].symbol == s, false)
  {
    OneLive(uses[0], v, s);
    assert uses == [uses[0]];
    assert uses[0].symbol == s ==> Written(uses, s);
    hide Holds, Live;
  }

  /**
   * The uses recorded for a target: those as target are of exactly the symbols it writes, under its guard, and the
   * live ones are of exactly the symbols it writes or needs to locate what it writes.
   */
  lemma {:induction false} TargetIsExact(a: Arena, t: Target, guard: Conjunction, v: Valuation, s: nat)
    requires ArenaOk(a) && Canonical(guard) && TargetUses(a, t, guard).Recorded?
    ensures Exact(a, TargetUses(a, t, guard).uses, guard, v, s, Writes(a, t, s), Locates(a, t, v, s))
  {
    hide Exact, Canonical, ProjectionUses, WritesTo, LocatingTouches;
    match t
    case Projection(e) => ProjectionIsExact(a, e, None, guard, v, s);
    case Concatenated(ts) => TargetsAreExact(a, ts, guard, v, s);
  }

  lemma {:induction false} TargetsAreExact(a: Arena, ts: seq<Target>, guard: Conjunction, v: Valuation, s: nat)
    requires ArenaOk(a) && Canonical(guard) && TargetUsesAll(a, ts, guard).Recorded?
    ensures Exact(a, TargetUsesAll(a, ts, guard).uses, guard, v, s,
                  exists i :: 0 <= i < |ts| && Writes(a, ts[i], s), exists i :: 0 <= i < |ts| && Locates(a, ts[i], v, s))
  {
    hide Canonical, TargetUses, Writes, Locates, Holds;
    if ts == [] {
      NothingLive(v, s);
    } else {
      var front, last := ts[..|ts| - 1], ts[|ts| - 1];
      TargetsAreExact(a, front, guard, v, s);
      TargetIsExact(a, last, guard, v, s);
      hide Exact;
      assert forall i :: 0 <= i < |front| ==> front[i] == ts[i];
      ExactJoin(a, TargetUsesAll(a, front, guard), TargetUses(a, last, guard), guard, v, s,
                exists i :: 0 <= i < |front| && Writes(a, front[i], s), exists i :: 0 <= i < |front| && Locates(a, front[i], v, s),
                Writes(a, last, s), Locates(a, last, v, s));
    }
  }

  /** Once a part fails, the whole target fails. */
  lemma {:induction false} PartFailureStays(a: Arena, ts: seq<Target>, i: nat, guard: Conjunction)
    requires ArenaOk(a) && Canonical(guard) && i <= |ts| && TargetUsesAll(a, ts[..i], guard).Refused?
    ensures TargetUsesAll(a, ts, guard) == TargetUsesAll(a, ts[..i], guard)
    decreases |ts|
  {
    if i == |ts| {
      assert ts[..i] == ts;
    } else {
      var front := ts[..|ts| - 1];
      assert front[..i] == ts[..i];
      PartFailureStays(a, front, i, guard);
    }
  }
}
