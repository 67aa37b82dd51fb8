/** The recursive visitor that records the uses of an expression, and its effect on the analysis. */
module UseAnalyzer {
  import opened FlagTables
  import opened Options
  import opened Predicates
  import opened ExpressionUses
  import opened Targets

  datatype RecordedUse =
    RecordedUse(projection: nat, symbol: nat, signal: Option<nat>, predicateId: nat, context: Context)

  /** All contexts in which each signal was seen. */
  function Summarised(signals: seq<Entry<Context>>, uses: seq<Use>): seq<Entry<Context>> {
    if uses == [] then signals
    else
      var before := Summarised(signals, uses[..|uses| - 1]);
      var last := uses[|uses| - 1];
      if last.signal.Some? then Merged(before, last.signal.value, {last.context}) else before
  }

  lemma {:induction false} SummarisedTwice(signals: seq<Entry<Context>>, x: seq<Use>, y: seq<Use>)
    ensures Summarised(Summarised(signals, x), y) == Summarised(signals, x + y)
    decreases |y|
  {
    if y == [] {
      assert x + y == x;
    } else {
      SummarisedTwice(signals, x, y[..|y| - 1]);
      assert (x + y)[..|x + y| - 1] == x + y[..|y| - 1];
    }
  }

  /** The summary of a signal is exactly the contexts of its recorded uses. */
  lemma {:induction false} SummaryIsExact(uses: seq<Use>, signal: nat, context: Context)
    ensures Has(Summarised([], uses), signal, context) <==>
            exists i :: 0 <= i < |uses| && uses[i].signal == Some(signal) && uses[i].context == context
    decreases |uses|
  {
    if uses != [] {
      var front, last := uses[..|uses| - 1], uses[|uses| - 1];
      SummaryIsExact(front, signal, context);
      if last.signal.Some? {
        MergedHas(Summarised([], front), last.signal.value, {last.context}, signal, context);
      }
      assert forall i :: 0 <= i < |front| ==> front[i] == uses[i];
    }
  }

  lemma {:induction false} SummaryGrows(signals: seq<Entry<Context>>, uses: seq<Use>)
    ensures |signals| <= |Summarised(signals, uses)|
  {
    if uses != [] {
      SummaryGrows(signals, uses[..|uses| - 1]);
    }
  }

  // ----- the effect of a visit

  /** The predicate arena and the analysis at one moment. */
  datatype Snapshot =
    Snapshot(predicates: seq<Stored>, atoms: seq<Atom>, uses: seq<RecordedUse>, signals: seq<Entry<Context>>)

  ghost predicate SnapshotOk(s: Snapshot) {
    && Interned(s.predicates, s.atoms)
    && forall i :: 0 <= i < |s.uses| ==> s.uses[i].predicateId < |s.predicates|
  }

  ghost function DenoteOne(u: RecordedUse, predicates: seq<Stored>, atoms: seq<Atom>): Use
    requires Interned(predicates, atoms) && u.predicateId < |predicates|
  {
    Use(u.projection, u.symbol, u.signal, Meaning(predicates[u.predicateId], atoms), u.context)
  }

  /** The recorded uses with their guards in place of predicate ids. */
  ghost function Denote(s: Snapshot): (r: seq<Use>)
    requires SnapshotOk(s)
    ensures |r| == |s.uses|
  {
    seq(|s.uses|, i requires 0 <= i < |s.uses| => DenoteOne(s.uses[i], s.predicates, s.atoms))
  }

  /** Recording the uses `us`, whether the visit then goes on or fails, turns s into t. */
  ghost predicate Effect(s: Snapshot, t: Snapshot, us: Recording) {
    && SnapshotOk(s) && SnapshotOk(t)
    && s.predicates <= t.predicates && s.atoms <= t.atoms
    && |s.uses| <= |t.uses| && s.uses == t.uses[..|s.uses|]
    && Denote(t) == Denote(s) + us.uses && t.signals == Summarised(s.signals, us.uses)
  }

  lemma GuardStays(s: Snapshot, t: Snapshot, us: Recording, id: nat)
    requires Effect(s, t, us) && id < |s.predicates|
    ensures id < |t.predicates| && Meaning(t.predicates[id], t.atoms) == Meaning(s.predicates[id], s.atoms)
  {
    MeaningStays(s.predicates[id], s.atoms, t.atoms);
  }

  lemma NoEffect(s: Snapshot, us: Recording)
    requires SnapshotOk(s) && us.uses == []
    ensures Effect(s, s, us)
  {
  }

  lemma EffectsCompose(s: Snapshot, t: Snapshot, u: Snapshot, x: Recording, y: Recording)
    requires Effect(s, t, x) && x.Recorded? && Effect(t, u, y)
    ensures Effect(s, u, Both(x, y))
  {
    SummarisedTwice(s.signals, x.uses, y.uses);
    assert Denote(s) + x.uses + y.uses == Denote(s) + (x.uses + y.uses);
  }

  /** Interning predicates records nothing. */
  lemma GrowthHasNoUses(s: Snapshot, t: Snapshot)
    requires SnapshotOk(s) && Interned(t.predicates, t.atoms) && s.predicates <= t.predicates && s.atoms <= t.atoms
    requires s.uses == t.uses && s.signals == t.signals
    ensures Effect(s, t, Recorded([]))
  {
    forall i | 0 <= i < |s.uses|
      ensures DenoteOne(t.uses[i], t.predicates, t.atoms) == DenoteOne(s.uses[i], s.predicates, s.atoms)
    {
      MeaningStays(s.predicates[s.uses[i].predicateId], s.atoms, t.atoms);
    }
    assert Denote(t) == Denote(s) + [];
  }

  lemma EffectThenGrowth(s: Snapshot, t: Snapshot, u: Snapshot, x: Recording)
    requires Effect(s, t, x) && Effect(t, u, Recorded([]))
    ensures Effect(s, u, x)
  {
    assert Denote(t) + [] == Denote(t);
  }

  /** Once a child of a concatenation fails, the whole fails. */
  lemma {:induction false} FailureStays(a: Arena, e: nat, cs: seq<nat>, i: nat, guard: Conjunction, context: Context)
    requires ArenaOk(a) && e < |a.exprs| && Canonical(guard) && forall j :: 0 <= j < |cs| ==> cs[j] < e
    requires i <= |cs| && UsesOfAll(a, e, cs[..i], guard, context).Refused?
    ensures UsesOfAll(a, e, cs, guard, context) == UsesOfAll(a, e, cs[..i], guard, context)
    decreases |cs|
  {
    if i == |cs| {
      assert cs[..i] == cs;
    } else {
      var front := cs[..|cs| - 1];
      assert front[..i] == cs[..i];
      FailureStays(a, e, front, i, guard, context);
    }
  }

  class Analyzer {
    const arena: Arena
    const model: PredicateModel
    var uses: seq<RecordedUse>
    var signals: seq<Entry<Context>>

    ghost predicate Valid()
      reads this, model
    {
      && ArenaOk(arena) && model.Valid() && model.integral == arena.integral
      && forall i :: 0 <= i < |uses| ==> uses[i].predicateId < |model.predicates|
    }

    ghost function Now(): Snapshot
      reads this, model
    {
      Snapshot(model.predicates, model.atoms, uses, signals)
    }

    constructor (arena: Arena, model: PredicateModel)
      requires ArenaOk(arena) && model.Valid() && model.integral == arena.integral
      ensures Valid() && this.arena == arena && this.model == model && uses == [] && signals == []
    {
      this.arena, this.model, uses, signals := arena, model, [], [];
    }

    method AddSignalSummary(signal: nat, context: Context)
      modifies this`signals
      ensures signals == Merged(old(signals), signal, {context})
    {
      signals := Merge(signals, signal, {context});
    }

    method AddSymbolUse(symbol: nat, expression: nat, projection: Option<nat>, predicateId: nat, context: Context)
      returns (ok: bool)
      requires Valid() && predicateId < |model.predicates|
      modifies this
      ensures Valid() && ok == (symbol < |arena.symbols| && SignalOf(arena.symbols[symbol]).Some?)
      ensures ok ==> Effect(old(Now()), Now(), Recorded([Use(From(projection, expression), symbol,
                                                           SignalOf(arena.symbols[symbol]).value,
                                                           model.MeaningOf(predicateId), context)]))
      ensures !ok ==> Now() == old(Now())
    {
      if symbol >= |arena.symbols| {
        return false;
      }
      var signal := SignalOf(arena.symbols[symbol]);
      if signal.None? {
        return false;
      }
      if signal.value.Some? {
        AddSignalSummary(signal.value.value, context);
      }
      uses := uses + [RecordedUse(From(projection, expression), symbol, signal.value, predicateId, context)];
      assert Denote(Now()) == old(Denote(Now())) + [DenoteOne(uses[|uses| - 1], model.predicates, model.atoms)];
      return true;
    }

    /** Records the uses of an expression under a guard; fails for unknown ids, conditions and symbols. */
    method Visit(expression: nat, projection: Option<nat>, predicateId: nat, context: Context) returns (ok: bool)
      requires Valid()
      modifies this, model
      ensures Valid()
      ensures !(expression < |arena.exprs| && predicateId < |old(model.predicates)|) ==> !ok && Now() == old(Now())
      ensures expression < |arena.exprs| && predicateId < |old(model.predicates)| ==>
        var us := UsesOf(arena, expression, projection, old(model.MeaningOf(predicateId)), context);
        ok == us.Recorded? && Effect(old(Now()), Now(), us)
      decreases expression, 1, 0
    {
      if expression >= |arena.exprs| || predicateId >= |model.predicates| {
        return false;
      }
      ghost var s, guard := Now(), model.MeaningOf(predicateId);
      ghost var us := UsesOf(arena, expression, projection, guard, context);
      hide Effect;
      if model.predicates[predicateId].impossible {
        NoEffect(s, us);
        return true;
      }
      match arena.exprs[expression]
      case Literal(_) =>
        NoEffect(s, us);
        ok := true;
      case Symbol(symbol) =>
        ok := AddSymbolUse(symbol, expression, projection, predicateId, context);
        if !ok {
          NoEffect(s, us);
        }
      case Group(x) => ok := Visit(x, Some(From(projection, expression)), predicateId, context);
      case Unary(x) => ok := Visit(x, None, predicateId, context);
      case Conversion(x) => ok := Visit(x, None, predicateId, context);
      case Binary(x, y) => ok := VisitBoth(x, None, context, y, context, predicateId, predicateId, expression);
      case Conditional(c, x, y) => ok := VisitConditional(c, x, y, predicateId, context, expression);
      case Index(x, y) =>
        ok := VisitBoth(x, Some(From(projection, expression)), context, y, IndexUse, predicateId, predicateId, expression);
      case Select(isRange, x, y, z) => ok := VisitSelect(isRange, x, y, z, projection, predicateId, context, expression);
      case Concatenation(cs) => ok := VisitAll(cs, predicateId, context, expression);
    }

    method VisitSelect(isRange: bool, x: nat, y: nat, z: nat, projection: Option<nat>, predicateId: nat,
                       context: Context, parent: nat)
      returns (ok: bool)
      requires Valid() && x < parent && y < parent && z < parent < |arena.exprs| && predicateId < |model.predicates|
      requires arena.exprs[parent] == Select(isRange, x, y, z) && model.MeaningOf(predicateId).All?
      modifies this, model
      ensures Valid()
      ensures var us := UsesOf(arena, parent, projection, old(model.MeaningOf(predicateId)), context);
              ok == us.Recorded? && Effect(old(Now()), Now(), us)
      decreases parent, 0, 1
    {
      hide Effect, Meaning, Canonical;
      ghost var s, guard := Now(), model.MeaningOf(predicateId);
      ghost var ux := UsesOf(arena, x, Some(From(projection, parent)), guard, context);
      ok := Visit(x, Some(From(projection, parent)), predicateId, context);
      ghost var t := Now();
      var leftContext := if isRange then TypeUse else IndexUse;
      if ok {
        GuardStays(s, t, ux, predicateId);
        ok := VisitBoth(y, None, leftContext, z, TypeUse, predicateId, predicateId, parent);
        EffectsCompose(s, t, Now(), ux, Both(UsesOf(arena, y, None, guard, leftContext),
                                             UsesOf(arena, z, None, guard, TypeUse)));
      }
    }

    /** Two operands, each under its own guard. */
    method VisitBoth(x: nat, projection: Option<nat>, context: Context, y: nat, otherContext: Context,
                     predicateId: nat, otherId: nat, ghost parent: nat)
      returns (ok: bool)
      requires Valid() && x < parent && y < parent < |arena.exprs|
      requires predicateId < |model.predicates| && otherId < |model.predicates|
      modifies this, model
      ensures Valid()
      ensures var us := Both(UsesOf(arena, x, projection, old(model.MeaningOf(predicateId)), context),
                             UsesOf(arena, y, None, old(model.MeaningOf(otherId)), otherContext));
              ok == us.Recorded? && Effect(old(Now()), Now(), us)
      decreases parent, 0, 0
    {
      hide Effect, UsesOf, Meaning, Canonical;
      ghost var s, other := Now(), model.MeaningOf(otherId);
      ghost var ux := UsesOf(arena, x, projection, model.MeaningOf(predicateId), context);
      ok := Visit(x, projection, predicateId, context);
      ghost var t := Now();
      if ok {
        GuardStays(s, t, ux, otherId);
        ok := Visit(y, None, otherId, otherContext);
        EffectsCompose(s, t, Now(), ux, UsesOf(arena, y, None, other, otherContext));
      }
    }

    /** The guards of the two branches of a conditional; none when its condition is not integral. */
    method BranchGuards(predicateId: nat, c: nat) returns (whenTrue: Option<nat>, whenFalse: Option<nat>)
      requires Valid() && predicateId < |model.predicates|
      modifies model
      ensures Valid() && Effect(old(Now()), Now(), Recorded([]))
      ensures whenTrue.Some? == whenFalse.Some? == (c < |arena.integral| && arena.integral[c])
      ensures whenTrue.Some? ==>
                && whenTrue.value < |model.predicates| && whenFalse.value < |model.predicates|
                && model.MeaningOf(whenTrue.value) == Conjoin(old(model.MeaningOf(predicateId)), c, true)
                && model.MeaningOf(whenFalse.value) == Conjoin(old(model.MeaningOf(predicateId)), c, false)
    {
      hide Conjoin, Canonical;
      ghost var s := Now();
      whenTrue := model.AndCondition(predicateId, c, true);
      ghost var t := Now();
      GrowthHasNoUses(s, t);
      GuardStays(s, t, Recorded([]), predicateId);
      whenFalse := model.AndCondition(predicateId, c, false);
      GrowthHasNoUses(t, Now());
      if whenTrue.Some? {
        GuardStays(t, Now(), Recorded([]), whenTrue.value);
      }
      EffectThenGrowth(s, t, Now(), Recorded([]));
    }

    method VisitConditional(c: nat, x: nat, y: nat, predicateId: nat, context: Context, ghost parent: nat)
      returns (ok: bool)
      requires Valid() && c < parent && x < parent && y < parent < |arena.exprs| && predicateId < |model.predicates|
      requires arena.exprs[parent] == Conditional(c, x, y) && model.MeaningOf(predicateId).All?
      modifies this, model
      ensures Valid()
      ensures var us := UsesOf(arena, parent, None, old(model.MeaningOf(predicateId)), context);
              ok == us.Recorded? && Effect(old(Now()), Now(), us)
      decreases parent, 0, 1
    {
      hide Effect, Conjoin, Meaning, Canonical;
      ghost var s, guard := Now(), model.MeaningOf(predicateId);
      ghost var uc := UsesOf(arena, c, None, guard, Read);
      ok := Visit(c, None, predicateId, Read);
      ghost var t := Now();
      if !ok {
        return;
      }
      GuardStays(s, t, uc, predicateId);
      var whenTrue, whenFalse := BranchGuards(predicateId, c);
      ghost var u := Now();
      EffectThenGrowth(s, t, u, uc);
      if whenTrue.None? || whenFalse.None? {
        NoEffect(u, Refused([]));
        EffectsCompose(s, u, u, uc, Refused([]));
        return false;
      }
      ok := VisitBoth(x, None, context, y, context, whenTrue.value, whenFalse.value, parent);
      EffectsCompose(s, u, Now(), uc, Both(UsesOf(arena, x, None, Conjoin(guard, c, true), context),
                                           UsesOf(arena, y, None, Conjoin(guard, c, false), context)));
    }

    method VisitAll(cs: seq<nat>, predicateId: nat, context: Context, ghost parent: nat) returns (ok: bool)
      requires Valid() && parent < |arena.exprs| && predicateId < |model.predicates|
      requires forall i :: 0 <= i < |cs| ==> cs[i] < parent
      modifies this, model
      ensures Valid()
      ensures var us := UsesOfAll(arena, parent, cs, old(model.MeaningOf(predicateId)), context);
              ok == us.Recorded? && Effect(old(Now()), Now(), us)
      decreases parent, 0, 0
    {
      hide Effect, UsesOf, Meaning, Canonical;
      ghost var s, guard := Now(), model.MeaningOf(predicateId);
      var i := 0;
      NoEffect(s, Recorded([]));
      while i < |cs|
        invariant 0 <= i <= |cs| && Valid()
        invariant UsesOfAll(arena, parent, cs[..i], guard, context).Recorded?
        invariant Effect(s, Now(), UsesOfAll(arena, parent, cs[..i], guard, context))
      {
        ghost var t, before := Now(), UsesOfAll(arena, parent, cs[..i], guard, context);
        GuardStays(s, t, before, predicateId);
        ok := Visit(cs[i], None, predicateId, context);
        ghost var one := UsesOf(arena, cs[i], None, guard, context);
        EffectsCompose(s, t, Now(), before, one);
        assert cs[..i + 1][..i] == cs[..i] && cs[..i + 1][i] == cs[i];
        if !ok {
          FailureStays(arena, parent, cs, i + 1, guard, context);
          return;
        }
        i := i + 1;
      }
      assert cs[..i] == cs;
      ok := true;
    }

    /**
     * Failing, the analysis drops the uses and the summary entries it had appended; contexts merged into the entries
     * that were there before stay.
     */
    method Analyze(expression: nat, predicateId: nat, context: Context) returns (ok: bool)
      requires Valid()
      modifies this, model
      ensures Valid()
      ensures !(expression < |arena.exprs| && predicateId < |old(model.predicates)| && context == Read) ==>
        !ok && Now() == old(Now())
      ensures expression < |arena.exprs| && predicateId < |old(model.predicates)| && context == Read ==>
        var us := UsesOf(arena, expression, None, old(model.MeaningOf(predicateId)), context);
        var summary := Summarised(old(signals), us.uses);
        && ok == us.Recorded? && |old(signals)| <= |summary|
        && (if ok then Denote(Now()) == old(Denote(Now())) + us.uses && signals == summary
            else uses == old(uses) && signals == summary[..|old(signals)|])
      ensures old(model.predicates) <= model.predicates && old(model.atoms) <= model.atoms
    {
      if context != Read {
        return false;
      }
      var useCount, signalCount := |uses|, |signals|;
      ok := Visit(expression, None, predicateId, context);
      if expression < |arena.exprs| && predicateId < |old(model.predicates)| {
        SummaryGrows(old(signals), UsesOf(arena, expression, None, old(model.MeaningOf(predicateId)), context).uses);
      }
      if !ok {
        uses, signals := uses[..useCount], signals[..signalCount];
      }
    }

    // ----- targets

    /** Records the write of the projected symbol and the reads of its indices; fails where nothing can be assigned to. */
    method VisitLvalue(expression: nat, projection: Option<nat>, predicateId: nat) returns (ok: bool)
      requires Valid() && predicateId < |model.predicates|
      modifies this, model
      ensures Valid()
      ensures expression >= |arena.exprs| ==> !ok && Now() == old(Now())
      ensures expression < |arena.exprs| ==>
        var us := ProjectionUses(arena, expression, projection, old(model.MeaningOf(predicateId)));
        ok == us.Recorded? && Effect(old(Now()), Now(), us)
      decreases expression, 1
    {
      if expression >= |arena.exprs| {
        return false;
      }
      hide Effect, UsesOf, Meaning, Canonical;
      ghost var s, guard := Now(), model.MeaningOf(predicateId);
      match arena.exprs[expression]
      case Symbol(symbol) =>
        ok := AddSymbolUse(symbol, expression, projection, predicateId, Lvalue);
        if !ok {
          NoEffect(s, Refused([]));
        }
      case Group(x) => ok := VisitLvalue(x, Some(From(projection, expression)), predicateId);
      case Index(x, y) =>
        ghost var ux := ProjectionUses(arena, x, Some(From(projection, expression)), guard);
        ok := VisitLvalue(x, Some(From(projection, expression)), predicateId);
        ghost var t := Now();
        if ok {
          GuardStays(s, t, ux, predicateId);
          ok := Visit(y, None, predicateId, IndexUse);
          EffectsCompose(s, t, Now(), ux, UsesOf(arena, y, None, guard, IndexUse));
        }
      case Select(isRange, x, y, z) => ok := VisitLvalueSelect(isRange, x, y, z, projection, predicateId, expression);
      case _ =>
        NoEffect(s, Refused([]));
        ok := false;
    }

    method VisitLvalueSelect(isRange: bool, x: nat, y: nat, z: nat, projection: Option<nat>, predicateId: nat, parent: nat)
      returns (ok: bool)
      requires Valid() && x < parent && y < parent && z < parent < |arena.exprs| && predicateId < |model.predicates|
      requires arena.exprs[parent] == Select(isRange, x, y, z)
      modifies this, model
      ensures Valid()
      ensures var us := ProjectionUses(arena, parent, projection, old(model.MeaningOf(predicateId)));
              ok == us.Recorded? && Effect(old(Now()), Now(), us)
      decreases parent, 0
    {
      hide Effect, UsesOf, Meaning, Canonical;
      ghost var s, guard := Now(), model.MeaningOf(predicateId);
      ghost var ux := ProjectionUses(arena, x, Some(From(projection, parent)), guard);
      ok := VisitLvalue(x, Some(From(projection, parent)), predicateId);
      ghost var t := Now();
      var leftContext := if isRange then TypeUse else IndexUse;
      if ok {
        GuardStays(s, t, ux, predicateId);
        ok := VisitBoth(y, None, leftContext, z, TypeUse, predicateId, predicateId, parent);
        EffectsCompose(s, t, Now(), ux, Both(UsesOf(arena, y, None, guard, leftContext),
                                             UsesOf(arena, z, None, guard, TypeUse)));
      }
    }

    method VisitTarget(target: Target, predicateId: nat) returns (ok: bool)
      requires Valid() && predicateId < |model.predicates|
      modifies this, model
      ensures Valid()
      ensures var us := TargetUses(arena, target, old(model.MeaningOf(predicateId)));
              ok == us.Recorded? && Effect(old(Now()), Now(), us)
      decreases target
    {
      hide Effect, Meaning, Canonical;
      ghost var s, guard := Now(), model.MeaningOf(predicateId);
      match target
      case Projection(e) =>
        ok := VisitLvalue(e, None, predicateId);
        if e >= |arena.exprs| {
          NoEffect(s, Refused([]));
        }
      case Concatenated(ts) =>
        var i := 0;
        NoEffect(s, Recorded([]));
        while i < |ts|
          invariant 0 <= i <= |ts| && Valid()
          invariant TargetUsesAll(arena, ts[..i], guard).Recorded?
          invariant Effect(s, Now(), TargetUsesAll(arena, ts[..i], guard))
        {
          ghost var t, before := Now(), TargetUsesAll(arena, ts[..i], guard);
          GuardStays(s, t, before, predicateId);
          ok := VisitTarget(ts[i], predicateId);
          EffectsCompose(s, t, Now(), before, TargetUses(arena, ts[i], guard));
          assert ts[..i + 1][..i] == ts[..i] && ts[..i + 1][i] == ts[i];
          if !ok {
            PartFailureStays(arena, ts, i + 1, guard);
            return;
          }
          i := i + 1;
        }
        assert ts[..i] == ts;
        ok := true;
    }

    /** The target of an assignment; under an impossible guard nothing is recorded and nothing can fail. */
    method AnalyzeLvalue(target: Target, predicateId: nat) returns (ok: bool)
      requires Valid()
      modifies this, model
      ensures Valid()
      ensures predicateId >= |old(model.predicates)| ==> !ok && Now() == old(Now())
      ensures predicateId < |old(model.predicates)| ==>
        var us := AnalysedTarget(arena, target, old(model.MeaningOf(predicateId)));
        ok == us.Recorded? && Effect(old(Now()), Now(), us)
    {
      if predicateId >= |model.predicates| {
        return false;
      }
      hide Effect, TargetUses, Canonical;
      if model.predicates[predicateId].impossible {
        NoEffect(Now(), Recorded([]));
        return true;
      }
      ok := VisitTarget(target, predicateId);
    }
  }
}
