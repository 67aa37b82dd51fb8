/** Which symbols an expression reads, and under which conditions. */
module ExpressionUses {
  import opened Options
  import opened Predicates

  /** An expression names its operands by their ids, which are smaller than its own. */
  datatype Expr =
    | Literal(value: int)
    | Symbol(symbol: nat)
    | Group(operand: nat)
    | Unary(operand: nat)
    | Conversion(operand: nat)
    | Binary(left: nat, right: nat)
    | Conditional(condition: nat, whenTrue: nat, whenFalse: nat)
    | Index(base: nat, index: nat)
    | Select(isRange: bool, base: nat, left: nat, right: nat)
    | Concatenation(children: seq<nat>)

  /** A symbol that names a signal also needs the signal's own entry. */
  datatype SymbolKind = Plain | NamesSignal(signal: Option<nat>)

  datatype Context = Read | Lvalue | IndexUse | TypeUse

  datatype Arena = Arena(exprs: seq<Expr>, symbols: seq<SymbolKind>, integral: seq<bool>)

  predicate Below(x: Expr, e: nat) {
    match x
    case Literal(_) => true
    case Symbol(_) => true
    case Group(a) => a < e
    case Unary(a) => a < e
    case Conversion(a) => a < e
    case Binary(a, b) => a < e && b < e
    case Conditional(a, b, c) => a < e && b < e && c < e
    case Index(a, b) => a < e && b < e
    case Select(_, a, b, c) => a < e && b < e && c < e
    case Concatenation(cs) => forall i :: 0 <= i < |cs| ==> cs[i] < e
  }

  predicate ArenaOk(a: Arena) { forall e :: 0 <= e < |a.exprs| ==> Below(a.exprs[e], e) }

  // ----- evaluation

  /** How operators combine operand values, what counts as true, and the value of every symbol. */
  datatype World = World(apply: (nat, seq<int>) -> int, truth: int -> bool, symbol: nat -> int)

  function Evaluate(a: Arena, w: World, e: nat): int
    requires ArenaOk(a) && e < |a.exprs|
    decreases e, 1, 0
  {
    match a.exprs[e]
    case Literal(n) => n
    case Symbol(s) => w.symbol(s)
    case Group(x) => Evaluate(a, w, x)
    case Unary(x) => w.apply(e, [Evaluate(a, w, x)])
    case Conversion(x) => w.apply(e, [Evaluate(a, w, x)])
    case Binary(x, y) => w.apply(e, [Evaluate(a, w, x), Evaluate(a, w, y)])
    case Conditional(c, x, y) => if w.truth(Evaluate(a, w, c)) then Evaluate(a, w, x) else Evaluate(a, w, y)
    case Index(x, y) => w.apply(e, [Evaluate(a, w, x), Evaluate(a, w, y)])
    case Select(_, x, y, z) => w.apply(e, [Evaluate(a, w, x), Evaluate(a, w, y), Evaluate(a, w, z)])
    case Concatenation(cs) => w.apply(e, EvaluateAll(a, w, e, cs))
  }

  function EvaluateAll(a: Arena, w: World, e: nat, cs: seq<nat>): seq<int>
    requires ArenaOk(a) && e < |a.exprs| && forall i :: 0 <= i < |cs| ==> cs[i] < e
    decreases e, 0, |cs|
  {
    if cs == [] then [] else EvaluateAll(a, w, e, cs[..|cs| - 1]) + [Evaluate(a, w, cs[|cs| - 1])]
  }

  /** The truth of every condition in a world. */
  function TruthIn(a: Arena, w: World): Valuation
    requires ArenaOk(a)
  {
    (c: nat) => c < |a.exprs| && w.truth(Evaluate(a, w, c))
  }

  /** The symbols touched when the conditions of e turn out as v says; a conditional touches one branch only. */
  ghost predicate Touches(a: Arena, e: nat, v: Valuation, s: nat)
    requires ArenaOk(a) && e < |a.exprs|
    decreases e, 1, 0
  {
    match a.exprs[e]
    case Literal(_) => false
    case Symbol(t) => t == s
    case Group(x) => Touches(a, x, v, s)
    case Unary(x) => Touches(a, x, v, s)
    case Conversion(x) => Touches(a, x, v, s)
    case Binary(x, y) => Touches(a, x, v, s) || Touches(a, y, v, s)
    case Conditional(c, x, y) => Touches(a, c, v, s) || if v(c) then Touches(a, x, v, s) else Touches(a, y, v, s)
    case Index(x, y) => Touches(a, x, v, s) || Touches(a, y, v, s)
    case Select(_, x, y, z) => Touches(a, x, v, s) || Touches(a, y, v, s) || Touches(a, z, v, s)
    case Concatenation(cs) => TouchesAny(a, e, cs, v, s)
  }

  ghost predicate TouchesAny(a: Arena, e: nat, cs: seq<nat>, v: Valuation, s: nat)
    requires ArenaOk(a) && e < |a.exprs| && forall i :: 0 <= i < |cs| ==> cs[i] < e
    decreases e, 0, |cs|
  {
    cs != [] && (TouchesAny(a, e, cs[..|cs| - 1], v, s) || Touches(a, cs[|cs| - 1], v, s))
  }

  // ----- what is recorded

  datatype Use = Use(projection: nat, symbol: nat, signal: Option<nat>, guard: Conjunction, context: Context)

  /** The signal entry a symbol's use refers to; none when a signal symbol has no entry. */
  function SignalOf(k: SymbolKind): Option<Option<nat>> {
    match k
    case Plain => Some(None)
    case NamesSignal(None) => None
    case NamesSignal(Some(signal)) => Some(Some(signal))
  }

  /** The uses of an expression, or those recorded before it was refused. */
  datatype Recording = Recorded(uses: seq<Use>) | Refused(uses: seq<Use>)

  /** One after the other; the second is not looked at when the first is refused. */
  function Both(x: Recording, y: Recording): Recording {
    if x.Refused? then x else if y.Refused? then Refused(x.uses + y.uses) else Recorded(x.uses + y.uses)
  }

  function From(projection: Option<nat>, e: nat): nat { if projection.Some? then projection.value else e }

  /** The uses of e under a guard; refused when a condition is not integral or a symbol cannot be resolved. */
  function UsesOf(a: Arena, e: nat, projection: Option<nat>, guard: Conjunction, context: Context): Recording
    requires ArenaOk(a) && e < |a.exprs| && Canonical(guard)
    decreases e, 1, 0
  {
    if guard.Impossible? then Recorded([])
    else
      match a.exprs[e]
      case Literal(_) => Recorded([])
      case Symbol(s) =>
        if s < |a.symbols| && SignalOf(a.symbols[s]).Some? then
          Recorded([Use(From(projection, e), s, SignalOf(a.symbols[s]).value, guard, context)])
        else Refused([])
      case Group(x) => UsesOf(a, x, Some(From(projection, e)), guard, context)
      case Unary(x) => UsesOf(a, x, None, guard, context)
      case Conversion(x) => UsesOf(a, x, None, guard, context)
      case Binary(x, y) => Both(UsesOf(a, x, None, guard, context), UsesOf(a, y, None, guard, context))
      case Conditional(c, x, y) =>
        Both(UsesOf(a, c, None, guard, Read),
             if c < |a.integral| && a.integral[c] then
               Both(UsesOf(a, x, None, Conjoin(guard, c, true), context),
                    UsesOf(a, y, None, Conjoin(guard, c, false), context))
             else Refused([]))
      case Index(x, y) => Both(UsesOf(a, x, Some(From(projection, e)), guard, context), UsesOf(a, y, None, guard, IndexUse))
      case Select(isRange, x, y, z) =>
        Both(UsesOf(a, x, Some(From(projection, e)), guard, context),
             Both(UsesOf(a, y, None, guard, if isRange then TypeUse else IndexUse), UsesOf(a, z, None, guard, TypeUse)))
      case Concatenation(cs) => UsesOfAll(a, e, cs, guard, context)
  }

  function UsesOfAll(a: Arena, e: nat, cs: seq<nat>, guard: Conjunction, context: Context): Recording
    requires ArenaOk(a) && e < |a.exprs| && Canonical(guard) && forall i :: 0 <= i < |cs| ==> cs[i] < e
    decreases e, 0, |cs|
  {
    if cs == [] then Recorded([])
    else Both(UsesOfAll(a, e, cs[..|cs| - 1], guard, context), UsesOf(a, cs[|cs| - 1], None, guard, context))
  }

  /** Some recorded use of the symbol is live under v. */
  ghost predicate Live(uses: seq<Use>, v: Valuation, s: nat) {
    exists i :: 0 <= i < |uses| && uses[i].symbol == s && Holds(uses[i].guard, v)
  }

  lemma LiveSplits(x: seq<Use>, y: seq<Use>, v: Valuation, s: nat)
    ensures Live(x + y, v, s) <==> Live(x, v, s) || Live(y, v, s)
  {
    if i :| 0 <= i < |x| && x[i].symbol == s && Holds(x[i].guard, v) {
      assert (x + y)[i] == x[i];
    }
    if i :| 0 <= i < |y| && y[i].symbol == s && Holds(y[i].guard, v) {
      assert (x + y)[|x| + i] == y[i];
    }
  }

  lemma LiveBoth(x: Recording, y: Recording, v: Valuation, s: nat)
    requires Both(x, y).Recorded?
    ensures Live(Both(x, y).uses, v, s) <==> Live(x.uses, v, s) || Live(y.uses, v, s)
  {
    LiveSplits(x.uses, y.uses, v, s);
  }

  /**
   * A recorded use of a symbol is live under a valuation exactly when the starting guard holds there and evaluating
   * the expression touches the symbol: pruning dead branches drops no live read and adds none.
   */
  lemma {:induction false} UsesAreExact(a: Arena, e: nat, projection: Option<nat>, guard: Conjunction, context: Context,
                                        v: Valuation, s: nat)
    requires ArenaOk(a) && e < |a.exprs| && Canonical(guard)
    requires UsesOf(a, e, projection, guard, context).Recorded?
    ensures Live(UsesOf(a, e, projection, guard, context).uses, v, s) <==> Holds(guard, v) && Touches(a, e, v, s)
    decreases e, 1, 0
  {
    hide Live, Holds, Conjoin, Canonical;
    if guard.All? {
      match a.exprs[e]
      case Literal(_) => NothingLive(v, s);
      case Symbol(t) => OneLive(UsesOf(a, e, projection, guard, context).uses[0], v, s);
      case Group(x) => UsesAreExact(a, x, Some(From(projection, e)), guard, context, v, s);
      case Unary(x) => UsesAreExact(a, x, None, guard, context, v, s);
      case Conversion(x) => UsesAreExact(a, x, None, guard, context, v, s);
      case Binary(x, y) =>
        LiveBoth(UsesOf(a, x, None, guard, context), UsesOf(a, y, None, guard, context), v, s);
        UsesAreExact(a, x, None, guard, context, v, s);
        UsesAreExact(a, y, None, guard, context, v, s);
      case Conditional(c, x, y) => ConditionalIsExact(a, e, projection, guard, context, v, s);
      case Index(x, y) =>
        LiveBoth(UsesOf(a, x, Some(From(projection, e)), guard, context), UsesOf(a, y, None, guard, IndexUse), v, s);
        UsesAreExact(a, x, Some(From(projection, e)), guard, context, v, s);
        UsesAreExact(a, y, None, guard, IndexUse, v, s);
      case Select(isRange, x, y, z) =>
        var ctx := if isRange then TypeUse else IndexUse;
        var ux := UsesOf(a, x, Some(From(projection, e)), guard, context);
        var uy, uz := UsesOf(a, y, None, guard, ctx), UsesOf(a, z, None, guard, TypeUse);
        LiveBoth(ux, Both(uy, uz), v, s);
        LiveBoth(uy, uz, v, s);
        UsesAreExact(a, x, Some(From(projection, e)), guard, context, v, s);
        UsesAreExact(a, y, None, guard, ctx, v, s);
        UsesAreExact(a, z, None, guard, TypeUse, v, s);
      case Concatenation(cs) => AllUsesAreExact(a, e, cs, guard, context, v, s);
    } else {
      NothingLive(v, s);
      assert !Holds(guard, v) by {
        ImpossibleFails(v);
      }
    }
  }

  lemma ImpossibleFails(v: Valuation)
    ensures !Holds(Impossible, v)
  {
  }

  lemma NothingLive(v: Valuation, s: nat)
    ensures !Live([], v, s)
  {
  }

  lemma OneLive(u: Use, v: Valuation, s: nat)
    ensures Live([u], v, s) <==> u.symbol == s && Holds(u.guard, v)
  {
    assert [u][0] == u;
  }

  lemma {:induction false} ConditionalIsExact(a: Arena, e: nat, projection: Option<nat>, guard: Conjunction,
                                              context: Context, v: Valuation, s: nat)
    requires ArenaOk(a) && e < |a.exprs| && Canonical(guard) && guard.All? && a.exprs[e].Conditional?
    requires UsesOf(a, e, projection, guard, context).Recorded?
    ensures Live(UsesOf(a, e, projection, guard, context).uses, v, s) <==> Holds(guard, v) && Touches(a, e, v, s)
    decreases e, 0, 0
  {
    hide Live, Holds, Conjoin, Canonical;
    var x := a.exprs[e];
    var whenTrue, whenFalse := Conjoin(guard, x.condition, true), Conjoin(guard, x.condition, false);
    var uc := UsesOf(a, x.condition, None, guard, Read);
    var ut, uf := UsesOf(a, x.whenTrue, None, whenTrue, context), UsesOf(a, x.whenFalse, None, whenFalse, context);
    LiveBoth(uc, Both(ut, uf), v, s);
    LiveBoth(ut, uf, v, s);
    UsesAreExact(a, x.condition, None, guard, Read, v, s);
    UsesAreExact(a, x.whenTrue, None, whenTrue, context, v, s);
    UsesAreExact(a, x.whenFalse, None, whenFalse, context, v, s);
    ConjoinMeans(guard, x.condition, true, v);
    ConjoinMeans(guard, x.condition, false, v);
  }

  lemma {:induction false} AllUsesAreExact(a: Arena, e: nat, cs: seq<nat>, guard: Conjunction, context: Context,
                                           v: Valuation, s: nat)
    requires ArenaOk(a) && e < |a.exprs| && Canonical(guard) && forall i :: 0 <= i < |cs| ==> cs[i] < e
    requires UsesOfAll(a, e, cs, guard, context).Recorded?
    ensures Live(UsesOfAll(a, e, cs, guard, context).uses, v, s) <==> Holds(guard, v) && TouchesAny(a, e, cs, v, s)
    decreases e, 0, |cs|
  {
    hide Live, Holds, Canonical;
    if cs == [] {
      NothingLive(v, s);
    } else {
      var front, last := cs[..|cs| - 1], cs[|cs| - 1];
      LiveBoth(UsesOfAll(a, e, front, guard, context), UsesOf(a, last, None, guard, context), v, s);
      AllUsesAreExact(a, e, front, guard, context, v, s);
      UsesAreExact(a, last, None, guard, context, v, s);
    }
  }

  // ----- evaluation depends on the recorded uses only

  /** Worlds that differ only in symbols the evaluation does not touch give the same value. */
  lemma {:induction false} EvaluationIsLocal(a: Arena, e: nat, w: World, w': World)
    requires ArenaOk(a) && e < |a.exprs| && w.apply == w'.apply && w.truth == w'.truth
    requires forall s :: Touches(a, e, TruthIn(a, w), s) ==> w.symbol(s) == w'.symbol(s)
    ensures Evaluate(a, w, e) == Evaluate(a, w', e)
    decreases e, 1, 0
  {
    match a.exprs[e]
    case Literal(_) =>
    case Symbol(t) => assert Touches(a, e, TruthIn(a, w), t);
    case Group(x) => EvaluationIsLocal(a, x, w, w');
    case Unary(x) => EvaluationIsLocal(a, x, w, w');
    case Conversion(x) => EvaluationIsLocal(a, x, w, w');
    case Binary(x, y) =>
      EvaluationIsLocal(a, x, w, w');
      EvaluationIsLocal(a, y, w, w');
    case Conditional(c, x, y) =>
      EvaluationIsLocal(a, c, w, w');
      EvaluationIsLocal(a, if w.truth(Evaluate(a, w, c)) then x else y, w, w');
    case Index(x, y) =>
      EvaluationIsLocal(a, x, w, w');
      EvaluationIsLocal(a, y, w, w');
    case Select(_, x, y, z) =>
      EvaluationIsLocal(a, x, w, w');
      EvaluationIsLocal(a, y, w, w');
      EvaluationIsLocal(a, z, w, w');
    case Concatenation(cs) => EvaluationsAreLocal(a, e, cs, w, w');
  }

  lemma {:induction false} EvaluationsAreLocal(a: Arena, e: nat, cs: seq<nat>, w: World, w': World)
    requires ArenaOk(a) && e < |a.exprs| && w.apply == w'.apply && w.truth == w'.truth
    requires forall i :: 0 <= i < |cs| ==> cs[i] < e
    requires forall s :: TouchesAny(a, e, cs, TruthIn(a, w), s) ==> w.symbol(s) == w'.symbol(s)
    ensures EvaluateAll(a, w, e, cs) == EvaluateAll(a, w', e, cs)
    decreases e, 0, |cs|
  {
    if cs != [] {
      EvaluationsAreLocal(a, e, cs[..|cs| - 1], w, w');
      EvaluationIsLocal(a, cs[|cs| - 1], w, w');
    }
  }

  /** Where the starting guard holds, worlds agreeing on the live recorded uses evaluate the expression equally. */
  lemma {:induction false} UsesSuffice(a: Arena, e: nat, guard: Conjunction, w: World, w': World)
    requires ArenaOk(a) && e < |a.exprs| && Canonical(guard) && w.apply == w'.apply && w.truth == w'.truth
    requires Holds(guard, TruthIn(a, w)) && UsesOf(a, e, None, guard, Read).Recorded?
    requires forall s :: Live(UsesOf(a, e, None, guard, Read).uses, TruthIn(a, w), s) ==> w.symbol(s) == w'.symbol(s)
    ensures Evaluate(a, w, e) == Evaluate(a, w', e)
  {
    forall s | Touches(a, e, TruthIn(a, w), s)
      ensures w.symbol(s) == w'.symbol(s)
    {
      UsesAreExact(a, e, None, guard, Read, TruthIn(a, w), s);
    }
    EvaluationIsLocal(a, e, w, w');
  }
}
