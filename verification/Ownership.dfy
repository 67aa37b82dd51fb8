/** Resolving guarded transfers out of procedural statements, and who owns a signal in a cycle. */
module Ownership {
  import opened FlagTables
  import opened Options
  import opened Predicates
  import opened ExpressionUses
  import opened Targets
  import opened Reading
  import opened UseAnalyzer

  datatype Role = SignalRead | SignalWrite | Consumer | Producer

  /** The laws of a signal's transfer type. */
  datatype Traits = Traits(consumesOnRead: bool, producesOnWrite: bool, requiresOwnership: bool)

  datatype Design = Design(arena: Arena, traits: seq<Option<Traits>>)

  datatype Statement =
    | Assign(assignment: nat, destination: Target, value: nat)
    | If(condition: nat, whenTrue: Statement, whenFalse: Option<Statement>)
    | Block(statements: seq<Statement>)

  /** The assignments executed, in order, when the conditions turn out as v says. */
  ghost function Execute(x: Statement, v: Valuation): seq<nat> {
    match x
    case Assign(n, _, _) => [n]
    case If(c, t, None) => if v(c) then Execute(t, v) else []
    case If(c, t, Some(e)) => if v(c) then Execute(t, v) else Execute(e, v)
    case Block(xs) => ExecuteAll(xs, v)
  }

  ghost function ExecuteAll(xs: seq<Statement>, v: Valuation): seq<nat> {
    if xs == [] then [] else Execute(xs[0], v) + ExecuteAll(xs[1..], v)
  }

  // ----- the roles a transfer plays for its signals

  function RolesOf(d: Design, signal: nat, contexts: set<Context>): set<Role> {
    if signal < |d.traits| && d.traits[signal].Some? then
      var t := d.traits[signal].value;
      (if Lvalue in contexts then {SignalWrite} + if t.producesOnWrite then {Producer} else {} else {}) +
      (if Read in contexts || IndexUse in contexts then {SignalRead} + if t.consumesOnRead then {Consumer} else {} else {})
    else {}
  }

  /** Adds the roles of every analysed signal; for a destination, signals without a role are skipped. */
  function WithRoles(d: Design, table: seq<Entry<Role>>, analysed: seq<Entry<Context>>, skip: bool): seq<Entry<Role>> {
    if analysed == [] then table
    else
      var before := WithRoles(d, table, analysed[..|analysed| - 1], skip);
      var last := analysed[|analysed| - 1];
      var roles := RolesOf(d, last.key, last.flags);
      if skip && roles == {} then before else Merged(before, last.key, roles)
  }

  ghost predicate Conflicted(table: seq<Entry<Role>>) {
    exists i :: 0 <= i < |table| && Consumer in table[i].flags && Producer in table[i].flags
  }

  function Analysed(a: Arena, e: nat, guard: Conjunction): Recording
    requires ArenaOk(a) && Canonical(guard)
  {
    if e < |a.exprs| then UsesOf(a, e, None, guard, Read) else Refused([])
  }

  /** The uses of the guard's own conditions, which are always evaluated. */
  function GuardUses(a: Arena, atoms: seq<Atom>): Recording
    requires ArenaOk(a)
  {
    if atoms == [] then Recorded([])
    else Both(GuardUses(a, atoms[..|atoms| - 1]), Analysed(a, atoms[|atoms| - 1].condition, All([])))
  }

  function AtomsOf(guard: Conjunction): seq<Atom> { if guard.All? then guard.atoms else [] }

  function AllRoles(d: Design, destination: seq<Entry<Context>>, value: seq<Entry<Context>>, guard: seq<Entry<Context>>)
    : seq<Entry<Role>>
  {
    WithRoles(d, WithRoles(d, WithRoles(d, [], destination, true), value, false), guard, false)
  }

  function RoleTable(d: Design, destination: seq<Use>, value: seq<Use>, guard: seq<Use>): seq<Entry<Role>> {
    AllRoles(d, Summarised([], destination), Summarised([], value), Summarised([], guard))
  }

  /** The signal roles of an assignment; none when an analysis fails or a signal is both consumed and produced. */
  ghost function TransferRoles(d: Design, guard: Conjunction, destination: Target, value: nat): Option<seq<Entry<Role>>>
    requires ArenaOk(d.arena) && Canonical(guard)
  {
    var targetUses, valueUses := AnalysedTarget(d.arena, destination, guard), Analysed(d.arena, value, guard);
    var guardUses := GuardUses(d.arena, AtomsOf(guard));
    if targetUses.Refused? || valueUses.Refused? || guardUses.Refused? then None
    else
      var table := RoleTable(d, targetUses.uses, valueUses.uses, guardUses.uses);
      if Conflicted(table) then None else Some(table)
  }

  // ----- resolved transfers

  datatype Transfer = Transfer(assignment: nat, guard: Conjunction, roles: seq<Entry<Role>>)

  function Joined(x: Option<seq<Transfer>>, y: Option<seq<Transfer>>): Option<seq<Transfer>> {
    if x.Some? && y.Some? then Some(x.value + y.value) else None
  }

  /** The transfers of a statement under a guard, in order. */
  ghost function Resolve(d: Design, x: Statement, guard: Conjunction): Option<seq<Transfer>>
    requires ArenaOk(d.arena) && Canonical(guard)
  {
    match x
    case Assign(n, destination, value) =>
      var roles := TransferRoles(d, guard, destination, value);
      if roles.Some? then Some([Transfer(n, guard, roles.value)]) else None
    case If(c, t, e) =>
      if c < |d.arena.integral| && d.arena.integral[c] then
        var first := Resolve(d, t, Conjoin(guard, c, true));
        if e.None? then first else Joined(first, Resolve(d, e.value, Conjoin(guard, c, false)))
      else None
    case Block(xs) => ResolveAll(d, xs, guard)
  }

  ghost function ResolveAll(d: Design, xs: seq<Statement>, guard: Conjunction): Option<seq<Transfer>>
    requires ArenaOk(d.arena) && Canonical(guard)
  {
    if xs == [] then Some([]) else Joined(Resolve(d, xs[0], guard), ResolveAll(d, xs[1..], guard))
  }

  /** The assignments of the transfers whose guards hold. */
  ghost function Enabled(transfers: seq<Transfer>, v: Valuation): seq<nat> {
    if transfers == [] then []
    else (if Holds(transfers[0].guard, v) then [transfers[0].assignment] else []) + Enabled(transfers[1..], v)
  }

  lemma {:induction false} EnabledSplits(x: seq<Transfer>, y: seq<Transfer>, v: Valuation)
    ensures Enabled(x + y, v) == Enabled(x, v) + Enabled(y, v)
    decreases |x|
  {
    if x == [] {
      assert x + y == y;
    } else {
      assert (x + y)[0] == x[0] && (x + y)[1..] == x[1..] + y;
      EnabledFirst(x, v);
      EnabledFirst(x + y, v);
      hide Enabled, Holds;
      EnabledSplits(x[1..], y, v);
    }
  }

  lemma EnabledFirst(transfers: seq<Transfer>, v: Valuation)
    requires transfers != []
    ensures Enabled(transfers, v) ==
            (if Holds(transfers[0].guard, v) then [transfers[0].assignment] else []) + Enabled(transfers[1..], v)
  {
  }

  /** The enabled transfers of a statement are, in order, exactly the assignments that executing it reaches. */
  lemma {:induction false} EnabledAreExecuted(d: Design, x: Statement, guard: Conjunction, v: Valuation)
    requires ArenaOk(d.arena) && Canonical(guard) && Resolve(d, x, guard).Some?
    ensures Enabled(Resolve(d, x, guard).value, v) == if Holds(guard, v) then Execute(x, v) else []
  {
    hide Holds, Conjoin, TransferRoles, Canonical;
    match x
    case Assign(n, destination, value) =>
    case If(c, t, e) =>
      ConjoinMeans(guard, c, true, v);
      ConjoinMeans(guard, c, false, v);
      EnabledAreExecuted(d, t, Conjoin(guard, c, true), v);
      if e.Some? {
        EnabledAreExecuted(d, e.value, Conjoin(guard, c, false), v);
        EnabledSplits(Resolve(d, t, Conjoin(guard, c, true)).value,
                      Resolve(d, e.value, Conjoin(guard, c, false)).value, v);
      }
    case Block(xs) => AllEnabledAreExecuted(d, xs, guard, v);
  }

  lemma {:induction false} AllEnabledAreExecuted(d: Design, xs: seq<Statement>, guard: Conjunction, v: Valuation)
    requires ArenaOk(d.arena) && Canonical(guard) && ResolveAll(d, xs, guard).Some?
    ensures Enabled(ResolveAll(d, xs, guard).value, v) == if Holds(guard, v) then ExecuteAll(xs, v) else []
  {
    hide Holds, Canonical, Resolve;
    if xs != [] {
      EnabledAreExecuted(d, xs[0], guard, v);
      AllEnabledAreExecuted(d, xs[1..], guard, v);
      EnabledSplits(Resolve(d, xs[0], guard).value, ResolveAll(d, xs[1..], guard).value, v);
    }
  }

  ghost predicate Implies(transfers: seq<Transfer>, guard: Conjunction) {
    forall i, v :: 0 <= i < |transfers| && Holds(transfers[i].guard, v) ==> Holds(guard, v)
  }

  lemma ImpliesWeaker(transfers: seq<Transfer>, c: Conjunction, condition: nat, expected: bool)
    requires Canonical(c) && Implies(transfers, Conjoin(c, condition, expected))
    ensures Implies(transfers, c)
  {
    hide Conjoin, Canonical;
    forall i, v: Valuation | 0 <= i < |transfers| && Holds(transfers[i].guard, v)
      ensures Holds(c, v)
    {
      ConjoinMeans(c, condition, expected, v);
    }
  }

  /** Everything resolved under a guard holds only where the guard does. */
  lemma {:induction false} GuardsImply(d: Design, x: Statement, guard: Conjunction)
    requires ArenaOk(d.arena) && Canonical(guard) && Resolve(d, x, guard).Some?
    ensures Implies(Resolve(d, x, guard).value, guard)
  {
    hide Holds, Conjoin, TransferRoles, Canonical;
    match x
    case Assign(n, destination, value) =>
    case If(c, t, e) =>
      GuardsImply(d, t, Conjoin(guard, c, true));
      ImpliesWeaker(Resolve(d, t, Conjoin(guard, c, true)).value, guard, c, true);
      if e.Some? {
        GuardsImply(d, e.value, Conjoin(guard, c, false));
        ImpliesWeaker(Resolve(d, e.value, Conjoin(guard, c, false)).value, guard, c, false);
      }
    case Block(xs) => AllGuardsImply(d, xs, guard);
  }

  lemma {:induction false} AllGuardsImply(d: Design, xs: seq<Statement>, guard: Conjunction)
    requires ArenaOk(d.arena) && Canonical(guard) && ResolveAll(d, xs, guard).Some?
    ensures Implies(ResolveAll(d, xs, guard).value, guard)
  {
    hide Holds, Canonical, Resolve;
    if xs != [] {
      GuardsImply(d, xs[0], guard);
      AllGuardsImply(d, xs[1..], guard);
    }
  }

  /** Transfers in opposite branches of one if exclude each other, however deep either is nested. */
  lemma {:induction false} OppositeBranchesExclude(d: Design, c: nat, t: Statement, e: Statement, guard: Conjunction,
                                                   i: nat, j: nat)
    requires ArenaOk(d.arena) && Canonical(guard)
    requires Resolve(d, t, Conjoin(guard, c, true)).Some? && i < |Resolve(d, t, Conjoin(guard, c, true)).value|
    requires Resolve(d, e, Conjoin(guard, c, false)).Some? && j < |Resolve(d, e, Conjoin(guard, c, false)).value|
    ensures Exclude(Resolve(d, t, Conjoin(guard, c, true)).value[i].guard,
                    Resolve(d, e, Conjoin(guard, c, false)).value[j].guard)
  {
    hide Holds, Conjoin, Resolve, Canonical;
    var whenTrue, whenFalse := Conjoin(guard, c, true), Conjoin(guard, c, false);
    GuardsImply(d, t, whenTrue);
    GuardsImply(d, e, whenFalse);
    forall v: Valuation
      ensures !(Holds(Resolve(d, t, whenTrue).value[i].guard, v) && Holds(Resolve(d, e, whenFalse).value[j].guard, v))
    {
      ConjoinMeans(guard, c, true, v);
      ConjoinMeans(guard, c, false, v);
    }
  }

  // ----- ownership

  predicate Owned(d: Design, signal: nat) {
    signal < |d.traits| && d.traits[signal].Some? && d.traits[signal].value.requiresOwnership
  }

  ghost predicate Clash(d: Design, x: seq<Entry<Role>>, y: seq<Entry<Role>>) {
    exists s, role :: ClashOn(d, x, y, s, role)
  }

  ghost predicate ClashOn(d: Design, x: seq<Entry<Role>>, y: seq<Entry<Role>>, signal: nat, role: Role) {
    Owned(d, signal) && (role == Consumer || role == Producer) && Has(x, signal, role) && Has(y, signal, role)
  }

  /** In no cycle do two enabled transfers play the same owning role for a signal that requires ownership. */
  ghost predicate Safe(d: Design, transfers: seq<Transfer>) {
    forall i, j :: 0 <= i < j < |transfers| ==> PairSafe(d, transfers[i], transfers[j])
  }

  ghost predicate PairSafe(d: Design, x: Transfer, y: Transfer) { Exclude(x.guard, y.guard) || !Clash(d, x.roles, y.roles) }

  /** In every cycle an owned signal has at most one enabled consumer and at most one enabled producer. */
  lemma {:induction false} AtMostOneOwner(d: Design, transfers: seq<Transfer>, v: Valuation, signal: nat, role: Role,
                                          i: nat, j: nat)
    requires Safe(d, transfers) && Owned(d, signal) && (role == Consumer || role == Producer)
    requires i < |transfers| && Holds(transfers[i].guard, v) && Has(transfers[i].roles, signal, role)
    requires j < |transfers| && Holds(transfers[j].guard, v) && Has(transfers[j].roles, signal, role)
    ensures i == j
  {
    hide Holds, Has;
    assert ClashOn(d, transfers[i].roles, transfers[j].roles, signal, role);
    if i != j {
      AnyPairIsSafe(d, transfers, i, j);
    }
  }

  lemma AnyPairIsSafe(d: Design, transfers: seq<Transfer>, i: nat, j: nat)
    requires Safe(d, transfers) && i < |transfers| && j < |transfers| && i != j
    ensures PairSafe(d, transfers[i], transfers[j])
  {
    hide Holds, Has;
    if j < i {
      assert PairSafe(d, transfers[j], transfers[i]);
      forall s, role | ClashOn(d, transfers[i].roles, transfers[j].roles, s, role)
        ensures ClashOn(d, transfers[j].roles, transfers[i].roles, s, role)
      {
      }
    }
  }

  /** In the cycle v two transfers play the same owning role for a signal whose laws require one owner. */
  ghost predicate Shared(d: Design, transfers: seq<Transfer>, v: Valuation, signal: nat, role: Role, i: nat, j: nat) {
    && i < j < |transfers| && Holds(transfers[i].guard, v) && Holds(transfers[j].guard, v)
    && signal < |d.traits| && d.traits[signal].Some? && d.traits[signal].value.requiresOwnership
    && (role == Consumer || role == Producer) && Has(transfers[i].roles, signal, role) && Has(transfers[j].roles, signal, role)
  }

  /** Nothing else is refused: transfers are safe exactly when no cycle shares an owned signal. */
  lemma {:induction false} SafeIffUnshared(d: Design, transfers: seq<Transfer>)
    ensures Safe(d, transfers) <==> forall v: Valuation, signal, role, i, j :: !Shared(d, transfers, v, signal, role, i, j)
  {
    hide Holds, Has;
    if Safe(d, transfers) {
      forall v: Valuation, signal, role, i, j
        ensures !Shared(d, transfers, v, signal, role, i, j)
      {
        if Shared(d, transfers, v, signal, role, i, j) {
          AtMostOneOwner(d, transfers, v, signal, role, i, j);
        }
      }
    } else {
      var i, j :| 0 <= i < j < |transfers| && !PairSafe(d, transfers[i], transfers[j]);
      var v: Valuation :| Holds(transfers[i].guard, v) && Holds(transfers[j].guard, v);
      var signal, role :| ClashOn(d, transfers[i].roles, transfers[j].roles, signal, role);
      assert Shared(d, transfers, v, signal, role, i, j);
    }
  }

  // ----- which signals a transfer consumes and produces

  /** Writing the signal is this role by its laws: `SignalWrite` for every signal with laws. */
  predicate OnWrite(d: Design, signal: nat, role: Role) {
    && signal < |d.traits| && d.traits[signal].Some?
    && (role == SignalWrite || (role == Producer && d.traits[signal].value.producesOnWrite))
  }

  predicate OnRead(d: Design, signal: nat, role: Role) {
    && signal < |d.traits| && d.traits[signal].Some?
    && (role == SignalRead || (role == Consumer && d.traits[signal].value.consumesOnRead))
  }

  ghost predicate WrittenIn(uses: seq<Use>, signal: nat) {
    exists i :: 0 <= i < |uses| && uses[i].context.Lvalue? && uses[i].signal == Some(signal)
  }

  /** Adding the roles of analysed signals adds exactly these, skipped or not. */
  lemma {:induction false} RolesAdded(d: Design, table: seq<Entry<Role>>, analysed: seq<Entry<Context>>, skip: bool,
                                      signal: nat, role: Role)
    ensures Has(WithRoles(d, table, analysed, skip), signal, role) <==>
            || Has(table, signal, role)
            || exists i :: 0 <= i < |analysed| && analysed[i].key == signal && role in RolesOf(d, signal, analysed[i].flags)
    decreases |analysed|
  {
    hide Has, RolesOf;
    if analysed != [] {
      var front, last := analysed[..|analysed| - 1], analysed[|analysed| - 1];
      RolesAdded(d, table, front, skip, signal, role);
      MergedHas(WithRoles(d, table, front, skip), last.key, RolesOf(d, last.key, last.flags), signal, role);
      assert forall i :: 0 <= i < |front| ==> front[i] == analysed[i];
    }
  }

  lemma RolesFromUses(d: Design, table: seq<Entry<Role>>, uses: seq<Use>, skip: bool, signal: nat, role: Role)
    ensures Has(WithRoles(d, table, Summarised([], uses), skip), signal, role) <==>
            || Has(table, signal, role)
            || (OnWrite(d, signal, role) && WrittenIn(uses, signal)) || (OnRead(d, signal, role) && ReadIn(uses, signal))
  {
    var analysed := Summarised([], uses);
    RolesAdded(d, table, analysed, skip, signal, role);
    SummaryIsExact(uses, signal, Lvalue);
    SummaryIsExact(uses, signal, Read);
    SummaryIsExact(uses, signal, IndexUse);
    hide Summarised, WithRoles;
  }

  lemma TableRoles(d: Design, target: seq<Use>, value: seq<Use>, guard: seq<Use>, signal: nat, role: Role)
    ensures Has(RoleTable(d, target, value, guard), signal, role) <==>
            || (OnWrite(d, signal, role) && (WrittenIn(target, signal) || WrittenIn(value, signal) || WrittenIn(guard, signal)))
            || (OnRead(d, signal, role) && (ReadIn(target, signal) || ReadIn(value, signal) || ReadIn(guard, signal)))
  {
    var first := WithRoles(d, [], Summarised([], target), true);
    var second := WithRoles(d, first, Summarised([], value), false);
    assert !Has<Role>([], signal, role);
    hide WithRoles, Summarised, Has, WrittenIn, ReadIn, OnWrite, OnRead;
    RolesFromUses(d, [], target, true, signal, role);
    RolesFromUses(d, first, value, false, signal, role);
    RolesFromUses(d, second, guard, false, signal, role);
  }

  /** The roles a transfer plays by reading, as its uses record them. */
  lemma ReadsRecorded(d: Design, guard: Conjunction, destination: Target, value: nat, signal: nat, role: Role)
    requires ArenaOk(d.arena) && Canonical(guard) && TransferRoles(d, guard, destination, value).Some?
    requires role == SignalRead || role == Consumer
    ensures Has(TransferRoles(d, guard, destination, value).value, signal, role) <==>
            OnRead(d, signal, role) &&
            (|| ReadIn(AnalysedTarget(d.arena, destination, guard).uses, signal)
             || ReadIn(Analysed(d.arena, value, guard).uses, signal)
             || ReadIn(GuardUses(d.arena, AtomsOf(guard)).uses, signal))
  {
    hide Analysed, AnalysedTarget, GuardUses, RoleTable;
    TableRoles(d, AnalysedTarget(d.arena, destination, guard).uses, Analysed(d.arena, value, guard).uses,
               GuardUses(d.arena, AtomsOf(guard)).uses, signal, role);
  }

  // ----- a transfer consumes what carrying it out reads

  /** Some condition of the guard reads the value of s; a guard is evaluated in every cycle. */
  ghost predicate GuardReads(a: Arena, atoms: seq<Atom>, v: Valuation, s: nat)
    requires ArenaOk(a)
  {
    exists k :: 0 <= k < |atoms| && atoms[k].condition < |a.exprs| && ReadsValue(a, atoms[k].condition, true, v, s)
  }

  /** Under v the transfer reads the value of s: in its guard or, where that holds, in its value or in finding its target. */
  ghost predicate TransferReads(a: Arena, guard: Conjunction, destination: Target, value: nat, v: Valuation, s: nat)
    requires ArenaOk(a)
  {
    || GuardReads(a, AtomsOf(guard), v, s)
    || (Holds(guard, v) && ((value < |a.exprs| && ReadsValue(a, value, true, v, s)) || TargetReads(a, destination, v, s)))
  }

  ghost predicate TransferReadsSignal(a: Arena, guard: Conjunction, destination: Target, value: nat, signal: nat,
                                      v: Valuation, s: nat)
    requires ArenaOk(a)
  {
    Names(a, s, signal) && TransferReads(a, guard, destination, value, v, s)
  }

  lemma {:induction false} GuardReadsExactly(a: Arena, atoms: seq<Atom>, v: Valuation, s: nat)
    requires ArenaOk(a) && GuardUses(a, atoms).Recorded?
    ensures LiveRead(GuardUses(a, atoms).uses, v, s) <==> GuardReads(a, atoms, v, s)
    ensures UsesOk(a, GuardUses(a, atoms).uses)
    decreases |atoms|
  {
    hide LiveRead, UsesOf, ReadsValue, UseOk;
    if atoms == [] {
      NothingRead(v, s);
    } else {
      var front, last := atoms[..|atoms| - 1], atoms[|atoms| - 1].condition;
      assert Holds(All([]), v);
      GuardReadsExactly(a, front, v, s);
      ReadsAreExact(a, last, None, All([]), Read, v, s);
      UsesAreDescribed(a, last, None, All([]), Read);
      LiveReadBoth(GuardUses(a, front), Analysed(a, last, All([])), v, s);
      assert forall i :: 0 <= i < |front| ==> front[i] == atoms[i];
    }
  }

  lemma TransferReadsExactly(d: Design, guard: Conjunction, destination: Target, value: nat, v: Valuation, s: nat)
    requires ArenaOk(d.arena) && Canonical(guard) && TransferRoles(d, guard, destination, value).Some?
    ensures var target, read := AnalysedTarget(d.arena, destination, guard).uses, Analysed(d.arena, value, guard).uses;
            var guards := GuardUses(d.arena, AtomsOf(guard)).uses;
            && UsesOk(d.arena, target) && UsesOk(d.arena, read) && UsesOk(d.arena, guards)
            && (LiveRead(target, v, s) || LiveRead(read, v, s) || LiveRead(guards, v, s) <==>
                TransferReads(d.arena, guard, destination, value, v, s))
  {
    hide LiveRead, UsesOf, TargetUses, ReadsValue, TargetReads, UseOk, GuardUses, GuardReads, Canonical, RoleTable;
    ReadsAreExact(d.arena, value, None, guard, Read, v, s);
    UsesAreDescribed(d.arena, value, None, guard, Read);
    GuardReadsExactly(d.arena, AtomsOf(guard), v, s);
    if guard.All? {
      TargetReadsExactly(d.arena, destination, guard, v, s);
      TargetUsesAreOk(d.arena, destination, guard);
    } else {
      NothingRead(v, s);
      ImpossibleFails(v);
    }
  }

  /**
   * A transfer reads, and consumes if that is what reading does, exactly the signals with laws whose value carrying it
   * out reads under some valuation: in a condition of its guard, in its value or in an index of its target.
   */
  lemma {:induction false} LiveReadsConsume(d: Design, guard: Conjunction, destination: Target, value: nat, signal: nat,
                                            role: Role)
    requires ArenaOk(d.arena) && Canonical(guard) && TransferRoles(d, guard, destination, value).Some?
    requires role == SignalRead || role == Consumer
    ensures Has(TransferRoles(d, guard, destination, value).value, signal, role) <==>
            && signal < |d.traits| && d.traits[signal].Some? && (role == Consumer ==> d.traits[signal].value.consumesOnRead) &&
            exists v: Valuation, s: nat :: TransferReadsSignal(d.arena, guard, destination, value, signal, v, s)
  {
    var target, read := AnalysedTarget(d.arena, destination, guard).uses, Analysed(d.arena, value, guard).uses;
    var guards := GuardUses(d.arena, AtomsOf(guard)).uses;
    ReadsRecorded(d, guard, destination, value, signal, role);
    hide TransferRoles, Has, TransferReads, LiveRead, ReadIn, UsesOk, AnalysedTarget, Analysed, GuardUses, Canonical;
    TransferReadsExactly(d, guard, destination, value, c => true, 0);
    ReadInIffLive(d.arena, target, signal);
    ReadInIffLive(d.arena, read, signal);
    ReadInIffLive(d.arena, guards, signal);
    forall v: Valuation, s: nat
      ensures TransferReadsSignal(d.arena, guard, destination, value, signal, v, s) <==>
              || LiveSignal(d.arena, target, signal, v, s) || LiveSignal(d.arena, read, signal, v, s)
              || LiveSignal(d.arena, guards, signal, v, s)
    {
      TransferReadsExactly(d, guard, destination, value, v, s);
    }
  }

  lemma {:induction false} GuardOnlyReads(a: Arena, atoms: seq<Atom>)
    requires ArenaOk(a) && GuardUses(a, atoms).Recorded?
    ensures ReadsOnly(GuardUses(a, atoms).uses)
    decreases |atoms|
  {
    if atoms != [] {
      hide UsesOf;
      GuardOnlyReads(a, atoms[..|atoms| - 1]);
      ReadingOnlyReads(a, atoms[|atoms| - 1].condition, None, All([]), Read);
    }
  }

  lemma ReadsWriteNothing(uses: seq<Use>, signal: nat)
    requires ReadsOnly(uses)
    ensures !WrittenIn(uses, signal)
  {
  }

  /** The target writes a symbol that names the signal. */
  ghost predicate WritesSignal(a: Arena, t: Target, signal: nat)
    requires ArenaOk(a)
  {
    exists s: nat :: Writes(a, t, s) && s < |a.symbols| && SignalOf(a.symbols[s]) == Some(Some(signal))
  }

  lemma TargetWrites(a: Arena, t: Target, guard: Conjunction, signal: nat)
    requires ArenaOk(a) && Canonical(guard) && TargetUses(a, t, guard).Recorded?
    ensures WrittenIn(TargetUses(a, t, guard).uses, signal) <==> WritesSignal(a, t, signal)
  {
    hide TargetUses, Writes, Canonical, Holds, Live, Locates;
    var uses := TargetUses(a, t, guard).uses;
    var v: Valuation := c => true;
    if i :| 0 <= i < |uses| && uses[i].context.Lvalue? && uses[i].signal == Some(signal) {
      TargetIsExact(a, t, guard, v, uses[i].symbol);
      assert Written(uses, uses[i].symbol);
    }
    if s: nat :| Writes(a, t, s) && s < |a.symbols| && SignalOf(a.symbols[s]) == Some(Some(signal)) {
      TargetIsExact(a, t, guard, v, s);
    }
  }

  /**
   * A transfer writes, and produces if that is what writing does, exactly the signals with laws that its target writes;
   * if it can never happen, none.
   */
  lemma {:induction false} WritesProduce(d: Design, guard: Conjunction, destination: Target, value: nat, signal: nat,
                                         role: Role)
    requires ArenaOk(d.arena) && Canonical(guard) && TransferRoles(d, guard, destination, value).Some?
    requires role == SignalWrite || role == Producer
    ensures Has(TransferRoles(d, guard, destination, value).value, signal, role) <==>
            && signal < |d.traits| && d.traits[signal].Some? && (role == Producer ==> d.traits[signal].value.producesOnWrite)
            && guard.All? && WritesSignal(d.arena, destination, signal)
  {
    hide UsesOf, TargetUses, GuardUses, RoleTable, WrittenIn, WritesSignal, ReadsOnly;
    var target, valueUses := AnalysedTarget(d.arena, destination, guard).uses, Analysed(d.arena, value, guard).uses;
    var guardUses := GuardUses(d.arena, AtomsOf(guard)).uses;
    TableRoles(d, target, valueUses, guardUses, signal, role);
    ReadingOnlyReads(d.arena, value, None, guard, Read);
    GuardOnlyReads(d.arena, AtomsOf(guard));
    ReadsWriteNothing(valueUses, signal);
    ReadsWriteNothing(guardUses, signal);
    if guard.All? {
      TargetWrites(d.arena, destination, guard, signal);
    } else {
      NothingIsWritten(signal);
    }
  }

  lemma NothingIsWritten(signal: nat)
    ensures !WrittenIn([], signal)
  {
  }

  // ----- the checks as the resolver runs them

  method AddRoles(d: Design, table: seq<Entry<Role>>, analysed: seq<Entry<Context>>, skip: bool)
    returns (r: seq<Entry<Role>>)
    ensures r == WithRoles(d, table, analysed, skip)
  {
    r := table;
    var i := 0;
    while i < |analysed|
      invariant 0 <= i <= |analysed| && r == WithRoles(d, table, analysed[..i], skip)
    {
      assert analysed[..i + 1][..i] == analysed[..i];
      var roles := RolesOf(d, analysed[i].key, analysed[i].flags);
      if !skip || roles != {} {
        r := Merge(r, analysed[i].key, roles);
      }
      i := i + 1;
    }
    assert analysed[..i] == analysed;
  }

  method HasConflict(table: seq<Entry<Role>>) returns (found: bool)
    ensures found <==> Conflicted(table)
  {
    var i := 0;
    while i < |table|
      invariant 0 <= i <= |table|
      invariant forall k :: 0 <= k < i ==> !(Consumer in table[k].flags && Producer in table[k].flags)
    {
      if Consumer in table[i].flags && Producer in table[i].flags {
        return true;
      }
      i := i + 1;
    }
    return false;
  }

  method CombineRoles(d: Design, destination: seq<Entry<Context>>, value: seq<Entry<Context>>, guard: seq<Entry<Context>>)
    returns (roles: Option<seq<Entry<Role>>>)
    ensures var table := AllRoles(d, destination, value, guard); roles == if Conflicted(table) then None else Some(table)
  {
    var table := AddRoles(d, [], destination, true);
    table := AddRoles(d, table, value, false);
    table := AddRoles(d, table, guard, false);
    var conflict := HasConflict(table);
    roles := if conflict then None else Some(table);
  }

  /** The two inner loops of the ownership check. */
  method FindClash(d: Design, later: seq<Entry<Role>>, earlier: seq<Entry<Role>>) returns (found: bool)
    ensures found <==> Clash(d, earlier, later)
  {
    var i := 0;
    while i < |later|
      invariant 0 <= i <= |later|
      invariant forall p, q :: 0 <= p < i && 0 <= q < |earlier| ==> !EntriesClash(d, earlier[q], later[p])
    {
      var j := 0;
      while j < |earlier|
        invariant 0 <= j <= |earlier|
        invariant forall q :: 0 <= q < j ==> !EntriesClash(d, earlier[q], later[i])
      {
        if EntriesClash(d, earlier[j], later[i]) {
          assert ClashOn(d, earlier, later, later[i].key, Consumer) || ClashOn(d, earlier, later, later[i].key, Producer);
          return true;
        }
        j := j + 1;
      }
      i := i + 1;
    }
    NoEntriesNoClash(d, earlier, later);
    return false;
  }

  predicate EntriesClash(d: Design, x: Entry<Role>, y: Entry<Role>) {
    && y.key == x.key && Owned(d, y.key)
    && ((Consumer in x.flags && Consumer in y.flags) || (Producer in x.flags && Producer in y.flags))
  }

  lemma NoEntriesNoClash(d: Design, x: seq<Entry<Role>>, y: seq<Entry<Role>>)
    requires forall p, q :: 0 <= p < |y| && 0 <= q < |x| ==> !EntriesClash(d, x[q], y[p])
    ensures !Clash(d, x, y)
  {
    forall s, role | Owned(d, s) && (role == Consumer || role == Producer) && Has(x, s, role)
      ensures !Has(y, s, role)
    {
      var q :| 0 <= q < |x| && x[q].key == s && role in x[q].flags;
      assert forall p :: 0 <= p < |y| ==> !EntriesClash(d, x[q], y[p]);
    }
  }

  datatype StoredTransfer = StoredTransfer(assignment: nat, guardId: nat, roles: seq<Entry<Role>>)

  ghost predicate StoredOk(transfers: seq<StoredTransfer>, predicates: seq<Stored>, atoms: seq<Atom>) {
    Interned(predicates, atoms) && forall i :: 0 <= i < |transfers| ==> transfers[i].guardId < |predicates|
  }

  /** The stored transfers with their guards in place of predicate ids. */
  ghost function DenoteTransfers(transfers: seq<StoredTransfer>, predicates: seq<Stored>, atoms: seq<Atom>)
    : (r: seq<Transfer>)
    requires StoredOk(transfers, predicates, atoms)
    ensures |r| == |transfers|
  {
    seq(|transfers|, i requires 0 <= i < |transfers| =>
      Transfer(transfers[i].assignment, Meaning(predicates[transfers[i].guardId], atoms), transfers[i].roles))
  }

  /** Accepts exactly the designs in which every signal that requires ownership has one owner per role and cycle. */
  method ValidateOwnership(d: Design, model: PredicateModel, transfers: seq<StoredTransfer>) returns (ok: bool)
    requires model.Valid() && StoredOk(transfers, model.predicates, model.atoms)
    ensures ok <==> Safe(d, DenoteTransfers(transfers, model.predicates, model.atoms))
  {
    ghost var ts := DenoteTransfers(transfers, model.predicates, model.atoms);
    var later := 0;
    while later < |transfers|
      invariant 0 <= later <= |transfers|
      invariant forall i, j :: 0 <= i < j < later ==> PairSafe(d, ts[i], ts[j])
    {
      var earlier := 0;
      while earlier < later
        invariant 0 <= earlier <= later
        invariant forall i :: 0 <= i < earlier ==> PairSafe(d, ts[i], ts[later])
      {
        var exclusive := model.MutuallyExclusive(transfers[earlier].guardId, transfers[later].guardId);
        if !exclusive {
          var clash := FindClash(d, transfers[later].roles, transfers[earlier].roles);
          if clash {
            assert !PairSafe(d, ts[earlier], ts[later]);
            return false;
          }
        }
        assert PairSafe(d, ts[earlier], ts[later]);
        earlier := earlier + 1;
      }
      later := later + 1;
    }
    return true;
  }

  // ----- resolving statements into transfers

  /** The predicate arena and the transfers at one moment. */
  datatype Moment = Moment(predicates: seq<Stored>, atoms: seq<Atom>, transfers: seq<StoredTransfer>)

  ghost predicate MomentOk(m: Moment) { StoredOk(m.transfers, m.predicates, m.atoms) }

  ghost function Denotes(m: Moment): seq<Transfer>
    requires MomentOk(m)
  {
    DenoteTransfers(m.transfers, m.predicates, m.atoms)
  }

  /** Resolving `rs` (none: an error is reported) turns m into n. */
  ghost predicate Adds(m: Moment, n: Moment, rs: Option<seq<Transfer>>) {
    && MomentOk(m) && MomentOk(n) && m.predicates <= n.predicates && m.atoms <= n.atoms
    && (rs.Some? ==> Denotes(n) == Denotes(m) + rs.value)
  }

  lemma JoinedWithNothing(x: Option<seq<Transfer>>)
    ensures Joined(Some([]), x) == x
  {
    if x.Some? {
      assert [] + x.value == x.value;
    }
  }

  lemma JoinedAssociates(x: seq<Transfer>, y: seq<Transfer>, z: Option<seq<Transfer>>)
    ensures Joined(Some(x), Joined(Some(y), z)) == Joined(Some(x + y), z)
  {
    if z.Some? {
      assert x + (y + z.value) == x + y + z.value;
    }
  }

  lemma AddsNothing(m: Moment, n: Moment)
    requires MomentOk(m) && Interned(n.predicates, n.atoms) && m.predicates <= n.predicates && m.atoms <= n.atoms
    requires m.transfers == n.transfers
    ensures Adds(m, n, Some([])) && Adds(m, n, None)
  {
    forall i | 0 <= i < |m.transfers|
      ensures Meaning(n.predicates[m.transfers[i].guardId], n.atoms) ==
              Meaning(m.predicates[m.transfers[i].guardId], m.atoms)
    {
      MeaningStays(m.predicates[m.transfers[i].guardId], m.atoms, n.atoms);
    }
    assert Denotes(n) == Denotes(m) + [];
  }

  lemma AddsOne(m: Moment, n: Moment, t: StoredTransfer)
    requires MomentOk(m) && t.guardId < |m.predicates|
    requires n == Moment(m.predicates, m.atoms, m.transfers + [t])
    ensures Adds(m, n, Some([Transfer(t.assignment, Meaning(m.predicates[t.guardId], m.atoms), t.roles)]))
  {
    assert Denotes(n) == Denotes(m) + [Transfer(t.assignment, Meaning(m.predicates[t.guardId], m.atoms), t.roles)];
  }

  lemma AddsCompose(m: Moment, n: Moment, o: Moment, x: Option<seq<Transfer>>, y: Option<seq<Transfer>>)
    requires Adds(m, n, x) && x.Some? && Adds(n, o, y)
    ensures Adds(m, o, Joined(x, y))
  {
    if y.Some? {
      assert Denotes(m) + x.value + y.value == Denotes(m) + (x.value + y.value);
    }
  }

  lemma AddsAfterGrowth(m: Moment, n: Moment, o: Moment, x: Option<seq<Transfer>>)
    requires Adds(m, n, Some([])) && Adds(n, o, x)
    ensures Adds(m, o, x)
  {
    AddsCompose(m, n, o, Some([]), x);
    if x.Some? {
      assert [] + x.value == x.value;
    }
  }

  lemma GuardRemains(m: Moment, n: Moment, id: nat)
    requires Adds(m, n, Some([])) && id < |m.predicates|
    ensures id < |n.predicates| && Meaning(n.predicates[id], n.atoms) == Meaning(m.predicates[id], m.atoms)
  {
    MeaningStays(m.predicates[id], m.atoms, n.atoms);
  }

  lemma AddsFails(m: Moment, n: Moment, x: Option<seq<Transfer>>)
    requires Adds(m, n, x)
    ensures Adds(m, n, None)
  {
  }

  class Resolver {
    const design: Design
    const model: PredicateModel
    var transfers: seq<StoredTransfer>

    ghost predicate Valid()
      reads this, model
    {
      && ArenaOk(design.arena) && model.Valid() && model.integral == design.arena.integral
      && StoredOk(transfers, model.predicates, model.atoms)
    }

    ghost function Now(): Moment
      reads this, model
    {
      Moment(model.predicates, model.atoms, transfers)
    }

    constructor (design: Design)
      requires ArenaOk(design.arena)
      ensures Valid() && this.design == design && transfers == [] && fresh(model)
    {
      this.design := design;
      transfers := [];
      model := new PredicateModel(design.arena.integral);
    }

    /** The uses of the conditions of a guard, gathered in one summary. */
    method AnalyzeGuard(atoms: seq<Atom>) returns (ok: bool, signals: seq<Entry<Context>>)
      requires Valid()
      modifies model
      ensures Valid() && Adds(old(Now()), Now(), Some([]))
      ensures ok == GuardUses(design.arena, atoms).Recorded?
      ensures ok ==> signals == Summarised([], GuardUses(design.arena, atoms).uses)
    {
      ghost var m := Now();
      var analyzer := new Analyzer(design.arena, model);
      var i := 0;
      AddsNothing(m, Now());
      assert atoms[..0] == [];
      hide Analysed, Meaning, Sorted, GuardUses;
      while i < |atoms|
        invariant 0 <= i <= |atoms| && Valid() && analyzer.Valid()
        invariant old(model.predicates) <= model.predicates && old(model.atoms) <= model.atoms
        invariant GuardUses(design.arena, atoms[..i]).Recorded?
        invariant analyzer.signals == Summarised([], GuardUses(design.arena, atoms[..i]).uses)
      {
        ghost var before := GuardUses(design.arena, atoms[..i]).uses;
        GuardUsesNext(design.arena, atoms, i);
        var id := model.True();
        ok := analyzer.Analyze(atoms[i].condition, id, Read);
        if !ok {
          GuardFailureStays(design.arena, atoms, i + 1);
          AddsNothing(m, Now());
          return false, [];
        }
        SummarisedTwice([], before, Analysed(design.arena, atoms[i].condition, All([])).uses);
        i := i + 1;
      }
      assert atoms[..i] == atoms;
      AddsNothing(m, Now());
      return true, analyzer.signals;
    }

    /** The uses of the target of an assignment, in one summary. */
    method AnalyzeDestination(destination: Target, guardId: nat) returns (ok: bool, signals: seq<Entry<Context>>)
      requires Valid() && guardId < |model.predicates|
      modifies model
      ensures Valid() && Adds(old(Now()), Now(), Some([]))
      ensures ok == AnalysedTarget(design.arena, destination, old(model.MeaningOf(guardId))).Recorded?
      ensures ok ==>
        signals == Summarised([], AnalysedTarget(design.arena, destination, old(model.MeaningOf(guardId))).uses)
    {
      hide AnalysedTarget, Meaning, Sorted;
      ghost var m := Now();
      var analyzer := new Analyzer(design.arena, model);
      ok := analyzer.AnalyzeLvalue(destination, guardId);
      AddsNothing(m, Now());
      signals := analyzer.signals;
    }

    method AnalyzeValue(value: nat, guardId: nat) returns (ok: bool, signals: seq<Entry<Context>>)
      requires Valid() && guardId < |model.predicates|
      modifies model
      ensures Valid() && Adds(old(Now()), Now(), Some([]))
      ensures ok == Analysed(design.arena, value, old(model.MeaningOf(guardId))).Recorded?
      ensures ok ==> signals == Summarised([], Analysed(design.arena, value, old(model.MeaningOf(guardId))).uses)
    {
      hide UsesOf, Meaning, Sorted;
      ghost var m := Now();
      var analyzer := new Analyzer(design.arena, model);
      ok := analyzer.Analyze(value, guardId, Read);
      AddsNothing(m, Now());
      signals := analyzer.signals;
    }

    /** The signal roles of one assignment under a guard. */
    method AnalyzeTransfer(guardId: nat, destination: Target, value: nat)
      returns (roles: Option<seq<Entry<Role>>>)
      requires Valid() && guardId < |model.predicates|
      modifies model
      ensures Valid() && Adds(old(Now()), Now(), Some([]))
      ensures roles == TransferRoles(design, old(model.MeaningOf(guardId)), destination, value)
    {
      ghost var m, guard := Now(), model.MeaningOf(guardId);
      var p := model.predicates[guardId];
      var atoms := if p.impossible then [] else model.atoms[p.firstAtom..p.firstAtom + p.atomCount];
      assert atoms == AtomsOf(guard);
      hide Adds, Analysed, AnalysedTarget, GuardUses, Summarised, AllRoles, Conflicted, Meaning, Canonical, Sorted,
           AtomsOf;
      var targetOk, targetSignals := AnalyzeDestination(destination, guardId);
      if !targetOk {
        return None;
      }
      ghost var n := Now();
      GuardRemains(m, n, guardId);
      var valueOk, valueSignals := AnalyzeValue(value, guardId);
      AddsAfterGrowth(m, n, Now(), Some([]));
      if !valueOk {
        return None;
      }
      ghost var o := Now();
      var guardOk, guardSignals := AnalyzeGuard(atoms);
      AddsAfterGrowth(m, o, Now(), Some([]));
      if !guardOk {
        return None;
      }
      roles := CombineRoles(design, targetSignals, valueSignals, guardSignals);
    }

    method ResolveAssignment(n: nat, destination: Target, value: nat, guardId: nat) returns (ok: bool)
      requires Valid() && guardId < |model.predicates|
      modifies this, model
      ensures Valid()
      ensures var rs := Resolve(design, Assign(n, destination, value), old(model.MeaningOf(guardId)));
              ok == rs.Some? && Adds(old(Now()), Now(), rs)
    {
      ghost var m := Now();
      var roles := AnalyzeTransfer(guardId, destination, value);
      ghost var mid := Now();
      MeaningStays(m.predicates[guardId], m.atoms, mid.atoms);
      if roles.None? {
        AddsFails(m, mid, Some([]));
        return false;
      }
      var t := StoredTransfer(n, guardId, roles.value);
      transfers := transfers + [t];
      AddsOne(mid, Now(), t);
      AddsAfterGrowth(m, mid, Now(), Resolve(design, Assign(n, destination, value), old(model.MeaningOf(guardId))));
      return true;
    }

    /** Both branch guards are made before either branch is resolved. */
    method ResolveStatement(x: Statement, guardId: nat) returns (ok: bool)
      requires Valid() && guardId < |model.predicates|
      modifies this, model
      ensures Valid()
      ensures var rs := Resolve(design, x, old(model.MeaningOf(guardId)));
              ok == rs.Some? && Adds(old(Now()), Now(), rs)
      decreases x
    {
      hide Meaning, Conjoin, Canonical, TransferRoles;
      match x
      case Assign(n, destination, value) => ok := ResolveAssignment(n, destination, value, guardId);
      case Block(xs) => ok := ResolveBlock(xs, guardId);
      case If(c, t, e) =>
        ghost var m, guard := Now(), model.MeaningOf(guardId);
        var thenGuard := model.AndCondition(guardId, c, true);
        MeaningStays(m.predicates[guardId], m.atoms, model.atoms);
        ghost var mid := Now();
        var elseGuard := model.AndCondition(guardId, c, false);
        AddsNothing(m, Now());
        if thenGuard.None? || elseGuard.None? {
          return false;
        }
        MeaningStays(mid.predicates[thenGuard.value], mid.atoms, model.atoms);
        ghost var n := Now();
        ghost var first := Resolve(design, t, Conjoin(guard, c, true));
        ok := ResolveStatement(t, thenGuard.value);
        ghost var o := Now();
        AddsAfterGrowth(m, n, o, first);
        if ok && e.Some? {
          MeaningStays(n.predicates[elseGuard.value], n.atoms, o.atoms);
          ok := ResolveStatement(e.value, elseGuard.value);
          AddsCompose(m, o, Now(), first, Resolve(design, e.value, Conjoin(guard, c, false)));
        } else {
          AddsFails(m, o, first);
        }
    }

    method ResolveBlock(xs: seq<Statement>, guardId: nat) returns (ok: bool)
      requires Valid() && guardId < |model.predicates|
      modifies this, model
      ensures Valid()
      ensures var rs := ResolveAll(design, xs, old(model.MeaningOf(guardId)));
              ok == rs.Some? && Adds(old(Now()), Now(), rs)
      decreases xs
    {
      ghost var m, guard := Now(), model.MeaningOf(guardId);
      ghost var done: seq<Transfer> := [];
      var i := 0;
      AddsNothing(m, m);
      JoinedWithNothing(ResolveAll(design, xs, guard));
      assert xs[0..] == xs;
      while i < |xs|
        invariant 0 <= i <= |xs| && Valid()
        invariant Adds(m, Now(), Some(done))
        invariant Joined(Some(done), ResolveAll(design, xs[i..], guard)) == ResolveAll(design, xs, guard)
      {
        ghost var n, one := Now(), Resolve(design, xs[i], guard);
        MeaningStays(m.predicates[guardId], m.atoms, n.atoms);
        ok := ResolveStatement(xs[i], guardId);
        AddsCompose(m, n, Now(), Some(done), one);
        assert xs[i..][1..] == xs[i + 1..];
        if !ok {
          return;
        }
        JoinedAssociates(done, one.value, ResolveAll(design, xs[i + 1..], guard));
        done := done + one.value;
        i := i + 1;
      }
      assert done + [] == done;
      ok := true;
    }

    /** Resolves every process body under the guard that always holds, then checks ownership. */
    method ResolveDesign(processes: seq<Statement>) returns (ok: bool)
      requires Valid() && transfers == []
      modifies this, model
      ensures Valid()
      ensures ok <==> var rs := ResolveAll(design, processes, All([])); rs.Some? && Safe(design, rs.value)
      ensures ok ==> Denotes(Now()) == ResolveAll(design, processes, All([])).value
    {
      ghost var m := Now();
      var always := model.True();
      AddsNothing(m, Now());
      ghost var n := Now();
      ok := ResolveBlock(processes, always);
      if ok {
        ghost var rs := ResolveAll(design, processes, All([]));
        AddsAfterGrowth(m, n, Now(), rs);
        assert Denotes(Now()) == rs.value;
        ok := ValidateOwnership(design, model, transfers);
      }
    }
  }

  lemma GuardUsesNext(a: Arena, atoms: seq<Atom>, i: nat)
    requires ArenaOk(a) && i < |atoms|
    ensures GuardUses(a, atoms[..i + 1]) == Both(GuardUses(a, atoms[..i]), Analysed(a, atoms[i].condition, All([])))
  {
    assert atoms[..i + 1][..i] == atoms[..i];
  }

  lemma {:induction false} GuardFailureStays(a: Arena, atoms: seq<Atom>, i: nat)
    requires ArenaOk(a) && i <= |atoms| && GuardUses(a, atoms[..i]).Refused?
    ensures GuardUses(a, atoms).Refused?
    decreases |atoms|
  {
    if i == |atoms| {
      assert atoms[..i] == atoms;
    } else {
      var front := atoms[..|atoms| - 1];
      assert front[..i] == atoms[..i];
      GuardFailureStays(a, front, i);
    }
  }
}
