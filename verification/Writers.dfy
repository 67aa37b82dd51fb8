/** What the ownership check guarantees to a design: a signal that must have one owner is written, and read, once a cycle. */
module Writers {
  import opened FlagTables
  import opened Options
  import opened Predicates
  import opened ExpressionUses
  import opened Targets
  import opened Reading
  import opened Ownership

  /** An assignment carried out, with the conditions on the way to it. */
  datatype Execution = Execution(conditions: seq<nat>, target: Target, value: nat)

  /** The assignments executed, in order, when the conditions turn out as v says. */
  ghost function Executed(x: Statement, path: seq<nat>, v: Valuation): seq<Execution> {
    match x
    case Assign(_, t, e) => [Execution(path, t, e)]
    case If(c, t, None) => if v(c) then Executed(t, path + [c], v) else []
    case If(c, t, Some(e)) => if v(c) then Executed(t, path + [c], v) else Executed(e, path + [c], v)
    case Block(xs) => ExecutedAll(xs, path, v)
  }

  ghost function ExecutedAll(xs: seq<Statement>, path: seq<nat>, v: Valuation): seq<Execution> {
    if xs == [] then [] else Executed(xs[0], path, v) + ExecutedAll(xs[1..], path, v)
  }

  /** Carrying it out reads the value of s: in a condition on the way, in its value or in an index of its target. */
  ghost predicate Reads(a: Arena, x: Execution, v: Valuation, s: nat)
    requires ArenaOk(a)
  {
    || (exists k :: 0 <= k < |x.conditions| && x.conditions[k] < |a.exprs| && ReadsValue(a, x.conditions[k], true, v, s))
    || (x.value < |a.exprs| && ReadsValue(a, x.value, true, v, s)) || TargetReads(a, x.target, v, s)
  }

  ghost predicate ReadsSignal(a: Arena, x: Execution, v: Valuation, signal: nat)
    requires ArenaOk(a)
  {
    exists s: nat :: Names(a, s, signal) && Reads(a, x, v, s)
  }

  /** The guard, as long as it can hold, contains the conditions on the way. */
  ghost predicate Guards(guard: Conjunction, path: seq<nat>) {
    guard.All? ==> forall k :: 0 <= k < |path| ==> HasCondition(guard.atoms, path[k])
  }

  ghost predicate HasCondition(atoms: seq<Atom>, c: nat) { exists i :: 0 <= i < |atoms| && atoms[i].condition == c }

  lemma GuardsMore(guard: Conjunction, path: seq<nat>, c: nat, expected: bool)
    requires Canonical(guard) && Guards(guard, path)
    ensures Guards(Conjoin(guard, c, expected), path + [c])
  {
    var next := Conjoin(guard, c, expected);
    if next.All? {
      forall k | 0 <= k <= |path|
        ensures HasCondition(next.atoms, (path + [c])[k])
      {
        ConjoinKeeps(guard, c, expected, (path + [c])[k]);
      }
    }
  }

  lemma ConjoinKeeps(guard: Conjunction, c: nat, expected: bool, other: nat)
    requires Canonical(guard) && Conjoin(guard, c, expected).All? && (other == c || HasCondition(guard.atoms, other))
    ensures HasCondition(Conjoin(guard, c, expected).atoms, other)
  {
    var at := PlaceOf(guard.atoms, c);
    var next := Conjoin(guard, c, expected).atoms;
    if other == c {
      assert next[at].condition == c;
    } else {
      var i :| 0 <= i < |guard.atoms| && guard.atoms[i].condition == other;
      assert next[i] == guard.atoms[i] || next[i + 1] == guard.atoms[i];
    }
  }

  /** The roles of the transfers whose guards hold, in order. */
  ghost function EnabledRoles(transfers: seq<Transfer>, v: Valuation): seq<seq<Entry<Role>>> {
    if transfers == [] then []
    else EnabledRoles(transfers[..|transfers| - 1], v) + EnabledRole(transfers[|transfers| - 1], v)
  }

  ghost function EnabledRole(t: Transfer, v: Valuation): seq<seq<Entry<Role>>> {
    if Holds(t.guard, v) then [t.roles] else []
  }

  lemma {:induction false} EnabledRolesJoin(x: seq<Transfer>, y: seq<Transfer>, v: Valuation)
    ensures EnabledRoles(x + y, v) == EnabledRoles(x, v) + EnabledRoles(y, v)
    decreases |y|
  {
    hide EnabledRole;
    if y == [] {
      assert x + y == x;
    } else {
      assert (x + y)[..|x + y| - 1] == x + y[..|y| - 1];
      EnabledRolesJoin(x, y[..|y| - 1], v);
    }
  }

  lemma EnabledRolesOne(t: Transfer, v: Valuation)
    ensures EnabledRoles([t], v) == EnabledRole(t, v)
  {
    assert [t][..0] == [] && EnabledRoles([], v) == [];
  }

  /** The roles write and produce exactly what the execution writes, and read and consume at least what it reads. */
  ghost predicate Plays(d: Design, roles: seq<Entry<Role>>, x: Execution, v: Valuation)
    requires ArenaOk(d.arena)
  {
    forall signal: nat, role ::
      && (role == SignalWrite || role == Producer ==>
            (Has(roles, signal, role) <==> OnWrite(d, signal, role) && WritesSignal(d.arena, x.target, signal)))
      && (OnRead(d, signal, role) && ReadsSignal(d.arena, x, v, signal) ==> Has(roles, signal, role))
  }

  ghost predicate Match(d: Design, roles: seq<seq<Entry<Role>>>, xs: seq<Execution>, v: Valuation)
    requires ArenaOk(d.arena)
  {
    |roles| == |xs| && forall k :: 0 <= k < |roles| ==> Plays(d, roles[k], xs[k], v)
  }

  lemma MatchJoin(d: Design, x: seq<seq<Entry<Role>>>, s: seq<Execution>, y: seq<seq<Entry<Role>>>, t: seq<Execution>,
                  v: Valuation)
    requires ArenaOk(d.arena) && Match(d, x, s, v) && Match(d, y, t, v)
    ensures Match(d, x + y, s + t, v)
  {
    hide Plays;
  }

  /** The enabled transfers of a statement play, one by one, the roles of the executed assignments. */
  lemma {:induction false} EnabledMatch(d: Design, x: Statement, guard: Conjunction, path: seq<nat>, v: Valuation)
    requires ArenaOk(d.arena) && Canonical(guard) && Guards(guard, path) && Resolve(d, x, guard).Some?
    ensures Match(d, EnabledRoles(Resolve(d, x, guard).value, v), if Holds(guard, v) then Executed(x, path, v) else [], v)
  {
    hide Holds, Conjoin, Canonical, Match, EnabledRoles, TransferRoles, Guards;
    match x
    case Assign(n, t, value) => OneMatches(d, guard, path, n, t, value, v);
    case If(c, t, e) =>
      ConjoinMeans(guard, c, true, v);
      ConjoinMeans(guard, c, false, v);
      GuardsMore(guard, path, c, true);
      GuardsMore(guard, path, c, false);
      EnabledMatch(d, t, Conjoin(guard, c, true), path + [c], v);
      if e.Some? {
        var first, second := Resolve(d, t, Conjoin(guard, c, true)).value, Resolve(d, e.value, Conjoin(guard, c, false)).value;
        EnabledMatch(d, e.value, Conjoin(guard, c, false), path + [c], v);
        EnabledRolesJoin(first, second, v);
        BranchesMatch(d, EnabledRoles(first, v), Executed(t, path + [c], v),
                      EnabledRoles(second, v), Executed(e.value, path + [c], v), v, Holds(guard, v), v(c));
      }
    case Block(xs) => AllEnabledMatch(d, xs, guard, path, v);
  }

  /** At most one of the two branches is executed. */
  lemma BranchesMatch(d: Design, x: seq<seq<Entry<Role>>>, s: seq<Execution>, y: seq<seq<Entry<Role>>>, t: seq<Execution>,
                      v: Valuation, holds: bool, condition: bool)
    requires ArenaOk(d.arena)
    requires Match(d, x, if holds && condition then s else [], v) && Match(d, y, if holds && !condition then t else [], v)
    ensures Match(d, x + y, if !holds then [] else if condition then s else t, v)
  {
    var left, right := if holds && condition then s else [], if holds && !condition then t else [];
    MatchJoin(d, x, left, y, right, v);
    assert left + right == if !holds then [] else if condition then s else t;
  }

  lemma OneMatches(d: Design, guard: Conjunction, path: seq<nat>, n: nat, t: Target, value: nat, v: Valuation)
    requires ArenaOk(d.arena) && Canonical(guard) && Guards(guard, path) && TransferRoles(d, guard, t, value).Some?
    ensures Match(d, EnabledRoles([Transfer(n, guard, TransferRoles(d, guard, t, value).value)], v),
                  if Holds(guard, v) then [Execution(path, t, value)] else [], v)
  {
    var roles := TransferRoles(d, guard, t, value).value;
    EnabledRolesOne(Transfer(n, guard, roles), v);
    if Holds(guard, v) {
      assert guard.All?;
      OnePlays(d, guard, path, t, value, v);
    }
  }

  lemma OnePlays(d: Design, guard: Conjunction, path: seq<nat>, t: Target, value: nat, v: Valuation)
    requires ArenaOk(d.arena) && Canonical(guard) && Guards(guard, path) && TransferRoles(d, guard, t, value).Some?
    requires guard.All? && Holds(guard, v)
    ensures Plays(d, TransferRoles(d, guard, t, value).value, Execution(path, t, value), v)
  {
    hide TransferRoles, Canonical, Holds, Has, WritesSignal, Reads, TransferReads, Guards;
    var roles, x := TransferRoles(d, guard, t, value).value, Execution(path, t, value);
    forall signal: nat, role
      ensures role == SignalWrite || role == Producer ==>
                (Has(roles, signal, role) <==> OnWrite(d, signal, role) && WritesSignal(d.arena, x.target, signal))
      ensures OnRead(d, signal, role) && ReadsSignal(d.arena, x, v, signal) ==> Has(roles, signal, role)
    {
      if role == SignalWrite || role == Producer {
        WritesProduce(d, guard, t, value, signal, role);
      } else {
        LiveReadsConsume(d, guard, t, value, signal, role);
        if s: nat :| Names(d.arena, s, signal) && Reads(d.arena, x, v, s) {
          ExecutionReadsTransfer(d.arena, guard, x, v, s);
          assert TransferReadsSignal(d.arena, guard, t, value, signal, v, s);
        }
      }
    }
  }

  lemma ExecutionReadsTransfer(a: Arena, guard: Conjunction, x: Execution, v: Valuation, s: nat)
    requires ArenaOk(a) && guard.All? && Holds(guard, v) && Guards(guard, x.conditions) && Reads(a, x, v, s)
    ensures TransferReads(a, guard, x.target, x.value, v, s)
  {
    hide ReadsValue, TargetReads, Holds;
    if k :| 0 <= k < |x.conditions| && x.conditions[k] < |a.exprs| && ReadsValue(a, x.conditions[k], true, v, s) {
      assert HasCondition(guard.atoms, x.conditions[k]);
      var i :| 0 <= i < |guard.atoms| && guard.atoms[i].condition == x.conditions[k];
      assert GuardReads(a, guard.atoms, v, s);
    }
  }

  lemma {:induction false} AllEnabledMatch(d: Design, xs: seq<Statement>, guard: Conjunction, path: seq<nat>, v: Valuation)
    requires ArenaOk(d.arena) && Canonical(guard) && Guards(guard, path) && ResolveAll(d, xs, guard).Some?
    ensures Match(d, EnabledRoles(ResolveAll(d, xs, guard).value, v),
                  if Holds(guard, v) then ExecutedAll(xs, path, v) else [], v)
  {
    hide Holds, Canonical, Resolve, Guards;
    if xs != [] {
      var first, rest := Resolve(d, xs[0], guard).value, ResolveAll(d, xs[1..], guard).value;
      EnabledMatch(d, xs[0], guard, path, v);
      AllEnabledMatch(d, xs[1..], guard, path, v);
      EnabledRolesJoin(first, rest, v);
      hide Match, EnabledRoles;
      MatchJoin(d, EnabledRoles(first, v), if Holds(guard, v) then Executed(xs[0], path, v) else [],
                EnabledRoles(rest, v), if Holds(guard, v) then ExecutedAll(xs[1..], path, v) else [], v);
    }
  }

  /** Where the k-th enabled transfer stands. */
  lemma {:induction false} EnabledAt(transfers: seq<Transfer>, v: Valuation, k: nat) returns (p: nat)
    requires k < |EnabledRoles(transfers, v)|
    ensures p < |transfers| && Holds(transfers[p].guard, v) && transfers[p].roles == EnabledRoles(transfers, v)[k]
    ensures |EnabledRoles(transfers[..p], v)| == k
    decreases |transfers|
  {
    hide Holds;
    var front := transfers[..|transfers| - 1];
    if k < |EnabledRoles(front, v)| {
      p := EnabledAt(front, v, k);
      assert front[..p] == transfers[..p];
    } else {
      p := |transfers| - 1;
    }
  }

  /** In an accepted design enabled transfers with the same owning role for an owned signal are one and the same. */
  lemma OneRolePerCycle(d: Design, transfers: seq<Transfer>, v: Valuation, signal: nat, role: Role, i: nat, j: nat)
    requires Safe(d, transfers) && Owned(d, signal) && (role == Consumer || role == Producer)
    requires i < |EnabledRoles(transfers, v)| && Has(EnabledRoles(transfers, v)[i], signal, role)
    requires j < |EnabledRoles(transfers, v)| && Has(EnabledRoles(transfers, v)[j], signal, role)
    ensures i == j
  {
    hide *;
    var p := EnabledAt(transfers, v, i);
    var q := EnabledAt(transfers, v, j);
    AtMostOneOwner(d, transfers, v, signal, role, p, q);
  }

  ghost predicate Accepted(d: Design, processes: seq<Statement>) {
    ArenaOk(d.arena) && ResolveAll(d, processes, All([])).Some? && Safe(d, ResolveAll(d, processes, All([])).value)
  }

  lemma ExecutionsPlay(d: Design, processes: seq<Statement>, v: Valuation, i: nat)
    requires Accepted(d, processes) && i < |ExecutedAll(processes, [], v)|
    ensures var roles := EnabledRoles(ResolveAll(d, processes, All([])).value, v);
            i < |roles| && Plays(d, roles[i], ExecutedAll(processes, [], v)[i], v)
  {
    assert Holds(All([]), v);
    AllEnabledMatch(d, processes, All([]), [], v);
    hide Plays;
  }

  /**
   * In an accepted design, whatever the conditions turn out to be, no two of the assignments executed in a cycle write
   * the same signal that requires ownership and is produced by writing it.
   */
  lemma {:induction false} OneWriterPerCycle(d: Design, processes: seq<Statement>, v: Valuation, signal: nat, i: nat, j: nat)
    requires Accepted(d, processes) && signal < |d.traits| && d.traits[signal].Some?
    requires d.traits[signal].value.requiresOwnership && d.traits[signal].value.producesOnWrite
    requires var xs := ExecutedAll(processes, [], v);
             && i < |xs| && WritesSignal(d.arena, xs[i].target, signal)
             && j < |xs| && WritesSignal(d.arena, xs[j].target, signal)
    ensures i == j
  {
    var transfers := ResolveAll(d, processes, All([])).value;
    ExecutionsPlay(d, processes, v, i);
    ExecutionsPlay(d, processes, v, j);
    assert Owned(d, signal);
    hide Has, WritesSignal, Safe, Owned, ReadsSignal;
    OneRolePerCycle(d, transfers, v, signal, Producer, i, j);
  }

  /** Nor do two of them read the same signal that requires ownership and is consumed by reading it. */
  lemma {:induction false} OneReaderPerCycle(d: Design, processes: seq<Statement>, v: Valuation, signal: nat, i: nat, j: nat)
    requires Accepted(d, processes) && signal < |d.traits| && d.traits[signal].Some?
    requires d.traits[signal].value.requiresOwnership && d.traits[signal].value.consumesOnRead
    requires var xs := ExecutedAll(processes, [], v);
             && i < |xs| && ReadsSignal(d.arena, xs[i], v, signal)
             && j < |xs| && ReadsSignal(d.arena, xs[j], v, signal)
    ensures i == j
  {
    var transfers := ResolveAll(d, processes, All([])).value;
    ExecutionsPlay(d, processes, v, i);
    ExecutionsPlay(d, processes, v, j);
    assert Owned(d, signal);
    hide Has, WritesSignal, Safe, Owned, ReadsSignal;
    OneRolePerCycle(d, transfers, v, signal, Consumer, i, j);
  }
}
