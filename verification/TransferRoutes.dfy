/** The valid and ready equations emitted for groups of signal assignments. */
module TransferRoutes {
  import opened Options

  datatype Kind = Wire | Reg | LogicSignal | Buf | Fifo | Skid | Port | Ingress

  /** Declared inside the module, or one of its ports. */
  datatype Direction = Internal | Input | Output

  datatype Primitive = Primitive(kind: Kind, direction: Direction)

  predicate HasStorage(k: Kind) { k != Wire && k != Reg && k != LogicSignal }

  /** A whole signal, the discard `_`, or an ordinary lvalue such as a slice. */
  datatype Destination = Signal(primitive: nat) | Discard | Ordinary

  /** `mentions` are the primitives the expression names outside `$bits` and `peek`; no guard means always. */
  datatype Assignment = Assignment(destination: Destination, mentions: set<nat>, value: (nat -> int) -> int,
                                   guard: Option<nat>, group: nat)

  datatype Design = Design(primitives: seq<Primitive>, assignments: seq<Assignment>)

  /**
   * What earlier passes have checked: names resolve, no wire and no input port with a handshake is a destination, and
   * the members of one group share their guard and never repeat a destination.
   */
  ghost predicate DesignOk(d: Design) {
    && (forall i :: 0 <= i < |d.assignments| ==> AssignmentOk(d, d.assignments[i]))
    && (forall i, j :: 0 <= i < j < |d.assignments| ==> PairOk(d.assignments[i], d.assignments[j]))
  }

  ghost predicate AssignmentOk(d: Design, a: Assignment) {
    && (a.destination.Signal? ==>
          && a.destination.primitive < |d.primitives| && d.primitives[a.destination.primitive].kind != Wire
          && (HasStorage(d.primitives[a.destination.primitive].kind) ==> !d.primitives[a.destination.primitive].direction.Input?))
    && (forall p :: p in a.mentions ==> p < |d.primitives|)
  }

  ghost predicate PairOk(a: Assignment, b: Assignment) {
    a.group == b.group ==> a.guard == b.guard && (a.destination.Signal? ==> a.destination != b.destination)
  }

  /** The signals that the emitted equations read, in one cycle. */
  datatype Cycle = Cycle(guard: nat -> bool, outValid: nat -> bool, inReady: nat -> bool, packetOut: nat -> int)

  // ----- the nets beside a signal's payload

  datatype Net = InValidNet | InReadyNet | PacketInNet | ValidNet | OutReadyNet

  /** A static signal has none; an input port, and a `port` inside the module, only its output side. */
  predicate Declared(x: Primitive, n: Net) {
    match x.kind
    case Wire => false
    case Reg => false
    case LogicSignal => false
    case Port => x.direction.Output? || n == ValidNet || n == OutReadyNet
    case _ => !x.direction.Input? || n == ValidNet || n == OutReadyNet
  }

  // ----- emitted terms

  datatype Term = Zero | One | GuardOf(guard: nat) | ValidOf(source: nat) | ReadyOf(destination: nat)

  predicate TermHolds(t: Term, c: Cycle) {
    match t
    case Zero => false
    case One => true
    case GuardOf(g) => c.guard(g)
    case ValidOf(p) => c.outValid(p)
    case ReadyOf(p) => c.inReady(p)
  }

  /** A term reads only nets that are declared. */
  predicate TermOk(d: Design, t: Term) {
    match t
    case ValidOf(p) => p < |d.primitives| && Declared(d.primitives[p], ValidNet)
    case ReadyOf(p) => p < |d.primitives| && Declared(d.primitives[p], InReadyNet)
    case _ => true
  }

  predicate TermsOk(d: Design, terms: seq<Term>) { forall i :: 0 <= i < |terms| ==> TermOk(d, terms[i]) }

  predicate AlternativesOk(d: Design, alternatives: seq<seq<Term>>) {
    forall i :: 0 <= i < |alternatives| ==> TermsOk(d, alternatives[i])
  }

  ghost predicate AllHold(terms: seq<Term>, c: Cycle) { forall i :: 0 <= i < |terms| ==> TermHolds(terms[i], c) }

  ghost predicate AnyHolds(alternatives: seq<seq<Term>>, c: Cycle) {
    exists i :: 0 <= i < |alternatives| && AllHold(alternatives[i], c)
  }

  lemma AllHoldSplits(x: seq<Term>, y: seq<Term>, c: Cycle)
    ensures AllHold(x + y, c) <==> AllHold(x, c) && AllHold(y, c)
  {
    if AllHold(x + y, c) {
      forall i | 0 <= i < |x|
        ensures TermHolds(x[i], c)
      {
        assert (x + y)[i] == x[i];
      }
      forall i | 0 <= i < |y|
        ensures TermHolds(y[i], c)
      {
        assert (x + y)[|x| + i] == y[i];
      }
    }
  }

  lemma NoneHolds()
    ensures forall c :: !AnyHolds([], c)
  {
  }

  lemma AnyHoldsAppend(x: seq<seq<Term>>, y: seq<Term>, c: Cycle)
    ensures AnyHolds(x + [y], c) <==> AnyHolds(x, c) || AllHold(y, c)
  {
    assert (x + [y])[|x|] == y;
    if i :| 0 <= i < |x| && AllHold(x[i], c) {
      assert (x + [y])[i] == x[i];
    }
  }

  // ----- what the equations are to mean

  predicate IsStatic(k: Kind) { k == Wire || k == Reg || k == LogicSignal }

  /** A static signal is always valid. */
  predicate Valid(d: Design, p: nat, c: Cycle)
    requires p < |d.primitives|
  {
    IsStatic(d.primitives[p].kind) || c.outValid(p)
  }

  predicate GuardOn(a: Assignment, c: Cycle) { a.guard.None? || c.guard(a.guard.value) }

  /** The destination has a storage input with a handshake: storage, but not a port that is only written here. */
  predicate Handshakes(d: Design, p: nat)
    requires p < |d.primitives|
  {
    HasStorage(d.primitives[p].kind) && (d.primitives[p].kind == Port ==> d.primitives[p].direction.Output?)
  }

  /** A source whose tokens are consumed: storage, but not an output port. */
  predicate Consumable(d: Design, p: nat)
    requires p < |d.primitives|
  {
    HasStorage(d.primitives[p].kind) && !(d.primitives[p].kind == Port && d.primitives[p].direction.Output?)
  }

  predicate DestinationReady(d: Design, x: Destination, c: Cycle)
    requires x.Signal? ==> x.primitive < |d.primitives|
  {
    x.Signal? && Handshakes(d, x.primitive) ==> c.inReady(x.primitive)
  }

  predicate InGroup(d: Design, j: nat, g: nat) { j < |d.assignments| && d.assignments[j].group == g }

  ghost predicate Mentions(d: Design, g: nat, p: nat) { exists j: nat :: InGroup(d, j, g) && p in d.assignments[j].mentions }

  ghost predicate GroupValid(d: Design, g: nat, except: Option<nat>, c: Cycle) {
    forall p :: 0 <= p < |d.primitives| && Mentions(d, g, p) && Some(p) != except ==> Valid(d, p, c)
  }

  ghost predicate GroupReady(d: Design, g: nat, c: Cycle)
    requires DesignOk(d)
  {
    forall j: nat :: InGroup(d, j, g) ==> DestinationReady(d, d.assignments[j].destination, c)
  }

  ghost predicate GroupGuard(d: Design, g: nat, c: Cycle) {
    exists j: nat :: InGroup(d, j, g) && GuardOn(d.assignments[j], c)
  }

  /** The group transfers: its guard holds, every source is valid and every destination is ready. */
  ghost predicate GroupFires(d: Design, g: nat, c: Cycle)
    requires DesignOk(d)
  {
    GroupGuard(d, g, c) && GroupValid(d, g, None, c) && GroupReady(d, g, c)
  }

  ghost predicate Alone(d: Design, j: nat) {
    j < |d.assignments| && forall k: nat :: InGroup(d, k, d.assignments[j].group) ==> k == j
  }

  ghost predicate ExpressionValid(d: Design, j: nat, except: Option<nat>, c: Cycle)
    requires j < |d.assignments|
  {
    forall p :: 0 <= p < |d.primitives| && p in d.assignments[j].mentions && Some(p) != except ==> Valid(d, p, c)
  }

  // ----- emission

  method GroupSize(d: Design, g: nat) returns (n: nat)
    ensures forall j: nat :: InGroup(d, j, g) ==> n > 1 || Alone(d, j)
    ensures forall j: nat :: InGroup(d, j, g) && Alone(d, j) ==> n == 1
  {
    n := 0;
    ghost var last := 0;
    var i := 0;
    while i < |d.assignments|
      invariant 0 <= i <= |d.assignments|
      invariant n == 0 ==> forall j :: 0 <= j < i ==> !InGroup(d, j, g)
      invariant n > 0 ==> last < i && InGroup(d, last, g)
      invariant n == 1 ==> forall j :: 0 <= j < i && InGroup(d, j, g) ==> j == last
      invariant n > 1 ==> exists j, k :: 0 <= j < k < i && InGroup(d, j, g) && InGroup(d, k, g)
    {
      if d.assignments[i].group == g {
        assert n > 0 ==> 0 <= last < i && InGroup(d, last, g) && InGroup(d, i, g);
        n := n + 1;
        last := i;
      }
      i := i + 1;
    }
  }

  method GroupMentions(d: Design, g: nat, p: nat) returns (mentioned: bool)
    ensures mentioned <==> Mentions(d, g, p)
  {
    var i := 0;
    while i < |d.assignments|
      invariant 0 <= i <= |d.assignments|
      invariant forall j :: 0 <= j < i && InGroup(d, j, g) ==> p !in d.assignments[j].mentions
    {
      if d.assignments[i].group == g && p in d.assignments[i].mentions {
        assert InGroup(d, i, g);
        return true;
      }
      i := i + 1;
    }
    return false;
  }

  function ValidTerm(d: Design, p: nat): Term
    requires p < |d.primitives|
  {
    if IsStatic(d.primitives[p].kind) then One else ValidOf(p)
  }

  method EmitGroupValidity(d: Design, g: nat, except: Option<nat>) returns (terms: seq<Term>)
    ensures TermsOk(d, terms) && forall c :: AllHold(terms, c) <==> GroupValid(d, g, except, c)
  {
    terms := [];
    var p := 0;
    while p < |d.primitives|
      invariant 0 <= p <= |d.primitives| && TermsOk(d, terms)
      invariant forall c :: AllHold(terms, c) <==>
        forall q :: 0 <= q < p && Mentions(d, g, q) && Some(q) != except ==> Valid(d, q, c)
    {
      var mentioned := GroupMentions(d, g, p);
      if mentioned && Some(p) != except {
        terms := AppendTerm(terms, ValidTerm(d, p));
      }
      p := p + 1;
    }
    if terms == [] {
      assert forall c :: AllHold([], c) && (AllHold([One], c) <==> TermHolds([One][0], c));
      terms := [One];
    }
  }

  method AppendTerm(terms: seq<Term>, t: Term) returns (r: seq<Term>)
    ensures r == terms + [t]
    ensures forall c :: AllHold(r, c) <==> AllHold(terms, c) && TermHolds(t, c)
  {
    r := terms + [t];
    forall c: Cycle
      ensures AllHold(r, c) <==> AllHold(terms, c) && TermHolds(t, c)
    {
      AllHoldSplits(terms, [t], c);
      assert AllHold([t], c) <==> TermHolds([t][0], c);
    }
  }

  function ReadyTerm(d: Design, x: Destination): Term
    requires x.Signal? ==> x.primitive < |d.primitives|
  {
    if !x.Signal? then One
    else
      match d.primitives[x.primitive].kind
      case Wire => Zero
      case Reg => One
      case LogicSignal => One
      case Port => if d.primitives[x.primitive].direction.Output? then ReadyOf(x.primitive) else One
      case _ => ReadyOf(x.primitive)
  }

  method EmitGroupReady(d: Design, g: nat) returns (terms: seq<Term>)
    requires DesignOk(d)
    ensures TermsOk(d, terms) && forall c :: AllHold(terms, c) <==> GroupReady(d, g, c)
  {
    terms := [];
    var i := 0;
    while i < |d.assignments|
      invariant 0 <= i <= |d.assignments| && TermsOk(d, terms)
      invariant forall c :: AllHold(terms, c) <==>
        forall j :: 0 <= j < i && InGroup(d, j, g) ==> DestinationReady(d, d.assignments[j].destination, c)
    {
      if d.assignments[i].group == g {
        assert AssignmentOk(d, d.assignments[i]);
        terms := AppendTerm(terms, ReadyTerm(d, d.assignments[i].destination));
      }
      i := i + 1;
    }
  }

  method EmitExpressionValidity(d: Design, j: nat, except: Option<nat>) returns (terms: seq<Term>)
    requires j < |d.assignments|
    ensures TermsOk(d, terms) && forall c :: AllHold(terms, c) <==> ExpressionValid(d, j, except, c)
  {
    terms := [];
    var p := 0;
    while p < |d.primitives|
      invariant 0 <= p <= |d.primitives| && TermsOk(d, terms)
      invariant forall c :: AllHold(terms, c) <==>
        forall q :: 0 <= q < p && q in d.assignments[j].mentions && Some(q) != except ==> Valid(d, q, c)
    {
      if p in d.assignments[j].mentions && Some(p) != except {
        terms := AppendTerm(terms, ValidTerm(d, p));
      }
      p := p + 1;
    }
    if terms == [] {
      assert forall c :: AllHold([], c) && (AllHold([One], c) <==> TermHolds([One][0], c));
      terms := [One];
    }
  }

  function GuardTerms(a: Assignment): seq<Term> { if a.guard.None? then [] else [GuardOf(a.guard.value)] }

  /** An assignment offers its value: within a group only when the whole group can go. */
  ghost predicate Offers(d: Design, j: nat, c: Cycle)
    requires DesignOk(d) && j < |d.assignments|
  {
    GuardOn(d.assignments[j], c) &&
    if Alone(d, j) then ExpressionValid(d, j, None, c)
    else GroupValid(d, d.assignments[j].group, None, c) && GroupReady(d, d.assignments[j].group, c)
  }

  method EmitOffer(d: Design, j: nat) returns (terms: seq<Term>)
    requires DesignOk(d) && j < |d.assignments|
    ensures TermsOk(d, terms) && forall c :: AllHold(terms, c) <==> Offers(d, j, c)
  {
    var a := d.assignments[j];
    var size := GroupSize(d, a.group);
    assert InGroup(d, j, a.group);
    var rest: seq<Term>;
    if size > 1 {
      var valid := EmitGroupValidity(d, a.group, None);
      var ready := EmitGroupReady(d, a.group);
      rest := valid + ready;
      forall c: Cycle
        ensures AllHold(rest, c) <==> GroupValid(d, a.group, None, c) && GroupReady(d, a.group, c)
      {
        AllHoldSplits(valid, ready, c);
      }
    } else {
      rest := EmitExpressionValidity(d, j, None);
    }
    terms := GuardTerms(a) + rest;
    forall c: Cycle
      ensures AllHold(terms, c) <==> Offers(d, j, c)
    {
      AllHoldSplits(GuardTerms(a), rest, c);
      GuardTermsMean(a, c);
    }
  }

  lemma GuardTermsMean(a: Assignment, c: Cycle)
    ensures AllHold(GuardTerms(a), c) <==> GuardOn(a, c)
  {
    if a.guard.Some? {
      assert GuardTerms(a)[0] == GuardOf(a.guard.value);
    }
  }

  /** in_valid of a destination: one of its assignments offers a value. */
  ghost predicate InValid(d: Design, p: nat, c: Cycle)
    requires DesignOk(d)
  {
    exists j :: 0 <= j < |d.assignments| && d.assignments[j].destination == Signal(p) && Offers(d, j, c)
  }

  method EmitInValid(d: Design, first: nat, p: nat) returns (alternatives: seq<seq<Term>>)
    requires DesignOk(d) && first < |d.assignments|
    requires forall j :: 0 <= j < first ==> d.assignments[j].destination != Signal(p)
    ensures AlternativesOk(d, alternatives) && forall c :: AnyHolds(alternatives, c) <==> InValid(d, p, c)
  {
    alternatives := [];
    var j := first;
    while j < |d.assignments|
      invariant first <= j <= |d.assignments| && AlternativesOk(d, alternatives)
      invariant forall c :: AnyHolds(alternatives, c) <==>
        exists k :: 0 <= k < j && d.assignments[k].destination == Signal(p) && Offers(d, k, c)
    {
      if d.assignments[j].destination == Signal(p) {
        var terms := EmitOffer(d, j);
        alternatives := AppendAlternative(alternatives, terms);
      }
      j := j + 1;
    }
  }

  method AppendAlternative(alternatives: seq<seq<Term>>, terms: seq<Term>) returns (r: seq<seq<Term>>)
    ensures r == alternatives + [terms]
    ensures forall c :: AnyHolds(r, c) <==> AnyHolds(alternatives, c) || AllHold(terms, c)
  {
    r := alternatives + [terms];
    forall c: Cycle
      ensures AnyHolds(r, c) <==> AnyHolds(alternatives, c) || AllHold(terms, c)
    {
      AnyHoldsAppend(alternatives, terms, c);
    }
  }

  // ----- the payload multiplexer

  /** The value of the first applicable assignment to p from the j-th on; '0 when none applies. */
  function PacketFrom(d: Design, p: nat, j: nat, c: Cycle): int
    requires j <= |d.assignments|
    decreases |d.assignments| - j
  {
    if j == |d.assignments| then 0
    else if d.assignments[j].destination == Signal(p) && GuardOn(d.assignments[j], c) then
      d.assignments[j].value(c.packetOut)
    else PacketFrom(d, p, j + 1, c)
  }

  lemma {:induction false} PacketSkips(d: Design, p: nat, j: nat, c: Cycle)
    requires j <= |d.assignments| && forall k :: 0 <= k < j ==> d.assignments[k].destination != Signal(p)
    ensures PacketFrom(d, p, 0, c) == PacketFrom(d, p, j, c)
  {
    if j > 0 {
      PacketSkips(d, p, j - 1, c);
    }
  }

  /** The emitted multiplexer: alternatives in order, then a last value. */
  function Select(d: Design, mux: seq<nat>, last: int, c: Cycle): int
    requires forall i :: 0 <= i < |mux| ==> mux[i] < |d.assignments|
  {
    if mux == [] then last
    else
      var a := d.assignments[mux[0]];
      if GuardOn(a, c) then a.value(c.packetOut) else Select(d, mux[1..], last, c)
  }

  lemma {:induction false} SelectAppend(d: Design, mux: seq<nat>, j: nat, last: int, c: Cycle)
    requires j < |d.assignments| && forall i :: 0 <= i < |mux| ==> mux[i] < |d.assignments|
    ensures Select(d, mux + [j], last, c) ==
            Select(d, mux, if GuardOn(d.assignments[j], c) then d.assignments[j].value(c.packetOut) else last, c)
  {
    if mux != [] {
      assert (mux + [j])[1..] == mux[1..] + [j];
      SelectAppend(d, mux[1..], j, last, c);
    }
  }

  /** The alternatives end at the first unguarded one; otherwise '0 is the last value. */
  method EmitPacket(d: Design, first: nat, p: nat) returns (mux: seq<nat>)
    requires first < |d.assignments| && forall j :: 0 <= j < first ==> d.assignments[j].destination != Signal(p)
    ensures forall i :: 0 <= i < |mux| ==> mux[i] < |d.assignments|
    ensures forall c :: Select(d, mux, 0, c) == PacketFrom(d, p, 0, c)
  {
    mux := [];
    var j := first;
    forall c: Cycle
      ensures PacketFrom(d, p, 0, c) == PacketFrom(d, p, first, c)
    {
      PacketSkips(d, p, first, c);
    }
    while j < |d.assignments|
      invariant first <= j <= |d.assignments|
      invariant forall i :: 0 <= i < |mux| ==> mux[i] < |d.assignments|
      invariant forall c :: Select(d, mux, PacketFrom(d, p, j, c), c) == PacketFrom(d, p, 0, c)
    {
      if d.assignments[j].destination == Signal(p) {
        forall c: Cycle, last
          ensures Select(d, mux + [j], last, c) ==
                  Select(d, mux, if GuardOn(d.assignments[j], c) then d.assignments[j].value(c.packetOut) else last, c)
        {
          SelectAppend(d, mux, j, last, c);
        }
        mux := mux + [j];
        if d.assignments[j].guard.None? {
          return;
        }
      }
      j := j + 1;
    }
  }

  // ----- the ready driver of a source

  /** The first assignment of its group. */
  ghost predicate Leads(d: Design, j: nat) {
    j < |d.assignments| && forall k :: 0 <= k < j ==> d.assignments[k].group != d.assignments[j].group
  }

  /** A group takes from p: guard, readiness, and the validity of every other source. */
  ghost predicate Takes(d: Design, j: nat, p: nat, c: Cycle)
    requires DesignOk(d) && j < |d.assignments|
  {
    && GuardOn(d.assignments[j], c) && GroupReady(d, d.assignments[j].group, c)
    && GroupValid(d, d.assignments[j].group, Some(p), c)
  }

  /** out_ready of a source: one of the groups that mention it takes from it. */
  ghost predicate OutReady(d: Design, p: nat, c: Cycle)
    requires DesignOk(d)
  {
    exists j :: 0 <= j < |d.assignments| && Leads(d, j) && Mentions(d, d.assignments[j].group, p) && Takes(d, j, p, c)
  }

  method IsLeader(d: Design, j: nat) returns (leads: bool)
    requires j < |d.assignments|
    ensures leads <==> Leads(d, j)
  {
    var k := 0;
    while k < j
      invariant 0 <= k <= j
      invariant forall i :: 0 <= i < k ==> d.assignments[i].group != d.assignments[j].group
    {
      if d.assignments[k].group == d.assignments[j].group {
        return false;
      }
      k := k + 1;
    }
    return true;
  }

  lemma AloneIsItsGroup(d: Design, j: nat, except: Option<nat>, c: Cycle)
    requires DesignOk(d) && Alone(d, j)
    ensures ExpressionValid(d, j, except, c) <==> GroupValid(d, d.assignments[j].group, except, c)
    ensures DestinationReady(d, d.assignments[j].destination, c) <==> GroupReady(d, d.assignments[j].group, c)
  {
    assert InGroup(d, j, d.assignments[j].group);
    assert AssignmentOk(d, d.assignments[j]);
    assert forall p: nat :: Mentions(d, d.assignments[j].group, p) <==> p in d.assignments[j].mentions;
  }

  /** The single-assignment form of the ready term. */
  function SingleReadyTerm(d: Design, x: Destination): Term
    requires x.Signal? ==> x.primitive < |d.primitives|
  {
    if x.Signal? && d.primitives[x.primitive].kind == Port then
      if d.primitives[x.primitive].direction.Output? then ReadyOf(x.primitive) else One
    else if x.Signal? && HasStorage(d.primitives[x.primitive].kind) then ReadyOf(x.primitive)
    else One
  }

  method EmitTake(d: Design, j: nat, p: nat) returns (terms: seq<Term>)
    requires DesignOk(d) && j < |d.assignments|
    ensures TermsOk(d, terms) && forall c :: AllHold(terms, c) <==> Takes(d, j, p, c)
  {
    var a := d.assignments[j];
    var size := GroupSize(d, a.group);
    assert InGroup(d, j, a.group) && AssignmentOk(d, a);
    var ready, valid: seq<Term>;
    if size > 1 {
      ready := EmitGroupReady(d, a.group);
      valid := EmitGroupValidity(d, a.group, Some(p));
    } else {
      ready := AppendTerm([], SingleReadyTerm(d, a.destination));
      valid := EmitExpressionValidity(d, j, Some(p));
      forall c: Cycle
        ensures AllHold(ready, c) <==> GroupReady(d, a.group, c)
        ensures AllHold(valid, c) <==> GroupValid(d, a.group, Some(p), c)
      {
        AloneIsItsGroup(d, j, Some(p), c);
      }
    }
    terms := GuardTerms(a) + ready + valid;
    forall c: Cycle
      ensures AllHold(terms, c) <==> Takes(d, j, p, c)
    {
      AllHoldSplits(GuardTerms(a) + ready, valid, c);
      AllHoldSplits(GuardTerms(a), ready, c);
      GuardTermsMean(a, c);
    }
  }

  /** No driver is emitted for a source that no group mentions. */
  method EmitOutReady(d: Design, p: nat) returns (driver: Option<seq<seq<Term>>>)
    requires DesignOk(d)
    ensures driver.None? <==> forall j :: 0 <= j < |d.assignments| ==> !Mentions(d, d.assignments[j].group, p)
    ensures driver.Some? ==>
              AlternativesOk(d, driver.value) && forall c :: AnyHolds(driver.value, c) <==> OutReady(d, p, c)
  {
    hide DesignOk, Mentions, Takes, AnyHolds, AllHold;
    var alternatives := [];
    var emitted := false;
    var j := 0;
    NoneHolds();
    while j < |d.assignments|
      invariant 0 <= j <= |d.assignments| && AlternativesOk(d, alternatives)
      invariant !emitted ==> forall k :: 0 <= k < j ==> !Mentions(d, d.assignments[k].group, p)
      invariant emitted ==> exists k :: 0 <= k < j && Mentions(d, d.assignments[k].group, p)
      invariant forall c :: AnyHolds(alternatives, c) <==>
        exists k :: 0 <= k < j && Leads(d, k) && Mentions(d, d.assignments[k].group, p) && Takes(d, k, p, c)
    {
      var mentioned := GroupMentions(d, d.assignments[j].group, p);
      var leads := IsLeader(d, j);
      if mentioned && leads {
        var terms := EmitTake(d, j, p);
        alternatives := AppendAlternative(alternatives, terms);
        emitted := true;
      }
      j := j + 1;
    }
    driver := if emitted then Some(alternatives) else None;
  }

  // ----- all drivers

  datatype InDriver = InDriver(destination: nat, valid: seq<seq<Term>>, mux: seq<nat>)
  datatype OutDriver = OutDriver(source: nat, ready: seq<seq<Term>>)

  ghost predicate InDriverOk(d: Design, x: InDriver)
    requires DesignOk(d)
  {
    && x.destination < |d.primitives| && Handshakes(d, x.destination)
    && Declared(d.primitives[x.destination], InValidNet) && Declared(d.primitives[x.destination], PacketInNet)
    && AlternativesOk(d, x.valid)
    && (forall i :: 0 <= i < |x.mux| ==> x.mux[i] < |d.assignments|)
    && (forall c :: AnyHolds(x.valid, c) <==> InValid(d, x.destination, c))
    && (forall c :: Select(d, x.mux, 0, c) == PacketFrom(d, x.destination, 0, c))
  }

  ghost predicate OutDriverOk(d: Design, x: OutDriver)
    requires DesignOk(d)
  {
    && x.source < |d.primitives| && Consumable(d, x.source)
    && Declared(d.primitives[x.source], OutReadyNet) && AlternativesOk(d, x.ready)
    && forall c :: AnyHolds(x.ready, c) <==> OutReady(d, x.source, c)
  }

  ghost predicate AssignedBefore(d: Design, i: nat, p: nat) {
    exists j :: 0 <= j < i && j < |d.assignments| && d.assignments[j].destination == Signal(p)
  }

  ghost predicate Drives(drivers: seq<InDriver>, p: nat) {
    exists k :: 0 <= k < |drivers| && drivers[k].destination == p
  }

  lemma DrivesOneMore(drivers: seq<InDriver>, x: InDriver, p: nat)
    ensures Drives(drivers + [x], p) <==> Drives(drivers, p) || p == x.destination
  {
    assert (drivers + [x])[|drivers|] == x;
    if k :| 0 <= k < |drivers| && drivers[k].destination == p {
      assert (drivers + [x])[k] == drivers[k];
    }
  }

  /** Whether the i-th assignment is the first to its destination. */
  method IsFirst(d: Design, i: nat, p: nat) returns (first: bool)
    requires i < |d.assignments|
    ensures first <==> !AssignedBefore(d, i, p)
  {
    var j := 0;
    while j < i && d.assignments[j].destination != Signal(p)
      invariant 0 <= j <= i
      invariant forall k :: 0 <= k < j ==> d.assignments[k].destination != Signal(p)
    {
      j := j + 1;
    }
    first := j == i;
  }

  method EmitInDriver(d: Design, i: nat, p: nat) returns (driver: InDriver)
    requires DesignOk(d) && i < |d.assignments| && p < |d.primitives| && Handshakes(d, p) && !AssignedBefore(d, i, p)
    requires d.assignments[i].destination == Signal(p)
    ensures driver.destination == p && InDriverOk(d, driver)
  {
    assert AssignmentOk(d, d.assignments[i]);
    assert forall j :: 0 <= j < i ==> d.assignments[j].destination != Signal(p);
    var valid := EmitInValid(d, i, p);
    var mux := EmitPacket(d, i, p);
    driver := InDriver(p, valid, mux);
  }

  /** Every assigned storage input gets exactly one valid and packet driver. */
  method EmitInDrivers(d: Design) returns (drivers: seq<InDriver>)
    requires DesignOk(d)
    ensures forall k :: 0 <= k < |drivers| ==> InDriverOk(d, drivers[k])
    ensures forall k, l :: 0 <= k < l < |drivers| ==> drivers[k].destination != drivers[l].destination
    ensures forall p :: 0 <= p < |d.primitives| ==>
              (Drives(drivers, p) <==> Handshakes(d, p) && AssignedBefore(d, |d.assignments|, p))
  {
    hide InDriverOk;
    drivers := [];
    var i := 0;
    while i < |d.assignments|
      invariant 0 <= i <= |d.assignments|
      invariant forall k :: 0 <= k < |drivers| ==> InDriverOk(d, drivers[k])
      invariant forall k, l :: 0 <= k < l < |drivers| ==> drivers[k].destination != drivers[l].destination
      invariant forall p :: 0 <= p < |d.primitives| ==>
        (Drives(drivers, p) <==> Handshakes(d, p) && AssignedBefore(d, i, p))
    {
      assert AssignmentOk(d, d.assignments[i]);
      var x := d.assignments[i].destination;
      assert forall p: nat :: AssignedBefore(d, i + 1, p) <==> AssignedBefore(d, i, p) || x == Signal(p);
      if x.Signal? && Handshakes(d, x.primitive) {
        var first := IsFirst(d, i, x.primitive);
        if first {
          var driver := EmitInDriver(d, i, x.primitive);
          forall p | 0 <= p < |d.primitives|
            ensures Drives(drivers + [driver], p) <==> Handshakes(d, p) && AssignedBefore(d, i + 1, p)
          {
            DrivesOneMore(drivers, driver, p);
          }
          assert forall k :: 0 <= k < |drivers| ==> drivers[k].destination != x.primitive by {
            assert !Drives(drivers, x.primitive);
          }
          drivers := drivers + [driver];
        }
      }
      i := i + 1;
    }
  }

  /** Some group reads p. */
  ghost predicate Mentioned(d: Design, p: nat) {
    exists j :: 0 <= j < |d.assignments| && Mentions(d, d.assignments[j].group, p)
  }

  ghost predicate Drained(drivers: seq<OutDriver>, p: nat) { exists k :: 0 <= k < |drivers| && drivers[k].source == p }

  lemma DrainsOneMore(drivers: seq<OutDriver>, x: OutDriver, p: nat)
    ensures Drained(drivers + [x], p) <==> Drained(drivers, p) || p == x.source
  {
    assert (drivers + [x])[|drivers|] == x;
    if k :| 0 <= k < |drivers| && drivers[k].source == p {
      assert (drivers + [x])[k] == drivers[k];
    }
  }

  ghost predicate OutDriversOk(d: Design, drivers: seq<OutDriver>)
    requires DesignOk(d)
  {
    && (forall k :: 0 <= k < |drivers| ==> OutDriverOk(d, drivers[k]))
    && (forall k, l :: 0 <= k < l < |drivers| ==> drivers[k].source < drivers[l].source)
    && (forall p :: 0 <= p < |d.primitives| ==> (Drained(drivers, p) <==> Consumable(d, p) && Mentioned(d, p)))
  }

  /** Every consumed source that some group mentions gets exactly one ready driver, and no other does. */
  method EmitOutDrivers(d: Design) returns (drivers: seq<OutDriver>)
    requires DesignOk(d)
    ensures OutDriversOk(d, drivers)
  {
    hide Mentions, DesignOk, AlternativesOk, AnyHolds, OutReady;
    drivers := [];
    var p := 0;
    while p < |d.primitives|
      invariant 0 <= p <= |d.primitives|
      invariant forall k :: 0 <= k < |drivers| ==> OutDriverOk(d, drivers[k]) && drivers[k].source < p
      invariant forall k, l :: 0 <= k < l < |drivers| ==> drivers[k].source < drivers[l].source
      invariant forall q :: 0 <= q < p ==> (Drained(drivers, q) <==> Consumable(d, q) && Mentioned(d, q))
    {
      assert !Drained(drivers, p);
      if Consumable(d, p) {
        var ready := EmitOutReady(d, p);
        if ready.Some? {
          var driver := OutDriver(p, ready.value);
          forall q
            ensures Drained(drivers + [driver], q) <==> Drained(drivers, q) || q == p
          {
            DrainsOneMore(drivers, driver, q);
          }
          drivers := drivers + [driver];
        }
      }
      p := p + 1;
    }
  }

  // ----- nets with two drivers

  /**
   * The declaration itself drives out_ready: that of an output from the module's own ready port, that of a `port` inside
   * the module with a constant one.
   */
  predicate ReadyFixed(x: Primitive) {
    HasStorage(x.kind) && (x.direction.Output? || (x.kind == Port && x.direction.Internal?))
  }

  /**
   * The ready net of a source has a second driver exactly when a group reads back an output that is no `port`, or a
   * `port` inside the module. No other net that the drivers drive has one.
   */
  lemma ReadyDrivenTwice(d: Design, drivers: seq<OutDriver>, p: nat)
    requires DesignOk(d) && OutDriversOk(d, drivers) && p < |d.primitives|
    ensures Drained(drivers, p) && ReadyFixed(d.primitives[p]) <==>
            Mentioned(d, p) && match d.primitives[p].kind
                               case Wire => false
                               case Reg => false
                               case LogicSignal => false
                               case Port => d.primitives[p].direction.Internal?
                               case _ => d.primitives[p].direction.Output?
  {
    hide Mentioned, Drained, OutDriverOk, DesignOk;
  }

  /** A `port` inside the module, passed on to a `buf`. */
  function PortToBuf(value: (nat -> int) -> int): Design {
    Design([Primitive(Port, Internal), Primitive(Buf, Internal)], [Assignment(Signal(1), {0}, value, None, 0)])
  }

  lemma PortToBufDrivenTwice(value: (nat -> int) -> int)
    ensures DesignOk(PortToBuf(value))
    ensures forall drivers :: OutDriversOk(PortToBuf(value), drivers) ==>
              Drained(drivers, 0) && ReadyFixed(PortToBuf(value).primitives[0])
  {
    var d := PortToBuf(value);
    assert InGroup(d, 0, 0) && Mentions(d, d.assignments[0].group, 0);
  }
}
