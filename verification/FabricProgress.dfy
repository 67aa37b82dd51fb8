/** Deadlock freedom and draining: with ready destinations some packet always advances, and without injection all arrive. */
module FabricProgress {
  import opened Numbers
  import opened FabricWords
  import opened FabricTree
  import opened FabricTrace
  import opened FabricFifo
  import opened FabricNet
  import opened FabricSafety
  import opened FabricRuns

  /** Enabled, and every destination takes what it is offered. */
  ghost predicate Receptive(f: Fabric, x: Inputs) {
    InputsOk(f, x) && x.enable && forall d :: 0 <= d < |f.isSource| && d < |x.ready| && !f.isSource[d] ==> x.ready[d]
  }

  function MaxHeight(layout: seq<Span>): (top: nat)
    ensures forall r :: 0 <= r < |layout| ==> layout[r].height <= top
    ensures layout != [] ==> exists r :: 0 <= r < |layout| && layout[r].height == top
  {
    if layout == [] then 0
    else
      var rest, last := MaxHeight(layout[..|layout| - 1]), layout[|layout| - 1].height;
      assert forall r :: 0 <= r < |layout| - 1 ==> layout[r] == layout[..|layout| - 1][r];
      if last < rest then rest else last
  }

  /** Order in which places can wait for each other: a place only waits for places of lower rank. */
  ghost function PlaceRank(f: Fabric, layout: seq<Span>, place: Place): nat
    requires FabricOk(f, layout) && PlaceOk(f, place)
  {
    match place
    case Skid(e) => if f.isSource[e] then 2 * MaxHeight(layout) + 1 else 0
    case Queue(r, p) => if p == 0 then layout[r].height else 2 * MaxHeight(layout) + 1 - layout[r].height
  }

  /** The place a waiting head needs room in, or nothing if it leaves the fabric. */
  datatype Target = Outside | Into(place: Place)

  ghost function NeededBy(f: Fabric, s: State, place: Place): (target: Target)
    requires WiresOk(f) && StateOk(f, s) && PlaceOk(f, place)
    ensures target.Into? ==> PlaceOk(f, target.place)
  {
    match place
    case Skid(e) =>
      assert EndpointOk(f.topology, e);
      if f.isSource[e] then Into(Queue(f.topology.endpointRouter[e], f.topology.endpointPort[e])) else Outside
    case Queue(r, i) =>
      assert RouterOk(s.routers[r]);
      var out := Wanted(s.routers[r].queue[i].slot0, i);
      assert AttachmentOk(f.topology, r, out);
      match f.topology.ports[r][out]
      case Dummy => Outside
      case Terminal(d) => if f.isSource[d] then Outside else Into(Skid(d))
      case Link(n, q) => Into(Queue(n, q))
  }

  /** Waiting is acyclic: routes never turn back and the routers form a tree. */
  lemma NeedsLower(f: Fabric, layout: seq<Span>, s: State, place: Place)
    requires FabricOk(f, layout) && WiresOk(f) && StateOk(f, s) && PlaceOk(f, place)
    ensures NeededBy(f, s, place).Into? ==> PlaceRank(f, layout, NeededBy(f, s, place).place) < PlaceRank(f, layout, place)
  {
    if place.Skid? {
      assert EndpointOk(f.topology, place.endpoint);
      assert ChildOk(f.topology, layout, f.topology.endpointRouter[place.endpoint], 1);
    } else {
      assert RouterOk(s.routers[place.router]);
      assert layout[place.router].height >= 1;
      var out := Wanted(s.routers[place.router].queue[place.port].slot0, place.port);
      if f.topology.ports[place.router][out].Link? {
        LinkSpans(f.topology, layout, place.router, out);
      }
    }
  }

  /** If there is room where the head of a place wants to go, something moves into that room. */
  lemma RoomMeansMove(f: Fabric, s: State, x: Inputs, place: Place) returns (mover: Place)
    requires WiresOk(f) && StateOk(f, s) && Receptive(f, x) && PlaceOk(f, place) && At(f, s, place).count != 0
    requires NeededBy(f, s, place).Into? ==> At(f, s, NeededBy(f, s, place).place).count != 2
    ensures PlaceOk(f, mover) && Pops(f, s, x, mover)
    ensures place.Skid? ==> mover == place
    ensures place.Queue? ==>
      && mover.Queue? && mover.router == place.router && RouterOk(s.routers[place.router])
      && var out := Wanted(s.routers[place.router].queue[place.port].slot0, place.port);
         Fires(f, s, x, place.router, out) && GrantAt(s.routers[place.router], out) == To(mover.port)
  {
    match place
    case Skid(e) =>
      assert EndpointOk(f.topology, e);
      mover := place;
    case Queue(r, i) =>
      assert RouterOk(s.routers[r]);
      var out := Wanted(s.routers[r].queue[i].slot0, i);
      assert Requests(s.routers[r], i, out);
      assert AttachmentOk(f.topology, r, out);
      FiringPops(f, s, x, r, out);
      mover := Queue(r, GrantAt(s.routers[r], out).input);
  }

  /** Deadlock freedom: while any packet waits and the destinations are ready, some packet advances. */
  lemma {:induction false} SomethingMoves(f: Fabric, layout: seq<Span>, s: State, x: Inputs, place: Place) returns (mover: Place)
    requires FabricOk(f, layout) && WiresOk(f) && StateOk(f, s) && Receptive(f, x)
    requires PlaceOk(f, place) && Contents(At(f, s, place)) != []
    ensures PlaceOk(f, mover) && Pops(f, s, x, mover)
    decreases PlaceRank(f, layout, place)
  {
    var target := NeededBy(f, s, place);
    if target.Into? && At(f, s, target.place).count == 2 {
      NeedsLower(f, layout, s, place);
      mover := SomethingMoves(f, layout, s, x, target.place);
    } else {
      mover := RoomMeansMove(f, s, x, place);
    }
  }

  // ----- remaining moves

  /** Moves source `e`'s packets at places j, ..., 0 still have to make to leave place j, summed over those places. */
  ghost function Remaining(f: Fabric, layout: seq<Span>, s: State, e: nat, j: nat): nat
    requires FabricOk(f, layout) && StateOk(f, s) && e < |f.isSource| && f.isSource[e] && j <= Last(f, layout, e)
  {
    |Waiting(f, layout, s, e, j)| + if j == 0 then 0 else Remaining(f, layout, s, e, j - 1)
  }

  /** Moves made by source `e`'s packets at places j, ..., 0 in one cycle. */
  ghost function Moves(f: Fabric, layout: seq<Span>, s: State, x: Inputs, e: nat, j: nat): nat
    requires FabricOk(f, layout) && WiresOk(f) && StateOk(f, s) && InputsOk(f, x)
    requires e < |f.isSource| && f.isSource[e] && j <= Last(f, layout, e)
  {
    |MinePopped(f, layout, s, x, e, j)| + if j == 0 then 0 else Moves(f, layout, s, x, e, j - 1)
  }

  /** Every move counts: without injection the remaining moves of a source fall by exactly the moves made. */
  lemma {:induction false} RemainingStep(f: Fabric, layout: seq<Span>, s: State, x: Inputs, e: nat, j: nat)
    requires FabricOk(f, layout) && WiresOk(f) && StateOk(f, s) && InputsOk(f, x) && !x.reset && Homed(f, layout, s)
    requires StateOk(f, Step(f, s, x)) && e < |f.isSource| && f.isSource[e] && j <= Last(f, layout, e)
    requires Injected(f, s, x, e) == []
    ensures Remaining(f, layout, Step(f, s, x), e, j) + Moves(f, layout, s, x, e, j) == Remaining(f, layout, s, e, j)
  {
    WaitingStep(f, layout, s, x, e, j);
    if j > 0 {
      RemainingStep(f, layout, s, x, e, j - 1);
    }
  }

  /** Total remaining moves of the sources below `n`. */
  ghost function InFlight(f: Fabric, layout: seq<Span>, s: State, n: nat): nat
    requires FabricOk(f, layout) && StateOk(f, s) && n <= |f.isSource|
  {
    if n == 0 then 0 else InFlight(f, layout, s, n - 1) + Flight(f, layout, s, n - 1)
  }

  ghost function Flight(f: Fabric, layout: seq<Span>, s: State, e: nat): nat
    requires FabricOk(f, layout) && StateOk(f, s) && e < |f.isSource|
  {
    if f.isSource[e] then Remaining(f, layout, s, e, Last(f, layout, e)) else 0
  }

  lemma FlightStep(f: Fabric, layout: seq<Span>, s: State, x: Inputs, e: nat)
    requires FabricOk(f, layout) && WiresOk(f) && StateOk(f, s) && InputsOk(f, x) && !x.reset && Homed(f, layout, s)
    requires StateOk(f, Step(f, s, x)) && e < |f.isSource| && (f.isSource[e] ==> Injected(f, s, x, e) == [])
    ensures Flight(f, layout, Step(f, s, x), e)
         == Flight(f, layout, s, e) - (if f.isSource[e] then Moves(f, layout, s, x, e, Last(f, layout, e)) else 0)
  {
    if f.isSource[e] {
      RemainingStep(f, layout, s, x, e, Last(f, layout, e));
    }
  }

  lemma {:induction false} MovesAtLeast(f: Fabric, layout: seq<Span>, s: State, x: Inputs, e: nat, j: nat, k: nat)
    requires FabricOk(f, layout) && WiresOk(f) && StateOk(f, s) && InputsOk(f, x)
    requires e < |f.isSource| && f.isSource[e] && k <= j <= Last(f, layout, e) && MinePopped(f, layout, s, x, e, k) != []
    ensures Moves(f, layout, s, x, e, j) >= 1
    decreases j
  {
    hide MinePopped;
    if j > k {
      MovesAtLeast(f, layout, s, x, e, j - 1, k);
    }
  }

  /** If source `m` below `n` moves, the total falls. */
  lemma {:induction false} InFlightFalls(f: Fabric, layout: seq<Span>, s: State, x: Inputs, n: nat, m: nat)
    requires FabricOk(f, layout) && WiresOk(f) && StateOk(f, s) && InputsOk(f, x) && !x.reset && Homed(f, layout, s)
    requires StateOk(f, Step(f, s, x)) && n <= |f.isSource|
    requires forall e :: 0 <= e < |f.isSource| && f.isSource[e] ==> Injected(f, s, x, e) == []
    requires m < |f.isSource| && f.isSource[m] && Moves(f, layout, s, x, m, Last(f, layout, m)) >= 1
    ensures InFlight(f, layout, Step(f, s, x), n) + (if m < n then 1 else 0) <= InFlight(f, layout, s, n)
  {
    hide Injected, Flight, Step, Moves;
    if n > 0 {
      InFlightFalls(f, layout, s, x, n - 1, m);
      FlightStep(f, layout, s, x, n - 1);
    }
  }

  /** A move of any packet is a move of the source that sent it. */
  lemma MoverHasSource(f: Fabric, layout: seq<Span>, s: State, x: Inputs, mover: Place) returns (e: nat)
    requires FabricOk(f, layout) && WiresOk(f) && StateOk(f, s) && InputsOk(f, x) && Homed(f, layout, s)
    requires PlaceOk(f, mover) && Pops(f, s, x, mover)
    ensures e < |f.isSource| && f.isSource[e] && Moves(f, layout, s, x, e, Last(f, layout, e)) >= 1
  {
    HeadIsHomed(f, layout, s, x, mover);
    var word := At(f, s, mover).slot0.word;
    var j;
    e, j :| Travels(f, layout, e, j, mover, word);
    MineSingle(Popped(f, s, x, mover), word);
    MovesAtLeast(f, layout, s, x, e, Last(f, layout, e), j);
  }

  /** One receptive cycle without injection brings a non-empty fabric strictly closer to empty. */
  lemma Advances(f: Fabric, layout: seq<Span>, s: State, x: Inputs)
    requires FabricOk(f, layout) && WiresOk(f) && StateOk(f, s) && Receptive(f, x) && !x.reset && Homed(f, layout, s)
    requires forall e :: 0 <= e < |f.isSource| && f.isSource[e] ==> Injected(f, s, x, e) == []
    requires InFlight(f, layout, s, |f.isSource|) > 0
    ensures StateOk(f, Step(f, s, x))
    ensures InFlight(f, layout, Step(f, s, x), |f.isSource|) < InFlight(f, layout, s, |f.isSource|)
  {
    StepOk(f, s, x);
    var place := FlightHasPlace(f, layout, s, |f.isSource|);
    var mover := SomethingMoves(f, layout, s, x, place);
    var e := MoverHasSource(f, layout, s, x, mover);
    InFlightFalls(f, layout, s, x, |f.isSource|, e);
  }

  lemma {:induction false} FlightHasPlace(f: Fabric, layout: seq<Span>, s: State, n: nat) returns (place: Place)
    requires FabricOk(f, layout) && StateOk(f, s) && n <= |f.isSource| && InFlight(f, layout, s, n) > 0
    ensures PlaceOk(f, place) && Contents(At(f, s, place)) != []
  {
    if f.isSource[n - 1] && Remaining(f, layout, s, n - 1, Last(f, layout, n - 1)) > 0 {
      place := RemainingHasPlace(f, layout, s, n - 1, Last(f, layout, n - 1));
    } else {
      place := FlightHasPlace(f, layout, s, n - 1);
    }
  }

  lemma {:induction false} RemainingHasPlace(f: Fabric, layout: seq<Span>, s: State, e: nat, j: nat) returns (place: Place)
    requires FabricOk(f, layout) && StateOk(f, s) && e < |f.isSource| && f.isSource[e] && j <= Last(f, layout, e)
    requires Remaining(f, layout, s, e, j) > 0
    ensures PlaceOk(f, place) && Contents(At(f, s, place)) != []
  {
    PlaceAtOk(f, layout, e, j);
    place := PlaceAt(f, layout, e, j);
    if Contents(At(f, s, place)) == [] {
      assert MineAt(f, layout, s, e, j) == [];
      place := RemainingHasPlace(f, layout, s, e, j - 1);
    }
  }

  // ----- draining

  /** From cycle `from` on, for `count` cycles, the destinations are ready and the sources offer nothing. */
  ghost predicate Quiet(f: Fabric, x: nat -> Inputs, from: nat, count: nat) {
    forall i: nat :: from <= i < from + count ==> Receptive(f, x(i)) && forall e :: 0 <= e < |x(i).valid| ==> !x(i).valid[e]
  }

  lemma {:induction false} FlightShrinks(f: Fabric, layout: seq<Span>, x: nat -> Inputs, s: nat -> State, from: nat, count: nat)
    requires FabricOk(f, layout) && IsRun(f, x, s, from + count) && Quiet(f, x, from, count)
    ensures StateOk(f, s(from)) && StateOk(f, s(from + count))
    ensures InFlight(f, layout, s(from + count), |f.isSource|) <=
      if InFlight(f, layout, s(from), |f.isSource|) <= count then 0 else InFlight(f, layout, s(from), |f.isSource|) - count
  {
    hide Step, Flight;
    AlwaysHomed(f, layout, x, s, from);
    if count > 0 {
      var at := from + count - 1;
      FlightShrinks(f, layout, x, s, from, count - 1);
      AlwaysHomed(f, layout, x, s, at);
      assert Next(f, s(at), x(at), s(at + 1));
      QuietStep(f, layout, s(at), x(at));
    }
  }

  lemma QuietStep(f: Fabric, layout: seq<Span>, s: State, x: Inputs)
    requires FabricOk(f, layout) && WiresOk(f) && StateOk(f, s) && Receptive(f, x) && !x.reset && Homed(f, layout, s)
    requires forall e :: 0 <= e < |x.valid| ==> !x.valid[e]
    ensures StateOk(f, Step(f, s, x))
    ensures InFlight(f, layout, Step(f, s, x), |f.isSource|) <=
      if InFlight(f, layout, s, |f.isSource|) == 0 then 0 else InFlight(f, layout, s, |f.isSource|) - 1
  {
    StepOk(f, s, x);
    if InFlight(f, layout, s, |f.isSource|) > 0 {
      Advances(f, layout, s, x);
    } else {
      NoFlightStays(f, layout, s, x, |f.isSource|);
    }
  }

  lemma {:induction false} NoFlightStays(f: Fabric, layout: seq<Span>, s: State, x: Inputs, n: nat)
    requires FabricOk(f, layout) && WiresOk(f) && StateOk(f, s) && InputsOk(f, x) && !x.reset && Homed(f, layout, s)
    requires StateOk(f, Step(f, s, x)) && n <= |f.isSource| && InFlight(f, layout, s, n) == 0
    requires forall e :: 0 <= e < |f.isSource| && f.isSource[e] ==> Injected(f, s, x, e) == []
    ensures InFlight(f, layout, Step(f, s, x), n) == 0
  {
    hide Injected, Flight, Step, Moves;
    if n > 0 {
      NoFlightStays(f, layout, s, x, n - 1);
      FlightStep(f, layout, s, x, n - 1);
    }
  }

  lemma {:induction false} NoFlightNoneWaits(f: Fabric, layout: seq<Span>, s: State, n: nat, e: nat)
    requires FabricOk(f, layout) && StateOk(f, s) && e < n <= |f.isSource| && f.isSource[e] && InFlight(f, layout, s, n) == 0
    ensures Waiting(f, layout, s, e, Last(f, layout, e)) == []
  {
    if e < n - 1 {
      NoFlightNoneWaits(f, layout, s, n - 1, e);
    }
  }

  /**
   * Delivery: once the sources stop and the destinations stay ready, within as many cycles as there are remaining
   * moves every payload ever sent has come out at its destination, in order.
   */
  lemma Drains(f: Fabric, layout: seq<Span>, x: nat -> Inputs, s: nat -> State, from: nat, count: nat, e: nat)
    requires FabricOk(f, layout) && IsRun(f, x, s, from + count) && Quiet(f, x, from, count)
    requires StateOk(f, s(from)) && InFlight(f, layout, s(from), |f.isSource|) <= count
    requires e < |f.isSource| && f.isSource[e]
    ensures f.destination[e] < |f.isSource|
    ensures Mine(Output(f, x, s, from + count, f.destination[e]), DeliveredWord(f, layout, e)) == Sent(f, x, s, from + count, e)
  {
    hide Output, Sent, Waiting, Mine, InFlight;
    NothingLeft(f, layout, x, s, from, count, e);
    AllArrived(f, layout, x, s, from + count, e);
  }

  lemma AllArrived(f: Fabric, layout: seq<Span>, x: nat -> Inputs, s: nat -> State, t: nat, e: nat)
    requires FabricOk(f, layout) && IsRun(f, x, s, t) && e < |f.isSource| && f.isSource[e] && StateOk(f, s(t))
    requires Waiting(f, layout, s(t), e, Last(f, layout, e)) == []
    ensures f.destination[e] < |f.isSource|
    ensures Mine(Output(f, x, s, t, f.destination[e]), DeliveredWord(f, layout, e)) == Sent(f, x, s, t, e)
  {
    ExactlyOnceInOrder(f, layout, x, s, t, e);
    AppendNothing(Sent(f, x, s, t, e), Mine(Output(f, x, s, t, f.destination[e]), DeliveredWord(f, layout, e)),
                  Waiting(f, layout, s(t), e, Last(f, layout, e)));
  }

  lemma AppendNothing(sent: seq<int>, received: seq<int>, waiting: seq<int>)
    requires sent == received + waiting && waiting == []
    ensures received == sent
  {
  }

  lemma NothingLeft(f: Fabric, layout: seq<Span>, x: nat -> Inputs, s: nat -> State, from: nat, count: nat, e: nat)
    requires FabricOk(f, layout) && IsRun(f, x, s, from + count) && Quiet(f, x, from, count)
    requires StateOk(f, s(from)) && InFlight(f, layout, s(from), |f.isSource|) <= count
    requires e < |f.isSource| && f.isSource[e]
    ensures StateOk(f, s(from + count)) && Waiting(f, layout, s(from + count), e, Last(f, layout, e)) == []
  {
    FlightShrinks(f, layout, x, s, from, count);
    NoFlightNoneWaits(f, layout, s(from + count), |f.isSource|, e);
  }

  // ----- how long draining takes at most

  lemma {:induction false} MineShort(packets: seq<Packet>, word: nat)
    ensures |Mine(packets, word)| <= |packets|
  {
    if packets != [] {
      MineShort(packets[1..], word);
    }
  }

  lemma {:induction false} WaitingBound(f: Fabric, layout: seq<Span>, s: State, e: nat, j: nat)
    requires FabricOk(f, layout) && StateOk(f, s) && e < |f.isSource| && f.isSource[e] && j <= Last(f, layout, e)
    ensures |Waiting(f, layout, s, e, j)| <= 2 * (j + 1)
  {
    PlaceAtOk(f, layout, e, j);
    MineShort(Contents(At(f, s, PlaceAt(f, layout, e, j))), WordAt(f, e, j));
    if j > 0 {
      WaitingBound(f, layout, s, e, j - 1);
    }
  }

  lemma {:induction false} RemainingBound(f: Fabric, layout: seq<Span>, s: State, e: nat, j: nat)
    requires FabricOk(f, layout) && StateOk(f, s) && e < |f.isSource| && f.isSource[e] && j <= Last(f, layout, e)
    ensures Remaining(f, layout, s, e, j) <= (j + 1) * (j + 2)
  {
    hide Waiting;
    WaitingBound(f, layout, s, e, j);
    if j > 0 {
      RemainingBound(f, layout, s, e, j - 1);
    }
  }

  /** With at most `top` hops on any route, n sources have at most n * (top + 1) * (top + 2) moves to make. */
  lemma {:induction false} InFlightBound(f: Fabric, layout: seq<Span>, s: State, n: nat, top: nat)
    requires FabricOk(f, layout) && StateOk(f, s) && n <= |f.isSource|
    requires forall e :: 0 <= e < n && f.isSource[e] ==> Last(f, layout, e) <= top
    ensures InFlight(f, layout, s, n) <= n * ((top + 1) * (top + 2))
  {
    hide Remaining, Waiting;
    if n > 0 {
      InFlightBound(f, layout, s, n - 1, top);
      MulMonotoneBoth(1, top + 1, 1, top + 2);
      if f.isSource[n - 1] {
        var last := Last(f, layout, n - 1);
        RemainingBound(f, layout, s, n - 1, last);
        MulMonotoneBoth(last + 1, top + 1, last + 2, top + 2);
      }
      OneMoreTerm(n, (top + 1) * (top + 2));
    }
  }

  lemma OneMoreTerm(n: int, a: int)
    ensures n * a == (n - 1) * a + a
  {
  }
}
