/** Exactly-once, in-order delivery: between resets every source sees its payloads arrive as a prefix of what it sent. */
module FabricSafety {
  import opened Numbers
  import opened FabricWords
  import opened FabricTree
  import opened FabricTrace
  import opened FabricFifo
  import opened FabricNet

  ghost function RouteOf(f: Fabric, layout: seq<Span>, e: nat): seq<Hop>
    requires FabricOk(f, layout) && e < |f.isSource| && f.isSource[e]
  {
    Route(f.topology, layout, e, f.destination[e])
  }

  /** Number of places on the way of source `e`: its skid, one queue per hop, the destination's skid. */
  ghost function Last(f: Fabric, layout: seq<Span>, e: nat): nat
    requires FabricOk(f, layout) && e < |f.isSource| && f.isSource[e]
  {
    |RouteOf(f, layout, e)| + 1
  }

  ghost function PlaceAt(f: Fabric, layout: seq<Span>, e: nat, j: nat): Place
    requires FabricOk(f, layout) && e < |f.isSource| && f.isSource[e] && j <= Last(f, layout, e)
  {
    var route := RouteOf(f, layout, e);
    if j == 0 then Skid(e)
    else if j <= |route| then Queue(route[j - 1].router, route[j - 1].inPort)
    else Skid(f.destination[e])
  }

  /** The path word a packet of source `e` carries at its j-th place. */
  function WordAt(f: Fabric, e: nat, j: nat): nat
    requires e < |f.word| && f.width > 0
  {
    WordAfter(f.word[e], f.width, if j == 0 then 0 else j - 1)
  }

  /** A packet with `word` in `place` can be the packet of source `e` after `j` moves. */
  ghost predicate Travels(f: Fabric, layout: seq<Span>, e: nat, j: nat, place: Place, word: nat)
    requires FabricOk(f, layout)
  {
    && e < |f.isSource| && f.isSource[e] && j <= Last(f, layout, e)
    && PlaceAt(f, layout, e, j) == place && WordAt(f, e, j) == word
  }

  ghost predicate Located(f: Fabric, layout: seq<Span>, place: Place, word: nat)
    requires FabricOk(f, layout)
  {
    exists e, j :: Travels(f, layout, e, j, place, word)
  }

  /** Every waiting packet is somewhere on the way of some source. */
  ghost predicate Homed(f: Fabric, layout: seq<Span>, s: State)
    requires FabricOk(f, layout) && StateOk(f, s)
  {
    forall place, packet :: PlaceOk(f, place) && packet in Contents(At(f, s, place)) ==> Located(f, layout, place, packet.word)
  }

  lemma SourceRoute(f: Fabric, layout: seq<Span>, e: nat)
    requires FabricOk(f, layout) && e < |f.isSource| && f.isSource[e]
    ensures e != f.destination[e] && f.destination[e] < |f.isSource| && !f.isSource[f.destination[e]]
    ensures RouteOk(f.topology, RouteOf(f, layout, e), e, f.destination[e])
    ensures Carries(f.word[e], f.width, RouteOf(f, layout, e))
  {
    RouteShape(f.topology, layout, e, f.destination[e]);
  }

  lemma PlaceAtOk(f: Fabric, layout: seq<Span>, e: nat, j: nat)
    requires FabricOk(f, layout) && e < |f.isSource| && f.isSource[e] && j <= Last(f, layout, e)
    ensures PlaceOk(f, PlaceAt(f, layout, e, j))
  {
    SourceRoute(f, layout, e);
    if 0 < j <= |RouteOf(f, layout, e)| {
      assert HopOk(f.topology, RouteOf(f, layout, e)[j - 1]);
    }
  }

  /** Place and word determine the source and the number of moves. */
  lemma TravelsUnique(f: Fabric, layout: seq<Span>, place: Place, word: nat, e: nat, j: nat, e': nat, j': nat)
    requires FabricOk(f, layout) && Travels(f, layout, e, j, place, word) && Travels(f, layout, e', j', place, word)
    ensures e == e' && j == j'
  {
    SourceRoute(f, layout, e);
    SourceRoute(f, layout, e');
    var a, b := RouteOf(f, layout, e), RouteOf(f, layout, e');
    if place.Queue? {
      WordNamesSource(f.topology, f.width, a, e, f.destination[e], f.word[e], j - 1,
                      b, e', f.destination[e'], f.word[e'], j' - 1);
    } else if j > 0 {
      DeliveredWordsDiffer(f.topology, f.width, a, e, f.word[e], b, e', f.word[e'], f.destination[e]);
    }
  }

  /** The head of place j asks for the port that leads to place j + 1. */
  lemma WantsNext(f: Fabric, layout: seq<Span>, e: nat, j: nat, packet: Packet)
    requires FabricOk(f, layout) && e < |f.isSource| && f.isSource[e] && 0 < j < Last(f, layout, e)
    requires packet.word == WordAt(f, e, j)
    ensures var place := PlaceAt(f, layout, e, j);
            && place.Queue? && PlaceOk(f, place) && |f.topology.ports[place.router]| == 3
            && Forwarded(packet, f.width).word == WordAt(f, e, j + 1)
            && match f.topology.ports[place.router][Wanted(packet, place.port)]
               case Dummy => false
               case Terminal(d) => d == f.destination[e] && PlaceAt(f, layout, e, j + 1) == Skid(d)
               case Link(n, q) => PlaceAt(f, layout, e, j + 1) == Queue(n, q)
  {
    SourceRoute(f, layout, e);
    var route := RouteOf(f, layout, e);
    CarriedTurn(f.word[e], f.width, route, j - 1);
    assert HopOk(f.topology, route[j - 1]);
    TurnBits(f.topology, route[j - 1]);
    if j < |route| {
      assert Linked(f.topology, route[j - 1], route[j - 1 + 1]);
    }
  }

  /** A travelling packet that leaves place j arrives at place j + 1 in the same cycle. */
  lemma MovesOn(f: Fabric, layout: seq<Span>, s: State, x: Inputs, e: nat, j: nat)
    requires FabricOk(f, layout) && WiresOk(f) && StateOk(f, s) && InputsOk(f, x)
    requires e < |f.isSource| && f.isSource[e] && j < Last(f, layout, e)
    requires PlaceOk(f, PlaceAt(f, layout, e, j)) && PlaceOk(f, PlaceAt(f, layout, e, j + 1))
    requires Pops(f, s, x, PlaceAt(f, layout, e, j))
    requires At(f, s, PlaceAt(f, layout, e, j)).slot0.word == WordAt(f, e, j)
    ensures Pushed(f, s, x, PlaceAt(f, layout, e, j + 1))
         == [Packet(WordAt(f, e, j + 1), At(f, s, PlaceAt(f, layout, e, j)).slot0.payload)]
  {
    var place := PlaceAt(f, layout, e, j);
    SourceRoute(f, layout, e);
    PoppedArrives(f, s, x, place);
    if j > 0 {
      WantsNext(f, layout, e, j, At(f, s, place).slot0);
    }
  }

  /** A packet pushed inside the fabric is the packet of one source that made one more move. */
  lemma CameFrom(f: Fabric, layout: seq<Span>, s: State, x: Inputs, place: Place) returns (e: nat, j: nat)
    requires FabricOk(f, layout) && WiresOk(f) && StateOk(f, s) && InputsOk(f, x) && PlaceOk(f, place)
    requires Homed(f, layout, s) && Pushes(f, s, x, place) && !(place.Skid? && f.isSource[place.endpoint])
    ensures Travels(f, layout, e, j + 1, place, Incoming(f, s, x, place).word)
    ensures PlaceOk(f, PlaceAt(f, layout, e, j))
    ensures Popped(f, s, x, PlaceAt(f, layout, e, j)) == [Packet(WordAt(f, e, j), Incoming(f, s, x, place).payload)]
  {
    PushedDeparts(f, s, x, place);
    var incoming := Incoming(f, s, x, place);
    if place.Queue? && f.topology.ports[place.router][place.port].Terminal? {
      e, j := f.topology.ports[place.router][place.port].endpoint, 0;
      LeftSkid(f, layout, s, x, place, e);
    } else {
      var target := if place.Skid? then Terminal(place.endpoint) else Link(place.router, place.port);
      assert Departs(f, s, x, incoming, target);
      var r, i :| 0 <= r < |f.topology.ports| && 0 <= i < 3 && DepartsQueue(f, s, x, r, i, incoming, target);
      e, j := LeftQueue(f, layout, s, x, place, r, i, incoming, target);
    }
  }

  lemma LeftSkid(f: Fabric, layout: seq<Span>, s: State, x: Inputs, place: Place, source: nat)
    requires FabricOk(f, layout) && WiresOk(f) && StateOk(f, s) && InputsOk(f, x) && PlaceOk(f, place) && Homed(f, layout, s)
    requires place.Queue? && f.topology.ports[place.router][place.port] == Terminal(source)
    requires source < |f.isSource| && f.isSource[source] && Popped(f, s, x, Skid(source)) == [Incoming(f, s, x, place)]
    ensures Travels(f, layout, source, 1, place, Incoming(f, s, x, place).word)
    ensures WordAt(f, source, 0) == Incoming(f, s, x, place).word
  {
    HeadIsHomed(f, layout, s, x, Skid(source));
    var e, j :| Travels(f, layout, e, j, Skid(source), Incoming(f, s, x, place).word);
    SourceRoute(f, layout, e);
    SourceRoute(f, layout, source);
    assert AttachmentOk(f.topology, place.router, place.port);
  }

  lemma LeftQueue(f: Fabric, layout: seq<Span>, s: State, x: Inputs, place: Place, r: nat, i: nat, incoming: Packet, target: Attachment)
    returns (e: nat, j: nat)
    requires FabricOk(f, layout) && WiresOk(f) && StateOk(f, s) && InputsOk(f, x) && PlaceOk(f, place) && Homed(f, layout, s)
    requires r < |f.topology.ports| && i < 3 && DepartsQueue(f, s, x, r, i, incoming, target)
    requires target == if place.Skid? then Terminal(place.endpoint) else Link(place.router, place.port)
    ensures Travels(f, layout, e, j + 1, place, incoming.word) && PlaceAt(f, layout, e, j) == Queue(r, i)
    ensures Popped(f, s, x, Queue(r, i)) == [Packet(WordAt(f, e, j), incoming.payload)]
  {
    HeadIsHomed(f, layout, s, x, Queue(r, i));
    var head := At(f, s, Queue(r, i)).slot0;
    e, j :| Travels(f, layout, e, j, Queue(r, i), head.word);
    WantsNext(f, layout, e, j, head);
  }

  lemma HeadIsHomed(f: Fabric, layout: seq<Span>, s: State, x: Inputs, place: Place)
    requires FabricOk(f, layout) && WiresOk(f) && StateOk(f, s) && InputsOk(f, x) && PlaceOk(f, place)
    requires Homed(f, layout, s) && Pops(f, s, x, place)
    ensures Located(f, layout, place, At(f, s, place).slot0.word)
    ensures Popped(f, s, x, place) == [At(f, s, place).slot0]
  {
    PopsNonempty(f, s, x, place);
    assert At(f, s, place).slot0 in Contents(At(f, s, place));
  }

  /** Packets stay on their ways: none is misrouted, whatever the arbitration. */
  lemma HomedStep(f: Fabric, layout: seq<Span>, s: State, x: Inputs)
    requires FabricOk(f, layout) && WiresOk(f) && StateOk(f, s) && InputsOk(f, x) && !x.reset && Homed(f, layout, s)
    ensures StateOk(f, Step(f, s, x)) && Homed(f, layout, Step(f, s, x))
  {
    StepOk(f, s, x);
    var u := Step(f, s, x);
    forall place, packet | PlaceOk(f, place) && packet in Contents(At(f, u, place))
      ensures Located(f, layout, place, packet.word)
    {
      HomedPlace(f, layout, s, x, place, packet);
    }
  }

  lemma HomedPlace(f: Fabric, layout: seq<Span>, s: State, x: Inputs, place: Place, packet: Packet)
    requires FabricOk(f, layout) && WiresOk(f) && StateOk(f, s) && InputsOk(f, x) && !x.reset && Homed(f, layout, s)
    requires PlaceOk(f, place) && StateOk(f, Step(f, s, x)) && packet in Contents(At(f, Step(f, s, x), place))
    ensures Located(f, layout, place, packet.word)
  {
    StepAt(f, s, x, place);
    PlaceStep(f, s, x, place);
    if packet !in Contents(At(f, s, place)) {
      assert packet in Pushed(f, s, x, place);
      if place.Skid? && f.isSource[place.endpoint] {
        assert Travels(f, layout, place.endpoint, 0, place, packet.word);
      } else {
        var e, j := CameFrom(f, layout, s, x, place);
      }
    }
  }

  /** No packet of the fabric ever leaves through the dummy port or into a source. */
  lemma NeverMisrouted(f: Fabric, layout: seq<Span>, s: State, x: Inputs, r: nat, t: nat)
    requires FabricOk(f, layout) && WiresOk(f) && StateOk(f, s) && InputsOk(f, x) && Homed(f, layout, s)
    requires r < |f.topology.ports| && t < 3 && Fires(f, s, x, r, t)
    ensures |f.topology.ports[r]| == 3
    ensures match f.topology.ports[r][t]
            case Dummy => false
            case Terminal(e) => e < |f.isSource| && !f.isSource[e]
            case Link(_, _) => true
  {
    FiringPops(f, s, x, r, t);
    var i := GrantAt(s.routers[r], t).input;
    HeadIsHomed(f, layout, s, x, Queue(r, i));
    var head := At(f, s, Queue(r, i)).slot0;
    var e, j :| Travels(f, layout, e, j, Queue(r, i), head.word);
    WantsNext(f, layout, e, j, head);
    SourceRoute(f, layout, e);
  }

  // ----- the stream of one source, as it lies spread over its places

  /** The payloads among `packets` that carry `word`. */
  function Mine(packets: seq<Packet>, word: nat): seq<int> {
    if packets == [] then []
    else (if packets[0].word == word then [packets[0].payload] else []) + Mine(packets[1..], word)
  }

  lemma {:induction false} MineConcat(a: seq<Packet>, b: seq<Packet>, word: nat)
    ensures Mine(a + b, word) == Mine(a, word) + Mine(b, word)
  {
    if a == [] {
      assert a + b == b;
    } else {
      assert (a + b)[1..] == a[1..] + b;
      MineConcat(a[1..], b, word);
    }
  }

  ghost function MineAt(f: Fabric, layout: seq<Span>, s: State, e: nat, j: nat): seq<int>
    requires FabricOk(f, layout) && StateOk(f, s) && e < |f.isSource| && f.isSource[e] && j <= Last(f, layout, e)
  {
    PlaceAtOk(f, layout, e, j);
    Mine(Contents(At(f, s, PlaceAt(f, layout, e, j))), WordAt(f, e, j))
  }

  ghost function MinePopped(f: Fabric, layout: seq<Span>, s: State, x: Inputs, e: nat, j: nat): seq<int>
    requires FabricOk(f, layout) && WiresOk(f) && StateOk(f, s) && InputsOk(f, x)
    requires e < |f.isSource| && f.isSource[e] && j <= Last(f, layout, e)
  {
    PlaceAtOk(f, layout, e, j);
    Mine(Popped(f, s, x, PlaceAt(f, layout, e, j)), WordAt(f, e, j))
  }

  ghost function MinePushed(f: Fabric, layout: seq<Span>, s: State, x: Inputs, e: nat, j: nat): seq<int>
    requires FabricOk(f, layout) && WiresOk(f) && StateOk(f, s) && InputsOk(f, x)
    requires e < |f.isSource| && f.isSource[e] && j <= Last(f, layout, e)
  {
    PlaceAtOk(f, layout, e, j);
    Mine(Pushed(f, s, x, PlaceAt(f, layout, e, j)), WordAt(f, e, j))
  }

  /** Payloads of source `e` waiting at places j, j - 1, ..., 0: oldest first. */
  ghost function Waiting(f: Fabric, layout: seq<Span>, s: State, e: nat, j: nat): seq<int>
    requires FabricOk(f, layout) && StateOk(f, s) && e < |f.isSource| && f.isSource[e] && j <= Last(f, layout, e)
  {
    MineAt(f, layout, s, e, j) + if j == 0 then [] else Waiting(f, layout, s, e, j - 1)
  }

  /** One place in one cycle, seen by one source. */
  lemma MineStep(f: Fabric, layout: seq<Span>, s: State, x: Inputs, e: nat, j: nat)
    requires FabricOk(f, layout) && WiresOk(f) && StateOk(f, s) && InputsOk(f, x) && !x.reset
    requires StateOk(f, Step(f, s, x)) && e < |f.isSource| && f.isSource[e] && j <= Last(f, layout, e)
    ensures MinePopped(f, layout, s, x, e, j) + MineAt(f, layout, Step(f, s, x), e, j)
         == MineAt(f, layout, s, e, j) + MinePushed(f, layout, s, x, e, j)
  {
    PlaceAtOk(f, layout, e, j);
    var place, word := PlaceAt(f, layout, e, j), WordAt(f, e, j);
    StepAt(f, s, x, place);
    PlaceStep(f, s, x, place);
    var c, popped, pushed := Contents(At(f, s, place)), Popped(f, s, x, place), Pushed(f, s, x, place);
    var rest := c[|popped|..];
    assert c == popped + rest;
    MineConcat(popped, rest, word);
    MineConcat(rest, pushed, word);
  }

  /** What source `e` sees entering place j + 1 is what it sees leaving place j. */
  lemma MineHandover(f: Fabric, layout: seq<Span>, s: State, x: Inputs, e: nat, j: nat)
    requires FabricOk(f, layout) && WiresOk(f) && StateOk(f, s) && InputsOk(f, x) && Homed(f, layout, s)
    requires e < |f.isSource| && f.isSource[e] && j < Last(f, layout, e)
    ensures MinePushed(f, layout, s, x, e, j + 1) == MinePopped(f, layout, s, x, e, j)
  {
    PlaceAtOk(f, layout, e, j);
    PlaceAtOk(f, layout, e, j + 1);
    MineSingle(Popped(f, s, x, PlaceAt(f, layout, e, j)), WordAt(f, e, j));
    MineSingle(Pushed(f, s, x, PlaceAt(f, layout, e, j + 1)), WordAt(f, e, j + 1));
    if MinePopped(f, layout, s, x, e, j) != [] {
      MovesOn(f, layout, s, x, e, j);
    } else if MinePushed(f, layout, s, x, e, j + 1) != [] {
      PushedWasMine(f, layout, s, x, e, j);
    }
  }

  lemma PushedWasMine(f: Fabric, layout: seq<Span>, s: State, x: Inputs, e: nat, j: nat)
    requires FabricOk(f, layout) && WiresOk(f) && StateOk(f, s) && InputsOk(f, x) && Homed(f, layout, s)
    requires e < |f.isSource| && f.isSource[e] && j < Last(f, layout, e)
    requires PlaceOk(f, PlaceAt(f, layout, e, j + 1)) && Pushes(f, s, x, PlaceAt(f, layout, e, j + 1))
    requires Incoming(f, s, x, PlaceAt(f, layout, e, j + 1)).word == WordAt(f, e, j + 1)
    ensures MinePopped(f, layout, s, x, e, j) != []
  {
    hide *;
    var next := PlaceAt(f, layout, e, j + 1);
    NextIsInside(f, layout, e, j);
    var e', j' := CameFrom(f, layout, s, x, next);
    TravelsOwnWay(f, layout, e, j + 1);
    HasWord(f, layout, e);
    TravelsUnique(f, layout, next, WordAt(f, e, j + 1), e, j + 1, e', j' + 1);
    PoppedIsMine(f, layout, s, x, e, j, Incoming(f, s, x, next).payload);
  }

  lemma HasWord(f: Fabric, layout: seq<Span>, e: nat)
    requires FabricOk(f, layout) && e < |f.isSource|
    ensures e < |f.word| && f.width > 0
  {
  }

  lemma TravelsOwnWay(f: Fabric, layout: seq<Span>, e: nat, j: nat)
    requires FabricOk(f, layout) && e < |f.isSource| && f.isSource[e] && j <= Last(f, layout, e)
    ensures Travels(f, layout, e, j, PlaceAt(f, layout, e, j), WordAt(f, e, j))
  {
  }

  lemma PoppedIsMine(f: Fabric, layout: seq<Span>, s: State, x: Inputs, e: nat, j: nat, payload: int)
    requires FabricOk(f, layout) && WiresOk(f) && StateOk(f, s) && InputsOk(f, x)
    requires e < |f.isSource| && f.isSource[e] && j <= Last(f, layout, e) && PlaceOk(f, PlaceAt(f, layout, e, j))
    requires Popped(f, s, x, PlaceAt(f, layout, e, j)) == [Packet(WordAt(f, e, j), payload)]
    ensures MinePopped(f, layout, s, x, e, j) != []
  {
    MineSingle(Popped(f, s, x, PlaceAt(f, layout, e, j)), WordAt(f, e, j));
  }

  lemma NextIsInside(f: Fabric, layout: seq<Span>, e: nat, j: nat)
    requires FabricOk(f, layout) && e < |f.isSource| && f.isSource[e] && j < Last(f, layout, e)
    ensures var next := PlaceAt(f, layout, e, j + 1);
            next.Skid? ==> next.endpoint < |f.isSource| && !f.isSource[next.endpoint]
  {
    hide RouteOf;
    SourceRoute(f, layout, e);
  }

  lemma MineSingle(packets: seq<Packet>, word: nat)
    requires |packets| <= 1
    ensures Mine(packets, word) == if packets != [] && packets[0].word == word then [packets[0].payload] else []
  {
  }

  /** What source `e` injects in this cycle. */
  function Injected(f: Fabric, s: State, x: Inputs, e: nat): seq<int>
    requires WiresOk(f) && StateOk(f, s) && InputsOk(f, x) && e < |f.isSource|
  {
    if Pushes(f, s, x, Skid(e)) then [x.payload[e]] else []
  }

  /** The waiting payloads of a source shift by what moved on, and grow by what was injected. */
  lemma {:induction false} WaitingStep(f: Fabric, layout: seq<Span>, s: State, x: Inputs, e: nat, j: nat)
    requires FabricOk(f, layout) && WiresOk(f) && StateOk(f, s) && InputsOk(f, x) && !x.reset && Homed(f, layout, s)
    requires StateOk(f, Step(f, s, x)) && e < |f.isSource| && f.isSource[e] && j <= Last(f, layout, e)
    ensures MinePopped(f, layout, s, x, e, j) + Waiting(f, layout, Step(f, s, x), e, j)
         == Waiting(f, layout, s, e, j) + Injected(f, s, x, e)
  {
    hide *;
    if j == 0 {
      WaitingFirst(f, layout, s, x, e);
    } else {
      WaitingStep(f, layout, s, x, e, j - 1);
      WaitingNext(f, layout, s, x, e, j);
    }
  }

  lemma WaitingFirst(f: Fabric, layout: seq<Span>, s: State, x: Inputs, e: nat)
    requires FabricOk(f, layout) && WiresOk(f) && StateOk(f, s) && InputsOk(f, x) && !x.reset
    requires StateOk(f, Step(f, s, x)) && e < |f.isSource| && f.isSource[e]
    ensures MinePopped(f, layout, s, x, e, 0) + Waiting(f, layout, Step(f, s, x), e, 0)
         == Waiting(f, layout, s, e, 0) + Injected(f, s, x, e)
  {
    hide *;
    MineStep(f, layout, s, x, e, 0);
    PushedFirst(f, layout, s, x, e);
    WaitsFirst(f, layout, s, e);
    WaitsFirst(f, layout, Step(f, s, x), e);
  }

  lemma WaitsFirst(f: Fabric, layout: seq<Span>, s: State, e: nat)
    requires FabricOk(f, layout) && StateOk(f, s) && e < |f.isSource| && f.isSource[e]
    ensures Waiting(f, layout, s, e, 0) == MineAt(f, layout, s, e, 0)
  {
    hide MineAt, FabricOk, StateOk;
  }

  lemma PushedFirst(f: Fabric, layout: seq<Span>, s: State, x: Inputs, e: nat)
    requires FabricOk(f, layout) && WiresOk(f) && StateOk(f, s) && InputsOk(f, x) && e < |f.isSource| && f.isSource[e]
    ensures MinePushed(f, layout, s, x, e, 0) == Injected(f, s, x, e)
  {
    MineSingle(Pushed(f, s, x, Skid(e)), WordAt(f, e, 0));
  }

  lemma WaitingNext(f: Fabric, layout: seq<Span>, s: State, x: Inputs, e: nat, j: nat)
    requires FabricOk(f, layout) && WiresOk(f) && StateOk(f, s) && InputsOk(f, x) && !x.reset && Homed(f, layout, s)
    requires StateOk(f, Step(f, s, x)) && e < |f.isSource| && f.isSource[e] && 0 < j <= Last(f, layout, e)
    requires MinePopped(f, layout, s, x, e, j - 1) + Waiting(f, layout, Step(f, s, x), e, j - 1)
          == Waiting(f, layout, s, e, j - 1) + Injected(f, s, x, e)
    ensures MinePopped(f, layout, s, x, e, j) + Waiting(f, layout, Step(f, s, x), e, j)
         == Waiting(f, layout, s, e, j) + Injected(f, s, x, e)
  {
    hide MineAt, MinePopped, MinePushed, Injected, Step;
    MineStep(f, layout, s, x, e, j);
    MineHandover(f, layout, s, x, e, j - 1);
    Shift(MinePopped(f, layout, s, x, e, j), MineAt(f, layout, Step(f, s, x), e, j), Waiting(f, layout, Step(f, s, x), e, j - 1),
          MineAt(f, layout, s, e, j), MinePopped(f, layout, s, x, e, j - 1), Waiting(f, layout, s, e, j - 1),
          Injected(f, s, x, e));
  }

  lemma Shift(p: seq<int>, q': seq<int>, w': seq<int>, q: seq<int>, m: seq<int>, w: seq<int>, i: seq<int>)
    requires p + q' == q + m && m + w' == w + i
    ensures p + (q' + w') == (q + w) + i
  {
    calc {
      p + (q' + w');
      (p + q') + w';
      (q + m) + w';
      q + (m + w');
      q + (w + i);
      (q + w) + i;
    }
  }
}
