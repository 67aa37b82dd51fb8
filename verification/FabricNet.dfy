/** The emitted fabric: router and skid registers, the wires between them, and one clock edge. */
module FabricNet {
  import opened Numbers
  import opened FabricWords
  import opened FabricTree
  import opened FabricTrace
  import opened FabricFifo

  /** A generated fabric: per endpoint its direction and, for sources, the destination and the path word. */
  datatype Fabric = Fabric(
    topology: Topology,
    isSource: seq<bool>,
    destination: seq<nat>,
    word: seq<nat>,
    width: nat)

  datatype Packet = Packet(word: nat, payload: int)

  datatype Router = Router(queue: seq<Fifo<Packet>>, rr: seq<bool>)

  /** Endpoint e owns skid e: the transmit skid of a source or the receive skid of a destination. */
  datatype State = State(routers: seq<Router>, skids: seq<Fifo<Packet>>)

  /** The module inputs of one cycle: valid and payload of the sources, ready of the destinations. */
  datatype Inputs = Inputs(reset: bool, enable: bool, valid: seq<bool>, payload: seq<int>, ready: seq<bool>)

  /** Sources are routed to destinations, with words that carry the tree route. */
  ghost predicate FabricOk(f: Fabric, layout: seq<Span>) {
    var n := |f.topology.endpointRouter|;
    && IsTree(f.topology, layout) && f.width > 0
    && |f.isSource| == |f.destination| == |f.word| == n
    && forall e :: 0 <= e < n && f.isSource[e] ==>
         && f.destination[e] < n && !f.isSource[f.destination[e]]
         && Carries(f.word[e], f.width, Route(f.topology, layout, e, f.destination[e]))
  }

  ghost predicate RouterOk(router: Router) {
    && |router.queue| == |router.rr| == 3
    && router.queue[0].count <= 2 && router.queue[1].count <= 2 && router.queue[2].count <= 2
  }

  ghost predicate StateOk(f: Fabric, s: State) {
    && |s.routers| == |f.topology.ports| && |s.skids| == |f.topology.endpointRouter|
    && (forall r :: 0 <= r < |s.routers| ==> RouterOk(s.routers[r]))
    && (forall e :: 0 <= e < |s.skids| ==> s.skids[e].count <= 2)
  }

  ghost predicate InputsOk(f: Fabric, x: Inputs) {
    |x.valid| == |x.payload| == |x.ready| == |f.topology.endpointRouter|
  }

  /** Topology facts the wires rely on. */
  ghost predicate WiresOk(f: Fabric) {
    var t := f.topology;
    && |t.endpointRouter| == |t.endpointPort| == |f.isSource| == |f.destination| == |f.word| && f.width > 0
    && (forall e :: 0 <= e < |t.endpointRouter| ==> EndpointOk(t, e))
    && (forall r :: 0 <= r < |t.ports| ==> |t.ports[r]| == 3)
    && (forall r, p :: 0 <= r < |t.ports| && 0 <= p < 3 ==> AttachmentOk(t, r, p))
  }

  ghost predicate AttachmentOk(t: Topology, r: nat, p: nat)
    requires r < |t.ports| && |t.ports[r]| == 3 && p < 3 && |t.endpointRouter| == |t.endpointPort|
  {
    match t.ports[r][p]
    case Dummy => true
    case Terminal(e) => e < |t.endpointRouter| && t.endpointRouter[e] == r && t.endpointPort[e] == p
    case Link(n, q) =>
      n < |t.ports| && q < 3 && |t.ports[n]| == 3 && t.ports[n][q] == Link(r, p)
  }

  lemma FabricWires(f: Fabric, layout: seq<Span>)
    requires FabricOk(f, layout)
    ensures WiresOk(f)
  {
    var t := f.topology;
    forall r | 0 <= r < |t.ports|
      ensures |t.ports[r]| == 3
      ensures forall p :: 0 <= p < 3 ==> AttachmentOk(t, r, p)
    {
      assert ChildOk(t, layout, r, 1);
      forall p | 0 <= p < 3
        ensures AttachmentOk(t, r, p)
      {
        PortLeads(t, layout, r, p);
        if t.ports[r][p].Terminal? {
          TerminalIsToward(t, layout, r, p);
        }
      }
    }
  }

  // ----- one router

  /** pI_to_pT: input queue `i` has a packet whose turn bit selects target `t`. */
  predicate Requests(router: Router, i: nat, t: nat)
    requires |router.queue| == 3 && i < 3 && t < 3
  {
    && i != t && router.queue[i].count != 0
    && (if t == (i + 1) % 3 then router.queue[i].slot0.word % 2 == 0 else router.queue[i].slot0.word % 2 == 1)
  }

  datatype Grant = NoGrant | To(input: nat)

  /** Round-robin choice between the two inputs that can leave through `t`. */
  function GrantAt(router: Router, t: nat): (g: Grant)
    requires |router.queue| == |router.rr| == 3 && t < 3
    ensures g.To? ==> g.input < 3 && Requests(router, g.input, t)
    ensures g.NoGrant? ==> forall i :: 0 <= i < 3 ==> !Requests(router, i, t)
  {
    var first, second := (t + 2) % 3, (t + 1) % 3;
    if Requests(router, first, t) && Requests(router, second, t) then To(if router.rr[t] then second else first)
    else if Requests(router, first, t) then To(first)
    else if Requests(router, second, t) then To(second)
    else NoGrant
  }

  /** forward_packet: the path word turns by one place, the payload stays. */
  function Forwarded(packet: Packet, width: nat): Packet
    requires width > 0
  {
    Packet(ForwardWord(packet.word, width), packet.payload)
  }

  // ----- wires between routers and skids

  predicate QueueReady(s: State, x: Inputs, r: nat, p: nat)
    requires r < |s.routers| && |s.routers[r].queue| == 3 && p < 3
  {
    x.enable && s.routers[r].queue[p].count != 2
  }

  predicate OutValid(s: State, x: Inputs, r: nat, t: nat)
    requires r < |s.routers| && |s.routers[r].queue| == |s.routers[r].rr| == 3 && t < 3
  {
    x.enable && GrantAt(s.routers[r], t).To?
  }

  function OutPacket(f: Fabric, s: State, r: nat, t: nat): Packet
    requires f.width > 0 && r < |s.routers| && |s.routers[r].queue| == |s.routers[r].rr| == 3 && t < 3
  {
    match GrantAt(s.routers[r], t)
    case NoGrant => Packet(0, 0)
    case To(i) => Forwarded(s.routers[r].queue[i].slot0, f.width)
  }

  /** out_ready of router port (r, t): dummy and source ports are always ready. */
  predicate OutReady(f: Fabric, s: State, x: Inputs, r: nat, t: nat)
    requires WiresOk(f) && StateOk(f, s) && r < |s.routers| && t < 3
  {
    assert AttachmentOk(f.topology, r, t);
    match f.topology.ports[r][t]
    case Dummy => true
    case Terminal(e) => f.isSource[e] || (x.enable && s.skids[e].count != 2)
    case Link(n, q) => assert RouterOk(s.routers[n]); QueueReady(s, x, n, q)
  }

  predicate Fires(f: Fabric, s: State, x: Inputs, r: nat, t: nat)
    requires WiresOk(f) && StateOk(f, s) && r < |s.routers| && t < 3
  {
    assert RouterOk(s.routers[r]);
    OutValid(s, x, r, t) && OutReady(f, s, x, r, t)
  }

  // ----- places where packets wait, and what moves in and out of them in one cycle

  datatype Place = Skid(endpoint: nat) | Queue(router: nat, port: nat)

  predicate PlaceOk(f: Fabric, place: Place) {
    match place
    case Skid(e) => e < |f.topology.endpointRouter|
    case Queue(r, p) => r < |f.topology.ports| && p < 3
  }

  function At(f: Fabric, s: State, place: Place): Fifo<Packet>
    requires StateOk(f, s) && PlaceOk(f, place)
  {
    match place
    case Skid(e) => s.skids[e]
    case Queue(r, p) => assert RouterOk(s.routers[r]); s.routers[r].queue[p]
  }

  /** pP_remove, and pop of a skid. */
  predicate Pops(f: Fabric, s: State, x: Inputs, place: Place)
    requires WiresOk(f) && StateOk(f, s) && InputsOk(f, x) && PlaceOk(f, place)
  {
    match place
    case Skid(e) =>
      assert EndpointOk(f.topology, e);
      assert RouterOk(s.routers[f.topology.endpointRouter[e]]);
      && x.enable && s.skids[e].count != 0
      && (if f.isSource[e] then QueueReady(s, x, f.topology.endpointRouter[e], f.topology.endpointPort[e]) else x.ready[e])
    case Queue(r, i) =>
      assert RouterOk(s.routers[r]);
      || (Fires(f, s, x, r, 0) && GrantAt(s.routers[r], 0) == To(i))
      || (Fires(f, s, x, r, 1) && GrantAt(s.routers[r], 1) == To(i))
      || (Fires(f, s, x, r, 2) && GrantAt(s.routers[r], 2) == To(i))
  }

  /** in_valid of a queue, and whether it accepts. */
  predicate Pushes(f: Fabric, s: State, x: Inputs, place: Place)
    requires WiresOk(f) && StateOk(f, s) && InputsOk(f, x) && PlaceOk(f, place)
  {
    match place
    case Skid(e) =>
      assert EndpointOk(f.topology, e);
      assert RouterOk(s.routers[f.topology.endpointRouter[e]]);
      && x.enable && s.skids[e].count != 2
      && (if f.isSource[e] then x.valid[e] else OutValid(s, x, f.topology.endpointRouter[e], f.topology.endpointPort[e]))
    case Queue(r, p) =>
      assert RouterOk(s.routers[r]) && AttachmentOk(f.topology, r, p);
      && QueueReady(s, x, r, p)
      && match f.topology.ports[r][p]
         case Dummy => false
         case Terminal(e) => f.isSource[e] && x.enable && s.skids[e].count != 0
         case Link(n, q) => assert RouterOk(s.routers[n]); OutValid(s, x, n, q)
  }

  /** packet_in of a queue. */
  function Incoming(f: Fabric, s: State, x: Inputs, place: Place): Packet
    requires WiresOk(f) && StateOk(f, s) && InputsOk(f, x) && PlaceOk(f, place)
  {
    match place
    case Skid(e) =>
      assert EndpointOk(f.topology, e);
      assert RouterOk(s.routers[f.topology.endpointRouter[e]]);
      if f.isSource[e] then Packet(f.word[e], x.payload[e])
      else OutPacket(f, s, f.topology.endpointRouter[e], f.topology.endpointPort[e])
    case Queue(r, p) =>
      assert AttachmentOk(f.topology, r, p);
      match f.topology.ports[r][p]
      case Dummy => Packet(0, 0)
      case Terminal(e) => if f.isSource[e] then s.skids[e].slot0 else Packet(0, 0)
      case Link(n, q) => assert RouterOk(s.routers[n]); OutPacket(f, s, n, q)
  }

  // ----- the clock edge

  const EMPTY := Fifo(0, Packet(0, 0), Packet(0, 0))

  function Reset(f: Fabric): State {
    State(seq(|f.topology.ports|, r => Router([EMPTY, EMPTY, EMPTY], [false, false, false])),
          seq(|f.topology.endpointRouter|, e => EMPTY))
  }

  function NextAt(f: Fabric, s: State, x: Inputs, place: Place): Fifo<Packet>
    requires WiresOk(f) && StateOk(f, s) && InputsOk(f, x) && PlaceOk(f, place)
  {
    if x.enable then Clocked(At(f, s, place), Pushes(f, s, x, place), Pops(f, s, x, place), Incoming(f, s, x, place))
    else At(f, s, place)
  }

  /** After target `t` fires its preference moves to the other input. */
  function NextPreference(f: Fabric, s: State, x: Inputs, r: nat, t: nat): bool
    requires WiresOk(f) && StateOk(f, s) && r < |s.routers| && t < 3
  {
    assert RouterOk(s.routers[r]);
    if x.enable && Fires(f, s, x, r, t) then GrantAt(s.routers[r], t) == To((t + 2) % 3) else s.routers[r].rr[t]
  }

  function NextRouter(f: Fabric, s: State, x: Inputs, r: nat): Router
    requires WiresOk(f) && StateOk(f, s) && InputsOk(f, x) && r < |s.routers|
  {
    Router([NextAt(f, s, x, Queue(r, 0)), NextAt(f, s, x, Queue(r, 1)), NextAt(f, s, x, Queue(r, 2))],
           [NextPreference(f, s, x, r, 0), NextPreference(f, s, x, r, 1), NextPreference(f, s, x, r, 2)])
  }

  function Step(f: Fabric, s: State, x: Inputs): State
    requires WiresOk(f) && StateOk(f, s) && InputsOk(f, x)
  {
    if x.reset then Reset(f)
    else State(seq(|s.routers|, r requires 0 <= r < |s.routers| => NextRouter(f, s, x, r)),
               seq(|s.skids|, e requires 0 <= e < |s.skids| => NextAt(f, s, x, Skid(e))))
  }

  function Popped(f: Fabric, s: State, x: Inputs, place: Place): seq<Packet>
    requires WiresOk(f) && StateOk(f, s) && InputsOk(f, x) && PlaceOk(f, place)
  {
    if Pops(f, s, x, place) then [At(f, s, place).slot0] else []
  }

  function Pushed(f: Fabric, s: State, x: Inputs, place: Place): seq<Packet>
    requires WiresOk(f) && StateOk(f, s) && InputsOk(f, x) && PlaceOk(f, place)
  {
    if Pushes(f, s, x, place) then [Incoming(f, s, x, place)] else []
  }

  /** Each place loses what it pops from its front and gains what is pushed at its end. */
  lemma PlaceStep(f: Fabric, s: State, x: Inputs, place: Place)
    requires WiresOk(f) && StateOk(f, s) && InputsOk(f, x) && PlaceOk(f, place)
    ensures var c := Contents(At(f, s, place));
            && Popped(f, s, x, place) <= c
            && NextAt(f, s, x, place).count <= 2
            && Contents(NextAt(f, s, x, place)) == c[|Popped(f, s, x, place)|..] + Pushed(f, s, x, place)
  {
    var q := At(f, s, place);
    assert q.count <= 2 by {
      if place.Queue? {
        assert RouterOk(s.routers[place.router]);
      }
    }
    PopsNonempty(f, s, x, place);
    if x.enable {
      ClockedIsQueue(q, Pushes(f, s, x, place), Pops(f, s, x, place), Incoming(f, s, x, place));
    }
  }

  lemma PopsNonempty(f: Fabric, s: State, x: Inputs, place: Place)
    requires WiresOk(f) && StateOk(f, s) && InputsOk(f, x) && PlaceOk(f, place)
    ensures Pops(f, s, x, place) ==> x.enable && At(f, s, place).count != 0
    ensures Pushes(f, s, x, place) ==> x.enable && At(f, s, place).count != 2
  {
  }

  lemma NextRouterOk(f: Fabric, s: State, x: Inputs, r: nat)
    requires WiresOk(f) && StateOk(f, s) && InputsOk(f, x) && r < |s.routers|
    ensures RouterOk(NextRouter(f, s, x, r))
  {
    PlaceStep(f, s, x, Queue(r, 0));
    PlaceStep(f, s, x, Queue(r, 1));
    PlaceStep(f, s, x, Queue(r, 2));
  }

  lemma StepOk(f: Fabric, s: State, x: Inputs)
    requires WiresOk(f) && StateOk(f, s) && InputsOk(f, x)
    ensures StateOk(f, Step(f, s, x))
  {
    forall r | 0 <= r < |s.routers|
      ensures RouterOk(NextRouter(f, s, x, r))
    {
      NextRouterOk(f, s, x, r);
    }
    forall e | 0 <= e < |s.skids|
      ensures NextAt(f, s, x, Skid(e)).count <= 2
    {
      PlaceStep(f, s, x, Skid(e));
    }
  }

  lemma StepAt(f: Fabric, s: State, x: Inputs, place: Place)
    requires WiresOk(f) && StateOk(f, s) && InputsOk(f, x) && PlaceOk(f, place) && !x.reset
    ensures StateOk(f, Step(f, s, x)) && At(f, Step(f, s, x), place) == NextAt(f, s, x, place)
  {
    StepOk(f, s, x);
  }

  // ----- every packet pushed somewhere was popped elsewhere, and the other way round

  /** The port a waiting packet asks for. */
  function Wanted(packet: Packet, inPort: nat): (port: nat)
    ensures port < 3
  {
    OutPort(inPort, packet.word % 2 == 1)
  }

  /** A packet leaving a router queue goes out by the port its turn bit selects, and that port fires. */
  lemma PoppedFires(f: Fabric, s: State, x: Inputs, r: nat, i: nat)
    requires WiresOk(f) && StateOk(f, s) && InputsOk(f, x) && r < |f.topology.ports| && i < 3
    requires Pops(f, s, x, Queue(r, i))
    ensures RouterOk(s.routers[r])
    ensures var out := Wanted(s.routers[r].queue[i].slot0, i);
            Fires(f, s, x, r, out) && GrantAt(s.routers[r], out) == To(i)
  {
    assert RouterOk(s.routers[r]);
    var t := if Fires(f, s, x, r, 0) && GrantAt(s.routers[r], 0) == To(i) then 0
             else if Fires(f, s, x, r, 1) && GrantAt(s.routers[r], 1) == To(i) then 1 else 2;
    assert Requests(s.routers[r], i, t);
  }

  /** A port that fires takes the packet of the input it granted, which asked for it. */
  lemma FiringPops(f: Fabric, s: State, x: Inputs, r: nat, t: nat)
    requires WiresOk(f) && StateOk(f, s) && InputsOk(f, x) && r < |f.topology.ports| && t < 3
    requires Fires(f, s, x, r, t)
    ensures RouterOk(s.routers[r]) && GrantAt(s.routers[r], t).To?
    ensures var i := GrantAt(s.routers[r], t).input;
            Pops(f, s, x, Queue(r, i)) && Wanted(s.routers[r].queue[i].slot0, i) == t
  {
    assert RouterOk(s.routers[r]);
    assert Requests(s.routers[r], GrantAt(s.routers[r], t).input, t);
  }

  /** Where a popped packet arrives in the same cycle, if it stays inside the fabric. */
  lemma PoppedArrives(f: Fabric, s: State, x: Inputs, place: Place)
    requires WiresOk(f) && StateOk(f, s) && InputsOk(f, x) && PlaceOk(f, place) && Pops(f, s, x, place)
    ensures match place
            case Skid(e) =>
              f.isSource[e] ==>
                0 <= f.topology.endpointRouter[e] && 0 <= f.topology.endpointPort[e]
                && var next := Queue(f.topology.endpointRouter[e], f.topology.endpointPort[e]);
                PlaceOk(f, next) && Pushed(f, s, x, next) == Popped(f, s, x, place)
            case Queue(r, i) =>
              RouterOk(s.routers[r])
              && var packet := s.routers[r].queue[i].slot0;
              AttachmentOk(f.topology, r, Wanted(packet, i))
              && match f.topology.ports[r][Wanted(packet, i)]
                 case Dummy => true
                 case Terminal(d) => f.isSource[d] || Pushed(f, s, x, Skid(d)) == [Forwarded(packet, f.width)]
                 case Link(n, q) => Pushed(f, s, x, Queue(n, q)) == [Forwarded(packet, f.width)]
  {
    match place
    case Skid(e) =>
      assert EndpointOk(f.topology, e);
      assert AttachmentOk(f.topology, f.topology.endpointRouter[e], f.topology.endpointPort[e]);
    case Queue(r, i) =>
      PoppedFires(f, s, x, r, i);
      var out := Wanted(s.routers[r].queue[i].slot0, i);
      assert AttachmentOk(f.topology, r, out);
  }

  /** Where a pushed packet comes from in the same cycle, if not from a module input. */
  lemma PushedDeparts(f: Fabric, s: State, x: Inputs, place: Place)
    requires WiresOk(f) && StateOk(f, s) && InputsOk(f, x) && PlaceOk(f, place) && Pushes(f, s, x, place)
    ensures match place
            case Skid(e) => f.isSource[e] || Departs(f, s, x, Incoming(f, s, x, place), Terminal(e))
            case Queue(r, p) =>
              match f.topology.ports[r][p]
              case Dummy => false
              case Terminal(e) =>
                e < |f.isSource| && f.isSource[e] && Popped(f, s, x, Skid(e)) == [Incoming(f, s, x, place)]
              case Link(n, q) => Departs(f, s, x, Incoming(f, s, x, place), Link(r, p))
  {
    match place
    case Skid(e) =>
      assert EndpointOk(f.topology, e);
      if !f.isSource[e] {
        DepartsFrom(f, s, x, f.topology.endpointRouter[e], f.topology.endpointPort[e]);
      }
    case Queue(r, p) =>
      assert AttachmentOk(f.topology, r, p);
      match f.topology.ports[r][p] {
        case Dummy =>
        case Terminal(e) =>
        case Link(n, q) =>
          assert AttachmentOk(f.topology, n, q);
          DepartsFrom(f, s, x, n, q);
      }
  }

  /** `packet` leaves some router queue this cycle through the port wired to `target`. */
  ghost predicate Departs(f: Fabric, s: State, x: Inputs, packet: Packet, target: Attachment)
    requires WiresOk(f) && StateOk(f, s) && InputsOk(f, x)
  {
    exists r, i :: 0 <= r < |f.topology.ports| && 0 <= i < 3 && DepartsQueue(f, s, x, r, i, packet, target)
  }

  ghost predicate DepartsQueue(f: Fabric, s: State, x: Inputs, r: nat, i: nat, packet: Packet, target: Attachment)
    requires WiresOk(f) && StateOk(f, s) && InputsOk(f, x) && r < |f.topology.ports| && i < 3
  {
    assert RouterOk(s.routers[r]);
    && Pops(f, s, x, Queue(r, i))
    && f.topology.ports[r][Wanted(s.routers[r].queue[i].slot0, i)] == target
    && packet == Forwarded(s.routers[r].queue[i].slot0, f.width)
  }

  lemma DepartsFrom(f: Fabric, s: State, x: Inputs, r: nat, t: nat)
    requires WiresOk(f) && StateOk(f, s) && InputsOk(f, x) && r < |f.topology.ports| && t < 3
    requires Fires(f, s, x, r, t)
    ensures RouterOk(s.routers[r])
    ensures Departs(f, s, x, OutPacket(f, s, r, t), f.topology.ports[r][t])
  {
    FiringPops(f, s, x, r, t);
    var i := GrantAt(s.routers[r], t).input;
    assert DepartsQueue(f, s, x, r, i, OutPacket(f, s, r, t), f.topology.ports[r][t]);
  }
}
