/** The handshakes of the fabric: when a queue takes a packet, when it lets one go, and what its environment sees. */
module FabricHandshakes {
  import opened FabricWords
  import opened FabricTree
  import opened FabricTrace
  import opened FabricFifo
  import opened FabricNet
  import opened FabricSafety
  import opened FabricRuns

  ghost predicate Empty(f: Fabric, s: State, place: Place)
    requires StateOk(f, s) && PlaceOk(f, place)
  {
    Contents(At(f, s, place)) == []
  }

  /** Fewer than two entries. */
  ghost predicate HasRoom(f: Fabric, s: State, place: Place)
    requires StateOk(f, s) && PlaceOk(f, place)
  {
    |Contents(At(f, s, place))| < 2
  }

  /** The turn bit of the waiting head: the next port round the router for 0, the one after it for 1. */
  ghost predicate HeadTurnsTo(f: Fabric, s: State, r: nat, i: nat, t: nat)
    requires StateOk(f, s) && r < |f.topology.ports| && i < 3
  {
    !Empty(f, s, Queue(r, i)) && t == (i + 1 + Contents(At(f, s, Queue(r, i)))[0].word % 2) % 3
  }

  /** What the wires in front of a place bring it. */
  ghost predicate Offered(f: Fabric, s: State, x: Inputs, place: Place)
    requires WiresOk(f) && StateOk(f, s) && InputsOk(f, x) && PlaceOk(f, place)
  {
    match place
    case Skid(e) =>
      assert EndpointOk(f.topology, e);
      if f.isSource[e] then x.valid[e]
      else exists i :: 0 <= i < 3 && HeadTurnsTo(f, s, f.topology.endpointRouter[e], i, f.topology.endpointPort[e])
    case Queue(r, p) =>
      assert AttachmentOk(f.topology, r, p);
      match f.topology.ports[r][p]
      case Dummy => false
      case Terminal(e) => f.isSource[e] && !Empty(f, s, Skid(e))
      case Link(n, q) => exists i :: 0 <= i < 3 && HeadTurnsTo(f, s, n, i, q)
  }

  lemma RequestsTurn(f: Fabric, s: State, r: nat, i: nat, t: nat)
    requires StateOk(f, s) && r < |f.topology.ports| && i < 3 && t < 3
    ensures RouterOk(s.routers[r]) && (Requests(s.routers[r], i, t) <==> HeadTurnsTo(f, s, r, i, t))
  {
    assert RouterOk(s.routers[r]);
  }

  lemma GrantedIffWanted(f: Fabric, s: State, r: nat, t: nat)
    requires StateOk(f, s) && r < |f.topology.ports| && t < 3
    ensures RouterOk(s.routers[r]) && (GrantAt(s.routers[r], t).To? <==> exists i :: 0 <= i < 3 && HeadTurnsTo(f, s, r, i, t))
  {
    forall i | 0 <= i < 3
      ensures RouterOk(s.routers[r]) && (Requests(s.routers[r], i, t) <==> HeadTurnsTo(f, s, r, i, t))
    {
      RequestsTurn(f, s, r, i, t);
    }
    assert RouterOk(s.routers[r]);
    hide HeadTurnsTo, Requests;
  }

  /** A place takes a packet exactly when enabled, with room, and offered one. */
  lemma TakesExactly(f: Fabric, s: State, x: Inputs, place: Place)
    requires WiresOk(f) && StateOk(f, s) && InputsOk(f, x) && PlaceOk(f, place)
    ensures Pushes(f, s, x, place) <==> x.enable && HasRoom(f, s, place) && Offered(f, s, x, place)
  {
    match place
    case Skid(e) =>
      assert EndpointOk(f.topology, e);
      GrantedIffWanted(f, s, f.topology.endpointRouter[e], f.topology.endpointPort[e]);
      hide HeadTurnsTo, GrantAt;
    case Queue(r, p) =>
      assert RouterOk(s.routers[r]) && AttachmentOk(f.topology, r, p);
      if f.topology.ports[r][p].Link? {
        GrantedIffWanted(f, s, f.topology.ports[r][p].router, f.topology.ports[r][p].port);
      }
      hide HeadTurnsTo, GrantAt;
  }

  /** Behind port t of router r a packet can be taken; nothing stops one at the dummy port or at a source. */
  ghost predicate RoomBehind(f: Fabric, s: State, r: nat, t: nat)
    requires WiresOk(f) && StateOk(f, s) && r < |f.topology.ports| && t < 3
  {
    assert AttachmentOk(f.topology, r, t);
    match f.topology.ports[r][t]
    case Dummy => true
    case Terminal(e) => f.isSource[e] || HasRoom(f, s, Skid(e))
    case Link(n, q) => HasRoom(f, s, Queue(n, q))
  }

  /** Of two heads that want port t, the preference bit picks the one from the next port round if set. */
  ghost predicate Wins(f: Fabric, s: State, r: nat, i: nat, t: nat)
    requires StateOk(f, s) && r < |f.topology.ports| && i < 3 && t < 3
  {
    assert RouterOk(s.routers[r]);
    HeadTurnsTo(f, s, r, i, t) &&
    ((exists j :: 0 <= j < 3 && j != i && HeadTurnsTo(f, s, r, j, t)) ==> (s.routers[r].rr[t] <==> i == (t + 1) % 3))
  }

  lemma GrantedIffWins(f: Fabric, s: State, r: nat, i: nat, t: nat)
    requires StateOk(f, s) && r < |f.topology.ports| && i < 3 && t < 3
    ensures RouterOk(s.routers[r]) && (GrantAt(s.routers[r], t) == To(i) <==> Wins(f, s, r, i, t))
  {
    RequestsTurn(f, s, r, 0, t);
    RequestsTurn(f, s, r, 1, t);
    RequestsTurn(f, s, r, 2, t);
    hide HeadTurnsTo;
    assert (exists j :: 0 <= j < 3 && j != i && HeadTurnsTo(f, s, r, j, t)) <==>
           (i != 0 && HeadTurnsTo(f, s, r, 0, t)) || (i != 1 && HeadTurnsTo(f, s, r, 1, t))
           || (i != 2 && HeadTurnsTo(f, s, r, 2, t));
  }

  /** The head of queue i of router r wins port t, and there is room behind it. */
  ghost predicate Goes(f: Fabric, s: State, r: nat, i: nat, t: nat)
    requires WiresOk(f) && StateOk(f, s) && r < |f.topology.ports| && i < 3 && t < 3
  {
    Wins(f, s, r, i, t) && RoomBehind(f, s, r, t)
  }

  /** Something draws the head of the place. */
  ghost predicate Drawn(f: Fabric, s: State, x: Inputs, place: Place)
    requires WiresOk(f) && StateOk(f, s) && InputsOk(f, x) && PlaceOk(f, place)
  {
    match place
    case Skid(e) =>
      assert EndpointOk(f.topology, e);
      if f.isSource[e] then HasRoom(f, s, Queue(f.topology.endpointRouter[e], f.topology.endpointPort[e])) else x.ready[e]
    case Queue(r, i) => exists t :: 0 <= t < 3 && Goes(f, s, r, i, t)
  }

  /** A place lets its head go exactly when enabled, not empty, and something draws its head. */
  lemma LetsGoExactly(f: Fabric, s: State, x: Inputs, place: Place)
    requires WiresOk(f) && StateOk(f, s) && InputsOk(f, x) && PlaceOk(f, place)
    ensures Pops(f, s, x, place) <==> x.enable && !Empty(f, s, place) && Drawn(f, s, x, place)
    ensures Popped(f, s, x, place) == if Pops(f, s, x, place) then [Contents(At(f, s, place))[0]] else []
  {
    match place
    case Skid(e) => assert EndpointOk(f.topology, e);
    case Queue(r, i) =>
      QueueLetsGo(f, s, x, r, i);
      if !Empty(f, s, place) {
        HeadIsFirst(f, s, place);
      }
      hide Pops, Drawn, WiresOk, StateOk, Contents;
  }

  lemma HeadIsFirst(f: Fabric, s: State, place: Place)
    requires StateOk(f, s) && PlaceOk(f, place) && !Empty(f, s, place)
    ensures Contents(At(f, s, place))[0] == At(f, s, place).slot0
  {
  }

  lemma QueueLetsGo(f: Fabric, s: State, x: Inputs, r: nat, i: nat)
    requires WiresOk(f) && StateOk(f, s) && InputsOk(f, x) && r < |f.topology.ports| && i < 3
    ensures Pops(f, s, x, Queue(r, i)) <==> x.enable && !Empty(f, s, Queue(r, i)) && Drawn(f, s, x, Queue(r, i))
  {
    FiresToward(f, s, x, r, i, 0);
    FiresToward(f, s, x, r, i, 1);
    FiresToward(f, s, x, r, i, 2);
    assert Pops(f, s, x, Queue(r, i)) <==>
           x.enable && (Goes(f, s, r, i, 0) || Goes(f, s, r, i, 1) || Goes(f, s, r, i, 2)) by {
      hide GrantAt, Wins, RoomBehind, Fires, Empty;
    }
    hide *;
    DrawnIfGoes(f, s, x, r, i);
  }

  lemma DrawnIfGoes(f: Fabric, s: State, x: Inputs, r: nat, i: nat)
    requires WiresOk(f) && StateOk(f, s) && InputsOk(f, x) && r < |f.topology.ports| && i < 3
    ensures !Empty(f, s, Queue(r, i)) && Drawn(f, s, x, Queue(r, i)) <==>
            Goes(f, s, r, i, 0) || Goes(f, s, r, i, 1) || Goes(f, s, r, i, 2)
  {
    forall t | 0 <= t < 3
      ensures Goes(f, s, r, i, t) ==> !Empty(f, s, Queue(r, i))
    {
      hide RoomBehind, WiresOk;
    }
    hide Goes, Empty, WiresOk, StateOk;
  }

  lemma FiresToward(f: Fabric, s: State, x: Inputs, r: nat, i: nat, t: nat)
    requires WiresOk(f) && StateOk(f, s) && InputsOk(f, x) && r < |f.topology.ports| && i < 3 && t < 3
    ensures RouterOk(s.routers[r])
    ensures Fires(f, s, x, r, t) && GrantAt(s.routers[r], t) == To(i) <==>
            x.enable && Wins(f, s, r, i, t) && RoomBehind(f, s, r, t)
    ensures Wins(f, s, r, i, t) ==> !Empty(f, s, Queue(r, i))
  {
    GrantedIffWins(f, s, r, i, t);
    assert AttachmentOk(f.topology, r, t);
    RoomIsReady(f, s, x, r, t);
    hide GrantAt, RoomBehind, OutReady;
  }

  lemma RoomIsReady(f: Fabric, s: State, x: Inputs, r: nat, t: nat)
    requires WiresOk(f) && StateOk(f, s) && InputsOk(f, x) && r < |f.topology.ports| && t < 3
    ensures x.enable ==> (OutReady(f, s, x, r, t) <==> RoomBehind(f, s, r, t))
  {
    assert AttachmentOk(f.topology, r, t);
    if f.topology.ports[r][t].Link? {
      assert RouterOk(s.routers[f.topology.ports[r][t].router]);
    }
  }

  // ----- what the environment sees over a run

  /** The payloads source e hands over: those valid in an enabled cycle with fewer than two entries in its skid. */
  ghost function HandedOver(f: Fabric, x: nat -> Inputs, s: nat -> State, t: nat, e: nat): seq<int>
    requires IsRun(f, x, s, t) && e < |f.isSource|
  {
    if t == 0 then []
    else
      assert Next(f, s(t - 1), x(t - 1), s(t - 1 + 1));
      var now := x(t - 1);
      HandedOver(f, x, s, t - 1, e) +
      if now.enable && now.valid[e] && HasRoom(f, s(t - 1), Skid(e)) then [now.payload[e]] else []
  }

  /** The packets destination d takes: the heads of its skid in the enabled cycles in which it is ready. */
  ghost function Received(f: Fabric, x: nat -> Inputs, s: nat -> State, t: nat, d: nat): seq<Packet>
    requires IsRun(f, x, s, t) && d < |f.isSource|
  {
    if t == 0 then []
    else
      assert Next(f, s(t - 1), x(t - 1), s(t - 1 + 1));
      var now, waiting := x(t - 1), Contents(At(f, s(t - 1), Skid(d)));
      Received(f, x, s, t - 1, d) + if now.enable && now.ready[d] && waiting != [] then [waiting[0]] else []
  }

  lemma {:induction false} SentIsHandedOver(f: Fabric, x: nat -> Inputs, s: nat -> State, t: nat, e: nat)
    requires IsRun(f, x, s, t) && e < |f.isSource| && f.isSource[e]
    ensures Sent(f, x, s, t, e) == HandedOver(f, x, s, t, e)
  {
    if t > 0 {
      assert Next(f, s(t - 1), x(t - 1), s(t - 1 + 1));
      SentIsHandedOver(f, x, s, t - 1, e);
      TakesExactly(f, s(t - 1), x(t - 1), Skid(e));
      hide Pushes, HasRoom, WiresOk, StateOk;
    }
  }

  lemma {:induction false} OutputIsReceived(f: Fabric, x: nat -> Inputs, s: nat -> State, t: nat, d: nat)
    requires IsRun(f, x, s, t) && d < |f.isSource| && !f.isSource[d]
    ensures Output(f, x, s, t, d) == Received(f, x, s, t, d)
  {
    if t > 0 {
      assert Next(f, s(t - 1), x(t - 1), s(t - 1 + 1));
      OutputIsReceived(f, x, s, t - 1, d);
      LetsGoExactly(f, s(t - 1), x(t - 1), Skid(d));
      hide Pops, Popped, WiresOk, StateOk, Contents;
    }
  }
}
