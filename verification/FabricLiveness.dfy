/** No starvation: under any continuing traffic every waiting packet moves, and arrives, within a fixed number of cycles. */
module FabricLiveness {
  import opened Numbers
  import opened FabricWords
  import opened FabricTree
  import opened FabricTrace
  import opened FabricFifo
  import opened FabricNet
  import opened FabricSafety
  import opened FabricRuns
  import opened FabricProgress

  /** Cycles after which a waiting head of the given rank has certainly left. */
  function Patience(rank: nat): nat
  {
    if rank == 0 then 1 else 2 * Patience(rank - 1) + 2
  }

  /** The bound in closed form. */
  lemma {:induction false} PatienceClosed(rank: nat)
    ensures Patience(rank) == 3 * Pow2(rank) - 2
  {
    if rank > 0 {
      PatienceClosed(rank - 1);
    }
  }

  /** Destinations are ready in cycles [t, u). */
  ghost predicate Willing(f: Fabric, x: nat -> Inputs, t: nat, u: nat) {
    forall i: nat :: t <= i < u ==> Receptive(f, x(i))
  }

  /** The output of its router a queue head waits for. */
  ghost function WantedPort(f: Fabric, s: State, place: Place): nat
    requires StateOk(f, s) && PlaceOk(f, place) && place.Queue?
  {
    Wanted(At(f, s, place).slot0, place.port)
  }

  /** Round-robin favours input `i` at output `t`. */
  predicate Favours(router: Router, t: nat, i: nat)
    requires |router.rr| == 3 && t < 3
  {
    if i == (t + 2) % 3 then !router.rr[t] else router.rr[t]
  }

  ghost predicate Favoured(f: Fabric, s: State, place: Place)
    requires StateOk(f, s) && PlaceOk(f, place)
  {
    place.Queue? ==>
      assert RouterOk(s.routers[place.router]);
      Favours(s.routers[place.router], WantedPort(f, s, place), place.port)
  }

  ghost predicate HasRoom(f: Fabric, s: State, place: Place)
    requires WiresOk(f) && StateOk(f, s) && PlaceOk(f, place)
  {
    NeededBy(f, s, place).Into? ==> At(f, s, NeededBy(f, s, place).place).count != 2
  }

  /** A head that does not leave stays the head and keeps wanting the same place. */
  lemma HeadStays(f: Fabric, s: State, x: Inputs, place: Place)
    requires WiresOk(f) && StateOk(f, s) && InputsOk(f, x) && !x.reset && PlaceOk(f, place)
    requires At(f, s, place).count != 0 && !Pops(f, s, x, place)
    ensures StateOk(f, Step(f, s, x)) && At(f, Step(f, s, x), place).count != 0
    ensures At(f, Step(f, s, x), place).slot0 == At(f, s, place).slot0
    ensures NeededBy(f, Step(f, s, x), place) == NeededBy(f, s, place)
  {
    StepAt(f, s, x, place);
    PlaceStep(f, s, x, place);
    PopsNonempty(f, s, x, place);
  }

  /** Without room nothing leaves by the wanted port, so the head stays and so does its turn. */
  lemma BlockedStays(f: Fabric, s: State, x: Inputs, place: Place)
    requires WiresOk(f) && StateOk(f, s) && InputsOk(f, x) && !x.reset && PlaceOk(f, place)
    requires At(f, s, place).count != 0 && !HasRoom(f, s, place)
    ensures !Pops(f, s, x, place)
    ensures StateOk(f, Step(f, s, x))
    ensures Favoured(f, s, place) ==> Favoured(f, Step(f, s, x), place)
  {
    StepOk(f, s, x);
    if place.Skid? {
      assert EndpointOk(f.topology, place.endpoint);
    } else {
      var r, i := place.router, place.port;
      assert RouterOk(s.routers[r]);
      var out := WantedPort(f, s, place);
      assert AttachmentOk(f.topology, r, out);
      assert !Fires(f, s, x, r, out);
      if Pops(f, s, x, place) {
        PoppedFires(f, s, x, r, i);
      }
      HeadStays(f, s, x, place);
      PreferenceKept(f, s, x, r, out);
    }
  }

  lemma PreferenceKept(f: Fabric, s: State, x: Inputs, r: nat, t: nat)
    requires WiresOk(f) && StateOk(f, s) && InputsOk(f, x) && !x.reset && r < |s.routers| && t < 3
    ensures RouterOk(s.routers[r]) && StateOk(f, Step(f, s, x)) && RouterOk(Step(f, s, x).routers[r])
    ensures Step(f, s, x).routers[r].rr[t] == NextPreference(f, s, x, r, t)
  {
    StepOk(f, s, x);
  }

  /** With room, a favoured head leaves; an unfavoured one leaves or becomes favoured. */
  lemma RoomServes(f: Fabric, s: State, x: Inputs, place: Place)
    requires WiresOk(f) && StateOk(f, s) && Receptive(f, x) && !x.reset && PlaceOk(f, place)
    requires At(f, s, place).count != 0 && HasRoom(f, s, place)
    ensures StateOk(f, Step(f, s, x))
    ensures Favoured(f, s, place) ==> Pops(f, s, x, place)
    ensures Pops(f, s, x, place) || Favoured(f, Step(f, s, x), place)
  {
    hide NextAt;
    StepOk(f, s, x);
    var mover := RoomMeansMove(f, s, x, place);
    if place.Queue? && mover != place {
      var r, i := place.router, place.port;
      var out := WantedPort(f, s, place);
      assert RouterOk(s.routers[r]);
      assert Requests(s.routers[r], i, out);
      if Pops(f, s, x, place) {
        PoppedFires(f, s, x, r, i);
      }
      HeadStays(f, s, x, place);
      PreferenceKept(f, s, x, r, out);
    }
  }

  /** After a full place pops it has room. */
  lemma PoppedHasRoom(f: Fabric, s: State, x: Inputs, place: Place)
    requires WiresOk(f) && StateOk(f, s) && InputsOk(f, x) && !x.reset && PlaceOk(f, place)
    requires Pops(f, s, x, place)
    ensures StateOk(f, Step(f, s, x)) && At(f, Step(f, s, x), place).count != 2
  {
    StepAt(f, s, x, place);
    PopsNonempty(f, s, x, place);
    PlaceStep(f, s, x, place);
  }

  /** Waiting for room: as long as the needed place is full the head and its turn stay. */
  lemma {:induction false} AwaitRoom(f: Fabric, x: nat -> Inputs, s: nat -> State, t: nat, v: nat, place: Place) returns (u: nat)
    requires IsRun(f, x, s, v + 1) && t <= v && StateOk(f, s(t)) && StateOk(f, s(v)) && InputsOk(f, x(v)) && PlaceOk(f, place)
    requires At(f, s(t), place).count != 0
    requires NeededBy(f, s(t), place).Into? && Pops(f, s(v), x(v), NeededBy(f, s(t), place).place)
    ensures t <= u <= v + 1 && StateOk(f, s(u)) && HasRoom(f, s(u), place) && At(f, s(u), place).count != 0
    ensures Favoured(f, s(t), place) ==> Favoured(f, s(u), place)
    decreases v - t
  {
    if HasRoom(f, s(t), place) {
      u := t;
    } else {
      assert Next(f, s(t), x(t), s(t + 1));
      BlockedStays(f, s(t), x(t), place);
      HeadStays(f, s(t), x(t), place);
      if t == v {
        PoppedHasRoom(f, s(t), x(t), NeededBy(f, s(t), place).place);
        u := t + 1;
      } else {
        u := AwaitRoom(f, x, s, t + 1, v, place);
      }
    }
  }

  /** A waiting head finds room within the patience of the place it needs. */
  lemma {:induction false} RoomWithin(f: Fabric, layout: seq<Span>, x: nat -> Inputs, s: nat -> State, t: nat, place: Place, rank: nat)
    returns (u: nat)
    requires FabricOk(f, layout) && IsRun(f, x, s, t + Patience(rank)) && Willing(f, x, t, t + Patience(rank))
    requires StateOk(f, s(t)) && PlaceOk(f, place) && At(f, s(t), place).count != 0 && PlaceRank(f, layout, place) <= rank + 1
    ensures t <= u <= t + Patience(rank) && StateOk(f, s(u)) && HasRoom(f, s(u), place) && At(f, s(u), place).count != 0
    ensures Favoured(f, s(t), place) ==> Favoured(f, s(u), place)
    decreases rank, 1
  {
    if HasRoom(f, s(t), place) {
      u := t;
    } else {
      NeedsLower(f, layout, s(t), place);
      var v := PopsWithin(f, layout, x, s, t, NeededBy(f, s(t), place).place, rank);
      u := AwaitRoom(f, x, s, t, v, place);
    }
  }

  /** No starvation: every waiting head leaves its place within a bound that depends on the place alone. */
  lemma {:induction false} PopsWithin(f: Fabric, layout: seq<Span>, x: nat -> Inputs, s: nat -> State, t: nat, place: Place, rank: nat)
    returns (u: nat)
    requires FabricOk(f, layout) && IsRun(f, x, s, t + Patience(rank)) && Willing(f, x, t, t + Patience(rank))
    requires StateOk(f, s(t)) && PlaceOk(f, place) && At(f, s(t), place).count != 0 && PlaceRank(f, layout, place) <= rank
    ensures t <= u < t + Patience(rank) && StateOk(f, s(u)) && InputsOk(f, x(u)) && Pops(f, s(u), x(u), place)
    decreases rank, 0
  {
    hide Step, Pops, NeededBy, At, PlaceRank;
    if rank == 0 {
      assert Receptive(f, x(t));
      assert Next(f, s(t), x(t), s(t + 1));
      ReceiverPops(f, layout, s(t), x(t), place);
      u := t;
    } else {
      var a := RoomWithin(f, layout, x, s, t, place, rank - 1);
      assert Next(f, s(a), x(a), s(a + 1)) && Receptive(f, x(a));
      RoomServes(f, s(a), x(a), place);
      if Pops(f, s(a), x(a), place) {
        u := a;
      } else {
        HeadStays(f, s(a), x(a), place);
        u := RoomWithin(f, layout, x, s, a + 1, place, rank - 1);
        assert Next(f, s(u), x(u), s(u + 1)) && Receptive(f, x(u));
        RoomServes(f, s(u), x(u), place);
      }
    }
  }

  lemma ReceiverPops(f: Fabric, layout: seq<Span>, s: State, x: Inputs, place: Place)
    requires FabricOk(f, layout) && WiresOk(f) && StateOk(f, s) && Receptive(f, x) && PlaceOk(f, place)
    requires At(f, s, place).count != 0 && PlaceRank(f, layout, place) == 0
    ensures Pops(f, s, x, place)
  {
    if place.Queue? {
      assert false;
    }
  }
}
