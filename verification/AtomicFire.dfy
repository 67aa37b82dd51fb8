/** A group of assignments transfers all of its sources and destinations in one cycle, or none of them. */
module AtomicFire {
  import opened Options
  import opened TransferRoutes

  /** A token enters destination p. */
  ghost predicate InFires(d: Design, p: nat, c: Cycle)
    requires DesignOk(d)
  {
    InValid(d, p, c) && c.inReady(p)
  }

  /** A token leaves source p. */
  ghost predicate OutFires(d: Design, p: nat, c: Cycle)
    requires DesignOk(d)
  {
    OutReady(d, p, c) && c.outValid(p)
  }

  ghost predicate Writes(d: Design, g: nat, p: nat) {
    exists j: nat :: InGroup(d, j, g) && d.assignments[j].destination == Signal(p)
  }

  /** Some firing group writes p. */
  ghost predicate Written(d: Design, p: nat, c: Cycle)
    requires DesignOk(d)
  {
    exists g :: Writes(d, g, p) && GroupFires(d, g, c)
  }

  /** Some firing group reads p. */
  ghost predicate Taken(d: Design, p: nat, c: Cycle)
    requires DesignOk(d)
  {
    exists g :: Mentions(d, g, p) && GroupFires(d, g, c)
  }

  lemma SharedGuard(d: Design, j: nat, g: nat, c: Cycle)
    requires DesignOk(d) && InGroup(d, j, g)
    ensures GroupGuard(d, g, c) <==> GuardOn(d.assignments[j], c)
  {
    if k: nat :| InGroup(d, k, g) && GuardOn(d.assignments[k], c) {
      assert j < k ==> PairOk(d.assignments[j], d.assignments[k]);
      assert k < j ==> PairOk(d.assignments[k], d.assignments[j]);
    }
  }

  /** An offer to a ready destination is a firing of its whole group. */
  lemma OfferIsGroup(d: Design, j: nat, p: nat, c: Cycle)
    requires DesignOk(d) && j < |d.assignments| && d.assignments[j].destination == Signal(p)
    requires p < |d.primitives| && Handshakes(d, p)
    ensures Offers(d, j, c) && c.inReady(p) <==> GroupFires(d, d.assignments[j].group, c)
  {
    var g := d.assignments[j].group;
    assert InGroup(d, j, g);
    SharedGuard(d, j, g, c);
    if Alone(d, j) {
      AloneIsItsGroup(d, j, None, c);
    } else if GroupReady(d, g, c) {
      assert DestinationReady(d, d.assignments[j].destination, c);
    }
  }

  /** A token enters a handshaking destination exactly when a group that writes it fires. */
  lemma DestinationFires(d: Design, p: nat, c: Cycle)
    requires DesignOk(d) && p < |d.primitives| && Handshakes(d, p)
    ensures InFires(d, p, c) <==> Written(d, p, c)
  {
    hide Offers, GroupFires;
    if InFires(d, p, c) {
      var j :| 0 <= j < |d.assignments| && d.assignments[j].destination == Signal(p) && Offers(d, j, c);
      OfferIsGroup(d, j, p, c);
      assert InGroup(d, j, d.assignments[j].group);
      assert Writes(d, d.assignments[j].group, p);
    }
    if g: nat :| Writes(d, g, p) && GroupFires(d, g, c) {
      var j: nat :| InGroup(d, j, g) && d.assignments[j].destination == Signal(p);
      OfferIsGroup(d, j, p, c);
    }
  }

  lemma {:induction false} LeaderExists(d: Design, j: nat) returns (leader: nat)
    requires j < |d.assignments|
    ensures Leads(d, leader) && d.assignments[leader].group == d.assignments[j].group
  {
    if k :| 0 <= k < j && d.assignments[k].group == d.assignments[j].group {
      leader := LeaderExists(d, k);
    } else {
      leader := j;
    }
  }

  /** Taking from a valid source is a firing of the whole group. */
  lemma TakeIsGroup(d: Design, j: nat, p: nat, c: Cycle)
    requires DesignOk(d) && j < |d.assignments| && p < |d.primitives| && Consumable(d, p)
    requires Mentions(d, d.assignments[j].group, p)
    ensures Takes(d, j, p, c) && c.outValid(p) <==> GroupFires(d, d.assignments[j].group, c)
  {
    var g := d.assignments[j].group;
    assert InGroup(d, j, g);
    SharedGuard(d, j, g, c);
    assert Valid(d, p, c) <==> c.outValid(p);
  }

  /** A token leaves a source exactly when a group that reads it fires. */
  lemma SourceFires(d: Design, p: nat, c: Cycle)
    requires DesignOk(d) && p < |d.primitives| && Consumable(d, p)
    ensures OutFires(d, p, c) <==> Taken(d, p, c)
  {
    hide Takes, GroupFires;
    if OutFires(d, p, c) {
      var j :| 0 <= j < |d.assignments| && Leads(d, j) && Mentions(d, d.assignments[j].group, p) && Takes(d, j, p, c);
      TakeIsGroup(d, j, p, c);
    }
    if g: nat :| Mentions(d, g, p) && GroupFires(d, g, c) {
      var k: nat :| InGroup(d, k, g) && p in d.assignments[k].mentions;
      var j := LeaderExists(d, k);
      TakeIsGroup(d, j, p, c);
    }
  }

  // ----- exclusive groups

  /** Groups that write the same handshaking destination, or read the same consumed source, never go together. */
  ghost predicate Exclusive(d: Design, c: Cycle) {
    forall g, h, p :: g != h && Shares(d, g, h, p) ==> !(GroupGuard(d, g, c) && GroupGuard(d, h, c))
  }

  ghost predicate Shares(d: Design, g: nat, h: nat, p: nat) {
    && p < |d.primitives|
    && ((Writes(d, g, p) && Writes(d, h, p) && Handshakes(d, p)) ||
        (Mentions(d, g, p) && Mentions(d, h, p) && Consumable(d, p)))
  }

  /** While a group's guard holds, each of its buffered endpoints fires exactly when the whole group fires. */
  lemma AllOrNone(d: Design, g: nat, p: nat, c: Cycle)
    requires DesignOk(d) && Exclusive(d, c) && GroupGuard(d, g, c) && p < |d.primitives|
    ensures Writes(d, g, p) && Handshakes(d, p) ==> (InFires(d, p, c) <==> GroupFires(d, g, c))
    ensures Mentions(d, g, p) && Consumable(d, p) ==> (OutFires(d, p, c) <==> GroupFires(d, g, c))
  {
    hide InFires, OutFires, Writes, Mentions;
    if Writes(d, g, p) && Handshakes(d, p) {
      DestinationFires(d, p, c);
      if Written(d, p, c) {
        var h :| Writes(d, h, p) && GroupFires(d, h, c);
        assert Shares(d, g, h, p);
      }
    }
    if Mentions(d, g, p) && Consumable(d, p) {
      SourceFires(d, p, c);
      if Taken(d, p, c) {
        var h :| Mentions(d, h, p) && GroupFires(d, h, c);
        assert Shares(d, g, h, p);
      }
    }
  }

  /** The multiplexer passes the value of the only assignment to p whose guard holds. */
  lemma {:induction false} PacketIsOwn(d: Design, p: nat, i: nat, j: nat, c: Cycle)
    requires i <= j < |d.assignments| && d.assignments[j].destination == Signal(p) && GuardOn(d.assignments[j], c)
    requires forall k :: 0 <= k < j && d.assignments[k].destination == Signal(p) ==> !GuardOn(d.assignments[k], c)
    ensures PacketFrom(d, p, i, c) == d.assignments[j].value(c.packetOut)
    decreases j - i
  {
    if i < j {
      PacketIsOwn(d, p, i + 1, j, c);
    }
  }

  /** A firing group delivers to each of its destinations the value it assigns there. */
  lemma PayloadIsDelivered(d: Design, j: nat, p: nat, c: Cycle)
    requires DesignOk(d) && Exclusive(d, c) && j < |d.assignments| && d.assignments[j].destination == Signal(p)
    requires p < |d.primitives| && Handshakes(d, p) && GroupFires(d, d.assignments[j].group, c)
    ensures PacketFrom(d, p, 0, c) == d.assignments[j].value(c.packetOut)
  {
    var g := d.assignments[j].group;
    assert InGroup(d, j, g);
    SharedGuard(d, j, g, c);
    forall k | 0 <= k < j && d.assignments[k].destination == Signal(p)
      ensures !GuardOn(d.assignments[k], c)
    {
      var h := d.assignments[k].group;
      assert InGroup(d, k, h);
      assert PairOk(d.assignments[k], d.assignments[j]);
      assert Shares(d, g, h, p);
      SharedGuard(d, k, h, c);
    }
    PacketIsOwn(d, p, 0, j, c);
  }

  // ----- tokens over whole runs

  predicate IsQueue(k: Kind) { k == Buf || k == Fifo || k == Skid }

  function Capacity(k: Kind, depth: nat): nat { if k == Buf then 1 else if k == Skid then 2 else depth }

  /** The wires of a cycle agree with the contents of queue p; a full `buf` accepts while its token leaves. */
  ghost predicate WiresOk(d: Design, p: nat, depth: nat, s: seq<int>, c: Cycle)
    requires DesignOk(d) && p < |d.primitives|
  {
    var k := d.primitives[p].kind;
    && (c.outValid(p) <==> |s| > 0)
    && (|s| > 0 ==> c.packetOut(p) == s[0])
    && (c.inReady(p) <==> if k == Buf then |s| == 0 || OutReady(d, p, c) else |s| < Capacity(k, depth))
  }

  /** One clock edge of a queue: the head leaves, then the new token enters. */
  ghost function NextContents(d: Design, p: nat, s: seq<int>, c: Cycle): seq<int>
    requires DesignOk(d)
  {
    (if OutFires(d, p, c) && |s| > 0 then s[1..] else s) + if InFires(d, p, c) then [PacketFrom(d, p, 0, c)] else []
  }

  ghost function After(d: Design, p: nat, s: seq<int>, cs: seq<Cycle>): seq<int>
    requires DesignOk(d)
    decreases |cs|
  {
    if cs == [] then s else After(d, p, NextContents(d, p, s, cs[0]), cs[1..])
  }

  /** Every cycle's wires fit the contents reached, and sharing groups stay exclusive. */
  ghost predicate RunOk(d: Design, p: nat, depth: nat, s: seq<int>, cs: seq<Cycle>)
    requires DesignOk(d) && p < |d.primitives|
    decreases |cs|
  {
    cs != [] ==>
      WiresOk(d, p, depth, s, cs[0]) && Exclusive(d, cs[0]) && RunOk(d, p, depth, NextContents(d, p, s, cs[0]), cs[1..])
  }

  ghost predicate Delivers(d: Design, j: nat, p: nat, c: Cycle)
    requires DesignOk(d) && j < |d.assignments|
  {
    d.assignments[j].destination == Signal(p) && GroupFires(d, d.assignments[j].group, c)
  }

  /** What the firing group, if any, writes to p. */
  ghost function Delivery(d: Design, p: nat, c: Cycle): seq<int>
    requires DesignOk(d)
  {
    if exists j :: 0 <= j < |d.assignments| && Delivers(d, j, p, c) then
      var j :| 0 <= j < |d.assignments| && Delivers(d, j, p, c);
      [d.assignments[j].value(c.packetOut)]
    else []
  }

  /** What firing groups write to p, cycle by cycle. */
  ghost function Produced(d: Design, p: nat, cs: seq<Cycle>): seq<int>
    requires DesignOk(d)
    decreases |cs|
  {
    if cs == [] then [] else Delivery(d, p, cs[0]) + Produced(d, p, cs[1..])
  }

  /** What firing groups read from p, cycle by cycle. */
  ghost function Consumed(d: Design, p: nat, cs: seq<Cycle>): seq<int>
    requires DesignOk(d)
    decreases |cs|
  {
    if cs == [] then []
    else (if Taken(d, p, cs[0]) then [cs[0].packetOut(p)] else []) + Consumed(d, p, cs[1..])
  }

  lemma DeliveryIsPush(d: Design, p: nat, c: Cycle)
    requires DesignOk(d) && Exclusive(d, c) && p < |d.primitives| && Handshakes(d, p)
    ensures Delivery(d, p, c) == if InFires(d, p, c) then [PacketFrom(d, p, 0, c)] else []
  {
    hide InFires, GroupFires;
    DestinationFires(d, p, c);
    if InFires(d, p, c) {
      var g :| Writes(d, g, p) && GroupFires(d, g, c);
      var j: nat :| InGroup(d, j, g) && d.assignments[j].destination == Signal(p);
      assert Delivers(d, j, p, c);
    }
    if exists j :: 0 <= j < |d.assignments| && Delivers(d, j, p, c) {
      var j :| 0 <= j < |d.assignments| && Delivers(d, j, p, c) &&
               Delivery(d, p, c) == [d.assignments[j].value(c.packetOut)];
      assert InGroup(d, j, d.assignments[j].group);
      assert Writes(d, d.assignments[j].group, p);
      PayloadIsDelivered(d, j, p, c);
    }
  }

  /** A cycle's tokens balance, and a queue never holds more than its capacity. */
  lemma StepBalances(d: Design, p: nat, depth: nat, s: seq<int>, c: Cycle)
    requires DesignOk(d) && p < |d.primitives| && IsQueue(d.primitives[p].kind)
    requires WiresOk(d, p, depth, s, c) && Exclusive(d, c) && |s| <= Capacity(d.primitives[p].kind, depth)
    ensures s + Delivery(d, p, c) == (if Taken(d, p, c) then [c.packetOut(p)] else []) + NextContents(d, p, s, c)
    ensures |NextContents(d, p, s, c)| <= Capacity(d.primitives[p].kind, depth)
  {
    hide Taken, Delivery, GroupFires, Exclusive;
    DeliveryIsPush(d, p, c);
    SourceFires(d, p, c);
    if OutFires(d, p, c) {
      assert s == [s[0]] + s[1..];
    }
  }

  /**
   * Over every run: what was in a queue followed by what firing groups wrote to it is, in order, what firing groups
   * read from it followed by what it still holds. Nothing is lost, duplicated or reordered.
   */
  lemma {:induction false} TokensAreConserved(d: Design, p: nat, depth: nat, s: seq<int>, cs: seq<Cycle>)
    requires DesignOk(d) && p < |d.primitives| && IsQueue(d.primitives[p].kind)
    requires RunOk(d, p, depth, s, cs) && |s| <= Capacity(d.primitives[p].kind, depth)
    ensures s + Produced(d, p, cs) == Consumed(d, p, cs) + After(d, p, s, cs)
    ensures |After(d, p, s, cs)| <= Capacity(d.primitives[p].kind, depth)
    decreases |cs|
  {
    hide Taken, Delivery, WiresOk, Exclusive, NextContents;
    if cs == [] {
      assert s + [] == [] + s;
    } else {
      var c, rest, next := cs[0], cs[1..], NextContents(d, p, s, cs[0]);
      StepBalances(d, p, depth, s, c);
      TokensAreConserved(d, p, depth, next, rest);
      var gone := if Taken(d, p, c) then [c.packetOut(p)] else [];
      calc {
        s + Produced(d, p, cs);
      ==
        s + Delivery(d, p, c) + Produced(d, p, rest);
      ==
        gone + next + Produced(d, p, rest);
      ==
        gone + (next + Produced(d, p, rest));
      ==
        gone + (Consumed(d, p, rest) + After(d, p, next, rest));
      ==
        Consumed(d, p, cs) + After(d, p, s, cs);
      }
    }
  }
}
