/** The registers of the buf, fifo and skid primitives, and the queues they are. */
module StorageQueues {
  import opened TransferRoutes
  import opened AtomicFire

  /** The control inputs of a primitive besides its handshakes, without the force actions. */
  datatype Control = Run | Reset | Clear | Drop

  // ----- fifo and skid: a ring of packets

  datatype Ring = Ring(read: nat, write: nat, count: nat, packets: seq<int>)

  /** The next place of a ring of `depth` packets. */
  function Advance(pointer: nat, depth: nat): nat { if pointer == depth - 1 then 0 else pointer + 1 }

  /** Place `i` counted from the read pointer. */
  function Offset(read: nat, i: nat, depth: nat): nat { if read + i < depth then read + i else read + i - depth }

  predicate RingOk(r: Ring, depth: nat) {
    && |r.packets| == depth >= 1 && r.read < depth && r.write < depth && r.count <= depth
    && r.write == Offset(r.read, r.count, depth)
  }

  function RingContents(r: Ring, depth: nat): (s: seq<int>)
    requires RingOk(r, depth)
    ensures |s| == r.count
  {
    seq(r.count, i requires 0 <= i < r.count => r.packets[Offset(r.read, i, depth)])
  }

  /** One clock edge; `isSkid` tells the two primitives apart, which differ in what discarding does. */
  function RingStep(r: Ring, depth: nat, isSkid: bool, control: Control, push: bool, pop: bool, packet: int): Ring
    requires RingOk(r, depth)
  {
    if control == Reset || control == Clear || (isSkid && control == Drop) then Ring(0, 0, 0, r.packets)
    else if control == Drop && r.count != 0 then Ring(Advance(r.read, depth), r.write, r.count - 1, r.packets)
    else
      Ring(if pop then Advance(r.read, depth) else r.read,
           if push then Advance(r.write, depth) else r.write,
           if push && !pop then r.count + 1 else if pop && !push && r.count > 0 then r.count - 1 else r.count,
           if push then r.packets[r.write := packet] else r.packets)
  }

  lemma OffsetAdvances(read: nat, i: nat, depth: nat)
    requires read < depth && i < depth
    ensures Offset(read, i, depth) < depth
    ensures Offset(Advance(read, depth), i, depth) == Offset(read, i + 1, depth)
    ensures Advance(Offset(read, i, depth), depth) == Offset(read, i + 1, depth)
    ensures forall j :: 0 <= j < depth && j != i ==> Offset(read, j, depth) != Offset(read, i, depth)
  {
  }

  /** A push stores its packet behind the others. */
  lemma PushAppends(r: Ring, depth: nat, packet: int)
    requires RingOk(r, depth) && r.count != depth
    ensures var next := Ring(r.read, Advance(r.write, depth), r.count + 1, r.packets[r.write := packet]);
            RingOk(next, depth) && RingContents(next, depth) == RingContents(r, depth) + [packet]
  {
    OffsetAdvances(r.read, r.count, depth);
  }

  /** A pop removes the packet in front. */
  lemma PopRemoves(r: Ring, depth: nat)
    requires RingOk(r, depth) && r.count != 0
    ensures r.packets[r.read] == RingContents(r, depth)[0]
    ensures var next := Ring(Advance(r.read, depth), r.write, r.count - 1, r.packets);
            RingOk(next, depth) && RingContents(next, depth) == RingContents(r, depth)[1..]
  {
    OffsetAdvances(r.read, r.count - 1, depth);
    forall i | 0 <= i < r.count - 1
      ensures Offset(Advance(r.read, depth), i, depth) == Offset(r.read, i + 1, depth)
    {
      OffsetAdvances(r.read, i, depth);
    }
  }

  /** Running, a ring is a queue; clearing empties it; discarding drops the head of a fifo and all of a skid. */
  lemma RingIsQueue(r: Ring, depth: nat, isSkid: bool, control: Control, push: bool, pop: bool, packet: int)
    requires RingOk(r, depth) && (push ==> r.count != depth) && (pop ==> r.count != 0)
    ensures var next, s := RingStep(r, depth, isSkid, control, push, pop, packet), RingContents(r, depth);
            && RingOk(next, depth)
            && RingContents(next, depth) ==
               match control
               case Reset => []
               case Clear => []
               case Drop =>
                 if isSkid then [] else if s != [] then s[1..] else s + if push then [packet] else []
               case Run => (if pop then s[1..] else s) + if push then [packet] else []
  {
    if r.count != 0 {
      PopRemoves(r, depth);
    }
    if push {
      PushAppends(r, depth, packet);
      if pop {
        PushAppends(Ring(Advance(r.read, depth), r.write, r.count - 1, r.packets), depth, packet);
      }
    }
  }

  // ----- buf: one packet

  datatype Cell = Cell(valid: bool, packet: int)

  function CellContents(r: Cell): seq<int> { if r.valid then [r.packet] else [] }

  function CellStep(r: Cell, control: Control, push: bool, pop: bool, packet: int): Cell {
    if control == Reset then Cell(false, 0)
    else if control == Clear || control == Drop then r.(valid := false)
    else if push then Cell(true, packet)
    else if pop then r.(valid := false)
    else r
  }

  /** Running, a cell is a queue of one that can be refilled while it is emptied; anything else empties it. */
  lemma CellIsQueue(r: Cell, control: Control, push: bool, pop: bool, packet: int)
    requires (push ==> !r.valid || pop) && (pop ==> r.valid)
    ensures var s := CellContents(r);
            CellContents(CellStep(r, control, push, pop, packet)) ==
            if control == Run then (if pop then s[1..] else s) + if push then [packet] else [] else []
  {
  }

  // ----- the registers behind a signal

  datatype Registers = OneCell(cell: Cell) | InRing(ring: Ring)

  predicate RegistersOk(k: Kind, depth: nat, r: Registers) {
    match r
    case OneCell(_) => k == Buf
    case InRing(ring) => (k == Fifo || k == Skid) && Capacity(k, depth) >= 1 && RingOk(ring, Capacity(k, depth))
  }

  function Contents(k: Kind, depth: nat, r: Registers): seq<int>
    requires RegistersOk(k, depth, r)
  {
    match r
    case OneCell(cell) => CellContents(cell)
    case InRing(ring) => RingContents(ring, Capacity(k, depth))
  }

  /** The registers after power-up and reset: a buf has one packet, a skid two, a fifo as many as it is deep. */
  function Fresh(k: Kind, depth: nat): Registers {
    match k
    case Buf => OneCell(Cell(false, 0))
    case Skid => InRing(Ring(0, 0, 0, [0, 0]))
    case _ => InRing(Ring(0, 0, 0, seq(depth, i => 0)))
  }

  /** They are a queue without packets, and have room for a packet until as many are in it. */
  lemma FreshIsEmpty(k: Kind, depth: nat, s: seq<int>)
    requires IsQueue(k) && (k == Fifo ==> depth >= 1)
    ensures RegistersOk(k, depth, Fresh(k, depth)) && Contents(k, depth, Fresh(k, depth)) == []
    ensures Handshakes(k, depth, s, true, false) <==> |s| < match Fresh(k, depth)
                                                            case OneCell(_) => 1
                                                            case InRing(ring) => |ring.packets|
  {
  }

  /** The valid, ready and packet outputs of primitive p, as functions of its registers. */
  ghost predicate Drives(d: Design, p: nat, depth: nat, r: Registers, c: Cycle)
    requires DesignOk(d) && p < |d.primitives| && RegistersOk(d.primitives[p].kind, depth, r)
  {
    match r
    case OneCell(cell) =>
      && (c.outValid(p) <==> cell.valid) && c.packetOut(p) == cell.packet
      && (c.inReady(p) <==> !cell.valid || OutReady(d, p, c))
    case InRing(ring) =>
      && (c.outValid(p) <==> ring.count != 0) && c.packetOut(p) == ring.packets[ring.read]
      && (c.inReady(p) <==> ring.count != Capacity(d.primitives[p].kind, depth))
  }

  /** One clock edge of any primitive. */
  function StepRegisters(k: Kind, depth: nat, r: Registers, control: Control, push: bool, pop: bool, x: int): Registers
    requires RegistersOk(k, depth, r)
  {
    match r
    case OneCell(cell) => OneCell(CellStep(cell, control, push, pop, x))
    case InRing(ring) => InRing(RingStep(ring, Capacity(k, depth), k == Skid, control, push, pop, x))
  }

  /** May push and pop: there is a packet to take, and room, or a cell that is just being emptied. */
  predicate Handshakes(k: Kind, depth: nat, s: seq<int>, push: bool, pop: bool) {
    (pop ==> s != []) && (push ==> |s| < Capacity(k, depth) || (k == Buf && pop))
  }

  /**
   * Running, every primitive is a queue. Reset and clear empty it whatever the handshakes do, and so does discarding,
   * except that a fifo then loses its head only and an empty one goes on running.
   */
  lemma ControlIsQueue(k: Kind, depth: nat, r: Registers, control: Control, push: bool, pop: bool, x: int)
    requires RegistersOk(k, depth, r) && Handshakes(k, depth, Contents(k, depth, r), push, pop)
    ensures var s, next := Contents(k, depth, r), StepRegisters(k, depth, r, control, push, pop, x);
            && RegistersOk(k, depth, next)
            && Contents(k, depth, next) ==
               if control == Reset || control == Clear || (control == Drop && k != Fifo) then []
               else if control == Drop && s != [] then s[1..]
               else (if pop then s[1..] else s) + if push then [x] else []
  {
    match r
    case OneCell(cell) => CellIsQueue(cell, control, push, pop, x);
    case InRing(ring) => RingIsQueue(ring, Capacity(k, depth), k == Skid, control, push, pop, x);
  }

  ghost function NextRegisters(d: Design, p: nat, depth: nat, r: Registers, c: Cycle): Registers
    requires DesignOk(d) && p < |d.primitives| && RegistersOk(d.primitives[p].kind, depth, r)
  {
    StepRegisters(d.primitives[p].kind, depth, r, Run, InFires(d, p, c), OutFires(d, p, c), PacketFrom(d, p, 0, c))
  }

  /** Driven by its registers, a signal's wires are those of the queue it holds, and a clock edge steps that queue. */
  lemma RegistersAreQueue(d: Design, p: nat, depth: nat, r: Registers, c: Cycle)
    requires DesignOk(d) && p < |d.primitives| && RegistersOk(d.primitives[p].kind, depth, r) && Drives(d, p, depth, r, c)
    ensures var k, s := d.primitives[p].kind, Contents(d.primitives[p].kind, depth, r);
            && WiresOk(d, p, depth, s, c) && |s| <= Capacity(k, depth)
            && RegistersOk(k, depth, NextRegisters(d, p, depth, r, c))
            && Contents(k, depth, NextRegisters(d, p, depth, r, c)) == NextContents(d, p, s, c)
  {
    hide OutReady, InValid, PacketFrom;
    var k := d.primitives[p].kind;
    if r.InRing? {
      RingIsQueue(r.ring, Capacity(k, depth), k == Skid, Run, InFires(d, p, c), OutFires(d, p, c), PacketFrom(d, p, 0, c));
      if r.ring.count != 0 {
        PopRemoves(r.ring, Capacity(k, depth));
      }
    }
  }

  /** The registers drive the wires in every cycle, and sharing groups stay exclusive. */
  ghost predicate Driven(d: Design, p: nat, depth: nat, r: Registers, cs: seq<Cycle>)
    requires DesignOk(d) && p < |d.primitives| && RegistersOk(d.primitives[p].kind, depth, r)
    decreases |cs|
  {
    cs != [] ==>
      && Drives(d, p, depth, r, cs[0]) && Exclusive(d, cs[0])
      && RegistersOk(d.primitives[p].kind, depth, NextRegisters(d, p, depth, r, cs[0]))
      && Driven(d, p, depth, NextRegisters(d, p, depth, r, cs[0]), cs[1..])
  }

  ghost function Last(d: Design, p: nat, depth: nat, r: Registers, cs: seq<Cycle>): (last: Registers)
    requires DesignOk(d) && p < |d.primitives| && RegistersOk(d.primitives[p].kind, depth, r) && Driven(d, p, depth, r, cs)
    ensures RegistersOk(d.primitives[p].kind, depth, last)
    decreases |cs|
  {
    if cs == [] then r else Last(d, p, depth, NextRegisters(d, p, depth, r, cs[0]), cs[1..])
  }

  lemma {:induction false} RunIsQueue(d: Design, p: nat, depth: nat, r: Registers, cs: seq<Cycle>)
    requires DesignOk(d) && p < |d.primitives| && RegistersOk(d.primitives[p].kind, depth, r) && Driven(d, p, depth, r, cs)
    ensures var k := d.primitives[p].kind;
            && RunOk(d, p, depth, Contents(k, depth, r), cs)
            && After(d, p, Contents(k, depth, r), cs) == Contents(k, depth, Last(d, p, depth, r, cs))
    decreases |cs|
  {
    hide Drives, WiresOk, Exclusive, NextContents, NextRegisters, RegistersOk, Contents;
    if cs != [] {
      RegistersAreQueue(d, p, depth, r, cs[0]);
      RunIsQueue(d, p, depth, NextRegisters(d, p, depth, r, cs[0]), cs[1..]);
    }
  }

  /**
   * Over every run of the registers: what groups wrote is, in order, what groups read followed by what the registers
   * still hold, after what they held before.
   */
  lemma RegistersConserve(d: Design, p: nat, depth: nat, r: Registers, cs: seq<Cycle>)
    requires DesignOk(d) && p < |d.primitives| && RegistersOk(d.primitives[p].kind, depth, r) && Driven(d, p, depth, r, cs)
    ensures var k := d.primitives[p].kind;
            Contents(k, depth, r) + Produced(d, p, cs)
            == Consumed(d, p, cs) + Contents(k, depth, Last(d, p, depth, r, cs))
  {
    var k := d.primitives[p].kind;
    assert IsQueue(k) && |Contents(k, depth, r)| <= Capacity(k, depth);
    hide RegistersOk, Contents, Driven, RunOk;
    RunIsQueue(d, p, depth, r, cs);
    TokensAreConserved(d, p, depth, Contents(k, depth, r), cs);
  }
}
