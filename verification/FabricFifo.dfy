/** The two-entry queue used by skids and router inputs. */
module FabricFifo {

  /** Registers of one queue; `count` is a 2-bit register. */
  datatype Fifo<T> = Fifo(count: nat, slot0: T, slot1: T)

  function Contents<T>(f: Fifo<T>): seq<T> {
    if f.count == 0 then [] else if f.count == 1 then [f.slot0] else [f.slot0, f.slot1]
  }

  /** The clocked update of an enabled queue. */
  function Clocked<T>(f: Fifo<T>, push: bool, pop: bool, packet: T): Fifo<T> {
    if push && !pop then
      if f.count == 0 then Fifo((f.count + 1) % 4, packet, f.slot1) else Fifo((f.count + 1) % 4, f.slot0, packet)
    else if !push && pop then
      Fifo((f.count + 3) % 4, if f.count == 2 then f.slot1 else f.slot0, f.slot1)
    else if push && pop then
      if f.count == 2 then Fifo(f.count, f.slot1, packet) else Fifo(f.count, packet, f.slot1)
    else f
  }

  /** Respecting ready and valid, the registers are a queue of at most two entries. */
  lemma ClockedIsQueue<T>(f: Fifo<T>, push: bool, pop: bool, packet: T)
    requires f.count <= 2 && (push ==> f.count != 2) && (pop ==> f.count != 0)
    ensures Clocked(f, push, pop, packet).count <= 2
    ensures Contents(Clocked(f, push, pop, packet))
         == (if pop then Contents(f)[1..] else Contents(f)) + (if push then [packet] else [])
  {
  }
}
