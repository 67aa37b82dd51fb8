/** The generator and the clocked network together: what a planned connection delivers, and when. */
module FabricDelivery {
  import opened FabricWords
  import opened FabricTree
  import opened FabricNet
  import opened FabricPlan
  import opened FabricSafety
  import opened FabricRuns
  import opened FabricHandshakes
  import opened FabricLiveness
  import opened FabricLatency

  /** Under every series of inputs the generated fabric has a run of any length from its reset state. */
  lemma PlannedFabricRuns(plan: Plan, connections: seq<Connection>, endpoints: seq<Endpoint>, layout: seq<Span>,
                          x: nat -> Inputs, t: nat)
    requires plan.Planned? && PlanOk(plan, connections, endpoints, layout) && NoReset(plan.fabric, x)
    ensures exists s :: IsRun(plan.fabric, x, s, t)
  {
    FabricWires(plan.fabric, layout);
    RunsExist(plan.fabric, x, t);
  }

  /** The delivered word computed by the generator is the one the network delivers. */
  lemma PlannedWord(plan: Plan, connections: seq<Connection>, endpoints: seq<Endpoint>, layout: seq<Span>, i: nat)
    requires plan.Planned? && PlanOk(plan, connections, endpoints, layout) && i < |connections| && !connections[i].direct
    ensures var f, e := plan.fabric, plan.routes[i].source;
            && e < |f.isSource| && f.isSource[e] && f.destination[e] == plan.routes[i].destination
            && plan.delivered[i] == DeliveredWord(f, layout, e) && Last(f, layout, e) == plan.routes[i].hops + 1
  {
    assert Serves(plan.fabric, endpoints, connections[i], plan.routes[i]);
  }

  /**
   * For every connection list, every run of the generated fabric and every cycle: what connection i's destination has
   * received under the planned delivered word is a prefix of what its source has handed over, and as long as the
   * destinations are ready it has caught up with the source a fixed number of cycles later.
   */
  lemma ConnectionDelivers(plan: Plan, connections: seq<Connection>, endpoints: seq<Endpoint>, layout: seq<Span>, i: nat,
                           x: nat -> Inputs, s: nat -> State, t: nat, delay: nat)
    requires plan.Planned? && PlanOk(plan, connections, endpoints, layout) && i < |connections| && !connections[i].direct
    requires delay == Delay(layout, plan.routes[i].hops + 1) && IsRun(plan.fabric, x, s, t + delay)
    ensures var f, r, word := plan.fabric, plan.routes[i], plan.delivered[i];
            && r.source < |f.isSource| && r.destination < |f.isSource|
            && IsRun(f, x, s, t)
            && Mine(Received(f, x, s, t, r.destination), word) <= HandedOver(f, x, s, t, r.source)
            && (Willing(f, x, t, t + delay) ==>
                  HandedOver(f, x, s, t, r.source) <= Mine(Received(f, x, s, t + delay, r.destination), word))
  {
    hide Sent, Output, HandedOver, Received, Mine, Delay, FabricOk, Willing, IsRun;
    PlannedWord(plan, connections, endpoints, layout, i);
    var f, e, d := plan.fabric, plan.routes[i].source, plan.routes[i].destination;
    SourceDelivers(f, layout, x, s, t, delay, e);
    DestinationIsNoSource(f, layout, e);
    SentIsHandedOver(f, x, s, t, e);
    OutputIsReceived(f, x, s, t, d);
    OutputIsReceived(f, x, s, t + delay, d);
  }

  lemma DestinationIsNoSource(f: Fabric, layout: seq<Span>, e: nat)
    requires FabricOk(f, layout) && e < |f.isSource| && f.isSource[e]
    ensures f.destination[e] < |f.isSource| && !f.isSource[f.destination[e]]
  {
  }

  lemma SourceDelivers(f: Fabric, layout: seq<Span>, x: nat -> Inputs, s: nat -> State, t: nat, delay: nat, e: nat)
    requires FabricOk(f, layout) && e < |f.isSource| && f.isSource[e]
    requires delay == Delay(layout, Last(f, layout, e)) && IsRun(f, x, s, t + delay)
    ensures f.destination[e] < |f.isSource| && IsRun(f, x, s, t)
    ensures Mine(Output(f, x, s, t, f.destination[e]), DeliveredWord(f, layout, e)) <= Sent(f, x, s, t, e)
    ensures Willing(f, x, t, t + delay) ==>
      Sent(f, x, s, t, e) <= Mine(Output(f, x, s, t + delay, f.destination[e]), DeliveredWord(f, layout, e))
  {
    hide Sent, Output, Mine, Waiting, Delay, DeliveredWord, FabricOk, Last;
    ExactlyOnceInOrder(f, layout, x, s, t, e);
    if Willing(f, x, t, t + delay) {
      DeliveredInTime(f, layout, x, s, t, e);
    }
  }
}
