/** From a connection list to a generated fabric: endpoints, topology, path words, delivered words and their checks. */
module FabricPlan {
  import opened Numbers
  import opened FabricWords
  import opened FabricTree
  import opened FabricRoute
  import opened FabricTrace
  import opened FabricBuild
  import opened FabricNet
  import opened FabricSafety

  /** Source handles and destination ports are identified by numbers in place of their names. */
  datatype Connection = Connection(source: nat, destination: nat, direct: bool)

  datatype Endpoint = SourceEnd(name: nat) | DestinationEnd(name: nat)

  /** What validate_fabric has checked: every source handle is bound once, direct destinations are not shared. */
  predicate Validated(connections: seq<Connection>) {
    forall i, j :: 0 <= i < j < |connections| ==>
      && connections[i].source != connections[j].source
      && (connections[i].destination == connections[j].destination ==> !connections[i].direct && !connections[j].direct)
  }

  ghost predicate Mentions(connections: seq<Connection>, endpoint: Endpoint) {
    exists i :: 0 <= i < |connections| && !connections[i].direct
      && (endpoint == SourceEnd(connections[i].source) || endpoint == DestinationEnd(connections[i].destination))
  }

  /** A list of exactly the routed endpoints, in any order, each once. */
  ghost predicate Lists(connections: seq<Connection>, endpoints: seq<Endpoint>) {
    && (forall i, j :: 0 <= i < j < |endpoints| ==> endpoints[i] != endpoints[j])
    && (forall endpoint :: endpoint in endpoints <==> Mentions(connections, endpoint))
  }

  /** add_endpoint: an endpoint already listed is not listed again. */
  method AddEndpoint(endpoints: seq<Endpoint>, endpoint: Endpoint) returns (longer: seq<Endpoint>)
    requires forall i, j :: 0 <= i < j < |endpoints| ==> endpoints[i] != endpoints[j]
    ensures forall i, j :: 0 <= i < j < |longer| ==> longer[i] != longer[j]
    ensures forall e :: e in longer <==> e in endpoints || e == endpoint
  {
    for index := 0 to |endpoints|
      invariant endpoint !in endpoints[..index]
    {
      if endpoints[index] == endpoint {
        return endpoints;
      }
    }
    assert endpoints[..|endpoints|] == endpoints;
    longer := endpoints + [endpoint];
  }

  method CollectEndpoints(connections: seq<Connection>) returns (endpoints: seq<Endpoint>)
    ensures Lists(connections, endpoints)
  {
    endpoints := [];
    for index := 0 to |connections|
      invariant Lists(connections[..index], endpoints)
    {
      var connection := connections[index];
      ghost var before := connections[..index];
      assert connections[..index + 1] == before + [connection];
      MentionsMore(before, connection);
      if !connection.direct {
        endpoints := AddEndpoint(endpoints, SourceEnd(connection.source));
        endpoints := AddEndpoint(endpoints, DestinationEnd(connection.destination));
      }
    }
    assert connections[..|connections|] == connections;
  }

  lemma MentionsMore(connections: seq<Connection>, connection: Connection)
    ensures forall endpoint :: Mentions(connections + [connection], endpoint) <==>
      || Mentions(connections, endpoint)
      || (!connection.direct && (endpoint == SourceEnd(connection.source) || endpoint == DestinationEnd(connection.destination)))
  {
    var all := connections + [connection];
    forall endpoint
      ensures Mentions(connections, endpoint) ==> Mentions(all, endpoint)
      ensures !connection.direct && (endpoint == SourceEnd(connection.source) || endpoint == DestinationEnd(connection.destination))
        ==> Mentions(all, endpoint)
    {
      assert all[|connections|] == connection;
      if Mentions(connections, endpoint) {
        var i :| 0 <= i < |connections| && !connections[i].direct
          && (endpoint == SourceEnd(connections[i].source) || endpoint == DestinationEnd(connections[i].destination));
        assert all[i] == connections[i];
      }
    }
  }

  /** endpoint_index: the lookup that cannot fail for a routed connection. */
  method EndpointIndex(endpoints: seq<Endpoint>, endpoint: Endpoint) returns (index: nat)
    requires endpoint in endpoints
    ensures index < |endpoints| && endpoints[index] == endpoint
  {
    index := 0;
    while endpoints[index] != endpoint
      invariant index < |endpoints| && endpoint in endpoints[index..]
      decreases |endpoints| - index
    {
      index := index + 1;
    }
  }

  // ----- routing all connections

  /** Connection `c` runs from endpoint `s` to endpoint `d`. */
  ghost predicate Joins(endpoints: seq<Endpoint>, c: Connection, s: nat, d: nat) {
    && s < |endpoints| && d < |endpoints|
    && endpoints[s] == SourceEnd(c.source) && endpoints[d] == DestinationEnd(c.destination)
  }

  /** The words written for one connection once the width of the fabric is known. */
  datatype Routed = Routed(source: nat, destination: nat, word: nat, hops: nat)

  ghost predicate RoutedOk(t: Topology, layout: seq<Span>, endpoints: seq<Endpoint>, c: Connection, r: Routed)
    requires IsTree(t, layout) && |t.endpointRouter| == |endpoints|
  {
    && Joins(endpoints, c, r.source, r.destination)
    && r.hops == |Route(t, layout, r.source, r.destination)| <= 64 && r.word < Pow2(r.hops)
    && Bits(r.word, r.hops) == Turns(Route(t, layout, r.source, r.destination))
  }

  lemma ConnectionEnds(connections: seq<Connection>, endpoints: seq<Endpoint>, index: nat)
    requires Lists(connections, endpoints) && index < |connections| && !connections[index].direct
    ensures SourceEnd(connections[index].source) in endpoints && DestinationEnd(connections[index].destination) in endpoints
  {
    assert Mentions(connections, SourceEnd(connections[index].source));
    assert Mentions(connections, DestinationEnd(connections[index].destination));
  }

  /** route_connection for every routed connection, and the widest path; fails only above 64 hops. */
  method RouteAll(t: Topology, ghost layout: seq<Span>, connections: seq<Connection>, endpoints: seq<Endpoint>)
    returns (ok: bool, routes: seq<Routed>, width: nat)
    requires IsTree(t, layout) && |t.endpointRouter| == |endpoints| && Lists(connections, endpoints)
    ensures !ok ==> exists s, d :: 0 <= s < |endpoints| && 0 <= d < |endpoints| && s != d && |Route(t, layout, s, d)| > 64
    ensures ok ==> |routes| == |connections| && width <= 64
    ensures ok ==> forall i :: 0 <= i < |connections| && !connections[i].direct ==>
      RoutedOk(t, layout, endpoints, connections[i], routes[i]) && routes[i].hops <= width
  {
    routes, width, ok := [], 0, true;
    for index := 0 to |connections|
      invariant |routes| == index && width <= 64
      invariant forall i :: 0 <= i < index && !connections[i].direct ==>
        RoutedOk(t, layout, endpoints, connections[i], routes[i]) && routes[i].hops <= width
    {
      var connection := connections[index];
      if connection.direct {
        routes := routes + [Routed(0, 0, 0, 0)];
      } else {
        ConnectionEnds(connections, endpoints, index);
        var s := EndpointIndex(endpoints, SourceEnd(connection.source));
        var d := EndpointIndex(endpoints, DestinationEnd(connection.destination));
        var result := RouteConnection(t, layout, s, d);
        if result.TooLong? {
          return false, [], 0;
        }
        routes := routes + [Routed(s, d, result.word, result.hops)];
        if result.hops > width {
          width := result.hops;
        }
      }
    }
  }

  /** A routed connection's padded word carries its route. */
  lemma RoutedCarries(t: Topology, layout: seq<Span>, endpoints: seq<Endpoint>, c: Connection, r: Routed, width: nat)
    requires IsTree(t, layout) && |t.endpointRouter| == |endpoints|
    requires RoutedOk(t, layout, endpoints, c, r) && r.hops <= width
    ensures r.source != r.destination && Carries(r.word, width, Route(t, layout, r.source, r.destination))
    ensures r.hops >= 1
  {
    PaddedBits(r.word, r.hops, width);
  }

  /** The generator's own checks on its routes. */
  method CheckRoutes(t: Topology, ghost layout: seq<Span>, connections: seq<Connection>, endpoints: seq<Endpoint>,
                     routes: seq<Routed>, width: nat)
    returns (ok: bool, delivered: seq<nat>)
    requires IsTree(t, layout) && |t.endpointRouter| == |endpoints| && Validated(connections) && Lists(connections, endpoints)
    requires |routes| == |connections| && 0 < width <= 64
    requires forall i :: 0 <= i < |connections| && !connections[i].direct ==>
      RoutedOk(t, layout, endpoints, connections[i], routes[i]) && routes[i].hops <= width
    ensures ok && |delivered| == |connections|
    ensures forall i :: 0 <= i < |connections| && !connections[i].direct ==>
      delivered[i] == WordAfter(routes[i].word, width, routes[i].hops)
  {
    delivered := [];
    for index := 0 to |connections|
      invariant |delivered| == index
      invariant forall i :: 0 <= i < index && !connections[i].direct ==>
        delivered[i] == WordAfter(routes[i].word, width, routes[i].hops)
    {
      var word := 0;
      if !connections[index].direct {
        RoutedCarries(t, layout, endpoints, connections[index], routes[index], width);
        word := RotateRightWord(routes[index].word, width, routes[index].hops);
      }
      delivered := delivered + [word];
    }
    for index := 0 to |connections| {
      if !connections[index].direct {
        var r := routes[index];
        RoutedCarries(t, layout, endpoints, connections[index], r, width);
        var forward := TraceForward(t, layout, r.source, r.word, width, r.destination);
        var reverse := TraceReverse(t, layout, r.destination, delivered[index], width, r.source, r.word);
        if forward != Reached(r.destination) || reverse != Reached(r.source) {
          return false, delivered;
        }
        for previous := 0 to index {
          if !connections[previous].direct
            && connections[previous].destination == connections[index].destination && delivered[previous] == delivered[index] {
            SameEndpoint(endpoints, routes[previous].destination, r.destination);
            NoCollision(t, layout, endpoints, connections, routes, width, previous, index);
            return false, delivered;
          }
        }
      }
    }
    return true, delivered;
  }

  lemma NoCollision(t: Topology, layout: seq<Span>, endpoints: seq<Endpoint>, connections: seq<Connection>, routes: seq<Routed>,
                    width: nat, i: nat, j: nat)
    requires IsTree(t, layout) && |t.endpointRouter| == |endpoints| && Validated(connections)
    requires |routes| == |connections| && 0 < width && i < j < |connections| && !connections[i].direct && !connections[j].direct
    requires RoutedOk(t, layout, endpoints, connections[i], routes[i]) && routes[i].hops <= width
    requires RoutedOk(t, layout, endpoints, connections[j], routes[j]) && routes[j].hops <= width
    requires routes[i].destination == routes[j].destination
    ensures WordAfter(routes[i].word, width, routes[i].hops) != WordAfter(routes[j].word, width, routes[j].hops)
  {
    var a, b := routes[i], routes[j];
    RoutedCarries(t, layout, endpoints, connections[i], a, width);
    RoutedCarries(t, layout, endpoints, connections[j], b, width);
    RouteShape(t, layout, a.source, a.destination);
    RouteShape(t, layout, b.source, b.destination);
    if WordAfter(a.word, width, a.hops) == WordAfter(b.word, width, b.hops) {
      DeliveredWordsDiffer(t, width, Route(t, layout, a.source, a.destination), a.source, a.word,
                           Route(t, layout, b.source, b.destination), b.source, b.word, a.destination);
    }
  }

  // ----- the whole generator

  datatype Plan = DirectOnly | TooManyHops | Failed | Planned(fabric: Fabric, routes: seq<Routed>, delivered: seq<nat>)

  /** Every routed connection has its source endpoint lead to its destination endpoint with its word. */
  ghost predicate Serves(f: Fabric, endpoints: seq<Endpoint>, c: Connection, r: Routed) {
    && Joins(endpoints, c, r.source, r.destination)
    && |f.isSource| == |f.destination| == |f.word| == |endpoints|
    && f.isSource[r.source] && f.destination[r.source] == r.destination && f.word[r.source] == r.word
  }

  /** Writing the per-endpoint tables; each source endpoint belongs to one connection. */
  method Tabulate(t: Topology, ghost layout: seq<Span>, connections: seq<Connection>, endpoints: seq<Endpoint>,
                  routes: seq<Routed>, width: nat)
    returns (f: Fabric)
    requires IsTree(t, layout) && |t.endpointRouter| == |endpoints| && Validated(connections) && Lists(connections, endpoints)
    requires |routes| == |connections| && 0 < width
    requires forall i :: 0 <= i < |connections| && !connections[i].direct ==>
      RoutedOk(t, layout, endpoints, connections[i], routes[i]) && routes[i].hops <= width
    ensures f.topology == t && f.width == width && FabricOk(f, layout)
    ensures forall i :: 0 <= i < |connections| && !connections[i].direct ==> Serves(f, endpoints, connections[i], routes[i])
  {
    var n := |endpoints|;
    var isSource := seq(n, e requires 0 <= e < n => endpoints[e].SourceEnd?);
    var destination: seq<nat> := seq(n, e => 0);
    var word: seq<nat> := seq(n, e => 0);
    for index := 0 to |connections|
      invariant |destination| == |word| == n
      invariant forall i :: 0 <= i < index && !connections[i].direct ==>
        destination[routes[i].source] == routes[i].destination && word[routes[i].source] == routes[i].word
    {
      if !connections[index].direct {
        var r := routes[index];
        assert RoutedOk(t, layout, endpoints, connections[index], r);
        forall i | 0 <= i < index && !connections[i].direct
          ensures routes[i].source != r.source
        {
          assert RoutedOk(t, layout, endpoints, connections[i], routes[i]);
        }
        destination, word := destination[r.source := r.destination], word[r.source := r.word];
      }
    }
    f := Fabric(t, isSource, destination, word, width);
    forall i | 0 <= i < |connections| && !connections[i].direct
      ensures Serves(f, endpoints, connections[i], routes[i])
    {
      assert RoutedOk(t, layout, endpoints, connections[i], routes[i]);
    }
    ServingIsOk(f, layout, connections, endpoints, routes);
  }

  /** Tables that serve every routed connection make a fabric: every source endpoint belongs to one of them. */
  lemma ServingIsOk(f: Fabric, layout: seq<Span>, connections: seq<Connection>, endpoints: seq<Endpoint>, routes: seq<Routed>)
    requires IsTree(f.topology, layout) && |f.topology.endpointRouter| == |endpoints| && Lists(connections, endpoints)
    requires |routes| == |connections| && 0 < f.width && |f.isSource| == |f.destination| == |f.word| == |endpoints|
    requires forall e :: 0 <= e < |endpoints| ==> f.isSource[e] == endpoints[e].SourceEnd?
    requires forall i :: 0 <= i < |connections| && !connections[i].direct ==>
      && Serves(f, endpoints, connections[i], routes[i])
      && RoutedOk(f.topology, layout, endpoints, connections[i], routes[i]) && routes[i].hops <= f.width
    ensures FabricOk(f, layout)
  {
    hide IsTree;
    forall e | 0 <= e < |endpoints| && f.isSource[e]
      ensures f.destination[e] < |endpoints| && !f.isSource[f.destination[e]]
      ensures Carries(f.word[e], f.width, Route(f.topology, layout, e, f.destination[e]))
    {
      assert endpoints[e] in endpoints;
      var i :| 0 <= i < |connections| && !connections[i].direct
        && (endpoints[e] == SourceEnd(connections[i].source) || endpoints[e] == DestinationEnd(connections[i].destination));
      RoutedCarries(f.topology, layout, endpoints, connections[i], routes[i], f.width);
      SameEndpoint(endpoints, e, routes[i].source);
    }
  }

  lemma SameEndpoint(endpoints: seq<Endpoint>, a: nat, b: nat)
    requires a < |endpoints| && b < |endpoints| && endpoints[a] == endpoints[b]
    requires forall i, j :: 0 <= i < j < |endpoints| ==> endpoints[i] != endpoints[j]
    ensures a == b
  {
  }

  /** The generated fabric has one router less than endpoints, and serves every routed connection by its tree route. */
  ghost predicate PlanOk(plan: Plan, connections: seq<Connection>, endpoints: seq<Endpoint>, layout: seq<Span>)
    requires plan.Planned?
  {
    && FabricOk(plan.fabric, layout) && |plan.fabric.topology.ports| == |endpoints| - 1
    && |plan.routes| == |plan.delivered| == |connections|
    && forall i :: 0 <= i < |connections| && !connections[i].direct ==>
         && Serves(plan.fabric, endpoints, connections[i], plan.routes[i])
         && plan.delivered[i] == WordAfter(plan.routes[i].word, plan.fabric.width, plan.routes[i].hops)
         && |endpoints| == |plan.fabric.topology.endpointRouter|
         && plan.routes[i].hops == |Route(plan.fabric.topology, layout, plan.routes[i].source, plan.routes[i].destination)|
  }

  /**
   * build_fabric_topology: for any order of the endpoints the generator succeeds, apart from routes of more
   * than 64 hops, which need more than 2^32 endpoints; its self-checks never fail.
   */
  method BuildFabric(connections: seq<Connection>, endpoints: seq<Endpoint>) returns (plan: Plan, ghost layout: seq<Span>)
    requires Validated(connections) && Lists(connections, endpoints)
    ensures plan != Failed
    ensures plan.DirectOnly? <==> forall i :: 0 <= i < |connections| ==> connections[i].direct
    ensures plan.TooManyHops? ==> |endpoints| > Pow2(32)
    ensures plan.Planned? ==> PlanOk(plan, connections, endpoints, layout)
  {
    hide PlanOk, FabricOk, IsTree, RoutedOk, Serves;
    layout := [];
    if |endpoints| == 0 {
      forall i | 0 <= i < |connections|
        ensures connections[i].direct
      {
        if !connections[i].direct {
          ConnectionEnds(connections, endpoints, i);
        }
      }
      return DirectOnly, layout;
    }
    ghost var routed := SomeRouted(connections, endpoints);
    var built := new FabricTopology.Build(|endpoints|);
    layout := built.layout;
    var t := built.View();
    var ok, routes, width := RouteAll(t, layout, connections, endpoints);
    if !ok {
      FewEndpointsFewHops(t, layout, |endpoints|);
      return TooManyHops, layout;
    }
    RoutedCarries(t, layout, endpoints, connections[routed], routes[routed], width);
    var delivered;
    ok, delivered := CheckRoutes(t, layout, connections, endpoints, routes, width);
    if !ok {
      return Failed, layout;
    }
    var f := Tabulate(t, layout, connections, endpoints, routes, width);
    PlanIsOk(f, routes, delivered, connections, endpoints, layout);
    return Planned(f, routes, delivered), layout;
  }

  /** The generator from the connections alone: it lists their endpoints, sorts them and builds the fabric. */
  method PlanFabric(connections: seq<Connection>, sort: seq<Endpoint> -> seq<Endpoint>)
    returns (plan: Plan, ghost endpoints: seq<Endpoint>, ghost layout: seq<Span>)
    requires Validated(connections) && forall es :: multiset(sort(es)) == multiset(es)
    ensures Lists(connections, endpoints) && plan != Failed
    ensures plan.DirectOnly? <==> forall i :: 0 <= i < |connections| ==> connections[i].direct
    ensures plan.TooManyHops? ==> |endpoints| > Pow2(32)
    ensures plan.Planned? ==> PlanOk(plan, connections, endpoints, layout)
  {
    hide PlanOk, Validated;
    var listed := CollectEndpoints(connections);
    var sorted := sort(listed);
    ListsInAnyOrder(connections, listed, sorted);
    plan, layout := BuildFabric(connections, sorted);
    endpoints := sorted;
  }

  lemma ListsInAnyOrder(connections: seq<Connection>, listed: seq<Endpoint>, sorted: seq<Endpoint>)
    requires Lists(connections, listed) && multiset(sorted) == multiset(listed)
    ensures Lists(connections, sorted)
  {
    forall endpoint
      ensures endpoint in sorted <==> endpoint in listed
    {
      assert endpoint in sorted <==> endpoint in multiset(sorted);
      assert endpoint in listed <==> endpoint in multiset(listed);
    }
    forall i, j | 0 <= i < j < |sorted|
      ensures sorted[i] != sorted[j]
    {
      ListedOnce(listed, sorted[i]);
      if sorted[i] == sorted[j] {
        TwiceCounts(sorted, i, j);
      }
    }
  }

  lemma {:induction false} ListedOnce(listed: seq<Endpoint>, endpoint: Endpoint)
    requires forall i, j :: 0 <= i < j < |listed| ==> listed[i] != listed[j]
    ensures multiset(listed)[endpoint] <= 1
  {
    if listed != [] {
      var front, last := listed[..|listed| - 1], listed[|listed| - 1];
      ListedOnce(front, endpoint);
      assert listed == front + [last] && last !in front;
      assert endpoint in multiset(front) <==> endpoint in front;
    }
  }

  lemma TwiceCounts(sorted: seq<Endpoint>, i: nat, j: nat)
    requires i < j < |sorted| && sorted[i] == sorted[j]
    ensures multiset(sorted)[sorted[i]] >= 2
  {
    assert sorted == sorted[..j] + sorted[j..] && sorted[i] == sorted[..j][i] && sorted[j] == sorted[j..][0];
    assert sorted[i] in multiset(sorted[..j]) && sorted[i] in multiset(sorted[j..]);
  }

  lemma PlanIsOk(f: Fabric, routes: seq<Routed>, delivered: seq<nat>, connections: seq<Connection>,
                 endpoints: seq<Endpoint>, layout: seq<Span>)
    requires FabricOk(f, layout) && |f.topology.ports| == |endpoints| - 1 && |f.topology.endpointRouter| == |endpoints|
    requires |routes| == |delivered| == |connections|
    requires forall i :: 0 <= i < |connections| && !connections[i].direct ==>
      && Serves(f, endpoints, connections[i], routes[i])
      && RoutedOk(f.topology, layout, endpoints, connections[i], routes[i])
      && delivered[i] == WordAfter(routes[i].word, f.width, routes[i].hops)
    ensures PlanOk(Planned(f, routes, delivered), connections, endpoints, layout)
  {
  }

  lemma SomeRouted(connections: seq<Connection>, endpoints: seq<Endpoint>) returns (index: nat)
    requires Lists(connections, endpoints) && |endpoints| > 0
    ensures index < |connections| && !connections[index].direct && |endpoints| >= 2
  {
    assert endpoints[0] in endpoints;
    index :| index < |connections| && !connections[index].direct
      && (endpoints[0] == SourceEnd(connections[index].source) || endpoints[0] == DestinationEnd(connections[index].destination));
    ConnectionEnds(connections, endpoints, index);
  }

  /** The 64-bit path limit is out of reach of int-indexed endpoints. */
  lemma FewEndpointsFewHops(t: Topology, layout: seq<Span>, count: nat)
    requires IsTree(t, layout) && |t.endpointRouter| == count
    requires exists top: nat :: IsCeilLog2(top, count) && forall r :: 0 <= r < |layout| ==> layout[r].height <= top
    ensures count <= Pow2(32) ==>
      forall s, d :: 0 <= s < count && 0 <= d < count && s != d ==> |Route(t, layout, s, d)| <= 63
  {
    var top: nat :| IsCeilLog2(top, count) && forall r :: 0 <= r < |layout| ==> layout[r].height <= top;
    if count <= Pow2(32) {
      if top > 32 {
        Pow2Monotone(32, top - 1);
      }
      forall s, d | 0 <= s < count && 0 <= d < count && s != d
        ensures |Route(t, layout, s, d)| <= 63
      {
        HopBound(t, layout, s, d, top);
      }
    }
  }
}
