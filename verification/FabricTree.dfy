/** The router tree of a routed fabric: 3-port routers over a row of endpoints. */
module FabricTree {

  /** What a router port is wired to. */
  datatype Attachment =
    | Dummy
    | Link(router: nat, port: nat)
    | Terminal(endpoint: nat)

  datatype Topology = Topology(
    ports: seq<seq<Attachment>>,
    endpointRouter: seq<int>,
    endpointPort: seq<int>)

  /** The endpoints below a router: [lo, mid) behind port 1 and [mid, hi) behind port 2. */
  datatype Span = Span(lo: nat, mid: nat, hi: nat, height: nat)

  function PortLo(span: Span, port: nat): nat { if port == 1 then span.lo else span.mid }

  function PortHi(span: Span, port: nat): nat { if port == 1 then span.mid else span.hi }

  /** Port `port` of router `r` leads down to exactly the endpoints of its half of the span. */
  ghost predicate ChildOk(t: Topology, layout: seq<Span>, r: nat, port: nat)
    requires |layout| == |t.ports| && |t.endpointRouter| == |t.endpointPort|
  {
    && 1 <= port <= 2 && r < |t.ports| && |t.ports[r]| == 3
    && var lo, hi := PortLo(layout[r], port), PortHi(layout[r], port);
    && lo < hi <= |t.endpointRouter|
    && match t.ports[r][port]
       case Dummy => false
       case Terminal(e) =>
         && e == lo && hi == lo + 1 && t.endpointRouter[e] == r && t.endpointPort[e] == port
       case Link(c, q) =>
         && q == 0 && c < r && |t.ports[c]| == 3 && t.ports[c][0] == Link(r, port)
         && layout[c].lo == lo && layout[c].hi == hi && layout[c].height < layout[r].height
  }

  ghost predicate ParentOk(t: Topology, r: nat)
    requires r < |t.ports|
  {
    && |t.ports[r]| == 3 && t.ports[r][0].Link?
    && var p, q := t.ports[r][0].router, t.ports[r][0].port;
    && r < p < |t.ports| && 1 <= q <= 2 && |t.ports[p]| == 3 && t.ports[p][q] == Link(r, 0)
  }

  ghost predicate EndpointOk(t: Topology, e: nat)
    requires e < |t.endpointRouter| == |t.endpointPort|
  {
    && 0 <= t.endpointRouter[e] < |t.ports| && 1 <= t.endpointPort[e] <= 2
    && |t.ports[t.endpointRouter[e]]| == 3
    && t.ports[t.endpointRouter[e]][t.endpointPort[e]] == Terminal(e)
  }

  /** A full binary tree over the endpoints, children numbered below their parents. */
  ghost predicate IsTree(t: Topology, layout: seq<Span>)
  {
    && |layout| == |t.ports| >= 1
    && |t.endpointRouter| == |t.endpointPort| == |t.ports| + 1
    && (forall r :: 0 <= r < |t.ports| ==> ChildOk(t, layout, r, 1) && ChildOk(t, layout, r, 2))
    && (forall r :: 0 <= r < |t.ports| ==> layout[r].lo < layout[r].mid < layout[r].hi && layout[r].height >= 1)
    && (forall r :: 0 <= r < |t.ports| - 1 ==> ParentOk(t, r))
    && (forall e :: 0 <= e < |t.endpointRouter| ==> EndpointOk(t, e))
    && var root := |t.ports| - 1;
    && |t.ports[root]| == 3 && t.ports[root][0] == Dummy && layout[root].lo == 0 && layout[root].hi == |t.endpointRouter|
  }

  /** The port of router `r` that leads towards endpoint `e`. */
  function Toward(layout: seq<Span>, r: nat, e: nat): (port: nat)
    requires r < |layout|
    ensures port < 3
  {
    if layout[r].lo <= e < layout[r].mid then 1
    else if layout[r].mid <= e < layout[r].hi then 2
    else 0
  }

  /** Queues of packets going down come before queues of packets going up, ordered towards the endpoints. */
  function Rank(routers: nat, r: nat, inPort: nat): nat
    requires r < routers
  {
    if inPort == 0 then r else 2 * routers - r
  }

  /** One router of a route: entered by `inPort`, left by `outPort`. */
  datatype Hop = Hop(router: nat, inPort: nat, outPort: nat)

  /** Following the port towards `d` never meets the dummy port or a wrong endpoint, and never turns back. */
  lemma TowardAdvances(t: Topology, layout: seq<Span>, r: nat, inPort: nat, d: nat)
    requires IsTree(t, layout) && r < |t.ports| && d < |t.endpointRouter| && inPort < 3
    requires Toward(layout, r, d) != inPort
    ensures |t.ports[r]| == 3
    ensures match t.ports[r][Toward(layout, r, d)]
            case Dummy => false
            case Terminal(e) => e == d && t.endpointRouter[d] == r && t.endpointPort[d] == Toward(layout, r, d)
            case Link(n, q) =>
              && n < |t.ports| && q < 3 && |t.ports[n]| == 3
              && Toward(layout, n, d) != q
              && t.ports[n][q] == Link(r, Toward(layout, r, d))
              && Rank(|t.ports|, n, q) < Rank(|t.ports|, r, inPort)
  {
    assert ChildOk(t, layout, r, 1) && ChildOk(t, layout, r, 2);
    if Toward(layout, r, d) == 0 {
      if r < |t.ports| - 1 {
        assert ParentOk(t, r);
        var p := t.ports[r][0].router;
        assert ChildOk(t, layout, p, 1) && ChildOk(t, layout, p, 2);
      }
    }
  }

  /** Router `low` is the subtree behind port `port` of router `high`. */
  ghost predicate Below(layout: seq<Span>, low: nat, high: nat, port: nat)
    requires low < |layout| && high < |layout|
  {
    && low < high && layout[low].height < layout[high].height
    && layout[low].lo == PortLo(layout[high], port) && layout[low].hi == PortHi(layout[high], port)
  }

  /** Linked routers see the same endpoints across their link, the lower router being the one below. */
  lemma LinkSpans(t: Topology, layout: seq<Span>, r: nat, port: nat)
    requires IsTree(t, layout) && r < |t.ports| && port < 3
    requires |t.ports[r]| == 3 && t.ports[r][port].Link?
    ensures var n, q := t.ports[r][port].router, t.ports[r][port].port;
            && n < |t.ports| && q < 3 && |t.ports[n]| == 3 && t.ports[n][q] == Link(r, port)
            && (port == 0 ==> q != 0 && Below(layout, r, n, q))
            && (port != 0 ==> q == 0 && Below(layout, n, r, port))
  {
    if port == 0 {
      assert ParentOk(t, r);
      assert ChildOk(t, layout, t.ports[r][0].router, t.ports[r][0].port);
    } else {
      assert ChildOk(t, layout, r, port);
    }
  }

  /** Every endpoint that is not behind the chosen port is behind the arrival port of the next router. */
  lemma BehindArrival(t: Topology, layout: seq<Span>, r: nat, outPort: nat, s: nat)
    requires IsTree(t, layout) && r < |t.ports| && s < |t.endpointRouter| && outPort < 3
    requires |t.ports[r]| == 3 && t.ports[r][outPort].Link?
    ensures var n, q := t.ports[r][outPort].router, t.ports[r][outPort].port;
            && n < |t.ports| && q < 3 && |t.ports[n]| == 3 && t.ports[n][q] == Link(r, outPort)
            && (Toward(layout, r, s) != outPort <==> Toward(layout, n, s) == q)
  {
    assert ChildOk(t, layout, r, 1) && ChildOk(t, layout, r, 2);
    if outPort == 0 {
      assert ParentOk(t, r);
      var p := t.ports[r][0].router;
      assert ChildOk(t, layout, p, 1) && ChildOk(t, layout, p, 2);
    }
  }

  /** The unique tree route from a router queue to endpoint `d`. */
  ghost function RouteFrom(t: Topology, layout: seq<Span>, r: nat, inPort: nat, d: nat): (route: seq<Hop>)
    requires IsTree(t, layout) && r < |t.ports| && d < |t.endpointRouter| && inPort < 3
    requires Toward(layout, r, d) != inPort
    ensures |route| >= 1 && route[0] == Hop(r, inPort, Toward(layout, r, d))
    decreases Rank(|t.ports|, r, inPort)
  {
    TowardAdvances(t, layout, r, inPort, d);
    var hop := Hop(r, inPort, Toward(layout, r, d));
    match t.ports[r][hop.outPort]
    case Link(n, q) => [hop] + RouteFrom(t, layout, n, q, d)
    case _ => [hop]
  }

  lemma EndpointsDiffer(t: Topology, layout: seq<Span>, s: nat, d: nat)
    requires IsTree(t, layout) && s < |t.endpointRouter| && d < |t.endpointRouter|
    ensures EndpointOk(t, s)
    ensures Toward(layout, t.endpointRouter[s], s) == t.endpointPort[s]
    ensures s != d ==> Toward(layout, t.endpointRouter[s], d) != t.endpointPort[s]
  {
    assert EndpointOk(t, s);
    assert ChildOk(t, layout, t.endpointRouter[s], 1) && ChildOk(t, layout, t.endpointRouter[s], 2);
  }

  /** The route from endpoint `s` to endpoint `d`. */
  ghost function Route(t: Topology, layout: seq<Span>, s: nat, d: nat): (route: seq<Hop>)
    requires IsTree(t, layout) && s < |t.endpointRouter| && d < |t.endpointRouter| && s != d
    ensures |route| >= 1
  {
    EndpointsDiffer(t, layout, s, d);
    RouteFrom(t, layout, t.endpointRouter[s], t.endpointPort[s], d)
  }

  /** Consecutive hops are joined by a link, both ways. */
  ghost predicate Linked(t: Topology, a: Hop, b: Hop)
  {
    && a.router < |t.ports| && a.outPort < |t.ports[a.router]|
    && t.ports[a.router][a.outPort] == Link(b.router, b.inPort)
    && b.router < |t.ports| && b.inPort < |t.ports[b.router]|
    && t.ports[b.router][b.inPort] == Link(a.router, a.outPort)
  }

  /** A hop the routers can take: three different ways in and out of an existing router. */
  ghost predicate HopOk(t: Topology, h: Hop)
  {
    h.router < |t.ports| && |t.ports[h.router]| == 3 && h.inPort < 3 && h.outPort < 3 && h.inPort != h.outPort
  }

  /** A route is a chain of linked turns that ends at its endpoint and visits ever lower ranks. */
  lemma {:induction false} RouteFromShape(t: Topology, layout: seq<Span>, r: nat, inPort: nat, d: nat)
    requires IsTree(t, layout) && r < |t.ports| && d < |t.endpointRouter| && inPort < 3
    requires Toward(layout, r, d) != inPort
    ensures var route := RouteFrom(t, layout, r, inPort, d);
            && (forall i :: 0 <= i < |route| ==> HopOk(t, route[i]))
            && (forall i :: 0 <= i < |route| ==> route[i].outPort == Toward(layout, route[i].router, d))
            && (forall i :: 0 <= i < |route| - 1 ==> Linked(t, route[i], route[i + 1]))
            && t.ports[route[|route| - 1].router][route[|route| - 1].outPort] == Terminal(d)
            && (forall i :: 0 < i < |route| ==>
                 Rank(|t.ports|, route[i].router, route[i].inPort) < Rank(|t.ports|, r, inPort))
    decreases Rank(|t.ports|, r, inPort)
  {
    TowardAdvances(t, layout, r, inPort, d);
    var route := RouteFrom(t, layout, r, inPort, d);
    match t.ports[r][Toward(layout, r, d)]
    case Terminal(e) =>
    case Link(n, q) =>
      RouteFromShape(t, layout, n, q, d);
      var rest := RouteFrom(t, layout, n, q, d);
      assert route == [route[0]] + rest;
      assert forall i :: 0 < i < |route| ==> route[i] == rest[i - 1];
  }

  /** Down a subtree of k endpoints a route makes at most k - 1 hops; overall at most one per router. */
  lemma {:induction false} RouteFromShort(t: Topology, layout: seq<Span>, r: nat, inPort: nat, d: nat)
    requires IsTree(t, layout) && r < |t.ports| && d < |t.endpointRouter| && inPort < 3
    requires Toward(layout, r, d) != inPort
    ensures inPort == 0 ==> |RouteFrom(t, layout, r, inPort, d)| <= layout[r].hi - layout[r].lo - 1
    ensures inPort != 0 ==>
      |RouteFrom(t, layout, r, inPort, d)| <= |t.ports| + 1 - (PortHi(layout[r], inPort) - PortLo(layout[r], inPort))
    decreases Rank(|t.ports|, r, inPort)
  {
    TowardAdvances(t, layout, r, inPort, d);
    assert ChildOk(t, layout, r, 1) && ChildOk(t, layout, r, 2);
    match t.ports[r][Toward(layout, r, d)]
    case Terminal(e) =>
    case Link(n, q) =>
      LinkSpans(t, layout, r, Toward(layout, r, d));
      RouteFromShort(t, layout, n, q, d);
  }

  /** Height bound: down at most the height, up and down at most twice the remaining height. */
  lemma {:induction false} RouteFromLow(t: Topology, layout: seq<Span>, r: nat, inPort: nat, d: nat, top: nat)
    requires IsTree(t, layout) && r < |t.ports| && d < |t.endpointRouter| && inPort < 3
    requires Toward(layout, r, d) != inPort
    requires forall k :: 0 <= k < |layout| ==> layout[k].height <= top
    ensures inPort == 0 ==> |RouteFrom(t, layout, r, inPort, d)| <= layout[r].height
    ensures inPort != 0 ==> |RouteFrom(t, layout, r, inPort, d)| <= 2 * top - layout[r].height
    decreases Rank(|t.ports|, r, inPort)
  {
    TowardAdvances(t, layout, r, inPort, d);
    match t.ports[r][Toward(layout, r, d)]
    case Terminal(e) =>
    case Link(n, q) =>
      LinkSpans(t, layout, r, Toward(layout, r, d));
      RouteFromLow(t, layout, n, q, d, top);
  }

  /** Every route makes at most 2h - 1 hops in a tree of height h, and at most one hop per router. */
  lemma HopBound(t: Topology, layout: seq<Span>, s: nat, d: nat, top: nat)
    requires IsTree(t, layout) && s < |t.endpointRouter| && d < |t.endpointRouter| && s != d
    requires forall k :: 0 <= k < |layout| ==> layout[k].height <= top
    ensures |Route(t, layout, s, d)| <= 2 * top - 1
    ensures |Route(t, layout, s, d)| <= |t.ports|
  {
    EndpointsDiffer(t, layout, s, d);
    RouteFromLow(t, layout, t.endpointRouter[s], t.endpointPort[s], d, top);
    RouteFromShort(t, layout, t.endpointRouter[s], t.endpointPort[s], d);
    assert ChildOk(t, layout, t.endpointRouter[s], t.endpointPort[s]);
  }

  /** The queue entered at hop `i` of the route determines `i`: no queue is visited twice. */
  lemma {:induction false} RouteFromSimple(t: Topology, layout: seq<Span>, r: nat, inPort: nat, d: nat, i: nat, j: nat)
    requires IsTree(t, layout) && r < |t.ports| && d < |t.endpointRouter| && inPort < 3
    requires Toward(layout, r, d) != inPort
    requires i < j < |RouteFrom(t, layout, r, inPort, d)|
    ensures var route := RouteFrom(t, layout, r, inPort, d);
            !(route[i].router == route[j].router && route[i].inPort == route[j].inPort)
    decreases i
  {
    TowardAdvances(t, layout, r, inPort, d);
    RouteFromShape(t, layout, r, inPort, d);
    if i > 0 {
      var next := t.ports[r][Toward(layout, r, d)];
      RouteFromSimple(t, layout, next.router, next.port, d, i - 1, j - 1);
    }
  }

  /** A walk through the routers that never turns back, from hop `i` on, ending at endpoint `d`. */
  ghost predicate IsWalk(t: Topology, walk: seq<Hop>, d: nat)
  {
    && |walk| >= 1
    && (forall i :: 0 <= i < |walk| ==> HopOk(t, walk[i]))
    && (forall i :: 0 <= i < |walk| - 1 ==> Linked(t, walk[i], walk[i + 1]))
    && t.ports[walk[|walk| - 1].router][walk[|walk| - 1].outPort] == Terminal(d)
  }

  lemma WalkTail(t: Topology, walk: seq<Hop>, d: nat)
    requires IsWalk(t, walk, d) && |walk| > 1
    ensures IsWalk(t, walk[1..], d) && Linked(t, walk[0], walk[1]) && HopOk(t, walk[1])
  {
    var rest := walk[1..];
    forall i | 0 <= i < |rest| - 1
      ensures Linked(t, rest[i], rest[i + 1])
    {
      assert Linked(t, walk[i + 1], walk[i + 1 + 1]);
    }
  }

  /** Only the endpoint's own port is wired to it, and that port leads towards it. */
  lemma TerminalIsToward(t: Topology, layout: seq<Span>, r: nat, port: nat)
    requires IsTree(t, layout) && r < |t.ports| && port < 3
    requires |t.ports[r]| == 3 && t.ports[r][port].Terminal?
    ensures port != 0 && t.ports[r][port].endpoint < |t.endpointRouter|
    ensures Toward(layout, r, t.ports[r][port].endpoint) == port
    ensures t.endpointRouter[t.ports[r][port].endpoint] == r && t.endpointPort[t.ports[r][port].endpoint] == port
  {
    assert ChildOk(t, layout, r, 1) && ChildOk(t, layout, r, 2);
    assert r < |t.ports| - 1 ==> ParentOk(t, r);
  }

  /** Whatever way a walk without U-turns leaves a router, its final endpoint lies that way. */
  lemma {:induction false} WalkGoesToward(t: Topology, layout: seq<Span>, walk: seq<Hop>, d: nat)
    requires IsTree(t, layout) && d < |t.endpointRouter| && IsWalk(t, walk, d)
    ensures walk[0].outPort == Toward(layout, walk[0].router, d)
    decreases |walk|
  {
    var h := walk[0];
    assert HopOk(t, h);
    if |walk| == 1 {
      TerminalIsToward(t, layout, h.router, h.outPort);
    } else {
      WalkTail(t, walk, d);
      WalkGoesToward(t, layout, walk[1..], d);
      BehindArrival(t, layout, h.router, h.outPort, d);
    }
  }

  /** There is exactly one walk without U-turns from a queue to an endpoint: the route. */
  lemma {:induction false} WalkIsRoute(t: Topology, layout: seq<Span>, walk: seq<Hop>, d: nat)
    requires IsTree(t, layout) && d < |t.endpointRouter| && IsWalk(t, walk, d)
    ensures walk[0].router < |t.ports| && walk[0].inPort < 3
    ensures Toward(layout, walk[0].router, d) != walk[0].inPort
    ensures walk == RouteFrom(t, layout, walk[0].router, walk[0].inPort, d)
    decreases |walk|
  {
    WalkGoesToward(t, layout, walk, d);
    assert HopOk(t, walk[0]);
    if |walk| > 1 {
      WalkTail(t, walk, d);
      WalkIsRoute(t, layout, walk[1..], d);
      assert walk == [walk[0]] + walk[1..];
    }
  }
}
