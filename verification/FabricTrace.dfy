/** Turn words of routes: how route_connection writes them and how the traces and routers read them. */
module FabricTrace {
  import opened Numbers
  import opened FabricWords
  import opened FabricTree
  import opened FabricRoute

  /** Out of port `inPort`, a clear bit means the next port and a set bit the one after. */
  function OutPort(inPort: nat, bit: bool): (port: nat)
    ensures port < 3
  {
    if bit then (inPort + 2) % 3 else (inPort + 1) % 3
  }

  /** The port a packet came in by, given where it went out and the bit it used. */
  function InPort(outPort: nat, bit: bool): (port: nat)
    ensures port < 3
  {
    if bit then (outPort + 1) % 3 else (outPort + 2) % 3
  }

  function Turn(hop: Hop): bool { hop.outPort == (hop.inPort + 2) % 3 }

  function Turns(route: seq<Hop>): (turns: seq<bool>)
    ensures |turns| == |route|
  {
    seq(|route|, i requires 0 <= i < |route| => Turn(route[i]))
  }

  lemma TurnBits(t: Topology, hop: Hop)
    requires HopOk(t, hop)
    ensures OutPort(hop.inPort, Turn(hop)) == hop.outPort && InPort(hop.outPort, Turn(hop)) == hop.inPort
  {
  }

  // ----- from node paths to hops

  /** port_for_node: the first port of `router` wired to `node`. */
  function PortFor(t: Topology, router: nat, node: nat): (port: nat)
    requires Adjacent(t, router, node)
    ensures port < 3 && Neighbour(t, router, port) == node
  {
    if Neighbour(t, router, 0) == node then 0 else if Neighbour(t, router, 1) == node then 1 else 2
  }

  /** Two nodes are wired together by at most one pair of ports. */
  lemma OnePort(t: Topology, layout: seq<Span>, router: nat, node: nat, p: nat, q: nat)
    requires IsTree(t, layout) && router < |t.ports| && |t.ports[router]| == 3 && p < 3 && q < 3
    requires Neighbour(t, router, p) == node == Neighbour(t, router, q)
    ensures p == q
  {
    PortLeads(t, layout, router, p);
    PortLeads(t, layout, router, q);
    assert layout[router].lo < layout[router].mid < layout[router].hi;
  }

  lemma PortLeads(t: Topology, layout: seq<Span>, router: nat, port: nat)
    requires IsTree(t, layout) && router < |t.ports| && |t.ports[router]| == 3 && port < 3
    ensures match t.ports[router][port]
            case Dummy => router == |t.ports| - 1 && port == 0
            case Terminal(e) => port != 0 && e == PortLo(layout[router], port) && e < |t.endpointRouter|
            case Link(n, q) =>
              n < |t.ports| && q < 3 && |t.ports[n]| == 3 && t.ports[n][q] == Link(router, port)
              && (port == 0 ==> router < n)
              && (port != 0 ==> n < router && layout[n].lo == PortLo(layout[router], port))
  {
    assert router < |t.ports| - 1 ==> ParentOk(t, router);
    if t.ports[router][port].Link? {
      LinkSpans(t, layout, router, port);
    } else if t.ports[router][port].Terminal? {
      TerminalIsToward(t, layout, router, port);
      assert port != 0 ==> ChildOk(t, layout, router, port);
    } else {
      assert port != 0 ==> ChildOk(t, layout, router, port);
    }
  }

  /** Inside a path without repetition there are only routers. */
  lemma PathInside(t: Topology, layout: seq<Span>, path: seq<nat>, start: nat, finish: nat, i: nat)
    requires IsTree(t, layout) && IsPath(t, path, start, finish) && 0 < i < |path| - 1
    ensures path[i] < |t.ports|
    ensures Adjacent(t, path[i], path[i - 1]) && Adjacent(t, path[i], path[i + 1])
    ensures PortFor(t, path[i], path[i - 1]) != PortFor(t, path[i], path[i + 1])
  {
    assert Adjacent(t, path[i - 1], path[i - 1 + 1]) && Adjacent(t, path[i], path[i + 1]);
    AdjacentBack(t, layout, path[i - 1], path[i]);
    assert path[i - 1] != path[i + 1];
    if path[i] >= |t.ports| {
      assert false;
    }
  }

  lemma AdjacentBack(t: Topology, layout: seq<Span>, a: nat, b: nat)
    requires IsTree(t, layout) && Adjacent(t, a, b)
    ensures Adjacent(t, b, a)
    ensures a < |t.ports| && b < |t.ports| ==>
      t.ports[a][PortFor(t, a, b)] == Link(b, PortFor(t, b, a))
    ensures a >= |t.ports| ==> b < |t.ports|
  {
    if a < |t.ports| {
      var port := PortFor(t, a, b);
      PortLeads(t, layout, a, port);
      match t.ports[a][port]
      case Terminal(e) =>
        TerminalIsToward(t, layout, a, port);
      case Link(n, q) =>
        assert Neighbour(t, b, q) == a;
        OnePort(t, layout, b, a, q, PortFor(t, b, a));
    } else {
      assert EndpointOk(t, a - |t.ports|);
    }
  }

  function PathHop(t: Topology, path: seq<nat>, i: nat): Hop
    requires 0 < i < |path| - 1 && Adjacent(t, path[i], path[i - 1]) && Adjacent(t, path[i], path[i + 1])
  {
    Hop(path[i], PortFor(t, path[i], path[i - 1]), PortFor(t, path[i], path[i + 1]))
  }

  /** `hops` are the turns taken at the inner nodes of the path. */
  ghost predicate PathHops(t: Topology, path: seq<nat>, hops: seq<Hop>) {
    && |hops| == |path| - 2
    && forall i :: 0 < i < |path| - 1 ==>
         && Adjacent(t, path[i], path[i - 1]) && Adjacent(t, path[i], path[i + 1])
         && hops[i - 1] == PathHop(t, path, i)
  }

  lemma PathLong(t: Topology, layout: seq<Span>, path: seq<nat>, s: nat, d: nat)
    requires IsTree(t, layout) && s < |t.endpointRouter| && d < |t.endpointRouter| && s != d
    requires IsPath(t, path, |t.ports| + s, |t.ports| + d)
    ensures |path| >= 3 && path[1] == t.endpointRouter[s] && path[|path| - 2] == t.endpointRouter[d]
    ensures Adjacent(t, path[1], path[0]) && PortFor(t, path[1], path[0]) == t.endpointPort[s]
    ensures Adjacent(t, path[|path| - 2], path[|path| - 1])
    ensures EndpointOk(t, d)
    ensures t.ports[path[|path| - 2]][PortFor(t, path[|path| - 2], path[|path| - 1])] == Terminal(d)
  {
    var last := |path| - 1;
    assert last >= 1;
    assert Adjacent(t, path[0], path[0 + 1]) && Adjacent(t, path[last - 1], path[last - 1 + 1]);
    AdjacentBack(t, layout, path[0], path[1]);
    AdjacentBack(t, layout, path[last - 1], path[last]);
    assert EndpointOk(t, s) && EndpointOk(t, d);
    OnePort(t, layout, path[1], path[0], PortFor(t, path[1], path[0]), t.endpointPort[s]);
    PortLeads(t, layout, path[last - 1], PortFor(t, path[last - 1], path[last]));
  }

  /** The path found by the search is the tree route, whatever order the search met the nodes in. */
  lemma PathIsRoute(t: Topology, layout: seq<Span>, path: seq<nat>, s: nat, d: nat, hops: seq<Hop>)
    requires IsTree(t, layout) && s < |t.endpointRouter| && d < |t.endpointRouter| && s != d
    requires IsPath(t, path, |t.ports| + s, |t.ports| + d) && PathHops(t, path, hops)
    ensures hops == Route(t, layout, s, d)
  {
    PathLong(t, layout, path, s, d);
    forall i | 0 <= i < |hops|
      ensures HopOk(t, hops[i])
    {
      PathInside(t, layout, path, |t.ports| + s, |t.ports| + d, i + 1);
      assert hops[i + 1 - 1] == PathHop(t, path, i + 1);
    }
    forall i | 0 <= i < |hops| - 1
      ensures Linked(t, hops[i], hops[i + 1])
    {
      PathInside(t, layout, path, |t.ports| + s, |t.ports| + d, i + 1);
      PathInside(t, layout, path, |t.ports| + s, |t.ports| + d, i + 2);
      assert hops[i + 1 - 1] == PathHop(t, path, i + 1) && hops[i + 2 - 1] == PathHop(t, path, i + 2);
      AdjacentBack(t, layout, path[i + 1], path[i + 2]);
      AdjacentBack(t, layout, path[i + 2], path[i + 1]);
    }
    assert hops[1 - 1] == PathHop(t, path, 1);
    assert hops[|path| - 2 - 1] == PathHop(t, path, |path| - 2);
    WalkIsRoute(t, layout, hops, d);
    EndpointsDiffer(t, layout, s, d);
  }

  // ----- routing one connection

  datatype RouteWord = RouteWord(word: nat, hops: nat) | TooLong

  /** route_connection: the turn word of the connection, unless the route needs more than 64 turns. */
  method RouteConnection(t: Topology, ghost layout: seq<Span>, s: nat, d: nat) returns (result: RouteWord)
    requires IsTree(t, layout) && s < |t.endpointRouter| && d < |t.endpointRouter| && s != d
    ensures result.TooLong? <==> |Route(t, layout, s, d)| > 64
    ensures result.RouteWord? ==>
      && result.hops == |Route(t, layout, s, d)|
      && result.word < Pow2(result.hops)
      && Bits(result.word, result.hops) == Turns(Route(t, layout, s, d))
  {
    var previous := new int[NodeCount(t)];
    ghost var queue, origin := Discover(t, layout, s, d, previous);
    var path := ReadPath(t, |t.ports| + s, |t.ports| + d, previous, queue, origin);
    result := WriteTurns(t, layout, path, s, d);
  }

  /** Turning the node path into a word, one bit per router. */
  method WriteTurns(t: Topology, ghost layout: seq<Span>, path: seq<nat>, s: nat, d: nat) returns (result: RouteWord)
    requires IsTree(t, layout) && s < |t.endpointRouter| && d < |t.endpointRouter| && s != d
    requires IsPath(t, path, |t.ports| + s, |t.ports| + d)
    ensures result.TooLong? <==> |Route(t, layout, s, d)| > 64
    ensures result.RouteWord? ==>
      && result.hops == |Route(t, layout, s, d)|
      && result.word < Pow2(result.hops)
      && Bits(result.word, result.hops) == Turns(Route(t, layout, s, d))
  {
    ghost var route := PathRoute(t, layout, path, s, d);
    var word, hops, index := 0, 0, 1;
    while index + 1 < |path|
      invariant 1 <= index < |path| && hops == index - 1 <= 64
      invariant word == FromBits(Turns(route[..hops]))
    {
      assert route[index - 1] == PathHop(t, path, index);
      var inPort := PortFor(t, path[index], path[index - 1]);
      var outPort := PortFor(t, path[index], path[index + 1]);
      var bit := outPort == (inPort + 2) % 3;
      if hops >= 64 {
        return TooLong;
      }
      assert Turns(route[..hops + 1]) == Turns(route[..hops]) + [bit];
      FromBitsAppend(Turns(route[..hops]), bit);
      word := word + (if bit then Pow2(hops) else 0);
      hops := hops + 1;
      index := index + 1;
    }
    assert route[..hops] == route;
    BitsAreFaithful(Turns(route));
    return RouteWord(word, hops);
  }

  /** The hops of a path: no U-turns, and exactly the tree route. */
  lemma PathRoute(t: Topology, layout: seq<Span>, path: seq<nat>, s: nat, d: nat) returns (route: seq<Hop>)
    requires IsTree(t, layout) && s < |t.endpointRouter| && d < |t.endpointRouter| && s != d
    requires IsPath(t, path, |t.ports| + s, |t.ports| + d)
    ensures |path| >= 3 && PathHops(t, path, route) && route == Route(t, layout, s, d)
    ensures forall i :: 0 <= i < |route| ==> route[i].inPort != route[i].outPort
  {
    PathLong(t, layout, path, s, d);
    forall i | 0 < i < |path| - 1
      ensures path[i] < |t.ports| && Adjacent(t, path[i], path[i - 1]) && Adjacent(t, path[i], path[i + 1])
      ensures PathHop(t, path, i).inPort != PathHop(t, path, i).outPort
    {
      PathInside(t, layout, path, |t.ports| + s, |t.ports| + d, i);
    }
    route := seq(|path| - 2, i requires 0 <= i < |path| - 2 => PathHop(t, path, i + 1));
    PathIsRoute(t, layout, path, s, d, route);
  }

  // ----- following words

  /** `word` starts with the turns of `route`; `width` bits leave room for all of them. */
  ghost predicate Carries(word: nat, width: nat, route: seq<Hop>) {
    && |route| <= width && word < Pow2(width) && Bits(word, width)[..|route|] == Turns(route)
  }

  /** The turn read at hop `i` of a word that carries the route. */
  lemma CarriedTurn(word: nat, width: nat, route: seq<Hop>, i: nat)
    requires Carries(word, width, route) && i < |route|
    ensures WordAfter(word, width, i) < Pow2(width)
    ensures (WordAfter(word, width, i) % 2 == 1) == Turn(route[i])
  {
    TurnBitAt(word, width, i);
    assert Bits(word, width)[..|route|][i] == Turns(route)[i];
  }

  /** A short word padded with zeros still carries its route. */
  lemma {:induction false} PaddedBits(word: nat, hops: nat, width: nat)
    requires hops <= width && word < Pow2(hops)
    ensures word < Pow2(width) && Bits(word, width)[..hops] == Bits(word, hops)
  {
    Pow2Monotone(hops, width);
    if hops > 0 {
      PaddedBits(word / 2, hops - 1, width - 1);
      assert Bits(word, width)[..hops] == [word % 2 == 1] + Bits(word / 2, width - 1)[..hops - 1];
    }
  }

  datatype Traced = Reached(endpoint: nat) | AtDummy | Lost

  /** A chain of linked turns from endpoint `s` to endpoint `d`. */
  ghost predicate RouteOk(t: Topology, route: seq<Hop>, s: nat, d: nat) {
    && 1 <= |route| <= |t.ports| && s < |t.endpointRouter| && d < |t.endpointRouter|
    && |t.endpointRouter| == |t.endpointPort|
    && (forall i :: 0 <= i < |route| ==> HopOk(t, route[i]))
    && (forall i :: 0 <= i < |route| - 1 ==> Linked(t, route[i], route[i + 1]))
    && route[0].router == t.endpointRouter[s] && route[0].inPort == t.endpointPort[s]
    && t.ports[route[0].router][route[0].inPort] == Terminal(s)
    && route[|route| - 1].router == t.endpointRouter[d] && route[|route| - 1].outPort == t.endpointPort[d]
    && t.ports[route[|route| - 1].router][route[|route| - 1].outPort] == Terminal(d)
  }

  lemma RouteShape(t: Topology, layout: seq<Span>, s: nat, d: nat)
    requires IsTree(t, layout) && s < |t.endpointRouter| && d < |t.endpointRouter| && s != d
    ensures RouteOk(t, Route(t, layout, s, d), s, d)
  {
    EndpointsDiffer(t, layout, s, d);
    RouteFromShape(t, layout, t.endpointRouter[s], t.endpointPort[s], d);
    RouteFromShort(t, layout, t.endpointRouter[s], t.endpointPort[s], d);
    var route := Route(t, layout, s, d);
    TerminalIsToward(t, layout, route[|route| - 1].router, route[|route| - 1].outPort);
    assert ChildOk(t, layout, t.endpointRouter[s], t.endpointPort[s]);
  }

  /** trace_forward_endpoint: a word that carries the route from `s` to `d` leads from `s` to `d`. */
  method TraceForward(t: Topology, ghost layout: seq<Span>, s: nat, word: nat, width: nat, ghost d: nat) returns (result: Traced)
    requires IsTree(t, layout) && s < |t.endpointRouter| && 0 < width && word < Pow2(width)
    requires d < |t.endpointRouter| && d != s && Carries(word, width, Route(t, layout, s, d))
    ensures result == Reached(d)
  {
    ghost var route := Route(t, layout, s, d);
    RouteShape(t, layout, s, d);
    var router, inPort, rest, hop := t.endpointRouter[s], t.endpointPort[s], word, 0;
    while hop <= |t.ports|
      invariant 0 <= hop < |route| && rest == WordAfter(word, width, hop)
      invariant router == route[hop].router && inPort == route[hop].inPort
      decreases |route| - hop
    {
      CarriedTurn(word, width, route, hop);
      assert HopOk(t, route[hop]);
      TurnBits(t, route[hop]);
      var outPort := OutPort(inPort, rest % 2 == 1);
      var attachment := t.ports[router][outPort];
      rest := ForwardWord(rest, width);
      assert hop < |route| - 1 ==> Linked(t, route[hop], route[hop + 1]);
      if attachment.Terminal? {
        return Reached(attachment.endpoint);
      }
      if attachment.Dummy? {
        return AtDummy;
      }
      router, inPort, hop := attachment.router, attachment.port, hop + 1;
    }
    return Lost;
  }

  /** trace_reverse_endpoint: the delivered word leads back from `d` to the source `s`. */
  method TraceReverse(t: Topology, ghost layout: seq<Span>, d: nat, delivered: nat, width: nat, ghost s: nat, ghost word: nat)
    returns (result: Traced)
    requires IsTree(t, layout) && s < |t.endpointRouter| && d < |t.endpointRouter| && s != d && 0 < width
    requires Carries(word, width, Route(t, layout, s, d))
    requires delivered == WordAfter(word, width, |Route(t, layout, s, d)|)
    ensures result == Reached(s)
  {
    ghost var route := Route(t, layout, s, d);
    RouteShape(t, layout, s, d);
    var router, outPort, rest, hop := t.endpointRouter[d], t.endpointPort[d], delivered, 0;
    while hop <= |t.ports|
      invariant 0 <= hop < |route| && rest == WordAfter(word, width, |route| - hop)
      invariant router == route[|route| - 1 - hop].router && outPort == route[|route| - 1 - hop].outPort
      decreases |route| - hop
    {
      ghost var at := |route| - 1 - hop;
      CarriedTurn(word, width, route, at);
      BackwardUndoesForward(WordAfter(word, width, at), width);
      assert HopOk(t, route[at]);
      TurnBits(t, route[at]);
      var inPort := InPort(outPort, (rest / Pow2(width - 1)) % 2 == 1);
      var attachment := t.ports[router][inPort];
      rest := BackwardWord(rest, width);
      assert at > 0 ==> Linked(t, route[at - 1], route[at - 1 + 1]);
      if attachment.Terminal? {
        return Reached(attachment.endpoint);
      }
      if attachment.Dummy? {
        return AtDummy;
      }
      router, outPort, hop := attachment.router, attachment.port, hop + 1;
    }
    return Lost;
  }

  /** Undoing hop `i`: the word before and the port the packet came in by. */
  lemma HopBack(t: Topology, word: nat, width: nat, route: seq<Hop>, i: nat)
    requires Carries(word, width, route) && i < |route| && HopOk(t, route[i])
    ensures WordAfter(word, width, i) == BackwardWord(WordAfter(word, width, i + 1), width)
    ensures route[i].inPort == InPort(route[i].outPort, (WordAfter(word, width, i + 1) / Pow2(width - 1)) % 2 == 1)
  {
    CarriedTurn(word, width, route, i);
    BackwardUndoesForward(WordAfter(word, width, i), width);
    TurnBits(t, route[i]);
  }

  /**
   * A packet names its source everywhere: equal words in the same queue were injected by the same source
   * and have made the same number of hops.
   */
  lemma {:induction false} WordNamesSource(t: Topology, width: nat, a: seq<Hop>, s: nat, d: nat, word: nat, i: nat,
                                           b: seq<Hop>, s': nat, d': nat, word': nat, j: nat)
    requires RouteOk(t, a, s, d) && Carries(word, width, a) && i < |a|
    requires RouteOk(t, b, s', d') && Carries(word', width, b) && j < |b|
    requires a[i].router == b[j].router && a[i].inPort == b[j].inPort
    requires WordAfter(word, width, i) == WordAfter(word', width, j)
    ensures s == s' && i == j
    decreases i
  {
    assert i > 0 ==> Linked(t, a[i - 1], a[i - 1 + 1]);
    assert j > 0 ==> Linked(t, b[j - 1], b[j - 1 + 1]);
    if i > 0 && j > 0 {
      HopBack(t, word, width, a, i - 1);
      HopBack(t, word', width, b, j - 1);
      WordNamesSource(t, width, a, s, d, word, i - 1, b, s', d', word', j - 1);
    }
  }

  /** Delivered words at one destination are pairwise distinct. */
  lemma DeliveredWordsDiffer(t: Topology, width: nat, a: seq<Hop>, s: nat, word: nat, b: seq<Hop>, s': nat, word': nat, d: nat)
    requires RouteOk(t, a, s, d) && Carries(word, width, a)
    requires RouteOk(t, b, s', d) && Carries(word', width, b)
    requires WordAfter(word, width, |a|) == WordAfter(word', width, |b|)
    ensures s == s' && |a| == |b|
  {
    hide WordAfter, BackwardWord, Carries;
    HopBack(t, word, width, a, |a| - 1);
    HopBack(t, word', width, b, |b| - 1);
    WordNamesSource(t, width, a, s, d, word, |a| - 1, b, s', d, word', |b| - 1);
  }
}
