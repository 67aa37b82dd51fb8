/** route_connection and the trace functions: breadth-first paths become turn words that can be followed and reversed. */
module FabricRoute {
  import opened Numbers
  import opened FabricWords
  import opened FabricTree

  /** Node numbers: routers first, then endpoints. -1 stands for a dummy port. */
  function NodeCount(t: Topology): nat { |t.ports| + |t.endpointRouter| }

  function Neighbour(t: Topology, node: nat, port: nat): int
    requires node < NodeCount(t) && port < 3
    requires node < |t.ports| ==> |t.ports[node]| == 3
  {
    if node < |t.ports| then
      match t.ports[node][port]
      case Dummy => -1
      case Link(r, _) => r
      case Terminal(e) => |t.ports| + e
    else if port == 0 then t.endpointRouter[node - |t.ports|]
    else -1
  }

  predicate Adjacent(t: Topology, a: nat, b: int) {
    && a < NodeCount(t) && (a < |t.ports| ==> |t.ports[a]| == 3)
    && 0 <= b < NodeCount(t)
    && (Neighbour(t, a, 0) == b || Neighbour(t, a, 1) == b || Neighbour(t, a, 2) == b)
  }

  lemma NeighboursInRange(t: Topology, layout: seq<Span>, node: nat, port: nat)
    requires IsTree(t, layout) && node < NodeCount(t) && port < 3
    ensures node < |t.ports| ==> |t.ports[node]| == 3
    ensures -1 <= Neighbour(t, node, port) < NodeCount(t)
    ensures Neighbour(t, node, port) != -1 ==> Adjacent(t, node, Neighbour(t, node, port))
  {
    if node < |t.ports| {
      assert ChildOk(t, layout, node, 1) && ChildOk(t, layout, node, 2);
      if node < |t.ports| - 1 {
        assert ParentOk(t, node);
      }
    } else {
      assert EndpointOk(t, node - |t.ports|);
    }
  }

  // ----- connectivity

  /** A set of nodes that contains the neighbours of its members. */
  ghost predicate Closed(t: Topology, nodes: set<nat>) {
    && (forall v :: v in nodes ==> v < NodeCount(t) && (v < |t.ports| ==> |t.ports[v]| == 3))
    && (forall v, k :: v in nodes && 0 <= k < 3 && Neighbour(t, v, k) >= 0 ==> Neighbour(t, v, k) in nodes)
  }

  lemma {:induction false} ClosedUp(t: Topology, layout: seq<Span>, nodes: set<nat>, r: nat)
    requires IsTree(t, layout) && Closed(t, nodes) && r in nodes && r < |t.ports|
    ensures |t.ports| - 1 in nodes
    decreases |t.ports| - r
  {
    if r < |t.ports| - 1 {
      assert ParentOk(t, r);
      assert Neighbour(t, r, 0) in nodes;
      ClosedUp(t, layout, nodes, t.ports[r][0].router);
    }
  }

  lemma {:induction false} ClosedDown(t: Topology, layout: seq<Span>, nodes: set<nat>, r: nat)
    requires IsTree(t, layout) && Closed(t, nodes) && |t.ports| - 1 in nodes && r < |t.ports|
    ensures r in nodes
    decreases |t.ports| - r
  {
    if r < |t.ports| - 1 {
      assert ParentOk(t, r);
      var p, q := t.ports[r][0].router, t.ports[r][0].port;
      ClosedDown(t, layout, nodes, p);
      assert Neighbour(t, p, q) in nodes;
    }
  }

  /** The tree is connected: a closed set with one endpoint holds every endpoint. */
  lemma Connected(t: Topology, layout: seq<Span>, nodes: set<nat>, s: nat, d: nat)
    requires IsTree(t, layout) && Closed(t, nodes) && s < |t.endpointRouter| && d < |t.endpointRouter|
    requires |t.ports| + s in nodes
    ensures |t.ports| + d in nodes
  {
    assert EndpointOk(t, s) && EndpointOk(t, d);
    assert Neighbour(t, |t.ports| + s, 0) in nodes;
    ClosedUp(t, layout, nodes, t.endpointRouter[s]);
    ClosedDown(t, layout, nodes, t.endpointRouter[d]);
    assert Neighbour(t, t.endpointRouter[d], t.endpointPort[d]) in nodes;
  }

  // ----- breadth-first search

  function Below(count: nat): (members: set<nat>)
    ensures |members| == count && forall v: nat :: v in members <==> v < count
  {
    if count == 0 then {} else Below(count - 1) + {count - 1}
  }

  lemma {:induction false} SubsetSize(a: set<nat>, b: set<nat>)
    requires a <= b
    ensures |a| <= |b|
  {
    if a != {} {
      var v :| v in a;
      SubsetSize(a - {v}, b - {v});
    }
  }

  function Members(queue: seq<nat>): set<nat> { set v | v in queue }

  lemma {:induction false} DistinctSize(queue: seq<nat>)
    requires forall i, j :: 0 <= i < j < |queue| ==> queue[i] != queue[j]
    ensures |Members(queue)| == |queue|
  {
    if queue != [] {
      var last := |queue| - 1;
      DistinctSize(queue[..last]);
      assert queue == queue[..last] + [queue[last]];
      assert Members(queue) == Members(queue[..last]) + {queue[last]};
      assert queue[last] !in queue[..last];
    }
  }

  /** A queue without repetition never outgrows the node numbers. */
  lemma DistinctBounded(queue: seq<nat>, count: nat)
    requires forall i :: 0 <= i < |queue| ==> queue[i] < count
    requires forall i, j :: 0 <= i < j < |queue| ==> queue[i] != queue[j]
    ensures |queue| <= count
  {
    DistinctSize(queue);
    SubsetSize(Members(queue), Below(count));
  }

  /**
   * `queue` lists the discovered nodes, each but the first found from an earlier one; `origin[i]` is the
   * position of that earlier node.
   */
  ghost predicate Search(t: Topology, start: nat, previous: seq<int>, queue: seq<nat>, origin: seq<nat>) {
    && |previous| == NodeCount(t) && 1 <= |queue| == |origin| && queue[0] == start < NodeCount(t) && previous[start] == -1
    && (forall i :: 0 <= i < |queue| ==> queue[i] < NodeCount(t))
    && (forall i, j :: 0 <= i < j < |queue| ==> queue[i] != queue[j])
    && (forall v :: 0 <= v < |previous| ==> (previous[v] != -2 <==> v in queue))
    && (forall i :: 0 < i < |queue| ==>
          origin[i] < i && previous[queue[i]] == queue[origin[i]] && Adjacent(t, queue[origin[i]], queue[i]))
  }

  /** All neighbours of the first `head` queued nodes are discovered. */
  ghost predicate Expanded(t: Topology, previous: seq<int>, queue: seq<nat>, head: nat) {
    && |previous| == NodeCount(t) && head <= |queue|
    && (forall i :: 0 <= i < head ==> queue[i] < NodeCount(t) && (queue[i] < |t.ports| ==> |t.ports[queue[i]]| == 3))
    && (forall i, k :: 0 <= i < head && 0 <= k < 3 ==>
          Neighbour(t, queue[i], k) < NodeCount(t) && (Neighbour(t, queue[i], k) >= 0 ==> previous[Neighbour(t, queue[i], k)] != -2))
  }

  lemma SearchGrows(t: Topology, start: nat, previous: seq<int>, queue: seq<nat>, origin: seq<nat>, at: nat, next: nat)
    requires Search(t, start, previous, queue, origin) && at < |queue| && Adjacent(t, queue[at], next) && previous[next] == -2
    ensures Search(t, start, previous[next := queue[at]], queue + [next], origin + [at])
    ensures |queue| < NodeCount(t)
  {
    var longer := queue + [next];
    forall i, j | 0 <= i < j < |longer|
      ensures longer[i] != longer[j]
    {
      if j == |queue| {
        assert queue[i] in queue;
      }
    }
    DistinctBounded(longer, NodeCount(t));
    var after := previous[next := queue[at]];
    forall v | 0 <= v < |after|
      ensures after[v] != -2 <==> v in longer
    {
      assert v in longer <==> v in queue || v == next;
    }
    forall i | 0 < i < |longer|
      ensures (origin + [at])[i] < i && after[longer[i]] == longer[(origin + [at])[i]]
      ensures Adjacent(t, longer[(origin + [at])[i]], longer[i])
    {
      if i < |queue| {
        assert queue[i] in queue;
        assert longer[origin[i]] == queue[origin[i]];
      }
    }
  }

  lemma ExhaustedIsClosed(t: Topology, layout: seq<Span>, start: nat, previous: seq<int>, queue: seq<nat>, origin: seq<nat>)
    requires IsTree(t, layout) && Search(t, start, previous, queue, origin) && Expanded(t, previous, queue, |queue|)
    ensures Closed(t, Members(queue))
  {
    var nodes := Members(queue);
    forall v, k | v in nodes && 0 <= k < 3 && v < NodeCount(t) && (v < |t.ports| ==> |t.ports[v]| == 3) && Neighbour(t, v, k) >= 0
      ensures Neighbour(t, v, k) in nodes
    {
      var i :| 0 <= i < |queue| && queue[i] == v;
      assert previous[Neighbour(t, queue[i], k)] != -2;
    }
  }

  /** A path of adjacent nodes without repetition. */
  ghost predicate IsPath(t: Topology, path: seq<nat>, start: nat, finish: nat) {
    && |path| >= 1 && path[0] == start && path[|path| - 1] == finish
    && (forall i :: 0 <= i < |path| - 1 ==> Adjacent(t, path[i], path[i + 1]))
    && (forall i, j :: 0 <= i < j < |path| ==> path[i] != path[j])
  }

  /** Before the search only the start is discovered. */
  lemma SearchStarts(t: Topology, start: nat, previous: seq<int>)
    requires |previous| == NodeCount(t) && start < |previous|
    requires forall v :: 0 <= v < |previous| ==> previous[v] == if v == start then -1 else -2
    ensures Search(t, start, previous, [start], [0]) && Expanded(t, previous, [start], 0)
  {
  }

  lemma QueuedIsDiscovered(t: Topology, start: nat, previous: seq<int>, queue: seq<nat>, origin: seq<nat>, head: nat)
    requires Search(t, start, previous, queue, origin) && head < |queue|
    ensures queue[head] < |previous| && previous[queue[head]] != -2
  {
    assert queue[head] in queue;
  }

  /** When every queued node has been expanded, the search has met all endpoints. */
  lemma ExhaustedMeetsAll(t: Topology, layout: seq<Span>, s: nat, d: nat, previous: seq<int>, queue: seq<nat>, origin: seq<nat>)
    requires IsTree(t, layout) && s < |t.endpointRouter| && d < |t.endpointRouter|
    requires Search(t, |t.ports| + s, previous, queue, origin) && Expanded(t, previous, queue, |queue|)
    ensures |t.ports| + d < |previous| && previous[|t.ports| + d] != -2
  {
    ExhaustedIsClosed(t, layout, |t.ports| + s, previous, queue, origin);
    assert queue[0] in queue;
    hide IsTree, Expanded;
    Connected(t, layout, Members(queue), s, d);
  }

  /** The search loop of route_connection. In a router tree it always reaches the finish. */
  method Discover(t: Topology, ghost layout: seq<Span>, s: nat, d: nat, previous: array<int>) returns (ghost queue: seq<nat>, ghost origin: seq<nat>)
    requires IsTree(t, layout) && s < |t.endpointRouter| && d < |t.endpointRouter|
    requires previous.Length == NodeCount(t)
    modifies previous
    ensures Search(t, |t.ports| + s, previous[..], queue, origin)
    ensures previous[|t.ports| + d] != -2
  {
    var start, finish, count := |t.ports| + s, |t.ports| + d, NodeCount(t);
    var slots := new nat[count];
    for index := 0 to count
      invariant forall i :: 0 <= i < index ==> previous[i] == -2
    {
      previous[index] := -2;
    }
    var head, tail := 0, 1;
    previous[start], slots[0] := -1, start;
    queue, origin := [start], [0];
    SearchStarts(t, start, previous[..]);
    hide Search, Expanded, IsTree;
    while head < tail
      invariant head <= tail == |queue| <= count && slots[..tail] == queue
      invariant Search(t, start, previous[..], queue, origin) && Expanded(t, previous[..], queue, head)
      decreases count - head
    {
      if slots[head] == finish {
        QueuedIsDiscovered(t, start, previous[..], queue, origin, head);
        return;
      }
      tail, queue, origin := Expand(t, layout, start, previous, slots, head, tail, queue, origin);
      head := head + 1;
    }
    ExhaustedMeetsAll(t, layout, s, d, previous[..], queue, origin);
  }

  /** Ports below `limit` of queued node `at` lead to discovered nodes. */
  ghost predicate ExpandedTo(t: Topology, previous: seq<int>, node: nat, limit: nat) {
    && |previous| == NodeCount(t) && node < NodeCount(t) && (node < |t.ports| ==> |t.ports[node]| == 3)
    && forall k :: 0 <= k < limit && k < 3 ==>
         Neighbour(t, node, k) < NodeCount(t) && (Neighbour(t, node, k) >= 0 ==> previous[Neighbour(t, node, k)] != -2)
  }

  /** Queueing the undiscovered neighbours of the node at `head`. */
  method Expand(t: Topology, ghost layout: seq<Span>, start: nat, previous: array<int>, slots: array<nat>, head: nat, tail0: nat,
                ghost queue0: seq<nat>, ghost origin0: seq<nat>)
    returns (tail: nat, ghost queue: seq<nat>, ghost origin: seq<nat>)
    requires IsTree(t, layout) && previous.Length == slots.Length == NodeCount(t)
    requires head < tail0 == |queue0| <= NodeCount(t) && slots[..tail0] == queue0
    requires Search(t, start, previous[..], queue0, origin0) && Expanded(t, previous[..], queue0, head)
    modifies previous, slots
    ensures head < tail == |queue| <= NodeCount(t) && slots[..tail] == queue
    ensures Search(t, start, previous[..], queue, origin) && Expanded(t, previous[..], queue, head + 1)
  {
    tail, queue, origin := tail0, queue0, origin0;
    var node := slots[head];
    assert node == queue0[head];
    NeighboursInRange(t, layout, node, 0);
    hide Search, IsTree;
    var limit := if node < |t.ports| then 3 else 1;
    var port := 0;
    while port < limit
      invariant port <= limit && head < tail == |queue| <= NodeCount(t) && slots[..tail] == queue && queue[head] == node
      invariant Search(t, start, previous[..], queue, origin) && Expanded(t, previous[..], queue, head)
      invariant ExpandedTo(t, previous[..], node, port)
    {
      tail, queue, origin := ExpandPort(t, layout, start, previous, slots, head, tail, queue, origin, node, port);
      port := port + 1;
    }
  }

  method ExpandPort(t: Topology, ghost layout: seq<Span>, start: nat, previous: array<int>, slots: array<nat>, head: nat, tail0: nat,
                    ghost queue0: seq<nat>, ghost origin0: seq<nat>, node: nat, port: nat)
    returns (tail: nat, ghost queue: seq<nat>, ghost origin: seq<nat>)
    requires IsTree(t, layout) && previous.Length == slots.Length == NodeCount(t) && port < 3
    requires head < tail0 == |queue0| <= NodeCount(t) && slots[..tail0] == queue0 && queue0[head] == node
    requires Search(t, start, previous[..], queue0, origin0) && Expanded(t, previous[..], queue0, head)
    requires ExpandedTo(t, previous[..], node, port)
    modifies previous, slots
    ensures head < tail == |queue| <= NodeCount(t) && slots[..tail] == queue && queue[head] == node
    ensures Search(t, start, previous[..], queue, origin) && Expanded(t, previous[..], queue, head)
    ensures ExpandedTo(t, previous[..], node, port + 1)
  {
    tail, queue, origin := tail0, queue0, origin0;
    NeighboursInRange(t, layout, node, port);
    var next := Neighbour(t, node, port);
    if next != -1 && previous[next] == -2 {
      SearchGrows(t, start, previous[..], queue, origin, head, next);
      ExpandedStays(t, previous[..], queue, head, node, port, next);
      Enqueue(previous, slots, tail, node, next);
      queue, origin, tail := queue + [next], origin + [head], tail + 1;
    }
  }

  method Enqueue(previous: array<int>, slots: array<nat>, tail: nat, node: nat, next: nat)
    requires tail < slots.Length && next < previous.Length
    modifies previous, slots
    ensures previous[..] == old(previous[..])[next := node]
    ensures slots[..tail + 1] == old(slots[..tail]) + [next]
  {
    previous[next], slots[tail] := node, next;
  }

  lemma ExpandedStays(t: Topology, previous: seq<int>, queue: seq<nat>, head: nat, node: nat, port: nat, next: nat)
    requires Expanded(t, previous, queue, head) && ExpandedTo(t, previous, node, port) && next < |previous|
    ensures Expanded(t, previous[next := node], queue + [next], head) && ExpandedTo(t, previous[next := node], node, port)
  {
  }

  /** `trail` was read backwards from `finish`; `places` are the queue positions of its nodes. */
  ghost predicate Trail(t: Topology, queue: seq<nat>, finish: nat, trail: seq<nat>, places: seq<nat>) {
    && |trail| == |places| && (trail != [] ==> trail[0] == finish)
    && (forall i :: 0 <= i < |trail| ==> places[i] < |queue| && trail[i] == queue[places[i]])
    && (forall i, j :: 0 <= i < j < |trail| ==> places[i] > places[j])
    && (forall i :: 0 < i < |trail| ==> Adjacent(t, trail[i], trail[i - 1]))
  }

  /** The trail goes on from queue position `at`. */
  ghost predicate GoesOn(t: Topology, queue: seq<nat>, finish: nat, trail: seq<nat>, places: seq<nat>, at: nat) {
    && at < |queue| && |trail| == |places|
    && (if trail == [] then queue[at] == finish
        else at < places[|places| - 1] && Adjacent(t, queue[at], trail[|trail| - 1]))
  }

  lemma TrailGrows(t: Topology, start: nat, previous: seq<int>, queue: seq<nat>, origin: seq<nat>, finish: nat,
                   trail: seq<nat>, places: seq<nat>, at: nat)
    requires Search(t, start, previous, queue, origin) && Trail(t, queue, finish, trail, places)
    requires GoesOn(t, queue, finish, trail, places, at)
    ensures Trail(t, queue, finish, trail + [queue[at]], places + [at])
    ensures |trail| < |queue| - at && queue[at] < |previous| && |origin| == |queue|
    ensures at > 0 ==>
      previous[queue[at]] == queue[origin[at]] && GoesOn(t, queue, finish, trail + [queue[at]], places + [at], origin[at])
    ensures at == 0 ==> previous[queue[at]] == -1
  {
    TrailShort(queue, places, at);
    OriginLeads(t, start, previous, queue, origin, at);
    hide Search, Adjacent;
  }

  lemma OriginLeads(t: Topology, start: nat, previous: seq<int>, queue: seq<nat>, origin: seq<nat>, at: nat)
    requires Search(t, start, previous, queue, origin) && at < |queue|
    ensures |origin| == |queue| && queue[at] < |previous| && (at == 0 ==> previous[queue[at]] == -1)
    ensures at > 0 ==> origin[at] < at && previous[queue[at]] == queue[origin[at]] && Adjacent(t, queue[origin[at]], queue[at])
  {
  }

  lemma {:induction false} TrailShort(queue: seq<nat>, places: seq<nat>, at: nat)
    requires forall i, j :: 0 <= i < j < |places| ==> places[i] > places[j]
    requires forall i :: 0 <= i < |places| ==> places[i] < |queue|
    requires at < |queue| && (places != [] ==> at < places[|places| - 1])
    ensures |places| < |queue| - at
  {
    if places != [] {
      TrailShort(queue, places[..|places| - 1], places[|places| - 1]);
    }
  }

  lemma PlaceOf(t: Topology, start: nat, previous: seq<int>, queue: seq<nat>, origin: seq<nat>, finish: nat) returns (at: nat)
    requires Search(t, start, previous, queue, origin) && finish < NodeCount(t) && previous[finish] != -2
    ensures at < |queue| <= NodeCount(t) == |previous| && queue[at] == finish
  {
    at :| at < |queue| && queue[at] == finish;
    DistinctBounded(queue, NodeCount(t));
  }

  /** Reading `previous` backwards from the finish and reversing gives a path from start to finish. */
  method ReadPath(t: Topology, start: nat, finish: nat, previous: array<int>, ghost queue: seq<nat>, ghost origin: seq<nat>)
    returns (path: seq<nat>)
    requires Search(t, start, previous[..], queue, origin) && previous.Length == NodeCount(t)
    requires finish < NodeCount(t) && previous[finish] != -2
    ensures IsPath(t, path, start, finish)
  {
    hide Search, Adjacent;
    var slots := new nat[NodeCount(t)];
    var node: int := finish;
    var count := 0;
    ghost var places: seq<nat> := [];
    ghost var at := PlaceOf(t, start, previous[..], queue, origin, finish);
    while node != -1
      invariant count <= slots.Length && Trail(t, queue, finish, slots[..count], places)
      invariant node == -1 ==> count > 0 && places[count - 1] == 0
      invariant node != -1 ==> GoesOn(t, queue, finish, slots[..count], places, at) && node == queue[at]
      decreases if node == -1 then 0 else at + 1
    {
      TrailGrows(t, start, previous[..], queue, origin, finish, slots[..count], places, at);
      slots[count] := node;
      assert slots[..count + 1] == slots[..count] + [node];
      places := places + [at];
      count := count + 1;
      node := previous[node];
      if at > 0 {
        at := origin[at];
      }
    }
    ghost var trail := slots[..count];
    Reverse(slots, count);
    path := slots[..count];
    TrailReversed(t, start, previous[..], queue, origin, finish, trail, places, path);
  }

  lemma TrailReversed(t: Topology, start: nat, previous: seq<int>, queue: seq<nat>, origin: seq<nat>, finish: nat,
                      trail: seq<nat>, places: seq<nat>, path: seq<nat>)
    requires Search(t, start, previous, queue, origin)
    requires Trail(t, queue, finish, trail, places) && trail != [] && places[|places| - 1] == 0
    requires |path| == |trail| && forall i :: 0 <= i < |path| ==> path[i] == trail[|trail| - 1 - i]
    ensures IsPath(t, path, start, finish)
  {
    var last := |trail| - 1;
    forall i | 0 <= i < |path| - 1
      ensures Adjacent(t, path[i], path[i + 1])
    {
      assert Adjacent(t, trail[last - i], trail[last - i - 1]);
    }
    forall i, j | 0 <= i < j < |path|
      ensures path[i] != path[j]
    {
      assert places[last - j] > places[last - i];
    }
  }

  method Reverse(slots: array<nat>, count: nat)
    requires count <= slots.Length
    modifies slots
    ensures forall i :: 0 <= i < count ==> slots[i] == old(slots[count - 1 - i])
  {
    var left, right := 0, count - 1;
    while left < right
      invariant 0 <= left <= count && right == count - 1 - left
      invariant forall i :: 0 <= i < left ==> slots[i] == old(slots[count - 1 - i]) && slots[count - 1 - i] == old(slots[i])
      invariant forall i :: left <= i <= right ==> slots[i] == old(slots[i])
    {
      slots[left], slots[right] := slots[right], slots[left];
      left, right := left + 1, right - 1;
    }
  }
}
