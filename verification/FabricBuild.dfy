/** build_fabric_topology: neighbouring nodes are paired level by level until one router tops the tree. */
module FabricBuild {
  import opened Numbers
  import opened FabricWords
  import opened FabricTree

  datatype Node = NoNode | RouterNode(router: nat) | EndpointNode(endpoint: nat)

  function AttachmentTo(node: Node): Attachment {
    match node
    case NoNode => Dummy
    case RouterNode(c) => Link(c, 0)
    case EndpointNode(e) => Terminal(e)
  }

  predicate Attachable(t: Topology, node: Node) {
    match node
    case NoNode => false
    case RouterNode(c) => c < |t.ports| && |t.ports[c]| == 3
    case EndpointNode(e) => e < |t.endpointRouter| == |t.endpointPort|
  }

  /** `child` wired below port `port` of router `r`, in both directions. */
  function Attach(t: Topology, r: nat, port: nat, child: Node): Topology
    requires r < |t.ports| && |t.ports[r]| == 3 && port < 3 && Attachable(t, child)
  {
    var down := t.ports[r := t.ports[r][port := AttachmentTo(child)]];
    match child
    case RouterNode(c) => t.(ports := down[c := down[c][0 := Link(r, port)]])
    case EndpointNode(e) => Topology(down, t.endpointRouter[e := r], t.endpointPort[e := port])
  }

  /** A new router above `left` and `right`. */
  function Joined(t: Topology, left: Node, right: Node): Topology
    requires Attachable(t, left) && Attachable(t, right)
  {
    var grown := t.(ports := t.ports + [[Dummy, Dummy, Dummy]]);
    Attach(Attach(grown, |t.ports|, 1, left), |t.ports|, 2, right)
  }

  // ----- the forest that the levels hold while the tree is being built

  /** Every router built so far is complete below, and above it has a parent or waits for one. */
  ghost predicate Growing(t: Topology, layout: seq<Span>) {
    && |layout| == |t.ports| && |t.endpointRouter| == |t.endpointPort|
    && (forall r :: 0 <= r < |t.ports| ==> ChildOk(t, layout, r, 1) && ChildOk(t, layout, r, 2))
    && (forall r :: 0 <= r < |t.ports| ==> layout[r].lo < layout[r].mid < layout[r].hi && layout[r].height >= 1)
    && (forall r :: 0 <= r < |t.ports| ==> |t.ports[r]| == 3 && (t.ports[r][0] == Dummy || ParentOk(t, r)))
    && (forall e :: 0 <= e < |t.endpointRouter| ==> t.endpointRouter[e] == -1 || EndpointOk(t, e))
  }

  /** `node` is a parentless subtree over the endpoints [lo, hi). */
  ghost predicate Covers(t: Topology, layout: seq<Span>, node: Node, lo: nat, hi: nat)
    requires |layout| == |t.ports| && |t.endpointRouter| == |t.endpointPort|
  {
    lo < hi <= |t.endpointRouter|
    && match node
       case NoNode => false
       case EndpointNode(e) => e == lo && hi == lo + 1 && t.endpointRouter[e] == -1
       case RouterNode(c) =>
         c < |t.ports| && |t.ports[c]| == 3 && t.ports[c][0] == Dummy && layout[c].lo == lo && layout[c].hi == hi
  }

  function Height(layout: seq<Span>, node: Node): nat {
    if node.RouterNode? && node.router < |layout| then layout[node.router].height else 0
  }

  /** `forest` lists the parentless subtrees from left to right, cut at `cuts`. */
  ghost predicate Forest(t: Topology, layout: seq<Span>, forest: seq<Node>, cuts: seq<nat>) {
    && Growing(t, layout)
    && |cuts| == |forest| + 1 && cuts[0] == 0 && cuts[|forest|] == |t.endpointRouter|
    && (forall k :: 0 <= k < |forest| ==> Covers(t, layout, forest[k], cuts[k], cuts[k + 1]))
    && (forall r :: 0 <= r < |t.ports| && t.ports[r][0] == Dummy ==> RouterNode(r) in forest)
    && (forall e :: 0 <= e < |t.endpointRouter| && t.endpointRouter[e] == -1 ==> EndpointNode(e) in forest)
    && |forest| + |t.ports| == |t.endpointRouter|
  }

  function JoinedSpan(layout: seq<Span>, left: Node, right: Node, lo: nat, mid: nat, hi: nat): Span {
    var l, r := Height(layout, left), Height(layout, right);
    Span(lo, mid, hi, 1 + if l < r then r else l)
  }

  /** What a join rewires: the new router, the parent ports of its children, the places of its endpoints. */
  ghost predicate IsJoin(t: Topology, left: Node, right: Node, u: Topology) {
    var top := |t.ports|;
    && |u.ports| == top + 1 && u.ports[top] == [Dummy, AttachmentTo(left), AttachmentTo(right)]
    && (forall r :: 0 <= r < top ==> u.ports[r] == Reparented(t.ports[r], left, right, r, top))
    && |u.endpointRouter| == |t.endpointRouter| && |u.endpointPort| == |t.endpointPort|
    && (forall e :: 0 <= e < |t.endpointRouter| ==> u.endpointRouter[e] == PlacedAt(t.endpointRouter[e], left, right, e, top, top))
    && (forall e :: 0 <= e < |t.endpointPort| ==> u.endpointPort[e] == PlacedAt(t.endpointPort[e], left, right, e, 1, 2))
  }

  function Reparented(ports: seq<Attachment>, left: Node, right: Node, r: nat, top: nat): seq<Attachment> {
    if |ports| != 3 then ports
    else if left == RouterNode(r) then [Link(top, 1), ports[1], ports[2]]
    else if right == RouterNode(r) then [Link(top, 2), ports[1], ports[2]]
    else ports
  }

  function PlacedAt(was: int, left: Node, right: Node, e: nat, ifLeft: int, ifRight: int): int {
    if left == EndpointNode(e) then ifLeft else if right == EndpointNode(e) then ifRight else was
  }

  lemma JoinedIsJoin(t: Topology, left: Node, right: Node)
    requires Attachable(t, left) && Attachable(t, right) && left != right
    ensures IsJoin(t, left, right, Joined(t, left, right))
  {
  }

  /** Old routers stay complete below: their children have parents already. */
  lemma JoinKeepsChild(t: Topology, layout: seq<Span>, left: Node, right: Node, lo: nat, mid: nat, hi: nat, u: Topology,
                       span: Span, r: nat, port: nat)
    requires Growing(t, layout) && r < |t.ports| && 1 <= port <= 2
    requires Covers(t, layout, left, lo, mid) && Covers(t, layout, right, mid, hi) && IsJoin(t, left, right, u)
    ensures ChildOk(u, layout + [span], r, port)
  {
    assert ChildOk(t, layout, r, port);
  }

  lemma JoinKeepsParent(t: Topology, layout: seq<Span>, left: Node, right: Node, lo: nat, mid: nat, hi: nat, u: Topology, r: nat)
    requires Growing(t, layout) && r < |t.ports|
    requires Covers(t, layout, left, lo, mid) && Covers(t, layout, right, mid, hi) && IsJoin(t, left, right, u)
    ensures |u.ports[r]| == 3 && (u.ports[r][0] == Dummy || ParentOk(u, r))
  {
    assert u.ports[r] == Reparented(t.ports[r], left, right, r, |t.ports|);
    if t.ports[r][0] != Dummy {
      assert ParentOk(t, r);
      var p := t.ports[r][0].router;
      assert u.ports[p] == Reparented(t.ports[p], left, right, p, |t.ports|);
    }
  }

  lemma JoinNewRouter(t: Topology, layout: seq<Span>, left: Node, right: Node, lo: nat, mid: nat, hi: nat, u: Topology)
    requires Growing(t, layout)
    requires Covers(t, layout, left, lo, mid) && Covers(t, layout, right, mid, hi) && IsJoin(t, left, right, u)
    ensures ChildOk(u, layout + [JoinedSpan(layout, left, right, lo, mid, hi)], |t.ports|, 1)
    ensures ChildOk(u, layout + [JoinedSpan(layout, left, right, lo, mid, hi)], |t.ports|, 2)
  {
  }

  lemma JoinKeepsEndpoint(t: Topology, layout: seq<Span>, left: Node, right: Node, lo: nat, mid: nat, hi: nat, u: Topology, e: nat)
    requires Growing(t, layout) && e < |t.endpointRouter|
    requires Covers(t, layout, left, lo, mid) && Covers(t, layout, right, mid, hi) && IsJoin(t, left, right, u)
    ensures u.endpointRouter[e] == -1 || EndpointOk(u, e)
  {
    assert u.endpointRouter[e] == PlacedAt(t.endpointRouter[e], left, right, e, |t.ports|, |t.ports|);
    assert u.endpointPort[e] == PlacedAt(t.endpointPort[e], left, right, e, 1, 2);
    if t.endpointRouter[e] != -1 {
      assert EndpointOk(t, e);
      var r := t.endpointRouter[e];
      assert u.ports[r] == Reparented(t.ports[r], left, right, r, |t.ports|);
    }
  }

  /** Joining two neighbouring subtrees keeps every router complete. */
  lemma JoinGrows(t: Topology, layout: seq<Span>, left: Node, right: Node, lo: nat, mid: nat, hi: nat, u: Topology)
    requires Growing(t, layout)
    requires Covers(t, layout, left, lo, mid) && Covers(t, layout, right, mid, hi) && IsJoin(t, left, right, u)
    ensures Growing(u, layout + [JoinedSpan(layout, left, right, lo, mid, hi)])
    ensures Covers(u, layout + [JoinedSpan(layout, left, right, lo, mid, hi)], RouterNode(|t.ports|), lo, hi)
  {
    var span := JoinedSpan(layout, left, right, lo, mid, hi);
    JoinChildren(t, layout, left, right, lo, mid, hi, u, span);
    JoinNewRouter(t, layout, left, right, lo, mid, hi, u);
    forall r | 0 <= r < |t.ports|
      ensures |u.ports[r]| == 3 && (u.ports[r][0] == Dummy || ParentOk(u, r))
    {
      JoinKeepsParent(t, layout, left, right, lo, mid, hi, u, r);
    }
    forall e | 0 <= e < |u.endpointRouter|
      ensures u.endpointRouter[e] == -1 || EndpointOk(u, e)
    {
      JoinKeepsEndpoint(t, layout, left, right, lo, mid, hi, u, e);
    }
  }

  lemma JoinChildren(t: Topology, layout: seq<Span>, left: Node, right: Node, lo: nat, mid: nat, hi: nat, u: Topology, span: Span)
    requires Growing(t, layout)
    requires Covers(t, layout, left, lo, mid) && Covers(t, layout, right, mid, hi) && IsJoin(t, left, right, u)
    ensures forall r :: 0 <= r < |t.ports| ==> ChildOk(u, layout + [span], r, 1) && ChildOk(u, layout + [span], r, 2)
  {
    forall r | 0 <= r < |t.ports|
      ensures ChildOk(u, layout + [span], r, 1) && ChildOk(u, layout + [span], r, 2)
    {
      JoinKeepsChild(t, layout, left, right, lo, mid, hi, u, span, r, 1);
      JoinKeepsChild(t, layout, left, right, lo, mid, hi, u, span, r, 2);
    }
  }

  /** Joining leaves the subtrees over other endpoints alone. */
  lemma JoinFrame(t: Topology, layout: seq<Span>, left: Node, right: Node, lo: nat, mid: nat, hi: nat, u: Topology,
                  span: Span, other: Node, a: nat, b: nat)
    requires Growing(t, layout)
    requires Covers(t, layout, left, lo, mid) && Covers(t, layout, right, mid, hi) && IsJoin(t, left, right, u)
    requires Covers(t, layout, other, a, b) && (b <= lo || hi <= a)
    ensures Covers(u, layout + [span], other, a, b)
  {
  }

  lemma {:induction false} CutsIncrease(t: Topology, layout: seq<Span>, forest: seq<Node>, cuts: seq<nat>, i: nat, j: nat)
    requires Forest(t, layout, forest, cuts) && i <= j <= |forest|
    ensures cuts[i] <= cuts[j]
    decreases j - i
  {
    if i < j {
      CutsIncrease(t, layout, forest, cuts, i, j - 1);
      assert Covers(t, layout, forest[j - 1], cuts[j - 1], cuts[j - 1 + 1]);
    }
  }

  /** Joining neighbours k and k + 1 of a forest gives a forest with one subtree fewer and one router more. */
  lemma JoinForest(t: Topology, layout: seq<Span>, forest: seq<Node>, cuts: seq<nat>, k: nat, u: Topology)
    requires Forest(t, layout, forest, cuts) && k + 1 < |forest| && IsJoin(t, forest[k], forest[k + 1], u)
    ensures Forest(u,
                   layout + [JoinedSpan(layout, forest[k], forest[k + 1], cuts[k], cuts[k + 1], cuts[k + 2])],
                   forest[..k] + [RouterNode(|t.ports|)] + forest[k + 2..],
                   cuts[..k + 1] + cuts[k + 2..])
  {
    var left, right := forest[k], forest[k + 1];
    var lo, mid, hi := cuts[k], cuts[k + 1], cuts[k + 2];
    assert Covers(t, layout, left, lo, mid) && Covers(t, layout, right, mid, cuts[k + 1 + 1]);
    JoinGrows(t, layout, left, right, lo, mid, hi, u);
    var span := JoinedSpan(layout, left, right, lo, mid, hi);
    var trees := forest[..k] + [RouterNode(|t.ports|)] + forest[k + 2..];
    var ends := cuts[..k + 1] + cuts[k + 2..];
    forall j | 0 <= j < |trees|
      ensures Covers(u, layout + [span], trees[j], ends[j], ends[j + 1])
    {
      if j < k {
        CutsIncrease(t, layout, forest, cuts, j + 1, k);
        JoinFrame(t, layout, left, right, lo, mid, hi, u, span, forest[j], cuts[j], cuts[j + 1]);
      } else if j > k {
        CutsIncrease(t, layout, forest, cuts, k + 2, j + 1);
        JoinFrame(t, layout, left, right, lo, mid, hi, u, span, forest[j + 1], cuts[j + 1], cuts[j + 1 + 1]);
      }
    }
    JoinTracks(t, layout, forest, cuts, k, u);
  }

  /** After a join the parentless routers and the loose endpoints are still listed. */
  lemma JoinTracks(t: Topology, layout: seq<Span>, forest: seq<Node>, cuts: seq<nat>, k: nat, u: Topology)
    requires Forest(t, layout, forest, cuts) && k + 1 < |forest| && IsJoin(t, forest[k], forest[k + 1], u)
    ensures var trees := forest[..k] + [RouterNode(|t.ports|)] + forest[k + 2..];
            && (forall r :: 0 <= r < |u.ports| && |u.ports[r]| == 3 && u.ports[r][0] == Dummy ==> RouterNode(r) in trees)
            && (forall e :: 0 <= e < |u.endpointRouter| && u.endpointRouter[e] == -1 ==> EndpointNode(e) in trees)
  {
    var trees := forest[..k] + [RouterNode(|t.ports|)] + forest[k + 2..];
    assert trees[k] == RouterNode(|t.ports|);
    forall node | node in forest && node != forest[k] && node != forest[k + 1]
      ensures node in trees
    {
      var j :| 0 <= j < |forest| && forest[j] == node;
      assert if j < k then trees[j] == node else trees[j - 1] == node;
    }
    forall r | 0 <= r < |u.ports| && |u.ports[r]| == 3 && u.ports[r][0] == Dummy
      ensures RouterNode(r) in trees
    {
      if r < |t.ports| {
        assert u.ports[r] == Reparented(t.ports[r], forest[k], forest[k + 1], r, |t.ports|);
      }
    }
    forall e | 0 <= e < |u.endpointRouter| && u.endpointRouter[e] == -1
      ensures EndpointNode(e) in trees
    {
      assert u.endpointRouter[e] == PlacedAt(t.endpointRouter[e], forest[k], forest[k + 1], e, |t.ports|, |t.ports|);
    }
  }

  /** A forest of one tree over at least two endpoints is the finished topology. */
  lemma SingleTree(t: Topology, layout: seq<Span>, forest: seq<Node>, cuts: seq<nat>)
    requires Forest(t, layout, forest, cuts) && |forest| == 1 && |t.endpointRouter| >= 2
    ensures IsTree(t, layout) && |t.ports| == |t.endpointRouter| - 1 && forest[0] == RouterNode(|t.ports| - 1)
  {
    assert Covers(t, layout, forest[0], cuts[0], cuts[0 + 1]);
    var last := |t.ports| - 1;
    assert !ParentOk(t, last);
    assert RouterNode(last) in forest;
  }

  lemma LooseEndpoints(t: Topology, n: nat, forest: seq<Node>, cuts: seq<nat>)
    requires t.ports == [] && |t.endpointRouter| == |t.endpointPort| == n == |forest| && |cuts| == n + 1
    requires forall e :: 0 <= e < n ==> t.endpointRouter[e] == -1
    requires forall e :: 0 <= e < n ==> forest[e] == EndpointNode(e)
    requires forall e :: 0 <= e <= n ==> cuts[e] == e
    ensures Forest(t, [], forest, cuts)
  {
    forall e | 0 <= e < n
      ensures EndpointNode(e) in forest
    {
      assert forest[e] == EndpointNode(e);
    }
  }

  // ----- one level of nodes in the middle of a pass

  /**
   * Slots [0, done) hold finished parents, slots [index, live) nodes still to be paired; together they
   * list the forest. The other slots in use are empty.
   */
  ghost predicate Slots(level: seq<Node>, count: nat, index: nat, done: nat, live: nat, forest: seq<Node>) {
    && index <= live <= count <= |level| && done <= index / 2 && (live > index ==> 2 * done == index)
    && |forest| == done + (live - index)
    && (forall k :: 0 <= k < done ==> level[k] == forest[k])
    && (forall k :: index <= k < live ==> level[k] == forest[done + (k - index)])
    && (forall k :: done <= k < index / 2 ==> level[k] == NoNode)
    && (forall k :: live <= k < count ==> level[k] == NoNode)
  }

  /** Parents made in this pass are at most one level higher than the nodes they pair. */
  ghost predicate LowForest(layout: seq<Span>, forest: seq<Node>, done: nat, height: nat) {
    && (forall k :: 0 <= k < done && k < |forest| ==> Height(layout, forest[k]) <= height + 1)
    && (forall k :: done <= k < |forest| ==> Height(layout, forest[k]) <= height)
    && (forall r :: 0 <= r < |layout| ==> layout[r].height <= if done == 0 then height else height + 1)
  }

  /** Before the first pass the array holds the endpoints, none of which is a router. */
  lemma SlotsStart(level: seq<Node>, forest: seq<Node>)
    requires |forest| <= |level| && forall e :: 0 <= e < |forest| ==> forest[e].EndpointNode?
    requires forall k :: 0 <= k < |level| ==> level[k] == if k < |forest| then forest[k] else NoNode
    ensures Slots(level, |level|, 0, 0, |forest|, forest) && LowForest([], forest, 0, 0)
  {
  }

  /** After the last pass one tree is left. */
  lemma SlotsEnd(level: seq<Node>, layout: seq<Span>, forest: seq<Node>, passes: nat)
    requires 1 <= |forest| && Slots(level, 1, 0, 0, |forest|, forest) && LowForest(layout, forest, 0, passes)
    ensures |forest| == 1 && forall r :: 0 <= r < |layout| ==> layout[r].height <= passes
  {
  }

  /** What the two nodes about to be paired are. */
  lemma SlotsHere(level: seq<Node>, count: nat, index: nat, done: nat, live: nat, forest: seq<Node>,
                  t: Topology, layout: seq<Span>, cuts: seq<nat>)
    requires Slots(level, count, index, done, live, forest) && index + 2 <= count && index % 2 == 0
    requires Forest(t, layout, forest, cuts)
    ensures if live >= index + 2 then
              && done + 1 < |forest| && level[index] == forest[done] && level[index + 1] == forest[done + 1]
              && Attachable(t, level[index]) && Attachable(t, level[index + 1]) && level[index] != level[index + 1]
              && level[index] != NoNode && level[index + 1] != NoNode
            else if live == index + 1 then level[index] == forest[done] != NoNode && level[index + 1] == NoNode
            else level[index] == NoNode && level[index + 1] == NoNode
  {
    if live > index {
      assert Covers(t, layout, forest[done], cuts[done], cuts[done + 1]);
      if live >= index + 2 {
        assert Covers(t, layout, forest[done + 1], cuts[done + 1], cuts[done + 1 + 1]);
      }
    }
  }

  lemma SlotsAdvance(level: seq<Node>, count: nat, index: nat, done: nat, live: nat, forest: seq<Node>, parent: Node)
    requires Slots(level, count, index, done, live, forest) && index + 2 <= count && index % 2 == 0
    requires live == index + 1 ==> parent == level[index]
    requires live == index ==> parent == NoNode
    ensures live >= index + 2 ==>
      Slots(level[index / 2 := parent], count, index + 2, done + 1, live, forest[..done] + [parent] + forest[done + 2..])
    ensures live == index + 1 ==> Slots(level[index / 2 := parent], count, index + 2, done + 1, index + 2, forest)
    ensures live == index ==> Slots(level[index / 2 := parent], count, index + 2, done, index + 2, forest)
  {
  }

  lemma LowJoin(t: Topology, layout: seq<Span>, forest: seq<Node>, cuts: seq<nat>, done: nat, height: nat)
    requires Forest(t, layout, forest, cuts)
    requires LowForest(layout, forest, done, height) && done + 1 < |forest|
    ensures LowForest(layout + [JoinedSpan(layout, forest[done], forest[done + 1], cuts[done], cuts[done + 1], cuts[done + 2])],
                      forest[..done] + [RouterNode(|layout|)] + forest[done + 2..], done + 1, height)
  {
    forall k | 0 <= k < |forest|
      ensures forest[k].RouterNode? ==> forest[k].router < |layout|
    {
      assert Covers(t, layout, forest[k], cuts[k], cuts[k + 1]);
    }
  }

  /** The bookkeeping of pairing slots `index` and `index + 1`. */
  lemma PairStep(t: Topology, layout: seq<Span>, forest: seq<Node>, cuts: seq<nat>, level: seq<Node>, count: nat, index: nat,
                 done: nat, live: nat, height: nat, u: Topology, parent: Node)
    returns (layout': seq<Span>, forest': seq<Node>, cuts': seq<nat>, done': nat, live': nat)
    requires Forest(t, layout, forest, cuts) && 1 <= |forest| && LowForest(layout, forest, done, height)
    requires Slots(level, count, index, done, live, forest) && index + 2 <= count && index % 2 == 0
    requires live >= index + 2 ==>
      && Attachable(t, level[index]) && Attachable(t, level[index + 1])
      && parent == RouterNode(|t.ports|) && u == Joined(t, level[index], level[index + 1])
    requires live == index + 1 ==> parent == level[index] && u == t
    requires live == index ==> parent == NoNode && u == t
    ensures Forest(u, layout', forest', cuts') && 1 <= |forest'| && LowForest(layout', forest', done', height)
    ensures Slots(level[index / 2 := parent], count, index + 2, done', live', forest')
    ensures |u.endpointRouter| == |t.endpointRouter|
  {
    SlotsHere(level, count, index, done, live, forest, t, layout, cuts);
    SlotsAdvance(level, count, index, done, live, forest, parent);
    if live >= index + 2 {
      JoinedIsJoin(t, forest[done], forest[done + 1]);
      JoinForest(t, layout, forest, cuts, done, u);
      LowJoin(t, layout, forest, cuts, done, height);
      layout' := layout + [JoinedSpan(layout, forest[done], forest[done + 1], cuts[done], cuts[done + 1], cuts[done + 2])];
      forest', cuts' := forest[..done] + [parent] + forest[done + 2..], cuts[..done + 1] + cuts[done + 2..];
      done', live' := done + 1, live;
    } else {
      layout', forest', cuts', live' := layout, forest, cuts, index + 2;
      done' := if live == index + 1 then done + 1 else done;
    }
  }

  class FabricTopology {
    var routers: seq<seq<Attachment>>
    var endpointRouter: seq<int>
    var endpointPort: seq<int>
    ghost var layout: seq<Span>

    function View(): Topology
      reads this
    {
      Topology(routers, endpointRouter, endpointPort)
    }

    /** make_topology_parent: an empty side passes the other through, otherwise a router joins both. */
    method MakeParent(left: Node, right: Node) returns (parent: Node)
      requires left != NoNode && right != NoNode ==> Attachable(View(), left) && Attachable(View(), right)
      modifies this`routers, this`endpointRouter, this`endpointPort
      ensures left == NoNode ==> parent == right && View() == old(View())
      ensures left != NoNode && right == NoNode ==> parent == left && View() == old(View())
      ensures left != NoNode && right != NoNode ==>
        parent == RouterNode(old(|routers|)) && View() == Joined(old(View()), left, right)
    {
      if left == NoNode {
        return right;
      }
      if right == NoNode {
        return left;
      }
      var router := |routers|;
      routers := routers + [[Dummy, Dummy, Dummy]];
      var children := [left, right];
      ghost var grown := View();
      for child := 0 to 2
        invariant View() == if child == 0 then grown
                            else if child == 1 then Attach(grown, router, 1, left)
                            else Attach(Attach(grown, router, 1, left), router, 2, right)
      {
        var port := child + 1;
        routers := routers[router := routers[router][port := AttachmentTo(children[child])]];
        if children[child].RouterNode? {
          var below := children[child].router;
          routers := routers[below := routers[below][0 := Link(router, port)]];
        } else {
          var endpoint := children[child].endpoint;
          endpointRouter := endpointRouter[endpoint := router];
          endpointPort := endpointPort[endpoint := port];
        }
      }
      parent := RouterNode(router);
    }

    /** The least power of two that is not below the number of endpoints. */
    static method LeafCount(count: nat) returns (leafCount: nat, depth: nat)
      requires count >= 1
      ensures leafCount == Pow2(depth) >= count && IsCeilLog2(depth, count)
    {
      leafCount, depth := 1, 0;
      while leafCount < count
        invariant leafCount == Pow2(depth) && (depth > 0 ==> Pow2(depth - 1) < count)
        decreases count - leafCount
      {
        leafCount, depth := leafCount * 2, depth + 1;
      }
    }

    /** The topology of at least two routed endpoints: n - 1 routers, at most `top` levels, 2^top minimal. */
    constructor Build(count: nat)
      requires count >= 2
      ensures IsTree(View(), layout)
      ensures |endpointRouter| == count && |routers| == count - 1
      ensures exists top: nat :: IsCeilLog2(top, count)
                && forall r :: 0 <= r < |layout| ==> layout[r].height <= top
    {
      routers := [];
      endpointRouter := seq(count, _ => -1);
      endpointPort := seq(count, _ => -1);
      layout := [];
      new;
      var leafCount, depth := LeafCount(count);
      var level := new Node[leafCount](i => if 0 <= i < count then EndpointNode(i) else NoNode);
      ghost var forest := seq(count, i requires 0 <= i => EndpointNode(i));
      ghost var cuts: seq<nat> := seq(count + 1, i requires 0 <= i => i);
      LooseEndpoints(View(), count, forest, cuts);
      SlotsStart(level[..], forest);
      CombineLevels(level, leafCount, depth, forest, cuts);
    }

    /** The passes: each pairs the nodes of a level until one is left. */
    method CombineLevels(level: array<Node>, leafCount: nat, ghost depth: nat, ghost forest0: seq<Node>, ghost cuts0: seq<nat>)
      requires leafCount == Pow2(depth) <= level.Length && 1 <= |forest0| && |endpointRouter| >= 2
      requires Forest(View(), layout, forest0, cuts0)
      requires Slots(level[..], leafCount, 0, 0, |forest0|, forest0) && LowForest(layout, forest0, 0, 0)
      modifies this, level
      ensures IsTree(View(), layout) && |endpointRouter| == old(|endpointRouter|) && |routers| == |endpointRouter| - 1
      ensures forall r :: 0 <= r < |layout| ==> layout[r].height <= depth
    {
      hide Forest, IsTree, Slots, LowForest, Pow2;
      var levelCount := leafCount;
      ghost var forest, cuts, passes := forest0, cuts0, 0;
      while levelCount > 1
        invariant passes <= depth && levelCount == Pow2(depth - passes) <= level.Length
        invariant |endpointRouter| == old(|endpointRouter|)
        invariant Forest(View(), layout, forest, cuts)
        invariant 1 <= |forest| && Slots(level[..], levelCount, 0, 0, |forest|, forest)
        invariant LowForest(layout, forest, 0, passes)
      {
        HalfOfPow2(depth - passes);
        forest, cuts := CombineLevel(level, levelCount, forest, cuts, passes);
        levelCount := levelCount / 2;
        passes := passes + 1;
      }
      HalfOfPow2(depth - passes);
      SlotsEnd(level[..], layout, forest, passes);
      SingleTree(View(), layout, forest, cuts);
    }

    /** One pass: node 2i and node 2i + 1 become node i. */
    method CombineLevel(level: array<Node>, levelCount: nat, ghost forest0: seq<Node>, ghost cuts0: seq<nat>, ghost height: nat)
      returns (ghost forest: seq<Node>, ghost cuts: seq<nat>)
      requires levelCount % 2 == 0 && levelCount <= level.Length && 1 <= |forest0|
      requires Forest(View(), layout, forest0, cuts0)
      requires Slots(level[..], levelCount, 0, 0, |forest0|, forest0)
      requires LowForest(layout, forest0, 0, height)
      modifies this, level
      ensures Forest(View(), layout, forest, cuts) && |endpointRouter| == old(|endpointRouter|)
      ensures 1 <= |forest| && Slots(level[..], levelCount / 2, 0, 0, |forest|, forest)
      ensures LowForest(layout, forest, 0, height + 1)
    {
      forest, cuts := forest0, cuts0;
      var index := 0;
      ghost var done, live := 0, |forest0|;
      while index < levelCount
        invariant 0 <= done && 0 <= live && index <= levelCount && index % 2 == 0 && |endpointRouter| == old(|endpointRouter|)
        invariant Forest(View(), layout, forest, cuts) && 1 <= |forest|
        invariant Slots(level[..], levelCount, index, done, live, forest)
        invariant LowForest(layout, forest, done, height)
      {
        forest, cuts, done, live := PairSlots(level, levelCount, index, forest, cuts, done, live, height);
        index := index + 2;
      }
    }

    method PairSlots(level: array<Node>, count: nat, index: nat, ghost forest: seq<Node>, ghost cuts: seq<nat>,
                     ghost done: nat, ghost live: nat, ghost height: nat)
      returns (ghost forest': seq<Node>, ghost cuts': seq<nat>, ghost done': nat, ghost live': nat)
      requires index + 2 <= count <= level.Length && index % 2 == 0 && 1 <= |forest|
      requires Forest(View(), layout, forest, cuts) && LowForest(layout, forest, done, height)
      requires Slots(level[..], count, index, done, live, forest)
      modifies this, level
      ensures Forest(View(), layout, forest', cuts') && LowForest(layout, forest', done', height) && 1 <= |forest'|
      ensures Slots(level[..], count, index + 2, done', live', forest')
      ensures |endpointRouter| == old(|endpointRouter|)
    {
      ghost var before, slots := View(), level[..];
      SlotsHere(slots, count, index, done, live, forest, before, layout, cuts);
      var parent := MakeParent(level[index], level[index + 1]);
      level[index / 2] := parent;
      assert level[..] == slots[index / 2 := parent];
      layout, forest', cuts', done', live' :=
        PairStep(before, layout, forest, cuts, slots, count, index, done, live, height, View(), parent);
    }
  }

  /** `top` is the least exponent with n <= 2^top. */
  lemma HalfOfPow2(k: nat)
    ensures if k == 0 then Pow2(k) == 1 else Pow2(k) >= 2 && Pow2(k) % 2 == 0 && Pow2(k) / 2 == Pow2(k - 1)
  {
  }

  predicate IsCeilLog2(top: nat, n: nat) {
    n <= Pow2(top) && (top > 0 ==> Pow2(top - 1) < n)
  }
}
