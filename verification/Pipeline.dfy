/** The clocked machine emitted for an elastic pipeline, and the stream function it computes. */
module Pipeline {

  /**
   * `stage(i, packet, token)` is the combinational body of stage i: it sees the packet of the stage before it and
   * the token at its own ingress. A stage without ingress samples its surroundings as its token.
   */
  datatype Pipe = Pipe(hasIngress: seq<bool>, stage: (nat, int, int) -> int)

  /** The valid and packet registers. */
  datatype State = State(valid: seq<bool>, packet: seq<int>)

  datatype Inputs = Inputs(reset: bool, guard: bool, valid: seq<bool>, token: seq<int>, outReady: bool)

  predicate StateOk(p: Pipe, s: State) { |s.valid| == |s.packet| == |p.hasIngress| >= 1 }

  predicate InputsOk(p: Pipe, x: Inputs) { |x.valid| == |x.token| == |p.hasIngress| }

  /** A stage without ingress never waits for a token. */
  predicate TokenValid(p: Pipe, x: Inputs, i: nat)
    requires InputsOk(p, x) && i < |p.hasIngress|
  {
    p.hasIngress[i] ==> x.valid[i]
  }

  /** sI_slot_ready. */
  predicate SlotReady(p: Pipe, s: State, x: Inputs, i: nat)
    requires StateOk(p, s) && InputsOk(p, x) && i < |p.hasIngress|
    decreases |p.hasIngress| - i, 0
  {
    x.guard && (!s.valid[i] || if i + 1 == |p.hasIngress| then x.outReady else Ready(p, s, x, i + 1))
  }

  /** sI_ready: what the stage before sees. */
  predicate Ready(p: Pipe, s: State, x: Inputs, i: nat)
    requires StateOk(p, s) && InputsOk(p, x) && i < |p.hasIngress|
    decreases |p.hasIngress| - i, 1
  {
    SlotReady(p, s, x, i) && (i > 0 ==> TokenValid(p, x, i))
  }

  /** The ready wire of stage i's ingress. */
  predicate IngressReady(p: Pipe, s: State, x: Inputs, i: nat)
    requires StateOk(p, s) && InputsOk(p, x) && i < |p.hasIngress|
  {
    SlotReady(p, s, x, i) && (i > 0 ==> s.valid[i - 1])
  }

  /** Stage i stores a new packet at the clock edge. */
  predicate Loads(p: Pipe, s: State, x: Inputs, i: nat)
    requires StateOk(p, s) && InputsOk(p, x) && i < |p.hasIngress|
  {
    SlotReady(p, s, x, i) && TokenValid(p, x, i) && (i > 0 ==> s.valid[i - 1])
  }

  /** Stage i takes its token: by the handshake of its ingress if it has one, else whenever it loads. */
  predicate Accepts(p: Pipe, s: State, x: Inputs, i: nat)
    requires StateOk(p, s) && InputsOk(p, x) && i < |p.hasIngress|
  {
    if p.hasIngress[i] then x.valid[i] && IngressReady(p, s, x, i) else Loads(p, s, x, i)
  }

  predicate OutValid(p: Pipe, s: State, x: Inputs)
    requires StateOk(p, s) && InputsOk(p, x)
  {
    x.guard && s.valid[|s.valid| - 1]
  }

  function Combined(p: Pipe, s: State, x: Inputs, i: nat): int
    requires StateOk(p, s) && InputsOk(p, x) && i < |p.hasIngress|
  {
    p.stage(i, if i == 0 then 0 else s.packet[i - 1], x.token[i])
  }

  function Reset(p: Pipe): State {
    State(seq(|p.hasIngress|, i => false), seq(|p.hasIngress|, i => 0))
  }

  function NextValid(p: Pipe, s: State, x: Inputs, i: nat): bool
    requires StateOk(p, s) && InputsOk(p, x) && i < |p.hasIngress|
  {
    if x.guard && SlotReady(p, s, x, i) then Loads(p, s, x, i) else s.valid[i]
  }

  function NextPacket(p: Pipe, s: State, x: Inputs, i: nat): int
    requires StateOk(p, s) && InputsOk(p, x) && i < |p.hasIngress|
  {
    if x.guard && Loads(p, s, x, i) then Combined(p, s, x, i) else s.packet[i]
  }

  function Step(p: Pipe, s: State, x: Inputs): State
    requires StateOk(p, s) && InputsOk(p, x)
  {
    if x.reset then Reset(p)
    else State(seq(|p.hasIngress|, i requires 0 <= i < |p.hasIngress| => NextValid(p, s, x, i)),
               seq(|p.hasIngress|, i requires 0 <= i < |p.hasIngress| => NextPacket(p, s, x, i)))
  }

  /** A stage loads exactly when its token is there and its ready wire is high: no token is taken and dropped. */
  lemma LoadsIffHandshake(p: Pipe, s: State, x: Inputs, i: nat)
    requires StateOk(p, s) && InputsOk(p, x) && i < |p.hasIngress|
    ensures Loads(p, s, x, i) <==> IngressReady(p, s, x, i) && TokenValid(p, x, i)
    ensures Accepts(p, s, x, i) <==> Loads(p, s, x, i)
  {
  }

  /** From stage i on, up to `end`, the stages are full and all but the first have their tokens. */
  ghost predicate FullUpTo(p: Pipe, s: State, x: Inputs, i: nat, end: nat)
    requires StateOk(p, s) && InputsOk(p, x) && i <= end <= |p.hasIngress|
  {
    && (forall j :: i <= j < end ==> s.valid[j])
    && (forall j :: i < j <= end && j < |p.hasIngress| ==> TokenValid(p, x, j))
  }

  /** A gap at `end`: an empty stage, or the output taking a packet. */
  ghost predicate GapAt(p: Pipe, s: State, x: Inputs, end: nat)
    requires StateOk(p, s) && end <= |p.hasIngress|
  {
    if end < |p.hasIngress| then !s.valid[end] else x.outReady
  }

  /** Stage i can take a packet exactly when the guard holds and the stages from it on up to the next gap move together. */
  lemma {:induction false} SlotReadyIffGap(p: Pipe, s: State, x: Inputs, i: nat)
    requires StateOk(p, s) && InputsOk(p, x) && i < |p.hasIngress|
    ensures SlotReady(p, s, x, i) <==>
            x.guard && exists end :: i <= end <= |p.hasIngress| && FullUpTo(p, s, x, i, end) && GapAt(p, s, x, end)
    decreases |p.hasIngress| - i
  {
    var n := |p.hasIngress|;
    if !s.valid[i] {
      assert FullUpTo(p, s, x, i, i) && GapAt(p, s, x, i);
    } else if i + 1 == n {
      assert FullUpTo(p, s, x, i, n);
    } else {
      SlotReadyIffGap(p, s, x, i + 1);
      forall end | i <= end <= n && FullUpTo(p, s, x, i, end) && GapAt(p, s, x, end)
        ensures FullUpTo(p, s, x, i + 1, end) && TokenValid(p, x, i + 1)
      {
      }
      forall end | i + 1 <= end <= n && FullUpTo(p, s, x, i + 1, end) && TokenValid(p, x, i + 1)
        ensures FullUpTo(p, s, x, i, end)
      {
      }
    }
  }

  /** Whether a slot can take a packet does not depend on the tokens of its own and of earlier ingresses. */
  lemma {:induction false} SlotIgnoresTokens(p: Pipe, s: State, x: Inputs, i: nat, j: nat, b: bool)
    requires StateOk(p, s) && InputsOk(p, x) && j <= i < |p.hasIngress|
    ensures SlotReady(p, s, x.(valid := x.valid[j := b]), i) <==> SlotReady(p, s, x, i)
    decreases |p.hasIngress| - i
  {
    if i + 1 < |p.hasIngress| {
      SlotIgnoresTokens(p, s, x, i + 1, j, b);
    }
  }

  /** No handshake waits for its partner: ready does not look at its own valid, nor valid at its own ready. */
  lemma {:induction false} NoHandshakeWaits(p: Pipe, s: State, x: Inputs, i: nat, b: bool)
    requires StateOk(p, s) && InputsOk(p, x) && i < |p.hasIngress|
    ensures IngressReady(p, s, x.(valid := x.valid[i := b]), i) <==> IngressReady(p, s, x, i)
    ensures OutValid(p, s, x.(outReady := b)) <==> OutValid(p, s, x)
  {
    SlotIgnoresTokens(p, s, x, i, i, b);
  }

  /** A packet offered and not taken is offered again, unchanged, whenever the guard holds next. */
  lemma OfferStands(p: Pipe, s: State, x: Inputs, next: Inputs)
    requires StateOk(p, s) && InputsOk(p, x) && InputsOk(p, next) && !x.reset && next.guard
    requires OutValid(p, s, x) && !x.outReady
    ensures var t, last := Step(p, s, x), |p.hasIngress| - 1;
            StateOk(p, t) && OutValid(p, t, next) && t.packet[last] == s.packet[last]
  {
    var last := |p.hasIngress| - 1;
    assert !SlotReady(p, s, x, last);
  }

  /** A packet leaves stage i exactly when stage i + 1 loads it. */
  lemma LeavesIffNextLoads(p: Pipe, s: State, x: Inputs, i: nat)
    requires StateOk(p, s) && InputsOk(p, x) && i + 1 < |p.hasIngress| && s.valid[i]
    ensures Loads(p, s, x, i + 1) <==> SlotReady(p, s, x, i)
  {
  }

  /** A false guard freezes the registers and closes every handshake. */
  lemma FalseGuardFreezes(p: Pipe, s: State, x: Inputs, i: nat)
    requires StateOk(p, s) && InputsOk(p, x) && !x.reset && !x.guard && i < |p.hasIngress|
    ensures Step(p, s, x) == s && !OutValid(p, s, x) && !IngressReady(p, s, x, i)
  {
    assert Step(p, s, x).valid == s.valid && Step(p, s, x).packet == s.packet;
  }

  // ----- streams

  /** Everything observed since the last reset: the tokens each stage took by its handshake, the packets put out. */
  datatype Trace = Trace(state: State, accepted: seq<seq<int>>, output: seq<int>)

  function Start(p: Pipe): Trace { Trace(Reset(p), seq(|p.hasIngress|, i => []), []) }

  ghost predicate TraceOk(p: Pipe, t: Trace) { StateOk(p, t.state) && |t.accepted| == |p.hasIngress| }

  function Observe(p: Pipe, t: Trace, x: Inputs): Trace
    requires StateOk(p, t.state) && |t.accepted| == |p.hasIngress| && InputsOk(p, x)
  {
    Trace(Step(p, t.state, x),
          seq(|t.accepted|, i requires 0 <= i < |t.accepted| =>
            t.accepted[i] + if Accepts(p, t.state, x, i) then [x.token[i]] else []),
          t.output + if OutValid(p, t.state, x) && x.outReady then [t.state.packet[|t.state.packet| - 1]] else [])
  }

  /** All stages up to i have accepted their k-th token. */
  predicate AllHave(accepted: seq<seq<int>>, i: nat, k: nat) {
    i < |accepted| && forall j :: 0 <= j <= i ==> k < |accepted[j]|
  }

  /** The k-th item of stage i: the stage bodies applied to the k-th tokens of stages 0 to i. */
  function Item(p: Pipe, accepted: seq<seq<int>>, i: nat, k: nat): int
    requires AllHave(accepted, i, k)
  {
    p.stage(i, if i == 0 then 0 else Item(p, accepted, i - 1, k), accepted[i][k])
  }

  /** Later tokens do not change earlier items. */
  lemma {:induction false} ItemStays(p: Pipe, a: seq<seq<int>>, b: seq<seq<int>>, i: nat, k: nat)
    requires |a| == |b| && (forall j :: 0 <= j < |a| ==> a[j] <= b[j])
    requires AllHave(a, i, k)
    ensures AllHave(b, i, k) && Item(p, a, i, k) == Item(p, b, i, k)
  {
    assert a[i] <= b[i];
    if i > 0 {
      assert AllHave(a, i - 1, k);
      ItemStays(p, a, b, i - 1, k);
    }
  }

  function One(b: bool): nat { if b then 1 else 0 }

  /** Stage i has accepted what it still holds and what stage i + 1, or the output, has taken from it. */
  ghost predicate CountedAt(t: Trace, i: nat)
    requires i < |t.accepted| && i < |t.state.valid|
  {
    Level(t, i) == Level(t, i + 1) + One(t.state.valid[i])
  }

  ghost predicate Counted(p: Pipe, t: Trace) {
    TraceOk(p, t) && forall i :: 0 <= i < |t.accepted| ==> CountedAt(t, i)
  }

  /** How many items have entered stage i; past the last stage, how many were put out. */
  function Level(t: Trace, i: nat): nat
    requires i <= |t.accepted|
  {
    if i == |t.accepted| then |t.output| else |t.accepted[i]|
  }

  /** Each register holds the newest item of its stage. */
  ghost predicate Held(p: Pipe, t: Trace)
    requires TraceOk(p, t)
  {
    forall i :: 0 <= i < |t.accepted| && t.state.valid[i] ==>
      && |t.accepted[i]| > 0
      && AllHave(t.accepted, i, |t.accepted[i]| - 1)
      && t.state.packet[i] == Item(p, t.accepted, i, |t.accepted[i]| - 1)
  }

  /** The k-th output is the last stage's k-th item. */
  ghost predicate Delivered(p: Pipe, t: Trace)
    requires TraceOk(p, t)
  {
    forall k :: 0 <= k < |t.output| ==>
      && AllHave(t.accepted, |t.accepted| - 1, k)
      && t.output[k] == Item(p, t.accepted, |t.accepted| - 1, k)
  }

  ghost predicate Faithful(p: Pipe, t: Trace) { Counted(p, t) && Held(p, t) && Delivered(p, t) }

  /** No stage is ahead of an earlier one, and the pipeline holds no more items than it has stages. */
  lemma {:induction false} AtMostOneEach(p: Pipe, t: Trace, i: nat, j: nat)
    requires Counted(p, t) && i <= j <= |t.accepted|
    ensures Level(t, j) <= Level(t, i) <= Level(t, j) + (j - i)
    decreases j - i
  {
    if i < j {
      assert CountedAt(t, i);
      AtMostOneEach(p, t, i + 1, j);
    }
  }

  lemma AllHaveUpTo(p: Pipe, t: Trace, i: nat, k: nat)
    requires Counted(p, t) && i < |t.accepted| && k < |t.accepted[i]|
    ensures AllHave(t.accepted, i, k)
  {
    forall j | 0 <= j <= i
      ensures k < |t.accepted[j]|
    {
      AtMostOneEach(p, t, j, i);
    }
  }

  lemma {:induction false} CountedStep(p: Pipe, t: Trace, x: Inputs)
    requires Counted(p, t) && InputsOk(p, x) && !x.reset
    ensures Counted(p, Observe(p, t, x))
    ensures forall i :: 0 <= i < |t.accepted| ==> t.accepted[i] <= Observe(p, t, x).accepted[i]
  {
    var t' := Observe(p, t, x);
    forall i | 0 <= i < |t.accepted|
      ensures CountedAt(t', i)
    {
      assert CountedAt(t, i);
      LoadsIffHandshake(p, t.state, x, i);
      if i + 1 < |t.accepted| {
        LoadsIffHandshake(p, t.state, x, i + 1);
        if t.state.valid[i] {
          LeavesIffNextLoads(p, t.state, x, i);
        }
      }
    }
  }

  /** A stage that loads stores its next item. */
  lemma {:induction false} LoadsNextItem(p: Pipe, t: Trace, x: Inputs, i: nat)
    requires Counted(p, t) && Held(p, t) && InputsOk(p, x) && !x.reset
    requires i < |t.accepted| && Loads(p, t.state, x, i)
    ensures AllHave(Observe(p, t, x).accepted, i, |t.accepted[i]|)
    ensures Combined(p, t.state, x, i) == Item(p, Observe(p, t, x).accepted, i, |t.accepted[i]|)
  {
    assert i > 0 ==> t.state.valid[i - 1];
    LoadsIffHandshake(p, t.state, x, i);
    hide Step, Loads, Accepts;
    CountedStep(p, t, x);
    var t' := Observe(p, t, x);
    var k := |t.accepted[i]|;
    assert t'.accepted[i] == t.accepted[i] + [x.token[i]];
    AllHaveUpTo(p, t', i, k);
    if i > 0 {
      assert CountedAt(t, i - 1);
      ItemStays(p, t.accepted, t'.accepted, i - 1, k);
    }
  }

  lemma {:induction false} HeldStep(p: Pipe, t: Trace, x: Inputs, i: nat)
    requires Counted(p, t) && Held(p, t) && InputsOk(p, x) && !x.reset
    requires i < |t.accepted| && Observe(p, t, x).state.valid[i]
    ensures var t' := Observe(p, t, x);
            && |t'.accepted[i]| > 0
            && AllHave(t'.accepted, i, |t'.accepted[i]| - 1)
            && t'.state.packet[i] == Item(p, t'.accepted, i, |t'.accepted[i]| - 1)
  {
    LoadsIffHandshake(p, t.state, x, i);
    hide Item, Combined, AllHave;
    if Loads(p, t.state, x, i) {
      LoadsNextItem(p, t, x, i);
    } else {
      CountedStep(p, t, x);
      ItemStays(p, t.accepted, Observe(p, t, x).accepted, i, |t.accepted[i]| - 1);
    }
  }

  lemma {:induction false} DeliveredStep(p: Pipe, t: Trace, x: Inputs)
    requires Faithful(p, t) && InputsOk(p, x) && !x.reset
    ensures Delivered(p, Observe(p, t, x))
  {
    CountedStep(p, t, x);
    var t' := Observe(p, t, x);
    var last := |t.accepted| - 1;
    assert CountedAt(t, last);
    forall k | 0 <= k < |t'.output|
      ensures AllHave(t'.accepted, last, k) && t'.output[k] == Item(p, t'.accepted, last, k)
    {
      AllHaveUpTo(p, t, last, k);
      ItemStays(p, t.accepted, t'.accepted, last, k);
    }
  }

  lemma FaithfulStep(p: Pipe, t: Trace, x: Inputs)
    requires Faithful(p, t) && InputsOk(p, x) && !x.reset
    ensures Faithful(p, Observe(p, t, x))
  {
    CountedStep(p, t, x);
    DeliveredStep(p, t, x);
    forall i | 0 <= i < |t.accepted| && Observe(p, t, x).state.valid[i]
      ensures |Observe(p, t, x).accepted[i]| > 0
      ensures AllHave(Observe(p, t, x).accepted, i, |Observe(p, t, x).accepted[i]| - 1)
      ensures Observe(p, t, x).state.packet[i] ==
              Item(p, Observe(p, t, x).accepted, i, |Observe(p, t, x).accepted[i]| - 1)
    {
      HeldStep(p, t, x, i);
    }
  }

  ghost predicate Quiet(p: Pipe, xs: seq<Inputs>) {
    forall c :: 0 <= c < |xs| ==> InputsOk(p, xs[c]) && !xs[c].reset
  }

  /** The trace after a series of cycles without reset. */
  function Run(p: Pipe, t: Trace, xs: seq<Inputs>): (r: Trace)
    requires TraceOk(p, t) && forall c :: 0 <= c < |xs| ==> InputsOk(p, xs[c])
    ensures TraceOk(p, r)
    decreases |xs|
  {
    if xs == [] then t else Run(p, Observe(p, t, xs[0]), xs[1..])
  }

  lemma {:induction false} FaithfulRun(p: Pipe, t: Trace, xs: seq<Inputs>)
    requires Faithful(p, t) && Quiet(p, xs)
    ensures Faithful(p, Run(p, t, xs))
    decreases |xs|
  {
    if xs != [] {
      FaithfulStep(p, t, xs[0]);
      FaithfulRun(p, Observe(p, t, xs[0]), xs[1..]);
    }
  }

  /**
   * From a reset on, for every guard, ingress and output behaviour: the k-th output is the stage bodies applied to
   * the k-th token that every stage has taken by its handshake, every stage has taken a token for each output, and at
   * most one item per stage is still inside.
   */
  lemma {:induction false} StreamFunction(p: Pipe, xs: seq<Inputs>)
    requires |p.hasIngress| >= 1 && Quiet(p, xs)
    ensures var t := Run(p, Start(p), xs);
            var last := |p.hasIngress| - 1;
            && Delivered(p, t)
            && (forall i :: 0 <= i <= last ==> |t.output| <= |t.accepted[i]| <= |t.output| + (last + 1 - i))
  {
    assert Faithful(p, Start(p));
    FaithfulRun(p, Start(p), xs);
    var t := Run(p, Start(p), xs);
    forall i | 0 <= i < |p.hasIngress|
      ensures |t.output| <= |t.accepted[i]| <= |t.output| + (|p.hasIngress| - i)
    {
      AtMostOneEach(p, t, i, |p.hasIngress|);
    }
  }

  /** A reset empties every stage, whatever the pipeline held, so that what follows is the stream function again. */
  lemma {:induction false} ResetStartsAfresh(p: Pipe, s: State, x: Inputs, xs: seq<Inputs>)
    requires StateOk(p, s) && InputsOk(p, x) && x.reset && Quiet(p, xs)
    ensures StateOk(p, Step(p, s, x)) && forall i :: 0 <= i < |p.hasIngress| ==> !Step(p, s, x).valid[i]
    ensures var t := Run(p, Trace(Step(p, s, x), seq(|p.hasIngress|, i => []), []), xs);
            && Delivered(p, t)
            && forall i :: 0 <= i < |p.hasIngress| ==> |t.output| <= |t.accepted[i]|
  {
    StreamFunction(p, xs);
    assert Trace(Step(p, s, x), seq(|p.hasIngress|, i => []), []) == Start(p);
  }

  /** A cycle in which nothing outside the pipeline holds it back. */
  ghost predicate Flowing(p: Pipe, x: Inputs) {
    InputsOk(p, x) && !x.reset && x.guard && x.outReady && forall i :: 0 <= i < |p.hasIngress| ==> TokenValid(p, x, i)
  }

  /** In a flowing cycle no slot is busy. */
  lemma {:induction false} NoStall(p: Pipe, s: State, x: Inputs, i: nat)
    requires StateOk(p, s) && Flowing(p, x) && i < |p.hasIngress|
    ensures SlotReady(p, s, x, i)
    decreases |p.hasIngress| - i
  {
    if i + 1 < |p.hasIngress| {
      NoStall(p, s, x, i + 1);
    }
  }

  /** Flowing cycles move every item one stage each, so as many as there are stages put out all items accepted. */
  lemma {:induction false} FlowsThrough(p: Pipe, t: Trace, xs: seq<Inputs>, i: nat)
    requires Counted(p, t) && Quiet(p, xs) && (forall c :: 0 <= c < |xs| ==> Flowing(p, xs[c]))
    requires i + |xs| <= |p.hasIngress|
    ensures Level(Run(p, t, xs), i + |xs|) == Level(t, i)
    decreases |xs|
  {
    if xs != [] {
      assert Flowing(p, xs[0]);
      FlowMoves(p, t, xs[0], i);
      hide Counted, Flowing, Observe, Level;
      FlowsThrough(p, Observe(p, t, xs[0]), xs[1..], i + 1);
    }
  }

  /** In one flowing cycle everything that has entered a stage enters the next. */
  lemma FlowMoves(p: Pipe, t: Trace, x: Inputs, i: nat)
    requires Counted(p, t) && Flowing(p, x) && i < |p.hasIngress|
    ensures Counted(p, Observe(p, t, x)) && Level(Observe(p, t, x), i + 1) == Level(t, i)
  {
    var t' := Observe(p, t, x);
    NoStall(p, t.state, x, i);
    CountedStep(p, t, x);
    assert CountedAt(t, i) && CountedAt(t', i);
  }
}
