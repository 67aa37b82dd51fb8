/** Bounded delivery: whatever was sent by some cycle has come out, in order, a fixed number of cycles later. */
module FabricLatency {
  import opened Numbers
  import opened FabricWords
  import opened FabricTree
  import opened FabricTrace
  import opened FabricFifo
  import opened FabricNet
  import opened FabricSafety
  import opened FabricRuns
  import opened FabricProgress
  import opened FabricLiveness

  /** What place `place` pops in cycles [t, u). */
  ghost function PoppedIn(f: Fabric, x: nat -> Inputs, s: nat -> State, t: nat, u: nat, place: Place): seq<Packet>
    requires IsRun(f, x, s, u) && t <= u && PlaceOk(f, place)
    decreases u
  {
    if t == u then []
    else
      assert Next(f, s(u - 1), x(u - 1), s(u - 1 + 1));
      PoppedIn(f, x, s, t, u - 1, place) + Popped(f, s(u - 1), x(u - 1), place)
  }

  ghost function PushedIn(f: Fabric, x: nat -> Inputs, s: nat -> State, t: nat, u: nat, place: Place): seq<Packet>
    requires IsRun(f, x, s, u) && t <= u && PlaceOk(f, place)
    decreases u
  {
    if t == u then []
    else
      assert Next(f, s(u - 1), x(u - 1), s(u - 1 + 1));
      PushedIn(f, x, s, t, u - 1, place) + Pushed(f, s(u - 1), x(u - 1), place)
  }

  /** First in, first out, over any stretch of cycles. */
  lemma {:induction false} PlaceAccount(f: Fabric, x: nat -> Inputs, s: nat -> State, t: nat, u: nat, place: Place)
    requires IsRun(f, x, s, u) && t <= u && PlaceOk(f, place)
    ensures StateOk(f, s(t)) && StateOk(f, s(u))
    ensures PoppedIn(f, x, s, t, u, place) + Contents(At(f, s(u), place))
         == Contents(At(f, s(t), place)) + PushedIn(f, x, s, t, u, place)
    decreases u
  {
    hide Popped, Pushed, Step, NextAt;
    RunOk(f, x, s, t);
    RunOk(f, x, s, u);
    if t < u {
      assert Next(f, s(u - 1), x(u - 1), s(u - 1 + 1));
      PlaceAccount(f, x, s, t, u - 1, place);
      StepAt(f, s(u - 1), x(u - 1), place);
      PlaceStep(f, s(u - 1), x(u - 1), place);
      Reassociate(PoppedIn(f, x, s, t, u - 1, place), Popped(f, s(u - 1), x(u - 1), place),
                  Contents(At(f, s(u - 1), place)), Contents(At(f, s(u), place)),
                  Contents(At(f, s(t), place)), PushedIn(f, x, s, t, u - 1, place), Pushed(f, s(u - 1), x(u - 1), place));
    }
  }

  lemma Reassociate(out: seq<Packet>, popped: seq<Packet>, now: seq<Packet>, next: seq<Packet>, start: seq<Packet>,
                    into: seq<Packet>, pushed: seq<Packet>)
    requires out + now == start + into && popped <= now && next == now[|popped|..] + pushed
    ensures (out + popped) + next == start + (into + pushed)
  {
    assert now == popped + now[|popped|..];
    calc {
      (out + popped) + next;
      (out + (popped + now[|popped|..])) + pushed;
      (out + now) + pushed;
      start + (into + pushed);
    }
  }

  lemma {:induction false} PoppedInSplits(f: Fabric, x: nat -> Inputs, s: nat -> State, t: nat, m: nat, u: nat, place: Place)
    requires IsRun(f, x, s, u) && t <= m <= u && PlaceOk(f, place)
    ensures IsRun(f, x, s, m)
    ensures PoppedIn(f, x, s, t, u, place) == PoppedIn(f, x, s, t, m, place) + PoppedIn(f, x, s, m, u, place)
    decreases u
  {
    hide Popped, Step;
    if m < u {
      PoppedInSplits(f, x, s, t, m, u - 1, place);
    }
  }

  /** A place that holds packets has popped one of them before its patience runs out. */
  lemma OnePops(f: Fabric, layout: seq<Span>, x: nat -> Inputs, s: nat -> State, t: nat, place: Place, rank: nat) returns (u: nat)
    requires FabricOk(f, layout) && IsRun(f, x, s, t + Patience(rank)) && Willing(f, x, t, t + Patience(rank))
    requires PlaceOk(f, place) && PlaceRank(f, layout, place) <= rank
    requires StateOk(f, s(t)) && Contents(At(f, s(t), place)) != []
    ensures t <= u <= t + Patience(rank) && PoppedIn(f, x, s, t, u, place) != []
  {
    hide Pops, At, PlaceRank;
    var v := PopsWithin(f, layout, x, s, t, place, rank);
    u := v + 1;
    assert Next(f, s(v), x(v), s(v + 1));
  }

  /** All packets a place holds have left it after twice its patience. */
  lemma AllPop(f: Fabric, layout: seq<Span>, x: nat -> Inputs, s: nat -> State, t: nat, place: Place, rank: nat)
    requires FabricOk(f, layout) && IsRun(f, x, s, t + 2 * Patience(rank)) && Willing(f, x, t, t + 2 * Patience(rank))
    requires PlaceOk(f, place) && PlaceRank(f, layout, place) <= rank
    ensures StateOk(f, s(t)) && Contents(At(f, s(t), place)) <= PoppedIn(f, x, s, t, t + 2 * Patience(rank), place)
  {
    hide Popped, Pushed, Patience, PlaceRank, StateOk, FabricOk, Contents, PoppedIn, PushedIn;
    var end := t + 2 * Patience(rank);
    PlaceAccount(f, x, s, t, end, place);
    HoldsTwo(f, s(t), place);
    if Contents(At(f, s(t), place)) != [] {
      var u := OnePops(f, layout, x, s, t, place, rank);
      PoppedInSplits(f, x, s, t, u, end, place);
      PlaceAccount(f, x, s, t, u, place);
      PopsAgain(f, layout, x, s, u, end, place, rank);
      PopsCover(Contents(At(f, s(t), place)), PoppedIn(f, x, s, t, u, place), PoppedIn(f, x, s, u, end, place),
                PushedIn(f, x, s, t, end, place), PushedIn(f, x, s, t, u, place),
                Contents(At(f, s(u), place)), Contents(At(f, s(end), place)));
    }
  }

  lemma PopsAgain(f: Fabric, layout: seq<Span>, x: nat -> Inputs, s: nat -> State, u: nat, end: nat, place: Place, rank: nat)
    requires FabricOk(f, layout) && IsRun(f, x, s, end) && u + Patience(rank) <= end && Willing(f, x, u, end)
    requires PlaceOk(f, place) && PlaceRank(f, layout, place) <= rank && StateOk(f, s(u))
    ensures Contents(At(f, s(u), place)) != [] ==> PoppedIn(f, x, s, u, end, place) != []
  {
    hide Popped, Pushed, Patience, PlaceRank, StateOk;
    if Contents(At(f, s(u), place)) != [] {
      var w := OnePops(f, layout, x, s, u, place, rank);
      PoppedInSplits(f, x, s, u, w, end, place);
    }
  }

  lemma HoldsTwo(f: Fabric, s: State, place: Place)
    requires StateOk(f, s) && PlaceOk(f, place)
    ensures |Contents(At(f, s, place))| <= 2
  {
    assert place.Queue? ==> RouterOk(s.routers[place.router]);
  }

  /** Two pops, or one that emptied the place, took out all of at most two packets. */
  lemma PopsCover(c: seq<Packet>, first: seq<Packet>, second: seq<Packet>, into: seq<Packet>, intoFirst: seq<Packet>,
                  middle: seq<Packet>, end: seq<Packet>)
    requires |c| <= 2 && first != [] && (first + second) + end == c + into
    requires first + middle == c + intoFirst && (middle != [] ==> second != [])
    ensures c <= first + second
  {
    assert |first + middle| == |c + intoFirst|;
    assert |first + second| >= |c|;
    forall i | 0 <= i < |c|
      ensures c[i] == (first + second)[i]
    {
      assert ((first + second) + end)[i] == (c + into)[i];
    }
  }

  // ----- what has left a place, counted by source

  /** How many payloads of source `e` have left its places up to `j` by cycle `t`. */
  ghost function LeftBy(f: Fabric, layout: seq<Span>, x: nat -> Inputs, s: nat -> State, t: nat, e: nat, j: nat): int
    requires FabricOk(f, layout) && IsRun(f, x, s, t) && StateOk(f, s(t))
    requires e < |f.isSource| && f.isSource[e] && j <= Last(f, layout, e)
  {
    |Sent(f, x, s, t, e)| - |Waiting(f, layout, s(t), e, j)|
  }

  /** Over any stretch the count grows by what place `j` popped for the source. */
  lemma {:induction false} LeftGrows(f: Fabric, layout: seq<Span>, x: nat -> Inputs, s: nat -> State, t: nat, u: nat, e: nat, j: nat)
    requires FabricOk(f, layout) && IsRun(f, x, s, u) && t <= u && e < |f.isSource| && f.isSource[e] && j <= Last(f, layout, e)
    ensures StateOk(f, s(t)) && StateOk(f, s(u)) && PlaceOk(f, PlaceAt(f, layout, e, j))
    ensures LeftBy(f, layout, x, s, u, e, j)
         == LeftBy(f, layout, x, s, t, e, j) + |Mine(PoppedIn(f, x, s, t, u, PlaceAt(f, layout, e, j)), WordAt(f, e, j))|
    decreases u
  {
    hide Popped, Pushed, Injected, Step, Waiting, PlaceAt;
    RunOk(f, x, s, t);
    RunOk(f, x, s, u);
    PlaceAtOk(f, layout, e, j);
    if t < u {
      assert Next(f, s(u - 1), x(u - 1), s(u - 1 + 1));
      LeftGrows(f, layout, x, s, t, u - 1, e, j);
      AlwaysHomed(f, layout, x, s, u - 1);
      LeftStep(f, layout, s(u - 1), x(u - 1), e, j, Sent(f, x, s, u - 1, e),
               PoppedIn(f, x, s, t, u - 1, PlaceAt(f, layout, e, j)));
    }
  }

  lemma LeftStep(f: Fabric, layout: seq<Span>, s: State, x: Inputs, e: nat, j: nat, sent: seq<int>, popped: seq<Packet>)
    requires FabricOk(f, layout) && WiresOk(f) && StateOk(f, s) && InputsOk(f, x) && !x.reset && Homed(f, layout, s)
    requires e < |f.isSource| && f.isSource[e] && j <= Last(f, layout, e) && PlaceOk(f, PlaceAt(f, layout, e, j))
    ensures StateOk(f, Step(f, s, x))
    ensures |sent + Injected(f, s, x, e)| - |Waiting(f, layout, Step(f, s, x), e, j)| - |sent| + |Waiting(f, layout, s, e, j)|
         == |Mine(popped + Popped(f, s, x, PlaceAt(f, layout, e, j)), WordAt(f, e, j))| - |Mine(popped, WordAt(f, e, j))|
  {
    StepOk(f, s, x);
    WaitingStep(f, layout, s, x, e, j);
    MineConcat(popped, Popped(f, s, x, PlaceAt(f, layout, e, j)), WordAt(f, e, j));
    Lengths(MinePopped(f, layout, s, x, e, j), Waiting(f, layout, Step(f, s, x), e, j), Waiting(f, layout, s, e, j), Injected(f, s, x, e));
  }

  lemma Lengths(p: seq<int>, w': seq<int>, w: seq<int>, i: seq<int>)
    requires p + w' == w + i
    ensures |p| + |w'| == |w| + |i|
  {
    assert |p + w'| == |w + i|;
  }

  lemma MinePrefix(a: seq<Packet>, b: seq<Packet>, word: nat)
    requires a <= b
    ensures |Mine(a, word)| <= |Mine(b, word)|
  {
    assert b == a + b[|a|..];
    MineConcat(a, b[|a|..], word);
  }

  function Ceiling(layout: seq<Span>): nat { 2 * MaxHeight(layout) + 1 }

  lemma RankBelowCeiling(f: Fabric, layout: seq<Span>, place: Place)
    requires FabricOk(f, layout) && PlaceOk(f, place)
    ensures PlaceRank(f, layout, place) <= Ceiling(layout)
  {
  }

  /** Cycles after which everything sent has left the first `j + 1` places. */
  function Delay(layout: seq<Span>, j: nat): nat {
    2 * Patience(Ceiling(layout)) + if j == 0 then 0 else Delay(layout, j - 1)
  }

  lemma WaitingSplits(f: Fabric, layout: seq<Span>, s: State, e: nat, j: nat)
    requires FabricOk(f, layout) && StateOk(f, s) && e < |f.isSource| && f.isSource[e] && j <= Last(f, layout, e)
    ensures |Waiting(f, layout, s, e, j)| == |MineAt(f, layout, s, e, j)| + if j == 0 then 0 else |Waiting(f, layout, s, e, j - 1)|
  {
  }

  /** Everything sent by cycle `t` has left place `j` after `Delay(j)` more cycles. */
  lemma {:induction false} LeavesInTime(f: Fabric, layout: seq<Span>, x: nat -> Inputs, s: nat -> State, t: nat, e: nat, j: nat)
    requires FabricOk(f, layout) && e < |f.isSource| && f.isSource[e] && j <= Last(f, layout, e)
    requires IsRun(f, x, s, t + Delay(layout, j)) && Willing(f, x, t, t + Delay(layout, j))
    ensures StateOk(f, s(t + Delay(layout, j)))
    ensures LeftBy(f, layout, x, s, t + Delay(layout, j), e, j) >= |Sent(f, x, s, t, e)|
  {
    hide Popped, Injected, Waiting, Mine, Patience, PoppedIn, Sent;
    var rank := Ceiling(layout);
    var from := if j == 0 then t else t + Delay(layout, j - 1);
    var to := from + 2 * Patience(rank);
    assert to == t + Delay(layout, j);
    RunOk(f, x, s, from);
    PlaceAtOk(f, layout, e, j);
    if j > 0 {
      LeavesInTime(f, layout, x, s, t, e, j - 1);
    }
    WaitingSplits(f, layout, s(from), e, j);
    LeavesPlace(f, layout, x, s, from, e, j);
    LeftGrows(f, layout, x, s, from, to, e, j);
  }

  /** The payloads of `e` at place `j` are popped within twice the patience. */
  lemma LeavesPlace(f: Fabric, layout: seq<Span>, x: nat -> Inputs, s: nat -> State, t: nat, e: nat, j: nat)
    requires FabricOk(f, layout) && e < |f.isSource| && f.isSource[e] && j <= Last(f, layout, e)
    requires IsRun(f, x, s, t + 2 * Patience(Ceiling(layout))) && Willing(f, x, t, t + 2 * Patience(Ceiling(layout)))
    ensures StateOk(f, s(t)) && PlaceOk(f, PlaceAt(f, layout, e, j))
    ensures |MineAt(f, layout, s(t), e, j)|
         <= |Mine(PoppedIn(f, x, s, t, t + 2 * Patience(Ceiling(layout)), PlaceAt(f, layout, e, j)), WordAt(f, e, j))|
  {
    hide Popped, Mine, Patience, PoppedIn;
    PlaceAtOk(f, layout, e, j);
    var place := PlaceAt(f, layout, e, j);
    RankBelowCeiling(f, layout, place);
    AllPop(f, layout, x, s, t, place, Ceiling(layout));
    MinePrefix(Contents(At(f, s(t), place)), PoppedIn(f, x, s, t, t + 2 * Patience(Ceiling(layout)), place), WordAt(f, e, j));
  }

  /**
   * Bounded delivery without starvation: as long as the destinations are ready, everything source `e` sent by
   * cycle `t` has come out at its destination `Delay` cycles later, first and in order, whatever all other
   * sources keep sending.
   */
  lemma DeliveredInTime(f: Fabric, layout: seq<Span>, x: nat -> Inputs, s: nat -> State, t: nat, e: nat)
    requires FabricOk(f, layout) && e < |f.isSource| && f.isSource[e]
    requires IsRun(f, x, s, t + Delay(layout, Last(f, layout, e))) && Willing(f, x, t, t + Delay(layout, Last(f, layout, e)))
    ensures f.destination[e] < |f.isSource|
    ensures Sent(f, x, s, t, e)
         <= Mine(Output(f, x, s, t + Delay(layout, Last(f, layout, e)), f.destination[e]), DeliveredWord(f, layout, e))
  {
    hide Popped, Injected, Waiting, Mine, Output, Sent, Delay;
    var end := t + Delay(layout, Last(f, layout, e));
    LeavesInTime(f, layout, x, s, t, e, Last(f, layout, e));
    ExactlyOnceInOrder(f, layout, x, s, end, e);
    SentGrows(f, x, s, t, end, e);
    PrefixByLength(Sent(f, x, s, t, e), Sent(f, x, s, end, e),
                   Mine(Output(f, x, s, end, f.destination[e]), DeliveredWord(f, layout, e)),
                   Waiting(f, layout, s(end), e, Last(f, layout, e)));
  }

  lemma PrefixByLength(early: seq<int>, all: seq<int>, out: seq<int>, waiting: seq<int>)
    requires early <= all && all == out + waiting && |early| <= |all| - |waiting|
    ensures early <= out
  {
  }

  lemma {:induction false} SentGrows(f: Fabric, x: nat -> Inputs, s: nat -> State, t: nat, u: nat, e: nat)
    requires IsRun(f, x, s, u) && t <= u && e < |f.isSource|
    ensures Sent(f, x, s, t, e) <= Sent(f, x, s, u, e)
    decreases u
  {
    hide Injected, Step;
    if t < u {
      SentGrows(f, x, s, t, u - 1, e);
    }
  }
}
