/** Whole runs of the fabric between resets: exactly-once in-order delivery, deadlock freedom and draining. */
module FabricRuns {
  import opened Numbers
  import opened FabricWords
  import opened FabricTree
  import opened FabricTrace
  import opened FabricFifo
  import opened FabricNet
  import opened FabricSafety

  /** One cycle without reset. */
  ghost predicate Next(f: Fabric, s: State, x: Inputs, u: State) {
    WiresOk(f) && StateOk(f, s) && InputsOk(f, x) && !x.reset && u == Step(f, s, x)
  }

  /** `s` are the registers of the first `t` cycles after a reset, under inputs `x` that do not reset again. */
  ghost predicate IsRun(f: Fabric, x: nat -> Inputs, s: nat -> State, t: nat) {
    && WiresOk(f) && s(0) == Reset(f)
    && forall i: nat :: i < t ==> Next(f, s(i), x(i), s(i + 1))
  }

  ghost predicate NoReset(f: Fabric, x: nat -> Inputs) { forall i: nat :: InputsOk(f, x(i)) && !x(i).reset }

  ghost function StateAfter(f: Fabric, x: nat -> Inputs, t: nat): (s: State)
    requires WiresOk(f) && NoReset(f, x)
    ensures StateOk(f, s)
  {
    if t == 0 then
      ResetIsOk(f);
      Reset(f)
    else
      StepOk(f, StateAfter(f, x, t - 1), x(t - 1));
      Step(f, StateAfter(f, x, t - 1), x(t - 1))
  }

  lemma ResetIsOk(f: Fabric)
    requires WiresOk(f)
    ensures StateOk(f, Reset(f))
  {
  }

  /** Every series of inputs has a run: the theorems about runs speak of all inputs. */
  lemma {:induction false} RunsExist(f: Fabric, x: nat -> Inputs, t: nat)
    requires WiresOk(f) && NoReset(f, x)
    ensures IsRun(f, x, (i: nat) => StateAfter(f, x, i), t)
  {
    var s: nat -> State := (i: nat) => StateAfter(f, x, i);
    forall i: nat | i < t
      ensures Next(f, s(i), x(i), s(i + 1))
    {
      assert s(i + 1) == Step(f, s(i), x(i));
    }
  }

  /** Nothing waits anywhere, and every port prefers the input two places round. */
  ghost predicate Cleared(f: Fabric, s: State)
    requires StateOk(f, s)
  {
    && (forall place :: PlaceOk(f, place) ==> Contents(At(f, s, place)) == [])
    && forall r :: 0 <= r < |s.routers| ==> s.routers[r].rr == [false, false, false]
  }

  /** A cycle in which reset is high forgets everything: what follows up to the next reset is a run. */
  lemma AfterReset(f: Fabric, x: nat -> Inputs, s: nat -> State, i: nat, t: nat)
    requires WiresOk(f) && (forall k: nat :: StateOk(f, s(k)) && InputsOk(f, x(k)))
    requires forall k: nat :: s(k + 1) == Step(f, s(k), x(k))
    requires x(i).reset && forall k: nat :: i < k <= i + t ==> !x(k).reset
    ensures IsRun(f, (k: nat) => x(i + 1 + k), (k: nat) => s(i + 1 + k), t)
    ensures Cleared(f, s(i + 1))
  {
    var x', s' := (k: nat) => x(i + 1 + k), (k: nat) => s(i + 1 + k);
    assert s(i + 1) == Reset(f);
    forall k: nat | k < t
      ensures Next(f, s'(k), x'(k), s'(k + 1))
    {
      assert s(i + 1 + k + 1) == Step(f, s(i + 1 + k), x(i + 1 + k));
    }
    forall place | PlaceOk(f, place)
      ensures Contents(At(f, s(i + 1), place)) == []
    {
      ResetIsEmpty(f, place);
    }
  }

  lemma {:induction false} RunOk(f: Fabric, x: nat -> Inputs, s: nat -> State, t: nat)
    requires IsRun(f, x, s, t)
    ensures StateOk(f, s(t))
  {
    if t > 0 {
      assert Next(f, s(t - 1), x(t - 1), s(t - 1 + 1));
      StepOk(f, s(t - 1), x(t - 1));
    }
  }

  /** All payloads endpoint `e` has injected in the first `t` cycles. */
  ghost function Sent(f: Fabric, x: nat -> Inputs, s: nat -> State, t: nat, e: nat): seq<int>
    requires IsRun(f, x, s, t) && e < |f.isSource|
  {
    if t == 0 then []
    else
      assert Next(f, s(t - 1), x(t - 1), s(t - 1 + 1));
      Sent(f, x, s, t - 1, e) + Injected(f, s(t - 1), x(t - 1), e)
  }

  /** All packets endpoint `d` has put out in the first `t` cycles. */
  ghost function Output(f: Fabric, x: nat -> Inputs, s: nat -> State, t: nat, d: nat): seq<Packet>
    requires IsRun(f, x, s, t) && d < |f.isSource|
  {
    if t == 0 then []
    else
      assert Next(f, s(t - 1), x(t - 1), s(t - 1 + 1));
      Output(f, x, s, t - 1, d) + Popped(f, s(t - 1), x(t - 1), Skid(d))
  }

  /** The word that packets of source `e` carry when they are delivered. */
  ghost function DeliveredWord(f: Fabric, layout: seq<Span>, e: nat): nat
    requires FabricOk(f, layout) && e < |f.isSource| && f.isSource[e]
  {
    WordAt(f, e, Last(f, layout, e))
  }

  lemma ResetIsEmpty(f: Fabric, place: Place)
    requires WiresOk(f) && PlaceOk(f, place)
    ensures StateOk(f, Reset(f)) && Contents(At(f, Reset(f), place)) == []
  {
  }

  lemma {:induction false} AlwaysHomed(f: Fabric, layout: seq<Span>, x: nat -> Inputs, s: nat -> State, t: nat)
    requires FabricOk(f, layout) && IsRun(f, x, s, t)
    ensures StateOk(f, s(t)) && Homed(f, layout, s(t))
  {
    RunOk(f, x, s, t);
    if t == 0 {
      forall place | PlaceOk(f, place)
        ensures Contents(At(f, s(t), place)) == []
      {
        ResetIsEmpty(f, place);
      }
    } else {
      assert Next(f, s(t - 1), x(t - 1), s(t - 1 + 1));
      AlwaysHomed(f, layout, x, s, t - 1);
      HomedStep(f, layout, s(t - 1), x(t - 1));
    }
  }

  lemma {:induction false} NothingWaits(f: Fabric, layout: seq<Span>, s: State, e: nat, j: nat)
    requires FabricOk(f, layout) && WiresOk(f) && StateOk(f, s)
    requires forall place :: PlaceOk(f, place) ==> Contents(At(f, s, place)) == []
    requires e < |f.isSource| && f.isSource[e] && j <= Last(f, layout, e)
    ensures Waiting(f, layout, s, e, j) == []
  {
    hide MineAt, RouteOf;
    EmptyHasNone(f, layout, s, e, j);
    if j > 0 {
      NothingWaits(f, layout, s, e, j - 1);
    }
  }

  lemma EmptyHasNone(f: Fabric, layout: seq<Span>, s: State, e: nat, j: nat)
    requires FabricOk(f, layout) && WiresOk(f) && StateOk(f, s)
    requires forall place :: PlaceOk(f, place) ==> Contents(At(f, s, place)) == []
    requires e < |f.isSource| && f.isSource[e] && j <= Last(f, layout, e)
    ensures MineAt(f, layout, s, e, j) == []
  {
    hide PlaceAt;
    PlaceAtOk(f, layout, e, j);
  }

  /**
   * What a source sent is what its destination has put out under the source's delivered word, followed by
   * what still waits on the way: nothing is lost, duplicated or reordered, under any arbitration and back pressure.
   */
  lemma {:induction false} ExactlyOnceInOrder(f: Fabric, layout: seq<Span>, x: nat -> Inputs, s: nat -> State, t: nat, e: nat)
    requires FabricOk(f, layout) && IsRun(f, x, s, t) && e < |f.isSource| && f.isSource[e]
    ensures f.destination[e] < |f.isSource| && StateOk(f, s(t))
    ensures Sent(f, x, s, t, e)
         == Mine(Output(f, x, s, t, f.destination[e]), DeliveredWord(f, layout, e))
            + Waiting(f, layout, s(t), e, Last(f, layout, e))
  {
    hide Injected, Popped, Waiting, Step;
    SourceRoute(f, layout, e);
    AlwaysHomed(f, layout, x, s, t);
    if t == 0 {
      forall place | PlaceOk(f, place)
        ensures Contents(At(f, s(t), place)) == []
      {
        ResetIsEmpty(f, place);
      }
      NothingWaits(f, layout, s(t), e, Last(f, layout, e));
    } else {
      assert Next(f, s(t - 1), x(t - 1), s(t - 1 + 1));
      ExactlyOnceInOrder(f, layout, x, s, t - 1, e);
      AlwaysHomed(f, layout, x, s, t - 1);
      SourceStep(f, layout, s(t - 1), x(t - 1), e, Sent(f, x, s, t - 1, e), Output(f, x, s, t - 1, f.destination[e]));
    }
  }

  /** One cycle of the account between a source and its destination. */
  lemma SourceStep(f: Fabric, layout: seq<Span>, s: State, x: Inputs, e: nat, sent: seq<int>, output: seq<Packet>)
    requires FabricOk(f, layout) && WiresOk(f) && StateOk(f, s) && InputsOk(f, x) && !x.reset && Homed(f, layout, s)
    requires e < |f.isSource| && f.isSource[e]
    requires sent == Mine(output, DeliveredWord(f, layout, e)) + Waiting(f, layout, s, e, Last(f, layout, e))
    ensures StateOk(f, Step(f, s, x)) && f.destination[e] < |f.isSource|
    ensures sent + Injected(f, s, x, e)
         == Mine(output + Popped(f, s, x, Skid(f.destination[e])), DeliveredWord(f, layout, e))
            + Waiting(f, layout, Step(f, s, x), e, Last(f, layout, e))
  {
    StepOk(f, s, x);
    SourceRoute(f, layout, e);
    var last, word, popped := Last(f, layout, e), DeliveredWord(f, layout, e), Popped(f, s, x, Skid(f.destination[e]));
    WaitingStep(f, layout, s, x, e, last);
    MineConcat(output, popped, word);
    Regroup(Mine(output, word), Waiting(f, layout, s, e, last), Injected(f, s, x, e),
            Mine(popped, word), Waiting(f, layout, Step(f, s, x), e, last));
  }

  lemma Regroup(done: seq<int>, w: seq<int>, i: seq<int>, p: seq<int>, w': seq<int>)
    requires p + w' == w + i
    ensures (done + w) + i == (done + p) + w'
  {
    assert (done + w) + i == done + (w + i);
  }

  /** `word` is the delivered word of source `e` at destination `d`, and of no other source there. */
  ghost predicate Names(f: Fabric, layout: seq<Span>, d: nat, word: nat, e: nat)
    requires FabricOk(f, layout)
  {
    && e < |f.isSource| && f.isSource[e] && f.destination[e] == d && DeliveredWord(f, layout, e) == word
    && forall e' :: 0 <= e' < |f.isSource| && f.isSource[e'] && f.destination[e'] == d && DeliveredWord(f, layout, e') == word ==>
         e' == e
  }

  /** Everything a destination puts out was sent to it by exactly the source its delivered word names. */
  lemma {:induction false} OutputIsAddressed(f: Fabric, layout: seq<Span>, x: nat -> Inputs, s: nat -> State, t: nat, d: nat, k: nat)
    returns (e: nat)
    requires FabricOk(f, layout) && IsRun(f, x, s, t) && d < |f.isSource| && !f.isSource[d]
    requires k < |Output(f, x, s, t, d)|
    ensures Names(f, layout, d, Output(f, x, s, t, d)[k].word, e)
  {
    if k < |Output(f, x, s, t - 1, d)| {
      e := OutputIsAddressed(f, layout, x, s, t - 1, d, k);
    } else {
      assert Next(f, s(t - 1), x(t - 1), s(t - 1 + 1));
      AlwaysHomed(f, layout, x, s, t - 1);
      e := PoppedIsAddressed(f, layout, s(t - 1), x(t - 1), d);
    }
  }

  lemma PoppedIsAddressed(f: Fabric, layout: seq<Span>, s: State, x: Inputs, d: nat) returns (e: nat)
    requires FabricOk(f, layout) && WiresOk(f) && StateOk(f, s) && InputsOk(f, x) && Homed(f, layout, s)
    requires d < |f.isSource| && !f.isSource[d] && Pops(f, s, x, Skid(d))
    ensures Names(f, layout, d, At(f, s, Skid(d)).slot0.word, e)
  {
    HeadIsHomed(f, layout, s, x, Skid(d));
    var word := At(f, s, Skid(d)).slot0.word;
    var j;
    e, j :| Travels(f, layout, e, j, Skid(d), word);
    AtDestination(f, layout, d, word, e, j);
    forall e' | 0 <= e' < |f.isSource| && f.isSource[e'] && f.destination[e'] == d && DeliveredWord(f, layout, e') == word
      ensures e' == e
    {
      TravelsUnique(f, layout, Skid(d), word, e, j, e', Last(f, layout, e'));
    }
  }

  lemma AtDestination(f: Fabric, layout: seq<Span>, d: nat, word: nat, e: nat, j: nat)
    requires FabricOk(f, layout) && d < |f.isSource| && !f.isSource[d] && Travels(f, layout, e, j, Skid(d), word)
    ensures j == Last(f, layout, e) && f.destination[e] == d
  {
    SourceRoute(f, layout, e);
  }
}
