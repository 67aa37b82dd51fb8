/** What one expansion step does, told without the functions that do it. */
module Substitution {
  import opened Options
  import opened Expansion
  import opened Provenance

  // ----- arguments in place of parameters

  /** Parameter k is the first with the name. */
  ghost predicate FirstNamed(parameters: seq<Parameter>, name: nat, k: nat) {
    k < |parameters| && parameters[k].name == name && forall j :: 0 <= j < k ==> parameters[j].name != name
  }

  ghost predicate IsNamed(parameters: seq<Parameter>, t: Text) {
    t.Ident? && exists j :: 0 <= j < |parameters| && parameters[j].name == t.name
  }

  lemma {:induction false} FirstIsFound(parameters: seq<Parameter>, name: nat, k: nat)
    requires FirstNamed(parameters, name, k)
    ensures ParameterIndex(parameters, Ident(name)) == Some(k)
  {
    if k > 0 {
      assert forall j :: 0 <= j < k - 1 ==> parameters[1..][j] == parameters[j + 1];
      FirstIsFound(parameters[1..], name, k - 1);
    }
  }

  lemma {:induction false} OthersAreNotFound(parameters: seq<Parameter>, t: Text)
    requires !IsNamed(parameters, t)
    ensures ParameterIndex(parameters, t) == None
  {
    if parameters != [] && t.Ident? {
      assert forall j :: 0 <= j < |parameters| - 1 ==> parameters[1..][j] == parameters[j + 1];
      OthersAreNotFound(parameters[1..], t);
    }
  }

  lemma SubstitutedLast(body: seq<Token>, t: Token, parameters: seq<Parameter>, ts: seq<Text>, ranges: seq<Range>)
    requires |ranges| == |parameters| && RangesOk(ranges, |ts|)
    ensures Substituted(body + [t], parameters, ts, ranges)
         == Substituted(body, parameters, ts, ranges) + Substituted([t], parameters, ts, ranges)
  {
    var all, one, none := body + [t], [t], Substituted([], parameters, ts, ranges);
    assert all[..|all| - 1] == body && one[..|one| - 1] == [] && none == [];
    var i := ParameterIndex(parameters, t.text);
    var piece := if i.Some? then ts[ranges[i.value].from..ranges[i.value].to] else [t.text];
    assert Substituted(one, parameters, ts, ranges) == none + piece;
    assert none + piece == piece;
  }

  /** Substitution goes token by token. */
  lemma {:induction false} SubstitutedJoin(x: seq<Token>, y: seq<Token>, parameters: seq<Parameter>, ts: seq<Text>,
                                           ranges: seq<Range>)
    requires |ranges| == |parameters| && RangesOk(ranges, |ts|)
    ensures Substituted(x + y, parameters, ts, ranges)
         == Substituted(x, parameters, ts, ranges) + Substituted(y, parameters, ts, ranges)
    decreases |y|
  {
    if y == [] {
      assert x + y == x && Substituted(y, parameters, ts, ranges) == [];
    } else {
      var front, last := y[..|y| - 1], y[|y| - 1];
      assert x + y == x + front + [last] && y == front + [last];
      hide Substituted;
      SubstitutedLast(x + front, last, parameters, ts, ranges);
      SubstitutedLast(front, last, parameters, ts, ranges);
      SubstitutedJoin(x, front, parameters, ts, ranges);
    }
  }

  /**
   * In place of a token that names parameter k, the first of that name, stands the k-th argument; any other token stays
   * as it is.
   */
  lemma TokenSubstituted(t: Token, parameters: seq<Parameter>, ts: seq<Text>, ranges: seq<Range>, k: nat)
    requires |ranges| == |parameters| && RangesOk(ranges, |ts|)
    ensures t.text.Ident? && FirstNamed(parameters, t.text.name, k) ==>
              Substituted([t], parameters, ts, ranges) == ts[ranges[k].from..ranges[k].to]
    ensures !IsNamed(parameters, t.text) ==> Substituted([t], parameters, ts, ranges) == [t.text]
  {
    assert [t][..0] == [] && Substituted([], parameters, ts, ranges) == [];
    if t.text.Ident? && FirstNamed(parameters, t.text.name, k) {
      FirstIsFound(parameters, t.text.name, k);
    }
    if !IsNamed(parameters, t.text) {
      OthersAreNotFound(parameters, t.text);
    }
  }

  /** The records say the same: argument k, supplied for parameter k, or the token of the body itself. */
  lemma InstanceIsRecord(t: Token, parameters: seq<Parameter>, tokens: seq<Token>, ranges: seq<Range>,
                         invocation: nat, macroId: nat, k: nat)
    requires |ranges| == |parameters| && RangesOk(ranges, |tokens|)
    ensures t.text.Ident? && FirstNamed(parameters, t.text.name, k) ==>
              Instance(t, parameters, tokens, ranges, invocation, macroId) ==
              SuppliedAll(tokens[ranges[k].from..ranges[k].to], invocation, parameters[k].origin, macroId)
    ensures !IsNamed(parameters, t.text) ==>
              Instance(t, parameters, tokens, ranges, invocation, macroId) == [Replaced(invocation, t.origin, macroId)]
  {
    if t.text.Ident? && FirstNamed(parameters, t.text.name, k) {
      FirstIsFound(parameters, t.text.name, k);
    }
    if !IsNamed(parameters, t.text) {
      OthersAreNotFound(parameters, t.text);
    }
  }

  // ----- which macro is called, with which arguments

  ghost predicate IsActive(ms: seq<Macro>, name: nat, m: nat) { m < |ms| && ms[m].active && ms[m].name == name }

  lemma {:induction false} LatestIsFound(ms: seq<Macro>, name: nat, m: nat)
    requires IsActive(ms, name, m) && forall j :: m < j < |ms| ==> !IsActive(ms, name, j)
    ensures FindMacro(ms, name) == Some(m)
  {
    var last := |ms| - 1;
    if m < last {
      assert !IsActive(ms, name, last);
      assert forall j :: 0 <= j < last ==> (IsActive(ms[..last], name, j) <==> IsActive(ms, name, j));
      LatestIsFound(ms[..last], name, m);
    }
  }

  /**
   * A call needs an active definition. One without a parameter list takes no arguments, whatever follows; one with a
   * list needs an opening parenthesis, and its arguments are those the commas and the closing parenthesis delimit.
   */
  lemma CallIsRead(ms: seq<Macro>, ts: seq<Text>, m: nat)
    requires MacrosOk(ms) && Invokes(ts)
    ensures (forall j: nat :: !IsActive(ms, ts[1].name, j)) ==> ReadCall(ms, ts) == BadCall(Undefined)
    ensures IsActive(ms, ts[1].name, m) && (forall j :: m < j < |ms| ==> !IsActive(ms, ts[1].name, j)) ==>
              if !ms[m].functionLike then ReadCall(ms, ts) == Call(m, [], 2)
              else if |ts| < 3 || ts[2] != LParen then ReadCall(ms, ts) == BadCall(NoArguments)
              else exists r :: IsScanned(ts, 3, |ms[m].parameters|, r) &&
                     ReadCall(ms, ts) == if r.Arguments? then Call(m, r.ranges, r.after) else BadCall(r.error)
  {
    if FindMacro(ms, ts[1].name).Some? {
      assert IsActive(ms, ts[1].name, FindMacro(ms, ts[1].name).value);
    }
    if IsActive(ms, ts[1].name, m) && forall j :: m < j < |ms| ==> !IsActive(ms, ts[1].name, j) {
      LatestIsFound(ms, ts[1].name, m);
      if |ts| >= 3 {
        hide ScanArguments, IsScanned, FindMacro;
        ScannedExactly(ts, 3, |ms[m].parameters|);
      }
    }
  }

  // ----- expansion of texts

  /** Text without a backtick is passed on as it is. */
  lemma {:induction false} PassedOver(ms: seq<Macro>, stack: set<nat>, front: seq<Text>, rest: seq<Text>)
    requires MacrosOk(ms) && Tick !in front
    ensures Expand(ms, stack, front + rest) == Then(Expanded(front), Expand(ms, stack, rest))
    decreases |front|
  {
    if front == [] {
      assert front + rest == rest;
      NothingFirst(Expand(ms, stack, rest));
    } else {
      assert (front + rest)[0] == front[0] && (front + rest)[1..] == front[1..] + rest;
      PassedOver(ms, stack, front[1..], rest);
      var r := Expand(ms, stack, rest);
      if r.Expanded? {
        assert [front[0]] + (front[1..] + r.output) == front + r.output;
      }
    }
  }

  lemma NothingFirst(r: Result)
    ensures Then(Expanded([]), r) == r
  {
    if r.Expanded? {
      assert [] + r.output == r.output;
    }
  }

  /** A backtick that no identifier follows stands for itself. */
  lemma LoneTick(ms: seq<Macro>, stack: set<nat>, rest: seq<Text>)
    requires MacrosOk(ms) && (rest == [] || !rest[0].Ident?)
    ensures Expand(ms, stack, [Tick] + rest) == Then(Expanded([Tick]), Expand(ms, stack, rest))
  {
    assert ([Tick] + rest)[1..] == rest;
  }

  // ----- an invocation from end to end

  /** The text with x for every p and y for every q. */
  function Exchanged(b: seq<Text>, p: nat, x: Text, q: nat, y: Text): (r: seq<Text>)
    ensures |r| == |b|
  {
    seq(|b|, i requires 0 <= i < |b| => if b[i] == Ident(p) then x else if b[i] == Ident(q) then y else b[i])
  }

  /** Neither separates nor delimits arguments. */
  predicate Ordinary(t: Text) { t.Ident? || t.Other? }

  lemma ExchangedLast(b: seq<Text>, t: Text, p: nat, x: Text, q: nat, y: Text)
    ensures Exchanged(b + [t], p, x, q, y) == Exchanged(b, p, x, q, y) + Exchanged([t], p, x, q, y)
  {
  }

  lemma {:induction false} BodyExchanged(body: seq<Token>, p: nat, x: Text, q: nat, y: Text, parameters: seq<Parameter>,
                                         ts: seq<Text>, ranges: seq<Range>)
    requires p != q && |parameters| == |ranges| == 2 && parameters[0].name == p && parameters[1].name == q
    requires RangesOk(ranges, |ts|) && ts[ranges[0].from..ranges[0].to] == [x] && ts[ranges[1].from..ranges[1].to] == [y]
    ensures Substituted(body, parameters, ts, ranges) == Exchanged(Texts(body), p, x, q, y)
    decreases |body|
  {
    if body == [] {
      assert Substituted(body, parameters, ts, ranges) == [];
    } else {
      var front, last := body[..|body| - 1], body[|body| - 1];
      assert body == front + [last];
      SubstitutedLast(front, last, parameters, ts, ranges);
      TokenSubstituted(last, parameters, ts, ranges, if last.text == Ident(p) then 0 else 1);
      assert last.text != Ident(p) && last.text != Ident(q) ==> !IsNamed(parameters, last.text);
      var next := Exchanged([last.text], p, x, q, y);
      assert next == [if last.text == Ident(p) then x else if last.text == Ident(q) then y else last.text];
      assert Texts(body) == Texts(front) + [last.text];
      ExchangedLast(Texts(front), last.text, p, x, q, y);
      hide Substituted, Exchanged, Texts;
      BodyExchanged(front, p, x, q, y, parameters, ts, ranges);
    }
  }

  /**
   * With `M(p, q)` defined by a text without invocations, an invocation with arguments x and y expands to that text
   * with x for p and y for q.
   */
  lemma InvocationExpands(m: nat, p: nat, q: nat, body: seq<Token>, x: Text, y: Text)
    requires p != q && Tick !in Texts(body) && Ordinary(x) && Ordinary(y)
    ensures var ms := [Macro(m, true, true, [Parameter(p, 0), Parameter(q, 0)], body)];
            Expand(ms, {}, [Tick, Ident(m), LParen, x, Comma, y, RParen]) == Expanded(Exchanged(Texts(body), p, x, q, y))
  {
    var parameters := [Parameter(p, 0), Parameter(q, 0)];
    var ms, ts := [Macro(m, true, true, parameters, body)], [Tick, Ident(m), LParen, x, Comma, y, RParen];
    var ranges := [Range(3, 4), Range(5, 6)];
    var b := Exchanged(Texts(body), p, x, q, y);
    TwoArguments(ts, m, x, y);
    BodyExchanged(body, p, x, q, y, parameters, ts, ranges);
    assert Tick !in b;
    assert ReadCall(ms, ts) == Call(0, ranges, 7) && Replacement(ms, ts, ReadCall(ms, ts)) == b;
    hide ReadCall, Replacement, Exchanged;
    assert ts[7..] == [] && Expand(ms, {}, []) == Expanded([]) && Expand(ms, {0}, []) == Expanded([]);
    PassedOver(ms, {0}, b, []);
    assert b + [] == b && {} + {0} == {0};
  }

  lemma TwoArguments(ts: seq<Text>, m: nat, x: Text, y: Text)
    requires ts == [Tick, Ident(m), LParen, x, Comma, y, RParen] && Ordinary(x) && Ordinary(y)
    ensures ScanArguments(ts, 3, 3, 1, 0, 0, [], 2) == Arguments([Range(3, 4), Range(5, 6)], 7)
    ensures ts[3..4] == [x] && ts[5..6] == [y]
  {
    var found := Arguments([Range(3, 4), Range(5, 6)], 7);
    assert [Range(3, 4)] + [Range(5, 6)] == found.ranges && [] + [Range(3, 4)] == [Range(3, 4)];
    assert ScanArguments(ts, 6, 5, 1, 0, 0, [Range(3, 4)], 2) == found;
    assert ScanArguments(ts, 5, 5, 1, 0, 0, [Range(3, 4)], 2) == found;
    assert ScanArguments(ts, 4, 3, 1, 0, 0, [], 2) == found;
  }
}
