/** When reporting recursion is exact: calls whose outline does not depend on the arguments. */
module Recursion {
  import opened Options
  import opened Expansion

  // ----- texts whose calls can be told in advance

  /**
   * No backtick, brackets of every kind balanced on top of the given depths, and commas only inside brackets: an
   * argument that changes nothing about the calls around it.
   */
  predicate Closed(ts: seq<Text>, parentheses: nat, brackets: nat, braces: nat) {
    if ts == [] then parentheses == brackets == braces == 0
    else
      match ts[0]
      case Tick => false
      case LParen => Closed(ts[1..], parentheses + 1, brackets, braces)
      case RParen => parentheses > 0 && Closed(ts[1..], parentheses - 1, brackets, braces)
      case LBracket => Closed(ts[1..], parentheses, brackets + 1, braces)
      case RBracket => brackets > 0 && Closed(ts[1..], parentheses, brackets - 1, braces)
      case LBrace => Closed(ts[1..], parentheses, brackets, braces + 1)
      case RBrace => braces > 0 && Closed(ts[1..], parentheses, brackets, braces - 1)
      case Comma => (parentheses > 0 || brackets > 0 || braces > 0) && Closed(ts[1..], parentheses, brackets, braces)
      case _ => Closed(ts[1..], parentheses, brackets, braces)
  }

  predicate ClosedRanges(ts: seq<Text>, ranges: seq<Range>)
    requires RangesOk(ranges, |ts|)
  {
    forall i :: 0 <= i < |ranges| ==> Closed(ts[ranges[i].from..ranges[i].to], 0, 0, 0)
  }

  /** Every argument in the text is closed. */
  predicate Quiet(ms: seq<Macro>, ts: seq<Text>)
    requires MacrosOk(ms)
    decreases |ts|
  {
    if ts == [] then true
    else if !Invokes(ts) then Quiet(ms, ts[1..])
    else
      var c := ReadCall(ms, ts);
      c.Call? ==> ClosedRanges(ts, c.ranges) && Quiet(ms, ts[c.after..])
  }

  predicate IsParameter(parameters: seq<Parameter>, t: Text) { ParameterIndex(parameters, t).Some? }

  /** No parameter stands where it could decide which macro is invoked, or whether it has an argument list. */
  predicate PlainCall(ms: seq<Macro>, parameters: seq<Parameter>, b: seq<Text>)
    requires Invokes(b)
  {
    var m := FindMacro(ms, b[1].name);
    && !IsParameter(parameters, b[1])
    && (m.Some? && ms[m.value].functionLike ==>
          && (|b| > 2 ==> !IsParameter(parameters, b[2]))
          && (|b| > 3 && ms[m.value].parameters == [] ==> !IsParameter(parameters, b[3])))
  }

  /** Likewise every argument in a replacement text, in which parameters stand for closed arguments. */
  predicate QuietBody(ms: seq<Macro>, parameters: seq<Parameter>, b: seq<Text>)
    requires MacrosOk(ms)
    decreases |b|
  {
    if b == [] then true
    else if !Invokes(b) then QuietBody(ms, parameters, b[1..])
    else
      var c := ReadCall(ms, b);
      PlainCall(ms, parameters, b) && (c.Call? ==> ClosedRanges(b, c.ranges) && QuietBody(ms, parameters, b[c.after..]))
  }

  predicate QuietMacros(ms: seq<Macro>)
    requires MacrosOk(ms)
  {
    forall m :: 0 <= m < |ms| ==> QuietBody(ms, ms[m].parameters, Texts(ms[m].body))
  }

  // ----- closed texts

  lemma {:induction false} ClosedJoin(a: seq<Text>, p: nat, k: nat, c: nat, rest: seq<Text>, p': nat, k': nat, c': nat)
    requires Closed(a, p, k, c) && Closed(rest, p', k', c')
    ensures Closed(a + rest, p + p', k + k', c + c')
    decreases |a|
  {
    if a == [] {
      assert a + rest == rest;
    } else {
      assert (a + rest)[0] == a[0] && (a + rest)[1..] == a[1..] + rest;
      match a[0]
      case Tick =>
      case LParen => ClosedJoin(a[1..], p + 1, k, c, rest, p', k', c');
      case RParen => ClosedJoin(a[1..], p - 1, k, c, rest, p', k', c');
      case LBracket => ClosedJoin(a[1..], p, k + 1, c, rest, p', k', c');
      case RBracket => ClosedJoin(a[1..], p, k - 1, c, rest, p', k', c');
      case LBrace => ClosedJoin(a[1..], p, k, c + 1, rest, p', k', c');
      case RBrace => ClosedJoin(a[1..], p, k, c - 1, rest, p', k', c');
      case _ => ClosedJoin(a[1..], p, k, c, rest, p', k', c');
    }
  }

  /** Scanning an argument list passes over a closed text as if it were not there. */
  lemma {:induction false} ScanSkips(ts: seq<Text>, at: nat, end: nat, start: nat, p: nat, k: nat, c: nat,
                                     parentheses: nat, brackets: nat, braces: nat, done: seq<Range>, wanted: nat)
    requires start <= at <= end <= |ts| && parentheses > 0 && RangesOk(done, |ts|) && Closed(ts[at..end], p, k, c)
    ensures ScanArguments(ts, at, start, parentheses + p, brackets + k, braces + c, done, wanted)
         == ScanArguments(ts, end, start, parentheses, brackets, braces, done, wanted)
    decreases end - at
  {
    if at < end {
      assert ts[at..end][0] == ts[at] && ts[at..end][1..] == ts[at + 1..end];
      match ts[at]
      case Tick =>
      case LParen => ScanSkips(ts, at + 1, end, start, p + 1, k, c, parentheses, brackets, braces, done, wanted);
      case RParen => ScanSkips(ts, at + 1, end, start, p - 1, k, c, parentheses, brackets, braces, done, wanted);
      case LBracket => ScanSkips(ts, at + 1, end, start, p, k + 1, c, parentheses, brackets, braces, done, wanted);
      case RBracket => ScanSkips(ts, at + 1, end, start, p, k - 1, c, parentheses, brackets, braces, done, wanted);
      case LBrace => ScanSkips(ts, at + 1, end, start, p, k, c + 1, parentheses, brackets, braces, done, wanted);
      case RBrace => ScanSkips(ts, at + 1, end, start, p, k, c - 1, parentheses, brackets, braces, done, wanted);
      case _ => ScanSkips(ts, at + 1, end, start, p, k, c, parentheses, brackets, braces, done, wanted);
    }
  }

  // ----- replacement texts with arguments in place

  function Replace(t: Text, parameters: seq<Parameter>, arguments: seq<seq<Text>>): seq<Text>
    requires |arguments| == |parameters|
  {
    var i := ParameterIndex(parameters, t);
    if i.Some? then arguments[i.value] else [t]
  }

  function Replaced(b: seq<Text>, parameters: seq<Parameter>, arguments: seq<seq<Text>>): seq<Text>
    requires |arguments| == |parameters|
  {
    if b == [] then [] else Replace(b[0], parameters, arguments) + Replaced(b[1..], parameters, arguments)
  }

  lemma {:induction false} ReplacedJoin(a: seq<Text>, b: seq<Text>, parameters: seq<Parameter>, arguments: seq<seq<Text>>)
    requires |arguments| == |parameters|
    ensures Replaced(a + b, parameters, arguments)
         == Replaced(a, parameters, arguments) + Replaced(b, parameters, arguments)
    decreases |a|
  {
    if a == [] {
      assert a + b == b;
    } else {
      assert (a + b)[0] == a[0] && (a + b)[1..] == a[1..] + b;
      ReplacedJoin(a[1..], b, parameters, arguments);
    }
  }

  lemma ReplacedOne(t: Text, parameters: seq<Parameter>, arguments: seq<seq<Text>>)
    requires |arguments| == |parameters|
    ensures Replaced([t], parameters, arguments) == Replace(t, parameters, arguments)
  {
    assert [t][1..] == [];
  }

  function Slices(ts: seq<Text>, ranges: seq<Range>): (arguments: seq<seq<Text>>)
    requires RangesOk(ranges, |ts|)
    ensures |arguments| == |ranges|
  {
    seq(|ranges|, i requires 0 <= i < |ranges| => ts[ranges[i].from..ranges[i].to])
  }

  lemma {:induction false} SubstitutedIsReplaced(body: seq<Token>, parameters: seq<Parameter>, ts: seq<Text>, ranges: seq<Range>)
    requires |ranges| == |parameters| && RangesOk(ranges, |ts|)
    ensures Substituted(body, parameters, ts, ranges) == Replaced(Texts(body), parameters, Slices(ts, ranges))
    decreases |body|
  {
    if body != [] {
      var front, last := body[..|body| - 1], body[|body| - 1].text;
      SubstitutedIsReplaced(front, parameters, ts, ranges);
      assert Texts(body) == Texts(front) + [last];
      ReplacedJoin(Texts(front), [last], parameters, Slices(ts, ranges));
      ReplacedOne(last, parameters, Slices(ts, ranges));
    }
  }

  ghost predicate ClosedAll(arguments: seq<seq<Text>>) {
    forall i :: 0 <= i < |arguments| ==> Closed(arguments[i], 0, 0, 0)
  }

  /** Where place `i` of a replacement text comes to stand. */
  function Place(b: seq<Text>, parameters: seq<Parameter>, arguments: seq<seq<Text>>, i: nat): nat
    requires |arguments| == |parameters| && i <= |b|
  {
    |Replaced(b[..i], parameters, arguments)|
  }

  /** One more token of the replacement text. */
  lemma PlaceNext(b: seq<Text>, parameters: seq<Parameter>, arguments: seq<seq<Text>>, i: nat)
    requires |arguments| == |parameters| && i < |b|
    ensures var r, at, next := Replaced(b, parameters, arguments), Place(b, parameters, arguments, i),
                               Place(b, parameters, arguments, i + 1);
            at <= next <= |r| && r[at..next] == Replace(b[i], parameters, arguments)
  {
    assert b[..i + 1] == b[..i] + [b[i]] && b == b[..i + 1] + b[i + 1..];
    ReplacedJoin(b[..i], [b[i]], parameters, arguments);
    ReplacedJoin(b[..i + 1], b[i + 1..], parameters, arguments);
    ReplacedOne(b[i], parameters, arguments);
  }

  lemma {:induction false} PlaceGrows(b: seq<Text>, parameters: seq<Parameter>, arguments: seq<seq<Text>>, i: nat, j: nat)
    requires |arguments| == |parameters| && i <= j <= |b|
    ensures Place(b, parameters, arguments, i) <= Place(b, parameters, arguments, j) <= |Replaced(b, parameters, arguments)|
    ensures Replaced(b, parameters, arguments)[Place(b, parameters, arguments, i)..Place(b, parameters, arguments, j)]
         == Replaced(b[i..j], parameters, arguments)
    ensures Replaced(b, parameters, arguments)[Place(b, parameters, arguments, j)..]
         == Replaced(b[j..], parameters, arguments)
  {
    assert b[..j] == b[..i] + b[i..j] && b == b[..j] + b[j..];
    ReplacedJoin(b[..i], b[i..j], parameters, arguments);
    ReplacedJoin(b[..j], b[j..], parameters, arguments);
  }

  lemma {:induction false} ClosedReplaced(b: seq<Text>, parameters: seq<Parameter>, arguments: seq<seq<Text>>,
                                          p: nat, k: nat, c: nat)
    requires |arguments| == |parameters| && ClosedAll(arguments) && Closed(b, p, k, c)
    ensures Closed(Replaced(b, parameters, arguments), p, k, c)
    decreases |b|
  {
    hide Replace, ParameterIndex;
    if b != [] {
      var rest := Replaced(b[1..], parameters, arguments);
      if IsParameter(parameters, b[0]) {
        ReplacedParameter(b[0], parameters, arguments);
        ClosedReplaced(b[1..], parameters, arguments, p, k, c);
        ClosedJoin(Replace(b[0], parameters, arguments), 0, 0, 0, rest, p, k, c);
      } else {
        ReplacedAlone(b[0], parameters, arguments);
        assert ([b[0]] + rest)[1..] == rest;
        match b[0]
        case Tick =>
        case LParen => ClosedReplaced(b[1..], parameters, arguments, p + 1, k, c);
        case RParen => ClosedReplaced(b[1..], parameters, arguments, p - 1, k, c);
        case LBracket => ClosedReplaced(b[1..], parameters, arguments, p, k + 1, c);
        case RBracket => ClosedReplaced(b[1..], parameters, arguments, p, k - 1, c);
        case LBrace => ClosedReplaced(b[1..], parameters, arguments, p, k, c + 1);
        case RBrace => ClosedReplaced(b[1..], parameters, arguments, p, k, c - 1);
        case _ => ClosedReplaced(b[1..], parameters, arguments, p, k, c);
      }
    }
  }

  lemma ReplacedParameter(t: Text, parameters: seq<Parameter>, arguments: seq<seq<Text>>)
    requires |arguments| == |parameters| && ClosedAll(arguments) && IsParameter(parameters, t)
    ensures t.Ident? && Closed(Replace(t, parameters, arguments), 0, 0, 0)
  {
  }

  // ----- the calls in a replacement text do not depend on the arguments

  function MovedRanges(b: seq<Text>, parameters: seq<Parameter>, arguments: seq<seq<Text>>, ranges: seq<Range>)
    : (moved: seq<Range>)
    requires |arguments| == |parameters| && RangesOk(ranges, |b|)
    ensures |moved| == |ranges|
  {
    seq(|ranges|, i requires 0 <= i < |ranges| =>
      Range(Place(b, parameters, arguments, ranges[i].from), Place(b, parameters, arguments, ranges[i].to)))
  }

  lemma MovedRangesOk(b: seq<Text>, parameters: seq<Parameter>, arguments: seq<seq<Text>>, ranges: seq<Range>)
    requires |arguments| == |parameters| && RangesOk(ranges, |b|)
    ensures RangesOk(MovedRanges(b, parameters, arguments, ranges), |Replaced(b, parameters, arguments)|)
  {
    forall i | 0 <= i < |ranges|
      ensures Place(b, parameters, arguments, ranges[i].from) <= Place(b, parameters, arguments, ranges[i].to)
              <= |Replaced(b, parameters, arguments)|
    {
      PlaceGrows(b, parameters, arguments, ranges[i].from, ranges[i].to);
    }
  }

  function MovedArguments(b: seq<Text>, parameters: seq<Parameter>, arguments: seq<seq<Text>>, r: Arguments): Arguments
    requires |arguments| == |parameters| && (r.Arguments? ==> r.after <= |b| && RangesOk(r.ranges, |b|))
  {
    match r
    case BadArguments(e) => r
    case Arguments(ranges, after) =>
      Arguments(MovedRanges(b, parameters, arguments, ranges), Place(b, parameters, arguments, after))
  }

  /** Scanning the argument list of a call finds the same arguments with the parameters replaced. */
  lemma {:induction false} ScanReplaced(b: seq<Text>, parameters: seq<Parameter>, arguments: seq<seq<Text>>,
                                        at: nat, start: nat, parentheses: nat, brackets: nat, braces: nat,
                                        done: seq<Range>, wanted: nat)
    requires |arguments| == |parameters| && ClosedAll(arguments)
    requires start <= at <= |b| && parentheses > 0 && RangesOk(done, |b|)
    requires wanted > 0 || done != [] || (start < |b| ==> !IsParameter(parameters, b[start]))
    ensures Place(b, parameters, arguments, start) <= Place(b, parameters, arguments, at)
            <= |Replaced(b, parameters, arguments)|
    ensures RangesOk(MovedRanges(b, parameters, arguments, done), |Replaced(b, parameters, arguments)|)
    ensures ScanArguments(Replaced(b, parameters, arguments), Place(b, parameters, arguments, at),
                          Place(b, parameters, arguments, start), parentheses, brackets, braces,
                          MovedRanges(b, parameters, arguments, done), wanted)
         == MovedArguments(b, parameters, arguments,
                           ScanArguments(b, at, start, parentheses, brackets, braces, done, wanted))
    decreases |b| - at, 2
  {
    hide Closed, Replaced, Replace, ParameterIndex, Place;
    PlaceGrows(b, parameters, arguments, start, at);
    MovedRangesOk(b, parameters, arguments, done);
    if at == |b| {
      PlaceEnd(b, parameters, arguments);
    } else {
      PlaceNext(b, parameters, arguments, at);
      if IsParameter(parameters, b[at]) {
        ScanParameter(b, parameters, arguments, at, start, parentheses, brackets, braces, done, wanted);
        ScanReplaced(b, parameters, arguments, at + 1, start, parentheses, brackets, braces, done, wanted);
      } else {
        ScanToken(b, parameters, arguments, at, start, parentheses, brackets, braces, done, wanted);
      }
    }
  }

  lemma PlaceEnd(b: seq<Text>, parameters: seq<Parameter>, arguments: seq<seq<Text>>)
    requires |arguments| == |parameters|
    ensures Place(b, parameters, arguments, |b|) == |Replaced(b, parameters, arguments)|
    ensures Place(b, parameters, arguments, 0) == 0
  {
    assert b[..|b|] == b && b[..0] == [];
  }

  /** A parameter: its argument is passed over. */
  lemma ScanParameter(b: seq<Text>, parameters: seq<Parameter>, arguments: seq<seq<Text>>,
                      at: nat, start: nat, parentheses: nat, brackets: nat, braces: nat, done: seq<Range>, wanted: nat)
    requires |arguments| == |parameters| && ClosedAll(arguments)
    requires start <= at < |b| && parentheses > 0 && RangesOk(done, |b|) && IsParameter(parameters, b[at])
    ensures ScanArguments(b, at, start, parentheses, brackets, braces, done, wanted)
         == ScanArguments(b, at + 1, start, parentheses, brackets, braces, done, wanted)
    ensures forall s: nat, d: seq<Range> ::
              var r := Replaced(b, parameters, arguments);
              s <= Place(b, parameters, arguments, at) <= Place(b, parameters, arguments, at + 1) <= |r| && RangesOk(d, |r|) ==>
                ScanArguments(r, Place(b, parameters, arguments, at), s, parentheses, brackets, braces, d, wanted)
                == ScanArguments(r, Place(b, parameters, arguments, at + 1), s, parentheses, brackets, braces, d, wanted)
  {
    assert b[at].Ident?;
    PlaceNext(b, parameters, arguments, at);
    var r, from, to := Replaced(b, parameters, arguments), Place(b, parameters, arguments, at),
                       Place(b, parameters, arguments, at + 1);
    assert Closed(r[from..to], 0, 0, 0);
    hide ScanArguments, Replaced, Place;
    forall s: nat, d: seq<Range> | s <= from && RangesOk(d, |r|)
      ensures ScanArguments(r, from, s, parentheses, brackets, braces, d, wanted)
           == ScanArguments(r, to, s, parentheses, brackets, braces, d, wanted)
    {
      ScanSkips(r, from, to, s, 0, 0, 0, parentheses, brackets, braces, d, wanted);
    }
  }

  lemma RangesOkSnoc(done: seq<Range>, x: Range, limit: nat)
    requires RangesOk(done, limit) && x.from <= x.to <= limit
    ensures RangesOk(done + [x], limit)
  {
  }

  lemma MovedSnoc(b: seq<Text>, parameters: seq<Parameter>, arguments: seq<seq<Text>>, done: seq<Range>, x: Range)
    requires |arguments| == |parameters| && RangesOk(done, |b|) && x.from <= x.to <= |b|
    ensures RangesOk(done + [x], |b|)
    ensures MovedRanges(b, parameters, arguments, done + [x])
         == MovedRanges(b, parameters, arguments, done) +
            [Range(Place(b, parameters, arguments, x.from), Place(b, parameters, arguments, x.to))]
  {
  }

  lemma TokenStays(b: seq<Text>, parameters: seq<Parameter>, arguments: seq<seq<Text>>, at: nat)
    requires |arguments| == |parameters| && at < |b| && !IsParameter(parameters, b[at])
    ensures var r, to := Replaced(b, parameters, arguments), Place(b, parameters, arguments, at);
            to < |r| && r[to] == b[at] && Place(b, parameters, arguments, at + 1) == to + 1
  {
    PlaceNext(b, parameters, arguments, at);
    ReplacedAlone(b[at], parameters, arguments);
    hide Replaced, Replace, Place;
    var r, to := Replaced(b, parameters, arguments), Place(b, parameters, arguments, at);
    assert r[to..Place(b, parameters, arguments, at + 1)][0] == b[at];
  }

  /** A token that is not replaced. */
  lemma {:induction false} ScanToken(b: seq<Text>, parameters: seq<Parameter>, arguments: seq<seq<Text>>,
                                     at: nat, start: nat, parentheses: nat, brackets: nat, braces: nat,
                                     done: seq<Range>, wanted: nat)
    requires |arguments| == |parameters| && ClosedAll(arguments)
    requires start <= at < |b| && parentheses > 0 && RangesOk(done, |b|) && !IsParameter(parameters, b[at])
    requires wanted > 0 || done != [] || !IsParameter(parameters, b[start])
    ensures Place(b, parameters, arguments, start) <= Place(b, parameters, arguments, at)
            <= |Replaced(b, parameters, arguments)|
    ensures RangesOk(MovedRanges(b, parameters, arguments, done), |Replaced(b, parameters, arguments)|)
    ensures ScanArguments(Replaced(b, parameters, arguments), Place(b, parameters, arguments, at),
                          Place(b, parameters, arguments, start), parentheses, brackets, braces,
                          MovedRanges(b, parameters, arguments, done), wanted)
         == MovedArguments(b, parameters, arguments,
                           ScanArguments(b, at, start, parentheses, brackets, braces, done, wanted))
    decreases |b| - at, 1
  {
    hide Closed, Replaced, ParameterIndex, Place, MovedRanges, RangesOk;
    PlaceGrows(b, parameters, arguments, start, at);
    MovedRangesOk(b, parameters, arguments, done);
    TokenStays(b, parameters, arguments, at);
    hide Replace;
    match b[at]
    case LParen => ScanReplaced(b, parameters, arguments, at + 1, start, parentheses + 1, brackets, braces, done, wanted);
    case RParen =>
      if parentheses > 1 {
        ScanReplaced(b, parameters, arguments, at + 1, start, parentheses - 1, brackets, braces, done, wanted);
      } else {
        ScanClosing(b, parameters, arguments, at, start, brackets, braces, done, wanted);
      }
    case LBracket => ScanReplaced(b, parameters, arguments, at + 1, start, parentheses, brackets + 1, braces, done, wanted);
    case RBracket =>
      ScanReplaced(b, parameters, arguments, at + 1, start, parentheses, Less(brackets), braces, done, wanted);
    case LBrace => ScanReplaced(b, parameters, arguments, at + 1, start, parentheses, brackets, braces + 1, done, wanted);
    case RBrace =>
      ScanReplaced(b, parameters, arguments, at + 1, start, parentheses, brackets, Less(braces), done, wanted);
    case Comma =>
      if parentheses == 1 && brackets == 0 && braces == 0 {
        ScanComma(b, parameters, arguments, at, start, done, wanted);
      } else {
        ScanReplaced(b, parameters, arguments, at + 1, start, parentheses, brackets, braces, done, wanted);
      }
    case _ => ScanReplaced(b, parameters, arguments, at + 1, start, parentheses, brackets, braces, done, wanted);
  }

  /** A comma that ends an argument. */
  lemma {:induction false} ScanComma(b: seq<Text>, parameters: seq<Parameter>, arguments: seq<seq<Text>>,
                                     at: nat, start: nat, done: seq<Range>, wanted: nat)
    requires |arguments| == |parameters| && ClosedAll(arguments)
    requires start <= at < |b| && b[at].Comma? && RangesOk(done, |b|)
    requires wanted > 0 || done != [] || !IsParameter(parameters, b[start])
    requires var r, to := Replaced(b, parameters, arguments), Place(b, parameters, arguments, at);
             && Place(b, parameters, arguments, start) <= to < |r| && r[to].Comma?
             && Place(b, parameters, arguments, at + 1) == to + 1
             && RangesOk(MovedRanges(b, parameters, arguments, done), |r|)
    ensures ScanArguments(Replaced(b, parameters, arguments), Place(b, parameters, arguments, at),
                          Place(b, parameters, arguments, start), 1, 0, 0,
                          MovedRanges(b, parameters, arguments, done), wanted)
         == MovedArguments(b, parameters, arguments, ScanArguments(b, at, start, 1, 0, 0, done, wanted))
    decreases |b| - at, 0
  {
    hide Closed, Replaced, Replace, ParameterIndex, Place, MovedRanges, RangesOk;
    RangesOkSnoc(done, Range(start, at), |b|);
    MovedSnoc(b, parameters, arguments, done, Range(start, at));
    ScanReplaced(b, parameters, arguments, at + 1, at + 1, 1, 0, 0, done + [Range(start, at)], wanted);
  }

  /** The parenthesis that ends the list. */
  lemma ScanClosing(b: seq<Text>, parameters: seq<Parameter>, arguments: seq<seq<Text>>,
                    at: nat, start: nat, brackets: nat, braces: nat, done: seq<Range>, wanted: nat)
    requires |arguments| == |parameters| && start <= at < |b| && b[at].RParen? && RangesOk(done, |b|)
    requires wanted > 0 || done != [] || !IsParameter(parameters, b[start])
    requires var r, to := Replaced(b, parameters, arguments), Place(b, parameters, arguments, at);
             && Place(b, parameters, arguments, start) <= to < |r| && r[to].RParen?
             && Place(b, parameters, arguments, at + 1) == to + 1
             && RangesOk(MovedRanges(b, parameters, arguments, done), |r|)
    ensures ScanArguments(Replaced(b, parameters, arguments), Place(b, parameters, arguments, at),
                          Place(b, parameters, arguments, start), 1, brackets, braces,
                          MovedRanges(b, parameters, arguments, done), wanted)
         == MovedArguments(b, parameters, arguments, ScanArguments(b, at, start, 1, brackets, braces, done, wanted))
  {
    hide Replaced, Replace, ParameterIndex, Place, MovedRanges;
    MovedSnoc(b, parameters, arguments, done, Range(start, at));
    if wanted == 0 && done == [] && at > start {
      PlaceNext(b, parameters, arguments, start);
      PlaceGrows(b, parameters, arguments, start + 1, at);
      ReplacedAlone(b[start], parameters, arguments);
    }
  }

  lemma ReplacedAlone(t: Text, parameters: seq<Parameter>, arguments: seq<seq<Text>>)
    requires |arguments| == |parameters| && !IsParameter(parameters, t)
    ensures Replace(t, parameters, arguments) == [t]
  {
  }

  function MovedCall(b: seq<Text>, parameters: seq<Parameter>, arguments: seq<seq<Text>>, c: Call): Call
    requires |arguments| == |parameters| && (c.Call? ==> c.after <= |b| && RangesOk(c.ranges, |b|))
  {
    match c
    case BadCall(e) => c
    case Call(m, ranges, after) =>
      Call(m, MovedRanges(b, parameters, arguments, ranges), Place(b, parameters, arguments, after))
  }

  lemma FirstStays(b: seq<Text>, parameters: seq<Parameter>, arguments: seq<seq<Text>>)
    requires |arguments| == |parameters| && b != [] && !IsParameter(parameters, b[0])
    ensures Replaced(b, parameters, arguments) == [b[0]] + Replaced(b[1..], parameters, arguments)
    ensures Place(b, parameters, arguments, 1) == 1
  {
    assert b[..1] == [b[0]];
    ReplacedOne(b[0], parameters, arguments);
  }

  /** The first tokens of a plain call stay where they are. */
  lemma CallStays(ms: seq<Macro>, b: seq<Text>, parameters: seq<Parameter>, arguments: seq<seq<Text>>)
    requires MacrosOk(ms) && |arguments| == |parameters| && Invokes(b) && PlainCall(ms, parameters, b)
    ensures var r, m := Replaced(b, parameters, arguments), FindMacro(ms, b[1].name);
            && Invokes(r) && r[1] == b[1] && Place(b, parameters, arguments, 2) == 2
            && (m.Some? && ms[m.value].functionLike ==>
                  && (|r| > 2 <==> |b| > 2)
                  && (|b| > 2 ==> r[2] == b[2] && Place(b, parameters, arguments, 3) == 3))
  {
    FirstStays(b, parameters, arguments);
    FirstStays(b[1..], parameters, arguments);
    assert b[1..][1..] == b[2..];
    assert b[..2] == [b[0]] + [b[1]];
    ReplacedJoin([b[0]], [b[1]], parameters, arguments);
    ReplacedOne(b[0], parameters, arguments);
    ReplacedOne(b[1], parameters, arguments);
    var m := FindMacro(ms, b[1].name);
    if m.Some? && ms[m.value].functionLike && |b| > 2 {
      FirstStays(b[2..], parameters, arguments);
      assert b[..3] == b[..2] + [b[2]];
      ReplacedJoin(b[..2], [b[2]], parameters, arguments);
      ReplacedOne(b[2], parameters, arguments);
    }
  }

  /** A plain call is the same call, with the same result, whatever closed arguments the parameters stand for. */
  lemma ReadCallReplaced(ms: seq<Macro>, b: seq<Text>, parameters: seq<Parameter>, arguments: seq<seq<Text>>)
    requires MacrosOk(ms) && |arguments| == |parameters| && ClosedAll(arguments)
    requires Invokes(b) && PlainCall(ms, parameters, b)
    ensures Invokes(Replaced(b, parameters, arguments))
    ensures ReadCall(ms, Replaced(b, parameters, arguments)) == MovedCall(b, parameters, arguments, ReadCall(ms, b))
  {
    CallStays(ms, b, parameters, arguments);
    var m := FindMacro(ms, b[1].name);
    if m.Some? && ms[m.value].functionLike && |b| > 2 && b[2].LParen? {
      ScanReplaced(b, parameters, arguments, 3, 3, 1, 0, 0, [], |ms[m.value].parameters|);
    }
  }

  // ----- outlines

  /** The macros a text invokes, in order, up to the first call that cannot be read. */
  datatype Outline = Outline(calls: seq<nat>, error: Option<Error>)

  function OutlineOf(ms: seq<Macro>, ts: seq<Text>): (o: Outline)
    requires MacrosOk(ms)
    ensures forall i :: 0 <= i < |o.calls| ==> o.calls[i] < |ms|
    ensures o.error != Some(Recursive)
    decreases |ts|
  {
    if ts == [] then Outline([], None)
    else if !Invokes(ts) then OutlineOf(ms, ts[1..])
    else
      var c := ReadCall(ms, ts);
      if c.BadCall? then Outline([], Some(c.error))
      else
        var o := OutlineOf(ms, ts[c.after..]);
        o.(calls := [c.macroId] + o.calls)
  }

  lemma {:induction false} ClosedIsPassed(ms: seq<Macro>, a: seq<Text>, p: nat, k: nat, c: nat, rest: seq<Text>)
    requires MacrosOk(ms) && Closed(a, p, k, c)
    ensures OutlineOf(ms, a + rest) == OutlineOf(ms, rest) && (Quiet(ms, a + rest) <==> Quiet(ms, rest))
    decreases |a|
  {
    if a == [] {
      assert a + rest == rest;
    } else {
      assert (a + rest)[0] == a[0] && (a + rest)[1..] == a[1..] + rest;
      match a[0]
      case Tick =>
      case LParen => ClosedIsPassed(ms, a[1..], p + 1, k, c, rest);
      case RParen => ClosedIsPassed(ms, a[1..], p - 1, k, c, rest);
      case LBracket => ClosedIsPassed(ms, a[1..], p, k + 1, c, rest);
      case RBracket => ClosedIsPassed(ms, a[1..], p, k - 1, c, rest);
      case LBrace => ClosedIsPassed(ms, a[1..], p, k, c + 1, rest);
      case RBrace => ClosedIsPassed(ms, a[1..], p, k, c - 1, rest);
      case _ => ClosedIsPassed(ms, a[1..], p, k, c, rest);
    }
  }

  lemma MovedAreClosed(b: seq<Text>, parameters: seq<Parameter>, arguments: seq<seq<Text>>, ranges: seq<Range>)
    requires |arguments| == |parameters| && ClosedAll(arguments) && RangesOk(ranges, |b|) && ClosedRanges(b, ranges)
    ensures var r, moved := Replaced(b, parameters, arguments), MovedRanges(b, parameters, arguments, ranges);
            RangesOk(moved, |r|) && ClosedRanges(r, moved)
  {
    var r, moved := Replaced(b, parameters, arguments), MovedRanges(b, parameters, arguments, ranges);
    MovedRangesOk(b, parameters, arguments, ranges);
    forall i | 0 <= i < |ranges|
      ensures Closed(r[moved[i].from..moved[i].to], 0, 0, 0)
    {
      PlaceGrows(b, parameters, arguments, ranges[i].from, ranges[i].to);
      ClosedReplaced(b[ranges[i].from..ranges[i].to], parameters, arguments, 0, 0, 0);
    }
  }

  /** A token that starts no call and is no parameter stays in front, and starts no call there. */
  lemma StaysPlain(b: seq<Text>, parameters: seq<Parameter>, arguments: seq<seq<Text>>)
    requires |arguments| == |parameters| && b != [] && !Invokes(b) && !IsParameter(parameters, b[0])
    ensures var r := Replaced(b, parameters, arguments);
            r != [] && !Invokes(r) && r[1..] == Replaced(b[1..], parameters, arguments)
  {
    FirstStays(b, parameters, arguments);
    if b[0].Tick? && |b| > 1 {
      FirstStays(b[1..], parameters, arguments);
    }
  }

  /** A replacement has the outline of its replacement text, and its own arguments are closed again. */
  lemma {:induction false} OutlineReplaced(ms: seq<Macro>, b: seq<Text>, parameters: seq<Parameter>, arguments: seq<seq<Text>>)
    requires MacrosOk(ms) && |arguments| == |parameters| && ClosedAll(arguments) && QuietBody(ms, parameters, b)
    ensures OutlineOf(ms, Replaced(b, parameters, arguments)) == OutlineOf(ms, b)
    ensures Quiet(ms, Replaced(b, parameters, arguments))
    decreases |b|
  {
    hide ReadCall, Place, MovedRanges, Closed;
    if b != [] {
      if Invokes(b) {
        ReadCallReplaced(ms, b, parameters, arguments);
        var c := ReadCall(ms, b);
        if c.Call? {
          OutlineReplaced(ms, b[c.after..], parameters, arguments);
          PlaceGrows(b, parameters, arguments, 0, c.after);
          MovedAreClosed(b, parameters, arguments, c.ranges);
        }
      } else {
        OutlineReplaced(ms, b[1..], parameters, arguments);
        if IsParameter(parameters, b[0]) {
          ClosedIsPassed(ms, Replace(b[0], parameters, arguments), 0, 0, 0, Replaced(b[1..], parameters, arguments));
        } else {
          StaysPlain(b, parameters, arguments);
        }
      }
    }
  }

  // ----- what becomes of an outline

  ghost predicate OutlineOk(ms: seq<Macro>, o: Outline) { forall i :: 0 <= i < |o.calls| ==> o.calls[i] < |ms| }

  function BodyOutline(ms: seq<Macro>, m: nat): (o: Outline)
    requires MacrosOk(ms) && m < |ms|
    ensures OutlineOk(ms, o)
  {
    OutlineOf(ms, Texts(ms[m].body))
  }

  function Tail(o: Outline): Outline
    requires o.calls != []
  {
    o.(calls := o.calls[1..])
  }

  /** How plain substitution ends: none if not within the depth, else the error if there is one. */
  function Ending(ms: seq<Macro>, depth: nat, o: Outline): Option<Option<Error>>
    requires MacrosOk(ms) && OutlineOk(ms, o)
    decreases depth, |o.calls|
  {
    if o.calls == [] then Some(o.error)
    else if depth == 0 then None
    else
      var nested := Ending(ms, depth - 1, BodyOutline(ms, o.calls[0]));
      if nested.None? || nested.value.Some? then nested else Ending(ms, depth, Tail(o))
  }

  /** How expansion with a stack ends. */
  function StackEnding(ms: seq<Macro>, stack: set<nat>, o: Outline): Option<Error>
    requires MacrosOk(ms) && OutlineOk(ms, o)
    decreases |Unused(ms, stack)|, |o.calls|
  {
    if o.calls == [] then o.error
    else if o.calls[0] in stack then Some(Recursive)
    else
      UnusedDrops(ms, stack, o.calls[0]);
      var nested := StackEnding(ms, stack + {o.calls[0]}, BodyOutline(ms, o.calls[0]));
      if nested.Some? then nested else StackEnding(ms, stack, Tail(o))
  }

  function ErrorOf(r: Result): Option<Error> { if r.Failed? then Some(r.error) else None }

  /** A replacement of a call of a quiet text is quiet and has the outline of the macro. */
  lemma CallReplaced(ms: seq<Macro>, ts: seq<Text>)
    requires MacrosOk(ms) && QuietMacros(ms) && Quiet(ms, ts) && Invokes(ts) && ReadCall(ms, ts).Call?
    ensures var c := ReadCall(ms, ts);
            && Quiet(ms, Replacement(ms, ts, c)) && OutlineOf(ms, Replacement(ms, ts, c)) == BodyOutline(ms, c.macroId)
            && Quiet(ms, ts[c.after..])
            && OutlineOf(ms, ts).calls != [] && OutlineOf(ms, ts).calls[0] == c.macroId
            && Tail(OutlineOf(ms, ts)) == OutlineOf(ms, ts[c.after..])
  {
    var c := ReadCall(ms, ts);
    var m := ms[c.macroId];
    SubstitutedIsReplaced(m.body, m.parameters, ts, c.ranges);
    OutlineReplaced(ms, Texts(m.body), m.parameters, Slices(ts, c.ranges));
  }

  lemma {:induction false} SubstituteFollows(ms: seq<Macro>, depth: nat, ts: seq<Text>)
    requires MacrosOk(ms) && QuietMacros(ms) && Quiet(ms, ts)
    ensures Ending(ms, depth, OutlineOf(ms, ts)) ==
            if Substitute(ms, depth, ts).None? then None else Some(ErrorOf(Substitute(ms, depth, ts).value))
    decreases depth, |ts|
  {
    hide ReadCall, Replacement, QuietMacros, ClosedRanges;
    if ts != [] {
      if !Invokes(ts) {
        SubstituteFollows(ms, depth, ts[1..]);
      } else {
        var c := ReadCall(ms, ts);
        if c.Call? {
          CallReplaced(ms, ts);
          if depth > 0 {
            SubstituteFollows(ms, depth - 1, Replacement(ms, ts, c));
            SubstituteFollows(ms, depth, ts[c.after..]);
          }
        }
      }
    }
  }

  lemma {:induction false} ExpandFollows(ms: seq<Macro>, stack: set<nat>, ts: seq<Text>)
    requires MacrosOk(ms) && QuietMacros(ms) && Quiet(ms, ts)
    ensures StackEnding(ms, stack, OutlineOf(ms, ts)) == ErrorOf(Expand(ms, stack, ts))
    decreases |Unused(ms, stack)|, |ts|
  {
    hide ReadCall, Replacement, QuietMacros, ClosedRanges;
    if ts != [] {
      if !Invokes(ts) {
        ExpandFollows(ms, stack, ts[1..]);
      } else {
        var c := ReadCall(ms, ts);
        if c.Call? {
          CallReplaced(ms, ts);
          if c.macroId !in stack {
            UnusedDrops(ms, stack, c.macroId);
            ExpandFollows(ms, stack + {c.macroId}, Replacement(ms, ts, c));
            ExpandFollows(ms, stack, ts[c.after..]);
          }
        }
      }
    }
  }

  // ----- outlines that recur never end

  lemma {:induction false} EndingDeeper(ms: seq<Macro>, depth: nat, more: nat, o: Outline)
    requires MacrosOk(ms) && OutlineOk(ms, o) && Ending(ms, depth, o).Some? && depth <= more
    ensures Ending(ms, more, o) == Ending(ms, depth, o)
    decreases depth, |o.calls|
  {
    if o.calls != [] {
      EndingDeeper(ms, depth - 1, more - 1, BodyOutline(ms, o.calls[0]));
      if Ending(ms, depth - 1, BodyOutline(ms, o.calls[0])) == Some(None) {
        EndingDeeper(ms, depth, more, Tail(o));
      }
    }
  }

  /** The macros on the stack need more depth than is left. */
  ghost predicate StackDeeper(ms: seq<Macro>, stack: set<nat>, depth: nat)
    requires MacrosOk(ms)
  {
    forall m :: m in stack ==> m < |ms| && (depth > 0 ==> Ending(ms, depth - 1, BodyOutline(ms, m)).None?)
  }

  /** The least depth at which an outline that ends does end. */
  lemma {:induction false} LeastDepth(ms: seq<Macro>, depth: nat, o: Outline) returns (least: nat)
    requires MacrosOk(ms) && OutlineOk(ms, o) && Ending(ms, depth, o).Some?
    ensures least <= depth && Ending(ms, least, o).Some?
    ensures least > 0 ==> Ending(ms, least - 1, o).None?
    decreases depth
  {
    if depth > 0 && Ending(ms, depth - 1, o).Some? {
      least := LeastDepth(ms, depth - 1, o);
    } else {
      least := depth;
    }
  }

  lemma StackStaysDeeper(ms: seq<Macro>, stack: set<nat>, depth: nat, m: nat, least: nat)
    requires MacrosOk(ms) && StackDeeper(ms, stack, depth) && 0 < depth && least < depth && m < |ms|
    requires least > 0 ==> Ending(ms, least - 1, BodyOutline(ms, m)).None?
    ensures StackDeeper(ms, stack + {m}, least)
  {
    hide Ending, BodyOutline;
    forall n | n in stack + {m}
      ensures n < |ms| && (least > 0 ==> Ending(ms, least - 1, BodyOutline(ms, n)).None?)
    {
      if n in stack && least > 0 && Ending(ms, least - 1, BodyOutline(ms, n)).Some? {
        EndingDeeper(ms, least - 1, depth - 1, BodyOutline(ms, n));
      }
    }
  }

  /** Unless recursion is reported, the stack makes no difference. */
  lemma {:induction false} StackIsIdle(ms: seq<Macro>, stack: set<nat>, depth: nat, o: Outline)
    requires MacrosOk(ms) && OutlineOk(ms, o) && Ending(ms, depth, o).Some? && StackEnding(ms, stack, o) != Some(Recursive)
    ensures Ending(ms, depth, o) == Some(StackEnding(ms, stack, o))
    decreases depth, |o.calls|
  {
    if o.calls != [] {
      StackIsIdle(ms, stack + {o.calls[0]}, depth - 1, BodyOutline(ms, o.calls[0]));
      if Ending(ms, depth - 1, BodyOutline(ms, o.calls[0])) == Some(None) {
        StackIsIdle(ms, stack, depth, Tail(o));
      }
    }
  }

  lemma {:induction false} EndingIsNotRecursive(ms: seq<Macro>, stack: set<nat>, depth: nat, o: Outline)
    requires MacrosOk(ms) && OutlineOk(ms, o) && o.error != Some(Recursive)
    requires Ending(ms, depth, o).Some? && StackDeeper(ms, stack, depth)
    ensures StackEnding(ms, stack, o) != Some(Recursive)
    decreases depth, |o.calls|
  {
    hide StackDeeper, Texts, OutlineOf, Unused;
    if o.calls != [] {
      var m := o.calls[0];
      var body := BodyOutline(ms, m);
      var least := LeastDepth(ms, depth - 1, body);
      StackStaysDeeper(ms, stack, depth, m, least);
      EndingIsNotRecursive(ms, stack + {m}, least, body);
      NotOnStack(ms, stack, depth, m);
      StackIsIdle(ms, stack + {m}, depth - 1, body);
      if Ending(ms, depth - 1, body) == Some(None) {
        EndingIsNotRecursive(ms, stack, depth, Tail(o));
      }
    }
  }

  lemma NotOnStack(ms: seq<Macro>, stack: set<nat>, depth: nat, m: nat)
    requires MacrosOk(ms) && m < |ms| && depth > 0 && StackDeeper(ms, stack, depth)
    requires Ending(ms, depth - 1, BodyOutline(ms, m)).Some?
    ensures m !in stack
  {
  }

  ghost predicate Ends(ms: seq<Macro>, ts: seq<Text>)
    requires MacrosOk(ms)
  {
    exists depth: nat :: Substitute(ms, depth, ts).Some?
  }

  /**
   * In quiet texts with quiet macros, recursion is reported exactly when plain substitution would never end. When it
   * does end, expansion gives its result, at whatever depth it is found.
   */
  lemma RecursionIsEndless(ms: seq<Macro>, ts: seq<Text>)
    requires MacrosOk(ms) && QuietMacros(ms) && Quiet(ms, ts)
    ensures Expand(ms, {}, ts) == Failed(Recursive) <==> !Ends(ms, ts)
    ensures forall depth: nat :: Substitute(ms, depth, ts).Some? ==> Substitute(ms, depth, ts).value == Expand(ms, {}, ts)
  {
    hide QuietMacros, Quiet, Expand, Substitute, Ending, StackEnding;
    if Expand(ms, {}, ts) != Failed(Recursive) {
      var enough := |Unused(ms, {})|;
      ExpansionIsSubstitution(ms, {}, enough, ts);
      forall depth: nat | Substitute(ms, depth, ts).Some?
        ensures Substitute(ms, depth, ts).value == Expand(ms, {}, ts)
      {
        if depth <= enough {
          DeeperIsSame(ms, depth, enough, ts);
        } else {
          DeeperIsSame(ms, enough, depth, ts);
        }
      }
    }
    if depth: nat :| Substitute(ms, depth, ts).Some? {
      SubstituteFollows(ms, depth, ts);
      ExpandFollows(ms, {}, ts);
      EndingIsNotRecursive(ms, {}, depth, OutlineOf(ms, ts));
    }
  }

  // ----- macros without parameters are quiet

  ghost predicate Parameterless(ms: seq<Macro>) { forall m :: 0 <= m < |ms| ==> ms[m].parameters == [] }

  lemma {:induction false} ParameterlessBody(ms: seq<Macro>, b: seq<Text>)
    requires MacrosOk(ms) && Parameterless(ms)
    ensures QuietBody(ms, [], b) && Quiet(ms, b)
    decreases |b|
  {
    if b != [] {
      if Invokes(b) {
        var c := ReadCall(ms, b);
        if c.Call? {
          assert c.ranges == [];
          ParameterlessBody(ms, b[c.after..]);
        }
      } else {
        ParameterlessBody(ms, b[1..]);
      }
    }
  }

  lemma ParameterlessIsQuiet(ms: seq<Macro>, ts: seq<Text>)
    requires MacrosOk(ms) && Parameterless(ms)
    ensures QuietMacros(ms) && Quiet(ms, ts)
  {
    forall m | 0 <= m < |ms|
      ensures QuietBody(ms, ms[m].parameters, Texts(ms[m].body))
    {
      ParameterlessBody(ms, Texts(ms[m].body));
    }
    ParameterlessBody(ms, ts);
  }

  // ----- what happens otherwise

  /** A call with a single name as its only argument. */
  lemma SimpleCall(ms: seq<Macro>, id: nat, a: Text, k: nat)
    requires MacrosOk(ms) && FindMacro(ms, id) == Some(k) && k < |ms| && ms[k].functionLike && |ms[k].parameters| == 1
    requires a.Ident? || a.LBracket?
    ensures var ts := [Tick, Ident(id), LParen, a, RParen];
            ReadCall(ms, ts) == Call(k, [Range(3, 4)], 5) && Slices(ts, [Range(3, 4)]) == [[a]] && ts[5..] == []
  {
    var ts := [Tick, Ident(id), LParen, a, RParen];
    var b := if a.LBracket? then 1 else 0;
    assert ScanArguments(ts, 4, 3, 1, b, 0, [], 1) == Arguments([Range(3, 4)], 5);
    assert ScanArguments(ts, 3, 3, 1, 0, 0, [], 1) == Arguments([Range(3, 4)], 5);
    assert ts[3..4] == [a];
  }

  function CallText(id: nat, argument: seq<Text>): seq<Text> { [Tick, Ident(id), LParen] + argument + [RParen] }

  /** A call followed by nothing: its replacement decides. */
  lemma CallDecides(ms: seq<Macro>, id: nat, argument: seq<Text>, k: nat, replaced: seq<Text>)
    requires MacrosOk(ms) && k < |ms| && |ms[k].parameters| == 1
    requires ReadCall(ms, CallText(id, argument)) == Call(k, [Range(3, 3 + |argument|)], 4 + |argument|)
    requires replaced == Replaced(Texts(ms[k].body), ms[k].parameters, [argument])
    ensures var ts := CallText(id, argument);
            && (forall depth: nat :: depth > 0 ==> Substitute(ms, depth, ts) == Substitute(ms, depth - 1, replaced))
            && (forall stack: set<nat> :: k in stack ==> Expand(ms, stack, ts) == Failed(Recursive))
            && (forall stack: set<nat> :: k !in stack ==> Expand(ms, stack, ts) == Expand(ms, stack + {k}, replaced))
  {
    var ts, ranges := CallText(id, argument), [Range(3, 3 + |argument|)];
    assert Slices(ts, ranges) == [argument];
    SubstitutedIsReplaced(ms[k].body, ms[k].parameters, ts, ranges);
    hide ReadCall, Substituted, Slices, FindMacro, Replaced;
    assert Replacement(ms, ts, ReadCall(ms, ts)) == replaced;
    assert ts[4 + |argument|..] == [];
    forall depth: nat | depth > 0
      ensures Substitute(ms, depth, ts) == Substitute(ms, depth - 1, replaced)
    {
      assert Substitute(ms, depth, []) == Some(Expanded([]));
      NothingFollows(Substitute(ms, depth - 1, replaced));
    }
    forall stack: set<nat> | k !in stack
      ensures Expand(ms, stack, ts) == Expand(ms, stack + {k}, replaced)
    {
      assert Expand(ms, stack, []) == Expanded([]);
      NothingFollows(Some(Expand(ms, stack + {k}, replaced)));
    }
  }

  lemma SimpleCallDecides(ms: seq<Macro>, id: nat, a: Text, k: nat, replaced: seq<Text>)
    requires MacrosOk(ms) && FindMacro(ms, id) == Some(k) && k < |ms| && ms[k].functionLike && |ms[k].parameters| == 1
    requires a.Ident? || a.LBracket?
    requires replaced == Replaced(Texts(ms[k].body), ms[k].parameters, [[a]])
    ensures var ts := [Tick, Ident(id), LParen, a, RParen];
            && (forall depth: nat :: depth > 0 ==> Substitute(ms, depth, ts) == Substitute(ms, depth - 1, replaced))
            && (forall stack: set<nat> :: k in stack ==> Expand(ms, stack, ts) == Failed(Recursive))
            && (forall stack: set<nat> :: k !in stack ==> Expand(ms, stack, ts) == Expand(ms, stack + {k}, replaced))
  {
    SimpleCall(ms, id, a, k);
    assert CallText(id, [a]) == [Tick, Ident(id), LParen, a, RParen];
    hide *;
    CallDecides(ms, id, [a], k, replaced);
  }

  lemma NothingFollows(x: Option<Result>)
    ensures AndThen(x, Some(Expanded([]))) == x
    ensures x.Some? ==> Then(x.value, Expanded([])) == x.value
  {
    if x.Some? && x.value.Expanded? {
      assert x.value.output + [] == x.value.output;
    }
  }

  lemma OneToken(ms: seq<Macro>, stack: set<nat>, depth: nat, t: Text)
    requires MacrosOk(ms)
    ensures Substitute(ms, depth, [t]) == Some(Expanded([t])) && Expand(ms, stack, [t]) == Expanded([t])
  {
    assert [t][1..] == [] && [t] + [] == [t];
    assert Substitute(ms, depth, []) == Some(Expanded([])) && Expand(ms, stack, []) == Expanded([]);
  }

  /** With parameters it is not: an invocation within its own argument is refused although substitution ends. */
  lemma NestedArgumentIsRefused(id: nat, x: nat, y: nat)
    requires x != y
    ensures var ms := [Macro(id, true, true, [Parameter(x, 0)], [Token(Ident(x), 0)])];
            var ts := [Tick, Ident(id), LParen, Tick, Ident(id), LParen, Ident(y), RParen, RParen];
            && MacrosOk(ms) && Expand(ms, {}, ts) == Failed(Recursive)
            && Substitute(ms, 2, ts) == Some(Expanded([Ident(y)]))
  {
    var ms := [Macro(id, true, true, [Parameter(x, 0)], [Token(Ident(x), 0)])];
    var ts := [Tick, Ident(id), LParen, Tick, Ident(id), LParen, Ident(y), RParen, RParen];
    var inner := [Tick, Ident(id), LParen, Ident(y), RParen];
    var found := Arguments([Range(3, 8)], 9);
    assert FindMacro(ms, id) == Some(0);
    InnerCall(ms, id, x, y);
    assert ScanArguments(ts, 8, 3, 1, 0, 0, [], 1) == found;
    assert ScanArguments(ts, 7, 3, 2, 0, 0, [], 1) == found;
    assert ScanArguments(ts, 6, 3, 2, 0, 0, [], 1) == found;
    assert ScanArguments(ts, 5, 3, 1, 0, 0, [], 1) == found;
    assert ScanArguments(ts, 4, 3, 1, 0, 0, [], 1) == found;
    var c := ReadCall(ms, ts);
    assert c == Call(0, [Range(3, 8)], 9);
    assert ts[3..8] == inner && ts[9..] == [];
    IdentityReplacement(ms, id, x, ts, c);
    assert inner + [] == inner && [Ident(y)] + [] == [Ident(y)];
  }

  lemma IdentityReplacement(ms: seq<Macro>, id: nat, x: nat, ts: seq<Text>, c: Call)
    requires ms == [Macro(id, true, true, [Parameter(x, 0)], [Token(Ident(x), 0)])]
    requires c.Call? && c.macroId == 0 && |c.ranges| == 1 && RangesOk(c.ranges, |ts|)
    ensures Replacement(ms, ts, c) == ts[c.ranges[0].from..c.ranges[0].to]
  {
    var body := ms[0].body;
    assert body[..|body| - 1] == [];
    assert Substituted([], ms[0].parameters, ts, c.ranges) == [];
    assert ParameterIndex(ms[0].parameters, Ident(x)) == Some(0);
  }

  lemma InnerCall(ms: seq<Macro>, id: nat, x: nat, y: nat)
    requires ms == [Macro(id, true, true, [Parameter(x, 0)], [Token(Ident(x), 0)])] && x != y
    ensures var inner := [Tick, Ident(id), LParen, Ident(y), RParen];
            && ReadCall(ms, inner) == Call(0, [Range(3, 4)], 5) && inner[5..] == []
            && Replacement(ms, inner, ReadCall(ms, inner)) == [Ident(y)]
            && Substitute(ms, 1, inner) == Some(Expanded([Ident(y)]))
            && Expand(ms, {0}, inner) == Failed(Recursive)
  {
    var inner := [Tick, Ident(id), LParen, Ident(y), RParen];
    assert FindMacro(ms, id) == Some(0);
    assert inner[3..4] == [Ident(y)] && inner[5..] == [];
    assert ScanArguments(inner, 4, 3, 1, 0, 0, [], 1) == Arguments([Range(3, 4)], 5);
    var c := ReadCall(ms, inner);
    assert c == Call(0, [Range(3, 4)], 5);
    IdentityReplacement(ms, id, x, inner, c);
    assert [Ident(y)][1..] == [] && [Ident(y)] + [] == [Ident(y)];
    assert Substitute(ms, 0, []) == Some(Expanded([]));
    assert Substitute(ms, 0, [Ident(y)]) == Some(Expanded([Ident(y)]));
  }

  /** A macro that is invoked by the name passed to it is refused when that name is its own. */
  lemma PassedNameIsRefused(m: nat, n: nat, x: nat)
    requires m != n && n != x
    ensures var ms := [Macro(m, true, true, [Parameter(x, 0)], CallsParameter(x, n)),
                       Macro(n, true, true, [Parameter(x, 0)], [Token(Ident(x), 0)])];
            var ts := [Tick, Ident(m), LParen, Ident(m), RParen];
            && MacrosOk(ms) && Expand(ms, {}, ts) == Failed(Recursive)
            && Substitute(ms, 3, ts) == Some(Expanded([Ident(n)]))
  {
    var p := [Parameter(x, 0)];
    var ms := [Macro(m, true, true, p, CallsParameter(x, n)), Macro(n, true, true, p, [Token(Ident(x), 0)])];
    assert FindMacro(ms[..1], m) == Some(0) && FindMacro(ms, m) == Some(0) && FindMacro(ms, n) == Some(1);
    PassedName(m, n, x);
    PassedName(n, n, x);
    SimpleCallDecides(ms, m, Ident(m), 0, [Tick, Ident(m), LParen, Ident(n), RParen]);
    SimpleCallDecides(ms, m, Ident(n), 0, [Tick, Ident(n), LParen, Ident(n), RParen]);
    ReplacedOne(Ident(x), p, [[Ident(n)]]);
    assert Texts([Token(Ident(x), 0)]) == [Ident(x)];
    SimpleCallDecides(ms, n, Ident(n), 1, [Ident(n)]);
    OneToken(ms, {}, 0, Ident(n));
  }

  function CallsParameter(x: nat, n: nat): seq<Token> {
    [Token(Tick, 0), Token(Ident(x), 0), Token(LParen, 0), Token(Ident(n), 0), Token(RParen, 0)]
  }

  lemma PassedName(m: nat, n: nat, x: nat)
    requires n != x
    ensures Replaced(Texts(CallsParameter(x, n)), [Parameter(x, 0)], [[Ident(m)]]) == [Tick, Ident(m), LParen, Ident(n), RParen]
  {
    var p, args := [Parameter(x, 0)], [[Ident(m)]];
    assert Texts(CallsParameter(x, n)) == [Tick] + [Ident(x)] + [LParen] + [Ident(n)] + [RParen];
    ReplacedJoin([Tick] + [Ident(x)] + [LParen] + [Ident(n)], [RParen], p, args);
    ReplacedJoin([Tick] + [Ident(x)] + [LParen], [Ident(n)], p, args);
    ReplacedJoin([Tick] + [Ident(x)], [LParen], p, args);
    ReplacedJoin([Tick], [Ident(x)], p, args);
    ReplacedOne(Tick, p, args);
    ReplacedOne(Ident(x), p, args);
    ReplacedOne(LParen, p, args);
    ReplacedOne(Ident(n), p, args);
    ReplacedOne(RParen, p, args);
    assert ParameterIndex(p, Ident(n)).None? by {
      assert p[1..] == [];
    }
  }

  /** An argument with an open bracket hides a comma from a later call, and so can end what otherwise recurs. */
  lemma OpenBracketIsRefused(m: nat, n: nat, x: nat, y: nat, b: nat)
    requires m != n && m != x && n != x
    ensures var ms := [Macro(m, true, true, [Parameter(x, 0)], CallsTwo(m, n, x)),
                       Macro(n, true, true, [Parameter(x, 0), Parameter(y, 0)], [])];
            var ts := [Tick, Ident(m), LParen, Ident(b), RParen];
            && MacrosOk(ms) && Expand(ms, {}, ts) == Failed(Recursive)
            && Substitute(ms, 2, ts) == Some(Failed(WrongCount))
  {
    var p, q := [Parameter(x, 0)], [Parameter(x, 0), Parameter(y, 0)];
    var ms := [Macro(m, true, true, p, CallsTwo(m, n, x)), Macro(n, true, true, q, [])];
    assert FindMacro(ms[..1], m) == Some(0) && FindMacro(ms, m) == Some(0) && FindMacro(ms, n) == Some(1);
    assert ms[1].parameters == q && Texts([]) == [];
    var none: set<nat> := {};
    assert none + {0} == {0};
    hide Texts, CallsTwo, TwoCallsOf, Replaced, Expand, Substitute, FindMacro;
    TwoCalls(m, n, x, Ident(b));
    TwoCalls(m, n, x, LBracket);
    SimpleCallDecides(ms, m, Ident(b), 0, TwoCallsOf(m, n, Ident(b)));
    SimpleCallDecides(ms, m, LBracket, 0, TwoCallsOf(m, n, LBracket));
    FirstOfTwo(ms, m, n, b);
    CommaIsHidden(ms, m, n);
  }

  function CallsTwo(m: nat, n: nat, x: nat): seq<Token> {
    [Token(Tick, 0), Token(Ident(n), 0), Token(LParen, 0), Token(Ident(x), 0), Token(Comma, 0), Token(Other(0), 0),
     Token(RParen, 0)] +
    [Token(Tick, 0), Token(Ident(m), 0), Token(LParen, 0), Token(LBracket, 0), Token(RParen, 0)]
  }

  function TwoCallsOf(m: nat, n: nat, a: Text): seq<Text> {
    [Tick, Ident(n), LParen, a, Comma, Other(0), RParen] + [Tick, Ident(m), LParen, LBracket, RParen]
  }

  lemma TwoCalls(m: nat, n: nat, x: nat, a: Text)
    requires m != x && n != x
    ensures Replaced(Texts(CallsTwo(m, n, x)), [Parameter(x, 0)], [[a]]) == TwoCallsOf(m, n, a)
  {
    var p, args := [Parameter(x, 0)], [[a]];
    var front, back := FrontOf(n), BackOf(m);
    TwoTexts(m, n, x);
    TwoCallsAre(m, n, a);
    NameReplaced(x, a);
    FrontAndBackStay(m, n, x);
    hide *;
    NothingReplaced(front, p, args);
    NothingReplaced(back, p, args);
    ReplacedJoin(front, [Ident(x)] + back, p, args);
    ReplacedJoin([Ident(x)], back, p, args);
  }

  function FrontOf(n: nat): seq<Text> { [Tick, Ident(n), LParen] }

  function BackOf(m: nat): seq<Text> { [Comma, Other(0), RParen] + [Tick, Ident(m), LParen, LBracket, RParen] }

  lemma TwoCallsAre(m: nat, n: nat, a: Text)
    ensures TwoCallsOf(m, n, a) == FrontOf(n) + ([a] + BackOf(m))
  {
  }

  lemma NameReplaced(x: nat, a: Text)
    ensures Replaced([Ident(x)], [Parameter(x, 0)], [[a]]) == [a]
  {
    ReplacedOne(Ident(x), [Parameter(x, 0)], [[a]]);
  }

  lemma FrontAndBackStay(m: nat, n: nat, x: nat)
    requires m != x && n != x
    ensures forall i :: 0 <= i < |FrontOf(n)| ==> !IsParameter([Parameter(x, 0)], FrontOf(n)[i])
    ensures forall i :: 0 <= i < |BackOf(m)| ==> !IsParameter([Parameter(x, 0)], BackOf(m)[i])
  {
    hide IsParameter;
    forall i | 0 <= i < |FrontOf(n)|
      ensures !IsParameter([Parameter(x, 0)], FrontOf(n)[i])
    {
      OneParameter(x, FrontOf(n)[i]);
    }
    forall i | 0 <= i < |BackOf(m)|
      ensures !IsParameter([Parameter(x, 0)], BackOf(m)[i])
    {
      OneParameter(x, BackOf(m)[i]);
    }
  }

  lemma OneParameter(x: nat, t: Text)
    ensures IsParameter([Parameter(x, 0)], t) <==> t == Ident(x)
  {
    assert [Parameter(x, 0)][1..] == [];
  }

  lemma TwoTexts(m: nat, n: nat, x: nat)
    ensures Texts(CallsTwo(m, n, x)) == FrontOf(n) + ([Ident(x)] + BackOf(m))
  {
  }

  lemma {:induction false} NothingReplaced(b: seq<Text>, parameters: seq<Parameter>, arguments: seq<seq<Text>>)
    requires |arguments| == |parameters| && forall i :: 0 <= i < |b| ==> !IsParameter(parameters, b[i])
    ensures Replaced(b, parameters, arguments) == b
  {
    if b != [] {
      NothingReplaced(b[1..], parameters, arguments);
    }
  }

  /** With a name for the argument, the first call is fine and leaves the second one. */
  lemma FirstOfTwo(ms: seq<Macro>, m: nat, n: nat, b: nat)
    requires MacrosOk(ms) && FindMacro(ms, n) == Some(1) && |ms| == 2 && ms[1].functionLike && |ms[1].parameters| == 2
    requires ms[1].body == []
    ensures var r, second := TwoCallsOf(m, n, Ident(b)), [Tick, Ident(m), LParen, LBracket, RParen];
            && Substitute(ms, 1, r) == Substitute(ms, 1, second) && Expand(ms, {0}, r) == Expand(ms, {0}, second)
  {
    var r, second := TwoCallsOf(m, n, Ident(b)), [Tick, Ident(m), LParen, LBracket, RParen];
    var found := Arguments([Range(3, 4), Range(5, 6)], 7);
    assert ScanArguments(r, 6, 5, 1, 0, 0, [Range(3, 4)], 2) == found;
    assert ScanArguments(r, 5, 5, 1, 0, 0, [Range(3, 4)], 2) == found;
    assert [] + [Range(3, 4)] == [Range(3, 4)];
    assert ScanArguments(r, 4, 3, 1, 0, 0, [], 2) == found;
    assert ScanArguments(r, 3, 3, 1, 0, 0, [], 2) == found;
    var c := ReadCall(ms, r);
    assert c == Call(1, [Range(3, 4), Range(5, 6)], 7) && Replacement(ms, r, c) == [];
    assert r[7..] == second;
    hide ReadCall, Replacement;
    assert Substitute(ms, 0, []) == Some(Expanded([])) && Expand(ms, {0} + {1}, []) == Expanded([]);
    NothingBefore(Substitute(ms, 1, second));
    NothingBefore(Some(Expand(ms, {0}, second)));
  }

  lemma NothingBefore(x: Option<Result>)
    ensures AndThen(Some(Expanded([])), x) == x
    ensures x.Some? ==> Then(Expanded([]), x.value) == x.value
  {
    if x.Some? && x.value.Expanded? {
      assert [] + x.value.output == x.value.output;
    }
  }

  /** With an open bracket for the argument, the first call has one argument too few. */
  lemma CommaIsHidden(ms: seq<Macro>, m: nat, n: nat)
    requires MacrosOk(ms) && FindMacro(ms, n) == Some(1) && |ms| == 2 && ms[1].functionLike && |ms[1].parameters| == 2
    ensures Substitute(ms, 0, TwoCallsOf(m, n, LBracket)) == Some(Failed(WrongCount))
  {
    var r := TwoCallsOf(m, n, LBracket);
    assert ScanArguments(r, 6, 3, 1, 1, 0, [], 2) == BadArguments(WrongCount);
    assert ScanArguments(r, 5, 3, 1, 1, 0, [], 2) == BadArguments(WrongCount);
    assert ScanArguments(r, 4, 3, 1, 1, 0, [], 2) == BadArguments(WrongCount);
    assert ScanArguments(r, 3, 3, 1, 0, 0, [], 2) == BadArguments(WrongCount);
    assert ReadCall(ms, r) == BadCall(WrongCount);
  }

  // ----- parameters next to the name of a macro

  /** A closed argument is read whole. */
  lemma ClosedCall(ms: seq<Macro>, id: nat, argument: seq<Text>, k: nat)
    requires MacrosOk(ms) && FindMacro(ms, id) == Some(k) && k < |ms| && ms[k].functionLike && |ms[k].parameters| == 1
    requires Closed(argument, 0, 0, 0)
    ensures ReadCall(ms, CallText(id, argument)) == Call(k, [Range(3, 3 + |argument|)], 4 + |argument|)
  {
    var ts, end := CallText(id, argument), 3 + |argument|;
    assert ts[3..end] == argument && ts[end] == RParen && ts[2] == LParen;
    ScanSkips(ts, 3, end, 3, 0, 0, 0, 1, 0, 0, [], 1);
    assert [] + [Range(3, end)] == [Range(3, end)];
  }

  function Tokens(ts: seq<Text>): seq<Token> { seq(|ts|, i requires 0 <= i < |ts| => Token(ts[i], 0)) }

  /** M(x) has the given replacement text around its parameter, and N() has none. */
  function WithParameter(m: nat, n: nat, x: nat, front: seq<Text>, back: seq<Text>): (ms: seq<Macro>)
    ensures MacrosOk(ms)
  {
    [Macro(m, true, true, [Parameter(x, 0)], Tokens(front + ([Ident(x)] + back))), Macro(n, true, true, [], [])]
  }

  lemma ParameterReplaced(m: nat, n: nat, x: nat, front: seq<Text>, back: seq<Text>, argument: seq<Text>)
    requires Ident(x) !in front && Ident(x) !in back
    ensures var ms := WithParameter(m, n, x, front, back);
            Replaced(Texts(ms[0].body), ms[0].parameters, [argument]) == front + (argument + back)
  {
    var p, body := [Parameter(x, 0)], front + ([Ident(x)] + back);
    assert Texts(Tokens(body)) == body;
    forall t: Text
      ensures IsParameter(p, t) <==> t == Ident(x)
    {
      OneParameter(x, t);
    }
    hide Replaced, Texts, Tokens;
    ReplacedJoin(front, [Ident(x)] + back, p, [argument]);
    ReplacedJoin([Ident(x)], back, p, [argument]);
    NothingReplaced(front, p, [argument]);
    NothingReplaced(back, p, [argument]);
    ReplacedOne(Ident(x), p, [argument]);
  }

  /** Where the first argument leaves "`N()" before a recursive call and the second spoils it, the two readings differ. */
  lemma SpoiltIsRefused(m: nat, n: nat, x: nat, y: nat, front: seq<Text>, back: seq<Text>, first: seq<Text>, error: Error)
    requires m != n && Ident(x) !in front && Ident(x) !in back && Closed(first, 0, 0, 0)
    requires front + (first + back) == [Tick, Ident(n), LParen, RParen] + CallText(m, [Ident(y)])
    requires var ms, spoilt := WithParameter(m, n, x, front, back), front + ([Ident(y)] + back);
             Invokes(spoilt) && ReadCall(ms, spoilt) == BadCall(error)
    ensures var ms, ts := WithParameter(m, n, x, front, back), CallText(m, first);
            Expand(ms, {}, ts) == Failed(Recursive) && Substitute(ms, 2, ts) == Some(Failed(error))
  {
    var ms := WithParameter(m, n, x, front, back);
    var second, spoilt := CallText(m, [Ident(y)]), front + ([Ident(y)] + back);
    assert FindMacro(ms[..1], m) == Some(0) && FindMacro(ms, m) == Some(0) && FindMacro(ms, n) == Some(1);
    assert [Ident(y)][1..] == [] && Closed([Ident(y)], 0, 0, 0) && ms[1].body == [] && ms[1].parameters == [];
    assert Substitute(ms, 0, spoilt) == Some(Failed(error));
    ParameterReplaced(m, n, x, front, back, first);
    ParameterReplaced(m, n, x, front, back, [Ident(y)]);
    ClosedCall(ms, m, first, 0);
    ClosedCall(ms, m, [Ident(y)], 0);
    var none: set<nat> := {};
    assert none + {0} == {0};
    hide WithParameter, CallText, Replaced, Texts, Expand, Substitute, FindMacro, ReadCall, Closed;
    CallDecides(ms, m, first, 0, front + (first + back));
    CallDecides(ms, m, [Ident(y)], 0, spoilt);
    EmptyCallFirst(ms, n, second);
  }

  /** An empty call of a macro without text leaves what follows. */
  lemma {:induction false} EmptyCallFirst(ms: seq<Macro>, n: nat, rest: seq<Text>)
    requires MacrosOk(ms) && |ms| == 2 && FindMacro(ms, n) == Some(1) && ms[1].functionLike
    requires ms[1].parameters == [] && ms[1].body == []
    ensures var r := [Tick, Ident(n), LParen, RParen] + rest;
            Substitute(ms, 1, r) == Substitute(ms, 1, rest) && Expand(ms, {0}, r) == Expand(ms, {0}, rest)
  {
    var r := [Tick, Ident(n), LParen, RParen] + rest;
    assert ScanArguments(r, 3, 3, 1, 0, 0, [], 0) == Arguments([], 4);
    var c := ReadCall(ms, r);
    assert c == Call(1, [], 4) && Replacement(ms, r, c) == [];
    assert r[4..] == rest;
    hide ReadCall, Replacement;
    assert Substitute(ms, 0, []) == Some(Expanded([])) && Expand(ms, {0} + {1}, []) == Expanded([]);
    NothingBefore(Substitute(ms, 1, rest));
    NothingBefore(Some(Expand(ms, {0}, rest)));
  }

  /** A parameter directly after the name of a macro decides whether there is an argument list. */
  lemma PassedListIsRefused(m: nat, n: nat, x: nat, y: nat)
    requires m != n && m != x && n != x && x != y
    ensures var ms := WithParameter(m, n, x, [Tick, Ident(n)], CallText(m, [Ident(y)]));
            var ts := CallText(m, [LParen, RParen]);
            Expand(ms, {}, ts) == Failed(Recursive) && Substitute(ms, 2, ts) == Some(Failed(NoArguments))
  {
    var front, back := [Tick, Ident(n)], CallText(m, [Ident(y)]);
    assert FindMacro(WithParameter(m, n, x, front, back), n) == Some(1);
    assert Closed([RParen], 1, 0, 0) && [LParen, RParen][1..] == [RParen];
    SpoiltIsRefused(m, n, x, y, front, back, [LParen, RParen], NoArguments);
  }

  /** A parameter that opens the argument list of a macro without parameters decides whether the list is empty. */
  lemma EmptyArgumentIsRefused(m: nat, n: nat, x: nat, y: nat)
    requires m != n && m != x && n != x && x != y
    ensures var ms := WithParameter(m, n, x, [Tick, Ident(n), LParen], [RParen] + CallText(m, [Ident(y)]));
            var ts := CallText(m, []);
            Expand(ms, {}, ts) == Failed(Recursive) && Substitute(ms, 2, ts) == Some(Failed(WrongCount))
  {
    var front, back := [Tick, Ident(n), LParen], [RParen] + CallText(m, [Ident(y)]);
    var ms, spoilt := WithParameter(m, n, x, front, back), front + ([Ident(y)] + back);
    assert FindMacro(ms, n) == Some(1);
    assert ScanArguments(spoilt, 4, 3, 1, 0, 0, [], 0) == BadArguments(WrongCount);
    assert ScanArguments(spoilt, 3, 3, 1, 0, 0, [], 0) == BadArguments(WrongCount);
    SpoiltIsRefused(m, n, x, y, front, back, [], WrongCount);
  }
}
