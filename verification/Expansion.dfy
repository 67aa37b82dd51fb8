/** Macro expansion of a token sequence: substitution that always ends, and when it refuses to go on. */
module Expansion {
  import opened Options

  /** The spelling of a token, as far as expansion looks at it. */
  datatype Text =
    | Tick | Ident(name: nat) | LParen | RParen | LBracket | RBracket | LBrace | RBrace | Comma | Other(spelling: nat)

  datatype Error = Recursive | Undefined | NoArguments | Unterminated | WrongCount

  datatype Token = Token(text: Text, origin: nat)

  datatype Parameter = Parameter(name: nat, origin: nat)

  datatype Macro = Macro(name: nat, active: bool, functionLike: bool, parameters: seq<Parameter>, body: seq<Token>)

  function Texts(tokens: seq<Token>): (ts: seq<Text>)
    ensures |ts| == |tokens| && forall i :: 0 <= i < |tokens| ==> ts[i] == tokens[i].text
  {
    seq(|tokens|, i requires 0 <= i < |tokens| => tokens[i].text)
  }

  /** The latest active definition of a name. */
  function FindMacro(ms: seq<Macro>, name: nat): (m: Option<nat>)
    ensures m.Some? ==> m.value < |ms| && ms[m.value].active && ms[m.value].name == name
    ensures m.None? ==> forall i :: 0 <= i < |ms| ==> !(ms[i].active && ms[i].name == name)
  {
    if ms == [] then None
    else if ms[|ms| - 1].active && ms[|ms| - 1].name == name then Some(|ms| - 1)
    else FindMacro(ms[..|ms| - 1], name)
  }

  // ----- arguments

  datatype Range = Range(from: nat, to: nat)

  datatype Arguments = Arguments(ranges: seq<Range>, after: nat) | BadArguments(error: Error)

  predicate RangesOk(ranges: seq<Range>, limit: nat) {
    forall i :: 0 <= i < |ranges| ==> ranges[i].from <= ranges[i].to <= limit
  }

  function Less(n: nat): nat { if n > 0 then n - 1 else 0 }

  /** Commas outside all brackets separate arguments; the matching parenthesis ends the list. */
  function ScanArguments(ts: seq<Text>, at: nat, start: nat, parentheses: nat, brackets: nat, braces: nat,
                         done: seq<Range>, wanted: nat): (r: Arguments)
    requires start <= at <= |ts| && parentheses > 0 && RangesOk(done, |ts|)
    ensures r.Arguments? ==> at < r.after <= |ts| && RangesOk(r.ranges, |ts|) && |r.ranges| == wanted
    ensures r.BadArguments? ==> r.error == Unterminated || r.error == WrongCount
    decreases |ts| - at
  {
    if at == |ts| then BadArguments(Unterminated)
    else
      match ts[at]
      case LParen => ScanArguments(ts, at + 1, start, parentheses + 1, brackets, braces, done, wanted)
      case RParen =>
        if parentheses > 1 then ScanArguments(ts, at + 1, start, parentheses - 1, brackets, braces, done, wanted)
        else
          var all := if at != start || wanted > 0 then done + [Range(start, at)] else done;
          if |all| != wanted then BadArguments(WrongCount) else Arguments(all, at + 1)
      case LBracket => ScanArguments(ts, at + 1, start, parentheses, brackets + 1, braces, done, wanted)
      case RBracket => ScanArguments(ts, at + 1, start, parentheses, Less(brackets), braces, done, wanted)
      case LBrace => ScanArguments(ts, at + 1, start, parentheses, brackets, braces + 1, done, wanted)
      case RBrace => ScanArguments(ts, at + 1, start, parentheses, brackets, Less(braces), done, wanted)
      case Comma =>
        if parentheses == 1 && brackets == 0 && braces == 0 then
          ScanArguments(ts, at + 1, at + 1, parentheses, brackets, braces, done + [Range(start, at)], wanted)
        else ScanArguments(ts, at + 1, start, parentheses, brackets, braces, done, wanted)
      case _ => ScanArguments(ts, at + 1, start, parentheses, brackets, braces, done, wanted)
  }

  /** How many brackets are open before place `i`, from just after the opening parenthesis of a list on. */
  datatype Counts = Counts(parentheses: nat, brackets: nat, braces: nat)

  function CountsAt(ts: seq<Text>, open: nat, i: nat): Counts
    requires open <= i <= |ts|
    decreases i - open
  {
    if i == open then Counts(1, 0, 0)
    else
      var c := CountsAt(ts, open, i - 1);
      match ts[i - 1]
      case LParen => c.(parentheses := c.parentheses + 1)
      case RParen => c.(parentheses := Less(c.parentheses))
      case LBracket => c.(brackets := c.brackets + 1)
      case RBracket => c.(brackets := Less(c.brackets))
      case LBrace => c.(braces := c.braces + 1)
      case RBrace => c.(braces := Less(c.braces))
      case _ => c
  }

  ghost predicate Closes(ts: seq<Text>, open: nat, i: nat)
    requires open <= i < |ts|
  {
    ts[i].RParen? && CountsAt(ts, open, i).parentheses == 1
  }

  ghost predicate Separates(ts: seq<Text>, open: nat, i: nat)
    requires open <= i < |ts|
  {
    ts[i].Comma? && CountsAt(ts, open, i) == Counts(1, 0, 0)
  }

  /** `i` is the first place where the list closes. */
  ghost predicate ListEnds(ts: seq<Text>, open: nat, i: nat)
    requires open <= i < |ts|
  {
    Closes(ts, open, i) && forall k :: open <= k < i ==> !Closes(ts, open, k)
  }

  /** The ranges are what the separating commas between `open` and `end` leave, in order. */
  ghost predicate IsDivided(ts: seq<Text>, open: nat, end: nat, ranges: seq<Range>)
    requires open <= end <= |ts|
  {
    && ranges != [] && ranges[0].from == open && ranges[|ranges| - 1].to == end
    && (forall i :: 0 <= i < |ranges| ==> open <= ranges[i].from <= ranges[i].to <= end)
    && (forall i :: 0 <= i < |ranges| - 1 ==>
          ranges[i].to < end && Separates(ts, open, ranges[i].to) && ranges[i + 1].from == ranges[i].to + 1)
    && (forall i, k :: 0 <= i < |ranges| && ranges[i].from <= k < ranges[i].to ==> !Separates(ts, open, k))
  }

  /** An empty list has one empty argument if a parameter wants it, otherwise none. */
  ghost predicate AreArguments(ts: seq<Text>, open: nat, end: nat, ranges: seq<Range>, wanted: nat)
    requires open <= end <= |ts|
  {
    if open == end && wanted == 0 then ranges == [] else IsDivided(ts, open, end, ranges)
  }

  lemma DividedSnoc(ts: seq<Text>, open: nat, start: nat, at: nat, done: seq<Range>)
    requires open <= start <= at <= |ts| && Pending(ts, open, start, at, done)
    ensures IsDivided(ts, open, at, done + [Range(start, at)])
  {
    hide CountsAt, Separates;
    var all := done + [Range(start, at)];
    assert all[|done|] == Range(start, at) && forall i :: 0 <= i < |done| ==> all[i] == done[i];
    forall i | 0 <= i < |all| - 1
      ensures all[i].to < at && Separates(ts, open, all[i].to) && all[i + 1].from == all[i].to + 1
    {
      if i < |done| - 1 {
        assert done[i + 1].from == done[i].to + 1;
      }
    }
    forall i, k | 0 <= i < |all| && all[i].from <= k < all[i].to
      ensures !Separates(ts, open, k)
    {
      if i < |done| {
        assert done[i].from <= k < done[i].to;
      }
    }
  }

  /** While scanning: what precedes `start` is divided, and nothing between `start` and `at` separates. */
  ghost predicate Pending(ts: seq<Text>, open: nat, start: nat, at: nat, done: seq<Range>)
    requires open <= start <= at <= |ts|
  {
    && (if done == [] then start == open
        else start > open && IsDivided(ts, open, start - 1, done) && Separates(ts, open, start - 1))
    && (forall k :: start <= k < at ==> !Separates(ts, open, k))
  }

  ghost predicate Lists(ts: seq<Text>, open: nat, end: nat, ranges: seq<Range>, wanted: nat) {
    open <= end < |ts| && ListEnds(ts, open, end) && AreArguments(ts, open, end, ranges, wanted)
  }

  /** What scanning finds: the arguments up to the first place where the list closes. */
  ghost predicate IsScanned(ts: seq<Text>, open: nat, wanted: nat, r: Arguments)
    requires open <= |ts|
  {
    match r
    case Arguments(ranges, after) => after > 0 && |ranges| == wanted && Lists(ts, open, after - 1, ranges, wanted)
    case BadArguments(WrongCount) => exists end, ranges :: Lists(ts, open, end, ranges, wanted) && |ranges| != wanted
    case BadArguments(Unterminated) => forall i :: open <= i < |ts| ==> !Closes(ts, open, i)
    case BadArguments(_) => false
  }

  function ScanFrom(ts: seq<Text>, open: nat, at: nat, start: nat, done: seq<Range>, wanted: nat): Arguments
    requires open <= start <= at <= |ts| && RangesOk(done, |ts|) && CountsAt(ts, open, at).parentheses > 0
  {
    var c := CountsAt(ts, open, at);
    ScanArguments(ts, at, start, c.parentheses, c.brackets, c.braces, done, wanted)
  }

  lemma ScanPasses(ts: seq<Text>, open: nat, at: nat, start: nat, done: seq<Range>, wanted: nat)
    requires open <= start <= at < |ts| && RangesOk(done, |ts|) && CountsAt(ts, open, at).parentheses > 0
    requires !Closes(ts, open, at)
    ensures CountsAt(ts, open, at + 1).parentheses > 0
    ensures ScanFrom(ts, open, at, start, done, wanted) ==
            if Separates(ts, open, at) then ScanFrom(ts, open, at + 1, at + 1, done + [Range(start, at)], wanted)
            else ScanFrom(ts, open, at + 1, start, done, wanted)
  {
  }

  lemma ScanStops(ts: seq<Text>, open: nat, at: nat, start: nat, done: seq<Range>, wanted: nat)
    requires open <= start <= at < |ts| && RangesOk(done, |ts|) && Closes(ts, open, at)
    ensures CountsAt(ts, open, at).parentheses > 0
    ensures var all := if at != start || wanted > 0 then done + [Range(start, at)] else done;
            ScanFrom(ts, open, at, start, done, wanted) ==
            if |all| != wanted then BadArguments(WrongCount) else Arguments(all, at + 1)
  {
  }

  lemma ScanEnds(ts: seq<Text>, open: nat, at: nat, start: nat, done: seq<Range>, wanted: nat)
    requires open <= start <= at < |ts| && RangesOk(done, |ts|) && CountsAt(ts, open, at).parentheses > 0
    requires ListEnds(ts, open, at) && Pending(ts, open, start, at, done)
    ensures IsScanned(ts, open, wanted, ScanFrom(ts, open, at, start, done, wanted))
  {
    PendingStart(ts, open, start, at, done);
    hide *;
    ScanStops(ts, open, at, start, done, wanted);
    DividedSnoc(ts, open, start, at, done);
    ListIs(ts, open, at, done + [Range(start, at)], wanted);
    if open == at && wanted == 0 {
      FoundArguments(ts, open, at, [], wanted);
    } else if at != start || wanted > 0 {
      FoundArguments(ts, open, at, done + [Range(start, at)], wanted);
    } else {
      FoundArguments(ts, open, at, done + [Range(start, at)], wanted);
      assert |done| > 0;
    }
  }

  lemma PendingStart(ts: seq<Text>, open: nat, start: nat, at: nat, done: seq<Range>)
    requires open <= start <= at < |ts| && ListEnds(ts, open, at) && Pending(ts, open, start, at, done)
    ensures done == [] <==> start == open
    ensures Closes(ts, open, at)
  {
    hide CountsAt, IsDivided, Separates;
  }

  /** An empty list without parameters, or a divided one. */
  lemma ListIs(ts: seq<Text>, open: nat, end: nat, ranges: seq<Range>, wanted: nat)
    requires open <= end < |ts| && ListEnds(ts, open, end) && IsDivided(ts, open, end, ranges)
    ensures if open == end && wanted == 0 then Lists(ts, open, end, [], wanted) else Lists(ts, open, end, ranges, wanted)
  {
    hide ListEnds, IsDivided;
  }

  lemma FoundArguments(ts: seq<Text>, open: nat, end: nat, ranges: seq<Range>, wanted: nat)
    requires open <= |ts| && Lists(ts, open, end, ranges, wanted)
    ensures |ranges| == wanted ==> IsScanned(ts, open, wanted, Arguments(ranges, end + 1))
    ensures |ranges| != wanted ==> IsScanned(ts, open, wanted, BadArguments(WrongCount))
  {
    hide Lists;
  }

  lemma {:induction false} ScanFinds(ts: seq<Text>, open: nat, at: nat, start: nat, done: seq<Range>, wanted: nat)
    requires open <= start <= at <= |ts| && RangesOk(done, |ts|) && CountsAt(ts, open, at).parentheses > 0
    requires (forall k :: open <= k < at ==> !Closes(ts, open, k)) && Pending(ts, open, start, at, done)
    ensures IsScanned(ts, open, wanted, ScanFrom(ts, open, at, start, done, wanted))
    decreases |ts| - at
  {
    if at < |ts| {
      if Closes(ts, open, at) {
        ScanEnds(ts, open, at, start, done, wanted);
      } else {
        ScanPasses(ts, open, at, start, done, wanted);
        hide CountsAt, ScanFrom, Closes, IsScanned;
        if Separates(ts, open, at) {
          DividedSnoc(ts, open, start, at, done);
          hide IsDivided;
          ScanFinds(ts, open, at + 1, at + 1, done + [Range(start, at)], wanted);
        } else {
          ScanFinds(ts, open, at + 1, start, done, wanted);
        }
      }
    }
  }

  /** The arguments of a list are delimited exactly by its separating commas and its first closing parenthesis. */
  lemma ScannedExactly(ts: seq<Text>, open: nat, wanted: nat)
    requires open <= |ts|
    ensures IsScanned(ts, open, wanted, ScanArguments(ts, open, open, 1, 0, 0, [], wanted))
  {
    ScanFinds(ts, open, open, open, [], wanted);
  }

  // ----- one substitution

  function ParameterIndex(parameters: seq<Parameter>, t: Text): (i: Option<nat>)
    ensures i.Some? ==> i.value < |parameters|
  {
    if parameters == [] || !t.Ident? then None
    else if parameters[0].name == t.name then Some(0)
    else
      var rest := ParameterIndex(parameters[1..], t);
      if rest.Some? then Some(rest.value + 1) else None
  }

  /** The replacement text with arguments, as they are written, in place of parameters. */
  function Substituted(body: seq<Token>, parameters: seq<Parameter>, ts: seq<Text>, ranges: seq<Range>): seq<Text>
    requires |ranges| == |parameters| && RangesOk(ranges, |ts|)
  {
    if body == [] then []
    else
      var last := body[|body| - 1].text;
      var i := ParameterIndex(parameters, last);
      Substituted(body[..|body| - 1], parameters, ts, ranges) +
      if i.Some? then ts[ranges[i.value].from..ranges[i.value].to] else [last]
  }

  predicate Invokes(ts: seq<Text>) { |ts| > 1 && ts[0].Tick? && ts[1].Ident? }

  datatype Call = Call(macroId: nat, ranges: seq<Range>, after: nat) | BadCall(error: Error)

  /** A definition without a parameter list has no parameters. */
  ghost predicate MacrosOk(ms: seq<Macro>) { forall m :: 0 <= m < |ms| && !ms[m].functionLike ==> ms[m].parameters == [] }

  /** The invocation that the tokens start with. */
  function ReadCall(ms: seq<Macro>, ts: seq<Text>): (c: Call)
    requires MacrosOk(ms) && Invokes(ts)
    ensures c.Call? ==>
              && c.macroId < |ms| && 2 <= c.after <= |ts| && RangesOk(c.ranges, |ts|)
              && |c.ranges| == |ms[c.macroId].parameters|
    ensures c.BadCall? ==> c.error != Recursive
  {
    var m := FindMacro(ms, ts[1].name);
    if m.None? then BadCall(Undefined)
    else if !ms[m.value].functionLike then Call(m.value, [], 2)
    else if |ts| < 3 || !ts[2].LParen? then BadCall(NoArguments)
    else
      var scanned := ScanArguments(ts, 3, 3, 1, 0, 0, [], |ms[m.value].parameters|);
      if scanned.BadArguments? then BadCall(scanned.error) else Call(m.value, scanned.ranges, scanned.after)
  }

  /** What an invocation is replaced by before the result is expanded again. */
  function Replacement(ms: seq<Macro>, ts: seq<Text>, c: Call): seq<Text>
    requires c.Call? && c.macroId < |ms| && RangesOk(c.ranges, |ts|) && |c.ranges| == |ms[c.macroId].parameters|
  {
    Substituted(ms[c.macroId].body, ms[c.macroId].parameters, ts, c.ranges)
  }

  // ----- expansion

  datatype Result = Expanded(output: seq<Text>) | Failed(error: Error)

  function Then(x: Result, y: Result): Result {
    if x.Failed? then x else if y.Failed? then y else Expanded(x.output + y.output)
  }

  /** The macros not on the stack. */
  function Unused(ms: seq<Macro>, stack: set<nat>): set<nat> { set m | 0 <= m < |ms| && m !in stack }

  lemma UnusedDrops(ms: seq<Macro>, stack: set<nat>, m: nat)
    requires m < |ms| && m !in stack
    ensures |Unused(ms, stack + {m})| + 1 == |Unused(ms, stack)|
  {
    assert Unused(ms, stack) == Unused(ms, stack + {m}) + {m};
  }

  /**
   * Expansion of a token sequence while the macros on the stack are being expanded. It ends because every nested
   * expansion uses a macro not on the stack, and otherwise tokens are used up.
   */
  function Expand(ms: seq<Macro>, stack: set<nat>, ts: seq<Text>): Result
    requires MacrosOk(ms)
    decreases |Unused(ms, stack)|, |ts|
  {
    if ts == [] then Expanded([])
    else if !Invokes(ts) then Then(Expanded([ts[0]]), Expand(ms, stack, ts[1..]))
    else
      var c := ReadCall(ms, ts);
      if c.BadCall? then Failed(c.error)
      else if c.macroId in stack then Failed(Recursive)
      else
        UnusedDrops(ms, stack, c.macroId);
        Then(Expand(ms, stack + {c.macroId}, Replacement(ms, ts, c)), Expand(ms, stack, ts[c.after..]))
  }

  /** Substitution without a stack, nested at most `depth` deep; none when that is not deep enough. */
  function Substitute(ms: seq<Macro>, depth: nat, ts: seq<Text>): Option<Result>
    requires MacrosOk(ms)
    decreases depth, |ts|
  {
    if ts == [] then Some(Expanded([]))
    else if !Invokes(ts) then AndThen(Some(Expanded([ts[0]])), Substitute(ms, depth, ts[1..]))
    else
      var c := ReadCall(ms, ts);
      if c.BadCall? then Some(Failed(c.error))
      else if depth == 0 then None
      else AndThen(Substitute(ms, depth - 1, Replacement(ms, ts, c)), Substitute(ms, depth, ts[c.after..]))
  }

  /** The first failure, or the first substitution that does not end, decides. */
  function AndThen(x: Option<Result>, y: Option<Result>): Option<Result> {
    if x.None? || x.value.Failed? then x else if y.None? then None else Some(Then(x.value, y.value))
  }

  /** Unless recursion is reported, expansion gives what plain substitution gives, however deep it may nest. */
  lemma {:induction false} ExpansionIsSubstitution(ms: seq<Macro>, stack: set<nat>, depth: nat, ts: seq<Text>)
    requires MacrosOk(ms) && Expand(ms, stack, ts) != Failed(Recursive) && depth >= |Unused(ms, stack)|
    ensures Substitute(ms, depth, ts) == Some(Expand(ms, stack, ts))
    decreases depth, |ts|
  {
    hide ReadCall, Replacement;
    if ts != [] {
      if !Invokes(ts) {
        ExpansionIsSubstitution(ms, stack, depth, ts[1..]);
      } else {
        var c := ReadCall(ms, ts);
        if c.Call? {
          UnusedDrops(ms, stack, c.macroId);
          ExpansionIsSubstitution(ms, stack + {c.macroId}, depth - 1, Replacement(ms, ts, c));
          if Expand(ms, stack + {c.macroId}, Replacement(ms, ts, c)).Expanded? {
            ExpansionIsSubstitution(ms, stack, depth, ts[c.after..]);
          }
        }
      }
    }
  }

  lemma {:induction false} DeeperIsSame(ms: seq<Macro>, depth: nat, more: nat, ts: seq<Text>)
    requires MacrosOk(ms) && Substitute(ms, depth, ts).Some? && depth <= more
    ensures Substitute(ms, more, ts) == Substitute(ms, depth, ts)
    decreases depth, |ts|
  {
    hide ReadCall, Replacement;
    if ts != [] {
      if !Invokes(ts) {
        DeeperIsSame(ms, depth, more, ts[1..]);
      } else {
        var c := ReadCall(ms, ts);
        if c.Call? {
          DeeperIsSame(ms, depth - 1, more - 1, Replacement(ms, ts, c));
          if Substitute(ms, depth - 1, Replacement(ms, ts, c)).value.Expanded? {
            DeeperIsSame(ms, depth, more, ts[c.after..]);
          }
        }
      }
    }
  }
}
