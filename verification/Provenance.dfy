/** Expansion with origins: every produced token can be followed to where it is spelt and to where it was invoked. */
module Provenance {
  import opened Options
  import opened Expansion

  /** Where a token comes from; the numbers are earlier origins. */
  datatype Origin =
    | Source(span: nat, text: Text)
    | Replaced(invocation: nat, replacement: nat, macroId: nat)
    | Supplied(invocation: nat, parameter: nat, argument: nat, macroId: nat)

  predicate Earlier(o: Origin, id: nat) {
    match o
    case Source(_, _) => true
    case Replaced(i, r, _) => i < id && r < id
    case Supplied(i, p, a, _) => i < id && p < id && a < id
  }

  ghost predicate OriginsOk(origins: seq<Origin>) { forall i :: 0 <= i < |origins| ==> Earlier(origins[i], i) }

  /** The source origin that spells a token. */
  function Spelling(origins: seq<Origin>, id: nat): (r: nat)
    requires OriginsOk(origins) && id < |origins|
    ensures r <= id && origins[r].Source?
  {
    match origins[id]
    case Source(_, _) => id
    case Replaced(_, r, _) => Spelling(origins, r)
    case Supplied(_, _, a, _) => Spelling(origins, a)
  }

  /** The source origin at which the outermost invocation stands. */
  function Site(origins: seq<Origin>, id: nat): (r: nat)
    requires OriginsOk(origins) && id < |origins|
    ensures r <= id && origins[r].Source?
  {
    match origins[id]
    case Source(_, _) => id
    case Replaced(i, _, _) => Site(origins, i)
    case Supplied(i, _, _, _) => Site(origins, i)
  }

  /** The loop counter never runs out before the source origin is reached. */
  method SpellingSpan(origins: seq<Origin>, id: nat) returns (span: Option<nat>)
    requires OriginsOk(origins)
    ensures span == if id < |origins| then Some(origins[Spelling(origins, id)].span) else None
  {
    var at: nat, remaining: nat := id, |origins|;
    while remaining > 0 && at < |origins|
      invariant id >= |origins| ==> at == id
      invariant id < |origins| ==> at < remaining <= |origins| && Spelling(origins, at) == Spelling(origins, id)
      decreases remaining
    {
      remaining := remaining - 1;
      if origins[at].Source? {
        return Some(origins[at].span);
      }
      at := if origins[at].Replaced? then origins[at].replacement else origins[at].argument;
    }
    return None;
  }

  method ExpansionSpan(origins: seq<Origin>, id: nat) returns (span: Option<nat>)
    requires OriginsOk(origins)
    ensures span == if id < |origins| then Some(origins[Site(origins, id)].span) else None
  {
    var at: nat, remaining: nat := id, |origins|;
    while remaining > 0 && at < |origins|
      invariant id >= |origins| ==> at == id
      invariant id < |origins| ==> at < remaining <= |origins| && Site(origins, at) == Site(origins, id)
      decreases remaining
    {
      remaining := remaining - 1;
      if origins[at].Source? {
        return Some(origins[at].span);
      }
      at := origins[at].invocation;
    }
    return None;
  }

  /** The token's text is what its origin spells. */
  ghost predicate Spelt(origins: seq<Origin>, t: Token) {
    OriginsOk(origins) && t.origin < |origins| && origins[Spelling(origins, t.origin)].text == t.text
  }

  ghost predicate TokensOk(origins: seq<Origin>, ts: seq<Token>) { forall i :: 0 <= i < |ts| ==> Spelt(origins, ts[i]) }

  /** Where each token's outermost invocation stands. */
  ghost function Sites(origins: seq<Origin>, ts: seq<Token>): (r: seq<nat>)
    requires OriginsOk(origins) && TokensOk(origins, ts)
    ensures |r| == |ts|
  {
    seq(|ts|, i requires 0 <= i < |ts| => assert Spelt(origins, ts[i]); Site(origins, ts[i].origin))
  }

  lemma {:induction false} OriginsStay(origins: seq<Origin>, more: seq<Origin>, id: nat)
    requires OriginsOk(origins) && OriginsOk(more) && origins <= more && id < |origins|
    ensures Spelling(more, id) == Spelling(origins, id) && Site(more, id) == Site(origins, id)
    decreases id
  {
    assert more[id] == origins[id];
    match origins[id]
    case Source(_, _) =>
    case Replaced(i, r, _) =>
      OriginsStay(origins, more, i);
      OriginsStay(origins, more, r);
    case Supplied(i, _, a, _) =>
      OriginsStay(origins, more, i);
      OriginsStay(origins, more, a);
  }

  lemma TokensStay(origins: seq<Origin>, more: seq<Origin>, ts: seq<Token>)
    requires OriginsOk(origins) && OriginsOk(more) && origins <= more && TokensOk(origins, ts)
    ensures TokensOk(more, ts) && Sites(more, ts) == Sites(origins, ts)
  {
    forall i | 0 <= i < |ts|
      ensures Spelt(more, ts[i]) && Site(more, ts[i].origin) == Site(origins, ts[i].origin)
    {
      assert Spelt(origins, ts[i]);
      OriginsStay(origins, more, ts[i].origin);
    }
  }

  lemma SitesJoin(origins: seq<Origin>, x: seq<Token>, y: seq<Token>)
    requires OriginsOk(origins) && TokensOk(origins, x) && TokensOk(origins, y)
    ensures TokensOk(origins, x + y) && Sites(origins, x + y) == Sites(origins, x) + Sites(origins, y)
  {
    hide Spelt;
  }

  ghost predicate DefinitionsOk(origins: seq<Origin>, ms: seq<Macro>) {
    forall m :: 0 <= m < |ms| ==>
      && (forall i :: 0 <= i < |ms[m].body| ==> Spelt(origins, ms[m].body[i]))
      && (forall p :: 0 <= p < |ms[m].parameters| ==> ms[m].parameters[p].origin < |origins|)
  }

  lemma DefinitionsStay(origins: seq<Origin>, more: seq<Origin>, ms: seq<Macro>)
    requires OriginsOk(more) && origins <= more && DefinitionsOk(origins, ms)
    ensures DefinitionsOk(more, ms)
  {
    forall m, i | 0 <= m < |ms| && 0 <= i < |ms[m].body|
      ensures Spelt(more, ms[m].body[i])
    {
      assert Spelt(origins, ms[m].body[i]);
      OriginsStay(origins, more, ms[m].body[i].origin);
    }
  }

  /** A token with a new origin that leads back to its old one keeps its spelling. */
  lemma CopyIsSpelt(origins: seq<Origin>, o: Origin, t: Token)
    requires OriginsOk(origins) && Spelt(origins, t) && Earlier(o, |origins|)
    requires (o.Replaced? && o.replacement == t.origin) || (o.Supplied? && o.argument == t.origin)
    ensures OriginsOk(origins + [o]) && Spelt(origins + [o], t.(origin := |origins|))
  {
    var more := origins + [o];
    assert OriginsOk(more);
    OriginsStay(origins, more, t.origin);
  }

  // ----- what an instantiation records

  /** The records of the tokens of an argument. */
  function SuppliedAll(argument: seq<Token>, invocation: nat, parameter: nat, macroId: nat): (os: seq<Origin>)
    ensures |os| == |argument|
  {
    seq(|argument|, i requires 0 <= i < |argument| => Supplied(invocation, parameter, argument[i].origin, macroId))
  }

  /** The records of the replacement of an invocation, token by token: where each is spelt and what invoked it. */
  function Instances(body: seq<Token>, parameters: seq<Parameter>, tokens: seq<Token>, ranges: seq<Range>,
                     invocation: nat, macroId: nat): seq<Origin>
    requires |ranges| == |parameters| && RangesOk(ranges, |tokens|)
  {
    if body == [] then []
    else
      var last := body[|body| - 1];
      Instances(body[..|body| - 1], parameters, tokens, ranges, invocation, macroId) +
      Instance(last, parameters, tokens, ranges, invocation, macroId)
  }

  function Instance(t: Token, parameters: seq<Parameter>, tokens: seq<Token>, ranges: seq<Range>,
                    invocation: nat, macroId: nat): seq<Origin>
    requires |ranges| == |parameters| && RangesOk(ranges, |tokens|)
  {
    var p := ParameterIndex(parameters, t.text);
    if p.Some? then
      SuppliedAll(tokens[ranges[p.value].from..ranges[p.value].to], invocation, parameters[p.value].origin, macroId)
    else [Replaced(invocation, t.origin, macroId)]
  }

  lemma InstancesNext(body: seq<Token>, i: nat, parameters: seq<Parameter>, tokens: seq<Token>, ranges: seq<Range>,
                      invocation: nat, macroId: nat)
    requires i < |body| && |ranges| == |parameters| && RangesOk(ranges, |tokens|)
    ensures Instances(body[..i + 1], parameters, tokens, ranges, invocation, macroId) ==
            Instances(body[..i], parameters, tokens, ranges, invocation, macroId) +
            Instance(body[i], parameters, tokens, ranges, invocation, macroId)
  {
    assert body[..i + 1][..i] == body[..i] && body[..i + 1][i] == body[i];
  }

  predicate InvokedBy(os: seq<Origin>, invocation: nat) {
    forall k :: 0 <= k < |os| ==> !os[k].Source? && os[k].invocation == invocation
  }

  lemma InstanceIsInvoked(t: Token, parameters: seq<Parameter>, tokens: seq<Token>, ranges: seq<Range>,
                          invocation: nat, macroId: nat)
    requires |ranges| == |parameters| && RangesOk(ranges, |tokens|)
    ensures InvokedBy(Instance(t, parameters, tokens, ranges, invocation, macroId), invocation)
  {
  }

  lemma {:induction false} InstancesAreInvoked(body: seq<Token>, parameters: seq<Parameter>, tokens: seq<Token>,
                                               ranges: seq<Range>, invocation: nat, macroId: nat)
    requires |ranges| == |parameters| && RangesOk(ranges, |tokens|)
    ensures InvokedBy(Instances(body, parameters, tokens, ranges, invocation, macroId), invocation)
    decreases |body|
  {
    if body != [] {
      var front, last := body[..|body| - 1], body[|body| - 1];
      InstancesAreInvoked(front, parameters, tokens, ranges, invocation, macroId);
      InstanceIsInvoked(last, parameters, tokens, ranges, invocation, macroId);
    }
  }

  /** The origins of the tokens are these. */
  ghost predicate Recorded(origins: seq<Origin>, ts: seq<Token>, os: seq<Origin>) {
    |ts| == |os| && forall i :: 0 <= i < |ts| ==> ts[i].origin < |origins| && origins[ts[i].origin] == os[i]
  }

  function Repeat(x: nat, n: nat): seq<nat> { seq(n, i => x) }

  /** All tokens of an instantiation stand where its invocation stands. */
  lemma InstancesStand(origins: seq<Origin>, ts: seq<Token>, os: seq<Origin>, invocation: nat)
    requires OriginsOk(origins) && TokensOk(origins, ts) && invocation < |origins| && Recorded(origins, ts, os)
    requires InvokedBy(os, invocation)
    ensures Sites(origins, ts) == Repeat(Site(origins, invocation), |ts|)
  {
    forall i | 0 <= i < |ts|
      ensures Sites(origins, ts)[i] == Site(origins, invocation)
    {
      assert Spelt(origins, ts[i]) && origins[ts[i].origin] == os[i];
    }
  }

  // ----- where the tokens of an expansion stand

  /** The expansion of the invocation that the tokens start with. */
  ghost function InvocationResult(ms: seq<Macro>, stack: set<nat>, ts: seq<Text>): Result
    requires MacrosOk(ms) && Invokes(ts)
  {
    var c := ReadCall(ms, ts);
    if c.BadCall? then Failed(c.error)
    else if c.macroId in stack then Failed(Recursive)
    else Expand(ms, stack + {c.macroId}, Replacement(ms, ts, c))
  }

  /** A token outside invocations stays where it is; all that an invocation expands to stands at the invoked name. */
  ghost function ExpandedSites(ms: seq<Macro>, stack: set<nat>, ts: seq<Text>, sites: seq<nat>): seq<nat>
    requires MacrosOk(ms) && |sites| == |ts|
    decreases |ts|
  {
    if ts == [] then []
    else if !Invokes(ts) then [sites[0]] + ExpandedSites(ms, stack, ts[1..], sites[1..])
    else
      var c, r := ReadCall(ms, ts), InvocationResult(ms, stack, ts);
      if c.BadCall? || r.Failed? then []
      else Repeat(sites[1], |r.output|) + ExpandedSites(ms, stack, ts[c.after..], sites[c.after..])
  }

  lemma RepeatJoin(x: nat, m: nat, n: nat)
    ensures Repeat(x, m) + Repeat(x, n) == Repeat(x, m + n)
  {
  }

  /** Tokens that all stand in one place expand to tokens that stand there. */
  lemma {:induction false} OneSite(ms: seq<Macro>, stack: set<nat>, ts: seq<Text>, x: nat)
    requires MacrosOk(ms) && Expand(ms, stack, ts).Expanded?
    ensures ExpandedSites(ms, stack, ts, Repeat(x, |ts|)) == Repeat(x, |Expand(ms, stack, ts).output|)
    decreases |ts|
  {
    hide ReadCall, Replacement;
    if ts != [] {
      if !Invokes(ts) {
        assert Repeat(x, |ts|)[1..] == Repeat(x, |ts[1..]|);
        OneSite(ms, stack, ts[1..], x);
        RepeatJoin(x, 1, |Expand(ms, stack, ts[1..]).output|);
        assert [x] == Repeat(x, 1);
      } else {
        var c, r := ReadCall(ms, ts), InvocationResult(ms, stack, ts);
        assert Repeat(x, |ts|)[c.after..] == Repeat(x, |ts[c.after..]|);
        OneSite(ms, stack, ts[c.after..], x);
        RepeatJoin(x, |r.output|, |Expand(ms, stack, ts[c.after..]).output|);
      }
    }
  }

  /** One more token of the body. */
  lemma SubstitutedNext(body: seq<Token>, i: nat, parameters: seq<Parameter>, ts: seq<Text>, ranges: seq<Range>)
    requires i < |body| && |ranges| == |parameters| && RangesOk(ranges, |ts|)
    ensures var p := ParameterIndex(parameters, body[i].text);
            Substituted(body[..i + 1], parameters, ts, ranges) == Substituted(body[..i], parameters, ts, ranges) +
            if p.Some? then ts[ranges[p.value].from..ranges[p.value].to] else [body[i].text]
  {
    assert body[..i + 1][..i] == body[..i] && body[..i + 1][i] == body[i];
  }

  class Expander {
    var macros: seq<Macro>
    var origins: seq<Origin>
    var stack: seq<nat>
    var output: seq<Token>

    ghost predicate Valid()
      reads this
    {
      MacrosOk(macros) && OriginsOk(origins) && DefinitionsOk(origins, macros)
    }

    ghost function OnStack(): set<nat>
      reads this
    {
      set m | m in stack
    }

    constructor (macros: seq<Macro>, origins: seq<Origin>)
      requires MacrosOk(macros) && OriginsOk(origins) && DefinitionsOk(origins, macros)
      ensures Valid() && this.macros == macros && this.origins == origins && stack == [] && output == []
    {
      this.macros, this.origins, stack, output := macros, origins, [], [];
    }

    method AddOrigin(o: Origin) returns (id: nat)
      requires OriginsOk(origins) && Earlier(o, |origins|)
      modifies this`origins
      ensures id == |old(origins)| && origins == old(origins) + [o] && OriginsOk(origins)
    {
      id := |origins|;
      origins := origins + [o];
    }

    /** find_macro: from the latest definition back. */
    method Find(name: nat) returns (m: Option<nat>)
      ensures m == FindMacro(macros, name)
    {
      var i := |macros|;
      assert macros[..i] == macros;
      while i > 0
        invariant 0 <= i <= |macros| && FindMacro(macros[..i], name) == FindMacro(macros, name)
      {
        i := i - 1;
        assert macros[..i + 1][..i] == macros[..i];
        if macros[i].active && macros[i].name == name {
          return Some(i);
        }
      }
      return None;
    }

    method IsOnStack(m: nat) returns (found: bool)
      ensures found <==> m in OnStack()
    {
      var i := 0;
      while i < |stack|
        invariant 0 <= i <= |stack| && m !in stack[..i]
      {
        if stack[i] == m {
          return true;
        }
        i := i + 1;
      }
      return false;
    }

    /** parse_macro_arguments, from just after the opening parenthesis at `open`. */
    method ParseArguments(tokens: seq<Token>, open: nat, wanted: nat) returns (r: Arguments)
      requires open < |tokens|
      ensures r == ScanArguments(Texts(tokens), open + 1, open + 1, 1, 0, 0, [], wanted)
    {
      var at, start := open + 1, open + 1;
      var parentheses: nat, brackets: nat, braces: nat := 1, 0, 0;
      var done: seq<Range> := [];
      while at < |tokens|
        invariant open < start <= at <= |tokens| && parentheses > 0 && RangesOk(done, |tokens|)
        invariant ScanArguments(Texts(tokens), open + 1, open + 1, 1, 0, 0, [], wanted) ==
                  ScanArguments(Texts(tokens), at, start, parentheses, brackets, braces, done, wanted)
      {
        match tokens[at].text {
          case LParen => parentheses := parentheses + 1;
          case RParen =>
            parentheses := parentheses - 1;
            if parentheses == 0 {
              if at != start || wanted > 0 {
                done := done + [Range(start, at)];
              }
              return if |done| != wanted then BadArguments(WrongCount) else Arguments(done, at + 1);
            }
          case LBracket => brackets := brackets + 1;
          case RBracket => brackets := Less(brackets);
          case LBrace => braces := braces + 1;
          case RBrace => braces := Less(braces);
          case Comma =>
            if parentheses == 1 && brackets == 0 && braces == 0 {
              done := done + [Range(start, at)];
              start := at + 1;
            }
          case _ =>
        }
        at := at + 1;
      }
      return BadArguments(Unterminated);
    }

    /** Copies one argument, recording for every token where it was supplied. */
    method CopyArgument(expanded: seq<Token>, argument: seq<Token>, invocation: nat, parameter: nat, macroId: nat,
                        ghost os: seq<Origin>)
      returns (r: seq<Token>)
      requires Valid() && TokensOk(origins, expanded) && TokensOk(origins, argument) && Recorded(origins, expanded, os)
      requires invocation < |origins| && parameter < |origins|
      modifies this`origins
      ensures Valid() && old(origins) <= origins
      ensures TokensOk(origins, r) && Texts(r) == Texts(expanded) + Texts(argument)
      ensures Recorded(origins, r, os + SuppliedAll(argument, invocation, parameter, macroId))
    {
      r := expanded;
      var i := 0;
      while i < |argument|
        invariant 0 <= i <= |argument| && Valid() && old(origins) <= origins
        invariant TokensOk(origins, r) && Texts(r) == Texts(expanded) + Texts(argument[..i])
        invariant Recorded(origins, r, os + SuppliedAll(argument, invocation, parameter, macroId)[..i])
      {
        hide Spelt;
        ghost var before := origins;
        TokensStay(old(origins), origins, argument);
        CopyIsSpelt(origins, Supplied(invocation, parameter, argument[i].origin, macroId), argument[i]);
        var id := AddOrigin(Supplied(invocation, parameter, argument[i].origin, macroId));
        TokensStay(before, origins, r);
        DefinitionsStay(before, origins, macros);
        r := r + [argument[i].(origin := id)];
        i := i + 1;
      }
      assert argument[..i] == argument;
    }

    /** Copies one token of the body, recording where it was invoked. */
    method CopyReplacement(expanded: seq<Token>, t: Token, invocation: nat, macroId: nat, ghost os: seq<Origin>)
      returns (r: seq<Token>)
      requires Valid() && TokensOk(origins, expanded) && Spelt(origins, t) && Recorded(origins, expanded, os)
      requires invocation < |origins|
      modifies this`origins
      ensures Valid() && old(origins) <= origins
      ensures TokensOk(origins, r) && Texts(r) == Texts(expanded) + [t.text]
      ensures Recorded(origins, r, os + [Replaced(invocation, t.origin, macroId)])
    {
      CopyIsSpelt(origins, Replaced(invocation, t.origin, macroId), t);
      var id := AddOrigin(Replaced(invocation, t.origin, macroId));
      TokensStay(old(origins), origins, expanded);
      DefinitionsStay(old(origins), origins, macros);
      r := expanded + [t.(origin := id)];
    }

    /** The index of the parameter that a token of the body names. */
    method FindParameter(parameters: seq<Parameter>, t: Text) returns (i: Option<nat>)
      ensures i == ParameterIndex(parameters, t)
    {
      if !t.Ident? {
        return None;
      }
      var k := 0;
      assert parameters[0..] == parameters;
      while k < |parameters|
        invariant 0 <= k <= |parameters|
        invariant ParameterIndex(parameters, t) ==
                  var rest := ParameterIndex(parameters[k..], t); if rest.Some? then Some(rest.value + k) else None
      {
        if parameters[k].name == t.name {
          return Some(k);
        }
        assert parameters[k..][1..] == parameters[k + 1..];
        k := k + 1;
      }
      return None;
    }

    /** The replacement of an invocation: the body with the arguments in place, each token with its new origin. */
    method Instantiate(macroId: nat, invocation: nat, tokens: seq<Token>, ranges: seq<Range>)
      returns (expanded: seq<Token>)
      requires Valid() && macroId < |macros| && TokensOk(origins, tokens) && invocation < |origins|
      requires RangesOk(ranges, |tokens|) && |ranges| == |macros[macroId].parameters|
      modifies this`origins
      ensures Valid() && old(origins) <= origins && TokensOk(origins, expanded)
      ensures Texts(expanded) == Substituted(macros[macroId].body, macros[macroId].parameters, Texts(tokens), ranges)
      ensures Recorded(origins, expanded, Instances(macros[macroId].body, macros[macroId].parameters, tokens, ranges,
                                                    invocation, macroId))
    {
      var body, parameters := macros[macroId].body, macros[macroId].parameters;
      expanded := [];
      var i := 0;
      assert body[..0] == [] && Texts([]) == [];
      assert Substituted(body[..0], parameters, Texts(tokens), ranges) == [];
      assert Instances(body[..0], parameters, tokens, ranges, invocation, macroId) == [];
      hide Substituted, Instances, Recorded;
      while i < |body|
        invariant 0 <= i <= |body| && Valid() && old(origins) <= origins && TokensOk(origins, expanded)
        invariant Texts(expanded) == Substituted(body[..i], parameters, Texts(tokens), ranges)
        invariant Recorded(origins, expanded, Instances(body[..i], parameters, tokens, ranges, invocation, macroId))
      {
        ghost var os := Instances(body[..i], parameters, tokens, ranges, invocation, macroId);
        TokensStay(old(origins), origins, tokens);
        SubstitutedNext(body, i, parameters, Texts(tokens), ranges);
        InstancesNext(body, i, parameters, tokens, ranges, invocation, macroId);
        var p := FindParameter(parameters, body[i].text);
        if p.Some? {
          var argument := tokens[ranges[p.value].from..ranges[p.value].to];
          expanded := CopyArgument(expanded, argument, invocation, parameters[p.value].origin, macroId, os);
          assert Texts(argument) == Texts(tokens)[ranges[p.value].from..ranges[p.value].to];
        } else {
          assert Spelt(origins, body[i]);
          expanded := CopyReplacement(expanded, body[i], invocation, macroId, os);
        }
        i := i + 1;
      }
      assert body[..i] == body;
    }

    /** What expanding tokens does: the texts are those of the expansion, and the new tokens stand at these sites. */
    twostate predicate Produced(new error: Option<Error>, r: Result, sites: seq<nat>)
      reads this
    {
      && Valid() && old(origins) <= origins && stack == old(stack) && old(output) <= output
      && TokensOk(origins, output[|old(output)|..])
      && (r.Failed? ==> error == Some(r.error))
      && (r.Expanded? ==> error.None? && Texts(output[|old(output)|..]) == r.output
                          && Sites(origins, output[|old(output)|..]) == sites)
    }

    /** The replacement of an invocation, expanded while its macro is on the stack; all of it stands at the invocation. */
    method ExpandMacro(macroId: nat, invocation: nat, tokens: seq<Token>, ranges: seq<Range>)
      returns (error: Option<Error>)
      requires Valid() && macroId < |macros| && TokensOk(origins, tokens) && invocation < |origins|
      requires RangesOk(ranges, |tokens|) && |ranges| == |macros[macroId].parameters|
      modifies this`origins, this`stack, this`output
      ensures var replacement := Substituted(macros[macroId].body, macros[macroId].parameters, Texts(tokens), ranges);
              var r := if macroId in old(OnStack()) then Failed(Recursive)
                       else Expand(macros, old(OnStack()) + {macroId}, replacement);
              Produced(error, r, if r.Expanded? then Repeat(old(Site(origins, invocation)), |r.output|) else [])
      decreases |Unused(macros, OnStack())|, 0, 0
    {
      hide ExpandedSites, Sites, Substituted, Expand, Instances, Recorded;
      var recursive := IsOnStack(macroId);
      if recursive {
        assert Texts([]) == [];
        return Some(Recursive);
      }
      UnusedDrops(macros, OnStack(), macroId);
      ghost var above, site := OnStack(), Site(origins, invocation);
      var expanded := Instantiate(macroId, invocation, tokens, ranges);
      ghost var sites := Sites(origins, expanded);
      InstancesAreInvoked(macros[macroId].body, macros[macroId].parameters, tokens, ranges, invocation, macroId);
      InstancesStand(origins, expanded, Instances(macros[macroId].body, macros[macroId].parameters, tokens, ranges,
                                                  invocation, macroId), invocation);
      OriginsStay(old(origins), origins, invocation);
      stack := stack + [macroId];
      assert OnStack() == above + {macroId};
      if Expand(macros, above + {macroId}, Texts(expanded)).Expanded? {
        OneSite(macros, above + {macroId}, Texts(expanded), site);
      }
      error := ExpandTokens(expanded, sites);
      stack := stack[..|stack| - 1];
    }

    method ExpandInvocation(tokens: seq<Token>) returns (error: Option<Error>, after: nat)
      requires Valid() && TokensOk(origins, tokens) && Invokes(Texts(tokens))
      modifies this`origins, this`stack, this`output
      ensures tokens[1].origin < old(|origins|)
      ensures var r := InvocationResult(macros, old(OnStack()), Texts(tokens));
              Produced(error, r, if r.Expanded? then Repeat(old(Site(origins, tokens[1].origin)), |r.output|) else [])
      ensures error.None? ==> var c := ReadCall(macros, Texts(tokens)); c.Call? && after == c.after
      decreases |Unused(macros, OnStack())|, 0, 1
    {
      hide Substituted, Expand, ScanArguments;
      assert Texts([]) == [] && output[|output|..] == [];
      after := 0;
      assert Spelt(origins, tokens[1]);
      var m := Find(tokens[1].text.name);
      if m.None? {
        return Some(Undefined), after;
      }
      var ranges: seq<Range> := [];
      after := 2;
      if macros[m.value].functionLike {
        if |tokens| < 3 || !tokens[2].text.LParen? {
          return Some(NoArguments), after;
        }
        var parsed := ParseArguments(tokens, 2, |macros[m.value].parameters|);
        if parsed.BadArguments? {
          return Some(parsed.error), after;
        }
        ranges, after := parsed.ranges, parsed.after;
      }
      error := ExpandMacro(m.value, tokens[1].origin, tokens, ranges);
    }

    /** One token, or one invocation, from the front. */
    method ExpandNext(rest: seq<Token>, ghost sites: seq<nat>) returns (error: Option<Error>, after: nat)
      requires Valid() && rest != [] && TokensOk(origins, rest) && sites == Sites(origins, rest)
      modifies this`origins, this`stack, this`output
      ensures Valid() && old(origins) <= origins && stack == old(stack) && old(output) <= output
      ensures TokensOk(origins, output[|old(output)|..])
      ensures error.Some? ==> Expand(macros, old(OnStack()), Texts(rest)) == Failed(error.value)
      ensures error.None? ==> 1 <= after <= |rest|
      ensures error.None? ==>
                Expand(macros, old(OnStack()), Texts(rest)) ==
                Then(Expanded(Texts(output[|old(output)|..])), Expand(macros, old(OnStack()), Texts(rest[after..])))
      ensures error.None? ==>
                ExpandedSites(macros, old(OnStack()), Texts(rest), sites) ==
                Sites(origins, output[|old(output)|..]) +
                ExpandedSites(macros, old(OnStack()), Texts(rest[after..]), sites[after..])
      decreases |Unused(macros, OnStack())|, 1, 0
    {
      hide Expand, Spelt, Then, ExpandedSites, Sites, Site, Repeat;
      ghost var above := OnStack();
      assert Spelt(origins, rest[0]);
      if |rest| > 1 && rest[0].text.Tick? && rest[1].text.Ident? {
        InvocationStep(above, rest);
        InvocationSites(macros, above, rest, sites);
        NameSite(origins, rest);
        error, after := ExpandInvocation(rest);
      } else {
        PlainStep(above, rest);
        PlainSites(macros, above, rest, sites);
        output := output + [rest[0]];
        assert output[|old(output)|..] == [rest[0]] && Texts([rest[0]]) == [rest[0].text];
        OneStays(origins, rest);
        return None, 1;
      }
    }

    /**
     * Appends the expansion of the tokens to the output, each token with the site it stands at; on failure, what came
     * before the failure stays there.
     */
    method ExpandTokens(tokens: seq<Token>, ghost sites: seq<nat>) returns (error: Option<Error>)
      requires Valid() && TokensOk(origins, tokens) && sites == Sites(origins, tokens)
      modifies this`origins, this`stack, this`output
      ensures Produced(error, Expand(macros, old(OnStack()), Texts(tokens)),
                       ExpandedSites(macros, old(OnStack()), Texts(tokens), sites))
      decreases |Unused(macros, OnStack())|, 1, 1
    {
      hide Expand, Spelt, ExpandedSites, Sites;
      ghost var above, start := OnStack(), |output|;
      var i := 0;
      NothingYet(Expand(macros, above, Texts(tokens)));
      assert tokens[0..] == tokens && output[start..] == [] && Texts([]) == [] && sites[0..] == sites;
      NoSites(origins);
      while i < |tokens|
        invariant 0 <= i <= |tokens| && Valid() && old(origins) <= origins && stack == old(stack) && old(output) <= output
        invariant TokensOk(origins, output[start..])
        invariant Expand(macros, above, Texts(tokens)) ==
                  Then(Expanded(Texts(output[start..])), Expand(macros, above, Texts(tokens[i..])))
        invariant ExpandedSites(macros, above, Texts(tokens), sites) ==
                  Sites(origins, output[start..]) + ExpandedSites(macros, above, Texts(tokens[i..]), sites[i..])
      {
        hide Then;
        ghost var before, done, rest := origins, output, tokens[i..];
        RestOk(old(origins), origins, tokens, i);
        var after: nat;
        error, after := ExpandNext(tokens[i..], sites[i..]);
        ProducedAfter(before, origins, done, output, start);
        if error.Some? {
          FailedStep(Texts(done[start..]), error.value);
          return;
        }
        assert rest[after..] == tokens[i + after..] && sites[i..][after..] == sites[i + after..];
        LoopStep(Expand(macros, above, Texts(tokens)), Expand(macros, above, Texts(rest)),
                 Expand(macros, above, Texts(rest[after..])), done, output, start);
        i := i + after;
      }
      EndStep(macros, above, tokens[i..], Texts(output[start..]));
      EndSites(macros, above, tokens[i..], sites[i..]);
      return None;
    }

    lemma InvocationStep(above: set<nat>, rest: seq<Token>)
      requires MacrosOk(macros) && Invokes(Texts(rest))
      ensures var c, r := ReadCall(macros, Texts(rest)), InvocationResult(macros, above, Texts(rest));
              && (r.Failed? ==> Expand(macros, above, Texts(rest)) == r)
              && (r.Expanded? ==> c.Call? && Expand(macros, above, Texts(rest)) ==
                                            Then(r, Expand(macros, above, Texts(rest[c.after..]))))
    {
      var c := ReadCall(macros, Texts(rest));
      if c.Call? {
        assert Texts(rest[c.after..]) == Texts(rest)[c.after..];
        if c.macroId !in above {
          UnusedDrops(macros, above, c.macroId);
        }
      }
    }

    lemma PlainStep(above: set<nat>, rest: seq<Token>)
      requires MacrosOk(macros) && rest != [] && !Invokes(Texts(rest))
      ensures Expand(macros, above, Texts(rest)) ==
              Then(Expanded([rest[0].text]), Expand(macros, above, Texts(rest[1..])))
    {
      assert Texts(rest[1..]) == Texts(rest)[1..];
    }
  }

  lemma InvocationSites(ms: seq<Macro>, above: set<nat>, rest: seq<Token>, sites: seq<nat>)
    requires MacrosOk(ms) && Invokes(Texts(rest)) && |sites| == |rest|
    ensures var c, r := ReadCall(ms, Texts(rest)), InvocationResult(ms, above, Texts(rest));
            r.Expanded? ==>
              c.Call? && ExpandedSites(ms, above, Texts(rest), sites) ==
                         Repeat(sites[1], |r.output|) + ExpandedSites(ms, above, Texts(rest[c.after..]), sites[c.after..])
  {
    var c := ReadCall(ms, Texts(rest));
    if c.Call? {
      assert Texts(rest[c.after..]) == Texts(rest)[c.after..];
    }
  }

  lemma NameSite(origins: seq<Origin>, ts: seq<Token>)
    requires OriginsOk(origins) && TokensOk(origins, ts) && |ts| > 1
    ensures ts[1].origin < |origins| && Sites(origins, ts)[1] == Site(origins, ts[1].origin)
  {
    assert Spelt(origins, ts[1]);
  }

  lemma PlainSites(ms: seq<Macro>, above: set<nat>, rest: seq<Token>, sites: seq<nat>)
    requires MacrosOk(ms) && rest != [] && !Invokes(Texts(rest)) && |sites| == |rest|
    ensures ExpandedSites(ms, above, Texts(rest), sites) ==
            [sites[0]] + ExpandedSites(ms, above, Texts(rest[1..]), sites[1..])
  {
    assert Texts(rest[1..]) == Texts(rest)[1..];
  }

  lemma OneStays(origins: seq<Origin>, ts: seq<Token>)
    requires OriginsOk(origins) && TokensOk(origins, ts) && ts != []
    ensures TokensOk(origins, [ts[0]]) && Sites(origins, [ts[0]]) == [Sites(origins, ts)[0]]
  {
    assert Spelt(origins, ts[0]);
  }

  lemma NoSites(origins: seq<Origin>)
    requires OriginsOk(origins)
    ensures TokensOk(origins, []) && Sites(origins, []) == []
  {
  }

  lemma EndSites(ms: seq<Macro>, above: set<nat>, rest: seq<Token>, sites: seq<nat>)
    requires MacrosOk(ms) && rest == [] && sites == []
    ensures ExpandedSites(ms, above, Texts(rest), sites) == []
  {
  }

  lemma RestOk(before: seq<Origin>, origins: seq<Origin>, tokens: seq<Token>, i: nat)
    requires OriginsOk(before) && OriginsOk(origins) && before <= origins && TokensOk(before, tokens) && i <= |tokens|
    ensures TokensOk(origins, tokens[i..]) && Sites(origins, tokens[i..]) == Sites(before, tokens)[i..]
  {
    TokensStay(before, origins, tokens);
    forall k | 0 <= k < |tokens[i..]|
      ensures Spelt(origins, tokens[i..][k])
    {
      assert tokens[i..][k] == tokens[i + k];
    }
  }

  lemma LoopStep(all: Result, rest: Result, next: Result, done: seq<Token>, now: seq<Token>, start: nat)
    requires done <= now && start <= |done|
    requires all == Then(Expanded(Texts(done[start..])), rest) && rest == Then(Expanded(Texts(now[|done|..])), next)
    ensures all == Then(Expanded(Texts(now[start..])), next)
  {
    hide Then, Texts;
    OutputJoins(done, now, start);
    StepJoins(Texts(done[start..]), Texts(now[|done|..]), next);
  }

  lemma EndStep(ms: seq<Macro>, above: set<nat>, rest: seq<Token>, done: seq<Text>)
    requires MacrosOk(ms) && rest == []
    ensures Then(Expanded(done), Expand(ms, above, Texts(rest))) == Expanded(done)
  {
    assert Texts(rest) == [] && done + [] == done;
  }

  lemma NothingYet(r: Result)
    ensures Then(Expanded([]), r) == r
  {
    if r.Expanded? {
      assert [] + r.output == r.output;
    }
  }

  lemma FailedStep(done: seq<Text>, e: Error)
    ensures Then(Expanded(done), Failed(e)) == Failed(e)
  {
  }

  lemma StepJoins(done: seq<Text>, more: seq<Text>, rest: Result)
    ensures Then(Expanded(done), Then(Expanded(more), rest)) == Then(Expanded(done + more), rest)
  {
    if rest.Expanded? {
      assert done + (more + rest.output) == done + more + rest.output;
    }
  }

  lemma OutputJoins(done: seq<Token>, now: seq<Token>, start: nat)
    requires done <= now && start <= |done|
    ensures Texts(now[start..]) == Texts(done[start..]) + Texts(now[|done|..])
  {
    assert now[start..] == done[start..] + now[|done|..];
  }

  lemma ProducedAfter(before: seq<Origin>, origins: seq<Origin>, done: seq<Token>, now: seq<Token>, start: nat)
    requires OriginsOk(before) && OriginsOk(origins) && before <= origins && done <= now && start <= |done|
    requires TokensOk(before, done[start..]) && TokensOk(origins, now[|done|..])
    ensures TokensOk(origins, now[start..])
    ensures Sites(origins, now[start..]) == Sites(before, done[start..]) + Sites(origins, now[|done|..])
  {
    TokensStay(before, origins, done[start..]);
    SitesJoin(origins, done[start..], now[|done|..]);
    assert now[start..] == done[start..] + now[|done|..];
  }
}
