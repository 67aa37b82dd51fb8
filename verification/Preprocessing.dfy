/** A whole source: conditionals select segments and definitions, and every segment is expanded by the table at hand. */
module Preprocessing {
  import opened Options
  import opened Expansion
  import opened Provenance
  import opened Conditionals

  /** A definition without a parameter list has no parameters. */
  predicate MacroOk(m: Macro) { m.functionLike || m.parameters == [] }

  ghost predicate ItemsOk(items: seq<Item>) { forall i :: 0 <= i < |items| && items[i].Define? ==> MacroOk(items[i].macro) }

  ghost predicate PiecesOk(pieces: seq<Piece>) { forall i :: 0 <= i < |pieces| ==> MacrosOk(pieces[i].macros) }

  /** The expansions of the kept segments, one after the other. */
  function Output(pieces: seq<Piece>): Result
    requires PiecesOk(pieces)
  {
    if pieces == [] then Expanded([])
    else
      var last := pieces[|pieces| - 1];
      Then(Output(pieces[..|pieces| - 1]), Expand(last.macros, {}, Texts(last.tokens)))
  }

  lemma TableStaysOk(ms: seq<Macro>, name: nat, m: Macro)
    requires MacrosOk(ms) && MacroOk(m)
    ensures MacrosOk(Deactivated(ms, name)) && MacrosOk(Added(ms, m))
  {
  }

  /** Pieces are only added, each with a table that is in order. */
  lemma {:induction false} RunGrows(s: State, items: seq<Item>)
    requires ItemsOk(items) && MacrosOk(s.macros) && PiecesOk(s.output) && Run(s, items).Some?
    ensures s.output <= Run(s, items).value.output && PiecesOk(Run(s, items).value.output)
    decreases |items|
  {
    if items != [] {
      var next := Step(s, items[0]).value;
      match items[0] {
        case Define(m) => TableStaysOk(s.macros, m.name, m);
        case Undefine(n) => TableStaysOk(s.macros, n, Macro(n, true, true, [], []));
        case _ =>
      }
      RunGrows(next, items[1..]);
    }
  }

  lemma KeptOk(items: seq<Item>)
    requires ItemsOk(items) && Kept(items).Some?
    ensures PiecesOk(Kept(items).value.output)
  {
    RunGrows(State([], [], []), items);
  }

  /** What preprocessing makes of a source; none if a directive or an expansion fails. */
  ghost function Preprocessed(items: seq<Item>): Option<seq<Text>>
    requires ItemsOk(items)
  {
    if Kept(items).None? then None
    else
      KeptOk(items);
      var r := Output(Kept(items).value.output);
      if r.Expanded? then Some(r.output) else None
  }

  /**
   * The output of a source is the expansion of what its conditional structure selects, each segment by the table of
   * the definitions selected before it; without a structure, or if an expansion fails, there is no output.
   */
  lemma {:induction false} SourceMeans(items: seq<Item>, output: seq<Text>)
    requires ItemsOk(items)
    ensures Preprocessed(items) == Some(output) <==>
            exists parts :: Flatten(parts) == items && PiecesOk(Select(parts, []).output)
                            && Output(Select(parts, []).output) == Expanded(output)
  {
    if Preprocessed(items) == Some(output) {
      AcceptedIffNested(items);
      var parts :| Flatten(parts) == items;
      StructureIsKept(parts);
      KeptOk(items);
      assert Output(Select(parts, []).output) == Expanded(output);
    }
    if parts :| Flatten(parts) == items && PiecesOk(Select(parts, []).output)
                && Output(Select(parts, []).output) == Expanded(output) {
      StructureIsKept(parts);
    }
  }

  lemma OutputSnoc(pieces: seq<Piece>, p: Piece)
    requires PiecesOk(pieces) && MacrosOk(p.macros)
    ensures PiecesOk(pieces + [p])
    ensures Output(pieces + [p]) == Then(Output(pieces), Expand(p.macros, {}, Texts(p.tokens)))
  {
    assert (pieces + [p])[..|pieces|] == pieces;
  }

  /** A failed expansion is never made good. */
  lemma {:induction false} FailureRemains(early: seq<Piece>, all: seq<Piece>)
    requires PiecesOk(all) && early <= all && PiecesOk(early) && Output(early).Failed?
    ensures Output(all).Failed?
    decreases |all|
  {
    if |early| < |all| {
      FailureRemains(early, all[..|all| - 1]);
    } else {
      assert early == all;
    }
  }

  lemma Joined(done: seq<Text>, more: seq<Text>)
    ensures Then(Expanded(done), Expanded(more)) == Expanded(done + more)
  {
  }

  // ----- origins

  /** Tokens and definitions have their origins. */
  ghost predicate Originated(origins: seq<Origin>, x: Item) {
    match x
    case Segment(tokens) => TokensOk(origins, tokens)
    case Define(m) => MacroOk(m) && DefinitionsOk(origins, [m])
    case _ => true
  }

  lemma OriginatedStays(origins: seq<Origin>, more: seq<Origin>, x: Item)
    requires OriginsOk(origins) && OriginsOk(more) && origins <= more && Originated(origins, x)
    ensures Originated(more, x)
  {
    match x
    case Segment(tokens) => TokensStay(origins, more, tokens);
    case Define(m) => DefinitionsStay(origins, more, [m]);
    case _ =>
  }

  ghost predicate PiecesSpelt(origins: seq<Origin>, pieces: seq<Piece>) {
    forall i :: 0 <= i < |pieces| ==> TokensOk(origins, pieces[i].tokens)
  }

  /** Where the output of the pieces stands: each token at itself, or at the name of its outermost invocation. */
  ghost function OutputSites(origins: seq<Origin>, pieces: seq<Piece>): seq<nat>
    requires OriginsOk(origins) && PiecesOk(pieces) && PiecesSpelt(origins, pieces)
  {
    if pieces == [] then []
    else
      var last := pieces[|pieces| - 1];
      OutputSites(origins, pieces[..|pieces| - 1]) +
      ExpandedSites(last.macros, {}, Texts(last.tokens), Sites(origins, last.tokens))
  }

  lemma {:induction false} OutputSitesStay(origins: seq<Origin>, more: seq<Origin>, pieces: seq<Piece>)
    requires OriginsOk(origins) && OriginsOk(more) && origins <= more && PiecesOk(pieces) && PiecesSpelt(origins, pieces)
    ensures PiecesSpelt(more, pieces) && OutputSites(more, pieces) == OutputSites(origins, pieces)
    decreases |pieces|
  {
    hide TokensOk, Sites, ExpandedSites;
    if pieces != [] {
      OutputSitesStay(origins, more, pieces[..|pieces| - 1]);
      TokensStay(origins, more, pieces[|pieces| - 1].tokens);
    }
  }

  lemma OutputSitesSnoc(origins: seq<Origin>, pieces: seq<Piece>, p: Piece)
    requires OriginsOk(origins) && PiecesOk(pieces) && MacrosOk(p.macros) && PiecesSpelt(origins, pieces)
    requires TokensOk(origins, p.tokens)
    ensures PiecesOk(pieces + [p]) && PiecesSpelt(origins, pieces + [p])
    ensures OutputSites(origins, pieces + [p]) ==
            OutputSites(origins, pieces) + ExpandedSites(p.macros, {}, Texts(p.tokens), Sites(origins, p.tokens))
  {
    assert (pieces + [p])[..|pieces|] == pieces;
  }

  lemma SegmentSites(before: seq<Origin>, origins: seq<Origin>, pieces: seq<Piece>, p: Piece)
    requires OriginsOk(before) && OriginsOk(origins) && before <= origins && PiecesOk(pieces) && MacrosOk(p.macros)
    requires PiecesSpelt(before, pieces) && TokensOk(before, p.tokens)
    ensures PiecesOk(pieces + [p]) && PiecesSpelt(origins, pieces + [p])
    ensures OutputSites(origins, pieces + [p]) ==
            OutputSites(before, pieces) + ExpandedSites(p.macros, {}, Texts(p.tokens), Sites(before, p.tokens))
  {
    hide OutputSites, ExpandedSites, Sites, Spelt;
    OutputSitesStay(before, origins, pieces);
    TokensStay(before, origins, p.tokens);
    OutputSitesSnoc(origins, pieces, p);
  }

  lemma AddedDefinitions(origins: seq<Origin>, ms: seq<Macro>, m: Macro)
    requires DefinitionsOk(origins, ms) && DefinitionsOk(origins, [m])
    ensures DefinitionsOk(origins, Added(ms, m))
  {
    UndefinedDefinitions(origins, ms, m.name);
    assert [m][0] == m;
  }

  lemma UndefinedDefinitions(origins: seq<Origin>, ms: seq<Macro>, name: nat)
    requires DefinitionsOk(origins, ms)
    ensures DefinitionsOk(origins, Deactivated(ms, name))
  {
  }

  /** The item is not a segment that fails to expand. */
  ghost predicate Expands(s: State, x: Item)
    requires MacrosOk(s.macros)
  {
    x.Segment? && Active(s) ==> Expand(s.macros, {}, Texts(x.tokens)).Expanded?
  }

  /** A source with a segment that fails to expand has no output. */
  lemma Unexpandable(s: State, x: Item, rest: seq<Item>)
    requires MacrosOk(s.macros) && PiecesOk(s.output) && ItemsOk(rest) && !Expands(s, x)
    ensures var r := Run(s, [x] + rest);
            r.Some? ==> PiecesOk(r.value.output) && Output(r.value.output).Failed?
  {
    var p := Piece(s.macros, x.tokens);
    var next := s.(output := s.output + [p]);
    RunOne(s, x, rest);
    OutputSnoc(s.output, p);
    if Run(next, rest).Some? {
      RunGrows(next, rest);
      FailureRemains(next.output, Run(next, rest).value.output);
    }
  }

  class Preprocessor {
    var frames: seq<Frame>
    const expander: Expander
    ghost var kept: seq<Piece>

    ghost function Now(): State
      reads this, expander
    {
      State(frames, expander.macros, kept)
    }

    /** The output so far is that of the kept pieces, token by token spelt and standing where it should. */
    ghost predicate Valid()
      reads this, expander
    {
      && expander.Valid() && expander.stack == [] && PiecesOk(kept)
      && Output(kept) == Expanded(Texts(expander.output))
      && PiecesSpelt(expander.origins, kept) && TokensOk(expander.origins, expander.output)
      && Sites(expander.origins, expander.output) == OutputSites(expander.origins, kept)
    }

    constructor (origins: seq<Origin>)
      requires OriginsOk(origins)
      ensures fresh(expander) && Valid() && Now() == State([], [], []) && expander.origins == origins
    {
      frames, kept := [], [];
      expander := new Expander([], origins);
      new;
      assert Texts([]) == [];
    }

    /** Directives of conditionals work in inactive regions too. */
    method HandleConditional(x: Item) returns (ok: bool)
      requires x.IfDefined? || x.IfNotDefined? || x.ElseIf? || x.Else? || x.EndIf?
      modifies this`frames
      ensures ok == Step(old(Now()), x).Some?
      ensures Now() == if ok then Step(old(Now()), x).value else old(Now())
    {
      if x.IfDefined? || x.IfNotDefined? || x.ElseIf? {
        if x.macroName.None? {
          return false;
        }
        var m := expander.Find(x.macroName.value);
        var known := m.Some?;
        if !x.ElseIf? {
          var selected := if x.IfDefined? then known else !known;
          var parentActive := |frames| == 0 || frames[|frames| - 1].branchActive;
          frames := frames + [Frame(parentActive, selected, parentActive && selected, false)];
          return true;
        }
        if |frames| == 0 || frames[|frames| - 1].sawElse {
          return false;
        }
        var f := frames[|frames| - 1];
        f := f.(branchActive := f.parentActive && !f.branchTaken && known);
        f := f.(branchTaken := f.branchTaken || known);
        frames := frames[..|frames| - 1] + [f];
        return true;
      }
      if |frames| == 0 {
        return false;
      }
      var f := frames[|frames| - 1];
      if x.EndIf? {
        frames := frames[..|frames| - 1];
        return true;
      }
      if f.sawElse {
        return false;
      }
      f := f.(sawElse := true);
      f := f.(branchActive := f.parentActive && !f.branchTaken);
      f := f.(branchTaken := true);
      frames := frames[..|frames| - 1] + [f];
      return true;
    }

    method UndefineMacro(name: nat)
      modifies expander`macros
      ensures expander.macros == Deactivated(old(expander.macros), name)
    {
      var m := expander.Find(name);
      if m.Some? {
        expander.macros := expander.macros[m.value := expander.macros[m.value].(active := false)];
      }
    }

    method DefineMacro(macro: Macro)
      modifies expander`macros
      ensures expander.macros == Added(old(expander.macros), macro)
    {
      UndefineMacro(macro.name);
      expander.macros := expander.macros + [macro.(active := true)];
    }

    /** A segment is expanded as a whole, by the current table. */
    method HandleSegment(tokens: seq<Token>) returns (ok: bool)
      requires Valid() && TokensOk(expander.origins, tokens)
      modifies this`kept, expander`origins, expander`stack, expander`output
      ensures old(expander.origins) <= expander.origins
      ensures ok <==> Expand(expander.macros, {}, Texts(tokens)).Expanded?
      ensures ok ==> Valid() && kept == old(kept) + [Piece(expander.macros, tokens)]
    {
      hide Expand, Output, Then, Spelt, OutputSites, ExpandedSites, Sites;
      ghost var done, before := expander.output, expander.origins;
      ghost var r := Expand(expander.macros, {}, Texts(tokens));
      assert expander.OnStack() == {};
      var error := expander.ExpandTokens(tokens, Sites(expander.origins, tokens));
      ok := error.None?;
      if ok {
        OutputSnoc(kept, Piece(expander.macros, tokens));
        assert Then(Expanded(Texts(done)), r) == Expanded(Texts(done) + r.output) by {
          Joined(Texts(done), r.output);
        }
        kept := kept + [Piece(expander.macros, tokens)];
        assert expander.output == done + expander.output[|done|..];
        assert done[0..] == done && expander.output[0..] == expander.output;
        ProducedAfter(before, expander.origins, done, expander.output, 0);
        SegmentSites(before, expander.origins, old(kept), Piece(expander.macros, tokens));
        OutputJoins(done, expander.output, 0);
      }
    }

    method HandleItem(x: Item) returns (ok: bool)
      requires Valid() && Originated(expander.origins, x)
      modifies this`frames, this`kept, expander
      ensures old(expander.origins) <= expander.origins
      ensures ok ==> Step(old(Now()), x) == Some(Now()) && Valid()
      ensures !ok ==> Step(old(Now()), x).None? || !Expands(old(Now()), x)
    {
      hide Output, OutputSites, Sites, Spelt, Expand, FindMacro;
      if x.IfDefined? || x.IfNotDefined? || x.ElseIf? || x.Else? || x.EndIf? {
        ok := HandleConditional(x);
        return;
      }
      if |frames| == 0 || frames[|frames| - 1].branchActive {
        match x {
          case Define(m) =>
            TableStaysOk(expander.macros, m.name, m);
            AddedDefinitions(expander.origins, expander.macros, m);
            DefineMacro(m);
          case Undefine(n) =>
            TableStaysOk(expander.macros, n, Macro(n, true, true, [], []));
            UndefinedDefinitions(expander.origins, expander.macros, n);
            UndefineMacro(n);
          case Segment(tokens) =>
            ok := HandleSegment(tokens);
            return;
        }
      }
      ok := true;
    }

    /** Succeeds exactly for the sources with an output, and makes that output, every token with its origins. */
    method Preprocess(items: seq<Item>) returns (ok: bool)
      requires Valid() && Now() == State([], [], []) && ItemsOk(items)
      requires forall i :: 0 <= i < |items| ==> Originated(expander.origins, items[i])
      modifies this`frames, this`kept, expander
      ensures ok <==> Preprocessed(items).Some?
      ensures ok ==> Preprocessed(items) == Some(Texts(expander.output))
      ensures ok ==>
                var pieces := Kept(items).value.output;
                && OriginsOk(expander.origins) && TokensOk(expander.origins, expander.output)
                && PiecesOk(pieces) && PiecesSpelt(expander.origins, pieces)
                && Sites(expander.origins, expander.output) == OutputSites(expander.origins, pieces)
    {
      ghost var start := Now();
      var i := 0;
      assert items[0..] == items;
      while i < |items|
        invariant 0 <= i <= |items| && Valid() && old(expander.origins) <= expander.origins
        invariant Run(Now(), items[i..]) == Run(start, items)
      {
        assert items[i..][1..] == items[i + 1..];
        OriginatedStays(old(expander.origins), expander.origins, items[i]);
        ghost var before := Now();
        ok := HandleItem(items[i]);
        if !ok {
          if Step(before, items[i]).Some? {
            Unexpandable(before, items[i], items[i + 1..]);
          }
          return;
        }
        i := i + 1;
      }
      ok := |frames| == 0;
    }
  }
}
