/** Conditional compilation: a stack of frames keeps exactly what a structural reading of the directives selects. */
module Conditionals {
  import opened Options
  import opened Expansion

  /** A run of tokens without directives, or a directive; one of a conditional may lack its macro name. */
  datatype Item =
    | Segment(tokens: seq<Token>)
    | Define(macro: Macro)
    | Undefine(name: nat)
    | IfDefined(macroName: Option<nat>)
    | IfNotDefined(macroName: Option<nat>)
    | ElseIf(macroName: Option<nat>)
    | Else
    | EndIf

  // ----- the macro table

  predicate Known(ms: seq<Macro>, name: nat) { FindMacro(ms, name).Some? }

  /** The latest active definition of the name becomes inactive. */
  function Deactivated(ms: seq<Macro>, name: nat): seq<Macro> {
    var m := FindMacro(ms, name);
    if m.None? then ms else ms[m.value := ms[m.value].(active := false)]
  }

  /** A new definition takes the place of the one before. */
  function Added(ms: seq<Macro>, macro: Macro): seq<Macro> { Deactivated(ms, macro.name) + [macro.(active := true)] }

  /** A name has at most one active definition. */
  ghost predicate OneActive(ms: seq<Macro>) {
    forall i, j :: 0 <= i < j < |ms| && ms[i].active && ms[j].active ==> ms[i].name != ms[j].name
  }

  lemma {:induction false} KnownIffActive(ms: seq<Macro>, name: nat)
    ensures Known(ms, name) <==> exists i :: 0 <= i < |ms| && ms[i].active && ms[i].name == name
  {
  }

  /** Undefining forgets exactly the name. */
  lemma DeactivatedForgets(ms: seq<Macro>, name: nat)
    requires OneActive(ms)
    ensures OneActive(Deactivated(ms, name)) && |Deactivated(ms, name)| == |ms|
    ensures forall i :: 0 <= i < |ms| ==> Deactivated(ms, name)[i] == ms[i].(active := ms[i].active && ms[i].name != name)
    ensures forall n :: Known(Deactivated(ms, name), n) <==> n != name && Known(ms, n)
  {
    var next := Deactivated(ms, name);
    assert |next| == |ms| && forall i :: 0 <= i < |ms| ==>
      next[i].name == ms[i].name && (next[i].active <==> ms[i].active && ms[i].name != name);
    forall n
      ensures Known(next, n) <==> n != name && Known(ms, n)
    {
      KnownIffActive(next, n);
      KnownIffActive(ms, n);
      if i :| 0 <= i < |ms| && ms[i].active && ms[i].name == n && n != name {
        assert next[i].active && next[i].name == n;
      }
    }
  }

  /** Defining makes exactly the name known, by the new definition. */
  lemma AddedIsFound(ms: seq<Macro>, macro: Macro)
    requires OneActive(ms)
    ensures OneActive(Added(ms, macro)) && |Added(ms, macro)| == |ms| + 1 && Added(ms, macro)[|ms|] == macro.(active := true)
    ensures forall i :: 0 <= i < |ms| ==> Added(ms, macro)[i] == ms[i].(active := ms[i].active && ms[i].name != macro.name)
    ensures forall n :: Known(Added(ms, macro), n) <==> n == macro.name || Known(ms, n)
    ensures FindMacro(Added(ms, macro), macro.name) == Some(|ms|)
  {
    DeactivatedForgets(ms, macro.name);
    var front, next := Deactivated(ms, macro.name), Added(ms, macro);
    assert next[..|next| - 1] == front && |front| == |ms|;
    forall i | 0 <= i < |front| && front[i].active
      ensures front[i].name != macro.name
    {
      KnownIffActive(front, macro.name);
    }
  }

  // ----- the frames

  datatype Frame = Frame(parentActive: bool, branchTaken: bool, branchActive: bool, sawElse: bool)

  /** A segment that is kept, with the macro table at that point. */
  datatype Piece = Piece(macros: seq<Macro>, tokens: seq<Token>)

  datatype State = State(frames: seq<Frame>, macros: seq<Macro>, output: seq<Piece>)

  predicate Active(s: State) { s.frames == [] || s.frames[|s.frames| - 1].branchActive }

  function Opened(s: State, name: Option<nat>, negated: bool): Option<State> {
    if name.None? then None
    else
      var selected := Known(s.macros, name.value) != negated;
      Some(s.(frames := s.frames + [Frame(Active(s), selected, Active(s) && selected, false)]))
  }

  function WithTop(s: State, f: Frame): State
    requires s.frames != []
  {
    s.(frames := s.frames[..|s.frames| - 1] + [f])
  }

  /** One item of the source; none on a directive error. */
  function Step(s: State, x: Item): Option<State> {
    match x
    case Segment(ts) => Some(if Active(s) then s.(output := s.output + [Piece(s.macros, ts)]) else s)
    case Define(m) => Some(if Active(s) then s.(macros := Added(s.macros, m)) else s)
    case Undefine(n) => Some(if Active(s) then s.(macros := Deactivated(s.macros, n)) else s)
    case IfDefined(n) => Opened(s, n, false)
    case IfNotDefined(n) => Opened(s, n, true)
    case ElseIf(n) =>
      if n.None? || s.frames == [] || s.frames[|s.frames| - 1].sawElse then None
      else
        var f, known := s.frames[|s.frames| - 1], Known(s.macros, n.value);
        Some(WithTop(s, f.(branchActive := f.parentActive && !f.branchTaken && known,
                           branchTaken := f.branchTaken || known)))
    case Else =>
      if s.frames == [] || s.frames[|s.frames| - 1].sawElse then None
      else
        var f := s.frames[|s.frames| - 1];
        Some(WithTop(s, f.(branchActive := f.parentActive && !f.branchTaken, branchTaken := true, sawElse := true)))
    case EndIf => if s.frames == [] then None else Some(s.(frames := s.frames[..|s.frames| - 1]))
  }

  function Run(s: State, items: seq<Item>): Option<State>
    decreases |items|
  {
    if items == [] then Some(s)
    else
      var next := Step(s, items[0]);
      if next.None? then None else Run(next.value, items[1..])
  }

  /** The current table and that of every kept segment have at most one active definition of a name. */
  ghost predicate TablesSingle(s: State) {
    OneActive(s.macros) && forall i :: 0 <= i < |s.output| ==> OneActive(s.output[i].macros)
  }

  lemma {:induction false} TableStaysSingle(s: State, items: seq<Item>)
    requires TablesSingle(s) && Run(s, items).Some?
    ensures TablesSingle(Run(s, items).value)
    decreases |items|
  {
    hide TablesSingle;
    if items != [] {
      TableStepSingle(s, items[0]);
      TableStaysSingle(Step(s, items[0]).value, items[1..]);
    }
  }

  lemma TableStepSingle(s: State, x: Item)
    requires TablesSingle(s) && Step(s, x).Some?
    ensures TablesSingle(Step(s, x).value)
  {
    match x
    case Define(m) => AddedIsFound(s.macros, m);
    case Undefine(n) => DeactivatedForgets(s.macros, n);
    case _ =>
  }

  /** What preprocessing keeps of the items; none on a directive error or an unterminated conditional. */
  function Kept(items: seq<Item>): Option<State> {
    var r := Run(State([], [], []), items);
    if r.Some? && r.value.frames == [] then r else None
  }

  // ----- the structural reading

  datatype Part =
    | Plain(tokens: seq<Token>)
    | Defines(macro: Macro)
    | Undefines(name: nat)
    | Choice(negated: bool, name: nat, first: seq<Part>, arms: seq<Arm>, otherwise: Otherwise)

  datatype Otherwise = NoElse | ElseBody(body: seq<Part>)

  datatype Arm = Arm(name: nat, body: seq<Part>)

  function Flatten(parts: seq<Part>): seq<Item> {
    if parts == [] then [] else FlattenPart(parts[0]) + Flatten(parts[1..])
  }

  function Opener(negated: bool, name: nat): Item { if negated then IfNotDefined(Some(name)) else IfDefined(Some(name)) }

  function FlattenPart(p: Part): seq<Item> {
    match p
    case Plain(ts) => [Segment(ts)]
    case Defines(m) => [Define(m)]
    case Undefines(n) => [Undefine(n)]
    case Choice(negated, name, first, arms, otherwise) =>
      [Opener(negated, name)] + Flatten(first) + FlattenArms(arms) + FlattenOtherwise(otherwise) + [EndIf]
  }

  function FlattenArms(arms: seq<Arm>): seq<Item> {
    if arms == [] then [] else [ElseIf(Some(arms[0].name))] + Flatten(arms[0].body) + FlattenArms(arms[1..])
  }

  function FlattenOtherwise(otherwise: Otherwise): seq<Item> {
    match otherwise
    case NoElse => []
    case ElseBody(parts) => [Else] + Flatten(parts)
  }

  datatype Selection = Selection(output: seq<Piece>, macros: seq<Macro>)

  /** The segments selected, and the macro table afterwards. */
  function Select(parts: seq<Part>, macros: seq<Macro>): Selection
    decreases parts, 2, 0
  {
    if parts == [] then Selection([], macros)
    else
      var head := SelectPart(parts[0], macros);
      var tail := Select(parts[1..], head.macros);
      Selection(head.output + tail.output, tail.macros)
  }

  function SelectPart(p: Part, macros: seq<Macro>): Selection
    decreases p, 1, 0
  {
    match p
    case Plain(ts) => Selection([Piece(macros, ts)], macros)
    case Defines(m) => Selection([], Added(macros, m))
    case Undefines(n) => Selection([], Deactivated(macros, n))
    case Choice(negated, name, first, _, _) =>
      if Known(macros, name) != negated then Select(first, macros) else SelectArms(p, 0, macros)
  }

  /** From the i-th arm on, the first whose macro is macros, else the otherwise part. */
  function SelectArms(p: Part, i: nat, macros: seq<Macro>): Selection
    requires p.Choice? && i <= |p.arms|
    decreases p, 0, |p.arms| - i
  {
    if i == |p.arms| then
      match p.otherwise
      case NoElse => Selection([], macros)
      case ElseBody(parts) => Select(parts, macros)
    else if Known(macros, p.arms[i].name) then Select(p.arms[i].body, macros)
    else SelectArms(p, i + 1, macros)
  }

  // ----- the frames follow the structure

  function Emit(s: State, x: Selection): State { s.(output := s.output + x.output, macros := x.macros) }

  /** What well-nested parts do to the state: nothing where it is inactive. */
  function AfterParts(s: State, parts: seq<Part>): State {
    if Active(s) then Emit(s, Select(parts, s.macros)) else s
  }

  lemma RunOne(s: State, x: Item, rest: seq<Item>)
    ensures Run(s, [x] + rest) == if Step(s, x).Some? then Run(Step(s, x).value, rest) else None
  {
    assert ([x] + rest)[1..] == rest;
  }

  lemma {:induction false} PartsRun(s: State, parts: seq<Part>, rest: seq<Item>)
    ensures Run(s, Flatten(parts) + rest) == Run(AfterParts(s, parts), rest)
    decreases parts, 4, 0
  {
    hide Run, SelectPart, FlattenPart;
    if parts == [] {
      assert Flatten(parts) + rest == rest;
      assert Emit(s, Select(parts, s.macros)) == s;
    } else {
      var tail := Flatten(parts[1..]) + rest;
      assert Flatten(parts) + rest == FlattenPart(parts[0]) + tail;
      PartRuns(s, parts[0], tail);
      var next := AfterParts(s, [parts[0]]);
      SelectOne(parts[0], s.macros);
      PartsRun(next, parts[1..], rest);
      if Active(s) {
        assert s.output + SelectPart(parts[0], s.macros).output + Select(parts[1..], next.macros).output ==
               s.output + (SelectPart(parts[0], s.macros).output + Select(parts[1..], next.macros).output);
      }
    }
  }

  lemma SelectOne(p: Part, macros: seq<Macro>)
    ensures Select([p], macros) == SelectPart(p, macros)
  {
    assert [p][1..] == [];
    assert Select([], SelectPart(p, macros).macros) == Selection([], SelectPart(p, macros).macros);
    assert SelectPart(p, macros).output + [] == SelectPart(p, macros).output;
  }

  lemma {:induction false} PartRuns(s: State, p: Part, rest: seq<Item>)
    ensures Run(s, FlattenPart(p) + rest) == Run(AfterParts(s, [p]), rest)
    decreases p, 3, 0
  {
    SelectOne(p, s.macros);
    match p
    case Plain(ts) => RunOne(s, Segment(ts), rest);
    case Defines(m) =>
      RunOne(s, Define(m), rest);
      assert s.output + [] == s.output;
    case Undefines(n) =>
      RunOne(s, Undefine(n), rest);
      assert s.output + [] == s.output;
    case Choice(_, _, _, _, _) => ChoiceRuns(s, p, rest);
  }

  lemma {:induction false} ChoiceRuns(s: State, p: Part, rest: seq<Item>)
    requires p.Choice?
    ensures Run(s, FlattenPart(p) + rest) == Run(AfterParts(s, [p]), rest)
    decreases p, 2, 0
  {
    var selected := Known(s.macros, p.name) != p.negated;
    var frame := Frame(Active(s), selected, Active(s) && selected, false);
    var entered := s.(frames := s.frames + [frame]);
    var after := FlattenArms(p.arms) + FlattenOtherwise(p.otherwise) + [EndIf] + rest;
    RegroupChoice([Opener(p.negated, p.name)], Flatten(p.first), FlattenArms(p.arms), FlattenOtherwise(p.otherwise), [EndIf], rest);
    ChoiceDone(s, p, frame);
    assert p.arms[0..] == p.arms && Step(s, Opener(p.negated, p.name)) == Some(entered);
    hide *;
    RunOne(s, Opener(p.negated, p.name), Flatten(p.first) + after);
    PartsRun(entered, p.first, after);
    ArmsRun(s.frames, AfterParts(entered, p.first), frame, p, 0, rest);
  }

  lemma RegroupChoice(o: seq<Item>, f: seq<Item>, a: seq<Item>, e: seq<Item>, z: seq<Item>, rest: seq<Item>)
    ensures o + f + a + e + z + rest == o + (f + (a + e + z + rest))
  {
  }

  /** The first branch, then the arms: at most one of them is kept. */
  lemma ChoiceDone(s: State, p: Part, frame: Frame)
    requires p.Choice?
    requires var selected := Known(s.macros, p.name) != p.negated;
             frame == Frame(Active(s), selected, Active(s) && selected, false)
    ensures var after := AfterParts(s.(frames := s.frames + [frame]), p.first);
            after.frames == s.frames + [frame] && AfterArms(after.(frames := s.frames), frame, p, 0) == AfterParts(s, [p])
  {
    SelectOne(p, s.macros);
    assert s.output + [] == s.output;
  }

  /** The frame after an `elsif. */
  function NextArm(f: Frame, known: bool): Frame {
    f.(branchActive := f.parentActive && !f.branchTaken && known, branchTaken := f.branchTaken || known)
  }

  /** What the rest of a choice does to the state outside it. */
  function AfterArms(closed: State, f: Frame, p: Part, i: nat): State
    requires p.Choice? && i <= |p.arms|
  {
    if f.parentActive && !f.branchTaken then Emit(closed, SelectArms(p, i, closed.macros)) else closed
  }

  /** The remaining arms, the otherwise part and the end of a choice whose frame is on top. */
  lemma {:induction false} ArmsRun(outer: seq<Frame>, s: State, f: Frame, p: Part, i: nat, rest: seq<Item>)
    requires p.Choice? && i <= |p.arms| && s.frames == outer + [f] && !f.sawElse
    ensures Run(s, FlattenArms(p.arms[i..]) + FlattenOtherwise(p.otherwise) + [EndIf] + rest) ==
            Run(AfterArms(s.(frames := outer), f, p, i), rest)
    decreases p, 1, |p.arms| - i
  {
    hide Run, AfterArms, AfterParts, Flatten, FlattenOtherwise;
    if i == |p.arms| {
      OtherwiseRuns(outer, s, f, p, rest);
      assert FlattenArms(p.arms[i..]) == [];
      assert [] + FlattenOtherwise(p.otherwise) + [EndIf] + rest == FlattenOtherwise(p.otherwise) + ([EndIf] + rest);
    } else {
      var arm := p.arms[i];
      var g := NextArm(f, Known(s.macros, arm.name));
      var next := s.(frames := outer + [g]);
      var after := FlattenArms(p.arms[i + 1..]) + FlattenOtherwise(p.otherwise) + [EndIf] + rest;
      ArmsUnfold(p.arms, i);
      assert FlattenArms(p.arms[i..]) + FlattenOtherwise(p.otherwise) + [EndIf] + rest ==
             [ElseIf(Some(arm.name))] + (Flatten(arm.body) + after);
      assert s.frames[..|s.frames| - 1] == outer;
      RunOne(s, ElseIf(Some(arm.name)), Flatten(arm.body) + after);
      PartsRun(next, arm.body, after);
      ArmDone(outer, s, f, p, i);
      ArmsRun(outer, AfterParts(next, arm.body), g, p, i + 1, rest);
    }
  }

  lemma ArmsUnfold(arms: seq<Arm>, i: nat)
    requires i < |arms|
    ensures FlattenArms(arms[i..]) == [ElseIf(Some(arms[i].name))] + Flatten(arms[i].body) + FlattenArms(arms[i + 1..])
  {
    assert arms[i..][0] == arms[i] && arms[i..][1..] == arms[i + 1..];
  }

  /** One arm, then the rest: at most one of them is kept. */
  lemma ArmDone(outer: seq<Frame>, s: State, f: Frame, p: Part, i: nat)
    requires p.Choice? && i < |p.arms| && s.frames == outer + [f]
    ensures var g := NextArm(f, Known(s.macros, p.arms[i].name));
            var after := AfterParts(s.(frames := outer + [g]), p.arms[i].body);
            after.frames == outer + [g] && AfterArms(after.(frames := outer), g, p, i + 1) == AfterArms(s.(frames := outer), f, p, i)
  {
  }

  lemma {:induction false} OtherwiseRuns(outer: seq<Frame>, s: State, f: Frame, p: Part, rest: seq<Item>)
    requires p.Choice? && s.frames == outer + [f] && !f.sawElse
    ensures Run(s, FlattenOtherwise(p.otherwise) + ([EndIf] + rest)) ==
            Run(AfterArms(s.(frames := outer), f, p, |p.arms|), rest)
    decreases p, 0, 0
  {
    assert s.frames[..|s.frames| - 1] == outer;
    match p.otherwise
    case NoElse =>
      assert FlattenOtherwise(p.otherwise) + ([EndIf] + rest) == [EndIf] + rest;
      RunOne(s, EndIf, rest);
      assert s.output + [] == s.output;
    case ElseBody(parts) =>
      var g := f.(branchActive := f.parentActive && !f.branchTaken, branchTaken := true, sawElse := true);
      var next := s.(frames := outer + [g]);
      assert FlattenOtherwise(p.otherwise) + ([EndIf] + rest) == [Else] + (Flatten(parts) + ([EndIf] + rest));
      RunOne(s, Else, Flatten(parts) + ([EndIf] + rest));
      PartsRun(next, parts, [EndIf] + rest);
      var done := AfterParts(next, parts);
      RunOne(done, EndIf, rest);
      assert done.frames[..|done.frames| - 1] == outer;
  }

  /** Well-nested items are accepted, and exactly what their structure selects is kept, each name defined once at a time. */
  lemma {:induction false} StructureIsKept(parts: seq<Part>)
    ensures var x := Select(parts, []);
            Kept(Flatten(parts)) == Some(State([], x.macros, x.output)) && TablesSingle(State([], x.macros, x.output))
  {
    var s := State([], [], []);
    PartsRun(s, parts, []);
    assert Flatten(parts) + [] == Flatten(parts);
    assert [] + Select(parts, []).output == Select(parts, []).output;
    TableStaysSingle(s, Flatten(parts));
  }

  // ----- only well-nested items are accepted

  /** How far the branches of an open choice have been read: the finished ones and the header of the current one. */
  datatype Read =
    | InFirst
    | InArm(first: seq<Part>, arms: seq<Arm>, name: nat)
    | InElse(first: seq<Part>, arms: seq<Arm>)

  /** A choice still open: what stands before it, its opener and the branches read. */
  datatype Open = Open(before: seq<Part>, negated: bool, name: nat, read: Read)

  function FlattenOpen(o: Open): seq<Item> {
    Flatten(o.before) + [Opener(o.negated, o.name)] +
    match o.read
    case InFirst => []
    case InArm(first, arms, name) => Flatten(first) + FlattenArms(arms) + [ElseIf(Some(name))]
    case InElse(first, arms) => Flatten(first) + FlattenArms(arms) + [Else]
  }

  function FlattenOpens(os: seq<Open>): seq<Item> {
    if os == [] then [] else FlattenOpens(os[..|os| - 1]) + FlattenOpen(os[|os| - 1])
  }

  /** The choice that an `endif completes. */
  function Completed(o: Open, current: seq<Part>): Part {
    match o.read
    case InFirst => Choice(o.negated, o.name, current, [], NoElse)
    case InArm(first, arms, name) => Choice(o.negated, o.name, first, arms + [Arm(name, current)], NoElse)
    case InElse(first, arms) => Choice(o.negated, o.name, first, arms, ElseBody(current))
  }

  lemma {:induction false} FlattenJoin(x: seq<Part>, y: seq<Part>)
    ensures Flatten(x + y) == Flatten(x) + Flatten(y)
    decreases |x|
  {
    if x == [] {
      assert x + y == y;
    } else {
      assert (x + y)[1..] == x[1..] + y;
      FlattenJoin(x[1..], y);
    }
  }

  lemma FlattenOne(p: Part)
    ensures Flatten([p]) == FlattenPart(p)
  {
    assert [p][1..] == [] && FlattenPart(p) + [] == FlattenPart(p);
  }

  lemma {:induction false} FlattenArmsLast(arms: seq<Arm>, a: Arm)
    ensures FlattenArms(arms + [a]) == FlattenArms(arms) + [ElseIf(Some(a.name))] + Flatten(a.body)
    decreases |arms|
  {
    if arms == [] {
      assert ([] + [a])[1..] == [];
      assert FlattenArms([a]) == [ElseIf(Some(a.name))] + Flatten(a.body) + [];
    } else {
      assert (arms + [a])[0] == arms[0] && (arms + [a])[1..] == arms[1..] + [a];
      FlattenArmsLast(arms[1..], a);
    }
  }

  lemma RegroupFirst(b: seq<Item>, o: seq<Item>, c: seq<Item>, e: seq<Item>)
    ensures b + (o + c + [] + [] + e) == b + o + [] + c + e
    ensures b + o + (c + [] + e) == b + o + [] + c + e
  {
  }

  lemma RegroupArm(b: seq<Item>, o: seq<Item>, f: seq<Item>, a: seq<Item>, h: seq<Item>, c: seq<Item>, e: seq<Item>)
    ensures b + (o + f + (a + h + c) + [] + e) == b + o + (f + a + h) + c + e
    ensures b + o + (f + (a + h + c) + e) == b + o + (f + a + h) + c + e
  {
  }

  lemma RegroupElse(b: seq<Item>, o: seq<Item>, f: seq<Item>, a: seq<Item>, h: seq<Item>, c: seq<Item>, e: seq<Item>)
    ensures b + (o + f + a + (h + c) + e) == b + o + (f + a + h) + c + e
  {
  }

  /** Closing a choice adds its `endif to what was read. */
  lemma CompletedFlattens(o: Open, current: seq<Part>)
    ensures Flatten(o.before + [Completed(o, current)]) == FlattenOpen(o) + Flatten(current) + [EndIf]
  {
    var p, op := Completed(o, current), [Opener(o.negated, o.name)];
    FlattenJoin(o.before, [p]);
    FlattenOne(p);
    hide Flatten, FlattenArms, Opener;
    match o.read
    case InFirst =>
      NoArms();
      RegroupFirst(Flatten(o.before), op, Flatten(current), [EndIf]);
    case InArm(first, arms, name) =>
      FlattenArmsLast(arms, Arm(name, current));
      RegroupArm(Flatten(o.before), op, Flatten(first), FlattenArms(arms), [ElseIf(Some(name))], Flatten(current), [EndIf]);
    case InElse(first, arms) =>
      RegroupElse(Flatten(o.before), op, Flatten(first), FlattenArms(arms), [Else], Flatten(current), [EndIf]);
  }

  lemma NoArms()
    ensures FlattenArms([]) == []
  {
  }

  /** The items read so far are a stack of open choices, as many as there are frames, and finished parts. */
  ghost predicate Reads(s: State, items: seq<Item>, os: seq<Open>, current: seq<Part>) {
    && items == FlattenOpens(os) + Flatten(current) && |os| == |s.frames|
    && forall i :: 0 <= i < |os| ==> (s.frames[i].sawElse <==> os[i].read.InElse?)
  }

  /** One accepted item keeps the reading going. */
  lemma ReadsStep(s: State, items: seq<Item>, os: seq<Open>, current: seq<Part>, x: Item) returns (os': seq<Open>, now: seq<Part>)
    requires Reads(s, items, os, current) && Step(s, x).Some?
    ensures Reads(Step(s, x).value, items + [x], os', now)
  {
    hide FlattenOpens, FlattenOpen, Flatten;
    os', now := os, current;
    match x
    case Segment(ts) => now := ReadsPart(items, os, current, Plain(ts), x);
    case Define(m) => now := ReadsPart(items, os, current, Defines(m), x);
    case Undefine(n) => now := ReadsPart(items, os, current, Undefines(n), x);
    case IfDefined(n) => os', now := ReadsOpener(s, items, os, current, x, false, n.value);
    case IfNotDefined(n) => os', now := ReadsOpener(s, items, os, current, x, true, n.value);
    case ElseIf(n) => os', now := ReadsBranch(s, items, os, current, x);
    case Else => os', now := ReadsBranch(s, items, os, current, x);
    case EndIf => os', now := ReadsEnd(s, items, os, current);
  }

  lemma ReadsOpener(s: State, items: seq<Item>, os: seq<Open>, current: seq<Part>, x: Item, negated: bool, name: nat)
    returns (os': seq<Open>, now: seq<Part>)
    requires Reads(s, items, os, current) && x == Opener(negated, name)
    ensures Reads(Step(s, x).value, items + [x], os', now)
  {
    os', now := os + [Open(current, negated, name, InFirst)], [];
    assert os'[..|os|] == os;
    assert items + [x] == FlattenOpens(os) + (Flatten(current) + [x] + []) + [];
  }

  lemma ReadsEnd(s: State, items: seq<Item>, os: seq<Open>, current: seq<Part>) returns (os': seq<Open>, now: seq<Part>)
    requires Reads(s, items, os, current) && os != []
    ensures Reads(Step(s, EndIf).value, items + [EndIf], os', now)
  {
    var front, top := os[..|os| - 1], os[|os| - 1];
    os', now := front, top.before + [Completed(top, current)];
    CompletedFlattens(top, current);
    LastOpen(os);
    hide FlattenOpens, FlattenOpen, Flatten, Completed;
    Regroup(FlattenOpens(front), FlattenOpen(top), Flatten(current), [EndIf]);
    assert Step(s, EndIf).value.frames == s.frames[..|s.frames| - 1];
  }

  lemma LastOpen(os: seq<Open>)
    requires os != []
    ensures FlattenOpens(os) == FlattenOpens(os[..|os| - 1]) + FlattenOpen(os[|os| - 1])
  {
  }

  lemma Regroup(a: seq<Item>, b: seq<Item>, c: seq<Item>, d: seq<Item>)
    ensures a + b + c + d == a + (b + c + d)
  {
  }

  lemma ReadsPart(items: seq<Item>, os: seq<Open>, current: seq<Part>, p: Part, x: Item) returns (now: seq<Part>)
    requires items == FlattenOpens(os) + Flatten(current) && FlattenPart(p) == [x]
    ensures items + [x] == FlattenOpens(os) + Flatten(now)
  {
    now := current + [p];
    FlattenJoin(current, [p]);
    FlattenOne(p);
    assert items + [x] == FlattenOpens(os) + (Flatten(current) + [x]);
  }

  /** The branches after one more `elsif or `else. */
  function NextRead(r: Read, current: seq<Part>, x: Item): Read
    requires !r.InElse? && (x.Else? || (x.ElseIf? && x.macroName.Some?))
  {
    var first := if r.InFirst? then current else r.first;
    var arms := if r.InFirst? then [] else r.arms + [Arm(r.name, current)];
    if x.Else? then InElse(first, arms) else InArm(first, arms, x.macroName.value)
  }

  lemma NextReadFlattens(o: Open, current: seq<Part>, x: Item)
    requires !o.read.InElse? && (x.Else? || (x.ElseIf? && x.macroName.Some?))
    ensures FlattenOpen(o.(read := NextRead(o.read, current, x))) == FlattenOpen(o) + Flatten(current) + [x]
  {
    var op := [Opener(o.negated, o.name)];
    hide Flatten, FlattenArms, Opener;
    NoArms();
    if o.read.InArm? {
      var r := o.read;
      FlattenArmsLast(r.arms, Arm(r.name, current));
      RegroupArm(Flatten(o.before), op, Flatten(r.first), FlattenArms(r.arms), [ElseIf(Some(r.name))], Flatten(current), [x]);
    } else {
      RegroupFirst(Flatten(o.before), op, Flatten(current), [x]);
    }
  }

  lemma ReadsBranch(s: State, items: seq<Item>, os: seq<Open>, current: seq<Part>, x: Item) returns (os': seq<Open>, now: seq<Part>)
    requires Reads(s, items, os, current) && Step(s, x).Some? && (x.Else? || x.ElseIf?)
    ensures Reads(Step(s, x).value, items + [x], os', now)
  {
    var front, top := os[..|os| - 1], os[|os| - 1];
    assert s.frames[|os| - 1].sawElse <==> top.read.InElse?;
    var next := top.(read := NextRead(top.read, current, x));
    os', now := front + [next], [];
    NextReadFlattens(top, current, x);
    assert os'[..|os'| - 1] == front;
    assert FlattenOpens(os) == FlattenOpens(front) + FlattenOpen(top) && Flatten([]) == [];
    hide FlattenOpen, Flatten;
    Regroup(FlattenOpens(front), FlattenOpen(top), Flatten(current), [x]);
    assert FlattenOpens(os') + [] == FlattenOpens(os');
  }

  lemma {:induction false} ReadsRun(s: State, items: seq<Item>, os: seq<Open>, current: seq<Part>, rest: seq<Item>)
    returns (os': seq<Open>, now: seq<Part>)
    requires Reads(s, items, os, current) && Run(s, rest).Some?
    ensures Reads(Run(s, rest).value, items + rest, os', now)
    decreases |rest|
  {
    if rest == [] {
      os', now := os, current;
      assert items + rest == items;
    } else {
      os', now := ReadsStep(s, items, os, current, rest[0]);
      os', now := ReadsRun(Step(s, rest[0]).value, items + [rest[0]], os', now, rest[1..]);
      assert items + rest == items + [rest[0]] + rest[1..];
    }
  }

  /** Preprocessing accepts exactly the flattened structures, so every accepted source is read structurally. */
  lemma {:induction false} AcceptedIffNested(items: seq<Item>)
    ensures Kept(items).Some? <==> exists parts :: Flatten(parts) == items
  {
    var s := State([], [], []);
    if Kept(items).Some? {
      assert Reads(s, [], [], []);
      var os, parts := ReadsRun(s, [], [], [], items);
      assert [] + items == items && FlattenOpens(os) + Flatten(parts) == Flatten(parts);
      assert Flatten(parts) == items;
    }
    if parts :| Flatten(parts) == items {
      StructureIsKept(parts);
    }
  }
}
