/** What the operators look like, how tightly they bind and how they associate, told from the characters read. */
module Grammar {
  import opened Options
  import opened Syntax
  import opened Parsing
  import opened ParseSound
  import opened ParseComplete
  import opened Decorations
  import opened Lexing
  import opened PrintedText
  import opened Printing

  // ----- the language, written down on its own

  function Spelling(op: BinaryOp): string {
    match op
    case LogicalOr => "||" case LogicalAnd => "&&"
    case BitwiseOr => "|" case BitwiseXor => "^" case BitwiseXnor => "~^" case BitwiseAnd => "&"
    case Equal => "==" case NotEqual => "!=" case CaseEqual => "===" case CaseNotEqual => "!=="
    case WildcardEqual => "==?" case WildcardNotEqual => "!=?"
    case Less => "<" case LessEqual => "<=" case Greater => ">" case GreaterEqual => ">="
    case ShiftLeft => "<<" case ShiftRight => ">>" case ArithShiftLeft => "<<<" case ArithShiftRight => ">>>"
    case Add => "+" case Subtract => "-" case Multiply => "*" case Divide => "/" case Modulo => "%" case Power => "**"
  }

  function Prefix(op: UnaryOp): string {
    match op
    case Positive => "+" case Negate => "-" case LogicalNot => "!" case BitwiseNot => "~"
    case ReductionAnd => "&" case ReductionNand => "~&" case ReductionOr => "|" case ReductionNor => "~|"
    case ReductionXor => "^" case ReductionXnor => "~^"
  }

  /** The operators from the loosest class to the tightest. */
  const CLASSES: seq<seq<BinaryOp>> :=
    [[LogicalOr], [LogicalAnd], [BitwiseOr], [BitwiseXor, BitwiseXnor], [BitwiseAnd],
     [Equal, NotEqual, CaseEqual, CaseNotEqual, WildcardEqual, WildcardNotEqual],
     [Less, LessEqual, Greater, GreaterEqual], [ShiftLeft, ShiftRight, ArithShiftLeft, ArithShiftRight],
     [Add, Subtract], [Multiply, Divide, Modulo], [Power]]

  ghost predicate Tighter(chain: seq<seq<BinaryOp>>, a: BinaryOp, b: BinaryOp) {
    exists i, j :: 0 <= i < j < |chain| && b in chain[i] && a in chain[j]
  }

  /** In `a first b second c`, the second operator takes b: it is tighter, or both are `**`. */
  ghost predicate SecondTakes(first: BinaryOp, second: BinaryOp) {
    Tighter(CLASSES, second, first) || (first == Power && second == Power)
  }

  // ----- the tables agree with it

  lemma SpellingIsText(op: BinaryOp)
    ensures SymbolText(BinaryText(op)) == Spelling(op)
  {
  }

  lemma PrefixIsText(op: UnaryOp)
    ensures SymbolText(UnaryText(op)) == Prefix(op)
  {
  }

  /** Every operator stands in one class, which its precedence numbers. */
  lemma OwnClass(op: BinaryOp, k: nat)
    requires k < |CLASSES|
    ensures op in CLASSES[k] <==> k + 2 == Precedence(op)
  {
    HasItsClass(op);
    if i :| 0 <= i < |CLASSES[k]| && CLASSES[k][i] == op {
      MembersOf(k, i);
    }
    hide CLASSES, Precedence;
  }

  lemma HasItsClass(op: BinaryOp)
    ensures Precedence(op) - 2 < |CLASSES| && op in CLASSES[Precedence(op) - 2]
  {
  }

  lemma MembersOf(k: nat, i: nat)
    requires k < |CLASSES| && i < |CLASSES[k]|
    ensures Precedence(CLASSES[k][i]) == k + 2
  {
  }

  lemma TighterIsHigher(a: BinaryOp, b: BinaryOp)
    ensures Tighter(CLASSES, a, b) <==> Precedence(a) > Precedence(b)
  {
    var chain := CLASSES;
    assert |chain| == 11;
    forall op: BinaryOp, k | 0 <= k < |chain|
      ensures op in chain[k] <==> k + 2 == Precedence(op)
    {
      OwnClass(op, k);
    }
    hide *;
    TighterInChain(chain, op => Precedence(op), a, b);
  }

  lemma TighterInChain(chain: seq<seq<BinaryOp>>, rank: BinaryOp -> nat, a: BinaryOp, b: BinaryOp)
    requires forall op: BinaryOp, k :: 0 <= k < |chain| ==> (op in chain[k] <==> k + 2 == rank(op))
    requires 2 <= rank(a) < |chain| + 2 && 2 <= rank(b) < |chain| + 2
    ensures Tighter(chain, a, b) <==> rank(a) > rank(b)
  {
    assert a in chain[rank(a) - 2] && b in chain[rank(b) - 2];
  }

  /** The second operator is taken into the right operand of the first exactly where it takes b. */
  lemma SecondTakesByTable(first: BinaryOp, second: BinaryOp)
    ensures SecondTakes(first, second) <==> RightMinimum(first) <= Precedence(second)
  {
    TighterIsHigher(second, first);
    if Precedence(first) == Precedence(second) {
      SameClassAsPower(first, second);
    }
    hide Tighter, Precedence;
  }

  lemma SameClassAsPower(first: BinaryOp, second: BinaryOp)
    requires Precedence(first) == Precedence(second)
    ensures first == Power <==> second == Power
  {
  }

  // ----- words and spaces

  predicate Digit(code: int) { 48 <= code <= 57 }

  /** Small and capital letters, digits, the underscore and the dollar sign, by their ASCII codes. */
  predicate InWords(code: int) { 97 <= code <= 122 || 65 <= code <= 90 || Digit(code) || code == 95 || code == 36 }

  lemma WordsAre(w: string)
    ensures IsIdentifier(w) <==>
            w != "" && !Digit(w[0] as int) && forall i :: 0 <= i < |w| ==> InWords(w[i] as int)
  {
  }

  /** Blanks, tabs, line feeds, vertical tabs, form feeds and carriage returns separate tokens and are none. */
  lemma SpacesSeparate(c: char, s: string)
    ensures IsSpace(c) <==> (c as int) in [32, 9, 10, 11, 12, 13]
    ensures IsSpace(c) ==> Lex([c] + s) == Lex(s)
  {
    assert ([c] + s)[1..] == s;
  }

  // ----- symbols

  const SYMBOLS: seq<string> :=
    ["<<<=", ">>>=", "<<=", ">>=", "===", "!==", "==?", "!=?", "<<<", ">>>", "**", "<=", ">=", "==", "!=", "&&", "||",
     "<<", ">>", "~&", "~|", "~^", "^~", "+:", "-:", "++", "--", "+=", "-=", "*=", "/=", "%=", "&=", "|=", "^=", "->", "::"]

  /** The longest symbol that fits is taken, and a single character where none does. */
  lemma LongestSymbol(s: string, i: nat)
    requires s != "" && i < |SYMBOLS|
    ensures SYMBOLS[i] <= s ==> |SYMBOLS[i]| <= SymbolLength(s)
    ensures SymbolLength(s) > 1 ==> s[..SymbolLength(s)] in SYMBOLS
  {
    SymbolTaken(s);
    hide *;
    if SYMBOLS[i] <= s {
      SymbolFits(s, i);
    }
  }

  lemma SymbolTaken(s: string)
    requires s != ""
    ensures SymbolLength(s) > 1 ==> s[..SymbolLength(s)] in SYMBOLS
  {
    hide SYMBOLS, IsSymbol2, IsSymbol3, IsSymbol4;
    var n := SymbolLength(s);
    if n == 2 {
      TwoCharacters(s[0], s[1]);
      assert s[..2] == [s[0], s[1]];
    } else if n == 3 {
      ThreeCharacters(s[0], s[1], s[2]);
      assert s[..3] == [s[0], s[1], s[2]];
    } else if n == 4 {
      FourCharacters(s[0], s[1], s[2], s[3]);
      assert s[..4] == [s[0], s[1], s[2], s[3]];
    }
  }

  lemma SymbolFits(s: string, i: nat)
    requires i < |SYMBOLS| && SYMBOLS[i] <= s
    ensures s != "" && |SYMBOLS[i]| <= SymbolLength(s)
  {
    var w := SYMBOLS[i];
    assert 2 <= |w| <= 4 && forall k :: 0 <= k < |w| ==> s[k] == w[k];
    assert |w| == 4 ==> IsSymbol4(w[0], w[1], w[2], w[3]);
    assert |w| == 3 ==> IsSymbol3(w[0], w[1], w[2]);
    assert |w| == 2 ==> IsSymbol2(w[0], w[1]);
    hide SYMBOLS, IsSymbol2, IsSymbol3, IsSymbol4;
  }

  lemma TwoCharacters(a: char, b: char)
    ensures IsSymbol2(a, b) ==> [a, b] in SYMBOLS
  {
    var w := [a, b];
    if IsSymbol2(a, b) {
      assert w in SYMBOLS[10..];
    }
  }

  lemma FourCharacters(a: char, b: char, c: char, d: char)
    ensures IsSymbol4(a, b, c, d) ==> [a, b, c, d] in SYMBOLS
  {
    if IsSymbol4(a, b, c, d) {
      assert [a, b, c, d] == SYMBOLS[0] || [a, b, c, d] == SYMBOLS[1];
    }
  }

  lemma ThreeCharacters(a: char, b: char, c: char)
    ensures IsSymbol3(a, b, c) ==> [a, b, c] in SYMBOLS
  {
    var w := [a, b, c];
    if IsSymbol3(a, b, c) {
      assert w == SYMBOLS[2] || w == SYMBOLS[3] || w == SYMBOLS[4] || w == SYMBOLS[5] || w == SYMBOLS[6]
             || w == SYMBOLS[7] || w == SYMBOLS[8] || w == SYMBOLS[9];
    }
  }

  // ----- what is read

  /** A well-shaped tree of plain names without fusing operators, and its text. */
  ghost predicate Clean(t: Tree, text: string) { Plain(t) && Readable(t) && Unfused(t) && Shaped(t) && Text(t) == text }

  lemma CleanIsRead(t: Tree, text: string)
    requires Clean(t, text)
    ensures Read(text) == Some(t)
  {
    hide Lex, Text, Yield, Unfused, Plain, Readable, Shaped, Parse;
    TextReads(t);
    YieldParses(t);
  }

  lemma CleanName(a: string)
    requires IsIdentifier(a)
    ensures Clean(Name(a), a)
  {
  }

  lemma CleanPrefix(op: UnaryOp, a: string)
    requires IsIdentifier(a)
    ensures Clean(Unary(op, Name(a)), Prefix(op) + a)
  {
    OneOperator(op);
    assert Heads(Name(a)) == [];
    PrefixIsText(op);
  }

  lemma CleanBinary(op: BinaryOp, l: Tree, left: string, r: Tree, right: string)
    requires Clean(l, left) && Clean(r, right) && LeftFits(l, op) && Fits(r, RightMinimum(op))
    ensures Clean(Binary(op, l, r), left + " " + Spelling(op) + " " + right)
  {
    SpellingIsText(op);
    hide Spelling, SymbolText, BinaryText, LeftFits, Fits, RightMinimum;
  }

  lemma CleanGroup(x: Tree, text: string)
    requires Clean(x, text)
    ensures Clean(Group(x), "(" + text + ")")
  {
  }

  lemma CleanConditional(c: Tree, condition: string, x: Tree, whenTrue: string, y: Tree, whenFalse: string)
    requires Clean(c, condition) && Clean(x, whenTrue) && Clean(y, whenFalse) && !c.Conditional?
    ensures Clean(Conditional(c, x, y), condition + " ? " + whenTrue + " : " + whenFalse)
  {
  }

  lemma LeftChain(a: string, first: BinaryOp, b: string, second: BinaryOp, c: string)
    requires IsIdentifier(a) && IsIdentifier(b) && IsIdentifier(c) && Precedence(second) < RightMinimum(first)
    ensures Read(a + " " + Spelling(first) + " " + b + " " + Spelling(second) + " " + c) ==
            Some(Binary(second, Binary(first, Name(a), Name(b)), Name(c)))
  {
    CleanName(a);
    CleanName(b);
    CleanName(c);
    var inner, text := Binary(first, Name(a), Name(b)), a + " " + Spelling(first) + " " + b;
    assert LeftFits(inner, second) && Fits(Name(b), RightMinimum(first)) && Fits(Name(c), RightMinimum(second));
    assert LeftFits(Name(a), first);
    hide *;
    CleanBinary(first, Name(a), a, Name(b), b);
    CleanBinary(second, inner, text, Name(c), c);
    CleanIsRead(Binary(second, inner, Name(c)), text + " " + Spelling(second) + " " + c);
  }

  lemma RightChain(a: string, first: BinaryOp, b: string, second: BinaryOp, c: string)
    requires IsIdentifier(a) && IsIdentifier(b) && IsIdentifier(c) && RightMinimum(first) <= Precedence(second)
    ensures Read(a + " " + Spelling(first) + " " + (b + " " + Spelling(second) + " " + c)) ==
            Some(Binary(first, Name(a), Binary(second, Name(b), Name(c))))
  {
    CleanName(a);
    CleanName(b);
    CleanName(c);
    var inner, text := Binary(second, Name(b), Name(c)), b + " " + Spelling(second) + " " + c;
    assert Fits(inner, RightMinimum(first)) && LeftFits(Name(b), second) && Fits(Name(c), RightMinimum(second));
    assert LeftFits(Name(a), first);
    hide *;
    CleanBinary(second, Name(b), b, Name(c), c);
    CleanBinary(first, Name(a), a, inner, text);
    CleanIsRead(Binary(first, Name(a), inner), a + " " + Spelling(first) + " " + text);
  }

  /**
   * Of two operators in a row the tighter one takes the operand between them, and of two in the same class the first,
   * except that of two `**` the second does.
   */
  lemma ChainReads(a: string, first: BinaryOp, b: string, second: BinaryOp, c: string)
    requires IsIdentifier(a) && IsIdentifier(b) && IsIdentifier(c)
    ensures Read(a + " " + Spelling(first) + " " + b + " " + Spelling(second) + " " + c) ==
            Some(if SecondTakes(first, second) then Binary(first, Name(a), Binary(second, Name(b), Name(c)))
                 else Binary(second, Binary(first, Name(a), Name(b)), Name(c)))
  {
    SecondTakesByTable(first, second);
    RightText(a, Spelling(first), b, Spelling(second), c);
    hide *;
    if SecondTakes(first, second) {
      RightChain(a, first, b, second, c);
    } else {
      LeftChain(a, first, b, second, c);
    }
  }

  lemma RightText(a: string, s: string, b: string, t: string, c: string)
    ensures a + " " + s + " " + (b + " " + t + " " + c) == a + " " + s + " " + b + " " + t + " " + c
  {
  }

  /** A prefix operator takes its operand before any binary operator does. */
  lemma PrefixReads(op: UnaryOp, a: string, second: BinaryOp, b: string)
    requires IsIdentifier(a) && IsIdentifier(b)
    ensures Read(Prefix(op) + a + " " + Spelling(second) + " " + b) == Some(Binary(second, Unary(op, Name(a)), Name(b)))
  {
    CleanPrefix(op, a);
    CleanName(b);
    hide Spelling, Prefix, Precedence, RightMinimum, Read, IsIdentifier, Clean;
    CleanBinary(second, Unary(op, Name(a)), Prefix(op) + a, Name(b), b);
    CleanIsRead(Binary(second, Unary(op, Name(a)), Name(b)), Prefix(op) + a + " " + Spelling(second) + " " + b);
  }

  /** A group stands for its content on either side of any operator. */
  lemma GroupReads(a: string, first: BinaryOp, b: string, second: BinaryOp, c: string)
    requires IsIdentifier(a) && IsIdentifier(b) && IsIdentifier(c)
    ensures Read("(" + (a + " " + Spelling(first) + " " + b) + ")" + " " + Spelling(second) + " " + c) ==
            Some(Binary(second, Group(Binary(first, Name(a), Name(b))), Name(c)))
    ensures Read(a + " " + Spelling(first) + " " + ("(" + (b + " " + Spelling(second) + " " + c) + ")")) ==
            Some(Binary(first, Name(a), Group(Binary(second, Name(b), Name(c)))))
  {
    CleanName(a);
    CleanName(b);
    CleanName(c);
    hide Spelling, Precedence, RightMinimum, Read, IsIdentifier, Clean;
    var x, y, z, s, t := Name(a), Name(b), Name(c), Spelling(first), Spelling(second);
    CleanBinary(first, x, a, y, b);
    CleanBinary(second, y, b, z, c);
    CleanGroup(Binary(first, x, y), a + " " + s + " " + b);
    CleanGroup(Binary(second, y, z), b + " " + t + " " + c);
    var left, right := "(" + (a + " " + s + " " + b) + ")", "(" + (b + " " + t + " " + c) + ")";
    CleanBinary(second, Group(Binary(first, x, y)), left, z, c);
    CleanBinary(first, x, a, Group(Binary(second, y, z)), right);
    CleanIsRead(Binary(second, Group(Binary(first, x, y)), z), left + " " + t + " " + c);
    CleanIsRead(Binary(first, x, Group(Binary(second, y, z))), a + " " + s + " " + right);
  }

  /** A conditional is looser than every operator and takes another one in either branch. */
  lemma ConditionalReads(a: string, op: BinaryOp, b: string, c: string, d: string, e: string, f: string)
    requires IsIdentifier(a) && IsIdentifier(b) && IsIdentifier(c) && IsIdentifier(d) && IsIdentifier(e) && IsIdentifier(f)
    ensures Read((a + " " + Spelling(op) + " " + b) + " ? " + c + " : " + (d + " ? " + e + " : " + f)) ==
            Some(Conditional(Binary(op, Name(a), Name(b)), Name(c), Conditional(Name(d), Name(e), Name(f))))
    ensures Read(a + " ? " + (b + " ? " + c + " : " + d) + " : " + (e + " " + Spelling(op) + " " + f)) ==
            Some(Conditional(Name(a), Conditional(Name(b), Name(c), Name(d)), Binary(op, Name(e), Name(f))))
  {
    CleanName(a);
    CleanName(b);
    CleanName(c);
    CleanName(d);
    CleanName(e);
    CleanName(f);
    hide Spelling, Precedence, RightMinimum, Read, IsIdentifier, Clean;
    var ab, ef := a + " " + Spelling(op) + " " + b, e + " " + Spelling(op) + " " + f;
    var def, bcd := d + " ? " + e + " : " + f, b + " ? " + c + " : " + d;
    CleanBinary(op, Name(a), a, Name(b), b);
    CleanBinary(op, Name(e), e, Name(f), f);
    CleanConditional(Name(d), d, Name(e), e, Name(f), f);
    CleanConditional(Name(b), b, Name(c), c, Name(d), d);
    var outer := Conditional(Binary(op, Name(a), Name(b)), Name(c), Conditional(Name(d), Name(e), Name(f)));
    var other := Conditional(Name(a), Conditional(Name(b), Name(c), Name(d)), Binary(op, Name(e), Name(f)));
    CleanConditional(outer.condition, ab, outer.whenTrue, c, outer.whenFalse, def);
    CleanConditional(other.condition, a, other.whenTrue, bcd, other.whenFalse, ef);
    CleanIsRead(outer, ab + " ? " + c + " : " + def);
    CleanIsRead(other, a + " ? " + bcd + " : " + ef);
  }

  /** Braces join items, or repeat them when a second brace follows the first expression; parentheses after a name call. */
  lemma BracesAndCalls(a: string, b: string, c: string)
    ensures Parse([LBrace, Ident(a), Comma, Ident(b), RBrace]) == Some(Concatenation([Name(a), Name(b)]))
    ensures Parse([LBrace, Ident(a), LBrace, Ident(b), Comma, Ident(c), RBrace, RBrace]) ==
            Some(Replication(Name(a), [Name(b), Name(c)]))
    ensures Parse([Ident(a), LParen, Ident(b), Comma, Ident(c), RParen]) == Some(Call(Name(a), [Name(b), Name(c)]))
    ensures Parse([Ident(a), LParen, RParen]) == Some(Call(Name(a), []))
  {
    TwoItems(a, b);
    TwoItems(b, c);
    NamesShaped(a, b);
    NamesShaped(b, c);
    assert Yield(Concatenation([Name(a), Name(b)])) == [LBrace, Ident(a), Comma, Ident(b), RBrace];
    assert Yield(Replication(Name(a), [Name(b), Name(c)])) ==
           [LBrace, Ident(a), LBrace, Ident(b), Comma, Ident(c), RBrace, RBrace];
    assert Yield(Call(Name(a), [Name(b), Name(c)])) == [Ident(a), LParen, Ident(b), Comma, Ident(c), RParen];
    assert Yield(Call(Name(a), [])) == [Ident(a), LParen, RParen];
    hide YieldAll, Yield, Parse;
    YieldParses(Concatenation([Name(a), Name(b)]));
    YieldParses(Replication(Name(a), [Name(b), Name(c)]));
    YieldParses(Call(Name(a), [Name(b), Name(c)]));
    YieldParses(Call(Name(a), []));
  }

  lemma NamesShaped(a: string, b: string)
    ensures Shaped(Concatenation([Name(a), Name(b)])) && forall x :: x in [Name(a), Name(b)] ==> Shaped(x)
  {
  }

  lemma TwoItems(a: string, b: string)
    ensures YieldAll([Name(a), Name(b)]) == [Ident(a), Comma, Ident(b)] && YieldAll([]) == []
  {
    assert [Name(a), Name(b)][1..] == [Name(b)];
    assert YieldAll([Name(b)]) == Yield(Name(b)) == [Ident(b)];
  }

  // ----- where the printer puts parentheses

  /** The printer's classes, from the loosest to the tightest: coarser than the parser's. */
  const PRINTED_CLASSES: seq<seq<BinaryOp>> :=
    [[LogicalOr, LogicalAnd], [BitwiseOr, BitwiseXor, BitwiseXnor, BitwiseAnd],
     [Equal, NotEqual, CaseEqual, CaseNotEqual, WildcardEqual, WildcardNotEqual],
     [Less, LessEqual, Greater, GreaterEqual], [ShiftLeft, ShiftRight, ArithShiftLeft, ArithShiftRight],
     [Add, Subtract], [Multiply, Divide, Modulo], [Power]]

  lemma OwnPrintedClass(op: BinaryOp, k: nat)
    requires k < |PRINTED_CLASSES|
    ensures op in PRINTED_CLASSES[k] <==> k + OperatorLevel(op) == 9
  {
    HasItsPrintedClass(op);
    if i :| 0 <= i < |PRINTED_CLASSES[k]| && PRINTED_CLASSES[k][i] == op {
      PrintedMembersOf(k, i);
    }
    hide PRINTED_CLASSES, OperatorLevel;
  }

  lemma HasItsPrintedClass(op: BinaryOp)
    ensures 0 <= 9 - OperatorLevel(op) < |PRINTED_CLASSES| && op in PRINTED_CLASSES[9 - OperatorLevel(op)]
  {
  }

  lemma PrintedMembersOf(k: nat, i: nat)
    requires k < |PRINTED_CLASSES| && i < |PRINTED_CLASSES[k]|
    ensures OperatorLevel(PRINTED_CLASSES[k][i]) == 9 - k
  {
  }

  lemma TighterIsLower(a: BinaryOp, b: BinaryOp)
    ensures Tighter(PRINTED_CLASSES, a, b) <==> OperatorLevel(a) < OperatorLevel(b)
  {
    var chain := PRINTED_CLASSES;
    assert |chain| == 8;
    forall op: BinaryOp, k | 0 <= k < |chain|
      ensures op in chain[k] <==> k + 2 == PrintedRank(op)
    {
      OwnPrintedClass(op, k);
    }
    assert PrintedRank(a) == 11 - OperatorLevel(a) && PrintedRank(b) == 11 - OperatorLevel(b);
    hide *;
    TighterInChain(chain, op => PrintedRank(op), a, b);
  }

  function PrintedRank(op: BinaryOp): (r: nat)
    ensures 2 <= r <= 9
  {
    11 - OperatorLevel(op)
  }

  function Named(a: string): Rtl { Object(Some(a)) }

  function Around(paren: bool, text: string): string { if paren then "(" + text + ")" else text }

  /** The printer's text of an expression; empty where it fails. */
  function Printout(r: Rtl): string { if Decorate(r).Some? then Text(Decorate(r).value) else "" }

  lemma NamedPrints(a: string)
    ensures Decorate(Named(a)) == Some(Name(a)) && Printout(Named(a)) == a && Level(Named(a)) == LEAF
  {
  }

  lemma InfixPrints(op: BinaryOp, x: Rtl, y: Rtl)
    requires Decorate(x).Some? && Decorate(y).Some?
    ensures Decorate(Infix(op, x, y)).Some?
    ensures Printout(Infix(op, x, y)) ==
            Around(ParenInBinary(x, op), Printout(x)) + " " + Spelling(op) + " " + Around(ParenInBinary(y, op), Printout(y))
  {
    var dx, dy := Decorate(x).value, Decorate(y).value;
    WrappedText(ParenInBinary(x, op), dx);
    WrappedText(ParenInBinary(y, op), dy);
    var l, r := Wrapped(ParenInBinary(x, op), dx), Wrapped(ParenInBinary(y, op), dy);
    assert Decorate(Infix(op, x, y)) == Some(Binary(op, l, r));
    BinaryReadText(op, l, r);
    hide ParenInBinary, Spelling, Around, Wrapped, Decorate, Text;
  }

  lemma WrappedText(paren: bool, t: Tree)
    ensures Text(Wrapped(paren, t)) == Around(paren, Text(t))
  {
  }

  lemma BinaryReadText(op: BinaryOp, l: Tree, r: Tree)
    ensures Text(Binary(op, l, r)) == Text(l) + " " + Spelling(op) + " " + Text(r)
  {
    SpellingIsText(op);
    hide Spelling, SymbolText, BinaryText;
  }

  lemma ConditionalTextIs(c: Tree, x: Tree, y: Tree)
    ensures Text(Conditional(c, x, y)) == Text(c) + " ? " + Text(x) + " : " + Text(y)
  {
  }

  lemma ChoicePrints(c: Rtl, x: Rtl, y: Rtl)
    requires Decorate(c).Some? && Decorate(x).Some? && Decorate(y).Some?
    ensures Decorate(Choice(c, x, y)).Some?
    ensures Printout(Choice(c, x, y)) ==
            Around(ParenInCondition(c), Printout(c)) + " ? " + Around(ParenInBranch(x), Printout(x)) + " : " +
            Around(ParenInBranch(y), Printout(y))
  {
    var dc, dx, dy := Decorate(c).value, Decorate(x).value, Decorate(y).value;
    WrappedText(ParenInCondition(c), dc);
    WrappedText(ParenInBranch(x), dx);
    WrappedText(ParenInBranch(y), dy);
    var p, q, r := Wrapped(ParenInCondition(c), dc), Wrapped(ParenInBranch(x), dx), Wrapped(ParenInBranch(y), dy);
    ChoiceIs(c, x, y, dc, dx, dy);
    ConditionalTextIs(p, q, r);
    hide ParenInCondition, ParenInBranch, Around, Wrapped, Decorate, Text;
  }

  /** An operand of a binary operator is printed in parentheses unless its own operator is of a tighter class. */
  lemma OperandsPrinted(op: BinaryOp, inner: BinaryOp, a: string, b: string, c: string)
    ensures var text := Around(!Tighter(PRINTED_CLASSES, inner, op), a + " " + Spelling(inner) + " " + b);
            && Printout(Infix(op, Infix(inner, Named(a), Named(b)), Named(c))) == text + " " + Spelling(op) + " " + c
            && Printout(Infix(op, Named(c), Infix(inner, Named(a), Named(b)))) == c + " " + Spelling(op) + " " + text
  {
    TighterIsLower(inner, op);
    NamedPrints(a);
    NamedPrints(b);
    NamedPrints(c);
    var x := Infix(inner, Named(a), Named(b));
    NamesStandAlone(a, inner);
    NamesStandAlone(b, inner);
    NamesStandAlone(c, op);
    assert ParenInBinary(x, op) <==> !Tighter(PRINTED_CLASSES, inner, op) by {
      hide Tighter;
    }
    hide *;
    InfixPrints(inner, Named(a), Named(b));
    InfixPrints(op, x, Named(c));
    InfixPrints(op, Named(c), x);
    NothingAround(a);
    NothingAround(b);
    NothingAround(c);
  }

  lemma NothingAround(text: string)
    ensures Around(false, text) == text
  {
  }

  lemma NamesStandAlone(a: string, op: BinaryOp)
    ensures !ParenInBinary(Named(a), op) && !ParenInCondition(Named(a)) && !ParenInBranch(Named(a))
  {
  }

  /**
   * A conditional operand is always parenthesised, a binary condition only if its operator is logical, and a binary
   * branch never.
   */
  lemma ConditionalsPrinted(op: BinaryOp, a: string, b: string, c: string, d: string, e: string)
    ensures var infix, choice := Infix(op, Named(a), Named(b)), Choice(Named(a), Named(b), Named(c));
            var binary, conditional := a + " " + Spelling(op) + " " + b, "(" + (a + " ? " + b + " : " + c) + ")";
            && Printout(Choice(infix, Named(d), Named(e))) == Around(op in PRINTED_CLASSES[0], binary) + " ? " + d + " : " + e
            && Printout(Choice(Named(d), infix, infix)) == d + " ? " + binary + " : " + binary
            && Printout(Choice(choice, choice, choice)) == conditional + " ? " + conditional + " : " + conditional
            && Printout(Infix(op, choice, Named(d))) == conditional + " " + Spelling(op) + " " + d
  {
    OwnPrintedClass(op, 0);
    var infix, choice := Infix(op, Named(a), Named(b)), Choice(Named(a), Named(b), Named(c));
    assert ParenInCondition(infix) <==> op in PRINTED_CLASSES[0];
    assert !ParenInBranch(infix) && ParenInCondition(choice) && ParenInBranch(choice) && ParenInBinary(choice, op);
    hide *;
    var names := [a, b, c, d, e];
    forall i | 0 <= i < 5
      ensures Decorate(Named(names[i])).Some? && Printout(Named(names[i])) == names[i] && !ParenInBinary(Named(names[i]), op)
      ensures !ParenInCondition(Named(names[i])) && !ParenInBranch(Named(names[i])) && Around(false, names[i]) == names[i]
    {
      NamedPrints(names[i]);
      NamesStandAlone(names[i], op);
      NothingAround(names[i]);
    }
    assert names[0] == a && names[1] == b && names[2] == c && names[3] == d && names[4] == e;
    InfixPrints(op, Named(a), Named(b));
    ChoicePrints(Named(a), Named(b), Named(c));
    var binary, conditional := a + " " + Spelling(op) + " " + b, a + " ? " + b + " : " + c;
    NothingAround(binary);
    ParenthesesAround(conditional);
    ChoicePrints(infix, Named(d), Named(e));
    ChoicePrints(Named(d), infix, infix);
    ChoicePrints(choice, choice, choice);
    InfixPrints(op, choice, Named(d));
  }

  lemma ParenthesesAround(text: string)
    ensures Around(true, text) == "(" + text + ")"
  {
  }
}
