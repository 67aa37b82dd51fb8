/** From characters to tokens: words, decimal numbers, and operators by longest match. */
module Lexing {
  import opened Syntax

  predicate IsSpace(c: char) { c == ' ' || '\t' <= c <= '\r' }

  predicate IsDigit(c: char) { '0' <= c <= '9' }

  predicate IsWordChar(c: char) { IsDigit(c) || 'a' <= c <= 'z' || 'A' <= c <= 'Z' || c == '_' || c == '$' }

  predicate InNumber(c: char) { IsWordChar(c) || c == '\'' }

  predicate IsIdentifier(s: string) { s != "" && !IsDigit(s[0]) && forall i :: 0 <= i < |s| ==> IsWordChar(s[i]) }

  // ----- operators

  predicate IsSymbol4(a: char, b: char, c: char, d: char) { (a == b == c == '<' || a == b == c == '>') && d == '=' }

  predicate IsSymbol3(a: char, b: char, c: char) {
    || ((a == b == '<' || a == b == '>') && (c == '=' || c == a))
    || ((a == '=' || a == '!') && b == '=' && (c == '=' || c == '?'))
  }

  predicate IsSymbol2(a: char, b: char) {
    || (b == '=' && (a == '<' || a == '>' || a == '=' || a == '!' || a == '+' || a == '-' || a == '*' || a == '/'
                     || a == '%' || a == '&' || a == '|' || a == '^'))
    || (a == b && (a == '*' || a == '&' || a == '|' || a == '<' || a == '>' || a == '+' || a == '-' || a == ':'))
    || (a == '~' && (b == '&' || b == '|' || b == '^')) || (a == '^' && b == '~')
    || ((a == '+' || a == '-') && b == ':') || (a == '-' && b == '>')
  }

  /** The length of the longest symbol that the characters start with. */
  function SymbolLength(s: string): (n: nat)
    requires s != ""
    ensures 1 <= n <= |s|
  {
    if |s| >= 4 && IsSymbol4(s[0], s[1], s[2], s[3]) then 4
    else if |s| >= 3 && IsSymbol3(s[0], s[1], s[2]) then 3
    else if |s| >= 2 && IsSymbol2(s[0], s[1]) then 2
    else 1
  }

  function Symbol1(c: char): Token {
    match c
    case '+' => Op(Plus)
    case '-' => Op(Minus)
    case '!' => Op(Bang)
    case '~' => Op(Tilde)
    case '&' => Op(Amp)
    case '|' => Op(Bar)
    case '^' => Op(Caret)
    case '<' => Op(LessThan)
    case '>' => Op(GreaterThan)
    case '*' => Op(Star)
    case '/' => Op(Slash)
    case '%' => Op(Percent)
    case '(' => LParen
    case ')' => RParen
    case '{' => LBrace
    case '}' => RBrace
    case ',' => Comma
    case '?' => Question
    case ':' => Colon
    case _ => Other([c])
  }

  function Symbol2(a: char, b: char): Token {
    if a == '~' && b == '&' then Op(TildeAmp)
    else if a == '~' && b == '|' then Op(TildeBar)
    else if a == '~' && b == '^' then Op(TildeCaret)
    else if a == '^' && b == '~' then Op(CaretTilde)
    else if a == '|' && b == '|' then Op(BarBar)
    else if a == '&' && b == '&' then Op(AmpAmp)
    else if a == '=' && b == '=' then Op(EqEq)
    else if a == '!' && b == '=' then Op(BangEq)
    else if a == '<' && b == '=' then Op(LessEq)
    else if a == '>' && b == '=' then Op(GreaterEq)
    else if a == '<' && b == '<' then Op(Shl)
    else if a == '>' && b == '>' then Op(Shr)
    else if a == '*' && b == '*' then Op(StarStar)
    else Other([a, b])
  }

  function Symbol3(a: char, b: char, c: char): Token {
    if a == '=' && b == '=' && c == '=' then Op(EqEqEq)
    else if a == '!' && b == '=' && c == '=' then Op(BangEqEq)
    else if a == '=' && b == '=' && c == '?' then Op(EqEqQuery)
    else if a == '!' && b == '=' && c == '?' then Op(BangEqQuery)
    else if a == '<' && b == '<' && c == '<' then Op(AShl)
    else if a == '>' && b == '>' && c == '>' then Op(AShr)
    else Other([a, b, c])
  }

  function SymbolToken(s: string): Token
    requires s != ""
  {
    if |s| == 1 then Symbol1(s[0])
    else if |s| == 2 then Symbol2(s[0], s[1])
    else if |s| == 3 then Symbol3(s[0], s[1], s[2])
    else Other(s)
  }

  // ----- words and numbers

  /** Where the run of word characters from `i` on ends. */
  function WordEnd(s: string, i: nat, quotes: bool): (end: nat)
    requires i <= |s|
    ensures i <= end <= |s|
    ensures forall k :: i <= k < end ==> IsWordChar(s[k]) || (quotes && s[k] == '\'')
    ensures end < |s| ==> !(IsWordChar(s[end]) || (quotes && s[end] == '\''))
    decreases |s| - i
  {
    if i < |s| && (IsWordChar(s[i]) || (quotes && s[i] == '\'')) then WordEnd(s, i + 1, quotes) else i
  }

  function DigitValue(c: char): nat
    requires IsDigit(c)
  {
    (c as int) - ('0' as int)
  }

  function DigitChar(d: nat): (c: char)
    requires d < 10
    ensures IsDigit(c) && DigitValue(c) == d
  {
    (d + '0' as int) as char
  }

  predicate AllDigits(s: string) { forall i :: 0 <= i < |s| ==> IsDigit(s[i]) }

  function DecimalValue(s: string): nat
    requires AllDigits(s)
  {
    if s == "" then 0 else 10 * DecimalValue(s[..|s| - 1]) + DigitValue(s[|s| - 1])
  }

  /** The shortest decimal spelling. */
  function DecimalText(n: nat): string {
    if n < 10 then [DigitChar(n)] else DecimalText(n / 10) + [DigitChar(n % 10)]
  }

  function NumberToken(s: string): Token { if AllDigits(s) then Number(DecimalValue(s)) else Other(s) }

  // ----- the lexer

  /** Comments and string literals are not read: the rest of the text is one token that no expression contains. */
  predicate StartsUnread(s: string)
    requires s != ""
  {
    s[0] == '"' || (|s| > 1 && s[0] == '/' && (s[1] == '/' || s[1] == '*'))
  }

  /** The length and the kind of the token that the characters start with. */
  function TokenLength(s: string): (n: nat)
    requires s != ""
    ensures 1 <= n <= |s|
  {
    if StartsUnread(s) then |s|
    else if IsDigit(s[0]) then WordEnd(s, 1, true)
    else if IsWordChar(s[0]) then WordEnd(s, 1, false)
    else SymbolLength(s)
  }

  function FirstToken(s: string): Token
    requires s != ""
  {
    var text := s[..TokenLength(s)];
    if StartsUnread(s) then Other(text)
    else if IsDigit(s[0]) then NumberToken(text)
    else if IsWordChar(s[0]) then Ident(text)
    else SymbolToken(text)
  }

  function Lex(s: string): seq<Token>
    decreases |s|
  {
    if s == "" then []
    else if IsSpace(s[0]) then Lex(s[1..])
    else [FirstToken(s)] + Lex(s[TokenLength(s)..])
  }

  /** The loop over the source text. */
  method LexSource(s: string) returns (tokens: seq<Token>)
    ensures tokens == Lex(s)
  {
    hide FirstToken, TokenLength;
    tokens := [];
    var cursor := 0;
    assert s[0..] == s;
    while cursor < |s|
      invariant 0 <= cursor <= |s| && tokens + Lex(s[cursor..]) == Lex(s)
    {
      var rest := s[cursor..];
      if IsSpace(rest[0]) {
        assert rest[1..] == s[cursor + 1..];
        cursor := cursor + 1;
      } else {
        assert rest[TokenLength(rest)..] == s[cursor + TokenLength(rest)..];
        assert tokens + Lex(rest) == tokens + [FirstToken(rest)] + Lex(rest[TokenLength(rest)..]);
        tokens := tokens + [FirstToken(rest)];
        cursor := cursor + TokenLength(rest);
      }
    }
    assert s[cursor..] == "";
  }

  // ----- single steps

  lemma {:induction false} WordEnds(w: string, s: string, i: nat, quotes: bool)
    requires i <= |w| && forall k :: i <= k < |w| ==> IsWordChar(w[k])
    requires s == "" || !(IsWordChar(s[0]) || (quotes && s[0] == '\''))
    ensures WordEnd(w + s, i, quotes) == |w|
    decreases |w| - i
  {
    if i < |w| {
      assert (w + s)[i] == w[i];
      WordEnds(w, s, i + 1, quotes);
    } else if s != "" {
      assert (w + s)[i] == s[0];
    }
  }

  /** An identifier is read whole, up to a character no word contains. */
  lemma LexWord(w: string, s: string)
    requires IsIdentifier(w) && (s == "" || !IsWordChar(s[0]))
    ensures Lex(w + s) == [Ident(w)] + Lex(s)
  {
    assert IsWordChar(w[0]) && (w + s)[0] == w[0];
    WordEnds(w, s, 1, false);
    assert (w + s)[..|w|] == w && (w + s)[|w|..] == s;
  }

  lemma {:induction false} DecimalReads(n: nat)
    ensures DecimalText(n) != "" && AllDigits(DecimalText(n)) && DecimalValue(DecimalText(n)) == n
  {
    var t := DecimalText(n);
    if n >= 10 {
      DecimalReads(n / 10);
    }
    assert t[..|t| - 1] == if n < 10 then "" else DecimalText(n / 10);
    assert t[|t| - 1] == DigitChar(n % 10);
  }

  /** A number's decimal spelling is read back as the number. */
  lemma LexDecimal(n: nat, s: string)
    requires s == "" || !InNumber(s[0])
    ensures Lex(DecimalText(n) + s) == [Number(n)] + Lex(s)
  {
    var w := DecimalText(n);
    DecimalReads(n);
    assert IsDigit(w[0]) && (w + s)[0] == w[0];
    WordEnds(w, s, 1, true);
    assert (w + s)[..|w|] == w && (w + s)[|w|..] == s;
  }

  lemma LexSpace(s: string)
    ensures Lex(" " + s) == Lex(s)
  {
    assert (" " + s)[1..] == s;
  }

  /** A symbol ends where no longer one begins. */
  lemma LexPunctuation(c: char, s: string)
    requires c == '(' || c == ')' || c == '{' || c == '}' || c == ',' || c == '?' || (c == ':' && s != "" && s[0] == ' ')
    ensures Lex([c] + s) == [Symbol1(c)] + Lex(s)
  {
    var t := [c] + s;
    assert t[0] == c && (s != "" ==> t[1] == s[0]);
    assert SymbolLength(t) == 1;
    assert t[..1] == [c] && t[1..] == s;
  }

  /** The text of an operator. */
  function SymbolText(a: Symbol): (s: string)
    ensures 1 <= |s| <= 3
  {
    match a
    case Plus => "+"
    case Minus => "-"
    case Bang => "!"
    case Tilde => "~"
    case Amp => "&"
    case TildeAmp => "~&"
    case Bar => "|"
    case TildeBar => "~|"
    case Caret => "^"
    case TildeCaret => "~^"
    case CaretTilde => "^~"
    case BarBar => "||"
    case AmpAmp => "&&"
    case EqEq => "=="
    case BangEq => "!="
    case EqEqEq => "==="
    case BangEqEq => "!=="
    case EqEqQuery => "==?"
    case BangEqQuery => "!=?"
    case LessThan => "<"
    case LessEq => "<="
    case GreaterThan => ">"
    case GreaterEq => ">="
    case Shl => "<<"
    case Shr => ">>"
    case AShl => "<<<"
    case AShr => ">>>"
    case Star => "*"
    case Slash => "/"
    case Percent => "%"
    case StarStar => "**"
  }

  /** Every operator is read from its own text. */
  lemma SymbolReads(a: Symbol)
    ensures SymbolToken(SymbolText(a)) == Op(a)
    ensures !IsSpace(SymbolText(a)[0]) && !IsWordChar(SymbolText(a)[0]) && SymbolText(a)[0] != '"'
  {
  }

  /** Before a space an operator's text is read as that operator. */
  lemma LexSpaced(a: Symbol, s: string)
    ensures Lex(SymbolText(a) + " " + s) == [Op(a)] + Lex(s)
  {
    var t := SymbolText(a) + " " + s;
    var n := |SymbolText(a)|;
    SymbolReads(a);
    assert t[..n] == SymbolText(a) && t[n..] == " " + s;
    assert t[n] == ' ';
    assert forall i :: 0 <= i < n ==> t[i] == SymbolText(a)[i];
    SpacedLength(a, t);
    LexSpace(s);
  }

  lemma SpacedLength(a: Symbol, t: string)
    requires |t| > |SymbolText(a)| && t[|SymbolText(a)|] == ' '
    requires forall i :: 0 <= i < |SymbolText(a)| ==> t[i] == SymbolText(a)[i]
    ensures SymbolLength(t) == |SymbolText(a)| && !StartsUnread(t)
  {
  }
}
