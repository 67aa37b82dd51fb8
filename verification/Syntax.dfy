/** Tokens, operators and trees of expression syntax, and which trees the grammar can produce. */
module Syntax {
  import opened Options

  datatype Symbol =
    | Plus | Minus | Bang | Tilde | Amp | TildeAmp | Bar | TildeBar | Caret | TildeCaret | CaretTilde
    | BarBar | AmpAmp | EqEq | BangEq | EqEqEq | BangEqEq | EqEqQuery | BangEqQuery
    | LessThan | LessEq | GreaterThan | GreaterEq | Shl | Shr | AShl | AShr | Star | Slash | Percent | StarStar

  datatype Token =
    | Ident(name: string) | Number(value: nat) | Op(symbol: Symbol)
    | LParen | RParen | LBrace | RBrace | Comma | Question | Colon
    | Other(text: string)

  datatype UnaryOp =
    | Positive | Negate | LogicalNot | BitwiseNot
    | ReductionAnd | ReductionNand | ReductionOr | ReductionNor | ReductionXor | ReductionXnor

  datatype BinaryOp =
    | LogicalOr | LogicalAnd | BitwiseOr | BitwiseXor | BitwiseXnor | BitwiseAnd
    | Equal | NotEqual | CaseEqual | CaseNotEqual | WildcardEqual | WildcardNotEqual
    | Less | LessEqual | Greater | GreaterEqual
    | ShiftLeft | ShiftRight | ArithShiftLeft | ArithShiftRight
    | Add | Subtract | Multiply | Divide | Modulo | Power

  /** The unary reading of a symbol. */
  function UnaryAt(s: Symbol): Option<UnaryOp> {
    match s
    case Plus => Some(Positive)
    case Minus => Some(Negate)
    case Bang => Some(LogicalNot)
    case Tilde => Some(BitwiseNot)
    case Amp => Some(ReductionAnd)
    case TildeAmp => Some(ReductionNand)
    case Bar => Some(ReductionOr)
    case TildeBar => Some(ReductionNor)
    case Caret => Some(ReductionXor)
    case TildeCaret => Some(ReductionXnor)
    case CaretTilde => Some(ReductionXnor)
    case _ => None
  }

  /** The binary reading of a symbol. */
  function BinaryAt(s: Symbol): Option<BinaryOp> {
    match s
    case BarBar => Some(LogicalOr)
    case AmpAmp => Some(LogicalAnd)
    case Bar => Some(BitwiseOr)
    case Caret => Some(BitwiseXor)
    case TildeCaret => Some(BitwiseXnor)
    case CaretTilde => Some(BitwiseXnor)
    case Amp => Some(BitwiseAnd)
    case EqEq => Some(Equal)
    case BangEq => Some(NotEqual)
    case EqEqEq => Some(CaseEqual)
    case BangEqEq => Some(CaseNotEqual)
    case EqEqQuery => Some(WildcardEqual)
    case BangEqQuery => Some(WildcardNotEqual)
    case LessThan => Some(Less)
    case LessEq => Some(LessEqual)
    case GreaterThan => Some(Greater)
    case GreaterEq => Some(GreaterEqual)
    case Shl => Some(ShiftLeft)
    case Shr => Some(ShiftRight)
    case AShl => Some(ArithShiftLeft)
    case AShr => Some(ArithShiftRight)
    case Plus => Some(Add)
    case Minus => Some(Subtract)
    case Star => Some(Multiply)
    case Slash => Some(Divide)
    case Percent => Some(Modulo)
    case StarStar => Some(Power)
    case _ => None
  }

  function Precedence(op: BinaryOp): (p: nat)
    ensures 2 <= p <= 12
  {
    match op
    case LogicalOr => 2
    case LogicalAnd => 3
    case BitwiseOr => 4
    case BitwiseXor => 5
    case BitwiseXnor => 5
    case BitwiseAnd => 6
    case Equal => 7
    case NotEqual => 7
    case CaseEqual => 7
    case CaseNotEqual => 7
    case WildcardEqual => 7
    case WildcardNotEqual => 7
    case Less => 8
    case LessEqual => 8
    case Greater => 8
    case GreaterEqual => 8
    case ShiftLeft => 9
    case ShiftRight => 9
    case ArithShiftLeft => 9
    case ArithShiftRight => 9
    case Add => 10
    case Subtract => 10
    case Multiply => 11
    case Divide => 11
    case Modulo => 11
    case Power => 12
  }

  /** The least precedence allowed in a right operand; `**` alone associates to the right. */
  function RightMinimum(op: BinaryOp): nat { if op == Power then Precedence(op) else Precedence(op) + 1 }

  function UnaryText(op: UnaryOp): Symbol {
    match op
    case Positive => Plus
    case Negate => Minus
    case LogicalNot => Bang
    case BitwiseNot => Tilde
    case ReductionAnd => Amp
    case ReductionNand => TildeAmp
    case ReductionOr => Bar
    case ReductionNor => TildeBar
    case ReductionXor => Caret
    case ReductionXnor => TildeCaret
  }

  function BinaryText(op: BinaryOp): Symbol {
    match op
    case LogicalOr => BarBar
    case LogicalAnd => AmpAmp
    case BitwiseOr => Bar
    case BitwiseXor => Caret
    case BitwiseXnor => TildeCaret
    case BitwiseAnd => Amp
    case Equal => EqEq
    case NotEqual => BangEq
    case CaseEqual => EqEqEq
    case CaseNotEqual => BangEqEq
    case WildcardEqual => EqEqQuery
    case WildcardNotEqual => BangEqQuery
    case Less => LessThan
    case LessEqual => LessEq
    case Greater => GreaterThan
    case GreaterEqual => GreaterEq
    case ShiftLeft => Shl
    case ShiftRight => Shr
    case ArithShiftLeft => AShl
    case ArithShiftRight => AShr
    case Add => Plus
    case Subtract => Minus
    case Multiply => Star
    case Divide => Slash
    case Modulo => Percent
    case Power => StarStar
  }

  /** `^~` is another spelling of `~^`. */
  function Respell(t: Token): Token { if t == Op(CaretTilde) then Op(TildeCaret) else t }

  /** Up to that spelling, an operator is read exactly from its own text. */
  lemma UnaryReadsText(t: Symbol, op: UnaryOp)
    ensures UnaryAt(t) == Some(op) <==> Respell(Op(t)) == Op(UnaryText(op))
  {
  }

  lemma BinaryReadsText(t: Symbol, op: BinaryOp)
    ensures BinaryAt(t) == Some(op) <==> Respell(Op(t)) == Op(BinaryText(op))
  {
    BinaryTextIsRead(op);
    ReadIsBinaryText(t);
    assert BinaryAt(CaretTilde) == BinaryAt(TildeCaret);
    hide BinaryAt, BinaryText;
  }

  lemma BinaryTextIsRead(op: BinaryOp)
    ensures BinaryAt(BinaryText(op)) == Some(op) && BinaryText(op) != CaretTilde
  {
  }

  lemma ReadIsBinaryText(t: Symbol)
    ensures BinaryAt(t).Some? ==> Respell(Op(t)) == Op(BinaryText(BinaryAt(t).value))
  {
  }

  // ----- trees

  datatype Tree =
    | Name(name: string)
    | Literal(value: int)
    | Group(operand: Tree)
    | Unary(unary: UnaryOp, operand: Tree)
    | Binary(binary: BinaryOp, left: Tree, right: Tree)
    | Conditional(condition: Tree, whenTrue: Tree, whenFalse: Tree)
    | Concatenation(items: seq<Tree>)
    | Replication(count: Tree, items: seq<Tree>)
    | Call(callee: Tree, items: seq<Tree>)

  /** The tokens of a tree. */
  function Yield(t: Tree): (ys: seq<Token>)
    ensures ys != []
  {
    match t
    case Name(n) => [Ident(n)]
    case Literal(n) => if n < 0 then [Op(Minus), Number(-n)] else [Number(n)]
    case Group(x) => [LParen] + Yield(x) + [RParen]
    case Unary(op, x) => [Op(UnaryText(op))] + Yield(x)
    case Binary(op, l, r) => Yield(l) + [Op(BinaryText(op))] + Yield(r)
    case Conditional(c, x, y) => Yield(c) + [Question] + Yield(x) + [Colon] + Yield(y)
    case Concatenation(xs) => [LBrace] + YieldAll(xs) + [RBrace]
    case Replication(n, xs) => [LBrace] + Yield(n) + [LBrace] + YieldAll(xs) + [RBrace] + [RBrace]
    case Call(f, xs) => Yield(f) + [LParen] + YieldAll(xs) + [RParen]
  }

  /** Comma-separated. */
  function YieldAll(xs: seq<Tree>): seq<Token> {
    if xs == [] then [] else if |xs| == 1 then Yield(xs[0]) else Yield(xs[0]) + [Comma] + YieldAll(xs[1..])
  }

  /** A tree the grammar can produce: every operand binds as tightly as its place demands or is grouped. */
  predicate Shaped(t: Tree) {
    match t
    case Name(_) => true
    case Literal(n) => n >= 0
    case Group(x) => Shaped(x)
    case Unary(_, x) => Shaped(x) && !x.Binary? && !x.Conditional?
    case Binary(op, l, r) => Shaped(l) && Shaped(r) && LeftFits(l, op) && Fits(r, RightMinimum(op))
    case Conditional(c, x, y) => Shaped(c) && Shaped(x) && Shaped(y) && !c.Conditional?
    case Concatenation(xs) => xs != [] && forall x :: x in xs ==> Shaped(x)
    case Replication(n, xs) => Shaped(n) && xs != [] && forall x :: x in xs ==> Shaped(x)
    case Call(f, xs) => Shaped(f) && Postfix(f) && forall x :: x in xs ==> Shaped(x)
  }

  predicate Postfix(t: Tree) { !t.Unary? && !t.Binary? && !t.Conditional? }

  /** The tree can stand where operators below `minimum` end the expression. */
  predicate Fits(t: Tree, minimum: nat) { (t.Binary? ==> minimum <= Precedence(t.binary)) && (t.Conditional? ==> minimum <= 1) }

  /** The left operand would not have absorbed the operator that follows it. */
  predicate LeftFits(t: Tree, op: BinaryOp) { (t.Binary? ==> Precedence(op) < RightMinimum(t.binary)) && !t.Conditional? }

  /** Without its groups. */
  function Erase(t: Tree): Tree {
    match t
    case Name(_) => t
    case Literal(_) => t
    case Group(x) => Erase(x)
    case Unary(op, x) => Unary(op, Erase(x))
    case Binary(op, l, r) => Binary(op, Erase(l), Erase(r))
    case Conditional(c, x, y) => Conditional(Erase(c), Erase(x), Erase(y))
    case Concatenation(xs) => Concatenation(EraseAll(xs))
    case Replication(n, xs) => Replication(Erase(n), EraseAll(xs))
    case Call(f, xs) => Call(Erase(f), EraseAll(xs))
  }

  function EraseAll(xs: seq<Tree>): (ys: seq<Tree>)
    ensures |ys| == |xs|
    ensures forall i :: 0 <= i < |xs| ==> ys[i] == Erase(xs[i])
  {
    if xs == [] then [] else [Erase(xs[0])] + EraseAll(xs[1..])
  }
}
