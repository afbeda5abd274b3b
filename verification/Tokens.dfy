/**
 Tokens (src/frontend/token.hpp).  The end of input is the end of the sequence.
 */
module Tokens {
  import Ast
  import opened FixedWidth
  import opened Syntax
  import opened Wrappers

  datatype Keyword =
    | KwConst | KwElse | KwFor | KwIf | KwIn | KwOut | KwRead | KwReturn | KwStream | KwWrite

  datatype Symbol =
    | PlusT | MinusT | StarT | SlashT | PercentT | TildeT | AmpT | PipeT | CaretT | ShlT | ShrT
    | BangT | AmpAmpT | PipePipeT | EqEqT | BangEqT | LtT | LeT | GtT | GeT
    | AssignT | Question | Colon
    | LParen | RParen | LBrace | RBrace | LBracket | RBracket | Comma | Semi

  datatype Token =
    | Eof
    | Identifier(text: string)
    | Literal(value: nat)
    | TypeName(ty: Type)
    | PragmaLine(line: string)
    | Key(key: Keyword)
    | Sym(sym: Symbol)

  // The pragmas, up to their values.
  const UNROLL := "#pragma unroll"
  const UNROLL_BY := "#pragma unroll factor="
  const PIPELINE := "#pragma pipeline II="

  function Peek(ts: seq<Token>): Token {
    if ts == [] then Eof else ts[0]
  }

  // The token of an operator.
  function BinarySymbol(op: Ast.BinOp): Symbol {
    match op
    case Plus => PlusT
    case Minus => MinusT
    case Star => StarT
    case Slash => SlashT
    case Percent => PercentT
    case Amp => AmpT
    case Pipe => PipeT
    case Caret => CaretT
    case Shl => ShlT
    case Shr => ShrT
    case Rel(c) => RelSymbol(c)
    case AmpAmp => AmpAmpT
    case PipePipe => PipePipeT
  }

  function RelSymbol(c: Cmp): Symbol {
    match c
    case Lt => LtT
    case Le => LeT
    case Gt => GtT
    case Ge => GeT
    case Eq => EqEqT
    case Ne => BangEqT
  }

  function UnarySymbol(op: Ast.UnOp): Symbol {
    match op
    case UPlus => PlusT
    case UMinus => MinusT
    case UTilde => TildeT
    case UBang => BangT
  }

  function BinaryOf(t: Token): (r: Option<Ast.BinOp>)
    ensures r.Some? ==> t == Sym(BinarySymbol(r.value))
  {
    match t
    case Sym(PlusT) => Some(Ast.Plus)
    case Sym(MinusT) => Some(Ast.Minus)
    case Sym(StarT) => Some(Ast.Star)
    case Sym(SlashT) => Some(Ast.Slash)
    case Sym(PercentT) => Some(Ast.Percent)
    case Sym(AmpT) => Some(Ast.Amp)
    case Sym(PipeT) => Some(Ast.Pipe)
    case Sym(CaretT) => Some(Ast.Caret)
    case Sym(ShlT) => Some(Ast.Shl)
    case Sym(ShrT) => Some(Ast.Shr)
    case Sym(LtT) => Some(Ast.Rel(Lt))
    case Sym(LeT) => Some(Ast.Rel(Le))
    case Sym(GtT) => Some(Ast.Rel(Gt))
    case Sym(GeT) => Some(Ast.Rel(Ge))
    case Sym(EqEqT) => Some(Ast.Rel(Eq))
    case Sym(BangEqT) => Some(Ast.Rel(Ne))
    case Sym(AmpAmpT) => Some(Ast.AmpAmp)
    case Sym(PipePipeT) => Some(Ast.PipePipe)
    case _ => None
  }

  function UnaryOf(t: Token): (r: Option<Ast.UnOp>)
    ensures r.Some? ==> t == Sym(UnarySymbol(r.value))
  {
    match t
    case Sym(PlusT) => Some(Ast.UPlus)
    case Sym(MinusT) => Some(Ast.UMinus)
    case Sym(TildeT) => Some(Ast.UTilde)
    case Sym(BangT) => Some(Ast.UBang)
    case _ => None
  }

  lemma OperatorsRead()
    ensures forall op: Ast.BinOp :: BinaryOf(Sym(BinarySymbol(op))) == Some(op)
    ensures forall op: Ast.UnOp :: UnaryOf(Sym(UnarySymbol(op))) == Some(op)
  {
  }

  // bindingPower, src/frontend/parser.cpp:28-39
  function BindingPower(t: Token): (bp: nat)
    ensures bp <= 5 && (bp == 0 <==> BinaryOf(t).None?)
  {
    match BinaryOf(t)
    case None => 0
    case Some(op) =>
      match op
      case PipePipe => 1
      case AmpAmp => 2
      case Rel(_) => 3
      case Plus | Minus | Pipe | Caret => 4
      case _ => 5
  }
}
