/**
 The printer (src/frontend/ast_printer.cpp).  Each function puts its text in front
 of what follows it; AstPrinter, below, appends to a stream as the source does, and
 is proved to write the same text.
 */
module Printer {
  import Ast
  import opened FixedWidth
  import opened Syntax
  import opened Tokens
  import opened Wrappers

  function DigitChar(d: nat): char
    requires d < 10
  {
    '0' + d as char
  }

  // Decimal digits, most significant first.
  function NumberText(v: nat): (s: string)
    ensures |s| > 0
  {
    if v < 10 then [DigitChar(v)] else NumberText(v / 10) + [DigitChar(v % 10)]
  }

  // number, src/frontend/ast_printer.cpp:9-18: digits are produced from the least
  // significant, and reversed.
  method Number(value: nat) returns (s: string)
    ensures s == NumberText(value)
  {
    if value == 0 { return "0"; }
    var v := value;
    var out: string := [];
    while v != 0
      invariant NumberText(value) == (if v == 0 then [] else NumberText(v)) + Reversed(out)
    {
      NextDigit(v, out);
      out := out + [DigitChar(v % 10)];
      v := v / 10;
    }
    s := Reversed(out);
  }

  lemma NextDigit(v: nat, out: string)
    requires v > 0
    ensures NumberText(v) + Reversed(out) ==
            (if v / 10 == 0 then [] else NumberText(v / 10)) + Reversed(out + [DigitChar(v % 10)])
  {
    var longer := out + [DigitChar(v % 10)];
    assert longer[..|longer| - 1] == out;
    assert Reversed(longer) == [DigitChar(v % 10)] + Reversed(out);
  }

  // std::reverse
  function Reversed(s: string): string {
    if s == [] then [] else [s[|s| - 1]] + Reversed(s[..|s| - 1])
  }

  function TypeText(t: Type): string {
    [if t.signed then 'i' else 'u'] + NumberText(t.width)
  }

  function SymbolText(s: Symbol): string {
    match s
    case PlusT => "+"
    case MinusT => "-"
    case StarT => "*"
    case SlashT => "/"
    case PercentT => "%"
    case TildeT => "~"
    case AmpT => "&"
    case PipeT => "|"
    case CaretT => "^"
    case ShlT => "<<"
    case ShrT => ">>"
    case BangT => "!"
    case AmpAmpT => "&&"
    case PipePipeT => "||"
    case EqEqT => "=="
    case BangEqT => "!="
    case LtT => "<"
    case LeT => "<="
    case GtT => ">"
    case GeT => ">="
    case AssignT => "="
    case Question => "?"
    case Colon => ":"
    case LParen => "("
    case RParen => ")"
    case LBrace => "{"
    case RBrace => "}"
    case LBracket => "["
    case RBracket => "]"
    case Comma => ","
    case Semi => ";"
  }

  function KeywordText(k: Keyword): string {
    match k
    case KwConst => "const"
    case KwElse => "else"
    case KwFor => "for"
    case KwIf => "if"
    case KwIn => "in"
    case KwOut => "out"
    case KwRead => "read"
    case KwReturn => "return"
    case KwStream => "stream"
    case KwWrite => "write"
  }

  // ----------------------------------------------------------------- expressions

  // A binary operand that is parenthesised once more.
  predicate Wrapped(e: Expr) {
    e.Unary? || e.Index? || e.Cast? || e.Ternary?
  }

  function Put(s: Symbol, rest: string): string {
    SymbolText(s) + rest
  }

  function Gap(rest: string): string {
    " " + rest
  }

  // expr, src/frontend/ast_printer.cpp:34-66
  function PrintExpr(e: Expr, rest: string): string
    decreases e, 0
  {
    match e
    case IntLit(v) => NumberText(v) + rest
    case NameRef(name) => name + rest
    case Index(a, i) => a + Put(LBracket, PrintExpr(i, Put(RBracket, rest)))
    case Cast(t, x) => TypeText(t) + Put(LParen, PrintExpr(x, Put(RParen, rest)))
    case Unary(op, x) =>
      if x.Unary? then
        Put(LParen, Put(UnarySymbol(op), Put(LParen, PrintExpr(x, Put(RParen, Put(RParen, rest))))))
      else Put(UnarySymbol(op), PrintExpr(x, rest))
    case Binary(op, l, r) =>
      var right := PrintOperand(r, Put(RParen, rest));
      Put(LParen, PrintOperand(l, Gap(Put(BinarySymbol(op), Gap(right)))))
    case Ternary(c, x, y) =>
      var third := PrintExpr(y, Put(RParen, rest));
      var second := PrintExpr(x, Gap(Put(Colon, Gap(third))));
      Put(LParen, PrintExpr(c, Gap(Put(Question, Gap(second)))))
  }

  // binaryOperand, src/frontend/ast_printer.cpp:26-32
  function PrintOperand(e: Expr, rest: string): string
    decreases e, 1
  {
    if Wrapped(e) then Put(LParen, PrintExpr(e, Put(RParen, rest))) else PrintExpr(e, rest)
  }

  // The tokens the text of an expression stands for, in front of what follows.
  function SpellExpr(e: Expr, rest: seq<Token>): seq<Token>
    decreases e, 0
  {
    match e
    case IntLit(v) => [Literal(v)] + rest
    case NameRef(name) => [Identifier(name)] + rest
    case Index(a, i) => [Identifier(a)] + ([Sym(LBracket)] + SpellExpr(i, [Sym(RBracket)] + rest))
    case Cast(t, x) => [TypeName(t)] + ([Sym(LParen)] + SpellExpr(x, [Sym(RParen)] + rest))
    case Unary(op, x) =>
      if x.Unary? then
        [Sym(LParen)] + ([Sym(UnarySymbol(op))] + ([Sym(LParen)] + SpellExpr(x, [Sym(RParen)] + ([Sym(RParen)] + rest))))
      else [Sym(UnarySymbol(op))] + SpellExpr(x, rest)
    case Binary(op, l, r) =>
      [Sym(LParen)] + SpellOperand(l, [Sym(BinarySymbol(op))] + SpellOperand(r, [Sym(RParen)] + rest))
    case Ternary(c, x, y) =>
      [Sym(LParen)] + SpellExpr(c, [Sym(Question)] + SpellExpr(x, [Sym(Colon)] + SpellExpr(y, [Sym(RParen)] + rest)))
  }

  function SpellOperand(e: Expr, rest: seq<Token>): seq<Token>
    decreases e, 1
  {
    if Wrapped(e) then [Sym(LParen)] + SpellExpr(e, [Sym(RParen)] + rest) else SpellExpr(e, rest)
  }

  // ------------------------------------------------------------------ statements

  function NewLine(rest: string): string {
    "\n" + rest
  }

  function Indent(depth: nat, rest: string): string {
    if depth == 0 then rest else "  " + Indent(depth - 1, rest)
  }

  function PrintKey(k: Keyword, rest: string): string {
    KeywordText(k) + rest
  }

  function PrintType(t: Type, rest: string): string {
    TypeText(t) + rest
  }

  // A spaced `=`
  function PrintAssign(rest: string): string {
    Gap(Put(AssignT, Gap(rest)))
  }

  function PrintSource(s: Source, rest: string): string {
    match s
    case Value(e) => PrintExpr(e, rest)
    case Read(stream) => PrintKey(KwRead, Put(LParen, stream + Put(RParen, rest)))
  }

  // Expressions separated by commas.
  function PrintList(es: seq<Expr>, rest: string): string {
    if es == [] then rest
    else PrintExpr(es[0], if |es| == 1 then rest else Put(Comma, Gap(PrintList(es[1..], rest))))
  }

  // `= { ... }`
  function PrintElems(es: seq<Expr>, rest: string): string {
    PrintAssign(Put(LBrace, Gap(PrintList(es, Gap(Put(RBrace, rest))))))
  }

  function EndLine(rest: string): string {
    Put(Semi, NewLine(rest))
  }

  // A parenthesised expression
  function PrintParen(e: Expr, rest: string): string {
    Put(LParen, PrintExpr(e, Put(RParen, rest)))
  }

  function PragmaText(p: Pragma): string
    requires p != NoPragma
  {
    match p
    case Unroll => UNROLL
    case UnrollBy(n) => UNROLL_BY + NumberText(n)
    case Pipeline(n) => PIPELINE + NumberText(n)
  }

  function PrintPragma(p: Pragma, depth: nat, rest: string): string {
    if p == NoPragma then rest else PragmaText(p) + NewLine(Indent(depth, rest))
  }

  // printStmt, src/frontend/ast_printer.cpp:82-140
  function PrintStmt(s: Stmt, depth: nat, rest: string): string
    decreases s, 2
  {
    Indent(depth, PrintBare(s, depth, rest))
  }

  function PrintBare(s: Stmt, depth: nat, rest: string): string
    decreases s, 1
  {
    match s
    case VarDecl(t, name, init) => PrintType(t, Gap(name + PrintAssign(PrintSource(init, EndLine(rest)))))
    case ArrayDecl(t, name, size, elems) =>
      var tail := if elems == [] then EndLine(rest) else PrintElems(elems, EndLine(rest));
      PrintType(t, Gap(name + Put(LBracket, PrintExpr(size, Put(RBracket, tail)))))
    case Assign(name, index, value) =>
      var tail := PrintAssign(PrintSource(value, EndLine(rest)));
      name + (if index.Some? then Put(LBracket, PrintExpr(index.value, Put(RBracket, tail))) else tail)
    case Write(stream, e) =>
      PrintKey(KwWrite, Put(LParen, stream + Put(Comma, Gap(PrintExpr(e, Put(RParen, EndLine(rest)))))))
    case If(c, t, e) =>
      PrintKey(KwIf, Gap(PrintParen(c, Gap(PrintBlock(t, depth, PrintElse(e, depth, NewLine(rest)))))))
    case For(pragma, _, _, _, _, _, _, _, _) => PrintPragma(pragma, depth, PrintFor(s, depth, rest))
    case Return(e) => PrintKey(KwReturn, Gap(PrintExpr(e, EndLine(rest))))
    case Block(b) => PrintBlock(b, depth, NewLine(rest))
  }

  function PrintFor(s: Stmt, depth: nat, rest: string): string
    requires s.For?
    decreases s, 0
  {
    var body := PrintBlock(s.body, depth, NewLine(rest));
    PrintKey(KwFor, Gap(Put(LParen, PrintInit(s, PrintTest(s, PrintStep(s, Gap(body)))))))
  }

  function PrintName(name: string, rest: string): string {
    name + rest
  }

  // T iv = start;
  function PrintInit(s: Stmt, rest: string): string
    requires s.For?
  {
    var value := PrintExpr(s.start, Put(Semi, Gap(rest)));
    PrintType(s.ivType, Gap(PrintName(s.iv, PrintAssign(value))))
  }

  // iv < limit;
  function PrintTest(s: Stmt, rest: string): string
    requires s.For?
  {
    var limit := PrintExpr(s.limit, Put(Semi, Gap(rest)));
    PrintName(s.iv, Gap(Put(RelSymbol(s.rel), Gap(limit))))
  }

  // iv = iv + step)
  function PrintStep(s: Stmt, rest: string): string
    requires s.For?
  {
    var step := PrintExpr(s.step, Put(RParen, rest));
    var sum := PrintName(s.iv, Gap(Put(if s.stepIsAdd then PlusT else MinusT, Gap(step))));
    PrintName(s.iv, PrintAssign(sum))
  }

  // Only the first `else if` is printed; what it leads to is dropped.
  function PrintElse(e: Else, depth: nat, rest: string): string
    decreases e, 0
  {
    match e
    case NoElse => rest
    case ElseDo(If(c, t, _)) =>
      Gap(PrintKey(KwElse, Gap(PrintKey(KwIf, Gap(PrintParen(c, Gap(PrintBlock(t, depth, rest))))))))
    case ElseDo(Block(b)) => Gap(PrintKey(KwElse, Gap(PrintBlock(b, depth, rest))))
    case ElseDo(_) => rest
  }

  // printBlock, src/frontend/ast_printer.cpp:72-76
  function PrintBlock(b: seq<Stmt>, depth: nat, rest: string): string
    decreases b, 1
  {
    Put(LBrace, NewLine(PrintStmts(b, depth + 1, Indent(depth, Put(RBrace, rest)))))
  }

  function PrintStmts(b: seq<Stmt>, depth: nat, rest: string): string
    decreases b, 0
  {
    if b == [] then rest else PrintStmt(b[0], depth, PrintStmts(b[1..], depth, rest))
  }

  // -------------------------------------------------------------------- programs

  function PrintParam(p: Param, rest: string): string {
    match p
    case Scalar(t, name) => PrintType(t, Gap(name + rest))
    case Array(t, name, size) => PrintType(t, Gap(name + Put(LBracket, PrintExpr(size, Put(RBracket, rest)))))
    case StreamIn(t, name) => PrintStream(KwIn, t, name, rest)
    case StreamOut(t, name) => PrintStream(KwOut, t, name, rest)
  }

  function PrintStream(way: Keyword, t: Type, name: string, rest: string): string {
    PrintKey(way, Gap(PrintKey(KwStream, Put(LtT, PrintType(t, Put(GtT, Gap(name + rest)))))))
  }

  function PrintParams(ps: seq<Param>, rest: string): string {
    if ps == [] then rest
    else PrintParam(ps[0], if |ps| == 1 then rest else Put(Comma, Gap(PrintParams(ps[1..], rest))))
  }

  function PrintConst(c: ConstDecl, rest: string): string {
    var tail :=
      match c
      case ScalarConst(_, _, init) => PrintAssign(PrintExpr(init, EndLine(rest)))
      case ArrayConst(_, _, size, elems) => Put(LBracket, PrintExpr(size, Put(RBracket, PrintElems(elems, EndLine(rest)))));
    PrintKey(KwConst, Gap(PrintType(c.ty, Gap(c.name + tail))))
  }

  function PrintConsts(cs: seq<ConstDecl>, rest: string): string {
    if cs == [] then rest else PrintConst(cs[0], PrintConsts(cs[1..], rest))
  }

  // printProgram, src/frontend/ast_printer.cpp:146-170
  function PrintProgram(p: Program): string {
    var body := Gap(PrintBlock(p.fn.body, 0, NewLine("")));
    PrintConsts(p.consts,
                PrintType(p.fn.returnType, Gap(p.fn.name + Put(LParen, PrintParams(p.fn.params, Put(RParen, body))))))
  }

  // -------------------------------------------------- the tokens of statements

  function SpellSource(s: Source, ts: seq<Token>): seq<Token> {
    match s
    case Value(e) => SpellExpr(e, ts)
    case Read(stream) => [Key(KwRead)] + ([Sym(LParen)] + ([Identifier(stream)] + ([Sym(RParen)] + ts)))
  }

  function SpellList(es: seq<Expr>, ts: seq<Token>): seq<Token> {
    if es == [] then ts
    else SpellExpr(es[0], if |es| == 1 then ts else [Sym(Comma)] + SpellList(es[1..], ts))
  }

  function SpellElems(es: seq<Expr>, ts: seq<Token>): seq<Token> {
    [Sym(AssignT)] + ([Sym(LBrace)] + SpellList(es, [Sym(RBrace)] + ts))
  }

  function SpellParen(e: Expr, ts: seq<Token>): seq<Token> {
    [Sym(LParen)] + SpellExpr(e, [Sym(RParen)] + ts)
  }

  function SpellBracket(e: Expr, ts: seq<Token>): seq<Token> {
    [Sym(LBracket)] + SpellExpr(e, [Sym(RBracket)] + ts)
  }

  function SpellStmt(s: Stmt, ts: seq<Token>): seq<Token>
    decreases s, 1
  {
    match s
    case VarDecl(t, name, init) =>
      [TypeName(t)] + ([Identifier(name)] + ([Sym(AssignT)] + SpellSource(init, [Sym(Semi)] + ts)))
    case ArrayDecl(t, name, size, elems) =>
      var tail := if elems == [] then [Sym(Semi)] + ts else SpellElems(elems, [Sym(Semi)] + ts);
      [TypeName(t)] + ([Identifier(name)] + SpellBracket(size, tail))
    case Assign(name, index, value) =>
      var tail := [Sym(AssignT)] + SpellSource(value, [Sym(Semi)] + ts);
      [Identifier(name)] + (if index.Some? then SpellBracket(index.value, tail) else tail)
    case Write(stream, e) =>
      [Key(KwWrite)] + ([Sym(LParen)] + ([Identifier(stream)] + ([Sym(Comma)] + SpellExpr(e, [Sym(RParen)] + ([Sym(Semi)] + ts)))))
    case If(c, t, e) => [Key(KwIf)] + SpellParen(c, SpellBlock(t, SpellElse(e, ts)))
    case For(pragma, _, _, _, _, _, _, _, _) =>
      if pragma == NoPragma then SpellFor(s, ts) else [PragmaLine(PragmaText(pragma))] + SpellFor(s, ts)
    case Return(e) => [Key(KwReturn)] + SpellExpr(e, [Sym(Semi)] + ts)
    case Block(b) => SpellBlock(b, ts)
  }

  function SpellFor(s: Stmt, ts: seq<Token>): seq<Token>
    requires s.For?
    decreases s, 0
  {
    [Key(KwFor)] + ([Sym(LParen)] + ([TypeName(s.ivType)] + ([Identifier(s.iv)] + ([Sym(AssignT)] +
      SpellExpr(s.start, [Sym(Semi)] + SpellTest(s, SpellStep(s, SpellBlock(s.body, ts))))))))
  }

  // iv < limit ;
  function SpellTest(s: Stmt, ts: seq<Token>): seq<Token>
    requires s.For?
  {
    [Identifier(s.iv)] + ([Sym(RelSymbol(s.rel))] + SpellExpr(s.limit, [Sym(Semi)] + ts))
  }

  // iv = iv + step )
  function SpellStep(s: Stmt, ts: seq<Token>): seq<Token>
    requires s.For?
  {
    [Identifier(s.iv)] + ([Sym(AssignT)] + ([Identifier(s.iv)] +
      ([Sym(if s.stepIsAdd then PlusT else MinusT)] + SpellExpr(s.step, [Sym(RParen)] + ts))))
  }

  function SpellElse(e: Else, ts: seq<Token>): seq<Token>
    decreases e, 0
  {
    match e
    case NoElse => ts
    case ElseDo(If(c, t, _)) => [Key(KwElse)] + ([Key(KwIf)] + SpellParen(c, SpellBlock(t, ts)))
    case ElseDo(Block(b)) => [Key(KwElse)] + SpellBlock(b, ts)
    case ElseDo(_) => ts
  }

  function SpellBlock(b: seq<Stmt>, ts: seq<Token>): seq<Token>
    decreases b, 1
  {
    [Sym(LBrace)] + SpellStmts(b, [Sym(RBrace)] + ts)
  }

  function SpellStmts(b: seq<Stmt>, ts: seq<Token>): seq<Token>
    decreases b, 0
  {
    if b == [] then ts else SpellStmt(b[0], SpellStmts(b[1..], ts))
  }

  function SpellParam(p: Param, ts: seq<Token>): seq<Token> {
    match p
    case Scalar(t, name) => [TypeName(t)] + ([Identifier(name)] + ts)
    case Array(t, name, size) => [TypeName(t)] + ([Identifier(name)] + SpellBracket(size, ts))
    case StreamIn(t, name) => SpellStream(KwIn, t, name, ts)
    case StreamOut(t, name) => SpellStream(KwOut, t, name, ts)
  }

  function SpellStream(way: Keyword, t: Type, name: string, ts: seq<Token>): seq<Token> {
    [Key(way)] + ([Key(KwStream)] + ([Sym(LtT)] + ([TypeName(t)] + ([Sym(GtT)] + ([Identifier(name)] + ts)))))
  }

  function SpellParams(ps: seq<Param>, ts: seq<Token>): seq<Token> {
    if ps == [] then ts
    else SpellParam(ps[0], if |ps| == 1 then ts else [Sym(Comma)] + SpellParams(ps[1..], ts))
  }

  function SpellConst(c: ConstDecl, ts: seq<Token>): seq<Token> {
    var tail :=
      match c
      case ScalarConst(_, _, init) => [Sym(AssignT)] + SpellExpr(init, [Sym(Semi)] + ts)
      case ArrayConst(_, _, size, elems) => SpellBracket(size, SpellElems(elems, [Sym(Semi)] + ts));
    [Key(KwConst)] + ([TypeName(c.ty)] + ([Identifier(c.name)] + tail))
  }

  function SpellConsts(cs: seq<ConstDecl>, ts: seq<Token>): seq<Token> {
    if cs == [] then ts else SpellConst(cs[0], SpellConsts(cs[1..], ts))
  }

  function SpellFunction(f: Function, ts: seq<Token>): seq<Token> {
    [TypeName(f.returnType)] + ([Identifier(f.name)] + ([Sym(LParen)] +
      SpellParams(f.params, [Sym(RParen)] + SpellBlock(f.body, ts))))
  }

  function SpellProgram(p: Program): seq<Token> {
    SpellConsts(p.consts, SpellFunction(p.fn, []))
  }
}
