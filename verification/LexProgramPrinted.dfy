/**
 Lexing undoes printing for statements and programs.
 */
module LexProgramPrinted {
  import Ast
  import opened FixedWidth
  import opened Syntax
  import opened Tokens
  import opened Lex
  import opened Printer
  import opened LexPrinted
  import opened ProgramGrammar
  import opened Grammar
  import ParsePrinted
  import opened ParseProgramPrinted
  import opened Wrappers

  // -------------------------------------------------------- what can be spelled

  predicate LegalList(es: seq<Expr>) {
    forall i | 0 <= i < |es| :: LegalExpr(es[i])
  }

  predicate LegalSource(s: Source) {
    match s
    case Value(e) => LegalExpr(e)
    case Read(stream) => LegalName(stream)
  }

  predicate LegalStmt(s: Stmt)
    decreases s, 0
  {
    match s
    case VarDecl(t, name, init) => LegalType(t) && LegalName(name) && LegalSource(init)
    case ArrayDecl(t, name, size, elems) => LegalType(t) && LegalName(name) && LegalExpr(size) && LegalList(elems)
    case Assign(name, index, value) => LegalName(name) && (index.Some? ==> LegalExpr(index.value)) && LegalSource(value)
    case Write(stream, e) => LegalName(stream) && LegalExpr(e)
    case If(c, t, e) => LegalExpr(c) && LegalBlock(t) && LegalElse(e)
    case For(_, t, iv, a, _, l, _, k, b) =>
      LegalType(t) && LegalName(iv) && LegalExpr(a) && LegalExpr(l) && LegalExpr(k) && LegalBlock(b)
    case Return(e) => LegalExpr(e)
    case Block(b) => LegalBlock(b)
  }

  predicate LegalElse(e: Else)
    decreases e, 1
  {
    match e
    case NoElse => true
    case ElseDo(s) => LegalStmt(s)
  }

  predicate LegalBlock(b: seq<Stmt>)
    decreases b, 0
  {
    b == [] || (LegalStmt(b[0]) && LegalBlock(b[1..]))
  }

  predicate LegalParam(p: Param) {
    LegalType(p.ty) && LegalName(p.name) && (p.Array? ==> LegalExpr(p.size))
  }

  predicate LegalConst(c: ConstDecl) {
    && LegalType(c.ty) && LegalName(c.name)
    && match c
       case ScalarConst(_, _, init) => LegalExpr(init)
       case ArrayConst(_, _, size, elems) => LegalExpr(size) && LegalList(elems)
  }

  // A program of the language: names, types and literals it can spell, in trees
  // its parser can build.
  predicate LegalProgram(p: Program) {
    && (forall i | 0 <= i < |p.consts| :: LegalConst(p.consts[i]))
    && LegalType(p.fn.returnType) && LegalName(p.fn.name)
    && (forall i | 0 <= i < |p.fn.params| :: LegalParam(p.fn.params[i]))
    && LegalBlock(p.fn.body) && BuiltBlock(p.fn.body)
  }

  // --------------------------------------------------------------- small pieces

  lemma NewLineReads(rest: string, ts: seq<Token>)
    requires Reads(rest, ts)
    ensures Reads(NewLine(rest), ts)
  {
    hide Reads;
    SpaceReads('\n', rest, ts);
    assert "\n" + rest == ['\n'] + rest;
  }

  lemma {:induction false} IndentReads(depth: nat, rest: string, ts: seq<Token>)
    requires Reads(rest, ts)
    ensures Reads(Indent(depth, rest), ts)
  {
    hide Reads;
    if depth > 0 {
      var inner := Indent(depth - 1, rest);
      IndentReads(depth - 1, rest, ts);
      SpaceReads(' ', inner, ts);
      SpaceReads(' ', [' '] + inner, ts);
      assert "  " + inner == [' '] + ([' '] + inner);
    }
  }

  lemma PutBreaks(s: Symbol, rest: string)
    ensures Breaks(Put(s, rest))
  {
  }

  lemma SpaceBreaks(rest: string)
    ensures Breaks(Gap(rest)) && Breaks(NewLine(rest)) && Breaks(PrintAssign(rest)) && Breaks(EndLine(rest))
  {
  }

  lemma EqualsReads(rest: string, ts: seq<Token>)
    requires Reads(rest, ts)
    ensures Reads(PrintAssign(rest), [Sym(AssignT)] + ts)
  {
    hide Reads, Put, Gap;
    GapReads(rest, ts);
    SolidApart(AssignT, rest);
    SymbolReads(AssignT, Gap(rest), ts);
    GapReads(Put(AssignT, Gap(rest)), [Sym(AssignT)] + ts);
  }

  lemma EndReads(rest: string, ts: seq<Token>)
    requires Reads(rest, ts)
    ensures Reads(EndLine(rest), [Sym(Semi)] + ts)
  {
    hide Reads;
    NewLineReads(rest, ts);
    SolidReads(Semi, NewLine(rest), ts);
  }

  // e followed by a mark
  lemma ExprThen(e: Expr, s: Symbol, rest: string, ts: seq<Token>)
    requires LegalExpr(e) && Solid(s) && Reads(rest, ts)
    ensures Reads(PrintExpr(e, Put(s, rest)), SpellExpr(e, [Sym(s)] + ts))
  {
    hide Reads, Put, PrintExpr, SpellExpr;
    SolidReads(s, rest, ts);
    PutBreaks(s, rest);
    ExprReads(e, Put(s, rest), [Sym(s)] + ts);
  }

  // e;
  lemma ExprEnds(e: Expr, rest: string, ts: seq<Token>)
    requires LegalExpr(e) && Reads(rest, ts)
    ensures Reads(PrintExpr(e, EndLine(rest)), SpellExpr(e, [Sym(Semi)] + ts))
  {
    hide Reads, Put, PrintExpr, SpellExpr;
    NewLineReads(rest, ts);
    ExprThen(e, Semi, NewLine(rest), ts);
  }

  lemma BracketReads(e: Expr, rest: string, ts: seq<Token>)
    requires LegalExpr(e) && Reads(rest, ts)
    ensures Reads(Put(LBracket, PrintExpr(e, Put(RBracket, rest))), SpellBracket(e, ts))
  {
    hide Reads, Put, PrintExpr, SpellExpr;
    ExprThen(e, RBracket, rest, ts);
    SolidReads(LBracket, PrintExpr(e, Put(RBracket, rest)), SpellExpr(e, [Sym(RBracket)] + ts));
  }

  lemma ParenReads(e: Expr, rest: string, ts: seq<Token>)
    requires LegalExpr(e) && Reads(rest, ts)
    ensures Reads(PrintParen(e, rest), SpellParen(e, ts))
  {
    hide Reads, Put, PrintExpr, SpellExpr;
    ExprThen(e, RParen, rest, ts);
    SolidReads(LParen, PrintExpr(e, Put(RParen, rest)), SpellExpr(e, [Sym(RParen)] + ts));
  }

  // A name followed by something that ends it.
  lemma NamedReads(name: string, rest: string, ts: seq<Token>)
    requires LegalName(name) && Breaks(rest) && Reads(rest, ts)
    ensures Reads(PrintName(name, rest), [Identifier(name)] + ts) && PrintName(name, rest) == name + rest
  {
    hide Reads, LegalName, Breaks;
    NameReads(name, rest, ts);
  }

  // A type, a space and a name
  lemma TypedReads(t: Type, name: string, rest: string, ts: seq<Token>)
    requires LegalType(t) && LegalName(name) && Breaks(rest) && Reads(rest, ts)
    ensures Reads(PrintType(t, Gap(name + rest)), [TypeName(t)] + ([Identifier(name)] + ts))
  {
    hide Reads, LegalName, LegalType, TypeText;
    NameReads(name, rest, ts);
    GapReads(name + rest, [Identifier(name)] + ts);
    TypeReads(t, Gap(name + rest), [Identifier(name)] + ts);
  }

  // A keyword and a space
  lemma KeyGapReads(k: Keyword, rest: string, ts: seq<Token>)
    requires Reads(rest, ts)
    ensures Reads(PrintKey(k, Gap(rest)), [Key(k)] + ts)
  {
    hide Reads, KeywordText;
    GapReads(rest, ts);
    KeywordReads(k, Gap(rest), ts);
  }

  // A keyword and a symbol
  lemma KeySymbolReads(k: Keyword, s: Symbol, rest: string, ts: seq<Token>)
    requires Apart(s, rest) && Reads(rest, ts)
    ensures Reads(PrintKey(k, Put(s, rest)), [Key(k)] + ([Sym(s)] + ts))
  {
    hide Reads, KeywordText, Put, Apart;
    SymbolReads(s, rest, ts);
    PutBreaks(s, rest);
    KeywordReads(k, Put(s, rest), [Sym(s)] + ts);
  }

  lemma SourceReads(s: Source, rest: string, ts: seq<Token>)
    requires LegalSource(s) && Reads(rest, ts)
    ensures Reads(PrintSource(s, EndLine(rest)), SpellSource(s, [Sym(Semi)] + ts))
  {
    hide Reads, Put, PrintExpr, SpellExpr, EndLine, PrintKey, LegalName, Breaks, Apart;
    match s
    case Value(e) => ExprEnds(e, rest, ts);
    case Read(stream) =>
      EndReads(rest, ts);
      var close, closeTs := Put(RParen, EndLine(rest)), [Sym(RParen)] + ([Sym(Semi)] + ts);
      SolidReads(RParen, EndLine(rest), [Sym(Semi)] + ts);
      PutBreaks(RParen, EndLine(rest));
      NameReads(stream, close, closeTs);
      SolidApart(LParen, stream + close);
      KeySymbolReads(KwRead, LParen, stream + close, [Identifier(stream)] + closeTs);
  }

  lemma {:induction false} ListReads(es: seq<Expr>, rest: string, ts: seq<Token>)
    requires LegalList(es) && Breaks(rest) && Reads(rest, ts)
    ensures Reads(PrintList(es, rest), SpellList(es, ts))
    decreases |es|
  {
    hide Reads, Put, Gap, PrintExpr, SpellExpr, LegalExpr, Breaks;
    if es != [] {
      if |es| == 1 {
        ExprReads(es[0], rest, ts);
      } else {
        var more, moreTs := PrintList(es[1..], rest), SpellList(es[1..], ts);
        ListReads(es[1..], rest, ts);
        GapReads(more, moreTs);
        ExprThen(es[0], Comma, Gap(more), moreTs);
      }
    }
  }

  lemma ElemsRead(es: seq<Expr>, rest: string, ts: seq<Token>)
    requires LegalList(es) && Reads(rest, ts)
    ensures Reads(PrintElems(es, EndLine(rest)), SpellElems(es, [Sym(Semi)] + ts))
    ensures Breaks(PrintElems(es, EndLine(rest)))
  {
    hide Reads, Put, Gap, PrintList, SpellList, EndLine, PrintAssign, Breaks, LegalList;
    EndReads(rest, ts);
    var end, endTs := EndLine(rest), [Sym(Semi)] + ts;
    SolidReads(RBrace, end, endTs);
    GapReads(Put(RBrace, end), [Sym(RBrace)] + endTs);
    var close, closeTs := Gap(Put(RBrace, end)), [Sym(RBrace)] + endTs;
    SpaceBreaks(Put(RBrace, end));
    ListReads(es, close, closeTs);
    var inner, innerTs := PrintList(es, close), SpellList(es, closeTs);
    GapReads(inner, innerTs);
    SolidReads(LBrace, Gap(inner), innerTs);
    EqualsReads(Put(LBrace, Gap(inner)), [Sym(LBrace)] + innerTs);
    SpaceBreaks(Put(LBrace, Gap(inner)));
  }

  // ------------------------------------------------------------ simple statements

  lemma DeclarationReads(s: Stmt, depth: nat, rest: string, ts: seq<Token>)
    requires (s.VarDecl? || s.ArrayDecl?) && LegalStmt(s) && Reads(rest, ts)
    ensures Reads(PrintBare(s, depth, rest), SpellStmt(s, ts))
  {
    hide Reads, Put, Gap, PrintSource, SpellSource, PrintElems, SpellElems, PrintExpr, SpellExpr, EndLine, PrintAssign, PrintType, SpellBracket, LegalName, LegalType, Breaks, LegalExpr, LegalList, LegalSource;
    match s
    case VarDecl(t, name, init) =>
      SourceReads(init, rest, ts);
      var value, valueTs := PrintSource(init, EndLine(rest)), SpellSource(init, [Sym(Semi)] + ts);
      EqualsReads(value, valueTs);
      SpaceBreaks(value);
      TypedReads(t, name, PrintAssign(value), [Sym(AssignT)] + valueTs);
    case ArrayDecl(t, name, size, elems) =>
      var tail := if elems == [] then EndLine(rest) else PrintElems(elems, EndLine(rest));
      var tailTs := if elems == [] then [Sym(Semi)] + ts else SpellElems(elems, [Sym(Semi)] + ts);
      EndReads(rest, ts);
      ElemsRead(elems, rest, ts);
      BracketReads(size, tail, tailTs);
      PutBreaks(LBracket, PrintExpr(size, Put(RBracket, tail)));
      TypedReads(t, name, Put(LBracket, PrintExpr(size, Put(RBracket, tail))), SpellBracket(size, tailTs));
  }

  lemma AssignReads(s: Stmt, depth: nat, rest: string, ts: seq<Token>)
    requires s.Assign? && LegalStmt(s) && Reads(rest, ts)
    ensures Reads(PrintBare(s, depth, rest), SpellStmt(s, ts))
  {
    hide Reads, Put, Gap, PrintSource, SpellSource, PrintExpr, SpellExpr, EndLine, PrintAssign, SpellBracket, LegalName, Breaks, LegalExpr, LegalSource;
    SourceReads(s.value, rest, ts);
    var value, valueTs := PrintSource(s.value, EndLine(rest)), SpellSource(s.value, [Sym(Semi)] + ts);
    EqualsReads(value, valueTs);
    SpaceBreaks(value);
    var tail, tailTs := PrintAssign(value), [Sym(AssignT)] + valueTs;
    if s.index.Some? {
      BracketReads(s.index.value, tail, tailTs);
      var inner := Put(LBracket, PrintExpr(s.index.value, Put(RBracket, tail)));
      PutBreaks(LBracket, PrintExpr(s.index.value, Put(RBracket, tail)));
      NameReads(s.name, inner, SpellBracket(s.index.value, tailTs));
    } else {
      NameReads(s.name, tail, tailTs);
    }
  }

  lemma WriteReads(s: Stmt, depth: nat, rest: string, ts: seq<Token>)
    requires s.Write? && LegalStmt(s) && Reads(rest, ts)
    ensures Reads(PrintBare(s, depth, rest), SpellStmt(s, ts))
  {
    hide Reads, Put, Gap, PrintExpr, SpellExpr, EndLine, PrintKey, LegalName, Breaks, LegalExpr, Apart;
    EndReads(rest, ts);
    var end, endTs := EndLine(rest), [Sym(Semi)] + ts;
    ExprThen(s.e, RParen, end, endTs);
    var value, valueTs := PrintExpr(s.e, Put(RParen, end)), SpellExpr(s.e, [Sym(RParen)] + endTs);
    GapReads(value, valueTs);
    SolidReads(Comma, Gap(value), valueTs);
    PutBreaks(Comma, Gap(value));
    NameReads(s.stream, Put(Comma, Gap(value)), [Sym(Comma)] + valueTs);
    var args := s.stream + Put(Comma, Gap(value));
    SolidApart(LParen, args);
    KeySymbolReads(KwWrite, LParen, args, [Identifier(s.stream)] + ([Sym(Comma)] + valueTs));
  }

  lemma ReturnReads(s: Stmt, depth: nat, rest: string, ts: seq<Token>)
    requires s.Return? && LegalStmt(s) && Reads(rest, ts)
    ensures Reads(PrintBare(s, depth, rest), SpellStmt(s, ts))
  {
    hide Reads, Put, Gap, PrintExpr, SpellExpr, EndLine, PrintKey, LegalExpr;
    ExprEnds(s.result, rest, ts);
    KeyGapReads(KwReturn, PrintExpr(s.result, EndLine(rest)), SpellExpr(s.result, [Sym(Semi)] + ts));
  }

  // ----------------------------------------------------------------- loop headers

  lemma InitReads(s: Stmt, rest: string, ts: seq<Token>)
    requires s.For? && LegalStmt(s) && Reads(rest, ts)
    ensures Reads(PrintInit(s, rest),
                  [TypeName(s.ivType)] + ([Identifier(s.iv)] + ([Sym(AssignT)] + SpellExpr(s.start, [Sym(Semi)] + ts))))
  {
    hide Reads, Put, Gap, PrintExpr, SpellExpr, PrintAssign, PrintType, LegalName, LegalType, Breaks, LegalExpr;
    GapReads(rest, ts);
    ExprThen(s.start, Semi, Gap(rest), ts);
    var value, valueTs := PrintExpr(s.start, Put(Semi, Gap(rest))), SpellExpr(s.start, [Sym(Semi)] + ts);
    EqualsReads(value, valueTs);
    SpaceBreaks(value);
    TypedReads(s.ivType, s.iv, PrintAssign(value), [Sym(AssignT)] + valueTs);
  }

  lemma TestReads(s: Stmt, rest: string, ts: seq<Token>)
    requires s.For? && LegalStmt(s) && Reads(rest, ts)
    ensures Reads(PrintTest(s, rest), SpellTest(s, ts))
  {
    hide Reads, Put, Gap, PrintExpr, SpellExpr, LegalName, Breaks, LegalExpr, PrintName;
    GapReads(rest, ts);
    ExprThen(s.limit, Semi, Gap(rest), ts);
    var value, valueTs := PrintExpr(s.limit, Put(Semi, Gap(rest))), SpellExpr(s.limit, [Sym(Semi)] + ts);
    BinaryOperatorReads(Ast.Rel(s.rel), value, valueTs);
    assert BinarySymbol(Ast.Rel(s.rel)) == RelSymbol(s.rel);
    SpaceBreaks(Put(RelSymbol(s.rel), Gap(value)));
    NamedReads(s.iv, Gap(Put(RelSymbol(s.rel), Gap(value))), [Sym(RelSymbol(s.rel))] + valueTs);
  }

  lemma StepReads(s: Stmt, rest: string, ts: seq<Token>)
    requires s.For? && LegalStmt(s) && Reads(rest, ts)
    ensures Reads(PrintStep(s, rest), SpellStep(s, ts))
  {
    hide Reads, Put, Gap, PrintExpr, SpellExpr, LegalName, Breaks, LegalExpr, PrintName, PrintAssign;
    ExprThen(s.step, RParen, rest, ts);
    var value, valueTs := PrintExpr(s.step, Put(RParen, rest)), SpellExpr(s.step, [Sym(RParen)] + ts);
    var sign := if s.stepIsAdd then PlusT else MinusT;
    MarkReads(sign, value, valueTs);
    var sum, sumTs := PrintName(s.iv, Gap(Put(sign, Gap(value)))), [Identifier(s.iv)] + ([Sym(sign)] + valueTs);
    NamedReads(s.iv, Gap(Put(sign, Gap(value))), [Sym(sign)] + valueTs);
    EqualsReads(sum, sumTs);
    SpaceBreaks(sum);
    NamedReads(s.iv, PrintAssign(sum), [Sym(AssignT)] + sumTs);
  }

  lemma HeaderReads(s: Stmt, depth: nat, rest: string, ts: seq<Token>)
    requires s.For? && LegalStmt(s)
    requires Reads(PrintBlock(s.body, depth, NewLine(rest)), SpellBlock(s.body, ts))
    ensures Reads(PrintFor(s, depth, rest), SpellFor(s, ts))
  {
    hide Reads, Put, Gap, PrintBlock, SpellBlock, PrintInit, PrintTest, SpellTest, PrintStep, SpellStep, PrintKey, LegalStmt, SpellExpr;
    var body, bodyTs := PrintBlock(s.body, depth, NewLine(rest)), SpellBlock(s.body, ts);
    GapReads(body, bodyTs);
    StepReads(s, Gap(body), bodyTs);
    var step, stepTs := PrintStep(s, Gap(body)), SpellStep(s, bodyTs);
    TestReads(s, step, stepTs);
    var test, testTs := PrintTest(s, step), SpellTest(s, stepTs);
    InitReads(s, test, testTs);
    var init := PrintInit(s, test);
    var initTs := [TypeName(s.ivType)] + ([Identifier(s.iv)] + ([Sym(AssignT)] + SpellExpr(s.start, [Sym(Semi)] + testTs)));
    SolidReads(LParen, init, initTs);
    KeyGapReads(KwFor, Put(LParen, init), [Sym(LParen)] + initTs);
  }

  // -------------------------------------------------------------------- pragmas

  // A line without a line end.
  lemma {:induction false} LineEnds(line: string, rest: string)
    requires forall i | 0 <= i < |line| :: line[i] != '\n'
    ensures LineLength(line + NewLine(rest)) == |line|
    decreases |line|
  {
    if line == [] {
      assert line + NewLine(rest) == NewLine(rest);
    } else {
      assert (line + NewLine(rest))[1..] == line[1..] + NewLine(rest);
      LineEnds(line[1..], rest);
    }
  }

  lemma PragmaLineReads(line: string, rest: string, ts: seq<Token>)
    requires |line| > 7 && line[..7] == PRAGMA && line[7] == ' ' && forall i | 0 <= i < |line| :: line[i] != '\n'
    requires Reads(rest, ts)
    ensures Reads(line + NewLine(rest), [PragmaLine(line)] + ts)
  {
    hide Tokenize;
    var s := line + NewLine(rest);
    LineEnds(line, rest);
    assert s[..|line|] == line && s[|line|..] == NewLine(rest);
    assert line[..7][0] == '#' && s[0] == '#';
    NewLineReads(rest, ts);
    TokenReads(s, PragmaLine(line), NewLine(rest), ts);
  }

  lemma PragmaShape(p: Pragma)
    requires p != NoPragma
    ensures var line := PragmaText(p);
            |line| > 7 && line[..7] == PRAGMA && line[7] == ' ' && forall i | 0 <= i < |line| :: line[i] != '\n'
  {
    hide NumberText, Decimal;
    match p
    case Unroll => HeadShape(UNROLL, []);
    case UnrollBy(n) =>
      NumberDigits(n);
      HeadShape(UNROLL_BY, NumberText(n));
    case Pipeline(n) =>
      NumberDigits(n);
      HeadShape(PIPELINE, NumberText(n));
  }

  lemma HeadShape(head: string, d: string)
    requires head == UNROLL || head == UNROLL_BY || head == PIPELINE
    requires forall i | 0 <= i < |d| :: Digit(d[i])
    ensures var line := head + d;
            |line| > 7 && line[..7] == PRAGMA && line[7] == ' ' && forall i | 0 <= i < |line| :: line[i] != '\n'
    ensures head + [] == head
  {
    var line := head + d;
    assert head[..7] == PRAGMA;
    assert line[..7] == head[..7];
    forall i | 0 <= i < |line| ensures line[i] != '\n' {
      if i < |head| {
        assert line[i] == head[i];
      } else {
        assert line[i] == d[i - |head|];
      }
    }
  }

  lemma PragmaReads(p: Pragma, depth: nat, rest: string, ts: seq<Token>)
    requires Reads(rest, ts)
    ensures Reads(PrintPragma(p, depth, rest), if p == NoPragma then ts else [PragmaLine(PragmaText(p))] + ts)
  {
    hide Reads, PragmaText, NewLine, Indent;
    if p != NoPragma {
      PragmaShape(p);
      IndentReads(depth, rest, ts);
      PragmaLineReads(PragmaText(p), Indent(depth, rest), ts);
    }
  }

  // ------------------------------------------------------------------------ blocks

  lemma {:induction false} StmtReads(s: Stmt, depth: nat, rest: string, ts: seq<Token>)
    requires LegalStmt(s) && Reads(rest, ts)
    ensures Reads(PrintStmt(s, depth, rest), SpellStmt(s, ts))
    decreases s, 3
  {
    hide Reads, PrintBare, SpellStmt, Indent;
    BareReads(s, depth, rest, ts);
    IndentReads(depth, PrintBare(s, depth, rest), SpellStmt(s, ts));
  }

  lemma {:induction false} BareReads(s: Stmt, depth: nat, rest: string, ts: seq<Token>)
    requires LegalStmt(s) && Reads(rest, ts)
    ensures Reads(PrintBare(s, depth, rest), SpellStmt(s, ts))
    decreases s, 2
  {
    hide Reads, PrintBare, SpellStmt;
    match s
    case VarDecl(_, _, _) => DeclarationReads(s, depth, rest, ts);
    case ArrayDecl(_, _, _, _) => DeclarationReads(s, depth, rest, ts);
    case Assign(_, _, _) => AssignReads(s, depth, rest, ts);
    case Write(_, _) => WriteReads(s, depth, rest, ts);
    case Return(_) => ReturnReads(s, depth, rest, ts);
    case If(_, _, _) => IfReads(s, depth, rest, ts);
    case For(_, _, _, _, _, _, _, _, _) => ForReads(s, depth, rest, ts);
    case Block(b) => BlockStmtReads(b, depth, rest, ts);
  }

  lemma {:induction false} BlockStmtReads(b: seq<Stmt>, depth: nat, rest: string, ts: seq<Token>)
    requires LegalBlock(b) && Reads(rest, ts)
    ensures Reads(PrintBare(Block(b), depth, rest), SpellStmt(Block(b), ts))
    decreases b, 2
  {
    hide Reads, PrintBlock, SpellBlock;
    NewLineReads(rest, ts);
    BlockReads(b, depth, NewLine(rest), ts);
  }

  lemma {:induction false} ForReads(s: Stmt, depth: nat, rest: string, ts: seq<Token>)
    requires s.For? && LegalStmt(s) && Reads(rest, ts)
    ensures Reads(PrintBare(s, depth, rest), SpellStmt(s, ts))
    decreases s, 1
  {
    hide Reads, PrintBlock, SpellBlock, PrintFor, SpellFor, PrintPragma;
    NewLineReads(rest, ts);
    BlockReads(s.body, depth, NewLine(rest), ts);
    HeaderReads(s, depth, rest, ts);
    PragmaReads(s.pragma, depth, PrintFor(s, depth, rest), SpellFor(s, ts));
  }

  lemma {:induction false} IfReads(s: Stmt, depth: nat, rest: string, ts: seq<Token>)
    requires s.If? && LegalStmt(s) && Reads(rest, ts)
    ensures Reads(PrintBare(s, depth, rest), SpellStmt(s, ts))
    decreases s, 1
  {
    hide Reads, PrintBlock, SpellBlock, PrintElse, SpellElse, PrintKey, PrintParen, SpellParen, Gap, NewLine;
    NewLineReads(rest, ts);
    ElseReads(s.elseS, depth, NewLine(rest), ts);
    var tail, tailTs := PrintElse(s.elseS, depth, NewLine(rest)), SpellElse(s.elseS, ts);
    BlockReads(s.thenB, depth, tail, tailTs);
    IfHeadReads(s.cond, PrintBlock(s.thenB, depth, tail), SpellBlock(s.thenB, tailTs));
  }

  // if (c)
  lemma IfHeadReads(c: Expr, rest: string, ts: seq<Token>)
    requires LegalExpr(c) && Reads(rest, ts)
    ensures Reads(PrintKey(KwIf, Gap(PrintParen(c, Gap(rest)))), [Key(KwIf)] + SpellParen(c, ts))
  {
    hide Reads, Gap, PrintParen, SpellParen, PrintKey;
    GapReads(rest, ts);
    ParenReads(c, Gap(rest), ts);
    KeyGapReads(KwIf, PrintParen(c, Gap(rest)), SpellParen(c, ts));
  }

  lemma {:induction false} ElseReads(e: Else, depth: nat, rest: string, ts: seq<Token>)
    requires LegalElse(e) && Reads(rest, ts)
    ensures Reads(PrintElse(e, depth, rest), SpellElse(e, ts))
    decreases e, 1
  {
    hide Reads, PrintBlock, SpellBlock, PrintKey, PrintParen, SpellParen, Gap;
    match e
    case NoElse =>
    case ElseDo(If(c, t, _)) =>
      assert LegalStmt(e.stmt);
      BlockReads(t, depth, rest, ts);
      IfHeadReads(c, PrintBlock(t, depth, rest), SpellBlock(t, ts));
      var inner := PrintKey(KwIf, Gap(PrintParen(c, Gap(PrintBlock(t, depth, rest)))));
      ElseKeyReads(inner, [Key(KwIf)] + SpellParen(c, SpellBlock(t, ts)));
    case ElseDo(Block(b)) =>
      assert LegalStmt(e.stmt);
      BlockReads(b, depth, rest, ts);
      ElseKeyReads(PrintBlock(b, depth, rest), SpellBlock(b, ts));
    case ElseDo(_) =>
  }

  lemma ElseKeyReads(rest: string, ts: seq<Token>)
    requires Reads(rest, ts)
    ensures Reads(Gap(PrintKey(KwElse, Gap(rest))), [Key(KwElse)] + ts)
  {
    hide Reads, Gap, PrintKey;
    KeyGapReads(KwElse, rest, ts);
    GapReads(PrintKey(KwElse, Gap(rest)), [Key(KwElse)] + ts);
  }

  lemma {:induction false} BlockReads(b: seq<Stmt>, depth: nat, rest: string, ts: seq<Token>)
    requires LegalBlock(b) && Reads(rest, ts)
    ensures Reads(PrintBlock(b, depth, rest), SpellBlock(b, ts))
    decreases b, 1
  {
    hide Reads, Put, Indent, NewLine, PrintStmts, SpellStmts;
    SolidReads(RBrace, rest, ts);
    IndentReads(depth, Put(RBrace, rest), [Sym(RBrace)] + ts);
    var close, closeTs := Indent(depth, Put(RBrace, rest)), [Sym(RBrace)] + ts;
    StmtsRead(b, depth + 1, close, closeTs);
    var inner, innerTs := PrintStmts(b, depth + 1, close), SpellStmts(b, closeTs);
    NewLineReads(inner, innerTs);
    SolidReads(LBrace, NewLine(inner), innerTs);
  }

  lemma {:induction false} StmtsRead(b: seq<Stmt>, depth: nat, rest: string, ts: seq<Token>)
    requires LegalBlock(b) && Reads(rest, ts)
    ensures Reads(PrintStmts(b, depth, rest), SpellStmts(b, ts))
    decreases b, 0
  {
    hide Reads, PrintStmt, SpellStmt;
    if b != [] {
      StmtsRead(b[1..], depth, rest, ts);
      StmtReads(b[0], depth, PrintStmts(b[1..], depth, rest), SpellStmts(b[1..], ts));
    }
  }

  // --------------------------------------------------------------------- programs

  lemma ParamReads(p: Param, rest: string, ts: seq<Token>)
    requires LegalParam(p) && Breaks(rest) && Reads(rest, ts)
    ensures Reads(PrintParam(p, rest), SpellParam(p, ts))
  {
    hide Reads, Put, Gap, PrintExpr, PrintType, SpellBracket, LegalName, LegalType, Breaks, LegalExpr, PrintStream, SpellStream;
    match p
    case Scalar(t, name) => TypedReads(t, name, rest, ts);
    case Array(t, name, size) =>
      BracketReads(size, rest, ts);
      PutBreaks(LBracket, PrintExpr(size, Put(RBracket, rest)));
      TypedReads(t, name, Put(LBracket, PrintExpr(size, Put(RBracket, rest))), SpellBracket(size, ts));
    case StreamIn(t, name) => StreamReads(KwIn, t, name, rest, ts);
    case StreamOut(t, name) => StreamReads(KwOut, t, name, rest, ts);
  }

  lemma StreamReads(way: Keyword, t: Type, name: string, rest: string, ts: seq<Token>)
    requires LegalType(t) && LegalName(name) && Breaks(rest) && Reads(rest, ts)
    ensures Reads(PrintStream(way, t, name, rest), SpellStream(way, t, name, ts))
  {
    hide Reads, Put, Gap, LegalName, LegalType, Breaks, Apart, TypeText, PrintKey;
    NameReads(name, rest, ts);
    var named, namedTs := name + rest, [Identifier(name)] + ts;
    GapReads(named, namedTs);
    SolidApart(GtT, named);
    SymbolReads(GtT, Gap(named), namedTs);
    PutBreaks(GtT, Gap(named));
    var close, closeTs := Put(GtT, Gap(named)), [Sym(GtT)] + namedTs;
    TypeReads(t, close, closeTs);
    var typed, typedTs := PrintType(t, close), [TypeName(t)] + closeTs;
    TypeApart(t, close);
    KeySymbolReads(KwStream, LtT, typed, typedTs);
    KeyGapReads(way, PrintKey(KwStream, Put(LtT, typed)), [Key(KwStream)] + ([Sym(LtT)] + typedTs));
  }

  lemma TypeApart(t: Type, rest: string)
    ensures Apart(LtT, PrintType(t, rest))
  {
    assert TypeText(t)[0] == 'i' || TypeText(t)[0] == 'u';
    assert PrintType(t, rest)[0] == TypeText(t)[0];
  }

  lemma {:induction false} ParamsRead(ps: seq<Param>, rest: string, ts: seq<Token>)
    requires (forall i | 0 <= i < |ps| :: LegalParam(ps[i])) && Breaks(rest) && Reads(rest, ts)
    ensures Reads(PrintParams(ps, rest), SpellParams(ps, ts))
    decreases |ps|
  {
    hide Reads, Put, Gap, PrintParam, SpellParam, LegalParam, Breaks;
    if ps != [] {
      if |ps| == 1 {
        ParamReads(ps[0], rest, ts);
      } else {
        var more, moreTs := PrintParams(ps[1..], rest), SpellParams(ps[1..], ts);
        ParamsRead(ps[1..], rest, ts);
        GapReads(more, moreTs);
        SolidReads(Comma, Gap(more), moreTs);
        PutBreaks(Comma, Gap(more));
        ParamReads(ps[0], Put(Comma, Gap(more)), [Sym(Comma)] + moreTs);
      }
    }
  }

  lemma ConstReads(c: ConstDecl, rest: string, ts: seq<Token>)
    requires LegalConst(c) && Reads(rest, ts)
    ensures Reads(PrintConst(c, rest), SpellConst(c, ts))
  {
    hide Reads, Put, Gap, PrintExpr, SpellExpr, PrintElems, SpellElems, EndLine, PrintAssign, PrintType, PrintKey, SpellBracket, LegalName, LegalType, Breaks, LegalExpr, LegalList;
    match c
    case ScalarConst(t, name, init) =>
      ExprEnds(init, rest, ts);
      var value, valueTs := PrintExpr(init, EndLine(rest)), SpellExpr(init, [Sym(Semi)] + ts);
      EqualsReads(value, valueTs);
      SpaceBreaks(value);
      NamedConstReads(t, name, PrintAssign(value), [Sym(AssignT)] + valueTs);
    case ArrayConst(t, name, size, elems) =>
      ElemsRead(elems, rest, ts);
      var tail, tailTs := PrintElems(elems, EndLine(rest)), SpellElems(elems, [Sym(Semi)] + ts);
      BracketReads(size, tail, tailTs);
      PutBreaks(LBracket, PrintExpr(size, Put(RBracket, tail)));
      NamedConstReads(t, name, Put(LBracket, PrintExpr(size, Put(RBracket, tail))), SpellBracket(size, tailTs));
  }

  // const T name
  lemma NamedConstReads(t: Type, name: string, tail: string, ts: seq<Token>)
    requires LegalType(t) && LegalName(name) && Breaks(tail) && Reads(tail, ts)
    ensures Reads(PrintKey(KwConst, Gap(PrintType(t, Gap(name + tail)))), [Key(KwConst)] + ([TypeName(t)] + ([Identifier(name)] + ts)))
  {
    hide Reads, LegalName, LegalType, Breaks, PrintType, Gap, PrintKey;
    TypedReads(t, name, tail, ts);
    KeyGapReads(KwConst, PrintType(t, Gap(name + tail)), [TypeName(t)] + ([Identifier(name)] + ts));
  }

  lemma {:induction false} ConstsRead(cs: seq<ConstDecl>, rest: string, ts: seq<Token>)
    requires (forall i | 0 <= i < |cs| :: LegalConst(cs[i])) && Reads(rest, ts)
    ensures Reads(PrintConsts(cs, rest), SpellConsts(cs, ts))
    decreases |cs|
  {
    hide Reads, PrintConst, SpellConst, LegalConst;
    if cs != [] {
      ConstsRead(cs[1..], rest, ts);
      ConstReads(cs[0], PrintConsts(cs[1..], rest), SpellConsts(cs[1..], ts));
    }
  }

  lemma ProgramReads(p: Program)
    requires LegalProgram(p)
    ensures Reads(PrintProgram(p), SpellProgram(p))
  {
    hide Reads, Put, Gap, NewLine, PrintBlock, SpellBlock, PrintParams, SpellParams, PrintConsts, SpellConsts, PrintType, LegalName, LegalType, Breaks, LegalParam, LegalConst, LegalBlock;
    NothingReads();
    NewLineReads("", []);
    BlockReads(p.fn.body, 0, NewLine(""), []);
    var block, blockTs := PrintBlock(p.fn.body, 0, NewLine("")), SpellBlock(p.fn.body, []);
    GapReads(block, blockTs);
    SolidReads(RParen, Gap(block), blockTs);
    PutBreaks(RParen, Gap(block));
    var close, closeTs := Put(RParen, Gap(block)), [Sym(RParen)] + blockTs;
    ParamsRead(p.fn.params, close, closeTs);
    var params, paramsTs := PrintParams(p.fn.params, close), SpellParams(p.fn.params, closeTs);
    SolidReads(LParen, params, paramsTs);
    PutBreaks(LParen, params);
    TypedReads(p.fn.returnType, p.fn.name, Put(LParen, params), [Sym(LParen)] + paramsTs);
    ConstsRead(p.consts, PrintType(p.fn.returnType, Gap(p.fn.name + Put(LParen, params))), SpellFunction(p.fn, []));
  }

  lemma NothingReads()
    ensures Reads("", [])
  {
  }

  // ------------------------------------------------------------------ round trips

  // Reading back the text of an expression gives the expression.
  lemma ExprRoundTrip(e: Expr)
    requires LegalExpr(e)
    ensures var ts := Tokenize(PrintExpr(e, ""));
            ts.Some? && ParseConditional(ts.value) == Some(Parsed(e, []))
  {
    hide Tokenize, PrintExpr, SpellExpr, ParseConditional;
    NothingReads();
    ExprReads(e, "", []);
    ParsePrinted.ConditionalParses(e, []);
  }

  function ReadProgram(text: string): Option<Program> {
    var ts :- Tokenize(text);
    ParseProgram(ts)
  }

  // Reading back the text of a program gives the program, exactly when no chain
  // goes past its first `else if`; and always what the printer wrote.
  lemma ProgramRoundTrip(p: Program)
    requires LegalProgram(p)
    ensures ReadProgram(PrintProgram(p)) == Some(CutProgram(p))
    ensures ReadProgram(PrintProgram(p)) == Some(p) <==> ShortBlock(p.fn.body)
  {
    hide Tokenize, ParseProgram, PrintProgram, SpellProgram;
    ProgramReads(p);
    ProgramParses(p);
  }

  // ------------------------------------------------------- printing is idempotent

  lemma {:induction false} CutPrints(s: Stmt, depth: nat, rest: string)
    ensures PrintBare(Cut(s), depth, rest) == PrintBare(s, depth, rest)
    decreases s, 1
  {
    hide PrintExpr, PrintParen, PrintKey, Gap, NewLine, PrintPragma, PrintSource, PrintElems, PrintAssign, EndLine, PrintType;
    match s
    case If(_, t, e) =>
      CutElsePrints(e, depth, NewLine(rest));
      CutBlockPrints(t, depth, PrintElse(e, depth, NewLine(rest)));
    case For(_, _, _, _, _, _, _, _, b) =>
      CutBlockPrints(b, depth, NewLine(rest));
    case Block(b) =>
      CutBlockPrints(b, depth, NewLine(rest));
    case _ =>
  }

  lemma {:induction false} CutElsePrints(e: Else, depth: nat, rest: string)
    ensures PrintElse(CutElse(e), depth, rest) == PrintElse(e, depth, rest)
    decreases e, 2
  {
    hide PrintParen, PrintKey, Gap, PrintBlock;
    match e
    case ElseDo(If(_, t, _)) => CutBlockPrints(t, depth, rest);
    case ElseDo(Block(b)) => CutBlockPrints(b, depth, rest);
    case _ =>
  }

  lemma {:induction false} CutBlockPrints(b: seq<Stmt>, depth: nat, rest: string)
    ensures PrintBlock(CutBlock(b), depth, rest) == PrintBlock(b, depth, rest)
    decreases b, 1
  {
    hide PrintStmts, Indent, Put, NewLine;
    CutStmtsPrint(b, depth + 1, Indent(depth, Put(RBrace, rest)));
  }

  lemma {:induction false} CutStmtsPrint(b: seq<Stmt>, depth: nat, rest: string)
    ensures PrintStmts(CutBlock(b), depth, rest) == PrintStmts(b, depth, rest)
    decreases b, 0
  {
    hide PrintBare, Indent;
    if b != [] {
      assert CutBlock(b)[1..] == CutBlock(b[1..]);
      CutStmtsPrint(b[1..], depth, rest);
      CutPrints(b[0], depth, PrintStmts(b[1..], depth, rest));
    }
  }

  // Printing what was read back prints the same text, whatever was dropped.
  lemma PrintIdempotent(p: Program)
    requires LegalProgram(p)
    ensures var q := ReadProgram(PrintProgram(p)); q.Some? && PrintProgram(q.value) == PrintProgram(p)
  {
    hide ReadProgram, PrintBlock, PrintConsts, PrintParams;
    ProgramRoundTrip(p);
    CutBlockPrints(p.fn.body, 0, NewLine(""));
  }
}
