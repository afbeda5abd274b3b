/**
 Parsing undoes printing for statements and programs, up to the one thing the
 printer drops: what follows the first `else if` of a chain.
 */
module ParseProgramPrinted {
  import Ast
  import opened FixedWidth
  import opened Syntax
  import opened Tokens
  import opened Grammar
  import opened ProgramGrammar
  import Lex
  import opened Printer
  import opened ParsePrinted
  import LexPrinted
  import opened Wrappers

  // ---------------------------------------------------------- what is printable

  // The statement the printer writes: a chain is cut after its first `else if`.
  function Cut(s: Stmt): Stmt
    decreases s, 0
  {
    match s
    case If(c, t, e) => If(c, CutBlock(t), CutElse(e))
    case For(p, t, iv, a, rel, l, isAdd, k, b) => For(p, t, iv, a, rel, l, isAdd, k, CutBlock(b))
    case Block(b) => Block(CutBlock(b))
    case _ => s
  }

  function CutElse(e: Else): Else
    decreases e, 0
  {
    match e
    case NoElse => NoElse
    case ElseDo(If(c, t, _)) => ElseDo(If(c, CutBlock(t), NoElse))
    case ElseDo(s) => ElseDo(Cut(s))
  }

  function CutBlock(b: seq<Stmt>): seq<Stmt>
    decreases b, 0
  {
    if b == [] then [] else [Cut(b[0])] + CutBlock(b[1..])
  }

  // A statement the parser can have built.
  predicate Built(s: Stmt)
    decreases s, 0
  {
    match s
    case If(_, t, e) => BuiltBlock(t) && BuiltElse(e)
    case For(p, _, _, _, rel, _, _, _, b) =>
      && (rel == Lt || rel == Le || rel == Gt || rel == Ge)
      && (p.UnrollBy? ==> p.factor <= MAX_U32) && (p.Pipeline? ==> p.ii <= MAX_U32)
      && BuiltBlock(b)
    case Block(b) => BuiltBlock(b)
    case _ => true
  }

  predicate BuiltElse(e: Else)
    decreases e, 1
  {
    match e
    case NoElse => true
    case ElseDo(s) => (s.If? || s.Block?) && Built(s)
  }

  predicate BuiltBlock(b: seq<Stmt>)
    decreases b, 0
  {
    b == [] || (Built(b[0]) && BuiltBlock(b[1..]))
  }

  // No chain goes past its first `else if`.
  predicate Short(s: Stmt)
    decreases s, 0
  {
    match s
    case If(_, t, e) => ShortBlock(t) && ShortElse(e)
    case For(_, _, _, _, _, _, _, _, b) => ShortBlock(b)
    case Block(b) => ShortBlock(b)
    case _ => true
  }

  predicate ShortElse(e: Else)
    decreases e, 1
  {
    match e
    case NoElse => true
    case ElseDo(s) => Short(s) && (s.If? ==> s.elseS == NoElse)
  }

  predicate ShortBlock(b: seq<Stmt>)
    decreases b, 0
  {
    b == [] || (Short(b[0]) && ShortBlock(b[1..]))
  }

  // `if (c) { } else if (c) { } else { }` can be built, and loses its `else`.
  lemma LostElse(c: Expr)
    ensures var s := If(c, [], ElseDo(If(c, [], ElseDo(Block([])))));
            Built(s) && !Short(s) && Cut(s) == If(c, [], ElseDo(If(c, [], NoElse)))
  {
    var inner := If(c, [], ElseDo(Block([])));
    assert Built(Block([])) && Built(inner);
  }

  // Nothing is lost exactly when every chain is short.
  lemma {:induction false} CutIff(s: Stmt)
    ensures Cut(s) == s <==> Short(s)
    decreases s, 0
  {
    match s
    case If(_, t, e) =>
      CutBlockIff(t);
      CutElseIff(e);
    case For(_, _, _, _, _, _, _, _, b) => CutBlockIff(b);
    case Block(b) => CutBlockIff(b);
    case _ =>
  }

  lemma {:induction false} CutElseIff(e: Else)
    ensures CutElse(e) == e <==> ShortElse(e)
    decreases e, 1
  {
    match e
    case NoElse =>
    case ElseDo(If(c, t, f)) =>
      CutBlockIff(t);
      assert Short(e.stmt) == (ShortBlock(t) && ShortElse(f));
    case ElseDo(s) => CutIff(s);
  }

  lemma {:induction false} CutBlockIff(b: seq<Stmt>)
    ensures CutBlock(b) == b <==> ShortBlock(b)
    decreases b, 0
  {
    if b != [] {
      CutIff(b[0]);
      CutBlockIff(b[1..]);
      assert b == [b[0]] + b[1..];
      assert CutBlock(b)[1..] == CutBlock(b[1..]);
    }
  }

  // ----------------------------------------------------------------- small pieces

  lemma AfterToken(t: Token, ts: seq<Token>)
    ensures ([t] + ts)[1..] == ts && Peek([t] + ts) == t
  {
  }

  lemma AfterTokens()
    ensures forall t: Token, ts: seq<Token> :: ([t] + ts)[1..] == ts && Peek([t] + ts) == t
  {
    forall t: Token, ts: seq<Token> ensures ([t] + ts)[1..] == ts && Peek([t] + ts) == t {
      AfterToken(t, ts);
    }
  }

  // After an expression: a mark that ends it.
  predicate Mark(s: Symbol) {
    s == Semi || s == RParen || s == RBracket || s == RBrace || s == Comma
  }

  lemma MarkedParses(e: Expr, s: Symbol, ts: seq<Token>)
    requires Mark(s)
    ensures ParseConditional(SpellExpr(e, [Sym(s)] + ts)) == Some(Parsed(e, [Sym(s)] + ts))
    ensures Expect([Sym(s)] + ts, s) == Some(ts)
  {
    hide ParseConditional, SpellExpr;
    AfterToken(Sym(s), ts);
    ConditionalParses(e, [Sym(s)] + ts);
  }

  // An expression does not begin like `read`, a block or a list end.
  lemma ExprFirst(e: Expr, ts: seq<Token>)
    ensures var t := Peek(SpellExpr(e, ts)); t != Key(KwRead) && t != Sym(RBrace) && !t.Key?
    decreases e
  {
    match e
    case _ =>
  }

  lemma SourceParses(s: Source, ts: seq<Token>)
    ensures ParseSource(SpellSource(s, [Sym(Semi)] + ts)) == Some(Found(s, [Sym(Semi)] + ts))
    ensures Expect([Sym(Semi)] + ts, Semi) == Some(ts)
  {
    hide ParseConditional, SpellExpr;
    AfterTokens();
    match s
    case Value(e) =>
      MarkedParses(e, Semi, ts);
      ExprFirst(e, [Sym(Semi)] + ts);
    case Read(_) =>
  }

  lemma {:induction false} ListParses(es: seq<Expr>, ts: seq<Token>)
    ensures ParseList(SpellList(es, [Sym(RBrace)] + ts)) == Some(Found(es, [Sym(RBrace)] + ts))
    decreases |es|
  {
    hide ParseConditional, SpellExpr;
    var close := [Sym(RBrace)] + ts;
    AfterToken(Sym(RBrace), ts);
    if es != [] {
      if |es| == 1 {
        assert es == [es[0]];
        MarkedParses(es[0], RBrace, ts);
        ExprFirst(es[0], close);
      } else {
        var more := SpellList(es[1..], close);
        ListParses(es[1..], ts);
        MarkedParses(es[0], Comma, more);
        ExprFirst(es[0], [Sym(Comma)] + more);
        AfterToken(Sym(Comma), more);
        assert [es[0]] + es[1..] == es;
      }
    }
  }

  lemma ElemsParse(es: seq<Expr>, ts: seq<Token>)
    ensures Peek(SpellElems(es, ts)) == Sym(AssignT)
    ensures ParseElems(SpellElems(es, ts)[1..]) == Some(Found(es, ts))
  {
    hide ParseList, SpellList;
    var inner := SpellList(es, [Sym(RBrace)] + ts);
    AfterToken(Sym(AssignT), [Sym(LBrace)] + inner);
    AfterToken(Sym(LBrace), inner);
    AfterToken(Sym(RBrace), ts);
    ListParses(es, ts);
  }

  lemma BracketParses(e: Expr, ts: seq<Token>)
    ensures Peek(SpellBracket(e, ts)) == Sym(LBracket)
    ensures ParseBracket(SpellBracket(e, ts)) == Some(Parsed(e, ts))
  {
    hide ParseConditional, SpellExpr;
    AfterToken(Sym(LBracket), SpellExpr(e, [Sym(RBracket)] + ts));
    MarkedParses(e, RBracket, ts);
  }

  lemma ParenParses(e: Expr, ts: seq<Token>)
    ensures ParseParen(SpellParen(e, ts)) == Some(Parsed(e, ts))
  {
    hide ParseConditional, SpellExpr;
    AfterToken(Sym(LParen), SpellExpr(e, [Sym(RParen)] + ts));
    MarkedParses(e, RParen, ts);
  }

  // ------------------------------------------------------------ simple statements

  lemma DeclarationParses(s: Stmt, ts: seq<Token>)
    requires s.VarDecl? || s.ArrayDecl?
    ensures ParseDeclaration(SpellStmt(s, ts)) == Some(Found(s, ts))
  {
    hide ParseSource, SpellSource, ParseElems, SpellElems, ParseBracket, SpellBracket;
    AfterTokens();
    match s
    case VarDecl(_, _, init) => SourceParses(init, ts);
    case ArrayDecl(_, _, size, elems) =>
      if elems == [] {
        BracketParses(size, [Sym(Semi)] + ts);
      } else {
        BracketParses(size, SpellElems(elems, [Sym(Semi)] + ts));
        ElemsParse(elems, [Sym(Semi)] + ts);
      }
  }

  lemma AssignParses(s: Stmt, ts: seq<Token>)
    requires s.Assign?
    ensures ParseAssign(SpellStmt(s, ts)) == Some(Found(s, ts))
  {
    hide ParseSource, SpellSource, ParseBracket, SpellBracket;
    AfterTokens();
    SourceParses(s.value, ts);
    if s.index.Some? {
      BracketParses(s.index.value, [Sym(AssignT)] + SpellSource(s.value, [Sym(Semi)] + ts));
    }
  }

  lemma WriteParses(s: Stmt, ts: seq<Token>)
    requires s.Write?
    ensures ParseWrite(SpellStmt(s, ts)) == Some(Found(s, ts))
  {
    hide ParseConditional, SpellExpr;
    AfterTokens();
    MarkedParses(s.e, RParen, [Sym(Semi)] + ts);
  }

  lemma ReturnParses(s: Stmt, ts: seq<Token>)
    requires s.Return?
    ensures ParseReturn(SpellStmt(s, ts)) == Some(Found(s, ts))
  {
    hide ParseConditional, SpellExpr;
    AfterTokens();
    MarkedParses(s.result, Semi, ts);
  }

  // ---------------------------------------------------------------- loop headers

  lemma TestParses(s: Stmt, ts: seq<Token>)
    requires s.For? && Built(s)
    ensures ParseTest(SpellTest(s, ts), s.iv) == Some(Found(Test(s.rel, s.limit), ts))
  {
    hide ParseConditional, SpellExpr;
    AfterTokens();
    MarkedParses(s.limit, Semi, ts);
  }

  lemma StepParses(s: Stmt, ts: seq<Token>)
    requires s.For?
    ensures ParseStep(SpellStep(s, ts), s.iv) == Some(Found(Step(s.stepIsAdd, s.step), ts))
  {
    hide ParseConditional, SpellExpr;
    AfterTokens();
    MarkedParses(s.step, RParen, ts);
  }

  lemma HeaderParses(s: Stmt, ts: seq<Token>)
    requires s.For? && Built(s)
    ensures ParseHeader(SpellFor(s, ts)) ==
            Some(Found(Header(s.ivType, s.iv, s.start, Test(s.rel, s.limit), Step(s.stepIsAdd, s.step)), SpellBlock(s.body, ts)))
  {
    hide ParseConditional, SpellExpr, ParseTest, SpellTest, ParseStep, SpellStep, SpellBlock;
    AfterTokens();
    var body := SpellBlock(s.body, ts);
    StepParses(s, body);
    TestParses(s, SpellStep(s, body));
    MarkedParses(s.start, Semi, SpellTest(s, SpellStep(s, body)));
  }

  lemma PragmaParses(p: Pragma)
    requires p != NoPragma && (p.UnrollBy? ==> p.factor <= MAX_U32) && (p.Pipeline? ==> p.ii <= MAX_U32)
    ensures ParsePragma(PragmaText(p)) == Some(p)
  {
    hide Lex.Decimal, NumberText;
    match p
    case Unroll =>
    case UnrollBy(n) =>
      LexPrinted.NumberDigits(n);
      PrefixRead(UNROLL_BY, NumberText(n));
    case Pipeline(n) =>
      LexPrinted.NumberDigits(n);
      PrefixRead(PIPELINE, NumberText(n));
      var line := PragmaText(p);
      assert line[8] == PIPELINE[8] && line[8] != UNROLL_BY[8];
      NotPrefix(line, UNROLL_BY, 8);
      NotPrefix(line, UNROLL, 8);
  }

  lemma PrefixRead(prefix: string, d: string)
    ensures StartsWith(prefix + d, prefix) && (prefix + d)[|prefix|..] == d
  {
    assert (prefix + d)[..|prefix|] == prefix;
  }

  lemma NotPrefix(line: string, prefix: string, i: nat)
    requires i < |line| && i < |prefix| && line[i] != prefix[i]
    ensures !StartsWith(line, prefix) && line != prefix
  {
    if |line| >= |prefix| {
      assert line[..|prefix|][i] != prefix[i];
    }
  }

  // ------------------------------------------------------------------------ blocks

  // Statements begin with no `else` and no closing brace.
  lemma StmtFirst(s: Stmt, ts: seq<Token>)
    ensures var t := Peek(SpellStmt(s, ts)); t != Key(KwElse) && t != Sym(RBrace) && t != Eof
  {
  }

  // The first token decides.
  lemma Dispatch(ts: seq<Token>)
    ensures Peek(ts).TypeName? ==> ParseStmt(ts) == ParseDeclaration(ts)
    ensures Peek(ts) == Key(KwIf) ==> ParseStmt(ts) == ParseIf(ts)
    ensures Peek(ts) == Key(KwFor) ==> ParseStmt(ts) == ParseFor(ts, NoPragma)
    ensures Peek(ts) == Key(KwReturn) ==> ParseStmt(ts) == ParseReturn(ts)
    ensures Peek(ts) == Key(KwWrite) ==> ParseStmt(ts) == ParseWrite(ts)
    ensures Peek(ts).Identifier? ==> ParseStmt(ts) == ParseAssign(ts)
  {
    hide ParseDeclaration, ParseIf, ParseFor, ParseReturn, ParseWrite, ParseAssign, ParseBlock;
  }

  lemma SpelledFirst(s: Stmt, ts: seq<Token>)
    ensures var t := Peek(SpellStmt(s, ts));
            match s
            case VarDecl(_, _, _) => t.TypeName?
            case ArrayDecl(_, _, _, _) => t.TypeName?
            case Assign(_, _, _) => t.Identifier?
            case Write(_, _) => t == Key(KwWrite)
            case Return(_) => t == Key(KwReturn)
            case If(_, _, _) => t == Key(KwIf)
            case For(_, _, _, _, _, _, _, _, _) => true
            case Block(_) => t == Sym(LBrace)
  {
  }

  lemma {:induction false} StmtParses(s: Stmt, ts: seq<Token>)
    requires Built(s) && Peek(ts) != Key(KwElse)
    ensures ParseStmt(SpellStmt(s, ts)) == Some(Found(Cut(s), ts))
    decreases s, 2
  {
    hide ParseStmt, SpellStmt, ParseDeclaration, ParseAssign, ParseWrite, ParseReturn, ParseIf;
    Dispatch(SpellStmt(s, ts));
    SpelledFirst(s, ts);
    match s
    case VarDecl(_, _, _) => DeclarationParses(s, ts);
    case ArrayDecl(_, _, _, _) => DeclarationParses(s, ts);
    case Assign(_, _, _) => AssignParses(s, ts);
    case Write(_, _) => WriteParses(s, ts);
    case Return(_) => ReturnParses(s, ts);
    case If(_, _, _) => IfParses(s, ts);
    case For(_, _, _, _, _, _, _, _, _) => ForStmtParses(s, ts);
    case Block(b) =>
      BlockParses(b, ts);
      BlockStmtParses(b, ts);
  }

  lemma BlockStmtParses(b: seq<Stmt>, ts: seq<Token>)
    requires ParseBlock(SpellBlock(b, ts)) == Some(Found(CutBlock(b), ts))
    ensures ParseStmt(SpellStmt(Block(b), ts)) == Some(Found(Cut(Block(b)), ts))
  {
    hide ParseBlock, SpellStmts;
    assert Peek(SpellBlock(b, ts)) == Sym(LBrace);
  }

  lemma {:induction false} ForStmtParses(s: Stmt, ts: seq<Token>)
    requires s.For? && Built(s)
    ensures ParseStmt(SpellStmt(s, ts)) == Some(Found(Cut(s), ts))
    decreases s, 1
  {
    hide ParseHeader, ParseBlock, ParsePragma, SpellBlock, SpellFor, ParseStmt, PragmaText;
    HeaderParses(s, ts);
    BlockParses(s.body, ts);
    var plain := SpellFor(s, ts);
    ForFirst(s, ts);
    assert ParseFor(plain, s.pragma) == Some(Found(Cut(s), ts));
    if s.pragma == NoPragma {
      Dispatch(plain);
    } else {
      PragmaParses(s.pragma);
      PragmaDispatch(PragmaText(s.pragma), s.pragma, plain);
    }
  }

  lemma ForFirst(s: Stmt, ts: seq<Token>)
    requires s.For?
    ensures Peek(SpellFor(s, ts)) == Key(KwFor)
  {
  }

  lemma PragmaDispatch(line: string, p: Pragma, ts: seq<Token>)
    requires ParsePragma(line) == Some(p)
    ensures ParseStmt([PragmaLine(line)] + ts) == ParseFor(ts, p)
  {
    hide ParsePragma, ParseFor;
    AfterToken(PragmaLine(line), ts);
  }

  lemma {:induction false} IfParses(s: Stmt, ts: seq<Token>)
    requires s.If? && Built(s) && Peek(ts) != Key(KwElse)
    ensures ParseIf(SpellStmt(s, ts)) == Some(Found(Cut(s), ts))
    decreases s, 1
  {
    hide ParseIf, SpellBlock;
    match s.elseS
    case NoElse => PlainIf(s.cond, s.thenB, ts);
    case ElseDo(If(c, t, _)) =>
      assert Built(s.elseS.stmt);
      BlockParses(s.thenB, SpellElse(s.elseS, ts));
      PlainIf(c, t, ts);
      IfElseIf(s.cond, s.thenB, c, t, ts);
    case ElseDo(Block(b)) =>
      assert Built(s.elseS.stmt);
      BlockParses(s.thenB, SpellElse(s.elseS, ts));
      BlockParses(b, ts);
      assert Cut(s.elseS.stmt) == Block(CutBlock(b));
      IfElse(s.cond, s.thenB, b, ts);
  }

  // if (c) t else b
  lemma IfElse(c: Expr, t: seq<Stmt>, b: seq<Stmt>, ts: seq<Token>)
    requires var tail := [Key(KwElse)] + SpellBlock(b, ts);
             ParseBlock(SpellBlock(t, tail)) == Some(Found(CutBlock(t), tail))
    requires ParseBlock(SpellBlock(b, ts)) == Some(Found(CutBlock(b), ts))
    ensures ParseIf([Key(KwIf)] + SpellParen(c, SpellBlock(t, [Key(KwElse)] + SpellBlock(b, ts)))) ==
            Some(Found(If(c, CutBlock(t), ElseDo(Block(CutBlock(b)))), ts))
  {
    hide ParseParen, SpellParen, ParseBlock, SpellBlock, ParseStmt;
    var tail := [Key(KwElse)] + SpellBlock(b, ts);
    AfterToken(Key(KwElse), SpellBlock(b, ts));
    BlockFirst(b, ts);
    IfHead(c, t, tail);
  }

  // if (c) t else if (d) u
  lemma IfElseIf(c: Expr, t: seq<Stmt>, d: Expr, u: seq<Stmt>, ts: seq<Token>)
    requires var inner := [Key(KwIf)] + SpellParen(d, SpellBlock(u, ts));
             && ParseIf(inner) == Some(Found(If(d, CutBlock(u), NoElse), ts))
             && ParseBlock(SpellBlock(t, [Key(KwElse)] + inner)) == Some(Found(CutBlock(t), [Key(KwElse)] + inner))
    ensures var inner := [Key(KwIf)] + SpellParen(d, SpellBlock(u, ts));
            ParseIf([Key(KwIf)] + SpellParen(c, SpellBlock(t, [Key(KwElse)] + inner))) ==
            Some(Found(If(c, CutBlock(t), ElseDo(If(d, CutBlock(u), NoElse))), ts))
  {
    hide ParseParen, SpellParen, ParseBlock, SpellBlock, ParseStmt;
    var inner := [Key(KwIf)] + SpellParen(d, SpellBlock(u, ts));
    AfterToken(Key(KwElse), inner);
    AfterToken(Key(KwIf), SpellParen(d, SpellBlock(u, ts)));
    IfHead(c, t, [Key(KwElse)] + inner);
  }

  // if (c)
  lemma IfHead(c: Expr, t: seq<Stmt>, tail: seq<Token>)
    ensures var all := [Key(KwIf)] + SpellParen(c, SpellBlock(t, tail));
            && ExpectKey(all, KwIf) == Some(SpellParen(c, SpellBlock(t, tail)))
            && ParseParen(SpellParen(c, SpellBlock(t, tail))) == Some(Parsed(c, SpellBlock(t, tail)))
  {
    hide ParseParen, SpellParen, SpellBlock;
    AfterToken(Key(KwIf), SpellParen(c, SpellBlock(t, tail)));
    ParenParses(c, SpellBlock(t, tail));
  }

  lemma BlockFirst(b: seq<Stmt>, ts: seq<Token>)
    ensures Peek(SpellBlock(b, ts)) == Sym(LBrace)
  {
  }

  lemma {:induction false} PlainIf(c: Expr, t: seq<Stmt>, ts: seq<Token>)
    requires BuiltBlock(t) && Peek(ts) != Key(KwElse)
    ensures ParseIf([Key(KwIf)] + SpellParen(c, SpellBlock(t, ts))) == Some(Found(If(c, CutBlock(t), NoElse), ts))
    decreases t, 2
  {
    hide ParseParen, SpellParen, ParseBlock, SpellBlock;
    IfHead(c, t, ts);
    BlockParses(t, ts);
  }

  lemma {:induction false} BlockParses(b: seq<Stmt>, ts: seq<Token>)
    requires BuiltBlock(b)
    ensures ParseBlock(SpellBlock(b, ts)) == Some(Found(CutBlock(b), ts))
    decreases b, 1
  {
    hide ParseStmts, SpellStmts;
    AfterTokens();
    StmtsParse(b, ts);
  }

  lemma {:induction false} StmtsParse(b: seq<Stmt>, ts: seq<Token>)
    requires BuiltBlock(b)
    ensures ParseStmts(SpellStmts(b, [Sym(RBrace)] + ts)) == Some(Found(CutBlock(b), [Sym(RBrace)] + ts))
    ensures Peek(SpellStmts(b, [Sym(RBrace)] + ts)) != Key(KwElse)
    decreases b, 0
  {
    hide ParseStmt, SpellStmt;
    AfterToken(Sym(RBrace), ts);
    if b != [] {
      var more := SpellStmts(b[1..], [Sym(RBrace)] + ts);
      StmtsParse(b[1..], ts);
      StmtParses(b[0], more);
      StmtFirst(b[0], more);
    }
  }

  // --------------------------------------------------------------------- programs

  lemma ParamParses(p: Param, s: Symbol, ts: seq<Token>)
    requires Mark(s)
    ensures ParseParam(SpellParam(p, [Sym(s)] + ts)) == Some(Found(p, [Sym(s)] + ts))
    ensures Peek(SpellParam(p, [Sym(s)] + ts)) != Sym(RParen)
  {
    hide ParseBracket, SpellBracket;
    var tail := [Sym(s)] + ts;
    AfterToken(Sym(s), ts);
    match p
    case Scalar(t, name) =>
      AfterToken(Identifier(name), tail);
      AfterToken(TypeName(t), [Identifier(name)] + tail);
    case Array(t, name, size) =>
      BracketParses(size, tail);
      AfterToken(Identifier(name), SpellBracket(size, tail));
      AfterToken(TypeName(t), [Identifier(name)] + SpellBracket(size, tail));
    case StreamIn(t, name) => StreamParses(KwIn, t, name, tail);
    case StreamOut(t, name) => StreamParses(KwOut, t, name, tail);
  }

  lemma StreamParses(way: Keyword, t: Type, name: string, ts: seq<Token>)
    requires way == KwIn || way == KwOut
    ensures ParseParam(SpellStream(way, t, name, ts)) ==
            Some(Found(if way == KwIn then StreamIn(t, name) else StreamOut(t, name), ts))
    ensures Peek(SpellStream(way, t, name, ts)) == Key(way)
  {
    var t5 := [Identifier(name)] + ts;
    var t4 := [Sym(GtT)] + t5;
    var t3 := [TypeName(t)] + t4;
    var t2 := [Sym(LtT)] + t3;
    var t1 := [Key(KwStream)] + t2;
    AfterToken(Identifier(name), ts);
    AfterToken(Sym(GtT), t5);
    AfterToken(TypeName(t), t4);
    AfterToken(Sym(LtT), t3);
    AfterToken(Key(KwStream), t2);
    AfterToken(Key(way), t1);
  }

  lemma {:induction false} ParamsParse(ps: seq<Param>, ts: seq<Token>)
    requires ps != []
    ensures ParseParams(SpellParams(ps, [Sym(RParen)] + ts)) == Some(Found(ps, [Sym(RParen)] + ts))
    ensures Peek(SpellParams(ps, [Sym(RParen)] + ts)) != Sym(RParen)
    decreases |ps|
  {
    hide ParseParam, SpellParam;
    AfterToken(Sym(RParen), ts);
    if |ps| == 1 {
      ParamParses(ps[0], RParen, ts);
      assert ps == [ps[0]];
    } else {
      var more := SpellParams(ps[1..], [Sym(RParen)] + ts);
      ParamsParse(ps[1..], ts);
      ParamParses(ps[0], Comma, more);
      AfterToken(Sym(Comma), more);
      assert ps == [ps[0]] + ps[1..];
    }
  }

  lemma ConstParses(c: ConstDecl, ts: seq<Token>)
    ensures ParseConst(SpellConst(c, ts)) == Some(Found(c, ts))
    ensures Peek(SpellConst(c, ts)) == Key(KwConst)
  {
    hide ParseConditional, SpellExpr, ParseElems, SpellElems, ParseBracket, SpellBracket;
    AfterTokens();
    match c
    case ScalarConst(_, _, init) => MarkedParses(init, Semi, ts);
    case ArrayConst(_, _, size, elems) =>
      BracketParses(size, SpellElems(elems, [Sym(Semi)] + ts));
      ElemsParse(elems, [Sym(Semi)] + ts);
  }

  function CutFunction(f: Function): Function {
    f.(body := CutBlock(f.body))
  }

  lemma FunctionParses(f: Function, ts: seq<Token>)
    requires BuiltBlock(f.body)
    ensures ParseFunction(SpellFunction(f, ts)) == Some(Found(CutFunction(f), ts))
    ensures Peek(SpellFunction(f, ts)) == TypeName(f.returnType)
  {
    hide ParseParams, ParseBlock, SpellBlock;
    AfterTokens();
    BlockParses(f.body, ts);
    if f.params != [] {
      ParamsParse(f.params, SpellBlock(f.body, ts));
    }
  }

  lemma {:induction false} ItemsParse(cs: seq<ConstDecl>, f: Function, done: seq<ConstDecl>)
    requires BuiltBlock(f.body)
    ensures ParseItems(SpellConsts(cs, SpellFunction(f, [])), done, None) == Some(Program(done + cs, CutFunction(f)))
    decreases |cs|
  {
    hide ParseFunction, SpellFunction, ParseConst, SpellConst;
    if cs == [] {
      FunctionParses(f, []);
      assert done + cs == done;
    } else {
      var more := SpellConsts(cs[1..], SpellFunction(f, []));
      ConstParses(cs[0], more);
      ItemsParse(cs[1..], f, done + [cs[0]]);
      assert done + [cs[0]] + cs[1..] == done + cs;
    }
  }

  function CutProgram(p: Program): Program {
    p.(fn := CutFunction(p.fn))
  }

  // The tokens of a printed program parse to the program the printer wrote.
  lemma ProgramParses(p: Program)
    requires BuiltBlock(p.fn.body)
    ensures ParseProgram(SpellProgram(p)) == Some(CutProgram(p))
    ensures CutProgram(p) == p <==> ShortBlock(p.fn.body)
  {
    hide ParseItems, SpellConsts, SpellFunction;
    ItemsParse(p.consts, p.fn, []);
    CutBlockIff(p.fn.body);
    assert [] + p.consts == p.consts;
  }
}
