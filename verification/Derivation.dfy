/**
 The grammar of statements and programs (LANGUAGE.md:678-750), read from the tree: which
 token sequences a tree has, rule by rule.  The parser finds exactly these, and so never
 reads past a missing bracket or reads one sequence as two trees.
 */
module Derivation {
  import Ast
  import opened FixedWidth
  import opened Syntax
  import opened Tokens
  import opened Grammar
  import opened ProgramGrammar
  import Lex
  import Lexemes
  import opened Wrappers

  predicate Starts(ts: seq<Token>, head: seq<Token>) {
    |head| <= |ts| && ts[..|head|] == head
  }

  // `ts` is an expression e, by the layered grammar, followed by `rest`.
  predicate Expression(ts: seq<Token>, e: Expr, rest: seq<Token>) {
    Conditional(ts, false) == Some(Parsed(e, rest))
  }

  // ---------------------------------------------------------------------- statements

  predicate RightSide(ts: seq<Token>, v: Source, rest: seq<Token>) {
    match v
    case Value(e) => Expression(ts, e, rest)
    case Read(s) => ts == [Key(KwRead), Sym(LParen), Identifier(s), Sym(RParen)] + rest
  }

  // The elements between braces, with a comma after each but perhaps the last;
  // LANGUAGE.md:730 asks for one element, the parser for none.
  ghost predicate Elements(ts: seq<Token>, es: seq<Expr>, rest: seq<Token>)
    decreases |es|
  {
    if es == [] then ts == rest
    else
      exists r: seq<Token> ::
        && Expression(ts, es[0], r)
        && ((|es| == 1 && r == rest) || (Starts(r, [Sym(Comma)]) && Elements(r[1..], es[1..], rest)))
  }

  ghost predicate Braced(ts: seq<Token>, es: seq<Expr>, rest: seq<Token>) {
    Starts(ts, [Sym(LBrace)]) && Elements(ts[1..], es, [Sym(RBrace)] + rest)
  }

  // How a pragma is spelled (LANGUAGE.md:748-750).
  predicate Spelled(line: string, p: Pragma) {
    match p
    case NoPragma => false
    case Unroll => line == "#pragma unroll"
    case UnrollBy(n) => Lexemes.Starts(line, "#pragma unroll factor=") && Figures(line[22..], n)
    case Pipeline(n) => Lexemes.Starts(line, "#pragma pipeline II=") && Figures(line[20..], n)
  }

  // Decimal figures of an unsigned number of 32 bits.
  predicate Figures(s: string, n: nat) {
    s != [] && (forall i | 0 <= i < |s| :: Lexemes.InBase(s[i], 10)) && Lexemes.Denoted(s, 10) == n && n < 0x1_0000_0000
  }

  predicate PragmaAt(ts: seq<Token>, p: Pragma, rest: seq<Token>) {
    if p == NoPragma then ts == rest else ts != [] && ts[0].PragmaLine? && Spelled(ts[0].line, p) && ts[1..] == rest
  }

  predicate Ordering(rel: Cmp) {
    rel == Lt || rel == Le || rel == Gt || rel == Ge
  }

  ghost predicate Statement(ts: seq<Token>, s: Stmt, rest: seq<Token>)
    decreases s, 1
  {
    match s
    case VarDecl(t, x, v) =>
      Starts(ts, [TypeName(t), Identifier(x), Sym(AssignT)]) && RightSide(ts[3..], v, [Sym(Semi)] + rest)
    case ArrayDecl(t, x, size, es) =>
      && Starts(ts, [TypeName(t), Identifier(x), Sym(LBracket)])
      && exists r: seq<Token> ::
           && Expression(ts[3..], size, r)
           && ((r == [Sym(RBracket), Sym(Semi)] + rest && es == [])
               || (Starts(r, [Sym(RBracket), Sym(AssignT)]) && Braced(r[2..], es, [Sym(Semi)] + rest)))
    case Assign(x, None, v) => Starts(ts, [Identifier(x), Sym(AssignT)]) && RightSide(ts[2..], v, [Sym(Semi)] + rest)
    case Assign(x, Some(i), v) =>
      && Starts(ts, [Identifier(x), Sym(LBracket)])
      && exists r: seq<Token> ::
           && Expression(ts[2..], i, r) && Starts(r, [Sym(RBracket), Sym(AssignT)])
           && RightSide(r[2..], v, [Sym(Semi)] + rest)
    case Write(x, e) =>
      && Starts(ts, [Key(KwWrite), Sym(LParen), Identifier(x), Sym(Comma)])
      && Expression(ts[4..], e, [Sym(RParen), Sym(Semi)] + rest)
    case If(c, t, e) =>
      && Starts(ts, [Key(KwIf), Sym(LParen)])
      && exists r: seq<Token>, q: seq<Token> ::
           Expression(ts[2..], c, r) && Starts(r, [Sym(RParen)]) && Enclosed(r[1..], t, q) && Otherwise(q, e, rest)
    case For(p, t, iv, a, rel, l, isAdd, k, b) =>
      exists h: seq<Token> ::
        PragmaAt(ts, p, h) && Loop(h, t, iv, a, rel, l, isAdd, k, b, rest)
    case Return(e) => Starts(ts, [Key(KwReturn)]) && Expression(ts[1..], e, [Sym(Semi)] + rest)
    case Block(b) => Enclosed(ts, b, rest)
  }

  // iv < l ;
  predicate TestAt(ts: seq<Token>, iv: string, rel: Cmp, l: Expr, rest: seq<Token>) {
    Ordering(rel) && Starts(ts, [Identifier(iv), Sym(RelSymbol(rel))]) && Expression(ts[2..], l, [Sym(Semi)] + rest)
  }

  // iv = iv + k )
  predicate StepAt(ts: seq<Token>, iv: string, isAdd: bool, k: Expr, rest: seq<Token>) {
    && Starts(ts, [Identifier(iv), Sym(AssignT), Identifier(iv), Sym(if isAdd then PlusT else MinusT)])
    && Expression(ts[4..], k, [Sym(RParen)] + rest)
  }

  // for ( T iv = a ; test step block
  ghost predicate Loop(ts: seq<Token>, t: Type, iv: string, a: Expr, rel: Cmp, l: Expr, isAdd: bool, k: Expr, b: seq<Stmt>, rest: seq<Token>)
    decreases b, 1
  {
    && Starts(ts, [Key(KwFor), Sym(LParen), TypeName(t), Identifier(iv), Sym(AssignT)])
    && exists r: seq<Token>, q: seq<Token>, z: seq<Token> ::
         && Expression(ts[5..], a, [Sym(Semi)] + r)
         && TestAt(r, iv, rel, l, q) && StepAt(q, iv, isAdd, k, z) && Enclosed(z, b, rest)
  }

  ghost predicate Otherwise(ts: seq<Token>, e: Else, rest: seq<Token>)
    decreases e, 2
  {
    match e
    case NoElse => ts == rest && Peek(ts) != Key(KwElse)
    case ElseDo(s) => Starts(ts, [Key(KwElse)]) && (s.If? || s.Block?) && Statement(ts[1..], s, rest)
  }

  ghost predicate Enclosed(ts: seq<Token>, b: seq<Stmt>, rest: seq<Token>)
    decreases b, 0, 1
  {
    Starts(ts, [Sym(LBrace)]) && Statements(ts[1..], b, [Sym(RBrace)] + rest)
  }

  ghost predicate Statements(ts: seq<Token>, b: seq<Stmt>, rest: seq<Token>)
    decreases b, 0, 0
  {
    if b == [] then ts == rest
    else exists r: seq<Token> :: Statement(ts, b[0], r) && Statements(r, b[1..], rest)
  }

  // ------------------------------------------------------------------------- programs

  ghost predicate Parameter(ts: seq<Token>, p: Param, rest: seq<Token>) {
    match p
    case Scalar(t, x) => ts == [TypeName(t), Identifier(x)] + rest && Peek(rest) != Sym(LBracket)
    case Array(t, x, size) =>
      Starts(ts, [TypeName(t), Identifier(x), Sym(LBracket)]) && Expression(ts[3..], size, [Sym(RBracket)] + rest)
    case StreamIn(t, x) => ts == [Key(KwIn), Key(KwStream), Sym(LtT), TypeName(t), Sym(GtT), Identifier(x)] + rest
    case StreamOut(t, x) => ts == [Key(KwOut), Key(KwStream), Sym(LtT), TypeName(t), Sym(GtT), Identifier(x)] + rest
  }

  ghost predicate Parameters(ts: seq<Token>, ps: seq<Param>, rest: seq<Token>)
    decreases |ps|
  {
    if |ps| == 0 then ts == rest
    else if |ps| == 1 then Parameter(ts, ps[0], rest)
    else exists r: seq<Token> :: Parameter(ts, ps[0], r) && Starts(r, [Sym(Comma)]) && Parameters(r[1..], ps[1..], rest)
  }

  ghost predicate Constant(ts: seq<Token>, c: ConstDecl, rest: seq<Token>) {
    match c
    case ScalarConst(t, x, e) =>
      && Starts(ts, [Key(KwConst), TypeName(t), Identifier(x), Sym(AssignT)])
      && Expression(ts[4..], e, [Sym(Semi)] + rest)
    case ArrayConst(t, x, size, es) =>
      && Starts(ts, [Key(KwConst), TypeName(t), Identifier(x), Sym(LBracket)])
      && exists r: seq<Token> ::
           Expression(ts[4..], size, r) && Starts(r, [Sym(RBracket), Sym(AssignT)]) && Braced(r[2..], es, [Sym(Semi)] + rest)
  }

  ghost predicate Definition(ts: seq<Token>, f: Function, rest: seq<Token>) {
    && Starts(ts, [TypeName(f.returnType), Identifier(f.name), Sym(LParen)])
    && exists r: seq<Token> :: Parameters(ts[3..], f.params, [Sym(RParen)] + r) && Enclosed(r, f.body, rest)
  }

  // What a file is a sequence of.
  datatype Item = ConstItem(c: ConstDecl) | FunctionItem(f: Function)

  ghost predicate ItemAt(ts: seq<Token>, item: Item, rest: seq<Token>) {
    match item
    case ConstItem(c) => Constant(ts, c, rest)
    case FunctionItem(f) => Definition(ts, f, rest)
  }

  ghost predicate Items(ts: seq<Token>, items: seq<Item>)
    decreases |items|
  {
    if items == [] then Peek(ts) == Eof
    else exists r: seq<Token> :: ItemAt(ts, items[0], r) && Items(r, items[1..])
  }

  function ConstsOf(items: seq<Item>): seq<ConstDecl> {
    if items == [] then [] else (if items[0].ConstItem? then [items[0].c] else []) + ConstsOf(items[1..])
  }

  function FunctionsOf(items: seq<Item>): seq<Function> {
    if items == [] then [] else (if items[0].FunctionItem? then [items[0].f] else []) + FunctionsOf(items[1..])
  }

  // Constants around exactly one function.
  ghost predicate File(ts: seq<Token>, p: Program) {
    exists items: seq<Item> :: Items(ts, items) && ConstsOf(items) == p.consts && FunctionsOf(items) == [p.fn]
  }

  // ------------------------------------------------------------------------- sequences

  lemma OpensWith(ts: seq<Token>, head: seq<Token>)
    ensures Starts(ts, head) <==> |head| <= |ts| && forall i | 0 <= i < |head| :: ts[i] == head[i]
  {
    if |head| <= |ts| {
      assert forall i | 0 <= i < |head| :: ts[..|head|][i] == ts[i];
    }
  }

  // Reading on, a token at a time.
  lemma Reads(ts: seq<Token>)
    ensures |ts| >= 1 ==> ts == [ts[0]] + ts[1..] && Peek(ts) == ts[0]
    ensures |ts| >= 2 ==> ts[1..][1..] == ts[2..] && Peek(ts[1..]) == ts[1] && ts == [ts[0], ts[1]] + ts[2..]
    ensures |ts| >= 3 ==> ts[2..][1..] == ts[3..] && Peek(ts[2..]) == ts[2]
    ensures |ts| >= 4 ==> ts[3..][1..] == ts[4..] && Peek(ts[3..]) == ts[3] && ts == [ts[0], ts[1], ts[2], ts[3]] + ts[4..]
    ensures |ts| >= 5 ==> ts[4..][1..] == ts[5..] && Peek(ts[4..]) == ts[4]
    ensures |ts| >= 6 ==> ts[5..][1..] == ts[6..] && Peek(ts[5..]) == ts[5] &&
                          ts == [ts[0], ts[1], ts[2], ts[3], ts[4], ts[5]] + ts[6..]
  {
  }

  lemma PeekIs(ts: seq<Token>)
    ensures Peek(ts) != Eof ==> ts != [] && ts[0] == Peek(ts)
  {
  }

  lemma ExprIs(ts: seq<Token>)
    ensures forall e, rest :: Expression(ts, e, rest) <==> ParseConditional(ts) == Some(Parsed(e, rest))
  {
    ConditionalIsLevel(ts);
  }

  // --------------------------------------------------------------- what is read is so

  lemma SourceSound(ts: seq<Token>)
    requires ParseSource(ts).Some?
    ensures var r := ParseSource(ts).value; RightSide(ts, r.it, r.rest)
  {
    hide ParseConditional, Conditional;
    Reads(ts);
    PeekIs(ts);
    ExprIs(ts);
  }

  lemma {:induction false} ListSound(ts: seq<Token>)
    requires ParseList(ts).Some? && Peek(ParseList(ts).value.rest) == Sym(RBrace)
    ensures var r := ParseList(ts).value; Elements(ts, r.it, r.rest)
    decreases |ts|
  {
    hide ParseConditional, Conditional;
    ExprIs(ts);
    if Peek(ts) != Sym(RBrace) {
      var e := ParseConditional(ts).value;
      assert Expression(ts, ParseList(ts).value.it[0], e.rest);
      if Peek(e.rest) == Sym(Comma) {
        ListSound(e.rest[1..]);
        var more := ParseList(e.rest[1..]).value;
        assert ([e.e] + more.it)[1..] == more.it;
        OpensWith(e.rest, [Sym(Comma)]);
      }
    }
  }

  lemma ElemsSound(ts: seq<Token>)
    requires ParseElems(ts).Some?
    ensures var r := ParseElems(ts).value; Braced(ts, r.it, r.rest)
  {
    hide ParseList, Elements;
    OpensWith(ts, [Sym(LBrace)]);
    ListSound(ts[1..]);
    Reads(ParseList(ts[1..]).value.rest);
  }

  lemma BracketSound(ts: seq<Token>)
    requires ParseBracket(ts).Some?
    ensures var b := ParseBracket(ts).value;
            ts != [] && ts[0] == Sym(LBracket) && Expression(ts[1..], b.e, [Sym(RBracket)] + b.rest)
  {
    hide ParseConditional, Conditional;
    Reads(ts);
    ExprIs(ts[1..]);
    Reads(ParseConditional(ts[1..]).value.rest);
  }

  // What an array declaration was read from: its size, and either elements or nothing.
  lemma DeclaredArray(ts: seq<Token>) returns (b: Parsed)
    requires ParseDeclaration(ts).Some? && Peek(ts[2..]) == Sym(LBracket)
    ensures |ts| >= 3 && ts[0].TypeName? && ts[1].Identifier? && ParseBracket(ts[2..]) == Some(b)
    ensures var r := ParseDeclaration(ts).value;
            && r.it.ArrayDecl? && r.it.elem == ts[0].ty && r.it.name == ts[1].text && r.it.size == b.e
            && (if Peek(b.rest) == Sym(AssignT) then ParseElems(b.rest[1..]) == Some(Found(r.it.elems, [Sym(Semi)] + r.rest))
                else r.it.elems == [] && b.rest == [Sym(Semi)] + r.rest)
  {
    hide ParseBracket, ParseSource, ParseElems;
    Reads(ts);
    b := ParseBracket(ts[2..]).value;
    Reads(b.rest);
    if Peek(b.rest) == Sym(AssignT) {
      Reads(ParseElems(b.rest[1..]).value.rest);
    }
  }

  lemma ArrayDeclSound(ts: seq<Token>)
    requires ParseDeclaration(ts).Some? && Peek(ts[2..]) == Sym(LBracket)
    ensures var r := ParseDeclaration(ts).value; Statement(ts, r.it, r.rest)
  {
    hide ParseBracket, Conditional, ParseElems, Braced, ParseDeclaration;
    var b := DeclaredArray(ts);
    BracketSound(ts[2..]);
    var r := [Sym(RBracket)] + b.rest;
    OpensWith(ts, [ts[0], ts[1], Sym(LBracket)]);
    assert Expression(ts[3..], b.e, r);
    if Peek(b.rest) == Sym(AssignT) {
      OpensWith(r, [Sym(RBracket), Sym(AssignT)]);
      assert r[2..] == b.rest[1..];
      ElemsSound(b.rest[1..]);
    } else {
      assert r == [Sym(RBracket), Sym(Semi)] + ParseDeclaration(ts).value.rest;
    }
  }

  lemma DeclarationSound(ts: seq<Token>)
    requires ParseDeclaration(ts).Some?
    ensures var r := ParseDeclaration(ts).value; Statement(ts, r.it, r.rest)
  {
    hide ParseBracket, Conditional, ParseSource, ParseElems, RightSide, Braced;
    Reads(ts);
    if Peek(ts[2..]) == Sym(LBracket) {
      ArrayDeclSound(ts);
    } else {
      OpensWith(ts, [ts[0], ts[1], Sym(AssignT)]);
      SourceSound(ts[3..]);
      Reads(ParseSource(ts[3..]).value.rest);
    }
  }

  lemma AssignSound(ts: seq<Token>)
    requires ParseAssign(ts).Some?
    ensures var r := ParseAssign(ts).value; Statement(ts, r.it, r.rest)
  {
    hide ParseConditional, Conditional, ParseSource, RightSide;
    Reads(ts);
    var name := ts[0].text;
    if Peek(ts[1..]) == Sym(LBracket) {
      ExprIs(ts[2..]);
      var i := ParseConditional(ts[2..]).value;
      assert Expression(ts[2..], i.e, i.rest);
      Reads(i.rest);
      OpensWith(ts, [Identifier(name), Sym(LBracket)]);
      OpensWith(i.rest, [Sym(RBracket), Sym(AssignT)]);
      SourceSound(i.rest[2..]);
      Reads(ParseSource(i.rest[2..]).value.rest);
    } else {
      OpensWith(ts, [Identifier(name), Sym(AssignT)]);
      SourceSound(ts[2..]);
      Reads(ParseSource(ts[2..]).value.rest);
    }
  }

  lemma WriteSound(ts: seq<Token>)
    requires ParseWrite(ts).Some?
    ensures var r := ParseWrite(ts).value; Statement(ts, r.it, r.rest)
  {
    hide ParseConditional, Conditional;
    Reads(ts);
    ExprIs(ts[4..]);
    OpensWith(ts, [Key(KwWrite), Sym(LParen), ts[2], Sym(Comma)]);
    Reads(ParseConditional(ts[4..]).value.rest);
  }

  lemma ReturnSound(ts: seq<Token>)
    requires ParseReturn(ts).Some?
    ensures var r := ParseReturn(ts).value; Statement(ts, r.it, r.rest)
  {
    hide ParseConditional, Conditional;
    Reads(ts);
    ExprIs(ts[1..]);
    OpensWith(ts, [Key(KwReturn)]);
    Reads(ParseConditional(ts[1..]).value.rest);
  }

  // The figures of a pragma.
  lemma FiguresIff(s: string, n: nat)
    ensures PragmaValue(s) == Some(n) <==> Figures(s, n)
  {
    hide Lex.Decimal, Lexemes.Denoted, Lexemes.DigitOf, Lex.DigitValue;
    forall i | 0 <= i < |s| ensures Lex.Digit(s[i]) <==> Lexemes.InBase(s[i], 10) {
      Lexemes.TableIs(s[i]);
      DigitBase(s[i]);
    }
    if forall i | 0 <= i < |s| :: Lex.Digit(s[i]) {
      Lexemes.DecimalDenoted(s);
    }
  }

  lemma DigitBase(c: char)
    ensures Lex.Digit(c) <==> Lex.DigitValue(c) < 10
  {
  }

  lemma PragmaIff(line: string, p: Pragma)
    ensures ParsePragma(line) == Some(p) <==> Spelled(line, p)
  {
    hide PragmaValue, Figures;
    var a, b := "#pragma unroll factor=", "#pragma pipeline II=";
    assert |a| == 22 && |b| == 20 && a[8] == 'u' && b[8] == 'p';
    if StartsWith(line, a) {
      assert line[..22][8] == line[8];
      forall n: nat ensures PragmaValue(line[22..]) == Some(n) <==> Figures(line[22..], n) {
        FiguresIff(line[22..], n);
      }
    }
    if StartsWith(line, b) {
      assert line[..20][8] == line[8];
      forall n: nat ensures PragmaValue(line[20..]) == Some(n) <==> Figures(line[20..], n) {
        FiguresIff(line[20..], n);
      }
    }
  }

  lemma TestSound(ts: seq<Token>, iv: string)
    requires ParseTest(ts, iv).Some?
    ensures var r := ParseTest(ts, iv).value; TestAt(ts, iv, r.it.rel, r.it.limit, r.rest)
  {
    hide ParseConditional, Conditional;
    Reads(ts);
    RelRead(ts[1]);
    ExprIs(ts[2..]);
    Reads(ParseConditional(ts[2..]).value.rest);
    OpensWith(ts, [Identifier(iv), ts[1]]);
  }

  lemma StepSound(ts: seq<Token>, iv: string)
    requires ParseStep(ts, iv).Some?
    ensures var r := ParseStep(ts, iv).value; StepAt(ts, iv, r.it.isAdd, r.it.step, r.rest)
  {
    hide ParseConditional, Conditional;
    Reads(ts);
    ExprIs(ts[4..]);
    Reads(ParseConditional(ts[4..]).value.rest);
    OpensWith(ts, [Identifier(iv), Sym(AssignT), Identifier(iv), ts[3]]);
  }

  lemma HeaderSound(ts: seq<Token>)
    requires ParseHeader(ts).Some?
    ensures var h := ParseHeader(ts).value;
            forall b, rest | Enclosed(h.rest, b, rest) ::
              Loop(ts, h.it.ivType, h.it.iv, h.it.start, h.it.test.rel, h.it.test.limit, h.it.step.isAdd, h.it.step.step, b, rest)
  {
    hide ParseConditional, Conditional, Enclosed, ParseTest, ParseStep, TestAt, StepAt;
    Reads(ts);
    var h := ParseHeader(ts).value;
    OpensWith(ts, [Key(KwFor), Sym(LParen), TypeName(h.it.ivType), Identifier(h.it.iv), Sym(AssignT)]);
    ExprIs(ts[5..]);
    var r := ParseConditional(ts[5..]).value.rest;
    Reads(r);
    assert Expression(ts[5..], h.it.start, [Sym(Semi)] + r[1..]);
    TestSound(r[1..], h.it.iv);
    StepSound(ParseTest(r[1..], h.it.iv).value.rest, h.it.iv);
  }

  lemma RelRead(t: Token)
    ensures forall rel: Cmp :: RelOf(t) == Some(rel) <==> Ordering(rel) && t == Sym(RelSymbol(rel))
  {
  }

  lemma {:induction false} StmtSound(ts: seq<Token>)
    requires ParseStmt(ts).Some?
    ensures var r := ParseStmt(ts).value; Statement(ts, r.it, r.rest)
    decreases |ts|, 2
  {
    hide ParseDeclaration, ParseIf, ParseFor, ParsePragma, ParseReturn, ParseWrite, ParseBlock, ParseAssign, Statement, Enclosed;
    PeekIs(ts);
    match Peek(ts)
    case TypeName(_) => DeclarationSound(ts);
    case Key(KwIf) => IfSound(ts);
    case Key(KwFor) =>
      ForSound(ts, NoPragma);
      LoopStatement(ts, NoPragma, ts);
    case PragmaLine(line) =>
      PragmaIff(line, ParsePragma(line).value);
      ForSound(ts[1..], ParsePragma(line).value);
      LoopStatement(ts, ParsePragma(line).value, ts[1..]);
    case Key(KwReturn) => ReturnSound(ts);
    case Key(KwWrite) => WriteSound(ts);
    case Sym(LBrace) =>
      BlockSound(ts);
      BlockStatement(ts);
    case Identifier(_) => AssignSound(ts);
  }

  lemma BlockStatement(ts: seq<Token>)
    requires ParseBlock(ts).Some?
    requires var b := ParseBlock(ts).value; Enclosed(ts, b.it, b.rest)
    ensures var b := ParseBlock(ts).value; Statement(ts, Block(b.it), b.rest)
  {
    hide ParseBlock, Enclosed;
  }

  // The fields of a loop statement, found after its pragma.
  ghost predicate LoopIs(h: seq<Token>, s: Stmt, rest: seq<Token>) {
    s.For? && Loop(h, s.ivType, s.iv, s.start, s.rel, s.limit, s.stepIsAdd, s.step, s.body, rest)
  }

  lemma LoopStatement(ts: seq<Token>, p: Pragma, h: seq<Token>)
    requires PragmaAt(ts, p, h) && ParseFor(h, p).Some?
    requires var r := ParseFor(h, p).value; LoopIs(h, r.it, r.rest) && r.it.pragma == p
    ensures var r := ParseFor(h, p).value; Statement(ts, r.it, r.rest)
  {
    hide ParseFor, Loop, Spelled;
  }

  lemma {:induction false} ForSound(ts: seq<Token>, p: Pragma)
    requires ParseFor(ts, p).Some?
    ensures var r := ParseFor(ts, p).value; LoopIs(ts, r.it, r.rest) && r.it.pragma == p
    decreases |ts|, 1
  {
    hide ParseHeader, ParseBlock, Loop, Enclosed;
    HeaderSound(ts);
    BlockSound(ParseHeader(ts).value.rest);
  }

  lemma {:induction false} IfSound(ts: seq<Token>)
    requires ParseIf(ts).Some?
    ensures var r := ParseIf(ts).value; Statement(ts, r.it, r.rest) && r.it.If?
    decreases |ts|, 1
  {
    hide ParseConditional, Conditional, ParseBlock, Enclosed, ParseIf, ParseParen;
    IfParts(ts);
    ParenSound(ts[1..]);
    Reads(ts);
    OpensWith(ts, [Key(KwIf), Sym(LParen)]);
    var c := ParseParen(ts[1..]).value;
    var r := [Sym(RParen)] + c.rest;
    OpensWith(r, [Sym(RParen)]);
    assert r[1..] == c.rest;
    BlockSound(c.rest);
    var t := ParseBlock(c.rest).value;
    assert Expression(ts[2..], ParseIf(ts).value.it.cond, r);
    if Peek(t.rest) == Key(KwElse) {
      PeekIs(t.rest);
      OpensWith(t.rest, [Key(KwElse)]);
      if Peek(t.rest[1..]) == Key(KwIf) {
        IfSound(t.rest[1..]);
      } else {
        BlockSound(t.rest[1..]);
        BlockStatement(t.rest[1..]);
      }
    }
    ElseFound(t.rest, ParseIf(ts).value.it.elseS, ParseIf(ts).value.rest);
  }

  lemma ParenSound(ts: seq<Token>)
    requires ParseParen(ts).Some?
    ensures var c := ParseParen(ts).value;
            ts != [] && ts[0] == Sym(LParen) && Expression(ts[1..], c.e, [Sym(RParen)] + c.rest)
  {
    hide ParseConditional, Conditional;
    Reads(ts);
    ExprIs(ts[1..]);
    Reads(ParseConditional(ts[1..]).value.rest);
  }

  // An `if` is its condition, its block and what follows `else`.
  lemma IfParts(ts: seq<Token>)
    requires ParseIf(ts).Some?
    ensures ts != [] && ts[0] == Key(KwIf) && ParseParen(ts[1..]).Some?
    ensures var c := ParseParen(ts[1..]).value;
            && ParseBlock(c.rest).Some?
            && var t := ParseBlock(c.rest).value; var r := ParseIf(ts).value;
               && r.it.If? && r.it.cond == c.e && r.it.thenB == t.it
               && (Peek(t.rest) != Key(KwElse) ==> r.it.elseS == NoElse && r.rest == t.rest)
               && (Peek(t.rest) == Key(KwElse) ==> ParsedElse(t.rest, r.it.elseS, r.rest))
  {
    hide ParseParen, ParseBlock;
    PeekIs(ts);
  }

  predicate ParsedElse(ts: seq<Token>, e: Else, rest: seq<Token>)
    requires ts != []
  {
    if Peek(ts[1..]) == Key(KwIf) then ParseIf(ts[1..]).Some? && e == ElseDo(ParseIf(ts[1..]).value.it) && rest == ParseIf(ts[1..]).value.rest
    else ParseBlock(ts[1..]).Some? && e == ElseDo(Block(ParseBlock(ts[1..]).value.it)) && rest == ParseBlock(ts[1..]).value.rest
  }

  lemma ElseFound(ts: seq<Token>, e: Else, rest: seq<Token>)
    requires Peek(ts) != Key(KwElse) ==> e == NoElse && rest == ts
    requires Peek(ts) == Key(KwElse) ==> e.ElseDo? && (e.stmt.If? || e.stmt.Block?) && Statement(ts[1..], e.stmt, rest)
    ensures Otherwise(ts, e, rest)
  {
    hide Statement;
    OpensWith(ts, [Key(KwElse)]);
  }

  lemma {:induction false} BlockSound(ts: seq<Token>)
    requires ParseBlock(ts).Some?
    ensures var r := ParseBlock(ts).value; Enclosed(ts, r.it, r.rest)
    decreases |ts|, 0
  {
    hide ParseStmts, Statements;
    OpensWith(ts, [Sym(LBrace)]);
    StmtsSound(ts[1..]);
    Reads(ParseStmts(ts[1..]).value.rest);
  }

  lemma {:induction false} StmtsSound(ts: seq<Token>)
    requires ParseStmts(ts).Some?
    ensures var r := ParseStmts(ts).value; Statements(ts, r.it, r.rest)
    decreases |ts|, 3
  {
    hide ParseStmt, Statement;
    if !(Peek(ts) == Sym(RBrace) || Peek(ts) == Eof) {
      StmtSound(ts);
      var s := ParseStmt(ts).value;
      StmtsSound(s.rest);
      var more := ParseStmts(s.rest).value;
      assert ([s.it] + more.it)[1..] == more.it;
      assert Statement(ts, ([s.it] + more.it)[0], s.rest);
    }
  }

  // ------------------------------------------------------------ what is so is read

  lemma SourceComplete(ts: seq<Token>, v: Source, rest: seq<Token>)
    requires RightSide(ts, v, rest)
    ensures ParseSource(ts) == Some(Found(v, rest))
  {
    hide ParseConditional, Conditional;
    Reads(ts);
    ExprIs(ts);
    match v
    case Value(e) => NoRead(ts, e, rest);
    case Read(s) =>
      assert ts[4..] == rest;
  }

  // No expression starts with `read`.
  lemma NoRead(ts: seq<Token>, e: Expr, rest: seq<Token>)
    requires Expression(ts, e, rest)
    ensures !Peek(ts).Key? && Peek(ts) != Eof && Peek(ts) != Sym(RBrace)
  {
    ExprIs(ts);
    assert ParseConditional(ts).Some?;
    assert ParseExpr(ts, 0).Some?;
    UnaryStart(ts);
  }

  lemma UnaryStart(ts: seq<Token>)
    requires ParseUnary(ts).Some?
    ensures !Peek(ts).Key? && Peek(ts) != Eof && Peek(ts) != Sym(RBrace)
  {
    hide ParseConditional;
    if UnaryOf(Peek(ts)).None? {
      assert ParsePostfix(ts).Some?;
      if !(Peek(ts).Identifier? && Peek(ts[1..]) == Sym(LBracket)) {
        assert ParsePrimary(ts).Some?;
      }
    }
  }

  lemma {:induction false} ListComplete(ts: seq<Token>, es: seq<Expr>, rest: seq<Token>)
    requires Elements(ts, es, rest) && Peek(rest) == Sym(RBrace)
    ensures ParseList(ts) == Some(Found(es, rest))
    decreases |es|
  {
    hide ParseConditional, Conditional;
    ExprIs(ts);
    if es != [] {
      var r: seq<Token> :|
        && Expression(ts, es[0], r)
        && ((|es| == 1 && r == rest) || (Starts(r, [Sym(Comma)]) && Elements(r[1..], es[1..], rest)));
      NoRead(ts, es[0], r);
      OpensWith(r, [Sym(Comma)]);
      if Peek(r) == Sym(Comma) {
        ListComplete(r[1..], es[1..], rest);
        assert es == [es[0]] + es[1..];
      } else {
        assert es == [es[0]];
      }
    }
  }

  lemma ElemsComplete(ts: seq<Token>, es: seq<Expr>, rest: seq<Token>)
    requires Braced(ts, es, rest)
    ensures ParseElems(ts) == Some(Found(es, rest))
  {
    hide ParseList, Elements;
    OpensWith(ts, [Sym(LBrace)]);
    ListComplete(ts[1..], es, [Sym(RBrace)] + rest);
    assert ([Sym(RBrace)] + rest)[1..] == rest;
  }

  lemma AfterOne(x: Token, rest: seq<Token>)
    ensures ([x] + rest)[1..] == rest && Peek([x] + rest) == x && [x] + rest != []
  {
  }

  lemma ScalarComplete(ts: seq<Token>, t: Type, x: string, v: Source, rest: seq<Token>)
    requires Statement(ts, VarDecl(t, x, v), rest)
    ensures ParseDeclaration(ts) == Some(Found(VarDecl(t, x, v), rest)) && Peek(ts) == TypeName(t)
  {
    hide ParseConditional, Conditional, ParseSource, ParseElems, RightSide, Braced;
    OpensWith(ts, [TypeName(t), Identifier(x), Sym(AssignT)]);
    Reads(ts);
    SourceComplete(ts[3..], v, [Sym(Semi)] + rest);
    AfterOne(Sym(Semi), rest);
  }

  lemma BracketComplete(ts: seq<Token>, size: Expr, r: seq<Token>)
    requires Starts(ts, [Sym(LBracket)]) && Expression(ts[1..], size, [Sym(RBracket)] + r)
    ensures ParseBracket(ts) == Some(Parsed(size, r)) && Peek(ts) == Sym(LBracket)
  {
    hide ParseConditional, Conditional;
    OpensWith(ts, [Sym(LBracket)]);
    ExprIs(ts[1..]);
    AfterOne(Sym(RBracket), r);
  }

  // An array's size, and what follows it.
  predicate Sized(ts: seq<Token>, t: Type, x: string, size: Expr, r: seq<Token>) {
    Starts(ts, [TypeName(t), Identifier(x), Sym(LBracket)]) && Expression(ts[3..], size, r)
  }

  lemma ArrayForm(ts: seq<Token>, t: Type, x: string, size: Expr, es: seq<Expr>, rest: seq<Token>) returns (r: seq<Token>)
    requires Statement(ts, ArrayDecl(t, x, size, es), rest)
    ensures Sized(ts, t, x, size, r)
    ensures (r == [Sym(RBracket), Sym(Semi)] + rest && es == [])
            || (Starts(r, [Sym(RBracket), Sym(AssignT)]) && Braced(r[2..], es, [Sym(Semi)] + rest))
  {
    hide Conditional, Braced;
    r :| Expression(ts[3..], size, r)
         && ((r == [Sym(RBracket), Sym(Semi)] + rest && es == [])
             || (Starts(r, [Sym(RBracket), Sym(AssignT)]) && Braced(r[2..], es, [Sym(Semi)] + rest)));
  }

  lemma SizeRead(ts: seq<Token>, t: Type, x: string, size: Expr, r: seq<Token>)
    requires Sized(ts, t, x, size, r) && r != [] && r[0] == Sym(RBracket)
    ensures |ts| >= 3 && ts[0] == TypeName(t) && ts[1] == Identifier(x)
    ensures Peek(ts[2..]) == Sym(LBracket) && ParseBracket(ts[2..]) == Some(Parsed(size, r[1..]))
  {
    hide Conditional, ParseBracket;
    OpensWith(ts, [TypeName(t), Identifier(x), Sym(LBracket)]);
    Reads(ts);
    Reads(r);
    OpensWith(ts[2..], [Sym(LBracket)]);
    BracketComplete(ts[2..], size, r[1..]);
  }

  lemma ArrayComplete(ts: seq<Token>, t: Type, x: string, size: Expr, es: seq<Expr>, rest: seq<Token>)
    requires Statement(ts, ArrayDecl(t, x, size, es), rest)
    ensures ParseDeclaration(ts) == Some(Found(ArrayDecl(t, x, size, es), rest)) && Peek(ts) == TypeName(t)
  {
    hide Statement, Sized, Braced, ParseDeclaration, ParseBracket, ParseElems;
    var r := ArrayForm(ts, t, x, size, es, rest);
    OpensWith(r, [Sym(RBracket), Sym(AssignT)]);
    Reads(r);
    SizeRead(ts, t, x, size, r);
    if r == [Sym(RBracket), Sym(Semi)] + rest && es == [] {
      assert r[1..] == [Sym(Semi)] + rest;
    } else {
      ElemsComplete(r[2..], es, [Sym(Semi)] + rest);
    }
    ArrayJoins(ts, t, x, size, es, r[1..], rest);
  }

  lemma ArrayJoins(ts: seq<Token>, t: Type, x: string, size: Expr, es: seq<Expr>, q: seq<Token>, rest: seq<Token>)
    requires |ts| >= 3 && ts[0] == TypeName(t) && ts[1] == Identifier(x)
    requires Peek(ts[2..]) == Sym(LBracket) && ParseBracket(ts[2..]) == Some(Parsed(size, q))
    requires (q == [Sym(Semi)] + rest && es == [])
             || (Peek(q) == Sym(AssignT) && ParseElems(q[1..]) == Some(Found(es, [Sym(Semi)] + rest)))
    ensures ParseDeclaration(ts) == Some(Found(ArrayDecl(t, x, size, es), rest))
  {
    hide ParseBracket, ParseElems, ParseSource;
    Reads(ts);
    AfterOne(Sym(Semi), rest);
  }

  lemma AssignComplete(ts: seq<Token>, x: string, index: Option<Expr>, v: Source, rest: seq<Token>)
    requires Statement(ts, Assign(x, index, v), rest)
    ensures ParseAssign(ts) == Some(Found(Assign(x, index, v), rest)) && Peek(ts) == Identifier(x)
  {
    hide ParseConditional, Conditional, ParseSource, RightSide;
    Reads(ts);
    AfterOne(Sym(Semi), rest);
    if index.None? {
      OpensWith(ts, [Identifier(x), Sym(AssignT)]);
      SourceComplete(ts[2..], v, [Sym(Semi)] + rest);
    } else {
      var r: seq<Token> :|
        && Expression(ts[2..], index.value, r) && Starts(r, [Sym(RBracket), Sym(AssignT)])
        && RightSide(r[2..], v, [Sym(Semi)] + rest);
      OpensWith(ts, [Identifier(x), Sym(LBracket)]);
      OpensWith(r, [Sym(RBracket), Sym(AssignT)]);
      ExprIs(ts[2..]);
      Reads(r);
      SourceComplete(r[2..], v, [Sym(Semi)] + rest);
    }
  }

  lemma WriteComplete(ts: seq<Token>, x: string, e: Expr, rest: seq<Token>)
    requires Statement(ts, Write(x, e), rest)
    ensures ParseWrite(ts) == Some(Found(Write(x, e), rest)) && Peek(ts) == Key(KwWrite)
  {
    hide ParseConditional, Conditional;
    OpensWith(ts, [Key(KwWrite), Sym(LParen), Identifier(x), Sym(Comma)]);
    Reads(ts);
    ExprIs(ts[4..]);
    var r := [Sym(RParen), Sym(Semi)] + rest;
    assert r[1..] == [Sym(Semi)] + rest;
    AfterOne(Sym(Semi), rest);
  }

  lemma ReturnComplete(ts: seq<Token>, e: Expr, rest: seq<Token>)
    requires Statement(ts, Return(e), rest)
    ensures ParseReturn(ts) == Some(Found(Return(e), rest)) && Peek(ts) == Key(KwReturn)
  {
    hide ParseConditional, Conditional;
    OpensWith(ts, [Key(KwReturn)]);
    Reads(ts);
    ExprIs(ts[1..]);
    AfterOne(Sym(Semi), rest);
  }

  lemma TestComplete(ts: seq<Token>, iv: string, rel: Cmp, l: Expr, rest: seq<Token>)
    requires TestAt(ts, iv, rel, l, rest)
    ensures ParseTest(ts, iv) == Some(Found(Test(rel, l), rest))
  {
    hide ParseConditional, Conditional;
    OpensWith(ts, [Identifier(iv), Sym(RelSymbol(rel))]);
    Reads(ts);
    RelRead(ts[1]);
    ExprIs(ts[2..]);
    AfterOne(Sym(Semi), rest);
  }

  lemma StepComplete(ts: seq<Token>, iv: string, isAdd: bool, k: Expr, rest: seq<Token>)
    requires StepAt(ts, iv, isAdd, k, rest)
    ensures ParseStep(ts, iv) == Some(Found(Step(isAdd, k), rest))
  {
    hide ParseConditional, Conditional;
    OpensWith(ts, [Identifier(iv), Sym(AssignT), Identifier(iv), Sym(if isAdd then PlusT else MinusT)]);
    Reads(ts);
    ExprIs(ts[4..]);
    AfterOne(Sym(RParen), rest);
  }

  lemma HeaderComplete(ts: seq<Token>, t: Type, iv: string, a: Expr, rel: Cmp, l: Expr, isAdd: bool, k: Expr,
                       r: seq<Token>, q: seq<Token>, z: seq<Token>)
    requires Starts(ts, [Key(KwFor), Sym(LParen), TypeName(t), Identifier(iv), Sym(AssignT)])
    requires Expression(ts[5..], a, [Sym(Semi)] + r) && TestAt(r, iv, rel, l, q) && StepAt(q, iv, isAdd, k, z)
    ensures ParseHeader(ts) == Some(Found(Header(t, iv, a, Test(rel, l), Step(isAdd, k)), z))
  {
    hide ParseConditional, Conditional, ParseTest, ParseStep, TestAt, StepAt;
    OpensWith(ts, [Key(KwFor), Sym(LParen), TypeName(t), Identifier(iv), Sym(AssignT)]);
    Reads(ts);
    ExprIs(ts[5..]);
    AfterOne(Sym(Semi), r);
    TestComplete(r, iv, rel, l, q);
    StepComplete(q, iv, isAdd, k, z);
  }

  lemma {:induction false} StmtComplete(ts: seq<Token>, s: Stmt, rest: seq<Token>)
    requires Statement(ts, s, rest)
    ensures ParseStmt(ts) == Some(Found(s, rest))
    ensures Peek(ts) != Eof && Peek(ts) != Sym(RBrace) && Peek(ts) != Key(KwElse)
    ensures s.If? ==> ParseIf(ts) == Some(Found(s, rest))
    ensures s.Block? ==> ParseBlock(ts) == Some(Found(s.stmts, rest))
    decreases s, 1
  {
    hide ParseDeclaration, ParseIf, ParseFor, ParsePragma, ParseReturn, ParseWrite, ParseBlock, ParseAssign, Statement, Enclosed;
    match s
    case VarDecl(t, x, v) => ScalarComplete(ts, t, x, v, rest);
    case ArrayDecl(t, x, size, es) => ArrayComplete(ts, t, x, size, es, rest);
    case Assign(x, index, v) => AssignComplete(ts, x, index, v, rest);
    case Write(x, e) => WriteComplete(ts, x, e, rest);
    case If(_, _, _) => IfComplete(ts, s, rest);
    case For(p, _, _, _, _, _, _, _, _) =>
      var h := ForComplete(ts, s, rest);
      PragmaFound(ts, p, h);
    case Return(e) => ReturnComplete(ts, e, rest);
    case Block(b) =>
      BlockForm(ts, b, rest);
      EnclosedComplete(ts, b, rest);
  }

  lemma BlockForm(ts: seq<Token>, b: seq<Stmt>, rest: seq<Token>)
    requires Statement(ts, Block(b), rest)
    ensures Enclosed(ts, b, rest)
  {
    hide Enclosed;
  }

  lemma PragmaFound(ts: seq<Token>, p: Pragma, h: seq<Token>)
    requires PragmaAt(ts, p, h) && Peek(h) == Key(KwFor)
    ensures if p == NoPragma then ts == h
            else ts != [] && ts[0].PragmaLine? && ParsePragma(ts[0].line) == Some(p) && ts[1..] == h
  {
    hide ParsePragma, Spelled;
    if p != NoPragma {
      PragmaIff(ts[0].line, p);
    }
  }

  lemma {:induction false} ForComplete(ts: seq<Token>, s: Stmt, rest: seq<Token>) returns (h: seq<Token>)
    requires s.For? && Statement(ts, s, rest)
    ensures PragmaAt(ts, s.pragma, h) && Peek(h) == Key(KwFor) && ParseFor(h, s.pragma) == Some(Found(s, rest))
    decreases s, 0
  {
    hide ParseHeader, ParseBlock, PragmaAt, TestAt, StepAt, Conditional, Enclosed;
    h :| PragmaAt(ts, s.pragma, h) && Loop(h, s.ivType, s.iv, s.start, s.rel, s.limit, s.stepIsAdd, s.step, s.body, rest);
    var r: seq<Token>, q: seq<Token>, z: seq<Token> :|
      && Expression(h[5..], s.start, [Sym(Semi)] + r)
      && TestAt(r, s.iv, s.rel, s.limit, q) && StepAt(q, s.iv, s.stepIsAdd, s.step, z) && Enclosed(z, s.body, rest);
    HeaderComplete(h, s.ivType, s.iv, s.start, s.rel, s.limit, s.stepIsAdd, s.step, r, q, z);
    EnclosedComplete(z, s.body, rest);
    OpensWith(h, [Key(KwFor), Sym(LParen), TypeName(s.ivType), Identifier(s.iv), Sym(AssignT)]);
  }

  lemma {:induction false} IfComplete(ts: seq<Token>, s: Stmt, rest: seq<Token>)
    requires s.If? && Statement(ts, s, rest)
    ensures ParseIf(ts) == Some(Found(s, rest)) && Peek(ts) == Key(KwIf)
    decreases s, 0
  {
    hide ParseConditional, Conditional, ParseBlock, Enclosed, ParseIf, Otherwise;
    var r: seq<Token>, q: seq<Token> :|
      Expression(ts[2..], s.cond, r) && Starts(r, [Sym(RParen)]) && Enclosed(r[1..], s.thenB, q) && Otherwise(q, s.elseS, rest);
    OpensWith(ts, [Key(KwIf), Sym(LParen)]);
    OpensWith(r, [Sym(RParen)]);
    Reads(ts);
    ExprIs(ts[2..]);
    EnclosedComplete(r[1..], s.thenB, q);
    ElseComplete(q, s.elseS, rest);
    IfJoins(ts, s, r, q, rest);
  }

  lemma {:induction false} ElseComplete(q: seq<Token>, e: Else, rest: seq<Token>)
    requires Otherwise(q, e, rest)
    ensures Peek(q) != Key(KwElse) ==> e == NoElse && rest == q
    ensures Peek(q) == Key(KwElse) ==> q != [] && ParsedElse(q, e, rest)
    decreases e, 2
  {
    hide ParseIf, ParseBlock, Statement;
    OpensWith(q, [Key(KwElse)]);
    PeekIs(q);
    if e.ElseDo? {
      StmtComplete(q[1..], e.stmt, rest);
      IfStarts(q[1..]);
      if e.stmt.Block? {
        BlockStarts(q[1..]);
      }
    }
  }

  lemma IfStarts(ts: seq<Token>)
    ensures ParseIf(ts).Some? ==> Peek(ts) == Key(KwIf)
  {
  }

  lemma BlockStarts(ts: seq<Token>)
    ensures ParseBlock(ts).Some? ==> Peek(ts) == Sym(LBrace)
  {
  }

  lemma IfJoins(ts: seq<Token>, s: Stmt, r: seq<Token>, q: seq<Token>, rest: seq<Token>)
    requires s.If? && |ts| >= 2 && ts[0] == Key(KwIf) && ts[1] == Sym(LParen)
    requires ParseConditional(ts[2..]) == Some(Parsed(s.cond, r)) && r != [] && r[0] == Sym(RParen)
    requires ParseBlock(r[1..]) == Some(Found(s.thenB, q))
    requires Peek(q) != Key(KwElse) ==> s.elseS == NoElse && rest == q
    requires Peek(q) == Key(KwElse) ==> q != [] && ParsedElse(q, s.elseS, rest)
    ensures ParseIf(ts) == Some(Found(s, rest))
  {
    hide ParseConditional, ParseBlock;
    Reads(ts);
  }

  lemma {:induction false} EnclosedComplete(ts: seq<Token>, b: seq<Stmt>, rest: seq<Token>)
    requires Enclosed(ts, b, rest)
    ensures ParseBlock(ts) == Some(Found(b, rest)) && Peek(ts) == Sym(LBrace)
    decreases b, 0, 1
  {
    hide ParseStmts, Statements;
    OpensWith(ts, [Sym(LBrace)]);
    AfterOne(Sym(RBrace), rest);
    StmtsComplete(ts[1..], b, [Sym(RBrace)] + rest);
  }

  lemma {:induction false} StmtsComplete(ts: seq<Token>, b: seq<Stmt>, rest: seq<Token>)
    requires Statements(ts, b, rest) && (Peek(rest) == Sym(RBrace) || Peek(rest) == Eof)
    ensures ParseStmts(ts) == Some(Found(b, rest))
    decreases b, 0, 0
  {
    hide ParseStmt, Statement;
    if b != [] {
      var r: seq<Token> :| Statement(ts, b[0], r) && Statements(r, b[1..], rest);
      StmtComplete(ts, b[0], r);
      StmtsComplete(r, b[1..], rest);
      assert b == [b[0]] + b[1..];
    }
  }

  // The parser reads a statement exactly where the grammar has one.
  lemma StatementIff(ts: seq<Token>, s: Stmt, rest: seq<Token>)
    ensures ParseStmt(ts) == Some(Found(s, rest)) <==> Statement(ts, s, rest)
  {
    hide ParseStmt, Statement;
    if ParseStmt(ts) == Some(Found(s, rest)) {
      StmtSound(ts);
    }
    if Statement(ts, s, rest) {
      StmtComplete(ts, s, rest);
    }
  }

  lemma EnclosedIff(ts: seq<Token>, b: seq<Stmt>, rest: seq<Token>)
    ensures ParseBlock(ts) == Some(Found(b, rest)) <==> Enclosed(ts, b, rest)
  {
    hide ParseBlock, Enclosed;
    if ParseBlock(ts) == Some(Found(b, rest)) {
      BlockSound(ts);
    }
    if Enclosed(ts, b, rest) {
      EnclosedComplete(ts, b, rest);
    }
  }

  // --------------------------------------------------------------------- whole files

  lemma StreamIff(ts: seq<Token>, p: Param, rest: seq<Token>)
    requires Peek(ts) == Key(KwIn) || Peek(ts) == Key(KwOut)
    ensures ParseParam(ts) == Some(Found(p, rest)) <==> Parameter(ts, p, rest)
  {
    hide Conditional;
    Reads(ts);
    if Parameter(ts, p, rest) {
      assert ts[6..] == rest;
    }
  }

  lemma ParameterSound(ts: seq<Token>)
    requires Peek(ts) != Key(KwIn) && Peek(ts) != Key(KwOut) && ParseParam(ts).Some?
    ensures var p := ParseParam(ts).value; Parameter(ts, p.it, p.rest)
  {
    hide ParseBracket, Conditional;
    Reads(ts);
    if Peek(ts[2..]) == Sym(LBracket) {
      BracketSound(ts[2..]);
      OpensWith(ts, [ts[0], ts[1], Sym(LBracket)]);
    }
  }

  lemma ParameterComplete(ts: seq<Token>, p: Param, rest: seq<Token>)
    requires Peek(ts) != Key(KwIn) && Peek(ts) != Key(KwOut) && Parameter(ts, p, rest)
    ensures ParseParam(ts) == Some(Found(p, rest))
  {
    hide ParseBracket, Conditional;
    Reads(ts);
    match p
    case Scalar(t, x) => assert ts[2..] == rest;
    case Array(t, x, size) =>
      OpensWith(ts, [TypeName(t), Identifier(x), Sym(LBracket)]);
      OpensWith(ts[2..], [Sym(LBracket)]);
      BracketComplete(ts[2..], size, rest);
    case _ =>
  }

  lemma ParameterIff(ts: seq<Token>, p: Param, rest: seq<Token>)
    ensures ParseParam(ts) == Some(Found(p, rest)) <==> Parameter(ts, p, rest)
  {
    hide ParseParam, Parameter;
    if Peek(ts) == Key(KwIn) || Peek(ts) == Key(KwOut) {
      StreamIff(ts, p, rest);
    } else {
      if ParseParam(ts).Some? {
        ParameterSound(ts);
      }
      if Parameter(ts, p, rest) {
        ParameterComplete(ts, p, rest);
      }
    }
  }

  lemma {:induction false} ParametersIff(ts: seq<Token>, ps: seq<Param>, rest: seq<Token>)
    requires ps != [] && Peek(rest) != Sym(Comma)
    ensures ParseParams(ts) == Some(Found(ps, rest)) <==> Parameters(ts, ps, rest)
    decreases |ps|
  {
    hide ParseParam, Parameter;
    if ParseParam(ts).Some? {
      var p := ParseParam(ts).value;
      ParameterIff(ts, p.it, p.rest);
      OpensWith(p.rest, [Sym(Comma)]);
      PeekIs(p.rest);
      if |ps| > 1 && p.rest != [] {
        ParametersIff(p.rest[1..], ps[1..], rest);
      }
    }
    if Parameters(ts, ps, rest) {
      var r: seq<Token> :| Parameter(ts, ps[0], r) && (|ps| == 1 ==> r == rest)
                           && (|ps| > 1 ==> Starts(r, [Sym(Comma)]) && Parameters(r[1..], ps[1..], rest));
      ParameterIff(ts, ps[0], r);
      OpensWith(r, [Sym(Comma)]);
      if |ps| == 1 {
        assert ps == [ps[0]];
      } else {
        assert ps == [ps[0]] + ps[1..];
      }
    } else if ParseParams(ts) == Some(Found(ps, rest)) {
      ParamsSplit(ts, ps, rest);
    }
  }

  // What a list of parameters was read from.
  lemma ParamsSplit(ts: seq<Token>, ps: seq<Param>, rest: seq<Token>)
    requires ParseParams(ts) == Some(Found(ps, rest))
    ensures ParseParam(ts).Some? && ps[0] == ParseParam(ts).value.it
    ensures var p := ParseParam(ts).value;
            if Peek(p.rest) != Sym(Comma) then ps == [p.it] && rest == p.rest
            else ps[1..] != [] && ParseParams(p.rest[1..]) == Some(Found(ps[1..], rest))
    decreases |ts|
  {
    hide ParseParam;
    var p := ParseParam(ts).value;
    if Peek(p.rest) == Sym(Comma) {
      var more := ParseParams(p.rest[1..]).value;
      ParamsSome(p.rest[1..]);
      assert ([p.it] + more.it)[1..] == more.it;
    }
  }

  lemma ParamsSome(ts: seq<Token>)
    requires ParseParams(ts).Some?
    ensures ParseParams(ts).value.it != []
  {
    hide ParseParam;
  }

  lemma ConstantSound(ts: seq<Token>)
    requires ParseConst(ts).Some?
    ensures var r := ParseConst(ts).value; Constant(ts, r.it, r.rest)
  {
    hide ParseConditional, Conditional, ParseElems, Braced;
    Reads(ts);
    var c := ParseConst(ts).value;
    ExprIs(ts[4..]);
    var e := ParseConditional(ts[4..]).value;
    Reads(e.rest);
    assert Expression(ts[4..], e.e, e.rest);
    if Peek(ts[3..]) == Sym(LBracket) {
      OpensWith(ts, [Key(KwConst), TypeName(c.it.ty), Identifier(c.it.name), Sym(LBracket)]);
      OpensWith(e.rest, [Sym(RBracket), Sym(AssignT)]);
      ElemsSound(e.rest[2..]);
      Reads(ParseElems(e.rest[2..]).value.rest);
    } else {
      OpensWith(ts, [Key(KwConst), TypeName(c.it.ty), Identifier(c.it.name), Sym(AssignT)]);
    }
  }

  lemma ScalarConstComplete(ts: seq<Token>, t: Type, x: string, e: Expr, rest: seq<Token>)
    requires Constant(ts, ScalarConst(t, x, e), rest)
    ensures ParseConst(ts) == Some(Found(ScalarConst(t, x, e), rest)) && Peek(ts) == Key(KwConst)
  {
    hide ParseConditional, Conditional, ParseElems, Braced, ParseBracket;
    OpensWith(ts, [Key(KwConst), TypeName(t), Identifier(x), Sym(AssignT)]);
    Reads(ts);
    AfterOne(Sym(Semi), rest);
    ExprIs(ts[4..]);
  }

  lemma ArrayConstForm(ts: seq<Token>, t: Type, x: string, size: Expr, es: seq<Expr>, rest: seq<Token>) returns (r: seq<Token>)
    requires Constant(ts, ArrayConst(t, x, size, es), rest)
    ensures ts != [] && ts[0] == Key(KwConst) && Sized(ts[1..], t, x, size, r)
    ensures Starts(r, [Sym(RBracket), Sym(AssignT)]) && Braced(r[2..], es, [Sym(Semi)] + rest)
  {
    hide Conditional, Braced;
    r :| Expression(ts[4..], size, r) && Starts(r, [Sym(RBracket), Sym(AssignT)]) && Braced(r[2..], es, [Sym(Semi)] + rest);
    OpensWith(ts, [Key(KwConst), TypeName(t), Identifier(x), Sym(LBracket)]);
    OpensWith(ts[1..], [TypeName(t), Identifier(x), Sym(LBracket)]);
    assert ts[1..][3..] == ts[4..];
  }

  lemma ArrayConstComplete(ts: seq<Token>, t: Type, x: string, size: Expr, es: seq<Expr>, rest: seq<Token>)
    requires Constant(ts, ArrayConst(t, x, size, es), rest)
    ensures ParseConst(ts) == Some(Found(ArrayConst(t, x, size, es), rest)) && Peek(ts) == Key(KwConst)
  {
    hide Constant, Sized, Braced, ParseConst, ParseBracket, ParseElems;
    var r := ArrayConstForm(ts, t, x, size, es, rest);
    OpensWith(r, [Sym(RBracket), Sym(AssignT)]);
    Reads(r);
    SizeRead(ts[1..], t, x, size, r);
    assert ts[1..][2..] == ts[3..];
    ElemsComplete(r[2..], es, [Sym(Semi)] + rest);
    ArrayConstJoins(ts, t, x, size, es, r[1..], rest);
  }

  lemma ArrayConstJoins(ts: seq<Token>, t: Type, x: string, size: Expr, es: seq<Expr>, q: seq<Token>, rest: seq<Token>)
    requires |ts| >= 4 && ts[0] == Key(KwConst) && ts[1] == TypeName(t) && ts[2] == Identifier(x)
    requires Peek(ts[3..]) == Sym(LBracket) && ParseBracket(ts[3..]) == Some(Parsed(size, q)) && Peek(q) == Sym(AssignT)
    requires ParseElems(q[1..]) == Some(Found(es, [Sym(Semi)] + rest))
    ensures ParseConst(ts) == Some(Found(ArrayConst(t, x, size, es), rest))
  {
    hide ParseBracket, ParseElems;
    Reads(ts);
    AfterOne(Sym(Semi), rest);
  }

  lemma ConstantComplete(ts: seq<Token>, c: ConstDecl, rest: seq<Token>)
    requires Constant(ts, c, rest)
    ensures ParseConst(ts) == Some(Found(c, rest)) && Peek(ts) == Key(KwConst)
  {
    hide Constant, ParseConst;
    match c
    case ScalarConst(t, x, e) => ScalarConstComplete(ts, t, x, e, rest);
    case ArrayConst(t, x, size, es) => ArrayConstComplete(ts, t, x, size, es, rest);
  }

  // The parameters of a function, between its parentheses.
  function ParseArgs(ts: seq<Token>): Option<Found<seq<Param>>> {
    if Peek(ts) == Sym(RParen) then Some(Found([], ts)) else ParseParams(ts)
  }

  lemma ArgsIff(ts: seq<Token>, ps: seq<Param>, r: seq<Token>)
    requires Peek(r) == Sym(RParen)
    ensures ParseArgs(ts) == Some(Found(ps, r)) <==> Parameters(ts, ps, r)
  {
    hide ParseParams, Parameter;
    if ps != [] {
      ParametersIff(ts, ps, r);
      if Parameters(ts, ps, r) {
        var q: seq<Token> :| Parameter(ts, ps[0], q);
        NoParen(ts, ps[0], q);
      }
    } else if Peek(ts) != Sym(RParen) {
      if ParseParams(ts).Some? {
        ParamsSome(ts);
      }
    }
  }

  lemma NoParen(ts: seq<Token>, p: Param, q: seq<Token>)
    requires Parameter(ts, p, q)
    ensures Peek(ts) != Sym(RParen)
  {
    hide Conditional;
    if p.Array? {
      OpensWith(ts, [TypeName(p.ty), Identifier(p.name), Sym(LBracket)]);
    }
  }

  lemma DefinitionSound(ts: seq<Token>)
    requires ParseFunction(ts).Some?
    ensures var f := ParseFunction(ts).value; Definition(ts, f.it, f.rest)
  {
    hide ParseFunction, ParseArgs, ParseBlock, Parameters, Enclosed;
    var f := ParseFunction(ts).value;
    var ps := ArgsOf(ts);
    OpensWith(ts, [TypeName(f.it.returnType), Identifier(f.it.name), Sym(LParen)]);
    ArgsIff(ts[3..], ps.it, ps.rest);
    Reads(ps.rest);
    EnclosedIff(ps.rest[1..], f.it.body, f.rest);
  }

  lemma ArgsOf(ts: seq<Token>) returns (ps: Found<seq<Param>>)
    requires ParseFunction(ts).Some?
    ensures |ts| >= 3 && ParseArgs(ts[3..]) == Some(ps) && Peek(ps.rest) == Sym(RParen) && ps.rest != []
    ensures var f := ParseFunction(ts).value;
            && ts[0] == TypeName(f.it.returnType) && ts[1] == Identifier(f.it.name) && ts[2] == Sym(LParen)
            && f.it.params == ps.it && ParseBlock(ps.rest[1..]) == Some(Found(f.it.body, f.rest))
  {
    hide ParseParams, ParseBlock;
    Reads(ts);
    ps := ParseArgs(ts[3..]).value;
  }

  lemma DefinitionComplete(ts: seq<Token>, f: Function, rest: seq<Token>)
    requires Definition(ts, f, rest)
    ensures ParseFunction(ts) == Some(Found(f, rest)) && Peek(ts) == TypeName(f.returnType)
  {
    hide ParseArgs, ParseParams, ParseBlock, Parameters, Enclosed;
    var r: seq<Token> :| Parameters(ts[3..], f.params, [Sym(RParen)] + r) && Enclosed(r, f.body, rest);
    OpensWith(ts, [TypeName(f.returnType), Identifier(f.name), Sym(LParen)]);
    AfterOne(Sym(RParen), r);
    ArgsIff(ts[3..], f.params, [Sym(RParen)] + r);
    EnclosedIff(r, f.body, rest);
    FunctionJoins(ts, f, r, rest);
  }

  lemma FunctionJoins(ts: seq<Token>, f: Function, r: seq<Token>, rest: seq<Token>)
    requires |ts| >= 3 && ts[0] == TypeName(f.returnType) && ts[1] == Identifier(f.name) && ts[2] == Sym(LParen)
    requires ParseArgs(ts[3..]) == Some(Found(f.params, [Sym(RParen)] + r)) && ParseBlock(r) == Some(Found(f.body, rest))
    ensures ParseFunction(ts) == Some(Found(f, rest))
  {
    hide ParseParams, ParseBlock;
    Reads(ts);
    AfterOne(Sym(RParen), r);
  }

  lemma {:induction false} ItemsSound(ts: seq<Token>, cs: seq<ConstDecl>, fn: Option<Function>) returns (items: seq<Item>)
    requires ParseItems(ts, cs, fn).Some?
    ensures Items(ts, items) && ParseItems(ts, cs, fn).value.consts == cs + ConstsOf(items)
    ensures (if fn.Some? then [fn.value] else []) + FunctionsOf(items) == [ParseItems(ts, cs, fn).value.fn]
    decreases |ts|
  {
    hide ParseConst, ParseFunction, Constant, Definition;
    PeekIs(ts);
    match Peek(ts)
    case Eof => items := [];
    case Key(KwConst) =>
      ConstantSound(ts);
      var c := ParseConst(ts).value;
      var more := ItemsSound(c.rest, cs + [c.it], fn);
      items := [ConstItem(c.it)] + more;
      assert items[1..] == more && ItemAt(ts, items[0], c.rest);
      assert cs + [c.it] + ConstsOf(more) == cs + ([c.it] + ConstsOf(more));
      assert [] + FunctionsOf(more) == FunctionsOf(more);
    case TypeName(_) =>
      DefinitionSound(ts);
      var f := ParseFunction(ts).value;
      var more := ItemsSound(f.rest, cs, Some(f.it));
      items := [FunctionItem(f.it)] + more;
      assert items[1..] == more && ItemAt(ts, items[0], f.rest);
      assert [] + ConstsOf(more) == ConstsOf(more);
  }

  lemma {:induction false} ItemsComplete(ts: seq<Token>, items: seq<Item>, cs: seq<ConstDecl>, fn: Option<Function>)
    requires Items(ts, items) && |(if fn.Some? then [fn.value] else []) + FunctionsOf(items)| == 1
    ensures ParseItems(ts, cs, fn) ==
            Some(Program(cs + ConstsOf(items), ((if fn.Some? then [fn.value] else []) + FunctionsOf(items))[0]))
    decreases |items|
  {
    hide ParseConst, ParseFunction, Constant, Definition;
    if items == [] {
      assert cs + ConstsOf(items) == cs;
    } else {
      var r: seq<Token> :| ItemAt(ts, items[0], r) && Items(r, items[1..]);
      match items[0]
      case ConstItem(c) =>
        ConstantComplete(ts, c, r);
        assert cs + [c] + ConstsOf(items[1..]) == cs + ([c] + ConstsOf(items[1..]));
        assert [] + FunctionsOf(items[1..]) == FunctionsOf(items[1..]);
        ItemsComplete(r, items[1..], cs + [c], fn);
      case FunctionItem(f) =>
        DefinitionComplete(ts, f, r);
        assert [] + ConstsOf(items[1..]) == ConstsOf(items[1..]);
        assert |[f] + FunctionsOf(items[1..])| == 1 + |FunctionsOf(items[1..])|;
        ItemsComplete(r, items[1..], cs, Some(f));
    }
  }

  // The parser reads a file exactly where the grammar has one: constants around one
  // function, and nothing else.
  lemma FileIff(ts: seq<Token>, p: Program)
    ensures ParseProgram(ts) == Some(p) <==> File(ts, p)
  {
    hide ParseItems, Items;
    if ParseProgram(ts) == Some(p) {
      var items := ItemsSound(ts, [], None);
      assert [] + ConstsOf(items) == ConstsOf(items) && [] + FunctionsOf(items) == FunctionsOf(items);
    }
    if File(ts, p) {
      var items: seq<Item> :| Items(ts, items) && ConstsOf(items) == p.consts && FunctionsOf(items) == [p.fn];
      assert [] + ConstsOf(items) == ConstsOf(items) && [] + FunctionsOf(items) == FunctionsOf(items);
      ItemsComplete(ts, items, [], None);
    }
  }
}
