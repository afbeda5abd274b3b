/**
 Every program that is read is one of the language: its names, types and literals can be
 spelled, and its statements have the shapes the parser builds.
 */
module Legality {
  import Ast
  import opened FixedWidth
  import opened Syntax
  import opened Tokens
  import opened Grammar
  import opened ProgramGrammar
  import opened Derivation
  import opened LexPrinted
  import opened LexProgramPrinted
  import opened ParseProgramPrinted
  import opened Words
  import Lex
  import Lexemes
  import opened Wrappers

  predicate Lawful(p: Option<Parsed>) {
    p.Some? ==> LegalExpr(p.value.e) && LegalTokens(p.value.rest)
  }

  lemma TailLegal(ts: seq<Token>, n: nat)
    requires LegalTokens(ts) && n <= |ts|
    ensures LegalTokens(ts[n..])
  {
    hide LegalToken;
  }

  lemma {:induction false} ConditionalLegal(ts: seq<Token>)
    requires LegalTokens(ts)
    ensures Lawful(ParseConditional(ts))
    decreases |ts|, 5
  {
    hide LegalTokens, LegalName, ParseExpr;
    ExprLegal(ts, 0);
    if ParseConditional(ts).Some? {
      var c := ParseExpr(ts, 0).value;
      if Peek(c.rest) == Sym(Question) {
        TailLegal(c.rest, 1);
        ExprLegal(c.rest[1..], 0);
        var t := ParseExpr(c.rest[1..], 0).value;
        TailLegal(t.rest, 1);
        ConditionalLegal(t.rest[1..]);
      }
    }
  }

  lemma {:induction false} ExprLegal(ts: seq<Token>, m: nat)
    requires LegalTokens(ts)
    ensures Lawful(ParseExpr(ts, m))
    decreases |ts|, 4
  {
    hide LegalTokens, LegalExpr, ParseUnary, ParseMore;
    UnaryLegal(ts);
    if ParseUnary(ts).Some? {
      MoreLegal(ParseUnary(ts).value.e, ParseUnary(ts).value.rest, m);
    }
  }

  lemma {:induction false} MoreLegal(lhs: Expr, ts: seq<Token>, m: nat)
    requires LegalExpr(lhs) && LegalTokens(ts)
    ensures Lawful(ParseMore(lhs, ts, m))
    decreases |ts|, 3
  {
    hide LegalTokens, LegalName, ParseExpr;
    var bp := BindingPower(Peek(ts));
    if !(bp == 0 || bp < m) {
      TailLegal(ts, 1);
      ExprLegal(ts[1..], bp + 1);
      var r := ParseExpr(ts[1..], bp + 1);
      if r.Some? {
        MoreLegal(Binary(BinaryOf(ts[0]).value, lhs, r.value.e), r.value.rest, m);
      }
    }
  }

  lemma {:induction false} UnaryLegal(ts: seq<Token>)
    requires LegalTokens(ts)
    ensures Lawful(ParseUnary(ts))
    decreases |ts|, 2
  {
    hide LegalTokens, LegalName, ParsePostfix;
    if UnaryOf(Peek(ts)).Some? {
      TailLegal(ts, 1);
      UnaryLegal(ts[1..]);
    } else {
      PostfixLegal(ts);
    }
  }

  lemma {:induction false} PostfixLegal(ts: seq<Token>)
    requires LegalTokens(ts)
    ensures Lawful(ParsePostfix(ts))
    decreases |ts|, 1
  {
    hide LegalName, ParseConditional, LegalType;
    if Peek(ts).Identifier? && Peek(ts[1..]) == Sym(LBracket) {
      assert LegalToken(ts[0]);
      TailLegal(ts, 2);
      ConditionalLegal(ts[2..]);
      AfterLegal(ParseConditional(ts[2..]), RBracket);
    } else if ts != [] {
      assert LegalToken(ts[0]);
      TailLegal(ts, 1);
      if ts[0] == Sym(LParen) {
        ConditionalLegal(ts[1..]);
        AfterLegal(ParseConditional(ts[1..]), RParen);
      } else if ts[0].TypeName? && Peek(ts[1..]) == Sym(LParen) {
        TailLegal(ts[1..], 1);
        ConditionalLegal(ts[1..][1..]);
        AfterLegal(ParseConditional(ts[1..][1..]), RParen);
      }
    }
  }

  lemma AfterLegal(p: Option<Parsed>, s: Symbol)
    requires Lawful(p)
    ensures p.Some? && Expect(p.value.rest, s).Some? ==> LegalTokens(Expect(p.value.rest, s).value)
  {
    hide LegalToken;
  }

  lemma ExpressionLegal(ts: seq<Token>, e: Expr, rest: seq<Token>)
    requires Expression(ts, e, rest) && LegalTokens(ts)
    ensures LegalExpr(e) && LegalTokens(rest)
  {
    hide LegalTokens, LegalExpr, ParseConditional, Conditional;
    ExprIs(ts);
    ConditionalLegal(ts);
  }

  lemma RestLegal(head: seq<Token>, rest: seq<Token>)
    requires LegalTokens(head + rest)
    ensures LegalTokens(head) && LegalTokens(rest)
  {
    hide LegalToken;
    forall i | 0 <= i < |head| ensures LegalToken(head[i]) {
      assert (head + rest)[i] == head[i];
    }
    forall i | 0 <= i < |rest| ensures LegalToken(rest[i]) {
      assert (head + rest)[|head| + i] == rest[i];
    }
  }

  lemma HeadLegal(ts: seq<Token>, head: seq<Token>)
    requires LegalTokens(ts) && Starts(ts, head)
    ensures LegalTokens(head) && LegalTokens(ts[|head|..])
  {
    hide LegalTokens;
    assert ts == head + ts[|head|..];
    RestLegal(head, ts[|head|..]);
  }

  lemma OneLegal(ts: seq<Token>, i: nat)
    requires LegalTokens(ts) && i < |ts|
    ensures LegalToken(ts[i])
  {
  }

  // ----------------------------------------------------------------------- statements

  lemma SourceLegal(ts: seq<Token>, v: Source, rest: seq<Token>)
    requires RightSide(ts, v, [Sym(Semi)] + rest) && LegalTokens(ts)
    ensures LegalSource(v) && LegalTokens(rest)
  {
    hide LegalTokens, LegalExpr, LegalName, Conditional;
    match v
    case Value(e) =>
      ExpressionLegal(ts, e, [Sym(Semi)] + rest);
      RestLegal([Sym(Semi)], rest);
    case Read(s) =>
      var head := [Key(KwRead), Sym(LParen), Identifier(s), Sym(RParen)];
      RestLegal(head, [Sym(Semi)] + rest);
      OneLegal(head, 2);
      RestLegal([Sym(Semi)], rest);
  }

  lemma {:induction false} ElementsLegal(ts: seq<Token>, es: seq<Expr>, rest: seq<Token>)
    requires Elements(ts, es, rest) && LegalTokens(ts)
    ensures LegalList(es) && LegalTokens(rest)
    decreases |es|
  {
    hide LegalTokens, LegalExpr, Conditional;
    if es != [] {
      var r: seq<Token> :|
        && Expression(ts, es[0], r)
        && ((|es| == 1 && r == rest) || (Starts(r, [Sym(Comma)]) && Elements(r[1..], es[1..], rest)));
      ExpressionLegal(ts, es[0], r);
      if !(|es| == 1 && r == rest) {
        HeadLegal(r, [Sym(Comma)]);
        ElementsLegal(r[1..], es[1..], rest);
        assert es == [es[0]] + es[1..];
      }
    }
  }

  lemma BracedLegal(ts: seq<Token>, es: seq<Expr>, rest: seq<Token>)
    requires Braced(ts, es, [Sym(Semi)] + rest) && LegalTokens(ts)
    ensures LegalList(es) && LegalTokens(rest)
  {
    hide LegalTokens, LegalExpr, LegalList, Elements;
    HeadLegal(ts, [Sym(LBrace)]);
    ElementsLegal(ts[1..], es, [Sym(RBrace)] + ([Sym(Semi)] + rest));
    RestLegal([Sym(RBrace)], [Sym(Semi)] + rest);
    RestLegal([Sym(Semi)], rest);
  }

  // A statement of legal tokens is legal and built, and leaves legal tokens.
  predicate Good(s: Stmt, rest: seq<Token>) {
    LegalStmt(s) && Built(s) && LegalTokens(rest)
  }

  lemma DeclarationLegal(ts: seq<Token>, s: Stmt, rest: seq<Token>)
    requires (s.VarDecl? || s.ArrayDecl?) && Statement(ts, s, rest) && LegalTokens(ts)
    ensures Good(s, rest)
  {
    hide LegalTokens, LegalExpr, LegalName, LegalType, LegalSource, LegalList, Conditional, RightSide, Braced;
    match s
    case VarDecl(t, x, v) =>
      var head := [TypeName(t), Identifier(x), Sym(AssignT)];
      HeadLegal(ts, head);
      OneLegal(head, 0);
      OneLegal(head, 1);
      SourceLegal(ts[3..], v, rest);
    case ArrayDecl(t, x, size, es) =>
      var head := [TypeName(t), Identifier(x), Sym(LBracket)];
      HeadLegal(ts, head);
      OneLegal(head, 0);
      OneLegal(head, 1);
      var r: seq<Token> :|
        && Expression(ts[3..], size, r)
        && ((r == [Sym(RBracket), Sym(Semi)] + rest && es == [])
            || (Starts(r, [Sym(RBracket), Sym(AssignT)]) && Braced(r[2..], es, [Sym(Semi)] + rest)));
      ExpressionLegal(ts[3..], size, r);
      if r == [Sym(RBracket), Sym(Semi)] + rest && es == [] {
        RestLegal([Sym(RBracket), Sym(Semi)], rest);
        NoneLegal();
      } else {
        HeadLegal(r, [Sym(RBracket), Sym(AssignT)]);
        BracedLegal(r[2..], es, rest);
      }
  }

  lemma NoneLegal()
    ensures LegalList([])
  {
  }

  lemma AssignLegal(ts: seq<Token>, s: Stmt, rest: seq<Token>)
    requires s.Assign? && Statement(ts, s, rest) && LegalTokens(ts)
    ensures Good(s, rest)
  {
    hide LegalTokens, LegalExpr, LegalName, LegalType, LegalSource, Conditional, RightSide;
    if s.index.None? {
      var head := [Identifier(s.name), Sym(AssignT)];
      HeadLegal(ts, head);
      OneLegal(head, 0);
      SourceLegal(ts[2..], s.value, rest);
    } else {
      var head := [Identifier(s.name), Sym(LBracket)];
      HeadLegal(ts, head);
      OneLegal(head, 0);
      var r: seq<Token> :|
        && Expression(ts[2..], s.index.value, r) && Starts(r, [Sym(RBracket), Sym(AssignT)])
        && RightSide(r[2..], s.value, [Sym(Semi)] + rest);
      ExpressionLegal(ts[2..], s.index.value, r);
      HeadLegal(r, [Sym(RBracket), Sym(AssignT)]);
      SourceLegal(r[2..], s.value, rest);
    }
  }

  lemma PlainLegal(ts: seq<Token>, s: Stmt, rest: seq<Token>)
    requires (s.Write? || s.Return?) && Statement(ts, s, rest) && LegalTokens(ts)
    ensures Good(s, rest)
  {
    hide LegalTokens, LegalExpr, LegalName, Conditional;
    match s
    case Write(x, e) =>
      var head := [Key(KwWrite), Sym(LParen), Identifier(x), Sym(Comma)];
      HeadLegal(ts, head);
      OneLegal(head, 2);
      ExpressionLegal(ts[4..], e, [Sym(RParen), Sym(Semi)] + rest);
      RestLegal([Sym(RParen), Sym(Semi)], rest);
    case Return(e) =>
      HeadLegal(ts, [Key(KwReturn)]);
      ExpressionLegal(ts[1..], e, [Sym(Semi)] + rest);
      RestLegal([Sym(Semi)], rest);
  }

  lemma PragmaLegal(ts: seq<Token>, p: Pragma, rest: seq<Token>)
    requires PragmaAt(ts, p, rest) && LegalTokens(ts)
    ensures LegalTokens(rest) && (p.UnrollBy? ==> p.factor <= MAX_U32) && (p.Pipeline? ==> p.ii <= MAX_U32)
  {
    hide LegalToken, Lexemes.Denoted;
  }

  lemma TestLegal(ts: seq<Token>, iv: string, rel: Cmp, l: Expr, rest: seq<Token>)
    requires TestAt(ts, iv, rel, l, rest) && LegalTokens(ts)
    ensures LegalExpr(l) && LegalTokens(rest) && (rel == Lt || rel == Le || rel == Gt || rel == Ge)
  {
    hide LegalTokens, LegalExpr, Conditional;
    HeadLegal(ts, [Identifier(iv), Sym(RelSymbol(rel))]);
    ExpressionLegal(ts[2..], l, [Sym(Semi)] + rest);
    RestLegal([Sym(Semi)], rest);
  }

  lemma StepLegal(ts: seq<Token>, iv: string, isAdd: bool, k: Expr, rest: seq<Token>)
    requires StepAt(ts, iv, isAdd, k, rest) && LegalTokens(ts)
    ensures LegalExpr(k) && LegalTokens(rest)
  {
    hide LegalTokens, LegalExpr, Conditional;
    HeadLegal(ts, [Identifier(iv), Sym(AssignT), Identifier(iv), Sym(if isAdd then PlusT else MinusT)]);
    ExpressionLegal(ts[4..], k, [Sym(RParen)] + rest);
    RestLegal([Sym(RParen)], rest);
  }

  lemma {:induction false} ForLegal(ts: seq<Token>, s: Stmt, rest: seq<Token>)
    requires s.For? && Statement(ts, s, rest) && LegalTokens(ts)
    ensures Good(s, rest)
    decreases s, 0
  {
    hide LegalTokens, LegalExpr, LegalName, LegalType, LegalBlock, BuiltBlock, Conditional, Enclosed, TestAt, StepAt, PragmaAt;
    var h: seq<Token> :| PragmaAt(ts, s.pragma, h) && Loop(h, s.ivType, s.iv, s.start, s.rel, s.limit, s.stepIsAdd, s.step, s.body, rest);
    PragmaLegal(ts, s.pragma, h);
    var r: seq<Token>, q: seq<Token>, z: seq<Token> :|
      && Expression(h[5..], s.start, [Sym(Semi)] + r)
      && TestAt(r, s.iv, s.rel, s.limit, q) && StepAt(q, s.iv, s.stepIsAdd, s.step, z) && Enclosed(z, s.body, rest);
    var head := [Key(KwFor), Sym(LParen), TypeName(s.ivType), Identifier(s.iv), Sym(AssignT)];
    HeadLegal(h, head);
    OneLegal(head, 2);
    OneLegal(head, 3);
    ExpressionLegal(h[5..], s.start, [Sym(Semi)] + r);
    RestLegal([Sym(Semi)], r);
    TestLegal(r, s.iv, s.rel, s.limit, q);
    StepLegal(q, s.iv, s.stepIsAdd, s.step, z);
    EnclosedLegal(z, s.body, rest);
  }

  lemma {:induction false} IfLegal(ts: seq<Token>, s: Stmt, rest: seq<Token>)
    requires s.If? && Statement(ts, s, rest) && LegalTokens(ts)
    ensures Good(s, rest)
    decreases s, 0
  {
    hide LegalTokens, LegalExpr, LegalBlock, BuiltBlock, Conditional, Enclosed, Statement, LegalStmt, Built;
    var r, q := IfForm(ts, s, rest);
    HeadLegal(ts, [Key(KwIf), Sym(LParen)]);
    ExpressionLegal(ts[2..], s.cond, r);
    HeadLegal(r, [Sym(RParen)]);
    EnclosedLegal(r[1..], s.thenB, q);
    if s.elseS.ElseDo? {
      HeadLegal(q, [Key(KwElse)]);
      StatementLegal(q[1..], s.elseS.stmt, rest);
    }
    IfGood(s);
  }

  lemma IfForm(ts: seq<Token>, s: Stmt, rest: seq<Token>) returns (r: seq<Token>, q: seq<Token>)
    requires s.If? && Statement(ts, s, rest)
    ensures Starts(ts, [Key(KwIf), Sym(LParen)])
    ensures Expression(ts[2..], s.cond, r) && Starts(r, [Sym(RParen)]) && Enclosed(r[1..], s.thenB, q) && Otherwise(q, s.elseS, rest)
  {
    hide Conditional, Enclosed, Otherwise;
    r, q :| Expression(ts[2..], s.cond, r) && Starts(r, [Sym(RParen)]) && Enclosed(r[1..], s.thenB, q) && Otherwise(q, s.elseS, rest);
  }

  lemma IfGood(s: Stmt)
    requires s.If? && LegalExpr(s.cond) && LegalBlock(s.thenB) && BuiltBlock(s.thenB)
    requires s.elseS.ElseDo? ==> (s.elseS.stmt.If? || s.elseS.stmt.Block?) && LegalStmt(s.elseS.stmt) && Built(s.elseS.stmt)
    ensures LegalStmt(s) && Built(s)
  {
    hide LegalExpr, LegalBlock, BuiltBlock;
  }

  lemma {:induction false} StatementLegal(ts: seq<Token>, s: Stmt, rest: seq<Token>)
    requires Statement(ts, s, rest) && LegalTokens(ts)
    ensures Good(s, rest)
    decreases s, 1
  {
    hide LegalTokens, LegalExpr, LegalName, LegalType, LegalSource, LegalBlock, BuiltBlock, Statement;
    match s
    case VarDecl(_, _, _) => DeclarationLegal(ts, s, rest);
    case ArrayDecl(_, _, _, _) => DeclarationLegal(ts, s, rest);
    case Assign(_, _, _) => AssignLegal(ts, s, rest);
    case Write(_, _) => PlainLegal(ts, s, rest);
    case Return(_) => PlainLegal(ts, s, rest);
    case If(_, _, _) => IfLegal(ts, s, rest);
    case For(_, _, _, _, _, _, _, _, _) => ForLegal(ts, s, rest);
    case Block(b) =>
      BlockForm(ts, b, rest);
      EnclosedLegal(ts, b, rest);
  }

  lemma {:induction false} EnclosedLegal(ts: seq<Token>, b: seq<Stmt>, rest: seq<Token>)
    requires Enclosed(ts, b, rest) && LegalTokens(ts)
    ensures LegalBlock(b) && BuiltBlock(b) && LegalTokens(rest)
    decreases b, 0, 1
  {
    hide LegalTokens, Statements, LegalBlock, BuiltBlock;
    HeadLegal(ts, [Sym(LBrace)]);
    StatementsLegal(ts[1..], b, [Sym(RBrace)] + rest);
    RestLegal([Sym(RBrace)], rest);
  }

  lemma {:induction false} StatementsLegal(ts: seq<Token>, b: seq<Stmt>, rest: seq<Token>)
    requires Statements(ts, b, rest) && LegalTokens(ts)
    ensures LegalBlock(b) && BuiltBlock(b) && LegalTokens(rest)
    decreases b, 0, 0
  {
    hide LegalTokens, Statement, LegalStmt, Built;
    if b != [] {
      var r: seq<Token> :| Statement(ts, b[0], r) && Statements(r, b[1..], rest);
      StatementLegal(ts, b[0], r);
      StatementsLegal(r, b[1..], rest);
    }
  }

  // ------------------------------------------------------------------------- programs

  lemma ParameterLegal(ts: seq<Token>, p: Param, rest: seq<Token>)
    requires Parameter(ts, p, rest) && LegalTokens(ts)
    ensures LegalParam(p) && LegalTokens(rest)
  {
    hide LegalTokens, LegalExpr, LegalName, LegalType, Conditional;
    match p
    case Scalar(t, x) =>
      var head := [TypeName(t), Identifier(x)];
      RestLegal(head, rest);
      OneLegal(head, 0);
      OneLegal(head, 1);
    case Array(t, x, size) =>
      var head := [TypeName(t), Identifier(x), Sym(LBracket)];
      HeadLegal(ts, head);
      OneLegal(head, 0);
      OneLegal(head, 1);
      ExpressionLegal(ts[3..], size, [Sym(RBracket)] + rest);
      RestLegal([Sym(RBracket)], rest);
    case StreamIn(t, x) =>
      var head := [Key(KwIn), Key(KwStream), Sym(LtT), TypeName(t), Sym(GtT), Identifier(x)];
      RestLegal(head, rest);
      OneLegal(head, 3);
      OneLegal(head, 5);
    case StreamOut(t, x) =>
      var head := [Key(KwOut), Key(KwStream), Sym(LtT), TypeName(t), Sym(GtT), Identifier(x)];
      RestLegal(head, rest);
      OneLegal(head, 3);
      OneLegal(head, 5);
  }

  lemma {:induction false} ParametersLegal(ts: seq<Token>, ps: seq<Param>, rest: seq<Token>)
    requires Parameters(ts, ps, rest) && LegalTokens(ts)
    ensures (forall i | 0 <= i < |ps| :: LegalParam(ps[i])) && LegalTokens(rest)
    decreases |ps|
  {
    hide LegalTokens, Parameter, LegalParam;
    if |ps| == 1 {
      ParameterLegal(ts, ps[0], rest);
    } else if |ps| > 1 {
      var r: seq<Token> :| Parameter(ts, ps[0], r) && Starts(r, [Sym(Comma)]) && Parameters(r[1..], ps[1..], rest);
      ParameterLegal(ts, ps[0], r);
      HeadLegal(r, [Sym(Comma)]);
      ParametersLegal(r[1..], ps[1..], rest);
      assert ps == [ps[0]] + ps[1..];
    }
  }

  lemma ConstantLegal(ts: seq<Token>, c: ConstDecl, rest: seq<Token>)
    requires Constant(ts, c, rest) && LegalTokens(ts)
    ensures LegalConst(c) && LegalTokens(rest)
  {
    hide LegalTokens, LegalExpr, LegalName, LegalType, LegalList, Conditional, Braced;
    match c
    case ScalarConst(t, x, e) =>
      var head := [Key(KwConst), TypeName(t), Identifier(x), Sym(AssignT)];
      HeadLegal(ts, head);
      OneLegal(head, 1);
      OneLegal(head, 2);
      ExpressionLegal(ts[4..], e, [Sym(Semi)] + rest);
      RestLegal([Sym(Semi)], rest);
    case ArrayConst(t, x, size, es) =>
      var head := [Key(KwConst), TypeName(t), Identifier(x), Sym(LBracket)];
      HeadLegal(ts, head);
      OneLegal(head, 1);
      OneLegal(head, 2);
      var r: seq<Token> :|
        Expression(ts[4..], size, r) && Starts(r, [Sym(RBracket), Sym(AssignT)]) && Braced(r[2..], es, [Sym(Semi)] + rest);
      ExpressionLegal(ts[4..], size, r);
      HeadLegal(r, [Sym(RBracket), Sym(AssignT)]);
      BracedLegal(r[2..], es, rest);
  }

  predicate LegalFunction(f: Function) {
    && LegalType(f.returnType) && LegalName(f.name)
    && (forall i | 0 <= i < |f.params| :: LegalParam(f.params[i]))
    && LegalBlock(f.body) && BuiltBlock(f.body)
  }

  lemma DefinitionLegal(ts: seq<Token>, f: Function, rest: seq<Token>)
    requires Definition(ts, f, rest) && LegalTokens(ts)
    ensures LegalFunction(f) && LegalTokens(rest)
  {
    hide LegalTokens, LegalName, LegalType, LegalParam, LegalBlock, BuiltBlock, Parameters, Enclosed;
    var r: seq<Token> :| Parameters(ts[3..], f.params, [Sym(RParen)] + r) && Enclosed(r, f.body, rest);
    var head := [TypeName(f.returnType), Identifier(f.name), Sym(LParen)];
    HeadLegal(ts, head);
    OneLegal(head, 0);
    OneLegal(head, 1);
    ParametersLegal(ts[3..], f.params, [Sym(RParen)] + r);
    RestLegal([Sym(RParen)], r);
    EnclosedLegal(r, f.body, rest);
  }

  lemma {:induction false} ItemsLegal(ts: seq<Token>, items: seq<Item>)
    requires Items(ts, items) && LegalTokens(ts)
    ensures forall i | 0 <= i < |ConstsOf(items)| :: LegalConst(ConstsOf(items)[i])
    ensures forall i | 0 <= i < |FunctionsOf(items)| :: LegalFunction(FunctionsOf(items)[i])
    decreases |items|
  {
    hide LegalTokens, Constant, Definition, LegalConst, LegalFunction;
    if items != [] {
      var r: seq<Token> :| ItemAt(ts, items[0], r) && Items(r, items[1..]);
      match items[0]
      case ConstItem(c) =>
        ConstantLegal(ts, c, r);
        ItemsLegal(r, items[1..]);
      case FunctionItem(f) =>
        DefinitionLegal(ts, f, r);
        ItemsLegal(r, items[1..]);
    }
  }

  // What is read of any text is a program of the language.
  lemma ReadIsLegal(text: string, p: Program)
    requires Lex.Tokenize(text).Some? && ParseProgram(Lex.Tokenize(text).value) == Some(p)
    ensures LegalProgram(p)
  {
    hide Lex.Tokenize, ParseProgram, LegalTokens, Items, LegalConst, LegalName, LegalType, LegalParam, LegalBlock, BuiltBlock;
    var ts := Lex.Tokenize(text).value;
    TokensLegal(text);
    FileIff(ts, p);
    var items: seq<Item> :| Items(ts, items) && ConstsOf(items) == p.consts && FunctionsOf(items) == [p.fn];
    ItemsLegal(ts, items);
    assert LegalFunction(FunctionsOf(items)[0]);
  }
}
