/**
 The statement and program parsers (src/frontend/parser.cpp:136-498) on a token
 sequence.  Where the source reports a diagnostic and recovers, the answer is None.
 */
module ProgramGrammar {
  import Ast
  import opened FixedWidth
  import opened Syntax
  import opened Tokens
  import opened Grammar
  import Lex
  import opened Wrappers

  // Something read, and the tokens after it.
  datatype Found<A> = Found(it: A, rest: seq<Token>)

  function ExpectName(ts: seq<Token>): (r: Option<Found<string>>)
    ensures r.Some? ==> |r.value.rest| < |ts|
  {
    match Peek(ts)
    case Identifier(name) => Some(Found(name, ts[1..]))
    case _ => None
  }

  function ExpectKey(ts: seq<Token>, k: Keyword): (r: Option<seq<Token>>)
    ensures r.Some? ==> |r.value| < |ts|
  {
    if Peek(ts) == Key(k) then Some(ts[1..]) else None
  }

  // parseType, src/frontend/parser.cpp:392-395
  function ExpectType(ts: seq<Token>): (r: Option<Found<Type>>)
    ensures r.Some? ==> |r.value.rest| < |ts|
  {
    match Peek(ts)
    case TypeName(t) => Some(Found(t, ts[1..]))
    case _ => None
  }

  // The loop variable's own name.
  function ExpectThis(ts: seq<Token>, name: string): (r: Option<seq<Token>>)
    ensures r.Some? ==> |r.value| < |ts|
  {
    if Peek(ts) == Identifier(name) then Some(ts[1..]) else None
  }

  // ------------------------------------------------------------------ statements

  // An expression, or `read(s)`.
  function ParseSource(ts: seq<Token>): (r: Option<Found<Source>>)
    ensures r.Some? ==> |r.value.rest| < |ts|
  {
    if Peek(ts) == Key(KwRead) then
      var ts1 :- Expect(ts[1..], LParen);
      var s :- ExpectName(ts1);
      var rest :- Expect(s.rest, RParen);
      Some(Found(Read(s.it), rest))
    else
      var e :- ParseConditional(ts);
      Some(Found(Value(e.e), e.rest))
  }

  // Elements up to the closing brace, which a comma may precede.
  function ParseList(ts: seq<Token>): (r: Option<Found<seq<Expr>>>)
    ensures r.Some? ==> |r.value.rest| <= |ts|
    decreases |ts|
  {
    if Peek(ts) == Sym(RBrace) then Some(Found([], ts))
    else
      var e :- ParseConditional(ts);
      if Peek(e.rest) != Sym(Comma) then Some(Found([e.e], e.rest))
      else
        var more :- ParseList(e.rest[1..]);
        Some(Found([e.e] + more.it, more.rest))
  }

  // { e, ... }
  function ParseElems(ts: seq<Token>): (r: Option<Found<seq<Expr>>>)
    ensures r.Some? ==> |r.value.rest| < |ts|
  {
    var ts1 :- Expect(ts, LBrace);
    var es :- ParseList(ts1);
    var rest :- Expect(es.rest, RBrace);
    Some(Found(es.it, rest))
  }

  // [ e ]
  function ParseBracket(ts: seq<Token>): (r: Option<Parsed>)
    ensures r.Some? ==> |r.value.rest| < |ts|
  {
    var ts1 :- Expect(ts, LBracket);
    var e :- ParseConditional(ts1);
    var rest :- Expect(e.rest, RBracket);
    Some(Parsed(e.e, rest))
  }

  // ( e )
  function ParseParen(ts: seq<Token>): (r: Option<Parsed>)
    ensures r.Some? ==> |r.value.rest| < |ts|
  {
    var ts1 :- Expect(ts, LParen);
    var e :- ParseConditional(ts1);
    var rest :- Expect(e.rest, RParen);
    Some(Parsed(e.e, rest))
  }

  // src/frontend/parser.cpp:191-227
  function ParseDeclaration(ts: seq<Token>): (r: Option<Found<Stmt>>)
    ensures r.Some? ==> |r.value.rest| < |ts|
  {
    var t :- ExpectType(ts);
    var name :- ExpectName(t.rest);
    if Peek(name.rest) == Sym(LBracket) then
      var size :- ParseBracket(name.rest);
      if Peek(size.rest) == Sym(AssignT) then
        var es :- ParseElems(size.rest[1..]);
        var rest :- Expect(es.rest, Semi);
        Some(Found(ArrayDecl(t.it, name.it, size.e, es.it), rest))
      else
        var rest :- Expect(size.rest, Semi);
        Some(Found(ArrayDecl(t.it, name.it, size.e, []), rest))
    else
      var ts1 :- Expect(name.rest, AssignT);
      var v :- ParseSource(ts1);
      var rest :- Expect(v.rest, Semi);
      Some(Found(VarDecl(t.it, name.it, v.it), rest))
  }

  // src/frontend/parser.cpp:233-252
  function ParseAssign(ts: seq<Token>): (r: Option<Found<Stmt>>)
    ensures r.Some? ==> |r.value.rest| < |ts|
  {
    var name :- ExpectName(ts);
    if Peek(name.rest) == Sym(LBracket) then
      var i :- ParseBracket(name.rest);
      FinishAssign(name.it, Some(i.e), i.rest)
    else FinishAssign(name.it, None, name.rest)
  }

  function FinishAssign(name: string, index: Option<Expr>, ts: seq<Token>): (r: Option<Found<Stmt>>)
    ensures r.Some? ==> |r.value.rest| < |ts|
  {
    var ts1 :- Expect(ts, AssignT);
    var v :- ParseSource(ts1);
    var rest :- Expect(v.rest, Semi);
    Some(Found(Assign(name, index, v.it), rest))
  }

  // src/frontend/parser.cpp:255-267
  function ParseWrite(ts: seq<Token>): (r: Option<Found<Stmt>>)
    ensures r.Some? ==> |r.value.rest| < |ts|
  {
    var ts1 :- ExpectKey(ts, KwWrite);
    var ts2 :- Expect(ts1, LParen);
    var s :- ExpectName(ts2);
    var ts3 :- Expect(s.rest, Comma);
    var e :- ParseConditional(ts3);
    var ts4 :- Expect(e.rest, RParen);
    var rest :- Expect(ts4, Semi);
    Some(Found(Write(s.it, e.e), rest))
  }

  // src/frontend/parser.cpp:335-341
  function ParseReturn(ts: seq<Token>): (r: Option<Found<Stmt>>)
    ensures r.Some? ==> |r.value.rest| < |ts|
  {
    var ts1 :- ExpectKey(ts, KwReturn);
    var e :- ParseConditional(ts1);
    var rest :- Expect(e.rest, Semi);
    Some(Found(Return(e.e), rest))
  }

  // ------------------------------------------------------------------- pragmas

  const MAX_U32: nat := 0xffff_ffff

  // parseValue, src/frontend/parser.cpp:352-370
  function PragmaValue(s: string): Option<nat> {
    if s == [] || exists i | 0 <= i < |s| :: !Lex.Digit(s[i]) then None
    else if Lex.Decimal(s) > MAX_U32 then None
    else Some(Lex.Decimal(s))
  }

  predicate StartsWith(s: string, prefix: string) {
    |s| >= |prefix| && s[..|prefix|] == prefix
  }

  // parsePragma, src/frontend/parser.cpp:347-389
  function ParsePragma(line: string): Option<Pragma> {
    if line == UNROLL then Some(Unroll)
    else if StartsWith(line, UNROLL_BY) then
      var n :- PragmaValue(line[|UNROLL_BY|..]);
      Some(UnrollBy(n))
    else if StartsWith(line, PIPELINE) then
      var n :- PragmaValue(line[|PIPELINE|..]);
      Some(Pipeline(n))
    else None
  }

  // ---------------------------------------------------------------- loop headers

  function RelOf(t: Token): Option<Cmp> {
    match t
    case Sym(LtT) => Some(Lt)
    case Sym(LeT) => Some(Le)
    case Sym(GtT) => Some(Gt)
    case Sym(GeT) => Some(Ge)
    case _ => None
  }

  datatype Test = Test(rel: Cmp, limit: Expr)

  // iv < limit ;
  function ParseTest(ts: seq<Token>, iv: string): (r: Option<Found<Test>>)
    ensures r.Some? ==> |r.value.rest| < |ts|
  {
    var ts1 :- ExpectThis(ts, iv);
    var rel :- RelOf(Peek(ts1));
    var e :- ParseConditional(ts1[1..]);
    var rest :- Expect(e.rest, Semi);
    Some(Found(Test(rel, e.e), rest))
  }

  datatype Step = Step(isAdd: bool, step: Expr)

  // iv = iv + step )
  function ParseStep(ts: seq<Token>, iv: string): (r: Option<Found<Step>>)
    ensures r.Some? ==> |r.value.rest| < |ts|
  {
    var ts1 :- ExpectThis(ts, iv);
    var ts2 :- Expect(ts1, AssignT);
    var ts3 :- ExpectThis(ts2, iv);
    if Peek(ts3) != Sym(PlusT) && Peek(ts3) != Sym(MinusT) then None
    else
      var e :- ParseConditional(ts3[1..]);
      var rest :- Expect(e.rest, RParen);
      Some(Found(Step(Peek(ts3) == Sym(PlusT), e.e), rest))
  }

  datatype Header = Header(ivType: Type, iv: string, start: Expr, test: Test, step: Step)

  // for ( T iv = start ; test ; step )
  function ParseHeader(ts: seq<Token>): (r: Option<Found<Header>>)
    ensures r.Some? ==> |r.value.rest| < |ts|
  {
    var ts1 :- ExpectKey(ts, KwFor);
    var ts2 :- Expect(ts1, LParen);
    var t :- ExpectType(ts2);
    var iv :- ExpectName(t.rest);
    var ts3 :- Expect(iv.rest, AssignT);
    var e :- ParseConditional(ts3);
    var ts4 :- Expect(e.rest, Semi);
    var test :- ParseTest(ts4, iv.it);
    var step :- ParseStep(test.rest, iv.it);
    Some(Found(Header(t.it, iv.it, e.e, test.it, step.it), step.rest))
  }

  // ------------------------------------------------------------------------ blocks

  // parseStatement, src/frontend/parser.cpp:168-183
  function ParseStmt(ts: seq<Token>): (r: Option<Found<Stmt>>)
    ensures r.Some? ==> |r.value.rest| < |ts|
    decreases |ts|, 2
  {
    match Peek(ts)
    case TypeName(_) => ParseDeclaration(ts)
    case Key(KwIf) => ParseIf(ts)
    case Key(KwFor) => ParseFor(ts, NoPragma)
    case PragmaLine(line) =>
      var p :- ParsePragma(line);
      ParseFor(ts[1..], p)
    case Key(KwReturn) => ParseReturn(ts)
    case Key(KwWrite) => ParseWrite(ts)
    case Sym(LBrace) =>
      var b :- ParseBlock(ts);
      Some(Found(Block(b.it), b.rest))
    case Identifier(_) => ParseAssign(ts)
    case _ => None
  }

  // parseIf, src/frontend/parser.cpp:272-281
  function ParseIf(ts: seq<Token>): (r: Option<Found<Stmt>>)
    ensures r.Some? ==> |r.value.rest| < |ts|
    decreases |ts|, 1
  {
    var ts1 :- ExpectKey(ts, KwIf);
    var c :- ParseParen(ts1);
    var t :- ParseBlock(c.rest);
    if Peek(t.rest) != Key(KwElse) then Some(Found(If(c.e, t.it, NoElse), t.rest))
    else if Peek(t.rest[1..]) == Key(KwIf) then
      var e :- ParseIf(t.rest[1..]);
      Some(Found(If(c.e, t.it, ElseDo(e.it)), e.rest))
    else
      var b :- ParseBlock(t.rest[1..]);
      Some(Found(If(c.e, t.it, ElseDo(Block(b.it))), b.rest))
  }

  // parseFor, src/frontend/parser.cpp:294-332
  function ParseFor(ts: seq<Token>, p: Pragma): (r: Option<Found<Stmt>>)
    ensures r.Some? ==> |r.value.rest| < |ts|
    decreases |ts|, 1
  {
    var h :- ParseHeader(ts);
    var b :- ParseBlock(h.rest);
    Some(Found(For(p, h.it.ivType, h.it.iv, h.it.start, h.it.test.rel, h.it.test.limit,
                   h.it.step.isAdd, h.it.step.step, b.it), b.rest))
  }

  // parseBlock, src/frontend/parser.cpp:137-156
  function ParseBlock(ts: seq<Token>): (r: Option<Found<seq<Stmt>>>)
    ensures r.Some? ==> |r.value.rest| < |ts|
    decreases |ts|, 0
  {
    var ts1 :- Expect(ts, LBrace);
    var b :- ParseStmts(ts1);
    var rest :- Expect(b.rest, RBrace);
    Some(Found(b.it, rest))
  }

  function ParseStmts(ts: seq<Token>): (r: Option<Found<seq<Stmt>>>)
    ensures r.Some? ==> |r.value.rest| <= |ts|
    decreases |ts|, 3
  {
    if Peek(ts) == Sym(RBrace) || Peek(ts) == Eof then Some(Found([], ts))
    else
      var s :- ParseStmt(ts);
      var more :- ParseStmts(s.rest);
      Some(Found([s.it] + more.it, more.rest))
  }

  // --------------------------------------------------------------------- programs

  // src/frontend/parser.cpp:400-428
  function ParseParam(ts: seq<Token>): (r: Option<Found<Param>>)
    ensures r.Some? ==> |r.value.rest| < |ts|
  {
    if Peek(ts) == Key(KwIn) || Peek(ts) == Key(KwOut) then
      var ts1 :- ExpectKey(ts[1..], KwStream);
      var ts2 :- Expect(ts1, LtT);
      var t :- ExpectType(ts2);
      var ts3 :- Expect(t.rest, GtT);
      var name :- ExpectName(ts3);
      Some(Found(if Peek(ts) == Key(KwIn) then StreamIn(t.it, name.it) else StreamOut(t.it, name.it), name.rest))
    else
      var t :- ExpectType(ts);
      var name :- ExpectName(t.rest);
      if Peek(name.rest) == Sym(LBracket) then
        var size :- ParseBracket(name.rest);
        Some(Found(Array(t.it, name.it, size.e), size.rest))
      else Some(Found(Scalar(t.it, name.it), name.rest))
  }

  function ParseParams(ts: seq<Token>): (r: Option<Found<seq<Param>>>)
    ensures r.Some? ==> |r.value.rest| < |ts|
    decreases |ts|
  {
    var p :- ParseParam(ts);
    if Peek(p.rest) != Sym(Comma) then Some(Found([p.it], p.rest))
    else
      var more :- ParseParams(p.rest[1..]);
      Some(Found([p.it] + more.it, more.rest))
  }

  // src/frontend/parser.cpp:432-460
  function ParseConst(ts: seq<Token>): (r: Option<Found<ConstDecl>>)
    ensures r.Some? ==> |r.value.rest| < |ts|
  {
    var ts1 :- ExpectKey(ts, KwConst);
    var t :- ExpectType(ts1);
    var name :- ExpectName(t.rest);
    if Peek(name.rest) == Sym(LBracket) then
      var size :- ParseBracket(name.rest);
      var ts2 :- Expect(size.rest, AssignT);
      var es :- ParseElems(ts2);
      var rest :- Expect(es.rest, Semi);
      Some(Found(ArrayConst(t.it, name.it, size.e, es.it), rest))
    else
      var ts2 :- Expect(name.rest, AssignT);
      var e :- ParseConditional(ts2);
      var rest :- Expect(e.rest, Semi);
      Some(Found(ScalarConst(t.it, name.it, e.e), rest))
  }

  // src/frontend/parser.cpp:463-480
  function ParseFunction(ts: seq<Token>): (r: Option<Found<Function>>)
    ensures r.Some? ==> |r.value.rest| < |ts|
  {
    var t :- ExpectType(ts);
    var name :- ExpectName(t.rest);
    var ts1 :- Expect(name.rest, LParen);
    var ps :- if Peek(ts1) == Sym(RParen) then Some(Found([], ts1)) else ParseParams(ts1);
    var ts2 :- Expect(ps.rest, RParen);
    var b :- ParseBlock(ts2);
    Some(Found(Function(t.it, name.it, ps.it, b.it), b.rest))
  }

  // parseProgram, src/frontend/parser.cpp:486-498: constants before and after
  // exactly one function.
  function ParseItems(ts: seq<Token>, consts: seq<ConstDecl>, fn: Option<Function>): Option<Program>
    decreases |ts|
  {
    match Peek(ts)
    case Eof => if fn.Some? then Some(Program(consts, fn.value)) else None
    case Key(KwConst) =>
      var c :- ParseConst(ts);
      ParseItems(c.rest, consts + [c.it], fn)
    case TypeName(_) =>
      if fn.Some? then None
      else
        var f :- ParseFunction(ts);
        ParseItems(f.rest, consts, Some(f.it))
    case _ => None
  }

  function ParseProgram(ts: seq<Token>): Option<Program> {
    ParseItems(ts, [], None)
  }
}
