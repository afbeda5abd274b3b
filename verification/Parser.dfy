/**
 The parser as the source has it (src/frontend/parser.cpp): one object whose
 methods advance a position through the tokens.  It stops at its first diagnostic.
 */
module Parser {
  import Ast
  import opened FixedWidth
  import opened Syntax
  import opened Tokens
  import G = Grammar
  import opened ProgramGrammar
  import opened Wrappers

  class Parser {
    const toks: seq<Token>
    var pos: nat

    constructor (tokens: seq<Token>)
      ensures toks == tokens && Valid() && Rest() == tokens
    {
      toks := tokens;
      pos := 0;
      new;
      assert toks[0..] == toks;
    }

    predicate Valid()
      reads this
    {
      pos <= |toks|
    }

    function Rest(): seq<Token>
      reads this
      requires Valid()
    {
      toks[pos..]
    }

    function Ahead(): Token
      reads this
      requires Valid()
    {
      Peek(Rest())
    }

    // What a parsing method found, or that it refused.
    predicate Got<A(==)>(spec: Option<Found<A>>, r: Option<A>)
      reads this
      requires Valid()
    {
      match spec
      case None => r.None?
      case Some(f) => r == Some(f.it) && Rest() == f.rest
    }

    predicate Expression(spec: Option<G.Parsed>, r: Option<Expr>)
      reads this
      requires Valid()
    {
      match spec
      case None => r.None?
      case Some(p) => r == Some(p.e) && Rest() == p.rest
    }

    method Advance() returns (t: Token)
      requires Valid() && Rest() != []
      modifies this
      ensures Valid() && t == Peek(old(Rest())) && Rest() == old(Rest())[1..] && pos > old(pos)
    {
      t := toks[pos];
      pos := pos + 1;
    }

    method Accept(t: Token) returns (ok: bool)
      requires Valid() && t != Eof
      modifies this
      ensures Valid() && ok == (Peek(old(Rest())) == t)
      ensures Rest() == if ok then old(Rest())[1..] else old(Rest())
      ensures pos >= old(pos) && (ok ==> pos > old(pos))
    {
      ok := Ahead() == t;
      if ok {
        pos := pos + 1;
      }
    }

    method Expect(s: Symbol) returns (ok: bool)
      requires Valid()
      modifies this
      ensures Valid() && ok == G.Expect(old(Rest()), s).Some? && pos >= old(pos)
      ensures ok ==> Rest() == G.Expect(old(Rest()), s).value && pos > old(pos)
    {
      ok := Accept(Sym(s));
    }

    // ----------------------------------------------------------------- expressions

    method ParseConditional() returns (r: Option<Expr>)
      requires Valid()
      modifies this
      ensures Valid() && pos >= old(pos) && Expression(G.ParseConditional(old(Rest())), r)
      decreases |toks| - pos, 5
    {
      var c := ParseExpr(0);
      if c.None? { return None; }
      var question := Accept(Sym(Question));
      if !question { return c; }
      var t := ParseExpr(0);
      if t.None? { return None; }
      var colon := Expect(Colon);
      if !colon { return None; }
      var f := ParseConditional();
      if f.None? { return None; }
      return Some(Ternary(c.value, t.value, f.value));
    }

    method ParseExpr(minBP: nat) returns (r: Option<Expr>)
      requires Valid()
      modifies this
      ensures Valid() && pos >= old(pos) && Expression(G.ParseExpr(old(Rest()), minBP), r)
      ensures r.Some? ==> pos > old(pos)
      decreases |toks| - pos, 4
    {
      ghost var start := Rest();
      ghost var from := pos;
      var lhs := ParseUnary();
      if lhs.None? { return None; }
      while true
        invariant Valid() && pos > from && lhs.Some?
        invariant G.ParseExpr(start, minBP) == G.ParseMore(lhs.value, Rest(), minBP)
        decreases |toks| - pos
      {
        var bp := BindingPower(Ahead());
        if bp == 0 || bp < minBP { return lhs; }
        var op := Advance();
        var rhs := ParseExpr(bp + 1);
        if rhs.None? { return None; }
        lhs := Some(Binary(BinaryOf(op).value, lhs.value, rhs.value));
      }
    }

    method ParseUnary() returns (r: Option<Expr>)
      requires Valid()
      modifies this
      ensures Valid() && pos >= old(pos) && Expression(G.ParseUnary(old(Rest())), r)
      ensures r.Some? ==> pos > old(pos)
      decreases |toks| - pos, 2
    {
      var op := UnaryOf(Ahead());
      if op.None? {
        r := ParsePostfix();
        return;
      }
      var t := Advance();
      var x := ParseUnary();
      if x.None? { return None; }
      return Some(Unary(op.value, x.value));
    }

    method ParsePostfix() returns (r: Option<Expr>)
      requires Valid()
      modifies this
      ensures Valid() && pos >= old(pos) && Expression(G.ParsePostfix(old(Rest())), r)
      ensures r.Some? ==> pos > old(pos)
      decreases |toks| - pos, 1
    {
      if Ahead().Identifier? && Peek(Rest()[1..]) == Sym(LBracket) {
        assert Rest()[1..][1..] == Rest()[2..];
        var name := Advance();
        var open := Advance();
        var i := ParseConditional();
        if i.None? { return None; }
        var close := Expect(RBracket);
        if !close { return None; }
        return Some(Index(name.text, i.value));
      }
      r := ParsePrimary();
    }

    method ParsePrimary() returns (r: Option<Expr>)
      requires Valid()
      modifies this
      ensures Valid() && pos >= old(pos) && Expression(G.ParsePrimary(old(Rest())), r)
      ensures r.Some? ==> pos > old(pos)
      decreases |toks| - pos, 0
    {
      match Ahead()
      case Literal(v) =>
        var t := Advance();
        return Some(IntLit(v));
      case Identifier(name) =>
        var t := Advance();
        return Some(NameRef(name));
      case TypeName(ty) =>
        var t := Advance();
        var open := Expect(LParen);
        if !open { return None; }
        var x := ParseConditional();
        if x.None? { return None; }
        var close := Expect(RParen);
        if !close { return None; }
        return Some(Cast(ty, x.value));
      case Sym(LParen) =>
        var t := Advance();
        var x := ParseConditional();
        if x.None? { return None; }
        var close := Expect(RParen);
        if !close { return None; }
        return x;
      case _ =>
        return None;
    }

    // ------------------------------------------------------------------- pieces

    method ExpectName() returns (r: Option<string>)
      requires Valid()
      modifies this
      ensures Valid() && pos >= old(pos) && Got(ProgramGrammar.ExpectName(old(Rest())), r)
    {
      if !Ahead().Identifier? { return None; }
      var t := Advance();
      return Some(t.text);
    }

    method ExpectType() returns (r: Option<Type>)
      requires Valid()
      modifies this
      ensures Valid() && pos >= old(pos) && Got(ProgramGrammar.ExpectType(old(Rest())), r)
    {
      if !Ahead().TypeName? { return None; }
      var t := Advance();
      return Some(t.ty);
    }

    method ExpectKey(k: Keyword) returns (ok: bool)
      requires Valid()
      modifies this
      ensures Valid() && ok == ProgramGrammar.ExpectKey(old(Rest()), k).Some? && pos >= old(pos)
      ensures ok ==> Rest() == ProgramGrammar.ExpectKey(old(Rest()), k).value && pos > old(pos)
    {
      ok := Accept(Key(k));
    }

    method ExpectThis(name: string) returns (ok: bool)
      requires Valid()
      modifies this
      ensures Valid() && ok == ProgramGrammar.ExpectThis(old(Rest()), name).Some? && pos >= old(pos)
      ensures ok ==> Rest() == ProgramGrammar.ExpectThis(old(Rest()), name).value
    {
      ok := Accept(Identifier(name));
    }

    // An expression, or `read(s)`.
    method ParseSource() returns (r: Option<Source>)
      requires Valid()
      modifies this
      ensures Valid() && pos >= old(pos) && Got(ProgramGrammar.ParseSource(old(Rest())), r)
    {
      var read := Accept(Key(KwRead));
      if !read {
        var e := ParseConditional();
        return if e.Some? then Some(Value(e.value)) else None;
      }
      var open := Expect(LParen);
      if !open { return None; }
      var s := ExpectName();
      if s.None? { return None; }
      var close := Expect(RParen);
      if !close { return None; }
      return Some(Read(s.value));
    }

    // { e, ... }
    method ParseElems() returns (r: Option<seq<Expr>>)
      requires Valid()
      modifies this
      ensures Valid() && pos >= old(pos) && Got(ProgramGrammar.ParseElems(old(Rest())), r)
    {
      var open := Expect(LBrace);
      if !open { return None; }
      var es: seq<Expr> := [];
      var more := true;
      ghost var start := Rest();
      OntoNone(ProgramGrammar.ParseList(start));
      while more && Ahead() != Sym(RBrace)
        invariant Valid() && pos >= old(pos)
        invariant ProgramGrammar.ParseList(start) ==
                  if more then Onto(es, ProgramGrammar.ParseList(Rest())) else Some(ProgramGrammar.Found(es, Rest()))
        decreases |toks| - pos, more
      {
        var e := ParseConditional();
        if e.None? { return None; }
        more := Accept(Sym(Comma));
        OntoOne(es, e.value, ProgramGrammar.ParseList(Rest()));
        es := es + [e.value];
      }
      assert es + [] == es;
      var close := Expect(RBrace);
      if !close { return None; }
      return Some(es);
    }

    // [ e ]
    method ParseBracket() returns (r: Option<Expr>)
      requires Valid()
      modifies this
      ensures Valid() && pos >= old(pos) && Expression(ProgramGrammar.ParseBracket(old(Rest())), r)
    {
      var open := Expect(LBracket);
      if !open { return None; }
      r := ParseConditional();
      if r.None? { return None; }
      var close := Expect(RBracket);
      if !close { return None; }
    }

    // ( e )
    method ParseParen() returns (r: Option<Expr>)
      requires Valid()
      modifies this
      ensures Valid() && pos >= old(pos) && Expression(ProgramGrammar.ParseParen(old(Rest())), r)
    {
      var open := Expect(LParen);
      if !open { return None; }
      r := ParseConditional();
      if r.None? { return None; }
      var close := Expect(RParen);
      if !close { return None; }
    }

    // ----------------------------------------------------------------- statements

    method ParseDeclaration() returns (r: Option<Stmt>)
      requires Valid()
      modifies this
      ensures Valid() && pos >= old(pos) && Got(ProgramGrammar.ParseDeclaration(old(Rest())), r)
    {
      var t := ExpectType();
      if t.None? { return None; }
      var name := ExpectName();
      if name.None? { return None; }
      if Ahead() == Sym(LBracket) {
        var size := ParseBracket();
        if size.None? { return None; }
        var elems: seq<Expr> := [];
        var given := Accept(Sym(AssignT));
        if given {
          var es := ParseElems();
          if es.None? { return None; }
          elems := es.value;
        }
        var end := Expect(Semi);
        if !end { return None; }
        return Some(ArrayDecl(t.value, name.value, size.value, elems));
      }
      var eq := Expect(AssignT);
      if !eq { return None; }
      var v := ParseSource();
      if v.None? { return None; }
      var end := Expect(Semi);
      if !end { return None; }
      return Some(VarDecl(t.value, name.value, v.value));
    }

    method ParseAssign() returns (r: Option<Stmt>)
      requires Valid()
      modifies this
      ensures Valid() && pos >= old(pos) && Got(ProgramGrammar.ParseAssign(old(Rest())), r)
    {
      var name := ExpectName();
      if name.None? { return None; }
      var index: Option<Expr> := None;
      if Ahead() == Sym(LBracket) {
        index := ParseBracket();
        if index.None? { return None; }
      }
      var eq := Expect(AssignT);
      if !eq { return None; }
      var v := ParseSource();
      if v.None? { return None; }
      var end := Expect(Semi);
      if !end { return None; }
      return Some(Assign(name.value, index, v.value));
    }

    method ParseWrite() returns (r: Option<Stmt>)
      requires Valid()
      modifies this
      ensures Valid() && pos >= old(pos) && Got(ProgramGrammar.ParseWrite(old(Rest())), r)
    {
      var key := ExpectKey(KwWrite);
      if !key { return None; }
      var open := Expect(LParen);
      if !open { return None; }
      var s := ExpectName();
      if s.None? { return None; }
      var comma := Expect(Comma);
      if !comma { return None; }
      var e := ParseConditional();
      if e.None? { return None; }
      var close := Expect(RParen);
      if !close { return None; }
      var end := Expect(Semi);
      if !end { return None; }
      return Some(Write(s.value, e.value));
    }

    method ParseReturn() returns (r: Option<Stmt>)
      requires Valid()
      modifies this
      ensures Valid() && pos >= old(pos) && Got(ProgramGrammar.ParseReturn(old(Rest())), r)
    {
      var key := ExpectKey(KwReturn);
      if !key { return None; }
      var e := ParseConditional();
      if e.None? { return None; }
      var end := Expect(Semi);
      if !end { return None; }
      return Some(Return(e.value));
    }

    method ParseTest(iv: string) returns (r: Option<Test>)
      requires Valid()
      modifies this
      ensures Valid() && pos >= old(pos) && Got(ProgramGrammar.ParseTest(old(Rest()), iv), r)
    {
      var mine := ExpectThis(iv);
      if !mine { return None; }
      var rel := RelOf(Ahead());
      if rel.None? { return None; }
      var t := Advance();
      var e := ParseConditional();
      if e.None? { return None; }
      var end := Expect(Semi);
      if !end { return None; }
      return Some(Test(rel.value, e.value));
    }

    method ParseStep(iv: string) returns (r: Option<Step>)
      requires Valid()
      modifies this
      ensures Valid() && pos >= old(pos) && Got(ProgramGrammar.ParseStep(old(Rest()), iv), r)
    {
      var mine := ExpectThis(iv);
      if !mine { return None; }
      var eq := Expect(AssignT);
      if !eq { return None; }
      var base := ExpectThis(iv);
      if !base { return None; }
      var isAdd := Ahead() == Sym(PlusT);
      if !isAdd && Ahead() != Sym(MinusT) { return None; }
      var t := Advance();
      var e := ParseConditional();
      if e.None? { return None; }
      var close := Expect(RParen);
      if !close { return None; }
      return Some(Step(isAdd, e.value));
    }

    method ParseHeader() returns (r: Option<Header>)
      requires Valid()
      modifies this
      ensures Valid() && pos >= old(pos) && Got(ProgramGrammar.ParseHeader(old(Rest())), r)
      ensures r.Some? ==> pos > old(pos)
    {
      var key := ExpectKey(KwFor);
      if !key { return None; }
      var open := Expect(LParen);
      if !open { return None; }
      var t := ExpectType();
      if t.None? { return None; }
      var iv := ExpectName();
      if iv.None? { return None; }
      var eq := Expect(AssignT);
      if !eq { return None; }
      var e := ParseConditional();
      if e.None? { return None; }
      var end := Expect(Semi);
      if !end { return None; }
      var test := ParseTest(iv.value);
      if test.None? { return None; }
      var step := ParseStep(iv.value);
      if step.None? { return None; }
      return Some(Header(t.value, iv.value, e.value, test.value, step.value));
    }

    method ParseStmt() returns (r: Option<Stmt>)
      requires Valid()
      modifies this
      ensures Valid() && pos >= old(pos) && Got(ProgramGrammar.ParseStmt(old(Rest())), r)
      ensures r.Some? ==> pos > old(pos)
      decreases |toks| - pos, 2
    {
      hide ProgramGrammar.ParseDeclaration, ProgramGrammar.ParseIf, ProgramGrammar.ParseFor, ProgramGrammar.ParseReturn;
      hide ProgramGrammar.ParseWrite, ProgramGrammar.ParseBlock, ProgramGrammar.ParseAssign, ProgramGrammar.ParsePragma;
      match Ahead()
      case TypeName(_) =>
        r := ParseDeclaration();
      case Key(KwIf) =>
        r := ParseIf();
      case Key(KwFor) =>
        r := ParseFor(NoPragma);
      case PragmaLine(line) =>
        var p := ProgramGrammar.ParsePragma(line);
        if p.None? { return None; }
        var t := Advance();
        r := ParseFor(p.value);
      case Key(KwReturn) =>
        r := ParseReturn();
      case Key(KwWrite) =>
        r := ParseWrite();
      case Sym(LBrace) =>
        var b := ParseBlock();
        r := if b.Some? then Some(Block(b.value)) else None;
      case Identifier(_) =>
        r := ParseAssign();
      case _ =>
        return None;
    }

    method ParseIf() returns (r: Option<Stmt>)
      requires Valid()
      modifies this
      ensures Valid() && pos >= old(pos) && Got(ProgramGrammar.ParseIf(old(Rest())), r)
      decreases |toks| - pos, 1
    {
      var key := ExpectKey(KwIf);
      if !key { return None; }
      var c := ParseParen();
      if c.None? { return None; }
      var t := ParseBlock();
      if t.None? { return None; }
      var hasElse := Accept(Key(KwElse));
      if !hasElse { return Some(If(c.value, t.value, NoElse)); }
      if Ahead() == Key(KwIf) {
        var e := ParseIf();
        return if e.Some? then Some(If(c.value, t.value, ElseDo(e.value))) else None;
      }
      var b := ParseBlock();
      return if b.Some? then Some(If(c.value, t.value, ElseDo(Block(b.value)))) else None;
    }

    method ParseFor(p: Pragma) returns (r: Option<Stmt>)
      requires Valid()
      modifies this
      ensures Valid() && pos >= old(pos) && Got(ProgramGrammar.ParseFor(old(Rest()), p), r)
      decreases |toks| - pos, 1
    {
      var h := ParseHeader();
      if h.None? { return None; }
      var b := ParseBlock();
      if b.None? { return None; }
      return Some(For(p, h.value.ivType, h.value.iv, h.value.start, h.value.test.rel, h.value.test.limit,
                      h.value.step.isAdd, h.value.step.step, b.value));
    }

    // Statements up to the block's own closing brace.
    method ParseBlock() returns (r: Option<seq<Stmt>>)
      requires Valid()
      modifies this
      ensures Valid() && pos >= old(pos) && Got(ProgramGrammar.ParseBlock(old(Rest())), r)
      decreases |toks| - pos, 0
    {
      ghost var from := pos;
      var open := Expect(LBrace);
      if !open { return None; }
      var stmts: seq<Stmt> := [];
      ghost var start := Rest();
      OntoNone(ProgramGrammar.ParseStmts(start));
      while Ahead() != Sym(RBrace) && Ahead() != Eof
        invariant Valid() && pos > from
        invariant ProgramGrammar.ParseStmts(start) == Onto(stmts, ProgramGrammar.ParseStmts(Rest()))
        decreases |toks| - pos
      {
        var s := ParseStmt();
        if s.None? { return None; }
        OntoOne(stmts, s.value, ProgramGrammar.ParseStmts(Rest()));
        stmts := stmts + [s.value];
      }
      assert stmts + [] == stmts;
      var close := Expect(RBrace);
      if !close { return None; }
      return Some(stmts);
    }

    // -------------------------------------------------------------------- programs

    method ParseParam() returns (r: Option<Param>)
      requires Valid()
      modifies this
      ensures Valid() && pos >= old(pos) && Got(ProgramGrammar.ParseParam(old(Rest())), r)
    {
      if Ahead() == Key(KwIn) || Ahead() == Key(KwOut) {
        var way := Advance();
        var key := ExpectKey(KwStream);
        if !key { return None; }
        var open := Expect(LtT);
        if !open { return None; }
        var t := ExpectType();
        if t.None? { return None; }
        var close := Expect(GtT);
        if !close { return None; }
        var name := ExpectName();
        if name.None? { return None; }
        return Some(if way == Key(KwIn) then StreamIn(t.value, name.value) else StreamOut(t.value, name.value));
      }
      var t := ExpectType();
      if t.None? { return None; }
      var name := ExpectName();
      if name.None? { return None; }
      if Ahead() != Sym(LBracket) { return Some(Scalar(t.value, name.value)); }
      var size := ParseBracket();
      if size.None? { return None; }
      return Some(Array(t.value, name.value, size.value));
    }

    method ParseParams() returns (r: Option<seq<Param>>)
      requires Valid()
      modifies this
      ensures Valid() && pos >= old(pos) && Got(ProgramGrammar.ParseParams(old(Rest())), r)
    {
      var ps: seq<Param> := [];
      var more := true;
      ghost var start := Rest();
      OntoNone(ProgramGrammar.ParseParams(start));
      while more
        invariant Valid() && pos >= old(pos)
        invariant ProgramGrammar.ParseParams(start) ==
                  if more then Onto(ps, ProgramGrammar.ParseParams(Rest())) else Some(ProgramGrammar.Found(ps, Rest()))
        decreases |toks| - pos, more
      {
        var p := ParseParam();
        if p.None? { return None; }
        more := Accept(Sym(Comma));
        OntoOne(ps, p.value, ProgramGrammar.ParseParams(Rest()));
        ps := ps + [p.value];
      }
      return Some(ps);
    }

    method ParseConst() returns (r: Option<ConstDecl>)
      requires Valid()
      modifies this
      ensures Valid() && pos >= old(pos) && Got(ProgramGrammar.ParseConst(old(Rest())), r)
    {
      var key := ExpectKey(KwConst);
      if !key { return None; }
      var t := ExpectType();
      if t.None? { return None; }
      var name := ExpectName();
      if name.None? { return None; }
      if Ahead() == Sym(LBracket) {
        var size := ParseBracket();
        if size.None? { return None; }
        var eq := Expect(AssignT);
        if !eq { return None; }
        var es := ParseElems();
        if es.None? { return None; }
        var end := Expect(Semi);
        if !end { return None; }
        return Some(ArrayConst(t.value, name.value, size.value, es.value));
      }
      var eq := Expect(AssignT);
      if !eq { return None; }
      var e := ParseConditional();
      if e.None? { return None; }
      var end := Expect(Semi);
      if !end { return None; }
      return Some(ScalarConst(t.value, name.value, e.value));
    }

    method ParseFunction() returns (r: Option<Function>)
      requires Valid()
      modifies this
      ensures Valid() && pos >= old(pos) && Got(ProgramGrammar.ParseFunction(old(Rest())), r)
    {
      var t := ExpectType();
      if t.None? { return None; }
      var name := ExpectName();
      if name.None? { return None; }
      var open := Expect(LParen);
      if !open { return None; }
      var params: seq<Param> := [];
      if Ahead() != Sym(RParen) {
        var ps := ParseParams();
        if ps.None? { return None; }
        params := ps.value;
      }
      var close := Expect(RParen);
      if !close { return None; }
      var b := ParseBlock();
      if b.None? { return None; }
      return Some(Function(t.value, name.value, params, b.value));
    }

    // Constants, and exactly one function among them.
    method ParseProgram() returns (r: Option<Program>)
      requires Valid()
      modifies this
      ensures r == ProgramGrammar.ParseProgram(old(Rest()))
    {
      var consts: seq<ConstDecl> := [];
      var fn: Option<Function> := None;
      while Ahead() != Eof
        invariant Valid()
        invariant ProgramGrammar.ParseProgram(old(Rest())) == ParseItems(Rest(), consts, fn)
        decreases |toks| - pos
      {
        if Ahead() == Key(KwConst) {
          var c := ParseConst();
          if c.None? { return None; }
          consts := consts + [c.value];
        } else if Ahead().TypeName? {
          if fn.Some? { return None; }
          fn := ParseFunction();
          if fn.None? { return None; }
        } else {
          return None;
        }
      }
      return if fn.Some? then Some(Program(consts, fn.value)) else None;
    }
  }

  // What was parsed already, in front of what is still to come.
  function Onto<A>(done: seq<A>, rest: Option<Found<seq<A>>>): Option<Found<seq<A>>> {
    var r :- rest;
    Some(Found(done + r.it, r.rest))
  }

  lemma OntoNone<A>(rest: Option<Found<seq<A>>>)
    ensures Onto([], rest) == rest
  {
    if rest.Some? {
      assert [] + rest.value.it == rest.value.it;
    }
  }

  lemma OntoOne<A>(done: seq<A>, x: A, rest: Option<Found<seq<A>>>)
    ensures Onto(done + [x], rest) == Onto(done, Onto([x], rest))
  {
    if rest.Some? {
      assert done + [x] + rest.value.it == done + ([x] + rest.value.it);
    }
  }
}
