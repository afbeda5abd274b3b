/**
 Which programs resolve: the rules of names (LANGUAGE.md:263-276, 340-344, 371-374), read
 off the text by scopes nested as blocks are.  The resolver refuses exactly what breaks
 them.
 */
module Naming {
  import Ast
  import FixedWidth
  import opened Syntax
  import opened Wrappers
  import opened Resolve

  // The names each enclosing scope has declared, innermost first, and whether they may
  // be assigned.
  datatype Names = NoNames | Names(own: map<string, bool>, outer: Names)

  // The innermost declaration of a name.
  function Sees(name: string, ns: Names): Option<bool> {
    match ns
    case NoNames => None
    case Names(own, outer) => if name in own then Some(own[name]) else Sees(name, outer)
  }

  function Adds(name: string, assignable: bool, ns: Names): Names
    requires ns.Names?
  {
    ns.(own := ns.own[name := assignable])
  }

  // Every name is declared; arrays are not part of this model.
  predicate NamedExpr(e: Expr, ns: Names) {
    match e
    case IntLit(_) => true
    case NameRef(name) => Sees(name, ns).Some?
    case Index(_, _) => false
    case Cast(_, x) => NamedExpr(x, ns)
    case Unary(_, x) => NamedExpr(x, ns)
    case Binary(_, l, r) => NamedExpr(l, ns) && NamedExpr(r, ns)
    case Ternary(c, x, y) => NamedExpr(c, ns) && NamedExpr(x, ns) && NamedExpr(y, ns)
  }

  // No name is declared twice in one scope; only locals and parameters are assigned; a
  // block, an arm and a loop have scopes of their own, a loop's holding its variable.
  predicate NamedStmt(s: Stmt, ns: Names)
    requires ns.Names?
    decreases s, 0
  {
    match s
    case VarDecl(_, name, Value(init)) => NamedExpr(init, ns) && name !in ns.own
    case Assign(name, None, Value(value)) => Sees(name, ns) == Some(true) && NamedExpr(value, ns)
    case If(c, t, e) => NamedExpr(c, ns) && NamedBlock(t, Names(map[], ns)) && NamedElse(e, ns)
    case For(_, _, iv, start, _, limit, _, step, body) =>
      && NamedExpr(start, ns)
      && var inner := Names(map[iv := false], ns);
         NamedExpr(limit, inner) && NamedExpr(step, inner) && NamedBlock(body, inner)
    case Return(e) => NamedExpr(e, ns)
    case Block(b) => NamedBlock(b, Names(map[], ns))
    case _ => false
  }

  predicate NamedElse(e: Else, ns: Names)
    requires ns.Names?
    decreases e, 1
  {
    match e
    case NoElse => true
    case ElseDo(s) => NamedStmt(s, ns)
  }

  predicate NamedBlock(b: seq<Stmt>, ns: Names)
    requires ns.Names?
    decreases b, 0
  {
    b == [] || (NamedStmt(b[0], ns) && NamedBlock(b[1..], Declares(b[0], ns)))
  }

  // The names in sight after a statement.
  function Declares(s: Stmt, ns: Names): (r: Names)
    requires ns.Names?
    ensures r.Names? && r.outer == ns.outer
    decreases s, 0
  {
    match s
    case VarDecl(_, name, _) => Adds(name, true, ns)
    case If(_, _, ElseDo(e)) => Declares(e, ns)
    case _ => ns
  }

  // -------------------------------------------------------------------- the resolver

  ghost predicate Mirrors(ns: Names, sc: Scope) {
    && ns.Names? && sc.here == ns.own.Keys
    && forall name: string ::
         Sees(name, ns) == if name in sc.visible then Some(Writable(sc.visible[name].kind)) else None
  }

  lemma {:induction false} ExprIff(e: Expr, ns: Names, sc: Scope)
    requires Mirrors(ns, sc)
    ensures ResolveExpr(e, sc.visible).Some? <==> NamedExpr(e, ns)
  {
    match e
    case Cast(_, x) => ExprIff(x, ns, sc);
    case Unary(_, x) => ExprIff(x, ns, sc);
    case Binary(_, l, r) => ExprIff(l, ns, sc); ExprIff(r, ns, sc);
    case Ternary(c, x, y) => ExprIff(c, ns, sc); ExprIff(x, ns, sc); ExprIff(y, ns, sc);
    case _ =>
  }

  lemma InnerMirrors(ns: Names, sc: Scope)
    requires Mirrors(ns, sc)
    ensures Mirrors(Names(map[], ns), Inner(sc))
  {
    forall name: string
      ensures Sees(name, Names(map[], ns)) == if name in sc.visible then Some(Writable(sc.visible[name].kind)) else None
    {
      assert Sees(name, Names(map[], ns)) == Sees(name, ns);
    }
  }

  lemma DeclareMirrors(kind: Kind, name: string, t: Type, ns: Names, sc: Scope)
    requires Mirrors(ns, sc)
    ensures Declare(kind, name, t, sc).Some? <==> name !in ns.own
    ensures Declare(kind, name, t, sc).Some? ==> Mirrors(Adds(name, Writable(kind), ns), Declare(kind, name, t, sc).value.scope)
  {
    var d := Declare(kind, name, t, sc);
    if d.Some? {
      var visible := d.value.scope.visible;
      forall x: string
        ensures Sees(x, Adds(name, Writable(kind), ns)) == if x in visible then Some(Writable(visible[x].kind)) else None
      {
        if x != name {
          assert Sees(x, ns) == Sees(x, Adds(name, Writable(kind), ns));
        }
      }
    }
  }

  lemma NextMirrors(ns: Names, sc: Scope, next: nat)
    requires Mirrors(ns, sc)
    ensures Mirrors(ns, sc.(next := next))
  {
  }

  // A statement resolves exactly when it keeps the rules of names.
  lemma {:induction false} StmtIff(s: Stmt, ns: Names, sc: Scope)
    requires Mirrors(ns, sc)
    ensures ResolveStmt(s, sc).Some? <==> NamedStmt(s, ns)
    ensures ResolveStmt(s, sc).Some? ==> Mirrors(Declares(s, ns), ResolveStmt(s, sc).value.scope)
    decreases s, 0
  {
    hide ResolveExpr, NamedExpr, Declare, Mirrors, ResolveBlock, NamedBlock, Sees;
    match s
    case VarDecl(t, name, Value(e)) =>
      ExprIff(e, ns, sc);
      DeclareMirrors(Local, name, t, ns, sc);
      MirrorsNames(ns, sc);
    case Assign(name, None, Value(e)) =>
      ExprIff(e, ns, sc);
      TargetIff(name, ns, sc);
    case If(c, t, e) =>
      ExprIff(c, ns, sc);
      MirrorsNames(ns, sc);
      InnerMirrors(ns, sc);
      BlockIff(t, Names(map[], ns), Inner(sc));
      if ResolveBlock(t, Inner(sc)).Some? {
        var next := ResolveBlock(t, Inner(sc)).value.scope.next;
        NextMirrors(ns, sc, next);
        ElseIff(e, ns, sc.(next := next));
      }
    case For(_, _, _, _, _, _, _, _, _) => LoopIff(s, ns, sc);
    case Return(e) => ExprIff(e, ns, sc);
    case Block(b) =>
      InnerMirrors(ns, sc);
      BlockIff(b, Names(map[], ns), Inner(sc));
      if ResolveBlock(b, Inner(sc)).Some? {
        NextMirrors(ns, sc, ResolveBlock(b, Inner(sc)).value.scope.next);
      }
    case _ =>
  }

  lemma MirrorsNames(ns: Names, sc: Scope)
    requires Mirrors(ns, sc)
    ensures ns.Names?
  {
  }

  lemma TargetIff(name: string, ns: Names, sc: Scope)
    requires Mirrors(ns, sc)
    ensures ns.Names? && (Sees(name, ns) == Some(true) <==> name in sc.visible && Writable(sc.visible[name].kind))
  {
  }

  lemma {:induction false} LoopIff(s: Stmt, ns: Names, sc: Scope)
    requires s.For? && Mirrors(ns, sc)
    ensures ResolveStmt(s, sc).Some? <==> NamedStmt(s, ns)
    ensures ResolveStmt(s, sc).Some? ==> Mirrors(ns, ResolveStmt(s, sc).value.scope)
    decreases s.body, 1
  {
    hide ResolveExpr, NamedExpr, Declare, Mirrors, ResolveBlock, NamedBlock;
    ExprIff(s.start, ns, sc);
    InnerMirrors(ns, sc);
    MirrorsNames(ns, sc);
    DeclareMirrors(InductionVar, s.iv, s.ivType, Names(map[], ns), Inner(sc));
    var d := Declare(InductionVar, s.iv, s.ivType, Inner(sc)).value;
    var inner := Names(map[s.iv := false], ns);
    assert Adds(s.iv, Writable(InductionVar), Names(map[], ns)) == inner;
    ExprIff(s.limit, inner, d.scope);
    ExprIff(s.step, inner, d.scope);
    BlockIff(s.body, inner, d.scope);
    if ResolveBlock(s.body, d.scope).Some? {
      NextMirrors(ns, sc, ResolveBlock(s.body, d.scope).value.scope.next);
    }
  }

  lemma {:induction false} ElseIff(e: Else, ns: Names, sc: Scope)
    requires Mirrors(ns, sc)
    ensures ResolveElse(e, sc).Some? <==> NamedElse(e, ns)
    ensures ResolveElse(e, sc).Some? ==>
            Mirrors(if e.ElseDo? then Declares(e.stmt, ns) else ns, ResolveElse(e, sc).value.scope)
    decreases e, 1
  {
    if e.ElseDo? {
      StmtIff(e.stmt, ns, sc);
    }
  }

  lemma {:induction false} BlockIff(b: seq<Stmt>, ns: Names, sc: Scope)
    requires Mirrors(ns, sc)
    ensures ResolveBlock(b, sc).Some? <==> NamedBlock(b, ns)
    decreases b, 0
  {
    hide ResolveStmt, NamedStmt, Declares;
    if b != [] {
      StmtIff(b[0], ns, sc);
      if ResolveStmt(b[0], sc).Some? {
        BlockIff(b[1..], Declares(b[0], ns), ResolveStmt(b[0], sc).value.scope);
      }
    }
  }

  // -------------------------------------------------------------------- whole programs

  // Scalar constants, each name once.
  predicate NamedConsts(cs: seq<ConstDecl>, ns: Names)
    requires ns.Names?
  {
    cs == [] || (cs[0].ScalarConst? && cs[0].name !in ns.own && NamedConsts(cs[1..], Adds(cs[0].name, false, ns)))
  }

  function WithConsts(cs: seq<ConstDecl>, ns: Names): (r: Names)
    requires ns.Names?
    ensures r.Names?
  {
    if cs == [] then ns else WithConsts(cs[1..], Adds(cs[0].name, false, ns))
  }

  predicate NamedParams(ps: seq<Param>, ns: Names)
    requires ns.Names?
  {
    ps == [] || (ps[0].Scalar? && ps[0].name !in ns.own && NamedParams(ps[1..], Adds(ps[0].name, true, ns)))
  }

  function WithParams(ps: seq<Param>, ns: Names): (r: Names)
    requires ns.Names?
    ensures r.Names?
  {
    if ps == [] then ns else WithParams(ps[1..], Adds(ps[0].name, true, ns))
  }

  // An initialiser sees every constant; parameters and the body share a scope inside.
  predicate NamedProgram(p: Program) {
    && NamedConsts(p.consts, Names(map[], NoNames))
    && var globals := WithConsts(p.consts, Names(map[], NoNames));
       && (forall i | 0 <= i < |p.consts| :: p.consts[i].ScalarConst? && NamedExpr(p.consts[i].init, globals))
       && NamedParams(p.fn.params, Names(map[], globals))
       && NamedBlock(p.fn.body, WithParams(p.fn.params, Names(map[], globals)))
  }

  lemma {:induction false} ConstsIff(cs: seq<ConstDecl>, ns: Names, sc: Scope)
    requires Mirrors(ns, sc)
    ensures DeclareConsts(cs, sc).Some? <==> NamedConsts(cs, ns)
    ensures DeclareConsts(cs, sc).Some? ==> Mirrors(WithConsts(cs, ns), DeclareConsts(cs, sc).value.scope)
  {
    hide Mirrors, Declare;
    MirrorsNames(ns, sc);
    if cs != [] && cs[0].ScalarConst? {
      DeclareMirrors(GlobalConst, cs[0].name, cs[0].ty, ns, sc);
      var d := Declare(GlobalConst, cs[0].name, cs[0].ty, sc);
      if d.Some? {
        ConstsIff(cs[1..], Adds(cs[0].name, false, ns), d.value.scope);
      }
    }
  }

  lemma {:induction false} ParamsIff(ps: seq<Param>, ns: Names, sc: Scope)
    requires Mirrors(ns, sc)
    ensures DeclareParams(ps, sc).Some? <==> NamedParams(ps, ns)
    ensures DeclareParams(ps, sc).Some? ==> Mirrors(WithParams(ps, ns), DeclareParams(ps, sc).value.scope)
  {
    hide Mirrors, Declare;
    MirrorsNames(ns, sc);
    if ps != [] && ps[0].Scalar? {
      DeclareMirrors(ScalarParam, ps[0].name, ps[0].ty, ns, sc);
      var d := Declare(ScalarParam, ps[0].name, ps[0].ty, sc);
      if d.Some? {
        ParamsIff(ps[1..], Adds(ps[0].name, true, ns), d.value.scope);
      }
    }
  }

  lemma {:induction false} InitsIff(cs: seq<ConstDecl>, ns: Names, sc: Scope)
    requires Mirrors(ns, sc)
    ensures ResolveInits(cs, sc).Some? <==> forall i | 0 <= i < |cs| :: cs[i].ScalarConst? && NamedExpr(cs[i].init, ns)
  {
    hide Mirrors, ResolveExpr, NamedExpr;
    if cs != [] && cs[0].ScalarConst? {
      ExprIff(cs[0].init, ns, sc);
      InitsIff(cs[1..], ns, sc);
      assert cs == [cs[0]] + cs[1..];
    }
  }

  // A program resolves exactly when it keeps the rules of names.
  lemma ProgramIff(p: Program)
    ensures ResolveProgram(p).Some? <==> NamedProgram(p)
  {
    hide Mirrors, ResolveBlock, NamedBlock, DeclareConsts, DeclareParams, ResolveInits, NamedConsts, NamedParams, NamedExpr, WithConsts, WithParams;
    var start, ns := Scope(map[], {}, 1), Names(map[], NoNames);
    assert Mirrors(ns, start) by {
      StartMirrors();
    }
    ConstsIff(p.consts, ns, start);
    var g := DeclareConsts(p.consts, start);
    if g.Some? {
      var globals := WithConsts(p.consts, ns);
      InitsIff(p.consts, globals, g.value.scope);
      InnerMirrors(globals, g.value.scope);
      ParamsIff(p.fn.params, Names(map[], globals), Inner(g.value.scope));
      var ps := DeclareParams(p.fn.params, Inner(g.value.scope));
      if ps.Some? {
        BlockIff(p.fn.body, WithParams(p.fn.params, Names(map[], globals)), ps.value.scope);
      }
    }
  }

  lemma StartMirrors()
    ensures Mirrors(Names(map[], NoNames), Scope(map[], {}, 1))
  {
  }

  // `for (u4 iv = 0; iv < 1; iv = iv + 1) { body }`
  function Counting(iv: string, body: seq<Stmt>): Stmt {
    For(NoPragma, Ast.Type(4, false), iv, IntLit(0), FixedWidth.Lt, IntLit(1), true, IntLit(1), body)
  }

  // LANGUAGE.md:272-274 lets nothing shadow a loop variable.  The resolver refuses a
  // declaration of its name in the body, and accepts one in a block inside the body.
  lemma ShadowedInside(iv: string, t: Type, ns: Names, sc: Scope)
    requires Mirrors(ns, sc)
    ensures var d := VarDecl(t, iv, Value(IntLit(0)));
            ResolveStmt(Counting(iv, [d]), sc).None? && ResolveStmt(Counting(iv, [Block([d])]), sc).Some?
  {
    hide Mirrors, ResolveStmt;
    var d := VarDecl(t, iv, Value(IntLit(0)));
    MirrorsNames(ns, sc);
    StmtIff(Counting(iv, [d]), ns, sc);
    StmtIff(Counting(iv, [Block([d])]), ns, sc);
    var inner := Names(map[iv := false], ns);
    assert !NamedStmt([d][0], inner) && !NamedBlock([d], inner);
    assert [d][1..] == [] && [Block([d])][1..] == [];
    assert NamedBlock([d], Names(map[], inner));
    assert NamedStmt([Block([d])][0], inner) && NamedBlock([Block([d])], inner);
  }
}
