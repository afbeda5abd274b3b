/**
 Variables are set before they are read.  The resolver sees to it for the names of a
 program, and the emitter refuses what reads an unbound symbol.
 */
module Scoping {
  import opened FixedWidth
  import opened Ast
  import opened Meaning
  import opened Wrappers
  import opened Ir
  import opened Emit
  import opened EmitExact
  import opened Returns

  // The symbols certain to have a value after a statement, when those of vars had one.
  function After(s: Stmt, vars: set<Symbol>): set<Symbol>
    decreases s, 0
  {
    match s
    case VarDecl(sym, _) => vars + {sym}
    case Assign(sym, _) => vars + {sym}
    case Block(b) => AfterBlock(b, vars)
    case _ => vars
  }

  function AfterBlock(b: seq<Stmt>, vars: set<Symbol>): set<Symbol>
    decreases b, 0
  {
    if b == [] then vars else AfterBlock(b[1..], After(b[0], vars))
  }

  // Every expression that can be reached reads symbols that have a value.
  predicate Scoped(s: Stmt, vars: set<Symbol>)
    decreases s, 0
  {
    match s
    case VarDecl(_, e) => Reads(e) <= vars
    case Assign(_, e) => Reads(e) <= vars
    case If(c, t, e) => Reads(c) <= vars && ScopedBlock(t, vars) && ScopedElse(e, vars)
    case For(iv, init, _, _, _, step, trip, _, body) =>
      trip > 0 ==> Reads(init) + Reads(step) <= vars && ScopedBlock(body, vars + {iv})
    case Return(e) => Reads(e) <= vars
    case Block(b) => ScopedBlock(b, vars)
  }

  predicate ScopedElse(e: Else, vars: set<Symbol>)
    decreases e, 1
  {
    match e
    case NoElse => true
    case ElseDo(s) => Scoped(s, vars)
  }

  predicate ScopedBlock(b: seq<Stmt>, vars: set<Symbol>)
    decreases b, 0
  {
    b == [] || (Scoped(b[0], vars) && ScopedBlock(b[1..], After(b[0], vars)))
  }

  lemma {:induction false} AfterGrows(s: Stmt, vars: set<Symbol>)
    ensures vars <= After(s, vars)
    decreases s, 0
  {
    if s.Block? {
      AfterBlockGrows(s.stmts, vars);
    }
  }

  lemma {:induction false} AfterBlockGrows(b: seq<Stmt>, vars: set<Symbol>)
    ensures vars <= AfterBlock(b, vars)
    decreases b, 0
  {
    if b != [] {
      AfterGrows(b[0], vars);
      AfterBlockGrows(b[1..], After(b[0], vars));
    }
  }

  // -------------------------------------------------------------- what is emitted

  // An emitted expression read bound symbols.
  lemma BoundReads(e: Expr, vals: Bindings, consts: Constants, b: Builder)
    requires EmitExpr(e, vals, consts, b).Some?
    ensures Reads(e) <= vals.Keys + consts.Keys
  {
    EmittedReads(e, vals, consts, b, map x | x in vals.Keys + consts.Keys :: 0);
  }

  lemma {:induction false} RebindKeys(vals: Bindings, syms: seq<Symbol>, vs: seq<Value>)
    requires |syms| == |vs|
    ensures Rebind(vals, syms, vs).Keys == vals.Keys + set x | x in syms
    decreases |syms|
  {
    if syms != [] {
      RebindKeys(vals[syms[0] := vs[0]], syms[1..], vs[1..]);
      assert syms == [syms[0]] + syms[1..];
    }
  }

  // The symbols the emitter has a value or a constant for.
  function Known(g: Gen, cx: Context): set<Symbol> {
    g.vals.Keys + cx.consts.Keys
  }

  // What is emitted is scoped, and the emitter binds nothing that is not set.
  lemma {:induction false} EmittedScoped(s: Stmt, cx: Context, g: Gen, vars: set<Symbol>)
    requires !g.returned && EmitStmt(s, cx, g).Some? && Known(g, cx) <= vars
    ensures Scoped(StmtUpTo(s), vars) && Known(EmitStmt(s, cx, g).value, cx) <= After(StmtUpTo(s), vars)
    decreases s, 1
  {
    hide EmitExpr, EmitBlock, EmitElse, EmitHead, Rebind, Lookup, CollectBlock, CollectElse, RemoveSymbol, Coerce;
    match s
    case VarDecl(_, e) => BoundReads(e, g.vals, cx.consts, g.b);
    case Assign(_, e) => BoundReads(e, g.vals, cx.consts, g.b);
    case Return(e) => BoundReads(e, g.vals, cx.consts, g.b);
    case If(c, t, e) => IfScoped(c, t, e, cx, g, vars);
    case For(_, _, _, _, _, _, trip, _, _) =>
      if trip > 0 {
        ForScoped(s, cx, g, vars);
      }
    case Block(b) => BlockScoped(b, cx, g, vars);
  }

  // A block that is emitted to its end is not cut.
  lemma {:induction false} UpToSame(b: seq<Stmt>)
    requires !BlockStops(b)
    ensures UpToReturn(b) == b
  {
    if b != [] {
      UpToSame(b[1..]);
    }
  }

  lemma {:induction false} NotStopped(s: Stmt)
    requires !Stops(s)
    ensures StmtUpTo(s) == s
  {
    if s.Block? {
      UpToSame(s.stmts);
    }
  }

  lemma {:induction false} BlockScoped(b: seq<Stmt>, cx: Context, g: Gen, vars: set<Symbol>)
    requires !g.returned && EmitBlock(b, cx, g).Some? && Known(g, cx) <= vars
    ensures ScopedBlock(UpToReturn(b), vars) && Known(EmitBlock(b, cx, g).value, cx) <= AfterBlock(UpToReturn(b), vars)
    decreases b, 0
  {
    hide EmitStmt, Scoped, After;
    if b != [] {
      var c := UpToReturn(b);
      var g1 := EmitStmt(b[0], cx, g).value;
      EmittedScoped(b[0], cx, g, vars);
      StopsReturns(b[0], cx, g);
      if Stops(b[0]) {
        assert c[0] == StmtUpTo(b[0]) && c[1..] == [];
      } else {
        NotStopped(b[0]);
        BlockScoped(b[1..], cx, g1, After(b[0], vars));
        assert c[0] == b[0] && c[1..] == UpToReturn(b[1..]);
      }
    }
  }

  lemma {:induction false} IfScoped(c: Expr, t: seq<Stmt>, e: Else, cx: Context, g: Gen, vars: set<Symbol>)
    requires !g.returned && EmitIf(c, t, e, cx, g).Some? && Known(g, cx) <= vars
    ensures Scoped(If(c, t, e), vars) && Known(EmitIf(c, t, e, cx, g).value, cx) <= vars
    decreases If(c, t, e), 0
  {
    hide EmitExpr, EmitBlock, EmitStmt, Rebind, CollectBlock, CollectElse;
    var cv := EmitExpr(c, g.vals, cx.consts, g.b).value;
    BoundReads(c, g.vals, cx.consts, g.b);
    var carried := CollectElse(e, CollectBlock(t, []));
    var prior := Lookup(g.vals, carried).value;
    var gt := Gen(g.vals, Builder([], cv.b.next), false);
    BlockScoped(t, cx, gt, vars);
    BlockStopsReturns(t, cx, gt);
    UpToSame(t);
    var tr := Yielded(EmitBlock(t, cx, gt), carried).value;
    var ge := Gen(g.vals, Builder([], tr.next), false);
    if e.ElseDo? {
      EmittedScoped(e.stmt, cx, ge, vars);
      StopsReturns(e.stmt, cx, ge);
      NotStopped(e.stmt);
    }
    var er := Yielded(EmitElse(e, cx, ge), carried).value;
    RebindKeys(g.vals, carried, FreshLike(prior, er.next));
  }

  lemma {:induction false} ForScoped(s: Stmt, cx: Context, g: Gen, vars: set<Symbol>)
    requires s.For? && s.trip > 0 && !g.returned && EmitStmt(s, cx, g).Some? && Known(g, cx) <= vars
    ensures Scoped(s, vars) && Known(EmitStmt(s, cx, g).value, cx) <= vars
    decreases s, 0
  {
    hide EmitExpr, EmitBlock, Rebind, CollectBlock, RemoveSymbol, EmitIv, Coerce;
    var carried := RemoveSymbol(CollectBlock(s.body, []), s.iv);
    var inits := Lookup(g.vals, carried).value;
    var h := EmitHead(s.iv, s.init, s.step, s.trip, cx, g).value;
    HeadReads(s, cx, g);
    var g0 := BodyStart(h, s.iv, s.stepIsAdd, carried, inits, g.vals);
    RebindKeys(g.vals[s.iv := EmitIv(Builder([], h.b.next + 1 + |inits|), Counter(h), s.iv.ty.width, h.ivInit, h.ivStep, s.stepIsAdd).v],
               carried, RegionArgs(h, inits));
    BlockScoped(s.body, cx, g0, vars + {s.iv});
    BlockStopsReturns(s.body, cx, g0);
    UpToSame(s.body);
    var region := Yielded(EmitBlock(s.body, cx, g0), carried).value;
    RebindKeys(g.vals, carried, FreshLike(inits, region.next));
  }

  lemma HeadReads(s: Stmt, cx: Context, g: Gen)
    requires s.For? && EmitHead(s.iv, s.init, s.step, s.trip, cx, g).Some?
    ensures Reads(s.init) + Reads(s.step) <= Known(g, cx)
  {
    hide EmitExpr;
    var iv0 := EmitExpr(s.init, g.vals, cx.consts, g.b).value;
    BoundReads(s.init, g.vals, cx.consts, g.b);
    BoundReads(s.step, g.vals, cx.consts, Coerce(iv0.b, iv0.v, s.init.ty.signed, s.iv.ty.width).b);
  }
}
