/**
 Which programs the emitter takes (src/mlirgen/mlirgen.cpp): a condition read off the
 statements, exact in both directions.  Nothing but the symbols in sight, the counts of
 the loops, the widths at `&&` and `||` and the place of each `return` matters.
 */
module Emittable {
  import opened FixedWidth
  import opened Ast
  import opened Meaning
  import opened Wrappers
  import opened Ir
  import opened Emit
  import opened Returns
  import opened Scoping
  import ExecFacts
  import StmtExact

  // ---------------------------------------------------------------- the condition

  // `&&` and `||` only between single bits (LANGUAGE.md:526).
  predicate OneBitLogic(e: Expr) {
    match e
    case IntLit(_, _) => true
    case NameRef(_, _) => true
    case Cast(_, x, _) => OneBitLogic(x)
    case Unary(_, x, _) => OneBitLogic(x)
    case Binary(op, l, r, _) =>
      OneBitLogic(l) && OneBitLogic(r) && (op == AmpAmp || op == PipePipe ==> l.ty.width == 1 && r.ty.width == 1)
    case Ternary(c, x, y, _) => OneBitLogic(c) && OneBitLogic(x) && OneBitLogic(y)
  }

  // Every name has a value: a variable of `bound`, or a constant.
  predicate Usable(e: Expr, bound: set<Symbol>, consts: set<Symbol>) {
    OneBitLogic(e) && Reads(e) <= bound + consts
  }

  // What is assigned inside an arm or a loop had a value before it, and neither holds
  // a `return` that would be reached.
  predicate Takes(s: Stmt, bound: set<Symbol>, consts: set<Symbol>)
    decreases s, 0
  {
    match s
    case VarDecl(_, e) => Usable(e, bound, consts)
    case Assign(_, e) => Usable(e, bound, consts)
    case Return(e) => Usable(e, bound, consts)
    case If(c, t, e) =>
      && Usable(c, bound, consts)
      && BlockAssigned(t) <= bound && ElseAssigned(e) <= bound
      && TakesBlock(t, bound, consts) && !BlockStops(t)
      && TakesElse(e, bound, consts)
    case For(iv, init, _, _, _, step, trip, known, body) =>
      && known && trip < 0x8000_0000_0000_0000
      && (trip > 0 ==>
            && Usable(init, bound, consts) && Usable(step, bound, consts)
            && BlockAssigned(body) - {iv} <= bound
            && TakesBlock(body, bound + {iv}, consts) && !BlockStops(body))
    case Block(b) => TakesBlock(b, bound, consts)
  }

  predicate TakesElse(e: Else, bound: set<Symbol>, consts: set<Symbol>)
    decreases e, 1
  {
    match e
    case NoElse => true
    case ElseDo(s) => Takes(s, bound, consts) && !Stops(s)
  }

  // Nothing after a `return` matters.
  predicate TakesBlock(b: seq<Stmt>, bound: set<Symbol>, consts: set<Symbol>)
    decreases b, 0
  {
    b == [] || (Takes(b[0], bound, consts) && (Stops(b[0]) || TakesBlock(b[1..], After(b[0], bound), consts)))
  }

  // ------------------------------------------------------------------- expressions

  lemma {:induction false} ExprIff(e: Expr, vals: Bindings, consts: Constants, b: Builder)
    ensures EmitExpr(e, vals, consts, b).Some? <==> Usable(e, vals.Keys, consts.Keys)
  {
    hide EmitBinary, EmitUnary, Coerce, IntConst, Select;
    match e
    case IntLit(_, _) =>
    case NameRef(_, _) =>
    case Cast(_, x, _) => ExprIff(x, vals, consts, b);
    case Unary(_, x, _) => ExprIff(x, vals, consts, b);
    case Binary(op, l, r, t) =>
      ExprIff(l, vals, consts, b);
      var x := EmitExpr(l, vals, consts, b);
      if x.Some? {
        ExprIff(r, vals, consts, x.value.b);
        var y := EmitExpr(r, vals, consts, x.value.b);
        if y.Some? {
          BinaryIff(op, l.ty, r.ty, t, x.value.v, y.value.v, y.value.b);
        }
      }
    case Ternary(c, x, y, _) =>
      ExprIff(c, vals, consts, b);
      var cv := EmitExpr(c, vals, consts, b);
      if cv.Some? {
        ExprIff(x, vals, consts, cv.value.b);
        var xv := EmitExpr(x, vals, consts, cv.value.b);
        if xv.Some? {
          ExprIff(y, vals, consts, xv.value.b);
        }
      }
  }

  lemma BinaryIff(op: BinOp, lt: Type, rt: Type, res: Type, l: Value, r: Value, b: Builder)
    ensures EmitBinary(op, lt, rt, res, l, r, b).Some? <==> (op == AmpAmp || op == PipePipe ==> lt.width == 1 && rt.width == 1)
  {
  }

  // -------------------------------------------------------------------- statements

  // What the emitter has bound after a statement that does not end the block.
  predicate Follows(g: Gen, r: Option<Gen>, takes: bool, stops: bool, after: set<Symbol>) {
    && (r.Some? <==> takes)
    && (r.Some? ==> (r.value.returned <==> stops) && (!stops ==> r.value.vals.Keys == after))
  }

  lemma {:induction false} StmtIff(s: Stmt, cx: Context, g: Gen)
    requires !g.returned
    ensures Follows(g, EmitStmt(s, cx, g), Takes(s, g.vals.Keys, cx.consts.Keys), Stops(s), After(s, g.vals.Keys))
    decreases s, 1
  {
    hide EmitExpr, EmitBlock, EmitIf, EmitFor, Usable, Coerce, TakesBlock, AfterBlock, BlockStops;
    match s
    case VarDecl(_, e) => ExprIff(e, g.vals, cx.consts, g.b);
    case Assign(_, e) => ExprIff(e, g.vals, cx.consts, g.b);
    case Return(e) => ExprIff(e, g.vals, cx.consts, g.b);
    case If(c, t, e) => IfIff(s, cx, g);
    case For(_, _, _, _, _, _, trip, known, _) =>
      if known && 0 < trip <= MAX_TRIP {
        ForIff(s, cx, g);
      }
    case Block(b) => BlockIff(b, cx, g);
  }

  lemma {:induction false} BlockIff(b: seq<Stmt>, cx: Context, g: Gen)
    requires !g.returned
    ensures Follows(g, EmitBlock(b, cx, g), TakesBlock(b, g.vals.Keys, cx.consts.Keys), BlockStops(b), AfterBlock(b, g.vals.Keys))
    decreases b, 0
  {
    hide EmitStmt, Takes, Stops, After;
    if b != [] {
      StmtIff(b[0], cx, g);
      var g1 := EmitStmt(b[0], cx, g);
      if g1.Some? && !g1.value.returned {
        BlockIff(b[1..], cx, g1.value);
      }
    }
  }

  lemma {:induction false} ElseIff(e: Else, cx: Context, g: Gen)
    requires !g.returned
    ensures EmitElse(e, cx, g).Some? && !EmitElse(e, cx, g).value.returned <==> TakesElse(e, g.vals.Keys, cx.consts.Keys)
    ensures EmitElse(e, cx, g).Some? && !EmitElse(e, cx, g).value.returned ==> g.vals.Keys <= EmitElse(e, cx, g).value.vals.Keys
    decreases e, 2
  {
    hide EmitStmt, Takes, Stops, After;
    if e.ElseDo? {
      StmtIff(e.stmt, cx, g);
      AfterGrows(e.stmt, g.vals.Keys);
    }
  }

  // A region yields exactly when it is emitted to its end: what it carries is still bound.
  lemma YieldsIff(g: Option<Gen>, carried: seq<Symbol>, bound: set<Symbol>)
    requires g.Some? && !g.value.returned ==> bound <= g.value.vals.Keys
    requires forall x | x in carried :: x in bound
    ensures Yielded(g, carried).Some? <==> g.Some? && !g.value.returned
  {
  }

  lemma {:induction false} IfIff(s: Stmt, cx: Context, g: Gen)
    requires s.If? && !g.returned
    ensures Follows(g, EmitIf(s.cond, s.thenB, s.elseS, cx, g), Takes(s, g.vals.Keys, cx.consts.Keys), false, g.vals.Keys)
    decreases s, 0
  {
    hide EmitExpr, EmitBlock, EmitElse, Usable, TakesBlock, TakesElse, BlockStops, Rebind, CollectBlock, CollectElse, Yielded, Lookup;
    var bound := g.vals.Keys;
    ExprIff(s.cond, g.vals, cx.consts, g.b);
    var cv := EmitExpr(s.cond, g.vals, cx.consts, g.b);
    var carried := CollectElse(s.elseS, CollectBlock(s.thenB, []));
    CarriedIs(s.thenB, s.elseS);
    var prior := Lookup(g.vals, carried);
    if cv.Some? && prior.Some? {
      var gt := Gen(g.vals, Builder([], cv.value.b.next), false);
      BlockIff(s.thenB, cx, gt);
      AfterBlockGrows(s.thenB, bound);
      YieldsIff(EmitBlock(s.thenB, cx, gt), carried, bound);
      var tr := Yielded(EmitBlock(s.thenB, cx, gt), carried);
      if tr.Some? {
        var ge := Gen(g.vals, Builder([], tr.value.next), false);
        ElseIff(s.elseS, cx, ge);
        YieldsIff(EmitElse(s.elseS, cx, ge), carried, bound);
        var er := Yielded(EmitElse(s.elseS, cx, ge), carried);
        if er.Some? {
          BoundAgain(g.vals, carried, FreshLike(prior.value, er.value.next));
        }
      }
    }
  }

  lemma CarriedIs(t: seq<Stmt>, e: Else)
    ensures forall x :: x in CollectElse(e, CollectBlock(t, [])) <==> x in BlockAssigned(t) || x in ElseAssigned(e)
  {
    ExecFacts.CollectBlockIsAssigned(t, []);
    ExecFacts.CollectElseIsAssigned(e, CollectBlock(t, []));
  }

  // Rebinding what is bound binds nothing new.
  lemma BoundAgain(vals: Bindings, carried: seq<Symbol>, vs: seq<Value>)
    requires |carried| == |vs| && forall x | x in carried :: x in vals
    ensures Rebind(vals, carried, vs).Keys == vals.Keys
  {
    RebindKeys(vals, carried, vs);
  }

  lemma HeadIff(s: Stmt, cx: Context, g: Gen)
    requires s.For?
    ensures EmitHead(s.iv, s.init, s.step, s.trip, cx, g).Some? <==>
            Usable(s.init, g.vals.Keys, cx.consts.Keys) && Usable(s.step, g.vals.Keys, cx.consts.Keys)
  {
    hide EmitExpr, Usable, Coerce, IndexConst;
    ExprIff(s.init, g.vals, cx.consts, g.b);
    var iv0 := EmitExpr(s.init, g.vals, cx.consts, g.b);
    if iv0.Some? {
      ExprIff(s.step, g.vals, cx.consts, Coerce(iv0.value.b, iv0.value.v, s.init.ty.signed, s.iv.ty.width).b);
    }
  }

  lemma {:induction false} ForIff(s: Stmt, cx: Context, g: Gen)
    requires s.For? && s.tripKnown && 0 < s.trip <= MAX_TRIP && !g.returned
    ensures Follows(g, EmitFor(s.iv, s.init, s.stepIsAdd, s.step, s.trip, s.body, cx, g),
                    Takes(s, g.vals.Keys, cx.consts.Keys), false, g.vals.Keys)
    decreases s, 0
  {
    hide EmitExpr, EmitHead, EmitBlock, Usable, TakesBlock, BlockStops, Rebind, CollectBlock, RemoveSymbol, Yielded, Lookup, BodyStart;
    var bound := g.vals.Keys;
    var carried := RemoveSymbol(CollectBlock(s.body, []), s.iv);
    LoopCarries(s.body, s.iv);
    var inits := Lookup(g.vals, carried);
    HeadIff(s, cx, g);
    var h := EmitHead(s.iv, s.init, s.step, s.trip, cx, g);
    if inits.Some? && h.Some? {
      var g0 := BodyStart(h.value, s.iv, s.stepIsAdd, carried, inits.value, g.vals);
      StartBinds(h.value, s, carried, inits.value, g.vals);
      BlockIff(s.body, cx, g0);
      AfterBlockGrows(s.body, bound + {s.iv});
      YieldsIff(EmitBlock(s.body, cx, g0), carried, bound);
      var region := Yielded(EmitBlock(s.body, cx, g0), carried);
      if region.Some? {
        BoundAgain(g.vals, carried, FreshLike(inits.value, region.value.next));
      }
    }
  }

  lemma LoopCarries(body: seq<Stmt>, iv: Symbol)
    ensures forall x :: x in RemoveSymbol(CollectBlock(body, []), iv) <==> x in BlockAssigned(body) - {iv}
  {
    ExecFacts.CollectBlockIsAssigned(body, []);
    StmtExact.RemoveSymbolIs(CollectBlock(body, []), iv);
  }

  // A body starts with what was bound before the loop, and the induction symbol.
  lemma StartBinds(h: LoopHead, s: Stmt, carried: seq<Symbol>, inits: seq<Value>, vals: Bindings)
    requires s.For? && |carried| == |inits| && forall x | x in carried :: x in vals
    ensures var g0 := BodyStart(h, s.iv, s.stepIsAdd, carried, inits, vals);
            !g0.returned && g0.vals.Keys == vals.Keys + {s.iv}
  {
    hide Rebind, EmitIv;
    var inner := EmitIv(Builder([], h.b.next + 1 + |inits|), Counter(h), s.iv.ty.width, h.ivInit, h.ivStep, s.stepIsAdd);
    BoundAgain(vals[s.iv := inner.v], carried, RegionArgs(h, inits));
  }

  // -------------------------------------------------------------------- functions

  function ConstSymbols(p: Program): set<Symbol> {
    set c | c in p.consts :: c.sym
  }

  // A function is emitted exactly when its body is taken, with the parameters bound and
  // the constants known, and ends in a `return`.
  predicate Emittable(p: Program) {
    TakesBlock(p.body, (set x | x in p.params), ConstSymbols(p)) && BlockStops(p.body)
  }

  lemma {:induction false} TableSymbols(consts: seq<Const>)
    ensures ConstantTable(consts).Keys == set c | c in consts :: c.sym
    decreases |consts|
  {
    if consts != [] {
      var n := |consts| - 1;
      TableSymbols(consts[..n]);
      assert consts == consts[..n] + [consts[n]];
    }
  }

  lemma EmitIff(p: Program)
    ensures EmitFunction(p).Some? <==> Emittable(p)
  {
    hide EmitBlock, TakesBlock, BlockStops, Rebind, AfterBlock, ConstantTable;
    var args := Arguments(p.params);
    var g := Gen(Rebind(map[], p.params, args), Builder([], |args|), false);
    RebindKeys(map[], p.params, args);
    TableSymbols(p.consts);
    assert g.vals.Keys == set x | x in p.params;
    BlockIff(p.body, Context(ConstantTable(p.consts), p.returnType), g);
  }

  // A local assigned in the arm that declares it had no value before: the program is
  // refused, though it reads nothing unset.
  lemma LocalAssigned(x: Symbol, y: Symbol)
    requires x != y
    ensures var p := Program([], [x], U1, ArmAssigns(x, y)); ScopedBlock(p.body, {x}) && EmitFunction(p).None?
  {
    var e := NameRef(x, U1);
    var arm := [VarDecl(y, e), Assign(y, e)];
    var body := ArmAssigns(x, y);
    EmitIff(Program([], [x], U1, body));
    assert arm[1..] == [Assign(y, e)] && arm[1..][1..] == [];
    assert body[1..] == [Return(e)] && body[1..][1..] == [];
    assert y in Assigned(arm[1..][0]) && y in BlockAssigned(arm[1..]) && y in BlockAssigned(arm);
    assert (set z | z in [x]) == {x};
    assert Scoped(arm[1..][0], {x, y}) && After(arm[0], {x}) == {x, y} && ScopedBlock(arm[1..], {x, y});
    assert Scoped(arm[0], {x}) && ScopedBlock(arm, {x});
    var first := body[0];
    assert first.If? && first.thenB == arm && After(first, {x}) == {x} && Scoped(first, {x});
    assert Scoped(body[1..][0], {x}) && ScopedBlock(body[1..], {x});
    assert !Takes(first, {x}, ConstSymbols(Program([], [x], U1, body)));
  }

  function ArmAssigns(x: Symbol, y: Symbol): seq<Stmt> {
    [If(NameRef(x, U1), [VarDecl(y, NameRef(x, U1)), Assign(y, NameRef(x, U1))], NoElse), Return(NameRef(x, U1))]
  }
}
