/**
 The emitted code on its own: it is well formed, and every operation of it is
 defined on every input, on arms not taken too.  Nothing here mentions the
 interpreter, and nothing depends on its limits.
 */
module EmitTotal {
  import opened Arith
  import opened FixedWidth
  import opened Ast
  import opened Meaning
  import opened Means
  import opened Ir
  import opened Wrappers
  import opened IrFacts
  import opened Emit
  import opened EmitExact
  import ExecFacts
  import opened StmtExact

  // Each bound symbol's value is defined, at the symbol's type.
  predicate Bound(vals: Bindings, consts: Constants, env: Env) {
    && (forall x | x in vals :: TypeOk(x.ty) && vals[x] in env && vals[x].ty == I(x.ty.width))
    && (forall x | x in consts :: TypeOk(x.ty))
  }

  // The code emitted so far runs, both arms of every `if` included, and leaves the
  // bindings defined.
  predicate Live(g: Gen, cx: Context, env0: Env, env: Env) {
    At(g.b, env0, env, true) && Bound(g.vals, cx.consts, env)
  }

  // A `return` ends the block, and its operand is defined, at the return type.
  predicate Ended(g: Gen, cx: Context, env0: Env, env: Env) {
    && g.b.block != [] && EnvOk(env0)
    && var last := g.b.block[|g.b.block| - 1];
       && last.ReturnOp? && last.v.ty == I(cx.returnType.width) && last.v in env
       && Run(g.b.block[..|g.b.block| - 1], env0, true) == Some(env)
  }

  predicate Goes(g: Gen, cx: Context, env0: Env, env: Env) {
    if g.returned then Ended(g, cx, env0, env) else Live(g, cx, env0, env)
  }

  // -------------------------------------------------------------------- programs

  // What the emitter is correct on.
  predicate RegularProgram(p: Program) {
    && (forall i | 0 <= i < |p.consts| :: TypeOk(p.consts[i].sym.ty))
    && ExecFacts.NoDuplicates(p.params) && (forall i | 0 <= i < |p.params| :: TypeOk(p.params[i].ty))
    && TypeOk(p.returnType) && RegularBlock(p.body)
  }

  // ------------------------------------------------------------------ expressions

  // Defined values hold some numbers.
  lemma NumbersExist(vals: Bindings, consts: Constants, env: Env) returns (rho: Numbers)
    requires Bound(vals, consts, env) && EnvOk(env)
    ensures Vars(vals, consts, env, rho) && rho.Keys == vals.Keys + consts.Keys
  {
    hide Pow2, NumOf, Wrap;
    rho := map x | x in vals.Keys + consts.Keys :: Held(vals, consts, env, x);
    forall x | x in rho ensures TypeOk(x.ty) && InRange(rho[x], x.ty.width, x.ty.signed) {
      HeldFits(vals, consts, env, x);
    }
    forall x | x in vals ensures Holding(env, vals[x], x.ty, rho[x]) {
      HeldFits(vals, consts, env, x);
    }
    forall x | x in consts && x !in vals ensures Wrap(x.ty.width, x.ty.signed, consts[x].raw) == rho[x] {
      HeldFits(vals, consts, env, x);
    }
  }

  function Held(vals: Bindings, consts: Constants, env: Env, x: Symbol): int
    requires Bound(vals, consts, env) && EnvOk(env) && (x in vals || x in consts)
  {
    if x in vals then
      assert Word(vals[x], env[vals[x]]);
      NumOf(x.ty.width, x.ty.signed, env[vals[x]])
    else Wrap(x.ty.width, x.ty.signed, consts[x].raw)
  }

  lemma HeldFits(vals: Bindings, consts: Constants, env: Env, x: Symbol)
    requires Bound(vals, consts, env) && EnvOk(env) && (x in vals || x in consts)
    ensures TypeOk(x.ty) && InRange(Held(vals, consts, env, x), x.ty.width, x.ty.signed)
    ensures x in vals ==> Holding(env, vals[x], x.ty, Held(vals, consts, env, x))
    ensures x !in vals ==> Wrap(x.ty.width, x.ty.signed, consts[x].raw) == Held(vals, consts, env, x)
  {
    if x in vals {
      assert Word(vals[x], env[vals[x]]);
    }
  }

  lemma LiveParts(g: Gen, cx: Context, env0: Env, env: Env)
    requires Live(g, cx, env0, env)
    ensures At(g.b, env0, env, true) && Bound(g.vals, cx.consts, env)
    ensures EnvOk(env0) && EnvOk(env) && Below(env, g.b.next)
  {
  }

  lemma BoundExtends(vals: Bindings, consts: Constants, env: Env, out: Env)
    requires Bound(vals, consts, env) && Extends(env, out)
    ensures Bound(vals, consts, out)
  {
  }

  // A regular expression, emitted, is defined at its own type.
  lemma ExprRuns(e: Expr, cx: Context, g: Gen, env0: Env, env: Env) returns (out: Env, n: int)
    requires Regular(e) && EmitExpr(e, g.vals, cx.consts, g.b).Some? && Live(g, cx, env0, env)
    ensures var v := EmitExpr(e, g.vals, cx.consts, g.b).value;
            && At(v.b, env0, out, true) && Extends(env, out) && Bound(g.vals, cx.consts, out)
            && Holding(out, v.v, e.ty, n)
  {
    hide Regular, At, EmitExpr, Vars, Holding, Bound;
    LiveParts(g, cx, env0, env);
    var rho := NumbersExist(g.vals, cx.consts, env);
    EmittedReads(e, g.vals, cx.consts, g.b, rho);
    RegularWidths(e);
    n := Ideal(e, rho);
    out := ExprAt(e, g.vals, cx.consts, rho, g.b, env0, env, true);
    BoundExtends(g.vals, cx.consts, env, out);
  }

  lemma RegularWidths(e: Expr)
    requires Regular(e)
    ensures Widths(e)
  {
  }

  // The same, resized.
  lemma ResizedRuns(e: Expr, to: nat, cx: Context, g: Gen, env0: Env, env: Env) returns (out: Env)
    requires Regular(e) && EmitExpr(e, g.vals, cx.consts, g.b).Some? && Live(g, cx, env0, env) && to > 0
    ensures var v := EmitExpr(e, g.vals, cx.consts, g.b).value;
            var c := Emit.Coerce(v.b, v.v, e.ty.signed, to);
            && At(c.b, env0, out, true) && Extends(env, out) && Bound(g.vals, cx.consts, out)
            && c.v in out && c.v.ty == I(to)
  {
    hide Regular, At, EmitExpr, Emit.Coerce, Holding, Bound;
    var v := EmitExpr(e, g.vals, cx.consts, g.b).value;
    var e1, n := ExprRuns(e, cx, g, env0, env);
    out := CoerceAt(v.b, v.v, e.ty, n, to, env0, e1, true);
    BoundExtends(g.vals, cx.consts, e1, out);
  }

  // ----------------------------------------------------------- simple statements

  lemma StoreRuns(s: Stmt, cx: Context, g: Gen, env0: Env, env: Env) returns (out: Env)
    requires (s.VarDecl? || s.Assign?) && RegularStmt(s) && EmitStmt(s, cx, g).Some? && Live(g, cx, env0, env)
    ensures var g1 := EmitStmt(s, cx, g).value; Live(g1, cx, env0, out) && g1.returned == g.returned
    ensures Extends(env, out)
  {
    hide Regular, At, EmitExpr, Emit.Coerce;
    out := ResizedRuns(if s.VarDecl? then s.init else s.value, s.sym.ty.width, cx, g, env0, env);
  }

  lemma ReturnRuns(e: Expr, cx: Context, g: Gen, env0: Env, env: Env) returns (out: Env)
    requires Regular(e) && TypeOk(cx.returnType) && EmitStmt(Return(e), cx, g).Some? && Live(g, cx, env0, env)
    ensures var g1 := EmitStmt(Return(e), cx, g).value; g1.returned && Ended(g1, cx, env0, out)
    ensures Extends(env, out)
  {
    hide Regular, EmitExpr, Emit.Coerce;
    out := ResizedRuns(e, cx.returnType.width, cx, g, env0, env);
    var v := EmitExpr(e, g.vals, cx.consts, g.b).value;
    var c := Emit.Coerce(v.b, v.v, e.ty.signed, cx.returnType.width);
    assert (c.b.block + [ReturnOp(c.v)])[..|c.b.block|] == c.b.block;
  }

  // --------------------------------------------------------------------- regions

  // Words of the types of the symbols.
  predicate Fit(words: seq<nat>, syms: seq<Symbol>) {
    |words| == |syms| && forall i | 0 <= i < |syms| :: TypeOk(syms[i].ty) && words[i] < Pow2(syms[i].ty.width)
  }

  lemma FitWord(words: seq<nat>, syms: seq<Symbol>, v: Value, i: nat)
    requires Fit(words, syms) && i < |syms| && v.ty == I(syms[i].ty.width)
    ensures Word(v, words[i])
  {
  }

  // What the symbols name is defined, and has their types.
  lemma FetchRuns(vals: Bindings, consts: Constants, syms: seq<Symbol>, env: Env)
    requires Bound(vals, consts, env) && EnvOk(env) && Lookup(vals, syms).Some?
    ensures var vs := Lookup(vals, syms).value;
            && Fetch(env, vs).Some? && Fit(Fetch(env, vs).value, syms)
            && |vs| == |syms| && forall i | 0 <= i < |syms| :: vs[i].ty == I(syms[i].ty.width)
  {
    var vs := Lookup(vals, syms).value;
    forall i | 0 <= i < |syms|
      ensures vs[i] in env && TypeOk(syms[i].ty) && vs[i].ty == I(syms[i].ty.width) && env[vs[i]] < Pow2(syms[i].ty.width)
    {
      assert syms[i] in syms && vs[i] == vals[syms[i]];
      assert Word(vs[i], env[vs[i]]);
    }
  }

  // A region that ran yields words of its symbols' types.
  lemma YieldRuns(g: Gen, cx: Context, carried: seq<Symbol>, env0: Env, env: Env)
    requires Goes(g, cx, env0, env) && Yielded(Some(g), carried).Some?
    ensures var r := Yielded(Some(g), carried).value;
            && EnvOk(env0) && Run(r.ops, env0, true) == Some(env) && EnvOk(env)
            && Fetch(env, r.outs).Some? && Fit(Fetch(env, r.outs).value, carried)
            && |r.outs| == |carried| && forall i | 0 <= i < |carried| :: r.outs[i].ty == I(carried[i].ty.width)
  {
    hide Bound;
    LiveParts(g, cx, env0, env);
    FetchRuns(g.vals, cx.consts, carried, env);
  }

  // Carried symbols rebound to defined values of their types.
  lemma RebindBound(vals: Bindings, consts: Constants, syms: seq<Symbol>, vs: seq<Value>, words: seq<nat>, env: Env)
    requires Bound(vals, consts, env) && ExecFacts.NoDuplicates(syms) && |syms| == |vs| && Fit(words, syms)
    requires forall i | 0 <= i < |syms| :: vs[i] in env && vs[i].ty == I(syms[i].ty.width)
    ensures Bound(Rebind(vals, syms, vs), consts, env)
  {
    hide Rebind;
    RebindGets(vals, syms, vs);
    var r := Rebind(vals, syms, vs);
    forall x | x in r ensures TypeOk(x.ty) && r[x] in env && r[x].ty == I(x.ty.width) {
      if x in syms {
        var i :| 0 <= i < |syms| && syms[i] == x;
        assert r[x] == vs[i];
      }
    }
  }

  // An operation with one result per carried symbol.
  lemma ResultsRun(b: Builder, op: Op, vals: Bindings, carried: seq<Symbol>, prior: seq<Value>, words: seq<nat>, next: nat,
                   cx: Context, env0: Env, env: Env) returns (out: Env)
    requires At(b, env0, env, true) && EnvOk(env) && Bound(vals, cx.consts, env) && b.next <= next
    requires ExecFacts.NoDuplicates(carried) && Fit(words, carried)
    requires |prior| == |carried| && forall i | 0 <= i < |carried| :: prior[i].ty == I(carried[i].ty.width)
    requires Step(op, env, true) == DefineAll(env, FreshLike(prior, next), words)
    ensures var results := FreshLike(prior, next);
            && At(Builder(b.block + [op], next + |results|), env0, out, true) && Extends(env, out)
            && Bound(Rebind(vals, carried, results), cx.consts, out)
  {
    hide Step, At, DefineAll, Bound, Rebind, Fit;
    var results := FreshLike(prior, next);
    FitLength(words, carried);
    forall i | 0 <= i < |results| ensures Word(results[i], words[i]) {
      FitWord(words, carried, results[i], i);
    }
    out := RegionOpAt(b, op, results, words, next, env0, env, true);
    BoundExtends(vals, cx.consts, env, out);
    RebindBound(vals, cx.consts, carried, results, words, out);
  }

  lemma FitLength(words: seq<nat>, syms: seq<Symbol>)
    requires Fit(words, syms)
    ensures |words| == |syms|
  {
  }

  // ---------------------------------------------------------------- all statements

  lemma {:induction false} StmtRuns(s: Stmt, cx: Context, g: Gen, env0: Env, env: Env) returns (out: Env)
    requires RegularStmt(s) && TypeOk(cx.returnType) && EmitStmt(s, cx, g).Some?
    requires Live(g, cx, env0, env) && !g.returned
    ensures Extends(env, out) && Goes(EmitStmt(s, cx, g).value, cx, env0, out)
    decreases s, 2
  {
    hide Live, Ended, Regular;
    match s
    case VarDecl(_, _) => out := StoreRuns(s, cx, g, env0, env);
    case Assign(_, _) => out := StoreRuns(s, cx, g, env0, env);
    case Return(e) => out := ReturnRuns(e, cx, g, env0, env);
    case If(c, t, e) => out := IfRuns(c, t, e, cx, g, env0, env);
    case For(_, _, _, _, _, _, trip, _, _) =>
      if trip == 0 {
        out := env;
      } else {
        out := ForRuns(s, cx, g, env0, env);
      }
    case Block(b) => out := BlockRuns(b, cx, g, env0, env);
  }

  lemma {:induction false} BlockRuns(b: seq<Stmt>, cx: Context, g: Gen, env0: Env, env: Env) returns (out: Env)
    requires RegularBlock(b) && TypeOk(cx.returnType) && EmitBlock(b, cx, g).Some?
    requires Live(g, cx, env0, env) && !g.returned
    ensures Extends(env, out) && Goes(EmitBlock(b, cx, g).value, cx, env0, out)
    decreases b, 1
  {
    hide Live, Ended, RegularStmt, EmitStmt;
    if b == [] {
      out := env;
    } else {
      var g1 := EmitStmt(b[0], cx, g).value;
      out := StmtRuns(b[0], cx, g, env0, env);
      if !g1.returned {
        out := BlockRuns(b[1..], cx, g1, env0, out);
      }
    }
  }

  // A region starts from the bindings before it, in a block of its own.
  lemma RegionStart(vals: Bindings, cx: Context, next: nat, env: Env)
    requires Bound(vals, cx.consts, env) && EnvOk(env) && Below(env, next)
    ensures Live(Gen(vals, Builder([], next), false), cx, env, env)
  {
    hide Run, Bound;
    EmptyAt(Builder([], next), env, true);
  }

  // A region ran, and yields a word for each carried symbol.
  predicate RegionRan(r: Region, carried: seq<Symbol>, env: Env, out: Env) {
    && EnvOk(env) && Run(r.ops, env, true) == Some(out) && EnvOk(out)
    && Fetch(out, r.outs).Some? && Fit(Fetch(out, r.outs).value, carried)
    && |r.outs| == |carried| && forall i | 0 <= i < |carried| :: r.outs[i].ty == I(carried[i].ty.width)
  }

  lemma {:induction false} ThenRuns(t: seq<Stmt>, carried: seq<Symbol>, vals: Bindings, next: nat, cx: Context, env: Env)
      returns (out: Env)
    requires RegularBlock(t) && TypeOk(cx.returnType) && Bound(vals, cx.consts, env) && EnvOk(env) && Below(env, next)
    requires Yielded(EmitBlock(t, cx, Gen(vals, Builder([], next), false)), carried).Some?
    ensures var r := Yielded(EmitBlock(t, cx, Gen(vals, Builder([], next), false)), carried).value;
            r.next >= next && RegionRan(r, carried, env, out)
    decreases t, 2
  {
    hide Bound, Live, Run, EmitBlock, Goes;
    var g := Gen(vals, Builder([], next), false);
    RegionStart(vals, cx, next, env);
    out := BlockRuns(t, cx, g, env, env);
    YieldRuns(EmitBlock(t, cx, g).value, cx, carried, env, out);
  }

  lemma {:induction false} ElseRuns(e: Else, carried: seq<Symbol>, vals: Bindings, next: nat, cx: Context, env: Env)
      returns (out: Env)
    requires RegularElse(e) && TypeOk(cx.returnType) && Bound(vals, cx.consts, env) && EnvOk(env) && Below(env, next)
    requires Yielded(EmitElse(e, cx, Gen(vals, Builder([], next), false)), carried).Some?
    ensures var r := Yielded(EmitElse(e, cx, Gen(vals, Builder([], next), false)), carried).value;
            r.next >= next && RegionRan(r, carried, env, out)
    decreases e, 3
  {
    hide Bound, Live, Run, EmitStmt, Ended;
    var g := Gen(vals, Builder([], next), false);
    RegionStart(vals, cx, next, env);
    out := env;
    if e.ElseDo? {
      out := StmtRuns(e.stmt, cx, g, env, env);
    }
    YieldRuns(EmitElse(e, cx, g).value, cx, carried, env, out);
  }

  // Both arms of an `if` ran: it has the words of one of them.
  lemma IfWords(op: Op, carried: seq<Symbol>, prior: seq<Value>, env: Env, inThen: Env, inElse: Env) returns (words: seq<nat>)
    requires EnvOk(env) && op.IfOp? && op.c in env && op.c.ty == I(1)
    requires Run(op.thenOps, env, true) == Some(inThen) && Run(op.elseOps, env, true) == Some(inElse)
    requires Fetch(inThen, op.thenYield).Some? && Fit(Fetch(inThen, op.thenYield).value, carried)
    requires Fetch(inElse, op.elseYield).Some? && Fit(Fetch(inElse, op.elseYield).value, carried)
    requires Types(op.results, op.thenYield) && Types(op.results, op.elseYield)
    ensures Fit(words, carried) && |words| == |op.results|
    ensures Step(op, env, true) == DefineAll(env, op.results, words)
  {
    hide Run, Fit, DefineAll;
    words := if env[op.c] != 0 then Fetch(inThen, op.thenYield).value else Fetch(inElse, op.elseYield).value;
  }

  lemma IfJoin(cv: Emitted, carried: seq<Symbol>, prior: seq<Value>, tr: Region, er: Region, vals: Bindings, cx: Context,
               env0: Env, env: Env, inThen: Env, inElse: Env) returns (out: Env)
    requires At(cv.b, env0, env, true) && EnvOk(env) && Bound(vals, cx.consts, env) && cv.v in env && cv.v.ty == I(1)
    requires ExecFacts.NoDuplicates(carried) && cv.b.next <= er.next
    requires |prior| == |carried| && forall i | 0 <= i < |carried| :: prior[i].ty == I(carried[i].ty.width)
    requires RegionRan(tr, carried, env, inThen) && RegionRan(er, carried, env, inElse)
    ensures var results := FreshLike(prior, er.next);
            var op := IfOp(results, cv.v, tr.ops, tr.outs, er.ops, er.outs);
            && At(Builder(cv.b.block + [op], er.next + |results|), env0, out, true) && Extends(env, out)
            && Bound(Rebind(vals, carried, results), cx.consts, out)
  {
    hide At, Bound, Run, Fit, Rebind, Step;
    var op := IfOp(FreshLike(prior, er.next), cv.v, tr.ops, tr.outs, er.ops, er.outs);
    var words := IfWords(op, carried, prior, env, inThen, inElse);
    out := ResultsRun(cv.b, op, vals, carried, prior, words, er.next, cx, env0, env);
  }

  lemma {:induction false} IfRuns(c: Expr, t: seq<Stmt>, e: Else, cx: Context, g: Gen, env0: Env, env: Env) returns (out: Env)
    requires Regular(c) && c.ty == U1 && RegularBlock(t) && RegularElse(e) && TypeOk(cx.returnType)
    requires EmitIf(c, t, e, cx, g).Some? && Live(g, cx, env0, env) && !g.returned
    ensures Extends(env, out)
    ensures var g1 := EmitIf(c, t, e, cx, g).value; !g1.returned && Live(g1, cx, env0, out)
    decreases If(c, t, e), 0
  {
    hide Regular, Bound, At, EmitExpr, EmitBlock, EmitElse, Yielded, Lookup, Rebind, Holding, CollectBlock, CollectElse, FreshLike;
    hide RegularBlock, RegularElse, RegionRan, Fetch;
    LiveParts(g, cx, env0, env);
    var cv := EmitExpr(c, g.vals, cx.consts, g.b).value;
    var env1, n := ExprRuns(c, cx, g, env0, env);
    HeldBit(cv.v, n, env1);
    AtParts(cv.b, env0, env1);
    var carried := CollectElse(e, CollectBlock(t, []));
    ExecFacts.CollectBlockIsAssigned(t, []);
    ExecFacts.CollectElseIsAssigned(e, CollectBlock(t, []));
    var prior := Lookup(g.vals, carried).value;
    FetchRuns(g.vals, cx.consts, carried, env1);
    var tr := Yielded(EmitBlock(t, cx, Gen(g.vals, Builder([], cv.b.next), false)), carried).value;
    var inThen := ThenRuns(t, carried, g.vals, cv.b.next, cx, env1);
    var er := Yielded(EmitElse(e, cx, Gen(g.vals, Builder([], tr.next), false)), carried).value;
    BelowMore(env1, cv.b.next, tr.next);
    var inElse := ElseRuns(e, carried, g.vals, tr.next, cx, env1);
    out := IfJoin(cv, carried, prior, tr, er, g.vals, cx, env0, env1, inThen, inElse);
  }

  lemma BelowMore(env: Env, a: nat, b: nat)
    requires Below(env, a) && a <= b
    ensures Below(env, b)
  {
  }

  lemma HeldBit(v: Value, n: int, env: Env)
    requires Holding(env, v, U1, n)
    ensures v in env && v.ty == I(1)
  {
  }

  // ------------------------------------------------------------------------- for

  // The header's values: init and step at the induction type, the bounds 0, trip, 1.
  predicate HeadReady(h: LoopHead, env: Env, trip: nat, t: Type) {
    && h.ivInit in env && h.ivInit.ty == I(t.width) && h.ivStep in env && h.ivStep.ty == I(t.width)
    && h.lb in env && h.lb.ty == Index && env[h.lb] == 0
    && h.ub in env && h.ub.ty == Index && env[h.ub] == trip
    && h.one in env && h.one.ty == Index && env[h.one] == 1
  }

  lemma HeadRuns(s: Stmt, cx: Context, g: Gen, env0: Env, env: Env) returns (out: Env)
    requires s.For? && TypeOk(s.iv.ty) && Regular(s.init) && Regular(s.step) && s.trip <= MAX_TRIP
    requires Live(g, cx, env0, env) && EmitHead(s.iv, s.init, s.step, s.trip, cx, g).Some?
    ensures var h := EmitHead(s.iv, s.init, s.step, s.trip, cx, g).value;
            && Extends(env, out) && At(h.b, env0, out, true) && Bound(g.vals, cx.consts, out)
            && HeadReady(h, out, s.trip, s.iv.ty)
  {
    hide Regular, EmitExpr, Emit.Coerce, At, Bound, IndexConst;
    var w := s.iv.ty.width;
    var iv0 := EmitExpr(s.init, g.vals, cx.consts, g.b).value;
    var ivInit := Emit.Coerce(iv0.b, iv0.v, s.init.ty.signed, w);
    var e1 := ResizedRuns(s.init, w, cx, g, env0, env);
    var g1 := Gen(g.vals, ivInit.b, g.returned);
    var st0 := EmitExpr(s.step, g.vals, cx.consts, ivInit.b).value;
    var ivStep := Emit.Coerce(st0.b, st0.v, s.step.ty.signed, w);
    var e2 := ResizedRuns(s.step, w, cx, g1, env0, e1);
    out := BoundsAt(ivStep.b, s.trip, env0, e2, true);
    BoundExtends(g.vals, cx.consts, e2, out);
  }

  // One loop: what it carries, what it starts from, and its body.
  datatype Frame = Frame(iv: Symbol, isAdd: bool, body: seq<Stmt>, carried: seq<Symbol>, inits: seq<Value>,
                         vals: Bindings, h: LoopHead, trip: nat)

  function BodyGen(l: Frame): Gen
    requires |l.carried| == |l.inits|
  {
    BodyStart(l.h, l.iv, l.isAdd, l.carried, l.inits, l.vals)
  }

  predicate FrameOk(l: Frame, cx: Context, env: Env) {
    && ExecFacts.NoDuplicates(l.carried) && |l.inits| == |l.carried|
    && (forall i | 0 <= i < |l.carried| :: l.inits[i].ty == I(l.carried[i].ty.width))
    && EnvOk(env) && Below(env, l.h.b.next) && Bound(l.vals, cx.consts, env)
    && TypeOk(l.iv.ty) && HeadReady(l.h, env, l.trip, l.iv.ty) && l.trip <= MAX_TRIP
    && RegularBlock(l.body) && TypeOk(cx.returnType)
    && Yielded(EmitBlock(l.body, cx, BodyGen(l)), l.carried).Some?
  }

  function RegionOf(l: Frame, cx: Context): Region
    requires |l.inits| == |l.carried| && Yielded(EmitBlock(l.body, cx, BodyGen(l)), l.carried).Some?
  {
    Yielded(EmitBlock(l.body, cx, BodyGen(l)), l.carried).value
  }

  // The region arguments of iteration k are defined.
  lemma EntryRuns(l: Frame, cx: Context, k: nat, cur: seq<nat>, env: Env) returns (entry: Env)
    requires FrameOk(l, cx, env) && Fit(cur, l.carried) && k < l.trip
    ensures var env1 := Define(env, Counter(l.h), k % Pow2(INDEX_BITS));
            env1.Some? && DefineAll(env1.value, RegionArgs(l.h, l.inits), cur) == Some(entry)
    ensures EnvOk(entry) && Extends(env, entry) && Below(entry, l.h.b.next + 1 + |l.inits|)
    ensures Counter(l.h) in entry && entry[Counter(l.h)] == k
    ensures var args := RegionArgs(l.h, l.inits);
            forall i | 0 <= i < |l.carried| :: args[i] in entry && args[i].ty == I(l.carried[i].ty.width)
  {
    hide Pow2, EmitBlock, RegularBlock, Yielded, HeadReady, Fit, Bound;
    TripFits(k);
    ModSmall(k, Pow2(INDEX_BITS));
    FitLength(cur, l.carried);
    var env1 := env[Counter(l.h) := k];
    var args := RegionArgs(l.h, l.inits);
    forall i | 0 <= i < |args| ensures Word(args[i], cur[i]) {
      FitWord(cur, l.carried, args[i], i);
    }
    DefineAllAt(env1, args, cur, l.h.b.next + 1);
    entry := DefineAll(env1, args, cur).value;
  }

  // A defined value holds the low bits of some number.
  lemma NumberHeld(v: Value, t: Type, env: Env) returns (n: int)
    requires EnvOk(env) && v in env && v.ty == I(t.width) && TypeOk(t)
    ensures env[v] == n % Pow2(t.width)
  {
    assert Word(v, env[v]);
    n := env[v];
    ModSmall(n, Pow2(t.width));
  }

  // The body starts with the induction value rebuilt and everything bound.
  lemma StartRuns(l: Frame, cx: Context, k: nat, cur: seq<nat>, env: Env) returns (entry: Env, out: Env)
    requires FrameOk(l, cx, env) && Fit(cur, l.carried) && k < l.trip
    ensures var env1 := Define(env, Counter(l.h), k % Pow2(INDEX_BITS));
            env1.Some? && DefineAll(env1.value, RegionArgs(l.h, l.inits), cur) == Some(entry)
    ensures EnvOk(entry) && Live(BodyGen(l), cx, entry, out)
  {
    hide Run, Define, DefineAll, EmitBlock, RegularBlock, Yielded, Pow2, IvRaw, Fit, Bound, Rebind, At, EmitIv;
    entry := EntryRuns(l, cx, k, cur, env);
    var b := Builder([], l.h.b.next + 1 + |l.inits|);
    EmptyAt(b, entry, true);
    var ib := NumberHeld(l.h.ivInit, l.iv.ty, entry);
    var sb := NumberHeld(l.h.ivStep, l.iv.ty, entry);
    out := IvAt(b, Counter(l.h), ib, sb, l.h.ivInit, l.h.ivStep, l.isAdd, k, l.iv.ty, entry, entry, true);
    var inner := EmitIv(b, Counter(l.h), l.iv.ty.width, l.h.ivInit, l.h.ivStep, l.isAdd);
    BoundExtends(l.vals, cx.consts, env, out);
    StartBound(l.vals, cx.consts, l.iv, inner.v, out);
    RebindBound(l.vals[l.iv := inner.v], cx.consts, l.carried, RegionArgs(l.h, l.inits), cur, out);
  }

  lemma StartBound(vals: Bindings, consts: Constants, iv: Symbol, v: Value, env: Env)
    requires Bound(vals, consts, env) && TypeOk(iv.ty) && v in env && v.ty == I(iv.ty.width)
    ensures Bound(vals[iv := v], consts, env)
  {
  }

  // The loop operation, shaped as LoopOp builds it.
  predicate OpIs(op: Op, l: Frame, cx: Context)
    requires |l.inits| == |l.carried| && Yielded(EmitBlock(l.body, cx, BodyGen(l)), l.carried).Some?
  {
    && op.ForOp? && op.lb == l.h.lb && op.ub == l.h.ub && op.step == l.h.one && op.inits == l.inits
    && op.iv == Counter(l.h) && op.args == RegionArgs(l.h, l.inits)
    && op.body == RegionOf(l, cx).ops && op.outs == RegionOf(l, cx).outs
  }

  lemma {:induction false} IterationRuns(op: Op, l: Frame, cx: Context, k: nat, cur: seq<nat>, env: Env)
    requires FrameOk(l, cx, env) && OpIs(op, l, cx) && LoopShape(op, env) && Fit(cur, l.carried) && k < l.trip
    ensures |cur| == |op.args|
    ensures var next := Iteration(op, k, cur, env, true); next.Some? && Fit(next.value, l.carried)
    decreases l.body, 2
  {
    hide Run, Define, DefineAll, EmitBlock, RegularBlock, Pow2, Fit, Bound, At, LoopShape, HeadReady, BodyGen, Live, Goes;
    FitLength(cur, l.carried);
    var entry, start := StartRuns(l, cx, k, cur, env);
    StartFresh(l);
    var out := BlockRuns(l.body, cx, BodyGen(l), entry, start);
    YieldRuns(EmitBlock(l.body, cx, BodyGen(l)).value, cx, l.carried, entry, out);
  }

  lemma StartFresh(l: Frame)
    requires |l.inits| == |l.carried|
    ensures !BodyGen(l).returned
  {
  }

  lemma {:induction false} IterateRuns(op: Op, l: Frame, cx: Context, k: nat, cur: seq<nat>, env: Env)
    requires FrameOk(l, cx, env) && OpIs(op, l, cx) && LoopShape(op, env) && Fit(cur, l.carried) && k <= l.trip
    ensures |cur| == |op.args|
    ensures var r := Iterate(op, k, l.trip, 1, cur, env, true); r.Some? && Fit(r.value, l.carried)
    decreases l.body, 3, l.trip - k
  {
    hide FrameOk, OpIs, LoopShape, Fit, Iteration;
    FrameArgs(op, l, cx, cur, env);
    if k < l.trip {
      IterationRuns(op, l, cx, k, cur, env);
      IterateRuns(op, l, cx, k + 1, Iteration(op, k, cur, env, true).value, env);
    }
  }

  lemma FrameArgs(op: Op, l: Frame, cx: Context, cur: seq<nat>, env: Env)
    requires FrameOk(l, cx, env) && OpIs(op, l, cx) && Fit(cur, l.carried)
    ensures EnvOk(env) && op.ForOp? && |cur| == |op.args|
  {
    hide EmitBlock, RegularBlock, Bound, HeadReady;
  }

  // The loop of a `for` statement, in the environment after its header.
  lemma ForFrame(s: Stmt, cx: Context, g: Gen, env: Env) returns (l: Frame, op: Op)
    requires s.For? && RegularStmt(s) && TypeOk(cx.returnType)
    requires EmitFor(s.iv, s.init, s.stepIsAdd, s.step, s.trip, s.body, cx, g).Some? && s.trip <= MAX_TRIP
    requires var h := EmitHead(s.iv, s.init, s.step, s.trip, cx, g);
             h.Some? ==> HeadReady(h.value, env, s.trip, s.iv.ty) && Below(env, h.value.b.next)
    requires EnvOk(env) && Bound(g.vals, cx.consts, env)
    ensures EmitHead(s.iv, s.init, s.step, s.trip, cx, g) == Some(l.h) && l.vals == g.vals && l.trip == s.trip
    ensures l.body == s.body && FrameOk(l, cx, env)
    ensures |l.inits| == |l.carried| && Yielded(EmitBlock(l.body, cx, BodyGen(l)), l.carried).Some?
    ensures OpIs(op, l, cx) && op.results == FreshLike(l.inits, RegionOf(l, cx).next)
    ensures Fetch(env, l.inits).Some? && Fit(Fetch(env, l.inits).value, l.carried)
    ensures EmitFor(s.iv, s.init, s.stepIsAdd, s.step, s.trip, s.body, cx, g).value ==
            Gen(Rebind(g.vals, l.carried, op.results),
                Builder(l.h.b.block + [op], RegionOf(l, cx).next + |op.results|), g.returned)
  {
    hide Regular, EmitHead, EmitBlock, Bound, Rebind, Fit, CollectBlock, RemoveSymbol, RegularBlock, BodyStart;
    var carried := RemoveSymbol(CollectBlock(s.body, []), s.iv);
    ExecFacts.CollectBlockIsAssigned(s.body, []);
    RemoveSymbolIs(CollectBlock(s.body, []), s.iv);
    var h := EmitHead(s.iv, s.init, s.step, s.trip, cx, g).value;
    FetchRuns(g.vals, cx.consts, carried, env);
    l := Frame(s.iv, s.stepIsAdd, s.body, carried, Lookup(g.vals, carried).value, g.vals, h, s.trip);
    op := LoopOp(h, l.inits, RegionOf(l, cx), FreshLike(l.inits, RegionOf(l, cx).next));
  }

  // What the body yields has its symbols' types, as one run of it shows.
  lemma {:induction false} OutTypes(l: Frame, cx: Context, cur: seq<nat>, env: Env)
    requires FrameOk(l, cx, env) && Fit(cur, l.carried) && l.trip > 0
    ensures var outs := RegionOf(l, cx).outs;
            |outs| == |l.carried| && forall i | 0 <= i < |l.carried| :: outs[i].ty == I(l.carried[i].ty.width)
    decreases l.body, 2
  {
    hide Run, Define, DefineAll, EmitBlock, RegularBlock, Pow2, Fit, Bound, At, HeadReady, BodyGen, Live, Goes;
    var entry, start := StartRuns(l, cx, 0, cur, env);
    StartFresh(l);
    var out := BlockRuns(l.body, cx, BodyGen(l), entry, start);
    YieldRuns(EmitBlock(l.body, cx, BodyGen(l)).value, cx, l.carried, entry, out);
  }

  lemma ShapeRuns(op: Op, l: Frame, cx: Context, env: Env)
    requires FrameOk(l, cx, env) && OpIs(op, l, cx) && |op.results| == |l.inits|
    requires forall i | 0 <= i < |l.inits| :: op.results[i].ty == l.inits[i].ty
    requires var outs := RegionOf(l, cx).outs;
             |outs| == |l.carried| && forall i | 0 <= i < |l.carried| :: outs[i].ty == I(l.carried[i].ty.width)
    ensures LoopShape(op, env)
  {
    hide EmitBlock, RegularBlock, Bound, BodyGen;
  }

  lemma ForParts(s: Stmt, cx: Context, g: Gen)
    requires s.For? && s.trip > 0 && EmitStmt(s, cx, g).Some?
    ensures s.trip <= MAX_TRIP && EmitHead(s.iv, s.init, s.step, s.trip, cx, g).Some?
    ensures EmitStmt(s, cx, g) == EmitFor(s.iv, s.init, s.stepIsAdd, s.step, s.trip, s.body, cx, g)
  {
    hide EmitHead, EmitBlock, BodyStart, Rebind;
  }

  lemma {:induction false} ForRuns(s: Stmt, cx: Context, g: Gen, env0: Env, env: Env) returns (out: Env)
    requires s.For? && s.trip > 0 && RegularStmt(s) && TypeOk(cx.returnType) && EmitStmt(s, cx, g).Some?
    requires Live(g, cx, env0, env) && !g.returned
    ensures var g1 := EmitStmt(s, cx, g).value; !g1.returned && Live(g1, cx, env0, out)
    ensures Extends(env, out)
    decreases s, 1
  {
    hide Regular, EmitHead, EmitFor, Bound, At, FrameOk, OpIs, LoopShape, Fit, Rebind, Iterate, Step, RegionOf;
    ForParts(s, cx, g);
    var env1 := HeadRuns(s, cx, g, env0, env);
    var h := EmitHead(s.iv, s.init, s.step, s.trip, cx, g).value;
    AtParts(h.b, env0, env1);
    var l, op := ForFrame(s, cx, g, env1);
    var cur := Fetch(env1, l.inits).value;
    OutTypes(l, cx, cur, env1);
    ShapeRuns(op, l, cx, env1);
    IterateRuns(op, l, cx, 0, cur, env1);
    OpParts(op, l, cx, env1);
    ForStep(op, cur, s.trip, env1, true);
    var words := Iterate(op, 0, s.trip, 1, cur, env1, true).value;
    out := ResultsRun(h.b, op, g.vals, l.carried, l.inits, words, RegionOf(l, cx).next, cx, env0, env1);
  }

  lemma AtParts(b: Builder, env0: Env, env: Env)
    requires At(b, env0, env, true)
    ensures EnvOk(env0) && EnvOk(env) && Below(env, b.next)
  {
  }

  lemma OpParts(op: Op, l: Frame, cx: Context, env: Env)
    requires FrameOk(l, cx, env) && OpIs(op, l, cx)
    ensures op.ForOp? && env[op.lb] == 0 && env[op.ub] == l.trip && env[op.step] == 1 && op.inits == l.inits
    ensures ExecFacts.NoDuplicates(l.carried) && |l.inits| == |l.carried| && l.h.b.next <= RegionOf(l, cx).next
    ensures forall i | 0 <= i < |l.carried| :: l.inits[i].ty == I(l.carried[i].ty.width)
  {
    hide EmitBlock, RegularBlock, Bound;
  }

  // -------------------------------------------------------------------- functions

  function StartOf(p: Program): Gen {
    Gen(Rebind(map[], p.params, Arguments(p.params)), Builder([], |p.params|), false)
  }

  function ContextOf(p: Program): Context {
    Context(ConstantTable(p.consts), p.returnType)
  }

  lemma {:induction false} TableTypes(consts: seq<Const>)
    requires forall i | 0 <= i < |consts| :: TypeOk(consts[i].sym.ty)
    ensures forall x | x in ConstantTable(consts) :: TypeOk(x.ty)
    decreases |consts|
  {
    if consts != [] {
      TableTypes(consts[..|consts| - 1]);
    }
  }

  // At entry every parameter's argument is defined.
  lemma EntryLive(p: Program, words: seq<nat>) returns (env: Env)
    requires RegularProgram(p) && Fit(words, p.params)
    ensures DefineAll(map[], Arguments(p.params), words) == Some(env) && Live(StartOf(p), ContextOf(p), env, env)
  {
    hide Run, Rebind, ConstantTable, RegularBlock;
    var args := Arguments(p.params);
    DefineAllAt(map[], args, words, 0);
    env := DefineAll(map[], args, words).value;
    TableTypes(p.consts);
    EmptyAt(StartOf(p).b, env, true);
    RebindBound(map[], ConstantTable(p.consts), p.params, args, words, env);
  }

  lemma FunctionRuns(p: Program, f: Func, words: seq<nat>)
    requires RegularProgram(p) && EmitFunction(p) == Some(f) && Fit(words, p.params)
    ensures Call(f, words, true).Some?
  {
    hide Live, Run, EmitBlock, RegularBlock, DefineAll, Fit;
    var env := EntryLive(p, words);
    var cx, g := ContextOf(p), StartOf(p);
    var out := BlockRuns(p.body, cx, g, env, env);
    FitLength(words, p.params);
    assert Ended(EmitBlock(p.body, cx, g).value, cx, env, out);
  }

  // The emitted function is well formed, and total: on all words of its argument
  // types every operation of it is defined, including those on arms not taken.
  lemma EmittedVerifies(p: Program, f: Func)
    requires RegularProgram(p) && EmitFunction(p) == Some(f)
    ensures VerifyFunc(f)
    ensures forall words | Fit(words, p.params) ::
              Call(f, words, true).Some? && Call(f, words, false) == Call(f, words, true)
  {
    hide RegularProgram, EmitFunction, Call, VerifyFunc;
    forall words | Fit(words, p.params)
      ensures Call(f, words, true).Some? && Call(f, words, false) == Call(f, words, true)
    {
      FunctionRuns(p, f, words);
      CallVerifies(f, words);
    }
    var zeros := seq(|p.params|, _ => 0);
    ParamTypes(p);
    assert Fit(zeros, p.params);
    FunctionRuns(p, f, zeros);
    CallVerifies(f, zeros);
  }

  lemma ParamTypes(p: Program)
    requires RegularProgram(p)
    ensures forall i | 0 <= i < |p.params| :: TypeOk(p.params[i].ty)
  {
  }
}
