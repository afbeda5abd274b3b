/**
 The code emitted for a statement keeps the bound variables in step with what the
 statement means: after the code and after the statement, every symbol's SSA value
 holds the number its variable holds.  This is stated for every environment, so
 it covers the arms an execution does not take.
 */
module StmtExact {
  import opened Arith
  import opened FixedWidth
  import opened Ast
  import opened Meaning
  import opened Means
  import opened ExecFacts
  import opened Ir
  import opened Wrappers
  import opened Emit
  import opened EmitExact

  // The emitter's bindings hold the variables' numbers.
  predicate Synced(g: Gen, cx: Context, env0: Env, env: Env, every: bool, rho: Numbers) {
    && At(g.b, env0, env, every)
    && NumbersOk(rho)
    && Vars(g.vals, cx.consts, env, rho)
  }

  // A `return` has been emitted: it ends the block, and its operand is the
  // returned number cut to the return type.
  predicate ReturnedAt(g: Gen, cx: Context, env0: Env, env: Env, every: bool, result: int) {
    && g.b.block != []
    && EnvOk(env0)
    && var last := g.b.block[|g.b.block| - 1];
       && last.ReturnOp? && last.v.ty == I(cx.returnType.width)
       && Run(g.b.block[..|g.b.block| - 1], env0, every) == Some(env)
       && last.v in env
       && env[last.v] == result % Pow2(cx.returnType.width)
  }

  // ------------------------------------------------------------ defining results

  // Values numbered one after another.
  predicate Consecutive(vs: seq<Value>, next: nat) {
    forall i | 0 <= i < |vs| :: vs[i].id == next + i
  }

  predicate Below(env: Env, next: nat) {
    forall v | v in env :: v.id < next
  }

  lemma {:induction false} DefineAllAt(env: Env, vs: seq<Value>, raws: seq<nat>, next: nat)
    requires |vs| == |raws| && EnvOk(env)
    requires Consecutive(vs, next) && Below(env, next)
    requires forall i | 0 <= i < |vs| :: Word(vs[i], raws[i])
    ensures DefineAll(env, vs, raws).Some?
    ensures var out := DefineAll(env, vs, raws).value;
            && EnvOk(out) && Extends(env, out) && Below(out, next + |vs|)
            && forall i | 0 <= i < |vs| :: vs[i] in out && out[vs[i]] == raws[i]
    decreases |vs|
  {
    if vs != [] {
      var env1 := env[vs[0] := raws[0]];
      assert Define(env, vs[0], raws[0]) == Some(env1);
      assert Consecutive(vs[1..], next + 1) by {
        forall i | 0 <= i < |vs[1..]| ensures vs[1..][i].id == next + 1 + i {
          assert vs[1..][i] == vs[i + 1];
        }
      }
      assert forall i | 0 <= i < |vs[1..]| :: Word(vs[1..][i], raws[1..][i]) by {
        forall i | 0 <= i < |vs[1..]| ensures Word(vs[1..][i], raws[1..][i]) {
          assert vs[1..][i] == vs[i + 1] && raws[1..][i] == raws[i + 1];
        }
      }
      DefineAllAt(env1, vs[1..], raws[1..], next + 1);
      var out := DefineAll(env1, vs[1..], raws[1..]).value;
      forall i | 0 <= i < |vs| ensures vs[i] in out && out[vs[i]] == raws[i] {
        if i > 0 {
          assert vs[1..][i - 1] == vs[i] && raws[1..][i - 1] == raws[i];
        }
      }
    }
  }

  lemma {:induction false} RebindGets(vals: Bindings, syms: seq<Symbol>, vs: seq<Value>)
    requires |syms| == |vs| && NoDuplicates(syms)
    ensures var r := Rebind(vals, syms, vs);
            && (forall i | 0 <= i < |syms| :: syms[i] in r && r[syms[i]] == vs[i])
            && (forall x | x in vals && x !in syms :: x in r && r[x] == vals[x])
            && (forall x | x in r :: x in vals || x in syms)
    decreases |syms|
  {
    if syms != [] {
      var vals1 := vals[syms[0] := vs[0]];
      assert syms[0] !in syms[1..];
      RebindGets(vals1, syms[1..], vs[1..]);
      var r := Rebind(vals, syms, vs);
      forall i | 0 <= i < |syms| ensures syms[i] in r && r[syms[i]] == vs[i] {
        if i > 0 {
          assert syms[1..][i - 1] == syms[i] && vs[1..][i - 1] == vs[i];
        }
      }
      forall x | x in r ensures x in vals || x in syms {
        if x in syms[1..] {
          assert x in syms;
        }
      }
    }
  }

  // ------------------------------------------------------------- simple statements

  // A number cut at a type keeps its low bits.
  lemma CutWord(t: Type, n: int)
    requires TypeOk(t)
    ensures InRange(Cut(t, n), t.width, t.signed) && Cut(t, n) % Pow2(t.width) == n % Pow2(t.width)
  {
    hide Pow2;
    RawOfNum(t.width, t.signed, n % Pow2(t.width));
  }

  lemma MeantIs(e: Expr, rho: Numbers)
    requires Regular(e)
    ensures Widths(e) && Meant(e, rho) == Ideal(e, rho)
  {
  }

  // An expression resized to a type: the emitted word is the low bits of its number.
  lemma ResizedAt(e: Expr, to: Type, cx: Context, g: Gen, env0: Env, env: Env, every: bool, rho: Numbers)
      returns (out: Env)
    requires TypeOk(to) && Regular(e) && EmitExpr(e, g.vals, cx.consts, g.b).Some?
    requires Synced(g, cx, env0, env, every, rho)
    ensures var v := EmitExpr(e, g.vals, cx.consts, g.b).value;
            var c := Emit.Coerce(v.b, v.v, e.ty.signed, to.width);
            && Extends(env, out)
            && At(c.b, env0, out, every)
            && Vars(g.vals, cx.consts, out, rho)
            && c.v in out && c.v.ty == I(to.width)
            && out[c.v] == Meant(e, rho) % Pow2(to.width)
  {
    hide EmitExpr, Meant, Regular;
    EmittedReads(e, g.vals, cx.consts, g.b, rho);
    MeantIs(e, rho);
    var v := EmitExpr(e, g.vals, cx.consts, g.b).value;
    var e1 := ExprAt(e, g.vals, cx.consts, rho, g.b, env0, env, every);
    VarsExtend(g.vals, cx.consts, env, e1, rho);
    out := CoerceAt(v.b, v.v, e.ty, Ideal(e, rho), to.width, env0, e1, every);
    VarsExtend(g.vals, cx.consts, e1, out, rho);
  }

  // Binding a symbol to a value that holds its variable's new word.
  lemma BindVars(vals: Bindings, consts: Constants, sym: Symbol, v: Value, n: int, env: Env, rho: Numbers)
    requires NumbersOk(rho) && Vars(vals, consts, env, rho) && TypeOk(sym.ty)
    requires InRange(n, sym.ty.width, sym.ty.signed)
    requires v in env && v.ty == I(sym.ty.width) && env[v] == n % Pow2(sym.ty.width)
    ensures NumbersOk(rho[sym := n])
    ensures Vars(vals[sym := v], consts, env, rho[sym := n])
  {
    NumOfRaw(sym.ty.width, sym.ty.signed, n);
  }

  // Storing a number in a variable: the emitted resize keeps the bits of the number
  // cut at the variable's type.
  lemma StoreAt(sym: Symbol, e: Expr, cx: Context, g: Gen, env0: Env, env: Env, every: bool, rho: Numbers)
      returns (out: Env)
    requires TypeOk(sym.ty) && Regular(e) && EmitExpr(e, g.vals, cx.consts, g.b).Some?
    requires Synced(g, cx, env0, env, every, rho)
    ensures var v := EmitExpr(e, g.vals, cx.consts, g.b).value;
            var c := Emit.Coerce(v.b, v.v, e.ty.signed, sym.ty.width);
            var after := rho[sym := Cut(sym.ty, Meant(e, rho))];
            && Extends(env, out)
            && Synced(Gen(g.vals[sym := c.v], c.b, g.returned), cx, env0, out, every, after)
  {
    hide EmitExpr, Meant, Regular, At, Vars, Emit.Coerce;
    out := ResizedAt(e, sym.ty, cx, g, env0, env, every, rho);
    CutWord(sym.ty, Meant(e, rho));
    var v := EmitExpr(e, g.vals, cx.consts, g.b).value;
    var c := Emit.Coerce(v.b, v.v, e.ty.signed, sym.ty.width);
    BindVars(g.vals, cx.consts, sym, c.v, Cut(sym.ty, Meant(e, rho)), out, rho);
  }

  lemma ReturnAt(e: Expr, cx: Context, g: Gen, env0: Env, env: Env, every: bool, rho: Numbers) returns (out: Env)
    requires TypeOk(cx.returnType) && Regular(e) && EmitExpr(e, g.vals, cx.consts, g.b).Some?
    requires Synced(g, cx, env0, env, every, rho)
    ensures Extends(env, out)
    ensures ReturnedAt(EmitStmt(Return(e), cx, g).value, cx, env0, out, every, Meant(e, rho))
  {
    hide EmitExpr, Meant, Regular;
    out := ResizedAt(e, cx.returnType, cx, g, env0, env, every, rho);
    var v := EmitExpr(e, g.vals, cx.consts, g.b).value;
    var c := Emit.Coerce(v.b, v.v, e.ty.signed, cx.returnType.width);
    assert (c.b.block + [ReturnOp(c.v)])[..|c.b.block|] == c.b.block;
  }

  // ----------------------------------------------------------------- regions

  // The word holds what the variable holds.
  predicate WordOf(word: nat, sym: Symbol, rho: Numbers) {
    && TypeOk(sym.ty)
    && sym in rho && InRange(rho[sym], sym.ty.width, sym.ty.signed)
    && word == rho[sym] % Pow2(sym.ty.width)
  }

  predicate WordsOf(words: seq<nat>, syms: seq<Symbol>, rho: Numbers) {
    |words| == |syms| && forall i | 0 <= i < |syms| :: WordOf(words[i], syms[i], rho)
  }

  // What a bound symbol's value holds is its variable's word.
  lemma BoundWord(g: Gen, cx: Context, env0: Env, env: Env, every: bool, rho: Numbers, sym: Symbol)
    requires Synced(g, cx, env0, env, every, rho) && sym in g.vals
    ensures g.vals[sym] in env && g.vals[sym].ty == I(sym.ty.width)
    ensures WordOf(env[g.vals[sym]], sym, rho)
  {
    assert Holding(env, g.vals[sym], sym.ty, rho[sym]);
    RawOfNum(sym.ty.width, sym.ty.signed, env[g.vals[sym]]);
  }

  // A region that ran yields its carried variables' words.
  lemma RegionAt(g: Gen, cx: Context, carried: seq<Symbol>, env0: Env, env: Env, every: bool, rho: Numbers)
    requires Synced(g, cx, env0, env, every, rho) && Yielded(Some(g), carried).Some?
    ensures var r := Yielded(Some(g), carried).value;
            && Run(r.ops, env0, every) == Some(env)
            && Fetch(env, r.outs).Some?
            && WordsOf(Fetch(env, r.outs).value, carried, rho)
            && |r.outs| == |carried| && forall i | 0 <= i < |carried| :: r.outs[i].ty == I(carried[i].ty.width)
  {
    var r := Yielded(Some(g), carried).value;
    forall i | 0 <= i < |carried|
      ensures r.outs[i] in env && r.outs[i].ty == I(carried[i].ty.width) && WordOf(env[r.outs[i]], carried[i], rho)
    {
      assert carried[i] in carried;
      BoundWord(g, cx, env0, env, every, rho, carried[i]);
    }
  }

  // A value holding a variable's word holds its number.
  lemma HeldWord(env: Env, v: Value, sym: Symbol, rho: Numbers, word: nat)
    requires WordOf(word, sym, rho) && v in env && env[v] == word && v.ty == I(sym.ty.width)
    ensures sym in rho && Holding(env, v, sym.ty, rho[sym])
  {
    NumOfRaw(sym.ty.width, sym.ty.signed, rho[sym]);
  }

  lemma HoldingExtends(env: Env, out: Env, v: Value, t: Type, n: int)
    requires Holding(env, v, t, n) && Extends(env, out)
    ensures Holding(out, v, t, n)
  {
  }

  // The bindings after a region: carried symbols name its results, the others
  // have not changed.
  lemma MergeVars(vals: Bindings, consts: Constants, carried: seq<Symbol>, results: seq<Value>, words: seq<nat>,
                  env: Env, out: Env, before: Numbers, after: Numbers, changed: set<Symbol>)
    requires NumbersOk(before) && NumbersOk(after)
    requires Vars(vals, consts, env, before) && Extends(env, out)
    requires Apart(before, after, changed) && NoDuplicates(carried)
    requires forall x | x in carried :: x in vals
    requires forall x | x in changed && (x in vals || x in consts) :: x in carried
    requires |results| == |carried| && WordsOf(words, carried, after)
    requires forall i | 0 <= i < |carried| ::
               results[i] in out && out[results[i]] == words[i] && results[i].ty == I(carried[i].ty.width)
    ensures Vars(Rebind(vals, carried, results), consts, out, after)
    ensures Rebind(vals, carried, results).Keys == vals.Keys
  {
    hide Rebind, Holding, WordOf, Wrap;
    RebindGets(vals, carried, results);
    var r := Rebind(vals, carried, results);
    forall x | x in r ensures x in after && Holding(out, r[x], x.ty, after[x]) {
      if x in carried {
        var i :| 0 <= i < |carried| && carried[i] == x;
        HeldWord(out, results[i], x, after, words[i]);
      } else {
        HoldingExtends(env, out, vals[x], x.ty, before[x]);
      }
    }
    VarsFrom(r, consts, out, after) by {
      forall x | x in consts && x !in r ensures x in after && Wrap(x.ty.width, x.ty.signed, consts[x].raw) == after[x] {
        assert x !in vals && x in before;
      }
    }
  }

  lemma VarsFrom(vals: Bindings, consts: Constants, env: Env, rho: Numbers)
    requires NumbersOk(rho)
    requires forall x | x in vals :: x in rho && Holding(env, vals[x], x.ty, rho[x])
    requires forall x | x in consts && x !in vals ::
               x in rho && Wrap(x.ty.width, x.ty.signed, consts[x].raw) == rho[x]
    ensures Vars(vals, consts, env, rho)
  {
  }

  // ---------------------------------------------------------------- preparation

  // A statement the emitter accepts, typed, with its own symbols.
  predicate Ready(s: Stmt, cx: Context, g: Gen) {
    && RegularStmt(s) && UniqueDecls(s) && Decls(s) !! g.vals.Keys + cx.consts.Keys
    && Returns(s) <= 1 && TypeOk(cx.returnType) && !g.returned && EmitStmt(s, cx, g).Some?
  }

  predicate BlockReady(b: seq<Stmt>, cx: Context, g: Gen) {
    && RegularBlock(b) && BlockUnique(b) && BlockDecls(b) !! g.vals.Keys + cx.consts.Keys
    && BlockReturns(b) <= 1 && TypeOk(cx.returnType) && !g.returned && EmitBlock(b, cx, g).Some?
  }

  predicate ElseReady(e: Else, cx: Context, g: Gen) {
    && RegularElse(e) && ElseUnique(e) && ElseDecls(e) !! g.vals.Keys + cx.consts.Keys
    && ElseReturns(e) <= 1 && TypeOk(cx.returnType) && !g.returned && EmitElse(e, cx, g).Some?
  }

  predicate Outcome(g: Gen, cx: Context, env0: Env, env: Env, every: bool, m: Sense) {
    if g.returned then ReturnedAt(g, cx, env0, env, every, m.result)
    else Synced(g, cx, env0, env, every, m.vars)
  }

  predicate KeysGrow(before: Gen, after: Gen, more: set<Symbol>) {
    before.vals.Keys <= after.vals.Keys <= before.vals.Keys + more
  }

  // --------------------------------------------------------------------- blocks

  // What emitting and executing one statement guarantees.
  ghost predicate Kept(s: Stmt, cx: Context, g: Gen, env0: Env, env: Env, every: bool, m: Sense, out: Env)
    requires EmitStmt(s, cx, g).Some?
  {
    var g1 := EmitStmt(s, cx, g).value;
    && Extends(env, out)
    && Outcome(g1, cx, env0, out, every, Does(s, m))
    && (g1.returned ==> Returns(s) > 0)
    && KeysGrow(g, g1, Decls(s) + Assigned(s))
  }

  lemma StoreKept(s: Stmt, cx: Context, g: Gen, env0: Env, env: Env, every: bool, m: Sense) returns (out: Env)
    requires s.VarDecl? || s.Assign?
    requires Ready(s, cx, g) && Synced(g, cx, env0, env, every, m.vars)
    ensures Kept(s, cx, g, env0, env, every, m, out)
  {
    hide Synced, EmitExpr, Meant, Regular, Emit.Coerce;
    out := StoreAt(s.sym, if s.VarDecl? then s.init else s.value, cx, g, env0, env, every, m.vars);
  }

  lemma ReturnKept(s: Stmt, cx: Context, g: Gen, env0: Env, env: Env, every: bool, m: Sense) returns (out: Env)
    requires s.Return?
    requires Ready(s, cx, g) && Synced(g, cx, env0, env, every, m.vars)
    ensures Kept(s, cx, g, env0, env, every, m, out)
  {
    hide Synced, ReturnedAt, EmitExpr, Meant, Regular, Emit.Coerce;
    out := ReturnAt(s.value, cx, g, env0, env, every, m.vars);
  }

  lemma BlockParts(s: Stmt, cx: Context, g: Gen)
    requires s.Block? && Ready(s, cx, g)
    ensures BlockReady(s.stmts, cx, g)
  {
  }

  lemma BlockKept(s: Stmt, cx: Context, g: Gen, env0: Env, env: Env, every: bool, m: Sense, out: Env)
    requires s.Block? && EmitBlock(s.stmts, cx, g).Some?
    requires BlockDone(s.stmts, cx, g, env0, env, every, m, out)
    ensures EmitStmt(s, cx, g).Some? && Kept(s, cx, g, env0, env, every, m, out)
  {
  }

  lemma {:induction false} StmtAt(s: Stmt, cx: Context, g: Gen, env0: Env, env: Env, every: bool, m: Sense)
      returns (out: Env)
    requires Ready(s, cx, g) && Synced(g, cx, env0, env, every, m.vars)
    ensures Kept(s, cx, g, env0, env, every, m, out)
    decreases s, 2, 0
  {
    hide Synced, BlockDone, BlockReady, Kept, EmitStmt, RegularStmt, UniqueDecls;
    if s.VarDecl? || s.Assign? {
      out := StoreKept(s, cx, g, env0, env, every, m);
    } else if s.Return? {
      out := ReturnKept(s, cx, g, env0, env, every, m);
    } else if s.Block? {
      BlockParts(s, cx, g);
      out := BlockAt(s.stmts, cx, g, env0, env, every, m);
      BlockKept(s, cx, g, env0, env, every, m, out);
    } else if s.If? {
      out := IfAt(s, cx, g, env0, env, every, m);
    } else {
      out := ForAt(s, cx, g, env0, env, every, m);
    }
  }

  // What emitting and executing a block guarantees.
  ghost predicate BlockDone(b: seq<Stmt>, cx: Context, g: Gen, env0: Env, env: Env, every: bool, m: Sense, out: Env)
    requires EmitBlock(b, cx, g).Some?
  {
    var g1 := EmitBlock(b, cx, g).value;
    && Extends(env, out)
    && Outcome(g1, cx, env0, out, every, DoesBlock(b, m))
    && (g1.returned ==> BlockReturns(b) > 0)
    && KeysGrow(g, g1, BlockDecls(b) + BlockAssigned(b))
  }

  lemma {:induction false} BlockAt(b: seq<Stmt>, cx: Context, g: Gen, env0: Env, env: Env, every: bool, m: Sense)
      returns (out: Env)
    requires BlockReady(b, cx, g) && Synced(g, cx, env0, env, every, m.vars)
    ensures BlockDone(b, cx, g, env0, env, every, m, out)
    decreases b, 0, 0
  {
    hide *;
    if b == [] {
      out := env;
      NothingDone(cx, g, env0, env, every, m);
    } else {
      BlockHead(b, cx, g);
      var g1 := EmitStmt(b[0], cx, g).value;
      out := StmtAt(b[0], cx, g, env0, env, every, m);
      if g1.returned {
        BlockEnds(b, cx, g, env0, env, every, m, out);
      } else {
        BlockTail(b, cx, g, env0, env, every, m, out);
        var env1 := out;
        out := BlockAt(b[1..], cx, g1, env0, env1, every, Does(b[0], m));
        BlockJoin(b, cx, g, env0, env, env1, every, m, out);
      }
    }
  }

  lemma NothingDone(cx: Context, g: Gen, env0: Env, env: Env, every: bool, m: Sense)
    requires BlockReady([], cx, g) && Synced(g, cx, env0, env, every, m.vars)
    ensures EmitBlock([], cx, g).Some? && BlockDone([], cx, g, env0, env, every, m, env)
  {
    hide Synced, RegularBlock;
  }

  lemma BlockHead(b: seq<Stmt>, cx: Context, g: Gen)
    requires b != [] && BlockReady(b, cx, g)
    ensures Ready(b[0], cx, g) && EmitStmt(b[0], cx, g).Some?
    ensures EmitBlock(b, cx, g).Some?
  {
    hide EmitStmt, RegularStmt, UniqueDecls;
  }

  // After a return nothing more is emitted, and nothing more returns.
  lemma BlockEnds(b: seq<Stmt>, cx: Context, g: Gen, env0: Env, env: Env, every: bool, m: Sense, out: Env)
    requires b != [] && BlockReady(b, cx, g) && EmitStmt(b[0], cx, g).Some?
    requires Kept(b[0], cx, g, env0, env, every, m, out) && EmitStmt(b[0], cx, g).value.returned
    ensures BlockDone(b, cx, g, env0, env, every, m, out)
  {
    hide EmitStmt, Does, ReturnedAt, Synced, RegularStmt, UniqueDecls;
    BlockNoReturnMeans(b[1..], Does(b[0], m));
  }

  lemma BlockTail(b: seq<Stmt>, cx: Context, g: Gen, env0: Env, env: Env, every: bool, m: Sense, out: Env)
    requires b != [] && BlockReady(b, cx, g) && EmitStmt(b[0], cx, g).Some?
    requires Kept(b[0], cx, g, env0, env, every, m, out) && !EmitStmt(b[0], cx, g).value.returned
    ensures var g1 := EmitStmt(b[0], cx, g).value;
            && BlockReady(b[1..], cx, g1) && EmitBlock(b[1..], cx, g1).Some?
            && Synced(g1, cx, env0, out, every, Does(b[0], m).vars)
  {
    hide EmitStmt, Does, ReturnedAt, Synced, RegularStmt, UniqueDecls;
  }

  lemma BlockJoin(b: seq<Stmt>, cx: Context, g: Gen, env0: Env, env: Env, env1: Env, every: bool, m: Sense, out: Env)
    requires b != [] && EmitStmt(b[0], cx, g).Some? && Kept(b[0], cx, g, env0, env, every, m, env1)
    requires var g1 := EmitStmt(b[0], cx, g).value;
             && !g1.returned && EmitBlock(b[1..], cx, g1).Some?
             && BlockDone(b[1..], cx, g1, env0, env1, every, Does(b[0], m), out)
    ensures EmitBlock(b, cx, g).Some? && BlockDone(b, cx, g, env0, env, every, m, out)
  {
    hide EmitStmt, Does, ReturnedAt, Synced;
  }

  lemma {:induction false} ElseAt(e: Else, cx: Context, g: Gen, env0: Env, env: Env, every: bool, m: Sense)
      returns (out: Env)
    requires ElseReady(e, cx, g) && Synced(g, cx, env0, env, every, m.vars)
    ensures var g1 := EmitElse(e, cx, g).value;
            Extends(env, out) && Outcome(g1, cx, env0, out, every, DoesElse(e, m))
    decreases e, 3, 0
  {
    match e
    case NoElse => out := env;
    case ElseDo(s) => out := StmtAt(s, cx, g, env0, env, every, m);
  }

  // ------------------------------------------------------------------------- if

  // The condition's word decides as its number does.
  lemma ConditionAt(c: Expr, cx: Context, g: Gen, env0: Env, env: Env, every: bool, rho: Numbers) returns (out: Env)
    requires Regular(c) && c.ty == U1 && EmitExpr(c, g.vals, cx.consts, g.b).Some?
    requires Synced(g, cx, env0, env, every, rho)
    ensures var v := EmitExpr(c, g.vals, cx.consts, g.b).value;
            && Extends(env, out)
            && At(v.b, env0, out, every) && Vars(g.vals, cx.consts, out, rho)
            && v.v in out && v.v.ty == I(1) && (out[v.v] != 0 <==> Meant(c, rho) != 0)
  {
    hide EmitExpr, Meant, Regular, At;
    EmittedReads(c, g.vals, cx.consts, g.b, rho);
    MeantIs(c, rho);
    out := ExprAt(c, g.vals, cx.consts, rho, g.b, env0, env, every);
    VarsExtend(g.vals, cx.consts, env, out, rho);
  }

  // One arm, run from the environment of the condition.
  lemma {:induction false} ThenAt(t: seq<Stmt>, carried: seq<Symbol>, cx: Context, g: Gen, env: Env, every: bool, m: Sense)
    requires BlockReady(t, cx, g) && g.b.block == [] && Yielded(EmitBlock(t, cx, g), carried).Some?
    requires Synced(g, cx, env, env, every, m.vars)
    ensures var r := Yielded(EmitBlock(t, cx, g), carried).value;
            var run := Run(r.ops, env, every);
            && run.Some? && Fetch(run.value, r.outs).Some?
            && WordsOf(Fetch(run.value, r.outs).value, carried, DoesBlock(t, m).vars)
            && |r.outs| == |carried| && forall i | 0 <= i < |carried| :: r.outs[i].ty == I(carried[i].ty.width)
    decreases t, 1, 0
  {
    var out := BlockAt(t, cx, g, env, env, every, m);
    RegionAt(EmitBlock(t, cx, g).value, cx, carried, env, out, every, DoesBlock(t, m).vars);
  }

  lemma {:induction false} OtherAt(e: Else, carried: seq<Symbol>, cx: Context, g: Gen, env: Env, every: bool, m: Sense)
    requires ElseReady(e, cx, g) && g.b.block == [] && Yielded(EmitElse(e, cx, g), carried).Some?
    requires Synced(g, cx, env, env, every, m.vars)
    ensures var r := Yielded(EmitElse(e, cx, g), carried).value;
            var run := Run(r.ops, env, every);
            && run.Some? && Fetch(run.value, r.outs).Some?
            && WordsOf(Fetch(run.value, r.outs).value, carried, DoesElse(e, m).vars)
            && |r.outs| == |carried| && forall i | 0 <= i < |carried| :: r.outs[i].ty == I(carried[i].ty.width)
    decreases e, 4, 0
  {
    var out := ElseAt(e, cx, g, env, env, every, m);
    RegionAt(EmitElse(e, cx, g).value, cx, carried, env, out, every, DoesElse(e, m).vars);
  }

  // Executing the emitted `if`: its results are the taken arm's words.
  lemma IfStep(results: seq<Value>, c: Value, tr: Region, er: Region, words: seq<nat>, env: Env, every: bool)
    requires EnvOk(env) && c in env && c.ty == I(1)
    requires Types(results, tr.outs) && Types(results, er.outs)
    requires every || env[c] != 0 ==> Arm(tr.ops, tr.outs, env, every, true).Some?
    requires every || env[c] == 0 ==> Arm(er.ops, er.outs, env, every, true).Some?
    requires |words| == |results|
    requires words == if env[c] != 0 then Arm(tr.ops, tr.outs, env, every, true).value
                      else Arm(er.ops, er.outs, env, every, true).value
    ensures Step(IfOp(results, c, tr.ops, tr.outs, er.ops, er.outs), env, every) == DefineAll(env, results, words)
  {
  }

  // The pieces of an emitted `if`.
  datatype IfParts = IfParts(cv: Emitted, carried: seq<Symbol>, prior: seq<Value>, tr: Region, er: Region)

  function ArmStart(g: Gen, next: nat): Gen {
    Gen(g.vals, Builder([], next), false)
  }

  function Joined(g: Gen, p: IfParts): Gen
    requires |p.prior| == |p.carried|
  {
    var results := FreshLike(p.prior, p.er.next);
    Gen(Rebind(g.vals, p.carried, results),
        Builder(p.cv.b.block + [IfOp(results, p.cv.v, p.tr.ops, p.tr.outs, p.er.ops, p.er.outs)], p.er.next + |results|),
        g.returned)
  }

  ghost predicate IsParts(s: Stmt, cx: Context, g: Gen, p: IfParts)
    requires s.If?
  {
    var gt, ge := ArmStart(g, p.cv.b.next), ArmStart(g, p.tr.next);
    && EmitExpr(s.cond, g.vals, cx.consts, g.b) == Some(p.cv)
    && Regular(s.cond) && s.cond.ty == U1
    && NoDuplicates(p.carried) && (forall x :: x in p.carried <==> x in Assigned(s))
    && Lookup(g.vals, p.carried) == Some(p.prior)
    && BlockReady(s.thenB, cx, gt) && Yielded(EmitBlock(s.thenB, cx, gt), p.carried) == Some(p.tr)
    && ElseReady(s.elseS, cx, ge) && Yielded(EmitElse(s.elseS, cx, ge), p.carried) == Some(p.er)
    && p.cv.b.next <= p.tr.next <= p.er.next
    && EmitStmt(s, cx, g) == Some(Joined(g, p))
  }

  // What readiness says of the parts of an `if`.
  lemma IfReady(s: Stmt, cx: Context, g: Gen)
    requires s.If? && Ready(s, cx, g)
    ensures EmitIf(s.cond, s.thenB, s.elseS, cx, g) == EmitStmt(s, cx, g) && EmitStmt(s, cx, g).Some?
    ensures Regular(s.cond) && s.cond.ty == U1 && TypeOk(cx.returnType) && !g.returned
    ensures RegularBlock(s.thenB) && BlockUnique(s.thenB) && BlockDecls(s.thenB) !! g.vals.Keys + cx.consts.Keys
    ensures RegularElse(s.elseS) && ElseUnique(s.elseS) && ElseDecls(s.elseS) !! g.vals.Keys + cx.consts.Keys
    ensures BlockReturns(s.thenB) <= 1 && ElseReturns(s.elseS) <= 1
    ensures var carried := CollectElse(s.elseS, CollectBlock(s.thenB, []));
            NoDuplicates(carried) && forall x :: x in carried <==> x in Assigned(s)
  {
    hide EmitIf, EmitExpr, EmitBlock, EmitElse, Regular, RegularBlock, RegularElse, BlockUnique, ElseUnique, Yielded, Rebind, Lookup;
    CollectIsAssigned(s, []);
    assert EmitIf(s.cond, s.thenB, s.elseS, cx, g) == EmitStmt(s, cx, g);
  }

  lemma IfSplit(s: Stmt, cx: Context, g: Gen) returns (p: IfParts)
    requires s.If? && Ready(s, cx, g)
    ensures IsParts(s, cx, g, p)
  {
    hide EmitExpr, Regular, Ready, EmitStmt, EmitBlock, EmitElse, RegularBlock, RegularElse, BlockUnique, ElseUnique, BlockDecls, ElseDecls;
    hide BlockReturns, ElseReturns, Assigned, CollectBlock, CollectElse, Rebind, Yielded, Lookup;
    IfReady(s, cx, g);
    var c, t, e := s.cond, s.thenB, s.elseS;
    var cv := EmitExpr(c, g.vals, cx.consts, g.b).value;
    var carried := CollectElse(e, CollectBlock(t, []));
    var tr := Yielded(EmitBlock(t, cx, ArmStart(g, cv.b.next)), carried).value;
    var er := Yielded(EmitElse(e, cx, ArmStart(g, tr.next)), carried).value;
    p := IfParts(cv, carried, Lookup(g.vals, carried).value, tr, er);
    YieldedFrom(EmitBlock(t, cx, ArmStart(g, cv.b.next)), carried);
    YieldedFrom(EmitElse(e, cx, ArmStart(g, tr.next)), carried);
  }

  // A region ends after what was emitted for it.
  lemma YieldedFrom(g: Option<Gen>, carried: seq<Symbol>)
    requires Yielded(g, carried).Some?
    ensures g.Some? && Yielded(g, carried).value.next == g.value.b.next
  {
  }

  lemma {:induction false} IfAt(s: Stmt, cx: Context, g: Gen, env0: Env, env: Env, every: bool, m: Sense)
      returns (out: Env)
    requires s.If? && Ready(s, cx, g) && Synced(g, cx, env0, env, every, m.vars)
    ensures Kept(s, cx, g, env0, env, every, m, out)
    decreases s, 1, 0
  {
    hide Synced, EmitExpr, Meant, Regular, EmitStmt, EmitBlock, EmitElse, BlockReady, ElseReady, At, Vars;
    var p := IfSplit(s, cx, g);
    var gt, ge := ArmStart(g, p.cv.b.next), ArmStart(g, p.tr.next);
    SyncedParts(g, cx, env0, env, every, m.vars);
    var env1 := ConditionAt(s.cond, cx, g, env0, env, every, m.vars);
    RegionEntry(gt, cx, p.cv.b, env0, env1, every, m.vars);
    SyncedParts(gt, cx, env1, env1, every, m.vars);
    ThenAt(s.thenB, p.carried, cx, gt, env1, every, m);
    RegionEntry(ge, cx, p.cv.b, env0, env1, every, m.vars);
    OtherAt(s.elseS, p.carried, cx, ge, env1, every, m);
    out := IfFinish(s, cx, g, p, env0, env1, every, m);
  }

  lemma SyncedParts(g: Gen, cx: Context, env0: Env, env: Env, every: bool, rho: Numbers)
    requires Synced(g, cx, env0, env, every, rho)
    ensures EnvOk(env) && NumbersOk(rho)
  {
  }

  // A region starts where the enclosing block has got to.
  lemma RegionEntry(g: Gen, cx: Context, b: Builder, env0: Env, env: Env, every: bool, rho: Numbers)
    requires At(b, env0, env, every) && NumbersOk(rho) && Vars(g.vals, cx.consts, env, rho)
    requires g.b.block == [] && g.b.next >= b.next
    ensures Synced(g, cx, env, env, every, rho)
  {
  }

  // Joining the arms.
  lemma IfFinish(s: Stmt, cx: Context, g: Gen, p: IfParts, env0: Env, env: Env, every: bool, m: Sense) returns (out: Env)
    requires s.If? && Ready(s, cx, g) && IsParts(s, cx, g, p) && NumbersOk(m.vars) && EnvOk(env)
    requires At(p.cv.b, env0, env, every) && Vars(g.vals, cx.consts, env, m.vars)
    requires p.cv.v in env && p.cv.v.ty == I(1) && (env[p.cv.v] != 0 <==> Meant(s.cond, m.vars) != 0)
    requires |p.tr.outs| == |p.er.outs| == |p.carried|
    requires forall i | 0 <= i < |p.carried| :: p.tr.outs[i].ty == p.er.outs[i].ty == I(p.carried[i].ty.width)
    requires var t := Arm(p.tr.ops, p.tr.outs, env, every, true);
             t.Some? && WordsOf(t.value, p.carried, DoesBlock(s.thenB, m).vars)
    requires var e := Arm(p.er.ops, p.er.outs, env, every, true);
             e.Some? && WordsOf(e.value, p.carried, DoesElse(s.elseS, m).vars)
    ensures Kept(s, cx, g, env0, env, every, m, out)
  {
    hide *;
    var words := if env[p.cv.v] != 0 then Arm(p.tr.ops, p.tr.outs, env, every, true).value
                 else Arm(p.er.ops, p.er.outs, env, every, true).value;
    IfEffect(s, cx, g, p, m);
    out := IfJoin(g, cx, p, words, env0, env, every, m.vars, Does(s, m).vars, Assigned(s) + Decls(s));
    IfKept(s, cx, g, p, env0, env, every, m, out);
  }

  lemma IfEffect(s: Stmt, cx: Context, g: Gen, p: IfParts, m: Sense)
    requires s.If? && Ready(s, cx, g) && IsParts(s, cx, g, p) && NumbersOk(m.vars)
    ensures NumbersOk(Does(s, m).vars)
    ensures Apart(m.vars, Does(s, m).vars, Assigned(s) + Decls(s))
    ensures Does(s, m) == if Meant(s.cond, m.vars) != 0 then DoesBlock(s.thenB, m) else DoesElse(s.elseS, m)
    ensures NoDuplicates(p.carried) && Lookup(g.vals, p.carried) == Some(p.prior) && p.cv.b.next <= p.er.next
    ensures |p.prior| == |p.carried|
    ensures forall x | x in Assigned(s) + Decls(s) && (x in g.vals || x in cx.consts) :: x in p.carried
  {
    hide Meant, Regular, EmitStmt, BlockReady, ElseReady, NumbersOk, Apart;
    DoesFits(s, m);
    DoesTouches(s, m);
  }

  lemma IfKept(s: Stmt, cx: Context, g: Gen, p: IfParts, env0: Env, env: Env, every: bool, m: Sense, out: Env)
    requires s.If? && Ready(s, cx, g) && IsParts(s, cx, g, p)
    requires Extends(env, out) && Synced(Joined(g, p), cx, env0, out, every, Does(s, m).vars)
    requires Joined(g, p).vals.Keys == g.vals.Keys
    ensures Kept(s, cx, g, env0, env, every, m, out)
  {
    hide EmitStmt, RegularStmt, UniqueDecls, Synced, BlockReady, ElseReady, Yielded, Does, Extends;
  }

  lemma IfJoin(g: Gen, cx: Context, p: IfParts, words: seq<nat>, env0: Env, env: Env, every: bool,
               before: Numbers, after: Numbers, changed: set<Symbol>) returns (out: Env)
    requires NumbersOk(before) && NumbersOk(after) && Apart(before, after, changed)
    requires NoDuplicates(p.carried) && Lookup(g.vals, p.carried) == Some(p.prior)
    requires forall x | x in changed && (x in g.vals || x in cx.consts) :: x in p.carried
    requires At(p.cv.b, env0, env, every) && Vars(g.vals, cx.consts, env, before)
    requires p.cv.v in env && p.cv.v.ty == I(1) && p.cv.b.next <= p.er.next
    requires |p.tr.outs| == |p.er.outs| == |p.carried|
    requires forall i | 0 <= i < |p.carried| :: p.tr.outs[i].ty == p.er.outs[i].ty == I(p.carried[i].ty.width)
    requires Arm(p.tr.ops, p.tr.outs, env, every, true).Some? && Arm(p.er.ops, p.er.outs, env, every, true).Some?
    requires words == if env[p.cv.v] != 0 then Arm(p.tr.ops, p.tr.outs, env, every, true).value
                      else Arm(p.er.ops, p.er.outs, env, every, true).value
    requires WordsOf(words, p.carried, after)
    ensures Extends(env, out)
    ensures Synced(Joined(g, p), cx, env0, out, every, after)
    ensures Joined(g, p).vals.Keys == g.vals.Keys
  {
    hide Arm, Run, Step, Vars;
    var results := FreshLike(p.prior, p.er.next);
    CarriedTypes(g.vals, cx.consts, p.carried, p.prior, env, before);
    ResultWords(p.carried, p.prior, results, words, after);
    IfStep(results, p.cv.v, p.tr, p.er, words, env, every);
    out := RegionOpAt(p.cv.b, IfOp(results, p.cv.v, p.tr.ops, p.tr.outs, p.er.ops, p.er.outs),
                      results, words, p.er.next, env0, env, every);
    MergeVars(g.vals, cx.consts, p.carried, results, words, env, out, before, after, changed);
  }

  // Carried values have their symbols' types.
  lemma CarriedTypes(vals: Bindings, consts: Constants, carried: seq<Symbol>, prior: seq<Value>, env: Env, rho: Numbers)
    requires NumbersOk(rho) && Vars(vals, consts, env, rho) && Lookup(vals, carried) == Some(prior)
    ensures forall i | 0 <= i < |carried| :: prior[i].ty == I(carried[i].ty.width)
  {
    forall i | 0 <= i < |carried| ensures prior[i].ty == I(carried[i].ty.width) {
      assert carried[i] in carried;
      assert Holding(env, vals[carried[i]], carried[i].ty, rho[carried[i]]);
    }
  }

  lemma ResultWords(carried: seq<Symbol>, prior: seq<Value>, results: seq<Value>, words: seq<nat>, rho: Numbers)
    requires |carried| == |prior| == |results| && WordsOf(words, carried, rho)
    requires forall i | 0 <= i < |carried| :: prior[i].ty == I(carried[i].ty.width) && results[i].ty == prior[i].ty
    ensures forall i | 0 <= i < |results| :: Word(results[i], words[i])
  {
    forall i | 0 <= i < |results| ensures Word(results[i], words[i]) {
      assert WordOf(words[i], carried[i], rho);
    }
  }

  // Appending an operation that defines a run of new values.
  lemma RegionOpAt(b: Builder, op: Op, results: seq<Value>, words: seq<nat>, next: nat, env0: Env, env: Env, every: bool)
      returns (out: Env)
    requires At(b, env0, env, every) && b.next <= next && |results| == |words|
    requires Step(op, env, every) == DefineAll(env, results, words)
    requires Consecutive(results, next) && forall i | 0 <= i < |results| :: Word(results[i], words[i])
    ensures At(Builder(b.block + [op], next + |results|), env0, out, every) && Extends(env, out)
    ensures forall i | 0 <= i < |results| :: results[i] in out && out[results[i]] == words[i]
  {
    hide Step;
    DefineAllAt(env, results, words, next);
    out := DefineAll(env, results, words).value;
    RunAppend(b.block, op, env0, every);
  }

  // ------------------------------------------------------------------------ for

  lemma {:induction false} RemoveSymbolIs(syms: seq<Symbol>, x: Symbol)
    requires NoDuplicates(syms)
    ensures NoDuplicates(RemoveSymbol(syms, x))
    ensures forall y :: y in RemoveSymbol(syms, x) <==> y in syms && y != x
  {
    if syms != [] {
      RemoveSymbolIs(syms[1..], x);
      assert syms == [syms[0]] + syms[1..];
      assert syms[0] !in syms[1..];
    }
  }

  lemma IndexConstAt(b: Builder, v: nat, env0: Env, env: Env, every: bool) returns (out: Env)
    requires At(b, env0, env, every) && v < Pow2(INDEX_BITS)
    ensures var r := IndexConst(b, v);
            && At(r.b, env0, out, every) && Extends(env, out)
            && r.v in out && r.v.ty == Index && out[r.v] == v
  {
    var r := IndexConst(b, v);
    out := env[r.v := v];
    AppendAt(b, ConstOp(r.v, v), env0, env, every, r.v, v);
  }

  lemma TripFits(trip: nat)
    requires trip <= MAX_TRIP
    ensures trip < Pow2(INDEX_BITS) && 1 < Pow2(INDEX_BITS)
    ensures Signed(INDEX_BITS, trip) == trip && Signed(INDEX_BITS, 1) == 1 && Signed(INDEX_BITS, 0) == 0
  {
    Pow2Add(32, 31);
    assert Pow2(8) == 256;
    Pow2Add(8, 8);
    Pow2Add(8, 7);
    assert Pow2(7) == 128;
    Pow2Add(16, 16);
    Pow2Add(16, 15);
    assert Pow2(63) == 0x1_0000_0000 * 0x8000_0000;
    assert Pow2(INDEX_BITS) == 2 * Pow2(63);
  }

  // The header's values: init and step cut at the induction type, and the bounds 0,
  // trip, 1.
  predicate HeadHolds(h: LoopHead, env: Env, ib: int, sb: int, trip: nat, t: Type) {
    && TypeOk(t) && InRange(ib, t.width, t.signed)
    && h.ivInit in env && h.ivInit.ty == I(t.width) && env[h.ivInit] == ib % Pow2(t.width)
    && h.ivStep in env && h.ivStep.ty == I(t.width) && env[h.ivStep] == sb % Pow2(t.width)
    && h.lb in env && h.lb.ty == Index && env[h.lb] == 0
    && h.ub in env && h.ub.ty == Index && env[h.ub] == trip
    && h.one in env && h.one.ty == Index && env[h.one] == 1
  }

  lemma HeadAt(iv: Symbol, init: Expr, step: Expr, trip: nat, cx: Context, g: Gen,
               env0: Env, env: Env, every: bool, rho: Numbers) returns (out: Env)
    requires TypeOk(iv.ty) && Regular(init) && Regular(step) && trip <= MAX_TRIP
    requires Synced(g, cx, env0, env, every, rho) && EmitHead(iv, init, step, trip, cx, g).Some?
    ensures var h := EmitHead(iv, init, step, trip, cx, g).value;
            && Extends(env, out)
            && At(h.b, env0, out, every) && Vars(g.vals, cx.consts, out, rho)
            && HeadHolds(h, out, Cut(iv.ty, Meant(init, rho)), Cut(iv.ty, Meant(step, rho)), trip, iv.ty)
  {
    hide EmitExpr, Meant, Regular, At, Vars, Pow2, InRange, NumOf, NumbersOk;
    var iv0 := EmitExpr(init, g.vals, cx.consts, g.b).value;
    var ivInit := Emit.Coerce(iv0.b, iv0.v, init.ty.signed, iv.ty.width);
    var e1 := ResizedAt(init, iv.ty, cx, g, env0, env, every, rho);
    CutWord(iv.ty, Meant(init, rho));
    var g1 := Gen(g.vals, ivInit.b, g.returned);
    var m0 := EmitExpr(step, g.vals, cx.consts, ivInit.b).value;
    var ivStep := Emit.Coerce(m0.b, m0.v, step.ty.signed, iv.ty.width);
    var e2 := ResizedAt(step, iv.ty, cx, g1, env0, e1, every, rho);
    CutWord(iv.ty, Meant(step, rho));
    out := BoundsAt(ivStep.b, trip, env0, e2, every);
    VarsExtend(g.vals, cx.consts, e2, out, rho);
  }

  // The bounds 0, trip and 1.
  lemma BoundsAt(b: Builder, trip: nat, env0: Env, env: Env, every: bool) returns (out: Env)
    requires At(b, env0, env, every) && trip <= MAX_TRIP
    ensures var lb := IndexConst(b, 0); var ub := IndexConst(lb.b, trip); var one := IndexConst(ub.b, 1);
            && At(one.b, env0, out, every) && Extends(env, out)
            && lb.v in out && lb.v.ty == Index && out[lb.v] == 0
            && ub.v in out && ub.v.ty == Index && out[ub.v] == trip
            && one.v in out && one.v.ty == Index && out[one.v] == 1
  {
    hide At, Pow2, IndexConst;
    TripFits(trip);
    var lb := IndexConst(b, 0);
    var e1 := IndexConstAt(b, 0, env0, env, every);
    var ub := IndexConst(lb.b, trip);
    var e2 := IndexConstAt(lb.b, trip, env0, e1, every);
    out := IndexConstAt(ub.b, 1, env0, e2, every);
  }

  // The induction value after k steps.
  function IvNth(ib: int, sb: int, isAdd: bool, t: Type, k: nat): int {
    if k == 0 then ib else NextIv(IvNth(ib, sb, isAdd, t, k - 1), sb, isAdd, t)
  }

  // What its bits are, in closed form.
  function IvRaw(ib: int, sb: int, isAdd: bool, k: nat, w: nat): nat {
    (if isAdd then ib + k * sb else ib - k * sb) % Pow2(w)
  }

  // Stepping k times is adding or subtracting k steps, modulo 2^w.
  lemma {:induction false} IvSteps(ib: int, sb: int, isAdd: bool, t: Type, k: nat)
    requires TypeOk(t) && InRange(ib, t.width, t.signed)
    ensures var iv := IvNth(ib, sb, isAdd, t, k);
            InRange(iv, t.width, t.signed) && iv % Pow2(t.width) == IvRaw(ib, sb, isAdd, k, t.width)
  {
    hide Pow2, InRange, Cut;
    if k > 0 {
      IvSteps(ib, sb, isAdd, t, k - 1);
      var iv, m := IvNth(ib, sb, isAdd, t, k - 1), Pow2(t.width);
      CutWord(t, if isAdd then iv + sb else iv - sb);
      ModStep(iv, sb, m);
      ModStep(iv, -sb, m);
      IvMod(ib, sb, k - 1, m, isAdd);
    }
  }

  lemma IvMod(a: int, s: int, k: nat, m: int, isAdd: bool)
    requires m > 0
    ensures isAdd ==> ((a + k * s) % m + s) % m == (a + (k + 1) * s) % m
    ensures !isAdd ==> ((a - k * s) % m - s) % m == (a - (k + 1) * s) % m
  {
    var p := k * s;
    assert (k + 1) * s == p + s;
    if isAdd {
      ModStep(a + p, s, m);
      assert a + (k + 1) * s == a + p + s;
    } else {
      ModStep(a - p, -s, m);
      assert a - (k + 1) * s == a - p + -s;
    }
  }

  lemma ModStep(x: int, s: int, m: int)
    requires m > 0
    ensures (x % m + s) % m == (x + s) % m
  {
    ModPlus(x % m + s, x / m, m);
  }

  // The rebuilt induction value is the closed form.
  lemma IvAt(b: Builder, counter: Value, ib: int, sb: int, init: Value, step: Value, isAdd: bool, k: nat, t: Type,
             env0: Env, env: Env, every: bool) returns (out: Env)
    requires At(b, env0, env, every) && TypeOk(t)
    requires counter in env && counter.ty == Index && env[counter] == k <= MAX_TRIP
    requires init in env && init.ty == I(t.width) && env[init] == ib % Pow2(t.width)
    requires step in env && step.ty == I(t.width) && env[step] == sb % Pow2(t.width)
    ensures var r := EmitIv(b, counter, t.width, init, step, isAdd);
            && At(r.b, env0, out, every) && Extends(env, out)
            && r.v in out && r.v.ty == I(t.width) && out[r.v] == IvRaw(ib, sb, isAdd, k, t.width)
  {
    hide At, ArithSem, Pow2, IvRaw;
    var w, m := t.width, Pow2(t.width);
    var kv := NewValue(b, w);
    var e1 := CounterAt(b, counter, k, w, env0, env, every);
    var b1 := Append(b, IndexCastOp(kv, counter));
    var d := k * sb % m;
    IvSem(ib, sb, isAdd, k, w);
    var delta := Emit.Arithmetic(b1, MulI, kv, step);
    var e2 := ArithmeticAt(b1, MulI, kv, step, w, d, env0, e1, every);
    out := ArithmeticAt(delta.b, if isAdd then AddI else SubI, init, delta.v, w, IvRaw(ib, sb, isAdd, k, t.width), env0, e2, every);
  }

  // The counter at the width of the induction variable.
  lemma CounterAt(b: Builder, counter: Value, k: nat, w: nat, env0: Env, env: Env, every: bool) returns (out: Env)
    requires At(b, env0, env, every) && w > 0
    requires counter in env && counter.ty == Index && env[counter] == k <= MAX_TRIP
    ensures var kv := NewValue(b, w);
            && At(Append(b, IndexCastOp(kv, counter)), env0, out, every) && Extends(env, out)
            && kv in out && out[kv] == k % Pow2(w)
  {
    hide At, Pow2;
    TripFits(k);
    var kv := NewValue(b, w);
    out := env[kv := k % Pow2(w)];
    InEnv(b, env0, env, every);
    AppendAt(b, IndexCastOp(kv, counter), env0, env, every, kv, k % Pow2(w));
  }

  lemma InEnv(b: Builder, env0: Env, env: Env, every: bool)
    requires At(b, env0, env, every)
    ensures EnvOk(env)
  {
  }

  // Multiply and add, both modulo 2^w.
  lemma IvSem(ib: int, sb: int, isAdd: bool, k: nat, w: nat)
    requires WidthOk(w)
    ensures var m := Pow2(w); var d := k * sb % m;
            && ArithSem(MulI, w, k % m, sb % m) == Some(d)
            && ArithSem(if isAdd then AddI else SubI, w, ib % m, d) == Some(IvRaw(ib, sb, isAdd, k, w))
  {
    hide Pow2;
    var m := Pow2(w);
    ModMul(k, sb, m);
    ModAdd(ib, k * sb, m);
    ModSub(ib, k * sb, m);
  }

  // Between iterations: bound symbols the body does not carry are unchanged in
  // env, and the carried ones are the words cur.
  predicate Carry(vals: Bindings, consts: Constants, carried: seq<Symbol>, cur: seq<nat>, env: Env, rho: Numbers) {
    && NumbersOk(rho)
    && WordsOf(cur, carried, rho)
    && (forall x | x in vals && x !in carried :: x in rho && Holding(env, vals[x], x.ty, rho[x]))
    && (forall x | x in consts && x !in vals ::
          x in rho && Wrap(x.ty.width, x.ty.signed, consts[x].raw) == rho[x])
  }

  // What stays fixed through the iterations of one loop.
  datatype Loop = Loop(iv: Symbol, isAdd: bool, body: seq<Stmt>, carried: seq<Symbol>, inits: seq<Value>,
                       vals: Bindings, h: LoopHead, ib: int, sb: int, trip: nat)

  function Start(l: Loop): Gen
    requires |l.carried| == |l.inits|
  {
    BodyStart(l.h, l.iv, l.isAdd, l.carried, l.inits, l.vals)
  }

  ghost predicate LoopOk(l: Loop, cx: Context, env: Env) {
    && NoDuplicates(l.carried)
    && (forall x :: x in l.carried <==> x in BlockAssigned(l.body) && x != l.iv)
    && Lookup(l.vals, l.carried) == Some(l.inits)
    && (forall i | 0 <= i < |l.carried| :: l.inits[i].ty == I(l.carried[i].ty.width))
    && EnvOk(env) && Below(env, l.h.b.next)
    && HeadHolds(l.h, env, l.ib, l.sb, l.trip, l.iv.ty) && l.trip <= MAX_TRIP
    && l.iv !in l.vals && l.iv !in cx.consts
    && BlockDecls(l.body) !! l.vals.Keys + cx.consts.Keys + {l.iv}
    && RegularBlock(l.body) && BlockUnique(l.body) && BlockReturns(l.body) <= 1 && TypeOk(cx.returnType)
    && Yielded(EmitBlock(l.body, cx, Start(l)), l.carried).Some?
  }

  // The k-th induction value of the loop.
  predicate IvIs(l: Loop, iv: int, k: nat) {
    iv == IvNth(l.ib, l.sb, l.isAdd, l.iv.ty, k)
  }

  // The region arguments of iteration k are defined.
  lemma EntryAt(l: Loop, cx: Context, k: nat, cur: seq<nat>, env: Env, rho: Numbers) returns (entry: Env)
    requires LoopOk(l, cx, env) && WordsOf(cur, l.carried, rho) && k < l.trip
    ensures var env1 := Define(env, Counter(l.h), k % Pow2(INDEX_BITS));
            env1.Some? && DefineAll(env1.value, RegionArgs(l.h, l.inits), cur) == Some(entry)
    ensures EnvOk(entry) && Extends(env, entry) && Below(entry, l.h.b.next + 1 + |l.inits|)
    ensures Counter(l.h) in entry && entry[Counter(l.h)] == k
    ensures var args := RegionArgs(l.h, l.inits);
            forall i | 0 <= i < |l.carried| ::
              args[i] in entry && entry[args[i]] == cur[i] && args[i].ty == I(l.carried[i].ty.width)
  {
    hide Pow2, EmitBlock, RegularBlock, BlockUnique, BlockAssigned, BlockDecls, BlockReturns, Yielded, HeadHolds;
    TripFits(k);
    ModSmall(k, Pow2(INDEX_BITS));
    var env1 := env[Counter(l.h) := k];
    var args := RegionArgs(l.h, l.inits);
    ResultWords(l.carried, l.inits, args, cur, rho);
    DefineAllAt(env1, args, cur, l.h.b.next + 1);
    entry := DefineAll(env1, args, cur).value;
  }

  // The environment in which an iteration's body runs, and the bindings at its
  // start.
  lemma StartAt(l: Loop, cx: Context, k: nat, cur: seq<nat>, iv: int, env: Env, every: bool, rho: Numbers)
      returns (entry: Env, out: Env)
    requires LoopOk(l, cx, env) && Carry(l.vals, cx.consts, l.carried, cur, env, rho)
    requires k < l.trip && IvIs(l, iv, k)
    ensures var env1 := Define(env, Counter(l.h), k % Pow2(INDEX_BITS));
            env1.Some? && DefineAll(env1.value, RegionArgs(l.h, l.inits), cur) == Some(entry)
    ensures EnvOk(entry)
    ensures Synced(Start(l), cx, entry, out, every, rho[l.iv := iv])
  {
    hide Run, Vars, Define, DefineAll, Carry, EmitBlock, RegularBlock, BlockUnique, BlockAssigned, BlockReturns, Yielded, Lookup, Pow2, NumbersOk, IvRaw;
    CarryParts(l, cx, cur, env, rho);
    entry := EntryAt(l, cx, k, cur, env, rho);
    var b := Builder([], l.h.b.next + 1 + |l.inits|);
    assert At(b, entry, entry, every) by {
      EmptyAt(b, entry, every);
    }
    IvSteps(l.ib, l.sb, l.isAdd, l.iv.ty, k);
    out := IvAt(b, Counter(l.h), l.ib, l.sb, l.h.ivInit, l.h.ivStep, l.isAdd, k, l.iv.ty, entry, entry, every);
    var inner := EmitIv(b, Counter(l.h), l.iv.ty.width, l.h.ivInit, l.h.ivStep, l.isAdd);
    StartVars(l, cx, cur, iv, inner.v, env, out, rho);
  }

  lemma EmptyAt(b: Builder, env: Env, every: bool)
    requires b.block == [] && EnvOk(env) && Below(env, b.next)
    ensures At(b, env, env, every)
  {
  }

  lemma CarryParts(l: Loop, cx: Context, cur: seq<nat>, env: Env, rho: Numbers)
    requires LoopOk(l, cx, env) && Carry(l.vals, cx.consts, l.carried, cur, env, rho)
    ensures WordsOf(cur, l.carried, rho) && NumbersOk(rho)
    ensures forall x | x in l.carried :: x in l.vals
  {
  }

  lemma StartVars(l: Loop, cx: Context, cur: seq<nat>, iv: int, inner: Value, env: Env, out: Env, rho: Numbers)
    requires Carry(l.vals, cx.consts, l.carried, cur, env, rho) && NoDuplicates(l.carried)
    requires |l.inits| == |l.carried| && l.iv !in l.vals && l.iv !in l.carried && l.iv !in cx.consts
    requires forall x | x in l.carried :: x in l.vals
    requires Extends(env, out) && TypeOk(l.iv.ty)
    requires InRange(iv, l.iv.ty.width, l.iv.ty.signed)
    requires inner in out && inner.ty == I(l.iv.ty.width) && out[inner] == iv % Pow2(l.iv.ty.width)
    requires var args := RegionArgs(l.h, l.inits);
             forall i | 0 <= i < |l.carried| ::
               args[i] in out && out[args[i]] == cur[i] && args[i].ty == I(l.carried[i].ty.width)
    ensures NumbersOk(rho[l.iv := iv])
    ensures var vals := Rebind(l.vals[l.iv := inner], l.carried, RegionArgs(l.h, l.inits));
            Vars(vals, cx.consts, out, rho[l.iv := iv])
  {
    hide Rebind, Holding, WordOf, Pow2, NumOf, InRange, Wrap;
    var args := RegionArgs(l.h, l.inits);
    RebindGets(l.vals[l.iv := inner], l.carried, args);
    var vals, after := Rebind(l.vals[l.iv := inner], l.carried, args), rho[l.iv := iv];
    forall x | x in vals ensures x in after && Holding(out, vals[x], x.ty, after[x]) {
      if x in l.carried {
        var i :| 0 <= i < |l.carried| && l.carried[i] == x;
        HeldWord(out, args[i], x, rho, cur[i]);
      } else if x == l.iv {
        IvWord(x, iv, after);
        HeldWord(out, inner, x, after, iv % Pow2(x.ty.width));
      } else {
        HoldingExtends(env, out, l.vals[x], x.ty, rho[x]);
      }
    }
  }

  lemma IvWord(sym: Symbol, iv: int, rho: Numbers)
    requires TypeOk(sym.ty) && InRange(iv, sym.ty.width, sym.ty.signed)
    requires sym in rho && rho[sym] == iv
    ensures WordOf(iv % Pow2(sym.ty.width), sym, rho)
  {
  }

  lemma StartKeys(l: Loop)
    requires |l.inits| == |l.carried| && NoDuplicates(l.carried) && forall x | x in l.carried :: x in l.vals
    ensures Start(l).vals.Keys == l.vals.Keys + {l.iv}
  {
    var b := Builder([], l.h.b.next + 1 + |l.inits|);
    var inner := EmitIv(b, Counter(l.h), l.iv.ty.width, l.h.ivInit, l.h.ivStep, l.isAdd);
    RebindGets(l.vals[l.iv := inner.v], l.carried, RegionArgs(l.h, l.inits));
  }

  function BodyRegion(l: Loop, cx: Context): Region
    requires |l.inits| == |l.carried|
    requires Yielded(EmitBlock(l.body, cx, Start(l)), l.carried).Some?
  {
    Yielded(EmitBlock(l.body, cx, Start(l)), l.carried).value
  }

  // The loop operation, with given results.
  function OpOf(l: Loop, cx: Context, results: seq<Value>): Op
    requires |l.inits| == |l.carried|
    requires Yielded(EmitBlock(l.body, cx, Start(l)), l.carried).Some?
  {
    LoopOp(l.h, l.inits, BodyRegion(l, cx), results)
  }

  // The body is emitted from the bindings at its start.
  lemma BodyReady(l: Loop, cx: Context, env: Env)
    requires LoopOk(l, cx, env)
    ensures BlockReady(l.body, cx, Start(l))
  {
    StartKeys(l);
  }

  // One pass through the body, in both worlds.
  lemma {:induction false} BodyAt(l: Loop, cx: Context, k: nat, cur: seq<nat>, iv: int, env: Env, every: bool, m: Sense)
      returns (entry: Env)
    requires LoopOk(l, cx, env) && Carry(l.vals, cx.consts, l.carried, cur, env, m.vars)
    requires k < l.trip && IvIs(l, iv, k)
    ensures var env1 := Define(env, Counter(l.h), k % Pow2(INDEX_BITS));
            env1.Some? && DefineAll(env1.value, RegionArgs(l.h, l.inits), cur) == Some(entry)
    ensures EnvOk(entry)
    ensures var r, run := BodyRegion(l, cx), Run(BodyRegion(l, cx).ops, entry, every);
            && run.Some? && Fetch(run.value, r.outs).Some?
            && WordsOf(Fetch(run.value, r.outs).value, l.carried,
                       DoesBlock(l.body, m.(vars := m.vars[l.iv := iv])).vars)
            && |r.outs| == |l.carried| && forall i | 0 <= i < |l.carried| :: r.outs[i].ty == I(l.carried[i].ty.width)
    decreases l.body, 1, 0
  {
    hide Run, Vars, Define, DefineAll, Carry, IvIs, EmitBlock, Synced, BlockReady, WordsOf, Fetch, DoesBlock;
    var env2: Env;
    entry, env2 := StartAt(l, cx, k, cur, iv, env, every, m.vars);
    BodyReady(l, cx, env);
    var m0 := m.(vars := m.vars[l.iv := iv]);
    var out := BlockAt(l.body, cx, Start(l), entry, env2, every, m0);
    NotReturned(l, cx, entry, env2, out, every, m0);
    RegionAt(EmitBlock(l.body, cx, Start(l)).value, cx, l.carried, entry, out, every, DoesBlock(l.body, m0).vars);
  }

  lemma NotReturned(l: Loop, cx: Context, entry: Env, env: Env, out: Env, every: bool, m: Sense)
    requires |l.inits| == |l.carried| && Yielded(EmitBlock(l.body, cx, Start(l)), l.carried).Some?
    requires BlockDone(l.body, cx, Start(l), entry, env, every, m, out)
    ensures Synced(EmitBlock(l.body, cx, Start(l)).value, cx, entry, out, every, DoesBlock(l.body, m).vars)
  {
    hide EmitBlock, Synced, DoesBlock;
  }

  // The state the next iteration starts from.
  lemma NextCarry(l: Loop, cx: Context, cur: seq<nat>, next: seq<nat>, iv: int, env: Env, m: Sense)
    requires LoopOk(l, cx, env) && Carry(l.vals, cx.consts, l.carried, cur, env, m.vars)
    requires InRange(iv, l.iv.ty.width, l.iv.ty.signed)
    requires WordsOf(next, l.carried, DoesBlock(l.body, m.(vars := m.vars[l.iv := iv])).vars)
    ensures Carry(l.vals, cx.consts, l.carried, next, env, DoesBlock(l.body, m.(vars := m.vars[l.iv := iv])).vars)
  {
    hide DoesBlock, WordsOf, Holding, LoopOk, Wrap, BlockAssigned, BlockDecls, Pow2, NumOf, InRange, RegularBlock;
    var m0 := m.(vars := m.vars[l.iv := iv]);
    LoopSymbols(l, cx, env);
    DoesBlockFits(l.body, m0);
    DoesBlockTouches(l.body, m0);
  }

  // What the body leaves alone.
  lemma LoopSymbols(l: Loop, cx: Context, env: Env)
    requires LoopOk(l, cx, env)
    ensures RegularBlock(l.body) && TypeOk(l.iv.ty)
    ensures forall x | (x in l.vals && x !in l.carried) || (x in cx.consts && x !in l.vals) ::
              x !in BlockAssigned(l.body) + BlockDecls(l.body) && x != l.iv
  {
    hide EmitBlock, RegularBlock, BlockUnique, Yielded;
  }

  predicate Shaped(l: Loop, cx: Context, results: seq<Value>, env: Env)
    requires |l.inits| == |l.carried|
    requires Yielded(EmitBlock(l.body, cx, Start(l)), l.carried).Some?
  {
    LoopShape(OpOf(l, cx, results), env)
  }

  lemma {:induction false} IterationAt(l: Loop, cx: Context, results: seq<Value>, k: nat, cur: seq<nat>, iv: int,
                                       env: Env, every: bool, m: Sense)
    requires LoopOk(l, cx, env) && Carry(l.vals, cx.consts, l.carried, cur, env, m.vars)
    requires k < l.trip && IvIs(l, iv, k) && Shaped(l, cx, results, env) && |cur| == |l.carried|
    ensures var next := Iteration(OpOf(l, cx, results), k, cur, env, every);
            next.Some? && WordsOf(next.value, l.carried, DoesBlock(l.body, m.(vars := m.vars[l.iv := iv])).vars)
    decreases l.body, 2, 0
  {
    hide Run, Vars, Carry, IvIs, EmitBlock, WordsOf, DoesBlock, LoopOk, Start;
    LoopParts(l, cx, env);
    var entry := BodyAt(l, cx, k, cur, iv, env, every, m);
  }

  lemma LoopParts(l: Loop, cx: Context, env: Env)
    requires LoopOk(l, cx, env)
    ensures |l.inits| == |l.carried| && EnvOk(env)
    ensures Yielded(EmitBlock(l.body, cx, Start(l)), l.carried).Some?
    ensures TypeOk(l.iv.ty) && InRange(l.ib, l.iv.ty.width, l.iv.ty.signed)
  {
  }

  // From iteration k to the end of the loop.
  lemma {:induction false} LoopAt(l: Loop, cx: Context, results: seq<Value>, k: nat, cur: seq<nat>, iv: int,
                                  env: Env, every: bool, m: Sense)
    requires LoopOk(l, cx, env) && Carry(l.vals, cx.consts, l.carried, cur, env, m.vars)
    requires k <= l.trip && IvIs(l, iv, k) && Shaped(l, cx, results, env) && |cur| == |l.carried|
    ensures var r := Iterate(OpOf(l, cx, results), k, l.trip, 1, cur, env, every);
            r.Some? && WordsOf(r.value, l.carried, DoesLoop(l.body, l.trip - k, l.iv, iv, l.sb, l.isAdd, m).vars)
    decreases l.body, 3, l.trip - k
  {
    hide Run, Vars, Carry, EmitBlock, WordsOf, DoesBlock, LoopOk, Start, Iteration, LoopShape;
    LoopParts(l, cx, env);
    CarryParts(l, cx, cur, env, m.vars);
    if k < l.trip {
      IterationAt(l, cx, results, k, cur, iv, env, every, m);
      var next := Iteration(OpOf(l, cx, results), k, cur, env, every).value;
      IvSteps(l.ib, l.sb, l.isAdd, l.iv.ty, k);
      NextCarry(l, cx, cur, next, iv, env, m);
      var m1 := DoesBlock(l.body, m.(vars := m.vars[l.iv := iv]));
      LoopAt(l, cx, results, k + 1, next, NextIv(iv, l.sb, l.isAdd, l.iv.ty), env, every, m1);
    }
  }

  // The emitted loop's results, and the emitter after it.
  function LoopResults(l: Loop, cx: Context): (r: seq<Value>)
    requires |l.inits| == |l.carried|
    requires Yielded(EmitBlock(l.body, cx, Start(l)), l.carried).Some?
    ensures |r| == |l.inits|
  {
    FreshLike(l.inits, BodyRegion(l, cx).next)
  }

  function AfterLoop(l: Loop, cx: Context, g: Gen): Gen
    requires |l.inits| == |l.carried|
    requires Yielded(EmitBlock(l.body, cx, Start(l)), l.carried).Some?
  {
    var results := LoopResults(l, cx);
    Gen(Rebind(g.vals, l.carried, results),
        Builder(l.h.b.block + [OpOf(l, cx, results)], BodyRegion(l, cx).next + |results|), g.returned)
  }

  // The static part of a loop the emitter accepts.
  ghost predicate IsLoop(s: Stmt, cx: Context, g: Gen, l: Loop)
    requires s.For?
  {
    && l.iv == s.iv && l.isAdd == s.stepIsAdd && l.body == s.body && l.trip == s.trip && l.vals == g.vals
    && 0 < s.trip <= MAX_TRIP
    && Regular(s.init) && Regular(s.step) && TypeOk(s.iv.ty)
    && EmitHead(s.iv, s.init, s.step, s.trip, cx, g) == Some(l.h)
    && NoDuplicates(l.carried)
    && (forall x :: x in l.carried <==> x in BlockAssigned(l.body) && x != l.iv)
    && Lookup(l.vals, l.carried) == Some(l.inits)
    && l.iv !in l.vals && l.iv !in cx.consts
    && BlockDecls(l.body) !! l.vals.Keys + cx.consts.Keys + {l.iv}
    && RegularBlock(l.body) && BlockUnique(l.body) && BlockReturns(l.body) <= 1 && TypeOk(cx.returnType)
    && Yielded(EmitBlock(l.body, cx, Start(l)), l.carried).Some?
    && EmitStmt(s, cx, g) == Some(AfterLoop(l, cx, g))
  }

  // What readiness says of the parts of a loop that runs.
  lemma ForReady(s: Stmt, cx: Context, g: Gen)
    requires s.For? && Ready(s, cx, g) && s.trip > 0
    ensures EmitFor(s.iv, s.init, s.stepIsAdd, s.step, s.trip, s.body, cx, g) == EmitStmt(s, cx, g) && EmitStmt(s, cx, g).Some?
    ensures Regular(s.init) && Regular(s.step) && TypeOk(s.iv.ty) && TypeOk(cx.returnType) && !g.returned
    ensures s.iv !in g.vals && s.iv !in cx.consts && BlockDecls(s.body) !! g.vals.Keys + cx.consts.Keys + {s.iv}
    ensures RegularBlock(s.body) && BlockUnique(s.body) && BlockReturns(s.body) <= 1 && s.trip <= MAX_TRIP
    ensures var carried := RemoveSymbol(CollectBlock(s.body, []), s.iv);
            NoDuplicates(carried) && forall x :: x in carried <==> x in BlockAssigned(s.body) && x != s.iv
  {
    hide EmitFor, EmitExpr, Regular, RegularBlock, BlockUnique, CollectBlock, RemoveSymbol;
    assert EmitFor(s.iv, s.init, s.stepIsAdd, s.step, s.trip, s.body, cx, g) == EmitStmt(s, cx, g);
    CollectBlockIsAssigned(s.body, []);
    RemoveSymbolIs(CollectBlock(s.body, []), s.iv);
  }

  lemma ForSplit(s: Stmt, cx: Context, g: Gen, ib: int, sb: int) returns (l: Loop)
    requires s.For? && Ready(s, cx, g) && s.trip > 0
    ensures IsLoop(s, cx, g, l) && l.ib == ib && l.sb == sb
  {
    hide EmitExpr, Regular, EmitHead, EmitBlock, RegularBlock, BlockUnique, Rebind, CollectBlock, RemoveSymbol, Ready, EmitStmt;
    hide Yielded, Lookup, BlockDecls, BlockAssigned, BlockReturns;
    ForReady(s, cx, g);
    var carried := RemoveSymbol(CollectBlock(s.body, []), s.iv);
    var h := EmitHead(s.iv, s.init, s.step, s.trip, cx, g).value;
    l := Loop(s.iv, s.stepIsAdd, s.body, carried, Lookup(g.vals, carried).value, g.vals, h, ib, sb, s.trip);
  }

  // Entering the loop: the carried words are the variables', and the first
  // induction value is the header's.
  lemma EnterLoop(s: Stmt, cx: Context, g: Gen, l: Loop, env0: Env, env: Env, every: bool, rho: Numbers) returns (cur: seq<nat>)
    requires s.For? && IsLoop(s, cx, g, l) && NumbersOk(rho)
    requires At(l.h.b, env0, env, every) && Vars(l.vals, cx.consts, env, rho)
    requires HeadHolds(l.h, env, l.ib, l.sb, l.trip, l.iv.ty)
    ensures LoopOk(l, cx, env) && IvIs(l, l.ib, 0)
    ensures Fetch(env, l.inits) == Some(cur) && |cur| == |l.carried|
    ensures Carry(l.vals, cx.consts, l.carried, cur, env, rho)
  {
    hide EmitStmt, EmitHead, EmitBlock, Yielded, Regular, RegularBlock, BlockUnique, BlockAssigned, BlockDecls, Run, Pow2, WordOf;
    CarriedTypes(l.vals, cx.consts, l.carried, l.inits, env, rho);
    forall i | 0 <= i < |l.inits|
      ensures l.inits[i] in env && WordOf(env[l.inits[i]], l.carried[i], rho)
    {
      assert l.carried[i] in l.carried;
      VarWord(l.vals, cx.consts, env, rho, l.carried[i]);
    }
    cur := Fetch(env, l.inits).value;
  }

  lemma VarWord(vals: Bindings, consts: Constants, env: Env, rho: Numbers, x: Symbol)
    requires NumbersOk(rho) && Vars(vals, consts, env, rho) && x in vals
    ensures vals[x] in env && vals[x].ty == I(x.ty.width) && WordOf(env[vals[x]], x, rho)
  {
    assert Holding(env, vals[x], x.ty, rho[x]);
    RawOfNum(x.ty.width, x.ty.signed, env[vals[x]]);
  }

  // Executing the emitted loop: its results are the words after the last
  // iteration.
  lemma ForStep(op: Op, cur: seq<nat>, trip: nat, env: Env, every: bool)
    requires EnvOk(env) && op.ForOp? && LoopShape(op, env) && 0 < trip <= MAX_TRIP
    requires env[op.lb] == 0 && env[op.ub] == trip && env[op.step] == 1
    requires Fetch(env, op.inits) == Some(cur)
    requires Iterate(op, 0, trip, 1, cur, env, every).Some?
    ensures Step(op, env, every) == DefineAll(env, op.results, Iterate(op, 0, trip, 1, cur, env, every).value)
  {
    hide Iterate, DefineAll;
    TripFits(trip);
  }

  lemma LoopJoin(s: Stmt, cx: Context, g: Gen, l: Loop, words: seq<nat>, cur: seq<nat>, env0: Env, env: Env, every: bool,
                 before: Numbers, after: Numbers, changed: set<Symbol>) returns (out: Env)
    requires s.For? && IsLoop(s, cx, g, l) && LoopOk(l, cx, env)
    requires NumbersOk(before) && NumbersOk(after) && Apart(before, after, changed)
    requires forall x | x in changed && (x in l.vals || x in cx.consts) :: x in l.carried
    requires At(l.h.b, env0, env, every) && Vars(l.vals, cx.consts, env, before)
    requires Shaped(l, cx, LoopResults(l, cx), env) && Fetch(env, l.inits) == Some(cur)
    requires Iterate(OpOf(l, cx, LoopResults(l, cx)), 0, l.trip, 1, cur, env, every) == Some(words)
    requires WordsOf(words, l.carried, after)
    ensures Extends(env, out)
    ensures Synced(AfterLoop(l, cx, g), cx, env0, out, every, after)
    ensures AfterLoop(l, cx, g).vals.Keys == g.vals.Keys
  {
    hide Run, Step, Vars, EmitStmt, EmitHead, EmitBlock, Regular, RegularBlock, BlockUnique, BlockAssigned, BlockDecls, Iterate;
    hide WordsOf, Apart, NumbersOk, Pow2, BlockReturns;
    var results := LoopResults(l, cx);
    var op := OpOf(l, cx, results);
    ForStep(op, cur, l.trip, env, every);
    ResultWords(l.carried, l.inits, results, words, after);
    out := RegionOpAt(l.h.b, op, results, words, BodyRegion(l, cx).next, env0, env, every);
    MergeVars(l.vals, cx.consts, l.carried, results, words, env, out, before, after, changed);
  }

  lemma ForEffect(s: Stmt, cx: Context, g: Gen, l: Loop, m: Sense)
    requires s.For? && Ready(s, cx, g) && IsLoop(s, cx, g, l) && NumbersOk(m.vars)
    requires l.ib == Cut(s.iv.ty, Meant(s.init, m.vars))
    requires l.sb == Cut(s.iv.ty, Meant(s.step, m.vars))
    ensures NumbersOk(Does(s, m).vars)
    ensures Apart(m.vars, Does(s, m).vars, Assigned(s) + Decls(s))
    ensures Does(s, m) == DoesLoop(l.body, l.trip, l.iv, l.ib, l.sb, l.isAdd, m)
    ensures forall x | x in Assigned(s) + Decls(s) && (x in l.vals || x in cx.consts) :: x in l.carried
  {
    hide Meant, Regular, EmitStmt, EmitHead, EmitBlock, Yielded, RegularBlock, BlockUnique, NumbersOk, Apart;
    DoesFits(s, m);
    DoesTouches(s, m);
  }

  lemma ForKept(s: Stmt, cx: Context, g: Gen, l: Loop, env0: Env, env: Env, every: bool, m: Sense, out: Env)
    requires s.For? && Ready(s, cx, g) && IsLoop(s, cx, g, l)
    requires Extends(env, out) && Synced(AfterLoop(l, cx, g), cx, env0, out, every, Does(s, m).vars)
    requires AfterLoop(l, cx, g).vals.Keys == g.vals.Keys
    ensures Kept(s, cx, g, env0, env, every, m, out)
  {
    hide EmitStmt, EmitHead, EmitBlock, RegularStmt, UniqueDecls, Synced, Yielded, Does, Extends;
  }

  // The loop operation has the shape the dialect asks for.
  lemma {:induction false} ShapeAt(l: Loop, cx: Context, cur: seq<nat>, env: Env, every: bool, m: Sense)
    requires LoopOk(l, cx, env) && Carry(l.vals, cx.consts, l.carried, cur, env, m.vars)
    requires 0 < l.trip && IvIs(l, l.ib, 0)
    ensures Shaped(l, cx, LoopResults(l, cx), env)
    decreases l.body, 2, 0
  {
    hide Run, Vars, Carry, EmitBlock, WordsOf, DoesBlock, Fetch, DefineAll, Define;
    var entry := BodyAt(l, cx, 0, cur, l.ib, env, every, m);
  }

  lemma {:induction false} ForAt(s: Stmt, cx: Context, g: Gen, env0: Env, env: Env, every: bool, m: Sense)
      returns (out: Env)
    requires s.For? && Ready(s, cx, g) && Synced(g, cx, env0, env, every, m.vars)
    ensures Kept(s, cx, g, env0, env, every, m, out)
    decreases s, 1, 0
  {
    if s.trip == 0 {
      out := env;
      EmptyLoop(s, cx, g, env0, env, every, m);
    } else {
      hide *;
      var ib, sb := Cut(s.iv.ty, Meant(s.init, m.vars)), Cut(s.iv.ty, Meant(s.step, m.vars));
      var l := ForSplit(s, cx, g, ib, sb);
      var env1 := HeadOf(s, cx, g, l, env0, env, every, m.vars);
      out := ForBody(s, cx, g, l, env0, env1, every, m);
      KeptFrom(s, cx, g, env0, env, env1, every, m, out);
    }
  }

  lemma EmptyLoop(s: Stmt, cx: Context, g: Gen, env0: Env, env: Env, every: bool, m: Sense)
    requires s.For? && s.trip == 0 && Ready(s, cx, g) && Synced(g, cx, env0, env, every, m.vars)
    ensures Kept(s, cx, g, env0, env, every, m, env)
  {
    hide Synced, RegularStmt, UniqueDecls;
    var iv := Cut(s.iv.ty, Meant(s.init, m.vars));
    var step := Cut(s.iv.ty, Meant(s.step, m.vars));
    assert DoesLoop(s.body, 0, s.iv, iv, step, s.stepIsAdd, m) == m;
    assert Does(s, m) == m && EmitStmt(s, cx, g) == Some(g);
  }

  lemma HeadOf(s: Stmt, cx: Context, g: Gen, l: Loop, env0: Env, env: Env, every: bool, rho: Numbers) returns (out: Env)
    requires s.For? && IsLoop(s, cx, g, l) && Synced(g, cx, env0, env, every, rho)
    requires l.ib == Cut(s.iv.ty, Meant(s.init, rho))
    requires l.sb == Cut(s.iv.ty, Meant(s.step, rho))
    ensures Extends(env, out) && NumbersOk(rho)
    ensures At(l.h.b, env0, out, every) && Vars(l.vals, cx.consts, out, rho)
    ensures HeadHolds(l.h, out, l.ib, l.sb, l.trip, l.iv.ty)
  {
    hide EmitStmt, EmitHead, EmitBlock, Yielded, At, Vars, HeadHolds, Regular, Meant, NumbersOk;
    SyncedParts(g, cx, env0, env, every, rho);
    out := HeadAt(s.iv, s.init, s.step, s.trip, cx, g, env0, env, every, rho);
  }

  lemma {:induction false} ForBody(s: Stmt, cx: Context, g: Gen, l: Loop, env0: Env, env: Env, every: bool, m: Sense)
      returns (out: Env)
    requires s.For? && Ready(s, cx, g) && IsLoop(s, cx, g, l) && NumbersOk(m.vars)
    requires l.ib == Cut(s.iv.ty, Meant(s.init, m.vars))
    requires l.sb == Cut(s.iv.ty, Meant(s.step, m.vars))
    requires At(l.h.b, env0, env, every) && Vars(l.vals, cx.consts, env, m.vars)
    requires HeadHolds(l.h, env, l.ib, l.sb, l.trip, l.iv.ty)
    ensures Kept(s, cx, g, env0, env, every, m, out)
    decreases s, 0, 0
  {
    hide At, Vars, HeadHolds, Meant, EmitStmt, EmitBlock, Ready, NumbersOk, Carry, IvIs, Iterate, WordsOf, Yielded, Start, LoopShape;
    hide EmitHead, Regular, RegularBlock, BlockUnique, BlockAssigned, BlockDecls, Kept, Synced, Apart, Fetch, Rebind, Extends;
    var cur := EnterLoop(s, cx, g, l, env0, env, every, m.vars);
    ShapeAt(l, cx, cur, env, every, m);
    LoopAt(l, cx, LoopResults(l, cx), 0, cur, l.ib, env, every, m);
    ForEffect(s, cx, g, l, m);
    var words := Iterate(OpOf(l, cx, LoopResults(l, cx)), 0, l.trip, 1, cur, env, every).value;
    out := LoopJoin(s, cx, g, l, words, cur, env0, env, every, m.vars, Does(s, m).vars, Assigned(s) + Decls(s));
    ForKept(s, cx, g, l, env0, env, every, m, out);
  }

  lemma KeptFrom(s: Stmt, cx: Context, g: Gen, env0: Env, env: Env, env1: Env, every: bool, m: Sense, out: Env)
    requires EmitStmt(s, cx, g).Some? && Extends(env, env1) && Kept(s, cx, g, env0, env1, every, m, out)
    ensures Kept(s, cx, g, env0, env, every, m, out)
  {
    hide EmitStmt, Does, Outcome;
  }
}
