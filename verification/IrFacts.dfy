/**
 An execution that visits every operation is an ordinary execution, and is only
 possible for verified code.
 */
module IrFacts {
  import opened Arith
  import opened FixedWidth
  import opened Ir
  import opened Wrappers

  // ------------------------------------------------- refining the exhaustive run

  lemma {:induction false} EveryRefines(ops: seq<Op>, env: Env)
    requires EnvOk(env) && Run(ops, env, true).Some?
    ensures Run(ops, env, false) == Run(ops, env, true)
    decreases ops, 0, 0
  {
    if ops != [] {
      EveryRefines(ops[..|ops| - 1], env);
      EveryRefinesStep(ops[|ops| - 1], Run(ops[..|ops| - 1], env, true).value);
    }
  }

  lemma {:induction false} EveryRefinesStep(op: Op, env: Env)
    requires EnvOk(env) && Step(op, env, true).Some?
    ensures Step(op, env, false) == Step(op, env, true)
    decreases op, 2, 0
  {
    match op
    case IfOp(results, c, thenOps, thenYield, elseOps, elseYield) =>
      EveryRefines(thenOps, env);
      EveryRefines(elseOps, env);
    case ForOp(results, lb, ub, step, inits, _, _, _, _) =>
      var cur := Fetch(env, inits);
      var l, u, s := Signed(INDEX_BITS, env[lb]), Signed(INDEX_BITS, env[ub]), Signed(INDEX_BITS, env[step]);
      EveryRefinesLoop(op, l, u, s, cur.value, env);
    case _ =>
  }

  lemma {:induction false} EveryRefinesLoop(op: Op, k: int, ub: int, step: int, cur: seq<nat>, env: Env)
    requires EnvOk(env) && op.ForOp? && step > 0 && LoopShape(op, env) && |cur| == |op.args|
    requires Iterate(op, k, ub, step, cur, env, true).Some?
    ensures Iterate(op, k, ub, step, cur, env, false) == Iterate(op, k, ub, step, cur, env, true)
    decreases op, 1, if k < ub then ub - k else 0
  {
    if k < ub {
      EveryRefinesIteration(op, k, cur, env);
      EveryRefinesLoop(op, k + step, ub, step, Iteration(op, k, cur, env, true).value, env);
    }
  }

  lemma {:induction false} EveryRefinesIteration(op: Op, k: int, cur: seq<nat>, env: Env)
    requires EnvOk(env) && op.ForOp? && LoopShape(op, env) && |cur| == |op.args|
    requires Iteration(op, k, cur, env, true).Some?
    ensures Iteration(op, k, cur, env, false) == Iteration(op, k, cur, env, true)
    decreases op, 0, 0
  {
    var env1 := Define(env, op.iv, k % Pow2(INDEX_BITS)).value;
    DefineAllOk(env1, op.args, cur);
    EveryRefines(op.body, DefineAll(env1, op.args, cur).value);
  }

  // ------------------------------------------------------ it verifies the code

  lemma {:induction false} DefineAllFresh(env: Env, vs: seq<Value>, raws: seq<nat>)
    requires |vs| == |raws| && DefineAll(env, vs, raws).Some?
    ensures Fresh(env.Keys, vs) == Some(DefineAll(env, vs, raws).value.Keys)
    decreases |vs|
  {
    if vs != [] {
      var env1 := Define(env, vs[0], raws[0]).value;
      assert env1.Keys == env.Keys + {vs[0]};
      DefineAllFresh(env1, vs[1..], raws[1..]);
    }
  }

  // Exhaustively executable code passes the verifier, with the same definitions.
  lemma {:induction false} RunVerifies(ops: seq<Op>, env: Env)
    requires EnvOk(env) && Run(ops, env, true).Some?
    ensures Verify(ops, env.Keys) == Some(Run(ops, env, true).value.Keys)
    decreases ops, 0, 0
  {
    if ops != [] {
      RunVerifies(ops[..|ops| - 1], env);
      StepVerifies(ops[|ops| - 1], Run(ops[..|ops| - 1], env, true).value);
    }
  }

  lemma {:induction false} StepVerifies(op: Op, env: Env)
    requires EnvOk(env) && Step(op, env, true).Some?
    ensures VerifyOp(op, env.Keys) == Some(Step(op, env, true).value.Keys)
    decreases op, 2, 0
  {
    match op
    case IfOp(results, c, thenOps, thenYield, elseOps, elseYield) =>
      RunVerifies(thenOps, env);
      RunVerifies(elseOps, env);
      var t := Arm(thenOps, thenYield, env, true, env[c] != 0);
      var e := Arm(elseOps, elseYield, env, true, env[c] == 0);
      DefineAllFresh(env, results, if env[c] != 0 then t.value else e.value);
    case ForOp(results, lb, ub, step, inits, _, _, _, _) =>
      var cur := Fetch(env, inits);
      var l, u, s := Signed(INDEX_BITS, env[lb]), Signed(INDEX_BITS, env[ub]), Signed(INDEX_BITS, env[step]);
      LoopVerifies(op, l, u, s, cur.value, env);
      DefineAllFresh(env, results, Iterate(op, l, u, s, cur.value, env, true).value);
    case _ =>
      SimpleVerifies(op, env);
  }

  lemma SimpleVerifies(op: Op, env: Env)
    requires EnvOk(env) && !op.IfOp? && !op.ForOp? && SimpleStep(op, env).Some?
    ensures VerifyOp(op, env.Keys) == Some(SimpleStep(op, env).value.Keys)
  {
    FreshOne(env.Keys, op.res);
    assert SimpleStep(op, env).value.Keys == env.Keys + {op.res};
  }

  lemma FreshOne(defs: set<Value>, res: Value)
    ensures res !in defs && BitsOf(res.ty) > 0 ==> Fresh(defs, [res]) == Some(defs + {res})
  {
    assert [res][1..] == [];
  }

  // One iteration is enough to verify a body.
  lemma {:induction false} LoopVerifies(op: Op, k: int, ub: int, step: int, cur: seq<nat>, env: Env)
    requires EnvOk(env) && op.ForOp? && step > 0 && LoopShape(op, env) && |cur| == |op.args|
    requires k < ub && Iterate(op, k, ub, step, cur, env, true).Some?
    ensures var inner := Fresh(env.Keys, [op.iv] + op.args);
            && inner.Some?
            && var b := Verify(op.body, inner.value); b.Some? && Defined(b.value, op.outs)
    decreases op, 1, 0
  {
    var env1 := Define(env, op.iv, k % Pow2(INDEX_BITS)).value;
    var env2 := DefineAll(env1, op.args, cur).value;
    assert env1.Keys == env.Keys + {op.iv};
    DefineAllFresh(env1, op.args, cur);
    assert ([op.iv] + op.args)[1..] == op.args;
    DefineAllOk(env1, op.args, cur);
    RunVerifies(op.body, env2);
  }

  // A call that can run exhaustively is the ordinary call of a verified function.
  lemma CallVerifies(f: Func, inputs: seq<nat>)
    requires Call(f, inputs, true).Some?
    ensures VerifyFunc(f)
    ensures Call(f, inputs, false) == Call(f, inputs, true)
  {
    var env := DefineAll(map[], f.args, inputs).value;
    DefineAllOk(map[], f.args, inputs);
    var empty: Env := map[];
    assert empty.Keys == {};
    DefineAllFresh(empty, f.args, inputs);
    RunVerifies(f.body[..|f.body| - 1], env);
    EveryRefines(f.body[..|f.body| - 1], env);
  }

  // ------------------------------------------------------ definitions are final

  lemma {:induction false} DefineAllExtends(env: Env, vs: seq<Value>, raws: seq<nat>)
    requires |vs| == |raws| && DefineAll(env, vs, raws).Some?
    ensures forall v | v in env :: v in DefineAll(env, vs, raws).value && DefineAll(env, vs, raws).value[v] == env[v]
    decreases |vs|
  {
    if vs != [] {
      DefineAllExtends(Define(env, vs[0], raws[0]).value, vs[1..], raws[1..]);
    }
  }

  // No execution changes a value already defined.
  lemma {:induction false} RunExtends(ops: seq<Op>, env: Env, every: bool)
    requires EnvOk(env) && Run(ops, env, every).Some?
    ensures forall v | v in env :: v in Run(ops, env, every).value && Run(ops, env, every).value[v] == env[v]
    decreases |ops|
  {
    hide Step;
    if ops != [] {
      RunExtends(ops[..|ops| - 1], env, every);
      StepExtends(ops[|ops| - 1], Run(ops[..|ops| - 1], env, every).value, every);
    }
  }

  lemma StepExtends(op: Op, env: Env, every: bool)
    requires EnvOk(env) && Step(op, env, every).Some?
    ensures forall v | v in env :: v in Step(op, env, every).value && Step(op, env, every).value[v] == env[v]
  {
    hide DefineAll, Run, Iterate, ArithSem, CmpSem, Pow2, NumOf;
    match op
    case IfOp(results, c, thenOps, thenYield, elseOps, elseYield) =>
      var t := Arm(thenOps, thenYield, env, every, env[c] != 0).value;
      var e := Arm(elseOps, elseYield, env, every, env[c] == 0).value;
      DefineAllExtends(env, results, if env[c] != 0 then t else e);
    case ForOp(results, lb, ub, step, inits, _, _, _, _) =>
      var l, u, s := Signed(INDEX_BITS, env[lb]), Signed(INDEX_BITS, env[ub]), Signed(INDEX_BITS, env[step]);
      DefineAllExtends(env, results, Iterate(op, l, u, s, Fetch(env, inits).value, env, every).value);
    case _ =>
  }
}
