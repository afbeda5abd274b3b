/**
 A small SSA intermediate representation: the operations of the func, arith and
 scf dialects that the emitter builds, with a semantics of their own.

 Integers are signless words.  An operation the dialect leaves undefined
 (division by zero, signed overflow in a division, a shift by the width or more)
 and an ill-formed one (an operand not defined here or in an enclosing region, a
 type mismatch, a second definition) have no result.
 */
module Ir {
  import opened Arith
  import opened FixedWidth
  import opened Wrappers

  datatype IrType = I(width: nat) | Index

  const INDEX_BITS: nat := 64

  function BitsOf(t: IrType): nat {
    if t.I? then t.width else INDEX_BITS
  }

  // An SSA value carries its type, as mlir::Value does.
  datatype Value = Value(id: nat, ty: IrType)

  datatype ArithOp =
    | AddI | SubI | MulI | DivSI | DivUI | RemSI | RemUI
    | AndI | OrI | XOrI | ShLI | ShRSI | ShRUI

  datatype CmpIPredicate = CEq | CNe | Slt | Sle | Sgt | Sge | Ult | Ule | Ugt | Uge

  datatype Op =
    | ConstOp(res: Value, raw: nat)
    | ExtOp(res: Value, signed: bool, arg: Value)
    | TruncOp(res: Value, arg: Value)
    | BinOp(res: Value, op: ArithOp, a: Value, b: Value)
    | CmpOp(res: Value, pred: CmpIPredicate, a: Value, b: Value)
    | SelectOp(res: Value, c: Value, t: Value, f: Value)
    | IndexCastOp(res: Value, arg: Value)
    | IfOp(results: seq<Value>, c: Value,
           thenOps: seq<Op>, thenYield: seq<Value>, elseOps: seq<Op>, elseYield: seq<Value>)
    | ForOp(results: seq<Value>, lb: Value, ub: Value, step: Value, inits: seq<Value>,
            iv: Value, args: seq<Value>, body: seq<Op>, outs: seq<Value>)
    | ReturnOp(v: Value)

  datatype Func = Func(args: seq<Value>, resultType: IrType, body: seq<Op>)

  type Env = map<Value, nat>

  // ---------------------------------------------------------------- arithmetic

  function Signed(w: nat, x: nat): int
    requires 0 < w && x < Pow2(w)
  {
    NumOf(w, true, x)
  }

  function ArithSem(op: ArithOp, w: nat, x: nat, y: nat): (r: Option<nat>)
    requires 0 < w && x < Pow2(w) && y < Pow2(w)
    ensures r.Some? ==> r.value < Pow2(w)
  {
    var m := Pow2(w);
    match op
    case AddI => Some((x + y) % m)
    case SubI => Some((x - y) % m)
    case MulI => Some(x * y % m)
    case DivUI => if y == 0 then None else Some(x / y % m)
    case RemUI => if y == 0 then None else Some(x % y % m)
    case DivSI =>
      if y == 0 || (Signed(w, x) + Pow2(w - 1) == 0 && Signed(w, y) == -1) then None
      else Some(TruncDiv(Signed(w, x), Signed(w, y)) % m)
    case RemSI => if y == 0 then None else Some(TruncRem(Signed(w, x), Signed(w, y)) % m)
    case AndI => Some(BitOp(AndF, x, y, w))
    case OrI => Some(BitOp(OrF, x, y, w))
    case XOrI => Some(BitOp(XorF, x, y, w))
    case ShLI => if y >= w then None else Some(x * Pow2(y) % m)
    case ShRUI => if y >= w then None else Some(x / Pow2(y) % m)
    case ShRSI => if y >= w then None else Some(Signed(w, x) / Pow2(y) % m)
  }

  predicate CmpSem(p: CmpIPredicate, w: nat, x: nat, y: nat)
    requires 0 < w && x < Pow2(w) && y < Pow2(w)
  {
    match p
    case CEq => x == y
    case CNe => x != y
    case Slt => Signed(w, x) < Signed(w, y)
    case Sle => Signed(w, x) <= Signed(w, y)
    case Sgt => Signed(w, x) > Signed(w, y)
    case Sge => Signed(w, x) >= Signed(w, y)
    case Ult => x < y
    case Ule => x <= y
    case Ugt => x > y
    case Uge => x >= y
  }

  // ------------------------------------------------------------------- execution

  // A defined value is a word of its type.
  predicate Word(v: Value, raw: nat) {
    BitsOf(v.ty) > 0 && raw < Pow2(BitsOf(v.ty))
  }

  predicate EnvOk(env: Env) {
    forall v | v in env :: Word(v, env[v])
  }

  function Define(env: Env, res: Value, raw: nat): (r: Option<Env>)
    ensures r.Some? && EnvOk(env) ==> EnvOk(r.value)
  {
    if res in env || !Word(res, raw) then None else Some(env[res := raw])
  }

  function DefineAll(env: Env, vs: seq<Value>, raws: seq<nat>): Option<Env>
    requires |vs| == |raws|
    decreases |vs|
  {
    if vs == [] then Some(env)
    else
      var env1 :- Define(env, vs[0], raws[0]);
      DefineAll(env1, vs[1..], raws[1..])
  }

  predicate Types(vs: seq<Value>, ws: seq<Value>) {
    |vs| == |ws| && forall i | 0 <= i < |vs| :: vs[i].ty == ws[i].ty
  }

  function Fetch(env: Env, vs: seq<Value>): (r: Option<seq<nat>>)
    ensures r.Some? <==> forall i | 0 <= i < |vs| :: vs[i] in env
    ensures r.Some? ==> |r.value| == |vs| && forall i | 0 <= i < |vs| :: r.value[i] == env[vs[i]]
  {
    if forall i | 0 <= i < |vs| :: vs[i] in env then
      Some(seq(|vs|, i requires 0 <= i < |vs| => env[vs[i]]))
    else None
  }

  function SimpleStep(op: Op, env: Env): (r: Option<Env>)
    requires EnvOk(env)
    ensures r.Some? ==> EnvOk(r.value)
  {
    match op
    case ConstOp(res, raw) => Define(env, res, raw)
    case ExtOp(res, signed, arg) =>
      if arg in env && arg.ty.I? && res.ty.I? && arg.ty.width < res.ty.width then
        Define(env, res, NumOf(arg.ty.width, signed, env[arg]) % Pow2(res.ty.width))
      else None
    case TruncOp(res, arg) =>
      if arg in env && arg.ty.I? && res.ty.I? && res.ty.width < arg.ty.width then
        Define(env, res, env[arg] % Pow2(res.ty.width))
      else None
    case BinOp(res, op, a, b) =>
      if a in env && b in env && a.ty.I? && a.ty == b.ty == res.ty then
        var r :- ArithSem(op, a.ty.width, env[a], env[b]);
        Define(env, res, r)
      else None
    case CmpOp(res, p, a, b) =>
      if a in env && b in env && a.ty.I? && a.ty == b.ty && res.ty == I(1) then
        Define(env, res, if CmpSem(p, a.ty.width, env[a], env[b]) then 1 else 0)
      else None
    case SelectOp(res, c, t, f) =>
      if c in env && t in env && f in env && c.ty == I(1) && t.ty == f.ty == res.ty then
        Define(env, res, if env[c] != 0 then env[t] else env[f])
      else None
    case IndexCastOp(res, arg) =>
      if arg in env && arg.ty == Index && res.ty.I? then
        Define(env, res, NumOf(INDEX_BITS, true, env[arg]) % Pow2(res.ty.width))
      else None
    case _ => None
  }

  predicate LoopShape(op: Op, env: Env)
    requires op.ForOp?
  {
    && op.lb in env && op.ub in env && op.step in env
    && op.lb.ty == op.ub.ty == op.step.ty == op.iv.ty == Index
    && Types(op.inits, op.args) && Types(op.inits, op.results) && Types(op.inits, op.outs)
  }

  // With `every`, an execution that runs every operation of the code at least
  // once: both arms of an `if`, and at least one iteration of a `for`.
  function Step(op: Op, env: Env, every: bool): (r: Option<Env>)
    requires EnvOk(env)
    ensures r.Some? ==> EnvOk(r.value)
    decreases op, 2, 0
  {
    match op
    case IfOp(results, c, thenOps, thenYield, elseOps, elseYield) =>
      if c in env && c.ty == I(1) && Types(results, thenYield) && Types(results, elseYield) then
        var taken := env[c] != 0;
        var t :- Arm(thenOps, thenYield, env, every, taken);
        var e :- Arm(elseOps, elseYield, env, every, !taken);
        DefineAllOk(env, results, if taken then t else e);
        DefineAll(env, results, if taken then t else e)
      else None
    case ForOp(results, lb, ub, step, inits, _, _, _, _) =>
      if LoopShape(op, env) then
        var cur :- Fetch(env, inits);
        var l, u, s := Signed(INDEX_BITS, env[lb]), Signed(INDEX_BITS, env[ub]), Signed(INDEX_BITS, env[step]);
        if s <= 0 || (every && l >= u) then None
        else
          var out :- Iterate(op, l, u, s, cur, env, every);
          DefineAllOk(env, results, out);
          DefineAll(env, results, out)
      else None
    case _ =>
      SimpleStep(op, env)
  }

  // One arm of an `if`: its yielded words.  An arm that need not run outs
  // nothing of interest.
  function Arm(ops: seq<Op>, outs: seq<Value>, env: Env, every: bool, taken: bool): (r: Option<seq<nat>>)
    requires EnvOk(env)
    ensures r.Some? ==> |r.value| == |outs|
    decreases ops, 1, 0
  {
    if every || taken then
      var inner :- Run(ops, env, every);
      Fetch(inner, outs)
    else Some(seq(|outs|, _ => 0))
  }

  // One iteration: the induction value and the carried words in, the yielded
  // words out.
  function Iteration(op: Op, k: int, cur: seq<nat>, env: Env, every: bool): (r: Option<seq<nat>>)
    requires EnvOk(env) && op.ForOp? && LoopShape(op, env) && |cur| == |op.args|
    ensures r.Some? ==> |r.value| == |op.args|
    decreases op, 0, 0
  {
    var env1 :- Define(env, op.iv, k % Pow2(INDEX_BITS));
    var env2 :- DefineAll(env1, op.args, cur);
    DefineAllOk(env1, op.args, cur);
    var inner :- Run(op.body, env2, every);
    Fetch(inner, op.outs)
  }

  function Iterate(op: Op, k: int, ub: int, step: int, cur: seq<nat>, env: Env, every: bool): (r: Option<seq<nat>>)
    requires EnvOk(env) && op.ForOp? && step > 0 && LoopShape(op, env) && |cur| == |op.args|
    ensures r.Some? ==> |r.value| == |op.args|
    decreases op, 1, if k < ub then ub - k else 0
  {
    if k >= ub then Some(cur)
    else
      var next :- Iteration(op, k, cur, env, every);
      Iterate(op, k + step, ub, step, next, env, every)
  }

  // Operations run in order; the last one is split off first.
  function Run(ops: seq<Op>, env: Env, every: bool): (r: Option<Env>)
    requires EnvOk(env)
    ensures r.Some? ==> EnvOk(r.value)
    decreases ops, 0, 0
  {
    if ops == [] then Some(env)
    else
      var env1 :- Run(ops[..|ops| - 1], env, every);
      Step(ops[|ops| - 1], env1, every)
  }

  lemma DefineAllOk(env: Env, vs: seq<Value>, raws: seq<nat>)
    requires EnvOk(env) && |vs| == |raws|
    ensures var r := DefineAll(env, vs, raws); r.Some? ==> EnvOk(r.value)
    decreases |vs|
  {
    if vs != [] {
      var r := Define(env, vs[0], raws[0]);
      if r.Some? {
        DefineAllOk(r.value, vs[1..], raws[1..]);
      }
    }
  }

  // A call: bind the arguments, run the body up to the `return` that ends it.
  function Call(f: Func, inputs: seq<nat>, every: bool): Option<nat> {
    if |inputs| != |f.args| || f.body == [] then None
    else
      var last := f.body[|f.body| - 1];
      if !last.ReturnOp? || last.v.ty != f.resultType then None
      else
        DefineAllOk(map[], f.args, inputs);
        var env :- DefineAll(map[], f.args, inputs);
        var env1 :- Run(f.body[..|f.body| - 1], env, every);
        if last.v in env1 then Some(env1[last.v]) else None
  }

  // ---------------------------------------------------------------- verification

  // The structural verifier: every operand is defined earlier in the same or an
  // enclosing region, types agree, and no value is defined twice.
  function Fresh(defs: set<Value>, vs: seq<Value>): Option<set<Value>>
    decreases |vs|
  {
    if vs == [] then Some(defs)
    else if vs[0] in defs || BitsOf(vs[0].ty) == 0 then None
    else Fresh(defs + {vs[0]}, vs[1..])
  }

  predicate Defined(defs: set<Value>, vs: seq<Value>) {
    forall i | 0 <= i < |vs| :: vs[i] in defs
  }

  predicate Operands(op: Op, defs: set<Value>)
    requires !op.IfOp? && !op.ForOp? && !op.ReturnOp?
  {
    match op
    case ConstOp(res, raw) => Word(res, raw)
    case ExtOp(res, _, arg) => arg in defs && arg.ty.I? && res.ty.I? && arg.ty.width < res.ty.width
    case TruncOp(res, arg) => arg in defs && arg.ty.I? && res.ty.I? && res.ty.width < arg.ty.width
    case BinOp(res, _, a, b) => a in defs && b in defs && a.ty.I? && a.ty == b.ty == res.ty
    case CmpOp(res, _, a, b) => a in defs && b in defs && a.ty.I? && a.ty == b.ty && res.ty == I(1)
    case SelectOp(res, c, t, f) => c in defs && t in defs && f in defs && c.ty == I(1) && t.ty == f.ty == res.ty
    case IndexCastOp(res, arg) => arg in defs && arg.ty == Index && res.ty.I?
  }

  function VerifyOp(op: Op, defs: set<Value>): Option<set<Value>>
    decreases op, 0
  {
    match op
    case IfOp(results, c, thenOps, thenYield, elseOps, elseYield) =>
      var t :- Verify(thenOps, defs);
      var e :- Verify(elseOps, defs);
      if && c in defs && c.ty == I(1) && Types(results, thenYield) && Types(results, elseYield)
         && Defined(t, thenYield) && Defined(e, elseYield)
      then Fresh(defs, results) else None
    case ForOp(results, lb, ub, step, inits, iv, args, body, outs) =>
      var inner :- Fresh(defs, [iv] + args);
      var b :- Verify(body, inner);
      if && lb in defs && ub in defs && step in defs
         && lb.ty == ub.ty == step.ty == iv.ty == Index
         && Types(inits, args) && Types(inits, results) && Types(inits, outs)
         && Defined(defs, inits) && Defined(b, outs)
      then Fresh(defs, results) else None
    case ReturnOp(_) => None
    case _ => if Operands(op, defs) then Fresh(defs, [op.res]) else None
  }

  function Verify(ops: seq<Op>, defs: set<Value>): Option<set<Value>>
    decreases ops, 0
  {
    if ops == [] then Some(defs)
    else
      var d :- Verify(ops[..|ops| - 1], defs);
      VerifyOp(ops[|ops| - 1], d)
  }

  // A verified function: a verified body ended by its only `return`.
  predicate VerifyFunc(f: Func) {
    && f.body != []
    && var last := f.body[|f.body| - 1];
       && last.ReturnOp? && last.v.ty == f.resultType
       && var args := Fresh({}, f.args);
          && args.Some?
          && var d := Verify(f.body[..|f.body| - 1], args.value);
             d.Some? && last.v in d.value
  }

  predicate HasLoop(op: Op)
    decreases op, 0
  {
    match op
    case ForOp(_, _, _, _, _, _, _, _, _) => true
    case IfOp(_, _, t, _, e, _) => AnyLoop(t) || AnyLoop(e)
    case _ => false
  }

  predicate AnyLoop(ops: seq<Op>)
    decreases ops, 0
  {
    ops != [] && (AnyLoop(ops[..|ops| - 1]) || HasLoop(ops[|ops| - 1]))
  }
}
