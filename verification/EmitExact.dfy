/**
 The operations emitted for an expression compute the number the language gives
 it, in every environment that binds the variables; in particular no guarded
 operation is ever undefined.
 */
module EmitExact {
  import opened Arith
  import opened FixedWidth
  import opened Ast
  import opened Meaning
  import opened Ir
  import opened Wrappers
  import opened Emit

  // Running the block so far, from env0, has reached env.
  predicate At(b: Builder, env0: Env, env: Env, every: bool) {
    && EnvOk(env0) && EnvOk(env)
    && Run(b.block, env0, every) == Some(env)
    && forall v | v in env :: v.id < b.next
  }

  predicate Extends(before: Env, after: Env) {
    before.Keys <= after.Keys && forall v | v in before :: after[v] == before[v]
  }

  // The value v, of the width of t, holds the number n.
  predicate Holding(env: Env, v: Value, t: Type, n: int) {
    && TypeOk(t)
    && v in env && v.ty == I(t.width) && env[v] < Pow2(t.width)
    && NumOf(t.width, t.signed, env[v]) == n
  }

  lemma RunAppend(ops: seq<Op>, op: Op, env0: Env, every: bool)
    requires EnvOk(env0)
    ensures Run(ops + [op], env0, every) ==
            (var r := Run(ops, env0, every); if r.None? then None else Step(op, r.value, every))
  {
    assert (ops + [op])[..|ops|] == ops;
  }

  lemma RunAppended(ops: seq<Op>, op: Op, env0: Env, env: Env, after: Env, every: bool)
    requires EnvOk(env0) && EnvOk(env) && !op.IfOp? && !op.ForOp?
    requires Run(ops, env0, every) == Some(env) && SimpleStep(op, env) == Some(after)
    ensures Run(ops + [op], env0, every) == Some(after)
  {
    RunAppend(ops, op, env0, every);
  }

  // Appending an operation that defines one new value.
  lemma AppendAt(b: Builder, op: Op, env0: Env, env: Env, every: bool, v: Value, x: nat)
    requires At(b, env0, env, every) && !op.IfOp? && !op.ForOp?
    requires v.id == b.next && Word(v, x)
    requires SimpleStep(op, env) == Define(env, v, x)
    ensures At(Append(b, op), env0, env[v := x], every)
    ensures Extends(env, env[v := x])
  {
    RunAppended(b.block, op, env0, env, env[v := x], every);
  }

  lemma ConstAt(b: Builder, raw: int, w: nat, env0: Env, env: Env, every: bool) returns (out: Env)
    requires At(b, env0, env, every) && w > 0
    ensures var r := IntConst(b, raw, w);
            && At(r.b, env0, out, every) && Extends(env, out)
            && r.v in out && r.v.ty == I(w) && out[r.v] == raw % Pow2(w)
  {
    var r := IntConst(b, raw, w);
    out := env[r.v := raw % Pow2(w)];
    AppendAt(b, ConstOp(r.v, raw % Pow2(w)), env0, env, every, r.v, raw % Pow2(w));
  }

  // coerce keeps the low bits of the number, whichever way the width goes.
  lemma CoerceAt(b: Builder, v: Value, t: Type, n: int, to: nat, env0: Env, env: Env, every: bool) returns (out: Env)
    requires At(b, env0, env, every) && Holding(env, v, t, n) && to > 0
    ensures var r := Coerce(b, v, t.signed, to);
            && At(r.b, env0, out, every) && Extends(env, out)
            && r.v in out && r.v.ty == I(to) && out[r.v] == n % Pow2(to)
  {
    var r := Coerce(b, v, t.signed, to);
    NumMod(t.width, t.signed, env[v], if to < t.width then to else t.width);
    if t.width == to {
      out := env;
      RawOfNum(t.width, t.signed, env[v]);
    } else {
      var x := n % Pow2(to);
      out := env[r.v := x];
      AppendAt(b, if t.width > to then TruncOp(r.v, v) else ExtOp(r.v, t.signed, v), env0, env, every, r.v, x);
    }
  }

  lemma ArithmeticAt(b: Builder, op: ArithOp, l: Value, r: Value, w: nat, x: nat, env0: Env, env: Env, every: bool)
      returns (out: Env)
    requires At(b, env0, env, every)
    requires l in env && r in env && l.ty == r.ty == I(w) && w > 0
    requires ArithSem(op, w, env[l], env[r]) == Some(x)
    ensures var e := Arithmetic(b, op, l, r);
            && At(e.b, env0, out, every) && Extends(env, out)
            && e.v in out && e.v.ty == I(w) && out[e.v] == x
  {
    var e := Arithmetic(b, op, l, r);
    out := env[e.v := x];
    AppendAt(b, BinOp(e.v, op, l, r), env0, env, every, e.v, x);
  }

  lemma ComparisonAt(b: Builder, p: CmpIPredicate, l: Value, r: Value, w: nat, env0: Env, env: Env, every: bool)
      returns (out: Env)
    requires At(b, env0, env, every)
    requires l in env && r in env && l.ty == r.ty == I(w) && w > 0
    ensures var e := Comparison(b, p, l, r);
            && At(e.b, env0, out, every) && Extends(env, out)
            && e.v in out && e.v.ty == I(1) && out[e.v] == if CmpSem(p, w, env[l], env[r]) then 1 else 0
  {
    var e := Comparison(b, p, l, r);
    var x := if CmpSem(p, w, env[l], env[r]) then 1 else 0;
    assert Pow2(1) == 2;
    out := env[e.v := x];
    AppendAt(b, CmpOp(e.v, p, l, r), env0, env, every, e.v, x);
  }

  lemma SelectAt(b: Builder, c: Value, t: Value, f: Value, env0: Env, env: Env, every: bool) returns (out: Env)
    requires At(b, env0, env, every)
    requires c in env && t in env && f in env && c.ty == I(1) && t.ty == f.ty
    ensures var e := Select(b, c, t, f);
            && At(e.b, env0, out, every) && Extends(env, out)
            && e.v in out && e.v.ty == t.ty && out[e.v] == if env[c] != 0 then env[t] else env[f]
  {
    var e := Select(b, c, t, f);
    var x := if env[c] != 0 then env[t] else env[f];
    out := env[e.v := x];
    AppendAt(b, SelectOp(e.v, c, t, f), env0, env, every, e.v, x);
  }

  // ------------------------------------------------------------------- operators

  // A word congruent to a number in range holds it.
  lemma HoldsNumber(env: Env, v: Value, t: Type, n: int)
    requires TypeOk(t) && v in env && v.ty == I(t.width)
    requires env[v] == n % Pow2(t.width) && InRange(n, t.width, t.signed)
    ensures Holding(env, v, t, n)
  {
    NumOfRaw(t.width, t.signed, n);
  }

  lemma TableSem(op: BinOp, x: int, y: int, k: nat, l: Type, w: nat)
    requires op in {Plus, Minus, Star, Amp, Pipe, Caret} && w > 0 && l.width > 0
    ensures var m := Pow2(w);
            ArithSem(TableOp(op), w, x % m, y % m) == Some(IdealBinary(op, l, x, y, k) % m)
  {
    var m := Pow2(w);
    match op
    case Plus => ModAdd(x, y, m);
    case Minus => ModSub(x, y, m);
    case Star => ModMul(x, y, m);
    case Amp => IntOpLow(AndF, x, y, w);
    case Pipe => IntOpLow(OrF, x, y, w);
    case Caret => IntOpLow(XorF, x, y, w);
  }

  lemma TableAt(op: BinOp, l: Type, r: Type, res: Type, lv: Value, rv: Value, x: int, y: int, k: nat,
                b: Builder, env0: Env, env: Env, every: bool) returns (out: Env)
    requires At(b, env0, env, every) && Holding(env, lv, l, x) && Holding(env, rv, r, y)
    requires op in {Plus, Minus, Star, Amp, Pipe, Caret} && TypeOk(res)
    requires InRange(IdealBinary(op, l, x, y, k), res.width, res.signed)
    ensures var e := EmitBinary(op, l, r, res, lv, rv, b);
            && e.Some? && At(e.value.b, env0, out, every) && Extends(env, out)
            && Holding(out, e.value.v, res, IdealBinary(op, l, x, y, k))
  {
    var e1 := CoerceAt(b, lv, l, x, res.width, env0, env, every);
    var c := Coerce(b, lv, l.signed, res.width);
    var e2 := CoerceAt(c.b, rv, r, y, res.width, env0, e1, every);
    var d := Coerce(c.b, rv, r.signed, res.width);
    TableSem(op, x, y, k, l, res.width);
    var n := IdealBinary(op, l, x, y, k);
    out := ArithmeticAt(d.b, TableOp(op), c.v, d.v, res.width, n % Pow2(res.width), env0, e2, every);
    HoldsNumber(out, Emit.Arithmetic(d.b, TableOp(op), c.v, d.v).v, res, n);
  }

  lemma CmpSemHolds(c: Cmp, x: int, y: int, w: nat, signed: bool)
    requires w > 0 && InRange(x, w, signed) && InRange(y, w, signed)
    ensures CmpSem(PredicateFor(c, signed), w, x % Pow2(w), y % Pow2(w)) <==> Holds(c, x, y)
  {
    NumOfRaw(w, signed, x);
    NumOfRaw(w, signed, y);
  }

  lemma RelAt(c: Cmp, l: Type, r: Type, res: Type, lv: Value, rv: Value, x: int, y: int,
              b: Builder, env0: Env, env: Env, every: bool) returns (out: Env)
    requires At(b, env0, env, every) && Holding(env, lv, l, x) && Holding(env, rv, r, y)
    requires l.signed == r.signed
    ensures var e := EmitBinary(Rel(c), l, r, res, lv, rv, b);
            && e.Some? && At(e.value.b, env0, out, every) && Extends(env, out)
            && Holding(out, e.value.v, U1, Truth(Holds(c, x, y)))
  {
    var w := Max(l.width, r.width);
    RangeWidens(x, l.width, w, l.signed);
    RangeWidens(y, r.width, w, l.signed);
    var e1 := CoerceAt(b, lv, l, x, w, env0, env, every);
    var cl := Coerce(b, lv, l.signed, w);
    var e2 := CoerceAt(cl.b, rv, r, y, w, env0, e1, every);
    var cr := Coerce(cl.b, rv, r.signed, w);
    CmpSemHolds(c, x, y, w, l.signed);
    out := ComparisonAt(cr.b, PredicateFor(c, l.signed), cl.v, cr.v, w, env0, e2, every);
    assert Pow2(1) == 2;
  }

  // On one bit, conjunction and disjunction are the bitwise operations.
  lemma BitLogic(x: nat, y: nat)
    requires x < 2 && y < 2
    ensures Pow2(1) == 2
    ensures BitOp(AndF, x, y, 1) == (if x != 0 && y != 0 then 1 else 0)
    ensures BitOp(OrF, x, y, 1) == (if x != 0 || y != 0 then 1 else 0)
  {
    assert BitOp(AndF, x / 2, y / 2, 0) == 0 && BitOp(OrF, x / 2, y / 2, 0) == 0;
  }

  lemma LogicSem(op: BinOp, x: nat, y: nat)
    requires (op == AmpAmp || op == PipePipe) && x < 2 && y < 2
    ensures Pow2(1) == 2
    ensures ArithSem(if op == AmpAmp then AndI else OrI, 1, x, y) ==
            Some(Truth(if op == AmpAmp then x != 0 && y != 0 else x != 0 || y != 0))
  {
    BitLogic(x, y);
  }

  lemma LogicAt(op: BinOp, l: Type, r: Type, res: Type, lv: Value, rv: Value, x: int, y: int,
                b: Builder, env0: Env, env: Env, every: bool) returns (out: Env)
    requires At(b, env0, env, every) && Holding(env, lv, l, x) && Holding(env, rv, r, y)
    requires op == AmpAmp || op == PipePipe
    requires l.width == r.width == 1
    ensures var e := EmitBinary(op, l, r, res, lv, rv, b);
            && e.Some? && At(e.value.b, env0, out, every) && Extends(env, out)
            && Holding(out, e.value.v, U1, Truth(if op == AmpAmp then x != 0 && y != 0 else x != 0 || y != 0))
  {
    hide At, ArithSem, BitOp;
    assert Pow2(1) == 2;
    LogicSem(op, env[lv], env[rv]);
    var z := Truth(if op == AmpAmp then x != 0 && y != 0 else x != 0 || y != 0);
    out := ArithmeticAt(b, if op == AmpAmp then AndI else OrI, lv, rv, 1, z, env0, env, every);
  }

  // ------------------------------------------------------- guarded division

  function DivOp(slash: bool, signed: bool): ArithOp {
    if slash then (if signed then DivSI else DivUI) else (if signed then RemSI else RemUI)
  }

  lemma ZeroWord(y: int, w: nat, signed: bool)
    requires w > 0 && InRange(y, w, signed)
    ensures y % Pow2(w) == 0 <==> y == 0
  {
    RawOfNum(w, signed, 0);
    NumOfRaw(w, signed, y);
  }

  // A nonzero divisor: the machine operation is defined, and its word is the
  // quotient or remainder truncated toward zero.
  lemma DivRemSem(slash: bool, x: int, d: int, w: nat, signed: bool)
    requires w > 0 && InRange(x, w, signed) && InRange(d, w, signed) && d != 0
    requires slash ==> InRange(TruncDiv(x, d), w, signed)
    ensures var m := Pow2(w);
            ArithSem(DivOp(slash, signed), w, x % m, d % m) ==
            Some((if slash then TruncDiv(x, d) else TruncRem(x, d)) % m)
  {
    NumOfRaw(w, signed, x);
    NumOfRaw(w, signed, d);
    ZeroWord(d, w, signed);
    if slash && signed && d == -1 {
      assert TruncDiv(x, d) == -x;
    }
    if !signed {
      ModSmall(x, Pow2(w));
      ModSmall(d, Pow2(w));
    }
  }

  // The stand-in divisor 1: the machine operation is defined.
  lemma DivRemByOne(slash: bool, x: nat, w: nat, signed: bool)
    requires w > 0 && x < Pow2(w) && (slash && signed ==> w > 1)
    ensures 1 < Pow2(w) && ArithSem(DivOp(slash, signed), w, x, 1).Some?
  {
    Pow2Strict(0, w);
    if w > 1 {
      Pow2Strict(0, w - 1);
    }
  }

  lemma DivRemAt(op: BinOp, l: Type, r: Type, res: Type, lv: Value, rv: Value, x: int, y: int,
                 b: Builder, env0: Env, env: Env, every: bool) returns (out: Env)
    requires At(b, env0, env, every) && Holding(env, lv, l, x) && Holding(env, rv, r, y)
    requires op == Slash || op == Percent
    requires l.signed == r.signed == res.signed && TypeOk(res) && (op == Slash && res.signed ==> res.width > 1)
    requires InRange(if op == Slash then Quotient(x, y) else Residue(x, y), res.width, res.signed)
    ensures var e := EmitBinary(op, l, r, res, lv, rv, b);
            && e.Some? && At(e.value.b, env0, out, every) && Extends(env, out)
            && Holding(out, e.value.v, res, if op == Slash then Quotient(x, y) else Residue(x, y))
  {
    hide At, ArithSem, Pow2, TruncDiv, TruncRem, EmitShift;
    var w, s := Max(Max(l.width, r.width), res.width), res.signed;
    var n := if op == Slash then Quotient(x, y) else Residue(x, y);
    RangeWidens(x, l.width, w, s);
    RangeWidens(y, r.width, w, s);
    RangeWidens(n, res.width, w, s);
    var e1 := CoerceAt(b, lv, l, x, w, env0, env, every);
    var a := Coerce(b, lv, s, w);
    var e2 := CoerceAt(a.b, rv, r, y, w, env0, e1, every);
    var d := Coerce(a.b, rv, s, w);
    var e3 := ConstAt(d.b, 0, w, env0, e2, every);
    var zero := IntConst(d.b, 0, w);
    var e4 := ComparisonAt(zero.b, CEq, d.v, zero.v, w, env0, e3, every);
    var byZero := Comparison(zero.b, CEq, d.v, zero.v);
    var e5 := ConstAt(byZero.b, 1, w, env0, e4, every);
    var one := IntConst(byZero.b, 1, w);
    var e6 := SelectAt(one.b, byZero.v, one.v, d.v, env0, e5, every);
    var safe := Select(one.b, byZero.v, one.v, d.v);
    out := DivRemTail(op, s, w, n, x, y, a.v, byZero.v, zero.v, safe, res, env0, e6, every);
  }

  // From the guarded divisor to the corrected result.
  lemma DivRemTail(op: BinOp, s: bool, w: nat, n: int, x: int, y: int, a: Value, byZero: Value, zero: Value,
                   safe: Emitted, res: Type, env0: Env, env: Env, every: bool) returns (out: Env)
    requires At(safe.b, env0, env, every)
    requires op == Slash || op == Percent
    requires 0 < res.width <= w && TypeOk(res) && s == res.signed && (op == Slash && s ==> res.width > 1)
    requires InRange(x, w, s) && InRange(y, w, s) && InRange(n, res.width, s) && InRange(n, w, s)
    requires n == if op == Slash then Quotient(x, y) else Residue(x, y)
    requires a in env && a.ty == I(w) && env[a] == x % Pow2(w)
    requires zero in env && zero.ty == I(w) && env[zero] == 0
    requires byZero in env && byZero.ty == I(1) && (env[byZero] != 0 <==> y % Pow2(w) == 0)
    requires safe.v in env && safe.v.ty == I(w)
    requires env[safe.v] == if env[byZero] != 0 then 1 % Pow2(w) else y % Pow2(w)
    requires w <= WORD
    ensures var q := Emit.Arithmetic(safe.b, DivOp(op == Slash, s), a, safe.v);
            var guarded := Select(q.b, byZero, zero, q.v);
            var e := Coerce(guarded.b, guarded.v, s, res.width);
            && At(e.b, env0, out, every) && Extends(env, out)
            && Holding(out, e.v, res, n)
  {
    var m := Pow2(w);
    ZeroWord(y, w, s);
    DivRemByOne(op == Slash, env[a], w, s);
    ModSmall(1, m);
    if y != 0 {
      DivRemSem(op == Slash, x, y, w, s);
    }
    var word := ArithSem(DivOp(op == Slash, s), w, env[a], env[safe.v]).value;
    var e1 := ArithmeticAt(safe.b, DivOp(op == Slash, s), a, safe.v, w, word, env0, env, every);
    var q := Emit.Arithmetic(safe.b, DivOp(op == Slash, s), a, safe.v);
    var e2 := SelectAt(q.b, byZero, zero, q.v, env0, e1, every);
    var guarded := Select(q.b, byZero, zero, q.v);
    ModSmall(0, m);
    HoldsNumber(e2, guarded.v, Type(w, s), n);
    out := CoerceAt(guarded.b, guarded.v, Type(w, s), n, res.width, env0, e2, every);
    HoldsNumber(out, Coerce(guarded.b, guarded.v, s, res.width).v, res, n);
  }

  // -------------------------------------------------------- guarded shifts

  // bitsFor(v) bits are enough for v, and no fewer are.
  lemma {:induction false} BitsForFits(v: nat)
    ensures v < Pow2(BitsFor(v))
    ensures v > 0 ==> Pow2(BitsFor(v) - 1) <= v
  {
    if v < 2 {
      assert Pow2(1) == 2 && Pow2(0) == 1;
    } else {
      BitsForFits(v / 2);
      assert Pow2(BitsFor(v)) == 2 * Pow2(BitsFor(v / 2));
      assert Pow2(BitsFor(v) - 1) == 2 * Pow2(BitsFor(v / 2) - 1);
    }
  }

  // Below the width, the machine shift is the language's.
  lemma ShiftSem(op: BinOp, w: nat, signed: bool, x: int, k: nat)
    requires (op == Shl || op == Shr) && WidthOk(w) && InRange(x, w, signed) && k < w
    ensures k < Pow2(w)
    ensures var m := Pow2(w);
            var n := if op == Shl then Wrap(w, signed, x * Pow2(k)) else x / Pow2(k);
            var machine := if op == Shl then ShLI else if signed then ShRSI else ShRUI;
            ArithSem(machine, w, x % m, k) == Some(n % m)
  {
    var m := Pow2(w);
    Pow2Above(w);
    NumOfRaw(w, signed, x);
    if op == Shl {
      ModMul(x % m, Pow2(k), m);
      ModMul(x, Pow2(k), m);
      ModSmall(x % m, m);
      RawOfNum(w, signed, x * Pow2(k) % m);
    } else if !signed {
      ModSmall(x, m);
    }
  }

  // An amount clamped to w - 1 shifts out everything but the sign.
  lemma ClampedShift(w: nat, x: int, k: nat)
    requires WidthOk(w) && InRange(x, w, true) && k >= w
    ensures x / Pow2(k) == x / Pow2(w - 1)
  {
    FloorFar(x, w, k, true);
    if x < 0 {
      DivModIs(x, Pow2(w - 1), -1, x + Pow2(w - 1));
    } else {
      DivModIs(x, Pow2(w - 1), 0, x);
    }
  }

  lemma AmountAt(r: Type, rv: Value, y: int, w: nat, b: Builder, env0: Env, env: Env, every: bool) returns (out: Env)
    requires At(b, env0, env, every) && Holding(env, rv, r, y) && WidthOk(w)
    ensures var gw := Max(r.width, BitsFor(w));
            var amount := Coerce(b, rv, false, gw);
            var limit := IntConst(amount.b, w, gw);
            var oob := Comparison(limit.b, Uge, amount.v, limit.v);
            var k := y % Pow2(r.width);
            && At(oob.b, env0, out, every) && Extends(env, out)
            && w < Pow2(gw) && k < Pow2(gw)
            && amount.v in out && amount.v.ty == I(gw) && out[amount.v] == k
            && oob.v in out && oob.v.ty == I(1) && (out[oob.v] != 0 <==> k >= w)
  {
    var gw := Max(r.width, BitsFor(w));
    RawOfNum(r.width, r.signed, env[rv]);
    var k := env[rv];
    BitsForFits(w);
    Pow2Mono(BitsFor(w), gw);
    Pow2Mono(r.width, gw);
    ModSmall(k, Pow2(gw));
    ModSmall(w, Pow2(gw));
    var e1 := CoerceAt(b, rv, Type(r.width, false), k, gw, env0, env, every);
    var amount := Coerce(b, rv, false, gw);
    var e2 := ConstAt(amount.b, w, gw, env0, e1, every);
    var limit := IntConst(amount.b, w, gw);
    out := ComparisonAt(limit.b, Uge, amount.v, limit.v, gw, env0, e2, every);
  }

  // Replacing an out-of-range amount, then resizing it to the operand's width.
  lemma ReplacedAmountAt(stand: nat, k: nat, w: nat, gw: nat, oob: Emitted, amount: Value,
                         env0: Env, env: Env, every: bool) returns (out: Env)
    requires At(oob.b, env0, env, every)
    requires WidthOk(w) && WidthOk(gw) && stand < w < Pow2(gw) && k < Pow2(gw)
    requires amount in env && amount.ty == I(gw) && env[amount] == k
    requires oob.v in env && oob.v.ty == I(1) && (env[oob.v] != 0 <==> k >= w)
    ensures var other := IntConst(oob.b, stand, gw);
            var picked := Select(other.b, oob.v, other.v, amount);
            var amt := Coerce(picked.b, picked.v, false, w);
            && At(amt.b, env0, out, every) && Extends(env, out)
            && amt.v in out && amt.v.ty == I(w) && out[amt.v] == if k >= w then stand else k
  {
    var e1 := ConstAt(oob.b, stand, gw, env0, env, every);
    var other := IntConst(oob.b, stand, gw);
    var e2 := SelectAt(other.b, oob.v, other.v, amount, env0, e1, every);
    var picked := Select(other.b, oob.v, other.v, amount);
    var c := if k >= w then stand else k;
    ModSmall(stand, Pow2(gw));
    Pow2Above(w);
    ModSmall(c, Pow2(w));
    out := CoerceAt(picked.b, picked.v, Type(gw, false), c, w, env0, e2, every);
  }

  lemma ShiftAt(op: BinOp, l: Type, r: Type, res: Type, lv: Value, rv: Value, x: int, y: int,
                b: Builder, env0: Env, env: Env, every: bool) returns (out: Env)
    requires At(b, env0, env, every) && Holding(env, lv, l, x) && Holding(env, rv, r, y)
    requires op == Shl || op == Shr
    ensures var e := EmitBinary(op, l, r, res, lv, rv, b);
            var k := y % Pow2(r.width);
            && e.Some? && At(e.value.b, env0, out, every) && Extends(env, out)
            && Holding(out, e.value.v, l, if op == Shl then Wrap(l.width, l.signed, x * Pow2(k)) else x / Pow2(k))
  {
    hide At, ArithSem, Pow2, EmitDivRem, Wrap;
    var w, gw, k := l.width, Max(r.width, BitsFor(l.width)), y % Pow2(r.width);
    BitsForWidth(w);
    RawOfNum(w, l.signed, env[lv]);
    var e1 := AmountAt(r, rv, y, w, b, env0, env, every);
    var amount := Coerce(b, rv, false, gw);
    var limit := IntConst(amount.b, w, gw);
    var oob := Comparison(limit.b, Uge, amount.v, limit.v);
    if op == Shr && l.signed {
      var e2 := ReplacedAmountAt(w - 1, k, w, gw, oob, amount.v, env0, e1, every);
      out := SignedRightAt(l, lv, x, k, gw, oob, amount.v, env0, e2, every);
    } else {
      var e2 := ReplacedAmountAt(0, k, w, gw, oob, amount.v, env0, e1, every);
      out := SelectedShiftAt(op, l, lv, x, k, gw, oob, amount.v, env0, e2, every);
    }
  }

  // A width of 1 to 128 needs at most 8 bits.
  lemma BitsForWidth(w: nat)
    requires WidthOk(w)
    ensures 1 <= BitsFor(w) <= 8
  {
    BitsForFits(w);
    assert Pow2(8) == 256;
    if BitsFor(w) > 8 {
      Pow2Mono(8, BitsFor(w) - 1);
    }
  }

  lemma SignedRightAt(l: Type, lv: Value, x: int, k: nat, gw: nat, oob: Emitted, amount: Value,
                      env0: Env, env: Env, every: bool) returns (out: Env)
    requires Holding(env, lv, l, x) && l.signed && env[lv] == x % Pow2(l.width)
    requires var top := IntConst(oob.b, l.width - 1, gw);
             var clamped := Select(top.b, oob.v, top.v, amount);
             var amt := Coerce(clamped.b, clamped.v, false, l.width);
             && At(amt.b, env0, env, every)
             && amt.v in env && amt.v.ty == I(l.width) && env[amt.v] == if k >= l.width then l.width - 1 else k
    ensures var top := IntConst(oob.b, l.width - 1, gw);
            var clamped := Select(top.b, oob.v, top.v, amount);
            var amt := Coerce(clamped.b, clamped.v, false, l.width);
            var e := Emit.Arithmetic(amt.b, ShRSI, lv, amt.v);
            At(e.b, env0, out, every) && Extends(env, out) && Holding(out, e.v, l, x / Pow2(k))
  {
    var w := l.width;
    var top := IntConst(oob.b, w - 1, gw);
    var clamped := Select(top.b, oob.v, top.v, amount);
    var amt := Coerce(clamped.b, clamped.v, false, w);
    var c := env[amt.v];
    if k >= w {
      ClampedShift(w, x, k);
    }
    ShiftSem(Shr, w, true, x, c);
    FloorRange(x, w, k, true);
    out := ArithmeticAt(amt.b, ShRSI, lv, amt.v, w, x / Pow2(k) % Pow2(w), env0, env, every);
    HoldsNumber(out, Emit.Arithmetic(amt.b, ShRSI, lv, amt.v).v, l, x / Pow2(k));
  }

  lemma SelectedShiftAt(op: BinOp, l: Type, lv: Value, x: int, k: nat, gw: nat, oob: Emitted, amount: Value,
                        env0: Env, env: Env, every: bool) returns (out: Env)
    requires Holding(env, lv, l, x) && env[lv] == x % Pow2(l.width)
    requires op == Shl || (op == Shr && !l.signed)
    requires oob.v in env && oob.v.ty == I(1) && (env[oob.v] != 0 <==> k >= l.width)
    requires var none := IntConst(oob.b, 0, gw);
             var inRange := Select(none.b, oob.v, none.v, amount);
             var amt := Coerce(inRange.b, inRange.v, false, l.width);
             && At(amt.b, env0, env, every)
             && amt.v in env && amt.v.ty == I(l.width) && env[amt.v] == if k >= l.width then 0 else k
    ensures var none := IntConst(oob.b, 0, gw);
            var inRange := Select(none.b, oob.v, none.v, amount);
            var amt := Coerce(inRange.b, inRange.v, false, l.width);
            var shifted := Emit.Arithmetic(amt.b, if op == Shl then ShLI else ShRUI, lv, amt.v);
            var zero := IntConst(shifted.b, 0, l.width);
            var e := Select(zero.b, oob.v, zero.v, shifted.v);
            && At(e.b, env0, out, every) && Extends(env, out)
            && Holding(out, e.v, l, if op == Shl then Wrap(l.width, l.signed, x * Pow2(k)) else x / Pow2(k))
  {
    var w, m := l.width, Pow2(l.width);
    var none := IntConst(oob.b, 0, gw);
    var inRange := Select(none.b, oob.v, none.v, amount);
    var amt := Coerce(inRange.b, inRange.v, false, w);
    var machine := if op == Shl then ShLI else ShRUI;
    ShiftSem(op, w, l.signed, x, env[amt.v]);
    var word := ArithSem(machine, w, env[lv], env[amt.v]).value;
    var e1 := ArithmeticAt(amt.b, machine, lv, amt.v, w, word, env0, env, every);
    var shifted := Emit.Arithmetic(amt.b, machine, lv, amt.v);
    var e2 := ConstAt(shifted.b, 0, w, env0, e1, every);
    var zero := IntConst(shifted.b, 0, w);
    out := SelectAt(zero.b, oob.v, zero.v, shifted.v, env0, e2, every);
    var n := if op == Shl then Wrap(w, l.signed, x * Pow2(k)) else x / Pow2(k);
    if k >= w {
      MulPow2Mod(x, k, w);
      if op == Shr {
        FloorFar(x, w, k, false);
      }
      ModSmall(0, m);
    }
    FloorRange(x, w, k, l.signed);
    HoldsNumber(out, Select(zero.b, oob.v, zero.v, shifted.v).v, l, n);
  }

  // ------------------------------------------------------------ unary operators

  lemma MinusAt(t: Type, res: Type, v: Value, x: int, b: Builder, env0: Env, env: Env, every: bool)
      returns (out: Env)
    requires At(b, env0, env, every) && Holding(env, v, t, x) && TypeOk(res)
    requires InRange(-x, res.width, res.signed)
    ensures var e := EmitUnary(UMinus, t, res, v, b);
            At(e.b, env0, out, every) && Extends(env, out) && Holding(out, e.v, res, -x)
  {
    var m := Pow2(res.width);
    var e1 := CoerceAt(b, v, t, x, res.width, env0, env, every);
    var wide := Coerce(b, v, t.signed, res.width);
    var e2 := ConstAt(wide.b, 0, res.width, env0, e1, every);
    var zero := IntConst(wide.b, 0, res.width);
    ModSub(0, x, m);
    out := ArithmeticAt(zero.b, SubI, zero.v, wide.v, res.width, -x % m, env0, e2, every);
    HoldsNumber(out, Emit.Arithmetic(zero.b, SubI, zero.v, wide.v).v, res, -x);
  }

  lemma TildeSem(t: Type, raw: nat, x: int)
    requires TypeOk(t) && raw < Pow2(t.width) && NumOf(t.width, t.signed, raw) == x
    ensures Mask(t.width) % Pow2(t.width) < Pow2(t.width)
    ensures ArithSem(XOrI, t.width, raw, Mask(t.width) % Pow2(t.width)) ==
            Some(Complement(t.width, t.signed, x) % Pow2(t.width))
  {
    var m := Pow2(t.width);
    RawOfNum(t.width, t.signed, raw);
    ModSmall(m - 1, m);
    XorOnes(raw, t.width);
    ComplementRange(x, t.width, t.signed);
  }

  lemma TildeAt(t: Type, v: Value, x: int, b: Builder, env0: Env, env: Env, every: bool)
      returns (out: Env)
    requires At(b, env0, env, every) && Holding(env, v, t, x)
    ensures var e := EmitUnary(UTilde, t, t, v, b);
            && At(e.b, env0, out, every) && Extends(env, out)
            && Holding(out, e.v, t, Complement(t.width, t.signed, x))
  {
    hide At, ArithSem, Complement, Mask, Pow2;
    var m, n := Pow2(t.width), Complement(t.width, t.signed, x);
    var e1 := ConstAt(b, Mask(t.width), t.width, env0, env, every);
    var ones := IntConst(b, Mask(t.width), t.width);
    TildeSem(t, env[v], x);
    ComplementRange(x, t.width, t.signed);
    out := ArithmeticAt(ones.b, XOrI, v, ones.v, t.width, n % m, env0, e1, every);
    HoldsNumber(out, Emit.Arithmetic(ones.b, XOrI, v, ones.v).v, t, n);
  }

  lemma BangAt(v: Value, x: int, b: Builder, env0: Env, env: Env, every: bool) returns (out: Env)
    requires At(b, env0, env, every) && Holding(env, v, U1, x)
    ensures var e := EmitUnary(UBang, U1, U1, v, b);
            At(e.b, env0, out, every) && Extends(env, out) && Holding(out, e.v, U1, Truth(x == 0))
  {
    assert Pow2(1) == 2;
    var e1 := ConstAt(b, 0, 1, env0, env, every);
    var zero := IntConst(b, 0, 1);
    out := ComparisonAt(zero.b, CEq, v, zero.v, 1, env0, e1, every);
  }

  lemma UnaryAt(op: UnOp, t: Type, res: Type, v: Value, x: int, b: Builder, env0: Env, env: Env, every: bool)
      returns (out: Env)
    requires At(b, env0, env, every) && Holding(env, v, t, x) && TypeOk(res)
    requires op == UBang ==> t == U1 && res == U1
    requires op == UMinus || op == UBang || res == t
    requires InRange(IdealUnary(op, t, x), res.width, res.signed)
    ensures var e := EmitUnary(op, t, res, v, b);
            && At(e.b, env0, out, every) && Extends(env, out)
            && Holding(out, e.v, res, IdealUnary(op, t, x))
  {
    match op
    case UPlus => out := env;
    case UMinus => out := MinusAt(t, res, v, x, b, env0, env, every);
    case UTilde => out := TildeAt(t, v, x, b, env0, env, every);
    case UBang => out := BangAt(v, x, b, env0, env, every);
  }

  lemma BinaryAt(op: BinOp, l: Type, r: Type, res: Type, lv: Value, rv: Value, x: int, y: int,
                 b: Builder, env0: Env, env: Env, every: bool) returns (out: Env)
    requires At(b, env0, env, every) && Holding(env, lv, l, x) && Holding(env, rv, r, y)
    requires TypeOk(res) && (l.signed == r.signed || Shift(op))
    requires res == WidthRule(op, l, r) || (l == r == res && IsArithmetic(op) && (op == Slash && res.signed ==> res.width > 1))
    requires InRange(IdealBinary(op, l, x, y, y % Pow2(r.width)), res.width, res.signed)
    requires EmitBinary(op, l, r, res, lv, rv, b).Some?
    ensures var e := EmitBinary(op, l, r, res, lv, rv, b).value;
            && At(e.b, env0, out, every) && Extends(env, out)
            && Holding(out, e.v, res, IdealBinary(op, l, x, y, y % Pow2(r.width)))
  {
    match op
    case Rel(c) => out := RelAt(c, l, r, res, lv, rv, x, y, b, env0, env, every);
    case AmpAmp => out := LogicAt(op, l, r, res, lv, rv, x, y, b, env0, env, every);
    case PipePipe => out := LogicAt(op, l, r, res, lv, rv, x, y, b, env0, env, every);
    case Shl => out := ShiftAt(op, l, r, res, lv, rv, x, y, b, env0, env, every);
    case Shr => out := ShiftAt(op, l, r, res, lv, rv, x, y, b, env0, env, every);
    case Slash => out := DivRemAt(op, l, r, res, lv, rv, x, y, b, env0, env, every);
    case Percent => out := DivRemAt(op, l, r, res, lv, rv, x, y, b, env0, env, every);
    case _ => out := TableAt(op, l, r, res, lv, rv, x, y, y % Pow2(r.width), b, env0, env, every);
  }

  // -------------------------------------------------------------- expressions

  // The bound variables hold the numbers rho; constants not shadowed by a
  // binding read as theirs.
  predicate Vars(vals: Bindings, consts: Constants, env: Env, rho: Numbers) {
    && NumbersOk(rho)
    && (forall sym | sym in vals :: sym in rho && Holding(env, vals[sym], sym.ty, rho[sym]))
    && (forall sym | sym in consts && sym !in vals ::
          sym in rho && Wrap(sym.ty.width, sym.ty.signed, consts[sym].raw) == rho[sym])
  }

  lemma VarsExtend(vals: Bindings, consts: Constants, env: Env, out: Env, rho: Numbers)
    requires Vars(vals, consts, env, rho) && Extends(env, out)
    ensures Vars(vals, consts, out, rho)
  {
  }

  // An expression that is emitted reads bound variables only.
  lemma {:induction false} EmittedReads(e: Expr, vals: Bindings, consts: Constants, b: Builder, rho: Numbers)
    requires EmitExpr(e, vals, consts, b).Some? && vals.Keys + consts.Keys <= rho.Keys
    ensures Reads(e) <= rho.Keys
  {
    match e
    case IntLit(_, _) =>
    case NameRef(_, _) =>
    case Cast(_, x, _) => EmittedReads(x, vals, consts, b, rho);
    case Unary(_, x, _) => EmittedReads(x, vals, consts, b, rho);
    case Binary(_, l, r, _) =>
      EmittedReads(l, vals, consts, b, rho);
      EmittedReads(r, vals, consts, EmitExpr(l, vals, consts, b).value.b, rho);
    case Ternary(c, x, y, _) =>
      var cv := EmitExpr(c, vals, consts, b).value;
      EmittedReads(c, vals, consts, b, rho);
      EmittedReads(x, vals, consts, cv.b, rho);
      EmittedReads(y, vals, consts, EmitExpr(x, vals, consts, cv.b).value.b, rho);
  }

  lemma BinaryRules(op: BinOp, l: Expr, r: Expr, t: Type)
    requires Regular(Binary(op, l, r, t))
    ensures Regular(l) && Regular(r) && TypeOk(t) && Widths(Binary(op, l, r, t))
    ensures l.ty.signed == r.ty.signed || Shift(op)
    ensures t == WidthRule(op, l.ty, r.ty) || (l.ty == r.ty == t && IsArithmetic(op) && (op == Slash && t.signed ==> t.width > 1))
  {
    hide WidthRule, Ideal, InRange, PolyShape;
  }

  // What typing says of a binary node, in the terms BinaryAt asks for.
  lemma BinaryTyping(op: BinOp, l: Expr, r: Expr, t: Type, rho: Numbers)
    requires var e := Binary(op, l, r, t); Regular(e) && NumbersOk(rho) && Reads(e) <= rho.Keys
    ensures Regular(l) && Regular(r) && TypeOk(t)
    ensures l.ty.signed == r.ty.signed || Shift(op)
    ensures t == WidthRule(op, l.ty, r.ty) || (l.ty == r.ty == t && IsArithmetic(op) && (op == Slash && t.signed ==> t.width > 1))
    ensures var y := Ideal(r, rho);
            var n := IdealBinary(op, l.ty, Ideal(l, rho), y, y % Pow2(r.ty.width));
            n == Ideal(Binary(op, l, r, t), rho) && InRange(n, t.width, t.signed)
  {
    hide Regular, IdealBinary, InRange, WidthRule;
    BinaryRules(op, l, r, t);
    IdealFits(Binary(op, l, r, t), rho);
  }

  lemma UnaryTyping(op: UnOp, x: Expr, t: Type, rho: Numbers)
    requires var e := Unary(op, x, t); Regular(e) && NumbersOk(rho) && Reads(e) <= rho.Keys
    ensures Regular(x) && TypeOk(t)
    ensures op == UBang ==> x.ty == U1 && t == U1
    ensures op == UMinus || op == UBang || t == x.ty
    ensures Ideal(Unary(op, x, t), rho) == IdealUnary(op, x.ty, Ideal(x, rho))
    ensures InRange(Ideal(Unary(op, x, t), rho), t.width, t.signed)
  {
    IdealFits(Unary(op, x, t), rho);
  }

  lemma TernaryTyping(c: Expr, x: Expr, y: Expr, t: Type, rho: Numbers)
    requires var e := Ternary(c, x, y, t); Regular(e) && NumbersOk(rho) && Reads(e) <= rho.Keys
    ensures Regular(c) && Regular(x) && Regular(y) && TypeOk(t) && c.ty == U1
    ensures InRange(Ideal(x, rho), t.width, t.signed) && InRange(Ideal(y, rho), t.width, t.signed)
    ensures Ideal(Ternary(c, x, y, t), rho) == if Ideal(c, rho) != 0 then Ideal(x, rho) else Ideal(y, rho)
  {
    IdealFits(x, rho);
    IdealFits(y, rho);
    RangeWidens(Ideal(x, rho), x.ty.width, t.width, t.signed);
    RangeWidens(Ideal(y, rho), y.ty.width, t.width, t.signed);
  }

  // Both arms resized to the common type, then selected.
  lemma ArmsAt(t: Type, xt: Type, yt: Type, cv: Value, tv: Value, fv: Value, c: int, x: int, y: int,
               b: Builder, env0: Env, env: Env, every: bool) returns (out: Env)
    requires At(b, env0, env, every) && TypeOk(t)
    requires Holding(env, cv, U1, c) && Holding(env, tv, xt, x) && Holding(env, fv, yt, y)
    requires InRange(x, t.width, t.signed) && InRange(y, t.width, t.signed)
    ensures var ct := Coerce(b, tv, xt.signed, t.width);
            var cf := Coerce(ct.b, fv, yt.signed, t.width);
            var r := Select(cf.b, cv, ct.v, cf.v);
            && At(r.b, env0, out, every) && Extends(env, out)
            && Holding(out, r.v, t, if c != 0 then x else y)
  {
    var e1 := CoerceAt(b, tv, xt, x, t.width, env0, env, every);
    var ct := Coerce(b, tv, xt.signed, t.width);
    var e2 := CoerceAt(ct.b, fv, yt, y, t.width, env0, e1, every);
    var cf := Coerce(ct.b, fv, yt.signed, t.width);
    out := SelectAt(cf.b, cv, ct.v, cf.v, env0, e2, every);
    HoldsNumber(out, Select(cf.b, cv, ct.v, cf.v).v, t, if c != 0 then x else y);
  }

  function Size(e: Expr): (n: nat)
    ensures n > 0
  {
    match e
    case IntLit(_, _) => 1
    case NameRef(_, _) => 1
    case Cast(_, x, _) => 1 + Size(x)
    case Unary(_, x, _) => 1 + Size(x)
    case Binary(_, l, r, _) => 1 + Size(l) + Size(r)
    case Ternary(c, x, y, _) => 1 + Size(c) + Size(x) + Size(y)
  }

  // The operations emitted for a regular expression are defined in every
  // environment that binds its variables, and leave its number in its value.
  lemma {:induction false} ExprAt(e: Expr, vals: Bindings, consts: Constants, rho: Numbers,
                                  b: Builder, env0: Env, env: Env, every: bool) returns (out: Env)
    requires Regular(e) && EmitExpr(e, vals, consts, b).Some?
    requires At(b, env0, env, every) && Vars(vals, consts, env, rho)
    requires Reads(e) <= rho.Keys
    ensures var r := EmitExpr(e, vals, consts, b).value;
            && At(r.b, env0, out, every) && Extends(env, out)
            && Holding(out, r.v, e.ty, Ideal(e, rho))
    decreases Size(e), 1
  {
    match e
    case IntLit(n, t) => out := ConstAt(b, n, t.width, env0, env, every);
    case NameRef(sym, t) =>
      if sym in vals {
        out := env;
      } else {
        out := ConstAt(b, consts[sym].raw, t.width, env0, env, every);
      }
    case Cast(t, x, _) =>
      var xv := EmitExpr(x, vals, consts, b).value;
      var e1 := ExprAt(x, vals, consts, rho, b, env0, env, every);
      out := CoerceAt(xv.b, xv.v, x.ty, Ideal(x, rho), t.width, env0, e1, every);
    case Unary(op, x, t) =>
      UnaryTyping(op, x, t, rho);
      var xv := EmitExpr(x, vals, consts, b).value;
      var e1 := ExprAt(x, vals, consts, rho, b, env0, env, every);
      out := UnaryAt(op, x.ty, t, xv.v, Ideal(x, rho), xv.b, env0, e1, every);
    case Binary(op, l, r, t) =>
      BinaryTyping(op, l, r, t, rho);
      out := BinaryExprAt(op, l, r, t, vals, consts, rho, b, env0, env, every);
    case Ternary(c, x, y, t) =>
      TernaryTyping(c, x, y, t, rho);
      out := TernaryExprAt(c, x, y, t, vals, consts, rho, b, env0, env, every);
  }

  // Two expressions in a row: both values are there at the end.
  lemma {:induction false} PairAt(l: Expr, r: Expr, vals: Bindings, consts: Constants, rho: Numbers,
                                  b: Builder, env0: Env, env: Env, every: bool) returns (out: Env)
    requires At(b, env0, env, every) && Vars(vals, consts, env, rho)
    requires Regular(l) && Regular(r) && Reads(l) + Reads(r) <= rho.Keys
    requires EmitExpr(l, vals, consts, b).Some?
    requires EmitExpr(r, vals, consts, EmitExpr(l, vals, consts, b).value.b).Some?
    ensures var lv := EmitExpr(l, vals, consts, b).value;
            var rv := EmitExpr(r, vals, consts, lv.b).value;
            && At(rv.b, env0, out, every) && Extends(env, out)
            && Holding(out, lv.v, l.ty, Ideal(l, rho)) && Holding(out, rv.v, r.ty, Ideal(r, rho))
    decreases Size(l) + Size(r), 0
  {
    var lv := EmitExpr(l, vals, consts, b).value;
    var e1 := ExprAt(l, vals, consts, rho, b, env0, env, every);
    VarsExtend(vals, consts, env, e1, rho);
    out := ExprAt(r, vals, consts, rho, lv.b, env0, e1, every);
  }

  lemma {:induction false} BinaryExprAt(op: BinOp, l: Expr, r: Expr, t: Type, vals: Bindings, consts: Constants, rho: Numbers,
                                        b: Builder, env0: Env, env: Env, every: bool) returns (out: Env)
    requires At(b, env0, env, every) && Vars(vals, consts, env, rho)
    requires Regular(l) && Regular(r) && TypeOk(t) && Reads(l) + Reads(r) <= rho.Keys
    requires l.ty.signed == r.ty.signed || Shift(op)
    requires t == WidthRule(op, l.ty, r.ty) || (l.ty == r.ty == t && IsArithmetic(op) && (op == Slash && t.signed ==> t.width > 1))
    requires var y := Ideal(r, rho);
             InRange(IdealBinary(op, l.ty, Ideal(l, rho), y, y % Pow2(r.ty.width)), t.width, t.signed)
    requires EmitExpr(Binary(op, l, r, t), vals, consts, b).Some?
    ensures var e := EmitExpr(Binary(op, l, r, t), vals, consts, b).value;
            var y := Ideal(r, rho);
            && At(e.b, env0, out, every) && Extends(env, out)
            && Holding(out, e.v, t, IdealBinary(op, l.ty, Ideal(l, rho), y, y % Pow2(r.ty.width)))
    decreases 1 + Size(l) + Size(r), 0
  {
    hide EmitBinary, At, Vars, IdealBinary;
    var lv := EmitExpr(l, vals, consts, b).value;
    var rv := EmitExpr(r, vals, consts, lv.b).value;
    var e1 := PairAt(l, r, vals, consts, rho, b, env0, env, every);
    out := BinaryAt(op, l.ty, r.ty, t, lv.v, rv.v, Ideal(l, rho), Ideal(r, rho), rv.b, env0, e1, every);
  }

  lemma {:induction false} TernaryExprAt(c: Expr, x: Expr, y: Expr, t: Type, vals: Bindings, consts: Constants, rho: Numbers,
                                         b: Builder, env0: Env, env: Env, every: bool) returns (out: Env)
    requires At(b, env0, env, every) && Vars(vals, consts, env, rho)
    requires Regular(c) && Regular(x) && Regular(y) && TypeOk(t) && c.ty == U1
    requires Reads(c) + Reads(x) + Reads(y) <= rho.Keys
    requires InRange(Ideal(x, rho), t.width, t.signed) && InRange(Ideal(y, rho), t.width, t.signed)
    requires EmitExpr(Ternary(c, x, y, t), vals, consts, b).Some?
    ensures var r := EmitExpr(Ternary(c, x, y, t), vals, consts, b).value;
            && At(r.b, env0, out, every) && Extends(env, out)
            && Holding(out, r.v, t, if Ideal(c, rho) != 0 then Ideal(x, rho) else Ideal(y, rho))
    decreases 1 + Size(c) + Size(x) + Size(y), 0
  {
    hide EmitBinary, EmitUnary, Regular, Coerce, Select, At, Vars, InRange, Pow2;
    var cv := EmitExpr(c, vals, consts, b).value;
    var tv := EmitExpr(x, vals, consts, cv.b).value;
    var fv := EmitExpr(y, vals, consts, tv.b).value;
    var e1 := ExprAt(c, vals, consts, rho, b, env0, env, every);
    VarsExtend(vals, consts, env, e1, rho);
    var e2 := PairAt(x, y, vals, consts, rho, cv.b, env0, e1, every);
    out := ArmsAt(t, x.ty, y.ty, cv.v, tv.v, fv.v, Ideal(c, rho), Ideal(x, rho), Ideal(y, rho), fv.b, env0, e2, every);
  }
}
