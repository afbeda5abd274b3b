/**
 Hoisting preserves meaning: the netlist lowered from loop-free code settles, for
 every input, to exactly the words the code computes, although both arms of every
 `if` are always evaluated.
 */
module HwCorrect {
  import opened Arith
  import opened FixedWidth
  import opened Ir
  import opened IrFacts
  import opened Hw
  import opened Lower
  import opened Wrappers

  // The netlist built so far, driven from the ports, settles to env.
  predicate Live(n: Netlist, ports: Levels, env: Levels) {
    && LevelsOk(ports) && Evaluate(n.nodes, ports) == Some(env)
    && forall w | w in env :: w.id < n.next
  }

  // Each value's wire is as wide as the value and carries its word.
  predicate Tracks(wires: Lowered, ir: Env, env: Levels) {
    forall v | v in ir ::
      v in wires && wires[v] in env && wires[v].width == BitsOf(v.ty) && env[wires[v]] == ir[v]
  }

  predicate Simulates(s: State, ports: Levels, ir: Env, env: Levels) {
    EnvOk(ir) && Live(s.n, ports, env) && Tracks(s.wires, ir, env)
  }

  predicate Grows(before: Levels, after: Levels) {
    forall w | w in before :: w in after && after[w] == before[w]
  }

  // Code with no loop and no loop counter.
  predicate Combinational(ops: seq<Op>)
    decreases ops, 0
  {
    ops == [] || (Combinational(ops[..|ops| - 1]) && CombinationalOp(ops[|ops| - 1]))
  }

  predicate CombinationalOp(op: Op)
    decreases op, 0
  {
    match op
    case IfOp(_, _, thenOps, _, elseOps, _) => Combinational(thenOps) && Combinational(elseOps)
    case ForOp(_, _, _, _, _, _, _, _, _) => false
    case IndexCastOp(_, _) => false
    case _ => true
  }

  // ------------------------------------------------------------------ one node

  lemma PushAt(n: Netlist, node: Node, ports: Levels, env: Levels, x: nat)
    requires Live(n, ports, env) && node.res.id == n.next && node.res.width > 0 && x < Pow2(node.res.width)
    requires Settle(node, env) == Drive(env, node.res, x)
    ensures Live(Push(n, node), ports, env[node.res := x]) && Grows(env, env[node.res := x])
  {
    hide Settle;
    var nodes := n.nodes + [node];
    assert nodes[..|nodes| - 1] == n.nodes;
  }

  lemma RecordAt(s: State, v: Value, d: Driven, ports: Levels, ir: Env, env: Levels, out: Levels, x: nat)
    requires Simulates(s, ports, ir, env) && Live(d.n, ports, out) && Grows(env, out)
    requires v !in ir && Word(v, x)
    requires d.w in out && d.w.width == BitsOf(v.ty) && out[d.w] == x
    ensures Simulates(Record(s, v, d), ports, ir[v := x], out)
  {
    hide Live;
  }

  // A node that settles to the word of v stands for the operation defining v.
  lemma ReplaceAt(s: State, v: Value, node: Node, ports: Levels, ir: Env, env: Levels, x: nat)
    requires Simulates(s, ports, ir, env)
    requires v !in ir && Word(v, x) && node.res == Wire(s.n.next, BitsOf(v.ty))
    requires Settle(node, env) == Drive(env, node.res, x)
    ensures Simulates(Replace(s, v, node), ports, ir[v := x], env[node.res := x])
    ensures Grows(env, env[node.res := x])
  {
    hide Settle;
    PushAt(s.n, node, ports, env, x);
    RecordAt(s, v, Driven(Push(s.n, node), node.res), ports, ir, env, env[node.res := x], x);
  }

  // ----------------------------------------------------------- width adjustments

  lemma {:induction false} CopiesOfBit(bit: nat, n: nat)
    requires bit < 2
    ensures Copies(bit, 1, n) == if bit == 1 then Pow2(n) - 1 else 0
  {
    if n > 0 {
      CopiesOfBit(bit, n - 1);
      assert Pow2(1) == 2 * Pow2(0);
    }
  }

  // The top bit repeated above a word is the word's sign extension.
  lemma SignBits(x: nat, w: nat, to: nat)
    requires 0 < w < to && x < Pow2(w)
    ensures var top := x / Pow2(w - 1) % 2;
            && top < 2 && Copies(top, 1, to - w) < Pow2(to - w)
            && Copies(top, 1, to - w) * Pow2(w) + x == NumOf(w, true, x) % Pow2(to)
  {
    var h, top := Pow2(w - 1), x / Pow2(w - 1) % 2;
    CopiesOfBit(top, to - w);
    Pow2Add(to - w, w);
    Pow2Strict(w, to);
    if x < h {
      DivModIs(x, h, 0, x);
      ModSmall(x, Pow2(to));
    } else {
      DivModIs(x, h, 1, x - h);
      DivModIs(x - Pow2(w), Pow2(to), -1, x - Pow2(w) + Pow2(to));
      Distribute(Pow2(to - w), Pow2(w));
    }
  }

  lemma Distribute(a: int, b: int)
    ensures (a - 1) * b == a * b - b
  {
  }

  lemma ExtractAt(n: Netlist, v: Wire, low: nat, width: nat, ports: Levels, env: Levels)
    requires Live(n, ports, env) && v in env && width > 0 && low + width <= v.width
    ensures var w := NewWire(n, width);
            var out := env[w := env[v] / Pow2(low) % Pow2(width)];
            Live(Push(n, Extract(w, v, low)), ports, out) && Grows(env, out)
  {
    PushAt(n, Extract(NewWire(n, width), v, low), ports, env, env[v] / Pow2(low) % Pow2(width));
  }

  lemma ReplicateAt(n: Netlist, v: Wire, times: nat, ports: Levels, env: Levels)
    requires Live(n, ports, env) && v in env && v.width == 1 && times > 0
    requires Copies(env[v], 1, times) < Pow2(times)
    ensures var w := NewWire(n, times);
            var out := env[w := Copies(env[v], 1, times)];
            Live(Push(n, Replicate(w, v, times)), ports, out) && Grows(env, out)
  {
    hide Copies, Pow2;
    PushAt(n, Replicate(NewWire(n, times), v, times), ports, env, Copies(env[v], 1, times));
  }

  lemma ConcatAt(n: Netlist, hi: Wire, lo: Wire, x: nat, ports: Levels, env: Levels)
    requires Live(n, ports, env) && hi in env && lo in env && hi.width + lo.width > 0
    requires x == env[hi] * Pow2(lo.width) + env[lo] && x < Pow2(hi.width + lo.width)
    ensures var w := NewWire(n, hi.width + lo.width);
            Live(Push(n, Concat(w, hi, lo)), ports, env[w := x]) && Grows(env, env[w := x])
  {
    hide Pow2, LevelsOk, Evaluate;
    PushAt(n, Concat(NewWire(n, hi.width + lo.width), hi, lo), ports, env, x);
  }

  lemma LevelFits(n: Netlist, ports: Levels, env: Levels, v: Wire)
    requires Live(n, ports, env) && v in env
    ensures v.width > 0 && env[v] < Pow2(v.width)
  {
  }

  lemma SextAt(n: Netlist, v: Wire, to: nat, ports: Levels, env: Levels) returns (out: Levels)
    requires Live(n, ports, env) && v in env && v.width < to
    ensures v.width > 0 && env[v] < Pow2(v.width)
    ensures var d := Sext(n, v, to);
            && Live(d.n, ports, out) && Grows(env, out) && d.w in out && d.w.width == to
            && out[d.w] == NumOf(v.width, true, env[v]) % Pow2(to)
  {
    hide Live, Pow2, Copies, NumOf;
    var x, w := env[v], v.width;
    LevelFits(n, ports, env, v);
    SignBits(x, w, to);
    var bit := x / Pow2(w - 1) % 2;
    var top := NewWire(n, 1);
    OneBit();
    ExtractAt(n, v, w - 1, 1, ports, env);
    var n1, e1 := Push(n, Extract(top, v, w - 1)), env[top := bit];
    var fill := NewWire(n1, to - w);
    ReplicateAt(n1, top, to - w, ports, e1);
    var n2, e2 := Push(n1, Replicate(fill, top, to - w)), e1[fill := Copies(bit, 1, to - w)];
    ConcatAt(n2, fill, v, NumOf(w, true, x) % Pow2(to), ports, e2);
    out := e2[NewWire(n2, to) := NumOf(w, true, x) % Pow2(to)];
  }

  lemma ZextAt(n: Netlist, v: Wire, to: nat, ports: Levels, env: Levels) returns (out: Levels)
    requires Live(n, ports, env) && v in env && v.width < to
    ensures v.width > 0 && env[v] < Pow2(v.width)
    ensures var d := Zext(n, v, to);
            && Live(d.n, ports, out) && Grows(env, out) && d.w in out && d.w.width == to
            && out[d.w] == NumOf(v.width, false, env[v]) % Pow2(to)
  {
    hide Live, Pow2;
    var x, w := env[v], v.width;
    LevelFits(n, ports, env, v);
    Pow2Strict(w, to);
    ModSmall(x, Pow2(to));
    var zeros := NewWire(n, to - w);
    PushAt(n, HwConst(zeros, 0), ports, env, 0);
    var n1, e1 := Push(n, HwConst(zeros, 0)), env[zeros := 0];
    ConcatAt(n1, zeros, v, x, ports, e1);
    out := e1[NewWire(n1, to) := x];
  }

  lemma TruncAt(n: Netlist, v: Wire, to: nat, ports: Levels, env: Levels) returns (out: Levels)
    requires Live(n, ports, env) && v in env && 0 < to < v.width
    ensures var d := Trunc(n, v, to);
            && Live(d.n, ports, out) && Grows(env, out) && d.w in out && d.w.width == to
            && out[d.w] == env[v] % Pow2(to)
  {
    var low := NewWire(n, to);
    out := env[low := env[v] % Pow2(to)];
    PushAt(n, Extract(low, v, 0), ports, env, env[v] % Pow2(to));
  }

  // ------------------------------------------------------------- one operation

  // What a pattern and its magnitude say of the number it stands for.
  lemma Parts(w: nat, x: nat)
    requires 0 < w && x < Pow2(w)
    ensures Top(w, x) <==> NumOf(w, true, x) < 0
    ensures Magnitude(w, x) == Abs(NumOf(w, true, x)) <= Pow2(w - 1)
    ensures x == 0 <==> NumOf(w, true, x) == 0
  {
    assert Pow2(w) == 2 * Pow2(w - 1);
  }

  lemma ReduceSum(x: int, m: nat)
    requires 0 - m <= x < 2 * m && m > 0
    ensures x % m == if x < 0 then x + m else if x < m then x else x - m
  {
    DivModIs(x, m, if x < 0 then -1 else if x < m then 0 else 1, if x < 0 then x + m else if x < m then x else x - m);
  }

  // Dividing magnitudes and fixing the sign is the signed quotient, in w bits.
  lemma SignedQuotient(w: nat, x: nat, y: nat)
    requires 0 < w && x < Pow2(w) && 0 < y < Pow2(w)
    ensures SignedDiv(w, x, y) == TruncDiv(NumOf(w, true, x), NumOf(w, true, y)) % Pow2(w)
    ensures SignedMod(w, x, y) == TruncRem(NumOf(w, true, x), NumOf(w, true, y)) % Pow2(w)
  {
    hide Pow2, Top, Magnitude, NumOf;
    Parts(w, x);
    Parts(w, y);
    Pow2Strict(w - 1, w);
    var p, q := Magnitude(w, x), Magnitude(w, y);
    AbsDivRem(p, q);
    ModSmall(p / q, Pow2(w));
    ModSmall(p % q, Pow2(w));
  }

  // Dropping the top bits before a left shift, or after it.
  lemma DropTop(w: nat, x: nat, y: nat)
    requires y < w && x < Pow2(w)
    ensures x % Pow2(w - y) * Pow2(y) == x * Pow2(y) % Pow2(w)
  {
    hide Pow2;
    Pow2Add(w - y, y);
    DropTopOf(x, Pow2(w - y), Pow2(y));
  }

  lemma DropTopOf(x: nat, k: nat, s: nat)
    requires k > 0 && s > 0
    ensures k * s > 0 && x % k * s == x * s % (k * s)
  {
    var q, r := x / k, x % k;
    assert x == q * k + r;
    MulMono(r, s, k - 1, s);
    assert (k - 1) * s == k * s - s;
    assert x * s == q * (k * s) + r * s by {
      assert x * s == q * k * s + r * s;
      MulAssoc(q, k, s);
    }
    DivModIs(x * s, k * s, q, r * s);
  }

  // Filling with ones is dividing the negative number.
  lemma FillOnes(w: nat, x: nat, y: nat)
    requires y < w && x < Pow2(w)
    ensures (x - Pow2(w)) / Pow2(y) % Pow2(w) == x / Pow2(y) + Pow2(w) - Pow2(w - y)
    ensures x / Pow2(y) % Pow2(w) == x / Pow2(y)
  {
    hide Pow2;
    var s, k, m := Pow2(y), Pow2(w - y), Pow2(w);
    Pow2Add(w - y, y);
    Pow2Mono(w - y, w);
    AbsDivRem(x, s);
    var q := x / s;
    QuotientBelow(x, k, s);
    DivModIs(x - m, s, q - k, x % s) by {
      assert (q - k) * s == q * s - k * s;
    }
    ReduceSum(q - k, m);
    ModSmall(q, m);
  }

  lemma QuotientBelow(x: nat, k: nat, s: nat)
    requires s > 0 && x < k * s
    ensures x / s < k
  {
    AbsDivRem(x, s);
    if x / s >= k {
      MulMono(k, s, x / s, s);
    }
  }

  lemma SameShift(w: nat, x: nat, y: nat)
    requires 0 < w && x < Pow2(w) && y < w
    ensures ShiftUp(w, x, y) == x * Pow2(y) % Pow2(w)
    ensures ShiftDown(w, x, y, false) == x / Pow2(y) % Pow2(w)
    ensures ShiftDown(w, x, y, Top(w, x)) == NumOf(w, true, x) / Pow2(y) % Pow2(w)
  {
    hide Pow2;
    DropTop(w, x, y);
    FillOnes(w, x, y);
  }

  // Where the arith operation is defined, the operator of the datapath settles to
  // the same word, from bit patterns alone.
  lemma SameArith(op: ArithOp, w: nat, x: nat, y: nat)
    requires 0 < w && x < Pow2(w) && y < Pow2(w) && ArithSem(op, w, x, y).Some?
    ensures CombSem(CombFor(op), w, x, y) == ArithSem(op, w, x, y)
  {
    hide Pow2, NumOf, BitOp, TruncDiv, TruncRem, Top, SignedDiv, SignedMod, ShiftUp, ShiftDown;
    var m := Pow2(w);
    match op
    case AddI => ReduceSum(x + y, m);
    case SubI => ReduceSum(x - y, m);
    case DivUI => AbsDivRem(x, y); ModSmall(x / y, m);
    case RemUI => AbsDivRem(x, y); ModSmall(x % y, m);
    case DivSI => SignedQuotient(w, x, y);
    case RemSI => SignedQuotient(w, x, y);
    case ShLI => SameShift(w, x, y);
    case ShRUI => SameShift(w, x, y);
    case ShRSI => SameShift(w, x, y);
    case _ =>
  }

  // Comparing sign bits and then patterns is comparing numbers.
  lemma SameCompare(p: CmpIPredicate, w: nat, x: nat, y: nat)
    requires 0 < w && x < Pow2(w) && y < Pow2(w)
    ensures ICmpSem(CombPred(p), w, x, y) == CmpSem(p, w, x, y)
  {
    assert Pow2(w) == 2 * Pow2(w - 1);
    hide Pow2;
  }

  lemma BinOpAt(op: Op, s: State, ports: Levels, ir: Env, env: Levels) returns (out: Levels)
    requires op.BinOp? && Simulates(s, ports, ir, env) && SimpleStep(op, ir).Some?
    ensures LowerOp(op, s).Some?
    ensures Simulates(LowerOp(op, s).value, ports, SimpleStep(op, ir).value, out) && Grows(env, out)
  {
    hide ArithSem, CombSem, Pow2;
    var a, b := s.wires[op.a], s.wires[op.b];
    var x := ArithSem(op.op, op.a.ty.width, ir[op.a], ir[op.b]).value;
    SameArith(op.op, op.a.ty.width, ir[op.a], ir[op.b]);
    var node := Comb(NewWire(s.n, a.width), CombFor(op.op), a, b);
    ReplaceAt(s, op.res, node, ports, ir, env, x);
    out := env[node.res := x];
  }

  lemma CmpOpAt(op: Op, s: State, ports: Levels, ir: Env, env: Levels) returns (out: Levels)
    requires op.CmpOp? && Simulates(s, ports, ir, env) && SimpleStep(op, ir).Some?
    ensures LowerOp(op, s).Some?
    ensures Simulates(LowerOp(op, s).value, ports, SimpleStep(op, ir).value, out) && Grows(env, out)
  {
    hide CmpSem, ICmpSem, Pow2;
    var a, b := s.wires[op.a], s.wires[op.b];
    var x := if CmpSem(op.pred, op.a.ty.width, ir[op.a], ir[op.b]) then 1 else 0;
    SameCompare(op.pred, op.a.ty.width, ir[op.a], ir[op.b]);
    var node := ICmp(NewWire(s.n, 1), CombPred(op.pred), a, b);
    ReplaceAt(s, op.res, node, ports, ir, env, x);
    out := env[node.res := x];
  }

  lemma SelectOpAt(op: Op, s: State, ports: Levels, ir: Env, env: Levels) returns (out: Levels)
    requires op.SelectOp? && Simulates(s, ports, ir, env) && SimpleStep(op, ir).Some?
    ensures LowerOp(op, s).Some?
    ensures Simulates(LowerOp(op, s).value, ports, SimpleStep(op, ir).value, out) && Grows(env, out)
  {
    hide Pow2;
    var c, t, f := s.wires[op.c], s.wires[op.t], s.wires[op.f];
    var x := if ir[op.c] != 0 then ir[op.t] else ir[op.f];
    var node := Mux(NewWire(s.n, t.width), c, t, f);
    ReplaceAt(s, op.res, node, ports, ir, env, x);
    out := env[node.res := x];
  }

  lemma ConstOpAt(op: Op, s: State, ports: Levels, ir: Env, env: Levels) returns (out: Levels)
    requires op.ConstOp? && Simulates(s, ports, ir, env) && SimpleStep(op, ir).Some?
    ensures LowerOp(op, s).Some?
    ensures Simulates(LowerOp(op, s).value, ports, SimpleStep(op, ir).value, out) && Grows(env, out)
  {
    hide Pow2;
    var node := HwConst(NewWire(s.n, BitsOf(op.res.ty)), op.raw);
    ReplaceAt(s, op.res, node, ports, ir, env, op.raw);
    out := env[node.res := op.raw];
  }

  lemma WidthOpAt(op: Op, s: State, ports: Levels, ir: Env, env: Levels) returns (out: Levels)
    requires op.ExtOp? || op.TruncOp?
    requires Simulates(s, ports, ir, env) && SimpleStep(op, ir).Some?
    ensures LowerOp(op, s).Some?
    ensures Simulates(LowerOp(op, s).value, ports, SimpleStep(op, ir).value, out) && Grows(env, out)
  {
    hide Pow2, Sext, Zext, Trunc;
    var a, to := s.wires[op.arg], BitsOf(op.res.ty);
    if op.TruncOp? {
      out := TruncAt(s.n, a, to, ports, env);
      RecordAt(s, op.res, Trunc(s.n, a, to), ports, ir, env, out, ir[op.arg] % Pow2(to));
    } else if op.signed {
      out := SextAt(s.n, a, to, ports, env);
      RecordAt(s, op.res, Sext(s.n, a, to), ports, ir, env, out, NumOf(op.arg.ty.width, true, ir[op.arg]) % Pow2(to));
    } else {
      out := ZextAt(s.n, a, to, ports, env);
      RecordAt(s, op.res, Zext(s.n, a, to), ports, ir, env, out, NumOf(op.arg.ty.width, false, ir[op.arg]) % Pow2(to));
    }
  }

  lemma SimpleAt(op: Op, s: State, ports: Levels, ir: Env, env: Levels) returns (out: Levels)
    requires !op.IfOp? && CombinationalOp(op) && Simulates(s, ports, ir, env) && SimpleStep(op, ir).Some?
    ensures LowerOp(op, s).Some?
    ensures Simulates(LowerOp(op, s).value, ports, SimpleStep(op, ir).value, out) && Grows(env, out)
  {
    hide Simulates, LowerOp, Grows;
    match op
    case ConstOp(_, _) => out := ConstOpAt(op, s, ports, ir, env);
    case BinOp(_, _, _, _) => out := BinOpAt(op, s, ports, ir, env);
    case CmpOp(_, _, _, _) => out := CmpOpAt(op, s, ports, ir, env);
    case SelectOp(_, _, _, _) => out := SelectOpAt(op, s, ports, ir, env);
    case ExtOp(_, _, _) => out := WidthOpAt(op, s, ports, ir, env);
    case TruncOp(_, _) => out := WidthOpAt(op, s, ports, ir, env);
    case _ =>
  }

  // --------------------------------------------------------------- hoisted arms

  // An arm's definitions are dropped; what was tracked before it still is.
  lemma Restrict(s: State, ports: Levels, ir: Env, inner: Env, env: Levels)
    requires Simulates(s, ports, inner, env) && EnvOk(ir)
    requires forall v | v in ir :: v in inner && inner[v] == ir[v]
    ensures Simulates(s, ports, ir, env)
  {
    hide Live;
  }

  // A wire carries each word.
  predicate Carry(ws: seq<Wire>, xs: seq<nat>, vs: seq<Value>, env: Levels) {
    && |ws| == |xs| == |vs|
    && forall i | 0 <= i < |ws| :: ws[i] in env && env[ws[i]] == xs[i] && ws[i].width == BitsOf(vs[i].ty)
  }

  lemma CarryGrows(ws: seq<Wire>, xs: seq<nat>, vs: seq<Value>, env: Levels, out: Levels)
    requires Carry(ws, xs, vs, env) && Grows(env, out)
    ensures Carry(ws, xs, vs, out)
  {
  }

  // The wires an arm yields carry its yielded words.
  lemma YieldedCarry(s: State, ports: Levels, inner: Env, env: Levels, outs: seq<Value>, results: seq<Value>)
    requires Simulates(s, ports, inner, env) && Fetch(inner, outs).Some? && Types(results, outs)
    ensures MappedAll(s.wires, outs).Some?
    ensures Carry(MappedAll(s.wires, outs).value, Fetch(inner, outs).value, results, env)
  {
    hide Live;
  }

  // One mux per result: the results carry the words of the arm taken.
  lemma {:induction false} MuxesAt(results: seq<Value>, c: Wire, ts: seq<Wire>, es: seq<Wire>, xs: seq<nat>, ys: seq<nat>,
                                   s: State, ports: Levels, ir: Env, env: Levels) returns (out: Levels)
    requires Simulates(s, ports, ir, env) && c in env && c.width == 1
    requires Carry(ts, xs, results, env) && Carry(es, ys, results, env)
    requires DefineAll(ir, results, if env[c] != 0 then xs else ys).Some?
    ensures Simulates(Muxes(results, c, ts, es, s), ports,
                      DefineAll(ir, results, if env[c] != 0 then xs else ys).value, out)
    ensures Grows(env, out)
    decreases |results|
  {
    hide Live, Tracks, EnvOk, Word;
    if results == [] {
      return env;
    }
    var x := if env[c] != 0 then xs[0] else ys[0];
    var node := Mux(NewWire(s.n, ts[0].width), c, ts[0], es[0]);
    var out1 := MuxAt(results[0], node, s, ports, ir, env, x);
    CarryGrows(ts, xs, results, env, out1);
    CarryGrows(es, ys, results, env, out1);
    out := MuxesAt(results[1..], c, ts[1..], es[1..], xs[1..], ys[1..], Replace(s, results[0], node), ports,
                   ir[results[0] := x], out1);
  }

  lemma MuxAt(res: Value, node: Node, s: State, ports: Levels, ir: Env, env: Levels, x: nat) returns (out: Levels)
    requires Simulates(s, ports, ir, env) && node.Mux? && node.res == Wire(s.n.next, BitsOf(res.ty))
    requires node.c in env && node.t in env && node.f in env
    requires node.c.width == 1 && node.t.width == node.f.width == node.res.width
    requires x == if env[node.c] != 0 then env[node.t] else env[node.f]
    requires Define(ir, res, x).Some?
    ensures Simulates(Replace(s, res, node), ports, ir[res := x], out) && Grows(env, out)
  {
    ReplaceAt(s, res, node, ports, ir, env, x);
    out := env[node.res := x];
  }

  // ---------------------------------------------------------------- whole blocks

  lemma {:induction false} OpsAt(ops: seq<Op>, s: State, ports: Levels, ir: Env, env: Levels) returns (out: Levels)
    requires Combinational(ops) && Simulates(s, ports, ir, env) && Run(ops, ir, true).Some?
    ensures LowerOps(ops, s).Some?
    ensures Simulates(LowerOps(ops, s).value, ports, Run(ops, ir, true).value, out) && Grows(env, out)
    decreases ops, 0
  {
    hide Live, Tracks, LowerOp, Step;
    if ops == [] {
      return env;
    }
    var init, last := ops[..|ops| - 1], ops[|ops| - 1];
    var mid := OpsAt(init, s, ports, ir, env);
    out := OpAt(last, LowerOps(init, s).value, ports, Run(init, ir, true).value, mid);
  }

  lemma {:induction false} OpAt(op: Op, s: State, ports: Levels, ir: Env, env: Levels) returns (out: Levels)
    requires CombinationalOp(op) && Simulates(s, ports, ir, env) && Step(op, ir, true).Some?
    ensures LowerOp(op, s).Some?
    ensures Simulates(LowerOp(op, s).value, ports, Step(op, ir, true).value, out) && Grows(env, out)
    decreases op, 1
  {
    hide Live, Tracks, SimpleStep, LowerIf;
    if op.IfOp? {
      out := HoistAt(op, s, ports, ir, env);
    } else {
      out := SimpleAt(op, s, ports, ir, env);
    }
  }

  // Both arms hoisted into the body, one after the other.
  lemma {:induction false} HoistAt(op: Op, s: State, ports: Levels, ir: Env, env: Levels) returns (out: Levels)
    requires op.IfOp? && CombinationalOp(op) && Simulates(s, ports, ir, env) && Step(op, ir, true).Some?
    ensures LowerOp(op, s).Some?
    ensures Simulates(LowerOp(op, s).value, ports, Step(op, ir, true).value, out) && Grows(env, out)
    decreases op, 0
  {
    hide Live, LowerOps, Muxes, Run, DefineAll;
    var cond := s.wires[op.c];
    var inThen, inElse := Run(op.thenOps, ir, true).value, Run(op.elseOps, ir, true).value;
    var env1 := OpsAt(op.thenOps, s, ports, ir, env);
    var s1 := LowerOps(op.thenOps, s).value;
    YieldedCarry(s1, ports, inThen, env1, op.thenYield, op.results);
    RunExtends(op.thenOps, ir, true);
    Restrict(s1, ports, ir, inThen, env1);
    var env2 := OpsAt(op.elseOps, s1, ports, ir, env1);
    var s2 := LowerOps(op.elseOps, s1).value;
    YieldedCarry(s2, ports, inElse, env2, op.elseYield, op.results);
    RunExtends(op.elseOps, ir, true);
    Restrict(s2, ports, ir, inElse, env2);
    var ts, es := MappedAll(s1.wires, op.thenYield).value, MappedAll(s2.wires, op.elseYield).value;
    var xs, ys := Fetch(inThen, op.thenYield).value, Fetch(inElse, op.elseYield).value;
    CarryGrows(ts, xs, op.results, env1, env2);
    out := MuxesAt(op.results, cond, ts, es, xs, ys, s2, ports, ir, env2);
  }

  // --------------------------------------------------------------------- modules

  // Arguments bound in order: each holds its word, and none occurs twice.
  lemma {:induction false} DefineAllReads(env: Env, vs: seq<Value>, xs: seq<nat>)
    requires |vs| == |xs| && DefineAll(env, vs, xs).Some?
    ensures var out := DefineAll(env, vs, xs).value;
            && (forall i | 0 <= i < |vs| :: vs[i] !in env && vs[i] in out && out[vs[i]] == xs[i] && Word(vs[i], xs[i]))
            && (forall v | v in out && v !in env :: v in vs)
    ensures forall i, j | 0 <= i < j < |vs| :: vs[i] != vs[j]
    decreases |vs|
  {
    hide Word;
    if vs != [] {
      var env1 := Define(env, vs[0], xs[0]).value;
      DefineAllReads(env1, vs[1..], xs[1..]);
      DefineAllExtends(env1, vs[1..], xs[1..]);
      assert forall i | 0 < i < |vs| :: vs[i] == vs[1..][i - 1] && xs[i] == xs[1..][i - 1];
    }
  }

  lemma {:induction false} PortsBound(args: seq<Value>)
    requires forall i, j | 0 <= i < j < |args| :: args[i] != args[j]
    ensures forall i | 0 <= i < |args| :: args[i] in BindPorts(args) && BindPorts(args)[args[i]] == Ports(args)[i]
    decreases |args|
  {
    if args != [] {
      PortsBound(args[..|args| - 1]);
    }
  }

  lemma {:induction false} DriveAllAt(env: Levels, ws: seq<Wire>, xs: seq<nat>)
    requires |ws| == |xs| && forall i | 0 <= i < |ws| :: ws[i] !in env && ws[i].width > 0 && xs[i] < Pow2(ws[i].width)
    requires forall i, j | 0 <= i < j < |ws| :: ws[i] != ws[j]
    ensures var r := DriveAll(env, ws, xs);
            && r.Some?
            && (forall w | w in env :: w in r.value && r.value[w] == env[w])
            && (forall i | 0 <= i < |ws| :: ws[i] in r.value && r.value[ws[i]] == xs[i])
            && (forall w | w in r.value :: w in env || w in ws)
    decreases |ws|
  {
    if ws != [] {
      var env1 := Drive(env, ws[0], xs[0]).value;
      DriveAllAt(env1, ws[1..], xs[1..]);
      var out := DriveAll(env, ws, xs).value;
      forall i | 0 <= i < |ws| ensures ws[i] in out && out[ws[i]] == xs[i] {
        if i > 0 {
          assert ws[i] == ws[1..][i - 1];
        }
      }
    }
  }

  // The ports carry the arguments.
  lemma PortsAt(args: seq<Value>, xs: seq<nat>) returns (env: Levels)
    requires |args| == |xs| && DefineAll(map[], args, xs).Some?
    ensures DriveAll(map[], Ports(args), xs) == Some(env)
    ensures Simulates(State(Netlist([], |args|), BindPorts(args), None), env, DefineAll(map[], args, xs).value, env)
  {
    DefineAllOk(map[], args, xs);
    DefineAllReads(map[], args, xs);
    PortsBound(args);
    DriveAllAt(map[], Ports(args), xs);
    DriveAllOk(map[], Ports(args), xs);
    env := DriveAll(map[], Ports(args), xs).value;
  }

  // The lowered module outputs what a call that visits every operation returns.
  lemma LoweringPreserves(f: Func, inputs: seq<nat>)
    requires f.body != [] && Combinational(f.body) && Call(f, inputs, true).Some?
    ensures LowerFunction(f).Some?
    ensures Output(LowerFunction(f).value, inputs) == Call(f, inputs, true)
  {
    hide Live, LowerOps, DefineAll, DriveAll, Run, Evaluate;
    var n := |f.body| - 1;
    var start := State(Netlist([], |f.args|), BindPorts(f.args), None);
    var ports := PortsAt(f.args, inputs);
    var ir := DefineAll(map[], f.args, inputs).value;
    var env := OpsAt(f.body[..n], start, ports, ir, ports);
    ReturnAt(f, start, ports, Run(f.body[..n], ir, true).value, env);
  }

  lemma ReturnAt(f: Func, start: State, ports: Levels, ir: Env, env: Levels)
    requires f.body != [] && f.body[|f.body| - 1].ReturnOp? && f.body[|f.body| - 1].v in ir
    requires LowerOps(f.body[..|f.body| - 1], start).Some?
    requires Simulates(LowerOps(f.body[..|f.body| - 1], start).value, ports, ir, env)
    ensures LowerOps(f.body, start).Some?
    ensures var s := LowerOps(f.body, start).value;
            && s.returned.Some? && Evaluate(s.n.nodes, ports) == Some(env)
            && s.returned.value in env && env[s.returned.value] == ir[f.body[|f.body| - 1].v]
  {
    hide Evaluate, LevelsOk, EnvOk, LowerIf;
  }

  // -------------------------------------------------------- what can be lowered

  lemma {:induction false} FreshKeys(defs: set<Value>, vs: seq<Value>)
    requires Fresh(defs, vs).Some?
    ensures forall v :: v in Fresh(defs, vs).value <==> v in defs || v in vs
    decreases |vs|
  {
    if vs != [] {
      FreshKeys(defs + {vs[0]}, vs[1..]);
    }
  }

  lemma {:induction false} MuxesKeys(results: seq<Value>, c: Wire, ts: seq<Wire>, es: seq<Wire>, s: State)
    requires |results| == |ts| == |es|
    ensures forall v :: v in Muxes(results, c, ts, es, s).wires <==> v in s.wires || v in results
    decreases |results|
  {
    if results != [] {
      var node := Mux(NewWire(s.n, ts[0].width), c, ts[0], es[0]);
      MuxesKeys(results[1..], c, ts[1..], es[1..], Replace(s, results[0], node));
    }
  }

  // Every defined value has a wire.
  predicate Mapping(s: State, defs: set<Value>) {
    forall v | v in defs :: v in s.wires
  }

  // Verified code is lowered exactly when it holds no loop.
  lemma {:induction false} LowerIff(ops: seq<Op>, defs: set<Value>, s: State)
    requires Verify(ops, defs).Some? && Mapping(s, defs)
    ensures LowerOps(ops, s).Some? <==> Combinational(ops)
    ensures LowerOps(ops, s).Some? ==> Mapping(LowerOps(ops, s).value, Verify(ops, defs).value)
    decreases ops, 0
  {
    hide LowerOp, VerifyOp, CombinationalOp, Mapping;
    if ops != [] {
      var init, last := ops[..|ops| - 1], ops[|ops| - 1];
      LowerIff(init, defs, s);
      if LowerOps(init, s).Some? {
        LowerOpIff(last, Verify(init, defs).value, LowerOps(init, s).value);
      }
    }
  }

  lemma {:induction false} LowerOpIff(op: Op, defs: set<Value>, s: State)
    requires VerifyOp(op, defs).Some? && Mapping(s, defs)
    ensures LowerOp(op, s).Some? <==> CombinationalOp(op)
    ensures LowerOp(op, s).Some? ==> Mapping(LowerOp(op, s).value, VerifyOp(op, defs).value)
    decreases op, 1
  {
    match op
    case IfOp(_, _, _, _, _, _) =>
      LowerIfIff(op, defs, s);
    case ForOp(_, _, _, _, _, _, _, _, _) =>
    case ReturnOp(_) =>
    case _ =>
      FreshOne(defs, op.res);
  }

  lemma VerifyGrows(ops: seq<Op>, defs: set<Value>)
    requires Verify(ops, defs).Some?
    ensures defs <= Verify(ops, defs).value
    decreases |ops|
  {
    if ops != [] {
      var init, last := ops[..|ops| - 1], ops[|ops| - 1];
      VerifyGrows(init, defs);
      VerifyOpGrows(last, Verify(init, defs).value);
    }
  }

  lemma VerifyOpGrows(op: Op, defs: set<Value>)
    requires VerifyOp(op, defs).Some?
    ensures defs <= VerifyOp(op, defs).value
  {
    match op
    case IfOp(results, _, _, _, _, _) => FreshKeys(defs, results);
    case ForOp(results, _, _, _, _, _, _, _, _) => FreshKeys(defs, results);
    case ReturnOp(_) =>
    case _ => FreshKeys(defs, [op.res]);
  }

  lemma {:induction false} LowerIfIff(op: Op, defs: set<Value>, s: State)
    requires op.IfOp? && VerifyOp(op, defs).Some? && Mapping(s, defs)
    ensures LowerOp(op, s).Some? <==> CombinationalOp(op)
    ensures LowerOp(op, s).Some? ==> Mapping(LowerOp(op, s).value, VerifyOp(op, defs).value)
    decreases op, 0
  {
    hide LowerOps, Verify, Muxes;
    LowerIff(op.thenOps, defs, s);
    VerifyGrows(op.thenOps, defs);
    VerifyGrows(op.elseOps, defs);
    FreshKeys(defs, op.results);
    var s1 := LowerOps(op.thenOps, s);
    if s1.Some? {
      LowerIff(op.elseOps, defs, s1.value);
      var ts, s2 := MappedAll(s1.value.wires, op.thenYield), LowerOps(op.elseOps, s1.value);
      if s2.Some? {
        var es := MappedAll(s2.value.wires, op.elseYield);
        MuxesKeys(op.results, s.wires[op.c], ts.value, es.value, s2.value);
      }
    } else {
      assert !CombinationalOp(op);
    }
  }

  lemma BindPortsKeys(args: seq<Value>)
    ensures BindPorts(args).Keys == set v | v in args
  {
    if args != [] {
      BindPortsKeys(args[..|args| - 1]);
    }
  }

  // A verified function yields a module exactly when it holds no loop.
  lemma ModuleIff(f: Func)
    requires VerifyFunc(f)
    ensures LowerFunction(f).Some? <==> Combinational(f.body)
  {
    hide LowerOps, Verify;
    var n := |f.body| - 1;
    var start := State(Netlist([], |f.args|), BindPorts(f.args), None);
    var defs := Fresh({}, f.args).value;
    BindPortsKeys(f.args);
    FreshKeys({}, f.args);
    LowerIff(f.body[..n], defs, start);
    LastReturn(f, start);
  }

  lemma LastReturn(f: Func, start: State)
    requires f.body != [] && f.body[|f.body| - 1].ReturnOp?
    requires var init := LowerOps(f.body[..|f.body| - 1], start);
             init.Some? ==> f.body[|f.body| - 1].v in init.value.wires
    ensures var r := LowerOps(f.body, start);
            && (r.Some? <==> LowerOps(f.body[..|f.body| - 1], start).Some?)
            && (r.Some? ==> r.value.returned.Some?)
    ensures Combinational(f.body) <==> Combinational(f.body[..|f.body| - 1])
  {
  }
}
