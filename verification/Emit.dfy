/**
 The emitter (src/mlirgen/mlirgen.cpp) as functions from builder states to
 builder states.  The class in MlirGen.dfy performs the same steps by mutation
 and is proved equal to these.
 */
module Emit {
  import opened FixedWidth
  import opened Arith
  import opened Ast
  import opened Ir
  import opened Wrappers

  // The builder: the operations of the block at the insertion point, and the
  // number of the next SSA value.
  datatype Builder = Builder(block: seq<Op>, next: nat)

  datatype Emitted = Emitted(b: Builder, v: Value)

  type Bindings = map<Symbol, Value>
  type Constants = map<Symbol, Bits>

  function Append(b: Builder, op: Op): Builder {
    Builder(b.block + [op], b.next + 1)
  }

  function NewValue(b: Builder, w: nat): Value {
    Value(b.next, I(w))
  }

  // intConst, src/mlirgen/mlirgen.cpp:99-105: an APInt keeps the low bits.
  function IntConst(b: Builder, raw: int, w: nat): Emitted {
    var v := NewValue(b, w);
    Emitted(Append(b, ConstOp(v, raw % Pow2(w))), v)
  }

  // coerce, src/mlirgen/mlirgen.cpp:87-95
  function Coerce(b: Builder, v: Value, fromSigned: bool, toWidth: nat): Emitted {
    var from := BitsOf(v.ty);
    if from == toWidth then Emitted(b, v)
    else
      var r := NewValue(b, toWidth);
      Emitted(Append(b, if from > toWidth then TruncOp(r, v) else ExtOp(r, fromSigned, v)), r)
  }

  // An operation on two values of one type.
  function Arithmetic(b: Builder, op: ArithOp, l: Value, r: Value): Emitted {
    var v := Value(b.next, l.ty);
    Emitted(Append(b, BinOp(v, op, l, r)), v)
  }

  function Comparison(b: Builder, p: CmpIPredicate, l: Value, r: Value): Emitted {
    var v := NewValue(b, 1);
    Emitted(Append(b, CmpOp(v, p, l, r)), v)
  }

  function Select(b: Builder, c: Value, t: Value, f: Value): Emitted {
    var v := Value(b.next, t.ty);
    Emitted(Append(b, SelectOp(v, c, t, f)), v)
  }

  // predicate, src/mlirgen/mlirgen.cpp:414-424
  function PredicateFor(c: Cmp, signed: bool): CmpIPredicate {
    match c
    case Lt => if signed then Slt else Ult
    case Le => if signed then Sle else Ule
    case Gt => if signed then Sgt else Ugt
    case Ge => if signed then Sge else Uge
    case Ne => CNe
    case Eq => CEq
  }

  // bitsFor, src/mlirgen/mlirgen.cpp:115-119
  function BitsFor(v: nat): nat {
    if v < 2 then 1 else 1 + BitsFor(v / 2)
  }

  // ---------------------------------------------------------------- expressions

  // The operations of the operator table (src/mlirgen/mlirgen.cpp:311-322)
  function TableOp(op: BinOp): ArithOp {
    match op
    case Plus => AddI
    case Minus => SubI
    case Star => MulI
    case Amp => AndI
    case Pipe => OrI
    case _ => XOrI
  }

  // emitDivRem, src/mlirgen/mlirgen.cpp:338-365
  function EmitDivRem(op: BinOp, lt: Type, rt: Type, res: Type, l: Value, r: Value, b0: Builder): (e: Emitted)
    ensures e.b.next >= b0.next
  {
    var w := Max(Max(lt.width, rt.width), res.width);
    var a := Coerce(b0, l, lt.signed, w);
    var d := Coerce(a.b, r, rt.signed, w);
    var zero := IntConst(d.b, 0, w);
    var byZero := Comparison(zero.b, CEq, d.v, zero.v);
    var one := IntConst(byZero.b, 1, w);
    var safe := Select(one.b, byZero.v, one.v, d.v);
    var arith :=
      if op == Slash then (if res.signed then DivSI else DivUI)
      else (if res.signed then RemSI else RemUI);
    var out := Arithmetic(safe.b, arith, a.v, safe.v);
    var guarded := Select(out.b, byZero.v, zero.v, out.v);
    Coerce(guarded.b, guarded.v, res.signed, res.width)
  }

  // emitShift, src/mlirgen/mlirgen.cpp:381-412
  function EmitShift(op: BinOp, lt: Type, rt: Type, l: Value, r: Value, b0: Builder): (e: Emitted)
    ensures e.b.next >= b0.next
  {
    var w := lt.width;
    var gw := Max(rt.width, BitsFor(w));
    var amount := Coerce(b0, r, false, gw);
    var limit := IntConst(amount.b, w, gw);
    var oob := Comparison(limit.b, Uge, amount.v, limit.v);
    if op == Shr && lt.signed then
      var top := IntConst(oob.b, w - 1, gw);
      var clamped := Select(top.b, oob.v, top.v, amount.v);
      var amt := Coerce(clamped.b, clamped.v, false, w);
      Arithmetic(amt.b, ShRSI, l, amt.v)
    else
      var none := IntConst(oob.b, 0, gw);
      var inRange := Select(none.b, oob.v, none.v, amount.v);
      var amt := Coerce(inRange.b, inRange.v, false, w);
      var out := Arithmetic(amt.b, if op == Shl then ShLI else ShRUI, l, amt.v);
      var zero := IntConst(out.b, 0, w);
      Select(zero.b, oob.v, zero.v, out.v)
  }

  // emitBinary, src/mlirgen/mlirgen.cpp:268-325, after both operands are emitted.
  function EmitBinary(op: BinOp, lt: Type, rt: Type, res: Type, l: Value, r: Value, b: Builder): (e: Option<Emitted>)
    ensures e.Some? ==> e.value.b.next >= b.next
  {
    match op
    case Rel(c) =>
      var w := Max(lt.width, rt.width);
      var x := Coerce(b, l, lt.signed, w);
      var y := Coerce(x.b, r, rt.signed, w);
      Some(Comparison(y.b, PredicateFor(c, lt.signed), x.v, y.v))
    case AmpAmp | PipePipe =>
      if lt.width != 1 || rt.width != 1 then None
      else Some(Arithmetic(b, if op == AmpAmp then AndI else OrI, l, r))
    case Shl | Shr => Some(EmitShift(op, lt, rt, l, r, b))
    case Slash | Percent => Some(EmitDivRem(op, lt, rt, res, l, r, b))
    case _ =>
      var x := Coerce(b, l, lt.signed, res.width);
      var y := Coerce(x.b, r, rt.signed, res.width);
      Some(Arithmetic(y.b, TableOp(op), x.v, y.v))
  }

  // src/mlirgen/mlirgen.cpp:200-231
  function EmitUnary(op: UnOp, operand: Type, ty: Type, v: Value, b: Builder): (e: Emitted)
    ensures e.b.next >= b.next
  {
    match op
    case UPlus => Emitted(b, v)
    case UMinus =>
      var wide := Coerce(b, v, operand.signed, ty.width);
      var zero := IntConst(wide.b, 0, ty.width);
      Arithmetic(zero.b, SubI, zero.v, wide.v)
    case UTilde =>
      var ones := IntConst(b, Mask(ty.width), ty.width);
      Arithmetic(ones.b, XOrI, v, ones.v)
    case UBang =>
      var zero := IntConst(b, 0, operand.width);
      Comparison(zero.b, CEq, v, zero.v)
  }

  // emit(Expr), src/mlirgen/mlirgen.cpp:164-258
  function EmitExpr(e: Expr, vals: Bindings, consts: Constants, b: Builder): (r: Option<Emitted>)
    ensures r.Some? ==> r.value.b.next >= b.next
  {
    match e
    case IntLit(v, t) => Some(IntConst(b, v, t.width))
    case NameRef(sym, _) =>
      if sym in vals then Some(Emitted(b, vals[sym]))
      else if sym in consts then Some(IntConst(b, consts[sym].raw, sym.ty.width))
      else None
    case Cast(target, x, _) =>
      var v :- EmitExpr(x, vals, consts, b);
      Some(Coerce(v.b, v.v, x.ty.signed, target.width))
    case Unary(op, x, t) =>
      var v :- EmitExpr(x, vals, consts, b);
      Some(EmitUnary(op, x.ty, t, v.v, v.b))
    case Binary(op, l, r, t) =>
      var x :- EmitExpr(l, vals, consts, b);
      var y :- EmitExpr(r, vals, consts, x.b);
      EmitBinary(op, l.ty, r.ty, t, x.v, y.v, y.b)
    case Ternary(c, x, y, ty) =>
      var cv :- EmitExpr(c, vals, consts, b);
      var tv :- EmitExpr(x, vals, consts, cv.b);
      var fv :- EmitExpr(y, vals, consts, tv.b);
      var t := Coerce(fv.b, tv.v, x.ty.signed, ty.width);
      var f := Coerce(t.b, fv.v, y.ty.signed, ty.width);
      Some(Select(f.b, cv.v, t.v, f.v))
  }

  // ----------------------------------------------------------------- statements

  // The emitter between two statements.
  datatype Gen = Gen(vals: Bindings, b: Builder, returned: bool)

  // What stays fixed while a function is emitted.
  datatype Context = Context(consts: Constants, returnType: Type)

  // The values the symbols hold, or nothing when one has none.
  function Lookup(vals: Bindings, syms: seq<Symbol>): (r: Option<seq<Value>>)
    ensures r.Some? <==> forall x | x in syms :: x in vals
    ensures r.Some? ==> |r.value| == |syms| && forall i | 0 <= i < |syms| :: r.value[i] == vals[syms[i]]
  {
    if syms == [] then Some([])
    else if syms[0] !in vals then None
    else
      var rest :- Lookup(vals, syms[1..]);
      Some([vals[syms[0]]] + rest)
  }

  // New values of the types of old ones, numbered from `next`.
  function FreshLike(vs: seq<Value>, next: nat): (r: seq<Value>)
    ensures |r| == |vs|
    ensures forall i | 0 <= i < |vs| :: r[i] == Value(next + i, vs[i].ty)
  {
    seq(|vs|, i requires 0 <= i < |vs| => Value(next + i, vs[i].ty))
  }

  // Rebind each symbol to the matching value.
  function Rebind(vals: Bindings, syms: seq<Symbol>, vs: seq<Value>): Bindings
    requires |syms| == |vs|
    decreases |syms|
  {
    if syms == [] then vals else Rebind(vals[syms[0] := vs[0]], syms[1..], vs[1..])
  }

  function RemoveSymbol(syms: seq<Symbol>, x: Symbol): seq<Symbol> {
    if syms == [] then []
    else if syms[0] == x then RemoveSymbol(syms[1..], x)
    else [syms[0]] + RemoveSymbol(syms[1..], x)
  }

  const MAX_TRIP: nat := 0x7fff_ffff_ffff_ffff

  function IndexConst(b: Builder, v: nat): Emitted {
    var r := Value(b.next, Index);
    Emitted(Append(b, ConstOp(r, v)), r)
  }

  // The values a loop header leaves in the enclosing block.
  datatype LoopHead = LoopHead(ivInit: Value, ivStep: Value, lb: Value, ub: Value, one: Value, b: Builder)

  // src/mlirgen/mlirgen.cpp:646-664: init and step at the induction type, and the
  // normalised bounds 0, trip, 1.
  function EmitHead(iv: Symbol, init: Expr, step: Expr, trip: nat, cx: Context, g: Gen): (r: Option<LoopHead>)
    ensures r.Some? ==> r.value.b.next >= g.b.next
  {
    var iv0 :- EmitExpr(init, g.vals, cx.consts, g.b);
    var ivInit := Coerce(iv0.b, iv0.v, init.ty.signed, iv.ty.width);
    var st0 :- EmitExpr(step, g.vals, cx.consts, ivInit.b);
    var ivStep := Coerce(st0.b, st0.v, step.ty.signed, iv.ty.width);
    var lb := IndexConst(ivStep.b, 0);
    var ub := IndexConst(lb.b, trip);
    var one := IndexConst(ub.b, 1);
    Some(LoopHead(ivInit.v, ivStep.v, lb.v, ub.v, one.v, one.b))
  }

  // The induction value rebuilt from the counter, src/mlirgen/mlirgen.cpp:686-693.
  function EmitIv(b: Builder, counter: Value, w: nat, init: Value, step: Value, isAdd: bool): Emitted {
    var k := NewValue(b, w);
    var b1 := Append(b, IndexCastOp(k, counter));
    var delta := Arithmetic(b1, MulI, k, step);
    Arithmetic(delta.b, if isAdd then AddI else SubI, init, delta.v)
  }

  function Counter(h: LoopHead): Value {
    Value(h.b.next, Index)
  }

  function RegionArgs(h: LoopHead, inits: seq<Value>): (r: seq<Value>)
    ensures |r| == |inits|
  {
    FreshLike(inits, h.b.next + 1)
  }

  // The emitter at the start of a loop body: the induction symbol names the
  // rebuilt value, a carried symbol its region argument.
  function BodyStart(h: LoopHead, iv: Symbol, isAdd: bool, carried: seq<Symbol>, inits: seq<Value>, vals: Bindings): (g: Gen)
    requires |carried| == |inits|
    ensures g.b.next >= h.b.next
  {
    var inner := EmitIv(Builder([], h.b.next + 1 + |inits|), Counter(h), iv.ty.width, h.ivInit, h.ivStep, isAdd);
    Gen(Rebind(vals[iv := inner.v], carried, RegionArgs(h, inits)), inner.b, false)
  }

  function LoopOp(h: LoopHead, inits: seq<Value>, region: Region, results: seq<Value>): Op {
    ForOp(results, h.lb, h.ub, h.one, inits, Counter(h), RegionArgs(h, inits), region.ops, region.outs)
  }

  // emit(Stmt), src/mlirgen/mlirgen.cpp:435-499
  function EmitStmt(s: Stmt, cx: Context, g: Gen): (r: Option<Gen>)
    ensures r.Some? ==> r.value.b.next >= g.b.next
    decreases s, 1
  {
    match s
    case VarDecl(sym, init) =>
      var v :- EmitExpr(init, g.vals, cx.consts, g.b);
      var c := Coerce(v.b, v.v, init.ty.signed, sym.ty.width);
      Some(Gen(g.vals[sym := c.v], c.b, g.returned))
    case Assign(sym, value) =>
      var v :- EmitExpr(value, g.vals, cx.consts, g.b);
      var c := Coerce(v.b, v.v, value.ty.signed, sym.ty.width);
      Some(Gen(g.vals[sym := c.v], c.b, g.returned))
    case Return(value) =>
      var v :- EmitExpr(value, g.vals, cx.consts, g.b);
      var c := Coerce(v.b, v.v, value.ty.signed, cx.returnType.width);
      Some(Gen(g.vals, Builder(c.b.block + [ReturnOp(c.v)], c.b.next), true))
    case If(c, t, e) => EmitIf(c, t, e, cx, g)
    case For(iv, init, _, _, isAdd, step, trip, known, body) =>
      if !known || trip > MAX_TRIP then None
      else if trip == 0 then Some(g)
      else EmitFor(iv, init, isAdd, step, trip, body, cx, g)
    case Block(b) => EmitBlock(b, cx, g)
  }

  // emitBlock, src/mlirgen/mlirgen.cpp:423-433: a block ends with its first `return`.
  function EmitBlock(b: seq<Stmt>, cx: Context, g: Gen): (r: Option<Gen>)
    ensures r.Some? ==> r.value.b.next >= g.b.next
    decreases b, 0
  {
    if b == [] then Some(g)
    else
      var g1 :- EmitStmt(b[0], cx, g);
      if g1.returned then Some(g1) else EmitBlock(b[1..], cx, g1)
  }

  function EmitElse(e: Else, cx: Context, g: Gen): (r: Option<Gen>)
    ensures r.Some? ==> r.value.b.next >= g.b.next
    decreases e, 1
  {
    match e
    case NoElse => Some(g)
    case ElseDo(s) => EmitStmt(s, cx, g)
  }

  datatype Region = Region(ops: seq<Op>, outs: seq<Value>, next: nat)

  // The tail of emitBranch: a region ends by yielding the carried symbols.
  function Yielded(g: Option<Gen>, carried: seq<Symbol>): Option<Region> {
    var g1 :- g;
    if g1.returned then None
    else
      var outs :- Lookup(g1.vals, carried);
      Some(Region(g1.b.block, outs, g1.b.next))
  }

  // emitIf, src/mlirgen/mlirgen.cpp:538-585
  function EmitIf(c: Expr, t: seq<Stmt>, e: Else, cx: Context, g: Gen): (r: Option<Gen>)
    ensures r.Some? ==> r.value.b.next >= g.b.next
    decreases If(c, t, e), 0
  {
    var cv :- EmitExpr(c, g.vals, cx.consts, g.b);
    var carried := CollectElse(e, CollectBlock(t, []));
    var prior :- Lookup(g.vals, carried);
    var tr :- Yielded(EmitBlock(t, cx, Gen(g.vals, Builder([], cv.b.next), false)), carried);
    var er :- Yielded(EmitElse(e, cx, Gen(g.vals, Builder([], tr.next), false)), carried);
    var results := FreshLike(prior, er.next);
    Some(Gen(Rebind(g.vals, carried, results),
             Builder(cv.b.block + [IfOp(results, cv.v, tr.ops, tr.outs, er.ops, er.outs)], er.next + |results|),
             g.returned))
  }

  // emitFor, src/mlirgen/mlirgen.cpp:620-724
  function EmitFor(iv: Symbol, init: Expr, isAdd: bool, step: Expr, trip: nat, body: seq<Stmt>, cx: Context, g: Gen): (r: Option<Gen>)
    ensures r.Some? ==> r.value.b.next >= g.b.next
    decreases body, 1
  {
    var carried := RemoveSymbol(CollectBlock(body, []), iv);
    var inits :- Lookup(g.vals, carried);
    var h :- EmitHead(iv, init, step, trip, cx, g);
    var region :- Yielded(EmitBlock(body, cx, BodyStart(h, iv, isAdd, carried, inits, g.vals)), carried);
    var results := FreshLike(inits, region.next);
    Some(Gen(Rebind(g.vals, carried, results),
             Builder(h.b.block + [LoopOp(h, inits, region, results)], region.next + |results|),
             g.returned))
  }

  // ------------------------------------------------------------------- functions

  function ConstantTable(consts: seq<Const>): Constants {
    if consts == [] then map[]
    else
      var last := consts[|consts| - 1];
      ConstantTable(consts[..|consts| - 1])[last.sym := last.value]
  }

  function Arguments(params: seq<Symbol>): (r: seq<Value>)
    ensures |r| == |params|
  {
    seq(|params|, i requires 0 <= i < |params| => Value(i, I(params[i].ty.width)))
  }

  // emitFunction, src/mlirgen/mlirgen.cpp:121-160
  function EmitFunction(p: Program): Option<Func> {
    var args := Arguments(p.params);
    var g :- EmitBlock(p.body, Context(ConstantTable(p.consts), p.returnType),
                       Gen(Rebind(map[], p.params, args), Builder([], |args|), false));
    if g.returned then Some(Func(args, I(p.returnType.width), g.b.block)) else None
  }
}
