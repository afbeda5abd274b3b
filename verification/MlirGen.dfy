/**
 The emitter as the source has it (src/mlirgen/mlirgen.cpp): one object whose
 methods append to the block at the insertion point, rebind symbols, and set the
 failed and returned flags.  Every method is proved to take the object from
 state to state exactly as the functions of Emit do.
 */
module MlirGen {
  import opened Arith
  import opened FixedWidth
  import opened Ast
  import opened Ir
  import opened Wrappers
  import Emit

  class MLIRGen {
    var values: Emit.Bindings
    var constants: Emit.Constants
    var block: seq<Op>
    var next: nat
    var returnType: Type
    var returned: bool
    var failed: bool

    constructor ()
      ensures values == map[] && constants == map[] && block == [] && next == 0 && !returned && !failed
    {
      values, constants, block, next := map[], map[], [], 0;
      returnType, returned, failed := U1, false, false;
    }

    function Builder(): Emit.Builder
      reads this
    {
      Emit.Builder(block, next)
    }

    function Gen(): Emit.Gen
      reads this
    {
      Emit.Gen(values, Builder(), returned)
    }

    function Context(): Emit.Context
      reads this
    {
      Emit.Context(constants, returnType)
    }

    // From here on the function is refused, whatever is emitted meanwhile.
    method Fail()
      modifies `failed
      ensures failed
    {
      failed := true;
    }

    method Create(op: Op)
      modifies `block, `next
      ensures Builder() == Emit.Append(old(Builder()), op)
    {
      block, next := block + [op], next + 1;
    }

    // ------------------------------------------------------------ width plumbing

    method IntConst(raw: int, width: nat) returns (v: Value)
      modifies `block, `next
      ensures Emit.Emitted(Builder(), v) == Emit.IntConst(old(Builder()), raw, width)
    {
      v := Value(next, I(width));
      Create(ConstOp(v, raw % Pow2(width)));
    }

    method Coerce(v: Value, fromSigned: bool, toWidth: nat) returns (r: Value)
      modifies `block, `next
      ensures Emit.Emitted(Builder(), r) == Emit.Coerce(old(Builder()), v, fromSigned, toWidth)
    {
      var from := BitsOf(v.ty);
      if from == toWidth {
        return v;
      }
      r := Value(next, I(toWidth));
      if from > toWidth {
        Create(TruncOp(r, v));
      } else {
        Create(ExtOp(r, fromSigned, v));
      }
    }

    method Arithmetic(op: ArithOp, l: Value, r: Value) returns (v: Value)
      modifies `block, `next
      ensures Emit.Emitted(Builder(), v) == Emit.Arithmetic(old(Builder()), op, l, r)
    {
      v := Value(next, l.ty);
      Create(BinOp(v, op, l, r));
    }

    method Comparison(p: CmpIPredicate, l: Value, r: Value) returns (v: Value)
      modifies `block, `next
      ensures Emit.Emitted(Builder(), v) == Emit.Comparison(old(Builder()), p, l, r)
    {
      v := Value(next, I(1));
      Create(CmpOp(v, p, l, r));
    }

    method Select(c: Value, t: Value, f: Value) returns (v: Value)
      modifies `block, `next
      ensures Emit.Emitted(Builder(), v) == Emit.Select(old(Builder()), c, t, f)
    {
      v := Value(next, t.ty);
      Create(SelectOp(v, c, t, f));
    }

    method IndexConst(n: nat) returns (v: Value)
      modifies `block, `next
      ensures Emit.Emitted(Builder(), v) == Emit.IndexConst(old(Builder()), n)
    {
      v := Value(next, Index);
      Create(ConstOp(v, n));
    }

    // -------------------------------------------------------------- expressions

    method EmitDivRem(op: BinOp, lt: Type, rt: Type, res: Type, l: Value, r: Value) returns (v: Value)
      modifies `block, `next
      ensures Emit.Emitted(Builder(), v) == Emit.EmitDivRem(op, lt, rt, res, l, r, old(Builder()))
    {
      var w := Max(Max(lt.width, rt.width), res.width);
      var a := Coerce(l, lt.signed, w);
      var d := Coerce(r, rt.signed, w);
      var zero := IntConst(0, w);
      var byZero := Comparison(CEq, d, zero);
      var one := IntConst(1, w);
      var safe := Select(byZero, one, d);
      var out: Value;
      if op == Slash {
        out := Arithmetic(if res.signed then DivSI else DivUI, a, safe);
      } else {
        out := Arithmetic(if res.signed then RemSI else RemUI, a, safe);
      }
      var guarded := Select(byZero, zero, out);
      v := Coerce(guarded, res.signed, res.width);
    }

    method EmitShift(op: BinOp, lt: Type, rt: Type, l: Value, r: Value) returns (v: Value)
      modifies `block, `next
      ensures Emit.Emitted(Builder(), v) == Emit.EmitShift(op, lt, rt, l, r, old(Builder()))
    {
      hide Emit.Select, Emit.IntConst, Emit.Coerce, Emit.Arithmetic, Emit.Comparison, Emit.BitsFor;
      var w := lt.width;
      var bits := BitsFor(w);
      var gw := Max(rt.width, bits);
      var amount := Coerce(r, false, gw);
      var limit := IntConst(w, gw);
      var oob := Comparison(Uge, amount, limit);
      if op == Shr && lt.signed {
        var top := IntConst(w as int - 1, gw);
        var clamped := Select(oob, top, amount);
        var amt := Coerce(clamped, false, w);
        v := Arithmetic(ShRSI, l, amt);
        return;
      }
      var none := IntConst(0, gw);
      var inRange := Select(oob, none, amount);
      var amt := Coerce(inRange, false, w);
      var out := Arithmetic(if op == Shl then ShLI else ShRUI, l, amt);
      var zero := IntConst(0, w);
      v := Select(oob, zero, out);
    }

    // The length of n in binary, at least one.
    method BitsFor(n: nat) returns (k: nat)
      ensures k == Emit.BitsFor(n)
    {
      var v := n;
      k := 1;
      while v / 2 != 0
        invariant k - 1 + Emit.BitsFor(v) == Emit.BitsFor(n)
        decreases v
      {
        v := v / 2;
        k := k + 1;
      }
    }

    method EmitBinary(op: BinOp, lt: Type, rt: Type, res: Type, l: Value, r: Value) returns (v: Option<Value>)
      requires !failed
      modifies `block, `next, `failed
      ensures Answers(Emit.EmitBinary(op, lt, rt, res, l, r, old(Builder())), v)
    {
      hide Emit.EmitShift, Emit.EmitDivRem, Emit.Coerce, Emit.Arithmetic, Emit.Comparison;
      match op
      case Rel(c) =>
        var w := Max(lt.width, rt.width);
        var x := Coerce(l, lt.signed, w);
        var y := Coerce(r, rt.signed, w);
        var z := Comparison(Emit.PredicateFor(c, lt.signed), x, y);
        v := Some(z);
      case AmpAmp | PipePipe =>
        if lt.width != 1 || rt.width != 1 {
          Fail();
          return None;
        }
        var z := Arithmetic(if op == AmpAmp then AndI else OrI, l, r);
        v := Some(z);
      case Shl | Shr =>
        var z := EmitShift(op, lt, rt, l, r);
        v := Some(z);
      case Slash | Percent =>
        var z := EmitDivRem(op, lt, rt, res, l, r);
        v := Some(z);
      case _ =>
        var x := Coerce(l, lt.signed, res.width);
        var y := Coerce(r, rt.signed, res.width);
        var z := Arithmetic(Emit.TableOp(op), x, y);
        v := Some(z);
    }

    // The answer of an emitting method: a value and the new builder, or a
    // refusal.
    predicate Answers(spec: Option<Emit.Emitted>, v: Option<Value>)
      reads this
    {
      match spec
      case None => v.None? && failed
      case Some(e) => v == Some(e.v) && Builder() == e.b && !failed
    }

    method EmitExpr(e: Expr) returns (v: Option<Value>)
      requires !failed
      modifies `block, `next, `failed
      ensures Answers(Emit.EmitExpr(e, values, constants, old(Builder())), v)
      decreases e
    {
      match e
      case IntLit(n, t) =>
        var r := IntConst(n, t.width);
        v := Some(r);
      case NameRef(sym, _) =>
        if sym in values {
          v := Some(values[sym]);
        } else if sym in constants {
          var r := IntConst(constants[sym].raw, sym.ty.width);
          v := Some(r);
        } else {
          Fail();
          v := None;
        }
      case Cast(target, x, _) =>
        var xv := EmitExpr(x);
        if xv.None? { return None; }
        var r := Coerce(xv.value, x.ty.signed, target.width);
        v := Some(r);
      case Unary(op, x, t) =>
        var xv := EmitExpr(x);
        if xv.None? { return None; }
        var r := EmitUnary(op, x.ty, t, xv.value);
        v := Some(r);
      case Binary(op, l, r, t) =>
        var lv := EmitExpr(l);
        if lv.None? { return None; }
        var rv := EmitExpr(r);
        if rv.None? { return None; }
        v := EmitBinary(op, l.ty, r.ty, t, lv.value, rv.value);
      case Ternary(c, x, y, t) =>
        var cv := EmitExpr(c);
        if cv.None? { return None; }
        var tv := EmitExpr(x);
        if tv.None? { return None; }
        var fv := EmitExpr(y);
        if fv.None? { return None; }
        var tc := Coerce(tv.value, x.ty.signed, t.width);
        var fc := Coerce(fv.value, y.ty.signed, t.width);
        var r := Select(cv.value, tc, fc);
        v := Some(r);
    }

    method EmitUnary(op: UnOp, operand: Type, t: Type, x: Value) returns (v: Value)
      modifies `block, `next
      ensures Emit.Emitted(Builder(), v) == Emit.EmitUnary(op, operand, t, x, old(Builder()))
    {
      match op
      case UPlus =>
        v := x;
      case UMinus =>
        var wide := Coerce(x, operand.signed, t.width);
        var zero := IntConst(0, t.width);
        v := Arithmetic(SubI, zero, wide);
      case UTilde =>
        var ones := IntConst(Mask(t.width), t.width);
        v := Arithmetic(XOrI, x, ones);
      case UBang =>
        var zero := IntConst(0, operand.width);
        v := Comparison(CEq, x, zero);
    }

    // --------------------------------------------------------------- statements

    // The emitter after a statement: the functional emitter's state, or failed.
    predicate Reached(spec: Option<Emit.Gen>)
      reads this
    {
      match spec
      case None => failed
      case Some(g) => Gen() == g && !failed
    }

    method EmitBlock(b: seq<Stmt>)
      requires !failed && !returned
      modifies `values, `block, `next, `returned, `failed
      ensures Reached(Emit.EmitBlock(b, Context(), old(Gen())))
      decreases b, 1
    {
      var i := 0;
      ghost var start := Gen();
      assert b[0..] == b;
      while i < |b|
        invariant 0 <= i <= |b| && !failed && !returned
        invariant Emit.EmitBlock(b[i..], Context(), Gen()) == Emit.EmitBlock(b, Context(), start)
      {
        assert b[i..][0] == b[i] && b[i..][1..] == b[i + 1..];
        EmitStmt(b[i]);
        if failed || returned { return; }
        i := i + 1;
      }
      assert b[i..] == [];
    }

    method EmitStmt(s: Stmt)
      requires !failed && !returned
      modifies `values, `block, `next, `returned, `failed
      ensures Reached(Emit.EmitStmt(s, Context(), old(Gen())))
      decreases s, 3
    {
      match s
      case VarDecl(sym, init) =>
        Store(sym, init);
      case Assign(sym, value) =>
        Store(sym, value);
      case Return(value) =>
        var v := EmitExpr(value);
        if v.None? { return; }
        var c := Coerce(v.value, value.ty.signed, returnType.width);
        block := block + [ReturnOp(c)];
        returned := true;
      case If(_, _, _) =>
        EmitIf(s);
      case For(_, _, _, _, _, _, _, _, _) =>
        if !s.tripKnown || s.trip > Emit.MAX_TRIP {
          Fail();
          return;
        }
        if s.trip == 0 { return; }
        EmitFor(s);
      case Block(b) =>
        EmitBlock(b);
    }

    // A declaration and an assignment rebind the symbol.
    method Store(sym: Symbol, e: Expr)
      requires !failed && !returned
      modifies `values, `block, `next, `failed
      ensures Reached(Emit.EmitStmt(VarDecl(sym, e), Context(), old(Gen())))
    {
      var v := EmitExpr(e);
      if v.None? { return; }
      var c := Coerce(v.value, e.ty.signed, sym.ty.width);
      values := values[sym := c];
    }

    // The values the carried symbols hold now; refused when one has none.
    method LookupAll(syms: seq<Symbol>) returns (vs: Option<seq<Value>>)
      requires !failed
      modifies `failed
      ensures vs == Emit.Lookup(values, syms)
      ensures failed == vs.None?
    {
      var found: seq<Value> := [];
      var i := 0;
      while i < |syms|
        invariant 0 <= i <= |syms| && !failed
        invariant |found| == i && forall j | 0 <= j < i :: syms[j] in values && found[j] == values[syms[j]]
      {
        if syms[i] !in values {
          Fail();
          return None;
        }
        found := found + [values[syms[i]]];
        i := i + 1;
      }
      assert found == Emit.Lookup(values, syms).value;
      return Some(found);
    }

    // Later reads of the symbols find these values.
    method BindAll(syms: seq<Symbol>, vs: seq<Value>)
      requires |syms| == |vs|
      modifies `values
      ensures values == Emit.Rebind(old(values), syms, vs)
    {
      var i := 0;
      assert syms[0..] == syms && vs[0..] == vs;
      while i < |syms|
        invariant 0 <= i <= |syms|
        invariant Emit.Rebind(values, syms[i..], vs[i..]) == Emit.Rebind(old(values), syms, vs)
      {
        assert syms[i..][0] == syms[i] && syms[i..][1..] == syms[i + 1..];
        assert vs[i..][0] == vs[i] && vs[i..][1..] == vs[i + 1..];
        values := values[syms[i] := vs[i]];
        i := i + 1;
      }
    }

    // The end of emitBranch: the region's block, ended by a yield of the carried
    // symbols.  A `return` inside the region is refused.
    method Close(carried: seq<Symbol>) returns (region: Option<Emit.Region>)
      requires !failed
      modifies `failed
      ensures region == Emit.Yielded(Some(Gen()), carried)
      ensures failed == region.None?
    {
      if returned {
        Fail();
        return None;
      }
      var outs := LookupAll(carried);
      if outs.None? { return None; }
      return Some(Emit.Region(block, outs.value, next));
    }

    // emitBranch: the insertion point moves into the region and back, and the
    // bindings return to those before it.
    method EmitThen(b: seq<Stmt>, carried: seq<Symbol>) returns (region: Option<Emit.Region>)
      requires !failed && !returned
      modifies `values, `block, `next, `returned, `failed
      ensures region == Emit.Yielded(Emit.EmitBlock(b, Context(), Emit.Gen(old(values), Emit.Builder([], old(next)), false)), carried)
      ensures failed == region.None?
      ensures !failed ==> values == old(values) && block == old(block) && next == region.value.next && !returned
      decreases b, 2
    {
      var entry, outer := values, block;
      block := [];
      EmitBlock(b);
      if failed { return None; }
      region := Close(carried);
      values, block := entry, outer;
    }

    method EmitElseBranch(e: Else, carried: seq<Symbol>) returns (region: Option<Emit.Region>)
      requires !failed && !returned
      modifies `values, `block, `next, `returned, `failed
      ensures region == Emit.Yielded(Emit.EmitElse(e, Context(), Emit.Gen(old(values), Emit.Builder([], old(next)), false)), carried)
      ensures failed == region.None?
      ensures !failed ==> values == old(values) && block == old(block) && next == region.value.next && !returned
      decreases e, 2
    {
      var entry, outer := values, block;
      block := [];
      if e.ElseDo? {
        EmitStmt(e.stmt);
        if failed { return None; }
      }
      region := Close(carried);
      values, block := entry, outer;
    }

    method EmitIf(s: Stmt)
      requires s.If? && !failed && !returned
      modifies `values, `block, `next, `returned, `failed
      ensures Reached(Emit.EmitIf(s.cond, s.thenB, s.elseS, Context(), old(Gen())))
      decreases s, 0
    {
      hide Emit.EmitBlock, Emit.EmitElse, Emit.EmitExpr, Emit.Rebind, CollectBlock, CollectElse;
      var cv := EmitExpr(s.cond);
      if cv.None? { return; }
      var carried := CollectElse(s.elseS, CollectBlock(s.thenB, []));
      var prior := LookupAll(carried);
      if prior.None? { return; }
      var t := EmitThen(s.thenB, carried);
      if failed { return; }
      var e := EmitElseBranch(s.elseS, carried);
      if failed { return; }
      var results := Emit.FreshLike(prior.value, next);
      block := block + [IfOp(results, cv.value, t.value.ops, t.value.outs, e.value.ops, e.value.outs)];
      next := next + |results|;
      BindAll(carried, results);
    }

    // The start of a loop body: a fresh block, the rebuilt induction value, and
    // the carried symbols bound to the region arguments.
    method EnterBody(s: Stmt, h: Emit.LoopHead, carried: seq<Symbol>, inits: seq<Value>)
      requires s.For? && !failed && !returned && |carried| == |inits| && next == h.b.next
      modifies `values, `block, `next
      ensures Gen() == Emit.BodyStart(h, s.iv, s.stepIsAdd, carried, inits, old(values))
    {
      block := [];
      next := next + 1 + |inits|;
      var k := Value(next, I(s.iv.ty.width));
      Create(IndexCastOp(k, Emit.Counter(h)));
      var delta := Arithmetic(MulI, k, h.ivStep);
      var iv := Arithmetic(if s.stepIsAdd then AddI else SubI, h.ivInit, delta);
      values := values[s.iv := iv];
      BindAll(carried, Emit.RegionArgs(h, inits));
    }

    method EmitBody(s: Stmt, h: Emit.LoopHead, carried: seq<Symbol>, inits: seq<Value>) returns (region: Option<Emit.Region>)
      requires s.For? && !failed && !returned && |carried| == |inits| && next == h.b.next
      modifies `values, `block, `next, `returned, `failed
      ensures region == Emit.Yielded(Emit.EmitBlock(s.body, Context(), Emit.BodyStart(h, s.iv, s.stepIsAdd, carried, inits, old(values))), carried)
      ensures failed == region.None?
      ensures !failed ==> values == old(values) && block == old(block) && next == region.value.next && !returned
      decreases s, 0
    {
      var entry, outer := values, block;
      EnterBody(s, h, carried, inits);
      EmitBlock(s.body);
      if failed { return None; }
      region := Close(carried);
      values, block := entry, outer;
    }

    method EmitFor(s: Stmt)
      requires s.For? && s.trip > 0 && !failed && !returned
      modifies `values, `block, `next, `returned, `failed
      ensures Reached(Emit.EmitFor(s.iv, s.init, s.stepIsAdd, s.step, s.trip, s.body, Context(), old(Gen())))
      decreases s, 1
    {
      hide Emit.EmitBlock, Emit.EmitHead, Emit.BodyStart, Emit.Rebind, Emit.RemoveSymbol, CollectBlock;
      var carried := Emit.RemoveSymbol(CollectBlock(s.body, []), s.iv);
      var inits := LookupAll(carried);
      if inits.None? { return; }
      var h := EmitHead(s);
      if h.None? { return; }
      var region := EmitBody(s, h.value, carried, inits.value);
      if failed { return; }
      var results := Emit.FreshLike(inits.value, next);
      block := block + [Emit.LoopOp(h.value, inits.value, region.value, results)];
      next := next + |results|;
      BindAll(carried, results);
    }

    // The header's values, emitted in the enclosing block.
    method EmitHead(s: Stmt) returns (h: Option<Emit.LoopHead>)
      requires s.For? && !failed
      modifies `block, `next, `failed
      ensures h == Emit.EmitHead(s.iv, s.init, s.step, s.trip, Context(), old(Gen()))
      ensures failed == h.None?
      ensures h.Some? ==> Builder() == h.value.b
    {
      var init := EmitExpr(s.init);
      if init.None? { return None; }
      var ivInit := Coerce(init.value, s.init.ty.signed, s.iv.ty.width);
      var step := EmitExpr(s.step);
      if step.None? { return None; }
      var ivStep := Coerce(step.value, s.step.ty.signed, s.iv.ty.width);
      var lb := IndexConst(0);
      var ub := IndexConst(s.trip);
      var one := IndexConst(1);
      return Some(Emit.LoopHead(ivInit, ivStep, lb, ub, one, Builder()));
    }

    // ----------------------------------------------------------------- functions

    method EmitFunction(p: Program) returns (f: Option<Func>)
      requires values == map[] && constants == map[] && block == [] && next == 0 && !returned && !failed
      modifies this
      ensures f == Emit.EmitFunction(p)
      ensures failed == f.None?
    {
      var i := 0;
      while i < |p.consts|
        invariant 0 <= i <= |p.consts| && constants == Emit.ConstantTable(p.consts[..i])
        invariant values == map[] && block == [] && next == 0 && !returned && !failed
      {
        assert p.consts[..i + 1][..i] == p.consts[..i];
        constants := constants[p.consts[i].sym := p.consts[i].value];
        i := i + 1;
      }
      assert p.consts[..i] == p.consts;
      returnType := p.returnType;
      var args := Emit.Arguments(p.params);
      next := |args|;
      BindAll(p.params, args);
      EmitBlock(p.body);
      if failed { return None; }
      if !returned {
        Fail();
        return None;
      }
      return Some(Func(args, I(p.returnType.width), block));
    }
  }
}
