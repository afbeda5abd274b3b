/**
 From source to circuit: a program whose control never reaches a loop that runs
 yields a module, every other accepted program yields none, and the module's
 output is what the program means.
 */
module CircuitCorrect {
  import opened Arith
  import opened FixedWidth
  import opened Ast
  import opened Interp
  import opened Ir
  import opened Wrappers
  import opened Emit
  import IrFacts
  import CompileCorrect
  import opened EmitTotal
  import opened Means
  import opened Returns
  import Hw
  import opened Lower
  import opened HwCorrect

  // A loop with at least one iteration, before anything that stops.
  predicate Loops(s: Stmt)
    decreases s, 0
  {
    match s
    case For(_, _, _, _, _, _, trip, _, _) => trip > 0
    case If(_, t, e) => BlockLoops(t) || ElseLoops(e)
    case Block(b) => BlockLoops(b)
    case _ => false
  }

  predicate ElseLoops(e: Else)
    decreases e, 1
  {
    match e
    case NoElse => false
    case ElseDo(s) => Loops(s)
  }

  predicate BlockLoops(b: seq<Stmt>)
    decreases b, 0
  {
    b != [] && (Loops(b[0]) || (!Stops(b[0]) && BlockLoops(b[1..])))
  }

  // ------------------------------------------------ expressions emit no loops

  predicate Same(b: Builder, out: Builder) {
    Combinational(out.block) <==> Combinational(b.block)
  }

  lemma AppendCombinational(ops: seq<Op>, op: Op)
    ensures Combinational(ops + [op]) <==> Combinational(ops) && CombinationalOp(op)
  {
    var all := ops + [op];
    assert all[..|all| - 1] == ops;
  }

  lemma CoerceSame(b: Builder, v: Value, s: bool, w: nat)
    ensures Same(b, Emit.Coerce(b, v, s, w).b)
  {
    var r := NewValue(b, w);
    AppendCombinational(b.block, TruncOp(r, v));
    AppendCombinational(b.block, ExtOp(r, s, v));
  }

  lemma AppendSame(b: Builder, op: Op)
    requires CombinationalOp(op)
    ensures Same(b, Append(b, op))
  {
    AppendCombinational(b.block, op);
  }

  lemma SimpleSame()
    ensures forall b: Builder, raw: int, w: nat {:trigger IntConst(b, raw, w)} :: Same(b, IntConst(b, raw, w).b)
    ensures forall b: Builder, v: nat {:trigger IndexConst(b, v)} :: Same(b, IndexConst(b, v).b)
    ensures forall b: Builder, op: ArithOp, l: Value, r: Value {:trigger Emit.Arithmetic(b, op, l, r)} ::
              Same(b, Emit.Arithmetic(b, op, l, r).b)
    ensures forall b: Builder, p: CmpIPredicate, l: Value, r: Value {:trigger Comparison(b, p, l, r)} ::
              Same(b, Comparison(b, p, l, r).b)
    ensures forall b: Builder, c: Value, t: Value, f: Value {:trigger Select(b, c, t, f)} ::
              Same(b, Select(b, c, t, f).b)
    ensures forall b: Builder, v: Value, s: bool, w: nat {:trigger Emit.Coerce(b, v, s, w)} ::
              Same(b, Emit.Coerce(b, v, s, w).b)
  {
    hide Same;
    forall b: Builder, raw: int, w: nat ensures Same(b, IntConst(b, raw, w).b) {
      AppendSame(b, ConstOp(NewValue(b, w), raw % Pow2(w)));
    }
    forall b: Builder, v: nat ensures Same(b, IndexConst(b, v).b) {
      AppendSame(b, ConstOp(Value(b.next, Index), v));
    }
    forall b: Builder, op: ArithOp, l: Value, r: Value ensures Same(b, Emit.Arithmetic(b, op, l, r).b) {
      AppendSame(b, BinOp(Value(b.next, l.ty), op, l, r));
    }
    forall b: Builder, p: CmpIPredicate, l: Value, r: Value ensures Same(b, Comparison(b, p, l, r).b) {
      AppendSame(b, CmpOp(NewValue(b, 1), p, l, r));
    }
    forall b: Builder, c: Value, t: Value, f: Value ensures Same(b, Select(b, c, t, f).b) {
      AppendSame(b, SelectOp(Value(b.next, t.ty), c, t, f));
    }
    forall b: Builder, v: Value, s: bool, w: nat ensures Same(b, Emit.Coerce(b, v, s, w).b) {
      CoerceSame(b, v, s, w);
    }
  }

  lemma DivRemSame(op: Ast.BinOp, lt: Type, rt: Type, res: Type, l: Value, r: Value, b: Builder)
    ensures Same(b, EmitDivRem(op, lt, rt, res, l, r, b).b)
  {
    hide Emit.Coerce, IntConst, Emit.Arithmetic, Comparison, Select, Combinational;
    SimpleSame();
  }

  lemma ShiftSame(op: Ast.BinOp, lt: Type, rt: Type, l: Value, r: Value, b: Builder)
    ensures Same(b, EmitShift(op, lt, rt, l, r, b).b)
  {
    hide Emit.Coerce, IntConst, Emit.Arithmetic, Comparison, Select, Combinational;
    SimpleSame();
  }

  lemma BinarySame(op: Ast.BinOp, lt: Type, rt: Type, res: Type, l: Value, r: Value, b: Builder)
    requires EmitBinary(op, lt, rt, res, l, r, b).Some?
    ensures Same(b, EmitBinary(op, lt, rt, res, l, r, b).value.b)
  {
    hide Emit.Coerce, IntConst, Emit.Arithmetic, Comparison, Select, Combinational, EmitShift, EmitDivRem;
    SimpleSame();
    ShiftSame(op, lt, rt, l, r, b);
    DivRemSame(op, lt, rt, res, l, r, b);
  }

  lemma UnarySame(op: UnOp, operand: Type, t: Type, v: Value, b: Builder)
    ensures Same(b, EmitUnary(op, operand, t, v, b).b)
  {
    hide Emit.Coerce, IntConst, Emit.Arithmetic, Comparison, Select, Combinational;
    SimpleSame();
  }

  lemma {:induction false} ExprSame(e: Expr, vals: Bindings, consts: Constants, b: Builder)
    requires EmitExpr(e, vals, consts, b).Some?
    ensures Same(b, EmitExpr(e, vals, consts, b).value.b)
  {
    hide Emit.Coerce, IntConst, Select, Combinational, EmitUnary, EmitBinary;
    SimpleSame();
    match e
    case Cast(_, x, _) =>
      ExprSame(x, vals, consts, b);
    case Unary(op, x, t) =>
      ExprSame(x, vals, consts, b);
      var v := EmitExpr(x, vals, consts, b).value;
      UnarySame(op, x.ty, t, v.v, v.b);
    case Binary(op, l, r, t) =>
      ExprSame(l, vals, consts, b);
      var x := EmitExpr(l, vals, consts, b).value;
      ExprSame(r, vals, consts, x.b);
      var y := EmitExpr(r, vals, consts, x.b).value;
      BinarySame(op, l.ty, r.ty, t, x.v, y.v, y.b);
    case Ternary(c, x, y, _) =>
      ExprSame(c, vals, consts, b);
      var cv := EmitExpr(c, vals, consts, b).value;
      ExprSame(x, vals, consts, cv.b);
      var tv := EmitExpr(x, vals, consts, cv.b).value;
      ExprSame(y, vals, consts, tv.b);
    case _ =>
  }

  // ----------------------------------------------------- statements emit their own

  // What is appended is loop-free exactly when `loops` is false.
  predicate Adds(g: Gen, out: Gen, loops: bool) {
    Combinational(out.b.block) <==> Combinational(g.b.block) && !loops
  }

  lemma StoreAdds(e: Expr, w: nat, cx: Context, g: Gen)
    requires EmitExpr(e, g.vals, cx.consts, g.b).Some?
    ensures var v := EmitExpr(e, g.vals, cx.consts, g.b).value;
            Same(g.b, Emit.Coerce(v.b, v.v, e.ty.signed, w).b)
  {
    ExprSame(e, g.vals, cx.consts, g.b);
    var v := EmitExpr(e, g.vals, cx.consts, g.b).value;
    CoerceSame(v.b, v.v, e.ty.signed, w);
  }

  lemma {:induction false} StmtAdds(s: Stmt, cx: Context, g: Gen)
    requires !g.returned && EmitStmt(s, cx, g).Some?
    ensures Adds(g, EmitStmt(s, cx, g).value, Loops(s))
    decreases s, 1
  {
    hide EmitExpr, EmitIf, EmitFor, EmitBlock, Combinational, Emit.Coerce;
    match s
    case VarDecl(sym, e) => StoreAdds(e, sym.ty.width, cx, g);
    case Assign(sym, e) => StoreAdds(e, sym.ty.width, cx, g);
    case Return(e) =>
      StoreAdds(e, cx.returnType.width, cx, g);
      var v := EmitExpr(e, g.vals, cx.consts, g.b).value;
      var c := Emit.Coerce(v.b, v.v, e.ty.signed, cx.returnType.width);
      AppendCombinational(c.b.block, ReturnOp(c.v));
    case If(c, t, e) => IfAdds(c, t, e, cx, g);
    case For(iv, init, _, _, isAdd, step, trip, known, body) =>
      if trip > 0 {
        ForAdds(iv, init, isAdd, step, trip, body, cx, g);
      }
    case Block(b) => BlockAdds(b, cx, g);
  }

  lemma {:induction false} BlockAdds(b: seq<Stmt>, cx: Context, g: Gen)
    requires !g.returned && EmitBlock(b, cx, g).Some?
    ensures Adds(g, EmitBlock(b, cx, g).value, BlockLoops(b))
    decreases b, 0
  {
    hide EmitStmt, Combinational;
    if b != [] {
      StmtAdds(b[0], cx, g);
      StopsReturns(b[0], cx, g);
      var g1 := EmitStmt(b[0], cx, g).value;
      if !g1.returned {
        BlockAdds(b[1..], cx, g1);
      }
    }
  }

  lemma {:induction false} ElseAdds(e: Else, cx: Context, g: Gen)
    requires !g.returned && EmitElse(e, cx, g).Some?
    ensures Adds(g, EmitElse(e, cx, g).value, ElseLoops(e))
    decreases e, 2
  {
    hide EmitStmt, Combinational;
    if e.ElseDo? {
      StmtAdds(e.stmt, cx, g);
    }
  }

  lemma {:induction false} IfAdds(c: Expr, t: seq<Stmt>, e: Else, cx: Context, g: Gen)
    requires !g.returned && EmitIf(c, t, e, cx, g).Some?
    ensures Adds(g, EmitIf(c, t, e, cx, g).value, Loops(If(c, t, e)))
    ensures !EmitIf(c, t, e, cx, g).value.returned
    decreases If(c, t, e), 0
  {
    hide EmitExpr, EmitBlock, EmitElse, Combinational, Rebind, Lookup;
    ExprSame(c, g.vals, cx.consts, g.b);
    var cv := EmitExpr(c, g.vals, cx.consts, g.b).value;
    var carried := CollectElse(e, CollectBlock(t, []));
    var gt := Gen(g.vals, Builder([], cv.b.next), false);
    BlockAdds(t, cx, gt);
    var tr := Yielded(EmitBlock(t, cx, gt), carried).value;
    var ge := Gen(g.vals, Builder([], tr.next), false);
    ElseAdds(e, cx, ge);
    var er := Yielded(EmitElse(e, cx, ge), carried).value;
    EmptyCombinational();
    var results := FreshLike(Lookup(g.vals, carried).value, er.next);
    AppendCombinational(cv.b.block, IfOp(results, cv.v, tr.ops, tr.outs, er.ops, er.outs));
  }

  lemma EmptyCombinational()
    ensures Combinational([])
  {
  }

  lemma ForAdds(iv: Symbol, init: Expr, isAdd: bool, step: Expr, trip: nat, body: seq<Stmt>, cx: Context, g: Gen)
    requires EmitFor(iv, init, isAdd, step, trip, body, cx, g).Some?
    ensures var out := EmitFor(iv, init, isAdd, step, trip, body, cx, g).value;
            !Combinational(out.b.block) && out.returned == g.returned
  {
    hide EmitHead, EmitBlock, BodyStart, Rebind, Lookup, Combinational;
    var carried := RemoveSymbol(CollectBlock(body, []), iv);
    var inits := Lookup(g.vals, carried).value;
    var h := EmitHead(iv, init, step, trip, cx, g).value;
    var region := Yielded(EmitBlock(body, cx, BodyStart(h, iv, isAdd, carried, inits, g.vals)), carried).value;
    AppendCombinational(h.b.block, LoopOp(h, inits, region, FreshLike(inits, region.next)));
  }

  // ------------------------------------------------------------------ the theorems

  // An emitted function yields a module exactly when it reaches no loop that runs.
  lemma CircuitIff(p: Program, f: Func)
    requires RegularProgram(p) && EmitFunction(p) == Some(f)
    ensures LowerFunction(f).Some? <==> !BlockLoops(p.body)
  {
    hide RegularProgram, VerifyFunc, EmitBlock, LowerFunction, Combinational, BlockLoops;
    EmittedVerifies(p, f);
    ModuleIff(f);
    EmittedCombinational(p, f);
  }

  // The circuit computes the emitted function, on all words of its argument types.
  lemma CircuitIsFunction(p: Program, f: Func, m: Hw.HwModule, words: seq<nat>)
    requires RegularProgram(p) && EmitFunction(p) == Some(f) && LowerFunction(f) == Some(m)
    requires Fit(words, p.params)
    ensures Call(f, words, false).Some? && Hw.Output(m, words) == Call(f, words, false)
  {
    hide RegularProgram, VerifyFunc, EmitFunction, LowerFunction, Combinational, Hw.Output, Call;
    EmittedVerifies(p, f);
    ModuleIff(f);
    VerifiedBody(f);
    LoweringPreserves(f, words);
  }

  lemma VerifiedBody(f: Func)
    requires VerifyFunc(f)
    ensures f.body != []
  {
  }

  lemma EmittedCombinational(p: Program, f: Func)
    requires EmitFunction(p) == Some(f)
    ensures Combinational(f.body) <==> !BlockLoops(p.body)
  {
    hide EmitBlock, Combinational, BlockLoops, ConstantTable, Rebind;
    var start := Gen(Rebind(map[], p.params, Arguments(p.params)), Builder([], |p.params|), false);
    BlockAdds(p.body, Context(ConstantTable(p.consts), p.returnType), start);
    EmptyCombinational();
  }

  // The circuit computes, for all numbers passed, the number the body up to its first
  // `return` means.
  lemma CircuitMeans(p: Program, f: Func, m: Hw.HwModule, args: seq<int>, previous: int)
    requires CompileCorrect.ProgramOk(p) && |args| == |p.params|
    requires EmitFunction(p) == Some(f) && LowerFunction(f) == Some(m)
    ensures Hw.Output(m, CompileCorrect.Words(p, args)) ==
            Some(Result(CompileCorrect.Emitted(p), args, previous) % Pow2(p.returnType.width))
  {
    hide CompileCorrect.ProgramOk, CompileCorrect.Words, EmitFunction, LowerFunction, Hw.Output, Fit, Result, CompileCorrect.Emitted;
    hide Call, Pow2;
    CompileCorrect.FunctionMeans(p, f, args, previous, false);
    CompileCorrect.ProgramIsRegular(p);
    CompileCorrect.OkParams(p);
    CompileCorrect.WordsFit(p, args);
    CircuitIsFunction(p, f, m, CompileCorrect.Words(p, args));
  }

  // So it computes, on every input whose run stays within the interpreter's limits,
  // the bits the interpreter returns for that body.
  lemma CircuitPreserves(p: Program, f: Func, m: Hw.HwModule, inputs: seq<Bits>, previous: Bits)
    requires CompileCorrect.ProgramOk(p) && CompileCorrect.InputsOk(p, inputs)
    requires EmitFunction(p) == Some(f) && LowerFunction(f) == Some(m)
    requires CompileCorrect.RunInside(CompileCorrect.Emitted(p), inputs, previous)
    ensures RunProgram(CompileCorrect.Emitted(p), inputs, previous).Some?
    ensures Hw.Output(m, CompileCorrect.ArgWords(p, inputs)) ==
            Some(RunProgram(CompileCorrect.Emitted(p), inputs, previous).value.raw)
  {
    hide CompileCorrect.ProgramOk, CompileCorrect.ArgWords, EmitFunction, LowerFunction, Hw.Output, Fit, RunProgram;
    hide CompileCorrect.Emitted, CompileCorrect.RunInside, CompileCorrect.Words;
    CompileCorrect.CompilePreserves(p, f, inputs, previous, false);
    CompileCorrect.ProgramIsRegular(p);
    CompileCorrect.OkParams(p);
    CompileCorrect.WordsPassed(p, inputs);
    CompileCorrect.WordsFit(p, CompileCorrect.Args(inputs));
    CircuitIsFunction(p, f, m, CompileCorrect.ArgWords(p, inputs));
  }
}
