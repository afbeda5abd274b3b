/**
 Where the compiler and the interpreter part.  Each lemma shows a program outside
 the hypotheses of CompilePreserves on which they differ, or says exactly when one
 construct means the same to both.
 */
module Divergences {
  import opened Arith
  import opened FixedWidth
  import opened Ast
  import opened Meaning
  import opened Interp
  import opened Ir
  import opened Wrappers
  import opened Emit
  import opened EmitExact
  import opened InterpExact
  import opened BitsLimits
  import TypeCheck
  import ConstFold
  import Folding
  import CompileCorrect

  const U8 := Type(8, false)

  // The interpreter keeps the last return executed, the emitter stops at the
  // first one.
  function TwoReturns(m: nat, n: nat): Program {
    Program([], [], U8, [Return(IntLit(m, U8)), Return(IntLit(n, U8))])
  }

  lemma InterpreterKeepsLast(m: nat, n: nat, previous: Bits)
    ensures RunProgram(TwoReturns(m, n), [], previous) == Some(Interp.Coerce(Make(n, 8, false), U8))
  {
    hide Make, CastTo, Interp.Coerce;
    var first, second := Return(IntLit(m, U8)), Return(IntLit(n, U8));
    var st := State(map[], previous);
    var b := [first, second];
    assert b[1..] == [second] && [second][1..] == [];
    assert ExecBlock(b, st) == ExecBlock([second], Exec(first, st));
    assert ExecBlock([second], Exec(first, st)) == Exec(second, Exec(first, st));
  }

  lemma EmitterStopsAtFirst(m: nat, n: nat)
    requires m < Pow2(8)
    ensures var f := EmitFunction(TwoReturns(m, n)); f.Some? && Call(f.value, [], true) == Some(m)
  {
    hide Pow2;
    var first, second := Return(IntLit(m, U8)), Return(IntLit(n, U8));
    var b := Builder([], 0);
    var c := IntConst(b, m, 8);
    ModSmall(m, Pow2(8));
    assert EmitBlock([first, second], Context(map[], U8), Gen(map[], b, false)) ==
           Some(Gen(map[], Builder(c.b.block + [ReturnOp(c.v)], c.b.next), true));
    var f := EmitFunction(TwoReturns(m, n)).value;
    assert f.body[..1] == b.block + [ConstOp(c.v, m)];
    RunAppended(b.block, ConstOp(c.v, m), map[], map[], map[c.v := m], true);
  }

  // So two returns agree exactly when they return the same byte.
  lemma TwoReturnsIff(m: nat, n: nat, previous: Bits)
    requires m < Pow2(8) && n < Pow2(8)
    ensures var f := EmitFunction(TwoReturns(m, n)); var r := RunProgram(TwoReturns(m, n), [], previous);
            f.Some? && r.Some? && (Call(f.value, [], true) == Some(r.value.raw) <==> m == n)
  {
    hide EmitFunction, RunProgram, Call;
    InterpreterKeepsLast(m, n, previous);
    EmitterStopsAtFirst(m, n);
    var a := Make(n, 8, false);
    MakeWraps(n, n, 8, false);
    CastExact(a, 8, false);
    ModSmall(n, Pow2(8));
  }

  // A signed quotient by zero is one bit narrower than its type.
  lemma NarrowQuotient(a: Bits, b: Bits)
    requires WidthOk(a.width) && a.signed && b.signed && b.raw == 0
    ensures Divide(a, b) == Bits(0, a.width, true)
    ensures WidthRule(Slash, Type(a.width, true), Type(b.width, true)).width == a.width + 1
  {
    hide Pow2, Mask, FixedWidth.Value, TruncDiv;
    NothingMade(a.width);
  }

  lemma NothingMade(w: nat)
    requires WidthOk(w)
    ensures Make(0, w, true) == Bits(0, w, true)
  {
    hide Pow2;
    MakeWraps(0, 0, w, true);
    ModSmall(0, Pow2(w));
  }

  // A quotient shifts at its full width for every divisor: the short value is 0.
  lemma QuotientShift(a: Bits, b: Bits, k: Bits)
    requires WidthOk(a.width) && WidthOk(b.width) && a.width + 1 <= WORD && a.signed && b.signed
    requires AmountOk(k.raw, a.width) && AmountOk(k.raw, a.width + 1)
    ensures Num(FixedWidth.Shl(Divide(a, b), k)) == Wrap(a.width + 1, true, Quotient(Num(a), Num(b)) * Pow2(k.raw))
  {
    hide Pow2, InRange, Wrap, FixedWidth.Value, TruncDiv, FixedWidth.Shl, Make;
    DivideExact(a, b);
    DivideWidth(a, b);
    RawIsNum(b);
    if b.raw == 0 {
      NarrowQuotient(a, b);
      WrapZero(a.width, true);
      WrapZero(a.width + 1, true);
    }
    ShlExact(Divide(a, b), k);
  }

  // The emitted shift works at the static width, the interpreter at the width of
  // the value.  They agree exactly when the number does not tell the two apart.
  lemma ShiftAgreesIff(l: Expr, r: Expr, store: Store, vals: Bindings, consts: Constants,
                       b: Builder, env0: Env, env: Env, every: bool) returns (out: Env)
    requires var e := Binary(BinOp.Shl, l, r, l.ty);
             && Regular(e) && WellTyped(l) && WellTyped(r) && SmallAmount(r)
             && StoreTyped(store) && Reads(e) <= store.Keys && EmitExpr(e, vals, consts, b).Some?
    requires At(b, env0, env, every) && Vars(vals, consts, env, NumbersOf(store))
    ensures var e := Binary(BinOp.Shl, l, r, l.ty);
            var v := EmitExpr(e, vals, consts, b).value;
            && At(v.b, env0, out, every) && Holding(out, v.v, e.ty, Ideal(e, NumbersOf(store)))
            && WidthOk(Eval(l, store).width) && Eval(e, store).width == Eval(l, store).width
            && (Num(Eval(e, store)) == Ideal(e, NumbersOf(store)) <==>
                ShiftFits(Ideal(l, NumbersOf(store)), Eval(r, store).raw, Eval(l, store).width, l.ty.width, l.ty.signed))
  {
    hide Pow2, Wrap, WellTyped, Regular, SmallAmount, Eval, ShiftFits, EmitExpr, At, Vars, StoreTyped, Ideal, Denotes;
    var e := Binary(BinOp.Shl, l, r, l.ty);
    out := ExprAt(e, vals, consts, NumbersOf(store), b, env0, env, every);
    ShiftReads(l, r, store);
    var rho, a, k := NumbersOf(store), Eval(l, store), Eval(r, store);
    EvalExact(l, store);
    EvalExact(r, store);
    DenotesParts(a, l, Ideal(l, rho));
    DenotesParts(k, r, Ideal(r, rho));
    AmountRead(r, store, Ideal(r, rho), a.width);
    ShiftValue(l, r, store, rho, a, k);
  }

  lemma ShiftReads(l: Expr, r: Expr, store: Store)
    requires Reads(Binary(BinOp.Shl, l, r, l.ty)) <= store.Keys
    ensures Reads(l) <= store.Keys && Reads(r) <= store.Keys
  {
  }

  lemma ShiftValue(l: Expr, r: Expr, store: Store, rho: Numbers, a: Bits, k: Bits)
    requires Widths(l) && Widths(r) && TypeOk(l.ty) && a == Eval(l, store) && k == Eval(r, store)
    requires WidthOk(a.width) && a.signed == l.ty.signed && Num(a) == Ideal(l, rho)
    requires AmountOk(k.raw, a.width) && k.raw == Ideal(r, rho) % Pow2(r.ty.width)
    ensures var e := Binary(BinOp.Shl, l, r, l.ty);
            && Widths(e) && Eval(e, store).width == a.width
            && (Num(Eval(e, store)) == Ideal(e, rho) <==>
                ShiftFits(Ideal(l, rho), k.raw, a.width, l.ty.width, l.ty.signed))
  {
    hide Ideal, Eval, Widths, FixedWidth.Shl, Wrap, Pow2, ShiftFits, AmountOk, NumOf;
    ShiftUnfolds(l, r, store, rho);
    ShiftFitsIff(a, k, l.ty.width);
  }

  lemma ShiftUnfolds(l: Expr, r: Expr, store: Store, rho: Numbers)
    requires Widths(l) && Widths(r) && TypeOk(l.ty)
    ensures var e := Binary(BinOp.Shl, l, r, l.ty);
            && Widths(e) && Eval(e, store).width == Eval(l, store).width
            && Eval(e, store) == FixedWidth.Shl(Eval(l, store), Eval(r, store))
            && Ideal(e, rho) == Wrap(l.ty.width, l.ty.signed, Ideal(l, rho) * Pow2(Ideal(r, rho) % Pow2(r.ty.width)))
  {
    hide Wrap, Pow2;
  }

  // ~(a / b) << w, where a has w bits, as the checker leaves it: the amount takes the
  // type of the other operand.
  function NarrowExample(a: Symbol, b: Symbol): Expr {
    var t := Type(a.ty.width + 1, true);
    Binary(BinOp.Shl, NarrowOperand(a, b), IntLit(a.ty.width, t), t)
  }

  function NarrowOperand(a: Symbol, b: Symbol): Expr {
    Unary(UTilde, SymbolQuotient(a, b), Type(a.ty.width + 1, true))
  }

  function SymbolQuotient(a: Symbol, b: Symbol): Expr {
    Binary(Slash, NameRef(a, a.ty), NameRef(b, b.ty), Type(a.ty.width + 1, true))
  }

  predicate Operands(a: Symbol, b: Symbol) {
    TypeOk(a.ty) && TypeOk(b.ty) && a.ty.signed && b.ty.signed && a.ty.width < WORD
  }

  // The same before any pass has annotated it.
  function NarrowSource(a: Symbol, b: Symbol): TypeCheck.Node {
    var x, y := TypeCheck.NameNode(a, TypeCheck.Unknown), TypeCheck.NameNode(b, TypeCheck.Unknown);
    var quotient := TypeCheck.BinaryNode(Slash, x, y, TypeCheck.Unknown);
    TypeCheck.BinaryNode(BinOp.Shl, TypeCheck.UnaryNode(UTilde, quotient, TypeCheck.Unknown),
                         TypeCheck.LitNode(a.ty.width, TypeCheck.Unknown), TypeCheck.Unknown)
  }

  lemma NarrowAccepted(a: Symbol, b: Symbol)
    requires Operands(a, b)
    ensures var o := TypeCheck.CheckExpr(NarrowSource(a, b), Type(a.ty.width + 1, true));
            o.ok && TypeCheck.Erase(o.node) == Some(NarrowExample(a, b))
  {
    var t := Type(a.ty.width + 1, true);
    var u := TypeCheck.Unknown;
    var q := TypeCheck.BinaryNode(Slash, TypeCheck.NameNode(a, u), TypeCheck.NameNode(b, u), u);
    var typed := TypeCheck.BinaryNode(Slash, TypeCheck.NameNode(a, TypeCheck.Typed(a.ty)), TypeCheck.NameNode(b, TypeCheck.Typed(b.ty)),
                                      TypeCheck.Typed(t));
    assert TypeCheck.Infer(q) == TypeCheck.Outcome(typed, true);
    var tilde := TypeCheck.UnaryNode(UTilde, typed, TypeCheck.Typed(t));
    assert TypeCheck.Infer(TypeCheck.UnaryNode(UTilde, q, u)) == TypeCheck.Outcome(tilde, true);
    var w := a.ty.width;
    assert TypeCheck.Infer(TypeCheck.LitNode(w, u)) == TypeCheck.Outcome(TypeCheck.LitNode(w, TypeCheck.Untyped(w)), true);
    Pow2Above(w);
    var lit := TypeCheck.LitNode(w, TypeCheck.Typed(t));
    assert TypeCheck.Settle(TypeCheck.LitNode(w, TypeCheck.Untyped(w)), t) == TypeCheck.Outcome(lit, true);
    assert TypeCheck.Infer(NarrowSource(a, b)) ==
           TypeCheck.Outcome(TypeCheck.BinaryNode(BinOp.Shl, tilde, lit, TypeCheck.Typed(t)), true);
    assert TypeCheck.Erase(typed) == Some(SymbolQuotient(a, b));
    assert TypeCheck.Erase(tilde) == Some(NarrowOperand(a, b));
    assert TypeCheck.Erase(lit) == Some(IntLit(w, t));
  }

  // With b = 0 the interpreter leaves 0, and the emitted value is -2^w.
  lemma NarrowShift(a: Symbol, b: Symbol, store: Store, vals: Bindings, consts: Constants,
                    bd: Builder, env0: Env, env: Env, every: bool) returns (out: Env)
    requires Operands(a, b)
    requires StoreTyped(store) && a in store && b in store && store[b].raw == 0
    requires a in vals && b in vals
    requires At(bd, env0, env, every) && Vars(vals, consts, env, NumbersOf(store))
    ensures var e := NarrowExample(a, b); var r := EmitExpr(e, vals, consts, bd);
            && Eval(e, store).raw == 0
            && r.Some? && At(r.value.b, env0, out, every) && Holding(out, r.value.v, e.ty, 0 - Pow2(a.ty.width))
  {
    hide At, Vars, Pow2, EmitExpr, Eval, Regular, Ideal, StoreTyped;
    var e := NarrowExample(a, b);
    NarrowRegular(a, b);
    NarrowEval(a, b, store);
    NarrowIdeal(a, b, NumbersOf(store));
    NarrowEmitted(a, b, vals, consts, bd);
    out := ExprAt(e, vals, consts, NumbersOf(store), bd, env0, env, every);
  }

  lemma NarrowEmitted(a: Symbol, b: Symbol, vals: Bindings, consts: Constants, bd: Builder)
    requires a in vals && b in vals
    ensures EmitExpr(NarrowExample(a, b), vals, consts, bd).Some?
    ensures Reads(NarrowExample(a, b)) == {a, b}
  {
    assert EmitExpr(SymbolQuotient(a, b), vals, consts, bd).Some?;
    assert EmitExpr(NarrowOperand(a, b), vals, consts, bd).Some?;
    assert Reads(SymbolQuotient(a, b)) == {a, b};
    assert Reads(NarrowOperand(a, b)) == {a, b};
  }

  lemma NarrowRegular(a: Symbol, b: Symbol)
    requires Operands(a, b)
    ensures Regular(NarrowExample(a, b))
  {
    assert Regular(NameRef(a, a.ty)) && Regular(NameRef(b, b.ty));
    assert Regular(SymbolQuotient(a, b));
    assert Regular(NarrowOperand(a, b));
  }

  lemma NarrowEval(a: Symbol, b: Symbol, store: Store)
    requires Operands(a, b) && StoreTyped(store) && a in store && b in store && store[b].raw == 0
    ensures Eval(NarrowExample(a, b), store).raw == 0
  {
    hide Pow2, Divide, BitNot, FixedWidth.Shl, Make;
    var w := a.ty.width;
    assert Eval(SymbolQuotient(a, b), store) == Divide(store[a], store[b]);
    assert Eval(NarrowOperand(a, b), store) == BitNot(Divide(store[a], store[b]));
    QuotientWidth(store[a], store[b]);
    AmountIs(w);
    ShiftedOut(BitNot(Divide(store[a], store[b])), Make(w, w + 1, true));
  }

  lemma AmountIs(w: nat)
    requires w < WORD
    ensures Make(w, w + 1, true).raw == w == w % Pow2(w + 1) == Wrap(w + 1, true, w)
  {
    Pow2Above(w);
    assert Pow2(w + 1) == 2 * Pow2(w);
    MakeWraps(w, w, w + 1, true);
    ModSmall(w, Pow2(w + 1));
    WrapInRange(w + 1, true, w);
  }

  lemma NarrowIdeal(a: Symbol, b: Symbol, rho: Numbers)
    requires Operands(a, b) && b in rho && rho[b] == 0
    ensures Widths(NarrowExample(a, b)) && Ideal(NarrowExample(a, b), rho) == 0 - Pow2(a.ty.width)
  {
    hide Pow2, InRange, Wrap;
    var w := a.ty.width;
    assert Widths(SymbolQuotient(a, b)) && Widths(NarrowOperand(a, b));
    assert Ideal(SymbolQuotient(a, b), rho) == 0;
    assert Ideal(NarrowOperand(a, b), rho) == -1;
    AmountIs(w);
    LeastNumber(w);
    MinusPow(Pow2(w));
  }

  lemma MinusPow(p: int)
    ensures -1 * p == 0 - p
  {
  }

  lemma QuotientWidth(a: Bits, b: Bits)
    requires b.raw == 0
    ensures BitNot(Divide(a, b)).width == a.width
  {
    hide Pow2;
  }

  lemma ShiftedOut(a: Bits, amount: Bits)
    requires WidthOk(a.width) && amount.raw == a.width
    ensures FixedWidth.Shl(a, amount).raw == 0
  {
    hide Pow2, Mask, FixedWidth.Value, Make;
    WidthBelow32(a.width);
    ModSmall(amount.raw, Pow2(32));
    MakeWraps(0, 0, a.width, a.signed);
    ModSmall(0, Pow2(a.width));
  }

  lemma LeastNumber(w: nat)
    ensures Wrap(w + 1, true, 0 - Pow2(w)) == 0 - Pow2(w)
  {
    assert Pow2(w + 1) == 2 * Pow2(w);
    NumOfRaw(w + 1, true, 0 - Pow2(w));
  }

  // Folding shifts the value it finds, at that value's width; the language shifts at
  // the width of the type.  In any constant expression l << r the two agree exactly
  // when the number does not tell the widths apart.
  lemma FoldShiftIff(l: TypeCheck.Node, r: TypeCheck.Node, t: Type, defs: ConstFold.Definitions, vals: map<Symbol, Bits>,
                     bounds: Folding.Bounds, k: nat)
    requires Folding.DefinitionsOk(defs, bounds) && Folding.FoldedAll(vals, defs)
    requires FoldableOperand(l, defs, bounds, k) && FoldableOperand(r, defs, bounds, k) && TypeCheck.AsFolded(l).ty == t
    requires var e := TypeCheck.AsFolded(r); Folding.Settled(e) && (e.ty.width <= 32 || (e.IntLit? && e.value < Pow2(32)))
    ensures var n := TypeCheck.BinaryNode(BinOp.Shl, l, r, TypeCheck.Typed(t));
            var a, b := ConstFold.Unfold(l, defs, k).value, ConstFold.Unfold(r, defs, k).value;
            var v, rho := ConstFold.Unfold(n, defs, k), Folding.Constants(vals);
            && v.Some? && WidthOk(a.width) && v.value.width == a.width && Widths(TypeCheck.AsFolded(n))
            && Num(a) == Ideal(TypeCheck.AsFolded(l), rho)
            && (Num(v.value) == Ideal(TypeCheck.AsFolded(n), rho) <==> ShiftFits(Num(a), b.raw, a.width, t.width, t.signed))
  {
    hide Pow2, Wrap, ShiftFits, NumOf, FixedWidth.Shl, FixedWidth.Value, Ideal, Regular, Folding.Foldable, Folding.Settled;
    hide Folding.DefinitionsOk, Folding.FoldedAll, TypeCheck.AsFolded, AmountOk;
    var rho := Folding.Constants(vals);
    var a, b := ConstFold.Unfold(l, defs, k).value, ConstFold.Unfold(r, defs, k).value;
    Folding.FoldIs(l, defs, vals, bounds, k);
    Folding.FoldIs(r, defs, vals, bounds, k);
    Folding.SettledAmount(TypeCheck.AsFolded(r), b, Ideal(TypeCheck.AsFolded(r), rho), bounds, a.width);
    ShiftIs(a, b);
    ShiftFitsIff(a, b, t.width);
    FoldedShift(l, r, t, rho);
  }

  // An operand that folds, within the limits of folding.
  predicate FoldableOperand(n: TypeCheck.Node, defs: ConstFold.Definitions, bounds: Folding.Bounds, k: nat) {
    Regular(TypeCheck.AsFolded(n)) && Folding.Foldable(TypeCheck.AsFolded(n), bounds) && ConstFold.Unfold(n, defs, k).Some?
  }

  lemma FoldedShift(l: TypeCheck.Node, r: TypeCheck.Node, t: Type, rho: Numbers)
    requires Widths(TypeCheck.AsFolded(l)) && Widths(TypeCheck.AsFolded(r)) && TypeOk(t) && TypeCheck.AsFolded(l).ty == t
    ensures var e := TypeCheck.AsFolded(TypeCheck.BinaryNode(BinOp.Shl, l, r, TypeCheck.Typed(t)));
            var x, y := TypeCheck.AsFolded(l), TypeCheck.AsFolded(r);
            && Widths(e) && Ideal(e, rho) == Wrap(t.width, t.signed, Ideal(x, rho) * Pow2(Ideal(y, rho) % Pow2(y.ty.width)))
  {
    hide Wrap, Pow2;
  }

  lemma ShiftIs(v: Bits, b: Bits)
    ensures EvalBinary(BinOp.Shl, v, b) == FixedWidth.Shl(v, b) && FixedWidth.Shl(v, b).width == v.width
  {
  }

  const U16 := Type(16, false)

  // `const u16 K = u8(1);` and K << 8, as the checker leaves them where a u16 is
  // wanted.
  function NarrowDefinition(): TypeCheck.Node {
    TypeCheck.CheckExpr(TypeCheck.CastNode(U8, TypeCheck.LitNode(1, TypeCheck.Unknown), TypeCheck.Unknown), U16).node
  }

  function NarrowUse(k: Symbol): TypeCheck.Outcome {
    TypeCheck.CheckExpr(TypeCheck.BinaryNode(BinOp.Shl, TypeCheck.NameNode(k, TypeCheck.Unknown),
                                             TypeCheck.LitNode(8, TypeCheck.Unknown), TypeCheck.Unknown), U16)
  }

  // Both are accepted; K << 8 folds to 0, and denotes 256.
  lemma NarrowConstant(k: Symbol)
    requires k.ty == U16
    ensures TypeCheck.CheckExpr(TypeCheck.CastNode(U8, TypeCheck.LitNode(1, TypeCheck.Unknown), TypeCheck.Unknown), U16).ok
    ensures NarrowUse(k).ok
    ensures var defs, n := map[k := NarrowDefinition()], NarrowUse(k).node;
            && ConstFold.Derives(n, defs, Bits(0, 8, false))
            && ConstFold.Derives(NarrowDefinition(), defs, Bits(1, 8, false))
            && Widths(TypeCheck.AsFolded(n)) && Ideal(TypeCheck.AsFolded(n), map[k := 1]) == 256
  {
    hide Pow2, FixedWidth.Shl, Make, CastTo, Wrap;
    NarrowTrees(k);
    NarrowNumbers();
    var defs := map[k := NarrowDefinition()];
    var name, lit := TypeCheck.NameNode(k, TypeCheck.Typed(U16)), TypeCheck.LitNode(8, TypeCheck.Typed(U16));
    assert ConstFold.Unfold(TypeCheck.LitNode(1, TypeCheck.Untyped(1)), defs, 0) == Some(Make(1, WORD, false));
    assert ConstFold.Unfold(NarrowDefinition(), defs, 0) == Some(Bits(1, 8, false));
    assert ConstFold.Unfold(name, defs, 1) == Some(Bits(1, 8, false));
    assert ConstFold.Unfold(lit, defs, 1) == Some(Make(8, 16, false));
    assert ConstFold.Unfold(NarrowUse(k).node, defs, 1) == Some(Bits(0, 8, false));
    assert TypeCheck.AsFolded(name) == NameRef(k, U16) && TypeCheck.AsFolded(lit) == IntLit(8, U16);
  }

  lemma NarrowTrees(k: Symbol)
    requires k.ty == U16
    ensures TypeCheck.CheckExpr(TypeCheck.CastNode(U8, TypeCheck.LitNode(1, TypeCheck.Unknown), TypeCheck.Unknown), U16).ok
    ensures NarrowDefinition() == TypeCheck.CastNode(U8, TypeCheck.LitNode(1, TypeCheck.Untyped(1)), TypeCheck.Typed(U8))
    ensures NarrowUse(k) == TypeCheck.Outcome(TypeCheck.BinaryNode(BinOp.Shl, TypeCheck.NameNode(k, TypeCheck.Typed(U16)),
                                                                   TypeCheck.LitNode(8, TypeCheck.Typed(U16)), TypeCheck.Typed(U16)), true)
  {
    var one, eight := TypeCheck.LitNode(1, TypeCheck.Unknown), TypeCheck.LitNode(8, TypeCheck.Unknown);
    var name := TypeCheck.NameNode(k, TypeCheck.Unknown);
    assert TypeCheck.Infer(one) == TypeCheck.Outcome(TypeCheck.LitNode(1, TypeCheck.Untyped(1)), true);
    assert TypeCheck.Infer(eight) == TypeCheck.Outcome(TypeCheck.LitNode(8, TypeCheck.Untyped(8)), true);
    assert TypeCheck.Infer(name) == TypeCheck.Outcome(TypeCheck.NameNode(k, TypeCheck.Typed(U16)), true);
    EightFits();
    var typed := TypeCheck.NameNode(k, TypeCheck.Typed(U16));
    var pinned := TypeCheck.LitNode(8, TypeCheck.Typed(U16));
    assert TypeCheck.Settle(TypeCheck.LitNode(8, TypeCheck.Untyped(8)), U16) == TypeCheck.Outcome(pinned, true);
    assert TypeCheck.Infer(TypeCheck.BinaryNode(BinOp.Shl, name, eight, TypeCheck.Unknown)) ==
           TypeCheck.Outcome(TypeCheck.BinaryNode(BinOp.Shl, typed, pinned, TypeCheck.Typed(U16)), true);
  }

  lemma EightFits()
    ensures TypeCheck.Fits(8, U16)
  {
    assert Pow2(4) == 16;
    Pow2Mono(4, 16);
  }

  lemma NarrowNumbers()
    ensures CastTo(Make(1, WORD, false), 8, false) == Bits(1, 8, false)
    ensures FixedWidth.Shl(Bits(1, 8, false), Make(8, 16, false)) == Bits(0, 8, false)
    ensures Wrap(16, false, 8) == 8 && 8 % Pow2(16) == 8 && Wrap(16, false, 1 * Pow2(8)) == 256
  {
    hide FixedWidth.Value, Mask, Pow2;
    SmallPowers();
    MakeWraps(1, 1, WORD, false);
    ModSmall(1, Pow2(WORD));
    CastExact(Make(1, WORD, false), 8, false);
    MakeWraps(8, 8, 16, false);
    ModSmall(8, Pow2(16));
    ShiftedPast(Bits(1, 8, false), Make(8, 16, false));
    WrapInRange(16, false, 256);
    WrapInRange(16, false, 8);
  }

  lemma SmallPowers()
    ensures Pow2(8) == 256 && 256 < Pow2(16) && 1 < Pow2(WORD)
  {
    assert Pow2(8) == 256;
    Pow2Strict(8, 16);
    Pow2Mono(8, WORD);
  }

  lemma ShiftedPast(a: Bits, amount: Bits)
    requires WidthOk(a.width) && amount.raw == a.width
    ensures FixedWidth.Shl(a, amount) == Bits(0, a.width, a.signed)
  {
    ShiftedOut(a, amount);
  }

  const I8 := Type(8, true)
  const I16 := Type(16, true)

  // `const i16 K = i8(-1);` as the checker leaves it.
  function NegativeDefinition(): TypeCheck.Outcome {
    TypeCheck.CheckExpr(TypeCheck.CastNode(I8, TypeCheck.UnaryNode(UMinus, TypeCheck.LitNode(1, TypeCheck.Unknown), TypeCheck.Unknown),
                                           TypeCheck.Unknown), I16)
  }

  // It is accepted and folds to 8 bits, all ones.  The emitter reads 255 there, the
  // interpreter -1.
  lemma NegativeConstant(k: Symbol)
    requires k.ty == I16
    ensures NegativeDefinition().ok
    ensures Pow2(8) == 256 && var v := Bits(255, 8, true);
            && ConstFold.Derives(NegativeDefinition().node, map[k := NegativeDefinition().node], v)
            && !CompileCorrect.ConstReadable(v, I16)
            && Wrap(16, true, v.raw) == 255 && Num(Interp.Coerce(v, I16)) == -1
  {
    hide Pow2, Make, CastTo, Neg, Wrap, Interp.Coerce;
    var one := TypeCheck.LitNode(1, TypeCheck.Untyped(1));
    var minus := TypeCheck.UnaryNode(UMinus, one, TypeCheck.Untyped(1));
    assert TypeCheck.Infer(TypeCheck.LitNode(1, TypeCheck.Unknown)) == TypeCheck.Outcome(one, true);
    assert TypeCheck.Infer(TypeCheck.UnaryNode(UMinus, TypeCheck.LitNode(1, TypeCheck.Unknown), TypeCheck.Unknown)) ==
           TypeCheck.Outcome(minus, true);
    assert NegativeDefinition().node == TypeCheck.CastNode(I8, minus, TypeCheck.Typed(I8));
    MinusOneFolds();
    var defs := map[k := NegativeDefinition().node];
    assert ConstFold.Unfold(one, defs, 0) == Some(Make(1, WORD, false));
    assert ConstFold.Unfold(minus, defs, 0) == Some(Neg(Make(1, WORD, false)));
    assert ConstFold.Unfold(NegativeDefinition().node, defs, 0) == Some(Bits(255, 8, true));
    MinusOneRead();
  }

  lemma MinusOneFolds()
    ensures Pow2(8) == 256 && CastTo(Neg(Make(1, WORD, false)), 8, true) == Bits(255, 8, true)
  {
    hide Pow2, Mask;
    SmallPowers();
    MakeWraps(1, 1, WORD, false);
    ModSmall(1, Pow2(WORD));
    OneValue(Make(1, WORD, false));
    var m := Neg(Make(1, WORD, false));
    TopWord();
    MakeWraps(-1, -1, 8, true);
    DivModIs(-1, Pow2(8), -1, 255);
    ValueOfTop(m);
  }

  lemma OneValue(b: Bits)
    requires b == Bits(1, WORD, false) && 1 < Pow2(WORD)
    ensures FixedWidth.Value(b) == 1
  {
    Pow2Strict(0, WORD - 1);
  }

  lemma TopWord()
    ensures Make(-1, WORD + 1, true) == Bits(Pow2(WORD) - 1, WORD + 1, true)
  {
    DivModIs(-1, Pow2(WORD), -1, Pow2(WORD) - 1);
    ModSmall(Pow2(WORD) - 1, Pow2(WORD));
  }

  lemma ValueOfTop(b: Bits)
    requires b.raw == Pow2(WORD) - 1 && b.width == WORD + 1
    ensures FixedWidth.Value(b) == -1
  {
    Pow2Strict(WORD - 1, WORD);
  }

  lemma MinusOneRead()
    ensures Pow2(8) == 256 && var v := Bits(255, 8, true);
            && !CompileCorrect.ConstReadable(v, I16)
            && Wrap(16, true, 255) == 255 && Num(Interp.Coerce(v, I16)) == -1
  {
    SmallPowers();
    assert Pow2(7) == 128;
    Pow2Strict(8, 15);
    CastExact(Bits(255, 8, true), 16, true);
    WrapInRange(16, true, -1);
    WrapInRange(16, true, 255);
  }

  // An untyped -k pinned to an unsigned type is emitted as its residue.
  lemma PinnedMinus(k: nat, w: nat, b: Builder, env0: Env, env: Env) returns (out: Env)
    requires WidthOk(w) && k < Pow2(w) && At(b, env0, env, true)
    ensures var t := Type(w, false);
            var r := EmitExpr(Unary(UMinus, IntLit(k, t), t), map[], map[], b);
            && Checked(Unary(UMinus, IntLit(k, t), t))
            && r.Some? && At(r.value.b, env0, out, true) && Holding(out, r.value.v, t, (0 - k) % Pow2(w))
  {
    hide Pow2, At;
    assert PolyShape(IntLit(k, Type(w, false))) && Checked(IntLit(k, Type(w, false)));
    ModSmall(k, Pow2(w));
    var lit := IntConst(b, k, w);
    var e1 := ConstAt(b, k, w, env0, env, true);
    var zero := IntConst(lit.b, 0, w);
    var e2 := ConstAt(lit.b, 0, w, env0, e1, true);
    ModSmall(0, Pow2(w));
    out := ArithmeticAt(zero.b, SubI, zero.v, lit.v, w, (0 - k) % Pow2(w), env0, e2, true);
  }

  // That is the tree the checker leaves of -k where this type is wanted.
  lemma PinnedMinusAccepted(k: nat, t: Type)
    requires TypeOk(t) && !t.signed && k < Pow2(t.width)
    ensures var o := TypeCheck.CheckExpr(TypeCheck.UnaryNode(UMinus, TypeCheck.LitNode(k, TypeCheck.Unknown), TypeCheck.Unknown), t);
            o.ok && TypeCheck.Erase(o.node) == Some(Unary(UMinus, IntLit(k, t), t))
  {
    var lit := TypeCheck.LitNode(k, TypeCheck.Unknown);
    assert TypeCheck.Infer(lit) == TypeCheck.Outcome(TypeCheck.LitNode(k, TypeCheck.Untyped(k)), true);
    assert TypeCheck.Pin(TypeCheck.LitNode(k, TypeCheck.Untyped(k)), t) == TypeCheck.LitNode(k, TypeCheck.Typed(t));
    assert TypeCheck.Erase(TypeCheck.LitNode(k, TypeCheck.Typed(t))) == Some(IntLit(k, t));
  }

  // The interpreter makes it negative: the same number only for 0.
  lemma PinnedMinusIff(k: nat, w: nat)
    requires WidthOk(w) && w < WORD && k < Pow2(w)
    ensures var t := Type(w, false);
            var x := Eval(Unary(UMinus, IntLit(k, t), t), map[]);
            x.width == w + 1 && (Num(x) == (0 - k) % Pow2(w) <==> k == 0)
  {
    hide Pow2;
    MakeWraps(k, k, w, false);
    NegExact(Make(k, w, false));
  }

  // `!` keeps its operand's type, but is emitted as one bit.
  lemma BangWidthIff(t: Type, v: Value, b: Builder)
    requires TypeOk(t)
    ensures EmitUnary(UBang, t, UnaryRule(UBang, t), v, b).v.ty == I(UnaryRule(UBang, t).width) <==> t.width == 1
  {
  }

  // !x is accepted for a u8 variable, and typed u8.
  lemma WideBang(x: Symbol)
    requires x.ty == U8
    ensures var o := TypeCheck.CheckExpr(TypeCheck.UnaryNode(UBang, TypeCheck.NameNode(x, TypeCheck.Unknown), TypeCheck.Unknown), U8);
            o.ok && TypeCheck.Erase(o.node) == Some(Unary(UBang, NameRef(x, U8), U8))
  {
    assert TypeCheck.Infer(TypeCheck.NameNode(x, TypeCheck.Unknown)).node == TypeCheck.NameNode(x, TypeCheck.Typed(U8));
    assert TypeCheck.Erase(TypeCheck.NameNode(x, TypeCheck.Typed(U8))) == Some(NameRef(x, U8));
  }

  const I64 := Type(64, true)

  // i64(-(a * b)) for two i64 variables.
  function WideSource(a: Symbol, b: Symbol): TypeCheck.Node {
    var x, y := TypeCheck.NameNode(a, TypeCheck.Unknown), TypeCheck.NameNode(b, TypeCheck.Unknown);
    var product := TypeCheck.BinaryNode(Star, x, y, TypeCheck.Unknown);
    TypeCheck.CastNode(I64, TypeCheck.UnaryNode(UMinus, product, TypeCheck.Unknown), TypeCheck.Unknown)
  }

  // It is accepted and fully typed, although its negation has 129 bits.
  lemma WideNegation(a: Symbol, b: Symbol)
    requires a.ty == b.ty == I64
    ensures var o := TypeCheck.CheckExpr(WideSource(a, b), I64);
            && o.ok && TypeCheck.Erase(o.node).Some?
            && !TypeCheck.NegationsFit(o.node) && !Checked(TypeCheck.Erase(o.node).value)
  {
    var u := TypeCheck.Unknown;
    var x, y := TypeCheck.NameNode(a, u), TypeCheck.NameNode(b, u);
    var p := TypeCheck.BinaryNode(Star, x, y, u);
    var tx, ty := TypeCheck.NameNode(a, TypeCheck.Typed(I64)), TypeCheck.NameNode(b, TypeCheck.Typed(I64));
    var tp := TypeCheck.BinaryNode(Star, tx, ty, TypeCheck.Typed(Type(128, true)));
    assert TypeCheck.Infer(p) == TypeCheck.Outcome(tp, true);
    var tn := TypeCheck.UnaryNode(UMinus, tp, TypeCheck.Typed(Type(129, true)));
    assert TypeCheck.Infer(TypeCheck.UnaryNode(UMinus, p, u)) == TypeCheck.Outcome(tn, true);
    var product := Binary(Star, NameRef(a, I64), NameRef(b, I64), Type(128, true));
    assert TypeCheck.Erase(tp) == Some(product);
    assert TypeCheck.Erase(tn) == Some(Unary(UMinus, product, Type(129, true)));
    assert !Checked(Unary(UMinus, product, Type(129, true)));
  }

  // T(v) for a literal v is accepted, and the literal left without a type.
  lemma CastOfLiteral(v: nat, t: Type)
    requires TypeOk(t) && v < Pow2(WORD)
    ensures var o := TypeCheck.CheckExpr(TypeCheck.CastNode(t, TypeCheck.LitNode(v, TypeCheck.Unknown), TypeCheck.Unknown), t);
            o.ok && o.node.CastNode? && o.node.arg.note == TypeCheck.Untyped(v) && TypeCheck.Erase(o.node) == None
  {
    var lit := TypeCheck.LitNode(v, TypeCheck.Unknown);
    assert TypeCheck.Infer(lit).node == TypeCheck.LitNode(v, TypeCheck.Untyped(v));
  }

  // The tree as the interpreter walks it: the type field of a node that stayed
  // untyped still has its default, one unsigned bit.
  function AsRead(n: TypeCheck.Node): Expr {
    TypeCheck.ReadAt(n, U1)
  }

  // So an accepted cast of a literal is evaluated to the literal's value only for
  // 0 and 1.
  lemma CastOfLiteralIff(v: nat, t: Type)
    requires TypeOk(t) && v < Pow2(WORD) && InRange(v, t.width, t.signed)
    ensures var o := TypeCheck.CheckExpr(TypeCheck.CastNode(t, TypeCheck.LitNode(v, TypeCheck.Unknown), TypeCheck.Unknown), t);
            o.ok && Eval(AsRead(o.node), map[]).width == t.width && (Num(Eval(AsRead(o.node), map[])) == v <==> v < 2)
  {
    hide Pow2;
    CastOfLiteral(v, t);
    LiteralRead(v, t);
    var bit := Make(v, 1, false);
    OneBit();
    MakeWraps(v, v, 1, false);
    CastExact(bit, t.width, t.signed);
    BitInRange(v % 2, v, t);
  }

  lemma {:induction false} LiteralRead(v: nat, t: Type)
    requires TypeOk(t) && v < Pow2(WORD)
    ensures var o := TypeCheck.CheckExpr(TypeCheck.CastNode(t, TypeCheck.LitNode(v, TypeCheck.Unknown), TypeCheck.Unknown), t);
            AsRead(o.node) == Cast(t, IntLit(v, U1), t)
  {
    CastOfLiteral(v, t);
    var lit := TypeCheck.LitNode(v, TypeCheck.Unknown);
    assert TypeCheck.Infer(lit).node == TypeCheck.LitNode(v, TypeCheck.Untyped(v));
    assert TypeCheck.ReadAt(TypeCheck.LitNode(v, TypeCheck.Untyped(v)), U1) == IntLit(v, U1);
  }

  // A bit is a number of every type that holds a number it is the low bit of.
  lemma BitInRange(bit: nat, v: nat, t: Type)
    requires TypeOk(t) && InRange(v, t.width, t.signed) && bit == v % 2
    ensures InRange(bit, t.width, t.signed)
  {
  }
}
