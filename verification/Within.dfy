/**
 The interpreter computes what a program means, on every run that stays within the
 limits of its value operations.  Staying within them is a property of the values
 met; the types of an expression can promise it for all values.
 */
module Within {
  import opened Arith
  import opened FixedWidth
  import opened BitsLimits
  import opened Ast
  import opened Interp
  import opened Meaning
  import opened InterpExact
  import opened ExecFacts
  import opened Means
  import opened Scoping
  import opened Returns
  import opened Wrappers

  // Every operator evaluated for e, on the values it is given.
  predicate Stays(e: Expr, store: Store) {
    match e
    case IntLit(_, _) => true
    case NameRef(_, _) => true
    case Cast(_, x, _) => Stays(x, store)
    case Unary(op, x, t) =>
      && Stays(x, store)
      && (op == UMinus ==> Eval(x, store).width < WORD)
      && (op == UTilde && !t.signed ==> Eval(x, store).width == x.ty.width)
    case Binary(op, l, r, _) =>
      && Stays(l, store) && Stays(r, store)
      && var a, b := Eval(l, store), Eval(r, store);
         && WidthOk(a.width) && WidthOk(b.width) && l.ty.width > 0
         && OperandsFit(op, l.ty, a, b)
         && (Shift(op) ==> b.width == r.ty.width || Num(b) >= 0)
    case Ternary(c, x, y, _) =>
      Stays(c, store) && Stays(if Eval(c, store).raw != 0 then x else y, store)
  }

  // By its types or with these values, e stays within the limits.
  predicate Inside(e: Expr, store: Store) {
    Computable(e) || Stays(e, store)
  }

  // v is the value of e and denotes n.
  predicate Valued(v: Bits, e: Expr, n: int) {
    WidthOk(v.width) && v.signed == e.ty.signed && Num(v) == n
  }

  lemma UnaryStays(e: Expr, a: Bits, rho: Numbers)
    requires e.Unary? && Regular(e) && Valued(a, e.operand, Ideal(e.operand, rho))
    requires e.uop == UMinus ==> a.width < WORD
    requires e.uop == UTilde && !e.ty.signed ==> a.width == e.operand.ty.width
    ensures Valued(EvalUnary(e.uop, a), e, Ideal(e, rho))
  {
    hide Pow2;
    UnaryExact(e.uop, a, e.operand.ty, a.width);
    UnaryType(e.uop, a);
  }

  // An amount is read by its bits as the language reads it, when it is not a
  // negative number of fewer bits.
  lemma AmountWhole(b: Bits, t: Type, y: int)
    requires WidthOk(b.width) && TypeOk(t) && Num(b) == y && InRange(y, t.width, t.signed)
    requires b.width == t.width || y >= 0
    ensures b.raw == y % Pow2(t.width)
  {
    RawIsNum(b);
    if b.width != t.width {
      assert b.raw == y;
      assert Pow2(t.width) == 2 * Pow2(t.width - 1);
      ModSmall(y, Pow2(t.width));
    }
  }

  lemma BinaryValued(e: Expr, a: Bits, b: Bits, rho: Numbers)
    requires e.Binary? && Regular(e)
    requires Valued(a, e.lhs, Ideal(e.lhs, rho)) && Valued(b, e.rhs, Ideal(e.rhs, rho))
    requires InRange(Ideal(e.rhs, rho), e.rhs.ty.width, e.rhs.ty.signed)
    requires OperandsFit(e.op, e.lhs.ty, a, b) && (Shift(e.op) ==> b.width == e.rhs.ty.width || Num(b) >= 0)
    ensures Valued(EvalBinary(e.op, a, b), e, Ideal(e, rho))
  {
    hide Pow2, EvalBinary, OperandsFit, IdealBinary, InRange;
    var op, l, r := e.op, e.lhs, e.rhs;
    BinaryExact(op, a, b, l.ty);
    if Shift(op) {
      AmountWhole(b, r.ty, Ideal(r, rho));
    }
    AmountOnly(op, l.ty, Num(a), Num(b), b.raw, Ideal(r, rho) % Pow2(r.ty.width));
    BinarySign(e, a, b);
  }

  // Only a shift looks at its amount.
  lemma AmountOnly(op: BinOp, l: Type, x: int, y: int, j: nat, k: nat)
    requires l.width > 0 && (Shift(op) ==> j == k)
    ensures IdealBinary(op, l, x, y, j) == IdealBinary(op, l, x, y, k)
  {
    hide Pow2, Wrap, IntOp;
  }

  lemma BinarySign(e: Expr, a: Bits, b: Bits)
    requires e.Binary? && Regular(e) && a.signed == e.lhs.ty.signed && b.signed == e.rhs.ty.signed
    ensures EvalBinary(e.op, a, b).signed == e.ty.signed
  {
    hide EvalBinary, Ideal, InRange;
    BinaryType(e.op, a, b);
  }

  // Within the limits evaluation is exact.
  lemma {:induction false} EvalStays(e: Expr, store: Store)
    requires Regular(e) && Stays(e, store) && StoreTyped(store) && Reads(e) <= store.Keys
    ensures Valued(Eval(e, store), e, Ideal(e, NumbersOf(store)))
  {
    hide Regular, Valued, Ideal, StoreTyped, OperandsFit, Pow2;
    var rho := NumbersOf(store);
    RegularParts(e);
    match e
    case IntLit(_, _) => LeafValued(e, store);
    case NameRef(_, _) => LeafValued(e, store);
    case Cast(_, x, _) =>
      EvalStays(x, store);
      CastValued(e, Eval(x, store), rho);
    case Unary(_, x, _) =>
      EvalStays(x, store);
      UnaryStays(e, Eval(x, store), rho);
    case Binary(_, l, r, _) =>
      EvalStays(l, store);
      EvalStays(r, store);
      IdealFits(r, rho);
      BinaryValued(e, Eval(l, store), Eval(r, store), rho);
    case Ternary(c, x, y, _) =>
      EvalStays(c, store);
      EvalStays(if Eval(c, store).raw != 0 then x else y, store);
      TernaryValued(e, store);
  }

  lemma LeafValued(e: Expr, store: Store)
    requires e.IntLit? || e.NameRef?
    requires Regular(e) && StoreTyped(store) && Reads(e) <= store.Keys
    ensures Valued(Eval(e, store), e, Ideal(e, NumbersOf(store)))
  {
    if e.IntLit? {
      MakeWraps(e.value, e.value, e.ty.width, e.ty.signed);
    }
  }

  lemma CastValued(e: Expr, a: Bits, rho: Numbers)
    requires e.Cast? && Regular(e) && Valued(a, e.operand, Ideal(e.operand, rho))
    ensures Valued(CastTo(a, e.target.width, e.target.signed), e, Ideal(e, rho))
  {
    hide Pow2;
    CastExact(a, e.ty.width, e.ty.signed);
  }

  lemma TernaryValued(e: Expr, store: Store)
    requires e.Ternary? && Regular(e) && StoreTyped(store) && Reads(e) <= store.Keys
    requires Valued(Eval(e.cond, store), e.cond, Ideal(e.cond, NumbersOf(store)))
    requires var arm := if Eval(e.cond, store).raw != 0 then e.thenE else e.elseE;
             Valued(Eval(arm, store), arm, Ideal(arm, NumbersOf(store)))
    ensures Valued(Eval(e, store), e, Ideal(e, NumbersOf(store)))
  {
    hide Pow2, Regular, Interp.Coerce, NumOf, InRange, StoreTyped;
    var rho := NumbersOf(store);
    RegularParts(e);
    ArmTypes(e);
    ZeroRaw(Eval(e.cond, store));
    var arm := if Eval(e.cond, store).raw != 0 then e.thenE else e.elseE;
    IdealFits(arm, rho);
    RangeWidens(Ideal(arm, rho), arm.ty.width, e.ty.width, e.ty.signed);
    CoerceExact(Eval(arm, store), Ideal(arm, rho), e.ty);
  }

  lemma ArmTypes(e: Expr)
    requires e.Ternary? && Regular(e)
    ensures TypeOk(e.ty) && e.thenE.ty.signed == e.elseE.ty.signed == e.ty.signed
    ensures e.ty.width == Max(e.thenE.ty.width, e.elseE.ty.width) && e.thenE.ty.width > 0 && e.elseE.ty.width > 0
  {
    hide Ideal;
  }

  lemma EvalInside(e: Expr, store: Store)
    requires Regular(e) && Inside(e, store) && StoreTyped(store) && Reads(e) <= store.Keys
    ensures Valued(Eval(e, store), e, Ideal(e, NumbersOf(store))) && Meant(e, NumbersOf(store)) == Ideal(e, NumbersOf(store))
  {
    hide Regular, Stays, Eval, Ideal, StoreTyped, Computable, Denotes;
    if Computable(e) {
      EvalExact(e, store);
      DenotesParts(Eval(e, store), e, Ideal(e, NumbersOf(store)));
    } else {
      EvalStays(e, store);
    }
  }

  // ------------------------------------------------------------------- statements

  // Every expression the interpreter evaluates while executing s from st.
  predicate StmtInside(s: Stmt, st: State)
    decreases s, 0, 0
  {
    match s
    case VarDecl(_, e) => Inside(e, st.scalars)
    case Assign(_, e) => Inside(e, st.scalars)
    case If(c, t, e) =>
      Inside(c, st.scalars) && if Eval(c, st.scalars).raw != 0 then BlockInside(t, st) else ElseInside(e, st)
    case For(iv, init, _, _, isAdd, step, trip, _, body) =>
      trip > 0 ==>
        && Inside(init, st.scalars) && Inside(step, st.scalars)
        && LoopInside(body, trip, iv, Interp.Coerce(Eval(init, st.scalars), iv.ty),
                      Interp.Coerce(Eval(step, st.scalars), iv.ty), isAdd, st)
    case Return(e) => Inside(e, st.scalars)
    case Block(b) => BlockInside(b, st)
  }

  predicate ElseInside(e: Else, st: State)
    decreases e, 1, 0
  {
    match e
    case NoElse => true
    case ElseDo(s) => StmtInside(s, st)
  }

  predicate BlockInside(b: seq<Stmt>, st: State)
    decreases b, 0, 0
  {
    b == [] || (StmtInside(b[0], st) && BlockInside(b[1..], Exec(b[0], st)))
  }

  predicate LoopInside(body: seq<Stmt>, n: nat, sym: Symbol, iv: Bits, step: Bits, isAdd: bool, st: State)
    decreases body, 1, n
  {
    n == 0 ||
    var st0 := st.(scalars := st.scalars[sym := iv]);
    BlockInside(body, st0) && LoopInside(body, n - 1, sym, StepIv(iv, step, isAdd, sym.ty), step, isAdd, ExecBlock(body, st0))
  }

  // The interpreter's state has the numbers of m.
  predicate Same(st: State, m: Sense) {
    StoreTyped(st.scalars) && m.vars == NumbersOf(st.scalars) && m.result == NumberOf(st.returnValue)
  }

  lemma SameKeys(st: State, m: Sense)
    requires Same(st, m)
    ensures m.vars.Keys == st.scalars.Keys && StoreTyped(st.scalars)
  {
  }

  // Storing a value at a type stores its number.
  lemma SameStore(st: State, m: Sense, sym: Symbol, b: Bits, n: int)
    requires Same(st, m) && TypeOk(sym.ty)
    requires b.width == sym.ty.width && b.signed == sym.ty.signed && Num(b) == n
    ensures Same(st.(scalars := st.scalars[sym := b]), m.(vars := m.vars[sym := n]))
  {
  }

  lemma CoerceCuts(b: Bits, t: Type)
    requires WidthOk(b.width) && TypeOk(t)
    ensures var r := Interp.Coerce(b, t); r.width == t.width && r.signed == t.signed && Num(r) == Cut(t, Num(b))
  {
    hide Pow2;
    CastExact(b, t.width, t.signed);
  }

  // One step of the induction variable, in bits and in numbers.
  lemma StepMeans(iv: Bits, step: Bits, isAdd: bool, t: Type)
    requires TypeOk(t) && iv.width == step.width == t.width && iv.signed == step.signed == t.signed
    ensures var r := StepIv(iv, step, isAdd, t);
            r.width == t.width && r.signed == t.signed && Num(r) == NextIv(Num(iv), Num(step), isAdd, t)
  {
    hide Pow2, NumOf, Make;
    var x := if isAdd then iv.raw + step.raw else iv.raw - step.raw;
    MakeWraps(x, x, t.width, t.signed);
    RawIsNum(iv);
    RawIsNum(step);
    ModAdd(Num(iv), Num(step), Pow2(t.width));
    ModSub(Num(iv), Num(step), Pow2(t.width));
    MakeShape(x, t);
  }

  lemma MakeShape(x: int, t: Type)
    ensures Make(x, t.width, t.signed).width == t.width && Make(x, t.width, t.signed).signed == t.signed
  {
  }

  predicate Ready(s: Stmt, st: State, m: Sense, vars: set<Symbol>) {
    && RegularStmt(s) && Scoped(s, vars) && vars <= st.scalars.Keys && StmtInside(s, st) && Same(st, m)
  }

  // What executing s and what s means, side by side.
  predicate Done(s: Stmt, st: State, m: Sense, vars: set<Symbol>) {
    && Same(Exec(s, st), Does(s, m))
    && After(s, vars) <= Exec(s, st).scalars.Keys
    && (Stops(s) || WidthOk(st.returnValue.width) ==> WidthOk(Exec(s, st).returnValue.width))
  }

  lemma StoreMeans(s: Stmt, st: State, m: Sense, vars: set<Symbol>)
    requires (s.VarDecl? || s.Assign?) && Ready(s, st, m, vars)
    ensures Done(s, st, m, vars)
  {
    hide Regular, Inside, Eval, Meant, Interp.Coerce, Cut, Same;
    var e := if s.VarDecl? then s.init else s.value;
    SameKeys(st, m);
    SameVars(st, m);
    EvalInside(e, st.scalars);
    CoerceCuts(Eval(e, st.scalars), s.sym.ty);
    SameStore(st, m, s.sym, Interp.Coerce(Eval(e, st.scalars), s.sym.ty), Cut(s.sym.ty, Meant(e, m.vars)));
  }

  lemma SameVars(st: State, m: Sense)
    requires Same(st, m)
    ensures StoreTyped(st.scalars) && m.vars == NumbersOf(st.scalars)
  {
  }

  lemma ReturnMeans(s: Stmt, st: State, m: Sense, vars: set<Symbol>)
    requires s.Return? && Ready(s, st, m, vars)
    ensures Done(s, st, m, vars)
  {
    hide Regular, Inside, Eval, Meant, StoreTyped;
    EvalInside(s.value, st.scalars);
  }

  lemma {:induction false} StmtMeans(s: Stmt, st: State, m: Sense, vars: set<Symbol>)
    requires Ready(s, st, m, vars)
    ensures Done(s, st, m, vars)
    decreases s, 1, 0
  {
    hide Same, Inside, Eval, Meant, Regular;
    match s
    case VarDecl(_, _) => StoreMeans(s, st, m, vars);
    case Assign(_, _) => StoreMeans(s, st, m, vars);
    case Return(_) => ReturnMeans(s, st, m, vars);
    case Block(b) => BlockMeans(b, st, m, vars);
    case If(_, _, _) => IfMeans(s, st, m, vars);
    case For(_, _, _, _, _, _, _, _, _) => ForMeans(s, st, m, vars);
  }

  lemma {:induction false} BlockMeans(b: seq<Stmt>, st: State, m: Sense, vars: set<Symbol>)
    requires RegularBlock(b) && ScopedBlock(b, vars) && vars <= st.scalars.Keys && BlockInside(b, st) && Same(st, m)
    ensures Same(ExecBlock(b, st), DoesBlock(b, m)) && AfterBlock(b, vars) <= ExecBlock(b, st).scalars.Keys
    ensures BlockStops(b) || WidthOk(st.returnValue.width) ==> WidthOk(ExecBlock(b, st).returnValue.width)
    decreases b, 0, 0
  {
    hide Same, StmtInside, Scoped, RegularStmt, Exec, Does, After;
    if b != [] {
      StmtMeans(b[0], st, m, vars);
      BlockMeans(b[1..], Exec(b[0], st), Does(b[0], m), After(b[0], vars));
    }
  }

  // The condition decides alike.
  lemma ConditionMeans(c: Expr, st: State, m: Sense, vars: set<Symbol>)
    requires Regular(c) && Reads(c) <= vars <= st.scalars.Keys && Inside(c, st.scalars) && Same(st, m)
    ensures Eval(c, st.scalars).raw != 0 <==> Meant(c, m.vars) != 0
  {
    hide Regular, Inside, Eval, Meant, Same, StoreTyped;
    SameVars(st, m);
    EvalInside(c, st.scalars);
    ZeroRaw(Eval(c, st.scalars));
  }

  lemma {:induction false} IfMeans(s: Stmt, st: State, m: Sense, vars: set<Symbol>)
    requires s.If? && Ready(s, st, m, vars)
    ensures Done(s, st, m, vars)
    decreases s, 0, 0
  {
    hide Same, Inside, Eval, Meant, Regular, RegularBlock, ScopedBlock, BlockInside, DoesBlock, ExecBlock, RegularElse, ScopedElse, ElseInside, DoesElse, ExecElse;
    ConditionMeans(s.cond, st, m, vars);
    if Eval(s.cond, st.scalars).raw != 0 {
      BlockMeans(s.thenB, st, m, vars);
      AfterBlockGrows(s.thenB, vars);
    } else {
      ElseMeans(s.elseS, st, m, vars);
    }
  }

  lemma {:induction false} ElseMeans(e: Else, st: State, m: Sense, vars: set<Symbol>)
    requires RegularElse(e) && ScopedElse(e, vars) && vars <= st.scalars.Keys && ElseInside(e, st) && Same(st, m)
    ensures Same(ExecElse(e, st), DoesElse(e, m)) && vars <= ExecElse(e, st).scalars.Keys
    ensures WidthOk(st.returnValue.width) ==> WidthOk(ExecElse(e, st).returnValue.width)
    decreases e, 2, 0
  {
    hide Same;
    if e.ElseDo? {
      StmtMeans(e.stmt, st, m, vars);
      AfterGrows(e.stmt, vars);
    }
  }

  lemma {:induction false} ForMeans(s: Stmt, st: State, m: Sense, vars: set<Symbol>)
    requires s.For? && Ready(s, st, m, vars)
    ensures Done(s, st, m, vars)
    decreases s, 0, 0
  {
    hide Same, Inside, Eval, Meant, Regular, RegularBlock, ScopedBlock, BlockInside, DoesLoop, ExecLoop, LoopInside, Interp.Coerce, Cut;
    var t := s.iv.ty;
    var iv, step := Interp.Coerce(Eval(s.init, st.scalars), t), Interp.Coerce(Eval(s.step, st.scalars), t);
    var x, y := Cut(t, Meant(s.init, m.vars)), Cut(t, Meant(s.step, m.vars));
    if s.trip == 0 {
      NoTrip(s.body, s.iv, iv, step, x, y, s.stepIsAdd, st, m);
    } else {
      SameVars(st, m);
      EvalInside(s.init, st.scalars);
      EvalInside(s.step, st.scalars);
      CoerceCuts(Eval(s.init, st.scalars), t);
      CoerceCuts(Eval(s.step, st.scalars), t);
      LoopMeans(s.body, s.trip, s.iv, iv, step, x, y, s.stepIsAdd, st, m, vars);
    }
  }

  lemma NoTrip(body: seq<Stmt>, sym: Symbol, iv: Bits, step: Bits, x: int, y: int, isAdd: bool, st: State, m: Sense)
    ensures ExecLoop(body, 0, sym, iv, step, isAdd, st) == st && DoesLoop(body, 0, sym, x, y, isAdd, m) == m
  {
  }

  lemma {:induction false} LoopMeans(body: seq<Stmt>, n: nat, sym: Symbol, iv: Bits, step: Bits, x: int, y: int, isAdd: bool,
                                     st: State, m: Sense, vars: set<Symbol>)
    requires RegularBlock(body) && ScopedBlock(body, vars + {sym}) && vars <= st.scalars.Keys && TypeOk(sym.ty)
    requires LoopInside(body, n, sym, iv, step, isAdd, st) && Same(st, m)
    requires iv.width == step.width == sym.ty.width && iv.signed == step.signed == sym.ty.signed
    requires Num(iv) == x && Num(step) == y
    ensures var st1 := ExecLoop(body, n, sym, iv, step, isAdd, st);
            && Same(st1, DoesLoop(body, n, sym, x, y, isAdd, m)) && vars <= st1.scalars.Keys
            && (WidthOk(st.returnValue.width) ==> WidthOk(st1.returnValue.width))
    decreases body, 1, n
  {
    hide Same, RegularBlock, ScopedBlock, BlockInside, ExecBlock, DoesBlock, StepIv, NextIv, NumOf;
    if n > 0 {
      var st0, m0 := st.(scalars := st.scalars[sym := iv]), m.(vars := m.vars[sym := x]);
      SameStore(st, m, sym, iv, x);
      BlockMeans(body, st0, m0, vars + {sym});
      AfterBlockGrows(body, vars + {sym});
      StepMeans(iv, step, isAdd, sym.ty);
      LoopMeans(body, n - 1, sym, StepIv(iv, step, isAdd, sym.ty), step, NextIv(x, y, isAdd, sym.ty), y, isAdd,
                ExecBlock(body, st0), DoesBlock(body, m0), vars);
    }
  }
}
