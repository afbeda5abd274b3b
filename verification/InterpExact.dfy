/**
 The interpreter computes the language's numbers: type soundness and exactness
 of `eval`, and the invariant that every variable holds a value of its own type.
 */
module InterpExact {
  import opened Arith
  import opened FixedWidth
  import opened Ast
  import opened Interp
  import opened Meaning
  import opened BitsLimits

  // Every variable holds a value of its declared type.
  predicate StoreTyped(store: Store) {
    forall sym | sym in store ::
      TypeOk(sym.ty) && store[sym].width == sym.ty.width && store[sym].signed == sym.ty.signed
  }

  function NumbersOf(store: Store): (rho: Numbers)
    requires StoreTyped(store)
    ensures NumbersOk(rho)
  {
    map sym | sym in store :: Num(store[sym])
  }

  // v is the value of e: it denotes n, with e's signedness, in a width the
  // static bound covers, and in e's own width when that is predictable.
  predicate Denotes(v: Bits, e: Expr, n: int) {
    && 1 <= v.width <= MaxWidth(e) <= WORD
    && v.signed == e.ty.signed
    && Num(v) == n
    && (ExactWidth(e) ==> v.width == e.ty.width)
    && (WidthOrZero(e) ==> v.width == e.ty.width || n == 0)
  }

  lemma FlagDenotes(c: bool)
    ensures Flag(c).width == 1 && !Flag(c).signed && Num(Flag(c)) == Truth(c)
  {
    FlagIs(c);
  }

  lemma UnaryExact(op: UnOp, a: Bits, t: Type, w: nat)
    requires 1 <= a.width <= w && a.signed == t.signed
    requires (if op == UMinus then w + 1 else w) <= WORD
    requires op == UBang ==> t == U1
    requires op == UTilde && !t.signed ==> a.width == t.width
    ensures var r := EvalUnary(op, a);
            WidthOk(r.width) && Num(r) == IdealUnary(op, t, Num(a))
  {
    match op
    case UMinus => NegExact(a);
    case UTilde => BitNotExact(a);
    case UBang => FlagDenotes(a.raw == 0); RawIsNum(a);
    case UPlus =>
  }

  lemma WrapZero(w: nat, signed: bool)
    requires WidthOk(w)
    ensures Wrap(w, signed, 0) == 0
  {
    WrapInRange(w, signed, 0);
  }

  // An operator on values at hand stays within what the value operations can do; l
  // is the type of the left operand.
  predicate OperandsFit(op: BinOp, l: Type, a: Bits, b: Bits)
    requires WidthOk(a.width) && WidthOk(b.width) && l.width > 0
  {
    match op
    case Plus | Minus => Max(a.width, b.width) + 1 <= WORD
    case Star => a.width + b.width <= WORD
    case Slash => a.signed ==> a.width + 1 <= WORD
    case Percent => a.signed || RemainderFits(a, b)
    case Shl => AmountOk(b.raw, a.width) && ShiftFits(Num(a), b.raw, a.width, l.width, a.signed)
    case Shr => AmountOk(b.raw, a.width)
    case _ => true
  }

  lemma BinaryExact(op: BinOp, a: Bits, b: Bits, l: Type)
    requires WidthOk(a.width) && WidthOk(b.width) && WidthOk(l.width) && a.signed == l.signed
    requires a.signed == b.signed || Shift(op)
    requires OperandsFit(op, l, a, b)
    ensures var r := EvalBinary(op, a, b);
            WidthOk(r.width) && Num(r) == IdealBinary(op, l, Num(a), Num(b), b.raw)
  {
    hide Pow2, FixedWidth.Value, NumOf, IntOp, TruncDiv, TruncRem, BitOp, Wrap, InRange, ShiftFits, AmountOk, RemainderFits;
    match op
    case Plus => AddExact(a, b);
    case Minus => SubExact(a, b);
    case Star => MulExact(a, b);
    case Slash => DivideExact(a, b);
    case Percent => RemainderWithin(a, b);
    case Amp => BitwiseExact(AndF, a, b);
    case Pipe => BitwiseExact(OrF, a, b);
    case Caret => BitwiseExact(XorF, a, b);
    case Shl => ShiftFitsIff(a, b, l.width);
    case Shr => ShrExact(a, b);
    case Rel(c) => CompareExact(a, b, c); FlagDenotes(Holds(c, Num(a), Num(b)));
    case AmpAmp => FlagDenotes(a.raw != 0 && b.raw != 0); RawIsNum(a); RawIsNum(b);
    case PipePipe => FlagDenotes(a.raw != 0 || b.raw != 0); RawIsNum(a); RawIsNum(b);
  }

  // Operands of widths at which remainders are exact.
  lemma NarrowOperands(a: Bits, b: Bits)
    requires WidthOk(a.width) && WidthOk(b.width) && RemainderWidths(a.width, b.width)
    ensures RemainderFits(a, b)
  {
    Pow2Mono(b.width, WORD - 1);
    if a.width < WORD {
      Pow2Mono(a.width, WORD - 1);
    }
  }

  // A small amount is read whole, and by its bits as the language reads it.
  lemma AmountRead(r: Expr, store: Store, y: int, w: nat)
    requires WellTyped(r) && SmallAmount(r) && Denotes(Eval(r, store), r, y)
    ensures AmountOk(Eval(r, store).raw, w)
    ensures Eval(r, store).raw == y % Pow2(r.ty.width)
  {
    hide Pow2, NumOf, FixedWidth.Value, Make, WidthOrZero, ExactWidth;
    var b := Eval(r, store);
    RawIsNum(b);
    RawOfNum(b.width, b.signed, b.raw);
    if b.width != r.ty.width {
      ModSmall(0, Pow2(b.width));
      ModSmall(0, Pow2(r.ty.width));
    } else if r.ty.width <= 32 {
      Pow2Mono(r.ty.width, 32);
    } else {
      MakeWraps(r.value, r.value, r.ty.width, r.ty.signed);
      AbsDivRem(r.value, Pow2(r.ty.width));
    }
  }

  // The width and signedness of an operator's value depend on its operands'
  // widths and signedness only; for a quotient, also on whether it is by zero.
  function ResultType(op: BinOp, a: Type, b: Type, byZero: bool): Type {
    match op
    case Plus => Type(Max(a.width, b.width) + 1, a.signed || b.signed)
    case Minus => Type(Max(a.width, b.width) + 1, true)
    case Star => Type(a.width + b.width, a.signed || b.signed)
    case Slash =>
      if byZero then a
      else if a.signed || b.signed then Type(a.width + 1, true)
      else Type(a.width, false)
    case Percent => Type(Min(a.width, b.width), a.signed || b.signed)
    case Amp | Pipe | Caret => Type(Max(a.width, b.width), a.signed || b.signed)
    case Shl | Shr => a
    case Rel(_) | AmpAmp | PipePipe => U1
  }

  function TypeOf(b: Bits): Type {
    Type(b.width, b.signed)
  }

  lemma BinaryType(op: BinOp, a: Bits, b: Bits)
    ensures TypeOf(EvalBinary(op, a, b)) == ResultType(op, TypeOf(a), TypeOf(b), b.raw == 0)
  {
  }

  lemma ResultFits(op: BinOp, l: Type, r: Type, t: Type, ma: nat, mb: nat, a: Type, b: Type, byZero: bool)
    requires 1 <= a.width <= ma && 1 <= b.width <= mb
    requires a.signed == l.signed && b.signed == r.signed
    requires l.signed == r.signed || Shift(op)
    requires t == WidthRule(op, l, r) || (l == r == t && IsArithmetic(op) && (t.signed || op == Plus || op == Star))
    ensures var v := ResultType(op, a, b, byZero);
            1 <= v.width <= WidestBinary(op, l.signed, ma, mb) && v.signed == t.signed
    ensures && t == WidthRule(op, l, r)
            && (Flagged(op) || a.width == l.width)
            && (Flagged(op) || Shift(op) || op == Slash || b.width == r.width)
            && !(op == Slash && l.signed && byZero)
            ==> ResultType(op, a, b, byZero).width == t.width
  {
  }

  lemma {:induction false} NonZeroValue(r: Expr, rho: Numbers)
    requires Regular(r) && NonZero(r)
    ensures Ideal(r, rho) != 0
  {
    match r
    case IntLit(v, t) =>
      RawOfNum(t.width, t.signed, v % Pow2(t.width));
      ModSmall(0, Pow2(t.width));
    case Unary(_, x, _) => NonZeroValue(x, rho);
  }

  // No bit is set in both when none is set in one.
  lemma {:induction false} AndZero(n: int)
    ensures IntOp(AndF, 0, n) == 0 && IntOp(AndF, n, 0) == 0
    decreases Abs(n)
  {
    IntOpUnfold(AndF, 0, n);
    IntOpUnfold(AndF, n, 0);
    if n != 0 && n != -1 {
      AndZero(n / 2);
    }
  }

  // An operator that keeps a zero, on operands at their widths or zero.
  lemma KeepsZero(op: BinOp, l: Type, x: int, y: int, k: nat)
    requires WidthOk(l.width)
    requires op == Star || op == Percent || op == Amp || op == Slash || Shift(op)
    requires x == 0 || (y == 0 && !Shift(op))
    ensures IdealBinary(op, l, x, y, k) == 0
  {
    match op
    case Amp => AndZero(x); AndZero(y);
    case Shl => WrapZero(l.width, l.signed);
    case _ =>
  }

  // The static limits keep an operator within those of its operands' values.
  lemma BinaryFits(op: BinOp, l: Expr, r: Expr, t: Type, a: Bits, b: Bits, x: int, y: int)
    requires WellTyped(Binary(op, l, r, t))
    requires Denotes(a, l, x) && Denotes(b, r, y)
    requires Shift(op) ==> AmountOk(b.raw, a.width)
    ensures OperandsFit(op, l.ty, a, b)
  {
    hide Pow2, NumOf, ShiftFits, AmountOk, Ideal;
    if op == Percent && !t.signed {
      NarrowOperands(a, b);
    }
    if op == Shl {
      SameWidthFits(Num(a), b.raw, a.width, l.ty.width, a.signed);
    }
  }

  // What typing says of an operator whose operands are already evaluated.
  lemma BinaryDenotes(op: BinOp, l: Expr, r: Expr, t: Type, a: Bits, b: Bits, x: int, y: int)
    requires WellTyped(Binary(op, l, r, t))
    requires Denotes(a, l, x) && Denotes(b, r, y)
    requires Shift(op) ==> AmountOk(b.raw, a.width) && b.raw == y % Pow2(r.ty.width)
    ensures var v := EvalBinary(op, a, b);
            && WidthOk(v.width)
            && Num(v) == IdealBinary(op, l.ty, x, y, y % Pow2(r.ty.width))
  {
    RawIsNum(b);
    assert MaxWidth(Binary(op, l, r, t)) <= WORD;
    BinaryFits(op, l, r, t, a, b, x, y);
    BinaryExact(op, a, b, l.ty);
    assert !Shift(op) ==> IdealBinary(op, l.ty, x, y, y % Pow2(r.ty.width)) == IdealBinary(op, l.ty, x, y, b.raw);
  }

  lemma {:induction false} EvalBinaryExact(op: BinOp, l: Expr, r: Expr, t: Type, store: Store)
    requires var e := Binary(op, l, r, t); WellTyped(e) && StoreTyped(store) && Reads(e) <= store.Keys
    requires Denotes(Eval(l, store), l, Ideal(l, NumbersOf(store)))
    requires Denotes(Eval(r, store), r, Ideal(r, NumbersOf(store)))
    ensures var e := Binary(op, l, r, t); Denotes(Eval(e, store), e, Ideal(e, NumbersOf(store)))
  {
    var a, b := Eval(l, store), Eval(r, store);
    var x, y := Ideal(l, NumbersOf(store)), Ideal(r, NumbersOf(store));
    if Shift(op) {
      AmountRead(r, store, y, a.width);
    }
    BinaryDenotes(op, l, r, t, a, b, x, y);
    BinaryWidths(op, l, r, t, a, b, x, y, NumbersOf(store));
  }

  lemma BinaryWidths(op: BinOp, l: Expr, r: Expr, t: Type, a: Bits, b: Bits, x: int, y: int, rho: Numbers)
    requires WellTyped(Binary(op, l, r, t)) && Denotes(a, l, x) && Denotes(b, r, y) && y == Ideal(r, rho)
    ensures var e := Binary(op, l, r, t); var v := EvalBinary(op, a, b);
            var n := IdealBinary(op, l.ty, x, y, y % Pow2(r.ty.width));
            && 1 <= v.width <= MaxWidth(e) <= WORD && v.signed == t.signed
            && (ExactWidth(e) ==> v.width == t.width)
            && (WidthOrZero(e) ==> v.width == t.width || n == 0)
  {
    hide EvalBinary, IdealBinary, Ideal;
    RawIsNum(b);
    ZeroRaw(b);
    BinaryType(op, a, b);
    ResultFits(op, l.ty, r.ty, t, MaxWidth(l), MaxWidth(r), TypeOf(a), TypeOf(b), b.raw == 0);
    if NonZero(r) {
      NonZeroValue(r, rho);
    }
    if WidthOrZero(Binary(op, l, r, t)) && (x == 0 || (y == 0 && !Shift(op)))
       && (op == Star || op == Percent || op == Amp || op == Slash || Shift(op)) {
      KeepsZero(op, l.ty, x, y, y % Pow2(r.ty.width));
    }
  }

  lemma ZeroRaw(b: Bits)
    requires WidthOk(b.width)
    ensures b.raw == 0 <==> Num(b) == 0
  {
    ModSmall(0, Pow2(b.width));
    RawOfNum(b.width, b.signed, b.raw);
  }

  lemma UnaryType(op: UnOp, a: Bits)
    ensures TypeOf(EvalUnary(op, a)) == if op == UBang then U1 else UnaryRule(op, TypeOf(a))
  {
  }

  lemma {:induction false} EvalUnaryExact(op: UnOp, x: Expr, t: Type, store: Store)
    requires var e := Unary(op, x, t); WellTyped(e) && StoreTyped(store) && Reads(e) <= store.Keys
    requires Denotes(Eval(x, store), x, Ideal(x, NumbersOf(store)))
    ensures var e := Unary(op, x, t); Denotes(Eval(e, store), e, Ideal(e, NumbersOf(store)))
  {
    var a := Eval(x, store);
    UnaryExact(op, a, x.ty, MaxWidth(x));
    UnaryType(op, a);
  }

  lemma DenotesParts(v: Bits, e: Expr, n: int)
    requires Denotes(v, e, n) && WellTyped(e)
    ensures WidthOk(v.width) && v.signed == e.ty.signed && Num(v) == n && Widths(e) && TypeOk(e.ty) && e.ty.width > 0
  {
    hide ExactWidth, WidthOrZero, MaxWidth;
  }

  // A value read at a type that holds its number keeps it.
  lemma CoerceExact(v: Bits, n: int, t: Type)
    requires WidthOk(v.width) && TypeOk(t) && Num(v) == n && InRange(n, t.width, t.signed)
    ensures var r := Coerce(v, t); r.width == t.width && r.signed == t.signed && Num(r) == n
  {
    hide Pow2, NumOf, InRange, FixedWidth.Value;
    CastExact(v, t.width, t.signed);
  }

  lemma {:induction false} EvalTernaryExact(c: Expr, x: Expr, y: Expr, t: Type, store: Store)
    requires var e := Ternary(c, x, y, t); WellTyped(e) && StoreTyped(store) && Reads(e) <= store.Keys
    requires Denotes(Eval(c, store), c, Ideal(c, NumbersOf(store)))
    requires Denotes(Eval(x, store), x, Ideal(x, NumbersOf(store)))
    requires Denotes(Eval(y, store), y, Ideal(y, NumbersOf(store)))
    ensures var e := Ternary(c, x, y, t); Denotes(Eval(e, store), e, Ideal(e, NumbersOf(store)))
  {
    hide Checked, Ruled, Computable, Pow2, Denotes, Coerce, StoreTyped, NumOf, InRange;
    var rho := NumbersOf(store);
    Parts(Ternary(c, x, y, t));
    IdealFits(x, rho);
    IdealFits(y, rho);
    RangeWidens(Ideal(x, rho), x.ty.width, t.width, t.signed);
    RangeWidens(Ideal(y, rho), y.ty.width, t.width, t.signed);
    DenotesParts(Eval(c, store), c, Ideal(c, rho));
    DenotesParts(Eval(x, store), x, Ideal(x, rho));
    DenotesParts(Eval(y, store), y, Ideal(y, rho));
    ZeroRaw(Eval(c, store));
    CoerceExact(Eval(x, store), Ideal(x, rho), t);
    CoerceExact(Eval(y, store), Ideal(y, rho), t);
    TernaryDenotes(Ternary(c, x, y, t), store, rho);
  }

  lemma TernaryDenotes(e: Expr, store: Store, rho: Numbers)
    requires e.Ternary? && Widths(e) && WidthOk(Eval(e, store).width)
    requires Eval(e, store).width == e.ty.width && Eval(e, store).signed == e.ty.signed
    requires Num(Eval(e, store)) == Ideal(e, rho)
    ensures Denotes(Eval(e, store), e, Ideal(e, rho))
  {
    hide Eval, Ideal, NumOf;
  }

  lemma EvalLeafExact(e: Expr, store: Store)
    requires e.IntLit? || e.NameRef?
    requires WellTyped(e) && StoreTyped(store) && Reads(e) <= store.Keys
    ensures Denotes(Eval(e, store), e, Ideal(e, NumbersOf(store)))
  {
    if e.IntLit? {
      MakeWraps(e.value, e.value, e.ty.width, e.ty.signed);
    }
  }

  lemma EvalCastExact(e: Expr, store: Store)
    requires e.Cast? && WellTyped(e) && StoreTyped(store)
    requires Denotes(Eval(e.operand, store), e.operand, Ideal(e.operand, NumbersOf(store)))
    ensures Denotes(Eval(e, store), e, Ideal(e, NumbersOf(store)))
  {
    CastExact(Eval(e.operand, store), e.ty.width, e.ty.signed);
  }

  lemma Parts(e: Expr)
    requires WellTyped(e)
    ensures TypeOk(e.ty) && MaxWidth(e) <= WORD
    ensures e.NameRef? ==> e.ty == e.sym.ty
    ensures e.Cast? ==> WellTyped(e.operand) && e.ty == e.target
    ensures e.Unary? ==> WellTyped(e.operand)
    ensures e.Binary? ==> WellTyped(e.lhs) && WellTyped(e.rhs)
    ensures e.Ternary? ==> WellTyped(e.cond) && WellTyped(e.thenE) && WellTyped(e.elseE)
    ensures e.Ternary? ==> e.thenE.ty.signed == e.elseE.ty.signed == e.ty.signed
    ensures e.Ternary? ==> e.ty.width == Max(e.thenE.ty.width, e.elseE.ty.width)
  {
    hide PinnedFits, ExactWidth, WidthOrZero, SmallAmount, WidthRule;
  }

  // Evaluating a well-typed expression yields exactly the number the language
  // gives it: no operation overflows, and none loses its sign or type.
  lemma {:induction false} EvalExact(e: Expr, store: Store)
    requires WellTyped(e) && StoreTyped(store) && Reads(e) <= store.Keys
    ensures Denotes(Eval(e, store), e, Ideal(e, NumbersOf(store)))
  {
    hide WellTyped, Denotes, Eval, StoreTyped;
    Parts(e);
    match e
    case IntLit(_, _) => EvalLeafExact(e, store);
    case NameRef(_, _) => EvalLeafExact(e, store);
    case Cast(_, x, _) =>
      EvalExact(x, store);
      EvalCastExact(e, store);
    case Unary(op, x, t) =>
      EvalExact(x, store);
      EvalUnaryExact(op, x, t, store);
    case Binary(op, l, r, t) =>
      EvalExact(l, store);
      EvalExact(r, store);
      EvalBinaryExact(op, l, r, t, store);
    case Ternary(c, x, y, t) =>
      EvalExact(c, store);
      EvalExact(x, store);
      EvalExact(y, store);
      EvalTernaryExact(c, x, y, t, store);
  }
}
