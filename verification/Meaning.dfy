/**
 What an expression means: the language's own semantics over unbounded
 integers (LANGUAGE.md:505-606), and the typing rules it presupposes.
 Neither the interpreter nor the emitted hardware is mentioned here; both are
 proved against it.
 */
module Meaning {
  import opened Arith
  import opened FixedWidth
  import opened Ast

  type Numbers = map<Symbol, int>

  function Truth(c: bool): int {
    if c then 1 else 0
  }

  // The number an operator yields; l is the type of the left operand and k the
  // right operand read as a shift amount.
  function IdealBinary(op: BinOp, l: Type, x: int, y: int, k: nat): int
    requires l.width > 0
  {
    match op
    case Plus => x + y
    case Minus => x - y
    case Star => x * y
    case Slash => Quotient(x, y)
    case Percent => Residue(x, y)
    case Amp => IntOp(AndF, x, y)
    case Pipe => IntOp(OrF, x, y)
    case Caret => IntOp(XorF, x, y)
    case Shl => Wrap(l.width, l.signed, x * Pow2(k))
    case Shr => x / Pow2(k)
    case Rel(c) => Truth(Holds(c, x, y))
    case AmpAmp => Truth(x != 0 && y != 0)
    case PipePipe => Truth(x != 0 || y != 0)
  }

  function IdealUnary(op: UnOp, t: Type, x: int): int {
    match op
    case UMinus => -x
    case UPlus => x
    case UTilde => Complement(t.width, t.signed, x)
    case UBang => Truth(x == 0)
  }

  predicate TypeOk(t: Type) {
    WidthOk(t.width)
  }

  // Every node has a type of 1 to 128 bits.
  predicate Widths(e: Expr) {
    && TypeOk(e.ty)
    && match e
       case IntLit(_, _) => true
       case NameRef(_, _) => true
       case Cast(t, x, _) => TypeOk(t) && Widths(x)
       case Unary(_, x, _) => Widths(x)
       case Binary(_, l, r, _) => Widths(l) && Widths(r)
       case Ternary(c, t, f, _) => Widths(c) && Widths(t) && Widths(f)
  }

  // The number an expression denotes when its variables denote rho.
  function Ideal(e: Expr, rho: Numbers): int
    requires Widths(e)
  {
    match e
    case IntLit(v, t) => Wrap(t.width, t.signed, v)
    case NameRef(sym, _) => if sym in rho then rho[sym] else 0
    case Cast(t, x, _) => Wrap(t.width, t.signed, Ideal(x, rho))
    case Unary(op, x, _) => IdealUnary(op, x.ty, Ideal(x, rho))
    case Binary(op, l, r, _) =>
      var y := Ideal(r, rho);
      IdealBinary(op, l.ty, Ideal(l, rho), y, y % Pow2(r.ty.width))
    case Ternary(c, t, f, _) => if Ideal(c, rho) != 0 then Ideal(t, rho) else Ideal(f, rho)
  }

  // -------------------------------------------------------------------- typing

  // An expression built only from untyped literals: the part of the tree that
  // takes its type from its context (src/sema/type_check.cpp:136-166).
  predicate PolyShape(e: Expr) {
    match e
    case IntLit(_, _) => true
    case NameRef(_, _) => false
    case Cast(_, _, _) => false
    case Unary(_, x, _) => PolyShape(x)
    case Binary(_, l, r, _) => PolyShape(l) && PolyShape(r)
    case Ternary(_, t, f, _) => PolyShape(t) && PolyShape(f)
  }

  predicate Shift(op: BinOp) {
    op == Shl || op == Shr
  }

  // What the type checker establishes: each node has the type of the operator
  // table, or is an untyped-literal node pinned to one type with its operands.
  predicate Checked(e: Expr): (ok: bool)
    ensures ok ==> Widths(e)
  {
    && TypeOk(e.ty)
    && match e
       case IntLit(_, _) => true
       case NameRef(sym, t) => t == sym.ty
       case Cast(target, x, t) => t == target && Checked(x)
       case Unary(op, x, t) =>
         && Checked(x)
         && (t == UnaryRule(op, x.ty) || (PolyShape(e) && t == x.ty))
       case Binary(op, l, r, t) =>
         && Checked(l) && Checked(r)
         && (l.ty.signed == r.ty.signed || Shift(op))
         && (t == WidthRule(op, l.ty, r.ty) || (PolyShape(e) && t == l.ty == r.ty))
       case Ternary(c, x, y, t) =>
         && Checked(c) && Checked(x) && Checked(y)
         && c.ty == U1
         && x.ty.signed == y.ty.signed == t.signed
         && t.width == Max(x.ty.width, y.ty.width)
  }

  // The widest value an operator can leave at run time, where operands grow.
  function WidestBinary(op: BinOp, signed: bool, a: nat, b: nat): nat {
    match op
    case Plus | Minus => Max(a, b) + 1
    case Star => a + b
    case Slash => if signed then a + 1 else a
    case Percent => Min(a, b)
    case Amp | Pipe | Caret => Max(a, b)
    case Shl | Shr => a
    case Rel(_) | AmpAmp | PipePipe => 1
  }

  function WidestUnary(op: UnOp, a: nat): nat {
    match op
    case UMinus => a + 1
    case UBang => 1
    case _ => a
  }

  // The widest value the interpreter can hold for e.
  function MaxWidth(e: Expr): nat {
    match e
    case IntLit(_, t) => t.width
    case NameRef(_, t) => t.width
    case Cast(_, _, t) => t.width
    case Unary(op, x, _) => WidestUnary(op, MaxWidth(x))
    case Binary(op, l, r, _) => WidestBinary(op, l.ty.signed, MaxWidth(l), MaxWidth(r))
    case Ternary(_, _, _, t) => t.width
  }

  predicate Flagged(op: BinOp) {
    op.Rel? || op == AmpAmp || op == PipePipe
  }

  // A divisor that is visibly not zero.
  predicate NonZero(r: Expr) {
    match r
    case IntLit(v, t) => v % Pow2(t.width) != 0
    case Unary(op, x, _) => (op == UMinus || op == UPlus) && NonZero(x)
    case _ => false
  }

  // The value the interpreter holds for e always has e's own width.  A signed
  // quotient does not: by zero it comes out one bit short (FixedWidth.DivideWidth).
  predicate ExactWidth(e: Expr) {
    match e
    case IntLit(_, _) => true
    case NameRef(_, _) => true
    case Cast(_, _, _) => true
    case Ternary(_, _, _, _) => true
    case Unary(op, x, t) => t == UnaryRule(op, x.ty) && (op == UBang || ExactWidth(x))
    case Binary(op, l, r, t) =>
      && t == WidthRule(op, l.ty, r.ty)
      && (Flagged(op) || ExactWidth(l))
      && (Flagged(op) || Shift(op) || op == Slash || ExactWidth(r))
      && (op == Slash && l.ty.signed ==> NonZero(r))
  }

  // The value has e's own width, or is zero: what a quotient by zero leaves, and
  // what the operators that keep a zero make of it.
  predicate WidthOrZero(e: Expr) {
    match e
    case IntLit(_, _) => true
    case NameRef(_, _) => true
    case Cast(_, _, _) => true
    case Ternary(_, _, _, _) => true
    case Unary(op, x, t) =>
      t == UnaryRule(op, x.ty) && (op == UBang || (if op == UTilde then ExactWidth(x) else WidthOrZero(x)))
    case Binary(op, l, r, t) =>
      && t == WidthRule(op, l.ty, r.ty)
      && match op
         case Rel(_) | AmpAmp | PipePipe => true
         case Slash | Shl | Shr => WidthOrZero(l)
         case Star | Percent | Amp => WidthOrZero(l) && WidthOrZero(r)
         case Plus | Minus | Pipe | Caret => ExactWidth(l) && ExactWidth(r)
  }

  predicate IsArithmetic(op: BinOp) {
    !Flagged(op) && !Shift(op)
  }

  // Untyped-literal arithmetic: one number, whatever the variables hold.
  predicate LiteralArith(e: Expr) {
    match e
    case IntLit(_, _) => true
    case Unary(op, x, _) => op != UBang && LiteralArith(x)
    case Binary(op, l, r, _) => IsArithmetic(op) && LiteralArith(l) && LiteralArith(r)
    case _ => false
  }

  // A pinned node that does not follow the operator table must still have room
  // for the number it denotes.  At an unsigned type only sums and products can:
  // a negation or difference is signed.
  predicate PinnedFits(e: Expr)
    requires Widths(e)
  {
    && LiteralArith(e) && InRange(Ideal(e, map[]), e.ty.width, e.ty.signed)
    && if e.ty.signed then (e.Binary? && e.op == Slash ==> e.ty.width > 1)
       else e.Binary? && (e.op == Plus || e.op == Star)
  }

  // The rules the emitted code depends on: `!` on one bit, and literal arithmetic
  // pinned to a type it fits.
  predicate Ruled(e: Expr)
    requires Widths(e)
  {
    match e
    case IntLit(_, _) => true
    case NameRef(_, _) => true
    case Cast(_, x, _) => Ruled(x)
    case Unary(op, x, t) =>
      && Ruled(x)
      && (op == UBang ==> x.ty == U1 && t == U1)
      && (t == UnaryRule(op, x.ty) || PinnedFits(e))
    case Binary(op, l, r, t) =>
      && Ruled(l) && Ruled(r)
      && (t == WidthRule(op, l.ty, r.ty) || PinnedFits(e))
    case Ternary(c, x, y, _) => Ruled(c) && Ruled(x) && Ruled(y)
  }

  // What the emitter is correct on, with no regard to the interpreter.
  predicate Regular(e: Expr): (ok: bool)
    ensures ok ==> Widths(e)
  {
    Checked(e) && Ruled(e)
  }

  // A shift amount that 32 bits do not cut (FixedWidth.AmountOk).
  predicate SmallAmount(r: Expr) {
    WidthOrZero(r) && (r.ty.width <= 32 || (r.IntLit? && r.value < Pow2(32)))
  }

  // Widths at which every unsigned remainder is exact (BitsLimits.RemainderExactIff).
  predicate RemainderWidths(a: nat, b: nat) {
    b < WORD && (a < WORD || b == 1)
  }

  // The limits of the value operations, which only the interpreter has.
  predicate Computable(e: Expr) {
    && MaxWidth(e) <= WORD
    && match e
       case IntLit(_, _) => true
       case NameRef(_, _) => true
       case Cast(_, x, _) => Computable(x)
       case Unary(op, x, t) => Computable(x) && (op == UTilde && !t.signed ==> ExactWidth(x))
       case Binary(op, l, r, t) =>
         && Computable(l) && Computable(r)
         && (op == Shl ==> WidthOrZero(l))
         && (Shift(op) ==> SmallAmount(r))
         && (op == Percent && !t.signed ==> RemainderWidths(MaxWidth(l), MaxWidth(r)))
       case Ternary(c, x, y, _) => Computable(c) && Computable(x) && Computable(y)
  }

  // What emitter and interpreter agree on.
  predicate WellTyped(e: Expr): (ok: bool)
    ensures ok ==> Regular(e)
  {
    Regular(e) && Computable(e)
  }

  // Variables that hold numbers of their own types.
  predicate NumbersOk(rho: Numbers) {
    forall sym | sym in rho :: TypeOk(sym.ty) && InRange(rho[sym], sym.ty.width, sym.ty.signed)
  }

  function Reads(e: Expr): set<Symbol> {
    match e
    case IntLit(_, _) => {}
    case NameRef(sym, _) => {sym}
    case Cast(_, x, _) => Reads(x)
    case Unary(_, x, _) => Reads(x)
    case Binary(_, l, r, _) => Reads(l) + Reads(r)
    case Ternary(c, t, f, _) => Reads(c) + Reads(t) + Reads(f)
  }

  // ------------------------------------------- every number fits its static type

  lemma {:induction false} LiteralConstant(e: Expr, rho: Numbers)
    requires Widths(e) && LiteralArith(e)
    ensures Ideal(e, rho) == Ideal(e, map[])
  {
    match e
    case Unary(_, x, _) => LiteralConstant(x, rho);
    case Binary(_, l, r, _) => LiteralConstant(l, rho); LiteralConstant(r, rho);
    case _ =>
  }

  lemma BinaryRange(op: BinOp, l: Type, r: Type, x: int, y: int, k: nat)
    requires TypeOk(l) && TypeOk(r) && (l.signed == r.signed || Shift(op))
    requires InRange(x, l.width, l.signed) && InRange(y, r.width, r.signed)
    ensures var t := WidthRule(op, l, r);
            t.width > 0 && InRange(IdealBinary(op, l, x, y, k), t.width, t.signed)
  {
    hide IntOp, TruncDiv, TruncRem, Pow2;
    var w := Max(l.width, r.width);
    match op
    case Plus => SumRange(x, y, l.width, r.width, l.signed);
    case Minus => SumRange(x, y, l.width, r.width, l.signed);
    case Star => ProductRange(x, y, l.width, r.width, l.signed);
    case Slash => QuotientRange(x, y, l.width, r.width, l.signed);
    case Percent => QuotientRange(x, y, l.width, r.width, l.signed);
    case Amp => BitRange(AndF, x, y, l, r);
    case Pipe => BitRange(OrF, x, y, l, r);
    case Caret => BitRange(XorF, x, y, l, r);
    case Shl =>
    case Shr => FloorRange(x, l.width, k, l.signed);
    case _ => OneBit();
  }

  lemma BitRange(f: BitFn, x: int, y: int, l: Type, r: Type)
    requires TypeOk(l) && TypeOk(r) && l.signed == r.signed
    requires InRange(x, l.width, l.signed) && InRange(y, r.width, r.signed)
    ensures InRange(IntOp(f, x, y), Max(l.width, r.width), l.signed)
  {
    var w := Max(l.width, r.width);
    RangeWidens(x, l.width, w, l.signed);
    RangeWidens(y, r.width, w, l.signed);
    IntOpRange(f, x, y, w, l.signed);
  }

  lemma UnaryRange(op: UnOp, t: Type, x: int)
    requires TypeOk(t) && InRange(x, t.width, t.signed) && (op == UBang ==> t == U1)
    ensures var u := UnaryRule(op, t); InRange(IdealUnary(op, t, x), u.width, u.signed)
  {
    assert Pow2(t.width) == 2 * Pow2(t.width - 1);
    match op
    case UTilde => ComplementRange(x, t.width, t.signed);
    case UBang => assert Pow2(1) == 2;
    case _ =>
  }

  lemma RegularParts(e: Expr)
    requires Regular(e)
    ensures e.Cast? ==> Regular(e.operand) && e.ty == e.target
    ensures e.Unary? ==> Regular(e.operand)
    ensures e.Binary? ==> Regular(e.lhs) && Regular(e.rhs)
    ensures e.Ternary? ==> Regular(e.cond) && Regular(e.thenE) && Regular(e.elseE)
  {
    hide PinnedFits, WidthRule, UnaryRule, PolyShape;
  }

  // One operator on operands that fit; of a ternary only the arm taken must.
  lemma StepFits(e: Expr, rho: Numbers)
    requires Regular(e)
    requires e.NameRef? ==> InRange(Ideal(e, rho), e.ty.width, e.ty.signed)
    requires e.Unary? ==> InRange(Ideal(e.operand, rho), e.operand.ty.width, e.operand.ty.signed)
    requires e.Binary? ==> InRange(Ideal(e.lhs, rho), e.lhs.ty.width, e.lhs.ty.signed)
    requires e.Binary? ==> InRange(Ideal(e.rhs, rho), e.rhs.ty.width, e.rhs.ty.signed)
    requires e.Ternary? ==> var arm := if Ideal(e.cond, rho) != 0 then e.thenE else e.elseE;
                            InRange(Ideal(arm, rho), arm.ty.width, arm.ty.signed)
    ensures InRange(Ideal(e, rho), e.ty.width, e.ty.signed)
  {
    match e
    case Unary(op, x, t) =>
      UnaryRange(op, x.ty, Ideal(x, rho));
      if t != UnaryRule(op, x.ty) {
        LiteralConstant(e, rho);
      }
    case Binary(op, l, r, t) =>
      var y := Ideal(r, rho);
      BinaryRange(op, l.ty, r.ty, Ideal(l, rho), y, y % Pow2(r.ty.width));
      if t != WidthRule(op, l.ty, r.ty) {
        LiteralConstant(e, rho);
      }
    case Ternary(c, x, y, t) =>
      var arm := if Ideal(c, rho) != 0 then x else y;
      RangeWidens(Ideal(arm, rho), arm.ty.width, t.width, t.signed);
    case _ =>
  }

  // Nothing overflows: the ideal number of every regular expression fits its static
  // type.
  lemma {:induction false} IdealFits(e: Expr, rho: Numbers)
    requires Regular(e) && NumbersOk(rho) && Reads(e) <= rho.Keys
    ensures InRange(Ideal(e, rho), e.ty.width, e.ty.signed)
  {
    hide Ruled;
    RegularParts(e);
    match e
    case IntLit(_, _) =>
    case NameRef(_, _) =>
    case Cast(_, x, _) =>
    case Unary(_, x, _) =>
      IdealFits(x, rho);
      StepFits(e, rho);
    case Binary(_, l, r, _) =>
      IdealFits(l, rho);
      IdealFits(r, rho);
      StepFits(e, rho);
    case Ternary(_, x, y, _) =>
      IdealFits(x, rho);
      IdealFits(y, rho);
      StepFits(e, rho);
  }

  // An expression's number depends on the variables it reads.
  lemma {:induction false} IdealReads(e: Expr, rho: Numbers, sigma: Numbers)
    requires Widths(e) && forall x | x in Reads(e) :: x in rho && x in sigma && rho[x] == sigma[x]
    ensures Ideal(e, rho) == Ideal(e, sigma)
  {
    hide IdealBinary, IdealUnary;
    match e
    case Cast(_, x, _) => IdealReads(x, rho, sigma);
    case Unary(_, x, _) => IdealReads(x, rho, sigma);
    case Binary(_, l, r, _) => IdealReads(l, rho, sigma); IdealReads(r, rho, sigma);
    case Ternary(c, x, y, _) => IdealReads(c, rho, sigma); IdealReads(x, rho, sigma); IdealReads(y, rho, sigma);
    case _ =>
  }
}
