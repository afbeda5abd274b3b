/**
 What a folded constant is worth: within its limits the evaluator computes the
 language's number, for definitions in any order.  It gives a name the value of its
 definition and not of its type, so widths are followed apart from types.
 */
module Folding {
  import opened Arith
  import opened FixedWidth
  import opened Ast
  import opened Meaning
  import opened Interp
  import opened InterpExact
  import opened BitsLimits
  import opened TypeCheck
  import opened ConstFold
  import opened Wrappers

  // A bound on the width of each constant's value.
  type Bounds = map<Symbol, nat>

  // The widest value folding can hold for e.
  function FoldWidth(e: Expr, bounds: Bounds): nat {
    match e
    case IntLit(_, t) => t.width
    case NameRef(sym, _) => if sym in bounds then bounds[sym] else 0
    case Cast(_, _, t) => t.width
    case Unary(op, x, _) => WidestUnary(op, FoldWidth(x, bounds))
    case Binary(op, l, r, _) => WidestBinary(op, l.ty.signed, FoldWidth(l, bounds), FoldWidth(r, bounds))
    case Ternary(_, x, y, _) => Max(FoldWidth(x, bounds), FoldWidth(y, bounds))
  }

  // Neither a name nor a ternary, which folding leaves at the width of the value
  // found, decides the width of e.
  predicate Tight(e: Expr) {
    match e
    case IntLit(_, _) => true
    case Cast(_, _, _) => true
    case Unary(op, x, _) => op == UBang || Tight(x)
    case Binary(op, l, r, _) => Flagged(op) || (Tight(l) && (Shift(op) || op == Slash || Tight(r)))
    case _ => false
  }

  predicate Settled(e: Expr) {
    ExactWidth(e) && Tight(e)
  }

  // The limits of the value operations, as folding meets them.
  predicate Foldable(e: Expr, bounds: Bounds) {
    && FoldWidth(e, bounds) <= WORD
    && match e
       case IntLit(_, _) => true
       case NameRef(sym, _) => sym in bounds
       case Cast(_, x, _) => Foldable(x, bounds)
       case Unary(op, x, t) => Foldable(x, bounds) && (op == UTilde && !t.signed ==> Settled(x))
       case Binary(op, l, r, t) =>
         && Foldable(l, bounds) && Foldable(r, bounds)
         && (op == Shl ==> Settled(l))
         && (Shift(op) ==> Settled(r) && (r.ty.width <= 32 || (r.IntLit? && r.value < Pow2(32))))
         && (op == Percent && !t.signed ==> RemainderWidths(FoldWidth(l, bounds), FoldWidth(r, bounds)))
       case Ternary(c, x, y, _) => Foldable(c, bounds) && Foldable(x, bounds) && Foldable(y, bounds)
  }

  // Every definition can be folded and stored in its constant.
  predicate DefinitionsOk(defs: Definitions, bounds: Bounds) {
    forall s | s in defs ::
      var e := AsFolded(defs[s]);
      && TypeOk(s.ty) && Regular(e) && Foldable(e, bounds)
      && s in bounds && FoldWidth(e, bounds) <= bounds[s]
      && Assignable(e.ty, s.ty)
  }

  // A value for every constant, each derived from its definition.
  ghost predicate FoldedAll(vals: map<Symbol, Bits>, defs: Definitions) {
    vals.Keys == defs.Keys && forall s | s in vals :: Derives(defs[s], defs, vals[s])
  }

  // The numbers of the constants.
  function Constants(vals: map<Symbol, Bits>): Numbers {
    map s | s in vals :: if WidthOk(vals[s].width) then Num(vals[s]) else 0
  }

  // v is e folded: it denotes n, within the bound, and in e's own width when that
  // is settled.
  predicate Folds(v: Bits, e: Expr, n: int, bounds: Bounds) {
    && 1 <= v.width <= FoldWidth(e, bounds) <= WORD
    && v.signed == e.ty.signed
    && Num(v) == n
    && (Settled(e) ==> v.width == e.ty.width)
  }

  lemma SettledAmount(r: Expr, b: Bits, y: int, bounds: Bounds, w: nat)
    requires TypeOk(r.ty) && Folds(b, r, y, bounds) && Settled(r)
    requires r.ty.width <= 32 || (r.IntLit? && r.value < Pow2(32) && b.raw <= r.value)
    ensures AmountOk(b.raw, w) && b.raw == y % Pow2(r.ty.width)
  {
    hide Pow2, NumOf;
    RawIsNum(b);
    if r.ty.width <= 32 {
      Pow2Mono(r.ty.width, 32);
    }
  }

  lemma LiteralFolds(v: nat, note: Note, bounds: Bounds)
    requires note.Typed? ==> TypeOk(note.t)
    ensures var e := AsFolded(LitNode(v, note));
            && Widths(e) && Folds(Literally(v, note), e, Ideal(e, map[]), bounds)
            && Literally(v, note).raw <= v
  {
    hide Pow2;
    var t := if note.Typed? then note.t else WIDE;
    MakeWraps(v, v, t.width, t.signed);
    AbsDivRem(v, Pow2(t.width));
  }

  lemma CastFolds(e: Expr, a: Bits, rho: Numbers, bounds: Bounds)
    requires e.Cast? && Regular(e) && Foldable(e, bounds)
    requires Folds(a, e.operand, Ideal(e.operand, rho), bounds)
    ensures Folds(CastTo(a, e.target.width, e.target.signed), e, Ideal(e, rho), bounds)
  {
    hide Pow2, Regular;
    RegularParts(e);
    CastExact(a, e.target.width, e.target.signed);
  }

  lemma UnaryFolds(e: Expr, a: Bits, rho: Numbers, bounds: Bounds)
    requires e.Unary? && Regular(e) && Foldable(e, bounds)
    requires Folds(a, e.operand, Ideal(e.operand, rho), bounds)
    ensures Folds(EvalUnary(e.uop, a), e, Ideal(e, rho), bounds)
  {
    hide Pow2;
    UnaryExact(e.uop, a, e.operand.ty, FoldWidth(e.operand, bounds));
    UnaryType(e.uop, a);
  }

  lemma BinaryFolds(e: Expr, a: Bits, b: Bits, rho: Numbers, bounds: Bounds)
    requires e.Binary? && Regular(e) && Foldable(e, bounds)
    requires Folds(a, e.lhs, Ideal(e.lhs, rho), bounds) && Folds(b, e.rhs, Ideal(e.rhs, rho), bounds)
    requires e.rhs.IntLit? ==> b.raw <= e.rhs.value
    ensures Folds(EvalBinary(e.op, a, b), e, Ideal(e, rho), bounds)
  {
    hide Pow2, EvalBinary;
    var op, l, r := e.op, e.lhs, e.rhs;
    if Shift(op) {
      SettledAmount(r, b, Ideal(r, rho), bounds, a.width);
    }
    BinaryFoldsTo(e, a, b, rho, bounds);
    RawIsNum(b);
    ZeroRaw(b);
    if NonZero(r) {
      NonZeroValue(r, rho);
    }
    BinaryType(op, a, b);
    ResultFits(op, l.ty, r.ty, e.ty, FoldWidth(l, bounds), FoldWidth(r, bounds), TypeOf(a), TypeOf(b), b.raw == 0);
  }

  lemma BinaryStays(e: Expr, a: Bits, b: Bits, rho: Numbers, bounds: Bounds)
    requires e.Binary? && Regular(e) && Foldable(e, bounds)
    requires Folds(a, e.lhs, Ideal(e.lhs, rho), bounds) && Folds(b, e.rhs, Ideal(e.rhs, rho), bounds)
    requires Shift(e.op) ==> AmountOk(b.raw, a.width)
    ensures OperandsFit(e.op, e.lhs.ty, a, b)
  {
    hide Pow2, NumOf, ShiftFits, AmountOk, Ideal;
    if e.op == Percent && !e.ty.signed {
      NarrowOperands(a, b);
    }
    if e.op == Shl {
      SameWidthFits(Num(a), b.raw, a.width, e.lhs.ty.width, a.signed);
    }
  }

  lemma BinaryFoldsTo(e: Expr, a: Bits, b: Bits, rho: Numbers, bounds: Bounds)
    requires e.Binary? && Regular(e) && Foldable(e, bounds)
    requires Folds(a, e.lhs, Ideal(e.lhs, rho), bounds) && Folds(b, e.rhs, Ideal(e.rhs, rho), bounds)
    requires Shift(e.op) ==> AmountOk(b.raw, a.width) && b.raw == Ideal(e.rhs, rho) % Pow2(e.rhs.ty.width)
    ensures WidthOk(EvalBinary(e.op, a, b).width) && Num(EvalBinary(e.op, a, b)) == Ideal(e, rho)
  {
    hide Pow2, EvalBinary;
    BinaryStays(e, a, b, rho, bounds);
    BinaryExact(e.op, a, b, e.lhs.ty);
    assert !Shift(e.op) ==> forall k: nat, j: nat ::
             IdealBinary(e.op, e.lhs.ty, Num(a), Num(b), k) == IdealBinary(e.op, e.lhs.ty, Num(a), Num(b), j);
  }

  lemma FoldableParts(e: Expr, bounds: Bounds)
    requires Foldable(e, bounds)
    ensures FoldWidth(e, bounds) <= WORD
    ensures e.Cast? ==> Foldable(e.operand, bounds)
    ensures e.Unary? ==> Foldable(e.operand, bounds)
    ensures e.Binary? ==> Foldable(e.lhs, bounds) && Foldable(e.rhs, bounds)
    ensures e.Ternary? ==> Foldable(e.cond, bounds) && Foldable(e.thenE, bounds) && Foldable(e.elseE, bounds)
  {
    hide Settled, FoldWidth;
  }

  lemma UnfoldParts(n: Node, defs: Definitions, k: nat)
    requires Unfold(n, defs, k).Some?
    ensures n.LitNode? ==> Unfold(n, defs, k) == Some(Literally(n.value, n.note))
    ensures n.NameNode? ==> n.sym in defs && k > 0 && Unfold(n, defs, k) == Unfold(defs[n.sym], defs, k - 1)
    ensures n.CastNode? ==>
              && Unfold(n.arg, defs, k).Some?
              && Unfold(n, defs, k) == Some(CastTo(Unfold(n.arg, defs, k).value, n.target.width, n.target.signed))
    ensures n.UnaryNode? ==>
              && Unfold(n.arg, defs, k).Some?
              && Unfold(n, defs, k) == Some(EvalUnary(n.uop, Unfold(n.arg, defs, k).value))
    ensures n.BinaryNode? ==>
              && Unfold(n.l, defs, k).Some? && Unfold(n.r, defs, k).Some?
              && Unfold(n, defs, k) == Some(EvalBinary(n.op, Unfold(n.l, defs, k).value, Unfold(n.r, defs, k).value))
    ensures n.TernaryNode? ==>
              && Unfold(n.c, defs, k).Some?
              && Unfold(n, defs, k) == Unfold(if Unfold(n.c, defs, k).value.raw != 0 then n.t else n.e, defs, k)
  {
    hide EvalBinary, EvalUnary, CastTo, Literally;
  }

  lemma ConstantIs(s: Symbol, defs: Definitions, vals: map<Symbol, Bits>, v: Bits)
    requires FoldedAll(vals, defs) && s in defs && Derives(defs[s], defs, v)
    ensures s in vals && vals[s] == v
  {
    DerivesUnique(defs[s], defs, v, vals[s]);
  }

  // A name has the value of its definition, which its type holds.
  lemma {:induction false} NameFolds(n: Node, defs: Definitions, vals: map<Symbol, Bits>, bounds: Bounds, k: nat)
    requires n.NameNode? && DefinitionsOk(defs, bounds) && FoldedAll(vals, defs)
    requires Regular(AsFolded(n)) && Foldable(AsFolded(n), bounds) && Unfold(n, defs, k).Some?
    ensures var e := AsFolded(n);
            && Folds(Unfold(n, defs, k).value, e, Ideal(e, Constants(vals)), bounds)
            && InRange(Ideal(e, Constants(vals)), e.ty.width, e.ty.signed)
    decreases k, n, 0
  {
    hide FoldedAll, Foldable, Unfold, Pow2;
    UnfoldParts(n, defs, k);
    FoldableParts(AsFolded(n), bounds);
    var s, v := n.sym, Unfold(n, defs, k).value;
    var d := AsFolded(defs[s]);
    FoldIs(defs[s], defs, vals, bounds, k - 1);
    ConstantIs(s, defs, vals, v);
    NameIs(n, v, d, Constants(vals), bounds);
  }

  lemma NameIs(n: Node, v: Bits, d: Expr, rho: Numbers, bounds: Bounds)
    requires n.NameNode? && Regular(AsFolded(n)) && Regular(d)
    requires n.sym in bounds && FoldWidth(d, bounds) <= bounds[n.sym] && FoldWidth(AsFolded(n), bounds) <= WORD
    requires Assignable(d.ty, n.sym.ty) && Folds(v, d, Ideal(d, rho), bounds)
    requires InRange(Ideal(d, rho), d.ty.width, d.ty.signed) && n.sym in rho && rho[n.sym] == Num(v)
    ensures var e := AsFolded(n);
            Folds(v, e, Ideal(e, rho), bounds) && InRange(Ideal(e, rho), e.ty.width, e.ty.signed)
  {
    RangeWidens(Ideal(d, rho), d.ty.width, n.sym.ty.width, d.ty.signed);
  }

  // A ternary has the value of the arm its condition selects.
  lemma {:induction false} ArmFolds(n: Node, defs: Definitions, vals: map<Symbol, Bits>, bounds: Bounds, k: nat)
    requires n.TernaryNode? && DefinitionsOk(defs, bounds) && FoldedAll(vals, defs)
    requires Regular(AsFolded(n)) && Foldable(AsFolded(n), bounds) && Unfold(n, defs, k).Some?
    requires Unfold(n.c, defs, k).Some? && Regular(AsFolded(n.c))
    requires Folds(Unfold(n.c, defs, k).value, AsFolded(n.c), Ideal(AsFolded(n.c), Constants(vals)), bounds)
    ensures var e := AsFolded(n);
            && Folds(Unfold(n, defs, k).value, e, Ideal(e, Constants(vals)), bounds)
            && InRange(Ideal(e, Constants(vals)), e.ty.width, e.ty.signed)
    decreases k, n, 0
  {
    hide DefinitionsOk, FoldedAll, Regular, Foldable, Unfold, Pow2;
    var e, rho, c := AsFolded(n), Constants(vals), Unfold(n.c, defs, k).value;
    RegularParts(e);
    FoldableParts(e, bounds);
    UnfoldParts(n, defs, k);
    ZeroRaw(c);
    var arm := if c.raw != 0 then n.t else n.e;
    FoldIs(arm, defs, vals, bounds, k);
    StepFits(e, rho);
    TernaryIs(e, Unfold(arm, defs, k).value, rho, bounds);
  }

  lemma TernaryIs(e: Expr, v: Bits, rho: Numbers, bounds: Bounds)
    requires e.Ternary? && Regular(e) && FoldWidth(e, bounds) <= WORD
    requires var arm := if Ideal(e.cond, rho) != 0 then e.thenE else e.elseE; Folds(v, arm, Ideal(arm, rho), bounds)
    ensures Folds(v, e, Ideal(e, rho), bounds)
  {
  }

  // Folding is exact: the value derived for an expression denotes its number, and
  // that number is one of its type.
  lemma {:induction false} FoldIs(n: Node, defs: Definitions, vals: map<Symbol, Bits>, bounds: Bounds, k: nat)
    requires DefinitionsOk(defs, bounds) && FoldedAll(vals, defs)
    requires Regular(AsFolded(n)) && Foldable(AsFolded(n), bounds) && Unfold(n, defs, k).Some?
    ensures var e := AsFolded(n);
            && Folds(Unfold(n, defs, k).value, e, Ideal(e, Constants(vals)), bounds)
            && InRange(Ideal(e, Constants(vals)), e.ty.width, e.ty.signed)
            && (e.IntLit? ==> Unfold(n, defs, k).value.raw <= e.value)
    decreases k, n, 1
  {
    hide DefinitionsOk, FoldedAll, Regular, Foldable, Folds, Unfold, Ideal, Pow2;
    var e, rho := AsFolded(n), Constants(vals);
    RegularParts(e);
    FoldableParts(e, bounds);
    UnfoldParts(n, defs, k);
    match n
    case LitNode(v, note) =>
      LiteralFolds(v, note, bounds);
      IdealReads(e, rho, map[]);
      StepFits(e, rho);
    case NameNode(sym, _) => NameFolds(n, defs, vals, bounds, k);
    case CastNode(_, x, _) =>
      FoldIs(x, defs, vals, bounds, k);
      CastFolds(e, Unfold(x, defs, k).value, rho, bounds);
      StepFits(e, rho);
    case UnaryNode(_, x, _) =>
      FoldIs(x, defs, vals, bounds, k);
      UnaryFolds(e, Unfold(x, defs, k).value, rho, bounds);
      StepFits(e, rho);
    case BinaryNode(_, l, r, _) =>
      FoldIs(l, defs, vals, bounds, k);
      FoldIs(r, defs, vals, bounds, k);
      BinaryFolds(e, Unfold(l, defs, k).value, Unfold(r, defs, k).value, rho, bounds);
      StepFits(e, rho);
    case TernaryNode(c, x, y, _) =>
      FoldIs(c, defs, vals, bounds, k);
      ArmFolds(n, defs, vals, bounds, k);
  }

  lemma DerivedIs(n: Node, defs: Definitions, vals: map<Symbol, Bits>, bounds: Bounds, v: Bits)
    requires DefinitionsOk(defs, bounds) && FoldedAll(vals, defs)
    requires Regular(AsFolded(n)) && Foldable(AsFolded(n), bounds) && Derives(n, defs, v)
    ensures var e := AsFolded(n);
            && WidthOk(v.width) && Num(v) == Ideal(e, Constants(vals)) && v.signed == e.ty.signed
            && InRange(Ideal(e, Constants(vals)), e.ty.width, e.ty.signed)
  {
    hide DefinitionsOk, FoldedAll, Regular, Foldable, Unfold, Ideal, FoldWidth, Settled, Pow2;
    var k: nat :| Unfold(n, defs, k) == Some(v);
    FoldIs(n, defs, vals, bounds, k);
  }

  // Every constant's value is a number of the constant's type, and the one its
  // definition denotes.
  lemma ConstantFits(s: Symbol, defs: Definitions, vals: map<Symbol, Bits>, bounds: Bounds)
    requires DefinitionsOk(defs, bounds) && FoldedAll(vals, defs) && s in defs
    ensures WidthOk(vals[s].width) && TypeOk(s.ty) && Widths(AsFolded(defs[s]))
    ensures Constants(vals)[s] == Num(vals[s]) == Ideal(AsFolded(defs[s]), Constants(vals))
    ensures InRange(Num(vals[s]), s.ty.width, s.ty.signed)
  {
    hide Ideal, FoldWidth, Settled, Pow2, Foldable, Checked, Ruled, Unfold;
    DerivedIs(defs[s], defs, vals, bounds, vals[s]);
    var t := AsFolded(defs[s]).ty;
    RangeWidens(Num(vals[s]), t.width, s.ty.width, s.ty.signed);
  }

  // So what a variable table holds for it, coerced to its type, is that number.
  lemma ConstantHeld(s: Symbol, defs: Definitions, vals: map<Symbol, Bits>, bounds: Bounds)
    requires DefinitionsOk(defs, bounds) && FoldedAll(vals, defs) && s in defs
    ensures var b := Interp.Coerce(vals[s], s.ty);
            TypeOk(s.ty) && b.width == s.ty.width && b.signed == s.ty.signed && Num(b) == Constants(vals)[s]
  {
    hide Ideal, DefinitionsOk, Pow2, Constants, Derives;
    ConstantFits(s, defs, vals, bounds);
    CastExact(vals[s], s.ty.width, s.ty.signed);
  }

  // Numbers that solve the definitions.
  predicate Solution(defs: Definitions, sigma: Numbers)
    requires forall s | s in defs :: Widths(AsFolded(defs[s]))
  {
    forall s | s in defs :: s in sigma && sigma[s] == Ideal(AsFolded(defs[s]), sigma)
  }

  lemma DefinitionsWide(defs: Definitions, bounds: Bounds)
    requires DefinitionsOk(defs, bounds)
    ensures forall s | s in defs :: Widths(AsFolded(defs[s]))
  {
    hide Checked, Ruled, Foldable, FoldWidth;
  }

  // Folded constants solve their definitions, and nothing else does: whatever folds has
  // one number.
  lemma {:induction false} OneNumber(n: Node, defs: Definitions, vals: map<Symbol, Bits>, bounds: Bounds, k: nat, sigma: Numbers)
    requires DefinitionsOk(defs, bounds) && FoldedAll(vals, defs)
    requires Regular(AsFolded(n)) && Foldable(AsFolded(n), bounds) && Unfold(n, defs, k).Some?
    requires forall s | s in defs :: Widths(AsFolded(defs[s]))
    requires Solution(defs, sigma)
    ensures Ideal(AsFolded(n), sigma) == Ideal(AsFolded(n), Constants(vals))
    decreases k, n
  {
    hide DefinitionsOk, FoldedAll, Regular, Foldable, Folds, Unfold, Pow2, IdealBinary, IdealUnary, Wrap, Solution, Constants;
    RegularParts(AsFolded(n));
    FoldableParts(AsFolded(n), bounds);
    UnfoldParts(n, defs, k);
    match n
    case LitNode(_, _) =>
    case NameNode(s, _) =>
      DefinitionOk(s, defs, bounds);
      OneNumber(defs[s], defs, vals, bounds, k - 1, sigma);
      SolutionAt(s, defs, vals, bounds, sigma);
    case CastNode(_, x, _) => OneNumber(x, defs, vals, bounds, k, sigma);
    case UnaryNode(_, x, _) => OneNumber(x, defs, vals, bounds, k, sigma);
    case BinaryNode(_, l, r, _) =>
      OneNumber(l, defs, vals, bounds, k, sigma);
      OneNumber(r, defs, vals, bounds, k, sigma);
    case TernaryNode(c, x, y, _) =>
      OneNumber(c, defs, vals, bounds, k, sigma);
      ArmTaken(c, defs, vals, bounds, k);
      OneNumber(if Unfold(c, defs, k).value.raw != 0 then x else y, defs, vals, bounds, k, sigma);
  }

  lemma DefinitionOk(s: Symbol, defs: Definitions, bounds: Bounds)
    requires DefinitionsOk(defs, bounds) && s in defs
    ensures Regular(AsFolded(defs[s])) && Foldable(AsFolded(defs[s]), bounds)
  {
  }

  lemma SolutionAt(s: Symbol, defs: Definitions, vals: map<Symbol, Bits>, bounds: Bounds, sigma: Numbers)
    requires DefinitionsOk(defs, bounds) && FoldedAll(vals, defs) && s in defs
    requires forall x | x in defs :: Widths(AsFolded(defs[x]))
    requires Solution(defs, sigma)
    ensures s in sigma && sigma[s] == Ideal(AsFolded(defs[s]), sigma)
    ensures s in Constants(vals) && Constants(vals)[s] == Ideal(AsFolded(defs[s]), Constants(vals))
  {
    hide DefinitionsOk, Ideal, Num, Derives;
    ConstantFits(s, defs, vals, bounds);
  }

  lemma ArmTaken(c: Node, defs: Definitions, vals: map<Symbol, Bits>, bounds: Bounds, k: nat)
    requires DefinitionsOk(defs, bounds) && FoldedAll(vals, defs)
    requires Regular(AsFolded(c)) && Foldable(AsFolded(c), bounds) && Unfold(c, defs, k).Some?
    ensures Unfold(c, defs, k).value.raw != 0 <==> Ideal(AsFolded(c), Constants(vals)) != 0
  {
    hide DefinitionsOk, FoldedAll, Regular, Foldable, Unfold, Ideal, Pow2, NumOf;
    FoldIs(c, defs, vals, bounds, k);
    ZeroRaw(Unfold(c, defs, k).value);
  }

  lemma FoldedSolves(defs: Definitions, vals: map<Symbol, Bits>, bounds: Bounds)
    requires DefinitionsOk(defs, bounds) && FoldedAll(vals, defs)
    requires forall s | s in defs :: Widths(AsFolded(defs[s]))
    ensures Solution(defs, Constants(vals))
  {
    hide DefinitionsOk, Ideal, Num, Derives;
    forall s | s in defs ensures s in Constants(vals) && Constants(vals)[s] == Ideal(AsFolded(defs[s]), Constants(vals)) {
      ConstantFits(s, defs, vals, bounds);
    }
  }

  lemma OneSolution(defs: Definitions, vals: map<Symbol, Bits>, bounds: Bounds, sigma: Numbers)
    requires DefinitionsOk(defs, bounds) && FoldedAll(vals, defs)
    requires forall s | s in defs :: Widths(AsFolded(defs[s]))
    requires Solution(defs, sigma)
    ensures forall s | s in defs :: s in sigma && s in Constants(vals) && sigma[s] == Constants(vals)[s]
  {
    hide DefinitionsOk, Ideal, Constants, Unfold, Regular, Foldable, Solution;
    forall s | s in defs ensures s in sigma && s in Constants(vals) && sigma[s] == Constants(vals)[s] {
      SolutionAt(s, defs, vals, bounds, sigma);
      DefinitionOk(s, defs, bounds);
      var k: nat :| Unfold(defs[s], defs, k) == Some(vals[s]);
      OneNumber(defs[s], defs, vals, bounds, k, sigma);
    }
  }
}
