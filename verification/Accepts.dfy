/**
 What the expression checker accepts, and nothing else (LANGUAGE.md:443-570): the
 type of an expression by the operator table, or the integer an untyped one stands
 for, read off the tree alone.
 */
module Accepts {
  import opened Arith
  import opened FixedWidth
  import opened Ast
  import opened Meaning
  import opened Wrappers
  import opened TypeCheck
  import opened Literals

  // An untyped constant, something of a type, or an error.
  datatype Sort = Poly(k: int) | Of(t: Type) | Bad

  // The integer taken for untyped arithmetic: exact for sums and products; for any
  // other operator the left operand's, right or not.
  function PolyBinary(op: BinOp, j: int, k: int): int {
    if op == Plus then j + k else if op == Star then j * k else j
  }

  // A constant of 128 bits is a number of the type.
  predicate PolyFits(k: int, t: Type) {
    t.width > 0 && InRange(k % Pow2(128), t.width, t.signed)
  }

  // Operands agree in sign, but for a shift, and the result stays within 128 bits.
  function Joined(op: BinOp, l: Type, r: Type): Sort {
    if (l.signed == r.signed || op == Shl || op == Shr) && WidthRule(op, l, r).width <= 128 then Of(WidthRule(op, l, r)) else Bad
  }

  // An untyped side takes the other side's type, if it fits.
  function Against(a: Sort, b: Sort): Sort {
    if a.Poly? && b.Of? then (if PolyFits(a.k, b.t) then b else Bad) else a
  }

  function BinarySort(op: BinOp, a: Sort, b: Sort): Sort {
    if a.Poly? && b.Poly? then Poly(PolyBinary(op, a.k, b.k))
    else
      var l, r := Against(a, b), Against(b, a);
      if l.Of? && r.Of? then Joined(op, l.t, r.t) else Bad
  }

  // Arms of one signedness, at the wider width.
  function Arms(l: Type, r: Type): Sort {
    if l.signed == r.signed then Of(Type(Max(l.width, r.width), l.signed)) else Bad
  }

  // The arms of a conditional.
  function ArmSort(a: Sort, b: Sort): Sort {
    if a.Poly? && b.Poly? then b
    else
      var l, r := Against(a, b), Against(b, a);
      if l.Of? && r.Of? then Arms(l.t, r.t) else Bad
  }

  function UnarySort(op: UnOp, a: Sort): Sort {
    match a
    case Of(t) => Of(if op == UMinus then Type(t.width + 1, true) else t)
    case _ => a
  }

  // What may stand where a type is wanted.
  predicate Usable(s: Sort, t: Type) {
    match s
    case Poly(k) => PolyFits(k, t)
    case Of(u) => u.signed == t.signed && u.width <= t.width
    case Bad => false
  }

  function SortOf(n: Node): Sort {
    match n
    case LitNode(v, _) => Poly(v)
    case NameNode(sym, _) => Of(sym.ty)
    case CastNode(target, x, _) => if SortOf(x) == Bad then Bad else Of(target)
    case UnaryNode(op, x, _) => UnarySort(op, SortOf(x))
    case BinaryNode(op, l, r, _) => BinarySort(op, SortOf(l), SortOf(r))
    case TernaryNode(c, x, y, _) => if Usable(SortOf(c), U1) then ArmSort(SortOf(x), SortOf(y)) else Bad
  }

  // The annotation of an accepted node is its sort.
  predicate Noted(note: Note, s: Sort) {
    match s
    case Poly(k) => note == Untyped(k % Pow2(128))
    case Of(t) => note == Typed(t) && t.width > 0
    case Bad => false
  }

  predicate Matches(o: Outcome, s: Sort) {
    if o.ok then Noted(o.node.note, s) else s == Bad
  }

  lemma ConstIs(op: BinOp, j: int, k: int)
    ensures ConstOf(op, j % Pow2(128), k % Pow2(128)) == PolyBinary(op, j, k) % Pow2(128)
  {
    hide Pow2;
    ModAdd(j, k, Pow2(128));
    ModMul(j, k, Pow2(128));
  }

  lemma SettleIs(n: Node, s: Sort, t: Type)
    requires Noted(n.note, s) && t.width > 0
    ensures Settle(n, t).ok <==> Usable(s, t)
    ensures s.Poly? ==> Settle(n, t).node.note == Typed(t)
    ensures s.Of? ==> Settle(n, t).node == n
  {
    hide Pow2, InRange, Fits;
    if s.Poly? {
      FitsIff(s.k % Pow2(128), t);
      PinNote(n, t);
    }
  }

  lemma PinNote(n: Node, t: Type)
    requires n.note.Untyped?
    ensures Pin(n, t).note == Typed(t)
  {
  }

  // One side, pinned or not.
  lemma AgainstIs(n: Node, a: Sort, other: Note, b: Sort)
    requires Noted(n.note, a) && Noted(other, b) && !(a.Poly? && b.Poly?)
    ensures var o := SettleTo(n, other); var s := Against(a, b);
            if o.ok then s.Of? && o.node.note == Typed(s.t) && s.t.width > 0 else s == Bad && b.Of? && o.node.note == Typed(b.t)
  {
    hide Settle, Pow2, PolyFits;
    if a.Poly? {
      SettleIs(n, a, b.t);
      UseFits(a, b.t);
    }
  }

  lemma UseFits(a: Sort, t: Type)
    requires a.Poly?
    ensures Usable(a, t) <==> PolyFits(a.k, t)
  {
  }

  // Both sides: the second is pinned by what the first has become, which has the
  // first's type either way.
  lemma SidesAre(l: Node, r: Node, a: Sort, b: Sort)
    requires Noted(l.note, a) && Noted(r.note, b) && !(a.Poly? && b.Poly?)
    ensures var x := SettleTo(l, r.note); var y := SettleTo(r, x.node.note);
            && x.node.note.Typed? && y.node.note.Typed?
            && (x.ok && y.ok <==> Against(a, b).Of? && Against(b, a).Of?)
            && (x.ok && y.ok ==>
                  && x.node.note == Typed(Against(a, b).t) && y.node.note == Typed(Against(b, a).t)
                  && Against(a, b).t.width > 0 && Against(b, a).t.width > 0)
  {
    hide Settle, Pow2, PolyFits;
    AgainstIs(l, a, r.note, b);
    if a.Of? {
      AgainstIs(r, b, l.note, a);
    }
  }

  lemma CombineIs(op: BinOp, l: Node, r: Node, ok: bool, a: Sort, b: Sort)
    requires ok ==> Noted(l.note, a) && Noted(r.note, b)
    requires !ok ==> a == Bad || b == Bad
    ensures Matches(Combine(op, l, r, ok), BinarySort(op, a, b))
  {
    hide Combine, Noted, Joined, PolyBinary, PolyFits;
    if !ok {
      CombineOk(op, l, r, ok);
    } else if a.Poly? && b.Poly? {
      CombinePoly(op, l, r, a.k, b.k);
    } else {
      CombineSides(op, l, r, a, b);
    }
  }

  lemma CombinePoly(op: BinOp, l: Node, r: Node, j: int, k: int)
    requires Noted(l.note, Poly(j)) && Noted(r.note, Poly(k))
    ensures Matches(Combine(op, l, r, true), Poly(PolyBinary(op, j, k)))
  {
    hide PolyBinary, ConstOf, Pow2;
    ConstIs(op, j, k);
  }

  lemma CombineSides(op: BinOp, l: Node, r: Node, a: Sort, b: Sort)
    requires Noted(l.note, a) && Noted(r.note, b) && !(a.Poly? && b.Poly?)
    ensures Matches(Combine(op, l, r, true), BinarySort(op, a, b))
  {
    hide SettleTo, Against, WidthRule, Combine, Joined, Pow2;
    SidesAre(l, r, a, b);
    var x := SettleTo(l, r.note);
    var y := SettleTo(r, x.node.note);
    JoinSides(op, l, r, x.node.note.t, y.node.note.t);
    BothOf(op, a, b);
  }

  lemma BothOf(op: BinOp, a: Sort, b: Sort)
    requires !(a.Poly? && b.Poly?)
    ensures Against(a, b).Of? && Against(b, a).Of? ==> BinarySort(op, a, b) == Joined(op, Against(a, b).t, Against(b, a).t)
    ensures !(Against(a, b).Of? && Against(b, a).Of?) ==> BinarySort(op, a, b) == Bad
  {
    hide PolyFits, Joined;
  }

  lemma JoinSides(op: BinOp, l: Node, r: Node, lt: Type, rt: Type)
    requires !(l.note.Untyped? && r.note.Untyped?)
    requires SettleTo(l, r.note).node.note == Typed(lt) && SettleTo(r, Typed(lt)).node.note == Typed(rt)
    ensures var ok := SettleTo(l, r.note).ok && SettleTo(r, Typed(lt)).ok; var o := Combine(op, l, r, true);
            && (!ok ==> !o.ok)
            && (ok && lt.width > 0 && rt.width > 0 ==> Matches(o, Joined(op, lt, rt)))
  {
    hide SettleTo, WidthRule, ConstOf, Pow2;
    if lt.width > 0 && rt.width > 0 {
      WidthPositive(op, lt, rt);
    }
  }

  lemma WidthPositive(op: BinOp, l: Type, r: Type)
    requires l.width > 0 && r.width > 0
    ensures WidthRule(op, l, r).width > 0
  {
  }

  lemma ChooseIs(c: Node, x: Node, y: Node, ok: bool, usable: bool, a: Sort, b: Sort)
    requires ok ==> usable && Noted(x.note, a) && Noted(y.note, b)
    requires !ok ==> !usable || a == Bad || b == Bad
    ensures Matches(Choose(c, x, y, ok), if usable then ArmSort(a, b) else Bad)
  {
    hide Choose, Noted, PolyFits;
    if !ok {
      ChooseOk(c, x, y, ok);
    } else if a.Poly? && b.Poly? {
      ChoosePoly(c, x, y, a.k, b.k);
    } else {
      ChooseSides(c, x, y, a, b);
    }
  }

  lemma ChoosePoly(c: Node, x: Node, y: Node, j: int, k: int)
    requires Noted(x.note, Poly(j)) && Noted(y.note, Poly(k))
    ensures Matches(Choose(c, x, y, true), Poly(k))
  {
    hide Pow2;
  }

  lemma ChooseSides(c: Node, x: Node, y: Node, a: Sort, b: Sort)
    requires Noted(x.note, a) && Noted(y.note, b) && !(a.Poly? && b.Poly?)
    ensures Matches(Choose(c, x, y, true), ArmSort(a, b))
  {
    hide SettleTo, Against, Choose, Pow2;
    SidesAre(x, y, a, b);
    var l := SettleTo(x, y.note);
    var r := SettleTo(y, l.node.note);
    ArmsJoin(c, x, y, l.node.note.t, r.node.note.t);
    BothArms(a, b);
  }

  lemma BothArms(a: Sort, b: Sort)
    requires !(a.Poly? && b.Poly?)
    ensures Against(a, b).Of? && Against(b, a).Of? ==> ArmSort(a, b) == Arms(Against(a, b).t, Against(b, a).t)
    ensures !(Against(a, b).Of? && Against(b, a).Of?) ==> ArmSort(a, b) == Bad
  {
    hide PolyFits;
  }

  lemma ArmsJoin(c: Node, x: Node, y: Node, lt: Type, rt: Type)
    requires !(x.note.Untyped? && y.note.Untyped?)
    requires SettleTo(x, y.note).node.note == Typed(lt) && SettleTo(y, Typed(lt)).node.note == Typed(rt)
    ensures var ok := SettleTo(x, y.note).ok && SettleTo(y, Typed(lt)).ok; var o := Choose(c, x, y, true);
            && (!ok ==> !o.ok)
            && (ok && lt.width > 0 && rt.width > 0 ==> Matches(o, Arms(lt, rt)))
  {
    hide SettleTo, Pow2;
  }

  // Inference computes the sort, and fails exactly when there is none.
  lemma {:induction false} InferIs(n: Node)
    requires Fresh(n)
    ensures Matches(Infer(n), SortOf(n))
  {
    hide Combine, Choose, Settle, BinarySort, ArmSort, Usable, Pow2;
    match n
    case LitNode(v, _) => ModSmall(v, Pow2(128));
    case NameNode(_, _) =>
    case CastNode(_, x, _) => InferIs(x);
    case UnaryNode(op, x, _) => InferIs(x);
    case BinaryNode(op, l, r, _) =>
      InferIs(l);
      InferIs(r);
      CombineIs(op, Infer(l).node, Infer(r).node, Infer(l).ok && Infer(r).ok, SortOf(l), SortOf(r));
    case TernaryNode(c, x, y, _) =>
      InferIs(c);
      InferIs(x);
      InferIs(y);
      if Infer(c).ok {
        SettleIs(Infer(c).node, SortOf(c), U1);
      }
      NoUse();
      var k := CheckExpr(c, U1);
      ChooseIs(k.node, Infer(x).node, Infer(y).node, k.ok && Infer(x).ok && Infer(y).ok, Usable(SortOf(c), U1), SortOf(x), SortOf(y));
  }

  lemma NoUse()
    ensures forall t :: !Usable(Bad, t)
  {
  }

  // An expression is accepted where a type is wanted exactly when it has a sort that
  // can be used there.
  lemma AcceptIff(n: Node, expected: Type)
    requires Fresh(n) && expected.width > 0
    ensures CheckExpr(n, expected).ok <==> Usable(SortOf(n), expected)
  {
    hide Infer, SortOf, Settle, Usable;
    InferIs(n);
    NoUse();
    if Infer(n).ok {
      SettleIs(Infer(n).node, SortOf(n), expected);
    }
  }

  // In particular untyped sums and products are accepted exactly when their integer,
  // modulo 2^128, is a number of the type.
  predicate SumOrProduct(n: Node) {
    match n
    case LitNode(_, _) => true
    case BinaryNode(op, l, r, _) => (op == Plus || op == Star) && SumOrProduct(l) && SumOrProduct(r)
    case _ => false
  }

  function IntegerOf(n: Node): int
    requires SumOrProduct(n)
  {
    match n
    case LitNode(v, _) => v
    case BinaryNode(op, l, r, _) => if op == Plus then IntegerOf(l) + IntegerOf(r) else IntegerOf(l) * IntegerOf(r)
  }

  lemma {:induction false} SortOfSums(n: Node)
    requires SumOrProduct(n)
    ensures SortOf(n) == Poly(IntegerOf(n))
  {
    match n
    case LitNode(_, _) =>
    case BinaryNode(_, l, r, _) => SortOfSums(l); SortOfSums(r);
  }

  lemma UntypedIff(n: Node, t: Type)
    requires Fresh(n) && SumOrProduct(n) && t.width > 0
    ensures CheckExpr(n, t).ok <==> InRange(IntegerOf(n) % Pow2(128), t.width, t.signed)
  {
    hide CheckExpr, Fresh, IntegerOf, Pow2, InRange;
    SortOfSums(n);
    AcceptIff(n, t);
  }

  // Of a difference only the left operand is compared with the type: LANGUAGE.md:471-476
  // asks for the value.  300 - 100 is refused as u8, and 100 - 300 is not.
  lemma DifferenceTakesLeft()
    ensures var u8, a, b := Type(8, false), LitNode(300, Unknown), LitNode(100, Unknown);
            !CheckExpr(BinaryNode(Minus, a, b, Unknown), u8).ok && CheckExpr(BinaryNode(Minus, b, a, Unknown), u8).ok
  {
    hide CheckExpr, Pow2;
    var u8, a, b := Type(8, false), LitNode(300, Unknown), LitNode(100, Unknown);
    Powers();
    AcceptIff(BinaryNode(Minus, a, b, Unknown), u8);
    AcceptIff(BinaryNode(Minus, b, a, Unknown), u8);
    ModSmall(300, Pow2(128));
    ModSmall(100, Pow2(128));
  }

  // An untyped number that is shifted takes the type of the amount, which the document
  // makes an error (LANGUAGE.md:462-469).
  lemma ShiftedTakesAmount(s: Symbol)
    requires s.ty == Type(3, false)
    ensures CheckExpr(BinaryNode(Shl, LitNode(1, Unknown), NameNode(s, Unknown), Unknown), Type(3, false)).ok
  {
    hide CheckExpr, Pow2;
    Powers();
    AcceptIff(BinaryNode(Shl, LitNode(1, Unknown), NameNode(s, Unknown), Unknown), Type(3, false));
    ModSmall(1, Pow2(128));
  }

  lemma Powers()
    ensures Pow2(3) == 8 && Pow2(8) == 256 && Pow2(128) > 300
  {
    assert Pow2(4) == 16 && Pow2(5) == 32 && Pow2(6) == 64 && Pow2(7) == 128;
    assert Pow2(9) == 512;
    Pow2Mono(9, 128);
  }
}
