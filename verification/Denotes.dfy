/**
 The number an expression denotes before any pass has annotated it: operands take the
 types of the operator table, an untyped one that of the other operand or of the place
 it stands in (LANGUAGE.md:443-478, 505-606).  What the checker leaves of an accepted
 expression denotes the same.
 */
module Denotes {
  import opened Arith
  import opened FixedWidth
  import opened Ast
  import opened Meaning
  import opened Means
  import opened Wrappers
  import opened TypeCheck
  import opened Literals
  import opened Accepts

  // The type at which an operand of sort a is read, beside one of sort b, where t is
  // wanted.
  function Taken(a: Sort, b: Sort, t: Type): Type {
    if a.Of? then a.t else if b.Of? then b.t else t
  }

  // An operator on numbers of two types.
  function Applied(op: BinOp, l: Type, r: Type, x: int, y: int): int {
    if l.width > 0 then IdealBinary(op, l, x, y, y % Pow2(r.width)) else 0
  }

  function Denotes(n: Node, t: Type, rho: Numbers): int {
    match n
    case LitNode(v, _) => Cut(t, v)
    case NameNode(sym, _) => if sym in rho then rho[sym] else 0
    case CastNode(target, x, _) => Cut(target, Denotes(x, WIDE, rho))
    case UnaryNode(op, x, _) => IdealUnary(op, Taken(SortOf(x), Bad, t), Denotes(x, t, rho))
    case BinaryNode(op, l, r, _) =>
      var lt, rt := Taken(SortOf(l), SortOf(r), t), Taken(SortOf(r), SortOf(l), t);
      Applied(op, lt, rt, Denotes(l, lt, rho), Denotes(r, rt, rho))
    case TernaryNode(c, x, y, _) =>
      if Denotes(c, U1, rho) != 0 then Denotes(x, Taken(SortOf(x), SortOf(y), t), rho)
      else Denotes(y, Taken(SortOf(y), SortOf(x), t), rho)
  }

  // The tree inference leaves, given t if it is untyped.
  function Settled(n: Node, t: Type): Node
    requires t.width > 0
  {
    Settle(Infer(n).node, t).node
  }

  // Folding reads an untyped tree at 128 unsigned bits.
  lemma {:induction false} WideRead(n: Node)
    ensures AsFolded(Pin(n, WIDE)) == AsFolded(n)
  {
    match n
    case UnaryNode(_, x, _) => WideRead(x);
    case BinaryNode(_, l, r, _) => WideRead(l); WideRead(r);
    case TernaryNode(_, x, y, _) => WideRead(x); WideRead(y);
    case _ =>
  }

  lemma SettledWide(n: Node)
    ensures AsFolded(Settle(n, WIDE).node) == AsFolded(n)
  {
    WideRead(n);
  }

  // An operand takes its type whether it is settled with the other or on its own.
  lemma SettledSort(n: Node, t: Type)
    requires Fresh(n) && Infer(n).ok && t.width > 0
    ensures Settled(n, t).note == Typed(Taken(SortOf(n), Bad, t)) && Taken(SortOf(n), Bad, t).width > 0
    ensures SortOf(n).Of? ==> Settled(n, t) == Infer(n).node
    ensures SortOf(n).Poly? ==> Infer(n).node.note.Untyped? && Settled(n, t) == Pin(Infer(n).node, t)
  {
    hide Pin, Infer, SortOf;
    InferIs(n);
    if SortOf(n).Poly? {
      PinNote(Infer(n).node, t);
    }
  }

  lemma CastParts(n: Node, t: Type)
    requires n.CastNode? && Fresh(n) && Infer(n).ok && t.width > 0
    ensures Infer(n.arg).ok && AsFolded(Settled(n, t)) == Cast(n.target, AsFolded(Settled(n.arg, WIDE)), n.target)
  {
    hide Infer, Settle, AsFolded, ReadAt;
    CastInfers(n);
    SettledWide(Infer(n.arg).node);
    SettleTyped(Infer(n).node, t);
    CastRead(n.target, Infer(n.arg).node);
  }

  lemma CastInfers(n: Node)
    requires n.CastNode? && n.note == Unknown
    ensures Infer(n) == Outcome(CastNode(n.target, Infer(n.arg).node, Typed(n.target)), Infer(n.arg).ok)
  {
  }

  lemma CastRead(target: Type, m: Node)
    ensures AsFolded(CastNode(target, m, Typed(target))) == Cast(target, AsFolded(m), target)
  {
  }

  lemma SettleTyped(n: Node, t: Type)
    requires n.note.Typed? && t.width > 0
    ensures Settle(n, t).node == n
  {
  }

  lemma UnaryParts(n: Node, t: Type)
    requires n.UnaryNode? && Fresh(n) && Infer(n).ok && t.width > 0
    ensures var x, e := AsFolded(Settled(n.arg, t)), AsFolded(Settled(n, t));
            Infer(n.arg).ok && e == Unary(n.uop, x, e.ty) && x.ty == Taken(SortOf(n.arg), Bad, t)
  {
    hide SortOf;
    SettledSort(n.arg, t);
  }

  // One of two operands: pinned by the other, or typed already.
  lemma OneSide(n: Node, other: Note, b: Sort, t: Type)
    requires Fresh(n) && Infer(n).ok && Noted(other, b) && t.width > 0
    ensures Taken(SortOf(n), b, t).width > 0
    ensures var lt := Taken(SortOf(n), b, t); Settled(n, lt).note == Typed(lt)
    ensures !(SortOf(n).Poly? && b.Poly?) ==>
            SettleTo(Infer(n).node, other).node == Settled(n, Taken(SortOf(n), b, t))
  {
    hide SortOf, Infer, Pin, Fits;
    InferIs(n);
    SettledSort(n, Taken(SortOf(n), b, t));
  }

  predicate TwoSides(l: Node, r: Node, t: Type, x: Node, y: Node) {
    var lt, rt := Taken(SortOf(l), SortOf(r), t), Taken(SortOf(r), SortOf(l), t);
    && lt.width > 0 && rt.width > 0
    && x == Settled(l, lt) && y == Settled(r, rt) && x.note == Typed(lt) && y.note == Typed(rt)
  }

  lemma SidesSettled(l: Node, r: Node, t: Type) returns (x: Node, y: Node)
    requires Fresh(l) && Fresh(r) && Infer(l).ok && Infer(r).ok && t.width > 0
    ensures TwoSides(l, r, t, x, y)
    ensures var i, j := Infer(l).node, Infer(r).node;
            if SortOf(l).Poly? && SortOf(r).Poly? then
              i.note.Untyped? && j.note.Untyped? && x == Pin(i, t) && y == Pin(j, t)
            else
              !(i.note.Untyped? && j.note.Untyped?) && x == SettleTo(i, j.note).node && y == SettleTo(j, x.note).node
  {
    hide SortOf, Infer, Pin, Settle, Fresh, SettleTo;
    var a, b := SortOf(l), SortOf(r);
    InferIs(l);
    InferIs(r);
    OneSide(l, Infer(r).node.note, b, t);
    OneSide(r, Infer(l).node.note, a, t);
    x, y := Settled(l, Taken(a, b, t)), Settled(r, Taken(b, a, t));
    if a.Poly? {
      SettledSort(l, Taken(a, b, t));
    } else {
      SettleTyped(Infer(l).node, Taken(a, b, t));
    }
    if b.Poly? {
      SettledSort(r, Taken(b, a, t));
    }
    SecondSide(r, a, x.note, t);
  }

  // The second side sees what the first has become: of its type, or of the second's.
  lemma SecondSide(r: Node, a: Sort, note: Note, t: Type)
    requires Fresh(r) && Infer(r).ok && t.width > 0
    requires note == Typed(Taken(a, SortOf(r), t)) && Taken(a, SortOf(r), t).width > 0 && Taken(SortOf(r), a, t).width > 0
    ensures !(a.Poly? && SortOf(r).Poly?) && a != Bad ==>
            SettleTo(Infer(r).node, note).node == Settled(r, Taken(SortOf(r), a, t))
  {
    hide SortOf, Infer, Pin, Fits;
    InferIs(r);
  }

  lemma BinaryOk(n: Node)
    requires n.BinaryNode? && Fresh(n) && Infer(n).ok
    ensures Fresh(n.l) && Fresh(n.r) && Infer(n.l).ok && Infer(n.r).ok
    ensures Infer(n) == Combine(n.op, Infer(n.l).node, Infer(n.r).node, true)
  {
    hide Combine;
    CombineOk(n.op, Infer(n.l).node, Infer(n.r).node, Infer(n.l).ok && Infer(n.r).ok);
  }

  lemma BinaryParts(n: Node, t: Type)
    requires n.BinaryNode? && Fresh(n) && Infer(n).ok && t.width > 0
    ensures Infer(n.l).ok && Infer(n.r).ok
    ensures var m := Settled(n, t); m.BinaryNode? && m.op == n.op && TwoSides(n.l, n.r, t, m.l, m.r)
  {
    hide SortOf, Infer, ConstOf, WidthRule, Fresh, SettleTo, TwoSides;
    BinaryOk(n);
    var x, y := SidesSettled(n.l, n.r, t);
    SidesTyped(n.l, n.r, t, x, y);
  }

  lemma SidesTyped(l: Node, r: Node, t: Type, x: Node, y: Node)
    requires TwoSides(l, r, t, x, y)
    ensures x.note.Typed? && y.note.Typed?
  {
    hide SortOf, Infer, Settle;
  }

  lemma TernaryOk(n: Node)
    requires n.TernaryNode? && Fresh(n) && Infer(n).ok
    ensures Fresh(n.c) && Fresh(n.t) && Fresh(n.e) && Infer(n.c).ok && Infer(n.t).ok && Infer(n.e).ok
    ensures Infer(n) == Choose(Settled(n.c, U1), Infer(n.t).node, Infer(n.e).node, true)
  {
    hide Choose, Settle;
    var k := CheckExpr(n.c, U1);
    ChooseOk(k.node, Infer(n.t).node, Infer(n.e).node, k.ok && Infer(n.t).ok && Infer(n.e).ok);
  }

  lemma TernaryParts(n: Node, t: Type)
    requires n.TernaryNode? && Fresh(n) && Infer(n).ok && t.width > 0
    ensures Infer(n.c).ok && Infer(n.t).ok && Infer(n.e).ok
    ensures var m := Settled(n, t); m.TernaryNode? && m.c == Settled(n.c, U1) && TwoSides(n.t, n.e, t, m.t, m.e)
  {
    hide SortOf, Infer, Fresh, SettleTo, TwoSides;
    TernaryOk(n);
    var x, y := SidesSettled(n.t, n.e, t);
    SidesTyped(n.t, n.e, t, x, y);
  }

  // ------------------------------------------------------------------- the theorem

  lemma {:induction false} SettledMeans(n: Node, t: Type, rho: Numbers)
    requires Fresh(n) && Infer(n).ok && t.width > 0 && Widths(AsFolded(Settled(n, t)))
    ensures Ideal(AsFolded(Settled(n, t)), rho) == Denotes(n, t, rho)
  {
    hide Infer, Settle, SortOf, IdealUnary, IdealBinary, Wrap;
    match n
    case LitNode(_, _) => LiteralParts(n, t);
    case NameNode(_, _) => NameParts(n, t);
    case CastNode(_, x, _) =>
      CastParts(n, t);
      SettledMeans(x, WIDE, rho);
    case UnaryNode(_, x, _) =>
      UnaryParts(n, t);
      SettledMeans(x, t, rho);
    case BinaryNode(_, l, r, _) =>
      BinaryParts(n, t);
      FoldedType(Settled(n, t).l);
      FoldedType(Settled(n, t).r);
      SettledMeans(l, Taken(SortOf(l), SortOf(r), t), rho);
      SettledMeans(r, Taken(SortOf(r), SortOf(l), t), rho);
    case TernaryNode(c, x, y, _) =>
      TernaryParts(n, t);
      SettledMeans(c, U1, rho);
      SettledMeans(x, Taken(SortOf(x), SortOf(y), t), rho);
      SettledMeans(y, Taken(SortOf(y), SortOf(x), t), rho);
  }

  lemma LiteralParts(n: Node, t: Type)
    requires n.LitNode? && Fresh(n) && t.width > 0
    ensures AsFolded(Settled(n, t)) == IntLit(n.value, t)
  {
  }

  lemma NameParts(n: Node, t: Type)
    requires n.NameNode? && Fresh(n) && t.width > 0
    ensures AsFolded(Settled(n, t)) == NameRef(n.sym, n.sym.ty)
  {
  }

  // What the checker leaves of an expression it accepts denotes what the expression
  // did, where the same type is wanted.
  lemma CheckedDenotes(n: Node, expected: Type, rho: Numbers)
    requires Fresh(n) && expected.width > 0 && CheckExpr(n, expected).ok
    requires Widths(AsFolded(CheckExpr(n, expected).node))
    ensures Ideal(AsFolded(CheckExpr(n, expected).node), rho) == Denotes(n, expected, rho)
  {
    hide Infer, Settle, Fresh, Denotes, Ideal, Widths;
    SettledMeans(n, expected, rho);
  }
}
