/**
 The expression checker as the source has it (src/sema/type_check.cpp): it raises
 diagnostics as it goes and never stops at one.  Annotations come back in the tree.
 */
module TypeChecker {
  import opened FixedWidth
  import opened Ast
  import opened Meaning
  import opened TypeCheck

  class TypeChecker {
    var reported: bool

    constructor ()
      ensures !reported
    {
      reported := false;
    }

    method Report()
      modifies this
      ensures reported
    {
      reported := true;
    }

    method WidthRule(op: BinOp, l: Type, r: Type) returns (t: Type)
      modifies this
      ensures t == Ast.WidthRule(op, l, r)
      ensures reported == (old(reported) || t.width > WORD)
    {
      t := Ast.WidthRule(op, l, r);
      if t.width > WORD {
        Report();
      }
    }

    method Infer(n: Node) returns (m: Node)
      modifies this
      ensures m == TypeCheck.Infer(n).node
      ensures reported == (old(reported) || !TypeCheck.Infer(n).ok)
      decreases n, 0
    {
      if n.note != Unknown { return n; }
      match n
      case LitNode(v, _) =>
        m := LitNode(v, Untyped(v));
      case NameNode(sym, _) =>
        m := NameNode(sym, Typed(sym.ty));
      case CastNode(target, x, _) =>
        var a := Infer(x);
        m := CastNode(target, a, Typed(target));
      case UnaryNode(op, x, _) =>
        var a := Infer(x);
        m := UnaryNode(op, a, if a.note.Typed? then Typed(UnaryRule(op, a.note.t)) else a.note);
      case BinaryNode(op, l, r, _) =>
        var a := Infer(l);
        var b := Infer(r);
        m := Combine(op, a, b);
      case TernaryNode(c, x, y, _) =>
        var k := CheckExpr(c, U1);
        var a := Infer(x);
        var b := Infer(y);
        m := Choose(k, a, b);
    }

    // An untyped operand takes the type of the other.
    method SettleTo(n: Node, other: Note) returns (m: Node)
      modifies this
      ensures m == TypeCheck.SettleTo(n, other).node
      ensures reported == (old(reported) || !TypeCheck.SettleTo(n, other).ok)
    {
      m := n;
      if n.note.Untyped? && other.Typed? && other.t.width > 0 {
        m := Settle(n, other.t);
      }
    }

    method Combine(op: BinOp, l: Node, r: Node) returns (m: Node)
      modifies this
      ensures m == TypeCheck.Combine(op, l, r, true).node
      ensures reported == (old(reported) || !TypeCheck.Combine(op, l, r, true).ok)
    {
      hide TypeCheck.SettleTo, Ast.WidthRule;
      if l.note.Untyped? && r.note.Untyped? {
        return BinaryNode(op, l, r, Untyped(ConstOf(op, l.note.constValue, r.note.constValue)));
      }
      var a := SettleTo(l, r.note);
      var b := SettleTo(r, a.note);
      if !a.note.Typed? || !b.note.Typed? {
        Report();
        return BinaryNode(op, a, b, Unknown);
      }
      if a.note.t.signed != b.note.t.signed && !Shift(op) {
        Report();
      }
      var t := WidthRule(op, a.note.t, b.note.t);
      m := BinaryNode(op, a, b, Typed(t));
    }

    method Choose(c: Node, x: Node, y: Node) returns (m: Node)
      modifies this
      ensures m == TypeCheck.Choose(c, x, y, true).node
      ensures reported == (old(reported) || !TypeCheck.Choose(c, x, y, true).ok)
    {
      hide TypeCheck.SettleTo;
      if x.note.Untyped? && y.note.Untyped? {
        return TernaryNode(c, x, y, y.note);
      }
      var a := SettleTo(x, y.note);
      var b := SettleTo(y, a.note);
      if !a.note.Typed? || !b.note.Typed? {
        Report();
        return TernaryNode(c, a, b, Unknown);
      }
      if a.note.t.signed != b.note.t.signed {
        Report();
      }
      m := TernaryNode(c, a, b, Typed(Type(Max(a.note.t.width, b.note.t.width), a.note.t.signed)));
    }

    method PinPoly(n: Node, t: Type) returns (m: Node)
      ensures m == Pin(n, t)
      decreases n
    {
      if !n.note.Untyped? { return n; }
      match n
      case LitNode(v, _) =>
        m := LitNode(v, Typed(t));
      case NameNode(sym, _) =>
        m := NameNode(sym, Typed(t));
      case CastNode(target, x, _) =>
        m := CastNode(target, x, Typed(t));
      case UnaryNode(op, x, _) =>
        var a := PinPoly(x, t);
        m := UnaryNode(op, a, Typed(t));
      case BinaryNode(op, l, r, _) =>
        var a := PinPoly(l, t);
        var b := PinPoly(r, t);
        m := BinaryNode(op, a, b, Typed(t));
      case TernaryNode(c, x, y, _) =>
        var a := PinPoly(x, t);
        var b := PinPoly(y, t);
        m := TernaryNode(c, a, b, Typed(t));
    }

    // checkExpr on a node already inferred.
    method Settle(n: Node, expected: Type) returns (m: Node)
      requires expected.width > 0
      modifies this
      ensures m == TypeCheck.Settle(n, expected).node
      ensures reported == (old(reported) || !TypeCheck.Settle(n, expected).ok)
    {
      match n.note
      case Untyped(k) =>
        if !Fits(k, expected) {
          Report();
        }
        m := PinPoly(n, expected);
      case Typed(t) =>
        if !Assignable(t, expected) {
          Report();
        }
        m := n;
      case Unknown =>
        Report();
        m := n;
    }

    method CheckExpr(n: Node, expected: Type) returns (m: Node)
      requires expected.width > 0
      modifies this
      ensures m == TypeCheck.CheckExpr(n, expected).node
      ensures reported == (old(reported) || !TypeCheck.CheckExpr(n, expected).ok)
      decreases n, 1
    {
      var a := Infer(n);
      m := Settle(a, expected);
    }
  }
}
