/**
 From checked to exact: the rules of the language that no pass enforces, and why an
 accepted expression within them is one the translation theorems speak of.
 */
module Rules {
  import opened Arith
  import opened FixedWidth
  import opened Ast
  import opened Meaning
  import opened Wrappers
  import opened TypeCheck
  import opened Literals

  // Every operator has the type of the table, and so the width of its value.
  predicate FollowsTable(e: Expr) {
    match e
    case Unary(op, x, t) => t == UnaryRule(op, x.ty) && FollowsTable(x)
    case Binary(op, l, r, t) => t == WidthRule(op, l.ty, r.ty) && FollowsTable(l) && FollowsTable(r)
    case _ => true
  }

  // -k at a signed type.
  predicate NegatedLiteral(e: Expr) {
    e.Unary? && e.uop == UMinus && e.operand.IntLit? && e.ty.signed
  }

  // Untyped arithmetic that must have room where it stands.
  predicate Roomy(e: Expr) {
    Widths(e) && PinnedFits(e)
  }

  // An operand of untyped arithmetic: there the checker does not compare a
  // literal with its type.
  predicate Ranged(e: Expr) {
    match e
    case Unary(op, x, t) => Ranged(x) && (t == UnaryRule(op, x.ty) || Roomy(e))
    case Binary(_, l, r, _) => Ranged(l) && Ranged(r)
    case Ternary(_, x, y, _) => Ranged(x) && Ranged(y)
    case _ => true
  }

  // The rules of the language that the checker leaves to the programmer, read off the
  // typed expression.
  predicate Allowed(e: Expr) {
    match e
    case IntLit(_, _) => true
    case NameRef(_, _) => true
    case Cast(_, x, _) => Allowed(x)
    case Unary(op, x, t) =>
      && Allowed(x) && t.width <= WORD
      && (t == UnaryRule(op, x.ty) || NegatedLiteral(e) || Roomy(e))
      && (op == UBang ==> x.ty == U1)
    case Binary(op, l, r, t) =>
      && Allowed(l) && Allowed(r) && (PolyShape(e) ==> Ranged(l) && Ranged(r))
      && (t == WidthRule(op, l.ty, r.ty) || Roomy(e))
    case Ternary(c, x, y, _) =>
      Allowed(c) && Allowed(x) && Allowed(y) && (PolyShape(e) ==> Ranged(x) && Ranged(y))
  }

  // The limits of the value operations, where the table does not keep to them.
  predicate Limited(e: Expr) {
    && (FollowsTable(e) || MaxWidth(e) <= WORD)
    && match e
       case IntLit(_, _) => true
       case NameRef(_, _) => true
       case Cast(_, x, _) => Limited(x)
       case Unary(op, x, t) => Limited(x) && (op == UTilde && !t.signed ==> ExactWidth(x))
       case Binary(op, l, r, t) =>
         && Limited(l) && Limited(r)
         && (op == Shl ==> WidthOrZero(l))
         && (Shift(op) ==> SmallAmount(r))
         && (op == Percent && !t.signed ==> RemainderWidths(MaxWidth(l), MaxWidth(r)))
       case Ternary(c, x, y, _) => Limited(c) && Limited(x) && Limited(y)
  }

  // What lets the types promise agreement of emitter and interpreter.
  predicate Documented(e: Expr) {
    Allowed(e) && Limited(e)
  }

  // Such an expression never holds a value wider than its type.
  lemma {:induction false} TableWidth(e: Expr)
    requires Checked(e) && FollowsTable(e)
    ensures MaxWidth(e) <= e.ty.width
  {
    hide PolyShape, WidthRule, WidestBinary, WidestUnary;
    match e
    case Unary(op, x, _) =>
      TableWidth(x);
      UnaryWidest(op, MaxWidth(x), x.ty);
    case Binary(op, l, r, _) =>
      TableWidth(l);
      TableWidth(r);
      BinaryWidest(op, MaxWidth(l), MaxWidth(r), l.ty, r.ty);
    case _ =>
  }

  lemma UnaryWidest(op: UnOp, a: nat, t: Type)
    requires a <= t.width && TypeOk(t)
    ensures WidestUnary(op, a) <= UnaryRule(op, t).width
  {
  }

  lemma BinaryWidest(op: BinOp, a: nat, b: nat, l: Type, r: Type)
    requires a <= l.width && b <= r.width
    ensures WidestBinary(op, l.signed, a, b) <= WidthRule(op, l, r).width
  {
  }

  lemma {:induction false} LimitedComputes(e: Expr)
    requires Checked(e) && Limited(e)
    ensures Computable(e)
  {
    hide PolyShape, WidthRule, UnaryRule, ExactWidth, WidthOrZero, SmallAmount, RemainderWidths, MaxWidth, FollowsTable;
    if FollowsTable(e) {
      TableWidth(e);
    }
    match e
    case IntLit(_, _) =>
    case NameRef(_, _) =>
    case Cast(_, x, _) => LimitedComputes(x);
    case Unary(_, x, _) => LimitedComputes(x);
    case Binary(_, l, r, _) => LimitedComputes(l); LimitedComputes(r);
    case Ternary(c, x, y, _) => LimitedComputes(c); LimitedComputes(x); LimitedComputes(y);
  }

  // A negated literal that fits leaves room for its negation.
  lemma NegationRoom(e: Expr)
    requires NegatedLiteral(e) && Widths(e) && e.operand.ty == e.ty && InRange(e.operand.value, e.ty.width, true)
    ensures PinnedFits(e)
  {
    NumOfRaw(e.ty.width, true, e.operand.value);
  }

  // A chain has been compared with its type, or stands where the rules ask for its
  // range.
  predicate Covered(n: Node, e: Expr) {
    Chain(n) ==> ChainFits(n) || Ranged(e)
  }

  lemma {:induction false} PinnedRules(n: Node, t: Type)
    requires PinnedTree(n, t) && CondsFit(n)
    requires var e := AsFolded(n); Covered(n, e) && Checked(e) && Allowed(e)
    ensures Ruled(AsFolded(n))
    decreases n, 0
  {
    hide InRange, WidthRule, UnaryRule, PinnedFits, Sound;
    PinnedErases(n, t);
    FoldedShape(n);
    var e := AsFolded(n);
    match n
    case LitNode(_, _) =>
    case UnaryNode(op, x, _) =>
      PinnedRules(x, t);
      FoldedType(x);
      if NegatedLiteral(e) && ChainFits(n) {
        NegationRoom(e);
      }
    case BinaryNode(_, l, r, _) =>
      PinnedRules(l, t);
      PinnedRules(r, t);
    case TernaryNode(c, x, y, _) =>
      SoundRules(c);
      PinnedRules(x, t);
      PinnedRules(y, t);
  }

  // A tree left untyped has an unsigned type when it is folded, where a negation
  // needs room in any case.
  lemma {:induction false} UntypedRules(n: Node)
    requires UntypedTree(n) && CondsFit(n) && Checked(AsFolded(n)) && Allowed(AsFolded(n))
    ensures Ruled(AsFolded(n))
    decreases n, 0
  {
    hide InRange, WidthRule, UnaryRule, PinnedFits, Sound;
    match n
    case LitNode(_, _) =>
    case UnaryNode(_, x, _) => UntypedRules(x);
    case BinaryNode(_, l, r, _) => UntypedRules(l); UntypedRules(r);
    case TernaryNode(c, x, y, _) => SoundRules(c); UntypedRules(x); UntypedRules(y);
  }

  lemma BangType(op: UnOp, t: Type)
    ensures op == UBang ==> UnaryRule(op, t) == t
  {
  }

  lemma {:induction false} SoundRules(n: Node)
    requires Sound(n) && ChainsFit(n) && Checked(AsFolded(n)) && Allowed(AsFolded(n))
    ensures Ruled(AsFolded(n))
    decreases n, 1
  {
    hide InRange, WidthRule, UnaryRule, PinnedFits;
    if Literal(n) {
      LiteralPinned(n);
      PinnedRules(n, n.note.t);
    } else {
      NotPinned(n);
      match n
      case NameNode(_, _) =>
      case CastNode(_, x, _) =>
        if Literal(x) {
          UntypedRules(x);
        } else {
          SoundRules(x);
        }
      case UnaryNode(op, x, _) =>
        SoundRules(x);
        FoldedType(x);
        BangType(op, x.note.t);
      case BinaryNode(_, l, r, _) => SoundRules(l); SoundRules(r);
      case TernaryNode(c, x, y, _) => SoundRules(c); SoundRules(x); SoundRules(y);
    }
  }

  lemma {:induction false} AllowedFits(n: Node)
    requires Allowed(AsFolded(n))
    ensures NegationsFit(n)
  {
    hide Roomy, Ranged, PolyShape;
    match n
    case CastNode(_, x, _) => AllowedFits(x);
    case UnaryNode(_, x, _) => AllowedFits(x);
    case BinaryNode(_, l, r, _) => AllowedFits(l); AllowedFits(r);
    case TernaryNode(c, x, y, _) => AllowedFits(c); AllowedFits(x); AllowedFits(y);
    case _ =>
  }

  // What the checker accepts and the rules allow is what the emitter and constant
  // folding are correct on.
  lemma AcceptedIsRegular(n: Node, expected: Type)
    requires Fresh(n) && TypeOk(expected) && CheckExpr(n, expected).ok
    requires Allowed(AsFolded(CheckExpr(n, expected).node))
    ensures var e := AsFolded(CheckExpr(n, expected).node); Regular(e) && Assignable(e.ty, expected)
  {
    hide Infer, Settle, Fresh, Allowed, Erase, Sound, Annotated, Checked, Ruled, ChainsFit, AsFolded;
    AcceptedIsChecked(n, expected);
    AcceptedChains(n, expected);
    var m := CheckExpr(n, expected).node;
    InferSound(n);
    SettleSound(Infer(n).node, expected);
    AllowedFits(m);
    SoundRules(m);
  }

  // Within the limits too, it is what emitter and interpreter agree on.
  lemma AcceptedIsWellTyped(n: Node, expected: Type)
    requires Fresh(n) && TypeOk(expected) && CheckExpr(n, expected).ok
    requires Documented(AsFolded(CheckExpr(n, expected).node))
    ensures var e := AsFolded(CheckExpr(n, expected).node); WellTyped(e) && Assignable(e.ty, expected)
  {
    hide CheckExpr, Fresh, Allowed, Limited, Checked, Ruled, Computable, AsFolded;
    AcceptedIsRegular(n, expected);
    LimitedComputes(AsFolded(CheckExpr(n, expected).node));
  }
}
