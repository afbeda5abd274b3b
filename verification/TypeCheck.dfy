/**
 The expression checker (src/sema/type_check.cpp): types inferred bottom up,
 untyped constants pinned by their context.  The source writes each annotation
 into its node; here a pass returns the annotated tree and whether it raised no
 diagnostic.
 */
module TypeCheck {
  import opened Arith
  import opened FixedWidth
  import opened Ast
  import opened Meaning
  import opened Wrappers

  // Expr::type with Expr::typeKnown.
  datatype Note = Unknown | Untyped(constValue: nat) | Typed(t: Type)

  datatype Node =
    | LitNode(value: nat, note: Note)
    | NameNode(sym: Symbol, note: Note)
    | CastNode(target: Type, arg: Node, note: Note)
    | UnaryNode(uop: UnOp, arg: Node, note: Note)
    | BinaryNode(op: BinOp, l: Node, r: Node, note: Note)
    | TernaryNode(c: Node, t: Node, e: Node, note: Note)

  datatype Outcome = Outcome(node: Node, ok: bool)

  // fits, src/sema/type_check.cpp:21-27
  predicate Fits(value: nat, t: Type)
    requires t.width > 0
  {
    if t.signed then value <= Pow2(t.width - 1) - 1
    else t.width == WORD || value <= Pow2(t.width) - 1
  }

  // assignable, src/sema/type_check.cpp:29-31
  predicate Assignable(from: Type, to: Type) {
    from.signed == to.signed && from.width <= to.width
  }

  // The constant an untyped operation is taken to have, in 128 bits.
  function ConstOf(op: BinOp, l: nat, r: nat): nat {
    match op
    case Plus => (l + r) % Pow2(WORD)
    case Star => l * r % Pow2(WORD)
    case _ => l
  }

  // pinPoly, src/sema/type_check.cpp:142-166
  function Pin(n: Node, t: Type): Node {
    if !n.note.Untyped? then n
    else
      match n
      case UnaryNode(op, x, _) => UnaryNode(op, Pin(x, t), Typed(t))
      case BinaryNode(op, l, r, _) => BinaryNode(op, Pin(l, t), Pin(r, t), Typed(t))
      case TernaryNode(c, x, y, _) => TernaryNode(c, Pin(x, t), Pin(y, t), Typed(t))
      case LitNode(v, _) => LitNode(v, Typed(t))
      case NameNode(sym, _) => NameNode(sym, Typed(t))
      case CastNode(target, x, _) => CastNode(target, x, Typed(t))
  }

  // checkExpr on a node already inferred, src/sema/type_check.cpp:168-178.
  function Settle(n: Node, expected: Type): Outcome
    requires expected.width > 0
  {
    match n.note
    case Untyped(k) => Outcome(Pin(n, expected), Fits(k, expected))
    case Typed(t) => Outcome(n, Assignable(t, expected))
    case Unknown => Outcome(n, false)
  }

  // An operand's type reaches an untyped operand on the other side.
  function SettleTo(n: Node, other: Note): Outcome {
    if n.note.Untyped? && other.Typed? && other.t.width > 0 then Settle(n, other.t) else Outcome(n, true)
  }

  // infer, src/sema/type_check.cpp:58-134.  A node already annotated keeps its
  // annotation.
  function Infer(n: Node): Outcome
    decreases n, 0
  {
    if n.note != Unknown then Outcome(n, true)
    else
      match n
      case LitNode(v, _) => Outcome(LitNode(v, Untyped(v)), true)
      case NameNode(sym, _) => Outcome(NameNode(sym, Typed(sym.ty)), true)
      case CastNode(target, x, _) =>
        var a := Infer(x);
        Outcome(CastNode(target, a.node, Typed(target)), a.ok)
      case UnaryNode(op, x, _) =>
        var a := Infer(x);
        var note := if a.node.note.Typed? then Typed(UnaryRule(op, a.node.note.t)) else a.node.note;
        Outcome(UnaryNode(op, a.node, note), a.ok)
      case BinaryNode(op, l, r, _) =>
        var a, b := Infer(l), Infer(r);
        Combine(op, a.node, b.node, a.ok && b.ok)
      case TernaryNode(c, x, y, _) =>
        var k, a, b := CheckExpr(c, U1), Infer(x), Infer(y);
        Choose(k.node, a.node, b.node, k.ok && a.ok && b.ok)
  }

  function Combine(op: BinOp, l: Node, r: Node, ok: bool): Outcome {
    if l.note.Untyped? && r.note.Untyped? then
      Outcome(BinaryNode(op, l, r, Untyped(ConstOf(op, l.note.constValue, r.note.constValue))), ok)
    else
      var a := SettleTo(l, r.note);
      var b := SettleTo(r, a.node.note);
      if a.node.note.Typed? && b.node.note.Typed? then
        var lt, rt := a.node.note.t, b.node.note.t;
        var res := WidthRule(op, lt, rt);
        Outcome(BinaryNode(op, a.node, b.node, Typed(res)),
                ok && a.ok && b.ok && (lt.signed == rt.signed || Shift(op)) && res.width <= WORD)
      else Outcome(BinaryNode(op, a.node, b.node, Unknown), false)
  }

  function Choose(c: Node, x: Node, y: Node, ok: bool): Outcome {
    if x.note.Untyped? && y.note.Untyped? then Outcome(TernaryNode(c, x, y, y.note), ok)
    else
      var a := SettleTo(x, y.note);
      var b := SettleTo(y, a.node.note);
      if a.node.note.Typed? && b.node.note.Typed? then
        var lt, rt := a.node.note.t, b.node.note.t;
        Outcome(TernaryNode(c, a.node, b.node, Typed(Type(Max(lt.width, rt.width), lt.signed))),
                ok && a.ok && b.ok && lt.signed == rt.signed)
      else Outcome(TernaryNode(c, a.node, b.node, Unknown), false)
  }

  function CheckExpr(n: Node, expected: Type): Outcome
    requires expected.width > 0
    decreases n, 1
  {
    var a := Infer(n);
    var s := Settle(a.node, expected);
    Outcome(s.node, a.ok && s.ok)
  }

  // ------------------------------------------------------ what fits and assigns

  lemma FitsIff(value: nat, t: Type)
    requires t.width > 0 && value < Pow2(WORD)
    ensures Fits(value, t) <==> InRange(value, t.width, t.signed)
  {
    assert Pow2(t.width) == 2 * Pow2(t.width - 1);
    assert !t.signed && t.width == WORD ==> value < Pow2(t.width);
  }

  // Between types of one signedness, assignment loses no number.
  lemma AssignableIff(from: Type, to: Type)
    requires TypeOk(from) && TypeOk(to) && from.signed == to.signed
    ensures Assignable(from, to) <==>
            forall n | InRange(n, from.width, from.signed) :: InRange(n, to.width, to.signed)
  {
    if from.width <= to.width {
      forall n | InRange(n, from.width, from.signed) ensures InRange(n, to.width, to.signed) {
        RangeWidens(n, from.width, to.width, from.signed);
      }
    } else {
      var top := if from.signed then Pow2(from.width - 1) - 1 else Pow2(from.width) - 1;
      Pow2Strict(to.width, from.width);
      assert Pow2(from.width) == 2 * Pow2(from.width - 1) && Pow2(to.width) == 2 * Pow2(to.width - 1);
      assert InRange(top, from.width, from.signed) && !InRange(top, to.width, to.signed);
    }
  }

  // --------------------------------------------------------------- trees to check

  // A resolved tree no pass has annotated.
  predicate Fresh(n: Node) {
    && n.note == Unknown
    && match n
       case LitNode(v, _) => v < Pow2(WORD)
       case NameNode(sym, _) => TypeOk(sym.ty)
       case CastNode(target, x, _) => TypeOk(target) && Fresh(x)
       case UnaryNode(_, x, _) => Fresh(x)
       case BinaryNode(_, l, r, _) => Fresh(l) && Fresh(r)
       case TernaryNode(c, x, y, _) => Fresh(c) && Fresh(x) && Fresh(y)
  }

  // The tree without its annotations.
  function Strip(n: Node): Node {
    match n
    case LitNode(v, _) => LitNode(v, Unknown)
    case NameNode(sym, _) => NameNode(sym, Unknown)
    case CastNode(target, x, _) => CastNode(target, Strip(x), Unknown)
    case UnaryNode(op, x, _) => UnaryNode(op, Strip(x), Unknown)
    case BinaryNode(op, l, r, _) => BinaryNode(op, Strip(l), Strip(r), Unknown)
    case TernaryNode(c, x, y, _) => TernaryNode(Strip(c), Strip(x), Strip(y), Unknown)
  }

  // Built from untyped literals only.
  predicate Literal(n: Node) {
    match n
    case LitNode(_, _) => true
    case UnaryNode(_, x, _) => Literal(x)
    case BinaryNode(_, l, r, _) => Literal(l) && Literal(r)
    case TernaryNode(_, x, y, _) => Literal(x) && Literal(y)
    case _ => false
  }

  // No cast is applied to an untyped constant.
  predicate CastsTyped(n: Node) {
    match n
    case LitNode(_, _) => true
    case NameNode(_, _) => true
    case CastNode(_, x, _) => !Literal(x) && CastsTyped(x)
    case UnaryNode(_, x, _) => CastsTyped(x)
    case BinaryNode(_, l, r, _) => CastsTyped(l) && CastsTyped(r)
    case TernaryNode(c, x, y, _) => CastsTyped(c) && CastsTyped(x) && CastsTyped(y)
  }

  lemma {:induction false} PinStrip(n: Node, t: Type)
    ensures Strip(Pin(n, t)) == Strip(n)
  {
    if n.note.Untyped? {
      match n
      case UnaryNode(_, x, _) => PinStrip(x, t);
      case BinaryNode(_, l, r, _) => PinStrip(l, t); PinStrip(r, t);
      case TernaryNode(_, x, y, _) => PinStrip(x, t); PinStrip(y, t);
      case _ =>
    }
  }

  // Checking annotates the tree and changes nothing else.
  lemma {:induction false} InferStrip(n: Node)
    ensures Strip(Infer(n).node) == Strip(n)
  {
    hide Combine, Choose, UnaryRule;
    if n.note == Unknown {
      match n
      case CastNode(_, x, _) => InferStrip(x);
      case UnaryNode(_, x, _) => InferStrip(x);
      case BinaryNode(op, l, r, _) =>
        InferStrip(l);
        InferStrip(r);
        CombineStrip(op, Infer(l).node, Infer(r).node, Infer(l).ok && Infer(r).ok);
      case TernaryNode(c, x, y, _) =>
        InferStrip(c);
        InferStrip(x);
        InferStrip(y);
        PinStrip(Infer(c).node, U1);
        ChooseStrip(CheckExpr(c, U1).node, Infer(x).node, Infer(y).node, CheckExpr(c, U1).ok && Infer(x).ok && Infer(y).ok);
      case _ =>
    }
  }

  lemma CombineStrip(op: BinOp, l: Node, r: Node, ok: bool)
    ensures Strip(Combine(op, l, r, ok).node) == BinaryNode(op, Strip(l), Strip(r), Unknown)
  {
    hide SettleTo, WidthRule, ConstOf;
    PairStrip(l, r);
  }

  lemma ChooseStrip(c: Node, x: Node, y: Node, ok: bool)
    ensures Strip(Choose(c, x, y, ok).node) == TernaryNode(Strip(c), Strip(x), Strip(y), Unknown)
  {
    hide SettleTo, Strip;
    PairStrip(x, y);
    var a := SettleTo(x, y.note);
    StripTernary(c, x, y, Choose(c, x, y, ok).node.note);
    StripTernary(c, a.node, SettleTo(y, a.node.note).node, Choose(c, x, y, ok).node.note);
  }

  lemma StripTernary(c: Node, x: Node, y: Node, note: Note)
    ensures Strip(TernaryNode(c, x, y, note)) == TernaryNode(Strip(c), Strip(x), Strip(y), Unknown)
  {
  }

  lemma PairStrip(l: Node, r: Node)
    ensures var a := SettleTo(l, r.note);
            Strip(a.node) == Strip(l) && Strip(SettleTo(r, a.node.note).node) == Strip(r)
  {
    var a := SettleTo(l, r.note);
    if r.note.Typed? {
      PinStrip(l, r.note.t);
    }
    if a.node.note.Typed? {
      PinStrip(r, a.node.note.t);
    }
  }

  lemma {:induction false} StripShape(n: Node)
    ensures Literal(Strip(n)) == Literal(n) && CastsTyped(Strip(n)) == CastsTyped(n)
  {
    match n
    case CastNode(_, x, _) => StripShape(x);
    case UnaryNode(_, x, _) => StripShape(x);
    case BinaryNode(_, l, r, _) => StripShape(l); StripShape(r);
    case TernaryNode(c, x, y, _) => StripShape(c); StripShape(x); StripShape(y);
    case _ =>
  }

  // ----------------------------------------------------------- annotated trees

  // Untyped throughout; only the condition of a ternary is typed.
  predicate UntypedTree(n: Node)
    decreases n, 0
  {
    && n.note.Untyped?
    && match n
       case LitNode(v, k) => k.constValue == v < Pow2(WORD)
       case UnaryNode(_, x, _) => UntypedTree(x)
       case BinaryNode(_, l, r, _) => UntypedTree(l) && UntypedTree(r)
       case TernaryNode(c, x, y, _) => Sound(c) && c.note == Typed(U1) && UntypedTree(x) && UntypedTree(y)
       case _ => false
  }

  // An untyped tree given one type throughout.
  predicate PinnedTree(n: Node, t: Type)
    decreases n, 0
  {
    && n.note == Typed(t)
    && match n
       case LitNode(v, _) => v < Pow2(WORD)
       case UnaryNode(_, x, _) => PinnedTree(x, t)
       case BinaryNode(_, l, r, _) => PinnedTree(l, t) && PinnedTree(r, t)
       case TernaryNode(c, x, y, _) => Sound(c) && c.note == Typed(U1) && PinnedTree(x, t) && PinnedTree(y, t)
       case _ => false
  }

  // Every node has the type of the operator table, or belongs to a pinned tree.
  // The operand of a cast may have stayed untyped.
  predicate Sound(n: Node)
    decreases n, 1
  {
    && n.note.Typed? && n.note.t.width > 0
    && (PinnedTree(n, n.note.t) || TableTyped(n))
  }

  // An untyped operand has taken the type of the other, typed one.
  predicate Balanced(l: Node, r: Node) {
    (Literal(l) ==> !Literal(r) && l.note == r.note) && (Literal(r) ==> !Literal(l) && r.note == l.note)
  }

  predicate TableTyped(n: Node)
    requires n.note.Typed?
    decreases n, 0
  {
    var t := n.note.t;
    match n
    case LitNode(_, _) => false
    case NameNode(sym, _) => t == sym.ty && TypeOk(t)
    case CastNode(target, x, _) => t == target && TypeOk(t) && (if Literal(x) then UntypedTree(x) else Sound(x))
    case UnaryNode(op, x, _) => Sound(x) && !Literal(x) && t == UnaryRule(op, x.note.t)
    case BinaryNode(op, l, r, _) =>
      && Sound(l) && Sound(r) && Balanced(l, r)
      && (l.note.t.signed == r.note.t.signed || Shift(op))
      && t == WidthRule(op, l.note.t, r.note.t) && t.width <= WORD
    case TernaryNode(c, x, y, _) =>
      && Sound(c) && Sound(x) && Sound(y) && c.note == Typed(U1) && Balanced(x, y)
      && x.note.t.signed == y.note.t.signed
      && t == Type(Max(x.note.t.width, y.note.t.width), x.note.t.signed)
  }

  lemma {:induction false} PinSound(n: Node, t: Type)
    requires UntypedTree(n)
    ensures PinnedTree(Pin(n, t), t) && Literal(Pin(n, t))
  {
    match n
    case LitNode(_, _) =>
    case UnaryNode(_, x, _) => PinSound(x, t);
    case BinaryNode(_, l, r, _) => PinSound(l, t); PinSound(r, t);
    case TernaryNode(_, x, y, _) => PinSound(x, t); PinSound(y, t);
  }

  predicate Annotated(n: Node) {
    if Literal(n) then UntypedTree(n) else Sound(n)
  }

  lemma {:induction false} UntypedLiteral(n: Node)
    requires UntypedTree(n)
    ensures Literal(n)
  {
    match n
    case LitNode(_, _) =>
    case UnaryNode(_, x, _) => UntypedLiteral(x);
    case BinaryNode(_, l, r, _) => UntypedLiteral(l); UntypedLiteral(r);
    case TernaryNode(_, x, y, _) => UntypedLiteral(x); UntypedLiteral(y);
  }

  lemma SettleSound(n: Node, t: Type)
    requires Annotated(n) && t.width > 0 && Settle(n, t).ok
    ensures Sound(Settle(n, t).node)
    ensures var note := Settle(n, t).node.note; note.Typed? && Assignable(note.t, t)
  {
    if UntypedTree(n) {
      PinSound(n, t);
    }
  }

  // Accepted inference yields a soundly typed tree, or an untyped one.
  lemma {:induction false} InferSound(n: Node)
    requires Fresh(n) && Infer(n).ok
    ensures Annotated(Infer(n).node)
  {
    match n
    case LitNode(_, _) =>
    case NameNode(_, _) =>
    case CastNode(_, x, _) => InferSound(x);
    case UnaryNode(_, x, _) => InferSound(x);
    case BinaryNode(op, l, r, _) =>
      InferSound(l);
      InferSound(r);
      CombineSound(op, Infer(l).node, Infer(r).node, Infer(l).ok && Infer(r).ok);
    case TernaryNode(c, x, y, _) =>
      InferSound(c);
      SettleSound(Infer(c).node, U1);
      InferSound(x);
      InferSound(y);
      ChooseSound(CheckExpr(c, U1).node, Infer(x).node, Infer(y).node, Infer(x).ok && Infer(y).ok);
  }

  lemma CombineSound(op: BinOp, l: Node, r: Node, ok: bool)
    requires Annotated(l) && Annotated(r) && Combine(op, l, r, ok).ok
    ensures Annotated(Combine(op, l, r, ok).node)
  {
    hide Sound, UntypedTree, SettleTo, Pow2, WidthRule;
    Notes(l);
    Notes(r);
    if !(l.note.Untyped? && r.note.Untyped?) {
      PairSound(l, r);
      var a := SettleTo(l, r.note);
      var b := SettleTo(r, a.node.note);
      TableSound(BinaryNode(op, a.node, b.node, Typed(WidthRule(op, a.node.note.t, b.node.note.t))));
    } else {
      BothUntyped(op, l, r);
    }
  }

  lemma ChooseSound(c: Node, x: Node, y: Node, ok: bool)
    requires Sound(c) && c.note == Typed(U1)
    requires Annotated(x) && Annotated(y) && Choose(c, x, y, ok).ok
    ensures Annotated(Choose(c, x, y, ok).node)
  {
    hide Sound, SettleTo, Pow2;
    Notes(x);
    Notes(y);
    if !(x.note.Untyped? && y.note.Untyped?) {
      PairSound(x, y);
      var a := SettleTo(x, y.note);
      var b := SettleTo(y, a.node.note);
      var lt, rt := a.node.note.t, b.node.note.t;
      TableSound(TernaryNode(c, a.node, b.node, Typed(Type(Max(lt.width, rt.width), lt.signed))));
    }
  }

  // An annotated node is typed or untyped, never unknown.
  lemma Notes(n: Node)
    requires Annotated(n)
    ensures Literal(n) <==> n.note.Untyped?
    ensures n.note.Typed? ==> Sound(n)
    ensures n.note.Untyped? ==> UntypedTree(n)
    ensures n.note != Unknown
  {
  }

  lemma TableSound(n: Node)
    requires n.note.Typed? && TableTyped(n)
    ensures Sound(n)
  {
    match n
    case BinaryNode(op, l, r, _) =>
      SoundWidth(l);
      SoundWidth(r);
    case TernaryNode(_, x, _, _) =>
      SoundWidth(x);
    case UnaryNode(_, x, _) =>
      SoundWidth(x);
    case _ =>
  }

  lemma SoundWidth(n: Node)
    requires Sound(n)
    ensures n.note.Typed? && n.note.t.width > 0
  {
  }

  lemma BothUntyped(op: BinOp, l: Node, r: Node)
    requires UntypedTree(l) && UntypedTree(r)
    ensures UntypedTree(BinaryNode(op, l, r, Untyped(ConstOf(op, l.note.constValue, r.note.constValue))))
  {
    hide ConstOf;
  }

  lemma PairSound(l: Node, r: Node)
    requires Annotated(l) && Annotated(r) && (l.note.Typed? || r.note.Typed?)
    ensures var a := SettleTo(l, r.note); var b := SettleTo(r, a.node.note);
            && (a.ok && b.ok ==> Sound(a.node) && Sound(b.node) && Balanced(a.node, b.node))
            && (l.note.Typed? ==> a.node == l) && (r.note.Typed? ==> b.node == r)
  {
    if l.note.Untyped? {
      PinSound(l, r.note.t);
    }
    var a := SettleTo(l, r.note);
    if r.note.Untyped? {
      PinSound(r, a.node.note.t);
    }
  }

  // ------------------------------------------------------------- the typed tree

  // The expression the back end sees: none while a node is untyped.
  function Erase(n: Node): Option<Expr> {
    if !n.note.Typed? then None
    else
      var ty := n.note.t;
      match n
      case LitNode(v, _) => Some(IntLit(v, ty))
      case NameNode(sym, _) => Some(NameRef(sym, ty))
      case CastNode(target, x, _) =>
        var e :- Erase(x);
        Some(Cast(target, e, ty))
      case UnaryNode(op, x, _) =>
        var e :- Erase(x);
        Some(Unary(op, e, ty))
      case BinaryNode(op, l, r, _) =>
        var a :- Erase(l);
        var b :- Erase(r);
        Some(Binary(op, a, b, ty))
      case TernaryNode(c, x, y, _) =>
        var k :- Erase(c);
        var a :- Erase(x);
        var b :- Erase(y);
        Some(Ternary(k, a, b, ty))
  }

  // The tree with its annotations, for a pass that reads an untyped node at some
  // type of its own.
  function ReadAt(n: Node, untyped: Type): Expr {
    var ty := if n.note.Typed? then n.note.t else untyped;
    match n
    case LitNode(v, _) => IntLit(v, ty)
    case NameNode(sym, _) => NameRef(sym, ty)
    case CastNode(target, x, _) => Cast(target, ReadAt(x, untyped), ty)
    case UnaryNode(op, x, _) => Unary(op, ReadAt(x, untyped), ty)
    case BinaryNode(op, l, r, _) => Binary(op, ReadAt(l, untyped), ReadAt(r, untyped), ty)
    case TernaryNode(c, x, y, _) => Ternary(ReadAt(c, untyped), ReadAt(x, untyped), ReadAt(y, untyped), ty)
  }

  // Constant folding reads an untyped literal as a 128-bit unsigned number.
  const WIDE := Type(WORD, false)

  function AsFolded(n: Node): Expr {
    ReadAt(n, WIDE)
  }

  lemma FoldedType(n: Node)
    ensures AsFolded(n).ty == if n.note.Typed? then n.note.t else WIDE
  {
  }

  lemma {:induction false} FoldedShape(n: Node)
    ensures PolyShape(AsFolded(n)) == Literal(n)
  {
    match n
    case UnaryNode(_, x, _) => FoldedShape(x);
    case BinaryNode(_, l, r, _) => FoldedShape(l); FoldedShape(r);
    case TernaryNode(_, x, y, _) => FoldedShape(x); FoldedShape(y);
    case _ =>
  }

  // Where nothing stays untyped a tree so read is the typed tree.
  lemma {:induction false} ReadErased(n: Node, untyped: Type)
    requires Erase(n).Some?
    ensures ReadAt(n, untyped) == Erase(n).value
  {
    match n
    case CastNode(_, x, _) => ReadErased(x, untyped);
    case UnaryNode(_, x, _) => ReadErased(x, untyped);
    case BinaryNode(_, l, r, _) => ReadErased(l, untyped); ReadErased(r, untyped);
    case TernaryNode(c, x, y, _) => ReadErased(c, untyped); ReadErased(x, untyped); ReadErased(y, untyped);
    case _ =>
  }

  // No negation leaves the 128-bit range, which the checker does not test.
  predicate NegationsFit(n: Node) {
    match n
    case LitNode(_, _) => true
    case NameNode(_, _) => true
    case CastNode(_, x, _) => NegationsFit(x)
    case UnaryNode(_, x, note) => NegationsFit(x) && (note.Typed? ==> note.t.width <= WORD)
    case BinaryNode(_, l, r, _) => NegationsFit(l) && NegationsFit(r)
    case TernaryNode(c, x, y, _) => NegationsFit(c) && NegationsFit(x) && NegationsFit(y)
  }

  lemma {:induction false} PinnedErases(n: Node, t: Type)
    requires PinnedTree(n, t)
    ensures Erase(n).Some? <==> CastsTyped(n)
    ensures Literal(n)
    ensures Erase(n).Some? ==> PolyShape(Erase(n).value)
    decreases n, 0
  {
    match n
    case LitNode(_, _) =>
    case UnaryNode(_, x, _) => PinnedErases(x, t);
    case BinaryNode(_, l, r, _) => PinnedErases(l, t); PinnedErases(r, t);
    case TernaryNode(c, x, y, _) => SoundErases(c); PinnedErases(x, t); PinnedErases(y, t);
  }

  // Nothing stays untyped, exactly when no cast is applied to an untyped constant.
  lemma {:induction false} SoundErases(n: Node)
    requires Sound(n)
    ensures Erase(n).Some? <==> CastsTyped(n)
    decreases n, 1
  {
    if PinnedTree(n, n.note.t) {
      PinnedErases(n, n.note.t);
    } else {
      TableErases(n);
    }
  }

  lemma {:induction false} TableErases(n: Node)
    requires n.note.Typed? && TableTyped(n)
    ensures Erase(n).Some? <==> CastsTyped(n)
    decreases n, 0
  {
    match n
    case NameNode(_, _) =>
    case CastNode(_, x, _) =>
      if !Literal(x) {
        SoundErases(x);
      }
    case UnaryNode(_, x, _) => SoundErases(x);
    case BinaryNode(_, l, r, _) => SoundErases(l); SoundErases(r);
    case TernaryNode(c, x, y, _) => SoundErases(c); SoundErases(x); SoundErases(y);
  }

  // A typed operand is within 128 bits unless a negation left them.
  lemma {:induction false} TypedWidth(n: Node)
    requires Sound(n) && !Literal(n) && NegationsFit(n)
    ensures n.note.t.width <= WORD
  {
    if PinnedTree(n, n.note.t) {
      PinnedErases(n, n.note.t);
    } else {
      match n
      case UnaryNode(_, x, _) => TypedWidth(x);
      case TernaryNode(_, x, y, _) =>
        if !Literal(x) {
          TypedWidth(x);
        }
        if !Literal(y) {
          TypedWidth(y);
        }
      case _ =>
    }
  }

  // An untyped tree, read at one type.
  lemma {:induction false} UntypedChecked(n: Node)
    requires UntypedTree(n)
    ensures Checked(AsFolded(n)) <==> NegationsFit(n)
    decreases n, 0
  {
    hide Sound, Literal, WidthRule, UnaryRule;
    UntypedLiteral(n);
    FoldedShape(n);
    match n
    case LitNode(_, _) =>
    case UnaryNode(_, x, _) =>
      UntypedChecked(x);
      FoldedType(x);
    case BinaryNode(_, l, r, _) =>
      UntypedChecked(l);
      UntypedChecked(r);
      FoldedType(l);
      FoldedType(r);
    case TernaryNode(c, x, y, _) =>
      SoundChecked(c);
      UntypedChecked(x);
      UntypedChecked(y);
      FoldedType(c);
      FoldedType(x);
      FoldedType(y);
  }

  lemma {:induction false} PinnedChecked(n: Node, t: Type)
    requires PinnedTree(n, t) && t.width > 0
    ensures Checked(AsFolded(n)) <==> NegationsFit(n) && t.width <= WORD
    decreases n, 0
  {
    hide Sound, WidthRule, UnaryRule;
    PinnedErases(n, t);
    FoldedShape(n);
    match n
    case LitNode(_, _) =>
    case UnaryNode(_, x, _) =>
      PinnedChecked(x, t);
      FoldedType(x);
    case BinaryNode(_, l, r, _) =>
      PinnedChecked(l, t);
      PinnedChecked(r, t);
      FoldedType(l);
      FoldedType(r);
    case TernaryNode(c, x, y, _) =>
      SoundChecked(c);
      PinnedChecked(x, t);
      PinnedChecked(y, t);
      FoldedType(c);
      FoldedType(x);
      FoldedType(y);
  }

  // The checked tree obeys the operator table as soon as its negations fit.
  lemma {:induction false} SoundChecked(n: Node)
    requires Sound(n)
    ensures Checked(AsFolded(n)) <==> NegationsFit(n) && n.note.t.width <= WORD
    decreases n, 2
  {
    if PinnedTree(n, n.note.t) {
      PinnedChecked(n, n.note.t);
    } else {
      TableChecked(n);
    }
  }

  lemma {:induction false} TableChecked(n: Node)
    requires n.note.Typed? && n.note.t.width > 0 && TableTyped(n)
    ensures Checked(AsFolded(n)) <==> NegationsFit(n) && n.note.t.width <= WORD
    decreases n, 1
  {
    match n
    case NameNode(_, _) =>
    case CastNode(_, x, _) =>
      FoldedType(x);
      if Literal(x) {
        UntypedChecked(x);
      } else {
        SoundChecked(x);
        if NegationsFit(x) {
          TypedWidth(x);
        }
      }
    case UnaryNode(_, x, _) =>
      FoldedType(x);
      FoldedShape(x);
      SoundChecked(x);
      if NegationsFit(x) {
        TypedWidth(x);
      }
    case BinaryNode(_, l, r, _) => BinaryChecked(n);
    case TernaryNode(c, x, y, _) => TernaryChecked(n);
  }

  lemma PairWidths(l: Node, r: Node)
    requires Sound(l) && Sound(r) && Balanced(l, r) && NegationsFit(l) && NegationsFit(r)
    ensures l.note.t.width <= WORD && r.note.t.width <= WORD
  {
    if !Literal(l) {
      TypedWidth(l);
    }
    if !Literal(r) {
      TypedWidth(r);
    }
  }

  lemma {:induction false} BinaryChecked(n: Node)
    requires n.BinaryNode? && n.note.Typed? && n.note.t.width > 0 && TableTyped(n)
    ensures Checked(AsFolded(n)) <==> NegationsFit(n) && n.note.t.width <= WORD
    decreases n, 0
  {
    hide Sound, Literal, WidthRule, PolyShape;
    FoldedType(n.l);
    FoldedType(n.r);
    SoundWidth(n.l);
    SoundWidth(n.r);
    SoundChecked(n.l);
    SoundChecked(n.r);
    if NegationsFit(n) {
      PairWidths(n.l, n.r);
    }
  }

  lemma {:induction false} TernaryChecked(n: Node)
    requires n.TernaryNode? && n.note.Typed? && n.note.t.width > 0 && TableTyped(n)
    ensures Checked(AsFolded(n)) <==> NegationsFit(n) && n.note.t.width <= WORD
    decreases n, 0
  {
    hide Sound, Literal, PolyShape;
    FoldedType(n.c);
    FoldedType(n.t);
    FoldedType(n.e);
    SoundWidth(n.c);
    SoundWidth(n.t);
    SoundWidth(n.e);
    SoundChecked(n.c);
    SoundChecked(n.t);
    SoundChecked(n.e);
    if NegationsFit(n) {
      PairWidths(n.t, n.e);
    }
  }

  // ------------------------------------------------------------------ the theorems

  lemma {:induction false} FreshStrip(n: Node)
    requires Fresh(n)
    ensures Strip(n) == n
  {
    match n
    case CastNode(_, x, _) => FreshStrip(x);
    case UnaryNode(_, x, _) => FreshStrip(x);
    case BinaryNode(_, l, r, _) => FreshStrip(l); FreshStrip(r);
    case TernaryNode(c, x, y, _) => FreshStrip(c); FreshStrip(x); FreshStrip(y);
    case _ =>
  }

  // An accepted expression is the tree it was, fully typed exactly when no cast is
  // applied to an untyped constant.  Read as folding reads it, which is the typed
  // tree when there is one, it obeys the operator table exactly when its negations
  // fit 128 bits, and it may be stored in the expected type.
  lemma AcceptedIsChecked(n: Node, expected: Type)
    requires Fresh(n) && TypeOk(expected) && CheckExpr(n, expected).ok
    ensures var m := CheckExpr(n, expected).node;
            && Strip(m) == n
            && (Erase(m).Some? <==> CastsTyped(n))
            && (Checked(AsFolded(m)) <==> NegationsFit(m))
            && (Erase(m).Some? ==> Erase(m).value == AsFolded(m))
            && Assignable(AsFolded(m).ty, expected)
  {
    hide Infer, Sound, UntypedTree, Checked, NegationsFit, CastsTyped, Literal;
    var a, m := Infer(n).node, CheckExpr(n, expected).node;
    FreshStrip(n);
    InferStrip(n);
    PinStrip(a, expected);
    InferSound(n);
    SettleSound(a, expected);
    StripShape(n);
    StripShape(m);
    SoundErases(m);
    SoundChecked(m);
    FoldedType(m);
    if Erase(m).Some? {
      ReadErased(m, WIDE);
    }
  }
}
