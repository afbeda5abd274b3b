/**
 What becomes of an untyped literal (src/sema/type_check.cpp:136-178).  The checker
 compares one constant per untyped tree with the type the tree is given: that
 settles the literals of a tree exactly when there is only one.
 */
module Literals {
  import opened Arith
  import opened FixedWidth
  import opened Ast
  import opened Meaning
  import opened Wrappers
  import opened TypeCheck

  // A literal under prefix operators.
  predicate Chain(n: Node) {
    match n
    case LitNode(_, _) => true
    case UnaryNode(_, x, _) => Chain(x)
    case _ => false
  }

  function ChainValue(n: Node): nat
    requires Chain(n)
  {
    match n
    case LitNode(v, _) => v
    case UnaryNode(_, x, _) => ChainValue(x)
  }

  // A chain is remembered by its literal while untyped, and then is one of its type.
  predicate ChainFits(n: Node)
    requires Chain(n)
  {
    && ChainValue(n) < Pow2(WORD)
    && match n.note
       case Untyped(k) => k == ChainValue(n)
       case Typed(t) => t.width > 0 && InRange(ChainValue(n), t.width, t.signed)
       case Unknown => false
  }

  // Every chain that is not part of a larger untyped tree fits.
  predicate ChainsFit(n: Node)
    decreases n, 1
  {
    if Literal(n) then (Chain(n) ==> ChainFits(n)) && CondsFit(n)
    else
      match n
      case CastNode(_, x, _) => ChainsFit(x)
      case UnaryNode(_, x, _) => ChainsFit(x)
      case BinaryNode(_, l, r, _) => ChainsFit(l) && ChainsFit(r)
      case TernaryNode(c, x, y, _) => ChainsFit(c) && ChainsFit(x) && ChainsFit(y)
      case _ => true
  }

  // The same of the conditions inside an untyped tree.
  predicate CondsFit(n: Node)
    decreases n, 0
  {
    match n
    case UnaryNode(_, x, _) => CondsFit(x)
    case BinaryNode(_, l, r, _) => CondsFit(l) && CondsFit(r)
    case TernaryNode(c, x, y, _) => ChainsFit(c) && CondsFit(x) && CondsFit(y)
    case _ => true
  }

  lemma {:induction false} PinChain(n: Node, t: Type)
    ensures Chain(Pin(n, t)) == Chain(n)
    ensures Chain(n) ==> ChainValue(Pin(n, t)) == ChainValue(n)
    ensures CondsFit(n) ==> CondsFit(Pin(n, t))
  {
    if n.note.Untyped? {
      match n
      case UnaryNode(_, x, _) => PinChain(x, t);
      case BinaryNode(_, l, r, _) => PinChain(l, t); PinChain(r, t);
      case TernaryNode(_, x, y, _) => PinChain(x, t); PinChain(y, t);
      case _ =>
    }
  }

  lemma SettleChains(n: Node, t: Type)
    requires Annotated(n) && ChainsFit(n) && t.width > 0 && Settle(n, t).ok
    ensures ChainsFit(Settle(n, t).node)
  {
    hide Fits, Pow2, InRange;
    Notes(n);
    if n.note.Untyped? {
      PinChain(n, t);
      PinSound(n, t);
      if Chain(n) {
        FitsIff(ChainValue(n), t);
      }
    }
  }

  lemma PairChains(l: Node, r: Node)
    requires Annotated(l) && Annotated(r) && ChainsFit(l) && ChainsFit(r)
    ensures var a := SettleTo(l, r.note); var b := SettleTo(r, a.node.note);
            a.ok && b.ok ==> ChainsFit(a.node) && ChainsFit(b.node)
  {
    hide Settle, Annotated, ChainsFit;
    var a := SettleTo(l, r.note);
    if l.note.Untyped? && r.note.Typed? && r.note.t.width > 0 && a.ok {
      SettleChains(l, r.note.t);
    }
    if r.note.Untyped? && a.node.note.Typed? && a.node.note.t.width > 0 && SettleTo(r, a.node.note).ok {
      SettleChains(r, a.node.note.t);
    }
  }

  lemma BinaryChains(n: Node)
    requires n.BinaryNode? && ChainsFit(n.l) && ChainsFit(n.r)
    ensures ChainsFit(n)
  {
    hide ChainFits;
  }

  lemma TernaryChains(n: Node)
    requires n.TernaryNode? && ChainsFit(n.c) && ChainsFit(n.t) && ChainsFit(n.e)
    ensures ChainsFit(n)
  {
    hide ChainFits;
  }

  lemma CombineChains(op: BinOp, l: Node, r: Node, ok: bool)
    requires Annotated(l) && Annotated(r) && ChainsFit(l) && ChainsFit(r) && Combine(op, l, r, ok).ok
    ensures ChainsFit(Combine(op, l, r, ok).node)
  {
    hide SettleTo, WidthRule, ConstOf, Annotated, ChainsFit, Literal;
    Notes(l);
    Notes(r);
    PairChains(l, r);
    PairShapes(l, r);
    var n := Combine(op, l, r, ok).node;
    BinaryChains(n);
  }

  lemma ChooseChains(c: Node, x: Node, y: Node, ok: bool)
    requires ChainsFit(c) && Annotated(x) && Annotated(y) && ChainsFit(x) && ChainsFit(y) && Choose(c, x, y, ok).ok
    ensures ChainsFit(Choose(c, x, y, ok).node)
  {
    hide SettleTo, Annotated, ChainsFit, Literal;
    Notes(x);
    Notes(y);
    PairChains(x, y);
    PairShapes(x, y);
    var n := Choose(c, x, y, ok).node;
    TernaryChains(n);
  }

  lemma PairShapes(l: Node, r: Node)
    ensures var a := SettleTo(l, r.note);
            Literal(a.node) == Literal(l) && Literal(SettleTo(r, a.node.note).node) == Literal(r)
  {
    hide Literal, SettleTo;
    var a := SettleTo(l, r.note);
    PairStrip(l, r);
    StripShape(l);
    StripShape(a.node);
    StripShape(r);
    StripShape(SettleTo(r, a.node.note).node);
  }

  lemma {:induction false} InferChains(n: Node)
    requires Fresh(n) && Infer(n).ok
    ensures ChainsFit(Infer(n).node)
  {
    hide Annotated, Combine, Choose, Settle;
    InferSound(n);
    match n
    case LitNode(_, _) =>
    case NameNode(_, _) =>
    case CastNode(_, x, _) => InferChains(x);
    case UnaryNode(_, x, _) =>
      InferSound(x);
      InferChains(x);
      Notes(Infer(x).node);
    case BinaryNode(op, l, r, _) =>
      CombineOk(op, Infer(l).node, Infer(r).node, Infer(l).ok && Infer(r).ok);
      InferSound(l);
      InferSound(r);
      InferChains(l);
      InferChains(r);
      CombineChains(op, Infer(l).node, Infer(r).node, Infer(l).ok && Infer(r).ok);
    case TernaryNode(c, x, y, _) =>
      var k, a, b := CheckExpr(c, U1), Infer(x), Infer(y);
      ChooseOk(k.node, a.node, b.node, k.ok && a.ok && b.ok);
      InferSound(c);
      InferChains(c);
      SettleChains(Infer(c).node, U1);
      InferSound(x);
      InferSound(y);
      InferChains(x);
      InferChains(y);
      ChooseChains(k.node, a.node, b.node, k.ok && a.ok && b.ok);
  }

  lemma CombineOk(op: BinOp, l: Node, r: Node, ok: bool)
    ensures Combine(op, l, r, ok).ok ==> ok
  {
  }

  lemma ChooseOk(c: Node, x: Node, y: Node, ok: bool)
    ensures Choose(c, x, y, ok).ok ==> ok
  {
  }

  // In an accepted expression every literal that stands under prefix operators
  // only, and in no larger untyped tree, is a number of its type.
  lemma AcceptedChains(n: Node, expected: Type)
    requires Fresh(n) && TypeOk(expected) && CheckExpr(n, expected).ok
    ensures ChainsFit(CheckExpr(n, expected).node)
  {
    hide Annotated, Infer, Settle, Fresh;
    InferSound(n);
    InferChains(n);
    SettleChains(Infer(n).node, expected);
  }

  // So an accepted -k of a signed type has a number there: no minimum is lost and
  // nothing is cut.
  lemma AcceptedNegation(k: nat, t: Type)
    requires TypeOk(t) && t.signed && k < Pow2(WORD)
    ensures var o := CheckExpr(UnaryNode(UMinus, LitNode(k, Unknown), Unknown), t);
            o.ok <==> k < Pow2(t.width - 1)
    ensures k < Pow2(t.width - 1) ==> InRange(0 - k, t.width, true)
  {
    var lit := LitNode(k, Unknown);
    assert Infer(lit) == Outcome(LitNode(k, Untyped(k)), true);
    FitsIff(k, t);
  }

  // ------------------------------------------------ for which trees literals fit

  // Every typed literal is a number of its type.
  predicate LiteralsFit(n: Node) {
    match n
    case LitNode(v, note) => v < Pow2(WORD) && (note.Typed? ==> note.t.width > 0 && InRange(v, note.t.width, note.t.signed))
    case NameNode(_, _) => true
    case CastNode(_, x, _) => LiteralsFit(x)
    case UnaryNode(_, x, _) => LiteralsFit(x)
    case BinaryNode(_, l, r, _) => LiteralsFit(l) && LiteralsFit(r)
    case TernaryNode(c, x, y, _) => LiteralsFit(c) && LiteralsFit(x) && LiteralsFit(y)
  }

  // Every untyped tree is a chain.
  predicate ChainLiterals(n: Node) {
    if Literal(n) then Chain(n)
    else
      match n
      case CastNode(_, x, _) => ChainLiterals(x)
      case UnaryNode(_, x, _) => ChainLiterals(x)
      case BinaryNode(_, l, r, _) => ChainLiterals(l) && ChainLiterals(r)
      case TernaryNode(c, x, y, _) => ChainLiterals(c) && ChainLiterals(x) && ChainLiterals(y)
      case _ => true
  }

  lemma {:induction false} ChainLiteral(n: Node)
    requires Chain(n)
    ensures Literal(n)
  {
    if n.UnaryNode? {
      ChainLiteral(n.arg);
    }
  }

  lemma {:induction false} StripChains(n: Node)
    ensures Chain(Strip(n)) == Chain(n) && ChainLiterals(Strip(n)) == ChainLiterals(n)
  {
    StripShape(n);
    match n
    case CastNode(_, x, _) => StripChains(x);
    case UnaryNode(_, x, _) => StripChains(x);
    case BinaryNode(_, l, r, _) => StripChains(l); StripChains(r);
    case TernaryNode(c, x, y, _) => StripChains(c); StripChains(x); StripChains(y);
    case _ =>
  }

  lemma {:induction false} PinnedChainFits(n: Node, t: Type)
    requires Chain(n) && (UntypedTree(n) || (PinnedTree(n, t) && ChainFits(n)))
    ensures LiteralsFit(n)
  {
    if n.UnaryNode? {
      PinnedChainFits(n.arg, t);
    }
  }

  lemma {:induction false} SoundChainsFit(n: Node)
    requires Sound(n) || UntypedTree(n)
    requires ChainsFit(n) && ChainLiterals(n)
    ensures LiteralsFit(n)
  {
    if Literal(n) {
      if !UntypedTree(n) {
        LiteralPinned(n);
      }
      PinnedChainFits(n, if n.note.Typed? then n.note.t else U1);
    } else {
      NotPinned(n);
      match n
      case NameNode(_, _) =>
      case CastNode(_, x, _) => SoundChainsFit(x);
      case UnaryNode(_, x, _) => SoundChainsFit(x);
      case BinaryNode(_, l, r, _) => SoundChainsFit(l); SoundChainsFit(r);
      case TernaryNode(c, x, y, _) => SoundChainsFit(c); SoundChainsFit(x); SoundChainsFit(y);
    }
  }

  // A typed literal tree is a pinned one.
  lemma LiteralPinned(n: Node)
    requires Sound(n) && Literal(n)
    ensures PinnedTree(n, n.note.t)
  {
  }

  lemma NotPinned(n: Node)
    requires !Literal(n) && (Sound(n) || UntypedTree(n))
    ensures n.note.Typed? && TableTyped(n)
  {
    if UntypedTree(n) {
      UntypedLiteral(n);
    } else if PinnedTree(n, n.note.t) {
      PinnedErases(n, n.note.t);
    }
  }

  // Where every untyped tree is a chain, an accepted literal is its own value: none
  // is cut to its type.
  lemma AcceptedLiterals(n: Node, expected: Type)
    requires Fresh(n) && ChainLiterals(n) && TypeOk(expected) && CheckExpr(n, expected).ok
    ensures LiteralsFit(CheckExpr(n, expected).node)
  {
    hide Infer, Sound, UntypedTree, ChainsFit, ChainLiterals, LiteralsFit, Settle;
    var a, m := Infer(n).node, CheckExpr(n, expected).node;
    AcceptedChains(n, expected);
    FreshStrip(n);
    InferStrip(n);
    SettleStrip(a, expected);
    StripChains(n);
    StripChains(m);
    InferSound(n);
    SettleSound(a, expected);
    SoundChainsFit(m);
  }

  lemma SettleStrip(n: Node, t: Type)
    requires t.width > 0
    ensures Strip(Settle(n, t).node) == Strip(n)
  {
    PinStrip(n, t);
  }

  // The tree with its untyped literals struck out.
  function Blank(n: Node): Node {
    match n
    case LitNode(_, note) => LitNode(0, note)
    case UnaryNode(op, x, note) => UnaryNode(op, Blank(x), note)
    case BinaryNode(op, l, r, note) => BinaryNode(op, Blank(l), Blank(r), note)
    case TernaryNode(c, x, y, note) => TernaryNode(c, Blank(x), Blank(y), note)
    case _ => n
  }

  // The conditions inside an untyped tree are accepted.
  predicate CondsAccepted(n: Node) {
    match n
    case UnaryNode(_, x, _) => CondsAccepted(x)
    case BinaryNode(_, l, r, _) => CondsAccepted(l) && CondsAccepted(r)
    case TernaryNode(c, x, y, _) => CheckExpr(c, U1).ok && CondsAccepted(x) && CondsAccepted(y)
    case _ => true
  }

  const TOP: nat := Pow2(WORD) - 1

  // Other literals in the same tree, with the constant v.
  function Fill(n: Node, v: nat): Node {
    match n
    case LitNode(_, note) => LitNode(v, note)
    case UnaryNode(op, x, note) => UnaryNode(op, Fill(x, v), note)
    case BinaryNode(op, l, r, note) => BinaryNode(op, Fill(l, v), Fill(r, if op == Star then 1 else 0), note)
    case TernaryNode(c, x, y, note) => TernaryNode(c, Fill(x, 0), Fill(y, v), note)
    case _ => n
  }

  // The constant 0 again, with a literal no narrower type holds.
  function Spoil(n: Node): Node {
    match n
    case UnaryNode(op, x, note) => UnaryNode(op, Spoil(x), note)
    case BinaryNode(Plus, l, r, note) => BinaryNode(Plus, Fill(l, 1), Fill(r, TOP), note)
    case BinaryNode(op, l, r, note) => BinaryNode(op, Fill(l, 0), Fill(r, TOP), note)
    case TernaryNode(c, x, y, note) => TernaryNode(c, Fill(x, TOP), Fill(y, 0), note)
    case _ => n
  }

  // What inference makes of an untyped tree with the constant v.
  predicate InfersTo(n: Node, v: nat) {
    var o := Infer(n);
    o.ok && o.node.note == Untyped(v)
  }

  lemma RoomForOne()
    ensures 1 < Pow2(WORD)
  {
    Pow2Mono(1, WORD);
  }

  lemma {:induction false} FillInfers(n: Node, v: nat)
    requires Literal(n) && Fresh(n) && CondsAccepted(n) && v < Pow2(WORD)
    ensures var m := Fill(n, v); Fresh(m) && Blank(m) == Blank(n) && InfersTo(m, v)
  {
    hide Pow2;
    RoomForOne();
    match n
    case LitNode(_, _) =>
    case UnaryNode(_, x, _) => FillInfers(x, v);
    case BinaryNode(op, l, r, _) =>
      FillInfers(l, v);
      FillInfers(r, if op == Star then 1 else 0);
      ModSmall(v, Pow2(WORD));
    case TernaryNode(_, x, y, _) =>
      FillInfers(x, 0);
      FillInfers(y, v);
  }

  lemma {:induction false} SpoilInfers(n: Node)
    requires Literal(n) && !Chain(n) && Fresh(n) && CondsAccepted(n)
    ensures var m := Spoil(n); Fresh(m) && Blank(m) == Blank(n) && InfersTo(m, 0)
  {
    hide Pow2;
    RoomForOne();
    match n
    case UnaryNode(_, x, _) => SpoilInfers(x);
    case BinaryNode(op, l, r, _) =>
      FillInfers(l, if op == Plus then 1 else 0);
      FillInfers(r, TOP);
      ModOne(Pow2(WORD));
    case TernaryNode(_, x, y, _) =>
      FillInfers(x, TOP);
      FillInfers(y, 0);
  }

  lemma ModOne(m: nat)
    requires m > 0
    ensures (1 + (m - 1)) % m == 0 && 0 * (m - 1) % m == 0 && 0 % m == 0
  {
  }

  // The tree holds the literal v, outside its conditions.
  predicate Contains(n: Node, v: nat) {
    match n
    case LitNode(k, _) => k == v
    case UnaryNode(_, x, _) => Contains(x, v)
    case BinaryNode(_, l, r, _) => Contains(l, v) || Contains(r, v)
    case TernaryNode(_, x, y, _) => Contains(x, v) || Contains(y, v)
    case _ => false
  }

  lemma {:induction false} FillHolds(n: Node, v: nat)
    requires Literal(n)
    ensures Contains(Fill(n, v), v)
  {
    match n
    case UnaryNode(_, x, _) => FillHolds(x, v);
    case BinaryNode(_, l, _, _) => FillHolds(l, v);
    case TernaryNode(_, _, y, _) => FillHolds(y, v);
    case _ =>
  }

  lemma {:induction false} SpoilHolds(n: Node)
    requires Literal(n) && !Chain(n)
    ensures Contains(Spoil(n), TOP)
  {
    match n
    case UnaryNode(_, x, _) => SpoilHolds(x);
    case BinaryNode(_, _, r, _) => FillHolds(r, TOP);
    case TernaryNode(_, x, _, _) => FillHolds(x, TOP);
  }

  lemma {:induction false} StripHolds(n: Node, v: nat)
    ensures Contains(Strip(n), v) == Contains(n, v)
  {
    match n
    case UnaryNode(_, x, _) => StripHolds(x, v);
    case BinaryNode(_, l, r, _) => StripHolds(l, v); StripHolds(r, v);
    case TernaryNode(_, x, y, _) => StripHolds(x, v); StripHolds(y, v);
    case _ =>
  }

  // Pinned to a narrower type, that literal does not fit.
  lemma {:induction false} TopCut(n: Node, t: Type)
    requires PinnedTree(n, t) && Contains(n, TOP) && 0 < t.width < WORD
    ensures !LiteralsFit(n)
  {
    match n
    case LitNode(_, _) => TopOutside(t);
    case UnaryNode(_, x, _) => TopCut(x, t);
    case BinaryNode(_, l, r, _) => if Contains(l, TOP) { TopCut(l, t); } else { TopCut(r, t); }
    case TernaryNode(_, x, y, _) => if Contains(x, TOP) { TopCut(x, t); } else { TopCut(y, t); }
  }

  lemma TopOutside(t: Type)
    requires 0 < t.width < WORD
    ensures !InRange(TOP, t.width, t.signed)
  {
    Pow2Strict(t.width, WORD);
    assert Pow2(t.width) == 2 * Pow2(t.width - 1);
  }

  // A spoilt tree is accepted, and one of its literals is cut.
  lemma SpoiltAccepted(n: Node, t: Type)
    requires Literal(n) && !Chain(n) && Fresh(n) && CondsAccepted(n) && TypeOk(t) && t.width < WORD
    ensures var m := Spoil(n);
            && Fresh(m) && Blank(m) == Blank(n) && CheckExpr(m, t).ok && !LiteralsFit(CheckExpr(m, t).node)
  {
    hide Infer, Pin, Sound, Literal, Fresh, CondsAccepted, Pow2, Spoil, LiteralsFit, PinnedTree, UntypedTree;
    var m := Spoil(n);
    var a := Infer(m).node;
    SpoilInfers(n);
    ZeroFits(t);
    SpoilHolds(n);
    StripHolds(m, TOP);
    InferStrip(m);
    PinStrip(a, t);
    StripHolds(Pin(a, t), TOP);
    InferSound(m);
    Notes(a);
    PinSound(a, t);
    TopCut(Pin(a, t), t);
  }

  lemma ZeroFits(t: Type)
    requires t.width > 0
    ensures Fits(0, t)
  {
  }

  // Acceptance at a type below 128 bits makes every literal of a tree fit, whatever
  // the literals are, exactly when the tree is a chain.
  lemma ChainsIff(n: Node, t: Type)
    requires Literal(n) && Fresh(n) && CondsAccepted(n) && TypeOk(t) && t.width < WORD
    ensures Chain(n) <==>
            forall m | Fresh(m) && Blank(m) == Blank(n) && CheckExpr(m, t).ok :: LiteralsFit(CheckExpr(m, t).node)
  {
    hide CheckExpr, Fresh, LiteralsFit, Literal, CondsAccepted;
    if Chain(n) {
      forall m | Fresh(m) && Blank(m) == Blank(n) && CheckExpr(m, t).ok ensures LiteralsFit(CheckExpr(m, t).node) {
        BlankChain(m);
        BlankChain(n);
        ChainLiteral(m);
        AcceptedLiterals(m, t);
      }
    } else {
      SpoiltAccepted(n, t);
      assert exists m :: Fresh(m) && Blank(m) == Blank(n) && CheckExpr(m, t).ok && !LiteralsFit(CheckExpr(m, t).node);
    }
  }

  lemma {:induction false} BlankChain(n: Node)
    ensures Chain(Blank(n)) == Chain(n)
  {
    if n.UnaryNode? {
      BlankChain(n.arg);
    }
  }

  // One tree that is not: `1 - 300` is accepted as a u8.
  lemma CutLiteral()
    ensures var n := BinaryNode(Minus, LitNode(1, Unknown), LitNode(300, Unknown), Unknown);
            && Fresh(n) && CheckExpr(n, Type(8, false)).ok
            && CheckExpr(n, Type(8, false)).node.r == LitNode(300, Typed(Type(8, false)))
            && !LiteralsFit(CheckExpr(n, Type(8, false)).node)
  {
    assert Pow2(8) == 256;
    Pow2Mono(9, WORD);
    assert Pow2(9) == 512;
    var one, many := LitNode(1, Unknown), LitNode(300, Unknown);
    assert Infer(one) == Outcome(LitNode(1, Untyped(1)), true);
    assert Infer(many) == Outcome(LitNode(300, Untyped(300)), true);
  }
}
