/**
 What the front end hands to the back end: statements resolved, checked and counted.
 Annotation keeps their symbols, resolution of legal text is something the checker
 can be given, and what it accepts within the rules is well typed.
 */
module FrontEnd {
  import opened Arith
  import opened FixedWidth
  import Ast
  import Syntax
  import opened Meaning
  import opened TypeCheck
  import opened Literals
  import opened Rules
  import opened ExecFacts
  import opened Means
  import opened Scoping
  import Written
  import opened ConstFold
  import opened TripCount
  import Resolve
  import LexPrinted
  import LexProgramPrinted
  import ParseProgramPrinted
  import opened Wrappers

  // A resolved expression as the checker first sees it.
  function ToNode(e: Ast.Expr): Node {
    match e
    case IntLit(v, _) => LitNode(v, Unknown)
    case NameRef(sym, _) => NameNode(sym, Unknown)
    case Cast(t, x, _) => CastNode(t, ToNode(x), Unknown)
    case Unary(op, x, _) => UnaryNode(op, ToNode(x), Unknown)
    case Binary(op, l, r, _) => BinaryNode(op, ToNode(l), ToNode(r), Unknown)
    case Ternary(c, x, y, _) => TernaryNode(ToNode(c), ToNode(x), ToNode(y), Unknown)
  }

  // The checker turned e, where `expected` is wanted, into `typed`.
  predicate Checks(e: Ast.Expr, expected: Ast.Type, typed: Ast.Expr)
    requires expected.width > 0
  {
    var o := CheckExpr(ToNode(e), expected);
    o.ok && Erase(o.node) == Some(typed)
  }

  // The tree the checker leaves of e where `expected` is wanted.
  function CheckedNode(e: Ast.Expr, expected: Ast.Type): Node
    requires expected.width > 0
  {
    CheckExpr(ToNode(e), expected).node
  }

  // A loop's limit is only folded, so it may cast an untyped literal.
  predicate ChecksLimit(e: Ast.Expr, expected: Ast.Type, typed: Ast.Expr)
    requires expected.width > 0
  {
    CheckExpr(ToNode(e), expected).ok && typed == AsFolded(CheckedNode(e, expected))
  }

  // evaluateFor, src/sema/const_eval.cpp:170-223: the header folds, and the loop has
  // the count of its values.
  ghost predicate HeaderFolds(init: Ast.Expr, limit: Ast.Expr, step: Ast.Expr, a: Ast.Stmt, defs: Definitions)
    requires a.For? && TypeOk(a.iv.ty)
  {
    exists x: Bits, y: Bits, z: Bits ::
      && Derives(CheckedNode(init, a.iv.ty), defs, x)
      && Derives(CheckedNode(limit, a.iv.ty), defs, y)
      && Derives(CheckedNode(step, a.iv.ty), defs, z)
      && EvaluateFor(a.iv.ty, x, y, z, a.stepIsAdd, a.rel) == Some(a.trip) && a.tripKnown
  }

  // checkStmt, src/sema/type_check.cpp:184-232, and evaluateStmt,
  // src/sema/const_eval.cpp:225-262: `a` is r with its expressions typed and its
  // loops counted.
  ghost predicate ChecksStmt(r: Ast.Stmt, a: Ast.Stmt, returnType: Ast.Type, defs: Definitions)
    requires returnType.width > 0
    decreases r, 0
  {
    match r
    case VarDecl(sym, e) => a.VarDecl? && a.sym == sym && sym.ty.width > 0 && Checks(e, sym.ty, a.init)
    case Assign(sym, e) => a.Assign? && a.sym == sym && sym.ty.width > 0 && Checks(e, sym.ty, a.value)
    case If(c, t, e) =>
      a.If? && Checks(c, Ast.U1, a.cond) && ChecksBlock(t, a.thenB, returnType, defs) && ChecksElse(e, a.elseS, returnType, defs)
    case For(iv, init, rel, limit, isAdd, step, _, _, body) =>
      && a.For? && a.iv == iv && a.rel == rel && a.stepIsAdd == isAdd && TypeOk(iv.ty)
      && Checks(init, iv.ty, a.init) && ChecksLimit(limit, iv.ty, a.limit) && Checks(step, iv.ty, a.step)
      && HeaderFolds(init, limit, step, a, defs) && ChecksBlock(body, a.body, returnType, defs)
    case Return(e) => a.Return? && Checks(e, returnType, a.value)
    case Block(b) => a.Block? && ChecksBlock(b, a.stmts, returnType, defs)
  }

  ghost predicate ChecksElse(r: Ast.Else, a: Ast.Else, returnType: Ast.Type, defs: Definitions)
    requires returnType.width > 0
    decreases r, 1
  {
    match r
    case NoElse => a == Ast.NoElse
    case ElseDo(s) => a.ElseDo? && ChecksStmt(s, a.stmt, returnType, defs)
  }

  ghost predicate ChecksBlock(r: seq<Ast.Stmt>, a: seq<Ast.Stmt>, returnType: Ast.Type, defs: Definitions)
    requires returnType.width > 0
    decreases r, 0
  {
    if r == [] then a == []
    else a != [] && ChecksStmt(r[0], a[0], returnType, defs) && ChecksBlock(r[1..], a[1..], returnType, defs)
  }

  // ------------------------------------------------ annotation keeps the symbols

  lemma {:induction false} SameSymbols(r: Ast.Stmt, a: Ast.Stmt, t: Ast.Type, defs: Definitions)
    requires t.width > 0 && ChecksStmt(r, a, t, defs)
    ensures Ast.Decls(a) == Ast.Decls(r) && Ast.Assigned(a) == Ast.Assigned(r)
    ensures Ast.UniqueDecls(r) ==> Ast.UniqueDecls(a)
    decreases r, 0
  {
    hide Checks, ChecksLimit, HeaderFolds;
    match r
    case If(_, b, e) =>
      SameBlock(b, a.thenB, t, defs);
      SameElse(e, a.elseS, t, defs);
    case For(_, _, _, _, _, _, _, _, body) => SameBlock(body, a.body, t, defs);
    case Block(b) => SameBlock(b, a.stmts, t, defs);
    case _ =>
  }

  lemma {:induction false} SameElse(r: Ast.Else, a: Ast.Else, t: Ast.Type, defs: Definitions)
    requires t.width > 0 && ChecksElse(r, a, t, defs)
    ensures Ast.ElseDecls(a) == Ast.ElseDecls(r) && Ast.ElseAssigned(a) == Ast.ElseAssigned(r)
    ensures Ast.ElseUnique(r) ==> Ast.ElseUnique(a)
    decreases r, 1
  {
    if r.ElseDo? {
      SameSymbols(r.stmt, a.stmt, t, defs);
    }
  }

  lemma {:induction false} SameBlock(r: seq<Ast.Stmt>, a: seq<Ast.Stmt>, t: Ast.Type, defs: Definitions)
    requires t.width > 0 && ChecksBlock(r, a, t, defs)
    ensures Ast.BlockDecls(a) == Ast.BlockDecls(r) && Ast.BlockAssigned(a) == Ast.BlockAssigned(r)
    ensures Ast.BlockUnique(r) ==> Ast.BlockUnique(a)
    decreases r, 0
  {
    if r != [] {
      SameSymbols(r[0], a[0], t, defs);
      SameBlock(r[1..], a[1..], t, defs);
    }
  }

  // ---------------------------------------------- resolution of legal text is fresh

  predicate TypesOk(visible: Resolve.Visible) {
    forall name | name in visible :: TypeOk(visible[name].sym.ty)
  }

  lemma {:induction false} ExprFresh(e: Syntax.Expr, visible: Resolve.Visible)
    requires LexPrinted.LegalExpr(e) && TypesOk(visible) && Resolve.ResolveExpr(e, visible).Some?
    ensures Fresh(ToNode(Resolve.ResolveExpr(e, visible).value))
  {
    hide LexPrinted.LegalName;
    match e
    case IntLit(_) =>
    case NameRef(_) =>
    case Cast(_, x) => ExprFresh(x, visible);
    case Unary(_, x) => ExprFresh(x, visible);
    case Binary(_, l, r) => ExprFresh(l, visible); ExprFresh(r, visible);
    case Ternary(c, x, y) => ExprFresh(c, visible); ExprFresh(x, visible); ExprFresh(y, visible);
  }

  // Every expression of a statement is one the checker can be given.
  predicate FreshStmt(s: Ast.Stmt)
    decreases s, 0
  {
    match s
    case VarDecl(sym, e) => TypeOk(sym.ty) && Fresh(ToNode(e))
    case Assign(sym, e) => TypeOk(sym.ty) && Fresh(ToNode(e))
    case If(c, t, e) => Fresh(ToNode(c)) && FreshBlock(t) && FreshElse(e)
    case For(iv, init, rel, limit, _, step, _, _, body) =>
      && TypeOk(iv.ty) && iv.ty.width < WORD && HeaderOp(rel)
      && Fresh(ToNode(init)) && Fresh(ToNode(limit)) && Fresh(ToNode(step)) && FreshBlock(body)
    case Return(e) => Fresh(ToNode(e))
    case Block(b) => FreshBlock(b)
  }

  predicate FreshElse(e: Ast.Else)
    decreases e, 1
  {
    match e
    case NoElse => true
    case ElseDo(s) => FreshStmt(s)
  }

  predicate FreshBlock(b: seq<Ast.Stmt>)
    decreases b, 0
  {
    b == [] || (FreshStmt(b[0]) && FreshBlock(b[1..]))
  }

  lemma {:induction false} StmtFresh(s: Syntax.Stmt, sc: Resolve.Scope)
    requires LexProgramPrinted.LegalStmt(s) && ParseProgramPrinted.Built(s) && TypesOk(sc.visible) && Resolve.ResolveStmt(s, sc).Some?
    ensures var r := Resolve.ResolveStmt(s, sc).value; FreshStmt(r.stmt) && TypesOk(r.scope.visible)
    decreases s, 1
  {
    hide Resolve.ResolveExpr, LexPrinted.LegalName, LexPrinted.LegalExpr, Fresh, ToNode;
    match s
    case VarDecl(_, _, Value(e)) => ExprFresh(e, sc.visible);
    case Assign(_, None, Value(e)) => ExprFresh(e, sc.visible);
    case If(c, t, e) =>
      ExprFresh(c, sc.visible);
      BlockFresh(t, Resolve.Inner(sc));
      ElseFresh(e, sc.(next := Resolve.ResolveBlock(t, Resolve.Inner(sc)).value.scope.next));
    case For(_, _, _, _, _, _, _, _, _) => LoopFresh(s, sc);
    case Return(e) => ExprFresh(e, sc.visible);
    case Block(b) => BlockFresh(b, Resolve.Inner(sc));
  }

  lemma {:induction false} LoopFresh(s: Syntax.Stmt, sc: Resolve.Scope)
    requires s.For? && LexProgramPrinted.LegalStmt(s) && ParseProgramPrinted.Built(s) && TypesOk(sc.visible) && Resolve.ResolveStmt(s, sc).Some?
    ensures FreshStmt(Resolve.ResolveStmt(s, sc).value.stmt)
    decreases s, 0
  {
    hide Resolve.ResolveExpr, LexPrinted.LegalName, LexPrinted.LegalExpr, Fresh, ToNode, Resolve.ResolveBlock;
    var inner := Resolve.Declare(Resolve.InductionVar, s.iv, s.ivType, Resolve.Inner(sc)).value.scope;
    ExprFresh(s.start, sc.visible);
    ExprFresh(s.limit, inner.visible);
    ExprFresh(s.step, inner.visible);
    BlockFresh(s.body, inner);
  }

  lemma {:induction false} ElseFresh(e: Syntax.Else, sc: Resolve.Scope)
    requires LexProgramPrinted.LegalElse(e) && ParseProgramPrinted.BuiltElse(e) && TypesOk(sc.visible) && Resolve.ResolveElse(e, sc).Some?
    ensures var r := Resolve.ResolveElse(e, sc).value; FreshElse(r.e) && TypesOk(r.scope.visible)
    decreases e, 2
  {
    if e.ElseDo? {
      StmtFresh(e.stmt, sc);
    }
  }

  lemma {:induction false} BlockFresh(b: seq<Syntax.Stmt>, sc: Resolve.Scope)
    requires LexProgramPrinted.LegalBlock(b) && ParseProgramPrinted.BuiltBlock(b) && TypesOk(sc.visible) && Resolve.ResolveBlock(b, sc).Some?
    ensures FreshBlock(Resolve.ResolveBlock(b, sc).value.items)
    decreases b, 0
  {
    if b != [] {
      StmtFresh(b[0], sc);
      var first := Resolve.ResolveStmt(b[0], sc).value;
      BlockFresh(b[1..], first.scope);
      var rest := Resolve.ResolveBlock(b[1..], first.scope).value;
      assert ([first.stmt] + rest.items)[1..] == rest.items;
    }
  }

  // --------------------------------------------------------- regular and typed

  // Every expression of a statement keeps to the rules left to the programmer.
  predicate AllowedStmt(s: Ast.Stmt)
    decreases s, 0
  {
    match s
    case VarDecl(_, e) => Allowed(e)
    case Assign(_, e) => Allowed(e)
    case If(c, t, e) => Allowed(c) && AllowedBlock(t) && AllowedElse(e)
    case For(_, init, _, limit, _, step, _, _, body) =>
      Allowed(init) && Allowed(limit) && Allowed(step) && AllowedBlock(body)
    case Return(e) => Allowed(e)
    case Block(b) => AllowedBlock(b)
  }

  predicate AllowedElse(e: Ast.Else)
    decreases e, 1
  {
    match e
    case NoElse => true
    case ElseDo(s) => AllowedStmt(s)
  }

  predicate AllowedBlock(b: seq<Ast.Stmt>)
    decreases b, 0
  {
    b == [] || (AllowedStmt(b[0]) && AllowedBlock(b[1..]))
  }

  // And its types keep the interpreter within its limits.
  predicate LimitedStmt(s: Ast.Stmt)
    decreases s, 0
  {
    match s
    case VarDecl(_, e) => Limited(e)
    case Assign(_, e) => Limited(e)
    case If(c, t, e) => Limited(c) && LimitedBlock(t) && LimitedElse(e)
    case For(_, init, _, _, _, step, _, _, body) => Limited(init) && Limited(step) && LimitedBlock(body)
    case Return(e) => Limited(e)
    case Block(b) => LimitedBlock(b)
  }

  predicate LimitedElse(e: Ast.Else)
    decreases e, 1
  {
    match e
    case NoElse => true
    case ElseDo(s) => LimitedStmt(s)
  }

  predicate LimitedBlock(b: seq<Ast.Stmt>)
    decreases b, 0
  {
    b == [] || (LimitedStmt(b[0]) && LimitedBlock(b[1..]))
  }

  // A typed expression is the checked tree.
  lemma ChecksRead(e: Ast.Expr, expected: Ast.Type, typed: Ast.Expr)
    requires expected.width > 0 && Checks(e, expected, typed)
    ensures typed == AsFolded(CheckedNode(e, expected))
  {
    hide CheckExpr, ToNode, Erase;
    ReadErased(CheckedNode(e, expected), WIDE);
  }

  lemma CheckedRegular(e: Ast.Expr, expected: Ast.Type, typed: Ast.Expr)
    requires Fresh(ToNode(e)) && TypeOk(expected) && Checks(e, expected, typed) && Allowed(typed)
    ensures Regular(typed) && Assignable(typed.ty, expected)
  {
    hide Fresh, ToNode, CheckExpr, Erase, Allowed, AsFolded;
    ChecksRead(e, expected, typed);
    AcceptedIsRegular(ToNode(e), expected);
  }

  lemma {:induction false} StmtIsRegular(r: Ast.Stmt, a: Ast.Stmt, t: Ast.Type, defs: Definitions)
    requires TypeOk(t) && FreshStmt(r) && ChecksStmt(r, a, t, defs) && AllowedStmt(a)
    ensures RegularStmt(a)
    decreases r, 0
  {
    hide Fresh, ToNode, Checks, ChecksLimit, Allowed, Regular, HeaderFolds;
    match r
    case VarDecl(sym, e) => CheckedRegular(e, sym.ty, a.init);
    case Assign(sym, e) => CheckedRegular(e, sym.ty, a.value);
    case If(c, b, e) =>
      CheckedRegular(c, Ast.U1, a.cond);
      ConditionType(a.cond);
      BlockIsRegular(b, a.thenB, t, defs);
      if e.ElseDo? {
        StmtIsRegular(e.stmt, a.elseS.stmt, t, defs);
      }
    case For(iv, init, _, _, _, step, _, _, body) =>
      CheckedRegular(init, iv.ty, a.init);
      CheckedRegular(step, iv.ty, a.step);
      BlockIsRegular(body, a.body, t, defs);
    case Return(e) => CheckedRegular(e, t, a.value);
    case Block(b) => BlockIsRegular(b, a.stmts, t, defs);
  }

  // Only u1 can be assigned to u1.
  lemma ConditionType(e: Ast.Expr)
    requires Regular(e) && Assignable(e.ty, Ast.U1)
    ensures e.ty == Ast.U1
  {
  }

  lemma {:induction false} BlockIsRegular(r: seq<Ast.Stmt>, a: seq<Ast.Stmt>, t: Ast.Type, defs: Definitions)
    requires TypeOk(t) && FreshBlock(r) && ChecksBlock(r, a, t, defs) && AllowedBlock(a)
    ensures RegularBlock(a)
    decreases r, 0
  {
    if r != [] {
      StmtIsRegular(r[0], a[0], t, defs);
      BlockIsRegular(r[1..], a[1..], t, defs);
    }
  }

  // Regular statements within the limits are well typed.
  lemma {:induction false} StmtIsTyped(s: Ast.Stmt)
    requires RegularStmt(s) && LimitedStmt(s)
    ensures StmtTyped(s)
    decreases s, 0
  {
    hide Regular, Limited, WellTyped;
    match s
    case VarDecl(_, e) => ExprIsTyped(e);
    case Assign(_, e) => ExprIsTyped(e);
    case If(c, t, e) =>
      ExprIsTyped(c);
      BlockIsTyped(t);
      if e.ElseDo? {
        StmtIsTyped(e.stmt);
      }
    case For(_, init, _, _, _, step, _, _, body) =>
      ExprIsTyped(init);
      ExprIsTyped(step);
      BlockIsTyped(body);
    case Return(e) => ExprIsTyped(e);
    case Block(b) => BlockIsTyped(b);
  }

  lemma ExprIsTyped(e: Ast.Expr)
    requires Regular(e) && Limited(e)
    ensures WellTyped(e)
  {
    hide Ruled, Limited, Computable;
    LimitedComputes(e);
  }

  lemma {:induction false} BlockIsTyped(b: seq<Ast.Stmt>)
    requires RegularBlock(b) && LimitedBlock(b)
    ensures BlockTyped(b)
    decreases b, 0
  {
    if b != [] {
      StmtIsTyped(b[0]);
      BlockIsTyped(b[1..]);
    }
  }

  // --------------------------------------------------------------------- scoping

  // The symbols in sight.
  function Shown(visible: Resolve.Visible): set<Ast.Symbol> {
    set name | name in visible :: visible[name].sym
  }

  lemma {:induction false} ResolvedReads(e: Syntax.Expr, visible: Resolve.Visible)
    requires Resolve.ResolveExpr(e, visible).Some?
    ensures Reads(Resolve.ResolveExpr(e, visible).value) <= Shown(visible)
  {
    match e
    case IntLit(_) =>
    case NameRef(_) =>
    case Cast(_, x) => ResolvedReads(x, visible);
    case Unary(_, x) => ResolvedReads(x, visible);
    case Binary(_, l, r) => ResolvedReads(l, visible); ResolvedReads(r, visible);
    case Ternary(c, x, y) => ResolvedReads(c, visible); ResolvedReads(x, visible); ResolvedReads(y, visible);
  }

  lemma {:induction false} StripReads(n: Node)
    ensures NodeReads(Strip(n)) == NodeReads(n) == Reads(AsFolded(n))
  {
    match n
    case CastNode(_, x, _) => StripReads(x);
    case UnaryNode(_, x, _) => StripReads(x);
    case BinaryNode(_, l, r, _) => StripReads(l); StripReads(r);
    case TernaryNode(c, x, y, _) => StripReads(c); StripReads(x); StripReads(y);
    case _ =>
  }

  lemma {:induction false} NodeReadsExpr(e: Ast.Expr)
    ensures NodeReads(ToNode(e)) == Reads(e) && Strip(ToNode(e)) == ToNode(e)
  {
    match e
    case Cast(_, x, _) => NodeReadsExpr(x);
    case Unary(_, x, _) => NodeReadsExpr(x);
    case Binary(_, l, r, _) => NodeReadsExpr(l); NodeReadsExpr(r);
    case Ternary(c, x, y, _) => NodeReadsExpr(c); NodeReadsExpr(x); NodeReadsExpr(y);
    case _ =>
  }

  // Checking reads nothing new.
  lemma ChecksReads(e: Ast.Expr, expected: Ast.Type, typed: Ast.Expr)
    requires expected.width > 0 && Checks(e, expected, typed)
    ensures Reads(typed) == Reads(e)
  {
    hide Infer, Settle, Erase, Strip, Reads, AsFolded;
    var n := ToNode(e);
    ChecksRead(e, expected, typed);
    NodeReadsExpr(e);
    InferStrip(n);
    SettleStrip(Infer(n).node, expected);
    StripReads(CheckedNode(e, expected));
    StripReads(n);
  }

  // Names are resolved to symbols that have a value by then.
  lemma {:induction false} ResolvedScoped(s: Syntax.Stmt, sc: Resolve.Scope, a: Ast.Stmt, t: Ast.Type, defs: Definitions,
                                          vars: set<Ast.Symbol>, rho: Numbers)
    requires t.width > 0 && Resolve.ResolveStmt(s, sc).Some? && ChecksStmt(Resolve.ResolveStmt(s, sc).value.stmt, a, t, defs)
    requires ParseProgramPrinted.Built(s) && Written.StmtCounted(a, rho)
    requires Shown(sc.visible) + rho.Keys <= vars
    ensures Scoped(a, vars) && Shown(Resolve.ResolveStmt(s, sc).value.scope.visible) <= After(a, vars)
    decreases s, 1
  {
    hide Resolve.ResolveExpr, Checks, ChecksLimit, HeaderFolds, Reads, Written.Counted;
    AfterGrows(a, vars);
    match s
    case VarDecl(ty, name, Value(e)) =>
      ReadsShown(e, sc.visible, a.sym.ty, a.init);
      ShownDeclared(sc, Resolve.Local, name, ty);
    case Assign(_, None, Value(e)) => ReadsShown(e, sc.visible, a.sym.ty, a.value);
    case If(c, b, e) =>
      ElseKeepsVisible(e, sc.(next := Resolve.ResolveBlock(b, Resolve.Inner(sc)).value.scope.next));
      ReadsShown(c, sc.visible, Ast.U1, a.cond);
      BlockResolvedScoped(b, Resolve.Inner(sc), a.thenB, t, defs, vars, rho);
      ElseResolvedScoped(e, sc.(next := Resolve.ResolveBlock(b, Resolve.Inner(sc)).value.scope.next), a.elseS, t, defs, vars, rho);
    case For(_, _, _, _, _, _, _, _, _) => LoopResolvedScoped(s, sc, a, t, defs, vars, rho);
    case Return(e) => ReadsShown(e, sc.visible, t, a.value);
    case Block(b) => BlockResolvedScoped(b, Resolve.Inner(sc), a.stmts, t, defs, vars, rho);
  }

  // What the parser lets stand after `else` declares nothing outside itself.
  lemma {:induction false} ElseKeepsVisible(e: Syntax.Else, sc: Resolve.Scope)
    requires ParseProgramPrinted.BuiltElse(e) && Resolve.ResolveElse(e, sc).Some?
    ensures Resolve.ResolveElse(e, sc).value.scope.visible == sc.visible
  {
    hide Resolve.ResolveExpr, Resolve.ResolveBlock;
    if e.ElseDo? && e.stmt.If? {
      ElseKeepsVisible(e.stmt.elseS, sc.(next := Resolve.ResolveBlock(e.stmt.thenB, Resolve.Inner(sc)).value.scope.next));
    }
  }

  lemma ReadsShown(e: Syntax.Expr, visible: Resolve.Visible, expected: Ast.Type, typed: Ast.Expr)
    requires expected.width > 0 && Resolve.ResolveExpr(e, visible).Some?
    requires Checks(Resolve.ResolveExpr(e, visible).value, expected, typed)
    ensures Reads(typed) <= Shown(visible)
  {
    ResolvedReads(e, visible);
    ChecksReads(Resolve.ResolveExpr(e, visible).value, expected, typed);
  }

  lemma ShownDeclared(sc: Resolve.Scope, kind: Resolve.Kind, name: string, ty: Ast.Type)
    requires Resolve.Declare(kind, name, ty, sc).Some?
    ensures var d := Resolve.Declare(kind, name, ty, sc).value; Shown(d.scope.visible) <= Shown(sc.visible) + {d.sym}
  {
  }

  lemma {:induction false} LoopResolvedScoped(s: Syntax.Stmt, sc: Resolve.Scope, a: Ast.Stmt, t: Ast.Type, defs: Definitions,
                                              vars: set<Ast.Symbol>, rho: Numbers)
    requires s.For? && t.width > 0
    requires Resolve.ResolveStmt(s, sc).Some? && ChecksStmt(Resolve.ResolveStmt(s, sc).value.stmt, a, t, defs)
    requires ParseProgramPrinted.Built(s) && Written.StmtCounted(a, rho)
    requires Shown(sc.visible) + rho.Keys <= vars
    ensures Scoped(a, vars)
    decreases s, 0
  {
    hide Resolve.ResolveExpr, Checks, ChecksLimit, HeaderFolds, Reads, Resolve.ResolveBlock, ChecksBlock;
    var inner := Resolve.Declare(Resolve.InductionVar, s.iv, s.ivType, Resolve.Inner(sc)).value.scope;
    ShownDeclared(Resolve.Inner(sc), Resolve.InductionVar, s.iv, s.ivType);
    ReadsShown(s.start, sc.visible, a.iv.ty, a.init);
    BlockResolvedScoped(s.body, inner, a.body, t, defs, vars + {a.iv}, rho);
  }

  lemma {:induction false} ElseResolvedScoped(e: Syntax.Else, sc: Resolve.Scope, a: Ast.Else, t: Ast.Type, defs: Definitions,
                                              vars: set<Ast.Symbol>, rho: Numbers)
    requires t.width > 0 && Resolve.ResolveElse(e, sc).Some? && ChecksElse(Resolve.ResolveElse(e, sc).value.e, a, t, defs)
    requires ParseProgramPrinted.BuiltElse(e) && Written.ElseCounted(a, rho)
    requires Shown(sc.visible) + rho.Keys <= vars
    ensures ScopedElse(a, vars)
    decreases e, 2
  {
    if e.ElseDo? {
      ResolvedScoped(e.stmt, sc, a.stmt, t, defs, vars, rho);
    }
  }

  lemma {:induction false} BlockResolvedScoped(b: seq<Syntax.Stmt>, sc: Resolve.Scope, a: seq<Ast.Stmt>, t: Ast.Type,
                                               defs: Definitions, vars: set<Ast.Symbol>, rho: Numbers)
    requires t.width > 0 && Resolve.ResolveBlock(b, sc).Some? && ChecksBlock(Resolve.ResolveBlock(b, sc).value.items, a, t, defs)
    requires ParseProgramPrinted.BuiltBlock(b) && Written.BlockCounted(a, rho)
    requires Shown(sc.visible) + rho.Keys <= vars
    ensures ScopedBlock(a, vars)
    decreases b, 0
  {
    hide Resolve.ResolveStmt, ChecksStmt, Scoped, After;
    if b != [] {
      var first := Resolve.ResolveStmt(b[0], sc).value;
      var rest := Resolve.ResolveBlock(b[1..], first.scope).value;
      assert ([first.stmt] + rest.items)[1..] == rest.items;
      ResolvedScoped(b[0], sc, a[0], t, defs, vars, rho);
      AfterGrows(a[0], vars);
      BlockResolvedScoped(b[1..], first.scope, a[1..], t, defs, After(a[0], vars), rho);
    }
  }
}
