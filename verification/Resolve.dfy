/**
 Name resolution for the scalar language, in environment-passing style: what is
 visible is handed down and never restored.  The resolver of src/sema/resolver.cpp
 keeps a mutable stack of scopes instead; Resolver.dfy proves that it agrees.
 */
module Resolve {
  import opened FixedWidth
  import Ast
  import opened Syntax
  import opened Wrappers

  // SymbolKind, the scalar kinds
  datatype Kind = GlobalConst | ScalarParam | Local | InductionVar

  datatype Entry = Entry(sym: Ast.Symbol, kind: Kind)

  type Visible = map<string, Entry>

  // What is visible, which of it the current scope declared, and the number of the
  // next symbol.
  datatype Scope = Scope(visible: Visible, here: set<string>, next: nat)

  // Things resolved in order, and the scope after them.
  datatype Listed<A> = Listed(items: seq<A>, scope: Scope)

  datatype Declared = Declared(sym: Ast.Symbol, scope: Scope)

  // An annotation a later pass fills in.
  const NO_TYPE := Ast.U1

  function Declare(kind: Kind, name: string, t: Type, sc: Scope): Option<Declared> {
    if name in sc.here then None
    else
      var sym := Ast.Symbol(sc.next, t);
      Some(Declared(sym, Scope(sc.visible[name := Entry(sym, kind)], sc.here + {name}, sc.next + 1)))
  }

  function Lookup(name: string, visible: Visible): Option<Entry> {
    if name in visible then Some(visible[name]) else None
  }

  // resolveExpr, src/sema/resolver.cpp:108-150
  function ResolveExpr(e: Expr, visible: Visible): Option<Ast.Expr> {
    match e
    case IntLit(v) => Some(Ast.IntLit(v, NO_TYPE))
    case NameRef(name) =>
      var entry :- Lookup(name, visible);
      Some(Ast.NameRef(entry.sym, NO_TYPE))
    case Index(_, _) => None
    case Cast(t, x) =>
      var a :- ResolveExpr(x, visible);
      Some(Ast.Cast(t, a, NO_TYPE))
    case Unary(op, x) =>
      var a :- ResolveExpr(x, visible);
      Some(Ast.Unary(op, a, NO_TYPE))
    case Binary(op, l, r) =>
      var a :- ResolveExpr(l, visible);
      var b :- ResolveExpr(r, visible);
      Some(Ast.Binary(op, a, b, NO_TYPE))
    case Ternary(c, x, y) =>
      var k :- ResolveExpr(c, visible);
      var a :- ResolveExpr(x, visible);
      var b :- ResolveExpr(y, visible);
      Some(Ast.Ternary(k, a, b, NO_TYPE))
  }

  datatype Resolved = Resolved(stmt: Ast.Stmt, scope: Scope)
  datatype ResolvedElse = ResolvedElse(e: Ast.Else, scope: Scope)

  // A loop variable and a constant cannot be assigned.
  predicate Writable(kind: Kind) {
    kind == Local || kind == ScalarParam
  }

  // resolveStmt, src/sema/resolver.cpp:152-239
  function ResolveStmt(s: Stmt, sc: Scope): Option<Resolved>
    decreases s, 0
  {
    match s
    case VarDecl(t, name, Value(init)) =>
      var e :- ResolveExpr(init, sc.visible);
      var d :- Declare(Local, name, t, sc);
      Some(Resolved(Ast.VarDecl(d.sym, e), d.scope))
    case Assign(name, None, Value(value)) =>
      var entry :- Lookup(name, sc.visible);
      var e :- ResolveExpr(value, sc.visible);
      if Writable(entry.kind) then Some(Resolved(Ast.Assign(entry.sym, e), sc)) else None
    case If(c, t, e) =>
      var cond :- ResolveExpr(c, sc.visible);
      var b :- ResolveBlock(t, Inner(sc));
      var f :- ResolveElse(e, sc.(next := b.scope.next));
      Some(Resolved(Ast.If(cond, b.items, f.e), f.scope))
    case For(_, t, iv, start, rel, limit, isAdd, step, body) =>
      var init :- ResolveExpr(start, sc.visible);
      var d :- Declare(InductionVar, iv, t, Inner(sc));
      var lim :- ResolveExpr(limit, d.scope.visible);
      var k :- ResolveExpr(step, d.scope.visible);
      var b :- ResolveBlock(body, d.scope);
      Some(Resolved(Ast.For(d.sym, init, rel, lim, isAdd, k, 0, false, b.items), sc.(next := b.scope.next)))
    case Return(v) =>
      var e :- ResolveExpr(v, sc.visible);
      Some(Resolved(Ast.Return(e), sc))
    case Block(stmts) =>
      var b :- ResolveBlock(stmts, Inner(sc));
      Some(Resolved(Ast.Block(b.items), sc.(next := b.scope.next)))
    case _ => None
  }

  // A new, empty scope inside sc.
  function Inner(sc: Scope): Scope {
    sc.(here := {})
  }

  function ResolveElse(e: Else, sc: Scope): Option<ResolvedElse>
    decreases e, 1
  {
    match e
    case NoElse => Some(ResolvedElse(Ast.NoElse, sc))
    case ElseDo(s) =>
      var r :- ResolveStmt(s, sc);
      Some(ResolvedElse(Ast.ElseDo(r.stmt), r.scope))
  }

  function ResolveBlock(b: seq<Stmt>, sc: Scope): Option<Listed<Ast.Stmt>>
    decreases b, 0
  {
    if b == [] then Some(Listed([], sc))
    else
      var first :- ResolveStmt(b[0], sc);
      var rest :- ResolveBlock(b[1..], first.scope);
      Some(Listed([first.stmt] + rest.items, rest.scope))
  }

  // ------------------------------------------------------------- symbols are fresh

  // Symbols numbered in [low, high).
  predicate Within(syms: set<Ast.Symbol>, low: nat, high: nat) {
    forall x | x in syms :: low <= x.id < high
  }

  predicate Older(sc: Scope) {
    forall name | name in sc.visible :: sc.visible[name].sym.id < sc.next
  }

  // A statement declares only symbols made while resolving it, each once, and
  // assigns no symbol made later.
  lemma {:induction false} StmtFresh(s: Stmt, sc: Scope)
    requires Older(sc) && ResolveStmt(s, sc).Some?
    ensures var r := ResolveStmt(s, sc).value;
            && Older(r.scope) && sc.next <= r.scope.next
            && Within(Ast.Decls(r.stmt), sc.next, r.scope.next)
            && Within(Ast.Assigned(r.stmt), 0, r.scope.next)
            && Ast.UniqueDecls(r.stmt)
    decreases s, 0
  {
    hide ResolveExpr;
    match s
    case VarDecl(_, _, _) =>
    case If(_, t, e) =>
      BlockFresh(t, Inner(sc));
      ElseFresh(e, sc.(next := ResolveBlock(t, Inner(sc)).value.scope.next));
    case For(_, t, iv, _, _, _, _, _, body) =>
      BlockFresh(body, Declare(InductionVar, iv, t, Inner(sc)).value.scope);
    case Block(b) =>
      BlockFresh(b, Inner(sc));
    case _ =>
  }

  lemma {:induction false} ElseFresh(e: Else, sc: Scope)
    requires Older(sc) && ResolveElse(e, sc).Some?
    ensures var r := ResolveElse(e, sc).value;
            && Older(r.scope) && sc.next <= r.scope.next
            && Within(Ast.ElseDecls(r.e), sc.next, r.scope.next)
            && Within(Ast.ElseAssigned(r.e), 0, r.scope.next)
            && Ast.ElseUnique(r.e)
    decreases e, 1
  {
    if e.ElseDo? {
      StmtFresh(e.stmt, sc);
    }
  }

  lemma {:induction false} BlockFresh(b: seq<Stmt>, sc: Scope)
    requires Older(sc) && ResolveBlock(b, sc).Some?
    ensures var r := ResolveBlock(b, sc).value;
            && Older(r.scope) && sc.next <= r.scope.next
            && Within(Ast.BlockDecls(r.items), sc.next, r.scope.next)
            && Within(Ast.BlockAssigned(r.items), 0, r.scope.next)
            && Ast.BlockUnique(r.items)
    decreases b, 0
  {
    if b != [] {
      StmtFresh(b[0], sc);
      var first := ResolveStmt(b[0], sc).value;
      BlockFresh(b[1..], first.scope);
      var rest := ResolveBlock(b[1..], first.scope).value;
      assert ([first.stmt] + rest.items)[1..] == rest.items;
    }
  }

  // ------------------------------------------------------------------ whole programs

  // Every constant is declared before any initialiser is resolved.
  function DeclareConsts(consts: seq<ConstDecl>, sc: Scope): Option<Listed<Ast.Symbol>> {
    if consts == [] then Some(Listed([], sc))
    else if consts[0].ArrayConst? then None
    else
      var d :- Declare(GlobalConst, consts[0].name, consts[0].ty, sc);
      var rest :- DeclareConsts(consts[1..], d.scope);
      Some(Listed([d.sym] + rest.items, rest.scope))
  }

  function DeclareParams(params: seq<Param>, sc: Scope): Option<Listed<Ast.Symbol>> {
    if params == [] then Some(Listed([], sc))
    else if !params[0].Scalar? then None
    else
      var d :- Declare(ScalarParam, params[0].name, params[0].ty, sc);
      var rest :- DeclareParams(params[1..], d.scope);
      Some(Listed([d.sym] + rest.items, rest.scope))
  }

  function ResolveInits(consts: seq<ConstDecl>, sc: Scope): Option<Listed<Ast.Expr>> {
    if consts == [] then Some(Listed([], sc))
    else if consts[0].ArrayConst? then None
    else
      var e :- ResolveExpr(consts[0].init, sc.visible);
      var rest :- ResolveInits(consts[1..], sc);
      Some(Listed([e] + rest.items, sc))
  }

  datatype ResolvedProgram =
    ResolvedProgram(consts: seq<Ast.Symbol>, inits: seq<Ast.Expr>, params: seq<Ast.Symbol>, body: seq<Ast.Stmt>)

  // resolve, src/sema/resolver.cpp:57-106.  The body shares the parameters' scope.
  function ResolveProgram(p: Program): Option<ResolvedProgram> {
    var g :- DeclareConsts(p.consts, Scope(map[], {}, 1));
    var inits :- ResolveInits(p.consts, g.scope);
    var ps :- DeclareParams(p.fn.params, Inner(g.scope));
    var b :- ResolveBlock(p.fn.body, ps.scope);
    Some(ResolvedProgram(g.items, inits.items, ps.items, b.items))
  }

  // Symbols numbered upwards from `low`, each once.
  predicate Rising(syms: seq<Ast.Symbol>, low: nat, high: nat) {
    && (forall i | 0 <= i < |syms| :: low <= syms[i].id < high)
    && (forall i, j | 0 <= i < j < |syms| :: syms[i].id < syms[j].id)
  }

  lemma {:induction false} ConstsRise(consts: seq<ConstDecl>, sc: Scope)
    requires Older(sc) && DeclareConsts(consts, sc).Some?
    ensures var g := DeclareConsts(consts, sc).value;
            Older(g.scope) && sc.next <= g.scope.next && Rising(g.items, sc.next, g.scope.next)
  {
    if consts != [] {
      ConstsRise(consts[1..], Declare(GlobalConst, consts[0].name, consts[0].ty, sc).value.scope);
    }
  }

  lemma {:induction false} ParamsRise(params: seq<Param>, sc: Scope)
    requires Older(sc) && DeclareParams(params, sc).Some?
    ensures var g := DeclareParams(params, sc).value;
            Older(g.scope) && sc.next <= g.scope.next && Rising(g.items, sc.next, g.scope.next)
  {
    if params != [] {
      ParamsRise(params[1..], Declare(ScalarParam, params[0].name, params[0].ty, sc).value.scope);
    }
  }

  // Distinct declarations own distinct symbols: constants, parameters and every
  // local, however they are nested and shadowed.
  lemma ProgramUnique(p: Program)
    requires ResolveProgram(p).Some?
    ensures var r := ResolveProgram(p).value;
            && Ast.BlockUnique(r.body)
            && (forall x | x in r.consts :: x !in r.params && x !in Ast.BlockDecls(r.body))
            && (forall x | x in r.params :: x !in Ast.BlockDecls(r.body))
            && (forall i, j | 0 <= i < j < |r.params| :: r.params[i] != r.params[j])
            && (forall i, j | 0 <= i < j < |r.consts| :: r.consts[i] != r.consts[j])
  {
    hide ResolveExpr, ResolveBlock, DeclareConsts, DeclareParams, ResolveInits, Ast.BlockUnique, Ast.BlockDecls;
    var start := Scope(map[], {}, 1);
    ConstsRise(p.consts, start);
    var g := DeclareConsts(p.consts, start).value;
    ParamsRise(p.fn.params, Inner(g.scope));
    BlockFresh(p.fn.body, DeclareParams(p.fn.params, Inner(g.scope)).value.scope);
  }

  // ------------------------------------------------------- what cannot be assigned

  // No visible name lets x be assigned.
  predicate Protected(visible: Visible, x: Ast.Symbol) {
    forall name | name in visible && visible[name].sym == x :: !Writable(visible[name].kind)
  }

  // Then nothing resolved here assigns it: a new declaration owns another symbol.
  lemma {:induction false} StmtProtects(s: Stmt, sc: Scope, x: Ast.Symbol)
    requires x.id < sc.next && Protected(sc.visible, x) && ResolveStmt(s, sc).Some?
    ensures var r := ResolveStmt(s, sc).value;
            x !in Ast.Assigned(r.stmt) && x.id < r.scope.next && Protected(r.scope.visible, x)
    decreases s, 0
  {
    hide ResolveExpr;
    match s
    case If(_, t, e) =>
      BlockProtects(t, Inner(sc), x);
      ElseProtects(e, sc.(next := ResolveBlock(t, Inner(sc)).value.scope.next), x);
    case For(_, t, iv, _, _, _, _, _, body) =>
      BlockProtects(body, Declare(InductionVar, iv, t, Inner(sc)).value.scope, x);
    case Block(b) => BlockProtects(b, Inner(sc), x);
    case _ =>
  }

  lemma {:induction false} ElseProtects(e: Else, sc: Scope, x: Ast.Symbol)
    requires x.id < sc.next && Protected(sc.visible, x) && ResolveElse(e, sc).Some?
    ensures var r := ResolveElse(e, sc).value;
            x !in Ast.ElseAssigned(r.e) && x.id < r.scope.next && Protected(r.scope.visible, x)
    decreases e, 1
  {
    if e.ElseDo? {
      StmtProtects(e.stmt, sc, x);
    }
  }

  lemma {:induction false} BlockProtects(b: seq<Stmt>, sc: Scope, x: Ast.Symbol)
    requires x.id < sc.next && Protected(sc.visible, x) && ResolveBlock(b, sc).Some?
    ensures var r := ResolveBlock(b, sc).value;
            x !in Ast.BlockAssigned(r.items) && x.id < r.scope.next && Protected(r.scope.visible, x)
    decreases b, 0
  {
    hide ResolveStmt;
    if b != [] {
      StmtProtects(b[0], sc, x);
      var first := ResolveStmt(b[0], sc).value;
      BlockProtects(b[1..], first.scope, x);
      var rest := ResolveBlock(b[1..], first.scope).value;
      assert ([first.stmt] + rest.items)[1..] == rest.items;
    }
  }

  // A loop's variable is never assigned in its body.
  lemma LoopVariableKept(s: Stmt, sc: Scope)
    requires s.For? && Older(sc) && ResolveStmt(s, sc).Some?
    ensures var r := ResolveStmt(s, sc).value.stmt; r.iv !in Ast.BlockAssigned(r.body)
  {
    hide ResolveExpr, ResolveBlock;
    var d := Declare(InductionVar, s.iv, s.ivType, Inner(sc)).value;
    BlockProtects(s.body, d.scope, d.sym);
  }

  lemma {:induction false} ConstsProtected(consts: seq<ConstDecl>, sc: Scope)
    requires DeclareConsts(consts, sc).Some?
    requires forall name | name in sc.visible :: sc.visible[name].kind == GlobalConst
    ensures var v := DeclareConsts(consts, sc).value.scope.visible; forall name | name in v :: v[name].kind == GlobalConst
  {
    if consts != [] {
      ConstsProtected(consts[1..], Declare(GlobalConst, consts[0].name, consts[0].ty, sc).value.scope);
    }
  }

  lemma {:induction false} ParamsProtect(params: seq<Param>, sc: Scope, x: Ast.Symbol)
    requires x.id < sc.next && Protected(sc.visible, x) && DeclareParams(params, sc).Some?
    ensures var g := DeclareParams(params, sc).value.scope; x.id < g.next && Protected(g.visible, x)
  {
    if params != [] {
      ParamsProtect(params[1..], Declare(ScalarParam, params[0].name, params[0].ty, sc).value.scope, x);
    }
  }

  // No constant is ever assigned.
  lemma ConstantsKept(p: Program)
    requires ResolveProgram(p).Some?
    ensures var r := ResolveProgram(p).value; forall x | x in r.consts :: x !in Ast.BlockAssigned(r.body)
  {
    hide ResolveExpr, ResolveBlock, DeclareConsts, DeclareParams, ResolveInits, Ast.BlockAssigned;
    var start := Scope(map[], {}, 1);
    ConstsRise(p.consts, start);
    ConstsProtected(p.consts, start);
    var g := DeclareConsts(p.consts, start).value;
    forall x | x in g.items ensures x !in Ast.BlockAssigned(ResolveProgram(p).value.body) {
      ParamsProtect(p.fn.params, Inner(g.scope), x);
      BlockProtects(p.fn.body, DeclareParams(p.fn.params, Inner(g.scope)).value.scope, x);
    }
  }
}
