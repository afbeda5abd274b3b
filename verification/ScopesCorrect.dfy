/**
 Resolution and checking keep what a program says: the resolved, checked and counted
 statements mean, symbol by symbol, what the text means name by name.
 */
module ScopesCorrect {
  import opened Arith
  import opened FixedWidth
  import Ast
  import opened Syntax
  import opened Meaning
  import opened Means
  import opened TypeCheck
  import opened Accepts
  import opened Denotes
  import opened FrontEnd
  import opened ConstFold
  import opened TripCount
  import opened Scopes
  import Resolve
  import Written
  import Returns
  import ParseProgramPrinted
  import opened Wrappers

  // The symbols of the declarations in scope, innermost first.
  datatype Shape = Bottom | Level(own: map<string, Ast.Symbol>, outer: Shape)

  function Seen(name: string, sh: Shape): Option<Ast.Symbol> {
    match sh
    case Bottom => None
    case Level(own, outer) => if name in own then Some(own[name]) else Seen(name, outer)
  }

  function Owned(sh: Shape): set<Ast.Symbol> {
    match sh
    case Bottom => {}
    case Level(own, outer) => own.Values + Owned(outer)
  }

  // Every declaration has a symbol of its own, numbered below next.
  predicate Distinct(sh: Shape, next: nat) {
    match sh
    case Bottom => true
    case Level(own, outer) =>
      && (forall x, y | x in own && y in own && own[x] == own[y] :: x == y)
      && (forall x | x in own :: own[x].id < next && own[x] !in Owned(outer))
      && Distinct(outer, next)
  }

  // Each cell holds its symbol's number, at the symbol's type.
  predicate Tied(fs: Frames, sh: Shape, vars: Numbers) {
    match fs
    case Outside => sh.Bottom?
    case Frame(own, outer) =>
      && sh.Level? && own.Keys == sh.own.Keys
      && (forall x | x in own :: sh.own[x] in vars && own[x] == Cell(sh.own[x].ty, vars[sh.own[x]]))
      && Tied(outer, sh.outer, vars)
  }

  // The resolver sees the declarations of the shape.
  ghost predicate Shows(sh: Shape, sc: Resolve.Scope) {
    && sh.Level? && Distinct(sh, sc.next)
    && forall name: string :: Seen(name, sh) == if name in sc.visible then Some(sc.visible[name].sym) else None
  }

  // ---------------------------------------------------------------------- expressions

  lemma {:induction false} FindTied(name: string, fs: Frames, sh: Shape, vars: Numbers)
    requires Tied(fs, sh, vars)
    ensures Find(name, fs).Some? <==> Seen(name, sh).Some?
    ensures Seen(name, sh).Some? ==>
            var x := Seen(name, sh).value; x in vars && Find(name, fs).value == Cell(x.ty, vars[x])
  {
    if fs.Frame? && name !in fs.own {
      FindTied(name, fs.outer, sh.outer, vars);
    }
  }

  lemma NameTied(name: string, fs: Frames, sh: Shape, sc: Resolve.Scope, vars: Numbers)
    requires Tied(fs, sh, vars) && Shows(sh, sc) && name in sc.visible
    ensures var x := sc.visible[name].sym; Find(name, fs).Some? && x in vars && Find(name, fs).value == Cell(x.ty, vars[x])
  {
    FindTied(name, fs, sh, vars);
  }

  lemma {:induction false} SortNamed(e: Expr, fs: Frames, sh: Shape, sc: Resolve.Scope, vars: Numbers)
    requires Tied(fs, sh, vars) && Shows(sh, sc) && Resolve.ResolveExpr(e, sc.visible).Some?
    ensures SortOf(ToNode(Resolve.ResolveExpr(e, sc.visible).value)) == SortIn(e, fs)
  {
    hide Tied, Shows, UnarySort, BinarySort, ArmSort, Accepts.Usable;
    match e
    case IntLit(_) =>
    case NameRef(name) => NameTied(name, fs, sh, sc, vars);
    case Cast(_, x) => SortNamed(x, fs, sh, sc, vars);
    case Unary(_, x) => SortNamed(x, fs, sh, sc, vars);
    case Binary(_, l, r) =>
      SortNamed(l, fs, sh, sc, vars);
      SortNamed(r, fs, sh, sc, vars);
    case Ternary(c, x, y) =>
      SortNamed(c, fs, sh, sc, vars);
      SortNamed(x, fs, sh, sc, vars);
      SortNamed(y, fs, sh, sc, vars);
  }

  lemma {:induction false} NumberNamed(e: Expr, t: Type, fs: Frames, sh: Shape, sc: Resolve.Scope, vars: Numbers)
    requires Tied(fs, sh, vars) && Shows(sh, sc) && Resolve.ResolveExpr(e, sc.visible).Some?
    ensures Denotes.Denotes(ToNode(Resolve.ResolveExpr(e, sc.visible).value), t, vars) == NumberIn(e, t, fs)
  {
    hide Tied, Shows, SortOf, SortIn, Cut, IdealUnary, Applied;
    match e
    case IntLit(_) =>
    case NameRef(name) => NameTied(name, fs, sh, sc, vars);
    case Cast(_, x) => NumberNamed(x, WIDE, fs, sh, sc, vars);
    case Unary(_, x) =>
      SortNamed(x, fs, sh, sc, vars);
      NumberNamed(x, t, fs, sh, sc, vars);
    case Binary(_, l, r) =>
      SortNamed(l, fs, sh, sc, vars);
      SortNamed(r, fs, sh, sc, vars);
      NumberNamed(l, Taken(SortIn(l, fs), SortIn(r, fs), t), fs, sh, sc, vars);
      NumberNamed(r, Taken(SortIn(r, fs), SortIn(l, fs), t), fs, sh, sc, vars);
    case Ternary(c, x, y) =>
      SortNamed(x, fs, sh, sc, vars);
      SortNamed(y, fs, sh, sc, vars);
      NumberNamed(c, Ast.U1, fs, sh, sc, vars);
      NumberNamed(x, Taken(SortIn(x, fs), SortIn(y, fs), t), fs, sh, sc, vars);
      NumberNamed(y, Taken(SortIn(y, fs), SortIn(x, fs), t), fs, sh, sc, vars);
  }

  // What the checker leaves of a resolved expression has the number of the text.
  lemma LimitNamed(e: Expr, t: Type, typed: Ast.Expr, fs: Frames, sh: Shape, sc: Resolve.Scope, vars: Numbers)
    requires Tied(fs, sh, vars) && Shows(sh, sc) && Resolve.ResolveExpr(e, sc.visible).Some?
    requires var r := Resolve.ResolveExpr(e, sc.visible).value;
             t.width > 0 && Fresh(ToNode(r)) && ChecksLimit(r, t, typed) && Widths(typed)
    ensures Meant(typed, vars) == NumberIn(e, t, fs)
  {
    hide Tied, Shows, Fresh, ToNode, CheckExpr, AsFolded, Widths, Resolve.ResolveExpr, NumberIn, Ideal, Denotes.Denotes;
    CheckedDenotes(ToNode(Resolve.ResolveExpr(e, sc.visible).value), t, vars);
    NumberNamed(e, t, fs, sh, sc, vars);
  }

  lemma ExprNamed(e: Expr, t: Type, typed: Ast.Expr, fs: Frames, sh: Shape, sc: Resolve.Scope, vars: Numbers)
    requires Tied(fs, sh, vars) && Shows(sh, sc) && Resolve.ResolveExpr(e, sc.visible).Some?
    requires var r := Resolve.ResolveExpr(e, sc.visible).value;
             t.width > 0 && Fresh(ToNode(r)) && Checks(r, t, typed) && Regular(typed)
    ensures Meant(typed, vars) == NumberIn(e, t, fs)
  {
    hide Tied, Shows, Fresh, ToNode, CheckExpr, Erase, AsFolded, Resolve.ResolveExpr, NumberIn, Checked, Ruled;
    var r := Resolve.ResolveExpr(e, sc.visible).value;
    ChecksRead(r, t, typed);
    LimitNamed(e, t, typed, fs, sh, sc, vars);
  }

  // --------------------------------------------------------------------------- scopes

  lemma {:induction false} SeenOwned(name: string, sh: Shape)
    requires Seen(name, sh).Some?
    ensures Seen(name, sh).value in Owned(sh)
  {
    if name !in sh.own {
      SeenOwned(name, sh.outer);
    }
  }

  lemma {:induction false} OwnedBelow(sh: Shape, next: nat)
    requires Distinct(sh, next)
    ensures forall x | x in Owned(sh) :: x.id < next
  {
    if sh.Level? {
      OwnedBelow(sh.outer, next);
    }
  }

  lemma {:induction false} DistinctMore(sh: Shape, next: nat, more: nat)
    requires Distinct(sh, next) && next <= more
    ensures Distinct(sh, more)
  {
    if sh.Level? {
      DistinctMore(sh.outer, next, more);
    }
  }

  // A symbol no declaration in scope owns may change.
  lemma {:induction false} TiedApart(fs: Frames, sh: Shape, vars: Numbers, x: Ast.Symbol, n: int)
    requires Tied(fs, sh, vars) && x !in Owned(sh)
    ensures Tied(fs, sh, vars[x := n])
  {
    if fs.Frame? {
      TiedApart(fs.outer, sh.outer, vars, x, n);
      forall y | y in fs.own ensures sh.own[y] != x {
        assert sh.own[y] in sh.own.Values;
      }
    }
  }

  // Storing in the innermost declaration of a name changes its symbol only.
  lemma {:induction false} StoreTied(name: string, n: int, fs: Frames, sh: Shape, vars: Numbers, next: nat)
    requires Tied(fs, sh, vars) && Distinct(sh, next) && Seen(name, sh).Some?
    ensures var x := Seen(name, sh).value; Tied(Store(name, n, fs), sh, vars[x := Cut(x.ty, n)])
  {
    hide Cut;
    var x := Seen(name, sh).value;
    if name in sh.own {
      TiedApart(fs.outer, sh.outer, vars, x, Cut(x.ty, n));
    } else {
      SeenOwned(name, sh.outer);
      StoreTied(name, n, fs.outer, sh.outer, vars, next);
      forall y | y in fs.own ensures sh.own[y] != x {
      }
    }
  }

  lemma InnerShows(sh: Shape, sc: Resolve.Scope)
    requires Shows(sh, sc)
    ensures Shows(Level(map[], sh), Resolve.Inner(sc))
  {
    var inner := Level(map[], sh);
    forall name: string
      ensures Seen(name, inner) == if name in sc.visible then Some(sc.visible[name].sym) else None
    {
      assert Seen(name, inner) == Seen(name, sh);
    }
  }

  // A declaration takes a new symbol.
  lemma DeclareShows(kind: Resolve.Kind, name: string, t: Type, sh: Shape, sc: Resolve.Scope)
    requires Shows(sh, sc) && Resolve.Declare(kind, name, t, sc).Some?
    ensures var d := Resolve.Declare(kind, name, t, sc).value;
            Shows(Level(sh.own[name := d.sym], sh.outer), d.scope) && d.sym !in Owned(sh)
  {
    var d := Resolve.Declare(kind, name, t, sc).value;
    var after := Level(sh.own[name := d.sym], sh.outer);
    OwnedBelow(sh, sc.next);
    DistinctMore(sh.outer, sc.next, d.scope.next);
    forall x | x in sh.own ensures sh.own[x] != d.sym {
      assert sh.own[x] in sh.own.Values;
    }
    forall x: string
      ensures Seen(x, after) == if x in d.scope.visible then Some(d.scope.visible[x].sym) else None
    {
      if x != name {
        assert Seen(x, after) == Seen(x, sh);
      }
    }
  }

  lemma NextShows(sh: Shape, sc: Resolve.Scope, after: Resolve.Scope)
    requires Shows(sh, sc) && sc.next <= after.next && after.visible == sc.visible
    ensures Shows(sh, after)
  {
    DistinctMore(sh, sc.next, after.next);
  }

  lemma ShowsOlder(sh: Shape, sc: Resolve.Scope)
    requires Shows(sh, sc)
    ensures Resolve.Older(sc)
  {
    OwnedBelow(sh, sc.next);
    forall name | name in sc.visible ensures sc.visible[name].sym.id < sc.next {
      SeenOwned(name, sh);
    }
  }

  lemma BindTied(name: string, t: Type, x: Ast.Symbol, n: int, fs: Frames, sh: Shape, vars: Numbers)
    requires Tied(fs, sh, vars) && sh.Level? && x !in Owned(sh) && x.ty == t
    ensures Tied(Bind(name, t, n, fs), Level(sh.own[name := x], sh.outer), vars[x := Cut(t, n)])
  {
    hide Cut;
    TiedApart(fs, sh, vars, x, Cut(t, n));
  }

  // ----------------------------------------------------------------------- statements

  // a is r checked and counted, regular, and leaves the constants alone.
  ghost predicate Ready(r: Ast.Stmt, a: Ast.Stmt, t: Type, defs: Definitions, rho: Numbers) {
    && t.width > 0 && FreshStmt(r) && ChecksStmt(r, a, t, defs) && RegularStmt(a)
    && Written.StmtCounted(a, rho) && Ast.Decls(a) + Ast.Assigned(a) !! rho.Keys
  }

  ghost predicate BlockReady(r: seq<Ast.Stmt>, a: seq<Ast.Stmt>, t: Type, defs: Definitions, rho: Numbers) {
    && t.width > 0 && FreshBlock(r) && ChecksBlock(r, a, t, defs) && RegularBlock(a)
    && Written.BlockCounted(a, rho) && Ast.BlockDecls(a) + Ast.BlockAssigned(a) !! rho.Keys
  }

  // Named and numbered variables agree.
  ghost predicate Same(fs: Frames, sh: Shape, sc: Resolve.Scope, vars: Numbers, rho: Numbers) {
    Shows(sh, sc) && Tied(fs, sh, vars) && Written.Includes(vars, rho)
  }

  // Execution goes on with both agreeing, in the scopes there were.
  ghost predicate Goes(o: Step, outer: Shape, sh: Shape, sc: Resolve.Scope, vars: Numbers, rho: Numbers) {
    o.Next? && sh.Level? && sh.outer == outer && Same(o.frames, sh, sc, vars, rho)
  }

  lemma DeclNamed(s: Stmt, sc: Resolve.Scope, fs: Frames, sh: Shape, a: Ast.Stmt, t: Type, defs: Definitions, m: Sense, rho: Numbers)
    returns (sh1: Shape)
    requires s.VarDecl? && s.init.Value? && Resolve.ResolveStmt(s, sc).Some?
    requires Ready(Resolve.ResolveStmt(s, sc).value.stmt, a, t, defs, rho) && Same(fs, sh, sc, m.vars, rho)
    ensures Goes(Says(s, t, fs), sh.outer, sh1, Resolve.ResolveStmt(s, sc).value.scope, Does(a, m).vars, rho)
  {
    hide Shows, Tied, Regular, Checks, Fresh, ToNode, Written.Includes, Cut, NumberIn, Resolve.ResolveExpr, Meant, Ast.Assigned;
    var d := Resolve.Declare(Resolve.Local, s.name, s.ty, sc).value;
    ShowsLevel(sh, sc);
    ExprNamed(s.init.e, s.ty, a.init, fs, sh, sc, m.vars);
    DeclareShows(Resolve.Local, s.name, s.ty, sh, sc);
    BindTied(s.name, s.ty, d.sym, NumberIn(s.init.e, s.ty, fs), fs, sh, m.vars);
    Written.StmtAsWritten(a, m, rho);
    sh1 := Level(sh.own[s.name := d.sym], sh.outer);
  }

  lemma ShowsLevel(sh: Shape, sc: Resolve.Scope)
    requires Shows(sh, sc)
    ensures sh.Level? && Distinct(sh, sc.next)
    ensures forall name | name in sc.visible :: Seen(name, sh) == Some(sc.visible[name].sym)
  {
  }

  lemma AssignNamed(s: Stmt, sc: Resolve.Scope, fs: Frames, sh: Shape, a: Ast.Stmt, t: Type, defs: Definitions, m: Sense, rho: Numbers)
    requires s.Assign? && s.index == None && s.value.Value? && Resolve.ResolveStmt(s, sc).Some?
    requires Ready(Resolve.ResolveStmt(s, sc).value.stmt, a, t, defs, rho) && Same(fs, sh, sc, m.vars, rho)
    ensures Goes(Says(s, t, fs), sh.outer, sh, Resolve.ResolveStmt(s, sc).value.scope, Does(a, m).vars, rho)
  {
    hide Shows, Tied, Regular, Checks, Fresh, ToNode, Written.Includes, Cut, NumberIn, Resolve.ResolveExpr, Meant, Store, Find;
    ShowsLevel(sh, sc);
    NameTied(s.name, fs, sh, sc, m.vars);
    var x := sc.visible[s.name].sym;
    ExprNamed(s.value.e, x.ty, a.value, fs, sh, sc, m.vars);
    StoreTied(s.name, NumberIn(s.value.e, x.ty, fs), fs, sh, m.vars, sc.next);
    Written.StmtAsWritten(a, m, rho);
  }

  lemma {:induction false} StmtNamed(s: Stmt, sc: Resolve.Scope, fs: Frames, sh: Shape, a: Ast.Stmt, t: Type,
                                     defs: Definitions, m: Sense, rho: Numbers)
    returns (sh1: Shape)
    requires Resolve.ResolveStmt(s, sc).Some? && ParseProgramPrinted.Built(s)
    requires Ready(Resolve.ResolveStmt(s, sc).value.stmt, a, t, defs, rho) && Same(fs, sh, sc, m.vars, rho)
    requires Ast.Returns(a) == 0
    ensures Goes(Says(s, t, fs), sh.outer, sh1, Resolve.ResolveStmt(s, sc).value.scope, Does(a, m).vars, rho)
    decreases s, 3, 0
  {
    hide Ready, Same, Goes, Says, Does, FreshStmt, Resolve.ResolveStmt;
    sh1 := sh;
    Forms(s, sc);
    if s.VarDecl? {
      sh1 := DeclNamed(s, sc, fs, sh, a, t, defs, m, rho);
    } else if s.Assign? {
      AssignNamed(s, sc, fs, sh, a, t, defs, m, rho);
    } else if s.If? {
      sh1 := IfNamed(s, sc, fs, sh, a, t, defs, m, rho);
    } else if s.For? {
      ForNamed(s, sc, fs, sh, a, t, defs, m, rho);
    } else if s.Block? {
      BlockStmtNamed(s, sc, fs, sh, a, t, defs, m, rho);
    } else {
      ReturnCounts(s, sc, a, t, defs, rho);
    }
  }

  // The statements that resolve.
  lemma Forms(s: Stmt, sc: Resolve.Scope)
    requires Resolve.ResolveStmt(s, sc).Some?
    ensures s.VarDecl? ==> s.init.Value?
    ensures s.Assign? ==> s.index == None && s.value.Value?
    ensures s.VarDecl? || s.Assign? || s.If? || s.For? || s.Block? || s.Return?
  {
    hide Resolve.ResolveExpr, Resolve.ResolveBlock, Resolve.ResolveElse;
  }

  lemma ReturnCounts(s: Stmt, sc: Resolve.Scope, a: Ast.Stmt, t: Type, defs: Definitions, rho: Numbers)
    requires s.Return? && Resolve.ResolveStmt(s, sc).Some? && Ready(Resolve.ResolveStmt(s, sc).value.stmt, a, t, defs, rho)
    ensures a.Return? && Ast.Returns(a) == 1
  {
    hide Resolve.ResolveExpr, Checks, Fresh, ToNode, Regular;
  }

  // ---- if

  predicate CondReady(c: Expr, sc: Resolve.Scope, typed: Ast.Expr) {
    && Resolve.ResolveExpr(c, sc.visible).Some?
    && var r := Resolve.ResolveExpr(c, sc.visible).value; Fresh(ToNode(r)) && Checks(r, Ast.U1, typed) && Regular(typed)
  }

  function AfterThen(s: Stmt, sc: Resolve.Scope): Resolve.Scope
    requires s.If? && Resolve.ResolveBlock(s.thenB, Resolve.Inner(sc)).Some?
  {
    sc.(next := Resolve.ResolveBlock(s.thenB, Resolve.Inner(sc)).value.scope.next)
  }

  lemma IfParts(s: Stmt, sc: Resolve.Scope, a: Ast.Stmt, t: Type, defs: Definitions, rho: Numbers)
    requires s.If? && Resolve.ResolveStmt(s, sc).Some? && Ready(Resolve.ResolveStmt(s, sc).value.stmt, a, t, defs, rho)
    ensures a.If? && CondReady(s.cond, sc, a.cond)
    ensures Resolve.ResolveBlock(s.thenB, Resolve.Inner(sc)).Some?
    ensures BlockReady(Resolve.ResolveBlock(s.thenB, Resolve.Inner(sc)).value.items, a.thenB, t, defs, rho)
    ensures Resolve.ResolveElse(s.elseS, AfterThen(s, sc)).Some?
    ensures Resolve.ResolveStmt(s, sc).value.scope == Resolve.ResolveElse(s.elseS, AfterThen(s, sc)).value.scope
    ensures a.elseS.ElseDo? == s.elseS.ElseDo?
    ensures s.elseS.ElseDo? ==>
            && Resolve.ResolveStmt(s.elseS.stmt, AfterThen(s, sc)).Some?
            && Ready(Resolve.ResolveStmt(s.elseS.stmt, AfterThen(s, sc)).value.stmt, a.elseS.stmt, t, defs, rho)
            && Resolve.ResolveElse(s.elseS, AfterThen(s, sc)).value.scope == Resolve.ResolveStmt(s.elseS.stmt, AfterThen(s, sc)).value.scope
  {
    hide Resolve.ResolveExpr, Resolve.ResolveBlock, Checks, Fresh, ToNode, Regular, Resolve.ResolveElse;
    ElseParts(s.elseS, AfterThen(s, sc), a.elseS, t, defs, rho);
  }

  lemma ElseParts(e: Else, sc: Resolve.Scope, a: Ast.Else, t: Type, defs: Definitions, rho: Numbers)
    requires t.width > 0 && Resolve.ResolveElse(e, sc).Some?
    requires var r := Resolve.ResolveElse(e, sc).value.e; FreshElse(r) && ChecksElse(r, a, t, defs)
    requires RegularElse(a) && Written.ElseCounted(a, rho) && Ast.ElseDecls(a) + Ast.ElseAssigned(a) !! rho.Keys
    ensures a.ElseDo? == e.ElseDo?
    ensures e.ElseDo? ==>
            && Resolve.ResolveStmt(e.stmt, sc).Some?
            && Ready(Resolve.ResolveStmt(e.stmt, sc).value.stmt, a.stmt, t, defs, rho)
            && Resolve.ResolveElse(e, sc).value.scope == Resolve.ResolveStmt(e.stmt, sc).value.scope
  {
    hide Resolve.ResolveStmt, FreshStmt, ChecksStmt, RegularStmt, Written.StmtCounted, Ast.Decls, Ast.Assigned;
  }

  lemma {:induction false} IfNamed(s: Stmt, sc: Resolve.Scope, fs: Frames, sh: Shape, a: Ast.Stmt, t: Type,
                                   defs: Definitions, m: Sense, rho: Numbers)
    returns (sh1: Shape)
    requires s.If? && Resolve.ResolveStmt(s, sc).Some? && ParseProgramPrinted.Built(s)
    requires Ready(Resolve.ResolveStmt(s, sc).value.stmt, a, t, defs, rho) && Same(fs, sh, sc, m.vars, rho)
    requires Ast.Returns(a) == 0
    ensures Goes(Says(s, t, fs), sh.outer, sh1, Resolve.ResolveStmt(s, sc).value.scope, Does(a, m).vars, rho)
    decreases s, 2, 0
  {
    hide Ready, BlockReady, CondReady, Same, Goes, Resolve.ResolveStmt, Resolve.ResolveBlock, Resolve.ResolveElse, FreshStmt, Meant, NumberIn;
    hide SaysBlock, DoesBlock, Shows;
    sh1 := sh;
    IfParts(s, sc, a, t, defs, rho);
    CondNamed(s.cond, sc, a.cond, fs, sh, m, rho);
    SameIncludes(fs, sh, sc, m.vars, rho);
    ElseKeepsVisible(s.elseS, AfterThen(s, sc));
    NextGrows(s, sc, fs, sh, m.vars, rho);
    var after := Resolve.ResolveStmt(s, sc).value.scope;
    if Meant(a.cond, m.vars) != 0 {
      InnerSame(fs, sh, sc, m.vars, rho);
      var sh2 := BlockNamed(s.thenB, Resolve.Inner(sc), Frame(map[], fs), Level(map[], sh), a.thenB, t, defs, m, rho);
      LeaveSame(SaysBlock(s.thenB, t, Frame(map[], fs)), sh2, Resolve.ResolveBlock(s.thenB, Resolve.Inner(sc)).value.scope,
                DoesBlock(a.thenB, m).vars, rho, sh, sc, after);
    } else if s.elseS.ElseDo? {
      NextSame(fs, sh, sc, m.vars, rho, AfterThen(s, sc));
      sh1 := StmtNamed(s.elseS.stmt, AfterThen(s, sc), fs, sh, a.elseS.stmt, t, defs, m, rho);
    } else {
      NextSame(fs, sh, sc, m.vars, rho, after);
      StaysSame(fs, sh, after, m.vars, rho);
    }
  }

  lemma CondNamed(c: Expr, sc: Resolve.Scope, typed: Ast.Expr, fs: Frames, sh: Shape, m: Sense, rho: Numbers)
    requires CondReady(c, sc, typed) && Same(fs, sh, sc, m.vars, rho)
    ensures Meant(typed, m.vars) == NumberIn(c, Ast.U1, fs)
  {
    hide Shows, Tied, Fresh, ToNode, Checks, Regular, Resolve.ResolveExpr, NumberIn;
    ExprNamed(c, Ast.U1, typed, fs, sh, sc, m.vars);
  }

  lemma NextGrows(s: Stmt, sc: Resolve.Scope, fs: Frames, sh: Shape, vars: Numbers, rho: Numbers)
    requires s.If? && Resolve.ResolveStmt(s, sc).Some? && Same(fs, sh, sc, vars, rho)
    requires Resolve.ResolveBlock(s.thenB, Resolve.Inner(sc)).Some?
    ensures sc.next <= AfterThen(s, sc).next && sc.next <= Resolve.ResolveStmt(s, sc).value.scope.next
  {
    hide Shows, Tied, Resolve.ResolveStmt, Resolve.ResolveBlock, Ast.BlockDecls, Ast.BlockAssigned, Ast.BlockUnique, Ast.Decls, Ast.Assigned, Ast.UniqueDecls;
    ShowsOlder(sh, sc);
    Resolve.StmtFresh(s, sc);
    Resolve.BlockFresh(s.thenB, Resolve.Inner(sc));
  }

  lemma InnerSame(fs: Frames, sh: Shape, sc: Resolve.Scope, vars: Numbers, rho: Numbers)
    requires Same(fs, sh, sc, vars, rho)
    ensures Same(Frame(map[], fs), Level(map[], sh), Resolve.Inner(sc), vars, rho)
  {
    hide Shows;
    InnerShows(sh, sc);
  }

  lemma NextSame(fs: Frames, sh: Shape, sc: Resolve.Scope, vars: Numbers, rho: Numbers, after: Resolve.Scope)
    requires Same(fs, sh, sc, vars, rho) && sc.next <= after.next && after.visible == sc.visible
    ensures Same(fs, sh, after, vars, rho)
  {
    hide Shows;
    NextShows(sh, sc, after);
  }

  lemma StaysSame(fs: Frames, sh: Shape, sc: Resolve.Scope, vars: Numbers, rho: Numbers)
    requires Same(fs, sh, sc, vars, rho)
    ensures Goes(Next(fs), sh.outer, sh, sc, vars, rho)
  {
  }

  // Leaving a scope restores what was in scope before it.
  lemma LeaveSame(o: Step, inner: Shape, isc: Resolve.Scope, vars: Numbers, rho: Numbers, sh: Shape, sc: Resolve.Scope, after: Resolve.Scope)
    requires Goes(o, sh, inner, isc, vars, rho) && Shows(sh, sc) && sc.next <= after.next && after.visible == sc.visible
    ensures Goes(Leave(o), sh.outer, sh, after, vars, rho)
  {
    NextShows(sh, sc, after);
  }

  // ---- blocks

  lemma {:induction false} BlockNamed(b: seq<Stmt>, sc: Resolve.Scope, fs: Frames, sh: Shape, a: seq<Ast.Stmt>, t: Type,
                                      defs: Definitions, m: Sense, rho: Numbers)
    returns (sh1: Shape)
    requires Resolve.ResolveBlock(b, sc).Some? && ParseProgramPrinted.BuiltBlock(b)
    requires BlockReady(Resolve.ResolveBlock(b, sc).value.items, a, t, defs, rho) && Same(fs, sh, sc, m.vars, rho)
    requires Ast.BlockReturns(a) == 0
    ensures Goes(SaysBlock(b, t, fs), sh.outer, sh1, Resolve.ResolveBlock(b, sc).value.scope, DoesBlock(a, m).vars, rho)
    decreases b, 0, 0
  {
    hide Ready, BlockReady, Same, Resolve.ResolveStmt, FreshStmt, Says, Does;
    sh1 := sh;
    if b == [] {
      NoneReady(a, t, defs, rho);
      SameLevel(fs, sh, sc, m.vars, rho);
    } else {
      BlockParts(b, sc, a, t, defs, rho);
      var first := Resolve.ResolveStmt(b[0], sc).value;
      var sh0 := StmtNamed(b[0], sc, fs, sh, a[0], t, defs, m, rho);
      sh1 := BlockNamed(b[1..], first.scope, Says(b[0], t, fs).frames, sh0, a[1..], t, defs, Does(a[0], m), rho);
    }
  }

  lemma SameLevel(fs: Frames, sh: Shape, sc: Resolve.Scope, vars: Numbers, rho: Numbers)
    requires Same(fs, sh, sc, vars, rho)
    ensures sh.Level?
  {
  }

  lemma NoneReady(a: seq<Ast.Stmt>, t: Type, defs: Definitions, rho: Numbers)
    requires BlockReady([], a, t, defs, rho)
    ensures a == []
  {
  }

  lemma BlockParts(b: seq<Stmt>, sc: Resolve.Scope, a: seq<Ast.Stmt>, t: Type, defs: Definitions, rho: Numbers)
    requires b != [] && Resolve.ResolveBlock(b, sc).Some?
    requires BlockReady(Resolve.ResolveBlock(b, sc).value.items, a, t, defs, rho)
    ensures a != [] && Resolve.ResolveStmt(b[0], sc).Some?
    ensures var first := Resolve.ResolveStmt(b[0], sc).value;
            && Ready(first.stmt, a[0], t, defs, rho)
            && Resolve.ResolveBlock(b[1..], first.scope).Some?
            && BlockReady(Resolve.ResolveBlock(b[1..], first.scope).value.items, a[1..], t, defs, rho)
            && Resolve.ResolveBlock(b, sc).value.scope == Resolve.ResolveBlock(b[1..], first.scope).value.scope
  {
    hide Resolve.ResolveStmt, FreshStmt, ChecksStmt, RegularStmt, Written.StmtCounted, Ast.Decls, Ast.Assigned;
    var first := Resolve.ResolveStmt(b[0], sc).value;
    var rest := Resolve.ResolveBlock(b[1..], first.scope).value;
    assert ([first.stmt] + rest.items)[1..] == rest.items;
  }

  lemma {:induction false} BlockStmtNamed(s: Stmt, sc: Resolve.Scope, fs: Frames, sh: Shape, a: Ast.Stmt, t: Type,
                                          defs: Definitions, m: Sense, rho: Numbers)
    requires s.Block? && Resolve.ResolveStmt(s, sc).Some? && ParseProgramPrinted.Built(s)
    requires Ready(Resolve.ResolveStmt(s, sc).value.stmt, a, t, defs, rho) && Same(fs, sh, sc, m.vars, rho)
    requires Ast.Returns(a) == 0
    ensures Goes(Says(s, t, fs), sh.outer, sh, Resolve.ResolveStmt(s, sc).value.scope, Does(a, m).vars, rho)
    decreases s, 2, 0
  {
    hide Ready, BlockReady, Same, Goes, Resolve.ResolveStmt, Resolve.ResolveBlock, FreshStmt, SaysBlock, DoesBlock, Shows;
    InnerParts(s, sc, a, t, defs, rho, fs, sh, m.vars);
    InnerSame(fs, sh, sc, m.vars, rho);
    var sh2 := BlockNamed(s.stmts, Resolve.Inner(sc), Frame(map[], fs), Level(map[], sh), a.stmts, t, defs, m, rho);
    LeaveSame(SaysBlock(s.stmts, t, Frame(map[], fs)), sh2, Resolve.ResolveBlock(s.stmts, Resolve.Inner(sc)).value.scope,
              DoesBlock(a.stmts, m).vars, rho, sh, sc, Resolve.ResolveStmt(s, sc).value.scope);
  }

  lemma InnerParts(s: Stmt, sc: Resolve.Scope, a: Ast.Stmt, t: Type, defs: Definitions, rho: Numbers, fs: Frames, sh: Shape, vars: Numbers)
    requires s.Block? && Resolve.ResolveStmt(s, sc).Some? && Ready(Resolve.ResolveStmt(s, sc).value.stmt, a, t, defs, rho)
    requires Same(fs, sh, sc, vars, rho)
    ensures a.Block? && Shows(sh, sc) && Resolve.ResolveBlock(s.stmts, Resolve.Inner(sc)).Some?
    ensures BlockReady(Resolve.ResolveBlock(s.stmts, Resolve.Inner(sc)).value.items, a.stmts, t, defs, rho)
    ensures var after := Resolve.ResolveStmt(s, sc).value.scope; sc.next <= after.next && after.visible == sc.visible
  {
    hide Shows, Tied, Resolve.ResolveBlock, Ast.BlockDecls, Ast.BlockAssigned, Ast.BlockUnique;
    ShowsOlder(sh, sc);
    Resolve.BlockFresh(s.stmts, Resolve.Inner(sc));
  }

  // ---- loops

  // The header of a loop, resolved and checked, and its body.
  lemma ForParts(s: Stmt, sc: Resolve.Scope, a: Ast.Stmt, t: Type, defs: Definitions, rho: Numbers)
    requires s.For? && Resolve.ResolveStmt(s, sc).Some? && Ready(Resolve.ResolveStmt(s, sc).value.stmt, a, t, defs, rho)
    ensures Resolve.Declare(Resolve.InductionVar, s.iv, s.ivType, Resolve.Inner(sc)).Some?
    ensures var d := Resolve.Declare(Resolve.InductionVar, s.iv, s.ivType, Resolve.Inner(sc)).value;
            && a.For? && a.iv == d.sym && a.rel == s.rel && a.stepIsAdd == s.stepIsAdd && d.sym !in rho && TypeOk(s.ivType)
            && Resolve.ResolveExpr(s.start, sc.visible).Some?
            && Resolve.ResolveExpr(s.limit, d.scope.visible).Some? && Resolve.ResolveExpr(s.step, d.scope.visible).Some?
            && var i, l, k := Resolve.ResolveExpr(s.start, sc.visible).value, Resolve.ResolveExpr(s.limit, d.scope.visible).value,
                              Resolve.ResolveExpr(s.step, d.scope.visible).value;
               && Fresh(ToNode(i)) && Fresh(ToNode(l)) && Fresh(ToNode(k))
               && Checks(i, s.ivType, a.init) && ChecksLimit(l, s.ivType, a.limit) && Checks(k, s.ivType, a.step)
               && Regular(a.init) && Regular(a.step) && Widths(a.limit)
               && Reads(a.limit) + Reads(a.step) <= rho.Keys
    ensures var d := Resolve.Declare(Resolve.InductionVar, s.iv, s.ivType, Resolve.Inner(sc)).value;
            && Resolve.ResolveBlock(s.body, d.scope).Some?
            && BlockReady(Resolve.ResolveBlock(s.body, d.scope).value.items, a.body, t, defs, rho)
            && Resolve.ResolveStmt(s, sc).value.scope == sc.(next := Resolve.ResolveBlock(s.body, d.scope).value.scope.next)
  {
    hide Resolve.ResolveExpr, Resolve.ResolveBlock, Checks, ChecksLimit, Fresh, ToNode, Regular, Widths, HeaderFolds, Ideal, Exactly;
  }

  // The number of an expression that does not read x.
  lemma {:induction false} NotRead(e: Ast.Expr, vars: Numbers, x: Ast.Symbol, n: int)
    requires Widths(e) && x !in Reads(e)
    ensures Ideal(e, vars[x := n]) == Ideal(e, vars)
  {
    hide IdealBinary, IdealUnary;
    match e
    case Cast(_, y, _) => NotRead(y, vars, x, n);
    case Unary(_, y, _) => NotRead(y, vars, x, n);
    case Binary(_, l, r, _) => NotRead(l, vars, x, n); NotRead(r, vars, x, n);
    case Ternary(c, y, z, _) => NotRead(c, vars, x, n); NotRead(y, vars, x, n); NotRead(z, vars, x, n);
    case _ =>
  }

  // The scope of a loop's header and of one pass.
  lemma PassSame(iv: string, t: Type, n: int, fs: Frames, sh: Shape, sc: Resolve.Scope, vars: Numbers, rho: Numbers)
    requires Same(fs, sh, sc, vars, rho) && Resolve.Declare(Resolve.InductionVar, iv, t, Resolve.Inner(sc)).Some?
    requires var d := Resolve.Declare(Resolve.InductionVar, iv, t, Resolve.Inner(sc)).value; d.sym !in rho
    ensures var d := Resolve.Declare(Resolve.InductionVar, iv, t, Resolve.Inner(sc)).value;
            Same(Frame(map[iv := Cell(t, Cut(t, n))], fs), Level(map[iv := d.sym], sh), d.scope, vars[d.sym := Cut(t, n)], rho)
  {
    hide Shows, Tied, Cut;
    var d := Resolve.Declare(Resolve.InductionVar, iv, t, Resolve.Inner(sc)).value;
    var inner, frame := Level(map[], sh), Frame(map[], fs);
    InnerSame(fs, sh, sc, vars, rho);
    DeclareShows(Resolve.InductionVar, iv, t, inner, Resolve.Inner(sc));
    BindTied(iv, t, d.sym, n, frame, inner, vars);
    assert inner.own[iv := d.sym] == map[iv := d.sym] && frame.own[iv := Cell(t, Cut(t, n))] == map[iv := Cell(t, Cut(t, n))];
  }

  function Iv(s: Stmt, sc: Resolve.Scope): Resolve.Declared
    requires s.For? && Resolve.Declare(Resolve.InductionVar, s.iv, s.ivType, Resolve.Inner(sc)).Some?
  {
    Resolve.Declare(Resolve.InductionVar, s.iv, s.ivType, Resolve.Inner(sc)).value
  }

  // The three numbers of a header; the limit and the step see the loop variable but do
  // not read it.
  lemma HeaderNamed(s: Stmt, sc: Resolve.Scope, fs: Frames, sh: Shape, a: Ast.Stmt, t: Type, defs: Definitions, m: Sense, rho: Numbers)
    requires s.For? && Resolve.ResolveStmt(s, sc).Some?
    requires Ready(Resolve.ResolveStmt(s, sc).value.stmt, a, t, defs, rho) && Same(fs, sh, sc, m.vars, rho)
    ensures a.For?
    ensures var first := NumberIn(s.start, s.ivType, fs); first == Meant(a.init, m.vars)
    ensures var header := Frame(map[s.iv := Cell(s.ivType, Cut(s.ivType, NumberIn(s.start, s.ivType, fs)))], fs);
            && NumberIn(s.limit, s.ivType, header) == Meant(a.limit, m.vars)
            && NumberIn(s.step, s.ivType, header) == Meant(a.step, m.vars)
  {
    hide Shows, Tied, Ready, BlockReady, Fresh, ToNode, Checks, ChecksLimit, Checked, Ruled, Widths, Resolve.ResolveExpr, NumberIn, Cut;
    hide Resolve.ResolveStmt, Resolve.ResolveBlock, Resolve.Declare, Reads, Ideal, FreshStmt, Written.Includes;
    ForParts(s, sc, a, t, defs, rho);
    var d, first := Iv(s, sc), NumberIn(s.start, s.ivType, fs);
    ExprNamed(s.start, s.ivType, a.init, fs, sh, sc, m.vars);
    PassSame(s.iv, s.ivType, first, fs, sh, sc, m.vars, rho);
    var header, level := Frame(map[s.iv := Cell(s.ivType, Cut(s.ivType, first))], fs), Level(map[s.iv := d.sym], sh);
    var vars := m.vars[d.sym := Cut(s.ivType, first)];
    LimitNamed(s.limit, s.ivType, a.limit, header, level, d.scope, vars);
    ExprNamed(s.step, s.ivType, a.step, header, level, d.scope, vars);
    NotRead(a.limit, m.vars, d.sym, Cut(s.ivType, first));
    NotRead(a.step, m.vars, d.sym, Cut(s.ivType, first));
  }

  // A loop that is entered has a count.
  lemma EnteredCounts(a: Ast.Stmt, vars: Numbers, rho: Numbers)
    requires a.For? && Written.StmtCounted(a, rho) && Written.Includes(vars, rho)
    requires Holds(a.rel, Meant(a.init, vars), Meant(a.limit, vars))
    ensures a.trip > 0
  {
    hide Meant, Ideal, Exactly, Reads, Widths, Written.Includes;
    Written.HeaderIs(a.init, vars, rho);
    Written.HeaderIs(a.limit, vars, rho);
    Written.HeaderIs(a.step, vars, rho);
    var start, delta := Ideal(a.init, rho), Delta(Ideal(a.step, rho), a.stepIsAdd);
    if a.trip == 0 {
      Written.NotHolding(start, delta, a.rel, Ideal(a.limit, rho));
    }
  }

  lemma {:induction false} ForNamed(s: Stmt, sc: Resolve.Scope, fs: Frames, sh: Shape, a: Ast.Stmt, t: Type,
                                    defs: Definitions, m: Sense, rho: Numbers)
    requires s.For? && Resolve.ResolveStmt(s, sc).Some? && ParseProgramPrinted.Built(s)
    requires Ready(Resolve.ResolveStmt(s, sc).value.stmt, a, t, defs, rho) && Same(fs, sh, sc, m.vars, rho)
    requires Ast.Returns(a) == 0
    ensures Goes(Says(s, t, fs), sh.outer, sh, Resolve.ResolveStmt(s, sc).value.scope, Does(a, m).vars, rho)
    decreases s, 2, 0
  {
    hide Same, Goes, Resolve.ResolveStmt, FreshStmt, ChecksStmt, RegularStmt, Ast.Decls, Ast.Assigned, NumberIn, Meant, Does;
    hide Written.StmtCounted, Written.RunLoop, SaysLoop, Cut, Written.Includes, Ast.Returns;
    HeaderNamed(s, sc, fs, sh, a, t, defs, m, rho);
    SameIncludes(fs, sh, sc, m.vars, rho);
    Written.StmtAsWritten(a, m, rho);
    LoopScope(s, sc, fs, sh, a, t, defs, m.vars, rho);
    var after := Resolve.ResolveStmt(s, sc).value.scope;
    var start, end, delta := Meant(a.init, m.vars), Meant(a.limit, m.vars), Delta(Meant(a.step, m.vars), a.stepIsAdd);
    NextSame(fs, sh, sc, m.vars, rho, after);
    if Holds(s.rel, start, end) {
      EnteredCounts(a, m.vars, rho);
      LoopReturns(a);
      LoopNamed(s, sc, fs, sh, a, t, defs, start, end, delta, m, rho);
      GoesOn(SaysLoop(s.body, s.iv, s.ivType, start, end, delta, s.rel, t, fs), sh, sc, Does(a, m).vars, rho, after);
    } else {
      StaysSame(fs, sh, after, m.vars, rho);
    }
  }

  lemma LoopReturns(a: Ast.Stmt)
    requires a.For? && a.trip > 0 && Ast.Returns(a) == 0
    ensures Ast.BlockReturns(a.body) == 0
  {
  }

  lemma SameIncludes(fs: Frames, sh: Shape, sc: Resolve.Scope, vars: Numbers, rho: Numbers)
    requires Same(fs, sh, sc, vars, rho)
    ensures Written.Includes(vars, rho) && Shows(sh, sc)
  {
  }

  lemma LoopScope(s: Stmt, sc: Resolve.Scope, fs: Frames, sh: Shape, a: Ast.Stmt, t: Type, defs: Definitions, vars: Numbers, rho: Numbers)
    requires s.For? && Resolve.ResolveStmt(s, sc).Some? && Ready(Resolve.ResolveStmt(s, sc).value.stmt, a, t, defs, rho)
    requires Same(fs, sh, sc, vars, rho)
    ensures var after := Resolve.ResolveStmt(s, sc).value.scope; sc.next <= after.next && after.visible == sc.visible
    ensures a.For? && a.rel == s.rel && a.stepIsAdd == s.stepIsAdd
  {
    hide Shows, Tied, Ready, BlockReady, Resolve.ResolveStmt, Resolve.ResolveBlock, Ast.Decls, Ast.Assigned, Ast.UniqueDecls;
    ForParts(s, sc, a, t, defs, rho);
    ShowsOlder(sh, sc);
    Resolve.StmtFresh(s, sc);
  }

  lemma GoesOn(o: Step, sh: Shape, sc: Resolve.Scope, vars: Numbers, rho: Numbers, after: Resolve.Scope)
    requires sh.Level? && Goes(o, sh.outer, sh, sc, vars, rho) && sc.next <= after.next && after.visible == sc.visible
    ensures Goes(o, sh.outer, sh, after, vars, rho)
  {
    NextSame(o.frames, sh, sc, vars, rho, after);
  }

  // Pass by pass, the loop of names and the loop of symbols agree.
  lemma {:induction false} LoopNamed(s: Stmt, sc: Resolve.Scope, fs: Frames, sh: Shape, a: Ast.Stmt, t: Type, defs: Definitions,
                                     cur: int, end: int, delta: int, m: Sense, rho: Numbers)
    requires s.For? && Resolve.ResolveStmt(s, sc).Some? && ParseProgramPrinted.Built(s)
    requires Ready(Resolve.ResolveStmt(s, sc).value.stmt, a, t, defs, rho) && Same(fs, sh, sc, m.vars, rho)
    requires a.For? && Ast.BlockReturns(a.body) == 0 && Written.Approaches(s.rel, delta)
    requires Written.RunLoop(a.body, a.iv, cur, end, delta, s.rel, m).Some?
    ensures Goes(SaysLoop(s.body, s.iv, s.ivType, cur, end, delta, s.rel, t, fs), sh.outer, sh, sc,
                 Written.RunLoop(a.body, a.iv, cur, end, delta, s.rel, m).value.vars, rho)
    decreases s.body, 1, if !Holds(s.rel, cur, end) then 0 else 1 + Abs(end - cur)
  {
    hide Ready, BlockReady, Same, Goes, Resolve.ResolveStmt, Resolve.ResolveBlock, Resolve.Declare, FreshStmt, SaysBlock, DoesBlock, Written.RunBlock;
    hide Fresh, ToNode, Checks, ChecksLimit, Regular, Widths, Reads, Resolve.ResolveExpr, Cut, Shows;
    if !Holds(s.rel, cur, end) {
      SameLevel(fs, sh, sc, m.vars, rho);
      StaysSame(fs, sh, sc, m.vars, rho);
    } else {
      ForParts(s, sc, a, t, defs, rho);
      var d := Iv(s, sc);
      IvType(s, sc);
      SameIncludes(fs, sh, sc, m.vars, rho);
      PassSame(s.iv, s.ivType, cur, fs, sh, sc, m.vars, rho);
      var frame, level := Frame(map[s.iv := Cell(s.ivType, Cut(s.ivType, cur))], fs), Level(map[s.iv := d.sym], sh);
      var m0 := m.(vars := m.vars[d.sym := Cut(s.ivType, cur)]);
      var sh1 := BlockNamed(s.body, d.scope, frame, level, a.body, t, defs, m0, rho);
      var o := SaysBlock(s.body, t, frame);
      BodyWritten(Resolve.ResolveBlock(s.body, d.scope).value.items, a.body, t, defs, rho, frame, level, d.scope, m0);
      LeaveSame(o, sh1, Resolve.ResolveBlock(s.body, d.scope).value.scope, DoesBlock(a.body, m0).vars, rho, sh, sc, sc);
      GoesSame(Leave(o), sh, sc, DoesBlock(a.body, m0).vars, rho);
      LoopNamed(s, sc, Leave(o).frames, sh, a, t, defs, cur + delta, end, delta, DoesBlock(a.body, m0), rho);
    }
  }

  lemma IvType(s: Stmt, sc: Resolve.Scope)
    requires s.For? && Resolve.Declare(Resolve.InductionVar, s.iv, s.ivType, Resolve.Inner(sc)).Some?
    ensures Iv(s, sc).sym.ty == s.ivType
  {
  }

  lemma GoesSame(o: Step, sh: Shape, sc: Resolve.Scope, vars: Numbers, rho: Numbers)
    requires sh.Level? && Goes(o, sh.outer, sh, sc, vars, rho)
    ensures o.Next? && Same(o.frames, sh, sc, vars, rho)
  {
  }

  lemma BodyWritten(r: seq<Ast.Stmt>, body: seq<Ast.Stmt>, t: Type, defs: Definitions, rho: Numbers,
                    fs: Frames, sh: Shape, sc: Resolve.Scope, m: Sense)
    requires BlockReady(r, body, t, defs, rho) && Same(fs, sh, sc, m.vars, rho)
    ensures Written.RunBlock(body, m) == Some(DoesBlock(body, m))
  {
    hide Shows, Tied, FreshBlock, ChecksBlock, RegularBlock, Written.BlockCounted, Ast.BlockDecls, Ast.BlockAssigned, Written.Includes;
    Written.BlockAsWritten(body, m, rho);
  }

  // ----------------------------------------------------------------------- the return

  lemma {:induction false} UpToCounts(b: seq<Ast.Stmt>)
    requires Returns.BlockStops(b)
    ensures Ast.BlockReturns(Returns.UpToReturn(b)) >= 1
    decreases b, 0
  {
    var c := Returns.UpToReturn(b);
    if Returns.Stops(b[0]) {
      if b[0].Block? {
        UpToCounts(b[0].stmts);
      }
      assert c[0] == Returns.StmtUpTo(b[0]) && Ast.Returns(Returns.StmtUpTo(b[0])) >= 1;
    } else {
      UpToCounts(b[1..]);
      assert c[1..] == Returns.UpToReturn(b[1..]);
    }
  }

  // A statement that ends the function returns what its resolved form leaves as the
  // result.
  lemma {:induction false} StopNamed(s: Stmt, sc: Resolve.Scope, fs: Frames, sh: Shape, a: Ast.Stmt, t: Type,
                                     defs: Definitions, m: Sense, rho: Numbers)
    requires Resolve.ResolveStmt(s, sc).Some? && ParseProgramPrinted.Built(s)
    requires Ready(Resolve.ResolveStmt(s, sc).value.stmt, a, t, defs, rho) && Same(fs, sh, sc, m.vars, rho)
    requires Returns.Stops(a) && Ast.Returns(Returns.StmtUpTo(a)) == 1
    ensures Says(s, t, fs) == Done(Does(Returns.StmtUpTo(a), m).result)
    decreases s, 1, 0
  {
    hide Ready, Same, Resolve.ResolveStmt, Resolve.ResolveBlock, FreshStmt, Meant, NumberIn, SaysBlock, DoesBlock, Shows;
    Forms(s, sc);
    SameKind(s, sc, a, t, defs, rho);
    if s.Return? {
      ReturnNamed(s, sc, fs, sh, a, t, defs, m, rho);
    } else if s.Block? {
      InnerParts(s, sc, a, t, defs, rho, fs, sh, m.vars);
      InnerSame(fs, sh, sc, m.vars, rho);
      StopBlockNamed(s.stmts, Resolve.Inner(sc), Frame(map[], fs), Level(map[], sh), a.stmts, t, defs, m, rho);
    }
  }

  lemma SameKind(s: Stmt, sc: Resolve.Scope, a: Ast.Stmt, t: Type, defs: Definitions, rho: Numbers)
    requires Resolve.ResolveStmt(s, sc).Some? && Ready(Resolve.ResolveStmt(s, sc).value.stmt, a, t, defs, rho)
    ensures s.Return? == a.Return? && s.Block? == a.Block?
  {
    hide Resolve.ResolveExpr, Resolve.ResolveBlock, Resolve.ResolveElse, Checks, ChecksLimit, Fresh, ToNode, Regular, HeaderFolds;
    hide FreshStmt, RegularStmt, Written.StmtCounted, ChecksBlock, ChecksElse;
  }

  lemma ReturnNamed(s: Stmt, sc: Resolve.Scope, fs: Frames, sh: Shape, a: Ast.Stmt, t: Type, defs: Definitions, m: Sense, rho: Numbers)
    requires s.Return? && Resolve.ResolveStmt(s, sc).Some? && a.Return?
    requires Ready(Resolve.ResolveStmt(s, sc).value.stmt, a, t, defs, rho) && Same(fs, sh, sc, m.vars, rho)
    ensures NumberIn(s.result, t, fs) == Meant(a.value, m.vars)
  {
    hide Shows, Tied, Fresh, ToNode, Checks, Regular, Resolve.ResolveExpr, NumberIn, Meant;
    ExprNamed(s.result, t, a.value, fs, sh, sc, m.vars);
  }

  lemma {:induction false} StopBlockNamed(b: seq<Stmt>, sc: Resolve.Scope, fs: Frames, sh: Shape, a: seq<Ast.Stmt>, t: Type,
                                          defs: Definitions, m: Sense, rho: Numbers)
    requires Resolve.ResolveBlock(b, sc).Some? && ParseProgramPrinted.BuiltBlock(b)
    requires BlockReady(Resolve.ResolveBlock(b, sc).value.items, a, t, defs, rho) && Same(fs, sh, sc, m.vars, rho)
    requires Returns.BlockStops(a) && Ast.BlockReturns(Returns.UpToReturn(a)) == 1
    ensures SaysBlock(b, t, fs) == Done(DoesBlock(Returns.UpToReturn(a), m).result)
    decreases b, 0, 0
  {
    hide Ready, BlockReady, Same, Resolve.ResolveStmt, FreshStmt, Says, Does, Returns.StmtUpTo;
    if b == [] {
      NoneReady(a, t, defs, rho);
    } else {
      BlockParts(b, sc, a, t, defs, rho);
      var first := Resolve.ResolveStmt(b[0], sc).value;
      var c := Returns.UpToReturn(a);
      if Returns.Stops(a[0]) {
        assert c[1..] == [];
        StopNamed(b[0], sc, fs, sh, a[0], t, defs, m, rho);
        assert DoesBlock(c, m) == DoesBlock([], Does(c[0], m));
      } else {
        assert c[1..] == Returns.UpToReturn(a[1..]);
        UpToCounts(a[1..]);
        var sh0 := StmtNamed(b[0], sc, fs, sh, a[0], t, defs, m, rho);
        StopBlockNamed(b[1..], first.scope, Says(b[0], t, fs).frames, sh0, a[1..], t, defs, Does(a[0], m), rho);
      }
    }
  }
}
