/**
 The whole compiler against the text: for every program it accepts within the rules,
 the emitted function and the circuit return the number the text says, name by name.
 */
module SourceToCircuit {
  import opened Arith
  import opened FixedWidth
  import Ast
  import opened Syntax
  import opened Meaning
  import opened Means
  import opened TypeCheck
  import opened FrontEnd
  import opened EndToEnd
  import opened ConstFold
  import opened Folding
  import opened Scopes
  import opened ScopesCorrect
  import Resolve
  import Written
  import Returns
  import Interp
  import Ir
  import Emit
  import Hw
  import Lower
  import Emittable
  import EmitTotal
  import CompileCorrect
  import CircuitCorrect
  import LexProgramPrinted
  import ParseProgramPrinted
  import Lex
  import ProgramGrammar
  import Legality
  import opened Wrappers

  // --------------------------------------------------------------------- declarations

  // Names in order own symbols in order.
  ghost predicate Owns(sh: Shape, names: seq<string>, types: seq<Type>, syms: seq<Ast.Symbol>) {
    && sh.Level? && |names| == |types| == |syms|
    && sh.own.Keys == (set x | x in names)
    && (forall i | 0 <= i < |names| :: names[i] in sh.own && sh.own[names[i]] == syms[i] && syms[i].ty == types[i])
    && (forall i, j | 0 <= i < j < |names| :: names[i] != names[j])
  }

  lemma OwnsMore(sh: Shape, names: seq<string>, types: seq<Type>, syms: seq<Ast.Symbol>, name: string, t: Type, x: Ast.Symbol)
    requires Owns(sh, names, types, syms) && name !in sh.own && x.ty == t
    ensures Owns(Level(sh.own[name := x], sh.outer), names + [name], types + [t], syms + [x])
  {
    var ns := names + [name];
    forall i, j | 0 <= i < j < |ns| ensures ns[i] != ns[j] {
      assert names[i] in sh.own;
    }
  }

  function ConstNames(cs: seq<Syntax.ConstDecl>): (r: seq<string>)
    ensures |r| == |cs|
  {
    seq(|cs|, i requires 0 <= i < |cs| => cs[i].name)
  }

  function ConstTypes(cs: seq<Syntax.ConstDecl>): (r: seq<Type>)
    ensures |r| == |cs|
  {
    seq(|cs|, i requires 0 <= i < |cs| => cs[i].ty)
  }

  lemma {:induction false} ConstScope(cs: seq<Syntax.ConstDecl>, sc: Resolve.Scope, sh: Shape, names: seq<string>,
                                      types: seq<Type>, syms: seq<Ast.Symbol>) returns (sh1: Shape)
    requires Resolve.DeclareConsts(cs, sc).Some? && Shows(sh, sc)
    requires Owns(sh, names, types, syms) && sh.own.Keys == sc.here
    ensures var g := Resolve.DeclareConsts(cs, sc).value;
            && Shows(sh1, g.scope) && sh1.outer == sh.outer
            && Owns(sh1, names + ConstNames(cs), types + ConstTypes(cs), syms + g.items)
  {
    hide Shows, Owns;
    sh1 := sh;
    if cs == [] {
      NothingMore(names, types, syms, ConstNames(cs), ConstTypes(cs), Resolve.DeclareConsts(cs, sc).value.items);
      ShowsLevel(sh, sc);
    } else {
      var d := Resolve.Declare(Resolve.GlobalConst, cs[0].name, cs[0].ty, sc).value;
      ShowsLevel(sh, sc);
      DeclareShows(Resolve.GlobalConst, cs[0].name, cs[0].ty, sh, sc);
      OwnsMore(sh, names, types, syms, cs[0].name, cs[0].ty, d.sym);
      var next := Level(sh.own[cs[0].name := d.sym], sh.outer);
      sh1 := ConstScope(cs[1..], d.scope, next, names + [cs[0].name], types + [cs[0].ty], syms + [d.sym]);
      assert names + [cs[0].name] + ConstNames(cs[1..]) == names + ConstNames(cs);
      assert types + [cs[0].ty] + ConstTypes(cs[1..]) == types + ConstTypes(cs);
      var rest := Resolve.DeclareConsts(cs[1..], d.scope).value.items;
      assert syms + [d.sym] + rest == syms + ([d.sym] + rest);
    }
  }

  lemma NothingMore(names: seq<string>, types: seq<Type>, syms: seq<Ast.Symbol>, a: seq<string>, b: seq<Type>, c: seq<Ast.Symbol>)
    requires a == [] && b == [] && c == []
    ensures names + a == names && types + b == types && syms + c == syms
  {
  }

  function ParamNames(ps: seq<Param>): (r: seq<string>)
    ensures |r| == |ps|
  {
    seq(|ps|, i requires 0 <= i < |ps| => ps[i].name)
  }

  function ParamTypes(ps: seq<Param>): (r: seq<Type>)
    ensures |r| == |ps|
  {
    seq(|ps|, i requires 0 <= i < |ps| => ps[i].ty)
  }

  lemma {:induction false} ParamScope(ps: seq<Param>, sc: Resolve.Scope, sh: Shape, names: seq<string>,
                                      types: seq<Type>, syms: seq<Ast.Symbol>) returns (sh1: Shape)
    requires Resolve.DeclareParams(ps, sc).Some? && Shows(sh, sc)
    requires Owns(sh, names, types, syms) && sh.own.Keys == sc.here
    ensures var g := Resolve.DeclareParams(ps, sc).value;
            && Shows(sh1, g.scope) && sh1.outer == sh.outer
            && Owns(sh1, names + ParamNames(ps), types + ParamTypes(ps), syms + g.items)
  {
    hide Shows, Owns;
    sh1 := sh;
    if ps == [] {
      NothingMore(names, types, syms, ParamNames(ps), ParamTypes(ps), Resolve.DeclareParams(ps, sc).value.items);
      ShowsLevel(sh, sc);
    } else {
      var d := Resolve.Declare(Resolve.ScalarParam, ps[0].name, ps[0].ty, sc).value;
      ShowsLevel(sh, sc);
      DeclareShows(Resolve.ScalarParam, ps[0].name, ps[0].ty, sh, sc);
      OwnsMore(sh, names, types, syms, ps[0].name, ps[0].ty, d.sym);
      var next := Level(sh.own[ps[0].name := d.sym], sh.outer);
      sh1 := ParamScope(ps[1..], d.scope, next, names + [ps[0].name], types + [ps[0].ty], syms + [d.sym]);
      assert names + [ps[0].name] + ParamNames(ps[1..]) == names + ParamNames(ps);
      assert types + [ps[0].ty] + ParamTypes(ps[1..]) == types + ParamTypes(ps);
      var rest := Resolve.DeclareParams(ps[1..], d.scope).value.items;
      assert syms + [d.sym] + rest == syms + ([d.sym] + rest);
    }
  }

  lemma {:induction false} InitsAre(cs: seq<Syntax.ConstDecl>, sc: Resolve.Scope)
    requires Resolve.ResolveInits(cs, sc).Some?
    ensures var es := Resolve.ResolveInits(cs, sc).value.items;
            && |es| == |cs|
            && forall i | 0 <= i < |cs| :: cs[i].ScalarConst? && Resolve.ResolveExpr(cs[i].init, sc.visible) == Some(es[i])
  {
    hide Resolve.ResolveExpr;
    if cs != [] {
      InitsAre(cs[1..], sc);
    }
  }

  lemma {:induction false} GivenKeys(ps: seq<Param>, args: seq<int>, own: map<string, Cell>)
    requires |ps| == |args|
    ensures Given(ps, args, own).Keys == own.Keys + set x | x in ParamNames(ps)
  {
    hide Cut;
    if ps != [] {
      GivenKeys(ps[1..], args[1..], own[ps[0].name := Cell(ps[0].ty, Cut(ps[0].ty, args[0]))]);
      assert ParamNames(ps) == [ps[0].name] + ParamNames(ps[1..]);
    }
  }

  lemma {:induction false} GivenKeeps(ps: seq<Param>, args: seq<int>, own: map<string, Cell>, x: string)
    requires |ps| == |args| && x in own && x !in ParamNames(ps)
    ensures x in Given(ps, args, own) && Given(ps, args, own)[x] == own[x]
  {
    hide Cut;
    if ps != [] {
      assert ParamNames(ps) == [ps[0].name] + ParamNames(ps[1..]);
      GivenKeeps(ps[1..], args[1..], own[ps[0].name := Cell(ps[0].ty, Cut(ps[0].ty, args[0]))], x);
    }
  }

  lemma {:induction false} GivenAt(ps: seq<Param>, args: seq<int>, own: map<string, Cell>, i: nat)
    requires |ps| == |args| && i < |ps| && forall j, k | 0 <= j < k < |ps| :: ps[j].name != ps[k].name
    ensures ps[i].name in Given(ps, args, own)
    ensures Given(ps, args, own)[ps[i].name] == Cell(ps[i].ty, Cut(ps[i].ty, args[i]))
  {
    hide Cut;
    var next := own[ps[0].name := Cell(ps[0].ty, Cut(ps[0].ty, args[0]))];
    if i == 0 {
      assert forall j | 0 <= j < |ps[1..]| :: ps[1..][j].name != ps[0].name;
      GivenKeeps(ps[1..], args[1..], next, ps[0].name);
    } else {
      GivenAt(ps[1..], args[1..], next, i - 1);
    }
  }

  // ------------------------------------------------------------------------ constants

  const START := Resolve.Scope(map[], {}, 1)

  function Globals(p: Program): Resolve.Listed<Ast.Symbol>
    requires Resolve.ResolveProgram(p).Some?
  {
    Resolve.DeclareConsts(p.consts, START).value
  }

  function Locals(p: Program): Resolve.Listed<Ast.Symbol>
    requires Resolve.ResolveProgram(p).Some?
  {
    Resolve.DeclareParams(p.fn.params, Resolve.Inner(Globals(p).scope)).value
  }

  // The constants' scope, by symbols.
  ghost predicate Global(p: Program, sh: Shape) {
    && Resolve.ResolveProgram(p).Some?
    && Shows(sh, Globals(p).scope) && sh.outer == Bottom
    && Owns(sh, ConstNames(p.consts), ConstTypes(p.consts), Globals(p).items)
  }

  lemma GlobalShape(p: Program) returns (sh: Shape)
    requires Resolve.ResolveProgram(p).Some?
    ensures Global(p, sh)
  {
    hide Resolve.ResolveProgram, Resolve.DeclareConsts, Shows, Owns;
    ConstsDeclared(p);
    StartShows();
    sh := ConstScope(p.consts, START, Level(map[], Bottom), [], [], []);
    NoneBefore(ConstNames(p.consts), ConstTypes(p.consts), Globals(p).items);
  }

  lemma ConstsDeclared(p: Program)
    requires Resolve.ResolveProgram(p).Some?
    ensures Resolve.DeclareConsts(p.consts, START).Some?
  {
    hide Resolve.ResolveExpr, Resolve.ResolveBlock, Resolve.DeclareConsts, Resolve.DeclareParams, Resolve.ResolveInits;
  }

  lemma StartShows()
    ensures Shows(Level(map[], Bottom), START) && Owns(Level(map[], Bottom), [], [], [])
  {
  }

  // Named constants hold the numbers sigma.
  predicate Filled(p: Program, sh: Shape, g: map<string, Cell>, sigma: Numbers) {
    Tied(Frame(g, Outside), sh, sigma)
  }

  // The definitions of the checked constants.
  ghost predicate Defines(p: Program, defs: Definitions, bounds: Bounds) {
    && LexProgramPrinted.LegalProgram(p) && Resolve.ResolveProgram(p).Some?
    && var r := Resolve.ResolveProgram(p).value;
       && ConstsChecked(r.consts, r.inits) && defs == Defined(ConstNodes(r.consts, r.inits)) && DefinitionsOk(defs, bounds)
       && forall s | s in defs :: Widths(AsFolded(defs[s]))
  }

  // One of them, with its text.
  predicate InitOf(p: Program, e: Ast.Expr, x: Ast.Symbol, i: nat)
    requires i < |p.consts| && Resolve.ResolveProgram(p).Some?
  {
    && p.consts[i].ScalarConst? && x.ty == p.consts[i].ty && x.ty.width > 0
    && Resolve.ResolveExpr(p.consts[i].init, Globals(p).scope.visible) == Some(e)
    && Fresh(ToNode(e)) && CheckExpr(ToNode(e), x.ty).ok
  }

  lemma InitAt(p: Program, defs: Definitions, bounds: Bounds, sh: Shape, i: nat) returns (e: Ast.Expr, x: Ast.Symbol)
    requires Defines(p, defs, bounds) && Global(p, sh) && i < |p.consts|
    ensures i < |Globals(p).items| && x == Globals(p).items[i] && InitOf(p, e, x, i)
    ensures x in defs && defs[x] == CheckedNode(e, x.ty) && Widths(AsFolded(defs[x]))
  {
    hide Shows, CheckExpr, Fresh, ToNode, AsFolded, Defined, DefinitionsOk, Widths, LexProgramPrinted.LegalProgram;
    hide Resolve.ResolveExpr, Resolve.ResolveBlock, Resolve.DeclareConsts, Resolve.DeclareParams, Resolve.ResolveInits;
    var r := Resolve.ResolveProgram(p).value;
    InitsAre(p.consts, Globals(p).scope);
    ConstsFresh(p);
    Resolve.ProgramUnique(p);
    DefinedIs(ConstNodes(r.consts, r.inits));
    assert ConstTypes(p.consts)[i] == p.consts[i].ty;
    assert ConstNodes(r.consts, r.inits)[i].sym == r.consts[i];
    e, x := r.inits[i], r.consts[i];
  }

  // The number of a constant's definition, by name and by symbol.
  lemma InitNamed(p: Program, defs: Definitions, bounds: Bounds, sh: Shape, g: map<string, Cell>, sigma: Numbers, i: nat)
    requires Defines(p, defs, bounds) && Global(p, sh) && Filled(p, sh, g, sigma) && i < |p.consts|
    ensures i < |Globals(p).items| && p.consts[i].ScalarConst?
    ensures var x := Globals(p).items[i];
            && x in defs && Widths(AsFolded(defs[x]))
            && NumberIn(p.consts[i].init, p.consts[i].ty, Frame(g, Outside)) == Ideal(AsFolded(defs[x]), sigma)
  {
    hide Shows, Tied, CheckExpr, Fresh, ToNode, AsFolded, Defines, NumberIn, Ideal, Widths, Resolve.ResolveProgram, Resolve.ResolveExpr, Globals;
    var e, x := InitAt(p, defs, bounds, sh, i);
    LimitNamed(p.consts[i].init, x.ty, AsFolded(defs[x]), Frame(g, Outside), sh, Globals(p).scope, sigma);
  }

  // The frame that holds sigma.
  function CellsOf(sh: Shape, sigma: Numbers): map<string, Cell>
    requires sh.Level?
  {
    map name | name in sh.own :: Cell(sh.own[name].ty, if sh.own[name] in sigma then sigma[sh.own[name]] else 0)
  }

  lemma CellsHold(p: Program, sh: Shape, sigma: Numbers)
    requires Global(p, sh) && forall x | x in Globals(p).items :: x in sigma
    ensures Filled(p, sh, CellsOf(sh, sigma), sigma)
  {
    hide Shows, Resolve.ResolveProgram, Globals;
    var names, g := ConstNames(p.consts), CellsOf(sh, sigma);
    forall name | name in g ensures sh.own[name] in sigma && g[name] == Cell(sh.own[name].ty, sigma[sh.own[name]]) {
      var i :| 0 <= i < |names| && names[i] == name;
    }
    assert Tied(Outside, sh.outer, sigma);
  }

  // The numbers a frame gives the constants' symbols.
  function NumbersOf(sh: Shape, g: map<string, Cell>): Numbers
    requires sh.Level? && forall x, y | x in sh.own && y in sh.own && sh.own[x] == sh.own[y] :: x == y
  {
    map name | name in sh.own :: sh.own[name] := if name in g then g[name].n else 0
  }

  lemma FrameHolds(p: Program, sh: Shape, g: map<string, Cell>)
    requires Global(p, sh) && Solves(p.consts, g)
    ensures sh.Level? && forall x, y | x in sh.own && y in sh.own && sh.own[x] == sh.own[y] :: x == y
    ensures Filled(p, sh, g, NumbersOf(sh, g)) && g == CellsOf(sh, NumbersOf(sh, g))
  {
    hide Resolve.ResolveProgram, Globals, NumberIn, Solves, Owns;
    FrameTypes(p, sh, g);
    assert Tied(Outside, sh.outer, NumbersOf(sh, g));
  }

  lemma FrameTypes(p: Program, sh: Shape, g: map<string, Cell>)
    requires Global(p, sh) && Solves(p.consts, g)
    ensures g.Keys == sh.own.Keys && forall name | name in g :: g[name].ty == sh.own[name].ty
  {
    hide Resolve.ResolveProgram, Globals, NumberIn, Shows;
    var names, types := ConstNames(p.consts), ConstTypes(p.consts);
    forall name ensures name in g <==> name in sh.own {
      if name in sh.own {
        var i :| 0 <= i < |names| && names[i] == name;
        assert p.consts[i].name == name;
      }
      if name in g {
        var i :| 0 <= i < |p.consts| && p.consts[i].name == name;
        assert names[i] == name;
      }
    }
    forall name | name in g ensures g[name].ty == sh.own[name].ty {
      var i :| 0 <= i < |p.consts| && p.consts[i].name == name;
      assert names[i] == name && types[i] == p.consts[i].ty;
    }
  }

  // The constants of an accepted program have the numbers of their definitions, by name,
  // and no other numbers do.
  lemma OneSource(p: Program, tp: Ast.Program, bounds: Bounds) returns (sh: Shape, g: map<string, Cell>)
    requires LexProgramPrinted.LegalProgram(p) && Accepted(p, tp) && Obeys(p, tp, bounds)
    ensures Global(p, sh) && Filled(p, sh, g, ConstNumbers(tp))
    ensures Solves(p.consts, g) && forall other | Solves(p.consts, other) :: other == g
  {
    hide LexProgramPrinted.LegalProgram, Accepted, Obeys, Shows, Tied, Defined, DefinitionsOk, FoldedAll, Widths, Solves, Owns, CellsOf, NumbersOf;
    hide Resolve.ResolveProgram, Globals, ConstNumbers, Filled, Global, ConstsChecked, ConstNodes, Emit.ConstantTable;
    Resolves(p, tp);
    sh := GlobalShape(p);
    var defs := ConstsFold(p, tp, bounds);
    var vals := Emit.ConstantTable(tp.consts);
    DefinitionsWide(defs, bounds);
    SymbolsFold(p, tp, defs, vals);
    GlobalLevel(p, sh);
    g := CellsOf(sh, ConstNumbers(tp));
    CellsHold(p, sh, ConstNumbers(tp));
    FoldedSolves(defs, vals, bounds);
    CellsSolve(p, defs, bounds, sh, g, ConstNumbers(tp));
    forall other | Solves(p.consts, other) ensures other == g {
      FrameHolds(p, sh, other);
      FrameSolves(p, defs, bounds, sh, other);
      OneSolution(defs, vals, bounds, NumbersOf(sh, other));
      SameCells(p, sh, defs, NumbersOf(sh, other), ConstNumbers(tp));
    }
  }

  lemma Resolves(p: Program, tp: Ast.Program)
    requires Accepted(p, tp)
    ensures Resolve.ResolveProgram(p).Some?
    ensures tp.params == Resolve.ResolveProgram(p).value.params && tp.returnType == p.fn.returnType
    ensures ConstNumbers(tp) == Constants(Emit.ConstantTable(tp.consts))
  {
    hide ChecksBlock, Derives, Resolve.ResolveProgram, CheckExpr;
  }

  lemma GlobalLevel(p: Program, sh: Shape)
    requires Global(p, sh)
    ensures sh.Level? && Resolve.ResolveProgram(p).Some?
  {
  }

  // Every constant's symbol has a definition and a folded number.
  lemma SymbolsFold(p: Program, tp: Ast.Program, defs: Definitions, vals: map<Ast.Symbol, Bits>)
    requires Resolve.ResolveProgram(p).Some? && FoldedAll(vals, defs) && vals == Emit.ConstantTable(tp.consts)
    requires var r := Resolve.ResolveProgram(p).value; ConstsChecked(r.consts, r.inits) && defs == Defined(ConstNodes(r.consts, r.inits))
    ensures forall x | x in Globals(p).items :: x in defs && x in ConstNumbers(tp)
    ensures forall x | x in defs :: x in Globals(p).items
  {
    hide CheckExpr, Defined, Derives, Resolve.ResolveBlock, Resolve.DeclareConsts, Resolve.DeclareParams, Resolve.ResolveInits;
    var r := Resolve.ResolveProgram(p).value;
    var decls := ConstNodes(r.consts, r.inits);
    Resolve.ProgramUnique(p);
    DefinedIs(decls);
    assert Globals(p).items == r.consts;
    forall x | x in r.consts ensures x in defs {
      var i :| 0 <= i < |r.consts| && r.consts[i] == x;
      assert decls[i].sym == x;
    }
    forall x | x in defs ensures x in r.consts {
      var i :| 0 <= i < |decls| && decls[i].sym == x;
      assert r.consts[i] == x;
    }
  }

  lemma CellsSolve(p: Program, defs: Definitions, bounds: Bounds, sh: Shape, g: map<string, Cell>, rho: Numbers)
    requires Defines(p, defs, bounds) && Global(p, sh) && Filled(p, sh, g, rho)
    requires sh.Level? && g == CellsOf(sh, rho)
    requires Solution(defs, rho)
    ensures Solves(p.consts, g)
  {
    hide Shows, Tied, Defines, Widths, Resolve.ResolveProgram, NumberIn, Ideal, Filled, AsFolded, Globals;
    var names, types := ConstNames(p.consts), ConstTypes(p.consts);
    forall i | 0 <= i < |p.consts|
      ensures p.consts[i].ScalarConst? && p.consts[i].name in g
      ensures g[p.consts[i].name] == Cell(p.consts[i].ty, NumberIn(p.consts[i].init, p.consts[i].ty, Frame(g, Outside)))
    {
      assert names[i] == p.consts[i].name && types[i] == p.consts[i].ty;
      InitNamed(p, defs, bounds, sh, g, rho, i);
    }
    forall name ensures name in g <==> name in (set i | 0 <= i < |p.consts| :: p.consts[i].name) {
      if name in g {
        var i :| 0 <= i < |names| && names[i] == name;
        assert p.consts[i].name == name;
      }
    }
  }

  lemma FrameSolves(p: Program, defs: Definitions, bounds: Bounds, sh: Shape, g: map<string, Cell>)
    requires Defines(p, defs, bounds) && Global(p, sh) && Solves(p.consts, g)
    requires sh.Level? && forall x, y | x in sh.own && y in sh.own && sh.own[x] == sh.own[y] :: x == y
    requires Filled(p, sh, g, NumbersOf(sh, g))
    requires (forall s | s in defs :: Widths(AsFolded(defs[s]))) && forall x | x in defs :: x in Globals(p).items
    ensures Solution(defs, NumbersOf(sh, g))
  {
    hide Shows, Tied, Defines, Widths, Resolve.ResolveProgram, NumberIn, Ideal, Filled, AsFolded, Globals;
    var names, syms := ConstNames(p.consts), Globals(p).items;
    forall s | s in defs ensures s in NumbersOf(sh, g) && NumbersOf(sh, g)[s] == Ideal(AsFolded(defs[s]), NumbersOf(sh, g)) {
      var i :| 0 <= i < |syms| && syms[i] == s;
      assert names[i] == p.consts[i].name && sh.own[names[i]] == s;
      InitNamed(p, defs, bounds, sh, g, NumbersOf(sh, g), i);
    }
  }

  lemma SameCells(p: Program, sh: Shape, defs: Definitions, a: Numbers, b: Numbers)
    requires Global(p, sh) && sh.Level? && forall x | x in Globals(p).items :: x in defs
    requires forall s | s in defs :: s in a && s in b && a[s] == b[s]
    ensures CellsOf(sh, a) == CellsOf(sh, b)
  {
    hide Shows, Resolve.ResolveProgram, Globals;
    var names := ConstNames(p.consts);
    forall name | name in sh.own ensures sh.own[name] in defs {
      var i :| 0 <= i < |names| && names[i] == name;
    }
  }

  // ---------------------------------------------------------------------- the function

  lemma LocalShape(p: Program, global: Shape) returns (sh: Shape)
    requires Global(p, global)
    ensures Shows(sh, Locals(p).scope) && sh.outer == global
    ensures Owns(sh, ParamNames(p.fn.params), ParamTypes(p.fn.params), Locals(p).items)
  {
    hide Resolve.ResolveProgram, Resolve.DeclareParams, Shows, Owns, Globals;
    ParamsDeclared(p);
    InnerShows(global, Globals(p).scope);
    NoneOwned(global);
    sh := ParamScope(p.fn.params, Resolve.Inner(Globals(p).scope), Level(map[], global), [], [], []);
    NoneBefore(ParamNames(p.fn.params), ParamTypes(p.fn.params), Locals(p).items);
  }

  lemma ParamsDeclared(p: Program)
    requires Resolve.ResolveProgram(p).Some?
    ensures Resolve.DeclareParams(p.fn.params, Resolve.Inner(Globals(p).scope)).Some?
  {
    hide Resolve.ResolveExpr, Resolve.ResolveBlock, Resolve.DeclareConsts, Resolve.DeclareParams, Resolve.ResolveInits;
  }

  lemma NoneBefore(names: seq<string>, types: seq<Type>, syms: seq<Ast.Symbol>)
    ensures [] + names == names && [] + types == types && [] + syms == syms
  {
  }

  lemma NoneOwned(sh: Shape)
    ensures Owns(Level(map[], sh), [], [], [])
  {
  }

  lemma {:induction false} TiedIncludes(fs: Frames, sh: Shape, rho: Numbers, vars: Numbers)
    requires Tied(fs, sh, rho) && Written.Includes(vars, rho)
    ensures Tied(fs, sh, vars)
  {
    if fs.Frame? {
      TiedIncludes(fs.outer, sh.outer, rho, vars);
    }
  }

  lemma GivenTied(p: Program, sh: Shape, args: seq<int>, outer: Frames, vars: Numbers)
    requires |args| == |p.fn.params| && Resolve.ResolveProgram(p).Some?
    requires Owns(sh, ParamNames(p.fn.params), ParamTypes(p.fn.params), Locals(p).items)
    requires Tied(outer, sh.outer, vars)
    requires forall i | 0 <= i < |args| && i < |Locals(p).items| ::
               var x := Locals(p).items[i]; x in vars && vars[x] == Cut(x.ty, args[i])
    ensures Tied(Frame(Given(p.fn.params, args, map[]), outer), sh, vars)
  {
    hide Resolve.ResolveProgram, Locals, Cut, Given;
    var ps := p.fn.params;
    var names, types, own := ParamNames(ps), ParamTypes(ps), Given(ps, args, map[]);
    GivenKeys(ps, args, map[]);
    assert forall j, k | 0 <= j < k < |ps| :: names[j] == ps[j].name && names[k] == ps[k].name;
    forall name | name in own ensures sh.own[name] in vars && own[name] == Cell(sh.own[name].ty, vars[sh.own[name]]) {
      var i :| 0 <= i < |names| && names[i] == name;
      assert names[i] == ps[i].name && types[i] == ps[i].ty;
      GivenAt(ps, args, map[], i);
    }
  }

  lemma SameParams(p: Program, tp: Ast.Program)
    requires Accepted(p, tp)
    ensures tp.params == Locals(p).items && Resolve.ResolveBlock(p.fn.body, Locals(p).scope).Some?
    ensures Resolve.ResolveProgram(p).value.body == Resolve.ResolveBlock(p.fn.body, Locals(p).scope).value.items
  {
    hide ChecksBlock, Derives, CheckExpr, Resolve.ResolveBlock, Resolve.DeclareConsts, Resolve.DeclareParams, Resolve.ResolveInits;
  }

  // At entry the named and the numbered variables agree.
  lemma EntryNamed(p: Program, tp: Ast.Program, bounds: Bounds, args: seq<int>, global: Shape, g: map<string, Cell>, sh: Shape)
    requires LexProgramPrinted.LegalProgram(p) && Accepted(p, tp) && Obeys(p, tp, bounds)
    requires |args| == |p.fn.params| && |args| == |tp.params|
    requires Global(p, global) && Filled(p, global, g, ConstNumbers(tp))
    requires Shows(sh, Locals(p).scope) && sh.outer == global
    requires Owns(sh, ParamNames(p.fn.params), ParamTypes(p.fn.params), Locals(p).items)
    ensures Same(Frame(Given(p.fn.params, args, map[]), Frame(g, Outside)), sh, Locals(p).scope, EntryVars(tp, args), ConstNumbers(tp))
  {
    hide LexProgramPrinted.LegalProgram, Accepted, Obeys, Shows, Tied, Owns, Resolve.ResolveProgram, Locals, Globals, EntryVars, ConstNumbers;
    hide Cut, Given, CompileCorrect.ProgramOk, Written.Includes, Emit.ConstantTable, Global;
    AcceptedIsOk(p, tp, bounds);
    EntryIncludes(p, tp, bounds, args);
    CompileCorrect.VarsAtStart(tp, args);
    SameParams(p, tp);
    Resolves(p, tp);
    TiedIncludes(Frame(g, Outside), global, ConstNumbers(tp), EntryVars(tp, args));
    GivenTied(p, sh, args, Frame(g, Outside), EntryVars(tp, args));
  }

  lemma BodyReady(p: Program, tp: Ast.Program, bounds: Bounds) returns (defs: Definitions)
    requires LexProgramPrinted.LegalProgram(p) && Accepted(p, tp) && Obeys(p, tp, bounds)
    ensures BlockReady(Resolve.ResolveProgram(p).value.body, tp.body, p.fn.returnType, defs, ConstNumbers(tp))
    ensures ParseProgramPrinted.BuiltBlock(p.fn.body)
  {
    hide Resolve.ResolveProgram, ChecksBlock, AllowedBlock, RegularBlock, Emit.ConstantTable, FreshBlock, LexProgramPrinted.LegalBlock;
    hide CompileCorrect.ConstsOk, Ast.BlockDecls, Ast.BlockAssigned, Ast.BlockUnique, Derives, CheckExpr, BlockForward, Written.BlockCounted;
    var r := Resolve.ResolveProgram(p).value;
    defs := Defined(ConstNodes(r.consts, r.inits));
    BodyFresh(p);
    AcceptedIsOk(p, tp, bounds);
    AcceptedIsCounted(p, tp, bounds);
  }

  lemma EmittedOnce(tp: Ast.Program, f: Ir.Func)
    requires Emit.EmitFunction(tp) == Some(f)
    ensures Returns.BlockStops(tp.body) && Ast.BlockReturns(Returns.UpToReturn(tp.body)) == 1
  {
    hide Emit.EmitBlock, Returns.BlockStops;
    Returns.BlockStopsReturns(tp.body, EmitTotal.ContextOf(tp), EmitTotal.StartOf(tp));
  }

  // What the text says is what the emitted part of the resolved and checked body means.
  lemma SaysMeans(p: Program, tp: Ast.Program, bounds: Bounds, f: Ir.Func, g: map<string, Cell>, args: seq<int>, previous: int)
    requires LexProgramPrinted.LegalProgram(p) && Accepted(p, tp) && Obeys(p, tp, bounds)
    requires Emit.EmitFunction(tp) == Some(f) && Solves(p.consts, g)
    requires |args| == |p.fn.params| && |args| == |tp.params|
    ensures Scopes.Result(p, g, args) == Some(Means.Result(CompileCorrect.Emitted(tp), args, previous))
  {
    hide LexProgramPrinted.LegalProgram, Accepted, Obeys, Shows, Owns, Resolve.ResolveProgram, Locals, Globals, EntryVars, ConstNumbers;
    hide Cut, Given, Emit.EmitFunction, Global, Filled, Solves, BlockReady, Same, DoesBlock, SaysBlock;
    var global, h := OneSource(p, tp, bounds);
    assert h == g;
    var sh := LocalShape(p, global);
    EntryNamed(p, tp, bounds, args, global, g, sh);
    var defs := BodyReady(p, tp, bounds);
    EmittedOnce(tp, f);
    SameParams(p, tp);
    Resolves(p, tp);
    StopBlockNamed(p.fn.body, Locals(p).scope, Frame(Given(p.fn.params, args, map[]), Frame(g, Outside)), sh, tp.body, p.fn.returnType,
                   defs, Sense(EntryVars(tp, args), previous), ConstNumbers(tp));
    SameEntry(tp, args);
  }

  // A function and its circuit, where there is one, return this word for these numbers;
  // there is a circuit exactly when no loop that runs is reached.
  predicate BothReturn(f: Ir.Func, tp: Ast.Program, args: seq<int>, word: Option<nat>) {
    && |args| == |tp.params|
    && Ir.Call(f, CompileCorrect.Words(tp, args), false) == word
    && (Lower.LowerFunction(f).Some? <==> !CircuitCorrect.BlockLoops(tp.body))
    && (Lower.LowerFunction(f).Some? ==> Hw.Output(Lower.LowerFunction(f).value, CompileCorrect.Words(tp, args)) == word)
  }

  // Accepted, within the rules, and such that the emitter takes it.
  ghost predicate Compiles(p: Program, tp: Ast.Program, bounds: Bounds) {
    Accepted(p, tp) && Obeys(p, tp, bounds) && Emittable.Emittable(tp)
  }

  // The number the text says is returned, as a word of the return type.
  function Word(p: Program, g: map<string, Cell>, args: seq<int>): Option<nat>
    requires |args| == |p.fn.params|
  {
    match Scopes.Result(p, g, args)
    case None => None
    case Some(n) => Some(n % Pow2(p.fn.returnType.width))
  }

  // For every accepted program within the rules that keeps to the emitter's conditions
  // there is one assignment of numbers to its constants that their definitions ask for,
  // and with it the emitted function and the circuit return, on all numbers passed, what
  // the text says.
  lemma CodeIsText(p: Program, tp: Ast.Program, bounds: Bounds, g: map<string, Cell>, args: seq<int>) returns (f: Ir.Func)
    requires LexProgramPrinted.LegalProgram(p) && Compiles(p, tp, bounds) && Solves(p.consts, g) && |args| == |p.fn.params|
    ensures Emit.EmitFunction(tp) == Some(f) && Ir.VerifyFunc(f)
    ensures Word(p, g, args).Some? && BothReturn(f, tp, args, Word(p, g, args))
  {
    hide LexProgramPrinted.LegalProgram, Accepted, Obeys, Resolve.ResolveProgram, Emit.EmitFunction, Solves, Scopes.Result, Means.Result;
    hide Ir.Call, Ir.VerifyFunc, Lower.LowerFunction, Hw.Output, CompileCorrect.Words, CircuitCorrect.BlockLoops, CompileCorrect.Emitted, Pow2;
    hide Emittable.Emittable;
    Emittable.EmitIff(tp);
    f := Emit.EmitFunction(tp).value;
    ParamCount(p, tp);
    Resolves(p, tp);
    SaysMeans(p, tp, bounds, f, g, args, 0);
    MeansAsWritten(p, tp, bounds, args, 0);
    CodeIsMeaning(p, tp, bounds, f, args, 0);
  }

  // What the front end reads of a text.
  predicate IsRead(text: string, p: Program) {
    Lex.Tokenize(text).Some? && ProgramGrammar.ParseProgram(Lex.Tokenize(text).value) == Some(p)
  }

  // From the characters of a file on: what is read of it needs no condition of its own.
  lemma FileIsCircuit(text: string, p: Program, tp: Ast.Program, bounds: Bounds, g: map<string, Cell>, args: seq<int>) returns (f: Ir.Func)
    requires IsRead(text, p) && Compiles(p, tp, bounds) && Solves(p.consts, g) && |args| == |p.fn.params|
    ensures Emit.EmitFunction(tp) == Some(f) && Word(p, g, args).Some? && BothReturn(f, tp, args, Word(p, g, args))
  {
    hide LexProgramPrinted.LegalProgram, Compiles, Emit.EmitFunction, Solves, Word, BothReturn, Ir.VerifyFunc;
    hide Lex.Tokenize, ProgramGrammar.ParseProgram;
    Legality.ReadIsLegal(text, p);
    f := CodeIsText(p, tp, bounds, g, args);
  }

  lemma ParamCount(p: Program, tp: Ast.Program)
    requires Accepted(p, tp)
    ensures |tp.params| == |p.fn.params|
  {
    hide ChecksBlock, Derives, CheckExpr, Resolve.ResolveProgram, Owns;
    Resolves(p, tp);
    var global := GlobalShape(p);
    var sh := LocalShape(p, global);
    SameParams(p, tp);
    OwnsLength(sh, ParamNames(p.fn.params), ParamTypes(p.fn.params), Locals(p).items);
  }

  lemma OwnsLength(sh: Shape, names: seq<string>, types: seq<Type>, syms: seq<Ast.Symbol>)
    requires Owns(sh, names, types, syms)
    ensures |names| == |syms|
  {
  }

  // The interpreter, on every run within its limits, returns it too.
  lemma RunIsText(p: Program, tp: Ast.Program, bounds: Bounds, f: Ir.Func, g: map<string, Cell>, inputs: seq<Bits>, previous: Bits)
    requires LexProgramPrinted.LegalProgram(p) && Accepted(p, tp) && Obeys(p, tp, bounds)
    requires Emit.EmitFunction(tp) == Some(f) && Solves(p.consts, g) && CompileCorrect.InputsOk(tp, inputs)
    requires |inputs| == |p.fn.params| && CompileCorrect.RunInside(CompileCorrect.Emitted(tp), inputs, previous)
    ensures var run := Interp.RunProgram(CompileCorrect.Emitted(tp), inputs, previous);
            run.Some? && Some(run.value.raw) == Word(p, g, CompileCorrect.Args(inputs))
    ensures Ast.BlockReturns(tp.body) <= 1 ==>
            Interp.RunProgram(tp, inputs, previous) == Interp.RunProgram(CompileCorrect.Emitted(tp), inputs, previous)
  {
    hide LexProgramPrinted.LegalProgram, Accepted, Obeys, Resolve.ResolveProgram, Emit.EmitFunction, Solves, Scopes.Result, Means.Result;
    hide Ir.Call, Ir.VerifyFunc, Lower.LowerFunction, Hw.Output, CompileCorrect.ArgWords, CircuitCorrect.BlockLoops, CompileCorrect.Emitted, Pow2;
    hide Interp.RunProgram, CompileCorrect.RunInside, CompileCorrect.Args, NumberOf, CompileCorrect.InputsOk;
    ParamCount(p, tp);
    Resolves(p, tp);
    SaysMeans(p, tp, bounds, f, g, CompileCorrect.Args(inputs), NumberOf(previous));
    MeansAsWritten(p, tp, bounds, CompileCorrect.Args(inputs), NumberOf(previous));
    WholeCompiler(p, tp, bounds, f, inputs, previous);
  }
}
