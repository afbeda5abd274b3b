/**
 From a parsed program to its circuit: what the resolver and the checker accept,
 within the documented rules, meets every hypothesis of the translation theorems.
 */
module EndToEnd {
  import opened Arith
  import opened FixedWidth
  import Ast
  import Syntax
  import opened Meaning
  import opened TypeCheck
  import opened Rules
  import opened FrontEnd
  import opened ExecFacts
  import opened Means
  import opened Scoping
  import Resolve
  import Interp
  import Ir
  import Emit
  import Hw
  import Lower
  import EmitTotal
  import opened ConstFold
  import opened Folding
  import opened TripCount
  import Written
  import Returns
  import CompileCorrect
  import CircuitCorrect
  import LexPrinted
  import LexProgramPrinted
  import opened Wrappers

  // -------------------------------------------------------------------- programs

  lemma {:induction false} ConstTypes(cs: seq<Syntax.ConstDecl>, sc: Resolve.Scope)
    requires (forall i | 0 <= i < |cs| :: LexProgramPrinted.LegalConst(cs[i])) && TypesOk(sc.visible)
    requires Resolve.DeclareConsts(cs, sc).Some?
    ensures TypesOk(Resolve.DeclareConsts(cs, sc).value.scope.visible)
  {
    hide LexPrinted.LegalName, LexPrinted.LegalExpr, LexProgramPrinted.LegalList;
    if cs != [] {
      ConstTypes(cs[1..], Resolve.Declare(Resolve.GlobalConst, cs[0].name, cs[0].ty, sc).value.scope);
    }
  }

  lemma {:induction false} ParamTypes(ps: seq<Syntax.Param>, sc: Resolve.Scope)
    requires (forall i | 0 <= i < |ps| :: LexProgramPrinted.LegalParam(ps[i])) && TypesOk(sc.visible)
    requires Resolve.DeclareParams(ps, sc).Some?
    ensures var g := Resolve.DeclareParams(ps, sc).value;
            TypesOk(g.scope.visible) && forall i | 0 <= i < |g.items| :: TypeOk(g.items[i].ty)
  {
    hide LexPrinted.LegalName, LexPrinted.LegalExpr;
    if ps != [] {
      ParamTypes(ps[1..], Resolve.Declare(Resolve.ScalarParam, ps[0].name, ps[0].ty, sc).value.scope);
    }
  }

  // The constants as the evaluator gets them: each with its checked initialiser.
  function ConstNodes(syms: seq<Ast.Symbol>, inits: seq<Ast.Expr>): (r: seq<ConstDecl>)
    requires |syms| == |inits| && forall i | 0 <= i < |syms| :: syms[i].ty.width > 0
    ensures |r| == |syms|
  {
    seq(|syms|, i requires 0 <= i < |syms| => ConstDecl(syms[i], CheckedNode(inits[i], syms[i].ty)))
  }

  // The constants are checked at their types.
  predicate ConstsChecked(syms: seq<Ast.Symbol>, inits: seq<Ast.Expr>) {
    && |syms| == |inits|
    && forall i | 0 <= i < |syms| :: syms[i].ty.width > 0 && CheckExpr(ToNode(inits[i]), syms[i].ty).ok
  }

  // The program the back end is given: resolved symbols, a checked and counted
  // body, and a folded value for every constant.
  ghost predicate Accepted(p: Syntax.Program, tp: Ast.Program) {
    && p.fn.returnType.width > 0 && Resolve.ResolveProgram(p).Some?
    && var r := Resolve.ResolveProgram(p).value;
       && tp.params == r.params && tp.returnType == p.fn.returnType
       && ConstsChecked(r.consts, r.inits)
       && var defs := Defined(ConstNodes(r.consts, r.inits));
          && ChecksBlock(r.body, tp.body, p.fn.returnType, defs)
          && |tp.consts| == |r.consts|
          && forall i | 0 <= i < |tp.consts| ::
               tp.consts[i].sym == r.consts[i]
               && Derives(CheckedNode(r.inits[i], r.consts[i].ty), defs, tp.consts[i].value)
  }

  // A header that reads constants only and, if it enters, steps toward its limit.
  predicate Forward(s: Ast.Stmt, rho: Numbers, bounds: Bounds)
    requires s.For?
  {
    && Foldable(s.init, bounds) && Foldable(s.limit, bounds) && Foldable(s.step, bounds)
    && Reads(s.init) + Reads(s.limit) + Reads(s.step) <= rho.Keys
    && Widths(s.init) && Widths(s.limit) && Widths(s.step)
    && var start, end, step := Ideal(s.init, rho), Ideal(s.limit, rho), Ideal(s.step, rho);
       (Holds(s.rel, start, end) ==> step > 0 && Toward(s.stepIsAdd, s.rel))
  }

  predicate StmtForward(s: Ast.Stmt, rho: Numbers, bounds: Bounds)
    decreases s, 0
  {
    match s
    case If(_, t, e) => BlockForward(t, rho, bounds) && ElseForward(e, rho, bounds)
    case For(_, _, _, _, _, _, _, _, body) => Forward(s, rho, bounds) && BlockForward(body, rho, bounds)
    case Block(b) => BlockForward(b, rho, bounds)
    case _ => true
  }

  predicate ElseForward(e: Ast.Else, rho: Numbers, bounds: Bounds)
    decreases e, 1
  {
    match e
    case NoElse => true
    case ElseDo(s) => StmtForward(s, rho, bounds)
  }

  predicate BlockForward(b: seq<Ast.Stmt>, rho: Numbers, bounds: Bounds)
    decreases b, 0
  {
    b == [] || (StmtForward(b[0], rho, bounds) && BlockForward(b[1..], rho, bounds))
  }

  // The numbers of a program's constants.
  function ConstNumbers(tp: Ast.Program): Numbers {
    Constants(Emit.ConstantTable(tp.consts))
  }

  // The rules left to the programmer, and the limits of folding.
  predicate Obeys(p: Syntax.Program, tp: Ast.Program, bounds: Bounds) {
    && AllowedBlock(tp.body) && CompileCorrect.ConstsOk(tp.consts)
    && BlockForward(tp.body, ConstNumbers(tp), bounds)
    && Resolve.ResolveProgram(p).Some?
    && var r := Resolve.ResolveProgram(p).value;
       && |r.consts| == |r.inits|
       && forall i | 0 <= i < |r.consts| && r.consts[i].ty.width > 0 ::
            var n := CheckedNode(r.inits[i], r.consts[i].ty);
            && Allowed(AsFolded(n)) && Foldable(AsFolded(n), bounds)
            && r.consts[i] in bounds && FoldWidth(AsFolded(n), bounds) <= bounds[r.consts[i]]
  }

  lemma {:induction false} TableKeys(cs: seq<Ast.Const>)
    ensures forall x :: x in Emit.ConstantTable(cs) <==> exists i :: 0 <= i < |cs| && cs[i].sym == x
    decreases |cs|
  {
    if cs != [] {
      var n := |cs| - 1;
      TableKeys(cs[..n]);
      forall x ensures x in Emit.ConstantTable(cs) <==> exists i :: 0 <= i < |cs| && cs[i].sym == x {
        if x in Emit.ConstantTable(cs) && x != cs[n].sym {
          assert x in Emit.ConstantTable(cs[..n]);
          var i :| 0 <= i < |cs[..n]| && cs[..n][i].sym == x;
          assert cs[i].sym == x;
        } else if exists i :: 0 <= i < |cs| && cs[i].sym == x {
          var i :| 0 <= i < |cs| && cs[i].sym == x;
          assert i < n ==> cs[..n][i].sym == x;
        }
      }
    }
  }

  // ------------------------------------------------------------------- constants

  lemma {:induction false} InitsFresh(cs: seq<Syntax.ConstDecl>, sc: Resolve.Scope)
    requires (forall i | 0 <= i < |cs| :: LexProgramPrinted.LegalConst(cs[i])) && TypesOk(sc.visible)
    requires Resolve.ResolveInits(cs, sc).Some?
    ensures var es := Resolve.ResolveInits(cs, sc).value.items;
            forall i | 0 <= i < |es| :: Fresh(ToNode(es[i]))
  {
    hide LexPrinted.LegalName, LexPrinted.LegalExpr, LexProgramPrinted.LegalList, Resolve.ResolveExpr, Fresh, ToNode;
    if cs != [] {
      ConstLegal(cs[0]);
      ExprFresh(cs[0].init, sc.visible);
      InitsFresh(cs[1..], sc);
    }
  }

  lemma ConstLegal(c: Syntax.ConstDecl)
    requires LexProgramPrinted.LegalConst(c) && !c.ArrayConst?
    ensures LexPrinted.LegalExpr(c.init)
  {
  }

  lemma {:induction false} ConstSymbols(cs: seq<Syntax.ConstDecl>, sc: Resolve.Scope)
    requires (forall i | 0 <= i < |cs| :: LexProgramPrinted.LegalConst(cs[i])) && Resolve.DeclareConsts(cs, sc).Some?
    ensures var xs := Resolve.DeclareConsts(cs, sc).value.items; forall i | 0 <= i < |xs| :: TypeOk(xs[i].ty)
  {
    hide LexPrinted.LegalName, LexPrinted.LegalExpr, LexProgramPrinted.LegalList;
    if cs != [] {
      ConstSymbols(cs[1..], Resolve.Declare(Resolve.GlobalConst, cs[0].name, cs[0].ty, sc).value.scope);
    }
  }

  // Each symbol is bound to its own definition.
  lemma {:induction false} DefinedIs(decls: seq<ConstDecl>)
    requires forall i, j | 0 <= i < j < |decls| :: decls[i].sym != decls[j].sym
    ensures forall i | 0 <= i < |decls| :: decls[i].sym in Defined(decls) && Defined(decls)[decls[i].sym] == decls[i].init
    ensures forall x | x in Defined(decls) :: exists i :: 0 <= i < |decls| && decls[i].sym == x
    decreases |decls|
  {
    if decls != [] {
      var n := |decls| - 1;
      DefinedIs(decls[..n]);
      forall x | x in Defined(decls) ensures exists i :: 0 <= i < |decls| && decls[i].sym == x {
        if x != decls[n].sym {
          assert x in Defined(decls[..n]);
          var i :| 0 <= i < |decls[..n]| && decls[..n][i].sym == x;
          assert decls[i].sym == x;
        }
      }
    }
  }

  lemma {:induction false} TableIs(cs: seq<Ast.Const>)
    requires forall i, j | 0 <= i < j < |cs| :: cs[i].sym != cs[j].sym
    ensures forall i | 0 <= i < |cs| :: cs[i].sym in Emit.ConstantTable(cs) && Emit.ConstantTable(cs)[cs[i].sym] == cs[i].value
    decreases |cs|
  {
    if cs != [] {
      TableIs(cs[..|cs| - 1]);
    }
  }

  // What acceptance gives of one constant's initialiser.
  lemma ConstTyped(e: Ast.Expr, t: Ast.Type)
    requires Fresh(ToNode(e)) && TypeOk(t) && CheckExpr(ToNode(e), t).ok && Allowed(AsFolded(CheckedNode(e, t)))
    ensures var c := AsFolded(CheckedNode(e, t)); Regular(c) && Assignable(c.ty, t)
  {
    hide Fresh, ToNode, CheckExpr, Allowed, Regular, AsFolded;
    AcceptedIsRegular(ToNode(e), t);
  }

  // An accepted constant within the rules.
  predicate ConstReady(sym: Ast.Symbol, init: Ast.Expr, bounds: Bounds) {
    && TypeOk(sym.ty) && Fresh(ToNode(init)) && CheckExpr(ToNode(init), sym.ty).ok
    && var n := CheckedNode(init, sym.ty);
       && Allowed(AsFolded(n)) && Foldable(AsFolded(n), bounds)
       && sym in bounds && FoldWidth(AsFolded(n), bounds) <= bounds[sym]
  }

  lemma DefinitionsReady(syms: seq<Ast.Symbol>, inits: seq<Ast.Expr>, bounds: Bounds)
    requires ConstsChecked(syms, inits) && forall i | 0 <= i < |syms| :: ConstReady(syms[i], inits[i], bounds)
    requires forall i, j | 0 <= i < j < |syms| :: syms[i] != syms[j]
    ensures DefinitionsOk(Defined(ConstNodes(syms, inits)), bounds)
  {
    hide CheckExpr, Fresh, ToNode, Allowed, Regular, Foldable, FoldWidth, AsFolded, Defined;
    var decls := ConstNodes(syms, inits);
    var defs := Defined(decls);
    DefinedIs(decls);
    forall s | s in defs
      ensures var e := AsFolded(defs[s]);
              && TypeOk(s.ty) && Regular(e) && Foldable(e, bounds)
              && s in bounds && FoldWidth(e, bounds) <= bounds[s] && Assignable(e.ty, s.ty)
    {
      var i :| 0 <= i < |decls| && decls[i].sym == s;
      ConstTyped(inits[i], syms[i].ty);
    }
  }

  // As they were resolved, the constants can be given to the checker.
  lemma ConstsFresh(p: Syntax.Program)
    requires LexProgramPrinted.LegalProgram(p) && Resolve.ResolveProgram(p).Some?
    ensures var r := Resolve.ResolveProgram(p).value;
            forall i | 0 <= i < |r.consts| && i < |r.inits| :: TypeOk(r.consts[i].ty) && Fresh(ToNode(r.inits[i]))
  {
    hide Resolve.ResolveBlock, Resolve.DeclareConsts, Resolve.DeclareParams, Resolve.ResolveInits, Fresh, ToNode;
    hide LexProgramPrinted.LegalBlock, LexProgramPrinted.LegalConst, LexProgramPrinted.LegalParam, LexPrinted.LegalName;
    var start := Resolve.Scope(map[], {}, 1);
    ConstTypes(p.consts, start);
    InitsFresh(p.consts, Resolve.DeclareConsts(p.consts, start).value.scope);
    ConstSymbols(p.consts, start);
  }

  // The evaluator's definitions, as the exactness of folding asks for them, and a
  // value for each.
  lemma ConstsFold(p: Syntax.Program, tp: Ast.Program, bounds: Bounds) returns (defs: Definitions)
    requires LexProgramPrinted.LegalProgram(p) && Accepted(p, tp) && Obeys(p, tp, bounds)
    ensures var r := Resolve.ResolveProgram(p).value;
            ConstsChecked(r.consts, r.inits) && defs == Defined(ConstNodes(r.consts, r.inits))
    ensures DefinitionsOk(defs, bounds) && FoldedAll(Emit.ConstantTable(tp.consts), defs)
  {
    hide LexProgramPrinted.LegalProgram, Resolve.ResolveProgram, ChecksBlock, AllowedBlock, BlockForward, CompileCorrect.ConstsOk;
    hide CheckExpr, Fresh, ToNode, Allowed, Foldable, FoldWidth, AsFolded, Defined, Derives, DefinitionsOk, FoldedAll, Emit.ConstantTable;
    var r := Resolve.ResolveProgram(p).value;
    ConstsFresh(p);
    Resolve.ProgramUnique(p);
    defs := Defined(ConstNodes(r.consts, r.inits));
    DefinitionsReady(r.consts, r.inits, bounds);
    DefinedIs(ConstNodes(r.consts, r.inits));
    TableFolded(tp.consts, ConstNodes(r.consts, r.inits), defs);
  }

  lemma {:induction false} TableFolded(cs: seq<Ast.Const>, decls: seq<ConstDecl>, defs: Definitions)
    requires |cs| == |decls| && forall i | 0 <= i < |cs| :: cs[i].sym == decls[i].sym && Derives(decls[i].init, defs, cs[i].value)
    requires forall i | 0 <= i < |decls| :: decls[i].sym in defs && defs[decls[i].sym] == decls[i].init
    requires forall x | x in defs :: exists i :: 0 <= i < |decls| && decls[i].sym == x
    requires forall i, j | 0 <= i < j < |cs| :: cs[i].sym != cs[j].sym
    ensures FoldedAll(Emit.ConstantTable(cs), defs)
  {
    hide Derives, Emit.ConstantTable;
    TableIs(cs);
    TableKeys(cs);
    var vals := Emit.ConstantTable(cs);
    forall x ensures x in vals <==> x in defs {
    }
    forall s | s in vals ensures Derives(defs[s], defs, vals[s]) {
      var i :| 0 <= i < |cs| && cs[i].sym == s;
    }
  }

  // ----------------------------------------------------------------- loop headers

  lemma HeaderMeans(e: Ast.Expr, t: Ast.Type, typed: Ast.Expr, v: Bits, defs: Definitions, vals: map<Ast.Symbol, Bits>, bounds: Bounds)
    requires DefinitionsOk(defs, bounds) && FoldedAll(vals, defs)
    requires Fresh(ToNode(e)) && TypeOk(t) && ChecksLimit(e, t, typed) && Allowed(typed)
    requires Foldable(typed, bounds) && Derives(CheckedNode(e, t), defs, v)
    ensures Regular(typed) && WidthOk(v.width) && Num(v) == Ideal(typed, Constants(vals))
    ensures t.width < WORD ==> Num(v) < Pow2(WORD - 1)
  {
    hide Fresh, ToNode, CheckExpr, Allowed, DefinitionsOk, FoldedAll, Derives, Foldable, Ideal, Regular, AsFolded;
    AcceptedIsRegular(ToNode(e), t);
    DerivedIs(CheckedNode(e, t), defs, vals, bounds, v);
    Below127(Num(v), typed.ty);
  }

  // A typed bound is one the checker left, like a limit.
  lemma ChecksBound(e: Ast.Expr, t: Ast.Type, typed: Ast.Expr)
    requires t.width > 0 && Checks(e, t, typed)
    ensures ChecksLimit(e, t, typed)
  {
    hide ToNode, CheckExpr, AsFolded, Erase;
    ChecksRead(e, t, typed);
  }

  lemma Below127(n: int, t: Ast.Type)
    requires TypeOk(t) && InRange(n, t.width, t.signed)
    ensures t.width < WORD ==> n < Pow2(WORD - 1)
  {
    if t.width < WORD {
      Pow2Mono(t.width, WORD - 1);
    }
  }

  lemma LoopIsCounted(r: Ast.Stmt, a: Ast.Stmt, t: Ast.Type, defs: Definitions, vals: map<Ast.Symbol, Bits>, bounds: Bounds)
    requires DefinitionsOk(defs, bounds) && FoldedAll(vals, defs)
    requires r.For? && t.width > 0 && FreshStmt(r) && ChecksStmt(r, a, t, defs) && AllowedStmt(a)
    requires Forward(a, Constants(vals), bounds)
    ensures Written.Counted(a, Constants(vals))
  {
    hide Fresh, ToNode, Checks, ChecksLimit, Allowed, DefinitionsOk, FoldedAll, Derives, Foldable, CheckedNode, EvaluateFor, Exactly;
    hide Constants, Ideal, Regular, Pow2, ChecksBlock, AllowedBlock, FreshBlock;
    var x: Bits, y: Bits, z: Bits :|
      && Derives(CheckedNode(r.init, a.iv.ty), defs, x)
      && Derives(CheckedNode(r.limit, a.iv.ty), defs, y)
      && Derives(CheckedNode(r.step, a.iv.ty), defs, z)
      && EvaluateFor(a.iv.ty, x, y, z, a.stepIsAdd, a.rel) == Some(a.trip);
    ChecksBound(r.init, a.iv.ty, a.init);
    ChecksBound(r.step, a.iv.ty, a.step);
    HeaderMeans(r.init, a.iv.ty, a.init, x, defs, vals, bounds);
    HeaderMeans(r.limit, a.iv.ty, a.limit, y, defs, vals, bounds);
    HeaderMeans(r.step, a.iv.ty, a.step, z, defs, vals, bounds);
    Written.AcceptedCounts(a.iv.ty, x, y, z, a.stepIsAdd, a.rel);
  }

  lemma {:induction false} StmtIsCounted(r: Ast.Stmt, a: Ast.Stmt, t: Ast.Type, defs: Definitions,
                                         vals: map<Ast.Symbol, Bits>, bounds: Bounds)
    requires DefinitionsOk(defs, bounds) && FoldedAll(vals, defs)
    requires t.width > 0 && FreshStmt(r) && ChecksStmt(r, a, t, defs) && AllowedStmt(a)
    requires StmtForward(a, Constants(vals), bounds)
    ensures Written.StmtCounted(a, Constants(vals))
    decreases r, 0
  {
    hide Fresh, ToNode, Checks, ChecksLimit, Allowed, DefinitionsOk, FoldedAll, HeaderFolds, Forward, Written.Counted, Constants;
    match r
    case If(_, b, e) =>
      BlockIsCounted(b, a.thenB, t, defs, vals, bounds);
      if e.ElseDo? {
        StmtIsCounted(e.stmt, a.elseS.stmt, t, defs, vals, bounds);
      }
    case For(_, _, _, _, _, _, _, _, body) =>
      LoopIsCounted(r, a, t, defs, vals, bounds);
      BlockIsCounted(body, a.body, t, defs, vals, bounds);
    case Block(b) => BlockIsCounted(b, a.stmts, t, defs, vals, bounds);
    case _ =>
  }

  lemma {:induction false} BlockIsCounted(r: seq<Ast.Stmt>, a: seq<Ast.Stmt>, t: Ast.Type, defs: Definitions,
                                          vals: map<Ast.Symbol, Bits>, bounds: Bounds)
    requires DefinitionsOk(defs, bounds) && FoldedAll(vals, defs)
    requires t.width > 0 && FreshBlock(r) && ChecksBlock(r, a, t, defs) && AllowedBlock(a)
    requires BlockForward(a, Constants(vals), bounds)
    ensures Written.BlockCounted(a, Constants(vals))
    decreases r, 0
  {
    hide DefinitionsOk, FoldedAll, Constants;
    if r != [] {
      StmtIsCounted(r[0], a[0], t, defs, vals, bounds);
      BlockIsCounted(r[1..], a[1..], t, defs, vals, bounds);
    }
  }

  // --------------------------------------------------------------- whole programs

  // The body, as it was resolved, is one the checker can be given.
  lemma BodyFresh(p: Syntax.Program)
    requires LexProgramPrinted.LegalProgram(p) && Resolve.ResolveProgram(p).Some?
    ensures var r := Resolve.ResolveProgram(p).value;
            && FreshBlock(r.body) && TypeOk(p.fn.returnType)
            && forall i | 0 <= i < |r.params| :: TypeOk(r.params[i].ty)
  {
    hide Resolve.ResolveBlock, Resolve.DeclareConsts, Resolve.DeclareParams, Resolve.ResolveInits, FreshBlock;
    hide LexPrinted.LegalName, LexProgramPrinted.LegalBlock, LexProgramPrinted.LegalConst, LexProgramPrinted.LegalParam;
    var start := Resolve.Scope(map[], {}, 1);
    var g := Resolve.DeclareConsts(p.consts, start).value;
    ConstTypes(p.consts, start);
    ParamTypes(p.fn.params, Resolve.Inner(g.scope));
    BlockFresh(p.fn.body, Resolve.DeclareParams(p.fn.params, Resolve.Inner(g.scope)).value.scope);
  }

  // Accepted, documented programs meet the hypotheses of the translation theorems.
  lemma AcceptedIsOk(p: Syntax.Program, tp: Ast.Program, bounds: Bounds)
    requires LexProgramPrinted.LegalProgram(p) && Accepted(p, tp) && Obeys(p, tp, bounds)
    ensures CompileCorrect.ProgramOk(tp)
  {
    hide Resolve.ResolveProgram, ChecksBlock, AllowedBlock, LexProgramPrinted.LegalProgram, RegularBlock, Emit.ConstantTable, FreshBlock;
    hide CompileCorrect.ConstsOk, Ast.BlockDecls, Ast.BlockUnique, Derives, Allowed, Foldable, ConstNodes, CheckExpr, BlockForward;
    var r := Resolve.ResolveProgram(p).value;
    var defs := Defined(ConstNodes(r.consts, r.inits));
    BodyFresh(p);
    BlockIsRegular(r.body, tp.body, p.fn.returnType, defs);
    Resolve.ProgramUnique(p);
    SameBlock(r.body, tp.body, p.fn.returnType, defs);
    TableKeys(tp.consts);
    assert forall x | x in Emit.ConstantTable(tp.consts) :: x in r.consts;
    NoDuplicateParams(tp.params);
  }

  lemma NoDuplicateParams(params: seq<Ast.Symbol>)
    requires forall i, j | 0 <= i < j < |params| :: params[i] != params[j]
    ensures NoDuplicates(params)
  {
  }

  // Its loops have the counts of their headers, and it leaves its constants alone.
  lemma AcceptedIsCounted(p: Syntax.Program, tp: Ast.Program, bounds: Bounds)
    requires LexProgramPrinted.LegalProgram(p) && Accepted(p, tp) && Obeys(p, tp, bounds)
    ensures Written.BlockCounted(tp.body, ConstNumbers(tp))
    ensures Ast.BlockDecls(tp.body) + Ast.BlockAssigned(tp.body) !! ConstNumbers(tp).Keys
  {
    hide Resolve.ResolveProgram, ChecksBlock, AllowedBlock, LexProgramPrinted.LegalProgram, RegularBlock, Emit.ConstantTable, FreshBlock;
    hide CompileCorrect.ConstsOk, Ast.BlockDecls, Ast.BlockAssigned, Ast.BlockUnique, Derives, Allowed, Foldable, ConstNodes, CheckExpr;
    hide BlockForward, FoldedAll, DefinitionsOk, Written.BlockCounted;
    var r := Resolve.ResolveProgram(p).value;
    var defs := ConstsFold(p, tp, bounds);
    BodyFresh(p);
    BlockIsCounted(r.body, tp.body, p.fn.returnType, defs, Emit.ConstantTable(tp.consts), bounds);
    Resolve.ProgramUnique(p);
    Resolve.ConstantsKept(p);
    SameBlock(r.body, tp.body, p.fn.returnType, defs);
    TableKeys(tp.consts);
    assert forall x | x in ConstNumbers(tp) :: x in r.consts;
  }

  // At entry the variables include the constants' numbers.
  lemma EntryIncludes(p: Syntax.Program, tp: Ast.Program, bounds: Bounds, args: seq<int>)
    requires LexProgramPrinted.LegalProgram(p) && Accepted(p, tp) && Obeys(p, tp, bounds) && |args| == |tp.params|
    ensures Written.Includes(EntryVars(tp, args), ConstNumbers(tp))
  {
    hide Accepted, Obeys, LexProgramPrinted.LegalProgram, EntryVars, RegularBlock, Ast.BlockDecls, Ast.BlockUnique, Emit.ConstantTable;
    hide CompileCorrect.ConstsOk, Cut, DefinitionsOk, FoldedAll, Num, NumberOf;
    var rho, vals := EntryVars(tp, args), Emit.ConstantTable(tp.consts);
    AcceptedIsOk(p, tp, bounds);
    CompileCorrect.VarsAtStart(tp, args);
    var defs := ConstsFold(p, tp, bounds);
    assert ConstNumbers(tp).Keys == vals.Keys;
    forall x | x in ConstNumbers(tp) ensures x in rho && rho[x] == ConstNumbers(tp)[x] {
      SameKeys(vals, defs, x);
      ConstantCut(x, defs, vals, bounds);
    }
  }

  lemma SameKeys(vals: map<Ast.Symbol, Bits>, defs: Definitions, x: Ast.Symbol)
    requires FoldedAll(vals, defs) && x in vals
    ensures x in defs
  {
    hide Derives;
  }

  lemma ConstantCut(x: Ast.Symbol, defs: Definitions, vals: map<Ast.Symbol, Bits>, bounds: Bounds)
    requires DefinitionsOk(defs, bounds) && FoldedAll(vals, defs) && x in defs
    ensures Cut(x.ty, NumberOf(vals[x])) == Constants(vals)[x]
  {
    hide Ideal, DefinitionsOk, Derives, Pow2;
    ConstantFits(x, defs, vals, bounds);
    WrapInRange(x.ty.width, x.ty.signed, Num(vals[x]));
  }

  // An accepted program, and what is emitted of it, means what is written.
  lemma MeansAsWritten(p: Syntax.Program, tp: Ast.Program, bounds: Bounds, args: seq<int>, previous: int)
    requires LexProgramPrinted.LegalProgram(p) && Accepted(p, tp) && Obeys(p, tp, bounds) && |args| == |tp.params|
    ensures Written.Returned(tp, args, previous) == Some(Result(tp, args, previous))
    ensures var up := CompileCorrect.Emitted(tp); Written.Returned(up, args, previous) == Some(Result(up, args, previous))
  {
    hide Accepted, Obeys, LexProgramPrinted.LegalProgram, Written.Includes, Written.BlockCounted, RegularBlock, ConstNumbers;
    hide Ast.BlockDecls, Ast.BlockAssigned, DoesBlock, Written.RunBlock, EntryVars;
    var m := Sense(EntryVars(tp, args), previous);
    AcceptedIsCounted(p, tp, bounds);
    EntryIncludes(p, tp, bounds, args);
    Written.BlockAsWritten(tp.body, m, ConstNumbers(tp));
    Returns.UpToTyped(tp.body);
    Written.UpToCounted(tp.body, ConstNumbers(tp));
    Written.BlockAsWritten(Returns.UpToReturn(tp.body), m, ConstNumbers(tp));
    SameEntry(tp, args);
  }

  lemma SameEntry(tp: Ast.Program, args: seq<int>)
    requires |args| == |tp.params|
    ensures var up := CompileCorrect.Emitted(tp); up.params == tp.params && EntryVars(up, args) == EntryVars(tp, args)
  {
  }

  // ----------------------------------------------------------------- the interpreter

  lemma {:induction false} ConstsShown(cs: seq<Syntax.ConstDecl>, sc: Resolve.Scope)
    requires Resolve.DeclareConsts(cs, sc).Some?
    ensures var g := Resolve.DeclareConsts(cs, sc).value;
            Shown(g.scope.visible) <= Shown(sc.visible) + set x | x in g.items
  {
    if cs != [] {
      var d := Resolve.Declare(Resolve.GlobalConst, cs[0].name, cs[0].ty, sc).value;
      ShownDeclared(sc, Resolve.GlobalConst, cs[0].name, cs[0].ty);
      ConstsShown(cs[1..], d.scope);
      var rest := Resolve.DeclareConsts(cs[1..], d.scope).value;
      assert Resolve.DeclareConsts(cs, sc).value.items == [d.sym] + rest.items;
    }
  }

  lemma {:induction false} ParamsShown(ps: seq<Syntax.Param>, sc: Resolve.Scope)
    requires Resolve.DeclareParams(ps, sc).Some?
    ensures var g := Resolve.DeclareParams(ps, sc).value;
            Shown(g.scope.visible) <= Shown(sc.visible) + set x | x in g.items
  {
    if ps != [] {
      var d := Resolve.Declare(Resolve.ScalarParam, ps[0].name, ps[0].ty, sc).value;
      ShownDeclared(sc, Resolve.ScalarParam, ps[0].name, ps[0].ty);
      ParamsShown(ps[1..], d.scope);
      var rest := Resolve.DeclareParams(ps[1..], d.scope).value;
      assert Resolve.DeclareParams(ps, sc).value.items == [d.sym] + rest.items;
    }
  }

  // Every name of an accepted program is read after its symbol has a value.
  lemma AcceptedIsScoped(p: Syntax.Program, tp: Ast.Program, bounds: Bounds, vars: set<Ast.Symbol>)
    requires LexProgramPrinted.LegalProgram(p) && Accepted(p, tp) && Obeys(p, tp, bounds)
    requires forall x | x in tp.params || x in Emit.ConstantTable(tp.consts) :: x in vars
    ensures ScopedBlock(tp.body, vars)
  {
    hide ChecksBlock, AllowedBlock, BlockForward, CompileCorrect.ConstsOk, Emit.ConstantTable, Derives, Allowed, Foldable;
    hide Resolve.ResolveBlock, Resolve.DeclareConsts, Resolve.DeclareParams, Resolve.ResolveInits, Written.BlockCounted, Shown;
    hide LexProgramPrinted.LegalBlock, LexProgramPrinted.LegalConst, LexProgramPrinted.LegalParam, CheckExpr, ConstNodes, ScopedBlock;
    AcceptedIsCounted(p, tp, bounds);
    var start := Resolve.Scope(map[], {}, 1);
    var g := Resolve.DeclareConsts(p.consts, start).value;
    var ps := Resolve.DeclareParams(p.fn.params, Resolve.Inner(g.scope)).value;
    var r := Resolve.ResolveProgram(p).value;
    ConstsShown(p.consts, start);
    ParamsShown(p.fn.params, Resolve.Inner(g.scope));
    NothingShown();
    TableKeys(tp.consts);
    assert forall x | x in r.consts :: x in Emit.ConstantTable(tp.consts);
    assert ConstNumbers(tp).Keys <= vars;
    BlockResolvedScoped(p.fn.body, ps.scope, tp.body, p.fn.returnType, Defined(ConstNodes(r.consts, r.inits)), vars, ConstNumbers(tp));
  }

  lemma NothingShown()
    ensures Shown(map[]) == {}
  {
  }

  // On every run within its limits the interpreter returns what the whole body, as
  // written, means.
  lemma RunsAsWritten(p: Syntax.Program, tp: Ast.Program, bounds: Bounds, f: Ir.Func, inputs: seq<Bits>, previous: Bits)
    requires LexProgramPrinted.LegalProgram(p) && Accepted(p, tp) && Obeys(p, tp, bounds)
    requires Emit.EmitFunction(tp) == Some(f) && CompileCorrect.InputsOk(tp, inputs)
    requires CompileCorrect.RunInside(tp, inputs, previous)
    ensures Interp.RunProgram(tp, inputs, previous).Some? && WidthOk(Interp.RunProgram(tp, inputs, previous).value.width)
    ensures Written.Returned(tp, CompileCorrect.Args(inputs), NumberOf(previous)) ==
            Some(Num(Interp.RunProgram(tp, inputs, previous).value))
  {
    hide LexProgramPrinted.LegalProgram, Accepted, Obeys, CompileCorrect.RunInside, Interp.RunProgram, Written.Returned, Result, Num;
    hide Emit.EmitFunction, ScopedBlock, Returns.BlockStops, Interp.InitialStore, NumberOf, CompileCorrect.Args, RegularBlock, Ast.BlockUnique;
    AcceptedIsOk(p, tp, bounds);
    CompileCorrect.StartKnown(tp, inputs);
    KnownAtStart(tp, Interp.InitialStore(tp, inputs).Keys);
    AcceptedIsScoped(p, tp, bounds, Interp.InitialStore(tp, inputs).Keys);
    EmittedStops(tp, f);
    CompileCorrect.RunMeans(tp, inputs, previous);
    MeansAsWritten(p, tp, bounds, CompileCorrect.Args(inputs), NumberOf(previous));
  }

  lemma KnownAtStart(tp: Ast.Program, vars: set<Ast.Symbol>)
    requires Known(EmitTotal.StartOf(tp), EmitTotal.ContextOf(tp)) <= vars
    ensures forall x | x in tp.params || x in Emit.ConstantTable(tp.consts) :: x in vars
  {
    RebindKeys(map[], tp.params, Emit.Arguments(tp.params));
  }

  lemma EmittedStops(tp: Ast.Program, f: Ir.Func)
    requires Emit.EmitFunction(tp) == Some(f)
    ensures Returns.BlockStops(tp.body)
  {
    hide Emit.EmitBlock, Returns.BlockStops;
    Returns.BlockStopsReturns(tp.body, EmitTotal.ContextOf(tp), EmitTotal.StartOf(tp));
  }

  // Programs whose types keep to the limits run within them on every input.
  lemma LimitedRuns(p: Syntax.Program, tp: Ast.Program, bounds: Bounds, inputs: seq<Bits>, previous: Bits)
    requires LexProgramPrinted.LegalProgram(p) && Accepted(p, tp) && Obeys(p, tp, bounds)
    requires LimitedBlock(tp.body) && |inputs| == |tp.params|
    ensures CompileCorrect.RunInside(tp, inputs, previous)
    ensures CompileCorrect.RunInside(CompileCorrect.Emitted(tp), inputs, previous)
  {
    hide LexProgramPrinted.LegalProgram, Accepted, Obeys, CompileCorrect.RunInside, LimitedBlock, BlockTyped, RegularBlock, Ast.BlockUnique;
    AcceptedIsOk(p, tp, bounds);
    BlockIsTyped(tp.body);
    CompileCorrect.ProgramInside(tp, inputs, previous);
  }

  // ------------------------------------------------------------------ the theorem

  // The word the emitted part of a program returns, its loops run as written.
  function ReturnedWord(tp: Ast.Program, args: seq<int>, previous: int): Option<nat>
    requires |args| == |tp.params|
  {
    match Written.Returned(CompileCorrect.Emitted(tp), args, previous)
    case None => None
    case Some(n) => Some(n % Pow2(tp.returnType.width))
  }

  // For every program the front end accepts within the rules of the language, and all
  // numbers passed: the emitted function and the circuit return what the body up to
  // its first `return` means, loops run as written, and there is a circuit exactly
  // when no loop that runs is reached.
  lemma CodeIsMeaning(p: Syntax.Program, tp: Ast.Program, bounds: Bounds, f: Ir.Func, args: seq<int>, previous: int)
    requires LexProgramPrinted.LegalProgram(p) && Accepted(p, tp) && Obeys(p, tp, bounds)
    requires Emit.EmitFunction(tp) == Some(f) && |args| == |tp.params|
    ensures Ir.VerifyFunc(f)
    ensures var result := ReturnedWord(tp, args, previous);
            && result.Some?
            && Ir.Call(f, CompileCorrect.Words(tp, args), false) == result
            && (Lower.LowerFunction(f).Some? <==> !CircuitCorrect.BlockLoops(tp.body))
            && (Lower.LowerFunction(f).Some? ==>
                  Hw.Output(Lower.LowerFunction(f).value, CompileCorrect.Words(tp, args)) == result)
    ensures Ast.BlockReturns(tp.body) <= 1 ==>
            Written.Returned(CompileCorrect.Emitted(tp), args, previous) == Written.Returned(tp, args, previous)
  {
    hide LexProgramPrinted.LegalProgram, Accepted, Obeys, CompileCorrect.ProgramOk, Emit.EmitFunction, Ir.Call, Ir.VerifyFunc;
    hide Lower.LowerFunction, Hw.Output, CompileCorrect.Words, CircuitCorrect.BlockLoops, Result, CompileCorrect.Emitted;
    hide Written.Returned, Pow2;
    AcceptedIsOk(p, tp, bounds);
    MeansAsWritten(p, tp, bounds, args, previous);
    CompileCorrect.ProgramIsRegular(tp);
    EmitTotal.EmittedVerifies(tp, f);
    CompileCorrect.FunctionMeans(tp, f, args, previous, false);
    CircuitCorrect.CircuitIff(tp, f);
    if Lower.LowerFunction(f).Some? {
      CircuitCorrect.CircuitMeans(tp, f, Lower.LowerFunction(f).value, args, previous);
    }
    if Ast.BlockReturns(tp.body) <= 1 {
      CompileCorrect.OneReturnMeaning(tp, args, previous);
    }
  }

  // And on every input whose runs stay within the interpreter's limits, the
  // interpreter agrees with both on that part, and with the language on the whole
  // body, which is the same result when at most one `return` can run.
  lemma WholeCompiler(p: Syntax.Program, tp: Ast.Program, bounds: Bounds, f: Ir.Func, inputs: seq<Bits>, previous: Bits)
    requires LexProgramPrinted.LegalProgram(p) && Accepted(p, tp) && Obeys(p, tp, bounds)
    requires Emit.EmitFunction(tp) == Some(f) && CompileCorrect.InputsOk(tp, inputs)
    requires CompileCorrect.RunInside(CompileCorrect.Emitted(tp), inputs, previous)
    ensures Ir.VerifyFunc(f)
    ensures Interp.RunProgram(CompileCorrect.Emitted(tp), inputs, previous).Some?
    ensures var result := Some(Interp.RunProgram(CompileCorrect.Emitted(tp), inputs, previous).value.raw);
            && ReturnedWord(tp, CompileCorrect.Args(inputs), NumberOf(previous)) == result
            && Ir.Call(f, CompileCorrect.ArgWords(tp, inputs), false) == result
            && (Lower.LowerFunction(f).Some? <==> !CircuitCorrect.BlockLoops(tp.body))
            && (Lower.LowerFunction(f).Some? ==>
                  Hw.Output(Lower.LowerFunction(f).value, CompileCorrect.ArgWords(tp, inputs)) == result)
    ensures Ast.BlockReturns(tp.body) <= 1 ==>
            Interp.RunProgram(CompileCorrect.Emitted(tp), inputs, previous) == Interp.RunProgram(tp, inputs, previous)
  {
    hide LexProgramPrinted.LegalProgram, Accepted, Obeys, CompileCorrect.ProgramOk, Emit.EmitFunction, Ir.Call, Ir.VerifyFunc;
    hide Lower.LowerFunction, Hw.Output, CompileCorrect.ArgWords, CircuitCorrect.BlockLoops, Interp.RunProgram, CompileCorrect.Emitted;
    hide CompileCorrect.RunInside, ReturnedWord, NumberOf, CompileCorrect.Words;
    AcceptedIsOk(p, tp, bounds);
    CodeIsMeaning(p, tp, bounds, f, CompileCorrect.Args(inputs), NumberOf(previous));
    CompileCorrect.OkParams(tp);
    CompileCorrect.WordsPassed(tp, inputs);
    CompileCorrect.CompilePreserves(tp, f, inputs, previous, false);
    if Ast.BlockReturns(tp.body) <= 1 {
      CompileCorrect.OneReturnAgrees(tp, inputs, previous);
    }
  }
}
