/**
 What semantic analysis accepts, and nothing else: resolved statements whose expressions
 have sorts that can be used where they stand, and whose loop headers fold and pass the
 range checks (src/sema/type_check.cpp:168-245, src/sema/const_eval.cpp:170-277).
 */
module Acceptance {
  import opened Arith
  import opened FixedWidth
  import Ast
  import Syntax
  import opened Meaning
  import opened TypeCheck
  import opened Accepts
  import opened FrontEnd
  import opened EndToEnd
  import opened ConstFold
  import opened TripCount
  import Resolve
  import Naming
  import LexProgramPrinted
  import opened Wrappers

  // What a place where t is wanted takes; only a loop's limit may cast an untyped
  // constant and leave it so.
  predicate Admitted(e: Ast.Expr, t: Ast.Type) {
    t.width > 0 && Usable(SortOf(ToNode(e)), t)
  }

  predicate Typable(e: Ast.Expr, t: Ast.Type) {
    Admitted(e, t) && CastsTyped(ToNode(e))
  }

  // The header's expressions have values, and with these the loop passes the checks.
  ghost predicate HeaderFolds(init: Ast.Expr, limit: Ast.Expr, step: Ast.Expr, t: Ast.Type, isAdd: bool, rel: Cmp, defs: Definitions)
    requires TypeOk(t)
  {
    exists x: Bits, y: Bits, z: Bits ::
      && Derives(CheckedNode(init, t), defs, x)
      && Derives(CheckedNode(limit, t), defs, y)
      && Derives(CheckedNode(step, t), defs, z)
      && HeaderOk(t, Value(x), Value(y), Value(z), isAdd, rel)
  }

  ghost predicate Acceptable(r: Ast.Stmt, returnType: Ast.Type, defs: Definitions)
    decreases r, 0
  {
    match r
    case VarDecl(sym, e) => Typable(e, sym.ty)
    case Assign(sym, e) => Typable(e, sym.ty)
    case If(c, t, e) => Typable(c, Ast.U1) && AcceptableBlock(t, returnType, defs) && AcceptableElse(e, returnType, defs)
    case For(iv, init, rel, limit, isAdd, step, _, _, body) =>
      && TypeOk(iv.ty) && Typable(init, iv.ty) && Admitted(limit, iv.ty) && Typable(step, iv.ty)
      && HeaderFolds(init, limit, step, iv.ty, isAdd, rel, defs)
      && AcceptableBlock(body, returnType, defs)
    case Return(e) => Typable(e, returnType)
    case Block(b) => AcceptableBlock(b, returnType, defs)
  }

  ghost predicate AcceptableElse(r: Ast.Else, returnType: Ast.Type, defs: Definitions)
    decreases r, 1
  {
    match r
    case NoElse => true
    case ElseDo(s) => Acceptable(s, returnType, defs)
  }

  ghost predicate AcceptableBlock(r: seq<Ast.Stmt>, returnType: Ast.Type, defs: Definitions)
    decreases r, 0
  {
    r == [] || (Acceptable(r[0], returnType, defs) && AcceptableBlock(r[1..], returnType, defs))
  }

  // ---------------------------------------------------------------------- expressions

  lemma AdmittedIff(e: Ast.Expr, t: Ast.Type)
    requires Fresh(ToNode(e)) && t.width > 0
    ensures Admitted(e, t) <==> CheckExpr(ToNode(e), t).ok
  {
    hide Fresh, ToNode, CheckExpr, Usable, SortOf;
    AcceptIff(ToNode(e), t);
  }

  // An accepted expression is typed throughout exactly when no cast is left untyped.
  lemma TypableIff(e: Ast.Expr, t: Ast.Type) returns (typed: Ast.Expr)
    requires Fresh(ToNode(e)) && TypeOk(t)
    ensures Typable(e, t) ==> Checks(e, t, typed)
    ensures forall other | Checks(e, t, other) :: Typable(e, t)
  {
    hide Fresh, ToNode, CheckExpr, Usable, SortOf, CastsTyped, Checked, NegationsFit, Strip, AsFolded, Erase;
    AdmittedIff(e, t);
    typed := e;
    if CheckExpr(ToNode(e), t).ok {
      AcceptedIsChecked(ToNode(e), t);
      if CastsTyped(ToNode(e)) {
        typed := Erase(CheckExpr(ToNode(e), t).node).value;
      }
    }
  }

  // ----------------------------------------------------------------------- statements

  lemma {:induction false} CheckedIsAcceptable(r: Ast.Stmt, a: Ast.Stmt, t: Ast.Type, defs: Definitions)
    requires TypeOk(t) && FreshStmt(r) && ChecksStmt(r, a, t, defs)
    ensures Acceptable(r, t, defs)
    decreases r, 0
  {
    hide Fresh, ToNode, Checks, ChecksLimit, Typable, Admitted, FrontEnd.HeaderFolds, HeaderFolds;
    match r
    case VarDecl(sym, e) => var _ := TypableIff(e, sym.ty);
    case Assign(sym, e) => var _ := TypableIff(e, sym.ty);
    case If(c, b, e) =>
      var _ := TypableIff(c, Ast.U1);
      BlockIsAcceptable(b, a.thenB, t, defs);
      if e.ElseDo? {
        CheckedIsAcceptable(e.stmt, a.elseS.stmt, t, defs);
      }
    case For(_, _, _, _, _, _, _, _, body) =>
      HeaderIsAcceptable(r, a, t, defs);
      BlockIsAcceptable(body, a.body, t, defs);
    case Return(e) => var _ := TypableIff(e, t);
    case Block(b) => BlockIsAcceptable(b, a.stmts, t, defs);
  }

  lemma HeaderIsAcceptable(r: Ast.Stmt, a: Ast.Stmt, t: Ast.Type, defs: Definitions)
    requires r.For? && TypeOk(t) && FreshStmt(r) && ChecksStmt(r, a, t, defs)
    ensures Typable(r.init, r.iv.ty) && Admitted(r.limit, r.iv.ty) && Typable(r.step, r.iv.ty)
    ensures HeaderFolds(r.init, r.limit, r.step, r.iv.ty, r.stepIsAdd, r.rel, defs)
  {
    hide Fresh, ToNode, Checks, Typable, Admitted, CheckExpr, CheckedNode, Derives, EvaluateFor, HeaderOk, Value, FreshBlock, ChecksBlock;
    var _ := TypableIff(r.init, r.iv.ty);
    var _ := TypableIff(r.step, r.iv.ty);
    AdmittedIff(r.limit, r.iv.ty);
    var x: Bits, y: Bits, z: Bits :|
      && Derives(CheckedNode(r.init, a.iv.ty), defs, x)
      && Derives(CheckedNode(r.limit, a.iv.ty), defs, y)
      && Derives(CheckedNode(r.step, a.iv.ty), defs, z)
      && EvaluateFor(a.iv.ty, x, y, z, a.stepIsAdd, a.rel) == Some(a.trip);
    TripCount.AcceptedIff(r.iv.ty, x, y, z, r.stepIsAdd, r.rel);
  }

  lemma {:induction false} BlockIsAcceptable(r: seq<Ast.Stmt>, a: seq<Ast.Stmt>, t: Ast.Type, defs: Definitions)
    requires TypeOk(t) && FreshBlock(r) && ChecksBlock(r, a, t, defs)
    ensures AcceptableBlock(r, t, defs)
    decreases r, 0
  {
    if r != [] {
      CheckedIsAcceptable(r[0], a[0], t, defs);
      BlockIsAcceptable(r[1..], a[1..], t, defs);
    }
  }

  lemma {:induction false} AcceptableChecks(r: Ast.Stmt, t: Ast.Type, defs: Definitions) returns (a: Ast.Stmt)
    requires TypeOk(t) && FreshStmt(r) && Acceptable(r, t, defs)
    ensures ChecksStmt(r, a, t, defs)
    decreases r, 0
  {
    hide Fresh, ToNode, Checks, ChecksLimit, Typable, FrontEnd.HeaderFolds, HeaderFolds;
    match r
    case VarDecl(sym, e) =>
      var typed := TypableIff(e, sym.ty);
      a := Ast.VarDecl(sym, typed);
    case Assign(sym, e) =>
      var typed := TypableIff(e, sym.ty);
      a := Ast.Assign(sym, typed);
    case If(c, b, e) =>
      var typed := TypableIff(c, Ast.U1);
      var then' := BlockChecks(b, t, defs);
      var else' := Ast.NoElse;
      if e.ElseDo? {
        var s := AcceptableChecks(e.stmt, t, defs);
        else' := Ast.ElseDo(s);
      }
      a := Ast.If(typed, then', else');
    case For(_, _, _, _, _, _, _, _, body) =>
      var b := BlockChecks(body, t, defs);
      a := HeaderChecks(r, b, t, defs);
    case Return(e) =>
      var typed := TypableIff(e, t);
      a := Ast.Return(typed);
    case Block(b) =>
      var stmts := BlockChecks(b, t, defs);
      a := Ast.Block(stmts);
  }

  lemma HeaderChecks(r: Ast.Stmt, body: seq<Ast.Stmt>, t: Ast.Type, defs: Definitions) returns (a: Ast.Stmt)
    requires r.For? && TypeOk(t) && FreshStmt(r) && Acceptable(r, t, defs) && ChecksBlock(r.body, body, t, defs)
    ensures ChecksStmt(r, a, t, defs)
  {
    hide Fresh, ToNode, Checks, Typable, Admitted, CheckExpr, CheckedNode, Derives, EvaluateFor, HeaderOk, Value, FreshBlock, ChecksBlock, AsFolded;
    var init := TypableIff(r.init, r.iv.ty);
    var step := TypableIff(r.step, r.iv.ty);
    AdmittedIff(r.limit, r.iv.ty);
    var x: Bits, y: Bits, z: Bits :|
      && Derives(CheckedNode(r.init, r.iv.ty), defs, x)
      && Derives(CheckedNode(r.limit, r.iv.ty), defs, y)
      && Derives(CheckedNode(r.step, r.iv.ty), defs, z)
      && HeaderOk(r.iv.ty, Value(x), Value(y), Value(z), r.stepIsAdd, r.rel);
    TripCount.AcceptedIff(r.iv.ty, x, y, z, r.stepIsAdd, r.rel);
    var trip := EvaluateFor(r.iv.ty, x, y, z, r.stepIsAdd, r.rel).value;
    a := Ast.For(r.iv, init, r.rel, AsFolded(CheckedNode(r.limit, r.iv.ty)), r.stepIsAdd, step, trip, true, body);
  }

  lemma {:induction false} BlockChecks(r: seq<Ast.Stmt>, t: Ast.Type, defs: Definitions) returns (a: seq<Ast.Stmt>)
    requires TypeOk(t) && FreshBlock(r) && AcceptableBlock(r, t, defs)
    ensures ChecksBlock(r, a, t, defs)
    decreases r, 0
  {
    a := [];
    if r != [] {
      var first := AcceptableChecks(r[0], t, defs);
      var rest := BlockChecks(r[1..], t, defs);
      a := [first] + rest;
      assert a[1..] == rest;
    }
  }

  // ------------------------------------------------------------------------- programs

  // Constants that have values: no name is missing, none depends on itself.
  ghost predicate Valued(n: Node, defs: Definitions) {
    exists k: nat :: Grounded(n, defs, k)
  }

  ghost predicate ConstsAcceptable(r: Resolve.ResolvedProgram) {
    && |r.consts| == |r.inits|
    && (forall i | 0 <= i < |r.consts| :: Admitted(r.inits[i], r.consts[i].ty))
    && var defs := Defined(ConstNodes(r.consts, r.inits));
       forall i | 0 <= i < |r.consts| :: Valued(CheckedNode(r.inits[i], r.consts[i].ty), defs)
  }

  ghost predicate ProgramAcceptable(p: Syntax.Program) {
    && Naming.NamedProgram(p)
    && Resolve.ResolveProgram(p).Some?
    && var r := Resolve.ResolveProgram(p).value;
       && ConstsAcceptable(r)
       && AcceptableBlock(r.body, p.fn.returnType, Defined(ConstNodes(r.consts, r.inits)))
  }

  lemma ValuedIff(n: Node, defs: Definitions) returns (v: Bits)
    ensures Valued(n, defs) ==> Derives(n, defs, v)
    ensures forall w | Derives(n, defs, w) :: Valued(n, defs)
  {
    v := Bits(0, 1, false);
    forall w | Derives(n, defs, w) ensures Valued(n, defs) {
      var k: nat :| Unfold(n, defs, k) == Some(w);
      UnfoldIff(n, defs, k);
    }
    if Valued(n, defs) {
      var k: nat :| Grounded(n, defs, k);
      UnfoldIff(n, defs, k);
      v := Unfold(n, defs, k).value;
    }
  }

  lemma InitsCount(p: Syntax.Program)
    requires Resolve.ResolveProgram(p).Some?
    ensures var r := Resolve.ResolveProgram(p).value; |r.consts| == |r.inits| == |p.consts|
  {
    hide Resolve.ResolveExpr, Resolve.ResolveBlock, Resolve.DeclareParams;
    ConstsCount(p.consts, Resolve.Scope(map[], {}, 1));
    InitsListed(p.consts, Resolve.DeclareConsts(p.consts, Resolve.Scope(map[], {}, 1)).value.scope);
  }

  lemma {:induction false} ConstsCount(cs: seq<Syntax.ConstDecl>, sc: Resolve.Scope)
    requires Resolve.DeclareConsts(cs, sc).Some?
    ensures |Resolve.DeclareConsts(cs, sc).value.items| == |cs|
  {
    if cs != [] {
      ConstsCount(cs[1..], Resolve.Declare(Resolve.GlobalConst, cs[0].name, cs[0].ty, sc).value.scope);
    }
  }

  lemma {:induction false} InitsListed(cs: seq<Syntax.ConstDecl>, sc: Resolve.Scope)
    requires Resolve.ResolveInits(cs, sc).Some?
    ensures |Resolve.ResolveInits(cs, sc).value.items| == |cs|
  {
    hide Resolve.ResolveExpr;
    if cs != [] {
      InitsListed(cs[1..], sc);
    }
  }

  lemma ConstsIff(p: Syntax.Program)
    requires LexProgramPrinted.LegalProgram(p) && Resolve.ResolveProgram(p).Some?
    ensures var r := Resolve.ResolveProgram(p).value;
            ConstsChecked(r.consts, r.inits) <==> forall i | 0 <= i < |r.consts| && i < |r.inits| :: Admitted(r.inits[i], r.consts[i].ty)
  {
    hide LexProgramPrinted.LegalProgram, Resolve.ResolveProgram, CheckExpr, ToNode, Fresh, Admitted;
    var r := Resolve.ResolveProgram(p).value;
    InitsCount(p);
    ConstsFresh(p);
    forall i | 0 <= i < |r.consts| ensures Admitted(r.inits[i], r.consts[i].ty) <==> CheckExpr(ToNode(r.inits[i]), r.consts[i].ty).ok {
      AdmittedIff(r.inits[i], r.consts[i].ty);
    }
  }

  // A value for each constant.
  lemma {:induction false} ConstValues(syms: seq<Ast.Symbol>, inits: seq<Ast.Expr>, defs: Definitions) returns (cs: seq<Ast.Const>)
    requires |syms| == |inits|
    requires forall i | 0 <= i < |syms| :: syms[i].ty.width > 0 && Valued(CheckedNode(inits[i], syms[i].ty), defs)
    ensures |cs| == |syms|
    ensures forall i | 0 <= i < |cs| :: cs[i].sym == syms[i] && Derives(CheckedNode(inits[i], syms[i].ty), defs, cs[i].value)
  {
    hide CheckedNode, Derives, Valued;
    cs := [];
    if syms != [] {
      var v := ValuedIff(CheckedNode(inits[0], syms[0].ty), defs);
      var rest := ConstValues(syms[1..], inits[1..], defs);
      cs := [Ast.Const(syms[0], v)] + rest;
      forall i | 0 <= i < |cs| ensures cs[i].sym == syms[i] && Derives(CheckedNode(inits[i], syms[i].ty), defs, cs[i].value) {
        if i > 0 {
          assert cs[i] == rest[i - 1] && syms[i] == syms[1..][i - 1] && inits[i] == inits[1..][i - 1];
        }
      }
    }
  }

  lemma AcceptedIsAcceptable(p: Syntax.Program, tp: Ast.Program)
    requires LexProgramPrinted.LegalProgram(p) && Accepted(p, tp)
    ensures ProgramAcceptable(p)
  {
    hide LexProgramPrinted.LegalProgram, Resolve.ResolveProgram, CheckExpr, ToNode, Admitted, Naming.NamedProgram, ChecksBlock, AcceptableBlock;
    hide Derives, Valued, CheckedNode, Defined, FreshBlock;
    var r := Resolve.ResolveProgram(p).value;
    Naming.ProgramIff(p);
    ConstsIff(p);
    BodyFresh(p);
    var defs := Defined(ConstNodes(r.consts, r.inits));
    BlockIsAcceptable(r.body, tp.body, p.fn.returnType, defs);
    forall i | 0 <= i < |r.consts| ensures Valued(CheckedNode(r.inits[i], r.consts[i].ty), defs) {
      var _ := ValuedIff(CheckedNode(r.inits[i], r.consts[i].ty), defs);
      assert Derives(CheckedNode(r.inits[i], r.consts[i].ty), defs, tp.consts[i].value);
    }
  }

  lemma AcceptableIsAccepted(p: Syntax.Program) returns (tp: Ast.Program)
    requires LexProgramPrinted.LegalProgram(p) && ProgramAcceptable(p)
    ensures Accepted(p, tp)
  {
    hide LexProgramPrinted.LegalProgram, Resolve.ResolveProgram, CheckExpr, ToNode, Admitted, Naming.NamedProgram, ChecksBlock, AcceptableBlock;
    hide Derives, Valued, CheckedNode, Defined, FreshBlock;
    var r := Resolve.ResolveProgram(p).value;
    ConstsIff(p);
    BodyFresh(p);
    var defs := Defined(ConstNodes(r.consts, r.inits));
    var body := BlockChecks(r.body, p.fn.returnType, defs);
    var cs := ConstValues(r.consts, r.inits, defs);
    tp := Ast.Program(cs, r.params, p.fn.returnType, body);
  }

  // The front end accepts a program exactly when its names are declared, its
  // expressions have types that fit their places, its constants have values and its
  // loop headers pass the checks.
  lemma AcceptedIff(p: Syntax.Program)
    requires LexProgramPrinted.LegalProgram(p)
    ensures (exists tp :: Accepted(p, tp)) <==> ProgramAcceptable(p)
  {
    hide LexProgramPrinted.LegalProgram, Accepted, ProgramAcceptable;
    if ProgramAcceptable(p) {
      var tp := AcceptableIsAccepted(p);
    }
    forall tp | Accepted(p, tp) ensures ProgramAcceptable(p) {
      AcceptedIsAcceptable(p, tp);
    }
  }
}
