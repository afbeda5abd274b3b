/**
 The resolver as the source has it (src/sema/resolver.cpp, src/sema/scope.hpp): a
 stack of scopes pushed, popped and declared into, and a count of the symbols
 made.  It goes on after a diagnostic; when it raised none, its answer is the one
 environment passing gives.
 */
module Resolver {
  import opened FixedWidth
  import Ast
  import opened Syntax
  import opened Resolve
  import opened Wrappers

  // What a stack shows: inner declarations hide outer ones.
  function Shown(scopes: seq<Visible>): Visible {
    if scopes == [] then map[] else Shown(scopes[..|scopes| - 1]) + scopes[|scopes| - 1]
  }

  class ScopeStack {
    var scopes: seq<Visible>

    constructor ()
      ensures scopes == []
    {
      scopes := [];
    }

    method Push()
      modifies this
      ensures scopes == old(scopes) + [map[]]
    {
      scopes := scopes + [map[]];
    }

    method Pop()
      requires scopes != []
      modifies this
      ensures scopes == old(scopes)[..|old(scopes)| - 1]
    {
      scopes := scopes[..|scopes| - 1];
    }

    // The declaration a use refers to: the last scope that has the name.
    method Lookup(name: string) returns (r: Option<Entry>)
      ensures r == Resolve.Lookup(name, Shown(scopes))
    {
      var i := |scopes|;
      assert scopes[..i] == scopes;
      while i > 0
        invariant 0 <= i <= |scopes|
        invariant Resolve.Lookup(name, Shown(scopes[..i])) == Resolve.Lookup(name, Shown(scopes))
      {
        assert scopes[..i][..i - 1] == scopes[..i - 1];
        i := i - 1;
        if name in scopes[i] {
          return Some(scopes[i][name]);
        }
      }
      return None;
    }

    // False if this scope already declares the name.
    method Declare(name: string, entry: Entry) returns (ok: bool)
      requires scopes != []
      modifies this
      ensures var n := |old(scopes)| - 1;
              && ok == (name !in old(scopes)[n])
              && scopes == if ok then old(scopes)[n := old(scopes)[n][name := entry]] else old(scopes)
    {
      var n := |scopes| - 1;
      ok := name !in scopes[n];
      if ok {
        scopes := scopes[n := scopes[n][name := entry]];
      }
    }
  }

  // The null symbol a failed lookup leaves in a node.
  const NULL_SYMBOL := Ast.Symbol(0, NO_TYPE)

  class Resolver {
    const stack: ScopeStack
    var next: nat
    var failed: bool

    constructor ()
      ensures stack.scopes == [] && next == 1 && !failed && fresh(stack)
    {
      stack := new ScopeStack();
      next, failed := 1, false;
    }

    function Current(): Scope
      reads this, stack
      requires stack.scopes != []
    {
      Scope(Shown(stack.scopes), stack.scopes[|stack.scopes| - 1].Keys, next)
    }

    // The scopes below the innermost one.
    function Outer(): seq<Visible>
      reads this, stack
      requires stack.scopes != []
    {
      stack.scopes[..|stack.scopes| - 1]
    }

    // A scope inside the current one.
    method Enter()
      requires stack.scopes != []
      modifies stack
      ensures stack.scopes == old(stack.scopes) + [map[]] && Outer() == old(stack.scopes)
      ensures Current() == Inner(old(Current()))
    {
      stack.Push();
      PushShows(old(stack.scopes));
      var none: Visible := map[];
      assert none.Keys == {};
    }

    method Declare(kind: Kind, name: string, t: Syntax.Type) returns (sym: Ast.Symbol)
      requires stack.scopes != []
      modifies this, stack
      ensures stack.scopes != [] && Outer() == old(Outer()) && (old(failed) ==> failed)
      ensures !old(failed) ==>
                var spec := Resolve.Declare(kind, name, t, old(Current()));
                if spec.None? then failed else !failed && sym == spec.value.sym && Current() == spec.value.scope
    {
      sym := Ast.Symbol(next, t);
      next := next + 1;
      var ok := stack.Declare(name, Entry(sym, kind));
      if !ok {
        failed := true;
        sym := NULL_SYMBOL;
      }
    }

    method Lookup(name: string) returns (entry: Option<Entry>)
      modifies `failed
      ensures entry == Resolve.Lookup(name, Shown(stack.scopes))
      ensures failed == (old(failed) || entry.None?)
    {
      entry := stack.Lookup(name);
      if entry.None? {
        failed := true;
      }
    }

    method ResolveExpr(e: Expr) returns (r: Ast.Expr)
      modifies `failed
      ensures old(failed) ==> failed
      ensures !old(failed) ==>
                var spec := Resolve.ResolveExpr(e, Shown(stack.scopes));
                if spec.None? then failed else !failed && r == spec.value
      decreases e
    {
      match e
      case IntLit(v) =>
        r := Ast.IntLit(v, NO_TYPE);
      case NameRef(name) =>
        var entry := Lookup(name);
        r := Ast.NameRef(if entry.Some? then entry.value.sym else NULL_SYMBOL, NO_TYPE);
      case Index(name, _) =>
        failed := true;
        r := Ast.NameRef(NULL_SYMBOL, NO_TYPE);
      case Cast(t, x) =>
        var a := ResolveExpr(x);
        r := Ast.Cast(t, a, NO_TYPE);
      case Unary(op, x) =>
        var a := ResolveExpr(x);
        r := Ast.Unary(op, a, NO_TYPE);
      case Binary(op, x, y) =>
        var a := ResolveExpr(x);
        var b := ResolveExpr(y);
        r := Ast.Binary(op, a, b, NO_TYPE);
      case Ternary(c, x, y) =>
        var k := ResolveExpr(c);
        var a := ResolveExpr(x);
        var b := ResolveExpr(y);
        r := Ast.Ternary(k, a, b, NO_TYPE);
    }

    // A statement leaves the outer scopes as they were, and the stack as deep.
    method ResolveStmt(s: Stmt) returns (r: Ast.Stmt)
      requires stack.scopes != []
      modifies this, stack
      ensures stack.scopes != [] && Outer() == old(Outer()) && (old(failed) ==> failed)
      ensures !old(failed) ==>
                var spec := Resolve.ResolveStmt(s, old(Current()));
                if spec.None? then failed else !failed && r == spec.value.stmt && Current() == spec.value.scope
      decreases s, 1
    {
      match s
      case VarDecl(t, name, Value(init)) =>
        var e := ResolveExpr(init);
        var sym := Declare(Local, name, t);
        r := Ast.VarDecl(sym, e);
      case Assign(name, None, Value(value)) =>
        var entry := Lookup(name);
        if entry.Some? && !Writable(entry.value.kind) {
          failed := true;
        }
        var e := ResolveExpr(value);
        r := Ast.Assign(if entry.Some? then entry.value.sym else NULL_SYMBOL, e);
      case If(_, _, _) =>
        r := ResolveIf(s);
      case For(_, _, _, _, _, _, _, _, _) =>
        r := ResolveFor(s);
      case Return(v) =>
        var e := ResolveExpr(v);
        r := Ast.Return(e);
      case Block(b) =>
        var stmts := ResolveNested(b);
        r := Ast.Block(stmts);
      case _ =>
        failed := true;
        r := Ast.Block([]);
    }

    method ResolveIf(s: Stmt) returns (r: Ast.Stmt)
      requires s.If? && stack.scopes != []
      modifies this, stack
      ensures stack.scopes != [] && Outer() == old(Outer()) && (old(failed) ==> failed)
      ensures !old(failed) ==>
                var spec := Resolve.ResolveStmt(s, old(Current()));
                if spec.None? then failed else !failed && r == spec.value.stmt && Current() == spec.value.scope
      decreases s, 0
    {
      var cond := ResolveExpr(s.cond);
      var b := ResolveNested(s.thenB);
      var e := Ast.NoElse;
      if s.elseS.ElseDo? {
        var f := ResolveStmt(s.elseS.stmt);
        e := Ast.ElseDo(f);
      }
      r := Ast.If(cond, b, e);
    }

    // The initialiser sees the outer scope; limit, step and body see the loop
    // variable, and share its scope.
    method ResolveFor(s: Stmt) returns (r: Ast.Stmt)
      requires s.For? && stack.scopes != []
      modifies this, stack
      ensures stack.scopes == old(stack.scopes) && (old(failed) ==> failed)
      ensures !old(failed) ==>
                var spec := Resolve.ResolveStmt(s, old(Current()));
                if spec.None? then failed else !failed && r == spec.value.stmt && Current() == spec.value.scope
      decreases s, 0
    {
      hide Resolve.ResolveExpr, Resolve.ResolveBlock;
      var init := ResolveExpr(s.start);
      Enter();
      var sym := Declare(InductionVar, s.iv, s.ivType);
      var limit := ResolveExpr(s.limit);
      var step := ResolveExpr(s.step);
      var body := ResolveBlock(s.body);
      stack.Pop();
      r := Ast.For(sym, init, s.rel, limit, s.stepIsAdd, step, 0, false, body);
    }

    method ResolveNested(b: seq<Stmt>) returns (r: seq<Ast.Stmt>)
      requires stack.scopes != []
      modifies this, stack
      ensures stack.scopes == old(stack.scopes) && (old(failed) ==> failed)
      ensures !old(failed) ==>
                var spec := Resolve.ResolveBlock(b, Inner(old(Current())));
                if spec.None? then failed else !failed && r == spec.value.items && next == spec.value.scope.next
      decreases b, 1
    {
      Enter();
      r := ResolveBlock(b);
      stack.Pop();
    }

    method ResolveBlock(b: seq<Stmt>) returns (r: seq<Ast.Stmt>)
      requires stack.scopes != []
      modifies this, stack
      ensures stack.scopes != [] && Outer() == old(Outer()) && (old(failed) ==> failed)
      ensures !old(failed) ==>
                var spec := Resolve.ResolveBlock(b, old(Current()));
                if spec.None? then failed else !failed && r == spec.value.items && Current() == spec.value.scope
      decreases b, 0
    {
      ghost var start := Current();
      r := [];
      var i := 0;
      AfterNone(Resolve.ResolveBlock(b, start));
      assert b[0..] == b;
      while i < |b|
        invariant 0 <= i <= |b|
        invariant stack.scopes != [] && Outer() == old(Outer()) && (old(failed) ==> failed)
        invariant !old(failed) ==>
                    if failed then Resolve.ResolveBlock(b, start) == None
                    else Resolve.ResolveBlock(b, start) == After(r, Resolve.ResolveBlock(b[i..], Current()))
      {
        assert b[i..][0] == b[i] && b[i..][1..] == b[i + 1..];
        var s := ResolveStmt(b[i]);
        AfterOne(r, s, Resolve.ResolveBlock(b[i + 1..], Current()));
        r := r + [s];
        i := i + 1;
      }
      AfterAll(r, Current());
    }

    // Constants, then their initialisers, then the function.
    method ResolveAll(p: Program) returns (r: ResolvedProgram)
      requires stack.scopes == [] && next == 1 && !failed
      modifies this, stack
      ensures stack.scopes == []
      ensures var spec := ResolveProgram(p);
              if spec.None? then failed else !failed && r == spec.value
    {
      stack.Push();
      var none: Visible := map[];
      assert none.Keys == {};
      PushShows([]);
      var consts := DeclareConsts(p.consts);
      var inits := ResolveInits(p.consts);
      Enter();
      var params := DeclareParams(p.fn.params);
      var body := ResolveBlock(p.fn.body);
      stack.Pop();
      stack.Pop();
      r := ResolvedProgram(consts, inits, params, body);
    }

    method DeclareConsts(consts: seq<ConstDecl>) returns (syms: seq<Ast.Symbol>)
      requires stack.scopes != []
      modifies this, stack
      ensures stack.scopes != [] && Outer() == old(Outer()) && (old(failed) ==> failed)
      ensures !old(failed) ==>
                var spec := Resolve.DeclareConsts(consts, old(Current()));
                if spec.None? then failed else !failed && syms == spec.value.items && Current() == spec.value.scope
    {
      ghost var start := Current();
      syms := [];
      var i := 0;
      AfterNone(Resolve.DeclareConsts(consts, start));
      assert consts[0..] == consts;
      while i < |consts|
        invariant 0 <= i <= |consts|
        invariant stack.scopes != [] && Outer() == old(Outer()) && (old(failed) ==> failed)
        invariant !old(failed) ==>
                    if failed then Resolve.DeclareConsts(consts, start) == None
                    else Resolve.DeclareConsts(consts, start) == After(syms, Resolve.DeclareConsts(consts[i..], Current()))
      {
        assert consts[i..][0] == consts[i] && consts[i..][1..] == consts[i + 1..];
        if consts[i].ArrayConst? {
          failed := true;
        }
        var sym := Declare(GlobalConst, consts[i].name, consts[i].ty);
        AfterOne(syms, sym, Resolve.DeclareConsts(consts[i + 1..], Current()));
        syms := syms + [sym];
        i := i + 1;
      }
      AfterAll(syms, Current());
    }

    method ResolveInits(consts: seq<ConstDecl>) returns (inits: seq<Ast.Expr>)
      requires stack.scopes != []
      modifies `failed
      ensures old(failed) ==> failed
      ensures !old(failed) ==>
                var spec := Resolve.ResolveInits(consts, Current());
                if spec.None? then failed else !failed && inits == spec.value.items
    {
      inits := [];
      var i := 0;
      ghost var start := Current();
      AfterNone(Resolve.ResolveInits(consts, start));
      assert consts[0..] == consts;
      while i < |consts|
        invariant 0 <= i <= |consts| && (old(failed) ==> failed)
        invariant !old(failed) ==>
                    if failed then Resolve.ResolveInits(consts, start) == None
                    else Resolve.ResolveInits(consts, start) == After(inits, Resolve.ResolveInits(consts[i..], start))
      {
        assert consts[i..][0] == consts[i] && consts[i..][1..] == consts[i + 1..];
        if consts[i].ScalarConst? {
          var e := ResolveExpr(consts[i].init);
          AfterOne(inits, e, Resolve.ResolveInits(consts[i + 1..], start));
          inits := inits + [e];
        } else {
          failed := true;
        }
        i := i + 1;
      }
      AfterAll(inits, start);
    }

    method DeclareParams(params: seq<Param>) returns (syms: seq<Ast.Symbol>)
      requires stack.scopes != []
      modifies this, stack
      ensures stack.scopes != [] && Outer() == old(Outer()) && (old(failed) ==> failed)
      ensures !old(failed) ==>
                var spec := Resolve.DeclareParams(params, old(Current()));
                if spec.None? then failed else !failed && syms == spec.value.items && Current() == spec.value.scope
    {
      ghost var start := Current();
      syms := [];
      var i := 0;
      AfterNone(Resolve.DeclareParams(params, start));
      assert params[0..] == params;
      while i < |params|
        invariant 0 <= i <= |params|
        invariant stack.scopes != [] && Outer() == old(Outer()) && (old(failed) ==> failed)
        invariant !old(failed) ==>
                    if failed then Resolve.DeclareParams(params, start) == None
                    else Resolve.DeclareParams(params, start) == After(syms, Resolve.DeclareParams(params[i..], Current()))
      {
        assert params[i..][0] == params[i] && params[i..][1..] == params[i + 1..];
        if !params[i].Scalar? {
          failed := true;
        }
        var sym := Declare(ScalarParam, params[i].name, params[i].ty);
        AfterOne(syms, sym, Resolve.DeclareParams(params[i + 1..], Current()));
        syms := syms + [sym];
        i := i + 1;
      }
      AfterAll(syms, Current());
    }
  }

  // An empty scope on top shows what was shown below.
  lemma PushShows(scopes: seq<Visible>)
    ensures Shown(scopes + [map[]]) == Shown(scopes)
  {
    var all := scopes + [map[]];
    assert all[..|all| - 1] == scopes;
  }

  // What was resolved already, before what is still to come.
  function After<A>(done: seq<A>, rest: Option<Listed<A>>): Option<Listed<A>> {
    var r :- rest;
    Some(Listed(done + r.items, r.scope))
  }

  lemma AfterNone<A>(rest: Option<Listed<A>>)
    ensures After([], rest) == rest
  {
    if rest.Some? {
      assert [] + rest.value.items == rest.value.items;
    }
  }

  lemma AfterOne<A>(done: seq<A>, x: A, rest: Option<Listed<A>>)
    ensures After(done, After([x], rest)) == After(done + [x], rest)
  {
    if rest.Some? {
      assert done + ([x] + rest.value.items) == done + [x] + rest.value.items;
    }
  }

  lemma AfterAll<A>(done: seq<A>, sc: Scope)
    ensures After(done, Some(Listed([], sc))) == Some(Listed(done, sc))
  {
    assert done + [] == done;
  }
}
