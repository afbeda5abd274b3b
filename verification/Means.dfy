/**
 What a program means: the language's statements over unbounded integers, with the
 numbers of expressions from Meaning.  Neither the interpreter nor the emitted code
 is mentioned here, and no limit of either; both are proved against it.
 */
module Means {
  import opened Arith
  import opened FixedWidth
  import opened Ast
  import opened Meaning
  import opened Wrappers

  // The variables' numbers, and the number last returned.
  datatype Sense = Sense(vars: Numbers, result: int)

  function Meant(e: Expr, rho: Numbers): int {
    if Widths(e) then Ideal(e, rho) else 0
  }

  // A number stored at a type.
  function Cut(t: Type, n: int): int {
    if t.width > 0 then Wrap(t.width, t.signed, n) else 0
  }

  // The next induction value: no growth, cut at the declared type.
  function NextIv(iv: int, step: int, isAdd: bool, t: Type): int {
    Cut(t, if isAdd then iv + step else iv - step)
  }

  function Does(s: Stmt, m: Sense): Sense
    decreases s, 0, 0
  {
    match s
    case VarDecl(sym, init) => m.(vars := m.vars[sym := Cut(sym.ty, Meant(init, m.vars))])
    case Assign(sym, value) => m.(vars := m.vars[sym := Cut(sym.ty, Meant(value, m.vars))])
    case If(c, t, e) => if Meant(c, m.vars) != 0 then DoesBlock(t, m) else DoesElse(e, m)
    case For(iv, init, _, _, isAdd, step, trip, _, body) =>
      DoesLoop(body, trip, iv, Cut(iv.ty, Meant(init, m.vars)), Cut(iv.ty, Meant(step, m.vars)), isAdd, m)
    case Return(value) => m.(result := Meant(value, m.vars))
    case Block(b) => DoesBlock(b, m)
  }

  function DoesElse(e: Else, m: Sense): Sense
    decreases e, 1, 0
  {
    match e
    case NoElse => m
    case ElseDo(s) => Does(s, m)
  }

  function DoesBlock(b: seq<Stmt>, m: Sense): Sense
    decreases b, 0, 0
  {
    if b == [] then m else DoesBlock(b[1..], Does(b[0], m))
  }

  // n iterations left, iv the induction value of the next one.
  function DoesLoop(body: seq<Stmt>, n: nat, sym: Symbol, iv: int, step: int, isAdd: bool, m: Sense): Sense
    decreases body, 1, n
  {
    if n == 0 then m
    else
      var m1 := DoesBlock(body, m.(vars := m.vars[sym := iv]));
      DoesLoop(body, n - 1, sym, NextIv(iv, step, isAdd, sym.ty), step, isAdd, m1)
  }

  // The constants' numbers, at their types.
  function ConstVars(consts: seq<Const>, rho: Numbers): Numbers {
    if consts == [] then rho
    else ConstVars(consts[1..], rho[consts[0].sym := Cut(consts[0].sym.ty, NumberOf(consts[0].value))])
  }

  function NumberOf(b: Bits): int {
    if WidthOk(b.width) then Num(b) else 0
  }

  function ParamVars(params: seq<Symbol>, args: seq<int>, rho: Numbers): Numbers
    requires |params| == |args|
  {
    if params == [] then rho
    else ParamVars(params[1..], args[1..], rho[params[0] := Cut(params[0].ty, args[0])])
  }

  function EntryVars(p: Program, args: seq<int>): Numbers
    requires |p.params| == |args|
  {
    ParamVars(p.params, args, ConstVars(p.consts, map[]))
  }

  // The number a program returns.
  function Result(p: Program, args: seq<int>, previous: int): int
    requires |p.params| == |args|
  {
    Cut(p.returnType, DoesBlock(p.body, Sense(EntryVars(p, args), previous)).result)
  }

  // ------------------------------------------------------------ regular statements

  // Statements whose expressions the emitter is correct on.
  predicate RegularStmt(s: Stmt)
    decreases s, 0
  {
    match s
    case VarDecl(sym, init) => TypeOk(sym.ty) && Regular(init)
    case Assign(sym, value) => TypeOk(sym.ty) && Regular(value)
    case If(c, t, e) => Regular(c) && c.ty == U1 && RegularBlock(t) && RegularElse(e)
    case For(iv, init, _, _, _, step, _, _, body) =>
      TypeOk(iv.ty) && Regular(init) && Regular(step) && RegularBlock(body)
    case Return(value) => Regular(value)
    case Block(b) => RegularBlock(b)
  }

  predicate RegularElse(e: Else)
    decreases e, 1
  {
    match e
    case NoElse => true
    case ElseDo(s) => RegularStmt(s)
  }

  predicate RegularBlock(b: seq<Stmt>)
    decreases b, 0
  {
    b == [] || (RegularStmt(b[0]) && RegularBlock(b[1..]))
  }

  // ------------------------------------------------------- what a statement changes

  // before and after agree on every symbol of before outside changed.
  predicate Apart(before: Numbers, after: Numbers, changed: set<Symbol>) {
    && before.Keys <= after.Keys
    && forall x | x in before && x !in changed :: after[x] == before[x]
  }

  lemma {:induction false} DoesTouches(s: Stmt, m: Sense)
    ensures Apart(m.vars, Does(s, m).vars, Assigned(s) + Decls(s))
    decreases s, 0, 0
  {
    hide Meant, Cut;
    match s
    case If(c, t, e) =>
      if Meant(c, m.vars) != 0 {
        DoesBlockTouches(t, m);
      } else if e.ElseDo? {
        DoesTouches(e.stmt, m);
      }
    case For(iv, init, _, _, isAdd, step, trip, _, body) =>
      DoesLoopTouches(body, trip, iv, Cut(iv.ty, Meant(init, m.vars)), Cut(iv.ty, Meant(step, m.vars)), isAdd, m);
    case Block(b) => DoesBlockTouches(b, m);
    case _ =>
  }

  lemma {:induction false} DoesBlockTouches(b: seq<Stmt>, m: Sense)
    ensures Apart(m.vars, DoesBlock(b, m).vars, BlockAssigned(b) + BlockDecls(b))
    decreases b, 0, 0
  {
    if b != [] {
      DoesTouches(b[0], m);
      DoesBlockTouches(b[1..], Does(b[0], m));
    }
  }

  lemma {:induction false} DoesLoopTouches(body: seq<Stmt>, n: nat, sym: Symbol, iv: int, step: int, isAdd: bool, m: Sense)
    ensures Apart(m.vars, DoesLoop(body, n, sym, iv, step, isAdd, m).vars, BlockAssigned(body) + BlockDecls(body) + {sym})
    decreases body, 1, n
  {
    hide NextIv;
    if n > 0 {
      var m0 := m.(vars := m.vars[sym := iv]);
      DoesBlockTouches(body, m0);
      DoesLoopTouches(body, n - 1, sym, NextIv(iv, step, isAdd, sym.ty), step, isAdd, DoesBlock(body, m0));
    }
  }

  // Every variable keeps a number of its declared type.
  lemma {:induction false} DoesFits(s: Stmt, m: Sense)
    requires RegularStmt(s) && NumbersOk(m.vars)
    ensures NumbersOk(Does(s, m).vars)
    decreases s, 0, 0
  {
    hide Meant, Wrap, Regular, InRange;
    match s
    case If(c, t, e) =>
      if Meant(c, m.vars) != 0 {
        DoesBlockFits(t, m);
      } else if e.ElseDo? {
        DoesFits(e.stmt, m);
      }
    case For(iv, init, _, _, isAdd, step, trip, _, body) =>
      DoesLoopFits(body, trip, iv, Cut(iv.ty, Meant(init, m.vars)), Cut(iv.ty, Meant(step, m.vars)), isAdd, m);
    case Block(b) => DoesBlockFits(b, m);
    case _ =>
  }

  lemma {:induction false} DoesBlockFits(b: seq<Stmt>, m: Sense)
    requires RegularBlock(b) && NumbersOk(m.vars)
    ensures NumbersOk(DoesBlock(b, m).vars)
    decreases b, 0, 0
  {
    if b != [] {
      DoesFits(b[0], m);
      DoesBlockFits(b[1..], Does(b[0], m));
    }
  }

  lemma {:induction false} DoesLoopFits(body: seq<Stmt>, n: nat, sym: Symbol, iv: int, step: int, isAdd: bool, m: Sense)
    requires RegularBlock(body) && NumbersOk(m.vars) && TypeOk(sym.ty) && InRange(iv, sym.ty.width, sym.ty.signed)
    ensures NumbersOk(DoesLoop(body, n, sym, iv, step, isAdd, m).vars)
    decreases body, 1, n
  {
    hide Wrap, InRange;
    if n > 0 {
      var m0 := m.(vars := m.vars[sym := iv]);
      DoesBlockFits(body, m0);
      DoesLoopFits(body, n - 1, sym, NextIv(iv, step, isAdd, sym.ty), step, isAdd, DoesBlock(body, m0));
    }
  }

  lemma {:induction false} NoReturnMeans(s: Stmt, m: Sense)
    requires Returns(s) == 0
    ensures Does(s, m).result == m.result
    decreases s, 0, 0
  {
    hide Meant, Cut;
    match s
    case If(c, t, e) =>
      if Meant(c, m.vars) != 0 {
        BlockNoReturnMeans(t, m);
      } else if e.ElseDo? {
        NoReturnMeans(e.stmt, m);
      }
    case For(iv, init, _, _, isAdd, step, trip, _, body) =>
      if trip > 0 {
        LoopNoReturnMeans(body, trip, iv, Cut(iv.ty, Meant(init, m.vars)), Cut(iv.ty, Meant(step, m.vars)), isAdd, m);
      }
    case Block(b) => BlockNoReturnMeans(b, m);
    case _ =>
  }

  lemma {:induction false} BlockNoReturnMeans(b: seq<Stmt>, m: Sense)
    requires BlockReturns(b) == 0
    ensures DoesBlock(b, m).result == m.result
    decreases b, 0, 0
  {
    if b != [] {
      NoReturnMeans(b[0], m);
      BlockNoReturnMeans(b[1..], Does(b[0], m));
    }
  }

  lemma {:induction false} LoopNoReturnMeans(body: seq<Stmt>, n: nat, sym: Symbol, iv: int, step: int, isAdd: bool, m: Sense)
    requires BlockReturns(body) == 0
    ensures DoesLoop(body, n, sym, iv, step, isAdd, m).result == m.result
    decreases body, 1, n
  {
    hide NextIv;
    if n > 0 {
      var m0 := m.(vars := m.vars[sym := iv]);
      BlockNoReturnMeans(body, m0);
      LoopNoReturnMeans(body, n - 1, sym, NextIv(iv, step, isAdd, sym.ty), step, isAdd, DoesBlock(body, m0));
    }
  }
}
