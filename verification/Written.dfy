/**
 Loops as they are written: the condition is tested before every iteration, and the
 induction variable counts in unbounded integers.  The emitted code, and the meaning
 it is proved against, only count iterations; where the counts are those of
 evaluateFor, nothing tells the difference.
 */
module Written {
  import opened Arith
  import opened FixedWidth
  import opened Ast
  import opened Meaning
  import opened Means
  import opened TripCount
  import opened Returns
  import opened Wrappers

  // What a statement does; none when a loop has no end.
  function RunStmt(s: Stmt, m: Sense): Option<Sense>
    decreases s, 0, 0
  {
    match s
    case If(c, t, e) => if Meant(c, m.vars) != 0 then RunBlock(t, m) else RunElse(e, m)
    case For(iv, init, rel, limit, isAdd, stepE, _, _, body) =>
      var start, end, step := Meant(init, m.vars), Meant(limit, m.vars), Meant(stepE, m.vars);
      if !Holds(rel, start, end) then Some(m)
      else if Approaches(rel, Delta(step, isAdd)) then RunLoop(body, iv, start, end, Delta(step, isAdd), rel, m)
      else None
    case Block(b) => RunBlock(b, m)
    case _ => Some(Does(s, m))
  }

  function RunElse(e: Else, m: Sense): Option<Sense>
    decreases e, 1, 0
  {
    match e
    case NoElse => Some(m)
    case ElseDo(s) => RunStmt(s, m)
  }

  function RunBlock(b: seq<Stmt>, m: Sense): Option<Sense>
    decreases b, 0, 0
  {
    if b == [] then Some(m)
    else
      var m1 :- RunStmt(b[0], m);
      RunBlock(b[1..], m1)
  }

  // Each step moves the value to where the condition fails.
  predicate Approaches(rel: Cmp, delta: int) {
    HeaderOp(rel) && if rel == Lt || rel == Le then delta > 0 else delta < 0
  }

  function RunLoop(body: seq<Stmt>, iv: Symbol, cur: int, end: int, delta: int, rel: Cmp, m: Sense): Option<Sense>
    requires Approaches(rel, delta)
    decreases body, 1, if !Holds(rel, cur, end) then 0 else 1 + Abs(end - cur)
  {
    if !Holds(rel, cur, end) then Some(m)
    else
      var m1 :- RunBlock(body, m.(vars := m.vars[iv := Cut(iv.ty, cur)]));
      RunLoop(body, iv, cur + delta, end, delta, rel, m1)
  }

  // The number a program returns, loops run as written.
  function Returned(p: Program, args: seq<int>, previous: int): Option<int>
    requires |args| == |p.params|
  {
    var m :- RunBlock(p.body, Sense(EntryVars(p, args), previous));
    Some(Cut(p.returnType, m.result))
  }

  // ---------------------------------------------------------- counted as written

  // The count of a loop is that of its header, whose numbers the constants decide;
  // if it is entered its step is positive and toward its limit.
  predicate Counted(s: Stmt, rho: Numbers)
    requires s.For?
  {
    && HeaderOp(s.rel) && Widths(s.init) && Widths(s.limit) && Widths(s.step)
    && Reads(s.init) + Reads(s.limit) + Reads(s.step) <= rho.Keys
    && var start, end, step := Ideal(s.init, rho), Ideal(s.limit, rho), Ideal(s.step, rho);
       && Exactly(s.trip, start, Delta(step, s.stepIsAdd), s.rel, end)
       && (Holds(s.rel, start, end) ==> step > 0 && Toward(s.stepIsAdd, s.rel))
  }

  predicate StmtCounted(s: Stmt, rho: Numbers)
    decreases s, 0
  {
    match s
    case If(_, t, e) => BlockCounted(t, rho) && ElseCounted(e, rho)
    case For(iv, _, _, _, _, _, _, _, body) => TypeOk(iv.ty) && Counted(s, rho) && BlockCounted(body, rho)
    case Block(b) => BlockCounted(b, rho)
    case _ => true
  }

  predicate ElseCounted(e: Else, rho: Numbers)
    decreases e, 1
  {
    match e
    case NoElse => true
    case ElseDo(s) => StmtCounted(s, rho)
  }

  predicate BlockCounted(b: seq<Stmt>, rho: Numbers)
    decreases b, 0
  {
    b == [] || (StmtCounted(b[0], rho) && BlockCounted(b[1..], rho))
  }

  // The variables include the constants.
  predicate Includes(vars: Numbers, rho: Numbers) {
    forall x | x in rho :: x in vars && vars[x] == rho[x]
  }

  lemma HeaderIs(e: Expr, vars: Numbers, rho: Numbers)
    requires Widths(e) && Includes(vars, rho) && Reads(e) <= rho.Keys
    ensures Meant(e, vars) == Ideal(e, rho)
  {
    IdealReads(e, rho, vars);
  }

  // Stepping a value cut at the type is cutting the stepped number.
  lemma CutStep(cur: int, step: int, isAdd: bool, t: Type)
    requires TypeOk(t)
    ensures NextIv(Cut(t, cur), Cut(t, step), isAdd, t) == Cut(t, cur + Delta(step, isAdd))
  {
    hide Pow2, NumOf;
    var m := Pow2(t.width);
    RawOfNum(t.width, t.signed, cur % m);
    RawOfNum(t.width, t.signed, step % m);
    var x, y := Cut(t, cur), Cut(t, step);
    ModAdd(x, y, m);
    ModSub(x, y, m);
    ModAdd(cur, step, m);
    ModSub(cur, step, m);
  }

  lemma IncludesStill(vars: Numbers, after: Numbers, rho: Numbers, changed: set<Symbol>)
    requires Includes(vars, rho) && Apart(vars, after, changed) && changed !! rho.Keys
    ensures Includes(after, rho)
  {
  }

  // Where counts are those of the headers, a statement means what is written.
  lemma {:induction false} StmtAsWritten(s: Stmt, m: Sense, rho: Numbers)
    requires StmtCounted(s, rho) && Includes(m.vars, rho) && Decls(s) + Assigned(s) !! rho.Keys
    ensures RunStmt(s, m) == Some(Does(s, m)) && Includes(Does(s, m).vars, rho)
    decreases s, 0, 0
  {
    hide Meant, Includes, Counted;
    StmtKeeps(s, m, rho);
    match s
    case If(c, t, e) =>
      if Meant(c, m.vars) != 0 {
        BlockAsWritten(t, m, rho);
      } else if e.ElseDo? {
        StmtAsWritten(e.stmt, m, rho);
      }
    case For(_, _, _, _, _, _, _, _, _) => ForAsWritten(s, m, rho);
    case Block(b) => BlockAsWritten(b, m, rho);
    case _ =>
  }

  lemma StmtKeeps(s: Stmt, m: Sense, rho: Numbers)
    requires Includes(m.vars, rho) && Decls(s) + Assigned(s) !! rho.Keys
    ensures Includes(Does(s, m).vars, rho)
  {
    hide Does, Decls, Assigned;
    DoesTouches(s, m);
    IncludesStill(m.vars, Does(s, m).vars, rho, Decls(s) + Assigned(s));
  }

  lemma {:induction false} BlockAsWritten(b: seq<Stmt>, m: Sense, rho: Numbers)
    requires BlockCounted(b, rho) && Includes(m.vars, rho) && BlockDecls(b) + BlockAssigned(b) !! rho.Keys
    ensures RunBlock(b, m) == Some(DoesBlock(b, m)) && Includes(DoesBlock(b, m).vars, rho)
    decreases b, 0, 0
  {
    hide Includes, Does, RunStmt;
    if b != [] {
      StmtAsWritten(b[0], m, rho);
      BlockAsWritten(b[1..], Does(b[0], m), rho);
    }
  }

  lemma {:induction false} ForAsWritten(s: Stmt, m: Sense, rho: Numbers)
    requires s.For? && StmtCounted(s, rho) && Includes(m.vars, rho) && Decls(s) + Assigned(s) !! rho.Keys
    ensures RunStmt(s, m) == Some(Does(s, m))
    decreases s.body, 2, 0
  {
    hide Meant, Ideal, Reads, Cut, RunLoop, DoesLoop, Includes, Exactly;
    HeaderIs(s.init, m.vars, rho);
    HeaderIs(s.limit, m.vars, rho);
    HeaderIs(s.step, m.vars, rho);
    var start, end, step := Ideal(s.init, rho), Ideal(s.limit, rho), Ideal(s.step, rho);
    if !Holds(s.rel, start, end) {
      NoneRun(s.trip, start, Delta(step, s.stepIsAdd), s.rel, end);
      DoesNone(s.body, s.iv, Cut(s.iv.ty, start), Cut(s.iv.ty, step), s.stepIsAdd, m);
    } else {
      LoopAsWritten(s.body, s.trip, s.iv, start, end, step, s.stepIsAdd, s.rel, m, rho);
    }
  }

  lemma NoneRun(n: nat, start: int, delta: int, rel: Cmp, end: int)
    requires Exactly(n, start, delta, rel, end) && !Holds(rel, start, end)
    ensures n == 0
  {
    assert At(start, delta, 0) == start;
  }

  lemma DoesNone(body: seq<Stmt>, sym: Symbol, iv: int, step: int, isAdd: bool, m: Sense)
    ensures DoesLoop(body, 0, sym, iv, step, isAdd, m) == m
  {
  }

  lemma {:induction false} LoopAsWritten(body: seq<Stmt>, n: nat, sym: Symbol, start: int, end: int, step: int,
                                         isAdd: bool, rel: Cmp, m: Sense, rho: Numbers)
    requires TypeOk(sym.ty) && HeaderOp(rel) && Toward(isAdd, rel) && step > 0
    requires Exactly(n, start, Delta(step, isAdd), rel, end)
    requires BlockCounted(body, rho) && Includes(m.vars, rho)
    requires BlockDecls(body) + BlockAssigned(body) + {sym} !! rho.Keys
    ensures RunLoop(body, sym, start, end, Delta(step, isAdd), rel, m) ==
            Some(DoesLoop(body, n, sym, Cut(sym.ty, start), Cut(sym.ty, step), isAdd, m))
    decreases body, 1, n
  {
    hide Cut, NextIv, Includes, BlockCounted, DoesBlock, RunBlock, Exactly;
    var delta := Delta(step, isAdd);
    if n == 0 {
      NotHolding(start, delta, rel, end);
    } else {
      ExactlyTail(n, start, delta, rel, end);
      CutStep(start, step, isAdd, sym.ty);
      var m0 := m.(vars := m.vars[sym := Cut(sym.ty, start)]);
      IvIncluded(m.vars, sym, Cut(sym.ty, start), rho);
      BlockAsWritten(body, m0, rho);
      LoopAsWritten(body, n - 1, sym, start + delta, end, step, isAdd, rel, DoesBlock(body, m0), rho);
    }
  }

  lemma NotHolding(start: int, delta: int, rel: Cmp, end: int)
    requires Exactly(0, start, delta, rel, end)
    ensures !Holds(rel, start, end)
  {
    assert At(start, delta, 0) == start;
  }

  lemma IvIncluded(vars: Numbers, sym: Symbol, x: int, rho: Numbers)
    requires Includes(vars, rho) && sym !in rho
    ensures Includes(vars[sym := x], rho)
  {
  }

  // A count evaluateFor accepts is the header's own, when the three numbers are
  // read whole and the step goes the way of the condition.
  lemma AcceptedCounts(t: Type, init: Bits, limit: Bits, step: Bits, isAdd: bool, rel: Cmp)
    requires TypeOk(t) && HeaderOp(rel) && EvaluateFor(t, init, limit, step, isAdd, rel).Some?
    requires WidthOk(init.width) && WidthOk(limit.width) && WidthOk(step.width)
    requires Num(init) < Pow2(WORD - 1) && Num(limit) < Pow2(WORD - 1) && Num(step) < Pow2(WORD - 1)
    requires Holds(rel, Num(init), Num(limit)) ==> Num(step) > 0 && Toward(isAdd, rel)
    ensures Exactly(EvaluateFor(t, init, limit, step, isAdd, rel).value,
                    Num(init), Delta(Num(step), isAdd), rel, Num(limit))
  {
    hide EvaluateFor, Exactly, Pow2, FixedWidth.Value;
    ReadWhole(init);
    ReadWhole(limit);
    ReadWhole(step);
    TripCountIff(t, init, limit, step, isAdd, rel);
  }

  lemma ReadWhole(b: Bits)
    requires WidthOk(b.width) && Num(b) < Pow2(WORD - 1)
    ensures FixedWidth.Value(b) == Num(b)
  {
    RawIsNum(b);
    ValueIsNum(b);
  }

  lemma {:induction false} UpToCounted(b: seq<Stmt>, rho: Numbers)
    requires BlockCounted(b, rho)
    ensures BlockCounted(UpToReturn(b), rho)
    decreases b, 0
  {
    hide StmtCounted;
    if b != [] {
      var c := UpToReturn(b);
      if Stops(b[0]) {
        StmtUpToCounted(b[0], rho);
        assert c[1..] == [];
      } else {
        UpToCounted(b[1..], rho);
        assert c[1..] == UpToReturn(b[1..]);
      }
    }
  }

  lemma {:induction false} StmtUpToCounted(s: Stmt, rho: Numbers)
    requires StmtCounted(s, rho)
    ensures StmtCounted(StmtUpTo(s), rho)
    decreases s, 1
  {
    if s.Block? {
      UpToCounted(s.stmts, rho);
    }
  }
}
