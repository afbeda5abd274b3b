/**
 What becomes of `return`.  The emitter stops a block at its first one and refuses
 one inside a region; the interpreter goes on, and keeps the last one executed.
 So a function that is emitted means its body up to the first `return`.
 */
module Returns {
  import opened FixedWidth
  import opened Ast
  import opened Interp
  import opened Means
  import opened ExecFacts
  import opened Wrappers
  import opened Emit

  // Emission stops after this statement.
  predicate Stops(s: Stmt)
    decreases s, 0
  {
    match s
    case Return(_) => true
    case Block(b) => BlockStops(b)
    case _ => false
  }

  predicate BlockStops(b: seq<Stmt>)
    decreases b, 0
  {
    b != [] && (Stops(b[0]) || BlockStops(b[1..]))
  }

  // The statements that are emitted: a block is cut after its first stop.
  function UpToReturn(b: seq<Stmt>): seq<Stmt>
    decreases b, 0
  {
    if b == [] then []
    else if Stops(b[0]) then [StmtUpTo(b[0])]
    else [b[0]] + UpToReturn(b[1..])
  }

  function StmtUpTo(s: Stmt): Stmt
    decreases s, 0
  {
    if s.Block? then Block(UpToReturn(s.stmts)) else s
  }

  // -------------------------------------------------------------------- emission

  // What follows a stop is never emitted.
  lemma {:induction false} EmitUpTo(b: seq<Stmt>, cx: Context, g: Gen)
    requires !g.returned
    ensures EmitBlock(UpToReturn(b), cx, g) == EmitBlock(b, cx, g)
    decreases b, 0
  {
    hide EmitFor, EmitIf, EmitExpr;
    if b != [] {
      var c := UpToReturn(b);
      var g1 := EmitStmt(b[0], cx, g);
      if Stops(b[0]) {
        EmitStmtUpTo(b[0], cx, g);
        assert c[1..] == [];
        if g1.Some? {
          StopsReturns(b[0], cx, g);
        }
      } else {
        assert c[1..] == UpToReturn(b[1..]);
        if g1.Some? && !g1.value.returned {
          EmitUpTo(b[1..], cx, g1.value);
        }
      }
    }
  }

  lemma {:induction false} EmitStmtUpTo(s: Stmt, cx: Context, g: Gen)
    requires !g.returned
    ensures EmitStmt(StmtUpTo(s), cx, g) == EmitStmt(s, cx, g)
    decreases s, 1
  {
    hide EmitFor, EmitIf, EmitBlock, EmitExpr;
    if s.Block? {
      EmitUpTo(s.stmts, cx, g);
    }
  }

  // A statement stops emission exactly when it ends in a `return`; one that does
  // not has no `return` that could run.
  lemma {:induction false} StopsReturns(s: Stmt, cx: Context, g: Gen)
    requires !g.returned && EmitStmt(s, cx, g).Some?
    ensures EmitStmt(s, cx, g).value.returned <==> Stops(s)
    ensures !Stops(s) ==> Returns(s) == 0
    decreases s, 1
  {
    hide EmitExpr, EmitBlock, EmitElse, EmitHead, BodyStart, Rebind, Lookup, CollectBlock, CollectElse, RemoveSymbol;
    match s
    case If(c, t, e) => IfReturns(c, t, e, cx, g);
    case For(_, _, _, _, _, _, trip, _, _) =>
      if trip > 0 {
        ForReturns(s, cx, g);
      }
    case Block(b) => BlockStopsReturns(b, cx, g);
    case _ =>
  }

  lemma {:induction false} IfReturns(c: Expr, t: seq<Stmt>, e: Else, cx: Context, g: Gen)
    requires !g.returned && EmitIf(c, t, e, cx, g).Some?
    ensures !EmitIf(c, t, e, cx, g).value.returned && Returns(If(c, t, e)) == 0
    decreases If(c, t, e), 0
  {
    hide EmitExpr, EmitBlock, EmitStmt, Rebind, Lookup, CollectBlock, CollectElse;
    var cv := EmitExpr(c, g.vals, cx.consts, g.b).value;
    var carried := CollectElse(e, CollectBlock(t, []));
    var gt := Gen(g.vals, Builder([], cv.b.next), false);
    BlockStopsReturns(t, cx, gt);
    if e.ElseDo? {
      var tr := Yielded(EmitBlock(t, cx, gt), carried).value;
      StopsReturns(e.stmt, cx, Gen(g.vals, Builder([], tr.next), false));
    }
  }

  lemma {:induction false} ForReturns(s: Stmt, cx: Context, g: Gen)
    requires s.For? && s.trip > 0 && !g.returned && EmitStmt(s, cx, g).Some?
    ensures !EmitStmt(s, cx, g).value.returned && Returns(s) == 0
    decreases s, 0
  {
    hide EmitBlock, EmitHead, Rebind, Lookup, CollectBlock, RemoveSymbol;
    var carried := RemoveSymbol(CollectBlock(s.body, []), s.iv);
    var inits := Lookup(g.vals, carried).value;
    var h := EmitHead(s.iv, s.init, s.step, s.trip, cx, g).value;
    BlockStopsReturns(s.body, cx, BodyStart(h, s.iv, s.stepIsAdd, carried, inits, g.vals));
  }

  lemma {:induction false} BlockStopsReturns(b: seq<Stmt>, cx: Context, g: Gen)
    requires !g.returned && EmitBlock(b, cx, g).Some?
    ensures EmitBlock(b, cx, g).value.returned <==> BlockStops(b)
    ensures !BlockStops(b) ==> BlockReturns(b) == 0
    ensures BlockReturns(UpToReturn(b)) == if BlockStops(b) then 1 else 0
    decreases b, 0
  {
    hide EmitStmt;
    if b != [] {
      StopsReturns(b[0], cx, g);
      var g1 := EmitStmt(b[0], cx, g).value;
      var c := UpToReturn(b);
      if g1.returned {
        StopsOnce(b[0], cx, g);
        assert c[1..] == [];
      } else {
        BlockStopsReturns(b[1..], cx, g1);
        assert c[1..] == UpToReturn(b[1..]);
      }
    }
  }

  lemma {:induction false} StopsOnce(s: Stmt, cx: Context, g: Gen)
    requires !g.returned && EmitStmt(s, cx, g).Some? && Stops(s)
    ensures Returns(StmtUpTo(s)) == 1
    decreases s, 0
  {
    hide EmitExpr, EmitBlock;
    if s.Block? {
      BlockStopsReturns(s.stmts, cx, g);
    }
  }

  // ------------------------------------------------------------------- execution

  // Where at most one `return` can run, nothing after it changes the result.
  lemma {:induction false} SameReturn(b: seq<Stmt>, st: State)
    requires BlockReturns(b) <= 1
    ensures ExecBlock(UpToReturn(b), st).returnValue == ExecBlock(b, st).returnValue
    decreases b, 0
  {
    hide Exec;
    if b != [] {
      var c := UpToReturn(b);
      if Stops(b[0]) {
        StopCounts(b[0]);
        StmtSameReturn(b[0], st);
        BlockNoReturnKeeps(b[1..], Exec(b[0], st));
        assert c[1..] == [];
        assert ExecBlock(c, st) == ExecBlock([], Exec(StmtUpTo(b[0]), st));
      } else {
        SameReturn(b[1..], Exec(b[0], st));
        assert c[1..] == UpToReturn(b[1..]);
      }
    }
  }

  lemma {:induction false} StmtSameReturn(s: Stmt, st: State)
    requires Returns(s) <= 1
    ensures Exec(StmtUpTo(s), st).returnValue == Exec(s, st).returnValue
    decreases s, 1
  {
    hide ExecBlock;
    if s.Block? {
      SameReturn(s.stmts, st);
    }
  }

  lemma {:induction false} StopCounts(s: Stmt)
    requires Stops(s)
    ensures Returns(s) >= 1
    decreases s, 1
  {
    if s.Block? {
      BlockStopCounts(s.stmts);
    }
  }

  lemma {:induction false} BlockStopCounts(b: seq<Stmt>)
    requires BlockStops(b)
    ensures BlockReturns(b) >= 1
    decreases b, 0
  {
    if Stops(b[0]) {
      StopCounts(b[0]);
    } else {
      BlockStopCounts(b[1..]);
    }
  }

  // Nor what the program means.
  lemma {:induction false} SameMeaning(b: seq<Stmt>, m: Sense)
    requires BlockReturns(b) <= 1
    ensures DoesBlock(UpToReturn(b), m).result == DoesBlock(b, m).result
    decreases b, 0
  {
    hide Does;
    if b != [] {
      var c := UpToReturn(b);
      if Stops(b[0]) {
        StopCounts(b[0]);
        StmtSameMeaning(b[0], m);
        BlockNoReturnMeans(b[1..], Does(b[0], m));
        assert c[1..] == [];
        assert DoesBlock(c, m) == DoesBlock([], Does(StmtUpTo(b[0]), m));
      } else {
        SameMeaning(b[1..], Does(b[0], m));
        assert c[1..] == UpToReturn(b[1..]);
      }
    }
  }

  lemma {:induction false} StmtSameMeaning(s: Stmt, m: Sense)
    requires Returns(s) <= 1
    ensures Does(StmtUpTo(s), m).result == Does(s, m).result
    decreases s, 1
  {
    hide DoesBlock;
    if s.Block? {
      SameMeaning(s.stmts, m);
    }
  }

  // ------------------------------------------------------------ what is inherited

  lemma {:induction false} UpToTyped(b: seq<Stmt>)
    ensures BlockTyped(b) ==> BlockTyped(UpToReturn(b))
    ensures BlockDecls(UpToReturn(b)) <= BlockDecls(b) && BlockAssigned(UpToReturn(b)) <= BlockAssigned(b)
    ensures BlockUnique(b) ==> BlockUnique(UpToReturn(b))
    decreases b, 0
  {
    hide StmtTyped, UniqueDecls;
    if b != [] {
      var c := UpToReturn(b);
      if Stops(b[0]) {
        StmtUpToTyped(b[0]);
        assert c[1..] == [];
      } else {
        UpToTyped(b[1..]);
        assert c[1..] == UpToReturn(b[1..]);
      }
    }
  }

  lemma {:induction false} StmtUpToTyped(s: Stmt)
    ensures StmtTyped(s) ==> StmtTyped(StmtUpTo(s))
    ensures Decls(StmtUpTo(s)) <= Decls(s) && Assigned(StmtUpTo(s)) <= Assigned(s)
    ensures UniqueDecls(s) ==> UniqueDecls(StmtUpTo(s))
    decreases s, 1
  {
    if s.Block? {
      UpToTyped(s.stmts);
    }
  }
}
