/**
 What running a statement can and cannot change.
 */
module ExecFacts {
  import opened Arith
  import opened FixedWidth
  import opened Ast
  import opened Interp
  import opened Meaning
  import opened InterpExact

  predicate NoDuplicates(xs: seq<Symbol>) {
    forall i, j | 0 <= i < j < |xs| :: xs[i] != xs[j]
  }

  // collectAssigned keeps its set free of duplicates and adds exactly the
  // assigned symbols.
  lemma {:induction false} CollectIsAssigned(s: Stmt, out: seq<Symbol>)
    requires NoDuplicates(out)
    ensures var r := CollectAssigned(s, out);
            NoDuplicates(r) && forall x :: x in r <==> x in out || x in Assigned(s)
    decreases s, 0
  {
    match s
    case Block(b) => CollectBlockIsAssigned(b, out);
    case If(_, t, e) =>
      CollectBlockIsAssigned(t, out);
      CollectElseIsAssigned(e, CollectBlock(t, out));
    case For(_, _, _, _, _, _, _, _, body) => CollectBlockIsAssigned(body, out);
    case _ =>
  }

  lemma {:induction false} CollectElseIsAssigned(e: Else, out: seq<Symbol>)
    requires NoDuplicates(out)
    ensures var r := CollectElse(e, out);
            NoDuplicates(r) && forall x :: x in r <==> x in out || x in ElseAssigned(e)
    decreases e, 1
  {
    match e
    case NoElse =>
    case ElseDo(s) => CollectIsAssigned(s, out);
  }

  lemma {:induction false} CollectBlockIsAssigned(b: seq<Stmt>, out: seq<Symbol>)
    requires NoDuplicates(out)
    ensures var r := CollectBlock(b, out);
            NoDuplicates(r) && forall x :: x in r <==> x in out || x in BlockAssigned(b)
    decreases b, 0
  {
    if b != [] {
      CollectIsAssigned(b[0], out);
      CollectBlockIsAssigned(b[1..], CollectAssigned(b[0], out));
    }
  }

  // before and after agree on every symbol of before outside changed.
  predicate SameExcept(before: Store, after: Store, changed: set<Symbol>) {
    && before.Keys <= after.Keys
    && forall x | x in before && x !in changed :: after[x] == before[x]
  }

  // The phi set is complete: among the symbols bound before a statement, it can
  // change only those collectAssigned reports or those it declares afresh.
  lemma {:induction false} ExecTouches(s: Stmt, st: State)
    ensures SameExcept(st.scalars, Exec(s, st).scalars, Assigned(s) + Decls(s))
    decreases s, 0, 0
  {
    match s
    case If(c, t, e) =>
      if Eval(c, st.scalars).raw != 0 {
        BlockTouches(t, st);
      } else if e.ElseDo? {
        ExecTouches(e.stmt, st);
      }
    case For(iv, init, _, _, isAdd, step, trip, _, body) =>
      LoopTouches(body, trip, iv, Coerce(Eval(init, st.scalars), iv.ty),
                  Coerce(Eval(step, st.scalars), iv.ty), isAdd, st);
    case Block(b) => BlockTouches(b, st);
    case _ =>
  }

  lemma {:induction false} BlockTouches(b: seq<Stmt>, st: State)
    ensures SameExcept(st.scalars, ExecBlock(b, st).scalars, BlockAssigned(b) + BlockDecls(b))
    decreases b, 0, 0
  {
    if b != [] {
      ExecTouches(b[0], st);
      BlockTouches(b[1..], Exec(b[0], st));
    }
  }

  lemma {:induction false} LoopTouches(body: seq<Stmt>, n: nat, ivSym: Symbol, iv: Bits, step: Bits, isAdd: bool, st: State)
    ensures SameExcept(st.scalars, ExecLoop(body, n, ivSym, iv, step, isAdd, st).scalars,
                       BlockAssigned(body) + BlockDecls(body) + {ivSym})
    decreases body, 1, n
  {
    if n > 0 {
      var st0 := st.(scalars := st.scalars[ivSym := iv]);
      BlockTouches(body, st0);
      LoopTouches(body, n - 1, ivSym, StepIv(iv, step, isAdd, ivSym.ty), step, isAdd, ExecBlock(body, st0));
    }
  }

  // -------------------------------------------------------------- typed statements

  predicate StmtTyped(s: Stmt)
    decreases s, 0
  {
    match s
    case VarDecl(sym, init) => TypeOk(sym.ty) && WellTyped(init)
    case Assign(sym, value) => TypeOk(sym.ty) && WellTyped(value)
    case If(c, t, e) => WellTyped(c) && c.ty == U1 && BlockTyped(t) && ElseTyped(e)
    case For(iv, init, _, _, _, step, _, _, body) =>
      TypeOk(iv.ty) && WellTyped(init) && WellTyped(step) && BlockTyped(body)
    case Return(value) => WellTyped(value)
    case Block(b) => BlockTyped(b)
  }

  predicate ElseTyped(e: Else)
    decreases e, 1
  {
    match e
    case NoElse => true
    case ElseDo(s) => StmtTyped(s)
  }

  predicate BlockTyped(b: seq<Stmt>)
    decreases b, 0
  {
    b == [] || (StmtTyped(b[0]) && BlockTyped(b[1..]))
  }

  // Type soundness: every variable keeps a value of its declared type.
  lemma {:induction false} ExecTyped(s: Stmt, st: State)
    requires StmtTyped(s) && StoreTyped(st.scalars)
    ensures StoreTyped(Exec(s, st).scalars)
    decreases s, 0, 0
  {
    match s
    case If(c, t, e) =>
      if Eval(c, st.scalars).raw != 0 {
        BlockKeepsTyped(t, st);
      } else if e.ElseDo? {
        ExecTyped(e.stmt, st);
      }
    case For(iv, init, _, _, isAdd, step, trip, _, body) =>
      LoopKeepsTyped(body, trip, iv, Coerce(Eval(init, st.scalars), iv.ty),
                     Coerce(Eval(step, st.scalars), iv.ty), isAdd, st);
    case Block(b) => BlockKeepsTyped(b, st);
    case _ =>
  }

  lemma {:induction false} BlockKeepsTyped(b: seq<Stmt>, st: State)
    requires BlockTyped(b) && StoreTyped(st.scalars)
    ensures StoreTyped(ExecBlock(b, st).scalars)
    decreases b, 0, 0
  {
    if b != [] {
      ExecTyped(b[0], st);
      BlockKeepsTyped(b[1..], Exec(b[0], st));
    }
  }

  lemma {:induction false} LoopKeepsTyped(body: seq<Stmt>, n: nat, ivSym: Symbol, iv: Bits, step: Bits, isAdd: bool, st: State)
    requires BlockTyped(body) && StoreTyped(st.scalars) && TypeOk(ivSym.ty)
    requires iv.width == ivSym.ty.width && iv.signed == ivSym.ty.signed
    ensures StoreTyped(ExecLoop(body, n, ivSym, iv, step, isAdd, st).scalars)
    decreases body, 1, n
  {
    if n > 0 {
      var st0 := st.(scalars := st.scalars[ivSym := iv]);
      BlockKeepsTyped(body, st0);
      LoopKeepsTyped(body, n - 1, ivSym, StepIv(iv, step, isAdd, ivSym.ty), step, isAdd, ExecBlock(body, st0));
    }
  }

  // ------------------------------------------------------------------ no `return`

  lemma {:induction false} NoReturnKeeps(s: Stmt, st: State)
    requires Returns(s) == 0
    ensures Exec(s, st).returnValue == st.returnValue
    decreases s, 0, 0
  {
    hide Eval, Coerce;
    match s
    case If(c, t, e) =>
      if Eval(c, st.scalars).raw != 0 {
        BlockNoReturnKeeps(t, st);
      } else if e.ElseDo? {
        NoReturnKeeps(e.stmt, st);
      }
    case For(iv, init, _, _, isAdd, step, trip, _, body) =>
      if trip > 0 {
        LoopNoReturnKeeps(body, trip, iv, Coerce(Eval(init, st.scalars), iv.ty),
                          Coerce(Eval(step, st.scalars), iv.ty), isAdd, st);
      }
    case Block(b) => BlockNoReturnKeeps(b, st);
    case _ =>
  }

  lemma {:induction false} BlockNoReturnKeeps(b: seq<Stmt>, st: State)
    requires BlockReturns(b) == 0
    ensures ExecBlock(b, st).returnValue == st.returnValue
    decreases b, 0, 0
  {
    if b != [] {
      NoReturnKeeps(b[0], st);
      BlockNoReturnKeeps(b[1..], Exec(b[0], st));
    }
  }

  lemma {:induction false} LoopNoReturnKeeps(body: seq<Stmt>, n: nat, ivSym: Symbol, iv: Bits, step: Bits, isAdd: bool, st: State)
    requires BlockReturns(body) == 0
    ensures ExecLoop(body, n, ivSym, iv, step, isAdd, st).returnValue == st.returnValue
    decreases body, 1, n
  {
    if n > 0 {
      var st0 := st.(scalars := st.scalars[ivSym := iv]);
      BlockNoReturnKeeps(body, st0);
      LoopNoReturnKeeps(body, n - 1, ivSym, StepIv(iv, step, isAdd, ivSym.ty), step, isAdd, ExecBlock(body, st0));
    }
  }
}
