/**
 Compiler correctness: the function emitted for a program returns, for every input,
 the number the program means, and so the bits the interpreter returns on every run
 within its limits.
 */
module CompileCorrect {
  import opened Arith
  import opened FixedWidth
  import opened Ast
  import opened Interp
  import opened Meaning
  import opened Means
  import opened InterpExact
  import opened ExecFacts
  import opened Ir
  import opened Wrappers
  import opened IrFacts
  import opened Emit
  import opened EmitExact
  import opened StmtExact
  import opened EmitTotal
  import opened Returns
  import opened Scoping
  import opened Within

  // ------------------------------------------------------- file-scope constants

  // The emitter reads a constant's bits at the declared width; the interpreter
  // converts its value.  They agree except for a negative value of a type
  // narrower than the declared one.
  predicate ConstReadable(value: Bits, t: Type)
    requires WidthOk(value.width)
  {
    Num(value) >= 0 || value.width >= t.width
  }

  lemma ConstReadIff(value: Bits, t: Type)
    requires WidthOk(value.width) && TypeOk(t)
    ensures value.raw % Pow2(t.width) == Interp.Coerce(value, t).raw <==> ConstReadable(value, t)
  {
    var m := Pow2(t.width);
    CastExact(value, t.width, t.signed);
    if Num(value) < 0 {
      var p := Pow2(value.width);
      assert value.raw == Num(value) + p;
      if value.width >= t.width {
        Pow2Add(value.width - t.width, t.width);
        ModPlus(Num(value), Pow2(value.width - t.width), m);
      } else {
        Pow2Strict(value.width, t.width);
        DivModIs(Num(value), m, -1, Num(value) + m);
        ModSmall(value.raw, m);
      }
    }
  }

  // ---------------------------------------------------------------- programs

  predicate ConstsOk(consts: seq<Const>) {
    forall i | 0 <= i < |consts| ::
      && TypeOk(consts[i].sym.ty) && WidthOk(consts[i].value.width)
      && ConstReadable(consts[i].value, consts[i].sym.ty)
  }

  predicate ParamsOk(params: seq<Symbol>) {
    NoDuplicates(params) && forall i | 0 <= i < |params| :: TypeOk(params[i].ty)
  }

  // A resolved program of regular expressions.
  predicate ProgramOk(p: Program) {
    && ConstsOk(p.consts) && ParamsOk(p.params) && TypeOk(p.returnType)
    && RegularBlock(p.body) && BlockUnique(p.body)
    && (forall x | x in p.params :: x !in ConstantTable(p.consts) && x !in BlockDecls(p.body))
    && BlockDecls(p.body) !! ConstantTable(p.consts).Keys
  }

  // One whose expressions also stay within the interpreter's limits, by their types.
  predicate ProgramTyped(p: Program) {
    ProgramOk(p) && BlockTyped(p.body)
  }

  // The words that stand for numbers at the parameters' types.
  function Words(p: Program, args: seq<int>): (r: seq<nat>)
    requires |args| == |p.params|
    ensures |r| == |p.params|
  {
    seq(|args|, i requires 0 <= i < |args| => args[i] % Pow2(p.params[i].ty.width))
  }

  lemma WordsFit(p: Program, args: seq<int>)
    requires |args| == |p.params| && ParamsOk(p.params)
    ensures Fit(Words(p, args), p.params)
  {
  }

  // ------------------------------------------------------------------ initial state

  lemma {:induction false} ConstsHold(consts: seq<Const>, rho: Numbers)
    requires ConstsOk(consts) && NumbersOk(rho)
    ensures var s := ConstVars(consts, rho);
            && NumbersOk(s)
            && (forall x | x in rho && x !in ConstantTable(consts) :: x in s && s[x] == rho[x])
            && (forall x | x in ConstantTable(consts) ::
                  x in s && s[x] == Cut(x.ty, NumberOf(ConstantTable(consts)[x])))
    decreases |consts|
  {
    if consts != [] {
      hide Wrap, ConstReadable, ConstVars, InRange, NumberOf;
      var init, last := consts[..|consts| - 1], consts[|consts| - 1];
      ConstsHold(init, rho);
      ConstLast(init, last, rho);
      assert consts == init + [last];
    }
  }

  lemma {:induction false} ConstLast(init: seq<Const>, last: Const, rho: Numbers)
    ensures ConstVars(init + [last], rho) == ConstVars(init, rho)[last.sym := Cut(last.sym.ty, NumberOf(last.value))]
    decreases |init|
  {
    if init == [] {
      assert init + [last] == [last];
      assert [last][1..] == [];
    } else {
      assert (init + [last])[1..] == init[1..] + [last];
      ConstLast(init[1..], last, rho[init[0].sym := Cut(init[0].sym.ty, NumberOf(init[0].value))]);
    }
  }

  lemma {:induction false} TableOk(consts: seq<Const>)
    requires ConstsOk(consts)
    ensures forall x | x in ConstantTable(consts) ::
              TypeOk(x.ty) && WidthOk(ConstantTable(consts)[x].width) && ConstReadable(ConstantTable(consts)[x], x.ty)
    decreases |consts|
  {
    if consts != [] {
      TableOk(consts[..|consts| - 1]);
    }
  }

  lemma {:induction false} ParamsHold(params: seq<Symbol>, args: seq<int>, rho: Numbers)
    requires ParamsOk(params) && |args| == |params| && NumbersOk(rho)
    ensures var s := ParamVars(params, args, rho);
            && NumbersOk(s)
            && (forall x | x in rho && x !in params :: x in s && s[x] == rho[x])
            && (forall i | 0 <= i < |params| :: params[i] in s && s[params[i]] == Cut(params[i].ty, args[i]))
    decreases |params|
  {
    hide Wrap, InRange;
    if params != [] {
      var rho1 := rho[params[0] := Cut(params[0].ty, args[0])];
      assert params[0] !in params[1..];
      ParamsHold(params[1..], args[1..], rho1);
      var s := ParamVars(params, args, rho);
      forall i | 0 <= i < |params| ensures params[i] in s && s[params[i]] == Cut(params[i].ty, args[i]) {
        if i > 0 {
          assert params[1..][i - 1] == params[i] && args[1..][i - 1] == args[i];
        }
      }
    }
  }

  // At entry parameters have the numbers passed and constants their values, all at
  // their declared types.
  lemma VarsAtStart(p: Program, args: seq<int>)
    requires ProgramOk(p) && |args| == |p.params|
    ensures var rho := EntryVars(p, args);
            && NumbersOk(rho)
            && (forall i | 0 <= i < |p.params| :: p.params[i] in rho && rho[p.params[i]] == Cut(p.params[i].ty, args[i]))
            && (forall x | x in ConstantTable(p.consts) && x !in p.params ::
                  x in rho && rho[x] == Cut(x.ty, NumberOf(ConstantTable(p.consts)[x])))
  {
    hide Cut, NumberOf, RegularBlock, BlockUnique;
    ConstsHold(p.consts, map[]);
    ParamsHold(p.params, args, ConstVars(p.consts, map[]));
  }

  lemma ConstNumber(value: Bits, t: Type)
    requires WidthOk(value.width) && TypeOk(t) && ConstReadable(value, t)
    ensures Wrap(t.width, t.signed, value.raw) == Cut(t, NumberOf(value))
  {
    hide Pow2, ConstReadable;
    ConstReadIff(value, t);
    CastExact(value, t.width, t.signed);
  }

  lemma ParamWord(p: Program, args: seq<int>, i: nat, rho: Numbers)
    requires ParamsOk(p.params) && |args| == |p.params| && i < |p.params|
    requires p.params[i] in rho && rho[p.params[i]] == Cut(p.params[i].ty, args[i])
    ensures WordOf(Words(p, args)[i], p.params[i], rho)
  {
    hide Pow2, Cut;
    CutWord(p.params[i].ty, args[i]);
  }

  lemma VarsAtEntry(p: Program, args: seq<int>, env: Env)
    requires ProgramOk(p) && |args| == |p.params|
    requires forall i | 0 <= i < |p.params| ::
               Arguments(p.params)[i] in env && env[Arguments(p.params)[i]] == Words(p, args)[i]
    ensures var rho := EntryVars(p, args);
            NumbersOk(rho) && Vars(StartOf(p).vals, ConstantTable(p.consts), env, rho)
    ensures StartOf(p).vals.Keys == set x | x in p.params
  {
    hide Cut, Holding, Wrap, EntryVars, Rebind, WordOf, NumberOf, Words;
    var passed, words := Arguments(p.params), Words(p, args);
    var consts, rho := ConstantTable(p.consts), EntryVars(p, args);
    VarsAtStart(p, args);
    TableOk(p.consts);
    RebindGets(map[], p.params, passed);
    var vals := StartOf(p).vals;
    forall x | x in vals ensures x in rho && Holding(env, vals[x], x.ty, rho[x]) {
      var i :| 0 <= i < |p.params| && p.params[i] == x;
      ParamWord(p, args, i, rho);
      HeldWord(env, passed[i], x, rho, words[i]);
    }
    forall x | x in consts && x !in vals ensures x in rho && Wrap(x.ty.width, x.ty.signed, consts[x].raw) == rho[x] {
      ConstNumber(consts[x], x.ty);
    }
    VarsFrom(vals, consts, env, rho);
  }

  // At entry every parameter's argument holds its number.
  lemma EntryAgrees(p: Program, args: seq<int>, every: bool) returns (env: Env)
    requires ProgramOk(p) && |args| == |p.params|
    ensures DefineAll(map[], Arguments(p.params), Words(p, args)) == Some(env) && EnvOk(env)
    ensures Synced(StartOf(p), ContextOf(p), env, env, every, EntryVars(p, args))
    ensures StartOf(p).vals.Keys == set x | x in p.params
  {
    hide Run, Vars, NumbersOk, EntryVars, ProgramOk, Word, At, Words;
    ArgsFit(p, args);
    DefineAllAt(map[], Arguments(p.params), Words(p, args), 0);
    env := DefineAll(map[], Arguments(p.params), Words(p, args)).value;
    VarsAtEntry(p, args, env);
    EmptyAt(StartOf(p).b, env, every);
  }

  lemma ArgsFit(p: Program, args: seq<int>)
    requires ProgramOk(p) && |args| == |p.params|
    ensures forall i | 0 <= i < |p.params| :: Word(Arguments(p.params)[i], Words(p, args)[i])
  {
    hide RegularBlock, BlockUnique;
  }

  // ----------------------------------------------------- the emitted function's meaning

  lemma OneReturnMeans(p: Program, f: Func, args: seq<int>, previous: int, every: bool)
    requires ProgramOk(p) && |args| == |p.params| && BlockReturns(p.body) <= 1
    requires EmitFunction(p) == Some(f)
    ensures Call(f, Words(p, args), every) == Some(Result(p, args, previous) % Pow2(p.returnType.width))
  {
    hide EmitBlock, Synced, NumbersOk, Run, DoesBlock, DefineAll, RegularBlock, BlockUnique, Words, Pow2;
    var env := EntryAgrees(p, args, every);
    var cx, g := ContextOf(p), StartOf(p);
    var m := Sense(EntryVars(p, args), previous);
    var out := BlockAt(p.body, cx, g, env, env, every, m);
    var result := DoesBlock(p.body, m).result;
    CutWord(p.returnType, result);
    ResultAgrees(p, f, EmitBlock(p.body, cx, g).value, env, out, every, args, result);
  }

  lemma ResultAgrees(p: Program, f: Func, g: Gen, env: Env, out: Env, every: bool, args: seq<int>, result: int)
    requires |args| == |p.params|
    requires f == Func(Arguments(p.params), I(p.returnType.width), g.b.block)
    requires EnvOk(env) && DefineAll(map[], f.args, Words(p, args)) == Some(env)
    requires ReturnedAt(g, ContextOf(p), env, out, every, result)
    ensures Call(f, Words(p, args), every) == Some(result % Pow2(p.returnType.width))
  {
    hide Pow2;
  }

  // The program the emitter translates: the body up to its first `return`.
  function Emitted(p: Program): Program {
    p.(body := UpToReturn(p.body))
  }

  lemma EmittedOk(p: Program, f: Func)
    requires ProgramOk(p) && EmitFunction(p) == Some(f)
    ensures ProgramOk(Emitted(p)) && EmitFunction(Emitted(p)) == Some(f) && BlockReturns(Emitted(p).body) <= 1
  {
    hide EmitBlock, RegularBlock, BlockUnique, Rebind;
    UpToRegular(p.body);
    UpToTyped(p.body);
    EmitUpTo(p.body, ContextOf(p), StartOf(p));
    BlockStopsReturns(p.body, ContextOf(p), StartOf(p));
  }

  lemma {:induction false} UpToRegular(b: seq<Stmt>)
    requires RegularBlock(b)
    ensures RegularBlock(UpToReturn(b))
    decreases b, 0
  {
    hide RegularStmt;
    if b != [] {
      var c := UpToReturn(b);
      if Stops(b[0]) {
        StmtUpToRegular(b[0]);
        assert c[1..] == [];
      } else {
        UpToRegular(b[1..]);
        assert c[1..] == UpToReturn(b[1..]);
      }
    }
  }

  lemma {:induction false} StmtUpToRegular(s: Stmt)
    requires RegularStmt(s)
    ensures RegularStmt(StmtUpTo(s))
    decreases s, 1
  {
    if s.Block? {
      UpToRegular(s.stmts);
    }
  }

  // The emitted function returns, for all numbers passed, the number the body up to
  // its first `return` means; with `every`, even along every arm.  No limit of the
  // interpreter is involved.
  lemma FunctionMeans(p: Program, f: Func, args: seq<int>, previous: int, every: bool)
    requires ProgramOk(p) && |args| == |p.params| && EmitFunction(p) == Some(f)
    ensures Call(f, Words(p, args), every) == Some(Result(Emitted(p), args, previous) % Pow2(p.returnType.width))
  {
    hide ProgramOk, EmitFunction, Result, Call, Words, Pow2;
    EmittedOk(p, f);
    SameWords(p, args);
    OneReturnMeans(Emitted(p), f, args, previous, every);
  }

  lemma SameWords(p: Program, args: seq<int>)
    requires |args| == |p.params|
    ensures Words(Emitted(p), args) == Words(p, args)
  {
  }

  // ------------------------------------------------------------- the interpreter's runs

  predicate InputsOk(p: Program, inputs: seq<Bits>) {
    |inputs| == |p.params| && forall i | 0 <= i < |inputs| :: WidthOk(inputs[i].width)
  }

  // The numbers passed.
  function Args(inputs: seq<Bits>): (r: seq<int>)
    ensures |r| == |inputs|
  {
    seq(|inputs|, i requires 0 <= i < |inputs| => NumberOf(inputs[i]))
  }

  // The words a call passes: the inputs at the parameters' types.
  function ArgWords(p: Program, inputs: seq<Bits>): (r: seq<nat>)
    requires |inputs| == |p.params|
    ensures |r| == |p.params|
  {
    seq(|inputs|, i requires 0 <= i < |inputs| => Interp.Coerce(inputs[i], p.params[i].ty).raw)
  }

  lemma WordsPassed(p: Program, inputs: seq<Bits>)
    requires ParamsOk(p.params) && InputsOk(p, inputs)
    ensures ArgWords(p, inputs) == Words(p, Args(inputs))
  {
    hide Pow2;
    forall i | 0 <= i < |inputs| ensures ArgWords(p, inputs)[i] == Words(p, Args(inputs))[i] {
      CastExact(inputs[i], p.params[i].ty.width, p.params[i].ty.signed);
    }
  }

  // Every expression evaluated in a run stays within the interpreter's limits.
  predicate RunInside(p: Program, inputs: seq<Bits>, previous: Bits) {
    |inputs| == |p.params| && BlockInside(p.body, State(InitialStore(p, inputs), previous))
  }

  lemma {:induction false} ConstsSame(consts: seq<Const>, store: Store)
    requires ConstsOk(consts) && StoreTyped(store)
    ensures var s := InitConsts(consts, store); StoreTyped(s) && NumbersOf(s) == ConstVars(consts, NumbersOf(store))
  {
    hide Cut, Interp.Coerce, ConstReadable;
    if consts != [] {
      var c := consts[0];
      CoerceCuts(c.value, c.sym.ty);
      var next := store[c.sym := Interp.Coerce(c.value, c.sym.ty)];
      assert NumbersOf(next) == NumbersOf(store)[c.sym := Cut(c.sym.ty, NumberOf(c.value))];
      ConstsSame(consts[1..], next);
    }
  }

  lemma {:induction false} ParamsSame(params: seq<Symbol>, inputs: seq<Bits>, store: Store)
    requires |inputs| == |params| && StoreTyped(store)
    requires forall i | 0 <= i < |params| :: TypeOk(params[i].ty) && WidthOk(inputs[i].width)
    ensures var s := InitParams(params, inputs, store);
            StoreTyped(s) && NumbersOf(s) == ParamVars(params, Args(inputs), NumbersOf(store))
    decreases |params|
  {
    hide Cut, Interp.Coerce;
    if params != [] {
      CoerceCuts(inputs[0], params[0].ty);
      var next := store[params[0] := Interp.Coerce(inputs[0], params[0].ty)];
      assert NumbersOf(next) == NumbersOf(store)[params[0] := Cut(params[0].ty, NumberOf(inputs[0]))];
      assert Args(inputs)[1..] == Args(inputs[1..]);
      ParamsSame(params[1..], inputs[1..], next);
    }
  }

  lemma EntrySame(p: Program, inputs: seq<Bits>, previous: Bits)
    requires ProgramOk(p) && InputsOk(p, inputs)
    ensures Same(State(InitialStore(p, inputs), previous), Sense(EntryVars(p, Args(inputs)), NumberOf(previous)))
  {
    hide RegularBlock, BlockUnique, InitConsts, InitParams, ConstVars, ParamVars, NumberOf, ConstsOk;
    ConstsSame(p.consts, map[]);
    EmptyNumbers();
    ParamsSame(p.params, inputs, InitConsts(p.consts, map[]));
  }

  lemma EmptyNumbers()
    ensures StoreTyped(map[]) && NumbersOf(map[]) == map[]
  {
  }

  // A run within the limits returns what the program means, if its body is scoped
  // and ends in a `return`.
  lemma RunMeans(p: Program, inputs: seq<Bits>, previous: Bits)
    requires ProgramOk(p) && InputsOk(p, inputs) && RunInside(p, inputs, previous)
    requires ScopedBlock(p.body, InitialStore(p, inputs).Keys) && BlockStops(p.body)
    ensures RunProgram(p, inputs, previous).Some?
    ensures var r := RunProgram(p, inputs, previous).value;
            && r.width == p.returnType.width && r.signed == p.returnType.signed
            && Num(r) == Result(p, Args(inputs), NumberOf(previous))
            && r.raw == Result(p, Args(inputs), NumberOf(previous)) % Pow2(p.returnType.width)
  {
    hide RegularBlock, BlockUnique, BlockInside, ScopedBlock, ExecBlock, DoesBlock, InitialStore, EntryVars, Same, Cut, Pow2, Num;
    var st, m := State(InitialStore(p, inputs), previous), Sense(EntryVars(p, Args(inputs)), NumberOf(previous));
    EntrySame(p, inputs, previous);
    BlockMeans(p.body, st, m, InitialStore(p, inputs).Keys);
    SameResult(ExecBlock(p.body, st), DoesBlock(p.body, m));
    CoerceCuts(ExecBlock(p.body, st).returnValue, p.returnType);
    RawIsNum(RunProgram(p, inputs, previous).value);
  }

  lemma SameResult(st: State, m: Sense)
    requires Same(st, m) && WidthOk(st.returnValue.width)
    ensures m.result == Num(st.returnValue)
  {
  }

  // The part that is emitted is scoped, and ends in a `return`.
  lemma EmittedRuns(p: Program, f: Func, inputs: seq<Bits>)
    requires ProgramOk(p) && EmitFunction(p) == Some(f) && InputsOk(p, inputs)
    ensures ScopedBlock(Emitted(p).body, InitialStore(Emitted(p), inputs).Keys) && BlockStops(Emitted(p).body)
  {
    hide EmitBlock, RegularBlock, BlockUnique, Rebind, ScopedBlock, InitConsts, InitParams, Interp.Coerce, NumberOf;
    var keys := InitialStore(p, inputs).Keys;
    StartKnown(p, inputs);
    BlockScoped(p.body, ContextOf(p), StartOf(p), keys);
    BlockStopsReturns(p.body, ContextOf(p), StartOf(p));
    StillStops(p.body);
  }

  lemma StartKnown(p: Program, inputs: seq<Bits>)
    requires ProgramOk(p) && InputsOk(p, inputs)
    ensures Known(StartOf(p), ContextOf(p)) <= InitialStore(p, inputs).Keys
  {
    hide RegularBlock, BlockUnique, Rebind, InitialStore, EntryVars, NumberOf, Same;
    RebindKeys(map[], p.params, Arguments(p.params));
    VarsAtStart(p, Args(inputs));
    var previous := Bits(0, 1, false);
    EntrySame(p, inputs, previous);
    SameKeys(State(InitialStore(p, inputs), previous), Sense(EntryVars(p, Args(inputs)), NumberOf(previous)));
  }

  lemma {:induction false} StillStops(b: seq<Stmt>)
    requires BlockStops(b)
    ensures BlockStops(UpToReturn(b))
    decreases b, 0
  {
    var c := UpToReturn(b);
    if Stops(b[0]) {
      StmtStillStops(b[0]);
      assert c[0] == StmtUpTo(b[0]);
    } else {
      StillStops(b[1..]);
      assert c[1..] == UpToReturn(b[1..]);
    }
  }

  lemma {:induction false} StmtStillStops(s: Stmt)
    requires Stops(s)
    ensures Stops(StmtUpTo(s))
    decreases s, 1
  {
    if s.Block? {
      StillStops(s.stmts);
    }
  }

  // --------------------------------------------------------------------- the theorem

  // For every program the emitter accepts and every input whose run stays within the
  // interpreter's limits, the emitted function returns the interpreter's bits for
  // the body up to its first `return`; with `every`, even along every arm.
  lemma CompilePreserves(p: Program, f: Func, inputs: seq<Bits>, previous: Bits, every: bool)
    requires ProgramOk(p) && InputsOk(p, inputs) && EmitFunction(p) == Some(f)
    requires RunInside(Emitted(p), inputs, previous)
    ensures RunProgram(Emitted(p), inputs, previous).Some?
    ensures Call(f, ArgWords(p, inputs), every) == Some(RunProgram(Emitted(p), inputs, previous).value.raw)
  {
    hide ProgramOk, EmitFunction, RunProgram, Call, Result, Words, ArgWords, RunInside, ScopedBlock, Pow2, NumberOf;
    EmittedOk(p, f);
    EmittedRuns(p, f, inputs);
    RunMeans(Emitted(p), inputs, previous);
    FunctionMeans(p, f, Args(inputs), NumberOf(previous), every);
    OkParams(p);
    WordsPassed(p, inputs);
  }

  lemma OkParams(p: Program)
    requires ProgramOk(p)
    ensures ParamsOk(p.params)
  {
    hide RegularBlock, BlockUnique;
  }

  // The types can promise it for every input.
  lemma {:induction false} TypedInside(s: Stmt, st: State)
    requires StmtTyped(s)
    ensures StmtInside(s, st)
    decreases s, 1, 0
  {
    hide Stays, Eval, Interp.Coerce;
    match s
    case If(_, t, e) =>
      BlockTypedInside(t, st);
      if e.ElseDo? {
        TypedInside(e.stmt, st);
      }
    case For(iv, init, _, _, isAdd, step, trip, _, body) =>
      LoopTypedInside(body, trip, iv, Interp.Coerce(Eval(init, st.scalars), iv.ty),
                      Interp.Coerce(Eval(step, st.scalars), iv.ty), isAdd, st);
    case Block(b) => BlockTypedInside(b, st);
    case _ =>
  }

  lemma {:induction false} BlockTypedInside(b: seq<Stmt>, st: State)
    requires BlockTyped(b)
    ensures BlockInside(b, st)
    decreases b, 0, 0
  {
    if b != [] {
      TypedInside(b[0], st);
      BlockTypedInside(b[1..], Exec(b[0], st));
    }
  }

  lemma {:induction false} LoopTypedInside(body: seq<Stmt>, n: nat, sym: Symbol, iv: Bits, step: Bits, isAdd: bool, st: State)
    requires BlockTyped(body)
    ensures LoopInside(body, n, sym, iv, step, isAdd, st)
    decreases body, 1, n
  {
    hide StepIv;
    if n > 0 {
      var st0 := st.(scalars := st.scalars[sym := iv]);
      BlockTypedInside(body, st0);
      LoopTypedInside(body, n - 1, sym, StepIv(iv, step, isAdd, sym.ty), step, isAdd, ExecBlock(body, st0));
    }
  }

  lemma ProgramInside(p: Program, inputs: seq<Bits>, previous: Bits)
    requires ProgramTyped(p) && |inputs| == |p.params|
    ensures RunInside(p, inputs, previous) && RunInside(Emitted(p), inputs, previous)
  {
    hide BlockTyped, BlockInside, InitialStore;
    UpToTyped(p.body);
    BlockTypedInside(p.body, State(InitialStore(p, inputs), previous));
    BlockTypedInside(UpToReturn(p.body), State(InitialStore(Emitted(p), inputs), previous));
  }

  // So it agrees with the whole body exactly when the interpreter's result does
  // not depend on what follows.
  lemma ReturnsIff(p: Program, f: Func, inputs: seq<Bits>, previous: Bits)
    requires ProgramOk(p) && InputsOk(p, inputs) && EmitFunction(p) == Some(f)
    requires RunInside(Emitted(p), inputs, previous)
    ensures RunProgram(p, inputs, previous).Some?
    ensures Call(f, ArgWords(p, inputs), false) == Some(RunProgram(p, inputs, previous).value.raw) <==>
            RunProgram(p, inputs, previous) == RunProgram(Emitted(p), inputs, previous)
  {
    hide ProgramOk, EmitFunction, Call, ArgWords, ExecBlock, Interp.Coerce, InitialStore, RunInside;
    CompilePreserves(p, f, inputs, previous, false);
    ResultTypes(p, Emitted(p), inputs, previous);
  }

  lemma ResultTypes(p: Program, q: Program, inputs: seq<Bits>, previous: Bits)
    requires |inputs| == |p.params| == |q.params| && p.returnType == q.returnType
    ensures var a, b := RunProgram(p, inputs, previous).value, RunProgram(q, inputs, previous).value;
            a.width == b.width && a.signed == b.signed
  {
    hide ExecBlock;
  }

  // Which it does not when at most one `return` can run.
  lemma OneReturnAgrees(p: Program, inputs: seq<Bits>, previous: Bits)
    requires |inputs| == |p.params| && BlockReturns(p.body) <= 1
    ensures RunProgram(p, inputs, previous) == RunProgram(Emitted(p), inputs, previous)
  {
    hide ExecBlock;
    SameReturn(p.body, State(InitialStore(p, inputs), previous));
  }

  lemma OneReturnMeaning(p: Program, args: seq<int>, previous: int)
    requires |args| == |p.params| && BlockReturns(p.body) <= 1
    ensures Result(p, args, previous) == Result(Emitted(p), args, previous)
  {
    hide DoesBlock;
    SameMeaning(p.body, Sense(EntryVars(p, args), previous));
  }

  // What the emitter is correct on.
  lemma ProgramIsRegular(p: Program)
    requires ProgramOk(p)
    ensures RegularProgram(p)
  {
    hide RegularBlock, BlockUnique;
  }

  // What both agree on, by types, the emitter is correct on.
  lemma {:induction false} TypedIsRegular(s: Stmt)
    requires StmtTyped(s)
    ensures RegularStmt(s)
    decreases s, 0
  {
    match s
    case If(_, t, e) =>
      BlockIsRegular(t);
      if e.ElseDo? {
        TypedIsRegular(e.stmt);
      }
    case For(_, _, _, _, _, _, _, _, body) => BlockIsRegular(body);
    case Block(b) => BlockIsRegular(b);
    case _ =>
  }

  lemma {:induction false} BlockIsRegular(b: seq<Stmt>)
    requires BlockTyped(b)
    ensures RegularBlock(b)
    decreases b, 0
  {
    if b != [] {
      TypedIsRegular(b[0]);
      BlockIsRegular(b[1..]);
    }
  }
}
