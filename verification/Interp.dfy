/**
 The AST interpreter (src/interp/interpreter.cpp), the language's reference
 semantics: as functions from states to states, and as the class whose methods
 update the variable table.
 */
module Interp {
  import opened Arith
  import opened FixedWidth
  import opened Ast
  import opened Wrappers

  type Store = map<Symbol, Bits>

  datatype State = State(scalars: Store, returnValue: Bits)

  function Coerce(v: Bits, t: Type): Bits {
    CastTo(v, t.width, t.signed)
  }

  // unordered_map::operator[]: a symbol never written reads as Bits{}.
  function Read(store: Store, sym: Symbol): Bits {
    if sym in store then store[sym] else Bits(0, 1, false)
  }

  function EvalUnary(op: UnOp, a: Bits): Bits {
    match op
    case UMinus => Neg(a)
    case UPlus => a
    case UTilde => BitNot(a)
    case UBang => Flag(a.raw == 0)
  }

  function EvalBinary(op: BinOp, l: Bits, r: Bits): Bits {
    match op
    case Plus => Add(l, r)
    case Minus => Sub(l, r)
    case Star => Mul(l, r)
    case Slash => Divide(l, r)
    case Percent => Remainder(l, r)
    case Amp => Bitwise(AndF, l, r)
    case Pipe => Bitwise(OrF, l, r)
    case Caret => Bitwise(XorF, l, r)
    case Shl => FixedWidth.Shl(l, r)
    case Shr => FixedWidth.Shr(l, r)
    case Rel(c) => Compare(l, r, c)
    case AmpAmp => Flag(l.raw != 0 && r.raw != 0)
    case PipePipe => Flag(l.raw != 0 || r.raw != 0)
  }

  // Nothing short-circuits: every operand is evaluated.
  function Eval(e: Expr, store: Store): Bits {
    match e
    case IntLit(v, t) => Make(v, t.width, t.signed)
    case NameRef(sym, _) => Read(store, sym)
    case Cast(t, x, _) => CastTo(Eval(x, store), t.width, t.signed)
    case Unary(op, x, _) => EvalUnary(op, Eval(x, store))
    case Binary(op, l, r, _) => EvalBinary(op, Eval(l, store), Eval(r, store))
    case Ternary(c, t, f, ty) =>
      var then_, else_ := Eval(t, store), Eval(f, store);
      Coerce(if Eval(c, store).raw != 0 then then_ else else_, ty)
  }

  // The next induction value: no width growth, wrapped at the declared type.
  function StepIv(iv: Bits, step: Bits, isAdd: bool, t: Type): Bits {
    Make(if isAdd then iv.raw + step.raw else iv.raw - step.raw, t.width, t.signed)
  }

  function Exec(s: Stmt, st: State): State
    decreases s, 0, 0
  {
    match s
    case VarDecl(sym, init) => st.(scalars := st.scalars[sym := Coerce(Eval(init, st.scalars), sym.ty)])
    case Assign(sym, value) => st.(scalars := st.scalars[sym := Coerce(Eval(value, st.scalars), sym.ty)])
    case If(c, t, e) =>
      if Eval(c, st.scalars).raw != 0 then ExecBlock(t, st) else ExecElse(e, st)
    case For(iv, init, _, _, isAdd, step, trip, _, body) =>
      ExecLoop(body, trip, iv, Coerce(Eval(init, st.scalars), iv.ty),
               Coerce(Eval(step, st.scalars), iv.ty), isAdd, st)
    case Return(value) => st.(returnValue := Eval(value, st.scalars))
    case Block(b) => ExecBlock(b, st)
  }

  function ExecElse(e: Else, st: State): State
    decreases e, 1, 0
  {
    match e
    case NoElse => st
    case ElseDo(s) => Exec(s, st)
  }

  function ExecBlock(b: seq<Stmt>, st: State): State
    decreases b, 0, 0
  {
    if b == [] then st else ExecBlock(b[1..], Exec(b[0], st))
  }

  // The counted loop: n iterations left, iv the induction value of the next one.
  function ExecLoop(body: seq<Stmt>, n: nat, ivSym: Symbol, iv: Bits, step: Bits, isAdd: bool, st: State): State
    decreases body, 1, n
  {
    if n == 0 then st
    else
      var st1 := ExecBlock(body, st.(scalars := st.scalars[ivSym := iv]));
      ExecLoop(body, n - 1, ivSym, StepIv(iv, step, isAdd, ivSym.ty), step, isAdd, st1)
  }

  function InitConsts(consts: seq<Const>, store: Store): Store {
    if consts == [] then store
    else InitConsts(consts[1..], store[consts[0].sym := Coerce(consts[0].value, consts[0].sym.ty)])
  }

  function InitParams(params: seq<Symbol>, inputs: seq<Bits>, store: Store): Store
    requires |params| == |inputs|
  {
    if params == [] then store
    else InitParams(params[1..], inputs[1..], store[params[0] := Coerce(inputs[0], params[0].ty)])
  }

  function InitialStore(p: Program, inputs: seq<Bits>): Store
    requires |p.params| == |inputs|
  {
    InitParams(p.params, inputs, InitConsts(p.consts, map[]))
  }

  // The value `run` returns; none when the argument count is wrong.
  // `previous` is the return value the object holds before the run.
  function RunProgram(p: Program, inputs: seq<Bits>, previous: Bits): Option<Bits> {
    if |inputs| != |p.params| then None
    else Some(Coerce(ExecBlock(p.body, State(InitialStore(p, inputs), previous)).returnValue, p.returnType))
  }

  class Interpreter {
    var scalars: Store
    var returnValue: Bits

    constructor ()
      ensures scalars == map[] && returnValue == Bits(0, 1, false)
    {
      scalars := map[];
      returnValue := Bits(0, 1, false);
    }

    function Current(): State
      reads this
    {
      State(scalars, returnValue)
    }

    method ExecuteBlock(b: seq<Stmt>)
      modifies this
      ensures Current() == ExecBlock(b, old(Current()))
      decreases b, 0
    {
      var i := 0;
      assert b[i..] == b;
      while i < |b|
        invariant 0 <= i <= |b|
        invariant ExecBlock(b[i..], Current()) == ExecBlock(b, old(Current()))
      {
        assert b[i..][0] == b[i] && b[i..][1..] == b[i + 1..];
        Execute(b[i]);
        i := i + 1;
      }
      assert b[i..] == [];
    }

    method Execute(s: Stmt)
      modifies this
      ensures Current() == Exec(s, old(Current()))
      decreases s, 0
    {
      hide Eval, Coerce, StepIv;
      match s
      case VarDecl(sym, init) =>
        scalars := scalars[sym := Coerce(Eval(init, scalars), sym.ty)];
      case Assign(sym, value) =>
        scalars := scalars[sym := Coerce(Eval(value, scalars), sym.ty)];
      case If(c, t, e) =>
        if Eval(c, scalars).raw != 0 {
          ExecuteBlock(t);
        } else if e.ElseDo? {
          Execute(e.stmt);
        }
      case For(ivSym, init, _, _, isAdd, stepE, trip, _, body) =>
        var iv := Coerce(Eval(init, scalars), ivSym.ty);
        var step := Coerce(Eval(stepE, scalars), ivSym.ty);
        var k := 0;
        while k < trip
          invariant 0 <= k <= trip
          invariant ExecLoop(body, trip - k, ivSym, iv, step, isAdd, Current()) == Exec(s, old(Current()))
        {
          scalars := scalars[ivSym := iv];
          ExecuteBlock(body);
          iv := StepIv(iv, step, isAdd, ivSym.ty);
          k := k + 1;
        }
      case Return(value) =>
        returnValue := Eval(value, scalars);
      case Block(b) =>
        ExecuteBlock(b);
    }

    method Run(p: Program, inputs: seq<Bits>) returns (result: Option<Bits>)
      modifies this
      ensures result == RunProgram(p, inputs, old(returnValue))
      ensures Current() ==
              if |inputs| == |p.params| then ExecBlock(p.body, State(InitialStore(p, inputs), old(returnValue)))
              else State(InitConsts(p.consts, map[]), old(returnValue))
    {
      scalars := map[];
      var i := 0;
      while i < |p.consts|
        invariant 0 <= i <= |p.consts| && returnValue == old(returnValue)
        invariant InitConsts(p.consts[i..], scalars) == InitConsts(p.consts, map[])
      {
        assert p.consts[i..][0] == p.consts[i] && p.consts[i..][1..] == p.consts[i + 1..];
        scalars := scalars[p.consts[i].sym := Coerce(p.consts[i].value, p.consts[i].sym.ty)];
        i := i + 1;
      }
      if |inputs| != |p.params| {
        return None;
      }
      i := 0;
      while i < |p.params|
        invariant 0 <= i <= |p.params| && returnValue == old(returnValue)
        invariant InitParams(p.params[i..], inputs[i..], scalars) == InitialStore(p, inputs)
      {
        assert p.params[i..][0] == p.params[i] && p.params[i..][1..] == p.params[i + 1..];
        assert inputs[i..][0] == inputs[i] && inputs[i..][1..] == inputs[i + 1..];
        scalars := scalars[p.params[i] := Coerce(inputs[i], p.params[i].ty)];
        i := i + 1;
      }
      ExecuteBlock(p.body);
      return Some(Coerce(returnValue, p.returnType));
    }
  }
}
