/**
 A two-valued netlist: the operations of the hw and comb dialects the lowering
 builds, with a semantics of their own.  There is no control flow; every node is
 always evaluated.  The operators work on bit patterns and know no integers below
 zero; a division by zero, or an ill-formed node, leaves the whole netlist without
 a settled value.
 */
module Hw {
  import opened Arith
  import opened Wrappers

  datatype Wire = Wire(id: nat, width: nat)

  datatype CombKind =
    | AddOp | SubOp | MulOp | DivSOp | DivUOp | ModSOp | ModUOp
    | AndOp | OrOp | XorOp | ShlOp | ShrSOp | ShrUOp

  datatype ICmpPredicate = IEq | INe | ISlt | ISle | ISgt | ISge | IUlt | IUle | IUgt | IUge

  datatype Node =
    | HwConst(res: Wire, raw: nat)
    | Comb(res: Wire, kind: CombKind, a: Wire, b: Wire)
    | ICmp(res: Wire, pred: ICmpPredicate, a: Wire, b: Wire)
    | Mux(res: Wire, c: Wire, t: Wire, f: Wire)
    | Extract(res: Wire, arg: Wire, low: nat)
    | Replicate(res: Wire, arg: Wire, times: nat)
    | Concat(res: Wire, hi: Wire, lo: Wire)

  datatype HwModule = HwModule(inputs: seq<Wire>, nodes: seq<Node>, output: Wire)

  type Levels = map<Wire, nat>

  // The sign bit of a w-bit pattern.
  predicate Top(w: nat, x: nat)
    requires w > 0
  {
    x >= Pow2(w - 1)
  }

  // The pattern of the negated number: complement and add one.
  function Negate(w: nat, x: nat): nat
    requires x <= Pow2(w)
  {
    if x == 0 then 0 else Pow2(w) - x
  }

  function Magnitude(w: nat, x: nat): nat
    requires w > 0 && x < Pow2(w)
  {
    if Top(w, x) then Negate(w, x) else x
  }

  // Signed division: the magnitudes are divided, and the signs fixed afterwards.
  function SignedDiv(w: nat, x: nat, y: nat): nat
    requires 0 < w && x < Pow2(w) && 0 < y < Pow2(w)
  {
    var q := Magnitude(w, x) / Magnitude(w, y);
    if Top(w, x) != Top(w, y) then -q % Pow2(w) else q
  }

  function SignedMod(w: nat, x: nat, y: nat): nat
    requires 0 < w && x < Pow2(w) && 0 < y < Pow2(w)
  {
    var r := Magnitude(w, x) % Magnitude(w, y);
    if Top(w, x) then -r % Pow2(w) else r
  }

  // A shift drops bits on one side and fills the other.
  function ShiftUp(w: nat, x: nat, y: nat): nat {
    if y >= w then 0 else x % Pow2(w - y) * Pow2(y)
  }

  function ShiftDown(w: nat, x: nat, y: nat, fill: bool): nat {
    var ones := if fill then Ones(w, if y >= w then w else y) else 0;
    if y >= w then ones
    else
      AbsDivRem(x, Pow2(y));
      x / Pow2(y) + ones
  }

  // The top n bits of w.
  function Ones(w: nat, n: nat): nat
    requires n <= w
  {
    Pow2Mono(w - n, w);
    Pow2(w) - Pow2(w - n)
  }

  // What an operator of the datapath does to bit patterns; only a division by zero
  // is unsettled.
  function CombSem(kind: CombKind, w: nat, x: nat, y: nat): Option<nat>
    requires 0 < w && x < Pow2(w) && y < Pow2(w)
  {
    var m := Pow2(w);
    match kind
    case AddOp => Some(if x + y < m then x + y else x + y - m)
    case SubOp => Some(if x >= y then x - y else x + Negate(w, y))
    case MulOp => Some(x * y % m)
    case DivUOp => if y == 0 then None else Some(x / y)
    case ModUOp => if y == 0 then None else Some(x % y)
    case DivSOp => if y == 0 then None else Some(SignedDiv(w, x, y))
    case ModSOp => if y == 0 then None else Some(SignedMod(w, x, y))
    case AndOp => Some(BitOp(AndF, x, y, w))
    case OrOp => Some(BitOp(OrF, x, y, w))
    case XorOp => Some(BitOp(XorF, x, y, w))
    case ShlOp => Some(ShiftUp(w, x, y))
    case ShrUOp => Some(ShiftDown(w, x, y, false))
    case ShrSOp => Some(ShiftDown(w, x, y, Top(w, x)))
  }

  // Signed comparison looks at the sign bits first.
  predicate SignedLess(w: nat, x: nat, y: nat)
    requires w > 0
  {
    if Top(w, x) != Top(w, y) then Top(w, x) else x < y
  }

  predicate ICmpSem(p: ICmpPredicate, w: nat, x: nat, y: nat)
    requires 0 < w
  {
    match p
    case IEq => x == y
    case INe => x != y
    case ISlt => SignedLess(w, x, y)
    case ISle => !SignedLess(w, y, x)
    case ISgt => SignedLess(w, y, x)
    case ISge => !SignedLess(w, x, y)
    case IUlt => x < y
    case IUle => x <= y
    case IUgt => x > y
    case IUge => x >= y
  }

  // x repeated, most significant copy first.
  function Copies(x: nat, w: nat, times: nat): nat {
    if times == 0 then 0 else Copies(x, w, times - 1) * Pow2(w) + x
  }

  predicate LevelsOk(env: Levels) {
    forall w | w in env :: w.width > 0 && env[w] < Pow2(w.width)
  }

  // Each wire is driven once.
  function Drive(env: Levels, res: Wire, x: nat): Option<Levels> {
    if res in env || res.width == 0 || x >= Pow2(res.width) then None else Some(env[res := x])
  }

  function Settle(node: Node, env: Levels): (r: Option<Levels>)
    requires LevelsOk(env)
    ensures r.Some? ==> LevelsOk(r.value)
  {
    match node
    case HwConst(res, raw) => Drive(env, res, raw)
    case Comb(res, kind, a, b) =>
      if a in env && b in env && a.width == b.width == res.width then
        var r :- CombSem(kind, a.width, env[a], env[b]);
        Drive(env, res, r)
      else None
    case ICmp(res, p, a, b) =>
      if a in env && b in env && a.width == b.width && res.width == 1 then
        Drive(env, res, if ICmpSem(p, a.width, env[a], env[b]) then 1 else 0)
      else None
    case Mux(res, c, t, f) =>
      if c in env && t in env && f in env && c.width == 1 && t.width == f.width == res.width then
        Drive(env, res, if env[c] != 0 then env[t] else env[f])
      else None
    case Extract(res, arg, low) =>
      if arg in env && low + res.width <= arg.width then
        Drive(env, res, env[arg] / Pow2(low) % Pow2(res.width))
      else None
    case Replicate(res, arg, times) =>
      if arg in env && res.width == times * arg.width then Drive(env, res, Copies(env[arg], arg.width, times))
      else None
    case Concat(res, hi, lo) =>
      if hi in env && lo in env && res.width == hi.width + lo.width then
        Drive(env, res, env[hi] * Pow2(lo.width) + env[lo])
      else None
  }

  function Evaluate(nodes: seq<Node>, env: Levels): (r: Option<Levels>)
    requires LevelsOk(env)
    ensures r.Some? ==> LevelsOk(r.value)
  {
    if nodes == [] then Some(env)
    else
      var env1 :- Evaluate(nodes[..|nodes| - 1], env);
      Settle(nodes[|nodes| - 1], env1)
  }

  function DriveAll(env: Levels, ws: seq<Wire>, xs: seq<nat>): Option<Levels>
    requires |ws| == |xs|
    decreases |ws|
  {
    if ws == [] then Some(env)
    else
      var env1 :- Drive(env, ws[0], xs[0]);
      DriveAll(env1, ws[1..], xs[1..])
  }

  lemma DriveAllOk(env: Levels, ws: seq<Wire>, xs: seq<nat>)
    requires LevelsOk(env) && |ws| == |xs|
    ensures var r := DriveAll(env, ws, xs); r.Some? ==> LevelsOk(r.value)
    decreases |ws|
  {
    if ws != [] && Drive(env, ws[0], xs[0]).Some? {
      DriveAllOk(Drive(env, ws[0], xs[0]).value, ws[1..], xs[1..]);
    }
  }

  // The level of the output port for given levels of the input ports.
  function Output(m: HwModule, inputs: seq<nat>): Option<nat> {
    if |inputs| != |m.inputs| then None
    else
      DriveAllOk(map[], m.inputs, inputs);
      var env :- DriveAll(map[], m.inputs, inputs);
      var env1 :- Evaluate(m.nodes, env);
      if m.output in env1 then Some(env1[m.output]) else None
  }
}
