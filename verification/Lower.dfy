/**
 The lowering from func/arith/scf to hw/comb (src/hwgen/hwgen.cpp) as functions
 from states to states.  The class in HwGen.dfy performs the same steps by
 mutation and is proved equal to these.
 */
module Lower {
  import opened Ir
  import opened Hw
  import opened Wrappers

  type Lowered = map<Value, Wire>

  // The module body so far, the number of the next wire, and the wire each
  // value became.
  datatype Netlist = Netlist(nodes: seq<Node>, next: nat)

  datatype Driven = Driven(n: Netlist, w: Wire)

  datatype State = State(n: Netlist, wires: Lowered, returned: Option<Wire>)

  function Push(n: Netlist, node: Node): Netlist {
    Netlist(n.nodes + [node], n.next + 1)
  }

  function NewWire(n: Netlist, width: nat): Wire {
    Wire(n.next, width)
  }

  // sext, src/hwgen/hwgen.cpp:96-105; an extension never narrows.
  function Sext(n: Netlist, v: Wire, to: nat): Driven {
    if v.width >= to then Driven(n, v)
    else
      var top := NewWire(n, 1);
      var n1 := Push(n, Extract(top, v, if v.width == 0 then 0 else v.width - 1));
      var fill := NewWire(n1, to - v.width);
      var n2 := Push(n1, Replicate(fill, top, to - v.width));
      var all := NewWire(n2, to);
      Driven(Push(n2, Concat(all, fill, v)), all)
  }

  // zext, src/hwgen/hwgen.cpp:106-111
  function Zext(n: Netlist, v: Wire, to: nat): Driven {
    if v.width >= to then Driven(n, v)
    else
      var zeros := NewWire(n, to - v.width);
      var n1 := Push(n, HwConst(zeros, 0));
      var all := NewWire(n1, to);
      Driven(Push(n1, Concat(all, zeros, v)), all)
  }

  // trunc, src/hwgen/hwgen.cpp:112-116
  function Trunc(n: Netlist, v: Wire, to: nat): Driven {
    if v.width == to then Driven(n, v)
    else
      var low := NewWire(n, to);
      Driven(Push(n, Extract(low, v, 0)), low)
  }

  // combPred, src/hwgen/hwgen.cpp:118-134
  function CombPred(p: CmpIPredicate): ICmpPredicate {
    match p
    case CEq => IEq
    case CNe => INe
    case Slt => ISlt
    case Sle => ISle
    case Sgt => ISgt
    case Sge => ISge
    case Ult => IUlt
    case Ule => IUle
    case Ugt => IUgt
    case Uge => IUge
  }

  // The datapath rows, src/hwgen/hwgen.cpp:232-267
  function CombFor(op: ArithOp): CombKind {
    match op
    case AddI => AddOp
    case SubI => SubOp
    case MulI => MulOp
    case DivSI => DivSOp
    case DivUI => DivUOp
    case RemSI => ModSOp
    case RemUI => ModUOp
    case AndI => AndOp
    case OrI => OrOp
    case XOrI => XorOp
    case ShLI => ShlOp
    case ShRSI => ShrSOp
    case ShRUI => ShrUOp
  }

  function Mapped(wires: Lowered, v: Value): Option<Wire> {
    if v in wires then Some(wires[v]) else None
  }

  function MappedAll(wires: Lowered, vs: seq<Value>): (r: Option<seq<Wire>>)
    ensures r.Some? <==> forall i | 0 <= i < |vs| :: vs[i] in wires
    ensures r.Some? ==> |r.value| == |vs| && forall i | 0 <= i < |vs| :: r.value[i] == wires[vs[i]]
  {
    if forall i | 0 <= i < |vs| :: vs[i] in wires then
      Some(seq(|vs|, i requires 0 <= i < |vs| => wires[vs[i]]))
    else None
  }

  // Append a node driving a new wire, and record what it replaces.
  function Replace(s: State, v: Value, node: Node): State {
    State(Push(s.n, node), s.wires[v := node.res], s.returned)
  }

  function Record(s: State, v: Value, d: Driven): State {
    State(d.n, s.wires[v := d.w], s.returned)
  }

  // lowerOp, src/hwgen/hwgen.cpp:202-325
  function LowerOp(op: Op, s: State): Option<State>
    decreases op, 1
  {
    match op
    case ConstOp(res, raw) => Some(Replace(s, res, HwConst(NewWire(s.n, BitsOf(res.ty)), raw)))
    case BinOp(res, kind, x, y) =>
      var a :- Mapped(s.wires, x);
      var b :- Mapped(s.wires, y);
      Some(Replace(s, res, Comb(NewWire(s.n, a.width), CombFor(kind), a, b)))
    case CmpOp(res, pred, x, y) =>
      var a :- Mapped(s.wires, x);
      var b :- Mapped(s.wires, y);
      Some(Replace(s, res, ICmp(NewWire(s.n, 1), CombPred(pred), a, b)))
    case SelectOp(res, x, y, z) =>
      var c :- Mapped(s.wires, x);
      var t :- Mapped(s.wires, y);
      var f :- Mapped(s.wires, z);
      Some(Replace(s, res, Mux(NewWire(s.n, t.width), c, t, f)))
    case ExtOp(res, signed, x) =>
      var a :- Mapped(s.wires, x);
      Some(Record(s, res, if signed then Sext(s.n, a, BitsOf(res.ty)) else Zext(s.n, a, BitsOf(res.ty))))
    case TruncOp(res, x) =>
      var a :- Mapped(s.wires, x);
      Some(Record(s, res, Trunc(s.n, a, BitsOf(res.ty))))
    case IfOp(results, c, thenOps, thenYield, elseOps, elseYield) =>
      LowerIf(results, c, thenOps, thenYield, elseOps, elseYield, s)
    case ReturnOp(v) =>
      var w :- Mapped(s.wires, v);
      Some(State(s.n, s.wires, Some(w)))
    case _ => None
  }

  // Operations in order; the last one is split off first, as Ir.Run does.
  function LowerOps(ops: seq<Op>, s: State): Option<State>
    decreases ops, 0
  {
    if ops == [] then Some(s)
    else
      var s1 :- LowerOps(ops[..|ops| - 1], s);
      LowerOp(ops[|ops| - 1], s1)
  }

  // lowerIf, src/hwgen/hwgen.cpp:157-200: both regions hoisted into the module
  // body, and one mux per result.
  function LowerIf(results: seq<Value>, c: Value, thenOps: seq<Op>, thenYield: seq<Value>,
                   elseOps: seq<Op>, elseYield: seq<Value>, s: State): Option<State>
    decreases IfOp(results, c, thenOps, thenYield, elseOps, elseYield), 0
  {
    var cond :- Mapped(s.wires, c);
    var s1 :- LowerOps(thenOps, s);
    var ts :- MappedAll(s1.wires, thenYield);
    var s2 :- LowerOps(elseOps, s1);
    var es :- MappedAll(s2.wires, elseYield);
    if |ts| == |es| == |results| then Some(Muxes(results, cond, ts, es, s2)) else None
  }

  function Muxes(results: seq<Value>, c: Wire, ts: seq<Wire>, es: seq<Wire>, s: State): State
    requires |results| == |ts| == |es|
    decreases |results|
  {
    if results == [] then s
    else
      Muxes(results[1..], c, ts[1..], es[1..],
            Replace(s, results[0], Mux(NewWire(s.n, ts[0].width), c, ts[0], es[0])))
  }

  // run, src/hwgen/hwgen.cpp:359-394: arguments become ports, the body becomes
  // the module body, the returned value its output.
  function Ports(args: seq<Value>): (r: seq<Wire>)
    ensures |r| == |args|
  {
    seq(|args|, i requires 0 <= i < |args| => Wire(i, BitsOf(args[i].ty)))
  }

  function BindPorts(args: seq<Value>): Lowered
    decreases |args|
  {
    if args == [] then map[]
    else
      var i := |args| - 1;
      BindPorts(args[..i])[args[i] := Wire(i, BitsOf(args[i].ty))]
  }

  function LowerFunction(f: Func): Option<HwModule> {
    var s :- LowerOps(f.body, State(Netlist([], |f.args|), BindPorts(f.args), None));
    var out :- s.returned;
    Some(HwModule(Ports(f.args), s.n.nodes, out))
  }
}
