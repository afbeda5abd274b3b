/**
 The lowering as the source has it (src/hwgen/hwgen.cpp): one object that fills
 its map from IR values to wires while appending nodes to the module body.
 */
module HwGen {
  import opened Ir
  import opened Hw
  import opened Wrappers
  import Lower

  class HWGen {
    var wires: Lower.Lowered
    var nodes: seq<Node>
    var next: nat
    var returned: Option<Wire>
    var failed: bool

    constructor ()
      ensures wires == map[] && nodes == [] && next == 0 && returned == None && !failed
    {
      wires, nodes, next, returned, failed := map[], [], 0, None, false;
    }

    function Netlist(): Lower.Netlist
      reads this
    {
      Lower.Netlist(nodes, next)
    }

    function State(): Lower.State
      reads this
    {
      Lower.State(Netlist(), wires, returned)
    }

    predicate Reached(spec: Option<Lower.State>)
      reads this
    {
      match spec
      case None => failed
      case Some(s) => State() == s && !failed
    }

    method Mapped(v: Value) returns (w: Option<Wire>)
      requires !failed
      modifies `failed
      ensures w == Lower.Mapped(wires, v)
      ensures failed == w.None?
    {
      if v in wires {
        return Some(wires[v]);
      }
      failed := true;
      return None;
    }

    method Push(node: Node)
      modifies `nodes, `next
      ensures Netlist() == Lower.Push(old(Netlist()), node)
    {
      nodes, next := nodes + [node], next + 1;
    }

    method Sext(v: Wire, to: nat) returns (w: Wire)
      modifies `nodes, `next
      ensures Lower.Driven(Netlist(), w) == Lower.Sext(old(Netlist()), v, to)
    {
      if v.width >= to { return v; }
      var top := Wire(next, 1);
      Push(Extract(top, v, if v.width == 0 then 0 else v.width - 1));
      var fill := Wire(next, to - v.width);
      Push(Replicate(fill, top, to - v.width));
      w := Wire(next, to);
      Push(Concat(w, fill, v));
    }

    method Zext(v: Wire, to: nat) returns (w: Wire)
      modifies `nodes, `next
      ensures Lower.Driven(Netlist(), w) == Lower.Zext(old(Netlist()), v, to)
    {
      if v.width >= to { return v; }
      var zeros := Wire(next, to - v.width);
      Push(HwConst(zeros, 0));
      w := Wire(next, to);
      Push(Concat(w, zeros, v));
    }

    method Trunc(v: Wire, to: nat) returns (w: Wire)
      modifies `nodes, `next
      ensures Lower.Driven(Netlist(), w) == Lower.Trunc(old(Netlist()), v, to)
    {
      if v.width == to { return v; }
      w := Wire(next, to);
      Push(Extract(w, v, 0));
    }

    // The node replaces the operation that defined v.
    method Replace(v: Value, node: Node)
      modifies `nodes, `next, `wires
      ensures State() == Lower.Replace(old(State()), v, node)
    {
      Push(node);
      wires := wires[v := node.res];
    }

    method LowerOp(op: Op)
      requires !failed
      modifies this
      ensures Reached(Lower.LowerOp(op, old(State())))
      decreases op, 2
    {
      match op
      case ConstOp(res, raw) =>
        Replace(res, HwConst(Wire(next, BitsOf(res.ty)), raw));
      case BinOp(res, kind, x, y) =>
        var a := Mapped(x);
        if a.None? { return; }
        var b := Mapped(y);
        if b.None? { return; }
        Replace(res, Comb(Wire(next, a.value.width), Lower.CombFor(kind), a.value, b.value));
      case CmpOp(res, pred, x, y) =>
        var a := Mapped(x);
        if a.None? { return; }
        var b := Mapped(y);
        if b.None? { return; }
        Replace(res, ICmp(Wire(next, 1), Lower.CombPred(pred), a.value, b.value));
      case SelectOp(res, x, y, z) =>
        LowerSelect(op);
      case ExtOp(res, signed, x) =>
        var a := Mapped(x);
        if a.None? { return; }
        var w: Wire;
        if signed {
          w := Sext(a.value, BitsOf(res.ty));
        } else {
          w := Zext(a.value, BitsOf(res.ty));
        }
        wires := wires[res := w];
      case TruncOp(res, x) =>
        var a := Mapped(x);
        if a.None? { return; }
        var w := Trunc(a.value, BitsOf(res.ty));
        wires := wires[res := w];
      case IfOp(_, _, _, _, _, _) =>
        LowerIf(op);
      case ReturnOp(v) =>
        var w := Mapped(v);
        if w.None? { return; }
        returned := w;
      case ForOp(_, _, _, _, _, _, _, _, _) =>
        failed := true;
      case IndexCastOp(_, _) =>
        failed := true;
    }

    method LowerSelect(op: Op)
      requires op.SelectOp? && !failed
      modifies this
      ensures Reached(Lower.LowerOp(op, old(State())))
    {
      var c := Mapped(op.c);
      if c.None? { return; }
      var t := Mapped(op.t);
      if t.None? { return; }
      var f := Mapped(op.f);
      if f.None? { return; }
      Replace(op.res, Mux(Wire(next, t.value.width), c.value, t.value, f.value));
    }

    method LowerBlock(ops: seq<Op>)
      requires !failed
      modifies this
      ensures Reached(Lower.LowerOps(ops, old(State())))
      decreases ops, 1
    {
      ghost var start := State();
      var i := 0;
      while i < |ops|
        invariant 0 <= i <= |ops| && !failed
        invariant Lower.LowerOps(ops[..i], start) == Some(State())
      {
        assert ops[..i + 1][..i] == ops[..i];
        LowerOp(ops[i]);
        if failed {
          FailsEarly(ops, i + 1, start);
          return;
        }
        i := i + 1;
      }
      assert ops[..i] == ops;
    }

    // The lowered wires of a region's yielded values.
    method MappedAll(vs: seq<Value>) returns (ws: Option<seq<Wire>>)
      requires !failed
      modifies `failed
      ensures ws == Lower.MappedAll(wires, vs)
      ensures failed == ws.None?
    {
      var found: seq<Wire> := [];
      var i := 0;
      while i < |vs|
        invariant 0 <= i <= |vs| && !failed
        invariant |found| == i && forall j | 0 <= j < i :: vs[j] in wires && found[j] == wires[vs[j]]
      {
        if vs[i] !in wires {
          failed := true;
          return None;
        }
        found := found + [wires[vs[i]]];
        i := i + 1;
      }
      assert found == Lower.MappedAll(wires, vs).value;
      return Some(found);
    }

    method LowerIf(op: Op)
      requires op.IfOp? && !failed
      modifies this
      ensures Reached(Lower.LowerIf(op.results, op.c, op.thenOps, op.thenYield, op.elseOps, op.elseYield, old(State())))
      decreases op, 1
    {
      var cond := Mapped(op.c);
      if cond.None? { return; }
      LowerBlock(op.thenOps);
      if failed { return; }
      var ts := MappedAll(op.thenYield);
      if ts.None? { return; }
      LowerBlock(op.elseOps);
      if failed { return; }
      var es := MappedAll(op.elseYield);
      if es.None? { return; }
      if !(|ts.value| == |es.value| == |op.results|) {
        failed := true;
        return;
      }
      Muxes(op.results, cond.value, ts.value, es.value);
    }

    method Muxes(results: seq<Value>, c: Wire, ts: seq<Wire>, es: seq<Wire>)
      requires |results| == |ts| == |es|
      modifies `nodes, `next, `wires
      ensures State() == Lower.Muxes(results, c, ts, es, old(State()))
    {
      ghost var start := State();
      var i := 0;
      assert results[0..] == results && ts[0..] == ts && es[0..] == es;
      while i < |ts|
        invariant 0 <= i <= |ts| && returned == old(returned)
        invariant Lower.Muxes(results[i..], c, ts[i..], es[i..], State()) == Lower.Muxes(results, c, ts, es, start)
      {
        assert results[i..][1..] == results[i + 1..] && ts[i..][1..] == ts[i + 1..] && es[i..][1..] == es[i + 1..];
        Replace(results[i], Mux(Wire(next, ts[i].width), c, ts[i], es[i]));
        i := i + 1;
      }
    }

    method Run(f: Func) returns (m: Option<HwModule>)
      requires wires == map[] && nodes == [] && next == 0 && returned == None && !failed
      modifies this
      ensures m == Lower.LowerFunction(f)
    {
      next := |f.args|;
      var i := 0;
      while i < |f.args|
        invariant 0 <= i <= |f.args| && wires == Lower.BindPorts(f.args[..i])
        invariant nodes == [] && next == |f.args| && returned == None && !failed
      {
        assert f.args[..i + 1][..i] == f.args[..i];
        wires := wires[f.args[i] := Wire(i, BitsOf(f.args[i].ty))];
        i := i + 1;
      }
      assert f.args[..i] == f.args;
      LowerBlock(f.body);
      if failed || returned.None? { return None; }
      return Some(HwModule(Lower.Ports(f.args), nodes, returned.value));
    }
  }

  // A refused prefix refuses the whole.
  lemma {:induction false} FailsEarly(ops: seq<Op>, i: nat, s: Lower.State)
    requires i <= |ops| && Lower.LowerOps(ops[..i], s) == None
    ensures Lower.LowerOps(ops, s) == None
    decreases |ops|
  {
    if i == |ops| {
      assert ops[..i] == ops;
    } else {
      assert ops[..|ops| - 1][..i] == ops[..i];
      FailsEarly(ops[..|ops| - 1], i, s);
    }
  }
}
