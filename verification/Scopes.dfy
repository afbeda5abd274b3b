/**
 What a program says, by its names (LANGUAGE.md:244-376, 505-606): statements over nested scopes
 of named numbers, in unbounded integers.  A name means its innermost declaration; a
 block, an arm and every pass through a loop have a scope of their own; a loop tests its
 condition before each pass; `return` ends the function.  No pass of the compiler is
 mentioned here.
 */
module Scopes {
  import opened Arith
  import opened FixedWidth
  import Ast
  import opened Syntax
  import opened Meaning
  import opened Means
  import opened Accepts
  import opened Denotes
  import Written
  import opened Wrappers

  // A declared name: its type and the number it holds.
  datatype Cell = Cell(ty: Type, n: int)

  // Innermost first.
  datatype Frames = Outside | Frame(own: map<string, Cell>, outer: Frames)

  function Find(name: string, fs: Frames): Option<Cell> {
    match fs
    case Outside => None
    case Frame(own, outer) => if name in own then Some(own[name]) else Find(name, outer)
  }

  // A number stored in the innermost declaration of a name, at its type.
  function Store(name: string, n: int, fs: Frames): Frames {
    match fs
    case Outside => Outside
    case Frame(own, outer) =>
      if name in own then Frame(own[name := Cell(own[name].ty, Cut(own[name].ty, n))], outer)
      else Frame(own, Store(name, n, outer))
  }

  // A name declared in the innermost scope.
  function Bind(name: string, t: Type, n: int, fs: Frames): Frames {
    match fs
    case Outside => Outside
    case Frame(own, outer) => Frame(own[name := Cell(t, Cut(t, n))], outer)
  }

  function Outer(fs: Frames): Frames {
    if fs.Frame? then fs.outer else Outside
  }

  // ---------------------------------------------------------------------- expressions

  // The type of an expression, or the integer an untyped one stands for.
  function SortIn(e: Expr, fs: Frames): Sort {
    match e
    case IntLit(v) => Poly(v)
    case NameRef(name) => if Find(name, fs).Some? then Of(Find(name, fs).value.ty) else Bad
    case Index(_, _) => Bad
    case Cast(target, x) => if SortIn(x, fs) == Bad then Bad else Of(target)
    case Unary(op, x) => UnarySort(op, SortIn(x, fs))
    case Binary(op, l, r) => BinarySort(op, SortIn(l, fs), SortIn(r, fs))
    case Ternary(c, x, y) => if Usable(SortIn(c, fs), Ast.U1) then ArmSort(SortIn(x, fs), SortIn(y, fs)) else Bad
  }

  // Its number where type t is wanted.
  function NumberIn(e: Expr, t: Type, fs: Frames): int {
    match e
    case IntLit(v) => Cut(t, v)
    case NameRef(name) => if Find(name, fs).Some? then Find(name, fs).value.n else 0
    case Index(_, _) => 0
    case Cast(target, x) => Cut(target, NumberIn(x, Ast.Type(128, false), fs))
    case Unary(op, x) => IdealUnary(op, Taken(SortIn(x, fs), Bad, t), NumberIn(x, t, fs))
    case Binary(op, l, r) =>
      var lt, rt := Taken(SortIn(l, fs), SortIn(r, fs), t), Taken(SortIn(r, fs), SortIn(l, fs), t);
      Applied(op, lt, rt, NumberIn(l, lt, fs), NumberIn(r, rt, fs))
    case Ternary(c, x, y) =>
      if NumberIn(c, Ast.U1, fs) != 0 then NumberIn(x, Taken(SortIn(x, fs), SortIn(y, fs), t), fs)
      else NumberIn(y, Taken(SortIn(y, fs), SortIn(x, fs), t), fs)
  }

  // ----------------------------------------------------------------------- statements

  // Execution goes on, the function has returned, or there is no meaning: a loop has no
  // end, a name is unknown, or arrays and streams are used.
  datatype Step = Next(frames: Frames) | Done(n: int) | Nothing

  // A scope is left.
  function Leave(o: Step): Step {
    if o.Next? then Next(Outer(o.frames)) else o
  }

  function Says(s: Stmt, rt: Type, fs: Frames): Step
    decreases s, 0, 0
  {
    match s
    case VarDecl(t, name, Value(e)) => Next(Bind(name, t, NumberIn(e, t, fs), fs))
    case Assign(name, None, Value(e)) =>
      if Find(name, fs).Some? then Next(Store(name, NumberIn(e, Find(name, fs).value.ty, fs), fs)) else Nothing
    case If(c, t, e) =>
      if NumberIn(c, Ast.U1, fs) != 0 then Leave(SaysBlock(t, rt, Frame(map[], fs))) else SaysElse(e, rt, fs)
    case For(_, t, iv, start, rel, limit, isAdd, step, body) =>
      var first := NumberIn(start, t, fs);
      var header := Frame(map[iv := Cell(t, Cut(t, first))], fs);
      var end, stride := NumberIn(limit, t, header), NumberIn(step, t, header);
      var delta := if isAdd then stride else -stride;
      if !Holds(rel, first, end) then Next(fs)
      else if Written.Approaches(rel, delta) then SaysLoop(body, iv, t, first, end, delta, rel, rt, fs)
      else Nothing
    case Return(e) => Done(NumberIn(e, rt, fs))
    case Block(b) => Leave(SaysBlock(b, rt, Frame(map[], fs)))
    case _ => Nothing
  }

  function SaysElse(e: Else, rt: Type, fs: Frames): Step
    decreases e, 1, 0
  {
    match e
    case NoElse => Next(fs)
    case ElseDo(s) => Says(s, rt, fs)
  }

  function SaysBlock(b: seq<Stmt>, rt: Type, fs: Frames): Step
    decreases b, 0, 0
  {
    if b == [] then Next(fs)
    else
      var o := Says(b[0], rt, fs);
      if o.Next? then SaysBlock(b[1..], rt, o.frames) else o
  }

  // The loop variable is at cur; each pass declares it anew.
  function SaysLoop(body: seq<Stmt>, iv: string, t: Type, cur: int, end: int, delta: int, rel: Cmp,
                    rt: Type, fs: Frames): Step
    requires Written.Approaches(rel, delta)
    decreases body, 1, if !Holds(rel, cur, end) then 0 else 1 + Abs(end - cur)
  {
    if !Holds(rel, cur, end) then Next(fs)
    else
      var o := Leave(SaysBlock(body, rt, Frame(map[iv := Cell(t, Cut(t, cur))], fs)));
      if o.Next? then SaysLoop(body, iv, t, cur + delta, end, delta, rel, rt, o.frames) else o
  }

  // ------------------------------------------------------------------------- programs

  // Constants that have the numbers of their definitions, in whatever order they stand.
  predicate Solves(cs: seq<ConstDecl>, g: map<string, Cell>) {
    && g.Keys == (set i | 0 <= i < |cs| :: cs[i].name)
    && forall i | 0 <= i < |cs| ::
         cs[i].ScalarConst? && g[cs[i].name] == Cell(cs[i].ty, NumberIn(cs[i].init, cs[i].ty, Frame(g, Outside)))
  }

  function Given(ps: seq<Param>, args: seq<int>, own: map<string, Cell>): map<string, Cell>
    requires |ps| == |args|
  {
    if ps == [] then own
    else Given(ps[1..], args[1..], own[ps[0].name := Cell(ps[0].ty, Cut(ps[0].ty, args[0]))])
  }

  // The number a program returns; the body shares the parameters' scope.
  function Result(p: Program, g: map<string, Cell>, args: seq<int>): Option<int>
    requires |args| == |p.fn.params|
  {
    match SaysBlock(p.fn.body, p.fn.returnType, Frame(Given(p.fn.params, args, map[]), Frame(g, Outside)))
    case Done(n) => Some(Cut(p.fn.returnType, n))
    case _ => None
  }
}
