/**
 Constant folding (src/sema/const_eval.cpp:29-112, 268-277) on the tree the checker
 left: definitions may refer to each other in any order and in cycles.  Values are
 cached, and a symbol being evaluated is not evaluated again.
 */
module ConstFold {
  import opened FixedWidth
  import opened Ast
  import opened Interp
  import opened TypeCheck
  import opened Wrappers

  type Definitions = map<Symbol, Node>

  // A literal at its type; without one, as an unsigned number of 128 bits.
  function Literally(v: nat, note: Note): Bits {
    if note.Typed? then Make(v, note.t.width, note.t.signed) else Make(v, WORD, false)
  }

  // What an expression folds to when at most n names are replaced by their
  // definitions, one inside the other; no cache.
  function Unfold(e: Node, defs: Definitions, n: nat): Option<Bits>
    decreases n, e
  {
    match e
    case LitNode(v, note) => Some(Literally(v, note))
    case NameNode(sym, _) =>
      if sym in defs && n > 0 then Unfold(defs[sym], defs, n - 1) else None
    case CastNode(t, x, _) =>
      var a :- Unfold(x, defs, n);
      Some(CastTo(a, t.width, t.signed))
    case UnaryNode(op, x, _) =>
      var a :- Unfold(x, defs, n);
      Some(EvalUnary(op, a))
    case BinaryNode(op, l, r, _) =>
      var a :- Unfold(l, defs, n);
      var b :- Unfold(r, defs, n);
      Some(EvalBinary(op, a, b))
    case TernaryNode(c, x, y, _) =>
      var k :- Unfold(c, defs, n);
      if k.raw != 0 then Unfold(x, defs, n) else Unfold(y, defs, n)
  }

  // The language's own account: some finite unfolding yields the value.
  ghost predicate Derives(e: Node, defs: Definitions, v: Bits) {
    exists n: nat :: Unfold(e, defs, n) == Some(v)
  }

  lemma {:induction false} UnfoldMore(e: Node, defs: Definitions, m: nat, n: nat)
    requires m <= n && Unfold(e, defs, m).Some?
    ensures Unfold(e, defs, n) == Unfold(e, defs, m)
    decreases m, e
  {
    match e
    case LitNode(_, _) =>
    case NameNode(sym, _) => UnfoldMore(defs[sym], defs, m - 1, n - 1);
    case CastNode(_, x, _) => UnfoldMore(x, defs, m, n);
    case UnaryNode(_, x, _) => UnfoldMore(x, defs, m, n);
    case BinaryNode(_, l, r, _) =>
      UnfoldMore(l, defs, m, n);
      UnfoldMore(r, defs, m, n);
    case TernaryNode(c, x, y, _) =>
      UnfoldMore(c, defs, m, n);
      if Unfold(c, defs, m).value.raw != 0 {
        UnfoldMore(x, defs, m, n);
      } else {
        UnfoldMore(y, defs, m, n);
      }
  }

  lemma DerivesUnique(e: Node, defs: Definitions, v: Bits, w: Bits)
    requires Derives(e, defs, v) && Derives(e, defs, w)
    ensures v == w
  {
    hide Unfold;
    var m: nat :| Unfold(e, defs, m) == Some(v);
    var n: nat :| Unfold(e, defs, n) == Some(w);
    UnfoldMore(e, defs, m, m + n);
    UnfoldMore(e, defs, n, m + n);
  }

  // e lies on the path of the evaluation of s: whenever the definition of s
  // unfolds, so does e.
  ghost predicate OnPath(s: Symbol, e: Node, defs: Definitions) {
    s in defs && forall n: nat :: Unfold(defs[s], defs, n).Some? ==> Unfold(e, defs, n).Some?
  }

  ghost predicate Path(busy: set<Symbol>, e: Node, defs: Definitions) {
    forall s | s in busy :: OnPath(s, e, defs)
  }

  // A name on the path of its own evaluation has no value at all.
  lemma {:induction false} CycleFails(s: Symbol, note: Note, defs: Definitions, n: nat)
    requires OnPath(s, NameNode(s, note), defs)
    ensures Unfold(defs[s], defs, n) == None
  {
    if Unfold(defs[s], defs, n).Some? {
      assert Unfold(NameNode(s, note), defs, n).Some?;
      CycleFails(s, note, defs, n - 1);
    }
  }

  // The definition of a name on the path is on the path.
  lemma PathEnters(busy: set<Symbol>, s: Symbol, note: Note, defs: Definitions)
    requires Path(busy, NameNode(s, note), defs) && s in defs
    ensures Path(busy + {s}, defs[s], defs)
  {
    forall b | b in busy ensures OnPath(b, defs[s], defs) {
      forall n: nat | Unfold(defs[b], defs, n).Some? ensures Unfold(defs[s], defs, n).Some? {
        assert Unfold(NameNode(s, note), defs, n).Some?;
        UnfoldMore(defs[s], defs, n - 1, n);
      }
    }
  }

  lemma PathInto(busy: set<Symbol>, e: Node, sub: Node, defs: Definitions)
    requires Path(busy, e, defs)
    requires forall n: nat :: Unfold(e, defs, n).Some? ==> Unfold(sub, defs, n).Some?
    ensures Path(busy, sub, defs)
  {
    forall b | b in busy ensures OnPath(b, sub, defs) {
    }
  }

  // The arm a known condition selects is on the path.
  lemma ArmUnfolds(e: Node, k: Bits, defs: Definitions, n: nat)
    requires e.TernaryNode? && Derives(e.c, defs, k) && Unfold(e, defs, n).Some?
    ensures Unfold(if k.raw != 0 then e.t else e.e, defs, n).Some?
  {
    assert Derives(e.c, defs, Unfold(e.c, defs, n).value);
    DerivesUnique(e.c, defs, k, Unfold(e.c, defs, n).value);
  }

  // ------------------------------------------------------------- when there is a value

  // Evaluation meets only names with definitions, at most n of them one inside the
  // other; of a ternary it goes into the arm selected.
  predicate Grounded(e: Node, defs: Definitions, n: nat)
    decreases n, e
  {
    match e
    case LitNode(_, _) => true
    case NameNode(sym, _) => sym in defs && n > 0 && Grounded(defs[sym], defs, n - 1)
    case CastNode(_, x, _) => Grounded(x, defs, n)
    case UnaryNode(_, x, _) => Grounded(x, defs, n)
    case BinaryNode(_, l, r, _) => Grounded(l, defs, n) && Grounded(r, defs, n)
    case TernaryNode(c, x, y, _) =>
      && Grounded(c, defs, n)
      && match Unfold(c, defs, n)
         case None => true
         case Some(k) => Grounded(if k.raw != 0 then x else y, defs, n)
  }

  // Nothing else keeps an expression from having a value: no operator fails.
  lemma {:induction false} UnfoldIff(e: Node, defs: Definitions, n: nat)
    ensures Unfold(e, defs, n).Some? <==> Grounded(e, defs, n)
    decreases n, e
  {
    match e
    case LitNode(_, _) =>
    case NameNode(sym, _) =>
      if sym in defs && n > 0 {
        UnfoldIff(defs[sym], defs, n - 1);
      }
    case CastNode(_, x, _) => UnfoldIff(x, defs, n);
    case UnaryNode(_, x, _) => UnfoldIff(x, defs, n);
    case BinaryNode(_, l, r, _) =>
      UnfoldIff(l, defs, n);
      UnfoldIff(r, defs, n);
    case TernaryNode(c, x, y, _) =>
      UnfoldIff(c, defs, n);
      UnfoldIff(x, defs, n);
      UnfoldIff(y, defs, n);
  }

  function NodeReads(n: Node): set<Symbol> {
    match n
    case LitNode(_, _) => {}
    case NameNode(sym, _) => {sym}
    case CastNode(_, x, _) => NodeReads(x)
    case UnaryNode(_, x, _) => NodeReads(x)
    case BinaryNode(_, l, r, _) => NodeReads(l) + NodeReads(r)
    case TernaryNode(c, x, y, _) => NodeReads(c) + NodeReads(x) + NodeReads(y)
  }

  // Definitions that read only names of lower rank.
  predicate Acyclic(defs: Definitions, rank: map<Symbol, nat>) {
    && defs.Keys <= rank.Keys
    && forall s, x | s in defs && x in NodeReads(defs[s]) :: x in defs && rank[x] < rank[s]
  }

  // Then everything that reads defined names has a value.
  lemma {:induction false} AcyclicUnfolds(e: Node, defs: Definitions, rank: map<Symbol, nat>, n: nat)
    requires Acyclic(defs, rank) && forall x | x in NodeReads(e) :: x in defs && rank[x] < n
    ensures Unfold(e, defs, n).Some?
    decreases n, e
  {
    match e
    case LitNode(_, _) =>
    case NameNode(sym, _) =>
      assert sym in NodeReads(e);
      AcyclicUnfolds(defs[sym], defs, rank, n - 1);
    case CastNode(_, x, _) => AcyclicUnfolds(x, defs, rank, n);
    case UnaryNode(_, x, _) => AcyclicUnfolds(x, defs, rank, n);
    case BinaryNode(_, l, r, _) =>
      AcyclicUnfolds(l, defs, rank, n);
      AcyclicUnfolds(r, defs, rank, n);
    case TernaryNode(c, x, y, _) =>
      AcyclicUnfolds(c, defs, rank, n);
      AcyclicUnfolds(x, defs, rank, n);
      AcyclicUnfolds(y, defs, rank, n);
  }

  // ------------------------------------------------- values of compound expressions

  // The answer of an evaluation: the derivable value, or none.
  ghost predicate Answers(e: Node, defs: Definitions, v: Option<Bits>) {
    match v
    case Some(x) => Derives(e, defs, x)
    case None => forall n: nat :: Unfold(e, defs, n) == None
  }

  lemma AnswersOne(e: Node, x: Node, defs: Definitions, v: Option<Bits>, f: Bits -> Bits)
    requires Answers(x, defs, v)
    requires forall n: nat :: Unfold(e, defs, n) ==
               match Unfold(x, defs, n) case None => None case Some(a) => Some(f(a))
    ensures Answers(e, defs, match v case None => None case Some(a) => Some(f(a)))
  {
    if v.Some? {
      var n: nat :| Unfold(x, defs, n) == v;
      assert Unfold(e, defs, n) == Some(f(v.value));
    }
  }

  lemma AnswersBinary(e: Node, defs: Definitions, a: Option<Bits>, b: Option<Bits>)
    requires e.BinaryNode? && Answers(e.l, defs, a) && Answers(e.r, defs, b)
    ensures Answers(e, defs, if a.Some? && b.Some? then Some(EvalBinary(e.op, a.value, b.value)) else None)
  {
    hide EvalBinary;
    if a.Some? && b.Some? {
      var m: nat :| Unfold(e.l, defs, m) == a;
      var n: nat :| Unfold(e.r, defs, n) == b;
      UnfoldMore(e.l, defs, m, m + n);
      UnfoldMore(e.r, defs, n, m + n);
      assert Unfold(e, defs, m + n) == Some(EvalBinary(e.op, a.value, b.value));
    } else {
      forall n: nat ensures Unfold(e, defs, n) == None {
        assert Unfold(e.l, defs, n) == None || Unfold(e.r, defs, n) == None;
      }
    }
  }

  lemma ChosenArm(e: Node, k: Bits, defs: Definitions, n: nat)
    requires e.TernaryNode? && Unfold(e.c, defs, n) == Some(k)
    ensures Unfold(e, defs, n) == Unfold(if k.raw != 0 then e.t else e.e, defs, n)
  {
  }

  lemma AnswersTernary(e: Node, defs: Definitions, k: Bits, v: Option<Bits>)
    requires e.TernaryNode? && Derives(e.c, defs, k)
    requires Answers(if k.raw != 0 then e.t else e.e, defs, v)
    ensures Answers(e, defs, v)
  {
    hide Unfold;
    var arm := if k.raw != 0 then e.t else e.e;
    if v.Some? {
      var m: nat :| Unfold(e.c, defs, m) == Some(k);
      var n: nat :| Unfold(arm, defs, n) == v;
      UnfoldMore(e.c, defs, m, m + n);
      UnfoldMore(arm, defs, n, m + n);
      ChosenArm(e, k, defs, m + n);
    } else {
      NoArm(e, k, arm, defs);
    }
  }

  lemma NoArm(e: Node, k: Bits, arm: Node, defs: Definitions)
    requires e.TernaryNode? && Derives(e.c, defs, k) && arm == if k.raw != 0 then e.t else e.e
    requires forall n: nat :: Unfold(arm, defs, n) == None
    ensures forall n: nat :: Unfold(e, defs, n) == None
  {
    hide Unfold, Derives;
    forall n: nat ensures Unfold(e, defs, n) == None {
      if Unfold(e, defs, n).Some? {
        ArmUnfolds(e, k, defs, n);
      }
    }
  }

  lemma AnswersName(s: Symbol, note: Note, defs: Definitions, v: Option<Bits>)
    requires s in defs && Answers(defs[s], defs, v)
    ensures Answers(NameNode(s, note), defs, v)
  {
    if v.Some? {
      var n: nat :| Unfold(defs[s], defs, n) == v;
      assert Unfold(NameNode(s, note), defs, n + 1) == v;
    }
  }

  // --------------------------------------------------------------- the evaluator

  datatype ConstDecl = ConstDecl(sym: Symbol, init: Node)

  class ConstantEvaluator {
    var constants: Definitions
    var values: map<Symbol, Bits>
    var inProgress: set<Symbol>

    constructor ()
      ensures constants == map[] && values == map[] && inProgress == {}
    {
      constants, values, inProgress := map[], map[], {};
    }

    // Every cached value is the derivable one, whatever is in progress.
    ghost predicate Sound()
      reads this
    {
      forall s | s in values :: s in constants && Derives(constants[s], constants, values[s])
    }

    // Evaluation ends on every set of definitions, and answers with the
    // derivable value or, when there is none, with nothing.
    method Eval(e: Node) returns (v: Option<Bits>)
      requires Sound() && Path(inProgress, e, constants)
      modifies `values, `inProgress
      ensures Sound() && inProgress == old(inProgress)
      ensures Answers(e, constants, v)
      decreases |constants.Keys - inProgress|, e, 1
    {
      hide EvalBinary, EvalUnary, CastTo, Literally;
      match e
      case LitNode(n, note) =>
        v := Some(Literally(n, note));
        assert Unfold(e, constants, 0) == v;
      case NameNode(s, note) =>
        v := EvalConstant(s, note);
      case CastNode(t, x, _) =>
        PathInto(inProgress, e, x, constants);
        var a := Eval(x);
        AnswersOne(e, x, constants, a, b => CastTo(b, t.width, t.signed));
        v := if a.Some? then Some(CastTo(a.value, t.width, t.signed)) else None;
      case UnaryNode(op, x, _) =>
        PathInto(inProgress, e, x, constants);
        var a := Eval(x);
        AnswersOne(e, x, constants, a, b => EvalUnary(op, b));
        v := if a.Some? then Some(EvalUnary(op, a.value)) else None;
      case BinaryNode(op, l, r, _) =>
        PathInto(inProgress, e, l, constants);
        PathInto(inProgress, e, r, constants);
        var a := Eval(l);
        var b := Eval(r);
        AnswersBinary(e, constants, a, b);
        v := if a.Some? && b.Some? then Some(EvalBinary(op, a.value, b.value)) else None;
      case TernaryNode(_, _, _, _) =>
        v := EvalTernary(e);
    }

    method EvalTernary(e: Node) returns (v: Option<Bits>)
      requires e.TernaryNode? && Sound() && Path(inProgress, e, constants)
      modifies `values, `inProgress
      ensures Sound() && inProgress == old(inProgress)
      ensures Answers(e, constants, v)
      decreases |constants.Keys - inProgress|, e, 0
    {
      PathInto(inProgress, e, e.c, constants);
      var k := Eval(e.c);
      if k.None? { return None; }
      forall n: nat | Unfold(e, constants, n).Some?
        ensures Unfold(if k.value.raw != 0 then e.t else e.e, constants, n).Some?
      {
        ArmUnfolds(e, k.value, constants, n);
      }
      if k.value.raw != 0 {
        PathInto(inProgress, e, e.t, constants);
        v := Eval(e.t);
      } else {
        PathInto(inProgress, e, e.e, constants);
        v := Eval(e.e);
      }
      AnswersTernary(e, constants, k.value, v);
    }

    method EvalConstant(s: Symbol, note: Note) returns (v: Option<Bits>)
      requires Sound() && Path(inProgress, NameNode(s, note), constants)
      modifies `values, `inProgress
      ensures Sound() && inProgress == old(inProgress)
      ensures Answers(NameNode(s, note), constants, v)
      decreases |constants.Keys - inProgress|, NameNode(s, note), 0
    {
      if s in values {
        AnswersName(s, note, constants, Some(values[s]));
        return Some(values[s]);
      }
      if s in inProgress {
        forall n: nat ensures Unfold(NameNode(s, note), constants, n) == None {
          CycleFails(s, note, constants, if n > 0 then n - 1 else 0);
        }
        return None;
      }
      if s !in constants { return None; }
      PathEnters(inProgress, s, note, constants);
      Fewer(constants.Keys, inProgress, s);
      inProgress := inProgress + {s};
      v := Eval(constants[s]);
      inProgress := inProgress - {s};
      AnswersName(s, note, constants, v);
      if v.Some? {
        values := values[s := v.value];
      }
    }

    // Fold every declaration, in order.
    method Evaluate(decls: seq<ConstDecl>) returns (folded: seq<Option<Bits>>)
      modifies this
      ensures constants == Defined(decls)
      ensures |folded| == |decls| && forall i | 0 <= i < |decls| :: Answers(decls[i].init, Defined(decls), folded[i])
    {
      constants, values, inProgress := map[], map[], {};
      var i := 0;
      while i < |decls|
        invariant 0 <= i <= |decls| && constants == Defined(decls[..i]) && values == map[] && inProgress == {}
      {
        assert decls[..i + 1][..i] == decls[..i];
        constants := constants[decls[i].sym := decls[i].init];
        i := i + 1;
      }
      assert decls[..i] == decls;
      folded := [];
      i := 0;
      while i < |decls|
        invariant 0 <= i <= |decls| && constants == Defined(decls) && inProgress == {} && Sound()
        invariant |folded| == i && forall j | 0 <= j < i :: Answers(decls[j].init, Defined(decls), folded[j])
      {
        var v := Eval(decls[i].init);
        folded := folded + [v];
        i := i + 1;
      }
    }
  }

  function Defined(decls: seq<ConstDecl>): Definitions {
    if decls == [] then map[]
    else
      var last := decls[|decls| - 1];
      Defined(decls[..|decls| - 1])[last.sym := last.init]
  }

  lemma Fewer(all: set<Symbol>, busy: set<Symbol>, s: Symbol)
    requires s in all && s !in busy
    ensures |all - (busy + {s})| < |all - busy|
  {
    assert all - busy == all - (busy + {s}) + {s};
  }
}
