/**
 Trip counts (src/sema/const_eval.cpp:170-223): a closed form stands for the loop
 that tests its condition before every iteration, in unbounded integers.
 */
module TripCount {
  import opened Arith
  import opened FixedWidth
  import opened Ast
  import opened Meaning
  import opened InterpExact
  import opened Interp
  import opened Wrappers

  // fitsType, src/sema/const_eval.cpp:12-22
  predicate FitsType(b: Bits, t: Type)
    requires TypeOk(t)
  {
    if t.signed then t.width == WORD || InRange(Value(b), t.width, true)
    else Value(b) >= 0 && (t.width == WORD || b.raw <= Mask(t.width))
  }

  const MAX_U64: nat := 0xffff_ffff_ffff_ffff

  // The number of iterations, when the header is accepted.
  function CountOf(start: int, end: int, amount: nat, isAdd: bool, rel: Cmp): Option<int>
    requires amount > 0
  {
    var enters :=
      if isAdd then (if rel == Lt then start < end else start <= end)
      else (if rel == Gt then start > end else start >= end);
    if !enters then Some(0)
    else if (isAdd && (rel == Gt || rel == Ge)) || (!isAdd && (rel == Lt || rel == Le)) then None
    else
      var distance := if isAdd then end - start else start - end;
      Some(if rel == Lt || rel == Gt then (distance + amount - 1) / amount else distance / amount + 1)
  }

  // evaluateFor, for a header whose three expressions are constants.
  function EvaluateFor(t: Type, init: Bits, limit: Bits, step: Bits, isAdd: bool, rel: Cmp): (r: Option<nat>)
    requires TypeOk(t)
  {
    var start, end, amount := Value(init), Value(limit), Abs(Value(step));
    if amount == 0 then None
    else
      var count :- CountOf(start, end, amount, isAdd, rel);
      var terminal := if isAdd then start + count * amount else start - count * amount;
      if !t.signed && terminal < 0 then None
      else if t.signed && t.width < WORD && !InRange(terminal, t.width, true) then None
      else if !FitsType(Make(terminal, t.width, t.signed), t) then None
      else if count < 0 || count > MAX_U64 then None
      else Some(count)
  }

  // The operators the grammar allows in a loop header.
  predicate HeaderOp(rel: Cmp) {
    rel == Lt || rel == Le || rel == Gt || rel == Ge
  }

  // The step moves toward the limit.
  predicate Toward(isAdd: bool, rel: Cmp) {
    if isAdd then rel == Lt || rel == Le else rel == Gt || rel == Ge
  }

  // The induction value of iteration k.
  function At(start: int, delta: int, k: nat): int {
    start + k * delta
  }

  // The loop that tests before every iteration runs exactly n of them.
  predicate Exactly(n: nat, start: int, delta: int, rel: Cmp, end: int) {
    && (forall k: nat | k < n :: Holds(rel, At(start, delta, k), end))
    && !Holds(rel, At(start, delta, n), end)
  }

  function Delta(step: int, isAdd: bool): int {
    if isAdd then step else -step
  }

  // ---------------------------------------------------------------- closed forms

  // k steps of a stay below a distance d exactly while k is below the ceiling.
  lemma Ceiling(d: nat, a: nat, k: nat)
    requires a > 0
    ensures k * a < d <==> k < (d + a - 1) / a
  {
    var q := (d + a - 1) / a;
    var r := (d + a - 1) % a;
    assert d + a - 1 == a * q + r;
    if k < q {
      Scaled(k + 1, q, a);
    } else {
      Scaled(q, k, a);
    }
  }

  lemma Floor(d: nat, a: nat, k: nat)
    requires a > 0
    ensures k * a <= d <==> k < d / a + 1
  {
    var q, r := d / a, d % a;
    assert d == a * q + r;
    if k <= q {
      Scaled(k, q, a);
    } else {
      Scaled(q + 1, k, a);
    }
  }

  lemma Scaled(x: int, y: int, a: nat)
    requires x <= y
    ensures x * a <= y * a && (x + 1) * a == x * a + a
  {
  }

  // While the count lasts the condition holds, and then it does not.
  lemma CountHolds(start: int, end: int, amount: nat, isAdd: bool, rel: Cmp, k: nat)
    requires amount > 0 && HeaderOp(rel) && Toward(isAdd, rel)
    ensures var n := CountOf(start, end, amount, isAdd, rel);
            && n.Some? && n.value >= 0
            && (k <= n.value ==> (Holds(rel, At(start, Delta(amount, isAdd), k), end) <==> k < n.value))
  {
    hide CountOf, At, Delta;
    var d := if isAdd then end - start else start - end;
    CountIs(start, end, amount, isAdd, rel);
    Distance(start, end, amount, isAdd, k);
    if d >= 0 {
      Ceiling(d, amount, k);
      Floor(d, amount, k);
    } else {
      Scaled(0, k, amount);
    }
  }

  // The closed form, by the distance to the limit.
  lemma CountIs(start: int, end: int, amount: nat, isAdd: bool, rel: Cmp)
    requires amount > 0 && HeaderOp(rel) && Toward(isAdd, rel)
    ensures var d := if isAdd then end - start else start - end;
            var strict := rel == Lt || rel == Gt;
            CountOf(start, end, amount, isAdd, rel) ==
            Some(if d < 0 || (strict && d == 0) then 0 else if strict then (d + amount - 1) / amount else d / amount + 1)
  {
  }

  // The k-th value against the limit, as k steps against the distance.
  lemma Distance(start: int, end: int, amount: nat, isAdd: bool, k: nat)
    ensures var d := if isAdd then end - start else start - end;
            var x := At(start, Delta(amount, isAdd), k);
            if isAdd then x == end - d + k * amount else x == end + d - k * amount
  {
    Negated(k, amount);
  }

  lemma Negated(k: int, a: int)
    ensures k * -a == -(k * a)
  {
  }

  lemma CountExact(start: int, end: int, amount: nat, isAdd: bool, rel: Cmp)
    requires amount > 0 && HeaderOp(rel) && Toward(isAdd, rel)
    ensures var n := CountOf(start, end, amount, isAdd, rel);
            n.Some? && n.value >= 0 && Exactly(n.value, start, Delta(amount, isAdd), rel, end)
  {
    hide Holds, CountOf, At;
    CountHolds(start, end, amount, isAdd, rel, 0);
    var n := CountOf(start, end, amount, isAdd, rel).value;
    forall k: nat | k <= n ensures Holds(rel, At(start, Delta(amount, isAdd), k), end) <==> k < n {
      CountHolds(start, end, amount, isAdd, rel, k);
    }
  }

  // A step away from the limit never ends a loop once entered.
  lemma AwayForever(start: int, end: int, delta: int, rel: Cmp, n: nat)
    requires HeaderOp(rel) && Holds(rel, start, end)
    requires if rel == Lt || rel == Le then delta <= 0 else delta >= 0
    ensures !Exactly(n, start, delta, rel, end)
  {
    if delta >= 0 {
      Scaled(0, n, delta);
    } else {
      Scaled(0, n, -delta);
      Negated(n, -delta);
    }
  }

  // An accepted count is the number of iterations of the loop as written, exactly
  // when its condition fails at once or a positive step moves toward the limit.
  lemma TripCountIff(t: Type, init: Bits, limit: Bits, step: Bits, isAdd: bool, rel: Cmp)
    requires TypeOk(t) && HeaderOp(rel) && EvaluateFor(t, init, limit, step, isAdd, rel).Some?
    ensures Exactly(EvaluateFor(t, init, limit, step, isAdd, rel).value,
                    Value(init), Delta(Value(step), isAdd), rel, Value(limit))
            <==> !Holds(rel, Value(init), Value(limit)) || (Value(step) > 0 && Toward(isAdd, rel))
  {
    hide Value, FitsType, Make, Exactly;
    var start, end, amount := Value(init), Value(limit), Abs(Value(step));
    var n := EvaluateFor(t, init, limit, step, isAdd, rel).value;
    assert CountOf(start, end, amount, isAdd, rel) == Some(n);
    CountCases(start, end, Value(step), isAdd, rel, n);
  }

  lemma CountCases(start: int, end: int, step: int, isAdd: bool, rel: Cmp, n: nat)
    requires step != 0 && HeaderOp(rel) && CountOf(start, end, Abs(step), isAdd, rel) == Some(n)
    ensures Exactly(n, start, Delta(step, isAdd), rel, end) <==>
            !Holds(rel, start, end) || (step > 0 && Toward(isAdd, rel))
  {
    if !Holds(rel, start, end) {
      NotEntered(start, end, step, isAdd, rel, n);
    } else if Toward(isAdd, rel) && step > 0 {
      CountExact(start, end, step, isAdd, rel);
    } else {
      AwayOrZero(start, end, step, isAdd, rel, n);
    }
  }

  lemma NotEntered(start: int, end: int, step: int, isAdd: bool, rel: Cmp, n: nat)
    requires step != 0 && HeaderOp(rel) && CountOf(start, end, Abs(step), isAdd, rel) == Some(n)
    requires !Holds(rel, start, end)
    ensures n == 0 && Exactly(n, start, Delta(step, isAdd), rel, end)
  {
  }

  lemma AwayOrZero(start: int, end: int, step: int, isAdd: bool, rel: Cmp, n: nat)
    requires step != 0 && HeaderOp(rel) && CountOf(start, end, Abs(step), isAdd, rel) == Some(n)
    requires Holds(rel, start, end) && !(Toward(isAdd, rel) && step > 0)
    ensures !Exactly(n, start, Delta(step, isAdd), rel, end)
  {
    if Toward(isAdd, rel) {
      AwayForever(start, end, Delta(step, isAdd), rel, n);
    } else {
      assert n == 0 && At(start, Delta(step, isAdd), 0) == start;
    }
  }

  // -------------------------------------------------------------- the check that idles

  // The last check sees a value already cut to the induction type.  It can fail
  // only for a 128-bit unsigned value, which is read as signed.
  lemma TerminalCheckIff(x: int, t: Type)
    requires TypeOk(t)
    ensures FitsType(Make(x, t.width, t.signed), t) <==>
            t.signed || t.width < WORD || Make(x, t.width, t.signed).raw < Pow2(WORD - 1)
  {
    MakeWraps(x, x, t.width, t.signed);
    var b := Make(x, t.width, t.signed);
    if t.signed || t.width < WORD {
      ValueIsNum(b);
    }
  }

  // The value an accepted loop ends on.
  function Terminal(t: Type, init: Bits, limit: Bits, step: Bits, isAdd: bool, rel: Cmp): int
    requires TypeOk(t) && EvaluateFor(t, init, limit, step, isAdd, rel).Some?
  {
    At(Value(init), Delta(Abs(Value(step)), isAdd), EvaluateFor(t, init, limit, step, isAdd, rel).value)
  }

  // A loop that counts up to a limit runs past it by less than a step, or by a
  // step at most when the limit is included.
  lemma UpTo(start: int, end: int, a: nat)
    requires a > 0 && start <= end
    ensures start + (end - start + a - 1) / a * a == end + (start - end) % a
    ensures start + ((end - start) / a + 1) * a == end + a - (end - start) % a
  {
    var d := end - start;
    var q, r := (d + a - 1) / a, (d + a - 1) % a;
    assert d + a - 1 == q * a + r;
    DivModIs(-d, a, -q, a - 1 - r) by {
      NegMul(q, a);
    }
    assert d == d / a * a + d % a;
    Scaled(d / a, d / a, a);
  }

  // Whether a loop ends in range, read off its header: only a loop that counts up
  // at an unsigned type can leave it.
  predicate EndsInRange(t: Type, start: int, end: int, a: nat, isAdd: bool, rel: Cmp)
    requires a > 0
  {
    t.signed || !isAdd || !Toward(isAdd, rel) || !Holds(rel, start, end)
    || (if rel == Lt then end + (start - end) % a < Pow2(t.width)
        else end + a - (end - start) % a < Pow2(t.width))
  }

  // An accepted loop ends on a value of its type, as the language asks, exactly in
  // this case: the last check sees the value already cut.
  lemma TerminalInRangeIff(t: Type, init: Bits, limit: Bits, step: Bits, isAdd: bool, rel: Cmp)
    requires TypeOk(t) && t.width < WORD && HeaderOp(rel) && InRange(Value(init), t.width, t.signed)
    requires EvaluateFor(t, init, limit, step, isAdd, rel).Some?
    ensures Value(step) != 0
    ensures InRange(Terminal(t, init, limit, step, isAdd, rel), t.width, t.signed) <==>
            EndsInRange(t, Value(init), Value(limit), Abs(Value(step)), isAdd, rel)
  {
    hide Value, FitsType, Make, Pow2, CountOf;
    var start, end, a := Value(init), Value(limit), Abs(Value(step));
    var n := EvaluateFor(t, init, limit, step, isAdd, rel).value;
    Negated(n, a);
    LastValue(start, end, a, isAdd, rel, n);
  }

  lemma LastValue(start: int, end: int, a: nat, isAdd: bool, rel: Cmp, n: nat)
    requires a > 0 && HeaderOp(rel) && CountOf(start, end, a, isAdd, rel) == Some(n)
    ensures var x := At(start, Delta(a, isAdd), n);
            if !Toward(isAdd, rel) || !Holds(rel, start, end) then x == start
            else if !isAdd then x <= start
            else x == if rel == Lt then end + (start - end) % a else end + a - (end - start) % a
  {
    Negated(n, a);
    Scaled(0, n, a);
    if Toward(isAdd, rel) && Holds(rel, start, end) && isAdd {
      UpTo(start, end, a);
    }
  }

  // With a step of one and a limit of the type, `<` always ends in range, and `<=`
  // unless the limit is the greatest number.
  lemma StepOneIff(t: Type, init: Bits, limit: Bits, step: Bits, isAdd: bool, rel: Cmp)
    requires TypeOk(t) && t.width < WORD && HeaderOp(rel) && Value(step) == 1
    requires InRange(Value(init), t.width, t.signed) && InRange(Value(limit), t.width, t.signed)
    requires EvaluateFor(t, init, limit, step, isAdd, rel).Some?
    ensures InRange(Terminal(t, init, limit, step, isAdd, rel), t.width, t.signed) <==>
            t.signed || !isAdd || rel != Le || Value(init) > Value(limit) || Value(limit) < Pow2(t.width) - 1
  {
    hide Value, EvaluateFor, Terminal, Pow2;
    TerminalInRangeIff(t, init, limit, step, isAdd, rel);
    ByOne(Value(init) - Value(limit));
  }

  lemma ByOne(x: int)
    ensures x % 1 == 0 && -x % 1 == 0
  {
  }

  // ------------------------------------------------------- which headers are accepted

  // The comparison as the step's direction reads it, at the start.
  predicate Enters(start: int, end: int, isAdd: bool, rel: Cmp) {
    if isAdd then (if rel == Lt then start < end else start <= end)
    else (if rel == Gt then start > end else start >= end)
  }

  // The value an entered loop with a step of size a ends on.
  function LastOf(start: int, end: int, a: nat, isAdd: bool, rel: Cmp): int
    requires a > 0
  {
    if !Enters(start, end, isAdd, rel) then start
    else if isAdd then (if rel == Lt then end + (start - end) % a else end + a - (end - start) % a)
    else if rel == Gt then end - (end - start) % a
    else end - a + (start - end) % a
  }

  // What the range checks ask of that value: a signed one its type must hold, and
  // an unsigned one must not be negative, nor need bit 127 once it is cut.
  predicate LastFits(x: int, t: Type)
    requires TypeOk(t)
  {
    if t.signed then t.width == 128 || InRange(x, t.width, true)
    else x >= 0 && (t.width == 128 ==> x % Pow2(128) < Pow2(127))
  }

  // A header with a step that is not zero, which steps toward its limit if it enters,
  // ends on a value that passes the range checks, and runs fewer than 2^64 times.
  predicate HeaderOk(t: Type, start: int, end: int, step: int, isAdd: bool, rel: Cmp)
    requires TypeOk(t)
  {
    var a := Abs(step);
    && a != 0
    && (Enters(start, end, isAdd, rel) ==> Toward(isAdd, rel))
    && LastFits(LastOf(start, end, a, isAdd, rel), t)
    && Abs(LastOf(start, end, a, isAdd, rel) - start) < a * Pow2(64)
  }

  // Such headers are accepted, and no others.
  lemma AcceptedIff(t: Type, init: Bits, limit: Bits, step: Bits, isAdd: bool, rel: Cmp)
    requires TypeOk(t) && HeaderOp(rel)
    ensures EvaluateFor(t, init, limit, step, isAdd, rel).Some? <==> HeaderOk(t, Value(init), Value(limit), Value(step), isAdd, rel)
  {
    hide Value, FitsType, Make, Pow2, CountOf, LastOf, InRange;
    var start, end, a := Value(init), Value(limit), Abs(Value(step));
    if a != 0 && (Enters(start, end, isAdd, rel) ==> Toward(isAdd, rel)) {
      CountLast(start, end, a, isAdd, rel);
      var n := CountOf(start, end, a, isAdd, rel).value;
      var x := LastOf(start, end, a, isAdd, rel);
      Below64(n, a);
      RangeChecks(x, t);
    } else if a != 0 {
      CountAway(start, end, a, isAdd, rel);
    }
  }

  lemma CountAway(start: int, end: int, a: nat, isAdd: bool, rel: Cmp)
    requires a > 0 && HeaderOp(rel) && Enters(start, end, isAdd, rel) && !Toward(isAdd, rel)
    ensures CountOf(start, end, a, isAdd, rel).None?
  {
  }

  // The count, and where it leads.
  lemma CountLast(start: int, end: int, a: nat, isAdd: bool, rel: Cmp)
    requires a > 0 && HeaderOp(rel) && (Enters(start, end, isAdd, rel) ==> Toward(isAdd, rel))
    ensures var n := CountOf(start, end, a, isAdd, rel); var x := LastOf(start, end, a, isAdd, rel);
            && n.Some? && n.value >= 0 && Abs(x - start) == n.value * a
            && x == if isAdd then start + n.value * a else start - n.value * a
  {
    if Enters(start, end, isAdd, rel) {
      if isAdd {
        UpTo(start, end, a);
        EnteredCount(end - start, a);
      } else {
        DownTo(start, end, a);
        EnteredCount(start - end, a);
      }
    }
  }

  lemma DownTo(start: int, end: int, a: nat)
    requires a > 0 && end <= start
    ensures start - (start - end + a - 1) / a * a == end - (end - start) % a
    ensures start - ((start - end) / a + 1) * a == end - a + (start - end) % a
  {
    UpTo(-start, -end, a);
  }

  lemma EnteredCount(d: nat, a: nat)
    requires a > 0
    ensures (d + a - 1) / a >= 0 && (d + a - 1) / a * a >= 0 && d / a + 1 >= 0 && (d / a + 1) * a >= 0
  {
    Scaled(0, (d + a - 1) / a, a);
    Scaled(0, d / a + 1, a);
  }

  lemma Below64(n: int, a: nat)
    requires a > 0
    ensures MAX_U64 == Pow2(64) - 1
    ensures n * a < a * Pow2(64) <==> n <= MAX_U64
  {
    PowerOf64();
    hide Pow2;
    if n <= MAX_U64 {
      Scaled(n, Pow2(64) - 1, a);
    } else {
      Scaled(Pow2(64), n, a);
    }
  }

  lemma PowerOf64()
    ensures Pow2(64) == 0x1_0000_0000_0000_0000
  {
    assert Pow2(8) == 256;
    Pow2Add(8, 8);
    Pow2Add(16, 16);
    Pow2Add(32, 32);
  }

  lemma RangeChecks(x: int, t: Type)
    requires TypeOk(t)
    ensures LastFits(x, t) <==>
            && (!t.signed ==> x >= 0) && (t.signed && t.width < WORD ==> InRange(x, t.width, true))
            && FitsType(Make(x, t.width, t.signed), t)
  {
    hide Pow2, FitsType, Make, InRange;
    TerminalCheckIff(x, t);
    MakeWraps(x, x, t.width, t.signed);
  }

  // `for (u3 i = 0; i <= 7; i = i + 1)` is accepted, and ends on 8.
  lemma Overrun()
    ensures EvaluateFor(Type(3, false), Bits(0, 3, false), Bits(7, 3, false), Bits(1, 3, false), true, Le) == Some(8)
    ensures !InRange(8, 3, false) && !EndsInRange(Type(3, false), 0, 7, 1, true, Le)
  {
    assert Pow2(3) == 8;
    Pow2Mono(4, WORD - 1);
    assert Pow2(4) == 16;
    ValueIsNum(Bits(0, 3, false));
    ValueIsNum(Bits(7, 3, false));
    ValueIsNum(Bits(1, 3, false));
    TerminalCheckIff(8, Type(3, false));
  }

  function Byte(v: nat): Bits
    requires v < 256
  {
    assert Pow2(8) == 256;
    Bits(v, 8, false)
  }

  lemma ByteValue(v: nat)
    requires v < 256
    ensures Value(Byte(v)) == v
  {
    ValueIsNum(Byte(v));
  }

  // `for (u8 i = 0; i < 10; i = i - 1)` is accepted with no iteration, although its
  // condition holds at the start.
  lemma Contradicted()
    ensures EvaluateFor(Type(8, false), Byte(0), Byte(10), Byte(1), false, Lt) == Some(0)
    ensures Holds(Lt, 0, 10) && !Exactly(0, 0, -1, Lt, 10)
  {
    hide Value, FitsType, Make, Byte, Pow2, InRange, Exactly;
    ByteValue(0);
    ByteValue(10);
    ByteValue(1);
    TerminalCheckIff(0, Type(8, false));
    assert CountOf(0, 10, 1, false, Lt) == Some(0);
    HoldsAtStart(0, -1, Lt, 10);
  }

  lemma HoldsAtStart(start: int, delta: int, rel: Cmp, end: int)
    requires Holds(rel, start, end)
    ensures !Exactly(0, start, delta, rel, end)
  {
    assert At(start, delta, 0) == start;
  }

  // ------------------------------------------- counting refines testing each time

  // The loop as written: test, run the body, step; values unbounded.
  function RetestLoop(body: seq<Stmt>, sym: Symbol, cur: int, end: int, delta: int, rel: Cmp, st: State): State
    requires HeaderOp(rel) && if rel == Lt || rel == Le then delta > 0 else delta < 0
    decreases if !Holds(rel, cur, end) then 0 else 1 + Abs(end - cur)
  {
    if !Holds(rel, cur, end) then st
    else
      var iv := Make(cur, sym.ty.width, sym.ty.signed);
      RetestLoop(body, sym, cur + delta, end, delta, rel,
                 ExecBlock(body, st.(scalars := st.scalars[sym := iv])))
  }

  // Every induction value the body sees lies between the bounds, so none wraps.
  lemma NoWrap(n: nat, start: int, delta: int, rel: Cmp, end: int, t: Type, k: nat)
    requires TypeOk(t) && HeaderOp(rel) && Exactly(n, start, delta, rel, end) && k < n
    requires if rel == Lt || rel == Le then delta > 0 else delta < 0
    requires InRange(start, t.width, t.signed) && InRange(end, t.width, t.signed)
    ensures InRange(At(start, delta, k), t.width, t.signed)
  {
    hide Exactly;
    StillHolds(n, start, delta, rel, end, k);
    if delta > 0 {
      Scaled(0, k, delta);
    } else {
      Scaled(0, k, -delta);
      Negated(k, -delta);
    }
  }

  lemma StillHolds(n: nat, start: int, delta: int, rel: Cmp, end: int, k: nat)
    requires Exactly(n, start, delta, rel, end) && k < n
    ensures Holds(rel, At(start, delta, k), end)
  {
  }

  lemma ExactlyTail(n: nat, start: int, delta: int, rel: Cmp, end: int)
    requires n > 0 && Exactly(n, start, delta, rel, end)
    ensures Holds(rel, start, end) && Exactly(n - 1, start + delta, delta, rel, end)
  {
    hide Holds;
    assert At(start, delta, 0) == start;
    var next := start + delta;
    forall k: nat ensures At(next, delta, k) == At(start, delta, k + 1) {
      Scaled(k, k, Abs(delta));
      assert (k + 1) * delta == k * delta + delta;
    }
  }

  // One step of the interpreter's induction variable.
  lemma StepIs(cur: int, step: int, isAdd: bool, t: Type)
    requires TypeOk(t)
    ensures StepIv(Make(cur, t.width, t.signed), Make(step, t.width, t.signed), isAdd, t) ==
            Make(cur + Delta(step, isAdd), t.width, t.signed)
  {
    hide Pow2, Make, StepIv, Wrap, InRange, Delta;
    var iv, sb := Make(cur, t.width, t.signed), Make(step, t.width, t.signed);
    var m := Pow2(t.width);
    MakeWraps(cur, cur, t.width, t.signed);
    MakeWraps(step, step, t.width, t.signed);
    ModAdd(cur, step, m);
    ModSub(cur, step, m);
    StepRaw(iv, sb, cur, step, isAdd, t);
  }

  lemma StepRaw(iv: Bits, sb: Bits, cur: int, step: int, isAdd: bool, t: Type)
    requires TypeOk(t)
    requires if isAdd then (iv.raw + sb.raw) % Pow2(t.width) == (cur + step) % Pow2(t.width)
             else (iv.raw - sb.raw) % Pow2(t.width) == (cur - step) % Pow2(t.width)
    ensures StepIv(iv, sb, isAdd, t) == Make(cur + Delta(step, isAdd), t.width, t.signed)
  {
    hide Make, Pow2;
    var x := if isAdd then iv.raw + sb.raw else iv.raw - sb.raw;
    SameMake(x, cur + Delta(step, isAdd), t.width, t.signed);
  }

  lemma SameMake(x: int, y: int, w: nat, signed: bool)
    requires WidthOk(w) && x % Pow2(w) == y % Pow2(w)
    ensures Make(x, w, signed) == Make(y, w, signed)
  {
    hide Pow2;
    MakeWraps(x, x, w, signed);
    MakeWraps(y, y, w, signed);
  }

  // The counted loop runs the body on the values the tested loop does.
  lemma {:induction false} CountedIsRetested(body: seq<Stmt>, n: nat, sym: Symbol, start: int, end: int, step: int,
                                             isAdd: bool, rel: Cmp, st: State)
    requires TypeOk(sym.ty) && HeaderOp(rel) && Toward(isAdd, rel) && step > 0
    requires Exactly(n, start, Delta(step, isAdd), rel, end)
    ensures ExecLoop(body, n, sym, Make(start, sym.ty.width, sym.ty.signed), Make(step, sym.ty.width, sym.ty.signed), isAdd, st) ==
            RetestLoop(body, sym, start, end, Delta(step, isAdd), rel, st)
    decreases n
  {
    hide Make, ExecBlock, StepIv;
    var delta := Delta(step, isAdd);
    if n == 0 {
      assert At(start, delta, 0) == start;
    } else {
      ExactlyTail(n, start, delta, rel, end);
      StepIs(start, step, isAdd, sym.ty);
      var iv := Make(start, sym.ty.width, sym.ty.signed);
      CountedIsRetested(body, n - 1, sym, start + delta, end, step, isAdd, rel,
                        ExecBlock(body, st.(scalars := st.scalars[sym := iv])));
    }
  }

  // A loop accepted with a positive step toward its limit: the interpreter, which
  // only counts, does what the loop as written does.
  lemma AcceptedLoop(body: seq<Stmt>, sym: Symbol, init: Bits, limit: Bits, step: Bits, isAdd: bool, rel: Cmp, st: State)
    requires TypeOk(sym.ty) && HeaderOp(rel) && Toward(isAdd, rel) && Value(step) > 0
    requires EvaluateFor(sym.ty, init, limit, step, isAdd, rel).Some?
    ensures ExecLoop(body, EvaluateFor(sym.ty, init, limit, step, isAdd, rel).value, sym,
                     Interp.Coerce(init, sym.ty), Interp.Coerce(step, sym.ty), isAdd, st) ==
            RetestLoop(body, sym, Value(init), Value(limit), Delta(Value(step), isAdd), rel, st)
  {
    hide Make, EvaluateFor, Exactly, Value;
    TripCountIff(sym.ty, init, limit, step, isAdd, rel);
    CountedIsRetested(body, EvaluateFor(sym.ty, init, limit, step, isAdd, rel).value, sym,
                      Value(init), Value(limit), Value(step), isAdd, rel, st);
  }
}
