/**
 Fixed-width values and their operations (src/support/bits.cpp), and what each
 operation means in terms of the integers its operands denote.

 The operations follow the source, including its use of 128-bit machine
 integers: `Value` is the signed 128-bit reading, `Num` the number the language
 says the value denotes.  The two differ for an unsigned value of width 128
 with its top bit set.
 */
module FixedWidth {
  import opened Arith

  const WORD: nat := 128

  function Min(a: nat, b: nat): nat { if a < b then a else b }
  function Max(a: nat, b: nat): nat { if a > b then a else b }

  datatype RawBits = Bits(raw: nat, width: nat, signed: bool)

  // Bits above `width` are always zero, and no value has more than 128 of them.
  type Bits = b: RawBits | b.raw < Pow2(Min(b.width, WORD)) witness Bits(0, 1, false)

  datatype Cmp = Lt | Le | Gt | Ge | Eq | Ne

  // The conversion of an integer to an unsigned 128-bit word.
  function U128(x: int): (r: nat)
    ensures r < Pow2(WORD)
  {
    x % Pow2(WORD)
  }

  // mask(width), src/support/bits.cpp:8-12
  function Mask(width: nat): nat {
    Pow2(Min(width, WORD)) - 1
  }

  function Make(x: int, width: nat, signed: bool): Bits {
    Bits(U128(x) % Pow2(Min(width, WORD)), width, signed)
  }

  // The mathematical value as a signed 128-bit integer.
  function Value(b: Bits): int {
    if b.signed && 1 <= b.width <= WORD && b.raw >= Pow2(b.width - 1) then
      b.raw - Pow2(b.width)
    else
      Pow2Mono(Min(b.width, WORD), WORD);
      NumOf(WORD, true, b.raw)
  }

  function CastTo(v: Bits, width: nat, signed: bool): Bits {
    Make(Value(v), width, signed)
  }

  function Add(a: Bits, b: Bits): Bits {
    Make(Value(a) + Value(b), Max(a.width, b.width) + 1, a.signed || b.signed)
  }

  function Sub(a: Bits, b: Bits): Bits {
    Make(Value(a) - Value(b), Max(a.width, b.width) + 1, true)
  }

  function Mul(a: Bits, b: Bits): Bits {
    Make(Value(a) * Value(b), a.width + b.width, a.signed || b.signed)
  }

  lemma ValueZero(b: Bits)
    ensures Value(b) == 0 <==> b.raw == 0
  {
    Pow2Mono(Min(b.width, WORD), WORD);
  }

  function Divide(a: Bits, b: Bits): Bits {
    if b.raw == 0 then Make(0, a.width, a.signed)
    else if a.signed || b.signed then
      ValueZero(b);
      Make(TruncDiv(Value(a), Value(b)), a.width + 1, true)
    else
      Make(a.raw / b.raw, a.width, false)
  }

  function Remainder(a: Bits, b: Bits): Bits {
    var w := Min(a.width, b.width);
    if b.raw == 0 then Make(0, w, a.signed || b.signed)
    else
      ValueZero(b);
      Make(TruncRem(Value(a), Value(b)), w, a.signed || b.signed)
  }

  function Neg(a: Bits): Bits {
    Make(-Value(a), a.width + 1, true)
  }

  function Bitwise(f: BitFn, a: Bits, b: Bits): Bits {
    Make(BitOp(f, U128(Value(a)), U128(Value(b)), WORD), Max(a.width, b.width), a.signed || b.signed)
  }

  function BitNot(a: Bits): Bits {
    Make(Pow2(WORD) - 1 - a.raw, a.width, a.signed)
  }

  // static_cast<unsigned>(b.raw): the shift amount is cut to 32 bits.
  function ShiftAmount(b: Bits): nat {
    b.raw % Pow2(32)
  }

  function Shl(a: Bits, b: Bits): Bits {
    var amount := ShiftAmount(b);
    if amount >= a.width then Make(0, a.width, a.signed)
    else Make(a.raw * Pow2(amount), a.width, a.signed)
  }

  function Shr(a: Bits, b: Bits): Bits {
    var amount := ShiftAmount(b);
    if amount >= a.width then
      if a.signed then Make(if Value(a) >= 0 then 0 else -1, a.width, true)
      else Make(0, a.width, false)
    else if a.signed then Make(Value(a) / Pow2(amount), a.width, true)
    else Make(a.raw / Pow2(amount), a.width, false)
  }

  predicate Holds(op: Cmp, x: int, y: int) {
    match op
    case Lt => x < y
    case Le => x <= y
    case Gt => x > y
    case Ge => x >= y
    case Eq => x == y
    case Ne => x != y
  }

  function Flag(c: bool): Bits {
    Make(if c then 1 else 0, 1, false)
  }

  function Compare(a: Bits, b: Bits, op: Cmp): Bits {
    Flag(if a.signed then Holds(op, Value(a), Value(b)) else Holds(op, a.raw, b.raw))
  }

  // ------------------------------------------------ the numbers of the language

  predicate WidthOk(w: nat) { 1 <= w <= WORD }

  // The number a value denotes.
  function Num(b: Bits): (n: int)
    requires WidthOk(b.width)
    ensures InRange(n, b.width, b.signed)
  {
    NumOf(b.width, b.signed, b.raw)
  }

  // The number left when n is cut to w bits.
  function Wrap(w: nat, signed: bool, n: int): (r: int)
    requires w > 0
    ensures InRange(r, w, signed)
  {
    NumOf(w, signed, n % Pow2(w))
  }

  lemma WrapInRange(w: nat, signed: bool, n: int)
    requires w > 0 && InRange(n, w, signed)
    ensures Wrap(w, signed, n) == n
  {
    NumOfRaw(w, signed, n);
  }

  // `Value` misreads a number exactly when it is unsigned and needs bit 127.
  lemma ValueIsNum(b: Bits)
    requires WidthOk(b.width)
    ensures Value(b) == Num(b) <==> b.signed || b.raw < Pow2(WORD - 1)
    ensures b.width < WORD || b.signed ==> Value(b) == Num(b)
  {
    Pow2Mono(b.width - 1, WORD - 1);
    if b.width < WORD {
      Pow2Mono(b.width, WORD - 1);
    }
    assert Pow2(WORD) == 2 * Pow2(WORD - 1);
  }

  // Either way it is right modulo 2^128.
  lemma ValueCong(b: Bits)
    requires WidthOk(b.width)
    ensures U128(Value(b)) == U128(Num(b))
  {
    ValueIsNum(b);
    if Value(b) != Num(b) {
      assert Value(b) == Num(b) + -1 * Pow2(WORD);
      ModPlus(Num(b), -1, Pow2(WORD));
    }
  }

  lemma RawIsNum(b: Bits)
    requires WidthOk(b.width)
    ensures Num(b) % Pow2(b.width) == b.raw
    ensures b.raw == 0 <==> Num(b) == 0
    ensures !b.signed ==> Num(b) == b.raw
  {
    RawOfNum(b.width, b.signed, b.raw);
  }

  // Making a value keeps the low bits of any integer congruent to it.
  lemma MakeWraps(x: int, n: int, w: nat, signed: bool)
    requires WidthOk(w) && U128(x) == U128(n)
    ensures Make(x, w, signed).raw == n % Pow2(w)
    ensures Num(Make(x, w, signed)) == Wrap(w, signed, n)
    ensures InRange(n, w, signed) ==> Num(Make(x, w, signed)) == n
  {
    ModMod(n, WORD, w);
    if InRange(n, w, signed) {
      WrapInRange(w, signed, n);
    }
  }

  // A cast keeps the low bits of the number; a widening keeps the number.
  lemma CastExact(v: Bits, w: nat, signed: bool)
    requires WidthOk(v.width) && WidthOk(w)
    ensures CastTo(v, w, signed).raw == Num(v) % Pow2(w)
    ensures Num(CastTo(v, w, signed)) == Wrap(w, signed, Num(v))
    ensures InRange(Num(v), w, signed) ==> Num(CastTo(v, w, signed)) == Num(v)
  {
    ValueCong(v);
    MakeWraps(Value(v), Num(v), w, signed);
  }

  // ------------------------------------------------------------ exact arithmetic

  lemma SumRange(x: int, y: int, wa: nat, wb: nat, signed: bool)
    requires 0 < wa && 0 < wb && InRange(x, wa, signed) && InRange(y, wb, signed)
    ensures InRange(x + y, Max(wa, wb) + 1, signed)
    ensures InRange(x - y, Max(wa, wb) + 1, true)
  {
    var w := Max(wa, wb);
    RangeWidens(x, wa, w, signed);
    RangeWidens(y, wb, w, signed);
    assert Pow2(w + 1) == 2 * Pow2(w);
    assert Pow2(w) == 2 * Pow2(w - 1);
  }

  lemma AddExact(a: Bits, b: Bits)
    requires WidthOk(a.width) && WidthOk(b.width) && a.signed == b.signed
    requires Max(a.width, b.width) + 1 <= WORD
    ensures Num(Add(a, b)) == Num(a) + Num(b)
  {
    hide Pow2, NumOf;
    SumRange(Num(a), Num(b), a.width, b.width, a.signed);
    ValueIsNum(a);
    ValueIsNum(b);
    MakeWraps(Value(a) + Value(b), Num(a) + Num(b), Max(a.width, b.width) + 1, a.signed);
  }

  lemma SubExact(a: Bits, b: Bits)
    requires WidthOk(a.width) && WidthOk(b.width) && a.signed == b.signed
    requires Max(a.width, b.width) + 1 <= WORD
    ensures Num(Sub(a, b)) == Num(a) - Num(b)
  {
    hide Pow2, NumOf;
    SumRange(Num(a), Num(b), a.width, b.width, a.signed);
    ValueIsNum(a);
    ValueIsNum(b);
    MakeWraps(Value(a) - Value(b), Num(a) - Num(b), Max(a.width, b.width) + 1, true);
  }

  lemma MulMono(x: int, y: int, p: int, q: int)
    requires 0 <= x <= p && 0 <= y <= q
    ensures 0 <= x * y <= p * q
  {
    assert x * y <= p * y && p * y <= p * q;
  }

  lemma MulAbs(x: int, y: int)
    ensures Abs(x * y) == Abs(x) * Abs(y)
  {
    NegMul(Abs(x), Abs(y));
  }

  lemma ProductRange(x: int, y: int, wa: nat, wb: nat, signed: bool)
    requires 0 < wa && 0 < wb && InRange(x, wa, signed) && InRange(y, wb, signed)
    ensures InRange(x * y, wa + wb, signed)
  {
    if signed {
      MulAbs(x, y);
      MulMono(Abs(x), Abs(y), Pow2(wa - 1), Pow2(wb - 1));
      Pow2Add(wa - 1, wb - 1);
      assert Pow2(wa + wb - 1) == 2 * Pow2(wa + wb - 2);
    } else {
      MulMono(x, y, Pow2(wa) - 1, Pow2(wb) - 1);
      Pow2Add(wa, wb);
      assert (Pow2(wa) - 1) * (Pow2(wb) - 1) == Pow2(wa) * Pow2(wb) - Pow2(wa) - Pow2(wb) + 1;
    }
  }

  lemma MulExact(a: Bits, b: Bits)
    requires WidthOk(a.width) && WidthOk(b.width) && a.signed == b.signed
    requires a.width + b.width <= WORD
    ensures Num(Mul(a, b)) == Num(a) * Num(b)
  {
    ProductRange(Num(a), Num(b), a.width, b.width, a.signed);
    ValueIsNum(a);
    ValueIsNum(b);
    MakeWraps(Value(a) * Value(b), Num(a) * Num(b), a.width + b.width, a.signed);
  }

  lemma NegExact(a: Bits)
    requires WidthOk(a.width) && a.width + 1 <= WORD
    ensures Num(Neg(a)) == -Num(a)
  {
    ValueIsNum(a);
    assert Pow2(a.width) == 2 * Pow2(a.width - 1);
    MakeWraps(-Value(a), -Num(a), a.width + 1, true);
  }

  // The language's quotient and remainder: 0 for a zero divisor.
  function Quotient(x: int, y: int): int {
    if y == 0 then 0 else TruncDiv(x, y)
  }

  function Residue(x: int, y: int): int {
    if y == 0 then 0 else TruncRem(x, y)
  }

  // LANGUAGE.md:586-589
  lemma QuotientResidue(x: int, y: int)
    requires y != 0
    ensures Quotient(x, y) * y + Residue(x, y) == x
    ensures Abs(Residue(x, y)) < Abs(y)
    ensures Residue(x, y) == 0 || (Residue(x, y) < 0 <==> x < 0)
  {
    TruncDivRem(x, y);
  }

  lemma QuotientRange(x: int, y: int, wa: nat, wb: nat, signed: bool)
    requires 0 < wa && 0 < wb && InRange(x, wa, signed) && InRange(y, wb, signed)
    ensures InRange(Quotient(x, y), if signed then wa + 1 else wa, signed)
    ensures InRange(Residue(x, y), Min(wa, wb), signed)
  {
    if y != 0 {
      TruncDivRem(x, y);
    }
  }

  lemma DivideExact(a: Bits, b: Bits)
    requires WidthOk(a.width) && WidthOk(b.width) && a.signed == b.signed
    requires a.signed ==> a.width + 1 <= WORD
    ensures Num(Divide(a, b)) == Quotient(Num(a), Num(b))
    ensures Divide(a, b).signed == a.signed
  {
    QuotientRange(Num(a), Num(b), a.width, b.width, a.signed);
    RawIsNum(b);
    RawIsNum(a);
    if b.raw == 0 {
      MakeWraps(0, 0, a.width, a.signed);
    } else if a.signed {
      ValueIsNum(a);
      ValueIsNum(b);
      MakeWraps(TruncDiv(Value(a), Value(b)), TruncDiv(Num(a), Num(b)), a.width + 1, true);
    } else {
      MakeWraps(a.raw / b.raw, TruncDiv(Num(a), Num(b)), a.width, false);
    }
  }

  // The width the type checker predicts for a quotient (src/sema/type_check.cpp:40-41)
  // is the width of the value unless a signed divisor is zero.
  lemma DivideWidth(a: Bits, b: Bits)
    requires a.signed == b.signed
    ensures Divide(a, b).width == (if a.signed then a.width + 1 else a.width) <==> !(a.signed && b.raw == 0)
  {
  }

  lemma RemainderExact(a: Bits, b: Bits)
    requires WidthOk(a.width) && WidthOk(b.width) && a.signed == b.signed
    requires a.signed || (a.width < WORD && b.width < WORD)
    ensures Num(Remainder(a, b)) == Residue(Num(a), Num(b))
  {
    QuotientRange(Num(a), Num(b), a.width, b.width, a.signed);
    RawIsNum(b);
    ValueIsNum(a);
    ValueIsNum(b);
    if b.raw == 0 {
      MakeWraps(0, 0, Min(a.width, b.width), a.signed);
    } else {
      MakeWraps(TruncRem(Value(a), Value(b)), TruncRem(Num(a), Num(b)), Min(a.width, b.width), a.signed);
    }
  }

  // ------------------------------------------------------------- exact bit work

  lemma BitwiseExact(f: BitFn, a: Bits, b: Bits)
    requires WidthOk(a.width) && WidthOk(b.width) && a.signed == b.signed
    ensures Num(Bitwise(f, a, b)) == IntOp(f, Num(a), Num(b))
  {
    var w := Max(a.width, b.width);
    var n := IntOp(f, Num(a), Num(b));
    RangeWidens(Num(a), a.width, w, a.signed);
    RangeWidens(Num(b), b.width, w, a.signed);
    IntOpRange(f, Num(a), Num(b), w, a.signed);
    ValueCong(a);
    ValueCong(b);
    IntOpLow(f, Num(a), Num(b), WORD);
    ModSmall(U128(n), Pow2(WORD));
    MakeWraps(BitOp(f, U128(Value(a)), U128(Value(b)), WORD), n, w, a.signed);
  }

  // The complement of n: -1 - n for a signed value, 2^w - 1 - n for an unsigned one.
  function Complement(w: nat, signed: bool, n: int): int {
    if signed then -1 - n else Pow2(w) - 1 - n
  }

  lemma ComplementRange(n: int, w: nat, signed: bool)
    requires w > 0 && InRange(n, w, signed)
    ensures InRange(Complement(w, signed, n), w, signed)
    ensures Complement(w, signed, n) % Pow2(w) == Pow2(w) - 1 - n % Pow2(w)
  {
    var m := Pow2(w);
    assert m == 2 * Pow2(w - 1);
    ComplementMod(n, m);
    if !signed {
      ModSmall(n, m);
      ModSmall(m - 1 - n, m);
    }
  }

  lemma ComplementMod(n: int, m: int)
    requires m > 0
    ensures (-1 - n) % m == m - 1 - n % m
  {
    var q, r := n / m, n % m;
    assert n == m * q + r;
    assert -1 - n == (-q - 1) * m + (m - 1 - r);
    DivModIs(-1 - n, m, -q - 1, m - 1 - r);
  }

  // Complementing all 128 bits complements the low w bits.
  lemma OnesLow(r: nat, w: nat)
    requires w <= WORD && r < Pow2(w)
    ensures 0 <= Pow2(WORD) - 1 - r
    ensures (Pow2(WORD) - 1 - r) % Pow2(w) == Pow2(w) - 1 - r
  {
    Pow2Add(WORD - w, w);
    Pow2Mono(w, WORD);
    OnesMod(Pow2(WORD - w), Pow2(w), r);
  }

  lemma OnesMod(k: int, m: nat, r: nat)
    requires k > 0 && r < m
    ensures (k * m - 1 - r) % m == m - 1 - r
  {
    DivModIs(k * m - 1 - r, m, k - 1, m - 1 - r);
  }

  lemma BitNotExact(a: Bits)
    requires WidthOk(a.width)
    ensures Num(BitNot(a)) == Complement(a.width, a.signed, Num(a))
  {
    var n := Complement(a.width, a.signed, Num(a));
    RawIsNum(a);
    ComplementRange(Num(a), a.width, a.signed);
    OnesLow(a.raw, a.width);
    ModSmall(Pow2(WORD) - 1 - a.raw, Pow2(WORD));
    assert BitNot(a).raw == n % Pow2(a.width);
    NumOfRaw(a.width, a.signed, n);
  }

  lemma CompareExact(a: Bits, b: Bits, op: Cmp)
    requires WidthOk(a.width) && WidthOk(b.width) && a.signed == b.signed
    ensures Num(Compare(a, b, op)) == if Holds(op, Num(a), Num(b)) then 1 else 0
  {
    ValueIsNum(a);
    ValueIsNum(b);
    FlagIs(Holds(op, Num(a), Num(b)));
  }

  lemma FlagIs(c: bool)
    ensures Flag(c) == Bits(if c then 1 else 0, 1, false)
  {
    var x := if c then 1 else 0;
    Pow2Mono(1, WORD);
    assert Pow2(1) == 2;
    ModSmall(x, Pow2(WORD));
    ModSmall(x, Pow2(1));
  }

  // ---------------------------------------------------------------------- shifts

  // A shift amount the source reads correctly for a left operand of width w.
  predicate AmountOk(k: nat, w: nat) {
    k < Pow2(32) || k % Pow2(32) >= w
  }

  lemma MulPow2Mod(n: int, k: nat, w: nat)
    requires k >= w
    ensures n * Pow2(k) % Pow2(w) == 0
  {
    Pow2Add(k - w, w);
    MulAssoc(n, Pow2(k - w), Pow2(w));
    ModPlus(0, n * Pow2(k - w), Pow2(w));
  }

  // Multiplying a pattern or its number by the same factor leaves the same bits.
  lemma ScaledCong(a: Bits, f: int)
    requires WidthOk(a.width)
    ensures a.raw * f % Pow2(a.width) == Num(a) * f % Pow2(a.width)
  {
    RawIsNum(a);
    ModMul(Num(a), f, Pow2(a.width));
    ModMul(a.raw, f, Pow2(a.width));
    ModSmall(a.raw, Pow2(a.width));
  }

  lemma ShlExact(a: Bits, b: Bits)
    requires WidthOk(a.width) && AmountOk(b.raw, a.width)
    ensures Num(Shl(a, b)) == Wrap(a.width, a.signed, Num(a) * Pow2(b.raw))
  {
    var w, k := a.width, ShiftAmount(b);
    if k >= w {
      AmountGrows(b.raw);
      MulPow2Mod(Num(a), b.raw, w);
      MakeWraps(0, 0, w, a.signed);
      ModSmall(0, Pow2(w));
    } else {
      ModSmall(b.raw, Pow2(32));
      ScaledCong(a, Pow2(k));
      MakeWraps(a.raw * Pow2(k), a.raw * Pow2(k), w, a.signed);
    }
  }

  lemma AmountGrows(k: nat)
    ensures k % Pow2(32) <= k
  {
    AbsDivRem(k, Pow2(32));
  }

  // Shifting right past the top leaves only the sign.
  lemma FloorFar(n: int, w: nat, k: nat, signed: bool)
    requires 0 < w <= k && InRange(n, w, signed)
    ensures n / Pow2(k) == if n < 0 then -1 else 0
  {
    Pow2Mono(w, k);
    if n < 0 {
      DivModIs(n, Pow2(k), -1, n + Pow2(k));
    } else {
      DivModIs(n, Pow2(k), 0, n);
    }
  }

  lemma FloorBetween(n: int, m: int)
    requires m > 0
    ensures n >= 0 ==> 0 <= n / m <= n
    ensures n < 0 ==> n <= n / m < 0
  {
    var q, r := n / m, n % m;
    assert n == m * q + r;
    MultipleIsFar(m, q);
    if n >= 0 {
      AbsDivRem(n, m);
    } else if m > 1 {
      MultipleIsFar(m - 1, q);
      assert m * q == (m - 1) * q + q;
    }
  }

  lemma FloorRange(n: int, w: nat, k: nat, signed: bool)
    requires 0 < w && InRange(n, w, signed)
    ensures InRange(n / Pow2(k), w, signed)
  {
    FloorBetween(n, Pow2(k));
  }

  lemma ShrExact(a: Bits, b: Bits)
    requires WidthOk(a.width) && AmountOk(b.raw, a.width)
    ensures Num(Shr(a, b)) == Num(a) / Pow2(b.raw)
  {
    var w, k := a.width, ShiftAmount(b);
    ValueIsNum(a);
    RawIsNum(a);
    FloorRange(Num(a), w, b.raw, a.signed);
    AmountGrows(b.raw);
    if k >= w {
      FloorFar(Num(a), w, b.raw, a.signed);
      MakeWraps(Num(a) / Pow2(b.raw), Num(a) / Pow2(b.raw), w, a.signed);
    } else {
      ModSmall(b.raw, Pow2(32));
      MakeWraps(Num(a) / Pow2(k), Num(a) / Pow2(k), w, a.signed);
    }
  }
}
