/**
 Two's-complement arithmetic over unbounded integers: powers of two, residues,
 the number a bit pattern denotes, truncating division, and bitwise operations.
 */
module Arith {

  function Pow2(n: nat): (r: nat)
    ensures r > 0
  {
    if n == 0 then 1 else 2 * Pow2(n - 1)
  }

  lemma OneBit()
    ensures Pow2(1) == 2
  {
  }

  lemma {:induction false} Pow2Add(a: nat, b: nat)
    ensures Pow2(a + b) == Pow2(a) * Pow2(b)
  {
    if a > 0 {
      Pow2Add(a - 1, b);
      assert Pow2(a + b) == 2 * Pow2(a - 1 + b);
      MulAssoc(2, Pow2(a - 1), Pow2(b));
    }
  }

  lemma MulAssoc(a: int, b: int, c: int)
    ensures a * (b * c) == a * b * c
  {
  }

  lemma {:induction false} Pow2Mono(a: nat, b: nat)
    requires a <= b
    ensures Pow2(a) <= Pow2(b)
    decreases b
  {
    if a < b {
      Pow2Mono(a, b - 1);
    }
  }

  lemma {:induction false} Pow2Strict(a: nat, b: nat)
    requires a < b
    ensures 2 * Pow2(a) <= Pow2(b)
  {
    Pow2Mono(a + 1, b);
  }

  lemma {:induction false} Pow2Above(n: nat)
    ensures n < Pow2(n)
  {
    if n > 0 {
      Pow2Above(n - 1);
    }
  }

  // ---------------------------------------------------------------- residues

  lemma DivModIs(x: int, m: int, q: int, r: int)
    requires 0 <= r < m
    requires x == q * m + r
    ensures x % m == r && x / m == q
  {
    var d := x / m - q;
    assert x == m * (x / m) + x % m;
    assert m * (x / m) - q * m == m * d;
    assert m * d == r - x % m;
    MultipleIsFar(m, d);
  }

  lemma MultipleIsFar(m: int, d: int)
    requires m > 0
    ensures d > 0 ==> m * d >= m
    ensures d < 0 ==> m * d <= -m
  {
  }

  // Adding a multiple of the modulus changes nothing.
  lemma ModPlus(x: int, k: int, m: int)
    requires m > 0
    ensures (x + k * m) % m == x % m
  {
    var q, r := x / m, x % m;
    assert x == q * m + r;
    assert x + k * m == (q + k) * m + r;
    DivModIs(x + k * m, m, q + k, r);
  }

  lemma ModAdd(a: int, b: int, m: int)
    requires m > 0
    ensures (a % m + b % m) % m == (a + b) % m
  {
    var x := a % m + b % m;
    var k := a / m + b / m;
    assert a + b == x + k * m;
    ModPlus(x, k, m);
  }

  lemma ModSub(a: int, b: int, m: int)
    requires m > 0
    ensures (a % m - b % m) % m == (a - b) % m
  {
    var x := a % m - b % m;
    var k := a / m - b / m;
    assert a - b == x + k * m;
    ModPlus(x, k, m);
  }

  lemma ModMul(a: int, b: int, m: int)
    requires m > 0
    ensures ((a % m) * (b % m)) % m == (a * b) % m
  {
    var r, s := a % m, b % m;
    var p, q := a / m, b / m;
    calc {
      a * b;
      (p * m + r) * (q * m + s);
      r * s + (p * (q * m) + p * s + r * q) * m;
    }
    ModPlus(r * s, p * (q * m) + p * s + r * q, m);
  }

  lemma ModSmall(x: int, m: int)
    requires 0 <= x < m
    ensures x % m == x
  {
  }

  // Keeping the low b bits of the low a bits keeps the low b bits.
  lemma ModMod(x: int, a: nat, b: nat)
    requires b <= a
    ensures x % Pow2(a) % Pow2(b) == x % Pow2(b)
  {
    hide Pow2;
    Pow2Add(a - b, b);
    ModOfMultiple(x, Pow2(a - b), Pow2(b));
  }

  lemma ModOfMultiple(x: int, k: nat, n: nat)
    requires k > 0 && n > 0
    ensures k * n > 0 && x % (k * n) % n == x % n
  {
    MultipleIsFar(n, k);
    var m := k * n;
    var r, q := x % m, x / m;
    assert x == m * q + r;
    MulAssoc(q, k, n);
    ModPlus(r, q * k, n);
  }

  // ------------------------------------------------- bit patterns and numbers

  // The integers a w-bit pattern can denote.
  predicate InRange(n: int, w: nat, signed: bool)
    requires w > 0
  {
    if signed then 0 <= n + Pow2(w - 1) < Pow2(w) else 0 <= n < Pow2(w)
  }

  // The integer that the w-bit pattern raw denotes.
  function NumOf(w: nat, signed: bool, raw: nat): (n: int)
    requires w > 0 && raw < Pow2(w)
    ensures InRange(n, w, signed)
  {
    if signed && raw >= Pow2(w - 1) then raw - Pow2(w) else raw
  }

  // A pattern and its number are congruent, and a number in range comes back
  // from its pattern: the two directions of the two's-complement encoding.
  lemma RawOfNum(w: nat, signed: bool, raw: nat)
    requires w > 0 && raw < Pow2(w)
    ensures NumOf(w, signed, raw) % Pow2(w) == raw
  {
    if signed && raw >= Pow2(w - 1) {
      ModPlus(raw, -1, Pow2(w));
    }
    ModSmall(raw, Pow2(w));
  }

  lemma NumOfRaw(w: nat, signed: bool, n: int)
    requires w > 0 && InRange(n, w, signed)
    ensures NumOf(w, signed, n % Pow2(w)) == n
  {
    if n < 0 {
      DivModIs(n, Pow2(w), -1, n + Pow2(w));
    } else {
      if signed {
        assert Pow2(w) == 2 * Pow2(w - 1);
      }
      ModSmall(n, Pow2(w));
    }
  }

  // A pattern read one way and the other differ by a multiple of 2^w.
  lemma NumMod(w: nat, signed: bool, raw: nat, v: nat)
    requires w > 0 && raw < Pow2(w) && v <= w
    ensures NumOf(w, signed, raw) % Pow2(v) == raw % Pow2(v)
  {
    RawOfNum(w, signed, raw);
    ModMod(NumOf(w, signed, raw), w, v);
  }

  lemma RangeWidens(n: int, v: nat, w: nat, signed: bool)
    requires 0 < v <= w && InRange(n, v, signed)
    ensures InRange(n, w, signed)
  {
    Pow2Mono(v, w);
    Pow2Mono(v - 1, w - 1);
  }

  // -------------------------------------------- division truncating toward 0

  function Abs(x: int): nat {
    if x < 0 then -x else x
  }

  function TruncDiv(a: int, b: int): int
    requires b != 0
  {
    if (a < 0) == (b < 0) then Abs(a) / Abs(b) else -(Abs(a) / Abs(b))
  }

  function TruncRem(a: int, b: int): int
    requires b != 0
  {
    if a < 0 then -(Abs(a) % Abs(b)) else Abs(a) % Abs(b)
  }

  // Euclid's equation for the absolute values.
  lemma AbsDivRem(x: nat, y: nat)
    requires y > 0
    ensures x / y >= 0 && x / y * y + x % y == x && x % y <= x && x / y <= x
  {
    var q, r := x / y, x % y;
    assert x == y * q + r;
    MultipleIsFar(y, q);
    if q > 0 {
      MultipleIsFar(q, y);
    }
  }

  lemma TruncDivRem(a: int, b: int)
    requires b != 0
    ensures TruncDiv(a, b) * b + TruncRem(a, b) == a
    ensures Abs(TruncRem(a, b)) < Abs(b)
    ensures Abs(TruncRem(a, b)) <= Abs(a)
    ensures TruncRem(a, b) == 0 || (TruncRem(a, b) < 0 <==> a < 0)
    ensures Abs(TruncDiv(a, b)) <= Abs(a)
  {
    var q := Abs(a) / Abs(b);
    AbsDivRem(Abs(a), Abs(b));
    NegMul(q, Abs(b));
  }

  lemma NegMul(q: int, b: int)
    ensures -q * b == -(q * b) && q * -b == -(q * b) && -q * -b == q * b
  {
  }

  // ------------------------------------------------------------------ bitwise

  datatype BitFn = AndF | OrF | XorF

  function OnBit(f: BitFn, a: int, b: int): (r: int)
    requires 0 <= a < 2 && 0 <= b < 2
    ensures 0 <= r < 2
  {
    match f
    case AndF => if a == 1 && b == 1 then 1 else 0
    case OrF => if a == 1 || b == 1 then 1 else 0
    case XorF => if a != b then 1 else 0
  }

  // Bitwise f on w-bit patterns.
  function BitOp(f: BitFn, a: nat, b: nat, w: nat): (r: nat)
    ensures r < Pow2(w)
  {
    if w == 0 then 0 else OnBit(f, a % 2, b % 2) + 2 * BitOp(f, a / 2, b / 2, w - 1)
  }

  // Bitwise f on two's-complement integers of unbounded width.
  function IntOp(f: BitFn, m: int, n: int): int
    decreases Abs(m) + Abs(n)
  {
    if (m == 0 || m == -1) && (n == 0 || n == -1) then
      -OnBit(f, -m, -n)
    else
      OnBit(f, m % 2, n % 2) + 2 * IntOp(f, m / 2, n / 2)
  }

  lemma IntOpUnfold(f: BitFn, m: int, n: int)
    ensures IntOp(f, m, n) == OnBit(f, m % 2, n % 2) + 2 * IntOp(f, m / 2, n / 2)
  {
  }

  lemma BitOpUnfold(f: BitFn, a: nat, b: nat, w: nat)
    requires w > 0
    ensures BitOp(f, a, b, w) == OnBit(f, a % 2, b % 2) + 2 * BitOp(f, a / 2, b / 2, w - 1)
  {
  }

  // The low bits of an integer: its lowest bit and the low bits of its half.
  lemma LowBits(n: int, w: nat)
    requires w > 0
    ensures n % Pow2(w) % 2 == n % 2
    ensures n % Pow2(w) / 2 == n / 2 % Pow2(w - 1)
    ensures n % Pow2(w) == n % 2 + 2 * (n / 2 % Pow2(w - 1))
  {
    var m := Pow2(w - 1);
    var h := n / 2;
    var q, r := h / m, h % m;
    assert h == q * m + r && 0 <= r < m;
    assert n == n % 2 + 2 * (q * m + r);
    assert 2 * (q * m) == q * (2 * m);
    DivModIs(n, 2 * m, q, n % 2 + 2 * r);
  }

  // The unbounded operation, cut to w bits, is the w-bit operation.
  lemma {:induction false} IntOpLow(f: BitFn, m: int, n: int, w: nat)
    ensures IntOp(f, m, n) % Pow2(w) == BitOp(f, m % Pow2(w), n % Pow2(w), w)
    decreases w
  {
    if w > 0 {
      var z, a, b := IntOp(f, m, n), m % Pow2(w), n % Pow2(w);
      LowBits(m, w);
      LowBits(n, w);
      LowBits(z, w);
      IntOpHalves(f, m, n);
      IntOpLow(f, m / 2, n / 2, w - 1);
      BitOpUnfold(f, a, b, w);
    }
  }

  lemma IntOpHalves(f: BitFn, m: int, n: int)
    ensures IntOp(f, m, n) % 2 == OnBit(f, m % 2, n % 2)
    ensures IntOp(f, m, n) / 2 == IntOp(f, m / 2, n / 2)
  {
    IntOpUnfold(f, m, n);
  }

  // The unbounded operation stays in the range of its operands.
  lemma {:induction false} IntOpRange(f: BitFn, m: int, n: int, w: nat, signed: bool)
    requires w > 0
    requires InRange(m, w, signed) && InRange(n, w, signed)
    ensures InRange(IntOp(f, m, n), w, signed)
    decreases w
  {
    IntOpUnfold(f, m, n);
    if w > 1 {
      IntOpRange(f, m / 2, n / 2, w - 1, signed);
    } else if signed {
      assert Pow2(0) == 1;
    } else {
      assert Pow2(1) == 2;
      assert m / 2 == 0 && n / 2 == 0;
    }
  }

  // Exclusive or with all ones is the complement.
  lemma {:induction false} XorOnes(a: nat, w: nat)
    requires a < Pow2(w)
    ensures BitOp(XorF, a, Pow2(w) - 1, w) == Pow2(w) - 1 - a
  {
    if w > 0 {
      var ones := Pow2(w) - 1;
      assert ones == 1 + 2 * (Pow2(w - 1) - 1);
      DivModIs(ones, 2, Pow2(w - 1) - 1, 1);
      XorOnes(a / 2, w - 1);
    }
  }
}
