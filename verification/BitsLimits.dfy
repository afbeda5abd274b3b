/**
 Where the value operations and the language part company, exactly.

 The source cuts a shift amount to 32 bits (src/support/bits.cpp:46,132) and
 takes every remainder through a signed 128-bit reading (src/support/bits.cpp:94).
 Each lemma gives the condition on widths and amounts under which the operation
 is the language's for every operand, and no other.
 */
module BitsLimits {
  import opened Arith
  import opened FixedWidth

  lemma WidthBelow32(w: nat)
    requires WidthOk(w)
    ensures w < Pow2(32)
  {
    assert Pow2(8) == 256;
    Pow2Mono(8, 32);
  }

  // A left shift by b is right for every operand of width w, or wrong for 1.
  lemma ShlExactIff(w: nat, signed: bool, b: Bits)
    requires WidthOk(w)
    ensures AmountOk(b.raw, w) <==>
            forall a: Bits | a.width == w && a.signed == signed ::
              Num(Shl(a, b)) == Wrap(w, signed, Num(a) * Pow2(b.raw))
  {
    if AmountOk(b.raw, w) {
      forall a: Bits | a.width == w && a.signed == signed
        ensures Num(Shl(a, b)) == Wrap(w, signed, Num(a) * Pow2(b.raw))
      {
        ShlExact(a, b);
      }
    } else {
      var k := ShiftAmount(b);
      WidthBelow32(w);
      Pow2Strict(k, w);
      Pow2Mono(0, w);
      var a: Bits := Bits(1, w, signed);
      MakeWraps(Pow2(k), Pow2(k), w, signed);
      ModSmall(Pow2(k), Pow2(w));
      assert Shl(a, b).raw == Pow2(k);
      MulPow2Mod(Num(a), b.raw, w);
      assert Wrap(w, signed, Num(a) * Pow2(b.raw)) == 0;
      RawIsNum(Shl(a, b));
    }
  }

  // An amount of 2^32 shifts nothing out: 1 << 2^32 is 1.
  lemma AmountCut(w: nat)
    requires WidthOk(w)
    ensures Pow2(32) < Pow2(64) && !AmountOk(Pow2(32), w)
    ensures Shl(Bits(1, w, false), Bits(Pow2(32), 64, false)).raw == 1
    ensures Wrap(w, false, Pow2(Pow2(32))) == 0
  {
    hide Pow2, Mask, Value;
    WidthBelow32(w);
    Pow2Strict(32, 64);
    DivModIs(Pow2(32), Pow2(32), 1, 0);
    UnitShift(w);
    MulPow2Mod(1, Pow2(32), w);
  }

  lemma UnitShift(w: nat)
    requires WidthOk(w)
    ensures 1 < Pow2(w) && Make(1 * Pow2(0), w, false).raw == 1
  {
    Pow2Strict(0, w);
    MakeWraps(1, 1, w, false);
    ModSmall(1, Pow2(w));
  }

  // A right shift is also right when the cut amount is w - 1 and the operand
  // signed: every sign bit is already out.
  lemma ShrExactIff(w: nat, signed: bool, b: Bits)
    requires WidthOk(w)
    ensures AmountOk(b.raw, w) || (signed && b.raw % Pow2(32) == w - 1) <==>
            forall a: Bits | a.width == w && a.signed == signed ::
              Num(Shr(a, b)) == Num(a) / Pow2(b.raw)
  {
    WidthBelow32(w);
    if AmountOk(b.raw, w) {
      forall a: Bits | a.width == w && a.signed == signed
        ensures Num(Shr(a, b)) == Num(a) / Pow2(b.raw)
      {
        ShrExact(a, b);
      }
    } else if signed && b.raw % Pow2(32) == w - 1 {
      forall a: Bits | a.width == w && a.signed == signed
        ensures Num(Shr(a, b)) == Num(a) / Pow2(b.raw)
      {
        ShrCut(a, b, w - 1);
        FloorSign(Num(a), w);
        FloorFar(Num(a), w, b.raw, signed);
      }
    } else {
      var a := ShrWitness(w, signed, b);
    }
  }

  // A cut amount below the width shifts the top bit alone somewhere it shows.
  lemma ShrWitness(w: nat, signed: bool, b: Bits) returns (a: Bits)
    requires WidthOk(w) && !AmountOk(b.raw, w) && !(signed && b.raw % Pow2(32) == w - 1)
    ensures a.width == w && a.signed == signed && Num(Shr(a, b)) != Num(a) / Pow2(b.raw)
  {
    hide Shr, FixedWidth.Value;
    var k := ShiftAmount(b);
    Pow2Strict(w - 1, w);
    a := Bits(Pow2(w - 1), w, signed);
    ShrCut(a, b, k);
    FloorFar(Num(a), w, b.raw, signed);
    Pow2Add(w - 1 - k, k);
    var h := Pow2(w - 1 - k);
    if signed {
      assert Num(a) == -h * Pow2(k) by {
        NegMul(h, Pow2(k));
      }
      DivModIs(Num(a), Pow2(k), -h, 0);
      Pow2Strict(0, w - 1 - k);
    } else {
      DivModIs(Num(a), Pow2(k), h, 0);
    }
  }

  // A right shift by an amount that survives the cut below the width.
  lemma ShrCut(a: Bits, b: Bits, k: nat)
    requires WidthOk(a.width) && k == ShiftAmount(b) < a.width
    ensures Num(Shr(a, b)) == Num(a) / Pow2(k)
  {
    ValueIsNum(a);
    RawIsNum(a);
    FloorRange(Num(a), a.width, k, a.signed);
    MakeWraps(Num(a) / Pow2(k), Num(a) / Pow2(k), a.width, a.signed);
  }

  lemma FloorSign(n: int, w: nat)
    requires WidthOk(w) && InRange(n, w, true)
    ensures n / Pow2(w - 1) == if n < 0 then -1 else 0
  {
    if n < 0 {
      DivModIs(n, Pow2(w - 1), -1, n + Pow2(w - 1));
    } else {
      DivModIs(n, Pow2(w - 1), 0, n);
    }
  }

  predicate RemainderAgrees(a: Bits, b: Bits)
    requires WidthOk(a.width) && WidthOk(b.width)
  {
    Num(Remainder(a, b)) == Residue(Num(a), Num(b))
  }

  // Unsigned remainder at widths wa, wb: wrong for some pair exactly when an
  // operand can need bit 127.
  lemma RemainderExactIff(wa: nat, wb: nat)
    requires WidthOk(wa) && WidthOk(wb)
    ensures wb < WORD && (wa < WORD || wb == 1) <==>
            forall a: Bits, b: Bits |
              a.width == wa && b.width == wb && !a.signed && !b.signed :: RemainderAgrees(a, b)
  {
    if wb < WORD && (wa < WORD || wb == 1) {
      forall a: Bits, b: Bits | a.width == wa && b.width == wb && !a.signed && !b.signed
        ensures RemainderAgrees(a, b)
      {
        if wa < WORD {
          RemainderExact(a, b);
        } else {
          RemainderOfBit(a, b);
        }
      }
    } else if wb == WORD {
      var a, b := RemainderWitnessDivisor(wa);
      assert !RemainderAgrees(a, b);
    } else {
      var a, b := RemainderWitnessDividend(wb);
      assert !RemainderAgrees(a, b);
    }
  }

  lemma RemainderOfBit(a: Bits, b: Bits)
    requires WidthOk(a.width) && b.width == 1 && !a.signed && !b.signed
    ensures RemainderAgrees(a, b)
  {
    assert Pow2(1) == 2;
    ValueIsNum(b);
    assert Num(b) != 0 ==> TruncRem(Value(a), Value(b)) == 0 && TruncRem(Num(a), Num(b)) == 0;
    MakeWraps(0, 0, 1, false);
  }

  // 1 % (2^128 - 1) comes out as 1 % -1.
  lemma RemainderWitnessDivisor(wa: nat) returns (a: Bits, b: Bits)
    requires WidthOk(wa)
    ensures a.width == wa && b.width == WORD && !a.signed && !b.signed
    ensures !RemainderAgrees(a, b)
  {
    Pow2Strict(0, wa);
    Pow2Strict(0, WORD - 1);
    assert Pow2(WORD) == 2 * Pow2(WORD - 1);
    a, b := Bits(1, wa, false), Bits(Pow2(WORD) - 1, WORD, false);
    ValueIsNum(a);
    assert Value(b) == -1;
    Pow2Strict(0, WORD);
    Pow2Mono(wa, WORD);
    MakeWraps(0, 0, wa, false);
    ModSmall(1, Pow2(WORD) - 1);
    assert TruncRem(Value(a), Value(b)) == 0;
    assert Pow2(WORD) - 1 >= 3;
    assert Residue(Num(a), Num(b)) == 1;
  }

  // (2^128 - 1) % 2 comes out as -1 % 2.
  lemma RemainderWitnessDividend(wb: nat) returns (a: Bits, b: Bits)
    requires 2 <= wb < WORD
    ensures a.width == WORD && b.width == wb && !a.signed && !b.signed
    ensures !RemainderAgrees(a, b)
  {
    assert Pow2(2) == 4;
    Pow2Mono(2, wb);
    assert Pow2(WORD) == 2 * Pow2(WORD - 1);
    a, b := Bits(Pow2(WORD) - 1, WORD, false), Bits(2, wb, false);
    ValueIsNum(b);
    assert Value(a) == -1;
    assert TruncRem(-1, 2) == -1;
    MakeWraps(-1, -1, wb, false);
    DivModIs(-1, Pow2(wb), -1, Pow2(wb) - 1);
    DivModIs(Pow2(WORD) - 1, 2, Pow2(WORD - 1) - 1, 1);
    assert Residue(Num(a), Num(b)) == 1;
  }

  // A left shift keeps the width of the value it is given.  Cut at one width or at
  // another, a number comes out the same exactly when the wider cut fits the
  // narrower width.
  lemma CutsAgreeIff(x: int, v: nat, w: nat, signed: bool)
    requires 0 < v <= w
    ensures Wrap(v, signed, x) == Wrap(w, signed, x) <==> InRange(Wrap(w, signed, x), v, signed)
  {
    hide Pow2;
    var y := Wrap(w, signed, x);
    NumMod(w, signed, x % Pow2(w), v);
    ModMod(x, w, v);
    if InRange(y, v, signed) {
      NumOfRaw(v, signed, y);
    }
  }

  // So the shift of a value of width v is the shift of its number at width w, for
  // every amount the 32-bit cut leaves alone, exactly in this case.
  predicate ShiftFits(n: int, k: nat, v: nat, w: nat, signed: bool)
    requires 0 < v && 0 < w
  {
    InRange(Wrap(Max(v, w), signed, n * Pow2(k)), Min(v, w), signed)
  }

  lemma ShiftFitsIff(a: Bits, k: Bits, w: nat)
    requires WidthOk(a.width) && w > 0 && AmountOk(k.raw, a.width)
    ensures Num(Shl(a, k)) == Wrap(w, a.signed, Num(a) * Pow2(k.raw)) <==>
            ShiftFits(Num(a), k.raw, a.width, w, a.signed)
  {
    hide Pow2, InRange, Wrap, ShiftFits, Shl;
    ShlExact(a, k);
    var x := Num(a) * Pow2(k.raw);
    if a.width <= w {
      CutsAgreeIff(x, a.width, w, a.signed);
      ShiftFitsAt(Num(a), k.raw, a.width, w, a.signed);
    } else {
      CutsAgreeIff(x, w, a.width, a.signed);
      ShiftFitsAt(Num(a), k.raw, a.width, w, a.signed);
    }
  }

  lemma ShiftFitsAt(n: int, k: nat, v: nat, w: nat, signed: bool)
    requires 0 < v && 0 < w
    ensures v <= w ==> (ShiftFits(n, k, v, w, signed) <==> InRange(Wrap(w, signed, n * Pow2(k)), v, signed))
    ensures w <= v ==> (ShiftFits(n, k, v, w, signed) <==> InRange(Wrap(v, signed, n * Pow2(k)), w, signed))
  {
    hide Wrap, InRange, Pow2;
  }

  // Where the value is as wide as the type, or zero, nothing can tell.
  lemma SameWidthFits(n: int, k: nat, v: nat, w: nat, signed: bool)
    requires 0 < v && 0 < w && (v == w || n == 0)
    ensures ShiftFits(n, k, v, w, signed)
  {
    if n == 0 {
      WrapInRange(Max(v, w), signed, 0);
    }
  }

  // An unsigned remainder is right when neither operand needs bit 127, or the
  // divisor is one bit.
  predicate RemainderFits(a: Bits, b: Bits) {
    (a.raw < Pow2(WORD - 1) && b.raw < Pow2(WORD - 1)) || b.width == 1
  }

  lemma RemainderWithin(a: Bits, b: Bits)
    requires WidthOk(a.width) && WidthOk(b.width) && a.signed == b.signed
    requires a.signed || RemainderFits(a, b)
    ensures Num(Remainder(a, b)) == Residue(Num(a), Num(b))
  {
    hide Pow2, Value, Make, TruncRem;
    if a.signed {
      RemainderExact(a, b);
    } else if b.width == 1 {
      RemainderOfBit(a, b);
    } else {
      UnsignedRemainder(a, b);
    }
  }

  lemma UnsignedRemainder(a: Bits, b: Bits)
    requires WidthOk(a.width) && WidthOk(b.width) && !a.signed && !b.signed
    requires a.raw < Pow2(WORD - 1) && b.raw < Pow2(WORD - 1)
    ensures Num(Remainder(a, b)) == Residue(Num(a), Num(b))
  {
    hide Pow2;
    QuotientRange(Num(a), Num(b), a.width, b.width, false);
    RawIsNum(b);
    ValueIsNum(a);
    ValueIsNum(b);
    if b.raw == 0 {
      MakeWraps(0, 0, Min(a.width, b.width), false);
    } else {
      MakeWraps(TruncRem(Value(a), Value(b)), TruncRem(Num(a), Num(b)), Min(a.width, b.width), false);
    }
  }
}
