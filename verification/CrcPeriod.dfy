/**
 x^(2^32) is x modulo the CRC polynomial, so the table of x^(2^n) for n < 32 may be
 indexed modulo 32 (zlib/crc32.c:584).  The 32 squarings are evaluated on four-byte
 words, which are shown to compute what the polynomials do.
 */
module CrcPeriod {
  import opened BitOps
  import opened CrcPoly

  // ------------------------------------------------------------------ bytes

  function Val(a: bv8): nat {
    a as int
  }

  function ByteXor(a: bv8, b: bv8): bv8 {
    a ^ b
  }

  predicate ByteOdd(a: bv8) {
    a & 1 == 1
  }

  /** Half of a, taking in the low bit of the next byte. */
  function ByteHalf(a: bv8, b: bv8): bv8 {
    (a >> 1) | (b << 7)
  }

  lemma ShiftDown(a: bv8)
    ensures Val(a >> 1) == Val(a) / 2
  {
  }

  lemma ShiftUp(b: bv8)
    ensures Val(b << 7) == 128 * (Val(b) % 2)
  {
  }

  lemma Together(a: bv8, b: bv8)
    ensures Val((a >> 1) | (b << 7)) == Val(a >> 1) + Val(b << 7)
  {
  }

  lemma HalfValue(a: bv8, b: bv8)
    ensures Val(ByteHalf(a, b)) == Val(a) / 2 + 128 * (Val(b) % 2)
  {
    hide Val;
    ShiftDown(a);
    ShiftUp(b);
    Together(a, b);
  }

  lemma OddValue(a: bv8)
    ensures ByteOdd(a) <==> Val(a) % 2 == 1
    ensures Val(a) < 256 && (Val(a) == 0 ==> a == 0)
    ensures Val(0) == 0
  {
  }

  lemma XorParts(a: bv8, b: bv8)
    ensures ByteHalf(ByteXor(a, b), 0) == ByteXor(ByteHalf(a, 0), ByteHalf(b, 0))
    ensures ByteOdd(ByteXor(a, b)) <==> ByteOdd(a) != ByteOdd(b)
    ensures ByteXor(0, 0) == 0
  {
  }

  lemma {:induction false} XorValue(a: bv8, b: bv8, n: nat)
    requires Val(a) < Pow2(n) && Val(b) < Pow2(n)
    ensures Xor(Val(a), Val(b)) == Val(ByteXor(a, b))
    decreases n
  {
    hide Xor, Val, ByteXor, ByteHalf;
    HalfOf(a);
    HalfOf(b);
    if n == 0 {
      OddValue(a);
      OddValue(b);
      XorParts(a, b);
      XorZero(0);
    } else {
      XorValue(ByteHalf(a, 0), ByteHalf(b, 0), n - 1);
      XorValueFrom(a, b);
    }
  }

  lemma HalfOf(a: bv8)
    ensures Val(ByteHalf(a, 0)) == Val(a) / 2
  {
    hide Val, ByteHalf;
    OddValue(0);
    HalfValue(a, 0);
  }

  /** The highest seven bits agree, and the lowest. */
  lemma XorValueFrom(a: bv8, b: bv8)
    requires Xor(Val(ByteHalf(a, 0)), Val(ByteHalf(b, 0))) == Val(ByteXor(ByteHalf(a, 0), ByteHalf(b, 0)))
    ensures Xor(Val(a), Val(b)) == Val(ByteXor(a, b))
  {
    hide Xor, Val, ByteXor, ByteOdd, ByteHalf;
    OddValue(a);
    OddValue(b);
    OddValue(ByteXor(a, b));
    XorParts(a, b);
    HalfOf(a);
    HalfOf(b);
    HalfOf(ByteXor(a, b));
    XorHalf(Val(a), Val(b));
    SameHalves(Xor(Val(a), Val(b)), Val(ByteXor(a, b)));
  }

  lemma SameHalves(x: nat, y: nat)
    requires x % 2 == y % 2 && x / 2 == y / 2
    ensures x == y
  {
  }

  // ------------------------------------------------------------------ words

  datatype Quad = Quad(b0: bv8, b1: bv8, b2: bv8, b3: bv8)

  function Value(q: Quad): nat {
    Val(q.b0) + 256 * (Val(q.b1) + 256 * (Val(q.b2) + 256 * Val(q.b3)))
  }

  function Of(v: bv32): Quad {
    Quad((v & 0xff) as bv8, ((v >> 8) & 0xff) as bv8, ((v >> 16) & 0xff) as bv8, ((v >> 24) & 0xff) as bv8)
  }

  function Plus(p: Quad, q: Quad): Quad {
    Quad(ByteXor(p.b0, q.b0), ByteXor(p.b1, q.b1), ByteXor(p.b2, q.b2), ByteXor(p.b3, q.b3))
  }

  function Half(q: Quad): Quad {
    Quad(ByteHalf(q.b0, q.b1), ByteHalf(q.b1, q.b2), ByteHalf(q.b2, q.b3), ByteHalf(q.b3, 0))
  }

  /** The number in a machine word. */
  function Num(v: bv32): nat {
    Value(Of(v))
  }

  lemma Shl256(x: nat)
    ensures Shl(x, 8) == 256 * x
  {
    assert Shl(x, 1) == 2 * x;
    assert Shl(x, 2) == 4 * x;
    assert Shl(x, 4) == 4 * Shl(x, 2);
    assert Shl(x, 6) == 4 * Shl(x, 4);
    assert Shl(x, 8) == 4 * Shl(x, 6);
  }

  lemma XorJoin(x1: nat, x0: nat, y1: nat, y0: nat)
    requires x0 < 256 && y0 < 256
    ensures Xor(x0 + 256 * x1, y0 + 256 * y1) == Xor(x0, y0) + 256 * Xor(x1, y1)
  {
    hide Shl, Xor;
    assert Pow2(8) == 256;
    XorBound(x0, y0, 8);
    hide Xor, Shl;
    Shl256(x1);
    Shl256(y1);
    Shl256(Xor(x1, y1));
    XorDisjoint(x1, x0, 8);
    XorDisjoint(y1, y0, 8);
    XorSwap(Shl(x1, 8), x0, Shl(y1, 8), y0);
    ShlXor(x1, y1, 8);
    XorDisjoint(Xor(x1, y1), Xor(x0, y0), 8);
  }

  lemma PlusIsXor(p: Quad, q: Quad)
    ensures Value(Plus(p, q)) == Xor(Value(p), Value(q))
  {
    hide Xor, Val, ByteXor, Pow2;
    Byte(p.b0, q.b0);
    Byte(p.b1, q.b1);
    Byte(p.b2, q.b2);
    Byte(p.b3, q.b3);
    XorJoin(Val(p.b3), Val(p.b2), Val(q.b3), Val(q.b2));
    XorJoin(Val(p.b2) + 256 * Val(p.b3), Val(p.b1), Val(q.b2) + 256 * Val(q.b3), Val(q.b1));
    XorJoin(Val(p.b1) + 256 * (Val(p.b2) + 256 * Val(p.b3)), Val(p.b0),
            Val(q.b1) + 256 * (Val(q.b2) + 256 * Val(q.b3)), Val(q.b0));
  }

  lemma Byte(a: bv8, b: bv8)
    ensures Val(a) < 256 && Val(b) < 256 && Xor(Val(a), Val(b)) == Val(ByteXor(a, b))
  {
    hide Val, ByteXor, Xor;
    assert Pow2(8) == 256;
    OddValue(a);
    OddValue(b);
    XorValue(a, b, 8);
  }

  lemma HalfJoin(low: nat, high: nat)
    ensures (low + 256 * high) / 2 == low / 2 + 128 * (high % 2) + 256 * (high / 2)
    ensures (low + 256 * high) % 2 == low % 2
  {
  }

  lemma HalfJoins(b0: nat, b1: nat, b2: nat, b3: nat)
    ensures (b0 + 256 * (b1 + 256 * (b2 + 256 * b3))) / 2
         == b0 / 2 + 128 * (b1 % 2) + 256 * (b1 / 2 + 128 * (b2 % 2) + 256 * (b2 / 2 + 128 * (b3 % 2) + 256 * (b3 / 2)))
    ensures (b0 + 256 * (b1 + 256 * (b2 + 256 * b3))) % 2 == b0 % 2
  {
    HalfJoin(b2, b3);
    HalfJoin(b1, b2 + 256 * b3);
    HalfJoin(b0, b1 + 256 * (b2 + 256 * b3));
  }

  lemma HalfValues(q: Quad)
    ensures var a, b, c, d := Val(q.b0), Val(q.b1), Val(q.b2), Val(q.b3);
      Value(Half(q))
          == a / 2 + 128 * (b % 2) + 256 * (b / 2 + 128 * (c % 2) + 256 * (c / 2 + 128 * (d % 2) + 256 * (d / 2)))
  {
    hide Val, ByteHalf;
    OddValue(0);
    HalfValue(q.b0, q.b1);
    HalfValue(q.b1, q.b2);
    HalfValue(q.b2, q.b3);
    HalfValue(q.b3, 0);
  }

  lemma HalfIsHalf(q: Quad)
    ensures Value(Half(q)) == Value(q) / 2 && (ByteOdd(q.b0) <==> Value(q) % 2 == 1)
  {
    hide Val, ByteHalf, ByteOdd, Half;
    OddValue(q.b0);
    HalfValues(q);
    HalfJoins(Val(q.b0), Val(q.b1), Val(q.b2), Val(q.b3));
  }

  function Halve(v: bv32): bv32 {
    v >> 1
  }

  predicate LowBit(v: bv32) {
    v & 1 == 1
  }

  /** v or nothing, by the low bit of a. */
  function If(a: bv32, v: bv32): bv32 {
    v & (0 - (a & 1))
  }

  lemma IfValue(a: bv32, v: bv32)
    ensures If(a, v) == if LowBit(a) then v else 0
  {
    assert a & 1 == 0 || a & 1 == 1;
  }

  function Join(v: bv32, w: bv32): bv32 {
    v ^ w
  }

  function WordStep(v: bv32): bv32 {
    (v >> 1) ^ (0xedb88320 & (0 - (v & 1)))
  }

  lemma WordHalf(v: bv32)
    ensures Of(Halve(v)) == Half(Of(v)) && (LowBit(v) <==> ByteOdd(Of(v).b0))
  {
  }

  lemma WordXor(v: bv32, w: bv32)
    ensures Of(Join(v, w)) == Plus(Of(v), Of(w))
  {
  }

  lemma NumHalf(v: bv32)
    ensures Num(Halve(v)) == Num(v) / 2 && (LowBit(v) <==> Num(v) % 2 == 1)
  {
    hide Of, Value, Half, ByteOdd, Halve, LowBit;
    WordHalf(v);
    HalfIsHalf(Of(v));
  }

  lemma NumXor(v: bv32, w: bv32)
    ensures Num(Join(v, w)) == Xor(Num(v), Num(w))
  {
    hide Of, Value, Plus, Xor, Join;
    WordXor(v, w);
    PlusIsXor(Of(v), Of(w));
  }

  lemma Numbers()
    ensures Num(0) == 0 && Num(0xedb88320) == POLY && Num(0x40000000) == 0x4000_0000
  {
  }

  lemma StepParts(v: bv32)
    ensures WordStep(v) == Join(Halve(v), If(v, 0xedb88320))
  {
  }

  lemma NumStep(v: bv32)
    ensures Num(WordStep(v)) == Step(Num(v))
  {
    hide Num, Xor, If, Halve, Join, LowBit, WordStep;
    StepParts(v);
    Numbers();
    NumHalf(v);
    IfValue(v, 0xedb88320);
    NumXor(Halve(v), If(v, 0xedb88320));
    XorComm(Num(v) / 2, 0);
    XorZero(Num(v) / 2);
  }

  // --------------------------------------------- multiplying from the low bit up

  /** r x^n plus the product of b and the low n bits of a. */
  function Horner(r: nat, a: nat, b: nat, n: nat): nat
    decreases n
  {
    if n == 0 then r else Horner(Xor(Step(r), if a % 2 == 1 then b else 0), a / 2, b, n - 1)
  }

  /** The lowest bit of a has the highest power. */
  lemma {:induction false} MulBitsLow(a: nat, b: nat, n: nat)
    requires n >= 1
    ensures MulBits(a, b, n) == Xor(StepN(if a % 2 == 1 then b else 0, n - 1), MulBits(a / 2, b, n - 1))
    decreases n
  {
    hide Xor, Step;
    if n > 1 {
      var top, low := if Shr(a, n - 1) % 2 == 1 then b else 0, StepN(if a % 2 == 1 then b else 0, n - 1);
      StepZero();
      MulBitsLow(a, Step(b), n - 1);
      XorAssoc(top, low, MulBits(a / 2, Step(b), n - 2));
      XorComm(top, low);
      XorAssoc(low, top, MulBits(a / 2, Step(b), n - 2));
    }
  }

  lemma StepZero()
    ensures Step(0) == 0
  {
  }

  lemma {:induction false} HornerIsMul(r: nat, a: nat, b: nat, n: nat)
    ensures Horner(r, a, b, n) == Xor(StepN(r, n), MulBits(a, b, n))
    decreases n
  {
    hide Xor, Step;
    if n == 0 {
      XorComm(r, 0);
      XorZero(r);
    } else {
      var t := if a % 2 == 1 then b else 0;
      HornerIsMul(Xor(Step(r), t), a / 2, b, n - 1);
      MulBitsLow(a, b, n);
      StepNXor(Step(r), t, n - 1);
      XorAssoc(StepN(Step(r), n - 1), StepN(t, n - 1), MulBits(a / 2, b, n - 1));
    }
  }

  // ------------------------------------------------------------- the 32 squares

  function Turn(r: bv32, a: bv32, b: bv32): bv32 {
    WordStep(r) ^ (b & (0 - (a & 1)))
  }

  lemma JoinIf(w: bv32, a: bv32, b: bv32)
    ensures w ^ (b & (0 - (a & 1))) == Join(w, If(a, b))
  {
  }

  lemma TurnParts(r: bv32, a: bv32, b: bv32)
    ensures Turn(r, a, b) == Join(WordStep(r), If(a, b))
  {
    hide WordStep, Join, If;
    JoinIf(WordStep(r), a, b);
  }

  lemma TurnIsHorner(r: bv32, a: bv32, b: bv32, n: nat)
    requires n >= 1
    ensures Horner(Num(r), Num(a), Num(b), n) == Horner(Num(Turn(r, a, b)), Num(Halve(a)), Num(b), n - 1)
  {
    hide Xor, Step, Num, WordStep, If, Halve, Join, LowBit, Turn;
    TurnParts(r, a, b);
    Numbers();
    NumHalf(a);
    NumStep(r);
    IfValue(a, b);
    NumXor(WordStep(r), If(a, b));
  }

  /** Four bits of a at once. */
  function Turn4(r: bv32, a: bv32, b: bv32): bv32 {
    var a1 := Halve(a);
    var a2 := Halve(a1);
    Turn(Turn(Turn(Turn(r, a, b), a1, b), a2, b), Halve(a2), b)
  }

  function Half4(a: bv32): bv32 {
    Halve(Halve(Halve(Halve(a))))
  }

  lemma Turn4IsHorner(r: bv32, a: bv32, b: bv32, n: nat)
    requires n >= 4
    ensures Horner(Num(r), Num(a), Num(b), n) == Horner(Num(Turn4(r, a, b)), Num(Half4(a)), Num(b), n - 4)
  {
    hide Horner, Num, Turn, Halve;
    var r1, a1 := Turn(r, a, b), Halve(a);
    var r2, a2 := Turn(r1, a1, b), Halve(a1);
    var r3, a3 := Turn(r2, a2, b), Halve(a2);
    TurnIsHorner(r, a, b, n);
    TurnIsHorner(r1, a1, b, n - 1);
    TurnIsHorner(r2, a2, b, n - 2);
    TurnIsHorner(r3, a3, b, n - 3);
  }

  function Turn16(r: bv32, a: bv32, b: bv32): bv32 {
    var a4 := Half4(a);
    var a8 := Half4(a4);
    Turn4(Turn4(Turn4(Turn4(r, a, b), a4, b), a8, b), Half4(a8), b)
  }

  function Half16(a: bv32): bv32 {
    Half4(Half4(Half4(Half4(a))))
  }

  lemma Turn16IsHorner(r: bv32, a: bv32, b: bv32, n: nat)
    requires n >= 16
    ensures Horner(Num(r), Num(a), Num(b), n) == Horner(Num(Turn16(r, a, b)), Num(Half16(a)), Num(b), n - 16)
  {
    hide Horner, Num, Half4, Turn4;
    var r1, a1 := Turn4(r, a, b), Half4(a);
    var r2, a2 := Turn4(r1, a1, b), Half4(a1);
    var r3, a3 := Turn4(r2, a2, b), Half4(a2);
    Turn4IsHorner(r, a, b, n);
    Turn4IsHorner(r1, a1, b, n - 4);
    Turn4IsHorner(r2, a2, b, n - 8);
    Turn4IsHorner(r3, a3, b, n - 12);
  }

  function Product(a: bv32, b: bv32): bv32 {
    Turn16(Turn16(0, a, b), Half16(a), b)
  }

  lemma ProductIsMul(a: bv32, b: bv32)
    ensures Num(Product(a, b)) == Mul(Num(a), Num(b))
  {
    hide Horner, Num, Half16, Turn16, MulBits;
    Numbers();
    Turn16IsHorner(0, a, b, 32);
    Turn16IsHorner(Turn16(0, a, b), Half16(a), b, 16);
    HornerIsMul(0, Num(a), Num(b), 32);
    StepNZero(32);
    XorZero(Mul(Num(a), Num(b)));
    HornerEnd(Num(Product(a, b)), Num(Half16(Half16(a))), Num(b));
  }

  lemma HornerEnd(r: nat, a: nat, b: nat)
    ensures Horner(r, a, b, 0) == r
  {
  }

  // ------------------------------------------------------------- the 32 squares

  /** w is the square of v. */
  predicate Square(v: bv32, w: bv32) {
    Product(v, v) == w
  }

  lemma NextPower(k: nat, v: bv32, w: bv32)
    requires Num(v) == Power(Pow2(k)) && Square(v, w)
    ensures Num(w) == Power(Pow2(k + 1))
  {
    hide Product, Mul, Num, Power;
    ProductIsMul(v, v);
    PowerAdd(Pow2(k), Pow2(k));
  }

  lemma Power1()
    ensures Num(0x40000000) == Power(1)
  {
    hide Num;
    Numbers();
    assert Step(ONE) == 0x4000_0000;
    assert StepN(Step(ONE), 0) == Step(ONE);
  }

  // Each is evaluated on its own.
  lemma Square0() ensures Square(0x40000000, 0x20000000) { }
  lemma Square1() ensures Square(0x20000000, 0x08000000) { }
  lemma Square2() ensures Square(0x08000000, 0x00800000) { }
  lemma Square3() ensures Square(0x00800000, 0x00008000) { }
  lemma Square4() ensures Square(0x00008000, 0xedb88320) { }
  lemma Square5() ensures Square(0xedb88320, 0xb1e6b092) { }
  lemma Square6() ensures Square(0xb1e6b092, 0xa06a2517) { }
  lemma Square7() ensures Square(0xa06a2517, 0xed627dae) { }
  lemma Square8() ensures Square(0xed627dae, 0x88d14467) { }
  lemma Square9() ensures Square(0x88d14467, 0xd7bbfe6a) { }
  lemma Square10() ensures Square(0xd7bbfe6a, 0xec447f11) { }
  lemma Square11() ensures Square(0xec447f11, 0x8e7ea170) { }
  lemma Square12() ensures Square(0x8e7ea170, 0x6427800e) { }
  lemma Square13() ensures Square(0x6427800e, 0x4d47bae0) { }
  lemma Square14() ensures Square(0x4d47bae0, 0x09fe548f) { }
  lemma Square15() ensures Square(0x09fe548f, 0x83852d0f) { }
  lemma Square16() ensures Square(0x83852d0f, 0x30362f1a) { }
  lemma Square17() ensures Square(0x30362f1a, 0x7b5a9cc3) { }
  lemma Square18() ensures Square(0x7b5a9cc3, 0x31fec169) { }
  lemma Square19() ensures Square(0x31fec169, 0x9fec022a) { }
  lemma Square20() ensures Square(0x9fec022a, 0x6c8dedc4) { }
  lemma Square21() ensures Square(0x6c8dedc4, 0x15d6874d) { }
  lemma Square22() ensures Square(0x15d6874d, 0x5fde7a4e) { }
  lemma Square23() ensures Square(0x5fde7a4e, 0xbad90e37) { }
  lemma Square24() ensures Square(0xbad90e37, 0x2e4e5eef) { }
  lemma Square25() ensures Square(0x2e4e5eef, 0x4eaba214) { }
  lemma Square26() ensures Square(0x4eaba214, 0xa8a472c0) { }
  lemma Square27() ensures Square(0xa8a472c0, 0x429a969e) { }
  lemma Square28() ensures Square(0x429a969e, 0x148d302a) { }
  lemma Square29() ensures Square(0x148d302a, 0xc40ba6d0) { }
  lemma Square30() ensures Square(0xc40ba6d0, 0xc4e22c3c) { }
  lemma Square31() ensures Square(0xc4e22c3c, 0x40000000) { }

  lemma Power2To16()
    ensures Num(0x83852d0f) == Power(Pow2(16))
  {
    hide Num, Power, Square;
    Power1();
    assert Pow2(0) == 1;
    Square0(); Square1(); Square2(); Square3();
    NextPower(0, 0x40000000, 0x20000000);
    NextPower(1, 0x20000000, 0x08000000);
    NextPower(2, 0x08000000, 0x00800000);
    NextPower(3, 0x00800000, 0x00008000);
    Square4(); Square5(); Square6(); Square7();
    NextPower(4, 0x00008000, 0xedb88320);
    NextPower(5, 0xedb88320, 0xb1e6b092);
    NextPower(6, 0xb1e6b092, 0xa06a2517);
    NextPower(7, 0xa06a2517, 0xed627dae);
    Square8(); Square9(); Square10(); Square11();
    NextPower(8, 0xed627dae, 0x88d14467);
    NextPower(9, 0x88d14467, 0xd7bbfe6a);
    NextPower(10, 0xd7bbfe6a, 0xec447f11);
    NextPower(11, 0xec447f11, 0x8e7ea170);
    Square12(); Square13(); Square14(); Square15();
    NextPower(12, 0x8e7ea170, 0x6427800e);
    NextPower(13, 0x6427800e, 0x4d47bae0);
    NextPower(14, 0x4d47bae0, 0x09fe548f);
    NextPower(15, 0x09fe548f, 0x83852d0f);
  }

  lemma Power2To32()
    ensures Num(0x40000000) == Power(Pow2(32))
  {
    hide Num, Power, Square, Pow2;
    Power2To16();
    Square16(); Square17(); Square18(); Square19();
    NextPower(16, 0x83852d0f, 0x30362f1a);
    NextPower(17, 0x30362f1a, 0x7b5a9cc3);
    NextPower(18, 0x7b5a9cc3, 0x31fec169);
    NextPower(19, 0x31fec169, 0x9fec022a);
    Square20(); Square21(); Square22(); Square23();
    NextPower(20, 0x9fec022a, 0x6c8dedc4);
    NextPower(21, 0x6c8dedc4, 0x15d6874d);
    NextPower(22, 0x15d6874d, 0x5fde7a4e);
    NextPower(23, 0x5fde7a4e, 0xbad90e37);
    Square24(); Square25(); Square26(); Square27();
    NextPower(24, 0xbad90e37, 0x2e4e5eef);
    NextPower(25, 0x2e4e5eef, 0x4eaba214);
    NextPower(26, 0x4eaba214, 0xa8a472c0);
    NextPower(27, 0xa8a472c0, 0x429a969e);
    Square28(); Square29(); Square30(); Square31();
    NextPower(28, 0x429a969e, 0x148d302a);
    NextPower(29, 0x148d302a, 0xc40ba6d0);
    NextPower(30, 0xc40ba6d0, 0xc4e22c3c);
    NextPower(31, 0xc4e22c3c, 0x40000000);
  }

  /** x^(2^32) = x, so the squares come round again. */
  lemma {:induction false} PowerPeriod(k: nat)
    ensures Power(Pow2(k + 32)) == Power(Pow2(k))
  {
    hide Power, Num, Mul;
    if k == 0 {
      Power1();
      Power2To32();
    } else {
      PowerPeriod(k - 1);
      PowerAdd(Pow2(k - 1), Pow2(k - 1));
      PowerAdd(Pow2(k + 31), Pow2(k + 31));
    }
  }
}
