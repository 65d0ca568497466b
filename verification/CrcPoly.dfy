/**
 Polynomials over GF(2) modulo the CRC polynomial, as zlib/crc32.c keeps them: bit 31
 is the coefficient of x^0, adding is exclusive or, multiplying by x a shift.
 Module CrcRemainder says what these are in terms of products and remainders.
 */
module CrcPoly {
  import opened BitOps

  const POLY: nat := 0xedb8_8320
  const ONE: nat := 0x8000_0000

  /** Times x, modulo p(x) (zlib/crc32.c:291). */
  function Step(c: nat): nat {
    if c % 2 == 1 then Xor(c / 2, POLY) else c / 2
  }

  function StepN(c: nat, n: nat): nat
    decreases n
  {
    if n == 0 then c else StepN(Step(c), n - 1)
  }

  /** x^n modulo p(x). */
  function Power(n: nat): nat {
    StepN(ONE, n)
  }

  predicate Word32(c: nat) {
    c < Pow2(32)
  }

  lemma Constants()
    ensures Pow2(31) == ONE && Pow2(32) == 0x1_0000_0000 && Word32(POLY) && Word32(ONE)
  {
    assert Pow2(8) == 0x100;
    assert Pow2(14) == 0x4000;
    assert Pow2(20) == 0x10_0000;
    assert Pow2(26) == 0x400_0000;
  }

  // ------------------------------------------------------- multiplying by x

  lemma StepXor(a: nat, b: nat)
    ensures Step(Xor(a, b)) == Xor(Step(a), Step(b))
  {
    hide Xor;
    XorHalf(a, b);
    var x, y := a / 2, b / 2;
    XorAssoc(x, y, POLY);
    XorAssoc(x, POLY, y);
    XorComm(y, POLY);
    XorSwap(x, POLY, y, POLY);
    XorSelf(POLY);
    XorComm(Xor(x, y), 0);
    XorZero(Xor(x, y));
  }

  lemma {:induction false} StepNXor(a: nat, b: nat, n: nat)
    ensures StepN(Xor(a, b), n) == Xor(StepN(a, n), StepN(b, n))
    decreases n
  {
    if n != 0 {
      StepXor(a, b);
      StepNXor(Step(a), Step(b), n - 1);
    }
  }

  lemma {:induction false} StepNAdd(c: nat, m: nat, n: nat)
    ensures StepN(StepN(c, m), n) == StepN(c, m + n)
    decreases m
  {
    if m != 0 { StepNAdd(Step(c), m - 1, n); }
  }

  lemma {:induction false} StepLast(c: nat, n: nat)
    ensures StepN(Step(c), n) == Step(StepN(c, n))
    decreases n
  {
    if n != 0 { StepLast(Step(c), n - 1); }
  }

  lemma {:induction false} StepNZero(n: nat)
    ensures StepN(0, n) == 0
  {
    if n != 0 { StepNZero(n - 1); }
  }

  lemma StepWord(c: nat)
    requires Word32(c)
    ensures Word32(Step(c))
  {
    Constants();
    XorBound(c / 2, POLY, 32);
  }

  lemma {:induction false} StepNWord(c: nat, n: nat)
    requires Word32(c)
    ensures Word32(StepN(c, n))
    decreases n
  {
    if n != 0 {
      StepWord(c);
      StepNWord(Step(c), n - 1);
    }
  }

  /** x is invertible: only zero becomes zero. */
  lemma StepNonzero(c: nat)
    requires c != 0 && Word32(c)
    ensures Step(c) != 0
  {
    if c % 2 == 1 && Step(c) == 0 {
      XorSelf(POLY);
      XorComm(c / 2, POLY);
      XorCancel(POLY, c / 2, POLY);
      Constants();
      assert false;
    }
  }

  lemma {:induction false} StepNNonzero(c: nat, n: nat)
    requires c != 0 && Word32(c)
    ensures StepN(c, n) != 0
    decreases n
  {
    if n != 0 {
      StepNonzero(c);
      StepWord(c);
      StepNNonzero(Step(c), n - 1);
    }
  }

  /** Low zero bits are shifted out without any effect. */
  lemma {:induction false} StepNShl(c: nat, n: nat)
    ensures StepN(Shl(c, n), n) == c
  {
    if n != 0 { StepNShl(c, n - 1); }
  }

  // ------------------------------------------------------------ multiplying

  /** The sum of b x^i over the bits set in the low n bits of a, from its bit n - 1 down. */
  function MulBits(a: nat, b: nat, n: nat): nat
    decreases n
  {
    if n == 0 then 0
    else Xor(if Shr(a, n - 1) % 2 == 1 then b else 0, MulBits(a, Step(b), n - 1))
  }

  /** a(x) times b(x) modulo p(x). */
  function Mul(a: nat, b: nat): nat {
    MulBits(a, b, 32)
  }

  lemma {:induction false} MulBitsXor(a: nat, b: nat, c: nat, n: nat)
    ensures MulBits(a, Xor(b, c), n) == Xor(MulBits(a, b, n), MulBits(a, c, n))
    decreases n
  {
    XorSelf(0);
    if n != 0 {
      StepXor(b, c);
      MulBitsXor(a, Step(b), Step(c), n - 1);
      var bit := Shr(a, n - 1) % 2 == 1;
      XorSwap(if bit then b else 0, MulBits(a, Step(b), n - 1), if bit then c else 0, MulBits(a, Step(c), n - 1));
    }
  }

  lemma {:induction false} MulBitsStep(a: nat, b: nat, n: nat)
    ensures MulBits(a, Step(b), n) == Step(MulBits(a, b, n))
    decreases n
  {
    if n != 0 {
      MulBitsStep(a, Step(b), n - 1);
      StepXor(if Shr(a, n - 1) % 2 == 1 then b else 0, MulBits(a, Step(b), n - 1));
    }
  }

  lemma {:induction false} MulBitsStepN(a: nat, b: nat, n: nat, k: nat)
    ensures MulBits(a, StepN(b, k), n) == StepN(MulBits(a, b, n), k)
    decreases k
  {
    if k != 0 {
      MulBitsStepN(a, Step(b), n, k - 1);
      MulBitsStep(a, b, n);
    }
  }

  lemma {:induction false} MulBitsNothing(a: nat, n: nat)
    ensures MulBits(a, 0, n) == 0
  {
    if n != 0 { MulBitsNothing(a, n - 1); }
  }

  lemma {:induction false} MulBitsWord(a: nat, b: nat, n: nat)
    requires Word32(b)
    ensures Word32(MulBits(a, b, n))
    decreases n
  {
    if n != 0 {
      StepWord(b);
      MulBitsWord(a, Step(b), n - 1);
      XorBound(if Shr(a, n - 1) % 2 == 1 then b else 0, MulBits(a, Step(b), n - 1), 32);
    }
  }

  /** Multiplying a sum of multiples of c is summing the multiples of the product. */
  lemma {:induction false} MulInto(a: nat, b: nat, c: nat, n: nat)
    ensures Mul(a, MulBits(b, c, n)) == MulBits(b, Mul(a, c), n)
    decreases n
  {
    hide Xor, Shr, Step;
    MulBitsNothing(a, 32);
    if n != 0 {
      MulInto(a, b, Step(c), n - 1);
      MulBitsStep(a, c, 32);
      MulBitsXor(a, if Shr(b, n - 1) % 2 == 1 then c else 0, MulBits(b, Step(c), n - 1), 32);
    }
  }

  lemma StepPow2(n: nat)
    requires n >= 1
    ensures Step(Pow2(n)) == Pow2(n - 1)
  {
  }

  lemma XorHigh(x: nat, n: nat)
    requires x < Pow2(n)
    ensures Xor(Pow2(n), x) == Pow2(n) + x
  {
    XorZero(x);
    if n != 0 {
      XorHigh(x / 2, n - 1);
      XorHalf(Pow2(n), x);
    }
  }

  lemma {:induction false} MulBitsOne(a: nat, n: nat)
    requires n >= 1
    ensures MulBits(a, Pow2(n - 1), n) == Low(a, n)
  {
    hide Xor, Step, MulBits, Low, Shr, Pow2;
    MulBitsLast(a, Pow2(n - 1), n);
    LowLast(a, n - 1);
    if n > 1 {
      StepPow2(n - 1);
      MulBitsOne(a, n - 1);
    }
    if Shr(a, n - 1) % 2 == 1 { XorHigh(Low(a, n - 1), n - 1); } else { XorZero(Low(a, n - 1)); }
  }

  lemma MulBitsLast(a: nat, b: nat, n: nat)
    requires n >= 1
    ensures MulBits(a, b, n) == Xor(if Shr(a, n - 1) % 2 == 1 then b else 0, MulBits(a, Step(b), n - 1))
    ensures MulBits(a, Step(b), 0) == Low(a, 0) == 0
  {
  }

  lemma LowLast(a: nat, k: nat)
    ensures Low(a, k + 1) == Low(a, k) + if Shr(a, k) % 2 == 1 then Pow2(k) else 0
  {
    hide Shr;
    LowAdd(a, k, 1);
    assert Low(Shr(a, k), 1) == Shr(a, k) % 2;
    ShlOne(k);
  }

  lemma MulOne(a: nat)
    requires Word32(a)
    ensures Mul(a, ONE) == a
  {
    Constants();
    MulBitsOne(a, 32);
    LowSmall(a, 32);
  }

  lemma MulComm(a: nat, b: nat)
    requires Word32(a) && Word32(b)
    ensures Mul(a, b) == Mul(b, a)
  {
    hide MulBits;
    MulOne(a);
    MulOne(b);
    MulInto(a, b, ONE, 32);
  }

  lemma MulAssoc(a: nat, b: nat, c: nat)
    requires Word32(a) && Word32(b) && Word32(c)
    ensures Mul(a, Mul(b, c)) == Mul(Mul(a, b), c)
  {
    hide MulBits;
    MulBitsWord(a, b, 32);
    MulComm(Mul(a, b), c);
    MulInto(c, a, b, 32);
    MulComm(c, b);
  }

  // ------------------------------------------------------------- powers of x

  lemma PowerWord(n: nat)
    ensures Word32(Power(n)) && Power(n) != 0
  {
    Constants();
    StepNWord(ONE, n);
    StepNNonzero(ONE, n);
  }

  /** Multiplying by x^n is n steps of the register. */
  lemma PowerMul(n: nat, c: nat)
    requires Word32(c)
    ensures Mul(Power(n), c) == StepN(c, n)
  {
    hide MulBits, StepN;
    PowerWord(n);
    MulComm(Power(n), c);
    MulBitsStepN(c, ONE, 32, n);
    MulOne(c);
  }

  lemma PowerAdd(m: nat, n: nat)
    ensures Mul(Power(m), Power(n)) == Power(m + n)
  {
    PowerWord(n);
    PowerMul(m, Power(n));
    StepNAdd(ONE, n, m);
  }

  // ------------------------------------------------------------------- the code

  lemma {:induction false} MulBitsEmpty(a: nat, b: nat, n: nat)
    requires Low(a, n) == 0
    ensures MulBits(a, b, n) == 0
    decreases n
  {
    if n != 0 {
      LowAdd(a, n - 1, 1);
      assert Low(Shr(a, n - 1), 1) == Shr(a, n - 1) % 2;
      MulBitsEmpty(a, Step(b), n - 1);
    }
  }

  /** multmodp (zlib/crc32.c:551-569); m is kept as the number of its bit, so bit n - 1 is looked at. */
  method MultModP(a: nat, b0: nat) returns (p: nat)
    requires Word32(a) && a != 0 && Word32(b0)
    ensures p == Mul(a, b0)
  {
    hide Pow2, Shr, Xor;
    var n: nat, b: nat := 32, b0;
    p := 0;
    XorZero(MulBits(a, b, 32));
    LowSmall(a, 32);
    while true
      invariant n <= 32 && Xor(p, MulBits(a, b, n)) == Mul(a, b0) && Low(a, n) != 0
      decreases n
    {
      BitTaken(a, b, n, p);
      if Shr(a, n - 1) % 2 == 1 {
        p := Xor(p, b);
        if Low(a, n - 1) == 0 { break; }
      }
      n := n - 1;
      b := Step(b);
    }
  }

  lemma BitTaken(a: nat, b: nat, n: nat, p: nat)
    requires Low(a, n) != 0
    ensures n >= 1
    ensures Shr(a, n - 1) % 2 == 1 ==> Xor(p, MulBits(a, b, n)) == Xor(Xor(p, b), MulBits(a, Step(b), n - 1))
    ensures Shr(a, n - 1) % 2 == 0 ==> MulBits(a, b, n) == MulBits(a, Step(b), n - 1) && Low(a, n - 1) != 0
    ensures Low(a, n - 1) == 0 ==> Xor(Xor(p, b), MulBits(a, Step(b), n - 1)) == Xor(p, b)
  {
    hide Step, Pow2, Shl, Shr, Xor;
    var rest := MulBits(a, Step(b), n - 1);
    LowAdd(a, n - 1, 1);
    assert Low(Shr(a, n - 1), 1) == Shr(a, n - 1) % 2;
    ShlOne(n - 1);
    XorZero(rest);
    XorAssoc(p, b, rest);
    if Low(a, n - 1) == 0 {
      MulBitsEmpty(a, Step(b), n - 1);
      XorComm(Xor(p, b), 0);
      XorZero(Xor(p, b));
    }
  }
}
