/**
 What the registers of zlib/crc32.c stand for, in the ordinary order of coefficients and
 without any register: products and remainders of polynomials over GF(2), bit i of a
 number being the coefficient of x^i.  Multiplying modulo p(x) takes the remainder of
 the product; the CRC is the remainder of the message, its first four bytes changed by
 the initial register, times x^32.
 */
module CrcRemainder {
  import opened BitOps
  import opened Canonical
  import opened CrcPoly
  import opened Crc

  /** p(x) with its leading coefficient. */
  const P: nat := 0x1_04c1_1db7

  /** x^32 + x^26 + x^23 + x^22 + x^16 + x^12 + x^11 + x^10 + x^8 + x^7 + x^5 + x^4 + x^2 + x + 1
      (zlib/crc32.c:257-258). */
  lemma PolynomialIs()
    ensures P == Pow2(32) + Pow2(26) + Pow2(23) + Pow2(22) + Pow2(16) + Pow2(12) + Pow2(11) + Pow2(10) + Pow2(8)
              + Pow2(7) + Pow2(5) + Pow2(4) + Pow2(2) + Pow2(1) + Pow2(0)
  {
    Pow2Byte();
    assert Pow2(14) == 0x4000;
    assert Pow2(20) == 0x10_0000;
    assert Pow2(26) == 0x400_0000;
  }

  /** The product of two polynomials. */
  function Product(a: nat, b: nat): nat {
    if a == 0 then 0 else Xor(if a % 2 == 1 then b else 0, 2 * Product(a / 2, b))
  }

  /** y and r differ by a multiple of p(x). */
  ghost predicate Congruent(y: nat, r: nat) {
    exists q: nat :: y == Xor(Product(q, P), r)
  }

  ghost predicate Remainder(y: nat, r: nat) {
    Congruent(y, r) && r < Pow2(32)
  }

  // ------------------------------------------------------------------- products

  lemma XorDouble(a: nat, b: nat)
    ensures Xor(2 * a, 2 * b) == 2 * Xor(a, b)
  {
    hide Xor;
    XorHalf(2 * a, 2 * b);
  }

  lemma {:induction false} ProductXor(a: nat, b: nat, c: nat)
    ensures Product(a, Xor(b, c)) == Xor(Product(a, b), Product(a, c))
  {
    XorSelf(0);
    if a != 0 {
      hide Xor;
      ProductXor(a / 2, b, c);
      XorDouble(Product(a / 2, b), Product(a / 2, c));
      XorSwap(if a % 2 == 1 then b else 0, 2 * Product(a / 2, b), if a % 2 == 1 then c else 0, 2 * Product(a / 2, c));
    }
  }

  lemma {:induction false} ProductDouble(a: nat, b: nat)
    ensures Product(a, 2 * b) == 2 * Product(a, b)
  {
    if a != 0 {
      ProductDouble(a / 2, b);
      XorDouble(if a % 2 == 1 then b else 0, 2 * Product(a / 2, b));
    }
  }

  lemma DoubleProduct(a: nat, b: nat)
    ensures Product(2 * a, b) == 2 * Product(a, b)
  {
    if a != 0 { XorZero(2 * Product(a, b)); }
  }

  lemma {:induction false} ProductZero(a: nat)
    ensures Product(a, 0) == 0
  {
    if a != 0 {
      ProductZero(a / 2);
      XorZero(0);
    }
  }

  /** A sum times c, taken apart at the lowest coefficient. */
  lemma ProductLow(a: nat, c: nat)
    ensures Product(a, c) == Xor(if a % 2 == 1 then c else 0, 2 * Product(a / 2, c))
  {
    if a == 0 { XorZero(0); }
  }

  lemma {:induction false} XorProduct(a: nat, b: nat, c: nat)
    ensures Product(Xor(a, b), c) == Xor(Product(a, c), Product(b, c))
    decreases a + b
  {
    if a + b == 0 {
      XorZero(0);
    } else {
      hide Xor, Product;
      XorHalf(a, b);
      XorProduct(a / 2, b / 2, c);
      ProductLow(a, c);
      ProductLow(b, c);
      ProductLow(Xor(a, b), c);
      XorDouble(Product(a / 2, c), Product(b / 2, c));
      XorSwap(if a % 2 == 1 then c else 0, 2 * Product(a / 2, c), if b % 2 == 1 then c else 0, 2 * Product(b / 2, c));
      LowTerms(a % 2, b % 2, c);
    }
  }

  lemma LowTerms(p: nat, q: nat, c: nat)
    requires p < 2 && q < 2
    ensures Xor(if p == 1 then c else 0, if q == 1 then c else 0) == if (p + q) % 2 == 1 then c else 0
  {
    hide Xor;
    XorSelf(c);
    XorZero(c);
    XorComm(c, 0);
    XorSelf(0);
  }

  lemma {:induction false} ProductAssoc(a: nat, b: nat, c: nat)
    ensures Product(a, Product(b, c)) == Product(Product(a, b), c)
  {
    if a != 0 {
      ProductAssoc(a / 2, b, c);
      XorProduct(if a % 2 == 1 then b else 0, 2 * Product(a / 2, b), c);
      DoubleProduct(Product(a / 2, b), c);
    }
  }

  // ----------------------------------------------------------------- congruence

  lemma Same(y: nat)
    ensures Congruent(y, y)
  {
    XorZero(y);
    assert y == Xor(Product(0, P), y);
  }

  lemma CongruentXor(y: nat, r: nat, z: nat, s: nat)
    requires Congruent(y, r) && Congruent(z, s)
    ensures Congruent(Xor(y, z), Xor(r, s))
  {
    hide Xor, Product;
    var q: nat :| y == Xor(Product(q, P), r);
    var k: nat :| z == Xor(Product(k, P), s);
    XorSwap(Product(q, P), r, Product(k, P), s);
    XorProduct(q, k, P);
    assert Xor(y, z) == Xor(Product(Xor(q, k), P), Xor(r, s));
  }

  lemma CongruentProduct(a: nat, y: nat, r: nat)
    requires Congruent(y, r)
    ensures Congruent(Product(a, y), Product(a, r))
  {
    hide Xor, Product;
    var q: nat :| y == Xor(Product(q, P), r);
    ProductXor(a, Product(q, P), r);
    ProductAssoc(a, q, P);
    assert Product(a, y) == Xor(Product(Product(a, q), P), Product(a, r));
  }

  lemma CongruentOn(y: nat, r: nat, s: nat)
    requires Congruent(y, r) && Congruent(r, s)
    ensures Congruent(y, s)
  {
    hide Xor, Product;
    var q: nat :| y == Xor(Product(q, P), r);
    var k: nat :| r == Xor(Product(k, P), s);
    XorAssoc(Product(q, P), Product(k, P), s);
    XorProduct(q, k, P);
    assert y == Xor(Product(Xor(q, k), P), s);
  }

  // ---------------------------------------------------- remainders are unique

  /** Adding something lower leaves the leading coefficient where it is. */
  lemma {:induction false} LeadStays(x: nat, y: nat, m: nat)
    requires x < Pow2(m) <= y
    ensures Xor(x, y) >= Pow2(m)
  {
    if m == 0 {
      XorZero(y);
    } else {
      XorHalf(x, y);
      LeadStays(x / 2, y / 2, m - 1);
    }
  }

  lemma {:induction false} ProductBig(d: nat, k: nat, i: nat)
    requires Pow2(i) <= d < Pow2(i + 1) && P < Pow2(k + 1) && Pow2(k) <= P
    ensures Product(d, P) >= Pow2(k + i)
  {
    hide Xor;
    ProductLow(d, P);
    if i == 0 {
      assert Pow2(1) == 2 && d == 1;
      assert Product(0, P) == 0;
      XorComm(P, 0);
      XorZero(P);
    } else {
      ProductBig(d / 2, k, i - 1);
      Pow2Mono(k + 1, k + i);
      LeadStays(if d % 2 == 1 then P else 0, 2 * Product(d / 2, P), k + i);
    }
  }

  lemma {:induction false} Degree(d: nat) returns (i: nat)
    requires d != 0
    ensures Pow2(i) <= d < Pow2(i + 1)
  {
    if d == 1 {
      i := 0;
    } else {
      i := Degree(d / 2);
      i := i + 1;
    }
  }

  /** Only zero is a multiple of p(x) below x^32. */
  lemma MultiplesBig(d: nat)
    requires Product(d, P) < Pow2(32)
    ensures Product(d, P) == 0
  {
    if d != 0 {
      hide Product;
      Constants();
      var i := Degree(d);
      ProductBig(d, 32, i);
      Pow2Mono(32, 32 + i);
      assert false;
    }
  }

  /** There is one remainder. */
  lemma RemainderUnique(y: nat, r: nat, s: nat)
    requires Remainder(y, r) && Remainder(y, s)
    ensures r == s
  {
    hide Xor, Product;
    var q: nat :| y == Xor(Product(q, P), r);
    var k: nat :| y == Xor(Product(k, P), s);
    XorSelf(y);
    XorSwap(Product(q, P), r, Product(k, P), s);
    XorProduct(q, k, P);
    var a, b := Product(Xor(q, k), P), Xor(r, s);
    XorSelf(b);
    XorComm(b, a);
    XorCancel(b, a, b);
    XorBound(r, s, 32);
    MultiplesBig(Xor(q, k));
    XorSelf(r);
    XorCancel(r, s, r);
  }

  // ------------------------------------------------------- registers and remainders

  lemma {:induction false} RevXor(n: nat, a: nat, b: nat)
    ensures Rev(n, Xor(a, b)) == Xor(Rev(n, a), Rev(n, b))
  {
    hide Xor, Rev, Shr, Pow2;
    if n == 0 {
      RevOfNone(a, b);
      XorZero(0);
    } else {
      RevLast(n, a);
      RevLast(n, b);
      RevLast(n, Xor(a, b));
      BitOfXor(a, b, n - 1);
      RevXor(n - 1, a, b);
      XorPair(Rev(n - 1, a), Shr(a, n - 1) % 2, Rev(n - 1, b), Shr(b, n - 1) % 2);
    }
  }

  lemma RevOfNone(a: nat, b: nat)
    ensures Rev(0, a) == Rev(0, b) == Rev(0, Xor(a, b)) == 0
  {
  }

  lemma BitOfXor(a: nat, b: nat, k: nat)
    ensures Shr(Xor(a, b), k) % 2 == (Shr(a, k) % 2 + Shr(b, k) % 2) % 2
  {
    hide Xor, Shr;
    ShrXor(a, b, k);
    XorHalf(Shr(a, k), Shr(b, k));
  }

  /** Numbers taken apart at the lowest bit. */
  lemma XorPair(a: nat, p: nat, b: nat, q: nat)
    requires p < 2 && q < 2
    ensures Xor(2 * a + p, 2 * b + q) == 2 * Xor(a, b) + (p + q) % 2
  {
    hide Xor;
    XorHalf(2 * a + p, 2 * b + q);
  }

  /** Reversed in more bits than it has, a number is shifted up. */
  lemma {:induction false} RevWide(n: nat, m: nat, x: nat)
    requires x < Pow2(n)
    ensures Rev(n + m, x) == Shl(Rev(n, x), m)
  {
    if m != 0 {
      RevWide(n, m - 1, x);
      RevLast(n + m, x);
      Pow2Mono(n, n + m - 1);
      LowSmall(x, n + m - 1);
    }
  }

  lemma ByteOf(x: nat)
    ensures Low(x, 8) == x % 256 && Shr(x, 8) == x / 256
  {
    Pow2Byte();
    Split(x, 8);
    ShlByte(Shr(x, 8));
  }

  lemma {:induction false} RevSplit(n: nat, k: nat, x: nat)
    ensures Rev(n + k, x) == Shl(Rev(k, x), n) + Rev(n, Shr(x, k))
    decreases k
  {
    ShlOne(n);
    if k != 0 {
      RevSplit(n, k - 1, x / 2);
      ShlAdd(if x % 2 == 1 then Pow2(k - 1) else 0, Rev(k - 1, x / 2), n);
      Pow2Add(k - 1, n);
      assert Rev(n + k, x) == (if x % 2 == 1 then Pow2(n + k - 1) else 0) + Rev(n + k - 1, x / 2);
    }
  }

  /** Eight bits at a time. */
  lemma RevByte(n: nat, x: nat)
    ensures Rev(n + 8, x) == Shl(Rev(8, x % 256), n) + Rev(n, x / 256)
  {
    hide Rev, Shl, Low, Shr;
    RevSplit(n, 8, x);
    RevLow(8, x);
    ByteOf(x);
  }

  lemma BytesReversed()
    ensures Rev(8, 0x20) == 0x04 && Rev(8, 0) == 0
  {
    assert Rev(4, 0x2) == 4;
  }

  lemma MoreReversed()
    ensures Rev(8, 0x83) == 0xc1 && Rev(8, 0x80) == 1
  {
    assert Rev(4, 0x8) == 1;
  }

  lemma OtherReversed()
    ensures Rev(8, 0xb8) == 0x1d
  {
    assert Rev(4, 0xb) == 0xd;
  }

  lemma LastReversed()
    ensures Rev(8, 0xed) == 0xb7
  {
  }

  lemma ShlBytes(x: nat)
    ensures Shl(x, 16) == 0x1_0000 * x && Shl(x, 24) == 0x100_0000 * x
  {
    ShlByte(x);
    ShlByte(256 * x);
    ShlByte(0x1_0000 * x);
    ShlShl(x, 8, 8);
    ShlShl(x, 16, 8);
  }

  lemma Constant()
    ensures Rev(32, POLY) + Pow2(32) == P && Rev(32, ONE) == 1 && Rev(32, 0) == 0
  {
    hide Rev, Shl, Pow2;
    Constants();
    BytesReversed();
    MoreReversed();
    OtherReversed();
    LastReversed();
    ShlBytes(0x04);
    ShlBytes(0xc1);
    ShlByte(0x1d);
    ShlBytes(0);
    ShlByte(0);
    RevByte(24, POLY);
    RevByte(16, 0xed_b883);
    RevByte(8, 0xedb8);
    RevByte(24, ONE);
    RevByte(16, 0x80_0000);
    RevByte(8, 0x8000);
    RevByte(24, 0);
    RevByte(16, 0);
    RevByte(8, 0);
  }

  lemma {:induction false} ProductPow(m: nat, c: nat)
    ensures Product(Pow2(m), c) == Shl(c, m)
  {
    if m == 0 {
      XorComm(c, 0);
      XorZero(c);
      assert Product(0, c) == 0;
    } else {
      ProductPow(m - 1, c);
      DoubleProduct(Pow2(m - 1), c);
    }
  }

  lemma PolyWide(m: nat)
    ensures Shl(P, m) == Xor(Pow2(32 + m), Rev(32 + m, POLY))
  {
    hide Xor, Rev, Shl, Pow2;
    Constants();
    Constant();
    RevWide(32, m, POLY);
    ShlAdd(Pow2(32), Rev(32, POLY), m);
    Pow2Add(32, m);
    XorHigh(Rev(32 + m, POLY), 32 + m);
  }

  /** A step of the register takes off a multiple of p(x), as long division does. */
  lemma StepDivides(m: nat, c: nat)
    ensures Congruent(Rev(33 + m, c), Rev(32 + m, Step(c)))
  {
    hide Xor, Rev, Shl, Pow2, Product;
    var v, high, p := Rev(32 + m, c / 2), Pow2(32 + m), Rev(32 + m, POLY);
    RevFirst(33 + m, c);
    if c % 2 == 1 {
      RevXor(32 + m, c / 2, POLY);
      PolyWide(m);
      ProductPow(m, P);
      XorHigh(v, 32 + m);
      XorComm(v, p);
      XorAssoc(high, p, Xor(p, v));
      XorAssoc(p, p, v);
      XorSelf(p);
      XorZero(v);
      assert Rev(33 + m, c) == Xor(Product(Pow2(m), P), Rev(32 + m, Step(c)));
    } else {
      Same(v);
    }
  }

  /** n steps: the remainder of the register's polynomial times x^n. */
  lemma {:induction false} StepsRemain(n: nat, c: nat)
    ensures Congruent(Rev(32 + n, c), Rev(32, StepN(c, n)))
    decreases n
  {
    hide Rev, Step, Congruent;
    if n == 0 {
      Same(Rev(32, c));
    } else {
      StepDivides(n - 1, c);
      StepsRemain(n - 1, Step(c));
      CongruentOn(Rev(32 + n, c), Rev(31 + n, Step(c)), Rev(32, StepN(c, n)));
    }
  }

  /** Power(n) stands for the remainder of x^n. */
  lemma PowerIsRemainder(n: nat)
    ensures Remainder(Pow2(n), Rev(32, Power(n)))
  {
    hide Rev, StepN, Congruent;
    Constants();
    Constant();
    StepsRemain(n, ONE);
    RevWide(32, n, ONE);
    ShlOne(n);
  }

  /** Twice a register's polynomial, and the register stepped. */
  lemma DoubleRemains(b: nat)
    requires Word32(b)
    ensures Congruent(2 * Rev(32, b), Rev(32, Step(b)))
  {
    hide Rev, Step, Congruent;
    StepDivides(0, b);
    RevWide(32, 1, b);
    assert Shl(Rev(32, b), 1) == 2 * Rev(32, b);
  }

  /** One more coefficient of a. */
  lemma MulBitRemains(a: nat, b: nat, n: nat)
    requires Word32(b) && n >= 1
    requires Congruent(Product(Rev(n - 1, a), Rev(32, Step(b))), Rev(32, MulBits(a, Step(b), n - 1)))
    ensures Congruent(Product(Rev(n, a), Rev(32, b)),
                      Xor(if Shr(a, n - 1) % 2 == 1 then Rev(32, b) else 0, Rev(32, MulBits(a, Step(b), n - 1))))
  {
    hide Rev, Step, Congruent, Xor, Product, Shr, MulBits;
    var r, up, rest := Rev(32, b), Rev(n - 1, a), Rev(32, MulBits(a, Step(b), n - 1));
    var lead := if Shr(a, n - 1) % 2 == 1 then r else 0;
    RevLast(n, a);
    ProductLow(Rev(n, a), r);
    ProductDouble(up, r);
    DoubleRemains(b);
    CongruentProduct(up, 2 * r, Rev(32, Step(b)));
    CongruentOn(2 * Product(up, r), Product(up, Rev(32, Step(b))), rest);
    Same(lead);
    CongruentXor(lead, lead, 2 * Product(up, r), rest);
  }

  lemma NoTerms(a: nat, b: nat)
    ensures Rev(0, a) == 0 && MulBits(a, b, 0) == 0 && Product(0, Rev(32, b)) == 0
  {
    hide Xor;
  }

  lemma {:induction false} MulBitsRemain(a: nat, b: nat, n: nat)
    requires Word32(b)
    ensures Congruent(Product(Rev(n, a), Rev(32, b)), Rev(32, MulBits(a, b, n)))
    decreases n
  {
    hide Rev, Step, Congruent, Xor, Product, Shr, MulBits, Pow2;
    Constant();
    if n == 0 {
      NoTerms(a, b);
      Same(0);
    } else {
      MulBitsLast(a, b, n);
      StepWord(b);
      MulBitsRemain(a, Step(b), n - 1);
      MulBitRemains(a, b, n);
      RevXor(32, if Shr(a, n - 1) % 2 == 1 then b else 0, MulBits(a, Step(b), n - 1));
    }
  }

  /** Mul takes the remainder of the product. */
  lemma MulIsProduct(a: nat, b: nat)
    requires Word32(a) && Word32(b)
    ensures Remainder(Product(Rev(32, a), Rev(32, b)), Rev(32, Mul(a, b)))
  {
    hide Rev, Congruent, Product, MulBits;
    MulBitsRemain(a, b, 32);
  }

  // ------------------------------------------------------------------- the check

  /** The message as a polynomial: bits in the order of transmission, low bits of a byte first, highest powers first. */
  function Message(data: seq<byte>): nat
    decreases |data|
  {
    if data == [] then 0 else Message(data[..|data| - 1]) * 256 + Rev(8, data[|data| - 1])
  }

  lemma {:induction false} MessageFirst(b: byte, data: seq<byte>)
    ensures Message([b] + data) == Shl(Rev(8, b), 8 * |data|) + Message(data)
    decreases |data|
  {
    hide Rev;
    if data == [] {
      assert [b] + data == [b] && [b][..0] == [];
    } else {
      var n := |data| - 1;
      assert ([b] + data)[..n + 1] == [b] + data[..n];
      MessageFirst(b, data[..n]);
      ShlShl(Rev(8, b), 8 * n, 8);
      ShlByte(Shl(Rev(8, b), 8 * n));
    }
  }

  lemma {:induction false} LoadReversed(data: seq<byte>)
    ensures Rev(8 * |data|, Load(data)) == Message(data)
    decreases |data|
  {
    hide Rev, Shl, Message, Pow2, Load;
    if data == [] {
      NoMessage();
    } else {
      var rest, n := data[1..], 8 * (|data| - 1);
      assert data == [data[0]] + rest;
      LoadReversed(rest);
      MessageFirst(data[0], rest);
      FirstByte(data);
      RevByte(n, Load(data));
    }
  }

  lemma NoMessage()
    ensures Rev(0, Load([])) == Message([]) == 0
  {
  }

  lemma FirstByte(data: seq<byte>)
    requires data != []
    ensures Load(data) % 256 == data[0] && Load(data) / 256 == Load(data[1..])
  {
    hide Shl;
    ShlByte(Load(data[1..]));
  }

  lemma {:induction false} LoadFits(data: seq<byte>)
    ensures Load(data) < Pow2(8 * |data|)
    decreases |data|
  {
    LoadBound(data);
  }

  /** The register after some bytes: what was in it times x^n, and the message times x^32, modulo p(x). */
  lemma CrcIsRemainder(crc: nat, data: seq<byte>)
    requires Word32(crc)
    ensures Remainder(Xor(Shl(Rev(32, Xor(crc, ALL)), 8 * |data|), Shl(Message(data), 32)),
      Rev(32, Xor(Crc32(crc, data), ALL)))
  {
    hide Rev, Shl, Congruent, Xor, Load, CrcBytes, Message, StepN;
    var c, n, out := Xor(crc, ALL), 8 * |data|, CrcBytes(Xor(crc, ALL), data);
    Constants();
    XorBound(crc, ALL, 32);
    CrcIsStep(c, data);
    StepsRemain(n, Xor(c, Load(data)));
    RevXor(32 + n, c, Load(data));
    RevWide(32, n, c);
    LoadFits(data);
    RevWide(n, 32, Load(data));
    LoadReversed(data);
    XorAssoc(out, ALL, ALL);
    XorSelf(ALL);
    XorComm(out, 0);
    XorZero(out);
  }
}
