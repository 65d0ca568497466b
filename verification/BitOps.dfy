/**
 Shifts and masks on unsigned numbers.  The C expressions `x << k`, `x >> k` and
 `x & ((1 << k) - 1)` are written Shl(x, k), Shr(x, k) and Low(x, k).  All are
 defined by halving and doubling, so the laws below need only linear arithmetic.
 */
module BitOps {

  type byte = b: nat | b < 256

  function Pow2(k: nat): (p: nat)
    ensures p > 0
  {
    if k == 0 then 1 else 2 * Pow2(k - 1)
  }

  lemma Pow2Short()
    ensures Pow2(16) == 0x10000
  {
    assert Pow2(8) == 256;
    assert Pow2(14) == 0x4000;
  }

  lemma Pow2Byte()
    ensures Pow2(8) == 256
  {
  }

  function Shl(x: nat, k: nat): (r: nat)
    ensures r >= x
  {
    if k == 0 then x else 2 * Shl(x, k - 1)
  }

  function Shr(x: nat, k: nat): (r: nat)
    ensures r <= x
  {
    if k == 0 then x else Shr(x / 2, k - 1)
  }

  function Low(x: nat, k: nat): (r: nat)
    ensures r < Pow2(k)
    ensures r <= x
  {
    if k == 0 then 0 else x % 2 + 2 * Low(x / 2, k - 1)
  }

  // ------------------------------------------------------------- shifting up

  lemma {:induction false} ShlAdd(x: nat, y: nat, k: nat)
    ensures Shl(x + y, k) == Shl(x, k) + Shl(y, k)
  {
    if k != 0 { ShlAdd(x, y, k - 1); }
  }

  lemma {:induction false} ShlOne(k: nat)
    ensures Shl(1, k) == Pow2(k)
    ensures Shl(0, k) == 0
  {
    if k != 0 { ShlOne(k - 1); }
  }

  lemma ShlSucc(x: nat, k: nat)
    ensures Shl(x + 1, k) == Shl(x, k) + Pow2(k)
  {
    ShlAdd(x, 1, k);
    ShlOne(k);
  }

  lemma {:induction false} ShlMono(x: nat, y: nat, k: nat)
    ensures x <= y <==> Shl(x, k) <= Shl(y, k)
  {
    if k != 0 { ShlMono(x, y, k - 1); }
  }

  lemma {:induction false} ShlShl(x: nat, a: nat, b: nat)
    ensures Shl(Shl(x, a), b) == Shl(x, a + b)
  {
    if b != 0 { ShlShl(x, a, b - 1); }
  }

  /** Doubling first or last is the same. */
  lemma {:induction false} ShlDouble(x: nat, k: nat)
    ensures Shl(2 * x, k) == 2 * Shl(x, k)
  {
    if k != 0 { ShlDouble(x, k - 1); }
  }

  lemma Pow2Add(a: nat, b: nat)
    ensures Shl(Pow2(a), b) == Pow2(a + b)
  {
    ShlOne(a);
    ShlShl(1, a, b);
    ShlOne(a + b);
  }

  lemma {:induction false} Pow2Mono(a: nat, b: nat)
    requires a <= b
    ensures Pow2(a) <= Pow2(b)
  {
    if a < b { Pow2Mono(a, b - 1); }
  }

  // ---------------------------------------------- splitting a number at bit k

  lemma {:induction false} Split(x: nat, k: nat)
    ensures x == Shl(Shr(x, k), k) + Low(x, k)
  {
    if k != 0 { Split(x / 2, k - 1); }
  }

  /** A number is split in only one way. */
  lemma {:induction false} SplitUnique(q: nat, r: nat, k: nat)
    requires r < Pow2(k)
    ensures Shr(Shl(q, k) + r, k) == q && Low(Shl(q, k) + r, k) == r
  {
    if k != 0 {
      var x := Shl(q, k) + r;
      assert x / 2 == Shl(q, k - 1) + r / 2 && x % 2 == r % 2;
      SplitUnique(q, r / 2, k - 1);
    }
  }

  lemma LowSmall(x: nat, k: nat)
    requires x < Pow2(k)
    ensures Low(x, k) == x && Shr(x, k) == 0
  {
    ShlOne(k);
    SplitUnique(0, x, k);
  }

  /** Adding a multiple of 2^k leaves the low k bits alone. */
  lemma {:induction false} ShrAdd(q: nat, y: nat, k: nat)
    ensures Shr(Shl(q, k) + y, k) == q + Shr(y, k)
    ensures Low(Shl(q, k) + y, k) == Low(y, k)
  {
    if k != 0 {
      var x := Shl(q, k) + y;
      assert x / 2 == Shl(q, k - 1) + y / 2 && x % 2 == y % 2;
      ShrAdd(q, y / 2, k - 1);
    }
  }

  lemma {:induction false} ShrShr(x: nat, a: nat, b: nat)
    ensures Shr(Shr(x, a), b) == Shr(x, a + b)
  {
    if a != 0 { ShrShr(x / 2, a - 1, b); }
  }

  /** A field of width a inside one of width a + b. */
  lemma {:induction false} LowLow(x: nat, a: nat, b: nat)
    ensures Low(Low(x, a + b), a) == Low(x, a)
    ensures Shr(Low(x, a + b), a) == Low(Shr(x, a), b)
  {
    if a != 0 {
      LowLow(x / 2, a - 1, b);
      assert Low(x, a + b) / 2 == Low(x / 2, a - 1 + b);
    }
  }

  /** The low a + b bits are the low a bits and then b more. */
  lemma LowAdd(x: nat, a: nat, b: nat)
    ensures Low(x, a + b) == Low(x, a) + Shl(Low(Shr(x, a), b), a)
  {
    Split(Low(x, a + b), a);
    LowLow(x, a, b);
  }

  lemma ShrBound(x: nat, a: nat, b: nat)
    requires x < Pow2(a + b)
    ensures Shr(x, a) < Pow2(b)
  {
    Split(x, a);
    Pow2Add(b, a);
    if Shr(x, a) >= Pow2(b) {
      ShlMono(Pow2(b), Shr(x, a), a);
      assert false;
    }
  }

  lemma ShlBound(x: nat, a: nat, b: nat)
    requires x < Pow2(b)
    ensures Shl(x, a) + Pow2(a) <= Pow2(a + b)
  {
    ShlSucc(x, a);
    ShlMono(x + 1, Pow2(b), a);
    Pow2Add(b, a);
  }

  // ---------------------------------------------------------------- exclusive or

  function Xor(x: nat, y: nat): nat
    decreases x + y
  {
    if x + y == 0 then 0 else (x % 2 + y % 2) % 2 + 2 * Xor(x / 2, y / 2)
  }

  lemma XorHalf(x: nat, y: nat)
    ensures Xor(x, y) % 2 == (x % 2 + y % 2) % 2 && Xor(x, y) / 2 == Xor(x / 2, y / 2)
  {
  }

  lemma {:induction false} XorZero(y: nat)
    ensures Xor(0, y) == y
  {
    if y != 0 { XorZero(y / 2); }
  }

  lemma {:induction false} LowXor(x: nat, y: nat, k: nat)
    ensures Low(Xor(x, y), k) == Xor(Low(x, k), Low(y, k))
  {
    hide Xor, Low;
    LowHalf(x, k);
    LowHalf(y, k);
    LowHalf(Xor(x, y), k);
    if k == 0 {
      XorZero(0);
    } else {
      XorHalf(x, y);
      XorHalf(Low(x, k), Low(y, k));
      LowXor(x / 2, y / 2, k - 1);
    }
  }

  lemma LowHalf(x: nat, k: nat)
    ensures k == 0 ==> Low(x, k) == 0
    ensures k > 0 ==> Low(x, k) / 2 == Low(x / 2, k - 1) && Low(x, k) % 2 == x % 2
  {
  }

  lemma {:induction false} ShlXor(x: nat, y: nat, k: nat)
    ensures Shl(Xor(x, y), k) == Xor(Shl(x, k), Shl(y, k))
  {
    if k != 0 {
      ShlXor(x, y, k - 1);
      XorHalf(Shl(x, k), Shl(y, k));
      assert Shl(x, k) / 2 == Shl(x, k - 1) && Shl(y, k) / 2 == Shl(y, k - 1);
    }
  }

  lemma {:induction false} XorCancel(x: nat, y: nat, z: nat)
    requires Xor(x, y) == Xor(x, z)
    ensures y == z
    decreases x + y + z
  {
    XorHalf(x, y);
    XorHalf(x, z);
    if x + y + z != 0 { XorCancel(x / 2, y / 2, z / 2); }
  }

  lemma {:induction false} XorComm(x: nat, y: nat)
    ensures Xor(x, y) == Xor(y, x)
    decreases x + y
  {
    if x + y != 0 { XorComm(x / 2, y / 2); }
  }

  lemma BitAssoc(x: nat, y: nat, z: nat)
    requires x < 2 && y < 2 && z < 2
    ensures ((x + y) % 2 + z) % 2 == (x + (y + z) % 2) % 2
  {
  }

  lemma {:induction false} XorAssoc(x: nat, y: nat, z: nat)
    ensures Xor(Xor(x, y), z) == Xor(x, Xor(y, z))
    decreases x + y + z
  {
    hide Xor;
    if x + y + z == 0 {
      XorZero(0);
    } else {
      XorHalf(x, y);
      XorHalf(y, z);
      XorHalf(Xor(x, y), z);
      XorHalf(x, Xor(y, z));
      BitAssoc(x % 2, y % 2, z % 2);
      XorAssoc(x / 2, y / 2, z / 2);
    }
  }

  lemma {:induction false} XorSelf(x: nat)
    ensures Xor(x, x) == 0
  {
    if x != 0 { XorSelf(x / 2); }
  }

  /** Exclusive or stays within the width of its operands. */
  lemma {:induction false} XorBound(x: nat, y: nat, k: nat)
    requires x < Pow2(k) && y < Pow2(k)
    ensures Xor(x, y) < Pow2(k)
  {
    if k != 0 {
      XorHalf(x, y);
      XorBound(x / 2, y / 2, k - 1);
    }
  }

  lemma XorSwap(a: nat, b: nat, c: nat, d: nat)
    ensures Xor(Xor(a, b), Xor(c, d)) == Xor(Xor(a, c), Xor(b, d))
  {
    hide Xor;
    XorAssoc(a, b, Xor(c, d));
    XorAssoc(b, c, d);
    XorComm(b, c);
    XorAssoc(c, b, d);
    XorAssoc(a, c, Xor(b, d));
  }

  /** The low bits of a shifted number are the shifted low bits. */
  lemma {:induction false} LowShl(x: nat, s: nat, k: nat)
    ensures s <= k ==> Low(Shl(x, s), k) == Shl(Low(x, k - s), s)
    ensures s >= k ==> Low(Shl(x, s), k) == 0
  {
    if s != 0 && k != 0 {
      assert Shl(x, s) / 2 == Shl(x, s - 1);
      LowShl(x, s - 1, k - 1);
    }
  }

  lemma {:induction false} ShrXor(x: nat, y: nat, k: nat)
    ensures Shr(Xor(x, y), k) == Xor(Shr(x, k), Shr(y, k))
  {
    if k != 0 {
      XorHalf(x, y);
      ShrXor(x / 2, y / 2, k - 1);
    }
  }

  /** Fields that do not overlap are joined by adding or by exclusive or. */
  lemma {:induction false} XorDisjoint(q: nat, r: nat, k: nat)
    requires r < Pow2(k)
    ensures Xor(Shl(q, k), r) == Shl(q, k) + r
  {
    hide Xor;
    if k == 0 {
      XorComm(q, 0);
      XorZero(q);
    } else {
      XorHalf(Shl(q, k), r);
      assert Shl(q, k) / 2 == Shl(q, k - 1) && Shl(q, k) % 2 == 0;
      XorDisjoint(q, r / 2, k - 1);
    }
  }

  // ------------------------------------------------------------- bytes in a row

  /** The bytes as one number, the first lowest. */
  function Load(bs: seq<byte>): nat
    decreases |bs|
  {
    if bs == [] then 0 else bs[0] + Shl(Load(bs[1..]), 8)
  }

  lemma ShlByte(x: nat)
    ensures Shl(x, 8) == 256 * x
  {
    assert Shl(x, 1) == 2 * x;
    assert Shl(x, 2) == 4 * x;
    assert Shl(x, 3) == 8 * x;
    assert Shl(x, 4) == 16 * x;
    assert Shl(x, 5) == 32 * x;
    assert Shl(x, 6) == 64 * x;
  }

  lemma ShlNone(x: nat)
    ensures Shl(x, 0) == x
  {
  }

  lemma {:induction false} LoadAppend(bs: seq<byte>, cs: seq<byte>)
    ensures Load(bs + cs) == Load(bs) + Shl(Load(cs), 8 * |bs|)
    decreases |bs|
  {
    hide Shl;
    if bs == [] {
      assert bs + cs == cs;
      ShlNone(Load(cs));
    } else {
      assert (bs + cs)[1..] == bs[1..] + cs;
      LoadAppend(bs[1..], cs);
      ShlAdd(Load(bs[1..]), Shl(Load(cs), 8 * |bs| - 8), 8);
      ShlShl(Load(cs), 8 * |bs| - 8, 8);
    }
  }

  lemma {:induction false} LoadBound(bs: seq<byte>)
    ensures Load(bs) < Pow2(8 * |bs|)
  {
    hide Pow2;
    if bs == [] {
      assert Pow2(0) > 0;
    } else {
      Pow2Byte();
      LoadBound(bs[1..]);
      ShlBound(Load(bs[1..]), 8, 8 * |bs| - 8);
    }
  }

  // ------------------------------------------------------------------ inclusive or

  function Or(x: nat, y: nat): nat
    decreases x + y
  {
    if x + y == 0 then 0 else (if x % 2 == 1 || y % 2 == 1 then 1 else 0) + 2 * Or(x / 2, y / 2)
  }

  lemma {:induction false} OrZero(y: nat)
    ensures Or(0, y) == y
  {
    if y != 0 { OrZero(y / 2); }
  }

  lemma {:induction false} OrDisjoint(r: nat, q: nat, k: nat)
    requires r < Pow2(k)
    ensures Or(r, Shl(q, k)) == r + Shl(q, k)
  {
    if k == 0 {
      OrZero(q);
    } else {
      assert Shl(q, k) / 2 == Shl(q, k - 1) && Shl(q, k) % 2 == 0;
      OrDisjoint(r / 2, q, k - 1);
    }
  }
}
