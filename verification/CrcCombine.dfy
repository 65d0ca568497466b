/**
 Joining checks (zlib/crc32.c:571-589 and 1081-1090): the check of two pieces of data
 from their checks and the length of the second, by a power of x.
 */
module CrcCombine {
  import opened BitOps
  import opened CrcPoly
  import opened CrcPeriod
  import opened Crc

  /** x2n_table: x^(2^n) for n < 32. */
  ghost predicate Powers(t: seq<nat>) {
    |t| == 32 && forall n :: 0 <= n < 32 ==> t[n] == Power(Pow2(n))
  }

  lemma FirstPower()
    ensures Power(Pow2(0)) == 0x4000_0000
  {
    assert Step(ONE) == 0x4000_0000;
    assert StepN(Step(ONE), 0) == Step(ONE);
  }

  /** zlib/crc32.c:298-302. */
  method MakePowers() returns (t: array<nat>)
    ensures fresh(t) && Powers(t[..])
  {
    hide Power, Mul;
    t := new nat[32];
    FirstPower();
    var p: nat := 0x4000_0000;
    t[0] := p;
    for n := 1 to 32
      invariant p == Power(Pow2(n - 1))
      invariant forall i :: 0 <= i < n ==> t[i] == Power(Pow2(i))
    {
      PowerWord(Pow2(n - 1));
      p := MultModP(p, p);
      PowerAdd(Pow2(n - 1), Pow2(n - 1));
      t[n] := p;
    }
  }

  /** k & 31 names the same power as k. */
  lemma {:induction false} PowerMod(k: nat)
    ensures Power(Pow2(k)) == Power(Pow2(k % 32))
  {
    hide Power, Pow2;
    if k >= 32 {
      PowerPeriod(k - 32);
      PowerMod(k - 32);
    }
  }

  lemma ShlHalf(n: nat, k: nat)
    ensures Shl(n, k) == Shl(n / 2, k + 1) + (if n % 2 == 1 then Pow2(k) else 0)
  {
    ShlDouble(n / 2, k);
    ShlSucc(2 * (n / 2), k);
  }

  /** x2nmodp: x^(n 2^k). */
  method X2nModP(t: array<nat>, n0: nat, k0: nat) returns (p: nat)
    requires Powers(t[..])
    ensures p == Power(Shl(n0, k0))
  {
    hide Power, Mul, Pow2, Shl;
    ghost var e: nat := 0;
    var n, k := n0, k0;
    p := ONE;
    PowerZero();
    while n != 0
      invariant p == Power(e) && e + Shl(n, k) == Shl(n0, k0)
    {
      ShlHalf(n, k);
      if n % 2 == 1 {
        PowerMod(k);
        PowerWord(Pow2(k));
        PowerWord(e);
        PowerAdd(Pow2(k), e);
        assert t[..][k % 32] == Power(Pow2(k));
        p := MultModP(t[k % 32], p);
        e := Pow2(k) + e;
      }
      n := n / 2;
      k := k + 1;
    }
    ShlOne(k);
  }

  lemma PowerZero()
    ensures Power(0) == ONE
  {
  }

  lemma XorTwice(u: nat, v: nat)
    ensures Xor(v, Xor(u, v)) == u
  {
    hide Xor;
    XorComm(u, v);
    XorAssoc(v, v, u);
    XorSelf(v);
    XorZero(u);
  }

  lemma Crc32Word(c: nat, a: seq<byte>)
    requires Word32(c)
    ensures Word32(Crc32(c, a))
  {
    hide Xor;
    Constants();
    XorBound(c, ALL, 32);
    CrcWord(Xor(c, ALL), a);
    XorBound(CrcBytes(Xor(c, ALL), a), ALL, 32);
  }

  /** The check of a + b, however a's was begun, is a's times x^(8|b|) plus b's own. */
  lemma JoinedCheck(c: nat, a: seq<byte>, b: seq<byte>)
    requires Word32(c)
    ensures Crc32(c, a + b) == Xor(Mul(Power(8 * |b|), Crc32(c, a)), Crc32(0, b))
  {
    hide Xor, Power, CrcBytes, StepN;
    var u, x := CrcBytes(Xor(c, ALL), a), Crc32(c, a);
    var p, s := CrcBytes(ALL, b), StepN(x, 8 * |b|);
    Crc32Word(c, a);
    PowerMul(8 * |b|, x);
    CrcConcat(Xor(c, ALL), a, b);
    XorTwice(u, ALL);
    CrcShift(ALL, x, b);
    XorZero(ALL);
    XorComm(p, s);
    XorAssoc(s, p, ALL);
  }

  /** crc32_combine64. */
  method Combine(t: array<nat>, crc1: nat, crc2: nat, len2: nat) returns (r: nat)
    requires Powers(t[..]) && Word32(crc1)
    ensures r == Xor(Mul(Power(8 * len2), crc1), Low(crc2, 32))
  {
    hide Power, Mul, Xor;
    Shl8(len2);
    PowerWord(8 * len2);
    var x := X2nModP(t, len2, 3);
    var m := MultModP(x, crc1);
    r := Xor(m, Low(crc2, 32));
  }

  lemma Shl8(n: nat)
    ensures Shl(n, 3) == 8 * n
  {
    assert Shl(n, 1) == 2 * n;
  }

  /** crc32_combine64 on the checks of two pieces of data returns the check of both. */
  method CombineChecks(t: array<nat>, ghost a: seq<byte>, ghost b: seq<byte>, crc1: nat, crc2: nat, len2: nat)
    returns (r: nat)
    requires Powers(t[..]) && crc1 == Crc32(0, a) && crc2 == Crc32(0, b) && len2 == |b|
    ensures r == Crc32(0, a + b)
  {
    hide Power, Mul, Xor, Crc32;
    Constants();
    Crc32Word(0, a);
    Crc32Word(0, b);
    JoinedCheck(0, a, b);
    LowSmall(crc2, 32);
    r := Combine(t, crc1, crc2, len2);
  }
}
