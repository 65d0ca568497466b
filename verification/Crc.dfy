/**
 CRC-32 (section 8 of RFC 1952) and what zlib/crc32.c does a byte at a time: its
 table, the update step, powers of x by repeated squaring, and joining the checks of
 two pieces of data without the data.
 */
module Crc {
  import opened BitOps
  import opened ByteOrder
  import opened CrcPoly

  const ALL: nat := 0xffff_ffff

  // ---------------------------------------------------------- bit at a time

  /** The low n bits of b enter the register, the lowest first. */
  function FeedBits(c: nat, b: nat, n: nat): nat
    decreases n
  {
    if n == 0 then c else FeedBits(Step(Xor(c, b % 2)), b / 2, n - 1)
  }

  function CrcBytes(c: nat, data: seq<byte>): nat
    decreases |data|
  {
    if data == [] then c else CrcBytes(FeedBits(c, data[0], 8), data[1..])
  }

  /** The check of data appended to data whose check is crc. */
  function Crc32(crc: nat, data: seq<byte>): nat {
    Xor(CrcBytes(Xor(crc, ALL), data), ALL)
  }

  // --------------------------------------------------- the register as a sum

  lemma StepDouble(y: nat)
    ensures Step(2 * y) == y
  {
  }

  lemma StepSplit(c: nat, b: nat)
    ensures Step(Xor(c, b)) == Xor(Step(Xor(c, b % 2)), b / 2)
  {
    hide Xor, Step;
    XorDisjoint(b / 2, b % 2, 1);
    assert Shl(b / 2, 1) == 2 * (b / 2);
    XorComm(2 * (b / 2), b % 2);
    XorAssoc(c, b % 2, 2 * (b / 2));
    StepXor(Xor(c, b % 2), 2 * (b / 2));
    StepDouble(b / 2);
  }

  /** Feeding bits one by one is adding them all and then stepping. */
  lemma {:induction false} FeedIsStep(c: nat, b: nat, n: nat)
    requires b < Pow2(n)
    ensures FeedBits(c, b, n) == StepN(Xor(c, b), n)
    decreases n
  {
    if n == 0 {
      XorComm(c, 0);
      XorZero(c);
    } else {
      hide Xor, Step;
      StepSplit(c, b);
      FeedIsStep(Step(Xor(c, b % 2)), b / 2, n - 1);
    }
  }

  lemma FeedByte(c: nat, b: byte)
    ensures FeedBits(c, b, 8) == StepN(Xor(c, b), 8)
  {
    assert Pow2(8) == 256;
    FeedIsStep(c, b, 8);
  }

  lemma LoadSplit(bs: seq<byte>)
    requires bs != []
    ensures Load(bs) == Xor(bs[0], Shl(Load(bs[1..]), 8))
  {
    assert Pow2(8) == 256;
    XorDisjoint(Load(bs[1..]), bs[0], 8);
    XorComm(bs[0], Shl(Load(bs[1..]), 8));
  }

  /** Any number of bytes go through the register as one number added and stepped. */
  lemma {:induction false} CrcIsStep(c: nat, bs: seq<byte>)
    ensures CrcBytes(c, bs) == StepN(Xor(c, Load(bs)), 8 * |bs|)
    decreases |bs|
  {
    hide Xor, FeedBits;
    if bs == [] {
      XorComm(c, 0);
      XorZero(c);
    } else {
      var b, rest := bs[0], bs[1..];
      LoadSplit(bs);
      FeedByte(c, b);
      CrcIsStep(FeedBits(c, b, 8), rest);
      XorAssoc(c, b, Shl(Load(rest), 8));
      StepNXor(Xor(c, b), Shl(Load(rest), 8), 8);
      StepNShl(Load(rest), 8);
      StepNAdd(Xor(c, Load(bs)), 8, 8 * |rest|);
    }
  }

  /** What is added to the register beforehand comes out stepped. */
  lemma CrcShift(a: nat, b: nat, bs: seq<byte>)
    ensures CrcBytes(Xor(a, b), bs) == Xor(CrcBytes(a, bs), StepN(b, 8 * |bs|))
  {
    hide Xor, Load, CrcBytes, StepN;
    CrcIsStep(Xor(a, b), bs);
    CrcIsStep(a, bs);
    XorAssoc(a, b, Load(bs));
    XorComm(b, Load(bs));
    XorAssoc(a, Load(bs), b);
    StepNXor(Xor(a, Load(bs)), b, 8 * |bs|);
  }

  lemma {:induction false} CrcConcat(c: nat, a: seq<byte>, b: seq<byte>)
    ensures CrcBytes(c, a + b) == CrcBytes(CrcBytes(c, a), b)
    decreases |a|
  {
    if a == [] {
      assert a + b == b;
    } else {
      assert (a + b)[1..] == a[1..] + b;
      CrcConcat(FeedBits(c, a[0], 8), a[1..], b);
    }
  }

  lemma {:induction false} CrcWord(c: nat, bs: seq<byte>)
    requires Word32(c)
    ensures Word32(CrcBytes(c, bs))
    decreases |bs|
  {
    if bs != [] {
      Constants();
      FeedByte(c, bs[0]);
      XorBound(c, bs[0], 32);
      StepNWord(Xor(c, bs[0]), 8);
      CrcWord(FeedBits(c, bs[0], 8), bs[1..]);
    }
  }

  // ------------------------------------------------------------ byte at a time

  ghost predicate ByteTable(t: seq<nat>) {
    |t| == 256 && forall i :: 0 <= i < 256 ==> t[i] == StepN(i, 8)
  }

  /** A register loses its low byte, and the table says what that byte turns into. */
  lemma TableStep(t: seq<nat>, d: nat)
    requires ByteTable(t)
    ensures Low(d, 8) < 256 && StepN(d, 8) == Xor(Shr(d, 8), t[Low(d, 8)])
  {
    assert Pow2(8) == 256;
    Split(d, 8);
    hide Xor, StepN, Shl, Shr, Low;
    XorDisjoint(Shr(d, 8), Low(d, 8), 8);
    StepNXor(Shl(Shr(d, 8), 8), Low(d, 8), 8);
    StepNShl(Shr(d, 8), 8);
  }

  lemma UpdateIsFeed(t: seq<nat>, c: nat, b: byte)
    requires ByteTable(t)
    ensures Low(Xor(c, b), 8) < 256 && Xor(Shr(c, 8), t[Low(Xor(c, b), 8)]) == FeedBits(c, b, 8)
  {
    assert Pow2(8) == 256;
    LowSmall(b, 8);
    hide Xor, StepN, Shr, Low, FeedBits;
    TableStep(t, Xor(c, b));
    FeedByte(c, b);
    ShrXor(c, b, 8);
    XorComm(Shr(c, 8), 0);
    XorZero(Shr(c, 8));
  }

  /** crc = (crc >> 8) ^ crc_table[(crc ^ *buf++) & 0xff]. */
  method Update(t: array<nat>, c: nat, b: byte) returns (r: nat)
    requires ByteTable(t[..])
    ensures r == FeedBits(c, b, 8)
  {
    UpdateIsFeed(t[..], c, b);
    r := Xor(Shr(c, 8), t[Low(Xor(c, b), 8)]);
  }

  /** The inner loop of zlib/crc32.c:287-296, for n bits. */
  method ByteEntry(i: nat, n: nat) returns (p: nat)
    ensures p == StepN(i, n)
  {
    p := i;
    for j := 0 to n
      invariant StepN(p, n - j) == StepN(i, n)
    {
      p := if p % 2 == 1 then Xor(p / 2, POLY) else p / 2;
    }
  }

  /** The same table for a big-endian machine with words of w bytes. */
  ghost predicate BigTable(t: seq<nat>, w: nat) {
    |t| == 256 && forall i :: 0 <= i < 256 ==> t[i] == Swap(w, StepN(i, 8))
  }

  /** zlib/crc32.c:287-296. */
  method MakeByteTable(w: nat) returns (t: array<nat>, big: array<nat>)
    requires w == 4 || w == 8
    ensures fresh(t) && fresh(big) && t != big && ByteTable(t[..]) && BigTable(big[..], w)
  {
    hide StepN, Swap;
    t := new nat[256];
    big := new nat[256];
    for i := 0 to 256
      invariant forall k :: 0 <= k < i ==> t[k] == StepN(k, 8)
      invariant forall k :: 0 <= k < i ==> big[k] == Swap(w, StepN(k, 8))
    {
      var p := ByteEntry(i, 8);
      t[i] := p;
      big[i] := ByteSwap(p, w);
    }
  }
}
