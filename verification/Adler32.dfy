/**
 Adler-32 (section 8.2 of RFC 1950): the fast form of zlib/adler32.c, which reduces
 once in 5552 bytes, against sums reduced after every byte, and the joining of checks.
 Unsigned long is taken as 32 bits wide, and every addition that could wrap does.
 */
module Adler32 {
  import opened BitOps

  const BASE: nat := 65521
  const NMAX: nat := 5552

  datatype Sums = Sums(s1: nat, s2: nat)

  /** MOD, MOD28 and MOD63. */
  function Mod(x: int): (r: nat)
    ensures r < BASE
  {
    x % BASE
  }

  function Unpack(adler: nat): Sums {
    Sums(Low(adler, 16), Low(Shr(adler, 16), 16))
  }

  function Pack(s: Sums): nat {
    Or(s.s1, Shl(s.s2, 16))
  }

  ghost predicate Reduced(s: Sums) {
    s.s1 < BASE && s.s2 < BASE
  }

  /** The sums reduced after every byte. */
  function Feed(s: Sums, data: seq<byte>): Sums
    decreases |data|
  {
    if data == [] then s
    else
      var r := Feed(s, data[..|data| - 1]);
      var s1 := Mod(r.s1 + data[|data| - 1]);
      Sums(s1, Mod(r.s2 + s1))
  }

  /** The check of data appended to data whose check is adler. */
  function Check(adler: nat, data: seq<byte>): nat {
    Pack(Feed(Unpack(adler), data))
  }

  lemma PackUnpack(s: Sums)
    requires s.s1 < 0x10000 && s.s2 < 0x10000
    ensures Unpack(Pack(s)) == s && Pack(s) < 0x1_0000_0000
  {
    hide Low, Shr, Shl, Or, Pow2;
    Pow2Short();
    OrDisjoint(s.s1, s.s2, 16);
    SplitUnique(s.s2, s.s1, 16);
    LowSmall(s.s2, 16);
    ShlBound(s.s2, 16, 16);
    Pow2Word();
  }

  lemma Pow2Word()
    ensures Pow2(32) == 0x1_0000_0000
  {
    hide Shl;
    Pow2Short();
    Pow2Add(16, 16);
    ShlTimes(0x10000, 16);
  }

  lemma {:induction false} ShlTimes(x: nat, k: nat)
    ensures Shl(x, k) == x * Pow2(k)
  {
    if k != 0 { ShlTimes(x, k - 1); }
  }

  lemma UnpackPack(adler: nat)
    requires adler < 0x1_0000_0000
    ensures Pack(Unpack(adler)) == adler
    ensures Unpack(adler).s1 < 0x10000 && Unpack(adler).s2 < 0x10000
  {
    hide Low, Shr, Shl, Or, Pow2;
    Pow2Short();
    Pow2Word();
    Split(adler, 16);
    ShrBound(adler, 16, 16);
    LowSmall(Shr(adler, 16), 16);
    OrDisjoint(Low(adler, 16), Shr(adler, 16), 16);
  }

  // ------------------------------------------- the sums without any reduction

  function Total(data: seq<byte>): nat
    decreases |data|
  {
    if data == [] then 0 else Total(data[..|data| - 1]) + data[|data| - 1]
  }

  /** Every byte counted once for itself and once for each byte after it. */
  function Weighted(data: seq<byte>): nat
    decreases |data|
  {
    if data == [] then 0 else Weighted(data[..|data| - 1]) + Total(data)
  }

  /** The running sums of the loop after data. */
  function Plain(s: Sums, data: seq<byte>): Sums {
    Sums(s.s1 + Total(data), s.s2 + |data| * s.s1 + Weighted(data))
  }

  function ModBoth(s: Sums): Sums {
    Sums(Mod(s.s1), Mod(s.s2))
  }

  lemma TotalAppend(a: seq<byte>, b: seq<byte>)
    ensures Total(a + b) == Total(a) + Total(b)
    decreases |b|
  {
    if b == [] {
      assert a + b == a;
    } else {
      assert (a + b)[..|a + b| - 1] == a + b[..|b| - 1];
      TotalAppend(a, b[..|b| - 1]);
    }
  }

  lemma PlainOne(s: Sums, data: seq<byte>, x: byte)
    ensures Plain(s, data + [x]).s1 == Plain(s, data).s1 + x
    ensures Plain(s, data + [x]).s2 == Plain(s, data).s2 + Plain(s, data + [x]).s1
  {
    assert (data + [x])[..|data|] == data;
    assert |data + [x]| * s.s1 == |data| * s.s1 + s.s1;
  }

  lemma ModAdd(x: nat, y: nat)
    ensures Mod(Mod(x) + y) == Mod(x + y)
  {
  }

  /** One modulo at the end gives what a modulo after every byte gives. */
  lemma {:induction false} FeedIsPlain(s: Sums, data: seq<byte>)
    requires data != []
    ensures Feed(s, data) == ModBoth(Plain(s, data))
    decreases |data|
  {
    hide Plain, Total, Weighted;
    var a, x := data[..|data| - 1], data[|data| - 1];
    assert data == a + [x];
    PlainOne(s, a, x);
    if a == [] {
      PlainNone(s);
    } else {
      FeedIsPlain(s, a);
      ModAdd(Plain(s, a).s1, x);
      ModAdd(Plain(s, a).s2, Feed(s, data).s1);
    }
    ModAdd(Plain(s, data).s1, Plain(s, a).s2);
  }

  lemma PlainNone(s: Sums)
    ensures Plain(s, []) == s
  {
    assert 0 * s.s1 == 0;
  }

  lemma {:induction false} FeedAppend(s: Sums, a: seq<byte>, b: seq<byte>)
    ensures Feed(s, a + b) == Feed(Feed(s, a), b)
    decreases |b|
  {
    if b == [] {
      assert a + b == a;
    } else {
      assert (a + b)[..|a + b| - 1] == a + b[..|b| - 1];
      FeedAppend(s, a, b[..|b| - 1]);
    }
  }

  lemma {:induction false} FeedReduced(s: Sums, data: seq<byte>)
    ensures data != [] || Reduced(s) ==> Reduced(Feed(s, data))
  {
  }

  // -------------------------------------------------------- the overflow bound

  lemma {:induction false} TotalBound(data: seq<byte>)
    ensures Total(data) <= 255 * |data|
    ensures 2 * Weighted(data) <= 255 * (|data| * (|data| + 1))
    decreases |data|
  {
    if data != [] {
      var n := |data| - 1;
      TotalBound(data[..n]);
      assert (n + 1) * (n + 2) == n * (n + 1) + 2 * (n + 1);
    }
  }

  lemma Square(n: nat, m: nat)
    requires n <= m
    ensures n * (n + 1) <= m * (m + 1)
  {
    assert n * (n + 1) <= n * (m + 1) <= m * (m + 1);
  }

  lemma Product(n: nat, m: nat, x: nat, y: nat)
    requires n <= m && x <= y
    ensures n * x <= m * y
  {
    assert n * x <= m * x <= m * y;
  }

  /** Below NMAX bytes neither sum leaves 32 bits, even from unreduced halves. */
  lemma PlainFits(s: Sums, data: seq<byte>)
    requires |data| <= NMAX && s.s1 < 0x10000 && s.s2 < 0x10000
    ensures Plain(s, data).s1 < 0x1_0000_0000 && Plain(s, data).s2 < 0x1_0000_0000
  {
    TotalBound(data);
    Square(|data|, NMAX);
    Product(|data|, NMAX, s.s1, 0xffff);
  }

  /** One byte more than NMAX can overflow: the block length is the largest. */
  lemma NmaxLargest()
    ensures exists s: Sums, data: seq<byte> :: Reduced(s) && |data| == NMAX + 1
                                               && Plain(s, data).s2 > 0xffff_ffff
  {
    var s := Sums(BASE - 1, BASE - 1);
    var data := seq(NMAX + 1, i => 255 as byte);
    AllOnes(data);
    assert Plain(s, data).s2 > 0xffff_ffff;
  }

  lemma {:induction false} AllOnes(data: seq<byte>)
    requires forall i :: 0 <= i < |data| ==> data[i] == 255
    ensures Total(data) == 255 * |data|
    ensures 2 * Weighted(data) == 255 * (|data| * (|data| + 1))
    decreases |data|
  {
    if data != [] {
      var n := |data| - 1;
      AllOnes(data[..n]);
      assert (n + 1) * (n + 2) == n * (n + 1) + 2 * (n + 1);
    }
  }

  function Wrap(x: nat): nat {
    x % 0x1_0000_0000
  }

  // ------------------------------------------------------------- adler32_z

  /** DO1 over the first n bytes of data from position start. */
  method AddBytes(adler0: nat, sum0: nat, data: seq<byte>, start: nat, n: nat)
      returns (adler: nat, sum2: nat)
    requires start + n <= |data| && n <= NMAX && adler0 < 0x10000 && sum0 < 0x10000
    ensures Sums(adler, sum2) == Plain(Sums(adler0, sum0), data[start..start + n])
    ensures adler < 0x1_0000_0000 && sum2 < 0x1_0000_0000
  {
    hide Plain, Total, Weighted;
    ghost var s := Sums(adler0, sum0);
    adler, sum2 := adler0, sum0;
    PlainNone(s);
    assert data[start..start] == [];
    PlainFits(s, []);
    for i := 0 to n
      invariant Sums(adler, sum2) == Plain(s, data[start..start + i])
      invariant adler < 0x1_0000_0000 && sum2 < 0x1_0000_0000
    {
      assert data[start..start + (i + 1)] == data[start..start + i] + [data[start + i]];
      PlainOne(s, data[start..start + i], data[start + i]);
      PlainFits(s, data[start..start + (i + 1)]);
      adler := Wrap(adler + data[start + i]);
      sum2 := Wrap(sum2 + adler);
    }
  }

  datatype Buffer = Null | Bytes(data: seq<byte>)

  lemma FeedOne(s: Sums, x: byte)
    ensures Feed(s, [x]) == Sums(Mod(s.s1 + x), Mod(s.s2 + Mod(s.s1 + x)))
  {
    assert Feed(s, []) == s;
  }

  /** After a block the halves go on as if reduced after every byte. */
  lemma BlockDone(s: Sums, data: seq<byte>, i: nat, n: nat, t: Sums)
    requires i + n <= |data| && n > 0 && t == Feed(s, data[..i])
    ensures ModBoth(Plain(t, data[i..i + n])) == Feed(s, data[..i + n])
  {
    hide Plain, Feed, ModBoth;
    FeedIsPlain(t, data[i..i + n]);
    FeedAppend(s, data[..i], data[i..i + n]);
    assert data[..i] + data[i..i + n] == data[..i + n];
  }

  /**
   The result is the check reduced after every byte.  Only calls with at most one byte
   can tell whether the halves they are given were reduced.
   */
  method Adler32Z(adler0: nat, buf: Buffer, len: nat) returns (r: nat)
    requires adler0 < 0x1_0000_0000
    requires if buf.Null? then len != 1 else len == |buf.data|
    ensures buf.Null? ==> r == 1
    ensures buf.Bytes? && (len > 1 || Reduced(Unpack(adler0))) ==> r == Check(adler0, buf.data)
    ensures buf.Bytes? && len == 0 ==> r == Pack(ModBoth(Unpack(adler0)))
    ensures buf.Bytes? && Reduced(Unpack(adler0)) ==> Reduced(Unpack(r))
    ensures r < 0x1_0000_0000
  {
    hide Low, Shr, Shl, Or, Pow2, Plain, Total, Weighted, Feed, Mod;
    var sum2: nat, adler: nat := Low(Shr(adler0, 16), 16), Low(adler0, 16);
    ghost var s := Sums(adler, sum2);
    UnpackPack(adler0);
    if len == 1 {
      FeedOne(s, buf.data[0]);
      assert buf.data == [buf.data[0]];
      adler := adler + buf.data[0];
      ModOnce(adler);
      if adler >= BASE {
        adler := adler - BASE;
      }
      sum2 := sum2 + adler;
      if Reduced(s) { ModOnce(sum2); }
      if sum2 >= BASE {
        sum2 := sum2 - BASE;
      }
      PackUnpack(Sums(adler, sum2));
      return Or(adler, Shl(sum2, 16));
    }
    if buf.Null? {
      UnpackOne();
      return 1;
    }
    var data := buf.data;
    FeedNone(s);
    if len < 16 {
      adler, sum2 := AddBytes(adler, sum2, data, 0, len);
      assert data[0..0 + len] == data;
      ShortTotal(s, data);
      ModOnce(adler);
      if adler >= BASE {
        adler := adler - BASE;
      }
      sum2 := Mod(sum2);
      if len > 0 {
        FeedIsPlain(s, data);
      } else {
        assert data == [];
        PlainNone(s);
        if Reduced(s) { ModOnce(s.s2); }
      }
      PackUnpack(Sums(adler, sum2));
      return Or(adler, Shl(sum2, 16));
    }
    var i := 0;
    assert data[..0] == [];
    while len - i >= NMAX
      invariant i <= len
      invariant Sums(adler, sum2) == Feed(s, data[..i])
      invariant adler < 0x10000 && sum2 < 0x10000
    {
      ghost var t := Sums(adler, sum2);
      adler, sum2 := AddBytes(adler, sum2, data, i, NMAX);
      BlockDone(s, data, i, NMAX, t);
      adler, sum2 := Mod(adler), Mod(sum2);
      i := i + NMAX;
    }
    if len != i {
      ghost var t := Sums(adler, sum2);
      adler, sum2 := AddBytes(adler, sum2, data, i, len - i);
      BlockDone(s, data, i, len - i, t);
      adler, sum2 := Mod(adler), Mod(sum2);
    }
    assert data[..len] == data;
    FeedReduced(s, data);
    PackUnpack(Sums(adler, sum2));
    return Or(adler, Shl(sum2, 16));
  }

  lemma FeedNone(s: Sums)
    ensures Feed(s, []) == s
  {
  }

  lemma ModOnce(x: nat)
    requires x < 2 * BASE
    ensures Mod(x) == if x >= BASE then x - BASE else x
  {
  }

  lemma UnpackOne()
    ensures Unpack(1) == Sums(1, 0)
  {
    hide Pow2;
    Pow2Short();
    LowSmall(1, 16);
    LowSmall(0, 16);
  }

  /** Fewer than sixteen bytes carry the first sum past BASE at most once. */
  lemma ShortTotal(s: Sums, data: seq<byte>)
    requires |data| < 16 && s.s1 < 0x10000
    ensures Plain(s, data).s1 < 2 * BASE
  {
    TotalBound(data);
  }

  // ------------------------------------------------------- adler32_combine_

  /** The check of a + b from the checks of a and b and the length of b. */
  function Joined(s: Sums, t: Sums, len2: nat): Sums {
    Sums(Mod(s.s1 + t.s1 - 1), Mod(s.s2 + t.s2 + Times(len2, s.s1) - len2))
  }

  /** Starting the second piece afresh loses nothing. */
  lemma {:induction false} JoinedIsFeed(s: Sums, data: seq<byte>)
    requires Reduced(s)
    ensures Joined(s, Feed(Sums(1, 0), data), |data|) == Feed(s, data)
  {
    hide Total, Weighted, Feed, Mod;
    FeedNone(s);
    FeedNone(Sums(1, 0));
    var n := |data|;
    if data == [] {
      ModSmall(s.s1);
      ModSmall(s.s2);
    } else {
      FeedIsPlain(s, data);
      FeedIsPlain(Sums(1, 0), data);
      FreshSums(data);
      JoinedFirst(s.s1, Total(data));
      JoinedSecond(s.s2, n * s.s1, n, Weighted(data));
    }
  }

  lemma FreshSums(data: seq<byte>)
    ensures Plain(Sums(1, 0), data) == Sums(1 + Total(data), |data| + Weighted(data))
  {
    hide Total, Weighted;
  }

  lemma JoinedFirst(s1: nat, total: nat)
    ensures Mod(s1 + Mod(1 + total) - 1) == Mod(s1 + total)
  {
    ModMiddle(s1 - 1, 1 + total);
  }

  lemma JoinedSecond(s2: nat, p: nat, n: nat, weighted: nat)
    ensures Mod(s2 + Mod(n + weighted) + p - n) == Mod(s2 + p + weighted)
  {
    ModMiddle(s2 + p - n, n + weighted);
  }

  lemma ModSmall(x: nat)
    requires x < BASE
    ensures Mod(x) == x
  {
  }

  lemma ModMiddle(x: int, y: nat)
    ensures Mod(x + Mod(y)) == Mod(x + y)
  {
  }

  /** `if (x >= m) x -= m`. */
  function Less(x: nat, m: nat): (r: nat)
    ensures r <= x
  {
    if x >= m then x - m else x
  }

  /** The conditional subtractions of adler32_combine_ are a modulo. */
  lemma Settle(x: nat)
    requires x < 4 * BASE
    ensures Less(Less(x, 2 * BASE), BASE) == Mod(x)
  {
  }

  lemma SettleTwice(x: nat)
    requires x < 3 * BASE
    ensures Less(Less(x, BASE), BASE) == Mod(x)
  {
  }

  /** The second sum as adler32_combine_ collects it. */
  lemma SecondSum(s: Sums, t: Sums, n: nat, m: nat, x: nat)
    requires Reduced(s) && Reduced(t) && m == Mod(Times(n, s.s1))
    requires x == m + s.s2 + t.s2 + BASE - Mod(n)
    ensures Mod(x) == Mod(s.s2 + t.s2 + Times(n, s.s1) - n)
  {
    var p := n * s.s1;
    ModMiddle(s.s2 + t.s2 + BASE - Mod(n), p);
    ModTaken(s.s2 + t.s2 + p, n);
  }

  lemma ModTaken(x: nat, n: nat)
    ensures Mod(x + BASE - Mod(n)) == Mod(x - n)
  {
  }

  lemma BothSums(s: Sums, t: Sums, n: nat, m: nat, x1: nat, x2: nat)
    requires Reduced(s) && Reduced(t) && m == Mod(Times(n, s.s1))
    requires x1 == s.s1 + t.s1 + BASE - 1
    requires x2 == m + s.s2 + t.s2 + BASE - Mod(n)
    ensures Sums(Mod(x1), Mod(x2)) == Joined(s, t, n)
  {
    hide Mod;
    FirstSum(s, t);
    SecondSum(s, t, n, m, x2);
  }

  lemma FirstSum(s: Sums, t: Sums)
    ensures Mod(s.s1 + t.s1 + BASE - 1) == Mod(s.s1 + t.s1 - 1)
  {
  }

  lemma CheckUnpacked(adler: nat, data: seq<byte>)
    requires adler < 0x1_0000_0000 && Reduced(Unpack(adler))
    ensures Unpack(Check(adler, data)) == Feed(Unpack(adler), data)
    ensures Reduced(Unpack(Check(adler, data))) && Check(adler, data) < 0x1_0000_0000
  {
    hide Unpack, Pack, Feed;
    FeedReduced(Unpack(adler), data);
    PackUnpack(Feed(Unpack(adler), data));
  }

  /** Checking goes on where it stopped. */
  lemma CheckAppend(adler: nat, a: seq<byte>, b: seq<byte>)
    requires adler < 0x1_0000_0000 && Reduced(Unpack(adler))
    ensures Check(Check(adler, a), b) == Check(adler, a + b)
    ensures Reduced(Unpack(Check(adler, a))) && Check(adler, a) < 0x1_0000_0000
  {
    hide Unpack, Pack, Feed;
    CheckUnpacked(adler, a);
    FeedAppend(Unpack(adler), a, b);
  }

  /** Joining the checks of two pieces gives the check of the whole. */
  lemma JoinedCheck(adler: nat, a: seq<byte>, b: seq<byte>)
    requires adler < 0x1_0000_0000 && Reduced(Unpack(adler))
    ensures Pack(Joined(Unpack(Check(adler, a)), Unpack(Check(1, b)), |b|)) == Check(adler, a + b)
  {
    UnpackOne();
    CheckUnpacked(adler, a);
    CheckUnpacked(1, b);
    JoinedSums(Unpack(adler), a, b);
  }

  lemma JoinedSums(s: Sums, a: seq<byte>, b: seq<byte>)
    requires Reduced(s)
    ensures Joined(Feed(s, a), Feed(Sums(1, 0), b), |b|) == Feed(s, a + b)
  {
    hide Joined, Feed;
    FeedReduced(s, a);
    JoinedIsFeed(Feed(s, a), b);
    FeedAppend(s, a, b);
  }

  function Times(x: nat, y: nat): nat {
    x * y
  }

  /** The product fits in 32 bits and stands for the one with the whole length. */
  lemma TimesFits(n: nat, x: nat)
    requires x < 0x10000
    ensures Mod(Times(Mod(n), x)) == Mod(Times(n, x))
    ensures Times(Mod(n), x) < 0x1_0000_0000
  {
    var q, r := n / BASE, n % BASE;
    assert n * x == (BASE * q + r) * x == BASE * (q * x) + r * x;
    Product(r, BASE, x, 0xffff);
  }

  /** For reduced checks the conditional subtractions always suffice. */
  method Combine(adler1: nat, adler2: nat, len2: int) returns (r: nat)
    requires adler1 < 0x1_0000_0000 && adler2 < 0x1_0000_0000
    ensures len2 < 0 ==> r == 0xffff_ffff
    ensures len2 >= 0 && Reduced(Unpack(adler1)) && Reduced(Unpack(adler2))
      ==> r == Pack(Joined(Unpack(adler1), Unpack(adler2), len2))
  {
    hide Low, Shr, Shl, Or, Pow2, Mod, Joined, Less, Times;
    if len2 < 0 {
      return 0xffff_ffff;
    }
    UnpackPack(adler1);
    UnpackPack(adler2);
    var rem: nat := Mod(len2);
    var sum1: nat := Low(adler1, 16);
    var sum2: nat := Wrap(Times(rem, sum1));
    TimesFits(len2, sum1);
    sum2 := Mod(sum2);
    ghost var m := sum2;
    ghost var s, t := Unpack(adler1), Unpack(adler2);
    sum1 := Wrap(sum1 + Low(adler2, 16) + BASE - 1);
    sum2 := Wrap(sum2 + Low(Shr(adler1, 16), 16) + Low(Shr(adler2, 16), 16) + BASE - rem);
    ghost var x1, x2 := sum1, sum2;
    sum1 := Less(sum1, BASE);
    sum1 := Less(sum1, BASE);
    sum2 := Less(sum2, 2 * BASE);
    sum2 := Less(sum2, BASE);
    if Reduced(s) && Reduced(t) {
      SettleTwice(x1);
      Settle(x2);
      BothSums(s, t, len2, m, x1, x2);
    }
    return Or(sum1, Shl(sum2, 16));
  }

  /** Checking two pieces apart and joining the checks is checking them together. */
  method CheckInTwo(a: seq<byte>, b: seq<byte>) returns (r: nat)
    ensures r == Check(1, a + b)
  {
    hide Check, Feed, Unpack, Pack, Joined;
    UnpackOne();
    var adler1 := Adler32Z(1, Bytes(a), |a|);
    var adler2 := Adler32Z(1, Bytes(b), |b|);
    JoinedCheck(1, a, b);
    r := Combine(adler1, adler2, |b|);
  }
}
