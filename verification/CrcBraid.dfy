/**
 The braids of `crc32_z` (zlib/crc32.c:748-1067) on a little-endian machine: n interleaved checks over
 words of w bytes, combined at the end, equal the check taken a bit at a time.
 */
module CrcBraid {
  import opened BitOps
  import opened ByteOrder
  import opened CrcPoly
  import opened Crc
  import opened CrcCombine

  /** The bytes in n words of w bytes. */
  function Bytes(n: nat, w: nat): nat {
    if n == 0 then 0 else w + Bytes(n - 1, w)
  }

  // -------------------------------------------------------------- braid tables

  /** Row k turns byte k of a word into what it adds to the register one block further on. */
  ghost predicate BraidTable(t: array2<nat>, w: nat, block: nat)
    reads t
  {
    && t.Length0 == w && t.Length1 == 256 && w <= block
    && forall k, i :: 0 <= k < w && 0 <= i < 256 ==> t[k, i] == StepN(i, 8 * (block - k))
  }

  lemma TopByte(i: nat, p: nat)
    requires i < 256
    ensures Word32(Shl(i, 24)) && Mul(Shl(i, 24), Power(24 + p)) == StepN(i, p)
  {
    hide Mul, Power, StepN, Pow2, Shl;
    Pow2Byte();
    ShlBound(i, 24, 8);
    PowerWord(24 + p);
    MulComm(Shl(i, 24), Power(24 + p));
    PowerMul(24 + p, Shl(i, 24));
    StepNAdd(Shl(i, 24), 24, p);
    StepNShl(i, 24);
  }

  /** The same for a big-endian machine, where byte k of a word is the one that comes k-th from its end. */
  ghost predicate BigBraidTable(t: array2<nat>, w: nat, block: nat)
    reads t
  {
    && t.Length0 == w && t.Length1 == 256 && w <= block
    && forall k, i :: 0 <= k < w && 0 <= i < 256 ==> t[k, i] == Swap(w, StepN(i, 8 * (block - (w - 1 - k))))
  }

  /** Rows below k of the one table, and the rows of the other that go with them, are done. */
  ghost predicate RowsDone(t: array2<nat>, big: array2<nat>, w: nat, block: nat, n: nat)
    reads t, big
  {
    && t.Length0 == big.Length0 == w && t.Length1 == big.Length1 == 256 && n <= w <= block
    && (forall k, i :: 0 <= k < n && 0 <= i < 256 ==> t[k, i] == StepN(i, 8 * (block - k)))
    && forall k, i :: w - n <= k < w && 0 <= i < 256 ==> big[k, i] == Swap(w, StepN(i, 8 * (block - (w - 1 - k))))
  }

  /** The body of the loop at zlib/crc32.c:521-529. */
  method BraidRow(powers: array<nat>, t: array2<nat>, big: array2<nat>, block: nat, w: nat, k: nat)
    requires Powers(powers[..]) && (w == 4 || w == 8) && t != big && k < w && RowsDone(t, big, w, block, k)
    modifies t, big
    ensures RowsDone(t, big, w, block, k + 1)
  {
    hide Power, Mul, StepN, Pow2, Swap;
    ghost var far := 8 * (block - k);
    var p := X2nModP(powers, 8 * (block + 3 - k), 0);
    PowerWord(24 + far);
    t[k, 0] := 0;
    StepNZero(far);
    big[w - 1 - k, 0] := 0;
    SwapZero(w);
    for i := 1 to 256
      invariant RowsDone(t, big, w, block, k)
      invariant forall b :: 0 <= b < i ==> t[k, b] == StepN(b, far) && big[w - 1 - k, b] == Swap(w, StepN(b, far))
    {
      TopByte(i, far);
      ShlNonzero(i, 24);
      var q := MultModP(Shl(i, 24), p);
      t[k, i] := q;
      var swapped := ByteSwap(q, w);
      big[w - 1 - k, i] := swapped;
    }
  }

  /** braid (zlib/crc32.c:514-531). */
  method Braid(powers: array<nat>, block: nat, w: nat) returns (t: array2<nat>, big: array2<nat>)
    requires Powers(powers[..]) && (w == 4 || w == 8) && w <= block
    ensures fresh(t) && fresh(big) && BraidTable(t, w, block) && BigBraidTable(big, w, block)
  {
    hide StepN, Swap;
    t, big := new nat[w, 256], new nat[w, 256];
    for k := 0 to w
      invariant RowsDone(t, big, w, block, k)
    {
      BraidRow(powers, t, big, block, w, k);
    }
  }

  lemma ShlNonzero(i: nat, k: nat)
    requires i > 0
    ensures Shl(i, k) > 0
  {
  }

  lemma NextByte(word: nat, k: nat, e: nat)
    requires 8 * k <= e
    ensures StepN(Low(word, 8 * k + 8), e)
         == Xor(StepN(Low(word, 8 * k), e), StepN(Low(Shr(word, 8 * k), 8), e - 8 * k))
    ensures Low(Shr(word, 8 * k), 8) < 256
  {
    hide Xor, StepN, Pow2, Low, Shr, Shl;
    Pow2Byte();
    var b := Low(Shr(word, 8 * k), 8);
    LowAdd(word, 8 * k, 8);
    XorDisjoint(b, Low(word, 8 * k), 8 * k);
    XorComm(Shl(b, 8 * k), Low(word, 8 * k));
    StepNXor(Low(word, 8 * k), Shl(b, 8 * k), e);
    StepNAdd(Shl(b, 8 * k), 8 * k, e - 8 * k);
    StepNShl(b, 8 * k);
  }

  /** zlib/crc32.c:852-892 for one braid: the word goes through the register, and on over the rest of a block. */
  method BraidWord(t: array2<nat>, word: nat, w: nat, ghost block: nat) returns (c: nat)
    requires BraidTable(t, w, block) && word < Pow2(8 * w) && w >= 1
    ensures c == StepN(word, 8 * block)
  {
    hide Xor, StepN, Low, Shr;
    var e := 8 * block;
    NoneLow(word);
    StepNZero(8 * block);
    NextByte(word, 0, 8 * block);
    ShrNone(word);
    c := t[0, Low(word, 8)];
    XorZero(c);
    for k := 1 to w
      invariant c == StepN(Low(word, 8 * k), 8 * block)
    {
      NextByte(word, k, 8 * block);
      c := Xor(c, t[k, Low(Shr(word, 8 * k), 8)]);
    }
    LowSmall(word, 8 * w);
  }

  // ----------------------------------------------------------- the last block

  lemma {:induction false} StepShrinks(d: nat, m: nat)
    requires d < Pow2(32 + m)
    ensures Word32(StepN(d, m))
    decreases m
  {
    if m > 0 {
      Constants();
      Pow2Mono(32, 31 + m);
      XorBound(d / 2, POLY, 31 + m);
      StepShrinks(Step(d), m - 1);
    }
  }

  lemma WordShrinks(d: nat, w: nat)
    requires d < Pow2(8 * w) && w >= 4
    ensures Word32(StepN(d, 8 * w))
  {
    hide StepN, Pow2;
    StepShrinks(d, 8 * w - 32);
    StepNAdd(d, 8 * w - 32, 32);
    StepNWord(StepN(d, 8 * w - 32), 32);
  }

  /** crc_word (zlib/crc32.c:726-733). */
  method WordCheck(t: array<nat>, data0: nat, w: nat) returns (r: nat)
    requires ByteTable(t[..]) && data0 < Pow2(8 * w) && w >= 4
    ensures r == StepN(data0, 8 * w)
  {
    hide Xor, StepN, Low, Shr, Pow2;
    var data := data0;
    StepNone(data);
    for k := 0 to w
      invariant data == StepN(data0, 8 * k)
    {
      TableStep(t[..], data);
      StepNAdd(data0, 8 * k, 8);
      data := Xor(Shr(data, 8), t[Low(data, 8)]);
    }
    WordShrinks(data0, w);
    LowSmall(data, 32);
    r := Low(data, 32);
  }

  lemma StepNone(c: nat)
    ensures StepN(c, 0) == c
  {
  }

  /** A register and a word are added, and the word's bytes go through: that is a check of those bytes. */
  lemma WordIsBytes(c: nat, bs: seq<byte>)
    requires Word32(c) && |bs| >= 4
    ensures Xor(c, Load(bs)) < Pow2(8 * |bs|)
    ensures StepN(Xor(c, Load(bs)), 8 * |bs|) == CrcBytes(c, bs)
  {
    hide Xor, StepN, Load, CrcBytes, Pow2;
    LoadBound(bs);
    Pow2Mono(32, 8 * |bs|);
    XorBound(c, Load(bs), 8 * |bs|);
    CrcIsStep(c, bs);
  }

  // ------------------------------------------------------------------ the braids

  /** What the running checks amount to once their words' block has passed. */
  ghost function Pull(cs: seq<nat>, w: nat): nat {
    if cs == [] then 0 else Xor(StepN(cs[0], 8 * Bytes(|cs|, w)), Pull(cs[1..], w))
  }

  /** The last block: each braid takes in its word and the check of the braid before. */
  ghost function Combined(c: nat, cs: seq<nat>, data: seq<byte>, w: nat): nat
    requires |data| == Bytes(|cs|, w)
    decreases |cs|
  {
    if cs == [] then c else Combined(CrcBytes(Xor(c, cs[0]), data[..w]), cs[1..], data[w..], w)
  }

  lemma {:induction false} CombinedIs(c: nat, cs: seq<nat>, data: seq<byte>, w: nat)
    requires |data| == Bytes(|cs|, w)
    ensures Combined(c, cs, data, w) == Xor(CrcBytes(c, data), Pull(cs, w))
    decreases |cs|
  {
    hide Xor, StepN, Step, FeedBits;
    if cs == [] {
      XorComm(c, 0);
      XorZero(c);
    } else {
      var b, rest := data[..w], data[w..];
      var x, s := CrcBytes(c, b), StepN(cs[0], 8 * w);
      CombinedIs(CrcBytes(Xor(c, cs[0]), b), cs[1..], rest, w);
      CrcShift(c, cs[0], b);
      CrcShift(x, s, rest);
      StepNAdd(cs[0], 8 * w, 8 * |rest|);
      assert data == b + rest;
      CrcConcat(c, b, rest);
      XorAssoc(CrcBytes(x, rest), StepN(cs[0], 8 * |data|), Pull(cs[1..], w));
    }
  }

  /** Each braid's next check: its word's bytes, and on over the words of the other braids. */
  ghost predicate NextChecks(cs: seq<nat>, cs': seq<nat>, data: seq<byte>, w: nat, far: nat)
    requires |data| == Bytes(|cs|, w)
    decreases |cs|
  {
    && |cs'| == |cs|
    && (cs != [] ==> cs'[0] == StepN(CrcBytes(cs[0], data[..w]), far)
                     && NextChecks(cs[1..], cs'[1..], data[w..], w, far))
  }

  lemma {:induction false} NextPull(c: nat, cs: seq<nat>, cs': seq<nat>, data: seq<byte>, w: nat, far: nat)
    requires |data| == Bytes(|cs|, w) && NextChecks(cs, cs', data, w, far)
    ensures StepN(Combined(c, cs, data, w), far + 8 * w) == Xor(StepN(c, 8 * |data| + far + 8 * w), Pull(cs', w))
    decreases |cs|
  {
    hide Xor, StepN, CrcBytes;
    var d := far + 8 * w;
    if cs == [] {
      XorComm(StepN(c, d), 0);
      XorZero(StepN(c, d));
    } else {
      var b, rest := data[..w], data[w..];
      var x, s := CrcBytes(cs[0], b), StepN(c, 8 * w);
      var e := 8 * |rest| + d;
      XorComm(c, cs[0]);
      CrcShift(cs[0], c, b);
      NextPull(Xor(x, s), cs[1..], cs'[1..], rest, w, far);
      StepNXor(x, s, e);
      StepNAdd(c, 8 * w, e);
      StepNAdd(x, far, 8 * |data|);
      XorComm(StepN(x, e), StepN(s, e));
      XorAssoc(StepN(s, e), StepN(x, e), Pull(cs'[1..], w));
    }
  }

  /** The running checks stand for the check c of all the blocks before. */
  ghost predicate Braided(cs: seq<nat>, c: nat, w: nat) {
    Pull(cs, w) == StepN(c, 8 * Bytes(|cs|, w)) && forall j :: 0 <= j < |cs| ==> Word32(cs[j])
  }

  lemma BraidBlock(cs: seq<nat>, cs': seq<nat>, c: nat, data: seq<byte>, w: nat)
    requires Braided(cs, c, w) && |data| == Bytes(|cs|, w) && |cs| >= 1
    requires NextChecks(cs, cs', data, w, 8 * (|data| - w)) && forall j :: 0 <= j < |cs'| ==> Word32(cs'[j])
    ensures Braided(cs', CrcBytes(c, data), w)
  {
    hide Xor, StepN, CrcBytes, Pull, Combined, NextChecks;
    NextPull(0, cs, cs', data, w, 8 * (|data| - w));
    LastBlock(cs, c, data, w);
    StepNZero(8 * |data| + 8 * |data|);
    XorZero(Pull(cs', w));
    SameLength(cs, cs', data, w, 8 * (|data| - w));
  }

  lemma SameLength(cs: seq<nat>, cs': seq<nat>, data: seq<byte>, w: nat, far: nat)
    requires |data| == Bytes(|cs|, w) && NextChecks(cs, cs', data, w, far)
    ensures |cs'| == |cs|
  {
  }

  lemma LastBlock(cs: seq<nat>, c: nat, data: seq<byte>, w: nat)
    requires Braided(cs, c, w) && |data| == Bytes(|cs|, w)
    ensures Combined(0, cs, data, w) == CrcBytes(c, data)
  {
    hide Xor, StepN, CrcBytes, Pull, Combined;
    CombinedIs(0, cs, data, w);
    CrcShift(0, c, data);
    XorZero(c);
  }

  // -------------------------------------------------------------------- the code

  ghost function WordAt(data: seq<byte>, j: nat, w: nat): seq<byte>
    requires Bytes(j, w) + w <= |data|
  {
    data[Bytes(j, w)..Bytes(j, w) + w]
  }

  lemma {:induction false} BytesMono(j: nat, n: nat, w: nat)
    requires j <= n
    ensures Bytes(j, w) <= Bytes(n, w)
    ensures j < n ==> Bytes(j, w) + w <= Bytes(n, w)
    decreases n
  {
    if j < n { BytesMono(j, n - 1, w); }
  }

  ghost predicate WordByWord(cs: seq<nat>, cs': seq<nat>, data: seq<byte>, w: nat, far: nat, n: nat) {
    && n <= |cs| == |cs'| && |data| == Bytes(|cs|, w)
    && forall j: nat :: j < n ==>
         Bytes(j, w) + w <= |data| && cs'[j] == StepN(CrcBytes(cs[j], WordAt(data, j, w)), far)
  }

  lemma {:induction false} NextFromWords(cs: seq<nat>, cs': seq<nat>, data: seq<byte>, w: nat, far: nat)
    requires WordByWord(cs, cs', data, w, far, |cs|)
    ensures NextChecks(cs, cs', data, w, far)
    decreases |cs|
  {
    hide StepN, CrcBytes;
    if cs != [] {
      assert WordAt(data, 0, w) == data[..w];
      forall j: nat | j < |cs| - 1
        ensures Bytes(j, w) + w <= |data[w..]|
                && cs'[1..][j] == StepN(CrcBytes(cs[1..][j], WordAt(data[w..], j, w)), far)
      {
        assert Bytes(j + 1, w) == w + Bytes(j, w);
        assert WordAt(data, j + 1, w) == WordAt(data[w..], j, w);
      }
      NextFromWords(cs[1..], cs'[1..], data[w..], w, far);
    }
  }

  /** zlib/crc32.c:832-892: one block, every braid taking in its word. */
  method BraidRound(t: array2<nat>, crcs: array<nat>, data: seq<byte>, w: nat, ghost c: nat)
    requires BraidTable(t, w, |data|) && w >= 4 && crcs.Length >= 1 && |data| == Bytes(crcs.Length, w)
    requires Braided(crcs[..], c, w)
    modifies crcs
    ensures Braided(crcs[..], CrcBytes(c, data), w)
  {
    hide Xor, StepN, CrcBytes, Load, Pull, NextChecks, Pow2, Word32;
    ghost var cs := crcs[..];
    ghost var far := 8 * (|data| - w);
    var p := 0;
    for j := 0 to crcs.Length
      invariant p == Bytes(j, w)
      invariant WordByWord(cs, crcs[..], data, w, far, j)
      invariant forall i :: 0 <= i < crcs.Length ==> Word32(crcs[i])
      invariant forall i :: j <= i < crcs.Length ==> crcs[i] == cs[i]
    {
      BytesMono(j, crcs.Length, w);
      var bs := data[p..p + w];
      WordIsBytes(crcs[j], bs);
      StepNAdd(Xor(crcs[j], Load(bs)), 8 * w, far);
      CrcWord(crcs[j], bs);
      StepNWord(CrcBytes(crcs[j], bs), far);
      crcs[j] := BraidWord(t, Xor(crcs[j], Load(bs)), w, |data|);
      p := p + w;
    }
    NextFromWords(cs, crcs[..], data, w, far);
    BraidBlock(cs, crcs[..], c, data, w);
  }

  lemma CombinedNext(c: nat, cs: seq<nat>, data: seq<byte>, w: nat, j: nat)
    requires |data| == Bytes(|cs|, w) && j < |cs|
    ensures Bytes(j + 1, w) == Bytes(j, w) + w <= |data|
    ensures |data[Bytes(j, w)..]| == Bytes(|cs[j..]|, w) && |data[Bytes(j + 1, w)..]| == Bytes(|cs[j + 1..]|, w)
    ensures Combined(c, cs[j..], data[Bytes(j, w)..], w)
         == Combined(CrcBytes(Xor(c, cs[j]), WordAt(data, j, w)), cs[j + 1..], data[Bytes(j + 1, w)..], w)
  {
    hide Xor, CrcBytes;
    BytesMono(j, |cs|, w);
    BytesMinus(j, |cs|, w);
    BytesMinus(j + 1, |cs|, w);
    var rest := data[Bytes(j, w)..];
    assert rest[..w] == WordAt(data, j, w);
    assert rest[w..] == data[Bytes(j + 1, w)..];
    assert cs[j..][1..] == cs[j + 1..];
  }

  lemma {:induction false} BytesMinus(j: nat, n: nat, w: nat)
    requires j <= n
    ensures Bytes(n, w) == Bytes(j, w) + Bytes(n - j, w)
    decreases n
  {
    if j < n { BytesMinus(j, n - 1, w); }
  }

  /** zlib/crc32.c:894-914: the last block joins the braids. */
  method LastRound(table: array<nat>, crcs: array<nat>, data: seq<byte>, w: nat, ghost c0: nat) returns (c: nat)
    requires ByteTable(table[..]) && w >= 4 && |data| == Bytes(crcs.Length, w)
    requires Braided(crcs[..], c0, w)
    ensures c == CrcBytes(c0, data)
  {
    hide Xor, StepN, CrcBytes, Load, Pull, Combined;
    ghost var cs := crcs[..];
    c := 0;
    var p := 0;
    for j := 0 to crcs.Length
      invariant p == Bytes(j, w) <= |data| && Word32(c)
      invariant |data[p..]| == Bytes(|cs[j..]|, w)
      invariant Combined(c, cs[j..], data[p..], w) == Combined(0, cs, data, w)
    {
      CombinedNext(c, cs, data, w, j);
      var bs := data[p..p + w];
      XorBound(c, crcs[j], 32);
      WordIsBytes(Xor(c, crcs[j]), bs);
      CrcWord(Xor(c, crcs[j]), bs);
      c := WordCheck(table, Xor(Xor(c, crcs[j]), Load(bs)), w);
      p := p + w;
    }
    LastBlock(cs, c0, data, w);
    CombinedNone(c, cs[crcs.Length..], data[p..], w);
  }

  lemma CombinedNone(c: nat, cs: seq<nat>, data: seq<byte>, w: nat)
    requires cs == [] && |data| == Bytes(|cs|, w)
    ensures Combined(c, cs, data, w) == c
  {
  }

  /** crc = (crc >> 8) ^ crc_table[(crc ^ *buf++) & 0xff], for the bytes from `from` to `to`. */
  method UpdateBytes(table: array<nat>, c0: nat, buf: seq<byte>, from: nat, to: nat) returns (c: nat)
    requires ByteTable(table[..]) && from <= to <= |buf|
    ensures c == CrcBytes(c0, buf[from..to])
  {
    hide FeedBits;
    c := c0;
    NoBytes(c);
    assert buf[from..from] == [];
    for i := from to to
      invariant c == CrcBytes(c0, buf[from..i])
    {
      OneByte(c, buf[i]);
      CrcConcat(c0, buf[from..i], [buf[i]]);
      assert buf[from..i] + [buf[i]] == buf[from..i + 1];
      c := Update(table, c, buf[i]);
    }
  }

  lemma NoBytes(c: nat)
    ensures CrcBytes(c, []) == c
  {
  }

  lemma OneByte(c: nat, b: byte)
    ensures CrcBytes(c, [b]) == FeedBits(c, b, 8)
  {
    hide FeedBits;
    NoBytes(FeedBits(c, b, 8));
  }

  /** Compute the CRC up to a word boundary (zlib/crc32.c:772-776). */
  method ToBoundary(table: array<nat>, c0: nat, buf: seq<byte>, w: nat, misaligned: nat) returns (c: nat, at: nat)
    requires ByteTable(table[..]) && misaligned < w
    ensures at < w && at <= |buf| && c == CrcBytes(c0, buf[..at])
  {
    hide FeedBits;
    var off := misaligned;
    c, at := c0, 0;
    NoBytes(c0);
    assert buf[..0] == [];
    while at < |buf| && off != 0
      invariant at <= |buf| && at < w && off < w && (off != 0 ==> misaligned != 0 && off == misaligned + at)
      invariant c == CrcBytes(c0, buf[..at])
      decreases |buf| - at
    {
      OneByte(c, buf[at]);
      CrcConcat(c0, buf[..at], [buf[at]]);
      assert buf[..at] + [buf[at]] == buf[..at + 1];
      c := Update(table, c, buf[at]);
      at := at + 1;
      off := if off + 1 == w then 0 else off + 1;
    }
  }

  lemma PullNothing(cs: seq<nat>, w: nat)
    requires forall j :: 0 <= j < |cs| ==> cs[j] == 0
    ensures Pull(cs, w) == 0
  {
    XorZero(0);
    if cs != [] {
      StepNZero(8 * Bytes(|cs|, w));
      PullNothing(cs[1..], w);
    }
  }

  /** The first braid begins with the register and the others with zero. */
  lemma StartBraided(cs: seq<nat>, c: nat, w: nat)
    requires |cs| >= 1 && Word32(c) && cs[0] == c && forall j :: 1 <= j < |cs| ==> cs[j] == 0
    ensures Braided(cs, c, w)
  {
    hide StepN, Xor;
    Constants();
    PullNothing(cs[1..], w);
    XorComm(StepN(c, 8 * Bytes(|cs|, w)), 0);
    XorZero(StepN(c, 8 * Bytes(|cs|, w)));
  }

  /** Initialize the CRC for each braid (zlib/crc32.c:814-830). */
  method StartBraids(c: nat, n: nat, w: nat) returns (crcs: array<nat>)
    requires n >= 1 && Word32(c)
    ensures fresh(crcs) && crcs.Length == n && Braided(crcs[..], c, w)
  {
    hide Braided;
    crcs := new nat[n](i => 0);
    crcs[0] := c;
    StartBraided(crcs[..], c, w);
  }

  /** zlib/crc32.c:778-915: blocks of n words from `from` on; what is left is less than a block. */
  method BraidedBlocks(table: array<nat>, t: array2<nat>, n: nat, w: nat, c0: nat, buf: seq<byte>, from: nat)
    returns (c: nat, at: nat)
    requires ByteTable(table[..]) && n >= 1 && w >= 4 && BraidTable(t, w, Bytes(n, w)) && Word32(c0)
    requires from + Bytes(n, w) <= |buf|
    ensures from <= at <= |buf| && Word32(c) && c == CrcBytes(c0, buf[from..at])
    ensures |buf| - at < Bytes(n, w)
  {
    hide StepN, Xor, CrcBytes, Pull, BraidTable;
    var block := Bytes(n, w);
    BytesMono(1, n, w);
    var crcs := StartBraids(c0, n, w);
    at := from;
    NoBytes(c0);
    assert buf[from..from] == [];
    while |buf| - at >= 2 * block
      invariant from <= at && at + block <= |buf| && crcs.Length == n && fresh(crcs)
      invariant Braided(crcs[..], CrcBytes(c0, buf[from..at]), w)
    {
      ghost var was := CrcBytes(c0, buf[from..at]);
      var data := buf[at..at + block];
      BraidRound(t, crcs, data, w, was);
      CrcConcat(c0, buf[from..at], data);
      assert buf[from..at] + data == buf[from..at + block];
      at := at + block;
    }
    var data := buf[at..at + block];
    c := LastRound(table, crcs, data, w, CrcBytes(c0, buf[from..at]));
    CrcConcat(c0, buf[from..at], data);
    assert buf[from..at] + data == buf[from..at + block];
    at := at + block;
    CrcWord(c0, buf[from..at]);
  }

  /** zlib/crc32.c:1049-1059. */
  method EightMore(table: array<nat>, c: nat, buf: seq<byte>, ghost b: nat, from: nat, ghost c0: nat) returns (r: nat)
    requires ByteTable(table[..]) && b <= from && from + 8 <= |buf| && c == CrcBytes(c0, buf[b..from])
    ensures r == CrcBytes(c0, buf[b..from + 8])
  {
    hide FeedBits;
    r := UpdateBytes(table, c, buf, from, from + 8);
    CrcConcat(c0, buf[b..from], buf[from..from + 8]);
    assert buf[b..from] + buf[from..from + 8] == buf[b..from + 8];
  }

  /** zlib/crc32.c:1060-1063. */
  method TheRest(table: array<nat>, c: nat, buf: seq<byte>, ghost b: nat, from: nat, ghost c0: nat) returns (r: nat)
    requires ByteTable(table[..]) && b <= from <= |buf| && c == CrcBytes(c0, buf[b..from])
    ensures r == CrcBytes(c0, buf[b..])
  {
    hide FeedBits;
    r := UpdateBytes(table, c, buf, from, |buf|);
    CrcConcat(c0, buf[b..from], buf[from..|buf|]);
    assert buf[b..from] + buf[from..|buf|] == buf[b..];
  }

  lemma InThree(c: nat, buf: seq<byte>, a: nat, b: nat)
    requires a <= b <= |buf|
    ensures CrcBytes(CrcBytes(CrcBytes(c, buf[..a]), buf[a..b]), buf[b..]) == CrcBytes(c, buf)
  {
    hide FeedBits;
    CrcConcat(c, buf[..a], buf[a..b]);
    assert buf[..a] + buf[a..b] == buf[..b];
    CrcConcat(c, buf[..b], buf[b..]);
    assert buf[..b] + buf[b..] == buf;
  }
}
