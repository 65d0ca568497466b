/**
 The braids of `crc32_z` on a big-endian machine (zlib/crc32.c:916-1038), and `crc32_z` as a whole.
 Every register is the byte-reversed one of the little-endian code, through tables of reversed
 entries and shifts the other way.
 */
module CrcBig {
  import opened BitOps
  import opened ByteOrder
  import opened CrcPoly
  import opened Crc
  import opened CrcBraid

  // -------------------------------------------------------------------- one word

  lemma {:induction false} StepNBound(d: nat, m: nat, n: nat)
    requires d < Pow2(m) && m >= 32
    ensures StepN(d, n) < Pow2(m)
    decreases n
  {
    hide Xor, Pow2;
    if n > 0 {
      Constants();
      Pow2Mono(32, m);
      XorBound(d / 2, POLY, m);
      StepNBound(Step(d), m, n - 1);
    }
  }

  /** One turn of crc_word_big: the register stays the reverse of crc_word's. */
  lemma BigStep(t: seq<nat>, big: seq<nat>, d: nat, w: nat)
    requires ByteTable(t) && BigTable(big, w) && d < Pow2(8 * w) && w >= 1
    ensures ByteAt(Swap(w, d), w - 1) < 256
    ensures Xor(Low(Shl(Swap(w, d), 8), 8 * w), big[ByteAt(Swap(w, d), w - 1)]) == Swap(w, StepN(d, 8))
  {
    hide Xor, Low, Shr, Shl, StepN, Swap, Pow2;
    TableStep(t, d);
    SwapShift(w, d);
    SwapByte(w, d, w - 1);
    ShrNone(d);
    SwapXor(w, Shr(d, 8), t[Low(d, 8)]);
  }

  /** crc_word_big (zlib/crc32.c:735-743). */
  method BigWordCheck(big: array<nat>, data0: nat, w: nat, ghost t: seq<nat>, ghost d: nat) returns (data: nat)
    requires ByteTable(t) && BigTable(big[..], w) && d < Pow2(8 * w) && data0 == Swap(w, d) && w >= 4
    ensures data == Swap(w, StepN(d, 8 * w))
  {
    hide Xor, Low, Shr, Shl, StepN, Swap, ByteAt, BigTable, ByteTable, Pow2;
    data := data0;
    StepNone(d);
    TableSize(big[..], w);
    for k := 0 to w
      invariant data == Swap(w, StepN(d, 8 * k))
    {
      StepNBound(d, 8 * w, 8 * k);
      BigStep(t, big[..], StepN(d, 8 * k), w);
      StepNAdd(d, 8 * k, 8);
      data := Xor(Low(Shl(data, 8), 8 * w), big[ByteAt(data, w - 1)]);
    }
  }

  lemma TableSize(big: seq<nat>, w: nat)
    requires BigTable(big, w)
    ensures |big| == 256
  {
  }

  /** From the highest byte down: one byte more below those that have gone through. */
  lemma LowerByte(d: nat, j: nat, e: nat)
    ensures StepN(Shr(d, 8 * j), e + 8) == Xor(StepN(Shr(d, 8 * j + 8), e), StepN(ByteAt(d, j), e + 8))
  {
    hide Xor, Low, Shr, Shl, StepN;
    var x := Shr(d, 8 * j);
    ShrShr(d, 8 * j, 8);
    Split(x, 8);
    XorDisjoint(Shr(x, 8), Low(x, 8), 8);
    StepNXor(Shl(Shr(x, 8), 8), Low(x, 8), e + 8);
    StepNAdd(Shl(Shr(x, 8), 8), 8, e);
    StepNShl(Shr(x, 8), 8);
  }

  lemma TopOfWord(d: nat, w: nat)
    requires w >= 1 && d < Pow2(8 * w)
    ensures Shr(d, 8 * w - 8) == ByteAt(d, w - 1)
  {
    hide Low, Shr, Pow2;
    ShrBound(d, 8 * w - 8, 8);
    LowSmall(Shr(d, 8 * w - 8), 8);
  }

  /** zlib/crc32.c:978-1011 for one braid. */
  method BigBraidWord(big: array2<nat>, word: nat, w: nat, ghost d: nat, ghost block: nat) returns (c: nat)
    requires BigBraidTable(big, w, block) && d < Pow2(8 * w) && word == Swap(w, d) && w >= 1
    ensures c == Swap(w, StepN(d, 8 * block))
  {
    hide Xor, Low, Shr, Shl, StepN, Swap, Pow2;
    Pow2Byte();
    SwapByte(w, d, 0);
    TopOfWord(d, w);
    ShrNone(word);
    c := big[0, Low(word, 8)];
    for k := 1 to w
      invariant c == Swap(w, StepN(Shr(d, 8 * (w - k)), 8 * (block - (w - k))))
    {
      var j := w - 1 - k;
      SwapByte(w, d, k);
      LowerByte(d, j, 8 * (block - (w - k)));
      SwapXor(w, StepN(Shr(d, 8 * (w - k)), 8 * (block - (w - k))), StepN(ByteAt(d, j), 8 * (block - j)));
      c := Xor(c, big[k, Low(Shr(word, 8 * k), 8)]);
    }
    ShrNone(d);
  }

  // ------------------------------------------------------------------- the braids

  /** The registers are those of the little-endian code, reversed. */
  ghost predicate Reversed(big: seq<nat>, cs: seq<nat>, w: nat) {
    |big| == |cs| && forall j :: 0 <= j < |big| ==> big[j] == Swap(w, cs[j])
  }

  /** A word as such a machine reads it, added to a register. */
  lemma BigWord(c: nat, bs: seq<byte>)
    ensures Xor(Swap(|bs|, c), LoadBig(bs)) == Swap(|bs|, Xor(c, Load(bs)))
  {
    hide Xor, Swap, Load, LoadBig;
    SwapLoad(bs);
    SwapXor(|bs|, c, Load(bs));
  }

  /** zlib/crc32.c:958-1012: one block, every braid taking in its word. */
  method BigBraidRound(big: array2<nat>, crcs: array<nat>, data: seq<byte>, w: nat, ghost cs: seq<nat>, ghost c: nat)
    returns (ghost cs': seq<nat>)
    requires BigBraidTable(big, w, |data|) && w >= 4 && crcs.Length >= 1 && |data| == Bytes(crcs.Length, w)
    requires Reversed(crcs[..], cs, w) && Braided(cs, c, w)
    modifies crcs
    ensures Reversed(crcs[..], cs', w) && Braided(cs', CrcBytes(c, data), w)
  {
    hide Xor, StepN, CrcBytes, Load, LoadBig, Swap, Pull, NextChecks, Pow2, Word32;
    ghost var far := 8 * (|data| - w);
    cs' := cs;
    var p := 0;
    for j := 0 to crcs.Length
      invariant p == Bytes(j, w) && |cs'| == |cs|
      invariant WordByWord(cs, cs', data, w, far, j) && Reversed(crcs[..], cs', w)
      invariant forall i :: 0 <= i < |cs| ==> Word32(cs'[i])
      invariant forall i :: j <= i < |cs| ==> cs'[i] == cs[i]
    {
      BytesMono(j, crcs.Length, w);
      var bs := data[p..p + w];
      ghost var d := Xor(cs[j], Load(bs));
      WordIsBytes(cs[j], bs);
      StepNAdd(d, 8 * w, far);
      CrcWord(cs[j], bs);
      StepNWord(CrcBytes(cs[j], bs), far);
      BigWord(cs[j], bs);
      crcs[j] := BigBraidWord(big, Xor(crcs[j], LoadBig(bs)), w, d, |data|);
      cs' := cs'[j := StepN(d, 8 * |data|)];
      p := p + w;
    }
    NextFromWords(cs, cs', data, w, far);
    BraidBlock(cs, cs', c, data, w);
  }

  /** zlib/crc32.c:1016-1037: the last block joins the braids. */
  method BigLastRound(big: array<nat>, crcs: array<nat>, data: seq<byte>, w: nat, ghost t: seq<nat>, ghost cs: seq<nat>,
                      ghost c0: nat) returns (comb: nat)
    requires ByteTable(t) && BigTable(big[..], w) && w >= 4 && |data| == Bytes(crcs.Length, w)
    requires Reversed(crcs[..], cs, w) && Braided(cs, c0, w)
    ensures comb == Swap(w, CrcBytes(c0, data))
  {
    hide Xor, StepN, CrcBytes, Load, LoadBig, Swap, Pull, Combined, BigTable, ByteTable;
    ghost var c := 0;
    comb := 0;
    SwapZero(w);
    var p := 0;
    for j := 0 to crcs.Length
      invariant p == Bytes(j, w) <= |data| && Word32(c) && comb == Swap(w, c)
      invariant |data[p..]| == Bytes(|cs[j..]|, w)
      invariant Combined(c, cs[j..], data[p..], w) == Combined(0, cs, data, w)
    {
      CombinedNext(c, cs, data, w, j);
      var bs := data[p..p + w];
      ghost var x := Xor(c, cs[j]);
      XorBound(c, cs[j], 32);
      WordIsBytes(x, bs);
      CrcWord(x, bs);
      SwapXor(w, c, cs[j]);
      BigWord(x, bs);
      comb := BigWordCheck(big, Xor(Xor(comb, crcs[j]), LoadBig(bs)), w, t, Xor(x, Load(bs)));
      c := CrcBytes(x, bs);
      p := p + w;
    }
    LastBlock(cs, c0, data, w);
    CombinedNone(c, cs[crcs.Length..], data[p..], w);
  }

  /** Initialize the CRC for each braid (zlib/crc32.c:936-952). */
  method StartBigBraids(c: nat, n: nat, w: nat) returns (crcs: array<nat>, ghost cs: seq<nat>)
    requires n >= 1 && Word32(c) && (w == 4 || w == 8)
    ensures fresh(crcs) && crcs.Length == n && Reversed(crcs[..], cs, w) && Braided(cs, c, w)
  {
    hide Swap, Braided;
    crcs := new nat[n](i => 0);
    crcs[0] := ByteSwap(c, w);
    cs := seq(n, i => if i == 0 then c else 0);
    StartBraided(cs, c, w);
    SwapZero(w);
  }

  /** zlib/crc32.c:778-789 and 916-1038: blocks of n words from `from` on. */
  method BigBraidedBlocks(big: array<nat>, bigBraid: array2<nat>, n: nat, w: nat, c0: nat, buf: seq<byte>, from: nat,
                          ghost t: seq<nat>)
    returns (c: nat, at: nat)
    requires ByteTable(t) && BigTable(big[..], w) && n >= 1 && (w == 4 || w == 8)
    requires BigBraidTable(bigBraid, w, Bytes(n, w)) && Word32(c0) && from + Bytes(n, w) <= |buf|
    ensures from <= at <= |buf| && Word32(c) && c == CrcBytes(c0, buf[from..at])
    ensures |buf| - at < Bytes(n, w)
  {
    hide StepN, Xor, CrcBytes, Pull, BigBraidTable, BigTable, ByteTable, Swap, Reversed;
    var block := Bytes(n, w);
    BytesMono(1, n, w);
    var crcs;
    ghost var cs;
    crcs, cs := StartBigBraids(c0, n, w);
    at := from;
    NoBytes(c0);
    assert buf[from..from] == [];
    while |buf| - at >= 2 * block
      invariant from <= at && at + block <= |buf| && crcs.Length == n && fresh(crcs)
      invariant Reversed(crcs[..], cs, w) && Braided(cs, CrcBytes(c0, buf[from..at]), w)
    {
      ghost var was := CrcBytes(c0, buf[from..at]);
      var data := buf[at..at + block];
      cs := BigBraidRound(bigBraid, crcs, data, w, cs, was);
      CrcConcat(c0, buf[from..at], data);
      assert buf[from..at] + data == buf[from..at + block];
      at := at + block;
    }
    var data := buf[at..at + block];
    var comb := BigLastRound(big, crcs, data, w, t, cs, CrcBytes(c0, buf[from..at]));
    CrcConcat(c0, buf[from..at], data);
    assert buf[from..at] + data == buf[from..at + block];
    at := at + block;
    CrcWord(c0, buf[from..at]);
    c := ByteSwap(comb, w);
    SwapBack(w, CrcBytes(c0, buf[from..at]));
  }

  lemma SwapBack(w: nat, c: nat)
    requires Word32(c) && w >= 4
    ensures Swap(w, Swap(w, c)) == c
  {
    hide Swap, Low, Pow2;
    SwapSwap(w, c);
    Pow2Mono(32, 8 * w);
    LowSmall(c, 8 * w);
  }

  /** crc32_z for any n >= 1, words of four or eight bytes and either byte order (zlib/crc32.c:748-1067); misaligned is
      the buffer's address modulo w.  Whatever the braiding, the result is the check of the bytes one by one. */
  method Crc32Z(table: array<nat>, big: array<nat>, braid: array2<nat>, bigBraid: array2<nat>, n: nat, w: nat,
                little: bool, crc0: nat, buf: seq<byte>, misaligned: nat)
    returns (r: nat)
    requires n >= 1 && (w == 4 || w == 8) && misaligned < w && ByteTable(table[..]) && BigTable(big[..], w)
    requires BraidTable(braid, w, Bytes(n, w)) && BigBraidTable(bigBraid, w, Bytes(n, w))
    ensures r == Crc32(Low(crc0, 32), buf)
  {
    hide StepN, Xor, CrcBytes, BraidTable, BigBraidTable, BigTable, Swap;
    Constants();
    var start := Xor(Low(crc0, 32), ALL);             // (~crc) & 0xffffffff
    XorBound(Low(crc0, 32), ALL, 32);
    var crc: nat, a: nat, b: nat := start, 0, 0;
    NoBytes(start);
    assert buf[..0] == [] && buf[0..0] == [];
    if |buf| >= Bytes(n, w) + w - 1 {
      crc, a := ToBoundary(table, crc, buf, w, misaligned);
      CrcWord(start, buf[..a]);
      if little {
        crc, b := BraidedBlocks(table, braid, n, w, crc, buf, a);
      } else {
        crc, b := BigBraidedBlocks(big, bigBraid, n, w, crc, buf, a, table[..]);
      }
    }
    InThree(start, buf, a, b);
    NoBytes(crc);
    assert buf[b..b] == [];
    var from := b;
    while |buf| - from >= 8
      invariant b <= from <= |buf| && crc == CrcBytes(CrcBytes(CrcBytes(start, buf[..a]), buf[a..b]), buf[b..from])
    {
      crc := EightMore(table, crc, buf, b, from, CrcBytes(CrcBytes(start, buf[..a]), buf[a..b]));
      from := from + 8;
    }
    crc := TheRest(table, crc, buf, b, from, CrcBytes(CrcBytes(start, buf[..a]), buf[a..b]));
    r := Xor(crc, ALL);
  }
}
