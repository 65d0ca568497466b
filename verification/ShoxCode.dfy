/**
 The codes of shox96 (SQLite_Esp_Port/shox96_0_2.cpp:36-37 and 311-357): the encoder's table of
 codes, the decoder's tables of prefixes and characters, and that they agree.
 */
module ShoxCode {
  import opened BitOps
  import opened ShoxBits

  /** c_95 and l_95, in rows of eight: the leading bits of a code, and how many. */
  const CODES: seq<seq<nat>> := [
    [16384, 16256, 15744, 16192, 15328, 15344, 15360, 16064],
    [15264, 15296, 15712, 15200, 14976, 15040, 14848, 15104],
    [14528, 14592, 14656, 14688, 14720, 14752, 14784, 14816],
    [14832, 14464, 15552, 15488, 15616, 15168, 15680, 16000],
    [15872, 10752, 8576, 8192, 8320, 9728, 8672, 8608],
    [8384, 11264, 9024, 8992, 12160, 8544, 11520, 11008],
    [8512, 9008, 12032, 11776, 10240, 8448, 8960, 8640],
    [9040, 8688, 9048, 15840, 16288, 15856, 16128, 16224],
    [16368, 40960, 6144, 0, 2048, 24576, 7680, 6656],
    [3072, 49152, 13312, 12800, 63488, 5632, 53248, 45056],
    [5120, 13056, 61440, 57344, 32768, 4096, 12288, 7168],
    [13568, 7936, 13696, 15776, 16320, 15808, 16352]
  ]

  const LENGTHS: seq<seq<nat>> := [
    [3, 11, 11, 11, 12, 12, 9, 10],
    [11, 11, 11, 11, 10, 10, 9, 10],
    [10, 10, 11, 11, 11, 11, 11, 12],
    [12, 10, 10, 10, 10, 11, 11, 10],
    [9, 8, 11, 9, 10, 7, 12, 11],
    [10, 8, 12, 12, 9, 11, 8, 8],
    [11, 12, 9, 8, 7, 10, 11, 11],
    [13, 12, 13, 12, 11, 12, 10, 11],
    [12, 4, 7, 5, 6, 3, 8, 7],
    [6, 4, 8, 8, 5, 7, 4, 4],
    [7, 8, 5, 4, 3, 6, 7, 7],
    [9, 8, 9, 11, 11, 11, 12]
  ]

  function Code(i: nat): nat
    requires i < 95
  {
    Entry(CODES, i)
  }

  function Length(i: nat): nat
    requires i < 95
  {
    Entry(LENGTHS, i)
  }

  predicate Rows(t: seq<seq<nat>>) {
    |t| == 12 && |t[11]| == 7 && forall k :: 0 <= k < 11 ==> |t[k]| == 8
  }

  function Entry(t: seq<seq<nat>>, i: nat): nat
    requires i < 95 && Rows(t)
  {
    t[i / 8][i % 8]
  }

  /** vcode and hcode. */
  const VCODE: seq<nat> := [
    2, 27, 11, 52, 0, 36, 19, 68, 0, 0, 0, 60, 0, 44, 0, 77, 0, 0, 0, 0, 0, 0, 0, 0, 0, 0, 0, 0, 0, 0, 0, 85
  ]

  const HCODE: seq<nat> := [
    9, 2, 0, 19, 0, 0, 0, 29, 0, 0, 0, 0, 0, 0, 0, 45, 0, 0, 0, 0, 0, 0, 0, 37, 0, 0, 0, 0, 0, 0, 0, 53
  ]

  /** sets. */
  const SETS: seq<seq<nat>> := [
    [32, 32, 101, 116, 97, 111, 105, 110, 115, 114, 108],
    [99, 100, 104, 117, 112, 109, 98, 103, 119, 102, 121],
    [118, 107, 113, 106, 120, 122, 32, 32, 32, 32, 32],
    [32, 57, 48, 49, 50, 51, 52, 53, 54, 55, 56],
    [46, 44, 45, 47, 61, 43, 32, 40, 41, 36, 37],
    [38, 59, 58, 60, 62, 42, 34, 123, 125, 91, 93],
    [64, 63, 39, 94, 35, 95, 33, 92, 124, 126, 96]
  ]

  const SET1: nat := 0
  const SET1B: nat := 2
  const SET2: nat := 3

  // ------------------------------------------------------------------- reading a prefix

  /** An index, and the bits it took; index 199 says that the bits ran out. */
  datatype Read = Read(idx: nat, used: nat)

  const NO_CODE: nat := 199

  /** An entry for a prefix of n bits. */
  predicate Ends(entry: nat, n: nat) {
    entry != 0 && entry % 8 == n
  }

  /** getCodeIdx (SQLite_Esp_Port/shox96_0_2.cpp:342-357), after `count` bits with the value `code`. */
  function CodeAt(table: seq<nat>, bits: seq<bool>, code: nat, count: nat): (r: Read)
    requires |table| == 32 && code < Pow2(count) && count < 5
    ensures r.idx != NO_CODE ==> count < r.used <= count + |bits|
    ensures r.used <= count + |bits|
    decreases 5 - count
  {
    if bits == [] then Read(NO_CODE, count)
    else
      Pow2Mono(count + 1, 5);
      var c := code + if bits[0] then Pow2(count) else 0;
      var n := count + 1;
      if Ends(table[c], n) then Read(table[c] / 8, n)
      else if n == 5 then Read(1, 5)
      else CodeAt(table, bits[1..], c, n)
  }

  /** These bits are the prefix with this index. */
  predicate Spells(table: seq<nat>, bits: seq<bool>, code: nat, count: nat, idx: nat)
    requires |table| == 32 && code < Pow2(count) && count < 5
    decreases 5 - count
  {
    bits != [] &&
    (Pow2Mono(count + 1, 5);
     var c := code + if bits[0] then Pow2(count) else 0;
     var n := count + 1;
     if |bits| == 1 then table[c] != 0 && table[c] == n + 8 * idx
     else n < 5 && !Ends(table[c], n) && Spells(table, bits[1..], c, n, idx))
  }

  lemma {:induction false} SpelledIsRead(table: seq<nat>, bits: seq<bool>, rest: seq<bool>, code: nat, count: nat,
      idx: nat)
    requires |table| == 32 && code < Pow2(count) && count < 5 && Spells(table, bits, code, count, idx)
    ensures CodeAt(table, bits + rest, code, count) == Read(idx, count + |bits|)
    decreases 5 - count
  {
    hide Pow2, Spells, CodeAt;
    SpelledOn(table, bits, rest, code, count, idx);
    if |bits| > 1 {
      SpelledIsRead(table, bits[1..], rest, code + if bits[0] then Pow2(count) else 0, count + 1, idx);
    }
  }

  /** One bit of a prefix. */
  lemma SpelledOn(table: seq<nat>, bits: seq<bool>, rest: seq<bool>, code: nat, count: nat, idx: nat)
    requires |table| == 32 && code < Pow2(count) && count < 5 && Spells(table, bits, code, count, idx)
    ensures bits != []
    ensures |bits| == 1 ==> CodeAt(table, bits + rest, code, count) == Read(idx, count + 1)
    ensures |bits| > 1 ==> var c := code + if bits[0] then Pow2(count) else 0;
      && c < Pow2(count + 1) && count + 1 < 5 && Spells(table, bits[1..], c, count + 1, idx)
      && CodeAt(table, bits + rest, code, count) == CodeAt(table, bits[1..] + rest, c, count + 1)
  {
    hide Pow2, Ends, Spells, CodeAt;
    SpellsOn(table, bits, code, count, idx);
    CodeAtOn(table, bits + rest, code, count);
    assert (bits + rest)[1..] == bits[1..] + rest;
    if |bits| == 1 {
      EntryParts(count + 1, idx);
    }
  }

  lemma SpellsOn(table: seq<nat>, bits: seq<bool>, code: nat, count: nat, idx: nat)
    requires |table| == 32 && code < Pow2(count) && count < 5 && Spells(table, bits, code, count, idx)
    ensures bits != []
    ensures var c := code + if bits[0] then Pow2(count) else 0;
      && c < Pow2(count + 1) && c < 32
      && (|bits| == 1 ==> table[c] != 0 && table[c] == count + 1 + 8 * idx)
      && (|bits| > 1 ==> count + 1 < 5 && !Ends(table[c], count + 1) && Spells(table, bits[1..], c, count + 1, idx))
  {
    hide Pow2, Ends;
    PowerNext(count);
    Pow2Mono(count + 1, 5);
    FivePowers();
  }

  /** One bit of what is read. */
  lemma CodeAtOn(table: seq<nat>, bits: seq<bool>, code: nat, count: nat)
    requires |table| == 32 && code < Pow2(count) && count < 5
    ensures bits == [] ==> CodeAt(table, bits, code, count) == Read(NO_CODE, count)
    ensures bits != [] ==> CodeAtBit(table, bits, code, count, code + if bits[0] then Pow2(count) else 0)
  {
    hide Pow2, Ends;
    PowerNext(count);
    Pow2Mono(count + 1, 5);
    FivePowers();
  }

  ghost predicate CodeAtBit(table: seq<nat>, bits: seq<bool>, code: nat, count: nat, c: nat)
    requires |table| == 32 && code < Pow2(count) && count < 5 && bits != []
  {
    && c < 32 && c < Pow2(count + 1)
    && CodeAt(table, bits, code, count) ==
       if Ends(table[c], count + 1) then Read(table[c] / 8, count + 1)
       else if count == 4 then Read(1, 5)
       else CodeAt(table, bits[1..], c, count + 1)
  }

  lemma FivePowers()
    ensures Pow2(5) == 32
  {
  }

  lemma EntryParts(n: nat, idx: nat)
    requires 1 <= n < 8
    ensures Ends(n + 8 * idx, n) && (n + 8 * idx) / 8 == idx
  {
  }

  lemma PowerNext(k: nat)
    ensures Pow2(k + 1) == 2 * Pow2(k)
  {
  }

  /** The prefixes of the eleven places in a set, and of the seven sets. */
  const VBITS: seq<seq<bool>> := [
    [false, false],
    [false, true, false],
    [false, true, true],
    [true, false, false],
    [true, false, true, false],
    [true, false, true, true],
    [true, true, false, false],
    [true, true, false, true],
    [true, true, true, false],
    [true, true, true, true, false],
    [true, true, true, true, true]
  ]

  const HBITS: seq<seq<bool>> := [
    [true, false],
    [false],
    [true, true, false],
    [true, true, true, false, false],
    [true, true, true, false, true],
    [true, true, true, true, false],
    [true, true, true, true, true]
  ]

  lemma PlaceRead(v: nat, rest: seq<bool>)
    requires v < 11
    ensures CodeAt(VCODE, VBITS[v] + rest, 0, 0) == Read(v, |VBITS[v]|)
  {
    hide CodeAt, Spells, Pow2;
    PlacesFrom0();
    PlacesFrom2();
    PlacesFrom4();
    PlacesFrom5();
    PlacesFrom6();
    PlacesFrom7();
    PlacesFrom8();
    PlacesFrom9();
    PlacesFrom10();
    SpelledIsRead(VCODE, VBITS[v], rest, 0, 0, v);
  }

  lemma SetRead(h: nat, rest: seq<bool>)
    requires h < 7
    ensures CodeAt(HCODE, HBITS[h] + rest, 0, 0) == Read(h, |HBITS[h]|)
  {
    hide CodeAt, Spells, Pow2;
    SetsFrom0();
    SetsFrom3();
    SetsFrom4();
    SetsFrom5();
    SetsFrom6();
    SpelledIsRead(HCODE, HBITS[h], rest, 0, 0, h);
  }

  lemma SpellEnd(table: seq<nat>, b: bool, code: nat, count: nat, idx: nat)
    requires |table| == 32 && code < Pow2(count) && count < 5
    requires var c := code + if b then Pow2(count) else 0; c < 32 && table[c] == count + 1 + 8 * idx
    ensures Spells(table, [b], code, count, idx)
  {
    hide Pow2;
  }

  lemma SpellMore(table: seq<nat>, b: bool, bits: seq<bool>, code: nat, count: nat, idx: nat)
    requires |table| == 32 && code < Pow2(count) && count < 4 && bits != []
    requires var c := code + if b then Pow2(count) else 0;
      c < 32 && c < Pow2(count + 1) && !Ends(table[c], count + 1) && Spells(table, bits, c, count + 1, idx)
    ensures Spells(table, [b] + bits, code, count, idx)
  {
    hide Pow2, Ends;
    assert ([b] + bits)[1..] == bits;
  }

  lemma PlacesFrom0()
    ensures Spells(VCODE, VBITS[0], 0, 0, 0) && Spells(VCODE, VBITS[1], 0, 0, 1)
  {
    hide Spells, Pow2;
    SmallPowers();
    SpellEnd(VCODE, false, 0, 1, 0);
    SpellMore(VCODE, false, [false], 0, 0, 0);
    assert VBITS[0] == [false] + [false];
    SpellEnd(VCODE, false, 2, 2, 1);
    SpellMore(VCODE, true, [false], 0, 1, 1);
    SpellMore(VCODE, false, [true] + [false], 0, 0, 1);
    assert VBITS[1] == [false] + ([true] + [false]);
  }

  lemma PlacesFrom2()
    ensures Spells(VCODE, VBITS[2], 0, 0, 2) && Spells(VCODE, VBITS[3], 0, 0, 3)
  {
    hide Spells, Pow2;
    SmallPowers();
    SpellEnd(VCODE, true, 2, 2, 2);
    SpellMore(VCODE, true, [true], 0, 1, 2);
    SpellMore(VCODE, false, [true] + [true], 0, 0, 2);
    assert VBITS[2] == [false] + ([true] + [true]);
    SpellEnd(VCODE, false, 1, 2, 3);
    SpellMore(VCODE, false, [false], 1, 1, 3);
    SpellMore(VCODE, true, [false] + [false], 0, 0, 3);
    assert VBITS[3] == [true] + ([false] + [false]);
  }

  lemma PlacesFrom4()
    ensures Spells(VCODE, VBITS[4], 0, 0, 4)
  {
    hide Spells, Pow2;
    SmallPowers();
    SpellEnd(VCODE, false, 5, 3, 4);
    SpellMore(VCODE, true, [false], 1, 2, 4);
    SpellMore(VCODE, false, [true] + [false], 1, 1, 4);
    SpellMore(VCODE, true, [false] + ([true] + [false]), 0, 0, 4);
    assert VBITS[4] == [true] + ([false] + ([true] + [false]));
  }

  lemma PlacesFrom5()
    ensures Spells(VCODE, VBITS[5], 0, 0, 5)
  {
    hide Spells, Pow2;
    SmallPowers();
    SpellEnd(VCODE, true, 5, 3, 5);
    SpellMore(VCODE, true, [true], 1, 2, 5);
    SpellMore(VCODE, false, [true] + [true], 1, 1, 5);
    SpellMore(VCODE, true, [false] + ([true] + [true]), 0, 0, 5);
    assert VBITS[5] == [true] + ([false] + ([true] + [true]));
  }

  lemma PlacesFrom6()
    ensures Spells(VCODE, VBITS[6], 0, 0, 6)
  {
    hide Spells, Pow2;
    SmallPowers();
    SpellEnd(VCODE, false, 3, 3, 6);
    SpellMore(VCODE, false, [false], 3, 2, 6);
    SpellMore(VCODE, true, [false] + [false], 1, 1, 6);
    SpellMore(VCODE, true, [true] + ([false] + [false]), 0, 0, 6);
    assert VBITS[6] == [true] + ([true] + ([false] + [false]));
  }

  lemma PlacesFrom7()
    ensures Spells(VCODE, VBITS[7], 0, 0, 7)
  {
    hide Spells, Pow2;
    SmallPowers();
    SpellEnd(VCODE, true, 3, 3, 7);
    SpellMore(VCODE, false, [true], 3, 2, 7);
    SpellMore(VCODE, true, [false] + [true], 1, 1, 7);
    SpellMore(VCODE, true, [true] + ([false] + [true]), 0, 0, 7);
    assert VBITS[7] == [true] + ([true] + ([false] + [true]));
  }

  lemma PlacesFrom8()
    ensures Spells(VCODE, VBITS[8], 0, 0, 8)
  {
    hide Spells, Pow2;
    SmallPowers();
    SpellEnd(VCODE, false, 7, 3, 8);
    SpellMore(VCODE, true, [false], 3, 2, 8);
    SpellMore(VCODE, true, [true] + [false], 1, 1, 8);
    SpellMore(VCODE, true, [true] + ([true] + [false]), 0, 0, 8);
    assert VBITS[8] == [true] + ([true] + ([true] + [false]));
  }

  lemma PlacesFrom9()
    ensures Spells(VCODE, VBITS[9], 0, 0, 9)
  {
    hide Spells, Pow2;
    SmallPowers();
    SpellEnd(VCODE, false, 15, 4, 9);
    SpellMore(VCODE, true, [false], 7, 3, 9);
    SpellMore(VCODE, true, [true] + [false], 3, 2, 9);
    SpellMore(VCODE, true, [true] + ([true] + [false]), 1, 1, 9);
    SpellMore(VCODE, true, [true] + ([true] + ([true] + [false])), 0, 0, 9);
    assert VBITS[9] == [true] + ([true] + ([true] + ([true] + [false])));
  }

  lemma PlacesFrom10()
    ensures Spells(VCODE, VBITS[10], 0, 0, 10)
  {
    hide Spells, Pow2;
    SmallPowers();
    SpellEnd(VCODE, true, 15, 4, 10);
    SpellMore(VCODE, true, [true], 7, 3, 10);
    SpellMore(VCODE, true, [true] + [true], 3, 2, 10);
    SpellMore(VCODE, true, [true] + ([true] + [true]), 1, 1, 10);
    SpellMore(VCODE, true, [true] + ([true] + ([true] + [true])), 0, 0, 10);
    assert VBITS[10] == [true] + ([true] + ([true] + ([true] + [true])));
  }

  lemma SetsFrom0()
    ensures Spells(HCODE, HBITS[0], 0, 0, 0) && Spells(HCODE, HBITS[1], 0, 0, 1) && Spells(HCODE, HBITS[2], 0, 0, 2)
  {
    hide Spells, Pow2;
    SmallPowers();
    SpellEnd(HCODE, false, 1, 1, 0);
    SpellMore(HCODE, true, [false], 0, 0, 0);
    assert HBITS[0] == [true] + [false];
    SpellEnd(HCODE, false, 0, 0, 1);
    assert HBITS[1] == [false];
    SpellEnd(HCODE, false, 3, 2, 2);
    SpellMore(HCODE, true, [false], 1, 1, 2);
    SpellMore(HCODE, true, [true] + [false], 0, 0, 2);
    assert HBITS[2] == [true] + ([true] + [false]);
  }

  lemma SetsFrom3()
    ensures Spells(HCODE, HBITS[3], 0, 0, 3)
  {
    hide Spells, Pow2;
    SmallPowers();
    SpellEnd(HCODE, false, 7, 4, 3);
    SpellMore(HCODE, false, [false], 7, 3, 3);
    SpellMore(HCODE, true, [false] + [false], 3, 2, 3);
    SpellMore(HCODE, true, [true] + ([false] + [false]), 1, 1, 3);
    SpellMore(HCODE, true, [true] + ([true] + ([false] + [false])), 0, 0, 3);
    assert HBITS[3] == [true] + ([true] + ([true] + ([false] + [false])));
  }

  lemma SetsFrom4()
    ensures Spells(HCODE, HBITS[4], 0, 0, 4)
  {
    hide Spells, Pow2;
    SmallPowers();
    SpellEnd(HCODE, true, 7, 4, 4);
    SpellMore(HCODE, false, [true], 7, 3, 4);
    SpellMore(HCODE, true, [false] + [true], 3, 2, 4);
    SpellMore(HCODE, true, [true] + ([false] + [true]), 1, 1, 4);
    SpellMore(HCODE, true, [true] + ([true] + ([false] + [true])), 0, 0, 4);
    assert HBITS[4] == [true] + ([true] + ([true] + ([false] + [true])));
  }

  lemma SetsFrom5()
    ensures Spells(HCODE, HBITS[5], 0, 0, 5)
  {
    hide Spells, Pow2;
    SmallPowers();
    SpellEnd(HCODE, false, 15, 4, 5);
    SpellMore(HCODE, true, [false], 7, 3, 5);
    SpellMore(HCODE, true, [true] + [false], 3, 2, 5);
    SpellMore(HCODE, true, [true] + ([true] + [false]), 1, 1, 5);
    SpellMore(HCODE, true, [true] + ([true] + ([true] + [false])), 0, 0, 5);
    assert HBITS[5] == [true] + ([true] + ([true] + ([true] + [false])));
  }

  lemma SetsFrom6()
    ensures Spells(HCODE, HBITS[6], 0, 0, 6)
  {
    hide Spells, Pow2;
    SmallPowers();
    SpellEnd(HCODE, true, 15, 4, 6);
    SpellMore(HCODE, true, [true], 7, 3, 6);
    SpellMore(HCODE, true, [true] + [true], 3, 2, 6);
    SpellMore(HCODE, true, [true] + ([true] + [true]), 1, 1, 6);
    SpellMore(HCODE, true, [true] + ([true] + ([true] + [true])), 0, 0, 6);
    assert HBITS[6] == [true] + ([true] + ([true] + ([true] + [true])));
  }

  // ------------------------------------------------------------------- bits as a number

  function Number(bits: seq<bool>): nat
    decreases |bits|
  {
    if bits == [] then 0 else 2 * Number(bits[..|bits| - 1]) + if bits[|bits| - 1] then 1 else 0
  }

  lemma {:induction false} NumberJoin(a: seq<bool>, b: seq<bool>)
    ensures Number(a + b) == Shl(Number(a), |b|) + Number(b)
    decreases |b|
  {
    if b == [] {
      assert a + b == a;
    } else {
      var n := |b| - 1;
      assert (a + b)[..|a + b| - 1] == a + b[..n];
      NumberJoin(a, b[..n]);
    }
  }

  lemma DoubledBit(x: nat, b: bool, k: nat)
    ensures Bit(2 * x + if b then 1 else 0, 0) <==> b
    ensures Bit(2 * x + if b then 1 else 0, k + 1) <==> Bit(x, k)
  {
    var y := 2 * x + if b then 1 else 0;
    assert y / 2 == x;
  }

  lemma {:induction false} NumberBit(bits: seq<bool>, i: nat)
    requires i < |bits|
    ensures Bit(Number(bits), |bits| - 1 - i) == bits[i]
    decreases |bits|
  {
    hide Bit;
    var n := |bits| - 1;
    if i < n {
      NumberBit(bits[..n], i);
      DoubledBit(Number(bits[..n]), bits[n], n - 1 - i);
    } else {
      DoubledBit(Number(bits[..n]), bits[n], 0);
    }
  }

  lemma NumberTop(bits: seq<bool>)
    requires |bits| <= 16
    ensures Top(Shl(Number(bits), 16 - |bits|), |bits|) == bits
  {
    hide Bit, Shl, Number;
    var n, row := |bits|, Top(Shl(Number(bits), 16 - |bits|), |bits|);
    forall i | 0 <= i < n ensures row[i] == bits[i] {
      NumberBit(bits, i);
      ShlBit(Number(bits), 16 - n, n - 1 - i);
    }
  }

  // ------------------------------------------------------------------- the two sides agree

  /** Where the decoder has the character i + 32, or its small letter: 16 times the set, and the place in it. */
  const SPOTS: seq<seq<nat>> := [
    [1, 102, 86, 100, 73, 74, 80, 98],
    [71, 72, 85, 69, 65, 66, 64, 67],
    [50, 51, 52, 53, 54, 55, 56, 57],
    [58, 49, 82, 81, 83, 68, 84, 97],
    [96, 4, 22, 16, 17, 2, 25, 23],
    [18, 6, 35, 33, 10, 21, 7, 5],
    [20, 34, 9, 8, 3, 19, 32, 24],
    [36, 26, 37, 89, 103, 90, 99, 101],
    [106, 4, 22, 16, 17, 2, 25, 23],
    [18, 6, 35, 33, 10, 21, 7, 5],
    [20, 34, 9, 8, 3, 19, 32, 24],
    [36, 26, 37, 87, 104, 88, 105]
  ]

  const POWERS: seq<nat> := [1, 2, 4, 8, 16, 32, 64, 128, 256, 512, 1024, 2048, 4096, 8192, 16384, 32768, 65536]
  const SET_NUMBERS: seq<nat> := [0, 0, 6, 28, 29, 30, 31]
  const SET_LENGTHS: seq<nat> := [0, 3, 5, 7, 7, 7, 7]
  const PLACE_NUMBERS: seq<nat> := [0, 2, 3, 4, 10, 11, 12, 13, 14, 30, 31]
  const PLACE_LENGTHS: seq<nat> := [2, 3, 3, 3, 4, 4, 4, 4, 4, 5, 5]

  predicate IsCapital(i: nat) {
    33 <= i <= 58
  }

  function SetOf(i: nat): nat
    requires i < 95
  {
    Entry(SPOTS, i) / 16
  }

  function PlaceOf(i: nat): nat
    requires i < 95
  {
    Entry(SPOTS, i) % 16
  }

  /** The code as a number: shift to capitals, set, place. */
  function CodeNumber(up: bool, h: nat, v: nat): nat
    requires h < 7 && v < 11
  {
    (if up then 2 * POWERS[SET_LENGTHS[h] + PLACE_LENGTHS[v]]
        else 0) + SET_NUMBERS[h] * POWERS[PLACE_LENGTHS[v]] + PLACE_NUMBERS[v]
  }

  function CodeLength(up: bool, h: nat, v: nat): (n: nat)
    requires h < 7 && v < 11
    ensures n <= 16
  {
    (if up then 4 else 0) + SET_LENGTHS[h] + PLACE_LENGTHS[v]
  }

  /** The code of character i + 32 is the shift, the set and the place that lead the decoder to it. */
  predicate Fits(code: nat, length: nat, h: nat, v: nat, i: nat) {
    && h < 7 && v < 11
    && length == CodeLength(IsCapital(i), h, v) && code == CodeNumber(IsCapital(i), h, v) * POWERS[16 - length]
    && SETS[h][v] == (if IsCapital(i) then i + 64 else i + 32)
    && (h == SET1 ==> v >= 1) && (h == SET1B ==> v < 6) && (code / 512 == 0x1c <==> h == SET2)
  }

  predicate Agrees(i: nat)
    requires i < 95
  {
    Fits(Code(i), Length(i), SetOf(i), PlaceOf(i), i)
  }

  lemma Fit(code: nat, length: nat, h: nat, v: nat, i: nat)
    requires h < 7 && v < 11 && length == CodeLength(IsCapital(i), h, v)
    requires code == CodeNumber(IsCapital(i), h, v) * POWERS[16 - length]
    requires SETS[h][v] == (if IsCapital(i) then i + 64 else i + 32)
    requires (h == SET1 ==> v >= 1) && (h == SET1B ==> v < 6) && (code / 512 == 0x1c <==> h == SET2)
    ensures Fits(code, length, h, v, i)
  {
  }

  lemma Row0()
    ensures forall i :: 0 <= i < 8 ==> Agrees(i)
  {
    hide Fits;
    Fit(16384, 3, 0, 1, 0);
    Fit(16256, 11, 6, 6, 1);
    Fit(15744, 11, 5, 6, 2);
    Fit(16192, 11, 6, 4, 3);
    Fit(15328, 12, 4, 9, 4);
    Fit(15344, 12, 4, 10, 5);
    Fit(15360, 9, 5, 0, 6);
    Fit(16064, 10, 6, 2, 7);
  }

  lemma Row1()
    ensures forall i :: 8 <= i < 16 ==> Agrees(i)
  {
    hide Fits;
    Fit(15264, 11, 4, 7, 8);
    Fit(15296, 11, 4, 8, 9);
    Fit(15712, 11, 5, 5, 10);
    Fit(15200, 11, 4, 5, 11);
    Fit(14976, 10, 4, 1, 12);
    Fit(15040, 10, 4, 2, 13);
    Fit(14848, 9, 4, 0, 14);
    Fit(15104, 10, 4, 3, 15);
  }

  lemma Row2()
    ensures forall i :: 16 <= i < 24 ==> Agrees(i)
  {
    hide Fits;
    Fit(14528, 10, 3, 2, 16);
    Fit(14592, 10, 3, 3, 17);
    Fit(14656, 11, 3, 4, 18);
    Fit(14688, 11, 3, 5, 19);
    Fit(14720, 11, 3, 6, 20);
    Fit(14752, 11, 3, 7, 21);
    Fit(14784, 11, 3, 8, 22);
    Fit(14816, 12, 3, 9, 23);
  }

  lemma Row3()
    ensures forall i :: 24 <= i < 32 ==> Agrees(i)
  {
    hide Fits;
    Fit(14832, 12, 3, 10, 24);
    Fit(14464, 10, 3, 1, 25);
    Fit(15552, 10, 5, 2, 26);
    Fit(15488, 10, 5, 1, 27);
    Fit(15616, 10, 5, 3, 28);
    Fit(15168, 11, 4, 4, 29);
    Fit(15680, 11, 5, 4, 30);
    Fit(16000, 10, 6, 1, 31);
  }

  lemma Row4()
    ensures forall i :: 32 <= i < 40 ==> Agrees(i)
  {
    hide Fits;
    Fit(15872, 9, 6, 0, 32);
    Fit(10752, 8, 0, 4, 33);
    Fit(8576, 11, 1, 6, 34);
    Fit(8192, 9, 1, 0, 35);
    Fit(8320, 10, 1, 1, 36);
    Fit(9728, 7, 0, 2, 37);
    Fit(8672, 12, 1, 9, 38);
    Fit(8608, 11, 1, 7, 39);
  }

  lemma Row5()
    ensures forall i :: 40 <= i < 48 ==> Agrees(i)
  {
    hide Fits;
    Fit(8384, 10, 1, 2, 40);
    Fit(11264, 8, 0, 6, 41);
    Fit(9024, 12, 2, 3, 42);
    Fit(8992, 12, 2, 1, 43);
    Fit(12160, 9, 0, 10, 44);
    Fit(8544, 11, 1, 5, 45);
    Fit(11520, 8, 0, 7, 46);
    Fit(11008, 8, 0, 5, 47);
  }

  lemma Row6()
    ensures forall i :: 48 <= i < 56 ==> Agrees(i)
  {
    hide Fits;
    Fit(8512, 11, 1, 4, 48);
    Fit(9008, 12, 2, 2, 49);
    Fit(12032, 9, 0, 9, 50);
    Fit(11776, 8, 0, 8, 51);
    Fit(10240, 7, 0, 3, 52);
    Fit(8448, 10, 1, 3, 53);
    Fit(8960, 11, 2, 0, 54);
    Fit(8640, 11, 1, 8, 55);
  }

  lemma Row7()
    ensures forall i :: 56 <= i < 64 ==> Agrees(i)
  {
    hide Fits;
    Fit(9040, 13, 2, 4, 56);
    Fit(8688, 12, 1, 10, 57);
    Fit(9048, 13, 2, 5, 58);
    Fit(15840, 12, 5, 9, 59);
    Fit(16288, 11, 6, 7, 60);
    Fit(15856, 12, 5, 10, 61);
    Fit(16128, 10, 6, 3, 62);
    Fit(16224, 11, 6, 5, 63);
  }

  lemma Row8()
    ensures forall i :: 64 <= i < 72 ==> Agrees(i)
  {
    hide Fits;
    Fit(16368, 12, 6, 10, 64);
    Fit(40960, 4, 0, 4, 65);
    Fit(6144, 7, 1, 6, 66);
    Fit(0, 5, 1, 0, 67);
    Fit(2048, 6, 1, 1, 68);
    Fit(24576, 3, 0, 2, 69);
    Fit(7680, 8, 1, 9, 70);
    Fit(6656, 7, 1, 7, 71);
  }

  lemma Row9()
    ensures forall i :: 72 <= i < 80 ==> Agrees(i)
  {
    hide Fits;
    Fit(3072, 6, 1, 2, 72);
    Fit(49152, 4, 0, 6, 73);
    Fit(13312, 8, 2, 3, 74);
    Fit(12800, 8, 2, 1, 75);
    Fit(63488, 5, 0, 10, 76);
    Fit(5632, 7, 1, 5, 77);
    Fit(53248, 4, 0, 7, 78);
    Fit(45056, 4, 0, 5, 79);
  }

  lemma Row10()
    ensures forall i :: 80 <= i < 88 ==> Agrees(i)
  {
    hide Fits;
    Fit(5120, 7, 1, 4, 80);
    Fit(13056, 8, 2, 2, 81);
    Fit(61440, 5, 0, 9, 82);
    Fit(57344, 4, 0, 8, 83);
    Fit(32768, 3, 0, 3, 84);
    Fit(4096, 6, 1, 3, 85);
    Fit(12288, 7, 2, 0, 86);
    Fit(7168, 7, 1, 8, 87);
  }

  lemma Row11()
    ensures forall i :: 88 <= i < 95 ==> Agrees(i)
  {
    hide Fits;
    Fit(13568, 9, 2, 4, 88);
    Fit(7936, 8, 1, 10, 89);
    Fit(13696, 9, 2, 5, 90);
    Fit(15776, 11, 5, 7, 91);
    Fit(16320, 11, 6, 8, 92);
    Fit(15808, 11, 5, 8, 93);
    Fit(16352, 12, 6, 9, 94);
  }

  lemma AllAgree(i: nat)
    requires i < 95
    ensures Agrees(i)
  {
    hide Agrees;
    Row0();
    Row1();
    Row2();
    Row3();
    Row4();
    Row5();
    Row6();
    Row7();
    Row8();
    Row9();
    Row10();
    Row11();
  }

  /** The bits in front of a place: none for the set in use. */
  function SetPrefix(h: nat): seq<bool>
    requires h < 7
  {
    if h == SET1 then [] else [false, false] + HBITS[h]
  }

  const SHIFT: seq<bool> := [false, false, true, false]

  /** A code as the decoder takes it apart. */
  function Spelling(up: bool, h: nat, v: nat): seq<bool>
    requires h < 7 && v < 11
  {
    (if up then SHIFT else []) + (SetPrefix(h) + VBITS[v])
  }

  lemma PowersAre(k: nat)
    requires k <= 16
    ensures POWERS[k] == Pow2(k)
  {
    if k != 0 { PowersAre(k - 1); }
  }

  lemma {:induction false} ShlPower(x: nat, k: nat)
    requires k <= 16
    ensures Shl(x, k) == x * POWERS[k]
  {
    if k != 0 {
      ShlPower(x, k - 1);
      assert POWERS[k] == 2 * POWERS[k - 1];
      Twice(x, POWERS[k - 1]);
    }
  }

  lemma Twice(x: nat, y: nat)
    ensures 2 * (x * y) == x * (2 * y)
  {
  }

  lemma NumberMore(bits: seq<bool>, b: bool)
    ensures Number(bits + [b]) == 2 * Number(bits) + if b then 1 else 0
  {
    assert (bits + [b])[..|bits|] == bits;
  }

  lemma Number2(a: bool, b: bool)
    ensures Number([a, b]) == (if a then 2 else 0) + if b then 1 else 0
  {
    hide Number;
    NoNumber();
    NumberMore([], a);
    NumberMore([a], b);
    assert [] + [a] == [a] && [a] + [b] == [a, b];
  }

  lemma NoNumber()
    ensures Number([]) == 0
  {
  }

  lemma Number3(a: bool, b: bool, c: bool)
    ensures Number([a, b, c]) == 2 * Number([a, b]) + if c then 1 else 0
  {
    hide Number;
    NumberMore([a, b], c);
    assert [a, b] + [c] == [a, b, c];
  }

  lemma Number4(a: bool, b: bool, c: bool, d: bool)
    ensures Number([a, b, c, d]) == 4 * Number([a, b]) + (if c then 2 else 0) + if d then 1 else 0
  {
    hide Number;
    Number3(a, b, c);
    NumberMore([a, b, c], d);
    assert [a, b, c] + [d] == [a, b, c, d];
  }

  lemma Number5(a: bool, b: bool, c: bool, d: bool, e: bool)
    ensures Number([a, b, c, d, e]) == 8 * Number([a, b]) + (if c then 4 else 0) + (if d then 2 else 0) + if e then 1
      else 0
  {
    hide Number;
    Number4(a, b, c, d);
    NumberMore([a, b, c, d], e);
    assert [a, b, c, d] + [e] == [a, b, c, d, e];
  }

  lemma PlaceNumbers(v: nat)
    requires v < 11
    ensures Number(VBITS[v]) == PLACE_NUMBERS[v] && |VBITS[v]| == PLACE_LENGTHS[v]
  {
    hide Number;
    Number2(false, false);
    Number2(false, true);
    Number2(true, false);
    Number2(true, true);
    Number3(false, true, false);
    Number3(false, true, true);
    Number3(true, false, false);
    Number4(true, false, true, false);
    Number4(true, false, true, true);
    Number4(true, true, false, false);
    Number4(true, true, false, true);
    Number4(true, true, true, false);
    Number5(true, true, true, true, false);
    Number5(true, true, true, true, true);
  }

  lemma SetNumbers(h: nat)
    requires h < 7
    ensures Number(SetPrefix(h)) == SET_NUMBERS[h] && |SetPrefix(h)| == SET_LENGTHS[h]
    ensures Number(HBITS[h]) == (if h == SET1 then 2 else SET_NUMBERS[h])
  {
    hide Number, Shl;
    NoNumber();
    Number2(false, false);
    Number2(true, false);
    Number2(true, true);
    Number3(true, true, false);
    NumberMore([], false);
    assert [] + [false] == [false];
    ShlNothing(|HBITS[h]|);
    Number5(true, true, true, false, false);
    Number5(true, true, true, false, true);
    Number5(true, true, true, true, false);
    Number5(true, true, true, true, true);
    NumberJoin([false, false], HBITS[h]);
  }

  lemma ShlNothing(k: nat)
    ensures Shl(0, k) == 0
  {
    ShlOne(k);
  }

  lemma SpellingNumber(up: bool, h: nat, v: nat)
    requires h < 7 && v < 11
    ensures Number(Spelling(up, h, v)) == CodeNumber(up, h, v) && |Spelling(up, h, v)| == CodeLength(up, h, v)
  {
    hide Number, Shl, SetPrefix;
    var front, place := SetPrefix(h), VBITS[v];
    SetNumbers(h);
    PlaceNumbers(v);
    NumberJoin(front, place);
    ShlPower(Number(front), |place|);
    if up {
      Number2(false, false);
      Number4(false, false, true, false);
      NumberJoin(SHIFT, front + place);
      ShlPower(2, |front| + |place|);
    } else {
      assert [] + (front + place) == front + place;
    }
  }

  lemma ShrNine(x: nat)
    ensures Shr(x, 9) == x / 512
  {
    hide Low, Shl;
    Split(x, 9);
    assert Pow2(9) == 512;
    ShlShl(Shr(x, 9), 8, 1);
    ShlByte(Shr(x, 9));
    assert Shl(256 * Shr(x, 9), 1) == 512 * Shr(x, 9) by { ShlTwice(256 * Shr(x, 9)); }
  }

  lemma ShlTwice(x: nat)
    ensures Shl(x, 1) == 2 * x
  {
  }

  /** The code that is sent for a character is the spelling that leads to it. */
  lemma CodeIsSpelling(i: nat)
    requires i < 95
    ensures SetOf(i) < 7 && PlaceOf(i) < 11 && Length(i) <= 16
    ensures Top(Code(i), Length(i)) == Spelling(IsCapital(i), SetOf(i), PlaceOf(i))
    ensures SETS[SetOf(i)][PlaceOf(i)] == (if IsCapital(i) then i + 64 else i + 32)
    ensures (SetOf(i) == SET1 ==> PlaceOf(i) >= 1) && (SetOf(i) == SET1B ==> PlaceOf(i) < 6)
    ensures Shr(Code(i), 9) == 0x1c <==> SetOf(i) == SET2
  {
    hide Top, Shl, Spelling, Number, SetOf, PlaceOf, Code, Length, CodeNumber, CodeLength;
    AllAgree(i);
    ShrNine(Code(i));
    var up, h, v := IsCapital(i), SetOf(i), PlaceOf(i);
    SpellingNumber(up, h, v);
    NumberTop(Spelling(up, h, v));
    ShlPower(CodeNumber(up, h, v), 16 - Length(i));
  }
}
