/**
 Match lengths and distances as code and extra bits (section 3.2.5 of RFC 1951): the
 tables that `tr_static_init` builds (zlib/trees.c:255-286) invert the decoder's.
 */
module LengthCodes {
  import opened BitOps
  import opened DecodeTable

  const LENGTH_CODES: nat := 29
  const D_CODES: nat := 30

  const EXTRA_LBITS: seq<nat> := [
    0, 0, 0, 0, 0, 0, 0, 0, 1, 1, 1, 1, 2, 2, 2, 2, 3, 3, 3, 3, 4, 4, 4, 4, 5, 5, 5, 5, 0]
  const EXTRA_DBITS: seq<nat> := [
    0, 0, 0, 0, 1, 1, 2, 2, 3, 3, 4, 4, 5, 5, 6, 6, 7, 7, 8, 8, 9, 9, 10, 10, 11, 11, 12, 12, 13, 13]

  /** How many lengths, or distances, a code stands for. */
  function Span(extra: nat): nat {
    Pow2(extra)
  }

  lemma SpanValues()
    ensures Span(0) == 1 && Span(1) == 2 && Span(2) == 4 && Span(3) == 8 && Span(4) == 16 && Span(5) == 32
    ensures Span(6) == 64 && Span(7) == 128 && Span(8) == 256 && Span(9) == 512 && Span(10) == 1024
    ensures Span(11) == 2048 && Span(12) == 4096 && Span(13) == 8192
  {
    assert Pow2(8) == 256;
  }

  /** The decoder's bases follow one another as the extra bits say; the last length stands alone. */
  lemma LengthBases(code: nat)
    requires code < LENGTH_CODES
    ensures LEXT[code] == 16 + EXTRA_LBITS[code]
    ensures code < 27 ==> LBASE[code + 1] == LBASE[code] + Span(EXTRA_LBITS[code])
    ensures LBASE[0] == 3 && LBASE[27] + Span(EXTRA_LBITS[27]) == 259
    ensures EXTRA_LBITS[code] <= 5 && (code == 28 ==> EXTRA_LBITS[code] == 0 && LBASE[code] == 258)
  {
    hide Span;
    SpanValues();
    if code < 8 {
    } else if code < 16 {
    } else if code < 24 {
    } else {
    }
  }

  lemma DistBases(code: nat)
    requires code < D_CODES
    ensures DEXT[code] == 16 + EXTRA_DBITS[code]
    ensures code < 29 ==> DBASE[code + 1] == DBASE[code] + Span(EXTRA_DBITS[code])
    ensures DBASE[0] == 1 && DBASE[16] == 257 && DBASE[29] + Span(EXTRA_DBITS[29]) == 32769
    ensures EXTRA_DBITS[code] <= 13 && (code >= 16 ==> EXTRA_DBITS[code] >= 7)
  {
    hide Span;
    SpanValues();
    if code < 8 {
    } else if code < 16 {
    } else if code < 24 {
    } else {
    }
  }

  // ---------------------------------------------------------------- the tables

  /** Length lc + 3 is one of those that code c < 28 stands for, which begin at base + 3. */
  ghost predicate Coded(c: nat, base: nat, lc: nat) {
    c < 28 && LBASE[c] == base + 3 && base <= lc < base + Span(EXTRA_LBITS[c])
  }

  /** The greatest length has a code of its own. */
  ghost predicate LengthCodeFor(c: nat, base: nat, lc: nat) {
    if lc == 255 then c == 28 else Coded(c, base, lc)
  }

  ghost predicate LengthTables(base: seq<nat>, code: seq<nat>) {
    |base| == LENGTH_CODES && |code| == 256
    && forall lc :: 0 <= lc < 256 ==> code[lc] < LENGTH_CODES && LengthCodeFor(code[lc], base[code[lc]], lc)
  }

  /** Lengths below n have codes below c. */
  ghost predicate LengthsDone(base: seq<nat>, code: seq<nat>, c: nat, n: nat) {
    |base| == LENGTH_CODES && |code| == 256 && n <= 256 && c < LENGTH_CODES
    && forall lc :: 0 <= lc < n ==> code[lc] < c && Coded(code[lc], base[code[lc]], lc)
  }

  /** The body of the loop at zlib/trees.c:258-261. */
  method OneLength(base: array<nat>, code: array<nat>, c: nat, length0: nat) returns (length: nat)
    requires base != code && c < 28 && length0 + 3 == LBASE[c] && LengthsDone(base[..], code[..], c, length0)
    modifies base, code
    ensures length == length0 + Pow2(EXTRA_LBITS[c]) && LengthsDone(base[..], code[..], c + 1, length)
  {
    hide Span, Pow2;
    LengthLimit(c);
    SpanIs(EXTRA_LBITS[c]);
    length := length0;
    base[c] := length;
    for n := 0 to Pow2(EXTRA_LBITS[c])
      invariant length == length0 + n && base[c] == length0
      invariant LengthsDone(base[..], code[..], c + 1, length)
    {
      code[length] := c;
      length := length + 1;
    }
  }

  /** zlib/trees.c:255-268. */
  method TrStaticLengths() returns (base: array<nat>, code: array<nat>)
    ensures fresh(base) && fresh(code) && LengthTables(base[..], code[..])
  {
    hide Span, Pow2, Coded;
    base := new nat[LENGTH_CODES](i => 0);
    code := new nat[256](i => 0);
    var length: nat := 0;
    LengthBases(0);
    for c := 0 to LENGTH_CODES - 1
      invariant length + 3 == (if c == 28 then 259 else LBASE[c])
      invariant LengthsDone(base[..], code[..], c, length)
    {
      LengthBases(c);
      SpanIs(EXTRA_LBITS[c]);
      length := OneLength(base, code, c, length);
    }
    code[length - 1] := 28;
  }

  lemma SpanIs(x: nat)
    ensures Span(x) == Pow2(x)
  {
  }

  lemma {:induction false} LengthLimit(c: nat)
    requires c < 28
    ensures LBASE[c] + Span(EXTRA_LBITS[c]) <= 259
    decreases 28 - c
  {
    hide Span;
    LengthBases(c);
    if c < 27 {
      LengthLimit(c + 1);
    }
  }

  /** d_code. */
  function DCode(code: seq<nat>, dist: nat): nat
    requires |code| == 512 && dist < 0x8000
  {
    if dist < 256 then code[dist] else code[256 + dist / 128]
  }

  /** dist + 1 is one of the distances that code c stands for, which begin at base + 1. */
  ghost predicate DistCoded(c: nat, base: nat, dist: nat) {
    c < D_CODES && DBASE[c] == base + 1 && base <= dist < base + Span(EXTRA_DBITS[c])
  }

  ghost predicate DistTables(base: seq<nat>, code: seq<nat>) {
    |base| == D_CODES && |code| == 512
    && forall dist: nat :: dist < 0x8000 ==>
         DCode(code, dist) < D_CODES && DistCoded(DCode(code, dist), base[DCode(code, dist)], dist)
  }

  lemma {:induction false} DistLimit(c: nat)
    requires c < D_CODES
    ensures DBASE[c] + Span(EXTRA_DBITS[c]) <= 32769
    ensures c < 16 ==> DBASE[c] + Span(EXTRA_DBITS[c]) <= 257
    decreases 30 - c
  {
    hide Span;
    DistBases(c);
    if c < 29 { DistLimit(c + 1); }
    if c < 15 { DistBelow(c + 1); }
  }

  lemma {:induction false} DistBelow(c: nat)
    requires c < 16
    ensures DBASE[c] <= 257 && DBASE[c] + Span(EXTRA_DBITS[c]) <= 257
    decreases 16 - c
  {
    hide Span;
    DistBases(c);
    if c < 15 { DistBelow(c + 1); }
  }

  /** A code of seven extra bits or more stands for whole multiples of 128. */
  lemma FarSpan(x: nat)
    requires x >= 7
    ensures Span(x) == 128 * Pow2(x - 7)
  {
    SpanIs(x);
    SpanIs(7);
    SpanValues();
    Times128(x - 7);
  }

  lemma {:induction false} Times128(k: nat)
    ensures Pow2(k + 7) == 128 * Pow2(k)
  {
    if k == 0 { SpanIs(7); SpanValues(); } else { Times128(k - 1); }
  }

  /** Distances below n have codes below c. */
  ghost predicate DistsDone(base: seq<nat>, code: seq<nat>, c: nat, n: nat) {
    |base| == D_CODES && |code| == 512 && n <= 256 && c <= 16
    && forall d :: 0 <= d < n ==> code[d] < c && DistCoded(code[d], base[code[d]], d)
  }

  /** The body of the loop at zlib/trees.c:273-276. */
  method OneDistance(base: array<nat>, code: array<nat>, c: nat, dist0: nat) returns (dist: nat)
    requires base != code && c < 16 && dist0 + 1 == DBASE[c] && DistsDone(base[..], code[..], c, dist0)
    modifies base, code
    ensures dist == dist0 + Pow2(EXTRA_DBITS[c]) && DistsDone(base[..], code[..], c + 1, dist)
  {
    hide Span, Pow2;
    DistBelow(c);
    SpanIs(EXTRA_DBITS[c]);
    dist := dist0;
    base[c] := dist;
    for n := 0 to Pow2(EXTRA_DBITS[c])
      invariant dist == dist0 + n && base[c] == dist0
      invariant DistsDone(base[..], code[..], c + 1, dist)
    {
      code[dist] := c;
      dist := dist + 1;
    }
  }

  /** zlib/trees.c:270-286. */
  method TrStaticDistances() returns (base: array<nat>, code: array<nat>)
    ensures fresh(base) && fresh(code) && DistTables(base[..], code[..])
  {
    hide Span, DCode, Pow2, DistTables, DistCoded;
    base := new nat[D_CODES](i => 0);
    code := new nat[512](i => 0);
    var dist: nat := 0;
    DistBases(0);
    for c := 0 to 16
      invariant dist + 1 == DBASE[c] && DistsDone(base[..], code[..], c, dist)
    {
      DistBases(c);
      SpanIs(EXTRA_DBITS[c]);
      dist := OneDistance(base, code, c, dist);
    }
    dist := dist / 128;
    NearAreDone(base[..], code[..]);
    FarDistances(base, code, dist);
  }

  /** Every distance in the idx-th stretch of 128 has this code. */
  ghost predicate FarCoded(c: nat, base: nat, idx: nat) {
    c < D_CODES && DBASE[c] == base + 1 && base <= 128 * idx && 128 * idx + 128 <= base + Span(EXTRA_DBITS[c])
  }

  /** The distances below 256 have codes below 16. */
  ghost predicate NearDone(base: seq<nat>, code: seq<nat>) {
    |base| == 16 && |code| == 256
    && forall d :: 0 <= d < 256 ==> code[d] < 16 && DistCoded(code[d], base[code[d]], d)
  }

  lemma NearAreDone(base: seq<nat>, code: seq<nat>)
    requires DistsDone(base, code, 16, 256)
    ensures NearDone(base[..16], code[..256])
  {
    hide DistCoded;
    forall d | 0 <= d < 256 ensures code[d] < 16 && DistCoded(code[d], base[..16][code[d]], d) {
      assert DistCoded(code[d], base[code[d]], d);
    }
  }

  /** The stretches of 128 distances below n have codes below c. */
  ghost predicate FarDone(base: seq<nat>, code: seq<nat>, c: nat, n: nat) {
    |base| == D_CODES && |code| == 512 && 2 <= n <= 256 && 16 <= c <= D_CODES
    && forall j :: 258 <= j < 256 + n ==> code[j] < c && FarCoded(code[j], base[code[j]], j - 256)
  }

  /** The body of the loop at zlib/trees.c:280-284. */
  method OneFarDistance(base: array<nat>, code: array<nat>, c: nat, dist0: nat) returns (dist: nat)
    requires base != code && 16 <= c < D_CODES && 128 * dist0 + 1 == DBASE[c]
    requires FarDone(base[..], code[..], c, dist0) && dist0 + Pow2(EXTRA_DBITS[c] - 7) <= 256
    modifies base, code
    ensures dist == dist0 + Pow2(EXTRA_DBITS[c] - 7) && FarDone(base[..], code[..], c + 1, dist)
    ensures base[..16] == old(base[..16]) && code[..256] == old(code[..256])
  {
    hide Span, DistCoded, Pow2;
    FarSpan(EXTRA_DBITS[c]);
    dist := dist0;
    base[c] := 128 * dist;
    for n := 0 to Pow2(EXTRA_DBITS[c] - 7)
      invariant dist == dist0 + n && base[c] == 128 * dist0
      invariant FarDone(base[..], code[..], c + 1, dist)
      invariant base[..16] == old(base[..16]) && code[..256] == old(code[..256])
    {
      code[256 + dist] := c;
      dist := dist + 1;
    }
  }

  /** zlib/trees.c:279-285: from here on the distances are divided by 128. */
  method FarDistances(base: array<nat>, code: array<nat>, dist0: nat)
    requires base != code && base.Length == D_CODES && code.Length == 512 && dist0 == 2
    requires NearDone(base[..16], code[..256])
    modifies base, code
    ensures DistTables(base[..], code[..])
  {
    hide Span, NearDone, FarCoded, DCode, DistTables, Pow2;
    var dist := dist0;
    DistBases(16);
    for c := 16 to D_CODES
      invariant 128 * dist + 1 == (if c == 30 then 32769 else DBASE[c])
      invariant FarDone(base[..], code[..], c, dist)
      invariant base[..16] == old(base[..16]) && code[..256] == old(code[..256])
    {
      DistBases(c);
      DistLimit(c);
      FarSpan(EXTRA_DBITS[c]);
      dist := OneFarDistance(base, code, c, dist);
    }
    NearAndFar(base[..], code[..]);
  }

  lemma NearAndFar(base: seq<nat>, code: seq<nat>)
    requires FarDone(base, code, D_CODES, 256) && NearDone(base[..16], code[..256])
    ensures DistTables(base, code)
  {
    hide Span;
    forall d: nat | d < 0x8000
      ensures DCode(code, d) < D_CODES && DistCoded(DCode(code, d), base[DCode(code, d)], d)
    {
      if d < 256 {
        assert code[..256][d] == code[d] && base[..16][code[d]] == base[code[d]];
      } else {
        var j := 256 + d / 128;
        assert FarCoded(code[j], base[code[j]], j - 256);
      }
    }
  }
}
