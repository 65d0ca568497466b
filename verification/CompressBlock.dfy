/**
 `compress_block` (zlib/trees.c:1042-1087) over sym_buf, where each symbol takes three
 bytes: the distance, low byte first, and the length or literal (zlib/deflate.h:321-339).
 */
module CompressBlock {
  import opened BitOps
  import opened Canonical
  import opened BitStream
  import opened CodeReading
  import opened LengthCodes
  import opened Lz77
  import opened BlockCodes

  // ------------------------------------------------------------------- sym_buf

  function Tallied(s: Symbol): seq<byte>
    requires Codable(s)
  {
    match s
    case Literal(c) => [0, 0, c]
    case Match(dist, len) => [dist % 256, dist / 256, len - 3]
  }

  ghost function SymBuf(syms: seq<Symbol>): (b: seq<byte>)
    requires forall s :: s in syms ==> Codable(s)
    ensures |b| == 3 * |syms|
    decreases |syms|
  {
    if syms == [] then [] else Tallied(syms[0]) + SymBuf(syms[1..])
  }

  lemma {:induction false} SymBufAt(syms: seq<Symbol>, i: nat)
    requires i < |syms| && forall s :: s in syms ==> Codable(s)
    ensures SymBuf(syms)[3 * i..3 * i + 3] == Tallied(syms[i])
    decreases |syms|
  {
    var b := SymBuf(syms);
    if i == 0 {
      assert b[0..3] == Tallied(syms[0]);
    } else {
      SymBufAt(syms[1..], i - 1);
      assert b[3..] == SymBuf(syms[1..]);
      assert b[3 * i..3 * i + 3] == b[3..][3 * i - 3..3 * i];
    }
  }

  // ------------------------------------------------------------------- the code

  /** A tree's Code and Len fields, for the lengths lens. */
  ghost predicate TreeReady(code: seq<nat>, len: seq<nat>, lens: seq<nat>) {
    && |lens| <= |code| && |lens| <= |len| && (forall i :: 0 <= i < |lens| ==> len[i] == lens[i] <= MAXBITS)
    && forall s: nat :: s < |lens| && lens[s] != 0 ==> code[s] == RevCode(lens, s)
  }

  /** send_code. */
  method SendCode(w: BitWriter, code: array<nat>, len: array<nat>, s: nat, ghost lens: seq<nat>)
    requires w.Valid() && TreeReady(code[..], len[..], lens) && HasSymbol(lens, s)
    modifies w
    ensures w.Valid() && w.Written() == Join(old(w.Written()), CodeOf(lens, s))
  {
    assert code[..][s] == RevCode(lens, s) && len[..][s] == lens[s];
    w.SendBits(code[s], len[s]);
  }

  /** send_bits, when there are extra bits. */
  method SendExtra(w: BitWriter, v: nat, n: nat)
    requires w.Valid() && n <= 13 && v < Pow2(n)
    modifies w
    ensures w.Valid() && w.Written() == Join(old(w.Written()), Extra(v, n))
  {
    if n != 0 {
      w.SendBits(v, n);
    } else {
      JoinNone(w.Written());
    }
  }

  /** The tables and trees that a block is sent with, as arrays. */
  datatype Arrays = Arrays(baseLength: array<nat>, lengthCode: array<nat>, baseDist: array<nat>,
                           distCode: array<nat>, lcode: array<nat>, llen: array<nat>,
                           dcode: array<nat>, dlen: array<nat>)

  ghost predicate Ready(a: Arrays, t: Tables, cs: Codes)
    reads a.baseLength, a.lengthCode, a.baseDist, a.distCode, a.lcode, a.llen, a.dcode, a.dlen
  {
    && t == Tables(a.baseLength[..], a.lengthCode[..], a.baseDist[..], a.distCode[..]) && GoodTables(t)
    && TreeReady(a.lcode[..], a.llen[..], cs.ll) && TreeReady(a.dcode[..], a.dlen[..], cs.dl)
  }

  /** zlib/trees.c:1061-1068. */
  method SendLength(w: BitWriter, a: Arrays, lc: nat, ghost t: Tables, ghost cs: Codes)
    requires w.Valid() && Ready(a, t, cs) && lc < 256
    requires HasSymbol(cs.ll, LITERALS + 1 + t.lengthCode[lc])
    modifies w
    ensures w.Valid() && w.Written() == Join(old(w.Written()), LengthBits(t, cs, lc + 3))
  {
    hide Join, CodeOf, Span;
    ghost var was := w.Written();
    var code := a.lengthCode[lc];
    assert code == t.lengthCode[lc];
    assert LengthCodeFor(code, t.baseLength[code], lc);
    LengthBases(code);
    SpanIs(EXTRA_LBITS[code]);
    SendCode(w, a.lcode, a.llen, LITERALS + 1 + code, cs.ll);
    JoinAssoc(was, CodeOf(cs.ll, LITERALS + 1 + code), LengthExtra(t, lc));
    var extra := EXTRA_LBITS[code];
    if extra != 0 {
      w.SendBits(lc - a.baseLength[code], extra);
    } else {
      JoinNone(w.Written());
    }
  }

  /** zlib/trees.c:1069-1078. */
  method SendDistance(w: BitWriter, a: Arrays, dist: nat, ghost t: Tables, ghost cs: Codes)
    requires w.Valid() && Ready(a, t, cs) && 1 <= dist <= 0x8000
    requires HasSymbol(cs.dl, DCode(t.distCode, dist - 1))
    modifies w
    ensures w.Valid() && w.Written() == Join(old(w.Written()), DistBits(t, cs, dist))
  {
    hide Join, CodeOf, Span, Extra, TreeReady;
    ghost var was := w.Written();
    var code := DCode(a.distCode[..], dist - 1);
    assert DistCoded(code, t.baseDist[code], dist - 1);
    DistBases(code);
    SpanIs(EXTRA_DBITS[code]);
    SendCode(w, a.dcode, a.dlen, code, cs.dl);
    JoinAssoc(was, CodeOf(cs.dl, code), Extra(dist - 1 - t.baseDist[code], EXTRA_DBITS[code]));
    SendExtra(w, dist - 1 - a.baseDist[code], EXTRA_DBITS[code]);
  }

  /** The body of the loop of compress_block. */
  method SendSymbol(w: BitWriter, a: Arrays, dist: nat, lc: nat, ghost t: Tables, ghost cs: Codes, ghost s: Symbol)
    requires w.Valid() && Ready(a, t, cs) && HasCodes(t, cs, s)
    requires match s case Literal(c) => dist == 0 && lc == c case Match(d, l) => dist == d && lc + 3 == l
    modifies w
    ensures w.Valid() && w.Written() == Join(old(w.Written()), SymbolBits(t, cs, s))
  {
    hide Join, CodeOf, LengthBits, DistBits, TreeReady, GoodTables;
    ghost var was := w.Written();
    if dist == 0 {
      SendCode(w, a.lcode, a.llen, lc, cs.ll);
    } else {
      SendLength(w, a, lc, t, cs);
      JoinAssoc(was, LengthBits(t, cs, lc + 3), DistBits(t, cs, dist));
      SendDistance(w, a, dist, t, cs);
    }
  }

  lemma ThreeBytes(b: seq<byte>, s: Symbol, at: nat)
    requires Codable(s) && at + 3 <= |b| && b[at..at + 3] == Tallied(s)
    ensures var dist: nat, lc: nat := (b[at] as int) + 256 * (b[at + 1] as int), b[at + 2];
      match s case Literal(c) => dist == 0 && lc == c case Match(d, l) => dist == d && lc + 3 == l
  {
    assert b[at..at + 3][0] == b[at] && b[at..at + 3][1] == b[at + 1] && b[at..at + 3][2] == b[at + 2];
  }

  lemma BlockNext(t: Tables, cs: Codes, syms: seq<Symbol>, i: nat)
    requires GoodTables(t) && AllCodes(t, cs, syms) && i < |syms|
    ensures AllCodes(t, cs, syms[i..]) && AllCodes(t, cs, syms[i + 1..]) && HasCodes(t, cs, syms[i])
    ensures BlockBits(t, cs, syms[i..]) == Join(SymbolBits(t, cs, syms[i]), BlockBits(t, cs, syms[i + 1..]))
  {
    hide Join, GoodTables, SymbolBits, HasCodes;
    assert syms[i..][1..] == syms[i + 1..];
    assert syms[i..][0] == syms[i];
  }

  /** compress_block. */
  method SendSymbols(w: BitWriter, symBuf: seq<byte>, a: Arrays, ghost t: Tables, ghost cs: Codes,
                       ghost syms: seq<Symbol>)
    requires w.Valid() && Ready(a, t, cs) && AllCodes(t, cs, syms) && (forall s :: s in syms ==> Codable(s))
    requires symBuf == SymBuf(syms)
    modifies w
    ensures w.Valid() && w.Written() == Join(old(w.Written()), BlockBits(t, cs, syms))
  {
    hide Join, SymbolBits, TreeReady, GoodTables, HasCodes, Tallied, BlockBits;
    ghost var was := w.Written();
    ghost var i: nat := 0;
    assert syms[0..] == syms;
    var sx: nat := 0;
    if symBuf != [] {
      while true
        invariant sx == 3 * i && i < |syms| && w.Valid() && AllCodes(t, cs, syms[i..])
        invariant Join(w.Written(), BlockBits(t, cs, syms[i..])) == Join(was, BlockBits(t, cs, syms))
        decreases |syms| - i
      {
        BlockNext(t, cs, syms, i);
        SymBufAt(syms, i);
        ThreeBytes(symBuf, syms[i], sx);
        JoinAssoc(w.Written(), SymbolBits(t, cs, syms[i]), BlockBits(t, cs, syms[i + 1..]));
        var dist: nat, lc: nat := (symBuf[sx] as int) + 256 * (symBuf[sx + 1] as int), symBuf[sx + 2];
        SendSymbol(w, a, dist, lc, t, cs, syms[i]);
        sx := sx + 3;
        i := i + 1;
        if sx >= |symBuf| { break; }
      }
    }
    BlockEnd(t, cs, syms[i..]);
    SendCode(w, a.lcode, a.llen, END_BLOCK, cs.ll);
  }

  lemma BlockEnd(t: Tables, cs: Codes, syms: seq<Symbol>)
    requires GoodTables(t) && AllCodes(t, cs, syms) && syms == []
    ensures BlockBits(t, cs, syms) == CodeOf(cs.ll, END_BLOCK)
  {
  }
}
