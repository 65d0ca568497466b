/**
 A whole block as `_tr_flush_block` sends it (zlib/trees.c:963-993), and what inflate
 reads from it: the dynamic, the static and the stored form.
 */
module SentBlock {
  import opened BitOps
  import opened Canonical
  import opened BitStream
  import opened CodeReading
  import opened CodeLengths
  import opened BlockHeader
  import opened LengthCodes
  import opened Lz77
  import opened BlockCodes
  import opened CompressBlock
  import opened StaticTrees
  import FlushBlock

  const STORED_BLOCK: nat := 0
  const STATIC_TREES: nat := 1
  const DYN_TREES: nat := 2

  function BlockType(kind: nat, last: bool): Bits {
    Bits(2 * kind + (if last then 1 else 0), 3)
  }

  /** TYPEDO (zlib/inflate.c:871-900): the last-block flag and the kind of block. */
  function ReadType(h: nat): (bool, nat, nat) {
    (Low(h, 1) == 1, Low(Shr(h, 1), 2), Shr(Shr(h, 1), 2))
  }

  lemma TypeRead(kind: nat, last: bool, rest: nat)
    requires kind < 4
    ensures ReadType(Followed(BlockType(kind, last), rest)) == (last, kind, rest)
  {
    assert Pow2(2) == 4 && Pow2(1) == 2;
    var a, b := Bits(if last then 1 else 0, 1), Bits(kind, 2);
    assert Join(a, b) == BlockType(kind, last) by { assert Shl(kind, 1) == 2 * kind; }
    hide Low, Shr, Followed, Join;
    FollowedJoin(a, b, rest);
    FollowedBack(a, Followed(b, rest));
    FollowedBack(b, rest);
  }

  // ------------------------------------------------------------------- dynamic

  ghost function DynamicBits(lit: seq<nat>, dist: seq<nat>, bl: seq<nat>, n: nat, t: Tables, syms: seq<Symbol>,
                             last: bool): Bits
    requires GoodHeader(lit, dist, bl, n) && GoodTables(t) && AllCodes(t, Codes(lit, dist), syms)
  {
    Join(BlockType(DYN_TREES, last), Join(HeaderBits(lit, dist, bl, n), BlockBits(t, Codes(lit, dist), syms)))
  }

  /** The static tables, with the trees to send with. */
  ghost predicate Shares(s: Arrays, a: FlushBlock.TreeArrays) {
    s.lcode == a.lfc && s.llen == a.ldl && s.dcode == a.dfc && s.dlen == a.ddl
  }

  /** zlib/trees.c:985-989. */
  method SendDynamic(w: BitWriter, a: FlushBlock.TreeArrays, s: Arrays, symBuf: seq<byte>,
                     lmax: nat, dmax: nat, maxBlindex: nat, last: bool, ghost t: Tables, ghost syms: seq<Symbol>)
    requires w.Valid() && GoodTables(t) && FlushBlock.DynReady(a, t, syms, lmax, dmax, maxBlindex + 1)
    requires t == Tables(s.baseLength[..], s.lengthCode[..], s.baseDist[..], s.distCode[..]) && Shares(s, a)
    requires (forall x :: x in syms ==> Codable(x)) && symBuf == SymBuf(syms)
    modifies w
    ensures w.Valid()
    ensures w.Written() == Join(old(w.Written()),
      DynamicBits(a.ldl[..lmax + 1], a.ddl[..dmax + 1], a.bdl[..BL_CODES], maxBlindex + 1, t, syms, last))
  {
    hide Join, HeaderBits, BlockBits, GoodTables, CodesReady, TreeReady, AllCodes, GoodHeader, BlCode, Kraft;
    ghost var was := w.Written();
    ghost var lit: seq<nat>, dist: seq<nat>, bl: seq<nat> := a.ldl[..lmax + 1], a.ddl[..dmax + 1], a.bdl[..BL_CODES];
    ghost var header, block := HeaderBits(lit, dist, bl, maxBlindex + 1), BlockBits(t, Codes(lit, dist), syms);
    assert Pow2(3) == 8;
    w.SendBits(2 * DYN_TREES + (if last then 1 else 0), 3);
    HeaderSizes(lit, dist, bl, maxBlindex + 1);
    SendAllTrees(w, a.ldl, a.ddl, a.bfc, a.bdl, lmax + 1, dmax + 1, maxBlindex + 1, bl);
    SendSymbols(w, symBuf, s, t, Codes(lit, dist), syms);
    JoinAssoc(was, BlockType(DYN_TREES, last), header);
    JoinAssoc(was, Join(BlockType(DYN_TREES, last), header), block);
    JoinAssoc(BlockType(DYN_TREES, last), header, block);
  }

  lemma HeaderSizes(lit: seq<nat>, dist: seq<nat>, bl: seq<nat>, n: nat)
    requires GoodHeader(lit, dist, bl, n)
    ensures |lit| >= 257 && |dist| >= 1
  {
  }

  // -------------------------------------------------------------------- static

  /** The trees a static block is sent with, and those it is read with. */
  function StaticCodes(): Codes {
    Codes(StaticLit(), StaticDist(30))
  }

  function StaticReadCodes(): Codes {
    Codes(StaticLit(), StaticDist(32))
  }

  lemma {:induction false} SameStatic(t: Tables, syms: seq<Symbol>)
    requires GoodTables(t) && AllCodes(t, StaticCodes(), syms)
    ensures AllCodes(t, StaticReadCodes(), syms)
    ensures BlockBits(t, StaticReadCodes(), syms) == BlockBits(t, StaticCodes(), syms)
    decreases |syms|
  {
    hide GoodTables, Join, HasCodes, SymbolBits;
    forall s | s in syms ensures HasCodes(t, StaticReadCodes(), s) { SameSymbol(t, s); }
    if syms != [] {
      SameSymbol(t, syms[0]);
      SameStatic(t, syms[1..]);
    }
  }

  lemma SameSymbol(t: Tables, s: Symbol)
    requires GoodTables(t) && HasCodes(t, StaticCodes(), s)
    ensures HasCodes(t, StaticReadCodes(), s)
    ensures SymbolBits(t, StaticReadCodes(), s) == SymbolBits(t, StaticCodes(), s)
  {
    hide Join, RevCode, Extra, LengthExtra, Span;
    if s.Match? {
      var c := DCode(t.distCode, s.dist - 1);
      FiveBits(30, c);
      FiveBits(32, c);
    }
  }

  ghost function StaticBits(t: Tables, syms: seq<Symbol>, last: bool): Bits
    requires GoodTables(t) && AllCodes(t, StaticCodes(), syms)
  {
    Join(BlockType(STATIC_TREES, last), BlockBits(t, StaticCodes(), syms))
  }

  /** zlib/trees.c:978-980. */
  method SendStatic(w: BitWriter, s: Arrays, symBuf: seq<byte>, last: bool, ghost t: Tables, ghost syms: seq<Symbol>)
    requires w.Valid() && Ready(s, t, StaticCodes()) && AllCodes(t, StaticCodes(), syms)
    requires (forall x :: x in syms ==> Codable(x)) && symBuf == SymBuf(syms)
    modifies w
    ensures w.Valid() && w.Written() == Join(old(w.Written()), StaticBits(t, syms, last))
  {
    hide Join, BlockBits, GoodTables, TreeReady, AllCodes;
    ghost var was := w.Written();
    assert Pow2(3) == 8;
    w.SendBits(2 * STATIC_TREES + (if last then 1 else 0), 3);
    SendSymbols(w, symBuf, s, t, StaticCodes(), syms);
    JoinAssoc(was, BlockType(STATIC_TREES, last), BlockBits(t, StaticCodes(), syms));
  }

  // -------------------------------------------------------------------- stored

  /** A stored block that begins at bit p. */
  ghost function StoredBits(p: nat, last: bool, buf: seq<byte>): Bits
    requires |buf| < 0x10000
  {
    Join(BlockType(STORED_BLOCK, last),
         Join(Pad(p + 3), Join(Bits(|buf|, 16), Join(Bits(0xffff - |buf|, 16), BytesBits(buf)))))
  }

  lemma Complement(x: nat)
    requires x < 0x10000
    ensures Xor(0xffff - x, 0xffff) == x
  {
    hide Pow2, Xor;
    Pow2Short();
    ComplementBits(x, 16);
  }

  lemma {:induction false} ComplementBits(x: nat, k: nat)
    requires x < Pow2(k)
    ensures Xor(Pow2(k) - 1 - x, Pow2(k) - 1) == x
  {
    hide Xor;
    if k == 0 {
      XorZero(0);
    } else {
      XorHalf(Pow2(k) - 1 - x, Pow2(k) - 1);
      ComplementBits(x / 2, k - 1);
    }
  }

  lemma PadProper(n: nat)
    ensures Proper(Pad(n))
  {
  }

  /** _tr_stored_block (zlib/trees.c:863-882). */
  method SendStored(w: BitWriter, buf: seq<byte>, last: bool)
    requires w.Valid() && |buf| < 0x10000
    modifies w
    ensures w.Valid() && w.biValid == 0
    ensures w.Written() == Join(old(w.Written()), StoredBits(old(w.Written().n), last, buf))
  {
    hide Join, Low, Pad, Load, Pow2;
    Pow2Short();
    Pow2Three();
    ghost var was := w.Written();
    w.SendBits(2 * STORED_BLOCK + (if last then 1 else 0), 3);
    JoinLength(was, BlockType(STORED_BLOCK, last));
    w.Windup();
    LowFits(|buf|, 16, 16);
    LowFits(0xffff - |buf|, 16, 16);
    ghost var at := w.Written();
    w.PutShort(|buf|);
    w.PutShort(0xffff - |buf|);
    w.PutBytes(buf);
    JoinNone(BytesBits(w.pending));
    ghost var kind, pad, a, b, c := BlockType(STORED_BLOCK, last), Pad(was.n + 3), Bits(|buf|, 16),
                                    Bits(0xffff - |buf|, 16), BytesBits(buf);
    JoinAssoc(Join(at, a), b, c);
    JoinAssoc(at, a, Join(b, c));
    JoinAssoc(Join(was, kind), pad, Join(a, Join(b, c)));
    JoinAssoc(was, kind, Join(pad, Join(a, Join(b, c))));
    NoBuffer(w.biBuf);
  }

  lemma Pow2Three()
    ensures Pow2(3) == 8
  {
  }

  lemma NoBuffer(x: nat)
    ensures x < Pow2(0) ==> x == 0
  {
  }
}
