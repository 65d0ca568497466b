/**
 A whole stream sent (zlib/deflate.c:866-893 and 1117-1120 around the flushing of
 blocks): header, blocks tallied and flushed one after another, and trailer.  The bytes
 are those that module RoundTrip shows to decode to the text.
 */
module SendStream {
  import opened BitOps
  import opened GenBitlen
  import opened BuildTree
  import opened BitStream
  import opened CodeLengths
  import opened LengthCodes
  import opened Lz77
  import opened Blocks
  import opened BlockCodes
  import opened BlockCost
  import opened HeaderCost
  import opened CompressBlock
  import opened StaticTrees
  import opened SentBlock
  import opened FlushBlock
  import opened TrFlush
  import opened RoundTrip
  import opened CompressBound
  import InflateSpec
  import InflateRuns
  import Inflate
  import InflateHeader
  import HeapMerge
  import Adler32

  ghost predicate GoodBlock(b: Block) {
    && (forall s :: s in b.syms ==> BlockCodes.Codable(s)) && |b.syms| + 3 < HeapMerge.FREQ_RANGE
    && (b.hasBuf ==> b.storedLen == |b.buf| < 0x10000)
  }

  /** Trees, tables and descriptions as deflateInit leaves them, and no symbol tallied. */
  ghost predicate Sender(st: TreeState, a: TreeArrays, dyn: Arrays, fix: Arrays, ld: StaticDesc, dd: StaticDesc,
      bd: StaticDesc, t: Tables)
    reads st, a.lfc, a.dfc, a.bfc, dyn.baseLength, dyn.lengthCode, dyn.baseDist, dyn.distCode
    reads fix.baseLength, fix.lengthCode, fix.baseDist, fix.distCode, fix.lcode, fix.llen, fix.dcode, fix.dlen
  {
    && Separate(st, a) && StaticDescs(ld, dd) && BlDesc(bd) && GoodTables(t)
    && Tallies(t, [], a.lfc[..], a.dfc[..]) && (forall k :: 0 <= k < BL_CODES ==> a.bfc[k] == 0)
    && st.optLen == 0 && st.staticLen == 0
    && Dynamics(st, a, dyn, t) && Statics(st, a, fix, t)
  }

  /** static_l_desc, static_d_desc and static_bl_desc (zlib/trees.c:125-132). */
  lemma DescsGood(ltree: seq<nat>, dtree: seq<nat>)
    requires ltree == StaticLit() && dtree == StaticDist(30)
    ensures StaticDescs(StaticDesc(true, ltree, EXTRA_LBITS, 257, 286, 15),
      StaticDesc(true, dtree, EXTRA_DBITS, 0, 30, 15))
    ensures BlDesc(StaticDesc(false, [], EXTRA_BLBITS, 0, BL_CODES, 7))
  {
    hide StaticLit, StaticDist;
    Pow2Byte();
    assert Pow2(9) == 512 && Pow2(7) == 128 && Pow2(15) >= Pow2(9) by { Pow2Mono(9, 15); }
  }

  /** tr_static_init (zlib/trees.c:232-312). */
  method TrStaticInit() returns (fix: Arrays, ghost t: Tables)
    ensures Ready(fix, t, StaticCodes())
    ensures fresh({fix.baseLength, fix.lengthCode, fix.baseDist, fix.distCode, fix.lcode, fix.llen, fix.dcode,
      fix.dlen})
  {
    hide StaticLit, StaticDist, LengthTables, DistTables, TreeReady;
    var baseLength, lengthCode := TrStaticLengths();
    var baseDist, distCode := TrStaticDistances();
    var lcode, llen := StaticLitTree();
    var dcode, dlen := StaticDistTree();
    t := Tables(baseLength[..], lengthCode[..], baseDist[..], distCode[..]);
    fix := Arrays(baseLength, lengthCode, baseDist, distCode, lcode, llen, dcode, dlen);
  }

  /** The trees of a deflate_state, before any block. */
  method NewTrees(ghost t: Tables) returns (st: TreeState, a: TreeArrays)
    requires GoodTables(t)
    ensures Separate(st, a) && fresh(st)
      && fresh({st.heap, st.depth, st.blCount, a.lfc, a.ldl, a.dfc, a.ddl, a.bfc, a.bdl})
    ensures Tallies(t, [], a.lfc[..], a.dfc[..]) && (forall k :: 0 <= k < BL_CODES ==> a.bfc[k] == 0)
    ensures st.optLen == 0 && st.staticLen == 0
  {
    hide GoodTables, Tallies;
    st := new TreeState();
    var lfc, ldl := new nat[HEAP_SIZE](i => 0), new nat[HEAP_SIZE](i => 0);
    var dfc, ddl := new nat[61](i => 0), new nat[61](i => 0);
    var bfc, bdl := new nat[39](i => 0), new nat[39](i => 0);
    a := TreeArrays(lfc, ldl, dfc, ddl, bfc, bdl);
    InitBlock(st, a, t);
  }

  /** The state that _tr_init leaves (zlib/trees.c:379-402). */
  method TrInit()
    returns (st: TreeState, a: TreeArrays, dyn: Arrays, fix: Arrays, ld: StaticDesc, dd: StaticDesc, bd: StaticDesc,
        ghost t: Tables)
    ensures Sender(st, a, dyn, fix, ld, dd, bd, t)
    ensures fresh(st) && fresh({st.heap, st.depth, st.blCount, a.lfc, a.ldl, a.dfc, a.ddl, a.bfc, a.bdl})
  {
    hide StaticLit, StaticDist, GoodTables, LitDesc, DistDesc, BlDesc, Tallies, TreeReady;
    fix, t := TrStaticInit();
    st, a := NewTrees(t);
    dyn := Arrays(fix.baseLength, fix.lengthCode, fix.baseDist, fix.distCode, a.lfc, a.ldl, a.dfc, a.ddl);
    DescsGood(StaticLit(), StaticDist(30));
    ld := StaticDesc(true, StaticLit(), EXTRA_LBITS, 257, 286, 15);
    dd := StaticDesc(true, StaticDist(30), EXTRA_DBITS, 0, 30, 15);
    bd := StaticDesc(false, [], EXTRA_BLBITS, 0, BL_CODES, 7);
  }

  /** _tr_tally for every symbol (zlib/deflate.h:321-339). */
  method TallyAll(a: TreeArrays, lengthCode: array<nat>, distCode: array<nat>, syms: seq<Symbol>, ghost t: Tables)
    returns (symBuf: seq<byte>)
    requires a.lfc != a.dfc && lengthCode !in {a.lfc, a.dfc} && distCode !in {a.lfc, a.dfc}
    requires GoodTables(t) && t.lengthCode == lengthCode[..] && t.distCode == distCode[..]
    requires (forall x :: x in syms ==> BlockCodes.Codable(x)) && Tallies(t, [], a.lfc[..], a.dfc[..])
    modifies a.lfc, a.dfc
    ensures Tallies(t, syms, a.lfc[..], a.dfc[..]) && symBuf == SymBuf(syms)
  {
    hide GoodTables, LengthTables, DistTables, LitCount, DistCount;
    symBuf := [];
    for i := 0 to |syms|
      invariant Tallies(t, syms[..i], a.lfc[..], a.dfc[..]) && symBuf == SymBuf(syms[..i])
      invariant t.lengthCode == lengthCode[..] && t.distCode == distCode[..]
    {
      TallyFreq(a.lfc, a.dfc, lengthCode, distCode, syms[i], t, syms[..i]);
      symBuf := symBuf + CompressBlock.Tallied(syms[i]);
      SymBufOn(syms[..i], syms[i]);
      assert syms[..i + 1] == syms[..i] + [syms[i]];
    }
    assert syms[..|syms|] == syms;
  }

  lemma {:induction false} SymBufOn(syms: seq<Symbol>, s: Symbol)
    requires (forall x :: x in syms ==> BlockCodes.Codable(x)) && BlockCodes.Codable(s)
    ensures SymBuf(syms + [s]) == SymBuf(syms) + CompressBlock.Tallied(s)
    decreases |syms|
  {
    hide CompressBlock.Tallied;
    if syms == [] {
      assert [s][1..] == [];
      assert syms + [s] == [s];
    } else {
      assert (syms + [s])[1..] == syms[1..] + [s];
      SymBufOn(syms[1..], s);
    }
  }

  /** One block tallied and flushed. */
  method SendBlock(st: TreeState, w: BitWriter, a: TreeArrays, dyn: Arrays, fix: Arrays, ld: StaticDesc, dd: StaticDesc,
                   bd: StaticDesc, b: Block, last: bool, fixed: bool, ghost t: Tables) returns (ghost part: Part)
    requires Sender(st, a, dyn, fix, ld, dd, bd, t) && w.Valid() && GoodBlock(b)
    modifies st, st.heap, st.depth, st.blCount, a.lfc, a.ldl, a.dfc, a.ddl, a.bfc, a.bdl, w
    ensures Sender(st, a, dyn, fix, ld, dd, bd, t) && w.Valid()
    ensures part.syms == b.syms && part.buf == b.buf && GoodForm(part.form, t, part.syms, part.buf)
    ensures (part.form.StoredForm? ==> b.hasBuf) && (last ==> w.biValid == 0)
    ensures var sent := Join(old(w.Written()), FormBits(part.form, t, part.syms, part.buf, old(w.Written().n), last));
      w.Written() == if last then Join(sent, Pad(sent.n)) else sent
    ensures b.hasBuf ==> ByteCount(w.Written().n) <= ByteCount(old(w.Written().n)) + b.storedLen + BLOCK_OVERHEAD
  {
    hide GoodTables, Tallies, LitDesc, DistDesc, BlDesc, Ready, GoodForm, FormBits, Join, Pad, LitCount, DistCount,
      BitWriter.Written, Codable, SymBuf, LitLength, DCode, Extra, StaticBits, ByteCount;
    SenderTables(t, dyn, st, a, fix, ld, dd, bd);
    var symBuf := TallyAll(a, dyn.lengthCode, dyn.distCode, b.syms, t);
    ghost var form, _ := TrFlushBlock(st, w, a, dyn, fix, ld, dd, bd, symBuf, b.buf, b.hasBuf, b.storedLen, last, fixed,
        t, b.syms);
    part := Part(form, b.syms, b.buf);
  }

  lemma SenderTables(t: Tables, dyn: Arrays, st: TreeState, a: TreeArrays, fix: Arrays, ld: StaticDesc, dd: StaticDesc,
      bd: StaticDesc)
    requires Sender(st, a, dyn, fix, ld, dd, bd, t)
    ensures t.lengthCode == dyn.lengthCode[..] && t.distCode == dyn.distCode[..] && GoodTables(t)
  {
    hide GoodTables, Tallies, LitDesc, DistDesc, BlDesc, Ready;
  }

  /** What the parts have to do with the blocks they were made from. */
  ghost predicate PartsOf(parts: seq<Part>, blocks: seq<Block>) {
    |parts| == |blocks|
    && forall i :: 0 <= i < |parts| ==>
         parts[i].syms == blocks[i].syms && parts[i].buf == blocks[i].buf
             && (parts[i].form.StoredForm? ==> blocks[i].hasBuf)
  }

  method SendBlocks(st: TreeState, w: BitWriter, a: TreeArrays, dyn: Arrays, fix: Arrays, ld: StaticDesc,
      dd: StaticDesc,
                    bd: StaticDesc, blocks: seq<Block>, fixed: bool, ghost t: Tables) returns (ghost parts: seq<Part>)
    requires Sender(st, a, dyn, fix, ld, dd, bd, t) && w.Valid() && blocks != []
    requires forall i :: 0 <= i < |blocks| ==> GoodBlock(blocks[i])
    modifies st, st.heap, st.depth, st.blCount, a.lfc, a.ldl, a.dfc, a.ddl, a.bfc, a.bdl, w
    ensures w.Valid() && w.biValid == 0 && PartsOf(parts, blocks) && GoodTables(t) && GoodForms(t, parts)
    ensures var p := old(w.Written()).n; var body := PartsBits(t, parts, p, true);
      w.Written() == Join(old(w.Written()), Join(body, Pad(p + body.n)))
    ensures (forall i :: 0 <= i < |blocks| ==> blocks[i].hasBuf) ==>
      ByteCount(w.Written().n) <= ByteCount(old(w.Written().n)) + StoredTotal(blocks) + BLOCK_OVERHEAD * |blocks|
  {
    hide Sender, GoodBlock, GoodTables, GoodForm, FormBits, Join, Pad, PartsBits, BitWriter.Valid, BitWriter.Written,
      ByteCount, StoredTotal;
    ghost var was, p := w.Written(), w.Written().n;
    parts := [];
    SenderTables(t, dyn, st, a, fix, ld, dd, bd);
    NoParts(t, p);
    JoinNone(was);
    assert blocks[..0] == [];
    var n := |blocks| - 1;
    for i := 0 to n
      invariant Sender(st, a, dyn, fix, ld, dd, bd, t) && w.Valid()
      invariant PartsOf(parts, blocks[..i]) && GoodForms(t, parts)
      invariant w.Written() == Join(was, PartsBits(t, parts, p, false))
      invariant Small(blocks[..i], p, w.Written().n)
    {
      assert blocks[..i + 1] == blocks[..i] + [blocks[i]];
      StoredMore(blocks[..i], blocks[i]);
      ghost var body := PartsBits(t, parts, p, false);
      ghost var part := SendBlock(st, w, a, dyn, fix, ld, dd, bd, blocks[i], false, fixed, t);
      PartsAppend(t, parts, part, p, false);
      JoinLength(was, body);
      JoinAssoc(was, body, FormBits(part.form, t, part.syms, part.buf, p + body.n, false));
      parts := parts + [part];
    }
    ghost var body := PartsBits(t, parts, p, false);
    ghost var part := SendBlock(st, w, a, dyn, fix, ld, dd, bd, blocks[n], true, fixed, t);
    ghost var last := FormBits(part.form, t, part.syms, part.buf, p + body.n, true);
    PartsAppend(t, parts, part, p, true);
    JoinLength(was, body);
    JoinLength(body, last);
    JoinAssoc(was, body, last);
    JoinLength(was, Join(body, last));
    JoinAssoc(was, Join(body, last), Pad(p + Join(body, last).n));
    parts := parts + [part];
    assert blocks == blocks[..n] + [blocks[n]];
    StoredMore(blocks[..n], blocks[n]);
  }

  /** Blocks that have their text at hand take at most five bytes more than it. */
  ghost predicate Small(blocks: seq<Block>, before: nat, after: nat) {
    (forall i :: 0 <= i < |blocks| ==> blocks[i].hasBuf) ==>
      ByteCount(after) <= ByteCount(before) + StoredTotal(blocks) + BLOCK_OVERHEAD * |blocks|
  }

  lemma NoParts(t: Tables, p: nat)
    requires GoodTables(t)
    ensures PartsBits(t, [], p, false) == NoBits
  {
    hide GoodTables;
  }

  /** In whatever form each block went. */
  lemma {:induction false} PartsStandFor(out: seq<byte>, blocks: seq<Block>, parts: seq<Part>, text: seq<byte>)
    requires StandFor(out, blocks, text) && PartsOf(parts, blocks)
    ensures TextOf(out, parts) == Decoded(text)
    decreases |blocks|
  {
    if blocks != [] {
      PartsStandFor(Extend(out, blocks[0].syms).text, blocks[1..], parts[1..], text);
    }
  }

  lemma WholeBytesOnly(w: BitWriter)
    requires w.Valid() && w.biValid == 0
    ensures w.Written() == BytesBits(w.pending)
  {
    hide Pow2, Join, BytesBits;
    NoBuffer(w.biBuf);
    JoinNone(BytesBits(w.pending));
  }

  /** A stream from header to trailer. */
  method SendWhole(st: TreeState, a: TreeArrays, dyn: Arrays, fix: Arrays, ld: StaticDesc, dd: StaticDesc,
      bd: StaticDesc,
                   c: InflateSpec.Setup, wBits: nat, levelFlags: nat, blocks: seq<Block>, fixed: bool, text: seq<byte>,
                       ghost t: Tables)
    returns (wire: seq<byte>, ghost parts: seq<Part>)
    requires Sender(st, a, dyn, fix, ld, dd, bd, t) && blocks != [] && 8 <= wBits <= 15 && levelFlags <= 3
    requires forall i :: 0 <= i < |blocks| ==> GoodBlock(blocks[i])
    modifies st, st.heap, st.depth, st.blCount, a.lfc, a.ldl, a.dfc, a.ddl, a.bfc, a.bdl
    ensures PartsOf(parts, blocks) && GoodTables(t) && GoodForms(t, parts)
    ensures BytesBits(wire) == StreamBits(c, t, parts, text, wBits, levelFlags)
    ensures StandFor([], blocks, text) && LongBlocks(blocks) ==> |wire| <= Bound(|text|)
  {
    hide Sender, GoodBlock, GoodTables, GoodForms, Join, Pad, PartsBits, BitWriter.Written, BytesBits, ZlibHeader,
      AdlerBytes, PartsOf, Adler32.Check, Adler32.Unpack, StandFor, StoredTotal, Bound, ByteCount;
    var w := new BitWriter();
    WholeBytesOnly(w);
    NoHeader(w);
    if c.zlib {
      w.PutBytes(ZlibHeader(wBits, levelFlags));
      WholeBytesOnly(w);
      JoinNone(BytesBits(ZlibHeader(wBits, levelFlags)));
    }
    ghost var header, head := w.Written(), |w.pending|;
    ByteSize(w.pending);
    parts := SendBlocks(st, w, a, dyn, fix, ld, dd, bd, blocks, fixed, t);
    WholeBytesOnly(w);
    ByteSize(w.pending);
    ghost var sent := |w.pending|;
    ghost var body := PartsBits(t, parts, header.n, true);
    ghost var pad, trailer := Pad(header.n + body.n), NoBits;
    if c.zlib {
      InflateHeader.UnpackOne();
      var adler := Adler32.Adler32Z(1, Adler32.Bytes(text), |text|);
      w.PutBytes(AdlerBytes(adler));
      trailer := BytesBits(AdlerBytes(adler));
    }
    JoinNone(Join(header, Join(body, pad)));
    JoinAssoc(header, Join(body, pad), trailer);
    JoinAssoc(body, pad, trailer);
    wire := w.pending;
    if StandFor([], blocks, text) && LongBlocks(blocks) { WireFits(blocks, text, head, sent, |wire|); }
  }

  lemma WireFits(blocks: seq<Block>, text: seq<byte>, header: nat, sent: nat, wire: nat)
    requires StandFor([], blocks, text) && LongBlocks(blocks) && blocks != []
      && forall i :: 0 <= i < |blocks| ==> GoodBlock(blocks[i])
    requires sent <= header + StoredTotal(blocks) + BLOCK_OVERHEAD * |blocks| && wire - sent <= 4 && header <= 2
    ensures wire <= Bound(|text|)
  {
    hide StandFor, StoredTotal, Bound;
    StoredIsText([], blocks, text);
    BlocksFit(blocks);
  }

  lemma ByteSize(bs: seq<byte>)
    ensures ByteCount(BytesBits(bs).n) == |bs|
  {
    hide Load;
  }

  lemma NoHeader(w: BitWriter)
    requires w.Written() == NoBits && w.Written() == BytesBits(w.pending)
    ensures w.pending == [] && BytesBits(w.pending) == NoBits
  {
  }

  /** The decoder is offered the whole stream and room for the whole text: by its last call, or little by little. */
  ghost predicate AllOffered(takes: seq<nat>, rooms: seq<nat>, wire: seq<byte>, text: seq<byte>)
    requires |takes| == |rooms|
  {
    || (takes != [] && takes[|takes| - 1] >= |wire| && rooms[|rooms| - 1] >= |text|)
    || (|takes| > |wire| + |text| && forall i :: 0 <= i < |takes| ==> takes[i] > 0 && rooms[i] > 0)
  }

  /**
   There and back: the blocks sent as a stream, and the stream decoded in any pieces.  When
   the decoder comes to an end, as it does once everything was offered, it has given back
   the text and used the whole stream.
   */
  method ThereAndBack(st: TreeState, a: TreeArrays, dyn: Arrays, fix: Arrays, ld: StaticDesc, dd: StaticDesc,
      bd: StaticDesc,
                      c: InflateSpec.Setup, wBits: nat, levelFlags: nat, blocks: seq<Block>, fixed: bool,
                          text: seq<byte>,
                      takes: seq<nat>, rooms: seq<nat>, ghost t: Tables)
    returns (back: seq<byte>, code: Inflate.Code, pos: nat, wire: seq<byte>, ghost parts: seq<Part>, starved: bool)
    requires Sender(st, a, dyn, fix, ld, dd, bd, t) && blocks != [] && 8 <= wBits <= 15 && levelFlags <= 3
    requires (forall i :: 0 <= i < |blocks| ==> GoodBlock(blocks[i])) && StandFor([], blocks, text)
    requires 128 <= c.enoughLens && 2 <= c.enoughDists && |takes| == |rooms|
    modifies st, st.heap, st.depth, st.blCount, a.lfc, a.ldl, a.dfc, a.ddl, a.bfc, a.bdl
    ensures PartsOf(parts, blocks) && GoodTables(t) && GoodForms(t, parts)
    ensures BytesBits(wire) == StreamBits(c, t, parts, text, wBits, levelFlags)
    ensures LongBlocks(blocks) ==> |wire| <= Bound(|text|)
    ensures GoodParts(c, t, parts)
      ==> back <= text && !starved && code != Inflate.DATA_ERROR && code != Inflate.NEED_DICT
    ensures GoodParts(c, t, parts) && (Inflate.Final(code) || AllOffered(takes, rooms, wire, text)) ==>
      back == text && code == Inflate.STREAM_END && pos == |wire|
  {
    hide Sender, GoodBlock, GoodTables, GoodForms, GoodParts, StandFor, PartsOf, StreamBits, InflateRuns.Ending,
      InflateSpec.Ok, BytesBits, LongBlocks, Bound;
    wire, parts := SendWhole(st, a, dyn, fix, ld, dd, bd, c, wBits, levelFlags, blocks, fixed, text, t);
    var mode, held;
    back, code, mode, pos, held, starved := Inflate.InflateInPieces(c, wire, takes, rooms);
    PartsStandFor([], blocks, parts, text);
    if GoodParts(c, t, parts) {
      SomeParts(parts, blocks);
      StreamDecoded(c, t, parts, text, wBits, levelFlags, wire);
    }
  }

  lemma SomeParts(parts: seq<Part>, blocks: seq<Block>)
    requires PartsOf(parts, blocks) && blocks != []
    ensures parts != []
  {
  }
}
