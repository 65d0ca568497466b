/**
 The codec as a whole: text compressed by `deflate_fast` or `deflate_slow`, in whatever
 pieces it arrives, sent block by block as a raw or zlib stream, and decompressed by
 `inflate` in whatever pieces it is read, is the same text.
 */
module Codec {
  import opened BitOps
  import opened HashChains
  import opened LongestMatch
  import opened Parsing
  import opened Blocks
  import opened SendStream
  import opened RoundTrip
  import opened CompressBound
  import opened BitStream
  import BlockCodes
  import DecodeTable
  import Deflate
  import Inflate
  import InflateSpec

  /** The pieces one after another. */
  function Concat(pieces: seq<seq<byte>>): seq<byte>
    decreases |pieces|
  {
    if pieces == [] then [] else Concat(pieces[..|pieces| - 1]) + pieces[|pieces| - 1]
  }

  /** The field symEnd of deflate_state is less than 2^15 (zlib/deflate.c:373 and zutil.h for the largest memory
      level). */
  const MOST_SYMBOLS: nat := 0x7fff

  lemma Sendable(s: Deflate.DeflateState)
    requires s.Fixed() && Deflate.Recorded(s.flushed, s.text, |s.text|, MaxDist(s.z), s.symEnd)
      && s.symEnd <= MOST_SYMBOLS
    ensures StandFor([], s.flushed, s.text)
    ensures forall i :: 0 <= i < |s.flushed| ==> GoodBlock(s.flushed[i])
  {
    hide StandFor;
    assert s.text[..|s.text|] == s.text;
    Pow2Mono(s.z.wBits, 15);
    Pow2Short();
    assert Pow2(16) == 2 * Pow2(15);
    forall i | 0 <= i < |s.flushed| ensures GoodBlock(s.flushed[i]) {
      assert Deflate.SendableBlock(s.flushed[i], MaxDist(s.z), s.symEnd);
    }
  }

  /** deflate called once for each piece, and then until it is finished. */
  method Compress(z: Sizes, c: Config, filtered: bool, symEnd: nat, lazy: bool, pieces: seq<seq<byte>>,
      flush: seq<bool>)
    returns (blocks: seq<Block>, ghost inserted: set<nat>, ghost looks: map<nat, Look>)
    requires ValidSizes(z) && ValidConfig(c) && 1 <= symEnd <= MOST_SYMBOLS && |pieces| == |flush|
    ensures StandFor([], blocks, Concat(pieces)) && blocks != []
    ensures forall i :: 0 <= i < |blocks| ==> GoodBlock(blocks[i])
    ensures |Concat(pieces)| < Pow2(z.wBits) + MaxDist(z) ==> forall i :: 0 <= i < |blocks| ==> blocks[i].hasBuf
    ensures true !in flush ==> forall i :: 0 <= i < |blocks| - 1 ==> |blocks[i].syms| == symEnd
    ensures Explained(Rules(z, c, filtered, lazy), Concat(pieces), inserted, looks, AllSyms(blocks), |Concat(pieces)|)
  {
    hide Deflate.Recorded, StandFor, GoodBlock, Deflate.StandsFor, Aligned, ValidSizes, MaxDist,
      Deflate.DeflateState.Before, Deflate.DeflateState.Held, Deflate.DeflateState.AllSent,
      Deflate.DeflateState.MatchPending, Heads, Prevs, Chains, Pow2, ValidConfig, Deflate.DeflateState.Pending,
      Deflate.DeflateState.Done, Deflate.DeflateState.Reasons, Deflate.DeflateState.Awaited,
      Deflate.DeflateState.SlowBody, Explained, AllSyms;
    var s := new Deflate.DeflateState(z, c, filtered, symEnd);
    ReadyIs(s, lazy);
    for i := 0 to |pieces|
      invariant Ready(s, lazy) && s.text + s.nextIn == Concat(pieces[..i])
      invariant fresh(s) && fresh(s.window) && fresh(s.prev) && fresh(s.head) && s.z == z && s.symEnd == symEnd
      invariant s.Rule(lazy) == Rules(z, c, filtered, lazy)
      invariant true !in flush ==> s.Full(|s.flushed|)
    {
      assert pieces[..i + 1][..i] == pieces[..i];
      assert s.text + (s.nextIn + pieces[i]) == Concat(pieces[..i + 1]);
      ReadyIs(s, lazy);
      s.Feed(pieces[i]);
      var _ := OneCall(s, lazy, if flush[i] then Deflate.Flush else Deflate.NoFlush);
    }
    assert pieces[..|pieces|] == pieces;
    var done := false;
    while !done
      invariant Ready(s, lazy) && s.text + s.nextIn == Concat(pieces)
      invariant fresh(s) && fresh(s.window) && fresh(s.prev) && fresh(s.head)
      invariant s.z == z && s.symEnd == symEnd && s.Rule(lazy) == Rules(z, c, filtered, lazy)
      invariant done ==> s.AllSent() && s.flushed != [] && (lazy ==> !s.matchAvailable)
      invariant true !in flush ==> s.Full(if done then |s.flushed| - 1 else |s.flushed|)
      decreases !done, |s.nextIn| + s.lookahead
    {
      var state := OneCall(s, lazy, Deflate.Finish);
      done := !state.NeedMore?;
    }
    AllOf(s, lazy, Concat(pieces));
    Sendable(s);
    Parsed(s, lazy);
    blocks, inserted, looks := s.flushed, s.inserted, s.looks;
  }

  /** Between calls. */
  ghost predicate Ready(s: Deflate.DeflateState, lazy: bool)
    reads s, s.window, s.prev, s.head
  {
    s.symEnd <= MOST_SYMBOLS && if lazy then s.SlowReady() else s.FastReady()
  }

  lemma ReadyIs(s: Deflate.DeflateState, lazy: bool)
    ensures Ready(s, lazy) <==> s.symEnd <= MOST_SYMBOLS && if lazy then s.SlowReady() else s.FastReady()
  {
  }

  lemma AllOf(s: Deflate.DeflateState, lazy: bool, all: seq<byte>)
    requires Ready(s, lazy) && s.AllSent() && s.text + s.nextIn == all
    ensures s.text == all && s.Fixed() && s.symEnd <= MOST_SYMBOLS
    ensures Deflate.Recorded(s.flushed, s.text, |s.text|, MaxDist(s.z), s.symEnd) && s.Unslid()
  {
    hide Deflate.Recorded, Deflate.StandsFor, Chains, Shows;
    assert s.text + [] == s.text;
  }

  /** The symbols of the blocks follow from what the matcher saw. */
  lemma Parsed(s: Deflate.DeflateState, lazy: bool)
    requires Ready(s, lazy) && s.AllSent() && (lazy ==> !s.matchAvailable)
    ensures Explained(s.Rule(lazy), s.text, s.inserted, s.looks, AllSyms(s.flushed), |s.text|)
  {
    hide Explained, Past, Deflate.Recorded, Deflate.StandsFor, Chains, AllSyms;
    assert s.sent + s.symBuf == s.sent;
  }

  /** The function of the configuration table (zlib/deflate.c:114-140). */
  method OneCall(s: Deflate.DeflateState, lazy: bool, flush: Deflate.FlushMode) returns (state: Deflate.BlockState)
    requires Ready(s, lazy)
    modifies s, s.window, s.prev, s.head
    ensures Ready(s, lazy) && s.text + s.nextIn == old(s.text + s.nextIn)
    ensures old(s.Full(|s.flushed|)) && !flush.Flush?
      ==> s.Full(if state.NeedMore? then |s.flushed| else |s.flushed| - 1)
    ensures flush.NoFlush? ==> state.NeedMore?
    ensures !state.NeedMore? ==> s.AllSent() && (lazy ==> !s.matchAvailable)
    ensures flush.Finish? && !state.NeedMore? ==> s.flushed != []
    ensures state.NeedMore? && flush.Finish? ==> |s.nextIn| + s.lookahead < old(|s.nextIn| + s.lookahead)
  {
    hide Deflate.DeflateState.Window, Deflate.DeflateState.Tallied, Deflate.DeflateState.Pending, Deflate.Recorded;
    if lazy {
      state := s.DeflateSlow(flush);
    } else {
      state := s.DeflateFast(flush);
    }
  }

  /** The decoder has room for the tables of the dynamic blocks: what ENOUGH_LENS and ENOUGH_DISTS are for. */
  ghost predicate Room(c: InflateSpec.Setup, t: BlockCodes.Tables, parts: seq<Part>) {
    BlockCodes.GoodTables(t) && (GoodParts(c, t, parts) || (c.enoughLens >= 0x10000 && c.enoughDists >= 0x10000))
  }

  /**
   The codec's promise.  Text arrives in pieces, is compressed greedily or lazily, with
   dynamic, static and stored blocks as they come, and sent with or without the zlib
   wrapper; the stream is decoded with the input and the output cut up in any way.
   */
  method CompressedComesBack(z: Sizes, conf: Config, filtered: bool, symEnd: nat, lazy: bool, pieces: seq<seq<byte>>,
      flush: seq<bool>,
                             levelFlags: nat, fixed: bool, c: InflateSpec.Setup, takes: seq<nat>, rooms: seq<nat>)
    returns (blocks: seq<Block>, wire: seq<byte>, back: seq<byte>, code: Inflate.Code, pos: nat, starved: bool,
             ghost t: BlockCodes.Tables, ghost parts: seq<Part>, ghost inserted: set<nat>, ghost looks: map<nat, Look>)
    requires ValidSizes(z) && ValidConfig(conf) && 1 <= symEnd <= MOST_SYMBOLS && |pieces| == |flush| && levelFlags <= 3
    requires 128 <= c.enoughLens && 2 <= c.enoughDists && |takes| == |rooms|
    ensures StandFor([], blocks, Concat(pieces)) && PartsOf(parts, blocks) && BlockCodes.GoodTables(t)
      && GoodForms(t, parts)
    ensures Explained(Rules(z, conf, filtered, lazy), Concat(pieces), inserted, looks, AllSyms(blocks),
                      |Concat(pieces)|)
    ensures BytesBits(wire) == StreamBits(c, t, parts, Concat(pieces), z.wBits, levelFlags)
    ensures Room(c, t, parts)
      ==> back <= Concat(pieces) && !starved && code != Inflate.DATA_ERROR && code != Inflate.NEED_DICT
    ensures Room(c, t, parts) && (Inflate.Final(code) || AllOffered(takes, rooms, wire, Concat(pieces))) ==>
      back == Concat(pieces) && code == Inflate.STREAM_END && pos == |wire|
    ensures c.enoughLens >= 0x10000 && c.enoughDists >= 0x10000 ==> Room(c, t, parts)
    ensures symEnd >= MIN_BLOCK && true !in flush && AtHand(z, blocks, Concat(pieces))
      ==> |wire| <= Bound(|Concat(pieces)|)
  {
    hide Sender, StandFor, GoodBlock, GoodParts, GoodForms, PartsOf, BlockCodes.GoodTables, Concat, BytesBits,
      StreamBits, AllOffered, Bound, LongBlocks, Explained, AllSyms;
    blocks, inserted, looks := Compress(z, conf, filtered, symEnd, lazy, pieces, flush);
    var text := Joined(pieces);
    var st, a, dyn, fix, ld, dd, bd;
    st, a, dyn, fix, ld, dd, bd, t := TrInit();
    back, code, pos, wire, parts, starved :=
      ThereAndBack(st, a, dyn, fix, ld, dd, bd, c, z.wBits, levelFlags, blocks, fixed, text, takes, rooms, t);
    if c.enoughLens >= 0x10000 && c.enoughDists >= 0x10000 { RoomForParts(c, t, parts); }
    if symEnd >= MIN_BLOCK && true !in flush && AtHand(z, blocks, text) { AllLong(blocks, text); }
  }

  /** Every block's text was in the window when the block was sent, as it is when all of the text fits. */
  ghost predicate AtHand(z: Sizes, blocks: seq<Block>, text: seq<byte>) {
    |text| < Pow2(z.wBits) + MaxDist(z) || forall i :: 0 <= i < |blocks| ==> blocks[i].hasBuf
  }

  /** The lengths that the matcher looks for are those that have codes. */
  lemma LengthsHaveCodes()
    ensures MIN_MATCH == DecodeTable.LBASE[0] && MAX_MATCH == DecodeTable.LBASE[28]
  {
  }

  lemma AllLong(blocks: seq<Block>, text: seq<byte>)
    requires StandFor([], blocks, text) && forall i :: 0 <= i < |blocks| ==> blocks[i].hasBuf && GoodBlock(blocks[i])
    requires forall i :: 0 <= i < |blocks| - 1 ==> |blocks[i].syms| >= MIN_BLOCK
    ensures LongBlocks(blocks)
  {
    hide StandFor, LongBlocks;
    forall i | 0 <= i < |blocks| ensures forall s :: s in blocks[i].syms && s.Match? ==> s.len >= 1 {
      assert GoodBlock(blocks[i]);
    }
    FullAreLong([], blocks, text);
  }

  /** The text as the check is taken of it. */
  method Joined(pieces: seq<seq<byte>>) returns (text: seq<byte>)
    ensures text == Concat(pieces)
  {
    text := [];
    for i := 0 to |pieces|
      invariant text == Concat(pieces[..i])
    {
      assert pieces[..i + 1][..i] == pieces[..i];
      text := text + pieces[i];
    }
    assert pieces[..|pieces|] == pieces;
  }
}
