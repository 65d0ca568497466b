/**
 The LZ77 side of the compressor (zlib/deflate.c): the sliding window and its refill,
 the greedy `deflate_fast` and the lazy `deflate_slow`.

 Whatever input arrives in whatever pieces, across any number of window slides and
 block flushes, the symbols tallied so far decode to exactly the input consumed, and each
 of them follows from what was seen at its position and the next.
 */
module Deflate {
  import opened BitOps
  import opened HashKey
  import opened Lz77
  import opened Blocks
  import opened HashChains
  import opened LongestMatch
  import opened Parsing

  const TOO_FAR: nat := 4096

  /** Flush is Z_BLOCK: what deflate adds after a block for other flushes (zlib/deflate.c:1075-1091), an empty block
      and perhaps CLEAR_HASH, is not part of this model. */
  datatype FlushMode = NoFlush | Flush | Finish

  datatype BlockState = NeedMore | BlockDone | FinishStarted | FinishDone

  lemma ShowsMore(window: seq<byte>, window': seq<byte>, text: seq<byte>, more: seq<byte>, base: nat, end: nat)
    requires Shows(window, text, base, end) && |window'| == |window| && end + |more| <= |window|
    requires forall i :: 0 <= i < |window| ==>
      window'[i] == if end <= i < end + |more| then more[i - end] else window[i]
    ensures Shows(window', text + more, base, end + |more|)
  {
  }

  lemma RepeatsGrows(text: seq<byte>, text': seq<byte>, pos: nat, dist: nat, len: nat)
    requires Repeats(text, pos, dist, len) && text <= text'
    ensures Repeats(text', pos, dist, len)
  {
  }

  lemma ShowsBlock(window: seq<byte>, text: seq<byte>, base: nat, end: nat, a: nat, b: nat)
    requires Shows(window, text, base, end) && a <= b <= end
    ensures text[..base + a] + window[a..b] == text[..base + b]
  {
  }

  /** Lengths and distances that deflate can code with this window. */
  ghost predicate Codable(s: Symbol, maxDist: int) {
    s.Match? ==> MIN_MATCH <= s.len <= MAX_MATCH && 1 <= s.dist <= maxDist
  }

  ghost predicate StandsFor(syms: seq<Symbol>, text: seq<byte>, n: nat, maxDist: int) {
    n <= |text| && Decode(syms) == Decoded(text[..n]) && forall s :: s in syms ==> Codable(s, maxDist)
  }

  lemma MoreText(syms: seq<Symbol>, text: seq<byte>, text': seq<byte>, n: nat, maxDist: int)
    requires StandsFor(syms, text, n, maxDist) && text <= text'
    ensures StandsFor(syms, text', n, maxDist)
  {
    assert text'[..n] == text[..n];
  }

  /** The blocks flushed stand for the first n bytes, and each can be sent. */
  ghost predicate Recorded(flushed: seq<Block>, text: seq<byte>, n: int, maxDist: int, most: nat) {
    0 <= n <= |text| && StandFor([], flushed, text[..n])
    && forall i :: 0 <= i < |flushed| ==> SendableBlock(flushed[i], maxDist, most)
  }

  ghost predicate SendableBlock(b: Block, maxDist: int, most: nat) {
    && (forall s :: s in b.syms ==> Codable(s, maxDist)) && |b.syms| <= most
    && (b.hasBuf ==> b.storedLen == |b.buf| < 0x10000)
  }

  lemma RecordedLater(flushed: seq<Block>, text: seq<byte>, text': seq<byte>, n: int, maxDist: int, most: nat)
    requires Recorded(flushed, text, n, maxDist, most) && text <= text'
    ensures Recorded(flushed, text', n, maxDist, most)
  {
    hide StandFor;
    assert text'[..n] == text[..n];
  }

  lemma RecordBlock(flushed: seq<Block>, b: Block, sent: seq<Symbol>, text: seq<byte>, from: int, to: int, maxDist: int,
      most: nat)
    requires Recorded(flushed, text, from, maxDist, most) && SendableBlock(b, maxDist, most) && from <= to
    requires 0 <= from && StandsFor(sent, text, from, maxDist) && 0 <= to && StandsFor(sent + b.syms, text, to, maxDist)
    requires b.hasBuf ==> text[..from] + b.buf == text[..to]
    ensures Recorded(flushed + [b], text, to, maxDist, most)
  {
    hide StandFor, Decode, SendableBlock;
    Flushed(sent, b.syms, text[..from], text[..to]);
    StandForMore([], flushed, b, text[..from], text[..to]);
  }

  function Min(a: nat, b: nat): nat {
    if a > b then b else a
  }

  /** The fields of deflate_state that the matcher works on, and strm->next_in. */
  class DeflateState {
    const z: Sizes
    const c: Config
    const filtered: bool                // strategy == Z_FILTERED
    const symEnd: nat                   // symbols that fit in sym_buf
    const wSize: nat
    const window: array<byte>
    const prev: array<nat>
    const head: array<nat>

    var nextIn: seq<byte>
    var strstart: nat
    var lookahead: nat
    var insH: nat
    var insert: nat
    var matchLength: nat
    var matchStart: int                 // of use only as a difference from strstart, as unsigned in C
    var prevLength: nat
    var prevMatch: int
    var matchAvailable: bool
    var blockStart: int
    var highWater: nat
    var symBuf: seq<Symbol>
    var flushed: seq<Block>             // the blocks handed to _tr_flush_block

    ghost var text: seq<byte>           // all input read so far
    ghost var base: nat                 // where in it the window begins
    ghost var slides: nat
    ghost var inserted: set<nat>        // positions in the dictionary, ever
    ghost var top: nat                  // all of them are below
    ghost var sent: seq<Symbol>         // symbols of the blocks flushed so far
    ghost var looks: map<nat, Look>     // what was seen where a match was looked for

    ghost predicate Fixed() {
      && ValidSizes(z) && ValidConfig(c) && wSize == Pow2(z.wBits) && window.Length == 2 * wSize
      && prev != head && symEnd >= 1 && wSize >= 512
    }

    /** The window shows the input up to index end, and the dictionary is in order. */
    ghost predicate Core(end: nat)
      reads this`text, this`base, this`slides, this`inserted, this`top, window, prev, head
    {
      && Fixed() && Aligned(z, base, slides) && Shows(window[..], text, base, end)
      && Chains(z, head[..], prev[..], text, inserted, base, top) && (top == 0 || top + 2 <= |text|)
    }

    /** The strings before index p are behind us; if there is a string at p its key is primed. */
    ghost predicate Before(p: nat, end: nat)
      reads this`base, this`top, this`insH, window
    {
      && top <= base + p && end <= window.Length
      && (p + 3 <= end ==> Primed(z.hash, insH, window[p], window[p + 1]))
    }

    /** Up to two strings before index p were not inserted for want of lookahead, and there is still not enough. */
    ghost predicate Held(p: nat)
      reads this`insert, this`lookahead, this`base, this`top
    {
      insert <= 2 && insert <= p && top + insert <= base + p && (insert > 0 ==> lookahead + insert < MIN_MATCH)
    }

    ghost predicate Window()
      reads this, window, prev, head
    {
      && Core(strstart + lookahead) && Before(strstart, strstart + lookahead) && Held(strstart)
      && (base > 0 ==> strstart > 0)
    }

    /** The symbols so far stand for the first n bytes of the input, those flushed for what comes before the block. */
    ghost predicate Tallied(n: int)
      reads this`text, this`base, this`blockStart, this`symBuf, this`sent, this`flushed
    {
      0 <= base + blockStart <= n <= |text| && |symBuf| <= symEnd && sent == AllSyms(flushed)
      && StandsFor(sent + symBuf, text, n, MaxDist(z)) && StandsFor(sent, text, base + blockStart, MaxDist(z))
      && Recorded(flushed, text, base + blockStart, MaxDist(z), symEnd)
    }

    ghost function Rule(lazy: bool): Rules {
      Rules(z, c, filtered, lazy)
    }

    /** The symbols so far, which cover n bytes, follow from what was seen. */
    ghost predicate Reasons(lazy: bool, n: int)
      reads this`text, this`inserted, this`top, this`base, this`strstart, this`looks, this`sent, this`symBuf
    {
      Explained(Rule(lazy), text, inserted, looks, sent + symBuf, n) && Past(looks, base + strstart, top)
    }

    lemma CoreFacts(end: nat)
      requires Core(end)
      ensures Fixed() && base + end == |text| && end <= window.Length && (top == 0 || top + 2 <= |text|)
    {
    }

    lemma CoreByte(end: nat, i: nat)
      requires Core(end) && i < end
      ensures base + i < |text| && i < window.Length && window[i] == text[base + i]
    {
    }

    // ------------------------------------------------------------ dictionary

    /** INSERT_STRING at index str. */
    method InsertAt(str: nat, ghost end: nat) returns (hashHead: nat)
      requires Core(end) && Before(str, end) && str + 3 <= end
      modifies prev, head, this`insH, this`inserted, this`top
      ensures Core(end) && Before(str + 1, end) && top == base + str + 1 && inserted == old(inserted) + {base + str}
      ensures str + 3 <= end
      ensures Latest(z, text, inserted, base, hashHead, KeyAt(z, text, base + str), base + str)
    {
      hide Chains, Primed, Latest, KeyAt, Pow2, Within;
      ChainsWithin(z, head[..], prev[..], text, inserted, base, top);
      insH, hashHead := InsertString(z, window, prev, head, insH, str, text, inserted, base, slides, top, end);
      LatestMore(z, text, inserted, base, hashHead, KeyAt(z, text, base + str), base + str, base + str, base + str,
          top);
      inserted, top := inserted + {base + str}, base + str + 1;
    }

    // -------------------------------------------------------- filling the window

    /** zmemcpy. */
    method MoveBytes(at: nat, bytes: seq<byte>)
      requires at + |bytes| <= window.Length
      modifies window
      ensures forall i :: 0 <= i < window.Length ==>
        window[i] == if at <= i < at + |bytes| then bytes[i - at] else old(window[i])
    {
      forall i | 0 <= i < |bytes| { window[at + i] := bytes[i]; }
    }

    /** The space left behind the data (zlib/deflate.c:1537). */
    function More(): int
      reads this
    {
      2 * wSize - lookahead - strstart
    }

    /** zlib/deflate.c:1557: the upper half becomes the lower half. */
    method SlideBytes(n: nat, ghost end: nat)
      requires end <= window.Length == 2 * wSize && n + wSize == end && Shows(window[..], text, base, end)
      modifies window
      ensures Shows(window[..], text, base + wSize, n)
      ensures forall i :: 0 <= i < n ==> window[i] == old(window[wSize + i])
    {
      MoveBytes(0, window[wSize..wSize + n]);
    }

    /** The window and the tables, moved down by one window size. */
    method SlideData(n: nat, ghost end: nat)
      requires Core(end) && n + wSize == end
      modifies this`base, this`slides, window, prev, head
      ensures Core(n) && base == old(base) + wSize
      ensures forall i :: 0 <= i < n ==> window[i] == old(window[wSize + i])
    {
      hide Chains, Shows, Shl, ValidConfig, ValidSizes, Pow2;
      CoreFacts(end);
      SlideBytes(n, end);
      SlideHash(z, head, prev, wSize, text, inserted, base, top);
      ShlSucc(slides, z.wBits);
      base, slides := base + wSize, slides + 1;
    }

    /** zlib/deflate.c:1555-1565. */
    method Slide()
      requires Window() && strstart >= wSize + MaxDist(z)
      modifies this`strstart, this`matchStart, this`blockStart, this`insert, this`base, this`slides, window, prev, head
      ensures Window() && base + strstart == old(base + strstart) && strstart == old(strstart) - wSize
      ensures insert == old(insert)
      ensures base + matchStart == old(base + matchStart) && base + blockStart == old(base + blockStart)
      ensures strstart + MIN_LOOKAHEAD <= window.Length
    {
      hide Core, Xor, ValidHashSize, Update, Key, Primed;
      CoreFacts(strstart + lookahead);
      SlideData(wSize - More(), strstart + lookahead);
      matchStart, strstart, blockStart := matchStart - wSize, strstart - wSize, blockStart - wSize;
      insert := Min(insert, strstart);
    }

    /** read_buf (zlib/deflate.c:1208-1240): bytes move from the caller's buffer to the window. */
    method ReadBuf(more: nat)
      requires Window() && strstart + lookahead + more <= window.Length && nextIn != [] && more > 0
      modifies this`nextIn, this`lookahead, this`text, window
      ensures Core(strstart + lookahead) && insert <= 2 && insert <= strstart && top + insert <= base + strstart
      ensures base > 0 ==> strstart > 0
      ensures old(lookahead) >= MIN_MATCH ==> insert == 0 && Before(strstart, strstart + lookahead)
      ensures lookahead > old(lookahead) && |nextIn| + lookahead == old(|nextIn| + lookahead)
      ensures text + nextIn == old(text + nextIn) && old(text) <= text && lookahead + strstart <= window.Length
      ensures nextIn == [] || lookahead == old(lookahead) + more
    {
      var n := if |nextIn| > more then more else |nextIn|;
      ghost var moved := nextIn[..n];
      var at := strstart + lookahead;
      MoveBytes(at, nextIn[..n]);
      ShowsMore(old(window[..]), window[..], text, moved, base, at);
      ChainsGrow(z, head[..], prev[..], text, moved, inserted, base, top);
      assert text + moved + nextIn[n..] == text + nextIn;
      text := text + moved;
      nextIn := nextIn[n..];
      lookahead := lookahead + n;
    }

    /** zlib/deflate.c:1592-1602: insert the strings held back, as far as there are three bytes of them. */
    method InsertFrom(str0: nat, ghost end: nat)
      requires Core(end) && Before(str0, end) && end == strstart + lookahead
      requires insert <= 2 && str0 + insert == strstart && str0 + MIN_MATCH <= end
      modifies prev, head, this`insH, this`insert, this`inserted, this`top
      ensures Core(end) && Before(strstart, end) && insert <= old(insert) && top + insert <= base + strstart
      ensures insert > 0 ==> lookahead + insert < MIN_MATCH
      ensures Grown(old(inserted), old(top), inserted) && top >= old(top)
      ensures forall p: nat :: base + str0 <= p < base + strstart - insert ==> p in inserted
    {
      hide Core, Primed;
      var str: nat := str0;
      while insert != 0
        invariant Core(end) && Before(str, end) && str + insert == strstart && insert <= old(insert)
        invariant Grown(old(inserted), old(top), inserted) && top >= old(top)
        invariant forall p: nat :: base + str0 <= p < base + str ==> p in inserted
        invariant insert != 0 ==> str + MIN_MATCH <= end
        decreases insert
      {
        var _ := InsertAt(str, end);
        str := str + 1;
        insert := insert - 1;
        if lookahead + insert < MIN_MATCH { break; }
      }
    }

    /** zlib/deflate.c:1584-1603: start the key over and insert the strings held back. */
    method InsertHeld()
      requires Core(strstart + lookahead) && insert <= 2 && insert <= strstart && top + insert <= base + strstart
      requires base > 0 ==> strstart > 0
      modifies prev, head, this`insH, this`insert, this`inserted, this`top
      ensures Window() && insert <= old(insert) && Grown(old(inserted), old(top), inserted) && top >= old(top)
      ensures forall p: nat :: base + strstart - old(insert) <= p < base + strstart - insert ==> p in inserted
    {
      hide Core, Primed;
      CoreFacts(strstart + lookahead);
      if lookahead + insert >= MIN_MATCH {
        var str := strstart - insert;
        insH := window[str];
        insH := Update(z.hash, insH, window[str + 1]);
        StartPrimes(z.hash, window[str], window[str + 1]);
        InsertFrom(str, strstart + lookahead);
      }
    }

    /** zlib/deflate.c:1610-1642: clear bytes behind the data that were never written. */
    method ZeroAhead()
      requires Window()
      modifies this`highWater, window
      ensures Window() && highWater >= Min(strstart + lookahead + MAX_MATCH, window.Length)
      ensures forall i :: 0 <= i < window.Length && strstart + lookahead <= i && old(highWater) <= i < highWater ==>
        window[i] == 0
    {
      hide Chains, Aligned, Held, Primed, Pow2, ValidHashSize, ValidConfig, ValidSizes;
      var curr, windowSize := strstart + lookahead, 2 * wSize;
      if highWater < windowSize {
        if highWater < curr {
          var init := Min(windowSize - curr, MAX_MATCH);
          MoveBytes(curr, seq(init, _ => 0));
          highWater := curr + init;
        } else if highWater < curr + MAX_MATCH {
          var init := Min(curr + MAX_MATCH - highWater, windowSize - highWater);
          MoveBytes(highWater, seq(init, _ => 0));
          highWater := highWater + init;
        }
      }
    }

    /** Refilling moves nothing in the input: where the string, the match and the block begin.  Of the strings held
        back those that are no longer are in the dictionary. */
    ghost predicate Kept(pos: int, match0: int, block: int, held: nat, all: seq<byte>, read: seq<byte>, left: nat)
      reads this
    {
      && base + strstart == pos && base + matchStart == match0 && base + blockStart == block && insert <= held
      && text + nextIn == all && read <= text && |nextIn| + lookahead == left
      && forall p: nat :: pos - held <= p < pos - insert ==> p in inserted
    }

    /** A text that has never reached the end of the window has never slid, and its blocks have their text at hand. */
    ghost predicate Unslid()
      reads this`text, this`base, this`flushed
    {
      |text| < wSize + MaxDist(z) ==> base == 0 && forall i :: 0 <= i < |flushed| ==> flushed[i].hasBuf
    }

    /** The first n blocks flushed were flushed because sym_buf was full. */
    ghost predicate Full(n: int)
      reads this`flushed
    {
      n <= |flushed| && forall i :: 0 <= i < n ==> |flushed[i].syms| == symEnd
    }

    /** One pass of the loop of fill_window (zlib/deflate.c:1536-1608). */
    method FillOnce(ghost pos: int, ghost match0: int, ghost block: int, ghost held: nat, ghost all: seq<byte>,
                    ghost read: seq<byte>, ghost left: nat)
      returns (again: bool)
      requires Window() && lookahead < MIN_LOOKAHEAD && Kept(pos, match0, block, held, all, read, left)
      modifies this`nextIn, this`strstart, this`lookahead, this`insH, this`insert, this`matchStart, this`blockStart
      modifies this`text, this`base, this`slides, this`inserted, this`top, window, prev, head
      ensures Window() && Kept(pos, match0, block, held, all, read, left) && (old(Unslid()) ==> Unslid())
      ensures Grown(old(inserted), old(top), inserted) && top >= old(top)
      ensures again ==> lookahead < MIN_LOOKAHEAD && |nextIn| < old(|nextIn|)
      ensures !again ==> strstart + MIN_LOOKAHEAD <= window.Length && (lookahead >= MIN_LOOKAHEAD || nextIn == [])
      ensures nextIn == [] || strstart + lookahead == window.Length
    {
      hide Prevs, Chains, ValidConfig, ValidSizes, DeflateState.Before, Pow2, Shl;
      var more := More();
      if strstart >= wSize + MaxDist(z) {
        Slide();
        more := more + wSize;
      }
      if nextIn == [] { return false; }
      ReadBuf(more);
      InsertHeld();
      again := lookahead < MIN_LOOKAHEAD && nextIn != [];
    }

    /** fill_window (zlib/deflate.c:1527-1646). */
    method FillWindow()
      requires Window() && lookahead < MIN_LOOKAHEAD
      modifies this`nextIn, this`strstart, this`lookahead, this`insH, this`insert, this`matchStart, this`blockStart
      modifies this`highWater, this`text, this`base, this`slides, this`inserted, this`top, window, prev, head
      ensures Window() && strstart + MIN_LOOKAHEAD <= window.Length
      ensures Kept(old(base + strstart), old(base + matchStart), old(base + blockStart), old(insert),
                   old(text + nextIn), old(text), old(|nextIn| + lookahead))
      ensures old(Unslid()) ==> Unslid()
      ensures lookahead >= MIN_LOOKAHEAD || nextIn == []
      ensures nextIn == [] || strstart + lookahead == window.Length
      ensures highWater >= Min(strstart + lookahead + MAX_MATCH, window.Length)
      ensures Grown(old(inserted), old(top), inserted) && top >= old(top)
    {
      ghost var pos, match0, block, held := base + strstart, base + matchStart, base + blockStart, insert;
      ghost var all, read, left := text + nextIn, text, |nextIn| + lookahead;
      var again := true;
      while again
        invariant Window() && Kept(pos, match0, block, held, all, read, left)
        invariant (again ==> lookahead < MIN_LOOKAHEAD) && (old(Unslid()) ==> Unslid())
        invariant Grown(old(inserted), old(top), inserted) && top >= old(top)
        invariant !again ==> strstart + MIN_LOOKAHEAD <= window.Length && (lookahead >= MIN_LOOKAHEAD || nextIn == [])
        invariant !again ==> nextIn == [] || strstart + lookahead == window.Length
        decreases again, |nextIn|
      {
        ghost var b, t := inserted, top;
        again := FillOnce(pos, match0, block, held, all, read, left);
        GrownOn(old(inserted), old(top), b, t, inserted);
      }
      ZeroAhead();
    }

    // ------------------------------------------------------------------ tallying

    /** _tr_tally_lit (zlib/deflate.h:321-328). */
    method TallyLit(ch: byte, ghost n: nat) returns (bflush: bool)
      requires Tallied(n) && |symBuf| < symEnd && n < |text| && text[n] == ch
      modifies this`symBuf
      ensures Tallied(n + 1) && bflush == (|symBuf| == symEnd) && sent + symBuf == old(sent + symBuf) + [Literal(ch)]
    {
      TallyLiteral(sent + symBuf, text, n);
      assert sent + symBuf + [Literal(ch)] == sent + (symBuf + [Literal(ch)]);
      symBuf := symBuf + [Literal(ch)];
      bflush := |symBuf| == symEnd;
    }

    /** _tr_tally_dist (zlib/deflate.h:329-339); the length is passed less MIN_MATCH, the distance less nothing. */
    method TallyDist(dist: nat, len: nat, ghost n: nat) returns (bflush: bool)
      requires Tallied(n) && |symBuf| < symEnd
      requires Repeats(text, n, dist, len + MIN_MATCH) && dist <= MaxDist(z) && len + MIN_MATCH <= MAX_MATCH
      modifies this`symBuf
      ensures Tallied(n + len + MIN_MATCH) && bflush == (|symBuf| == symEnd)
      ensures sent + symBuf == old(sent + symBuf) + [Match(dist, len + MIN_MATCH)]
    {
      hide MaxDist, CanApply, Extend, StandFor;
      var s := Match(dist, len + MIN_MATCH);
      TallyMatch(sent + symBuf, text, n, dist, len + MIN_MATCH);
      assert sent + symBuf + [s] == sent + (symBuf + [s]);
      symBuf := symBuf + [s];
      bflush := |symBuf| == symEnd;
    }

    lemma RecordFlush(end: nat, buf: seq<byte>, storedLen: nat)
      requires Tallied(base + strstart) && strstart <= end && Core(end) && strstart < window.Length
      requires storedLen == strstart - blockStart
      requires blockStart >= 0 ==> |buf| == storedLen && text[..base + blockStart] + buf == text[..base + strstart]
      ensures Recorded(flushed + [Block(symBuf, buf, blockStart >= 0, storedLen)], text, base + strstart, MaxDist(z),
        symEnd)
    {
      hide AllSyms, StandFor, Decode, Chains, Shows, Recorded;
      WindowSize();
      RecordBlock(flushed, Block(symBuf, buf, blockStart >= 0, storedLen), sent, text, base + blockStart,
          base + strstart,
                  MaxDist(z), symEnd);
    }

    lemma WindowSize()
      requires Fixed()
      ensures window.Length <= 0x10000
    {
      Pow2Mono(z.wBits, 15);
      Pow2Short();
      assert Pow2(16) == 2 * Pow2(15);
    }

    /** FLUSH_BLOCK_ONLY (zlib/deflate.c:1652-1661): the text handed to _tr_flush_block, when it is still in the
        window, is what the block's symbols stand for.  Whether output space runs out is left open. */
    method FlushBlock(ghost end: nat) returns (buf: seq<byte>, storedLen: nat, full: bool)
      requires Tallied(base + strstart) && strstart <= end && Core(end) && strstart < window.Length
      modifies this`symBuf, this`sent, this`blockStart, this`flushed
      ensures Tallied(base + strstart) && symBuf == [] && blockStart == strstart && sent == old(sent + symBuf)
      ensures sent + symBuf == old(sent + symBuf)
      ensures storedLen == strstart - old(blockStart)
      ensures old(blockStart) >= 0
        ==> |buf| == storedLen && text[..old(base + blockStart)] + buf == text[..base + strstart]
      ensures flushed == old(flushed) + [Block(old(symBuf), buf, old(blockStart) >= 0, storedLen)]
      ensures old(Unslid()) ==> Unslid()
    {
      hide AllSyms, StandFor, Decode;
      storedLen := strstart - blockStart;
      buf := if blockStart >= 0 then window[blockStart..strstart] else [];
      if blockStart >= 0 { ShowsBlock(window[..], text, base, end, blockStart, strstart); }
      RecordFlush(end, buf, storedLen);
      AllSymsMore(flushed, Block(symBuf, buf, blockStart >= 0, storedLen));
      flushed := flushed + [Block(symBuf, buf, blockStart >= 0, storedLen)];
      sent, symBuf := sent + symBuf, [];
      assert sent + symBuf == sent;
      blockStart := strstart;
      full := *;
    }

    lemma ReasonsLater(lazy: bool, n: int, text0: seq<byte>, inserted0: set<nat>, top0: nat)
      requires Explained(Rule(lazy), text0, inserted0, looks, sent + symBuf, n) && Past(looks, base + strstart, top0)
      requires text0 <= text && Grown(inserted0, top0, inserted) && top0 <= top
      ensures Reasons(lazy, n)
    {
      hide Explained;
      ExplainedLater(Rule(lazy), text0, text, inserted0, inserted, top0, looks, sent + symBuf, n, base + strstart);
    }

    /** fill_window when it is called for, as the compressors see it. */
    method Refill(ghost lazy: bool, ghost n: nat, ghost pos: int, ghost match0: int, ghost held: nat,
                  ghost all: seq<byte>, ghost read: seq<byte>, ghost left: nat)
      requires Window() && Tallied(n) && Reasons(lazy, n) && Kept(pos, match0, base + blockStart, held, all, read, left)
      modifies this`nextIn, this`strstart, this`lookahead, this`insH, this`insert, this`matchStart, this`blockStart
      modifies this`highWater, this`text, this`base, this`slides, this`inserted, this`top, window, prev, head
      ensures Window() && strstart + MIN_LOOKAHEAD <= window.Length && Tallied(n) && (old(Unslid()) ==> Unslid())
      ensures Reasons(lazy, n) && Grown(old(inserted), old(top), inserted)
      ensures Kept(pos, match0, base + blockStart, held, all, read, left)
      ensures lookahead >= MIN_LOOKAHEAD || nextIn == []
    {
      hide Codable, StandsFor, SendableBlock, DeflateState.Fixed, DeflateState.Held, DeflateState.Rule, CanApply, Apply,
        Decode, Repeats, Extend, StandFor, ValidHashSize, Update, Key, Primed, KeyAt, Link, Explained, Grown;
      GrownNone(inserted, top);
      if lookahead < MIN_LOOKAHEAD {
        ghost var text0, block, inserted0, top0 := text, base + blockStart, inserted, top;
        FillWindow();
        ReasonsLater(lazy, n, text0, inserted0, top0);
        MoreText(sent + symBuf, text0, text, n, MaxDist(z));
        MoreText(sent, text0, text, block, MaxDist(z));
        RecordedLater(flushed, text0, text, block, MaxDist(z), symEnd);
      }
    }

    // --------------------------------------------------------- finding a match

    /** zlib/deflate.c:1901-1904: insert the current string, if there are three bytes of it. */
    method InsertCurrent() returns (hashHead: nat)
      requires Window()
      modifies prev, head, this`insH, this`inserted, this`top
      ensures Core(strstart + lookahead) && Before(strstart + 1, strstart + lookahead)
      ensures lookahead < MIN_MATCH ==> hashHead == 0 && top == old(top) && inserted == old(inserted)
      ensures lookahead >= MIN_MATCH ==>
        top == base + strstart + 1 && insert == 0 && inserted == old(inserted) + {base + strstart}
      ensures lookahead >= MIN_MATCH ==>
        Latest(z, text, inserted, base, hashHead, KeyAt(z, text, base + strstart), base + strstart)
    {
      hide Heads, Prevs, Chains, Within;
      hashHead := 0;
      if lookahead >= MIN_MATCH { hashHead := InsertAt(strstart, strstart + lookahead); }
    }

    lemma Sought(hashHead: nat)
      requires Core(strstart + lookahead) && lookahead >= MIN_MATCH && hashHead != 0
        && strstart - hashHead <= MaxDist(z)
      requires Latest(z, text, inserted, base, hashHead, KeyAt(z, text, base + strstart), base + strstart)
      ensures Candidate(z, text, inserted, base, hashHead, base + strstart)
      ensures Newest(z, text, inserted, base, hashHead, KeyAt(z, text, base + strstart), base + strstart)
    {
      hide KeyAt, Newest, Chains, Pow2;
    }

    /** longest_match on the chain of the current string. */
    method Search(hashHead: nat, prevLen: nat) returns (len: nat, ghost seen: seq<nat>)
      requires Core(strstart + lookahead) && lookahead >= MIN_MATCH && strstart + MIN_LOOKAHEAD <= window.Length
      requires top == base + strstart + 1 && 1 <= prevLen < MAX_MATCH
      requires hashHead != 0 && strstart - hashHead <= MaxDist(z)
      requires Latest(z, text, inserted, base, hashHead, KeyAt(z, text, base + strstart), base + strstart)
      modifies this`matchStart
      ensures len <= lookahead && len <= MAX_MATCH && (len >= prevLen || len == lookahead)
      ensures len > prevLen ==>
        1 <= strstart - matchStart <= MaxDist(z) && Repeats(text, base + strstart, strstart - matchStart, len)
        && matchStart >= 0 && matchStart in seen
      ensures NoneLonger(text, base + strstart, strstart, seen, lookahead, len)
      ensures NonePassed(z, c, text, inserted, base, base + strstart, lookahead, prevLen, seen, len)
      ensures forall m :: m in seen ==> Candidate(z, text, inserted, base, m, base + strstart)
    {
      hide Latest, NoneLonger, NonePassed, Candidate, Searched, Repeats;
      Sought(hashHead);
      len, matchStart, seen := Longest(z, c, window, prev, strstart, lookahead, prevLen, matchStart, hashHead,
                                       text, inserted, base, slides);
    }

    /** A match of length len for the current string, at matchStart. */
    ghost predicate MatchFound(len: nat)
      reads this`text, this`base, this`strstart, this`matchStart
    {
      len <= MAX_MATCH && 1 <= strstart - matchStart <= MaxDist(z)
      && Repeats(text, base + strstart, strstart - matchStart, len)
    }

    /** What a search of the chain has come to, in terms of the input. */
    lemma SearchLook(len: nat, prevLen: nat, seen: seq<nat>, k: Look, search: bool)
      requires Core(strstart + lookahead) && lookahead >= MIN_MATCH && base + strstart in inserted
      requires lookahead >= MIN_LOOKAHEAD || nextIn == []
      requires len <= lookahead && len <= MAX_MATCH && NoneLonger(text, base + strstart, strstart, seen, lookahead, len)
      requires len > prevLen ==> MatchFound(len) && matchStart >= 0 && matchStart in seen
      requires NonePassed(z, c, text, inserted, base, base + strstart, lookahead, prevLen, seen, len)
      requires forall m :: m in seen ==> Candidate(z, text, inserted, base, m, base + strstart)
      requires k == Look(base, |text|, |text| + |nextIn|, prevLen, Shifted(base, seen), len, base + matchStart, len)
      ensures FairLook(z, c, text, inserted, base + strstart, k, search)
    {
      hide Chains, Repeats, KeyAt, Pow2, Newest, Shows, MostSeen, ValidHashSize;
      CoreFacts(strstart + lookahead);
      ShiftedLonger(text, base, strstart, seen, lookahead, len, k);
      ShiftedSeen(z, c, text, inserted, base, strstart, lookahead, prevLen, seen, len, k);
      ShiftedReach(z, text, inserted, base, strstart, seen);
      if len > prevLen { assert base + matchStart in k.seen by { InShifted(base, seen, matchStart); } }
    }

    /** Nothing in reach, or no search asked for. */
    lemma NoLook(hashHead: nat, prevLen: nat, len: nat, k: Look, search: bool)
      requires Core(strstart + lookahead) && len < MIN_MATCH && (lookahead >= MIN_LOOKAHEAD || nextIn == [])
      requires lookahead >= MIN_MATCH ==> base + strstart in inserted
      requires lookahead >= MIN_MATCH ==>
        Latest(z, text, inserted, base, hashHead, KeyAt(z, text, base + strstart), base + strstart)
      requires lookahead >= MIN_MATCH && search ==> hashHead == 0 || strstart - hashHead > MaxDist(z)
      requires k == Look(base, |text|, |text| + |nextIn|, prevLen, [], len, base + matchStart, len)
      ensures FairLook(z, c, text, inserted, base + strstart, k, search)
    {
      hide Chains, Pow2, Shows, MostSeen, ValidHashSize, Latest;
      CoreFacts(strstart + lookahead);
      if lookahead >= MIN_MATCH && search {
        NoneReachable(z, text, inserted, base, hashHead, base + strstart);
      }
    }

    /** zlib/deflate.c:1901-1916 and 2004-2021: insert the current string and search its chain, if asked to;
        len0 is the length when there is no search. */
    method Find(prevLen: nat, search: bool, len0: nat) returns (len: nat, ghost k: Look)
      requires Window() && strstart + MIN_LOOKAHEAD <= window.Length && (lookahead >= MIN_LOOKAHEAD || nextIn == [])
      requires search ==> 1 <= prevLen < MAX_MATCH
      requires len0 < MIN_MATCH
      modifies prev, head, this`insH, this`inserted, this`top, this`matchStart
      ensures Core(strstart + lookahead) && Before(strstart + 1, strstart + lookahead) && Held(strstart + 1)
      ensures len >= MIN_MATCH ==> lookahead >= MIN_MATCH && search && len <= MAX_MATCH
      ensures len >= MIN_MATCH && len > prevLen ==> MatchFound(len)
      ensures len >= len0 || len >= MIN_MATCH || len >= prevLen
      ensures Grown(old(inserted), old(top), inserted) && top >= old(top)
      ensures lookahead >= MIN_MATCH ==> top == base + strstart + 1
      ensures k == Look(base, |text|, |text| + |nextIn|, prevLen, k.seen, len, base + matchStart, len)
      ensures FairLook(z, c, text, inserted, base + strstart, k, search)
    {
      hide Core, Before, FairLook, NoneLonger, NonePassed, Candidate, Latest;
      len := len0;
      var hashHead := InsertCurrent();
      if hashHead != 0 && search && strstart - hashHead <= MaxDist(z) {
        ghost var seen;
        len, seen := Search(hashHead, prevLen);
        k := Look(base, |text|, |text| + |nextIn|, prevLen, Shifted(base, seen), len, base + matchStart, len);
        SearchLook(len, prevLen, seen, k, search);
      } else {
        k := Look(base, |text|, |text| + |nextIn|, prevLen, [], len, base + matchStart, len);
        NoLook(hashHead, prevLen, len, k, search);
      }
    }

    // --------------------------------------------------------------- deflate_fast

    /** zlib/deflate.c:1931-1939: go past a short match, inserting its strings. */
    method FastInsert(ghost end: nat)
      requires Core(end) && Before(strstart + 1, end) && matchLength >= 2 && strstart + matchLength + MIN_MATCH <= end
      modifies prev, head, this`insH, this`inserted, this`top, this`strstart, this`matchLength
      ensures Core(end) && Before(strstart, end) && strstart == old(strstart + matchLength) && matchLength == 0
      ensures Grown(old(inserted), old(top), inserted) && top >= old(top)
      ensures forall p: nat :: base + old(strstart) < p < base + strstart ==> p in inserted
    {
      hide Core, Primed;
      ghost var last := strstart + matchLength;
      matchLength := matchLength - 1;
      while true
        invariant Core(end) && Before(strstart + 1, end) && matchLength >= 1 && strstart + matchLength + 1 == last
        invariant Grown(old(inserted), old(top), inserted) && top >= old(top)
        invariant forall p: nat :: base + old(strstart) < p <= base + strstart ==> p in inserted
        decreases matchLength
      {
        strstart := strstart + 1;
        var _ := InsertAt(strstart, end);
        matchLength := matchLength - 1;
        if matchLength == 0 { break; }
      }
      strstart := strstart + 1;
    }

    /** zlib/deflate.c:1942-1953: go past a long match, and start the key over. */
    method FastJump(ghost end: nat)
      requires Core(end) && Before(strstart + 1, end) && matchLength >= 2
      requires strstart + matchLength + 1 < window.Length
      modifies this`insH, this`strstart, this`matchLength
      ensures Core(end) && Before(strstart, end) && strstart == old(strstart + matchLength) && matchLength == 0
    {
      strstart := strstart + matchLength;
      matchLength := 0;
      insH := window[strstart];
      insH := Update(z.hash, insH, window[strstart + 1]);
      StartPrimes(z.hash, window[strstart], window[strstart + 1]);
    }

    /** zlib/deflate.c:1925-1953. */
    method FastSkip()
      requires Core(strstart + lookahead + matchLength) && Before(strstart + 1, strstart + lookahead + matchLength)
      requires insert == 0 && MIN_MATCH <= matchLength <= MAX_MATCH && strstart + MIN_LOOKAHEAD <= window.Length
      modifies prev, head, this`insH, this`inserted, this`top, this`strstart, this`matchLength
      ensures Window() && matchLength == 0 && strstart == old(strstart + matchLength)
      ensures Grown(old(inserted), old(top), inserted) && top >= old(top)
      ensures old(matchLength) <= c.maxLazy && lookahead >= MIN_MATCH ==>
        forall p: nat :: base + old(strstart) < p < base + strstart ==> p in inserted
    {
      if matchLength <= c.maxLazy && lookahead >= MIN_MATCH {
        FastInsert(strstart + lookahead + matchLength);
      } else {
        FastJump(strstart + lookahead + matchLength);
      }
    }

    /** zlib/deflate.c:1917-1953: tally the match that Search found and go past it. */
    method FastMatch() returns (bflush: bool)
      requires Core(strstart + lookahead) && Before(strstart + 1, strstart + lookahead) && insert == 0
      requires MIN_MATCH <= matchLength && MatchFound(matchLength) && strstart + MIN_LOOKAHEAD <= window.Length
      requires Tallied(base + strstart) && |symBuf| < symEnd
      modifies prev, head, this`insH, this`inserted, this`top, this`strstart, this`matchLength, this`lookahead
      modifies this`symBuf
      ensures Window() && matchLength == 0 && old(strstart) < strstart < window.Length
        && strstart + lookahead == old(strstart + lookahead)
      ensures Tallied(base + strstart) && bflush == (|symBuf| == symEnd) && strstart == old(strstart + matchLength)
      ensures sent + symBuf == old(sent + symBuf) + [Match(old(strstart - matchStart), old(matchLength))]
      ensures Grown(old(inserted), old(top), inserted) && top >= old(top)
      ensures old(matchLength) <= c.maxLazy && lookahead >= MIN_MATCH ==>
        forall p: nat :: base + old(strstart) < p < base + strstart ==> p in inserted
    {
      hide Core, Before, Tallied;
      CoreFacts(strstart + lookahead);
      bflush := TallyDist(strstart - matchStart, matchLength - MIN_MATCH, base + strstart);
      lookahead := lookahead - matchLength;
      FastSkip();
    }

    /** zlib/deflate.c:1954-1960. */
    method FastLiteral() returns (bflush: bool)
      requires Core(strstart + lookahead) && Before(strstart + 1, strstart + lookahead) && Held(strstart + 1)
        && lookahead > 0
      requires Tallied(base + strstart) && |symBuf| < symEnd
      modifies this`strstart, this`lookahead, this`symBuf
      ensures Window() && strstart == old(strstart) + 1 && strstart + lookahead == old(strstart + lookahead)
      ensures Tallied(base + strstart) && bflush == (|symBuf| == symEnd)
      ensures sent + symBuf == old(sent + symBuf) + [Literal(old(window[strstart]))]
    {
      hide Decode, Extend, ValidHashSize, Update, MaxDist;
      bflush := TallyLit(window[strstart], base + strstart);
      lookahead := lookahead - 1;
      strstart := strstart + 1;
    }

    /** A look at the current string is added to those before. */
    lemma LookAdded(lazy: bool, n: int, inserted0: set<nat>, top0: nat, k: Look)
      requires Explained(Rule(lazy), text, inserted0, looks, sent + symBuf, n) && Past(looks, base + strstart, top0)
      requires Grown(inserted0, top0, inserted) && top0 <= top
        && GoodLook(Rule(lazy), text, inserted, base + strstart, k)
      requires var q := base + strstart;
        k.prevLen == if lazy && q > 0 && q - 1 in looks then looks[q - 1].kept else MIN_MATCH - 1
      requires base + strstart + MIN_MATCH <= k.end ==> base + strstart < top
      ensures Explained(Rule(lazy), text, inserted, looks[base + strstart := k], sent + symBuf, n)
      ensures Past(looks[base + strstart := k], base + strstart + 1, top)
    {
      hide Explained, GoodLook, Grown;
      var q := base + strstart;
      ExplainedLater(Rule(lazy), text, text, inserted0, inserted, top0, looks, sent + symBuf, n, q);
      ExplainedLook(Rule(lazy), text, inserted, looks, sent + symBuf, n, q, k);
    }

    /** The symbol tallied last is added to those before. */
    lemma SymbolAdded(lazy: bool, n: nat, pos: int, inserted0: set<nat>, top0: nat, syms: seq<Symbol>, s: Symbol)
      requires Explained(Rule(lazy), text, inserted0, looks, syms, n) && Past(looks, pos, top0)
      requires Grown(inserted0, top0, inserted) && top0 <= top && pos <= base + strstart && sent + symBuf == syms + [s]
      requires Justified(Rule(lazy), inserted, looks, n, s)
      ensures Reasons(lazy, n + Covers(s))
    {
      hide Explained, Justified;
      ExplainedLater(Rule(lazy), text, text, inserted0, inserted, top0, looks, syms, n, pos);
      ExplainedSymbol(Rule(lazy), text, inserted, looks, syms, n, s);
    }

    lemma FastGood(k: Look)
      requires FairLook(z, c, text, inserted, base + strstart, k, true) && k.kept == k.found
      ensures GoodLook(Rule(false), text, inserted, base + strstart, k)
    {
      hide FairLook;
    }

    /** The match just gone past follows from the look before. */
    lemma FastJustified(q: nat, k: Look, s: Symbol)
      requires q in looks && looks[q] == k && k.kept == k.found && k.prevLen == MIN_MATCH - 1 && q in inserted
      requires s.Match? && s.len == k.kept >= MIN_MATCH && q - s.dist == k.from && k.end == |text|
      requires base + strstart == q + s.len && |text| == base + strstart + lookahead
      requires s.len <= c.maxLazy && lookahead >= MIN_MATCH ==>
        forall p: nat :: q < p < base + strstart ==> p in inserted
      ensures Justified(Rule(false), inserted, looks, q, s)
    {
    }

    /** The current string has been looked at. */
    ghost predicate LookedAt(lazy: bool, n: int)
      reads this`text, this`inserted, this`top, this`base, this`strstart, this`looks, this`sent, this`symBuf
    {
      Explained(Rule(lazy), text, inserted, looks, sent + symBuf, n) && Past(looks, base + strstart + 1, top)
    }

    /** What the look at the current string has found is what counts. */
    ghost predicate FastDue()
      reads this`text, this`inserted, this`base, this`strstart, this`looks, this`matchLength, this`matchStart
    {
      var q := base + strstart;
      && q in looks && looks[q].kept == looks[q].found == matchLength && looks[q].from == base + matchStart
      && looks[q].prevLen == MIN_MATCH - 1 && looks[q].end == |text| && (matchLength >= MIN_MATCH ==> q in inserted)
    }

    /** zlib/deflate.c:1901-1916. */
    method FastFind()
      requires Window() && strstart + MIN_LOOKAHEAD <= window.Length && (lookahead >= MIN_LOOKAHEAD || nextIn == [])
      requires matchLength < MIN_MATCH && prevLength == MIN_MATCH - 1 && Reasons(false, base + strstart)
      modifies prev, head, this`insH, this`inserted, this`top, this`matchLength, this`matchStart, this`looks
      ensures Core(strstart + lookahead) && Before(strstart + 1, strstart + lookahead) && Held(strstart + 1)
      ensures matchLength >= MIN_MATCH ==> MatchFound(matchLength) && insert == 0
      ensures LookedAt(false, base + strstart) && FastDue()
    {
      hide Core, Before, Explained, Past, FairLook, GoodLook, Grown, MaxDist, Repeats, MatchFound;
      ghost var q: nat, inserted0, top0 := base + strstart, inserted, top;
      ghost var k;
      matchLength, k := Find(prevLength, true, matchLength);
      FastGood(k);
      CoreFacts(strstart + lookahead);
      LookAdded(false, q, inserted0, top0, k);
      looks := looks[q := k];
      if matchLength >= MIN_MATCH { FairInserted(k, true); }
    }

    /** zlib/deflate.c:1917-1953. */
    method FastMatchTurn() returns (bflush: bool)
      requires Core(strstart + lookahead) && Before(strstart + 1, strstart + lookahead) && insert == 0
      requires MIN_MATCH <= matchLength && MatchFound(matchLength) && strstart + MIN_LOOKAHEAD <= window.Length
      requires Tallied(base + strstart) && |symBuf| < symEnd && LookedAt(false, base + strstart) && FastDue()
      modifies prev, head, this`insH, this`inserted, this`top, this`strstart, this`matchLength, this`lookahead
      modifies this`symBuf
      ensures Window() && matchLength == 0 && old(strstart) < strstart < window.Length
        && strstart + lookahead == old(strstart + lookahead)
      ensures Tallied(base + strstart) && bflush == (|symBuf| == symEnd) && Reasons(false, base + strstart)
    {
      hide Core, Before, Held, Tallied, Explained, Past, Justified, Grown, MaxDist, Repeats, MatchFound;
      ghost var q: nat, inserted1, top1, syms := base + strstart, inserted, top, sent + symBuf;
      MatchMeans(matchLength);
      ghost var s := Match(strstart - matchStart, matchLength);
      bflush := FastMatch();
      CoreFacts(strstart + lookahead);
      GrownIn(inserted1, top1, inserted, q);
      FastJustified(q, looks[q], s);
      SymbolAdded(false, q, q + 1, inserted1, top1, syms, s);
    }

    lemma MatchMeans(len: nat)
      requires MatchFound(len)
      ensures strstart - matchStart >= 1
    {
    }

    /** zlib/deflate.c:1954-1960, with the reason for the literal. */
    method FastLiteralTurn() returns (bflush: bool)
      requires Core(strstart + lookahead) && Before(strstart + 1, strstart + lookahead) && Held(strstart + 1)
        && lookahead > 0
      requires Tallied(base + strstart) && |symBuf| < symEnd && LookedAt(false, base + strstart) && FastDue()
      requires matchLength < MIN_MATCH && strstart < window.Length
      modifies this`strstart, this`lookahead, this`symBuf
      ensures Window() && strstart == old(strstart) + 1 && strstart + lookahead == old(strstart + lookahead)
      ensures Tallied(base + strstart) && bflush == (|symBuf| == symEnd) && Reasons(false, base + strstart)
    {
      hide Core, Before, Held, Tallied, Explained, Past, Justified;
      ghost var q: nat, syms := base + strstart, sent + symBuf;
      ghost var s := Literal(window[strstart]);
      LiteralJustified(false, q, s);
      bflush := FastLiteral();
      GrownNone(inserted, top);
      SymbolAdded(false, q, q + 1, inserted, top, syms, s);
    }

    /** One turn of the loop of deflate_fast, once there is lookahead (zlib/deflate.c:1901-1960). */
    method FastStep() returns (bflush: bool)
      requires Window() && lookahead > 0 && strstart + MIN_LOOKAHEAD <= window.Length
      requires lookahead >= MIN_LOOKAHEAD || nextIn == []
      requires Tallied(base + strstart) && |symBuf| < symEnd && matchLength < MIN_MATCH && prevLength == MIN_MATCH - 1
      requires Reasons(false, base + strstart)
      modifies prev, head, this`insH, this`inserted, this`top, this`strstart, this`matchLength, this`lookahead
      modifies this`symBuf, this`matchStart, this`looks
      ensures Window() && matchLength < MIN_MATCH && old(strstart) < strstart < window.Length
      ensures strstart + lookahead == old(strstart + lookahead)
      ensures Tallied(base + strstart) && bflush == (|symBuf| == symEnd)
      ensures Reasons(false, base + strstart)
    {
      hide Core, Before, Held, Tallied, Reasons, LookedAt, FastDue, MatchFound;
      FastFind();
      if matchLength >= MIN_MATCH {
        bflush := FastMatchTurn();
      } else {
        bflush := FastLiteralTurn();
      }
    }

    lemma FairInserted(k: Look, search: bool)
      requires FairLook(z, c, text, inserted, base + strstart, k, search) && base + strstart + MIN_MATCH <= k.end
      ensures base + strstart in inserted
    {
    }

    lemma LiteralJustified(lazy: bool, q: nat, s: Symbol)
      requires q in looks && looks[q].kept < MIN_MATCH && s.Literal?
      ensures Justified(Rule(lazy), inserted, looks, q, s)
    {
    }

    /** What holds between calls of deflate_fast. */
    ghost predicate FastReady()
      reads this, window, prev, head
    {
      Window() && Tallied(base + strstart) && |symBuf| < symEnd && matchLength < MIN_MATCH
          && prevLength == MIN_MATCH - 1 && Unslid() && Reasons(false, base + strstart)
    }

    /** Nothing is lost: the input is what was read and what is still to be read. */
    ghost predicate Input(all: seq<byte>, read: seq<byte>)
      reads this`text, this`nextIn
    {
      text + nextIn == all && read <= text
    }

    /** When a call ends with everything done, all the input has been sent. */
    ghost predicate AllSent()
      reads this
    {
      nextIn == [] && lookahead == 0 && symBuf == [] && StandsFor(sent, text, |text|, MaxDist(z))
      && Recorded(flushed, text, |text|, MaxDist(z), symEnd)
    }

    /** zlib/deflate.c:1961: flush when sym_buf is full. */
    method FlushIfFull(bflush: bool) returns (full: bool)
      requires Tallied(base + strstart) && Core(strstart + lookahead) && bflush == (|symBuf| == symEnd)
        && strstart < window.Length
      modifies this`symBuf, this`sent, this`blockStart, this`flushed
      ensures Tallied(base + strstart) && |symBuf| < symEnd
      ensures (old(Unslid()) ==> Unslid()) && (old(Full(|flushed|)) ==> Full(|flushed|))
      ensures sent + symBuf == old(sent + symBuf)
      ensures |flushed| >= old(|flushed|) && (full ==> |flushed| > old(|flushed|))
    {
      full := false;
      if bflush {
        var _, _, f := FlushBlock(strstart + lookahead);
        full := f;
      }
    }

    lemma SentAll()
      requires Tallied(|text|) && symBuf == []
      ensures StandsFor(sent, text, |text|, MaxDist(z)) && Recorded(flushed, text, |text|, MaxDist(z), symEnd)
    {
      hide AllSyms, Recorded, Decode;
      assert sent + symBuf == sent;
      assert |text[..|text|]| == |text[..base + blockStart]|;
    }

    /** zlib/deflate.c:1963-1970 and 2094-2101: hold back the strings that could not be inserted, and flush. */
    method EndCall(flush: FlushMode) returns (state: BlockState)
      requires Window() && lookahead == 0 && nextIn == [] && Tallied(base + strstart) && strstart < window.Length
      modifies this`insert, this`symBuf, this`sent, this`blockStart, this`flushed
      ensures Window() && Tallied(base + strstart) && |symBuf| < symEnd
      ensures insert == Min(strstart, MIN_MATCH - 1) && forall lazy, n :: old(Reasons(lazy, n)) ==> Reasons(lazy, n)
      ensures !state.NeedMore? ==> AllSent()
      ensures state.FinishStarted? || state.FinishDone? <==> flush.Finish?
      ensures state.NeedMore? ==> |flushed| > old(|flushed|)
      ensures flush.Finish? ==> flushed != [] && (old(Full(|flushed|)) ==> Full(|flushed| - 1))
      ensures old(Unslid()) ==> Unslid()
    {
      hide AllSyms, Core, Before, StandsFor, Recorded, ValidSizes, Explained, Past;
      CoreFacts(strstart);
      insert := if strstart < MIN_MATCH - 1 then strstart else MIN_MATCH - 1;
      var full := false;
      if flush == Finish || symBuf != [] {
        var _, _, f := FlushBlock(strstart);
        full := f;
      }
      SentAll();
      state := if flush == Finish then (if full then FinishStarted else FinishDone)
               else (if full then NeedMore else BlockDone);
    }

    /** One turn of the loop of deflate_fast (zlib/deflate.c:1901-1961). */
    method FastTurn() returns (full: bool)
      requires FastReady() && lookahead > 0 && strstart + MIN_LOOKAHEAD <= window.Length
      requires lookahead >= MIN_LOOKAHEAD || nextIn == []
      modifies prev, head, this`insH, this`inserted, this`top, this`strstart, this`matchLength, this`lookahead
      modifies this`symBuf, this`matchStart, this`sent, this`blockStart, this`flushed, this`looks
      ensures FastReady() && lookahead < old(lookahead) && (old(Full(|flushed|)) ==> Full(|flushed|))
      ensures |flushed| >= old(|flushed|) && (full ==> |flushed| > old(|flushed|))
    {
      hide Core, Tallied, Explained, Past;
      var bflush := FastStep();
      full := FlushIfFull(bflush);
    }

    /** The symbols tallied stand for exactly the input consumed; when the call is done, for all of it. */
    method DeflateFast(flush: FlushMode) returns (state: BlockState)
      requires FastReady()
      modifies this, window, prev, head
      ensures FastReady() && Input(old(text + nextIn), old(text))
      ensures !state.NeedMore? ==> AllSent()
      ensures state.FinishStarted? || state.FinishDone? ==> flush.Finish? && flushed != []
      ensures state.NeedMore? && flush.Finish? ==> |nextIn| + lookahead < old(|nextIn| + lookahead)
      ensures state.BlockDone? ==> flush.Flush?
      ensures state.NeedMore? && |flushed| <= old(|flushed|) ==>
        flush.NoFlush? && nextIn == [] && lookahead < MIN_LOOKAHEAD
      ensures old(Full(|flushed|)) && !flush.Flush? ==> Full(if state.NeedMore? then |flushed| else |flushed| - 1)
    {
      hide Core, Before, Tallied, Unslid, Full, Held, Reasons, Awaited, Recorded, StandsFor, Pending;
      ghost var all, read := text + nextIn, text;
      while true
        invariant FastReady() && Input(all, read) && |nextIn| + lookahead <= old(|nextIn| + lookahead)
        invariant (old(Full(|flushed|)) ==> Full(|flushed|)) && |flushed| >= old(|flushed|)
        decreases |nextIn| + lookahead
      {
        Refill(false, base + strstart, base + strstart, base + matchStart, insert, all, read, |nextIn| + lookahead);
        if lookahead < MIN_LOOKAHEAD && flush == NoFlush { return NeedMore; }
        if lookahead == 0 { break; }
        var full := FastTurn();
        if full { return NeedMore; }
      }
      state := EndCall(flush);
    }

    // --------------------------------------------------------------- deflate_slow

    /** The match found for the string before strstart, which the next one may still beat. */
    ghost predicate MatchPending(len: nat, start: int)
      reads this`text, this`base, this`strstart
    {
      && len <= MAX_MATCH && base + strstart >= 1 && 1 <= strstart - 1 - start <= MaxDist(z)
      && Repeats(text, base + strstart - 1, strstart - 1 - start, len)
    }

    /** One literal, or match, waits to be tallied while matchAvailable is set. */
    ghost predicate Pending(len: nat, start: int)
      reads this`text, this`base, this`strstart, this`matchAvailable, this`insert
    {
      && (matchAvailable ==> strstart >= 1) && len >= MIN_MATCH - 1
      && (len >= MIN_MATCH ==> matchAvailable && insert == 0 && MatchPending(len, start))
    }

    /** The input that the tallied symbols stand for: all but the string waiting. */
    ghost function Done(): int
      reads this`base, this`strstart, this`matchAvailable
    {
      base + strstart - (if matchAvailable then 1 else 0)
    }

    /** What holds between calls of deflate_slow. */
    ghost predicate SlowBody()
      reads this, window, prev, head
    {
      Window() && Tallied(Done()) && |symBuf| < symEnd && Pending(matchLength, matchStart) && Unslid()
    }

    /** The length that waits is the one found at the position before, if there was a look. */
    ghost predicate Awaited()
      reads this`base, this`strstart, this`matchAvailable, this`matchLength, this`matchStart, this`looks, this`inserted
    {
      var p := base + strstart;
      && matchLength == (if p > 0 && p - 1 in looks then looks[p - 1].kept else MIN_MATCH - 1)
      && (matchAvailable ==> p > 0 && p - 1 in looks)
      && (matchAvailable && matchLength >= MIN_MATCH ==>
          looks[p - 1].from == base + matchStart && looks[p - 1].found == matchLength > looks[p - 1].prevLen
          && p - 1 in inserted)
    }

    ghost predicate SlowReady()
      reads this, window, prev, head
    {
      SlowBody() && Awaited() && Reasons(true, Done())
    }

    /** The strings from a to b are in the dictionary, as far as three bytes of them have been read. */
    ghost predicate Filled(a: nat, b: nat)
      reads this`text, this`inserted
    {
      forall p: nat :: a <= p < b && p + MIN_MATCH <= |text| ==> p in inserted
    }

    /** zlib/deflate.c:2055-2059: insert the rest of a match as far as there is lookahead. */
    method SlowInsert(maxInsert: nat, ghost end: nat)
      requires Core(end) && Before(strstart + 1, end) && prevLength >= 1 && maxInsert + MIN_MATCH == end
      modifies prev, head, this`insH, this`inserted, this`top, this`strstart, this`prevLength
      ensures Core(end) && Before(strstart + 1, end) && strstart == old(strstart + prevLength) && prevLength == 0
      ensures Grown(old(inserted), old(top), inserted) && top >= old(top)
      ensures Filled(base + old(strstart) + 1, base + strstart + 1)
    {
      hide Core, Primed, Latest, Chains, Shows, Aligned, ValidConfig, ValidSizes;
      ghost var last := strstart + prevLength;
      CoreFacts(end);
      while true
        invariant Core(end) && Before(strstart + 1, end) && prevLength >= 1 && strstart + prevLength == last
        invariant Grown(old(inserted), old(top), inserted) && top >= old(top)
        invariant Filled(base + old(strstart) + 1, base + strstart + 1)
        decreases prevLength
      {
        strstart := strstart + 1;
        if strstart <= maxInsert { var _ := InsertAt(strstart, end); }
        prevLength := prevLength - 1;
        if prevLength == 0 { break; }
      }
    }

    /** The same, and past the last string of the match. */
    method SlowSkip(maxInsert: nat)
      requires var end := strstart + lookahead + prevLength + 1;
        Core(end) && Before(strstart + 1, end) && maxInsert + MIN_MATCH == end
      requires prevLength >= 1 && insert == 0
      modifies prev, head, this`insH, this`inserted, this`top, this`strstart, this`prevLength
      ensures Window() && strstart == old(strstart + prevLength) + 1
      ensures Grown(old(inserted), old(top), inserted) && top >= old(top)
        && Filled(base + old(strstart) + 1, base + strstart)
    {
      SlowInsert(maxInsert, strstart + lookahead + prevLength + 1);
      strstart := strstart + 1;
    }

    /** The match that waits lies within the input. */
    lemma PendingFits()
      requires Core(strstart + lookahead) && strstart >= 1 && MatchPending(prevLength, prevMatch)
      ensures prevLength <= lookahead + 1
    {
      hide Chains, Fixed, Aligned;
    }

    /** Go past the rest of a match whose first string is behind already. */
    method SlowPast()
      requires Core(strstart + lookahead) && Before(strstart + 1, strstart + lookahead) && insert == 0
      requires MIN_MATCH <= prevLength <= lookahead + 1 && strstart >= 1
      modifies prev, head, this`insH, this`inserted, this`top, this`strstart, this`prevLength, this`lookahead
      modifies this`matchAvailable, this`matchLength
      ensures Window() && !matchAvailable && matchLength == MIN_MATCH - 1
      ensures strstart == old(strstart + prevLength) - 1 && strstart + lookahead == old(strstart + lookahead)
      ensures Grown(old(inserted), old(top), inserted) && top >= old(top)
        && Filled(base + old(strstart) + 1, base + strstart)
    {
      hide Core, Before, Primed, Filled, Grown;
      var maxInsert: nat := strstart + lookahead - MIN_MATCH;
      lookahead := lookahead - (prevLength - 1);
      prevLength := prevLength - 2;
      SlowSkip(maxInsert);
      matchAvailable := false;
      matchLength := MIN_MATCH - 1;
    }

    /** zlib/deflate.c:2036-2064: output the previous match. */
    method SlowMatch() returns (bflush: bool)
      requires Core(strstart + lookahead) && Before(strstart + 1, strstart + lookahead)
      requires prevLength >= MIN_MATCH && MatchPending(prevLength, prevMatch) && insert == 0 && strstart >= 1
      requires strstart + MIN_LOOKAHEAD <= window.Length
      requires Tallied(base + strstart - 1) && |symBuf| < symEnd
      modifies prev, head, this`insH, this`inserted, this`top, this`strstart, this`prevLength, this`lookahead
      modifies this`symBuf, this`matchAvailable, this`matchLength
      ensures Window() && Tallied(base + strstart) && bflush == (|symBuf| == symEnd) && lookahead < old(lookahead)
      ensures !matchAvailable && matchLength == MIN_MATCH - 1 && strstart < window.Length
      ensures strstart == old(strstart + prevLength) - 1
      ensures sent + symBuf == old(sent + symBuf) + [Match(old(strstart - 1 - prevMatch), old(prevLength))]
      ensures Grown(old(inserted), old(top), inserted) && top >= old(top)
        && Filled(base + old(strstart) + 1, base + strstart)
    {
      hide Core, Before, Tallied, Repeats, MaxDist, Filled, Grown;
      CoreFacts(strstart + lookahead);
      PendingFits();
      bflush := TallyDist(strstart - 1 - prevMatch, prevLength - MIN_MATCH, base + strstart - 1);
      SlowPast();
    }

    lemma LazyLimit(end: nat)
      requires Core(end)
      ensures c.maxLazy <= MAX_MATCH
    {
    }

    lemma PendingBounds(len: nat, start: int)
      requires Pending(len, start)
      ensures MIN_MATCH - 1 <= len <= MAX_MATCH
    {
      hide Repeats, MaxDist;
    }

    /** zlib/deflate.c:2023-2028. */
    predicate NotWorthIt(len: nat, dist: int) {
      len <= 5 && (filtered || (len == MIN_MATCH && dist > TOO_FAR))
    }

    lemma LazyGood(k: Look, kept: nat)
      requires FairLook(z, c, text, inserted, base + strstart, k, k.prevLen < c.maxLazy)
      requires kept == if NotWorthIt(k.found, base + strstart - k.from) then MIN_MATCH - 1 else k.found
      ensures GoodLook(Rule(true), text, inserted, base + strstart, k.(kept := kept))
    {
      hide FairLook;
      FairKept(z, c, text, inserted, base + strstart, k, k.prevLen < c.maxLazy, kept);
    }

    /** zlib/deflate.c:2007-2034: the length that counts. */
    method LazyFind(prevLen: nat) returns (kept: nat, ghost k: Look)
      requires Window() && strstart + MIN_LOOKAHEAD <= window.Length && (lookahead >= MIN_LOOKAHEAD || nextIn == [])
      requires MIN_MATCH - 1 <= prevLen <= MAX_MATCH
      modifies prev, head, this`insH, this`inserted, this`top, this`matchStart
      ensures Core(strstart + lookahead) && Before(strstart + 1, strstart + lookahead) && Held(strstart + 1)
      ensures kept >= MIN_MATCH - 1 && (kept >= MIN_MATCH && kept > prevLen ==> insert == 0 && MatchFound(kept))
      ensures Grown(old(inserted), old(top), inserted) && top >= old(top)
      ensures lookahead >= MIN_MATCH ==> top == base + strstart + 1
      ensures k == Look(base, |text|, k.offered, prevLen, k.seen, k.found, base + matchStart, kept)
      ensures GoodLook(Rule(true), text, inserted, base + strstart, k)
    {
      hide Core, Before, FairLook, GoodLook, Grown;
      LazyLimit(strstart + lookahead);
      var len;
      len, k := Find(prevLen, prevLen < c.maxLazy, MIN_MATCH - 1);
      kept := if NotWorthIt(len, strstart - matchStart) then MIN_MATCH - 1 else len;
      LazyGood(k, kept);
      k := k.(kept := kept);
    }

    /** zlib/deflate.c:2001-2035: insert the current string and look for a match better than the previous one. */
    method SlowFind() returns (ghost k: Look)
      requires Window() && strstart + MIN_LOOKAHEAD <= window.Length && Pending(matchLength, matchStart)
      requires lookahead >= MIN_LOOKAHEAD || nextIn == []
      modifies prev, head, this`insH, this`inserted, this`top, this`matchStart, this`prevLength, this`prevMatch
      modifies this`matchLength
      ensures Core(strstart + lookahead) && Before(strstart + 1, strstart + lookahead) && Held(strstart + 1)
      ensures prevLength == old(matchLength) && prevMatch == old(matchStart) && Pending(prevLength, prevMatch)
      ensures matchLength >= MIN_MATCH && matchLength > prevLength ==> insert == 0 && MatchFound(matchLength)
      ensures matchLength >= MIN_MATCH - 1
      ensures Grown(old(inserted), old(top), inserted) && top >= old(top)
      ensures lookahead >= MIN_MATCH ==> top == base + strstart + 1
      ensures k == Look(base, |text|, k.offered, prevLength, k.seen, k.found, base + matchStart, matchLength)
      ensures GoodLook(Rule(true), text, inserted, base + strstart, k)
    {
      hide Core, Before, Held, GoodLook, Pending, Grown, MatchFound;
      PendingBounds(matchLength, matchStart);
      prevLength, prevMatch := matchLength, matchStart;
      matchLength, k := LazyFind(prevLength);
    }

    /** The current string, literal or match, becomes the one that waits. */
    method Advance()
      requires Core(strstart + lookahead) && Before(strstart + 1, strstart + lookahead) && Held(strstart + 1)
      requires lookahead > 0 && matchAvailable && Tallied(base + strstart) && |symBuf| < symEnd && Unslid()
      requires matchLength >= MIN_MATCH - 1 && (matchLength >= MIN_MATCH ==> insert == 0 && MatchFound(matchLength))
      modifies this`strstart, this`lookahead
      ensures SlowBody() && lookahead == old(lookahead) - 1 && strstart == old(strstart) + 1
    {
      hide Primed, KeyAt, ValidConfig, ValidSizes;
      strstart := strstart + 1;
      lookahead := lookahead - 1;
    }

    /** zlib/deflate.c:2066-2086: the previous string goes out as a literal, or there is none; the current one waits. */
    method SlowLiteral() returns (full: bool)
      requires Core(strstart + lookahead) && Before(strstart + 1, strstart + lookahead) && Held(strstart + 1)
      requires lookahead > 0 && Tallied(Done()) && |symBuf| < symEnd && (matchAvailable ==> 1 <= strstart)
        && strstart < window.Length
      requires Unslid()
      requires matchLength >= MIN_MATCH - 1 && (matchLength >= MIN_MATCH ==> insert == 0 && MatchFound(matchLength))
      modifies this`symBuf, this`sent, this`blockStart, this`flushed, this`strstart, this`lookahead, this`matchAvailable
      ensures SlowBody() && lookahead < old(lookahead) && (old(Full(|flushed|)) ==> Full(|flushed|))
      ensures |flushed| >= old(|flushed|) && (full ==> |flushed| > old(|flushed|))
      ensures matchAvailable && strstart == old(strstart) + 1
      ensures if old(matchAvailable) then exists ch :: sent + symBuf == old(sent + symBuf) + [Literal(ch)]
              else sent + symBuf == old(sent + symBuf)
    {
      hide AllSyms, Core, Before, StandsFor;
      full := false;
      if matchAvailable {
        CoreByte(strstart + lookahead, strstart - 1);
        var bflush := TallyLit(window[strstart - 1], base + strstart - 1);
        full := FlushIfFull(bflush);
      } else {
        matchAvailable := true;
      }
      Advance();
    }

    /** The match that waited follows from the looks at its position and the next. */
    lemma SlowJustified(q: nat, s: Symbol)
      requires q > 0 && q - 1 in looks && q in looks && looks[q].end == |text|
      requires s.Match? && s.len == looks[q - 1].kept == looks[q - 1].found >= MIN_MATCH
      requires looks[q - 1].found > looks[q - 1].prevLen && looks[q].kept <= s.len
        && q - 1 - s.dist == looks[q - 1].from
      requires q - 1 in inserted && (q + MIN_MATCH <= |text| ==> q in inserted) && Filled(q + 1, q - 1 + s.len)
      ensures Justified(Rule(true), inserted, looks, q - 1, s)
    {
    }

    /** The match that waits is not beaten by the look at the current string. */
    ghost predicate MatchDue()
      reads this`text, this`inserted, this`base, this`strstart, this`looks, this`prevLength, this`prevMatch
    {
      var q := base + strstart;
      && q > 0 && q - 1 in looks && q in looks && looks[q].end == |text| && looks[q].kept <= prevLength
      && looks[q - 1].kept == looks[q - 1].found == prevLength > looks[q - 1].prevLen
      && looks[q - 1].from == base + prevMatch && q - 1 in inserted && (q + MIN_MATCH <= |text| ==> q in inserted)
    }

    /** No match is due: what waits, if anything, becomes a literal. */
    ghost predicate LiteralDue()
      reads this`inserted, this`base, this`strstart, this`looks, this`matchLength, this`matchStart, this`matchAvailable
    {
      var q := base + strstart;
      && q in looks && looks[q].kept == matchLength && looks[q].from == base + matchStart
      && (matchLength >= MIN_MATCH ==> looks[q].found == matchLength > looks[q].prevLen && q in inserted)
      && (matchAvailable ==>
          q > 0 && q - 1 in looks && (looks[q - 1].kept < MIN_MATCH || looks[q].kept > looks[q - 1].kept))
    }

    lemma MatchReason(q: nat, s: Symbol, inserted1: set<nat>, top1: nat, syms: seq<Symbol>)
      requires Explained(Rule(true), text, inserted1, looks, syms, q - 1) && Past(looks, q + 1, top1)
      requires Grown(inserted1, top1, inserted) && top1 <= top && q + 1 <= base + strstart
        && sent + symBuf == syms + [s]
      requires q > 0 && q - 1 in looks && q in looks && looks[q].end == |text|
      requires s.Match? && s.len == looks[q - 1].kept == looks[q - 1].found >= MIN_MATCH
      requires looks[q - 1].found > looks[q - 1].prevLen && looks[q].kept <= s.len
        && q - 1 - s.dist == looks[q - 1].from
      requires q - 1 in inserted1 && (q + MIN_MATCH <= |text| ==> q in inserted1) && Filled(q + 1, q - 1 + s.len)
      ensures Reasons(true, q - 1 + s.len)
    {
      hide Explained, Past, Justified, Grown, Filled;
      GrownIn(inserted1, top1, inserted, q - 1);
      if q + MIN_MATCH <= |text| { GrownIn(inserted1, top1, inserted, q); }
      SlowJustified(q, s);
      SymbolAdded(true, q - 1, q + 1, inserted1, top1, syms, s);
    }

    /** A turn that tallies the match that waited. */
    method SlowMatchTurn() returns (full: bool)
      requires Core(strstart + lookahead) && Before(strstart + 1, strstart + lookahead)
      requires prevLength >= MIN_MATCH && Pending(prevLength, prevMatch) && strstart + MIN_LOOKAHEAD <= window.Length
      requires insert == 0 && Tallied(base + strstart - 1) && |symBuf| < symEnd && Unslid() && matchAvailable
      requires LookedAt(true, base + strstart - 1) && MatchDue()
      modifies prev, head, this`insH, this`inserted, this`top, this`strstart, this`matchLength, this`lookahead
      modifies this`symBuf, this`sent, this`blockStart, this`flushed, this`prevLength, this`matchAvailable
      ensures SlowReady() && lookahead < old(lookahead) && (old(Full(|flushed|)) ==> Full(|flushed|))
      ensures |flushed| >= old(|flushed|) && (full ==> |flushed| > old(|flushed|))
    {
      hide Core, Tallied, DeflateState.Fixed, Before, Held, Full, Explained, Justified, Grown, Filled, Unslid,
        SendableBlock, DeflateState.Rule, Pow2, Shl, Low, Xor;
      ghost var q: nat, inserted1, top1, syms := base + strstart, inserted, top, sent + symBuf;
      ghost var s := Match(strstart - 1 - prevMatch, prevLength);
      var bflush := SlowMatch();
      MatchReason(q, s, inserted1, top1, syms);
      full := FlushIfFull(bflush);
    }

    /** A turn that tallies a literal or nothing. */
    method SlowLiteralTurn() returns (full: bool)
      requires Core(strstart + lookahead) && Before(strstart + 1, strstart + lookahead) && Held(strstart + 1)
      requires lookahead > 0 && Tallied(Done()) && |symBuf| < symEnd && (matchAvailable ==> 1 <= strstart)
        && strstart < window.Length && Unslid()
      requires matchLength >= MIN_MATCH - 1 && (matchLength >= MIN_MATCH ==> insert == 0 && MatchFound(matchLength))
      requires LookedAt(true, Done()) && LiteralDue()
      modifies this`symBuf, this`sent, this`blockStart, this`flushed, this`strstart, this`lookahead, this`matchAvailable
      ensures SlowReady() && lookahead < old(lookahead) && (old(Full(|flushed|)) ==> Full(|flushed|))
      ensures |flushed| >= old(|flushed|) && (full ==> |flushed| > old(|flushed|))
    {
      hide Core, Tallied, DeflateState.Fixed, Before, Held, Full, Explained, Justified, Unslid, SlowBody, MatchFound,
        MaxDist;
      ghost var q: nat, syms, literal := base + strstart, sent + symBuf, matchAvailable;
      full := SlowLiteral();
      if literal {
        ghost var ch :| sent + symBuf == syms + [Literal(ch)];
        LazyLiteral(q - 1, Literal(ch));
        GrownNone(inserted, top);
        SymbolAdded(true, q - 1, q + 1, inserted, top, syms, Literal(ch));
      }
    }

    lemma LazyLiteral(q: nat, s: Symbol)
      requires s.Literal? && q in looks && q + 1 in looks
      requires looks[q].kept < MIN_MATCH || looks[q + 1].kept > looks[q].kept
      ensures Justified(Rule(true), inserted, looks, q, s)
    {
    }

    /** A look that counts has counted for what was found. */
    lemma LookCounts(k: Look)
      requires GoodLook(Rule(true), text, inserted, base + strstart, k)
        && k.end == |text| == base + strstart + lookahead
      ensures k.kept >= MIN_MATCH ==> k.found == k.kept
      ensures k.kept >= MIN_MATCH && k.kept > k.prevLen ==> lookahead >= MIN_MATCH
      ensures lookahead >= MIN_MATCH ==> base + strstart in inserted
    {
      hide NothingLonger, AllSeen, Repeats, Pow2;
    }

    /** One turn of the loop of deflate_slow (zlib/deflate.c:2001-2086). */
    method SlowTurn() returns (full: bool)
      requires SlowReady() && lookahead > 0 && strstart + MIN_LOOKAHEAD <= window.Length
      requires lookahead >= MIN_LOOKAHEAD || nextIn == []
      modifies prev, head, this`insH, this`inserted, this`top, this`strstart, this`matchLength, this`lookahead
      modifies this`symBuf, this`matchStart, this`sent, this`blockStart, this`flushed, this`prevLength, this`prevMatch
      modifies this`matchAvailable, this`looks
      ensures SlowReady() && lookahead < old(lookahead) && (old(Full(|flushed|)) ==> Full(|flushed|))
      ensures |flushed| >= old(|flushed|) && (full ==> |flushed| > old(|flushed|))
    {
      hide Core, Tallied, DeflateState.Fixed, Before, Held, Full, Explained, Justified, GoodLook, Grown, Unslid,
        MaxDist, MatchFound, Past, DeflateState.Rule, Pow2, Shl, Low, Xor;
      ghost var q: nat, inserted0, top0 := base + strstart, inserted, top;
      ghost var k := SlowFind();
      CoreFacts(strstart + lookahead);
      LookAdded(true, Done(), inserted0, top0, k);
      LookCounts(k);
      if matchAvailable && prevLength >= MIN_MATCH { GrownIn(inserted0, top0, inserted, q - 1); }
      looks := looks[q := k];
      if prevLength >= MIN_MATCH && matchLength <= prevLength {
        full := SlowMatchTurn();
      } else {
        full := SlowLiteralTurn();
      }
    }

    method SlowRefill(ghost all: seq<byte>, ghost read: seq<byte>, ghost left: nat)
      requires SlowReady() && Input(all, read) && |nextIn| + lookahead == left
      modifies this`nextIn, this`strstart, this`lookahead, this`insH, this`insert, this`matchStart, this`blockStart
      modifies this`highWater, this`text, this`base, this`slides, this`inserted, this`top, window, prev, head
      ensures SlowReady() && strstart + MIN_LOOKAHEAD <= window.Length
      ensures Input(all, read) && |nextIn| + lookahead == left
      ensures lookahead >= MIN_LOOKAHEAD || nextIn == []
    {
      hide Core, Before, Held, Tallied, Unslid, Explained, Past;
      ghost var text0, pos, match0 := text, base + strstart, base + matchStart;
      Refill(true, Done(), pos, match0, insert, all, text, left);
      if matchLength >= MIN_MATCH {
        RepeatsGrows(text0, text, pos - 1, pos - 1 - match0, matchLength);
      }
    }

    /** zlib/deflate.c:2088-2092: the string still waiting goes out as a literal. */
    method SlowLast()
      requires SlowReady() && lookahead == 0 && matchAvailable
      modifies this`symBuf, this`matchAvailable
      ensures Window() && Tallied(Done()) && !matchAvailable && Pending(matchLength, matchStart) && Awaited()
      ensures Reasons(true, Done()) && Done() == base + strstart && (old(Unslid()) ==> Unslid())
    {
      hide Core, Before, Held, Tallied, Unslid, Explained, Past, Justified;
      ghost var q: nat, syms := base + strstart, sent + symBuf;
      if matchLength >= MIN_MATCH { WaitingFits(); }
      CoreByte(strstart + lookahead, strstart - 1);
      ghost var ch := window[strstart - 1];
      var _ := TallyLit(window[strstart - 1], base + strstart - 1);
      matchAvailable := false;
      LiteralJustified(true, q - 1, Literal(ch));
      GrownNone(inserted, top);
      SymbolAdded(true, q - 1, q, inserted, top, syms, Literal(ch));
    }

    /** The match that waits lies within the input. */
    lemma WaitingFits()
      requires Core(strstart + lookahead) && strstart >= 1 && MatchPending(matchLength, matchStart)
      ensures matchLength <= lookahead + 1
    {
      hide Chains, Fixed, Aligned;
    }

    /** zlib/deflate.c:2088-2101. */
    method SlowEnd(flush: FlushMode) returns (state: BlockState)
      requires SlowReady() && lookahead == 0 && nextIn == [] && strstart < window.Length
      modifies this`insert, this`symBuf, this`sent, this`blockStart, this`flushed, this`matchAvailable
      ensures SlowReady() && !matchAvailable && (!state.NeedMore? ==> AllSent())
      ensures state.NeedMore? ==> |flushed| > old(|flushed|)
      ensures (state.FinishStarted? || state.FinishDone? <==> flush.Finish?) && (flush.Finish? ==> flushed != [])
      ensures flush.Finish? && old(Full(|flushed|)) ==> Full(|flushed| - 1)
    {
      hide Core, Before, Held, Tallied, Unslid, Explained, Past, AllSent;
      if matchAvailable { SlowLast(); }
      state := EndCall(flush);
    }

    /** The same for lazy matching; while the call runs one string may be waiting. */
    method DeflateSlow(flush: FlushMode) returns (state: BlockState)
      requires SlowReady()
      modifies this, window, prev, head
      ensures SlowReady() && Input(old(text + nextIn), old(text))
      ensures !state.NeedMore? ==> AllSent() && !matchAvailable
      ensures state.FinishStarted? || state.FinishDone? ==> flush.Finish? && flushed != []
      ensures state.NeedMore? && flush.Finish? ==> |nextIn| + lookahead < old(|nextIn| + lookahead)
      ensures state.BlockDone? ==> flush.Flush?
      ensures state.NeedMore? && |flushed| <= old(|flushed|) ==>
        flush.NoFlush? && nextIn == [] && lookahead < MIN_LOOKAHEAD
      ensures old(Full(|flushed|)) && !flush.Flush? ==> Full(if state.NeedMore? then |flushed| else |flushed| - 1)
    {
      hide Core, Before, Tallied, Unslid, Full, Held, Reasons, Awaited, Recorded, StandsFor, Pending;
      ghost var all, read := text + nextIn, text;
      while true
        invariant SlowReady() && Input(all, read) && |nextIn| + lookahead <= old(|nextIn| + lookahead)
        invariant (old(Full(|flushed|)) ==> Full(|flushed|)) && |flushed| >= old(|flushed|)
        decreases |nextIn| + lookahead
      {
        SlowRefill(all, read, |nextIn| + lookahead);
        if lookahead < MIN_LOOKAHEAD && flush == NoFlush { return NeedMore; }
        if lookahead == 0 { break; }
        var full := SlowTurn();
        if full { return NeedMore; }
      }
      state := SlowEnd(flush);
    }

    // ---------------------------------------------------------------- the stream

    /** deflateInit2 and lm_init (zlib/deflate.c:1245-1271). */
    constructor (z: Sizes, c: Config, filtered: bool, symEnd: nat)
      requires ValidSizes(z) && ValidConfig(c) && symEnd >= 1
      ensures FastReady() && SlowReady() && text == nextIn == [] && sent == symBuf == [] && flushed == []
      ensures fresh(window) && fresh(prev) && fresh(head) && this.z == z && this.symEnd == symEnd
      ensures forall lazy :: Rule(lazy) == Rules(z, c, filtered, lazy)
    {
      hide Justified, Covers, AllJustified;
      Pow2Mono(9, z.wBits);
      assert Pow2(9) == 512;
      this.z, this.c, this.filtered, this.symEnd := z, c, filtered, symEnd;
      wSize := Pow2(z.wBits);
      window := new byte[2 * Pow2(z.wBits)](i => 0);
      prev := new nat[Pow2(z.wBits)](i => 0);
      head := new nat[Pow2(z.hash.bits)](i => 0);
      nextIn, symBuf, sent, text, inserted, flushed, looks := [], [], [], [], {}, [], map[];
      strstart, lookahead, insH, insert, blockStart, highWater := 0, 0, 0, 0, 0, 0;
      matchLength, prevLength, matchStart, prevMatch := MIN_MATCH - 1, MIN_MATCH - 1, 0, 0;
      matchAvailable := false;
      base, slides, top := 0, 0, 0;
      new;
      ShlOne(z.wBits);
      NothingChained(z, head[..], prev[..], text, 0);
      assert sent + symBuf == [];
      NothingToExplain(Rule(false));
      NothingToExplain(Rule(true));
    }

    /** The caller hands over more input. */
    method Feed(data: seq<byte>)
      modifies this`nextIn
      ensures nextIn == old(nextIn) + data
      ensures old(FastReady()) ==> FastReady()
      ensures old(SlowReady()) ==> SlowReady()
    {
      hide Core, Before, Tallied, Held, Pending, Explained, Past, Awaited;
      nextIn := nextIn + data;
    }
  }
}
