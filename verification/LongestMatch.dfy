/**
 `longest_match` (zlib/deflate.c:1278-1422): walk the chain of the current string and
 keep the longest match.  The third byte is never compared, and the comparison runs
 past the end of the input; a longer result is a true match all the same.
 */
module LongestMatch {
  import opened BitOps
  import opened HashKey
  import opened Lz77
  import opened HashChains

  const MIN_MATCH: nat := 3
  const MAX_MATCH: nat := 258
  const MIN_LOOKAHEAD: nat := MAX_MATCH + MIN_MATCH + 1

  /** zlib/deflate.c:114-120, a row of the configuration table. */
  datatype Config = Config(goodLength: nat, maxLazy: nat, niceLength: nat, maxChain: nat)

  /** What the code asks of it (zlib/deflate.c:128-140). */
  predicate ValidConfig(c: Config) {
    MIN_MATCH <= c.maxLazy <= MAX_MATCH && c.niceLength <= MAX_MATCH && c.maxChain >= 4
  }

  /** deflateInit2 replaces 8 by 9; hash_bits is memLevel + 7. */
  predicate ValidSizes(z: Sizes) {
    9 <= z.wBits <= 15 && ValidHashSize(z.hash)
  }

  /** MAX_DIST (zlib/deflate.h:284). */
  function MaxDist(z: Sizes): int {
    Pow2(z.wBits) - MIN_LOOKAHEAD
  }

  /** The bytes in the window at a and at b agree over n bytes, valid or not. */
  ghost predicate SameBytes(window: seq<byte>, a: nat, b: nat, n: nat) {
    a + n <= |window| && b + n <= |window| && forall i :: a <= i < a + n ==> window[i] == window[i - a + b]
  }

  /** How far the bytes at a and at b agree, from the k-th on and up to MAX_MATCH. */
  ghost function Agreement(window: seq<byte>, a: nat, b: nat, k: nat): (n: nat)
    requires k <= MAX_MATCH && a + MAX_MATCH < |window| && b + MAX_MATCH < |window|
    ensures k <= n <= MAX_MATCH
    decreases MAX_MATCH - k
  {
    if k == MAX_MATCH || window[a + k] != window[b + k] then k else Agreement(window, a, b, k + 1)
  }

  lemma {:induction false} AgreementIs(window: seq<byte>, a: nat, b: nat, k: nat, n: nat)
    requires k <= n <= MAX_MATCH && a + MAX_MATCH < |window| && b + MAX_MATCH < |window|
    ensures SameBytes(window, a, b, n) ==> n <= Agreement(window, a, b, k)
    ensures n < MAX_MATCH && window[a + n] != window[b + n] ==> Agreement(window, a, b, k) <= n
    decreases MAX_MATCH - k
  {
    if k < n {
      assert SameBytes(window, a, b, n) ==> window[a + k] == window[a + k - a + b];
      AgreementIs(window, a, b, k + 1, n);
    }
  }

  /** The chain from cur on: at most so many positions, all of them beyond the limit but perhaps the first. */
  ghost function Chain(prev: seq<nat>, wBits: nat, limit: nat, cur: nat, most: nat): seq<nat>
    requires |prev| == Pow2(wBits)
    decreases most
  {
    if most <= 1 || prev[Low(cur, wBits)] <= limit then [cur]
    else [cur] + Chain(prev, wBits, limit, prev[Low(cur, wBits)], most - 1)
  }

  /** best and start are what looking at these positions in turn leaves. */
  ghost predicate BestOf(window: seq<byte>, strstart: nat, seen: seq<nat>, best: nat, start: int, prevLength: nat,
      start0: int)
    requires strstart + MAX_MATCH < |window|
  {
    && prevLength <= best && (forall m :: m in seen ==> m < strstart && Agreement(window, m, strstart, 0) <= best)
    && (best == prevLength ==> start == start0)
    && (best > prevLength ==> start >= 0 && start in seen && Agreement(window, start, strstart, 0) == best)
  }

  /** zlib/deflate.c:1385-1401: the first three bytes are known to agree. */
  method MatchLength(window: array<byte>, match0: nat, scan0: nat) returns (len: nat)
    requires match0 < scan0 && scan0 + MAX_MATCH < window.Length && SameBytes(window[..], match0, scan0, 3)
    ensures 3 <= len <= MAX_MATCH && SameBytes(window[..], match0, scan0, len)
    ensures len == Agreement(window[..], match0, scan0, 0)
  {
    hide Agreement;
    var k: nat := 2;
    while true
      invariant 2 <= k < MAX_MATCH && SameBytes(window[..], match0, scan0, k + 1)
      decreases MAX_MATCH - k
    {
      k := k + 1;
      if window[scan0 + k] != window[match0 + k] { break; }
      if (k - 2) % 8 == 0 && k >= MAX_MATCH { break; }
    }
    len := k;
    AgreementIs(window[..], match0, scan0, 0, len);
  }

  /** A position to be compared with the current one: same key, inserted before it, within reach. */
  ghost predicate Candidate(z: Sizes, text: seq<byte>, inserted: set<nat>, base: nat, m: nat, pos: nat) {
    && 0 < m && base + m < pos <= base + m + MaxDist(z) && pos + 3 <= |text|
    && Link(z, text, inserted, base, m, KeyAt(z, text, pos), pos)
  }

  /** Equal keys and two equal bytes: the third is equal too. */
  lemma ThirdByteAgrees(z: Sizes, window: seq<byte>, text: seq<byte>, inserted: set<nat>, base: nat, end: nat,
                        m: nat, strstart: nat)
    requires ValidHashSize(z.hash) && Shows(window, text, base, end) && strstart + 3 <= end
    requires Candidate(z, text, inserted, base, m, base + strstart)
    requires window[m] == window[strstart] && window[m + 1] == window[strstart + 1]
    ensures SameBytes(window, m, strstart, 3)
  {
    var p, q := base + m, base + strstart;
    assert text[p] == window[m] && text[p + 1] == window[m + 1] && text[p + 2] == window[m + 2];
    assert text[q] == window[strstart] && text[q + 1] == window[strstart + 1] && text[q + 2] == window[strstart + 2];
    ThirdByte(z.hash, text[p], text[p + 1], text[p + 2], text[q + 2]);
  }

  /** Agreement in the window, cut at the end of the input, is a repetition in the input. */
  lemma TrueMatch(window: seq<byte>, text: seq<byte>, base: nat, end: nat, m: nat, strstart: nat, n: nat)
    requires Shows(window, text, base, end) && m < strstart && strstart + n <= end && SameBytes(window, m, strstart, n)
    ensures Repeats(text, base + strstart, strstart - m, n)
  {
    forall i | base + strstart <= i < base + strstart + n ensures text[i] == text[i - (strstart - m)] {
      assert window[i - base] == text[i];
      assert window[i - base - strstart + m] == text[i - (strstart - m)];
    }
  }

  /** The best match so far, if it is better than what the search began with. */
  ghost predicate Better(z: Sizes, window: seq<byte>, strstart: nat, matchStart: int, best: nat, prevLength: nat) {
    best == prevLength ||
    (prevLength < best <= MAX_MATCH && 0 <= matchStart < strstart <= matchStart + MaxDist(z)
     && SameBytes(window, matchStart, strstart, best))
  }

  /** zlib/deflate.c:1374-1416: compare one candidate. */
  method TryMatch(z: Sizes, window: array<byte>, strstart: nat, cur: nat, best0: nat, matchStart0: int,
                  ghost prevLength: nat, ghost text: seq<byte>, ghost inserted: set<nat>, ghost base: nat,
                  ghost end: nat)
    returns (best: nat, matchStart: int)
    requires ValidHashSize(z.hash) && Shows(window[..], text, base, end) && strstart + 3 <= end
    requires strstart + MAX_MATCH < window.Length && 1 <= best0 < MAX_MATCH
    requires Candidate(z, text, inserted, base, cur, base + strstart)
    requires Better(z, window[..], strstart, matchStart0, best0, prevLength) && prevLength <= best0
    ensures Better(z, window[..], strstart, matchStart, best, prevLength) && best0 <= best <= MAX_MATCH
    ensures best == if Agreement(window[..], cur, strstart, 0) > best0 then Agreement(window[..], cur, strstart, 0)
      else best0
    ensures matchStart == if best > best0 then cur else matchStart0
  {
    best, matchStart := best0, matchStart0;
    if window[cur + best] == window[strstart + best] && window[cur + best - 1] == window[strstart + best - 1]
       && window[cur] == window[strstart] && window[cur + 1] == window[strstart + 1]
    {
      ThirdByteAgrees(z, window[..], text, inserted, base, end, cur, strstart);
      var len := MatchLength(window, cur, strstart);
      if len > best { matchStart, best := cur, len; }
    } else {
      Unpromising(window[..], cur, strstart, best);
    }
  }

  /** What the quick check refuses is no better. */
  lemma Unpromising(window: seq<byte>, cur: nat, strstart: nat, best: nat)
    requires cur < strstart && strstart + MAX_MATCH < |window| && 1 <= best < MAX_MATCH
    requires window[cur + best] != window[strstart + best] || window[cur + best - 1] != window[strstart + best - 1]
      || window[cur] != window[strstart] || window[cur + 1] != window[strstart + 1]
    ensures Agreement(window, cur, strstart, 0) <= best
  {
    AgreementIs(window, cur, strstart, 0, best);
    AgreementIs(window, cur, strstart, 0, best - 1);
    AgreementIs(window, cur, strstart, 0, 1);
  }

  /** A repetition in the input that the lookahead covers is agreement in the window. */
  lemma MatchSeen(window: seq<byte>, text: seq<byte>, base: nat, end: nat, m: nat, strstart: nat, n: nat)
    requires Shows(window, text, base, end) && m < strstart && strstart + n <= end && n <= MAX_MATCH
    requires strstart + MAX_MATCH < |window| && Repeats(text, base + strstart, strstart - m, n)
    ensures n <= Agreement(window, m, strstart, 0)
  {
    forall i | m <= i < m + n ensures window[i] == window[i - m + strstart] {
      assert text[base + i - m + strstart] == text[base + i];
    }
    AgreementIs(window, m, strstart, 0, n);
  }

  lemma NextCandidate(z: Sizes, prev: seq<nat>, text: seq<byte>, inserted: set<nat>, base: nat, slides: nat,
                      cur: nat, strstart: nat)
    requires ValidSizes(z) && Aligned(z, base, slides) && base + strstart + 3 <= |text|
    requires Prevs(z, prev, text, inserted, base, base + strstart + 1)
    requires Candidate(z, text, inserted, base, cur, base + strstart)
    ensures Low(cur, z.wBits) < |prev|
    ensures var m := prev[Low(cur, z.wBits)];
      && (m != 0 ==> m < cur)
      && (m > 0 && strstart - m <= MaxDist(z) ==> Candidate(z, text, inserted, base, m, base + strstart))
      && Newest(z, text, inserted, base, m, KeyAt(z, text, base + strstart), base + cur)
  {
    hide Newest, KeyAt, Pow2, Low, Shl, ValidHashSize;
    ShrAdd(slides, cur, z.wBits);
    assert base + cur in inserted;
  }

  // ---------------------------------------------------------------- nothing is passed over

  /** A position inserted before pos, after the first in the window, that has the key of pos. */
  ghost predicate Chained(z: Sizes, text: seq<byte>, inserted: set<nat>, base: nat, pos: nat, q: nat) {
    && q in inserted && base < q < pos && q + 3 <= |text| && pos + 3 <= |text|
    && KeyAt(z, text, q) == KeyAt(z, text, pos)
  }

  /** Of these, all that come after index cur of the window have been seen, and none of those seen comes before. */
  ghost predicate SeenAfter(z: Sizes, text: seq<byte>, inserted: set<nat>, base: nat, pos: nat, cur: nat,
      seen: seq<nat>) {
    && (forall q: nat :: Chained(z, text, inserted, base, pos, q) && base + cur < q ==> q - base in seen)
    && forall m :: m in seen ==> cur < m
  }

  lemma NoneSeen(z: Sizes, text: seq<byte>, inserted: set<nat>, base: nat, pos: nat, cur: nat)
    requires pos + 3 <= |text| && Newest(z, text, inserted, base, cur, KeyAt(z, text, pos), pos)
    ensures SeenAfter(z, text, inserted, base, pos, cur, [])
  {
    hide KeyAt;
  }

  lemma OneSeen(z: Sizes, text: seq<byte>, inserted: set<nat>, base: nat, pos: nat, cur: nat, seen: seq<nat>, m: nat)
    requires SeenAfter(z, text, inserted, base, pos, cur, seen) && Candidate(z, text, inserted, base, cur, pos)
    requires m < cur && Newest(z, text, inserted, base, m, KeyAt(z, text, pos), base + cur)
    ensures SeenAfter(z, text, inserted, base, pos, m, seen + [cur])
  {
    hide KeyAt;
    forall q: nat | Chained(z, text, inserted, base, pos, q) && base + m < q ensures q - base in seen + [cur] {
      if q > base + cur { assert q - base in seen; }
    }
  }

  /** max_chain_length, a quarter of it after a good match. */
  function MostSeen(c: Config, prevLength: nat): nat {
    if prevLength >= c.goodLength then c.maxChain / 4 else c.maxChain
  }

  /**
   Every position within reach that has the key has been seen, unless the match is nice enough, or the most that
   may be seen were, all of them newer.
   */
  ghost predicate NonePassed(z: Sizes, c: Config, text: seq<byte>, inserted: set<nat>, base: nat, pos: nat,
      lookahead: nat, prevLength: nat, seen: seq<nat>, len: nat) {
    forall q: nat :: Chained(z, text, inserted, base, pos, q) && pos - q < MaxDist(z) ==>
      q - base in seen || len >= c.niceLength || len >= lookahead
      || (|seen| == MostSeen(c, prevLength) && forall m :: m in seen ==> q < base + m)
  }

  lemma MostIs(c: Config, prevLength: nat)
    ensures MostSeen(c, prevLength) == if prevLength >= c.goodLength then c.maxChain / 4 else c.maxChain
  {
  }

  lemma NiceEnough(z: Sizes, c: Config, text: seq<byte>, inserted: set<nat>, base: nat, strstart: nat, lookahead: nat,
                   prevLength: nat, seen: seq<nat>, best: nat)
    requires best >= c.niceLength || best >= lookahead
    ensures NonePassed(z, c, text, inserted, base, base + strstart, lookahead, prevLength, seen,
                       if best <= lookahead then best else lookahead)
  {
    hide KeyAt, Pow2;
  }

  lemma ChainSeen(z: Sizes, c: Config, text: seq<byte>, inserted: set<nat>, base: nat, strstart: nat, lookahead: nat,
                  prevLength: nat, seen: seq<nat>, best: nat, cur: nat)
    requires SeenAfter(z, text, inserted, base, base + strstart, cur, seen)
    requires |seen| == MostSeen(c, prevLength) || cur <= (if strstart > MaxDist(z) then strstart - MaxDist(z) else 0)
    ensures NonePassed(z, c, text, inserted, base, base + strstart, lookahead, prevLength, seen,
                       if best <= lookahead then best else lookahead)
  {
    hide KeyAt, Pow2;
  }

  /** The bytes of the input from index m of the window on are, for n bytes, those of the current string. */
  ghost predicate MatchAt(text: seq<byte>, pos: nat, strstart: nat, m: nat, n: nat) {
    m < strstart && Repeats(text, pos, strstart - m, n)
  }

  /** No position seen has a longer match in the input than len. */
  ghost predicate NoneLonger(text: seq<byte>, pos: nat, strstart: nat, seen: seq<nat>, lookahead: nat, len: nat) {
    forall m, n: nat :: m in seen && n <= lookahead && n <= MAX_MATCH && MatchAt(text, pos, strstart, m, n) ==> n <= len
  }

  /** Where the search stops: with the chain, or at a match that is nice enough. */
  ghost predicate Searched(z: Sizes, c: Config, prev: seq<nat>, strstart: nat, lookahead: nat, prevLength: nat,
      curMatch: nat,
                           seen: seq<nat>, len: nat)
    requires |prev| == Pow2(z.wBits)
  {
    var chain := Chain(prev, z.wBits, if strstart > MaxDist(z) then strstart - MaxDist(z) else 0, curMatch,
                       if prevLength >= c.goodLength then c.maxChain / 4 else c.maxChain);
    seen <= chain && (seen == chain || len >= c.niceLength || len == lookahead)
  }

  lemma ChainFrom(prev: seq<nat>, wBits: nat, limit: nat, cur: nat, most: nat)
    requires |prev| == Pow2(wBits) && most >= 1
    ensures Low(cur, wBits) < |prev|
    ensures prev[Low(cur, wBits)] <= limit || most == 1 ==> Chain(prev, wBits, limit, cur, most) == [cur]
    ensures prev[Low(cur, wBits)] > limit && most > 1 ==>
      Chain(prev, wBits, limit, cur, most) == [cur] + Chain(prev, wBits, limit, prev[Low(cur, wBits)], most - 1)
    ensures [cur] <= Chain(prev, wBits, limit, cur, most)
  {
  }

  /** One more position of the chain seen. */
  lemma ChainStep(prev: seq<nat>, wBits: nat, limit: nat, cur: nat, most: nat, seen: seq<nat>, whole: seq<nat>)
    requires |prev| == Pow2(wBits) && most >= 1 && seen + Chain(prev, wBits, limit, cur, most) == whole
    ensures Low(cur, wBits) < |prev| && seen + [cur] <= whole
    ensures prev[Low(cur, wBits)] <= limit || most == 1 ==> seen + [cur] == whole
    ensures prev[Low(cur, wBits)] > limit && most > 1 ==>
      seen + [cur] + Chain(prev, wBits, limit, prev[Low(cur, wBits)], most - 1) == whole
  {
    hide Chain, Low, Pow2;
    ChainFrom(prev, wBits, limit, cur, most);
  }

  lemma BestMore(window: seq<byte>, strstart: nat, seen: seq<nat>, best: nat, start: int, prevLength: nat, start0: int,
      cur: nat)
    requires strstart + MAX_MATCH < |window| && BestOf(window, strstart, seen, best, start, prevLength, start0)
      && cur < strstart
    ensures var n := Agreement(window, cur, strstart, 0);
      BestOf(window, strstart, seen + [cur], if n > best then n else best, if n > best then cur else start, prevLength,
          start0)
  {
    hide Agreement;
  }

  lemma LongestOf(window: seq<byte>, text: seq<byte>, base: nat, strstart: nat, lookahead: nat, seen: seq<nat>,
                  best: nat, start: int, prevLength: nat, start0: int)
    requires strstart + MAX_MATCH < |window| && BestOf(window, strstart, seen, best, start, prevLength, start0)
    requires Shows(window, text, base, strstart + lookahead)
    ensures NoneLonger(text, base + strstart, strstart, seen, lookahead, if best <= lookahead then best else lookahead)
    ensures best > prevLength ==> start >= 0 && start in seen
  {
    hide Agreement, Repeats;
    var pos := base + strstart;
    forall m, n: nat | m in seen && n <= lookahead && n <= MAX_MATCH && MatchAt(text, pos, strstart, m, n)
      ensures n <= best
    {
      MatchSeen(window, text, base, strstart + lookahead, m, strstart, n);
    }
  }

  /** What the search has come to after the positions seen. */
  ghost predicate SoFar(z: Sizes, window: seq<byte>, strstart: nat, seen: seq<nat>, best: nat, start: int,
      prevLength: nat, start0: int) {
    strstart + MAX_MATCH < |window| && prevLength <= best
    && Better(z, window, strstart, start, best, prevLength)
        && BestOf(window, strstart, seen, best, start, prevLength, start0)
  }

  lemma NothingSeen(z: Sizes, window: seq<byte>, strstart: nat, prevLength: nat, start0: int)
    requires strstart + MAX_MATCH < |window|
    ensures SoFar(z, window, strstart, [], prevLength, start0, prevLength, start0)
  {
  }

  /** The body of the loop up to the step along the chain. */
  method Examine(z: Sizes, window: array<byte>, strstart: nat, cur: nat, best0: nat, start0: int, ghost prevLength: nat,
                 ghost seen: seq<nat>, ghost first: int, ghost text: seq<byte>, ghost inserted: set<nat>,
                     ghost base: nat, ghost end: nat)
    returns (best: nat, start: int)
    requires ValidHashSize(z.hash) && Shows(window[..], text, base, end) && strstart + 3 <= end
    requires strstart + MAX_MATCH < window.Length && 1 <= best0 < MAX_MATCH
    requires Candidate(z, text, inserted, base, cur, base + strstart)
    requires SoFar(z, window[..], strstart, seen, best0, start0, prevLength, first)
    ensures SoFar(z, window[..], strstart, seen + [cur], best, start, prevLength, first) && best0 <= best <= MAX_MATCH
  {
    hide Agreement, Shows, BestOf, Better, Candidate, ValidHashSize;
    CandidateBefore(z, text, inserted, base, cur, strstart);
    best, start := TryMatch(z, window, strstart, cur, best0, start0, prevLength, text, inserted, base, end);
    BestMore(window[..], strstart, seen, best0, start0, prevLength, first, cur);
  }

  lemma SoFarMeans(z: Sizes, window: seq<byte>, strstart: nat, seen: seq<nat>, best: nat, start: int, prevLength: nat,
      start0: int)
    requires SoFar(z, window, strstart, seen, best, start, prevLength, start0)
    ensures strstart + MAX_MATCH < |window| && prevLength <= best
      && Better(z, window, strstart, start, best, prevLength)
    ensures BestOf(window, strstart, seen, best, start, prevLength, start0)
  {
  }

  lemma CandidateBefore(z: Sizes, text: seq<byte>, inserted: set<nat>, base: nat, m: nat, strstart: nat)
    requires Candidate(z, text, inserted, base, m, base + strstart)
    ensures 0 < m < strstart && base + strstart + 3 <= |text|
  {
  }

  lemma BestIsTrue(z: Sizes, window: seq<byte>, text: seq<byte>, base: nat, strstart: nat, lookahead: nat, start: int,
                   best: nat, prevLength: nat, len: nat)
    requires Better(z, window, strstart, start, best, prevLength) && Shows(window, text, base, strstart + lookahead)
    requires prevLength < len <= best && len <= lookahead
    ensures 0 <= start < strstart <= start + MaxDist(z) && Repeats(text, base + strstart, strstart - start, len)
  {
    hide Shows, Repeats;
    TrueMatch(window, text, base, strstart + lookahead, start, strstart, len);
  }

  lemma PrevSize(z: Sizes, prev: seq<nat>, text: seq<byte>, inserted: set<nat>, base: nat, top: nat)
    requires Prevs(z, prev, text, inserted, base, top)
    ensures |prev| == Pow2(z.wBits)
  {
  }

  /** The longest of the matches at the positions seen, cut to the lookahead, or prevLength when none beats it
      and the lookahead is not less. */
  method Longest(z: Sizes, c: Config, window: array<byte>, prev: array<nat>, strstart: nat, lookahead: nat,
                 prevLength: nat, matchStart0: int, curMatch: nat,
                 ghost text: seq<byte>, ghost inserted: set<nat>, ghost base: nat, ghost slides: nat)
    returns (len: nat, matchStart: int, ghost seen: seq<nat>)
    requires ValidSizes(z) && ValidConfig(c) && Aligned(z, base, slides)
    requires Shows(window[..], text, base, strstart + lookahead) && lookahead >= MIN_MATCH
    requires strstart + MIN_LOOKAHEAD <= window.Length && 1 <= prevLength < MAX_MATCH
    requires Prevs(z, prev[..], text, inserted, base, base + strstart + 1)
    requires Candidate(z, text, inserted, base, curMatch, base + strstart)
    requires Newest(z, text, inserted, base, curMatch, KeyAt(z, text, base + strstart), base + strstart)
    ensures len <= lookahead && len <= MAX_MATCH
    ensures len > prevLength ==>
      0 <= matchStart < strstart <= matchStart + MaxDist(z) && matchStart in seen
          && Repeats(text, base + strstart, strstart - matchStart, len)
    ensures len <= prevLength ==> len == if prevLength <= lookahead then prevLength else lookahead
    ensures NoneLonger(text, base + strstart, strstart, seen, lookahead, len)
    ensures |prev[..]| == Pow2(z.wBits)
      && Searched(z, c, prev[..], strstart, lookahead, prevLength, curMatch, seen, len)
    ensures NonePassed(z, c, text, inserted, base, base + strstart, lookahead, prevLength, seen, len)
    ensures forall m :: m in seen ==> Candidate(z, text, inserted, base, m, base + strstart)
  {
    hide Agreement, Chain, Prevs, Candidate, Repeats, Aligned, Low, NoneLonger, BestOf, Better, SoFar, Shows, SameBytes,
      Pow2, Shl, Xor, Newest, SeenAfter, NonePassed, MostSeen, KeyAt;
    var chainLength: nat, niceMatch: nat := c.maxChain, c.niceLength;
    var limit: nat := if strstart > MaxDist(z) then strstart - MaxDist(z) else 0;
    if prevLength >= c.goodLength { chainLength := chainLength / 4; }
    if niceMatch > lookahead { niceMatch := lookahead; }
    var cur: nat, best: nat := curMatch, prevLength;
    matchStart := matchStart0;
    seen := [];
    PrevSize(z, prev[..], text, inserted, base, base + strstart + 1);
    ghost var whole := Chain(prev[..], z.wBits, limit, cur, chainLength);
    NothingSeen(z, window[..], strstart, prevLength, matchStart0);
    CandidateBefore(z, text, inserted, base, cur, strstart);
    NoneSeen(z, text, inserted, base, base + strstart, cur);
    MostIs(c, prevLength);
    while true
      invariant 1 <= chainLength && prevLength <= best < MAX_MATCH
      invariant Candidate(z, text, inserted, base, cur, base + strstart)
      invariant SoFar(z, window[..], strstart, seen, best, matchStart, prevLength, matchStart0)
        && |prev[..]| == Pow2(z.wBits)
      invariant seen + Chain(prev[..], z.wBits, limit, cur, chainLength) == whole
      invariant SeenAfter(z, text, inserted, base, base + strstart, cur, seen)
      invariant |seen| + chainLength == MostSeen(c, prevLength)
      invariant forall m :: m in seen ==> Candidate(z, text, inserted, base, m, base + strstart)
      decreases cur
    {
      CandidateBefore(z, text, inserted, base, cur, strstart);
      NextCandidate(z, prev[..], text, inserted, base, slides, cur, strstart);
      var best0 := best;
      best, matchStart := Examine(z, window, strstart, cur, best, matchStart, prevLength, seen, matchStart0,
                                  text, inserted, base, strstart + lookahead);
      ChainStep(prev[..], z.wBits, limit, cur, chainLength, seen, whole);
      OneSeen(z, text, inserted, base, base + strstart, cur, seen, prev[Low(cur, z.wBits)]);
      seen := seen + [cur];
      if best > best0 && best >= niceMatch {
        NiceEnough(z, c, text, inserted, base, strstart, lookahead, prevLength, seen, best);
        break;
      }
      cur := prev[Low(cur, z.wBits)];
      if cur > limit { chainLength := chainLength - 1; }
      if cur <= limit || chainLength == 0 {
        ChainSeen(z, c, text, inserted, base, strstart, lookahead, prevLength, seen, best, cur);
        break;
      }
    }
    len := if best <= lookahead then best else lookahead;
    SoFarMeans(z, window[..], strstart, seen, best, matchStart, prevLength, matchStart0);
    LongestOf(window[..], text, base, strstart, lookahead, seen, best, matchStart, prevLength, matchStart0);
    if len > prevLength { BestIsTrue(z, window[..], text, base, strstart, lookahead, matchStart, best, prevLength,
        len); }
  }

  /** Five equal bytes, the third of them current, and a match of four found before: the result is neither. */
  method LessThanBefore() returns (len: nat)
    ensures len == 3
  {
    hide Key, Low, Searched, NoneLonger, Repeats;
    var z := Sizes(9, HashSize(15, 5));
    SmallSizes();
    var window := new byte[1024](i => if 0 <= i < 5 then 97 else 0);
    var prev := new nat[512](_ => 0);
    ghost var text: seq<byte> := [97, 97, 97, 97, 97];
    assert KeyAt(z, text, 1) == KeyAt(z, text, 2);
    LowInRange();
    var start;
    ghost var seen;
    len, start, seen := Longest(z, Config(4, 4, 16, 16), window, prev, 2, 3, 4, 0, 1, text, {1}, 0, 0);
  }

  lemma SmallSizes()
    ensures Pow2(9) == 512 && Shl(0, 9) == 0 && ValidHashSize(HashSize(15, 5))
  {
    hide Shl;
    Pow2Byte();
    ShlOne(9);
  }

  lemma LowInRange()
    ensures Low(1, 9) < Pow2(9)
  {
  }
}
