/**
 Why the matcher tallies what it tallies (zlib/deflate.c:1871-2102): what it saw at each place where it looked
 for a match, and how the literals and matches follow from that, greedily or lazily.
 */
module Parsing {
  import opened BitOps
  import opened HashKey
  import opened Lz77
  import opened HashChains
  import opened LongestMatch

  /** How matches are looked for, and whether a match waits for the next one before it is tallied. */
  datatype Rules = Rules(z: Sizes, c: Config, filtered: bool, lazy: bool)

  /**
   One search for the string at some position: the window began at base, the input had been read up to end and
   given up to offered; a match of prevLen was to be beaten; the positions seen; the length found and where; and
   the length that counts.
   */
  datatype Look = Look(base: nat, end: nat, offered: nat, prevLen: nat, seen: seq<nat>, found: nat, from: int,
                       kept: nat)

  /** No position seen repeats more than was found. */
  ghost predicate NothingLonger(text: seq<byte>, q: nat, k: Look) {
    forall s, n: nat :: s in k.seen && n <= MAX_MATCH && q + n <= k.end && MatchAt(text, q, q, s, n) ==> n <= k.found
  }

  /** An inserted position where the three bytes at q are found, after the first of the window and less far back than
      the window size less 262. */
  ghost predicate Reachable(z: Sizes, text: seq<byte>, inserted: set<nat>, base: nat, q: nat, p: nat) {
    p in inserted && base < p < q && q - p + 262 < Pow2(z.wBits) && Repeats(text, q, q - p, MIN_MATCH)
  }

  /** All of these were seen, unless the match is nice enough, or as many newer ones were seen as may be. */
  ghost predicate AllSeen(z: Sizes, c: Config, text: seq<byte>, inserted: set<nat>, q: nat, k: Look) {
    forall p: nat :: Reachable(z, text, inserted, k.base, q, p) ==>
      p in k.seen || k.found >= c.niceLength || q + k.found >= k.end
      || (|k.seen| == MostSeen(c, k.prevLen) && forall s :: s in k.seen ==> p < s)
  }

  /** What was found is there. */
  ghost predicate Truly(z: Sizes, text: seq<byte>, q: nat, k: Look) {
    k.found >= MIN_MATCH && k.found > k.prevLen ==>
      && 1 <= q - k.from <= MaxDist(z) && k.from >= 0 && k.from in k.seen
      && Repeats(text, q, q - k.from, k.found) && k.found <= MAX_MATCH && q + k.found <= k.end
  }

  /** A look at position q; a search may be left out only if `search` is false. */
  ghost predicate FairLook(z: Sizes, c: Config, text: seq<byte>, inserted: set<nat>, q: nat, k: Look, search: bool) {
    && q <= k.end <= |text| && (q + 262 <= k.end || k.end == k.offered)
    && (q + MIN_MATCH <= k.end ==> q in inserted)
    && NothingLonger(text, q, k) && Truly(z, text, q, k)
    && (forall s :: s in k.seen ==> s in inserted && k.base < s < q <= s + MaxDist(z))
    && (q + MIN_MATCH <= k.end && search ==> AllSeen(z, c, text, inserted, q, k))
  }

  /** What counts of it is not part of the look itself. */
  lemma FairKept(z: Sizes, c: Config, text: seq<byte>, inserted: set<nat>, q: nat, k: Look, search: bool, kept: nat)
    requires FairLook(z, c, text, inserted, q, k, search)
    ensures FairLook(z, c, text, inserted, q, k.(kept := kept), search)
  {
    hide Repeats, Pow2, MostSeen;
  }

  /** Up to five bytes when the input is filtered, and three bytes from more than 4096 back, are left as literals. */
  ghost predicate Discarded(r: Rules, q: nat, k: Look) {
    r.lazy && k.found <= 5 && (r.filtered || (k.found == 3 && q - k.from > 4096))
  }

  /** Lazily there is no search after a match that is long enough, and some short matches do not count. */
  ghost predicate GoodLook(r: Rules, text: seq<byte>, inserted: set<nat>, q: nat, k: Look) {
    && FairLook(r.z, r.c, text, inserted, q, k, r.lazy ==> k.prevLen < r.c.maxLazy)
    && k.kept == if Discarded(r, q, k) then MIN_MATCH - 1 else k.found
  }

  /** What has to be beaten at q is the match at the position before, if that waits. */
  ghost predicate Linked(r: Rules, looks: map<nat, Look>, q: nat)
    requires q in looks
  {
    looks[q].prevLen == if r.lazy && q > 0 && q - 1 in looks then looks[q - 1].kept else MIN_MATCH - 1
  }

  /**
   A literal is tallied only where no match counts, or lazily where the next position has a longer one.  A match
   is the one found there and, lazily, no shorter than the one found at the next position; the strings in it are
   in the dictionary, as far as three bytes of them had been read, or greedily if the match is short.
   */
  ghost predicate Justified(r: Rules, inserted: set<nat>, looks: map<nat, Look>, q: nat, s: Symbol) {
    q in looks &&
    match s
    case Literal(_) => looks[q].kept < MIN_MATCH || (r.lazy && q + 1 in looks && looks[q + 1].kept > looks[q].kept)
    case Match(dist, len) =>
      && looks[q].kept == len >= MIN_MATCH && q - dist == looks[q].from && len == looks[q].found > looks[q].prevLen
      && (if r.lazy then
            && q + 1 in looks && looks[q + 1].kept <= len
            && forall p: nat :: q <= p < q + len && p + MIN_MATCH <= looks[q + 1].end ==> p in inserted
          else
            len <= r.c.maxLazy && q + len + MIN_MATCH <= looks[q].end ==>
            forall p: nat :: q <= p < q + len ==> p in inserted)
  }

  function Covers(s: Symbol): nat {
    if s.Match? then s.len else 1
  }

  /** Each of the symbols, which cover n bytes, is justified. */
  ghost predicate AllJustified(r: Rules, inserted: set<nat>, looks: map<nat, Look>, syms: seq<Symbol>, n: int)
    decreases |syms|
  {
    if syms == [] then n == 0
    else
      var s := syms[|syms| - 1];
      && n >= Covers(s) && Justified(r, inserted, looks, n - Covers(s), s)
      && AllJustified(r, inserted, looks, syms[..|syms| - 1], n - Covers(s))
  }

  ghost predicate AllGood(r: Rules, text: seq<byte>, inserted: set<nat>, looks: map<nat, Look>) {
    forall q: nat :: q in looks ==> GoodLook(r, text, inserted, q, looks[q]) && Linked(r, looks, q)
  }

  /** The symbols, which cover n bytes of the text, follow from what was seen. */
  ghost predicate Explained(r: Rules, text: seq<byte>, inserted: set<nat>, looks: map<nat, Look>, syms: seq<Symbol>,
      n: int) {
    AllGood(r, text, inserted, looks) && AllJustified(r, inserted, looks, syms, n)
  }

  /** All the looks are before pos, and the strings looked at that were inserted are before top. */
  ghost predicate Past(looks: map<nat, Look>, pos: int, top: nat) {
    forall q: nat :: q in looks ==> q < pos && (q + MIN_MATCH <= looks[q].end ==> q < top)
  }

  /** Positions have been inserted, from top0 on. */
  ghost predicate Grown(inserted0: set<nat>, top0: nat, inserted: set<nat>) {
    inserted0 <= inserted && forall p: nat :: p in inserted && p !in inserted0 ==> top0 <= p
  }

  // ------------------------------------------------------------------- more input, more strings

  lemma GrownOn(a: set<nat>, ta: nat, b: set<nat>, tb: nat, c: set<nat>)
    requires Grown(a, ta, b) && ta <= tb && Grown(b, tb, c)
    ensures Grown(a, ta, c)
  {
  }

  lemma GrownIn(a: set<nat>, ta: nat, b: set<nat>, p: nat)
    requires Grown(a, ta, b) && p in a
    ensures p in b
  {
  }

  lemma GrownNone(a: set<nat>, ta: nat)
    ensures Grown(a, ta, a)
  {
  }

  lemma RepeatsBack(text: seq<byte>, text': seq<byte>, pos: nat, dist: nat, len: nat)
    requires text <= text' && pos + len <= |text|
    ensures Repeats(text', pos, dist, len) <==> Repeats(text, pos, dist, len)
  {
  }

  lemma FairLater(z: Sizes, c: Config, text: seq<byte>, text': seq<byte>, inserted: set<nat>, inserted': set<nat>,
      top: nat, q: nat, k: Look, search: bool)
    requires FairLook(z, c, text, inserted, q, k, search) && text <= text' && Grown(inserted, top, inserted')
    requires q + MIN_MATCH <= k.end ==> q < top
    ensures FairLook(z, c, text', inserted', q, k, search)
  {
    hide Repeats, MostSeen, Pow2;
    forall s, n: nat | s in k.seen && n <= MAX_MATCH && q + n <= k.end && MatchAt(text', q, q, s, n)
      ensures n <= k.found
    {
      RepeatsBack(text, text', q, q - s, n);
      assert MatchAt(text, q, q, s, n);
    }
    if k.found >= MIN_MATCH && k.found > k.prevLen { RepeatsBack(text, text', q, q - k.from, k.found); }
    if q + MIN_MATCH <= k.end {
      forall p: nat | Reachable(z, text', inserted', k.base, q, p) ensures Reachable(z, text, inserted, k.base, q, p) {
        RepeatsBack(text, text', q, q - p, MIN_MATCH);
      }
    }
  }

  lemma {:induction false} JustifiedLater(r: Rules, inserted: set<nat>, inserted': set<nat>, looks: map<nat, Look>,
      looks': map<nat, Look>, syms: seq<Symbol>, n: int)
    requires AllJustified(r, inserted, looks, syms, n) && inserted <= inserted'
    requires forall q: nat :: q in looks ==> q in looks' && looks'[q] == looks[q]
    ensures AllJustified(r, inserted', looks', syms, n)
    decreases |syms|
  {
    if syms != [] {
      JustifiedLater(r, inserted, inserted', looks, looks', syms[..|syms| - 1], n - Covers(syms[|syms| - 1]));
    }
  }

  lemma ExplainedLater(r: Rules, text: seq<byte>, text': seq<byte>, inserted: set<nat>, inserted': set<nat>, top: nat,
      looks: map<nat, Look>, syms: seq<Symbol>, n: int, pos: int)
    requires Explained(r, text, inserted, looks, syms, n) && Past(looks, pos, top)
    requires text <= text' && Grown(inserted, top, inserted')
    ensures Explained(r, text', inserted', looks, syms, n)
  {
    hide FairLook, Linked, AllJustified;
    JustifiedLater(r, inserted, inserted', looks, looks, syms, n);
    forall q: nat | q in looks ensures GoodLook(r, text', inserted', q, looks[q]) {
      FairLater(r.z, r.c, text, text', inserted, inserted', top, q, looks[q],
                r.lazy ==> looks[q].prevLen < r.c.maxLazy);
    }
  }

  lemma NothingToExplain(r: Rules)
    ensures Explained(r, [], {}, map[], [], 0) && Past(map[], 0, 0)
  {
  }

  // ----------------------------------------------------------------------- from the window

  function Shifted(base: nat, seen: seq<nat>): (r: seq<nat>)
    ensures |r| == |seen| && forall i :: 0 <= i < |seen| ==> r[i] == base + seen[i]
  {
    seq(|seen|, i requires 0 <= i < |seen| => base + seen[i])
  }

  lemma InShifted(base: nat, seen: seq<nat>, m: nat)
    requires m in seen
    ensures base + m in Shifted(base, seen)
  {
    var i :| 0 <= i < |seen| && seen[i] == m;
    assert Shifted(base, seen)[i] == base + m;
  }

  lemma OfShifted(base: nat, seen: seq<nat>, s: nat)
    requires s in Shifted(base, seen)
    ensures s >= base && s - base in seen
  {
    var i :| 0 <= i < |seen| && Shifted(base, seen)[i] == s;
    assert seen[i] == s - base;
  }

  lemma ShiftedLonger(text: seq<byte>, base: nat, strstart: nat, seen: seq<nat>, lookahead: nat, len: nat, k: Look)
    requires NoneLonger(text, base + strstart, strstart, seen, lookahead, len) && k.seen == Shifted(base, seen)
    requires k.found == len && k.end == base + strstart + lookahead
    ensures NothingLonger(text, base + strstart, k)
  {
    hide Repeats;
    var q := base + strstart;
    forall s, n: nat | s in k.seen && n <= MAX_MATCH && q + n <= k.end
        && MatchAt(text, q, q, s, n) ensures n <= k.found {
      OfShifted(base, seen, s);
      assert MatchAt(text, q, strstart, s - base, n);
    }
  }

  /** Three equal bytes make equal keys. */
  lemma SameKey(z: Sizes, text: seq<byte>, q: nat, p: nat)
    requires p < q && Repeats(text, q, q - p, MIN_MATCH)
    ensures q + 3 <= |text| && KeyAt(z, text, p) == KeyAt(z, text, q)
  {
    assert text[q] == text[q - (q - p)] && text[q + 1] == text[q + 1 - (q - p)] && text[q + 2] == text[q + 2 - (q - p)];
  }

  lemma ShiftedSeen(z: Sizes, c: Config, text: seq<byte>, inserted: set<nat>, base: nat, strstart: nat, lookahead: nat,
                    prevLength: nat, seen: seq<nat>, len: nat, k: Look)
    requires NonePassed(z, c, text, inserted, base, base + strstart, lookahead, prevLength, seen, len)
    requires k.seen == Shifted(base, seen) && k.found == len && k.end == base + strstart + lookahead && k.base == base
      && k.prevLen == prevLength
    ensures AllSeen(z, c, text, inserted, base + strstart, k)
  {
    hide Repeats, KeyAt, MostSeen, Pow2;
    var q := base + strstart;
    forall p: nat | Reachable(z, text, inserted, base, q, p)
      ensures p in k.seen || k.found >= c.niceLength || q + k.found >= k.end
              || (|k.seen| == MostSeen(c, k.prevLen) && forall s :: s in k.seen ==> p < s)
    {
      SameKey(z, text, q, p);
      assert Chained(z, text, inserted, base, q, p);
      if p - base in seen { InShifted(base, seen, p - base); }
      forall s | s in k.seen ensures s >= base && s - base in seen { OfShifted(base, seen, s); }
    }
  }

  lemma ShiftedReach(z: Sizes, text: seq<byte>, inserted: set<nat>, base: nat, strstart: nat, seen: seq<nat>)
    requires forall m :: m in seen ==> Candidate(z, text, inserted, base, m, base + strstart)
    ensures forall s :: s in Shifted(base, seen) ==>
      s in inserted && base < s < base + strstart <= s + MaxDist(z)
  {
    hide KeyAt, Pow2;
    forall s | s in Shifted(base, seen) ensures s in inserted && base < s < base + strstart <= s + MaxDist(z) {
      OfShifted(base, seen, s);
      assert Candidate(z, text, inserted, base, s - base, base + strstart);
    }
  }

  /** A position with the key does not come after the newest one. */
  lemma NotLater(z: Sizes, text: seq<byte>, inserted: set<nat>, base: nat, m: nat, q: nat, p: nat)
    requires q + 3 <= |text| && Latest(z, text, inserted, base, m, KeyAt(z, text, q), q)
    requires p in inserted && base < p < q && KeyAt(z, text, p) == KeyAt(z, text, q)
    ensures 0 < m && p <= base + m
  {
    hide KeyAt;
  }

  lemma NoneReachable(z: Sizes, text: seq<byte>, inserted: set<nat>, base: nat, m: nat, q: nat)
    requires q + 3 <= |text| && Latest(z, text, inserted, base, m, KeyAt(z, text, q), q)
    requires m == 0 || q - (base + m) > MaxDist(z)
    ensures forall p: nat :: !Reachable(z, text, inserted, base, q, p)
  {
    hide Latest, KeyAt, Repeats, Pow2;
    forall p: nat ensures !Reachable(z, text, inserted, base, q, p) {
      if Reachable(z, text, inserted, base, q, p) {
        SameKey(z, text, q, p);
        NotLater(z, text, inserted, base, m, q, p);
      }
    }
  }

  // --------------------------------------------------------------------------- one turn

  lemma ExplainedLook(r: Rules, text: seq<byte>, inserted: set<nat>, looks: map<nat, Look>, syms: seq<Symbol>, n: int,
      q: nat, k: Look)
    requires Explained(r, text, inserted, looks, syms, n) && GoodLook(r, text, inserted, q, k)
    requires (forall p: nat :: p in looks ==> p < q) && Linked(r, looks[q := k], q)
    ensures Explained(r, text, inserted, looks[q := k], syms, n)
  {
    hide GoodLook, AllJustified;
    JustifiedLater(r, inserted, inserted, looks, looks[q := k], syms, n);
  }

  lemma ExplainedSymbol(r: Rules, text: seq<byte>, inserted: set<nat>, looks: map<nat, Look>, syms: seq<Symbol>, n: nat,
      s: Symbol)
    requires Explained(r, text, inserted, looks, syms, n) && Justified(r, inserted, looks, n, s)
    ensures Explained(r, text, inserted, looks, syms + [s], n + Covers(s))
  {
    hide AllGood, Justified;
    assert (syms + [s])[..|syms|] == syms;
  }

  // ----------------------------------------------------------------- what that means for the parse

  /** The position that symbol i is for. */
  function Start(syms: seq<Symbol>, i: nat): nat
    requires i <= |syms|
  {
    if i == 0 then 0 else Start(syms, i - 1) + Covers(syms[i - 1])
  }

  lemma {:induction false} StartFirst(syms: seq<Symbol>, n: nat, i: nat)
    requires i <= n <= |syms|
    ensures Start(syms[..n], i) == Start(syms, i)
  {
    if i != 0 { StartFirst(syms, n, i - 1); }
  }

  lemma {:induction false} EachJustified(r: Rules, inserted: set<nat>, looks: map<nat, Look>, syms: seq<Symbol>, n: int,
      i: nat)
    requires AllJustified(r, inserted, looks, syms, n) && i < |syms|
    ensures Justified(r, inserted, looks, Start(syms, i), syms[i]) && n == Start(syms, |syms|)
    decreases |syms|
  {
    hide Justified;
    var m := |syms| - 1;
    var before := syms[..m];
    StartFirst(syms, m, m);
    if before != [] { EachJustified(r, inserted, looks, before, n - Covers(syms[m]), if i < m then i else 0); }
    if i < m { StartFirst(syms, m, i); }
  }

  /**
   A literal is tallied only where none of the positions seen has three equal bytes, or what was found is
   discarded, or the next position has a longer match.
   */
  lemma WhyLiteral(r: Rules, text: seq<byte>, inserted: set<nat>, looks: map<nat, Look>, syms: seq<Symbol>, n: int,
      i: nat,
      s: nat)
    requires Explained(r, text, inserted, looks, syms, n) && i < |syms| && syms[i].Literal?
    ensures var q := Start(syms, i); q in looks
    ensures var q := Start(syms, i); var k := looks[q];
      s in k.seen && q + MIN_MATCH <= k.end && MatchAt(text, q, q, s, MIN_MATCH) ==>
        r.lazy && (Discarded(r, q, k) || (q + 1 in looks && looks[q + 1].kept > k.kept >= MIN_MATCH))
  {
    hide Repeats, AllSeen, Truly, Linked, AllJustified;
    EachJustified(r, inserted, looks, syms, n, i);
    assert GoodLook(r, text, inserted, Start(syms, i), looks[Start(syms, i)]);
  }

  /** A match tallied is as long as any at the positions seen for it and, lazily, as any found at the next position. */
  lemma WhyMatch(r: Rules, text: seq<byte>, inserted: set<nat>, looks: map<nat, Look>, syms: seq<Symbol>, n: int,
      i: nat,
      s: nat, len: nat)
    requires Explained(r, text, inserted, looks, syms, n) && i < |syms| && syms[i].Match?
    ensures var q := Start(syms, i);
      q in looks && Repeats(text, q, syms[i].dist, syms[i].len) && syms[i].len >= MIN_MATCH
    ensures var q := Start(syms, i); var k := looks[q];
      s in k.seen && len <= MAX_MATCH && q + len <= k.end && MatchAt(text, q, q, s, len) ==> len <= syms[i].len
    ensures var q := Start(syms, i); r.lazy ==> q + 1 in looks && looks[q + 1].kept <= syms[i].len
  {
    hide Repeats, AllSeen, Linked, AllJustified;
    EachJustified(r, inserted, looks, syms, n, i);
    assert GoodLook(r, text, inserted, Start(syms, i), looks[Start(syms, i)]);
  }

  /** Where a search is due, three equal bytes in reach are seen, unless the search may stop before it gets there. */
  lemma SeenInReach(r: Rules, text: seq<byte>, inserted: set<nat>, looks: map<nat, Look>, syms: seq<Symbol>, n: int,
      q: nat,
      p: nat)
    requires Explained(r, text, inserted, looks, syms, n) && q in looks && q + MIN_MATCH <= looks[q].end
    requires Reachable(r.z, text, inserted, looks[q].base, q, p) && r.c.maxLazy >= MIN_MATCH
    ensures q in inserted
    ensures p in looks[q].seen
      || (r.lazy && q > 0 && q - 1 in looks && looks[q].prevLen == looks[q - 1].kept >= r.c.maxLazy)
      || looks[q].found >= r.c.niceLength || q + looks[q].found >= looks[q].end
      || (|looks[q].seen| == MostSeen(r.c, looks[q].prevLen) && forall s :: s in looks[q].seen ==> p < s)
  {
    hide Repeats, Truly, NothingLonger, AllJustified, Reachable, MostSeen;
    assert GoodLook(r, text, inserted, q, looks[q]) && Linked(r, looks, q);
  }
}
