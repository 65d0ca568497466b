/**
 The repair in `gen_bitlen` (zlib/trees.c:528-542) of lengths that exceed the limit: on
 the table of how many codes there are of each length, it moves leaves until Kraft's
 inequality holds again, with equality.
 */
module BitLengths {
  import opened BitOps
  import opened Canonical
  import opened SortedSymbols

  // ------------------------------------------- counts of lengths, as an array

  /** Kraft's sum of a table of counts, lengths 1..b, in units of 2^-15. */
  ghost function KraftOf(cnt: seq<nat>, b: nat): nat
    requires |cnt| == MAXBITS + 1 && b <= MAXBITS
  {
    if b == 0 then 0 else KraftOf(cnt, b - 1) + Shl(cnt[b], MAXBITS - b)
  }

  ghost function Total(cnt: seq<nat>, b: nat): nat
    requires |cnt| == MAXBITS + 1 && b <= MAXBITS
  {
    if b == 0 then 0 else Total(cnt, b - 1) + cnt[b]
  }

  lemma {:induction false} KraftOfCounts(cnt: seq<nat>, lens: seq<nat>, b: nat)
    requires |cnt| == MAXBITS + 1 && b <= MAXBITS
    requires forall i :: 1 <= i <= MAXBITS ==> cnt[i] == Count(lens, i)
    ensures KraftOf(cnt, b) == KraftByLen(lens, b) && Total(cnt, b) == Offs(lens, b + 1)
  {
    if b != 0 { KraftOfCounts(cnt, lens, b - 1); }
  }

  lemma {:induction false} KraftOfUpdate(cnt: seq<nat>, j: nat, v: nat, b: nat)
    requires |cnt| == MAXBITS + 1 && 1 <= j <= MAXBITS && b <= MAXBITS
    ensures b < j ==> KraftOf(cnt[j := v], b) == KraftOf(cnt, b) && Total(cnt[j := v], b) == Total(cnt, b)
    ensures b >= j ==>
      && KraftOf(cnt[j := v], b) + Shl(cnt[j], MAXBITS - j) == KraftOf(cnt, b) + Shl(v, MAXBITS - j)
      && Total(cnt[j := v], b) + cnt[j] == Total(cnt, b) + v
  {
    if b != 0 { KraftOfUpdate(cnt, j, v, b - 1); }
  }

  /** When only length max is in use, the Kraft sum counts leaves. */
  lemma {:induction false} OnlyLongest(cnt: seq<nat>, max: nat, b: nat)
    requires |cnt| == MAXBITS + 1 && 1 <= max <= MAXBITS && b <= MAXBITS
    requires forall i :: 1 <= i <= MAXBITS && i != max ==> cnt[i] == 0
    ensures KraftOf(cnt, b) == if b < max then 0 else Shl(cnt[max], MAXBITS - max)
    ensures Total(cnt, b) == if b < max then 0 else cnt[max]
  {
    if b != 0 {
      OnlyLongest(cnt, max, b - 1);
      ShlOne(MAXBITS - b);
    }
  }

  // ---------------------------------------------------------------- the repair

  /** Counts over-subscribed by x codes of length max, with at least `spare` more codes of that length. */
  ghost predicate Overdrawn(cnt: seq<nat>, max: nat, x: nat, n: nat, spare: nat) {
    && |cnt| == MAXBITS + 1 && 1 <= max <= MAXBITS
    && (forall i :: max < i <= MAXBITS ==> cnt[i] == 0) && cnt[0] == 0
    && KraftOf(cnt, max) == Pow2(MAXBITS) + Shl(x, MAXBITS - max)
    && Total(cnt, max) == n <= Pow2(max) && cnt[max] >= x + spare
  }

  /** As long as the counts are over-subscribed some code is shorter than the limit. */
  lemma ShorterExists(cnt: seq<nat>, max: nat, x: nat, n: nat, spare: nat)
    requires Overdrawn(cnt, max, x, n, spare) && x > 0
    ensures exists i :: 1 <= i < max && cnt[i] > 0
  {
    hide KraftOf, Total, Shl;
    if forall i :: 1 <= i < max ==> cnt[i] == 0 {
      OnlyLongest(cnt, max, max);
      Pow2Add(max, MAXBITS - max);
      ShlAdd(Pow2(max), x, MAXBITS - max);
      ShlMono(Pow2(max) + x, cnt[max], MAXBITS - max);
      assert false;
    }
  }

  /** A code of length b replaced by two of length b + 1. */
  ghost function Forked(cnt: seq<nat>, b: nat): seq<nat>
    requires |cnt| == MAXBITS + 1 && 1 <= b < MAXBITS && cnt[b] > 0
  {
    cnt[b := cnt[b] - 1][b + 1 := cnt[b + 1] + 2]
  }

  ghost function Less(cnt: seq<nat>, b: nat): seq<nat>
    requires b < |cnt| && cnt[b] > 0
  {
    cnt[b := cnt[b] - 1]
  }

  /** The counts after one move: a leaf from length b down, with an overflow item as its brother. */
  ghost function Moved(cnt: seq<nat>, max: nat, b: nat): seq<nat>
    requires |cnt| == MAXBITS + 1 && 1 <= b < max <= MAXBITS && cnt[b] > 0
    requires b + 1 == max || cnt[max] > 0
  {
    Less(Forked(cnt, b), max)
  }

  lemma ShlTwo(x: nat, d: nat)
    requires d > 0
    ensures Shl(x + 2, d - 1) == Shl(x, d - 1) + Pow2(d)
  {
    ShlAdd(x, 2, d - 1);
    ShlDouble(1, d - 1);
    ShlOne(d - 1);
  }

  lemma ForkKraft(cnt: seq<nat>, b: nat, max: nat)
    requires |cnt| == MAXBITS + 1 && 1 <= b < max <= MAXBITS && cnt[b] > 0
    ensures KraftOf(Forked(cnt, b), max) == KraftOf(cnt, max)
    ensures Total(Forked(cnt, b), max) == Total(cnt, max) + 1
  {
    hide Pow2, Shl;
    KraftOfUpdate(cnt, b, cnt[b] - 1, max);
    KraftOfUpdate(cnt[b := cnt[b] - 1], b + 1, cnt[b + 1] + 2, max);
    ShlSucc(cnt[b] - 1, MAXBITS - b);
    ShlTwo(cnt[b + 1], MAXBITS - b);
  }

  lemma LessKraft(cnt: seq<nat>, b: nat, max: nat)
    requires |cnt| == MAXBITS + 1 && 1 <= b <= max <= MAXBITS && cnt[b] > 0
    ensures KraftOf(Less(cnt, b), max) + Pow2(MAXBITS - b) == KraftOf(cnt, max)
    ensures Total(Less(cnt, b), max) + 1 == Total(cnt, max)
  {
    KraftOfUpdate(cnt, b, cnt[b] - 1, max);
    ShlSucc(cnt[b] - 1, MAXBITS - b);
  }

  lemma MoveRepairs(cnt: seq<nat>, max: nat, x: nat, n: nat, b: nat, spare: nat)
    requires Overdrawn(cnt, max, x, n, spare) && x > 0 && 1 <= b < max && cnt[b] > 0
    ensures Overdrawn(Moved(cnt, max, b), max, x - 1, n, spare)
  {
    hide KraftOf, Total, Pow2, Shl;
    ForkKraft(cnt, b, max);
    LessKraft(Forked(cnt, b), max, max);
    ShlSucc(x - 1, MAXBITS - max);
  }

  /** b is the longest length in use that is shorter than the limit. */
  ghost predicate LastShorter(cnt: seq<nat>, max: nat, b: nat) {
    && |cnt| == MAXBITS + 1 && 1 <= b < max <= MAXBITS && cnt[b] > 0
    && forall i :: b < i < max ==> cnt[i] == 0
  }

  /** The counts go from one table to the other by moves from these lengths, each the longest below the limit at its
      time. */
  ghost predicate Moves(cnt: seq<nat>, max: nat, trail: seq<nat>, cnt': seq<nat>)
    decreases |trail|
  {
    if trail == [] then cnt == cnt'
    else
      LastShorter(cnt, max, trail[0]) && (trail[0] + 1 == max || cnt[max] > 0)
      && Moves(Moved(cnt, max, trail[0]), max, trail[1..], cnt')
  }

  lemma {:induction false} MovesMore(cnt: seq<nat>, max: nat, trail: seq<nat>, mid: seq<nat>, b: nat)
    requires Moves(cnt, max, trail, mid) && LastShorter(mid, max, b) && (b + 1 == max || mid[max] > 0)
    ensures Moves(cnt, max, trail + [b], Moved(mid, max, b))
    decreases |trail|
  {
    hide Moved;
    if trail == [] {
      assert trail + [b] == [b] && [b][1..] == [];
    } else {
      assert (trail + [b])[1..] == trail[1..] + [b];
      MovesMore(Moved(cnt, max, trail[0]), max, trail[1..], mid, b);
    }
  }

  /** Lengths shorter than any moved from keep their counts, and what is moved from length b stays gone unless codes
      come from b - 1. */
  lemma {:induction false} ShorterKept(cnt: seq<nat>, max: nat, trail: seq<nat>, cnt': seq<nat>, b: nat)
    requires Moves(cnt, max, trail, cnt') && 1 <= b < max && |cnt| == MAXBITS + 1 && max <= MAXBITS
    requires forall k :: 0 <= k < |trail| ==> trail[k] >= b
    ensures |cnt'| == MAXBITS + 1 && cnt'[..b] == cnt[..b] && cnt'[b] <= cnt[b]
    ensures b in trail ==> cnt'[b] < cnt[b]
    decreases |trail|
  {
    if trail != [] { ShorterKept(Moved(cnt, max, trail[0]), max, trail[1..], cnt', b); }
  }

  /** No short code is given up while a longer one below the limit could be: when the first code of length b went there
      was none between it and the limit. */
  lemma {:induction false} GivenUpLast(cnt: seq<nat>, max: nat, trail: seq<nat>, cnt': seq<nat>, b: nat)
    returns (early: seq<nat>, mid: seq<nat>)
    requires Moves(cnt, max, trail, cnt') && b in trail
    ensures early + [b] <= trail && b !in early && Moves(cnt, max, early, mid) && LastShorter(mid, max, b)
    decreases |trail|
  {
    hide Moved;
    if trail[0] == b {
      early, mid := [], cnt;
    } else {
      var e;
      e, mid := GivenUpLast(Moved(cnt, max, trail[0]), max, trail[1..], cnt', b);
      early := [trail[0]] + e;
      assert early[1..] == e;
      assert early + [b] == [trail[0]] + (e + [b]) && trail == [trail[0]] + trail[1..];
    }
  }

  /** zlib/trees.c:533-541: one move. */
  method Move(blCount: array<nat>, max: nat, ghost x: nat, ghost n: nat, ghost spare: nat) returns (ghost from: nat)
    requires x > 0 && Overdrawn(blCount[..], max, x, n, spare)
    modifies blCount
    ensures Overdrawn(blCount[..], max, x - 1, n, spare)
    ensures LastShorter(old(blCount[..]), max, from) && (from + 1 == max || old(blCount[max]) > 0)
    ensures blCount[..] == Moved(old(blCount[..]), max, from)
  {
    hide KraftOf, Total, Shl;
    ghost var cnt := blCount[..];
    ShorterExists(cnt, max, x, n, spare);
    ghost var w :| 1 <= w < max && cnt[w] > 0;
    var bits := max - 1;
    while blCount[bits] == 0
      invariant w <= bits < max && forall i :: bits < i < max ==> cnt[i] == 0
      decreases bits
    {
      assert cnt[bits] == 0;
      bits := bits - 1;
    }
    assert cnt[bits] > 0;
    MoveRepairs(cnt, max, x, n, bits, spare);
    blCount[bits] := blCount[bits] - 1;
    blCount[bits + 1] := blCount[bits + 1] + 2;
    blCount[max] := blCount[max] - 1;
    from := bits;
    assert blCount[..] == Moved(cnt, max, from);
  }

  /** zlib/trees.c:532-542: `overflow` is twice the number of codes over-subscribed. */
  method Repair(blCount: array<nat>, max: nat, overflow0: int, ghost n: nat, ghost spare: nat)
    returns (ghost trail: seq<nat>)
    requires overflow0 > 0 && overflow0 % 2 == 0 && Overdrawn(blCount[..], max, overflow0 / 2, n, spare)
    modifies blCount
    ensures Overdrawn(blCount[..], max, 0, n, spare)
    ensures |trail| == overflow0 / 2 && Moves(old(blCount[..]), max, trail, blCount[..])
  {
    hide KraftOf, Total, Pow2, Shl, Moved, LastShorter;
    var overflow := overflow0;
    trail := [];
    while true
      invariant overflow > 0 && overflow % 2 == 0 && Overdrawn(blCount[..], max, overflow / 2, n, spare)
      invariant |trail| == (overflow0 - overflow) / 2 && Moves(old(blCount[..]), max, trail, blCount[..])
      decreases overflow
    {
      ghost var cnt: seq<nat> := blCount[..];
      ghost var from := Move(blCount, max, overflow / 2, n, spare);
      MovesMore(old(blCount[..]), max, trail, cnt, from);
      trail := trail + [from];
      overflow := overflow - 2;
      if overflow <= 0 { break; }
    }
  }
}
