/**
 The canonical order of the symbols: by code length, then by symbol.  The
 counting sort of `inflate_table` (zlib/inftrees.c:140-147) lists them in this order, and
 in it each code's interval begins where the previous one ends.
 */
module SortedSymbols {
  import opened BitOps
  import opened Canonical

  /** Where the symbols of length b begin in sorted order (`offs`). */
  function Offs(lens: seq<nat>, b: nat): nat {
    if b <= 1 then 0 else Offs(lens, b - 1) + Count(lens, b - 1)
  }

  function Index(lens: seq<nat>, s: nat): nat
    requires s < |lens|
  {
    Offs(lens, lens[s]) + CountBelow(lens, s, lens[s])
  }

  function Used(lens: seq<nat>): nat {
    Offs(lens, MAXBITS + 1)
  }

  ghost predicate Sorted(lens: seq<nat>, work: seq<nat>) {
    && Used(lens) <= |work|
    && (forall s :: 0 <= s < |lens| && lens[s] != 0 ==>
          Index(lens, s) < Used(lens) && work[Index(lens, s)] == s)
  }

  lemma {:induction false} OffsMono(lens: seq<nat>, a: nat, b: nat)
    requires 1 <= a <= b
    ensures Offs(lens, a) <= Offs(lens, b)
  {
    if a < b { OffsMono(lens, a, b - 1); }
  }

  lemma IndexBound(lens: seq<nat>, s: nat)
    requires s < |lens| && ValidLens(lens) && lens[s] != 0
    ensures Offs(lens, lens[s]) <= Index(lens, s) < Offs(lens, lens[s] + 1) <= Used(lens)
  {
    RankBound(lens, s);
    OffsMono(lens, lens[s] + 1, MAXBITS + 1);
  }

  lemma IndexInjective(lens: seq<nat>, s: nat, t: nat)
    requires s < t < |lens| && ValidLens(lens) && lens[s] != 0 && lens[t] != 0
    ensures Index(lens, s) != Index(lens, t)
  {
    IndexBound(lens, s);
    IndexBound(lens, t);
    if lens[s] == lens[t] {
      CountBelowMono(lens, s + 1, t, lens[s]);
    } else if lens[s] < lens[t] {
      OffsMono(lens, lens[s] + 1, lens[t]);
    } else {
      OffsMono(lens, lens[t] + 1, lens[s]);
    }
  }

  /** Lengths 1..b-1 among the first n symbols. */
  function OffsBelow(lens: seq<nat>, n: nat, b: nat): nat
    requires n <= |lens|
  {
    if b <= 1 then 0 else OffsBelow(lens, n, b - 1) + CountBelow(lens, n, b - 1)
  }

  lemma {:induction false} OffsBelowStep(lens: seq<nat>, n: nat, b: nat)
    requires n < |lens|
    ensures OffsBelow(lens, n + 1, b)
         == OffsBelow(lens, n, b) + (if 1 <= lens[n] < b then 1 else 0)
  {
    if b > 1 { OffsBelowStep(lens, n, b - 1); }
  }

  lemma {:induction false} OffsBelowBound(lens: seq<nat>, n: nat, b: nat)
    requires n <= |lens|
    ensures OffsBelow(lens, n, b) <= n
    ensures n == |lens| ==> OffsBelow(lens, n, b) == Offs(lens, b)
    decreases n, b
  {
    if b > 1 && n == |lens| { OffsBelowBound(lens, n, b - 1); }
    if n != 0 {
      OffsBelowStep(lens, n - 1, b);
      OffsBelowBound(lens, n - 1, b);
    } else if b > 1 {
      OffsBelowBound(lens, n, b - 1);
    }
  }

  lemma UsedBound(lens: seq<nat>)
    ensures Used(lens) <= |lens|
  {
    OffsBelowBound(lens, |lens|, MAXBITS + 1);
  }

  /** The length whose stretch of the sorted order holds position k. */
  lemma {:induction false} LengthAt(lens: seq<nat>, k: nat, b: nat) returns (l: nat)
    requires 1 <= b && k < Offs(lens, b)
    ensures 1 <= l < b && Offs(lens, l) <= k < Offs(lens, l + 1)
  {
    if k >= Offs(lens, b - 1) { l := b - 1; } else { l := LengthAt(lens, k, b - 1); }
  }

  /** Position k of the sorted order holds the symbol with index k. */
  lemma SortedAt(lens: seq<nat>, work: seq<nat>, k: nat)
    requires Sorted(lens, work) && k < Used(lens) && ValidLens(lens)
    ensures work[k] < |lens| && lens[work[k]] != 0 && Index(lens, work[k]) == k
  {
    var l := LengthAt(lens, k, MAXBITS + 1);
    var s := AtBelow(lens, |lens|, l, k - Offs(lens, l));
    assert Index(lens, s) == k;
  }

  /** Lengths with no symbol add nothing. */
  lemma {:induction false} EmptyLengths(lens: seq<nat>, a: nat, b: nat)
    requires 1 <= a <= b <= MAXBITS + 1 && Offs(lens, a) == Offs(lens, b)
    ensures KraftByLen(lens, a - 1) == KraftByLen(lens, b - 1)
  {
    if a < b {
      OffsMono(lens, a, b - 1);
      EmptyLengths(lens, a, b - 1);
      ShlOne(MAXBITS - (b - 1));
    }
  }

  lemma LastOfLength(lens: seq<nat>, s: nat)
    requires s < |lens| && ValidLens(lens) && lens[s] != 0
    requires Index(lens, s) + 1 == Offs(lens, lens[s] + 1)
    ensures End(lens, s) == KraftByLen(lens, lens[s])
  {
    var b := lens[s];
    FirstCodeStart(lens, b);
    ShlSucc(Code(lens, s), MAXBITS - b);
    ShlAdd(FirstCode(lens, b), Count(lens, b), MAXBITS - b);
  }

  /** In sorted order each interval ends where the next begins. */
  lemma NextStart(lens: seq<nat>, s: nat, t: nat)
    requires s < |lens| && t < |lens| && ValidLens(lens) && lens[s] != 0 && lens[t] != 0
    requires Index(lens, t) == Index(lens, s) + 1
    ensures End(lens, s) == Start(lens, t)
    ensures lens[s] <= lens[t]
    ensures lens[s] == lens[t] <==> Index(lens, s) + 1 < Offs(lens, lens[s] + 1)
  {
    IndexBound(lens, s);
    IndexBound(lens, t);
    var b, c := lens[s], lens[t];
    if c < b {
      OffsMono(lens, c + 1, b);
    } else if b == c {
      ShlSucc(Code(lens, s), MAXBITS - b);
    } else {
      OffsMono(lens, b + 1, c);
      LastOfLength(lens, s);
      EmptyLengths(lens, b + 1, c);
      FirstCodeStart(lens, c);
    }
  }

  lemma LastEnd(lens: seq<nat>, s: nat)
    requires s < |lens| && ValidLens(lens) && lens[s] != 0
    requires Index(lens, s) + 1 == Used(lens)
    ensures End(lens, s) == Kraft(lens)
  {
    IndexBound(lens, s);
    OffsMono(lens, lens[s] + 1, MAXBITS + 1);
    LastOfLength(lens, s);
    EmptyLengths(lens, lens[s] + 1, MAXBITS + 1);
    KraftGrouped(lens, |lens|);
  }

  lemma {:induction false} FirstStart(lens: seq<nat>, s: nat)
    requires s < |lens| && ValidLens(lens) && lens[s] != 0 && Index(lens, s) == 0
    ensures Start(lens, s) == 0
  {
    var b := lens[s];
    OffsMono(lens, 1, b);
    EmptyLengths(lens, 1, b);
    FirstCodeStart(lens, b);
  }
}
