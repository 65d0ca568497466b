/**
 What the bits of a stream begin with, said by the code lengths alone: the symbol whose
 canonical code they start with, or that they start with none.  Every table that
 `inflate_table` may build answers the same, and once the answer is covered by the bits
 already read, bits read later do not change it.
 */
module CodeLookup {
  import opened BitOps
  import opened Canonical
  import opened DecodeTable
  import opened SubTables
  import opened InflateTable

  /** Code lengths that a table can be built for. */
  ghost predicate GoodCode(t: CodeType, lens: seq<nat>) {
    |lens| <= MaxCodes(t) && ValidLens(lens) && Acceptable(t, lens)
  }

  ghost function CodeFound(t: CodeType, lens: seq<nat>, h: nat): (f: Found)
    requires |lens| <= MaxCodes(t)
    ensures f.bits > 0
  {
    if exists s: nat :: Matches(lens, s, h) then
      var s: nat :| Matches(lens, s, h);
      SymbolFound(t, lens, s)
    else InvalidFound
  }

  lemma FoundIs(t: CodeType, lens: seq<nat>, h: nat, s: nat)
    requires |lens| <= MaxCodes(t) && ValidLens(lens) && Kraft(lens) <= Pow2(MAXBITS) && Matches(lens, s, h)
    ensures CodeFound(t, lens, h) == SymbolFound(t, lens, s)
  {
    hide Matches, KraftBelow, Pow2;
    forall r: nat | Matches(lens, r, h) ensures r == s { PrefixFree(lens, r, s, h); }
  }

  /** A table read is the answer. */
  lemma LookupIs(t: CodeType, lens: seq<nat>, tab: seq<Entry>, root: nat, h: nat)
    requires |lens| <= MaxCodes(t) && TableFor(t, lens, tab, root)
    ensures Finds(tab, root, h, CodeFound(t, lens, h))
  {
    hide Matches, Finds;
    assert Decodes(t, lens, tab, root, h);
  }

  lemma {:induction false} NoneKraft(lens: seq<nat>, n: nat)
    requires n <= |lens| && ValidLens(lens) && forall i :: 0 <= i < |lens| ==> lens[i] == 0
    ensures KraftBelow(lens, n) == 0
  {
    if n != 0 { NoneKraft(lens, n - 1); }
  }

  lemma GoodKraft(t: CodeType, lens: seq<nat>)
    requires GoodCode(t, lens)
    ensures Kraft(lens) <= Pow2(MAXBITS)
  {
    hide KraftBelow, Pow2;
    if NoSymbols(lens) { NoneKraft(lens, |lens|); }
  }

  lemma LowSame(v: nat, w: nat, n: nat, k: nat)
    requires v < Pow2(n) && k <= n
    ensures Low(v + Shl(w, n), k) == Low(v, k)
  {
    hide Pow2, Low, Shl, Shr;
    SplitUnique(w, v, n);
    LowLow(v + Shl(w, n), k, n - k);
  }

  /** In an incomplete code only the first bit matters. */
  lemma MatchShort(t: CodeType, lens: seq<nat>, v: nat, n: nat, w: nat, s: nat)
    requires GoodCode(t, lens) && v < Pow2(n) && n >= 1 && Kraft(lens) != Pow2(MAXBITS)
    ensures Matches(lens, s, v + Shl(w, n)) <==> Matches(lens, s, v)
  {
    hide Pow2, Low, Shl, RevCode, KraftBelow;
    if s < |lens| && lens[s] != 0 {
      LowSame(v, w, n, lens[s]);
    }
  }

  /** More bits change nothing once the answer is covered by those that are there. */
  lemma FoundStable(t: CodeType, lens: seq<nat>, v: nat, n: nat, w: nat)
    requires GoodCode(t, lens) && v < Pow2(n) && CodeFound(t, lens, v).bits <= n
    ensures CodeFound(t, lens, v + Shl(w, n)) == CodeFound(t, lens, v)
  {
    hide Pow2, Low, Shl, RevCode, KraftBelow;
    GoodKraft(t, lens);
    var h := v + Shl(w, n);
    if s: nat :| Matches(lens, s, v) {
      FoundIs(t, lens, v, s);
      LowSame(v, w, n, lens[s]);
      FoundIs(t, lens, h, s);
    } else if s: nat :| Matches(lens, s, h) {
      if Kraft(lens) == Pow2(MAXBITS) {
        var r := Complete(lens, v);
      } else {
        MatchShort(t, lens, v, n, w, s);
      }
    }
  }

  /** The converse: an answer covered by fewer bits was there before more came. */
  lemma FoundEarlier(t: CodeType, lens: seq<nat>, v: nat, n: nat, w: nat)
    requires GoodCode(t, lens) && v < Pow2(n) && CodeFound(t, lens, v + Shl(w, n)).bits <= n
    ensures CodeFound(t, lens, v) == CodeFound(t, lens, v + Shl(w, n))
  {
    hide Pow2, Low, Shl, RevCode, KraftBelow;
    GoodKraft(t, lens);
    var h := v + Shl(w, n);
    if s: nat :| Matches(lens, s, h) {
      FoundIs(t, lens, h, s);
      LowSame(v, w, n, lens[s]);
      FoundIs(t, lens, v, s);
    } else if s: nat :| Matches(lens, s, v) {
      if Kraft(lens) == Pow2(MAXBITS) {
        var r := Complete(lens, h);
      } else {
        MatchShort(t, lens, v, n, w, s);
      }
    }
  }

  // ------------------------------------------------- when inflate_table succeeds

  lemma OneRoot(lens: seq<nat>, bits: nat, a: nat, b: nat)
    requires RootFor(lens, bits, a) && RootFor(lens, bits, b)
    ensures a == b
  {
    if a < b { RootOrder(lens, bits, a, b); }
    if b < a { RootOrder(lens, bits, b, a); }
  }

  lemma RootOrder(lens: seq<nat>, bits: nat, a: nat, b: nat)
    requires RootFor(lens, bits, a) && RootFor(lens, bits, b)
    ensures a >= b
  {
    hide CountBelow;
  }

  /** `inflate_table` returns 0. */
  ghost predicate Builds(t: CodeType, lens: seq<nat>, bits: nat, enough: nat)
    requires |lens| <= MaxCodes(t) && ValidLens(lens)
  {
    Acceptable(t, lens)
    && forall root: nat :: RootFor(lens, bits, root) && root <= MAXBITS && !NoSymbols(lens)
        ==> TableSize(lens, root, Pow2(root)) <= enough
  }
}
