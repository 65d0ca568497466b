/**
 `inflate_table` (zlib/inftrees.c:32-304), in place, proved to build a table that
 decodes the canonical code of the given lengths, to refuse exactly the length
 sets that are no such code, and to use exactly `TableSize` entries.
 */
module InflateTable {
  import opened BitOps
  import opened Canonical
  import opened DecodeTable
  import opened SortedSymbols
  import opened TableFilling
  import opened SubTables

  // ------------------------------------------------------------- moving along

  lemma {:induction false} LongestBounds(lens: seq<nat>, n: nat, root: nat, b: nat, s: nat)
    requires n <= |lens| && root <= MAXBITS && ValidLens(lens)
    requires s < n && InBlock(lens, root, b, s)
    ensures lens[s] <= LongestBelow(lens, n, root, b)
  {
    if s != n - 1 { LongestBounds(lens, n - 1, root, b, s); }
  }

  /** Counting the reversed code up gives the reversed code of the next symbol, whatever its length. */
  lemma NextCode(lens: seq<nat>, s: nat, t: nat)
    requires s < |lens| && t < |lens| && ValidLens(lens) && lens[s] != 0 && lens[t] != 0
    requires Index(lens, t) == Index(lens, s) + 1
    ensures RevIncrement(lens[s], RevCode(lens, s)) == RevCode(lens, t)
  {
    hide Pow2, Shl, Shr, Low, RevIncrement;
    NextStart(lens, s, t);
    ShlSucc(Code(lens, s), MAXBITS - lens[s]);
    RevIncrementIsSucc(lens[s], Code(lens, s));
    RevShl(lens[s], Code(lens, s) + 1, MAXBITS - lens[s]);
    RevShl(lens[t], Code(lens, t), MAXBITS - lens[t]);
  }

  /** The same at the end: the count wraps to zero exactly when the code is complete. */
  lemma LastCode(lens: seq<nat>, s: nat)
    requires s < |lens| && ValidLens(lens) && lens[s] != 0 && Index(lens, s) + 1 == Used(lens)
    ensures RevIncrement(lens[s], RevCode(lens, s)) == Rev(MAXBITS, Kraft(lens))
  {
    hide Rev, RevIncrement;
    LastEnd(lens, s);
    ShlSucc(Code(lens, s), MAXBITS - lens[s]);
    RevIncrementIsSucc(lens[s], Code(lens, s));
    RevShl(lens[s], Code(lens, s) + 1, MAXBITS - lens[s]);
  }

  lemma {:induction false} SortedOrder(lens: seq<nat>, s: nat, t: nat)
    requires s < |lens| && t < |lens| && ValidLens(lens) && lens[s] != 0 && lens[t] != 0
    requires Index(lens, s) < Index(lens, t)
    ensures lens[s] <= lens[t] && End(lens, s) <= Start(lens, t)
  {
    IndexBound(lens, s);
    IndexBound(lens, t);
    if lens[t] < lens[s] { OffsMono(lens, lens[t] + 1, lens[s]); }
    if lens[s] == lens[t] && t <= s { CountBelowMono(lens, t, s, lens[s]); }
    IntervalsOrdered(lens, s, t);
  }

  // ---------------------------------------------------------------- the table

  /** Reading a finished entry directly, or through a link, yields the symbol and its full length. */
  lemma LookupDirect(t: CodeType, lens: seq<nat>, tab: seq<Entry>, root: nat, h: nat, s: nat)
    requires s < |lens| <= MaxCodes(t) && Low(h, root) < |tab|
    requires lens[s] <= root && tab[Low(h, root)] == EntryFor(t, lens, s, 0)
    ensures Finds(tab, root, h, SymbolFound(t, lens, s))
  {
  }

  lemma LookupLinked(t: CodeType, lens: seq<nat>, tab: seq<Entry>, root: nat, h: nat, s: nat)
    requires s < |lens| <= MaxCodes(t) && Low(h, root) < |tab| && root < lens[s]
    requires var e := tab[Low(h, root)];
      && IsLink(e) && e.bits == root && e.val + Low(Shr(h, root), e.op) < |tab|
      && tab[e.val + Low(Shr(h, root), e.op)] == EntryFor(t, lens, s, root)
    ensures Finds(tab, root, h, SymbolFound(t, lens, s))
  {
    hide Low, Shr;
    LowLow(h, root, tab[Low(h, root)].op);
  }

  /** The entry that a served pattern beginning with the code of s ends at. */
  lemma ServedEntry(t: CodeType, lens: seq<nat>, tab: seq<Entry>, root: nat, c: Cursor, h: nat, s: nat)
    requires |lens| <= MaxCodes(t) && c.next + Pow2(c.curr) <= |tab| && Pow2(root) <= |tab|
    requires Matches(lens, s, h) && Served(t, lens, tab, root, c, h)
    ensures var e := tab[Low(h, root)];
      if IsLink(e) then
        && root < lens[s] && e.bits == root && e.val + Low(Shr(h, root), e.op) < |tab|
        && tab[e.val + Low(Shr(h, root), e.op)] == EntryFor(t, lens, s, root)
      else lens[s] <= root && e == EntryFor(t, lens, s, 0)
  {
    hide Matches, SymbolOp, SymbolVal, IsLink;
  }

  lemma ServedLookup(t: CodeType, lens: seq<nat>, tab: seq<Entry>, root: nat, c: Cursor, h: nat, s: nat)
    requires |lens| <= MaxCodes(t) && c.next + Pow2(c.curr) <= |tab| && Pow2(root) <= |tab|
    requires Matches(lens, s, h) && Served(t, lens, tab, root, c, h)
    ensures Finds(tab, root, h, SymbolFound(t, lens, s))
  {
    ServedEntry(t, lens, tab, root, c, h, s);
    if IsLink(tab[Low(h, root)]) {
      LookupLinked(t, lens, tab, root, h, s);
    } else {
      LookupDirect(t, lens, tab, root, h, s);
    }
  }

  /** A pattern that decodes to the one symbol it begins with decodes as it should. */
  lemma LookupDecodes(t: CodeType, lens: seq<nat>, tab: seq<Entry>, root: nat, h: nat, s: nat)
    requires |lens| <= MaxCodes(t) && ValidLens(lens) && Kraft(lens) <= Pow2(MAXBITS)
    requires Matches(lens, s, h) && Finds(tab, root, h, SymbolFound(t, lens, s))
    ensures Decodes(t, lens, tab, root, h)
  {
    forall i: nat | Matches(lens, i, h) ensures i == s { PrefixFree(lens, i, s, h); }
  }

  /** Patterns beyond the last code begin with no code. */
  lemma BeyondCodes(lens: seq<nat>, h: nat, s: nat)
    requires ValidLens(lens) && Kraft(lens) <= Pow2(MAXBITS) && Point(h) >= Kraft(lens)
    ensures !Matches(lens, s, h)
  {
    if Matches(lens, s, h) {
      MatchesIsInterval(lens, s, h);
      IntervalWithinLength(lens, s);
      KraftByLenMono(lens, lens[s], MAXBITS);
      KraftGrouped(lens, |lens|);
    }
  }

  /** Codes served and all other patterns marked invalid: the table is right. */
  lemma AllServed(t: CodeType, lens: seq<nat>, tab: seq<Entry>, root: nat, c: Cursor)
    requires |lens| <= MaxCodes(t) && c.next + Pow2(c.curr) <= |tab| && Pow2(root) <= |tab|
    requires ValidLens(lens) && Kraft(lens) <= Pow2(MAXBITS)
    requires ServedBelow(t, lens, tab, root, c, Kraft(lens))
    requires forall h: nat :: Point(h) >= Kraft(lens) ==> Finds(tab, root, h, InvalidFound)
    ensures TableFor(t, lens, tab, root)
  {
    forall h: nat ensures Decodes(t, lens, tab, root, h) {
      if Point(h) < Kraft(lens) {
        KraftGrouped(lens, |lens|);
        var s := Covered(lens, 1, Point(h));
        MatchesIsInterval(lens, s, h);
        assert Served(t, lens, tab, root, c, h);
        ServedLookup(t, lens, tab, root, c, h, s);
        LookupDecodes(t, lens, tab, root, h, s);
      } else {
        forall s: nat ensures !Matches(lens, s, h) { BeyondCodes(lens, h, s); }
      }
    }
  }

  /** With codes of one bit only, an incomplete set is a single code and leaves one entry. */
  lemma SingleCode(lens: seq<nat>)
    requires ValidLens(lens) && (forall i :: 0 <= i < |lens| ==> lens[i] <= 1)
    requires Count(lens, 1) > 0 && Kraft(lens) < Pow2(MAXBITS)
    ensures Kraft(lens) == Pow2(MAXBITS - 1)
  {
    hide Shl, ValidLens, CountBelow, KraftBelow, KraftByLenBelow;
    KraftGrouped(lens, |lens|);
    OnlyLength(lens, MAXBITS);
    ShlMono(2, Count(lens, 1), MAXBITS - 1);
    Pow2Add(1, MAXBITS - 1);
    ShlOne(MAXBITS - 1);
  }

  lemma UpperHalfOf(n: nat, h: nat)
    ensures Rev(n + 1, h) >= Pow2(n) <==> Low(h, 1) == 1
    ensures Rev(n + 1, Pow2(n)) == 1
  {
    assert Low(h, 1) == h % 2 + 2 * Low(h / 2, 0);
    RevShl(1, 1, n);
    ShlOne(n);
    assert Rev(1, 1) == Pow2(0) + Rev(0, 0);
  }

  /** The upper half of the line is the patterns whose first bit is one. */
  lemma UpperHalf(h: nat)
    ensures Point(h) >= Pow2(MAXBITS - 1) <==> Low(h, 1) == 1
    ensures Rev(MAXBITS, Pow2(MAXBITS - 1)) == 1
  {
    hide Rev, Pow2, Low;
    UpperHalfOf(MAXBITS - 1, h);
  }

  lemma {:induction false} OnlyLength(lens: seq<nat>, b: nat)
    requires (forall i :: 0 <= i < |lens| ==> lens[i] <= 1) && 1 <= b <= MAXBITS
    ensures KraftByLen(lens, b) == Shl(Count(lens, 1), MAXBITS - 1)
  {
    if b == 1 {
      assert KraftByLen(lens, 0) == 0;
    } else {
      OnlyLength(lens, b - 1);
      NoneOfLength(lens, |lens|, b);
      ShlOne(MAXBITS - b);
    }
  }

  lemma {:induction false} NoneOfLength(lens: seq<nat>, n: nat, b: nat)
    requires n <= |lens| && forall i :: 0 <= i < n ==> lens[i] != b
    ensures CountBelow(lens, n, b) == 0
  {
    if n != 0 { NoneOfLength(lens, n - 1, b); }
  }

  // ------------------------------------------------------------ the preparation

  lemma CountPositive(lens: seq<nat>, s: nat)
    requires s < |lens|
    ensures Count(lens, lens[s]) > 0
  {
    RankBound(lens, s);
  }

  ghost predicate Counted(lens: seq<nat>, count: array<nat>)
    reads count
  {
    count.Length == MAXBITS + 1 && forall b :: 0 <= b <= MAXBITS ==> count[b] == Count(lens, b)
  }

  /** zlib/inftrees.c:106-110. */
  method CountLengths(lens: seq<nat>, count: array<nat>)
    requires ValidLens(lens) && count.Length == MAXBITS + 1
    modifies count
    ensures Counted(lens, count)
  {
    for len := 0 to MAXBITS + 1
      invariant forall b :: 0 <= b < len ==> count[b] == 0
    {
      count[len] := 0;
    }
    for sym := 0 to |lens|
      invariant forall b :: 0 <= b <= MAXBITS ==> count[b] == CountBelow(lens, sym, b)
    {
      count[lens[sym]] := count[lens[sym]] + 1;
    }
  }

  /** zlib/inftrees.c:114-115: the longest length in use, or 0. */
  method LongestLength(lens: seq<nat>, count: array<nat>) returns (max: nat)
    requires ValidLens(lens) && Counted(lens, count)
    ensures max <= MAXBITS && forall i :: 0 <= i < |lens| ==> lens[i] <= max
    ensures max > 0 ==> Count(lens, max) > 0
  {
    max := MAXBITS;
    while max >= 1 && count[max] == 0
      invariant max <= MAXBITS
      invariant forall b :: max < b <= MAXBITS ==> Count(lens, b) == 0
    {
      max := max - 1;
    }
    forall i | 0 <= i < |lens| ensures lens[i] <= max { CountPositive(lens, i); }
  }

  /** zlib/inftrees.c:126-127: the shortest length in use. */
  method ShortestLength(lens: seq<nat>, count: array<nat>, max: nat) returns (min: nat)
    requires ValidLens(lens) && Counted(lens, count) && 1 <= max <= MAXBITS && Count(lens, max) > 0
    ensures 1 <= min <= max && Count(lens, min) > 0
    ensures forall b :: 1 <= b < min ==> Count(lens, b) == 0
    ensures forall i :: 0 <= i < |lens| ==> lens[i] == 0 || min <= lens[i]
  {
    min := 1;
    while min < max && count[min] == 0
      invariant 1 <= min <= max
      invariant forall b :: 1 <= b < min ==> Count(lens, b) == 0
    {
      min := min + 1;
    }
    forall i | 0 <= i < |lens| ensures lens[i] == 0 || min <= lens[i] { CountPositive(lens, i); }
  }

  /** `left` codes of l bits are still free after the codes of up to l bits. */
  ghost predicate FreeAt(lens: seq<nat>, l: nat, left: int)
    requires l <= MAXBITS
  {
    left >= 0 && Shl(left, MAXBITS - l) + KraftByLen(lens, l) == Pow2(MAXBITS)
  }

  lemma NextFree(lens: seq<nat>, l: nat, left: nat)
    requires ValidLens(lens) && 1 <= l <= MAXBITS && FreeAt(lens, l - 1, left)
    ensures if 2 * left >= Count(lens, l) then FreeAt(lens, l, 2 * left - Count(lens, l))
            else Kraft(lens) > Pow2(MAXBITS)
  {
    hide Pow2, ValidLens, CountBelow, KraftBelow;
    var c, d := Count(lens, l), MAXBITS - l;
    ShlDouble(left, d);
    if 2 * left >= c {
      ShlAdd(2 * left - c, c, d);
    } else {
      ShlMono(c, 2 * left, d);
      KraftByLenMono(lens, l, MAXBITS);
      KraftGrouped(lens, |lens|);
    }
  }

  lemma FreeEnds(lens: seq<nat>, left: int)
    requires ValidLens(lens)
    ensures FreeAt(lens, 0, 1)
    ensures FreeAt(lens, MAXBITS, left) ==> left + Kraft(lens) == Pow2(MAXBITS)
  {
    hide ValidLens, CountBelow, KraftBelow;
    Pow2Add(0, MAXBITS);
    KraftGrouped(lens, |lens|);
  }

  /** zlib/inftrees.c:130-138: what the codes leave free of 2^15, or -1 when they want more. */
  method LeftOver(lens: seq<nat>, count: array<nat>) returns (left: int)
    requires ValidLens(lens) && Counted(lens, count)
    ensures left == if Kraft(lens) <= Pow2(MAXBITS) then Pow2(MAXBITS) - Kraft(lens) else -1
  {
    hide Count, KraftBelow, Kraft, KraftByLenBelow, KraftByLen;
    left := 1;
    FreeEnds(lens, left);
    for len := 1 to MAXBITS + 1
      invariant FreeAt(lens, len - 1, left)
    {
      NextFree(lens, len, left);
      left := left * 2;
      left := left - count[len];
      if left < 0 {
        return -1;
      }
    }
    FreeEnds(lens, left);
  }

  /** zlib/inftrees.c:140-143. */
  method Offsets(ghost lens: seq<nat>, count: array<nat>) returns (offs: array<nat>)
    requires Counted(lens, count)
    ensures fresh(offs) && offs.Length == MAXBITS + 1
    ensures forall b :: 1 <= b <= MAXBITS ==> offs[b] == Offs(lens, b)
  {
    hide CountBelow, Count;
    offs := new nat[MAXBITS + 1];
    offs[1] := 0;
    for len := 1 to MAXBITS
      invariant forall b :: 1 <= b <= len ==> offs[b] == Offs(lens, b)
    {
      offs[len + 1] := offs[len] + count[len];
    }
  }

  /** The symbols below n are in their places, and offs says where the next ones go. */
  ghost predicate Placed(lens: seq<nat>, n: nat, offs: seq<nat>, work: seq<nat>) {
    && n <= |lens| <= |work| && |offs| == MAXBITS + 1
    && (forall b :: 1 <= b <= MAXBITS ==> offs[b] == Offs(lens, b) + CountBelow(lens, n, b))
    && (forall s: nat :: s < n && lens[s] != 0 ==> Index(lens, s) < Used(lens) <= |work| && work[Index(lens, s)] == s)
  }

  lemma NewPlace(lens: seq<nat>, n: nat)
    requires n < |lens| && ValidLens(lens) && lens[n] != 0
    ensures Index(lens, n) < Used(lens) <= |lens|
    ensures forall s: nat :: s < n && lens[s] != 0 ==> Index(lens, s) != Index(lens, n)
  {
    UsedBound(lens);
    IndexBound(lens, n);
    forall s: nat | s < n && lens[s] != 0 ensures Index(lens, s) != Index(lens, n) {
      IndexInjective(lens, s, n);
    }
  }

  lemma PlaceOne(lens: seq<nat>, n: nat, offs: seq<nat>, work: seq<nat>)
    requires ValidLens(lens) && Placed(lens, n, offs, work) && n < |lens|
    ensures lens[n] == 0 ==> Placed(lens, n + 1, offs, work)
    ensures lens[n] != 0 ==> offs[lens[n]] == Index(lens, n) < |work|
                             && Placed(lens, n + 1, offs[lens[n] := offs[lens[n]] + 1], work[Index(lens, n) := n])
  {
    if lens[n] != 0 { NewPlace(lens, n); }
  }

  /** zlib/inftrees.c:140-147: a counting sort. */
  method SortSymbols(lens: seq<nat>, count: array<nat>, work: array<nat>)
    requires ValidLens(lens) && Counted(lens, count) && work.Length >= |lens| && work != count
    modifies work
    ensures Sorted(lens, work[..])
  {
    hide Offs;
    var offs := Offsets(lens, count);
    UsedBound(lens);
    for sym := 0 to |lens|
      invariant Placed(lens, sym, offs[..], work[..])
    {
      ghost var o, w := offs[..], work[..];
      PlaceOne(lens, sym, o, w);
      var len := lens[sym];
      if len != 0 {
        work[offs[len]] := sym;
        offs[len] := offs[len] + 1;
        assert offs[..] == o[len := o[len] + 1] && work[..] == w[Index(lens, sym) := sym];
      }
    }
  }

  // ----------------------------------------------------------- the filling loop

  /** The symbol about to be entered, and the first block without a sub-table of its own yet. */
  ghost predicate AtSymbol(lens: seq<nat>, work: seq<nat>, k: nat, s: nat) {
    && ValidLens(lens) && Sorted(lens, work) && k < Used(lens)
    && s == work[k] && s < |lens| && lens[s] != 0 && Index(lens, s) == k
  }

  ghost function BlocksDone(lens: seq<nat>, root: nat, c: Cursor, s: nat): nat
    requires s < |lens| && ValidLens(lens) && root <= MAXBITS
  {
    if c.drop == 0 then 0 else Block(root, Start(lens, s)) + 1
  }

  /** The table part of the loop invariant, with symbol s next. */
  ghost predicate CursorAt(lens: seq<nat>, tab: seq<Entry>, root: nat, c: Cursor, used: nat, s: nat)
    requires s < |lens| && ValidLens(lens)
  {
    && 1 <= root <= MAXBITS && ValidCursor(root, c, used) && Pow2(root) <= used <= |tab|
    && Fits(tab, root, c, RevCode(lens, s), lens[s])
    && used == TableSize(lens, root, BlocksDone(lens, root, c, s))
    && (c.drop != 0 ==>
          LongestBelow(lens, |lens|, root, Block(root, Start(lens, s))) == root + c.curr)
  }

  /** Does the code of s, after others, call for a new sub-table (zlib/inftrees.c:258)? */
  ghost predicate NeedsTable(lens: seq<nat>, root: nat, c: Cursor, s: nat)
    requires s < |lens|
  {
    lens[s] > root && (c.drop == 0 || Low(RevCode(lens, s), root) != c.low)
  }

  /** Block numbers and root indices determine each other. */
  lemma SameRootIndex(lens: seq<nat>, root: nat, s: nat, t: nat)
    requires s < |lens| && t < |lens| && ValidLens(lens) && Kraft(lens) <= Pow2(MAXBITS)
    requires 1 <= root <= lens[s] && root <= lens[t]
    ensures Low(RevCode(lens, s), root) == Low(RevCode(lens, t), root)
       <==> Block(root, Start(lens, s)) == Block(root, Start(lens, t))
  {
    CodeIsInBlock(lens, root, s);
    CodeIsInBlock(lens, root, t);
    RevRev(root, Block(root, Start(lens, s)));
    RevRev(root, Block(root, Start(lens, t)));
    LowSmall(Block(root, Start(lens, s)), root);
    LowSmall(Block(root, Start(lens, t)), root);
  }

  /** No new sub-table: the next symbol goes where this one went. */
  lemma StayInTable(lens: seq<nat>, tab: seq<Entry>, root: nat, c: Cursor, used: nat, s: nat, t: nat)
    requires s < |lens| && t < |lens| && ValidLens(lens) && lens[s] != 0 && lens[t] != 0
    requires Kraft(lens) <= Pow2(MAXBITS) && Index(lens, t) == Index(lens, s) + 1
    requires CursorAt(lens, tab, root, c, used, s) && !NeedsTable(lens, root, c, t)
    ensures CursorAt(lens, tab, root, c, used, t)
  {
    hide SubTableSize;
    NextStart(lens, s, t);
    if c.drop != 0 {
      SameRootIndex(lens, root, s, t);
      LongestBounds(lens, |lens|, root, Block(root, Start(lens, t)), t);
    }
  }

  /** Every code in an earlier block than that of t comes before t. */
  lemma EarlierBlock(lens: seq<nat>, root: nat, s: nat, t: nat, i: nat)
    requires s < |lens| && t < |lens| && i < |lens| && ValidLens(lens) && root <= MAXBITS
    requires lens[s] != 0 && lens[t] != 0 && lens[i] != 0
    requires Index(lens, t) == Index(lens, s) + 1
    requires Block(root, Start(lens, i)) < Block(root, Start(lens, t))
    ensures lens[i] <= lens[s]
  {
    if Index(lens, i) > Index(lens, t) {
      SortedOrder(lens, t, i);
      ShrMono(Start(lens, t), Start(lens, i), MAXBITS - root);
    } else if Index(lens, i) == Index(lens, t) {
      if i < t { IndexInjective(lens, i, t); } else if t < i { IndexInjective(lens, t, i); }
    } else if Index(lens, i) < Index(lens, s) {
      SortedOrder(lens, i, s);
    } else if i < s {
      IndexInjective(lens, i, s);
    } else if s < i {
      IndexInjective(lens, s, i);
    }
  }

  /** When s is in the first table, no block before that of the next symbol t has a sub-table. */
  lemma NoneBefore(lens: seq<nat>, root: nat, s: nat, t: nat)
    requires s < |lens| && t < |lens| && ValidLens(lens) && lens[s] != 0 && lens[t] != 0
    requires Kraft(lens) <= Pow2(MAXBITS) && Index(lens, t) == Index(lens, s) + 1 && lens[s] <= root <= MAXBITS
    ensures TableSize(lens, root, Block(root, Start(lens, t))) == TableSize(lens, root, 0)
  {
    forall i: nat, b | 0 <= b < Block(root, Start(lens, t)) && InBlock(lens, root, b, i)
      ensures lens[i] <= root
    {
      EarlierBlock(lens, root, s, t, i);
    }
    NoSubTables(lens, root, 0, Block(root, Start(lens, t)));
  }

  /** In sorted order each code starts where the one before it, plus one, points. */
  lemma StartAfter(lens: seq<nat>, s: nat, t: nat)
    requires s < |lens| && t < |lens| && ValidLens(lens) && lens[s] != 0 && lens[t] != 0
    requires Index(lens, t) == Index(lens, s) + 1
    ensures Start(lens, t) == Shl(Code(lens, s) + 1, MAXBITS - lens[s])
  {
    NextStart(lens, s, t);
    ShlSucc(Code(lens, s), MAXBITS - lens[s]);
  }

  lemma StartsAfterFirst(lens: seq<nat>, root: nat, s: nat, t: nat)
    requires s < |lens| && t < |lens| && ValidLens(lens) && lens[s] != 0 && lens[t] != 0
    requires Kraft(lens) <= Pow2(MAXBITS) && Index(lens, t) == Index(lens, s) + 1 && lens[s] <= root <= MAXBITS
    ensures Low(Start(lens, t), MAXBITS - root) == 0
    ensures TableSize(lens, root, Block(root, Start(lens, t))) == TableSize(lens, root, 0)
  {
    StartAfter(lens, s, t);
    LowOfShl(Code(lens, s) + 1, MAXBITS - root, MAXBITS - lens[s]);
    NoneBefore(lens, root, s, t);
  }

  lemma StartsAfterBlock(lens: seq<nat>, root: nat, s: nat, t: nat)
    requires s < |lens| && t < |lens| && ValidLens(lens) && lens[s] != 0 && lens[t] != 0
    requires Index(lens, t) == Index(lens, s) + 1 && root <= lens[s]
    requires root <= MAXBITS && Block(root, Start(lens, t)) != Block(root, Start(lens, s))
    ensures Low(Start(lens, t), MAXBITS - root) == 0
    ensures Block(root, Start(lens, t)) == Block(root, Start(lens, s)) + 1
  {
    StartAfter(lens, s, t);
    NextBlock(root, Code(lens, s), lens[s]);
  }

  /** A new sub-table always starts at the first point of a block with no table yet. */
  lemma StartsBlock(lens: seq<nat>, tab: seq<Entry>, root: nat, c: Cursor, used: nat, s: nat, t: nat)
    requires s < |lens| && t < |lens| && ValidLens(lens) && lens[s] != 0 && lens[t] != 0
    requires Kraft(lens) <= Pow2(MAXBITS) && Index(lens, t) == Index(lens, s) + 1
    requires CursorAt(lens, tab, root, c, used, s) && NeedsTable(lens, root, c, t)
    ensures Low(Start(lens, t), MAXBITS - root) == 0
    ensures used == TableSize(lens, root, Block(root, Start(lens, t)))
  {
    if c.drop == 0 {
      StartsAfterFirst(lens, root, s, t);
    } else {
      SameRootIndex(lens, root, s, t);
      StartsAfterBlock(lens, root, s, t);
    }
  }

  lemma NextTableSize(lens: seq<nat>, root: nat, b: nat, curr: nat)
    requires ValidLens(lens) && root <= MAXBITS && curr > 0
    requires LongestBelow(lens, |lens|, root, b) == root + curr
    ensures TableSize(lens, root, b + 1) == TableSize(lens, root, b) + Pow2(curr)
  {
  }

  /** With the sub-table linked, the next symbol fits in it. */
  lemma EnterTable(lens: seq<nat>, tab: seq<Entry>, root: nat, c: Cursor, used: nat, t: nat)
    requires t < |lens| && ValidLens(lens) && Kraft(lens) <= Pow2(MAXBITS)
    requires 1 <= root < lens[t] <= root + c.curr <= MAXBITS
    requires c.drop == root && c.low == Low(RevCode(lens, t), root) && Pow2(root) <= c.next
    requires c.next == TableSize(lens, root, Block(root, Start(lens, t)))
    requires used == c.next + Pow2(c.curr) <= |tab|
    requires LongestBelow(lens, |lens|, root, Block(root, Start(lens, t))) == root + c.curr
    requires tab[c.low] == Entry(c.curr, root, c.next)
    ensures CursorAt(lens, tab, root, c, used, t)
  {
    hide LongestBelow, SubTableSize, TableSize;
    NextTableSize(lens, root, Block(root, Start(lens, t)), c.curr);
    assert Fits(tab, root, c, RevCode(lens, t), lens[t]);
  }

  /** After the last symbol no further sub-table is due. */
  lemma AllTables(lens: seq<nat>, tab: seq<Entry>, root: nat, c: Cursor, used: nat, s: nat)
    requires s < |lens| && ValidLens(lens) && lens[s] != 0
    requires CursorAt(lens, tab, root, c, used, s) && Index(lens, s) + 1 == Used(lens)
    requires Kraft(lens) <= Pow2(MAXBITS)
    ensures used == TableSize(lens, root, Pow2(root))
  {
    hide TableSize, Pow2, Shl, Shr, Low;
    var d := BlocksDone(lens, root, c, s);
    CodeFits(lens, s);
    if c.drop != 0 { CodeIsInBlock(lens, root, s); }
    forall i: nat, b | d <= b < Pow2(root) && InBlock(lens, root, b, i) ensures lens[i] <= root {
      IndexBound(lens, i);
      if Index(lens, i) == Index(lens, s) {
        if i < s { IndexInjective(lens, i, s); } else if s < i { IndexInjective(lens, s, i); }
      } else {
        SortedOrder(lens, i, s);
        ShrMono(Start(lens, i), Start(lens, s), MAXBITS - root);
      }
    }
    NoSubTables(lens, root, d, Pow2(root));
  }

  // ------------------------------------------------------------ the loop itself

  /** The table from its start on, as links count. */
  ghost function View(table: array<Entry>, at: nat): (v: seq<Entry>)
    requires at <= table.Length
    reads table
    ensures |v| == table.Length - at
  {
    table[at..]
  }

  /** `FillEntries` at the cursor of a table that starts at `at`. */
  method FillAtCursor(table: array<Entry>, at: nat, c: Cursor, x: nat, l: nat, here: Entry)
    requires c.drop <= l <= c.drop + c.curr && x < Pow2(l)
    requires at + c.next + Pow2(c.curr) <= table.Length
    modifies table
    ensures table[..at] == old(table[..at])
    ensures Entered(old(View(table, at)), View(table, at), c, x, l, here)
  {
    ShrBound(x, c.drop, l - c.drop);
    FillEntries(table, at + c.next, c.curr, l - c.drop, Shr(x, c.drop), here);
    forall i | 0 <= i < table.Length - at
      ensures old(View(table, at))[i] == old(table[..])[at + i] && View(table, at)[i] == table[..][at + i]
    {
    }
  }

  lemma RootEntryKept(tab: seq<Entry>, tab': seq<Entry>, root: nat, c: Cursor, x: nat, l: nat, here: Entry)
    requires c.drop <= l && Entered(tab, tab', c, x, l, here) && c.low < c.next && c.low < |tab|
    ensures tab'[c.low] == tab[c.low]
  {
  }

  lemma CursorKept(lens: seq<nat>, tab: seq<Entry>, tab': seq<Entry>, root: nat, c: Cursor, used: nat, s: nat)
    requires s < |lens| && ValidLens(lens) && CursorAt(lens, tab, root, c, used, s)
    requires |tab'| == |tab| && (c.drop != 0 ==> tab'[c.low] == tab[c.low])
    ensures CursorAt(lens, tab', root, c, used, s)
  {
  }

  /** zlib/inftrees.c:215-237: make the entry of a symbol and replicate it. */
  method EnterSymbol(t: CodeType, ghost lens: seq<nat>, table: array<Entry>, at: nat, ghost root: nat,
                     c: Cursor, ghost used: nat, sym: nat, len: nat, huff: nat)
    requires sym < |lens| <= MaxCodes(t) && ValidLens(lens) && Kraft(lens) <= Pow2(MAXBITS)
    requires len == lens[sym] != 0 && huff == RevCode(lens, sym)
    requires at <= table.Length && CursorAt(lens, View(table, at), root, c, used, sym)
    requires ServedBelow(t, lens, View(table, at), root, c, Start(lens, sym))
    modifies table
    ensures table[..at] == old(table[..at])
    ensures CursorAt(lens, View(table, at), root, c, used, sym)
    ensures ServedBelow(t, lens, View(table, at), root, c, End(lens, sym))
  {
    hide Count;
    var here := Entry(SymbolOp(t, sym), len - c.drop, SymbolVal(t, sym));
    ghost var tab := View(table, at);
    FillAtCursor(table, at, c, huff, len, here);
    ghost var tab' := View(table, at);
    if c.drop != 0 { RootEntryKept(tab, tab', root, c, huff, len, here); }
    CursorKept(lens, tab, tab', root, c, used, sym);
    FillStep(t, lens, tab, tab', root, c, used, sym);
  }

  /** Before the loop: the first symbol has the shortest length and code zero. */
  lemma FirstSymbol(lens: seq<nat>, work: seq<nat>, min: nat)
    requires ValidLens(lens) && Sorted(lens, work) && 1 <= min <= MAXBITS
    requires Count(lens, min) > 0 && forall b :: 1 <= b < min ==> Count(lens, b) == 0
    ensures 0 < Used(lens) && AtSymbol(lens, work, 0, work[0])
    ensures lens[work[0]] == min && RevCode(lens, work[0]) == 0 && Start(lens, work[0]) == 0
  {
    OffsMono(lens, min + 1, MAXBITS + 1);
    SortedAt(lens, work, 0);
    var l := lens[work[0]];
    CountPositive(lens, work[0]);
    if l > min { OffsMono(lens, min + 1, l); }
    FirstStart(lens, work[0]);
    ShlOne(MAXBITS - l);
    ShlMono(1, Code(lens, work[0]), MAXBITS - l);
    assert Rev(l, 0) == 0 by { RevZero(l); }
  }

  lemma {:induction false} RevZero(n: nat)
    ensures Rev(n, 0) == 0
  {
    if n != 0 { RevZero(n - 1); }
  }

  lemma FirstCursor(lens: seq<nat>, tab: seq<Entry>, root: nat, s: nat)
    requires s < |lens| && ValidLens(lens) && 1 <= lens[s] <= root <= MAXBITS && Pow2(root) <= |tab|
    ensures CursorAt(lens, tab, root, Cursor(0, 0, root, 0), Pow2(root), s)
  {
  }

  /** What the count of a length says after one of its symbols has been entered. */
  lemma NextSymbol(lens: seq<nat>, work: seq<nat>, k: nat, s: nat, max: nat)
    requires AtSymbol(lens, work, k, s) && lens[s] <= max <= MAXBITS && Count(lens, max) > 0
    requires forall i :: 0 <= i < |lens| ==> lens[i] <= max
    ensures Remaining(lens, lens[s], k) >= 1
    ensures Remaining(lens, lens[s], k) == 1 && lens[s] == max <==> k + 1 == Used(lens)
    ensures k + 1 < Used(lens) ==>
      && AtSymbol(lens, work, k + 1, work[k + 1]) && lens[s] <= lens[work[k + 1]]
      && (Remaining(lens, lens[s], k) == 1 || lens[work[k + 1]] == lens[s])
  {
    hide FirstCode, Code, Start, End, Index;
    IndexBound(lens, s);
    if k + 1 < Used(lens) {
      SortedAt(lens, work, k + 1);
      NextStart(lens, s, work[k + 1]);
    } else {
      OffsMono(lens, lens[s] + 1, max + 1);
      OffsMono(lens, max + 1, MAXBITS + 1);
    }
    if lens[s] < max { OffsMono(lens, lens[s] + 1, max); }
    if lens[s] == max { NoLonger(lens, max, MAXBITS + 1); }
  }

  lemma {:induction false} NoLonger(lens: seq<nat>, max: nat, b: nat)
    requires (forall i :: 0 <= i < |lens| ==> lens[i] <= max) && max + 1 <= b
    ensures Offs(lens, b) == Offs(lens, max + 1)
  {
    if b > max + 1 {
      NoLonger(lens, max, b - 1);
      NoneOfLength(lens, |lens|, b - 1);
    }
  }

  /** Entering a symbol leaves the counts right for the next one. */
  lemma CountedDown(lens: seq<nat>, s: nat, l: nat)
    requires s < |lens| && ValidLens(lens) && 1 <= lens[s] <= l <= MAXBITS
    ensures var k := Index(lens, s);
      Remaining(lens, l, k + 1) == Remaining(lens, l, k) - (if l == lens[s] then 1 else 0)
  {
    IndexBound(lens, s);
    if l > lens[s] { OffsMono(lens, lens[s] + 1, l); }
  }

  method WriteEntry(table: array<Entry>, at: nat, i: nat, e: Entry)
    requires at + i < table.Length
    modifies table
    ensures table[..at] == old(table[..at])
    ensures View(table, at) == old(View(table, at))[i := e]
  {
    table[at + i] := e;
  }

  /** zlib/inftrees.c:257-287: start a new sub-table for the symbol about to be entered. */
  method OpenTable(ty: CodeType, ghost lens: seq<nat>, table: array<Entry>, at: nat, count: array<nat>,
                   root: nat, max: nat, c: Cursor, used: nat, ghost s: nat, ghost t: nat,
                   len: nat, huff: nat, enough: nat)
    returns (ok: bool, c': Cursor, used': nat)
    requires |lens| <= MaxCodes(ty) && ValidLens(lens) && Kraft(lens) <= Pow2(MAXBITS)
    requires s < |lens| && t < |lens| && lens[s] != 0 && lens[t] != 0
    requires Index(lens, t) == Index(lens, s) + 1 && len == lens[t] && huff == RevCode(lens, t)
    requires at + enough <= table.Length && used <= enough && root <= MAXBITS
      && (ty == CODES ==> TableSize(lens, root, Pow2(root)) <= enough)
    requires CursorAt(lens, View(table, at), root, c, used, s) && NeedsTable(lens, root, c, t)
    requires ServedBelow(ty, lens, View(table, at), root, c, Start(lens, t))
    requires count.Length == MAXBITS + 1 && CountsFrom(lens, count, len, Index(lens, t))
    requires max <= MAXBITS && Count(lens, max) > 0 && forall i :: 0 <= i < |lens| ==> lens[i] <= max
    modifies table
    ensures table[..at] == old(table[..at])
    ensures !ok ==> ty != CODES && TableSize(lens, root, Pow2(root)) > enough
    ensures ok ==> used' <= enough && c'.drop != 0 && CursorAt(lens, View(table, at), root, c', used', t)
    ensures ok ==> ServedBelow(ty, lens, View(table, at), root, c', Start(lens, t))
  {
    hide Code, Kraft, RevCode, LongestBelow, SubTableSize, Shl, Shr, Low;
    StartsBlock(lens, View(table, at), root, c, used, s, t);
    CodeIsInBlock(lens, root, t);
    ghost var b := Block(root, Start(lens, t));
    var next := c.next + Pow2(c.curr);
    var curr := SubTableBits(lens, t, count, len, root, max);
    NextTableSize(lens, root, b, curr);
    used' := used + Pow2(curr);
    TableSizeMono(lens, root, b + 1, Pow2(root));
    var low := Low(huff, root);
    c' := Cursor(root, next, curr, low);
    if ty != CODES && used' > enough {
      return false, c', used';
    }
    ghost var tab := View(table, at);
    WriteEntry(table, at, low, Entry(curr, root, next));
    NewTable(ty, lens, tab, root, c, c', used, used', Start(lens, t));
    EnterTable(lens, View(table, at), root, c', used', t);
    ok := true;
  }

  lemma CompleteWraps()
    ensures Rev(MAXBITS, Pow2(MAXBITS)) == 0
  {
    hide Pow2, Shl;
    ShlOne(MAXBITS);
    RevShl(0, 1, MAXBITS);
  }

  lemma InvalidRest(tab: seq<Entry>, h: nat)
    requires |tab| >= 2 && tab[1] == Invalid && Low(h, 1) == 1
    ensures Finds(tab, 1, h, InvalidFound)
  {
  }

  /** Marking the free entry of a single one-bit code completes the table. */
  lemma RestMarked(t: CodeType, lens: seq<nat>, tab: seq<Entry>, c: Cursor)
    requires |lens| <= MaxCodes(t) && ValidLens(lens) && Kraft(lens) == Pow2(MAXBITS - 1)
    requires c.drop == 0 && c.next + Pow2(c.curr) <= |tab| && 2 <= |tab| && Pow2(1) == 2
    requires ServedBelow(t, lens, tab, 1, c, Kraft(lens))
    ensures TableFor(t, lens, tab[1 := Invalid], 1)
  {
    var tab' := tab[1 := Invalid];
    forall h: nat | Point(h) < Kraft(lens) ensures Served(t, lens, tab', 1, c, h) {
      UpperHalf(h);
      assert Served(t, lens, tab, 1, c, h);
      ServedBySame(t, lens, tab, tab', 1, c, c, h);
    }
    forall h: nat | Point(h) >= Kraft(lens) ensures Finds(tab', 1, h, InvalidFound) {
      UpperHalf(h);
      InvalidRest(tab', h);
    }
    AllServed(t, lens, tab', 1, c);
  }

  /** zlib/inftrees.c:290-298: mark the one entry that an incomplete code leaves. */
  method FinishTable(t: CodeType, ghost lens: seq<nat>, table: array<Entry>, at: nat, ghost root: nat,
                     c: Cursor, ghost used: nat, huff: nat, len: nat, ghost s: nat)
    requires s < |lens| <= MaxCodes(t) && ValidLens(lens) && Kraft(lens) <= Pow2(MAXBITS)
    requires Kraft(lens) < Pow2(MAXBITS)
      ==> root == 1 && Count(lens, 1) > 0 && forall i :: 0 <= i < |lens| ==> lens[i] <= 1
    requires len == lens[s] != 0 && Index(lens, s) + 1 == Used(lens)
    requires huff == RevIncrement(len, RevCode(lens, s))
    requires at <= table.Length && CursorAt(lens, View(table, at), root, c, used, s)
    requires ServedBelow(t, lens, View(table, at), root, c, End(lens, s))
    modifies table
    ensures table[..at] == old(table[..at])
    ensures used == TableSize(lens, root, Pow2(root)) && at + used <= table.Length
    ensures TableFor(t, lens, View(table, at)[..used], root)
  {
    hide Rev, RevCode, Matches, Point, MaxCodes;
    LastCode(lens, s);
    LastEnd(lens, s);
    AllTables(lens, View(table, at), root, c, used, s);
    CompleteWraps();
    if Kraft(lens) < Pow2(MAXBITS) {
      SingleCode(lens);
      UpperHalf(0);
      assert Pow2(root) == 2 * Pow2(0);
    }
    ghost var tab := View(table, at)[..used];
    ServedWithin(t, lens, View(table, at), root, c, used, End(lens, s));
    if huff != 0 {
      WriteEntry(table, at, c.next + huff, Entry(64, len - c.drop, 0));
      RestMarked(t, lens, tab, c);
      assert View(table, at)[..used] == tab[1 := Invalid];
    } else {
      AllServed(t, lens, tab, root, c);
    }
  }

  /** No pattern served reads past the entries in use. */
  lemma ServedWithin(t: CodeType, lens: seq<nat>, tab: seq<Entry>, root: nat, c: Cursor, used: nat, pt: nat)
    requires |lens| <= MaxCodes(t) && ValidCursor(root, c, used) && Pow2(root) <= used <= |tab|
    requires ServedBelow(t, lens, tab, root, c, pt)
    ensures ServedBelow(t, lens, tab[..used], root, c, pt)
  {
    hide Matches, Pow2, Low, Point;
    forall h: nat | Point(h) < pt ensures Served(t, lens, tab[..used], root, c, h) {
      assert Served(t, lens, tab, root, c, h);
      LowBelow(h, root);
      var e := tab[Low(h, root)];
      assert tab[..used][Low(h, root)] == e;
      LowBelow(Shr(h, root), e.op);
    }
  }

  lemma LowBelow(x: nat, k: nat)
    ensures Low(x, k) < Pow2(k)
  {
  }

  /** The loop invariant, with the symbol at position sym of the sorted order next. */
  ghost predicate LoopAt(t: CodeType, lens: seq<nat>, work: seq<nat>, table: array<Entry>, at: nat,
                         count: array<nat>, root: nat, c: Cursor, used: nat, sym: nat, len: nat, huff: nat)
    requires |lens| <= MaxCodes(t) && at <= table.Length && count.Length == MAXBITS + 1
    reads table, count
  {
    && sym < |work| && AtSymbol(lens, work, sym, work[sym])
    && len == lens[work[sym]] && huff == RevCode(lens, work[sym])
    && CursorAt(lens, View(table, at), root, c, used, work[sym])
    && ServedBelow(t, lens, View(table, at), root, c, Start(lens, work[sym]))
    && CountsFrom(lens, count, len, sym)
  }

  /** zlib/inftrees.c:215-255: enter one symbol and count it off. */
  method EnterNext(t: CodeType, ghost lens: seq<nat>, work: array<nat>, table: array<Entry>, at: nat,
                   count: array<nat>, ghost root: nat, ghost max: nat, c: Cursor, ghost used: nat,
                   sym: nat, len: nat, huff: nat)
    returns (huff': nat)
    requires |lens| <= MaxCodes(t) && at <= table.Length && count.Length == MAXBITS + 1 && count != work
    requires LoopAt(t, lens, work[..], table, at, count, root, c, used, sym, len, huff)
    requires Kraft(lens) <= Pow2(MAXBITS)
    requires max <= MAXBITS && Count(lens, max) > 0 && forall i :: 0 <= i < |lens| ==> lens[i] <= max
    modifies table, count
    ensures table[..at] == old(table[..at])
    ensures CursorAt(lens, View(table, at), root, c, used, work[sym])
    ensures ServedBelow(t, lens, View(table, at), root, c, End(lens, work[sym]))
    ensures huff' == RevIncrement(len, huff)
    ensures CountsFrom(lens, count, len, sym + 1)
    ensures count[len] == 0 && len == max <==> sym + 1 == Used(lens)
    ensures sym + 1 < Used(lens) ==>
      && AtSymbol(lens, work[..], sym + 1, work[sym + 1])
      && len <= lens[work[sym + 1]] && (count[len] != 0 ==> lens[work[sym + 1]] == len)
  {
    ghost var s := work[sym];
    assert work[..][sym] == s;
    NextSymbol(lens, work[..], sym, s, max);
    forall b | len <= b <= MAXBITS
      ensures Remaining(lens, b, sym + 1) == Remaining(lens, b, sym) - (if b == len then 1 else 0)
    {
      CountedDown(lens, s, b);
    }
    EnterSymbol(t, lens, table, at, root, c, used, work[sym], len, huff);
    huff' := BackwardsIncrement(huff, len);
    count[len] := count[len] - 1;
  }

  /** zlib/inftrees.c:257-287: the next symbol goes into this table or a new one. */
  method PlaceNext(t: CodeType, ghost lens: seq<nat>, ghost ws: seq<nat>, table: array<Entry>, at: nat,
                   count: array<nat>, root: nat, max: nat, c: Cursor, used: nat,
                   ghost sym: nat, ghost s: nat, len: nat, huff: nat, enough: nat)
    returns (ok: bool, c': Cursor, used': nat)
    requires |lens| <= MaxCodes(t) && count.Length == MAXBITS + 1
    requires max <= MAXBITS && Count(lens, max) > 0 && forall i :: 0 <= i < |lens| ==> lens[i] <= max
    requires at + enough <= table.Length && used <= enough && root <= MAXBITS
      && (t == CODES ==> TableSize(lens, root, Pow2(root)) <= enough)
    requires s < |lens| && ValidLens(lens) && Kraft(lens) <= Pow2(MAXBITS)
    requires lens[s] != 0 && Index(lens, s) + 1 == sym < |ws|
    requires AtSymbol(lens, ws, sym, ws[sym]) && len == lens[ws[sym]]
    requires huff == RevIncrement(lens[s], RevCode(lens, s))
    requires CursorAt(lens, View(table, at), root, c, used, s)
    requires ServedBelow(t, lens, View(table, at), root, c, End(lens, s))
    requires CountsFrom(lens, count, len, sym)
    modifies table
    ensures table[..at] == old(table[..at])
    ensures !ok ==> t != CODES && TableSize(lens, root, Pow2(root)) > enough
    ensures ok ==> LoopAt(t, lens, ws, table, at, count, root, c', used', sym, len, huff)
    ensures ok ==> used' <= enough
  {
    ghost var next := ws[sym];
    NextCode(lens, s, next);
    NextStart(lens, s, next);
    if len > root && (c.drop == 0 || Low(huff, root) != c.low) {
      ok, c', used' := OpenTable(t, lens, table, at, count, root, max, c, used, s, next, len, huff, enough);
    } else {
      StayInTable(lens, View(table, at), root, c, used, s, next);
      ok, c', used' := true, c, used;
    }
  }

  /** zlib/inftrees.c:197-298: fill the table for sorted symbols. */
  method FillTable(t: CodeType, lens: seq<nat>, work: array<nat>, count: array<nat>,
                   table: array<Entry>, at: nat, min: nat, max: nat, root: nat, enough: nat)
    returns (rc: int, used: nat)
    requires |lens| <= MaxCodes(t) && ValidLens(lens) && Kraft(lens) <= Pow2(MAXBITS)
    requires Kraft(lens) < Pow2(MAXBITS) ==> max == 1
    requires Sorted(lens, work[..]) && Counted(lens, count) && work != count
    requires 1 <= min <= max <= MAXBITS && Count(lens, min) > 0 && Count(lens, max) > 0
    requires (forall b :: 1 <= b < min ==> Count(lens, b) == 0)
    requires (forall i :: 0 <= i < |lens| ==> lens[i] <= max)
    requires min <= root <= max
    requires at + enough <= table.Length && (t == CODES ==> TableSize(lens, root, Pow2(root)) <= enough)
    modifies table, count
    ensures table[..at] == old(table[..at])
    ensures rc == if t != CODES && TableSize(lens, root, Pow2(root)) > enough then 1 else 0
    ensures rc == 0 ==> used == TableSize(lens, root, Pow2(root)) && at + used <= table.Length
    ensures rc == 0 ==> TableFor(t, lens, View(table, at)[..used], root)
  {
    hide BlocksDone, View, Pow2, Shl, Shr, Low, ValidLens, CountBelow;
    var huff: nat, sym: nat, len: nat := 0, 0, min;
    var c := Cursor(0, 0, root, 0);          // next, curr, drop and low of the source
    used := Pow2(root);
    TableSizeMono(lens, root, 0, Pow2(root));
    if t != CODES && used > enough {
      return 1, used;
    }
    ghost var ws := work[..];
    FirstSymbol(lens, ws, min);
    FirstCursor(lens, View(table, at), root, ws[0]);
    while true
      invariant used <= enough
      invariant table[..at] == old(table[..at])
      invariant work[..] == ws
      invariant LoopAt(t, lens, ws, table, at, count, root, c, used, sym, len, huff)
      decreases Used(lens) - sym
    {
      ghost var s := ws[sym];
      huff := EnterNext(t, lens, work, table, at, count, root, max, c, used, sym, len, huff);
      sym := sym + 1;
      if count[len] == 0 && len == max {
        FinishTable(t, lens, table, at, root, c, used, huff, len, s);
        break;
      }
      if count[len] == 0 {
        len := lens[work[sym]];
      }
      var ok;
      ok, c, used := PlaceNext(t, lens, ws, table, at, count, root, max, c, used, sym, s, len, huff, enough);
      if !ok {
        return 1, used;
      }
    }
    rc := 0;
  }

  // ------------------------------------------------------------- inflate_table

  ghost predicate NoSymbols(lens: seq<nat>) {
    forall i :: 0 <= i < |lens| ==> lens[i] == 0
  }

  /** The length sets accepted: none at all, a complete code, or at most one code, of one bit. */
  ghost predicate Acceptable(t: CodeType, lens: seq<nat>)
    requires ValidLens(lens)
  {
    || NoSymbols(lens)
    || Kraft(lens) == Pow2(MAXBITS)
    || (t != CODES && Kraft(lens) < Pow2(MAXBITS) && forall i :: 0 <= i < |lens| ==> lens[i] <= 1)
  }

  /** The index bits asked for, kept within the lengths in use. */
  ghost predicate RootFor(lens: seq<nat>, bits: nat, root: nat) {
    if NoSymbols(lens) then root == 1
    else
      && (root < bits ==> Count(lens, root) > 0 && forall i :: 0 <= i < |lens| ==> lens[i] <= root)
      && (root > bits ==> Count(lens, root) > 0 && forall i :: 0 <= i < |lens| ==> lens[i] == 0 || root <= lens[i])
      && (exists i :: 0 <= i < |lens| && lens[i] != 0 && lens[i] <= root)
      && (exists i :: 0 <= i < |lens| && lens[i] >= root)
  }

  /** What the source does not check for CODES: the whole table has room. */
  ghost predicate SpaceFor(lens: seq<nat>, bits: nat, enough: nat)
    requires ValidLens(lens)
  {
    Acceptable(CODES, lens) ==>
      forall root: nat :: root <= MAXBITS && RootFor(lens, bits, root) ==>
        TableSize(lens, root, Pow2(root)) <= enough
  }

  /** Codes no longer than the index bits need no sub-tables. */
  lemma ShortCodesFit(lens: seq<nat>, bits: nat, enough: nat)
    requires ValidLens(lens) && 1 <= bits <= MAXBITS && Pow2(bits) <= enough
      && forall i :: 0 <= i < |lens| ==> lens[i] <= bits
    ensures SpaceFor(lens, bits, enough)
  {
    hide TableSize, CountBelow, Pow2;
    forall root: nat | root <= MAXBITS && RootFor(lens, bits, root)
      ensures TableSize(lens, root, Pow2(root)) <= enough
    {
      RootWithin(lens, bits, root);
      AllInRoot(lens, root);
      Pow2Mono(root, bits);
    }
  }

  lemma RootWithin(lens: seq<nat>, bits: nat, root: nat)
    requires 1 <= bits && RootFor(lens, bits, root) && forall i :: 0 <= i < |lens| ==> lens[i] <= bits
    ensures root <= bits && forall i :: 0 <= i < |lens| ==> lens[i] <= root
  {
    hide CountBelow;
  }

  lemma WithLength(lens: seq<nat>, b: nat)
    requires Count(lens, b) > 0
    ensures exists i :: 0 <= i < |lens| && lens[i] == b
  {
    var s := AtBelow(lens, |lens|, b, 0);
  }

  /** With no symbols every pattern is invalid. */
  lemma NothingDecodes(t: CodeType, lens: seq<nat>, tab: seq<Entry>)
    requires |lens| <= MaxCodes(t) && NoSymbols(lens)
    requires |tab| >= 2 && tab[0] == Invalid && tab[1] == Invalid
    ensures TableFor(t, lens, tab, 1)
  {
    forall h: nat ensures Decodes(t, lens, tab, 1, h) {
      assert Low(h, 1) == h % 2 + 2 * Low(h / 2, 0);
    }
  }

  lemma ClampedRoot(lens: seq<nat>, bits: nat, min: nat, max: nat, root: nat)
    requires 1 <= min <= max && Count(lens, min) > 0 && Count(lens, max) > 0
    requires forall i :: 0 <= i < |lens| ==> lens[i] <= max && (lens[i] == 0 || min <= lens[i])
    requires root == if bits > max then max else if bits < min then min else bits
    ensures RootFor(lens, bits, root) && !NoSymbols(lens)
    ensures exists i :: 0 <= i < |lens| && lens[i] == max
  {
    WithLength(lens, min);
    WithLength(lens, max);
  }

  lemma AllInRoot(lens: seq<nat>, root: nat)
    requires ValidLens(lens) && root <= MAXBITS && forall i :: 0 <= i < |lens| ==> lens[i] <= root
    ensures TableSize(lens, root, Pow2(root)) == Pow2(root)
  {
    NoSubTables(lens, root, 0, Pow2(root));
  }

  /** `inflate_table`; the table starts at `at` and may take `enough` entries. */
  method Build(t: CodeType, lens: seq<nat>, table: array<Entry>, at: nat, bits: nat,
               work: array<nat>, enough: nat)
    returns (rc: int, used: nat, root: nat)
    requires |lens| <= MaxCodes(t) && ValidLens(lens) && work.Length >= |lens|
    requires 2 <= enough && at + enough <= table.Length && (t == CODES ==> SpaceFor(lens, bits, enough))
    modifies table, work
    ensures table[..at] == old(table[..at])
    ensures rc == -1 <==> !Acceptable(t, lens)
    ensures rc != -1 ==> RootFor(lens, bits, root)
    ensures rc == 1 <==> Acceptable(t, lens) && !NoSymbols(lens)
                         && root <= MAXBITS && TableSize(lens, root, Pow2(root)) > enough
    ensures rc == 0 || rc == 1 || rc == -1
    ensures rc == 0 ==> used <= enough && TableFor(t, lens, table[at..][..used], root)
    ensures rc == 0 ==> used == if NoSymbols(lens) then 2 else TableSize(lens, root, Pow2(root))
  {
    hide TableFor, TableSize, KraftBelow, CountBelow, Pow2, Sorted;
    var count := new nat[MAXBITS + 1];
    CountLengths(lens, count);
    root := bits;
    var max := LongestLength(lens, count);
    if root > max { root := max; }
    if max == 0 {
      table[at], table[at + 1] := Invalid, Invalid;
      NothingDecodes(t, lens, table[at..][..2]);
      return 0, 2, 1;
    }
    var min := ShortestLength(lens, count, max);
    if root < min { root := min; }
    ClampedRoot(lens, bits, min, max, root);
    var left := LeftOver(lens, count);
    if left < 0 {
      return -1, 0, root;
    }
    if left > 0 && (t == CODES || max != 1) {
      return -1, 0, root;
    }
    SortSymbols(lens, count, work);
    rc, used := FillTable(t, lens, work, count, table, at, min, max, root, enough);
  }
}
