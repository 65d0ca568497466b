/**
 What one step of the table-filling loop of `inflate_table` does
 (zlib/inftrees.c:214-288).  The loop adds symbols in sorted order; `Served` says
 which patterns are already decoded: those that fall, on the line of 2^15 points,
 before the next code.  A step replicates one entry, counts the reversed code up,
 or starts a sub-table, and none of these disturbs a pattern served before.
 */
module TableFilling {
  import opened BitOps
  import opened Canonical
  import opened DecodeTable

  // -------------------------------------------------- counting backwards in bits

  /** Add one to an n-bit number whose bits are stored in reverse. */
  function RevIncrement(n: nat, x: nat): nat {
    if n == 0 then 0
    else if Shr(x, n - 1) % 2 == 0 then Low(x, n - 1) + Pow2(n - 1)
    else RevIncrement(n - 1, Low(x, n - 1))
  }

  lemma RevIncrementStep(n: nat, t: nat, y: nat)
    requires n >= 1 && y < Pow2(n - 1) && t < 2
    ensures RevIncrement(n, Shl(t, n - 1) + y) == if t == 0 then y + Pow2(n - 1) else RevIncrement(n - 1, y)
  {
    SplitUnique(t, y, n - 1);
  }

  lemma RevIncrementNone(c: nat)
    ensures RevIncrement(0, Rev(0, c)) == Rev(0, c + 1)
  {
  }

  lemma {:induction false} RevIncrementIsSucc(n: nat, c: nat)
    ensures RevIncrement(n, Rev(n, c)) == Rev(n, c + 1)
  {
    hide RevIncrement, Low, Shr;
    RevIncrementNone(c);
    if n != 0 {
      var t, y := c % 2, Rev(n - 1, c / 2);
      ShlOne(n - 1);
      RevIncrementStep(n, t, y);
      RevIncrementIsSucc(n - 1, c / 2);
      assert (c + 1) / 2 == c / 2 + t && (c + 1) % 2 == 1 - t;
    }
  }

  /** The field above bit n does not matter to the increment. */
  lemma {:induction false} RevIncrementLow(n: nat, x: nat)
    ensures RevIncrement(n, Low(x, n)) == RevIncrement(n, x)
  {
    if n != 0 {
      LowLow(x, n - 1, 1);
      assert Low(Shr(x, n - 1), 1) == Shr(x, n - 1) % 2;
    }
  }

  /** Trailing zeros of a point disappear from its reversal. */
  lemma {:induction false} RevShl(l: nat, c: nat, d: nat)
    ensures Rev(l + d, Shl(c, d)) == Rev(l, c)
  {
    if d != 0 { RevShl(l, c, d - 1); }
  }

  /** zlib/inftrees.c:239-248: the next code, kept bit-reversed. */
  method BackwardsIncrement(huff: nat, len: nat) returns (r: nat)
    requires 1 <= len
    ensures r == RevIncrement(len, huff)
  {
    hide RevIncrement, Low, Shr, Pow2;
    var bit: int := len - 1;                 // incr is 1 << bit, or 0 below bit 0
    r := huff;
    while bit >= 0 && Shr(huff, bit) % 2 == 1
      invariant -1 <= bit < len
      invariant RevIncrement(len, huff) == RevIncrement(bit + 1, huff)
    {
      IncrementFrom(huff, bit);
      bit := bit - 1;
    }
    if bit >= 0 {
      IncrementFrom(huff, bit);
      r := Low(huff, bit);
      r := r + Pow2(bit);
    } else {
      NothingLeft(huff);
      r := 0;
    }
  }

  /** The increment depends on the highest bit of the code first. */
  lemma IncrementFrom(huff: nat, bit: nat)
    ensures RevIncrement(bit + 1, huff) == if Shr(huff, bit) % 2 == 1 then RevIncrement(bit, huff)
      else Low(huff, bit) + Pow2(bit)
  {
    hide Low, Shr;
    RevIncrementLow(bit, huff);
  }

  lemma NothingLeft(huff: nat)
    ensures RevIncrement(0, huff) == 0
  {
  }

  // ------------------------------------------------------- replicating an entry

  /** b is a with `here` at every index of the 2^curr entries from off that is x modulo 2^w. */
  ghost predicate Filled(a: seq<Entry>, b: seq<Entry>, off: nat, curr: nat, w: nat, x: nat, here: Entry) {
    && |a| == |b|
    && forall i :: 0 <= i < |a| ==>
         b[i] == if off <= i < off + Pow2(curr) && Low(i - off, w) == x then here else a[i]
  }

  /** zlib/inftrees.c:230-237. */
  method FillEntries(table: array<Entry>, off: nat, curr: nat, w: nat, x: nat, here: Entry)
    requires w <= curr && x < Pow2(w) && off + Pow2(curr) <= table.Length
    modifies table
    ensures Filled(old(table[..]), table[..], off, curr, w, x, here)
  {
    hide Pow2, Shl, Shr, Low;
    var incr := Pow2(w);
    var fill := Pow2(curr);
    ghost var m := Pow2(curr - w);
    Pow2Add(curr - w, w);
    while fill != 0
      invariant 0 <= fill <= Pow2(curr) && fill == Shl(m, w)
      invariant forall i :: 0 <= i < table.Length ==>
        table[i] == if off + fill <= i < off + Pow2(curr) && Low(i - off, w) == x
                    then here else old(table[i])
    {
      ShlOne(w);
      ShlMono(1, m, w);
      ShlSucc(m - 1, w);
      m := m - 1;
      fill := fill - incr;
      SplitUnique(m, x, w);
      table[off + x + fill] := here;
      forall j: nat | fill <= j < fill + incr
        ensures Low(j, w) == x <==> j == x + fill
      {
        SplitUnique(m, j - fill, w);
      }
    }
  }

  // ------------------------------------------------------- patterns served so far

  /** The table being filled: bits dropped, its offset and index bits, its root entry. */
  datatype Cursor = Cursor(drop: nat, next: nat, curr: nat, low: nat)

  /** The entry of symbol s in a table reached after `drop` bits of its code. */
  function EntryFor(t: CodeType, lens: seq<nat>, s: nat, drop: nat): (e: Entry)
    requires s < |lens| <= MaxCodes(t) && drop <= lens[s]
    ensures !IsLink(e)
  {
    Entry(SymbolOp(t, s), lens[s] - drop, SymbolVal(t, s))
  }

  ghost predicate ValidCursor(root: nat, c: Cursor, used: nat) {
    && 1 <= root
    && c.next + Pow2(c.curr) == used
    && ((c.drop == 0 && c.next == 0 && c.curr == root) || (c.drop == root && Pow2(root) <= c.next))
  }

  /** Pattern h reads finished entries only, and they are those of its symbol. */
  ghost predicate Served(t: CodeType, lens: seq<nat>, tab: seq<Entry>, root: nat, c: Cursor, h: nat)
    requires |lens| <= MaxCodes(t) && c.next + Pow2(c.curr) <= |tab| && Pow2(root) <= |tab|
  {
    var e := tab[Low(h, root)];
    if IsLink(e) then
      && c.drop == root == e.bits && Pow2(root) <= e.val
      && (e.val + Pow2(e.op) <= c.next || (e.val == c.next && e.op == c.curr && Low(h, root) == c.low))
      && forall s: nat :: Matches(lens, s, h) ==>
           lens[s] > root && tab[e.val + Low(Shr(h, root), e.op)] == EntryFor(t, lens, s, root)
    else
      forall s: nat :: Matches(lens, s, h) ==> lens[s] <= root && e == EntryFor(t, lens, s, 0)
  }

  ghost predicate ServedBelow(t: CodeType, lens: seq<nat>, tab: seq<Entry>, root: nat, c: Cursor, pt: nat)
    requires |lens| <= MaxCodes(t) && c.next + Pow2(c.curr) <= |tab| && Pow2(root) <= |tab|
  {
    forall h: nat :: Point(h) < pt ==> Served(t, lens, tab, root, c, h)
  }

  /** Comparing the low d + w bits, the low d being known equal. */
  lemma LowEqual(h: nat, x: nat, d: nat, w: nat)
    requires Low(h, d) == Low(x, d)
    ensures Low(h, d + w) == x <==> x < Pow2(d + w) && Low(Shr(h, d), w) == Shr(x, d)
  {
    LowAdd(h, d, w);
    Split(x, d);
    ShlMono(Low(Shr(h, d), w), Shr(x, d), d);
    ShlMono(Shr(x, d), Low(Shr(h, d), w), d);
  }

  /** The entry that pattern h reads at the cursor is one replicated for code x of l bits. */
  lemma ReadsReplicated(c: Cursor, x: nat, l: nat, h: nat)
    requires c.drop <= l <= c.drop + c.curr && x < Pow2(l)
    requires Low(h, c.drop) == Low(x, c.drop)
    ensures Low(Low(Shr(h, c.drop), c.curr), l - c.drop) == Shr(x, c.drop) <==> Low(h, l) == x
  {
    LowLow(Shr(h, c.drop), l - c.drop, c.curr - (l - c.drop));
    LowEqual(h, x, c.drop, l - c.drop);
  }

  lemma ReadsDirectly(curr: nat, x: nat, l: nat, h: nat)
    requires l <= curr
    ensures Low(Low(h, curr), l) == x <==> Low(h, l) == x
  {
    LowLow(h, l, curr - l);
  }

  /** tab' is tab with `here` entered at the cursor for code x of l bits. */
  ghost predicate Entered(tab: seq<Entry>, tab': seq<Entry>, c: Cursor, x: nat, l: nat, here: Entry)
    requires c.drop <= l
  {
    Filled(tab, tab', c.next, c.curr, l - c.drop, Shr(x, c.drop), here)
  }

  /** Code x of l bits belongs in the table at the cursor. */
  ghost predicate Fits(tab: seq<Entry>, root: nat, c: Cursor, x: nat, l: nat) {
    && c.drop < l <= c.drop + c.curr && x < Pow2(l)
    && (c.drop != 0 ==>
          && Low(x, root) == c.low < |tab|
          && tab[c.low] == Entry(c.curr, root, c.next) && 0 < c.curr < 16)
  }

  /** A pattern beginning with the entered code reads the new entry. */
  lemma ReadsEntered(tab: seq<Entry>, tab': seq<Entry>, root: nat, c: Cursor, used: nat,
                     x: nat, l: nat, here: Entry, h: nat)
    requires ValidCursor(root, c, used) && used <= |tab| && Pow2(root) <= used
    requires Fits(tab, root, c, x, l) && Entered(tab, tab', c, x, l, here)
    requires Low(h, l) == x
    ensures c.drop == 0 ==> tab'[Low(h, root)] == here
    ensures c.drop != 0 ==>
      && Low(h, root) == c.low && tab'[c.low] == Entry(c.curr, root, c.next)
      && tab'[c.next + Low(Shr(h, root), c.curr)] == here
  {
    LowLow(h, c.drop, l - c.drop);
    ReadsReplicated(c, x, l, h);
  }

  /** Any other pattern reads the root entry it read before. */
  lemma RootUntouched(tab: seq<Entry>, tab': seq<Entry>, root: nat, c: Cursor, used: nat,
                      x: nat, l: nat, here: Entry, h: nat)
    requires ValidCursor(root, c, used) && used <= |tab| && Pow2(root) <= used
    requires Fits(tab, root, c, x, l) && Entered(tab, tab', c, x, l, here)
    requires Low(h, l) != x
    ensures tab'[Low(h, root)] == tab[Low(h, root)]
  {
    var r := Low(h, root);
    if c.drop == 0 {
      ReadsDirectly(root, x, l, h);
    } else {
      assert r < c.next;
    }
  }

  /** Any other pattern reads the sub-table entry it read before. */
  lemma SubUntouched(tab: seq<Entry>, tab': seq<Entry>, root: nat, c: Cursor, used: nat,
                     x: nat, l: nat, here: Entry, h: nat, e: Entry)
    requires ValidCursor(root, c, used) && used <= |tab| && c.drop != 0
    requires Fits(tab, root, c, x, l) && Entered(tab, tab', c, x, l, here)
    requires Low(h, l) != x
    requires e.val + Pow2(e.op) <= c.next || (e.val == c.next && e.op == c.curr && Low(h, root) == c.low)
    ensures tab'[e.val + Low(Shr(h, root), e.op)] == tab[e.val + Low(Shr(h, root), e.op)]
  {
    if e.val + Pow2(e.op) > c.next {
      ReadsReplicated(c, x, l, h);
    }
  }

  /** Entering sym serves the patterns of sym. */
  lemma FillServesNew(t: CodeType, lens: seq<nat>, tab: seq<Entry>, tab': seq<Entry>, root: nat, c: Cursor,
                      used: nat, sym: nat, h: nat)
    requires |lens| <= MaxCodes(t) && ValidLens(lens) && Kraft(lens) <= Pow2(MAXBITS)
    requires ValidCursor(root, c, used) && used <= |tab| && Pow2(root) <= used
    requires sym < |lens| && Fits(tab, root, c, RevCode(lens, sym), lens[sym])
    requires Entered(tab, tab', c, RevCode(lens, sym), lens[sym], EntryFor(t, lens, sym, c.drop))
    requires Matches(lens, sym, h)
    ensures Served(t, lens, tab', root, c, h)
  {
    var here := EntryFor(t, lens, sym, c.drop);
    ReadsEntered(tab, tab', root, c, used, RevCode(lens, sym), lens[sym], here, h);
    forall s: nat | Matches(lens, s, h) ensures s == sym { PrefixFree(lens, s, sym, h); }
    if c.drop == 0 {
      ServedDirectly(t, lens, tab', root, c, sym, h);
    } else {
      ServedThroughLink(t, lens, tab', root, c, sym, h);
    }
  }

  lemma ServedDirectly(t: CodeType, lens: seq<nat>, tab: seq<Entry>, root: nat, c: Cursor, sym: nat, h: nat)
    requires |lens| <= MaxCodes(t) && c.next + Pow2(c.curr) <= |tab| && Pow2(root) <= |tab|
    requires sym < |lens| && lens[sym] <= root && tab[Low(h, root)] == EntryFor(t, lens, sym, 0)
    requires forall s: nat :: Matches(lens, s, h) ==> s == sym
    ensures Served(t, lens, tab, root, c, h)
  {
  }

  lemma ServedThroughLink(t: CodeType, lens: seq<nat>, tab: seq<Entry>, root: nat, c: Cursor, sym: nat, h: nat)
    requires |lens| <= MaxCodes(t) && c.next + Pow2(c.curr) <= |tab| && Pow2(root) <= c.next
    requires sym < |lens| && c.drop == root < lens[sym] && Low(h, root) == c.low
    requires tab[c.low] == Entry(c.curr, root, c.next) && 0 < c.curr < 16
    requires tab[c.next + Low(Shr(h, root), c.curr)] == EntryFor(t, lens, sym, root)
    requires forall s: nat :: Matches(lens, s, h) ==> s == sym
    ensures Served(t, lens, tab, root, c, h)
  {
  }

  /** A pattern whose entries have not changed stays served, also after the cursor moves on. */
  lemma ServedBySame(t: CodeType, lens: seq<nat>, tab: seq<Entry>, tab': seq<Entry>, root: nat,
                     c: Cursor, c': Cursor, h: nat)
    requires |lens| <= MaxCodes(t) && |tab'| == |tab| && Pow2(root) <= |tab|
    requires c.next + Pow2(c.curr) <= |tab| && c'.next + Pow2(c'.curr) <= |tab|
    requires Served(t, lens, tab, root, c, h)
    requires c' == c || c.next + Pow2(c.curr) <= c'.next
    requires IsLink(tab[Low(h, root)]) ==> c'.drop == c.drop
    requires tab'[Low(h, root)] == tab[Low(h, root)]
    requires var e := tab[Low(h, root)];
      IsLink(e) ==> tab'[e.val + Low(Shr(h, root), e.op)] == tab[e.val + Low(Shr(h, root), e.op)]
    ensures Served(t, lens, tab', root, c', h)
  {
  }

  /** Entering code x disturbs no pattern served before. */
  lemma FillKeepsOld(t: CodeType, lens: seq<nat>, tab: seq<Entry>, tab': seq<Entry>, root: nat, c: Cursor,
                     used: nat, x: nat, l: nat, here: Entry, h: nat)
    requires |lens| <= MaxCodes(t)
    requires ValidCursor(root, c, used) && used <= |tab| && Pow2(root) <= used
    requires Fits(tab, root, c, x, l) && Entered(tab, tab', c, x, l, here)
    requires Low(h, l) != x && Served(t, lens, tab, root, c, h)
    ensures Served(t, lens, tab', root, c, h)
  {
    hide Matches, MaxCodes, SymbolOp, SymbolVal, IsLink;
    RootUntouched(tab, tab', root, c, used, x, l, here, h);
    var e := tab[Low(h, root)];
    if IsLink(e) {
      SubUntouched(tab, tab', root, c, used, x, l, here, h, e);
    }
    ServedBySame(t, lens, tab, tab', root, c, c, h);
  }

  lemma FillStep(t: CodeType, lens: seq<nat>, tab: seq<Entry>, tab': seq<Entry>, root: nat, c: Cursor,
                 used: nat, sym: nat)
    requires |lens| <= MaxCodes(t) && ValidLens(lens) && Kraft(lens) <= Pow2(MAXBITS)
    requires ValidCursor(root, c, used) && used <= |tab| && Pow2(root) <= used
    requires sym < |lens| && lens[sym] != 0 && Fits(tab, root, c, RevCode(lens, sym), lens[sym])
    requires Entered(tab, tab', c, RevCode(lens, sym), lens[sym], EntryFor(t, lens, sym, c.drop))
    requires ServedBelow(t, lens, tab, root, c, Start(lens, sym))
    ensures ServedBelow(t, lens, tab', root, c, End(lens, sym))
  {
    forall h: nat | Point(h) < End(lens, sym) ensures Served(t, lens, tab', root, c, h) {
      MatchesIsInterval(lens, sym, h);
      if Matches(lens, sym, h) {
        FillServesNew(t, lens, tab, tab', root, c, used, sym, h);
      } else {
        FillKeepsOld(t, lens, tab, tab', root, c, used, RevCode(lens, sym), lens[sym],
                     EntryFor(t, lens, sym, c.drop), h);
      }
    }
  }

  // --------------------------------------------------------- starting a sub-table

  /** The root entry, counted along the line, that the point p belongs to. */
  function Block(root: nat, p: nat): nat
    requires root <= MAXBITS
  {
    Shr(p, MAXBITS - root)
  }

  ghost predicate InBlock(lens: seq<nat>, root: nat, b: nat, s: nat)
    requires root <= MAXBITS && ValidLens(lens)
  {
    s < |lens| && lens[s] != 0 && Block(root, Start(lens, s)) == b
  }

  /** The low root bits of a pattern are its block, reversed. */
  lemma RootIndexIsBlock(root: nat, h: nat)
    requires root <= MAXBITS
    ensures Low(h, root) == Rev(root, Block(root, Point(h)))
  {
    RevPrefix(MAXBITS, root, h);
    RevRev(root, h);
  }

  /** The same for a code longer than root. */
  lemma CodeIsInBlock(lens: seq<nat>, root: nat, s: nat)
    requires s < |lens| && ValidLens(lens) && root <= lens[s] && lens[s] != 0
    requires Kraft(lens) <= Pow2(MAXBITS)
    ensures Low(RevCode(lens, s), root) == Rev(root, Block(root, Start(lens, s)))
    ensures Block(root, Start(lens, s)) < Pow2(root)
    ensures Point(RevCode(lens, s)) == Start(lens, s)
  {
    var l, c := lens[s], Code(lens, s);
    CodeFits(lens, s);
    RevShl(l, c, MAXBITS - l);
    LowSmall(Start(lens, s), MAXBITS);
    RevRev(MAXBITS, Start(lens, s));
    RootIndexIsBlock(root, RevCode(lens, s));
    ShrBound(Start(lens, s), MAXBITS - root, root);
  }

  lemma {:induction false} ShrMono(x: nat, y: nat, k: nat)
    requires x <= y
    ensures Shr(x, k) <= Shr(y, k)
  {
    if k != 0 { ShrMono(x / 2, y / 2, k - 1); }
  }

  /** Adding one carries out of the low k bits only when they become zero. */
  lemma {:induction false} CarryClears(c: nat, k: nat)
    requires Shr(c, k) != Shr(c + 1, k)
    ensures Low(c + 1, k) == 0 && Shr(c + 1, k) == Shr(c, k) + 1
  {
    if k != 0 {
      if c % 2 == 1 {
        assert (c + 1) / 2 == c / 2 + 1;
        CarryClears(c / 2, k - 1);
      }
    }
  }

  lemma {:induction false} LowOfShl(x: nat, a: nat, b: nat)
    ensures a <= b ==> Low(Shl(x, b), a) == 0
    ensures a >= b ==> Low(Shl(x, b), a) == Shl(Low(x, a - b), b)
    ensures a >= b ==> Shr(Shl(x, b), a) == Shr(x, a - b)
  {
    if a != 0 && b != 0 {
      assert Shl(x, b) / 2 == Shl(x, b - 1);
      LowOfShl(x, a - 1, b - 1);
    }
  }

  /** Leaving one block after a code of l > root bits means starting the next at its first point. */
  lemma NextBlock(root: nat, c: nat, l: nat)
    requires root <= l <= MAXBITS
    requires Block(root, Shl(c, MAXBITS - l)) != Block(root, Shl(c + 1, MAXBITS - l))
    ensures Low(Shl(c + 1, MAXBITS - l), MAXBITS - root) == 0
    ensures Block(root, Shl(c + 1, MAXBITS - l)) == Block(root, Shl(c, MAXBITS - l)) + 1
  {
    hide Pow2, Shl, Shr, Low;
    var a, b := MAXBITS - root, MAXBITS - l;
    LowOfShl(c, a, b);
    LowOfShl(c + 1, a, b);
    CarryClears(c, a - b);
    ShlOne(b);
    assert Shl(Low(c + 1, a - b), b) == 0;
  }

  /** Patterns before the first point of a block do not use the root entry of that block. */
  lemma EarlierRootIndex(root: nat, pt: nat, h: nat)
    requires root <= MAXBITS && Block(root, pt) < Pow2(root) && Low(pt, MAXBITS - root) == 0
    requires Point(h) < pt
    ensures Low(h, root) != Rev(root, Block(root, pt))
  {
    var d, b, b' := MAXBITS - root, Block(root, pt), Block(root, Point(h));
    RootIndexIsBlock(root, h);
    Split(pt, d);
    Split(Point(h), d);
    ShlMono(b, b', d);
    ShrBound(Point(h), d, root);
    RevRev(root, b);
    RevRev(root, b');
    LowSmall(b, root);
    LowSmall(b', root);
  }

  /** Pointing a fresh root entry at a new sub-table disturbs no pattern served before. */
  lemma NewTable(t: CodeType, lens: seq<nat>, tab: seq<Entry>, root: nat, c: Cursor, c': Cursor,
                 used: nat, used': nat, pt: nat)
    requires |lens| <= MaxCodes(t) && 1 <= root <= MAXBITS
    requires ValidCursor(root, c, used) && ValidCursor(root, c', used') && used <= c'.next
    requires used' <= |tab| && Pow2(root) <= used && c'.low < Pow2(root) && c'.drop == root
    requires c'.low == Rev(root, Block(root, pt)) && Block(root, pt) < Pow2(root)
    requires Low(pt, MAXBITS - root) == 0
    requires ServedBelow(t, lens, tab, root, c, pt)
    ensures ServedBelow(t, lens, tab[c'.low := Entry(c'.curr, root, c'.next)], root, c', pt)
  {
    hide EntryFor, Block, Pow2, Shr;
    var tab' := tab[c'.low := Entry(c'.curr, root, c'.next)];
    forall h: nat | Point(h) < pt ensures Served(t, lens, tab', root, c', h) {
      EarlierRootIndex(root, pt, h);
      assert Served(t, lens, tab, root, c, h);
      var e := tab[Low(h, root)];
      if IsLink(e) {
        assert c.drop == c'.drop && c'.low < Pow2(root) <= e.val;
      }
      ServedBySame(t, lens, tab, tab', root, c, c', h);
    }
  }
}
