/**
 Sub-tables of the decoding table: how many there are, how large each is, and the
 look-ahead by which `inflate_table` sizes one before filling it
 (zlib/inftrees.c:257-287).
 */
module SubTables {
  import opened BitOps
  import opened Canonical
  import opened SortedSymbols
  import opened TableFilling

  // ------------------------------------------------------- sizes of sub-tables

  /** The longest code in block b among the first n symbols; 0 when there is none. */
  ghost function LongestBelow(lens: seq<nat>, n: nat, root: nat, b: nat): nat
    requires n <= |lens| && root <= MAXBITS && ValidLens(lens)
  {
    if n == 0 then 0
    else
      var m := LongestBelow(lens, n - 1, root, b);
      if InBlock(lens, root, b, n - 1) && lens[n - 1] > m then lens[n - 1] else m
  }

  /** Entries of the sub-table behind root entry b: enough index bits for its longest code. */
  ghost function SubTableSize(lens: seq<nat>, root: nat, b: nat): nat
    requires root <= MAXBITS && ValidLens(lens)
  {
    var longest := LongestBelow(lens, |lens|, root, b);
    if longest > root then Pow2(longest - root) else 0
  }

  /** Entries of the root table and the sub-tables behind its first b entries. */
  ghost function TableSize(lens: seq<nat>, root: nat, b: nat): nat
    requires root <= MAXBITS && ValidLens(lens)
  {
    if b == 0 then Pow2(root) else TableSize(lens, root, b - 1) + SubTableSize(lens, root, b - 1)
  }

  lemma {:induction false} LongestIs(lens: seq<nat>, n: nat, root: nat, b: nat, m: nat)
    requires n <= |lens| && root <= MAXBITS && ValidLens(lens)
    requires forall s: nat :: s < n && InBlock(lens, root, b, s) ==> lens[s] <= m
    ensures LongestBelow(lens, n, root, b) <= m
    ensures (exists s: nat :: s < n && InBlock(lens, root, b, s) && lens[s] == m) ==>
      LongestBelow(lens, n, root, b) == m
  {
    if n != 0 { LongestIs(lens, n - 1, root, b, m); }
  }

  /** Root entries with short codes only have no sub-table. */
  lemma {:induction false} NoSubTables(lens: seq<nat>, root: nat, a: nat, b: nat)
    requires a <= b && root <= MAXBITS && ValidLens(lens)
    requires forall s: nat, i :: a <= i < b && InBlock(lens, root, i, s) ==> lens[s] <= root
    ensures TableSize(lens, root, b) == TableSize(lens, root, a)
  {
    if a < b {
      NoSubTables(lens, root, a, b - 1);
      LongestIs(lens, |lens|, root, b - 1, root);
    }
  }

  lemma {:induction false} TableSizeMono(lens: seq<nat>, root: nat, a: nat, b: nat)
    requires a <= b && root <= MAXBITS && ValidLens(lens)
    ensures TableSize(lens, root, a) <= TableSize(lens, root, b)
  {
    if a < b { TableSizeMono(lens, root, a, b - 1); }
  }

  // ----------------------------------------------- what the remaining counts say

  /** Codes of length b from position k of the sorted order on (`count[b]`). */
  function Remaining(lens: seq<nat>, b: nat, k: nat): nat {
    if Offs(lens, b + 1) <= k then 0
    else Offs(lens, b + 1) - (if k <= Offs(lens, b) then Offs(lens, b) else k)
  }

  function Max(a: nat, b: nat): nat { if a >= b then a else b }

  /** How far the codes of up to b bits reach, starting from the point of code s. */
  function Reach(lens: seq<nat>, s: nat, b: nat): nat
    requires s < |lens| && b <= MAXBITS && ValidLens(lens)
  {
    Max(KraftByLen(lens, b), Start(lens, s))
  }

  lemma ReachStep(lens: seq<nat>, s: nat, b: nat)
    requires s < |lens| && ValidLens(lens) && 1 <= lens[s] <= b <= MAXBITS
    ensures Reach(lens, s, b)
         == Reach(lens, s, b - 1) + Shl(Remaining(lens, b, Index(lens, s)), MAXBITS - b)
    ensures b == lens[s] ==> Reach(lens, s, b - 1) == Start(lens, s)
  {
    hide CountBelow, Used;
    var l := lens[s];
    IntervalWithinLength(lens, s);
    IndexBound(lens, s);
    if b == l {
      FirstCodeStart(lens, b);
      var r := Remaining(lens, b, Index(lens, s));
      ShlAdd(FirstCode(lens, b), Count(lens, b), MAXBITS - b);
      ShlAdd(Code(lens, s), r, MAXBITS - b);
      assert Code(lens, s) + r == FirstCode(lens, b) + Count(lens, b);
    } else {
      OffsMono(lens, l + 1, b);
      KraftByLenMono(lens, l, b - 1);
    }
  }

  /** A code longer than b bits starts no earlier than the codes of up to b bits reach. */
  lemma LongerIsLater(lens: seq<nat>, s: nat, b: nat)
    requires s < |lens| && ValidLens(lens) && b < lens[s]
    ensures KraftByLen(lens, b) <= Start(lens, s)
  {
    IntervalWithinLength(lens, s);
    KraftByLenMono(lens, b, lens[s] - 1);
  }

  /** Some code of b bits starts where the shorter ones end. */
  lemma FirstOfLength(lens: seq<nat>, b: nat) returns (s: nat)
    requires 1 <= b <= MAXBITS && ValidLens(lens) && Count(lens, b) > 0
    ensures s < |lens| && lens[s] == b && Start(lens, s) == KraftByLen(lens, b - 1)
  {
    s := AtBelow(lens, |lens|, b, 0);
    FirstCodeStart(lens, b);
  }

  /** The longest code in the block of s is the first length at which the block is filled. */
  lemma LongestInBlock(lens: seq<nat>, s: nat, root: nat, l: nat)
    requires s < |lens| && ValidLens(lens) && 1 <= root < lens[s] <= l <= MAXBITS
    requires Low(Start(lens, s), MAXBITS - root) == 0 && Count(lens, l) > 0
    requires Reach(lens, s, l - 1) < Start(lens, s) + Pow2(MAXBITS - root)
    requires Reach(lens, s, l) >= Start(lens, s) + Pow2(MAXBITS - root)
          || (forall i :: 0 <= i < |lens| ==> lens[i] <= l)
    ensures LongestBelow(lens, |lens|, root, Block(root, Start(lens, s))) == l
  {
    var pt := Start(lens, s);
    var b := Block(root, pt);
    Split(pt, MAXBITS - root);
    forall i: nat | InBlock(lens, root, b, i) ensures lens[i] <= l {
      PrefixIsInterval(root, b, Start(lens, i));
      if lens[i] > l { LongerIsLater(lens, i, l); }
    }
    var i := s;
    if l != lens[s] {
      i := FirstOfLength(lens, l);
      IntervalWithinLength(lens, s);
      KraftByLenMono(lens, lens[s], l - 1);
    }
    PrefixIsInterval(root, b, Start(lens, i));
    assert InBlock(lens, root, b, i);
    LongestIs(lens, |lens|, root, b, l);
  }

  /** `left` counts, in codes of l bits, the part of the block that shorter codes leave free. */
  ghost predicate LeftAt(lens: seq<nat>, s: nat, root: nat, l: nat, left: int)
    requires s < |lens| && ValidLens(lens) && 1 <= root <= MAXBITS && 1 <= l <= MAXBITS
  {
    left > 0 && Shl(left, MAXBITS - l) + Reach(lens, s, l - 1) == Start(lens, s) + Pow2(MAXBITS - root)
  }

  lemma LeftAtFirst(lens: seq<nat>, s: nat, root: nat)
    requires s < |lens| && ValidLens(lens) && 1 <= root < lens[s]
    ensures LeftAt(lens, s, root, lens[s], Pow2(lens[s] - root))
  {
    ReachStep(lens, s, lens[s]);
    Pow2Add(lens[s] - root, MAXBITS - lens[s]);
  }

  /** One length further: what is then left of the block, or nothing is. */
  lemma NextLengthLeft(lens: seq<nat>, s: nat, root: nat, l: nat, left: nat)
    requires s < |lens| && ValidLens(lens) && 1 <= root < lens[s] <= l <= MAXBITS
    requires LeftAt(lens, s, root, l, left)
    ensures Reach(lens, s, l - 1) < Start(lens, s) + Pow2(MAXBITS - root)
    ensures var r := Remaining(lens, l, Index(lens, s));
      if left > r then l < MAXBITS ==> LeftAt(lens, s, root, l + 1, 2 * (left - r))
      else Reach(lens, s, l) >= Start(lens, s) + Pow2(MAXBITS - root) && Count(lens, l) > 0
  {
    var r := Remaining(lens, l, Index(lens, s));
    ReachStep(lens, s, l);
    if left > r {
      ShlAdd(left - r, r, MAXBITS - l);
      if l < MAXBITS { ShlDouble(left - r, MAXBITS - (l + 1)); }
    } else {
      ShlMono(left, r, MAXBITS - l);
    }
  }

  ghost predicate CountsFrom(lens: seq<nat>, count: array<nat>, l: nat, k: nat)
    requires count.Length == MAXBITS + 1
    reads count
  {
    forall b :: l <= b <= MAXBITS ==> count[b] == Remaining(lens, b, k)
  }

  /** zlib/inftrees.c:266-274: look ahead for the index bits of a new sub-table. */
  method SubTableBits(ghost lens: seq<nat>, ghost s: nat, count: array<nat>, len: nat, root: nat, max: nat)
    returns (curr: nat)
    requires s < |lens| && ValidLens(lens) && 1 <= root < len == lens[s] <= max <= MAXBITS
    requires forall i :: 0 <= i < |lens| ==> lens[i] <= max
    requires count.Length == MAXBITS + 1 && CountsFrom(lens, count, len, Index(lens, s))
    requires Count(lens, max) > 0
    requires Low(Start(lens, s), MAXBITS - root) == 0
    ensures 1 <= curr && len <= root + curr <= max
    ensures LongestBelow(lens, |lens|, root, Block(root, Start(lens, s))) == root + curr
  {
    hide Count, FirstCode, Code, KraftByLenBelow, KraftByLen;
    var drop := root;
    curr := len - drop;
    var left: int := Pow2(curr);
    LeftAtFirst(lens, s, root);
    while curr + drop < max
      invariant len <= root + curr <= max
      invariant LeftAt(lens, s, root, root + curr, left)
    {
      NextLengthLeft(lens, s, root, root + curr, left);
      left := left - count[curr + drop];
      if left <= 0 {
        break;
      }
      curr := curr + 1;
      left := left * 2;
    }
    if left > 0 {
      assert root + curr == max;
      NextLengthLeft(lens, s, root, root + curr, left);
    }
    LongestInBlock(lens, s, root, root + curr);
  }
}
