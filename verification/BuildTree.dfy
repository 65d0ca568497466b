/**
 `build_tree` (zlib/trees.c:615-697): Huffman's algorithm over a heap, in place in
 the arrays of the compression state, followed by `gen_bitlen` and `gen_codes`.

 The lengths are a complete code within the limit for exactly the used symbols; they
 are a cheapest code whenever no length had to be cut; the codes are the canonical
 ones; and opt_len and static_len grow by the bits the symbols will take.
 */
module BuildTree {
  import opened BitOps
  import opened Canonical
  import opened Heap
  import opened Huffman
  import opened MergeRuns
  import opened TreeScan
  import opened BitLengths
  import opened GenBitlen
  import opened HeapMerge

  /** zlib/deflate.h: 2 * L_CODES + 1, and room for every tree. */
  const HEAP_SIZE: nat := 573

  // ---------------------------------------------------------------- gen_codes

  /** zlib/trees.c:1136-1146. */
  method BiReverse(code0: nat, len0: nat) returns (r: nat)
    requires 1 <= len0
    ensures r == Rev(len0, code0)
  {
    hide Rev, Shl;
    var code, len, res := code0, len0, 0;
    RevStart(len0, code0);
    while true
      invariant 1 <= len <= len0
      invariant Shl(res, len - 1) + Rev(len, code) == Rev(len0, code0)
      decreases len
    {
      ghost var was, c := res, code;
      res := res + code % 2;
      code := code / 2;
      RevShift(was, c, len);
      res := res * 2;
      len := len - 1;
      if len == 0 {
        RevEnd(was + c % 2, code);
        break;
      }
    }
    return res / 2;
  }

  lemma RevEnd(r: nat, x: nat)
    ensures Shl(r, 0) + Rev(0, x) == r
  {
  }

  lemma RevStart(n: nat, x: nat)
    requires 1 <= n
    ensures Shl(0, n - 1) + Rev(n, x) == Rev(n, x)
  {
    ShlOne(n - 1);
  }

  lemma RevShift(res: nat, code: nat, len: nat)
    requires 1 <= len
    ensures Shl(res, len - 1) + Rev(len, code)
         == Shl(res + code % 2, len - 1) + Rev(len - 1, code / 2)
    ensures 2 <= len ==> Shl((res + code % 2) * 2, len - 2) == Shl(res + code % 2, len - 1)
  {
    ShlAdd(res, code % 2, len - 1);
    ShlOne(len - 1);
    if len >= 2 { ShlDouble(res + code % 2, len - 2); }
  }

  /** zlib/trees.c:585-588: where the codes of each length start. */
  method StartCodes(blCount: array<nat>, ghost lens: seq<nat>) returns (nextCode: array<nat>)
    requires blCount.Length == MAXBITS + 1 && blCount[0] == 0
    requires forall b :: 1 <= b <= MAXBITS ==> blCount[b] == Count(lens, b)
    ensures fresh(nextCode) && nextCode.Length == MAXBITS + 1
    ensures forall b :: 1 <= b <= MAXBITS ==> nextCode[b] == FirstCode(lens, b)
  {
    nextCode := new nat[MAXBITS + 1];
    var code := 0;
    for bits := 1 to MAXBITS + 1
      invariant code == FirstCode(lens, bits - 1)
      invariant forall b :: 1 <= b < bits ==> nextCode[b] == FirstCode(lens, b)
    {
      code := (code + blCount[bits - 1]) * 2;
      nextCode[bits] := code;
    }
  }

  /** The symbols below n are numbered; nextCode holds the next code of each length. */
  ghost predicate Numbered(nextCode: seq<nat>, lens: seq<nat>, n: nat) {
    && n <= |lens| && |nextCode| == MAXBITS + 1
    && forall b :: 1 <= b <= MAXBITS ==> nextCode[b] == FirstCode(lens, b) + CountBelow(lens, n, b)
  }

  lemma NumberFirst(nextCode: seq<nat>, lens: seq<nat>)
    requires |nextCode| == MAXBITS + 1 && forall b :: 1 <= b <= MAXBITS ==> nextCode[b] == FirstCode(lens, b)
    ensures Numbered(nextCode, lens, 0)
  {
  }

  lemma RevCodeIs(lens: seq<nat>, n: nat)
    requires n < |lens|
    ensures RevCode(lens, n) == Rev(lens[n], Code(lens, n))
  {
  }

  lemma NumberOne(nextCode: seq<nat>, lens: seq<nat>, n: nat)
    requires Numbered(nextCode, lens, n) && n < |lens| && lens[n] <= MAXBITS
    ensures lens[n] == 0 ==> Numbered(nextCode, lens, n + 1)
    ensures lens[n] != 0 ==> nextCode[lens[n]] == Code(lens, n)
                             && Numbered(nextCode[lens[n] := nextCode[lens[n]] + 1], lens, n + 1)
  {
  }

  /** zlib/trees.c:572-605: the codes of the symbols, bits reversed. */
  method GenCodes(fc: array<nat>, dl: array<nat>, maxCode: nat, blCount: array<nat>, ghost lens: seq<nat>)
    requires fc != dl && fc != blCount && maxCode < fc.Length && fc.Length <= dl.Length
    requires maxCode < |lens| <= dl.Length && (forall k :: 0 <= k < |lens| ==> dl[k] == lens[k])
    requires ValidLens(lens) && blCount.Length == MAXBITS + 1 && blCount[0] == 0
    requires forall b :: 1 <= b <= MAXBITS ==> blCount[b] == Count(lens, b)
    modifies fc
    ensures forall n: nat :: n <= maxCode && lens[n] != 0 ==> fc[n] == RevCode(lens, n)
    ensures forall n: nat :: n < fc.Length && !(n <= maxCode && lens[n] != 0) ==> fc[n] == old(fc[n])
  {
    hide Numbered, RevCode, FirstCode, CountBelow, Canonical.Code, Rev, Kraft;
    var nextCode := StartCodes(blCount, lens);
    NumberFirst(nextCode[..], lens);
    for n := 0 to maxCode + 1
      invariant Numbered(nextCode[..], lens, n)
      invariant forall i: nat :: i < n && lens[i] != 0 ==> fc[i] == RevCode(lens, i)
      invariant forall i: nat :: i < fc.Length && !(i < n && lens[i] != 0) ==> fc[i] == old(fc[i])
    {
      var len := dl[n];
      ghost var was := nextCode[..];
      NumberOne(was, lens, n);
      if len != 0 {
        fc[n] := BiReverse(nextCode[len], len);
        RevCodeIs(lens, n);
        nextCode[len] := nextCode[len] + 1;
        assert nextCode[..] == was[len := was[len] + 1];
      }
    }
  }

  // ------------------------------------------------------- the initial forest

  /** The symbols below n that occur. */
  ghost function Occurring(f: seq<nat>, n: nat): set<nat>
    requires n <= |f|
  {
    set k | 0 <= k < n && f[k] != 0
  }

  lemma OccurringNext(f: seq<nat>, n: nat)
    requires n < |f|
    ensures Occurring(f, n + 1) == if f[n] != 0 then Occurring(f, n) + {n} else Occurring(f, n)
    ensures n !in Occurring(f, n)
  {
  }

  /** heap[1..len] holds exactly the nodes of A, all below n. */
  ghost predicate Collected(h: seq<nat>, len: nat, A: set<nat>, n: nat) {
    len < |h| && Nodes(h, len) == multiset(A) && len == |A| && Below(A, n)
  }

  /** The largest symbol that occurs, or -1. */
  ghost predicate Largest(A: set<nat>, maxCode: int) {
    (forall k: nat :: k in A ==> k <= maxCode) && (A == {} <==> maxCode == -1) && (maxCode >= 0 ==> maxCode in A)
    && maxCode >= -1
  }

  lemma CollectOne(h: seq<nat>, len: nat, A: set<nat>, n: nat)
    requires Collected(h, len, A, n) && len + 1 < |h| && n !in A
    ensures Collected(h[len + 1 := n], len + 1, A + {n}, n + 1)
  {
    NodesAdd(h, len, n);
    BagAdd(A, n);
  }

  /** The symbols below n have been collected. */
  ghost predicate Gathered(h: seq<nat>, len: nat, f: seq<nat>, n: nat, maxCode: int) {
    && n <= |f| && len <= n
    && Collected(h, len, Occurring(f, n), n) && Largest(Occurring(f, n), maxCode)
  }

  lemma GatherOne(h: seq<nat>, len: nat, f: seq<nat>, n: nat, maxCode: int)
    requires Gathered(h, len, f, n, maxCode) && n < |f| && n + 1 < |h|
    ensures f[n] == 0 ==> Gathered(h, len, f, n + 1, maxCode)
    ensures f[n] != 0 ==> Gathered(h[len + 1 := n], len + 1, f, n + 1, n)
  {
    OccurringNext(f, n);
    if f[n] != 0 { CollectOne(h, len, Occurring(f, n), n); }
  }

  lemma GatherNone(h: seq<nat>, f: seq<nat>)
    requires |h| > 0
    ensures Gathered(h, 0, f, 0, -1)
  {
    assert Occurring(f, 0) == {};
    assert h[1..1] == [];
  }

  /** zlib/trees.c:632-639. */
  method Collect(heap: array<nat>, depth: array<nat>, fc: array<nat>, dl: array<nat>, elems: nat)
    returns (len: nat, maxCode: int)
    requires heap != fc && depth != fc && dl != fc && heap != depth && heap != dl && depth != dl
    requires elems < heap.Length && elems <= depth.Length && elems <= fc.Length == dl.Length
    modifies heap, depth, dl
    ensures Gathered(heap[..], len, fc[..], elems, maxCode)
    ensures forall k :: 0 <= k < elems ==> if fc[k] == 0 then dl[k] == 0 else depth[k] == 0
  {
    hide Occurring, Largest, Below;
    len, maxCode := 0, -1;
    GatherNone(heap[..], fc[..]);
    for n := 0 to elems
      invariant Gathered(heap[..], len, fc[..], n, maxCode)
      invariant forall k :: 0 <= k < n ==> if fc[k] == 0 then dl[k] == 0 else depth[k] == 0
    {
      ghost var h: seq<nat> := heap[..];
      GatherOne(h, len, fc[..], n, maxCode);
      if fc[n] != 0 {
        len := len + 1;
        heap[len] := n;
        assert heap[..] == h[len := n];
        maxCode := n;
        depth[n] := 0;
      } else {
        dl[n] := 0;
      }
    }
  }

  /** Symbols up to 2 given frequency one, while there are fewer than two (zlib/trees.c:646-652). */
  ghost predicate Forcing(f: seq<nat>, f': seq<nat>, A: set<nat>, B: set<nat>) {
    && |f'| == |f| && A <= B && (|A| >= 2 ==> B == A) && (|A| < 2 ==> |B| <= 2)
    && (forall k: nat :: k in B && k !in A ==> k <= 2 && k < |f'| && f'[k] == 1)
    && (forall k: nat :: k < |f| && !(k in B && k !in A) ==> f'[k] == f[k])
  }

  lemma ForceOne(f: seq<nat>, f': seq<nat>, A: set<nat>, B: set<nat>, node: nat)
    requires Forcing(f, f', A, B) && |B| < 2 && node !in B && node <= 2 && node < |f|
    ensures Forcing(f, f'[node := 1], A, B + {node})
  {
    if |A| >= 2 { assert false; }
  }

  lemma SumGrow(A: set<nat>, n: nat, g: seq<nat>, k: nat)
    requires n <= |g| && k !in A && k < n
    ensures Sum(A + {k}, n, g) == Sum(A, n, g) + g[k]
  {
    SumRemove(A + {k}, n, g, k);
    assert A + {k} - {k} == A;
  }

  lemma CollectAny(h: seq<nat>, len: nat, A: set<nat>, n: nat, k: nat)
    requires Collected(h, len, A, n) && len + 1 < |h| && k !in A && k < n
    ensures Collected(h[len + 1 := k], len + 1, A + {k}, n)
  {
    NodesAdd(h, len, k);
    BagAdd(A, k);
  }

  /** The symbol zlib/trees.c:647 chooses to force. */
  function ForcedSymbol(maxCode: int): int {
    if maxCode < 2 then maxCode + 1 else 0
  }

  lemma ForcedIsNew(B: set<nat>, maxCode: int)
    requires Largest(B, maxCode) && |B| < 2
    ensures 0 <= ForcedSymbol(maxCode) <= 2 && ForcedSymbol(maxCode) !in B
    ensures Largest(B + {ForcedSymbol(maxCode)}, if maxCode < 2 then maxCode + 1 else maxCode)
  {
    if maxCode >= 2 && 0 in B {
      assert {0, maxCode} <= B;
      CardinalityMono({0, maxCode}, B);
    }
  }

  lemma CardinalityMono(A: set<nat>, B: set<nat>)
    requires A <= B
    ensures |A| <= |B|
  {
    if A != {} {
      var a :| a in A;
      CardinalityMono(A - {a}, B - {a});
    }
  }

  ghost function Lengths(d: StaticDesc): (g: seq<nat>)
    requires ValidDesc(d)
    ensures |g| == d.elems && forall k :: 0 <= k < |g| ==> g[k] == if d.hasTree then d.tree[k] else 0
  {
    seq(d.elems, k requires 0 <= k < d.elems => if d.hasTree then d.tree[k] else 0)
  }

  /** The forest with some symbols forced, and what that takes off opt_len and static_len. */
  ghost predicate ForcedSoFar(h: seq<nat>, len: nat, f: seq<nat>, f': seq<nat>, d: StaticDesc, A: set<nat>,
                              B: set<nat>, maxCode: int, opt: int, stat: int)
    requires ValidDesc(d)
  {
    && Collected(h, len, B, d.elems) && Largest(B, maxCode) && Forcing(f, f', A, B)
    && opt == Sum(A, d.elems, Ones(d.elems)) - Sum(B, d.elems, Ones(d.elems))
    && stat == Sum(A, d.elems, Lengths(d)) - Sum(B, d.elems, Lengths(d))
  }

  lemma ForceNext(h: seq<nat>, len: nat, f: seq<nat>, f': seq<nat>, d: StaticDesc, A: set<nat>,
                  B: set<nat>, maxCode: int, opt: int, stat: int)
    requires ValidDesc(d) && 3 <= d.elems <= |f| && d.elems < |h|
    requires ForcedSoFar(h, len, f, f', d, A, B, maxCode, opt, stat) && len < 2
    ensures var node := ForcedSymbol(maxCode);
      && 0 <= node < d.elems && node !in B
      && ForcedSoFar(h[len + 1 := node], len + 1, f, f'[node := 1], d, A, B + {node},
                     if maxCode < 2 then maxCode + 1 else maxCode,
                     opt - 1, stat - (if d.hasTree then d.tree[node] else 0))
  {
    var node := ForcedSymbol(maxCode);
    ForcedIsNew(B, maxCode);
    CollectAny(h, len, B, d.elems, node);
    ForceOne(f, f', A, B, node);
    SumGrow(B, d.elems, Ones(d.elems), node);
    SumGrow(B, d.elems, Lengths(d), node);
  }

  /** A set of fewer than two symbols is made one of two: by the symbol after it if that is 1 or 2, else by 0. */
  ghost predicate Joined(A: set<nat>, B: set<nat>) {
    if |A| >= 2 then B == A
    else if A == {} || A == {0} then B == {0, 1}
    else if A == {1} then B == {1, 2}
    else B == A + {0}
  }

  ghost predicate Joining(A: set<nat>, B: set<nat>) {
    (A == {} && B == {0}) || B == A || Joined(A, B)
  }

  lemma OneElement(B: set<nat>) returns (b: nat)
    requires |B| == 1
    ensures B == {b}
  {
    b :| b in B;
    assert |B - {b}| == 0;
  }

  lemma TwoElements(B: set<nat>, a: nat, b: nat)
    requires a != b && a in B && b in B
    ensures |B| >= 2
  {
    CardinalityMono({a, b}, B);
  }

  lemma JoinedIsTwo(A: set<nat>, B: set<nat>)
    requires Joined(A, B)
    ensures |B| >= 2
  {
    if |A| < 2 {
      if A == {} || A == {0} {
        TwoElements(B, 0, 1);
      } else if A == {1} {
        TwoElements(B, 1, 2);
      } else {
        var a :| a in A;
        if 0 in A { OnlyZero(A); }
        TwoElements(B, 0, a);
      }
    }
  }

  lemma OnlyZero(A: set<nat>)
    requires |A| < 2 && 0 in A
    ensures A == {0}
  {
    assert |A - {0}| == 0;
  }

  lemma JoinOne(b: nat)
    ensures Joined({b}, {b} + {ForcedSymbol(b)})
  {
  }

  lemma JoinNext(A: set<nat>, B: set<nat>, maxCode: int)
    requires Joining(A, B) && Largest(B, maxCode) && |B| < 2
    ensures ForcedSymbol(maxCode) >= 0 && Joining(A, B + {ForcedSymbol(maxCode)})
  {
    hide Joined;
    if Joined(A, B) { JoinedIsTwo(A, B); }
    if B == {} {
      assert B + {0} == {0};
    } else {
      var b := OneElement(B);
      JoinOne(b);
      JoinOne(0);
      NoneIsZero(B + {ForcedSymbol(maxCode)});
    }
  }

  /** Two symbols come of none as they come of zero alone. */
  lemma NoneIsZero(B: set<nat>)
    ensures Joined({0}, B) ==> Joined({}, B)
  {
  }

  lemma NoneJoined(A: set<nat>)
    ensures Joining(A, A)
  {
  }

  lemma JoinedTwo(A: set<nat>, B: set<nat>)
    requires Joining(A, B) && |B| >= 2
    ensures Joined(A, B)
  {
  }

  /** zlib/trees.c:646-652. */
  method ForceTwo(heap: array<nat>, depth: array<nat>, fc: array<nat>, d: StaticDesc, len0: nat, maxCode0: int,
                  ghost A: set<nat>)
    returns (len: nat, maxCode: int, opt: int, stat: int, ghost B: set<nat>)
    requires heap != fc && depth != fc && heap != depth && ValidDesc(d)
    requires 3 <= d.elems < heap.Length && d.elems <= depth.Length && d.elems <= fc.Length
    requires Collected(heap[..], len0, A, d.elems) && Largest(A, maxCode0)
    modifies heap, depth, fc
    ensures ForcedSoFar(heap[..], len, old(fc[..]), fc[..], d, A, B, maxCode, opt, stat) && len >= 2 && Joined(A, B)
    ensures forall k: nat :: k < depth.Length && k in B && k !in A ==> depth[k] == 0
    ensures forall k: nat :: k < depth.Length && old(depth[k]) == 0 ==> depth[k] == 0
  {
    hide Largest, Nodes, Joined, Joining;
    NoneJoined(A);
    len, maxCode, opt, stat, B := len0, maxCode0, 0, 0, A;
    while len < 2
      invariant ForcedSoFar(heap[..], len, old(fc[..]), fc[..], d, A, B, maxCode, opt, stat) && Joining(A, B)
      invariant forall k: nat :: k < depth.Length && k in B && k !in A ==> depth[k] == 0
      invariant forall k: nat :: k < depth.Length && old(depth[k]) == 0 ==> depth[k] == 0
      decreases 2 - len
    {
      ForceNext(heap[..], len, old(fc[..]), fc[..], d, A, B, maxCode, opt, stat);
      SizeOf(heap[..], len, old(fc[..]), fc[..], d, A, B, maxCode, opt, stat);
      JoinNext(A, B, maxCode);
      var node: nat := ForcedSymbol(maxCode);
      if maxCode < 2 { maxCode := maxCode + 1; }
      ghost var h: seq<nat>, f: seq<nat> := heap[..], fc[..];
      len := len + 1;
      heap[len] := node;
      fc[node] := 1;
      assert heap[..] == h[len := node] && fc[..] == f[node := 1];
      depth[node] := 0;
      opt := opt - 1;
      if d.hasTree { stat := stat - d.tree[node]; }
      B := B + {node};
    }
    SizeOf(heap[..], len, old(fc[..]), fc[..], d, A, B, maxCode, opt, stat);
    JoinedTwo(A, B);
  }

  lemma SizeOf(h: seq<nat>, len: nat, f: seq<nat>, f': seq<nat>, d: StaticDesc, A: set<nat>, B: set<nat>, maxCode: int,
               opt: int, stat: int)
    requires ValidDesc(d) && ForcedSoFar(h, len, f, f', d, A, B, maxCode, opt, stat)
    ensures |B| == len && Largest(B, maxCode)
  {
  }

  /** zlib/trees.c:658: order the heap from its leaves up. */
  method Heapify(heap: array<nat>, len: nat, fc: array<nat>, depth: array<nat>, ghost A: set<nat>)
    requires heap != fc && heap != depth && 1 <= len < heap.Length
    requires Nodes(heap[..], len) == multiset(A) && InRange(heap[..], len, fc[..], depth[..])
    modifies heap
    ensures HoldsForest(heap[..], len, fc[..], depth[..], A)
  {
    var n := len / 2;
    while n >= 1
      invariant 0 <= n <= len / 2
      invariant Nodes(heap[..], len) == multiset(A) && InRange(heap[..], len, fc[..], depth[..])
      invariant HeapFrom(heap[..], len, fc[..], depth[..], n + 1)
    {
      PqDownHeap(heap, len, fc, depth, n);
      n := n - 1;
    }
  }

  lemma StartMerging(h: seq<nat>, len: nat, f: seq<nat>, depth: seq<nat>, dl: seq<nat>, leaves: set<nat>, first: nat)
    requires HoldsForest(h, len, f, depth, leaves) && Below(leaves, first) && len <= first
    requires |dl| == |f| && 2 * first <= |f| && 2 * first <= |depth| && 2 * first < |h|
    requires Sum(leaves, |f|, f) < FREQ_RANGE
    ensures Merging(h, len, |h|, f, depth, dl, leaves, first, [])
  {
  }

  /** When one node is left the tree is complete. */
  lemma EndMerging(h: seq<nat>, heapMax: nat, f: seq<nat>, depth: seq<nat>, dl: seq<nat>, leaves: set<nat>,
                   first: nat, ms: seq<(nat, nat)>)
    requires Merging(h, 1, heapMax, f, depth, dl, leaves, first, ms) && |ms| > 0
    ensures heapMax > 1 && Grown(f, leaves, ms, first, h[1])
    ensures Listed(h[heapMax - 1 := h[1]], heapMax - 1, ms, h[1])
  {
    var A := Forest(leaves, ms, first, |ms|);
    assert h[1..2] == [h[1]];
    InNodes(h, 1, A, 1);
    forall k: nat | k in A ensures k == h[1] { var j := NodesCover(h, 1, A, k); }
    assert A == {h[1]};
    var h' := h[heapMax - 1 := h[1]];
    forall e | 0 <= e < 2 * |ms| ensures h'[|h'| - 1 - e] == NodeAt(ms, e) {
      assert h[|h| - 1 - e] == NodeAt(ms, e);
    }
  }

  /** zlib/trees.c:688. */
  method ListRoot(heap: array<nat>, heapMax0: nat, fc: array<nat>, depth: array<nat>, dl: array<nat>,
                  elems: nat, ghost leaves: set<nat>, ghost ms: seq<(nat, nat)>)
    returns (heapMax: nat, ghost root: nat)
    requires heap != fc && heap != depth && heap != dl && |ms| > 0
    requires Merging(heap[..], 1, heapMax0, fc[..], depth[..], dl[..], leaves, elems, ms)
    modifies heap
    ensures Grown(fc[..], leaves, ms, elems, root) && Listed(heap[..], heapMax, ms, root)
    ensures Fathers(dl[..], elems, ms)
  {
    EndMerging(heap[..], heapMax0, fc[..], depth[..], dl[..], leaves, elems, ms);
    root := heap[1];
    ghost var h: seq<nat> := heap[..];
    heapMax := heapMax0 - 1;
    heap[heapMax] := heap[1];
    assert heap[..] == h[heapMax := h[1]];
  }

  /** One turn of the loop: of the nodes below elems only leaves are touched. */
  method MergeOnce(heap: array<nat>, len: nat, heapMax: nat, fc: array<nat>, depth: array<nat>, dl: array<nat>,
                   node: nat, ghost leaves: set<nat>, ghost elems: nat, ghost ms: seq<(nat, nat)>)
    returns (ghost more: seq<(nat, nat)>)
    requires heap != fc && heap != depth && heap != dl && fc != depth && fc != dl && depth != dl
    requires Merging(heap[..], len, heapMax, fc[..], depth[..], dl[..], leaves, elems, ms)
    requires 2 <= len && node == elems + |ms| && elems <= fc.Length == dl.Length
    modifies heap, fc, depth, dl
    ensures heapMax >= 2
    ensures Merging(heap[..], len - 1, heapMax - 2, fc[..], depth[..], dl[..], leaves, elems, more)
    ensures |more| == |ms| + 1
    ensures fc[..elems] == old(fc[..elems])
    ensures forall k: nat :: k < elems && k !in leaves ==> dl[k] == old(dl[k])
  {
    hide Merging;
    MergingBounds(heap[..], len, heapMax, fc[..], depth[..], dl[..], leaves, elems, ms);
    forall k: nat | k < elems && k in Now(leaves, elems, ms) ensures k in leaves {
      OldNodes(leaves, ms, elems, |ms|, k);
    }
    ghost var m2 := MergeTwo(heap, len, heapMax, fc, depth, dl, node, leaves, elems, ms);
    more := ms + [m2];
  }

  /** zlib/trees.c:663-688: merge until one tree is left, and list its root. */
  method MergeAll(heap: array<nat>, len0: nat, fc: array<nat>, depth: array<nat>, dl: array<nat>,
                  elems: nat, ghost leaves: set<nat>)
    returns (heapMax: nat, ghost ms: seq<(nat, nat)>, ghost root: nat)
    requires heap != fc && heap != depth && heap != dl && fc != depth && fc != dl && depth != dl
    requires HoldsForest(heap[..], len0, fc[..], depth[..], leaves) && Below(leaves, elems) && 2 <= len0 <= elems
    requires fc.Length == dl.Length && 2 * elems <= fc.Length && 2 * elems <= depth.Length && 2 * elems < heap.Length
    requires Sum(leaves, fc.Length, fc[..]) < FREQ_RANGE
    modifies heap, fc, depth, dl
    ensures Grown(fc[..], leaves, ms, elems, root) && Listed(heap[..], heapMax, ms, root)
    ensures Fathers(dl[..], elems, ms)
    ensures forall k :: 0 <= k < elems ==> fc[k] == old(fc[k])
    ensures forall k: nat :: k < elems && k !in leaves ==> dl[k] == old(dl[k])
  {
    hide Merging, HoldsForest, Grown, Listed, Fathers, Below, Sum;
    var len, node := len0, elems;
    heapMax, ms := heap.Length, [];
    StartMerging(heap[..], len, fc[..], depth[..], dl[..], leaves, elems);
    while true
      invariant 2 <= len && node == elems + |ms|
      invariant Merging(heap[..], len, heapMax, fc[..], depth[..], dl[..], leaves, elems, ms)
      invariant fc[..elems] == old(fc[..elems])
      invariant forall k: nat :: k < elems && k !in leaves ==> dl[k] == old(dl[k])
      decreases len
    {
      ms := MergeOnce(heap, len, heapMax, fc, depth, dl, node, leaves, elems, ms);
      node, len, heapMax := node + 1, len - 1, heapMax - 2;
      if len < 2 { break; }
    }
    heapMax, root := ListRoot(heap, heapMax, fc, depth, dl, elems, leaves, ms);
  }

  // ---------------------------------------------------------- forced symbols

  lemma {:induction false} SumDifference(A: set<nat>, B: set<nat>, n: nat, g: seq<nat>, g': seq<nat>, h: seq<nat>)
    requires n <= |g| && n <= |g'| && n <= |h| && A <= B
    requires forall k: nat :: k < n && k in A ==> g'[k] == g[k]
    requires forall k: nat :: k < n && k in B && k !in A ==> g'[k] == h[k]
    ensures Sum(B, n, g') - Sum(A, n, g) == Sum(B, n, h) - Sum(A, n, h)
  {
    if n != 0 { SumDifference(A, B, n - 1, g, g', h); }
  }

  lemma TwoNodes(B: set<nat>) returns (a: nat, b: nat)
    requires |B| == 2
    ensures a != b && B == {a, b}
  {
    a :| a in B;
    var C := B - {a};
    assert |C| == 1 && B == C + {a};
    assert C != {};
    b :| b in C;
    CardinalityOne(C, b);
  }

  lemma CardinalityOne(C: set<nat>, b: nat)
    requires |C| == 1 && b in C
    ensures C == {b}
  {
    if c :| c in C && c != b {
      CardinalityMono({b, c}, C);
      assert false;
    }
  }

  /** A complete code of two symbols gives both one bit. */
  lemma TwoSymbols(lens: seq<nat>, B: set<nat>)
    requires ValidLens(lens) && LeafLengths(lens, B) && Below(B, |lens|) && |B| == 2
    requires Kraft(lens) == Pow2(MAXBITS)
    ensures forall k: nat :: k in B ==> lens[k] == 1
  {
    hide KraftBelow, Sum, Shares;
    var a, b := TwoNodes(B);
    KraftIsSum(lens, B, lens, |lens|, MAXBITS);
    SumRemoveTwo(B, |lens|, Shares(lens, MAXBITS), a, b);
    SumEmpty(B - {a} - {b}, |lens|, Shares(lens, MAXBITS));
    ShlOne(0);
    HalfShares(MAXBITS, lens[a], lens[b]);
  }

  lemma HalfShares(m: nat, a: nat, b: nat)
    requires 1 <= a <= m && 1 <= b <= m && Pow2(m - a) + Pow2(m - b) == Pow2(m)
    ensures a == 1 && b == 1
  {
    Pow2Mono(m - a, m - 1);
    Pow2Mono(m - b, m - 1);
    if a > 1 { Pow2Mono(m - a, m - 2); }
    if b > 1 { Pow2Mono(m - b, m - 2); }
  }

  /** Forced symbols cost nothing once opt_len and static_len were lowered for them. */
  lemma ForcedAreFree(h: seq<nat>, len: nat, f: seq<nat>, f': seq<nat>, d: StaticDesc, A: set<nat>, B: set<nat>,
                      maxCode: int, opt: int, stat: int, lens: seq<nat>)
    requires ValidDesc(d) && d.elems <= |f| && ForcedSoFar(h, len, f, f', d, A, B, maxCode, opt, stat) && len >= 2
    requires |lens| == d.elems && ValidLens(lens) && LeafLengths(lens, B) && Kraft(lens) == Pow2(MAXBITS)
    requires forall k :: 0 <= k < 3 && k < d.elems ==> ExtraBits(d, k) == 0
    ensures opt + Sum(B, d.elems, CodeBits(f', lens, d)) == Sum(A, d.elems, CodeBits(f, lens, d))
    ensures d.hasTree ==> stat + Sum(B, d.elems, CodeBits(f', d.tree, d)) == Sum(A, d.elems, CodeBits(f, d.tree, d))
    ensures !d.hasTree ==> stat == 0
  {
    hide Largest, Pow2, ValidLens, KraftBelow;
    if |A| < 2 { TwoSymbols(lens, B); }
    SumDifference(A, B, d.elems, CodeBits(f, lens, d), CodeBits(f', lens, d), Ones(d.elems));
    if d.hasTree {
      SumDifference(A, B, d.elems, CodeBits(f, d.tree, d), CodeBits(f', d.tree, d), Lengths(d));
    } else {
      SumZero(A, d.elems, Lengths(d));
      SumZero(B, d.elems, Lengths(d));
    }
  }

  // --------------------------------------------------------------- build_tree

  /** The bits of a block's symbols under lengths len: code and extra bits times frequency. */
  ghost function SymbolBits(f: seq<nat>, len: seq<nat>, d: StaticDesc): nat
    requires ValidDesc(d) && d.elems <= |f| && d.elems <= |len|
  {
    Sum(Occurring(f, d.elems), d.elems, CodeBits(f, len, d))
  }

  lemma {:induction false} SumCard(A: set<nat>, n: nat, m: nat)
    requires n <= m && Below(A, n)
    ensures Sum(A, n, Ones(m)) == |A|
    decreases n
  {
    if n != 0 {
      if n - 1 in A {
        SumCard(A - {n - 1}, n - 1, m);
        SumRemove(A, n - 1, Ones(m), n - 1);
      } else {
        SumCard(A, n - 1, m);
      }
    } else {
      assert A == {};
    }
  }

  /** How many symbols have to be forced. */
  ghost function Missing(A: set<nat>): nat {
    if |A| < 2 then 2 - |A| else 0
  }

  /** Forcing adds one for each symbol that is missing. */
  lemma ForcedSum(h: seq<nat>, len: nat, f: seq<nat>, f': seq<nat>, d: StaticDesc, A: set<nat>, B: set<nat>,
                  maxCode: int, opt: int, stat: int)
    requires ValidDesc(d) && d.elems <= |f| && ForcedSoFar(h, len, f, f', d, A, B, maxCode, opt, stat)
    ensures Sum(B, |f'|, f') <= Sum(A, d.elems, f) + Missing(A)
    ensures InRangeOf(h, len, d.elems)
  {
    SumBeyond(B, d.elems, |f'|, f');
    SumDifference(A, B, d.elems, f, f', Ones(d.elems));
    SumCard(A, d.elems, d.elems);
    SumCard(B, d.elems, d.elems);
    forall i | 1 <= i <= len ensures h[i] < d.elems { InNodes(h, len, B, i); }
  }

  ghost predicate InRangeOf(h: seq<nat>, len: nat, n: nat) {
    len < |h| && forall i :: 1 <= i <= len ==> h[i] < n
  }

  /** zlib/trees.c:632-658: collect, force and order the leaves. */
  method InitialForest(heap: array<nat>, depth: array<nat>, fc: array<nat>, dl: array<nat>, d: StaticDesc)
    returns (len: nat, maxCode: int, opt: int, stat: int, ghost h: seq<nat>, ghost leaves: set<nat>)
    requires heap != fc && heap != dl && heap != depth && depth != fc && depth != dl && fc != dl && ValidDesc(d)
    requires 3 <= d.elems < heap.Length && d.elems <= depth.Length && d.elems <= fc.Length == dl.Length
    modifies heap, depth, fc, dl
    ensures HoldsForest(heap[..], len, fc[..], depth[..], leaves) && 2 <= len <= d.elems
    ensures ForcedSoFar(h, len, old(fc[..]), fc[..], d, Occurring(old(fc[..]), d.elems), leaves, maxCode, opt, stat)
    ensures Sum(leaves, fc.Length, fc[..]) <= Sum(Occurring(old(fc[..]), d.elems), d.elems, old(fc[..]))
           + Missing(Occurring(old(fc[..]), d.elems))
    ensures forall k: nat :: k < d.elems ==> if k in leaves then depth[k] == 0 else dl[k] == 0
    ensures Joined(Occurring(old(fc[..]), d.elems), leaves)
  {
    hide Joined;
    ghost var A := Occurring(fc[..], d.elems);
    len, maxCode := Collect(heap, depth, fc, dl, d.elems);
    len, maxCode, opt, stat, leaves := ForceTwo(heap, depth, fc, d, len, maxCode, A);
    h := heap[..];
    ForcedSum(h, len, old(fc[..]), fc[..], d, A, leaves, maxCode, opt, stat);
    AtMost(leaves, d.elems);
    Heapify(heap, len, fc, depth, leaves);
  }

  lemma {:induction false} AtMost(A: set<nat>, n: nat)
    requires Below(A, n)
    ensures |A| <= n
  {
    if n != 0 {
      AtMost(A - {n - 1}, n - 1);
    } else {
      assert A == {};
    }
  }

  /** overflow counts the nodes of the merged tree whose father is at the length limit already. */
  ghost predicate Overflows(weights: seq<nat>, leaves: set<nat>, merges: seq<(nat, nat)>, root: nat, depths: seq<nat>,
                            d: StaticDesc, overflow: nat)
    requires d.elems <= |weights|
  {
    && Grown(weights, leaves, merges, d.elems, root)
        && Tree(weights, leaves, merges, d.elems, depths, d.maxLength, root)
    && overflow == 2 * CutOff(depths, d.elems, d.maxLength, 0, |merges|)
  }

  /** l' is l with two lengths swapped. */
  ghost predicate Swapped(l: seq<nat>, l': seq<nat>, i: nat, j: nat) {
    i < |l| && j < |l| && i != j && l' == l[i := l[j]][j := l[i]]
  }

  lemma SwappedCode(A: set<nat>, l: seq<nat>, l': seq<nat>, m: nat, i: nat, j: nat)
    requires IsCode(A, l, m) && i in A && j in A && Swapped(l, l', i, j)
    ensures IsCode(A, l', m)
  {
    hide Pow2, Sum;
    SumRemoveTwo(A, |l|, Shares(l, m), i, j);
    SumRemoveTwo(A, |l|, Shares(l', m), i, j);
    SumSame(A - {i} - {j}, |l|, Shares(l, m), Shares(l', m));
  }

  lemma SwappedCost(f: seq<nat>, A: set<nat>, l: seq<nat>, l': seq<nat>, i: nat, j: nat)
    requires |f| == |l| && i in A && j in A && Swapped(l, l', i, j) && f[i] > f[j] && l[i] > l[j]
    ensures |l'| == |f| && Cost(f, A, l') < Cost(f, A, l)
  {
    hide Sum;
    SumRemoveTwo(A, |l|, Products(f, l), i, j);
    SumRemoveTwo(A, |l|, Products(f, l'), i, j);
    SumSame(A - {i} - {j}, |l|, Products(f, l), Products(f, l'));
    SwapProducts(f[i], f[j], l[i], l[j]);
  }

  lemma SwapProducts(a: nat, b: nat, x: nat, y: nat)
    requires a > b && x > y
    ensures a * y + b * x < a * x + b * y
  {
    assert a * x + b * y - a * y - b * x == (a - b) * (x - y);
  }

  /** Nothing is gained by swapping two lengths of a code that no other beats. */
  lemma CheapestFalls(f: seq<nat>, A: set<nat>, l: seq<nat>, m: nat)
    requires |f| == |l| && IsCode(A, l, m) && LowerBound(f, A, Cost(f, A, l))
    ensures HeavierNotLonger(f, l, A)
  {
    hide Cost, IsCode, Products;
    forall i: nat, j: nat | i in A && j in A && i < |f| && j < |f| && f[i] > f[j] ensures l[i] <= l[j] {
      if l[i] > l[j] {
        var l' := l[i := l[j]][j := l[i]];
        SwappedCode(A, l, l', m, i, j);
        SwappedCost(f, A, l, l', i, j);
        assert false;
      }
    }
  }

  lemma SameFalls(f: seq<nat>, A: set<nat>, l: seq<nat>, l': seq<nat>)
    requires HeavierNotLonger(f, l, A) && |l| == |l'| == |f| && forall k: nat :: k in A && k < |l| ==> l'[k] == l[k]
    ensures HeavierNotLonger(f, l', A)
  {
  }

  /** zlib/trees.c:693: the lengths, what they cost, and when they are cheapest. */
  method TreeLengths(heap: array<nat>, heapMax: nat, fc: array<nat>, dl: array<nat>, blCount: array<nat>,
                     d: StaticDesc, maxCode: nat,
                     ghost leaves: set<nat>, ghost ms: seq<(nat, nat)>, ghost root: nat)
    returns (opt: int, stat: nat, overflow: nat, ghost depths: seq<nat>, ghost trail: seq<nat>)
    requires dl != heap && dl != fc && dl != blCount && blCount != heap && blCount != fc
    requires blCount.Length == MAXBITS + 1 && dl.Length == fc.Length
    requires ValidDesc(d) && d.elems <= fc.Length && maxCode < d.elems && Below(leaves, maxCode + 1)
    requires Grown(fc[..], leaves, ms, d.elems, root) && Listed(heap[..], heapMax, ms, root)
    requires Fathers(dl[..], d.elems, ms)
    requires forall k: nat :: k < d.elems && k !in leaves ==> dl[k] == 0
    modifies dl, blCount
    ensures CompleteCode(dl[..d.elems], blCount[..], leaves, d.maxLength)
    ensures opt == Sum(leaves, d.elems, CodeBits(fc[..], dl[..], d))
    ensures stat == if d.hasTree then Sum(leaves, d.elems, CodeBits(fc[..], d.tree, d)) else 0
    ensures Overflows(fc[..], leaves, ms, root, depths, d, overflow)
    ensures overflow == 0 ==> LowerBound(fc[..], leaves, Cost(fc[..], leaves, dl[..]))
    ensures (forall k: nat :: k in leaves ==> dl[k] < d.maxLength) ==> overflow == 0
    ensures HeavierNotLonger(fc[..], dl[..], leaves) && |trail| == overflow / 2
    ensures Moves(DepthCounts(depths, leaves, d.elems), d.maxLength, trail, blCount[..])
  {
    hide Moves, HeavierNotLonger;
    depths := TreeDepths(fc[..], leaves, ms, d.elems, d.maxLength, root);
    opt, stat, overflow, trail := GenLengths(heap, heapMax, fc, dl, blCount, d, maxCode, leaves, ms, root, depths);
    if overflow > 0 {
      ghost var s := AtBelow(dl[..d.elems], d.elems, d.maxLength, 0);
      assert s in leaves && dl[s] == d.maxLength;
    } else {
      TreeOptimal(fc[..], leaves, ms, d.elems, depths, d.maxLength, root);
      SumSame(leaves, fc.Length, Products(fc[..], depths), Products(fc[..], dl[..]));
      CutOffKraft(fc[..], leaves, ms, d.elems, depths, d.maxLength, root, 0);
      CheapestFalls(fc[..], leaves, depths, d.maxLength);
      SameFalls(fc[..], leaves, depths, dl[..]);
    }
  }

  /** What the forced forest gives the merging loop. */
  lemma ForcedFacts(h: seq<nat>, len: nat, f: seq<nat>, f': seq<nat>, d: StaticDesc, B: set<nat>,
                    maxCode: int, opt: int, stat: int)
    requires ValidDesc(d) && d.elems <= |f| && len >= 2
    requires ForcedSoFar(h, len, f, f', d, Occurring(f, d.elems), B, maxCode, opt, stat)
    ensures 0 <= maxCode < d.elems && Below(B, maxCode + 1) && maxCode in B && Below(B, d.elems) && |B| >= 2
  {
  }

  lemma SameBits(f: seq<nat>, f': seq<nat>, l: seq<nat>, l': seq<nat>, d: StaticDesc)
    requires ValidDesc(d) && d.elems <= |f| && d.elems <= |f'| && d.elems <= |l| && d.elems <= |l'|
    requires forall k :: 0 <= k < d.elems ==> f[k] == f'[k] && l[k] == l'[k]
    ensures CodeBits(f, l, d) == CodeBits(f', l', d)
  {
  }

  /** What forcing took off and what the tree costs make up the cost of the symbols that occur. */
  lemma CostsAgree(h: seq<nat>, len: nat, f: seq<nat>, f1: seq<nat>, w: seq<nat>, d: StaticDesc, B: set<nat>,
                   maxCode: int, opt: int, stat: int, dl: seq<nat>, cnt: seq<nat>, opt': int, stat': int)
    requires ValidDesc(d) && d.elems <= |f| == |w| == |dl| && len >= 2
    requires ForcedSoFar(h, len, f, f1, d, Occurring(f, d.elems), B, maxCode, opt, stat)
    requires forall k :: 0 <= k < d.elems ==> w[k] == f1[k]
    requires CompleteCode(dl[..d.elems], cnt, B, d.maxLength)
    requires forall k :: 0 <= k < 3 && k < d.elems ==> ExtraBits(d, k) == 0
    requires opt' == Sum(B, d.elems, CodeBits(w, dl, d))
    requires stat' == if d.hasTree then Sum(B, d.elems, CodeBits(w, d.tree, d)) else 0
    ensures opt + opt' == SymbolBits(f, dl, d)
    ensures stat + stat' == if d.hasTree then SymbolBits(f, d.tree, d) else 0
    ensures Forcing(f[..d.elems], w[..d.elems], Occurring(f, d.elems), B)
  {
    var lens := dl[..d.elems];
    ForcedAreFree(h, len, f, f1, d, Occurring(f, d.elems), B, maxCode, opt, stat, lens);
    SameBits(f, f, dl, lens, d);
    SameBits(w, f1, dl, lens, d);
    if d.hasTree { SameBits(w, f1, d.tree, d.tree, d); }
  }

  /** The arrays of the compression state that `build_tree` works in. */
  class TreeState {
    const heap: array<nat>
    const depth: array<nat>
    const blCount: array<nat>
    var heapLen: nat
    var heapMax: nat
    var optLen: int
    var staticLen: int

    constructor ()
      ensures Valid() && fresh(heap) && fresh(depth) && fresh(blCount) && optLen == 0 && staticLen == 0
    {
      heap := new nat[HEAP_SIZE](i => 0);
      depth := new nat[HEAP_SIZE](i => 0);
      blCount := new nat[MAXBITS + 1](i => 0);
      heapLen, heapMax, optLen, staticLen := 0, HEAP_SIZE, 0, 0;
    }

    ghost predicate Valid() {
      && heap.Length == depth.Length == HEAP_SIZE && blCount.Length == MAXBITS + 1
      && heap != depth && heap != blCount && depth != blCount
    }

    /** fc is Freq before and Code after, dl Dad or Len, as in the source's unions. */
    method BuildTree(fc: array<nat>, dl: array<nat>, d: StaticDesc)
      returns (maxCode: nat, overflow: nat, ghost leaves: set<nat>, ghost weights: seq<nat>,
               ghost merges: seq<(nat, nat)>, ghost root: nat, ghost depths: seq<nat>, ghost trail: seq<nat>)
      requires Valid() && ValidDesc(d) && 3 <= d.elems && 2 * d.elems < HEAP_SIZE
      requires fc != dl && fc.Length == dl.Length && 2 * d.elems <= fc.Length
      requires {fc, dl} !! {heap, depth, blCount}
      requires forall k :: 0 <= k < 3 ==> ExtraBits(d, k) == 0
      requires Sum(Occurring(fc[..], d.elems), d.elems, fc[..]) + Missing(Occurring(fc[..], d.elems)) < FREQ_RANGE
      modifies this, heap, depth, blCount, fc, dl
      ensures maxCode < d.elems && Below(leaves, maxCode + 1) && maxCode in leaves && |weights| == fc.Length
      ensures Forcing(old(fc[..])[..d.elems], weights[..d.elems], Occurring(old(fc[..]), d.elems), leaves)
      ensures |leaves| >= 2 && Joined(Occurring(old(fc[..]), d.elems), leaves)
      ensures CompleteCode(dl[..d.elems], blCount[..], leaves, d.maxLength)
      ensures forall k: nat :: k in leaves ==> k < d.elems && fc[k] == RevCode(dl[..d.elems], k)
      ensures optLen == old(optLen) + SymbolBits(old(fc[..]), dl[..], d)
      ensures staticLen == old(staticLen) + if d.hasTree then SymbolBits(old(fc[..]), d.tree, d) else 0
      ensures Overflows(weights, leaves, merges, root, depths, d, overflow)
      ensures overflow == 0 ==> LowerBound(weights, leaves, Cost(weights, leaves, dl[..]))
      ensures (forall k: nat :: k in leaves ==> dl[k] < d.maxLength) ==> overflow == 0
      ensures HeavierNotLonger(weights, dl[..], leaves)
      ensures |trail| == overflow / 2
      ensures Moves(DepthCounts(depths, leaves, d.elems), d.maxLength, trail, blCount[..])
    {
      hide Moves, Joined, HeavierNotLonger, DepthCounts, Kraft, Rev, RevCode, Smaller, InRange, Father, HeapFrom, Nodes,
        Sum, Products, Shares, Within, IsCode, Cost, LowerBound, Merge, HoldsForest, Count, MergeAt;
      var len, mc, opt, stat;
      ghost var h;
      len, mc, opt, stat, h, leaves := InitialForest(heap, depth, fc, dl, d);
      ghost var f1 := fc[..];
      ForcedFacts(h, len, old(fc[..]), f1, d, leaves, mc, opt, stat);
      maxCode := mc;
      heapMax, merges, root := MergeAll(heap, len, fc, depth, dl, d.elems, leaves);
      heapLen := 1;
      weights := fc[..];
      var opt', stat';
      opt', stat', overflow, depths, trail :=
        TreeLengths(heap, heapMax, fc, dl, blCount, d, maxCode, leaves, merges, root);
      CostsAgree(h, len, old(fc[..]), f1, weights, d, leaves, mc, opt, stat, dl[..], blCount[..], opt', stat');
      optLen, staticLen := optLen + opt + opt', staticLen + stat + stat';
      GenCodes(fc, dl, maxCode, blCount, dl[..d.elems]);
    }
  }
}
