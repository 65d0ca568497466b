/**
 The merging loop of `build_tree` (zlib/trees.c:660-688): take the two least nodes
 off the heap, list them at the far end of the same array, and put their father in.

 `Merging` ties the arrays to a run of merges: the heap holds the current forest,
 the list the nodes already joined, and the Dad fields their fathers.
 */
module HeapMerge {
  import opened Heap
  import opened Huffman
  import opened MergeRuns
  import opened TreeScan

  /** Frequencies are 16 bits wide, depths 8. */
  const FREQ_RANGE := 65536
  const DEPTH_RANGE := 256

  // ----------------------------------------------------------- bags of nodes

  lemma DropFirst(h: seq<nat>, len: nat)
    requires 2 <= len < |h|
    ensures Nodes(h[1 := h[len]], len - 1) == Nodes(h, len) - multiset{h[1]}
    ensures h[1] in Nodes(h, len)
  {
    var s := h[1..len + 1];
    assert s == [h[1]] + h[2..len] + [h[len]];
    assert h[1 := h[len]][1..len] == [h[len]] + h[2..len];
  }

  lemma ReplaceFirst(h: seq<nat>, len: nat, v: nat)
    requires 1 <= len < |h|
    ensures Nodes(h[1 := v], len) == Nodes(h, len) - multiset{h[1]} + multiset{v}
    ensures h[1] in Nodes(h, len)
  {
    assert h[1..len + 1] == [h[1]] + h[2..len + 1];
    assert h[1 := v][1..len + 1] == [v] + h[2..len + 1];
  }

  lemma NodesPrefix(h: seq<nat>, h': seq<nat>, len: nat)
    requires len < |h| && len < |h'| && forall i :: 1 <= i <= len ==> h[i] == h'[i]
    ensures Nodes(h, len) == Nodes(h', len)
  {
    assert h[1..len + 1] == h'[1..len + 1];
  }

  lemma NodesAdd(h: seq<nat>, len: nat, v: nat)
    requires len + 1 < |h|
    ensures Nodes(h[len + 1 := v], len + 1) == Nodes(h, len) + multiset{v}
  {
    assert h[len + 1 := v][1..len + 2] == h[1..len + 1] + [v];
  }

  lemma InNodes(h: seq<nat>, len: nat, A: set<nat>, j: nat)
    requires len < |h| && 1 <= j <= len && Nodes(h, len) == multiset(A)
    ensures h[j] in A
  {
    assert h[1..len + 1][j - 1] == h[j];
    assert h[j] in Nodes(h, len);
  }

  lemma NodesCover(h: seq<nat>, len: nat, A: set<nat>, k: nat) returns (j: nat)
    requires len < |h| && k in A && Nodes(h, len) == multiset(A)
    ensures 1 <= j <= len && h[j] == k
  {
    assert k in Nodes(h, len);
    var i :| 0 <= i < len && h[1..len + 1][i] == k;
    j := i + 1;
  }

  /** The first node of the heap has the least frequency in the forest. */
  /** No node of A has less weight than n, nor the same weight and less depth. */
  ghost predicate Least(f: seq<nat>, d: seq<nat>, A: set<nat>, n: nat) {
    n in A && n < |f| && n < |d|
    && forall k: nat :: k in A && k < |f| && k < |d| ==> f[n] < f[k] || (f[n] == f[k] && d[n] <= d[k])
  }

  lemma LeastFirst(h: seq<nat>, len: nat, f: seq<nat>, d: seq<nat>, A: set<nat>)
    requires 1 <= len && InRange(h, len, f, d) && HeapFrom(h, len, f, d, 1) && Nodes(h, len) == multiset(A)
    ensures h[1] in A && Below(A, |f|)
    ensures forall k: nat :: k in A ==> f[h[1]] <= f[k]
    ensures Least(f, d, A, h[1])
  {
    InNodes(h, len, A, 1);
    forall k: nat | k in A
      ensures k < |f| && k < |d| && (f[h[1]] < f[k] || (f[h[1]] == f[k] && d[h[1]] <= d[k]))
    {
      var j := NodesCover(h, len, A, k);
      FirstIsLeast(h, len, f, d, j);
    }
  }

  /** Sinking the first node needs only its sons' sub-heaps in order, whatever the first node is. */
  lemma NewFirst(h: seq<nat>, len: nat, f: seq<nat>, d: seq<nat>, h': seq<nat>, len': nat, f': seq<nat>, d': seq<nat>)
    requires InRange(h, len, f, d) && HeapFrom(h, len, f, d, 2) && 1 <= len' <= len < |h'|
    requires |f'| == |f| && |d'| == |d| && h'[1] < |f| && h'[1] < |d|
    requires forall i :: 2 <= i <= len' ==> h'[i] == h[i] && f'[h[i]] == f[h[i]] && d'[h[i]] == d[h[i]]
    ensures InRange(h', len', f', d') && HeapFrom(h', len', f', d', 2)
  {
    forall k | 2 <= k <= len' ensures Father(h', len', f', d', k) {
      assert Father(h, len, f, d, k);
    }
  }

  // ---------------------------------------------------------------- the state

  ghost predicate ListedSoFar(heap: seq<nat>, ms: seq<(nat, nat)>) {
    2 * |ms| <= |heap| && forall e :: 0 <= e < 2 * |ms| ==> heap[|heap| - 1 - e] == NodeAt(ms, e)
  }

  ghost predicate Fathers(dl: seq<nat>, first: nat, ms: seq<(nat, nat)>) {
    forall e: nat :: e < 2 * |ms| ==> NodeAt(ms, e) < |dl| && dl[NodeAt(ms, e)] == first + e / 2
  }

  /** The heap holds the forest A. */
  ghost predicate HoldsForest(h: seq<nat>, len: nat, f: seq<nat>, depth: seq<nat>, A: set<nat>) {
    1 <= len && InRange(h, len, f, depth) && HeapFrom(h, len, f, depth, 1) && Nodes(h, len) == multiset(A)
  }

  ghost predicate Merging(h: seq<nat>, len: nat, heapMax: nat, f: seq<nat>, depth: seq<nat>, dl: seq<nat>,
                          leaves: set<nat>, first: nat, ms: seq<(nat, nat)>)
  {
    && Run(f, leaves, ms, first) && Below(leaves, first)
    && HoldsForest(h, len, f, depth, Forest(leaves, ms, first, |ms|))
    && heapMax + 2 * |ms| == |h| && len < heapMax && ListedSoFar(h, ms)
    && |dl| == |f| && Fathers(dl, first, ms)
    && |ms| + len <= first && 2 * first <= |f| && 2 * first <= |depth| && 2 * first < |h|
    && Sum(Forest(leaves, ms, first, |ms|), |f|, f) < FREQ_RANGE
  }

  // ---------------------------------------------------------------- the steps

  lemma BagRemove(A: set<nat>, a: nat)
    requires a in A
    ensures multiset(A) - multiset{a} == multiset(A - {a})
  {
  }

  lemma BagAdd(A: set<nat>, a: nat)
    requires a !in A
    ensures multiset(A) + multiset{a} == multiset(A + {a})
  {
  }

  /** zlib/trees.c:430-435: take the least node off the heap. */
  method PqRemove(heap: array<nat>, len: nat, fc: array<nat>, depth: array<nat>, ghost A: set<nat>)
    returns (top: nat)
    requires heap != fc && heap != depth && 2 <= len
    requires HoldsForest(heap[..], len, fc[..], depth[..], A)
    modifies heap
    ensures top in A && top < depth.Length && Below(A, fc.Length) && forall k: nat :: k in A ==> fc[top] <= fc[k]
    ensures Least(fc[..], depth[..], A, top)
    ensures HoldsForest(heap[..], len - 1, fc[..], depth[..], A - {top})
    ensures forall i :: len < i < heap.Length ==> heap[i] == old(heap[i])
  {
    ghost var h, f, d := heap[..], fc[..], depth[..];
    LeastFirst(h, len, f, d, A);
    DropFirst(h, len);
    top := heap[1];
    BagRemove(A, top);
    heap[1] := heap[len];
    assert heap[..] == h[1 := h[len]];
    NewFirst(h, len, f, d, heap[..], len - 1, f, d);
    PqDownHeap(heap, len - 1, fc, depth, 1);
  }

  lemma SumMerged(A: set<nat>, f: seq<nat>, n: nat, m: nat, v: nat)
    requires n in A && m in A && n != m && v !in A && v < |f| && Below(A, |f|)
    ensures f[n] + f[m] <= Sum(A, |f|, f)
    ensures Sum(Merged(A, n, m, v), |f|, f[v := f[n] + f[m]]) == Sum(A, |f|, f)
  {
    var f' := f[v := f[n] + f[m]];
    var B := A - {n} - {m};
    assert Merged(A, n, m, v) - {v} == B;
    SumRemoveTwo(A, |f|, f, n, m);
    SumRemove(Merged(A, n, m, v), |f|, f', v);
    SumSame(B, |f|, f, f');
  }

  /** zlib/trees.c:683-684: the new father takes the place of the second node removed. */
  method PutFather(heap: array<nat>, len: nat, fc: array<nat>, depth: array<nat>, node: nat, w: nat, dep: nat,
                   ghost B: set<nat>)
    requires heap != fc && heap != depth && fc != depth && 1 <= len
    requires HoldsForest(heap[..], len, fc[..], depth[..], B) && node !in B
    requires node < fc.Length && node < depth.Length
    modifies heap, fc, depth
    ensures fc[..] == old(fc[..])[node := w] && depth[..] == old(depth[..])[node := dep]
    ensures HoldsForest(heap[..], len, fc[..], depth[..], B - {old(heap[1])} + {node})
    ensures forall i :: len < i < heap.Length ==> heap[i] == old(heap[i])
  {
    ghost var h, f, d := heap[..], fc[..], depth[..];
    InNodes(h, len, B, 1);
    ReplaceFirst(h, len, node);
    BagRemove(B, h[1]);
    BagAdd(B - {h[1]}, node);
    forall i | 2 <= i <= len ensures h[i] != node { InNodes(h, len, B, i); }
    fc[node] := w;
    depth[node] := dep;
    heap[1] := node;
    assert fc[..] == f[node := w] && depth[..] == d[node := dep] && heap[..] == h[1 := node];
    NewFirst(h, len, f, d, heap[..], len, fc[..], depth[..]);
    PqDownHeap(heap, len, fc, depth, 1);
  }

  lemma ListMore(h: seq<nat>, h': seq<nat>, heapMax: nat, ms: seq<(nat, nat)>, n: nat, m: nat)
    requires ListedSoFar(h, ms) && heapMax + 2 * |ms| == |h| == |h'| && heapMax >= 2
    requires h'[heapMax - 1] == n && h'[heapMax - 2] == m
    requires forall i :: heapMax <= i < |h| ==> h'[i] == h[i]
    ensures ListedSoFar(h', ms + [(n, m)])
  {
    var ms' := ms + [(n, m)];
    forall e | 0 <= e < 2 * |ms'| ensures h'[|h'| - 1 - e] == NodeAt(ms', e) {
      if e < 2 * |ms| { assert NodeAt(ms', e) == NodeAt(ms, e); }
    }
  }

  lemma FathersMore(f: seq<nat>, dl: seq<nat>, leaves: set<nat>, first: nat, ms: seq<(nat, nat)>, n: nat, m: nat)
    requires Run(f, leaves, ms, first) && Below(leaves, first) && Fathers(dl, first, ms)
    requires n in Forest(leaves, ms, first, |ms|) && m in Forest(leaves, ms, first, |ms|)
    requires n < |dl| && m < |dl|
    ensures Fathers(dl[n := first + |ms|][m := first + |ms|], first, ms + [(n, m)])
  {
    var ms', dl' := ms + [(n, m)], dl[n := first + |ms|][m := first + |ms|];
    forall e: nat | e < 2 * |ms'| ensures NodeAt(ms', e) < |dl'| && dl'[NodeAt(ms', e)] == first + e / 2 {
      if e < 2 * |ms| {
        assert NodeAt(ms', e) == NodeAt(ms, e);
        Gone(f, leaves, ms, first, e / 2, |ms|);
      }
    }
  }

  /** One merge extends the run, keeps the total weight, and joins two lightest trees. */
  lemma MergeExtends(f: seq<nat>, leaves: set<nat>, first: nat, ms: seq<(nat, nat)>, n: nat, m: nat)
    requires Run(f, leaves, ms, first) && Below(leaves, first) && first + |ms| < |f|
    requires var A := Forest(leaves, ms, first, |ms|);
      && Below(A, |f|) && n in A && m in A - {n} && (forall k: nat :: k in A ==> f[n] <= f[k])
      && (forall k: nat :: k in A - {n} ==> f[m] <= f[k])
    ensures var A, v := Forest(leaves, ms, first, |ms|), first + |ms|;
      var f' := f[v := f[n] + f[m]];
      && Run(f', leaves, ms + [(n, m)], first) && v !in A
      && Forest(leaves, ms + [(n, m)], first, |ms| + 1) == A - {n} - {m} + {v}
      && Sum(A - {n} - {m} + {v}, |f|, f') == Sum(A, |f|, f)
      && f[n] + f[m] <= Sum(A, |f|, f)
  {
    var A, v := Forest(leaves, ms, first, |ms|), first + |ms|;
    ForestBound(f, leaves, ms, first, |ms|);
    SumMerged(A, f, n, m, v);
    RunExtend(f, leaves, ms, first, n, m, f[n] + f[m]);
  }

  /** What lies above the heap in its array does not matter to it. */
  lemma HoldsFrame(h: seq<nat>, h': seq<nat>, len: nat, f: seq<nat>, d: seq<nat>, A: set<nat>)
    requires HoldsForest(h, len, f, d, A)
    requires len < |h'| && forall i :: 1 <= i <= len ==> h'[i] == h[i]
    ensures HoldsForest(h', len, f, d, A)
  {
    NodesPrefix(h, h', len);
    forall k | 1 <= k <= len ensures Father(h', len, f, d, k) { assert Father(h, len, f, d, k); }
  }

  /** The forest when the heap is at work, for brevity. */
  ghost function Now(leaves: set<nat>, first: nat, ms: seq<(nat, nat)>): set<nat> {
    Forest(leaves, ms, first, |ms|)
  }

  /** zlib/trees.c:665-669: take two nodes off and list them. */
  method TakeTwo(heap: array<nat>, len: nat, heapMax: nat, fc: array<nat>, depth: array<nat>, ghost A: set<nat>)
    returns (n: nat, m: nat)
    requires heap != fc && heap != depth && 2 <= len && len + 1 < heapMax <= heap.Length
    requires HoldsForest(heap[..], len, fc[..], depth[..], A)
    modifies heap
    ensures n in A && m in A - {n} && Below(A, fc.Length) && m == heap[1]
    ensures n < depth.Length && m < depth.Length
    ensures forall k: nat :: k in A ==> fc[n] <= fc[k]
    ensures forall k: nat :: k in A - {n} ==> fc[m] <= fc[k]
    ensures Least(fc[..], depth[..], A, n) && Least(fc[..], depth[..], A - {n}, m)
    ensures HoldsForest(heap[..], len - 1, fc[..], depth[..], A - {n})
    ensures heap[heapMax - 1] == n && heap[heapMax - 2] == m
    ensures forall i :: heapMax <= i < heap.Length ==> heap[i] == old(heap[i])
  {
    n := PqRemove(heap, len, fc, depth, A);
    LeastFirst(heap[..], len - 1, fc[..], depth[..], A - {n});
    m := heap[1];
    ghost var h: seq<nat> := heap[..];
    heap[heapMax - 1] := n;
    heap[heapMax - 2] := m;
    HoldsFrame(h, heap[..], len - 1, fc[..], depth[..], A - {n});
  }

  /** The pieces of the state after a merge make up the state. */
  lemma Assemble(h: seq<nat>, h': seq<nat>, len: nat, heapMax: nat, f: seq<nat>, f': seq<nat>, depth: seq<nat>,
                 depth': seq<nat>, dl: seq<nat>, leaves: set<nat>, first: nat, ms: seq<(nat, nat)>, n: nat, m: nat)
    requires Merging(h, len, heapMax, f, depth, dl, leaves, first, ms) && 2 <= len && |h'| == |h|
    requires var A := Now(leaves, first, ms);
      && Below(A, |f|) && n in A && m in A - {n} && (forall k: nat :: k in A ==> f[n] <= f[k])
      && (forall k: nat :: k in A - {n} ==> f[m] <= f[k])
    requires first + |ms| < |f| && f' == f[first + |ms| := f[n] + f[m]] && |depth'| == |depth|
    requires h'[heapMax - 1] == n && h'[heapMax - 2] == m
    requires forall i :: heapMax <= i < |h| ==> h'[i] == h[i]
    requires HoldsForest(h', len - 1, f', depth', Now(leaves, first, ms) - {n} - {m} + {first + |ms|})
    ensures Merging(h', len - 1, heapMax - 2, f', depth', dl[n := first + |ms|][m := first + |ms|],
                    leaves, first, ms + [(n, m)])
  {
    MergeExtends(f, leaves, first, ms, n, m);
    FathersMore(f, dl, leaves, first, ms, n, m);
    ListMore(h, h', heapMax, ms, n, m);
  }

  lemma TwoFit(A: set<nat>, f: seq<nat>, n: nat, m: nat)
    requires Below(A, |f|) && n in A && m in A - {n} && Sum(A, |f|, f) < FREQ_RANGE
    ensures f[n] + f[m] < FREQ_RANGE
  {
    SumRemoveTwo(A, |f|, f, n, m);
  }

  function Deeper(a: nat, b: nat): nat {
    if a >= b then a else b
  }

  /** zlib/trees.c:665-684: one pass of the merging loop, on the arrays alone. */
  method JoinTwo(heap: array<nat>, len: nat, heapMax: nat, fc: array<nat>, depth: array<nat>, dl: array<nat>,
                 node: nat, ghost A: set<nat>)
    returns (n: nat, m: nat)
    requires heap != fc && heap != depth && heap != dl && fc != depth && fc != dl && depth != dl
    requires 2 <= len && len + 1 < heapMax <= heap.Length
    requires HoldsForest(heap[..], len, fc[..], depth[..], A) && node !in A
    requires Sum(A, fc.Length, fc[..]) < FREQ_RANGE
    requires node < fc.Length == dl.Length && node < depth.Length
    modifies heap, fc, depth, dl
    ensures Below(A, fc.Length) && n in A && m in A - {n}
    ensures forall k: nat :: k in A ==> old(fc[n]) <= old(fc[k])
    ensures forall k: nat :: k in A - {n} ==> old(fc[m]) <= old(fc[k])
    ensures Least(old(fc[..]), old(depth[..]), A, n) && Least(old(fc[..]), old(depth[..]), A - {n}, m)
    ensures depth[..] == old(depth[..])[node := (Deeper(old(depth[n]), old(depth[m])) + 1) % 256]
    ensures fc[..] == old(fc[..])[node := old(fc[n]) + old(fc[m])]
    ensures dl[..] == old(dl[..])[n := node][m := node]
    ensures heap[heapMax - 1] == n && heap[heapMax - 2] == m
    ensures forall i :: heapMax <= i < heap.Length ==> heap[i] == old(heap[i])
    ensures HoldsForest(heap[..], len - 1, fc[..], depth[..], A - {n} - {m} + {node})
  {
    hide HoldsForest;
    n, m := TakeTwo(heap, len, heapMax, fc, depth, A);
    TwoFit(A, fc[..], n, m);
    var w := (fc[n] + fc[m]) % FREQ_RANGE;
    var dep := ((if depth[n] >= depth[m] then depth[n] else depth[m]) + 1) % DEPTH_RANGE;
    dl[n], dl[m] := node, node;
    PutFather(heap, len - 1, fc, depth, node, w, dep, A - {n});
  }

  lemma MergingBounds(h: seq<nat>, len: nat, heapMax: nat, f: seq<nat>, depth: seq<nat>, dl: seq<nat>,
                      leaves: set<nat>, first: nat, ms: seq<(nat, nat)>)
    requires Merging(h, len, heapMax, f, depth, dl, leaves, first, ms) && 2 <= len
    ensures len + 1 < heapMax <= |h| && HoldsForest(h, len, f, depth, Now(leaves, first, ms))
    ensures first + |ms| !in Now(leaves, first, ms) && Sum(Now(leaves, first, ms), |f|, f) < FREQ_RANGE
    ensures first + |ms| < |f| == |dl| && first + |ms| < |depth|
  {
    ForestBound(f, leaves, ms, first, |ms|);
  }

  /** The same, for a heap that holds the forest of a run of merges: of two trees of least weight, those of least
      depth are taken, as far as eight bits tell. */
  method MergeTwo(heap: array<nat>, len: nat, heapMax: nat, fc: array<nat>, depth: array<nat>, dl: array<nat>,
                  node: nat, ghost leaves: set<nat>, ghost first: nat, ghost ms: seq<(nat, nat)>)
    returns (ghost m2: (nat, nat))
    requires heap != fc && heap != depth && heap != dl && fc != depth && fc != dl && depth != dl
    requires Merging(heap[..], len, heapMax, fc[..], depth[..], dl[..], leaves, first, ms)
    requires 2 <= len && node == first + |ms|
    modifies heap, fc, depth, dl
    ensures Merging(heap[..], len - 1, heapMax - 2, fc[..], depth[..], dl[..], leaves, first, ms + [m2])
    ensures var A := Now(leaves, first, ms);
      && Least(old(fc[..]), old(depth[..]), A, m2.0) && Least(old(fc[..]), old(depth[..]), A - {m2.0}, m2.1)
      && depth[..] == old(depth[..])[node := (Deeper(old(depth[..])[m2.0], old(depth[..])[m2.1]) + 1) % 256]
    ensures forall i :: 0 <= i < fc.Length && i != node ==> fc[i] == old(fc[i])
    ensures forall i :: 0 <= i < dl.Length && i !in Now(leaves, first, ms) ==> dl[i] == old(dl[i])
  {
    hide Merging, HoldsForest;
    MergingBounds(heap[..], len, heapMax, fc[..], depth[..], dl[..], leaves, first, ms);
    var n, m := JoinTwo(heap, len, heapMax, fc, depth, dl, node, Now(leaves, first, ms));
    m2 := (n, m);
    Assemble(old(heap[..]), heap[..], len, heapMax, old(fc[..]), fc[..], old(depth[..]), depth[..],
             old(dl[..]), leaves, first, ms, n, m);
  }
}
