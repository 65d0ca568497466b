/**
 The binary heap that `pqdownheap` (zlib/trees.c:445-474) maintains in
 `heap[1..heap_len]`: node h[k] has sons h[2k] and h[2k+1], and a father is
 `smaller` than its sons.
 */
module Heap {

  /** zlib/trees.c:437-443: by frequency, then by depth. */
  predicate Smaller(f: seq<nat>, d: seq<nat>, n: nat, m: nat)
    requires n < |f| && m < |f| && n < |d| && m < |d|
  {
    f[n] < f[m] || (f[n] == f[m] && d[n] <= d[m])
  }

  ghost predicate InRange(h: seq<nat>, len: nat, f: seq<nat>, d: seq<nat>) {
    len < |h| && forall i :: 1 <= i <= len ==> h[i] < |f| && h[i] < |d|
  }

  /** The father at k is smaller than its sons. */
  ghost predicate Father(h: seq<nat>, len: nat, f: seq<nat>, d: seq<nat>, k: nat)
    requires InRange(h, len, f, d) && 1 <= k <= len
  {
    && (2 * k <= len ==> Smaller(f, d, h[k], h[2 * k]))
    && (2 * k + 1 <= len ==> Smaller(f, d, h[k], h[2 * k + 1]))
  }

  ghost predicate HeapFrom(h: seq<nat>, len: nat, f: seq<nat>, d: seq<nat>, k0: nat)
    requires InRange(h, len, f, d) && 1 <= k0
  {
    forall k :: k0 <= k <= len ==> Father(h, len, f, d, k)
  }

  /** The first node has the least frequency, and the least depth among those. */
  lemma {:induction false} FirstIsLeast(h: seq<nat>, len: nat, f: seq<nat>, d: seq<nat>, j: nat)
    requires InRange(h, len, f, d) && HeapFrom(h, len, f, d, 1) && 1 <= j <= len
    ensures f[h[1]] < f[h[j]] || (f[h[1]] == f[h[j]] && d[h[1]] <= d[h[j]])
  {
    if j > 1 {
      FirstIsLeast(h, len, f, d, j / 2);
      assert Father(h, len, f, d, j / 2);
    }
  }

  /** While node v sinks from k0 it sits at k; all fathers but v are in order. */
  ghost predicate Sinking(h: seq<nat>, len: nat, f: seq<nat>, d: seq<nat>, k0: nat, k: nat)
    requires InRange(h, len, f, d) && 1 <= k0 <= k <= len
  {
    && (forall i :: k0 <= i <= len && i != k ==> Father(h, len, f, d, i))
    && (k != k0 ==>
          && k0 <= k / 2
          && (2 * k <= len ==> Smaller(f, d, h[k / 2], h[2 * k]))
          && (2 * k + 1 <= len ==> Smaller(f, d, h[k / 2], h[2 * k + 1])))
  }

  /** j is the smaller son of k. */
  ghost predicate SmallerSon(h: seq<nat>, len: nat, f: seq<nat>, d: seq<nat>, k: nat, j: nat)
    requires InRange(h, len, f, d) && 1 <= k
  {
    && (j == 2 * k || j == 2 * k + 1) && j <= len
    && Smaller(f, d, h[j], h[2 * k]) && (2 * k + 1 <= len ==> Smaller(f, d, h[j], h[2 * k + 1]))
  }

  ghost function Swap(h: seq<nat>, i: nat, j: nat): seq<nat>
    requires i < |h| && j < |h|
  {
    h[i := h[j]][j := h[i]]
  }

  lemma SinkStep(h: seq<nat>, len: nat, f: seq<nat>, d: seq<nat>, k0: nat, k: nat, j: nat)
    requires InRange(h, len, f, d) && 1 <= k0 <= k <= len && Sinking(h, len, f, d, k0, k)
    requires SmallerSon(h, len, f, d, k, j) && !Smaller(f, d, h[k], h[j])
    ensures InRange(Swap(h, k, j), len, f, d) && Sinking(Swap(h, k, j), len, f, d, k0, j)
  {
    var h' := Swap(h, k, j);
    forall i | k0 <= i <= len && i != j ensures Father(h', len, f, d, i) {
      if i != k { assert Father(h, len, f, d, i); }
    }
    assert Father(h, len, f, d, j);
  }

  lemma SinkDone(h: seq<nat>, len: nat, f: seq<nat>, d: seq<nat>, k0: nat, k: nat)
    requires InRange(h, len, f, d) && 1 <= k0 <= k <= len && Sinking(h, len, f, d, k0, k)
    requires 2 * k > len || exists j: nat :: SmallerSon(h, len, f, d, k, j) && Smaller(f, d, h[k], h[j])
    ensures HeapFrom(h, len, f, d, k0)
  {
  }

  /** The nodes in the heap, as a bag. */
  ghost function Nodes(h: seq<nat>, len: nat): multiset<nat>
    requires len < |h|
  {
    multiset(h[1..len + 1])
  }

  lemma SwapNodes(h: seq<nat>, len: nat, i: nat, j: nat)
    requires len < |h| && 1 <= i <= len && 1 <= j <= len
    ensures Nodes(Swap(h, i, j), len) == Nodes(h, len)
  {
    var s := h[1..len + 1];
    assert Swap(h, i, j)[1..len + 1] == s[i - 1 := s[j - 1]][j - 1 := s[i - 1]];
  }

  /** zlib/trees.c:464-473; h is the heap with the sinking node put back at k. */
  method ChooseSon(heap: array<nat>, len: nat, f: array<nat>, d: array<nat>, k: nat, ghost h: seq<nat>)
    returns (j: nat)
    requires 1 <= k && 2 * k <= len < heap.Length
    requires |h| == heap.Length && (forall i :: 0 <= i < |h| && i != k ==> h[i] == heap[i])
    requires InRange(h, len, f[..], d[..])
    ensures SmallerSon(h, len, f[..], d[..], k, j) && heap[j] == h[j]
  {
    j := 2 * k;
    if j < len && Smaller(f[..], d[..], heap[j + 1], heap[j]) {
      j := j + 1;
    }
  }

  /** zlib/trees.c:445-474: sink heap[k] until both its sons are larger. */
  method PqDownHeap(heap: array<nat>, len: nat, f: array<nat>, d: array<nat>, k0: nat)
    requires heap != f && heap != d && 1 <= k0 <= len
    requires InRange(heap[..], len, f[..], d[..]) && HeapFrom(heap[..], len, f[..], d[..], k0 + 1)
    modifies heap
    ensures InRange(heap[..], len, f[..], d[..]) && HeapFrom(heap[..], len, f[..], d[..], k0)
    ensures Nodes(heap[..], len) == old(Nodes(heap[..], len))
    ensures forall i :: 0 <= i < heap.Length && !(k0 <= i <= len) ==> heap[i] == old(heap[i])
  {
    ghost var fs, ds := f[..], d[..];
    var k := k0;
    var v := heap[k];
    var j := k * 2;
    ghost var h := heap[..];                 // the heap with v put back at k
    while j <= len
      invariant k0 <= k <= len && j == 2 * k
      invariant |h| == heap.Length && h[k] == v
      invariant forall i :: 0 <= i < |h| && i != k ==> h[i] == heap[i]
      invariant InRange(h, len, fs, ds) && Sinking(h, len, fs, ds, k0, k)
      invariant Nodes(h, len) == old(Nodes(heap[..], len))
      invariant forall i :: 0 <= i < heap.Length && !(k0 <= i <= len) ==> heap[i] == old(heap[i])
      decreases len - k
    {
      j := ChooseSon(heap, len, f, d, k, h);
      if Smaller(f[..], d[..], v, heap[j]) {
        break;
      }
      SinkStep(h, len, fs, ds, k0, k, j);
      SwapNodes(h, len, k, j);
      h := Swap(h, k, j);
      heap[k] := heap[j];
      k := j;
      j := j * 2;
    }
    SinkDone(h, len, fs, ds, k0, k);
    heap[k] := v;
    assert heap[..] == h;
  }
}
