/**
 Why merging the two lightest trees is optimal, independent of how zlib stores them.

 Nodes are numbers below N with weights f.  A set of nodes is the current forest.
 A code for a forest gives every node in it a length, subject to Kraft's
 inequality.  `LowerBound` says that no code for a forest costs less than C.
 */
module Huffman {
  import opened BitOps

  // --------------------------------------------------------- sums over a forest

  /** The sum of g over the nodes below n that are in A. */
  ghost function Sum(A: set<nat>, n: nat, g: seq<nat>): nat
    requires n <= |g|
  {
    if n == 0 then 0 else Sum(A, n - 1, g) + (if n - 1 in A then g[n - 1] else 0)
  }

  lemma {:induction false} SumRemove(A: set<nat>, n: nat, g: seq<nat>, k: nat)
    requires n <= |g| && k in A
    ensures Sum(A, n, g) == Sum(A - {k}, n, g) + (if k < n then g[k] else 0)
  {
    if n != 0 { SumRemove(A, n - 1, g, k); }
  }

  lemma {:induction false} SumSame(A: set<nat>, n: nat, g: seq<nat>, g': seq<nat>)
    requires n <= |g| && n <= |g'| && forall k: nat :: k in A && k < n ==> g[k] == g'[k]
    ensures Sum(A, n, g) == Sum(A, n, g')
  {
    if n != 0 { SumSame(A, n - 1, g, g'); }
  }

  lemma {:induction false} SumShl(A: set<nat>, n: nat, g: seq<nat>, g': seq<nat>, d: nat)
    requires n <= |g| && n <= |g'| && forall k: nat :: k in A && k < n ==> g'[k] == Shl(g[k], d)
    ensures Sum(A, n, g') == Shl(Sum(A, n, g), d)
  {
    if n == 0 {
      ShlOne(d);
    } else {
      SumShl(A, n - 1, g, g', d);
      if n - 1 in A { ShlAdd(Sum(A, n - 1, g), g[n - 1], d); }
    }
  }

  lemma {:induction false} SumEmpty(A: set<nat>, n: nat, g: seq<nat>)
    requires n <= |g| && forall k: nat :: k < n ==> k !in A
    ensures Sum(A, n, g) == 0
  {
    if n != 0 { SumEmpty(A, n - 1, g); }
  }

  // ----------------------------------------------------------- codes and costs

  /** What each node adds to the cost: weight times length. */
  ghost function Products(f: seq<nat>, l: seq<nat>): (g: seq<nat>)
    requires |f| == |l|
    ensures |g| == |f| && forall k :: 0 <= k < |g| ==> g[k] == f[k] * l[k]
  {
    seq(|f|, k requires 0 <= k < |f| => f[k] * l[k])
  }

  /** What each node takes of the Kraft sum, in units of 2^-m. */
  ghost function Shares(l: seq<nat>, m: nat): (g: seq<nat>)
    ensures |g| == |l| && forall k :: 0 <= k < |g| ==> g[k] == if l[k] <= m then Pow2(m - l[k]) else 0
  {
    seq(|l|, k requires 0 <= k < |l| => if l[k] <= m then Pow2(m - l[k]) else 0)
  }

  ghost predicate Within(A: set<nat>, l: seq<nat>, m: nat) {
    forall k: nat :: k in A ==> k < |l| && l[k] <= m
  }

  /** l is a code for the forest A with lengths up to m. */
  ghost predicate IsCode(A: set<nat>, l: seq<nat>, m: nat) {
    Within(A, l, m) && Sum(A, |l|, Shares(l, m)) <= Pow2(m)
  }

  ghost function Cost(f: seq<nat>, A: set<nat>, l: seq<nat>): nat
    requires |f| == |l|
  {
    Sum(A, |l|, Products(f, l))
  }

  /** No code for the forest A costs less than c. */
  ghost predicate LowerBound(f: seq<nat>, A: set<nat>, c: nat) {
    forall l: seq<nat>, m: nat :: |l| == |f| && IsCode(A, l, m) ==> Cost(f, A, l) >= c
  }

  /** The unit in which the Kraft sum is counted does not matter. */
  lemma Rescale(A: set<nat>, l: seq<nat>, m: nat, m': nat)
    requires m' <= m && Within(A, l, m')
    ensures Within(A, l, m)
    ensures Sum(A, |l|, Shares(l, m)) == Shl(Sum(A, |l|, Shares(l, m')), m - m')
    ensures IsCode(A, l, m) <==> IsCode(A, l, m')
  {
    var d := m - m';
    forall k: nat | k in A && k < |l| ensures Shares(l, m)[k] == Shl(Shares(l, m')[k], d) {
      Pow2Add(m' - l[k], d);
    }
    SumShl(A, |l|, Shares(l, m'), Shares(l, m), d);
    Pow2Add(m', d);
    ShlMono(Sum(A, |l|, Shares(l, m')), Pow2(m'), d);
  }

  // ----------------------------------------------------------------- exchanging

  /** Taking two nodes out of a sum. */
  lemma SumRemoveTwo(A: set<nat>, n: nat, g: seq<nat>, i: nat, j: nat)
    requires n <= |g| && i in A && j in A && i != j && i < n && j < n
    ensures Sum(A, n, g) == Sum(A - {i} - {j}, n, g) + g[i] + g[j]
  {
    SumRemove(A, n, g, i);
    SumRemove(A - {i}, n, g, j);
  }

  lemma CrossProducts(a: nat, b: nat, x: nat, y: nat)
    requires a <= b && x <= y
    ensures a * y + b * x <= a * x + b * y
  {
    var u, v := b - a, y - x;
    assert u * v >= 0;
    assert a * x + b * y - (a * y + b * x) == u * v;
  }

  /** Giving the lighter node the longer code does not cost more. */
  lemma Exchange(f: seq<nat>, A: set<nat>, l: seq<nat>, m: nat, i: nat, p: nat) returns (l': seq<nat>)
    requires |f| == |l| && IsCode(A, l, m) && i in A && p in A
    requires f[i] <= f[p] && l[i] <= l[p]
    ensures |l'| == |l| && l' == l[i := l[p]][p := l[i]]
    ensures IsCode(A, l', m) && Cost(f, A, l') <= Cost(f, A, l)
  {
    l' := l[i := l[p]][p := l[i]];
    if i != p {
      var B := A - {i} - {p};
      SumRemoveTwo(A, |l|, Shares(l, m), i, p);
      SumRemoveTwo(A, |l|, Shares(l', m), i, p);
      SumSame(B, |l|, Shares(l, m), Shares(l', m));
      SumRemoveTwo(A, |l|, Products(f, l), i, p);
      SumRemoveTwo(A, |l|, Products(f, l'), i, p);
      SumSame(B, |l|, Products(f, l), Products(f, l'));
      CrossProducts(f[i], f[p], l[i], l[p]);
    } else {
      assert l' == l;
    }
  }

  /** If node i alone has the longest code, that code can be shortened. */
  lemma Shorten(f: seq<nat>, A: set<nat>, l: seq<nat>, m: nat, i: nat, s: nat) returns (l': seq<nat>)
    requires |f| == |l| && IsCode(A, l, m) && i in A && l[i] == m && s < m
    requires Within(A - {i}, l, s)
    ensures l' == l[i := s] && IsCode(A, l', s) && Cost(f, A, l') <= Cost(f, A, l)
  {
    l' := l[i := s];
    var B := A - {i};
    var d := m - s;
    SumRemove(A, |l|, Shares(l, m), i);
    assert Shares(l, m)[i] == 1;
    var others := Sum(B, |l|, Shares(l, s));
    Rescale(B, l, m, s);
    Pow2Add(s, d);
    ShlMono(Pow2(s), others, d);
    assert others < Pow2(s);
    SumRemove(A, |l|, Shares(l', s), i);
    SumSame(B, |l|, Shares(l', s), Shares(l, s));
    SumRemove(A, |l|, Products(f, l), i);
    SumRemove(A, |l|, Products(f, l'), i);
    SumSame(B, |l|, Products(f, l), Products(f, l'));
    MulLe(f[i], s, m);
  }

  lemma MulLe(a: nat, x: nat, y: nat)
    requires x <= y
    ensures a * x <= a * y
  {
  }

  // ---------------------------------------------------------------- one merge

  /** v replaces two lightest nodes a and b of the forest A, with their joint weight. */
  ghost predicate Merge(f: seq<nat>, A: set<nat>, a: nat, b: nat, v: nat) {
    && a in A && b in A && a != b && v !in A
    && v < |f| && (forall k: nat :: k in A ==> k < |f|)
    && f[v] == f[a] + f[b]
    && (forall k: nat :: k in A ==> f[a] <= f[k])
    && (forall k: nat :: k in A && k != a ==> f[b] <= f[k])
  }

  ghost function Merged(A: set<nat>, a: nat, b: nat, v: nat): set<nat> {
    A - {a} - {b} + {v}
  }

  lemma {:induction false} LongestIn(A: set<nat>, n: nat, l: seq<nat>, c: nat) returns (p: nat)
    requires n <= |l| && c in A && c < |l|
    ensures p in A && p < |l| && l[c] <= l[p]
    ensures forall k: nat :: k in A && k < n ==> l[k] <= l[p]
  {
    if n == 0 {
      p := c;
    } else {
      p := LongestIn(A, n - 1, l, c);
      if n - 1 in A && l[n - 1] > l[p] { p := n - 1; }
    }
  }

  /** A code for two or more nodes has no empty code word. */
  lemma NoEmptyCode(A: set<nat>, l: seq<nat>, m: nat, a: nat, b: nat)
    requires IsCode(A, l, m) && a in A && b in A && a != b
    ensures l[a] > 0
  {
    SumRemoveTwo(A, |l|, Shares(l, m), a, b);
  }

  /** Step 1: the lightest node can have a longest code. */
  lemma LightestLongest(f: seq<nat>, A: set<nat>, l: seq<nat>, m: nat, a: nat)
    returns (l': seq<nat>, m': nat)
    requires |f| == |l| && IsCode(A, l, m) && a in A
    requires forall k: nat :: k in A ==> f[a] <= f[k]
    ensures |l'| == |l| && IsCode(A, l', m') && l'[a] == m'
    ensures Cost(f, A, l') <= Cost(f, A, l)
  {
    var p := LongestIn(A, |l|, l, a);
    m' := l[p];
    Rescale(A, l, m, m');
    l' := Exchange(f, A, l, m', a, p);
  }

  /** Step 2: and the two lightest nodes can share the longest length. */
  lemma BothLongest(f: seq<nat>, A: set<nat>, l: seq<nat>, m: nat, a: nat, b: nat)
    returns (l': seq<nat>, m': nat)
    requires |f| == |l| && IsCode(A, l, m) && a in A && b in A && a != b && l[a] == m
    requires forall k: nat :: k in A && k != a ==> f[b] <= f[k]
    ensures |l'| == |l| && IsCode(A, l', m') && l'[a] == m' == l'[b] && m' > 0
    ensures Cost(f, A, l') <= Cost(f, A, l)
  {
    var q := LongestIn(A - {a}, |l|, l, b);
    m' := l[q];
    var l1 := l;
    if m' < m {
      l1 := Shorten(f, A, l, m, a, m');
    }
    l' := Exchange(f, A, l1, m', b, q);
    NoEmptyCode(A, l', m', a, b);
  }

  lemma JoinedProduct(x: nat, y: nat, m: nat)
    requires m > 0
    ensures (x + y) * (m - 1) + (x + y) == x * m + y * m
  {
  }

  /** Step 3: joining two nodes of the longest length keeps a code. */
  lemma JoinCode(A: set<nat>, l: seq<nat>, m: nat, a: nat, b: nat, v: nat)
    requires IsCode(A, l, m) && a in A && b in A && a != b && v !in A && v < |l|
    requires l[a] == m == l[b] && m > 0
    ensures IsCode(Merged(A, a, b, v), l[v := m - 1], m)
  {
    var l' := l[v := m - 1];
    var B := A - {a} - {b};
    var A' := Merged(A, a, b, v);
    assert A' - {v} == B;
    SumRemoveTwo(A, |l|, Shares(l, m), a, b);
    SumRemove(A', |l|, Shares(l', m), v);
    SumSame(B, |l|, Shares(l, m), Shares(l', m));
    assert Pow2(m - (m - 1)) == 2 * Pow2(0);
  }

  /** ... and saves exactly their weights. */
  lemma JoinCost(f: seq<nat>, A: set<nat>, l: seq<nat>, m: nat, a: nat, b: nat, v: nat)
    requires |f| == |l| && a in A && b in A && a != b && v !in A && v < |l| && a < |l| && b < |l|
    requires l[a] == m == l[b] && m > 0 && f[v] == f[a] + f[b]
    ensures Cost(f, A, l) == Cost(f, Merged(A, a, b, v), l[v := m - 1]) + f[v]
  {
    var l' := l[v := m - 1];
    var B := A - {a} - {b};
    var A' := Merged(A, a, b, v);
    assert A' - {v} == B;
    var g, g' := Products(f, l), Products(f, l');
    SumRemoveTwo(A, |l|, g, a, b);
    SumRemove(A', |l|, g', v);
    SumSame(B, |l|, g, g');
    assert g'[v] == f[v] * (m - 1) && g[a] == f[a] * m && g[b] == f[b] * m;
    JoinedProduct(f[a], f[b], m);
  }

  /** Huffman's step: a bound for the merged forest gives one for the forest. */
  lemma MergeBound(f: seq<nat>, A: set<nat>, a: nat, b: nat, v: nat, c: nat)
    requires Merge(f, A, a, b, v) && LowerBound(f, Merged(A, a, b, v), c)
    ensures LowerBound(f, A, c + f[v])
  {
    forall l: seq<nat>, m: nat | |l| == |f| && IsCode(A, l, m) ensures Cost(f, A, l) >= c + f[v] {
      var l1, m1 := LightestLongest(f, A, l, m, a);
      var l2, m2 := BothLongest(f, A, l1, m1, a, b);
      JoinCode(A, l2, m2, a, b, v);
      JoinCost(f, A, l2, m2, a, b, v);
      assert Cost(f, Merged(A, a, b, v), l2[v := m2 - 1]) >= c;
    }
  }

  // ---------------------------------------------------------- a run of merges

  /** The forest after t merges; merge number t makes node first + t. */
  ghost function Forest(leaves: set<nat>, ms: seq<(nat, nat)>, first: nat, t: nat): set<nat>
    requires t <= |ms|
  {
    if t == 0 then leaves
    else Merged(Forest(leaves, ms, first, t - 1), ms[t - 1].0, ms[t - 1].1, first + t - 1)
  }

  ghost predicate MergeAt(f: seq<nat>, leaves: set<nat>, ms: seq<(nat, nat)>, first: nat, t: nat)
    requires t < |ms|
  {
    Merge(f, Forest(leaves, ms, first, t), ms[t].0, ms[t].1, first + t)
  }

  /** Every merge joins two lightest trees of the forest at its time. */
  ghost predicate Run(f: seq<nat>, leaves: set<nat>, ms: seq<(nat, nat)>, first: nat) {
    forall t: nat :: t < |ms| ==> MergeAt(f, leaves, ms, first, t)
  }

  /** The weights of the nodes made by merges a, ..., b - 1. */
  ghost function MergeSum(f: seq<nat>, first: nat, a: nat, b: nat): nat
    requires a <= b && first + b <= |f|
  {
    if a == b then 0 else MergeSum(f, first, a, b - 1) + f[first + b - 1]
  }

  lemma {:induction false} MergeSumFirst(f: seq<nat>, first: nat, a: nat, b: nat)
    requires a < b && first + b <= |f|
    ensures MergeSum(f, first, a, b) == f[first + a] + MergeSum(f, first, a + 1, b)
  {
    if a + 1 < b { MergeSumFirst(f, first, a, b - 1); }
  }

  lemma RunBoundStep(f: seq<nat>, leaves: set<nat>, ms: seq<(nat, nat)>, first: nat, t: nat, c: nat)
    requires t < |ms| && first + |ms| <= |f| && Run(f, leaves, ms, first)
    requires LowerBound(f, Forest(leaves, ms, first, t + 1), c)
    ensures LowerBound(f, Forest(leaves, ms, first, t), f[first + t] + c)
  {
    var A := Forest(leaves, ms, first, t);
    assert MergeAt(f, leaves, ms, first, t);
    assert Forest(leaves, ms, first, t + 1) == Merged(A, ms[t].0, ms[t].1, first + t);
    MergeBound(f, A, ms[t].0, ms[t].1, first + t, c);
  }

  /** No code costs less than the weights of all nodes the merges make. */
  lemma {:induction false} RunBound(f: seq<nat>, leaves: set<nat>, ms: seq<(nat, nat)>, first: nat, t: nat)
    requires t <= |ms| && first + |ms| <= |f| && Run(f, leaves, ms, first)
    ensures LowerBound(f, Forest(leaves, ms, first, t), MergeSum(f, first, t, |ms|))
    decreases |ms| - t
  {
    if t < |ms| {
      RunBound(f, leaves, ms, first, t + 1);
      MergeSumFirst(f, first, t, |ms|);
      RunBoundStep(f, leaves, ms, first, t, MergeSum(f, first, t + 1, |ms|));
    }
  }

  /** Both sons of merge t are one deeper than their father, but no deeper than max. */
  ghost predicate SonsDeeper(len: seq<nat>, ms: seq<(nat, nat)>, first: nat, max: nat, t: nat)
    requires t < |ms|
  {
    && ms[t].0 < |len| && ms[t].1 < |len| && first + t < |len| && len[first + t] <= max
    && len[ms[t].0] == len[ms[t].1] == if len[first + t] < max then len[first + t] + 1 else max
  }

  /** The number of merges, from t on, whose father is already at depth max. */
  ghost function CutOff(len: seq<nat>, first: nat, max: nat, t: nat, n: nat): nat
    requires t <= n && first + n <= |len|
    decreases n - t
  {
    if t == n then 0
    else (if len[first + t] >= max then 1 else 0) + CutOff(len, first, max, t + 1, n)
  }

  lemma SumSingle(r: nat, n: nat, g: seq<nat>)
    requires r < n <= |g|
    ensures Sum({r}, n, g) == g[r]
  {
    SumRemove({r}, n, g, r);
    SumEmpty({r} - {r}, n, g);
  }

  lemma KraftStep(A: set<nat>, len: seq<nat>, max: nat, a: nat, b: nat, v: nat)
    requires a in A && b in A && a != b && v !in A && a < |len| && b < |len| && v < |len|
    requires len[v] <= max && len[a] == len[b] == if len[v] < max then len[v] + 1 else max
    ensures Sum(A, |len|, Shares(len, max))
         == Sum(Merged(A, a, b, v), |len|, Shares(len, max)) + (if len[v] >= max then 1 else 0)
  {
    var g := Shares(len, max);
    assert Merged(A, a, b, v) - {v} == A - {a} - {b};
    SumRemoveTwo(A, |len|, g, a, b);
    SumRemove(Merged(A, a, b, v), |len|, g, v);
  }

  /** What a finished run of merges and its depths look like. */
  ghost predicate Tree(f: seq<nat>, leaves: set<nat>, ms: seq<(nat, nat)>, first: nat, len: seq<nat>,
                       max: nat, root: nat) {
    && first + |ms| <= |f| == |len| && root < |len| && len[root] == 0
    && Run(f, leaves, ms, first) && Forest(leaves, ms, first, |ms|) == {root}
    && (forall t :: 0 <= t < |ms| ==> SonsDeeper(len, ms, first, max, t))
  }

  /** The Kraft sum of the forest after t merges, in units of 2^-max. */
  ghost function KraftAt(leaves: set<nat>, ms: seq<(nat, nat)>, first: nat, len: seq<nat>, max: nat, t: nat): nat
    requires t <= |ms|
  {
    Sum(Forest(leaves, ms, first, t), |len|, Shares(len, max))
  }

  lemma KraftAtRoot(f: seq<nat>, leaves: set<nat>, ms: seq<(nat, nat)>, first: nat,
                    len: seq<nat>, max: nat, root: nat)
    requires Tree(f, leaves, ms, first, len, max, root)
    ensures KraftAt(leaves, ms, first, len, max, |ms|) == Pow2(max)
  {
    SumSingle(root, |len|, Shares(len, max));
  }

  lemma CutOffStep(f: seq<nat>, leaves: set<nat>, ms: seq<(nat, nat)>, first: nat,
                   len: seq<nat>, max: nat, root: nat, t: nat)
    requires Tree(f, leaves, ms, first, len, max, root) && t < |ms|
    ensures KraftAt(leaves, ms, first, len, max, t)
         == KraftAt(leaves, ms, first, len, max, t + 1) + (if len[first + t] >= max then 1 else 0)
  {
    var A := Forest(leaves, ms, first, t);
    assert MergeAt(f, leaves, ms, first, t);
    assert SonsDeeper(len, ms, first, max, t);
    assert Forest(leaves, ms, first, t + 1) == Merged(A, ms[t].0, ms[t].1, first + t);
    KraftStep(A, len, max, ms[t].0, ms[t].1, first + t);
  }

  /** Cutting depths off at max overdraws the Kraft sum by one unit per merge below max. */
  lemma {:induction false} CutOffKraft(f: seq<nat>, leaves: set<nat>, ms: seq<(nat, nat)>, first: nat,
                                       len: seq<nat>, max: nat, root: nat, t: nat)
    requires Tree(f, leaves, ms, first, len, max, root) && t <= |ms|
    ensures KraftAt(leaves, ms, first, len, max, t) == Pow2(max) + CutOff(len, first, max, t, |ms|)
    decreases |ms| - t
  {
    if t == |ms| {
      KraftAtRoot(f, leaves, ms, first, len, max, root);
    } else {
      CutOffKraft(f, leaves, ms, first, len, max, root, t + 1);
      CutOffStep(f, leaves, ms, first, len, max, root, t);
    }
  }

  /** Without cut-offs the tree costs exactly the weights of the nodes the merges make. */
  lemma {:induction false} TreeCost(f: seq<nat>, leaves: set<nat>, ms: seq<(nat, nat)>, first: nat,
                                    len: seq<nat>, max: nat, root: nat, t: nat)
    requires Tree(f, leaves, ms, first, len, max, root) && t <= |ms|
    requires CutOff(len, first, max, t, |ms|) == 0
    ensures Cost(f, Forest(leaves, ms, first, t), len) == MergeSum(f, first, t, |ms|)
    decreases |ms| - t
  {
    if t == |ms| {
      SumSingle(root, |len|, Products(f, len));
      assert Products(f, len)[root] == f[root] * 0;
    } else {
      TreeCost(f, leaves, ms, first, len, max, root, t + 1);
      var A, a, b, v := Forest(leaves, ms, first, t), ms[t].0, ms[t].1, first + t;
      assert MergeAt(f, leaves, ms, first, t) && SonsDeeper(len, ms, first, max, t);
      assert len[v := len[a] - 1] == len;
      JoinCost(f, A, len, len[a], a, b, v);
      MergeSumFirst(f, first, t, |ms|);
    }
  }

  /** One where the length is b. */
  ghost function Having(l: seq<nat>, b: nat): (g: seq<nat>)
    ensures |g| == |l| && forall k :: 0 <= k < |g| ==> g[k] == if l[k] == b then 1 else 0
  {
    seq(|l|, k requires 0 <= k < |l| => if l[k] == b then 1 else 0)
  }

  ghost function DeepAt(leaves: set<nat>, ms: seq<(nat, nat)>, first: nat, len: seq<nat>, max: nat, t: nat): nat
    requires t <= |ms|
  {
    Sum(Forest(leaves, ms, first, t), |len|, Having(len, max))
  }

  lemma DeepStep(f: seq<nat>, leaves: set<nat>, ms: seq<(nat, nat)>, first: nat,
                 len: seq<nat>, max: nat, root: nat, t: nat)
    requires Tree(f, leaves, ms, first, len, max, root) && t < |ms|
    ensures DeepAt(leaves, ms, first, len, max, t)
         >= DeepAt(leaves, ms, first, len, max, t + 1) + (if len[first + t] >= max then 1 else 0)
    ensures len[first + t] >= max ==> DeepAt(leaves, ms, first, len, max, t + 1) >= 1
  {
    var A, a, b, v := Forest(leaves, ms, first, t), ms[t].0, ms[t].1, first + t;
    assert MergeAt(f, leaves, ms, first, t);
    assert SonsDeeper(len, ms, first, max, t);
    var B := Merged(A, a, b, v);
    assert Forest(leaves, ms, first, t + 1) == B;
    assert B - {v} == A - {a} - {b};
    SumRemoveTwo(A, |len|, Having(len, max), a, b);
    SumRemove(B, |len|, Having(len, max), v);
  }

  /** More leaves are cut off to depth max than there are merges below it, if there are any. */
  lemma {:induction false} DeepLeaves(f: seq<nat>, leaves: set<nat>, ms: seq<(nat, nat)>, first: nat,
                                      len: seq<nat>, max: nat, root: nat, t: nat)
    requires Tree(f, leaves, ms, first, len, max, root) && t <= |ms|
    ensures var x := CutOff(len, first, max, t, |ms|);
      DeepAt(leaves, ms, first, len, max, t) >= x + (if x > 0 then 1 else 0)
    decreases |ms| - t
  {
    if t < |ms| {
      DeepLeaves(f, leaves, ms, first, len, max, root, t + 1);
      DeepStep(f, leaves, ms, first, len, max, root, t);
    }
  }

  /** Huffman's theorem: the depths of the tree are a cheapest code for the leaves. */
  lemma TreeOptimal(f: seq<nat>, leaves: set<nat>, ms: seq<(nat, nat)>, first: nat,
                    len: seq<nat>, max: nat, root: nat)
    requires Tree(f, leaves, ms, first, len, max, root) && CutOff(len, first, max, 0, |ms|) == 0
    ensures LowerBound(f, leaves, Cost(f, leaves, len))
  {
    TreeCost(f, leaves, ms, first, len, max, root, 0);
    RunBound(f, leaves, ms, first, 0);
  }
}
