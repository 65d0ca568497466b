/**
 Facts about runs of merges that the array code relies on: nodes are numbered in
 the order they are made, a joined node never comes back, every node but the root
 is joined once, and the depths in the finished tree exist.
 */
module MergeRuns {
  import opened Huffman

  ghost predicate Below(A: set<nat>, n: nat) {
    forall k: nat :: k in A ==> k < n
  }

  lemma {:induction false} ForestBound(f: seq<nat>, leaves: set<nat>, ms: seq<(nat, nat)>, first: nat, t: nat)
    requires t <= |ms| && Run(f, leaves, ms, first) && Below(leaves, first)
    ensures Below(Forest(leaves, ms, first, t), first + t)
  {
    if t != 0 { ForestBound(f, leaves, ms, first, t - 1); }
  }

  /** A node joined by merge t is not in any later forest. */
  lemma {:induction false} Gone(f: seq<nat>, leaves: set<nat>, ms: seq<(nat, nat)>, first: nat, t: nat, t': nat)
    requires t < t' <= |ms| && Run(f, leaves, ms, first) && Below(leaves, first)
    ensures ms[t].0 !in Forest(leaves, ms, first, t') && ms[t].1 !in Forest(leaves, ms, first, t')
    ensures ms[t].0 < first + t && ms[t].1 < first + t
  {
    ForestBound(f, leaves, ms, first, t);
    assert MergeAt(f, leaves, ms, first, t);
    if t + 1 < t' { Gone(f, leaves, ms, first, t, t' - 1); }
  }

  /** Two merges never join the same node, nor one made after them. */
  lemma JoinedOnce(f: seq<nat>, leaves: set<nat>, ms: seq<(nat, nat)>, first: nat, t: nat, t': nat)
    requires t < t' < |ms| && Run(f, leaves, ms, first) && Below(leaves, first)
    ensures ms[t].0 != ms[t'].0 && ms[t].0 != ms[t'].1 && ms[t].1 != ms[t'].0 && ms[t].1 != ms[t'].1
    ensures ms[t].0 < first + t && ms[t].1 < first + t
  {
    Gone(f, leaves, ms, first, t, t');
    assert MergeAt(f, leaves, ms, first, t');
  }

  lemma SonsDiffer(f: seq<nat>, leaves: set<nat>, ms: seq<(nat, nat)>, first: nat, t: nat)
    requires t < |ms| && Run(f, leaves, ms, first) && Below(leaves, first)
    ensures ms[t].0 != ms[t].1 && ms[t].0 < first + t && ms[t].1 < first + t
    ensures first + t < |f| && ms[t].0 < |f| && ms[t].1 < |f|
  {
    ForestBound(f, leaves, ms, first, t);
    assert MergeAt(f, leaves, ms, first, t);
  }

  /** A node of an early forest that is not in a late one was joined in between. */
  lemma {:induction false} JoinedBetween(f: seq<nat>, leaves: set<nat>, ms: seq<(nat, nat)>, first: nat,
                                         t: nat, t': nat, v: nat) returns (j: nat)
    requires t <= t' <= |ms| && Run(f, leaves, ms, first)
    requires v in Forest(leaves, ms, first, t) && v !in Forest(leaves, ms, first, t')
    ensures t <= j < t' && (v == ms[j].0 || v == ms[j].1)
  {
    if v !in Forest(leaves, ms, first, t' - 1) {
      j := JoinedBetween(f, leaves, ms, first, t, t' - 1, v);
    } else {
      j := t' - 1;
    }
  }

  /** Every node made is joined later or is the root. */
  lemma JoinedOrRoot(f: seq<nat>, leaves: set<nat>, ms: seq<(nat, nat)>, first: nat, t: nat, root: nat)
    returns (j: nat)
    requires t < |ms| && Run(f, leaves, ms, first) && Forest(leaves, ms, first, |ms|) == {root}
    ensures first + t == root || (t < j < |ms| && (first + t == ms[j].0 || first + t == ms[j].1))
  {
    j := 0;
    if first + t != root {
      assert first + t in Forest(leaves, ms, first, t + 1);
      j := JoinedBetween(f, leaves, ms, first, t + 1, |ms|, first + t);
    }
  }

  /** Every leaf but a lone one is joined. */
  lemma LeafJoined(f: seq<nat>, leaves: set<nat>, ms: seq<(nat, nat)>, first: nat, root: nat, k: nat)
    returns (j: nat)
    requires Run(f, leaves, ms, first) && Forest(leaves, ms, first, |ms|) == {root} && k in leaves && k != root
    ensures j < |ms| && (k == ms[j].0 || k == ms[j].1)
  {
    j := JoinedBetween(f, leaves, ms, first, 0, |ms|, k);
  }

  lemma MergeFrame(f: seq<nat>, f': seq<nat>, A: set<nat>, a: nat, b: nat, v: nat)
    requires Merge(f, A, a, b, v) && |f'| == |f| && f'[v] == f[v]
    requires forall k: nat :: k in A ==> f'[k] == f[k]
    ensures Merge(f', A, a, b, v)
  {
  }

  lemma ForestPrefix(leaves: set<nat>, ms: seq<(nat, nat)>, m: (nat, nat), first: nat, t: nat)
    requires t <= |ms|
    ensures Forest(leaves, ms + [m], first, t) == Forest(leaves, ms, first, t)
  {
    if t != 0 { ForestPrefix(leaves, ms, m, first, t - 1); }
  }

  /** One more merge, whose new node gets its weight now. */
  lemma RunExtend(f: seq<nat>, leaves: set<nat>, ms: seq<(nat, nat)>, first: nat, a: nat, b: nat, w: nat)
    requires Run(f, leaves, ms, first) && Below(leaves, first) && first + |ms| < |f|
    requires Merge(f[first + |ms| := w], Forest(leaves, ms, first, |ms|), a, b, first + |ms|)
    ensures Run(f[first + |ms| := w], leaves, ms + [(a, b)], first)
    ensures Forest(leaves, ms + [(a, b)], first, |ms| + 1)
         == Merged(Forest(leaves, ms, first, |ms|), a, b, first + |ms|)
  {
    var f', ms' := f[first + |ms| := w], ms + [(a, b)];
    ForestPrefix(leaves, ms, (a, b), first, |ms|);
    forall t: nat | t < |ms'| ensures MergeAt(f', leaves, ms', first, t) {
      ForestPrefix(leaves, ms, (a, b), first, t);
      if t < |ms| {
        ForestBound(f, leaves, ms, first, t);
        assert MergeAt(f, leaves, ms, first, t);
        MergeFrame(f, f', Forest(leaves, ms, first, t), ms[t].0, ms[t].1, first + t);
      }
    }
  }

  /** The depths, cut off at max, from the root down to merge t. */
  lemma {:induction false} DepthsFrom(f: seq<nat>, leaves: set<nat>, ms: seq<(nat, nat)>, first: nat,
                                      max: nat, root: nat, t: nat) returns (len: seq<nat>)
    requires Run(f, leaves, ms, first) && Below(leaves, first) && first + |ms| <= |f| && t <= |ms|
    requires Forest(leaves, ms, first, |ms|) == {root} && root < |f|
    ensures |len| == |f| && len[root] == 0 && forall k :: 0 <= k < |len| ==> len[k] <= max
    ensures forall i :: t <= i < |ms| ==> SonsDeeper(len, ms, first, max, i)
    decreases |ms| - t
  {
    if t == |ms| {
      len := seq(|f|, i => 0);
    } else {
      var l := DepthsFrom(f, leaves, ms, first, max, root, t + 1);
      var d := if l[first + t] < max then l[first + t] + 1 else max;
      SonsDiffer(f, leaves, ms, first, t);
      Gone(f, leaves, ms, first, t, |ms|);
      len := l[ms[t].0 := d][ms[t].1 := d];
      forall i | t <= i < |ms| ensures SonsDeeper(len, ms, first, max, i) {
        if t < i {
          assert SonsDeeper(l, ms, first, max, i);
          JoinedOnce(f, leaves, ms, first, t, i);
        }
      }
    }
  }

  /** The depths in the finished tree. */
  lemma TreeDepths(f: seq<nat>, leaves: set<nat>, ms: seq<(nat, nat)>, first: nat, max: nat, root: nat)
    returns (len: seq<nat>)
    requires Run(f, leaves, ms, first) && Below(leaves, first) && first + |ms| <= |f|
    requires Forest(leaves, ms, first, |ms|) == {root} && root < |f|
    ensures Tree(f, leaves, ms, first, len, max, root) && forall k :: 0 <= k < |len| ==> len[k] <= max
  {
    len := DepthsFrom(f, leaves, ms, first, max, root, 0);
  }
}
