/**
 The order in which `build_tree` leaves the nodes at the top of the `heap` array,
 and sums over the part of it already scanned.

 Merge number t puts its two nodes at distances 2t and 2t + 1 from the end of the
 array; the root comes first.  So a scan from the root down meets every father
 before its sons, and a scan from the end meets leaves by increasing frequency.
 */
module TreeScan {
  import opened Huffman
  import opened MergeRuns

  /** The node at distance e from the end. */
  ghost function NodeAt(ms: seq<(nat, nat)>, e: nat): nat
    requires e < 2 * |ms|
  {
    if e % 2 == 0 then ms[e / 2].0 else ms[e / 2].1
  }

  /** heap[heapMax..] lists the root and then the joined nodes, last merge first. */
  ghost predicate Listed(heap: seq<nat>, heapMax: nat, ms: seq<(nat, nat)>, root: nat) {
    && heapMax + 2 * |ms| + 1 == |heap| && heap[heapMax] == root
    && forall e :: 0 <= e < 2 * |ms| ==> heap[|heap| - 1 - e] == NodeAt(ms, e)
  }

  /** A finished forest: one tree over the leaves, more than one leaf. */
  ghost predicate Grown(f: seq<nat>, leaves: set<nat>, ms: seq<(nat, nat)>, first: nat, root: nat) {
    && Run(f, leaves, ms, first) && Below(leaves, first) && first + |ms| <= |f| && |ms| > 0
    && Forest(leaves, ms, first, |ms|) == {root} && root < |f|
  }

  lemma NodesDiffer(f: seq<nat>, leaves: set<nat>, ms: seq<(nat, nat)>, first: nat, root: nat, i: nat, j: nat)
    requires Grown(f, leaves, ms, first, root) && i < j < 2 * |ms|
    ensures NodeAt(ms, i) != NodeAt(ms, j)
  {
    SonsDiffer(f, leaves, ms, first, i / 2);
    if i / 2 < j / 2 { JoinedOnce(f, leaves, ms, first, i / 2, j / 2); }
  }

  lemma NodeBound(f: seq<nat>, leaves: set<nat>, ms: seq<(nat, nat)>, first: nat, root: nat, e: nat)
    requires Grown(f, leaves, ms, first, root) && e < 2 * |ms|
    ensures NodeAt(ms, e) < first + e / 2 && NodeAt(ms, e) != root
    ensures NodeAt(ms, e) < first ==> NodeAt(ms, e) in leaves
  {
    SonsDiffer(f, leaves, ms, first, e / 2);
    Gone(f, leaves, ms, first, e / 2, |ms|);
    assert MergeAt(f, leaves, ms, first, e / 2);
    if NodeAt(ms, e) < first { OldNodes(leaves, ms, first, e / 2, NodeAt(ms, e)); }
  }

  /** Numbers below `first` in a forest are leaves. */
  lemma {:induction false} OldNodes(leaves: set<nat>, ms: seq<(nat, nat)>, first: nat, t: nat, k: nat)
    requires t <= |ms| && k < first && k in Forest(leaves, ms, first, t)
    ensures k in leaves
  {
    if t != 0 { OldNodes(leaves, ms, first, t - 1, k); }
  }

  // ------------------------------------------------------------ scanned nodes

  /** The nodes at distances a, ..., b - 1 from the end. */
  ghost function Between(ms: seq<(nat, nat)>, a: nat, b: nat): set<nat>
    requires a <= b <= 2 * |ms|
  {
    set e | a <= e < b :: NodeAt(ms, e)
  }

  lemma Extend(f: seq<nat>, leaves: set<nat>, ms: seq<(nat, nat)>, first: nat, root: nat, a: nat, b: nat)
    requires Grown(f, leaves, ms, first, root) && a < b <= 2 * |ms|
    ensures NodeAt(ms, a) !in Between(ms, a + 1, b)
    ensures Between(ms, a, b) == Between(ms, a + 1, b) + {NodeAt(ms, a)}
    ensures NodeAt(ms, b - 1) !in Between(ms, a, b - 1)
    ensures Between(ms, a, b) == Between(ms, a, b - 1) + {NodeAt(ms, b - 1)}
  {
    forall e | a < e < b ensures NodeAt(ms, a) != NodeAt(ms, e) {
      NodesDiffer(f, leaves, ms, first, root, a, e);
    }
    forall e | a <= e < b - 1 ensures NodeAt(ms, b - 1) != NodeAt(ms, e) {
      NodesDiffer(f, leaves, ms, first, root, e, b - 1);
    }
  }

  /** The father of the node at distance e is the root or farther from the end. */
  lemma FatherFirst(f: seq<nat>, leaves: set<nat>, ms: seq<(nat, nat)>, first: nat, root: nat, e: nat)
    requires Grown(f, leaves, ms, first, root) && e < 2 * |ms|
    ensures first + e / 2 == root || first + e / 2 in Between(ms, e + 1, 2 * |ms|)
  {
    var j := JoinedOrRoot(f, leaves, ms, first, e / 2, root);
    if first + e / 2 != root {
      assert NodeAt(ms, 2 * j) == ms[j].0 && NodeAt(ms, 2 * j + 1) == ms[j].1;
    }
  }

  /** The leaves are the listed nodes below `first`. */
  lemma LeavesListed(f: seq<nat>, leaves: set<nat>, ms: seq<(nat, nat)>, first: nat, root: nat, k: nat)
    requires Grown(f, leaves, ms, first, root) && k < first
    ensures k in leaves <==> k in Between(ms, 0, 2 * |ms|)
    ensures root >= first
  {
    RootIsNew(leaves, ms, first, root);
    if k in leaves {
      var j := LeafJoined(f, leaves, ms, first, root, k);
      assert NodeAt(ms, 2 * j) == ms[j].0 && NodeAt(ms, 2 * j + 1) == ms[j].1;
    }
    if k in Between(ms, 0, 2 * |ms|) {
      var e :| 0 <= e < 2 * |ms| && NodeAt(ms, e) == k;
      NodeBound(f, leaves, ms, first, root, e);
    }
  }

  lemma RootIsNew(leaves: set<nat>, ms: seq<(nat, nat)>, first: nat, root: nat)
    requires |ms| > 0 && Forest(leaves, ms, first, |ms|) == {root}
    ensures root == first + |ms| - 1
  {
    assert first + |ms| - 1 in Forest(leaves, ms, first, |ms|);
  }

  /** A sum over the listed nodes below n is one over the leaves. */
  lemma {:induction false} SumLeaves(f: seq<nat>, leaves: set<nat>, ms: seq<(nat, nat)>, first: nat, root: nat,
                                     n: nat, g: seq<nat>)
    requires Grown(f, leaves, ms, first, root) && n <= first && n <= |g|
    ensures Sum(Between(ms, 0, 2 * |ms|), n, g) == Sum(leaves, n, g)
  {
    if n != 0 {
      SumLeaves(f, leaves, ms, first, root, n - 1, g);
      LeavesListed(f, leaves, ms, first, root, n - 1);
    }
  }

  /** Scanning one node adds its share, if it is below n. */
  lemma SumScan(f: seq<nat>, leaves: set<nat>, ms: seq<(nat, nat)>, first: nat, root: nat,
                a: nat, b: nat, n: nat, g: seq<nat>)
    requires Grown(f, leaves, ms, first, root) && a < b <= 2 * |ms| && n <= |g|
    ensures Sum(Between(ms, a, b), n, g)
         == Sum(Between(ms, a + 1, b), n, g) + (if NodeAt(ms, a) < n then g[NodeAt(ms, a)] else 0)
    ensures Sum(Between(ms, a, b), n, g)
         == Sum(Between(ms, a, b - 1), n, g) + (if NodeAt(ms, b - 1) < n then g[NodeAt(ms, b - 1)] else 0)
  {
    Extend(f, leaves, ms, first, root, a, b);
    SumRemove(Between(ms, a, b), n, g, NodeAt(ms, a));
    SumRemove(Between(ms, a, b), n, g, NodeAt(ms, b - 1));
    assert Between(ms, a, b) - {NodeAt(ms, a)} == Between(ms, a + 1, b);
    assert Between(ms, a, b) - {NodeAt(ms, b - 1)} == Between(ms, a, b - 1);
  }
}
