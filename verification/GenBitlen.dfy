/**
 `gen_bitlen` (zlib/trees.c:486-562) over the arrays of the compression state: a
 first pass from the root down, the repair of lengths over the limit, and a second
 pass that hands the repaired lengths out to leaves by increasing frequency.
 */
module GenBitlen {
  import opened BitOps
  import opened Canonical
  import opened SortedSymbols
  import opened Huffman
  import opened MergeRuns
  import opened TreeScan
  import opened BitLengths

  /** zlib/trees.c:117-123: what is fixed for one of the three kinds of tree. */
  datatype StaticDesc = StaticDesc(hasTree: bool, tree: seq<nat>, extra: seq<nat>, base: nat,
                                   elems: nat, maxLength: nat)

  ghost predicate ValidDesc(d: StaticDesc) {
    && d.base <= d.elems && d.base + |d.extra| >= d.elems
    && (d.hasTree ==> |d.tree| >= d.elems)
    && 2 <= d.maxLength <= MAXBITS && 2 <= d.elems <= Pow2(d.maxLength)
  }

  function ExtraBits(d: StaticDesc, n: nat): nat
    requires n < d.base + |d.extra|
  {
    if n >= d.base then d.extra[n - d.base] else 0
  }

  /** A symbol that occurs f times with a code of l bits and x extra bits. */
  function Spent(f: nat, l: nat, x: nat): nat {
    f * (l + x)
  }

  /** Bits spent on each symbol with lengths len: code and extra bits, times frequency. */
  ghost function CodeBits(f: seq<nat>, len: seq<nat>, d: StaticDesc): (g: seq<nat>)
    requires ValidDesc(d) && d.elems <= |f| && d.elems <= |len|
    ensures |g| == d.elems
    ensures forall k :: 0 <= k < |g| ==> g[k] == Spent(f[k], len[k], ExtraBits(d, k))
  {
    seq(d.elems, k requires 0 <= k < d.elems => Spent(f[k], len[k], ExtraBits(d, k)))
  }

  /** The arrays describe the finished tree: order of the nodes, fathers, depths to come. */
  ghost predicate TreeInArrays(heap: seq<nat>, heapMax: nat, f: seq<nat>, d: StaticDesc,
                               maxCode: nat, leaves: set<nat>, ms: seq<(nat, nat)>, root: nat, len: seq<nat>)
  {
    && ValidDesc(d) && d.elems <= |f| && maxCode < d.elems
    && Grown(f, leaves, ms, d.elems, root) && Tree(f, leaves, ms, d.elems, len, d.maxLength, root)
    && (forall k :: 0 <= k < |len| ==> len[k] <= d.maxLength)
    && Listed(heap, heapMax, ms, root)
    && Below(leaves, maxCode + 1)
  }

  /** Nodes from distance `done` on have their lengths, the others still their fathers. */
  ghost predicate Scanned(dl: seq<nat>, dl0: seq<nat>, d: StaticDesc, ms: seq<(nat, nat)>, root: nat,
                          len: seq<nat>, done: nat)
    requires done <= 2 * |ms|
  {
    && |dl| == |dl0| == |len| && root < |dl| && dl[root] == 0 == len[root]
    && (forall k: nat :: k in Between(ms, done, 2 * |ms|) ==> k < |dl| && dl[k] == len[k])
    && (forall e: nat :: e < done ==> NodeAt(ms, e) < |dl| && dl[NodeAt(ms, e)] == d.elems + e / 2)
    && (forall k: nat :: k < |dl| && k !in Between(ms, done, 2 * |ms|) && k != root ==> dl[k] == dl0[k])
  }

  /** How many of the nodes from distance e on have a father at the limit. */
  ghost function Over(len: seq<nat>, first: nat, max: nat, ms: seq<(nat, nat)>, e: nat): nat
    requires e <= 2 * |ms| && first + |ms| <= |len|
    decreases 2 * |ms| - e
  {
    if e == 2 * |ms| then 0
    else (if len[first + e / 2] >= max then 1 else 0) + Over(len, first, max, ms, e + 1)
  }

  lemma {:induction false} OverIsTwice(len: seq<nat>, first: nat, max: nat, ms: seq<(nat, nat)>, t: nat)
    requires t <= |ms| && first + |ms| <= |len|
    ensures Over(len, first, max, ms, 2 * t) == 2 * CutOff(len, first, max, t, |ms|)
    decreases |ms| - t
  {
    if t < |ms| {
      OverIsTwice(len, first, max, ms, t + 1);
      assert Over(len, first, max, ms, 2 * t)
          == (if len[first + t] >= max then 1 else 0) + Over(len, first, max, ms, 2 * t + 1);
    }
  }

  /** The length the first pass computes for the next node is its depth. */
  lemma NextLength(heap: seq<nat>, heapMax: nat, f: seq<nat>, dl: seq<nat>, dl0: seq<nat>, d: StaticDesc,
                   maxCode: nat, leaves: set<nat>, ms: seq<(nat, nat)>, root: nat, len: seq<nat>, e: nat)
    requires TreeInArrays(heap, heapMax, f, d, maxCode, leaves, ms, root, len)
    requires e < 2 * |ms| && Scanned(dl, dl0, d, ms, root, len, e + 1)
    ensures var n := heap[|heap| - 1 - e];
      && n == NodeAt(ms, e) < |dl| && dl[n] == d.elems + e / 2 < |dl|
      && dl[dl[n]] == len[d.elems + e / 2]
      && len[n] == if len[d.elems + e / 2] < d.maxLength then len[d.elems + e / 2] + 1 else d.maxLength
  {
    FatherFirst(f, leaves, ms, d.elems, root, e);
    assert SonsDeeper(len, ms, d.elems, d.maxLength, e / 2);
  }

  lemma ScanOne(heap: seq<nat>, heapMax: nat, f: seq<nat>, dl: seq<nat>, dl0: seq<nat>, d: StaticDesc,
                maxCode: nat, leaves: set<nat>, ms: seq<(nat, nat)>, root: nat, len: seq<nat>, e: nat)
    requires TreeInArrays(heap, heapMax, f, d, maxCode, leaves, ms, root, len)
    requires e < 2 * |ms| && Scanned(dl, dl0, d, ms, root, len, e + 1)
    ensures NodeAt(ms, e) < |len| && Scanned(dl[NodeAt(ms, e) := len[NodeAt(ms, e)]], dl0, d, ms, root, len, e)
  {
    var n := NodeAt(ms, e);
    Extend(f, leaves, ms, d.elems, root, e, 2 * |ms|);
    NodeBound(f, leaves, ms, d.elems, root, e);
    forall i: nat | i < e ensures NodeAt(ms, i) != n { NodesDiffer(f, leaves, ms, d.elems, root, i, e); }
  }

  /** What one step of the first pass reads, and that writing the depth is one step. */
  lemma ScanFacts(heap: seq<nat>, heapMax: nat, f: seq<nat>, dl: seq<nat>, dl0: seq<nat>, d: StaticDesc,
                  maxCode: nat, leaves: set<nat>, ms: seq<(nat, nat)>, root: nat, len: seq<nat>, e: nat)
    requires TreeInArrays(heap, heapMax, f, d, maxCode, leaves, ms, root, len)
    requires e < 2 * |ms| && Scanned(dl, dl0, d, ms, root, len, e + 1)
    ensures var n, bits := heap[|heap| - 1 - e], len[d.elems + e / 2];
      && n == NodeAt(ms, e) < |dl| && dl[n] < |dl| && dl[dl[n]] == bits <= d.maxLength
      && len[n] == (if bits < d.maxLength then bits + 1 else d.maxLength)
      && (n <= maxCode <==> n < d.elems)
      && Scanned(dl[n := len[n]], dl0, d, ms, root, len, e)
  {
    NextLength(heap, heapMax, f, dl, dl0, d, maxCode, leaves, ms, root, len, e);
    ScanOne(heap, heapMax, f, dl, dl0, d, maxCode, leaves, ms, root, len, e);
    NodeBound(f, leaves, ms, d.elems, root, e);
  }

  /** Every listed node has its father's number in its Dad field. */
  ghost predicate FathersSet(dl: seq<nat>, d: StaticDesc, ms: seq<(nat, nat)>) {
    forall e: nat :: e < 2 * |ms| ==> NodeAt(ms, e) < |dl| && dl[NodeAt(ms, e)] == d.elems + e / 2
  }

  lemma ScanNothing(heap: seq<nat>, heapMax: nat, f: seq<nat>, dl: seq<nat>, d: StaticDesc,
                    maxCode: nat, leaves: set<nat>, ms: seq<(nat, nat)>, root: nat, len: seq<nat>)
    requires TreeInArrays(heap, heapMax, f, d, maxCode, leaves, ms, root, len) && FathersSet(dl, d, ms)
    requires |dl| == |f|
    ensures heap[heapMax] == root < |dl|
    ensures Scanned(dl[root := 0], dl[root := 0], d, ms, root, len, 2 * |ms|)
  {
    forall e: nat | e < 2 * |ms| ensures NodeAt(ms, e) != root { NodeBound(f, leaves, ms, d.elems, root, e); }
  }

  /** The totals of the first pass over the nodes from distance `done` on. */
  ghost predicate Tallied(cnt: seq<nat>, overflow: nat, opt: nat, stat: nat, f: seq<nat>, d: StaticDesc,
                          ms: seq<(nat, nat)>, len: seq<nat>, done: nat)
    requires ValidDesc(d) && d.elems + |ms| <= |len| && d.elems <= |f| && done <= 2 * |ms|
  {
    var A := Between(ms, done, 2 * |ms|);
    && |cnt| == MAXBITS + 1
    && (forall b :: 0 <= b <= MAXBITS ==> cnt[b] == Sum(A, d.elems, Having(len, b)))
    && overflow == Over(len, d.elems, d.maxLength, ms, done)
    && opt == Sum(A, d.elems, CodeBits(f, len, d))
    && stat == if d.hasTree then Sum(A, d.elems, CodeBits(f, d.tree, d)) else 0
  }

  lemma TallyOne(cnt: seq<nat>, overflow: nat, opt: nat, stat: nat, f: seq<nat>, d: StaticDesc,
                 leaves: set<nat>, ms: seq<(nat, nat)>, root: nat, len: seq<nat>, e: nat,
                 cnt': seq<nat>, opt': nat, stat': nat)
    requires ValidDesc(d) && d.elems <= |f| == |len| && Grown(f, leaves, ms, d.elems, root)
    requires e < 2 * |ms| && Tallied(cnt, overflow, opt, stat, f, d, ms, len, e + 1)
    requires var n := NodeAt(ms, e);
      if n < d.elems then
        && len[n] <= MAXBITS && cnt' == cnt[len[n] := cnt[len[n]] + 1]
        && opt' == opt + Spent(f[n], len[n], ExtraBits(d, n))
        && stat' == stat + (if d.hasTree then Spent(f[n], d.tree[n], ExtraBits(d, n)) else 0)
      else cnt' == cnt && opt' == opt && stat' == stat
    ensures Tallied(cnt', overflow + (if len[d.elems + e / 2] >= d.maxLength then 1 else 0),
                    opt', stat', f, d, ms, len, e)
  {
    forall b | 0 <= b <= MAXBITS
      ensures cnt'[b] == Sum(Between(ms, e, 2 * |ms|), d.elems, Having(len, b))
    {
      SumScan(f, leaves, ms, d.elems, root, e, 2 * |ms|, d.elems, Having(len, b));
    }
    SumScan(f, leaves, ms, d.elems, root, e, 2 * |ms|, d.elems, CodeBits(f, len, d));
    if d.hasTree {
      SumScan(f, leaves, ms, d.elems, root, e, 2 * |ms|, d.elems, CodeBits(f, d.tree, d));
    }
  }

  lemma TallyNothing(f: seq<nat>, d: StaticDesc, ms: seq<(nat, nat)>, len: seq<nat>, cnt: seq<nat>)
    requires ValidDesc(d) && d.elems + |ms| <= |len| && d.elems <= |f|
    requires |cnt| == MAXBITS + 1 && forall b :: 0 <= b <= MAXBITS ==> cnt[b] == 0
    ensures Tallied(cnt, 0, 0, 0, f, d, ms, len, 2 * |ms|)
  {
    var A := Between(ms, 2 * |ms|, 2 * |ms|);
    forall b | 0 <= b <= MAXBITS ensures Sum(A, d.elems, Having(len, b)) == 0 {
      SumEmpty(A, d.elems, Having(len, b));
    }
    SumEmpty(A, d.elems, CodeBits(f, len, d));
    if d.hasTree { SumEmpty(A, d.elems, CodeBits(f, d.tree, d)); }
  }

  /** The first pass with the nodes from distance `done` on behind it. */
  ghost predicate PassAt(dl: seq<nat>, dl0: seq<nat>, cnt: seq<nat>, overflow: nat, opt: nat, stat: nat,
                         f: seq<nat>, d: StaticDesc, ms: seq<(nat, nat)>, root: nat, len: seq<nat>, done: nat)
    requires ValidDesc(d) && d.elems + |ms| <= |len| && d.elems <= |f| && done <= 2 * |ms|
  {
    Scanned(dl, dl0, d, ms, root, len, done) && Tallied(cnt, overflow, opt, stat, f, d, ms, len, done)
  }

  lemma StartPass(heap: seq<nat>, heapMax: nat, f: seq<nat>, dl: seq<nat>, cnt: seq<nat>, d: StaticDesc,
                  maxCode: nat, leaves: set<nat>, ms: seq<(nat, nat)>, root: nat, len: seq<nat>)
    requires TreeInArrays(heap, heapMax, f, d, maxCode, leaves, ms, root, len) && FathersSet(dl, d, ms)
    requires |dl| == |f| && |cnt| == MAXBITS + 1 && forall b :: 0 <= b <= MAXBITS ==> cnt[b] == 0
    ensures heapMax < |heap| && heap[heapMax] == root < |dl| && |heap| - heapMax - 1 == 2 * |ms|
    ensures PassAt(dl[root := 0], dl[root := 0], cnt, 0, 0, 0, f, d, ms, root, len, 2 * |ms|)
  {
    ScanNothing(heap, heapMax, f, dl, d, maxCode, leaves, ms, root, len);
    TallyNothing(f, d, ms, len, cnt);
  }

  /** zlib/trees.c:511-524: one node of the first pass, at distance e from the end. */
  method ScanNode(n: nat, fc: array<nat>, dl: array<nat>, blCount: array<nat>, d: StaticDesc, maxCode: nat,
                  overflow: nat, opt: nat, stat: nat,
                  ghost heap: seq<nat>, ghost heapMax: nat, ghost dl0: seq<nat>, ghost leaves: set<nat>,
                  ghost ms: seq<(nat, nat)>, ghost root: nat, ghost len: seq<nat>, ghost e: nat)
    returns (overflow': nat, opt': nat, stat': nat)
    requires dl != fc && dl != blCount && blCount != fc && e < 2 * |ms| < |heap|
    requires TreeInArrays(heap, heapMax, fc[..], d, maxCode, leaves, ms, root, len)
    requires n == heap[|heap| - 1 - e]
    requires PassAt(dl[..], dl0, blCount[..], overflow, opt, stat, fc[..], d, ms, root, len, e + 1)
    modifies dl, blCount
    ensures PassAt(dl[..], dl0, blCount[..], overflow', opt', stat', fc[..], d, ms, root, len, e)
  {
    hide Run, SonsDeeper, Having, Between;
    ScanFacts(heap, heapMax, fc[..], dl[..], dl0, d, maxCode, leaves, ms, root, len, e);
    ghost var cnt, dls := blCount[..], dl[..];
    overflow', opt', stat' := overflow, opt, stat;
    var bits := dl[dl[n]] + 1;
    if bits > d.maxLength {
      bits := d.maxLength;
      overflow' := overflow + 1;
    }
    dl[n] := bits;
    assert dl[..] == dls[n := len[n]];
    if n <= maxCode {
      blCount[bits] := blCount[bits] + 1;
      var xbits := ExtraBits(d, n);
      opt' := opt + Spent(fc[n], bits, xbits);
      if d.hasTree { stat' := stat + Spent(fc[n], d.tree[n], xbits); }
    }
    TallyOne(cnt, overflow, opt, stat, fc[..], d, leaves, ms, root, len, e, blCount[..], opt', stat');
  }

  method ClearCounts(blCount: array<nat>)
    requires blCount.Length == MAXBITS + 1
    modifies blCount
    ensures forall b :: 0 <= b <= MAXBITS ==> blCount[b] == 0
  {
    for bits := 0 to MAXBITS + 1
      invariant forall b :: 0 <= b < bits ==> blCount[b] == 0
    {
      blCount[bits] := 0;
    }
  }

  /** zlib/trees.c:503-525. */
  method FirstPass(heap: array<nat>, heapMax: nat, fc: array<nat>, dl: array<nat>, blCount: array<nat>,
                   d: StaticDesc, maxCode: nat,
                   ghost leaves: set<nat>, ghost ms: seq<(nat, nat)>, ghost root: nat, ghost len: seq<nat>)
    returns (overflow: nat, opt: nat, stat: nat)
    requires dl != heap && dl != fc && dl != blCount && blCount != heap && blCount != fc
    requires blCount.Length == MAXBITS + 1
    requires TreeInArrays(heap[..], heapMax, fc[..], d, maxCode, leaves, ms, root, len)
    requires FathersSet(dl[..], d, ms) && dl.Length == fc.Length
    modifies dl, blCount
    ensures root < dl.Length
    ensures PassAt(dl[..], old(dl[..])[root := 0], blCount[..], overflow, opt, stat, fc[..], d, ms, root, len, 0)
  {
    hide PassAt, Listed, Run;
    ClearCounts(blCount);
    overflow, opt, stat := 0, 0, 0;
    StartPass(heap[..], heapMax, fc[..], dl[..], blCount[..], d, maxCode, leaves, ms, root, len);
    ghost var dl0 := dl[..][root := 0];
    dl[heap[heapMax]] := 0;
    assert dl[..] == dl0;
    var h := heapMax + 1;
    while h < heap.Length
      invariant heapMax < h <= heap.Length
      invariant PassAt(dl[..], dl0, blCount[..], overflow, opt, stat, fc[..], d, ms, root, len, heap.Length - h)
    {
      overflow, opt, stat := ScanNode(heap[h], fc, dl, blCount, d, maxCode, overflow, opt, stat,
        heap[..], heapMax, dl0, leaves, ms, root, len, heap.Length - 1 - h);
      h := h + 1;
    }
  }

  // -------------------------------------- the lengths as one table over symbols

  ghost function Ones(n: nat): (g: seq<nat>)
    ensures |g| == n && forall k :: 0 <= k < n ==> g[k] == 1
  {
    seq(n, k => 1)
  }

  /** Exactly the leaves have a length. */
  ghost predicate LeafLengths(lens: seq<nat>, leaves: set<nat>) {
    forall k: nat :: k < |lens| ==> (k in leaves <==> lens[k] != 0)
  }

  lemma {:induction false} CountIsSum(lens: seq<nat>, leaves: set<nat>, l: seq<nat>, n: nat, b: nat)
    requires n <= |lens| && LeafLengths(lens, leaves) && b >= 1
    requires n <= |l| && forall k :: 0 <= k < n && k in leaves ==> l[k] == lens[k]
    ensures CountBelow(lens, n, b) == Sum(leaves, n, Having(l, b))
  {
    if n != 0 { CountIsSum(lens, leaves, l, n - 1, b); }
  }

  lemma {:induction false} UsedIsSum(lens: seq<nat>, leaves: set<nat>, n: nat, m: nat)
    requires n <= |lens| && n <= m && LeafLengths(lens, leaves) && ValidLens(lens)
    ensures OffsBelow(lens, n, MAXBITS + 1) == Sum(leaves, n, Ones(m))
  {
    if n == 0 {
      OffsBelowBound(lens, 0, MAXBITS + 1);
    } else {
      UsedIsSum(lens, leaves, n - 1, m);
      OffsBelowStep(lens, n - 1, MAXBITS + 1);
    }
  }

  lemma {:induction false} KraftIsSum(lens: seq<nat>, leaves: set<nat>, l: seq<nat>, n: nat, max: nat)
    requires n <= |lens| && LeafLengths(lens, leaves) && ValidLens(lens) && max <= MAXBITS
    requires n <= |l| && forall k :: 0 <= k < n && k in leaves ==> l[k] == lens[k] <= max
    ensures KraftBelow(lens, n) == Shl(Sum(leaves, n, Shares(l, max)), MAXBITS - max)
  {
    hide Pow2, Shl, ValidLens;
    var d := MAXBITS - max;
    if n == 0 {
      ShlOne(d);
    } else {
      KraftIsSum(lens, leaves, l, n - 1, max);
      if n - 1 in leaves {
        assert Shares(l, max)[n - 1] == Pow2(max - lens[n - 1]);
        Pow2Add(max - lens[n - 1], d);
        ShlAdd(Sum(leaves, n - 1, Shares(l, max)), Pow2(max - lens[n - 1]), d);
      }
    }
  }

  lemma {:induction false} SumSubset(A: set<nat>, B: set<nat>, n: nat, m: nat)
    requires n <= m && forall k: nat :: k < n && k in A ==> k in B
    ensures Sum(A, n, Ones(m)) <= Sum(B, n, Ones(m))
    ensures Sum(A, n, Ones(m)) == Sum(B, n, Ones(m)) ==> forall k: nat :: k < n && k in B ==> k in A
  {
    if n != 0 { SumSubset(A, B, n - 1, m); }
  }

  // --------------------------------------------------------- the second pass

  /** The leaves up to distance e from the end have lengths that do not rise, down to `bits`. */
  ghost predicate Falling(dl: seq<nat>, ms: seq<(nat, nat)>, elems: nat, e: nat, bits: nat)
    requires e <= 2 * |ms| && elems <= |dl|
  {
    && (forall i: nat :: i < e && NodeAt(ms, i) < elems ==> dl[NodeAt(ms, i)] >= bits)
    && forall i: nat, j: nat :: i < j < e && NodeAt(ms, i) < elems && NodeAt(ms, j) < elems ==>
         dl[NodeAt(ms, i)] >= dl[NodeAt(ms, j)]
  }

  lemma FallingLeaf(f: seq<nat>, leaves: set<nat>, ms: seq<(nat, nat)>, root: nat, dl: seq<nat>, elems: nat, e: nat,
                    bits: nat)
    requires e < 2 * |ms| && Grown(f, leaves, ms, elems, root) && elems <= |dl| && NodeAt(ms, e) < elems
    requires Falling(dl, ms, elems, e, bits)
    ensures Falling(dl[NodeAt(ms, e) := bits], ms, elems, e + 1, bits)
  {
    hide NodeAt, Grown;
    forall i: nat | i < e ensures NodeAt(ms, i) != NodeAt(ms, e) { NodesDiffer(f, leaves, ms, elems, root, i, e); }
  }

  lemma FallingOther(dl: seq<nat>, ms: seq<(nat, nat)>, elems: nat, e: nat, bits: nat)
    requires e < 2 * |ms| && elems <= |dl| && NodeAt(ms, e) >= elems && Falling(dl, ms, elems, e, bits)
    ensures Falling(dl, ms, elems, e + 1, bits)
  {
    hide NodeAt;
  }

  /** Later in the list, no lighter. */
  lemma {:induction false} Rising(f: seq<nat>, leaves: set<nat>, ms: seq<(nat, nat)>, first: nat, root: nat,
                                  i: nat, j: nat)
    requires Grown(f, leaves, ms, first, root) && i <= j < 2 * |ms|
    ensures NodeAt(ms, i) < |f| && NodeAt(ms, j) < |f| && f[NodeAt(ms, i)] <= f[NodeAt(ms, j)]
    decreases j - i
  {
    hide Forest;
    assert MergeAt(f, leaves, ms, first, i / 2);
    if i < j {
      Rising(f, leaves, ms, first, root, i, j - 1);
      assert MergeAt(f, leaves, ms, first, (j - 1) / 2);
      assert MergeAt(f, leaves, ms, first, j / 2);
      if j % 2 == 0 { StillThere(leaves, ms, first, j / 2 - 1); }
    }
  }

  lemma StillThere(leaves: set<nat>, ms: seq<(nat, nat)>, first: nat, t: nat)
    requires t < |ms|
    ensures Forest(leaves, ms, first, t + 1)
         == Forest(leaves, ms, first, t) - {ms[t].0} - {ms[t].1} + {first + t}
  {
  }

  /** A heavier leaf never has a longer code. */
  ghost predicate HeavierNotLonger(f: seq<nat>, dl: seq<nat>, leaves: set<nat>) {
    forall i: nat, j: nat :: i in leaves && j in leaves && i < |f| && i < |dl| && j < |f| && j < |dl| && f[i] > f[j] ==>
      dl[i] <= dl[j]
  }

  /** Lengths that fall along a list that holds all leaves by rising weight. */
  lemma FallingMeans(f: seq<nat>, leaves: set<nat>, ms: seq<(nat, nat)>, root: nat, dl: seq<nat>, elems: nat, e: nat)
    requires e <= 2 * |ms| && Grown(f, leaves, ms, elems, root) && elems <= |dl| && Falling(dl, ms, elems, e, 0)
    requires forall k: nat :: k < elems && k in leaves ==> k in Between(ms, 0, e)
    ensures HeavierNotLonger(f, dl, leaves)
  {
    hide NodeAt, Run;
    forall i: nat, j: nat | i in leaves && j in leaves && f[i] > f[j] ensures dl[i] <= dl[j] {
      var x :| 0 <= x < e && NodeAt(ms, x) == i;
      var y :| 0 <= y < e && NodeAt(ms, y) == j;
      if x <= y { Rising(f, leaves, ms, elems, root, x, y); }
    }
  }

  /** Nodes up to distance e from the end are done; lengths above `bits` are used up, n of `bits` are left. */
  ghost predicate HandedOut(cnt: seq<nat>, max: nat, bits: nat, n: nat, dl: seq<nat>, ms: seq<(nat, nat)>,
                            elems: nat, e: nat)
    requires |cnt| == MAXBITS + 1 && max <= MAXBITS && elems <= |dl| && bits <= max && e <= 2 * |ms|
  {
    && n <= cnt[bits] && Falling(dl, ms, elems, e, bits)
    && (forall b :: 1 <= b <= max ==>
          Sum(Between(ms, 0, e), elems, Having(dl, b))
          == (if b > bits then cnt[b] else if b == bits then cnt[b] - n else 0))
    && (forall k: nat :: k < elems && k in Between(ms, 0, e) ==> 1 <= dl[k] <= max)
    && Sum(Between(ms, 0, e), elems, Ones(elems)) + Total(cnt, bits) == Total(cnt, max) + cnt[bits] - n
  }

  lemma HandOutLeaf(cnt: seq<nat>, max: nat, bits: nat, n: nat, dl: seq<nat>, f: seq<nat>, leaves: set<nat>,
                    ms: seq<(nat, nat)>, root: nat, elems: nat, e: nat)
    requires |cnt| == MAXBITS + 1 && 1 <= bits <= max <= MAXBITS && elems <= |dl|
    requires e < 2 * |ms| && Grown(f, leaves, ms, elems, root)
    requires n > 0 && HandedOut(cnt, max, bits, n, dl, ms, elems, e) && NodeAt(ms, e) < elems
    ensures HandedOut(cnt, max, bits, n - 1, dl[NodeAt(ms, e) := bits], ms, elems, e + 1)
  {
    hide Falling;
    FallingLeaf(f, leaves, ms, root, dl, elems, e, bits);
    var m := NodeAt(ms, e);
    var dl' := dl[m := bits];
    var S := Between(ms, 0, e);
    Extend(f, leaves, ms, elems, root, 0, e + 1);
    assert m !in S;
    forall b | 1 <= b <= max
      ensures Sum(Between(ms, 0, e + 1), elems, Having(dl', b))
           == Sum(S, elems, Having(dl, b)) + (if b == bits then 1 else 0)
    {
      SumScan(f, leaves, ms, elems, root, 0, e + 1, elems, Having(dl', b));
      SumSame(S, elems, Having(dl', b), Having(dl, b));
    }
    SumScan(f, leaves, ms, elems, root, 0, e + 1, elems, Ones(elems));
  }

  lemma HandOutOther(cnt: seq<nat>, max: nat, bits: nat, n: nat, dl: seq<nat>, f: seq<nat>, leaves: set<nat>,
                     ms: seq<(nat, nat)>, root: nat, elems: nat, e: nat)
    requires |cnt| == MAXBITS + 1 && 1 <= bits <= max <= MAXBITS && elems <= |dl|
    requires e < 2 * |ms| && Grown(f, leaves, ms, elems, root)
    requires HandedOut(cnt, max, bits, n, dl, ms, elems, e) && NodeAt(ms, e) >= elems
    ensures HandedOut(cnt, max, bits, n, dl, ms, elems, e + 1)
  {
    hide Falling;
    FallingOther(dl, ms, elems, e, bits);
    Extend(f, leaves, ms, elems, root, 0, e + 1);
    forall b | 1 <= b <= max
      ensures Sum(Between(ms, 0, e + 1), elems, Having(dl, b)) == Sum(Between(ms, 0, e), elems, Having(dl, b))
    {
      SumScan(f, leaves, ms, elems, root, 0, e + 1, elems, Having(dl, b));
    }
    SumScan(f, leaves, ms, elems, root, 0, e + 1, elems, Ones(elems));
  }

  /** While lengths are left to hand out, nodes are left to scan. */
  lemma NodesLeft(cnt: seq<nat>, max: nat, bits: nat, n: nat, dl: seq<nat>, f: seq<nat>, leaves: set<nat>,
                  ms: seq<(nat, nat)>, root: nat, elems: nat, e: nat)
    requires |cnt| == MAXBITS + 1 && 1 <= bits <= max <= MAXBITS && elems <= |dl|
    requires e <= 2 * |ms| && Grown(f, leaves, ms, elems, root)
    requires Total(cnt, max) == Sum(leaves, elems, Ones(elems))
    requires n > 0 && HandedOut(cnt, max, bits, n, dl, ms, elems, e)
    ensures e < 2 * |ms|
  {
    if e == 2 * |ms| {
      SumLeaves(f, leaves, ms, elems, root, elems, Ones(elems));
    }
  }

  /** When all lengths are handed out every leaf has one. */
  lemma AllHandedOut(cnt: seq<nat>, max: nat, dl: seq<nat>, f: seq<nat>, leaves: set<nat>,
                     ms: seq<(nat, nat)>, root: nat, elems: nat, e: nat)
    requires |cnt| == MAXBITS + 1 && 1 <= max <= MAXBITS && elems <= |dl|
    requires e <= 2 * |ms| && Grown(f, leaves, ms, elems, root) && cnt[0] == 0
    requires Total(cnt, max) == Sum(leaves, elems, Ones(elems))
    requires HandedOut(cnt, max, 0, 0, dl, ms, elems, e)
    ensures forall k: nat :: k < elems && k in leaves ==> 1 <= dl[k] <= max
    ensures forall b :: 1 <= b <= max ==> Sum(leaves, elems, Having(dl, b)) == cnt[b]
    ensures HeavierNotLonger(f, dl, leaves)
  {
    hide Falling, HeavierNotLonger;
    var S := Between(ms, 0, e);
    forall k: nat | k < elems && k in S ensures k in leaves {
      LeavesListed(f, leaves, ms, elems, root, k);
    }
    SumSubset(S, leaves, elems, elems);
    FallingMeans(f, leaves, ms, root, dl, elems, e);
    forall b | 1 <= b <= max ensures Sum(leaves, elems, Having(dl, b)) == cnt[b] {
      SumMembers(S, leaves, elems, Having(dl, b));
    }
  }

  lemma {:induction false} SumMembers(A: set<nat>, B: set<nat>, n: nat, g: seq<nat>)
    requires n <= |g| && forall k: nat :: k < n ==> (k in A <==> k in B)
    ensures Sum(A, n, g) == Sum(B, n, g)
  {
    if n != 0 { SumMembers(A, B, n - 1, g); }
  }

  lemma StartHandOut(cnt: seq<nat>, max: nat, dl: seq<nat>, ms: seq<(nat, nat)>, elems: nat)
    requires |cnt| == MAXBITS + 1 && 1 <= max <= MAXBITS && elems <= |dl|
    ensures HandedOut(cnt, max, max, cnt[max], dl, ms, elems, 0)
  {
    forall b | 1 <= b <= max ensures Sum(Between(ms, 0, 0), elems, Having(dl, b)) == 0 {
      SumEmpty(Between(ms, 0, 0), elems, Having(dl, b));
    }
    SumEmpty(Between(ms, 0, 0), elems, Ones(elems));
  }

  /** Done with one length, on to the next shorter one. */
  lemma NextShorter(cnt: seq<nat>, max: nat, bits: nat, dl: seq<nat>, ms: seq<(nat, nat)>, elems: nat, e: nat)
    requires |cnt| == MAXBITS + 1 && 1 <= bits <= max <= MAXBITS && elems <= |dl| && e <= 2 * |ms|
    requires HandedOut(cnt, max, bits, 0, dl, ms, elems, e)
    ensures HandedOut(cnt, max, bits - 1, cnt[bits - 1], dl, ms, elems, e)
  {
  }

  /** Changing one leaf's length changes the bits spent by its frequency times the difference. */
  lemma Respent(f: seq<nat>, dl: seq<nat>, d: StaticDesc, leaves: set<nat>, m: nat, bits: nat)
    requires ValidDesc(d) && d.elems <= |f| && d.elems <= |dl| && m in leaves && m < d.elems
    ensures Sum(leaves, d.elems, CodeBits(f, dl[m := bits], d)) - Sum(leaves, d.elems, CodeBits(f, dl, d))
         == (bits - dl[m]) * f[m]
  {
    var g, g' := CodeBits(f, dl, d), CodeBits(f, dl[m := bits], d);
    SumRemove(leaves, d.elems, g, m);
    SumRemove(leaves, d.elems, g', m);
    SumSame(leaves - {m}, d.elems, g, g');
    SpentDifference(f[m], dl[m], bits, ExtraBits(d, m));
  }

  lemma SpentDifference(f: nat, a: nat, b: nat, x: nat)
    ensures Spent(f, b, x) - Spent(f, a, x) == (b - a) * f
  {
  }

  /** The new lengths differ from the old only at leaves, and opt follows them. */
  ghost predicate Respending(dl: seq<nat>, dl0: seq<nat>, opt: int, opt0: int, f: seq<nat>, d: StaticDesc,
                             leaves: set<nat>)
    requires ValidDesc(d) && d.elems <= |f|
  {
    && |dl| == |dl0| && d.elems <= |dl|
    && (forall k: nat :: k < |dl| && k !in leaves ==> dl[k] == dl0[k])
    && opt - Sum(leaves, d.elems, CodeBits(f, dl, d)) == opt0 - Sum(leaves, d.elems, CodeBits(f, dl0, d))
  }

  /** zlib/trees.c:552-559: give length `bits` to leaf m unless it has it already. */
  method Relength(m: nat, bits: nat, n: nat, opt: int, fc: array<nat>, dl: array<nat>, d: StaticDesc,
                  ghost cnt: seq<nat>, ghost max: nat, ghost dl0: seq<nat>, ghost opt0: int,
                  ghost leaves: set<nat>, ghost ms: seq<(nat, nat)>, ghost root: nat, ghost e: nat)
    returns (opt': int)
    requires fc != dl && ValidDesc(d) && d.elems <= fc.Length
    requires |cnt| == MAXBITS + 1 && 1 <= bits <= max <= MAXBITS && n > 0
    requires e < 2 * |ms| && Grown(fc[..], leaves, ms, d.elems, root) && m == NodeAt(ms, e) < d.elems
    requires Respending(dl[..], dl0, opt, opt0, fc[..], d, leaves)
    requires HandedOut(cnt, max, bits, n, dl[..], ms, d.elems, e)
    modifies dl
    ensures Respending(dl[..], dl0, opt', opt0, fc[..], d, leaves)
    ensures HandedOut(cnt, max, bits, n - 1, dl[..], ms, d.elems, e + 1)
  {
    NodeBound(fc[..], leaves, ms, d.elems, root, e);
    ghost var was := dl[..];
    HandOutLeaf(cnt, max, bits, n, was, fc[..], leaves, ms, root, d.elems, e);
    Respent(fc[..], was, d, leaves, m, bits);
    opt' := opt;
    if dl[m] != bits {
      opt' := opt + (bits - dl[m]) * fc[m];
      dl[m] := bits;
    }
    assert dl[..] == was[m := bits];
  }

  /** zlib/trees.c:550-560: hand out all lengths of one size, scanning on from h. */
  method HandOutOne(bits: nat, heap: array<nat>, h0: nat, fc: array<nat>, dl: array<nat>, blCount: array<nat>,
                    d: StaticDesc, maxCode: nat, opt0: int, ghost heapMax: nat, ghost dl0: seq<nat>,
                    ghost start: int, ghost leaves: set<nat>, ghost ms: seq<(nat, nat)>, ghost root: nat,
                    ghost len: seq<nat>)
    returns (opt: int, h: nat)
    requires dl != heap && dl != fc && dl != blCount && blCount.Length == MAXBITS + 1
    requires TreeInArrays(heap[..], heapMax, fc[..], d, maxCode, leaves, ms, root, len)
    requires Total(blCount[..], d.maxLength) == Sum(leaves, d.elems, Ones(d.elems))
    requires 1 <= bits <= d.maxLength && h0 <= heap.Length && heap.Length - h0 <= 2 * |ms|
    requires Respending(dl[..], dl0, opt0, start, fc[..], d, leaves)
    requires HandedOut(blCount[..], d.maxLength, bits, blCount[bits], dl[..], ms, d.elems, heap.Length - h0)
    modifies dl
    ensures h <= heap.Length && heap.Length - h <= 2 * |ms|
    ensures Respending(dl[..], dl0, opt, start, fc[..], d, leaves)
    ensures HandedOut(blCount[..], d.maxLength, bits, 0, dl[..], ms, d.elems, heap.Length - h)
  {
    hide Run, Tree, NodeAt, Falling;
    ghost var cnt, max := blCount[..], d.maxLength;
    var n := blCount[bits];
    opt, h := opt0, h0;
    while n != 0
      invariant h <= heap.Length && heap.Length - h <= 2 * |ms|
      invariant Respending(dl[..], dl0, opt, start, fc[..], d, leaves)
      invariant HandedOut(cnt, max, bits, n, dl[..], ms, d.elems, heap.Length - h)
      decreases h
    {
      ghost var e := heap.Length - h;
      NodesLeft(cnt, max, bits, n, dl[..], fc[..], leaves, ms, root, d.elems, e);
      NodeBound(fc[..], leaves, ms, d.elems, root, e);
      h := h - 1;
      var m := heap[h];
      assert m == heap[..][heap.Length - 1 - e] == NodeAt(ms, e);
      if m > maxCode {
        HandOutOther(cnt, max, bits, n, dl[..], fc[..], leaves, ms, root, d.elems, e);
        continue;
      }
      opt := Relength(m, bits, n, opt, fc, dl, d, cnt, max, dl0, start, leaves, ms, root, e);
      n := n - 1;
    }
  }

  /** zlib/trees.c:549-561. */
  method SecondPass(heap: array<nat>, ghost heapMax: nat, fc: array<nat>, dl: array<nat>, blCount: array<nat>,
                    d: StaticDesc, maxCode: nat, opt0: int,
                    ghost leaves: set<nat>, ghost ms: seq<(nat, nat)>, ghost root: nat, ghost len: seq<nat>)
    returns (opt: int)
    requires dl != heap && dl != fc && dl != blCount && fc.Length == dl.Length
    requires TreeInArrays(heap[..], heapMax, fc[..], d, maxCode, leaves, ms, root, len)
    requires blCount.Length == MAXBITS + 1 && blCount[0] == 0
    requires Total(blCount[..], d.maxLength) == Sum(leaves, d.elems, Ones(d.elems))
    modifies dl
    ensures Respending(dl[..], old(dl[..]), opt, opt0, fc[..], d, leaves)
    ensures forall k: nat :: k < d.elems && k in leaves ==> 1 <= dl[k] <= d.maxLength
    ensures forall b :: 1 <= b <= d.maxLength ==> Sum(leaves, d.elems, Having(dl[..], b)) == blCount[b]
    ensures HeavierNotLonger(fc[..], dl[..], leaves)
  {
    hide Pow2, Total, Sum;
    ghost var cnt, dl0, max := blCount[..], dl[..], d.maxLength;
    opt := opt0;
    var h: nat := heap.Length;
    var bits := d.maxLength;
    StartHandOut(cnt, max, dl[..], ms, d.elems);
    while bits != 0
      invariant 0 <= bits <= max && h <= heap.Length && heap.Length - h <= 2 * |ms|
      invariant Respending(dl[..], dl0, opt, opt0, fc[..], d, leaves)
      invariant HandedOut(cnt, max, bits, cnt[bits], dl[..], ms, d.elems, heap.Length - h)
    {
      opt, h := HandOutOne(bits, heap, h, fc, dl, blCount, d, maxCode, opt, heapMax, dl0, opt0, leaves, ms, root, len);
      NextShorter(cnt, max, bits, dl[..], ms, d.elems, heap.Length - h);
      bits := bits - 1;
    }
    AllHandedOut(cnt, max, dl[..], fc[..], leaves, ms, root, d.elems, heap.Length - h);
  }

  // --------------------------------------------------------------- gen_bitlen

  /** cnt counts the lengths of the symbols, and adds up to the same Kraft sum. */
  ghost predicate MatchingCounts(lens: seq<nat>, cnt: seq<nat>, leaves: set<nat>, max: nat) {
    && ValidLens(lens) && max <= MAXBITS && (forall k :: 0 <= k < |lens| ==> lens[k] <= max)
    && |cnt| == MAXBITS + 1 && (forall b :: 1 <= b <= MAXBITS ==> cnt[b] == Count(lens, b))
    && KraftOf(cnt, max) == Kraft(lens)
  }

  /** The lengths of the symbols form a complete code of the leaves, and the counts match. */
  ghost predicate CompleteCode(lens: seq<nat>, cnt: seq<nat>, leaves: set<nat>, max: nat) {
    && LeafLengths(lens, leaves) && MatchingCounts(lens, cnt, leaves, max)
    && Kraft(lens) == Pow2(MAXBITS) && cnt[0] == 0
  }

  /** How many leaves have each length in the tree. */
  ghost function DepthCounts(len: seq<nat>, leaves: set<nat>, elems: nat): (cnt: seq<nat>)
    requires elems <= |len|
    ensures |cnt| == MAXBITS + 1 && forall b :: 0 <= b <= MAXBITS ==> cnt[b] == Sum(leaves, elems, Having(len, b))
  {
    seq(MAXBITS + 1, b requires 0 <= b => Sum(leaves, elems, Having(len, b)))
  }

  /** After the first pass: the counts, and how much the lengths overdraw the Kraft sum. */
  lemma FirstPassCounts(f: seq<nat>, dl: seq<nat>, dl0: seq<nat>, cnt: seq<nat>, overflow: nat, opt: nat, stat: nat,
                        d: StaticDesc, leaves: set<nat>, ms: seq<(nat, nat)>, root: nat, len: seq<nat>)
    requires ValidDesc(d) && d.elems <= |f| && Grown(f, leaves, ms, d.elems, root)
    requires Tree(f, leaves, ms, d.elems, len, d.maxLength, root)
    requires PassAt(dl, dl0, cnt, overflow, opt, stat, f, d, ms, root, len, 0)
    ensures overflow == 2 * CutOff(len, d.elems, d.maxLength, 0, |ms|)
    ensures forall b :: 0 <= b <= MAXBITS ==> cnt[b] == Sum(leaves, d.elems, Having(len, b))
    ensures opt == Sum(leaves, d.elems, CodeBits(f, len, d))
    ensures stat == if d.hasTree then Sum(leaves, d.elems, CodeBits(f, d.tree, d)) else 0
    ensures forall k: nat :: k < d.elems && k in leaves ==> dl[k] == len[k] && len[k] >= 1
  {
    OverIsTwice(len, d.elems, d.maxLength, ms, 0);
    forall b | 0 <= b <= MAXBITS ensures cnt[b] == Sum(leaves, d.elems, Having(len, b)) {
      SumLeaves(f, leaves, ms, d.elems, root, d.elems, Having(len, b));
    }
    SumLeaves(f, leaves, ms, d.elems, root, d.elems, CodeBits(f, len, d));
    if d.hasTree { SumLeaves(f, leaves, ms, d.elems, root, d.elems, CodeBits(f, d.tree, d)); }
    forall k: nat | k < d.elems && k in leaves ensures dl[k] == len[k] && len[k] >= 1 {
      LeavesListed(f, leaves, ms, d.elems, root, k);
      var j := LeafJoined(f, leaves, ms, d.elems, root, k);
      assert SonsDeeper(len, ms, d.elems, d.maxLength, j);
    }
  }

  lemma {:induction false} SumZero(A: set<nat>, n: nat, g: seq<nat>)
    requires n <= |g| && forall k: nat :: k < n && k in A ==> g[k] == 0
    ensures Sum(A, n, g) == 0
  {
    if n != 0 { SumZero(A, n - 1, g); }
  }

  lemma {:induction false} SumBeyond(A: set<nat>, m: nat, n: nat, g: seq<nat>)
    requires m <= n <= |g| && Below(A, m)
    ensures Sum(A, n, g) == Sum(A, m, g)
  {
    if m < n { SumBeyond(A, m, n - 1, g); }
  }

  lemma {:induction false} ZeroAbove(cnt: seq<nat>, max: nat, b: nat)
    requires |cnt| == MAXBITS + 1 && max <= b <= MAXBITS && forall i :: max < i <= MAXBITS ==> cnt[i] == 0
    ensures KraftOf(cnt, b) == KraftOf(cnt, max) && Total(cnt, b) == Total(cnt, max)
  {
    if max < b {
      ZeroAbove(cnt, max, b - 1);
      ShlOne(MAXBITS - b);
    }
  }

  /** A table of counts of the leaves' lengths, and what it says about the lengths of the symbols. */
  lemma CountsOfLeaves(lens: seq<nat>, cnt: seq<nat>, d: StaticDesc, leaves: set<nat>, l: seq<nat>)
    requires ValidDesc(d) && |lens| == d.elems <= |l| && LeafLengths(lens, leaves)
    requires forall k: nat :: k < d.elems && k in leaves ==> l[k] == lens[k] <= d.maxLength
    requires |cnt| == MAXBITS + 1
    requires forall b :: 1 <= b <= d.maxLength ==> cnt[b] == Sum(leaves, d.elems, Having(l, b))
    requires forall b :: d.maxLength < b <= MAXBITS ==> cnt[b] == 0
    ensures MatchingCounts(lens, cnt, leaves, d.maxLength)
    ensures Total(cnt, d.maxLength) == Sum(leaves, d.elems, Ones(d.elems)) <= d.elems
  {
    forall b | 1 <= b <= MAXBITS ensures cnt[b] == Count(lens, b) {
      CountIsSum(lens, leaves, l, d.elems, b);
      if b > d.maxLength { SumZero(leaves, d.elems, Having(l, b)); }
    }
    KraftOfCounts(cnt, lens, MAXBITS);
    ZeroAbove(cnt, d.maxLength, MAXBITS);
    KraftGrouped(lens, |lens|);
    UsedIsSum(lens, leaves, d.elems, d.elems);
    OffsBelowBound(lens, d.elems, MAXBITS + 1);
  }

  lemma DepthsKraft(f: seq<nat>, lens: seq<nat>, d: StaticDesc, leaves: set<nat>,
                    ms: seq<(nat, nat)>, root: nat, len: seq<nat>)
    requires ValidDesc(d) && |lens| == d.elems <= |f| && Grown(f, leaves, ms, d.elems, root)
    requires Tree(f, leaves, ms, d.elems, len, d.maxLength, root)
    requires LeafLengths(lens, leaves) && ValidLens(lens)
    requires forall k: nat :: k < d.elems && k in leaves ==> len[k] == lens[k] <= d.maxLength
    ensures Kraft(lens)
         == Shl(Pow2(d.maxLength) + CutOff(len, d.elems, d.maxLength, 0, |ms|), MAXBITS - d.maxLength)
  {
    hide KraftBelow, Sum, Shares, Merge, Merged;
    KraftIsSum(lens, leaves, len, d.elems, d.maxLength);
    CutOffKraft(f, leaves, ms, d.elems, len, d.maxLength, root, 0);
    SumBeyond(leaves, d.elems, |len|, Shares(len, d.maxLength));
  }

  lemma WholeAndOver(max: nat, x: nat)
    requires max <= MAXBITS
    ensures Shl(Pow2(max) + x, MAXBITS - max) == Pow2(MAXBITS) + Shl(x, MAXBITS - max)
  {
    Pow2Add(max, MAXBITS - max);
    ShlAdd(Pow2(max), x, MAXBITS - max);
  }

  lemma DepthsOverdrawn(f: seq<nat>, lens: seq<nat>, d: StaticDesc, leaves: set<nat>,
                        ms: seq<(nat, nat)>, root: nat, len: seq<nat>)
    requires ValidDesc(d) && |lens| == d.elems <= |f| && Grown(f, leaves, ms, d.elems, root)
    requires Tree(f, leaves, ms, d.elems, len, d.maxLength, root)
    requires LeafLengths(lens, leaves) && ValidLens(lens)
    requires forall k: nat :: k < d.elems && k in leaves ==> len[k] == lens[k] <= d.maxLength
    ensures var x := CutOff(len, d.elems, d.maxLength, 0, |ms|);
      && Kraft(lens) == Pow2(MAXBITS) + Shl(x, MAXBITS - d.maxLength)
      && Sum(leaves, d.elems, Having(len, d.maxLength)) >= x + (if x > 0 then 1 else 0)
  {
    hide KraftBelow, Kraft, Sum, Merge, Merged;
    var max, x := d.maxLength, CutOff(len, d.elems, d.maxLength, 0, |ms|);
    DepthsKraft(f, lens, d, leaves, ms, root, len);
    WholeAndOver(max, x);
    DeepLeaves(f, leaves, ms, d.elems, len, max, root, 0);
    SumBeyond(leaves, d.elems, |len|, Having(len, max));
  }

  /** The counts after the first pass are over-subscribed by the number of cut-off merges. */
  lemma CountsOverdrawn(f: seq<nat>, lens: seq<nat>, cnt: seq<nat>, d: StaticDesc, leaves: set<nat>,
                        ms: seq<(nat, nat)>, root: nat, len: seq<nat>)
    requires ValidDesc(d) && |lens| == d.elems <= |f| && Grown(f, leaves, ms, d.elems, root)
    requires Tree(f, leaves, ms, d.elems, len, d.maxLength, root)
    requires LeafLengths(lens, leaves)
    requires forall k: nat :: k < d.elems && k in leaves ==> 1 <= len[k] == lens[k] <= d.maxLength
    requires |cnt| == MAXBITS + 1
    requires forall b :: 0 <= b <= MAXBITS ==> cnt[b] == Sum(leaves, d.elems, Having(len, b))
    ensures MatchingCounts(lens, cnt, leaves, d.maxLength)
    ensures var x := CutOff(len, d.elems, d.maxLength, 0, |ms|);
      Overdrawn(cnt, d.maxLength, x, Sum(leaves, d.elems, Ones(d.elems)), if x > 0 then 1 else 0)
  {
    SumZero(leaves, d.elems, Having(len, 0));
    forall b | d.maxLength < b <= MAXBITS ensures cnt[b] == 0 { SumZero(leaves, d.elems, Having(len, b)); }
    CountsOfLeaves(lens, cnt, d, leaves, len);
    DepthsOverdrawn(f, lens, d, leaves, ms, root, len);
  }

  lemma KeptZero(f: seq<nat>, dl: seq<nat>, dl0: seq<nat>, d: StaticDesc, leaves: set<nat>,
                 ms: seq<(nat, nat)>, root: nat, len: seq<nat>)
    requires ValidDesc(d) && d.elems <= |f| && Grown(f, leaves, ms, d.elems, root)
    requires Scanned(dl, dl0, d, ms, root, len, 0) && d.elems <= |dl|
    requires forall k: nat :: k < d.elems && k !in leaves ==> dl0[k] == 0
    requires forall k: nat :: k < d.elems && k in leaves ==> dl[k] >= 1
    ensures LeafLengths(dl[..d.elems], leaves)
  {
    forall k: nat | k < d.elems ensures k in leaves <==> dl[k] != 0 {
      LeavesListed(f, leaves, ms, d.elems, root, k);
    }
  }

  lemma RootAbove(leaves: set<nat>, ms: seq<(nat, nat)>, first: nat, root: nat, f: seq<nat>)
    requires Grown(f, leaves, ms, first, root)
    ensures root >= first
  {
    RootIsNew(leaves, ms, first, root);
  }

  /** The first pass, with what its totals mean. */
  method CountedPass(heap: array<nat>, heapMax: nat, fc: array<nat>, dl: array<nat>, blCount: array<nat>,
                     d: StaticDesc, maxCode: nat,
                     ghost leaves: set<nat>, ghost ms: seq<(nat, nat)>, ghost root: nat, ghost len: seq<nat>)
    returns (overflow: nat, opt: nat, stat: nat)
    requires dl != heap && dl != fc && dl != blCount && blCount != heap && blCount != fc
    requires blCount.Length == MAXBITS + 1 && dl.Length == fc.Length
    requires TreeInArrays(heap[..], heapMax, fc[..], d, maxCode, leaves, ms, root, len)
    requires FathersSet(dl[..], d, ms)
    requires forall k: nat :: k < d.elems && k !in leaves ==> dl[k] == 0
    modifies dl, blCount
    ensures overflow == 2 * CutOff(len, d.elems, d.maxLength, 0, |ms|)
    ensures LeafLengths(dl[..d.elems], leaves) && MatchingCounts(dl[..d.elems], blCount[..], leaves, d.maxLength)
    ensures Overdrawn(blCount[..], d.maxLength, overflow / 2, Sum(leaves, d.elems, Ones(d.elems)),
                      if overflow > 0 then 1 else 0)
    ensures opt == Sum(leaves, d.elems, CodeBits(fc[..], dl[..], d))
    ensures stat == if d.hasTree then Sum(leaves, d.elems, CodeBits(fc[..], d.tree, d)) else 0
    ensures forall k: nat :: k < d.elems && k in leaves ==> dl[k] == len[k]
    ensures d.elems <= |len| && blCount[..] == DepthCounts(len, leaves, d.elems)
  {
    ghost var dl0 := dl[..][root := 0];
    overflow, opt, stat := FirstPass(heap, heapMax, fc, dl, blCount, d, maxCode, leaves, ms, root, len);
    RootAbove(leaves, ms, d.elems, root, fc[..]);
    FirstPassCounts(fc[..], dl[..], dl0, blCount[..], overflow, opt, stat, d, leaves, ms, root, len);
    KeptZero(fc[..], dl[..], dl0, d, leaves, ms, root, len);
    ghost var lens := dl[..d.elems];
    CountsOverdrawn(fc[..], lens, blCount[..], d, leaves, ms, root, len);
    assert overflow / 2 == CutOff(len, d.elems, d.maxLength, 0, |ms|);
    SumSame(leaves, d.elems, CodeBits(fc[..], dl[..], d), CodeBits(fc[..], len, d));
  }

  /** zlib/trees.c:531-561: the repair and the second pass. */
  method RepairPass(heap: array<nat>, ghost heapMax: nat, fc: array<nat>, dl: array<nat>, blCount: array<nat>,
                    d: StaticDesc, maxCode: nat, overflow: nat, opt0: int,
                    ghost leaves: set<nat>, ghost ms: seq<(nat, nat)>, ghost root: nat, ghost len: seq<nat>)
    returns (opt: int, ghost trail: seq<nat>)
    requires dl != heap && dl != fc && dl != blCount && blCount != heap && blCount != fc
    requires blCount.Length == MAXBITS + 1 && dl.Length == fc.Length
    requires TreeInArrays(heap[..], heapMax, fc[..], d, maxCode, leaves, ms, root, len)
    requires LeafLengths(dl[..d.elems], leaves) && overflow > 0 && overflow % 2 == 0
    requires Overdrawn(blCount[..], d.maxLength, overflow / 2, Sum(leaves, d.elems, Ones(d.elems)), 1)
    requires opt0 == Sum(leaves, d.elems, CodeBits(fc[..], dl[..], d))
    modifies dl, blCount
    ensures CompleteCode(dl[..d.elems], blCount[..], leaves, d.maxLength) && blCount[d.maxLength] > 0
    ensures opt == Sum(leaves, d.elems, CodeBits(fc[..], dl[..], d))
    ensures HeavierNotLonger(fc[..], dl[..], leaves)
    ensures |trail| == overflow / 2 && Moves(old(blCount[..]), d.maxLength, trail, blCount[..])
  {
    hide Merge, Merged, Forest, MergeAt, HeavierNotLonger, Moves;
    trail := Repair(blCount, d.maxLength, overflow, Sum(leaves, d.elems, Ones(d.elems)), 1);
    opt := SecondPass(heap, heapMax, fc, dl, blCount, d, maxCode, opt0, leaves, ms, root, len);
    CountsOfLeaves(dl[..d.elems], blCount[..], d, leaves, dl[..]);
    ShlOne(MAXBITS - d.maxLength);
  }

  /** `gen_bitlen`: opt and stat are what it adds to opt_len and static_len, and overflow its local. */
  method GenLengths(heap: array<nat>, heapMax: nat, fc: array<nat>, dl: array<nat>, blCount: array<nat>,
                   d: StaticDesc, maxCode: nat,
                   ghost leaves: set<nat>, ghost ms: seq<(nat, nat)>, ghost root: nat, ghost len: seq<nat>)
    returns (opt: int, stat: nat, overflow: nat, ghost trail: seq<nat>)
    requires dl != heap && dl != fc && dl != blCount && blCount != heap && blCount != fc
    requires blCount.Length == MAXBITS + 1 && dl.Length == fc.Length
    requires TreeInArrays(heap[..], heapMax, fc[..], d, maxCode, leaves, ms, root, len)
    requires FathersSet(dl[..], d, ms)
    requires forall k: nat :: k < d.elems && k !in leaves ==> dl[k] == 0
    modifies dl, blCount
    ensures CompleteCode(dl[..d.elems], blCount[..], leaves, d.maxLength)
    ensures opt == Sum(leaves, d.elems, CodeBits(fc[..], dl[..], d))
    ensures stat == if d.hasTree then Sum(leaves, d.elems, CodeBits(fc[..], d.tree, d)) else 0
    ensures overflow == 2 * CutOff(len, d.elems, d.maxLength, 0, |ms|)
    ensures overflow == 0 ==> forall k: nat :: k < d.elems && k in leaves ==> dl[k] == len[k]
    ensures overflow > 0 ==> blCount[d.maxLength] > 0 && HeavierNotLonger(fc[..], dl[..], leaves)
    ensures d.elems <= |len| && |trail| == overflow / 2
    ensures Moves(DepthCounts(len, leaves, d.elems), d.maxLength, trail, blCount[..])
  {
    hide Pow2, Shl, ValidLens, CountBelow, Count, HeavierNotLonger, Falling;
    trail := [];
    overflow, opt, stat := CountedPass(heap, heapMax, fc, dl, blCount, d, maxCode, leaves, ms, root, len);
    ShlOne(MAXBITS - d.maxLength);
    if overflow == 0 {
      return;
    }
    opt, trail := RepairPass(heap, heapMax, fc, dl, blCount, d, maxCode, overflow, opt, leaves, ms, root, len);
  }
}
