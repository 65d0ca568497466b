/**
 `_tr_flush_block` (zlib/trees.c:912-1008): the trees of a block, what it would take
 each way, and the way taken.
 */
module FlushBlock {
  import opened BitOps
  import opened Canonical
  import opened Huffman
  import opened GenBitlen
  import opened BuildTree
  import opened BuiltTrees
  import opened TrimmedCodes
  import opened RunLengths
  import opened CodeLengths
  import opened BlockHeader
  import opened HeaderCost
  import opened Lz77
  import opened BlockCodes
  import opened BlockCost
  import opened CompressBlock
  import HeapMerge

  /** dyn_ltree, dyn_dtree and bl_tree, each as Freq or Code and Dad or Len. */
  datatype TreeArrays = TreeArrays(lfc: array<nat>, ldl: array<nat>, dfc: array<nat>, ddl: array<nat>,
                                   bfc: array<nat>, bdl: array<nat>)

  ghost predicate Separate(st: TreeState, a: TreeArrays) {
    && st.Valid()
    && a.lfc.Length == a.ldl.Length == HEAP_SIZE && a.dfc.Length == a.ddl.Length == 61
    && a.bfc.Length == a.bdl.Length == 39
    && {a.lfc, a.ldl, a.dfc, a.ddl, a.bfc, a.bdl} !! {st.heap, st.depth, st.blCount}
    && a.lfc != a.ldl && a.lfc != a.dfc && a.lfc != a.ddl && a.lfc != a.bfc && a.lfc != a.bdl
    && a.ldl != a.dfc && a.ldl != a.ddl && a.ldl != a.bfc && a.ldl != a.bdl
    && a.dfc != a.ddl && a.dfc != a.bfc && a.dfc != a.bdl
    && a.ddl != a.bfc && a.ddl != a.bdl && a.bfc != a.bdl
  }

  /** The frequencies are small enough for 16 bits, with room for forced symbols. */
  ghost predicate Bounded(f: seq<nat>, n: nat)
    requires n <= |f|
  {
    TotalOf(f, n) + 2 < HeapMerge.FREQ_RANGE
  }

  lemma OccurringTotal(f: seq<nat>, n: nat)
    requires n <= |f|
    ensures Sum(Occurring(f, n), n, f) == TotalOf(f, n)
  {
    SumIsTotal(Occurring(f, n), n, f);
  }

  /** build_tree, with what its tree is good for. */
  method BuildOne(st: TreeState, fc: array<nat>, dl: array<nat>, d: StaticDesc)
    returns (maxCode: nat)
    requires st.Valid() && ValidDesc(d) && 3 <= d.elems && 2 * d.elems < HEAP_SIZE
    requires fc != dl && fc.Length == dl.Length && 2 * d.elems <= fc.Length
    requires {fc, dl} !! {st.heap, st.depth, st.blCount}
    requires forall k :: 0 <= k < 3 ==> ExtraBits(d, k) == 0
    requires Bounded(fc[..], d.elems)
    modifies st, st.heap, st.depth, st.blCount, fc, dl
    ensures Built(fc[..], dl[..], d, maxCode, old(fc[..])) && NoneBeyond(dl[..], d, maxCode)
    ensures st.optLen == old(st.optLen) + BuildTree.SymbolBits(old(fc[..]), dl[..], d)
    ensures st.staticLen == old(st.staticLen) + if d.hasTree then BuildTree.SymbolBits(old(fc[..]), d.tree, d) else 0
  {
    hide Sum, TotalOf, RevCode, Kraft, Built, BuildTree.SymbolBits, Forcing, CompleteCode;
    ghost var f := fc[..];
    OccurringTotal(f, d.elems);
    var mc, _, leaves, weights, _, _, _, _ := st.BuildTree(fc, dl, d);
    maxCode := mc;
    BuiltByTree(fc[..], dl[..], st.blCount[..], d, maxCode, f, weights, leaves);
  }

  // -------------------------------------------------- literals and distances

  lemma PlannedFrom(t: Tables, syms: seq<Symbol>, fl: seq<nat>, fd: seq<nat>, ll: seq<nat>, dl: seq<nat>,
                    ld: StaticDesc, dd: StaticDesc)
    requires GoodTables(t) && (forall s :: s in syms ==> Codable(s)) && Tallies(t, syms, fl, fd)
    requires LitDesc(ld) && DistDesc(dd) && 286 <= |ll| && 30 <= |dl|
    ensures BuildTree.SymbolBits(fl, ll, ld) + BuildTree.SymbolBits(fd, dl, dd) == Planned(t, ll, dl, syms, ld, dd)
  {
    hide Spent, GoodTables, BuildTree.SymbolBits;
    OccurringCost(fl, ll, ld);
    OccurringCost(fd, dl, dd);
    SameFreqs(LitFreqs(t, syms), fl, ll, ld);
    SameFreqs(DistFreqs(t, syms), fd, dl, dd);
  }

  lemma TalliesBounded(t: Tables, syms: seq<Symbol>, fl: seq<nat>, fd: seq<nat>)
    requires GoodTables(t) && (forall s :: s in syms ==> Codable(s)) && Tallies(t, syms, fl, fd)
    requires |syms| + 3 < HeapMerge.FREQ_RANGE
    ensures Bounded(fl, 286) && Bounded(fd, 30)
  {
    hide GoodTables;
    LitTotal(t, syms);
    DistTotal(t, syms);
    TotalSame(LitFreqs(t, syms), fl, 286);
    TotalSame(DistFreqs(t, syms), fd, 30);
  }

  lemma {:induction false} Counted(t: Tables, syms: seq<Symbol>, s: Symbol)
    requires GoodTables(t) && (forall s :: s in syms ==> Codable(s)) && s in syms
    ensures LitCount(t, syms, LitSymbol(t, s)) >= 1
    ensures s.Match? ==> DistCount(t, syms, DistSymbol(t, s.dist)) >= 1
    decreases |syms|
  {
    hide GoodTables;
    if s != syms[0] { Counted(t, syms[1..], s); }
  }

  lemma {:induction false} EndCounted(t: Tables, syms: seq<Symbol>)
    requires GoodTables(t) && forall s :: s in syms ==> Codable(s)
    ensures LitCount(t, syms, 256) >= 1
    decreases |syms|
  {
    hide GoodTables;
    if syms != [] { EndCounted(t, syms[1..]); }
  }

  /** Every symbol of the block has a code in the trees built from its frequencies. */
  lemma TreesHaveCodes(t: Tables, syms: seq<Symbol>, fl: seq<nat>, fd: seq<nat>, lfc: seq<nat>, ldl: seq<nat>,
                       ld: StaticDesc, lmax: nat, dfc: seq<nat>, ddl: seq<nat>, dd: StaticDesc, dmax: nat)
    requires GoodTables(t) && (forall s :: s in syms ==> Codable(s)) && Tallies(t, syms, fl, fd)
    requires LitDesc(ld) && DistDesc(dd)
    requires Built(lfc, ldl, ld, lmax, fl) && Built(dfc, ddl, dd, dmax, fd)
    ensures AllCodes(t, Codes(ldl[..lmax + 1], ddl[..dmax + 1]), syms) && lmax >= 256
  {
    hide GoodTables, Kraft, RevCode;
    EndCounted(t, syms);
    forall s | s in syms ensures HasCodes(t, Codes(ldl[..lmax + 1], ddl[..dmax + 1]), s) {
      Counted(t, syms, s);
      LitSymbolBound(t, s);
    }
  }

  // -------------------------------------------------------------- the short code

  ghost predicate TokensCounted(f: seq<nat>, ts: seq<Token>) {
    |f| >= BL_CODES && forall k :: 0 <= k < BL_CODES ==> f[k] == CountOf(ts, k)
  }

  /** zlib/trees.c:804-806. */
  method ScanBoth(ldl: array<nat>, lmax: nat, ddl: array<nat>, dmax: nat, bfc: array<nat>)
    requires ldl != ddl && ldl != bfc && ddl != bfc && lmax + 1 < ldl.Length && dmax + 1 < ddl.Length
    requires (forall i :: 0 <= i <= lmax ==> ldl[i] <= 15) && (forall i :: 0 <= i <= dmax ==> ddl[i] <= 15)
    requires bfc.Length >= BL_CODES && forall k :: 0 <= k < BL_CODES ==> bfc[k] == 0
    modifies ldl, ddl, bfc
    ensures ldl[..lmax + 1] == old(ldl[..lmax + 1]) && ldl[lmax + 1] == GUARD
    ensures ddl[..dmax + 1] == old(ddl[..dmax + 1]) && ddl[dmax + 1] == GUARD
    ensures TokensCounted(bfc[..], TreeTokens(ldl[..lmax + 1]) + TreeTokens(ddl[..dmax + 1]))
  {
    hide TreeTokens, CountOf;
    ghost var zero: seq<nat> := bfc[..];
    ScanTree(ldl, lmax, bfc);
    ghost var one: seq<nat> := bfc[..];
    ghost var a := TreeTokens(ldl[..lmax + 1]);
    ScanTree(ddl, dmax, bfc);
    GainedMore(bfc[..], one, zero, a, TreeTokens(ddl[..dmax + 1]));
  }

  lemma TokensBounded(f: seq<nat>, lit: seq<nat>, dist: seq<nat>)
    requires |lit| <= 286 && |dist| <= 30 && TokensCounted(f, TreeTokens(lit) + TreeTokens(dist))
    requires (forall i :: 0 <= i < |lit| ==> lit[i] <= 15) && (forall i :: 0 <= i < |dist| ==> dist[i] <= 15)
    ensures Bounded(f, BL_CODES)
  {
    hide Tokens, CountOf, Fresh;
    var ts := TreeTokens(lit) + TreeTokens(dist);
    FreshBounds(-1, LengthAt(lit, 0));
    FreshBounds(-1, LengthAt(dist, 0));
    FewTokens(lit, 0, Fresh(-1, LengthAt(lit, 0)));
    FewTokens(dist, 0, Fresh(-1, LengthAt(dist, 0)));
    TreeTokensExpand(lit);
    TreeTokensExpand(dist);
    forall t | t in ts ensures SymbolOf(t) < BL_CODES { assert Sendable(t); }
    TokenTotal(ts);
    TotalSame(TokenFreqs(ts), f, BL_CODES);
  }

  lemma FreshBounds(prevlen: int, nextlen: nat)
    ensures Fresh(prevlen, nextlen).count == 0 && Fresh(prevlen, nextlen).minCount >= 3
  {
  }

  lemma {:induction false} TokenCounted(ts: seq<Token>, t: Token)
    requires t in ts
    ensures CountOf(ts, SymbolOf(t)) >= 1
    decreases |ts|
  {
    if t != ts[0] { TokenCounted(ts[1..], t); }
  }

  /** The 19 lengths: all tokens have codes, and the codes are ready. */
  lemma ShortCode(bfc: seq<nat>, bdl: seq<nat>, bd: StaticDesc, bmax: nat, f: seq<nat>, ts: seq<Token>)
    requires BlDesc(bd) && Built(bfc, bdl, bd, bmax, f) && NoneBeyond(bdl, bd, bmax)
    requires TokensCounted(f, ts) && forall t :: t in ts ==> Sendable(t)
    ensures HaveCodes(bdl[..BL_CODES], ts) && CodesReady(bfc, bdl, bdl[..BL_CODES])
    ensures BlCode(bdl[..BL_CODES])
  {
    hide Kraft, RevCode, CountOf, Pow2;
    var bl, lens := bdl[..BL_CODES], bdl[..bmax + 1];
    assert bl[..bmax + 1] == lens;
    TrimKraft(bl, bmax + 1);
    forall s: nat | s < |bl| && bl[s] != 0 ensures bfc[s] == RevCode(bl, s) {
      assert lens[s] == bl[s];
      TrimCode(bl, bmax + 1, s);
    }
    forall t | t in ts ensures HasCode(bl, t) {
      TokenCounted(ts, t);
      assert lens[SymbolOf(t)] == bl[SymbolOf(t)];
    }
  }

  /** Tokens without a positive length expand to nothing but zeros. */
  lemma {:induction false} OnlyZeros(out: seq<nat>, ts: seq<Token>, final: seq<nat>)
    requires Expand(out, ts) == Lengths(final)
    requires (forall t :: t in ts && t.Length? ==> t.l == 0) && forall i :: 0 <= i < |out| ==> out[i] == 0
    ensures forall i :: 0 <= i < |final| ==> final[i] == 0
    decreases |ts|
  {
    if ts != [] { OnlyZeros(out + Added(out, ts[0]), ts[1..], final); }
  }

  /** At least four of the 19 lengths are sent. */
  lemma SomeLength(bl: seq<nat>, lit: seq<nat>, k: nat)
    requires k < |lit| && lit[k] != 0 && (forall i :: 0 <= i < |lit| ==> lit[i] <= 15)
    requires |bl| == BL_CODES && HaveCodes(bl, TreeTokens(lit))
    ensures !ZeroFrom(bl, 3)
  {
    hide TreeTokens;
    TreeTokensExpand(lit);
    var ts := TreeTokens(lit);
    if forall t :: t in ts && t.Length? ==> t.l == 0 {
      OnlyZeros([], ts, lit);
    } else {
      var t :| t in ts && t.Length? && t.l != 0;
      assert HasCode(bl, t);
      OrderRanks(t.l);
      RankOfLength(t.l);
      assert bl[BL_ORDER[BL_RANK[t.l]]] != 0;
    }
  }

  lemma RankOfLength(l: nat)
    requires 1 <= l <= 15
    ensures 3 <= BL_RANK[l] < BL_CODES
  {
  }

  /** Everything that sending a dynamic block needs. */
  ghost predicate DynReady(a: TreeArrays, t: Tables, syms: seq<Symbol>, lmax: nat, dmax: nat, n: nat)
    requires GoodTables(t)
    reads a.lfc, a.ldl, a.dfc, a.ddl, a.bfc, a.bdl
  {
    && lmax + 1 < a.ldl.Length && dmax + 1 < a.ddl.Length && a.bdl.Length >= BL_CODES
    && var lit, dist, bl := a.ldl[..lmax + 1], a.ddl[..dmax + 1], a.bdl[..BL_CODES];
       && GoodHeader(lit, dist, bl, n) && a.ldl[lmax + 1] == GUARD && a.ddl[dmax + 1] == GUARD
       && CodesReady(a.bfc[..], a.bdl[..], bl) && BlCode(bl)
       && TreeReady(a.lfc[..], a.ldl[..], lit) && TreeReady(a.dfc[..], a.ddl[..], dist)
       && AllCodes(t, Codes(lit, dist), syms)
       && ValidLens(lit) && ValidLens(dist) && Kraft(lit) == Pow2(MAXBITS) && Kraft(dist) == Pow2(MAXBITS)
  }

  /** A built tree is ready to send with. */
  lemma BuiltReady(fc: seq<nat>, dl: seq<nat>, d: StaticDesc, maxCode: nat, f: seq<nat>)
    requires ValidDesc(d) && Built(fc, dl, d, maxCode, f)
    ensures var lens := dl[..maxCode + 1];
      && TreeReady(fc, dl, lens) && ValidLens(lens) && Kraft(lens) == Pow2(MAXBITS) && lens[maxCode] != 0
      && forall i :: 0 <= i < |lens| ==> lens[i] <= 15
  {
    hide Kraft, RevCode, Pow2;
  }

  lemma HaveParts(bl: seq<nat>, a: seq<Token>, b: seq<Token>)
    requires HaveCodes(bl, a + b)
    ensures HaveCodes(bl, a) && HaveCodes(bl, b)
  {
    hide HasCode;
    forall t | t in a ensures HasCode(bl, t) { assert t in a + b; }
    forall t | t in b ensures HasCode(bl, t) { assert t in a + b; }
  }

  lemma BlPlanned(f: seq<nat>, ts: seq<Token>, bdl: seq<nat>, d: StaticDesc)
    requires BlDesc(d) && TokensCounted(f, ts) && |bdl| >= BL_CODES
    ensures BuildTree.SymbolBits(f, bdl, d) == TotalOf(CodeBits(TokenFreqs(ts), bdl[..BL_CODES], d), BL_CODES)
  {
    hide Spent, BuildTree.SymbolBits, CountOf;
    OccurringCost(f, bdl, d);
    TotalSame(CodeBits(f, bdl, d), CodeBits(TokenFreqs(ts), bdl[..BL_CODES], d), BL_CODES);
  }

  ghost predicate UsedLengths(lens: seq<nat>, least: nat, most: nat) {
    && 1 <= least <= |lens| <= most && lens[|lens| - 1] != 0
    && forall i :: 0 <= i < |lens| ==> lens[i] <= 15
  }

  lemma HeaderIsGood(lit: seq<nat>, dist: seq<nat>, bl: seq<nat>, n: nat)
    requires UsedLengths(lit, 257, 286) && UsedLengths(dist, 1, 30) && BlCode(bl) && ZeroFrom(bl, n)
      && 4 <= n <= BL_CODES
    requires HaveCodes(bl, TreeTokens(lit)) && HaveCodes(bl, TreeTokens(dist))
    ensures GoodHeader(lit, dist, bl, n)
  {
    hide TreeTokens, HaveCodes, Kraft;
  }

  /** The last length sent is not zero. */
  ghost predicate SentLast(bl: seq<nat>, k: nat) {
    |bl| == BL_CODES && k < BL_CODES && BL_ORDER[k] < BL_CODES && bl[BL_ORDER[k]] != 0
  }

  /** build_bl_tree (zlib/trees.c:799-827). */
  method ShortTree(st: TreeState, a: TreeArrays, lmax: nat, dmax: nat, bd: StaticDesc,
                   ghost lit: seq<nat>, ghost dist: seq<nat>)
    returns (maxBlindex: nat)
    requires Separate(st, a) && BlDesc(bd) && lmax + 1 < a.ldl.Length && dmax + 1 < a.ddl.Length
    requires lit == a.ldl[..lmax + 1] && UsedLengths(lit, 257, 286)
    requires dist == a.ddl[..dmax + 1] && UsedLengths(dist, 1, 30)
    requires forall k :: 0 <= k < BL_CODES ==> a.bfc[k] == 0
    modifies st, st.heap, st.depth, st.blCount, a.ldl, a.ddl, a.bfc, a.bdl
    ensures a.ldl[..lmax + 1] == lit && a.ldl[lmax + 1] == GUARD
    ensures a.ddl[..dmax + 1] == dist && a.ddl[dmax + 1] == GUARD
    ensures GoodHeader(lit, dist, a.bdl[..BL_CODES], maxBlindex + 1)
    ensures CodesReady(a.bfc[..], a.bdl[..], a.bdl[..BL_CODES]) && BlCode(a.bdl[..BL_CODES])
    ensures SentLast(a.bdl[..BL_CODES], maxBlindex)
    ensures st.optLen == old(st.optLen) + HeaderBits(lit, dist, a.bdl[..BL_CODES], maxBlindex + 1).n
    ensures st.staticLen == old(st.staticLen)
  {
    hide Built, TreeTokens, TokensBits, BuildTree.SymbolBits, HeaderBits, Kraft, RevCode, Pow2, TotalOf, ZeroFrom;
    hide CodesReady, HaveCodes, CountOf, BlCode, Spent, NoneBeyond, GoodHeader, Bounded, TokensCounted;
    ScanBoth(a.ldl, lmax, a.ddl, dmax, a.bfc);
    ghost var f, ts := a.bfc[..], TreeTokens(lit) + TreeTokens(dist);
    TokensBounded(f, lit, dist);
    BlDescSizes(bd);
    var bmax := BuildOne(st, a.bfc, a.bdl, bd);
    ghost var bl := a.bdl[..BL_CODES];
    TreeTokensExpand(lit);
    TreeTokensExpand(dist);
    ShortCode(a.bfc[..], a.bdl[..], bd, bmax, f, ts);
    HaveParts(bl, TreeTokens(lit), TreeTokens(dist));
    SomeLength(bl, lit, lmax);
    maxBlindex := LastBlCode(a.bdl);
    OrderRanks(maxBlindex);
    HeaderIsGood(lit, dist, bl, maxBlindex + 1);
    HeaderExact(lit, dist, bl, maxBlindex + 1, bd);
    BlPlanned(f, ts, a.bdl[..], bd);
    st.optLen := st.optLen + 3 * (maxBlindex + 1) + 5 + 5 + 4;
  }

  lemma BlDescSizes(bd: StaticDesc)
    requires BlDesc(bd)
    ensures bd.elems == BL_CODES && !bd.hasTree && ValidDesc(bd)
    ensures forall k :: 0 <= k < 3 ==> ExtraBits(bd, k) == 0
  {
    hide Pow2;
  }

  /** zlib/trees.c:928-943 and 799-827: the three trees, and opt_len and static_len complete. */
  method DynamicTrees(st: TreeState, a: TreeArrays, ld: StaticDesc, dd: StaticDesc, bd: StaticDesc,
                      ghost t: Tables, ghost syms: seq<Symbol>)
    returns (lmax: nat, dmax: nat, maxBlindex: nat, ghost ll: seq<nat>, ghost dl: seq<nat>)
    requires Separate(st, a) && LitDesc(ld) && DistDesc(dd) && BlDesc(bd)
    requires GoodTables(t) && (forall s :: s in syms ==> Codable(s)) && |syms| + 3 < HeapMerge.FREQ_RANGE
    requires Tallies(t, syms, a.lfc[..], a.dfc[..]) && forall k :: 0 <= k < BL_CODES ==> a.bfc[k] == 0
    requires st.optLen == 0 && st.staticLen == 0
    modifies st, st.heap, st.depth, st.blCount, a.lfc, a.ldl, a.dfc, a.ddl, a.bfc, a.bdl
    ensures DynReady(a, t, syms, lmax, dmax, maxBlindex + 1)
    ensures |ll| >= 286 && |dl| >= 30
    ensures LengthsOf(Codes(a.ldl[..lmax + 1], a.ddl[..dmax + 1]), ll, dl)
    ensures st.optLen == Planned(t, ll, dl, syms, ld, dd)
              + HeaderBits(a.ldl[..lmax + 1], a.ddl[..dmax + 1], a.bdl[..BL_CODES], maxBlindex + 1).n
    ensures st.staticLen == (if ld.hasTree then BuildTree.SymbolBits(old(a.lfc[..]), ld.tree, ld) else 0)
                          + (if dd.hasTree then BuildTree.SymbolBits(old(a.dfc[..]), dd.tree, dd) else 0)
  {
    hide Built, TreeTokens, TokensBits, BuildTree.SymbolBits, Planned, HeaderBits, Kraft, RevCode, Pow2, TotalOf,
      GoodTables;
    hide CodesReady, TreeReady, AllCodes, HaveCodes, Tallies, CountOf, BlCode, GoodHeader, Bounded, NoneBeyond;
    ghost var fl: seq<nat>, fd: seq<nat> := a.lfc[..], a.dfc[..];
    TalliesBounded(t, syms, fl, fd);
    Descs(ld, dd, bd);
    lmax := BuildOne(st, a.lfc, a.ldl, ld);
    dmax := BuildOne(st, a.dfc, a.ddl, dd);
    ll, dl := a.ldl[..], a.ddl[..];
    PlannedFrom(t, syms, fl, fd, ll, dl, ld, dd);
    TreesHaveCodes(t, syms, fl, fd, a.lfc[..], ll, ld, lmax, a.dfc[..], dl, dd, dmax);
    BuiltReady(a.lfc[..], ll, ld, lmax, fl);
    BuiltReady(a.dfc[..], dl, dd, dmax, fd);
    BuiltSize(a.lfc[..], ll, ld, lmax, fl);
    BuiltSize(a.dfc[..], dl, dd, dmax, fd);
    maxBlindex := ShortTree(st, a, lmax, dmax, bd, ll[..lmax + 1], dl[..dmax + 1]);
    SameReady(a.lfc[..], ll, a.ldl[..], lmax);
    SameReady(a.dfc[..], dl, a.ddl[..], dmax);
  }

  lemma BuiltSize(fc: seq<nat>, dl: seq<nat>, d: StaticDesc, maxCode: nat, f: seq<nat>)
    requires Built(fc, dl, d, maxCode, f)
    ensures maxCode < d.elems <= |dl|
  {
  }

  lemma SameReady(fc: seq<nat>, dl: seq<nat>, dl': seq<nat>, maxCode: nat)
    requires maxCode < |dl| == |dl'| && dl'[..maxCode + 1] == dl[..maxCode + 1] && TreeReady(fc, dl, dl[..maxCode + 1])
    ensures TreeReady(fc, dl', dl[..maxCode + 1])
  {
    hide RevCode;
    forall i | 0 <= i <= maxCode ensures dl'[i] == dl[..maxCode + 1][i] { assert dl'[..maxCode + 1][i] == dl'[i]; }
  }

  lemma Descs(ld: StaticDesc, dd: StaticDesc, bd: StaticDesc)
    requires LitDesc(ld) && DistDesc(dd) && BlDesc(bd)
    ensures forall k :: 0 <= k < 3 ==> ExtraBits(ld, k) == 0 && ExtraBits(dd, k) == 0 && ExtraBits(bd, k) == 0
  {
    hide Pow2;
  }
}
