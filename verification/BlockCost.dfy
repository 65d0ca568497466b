/**
 opt_len and static_len are exactly the bits that the block will take: what
 `build_tree` sums over frequencies is what `compress_block` sums over symbols.
 */
module BlockCost {
  import opened BitOps
  import opened Canonical
  import opened Huffman
  import opened GenBitlen
  import opened BuildTree
  import opened LengthCodes
  import opened Lz77
  import opened BlockCodes

  /** static_l_desc and static_d_desc, with the lengths of the static trees. */
  ghost predicate LitDesc(d: StaticDesc) {
    ValidDesc(d) && d.extra == EXTRA_LBITS && d.base == 257 && d.elems == 286
  }

  ghost predicate DistDesc(d: StaticDesc) {
    ValidDesc(d) && d.extra == EXTRA_DBITS && d.base == 0 && d.elems == 30
  }

  // -------------------------------------------------------------- frequencies

  /** The literal/length symbol, or the distance symbol, that s is tallied under. */
  ghost function LitSymbol(t: Tables, s: Symbol): nat
    requires GoodTables(t) && Codable(s)
  {
    match s
    case Literal(c) => c
    case Match(_, len) => 257 + t.lengthCode[len - 3]
  }

  ghost function DistSymbol(t: Tables, dist: nat): nat
    requires GoodTables(t) && 1 <= dist <= 0x8000
  {
    DCode(t.distCode, dist - 1)
  }

  ghost function LitCount(t: Tables, syms: seq<Symbol>, k: nat): nat
    requires GoodTables(t) && forall s :: s in syms ==> Codable(s)
    decreases |syms|
  {
    if syms == [] then (if k == 256 then 1 else 0)
    else (if LitSymbol(t, syms[0]) == k then 1 else 0) + LitCount(t, syms[1..], k)
  }

  ghost function DistCount(t: Tables, syms: seq<Symbol>, k: nat): nat
    requires GoodTables(t) && forall s :: s in syms ==> Codable(s)
    decreases |syms|
  {
    if syms == [] then 0
    else
      assert Codable(syms[0]);
      (if syms[0].Match? && DistSymbol(t, syms[0].dist) == k then 1 else 0) + DistCount(t, syms[1..], k)
  }

  /** The frequencies that tallying these symbols leaves in dyn_ltree and dyn_dtree. */
  ghost predicate Tallies(t: Tables, syms: seq<Symbol>, fl: seq<nat>, fd: seq<nat>)
    requires GoodTables(t) && forall s :: s in syms ==> Codable(s)
  {
    && |fl| >= 286 && |fd| >= 30
    && (forall k: nat :: k < 286 ==> fl[k] == LitCount(t, syms, k))
    && (forall k: nat :: k < 30 ==> fd[k] == DistCount(t, syms, k))
  }

  // --------------------------------------------------------- sums over symbols

  ghost function TotalOf(g: seq<nat>, n: nat): nat
    requires n <= |g|
  {
    if n == 0 then 0 else TotalOf(g, n - 1) + g[n - 1]
  }

  lemma {:induction false} TotalSame(g: seq<nat>, g': seq<nat>, n: nat)
    requires n <= |g| && n <= |g'| && forall k :: 0 <= k < n ==> g[k] == g'[k]
    ensures TotalOf(g, n) == TotalOf(g', n)
  {
    if n != 0 { TotalSame(g, g', n - 1); }
  }

  lemma {:induction false} TotalBump(g: seq<nat>, g': seq<nat>, n: nat, k: nat, delta: nat)
    requires k < n <= |g| && n <= |g'| && g'[k] == g[k] + delta
    requires forall i :: 0 <= i < n && i != k ==> g'[i] == g[i]
    ensures TotalOf(g', n) == TotalOf(g, n) + delta
  {
    if k == n - 1 { TotalSame(g, g', n - 1); } else { TotalBump(g, g', n - 1, k, delta); }
  }

  lemma {:induction false} SumIsTotal(A: set<nat>, n: nat, g: seq<nat>)
    requires n <= |g| && forall k: nat :: k < n && k !in A ==> g[k] == 0
    ensures Sum(A, n, g) == TotalOf(g, n)
  {
    if n != 0 { SumIsTotal(A, n - 1, g); }
  }

  lemma SpentNothing(l: nat, x: nat)
    ensures Spent(0, l, x) == 0
  {
  }

  lemma SpentMore(f: nat, l: nat, x: nat)
    ensures Spent(f + 1, l, x) == Spent(f, l, x) + l + x
  {
  }

  /** Symbols that do not occur cost nothing. */
  lemma OccurringCost(f: seq<nat>, len: seq<nat>, d: StaticDesc)
    requires ValidDesc(d) && d.elems <= |f| && d.elems <= |len|
    ensures BuildTree.SymbolBits(f, len, d) == TotalOf(CodeBits(f, len, d), d.elems)
  {
    hide Spent;
    forall k: nat | k < d.elems && f[k] == 0 ensures CodeBits(f, len, d)[k] == 0 {
      SpentNothing(len[k], ExtraBits(d, k));
    }
    SumIsTotal(BuildTree.Occurring(f, d.elems), d.elems, CodeBits(f, len, d));
  }

  /** One more occurrence of k costs its code and its extra bits once more. */
  lemma OneMore(f: seq<nat>, f': seq<nat>, len: seq<nat>, d: StaticDesc, k: nat)
    requires ValidDesc(d) && d.elems <= |f| && d.elems <= |f'| && d.elems <= |len| && k < d.elems
    requires f'[k] == f[k] + 1 && forall i :: 0 <= i < d.elems && i != k ==> f'[i] == f[i]
    ensures TotalOf(CodeBits(f', len, d), d.elems) == TotalOf(CodeBits(f, len, d), d.elems) + len[k] + ExtraBits(d, k)
  {
    hide Spent;
    SpentMore(f[k], len[k], ExtraBits(d, k));
    TotalBump(CodeBits(f, len, d), CodeBits(f', len, d), d.elems, k, len[k] + ExtraBits(d, k));
  }

  ghost function LitFreqs(t: Tables, syms: seq<Symbol>): (f: seq<nat>)
    requires GoodTables(t) && forall s :: s in syms ==> Codable(s)
    ensures |f| == 286 && forall k :: 0 <= k < 286 ==> f[k] == LitCount(t, syms, k)
  {
    seq(286, k requires 0 <= k < 286 => LitCount(t, syms, k))
  }

  ghost function DistFreqs(t: Tables, syms: seq<Symbol>): (f: seq<nat>)
    requires GoodTables(t) && forall s :: s in syms ==> Codable(s)
    ensures |f| == 30 && forall k :: 0 <= k < 30 ==> f[k] == DistCount(t, syms, k)
  {
    seq(30, k requires 0 <= k < 30 => DistCount(t, syms, k))
  }

  // ------------------------------------------------------------ bits of a block

  /** What the tree sums say the symbols take. */
  ghost function Planned(t: Tables, ll: seq<nat>, dl: seq<nat>, syms: seq<Symbol>, ld: StaticDesc, dd: StaticDesc): nat
    requires GoodTables(t) && (forall s :: s in syms ==> Codable(s))
    requires LitDesc(ld) && DistDesc(dd) && 286 <= |ll| && 30 <= |dl|
  {
    TotalOf(CodeBits(LitFreqs(t, syms), ll, ld), 286) + TotalOf(CodeBits(DistFreqs(t, syms), dl, dd), 30)
  }

  lemma LitExtra(ld: StaticDesc, k: nat)
    requires LitDesc(ld) && k < 286
    ensures ExtraBits(ld, k) == if k < 257 then 0 else EXTRA_LBITS[k - 257]
  {
  }

  lemma DistExtra(dd: StaticDesc, k: nat)
    requires DistDesc(dd) && k < 30
    ensures ExtraBits(dd, k) == EXTRA_DBITS[k]
  {
  }

  /** With the symbols of a block only END_BLOCK counts. */
  lemma {:induction false} OnlyEnd(f: seq<nat>, len: seq<nat>, d: StaticDesc, n: nat)
    requires ValidDesc(d) && n <= d.elems <= |f| && d.elems <= |len|
    requires forall i :: 0 <= i < d.elems ==> f[i] == 0
    ensures TotalOf(CodeBits(f, len, d), n) == 0
  {
    hide Spent;
    if n != 0 {
      SpentNothing(len[n - 1], ExtraBits(d, n - 1));
      OnlyEnd(f, len, d, n - 1);
    }
  }

  lemma EmptyBlock(t: Tables, ll: seq<nat>, dl: seq<nat>, ld: StaticDesc, dd: StaticDesc)
    requires GoodTables(t) && LitDesc(ld) && DistDesc(dd) && 286 <= |ll| && 30 <= |dl|
    ensures Planned(t, ll, dl, [], ld, dd) == ll[256]
  {
    hide Spent;
    var f, none := LitFreqs(t, []), seq(286, _ => 0);
    OnlyEnd(none, ll, ld, 286);
    OneMore(none, f, ll, ld, 256);
    OnlyEnd(DistFreqs(t, []), dl, dd, 30);
    LitExtra(ld, 256);
  }

  ghost function SymbolCost(t: Tables, ll: seq<nat>, dl: seq<nat>, s: Symbol): nat
    requires GoodTables(t) && Codable(s) && 286 <= |ll| && 30 <= |dl|
  {
    match s
    case Literal(c) => ll[c]
    case Match(dist, len) =>
      var c, d := t.lengthCode[len - 3], DistSymbol(t, dist);
      assert LengthCodeFor(c, t.baseLength[c], len - 3);
      assert DistCoded(d, t.baseDist[d], dist - 1);
      ll[257 + c] + EXTRA_LBITS[c] + dl[d] + EXTRA_DBITS[d]
  }

  /** The trees that a block is sent with may leave off lengths that are zero. */
  ghost predicate LengthsOf(cs: Codes, ll: seq<nat>, dl: seq<nat>) {
    && |cs.ll| <= |ll| && (forall k :: 0 <= k < |cs.ll| ==> cs.ll[k] == ll[k])
    && |cs.dl| <= |dl| && (forall k :: 0 <= k < |cs.dl| ==> cs.dl[k] == dl[k])
  }

  lemma SymbolLength(t: Tables, cs: Codes, ll: seq<nat>, dl: seq<nat>, s: Symbol)
    requires GoodTables(t) && HasCodes(t, cs, s) && LengthsOf(cs, ll, dl) && 286 <= |ll| && 30 <= |dl|
    ensures BlockCodes.SymbolBits(t, cs, s).n == SymbolCost(t, ll, dl, s)
  {
    hide RevCode, Shl, Span, Pow2, Coded, LengthCodeFor, DCode, DistCoded;
    if s.Match? {
      var c, d := t.lengthCode[s.len - 3], DistSymbol(t, s.dist);
      assert LengthCodeFor(c, t.baseLength[c], s.len - 3);
      assert DistCoded(d, t.baseDist[d], s.dist - 1);
    }
  }

  /** Tallying one more symbol raises the plan by just that symbol. */
  lemma PlanOne(t: Tables, ll: seq<nat>, dl: seq<nat>, syms: seq<Symbol>, ld: StaticDesc, dd: StaticDesc)
    requires GoodTables(t) && LitDesc(ld) && DistDesc(dd) && 286 <= |ll| && 30 <= |dl| && syms != []
    requires forall s :: s in syms ==> Codable(s)
    ensures Planned(t, ll, dl, syms, ld, dd) == Planned(t, ll, dl, syms[1..], ld, dd) + SymbolCost(t, ll, dl, syms[0])
  {
    hide Spent, Span;
    var s, rest := syms[0], syms[1..];
    assert Codable(s);
    match s {
      case Literal(c) =>
        OneMore(LitFreqs(t, rest), LitFreqs(t, syms), ll, ld, c);
        LitExtra(ld, c);
        SameFreqs(DistFreqs(t, rest), DistFreqs(t, syms), dl, dd);
      case Match(dist, len) =>
        var c, d := t.lengthCode[len - 3], DistSymbol(t, dist);
        assert LengthCodeFor(c, t.baseLength[c], len - 3);
        assert DistCoded(d, t.baseDist[d], dist - 1);
        OneMore(LitFreqs(t, rest), LitFreqs(t, syms), ll, ld, 257 + c);
        LitExtra(ld, 257 + c);
        OneMore(DistFreqs(t, rest), DistFreqs(t, syms), dl, dd, d);
        DistExtra(dd, d);
    }
  }

  lemma SameFreqs(f: seq<nat>, f': seq<nat>, len: seq<nat>, d: StaticDesc)
    requires ValidDesc(d) && d.elems <= |f| && d.elems <= |f'| && d.elems <= |len|
    requires forall i :: 0 <= i < d.elems ==> f'[i] == f[i]
    ensures TotalOf(CodeBits(f', len, d), d.elems) == TotalOf(CodeBits(f, len, d), d.elems)
  {
    TotalSame(CodeBits(f, len, d), CodeBits(f', len, d), d.elems);
  }

  /** The bits that compress_block writes are the planned ones. */
  lemma {:induction false} PlanIsExact(t: Tables, cs: Codes, ll: seq<nat>, dl: seq<nat>, syms: seq<Symbol>,
                                       ld: StaticDesc, dd: StaticDesc)
    requires GoodTables(t) && LitDesc(ld) && DistDesc(dd) && 286 <= |ll| && 30 <= |dl| && LengthsOf(cs, ll, dl)
    requires AllCodes(t, cs, syms) && forall s :: s in syms ==> Codable(s)
    ensures BlockBits(t, cs, syms).n == Planned(t, ll, dl, syms, ld, dd)
    decreases |syms|
  {
    hide Planned, SymbolCost, BlockCodes.SymbolBits, RevCode, Shl, GoodTables;
    if syms == [] {
      EmptyBlock(t, ll, dl, ld, dd);
    } else {
      SymbolLength(t, cs, ll, dl, syms[0]);
      PlanOne(t, ll, dl, syms, ld, dd);
      PlanIsExact(t, cs, ll, dl, syms[1..], ld, dd);
    }
  }
}
