/**
 What the header of a dynamic block takes is what `build_bl_tree` adds to opt_len
 (zlib/trees.c:799-827), and how large the frequencies can get.
 */
module HeaderCost {
  import opened BitOps
  import opened Canonical
  import opened GenBitlen
  import opened RunLengths
  import opened CodeLengths
  import opened BlockHeader
  import opened LengthCodes
  import opened Lz77
  import opened BlockCodes
  import opened BlockCost

  const EXTRA_BLBITS: seq<nat> := [0, 0, 0, 0, 0, 0, 0, 0, 0, 0, 0, 0, 0, 0, 0, 0, 2, 3, 7]

  /** static_bl_desc. */
  ghost predicate BlDesc(d: StaticDesc) {
    ValidDesc(d) && !d.hasTree && d.extra == EXTRA_BLBITS && d.base == 0 && d.elems == BL_CODES && d.maxLength == 7
  }

  ghost function TokenFreqs(ts: seq<Token>): (f: seq<nat>)
    ensures |f| == BL_CODES && forall k :: 0 <= k < BL_CODES ==> f[k] == CountOf(ts, k)
  {
    seq(BL_CODES, k requires 0 <= k < BL_CODES => CountOf(ts, k))
  }

  lemma TokenCost(bl: seq<nat>, t: Token, d: StaticDesc)
    requires HasCode(bl, t) && BlDesc(d)
    ensures TokenBits(bl, t).n == bl[SymbolOf(t)] + ExtraBits(d, SymbolOf(t))
  {
    hide RevCode, Shl, Pow2;
  }

  lemma FreqsOne(ts: seq<Token>, bl: seq<nat>, d: StaticDesc)
    requires ts != [] && HasCode(bl, ts[0]) && BlDesc(d)
    ensures TotalOf(CodeBits(TokenFreqs(ts), bl, d), BL_CODES)
         == TotalOf(CodeBits(TokenFreqs(ts[1..]), bl, d), BL_CODES) + bl[SymbolOf(ts[0])] + ExtraBits(d,
             SymbolOf(ts[0]))
  {
    hide Spent, Pow2;
    assert HasCode(bl, ts[0]);
    OneMore(TokenFreqs(ts[1..]), TokenFreqs(ts), bl, d, SymbolOf(ts[0]));
  }

  /** The bits of tokens are what their frequencies say. */
  lemma {:induction false} TokensExact(bl: seq<nat>, ts: seq<Token>, d: StaticDesc)
    requires HaveCodes(bl, ts) && BlDesc(d) && |bl| == BL_CODES
    ensures TokensBits(bl, ts).n == TotalOf(CodeBits(TokenFreqs(ts), bl, d), BL_CODES)
    decreases |ts|
  {
    hide Spent, TokenBits, Pow2, Shl;
    if ts == [] {
      OnlyEnd(TokenFreqs([]), bl, d, BL_CODES);
    } else {
      assert HasCode(bl, ts[0]);
      TokenCost(bl, ts[0], d);
      FreqsOne(ts, bl, d);
      TokensExact(bl, ts[1..], d);
    }
  }

  lemma {:induction false} OrderCost(bl: seq<nat>, rank: nat, n: nat)
    requires |bl| == BL_CODES && rank <= n <= BL_CODES
    ensures OrderBits(bl, rank, n).n == 3 * (n - rank)
    decreases n - rank
  {
    hide Shl;
    if rank < n { OrderCost(bl, rank + 1, n); }
  }

  /** The bits of the header: what build_bl_tree adds to opt_len. */
  lemma HeaderExact(lit: seq<nat>, dist: seq<nat>, bl: seq<nat>, n: nat, d: StaticDesc)
    requires GoodHeader(lit, dist, bl, n) && BlDesc(d)
    ensures HeaderBits(lit, dist, bl, n).n
         == TotalOf(CodeBits(TokenFreqs(TreeTokens(lit) + TreeTokens(dist)), bl, d), BL_CODES) + 3 * n + 5 + 5 + 4
  {
    hide TokensBits, TreeTokens, OrderBits, Spent, Shl, HaveCodes, Pow2;
    TokensJoin(bl, TreeTokens(lit), TreeTokens(dist));
    TokensExact(bl, TreeTokens(lit) + TreeTokens(dist), d);
    OrderCost(bl, 0, n);
  }

  // ------------------------------------------------------- how many in all

  lemma {:induction false} TotalZero(g: seq<nat>, n: nat)
    requires n <= |g| && forall k :: 0 <= k < n ==> g[k] == 0
    ensures TotalOf(g, n) == 0
  {
    if n != 0 { TotalZero(g, n - 1); }
  }

  lemma {:induction false} TokenTotal(ts: seq<Token>)
    requires forall t :: t in ts ==> SymbolOf(t) < BL_CODES
    ensures TotalOf(TokenFreqs(ts), BL_CODES) == |ts|
    decreases |ts|
  {
    if ts == [] {
      TotalZero(TokenFreqs([]), BL_CODES);
    } else {
      assert SymbolOf(ts[0]) < BL_CODES;
      TokenTotal(ts[1..]);
      TotalBump(TokenFreqs(ts[1..]), TokenFreqs(ts), BL_CODES, SymbolOf(ts[0]), 1);
    }
  }

  lemma LitSymbolBound(t: Tables, s: Symbol)
    requires GoodTables(t) && Codable(s)
    ensures LitSymbol(t, s) < 286 && (s.Match? ==> DistSymbol(t, s.dist) < 30)
  {
    hide Span;
    if s.Match? {
      var c := t.lengthCode[s.len - 3];
      assert LengthCodeFor(c, t.baseLength[c], s.len - 3);
      assert DistCoded(DistSymbol(t, s.dist), t.baseDist[DistSymbol(t, s.dist)], s.dist - 1);
    }
  }

  lemma {:induction false} LitTotal(t: Tables, syms: seq<Symbol>)
    requires GoodTables(t) && forall s :: s in syms ==> Codable(s)
    ensures TotalOf(LitFreqs(t, syms), 286) == |syms| + 1
    decreases |syms|
  {
    hide GoodTables;
    if syms == [] {
      var none := seq(286, _ => 0);
      TotalZero(none, 286);
      TotalBump(none, LitFreqs(t, syms), 286, 256, 1);
    } else {
      assert Codable(syms[0]);
      LitSymbolBound(t, syms[0]);
      LitTotal(t, syms[1..]);
      TotalBump(LitFreqs(t, syms[1..]), LitFreqs(t, syms), 286, LitSymbol(t, syms[0]), 1);
    }
  }

  lemma {:induction false} DistTotal(t: Tables, syms: seq<Symbol>)
    requires GoodTables(t) && forall s :: s in syms ==> Codable(s)
    ensures TotalOf(DistFreqs(t, syms), 30) <= |syms|
    decreases |syms|
  {
    hide GoodTables;
    if syms == [] {
      TotalZero(DistFreqs(t, syms), 30);
    } else {
      assert Codable(syms[0]);
      LitSymbolBound(t, syms[0]);
      DistTotal(t, syms[1..]);
      if syms[0].Match? {
        TotalBump(DistFreqs(t, syms[1..]), DistFreqs(t, syms), 30, DistSymbol(t, syms[0].dist), 1);
      } else {
        TotalSame(DistFreqs(t, syms[1..]), DistFreqs(t, syms), 30);
      }
    }
  }

  /** A tree has no more tokens than lengths. */
  lemma {:induction false} FewTokens(lens: seq<nat>, n: nat, run: Run)
    requires n <= |lens| && run.count <= n && run.minCount >= 3
    ensures |Tokens(lens, n, run)| <= |lens| - n + run.count
    decreases |lens| - n
  {
    if n < |lens| {
      if Goes(run, lens[n], LengthAt(lens, n + 1)) {
        FewTokens(lens, n + 1, run.(count := run.count + 1));
      } else {
        FewTokens(lens, n + 1, Fresh(lens[n], LengthAt(lens, n + 1)));
      }
    }
  }
}
