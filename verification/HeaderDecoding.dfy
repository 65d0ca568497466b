/**
 What `send_all_trees` writes, inflate's steps TABLE, LENLENS and CODELENS decode: they
 arrive at the block with the very code lengths that were sent.
 */
module HeaderDecoding {
  import opened BitOps
  import opened Canonical
  import opened DecodeTable
  import opened RunLengths
  import opened BitStream
  import opened CodeReading
  import opened CodeLengths
  import opened CodeLookup
  import opened BlockHeader
  import opened InflateSpec
  import opened InflateRuns
  import opened InflateTable
  import opened TrFlush
  import InflateTrees
  import BlockDecoding

  // ------------------------------------------------------------------ code lengths

  /** The bits of a token. */
  lemma TokenItem(bl: seq<nat>, t: Token, more: Bits)
    requires GoodCode(CODES, bl) && HasCode(bl, t)
    ensures var v, f := Join(TokenBits(bl, t), more).v, SymbolFound(CODES, bl, SymbolOf(t));
      && CodeFound(CODES, bl, v) == f && f.val == SymbolOf(t) && TokenBits(bl, t).n == f.bits + ExtraOf(t).n
      && Low(Shr(v, f.bits), ExtraOf(t).n) == ExtraOf(t).v
      && Shr(v, TokenBits(bl, t).n) == more.v
  {
    hide Low, Shr, CodeOf, CodeFound, Acceptable, Join, ExtraOf;
    var x := ExtraOf(t);
    JoinAssoc(CodeOf(bl, SymbolOf(t)), x, more);
    BlockDecoding.CodeReads(CODES, bl, SymbolOf(t), Join(x, more));
    BlockDecoding.CodeLength(bl, SymbolOf(t));
    JoinLength(CodeOf(bl, SymbolOf(t)), x);
    BlockDecoding.JoinIsFollowed(x, more);
    ExtraBack(t, more.v);
    ShrShr(Join(TokenBits(bl, t), more).v, bl[SymbolOf(t)], x.n);
  }

  /** What a state's lengths become when more are read. */
  function WithLengths(s: State, final: seq<nat>, rest: Bits): State
    requires |final| <= |s.lens|
  {
    s.(lens := final + s.lens[|final|..], have := |final|, rest := rest)
  }

  lemma TokenExtra(t: Token)
    requires Sendable(t)
    ensures t.Length? ==> ExtraOf(t).n == 0 && SymbolOf(t) == t.l < 16
    ensures t.Rep? ==> SymbolOf(t) == 16 && ExtraOf(t).n == 2 && 3 + ExtraOf(t).v == t.times
    ensures t.Zeros? ==> SymbolOf(t) == 17 && ExtraOf(t).n == 3 && 3 + ExtraOf(t).v == t.times
    ensures t.ManyZeros? ==> SymbolOf(t) == 18 && ExtraOf(t).n == 7 && 11 + ExtraOf(t).v == t.times
  {
  }

  lemma SpreadIs(lens: seq<nat>, have: nat, l: nat, copy: nat)
    requires have + copy <= |lens|
    ensures Spread(lens, have, l, copy) == (lens[..have] + Copies(l, copy)) + lens[have + copy..]
  {
  }

  /** One token decoded. */
  lemma TokenRun(c: Setup, s: State, t: Token, more: Bits)
    requires |s.lens| == LENS_SIZE && s.have < s.nlen + s.ndist <= LENS_SIZE
    requires (t.Rep? ==> s.have > 0) && s.have + |Added(s.lens[..s.have], t)| <= s.nlen + s.ndist
    requires GoodCode(CODES, s.lcode) && HasCode(s.lcode, t) && s.rest == Join(TokenBits(s.lcode, t), more)
    requires s.mode == CODELENS && Ok(s)
    ensures Leads(c, s, WithLengths(s, s.lens[..s.have] + Added(s.lens[..s.have], t), more))
  {
    hide Ok, Step, Leads, Below, CodeFound, Acceptable, Low, Shr, Join, TokenBits, ExtraOf, Spread;
    var out := s.lens[..s.have];
    var f := CodeFound(CODES, s.lcode, s.rest.v);
    TokenItem(s.lcode, t, more);
    TokenExtra(t);
    JoinLength(TokenBits(s.lcode, t), more);
    InflateTrees.LengthStep(c, s, f);
    var s1 := WithLengths(s, out + Added(out, t), more);
    if t.Length? {
      assert s.lens[s.have := t.l] == s1.lens;
    } else {
      SpreadIs(s.lens, s.have, if t.Rep? then s.lens[s.have - 1] else 0, t.times);
    }
    LeadsStep(c, s, s1);
  }

  lemma {:induction false} TokensRun(c: Setup, s: State, ts: seq<Token>, final: seq<nat>, more: Bits)
    requires Ok(s) && s.mode == CODELENS && |s.lens| == LENS_SIZE && s.have <= s.nlen + s.ndist <= LENS_SIZE
    requires GoodCode(CODES, s.lcode) && HaveCodes(s.lcode, ts) && s.rest == Join(TokensBits(s.lcode, ts), more)
    requires Expand(s.lens[..s.have], ts) == Lengths(final) && |final| <= s.nlen + s.ndist
      && (forall t :: t in ts ==> Adds(t))
    ensures Leads(c, s, WithLengths(s, final, more))
    decreases |ts|
  {
    hide Ok, Step, Leads, Below, Acceptable, Join, TokenBits, HasCode, Added;
    var out := s.lens[..s.have];
    if ts == [] {
      JoinNone(more);
      assert final + s.lens[|final|..] == s.lens;
      Stays(c, s);
    } else {
      var t, rest := ts[0], Join(TokensBits(s.lcode, ts[1..]), more);
      JoinAssoc(TokenBits(s.lcode, t), TokensBits(s.lcode, ts[1..]), more);
      ExpandGrows(out + Added(out, t), ts[1..], final);
      AddsSome(out, t);
      TokenRun(c, s, t, rest);
      var s1 := WithLengths(s, out + Added(out, t), rest);
      assert s1.lens[..s1.have] == out + Added(out, t);
      LeadsOk(c, s, s1);
      TokensRun(c, s1, ts[1..], final, more);
      assert WithLengths(s1, final, more) == WithLengths(s, final, more) by {
        Rewritten(s, out + Added(out, t), rest, final, more);
      }
      LeadsOn(c, s, s1, WithLengths(s, final, more));
    }
  }

  ghost predicate Adds(t: Token) {
    t.Length? || t.times > 0
  }

  lemma AddsSome(out: seq<nat>, t: Token)
    requires Adds(t) && (t.Rep? ==> out != [])
    ensures |Added(out, t)| > 0
  {
  }

  lemma Stays(c: Setup, s: State)
    requires Ok(s)
    ensures Leads(c, s, s)
  {
  }

  lemma Rewritten(s: State, mid: seq<nat>, rest: Bits, final: seq<nat>, more: Bits)
    requires |mid| <= |final| <= |s.lens|
    ensures WithLengths(WithLengths(s, mid, rest), final, more) == WithLengths(s, final, more)
  {
    assert (mid + s.lens[|mid|..])[|final|..] == s.lens[|final|..];
  }

  /** What can be sent adds something. */
  lemma SendableAdds(bl: seq<nat>, ts: seq<Token>)
    requires HaveCodes(bl, ts)
    ensures forall t :: t in ts ==> Adds(t)
  {
    forall t | t in ts ensures Adds(t) { assert HasCode(bl, t); }
  }

  // --------------------------------------------------------------- the nineteen lengths

  ghost predicate SameUpTo(lens: seq<nat>, bl: seq<nat>, k: nat) {
    |lens| == LENS_SIZE && |bl| == CODE_LENGTHS
        && forall r :: 0 <= r < k && r < CODE_LENGTHS ==> lens[BL_ORDER[r]] == bl[BL_ORDER[r]]
  }

  lemma SameNextRank(lens: seq<nat>, bl: seq<nat>, k: nat)
    requires SameUpTo(lens, bl, k) && k < CODE_LENGTHS
    ensures BL_ORDER[k] < CODE_LENGTHS && SameUpTo(lens[BL_ORDER[k] := bl[BL_ORDER[k]]], bl, k + 1)
  {
    OrderRanks(k);
    forall r | 0 <= r < k + 1 && r < CODE_LENGTHS ensures BL_ORDER[r] < CODE_LENGTHS { OrderRanks(r); }
  }

  /** Zeros for the rest make all nineteen right. */
  lemma {:induction false} SameRest(lens: seq<nat>, bl: seq<nat>, k: nat)
    requires SameUpTo(lens, bl, k) && ZeroFrom(bl, k)
    ensures ZeroRest(lens, k)[..CODE_LENGTHS] == bl
    decreases CODE_LENGTHS - k
  {
    if k < CODE_LENGTHS {
      SameNextRank(lens, bl, k);
      SameRest(lens[BL_ORDER[k] := 0], bl, k + 1);
    } else {
      forall i | 0 <= i < CODE_LENGTHS ensures lens[i] == bl[i] { OrderRanks(i); }
    }
  }

  /** From rank r on to the code lengths. */
  lemma {:induction false} OrderRun(c: Setup, s: State, bl: seq<nat>, n: nat, more: Bits) returns (t: State)
    requires Ok(s) && s.mode == LENLENS && s.ncode == n && s.have <= n <= CODE_LENGTHS && SameUpTo(s.lens, bl, s.have)
    requires ZeroFrom(bl, n) && (forall i :: 0 <= i < |bl| ==> bl[i] <= 7) && GoodCode(CODES, bl)
    requires |s.lens| == LENS_SIZE && |bl| == CODE_LENGTHS && s.rest == Join(OrderBits(bl, s.have, n), more)
    ensures Leads(c, s, t) && t.mode == CODELENS && t.have == 0 && t.lcode == bl && t.rest == more
    ensures t.out == s.out && t.last == s.last && t.nlen == s.nlen && t.ndist == s.ndist && |t.lens| == LENS_SIZE
    decreases n - s.have
  {
    hide Ok, Step, Leads, Below, Acceptable, Join, Low, Shr, ZeroRest, SameUpTo, ZeroFrom;
    if s.have == n {
      InflateTrees.FinishStep(c, s);
      SameRest(s.lens, bl, n);
      JoinNone(more);
      t := s.(lens := ZeroRest(s.lens, s.have), have := 0, lcode := bl, mode := CODELENS, rest := more);
      LeadsStep(c, s, t);
    } else {
      OrderRanks(s.have);
      var x := bl[BL_ORDER[s.have]];
      OneRank(bl, s.have, n, more);
      InflateTrees.LenLensStep(c, s);
      SameNextRank(s.lens, bl, s.have);
      var s1 := s.(lens := s.lens[BL_ORDER[s.have] := x], have := s.have + 1,
          rest := Join(OrderBits(bl, s.have + 1, n), more));
      LeadsStep(c, s, s1);
      LeadsOk(c, s, s1);
      t := OrderRun(c, s1, bl, n, more);
      LeadsOn(c, s, s1, t);
    }
  }

  lemma OneRank(bl: seq<nat>, r: nat, n: nat, more: Bits)
    requires r < n <= CODE_LENGTHS == |bl| && (forall i :: 0 <= i < |bl| ==> bl[i] <= 7)
    ensures var b := Join(OrderBits(bl, r, n), more);
      && BL_ORDER[r] < CODE_LENGTHS && b.n >= 3 && Low(b.v, 3) == bl[BL_ORDER[r]]
      && Bits(Shr(b.v, 3), b.n - 3) == Join(OrderBits(bl, r + 1, n), more)
  {
    hide Low, Shr, Join, Pow2;
    OrderRanks(r);
    EightAre();
    var x, rest := Bits(bl[BL_ORDER[r]], 3), OrderBits(bl, r + 1, n);
    JoinAssoc(x, rest, more);
    BlockDecoding.JoinIsFollowed(x, Join(rest, more));
    FollowedBack(x, Join(rest, more).v);
    JoinLength(x, Join(rest, more));
  }

  lemma EightAre()
    ensures Pow2(3) == 8
  {
  }

  // ------------------------------------------------------------------- the whole header

  lemma CompleteGood(lit: seq<nat>, dist: seq<nat>, bl: seq<nat>)
    requires CompleteTrees(lit, dist, bl)
    ensures GoodCode(LENS, lit) && GoodCode(DISTS, dist) && GoodCode(CODES, bl)
  {
    hide KraftBelow, Pow2;
  }

  lemma CountsItem(lit: nat, dist: nat, n: nat, more: Bits)
    requires 257 <= lit <= 288 && 1 <= dist <= 32 && 4 <= n <= 19
    ensures var b := Join(CountBits(lit, dist, n), more);
      && ReadCounts(b.v) == Counts(lit, dist, n, more.v) && b.n >= 14 && Bits(Shr(b.v, 14), b.n - 14) == more
  {
    hide Low, Shr, Join;
    CountsRead(lit, dist, n, more.v);
    BlockDecoding.JoinIsFollowed(CountBits(lit, dist, n), more);
    var a, b, c := Bits(lit - 257, 5), Bits(dist - 1, 5), Bits(n - 4, 4);
    JoinLength(b, c);
    JoinLength(a, Join(b, c));
    JoinLength(CountBits(lit, dist, n), more);
    var v := Join(CountBits(lit, dist, n), more).v;
    ShrShr(v, 5, 5);
    ShrShr(v, 10, 4);
  }

  /** From the counts to the first symbol. */
  lemma HeaderRun(c: Setup, s: State, lit: seq<nat>, dist: seq<nat>, bl: seq<nat>, n: nat, more: Bits)
    returns (t: State)
    requires Ok(s) && s.mode == TABLE && GoodHeader(lit, dist, bl, n) && CompleteTrees(lit, dist, bl) && lit[256] != 0
    requires Builds(LENS, lit, 9, c.enoughLens) && Builds(DISTS, dist, 6, c.enoughDists)
    requires s.rest == Join(HeaderBits(lit, dist, bl, n), more)
    ensures Leads(c, s, t) && t.mode == LEN && t.lcode == lit && t.dcode == dist && t.rest == more
    ensures t.out == s.out && t.last == s.last
  {
    hide Ok, Step, Leads, Below, Acceptable, Join, Shr, ReadCounts, CountBits, OrderBits, TreesBits, CompleteTrees,
      Builds, TreeTokens, HaveCodes, SameUpTo;
    HeaderFacts(lit, dist, bl, n);
    CompleteGood(lit, dist, bl);
    var trees := Join(TreesBits(lit, dist, bl), more);
    var order := Join(OrderBits(bl, 0, n), trees);
    JoinAssoc(CountBits(|lit|, |dist|, n), Join(OrderBits(bl, 0, n), TreesBits(lit, dist, bl)), more);
    JoinAssoc(OrderBits(bl, 0, n), TreesBits(lit, dist, bl), more);
    CountsItem(|lit|, |dist|, n, order);
    InflateTrees.TableStep(c, s, Counts(|lit|, |dist|, n, 0));
    var s1 := s.(nlen := |lit|, ndist := |dist|, ncode := n, have := 0, mode := LENLENS, rest := order);
    LeadsStep(c, s, s1);
    LeadsOk(c, s, s1);
    InflateTrees.LenLensOk(s1);
    assert SameUpTo(s1.lens, bl, 0) by { NoneSame(s1.lens, bl); }
    var s2 := OrderRun(c, s1, bl, n, trees);
    LeadsOn(c, s, s1, s2);
    LeadsOk(c, s, s2);
    t := LengthsRun(c, s2, lit, dist, bl, more);
    LeadsOn(c, s, s2, t);
  }

  lemma NoneSame(lens: seq<nat>, bl: seq<nat>)
    requires |lens| == LENS_SIZE && |bl| == CODE_LENGTHS
    ensures SameUpTo(lens, bl, 0)
  {
  }

  lemma HeaderFacts(lit: seq<nat>, dist: seq<nat>, bl: seq<nat>, n: nat)
    requires GoodHeader(lit, dist, bl, n)
    ensures 257 <= |lit| <= 286 && 1 <= |dist| <= 30 && 4 <= n <= 19 && ZeroFrom(bl, n) && |bl| == CODE_LENGTHS
    ensures (forall i :: 0 <= i < |lit| ==> lit[i] <= 15) && (forall i :: 0 <= i < |dist| ==> dist[i] <= 15)
    ensures forall i :: 0 <= i < |bl| ==> bl[i] <= 7
    ensures HaveCodes(bl, TreeTokens(lit)) && HaveCodes(bl, TreeTokens(dist))
  {
    hide HaveCodes, TreeTokens;
  }

  /** The code lengths of both trees, and the tables for them. */
  lemma LengthsRun(c: Setup, s: State, lit: seq<nat>, dist: seq<nat>, bl: seq<nat>, more: Bits) returns (t: State)
    requires Ok(s) && s.mode == CODELENS && s.have == 0 && s.lcode == bl && |s.lens| == LENS_SIZE
    requires s.nlen == |lit| && s.ndist == |dist| && 257 <= |lit| <= 286 && 1 <= |dist| <= 30 && lit[256] != 0
      && GoodCode(CODES, bl)
    requires (forall i :: 0 <= i < |lit| ==> lit[i] <= 15) && (forall i :: 0 <= i < |dist| ==> dist[i] <= 15)
    requires HaveCodes(bl, TreeTokens(lit)) && HaveCodes(bl, TreeTokens(dist)) && ValidLens(lit) && ValidLens(dist)
    requires Builds(LENS, lit, 9, c.enoughLens) && Builds(DISTS, dist, 6, c.enoughDists)
    requires s.rest == Join(TreesBits(lit, dist, bl), more)
    ensures Leads(c, s, t) && t.mode == LEN && t.lcode == lit && t.dcode == dist && t.rest == more
    ensures t.out == s.out && t.last == s.last
  {
    hide Ok, Step, Leads, Below, Acceptable, Join, TreeTokens, HaveCodes, Builds, Expand, Adds, TokensBits;
    var a, b := TreeTokens(lit), TreeTokens(dist);
    TokensJoin(bl, a, b);
    TreeTokensExpand(lit);
    TreeTokensExpand(dist);
    ExpandAfter(lit, [], b, dist);
    assert lit + [] == lit && s.lens[..s.have] == [];
    ExpandMore([], a, b, lit);
    SendableAdds(bl, a + b);
    TokensRun(c, s, a + b, lit + dist, more);
    var s1 := WithLengths(s, lit + dist, more);
    LeadsOk(c, s, s1);
    InflateTrees.TreesStep(c, s1);
    assert s1.lens[..|lit|] == lit && s1.lens[|lit|..|lit| + |dist|] == dist;
    t := s1.(lcode := lit, dcode := dist, mode := LEN);
    LeadsStep(c, s1, t);
    LeadsOn(c, s, s1, t);
  }
}
