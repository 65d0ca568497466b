/**
 The header of a dynamic block, read back from a run of steps that ends well: TABLE, LENLENS and CODELENS
 let through only what the format allows.
 */
module HeaderAccepted {
  import opened BitOps
  import opened Canonical
  import opened DecodeTable
  import opened RunLengths
  import opened BitStream
  import opened CodeReading
  import opened CodeLengths
  import opened CodeLookup
  import opened BlockHeader
  import opened InflateSpec
  import opened InflateRuns
  import opened InflateTable
  import opened StreamFormat
  import opened Accepted
  import opened HeaderDecoding
  import InflateTrees

  // --------------------------------------------------------------------------- the counts

  lemma CountsMean(r: Bits)
    requires r.n >= 14
    ensures var k := ReadCounts(r.v);
      && 257 <= k.nlen && 1 <= k.ndist && 4 <= k.ncode <= 19
      && r == Join(CountBits(k.nlen, k.ndist, k.ncode), Bits(Shr(r.v, 14), r.n - 14))
  {
    hide Low, Shr, Join;
    CountsBound(r.v);
    var r1, r2 := Bits(Shr(r.v, 5), r.n - 5), Bits(Shr(r.v, 10), r.n - 10);
    TakenJoin(r, 5);
    ShrShr(r.v, 5, 5);
    TakenJoin(r1, 5);
    ShrShr(r.v, 10, 4);
    TakenJoin(r2, 4);
    var k := ReadCounts(r.v);
    var a, b, d := Bits(k.nlen - 257, 5), Bits(k.ndist - 1, 5), Bits(k.ncode - 4, 4);
    var rest := Bits(Shr(r.v, 14), r.n - 14);
    JoinAssoc(b, d, rest);
    JoinAssoc(a, Join(b, d), rest);
  }

  // -------------------------------------------------------------------- the nineteen lengths

  /** Zeroing the rest leaves what was read and makes the others zero. */
  lemma {:induction false} ZeroRestIs(lens: seq<nat>, k: nat, r: nat)
    requires |lens| == LENS_SIZE && r < CODE_LENGTHS
    ensures BL_ORDER[r] < CODE_LENGTHS
    ensures ZeroRest(lens, k)[BL_ORDER[r]] == if r < k then lens[BL_ORDER[r]] else 0
    decreases CODE_LENGTHS - k
  {
    OrderRanks(r);
    if k < CODE_LENGTHS {
      OrderRanks(k);
      ZeroRestIs(lens[BL_ORDER[k] := 0], k + 1, r);
    }
  }

  lemma ShortIs(lens: seq<nat>, k: nat, short: seq<nat>)
    requires |lens| == LENS_SIZE && ShortUpTo(lens, k) && short == ZeroRest(lens, k)[..CODE_LENGTHS]
    ensures SameUpTo(lens, short, k) && ZeroFrom(short, k) && forall i :: 0 <= i < |short| ==> short[i] <= 7
  {
    hide ZeroRest, ShortUpTo;
    forall r | 0 <= r < CODE_LENGTHS
      ensures BL_ORDER[r] < CODE_LENGTHS && short[BL_ORDER[r]] == if r < k then lens[BL_ORDER[r]] else 0
    {
      ZeroRestIs(lens, k, r);
    }
    ShortZero(lens, k);
    ShortAll(ZeroRest(lens, k));
  }

  lemma OneMore(lens: seq<nat>, short: seq<nat>, k: nat, n: nat, x: nat, rest: Bits)
    requires k < n <= CODE_LENGTHS && |lens| == LENS_SIZE && BL_ORDER[k] < CODE_LENGTHS
    requires SameUpTo(lens[BL_ORDER[k] := x], short, k + 1)
    ensures SameUpTo(lens, short, k) && |short| == CODE_LENGTHS
    ensures Join(OrderBits(short, k, n), rest) == Join(Bits(x, 3), Join(OrderBits(short, k + 1, n), rest))
  {
    hide Join;
    forall r | 0 <= r < k ensures BL_ORDER[r] < CODE_LENGTHS && BL_ORDER[r] != BL_ORDER[k] {
      OrderRanks(r);
      OrderRanks(k);
    }
    JoinAssoc(Bits(x, 3), OrderBits(short, k + 1, n), rest);
  }

  /** From some of the nineteen lengths on. */
  lemma {:induction false} OrderMeans(c: Setup, s: State) returns (t: State)
    requires Ends(c, s) && s.mode == LENLENS
    ensures |s.lens| == LENS_SIZE && s.have <= s.ncode <= CODE_LENGTHS && |t.lcode| == CODE_LENGTHS
    ensures SameUpTo(s.lens, t.lcode, s.have) && ZeroFrom(t.lcode, s.ncode) && GoodCode(CODES, t.lcode)
    ensures forall i :: 0 <= i < |t.lcode| ==> t.lcode[i] <= 7
    ensures s.rest == Join(OrderBits(t.lcode, s.have, s.ncode), t.rest)
    ensures Leads(c, s, t) && Ends(c, t) && t.mode == CODELENS && t.have == 0
    ensures t.nlen == s.nlen && t.ndist == s.ndist && t.ncode == s.ncode && t.out == s.out && t.last == s.last
    ensures t.rest.n <= s.rest.n
    decreases s.rest.n
  {
    hide Ok, Step, Leads, Ending, Below, Acceptable, Join, Low, Shr, ZeroRest, SameUpTo, ZeroFrom, ShortUpTo, GoodCode;
    InflateTrees.LenLensOk(s);
    if s.have < s.ncode {
      EndsNext(c, s);
      ThreeThere(c, s);
      InflateTrees.LenLensStep(c, s);
      var x := Low(s.rest.v, 3);
      var s1 := Take(s, 3).(lens := s.lens[BL_ORDER[s.have] := x], have := s.have + 1);
      EndsStep(c, s, s1);
      t := OrderMeans(c, s1);
      TakenJoin(s.rest, 3);
      OneMore(s.lens, t.lcode, s.have, s.ncode, x, t.rest);
      LeadsOn(c, s, s1, t);
    } else {
      InflateTrees.FinishStep(c, s);
      EndsNext(c, s);
      var lens := ZeroRest(s.lens, s.have);
      t := s.(lens := lens, have := 0, lcode := lens[..CODE_LENGTHS], mode := CODELENS);
      if !GoodCode(CODES, lens[..CODE_LENGTHS]) {
        EndsOn(c, s, Step(c, s).s);
        assert false;
      }
      EndsStep(c, s, t);
      ShortIs(s.lens, s.have, t.lcode);
      JoinNone(t.rest);
    }
  }

  lemma ThreeThere(c: Setup, s: State)
    requires Ok(s) && s.mode == LENLENS && s.have < s.ncode && Step(c, s).Next?
    ensures s.rest.n >= 3
  {
    hide CodeLookup.GoodCode, ZeroRest;
    AtLenLens(c, s);
  }

  // ------------------------------------------------------------------------ code lengths

  /** The token for a symbol and the number in the bits after it. */
  function TokenFor(val: nat, x: nat): Token {
    if val < 16 then Length(val)
    else if val == 16 then Rep(3 + x)
    else if val == 17 then Zeros(3 + x)
    else ManyZeros(11 + x)
  }

  lemma TokenHas(bl: seq<nat>, val: nat, x: nat)
    requires |bl| == BL_CODES && val < BL_CODES && bl[val] != 0 && x < Pow2(InflateTrees.RepeatBits(val))
    ensures var t := TokenFor(val, x);
      HasCode(bl, t) && SymbolOf(t) == val && ExtraOf(t) == Bits(x, InflateTrees.RepeatBits(val))
  {
    assert Pow2(0) == 1 && Pow2(2) == 4 && Pow2(3) == 8 && Pow2(7) == 128;
  }

  /** The bits begin with a token. */
  lemma TokenMeans(bl: seq<nat>, r: Bits) returns (t: Token, val: nat, x: nat)
    requires GoodCode(CODES, bl) && |bl| == BL_CODES && !NoSymbols(bl)
    requires var f := CodeFound(CODES, bl, r.v); f.bits + InflateTrees.RepeatBits(f.val) <= r.n
    ensures var f := CodeFound(CODES, bl, r.v); var n := f.bits + InflateTrees.RepeatBits(f.val);
      && f.val == val < BL_CODES && x == Low(Shr(r.v, f.bits), InflateTrees.RepeatBits(val)) && t == TokenFor(val, x)
      && HasCode(bl, t) && r == Join(TokenBits(bl, t), Bits(Shr(r.v, n), r.n - n)) && n > 0
  {
    hide Low, Shr, Shl, RevCode, Join, CodeFound, SymbolOp, KraftBelow, Pow2;
    var all := Complete(bl, r.v);
    var ok, s := SymbolRead(CODES, bl, r);
    var f := CodeFound(CODES, bl, r.v);
    SymbolIs(bl, s);
    val := s;
    var e := InflateTrees.RepeatBits(s);
    x := Low(Shr(r.v, bl[s]), e);
    Split(Shr(r.v, bl[s]), e);
    t := TokenFor(val, x);
    TokenHas(bl, s, x);
    var r1 := Bits(Shr(r.v, bl[s]), r.n - bl[s]);
    TakenJoin(r1, e);
    ShrShr(r.v, bl[s], e);
    JoinAssoc(CodeOf(bl, s), Bits(x, e), Bits(Shr(r1.v, e), r1.n - e));
  }

  lemma SymbolIs(bl: seq<nat>, s: nat)
    requires s < |bl| <= MaxCodes(CODES)
    ensures var f := SymbolFound(CODES, bl, s); f.val == s && f.bits == bl[s]
  {
  }

  /** A repeat that is let through fits. */
  lemma RepeatFits(c: Setup, s: State, bits: nat, l: nat, least: nat, x: nat)
    requires Ends(c, s) && s.mode == CODELENS && bits + x <= s.rest.n && s.nlen + s.ndist <= |s.lens|
    requires Step(c, s) == Repeated(s, bits, l, least, x)
    ensures var copy := least + Low(Shr(s.rest.v, bits), x);
      s.have + copy <= s.nlen + s.ndist
      && Step(c, s).Next? && Step(c, s).s
        == WithLengths(s, s.lens[..s.have] + Copies(l, copy), Bits(Shr(s.rest.v, bits + x), s.rest.n - (bits + x)))
  {
    hide Ok, Step, Leads, Ending, Low, Shr, Spread;
    EndsNext(c, s);
    EndsOn(c, s, Step(c, s).s);
    var copy := least + Low(Shr(s.rest.v, bits), x);
    SpreadIs(s.lens, s.have, l, copy);
  }

  lemma LengthIs(s: State, l: nat, rest: Bits)
    requires s.have < |s.lens|
    ensures s.(lens := s.lens[s.have := l], have := s.have + 1, rest := rest) == WithLengths(s, s.lens[..s.have] + [l],
      rest)
  {
    assert s.lens[s.have := l] == (s.lens[..s.have] + [l]) + s.lens[s.have + 1..];
  }

  /** One token on. */
  lemma TokenEnds(c: Setup, s: State) returns (t: Token, s1: State)
    requires Ends(c, s) && s.mode == CODELENS && s.have < s.nlen + s.ndist && |s.lens| == LENS_SIZE
    requires s.nlen + s.ndist <= LENS_SIZE && GoodCode(CODES, s.lcode) && |s.lcode| == BL_CODES && !NoSymbols(s.lcode)
    ensures HasCode(s.lcode, t) && (t.Rep? ==> s.have > 0)
    ensures s.have + |Added(s.lens[..s.have], t)| <= s.nlen + s.ndist
    ensures s1 == WithLengths(s, s.lens[..s.have] + Added(s.lens[..s.have], t), s1.rest)
    ensures s.rest == Join(TokenBits(s.lcode, t), s1.rest) && s1.rest.n < s.rest.n && Leads(c, s, s1) && Ends(c, s1)
  {
    hide Ok, Step, Leads, Ending, Below, Finish, CodeFound, Acceptable, Low, Shr, Join, TokenBits, HasCode, NoSymbols,
      Repeated;
    EndsNext(c, s);
    InflateTrees.LengthHeld(c, s);
    var f := CodeFound(CODES, s.lcode, s.rest.v);
    var val, x;
    t, val, x := TokenMeans(s.lcode, s.rest);
    InflateTrees.LengthStep(c, s, f);
    s1 := Step(c, s).s;
    EndsOn(c, s, s1);
    if val < 16 {
      LengthIs(s, val, Bits(Shr(s.rest.v, f.bits), s.rest.n - f.bits));
    } else if val == 16 {
      RepeatFits(c, s, f.bits, s.lens[s.have - 1], 3, 2);
    } else if val == 17 {
      RepeatFits(c, s, f.bits, 0, 3, 3);
    } else {
      RepeatFits(c, s, f.bits, 0, 11, 7);
    }
  }

  lemma TokenFirst(bl: seq<nat>, t: Token, more: seq<Token>, out: seq<nat>)
    requires HasCode(bl, t) && HaveCodes(bl, more) && (t.Rep? ==> out != [])
    ensures HaveCodes(bl, [t] + more) && TokensBits(bl, [t] + more) == Join(TokenBits(bl, t), TokensBits(bl, more))
    ensures Expand(out, [t] + more) == Expand(out + Added(out, t), more)
  {
    hide HasCode, TokenBits, Join, Added;
    assert ([t] + more)[1..] == more;
  }

  /** Some code lengths can be read with the code of lcode. */
  ghost predicate Reading(s: State) {
    && s.mode == CODELENS && |s.lens| == LENS_SIZE && s.have <= s.nlen + s.ndist <= LENS_SIZE
    && GoodCode(CODES, s.lcode) && |s.lcode| == BL_CODES && !NoSymbols(s.lcode)
  }

  /** From some of the code lengths to all. */
  lemma {:induction false} TokensMean(c: Setup, s: State) returns (ts: seq<Token>, final: seq<nat>, t: State)
    requires Reading(s) && Ends(c, s)
    ensures HaveCodes(s.lcode, ts) && s.rest == Join(TokensBits(s.lcode, ts), t.rest)
    ensures |final| == s.nlen + s.ndist <= |s.lens| && t == WithLengths(s, final, t.rest)
    ensures s.have <= |s.lens| && Expand(s.lens[..s.have], ts) == Lengths(final)
    ensures Leads(c, s, t) && Ends(c, t) && t.rest.n <= s.rest.n
    decreases s.rest.n
  {
    hide Ok, Step, Leads, Ending, Below, Acceptable, Join, TokenBits, HasCode, NoSymbols, Added;
    if s.have == s.nlen + s.ndist {
      ts, t, final := [], s, s.lens[..s.have];
      Stays(c, s);
      JoinNone(s.rest);
      assert s.lens[..s.have] + s.lens[s.have..] == s.lens;
    } else {
      var x, s1 := TokenEnds(c, s);
      var out := s.lens[..s.have];
      var more;
      assert s1.lens[..s1.have] == out + Added(out, x);
      more, final, t := TokensMean(c, s1);
      ts := [x] + more;
      TokenFirst(s.lcode, x, more, out);
      JoinAssoc(TokenBits(s.lcode, x), TokensBits(s.lcode, more), t.rest);
      LeadsOn(c, s, s1, t);
      ExpandGrows(out + Added(out, x), more, final);
      Rewritten(s, out + Added(out, x), s1.rest, final, t.rest);
    }
  }

  // ------------------------------------------------------- a code with no symbols at all

  lemma NoneFound(bl: seq<nat>, v: nat)
    requires |bl| <= MaxCodes(CODES) && NoSymbols(bl)
    ensures CodeFound(CODES, bl, v) == InvalidFound && InvalidFound.val == 0 && InvalidFound.bits == 1
  {
    hide RevCode, Low;
  }

  /** With it every length is read as zero, so that there is no end of block. */
  lemma {:induction false} NoneFails(c: Setup, s: State)
    requires Ends(c, s) && s.mode == CODELENS && |s.lens| == LENS_SIZE && s.have <= s.nlen + s.ndist <= LENS_SIZE
    requires |s.lcode| == BL_CODES && NoSymbols(s.lcode) && forall i :: 0 <= i < s.have ==> s.lens[i] == 0
    ensures false
    decreases s.rest.n
  {
    hide Ok, Step, Leads, Ending, Below, Finish, CodeFound, Acceptable, Low, Shr, NoSymbols, Builds;
    InflateTrees.CodeLensOk(s);
    EndsNext(c, s);
    EndsOn(c, s, Step(c, s).s);
    if s.have == s.nlen + s.ndist {
      InflateTrees.TreesStep(c, s);
    } else {
      NoneFound(s.lcode, s.rest.v);
      InflateTrees.LengthHeld(c, s);
      InflateTrees.LengthStep(c, s, CodeFound(CODES, s.lcode, s.rest.v));
      NoneFails(c, Step(c, s).s);
    }
  }

  // ------------------------------------------------------------------- the whole header

  /** After the last length: both codes can be used. */
  lemma TreesMean(c: Setup, s: State, final: seq<nat>) returns (t: State)
    requires Ends(c, s) && s.mode == CODELENS && s.have == s.nlen + s.ndist == |final| <= |s.lens|
    requires final == s.lens[..|final|]
    ensures 257 <= s.nlen <= 286 && 1 <= s.ndist <= 30
    ensures var lit, dist := final[..s.nlen], final[s.nlen..];
      && lit[256] != 0 && ValidLens(lit) && ValidLens(dist)
      && Builds(LENS, lit, 9, c.enoughLens) && Builds(DISTS, dist, 6, c.enoughDists)
      && t == s.(lcode := lit, dcode := dist, mode := LEN)
    ensures Leads(c, s, t) && Ends(c, t)
  {
    hide Step, Leads, Ending, GoodCode, Builds, Finish, ShortUpTo, Below;
    InflateTrees.TreesStep(c, s);
    EndsNext(c, s);
    t := Step(c, s).s;
    EndsOn(c, s, t);
    assert s.lens[s.nlen..s.nlen + s.ndist] == final[s.nlen..] && s.lens[..s.nlen] == final[..s.nlen];
  }

  lemma CountsRead(c: Setup, s: State) returns (t: State)
    requires Ends(c, s) && s.mode == TABLE
    ensures 257 <= t.nlen <= 286 && 1 <= t.ndist <= 30 && 4 <= t.ncode <= 19
    ensures s.rest == Join(CountBits(t.nlen, t.ndist, t.ncode), t.rest) && t.rest.n < s.rest.n
    ensures t == s.(nlen := t.nlen, ndist := t.ndist, ncode := t.ncode, rest := t.rest, have := 0, mode := LENLENS)
    ensures Leads(c, s, t) && Ends(c, t)
  {
    hide Ok, Step, Leads, Ending, Join, Shr, ReadCounts, CountBits, Finish, Below;
    EndsNext(c, s);
    InflateTrees.TableHeld(c, s);
    CountsMean(s.rest);
    InflateTrees.TableStep(c, s, ReadCounts(s.rest.v));
    t := Step(c, s).s;
    EndsOn(c, s, t);
  }

  /** The code lengths and what they were written as. */
  lemma LengthsMean(c: Setup, s: State) returns (h: Header, t: State)
    requires Ends(c, s) && s.mode == CODELENS && s.have == 0 && 4 <= s.ncode <= 19 && ZeroFrom(s.lcode, s.ncode)
    requires forall i :: 0 <= i < |s.lcode| ==> s.lcode[i] <= 7
    ensures GoodHeading(c, h) && h.n == s.ncode && h.short == s.lcode && |h.lit| == s.nlen && |h.dist| == s.ndist
    ensures s.rest == Join(TokensBits(h.short, h.tokens), t.rest) && t.rest.n <= s.rest.n
    ensures Leads(c, s, t) && Ends(c, t)
    ensures t.mode == LEN && t.lcode == h.lit && t.dcode == h.dist && t.out == s.out && t.last == s.last
  {
    hide Ok, Step, Leads, Ending, Below, Acceptable, Join, TokenBits, TokensBits, HaveCodes, NoSymbols, Builds, Expand,
      Finish;
    InflateTrees.CodeLensOk(s);
    if NoSymbols(s.lcode) { NoneFails(c, s); }
    var ts, final, s1 := TokensMean(c, s);
    t := TreesMean(c, s1, final);
    LeadsOn(c, s, s1, t);
    h := Header(final[..s.nlen], final[s.nlen..], s.lcode, s.ncode, ts);
    assert s.lens[..s.have] == [] && h.lit + h.dist == final;
  }

  /** The header of a dynamic block that was let through. */
  lemma HeaderMeans(c: Setup, s: State) returns (h: Header, t: State)
    requires Ends(c, s) && s.mode == TABLE
    ensures GoodHeading(c, h) && s.rest == Join(HeadingBits(h), t.rest) && t.rest.n < s.rest.n
    ensures Leads(c, s, t) && Ends(c, t)
    ensures t.mode == LEN && t.lcode == h.lit && t.dcode == h.dist && t.out == s.out && t.last == s.last
  {
    hide Ok, Step, Leads, Ending, Below, Acceptable, Join, CountBits, OrderBits, TokensBits, HaveCodes, Builds, Expand,
      ZeroFrom, SameUpTo;
    var s1 := CountsRead(c, s);
    var s2 := OrderMeans(c, s1);
    LeadsOn(c, s, s1, s2);
    h, t := LengthsMean(c, s2);
    LeadsOn(c, s, s2, t);
    var order, tokens := OrderBits(h.short, 0, h.n), TokensBits(h.short, h.tokens);
    JoinAssoc(order, tokens, t.rest);
    JoinAssoc(CountBits(|h.lit|, |h.dist|, h.n), Join(order, tokens), t.rest);
  }
}
