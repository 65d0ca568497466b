/**
 What `compress_block` writes, inflate's steps decode: the symbols of a block, sent with
 any complete codes, extend the output as LZ77 says, and the block ends where it should.
 */
module BlockDecoding {
  import opened BitOps
  import opened Canonical
  import opened DecodeTable
  import opened BitStream
  import opened CodeReading
  import opened CodeLookup
  import opened LengthCodes
  import opened Lz77
  import opened Blocks
  import opened BlockCodes
  import opened InflateSpec
  import opened InflateRuns
  import opened InflateFast
  import opened InflateTable

  lemma CodeReads(t: CodeType, lens: seq<nat>, s: nat, more: Bits)
    requires GoodCode(t, lens) && s < |lens| && lens[s] != 0
    ensures var v := Join(CodeOf(lens, s), more).v;
      CodeFound(t, lens, v) == SymbolFound(t, lens, s) && Shr(v, lens[s]) == more.v
  {
    hide RevCode, Low, Shr, Shl, CodeFound, Acceptable, KraftBelow, Pow2;
    var h := Followed(CodeOf(lens, s), more.v);
    FollowedBack(CodeOf(lens, s), more.v);
    assert Matches(lens, s, h);
    GoodKraft(t, lens);
    FoundIs(t, lens, h, s);
  }

  function ItemOf(s: Symbol): InflateFast.Item {
    match s
    case Literal(c) => ILit(c)
    case Match(dist, len) => ICopy(dist, len)
  }

  lemma DistsAre32(dl: seq<nat>)
    requires GoodCode(DISTS, dl)
    ensures |dl| <= 32
  {
    hide Acceptable, ValidLens;
  }

  lemma DistAtIs(dl: seq<nat>, v: nat, c: nat, dist: nat, len: nat, used: nat)
    requires c < |dl| <= 32 && c < D_CODES && CodeFound(DISTS, dl, v) == SymbolFound(DISTS, dl, c)
    requires DBASE[c] + Low(Shr(v, dl[c]), EXTRA_DBITS[c]) == dist
    ensures DistAt(dl, v, len, used) == ReadItem(ICopy(dist, len), used + dl[c] + EXTRA_DBITS[c])
  {
    hide Low, Shr, CodeFound, SymbolOp, Flag;
    DistOp(c);
  }

  /** The bits of a distance. */
  lemma DistItem(t: Tables, dl: seq<nat>, dist: nat, len: nat, used: nat, more: Bits)
    requires GoodTables(t) && GoodCode(DISTS, dl) && 1 <= dist <= 0x8000 && HasSymbol(dl, DCode(t.distCode, dist - 1))
    ensures var b := DistBits(t, Codes([], dl), dist);
      DistAt(dl, Join(b, more).v, len, used) == ReadItem(ICopy(dist, len), used + b.n)
          && Shr(Join(b, more).v, b.n) == more.v
  {
    hide DistAt, SymbolFound, Low, Shr, CodeOf, Extra, Flag, CodeFound, Acceptable, Join, ValidLens, SymbolOp, Proper,
      LengthTables, MaxCodes, GoodCode, Followed, Span;
    var c := DCode(t.distCode, dist - 1);
    var x := Extra(dist - 1 - t.baseDist[c], EXTRA_DBITS[c]);
    assert DistCoded(c, t.baseDist[c], dist - 1);
    ExtraLength(dist - 1 - t.baseDist[c], EXTRA_DBITS[c]);
    JoinAssoc(CodeOf(dl, c), x, more);
    CodeReads(DISTS, dl, c, Join(x, more));
    JoinIsFollowed(x, more);
    DistBack(t, dist - 1, more.v);
    DistsAre32(dl);
    DistAtIs(dl, Join(DistBits(t, Codes([], dl), dist), more).v, c, dist, len, used);
    JoinLength(CodeOf(dl, c), x);
    CodeLength(dl, c);
    ShrShr(Join(DistBits(t, Codes([], dl), dist), more).v, dl[c], EXTRA_DBITS[c]);
  }

  lemma JoinIsFollowed(b: Bits, more: Bits)
    ensures Join(b, more).v == Followed(b, more.v)
  {
  }

  lemma CodeLength(lens: seq<nat>, s: nat)
    requires s < |lens|
    ensures CodeOf(lens, s).n == lens[s]
  {
  }

  lemma ExtraLength(v: nat, n: nat)
    ensures Extra(v, n).n == n
  {
  }

  /** The bits of a length, and then those of a distance. */
  lemma LengthItem(t: Tables, cs: Codes, dist: nat, len: nat, more: Bits)
    requires GoodTables(t) && GoodCode(LENS, cs.ll) && GoodCode(DISTS, cs.dl) && HasCodes(t, cs, Match(dist, len))
    ensures var b := SymbolBits(t, cs, Match(dist, len));
      ItemAt(cs.ll, cs.dl, Join(b, more).v) == ReadItem(ICopy(dist, len), b.n) && Shr(Join(b, more).v, b.n) == more.v
  {
    hide Low, Shr, CodeOf, Extra, Flag, CodeFound, Acceptable, Join, DistAt, DistBits, LengthExtra, HasCodes,
      GoodTables;
    LengthHas(t, cs, dist, len);
    var c := t.lengthCode[len - 3];
    var x, d := LengthExtra(t, len - 3), DistBits(t, cs, dist);
    SameDist(t, cs, dist);
    JoinAssoc(Join(CodeOf(cs.ll, 257 + c), x), d, more);
    JoinAssoc(CodeOf(cs.ll, 257 + c), x, Join(d, more));
    CodeReads(LENS, cs.ll, 257 + c, Join(x, Join(d, more)));
    JoinIsFollowed(x, Join(d, more));
    LengthBack(t, len - 3, Join(d, more).v);
    LengthOp(c);
    CodeLength(cs.ll, 257 + c);
    LengthExtraLength(t, len - 3);
    JoinLength(CodeOf(cs.ll, 257 + c), x);
    JoinLength(LengthBits(t, cs, len), d);
    DistItem(t, cs.dl, dist, len, cs.ll[257 + c] + EXTRA_LBITS[c], more);
    var v := Join(SymbolBits(t, cs, Match(dist, len)), more).v;
    ShrShr(v, cs.ll[257 + c], EXTRA_LBITS[c]);
    ShrShr(v, cs.ll[257 + c] + EXTRA_LBITS[c], d.n);
  }

  lemma LengthHas(t: Tables, cs: Codes, dist: nat, len: nat)
    requires GoodTables(t) && HasCodes(t, cs, Match(dist, len))
    ensures 3 <= len <= 258 && 1 <= dist <= 0x8000 && |t.lengthCode| >= 256 && t.lengthCode[len - 3] < LENGTH_CODES
    ensures HasSymbol(cs.ll, 257 + t.lengthCode[len - 3]) && HasSymbol(cs.dl, DCode(t.distCode, dist - 1))
  {
    hide Span;
    assert LengthCodeFor(t.lengthCode[len - 3], t.baseLength[t.lengthCode[len - 3]], len - 3);
  }

  lemma SameDist(t: Tables, cs: Codes, dist: nat)
    requires GoodTables(t) && 1 <= dist <= 0x8000 && DCode(t.distCode, dist - 1) < |cs.dl|
    ensures DistBits(t, Codes([], cs.dl), dist) == DistBits(t, cs, dist)
  {
  }

  lemma LengthExtraLength(t: Tables, lc: nat)
    requires GoodTables(t) && lc < 256
    ensures t.lengthCode[lc] < LENGTH_CODES && LengthExtra(t, lc).n == EXTRA_LBITS[t.lengthCode[lc]]
  {
    hide Span;
    assert LengthCodeFor(t.lengthCode[lc], t.baseLength[t.lengthCode[lc]], lc);
  }

  lemma SymbolItem(t: Tables, cs: Codes, s: Symbol, more: Bits)
    requires GoodTables(t) && GoodCode(LENS, cs.ll) && GoodCode(DISTS, cs.dl) && HasCodes(t, cs, s)
    ensures var b := SymbolBits(t, cs, s);
      ItemAt(cs.ll, cs.dl, Join(b, more).v) == ReadItem(ItemOf(s), b.n) && Shr(Join(b, more).v, b.n) == more.v
  {
    hide Low, Shr, CodeOf, CodeFound, Acceptable, Join, DistAt, LengthBits, DistBits, GoodTables, Flag;
    match s {
      case Literal(c) =>
        CodeReads(LENS, cs.ll, c, more);
        CodeLength(cs.ll, c);
      case Match(dist, len) =>
        LengthItem(t, cs, dist, len, more);
    }
  }

  lemma EndItem(cs: Codes, more: Bits)
    requires GoodCode(LENS, cs.ll) && |cs.dl| <= 32 && HasSymbol(cs.ll, END_BLOCK)
    ensures var b := CodeOf(cs.ll, END_BLOCK);
      ItemAt(cs.ll, cs.dl, Join(b, more).v) == ReadItem(IEnd, b.n) && Shr(Join(b, more).v, b.n) == more.v
  {
    hide Low, Shr, CodeOf, CodeFound, Acceptable, Join, DistAt;
    CodeReads(LENS, cs.ll, END_BLOCK, more);
    CodeLength(cs.ll, END_BLOCK);
  }

  /** One symbol decoded. */
  lemma SymbolRun(c: Setup, s: State, t: Tables, cs: Codes, sym: Symbol, more: Bits)
    requires Ok(s) && s.mode == LEN && s.lcode == cs.ll && s.dcode == cs.dl
    requires GoodTables(t) && GoodCode(LENS, cs.ll) && GoodCode(DISTS, cs.dl) && HasCodes(t, cs, sym)
      && CanApply(s.out, sym)
    requires s.rest == Join(SymbolBits(t, cs, sym), more)
    ensures Leads(c, s, s.(out := Apply(s.out, sym), rest := more))
  {
    hide Ok, Step, Leads, Below, ItemAt, SymbolBits, Acceptable, Copy, HasCodes, GoodTables, Shr, Join;
    SymbolItem(t, cs, sym, more);
    ItemRun(c, s);
    JoinLength(SymbolBits(t, cs, sym), more);
  }

  lemma EndRun(c: Setup, s: State, cs: Codes, more: Bits)
    requires Ok(s) && s.mode == LEN && s.lcode == cs.ll && s.dcode == cs.dl
    requires GoodCode(LENS, cs.ll) && GoodCode(DISTS, cs.dl) && HasSymbol(cs.ll, END_BLOCK)
    requires s.rest == Join(CodeOf(cs.ll, END_BLOCK), more)
    ensures Leads(c, s, s.(mode := TYPE, rest := more))
  {
    hide Ok, Step, Leads, Below, ItemAt, Acceptable, CodeOf, Shr, Join;
    EndItem(cs, more);
    ItemRun(c, s);
    JoinLength(CodeOf(cs.ll, END_BLOCK), more);
  }

  /** A whole block decoded. */
  lemma {:induction false} BlockRun(c: Setup, s: State, t: Tables, cs: Codes, syms: seq<Symbol>, more: Bits,
      text: seq<byte>)
    requires Ok(s) && s.mode == LEN && s.lcode == cs.ll && s.dcode == cs.dl
    requires GoodTables(t) && GoodCode(LENS, cs.ll) && GoodCode(DISTS, cs.dl) && AllCodes(t, cs, syms)
    requires s.rest == Join(BlockBits(t, cs, syms), more) && Extend(s.out, syms) == Decoded(text)
    ensures Leads(c, s, s.(mode := TYPE, out := text, rest := more))
    decreases |syms|
  {
    hide Ok, Step, Leads, Below, SymbolBits, Acceptable, Apply, HasCodes, GoodTables, Join, CodeOf;
    if syms == [] {
      EndRun(c, s, cs, more);
    } else {
      var rest := Join(BlockBits(t, cs, syms[1..]), more);
      JoinAssoc(SymbolBits(t, cs, syms[0]), BlockBits(t, cs, syms[1..]), more);
      var s1 := s.(out := Apply(s.out, syms[0]), rest := rest);
      SymbolRun(c, s, t, cs, syms[0], rest);
      LeadsOk(c, s, s1);
      BlockRun(c, s1, t, cs, syms[1..], more, text);
      LeadsOn(c, s, s1, s.(mode := TYPE, out := text, rest := more));
    }
  }

  /** Length 258 may also be sent as code 284 with extra bits 31; it decodes the same and leaves the same. */
  lemma LongestTwoWays(cs: Codes, more: Bits)
    requires GoodCode(LENS, cs.ll) && |cs.dl| <= 32 && HasSymbol(cs.ll, 284) && HasSymbol(cs.ll, 285)
    ensures var a, b := Join(CodeOf(cs.ll, 284), Bits(31, 5)), CodeOf(cs.ll, 285);
      && ItemAt(cs.ll, cs.dl, Join(a, more).v) == DistAt(cs.dl, more.v, 258, a.n)
      && ItemAt(cs.ll, cs.dl, Join(b, more).v) == DistAt(cs.dl, more.v, 258, b.n)
  {
    hide Low, Shr, CodeOf, CodeFound, Acceptable, Join, DistAt;
    CodeReads(LENS, cs.ll, 284, Join(Bits(31, 5), more));
    CodeReads(LENS, cs.ll, 285, more);
    CodeLength(cs.ll, 284);
    CodeLength(cs.ll, 285);
    JoinAssoc(CodeOf(cs.ll, 284), Bits(31, 5), more);
    JoinLength(CodeOf(cs.ll, 284), Bits(31, 5));
    LengthOp(27);
    LengthOp(28);
    assert Pow2(5) == 32;
    JoinIsFollowed(Bits(31, 5), more);
    FollowedBack(Bits(31, 5), more.v);
    NoExtra(more.v);
  }

  lemma NoExtra(h: nat)
    ensures Low(h, 0) == 0 && Shr(h, 0) == h
  {
  }
}
