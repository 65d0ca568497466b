/**
 Whatever inflate takes to a good end is a stream as the format has it, and its output is what that
 stream means: from a run of steps that ends in DONE the blocks are read back.
 */
module Accepted {
  import opened BitOps
  import opened Canonical
  import opened DecodeTable
  import opened RunLengths
  import opened BitStream
  import opened CodeReading
  import opened CodeLengths
  import opened CodeLookup
  import opened BlockHeader
  import opened LengthCodes
  import opened Lz77
  import opened Blocks
  import opened StaticTrees
  import opened SentBlock
  import opened InflateSpec
  import opened InflateRuns
  import opened InflateFast
  import opened StreamFormat
  import InflateSymbols
  import InflateTable
  import BlockCodes

  // ------------------------------------------------------------------ runs to a good end

  ghost predicate Ends(c: Setup, s: State) {
    Ok(s) && Ending(c, s).mode == DONE
  }

  lemma EndsNext(c: Setup, s: State)
    requires Ends(c, s) && s.mode != DONE
    ensures Step(c, s).Next? && Leads(c, s, Step(c, s).s)
  {
    hide Ok, Step, Below;
    if Step(c, s).Next? {
      LeadsStep(c, s, Step(c, s).s);
    } else {
      FinishEnd(c, s);
    }
  }

  lemma EndsOn(c: Setup, s: State, t: State)
    requires Ends(c, s) && Leads(c, s, t)
    ensures Ends(c, t) && !t.mode.BAD? && t.mode != DICT
  {
    hide Ok, StepHead, StepType, StepDictId, StepStored, StepCopy, StepTable, StepLenLens, StepCodeLens, StepLen,
      StepDist, StepLenExt, StepDistExt, StepMatch, StepLit, StepCheck;
    if t.mode.BAD? || t.mode == DICT { FinishEnd(c, t); }
  }

  /** One step on. */
  lemma EndsStep(c: Setup, s: State, t: State)
    requires Ends(c, s) && s.mode != DONE && (Step(c, s).Next? ==> Step(c, s) == Next(t))
    ensures Step(c, s) == Next(t) && Leads(c, s, t) && Ends(c, t) && !t.mode.BAD? && t.mode != DICT
  {
    hide Ok, Step, Leads, Ending;
    EndsNext(c, s);
    EndsOn(c, s, t);
  }

  // ----------------------------------------------------------------------- one symbol

  lemma TakenJoin(r: Bits, n: nat)
    requires n <= r.n
    ensures r == Join(Bits(Low(r.v, n), n), Bits(Shr(r.v, n), r.n - n))
  {
    Split(r.v, n);
  }

  /** Bits that a code is found in begin with the code of that symbol. */
  lemma SymbolRead(t: CodeType, lens: seq<nat>, r: Bits) returns (ok: bool, s: nat)
    requires GoodCode(t, lens) && CodeFound(t, lens, r.v).bits <= r.n
    ensures !ok ==> CodeFound(t, lens, r.v) == InvalidFound && forall i: nat :: !Matches(lens, i, r.v)
    ensures ok ==> s < |lens| && lens[s] != 0 && CodeFound(t, lens, r.v) == SymbolFound(t, lens, s)
    ensures ok ==> lens[s] <= r.n && r == Join(CodeOf(lens, s), Bits(Shr(r.v, lens[s]), r.n - lens[s]))
  {
    hide Low, Shr, RevCode, Join, SymbolOp, SymbolVal, Pow2, KraftBelow, InflateTable.Acceptable;
    ok, s := false, 0;
    GoodKraft(t, lens);
    if exists i: nat :: Matches(lens, i, r.v) {
      ok := true;
      s :| Matches(lens, s, r.v);
      FoundIs(t, lens, r.v, s);
      TakenJoin(r, lens[s]);
    }
  }

  /** What the entries of literal and length symbols say. */
  lemma LenKinds(s: nat)
    requires s < 288
    ensures var op, val := SymbolOp(LENS, s), SymbolVal(LENS, s);
      && (op == 0 <==> s < 256) && (op == 0 ==> val == s)
      && (op != 0 ==> (BlockCodes.Flag(op, 32) <==> s == 256))
      && (op != 0 && s != 256 ==> (BlockCodes.Flag(op, 64) <==> s >= 286))
      && (257 <= s < 286 ==> op % 16 == EXTRA_LBITS[s - 257] && val == LBASE[s - 257])
  {
    if 257 <= s < 286 {
      BlockCodes.LengthOp(s - 257);
    }
  }

  lemma DistKinds(s: nat)
    requires s < 32
    ensures var op, val := SymbolOp(DISTS, s), SymbolVal(DISTS, s);
      && (BlockCodes.Flag(op, 64) <==> s >= 30)
      && (s < 30 ==> op % 16 == EXTRA_DBITS[s] && val == DBASE[s])
  {
    if s < 30 { BlockCodes.DistOp(s); }
  }

  /** A code and extra bits after it. */
  lemma CodeAndExtra(lens: seq<nat>, r: Bits, s: nat, x: nat) returns (rest: Bits)
    requires s < |lens| && lens[s] + x <= r.n && r == Join(CodeOf(lens, s), Bits(Shr(r.v, lens[s]), r.n - lens[s]))
    ensures var v := Low(Shr(r.v, lens[s]), x);
      && r == Join(Join(CodeOf(lens, s), Bits(v, x)), rest) && v < Pow2(x)
      && rest == Bits(Shr(Shr(r.v, lens[s]), x), r.n - lens[s] - x) == Bits(Shr(r.v, lens[s] + x), r.n - lens[s] - x)
  {
    hide Low, Shr, Shl, RevCode, Join;
    var r1 := Bits(Shr(r.v, lens[s]), r.n - lens[s]);
    TakenJoin(r1, x);
    ShrShr(r.v, lens[s], x);
    rest := Bits(Shr(r1.v, x), r1.n - x);
    JoinAssoc(CodeOf(lens, s), Bits(Low(r1.v, x), x), rest);
  }

  /** The distance that the bits begin with. */
  lemma DistMeans(dl: seq<nat>, r: Bits, len: nat, used: nat) returns (d: nat, dx: nat, rest: Bits)
    requires GoodCode(DISTS, dl) && |dl| <= 32
    requires DistAt(dl, r.v, len, used).item.ICopy? && DistAt(dl, r.v, len, used).used <= used + r.n
    ensures d < D_CODES && d < |dl| && dl[d] != 0 && dx < Pow2(EXTRA_DBITS[d])
    ensures DistAt(dl, r.v, len, used) == ReadItem(ICopy(DBASE[d] + dx, len), used + dl[d] + EXTRA_DBITS[d])
    ensures r == Join(Join(CodeOf(dl, d), Bits(dx, EXTRA_DBITS[d])), rest) && dl[d] + EXTRA_DBITS[d] <= r.n
    ensures rest == Bits(Shr(r.v, dl[d] + EXTRA_DBITS[d]), r.n - dl[d] - EXTRA_DBITS[d])
  {
    hide Low, Shr, Shl, RevCode, Join, CodeFound, BlockCodes.Flag, SymbolOp, SymbolVal, Pow2, GoodCode;
    var ok;
    ok, d := SymbolRead(DISTS, dl, r);
    NotInvalid();
    DistKinds(d);
    rest := CodeAndExtra(dl, r, d, EXTRA_DBITS[d]);
    dx := Low(Shr(r.v, dl[d]), EXTRA_DBITS[d]);
  }

  lemma CodeSize(lens: seq<nat>, s: nat)
    requires s < |lens|
    ensures CodeOf(lens, s).n == lens[s]
  {
  }

  /** The bits begin with this piece, which takes so many of them. */
  ghost predicate Begins(ll: seq<nat>, dl: seq<nat>, r: Bits, p: Piece, used: nat) {
    && GoodPiece(ll, dl, p) && PieceBits(ll, dl, p).n == used <= r.n
    && r == Join(PieceBits(ll, dl, p), Bits(Shr(r.v, used), r.n - used))
  }

  lemma RefBegins(ll: seq<nat>, dl: seq<nat>, r: Bits, p: Piece, a: nat, r2: Bits, b: nat, r4: Bits)
    requires p.Ref? && GoodPiece(ll, dl, p) && a == ll[257 + p.lc] + EXTRA_LBITS[p.lc] <= r.n
    requires b == dl[p.dc] + EXTRA_DBITS[p.dc] <= r2.n
    requires r == Join(Join(CodeOf(ll, 257 + p.lc), Bits(p.lx, EXTRA_LBITS[p.lc])), r2)
    requires r2 == Bits(Shr(r.v, a), r.n - a) == Join(Join(CodeOf(dl, p.dc), Bits(p.dx, EXTRA_DBITS[p.dc])), r4)
    requires r4 == Bits(Shr(r2.v, b), r2.n - b)
    ensures Begins(ll, dl, r, p, a + b)
  {
    hide Shr, RevCode, Join, Pow2, CodeOf;
    var x, y := Join(CodeOf(ll, 257 + p.lc), Bits(p.lx, EXTRA_LBITS[p.lc])),
                Join(CodeOf(dl, p.dc), Bits(p.dx, EXTRA_DBITS[p.dc]));
    JoinAssoc(x, y, r4);
    ShrShr(r.v, a, b);
    CodeSize(ll, 257 + p.lc);
    CodeSize(dl, p.dc);
    JoinSizes(CodeOf(ll, 257 + p.lc), Bits(p.lx, EXTRA_LBITS[p.lc]), CodeOf(dl, p.dc), Bits(p.dx, EXTRA_DBITS[p.dc]));
  }

  /** The literal, length or other symbol first. */
  lemma FirstMeans(ll: seq<nat>, dl: seq<nat>, r: Bits) returns (s: nat)
    requires GoodCode(LENS, ll) && |ll| <= 288 && |dl| <= 32
    requires CodeFound(LENS, ll, r.v).bits <= r.n
    requires ItemAt(ll, dl, r.v).item.ILit? || ItemAt(ll, dl, r.v).item.ICopy?
    ensures s < 286 && s != 256 && s < |ll| && ll[s] != 0 && ll[s] <= r.n
    ensures r == Join(CodeOf(ll, s), Bits(Shr(r.v, ll[s]), r.n - ll[s]))
    ensures s < 256 ==> ItemAt(ll, dl, r.v) == ReadItem(ILit(s), ll[s])
    ensures s >= 256 ==>
      var e, v := EXTRA_LBITS[s - 257], Shr(r.v, ll[s]);
      ItemAt(ll, dl, r.v) == DistAt(dl, Shr(v, e), LBASE[s - 257] + Low(v, e), ll[s] + e)
  {
    hide Low, Shr, Shl, RevCode, Join, CodeFound, BlockCodes.Flag, SymbolOp, SymbolVal, Pow2, GoodCode, DistAt;
    var ok;
    ok, s := SymbolRead(LENS, ll, r);
    NotInvalid();
    LenKinds(s);
  }

  lemma FoundUsed(ll: seq<nat>, dl: seq<nat>, v: nat)
    requires |ll| <= 288 && |dl| <= 32
    ensures CodeFound(LENS, ll, v).bits <= ItemAt(ll, dl, v).used
  {
    hide CodeFound, BlockCodes.Flag;
  }

  lemma DistUsed(dl: seq<nat>, v: nat, len: nat, used: nat)
    requires |dl| <= 32
    ensures used <= DistAt(dl, v, len, used).used && !DistAt(dl, v, len, used).item.ILit?
  {
    hide CodeFound, BlockCodes.Flag;
  }

  /** p is what was read. */
  predicate Stands(p: Piece, item: InflateFast.Item) {
    Named(p) && (item.ILit? ==> Meaning(p) == Literal(item.b))
    && (item.ICopy? ==> Meaning(p) == Match(item.dist, item.len))
  }

  /** A length has been read in a bits; the distance comes next. */
  lemma RefMeans(ll: seq<nat>, dl: seq<nat>, r: Bits, lc: nat, lx: nat, a: nat, r2: Bits, i: ReadItem)
    returns (p: Piece)
    requires GoodCode(DISTS, dl) && |dl| <= 32 && lc < LENGTH_CODES && 257 + lc < |ll| && ll[257 + lc] != 0
    requires a == ll[257 + lc] + EXTRA_LBITS[lc] <= r.n && lx < Pow2(EXTRA_LBITS[lc])
    requires r == Join(Join(CodeOf(ll, 257 + lc), Bits(lx, EXTRA_LBITS[lc])), r2) && r2 == Bits(Shr(r.v, a), r.n - a)
    requires i == DistAt(dl, r2.v, LBASE[lc] + lx, a) && i.item.ICopy? && i.used <= r.n
    ensures Begins(ll, dl, r, p, i.used) && Stands(p, i.item)
  {
    hide Low, Shr, Shl, CodeOf, Join, CodeFound, DistAt, Pow2, GoodCode, Begins;
    var d, dx, r4 := DistMeans(dl, r2, LBASE[lc] + lx, a);
    p := Ref(lc, lx, d, dx);
    RefBegins(ll, dl, r, p, a, r2, dl[d] + EXTRA_DBITS[d], r4);
  }

  /** A length symbol first. */
  lemma LengthMeans(ll: seq<nat>, dl: seq<nat>, r: Bits, s: nat, i: ReadItem) returns (p: Piece)
    requires GoodCode(DISTS, dl) && |dl| <= 32 && 256 < s < 286 && s < |ll| && ll[s] != 0 && ll[s] <= r.n
    requires r == Join(CodeOf(ll, s), Bits(Shr(r.v, ll[s]), r.n - ll[s])) && i.item.ICopy? && i.used <= r.n
    requires var e, v := EXTRA_LBITS[s - 257], Shr(r.v, ll[s]);
      i == DistAt(dl, Shr(v, e), LBASE[s - 257] + Low(v, e), ll[s] + e)
    ensures Begins(ll, dl, r, p, i.used) && Stands(p, i.item)
  {
    hide Low, Shr, Shl, CodeOf, Join, CodeFound, DistAt, Pow2, GoodCode, Begins, Stands, BlockCodes.Flag;
    var lc, e, v := s - 257, EXTRA_LBITS[s - 257], Shr(r.v, ll[s]);
    DistUsed(dl, Shr(v, e), LBASE[lc] + Low(v, e), ll[s] + e);
    var r2 := CodeAndExtra(ll, r, s, e);
    ShrShr(r.v, ll[s], e);
    ExtraFits(v, e);
    p := RefMeans(ll, dl, r, lc, Low(v, e), ll[s] + e, r2, i);
  }

  lemma ExtraFits(v: nat, e: nat)
    ensures Low(v, e) < Pow2(e)
  {
  }

  /** The piece that the bits begin with. */
  lemma PieceMeans(ll: seq<nat>, dl: seq<nat>, r: Bits, i: ReadItem) returns (p: Piece)
    requires GoodCode(LENS, ll) && GoodCode(DISTS, dl) && |ll| <= 288 && |dl| <= 32
    requires i == ItemAt(ll, dl, r.v) && (i.item.ILit? || i.item.ICopy?) && i.used <= r.n
    ensures Begins(ll, dl, r, p, i.used) && Stands(p, i.item)
  {
    hide Low, Shr, Shl, CodeOf, Join, CodeFound, ItemAt, DistAt, Pow2, GoodCode;
    FoundUsed(ll, dl, r.v);
    var s := FirstMeans(ll, dl, r);
    CodeSize(ll, s);
    if s < 256 {
      p := Lit(s);
    } else {
      var e, v := EXTRA_LBITS[s - 257], Shr(r.v, ll[s]);
      DistUsed(dl, Shr(v, e), LBASE[s - 257] + Low(v, e), ll[s] + e);
      p := LengthMeans(ll, dl, r, s, i);
    }
  }

  lemma NotInvalid()
    ensures BlockCodes.Flag(64, 64) && !BlockCodes.Flag(64, 32)
  {
  }

  lemma JoinSizes(a: Bits, b: Bits, c: Bits, d: Bits)
    ensures Join(Join(a, b), Join(c, d)).n == a.n + b.n + c.n + d.n
  {
  }

  // -------------------------------------------------------------------- the pieces of a block

  /** Before a good end a distance is not starved. */
  lemma DistCovered(c: Setup, s: State)
    requires Ends(c, s) && s.mode == DIST && |s.dcode| <= 32
    ensures var g := CodeFound(DISTS, s.dcode, s.rest.v);
      g.bits <= s.rest.n && (BlockCodes.Flag(g.op, 64) || g.bits + g.op % 16 <= s.rest.n)
  {
    hide Ok, Step, Leads, Ending, CodeFound, Low, Shr, BlockCodes.Flag, Pow2, Finish;
    var g := CodeFound(DISTS, s.dcode, s.rest.v);
    EndsNext(c, s);
    InflateSymbols.DistHeld(c, s);
    InflateSymbols.DistStep(c, s, g);
    if !BlockCodes.Flag(g.op, 64) {
      var t := Take(s, g.bits).(offset := g.val, extra := g.op % 16, mode := DISTEXT);
      EndsStep(c, s, t);
      EndsNext(c, t);
      InflateSymbols.ExtHeld(c, t);
    }
  }

  lemma LengthCovered(c: Setup, s: State)
    requires Ends(c, s) && s.mode == LEN && |s.lcode| <= 288
    ensures var f := CodeFound(LENS, s.lcode, s.rest.v);
      f.bits <= s.rest.n && (IsLength(f.op) ==> f.bits + f.op % 16 <= s.rest.n)
  {
    hide Ok, Step, Leads, Ending, CodeFound, Low, Shr, BlockCodes.Flag, Pow2, Finish;
    var f := CodeFound(LENS, s.lcode, s.rest.v);
    EndsNext(c, s);
    InflateSymbols.LenHeld(c, s);
    InflateSymbols.LenStep(c, s, f);
    if IsLength(f.op) {
      var t := Take(s, f.bits).(length := f.val, mode := LENEXT, extra := f.op % 16);
      EndsStep(c, s, t);
      EndsNext(c, t);
      InflateSymbols.ExtHeld(c, t);
    }
  }

  /** Nor is a whole symbol. */
  lemma ItemCovered(c: Setup, s: State)
    requires Ends(c, s) && s.mode == LEN && |s.lcode| <= 288 && |s.dcode| <= 32
    ensures ItemAt(s.lcode, s.dcode, s.rest.v).used <= s.rest.n
  {
    hide Ok, Step, Leads, Ending, CodeFound, Low, Shr, BlockCodes.Flag, Pow2, Finish, Below;
    var f := CodeFound(LENS, s.lcode, s.rest.v);
    LengthCovered(c, s);
    if IsLength(f.op) {
      var t := LengthRun(c, s);
      EndsOn(c, s, t);
      DistCovered(c, t);
      ShrShr(s.rest.v, f.bits, f.op % 16);
    }
  }

  /** One symbol on: a piece, or the end of the block. */
  lemma ItemEnds(c: Setup, s: State, i: ReadItem)
    requires Ends(c, s) && s.mode == LEN && |s.lcode| <= 288 && |s.dcode| <= 32
      && i == ItemAt(s.lcode, s.dcode, s.rest.v)
    ensures i.used <= s.rest.n && (i.item.IEnd? || i.item.ILit? || (i.item.ICopy? && 1 <= i.item.dist <= |s.out|))
    ensures Leads(c, s, AfterItem(s, i)) && Ends(c, AfterItem(s, i)) && Below(AfterItem(s, i), s)
  {
    hide Ok, Step, Leads, Ending, ItemAt, Below, Copy;
    ItemCovered(c, s);
    ItemRun(c, s);
    EndsOn(c, s, AfterItem(s, i));
  }

  lemma BlockSizes(s: State)
    requires Ok(s) && s.mode == LEN
    ensures GoodCode(LENS, s.lcode) && GoodCode(DISTS, s.dcode) && |s.lcode| <= 288 && |s.dcode| <= 32
  {
    hide InflateTable.Acceptable;
  }

  lemma EndFirst(ll: seq<nat>, dl: seq<nat>, r: Bits)
    requires GoodCode(LENS, ll) && |ll| <= 288 && |dl| <= 32
    requires ItemAt(ll, dl, r.v).item.IEnd? && ItemAt(ll, dl, r.v).used <= r.n
    ensures 256 < |ll| && ll[256] != 0 && ItemAt(ll, dl, r.v).used == ll[256]
    ensures r == Join(CodeOf(ll, 256), Bits(Shr(r.v, ll[256]), r.n - ll[256]))
  {
    hide Low, Shr, Shl, RevCode, Join, CodeFound, BlockCodes.Flag, SymbolOp, SymbolVal, Pow2, GoodCode;
    FoundUsed(ll, dl, r.v);
    var ok, s := SymbolRead(LENS, ll, r);
    NotInvalid();
    LenKinds(s);
  }

  lemma PieceFirst(ll: seq<nat>, dl: seq<nat>, p: Piece, rest: seq<Piece>)
    requires GoodPiece(ll, dl, p) && GoodPieces(ll, dl, rest)
    ensures GoodPieces(ll, dl, [p] + rest)
    ensures PiecesBits(ll, dl, [p] + rest) == Join(PieceBits(ll, dl, p), PiecesBits(ll, dl, rest))
  {
    hide GoodPiece, PieceBits, Join;
    assert ([p] + rest)[1..] == rest;
  }

  lemma AfterFirst(out: seq<byte>, p: Piece, rest: seq<Piece>)
    requires Named(p) && CanApply(out, Meaning(p))
    ensures AfterPieces(out, [p] + rest) == AfterPieces(Apply(out, Meaning(p)), rest)
  {
    hide Apply, Meaning;
    assert ([p] + rest)[1..] == rest;
  }

  /** The pieces of a block that was taken to its end. */
  lemma {:induction false} PiecesMean(c: Setup, s: State) returns (ps: seq<Piece>, d: State)
    requires Ends(c, s) && s.mode == LEN
    ensures GoodPieces(s.lcode, s.dcode, ps) && s.rest == Join(PiecesBits(s.lcode, s.dcode, ps), d.rest)
    ensures AfterPieces(s.out, ps) == Decoded(d.out)
    ensures Leads(c, s, d) && Ends(c, d) && d.mode == TYPE && d.last == s.last && d.rest.n < s.rest.n
    decreases s.rest.n
  {
    hide Ok, Step, Leads, Ending, ItemAt, Below, Copy, Join, PieceBits, GoodPiece, GoodCode, CodeOf, Shr;
    BlockSizes(s);
    var i := ItemAt(s.lcode, s.dcode, s.rest.v);
    ItemEnds(c, s, i);
    var s1 := AfterItem(s, i);
    if i.item.IEnd? {
      EndFirst(s.lcode, s.dcode, s.rest);
      ps, d := [], s1;
    } else {
      var p := PieceMeans(s.lcode, s.dcode, s.rest, i);
      PieceSize(s.lcode, s.dcode, p);
      var more;
      more, d := PiecesMean(c, s1);
      ps := [p] + more;
      PieceFirst(s.lcode, s.dcode, p, more);
      AfterFirst(s.out, p, more);
      JoinAssoc(PieceBits(s.lcode, s.dcode, p), PiecesBits(s.lcode, s.dcode, more), d.rest);
      LeadsOn(c, s, s1, d);
    }
  }

  lemma PieceSize(ll: seq<nat>, dl: seq<nat>, p: Piece)
    requires GoodPiece(ll, dl, p)
    ensures PieceBits(ll, dl, p).n > 0
  {
    hide RevCode;
  }
}
