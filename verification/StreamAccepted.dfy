/**
 Blocks and whole streams that inflate has taken to a good end, read back from the run: soundness of
 STREAM_END (zlib/inflate.c:658-935 and 1206-1260).
 */
module StreamAccepted {
  import opened BitOps
  import opened BitStream
  import opened CodeReading
  import opened Lz77
  import opened Blocks
  import opened BlockHeader
  import opened StaticTrees
  import opened SentBlock
  import opened InflateSpec
  import opened InflateRuns
  import opened StreamFormat
  import opened Accepted
  import opened HeaderAccepted
  import InflateHeader
  import CodeLengths
  import CodeLookup
  import LengthCodes
  import RunLengths
  import RoundTrip
  import Adler32

  // ------------------------------------------------------------------- a stored block

  /** The bytes of a stored block that was copied to its end. */
  lemma {:induction false} CopyMeans(c: Setup, s: State) returns (data: seq<byte>, t: State)
    requires Ends(c, s) && s.mode == COPY
    ensures |data| == s.length && s.rest == Join(BytesBits(data), t.rest) && t.rest.n <= s.rest.n
    ensures t == s.(mode := TYPE, length := 0, out := s.out + data, rest := t.rest)
    ensures Leads(c, s, t) && Ends(c, t)
    decreases s.length
  {
    hide Ok, Step, Leads, Ending, Below, Finish, Join, BytesBits, Low, Shr;
    EndsNext(c, s);
    InflateHeader.CopyHeld(c, s);
    var s1 := Step(c, s).s;
    EndsOn(c, s, s1);
    if s.length == 0 {
      data, t := [], s1;
      NoData(s.rest);
      assert s.out + data == s.out;
    } else {
      var b := CopyStep(c, s);
      data, t := CopyMeans(c, s1);
      LeadsOn(c, s, s1, t);
      OneByteMore(b, data, t.rest);
      assert s.out + ([b] + data) == (s.out + [b]) + data;
      data := [b] + data;
    }
  }

  lemma NoData(r: Bits)
    ensures r == Join(BytesBits([]), r)
  {
    JoinNone(r);
  }

  lemma CopyStep(c: Setup, s: State) returns (b: byte)
    requires Ok(s) && s.mode == COPY && s.length > 0 && s.rest.n >= 8
    ensures Step(c, s).Next?
    ensures var t := Step(c, s).s;
      t == s.(length := s.length - 1, out := s.out + [b], rest := t.rest) && s.rest == Join(Bits(b, 8), t.rest)
      && t.rest.n < s.rest.n
  {
    hide Ok, Step, Join, Low, Shr, Pow2;
    AtCopy(c, s);
    Pow2Byte();
    Split(s.rest.v, 8);
    b := Low(s.rest.v, 8);
    TakenJoin(s.rest, 8);
  }

  lemma OneByteMore(b: byte, data: seq<byte>, r: Bits)
    ensures Join(BytesBits([b] + data), r) == Join(Bits(b, 8), Join(BytesBits(data), r))
  {
    hide BytesBits, Join;
    BytesJoin([b], data);
    OneByte(b);
    JoinAssoc(Bits(b, 8), BytesBits(data), r);
  }

  /** A number that is the complement of another says what that one is. */
  lemma ComplementOf(a: nat, b: nat)
    requires a < 0x10000 && a == Xor(b, 0xffff)
    ensures b == 0xffff - a
  {
    hide Xor;
    Complement(a);
    XorComm(b, 0xffff);
    XorComm(0xffff - a, 0xffff);
    XorCancel(0xffff, b, 0xffff - a);
  }

  /** The two lengths of a stored block, at a byte boundary. */
  lemma SizesMean(c: Setup, s: State) returns (t: State)
    requires Ends(c, s) && s.mode == STORED && s.rest.n % 8 == 0
    ensures t.length < 0x10000 && t == s.(length := t.length, mode := COPY, rest := t.rest)
    ensures s.rest == Join(Bits(t.length, 16), Join(Bits(0xffff - t.length, 16), t.rest)) && t.rest.n < s.rest.n
    ensures Leads(c, s, t) && Ends(c, t)
  {
    hide Ok, Step, Leads, Ending, Below, Finish, Join, Low, Shr, Xor, StepStored;
    EndsNext(c, s);
    t := Step(c, s).s;
    EndsOn(c, s, t);
    AtStored(c, s);
    InflateHeader.StoredHeld(c, s);
    InflateHeader.StoredSteps(s);
    SixteenLow(s.rest.v);
    ComplementOf(Low(s.rest.v, 16), Low(Shr(s.rest.v, 16), 16));
    TakenJoin(s.rest, 16);
    var r1 := Bits(Shr(s.rest.v, 16), s.rest.n - 16);
    TakenJoin(r1, 16);
    ShrShr(s.rest.v, 16, 16);
  }

  lemma SixteenLow(v: nat)
    ensures Low(v, 16) < 0x10000
  {
    hide Low, Pow2;
    Pow2Short();
    LowBelow(v, 16);
  }

  lemma LowBelow(v: nat, n: nat)
    ensures Low(v, n) < Pow2(n)
  {
  }

  lemma FillerIs(p: nat, n: nat, v: nat)
    requires (p + n) % 8 == 0
    ensures Filler(p, Low(v, n % 8)) == Bits(Low(v, n % 8), n % 8) && Proper(Filler(p, Low(v, n % 8)))
  {
    hide Low, Pow2;
    LowBelow(v, n % 8);
  }

  /** A stored block after its type. */
  lemma StoredMeans(c: Setup, s: State, p: nat) returns (pad: nat, data: seq<byte>, t: State)
    requires Ends(c, s) && s.mode == STORED && (p + s.rest.n) % 8 == 0
    ensures Proper(Filler(p, pad)) && |data| < 0x10000
    ensures var sizes := Join(Bits(|data|, 16), Join(Bits(0xffff - |data|, 16), BytesBits(data)));
      s.rest == Join(Join(Filler(p, pad), sizes), t.rest)
    ensures t == s.(mode := TYPE, length := 0, out := s.out + data, rest := t.rest) && t.rest.n < s.rest.n
    ensures Leads(c, s, t) && Ends(c, t)
  {
    hide Ok, Step, Leads, Ending, Below, Finish, Join, BytesBits, Low, Shr, Proper, Filler;
    var k := s.rest.n % 8;
    pad := Low(s.rest.v, k);
    FillerIs(p, s.rest.n, s.rest.v);
    TakenJoin(s.rest, k);
    var s1 := Take(s, k);
    InflateHeader.StoredAligned(c, s, s1);
    EndsOn(c, s, s1);
    var s2 := SizesMean(c, s1);
    LeadsOn(c, s, s1, s2);
    data, t := CopyMeans(c, s2);
    LeadsOn(c, s, s2, t);
    var a, b, d := Bits(|data|, 16), Bits(0xffff - |data|, 16), BytesBits(data);
    JoinAssoc(b, d, t.rest);
    JoinAssoc(a, Join(b, d), t.rest);
    JoinAssoc(Filler(p, pad), Join(a, Join(b, d)), t.rest);
  }

  // ----------------------------------------------------------------------- any block

  /** The three bits before a block. */
  lemma TypeMeans(c: Setup, s: State) returns (kind: nat, last: bool, t: State)
    requires Ends(c, s) && s.mode == TYPE && !s.last
    ensures kind < 3 && s.rest == Join(BlockType(kind, last), t.rest) && s.rest.n == 3 + t.rest.n
    ensures t == RoundTrip.Entered(s, kind, last, t.rest)
    ensures Leads(c, s, t) && Ends(c, t)
  {
    hide Ok, Step, StepType, Leads, Ending, Below, Finish, Join, Low, Shr, StaticLit, FixedDist, BlockType;
    EndsNext(c, s);
    t := Step(c, s).s;
    EndsOn(c, s, t);
    AtType(c, s);
    InflateHeader.TypeHeld(c, s);
    last, kind := Low(s.rest.v, 1) == 1, Low(Shr(s.rest.v, 1), 2);
    InflateHeader.TypeSteps(s, last, kind);
    ThreeBits(s.rest.v, kind, last);
    TakenJoin(s.rest, 3);
    assert t.rest == Bits(Shr(s.rest.v, 3), s.rest.n - 3);
  }

  lemma ThreeBits(v: nat, kind: nat, last: bool)
    requires last == (Low(v, 1) == 1) && kind == Low(Shr(v, 1), 2)
    ensures kind < 4 && Bits(Low(v, 3), 3) == BlockType(kind, last)
  {
    assert Pow2(2) == 4 && Pow2(1) == 2;
    hide Low, Shr, Pow2;
    LowAdd(v, 1, 2);
    LowBelow(v, 1);
    LowBelow(Shr(v, 1), 2);
  }

  /** A block of any kind. */
  lemma SectionMeans(c: Setup, s: State, p: nat) returns (b: Section, t: State)
    requires Ends(c, s) && s.mode == TYPE && !s.last && (p + s.rest.n) % 8 == 0
    ensures GoodSection(c, b, p) && s.rest == Join(SectionBits(c, b, p, t.last), t.rest) && t.rest.n < s.rest.n
    ensures AfterSection(s.out, b) == Decoded(t.out)
    ensures Leads(c, s, t) && Ends(c, t) && t.mode == TYPE
  {
    hide Ok, Step, Leads, Ending, Below, Finish, Join, StaticLit, FixedDist, BlockType, BytesBits, PiecesBits,
      GoodPieces, GoodHeading, HeadingBits, AfterPieces, Proper, Filler;
    var kind, last, s1 := TypeMeans(c, s);
    var head := BlockType(kind, last);
    if kind == 0 {
      var pad, data;
      pad, data, t := StoredMeans(c, s1, p + 3);
      b := Plain(pad, data);
      var sizes := Join(Bits(|data|, 16), Join(Bits(0xffff - |data|, 16), BytesBits(data)));
      JoinAssoc(head, Join(Filler(p + 3, pad), sizes), t.rest);
    } else if kind == 1 {
      var ps;
      ps, t := PiecesMean(c, s1);
      b := Fixed(ps);
      JoinAssoc(head, PiecesBits(StaticLit(), FixedDist(), ps), t.rest);
    } else {
      var h, s2 := HeaderMeans(c, s1);
      var ps;
      ps, t := PiecesMean(c, s2);
      LeadsOn(c, s1, s2, t);
      b := Dynamic(h, ps);
      HeadingSized(c, h);
      DynamicMeans(c, s1.rest, h, ps, s2.rest, t.rest);
      JoinAssoc(head, Join(HeadingBits(h), PiecesBits(h.lit, h.dist, ps)), t.rest);
    }
    LeadsOn(c, s, s1, t);
  }

  lemma HeadingSized(c: Setup, h: Header)
    requires GoodHeading(c, h)
    ensures GoodSizes(h) && CodeLengths.HaveCodes(h.short, h.tokens)
  {
    hide CodeLookup.Builds, CodeLookup.GoodCode, CodeLengths.HaveCodes;
  }

  lemma DynamicMeans(c: Setup, r: Bits, h: Header, ps: seq<Piece>, r1: Bits, r2: Bits)
    requires GoodHeading(c, h) && GoodPieces(h.lit, h.dist, ps)
    requires r == Join(HeadingBits(h), r1) && r1 == Join(PiecesBits(h.lit, h.dist, ps), r2)
    ensures r == Join(Join(HeadingBits(h), PiecesBits(h.lit, h.dist, ps)), r2)
  {
    hide Join, HeadingBits, PiecesBits;
    JoinAssoc(HeadingBits(h), PiecesBits(h.lit, h.dist, ps), r2);
  }

  /** All the blocks. */
  lemma {:induction false} SectionsMean(c: Setup, s: State, p: nat) returns (bs: seq<Section>, t: State)
    requires Ends(c, s) && s.mode == TYPE && !s.last && (p + s.rest.n) % 8 == 0
    ensures GoodSections(c, bs, p) && s.rest == Join(SectionsBits(c, bs, p), t.rest)
    ensures AfterSections(s.out, bs) == Decoded(t.out)
    ensures Leads(c, s, t) && Ends(c, t) && t.mode == TYPE && t.last
    decreases s.rest.n
  {
    hide Ok, Step, Leads, Ending, Below, Finish, Join, GoodSection, SectionBits, AfterSection;
    var b, s1 := SectionMeans(c, s, p);
    if s1.last {
      bs, t := [b], s1;
      OneSection(c, b, p, s.out);
    } else {
      var first := SectionBits(c, b, p, false);
      JoinLength(first, s1.rest);
      var more;
      more, t := SectionsMean(c, s1, p + first.n);
      bs := [b] + more;
      SectionFirst(c, b, more, p, s.out, s1.out);
      LeadsOn(c, s, s1, t);
      JoinAssoc(first, SectionsBits(c, more, p + first.n), t.rest);
    }
  }

  lemma OneSection(c: Setup, b: Section, p: nat, out: seq<byte>)
    requires GoodSection(c, b, p)
    ensures GoodSections(c, [b], p) && SectionsBits(c, [b], p) == SectionBits(c, b, p, true)
    ensures AfterSection(out, b).Decoded? ==> AfterSections(out, [b]) == AfterSection(out, b)
  {
    hide GoodSection, SectionBits, AfterSection;
    assert [b][1..] == [];
  }

  lemma SectionFirst(c: Setup, b: Section, more: seq<Section>, p: nat, out: seq<byte>, mid: seq<byte>)
    requires GoodSection(c, b, p) && GoodSections(c, more, p + SectionBits(c, b, p, false).n)
    requires AfterSection(out, b) == Decoded(mid)
    ensures GoodSections(c, [b] + more, p) && AfterSections(out, [b] + more) == AfterSections(mid, more)
    ensures var first := SectionBits(c, b, p, false);
      SectionsBits(c, [b] + more, p) == Join(first, SectionsBits(c, more, p + first.n))
  {
    hide GoodSection, SectionBits, AfterSection, Join;
    assert ([b] + more)[1..] == more;
  }

  // ---------------------------------------------------------------------- whole streams

  /** Up to the byte boundary after the last block. */
  lemma LastMeans(c: Setup, s: State, q: nat) returns (pad: nat, t: State)
    requires Ends(c, s) && s.mode == TYPE && s.last && (q + s.rest.n) % 8 == 0
    ensures Proper(Filler(q, pad)) && s.rest == Join(Filler(q, pad), t.rest)
    ensures t == s.(mode := CHECK, rest := t.rest) && t.rest.n % 8 == 0
    ensures Leads(c, s, t) && Ends(c, t)
  {
    hide Ok, Step, StepType, Leads, Ending, Below, Finish, Join, Low, Shr, Proper, Filler;
    EndsNext(c, s);
    t := Step(c, s).s;
    EndsOn(c, s, t);
    AtType(c, s);
    InflateHeader.LastStep(s);
    pad := Low(s.rest.v, s.rest.n % 8);
    FillerIs(q, s.rest.n, s.rest.v);
    TakenJoin(s.rest, s.rest.n % 8);
  }

  /** Four bytes that spell a number backwards are the bytes written for it. */
  lemma {:induction false} TrailerIs(v: nat, x: nat)
    requires v < Pow2(32) && Swap32(v) == x
    ensures Bits(v, 32) == BytesBits(RoundTrip.AdlerBytes(x))
  {
    hide Swap32, Low, Shr, Shl, Load, Pow2;
    Pow2Byte();
    var b0, b1, b2, b3 := Low(v, 8), Low(Shr(v, 8), 8), Low(Shr(v, 16), 8), Low(Shr(v, 24), 8);
    LowBelow(v, 8);
    LowBelow(Shr(v, 8), 8);
    LowBelow(Shr(v, 16), 8);
    LowBelow(Shr(v, 24), 8);
    FourBytes(v);
    RoundTrip.SwapFour(b0, b1, b2, b3);
    BytesBack(b0, b1, b2, b3, x);
  }

  /** A number of 32 bits is its four bytes. */
  lemma {:induction false} FourBytes(v: nat)
    requires v < Pow2(32)
    ensures Pow2(8) == 256
    ensures Low(v, 8) < 256 && Low(Shr(v, 8), 8) < 256 && Low(Shr(v, 16), 8) < 256 && Low(Shr(v, 24), 8) < 256
    ensures v == Load([Low(v, 8), Low(Shr(v, 8), 8), Low(Shr(v, 16), 8), Low(Shr(v, 24), 8)])
  {
    hide Low, Shr, Shl, Load, Pow2;
    Pow2Byte();
    LowBelow(v, 8);
    LowBelow(Shr(v, 8), 8);
    LowBelow(Shr(v, 16), 8);
    LowBelow(Shr(v, 24), 8);
    RoundTrip.LoadFour(Low(v, 8), Low(Shr(v, 8), 8), Low(Shr(v, 16), 8), Low(Shr(v, 24), 8));
    Split(v, 8);
    Split(Shr(v, 8), 8);
    Split(Shr(v, 16), 8);
    ShrShr(v, 8, 8);
    ShrShr(v, 16, 8);
    ShrBound(v, 24, 8);
    LowSmall(Shr(v, 24), 8);
  }

  /** The bytes of the number that four bytes spell backwards. */
  lemma {:induction false} BytesBack(b0: byte, b1: byte, b2: byte, b3: byte, x: nat)
    requires x == Shl(b0, 24) + Shl(b1, 16) + Shl(b2, 8) + b3
    ensures RoundTrip.AdlerBytes(x) == [b0, b1, b2, b3]
  {
    hide Low, Shr, Shl, Pow2;
    Pow2Byte();
    var u: nat := Shl(b0, 8) + b1;
    var w: nat := Shl(u, 8) + b2;
    ShlAdd(Shl(b0, 8), b1, 8);
    ShlShl(b0, 8, 8);
    ShlAdd(Shl(u, 8), b2, 8);
    ShlAdd(Shl(b0, 16), Shl(b1, 8), 8);
    ShlShl(b0, 16, 8);
    ShlShl(b1, 8, 8);
    assert x == Shl(w, 8) + b3;
    SplitUnique(w, b3, 8);
    SplitUnique(u, b2, 8);
    SplitUnique(b0, b1, 8);
    ShrShr(x, 8, 8);
    ShrShr(x, 16, 8);
    LowSmall(b0, 8);
  }

  /** The check, or nothing. */
  lemma CheckMeans(c: Setup, s: State) returns (t: State)
    requires Ends(c, s) && s.mode == CHECK
    ensures s.rest == Join(TrailerBits(c, s.out), t.rest) && t == s.(mode := DONE, rest := t.rest)
    ensures Leads(c, s, t) && Ends(c, t)
  {
    hide Ok, Step, Leads, Ending, Below, Finish, Join, Low, Shr, Swap32, Adler32.Check, RoundTrip.AdlerBytes, BytesBits;
    EndsNext(c, s);
    t := Step(c, s).s;
    EndsOn(c, s, t);
    InflateHeader.CheckHeld(c, s);
    if c.zlib {
      LowBelow(s.rest.v, 32);
      TrailerIs(Low(s.rest.v, 32), Adler32.Check(1, s.out));
      TakenJoin(s.rest, 32);
    } else {
      JoinNone(s.rest);
    }
  }

  /** What inflate looks at in the first two bytes. */
  lemma {:induction false} WrapperFields(v: nat)
    requires var h := Low(v, 16); !HeaderFails(h) && Low(h, 4) == 8 && Low(Shr(v, 4), 4) <= 7 && Shr(h, 13) % 2 != 1
    ensures Low(v, 8) < 256 && Low(Shr(v, 8), 8) < 256 && GoodWrapper(Low(v, 8), Low(Shr(v, 8), 8))
    ensures Bits(Low(v, 16), 16) == BytesBits([Low(v, 8), Low(Shr(v, 8), 8)])
  {
    hide Shl, Shr, Low, Pow2, BytesBits;
    var h, w := Low(v, 16), Low(Shr(v, 4), 4);
    ShortBytes(v);
    LowLow(v, 8, 8);
    LowLow(v, 4, 12);
    RoundTrip.TimesByte(Low(v, 8));
    LowAdd(v, 4, 4);
    Adler32.ShlTimes(w, 4);
    Sixteen();
    ShrShr(h, 8, 5);
    RoundTrip.ThirtyTwo(Low(Shr(v, 8), 8));
  }

  lemma Sixteen()
    ensures Pow2(4) == 16
  {
  }

  /** The two bytes of a zlib stream, or nothing. */
  lemma HeadMeans(c: Setup, s: State) returns (b0: byte, b1: byte, t: State)
    requires Ends(c, s) && s.mode == HEAD
    ensures c.zlib ==> GoodWrapper(b0, b1)
    ensures s.rest == Join(if c.zlib then BytesBits([b0, b1]) else NoBits, t.rest)
    ensures t == s.(mode := TYPE, rest := t.rest) && Leads(c, s, t) && Ends(c, t)
  {
    hide Ok, Step, Leads, Ending, Below, Finish, Join, Low, Shr, BytesBits, HeaderFails, GoodWrapper;
    EndsNext(c, s);
    t := Step(c, s).s;
    EndsOn(c, s, t);
    AtHead(c, s);
    b0, b1 := 0, 0;
    if c.zlib {
      if t.mode == DICTID {
        EndsNext(c, t);
        InflateHeader.DictIdHeld(c, t);
        EndsOn(c, t, Step(c, t).s);
      }
      WrapperFields(s.rest.v);
      b0, b1 := Low(s.rest.v, 8), Low(Shr(s.rest.v, 8), 8);
      TakenJoin(s.rest, 16);
    } else {
      JoinNone(s.rest);
    }
  }

  /** The stream that a good end has been reached on. */
  lemma StreamMeans(c: Setup, bytes: seq<byte>) returns (st: Stream)
    requires Ends(c, Opened(bytes))
    ensures var e := Ending(c, Opened(bytes));
      GoodStream(c, st, e.out) && BytesBits(bytes) == Join(StreamBits(c, st, e.out), e.rest)
  {
    hide Ok, Leads, Ending, Below, Finish, Join, BytesBits, GoodWrapper, GoodSections, SectionsBits, AfterSections,
      Proper, Filler, Adler32.Check, RoundTrip.AdlerBytes, TrailerBits;
    var s := Opened(bytes);
    var b0, b1, s1 := HeadMeans(c, s);
    var head := if c.zlib then BytesBits([b0, b1]) else NoBits;
    RoundTrip.BytesAre(bytes);
    JoinLength(head, s1.rest);
    var bs, s2 := SectionsMean(c, s1, head.n);
    LeadsOn(c, s, s1, s2);
    var body := SectionsBits(c, bs, head.n);
    JoinLength(body, s2.rest);
    var pad, s3 := LastMeans(c, s2, head.n + body.n);
    LeadsOn(c, s, s2, s3);
    var s4 := CheckMeans(c, s3);
    LeadsOn(c, s, s3, s4);
    st := Stream(b0, b1, bs, pad);
    LeadsOk(c, s, s4);
    RoundTrip.EndAtDone(c, s4);
    var filler, trailer := Filler(head.n + body.n, pad), TrailerBits(c, s3.out);
    JoinAssoc(filler, trailer, s4.rest);
    JoinAssoc(body, Join(filler, trailer), s4.rest);
    JoinAssoc(head, Join(body, Join(filler, trailer)), s4.rest);
  }

  // ------------------------------------------------------------------ exactly that many bits

  lemma PieceProper(ll: seq<nat>, dl: seq<nat>, p: Piece)
    requires GoodPiece(ll, dl, p)
    ensures Proper(PieceBits(ll, dl, p))
  {
    hide Pow2, Join, CodeOf;
    if p.Ref? {
      var a, x := CodeOf(ll, 257 + p.lc), Bits(p.lx, LengthCodes.EXTRA_LBITS[p.lc]);
      var b, y := CodeOf(dl, p.dc), Bits(p.dx, LengthCodes.EXTRA_DBITS[p.dc]);
      JoinProper(a, x);
      JoinProper(b, y);
      JoinProper(Join(a, x), Join(b, y));
    }
  }

  lemma {:induction false} PiecesProper(ll: seq<nat>, dl: seq<nat>, ps: seq<Piece>)
    requires GoodPieces(ll, dl, ps)
    ensures Proper(PiecesBits(ll, dl, ps))
    decreases |ps|
  {
    hide Pow2, Join, PieceBits, GoodPiece, Proper;
    if ps != [] {
      PieceProper(ll, dl, ps[0]);
      PiecesProper(ll, dl, ps[1..]);
      JoinProper(PieceBits(ll, dl, ps[0]), PiecesBits(ll, dl, ps[1..]));
    }
  }

  lemma {:induction false} TokensProper(bl: seq<nat>, ts: seq<RunLengths.Token>)
    requires CodeLengths.HaveCodes(bl, ts)
    ensures Proper(CodeLengths.TokensBits(bl, ts))
    decreases |ts|
  {
    hide Join, CodeLengths.TokenBits, CodeLengths.HasCode;
    if ts != [] {
      TokenProper(bl, ts[0]);
      TokensProper(bl, ts[1..]);
      JoinProper(CodeLengths.TokenBits(bl, ts[0]), CodeLengths.TokensBits(bl, ts[1..]));
    }
  }

  lemma TokenProper(bl: seq<nat>, t: RunLengths.Token)
    requires CodeLengths.HasCode(bl, t)
    ensures Proper(CodeLengths.TokenBits(bl, t))
  {
    assert Pow2(0) == 1 && Pow2(2) == 4 && Pow2(3) == 8 && Pow2(7) == 128;
    hide Join, CodeOf;
    JoinProper(CodeOf(bl, CodeLengths.SymbolOf(t)), CodeLengths.ExtraOf(t));
  }

  lemma {:induction false} OrderProper(bl: seq<nat>, r: nat, n: nat)
    requires r <= n <= CODE_LENGTHS == |bl| && forall i :: 0 <= i < |bl| ==> bl[i] <= 7
    ensures Proper(OrderBits(bl, r, n))
    decreases n - r
  {
    assert Pow2(3) == 8 && Pow2(0) == 1;
    hide Join, Pow2;
    if r < n {
      OrderRanks(r);
      OrderProper(bl, r + 1, n);
      JoinProper(Bits(bl[BL_ORDER[r]], 3), OrderBits(bl, r + 1, n));
    }
  }

  lemma CountsProper(lit: nat, dist: nat, n: nat)
    requires 257 <= lit <= 288 && 1 <= dist <= 32 && 4 <= n <= 19
    ensures Proper(CountBits(lit, dist, n))
  {
    assert Pow2(5) == 32 && Pow2(4) == 16;
    hide Join, Pow2;
    var a, b, d := Bits(lit - 257, 5), Bits(dist - 1, 5), Bits(n - 4, 4);
    JoinProper(b, d);
    JoinProper(a, Join(b, d));
  }

  lemma HeadingProper(h: Header)
    requires GoodSizes(h) && CodeLengths.HaveCodes(h.short, h.tokens)
    ensures Proper(HeadingBits(h))
  {
    hide Join, CountBits, OrderBits, CodeLengths.TokensBits, CodeLengths.HaveCodes, Pow2;
    CountsProper(|h.lit|, |h.dist|, h.n);
    OrderProper(h.short, 0, h.n);
    TokensProper(h.short, h.tokens);
    JoinProper(OrderBits(h.short, 0, h.n), CodeLengths.TokensBits(h.short, h.tokens));
    JoinProper(CountBits(|h.lit|, |h.dist|, h.n),
               Join(OrderBits(h.short, 0, h.n), CodeLengths.TokensBits(h.short, h.tokens)));
  }

  lemma TypeProper(kind: nat, last: bool)
    requires kind < 4
    ensures Proper(BlockType(kind, last))
  {
    assert Pow2(3) == 8;
  }

  lemma BytesProper(bs: seq<byte>)
    ensures Proper(BytesBits(bs))
  {
    LoadBound(bs);
  }

  lemma SizesProper(p: nat, pad: nat, data: seq<byte>)
    requires Proper(Filler(p, pad)) && |data| < 0x10000
    ensures Proper(Join(Filler(p, pad), Join(Bits(|data|, 16), Join(Bits(0xffff - |data|, 16), BytesBits(data)))))
  {
    hide Join, Filler, Pow2, BytesBits;
    Pow2Short();
    BytesProper(data);
    JoinProper(Bits(0xffff - |data|, 16), BytesBits(data));
    JoinProper(Bits(|data|, 16), Join(Bits(0xffff - |data|, 16), BytesBits(data)));
    JoinProper(Filler(p, pad), Join(Bits(|data|, 16), Join(Bits(0xffff - |data|, 16), BytesBits(data))));
  }

  lemma SectionProper(c: Setup, b: Section, p: nat, last: bool)
    requires GoodSection(c, b, p)
    ensures Proper(SectionBits(c, b, p, last))
  {
    hide Join, Filler, Proper, BytesBits, PiecesBits, GoodPieces, HeadingBits, BlockType, GoodHeading, StaticLit,
      FixedDist;
    match b
    case Plain(pad, data) =>
      SizesProper(p + 3, pad, data);
      TypeProper(STORED_BLOCK, last);
      JoinProper(BlockType(STORED_BLOCK, last),
        Join(Filler(p + 3, pad), Join(Bits(|data|, 16), Join(Bits(0xffff - |data|, 16), BytesBits(data)))));
    case Fixed(pieces) =>
      TypeProper(STATIC_TREES, last);
      PiecesProper(StaticLit(), FixedDist(), pieces);
      JoinProper(BlockType(STATIC_TREES, last), PiecesBits(StaticLit(), FixedDist(), pieces));
    case Dynamic(h, pieces) =>
      TypeProper(DYN_TREES, last);
      HeadingSized(c, h);
      HeadingProper(h);
      PiecesProper(h.lit, h.dist, pieces);
      JoinProper(HeadingBits(h), PiecesBits(h.lit, h.dist, pieces));
      JoinProper(BlockType(DYN_TREES, last), Join(HeadingBits(h), PiecesBits(h.lit, h.dist, pieces)));
  }

  lemma {:induction false} SectionsProper(c: Setup, bs: seq<Section>, p: nat)
    requires GoodSections(c, bs, p)
    ensures Proper(SectionsBits(c, bs, p))
    decreases |bs|
  {
    hide Join, Proper, SectionBits, GoodSection;
    if |bs| == 1 {
      SectionProper(c, bs[0], p, true);
    } else {
      var b := SectionBits(c, bs[0], p, false);
      SectionProper(c, bs[0], p, false);
      SectionsProper(c, bs[1..], p + b.n);
      JoinProper(b, SectionsBits(c, bs[1..], p + b.n));
    }
  }

  lemma StreamProper(c: Setup, st: Stream, text: seq<byte>)
    requires GoodStream(c, st, text)
    ensures Proper(StreamBits(c, st, text)) && StreamBits(c, st, text).n % 8 == 0
  {
    hide Join, Proper, SectionsBits, GoodSections, GoodWrapper, AfterSections, Adler32.Check, RoundTrip.AdlerBytes,
      Load, Filler;
    var head, trailer := WrapperBits(c, st), TrailerBits(c, text);
    var body := SectionsBits(c, st.blocks, head.n);
    var filler := Filler(head.n + body.n, st.pad);
    WholeParts(c, st, text);
    SectionsProper(c, st.blocks, head.n);
    JoinProper(filler, trailer);
    JoinProper(body, Join(filler, trailer));
    JoinProper(head, Join(body, Join(filler, trailer)));
    JoinLength(filler, trailer);
    JoinLength(body, Join(filler, trailer));
    JoinLength(head, Join(body, Join(filler, trailer)));
    FillerFills(head.n + body.n, st.pad);
  }

  lemma FillerFills(n: nat, v: nat)
    ensures (n + Filler(n, v).n) % 8 == 0
  {
  }

  lemma NoneProper()
    ensures Proper(NoBits)
  {
  }

  lemma WholeParts(c: Setup, st: Stream, text: seq<byte>)
    ensures Proper(WrapperBits(c, st)) && WrapperBits(c, st).n % 8 == 0
    ensures Proper(TrailerBits(c, text)) && TrailerBits(c, text).n % 8 == 0
  {
    hide Adler32.Check, RoundTrip.AdlerBytes, Load, Proper;
    BytesProper([st.b0, st.b1]);
    BytesProper(RoundTrip.AdlerBytes(Adler32.Check(1, text)));
    NoneProper();
  }

  /** Bits that begin with as many are those. */
  lemma SameFirst(a: Bits, r: Bits, b: Bits, q: Bits)
    requires Proper(a) && Proper(b) && a.n == b.n && Join(a, r) == Join(b, q)
    ensures a == b && r == q
  {
    hide Low, Shr, Pow2, Shl;
    ReadBack(a, r.v);
    ReadBack(b, q.v);
  }

  /** A good end says that the bytes up to it are a stream of the output, and the rest was not looked at. */
  lemma OnlyStreams(c: Setup, bytes: seq<byte>) returns (n: nat)
    requires Ok(Opened(bytes)) && Ending(c, Opened(bytes)).mode == DONE
    ensures n <= |bytes| && IsStream(c, bytes[..n], Ending(c, Opened(bytes)).out)
    ensures Ending(c, Opened(bytes)).rest == BytesBits(bytes[n..])
  {
    hide Ok, Ending, Join, GoodStream, StreamBits, Proper, Load, Opened, BytesBits;
    var e := Ending(c, Opened(bytes));
    var st := StreamMeans(c, bytes);
    var b := StreamBits(c, st, e.out);
    StreamProper(c, st, e.out);
    RoundTrip.BytesAre(bytes);
    JoinLength(b, e.rest);
    n := b.n / 8;
    BytesJoin(bytes[..n], bytes[n..]);
    assert bytes[..n] + bytes[n..] == bytes;
    BytesProper(bytes[..n]);
    RoundTrip.BytesAre(bytes[..n]);
    SameFirst(b, e.rest, BytesBits(bytes[..n]), BytesBits(bytes[n..]));
  }
}
