/**
 Every stream of the format is taken: whatever encoder wrote it, inflate comes to a good end with its text
 and looks at nothing behind it.  With the converse this makes STREAM_END mean exactly that.
 */
module StreamDecoding {
  import opened BitOps
  import opened Canonical
  import opened DecodeTable
  import opened RunLengths
  import opened BitStream
  import opened CodeReading
  import opened CodeLengths
  import opened CodeLookup
  import opened BlockHeader
  import opened LengthCodes
  import opened Lz77
  import opened Blocks
  import opened StaticTrees
  import opened SentBlock
  import opened InflateSpec
  import opened InflateRuns
  import opened InflateFast
  import opened StreamFormat
  import opened Accepted
  import opened StreamAccepted
  import opened HeaderDecoding
  import opened BlockDecoding
  import opened RoundTrip
  import InflateTable
  import InflateTrees
  import InflateHeader
  import BlockCodes
  import Adler32

  // --------------------------------------------------------------------------- one piece

  /** Extra bits after a code. */
  lemma CodeThen(t: CodeType, lens: seq<nat>, s: nat, x: Bits, more: Bits)
    requires GoodCode(t, lens) && s < |lens| && lens[s] != 0 && Proper(x)
    ensures var b := Join(CodeOf(lens, s), x); var v := Join(b, more).v;
      && CodeFound(t, lens, v) == SymbolFound(t, lens, s) && Low(Shr(v, lens[s]), x.n) == x.v
      && Shr(Shr(v, lens[s]), x.n) == more.v == Shr(v, b.n) && b.n == lens[s] + x.n
  {
    hide Low, Shr, CodeOf, CodeFound, GoodCode, Join;
    JoinAssoc(CodeOf(lens, s), x, more);
    CodeReads(t, lens, s, Join(x, more));
    Dropped(x, more);
    CodeLength(lens, s);
    JoinLength(CodeOf(lens, s), x);
    ShrShr(Join(Join(CodeOf(lens, s), x), more).v, lens[s], x.n);
  }

  lemma LitItem(ll: seq<nat>, dl: seq<nat>, b: byte, more: Bits)
    requires GoodCode(LENS, ll) && |ll| <= 288 && |dl| <= 32 && b < |ll| && ll[b] != 0
    ensures ItemAt(ll, dl, Join(CodeOf(ll, b), more).v) == ReadItem(ILit(b), ll[b])
    ensures Shr(Join(CodeOf(ll, b), more).v, ll[b]) == more.v
  {
    hide Low, Shr, CodeOf, CodeFound, GoodCode, Join, DistAt;
    CodeReads(LENS, ll, b, more);
    LenKinds(b);
  }

  lemma DistPiece(dl: seq<nat>, d: nat, dx: nat, len: nat, used: nat, more: Bits)
    requires GoodCode(DISTS, dl) && |dl| <= 32 && d < D_CODES && d < |dl| && dl[d] != 0 && dx < Pow2(EXTRA_DBITS[d])
    ensures var b := Join(CodeOf(dl, d), Bits(dx, EXTRA_DBITS[d]));
      && DistAt(dl, Join(b, more).v, len, used) == ReadItem(ICopy(DBASE[d] + dx, len), used + b.n)
      && Shr(Join(b, more).v, b.n) == more.v
  {
    hide Low, Shr, CodeOf, CodeFound, GoodCode, Join, Pow2, BlockCodes.Flag, SymbolOp, SymbolVal;
    CodeThen(DISTS, dl, d, Bits(dx, EXTRA_DBITS[d]), more);
    DistKinds(d);
  }

  lemma RefItem(ll: seq<nat>, dl: seq<nat>, p: Piece, more: Bits)
    requires GoodCode(LENS, ll) && GoodCode(DISTS, dl) && |ll| <= 288 && |dl| <= 32 && p.Ref? && GoodPiece(ll, dl, p)
    ensures var b := PieceBits(ll, dl, p);
      && ItemAt(ll, dl, Join(b, more).v) == ReadItem(ICopy(DBASE[p.dc] + p.dx, LBASE[p.lc] + p.lx), b.n)
      && Shr(Join(b, more).v, b.n) == more.v
  {
    hide Low, Shr, CodeOf, CodeFound, GoodCode, Join, Pow2, BlockCodes.Flag, SymbolOp, SymbolVal, DistAt;
    var s, x := 257 + p.lc, Bits(p.lx, EXTRA_LBITS[p.lc]);
    var a, d := Join(CodeOf(ll, s), x), Join(CodeOf(dl, p.dc), Bits(p.dx, EXTRA_DBITS[p.dc]));
    CodeThen(LENS, ll, s, x, Join(d, more));
    JoinAssoc(a, d, more);
    LenKinds(s);
    DistPiece(dl, p.dc, p.dx, LBASE[p.lc] + p.lx, a.n, more);
    JoinLength(a, d);
    ShrShr(Join(Join(a, d), more).v, a.n, d.n);
  }

  /** One piece decoded. */
  lemma PieceRun(c: Setup, s: State, p: Piece, more: Bits)
    requires Ok(s) && s.mode == LEN && GoodPiece(s.lcode, s.dcode, p) && CanApply(s.out, Meaning(p))
    requires s.rest == Join(PieceBits(s.lcode, s.dcode, p), more)
    ensures Leads(c, s, s.(out := Apply(s.out, Meaning(p)), rest := more))
  {
    hide Ok, Step, Leads, Below, ItemAt, GoodCode, Copy, Shr, Join, CodeOf, Pow2;
    BlockSizes(s);
    if p.Lit? {
      LitItem(s.lcode, s.dcode, p.b, more);
      CodeLength(s.lcode, p.b);
    } else {
      RefItem(s.lcode, s.dcode, p, more);
    }
    ItemRun(c, s);
    JoinLength(PieceBits(s.lcode, s.dcode, p), more);
  }

  /** A block to its end. */
  lemma {:induction false} PiecesRun(c: Setup, s: State, ps: seq<Piece>, more: Bits, text: seq<byte>)
    requires Ok(s) && s.mode == LEN && GoodPieces(s.lcode, s.dcode, ps) && AfterPieces(s.out, ps) == Decoded(text)
    requires s.rest == Join(PiecesBits(s.lcode, s.dcode, ps), more)
    ensures Leads(c, s, s.(mode := TYPE, out := text, rest := more))
    decreases |ps|
  {
    hide Ok, Step, Leads, Below, PieceBits, GoodPiece, GoodCode, Apply, Join, CodeOf, Meaning;
    if ps == [] {
      BlockSizes(s);
      EndRun(c, s, BlockCodes.Codes(s.lcode, s.dcode), more);
    } else {
      var rest := Join(PiecesBits(s.lcode, s.dcode, ps[1..]), more);
      JoinAssoc(PieceBits(s.lcode, s.dcode, ps[0]), PiecesBits(s.lcode, s.dcode, ps[1..]), more);
      var s1 := s.(out := Apply(s.out, Meaning(ps[0])), rest := rest);
      PieceRun(c, s, ps[0], rest);
      LeadsOk(c, s, s1);
      PiecesRun(c, s1, ps[1..], more, text);
      LeadsOn(c, s, s1, s.(mode := TYPE, out := text, rest := more));
    }
  }

  // -------------------------------------------------------------------------- the header

  /** From the counts to the first symbol, however the lengths were coded. */
  lemma HeadingRun(c: Setup, s: State, h: Header, more: Bits) returns (t: State)
    requires Ok(s) && s.mode == TABLE && GoodHeading(c, h) && s.rest == Join(HeadingBits(h), more)
    ensures Leads(c, s, t) && t.mode == LEN && t.lcode == h.lit && t.dcode == h.dist && t.rest == more
    ensures t.out == s.out && t.last == s.last
  {
    hide Ok, Step, Leads, Below, GoodCode, Join, Shr, ReadCounts, CountBits, OrderBits, TokensBits, Builds, Expand,
      HaveCodes, SameUpTo;
    var tokens := Join(TokensBits(h.short, h.tokens), more);
    var order := Join(OrderBits(h.short, 0, h.n), tokens);
    JoinAssoc(CountBits(|h.lit|, |h.dist|, h.n), Join(OrderBits(h.short, 0, h.n), TokensBits(h.short, h.tokens)), more);
    JoinAssoc(OrderBits(h.short, 0, h.n), TokensBits(h.short, h.tokens), more);
    CountsItem(|h.lit|, |h.dist|, h.n, order);
    InflateTrees.TableStep(c, s, Counts(|h.lit|, |h.dist|, h.n, 0));
    var s1 := s.(nlen := |h.lit|, ndist := |h.dist|, ncode := h.n, have := 0, mode := LENLENS, rest := order);
    LeadsStep(c, s, s1);
    LeadsOk(c, s, s1);
    InflateTrees.LenLensOk(s1);
    NoneSame(s1.lens, h.short);
    var s2 := OrderRun(c, s1, h.short, h.n, tokens);
    LeadsOn(c, s, s1, s2);
    LeadsOk(c, s, s2);
    t := AllLengthsRun(c, s2, h, more);
    LeadsOn(c, s, s2, t);
  }

  lemma AllLengthsRun(c: Setup, s: State, h: Header, more: Bits) returns (t: State)
    requires Ok(s) && s.mode == CODELENS && s.have == 0 && s.lcode == h.short && |s.lens| == LENS_SIZE
    requires s.nlen == |h.lit| && s.ndist == |h.dist| && GoodHeading(c, h)
    requires s.rest == Join(TokensBits(h.short, h.tokens), more)
    ensures Leads(c, s, t) && t.mode == LEN && t.lcode == h.lit && t.dcode == h.dist && t.rest == more
    ensures t.out == s.out && t.last == s.last
  {
    hide Ok, Step, Leads, Below, GoodCode, Join, HaveCodes, Builds, Expand, Adds, TokensBits;
    assert s.lens[..s.have] == [];
    SendableAdds(h.short, h.tokens);
    TokensRun(c, s, h.tokens, h.lit + h.dist, more);
    var s1 := WithLengths(s, h.lit + h.dist, more);
    LeadsOk(c, s, s1);
    InflateTrees.TreesStep(c, s1);
    assert s1.lens[..|h.lit|] == h.lit && s1.lens[|h.lit|..|h.lit| + |h.dist|] == h.dist;
    t := s1.(lcode := h.lit, dcode := h.dist, mode := LEN);
    LeadsStep(c, s1, t);
    LeadsOn(c, s, s1, t);
  }

  // ----------------------------------------------------------------------------- blocks

  lemma FillerLength(p: nat, n: nat, v: nat)
    requires (p + n) % 8 == 0
    ensures Filler(p, v).n == n % 8 < 8
  {
  }

  /** A stored block after its type, whatever the padding. */
  lemma PlainRun(c: Setup, s: State, p: nat, pad: nat, data: seq<byte>, more: Bits)
    requires Ok(s) && s.mode == STORED && |data| < 0x10000 && (p + s.rest.n) % 8 == 0 && Proper(Filler(p, pad))
    requires var sizes := Join(Bits(|data|, 16), Join(Bits(0xffff - |data|, 16), BytesBits(data)));
      s.rest == Join(Join(Filler(p, pad), sizes), more)
    ensures Leads(c, s, s.(mode := TYPE, length := 0, out := s.out + data, rest := more))
  {
    hide Ok, Step, StepStored, Leads, Below, Join, Low, Shr, Filler, BytesBits, Xor, Pow2;
    Pow2Short();
    var a, b, d := Bits(|data|, 16), Bits(0xffff - |data|, 16), BytesBits(data);
    var bytes := Join(d, more);
    var sizes := Join(a, Join(b, bytes));
    JoinAssoc(Filler(p, pad), Join(a, Join(b, d)), more);
    JoinAssoc(a, Join(b, d), more);
    JoinAssoc(b, d, more);
    FillerLength(p, s.rest.n, pad);
    Dropped(Filler(p, pad), sizes);
    var s1 := s.(rest := sizes);
    InflateHeader.StoredAligned(c, s, s1);
    LeadsOk(c, s, s1);
    SizesItem(a, b, bytes);
    Complement(|data|);
    AtStored(c, s1);
    InflateHeader.StoredSteps(s1);
    var s2 := s1.(rest := bytes, length := |data|, mode := COPY);
    LeadsStep(c, s1, s2);
    LeadsOn(c, s, s1, s2);
    LeadsOk(c, s, s2);
    CopyRun(c, s2, data, more);
    LeadsOn(c, s, s2, s.(mode := TYPE, length := 0, out := s.out + data, rest := more));
  }

  /** The kind of a block and the bits after its type. */
  function KindOf(b: Section): nat {
    match b
    case Plain(_, _) => 0
    case Fixed(_) => 1
    case Dynamic(_, _) => 2
  }

  /** What comes after the three bits. */
  ghost function BodyBits(c: Setup, b: Section, p: nat): Bits {
    if !GoodSection(c, b, p) then NoBits
    else match b
      case Plain(pad, data) =>
        Join(Filler(p + 3, pad), Join(Bits(|data|, 16), Join(Bits(0xffff - |data|, 16), BytesBits(data))))
      case Fixed(pieces) => PiecesBits(StaticLit(), FixedDist(), pieces)
      case Dynamic(h, pieces) => Join(HeadingBits(h), PiecesBits(h.lit, h.dist, pieces))
  }

  lemma SectionParts(c: Setup, b: Section, p: nat, last: bool)
    requires GoodSection(c, b, p)
    ensures SectionBits(c, b, p, last) == Join(BlockType(KindOf(b), last), BodyBits(c, b, p))
  {
    hide Join, Filler, BytesBits, PiecesBits, GoodPieces, HeadingBits, BlockType, GoodHeading, StaticLit, FixedDist,
      Proper;
  }

  /** A block of any kind, decoded. */
  lemma SectionRun(c: Setup, s: State, b: Section, p: nat, last: bool, more: Bits, text: seq<byte>) returns (d: State)
    requires Ok(s) && s.mode == TYPE && !s.last && GoodSection(c, b, p) && (p + s.rest.n) % 8 == 0
    requires s.rest == Join(SectionBits(c, b, p, last), more) && AfterSection(s.out, b) == Decoded(text)
    ensures Leads(c, s, d) && d.mode == TYPE && d.last == last && d.out == text && d.rest == more
  {
    hide Ok, Leads, Join, SectionBits, GoodSection, BodyBits, AfterSection, BlockType;
    SectionParts(c, b, p, last);
    var kind, rest := KindOf(b), Join(BodyBits(c, b, p), more);
    JoinAssoc(BlockType(kind, last), BodyBits(c, b, p), more);
    TypeRun(c, s, kind, last, rest);
    var s1 := Entered(s, kind, last, rest);
    TypeSize(kind, last, rest);
    d := BodyRun(c, s1, b, p, more, text);
    LeadsOn(c, s, s1, d);
  }

  lemma TypeSize(kind: nat, last: bool, rest: Bits)
    ensures Join(BlockType(kind, last), rest).n == 3 + rest.n
  {
  }

  lemma BodyRun(c: Setup, s: State, b: Section, p: nat, more: Bits, text: seq<byte>) returns (d: State)
    requires Ok(s) && GoodSection(c, b, p) && (p + 3 + s.rest.n) % 8 == 0 && AfterSection(s.out, b) == Decoded(text)
    requires s == Entered(s, KindOf(b), s.last, s.rest) && s.rest == Join(BodyBits(c, b, p), more)
    ensures Leads(c, s, d) && d.mode == TYPE && d.last == s.last && d.out == text && d.rest == more
  {
    hide Ok, Leads, Join, Filler, BytesBits, PiecesBits, GoodPieces, HeadingBits, GoodHeading, StaticLit, FixedDist,
      Proper, AfterPieces;
    match b {
      case Plain(pad, data) =>
        PlainRun(c, s, p + 3, pad, data, more);
        d := s.(mode := TYPE, length := 0, out := s.out + data, rest := more);
      case Fixed(pieces) =>
        PiecesRun(c, s, pieces, more, text);
        d := s.(mode := TYPE, out := text, rest := more);
      case Dynamic(h, pieces) =>
        HeadingSized(c, h);
        JoinAssoc(HeadingBits(h), PiecesBits(h.lit, h.dist, pieces), more);
        var s1 := HeadingRun(c, s, h, Join(PiecesBits(h.lit, h.dist, pieces), more));
        LeadsOk(c, s, s1);
        PiecesRun(c, s1, pieces, more, text);
        d := s1.(mode := TYPE, out := text, rest := more);
        LeadsOn(c, s, s1, d);
    }
  }

  lemma {:induction false} SectionsRun(c: Setup, s: State, bs: seq<Section>, p: nat, more: Bits, text: seq<byte>)
    returns (d: State)
    requires Ok(s) && s.mode == TYPE && !s.last && GoodSections(c, bs, p) && (p + s.rest.n) % 8 == 0
    requires s.rest == Join(SectionsBits(c, bs, p), more) && AfterSections(s.out, bs) == Decoded(text)
    ensures Leads(c, s, d) && d.mode == TYPE && d.last && d.out == text && d.rest == more
    decreases |bs|
  {
    hide Ok, Leads, Join, SectionBits, GoodSection, AfterSection;
    var mid := AfterSection(s.out, bs[0]).text;
    if |bs| == 1 {
      assert bs[1..] == [];
      d := SectionRun(c, s, bs[0], p, true, more, text);
    } else {
      var b := SectionBits(c, bs[0], p, false);
      var rest := Join(SectionsBits(c, bs[1..], p + b.n), more);
      JoinAssoc(b, SectionsBits(c, bs[1..], p + b.n), more);
      JoinLength(b, rest);
      var s1 := SectionRun(c, s, bs[0], p, false, rest, mid);
      LeadsOk(c, s, s1);
      d := SectionsRun(c, s1, bs[1..], p + b.n, more, text);
      LeadsOn(c, s, s1, d);
    }
  }

  // ----------------------------------------------------------------------- whole streams

  lemma FillerRun(c: Setup, s: State, q: nat, pad: nat, rest: Bits)
    requires Ok(s) && s.mode == TYPE && s.last && (q + s.rest.n) % 8 == 0 && Proper(Filler(q, pad))
    requires s.rest == Join(Filler(q, pad), rest)
    ensures Leads(c, s, s.(mode := CHECK, rest := rest))
  {
    hide Ok, Step, StepType, Leads, Below, Join, Shr, Low, Filler;
    FillerLength(q, s.rest.n, pad);
    Dropped(Filler(q, pad), rest);
    AtType(c, s);
    InflateHeader.LastStep(s);
    LeadsStep(c, s, s.(mode := CHECK, rest := rest));
  }

  /** The check, with anything behind it. */
  lemma TrailerRun(c: Setup, s: State, more: Bits)
    requires Ok(s) && s.mode == CHECK && s.rest == Join(TrailerBits(c, s.out), more)
    ensures Leads(c, s, s.(mode := DONE, rest := more))
  {
    hide Ok, Step, Leads, Below, BytesBits, Load, Low, Shr, Adler32.Check, AdlerBytes, Swap32, Join;
    InflateHeader.CheckHeld(c, s);
    if c.zlib {
      var x := Adler32.Check(1, s.out);
      InflateHeader.UnpackOne();
      Adler32.CheckAppend(1, s.out, []);
      SwapBack(x);
      BytesAre(AdlerBytes(x));
      BytesProper(AdlerBytes(x));
      Dropped(BytesBits(AdlerBytes(x)), more);
    } else {
      JoinNone(more);
    }
    LeadsStep(c, s, s.(mode := DONE, rest := more));
  }

  /** The two bytes in front. */
  lemma WrapperRun(c: Setup, s: State, st: Stream, more: Bits)
    requires Ok(s) && s.mode == HEAD && (c.zlib ==> GoodWrapper(st.b0, st.b1))
      && s.rest == Join(WrapperBits(c, st), more)
    ensures Leads(c, s, s.(mode := TYPE, rest := more))
  {
    hide Ok, Step, Leads, Below, BytesBits, Load, Low, Shr, Shl, Join, Pow2;
    AtHead(c, s);
    if c.zlib {
      var bs := [st.b0, st.b1];
      BytesAre(bs);
      BytesProper(bs);
      Dropped(BytesBits(bs), more);
      TwoBytes(st.b0, st.b1);
      HeaderFields(st.b0, st.b1, st.b0 / 16, s.rest.v);
    } else {
      JoinNone(more);
    }
    LeadsStep(c, s, s.(mode := TYPE, rest := more));
  }

  /** After the last block. */
  lemma ClosingRun(c: Setup, s: State, q: nat, pad: nat, more: Bits)
    requires Ok(s) && s.mode == TYPE && s.last && (q + s.rest.n) % 8 == 0 && Proper(Filler(q, pad))
    requires s.rest == Join(Filler(q, pad), Join(TrailerBits(c, s.out), more))
    ensures Ending(c, s) == Verdict(DONE, s.out, more)
  {
    hide Ok, Leads, Ending, Below, Finish, Join, Proper, Filler, TrailerBits;
    var rest := Join(TrailerBits(c, s.out), more);
    FillerRun(c, s, q, pad, rest);
    var s1 := s.(mode := CHECK, rest := rest);
    LeadsOk(c, s, s1);
    TrailerRun(c, s1, more);
    var s2 := s1.(mode := DONE, rest := more);
    LeadsOk(c, s1, s2);
    EndAtDone(c, s2);
  }

  lemma StreamParts(c: Setup, st: Stream, text: seq<byte>, more: Bits)
    requires GoodStream(c, st, text)
    ensures var head := WrapperBits(c, st); var body := SectionsBits(c, st.blocks, head.n);
      Join(StreamFormat.StreamBits(c, st, text), more)
        == Join(head, Join(body, Join(Filler(head.n + body.n, st.pad), Join(TrailerBits(c, text), more))))
  {
    hide Join, GoodWrapper, GoodSections, SectionsBits, AfterSections, Proper, Filler, TrailerBits, WrapperBits;
    var head, trailer := WrapperBits(c, st), TrailerBits(c, text);
    var body := SectionsBits(c, st.blocks, head.n);
    var filler := Filler(head.n + body.n, st.pad);
    JoinAssoc(filler, trailer, more);
    JoinAssoc(body, Join(filler, trailer), more);
    JoinAssoc(head, Join(body, Join(filler, trailer)), more);
  }

  /** A stream and whatever comes after it, decoded. */
  lemma StreamRun(c: Setup, st: Stream, text: seq<byte>, bytes: seq<byte>, more: Bits)
    requires GoodStream(c, st, text) && BytesBits(bytes) == Join(StreamFormat.StreamBits(c, st, text), more)
    ensures Ok(Opened(bytes)) && Ending(c, Opened(bytes)) == Verdict(DONE, text, more)
  {
    hide Ok, Leads, Ending, Below, Finish, Join, BytesBits, GoodWrapper, GoodSections, SectionsBits, AfterSections,
      Proper, Filler, TrailerBits, WrapperBits, StreamFormat.StreamBits;
    OpenedOk(bytes);
    StreamParts(c, st, text, more);
    var s, head := Opened(bytes), WrapperBits(c, st);
    var body := SectionsBits(c, st.blocks, head.n);
    var r2 := Join(Filler(head.n + body.n, st.pad), Join(TrailerBits(c, text), more));
    var r1 := Join(body, r2);
    BytesAre(bytes);
    JoinLength(head, r1);
    JoinLength(body, r2);
    WrapperRun(c, s, st, r1);
    var s1 := s.(mode := TYPE, rest := r1);
    LeadsOk(c, s, s1);
    var s2 := SectionsRun(c, s1, st.blocks, head.n, r2, text);
    LeadsOk(c, s1, s2);
    ClosingRun(c, s2, head.n + body.n, st.pad, more);
  }

  /**
   Inflate takes exactly the streams of the format: it comes to a good end n bytes on if and only if
   those n bytes are a stream of its output, whatever comes after them.
   */
  lemma ExactlyStreams(c: Setup, bytes: seq<byte>, n: nat, text: seq<byte>)
    requires n <= |bytes|
    ensures Ok(Opened(bytes))
    ensures Ending(c, Opened(bytes)) == Verdict(DONE, text, BytesBits(bytes[n..])) <==> IsStream(c, bytes[..n], text)
  {
    hide Ok, Ending, Join, GoodStream, StreamFormat.StreamBits, Proper, Load, Opened;
    OpenedOk(bytes);
    BytesJoin(bytes[..n], bytes[n..]);
    assert bytes[..n] + bytes[n..] == bytes;
    if IsStream(c, bytes[..n], text) {
      var st: Stream :| GoodStream(c, st, text) && BytesBits(bytes[..n]) == StreamFormat.StreamBits(c, st, text);
      StreamRun(c, st, text, bytes, BytesBits(bytes[n..]));
    }
    if Ending(c, Opened(bytes)) == Verdict(DONE, text, BytesBits(bytes[n..])) {
      var k := OnlyStreams(c, bytes);
      assert 8 * |bytes[k..]| == 8 * |bytes[n..]|;
      assert k == n;
    }
  }

  /** At most one beginning of the bytes is a stream, and of one text. */
  lemma OneStream(c: Setup, bytes: seq<byte>, n: nat, m: nat, text: seq<byte>, other: seq<byte>)
    requires n <= |bytes| && m <= |bytes| && IsStream(c, bytes[..n], text) && IsStream(c, bytes[..m], other)
    ensures n == m && text == other
  {
    hide Ok, Ending, IsStream, Load, Opened;
    ExactlyStreams(c, bytes, n, text);
    ExactlyStreams(c, bytes, m, other);
    assert 8 * |bytes[n..]| == 8 * |bytes[m..]|;
  }

  // ------------------------------------------------------------------------- dictionaries

  /** What the fields of the first two bytes are. */
  lemma {:induction false} FieldsOf(b0: nat, b1: nat, v: nat)
    requires b0 < 256 && b1 < 256 && Low(v, 16) == b0 + Shl(b1, 8)
    ensures var h := Low(v, 16);
      Shl(Low(h, 8), 8) + Shr(h, 8) == 256 * b0 + b1 && Low(h, 4) == b0 % 16 && Low(Shr(v, 4), 4) == b0 / 16
      && Shr(h, 13) == b1 / 32
  {
    hide Shl, Shr, Low, Pow2;
    Pow2Byte();
    var h := Low(v, 16);
    SplitUnique(b1, b0, 8);
    TimesByte(b0);
    Nibbles(b0);
    LowLow(v, 4, 12);
    LowLow(h, 4, 4);
    LowLow(Shr(v, 4), 4, 8);
    LowLow(v, 8, 8);
    LowLow(v, 4, 4);
    ShrShr(h, 8, 5);
    ThirtyTwo(b1);
  }

  lemma Nibbles(b: nat)
    requires b < 256
    ensures Low(b, 4) == b % 16 && Shr(b, 4) == b / 16 && Low(b / 16, 4) == b / 16
  {
    Sixteen();
    hide Shr, Low, Shl, Pow2;
    Adler32.ShlTimes(b / 16, 4);
    SplitUnique(b / 16, b % 16, 4);
    LowSmall(b / 16, 4);
  }

  predicate PastHead(m: Mode) {
    m != HEAD && m != DICTID && m != DICT
  }

  lemma StaysInBlock(c: Setup, s: State)
    requires Ok(s) && InBlock(s.mode) && Step(c, s).Next?
    ensures PastHead(Step(c, s).s.mode)
  {
    hide Ok, Low, Shr, CodeFound, BlockCodes.Flag, StepHead, StepDictId, StepType, StepStored, StepCopy, StepTable,
      StepLenLens, StepCodeLens, StepCheck;
  }

  lemma StaysPast(c: Setup, s: State)
    requires Ok(s) && PastHead(s.mode) && Step(c, s).Next?
    ensures PastHead(Step(c, s).s.mode)
  {
    hide Ok, Low, Shr, Shl, Swap32, Adler32.Check, GoodCode, Builds, CodeFound, BlockCodes.Flag, StaticLit, FixedDist,
      ZeroRest, Spread, ReadCounts, Xor, StepHead, StepDictId, StepLen, StepLenExt, StepDist, StepDistExt, StepMatch,
      StepLit;
    if InBlock(s.mode) { StaysInBlock(c, s); }
  }

  /** Once the wrapper has been passed no dictionary is asked for. */
  lemma {:induction false} NoneAsked(c: Setup, s: State)
    requires Ok(s) && PastHead(s.mode)
    ensures PastHead(Finish(c, s).mode)
    decreases s.rest.n, Rank(s.mode), Size(s)
  {
    hide Ok, Step, PastHead, Rank, Size;
    if Step(c, s).Next? {
      StaysPast(c, s);
      FinishNext(c, s, Step(c, s).s);
      NoneAsked(c, Step(c, s).s);
    }
  }

  /** The two bytes of a wrapper that is as it should be, but announces a dictionary. */
  predicate Announces(b0: nat, b1: nat) {
    b0 % 16 == 8 && b0 / 16 <= 7 && b1 / 32 % 2 == 1 && (256 * b0 + b1) % 31 == 0
  }

  /** Such a wrapper, and four bytes that say which dictionary. */
  predicate AsksDictionary(c: Setup, bytes: seq<byte>) {
    c.zlib && |bytes| >= 6 && Announces(bytes[0], bytes[1])
  }

  /** The first step, given two bytes. */
  lemma WrapperStep(c: Setup, bytes: seq<byte>)
    requires c.zlib && |bytes| >= 2
    ensures var s := Opened(bytes);
      && Ok(s) && Step(c, s).Next?
      && if Announces(bytes[0], bytes[1]) then Step(c, s).s == s.(mode := DICTID, rest := BytesBits(bytes[2..]))
         else PastHead(Step(c, s).s.mode)
  {
    hide Ok, Step, StepHead, Announces, PastHead, BytesBits, Load, Low, Shr, Shl, Join, Pow2;
    OpenedOk(bytes);
    AtHead(c, Opened(bytes));
    FirstTwo(bytes);
    var b0: nat, b1: nat := bytes[0], bytes[1];
    FieldsOf(b0, b1, BytesBits(bytes).v);
    HeadByFields(c, Opened(bytes), b0, b1);
  }

  lemma HeadByFields(c: Setup, s: State, b0: nat, b1: nat)
    requires c.zlib && s.rest.n >= 16
    requires var h := Low(s.rest.v, 16);
      Shl(Low(h, 8), 8) + Shr(h, 8) == 256 * b0 + b1 && Low(h, 4) == b0 % 16 && Low(Shr(s.rest.v, 4), 4) == b0 / 16
      && Shr(h, 13) == b1 / 32
    ensures StepHead(c, s).Next?
    ensures if Announces(b0, b1) then StepHead(c, s).s == Take(s, 16).(mode := DICTID)
            else PastHead(StepHead(c, s).s.mode)
  {
    hide Low, Shr, Shl;
  }

  lemma FirstTwo(bytes: seq<byte>)
    requires |bytes| >= 2
    ensures var b := BytesBits(bytes);
      b.n >= 16 && Low(b.v, 16) == bytes[0] + Shl(bytes[1], 8) && Bits(Shr(b.v, 16), b.n - 16) == BytesBits(bytes[2..])
  {
    hide BytesBits, Load, Low, Shr, Shl, Join, Pow2;
    var bs := [bytes[0], bytes[1]];
    assert bytes == bs + bytes[2..];
    BytesJoin(bs, bytes[2..]);
    BytesAre(bs);
    BytesAre(bytes);
    BytesProper(bs);
    Dropped(BytesBits(bs), BytesBits(bytes[2..]));
    TwoBytes(bytes[0], bytes[1]);
  }

  lemma FourDropped(bytes: seq<byte>)
    requires |bytes| >= 4
    ensures Bits(Shr(BytesBits(bytes).v, 32), BytesBits(bytes).n - 32) == BytesBits(bytes[4..])
  {
    hide BytesBits, Load, Low, Shr, Shl, Join, Pow2;
    assert bytes == bytes[..4] + bytes[4..];
    BytesJoin(bytes[..4], bytes[4..]);
    BytesAre(bytes[..4]);
    BytesProper(bytes[..4]);
    Dropped(BytesBits(bytes[..4]), BytesBits(bytes[4..]));
  }

  /** A dictionary is asked for exactly then, right after its check and before any output. */
  lemma DictionaryAsked(c: Setup, bytes: seq<byte>)
    ensures Ok(Opened(bytes))
    ensures Ending(c, Opened(bytes)).mode == DICT <==> AsksDictionary(c, bytes)
    ensures AsksDictionary(c, bytes) ==> Ending(c, Opened(bytes)) == Verdict(DICT, [], BytesBits(bytes[6..]))
  {
    hide Ok, Step, Finish, BytesBits, Shr;
    OpenedOk(bytes);
    var s := Opened(bytes);
    BytesAre(bytes);
    InflateHeader.HeadHeld(c, s);
    if c.zlib && |bytes| >= 2 {
      WrapperStep(c, bytes);
      var s1 := Step(c, s).s;
      FinishNext(c, s, s1);
      if s1.mode == DICTID {
        BytesAre(bytes[2..]);
        InflateHeader.DictIdHeld(c, s1);
        if |bytes| >= 6 {
          FourDropped(bytes[2..]);
          assert bytes[2..][4..] == bytes[6..];
          FinishNext(c, s1, Step(c, s1).s);
          DictStops(c, Step(c, s1).s);
        } else {
          FinishEnd(c, s1);
        }
      } else {
        NoneAsked(c, s1);
      }
    } else if c.zlib {
      FinishEnd(c, s);
    } else {
      AtHead(c, s);
      FinishNext(c, s, Step(c, s).s);
      NoneAsked(c, Step(c, s).s);
    }
  }

  lemma DictStops(c: Setup, s: State)
    requires Ok(s) && s.mode == DICT
    ensures Finish(c, s) == s
  {
    hide Ok, Low, Shr, Shl, Swap32, Adler32.Check, GoodCode, Builds, CodeFound, BlockCodes.Flag;
    FinishEnd(c, s);
  }
}
