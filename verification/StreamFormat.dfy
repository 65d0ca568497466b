/**
 What a compressed stream is (RFC 1951, and RFC 1950 for the wrapper), said without any decoder: the bits
 that blocks of any kind are written as, from what they mean.  An encoder is free in how it codes the
 code lengths, in the padding, and in which codes it uses; all of that is allowed here.
 */
module StreamFormat {
  import opened BitOps
  import opened Canonical
  import opened DecodeTable
  import opened RunLengths
  import opened BitStream
  import opened CodeReading
  import opened CodeLengths
  import opened CodeLookup
  import opened BlockHeader
  import opened LengthCodes
  import opened Lz77
  import opened Blocks
  import opened StaticTrees
  import opened SentBlock
  import opened InflateSpec
  import RoundTrip
  import Adler32

  // ------------------------------------------------------------- literals and references

  /** A literal, or a length code and a distance code with the numbers in their extra bits. */
  datatype Piece = Lit(b: byte) | Ref(lc: nat, lx: nat, dc: nat, dx: nat)

  /** The piece can be written with these code lengths. */
  ghost predicate GoodPiece(ll: seq<nat>, dl: seq<nat>, p: Piece) {
    match p
    case Lit(b) => b < |ll| && ll[b] != 0
    case Ref(lc, lx, dc, dx) =>
      && lc < LENGTH_CODES && 257 + lc < |ll| && ll[257 + lc] != 0 && lx < Pow2(EXTRA_LBITS[lc])
      && dc < D_CODES && dc < |dl| && dl[dc] != 0 && dx < Pow2(EXTRA_DBITS[dc])
  }

  ghost function PieceBits(ll: seq<nat>, dl: seq<nat>, p: Piece): Bits
    requires GoodPiece(ll, dl, p)
  {
    match p
    case Lit(b) => CodeOf(ll, b)
    case Ref(lc, lx, dc, dx) =>
      Join(Join(CodeOf(ll, 257 + lc), Bits(lx, EXTRA_LBITS[lc])), Join(CodeOf(dl, dc), Bits(dx, EXTRA_DBITS[dc])))
  }

  /** Length and distance codes that mean something. */
  predicate Named(p: Piece) {
    p.Ref? ==> p.lc < LENGTH_CODES && p.dc < D_CODES
  }

  /** What it stands for (section 3.2.5 of RFC 1951). */
  function Meaning(p: Piece): Symbol
    requires Named(p)
  {
    match p
    case Lit(b) => Literal(b)
    case Ref(lc, lx, dc, dx) => Match(DBASE[dc] + dx, LBASE[lc] + lx)
  }

  ghost predicate GoodPieces(ll: seq<nat>, dl: seq<nat>, pieces: seq<Piece>) {
    256 < |ll| && ll[256] != 0 && forall x :: x in pieces ==> GoodPiece(ll, dl, x)
  }

  /** The pieces of a block and its end. */
  ghost function PiecesBits(ll: seq<nat>, dl: seq<nat>, pieces: seq<Piece>): Bits
    requires GoodPieces(ll, dl, pieces)
    decreases |pieces|
  {
    if pieces == [] then CodeOf(ll, 256) else Join(PieceBits(ll, dl, pieces[0]), PiecesBits(ll, dl, pieces[1..]))
  }

  /** The text after the pieces. */
  function AfterPieces(out: seq<byte>, pieces: seq<Piece>): Decoded
    decreases |pieces|
  {
    if pieces == [] then Decoded(out)
    else if Named(pieces[0]) && CanApply(out, Meaning(pieces[0])) then
      AfterPieces(Apply(out, Meaning(pieces[0])), pieces[1..])
    else Decoded.TooFarBack
  }

  // ------------------------------------------------------------- the header of a dynamic block

  /** The code lengths of both trees, the 19 that code them, how many of those are sent, and the tokens. */
  datatype Header = Header(lit: seq<nat>, dist: seq<nat>, short: seq<nat>, n: nat, tokens: seq<Token>)

  ghost predicate GoodSizes(h: Header) {
    && 257 <= |h.lit| <= 286 && 1 <= |h.dist| <= 30 && 4 <= h.n <= BL_CODES
    && ZeroFrom(h.short, h.n) && forall i :: 0 <= i < |h.short| ==> h.short[i] <= 7
  }

  /** The tokens expand to the lengths, there is an end of block, and all three sets of lengths are complete, but
      for the exceptions that inflate allows, and find room. */
  ghost predicate GoodHeading(c: Setup, h: Header) {
    && GoodSizes(h) && GoodCode(CODES, h.short)
    && HaveCodes(h.short, h.tokens) && Expand([], h.tokens) == Lengths(h.lit + h.dist)
    && h.lit[256] != 0 && ValidLens(h.lit) && ValidLens(h.dist)
    && Builds(LENS, h.lit, 9, c.enoughLens) && Builds(DISTS, h.dist, 6, c.enoughDists)
  }

  ghost function HeadingBits(h: Header): Bits
    requires GoodSizes(h) && HaveCodes(h.short, h.tokens)
  {
    Join(CountBits(|h.lit|, |h.dist|, h.n), Join(OrderBits(h.short, 0, h.n), TokensBits(h.short, h.tokens)))
  }

  // ----------------------------------------------------------------------------- blocks

  datatype Section = Plain(pad: nat, data: seq<byte>) | Fixed(pieces: seq<Piece>) | Dynamic(h: Header,
      pieces: seq<Piece>)

  /** Padding of any value up to the next byte after n bits. */
  function Filler(n: nat, v: nat): Bits {
    Bits(v, Pad(n).n)
  }

  ghost predicate GoodSection(c: Setup, b: Section, p: nat) {
    match b
    case Plain(pad, data) => Proper(Filler(p + 3, pad)) && |data| < 0x10000
    case Fixed(pieces) => GoodPieces(StaticLit(), FixedDist(), pieces)
    case Dynamic(h, pieces) => GoodHeading(c, h) && GoodPieces(h.lit, h.dist, pieces)
  }

  /** A block that begins at bit p. */
  ghost function SectionBits(c: Setup, b: Section, p: nat, last: bool): Bits {
    if !GoodSection(c, b, p) then NoBits
    else match b
      case Plain(pad, data) =>
        Join(BlockType(STORED_BLOCK, last),
             Join(Filler(p + 3, pad), Join(Bits(|data|, 16), Join(Bits(0xffff - |data|, 16), BytesBits(data)))))
      case Fixed(pieces) => Join(BlockType(STATIC_TREES, last), PiecesBits(StaticLit(), FixedDist(), pieces))
      case Dynamic(h, pieces) =>
        Join(BlockType(DYN_TREES, last), Join(HeadingBits(h), PiecesBits(h.lit, h.dist, pieces)))
  }

  function AfterSection(out: seq<byte>, b: Section): Decoded {
    if b.Plain? then Decoded(out + b.data) else AfterPieces(out, b.pieces)
  }

  /** One block or more, the first at bit p. */
  ghost predicate GoodSections(c: Setup, bs: seq<Section>, p: nat)
    decreases |bs|
  {
    && bs != [] && GoodSection(c, bs[0], p)
    && (|bs| == 1 || GoodSections(c, bs[1..], p + SectionBits(c, bs[0], p, false).n))
  }

  /** The last one is marked. */
  ghost function SectionsBits(c: Setup, bs: seq<Section>, p: nat): Bits
    decreases |bs|
  {
    if bs == [] then NoBits
    else if |bs| == 1 then SectionBits(c, bs[0], p, true)
    else
      var b := SectionBits(c, bs[0], p, false);
      Join(b, SectionsBits(c, bs[1..], p + b.n))
  }

  function AfterSections(out: seq<byte>, bs: seq<Section>): Decoded
    decreases |bs|
  {
    if bs == [] then Decoded(out)
    else match AfterSection(out, bs[0])
      case TooFarBack => Decoded.TooFarBack
      case Decoded(mid) => AfterSections(mid, bs[1..])
  }

  // ----------------------------------------------------------------------------- streams

  /** The two bytes before a zlib stream, its blocks, and the value of the padding after them. */
  datatype Stream = Stream(b0: byte, b1: byte, blocks: seq<Section>, pad: nat)

  /** Method 8, a window of at most 32K, no dictionary, and a multiple of 31 (section 2.2 of RFC 1950). */
  predicate GoodWrapper(b0: byte, b1: byte) {
    b0 % 16 == 8 && b0 / 16 <= 7 && b1 / 32 % 2 == 0 && (256 * (b0 as int) + b1) % 31 == 0
  }

  function WrapperBits(c: Setup, st: Stream): Bits {
    if c.zlib then BytesBits([st.b0, st.b1]) else NoBits
  }

  /** The check, most significant byte first. */
  function TrailerBits(c: Setup, text: seq<byte>): Bits {
    if c.zlib then BytesBits(RoundTrip.AdlerBytes(Adler32.Check(1, text))) else NoBits
  }

  ghost predicate GoodStream(c: Setup, st: Stream, text: seq<byte>) {
    var p := WrapperBits(c, st).n;
    && (c.zlib ==> GoodWrapper(st.b0, st.b1))
    && GoodSections(c, st.blocks, p) && AfterSections([], st.blocks) == Decoded(text)
    && Proper(Filler(p + SectionsBits(c, st.blocks, p).n, st.pad))
  }

  ghost function StreamBits(c: Setup, st: Stream, text: seq<byte>): Bits
    requires GoodStream(c, st, text)
  {
    var head := WrapperBits(c, st);
    var body := SectionsBits(c, st.blocks, head.n);
    Join(head, Join(body, Join(Filler(head.n + body.n, st.pad), TrailerBits(c, text))))
  }

  /** These bytes are a whole stream of the text. */
  ghost predicate IsStream(c: Setup, bytes: seq<byte>, text: seq<byte>) {
    exists st: Stream :: GoodStream(c, st, text) && BytesBits(bytes) == StreamBits(c, st, text)
  }
}
