/**
 A block's symbols as bits (section 3.2.5 of RFC 1951): what inflate's states LEN,
 LENEXT, DIST and DISTEXT make of the bits that `compress_block` writes.
 */
module BlockCodes {
  import opened BitOps
  import opened DecodeTable
  import opened BitStream
  import opened CodeReading
  import opened LengthCodes
  import opened Lz77

  const LITERALS: nat := 256
  const END_BLOCK: nat := 256

  /** base_length, _length_code, base_dist and _dist_code. */
  datatype Tables = Tables(baseLength: seq<nat>, lengthCode: seq<nat>, baseDist: seq<nat>, distCode: seq<nat>)

  ghost predicate GoodTables(t: Tables) {
    LengthTables(t.baseLength, t.lengthCode) && DistTables(t.baseDist, t.distCode)
  }

  /** Lengths and distances of the format. */
  predicate Codable(s: Symbol) {
    s.Match? ==> 3 <= s.len <= 258 && 1 <= s.dist <= 0x8000
  }

  /** Literal and distance code lengths. */
  datatype Codes = Codes(ll: seq<nat>, dl: seq<nat>)

  /** Extra bits, if there are any. */
  function Extra(v: nat, n: nat): Bits {
    if n == 0 then NoBits else Bits(v, n)
  }

  ghost predicate HasSymbol(lens: seq<nat>, s: nat) {
    s < |lens| && lens[s] != 0
  }

  ghost predicate HasCodes(t: Tables, cs: Codes, s: Symbol)
    requires GoodTables(t)
  {
    && Codable(s) && HasSymbol(cs.ll, END_BLOCK)
    && match s
       case Literal(c) => HasSymbol(cs.ll, c)
       case Match(dist, len) =>
         HasSymbol(cs.ll, LITERALS + 1 + t.lengthCode[len - 3]) && HasSymbol(cs.dl, DCode(t.distCode, dist - 1))
  }

  /** What is sent after the code of length lc + 3. */
  ghost function LengthExtra(t: Tables, lc: nat): Bits
    requires GoodTables(t) && lc < 256
  {
    var c := t.lengthCode[lc];
    assert LengthCodeFor(c, t.baseLength[c], lc);
    if EXTRA_LBITS[c] == 0 then NoBits
    else assert c != 28; Bits(lc - t.baseLength[c], EXTRA_LBITS[c])
  }

  ghost function LengthBits(t: Tables, cs: Codes, len: nat): Bits
    requires GoodTables(t) && 3 <= len <= 258 && LITERALS + 1 + t.lengthCode[len - 3] < |cs.ll|
  {
    Join(CodeOf(cs.ll, LITERALS + 1 + t.lengthCode[len - 3]), LengthExtra(t, len - 3))
  }

  ghost function DistBits(t: Tables, cs: Codes, dist: nat): Bits
    requires GoodTables(t) && 1 <= dist <= 0x8000 && DCode(t.distCode, dist - 1) < |cs.dl|
  {
    var c := DCode(t.distCode, dist - 1);
    assert DistCoded(c, t.baseDist[c], dist - 1);
    Join(CodeOf(cs.dl, c), Extra(dist - 1 - t.baseDist[c], EXTRA_DBITS[c]))
  }

  ghost function SymbolBits(t: Tables, cs: Codes, s: Symbol): Bits
    requires GoodTables(t) && HasCodes(t, cs, s)
  {
    match s
    case Literal(c) => CodeOf(cs.ll, c)
    case Match(dist, len) => Join(LengthBits(t, cs, len), DistBits(t, cs, dist))
  }

  ghost predicate AllCodes(t: Tables, cs: Codes, syms: seq<Symbol>)
    requires GoodTables(t)
  {
    HasSymbol(cs.ll, END_BLOCK) && forall s :: s in syms ==> HasCodes(t, cs, s)
  }

  /** The symbols, and the end of the block. */
  ghost function BlockBits(t: Tables, cs: Codes, syms: seq<Symbol>): Bits
    requires GoodTables(t) && AllCodes(t, cs, syms)
    decreases |syms|
  {
    if syms == [] then CodeOf(cs.ll, END_BLOCK)
    else Join(SymbolBits(t, cs, syms[0]), BlockBits(t, cs, syms[1..]))
  }

  // ------------------------------------------------------------------- reading

  predicate Flag(op: nat, bit: nat)
    requires bit > 0
  {
    op / bit % 2 == 1
  }

  // --------------------------------------------------------------- round trip

  lemma ExtraFollowed(v: nat, n: nat, rest: nat)
    requires v < Pow2(n)
    ensures Low(Followed(Extra(v, n), rest), n) == v && Shr(Followed(Extra(v, n), rest), n) == rest
  {
    if n == 0 {
      FollowedNone(rest);
    } else {
      FollowedBack(Bits(v, n), rest);
    }
  }

  lemma DistOp(c: nat)
    requires c < D_CODES
    ensures !Flag(SymbolOp(DISTS, c), 64) && SymbolOp(DISTS, c) % 16 == EXTRA_DBITS[c]
  {
    hide Span;
    DistBases(c);
  }

  lemma DistBack(t: Tables, dist: nat, rest: nat)
    requires GoodTables(t) && dist < 0x8000
    ensures var c := DCode(t.distCode, dist);
      && c < D_CODES && t.baseDist[c] <= dist
      && var h := Followed(Extra(dist - t.baseDist[c], EXTRA_DBITS[c]), rest);
         DBASE[c] + Low(h, EXTRA_DBITS[c]) == dist + 1 && Shr(h, EXTRA_DBITS[c]) == rest
  {
    hide Low, Shr, Followed, Span, Extra;
    var c := DCode(t.distCode, dist);
    assert DistCoded(c, t.baseDist[c], dist);
    SpanIs(EXTRA_DBITS[c]);
    ExtraFollowed(dist - t.baseDist[c], EXTRA_DBITS[c], rest);
  }

  lemma LengthOp(c: nat)
    requires c < LENGTH_CODES
    ensures var op := SymbolOp(LENS, LITERALS + 1 + c);
      op != 0 && !Flag(op, 32) && !Flag(op, 64) && op % 16 == EXTRA_LBITS[c]
  {
    hide Span;
    LengthBases(c);
  }

  /** The extra bits, added to the decoder's base, give the length. */
  lemma LengthBack(t: Tables, lc: nat, rest: nat)
    requires GoodTables(t) && lc < 256
    ensures var c, h := t.lengthCode[lc], Followed(LengthExtra(t, lc), rest);
      LBASE[c] + Low(h, EXTRA_LBITS[c]) == lc + 3 && Shr(h, EXTRA_LBITS[c]) == rest
  {
    hide Low, Shr, Followed, Span;
    var c := t.lengthCode[lc];
    assert LengthCodeFor(c, t.baseLength[c], lc);
    LengthBases(c);
    SpanIs(EXTRA_LBITS[c]);
    SpanValues();
    if EXTRA_LBITS[c] == 0 {
      ExtraFollowed(0, 0, rest);
    } else {
      ExtraFollowed(lc - t.baseLength[c], EXTRA_LBITS[c], rest);
    }
  }

}
