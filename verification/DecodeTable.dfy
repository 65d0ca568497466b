/**
 The two-level decoding table (zlib/inftrees.h) and what it means for it to be
 right: for every pattern of input bits, one or two table reads give the symbol
 whose canonical code those bits begin with and the length of that code.
 */
module DecodeTable {
  import opened BitOps
  import opened Canonical

  datatype CodeType = CODES | LENS | DISTS

  /** One table entry: operation, bits in this part of the code, value or offset. */
  datatype Entry = Entry(op: nat, bits: nat, val: nat)

  const LBASE: seq<nat> := [
    3, 4, 5, 6, 7, 8, 9, 10, 11, 13, 15, 17, 19, 23, 27, 31,
    35, 43, 51, 59, 67, 83, 99, 115, 131, 163, 195, 227, 258, 0, 0]
  const LEXT: seq<nat> := [
    16, 16, 16, 16, 16, 16, 16, 16, 17, 17, 17, 17, 18, 18, 18, 18,
    19, 19, 19, 19, 20, 20, 20, 20, 21, 21, 21, 21, 16, 194, 65]
  const DBASE: seq<nat> := [
    1, 2, 3, 4, 5, 7, 9, 13, 17, 25, 33, 49, 65, 97, 129, 193,
    257, 385, 513, 769, 1025, 1537, 2049, 3073, 4097, 6145,
    8193, 12289, 16385, 24577, 0, 0]
  const DEXT: seq<nat> := [
    16, 16, 16, 16, 17, 17, 18, 18, 19, 19, 20, 20, 21, 21, 22, 22,
    23, 23, 24, 24, 25, 25, 26, 26, 27, 27,
    28, 28, 29, 29, 64, 64]

  /** The alphabets the base and extra tables are made for. */
  function MaxCodes(t: CodeType): nat {
    match t
    case CODES => 19
    case LENS => 288
    case DISTS => 32
  }

  /** Operation and value of a symbol's entry; an entry is never a link. */
  function SymbolOp(t: CodeType, sym: nat): (op: nat)
    requires sym < MaxCodes(t)
    ensures op == 0 || op >= 16
  {
    match t
    case CODES => 0
    case LENS => if sym < 256 then 0 else if sym == 256 then 96 else LEXT[sym - 257]
    case DISTS => DEXT[sym]
  }

  function SymbolVal(t: CodeType, sym: nat): nat
    requires sym < MaxCodes(t)
  {
    match t
    case CODES => sym
    case LENS => if sym < 256 then sym else if sym == 256 then 0 else LBASE[sym - 257]
    case DISTS => DBASE[sym]
  }

  const Invalid: Entry := Entry(64, 1, 0)

  predicate IsLink(e: Entry) {
    0 < e.op < 16
  }

  // ------------------------------------------------------------ reading a table

  /** What a decoder learns from the table: operation, value, bits of the code. */
  datatype Found = Found(op: nat, val: nat, bits: nat)

  predicate CanLookup(tab: seq<Entry>, root: nat, h: nat) {
    && Low(h, root) < |tab|
    && var e := tab[Low(h, root)];
       IsLink(e) ==> e.val + Shr(Low(h, e.bits + e.op), e.bits) < |tab|
  }

  /** The decoder's access pattern (zlib/inflate.c:1074-1090). */
  function Lookup(tab: seq<Entry>, root: nat, h: nat): Found
    requires CanLookup(tab, root, h)
  {
    var e := tab[Low(h, root)];
    if IsLink(e) then
      var e2 := tab[e.val + Shr(Low(h, e.bits + e.op), e.bits)];
      Found(e2.op, e2.val, e.bits + e2.bits)
    else
      Found(e.op, e.val, e.bits)
  }

  /** The look-up yields f, through a link of root bits just when the code is longer than that. */
  ghost predicate Finds(tab: seq<Entry>, root: nat, h: nat, f: Found) {
    && CanLookup(tab, root, h) && Lookup(tab, root, h) == f
    && (IsLink(tab[Low(h, root)]) <==> f.bits > root)
    && (IsLink(tab[Low(h, root)]) ==> tab[Low(h, root)].bits == root)
  }

  function SymbolFound(t: CodeType, lens: seq<nat>, s: nat): Found
    requires s < |lens| <= MaxCodes(t)
  {
    Found(SymbolOp(t, s), SymbolVal(t, s), lens[s])
  }

  const InvalidFound: Found := Found(64, 0, 1)

  /** Looking up h finds the symbol whose code h begins with, or the invalid marker. */
  ghost predicate Decodes(t: CodeType, lens: seq<nat>, tab: seq<Entry>, root: nat, h: nat)
    requires |lens| <= MaxCodes(t)
  {
    && (forall s: nat :: Matches(lens, s, h) ==> Finds(tab, root, h, SymbolFound(t, lens, s)))
    && ((forall s: nat :: !Matches(lens, s, h)) ==> Finds(tab, root, h, InvalidFound))
  }

  ghost predicate TableFor(t: CodeType, lens: seq<nat>, tab: seq<Entry>, root: nat)
    requires |lens| <= MaxCodes(t)
  {
    forall h: nat :: Decodes(t, lens, tab, root, h)
  }
}
