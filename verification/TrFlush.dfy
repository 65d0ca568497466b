/**
 `_tr_flush_block` as a whole (zlib/trees.c:912-1008): build the trees, choose the
 cheapest form, send it.  And the tallying between flushes (zlib/deflate.h:321-339,
 zlib/trees.c:407-420), which keeps the frequencies those of the symbols.
 */
module TrFlush {
  import opened BitOps
  import opened Canonical
  import opened GenBitlen
  import opened BuildTree
  import opened BitStream
  import opened CodeLengths
  import opened BlockHeader
  import opened HeaderCost
  import opened LengthCodes
  import opened Lz77
  import opened BlockCodes
  import opened BlockCost
  import opened CompressBlock
  import opened StaticTrees
  import opened SentBlock
  import opened FlushBlock
  import HeapMerge

  // ------------------------------------------------------------------ tallying

  lemma {:induction false} LitCountAdd(t: Tables, syms: seq<Symbol>, s: Symbol, k: nat)
    requires GoodTables(t) && (forall x :: x in syms ==> Codable(x)) && Codable(s)
    ensures LitCount(t, syms + [s], k) == LitCount(t, syms, k) + (if LitSymbol(t, s) == k then 1 else 0)
    decreases |syms|
  {
    hide GoodTables, LitSymbol;
    if syms == [] {
      assert ([] + [s])[1..] == [];
    } else {
      assert (syms + [s])[1..] == syms[1..] + [s];
      LitCountAdd(t, syms[1..], s, k);
    }
  }

  lemma {:induction false} DistCountAdd(t: Tables, syms: seq<Symbol>, s: Symbol, k: nat)
    requires GoodTables(t) && (forall x :: x in syms ==> Codable(x)) && Codable(s)
    ensures DistCount(t, syms + [s], k)
         == DistCount(t, syms, k) + (if s.Match? && DistSymbol(t, s.dist) == k then 1 else 0)
    decreases |syms|
  {
    hide GoodTables, DistSymbol;
    if syms == [] {
      assert ([] + [s])[1..] == [];
    } else {
      assert (syms + [s])[1..] == syms[1..] + [s];
      DistCountAdd(t, syms[1..], s, k);
    }
  }

  /** The frequency part of _tr_tally_lit and _tr_tally_dist. */
  method TallyFreq(lfc: array<nat>, dfc: array<nat>, lengthCode: array<nat>, distCode: array<nat>, s: Symbol,
                   ghost t: Tables, ghost syms: seq<Symbol>)
    requires lfc != dfc && lengthCode !in {lfc, dfc} && distCode !in {lfc, dfc}
    requires GoodTables(t) && t.lengthCode == lengthCode[..] && t.distCode == distCode[..]
    requires (forall x :: x in syms ==> Codable(x)) && Codable(s) && Tallies(t, syms, lfc[..], dfc[..])
    modifies lfc, dfc
    ensures Tallies(t, syms + [s], lfc[..], dfc[..])
  {
    hide Pow2, Span, Coded, LengthCodeFor;
    LitSymbolBound(t, s);
    hide GoodTables, LitCount, DistCount, DCode;
    forall k: nat | k < 286 ensures LitCount(t, syms + [s], k) == LitCount(t, syms,
        k) + (if LitSymbol(t, s) == k then 1 else 0) {
      LitCountAdd(t, syms, s, k);
    }
    forall k: nat | k < 30
      ensures DistCount(t, syms + [s], k)
           == DistCount(t, syms, k) + (if s.Match? && DistSymbol(t, s.dist) == k then 1 else 0)
    {
      DistCountAdd(t, syms, s, k);
    }
    match s {
      case Literal(c) =>
        lfc[c] := lfc[c] + 1;
      case Match(dist, len) =>
        var l, d := lengthCode[len - 3] + LITERALS + 1, DCode(distCode[..], dist - 1);
        lfc[l] := lfc[l] + 1;
        dfc[d] := dfc[d] + 1;
    }
  }

  /** init_block: no symbols but the end of the block. */
  method InitBlock(st: TreeState, a: TreeArrays, ghost t: Tables)
    requires Separate(st, a) && GoodTables(t)
    modifies st, a.lfc, a.dfc, a.bfc
    ensures Tallies(t, [], a.lfc[..], a.dfc[..])
    ensures forall k :: 0 <= k < BL_CODES ==> a.bfc[k] == 0
    ensures st.optLen == 0 && st.staticLen == 0
  {
    for n := 0 to 286 invariant forall k :: 0 <= k < n ==> a.lfc[k] == 0 { a.lfc[n] := 0; }
    for n := 0 to D_CODES
      modifies a.dfc
      invariant forall k :: 0 <= k < n ==> a.dfc[k] == 0
    {
      a.dfc[n] := 0;
    }
    for n := 0 to BL_CODES
      modifies a.bfc
      invariant forall k :: 0 <= k < n ==> a.bfc[k] == 0
    {
      a.bfc[n] := 0;
    }
    a.lfc[END_BLOCK] := 1;
    st.optLen, st.staticLen := 0, 0;
  }

  // ------------------------------------------------------------------- choosing

  /** Bytes that n bits reach into. */
  function ByteCount(n: nat): nat {
    (n + 7) / 8
  }

  /** Lengths that leave no code unused. */
  ghost predicate CompleteTrees(lit: seq<nat>, dist: seq<nat>, bl: seq<nat>) {
    && |lit| <= 288 && |dist| <= 32 && |bl| <= 19 && ValidLens(lit) && ValidLens(dist) && ValidLens(bl)
    && Kraft(lit) == Kraft(dist) == Kraft(bl) == Pow2(MAXBITS)
  }

  /** What was sent: the stored, static or dynamic form of the block. */
  datatype Form = StoredForm | StaticForm | DynamicForm(lit: seq<nat>, dist: seq<nat>, bl: seq<nat>, n: nat)

  ghost predicate GoodForm(f: Form, t: Tables, syms: seq<Symbol>, buf: seq<byte>)
    requires GoodTables(t)
  {
    match f
    case StoredForm => |buf| < 0x10000
    case StaticForm => AllCodes(t, StaticCodes(), syms)
    case DynamicForm(lit, dist, bl, n) =>
      GoodHeader(lit, dist, bl, n) && CompleteTrees(lit, dist, bl) && AllCodes(t, Codes(lit, dist), syms)
  }

  /** The bits of the block when it begins at bit p. */
  ghost function FormBits(f: Form, t: Tables, syms: seq<Symbol>, buf: seq<byte>, p: nat, last: bool): Bits
    requires GoodTables(t) && GoodForm(f, t, syms, buf)
  {
    match f
    case StoredForm => StoredBits(p, last, buf)
    case StaticForm => StaticBits(t, syms, last)
    case DynamicForm(lit, dist, bl, n) => DynamicBits(lit, dist, bl, n, t, syms, last)
  }

  /** The static trees' lengths are in the descriptions. */
  ghost predicate StaticDescs(ld: StaticDesc, dd: StaticDesc) {
    LitDesc(ld) && DistDesc(dd) && ld.hasTree && dd.hasTree && ld.tree == StaticLit() && dd.tree == StaticDist(30)
  }

  lemma StaticHasAll(t: Tables, syms: seq<Symbol>)
    requires GoodTables(t) && forall s :: s in syms ==> Codable(s)
    ensures AllCodes(t, StaticCodes(), syms)
  {
    hide GoodTables;
    forall s | s in syms ensures HasCodes(t, StaticCodes(), s) { LitSymbolBound(t, s); }
  }

  /** static_len is exact. */
  lemma StaticExact(t: Tables, syms: seq<Symbol>, fl: seq<nat>, fd: seq<nat>, ld: StaticDesc, dd: StaticDesc,
      last: bool)
    requires GoodTables(t) && (forall s :: s in syms ==> Codable(s)) && StaticDescs(ld, dd) && Tallies(t, syms, fl, fd)
    ensures AllCodes(t, StaticCodes(), syms)
    ensures StaticBits(t, syms, last).n
         == 3 + BuildTree.SymbolBits(fl, ld.tree, ld) + BuildTree.SymbolBits(fd, dd.tree, dd)
  {
    hide GoodTables, Planned, BlockBits, BuildTree.SymbolBits, Tallies, Shl;
    StaticHasAll(t, syms);
    PlannedFrom(t, syms, fl, fd, ld.tree, dd.tree, ld, dd);
    PlanIsExact(t, StaticCodes(), ld.tree, dd.tree, syms, ld, dd);
  }

  /** opt_len is exact. */
  lemma DynamicExact(t: Tables, syms: seq<Symbol>, lit: seq<nat>, dist: seq<nat>, bl: seq<nat>, n: nat,
                     ll: seq<nat>, dl: seq<nat>, ld: StaticDesc, dd: StaticDesc, last: bool)
    requires GoodTables(t) && (forall s :: s in syms ==> Codable(s)) && LitDesc(ld) && DistDesc(dd)
    requires GoodHeader(lit, dist, bl, n) && AllCodes(t, Codes(lit, dist), syms)
    requires |ll| >= 286 && |dl| >= 30 && LengthsOf(Codes(lit, dist), ll, dl)
    ensures DynamicBits(lit, dist, bl, n, t, syms, last).n
         == 3 + Planned(t, ll, dl, syms, ld, dd) + HeaderBits(lit, dist, bl, n).n
  {
    hide GoodTables, Planned, BlockBits, HeaderBits, AllCodes, GoodHeader, Shl;
    PlanIsExact(t, Codes(lit, dist), ll, dl, syms, ld, dd);
  }

  lemma StoredSize(p: nat, last: bool, buf: seq<byte>)
    requires |buf| < 0x10000
    ensures ByteCount(p + StoredBits(p, last, buf).n) <= ByteCount(p) + |buf| + 5
  {
    hide Shl, Load;
  }

  lemma SmallForm(p: nat, bits: nat, len: nat)
    requires (bits + 10) / 8 < len + 4
    ensures ByteCount(p + bits + 3) <= ByteCount(p) + len + 5
  {
  }

  lemma DynComplete(a: TreeArrays, t: Tables, syms: seq<Symbol>, lmax: nat, dmax: nat, n: nat)
    requires GoodTables(t) && FlushBlock.DynReady(a, t, syms, lmax, dmax, n)
    ensures lmax < a.ldl.Length && dmax < a.ddl.Length && BL_CODES <= a.bdl.Length
    ensures CompleteTrees(a.ldl[..lmax + 1], a.ddl[..dmax + 1], a.bdl[..BL_CODES])
  {
    hide GoodTables, AllCodes, HaveCodes, TreeReady, CodesReady, KraftBelow, Pow2;
  }

  ghost predicate Apart(st: TreeState, a: TreeArrays, s: set<object>) {
    s !! {st.heap, st.depth, st.blCount, a.lfc, a.ldl, a.dfc, a.ddl, a.bfc, a.bdl}
  }

  /** The static tables, and the trees of this block, that a dynamic block is sent with. */
  ghost predicate Dynamics(st: TreeState, a: TreeArrays, dyn: Arrays, t: Tables)
    reads dyn.baseLength, dyn.lengthCode, dyn.baseDist, dyn.distCode
  {
    && t == Tables(dyn.baseLength[..], dyn.lengthCode[..], dyn.baseDist[..], dyn.distCode[..]) && Shares(dyn, a)
    && Apart(st, a, {dyn.baseLength, dyn.lengthCode, dyn.baseDist, dyn.distCode})
  }

  /** The static tables and trees. */
  ghost predicate Statics(st: TreeState, a: TreeArrays, fix: Arrays, t: Tables)
    requires GoodTables(t)
    reads fix.baseLength, fix.lengthCode, fix.baseDist, fix.distCode, fix.lcode, fix.llen, fix.dcode, fix.dlen
  {
    && Ready(fix, t, StaticCodes())
    && Apart(st, a, {fix.baseLength, fix.lengthCode, fix.baseDist, fix.distCode, fix.lcode, fix.llen, fix.dcode,
        fix.dlen})
  }

  /** zlib/trees.c:963-993: the block in the form chosen. */
  method SendForm(w: BitWriter, ghost st: TreeState, a: TreeArrays, dyn: Arrays, fix: Arrays, symBuf: seq<byte>,
      buf: seq<byte>, stored: bool, fixed: bool,
                  lmax: nat, dmax: nat, maxBlindex: nat, last: bool, ghost t: Tables, ghost syms: seq<Symbol>)
    returns (ghost form: Form)
    requires w.Valid() && GoodTables(t) && (forall s :: s in syms ==> Codable(s)) && symBuf == SymBuf(syms)
    requires FlushBlock.DynReady(a, t, syms, lmax, dmax, maxBlindex + 1) && AllCodes(t, StaticCodes(), syms)
    requires Dynamics(st, a, dyn, t) && Statics(st, a, fix, t) && (stored ==> |buf| < 0x10000)
    modifies w
    ensures w.Valid() && GoodForm(form, t, syms, buf)
    ensures lmax < a.ldl.Length && dmax < a.ddl.Length && BL_CODES <= a.bdl.Length
    ensures form == if stored then StoredForm else if fixed then StaticForm
      else DynamicForm(a.ldl[..lmax + 1], a.ddl[..dmax + 1], a.bdl[..BL_CODES], maxBlindex + 1)
    ensures w.Written() == Join(old(w.Written()), FormBits(form, t, syms, buf, old(w.Written().n), last))
  {
    hide GoodTables, AllCodes, GoodHeader, CompleteTrees, Join, DynamicBits, StaticBits, StoredBits, TreeReady,
      CodesReady, SymBuf, Kraft, Pow2, BlCode;
    DynComplete(a, t, syms, lmax, dmax, maxBlindex + 1);
    if stored {
      form := StoredForm;
      SendStored(w, buf, last);
    } else if fixed {
      form := StaticForm;
      SendStatic(w, fix, symBuf, last, t, syms);
    } else {
      form := DynamicForm(a.ldl[..lmax + 1], a.ddl[..dmax + 1], a.bdl[..BL_CODES], maxBlindex + 1);
      SendDynamic(w, a, dyn, symBuf, lmax, dmax, maxBlindex, last, t, syms);
    }
  }

  /** zlib/trees.c:928-956: the trees, and what the two coded forms would cost. */
  method PlanBlock(st: TreeState, a: TreeArrays, dyn: Arrays, fix: Arrays, ld: StaticDesc, dd: StaticDesc,
      bd: StaticDesc, last: bool,
                   ghost t: Tables, ghost syms: seq<Symbol>)
    returns (lmax: nat, dmax: nat, maxBlindex: nat, ghost dynamic: Form)
    requires Separate(st, a) && StaticDescs(ld, dd) && BlDesc(bd)
    requires GoodTables(t) && (forall s :: s in syms ==> Codable(s)) && |syms| + 3 < HeapMerge.FREQ_RANGE
    requires Tallies(t, syms, a.lfc[..], a.dfc[..]) && (forall k :: 0 <= k < BL_CODES ==> a.bfc[k] == 0)
    requires st.optLen == 0 && st.staticLen == 0 && Dynamics(st, a, dyn, t) && Statics(st, a, fix, t)
    modifies st, st.heap, st.depth, st.blCount, a.lfc, a.ldl, a.dfc, a.ddl, a.bfc, a.bdl
    ensures Dynamics(st, a, dyn, t) && Statics(st, a, fix, t) && st.optLen >= 0 && st.staticLen >= 0
    ensures FlushBlock.DynReady(a, t, syms, lmax, dmax, maxBlindex + 1) && AllCodes(t, StaticCodes(), syms)
    ensures lmax < a.ldl.Length && dmax < a.ddl.Length && BL_CODES <= a.bdl.Length
    ensures dynamic == DynamicForm(a.ldl[..lmax + 1], a.ddl[..dmax + 1], a.bdl[..BL_CODES], maxBlindex + 1)
    ensures GoodForm(dynamic, t, syms, []) && 3 + st.optLen == FormBits(dynamic, t, syms, [], 0, last).n
    ensures 3 + st.staticLen == StaticBits(t, syms, last).n
  {
    hide GoodTables, Planned, HeaderBits, AllCodes, GoodHeader, CompleteTrees, Shl, Tallies, BuildTree.SymbolBits, Join,
      DynamicBits, StaticBits, StoredBits, TreeReady, CodesReady, Pow2, BlCode, LitDesc, DistDesc, BlDesc, Kraft, Pad,
      Load, LengthsOf, DistCount;
    StaticExact(t, syms, a.lfc[..], a.dfc[..], ld, dd, last);
    ghost var ll, dl;
    lmax, dmax, maxBlindex, ll, dl := DynamicTrees(st, a, ld, dd, bd, t, syms);
    ghost var lit: seq<nat>, dist: seq<nat>, bl: seq<nat> := a.ldl[..lmax + 1], a.ddl[..dmax + 1], a.bdl[..BL_CODES];
    DynamicExact(t, syms, lit, dist, bl, maxBlindex + 1, ll, dl, ld, dd, last);
    DynComplete(a, t, syms, lmax, dmax, maxBlindex + 1);
    dynamic := DynamicForm(lit, dist, bl, maxBlindex + 1);
  }

  /** _tr_flush_block at level 1 or above; buf is the block's text when it is still in the window, and fixed says
      whether the strategy is Z_FIXED. */
  method TrFlushBlock(st: TreeState, w: BitWriter, a: TreeArrays, dyn: Arrays, fix: Arrays,
                      ld: StaticDesc, dd: StaticDesc, bd: StaticDesc, symBuf: seq<byte>,
                      buf: seq<byte>, hasBuf: bool, storedLen: nat, last: bool, fixed: bool,
                      ghost t: Tables, ghost syms: seq<Symbol>)
    returns (ghost form: Form, ghost dynamic: Form)
    requires Separate(st, a) && w.Valid() && StaticDescs(ld, dd) && BlDesc(bd)
    requires GoodTables(t) && (forall s :: s in syms ==> Codable(s)) && |syms| + 3 < HeapMerge.FREQ_RANGE
    requires Tallies(t, syms, a.lfc[..], a.dfc[..]) && (forall k :: 0 <= k < BL_CODES ==> a.bfc[k] == 0)
    requires st.optLen == 0 && st.staticLen == 0
    requires Dynamics(st, a, dyn, t) && Statics(st, a, fix, t)
    requires symBuf == SymBuf(syms) && (hasBuf ==> storedLen == |buf| < 0x10000)
    modifies st, st.heap, st.depth, st.blCount, a.lfc, a.ldl, a.dfc, a.ddl, a.bfc, a.bdl, w
    ensures w.Valid() && GoodForm(form, t, syms, buf) && (form.StoredForm? ==> hasBuf) && (last ==> w.biValid == 0)
    ensures dynamic.DynamicForm? && GoodForm(dynamic, t, syms, []) && AllCodes(t, StaticCodes(), syms)
    ensures var plain, coded := ByteCount(StaticBits(t, syms, last).n),
      ByteCount(FormBits(dynamic, t, syms, [], 0, last).n);
      && (form.StoredForm? <==> hasBuf && storedLen + 4 <= plain && (fixed || storedLen + 4 <= coded))
      && (form.StaticForm? <==> !form.StoredForm? && (fixed || plain <= coded))
      && (form.DynamicForm? ==> form == dynamic)
    ensures var sent := Join(old(w.Written()), FormBits(form, t, syms, buf, old(w.Written().n), last));
      w.Written() == if last then Join(sent, Pad(sent.n)) else sent
    ensures hasBuf ==> ByteCount(w.Written().n) <= ByteCount(old(w.Written().n)) + storedLen + 5
    ensures Tallies(t, [], a.lfc[..], a.dfc[..]) && (forall k :: 0 <= k < BL_CODES ==> a.bfc[k] == 0)
    ensures st.optLen == 0 && st.staticLen == 0
  {
    hide GoodTables, AllCodes, GoodHeader, CompleteTrees, Tallies, Join, DynamicBits, StaticBits, StoredBits, TreeReady,
      CodesReady, BlCode, StaticDescs, BlDesc, Pad, SymBuf, FlushBlock.DynReady, BitWriter.Valid, BitWriter.Written,
      Dynamics, Statics, Ready;
    ghost var was, p := w.Written(), w.Written().n;
    var lmax, dmax, maxBlindex;
    lmax, dmax, maxBlindex, dynamic := PlanBlock(st, a, dyn, fix, ld, dd, bd, last, t, syms);
    var optLenb, staticLenb := (st.optLen + 3 + 7) / 8, (st.staticLen + 3 + 7) / 8;
    if staticLenb <= optLenb || fixed { optLenb := staticLenb; }
    form := SendForm(w, st, a, dyn, fix, symBuf, buf, storedLen + 4 <= optLenb && hasBuf, staticLenb == optLenb, lmax,
        dmax, maxBlindex,
                     last, t, syms);
    if form.StoredForm? { StoredSize(p, last, buf); }
    if hasBuf && !form.StoredForm? { SmallForm(p, (if form.StaticForm? then st.staticLen else st.optLen) as nat,
        storedLen); }
    Sizes(was, FormBits(form, t, syms, buf, p, last));
    EndBlock(st, w, a, last, t);
  }

  /** zlib/trees.c:998-1005. */
  method EndBlock(st: TreeState, w: BitWriter, a: TreeArrays, last: bool, ghost t: Tables)
    requires Separate(st, a) && w.Valid() && GoodTables(t)
    modifies st, a.lfc, a.dfc, a.bfc, w
    ensures w.Valid() && (last ==> w.biValid == 0) && ByteCount(w.Written().n) == ByteCount(old(w.Written().n))
    ensures w.Written() == if last then Join(old(w.Written()), Pad(old(w.Written().n))) else old(w.Written())
    ensures Tallies(t, [], a.lfc[..], a.dfc[..]) && (forall k :: 0 <= k < BL_CODES ==> a.bfc[k] == 0)
    ensures st.optLen == 0 && st.staticLen == 0
  {
    hide GoodTables, Tallies, Join, Pad, BitWriter.Valid, BitWriter.Written;
    InitBlock(st, a, t);
    if last {
      PadSize(w.Written());
      w.Windup();
    }
  }

  lemma Sizes(a: Bits, b: Bits)
    ensures Join(a, b).n == a.n + b.n
  {
  }

  lemma PadSize(b: Bits)
    ensures ByteCount(Join(b, Pad(b.n)).n) == ByteCount(b.n)
  {
  }
}
