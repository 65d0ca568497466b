/**
 What the deflate side sends, the inflate side gives back: blocks of any form, one after
 another, with or without the zlib wrapper (zlib/deflate.c:866-893 and 1117-1120).
 */
module RoundTrip {
  import opened BitOps
  import opened Canonical
  import opened DecodeTable
  import opened BitStream
  import opened CodeLookup
  import opened Lz77
  import opened Blocks
  import opened BlockCodes
  import opened BlockHeader
  import opened StaticTrees
  import opened SentBlock
  import opened TrFlush
  import opened InflateSpec
  import opened InflateRuns
  import opened InflateTable
  import opened SubTables
  import opened HeaderDecoding
  import opened BlockDecoding
  import InflateStep
  import InflateHeader
  import Adler32

  // ----------------------------------------------------------------------- one block

  lemma TypeItem(kind: nat, last: bool, more: Bits)
    requires kind < 4
    ensures var b := Join(BlockType(kind, last), more);
      && b.n >= 3 && (Low(b.v, 1) == 1 <==> last) && Low(Shr(b.v, 1), 2) == kind && Bits(Shr(b.v, 3), b.n - 3) == more
  {
    hide Low, Shr, Join;
    TypeRead(kind, last, more.v);
    JoinIsFollowed(BlockType(kind, last), more);
    JoinLength(BlockType(kind, last), more);
    ShrShr(Join(BlockType(kind, last), more).v, 1, 2);
  }

  /** The mode and codes that a block type leads to. */
  function Entered(s: State, kind: nat, last: bool, more: Bits): State {
    var s' := s.(last := last, rest := more);
    if kind == 0 then s'.(mode := STORED)
    else if kind == 1 then s'.(mode := LEN, lcode := StaticLit(), dcode := FixedDist())
    else s'.(mode := TABLE)
  }

  lemma TypeRun(c: Setup, s: State, kind: nat, last: bool, more: Bits)
    requires Ok(s) && s.mode == TYPE && !s.last && kind < 3 && s.rest == Join(BlockType(kind, last), more)
    ensures Leads(c, s, Entered(s, kind, last, more)) && Ok(Entered(s, kind, last, more))
  {
    hide Ok, Step, StepType, Leads, Below, Join, Low, Shr, StaticLit, FixedDist;
    TypeItem(kind, last, more);
    AtType(c, s);
    InflateHeader.TypeSteps(s, last, kind);
    LeadsStep(c, s, Entered(s, kind, last, more));
    LeadsOk(c, s, Entered(s, kind, last, more));
  }

  /** A stored block after its type, at bit p of the stream. */
  lemma StoredBlockRun(c: Setup, s: State, p: nat, buf: seq<byte>, more: Bits)
    requires Ok(s) && s.mode == STORED && |buf| < 0x10000 && (p + s.rest.n) % 8 == 0
    requires s.rest == Join(Join(Pad(p), Join(Bits(|buf|, 16), Join(Bits(0xffff - |buf|, 16), BytesBits(buf)))), more)
    ensures Leads(c, s, s.(mode := TYPE, length := 0, out := s.out + buf, rest := more))
  {
    hide Ok, Step, StepStored, Leads, Below, Join, Low, Shr, Pad, BytesBits, Xor, Pow2;
    Pow2Short();
    var a, b, d := Bits(|buf|, 16), Bits(0xffff - |buf|, 16), BytesBits(buf);
    var bytes := Join(d, more);
    var sizes := Join(a, Join(b, bytes));
    JoinAssoc(Pad(p), Join(a, Join(b, d)), more);
    JoinAssoc(a, Join(b, d), more);
    JoinAssoc(b, d, more);
    PadLength(p, s.rest.n);
    PadProper(p);
    Dropped(Pad(p), sizes);
    var s1 := s.(rest := sizes);
    InflateHeader.StoredAligned(c, s, s1);
    LeadsOk(c, s, s1);
    SizesItem(a, b, bytes);
    Complement(|buf|);
    AtStored(c, s1);
    InflateHeader.StoredSteps(s1);
    var s2 := s1.(rest := bytes, length := |buf|, mode := COPY);
    LeadsStep(c, s1, s2);
    LeadsOn(c, s, s1, s2);
    LeadsOk(c, s, s2);
    CopyRun(c, s2, buf, more);
    LeadsOn(c, s, s2, s.(mode := TYPE, length := 0, out := s.out + buf, rest := more));
  }

  lemma Dropped(b: Bits, more: Bits)
    requires Proper(b)
    ensures Bits(Shr(Join(b, more).v, b.n), Join(b, more).n - b.n) == more && Low(Join(b, more).v, b.n) == b.v
      && Join(b, more).n == b.n + more.n
  {
    hide Shr, Low;
    ReadBack(b, more.v);
  }

  lemma PadLength(p: nat, n: nat)
    requires (p + n) % 8 == 0
    ensures Pad(p).n == n % 8
  {
  }

  lemma SizesItem(a: Bits, b: Bits, bytes: Bits)
    requires Proper(a) && Proper(b) && a.n == b.n == 16
    ensures var s := Join(a, Join(b, bytes));
      && s.n >= 32 && s.n % 8 == bytes.n % 8 && Low(s.v, 16) == a.v && Low(Shr(s.v, 16), 16) == b.v
          && Bits(Shr(s.v, 32), s.n - 32) == bytes
  {
    hide Shr, Low, Join;
    Dropped(a, Join(b, bytes));
    Dropped(b, bytes);
    ShrShr(Join(a, Join(b, bytes)).v, 16, 16);
  }

  /** The bytes of a stored block, and its end. */
  lemma CopyRun(c: Setup, s: State, buf: seq<byte>, more: Bits)
    requires Ok(s) && s.mode == COPY && s.length == |buf| && s.rest == Join(BytesBits(buf), more)
    ensures Leads(c, s, s.(mode := TYPE, length := 0, out := s.out + buf, rest := more))
  {
    hide Ok, Step, Leads, Below, Join, BytesBits;
    var s1 := Brought(s, buf, more);
    if buf == [] {
      NoBytes(more);
      assert s.out + buf == s.out;
      InflateStep.Here(c, s);
    } else {
      StoredRun(c, s, buf, more);
    }
    LeadsOk(c, s, s1);
    InflateHeader.CopyHeld(c, s1);
    var s2 := s1.(mode := TYPE);
    LeadsStep(c, s1, s2);
    LeadsOn(c, s, s1, s2);
  }

  // --------------------------------------------------------------------- any form

  /** A block as it was sent: in what form, for which symbols and which text. */
  datatype Part = Part(form: Form, syms: seq<Symbol>, buf: seq<byte>)

  /** The text after the block. */
  function After(out: seq<byte>, part: Part): Decoded {
    if part.form.StoredForm? then Decoded(out + part.buf) else Extend(out, part.syms)
  }

  /** Sendable, and with tables that the decoder has room for. */
  ghost predicate GoodPart(c: Setup, t: Tables, part: Part)
    requires GoodTables(t)
  {
    GoodForm(part.form, t, part.syms, part.buf) && (part.form.DynamicForm? ==> TablesFit(c, t, part.form, part.syms))
  }

  /** The tables of a dynamic block fit where the decoder builds them. */
  ghost predicate TablesFit(c: Setup, t: Tables, f: Form, syms: seq<Symbol>)
    requires GoodTables(t) && f.DynamicForm?
  {
    GoodForm(f, t, syms, []) && Builds(LENS, f.lit, 9, c.enoughLens) && Builds(DISTS, f.dist, 6, c.enoughDists)
  }

  lemma StaticRun(c: Setup, s: State, t: Tables, syms: seq<Symbol>, last: bool, more: Bits, text: seq<byte>)
    returns (d: State)
    requires Ok(s) && s.mode == TYPE && !s.last && GoodTables(t) && AllCodes(t, StaticCodes(), syms)
    requires s.rest == Join(StaticBits(t, syms, last), more) && Extend(s.out, syms) == Decoded(text)
    ensures Leads(c, s, d) && d.mode == TYPE && d.last == last && d.out == text && d.rest == more
  {
    hide Ok, Step, Leads, Below, Join, BlockType, BlockBits, GoodTables, Acceptable, AllCodes, StaticLit, StaticDist;
    var block := BlockBits(t, StaticCodes(), syms);
    JoinAssoc(BlockType(STATIC_TREES, last), block, more);
    TypeRun(c, s, 1, last, Join(block, more));
    var s1 := Entered(s, 1, last, Join(block, more));
    SameStatic(t, syms);
    FixedGood();
    BlockRun(c, s1, t, StaticReadCodes(), syms, more, text);
    d := s1.(mode := TYPE, out := text, rest := more);
    LeadsOn(c, s, s1, d);
  }

  lemma DynamicRun(c: Setup, s: State, t: Tables, f: Form, syms: seq<Symbol>, last: bool, more: Bits, text: seq<byte>)
    returns (d: State)
    requires Ok(s) && s.mode == TYPE && !s.last && GoodTables(t) && f.DynamicForm? && TablesFit(c, t, f, syms)
    requires s.rest == Join(FormBits(f, t, syms, [], 0, last), more) && Extend(s.out, syms) == Decoded(text)
    ensures Leads(c, s, d) && d.mode == TYPE && d.last == last && d.out == text && d.rest == more
  {
    hide Ok, Step, Leads, Below, Join, BlockType, BlockBits, GoodTables, Acceptable, HasCodes, HeaderBits, Builds,
      CompleteTrees, GoodHeader;
    var header, block := HeaderBits(f.lit, f.dist, f.bl, f.n), BlockBits(t, Codes(f.lit, f.dist), syms);
    JoinAssoc(BlockType(DYN_TREES, last), Join(header, block), more);
    JoinAssoc(header, block, more);
    TypeRun(c, s, 2, last, Join(header, Join(block, more)));
    var s1 := Entered(s, 2, last, Join(header, Join(block, more)));
    var s2 := HeaderRun(c, s1, f.lit, f.dist, f.bl, f.n, Join(block, more));
    LeadsOn(c, s, s1, s2);
    LeadsOk(c, s, s2);
    CompleteGood(f.lit, f.dist, f.bl);
    BlockRun(c, s2, t, Codes(f.lit, f.dist), syms, more, text);
    d := s2.(mode := TYPE, out := text, rest := more);
    LeadsOn(c, s, s2, d);
  }

  lemma StoredRunAll(c: Setup, s: State, p: nat, buf: seq<byte>, last: bool, more: Bits) returns (d: State)
    requires Ok(s) && s.mode == TYPE && !s.last && |buf| < 0x10000 && (p + s.rest.n) % 8 == 0
    requires s.rest == Join(StoredBits(p, last, buf), more)
    ensures Leads(c, s, d) && d.mode == TYPE && d.last == last && d.out == s.out + buf && d.rest == more
  {
    hide Ok, Step, Leads, Below, Join, Pad, BytesBits;
    var sizes := Join(Pad(p + 3), Join(Bits(|buf|, 16), Join(Bits(0xffff - |buf|, 16), BytesBits(buf))));
    JoinAssoc(BlockType(STORED_BLOCK, last), sizes, more);
    TypeRun(c, s, 0, last, Join(sizes, more));
    var s1 := Entered(s, 0, last, Join(sizes, more));
    JoinLength(BlockType(STORED_BLOCK, last), Join(sizes, more));
    StoredBlockRun(c, s1, p + 3, buf, more);
    d := s1.(mode := TYPE, length := 0, out := s.out + buf, rest := more);
    LeadsOn(c, s, s1, d);
  }

  /** A block of any form, decoded. */
  lemma PartRun(c: Setup, s: State, t: Tables, part: Part, p: nat, last: bool, more: Bits, text: seq<byte>)
    returns (d: State)
    requires Ok(s) && s.mode == TYPE && !s.last && GoodTables(t) && GoodPart(c, t, part) && (p + s.rest.n) % 8 == 0
    requires s.rest == Join(FormBits(part.form, t, part.syms, part.buf, p, last), more)
      && After(s.out, part) == Decoded(text)
    ensures Leads(c, s, d) && d.mode == TYPE && d.last == last && d.out == text && d.rest == more
  {
    hide Ok, Leads, Join, StoredBits, StaticBits, DynamicBits, GoodTables, AllCodes, GoodHeader, CompleteTrees, Builds;
    match part.form {
      case StoredForm => d := StoredRunAll(c, s, p, part.buf, last, more);
      case StaticForm => d := StaticRun(c, s, t, part.syms, last, more, text);
      case DynamicForm(_, _, _, _) => d := DynamicRun(c, s, t, part.form, part.syms, last, more, text);
    }
  }

  // -------------------------------------------------------------------- whole streams

  ghost predicate GoodParts(c: Setup, t: Tables, parts: seq<Part>)
    requires GoodTables(t)
  {
    forall i :: 0 <= i < |parts| ==> GoodPart(c, t, parts[i])
  }

  ghost predicate GoodForms(t: Tables, parts: seq<Part>)
    requires GoodTables(t)
  {
    forall i :: 0 <= i < |parts| ==> GoodForm(parts[i].form, t, parts[i].syms, parts[i].buf)
  }

  /** The text that the blocks stand for, after out. */
  function TextOf(out: seq<byte>, parts: seq<Part>): Decoded
    decreases |parts|
  {
    if parts == [] then Decoded(out)
    else match After(out, parts[0])
      case TooFarBack => Decoded.TooFarBack
      case Decoded(mid) => TextOf(mid, parts[1..])
  }

  lemma {:induction false} LongestFits(lens: seq<nat>, n: nat, root: nat, b: nat)
    requires n <= |lens| && ValidLens(lens) && root <= MAXBITS
    ensures LongestBelow(lens, n, root, b) <= MAXBITS
  {
    if n != 0 { LongestFits(lens, n - 1, root, b); }
  }

  lemma {:induction false} SizeBound(lens: seq<nat>, root: nat, b: nat)
    requires ValidLens(lens) && root <= MAXBITS
    ensures TableSize(lens, root, b) <= Pow2(root) + Shl(b, MAXBITS - root)
  {
    hide LongestBelow, Pow2, Shl;
    if b != 0 {
      SizeBound(lens, root, b - 1);
      LongestFits(lens, |lens|, root, b - 1);
      ShlSucc(b - 1, MAXBITS - root);
      if LongestBelow(lens, |lens|, root, b - 1) > root {
        Pow2Mono(LongestBelow(lens, |lens|, root, b - 1) - root, MAXBITS - root);
      }
    }
  }

  /** Two to the sixteenth entries hold any table. */
  lemma RoomForAny(t: CodeType, lens: seq<nat>, bits: nat, enough: nat)
    requires |lens| <= MaxCodes(t) && ValidLens(lens) && Acceptable(t, lens) && enough >= 0x10000
    ensures Builds(t, lens, bits, enough)
  {
    hide TableSize, RootFor, Acceptable, NoSymbols, Pow2;
    forall root: nat | root <= MAXBITS ensures TableSize(lens, root, Pow2(root)) <= 0x10000 {
      SizeBound(lens, root, Pow2(root));
      Pow2Add(root, MAXBITS - root);
      Pow2Mono(root, MAXBITS);
      Pow2Fifteen();
    }
  }

  lemma RoomForParts(c: Setup, t: Tables, parts: seq<Part>)
    requires GoodTables(t) && GoodForms(t, parts) && c.enoughLens >= 0x10000 && c.enoughDists >= 0x10000
    ensures GoodParts(c, t, parts)
  {
    hide GoodTables, GoodHeader, AllCodes, Builds, KraftBelow, Pow2;
    forall i | 0 <= i < |parts| ensures GoodPart(c, t, parts[i]) {
      var f := parts[i].form;
      assert GoodForm(f, t, parts[i].syms, parts[i].buf);
      if f.DynamicForm? {
        CompleteGood(f.lit, f.dist, f.bl);
        RoomForAny(LENS, f.lit, 9, c.enoughLens);
        RoomForAny(DISTS, f.dist, 6, c.enoughDists);
      }
    }
  }

  lemma PartsForms(c: Setup, t: Tables, parts: seq<Part>)
    requires GoodTables(t) && GoodParts(c, t, parts)
    ensures GoodForms(t, parts)
  {
    hide GoodTables, GoodForm, Builds;
  }

  /** The blocks one after another from bit p on, the last one marked if these are all. */
  ghost function PartsBits(t: Tables, parts: seq<Part>, p: nat, all: bool): Bits
    requires GoodTables(t) && GoodForms(t, parts)
    decreases |parts|
  {
    if parts == [] then NoBits
    else
      var b := FormBits(parts[0].form, t, parts[0].syms, parts[0].buf, p, all && |parts| == 1);
      Join(b, PartsBits(t, parts[1..], p + b.n, all))
  }

  lemma {:induction false} PartsAppend(t: Tables, parts: seq<Part>, x: Part, p: nat, all: bool)
    requires GoodTables(t) && GoodForms(t, parts) && GoodForm(x.form, t, x.syms, x.buf)
    ensures GoodForms(t, parts + [x])
    ensures var b := PartsBits(t, parts, p, false);
      PartsBits(t, parts + [x], p, all) == Join(b, FormBits(x.form, t, x.syms, x.buf, p + b.n, all))
    decreases |parts|
  {
    hide GoodTables, GoodForm, FormBits, Join;
    if parts == [] {
      assert parts + [x] == [x];
      JoinNone(FormBits(x.form, t, x.syms, x.buf, p, all));
      assert [x][1..] == [];
    } else {
      var b := FormBits(parts[0].form, t, parts[0].syms, parts[0].buf, p, false);
      assert (parts + [x])[1..] == parts[1..] + [x];
      PartsAppend(t, parts[1..], x, p + b.n, all);
      var rest := PartsBits(t, parts[1..], p + b.n, false);
      JoinAssoc(b, rest, FormBits(x.form, t, x.syms, x.buf, p + b.n + rest.n, all));
      JoinLength(b, rest);
    }
  }

  lemma {:induction false} PartsRun(c: Setup, s: State, t: Tables, parts: seq<Part>, p: nat, more: Bits,
      text: seq<byte>)
    returns (d: State)
    requires Ok(s) && s.mode == TYPE && !s.last && GoodTables(t) && parts != [] && GoodParts(c, t, parts)
      && (p + s.rest.n) % 8 == 0
    requires s.rest == Join(PartsBits(t, parts, p, true), more) && TextOf(s.out, parts) == Decoded(text)
    ensures Leads(c, s, d) && d.mode == TYPE && d.last && d.out == text && d.rest == more
    decreases |parts|
  {
    hide Ok, Leads, Join, FormBits, GoodTables, GoodForm, Builds, After;
    var b := FormBits(parts[0].form, t, parts[0].syms, parts[0].buf, p, |parts| == 1);
    var rest := Join(PartsBits(t, parts[1..], p + b.n, true), more);
    var mid := After(s.out, parts[0]).text;
    JoinAssoc(b, PartsBits(t, parts[1..], p + b.n, true), more);
    JoinLength(b, rest);
    var s1 := PartRun(c, s, t, parts[0], p, |parts| == 1, rest, mid);
    LeadsOk(c, s, s1);
    if |parts| == 1 {
      JoinNone(more);
      d := s1;
    } else {
      d := PartsRun(c, s1, t, parts[1..], p + b.n, more, text);
      LeadsOn(c, s, s1, d);
    }
  }

  // ----------------------------------------------------------------------- the ends

  /** After the last block: up to the byte boundary. */
  lemma LastRun(c: Setup, s: State, q: nat, trailer: Bits)
    requires Ok(s) && s.mode == TYPE && s.last && s.rest == Join(Pad(q), trailer) && trailer.n % 8 == 0
    ensures Leads(c, s, s.(mode := CHECK, rest := trailer))
  {
    hide Ok, Step, StepType, Leads, Below, Join, Shr, Low;
    PadProper(q);
    Dropped(Pad(q), trailer);
    hide Pad;
    PadShort(q);
    AtType(c, s);
    InflateHeader.LastStep(s);
    LeadsStep(c, s, s.(mode := CHECK, rest := trailer));
  }

  lemma PadShort(q: nat)
    ensures Pad(q).n < 8
  {
  }

  /** putShortMSB of the upper and the lower half. */
  function AdlerBytes(x: nat): (bs: seq<byte>)
    ensures |bs| == 4
  {
    Pow2Byte();
    [Low(Shr(x, 24), 8), Low(Shr(x, 16), 8), Low(Shr(x, 8), 8), Low(x, 8)]
  }

  lemma {:induction false} LoadFour(b0: byte, b1: byte, b2: byte, b3: byte)
    ensures Load([b0, b1, b2, b3]) == b0 + Shl(b1 + Shl(b2 + Shl(b3, 8), 8), 8)
  {
    hide Shl;
    assert [b0, b1, b2, b3][1..] == [b1, b2, b3];
    assert [b1, b2, b3][1..] == [b2, b3];
    assert Load([b0, b1, b2, b3]) == b0 + Shl(Load([b1, b2, b3]), 8);
    assert Load([b1, b2, b3]) == b1 + Shl(Load([b2, b3]), 8);
    TwoBytes(b2, b3);
  }

  /** The byte fields of a number built from them. */
  lemma {:induction false} FourFields(b0: nat, b1: nat, b2: nat, b3: nat, v2: nat, v1: nat, v: nat)
    requires b0 < 256 && b1 < 256 && b2 < 256 && b3 < 256
    requires v2 == b2 + Shl(b3, 8) && v1 == b1 + Shl(v2, 8) && v == b0 + Shl(v1, 8)
    ensures Low(v, 8) == b0 && Low(Shr(v, 8), 8) == b1 && Low(Shr(v, 16), 8) == b2 && Low(Shr(v, 24), 8) == b3
  {
    hide Shl, Shr, Low, Pow2;
    Pow2Byte();
    SplitUnique(v1, b0, 8);
    SplitUnique(v2, b1, 8);
    SplitUnique(b3, b2, 8);
    ShrShr(v, 8, 8);
    ShrShr(v, 16, 8);
    LowSmall(b3, 8);
  }

  lemma {:induction false} SwapFour(b0: byte, b1: byte, b2: byte, b3: byte)
    ensures Swap32(Load([b0, b1, b2, b3])) == Shl(b0, 24) + Shl(b1, 16) + Shl(b2, 8) + b3
  {
    hide Shl, Shr, Low, Load, Pow2;
    LoadFour(b0, b1, b2, b3);
    var v2: nat := b2 + Shl(b3, 8);
    var v1: nat := b1 + Shl(v2, 8);
    FourFields(b0, b1, b2, b3, v2, v1, b0 + Shl(v1, 8));
  }

  /** ZSWAP32 of the four bytes is the number they were made of. */
  lemma SwapBack(x: nat)
    requires x < 0x1_0000_0000
    ensures Swap32(Load(AdlerBytes(x))) == x
  {
    hide Shl, Shr, Low, Load, Pow2, Swap32;
    Pow2Byte();
    Adler32.Pow2Word();
    var b0, b1, b2, b3: nat := Low(Shr(x, 24), 8), Low(Shr(x, 16), 8), Low(Shr(x, 8), 8), Low(x, 8);
    SwapFour(b0, b1, b2, b3);
    Split(x, 8);
    Split(Shr(x, 8), 8);
    Split(Shr(x, 16), 8);
    ShrShr(x, 8, 8);
    ShrShr(x, 16, 8);
    ShrBound(x, 24, 8);
    LowSmall(Shr(x, 24), 8);
    ShlAdd(Shl(b0, 8), b1, 8);
    ShlShl(b0, 8, 8);
    ShlAdd(Shl(b0, 16), Shl(b1, 8), 8);
    ShlShl(b0, 16, 8);
    ShlShl(b1, 8, 8);
    ShlAdd(Shl(b0, 16) + Shl(b1, 8), b2, 8);
  }

  lemma BytesAre(bs: seq<byte>)
    ensures BytesBits(bs) == Bits(Load(bs), 8 * |bs|)
  {
  }

  /** The check, or nothing to check. */
  lemma CheckRun(c: Setup, s: State)
    requires Ok(s) && s.mode == CHECK
    requires s.rest == if c.zlib then BytesBits(AdlerBytes(Adler32.Check(1, s.out))) else NoBits
    ensures Leads(c, s, s.(mode := DONE, rest := NoBits))
  {
    hide Ok, Step, Leads, Below, BytesBits, Load, Low, Shr, Adler32.Check, AdlerBytes, Swap32;
    InflateHeader.CheckHeld(c, s);
    if c.zlib {
      var x := Adler32.Check(1, s.out);
      InflateHeader.UnpackOne();
      Adler32.CheckAppend(1, s.out, []);
      SwapBack(x);
      BytesAre(AdlerBytes(x));
      LoadBound(AdlerBytes(x));
      LowSmall(Load(AdlerBytes(x)), 32);
    }
    LeadsStep(c, s, s.(mode := DONE, rest := NoBits));
  }

  /** The two bytes of a zlib header (zlib/deflate.c:869-885, without a preset dictionary). */
  function ZlibHeader(wBits: nat, levelFlags: nat): (bs: seq<byte>)
    requires 8 <= wBits <= 15 && levelFlags <= 3
    ensures |bs| == 2
  {
    var h := 256 * (8 + 16 * (wBits - 8)) + 64 * levelFlags;
    var header := h + 31 - h % 31;
    [header / 256, header % 256]
  }

  lemma FilledUp(h: nat)
    ensures (h + 31 - h % 31) % 31 == 0
  {
    assert h + 31 - h % 31 == 31 * (h / 31 + 1);
  }

  lemma HeaderParts(wBits: nat, levelFlags: nat)
    requires 8 <= wBits <= 15 && levelFlags <= 3
    ensures var bs := ZlibHeader(wBits, levelFlags);
      && bs[0] == 8 + 16 * (wBits - 8) && bs[1] / 32 % 2 == 0 && (256 * (bs[0] as int) + bs[1]) % 31 == 0
      && bs[1] / 64 == levelFlags
  {
    var b0 := 8 + 16 * (wBits - 8);
    var h := 256 * b0 + 64 * levelFlags;
    FilledUp(h);
    var b1 := 64 * levelFlags + (31 - h % 31);
    assert h + 31 - h % 31 == 256 * b0 + b1 && b1 < 256;
    assert b1 / 32 == 2 * levelFlags;
  }

  lemma {:induction false} HeaderFields(b0: nat, b1: nat, w: nat, v: nat)
    requires b0 == 8 + 16 * w && w < 8 && b1 < 256 && b1 / 32 % 2 == 0 && (256 * b0 + b1) % 31 == 0
    requires Low(v, 16) == b0 + Shl(b1, 8)
    ensures var h := Low(v, 16);
      (Shl(Low(h, 8), 8) + Shr(h, 8)) % 31 == 0 && Low(h, 4) == 8 && Low(Shr(v, 4), 4) == w && Shr(h, 13) % 2 == 0
  {
    hide Shl, Shr, Low, Pow2;
    Pow2Byte();
    var h := Low(v, 16);
    SplitUnique(b1, b0, 8);
    TimesByte(b0);
    FirstByte(b0, w);
    LowLow(v, 4, 12);
    LowLow(h, 4, 4);
    LowLow(Shr(v, 4), 4, 8);
    LowLow(v, 8, 8);
    ShrShr(h, 8, 5);
    ThirtyTwo(b1);
  }

  lemma TimesByte(x: nat)
    ensures Shl(x, 8) == 256 * x
  {
    hide Shl, Pow2;
    Pow2Byte();
    Adler32.ShlTimes(x, 8);
  }

  lemma FirstByte(b0: nat, w: nat)
    requires b0 == 8 + 16 * w && w < 8
    ensures Low(b0, 4) == 8 && Shr(b0, 4) == w
  {
    assert Pow2(4) == 16;
    hide Shr, Low, Shl, Pow2;
    Adler32.ShlTimes(w, 4);
    SplitUnique(w, 8, 4);
  }

  lemma ThirtyTwo(b: nat)
    ensures Shr(b, 5) == b / 32
  {
    assert Pow2(5) == 32;
    hide Shr, Low, Shl, Pow2;
    Split(b, 5);
    Adler32.ShlTimes(Shr(b, 5), 5);
  }

  /** zlib header accepted, or none expected. */
  lemma HeadRun(c: Setup, s: State, wBits: nat, levelFlags: nat, more: Bits)
    requires Ok(s) && s.mode == HEAD && 8 <= wBits <= 15 && levelFlags <= 3
    requires s.rest == if c.zlib then Join(BytesBits(ZlibHeader(wBits, levelFlags)), more) else more
    ensures Leads(c, s, s.(mode := TYPE, rest := more))
  {
    hide Ok, Step, Leads, Below, BytesBits, Load, Low, Shr, Shl, Join, ZlibHeader, Pow2;
    AtHead(c, s);
    if c.zlib {
      var bs := ZlibHeader(wBits, levelFlags);
      HeaderParts(wBits, levelFlags);
      BytesAre(bs);
      LoadBound(bs);
      Dropped(BytesBits(bs), more);
      assert bs == [bs[0], bs[1]];
      TwoBytes(bs[0], bs[1]);
      HeaderFields(bs[0], bs[1], wBits - 8, s.rest.v);
    }
    LeadsStep(c, s, s.(mode := TYPE, rest := more));
  }

  /** All of a stream: what wraps it, its blocks and the padding after them. */
  ghost function StreamBits(c: Setup, t: Tables, parts: seq<Part>, text: seq<byte>, wBits: nat, levelFlags: nat): Bits
    requires GoodTables(t) && GoodForms(t, parts) && 8 <= wBits <= 15 && levelFlags <= 3
  {
    var header := if c.zlib then BytesBits(ZlibHeader(wBits, levelFlags)) else NoBits;
    var body := PartsBits(t, parts, header.n, true);
    var trailer := if c.zlib then BytesBits(AdlerBytes(Adler32.Check(1, text))) else NoBits;
    Join(header, Join(body, Join(Pad(header.n + body.n), trailer)))
  }

  /**
   The whole way round: whatever blocks stand for the text, in whatever forms they were
   sent, decoding the stream gives that text, a good end, and no bit over.
   */
  lemma StreamDecoded(c: Setup, t: Tables, parts: seq<Part>, text: seq<byte>, wBits: nat, levelFlags: nat,
      wire: seq<byte>)
    requires GoodTables(t) && GoodParts(c, t, parts) && parts != [] && 8 <= wBits <= 15 && levelFlags <= 3
    requires TextOf([], parts) == Decoded(text) && BytesBits(wire) == StreamBits(c, t, parts, text, wBits, levelFlags)
    ensures Ok(Opened(wire)) && Ending(c, Opened(wire)) == Verdict(DONE, text, NoBits)
  {
    hide Ok, Step, Leads, Below, BytesBits, Join, ZlibHeader, AdlerBytes, PartsBits, GoodTables, GoodParts, GoodForms,
      Pad, TextOf, Ending, Adler32.Check, Pow2, Shl, Load;
    OpenedOk(wire);
    PartsForms(c, t, parts);
    var header := if c.zlib then BytesBits(ZlibHeader(wBits, levelFlags)) else NoBits;
    var body := PartsBits(t, parts, header.n, true);
    var trailer := if c.zlib then BytesBits(AdlerBytes(Adler32.Check(1, text))) else NoBits;
    var tail := Join(Pad(header.n + body.n), trailer);
    var s := Opened(wire);
    BytesAre(wire);
    JoinNone(Join(body, tail));
    JoinLength(header, Join(body, tail));
    WholeBytes(c, text, wBits, levelFlags);
    HeadRun(c, s, wBits, levelFlags, Join(body, tail));
    var s1 := s.(mode := TYPE, rest := Join(body, tail));
    LeadsOk(c, s, s1);
    var s2 := PartsRun(c, s1, t, parts, header.n, tail, text);
    LeadsOn(c, s, s1, s2);
    LeadsOk(c, s, s2);
    LastRun(c, s2, header.n + body.n, trailer);
    var s3 := s2.(mode := CHECK, rest := trailer);
    LeadsOn(c, s, s2, s3);
    LeadsOk(c, s, s3);
    CheckRun(c, s3);
    var s4 := s3.(mode := DONE, rest := NoBits);
    LeadsOn(c, s, s3, s4);
    LeadsOk(c, s, s4);
    EndAtDone(c, s4);
  }

  lemma WholeBytes(c: Setup, text: seq<byte>, wBits: nat, levelFlags: nat)
    requires 8 <= wBits <= 15 && levelFlags <= 3
    ensures BytesBits(ZlibHeader(wBits, levelFlags)).n == 16 && BytesBits(AdlerBytes(Adler32.Check(1, text))).n == 32
  {
    hide AdlerBytes, ZlibHeader, Load;
  }

  lemma EndAtDone(c: Setup, s: State)
    requires Ok(s) && s.mode == DONE
    ensures Ending(c, s) == Verdict(DONE, s.out, s.rest)
  {
    hide Ok, StepHead, StepType, StepDictId, StepStored, StepCopy, StepTable, StepLenLens, StepCodeLens, StepLen,
      StepDist, StepLenExt, StepDistExt, StepMatch, StepLit, StepCheck;
    FinishEnd(c, s);
  }
}
