/**
 inflate's modes for the header of a dynamic block (zlib/inflate.c:936-1058): the
 counts, the code length codes, the code lengths and the two tables.
 */
module InflateTrees {
  import opened BitOps
  import opened Canonical
  import opened DecodeTable
  import opened SubTables
  import opened InflateTable
  import opened BitStream
  import opened CodeLookup
  import opened BlockHeader
  import opened InflateSpec
  import opened InflateRuns
  import opened BitReader
  import opened InflateState
  import opened InflateStep

  // ------------------------------------------------------------------------ TABLE

  lemma TableHeld(c: Setup, s: State)
    requires Ok(s) && s.mode == TABLE
    ensures Step(c, s) == NeedInput <==> s.rest.n < 14
  {
    AtTable(c, s);
  }

  method ReadTable(r: BitReader) returns (ok: bool, nlen: nat, ndist: nat, ncode: nat)
    requires r.Valid()
    modifies r`hold, r`bits, r`next
    ensures r.Valid()
    ensures !ok ==> r.Rest() == old(r.Rest()) && r.next == |r.input| && r.bits < 14
    ensures ok ==> old(r.Rest()).n >= 14 && (old(r.bits) < 14 || old(r.bits) < 8 ==> r.bits < 8)
    ensures ok ==> var c := ReadCounts(old(r.Rest()).v); c.nlen == nlen && c.ndist == ndist && c.ncode == ncode
    ensures ok ==> r.Rest() == Bits(Shr(old(r.Rest()).v, 14), old(r.Rest()).n - 14)
  {
    hide Low, Shr, Pow2, BytesBits, Join;
    nlen, ndist, ncode := 0, 0, 0;
    ok := r.NeedBits(14);
    if ok {
      r.RestFacts();
      ghost var v := r.Rest().v;
      nlen := r.Peek(5) + 257;
      r.DropBits(5);
      ndist := r.Peek(5) + 1;
      r.DropBits(5);
      ncode := r.Peek(4) + 4;
      r.DropBits(4);
      ShrShr(v, 5, 5);
      ShrShr(v, 10, 4);
    }
  }

  lemma TableStep(c: Setup, s: State, c1: Counts)
    requires Ok(s) && s.mode == TABLE && s.rest.n >= 14
    requires c1.(rest := 0) == ReadCounts(s.rest.v).(rest := 0)
    ensures var s' := Take(s, 14).(nlen := c1.nlen, ndist := c1.ndist, ncode := c1.ncode);
      Step(c, s) == if c1.nlen > 286 || c1.ndist > 30 then Next(s'.(mode := BAD(TooManySymbols)))
                    else Next(s'.(have := 0, mode := LENLENS))
  {
    hide ReadCounts;
    AtTable(c, s);
  }

  method SetCounts(z: Inflater, nlen: nat, ndist: nat, ncode: nat)
    requires z.reader.next <= |z.reader.input| && z.start <= z.put <= z.out.Length
    modifies z`nlen, z`ndist, z`ncode
    ensures z.Abs() == old(z.Abs()).(nlen := nlen, ndist := ndist, ncode := ncode)
  {
    hide Inflater.Produced, BitReader.Rest;
    z.nlen, z.ndist, z.ncode := nlen, ndist, ncode;
  }

  method UseCounts(z: Inflater, nlen: nat, ndist: nat, ncode: nat, ghost a: State)
    requires z.Shape() && z.Past() && |z.lcode| <= 288 && |z.dcode| <= 32 && z.Tables() && z.reader.Valid()
    requires z.reader.bits < 8 && z.mode == TABLE && Ok(a) && a.mode == TABLE && a.rest.n >= 14
      && z.Abs() == Take(a, 14)
    requires Counts(nlen, ndist, ncode, 0) == ReadCounts(a.rest.v).(rest := 0)
    modifies z`mode, z`nlen, z`ndist, z`ncode, z`have
    ensures z.Valid() && Leads(z.setup, a, z.Abs()) && Below(z.Abs(), a)
  {
    hide Inflater.Valid, Step, Inflater.Produced, Inflater.Shape, Inflater.Past, Inflater.Tables, BitReader.Rest, Ok,
      Leads, Below, Finish, Pow2, Shr, Low, ReadCounts;
    Bounds(z);
    TableStep(z.setup, a, Counts(nlen, ndist, ncode, 0));
    SetCounts(z, nlen, ndist, ncode);
    Carried(z);
    if nlen > 286 || ndist > 30 {
      Move(z, BAD(TooManySymbols), a);
    } else {
      EnterLens(z, a);
    }
  }

  method EnterLens(z: Inflater, ghost a: State)
    requires z.Shape() && z.Past() && |z.lcode| <= 288 && |z.dcode| <= 32 && z.Tables() && z.reader.Valid()
    requires z.reader.bits < 8 && z.mode == TABLE && Ok(a)
    requires Step(z.setup, a) == Next(z.Abs().(have := 0, mode := LENLENS))
    modifies z`mode, z`have
    ensures z.Valid() && Leads(z.setup, a, z.Abs()) && Below(z.Abs(), a)
  {
    hide Inflater.Valid, Step, Inflater.Produced, Inflater.Shape, Inflater.Past, Inflater.Tables, BitReader.Rest, Ok,
      Leads, Below, Finish, Pow2, Shr, Low, ReadCounts;
    Bounds(z);
    z.have := 0;
    Carried(z);
    Move(z, LENLENS, a);
  }

  method DoTable(z: Inflater) returns (leave: bool)
    requires z.Valid() && z.mode == TABLE
    modifies z`mode, z`nlen, z`ndist, z`ncode, z`have, z.reader`hold, z.reader`bits, z.reader`next
    ensures z.Valid() && Leads(z.setup, old(z.Abs()), z.Abs())
    ensures if leave then z.Waiting() else Below(z.Abs(), old(z.Abs()))
  {
    hide Step, Inflater.Valid, Inflater.Shape, Inflater.Tables, Inflater.Past, Inflater.Waiting, Inflater.Produced,
      BitReader.Rest, Ok, Leads, Below, Finish, Pow2, Shr, Low, ReadCounts;
    Begun(z);
    ghost var a := z.Abs();
    TableHeld(z.setup, z.HeldState());
    var ok, nlen, ndist, ncode := ReadTable(z.reader);
    if !ok {
      if Ok(z.HeldState()) { TableHeld(z.setup, z.HeldState()); }
      Starved(z);
      return true;
    }
    Carried(z);
    UseCounts(z, nlen, ndist, ncode, a);
    leave := false;
  }

  // ---------------------------------------------------------------------- LENLENS

  lemma LenLensHeld(c: Setup, s: State)
    requires Ok(s) && s.mode == LENLENS
    ensures Step(c, s) == NeedInput <==> s.have < s.ncode && s.rest.n < 3
  {
    hide GoodCode, ZeroRest;
    AtLenLens(c, s);
  }

  lemma LenLensStep(c: Setup, s: State)
    requires Ok(s) && s.mode == LENLENS && s.have < s.ncode && s.rest.n >= 3
    ensures BL_ORDER[s.have] < CODE_LENGTHS
    ensures Step(c, s) == Next(Take(s, 3).(lens := s.lens[BL_ORDER[s.have] := Low(s.rest.v, 3)], have := s.have + 1))
  {
    hide Low, Shr, GoodCode, ZeroRest;
    OrderRanks(s.have);
    AtLenLens(c, s);
  }

  /** One length of three bits, or after the last the table for them. */
  method DoLenLens(z: Inflater) returns (leave: bool)
    requires z.Valid() && z.mode == LENLENS
    modifies z`mode, z`have, z`lens, z`lcode, z`lencode, z`lenbits, z.codes, z.work, z.reader`hold, z.reader`bits,
        z.reader`next
    ensures z.Valid() && Leads(z.setup, old(z.Abs()), z.Abs())
    ensures if leave then z.Waiting() else Below(z.Abs(), old(z.Abs()))
  {
    hide Step, Inflater.Valid, Inflater.Shape, Inflater.Tables, Inflater.Past, Inflater.Waiting, Inflater.Produced,
      BitReader.Rest, Ok, Leads, Below, Finish, Pow2, Shr, Low;
    Begun(z);
    LenLensOk(z.Abs());
    if z.have >= z.ncode {
      FinishLenLens(z);
      return false;
    }
    ghost var a := z.Abs();
    LenLensHeld(z.setup, z.HeldState());
    var ok := z.reader.NeedBits(3);
    if !ok {
      if Ok(z.HeldState()) { LenLensHeld(z.setup, z.HeldState()); }
      Starved(z);
      return true;
    }
    Carried(z);
    TakeLenLen(z, a);
    leave := false;
  }

  method TakeLenLen(z: Inflater, ghost a: State)
    requires z.Shape() && z.Past() && |z.lcode| <= 288 && |z.dcode| <= 32 && z.Tables() && z.reader.Valid()
    requires 3 <= z.reader.bits < 11 && z.mode == LENLENS && z.have < z.ncode && Ok(a) && z.Abs() == a
    modifies z`have, z`lens, z.reader`hold, z.reader`bits
    ensures z.Valid() && Leads(z.setup, a, z.Abs()) && Below(z.Abs(), a)
  {
    hide Step, Inflater.Valid, Inflater.Shape, Inflater.Tables, Inflater.Past, Inflater.Produced, BitReader.Rest, Ok,
      Leads, Below, Finish, Pow2, Shr, Low, ShortUpTo, GoodCode;
    Bounds(z);
    LenLensOk(a);
    z.reader.RestFacts();
    LenLensStep(z.setup, a);
    z.lens := z.lens[BL_ORDER[z.have] := z.reader.Peek(3)];
    z.have := z.have + 1;
    z.reader.DropBits(3);
    Carried(z);
    Settled(z, a);
  }

  lemma LenLensOk(s: State)
    requires Ok(s) && s.mode == LENLENS
    ensures |s.lens| == LENS_SIZE && s.have <= s.ncode <= CODE_LENGTHS && ShortUpTo(s.lens, s.have)
    ensures forall i :: 0 <= i < LENS_SIZE ==> s.lens[i] <= MAXBITS
  {
  }

  lemma ZeroRestStep(lens: seq<nat>, k: nat)
    requires |lens| == LENS_SIZE && k < CODE_LENGTHS
    ensures BL_ORDER[k] < CODE_LENGTHS && ZeroRest(lens, k) == ZeroRest(lens[BL_ORDER[k] := 0], k + 1)
  {
    OrderRanks(k);
  }

  lemma FinishStep(c: Setup, s: State)
    requires Ok(s) && s.mode == LENLENS && s.have >= s.ncode
    ensures var lens := ZeroRest(s.lens, s.have);
      Step(c, s) == if GoodCode(CODES, lens[..CODE_LENGTHS]) then
                      Next(s.(lens := lens, have := 0, lcode := lens[..CODE_LENGTHS], mode := CODELENS))
                    else Bad(s.(lens := lens, have := CODE_LENGTHS), CodeLengthsSet)
  {
    hide GoodCode, ZeroRest;
    AtLenLens(c, s);
  }

  /** inflate_table for code length codes fails just for sets it cannot accept. */
  lemma CodesFit(lens: seq<nat>, root: nat)
    requires |lens| == CODE_LENGTHS && (forall i :: 0 <= i < |lens| ==> lens[i] <= 7) && RootFor(lens, 7, root)
    ensures forall i :: 0 <= i < |lens| ==> lens[i] <= root
    ensures 1 <= root <= 7 && (ValidLens(lens) ==> TableSize(lens, root, Pow2(root)) <= 128)
  {
    hide TableSize, CountBelow;
    if ValidLens(lens) {
      AllInRoot(lens, root);
      Pow2Mono(root, 7);
      assert Pow2(7) == 128;
    }
  }

  method FinishLenLens(z: Inflater)
    requires z.Valid() && z.mode == LENLENS && z.have >= z.ncode
    modifies z`mode, z`have, z`lens, z`lcode, z`lencode, z`lenbits, z.codes, z.work
    ensures z.Valid() && Leads(z.setup, old(z.Abs()), z.Abs()) && Below(z.Abs(), old(z.Abs()))
  {
    hide Step, Inflater.Valid, Inflater.Shape, Inflater.Tables, Inflater.Past, Inflater.Produced, ShortUpTo,
      BitReader.Rest, Ok, Leads, Below, Finish, Pow2, ZeroRest, GoodCode, ValidLens, KraftBelow, Acceptable,
      BitReader.Held;
    Begun(z);
    ghost var a := z.Abs();
    LenLensOk(a);
    LenLensHeld(z.setup, z.HeldState());
    FinishStep(z.setup, a);
    ZeroRestValid(a.lens, a.have);
    ShortZero(a.lens, a.have);
    ShortAll(ZeroRest(a.lens, a.have));
    while z.have < CODE_LENGTHS
      invariant a.have <= z.have <= CODE_LENGTHS && |z.lens| == LENS_SIZE
      invariant ZeroRest(z.lens, z.have) == ZeroRest(a.lens, a.have)
      modifies z`lens, z`have
    {
      ZeroRestStep(z.lens, z.have);
      z.lens := z.lens[BL_ORDER[z.have] := 0];
      z.have := z.have + 1;
    }
    ZeroRestDone(z.lens);
    Carried(z);
    BuildCodes(z, a);
  }

  lemma ZeroRestDone(lens: seq<nat>)
    requires |lens| == LENS_SIZE
    ensures ZeroRest(lens, CODE_LENGTHS) == lens
  {
  }

  method BuildCodes(z: Inflater, ghost a: State)
    requires z.Shape() && z.Past() && z.reader.Valid() && z.reader.bits < 8 && z.mode == LENLENS
      && z.have == CODE_LENGTHS
    requires |z.lens| == LENS_SIZE && |z.lcode| <= 288 && |z.dcode| <= 32 && Ok(a)
    requires forall i :: 0 <= i < CODE_LENGTHS ==> z.lens[i] <= 7
    requires Step(z.setup, a) == if GoodCode(CODES, z.lens[..CODE_LENGTHS]) then
                      Next(z.Abs().(have := 0, lcode := z.lens[..CODE_LENGTHS], mode := CODELENS))
                    else Next(z.Abs().(mode := BAD(CodeLengthsSet)))
    modifies z`mode, z`have, z`lcode, z`lencode, z`lenbits, z.codes, z.work
    ensures z.Valid() && Leads(z.setup, a, z.Abs()) && Below(z.Abs(), a)
  {
    hide Step, Inflater.Produced, Inflater.Past, BitReader.Rest, Ok, Leads, Below, Finish, TableFor, 
      FixedTables.Right, TableSize, Acceptable, RootFor, NoSymbols, Pow2;
    var lens := z.lens[..CODE_LENGTHS];
    PowSeven();
    ShortCodesFit(lens, 7, z.setup.enoughLens);
    var rc, used, root := Build(CODES, lens, z.codes, 0, 7, z.work, z.setup.enoughLens);
    if rc != -1 { CodesFit(lens, root); }
    CarriedPast(z);
    if rc != 0 {
      Move(z, BAD(CodeLengthsSet), a);
    } else {
      EnterCodes(z, lens, z.codes[0..][..used], root, a);
    }
  }

  method EnterCodes(z: Inflater, lens: seq<nat>, tab: seq<Entry>, root: nat, ghost a: State)
    requires z.Shape() && z.Past() && |z.dcode| <= 32 && z.reader.Valid()
    requires z.reader.bits < 8 && z.mode == LENLENS && Ok(a)
    requires |lens| == CODE_LENGTHS && 1 <= root && (forall i :: 0 <= i < |lens| ==> lens[i] <= root)
    requires TableFor(CODES, lens, tab, root)
    requires Step(z.setup, a) == Next(z.Abs().(have := 0, lcode := lens, mode := CODELENS))
    modifies z`mode, z`have, z`lcode, z`lencode, z`lenbits
    ensures z.Valid() && Leads(z.setup, a, z.Abs()) && Below(z.Abs(), a)
  {
    hide Step, Inflater.Produced, Inflater.Shape, Inflater.Past, Inflater.Tables, Inflater.Aligned, BitReader.Rest, Ok,
      Leads, Below, Finish, TableFor, Pow2;
    Bounds(z);
    SetCodes(z, lens, tab, root);
    CodeTables(z);
    CarriedPast(z);
    Settled(z, a);
  }

  method SetCodes(z: Inflater, lens: seq<nat>, tab: seq<Entry>, root: nat)
    modifies z`mode, z`have, z`lcode, z`lencode, z`lenbits
    ensures z.mode == CODELENS && z.have == 0 && z.lcode == lens && z.lencode == tab && z.lenbits == root
  {
    z.lencode, z.lenbits := tab, root;
    z.lcode := lens;
    z.have := 0;
    z.mode := CODELENS;
  }

  lemma CodeTables(z: Inflater)
    requires z.mode == CODELENS && |z.lcode| == CODE_LENGTHS && |z.dcode| <= 32 && 1 <= z.lenbits
    requires TableFor(CODES, z.lcode, z.lencode, z.lenbits)
      && forall i :: 0 <= i < |z.lcode| ==> z.lcode[i] <= z.lenbits
    ensures z.Tables() && z.Aligned()
  {
    hide TableFor;
  }

  lemma PowSeven()
    ensures Pow2(7) == 128
  {
  }

  // --------------------------------------------------------------------- CODELENS

  /** Bits after the code of a repeat. */
  function RepeatBits(val: nat): nat {
    if val < 16 then 0 else if val == 16 then 2 else if val == 17 then 3 else 7
  }

  lemma LengthHeld(c: Setup, s: State)
    requires Ok(s) && s.mode == CODELENS
    ensures Step(c, s) == NeedInput <==>
      s.have < s.nlen + s.ndist
      && (var f := CodeFound(CODES, s.lcode, s.rest.v); f.bits + RepeatBits(f.val) > s.rest.n)
  {
    hide CodeFound, Builds, Low, Shr;
    AtCodeLens(c, s);
  }

  lemma ShortFound(lens: seq<nat>, root: nat, h: nat)
    requires |lens| <= MaxCodes(CODES) && 1 <= root && forall i :: 0 <= i < |lens| ==> lens[i] <= root
    ensures CodeFound(CODES, lens, h).bits <= root
  {
    hide RevCode, Low;
  }

  /** The code of a length or a repeat, and enough bits for what follows it. */
  method ReadLength(r: BitReader, tab: seq<Entry>, root: nat, ghost lens: seq<nat>) returns (ok: bool, val: nat)
    requires r.Valid() && GoodCode(CODES, lens) && TableFor(CODES, lens, tab, root)
    requires 1 <= root && forall i :: 0 <= i < |lens| ==> lens[i] <= root
    modifies r`hold, r`bits, r`next
    ensures r.Valid()
    ensures !ok ==> r.Rest() == old(r.Rest()) && r.next == |r.input|
    ensures !ok ==> var f := CodeFound(CODES, lens, r.hold); f.bits + RepeatBits(f.val) > r.bits
    ensures ok ==>
      var f := CodeFound(CODES, lens, old(r.Rest()).v);
      && val == f.val && f.bits + RepeatBits(val) <= old(r.Rest()).n && RepeatBits(val) <= r.bits
      && r.Rest() == Bits(Shr(old(r.Rest()).v, f.bits), old(r.Rest()).n - f.bits)
    ensures ok && (old(r.bits) < 8
      || (var f := CodeFound(CODES, lens, old(r.hold)); f.bits + RepeatBits(f.val) > old(r.bits)))
      ==> r.bits - RepeatBits(val) < 8
  {
    hide CodeFound, Acceptable, ValidLens, TableFor, Low, Shl, Shr, Pow2, Join, BytesBits, BitReader.Rest;
    var here;
    ok, here := r.FindEntry(tab, root, CODES, lens);
    val := 0;
    if !ok {
      return;
    }
    EntryFacts(CODES, lens, tab, root, r.hold);
    ShortFound(lens, root, r.hold);
    r.FoundInRest(CODES, lens);
    ghost var hold := r.hold;
    val := here.val;
    if val >= 16 {
      ok := r.NeedBits(here.bits + RepeatBits(val));
      if !ok {
        StillFound(r, lens, hold);
        return;
      }
    }
    r.RestFacts();
    r.DropBits(here.bits);
  }

  /** Bytes pulled for the repeat count leave the code what it was. */
  lemma StillFound(r: BitReader, lens: seq<nat>, hold: nat)
    requires r.Valid() && GoodCode(CODES, lens) && CodeFound(CODES, lens, r.Rest().v) == CodeFound(CODES, lens, hold)
    requires CodeFound(CODES, lens, hold).bits <= r.bits
    ensures CodeFound(CODES, lens, r.hold) == CodeFound(CODES, lens, hold)
  {
    hide CodeFound, Acceptable, ValidLens, Pow2, Shl, BytesBits;
    FoundEarlier(CODES, lens, r.hold, r.bits, BytesBits(r.input[r.next..] + r.future).v);
  }

  lemma LengthStep(c: Setup, s: State, f: Found)
    requires Ok(s) && s.mode == CODELENS && s.have < s.nlen + s.ndist && f == CodeFound(CODES, s.lcode, s.rest.v)
    requires f.bits + RepeatBits(f.val) <= s.rest.n
    ensures f.val < 16 ==> Step(c, s) == Next(Take(s, f.bits).(lens := s.lens[s.have := f.val], have := s.have + 1))
    ensures f.val == 16 && s.have == 0 ==> Step(c, s) == Bad(Take(s, f.bits), LengthRepeat)
    ensures f.val == 16 && s.have > 0 ==> Step(c, s) == Repeated(s, f.bits, s.lens[s.have - 1], 3, 2)
    ensures f.val == 17 ==> Step(c, s) == Repeated(s, f.bits, 0, 3, 3)
    ensures f.val > 17 ==> Step(c, s) == Repeated(s, f.bits, 0, 11, 7)
  {
    hide CodeFound, Builds, Low, Shr, Repeated;
    AtCodeLens(c, s);
  }

  lemma CodeLensOk(s: State)
    requires Ok(s) && s.mode == CODELENS
    ensures |s.lens| == LENS_SIZE && s.have <= s.nlen + s.ndist <= 316 && 257 <= s.nlen && 1 <= s.ndist
    ensures GoodCode(CODES, s.lcode) && |s.lcode| == CODE_LENGTHS
    ensures forall i :: 0 <= i < LENS_SIZE ==> s.lens[i] <= MAXBITS
  {
    hide GoodCode;
  }

  /** One length, or a repeat. */
  method DoLength(z: Inflater) returns (leave: bool)
    requires z.Valid() && z.mode == CODELENS && z.have < z.nlen + z.ndist
    modifies z`mode, z`have, z`lens, z.reader`hold, z.reader`bits, z.reader`next
    ensures z.Valid() && Leads(z.setup, old(z.Abs()), z.Abs())
    ensures if leave then z.Waiting() else Below(z.Abs(), old(z.Abs()))
  {
    hide Step, Inflater.Valid, Inflater.Shape, Inflater.Past, Inflater.Waiting, Inflater.Produced,
      BitReader.Rest, Ok, Leads, Below, Finish, Pow2, Shr, Low, GoodCode, CodeFound, TableFor;
    Begun(z);
    ghost var a := z.Abs();
    CodeLensOk(a);
    LengthHeld(z.setup, z.HeldState());
    var ok, val := ReadLength(z.reader, z.lencode, z.lenbits, z.lcode);
    if !ok {
      if Ok(z.HeldState()) { LengthHeld(z.setup, z.HeldState()); }
      Starved(z);
      return true;
    }
    Carried(z);
    ghost var f := CodeFound(CODES, z.lcode, a.rest.v);
    LengthStep(z.setup, a, f);
    UseLength(z, val, a, f);
    leave := false;
  }

  method UseLength(z: Inflater, val: nat, ghost a: State, ghost f: Found)
    requires z.Shape() && z.Past() && |z.lcode| <= 288 && |z.dcode| <= 32 && z.Tables() && z.reader.Valid()
    requires z.mode == CODELENS && RepeatBits(val) <= z.reader.bits < 8 + RepeatBits(val)
    requires Ok(a) && a.mode == CODELENS && a.have < a.nlen + a.ndist && f.bits <= a.rest.n
      && z.Abs() == Take(a, f.bits)
    requires f.val == val && f == CodeFound(CODES, a.lcode, a.rest.v) && f.bits + RepeatBits(val) <= a.rest.n
    modifies z`mode, z`have, z`lens, z.reader`hold, z.reader`bits
    ensures z.Valid() && Leads(z.setup, a, z.Abs()) && Below(z.Abs(), a)
  {
    hide Step, Inflater.Shape, Inflater.Past, Inflater.Tables, Inflater.Produced, BitReader.Rest, Ok, Leads, Below,
      Finish, Pow2, Shr, Low, GoodCode, CodeFound, TableFor, Repeated;
    Bounds(z);
    CodeLensOk(a);
    LengthStep(z.setup, a, f);
    if val < 16 {
      AddLength(z, val, a);
    } else if val == 16 {
      if z.have == 0 {
        Move(z, BAD(LengthRepeat), a);
      } else {
        DoRepeat(z, z.lens[z.have - 1], 3, 2, a, f.bits);
      }
    } else if val == 17 {
      DoRepeat(z, 0, 3, 3, a, f.bits);
    } else {
      DoRepeat(z, 0, 11, 7, a, f.bits);
    }
  }

  method AddLength(z: Inflater, val: nat, ghost a: State)
    requires z.Shape() && z.Past() && |z.lcode| <= 288 && |z.dcode| <= 32 && z.Tables() && z.reader.Valid()
    requires z.mode == CODELENS && z.reader.bits < 8 && Ok(a) && z.have < |z.lens|
    requires Step(z.setup, a) == Next(z.Abs().(lens := z.lens[z.have := val], have := z.have + 1))
    modifies z`have, z`lens
    ensures z.Valid() && Leads(z.setup, a, z.Abs()) && Below(z.Abs(), a)
  {
    hide Step, Inflater.Shape, Inflater.Past, Inflater.Tables, Inflater.Produced, BitReader.Rest, Ok, Leads, Below,
      Finish, Pow2;
    Bounds(z);
    z.lens := z.lens[z.have := val];
    z.have := z.have + 1;
    Carried(z);
    Settled(z, a);
  }

  lemma RepeatedIs(a: State, bits: nat, len: nat, least: nat, x: nat, s: State, copy: nat)
    requires bits + x <= a.rest.n && a.nlen + a.ndist <= |a.lens| && s == Take(a, bits + x)
    requires copy == least + Low(Shr(a.rest.v, bits), x)
    ensures Repeated(a, bits, len, least, x)
      == if s.have + copy > s.nlen + s.ndist then Next(s.(mode := BAD(LengthRepeat)))
         else Next(s.(lens := Spread(s.lens, s.have, len, copy), have := s.have + copy))
  {
    hide Spread, Low, Shr, Pow2;
  }

  /** zlib/inflate.c:1015-1021. */
  method DoRepeat(z: Inflater, len: nat, least: nat, x: nat, ghost a: State, ghost bits: nat)
    requires z.Shape() && z.Past() && |z.lcode| <= 288 && |z.dcode| <= 32 && z.Tables() && z.reader.Valid()
    requires z.mode == CODELENS && x <= z.reader.bits < 8 + x
    requires Ok(a) && a.mode == CODELENS && |a.lens| == LENS_SIZE && a.nlen + a.ndist <= 316
    requires bits + x <= a.rest.n && z.Abs() == Take(a, bits)
    requires Step(z.setup, a) == Repeated(a, bits, len, least, x)
    modifies z`mode, z`have, z`lens, z.reader`hold, z.reader`bits
    ensures z.Valid() && Leads(z.setup, a, z.Abs()) && Below(z.Abs(), a)
  {
    hide Repeated, Inflater.Valid, Step, Inflater.Shape, Inflater.Past, Inflater.Tables, Inflater.Produced,
      BitReader.Rest, Ok, Leads, Below, Finish, Pow2, Shr, Low, GoodCode, CodeFound, TableFor, FixedDist, Spread,
      Inflater.HeldState, Inflater.Aligned, Inflater.Slim, FixedTables.Right, BitWriter.Valid, BitReader.Valid;
    Bounds(z);
    var copy := least + z.reader.Peek(x);
    z.reader.DropBits(x);
    ShrShr(a.rest.v, bits, x);
    Carried(z);
    RepeatedIs(a, bits, len, least, x, z.Abs(), copy);
    if z.have + copy > z.nlen + z.ndist {
      Move(z, BAD(LengthRepeat), a);
    } else {
      AddLengths(z, len, copy, a);
    }
  }

  method AddLengths(z: Inflater, len: nat, copy: nat, ghost a: State)
    requires z.Shape() && z.Past() && |z.lcode| <= 288 && |z.dcode| <= 32 && z.Tables() && z.reader.Valid()
    requires z.mode == CODELENS && z.reader.bits < 8 && Ok(a) && z.have + copy <= |z.lens|
    requires Step(z.setup, a) == Next(z.Abs().(lens := Spread(z.lens, z.have, len, copy), have := z.have + copy))
    modifies z`have, z`lens
    ensures z.Valid() && Leads(z.setup, a, z.Abs()) && Below(z.Abs(), a)
  {
    hide Inflater.Valid, Step, Inflater.Shape, Inflater.Past, Inflater.Tables, Inflater.Produced, BitReader.Rest, Ok,
      Leads, Below, Finish, Pow2, Spread;
    Bounds(z);
    FillLengths(z, len, copy);
    Carried(z);
    Settled(z, a);
  }

  method FillLengths(z: Inflater, len: nat, copy0: nat)
    requires z.have + copy0 <= |z.lens|
    modifies z`lens, z`have
    ensures z.lens == Spread(old(z.lens), old(z.have), len, copy0)
    ensures z.have == old(z.have) + copy0
  {
    var copy: nat := copy0;
    ghost var lens, have := z.lens, z.have;
    while copy != 0
      invariant copy <= copy0 && z.have == have + (copy0 - copy)
      invariant z.lens == lens[..have] + seq(copy0 - copy, _ => len) + lens[z.have..]
    {
      z.lens := z.lens[z.have := len];
      z.have := z.have + 1;
      copy := copy - 1;
    }
  }

  // ----------------------------------------------------------------- the two tables

  /** What `inflate_table` returned says whether the lengths can be used. */
  lemma BuildsIs(t: CodeType, lens: seq<nat>, bits: nat, enough: nat, rc: int, root: nat)
    requires |lens| <= MaxCodes(t) && ValidLens(lens)
    requires rc == -1 <==> !Acceptable(t, lens)
    requires rc != -1 ==> RootFor(lens, bits, root)
    requires rc == 1
      <==> Acceptable(t, lens) && !NoSymbols(lens) && root <= MAXBITS && TableSize(lens, root, Pow2(root)) > enough
    requires rc == 0 || rc == 1 || rc == -1
    ensures rc == 0 <==> Builds(t, lens, bits, enough)
    ensures rc == 0 ==> GoodCode(t, lens)
  {
    hide RootFor, TableSize, Pow2, Acceptable, NoSymbols;
    if rc != -1 {
      forall r: nat | RootFor(lens, bits, r) ensures r == root { OneRoot(lens, bits, r, root); }
    }
  }

  lemma TreesStep(c: Setup, s: State)
    requires Ok(s) && s.mode == CODELENS && s.have >= s.nlen + s.ndist
    ensures s.nlen + s.ndist <= |s.lens| && 256 < |s.lens| && s.nlen <= 288 && s.ndist <= 32 && ValidLens(s.lens)
    ensures var lit, dist := s.lens[..s.nlen], s.lens[s.nlen..s.nlen + s.ndist];
      Step(c, s) == if s.lens[256] == 0 then Bad(s, NoEndOfBlock)
                    else if !Builds(LENS, lit, 9, c.enoughLens) then Bad(s, LiteralSet)
                    else if !Builds(DISTS, dist, 6, c.enoughDists) then Bad(s, DistanceSet)
                    else Next(s.(lcode := lit, dcode := dist, mode := LEN))
  {
    hide Builds, GoodCode;
    AtCodeLens(c, s);
  }

  /** After the last code length (zlib/inflate.c:1028-1058). */
  method DoTrees(z: Inflater)
    requires z.Valid() && z.mode == CODELENS && z.have >= z.nlen + z.ndist
    modifies z`mode, z`lcode, z`dcode, z`lencode, z`lenbits, z`distcode, z`distbits, z.codes, z.work
    ensures z.Valid() && Leads(z.setup, old(z.Abs()), z.Abs()) && Below(z.Abs(), old(z.Abs()))
  {
    hide Step, Inflater.Valid, Inflater.Shape, Inflater.Past, Inflater.Tables, Inflater.Produced, BitReader.Rest, Ok,
      Leads, Below, Finish, Pow2, GoodCode, TableFor, Builds;
    Begun(z);
    ghost var a := z.Abs();
    CodeLensOk(a);
    TreesStep(z.setup, a);
    LengthHeld(z.setup, z.HeldState());
    if z.lens[256] == 0 {
      Move(z, BAD(NoEndOfBlock), a);
    } else {
      BuildLits(z, a);
    }
  }

  method BuildLits(z: Inflater, ghost a: State)
    requires z.Shape() && z.Past() && |z.lcode| <= 288 && |z.dcode| <= 32 && z.reader.Valid() && z.reader.bits < 8
    requires z.mode == CODELENS && Ok(a) && z.Abs() == a && a.have >= a.nlen + a.ndist && |a.lens| == LENS_SIZE
      && a.lens[256] != 0
    modifies z`mode, z`lcode, z`dcode, z`lencode, z`lenbits, z`distcode, z`distbits, z.codes, z.work
    ensures z.Valid() && Leads(z.setup, a, z.Abs()) && Below(z.Abs(), a)
  {
    hide Step, Inflater.Past, Inflater.Produced, BitReader.Rest, Ok, Leads, Below, Finish, Pow2, GoodCode, TableFor,
      Builds, FixedTables.Right, Acceptable, RootFor, TableSize, NoSymbols, SpaceFor, BitWriter.Valid, BitReader.Held,
      Inflater.HeldState;
    TreesStep(z.setup, a);
    CodeLensOk(a);
    var lit := z.lens[..z.nlen];
    var rc, used, root := Build(LENS, lit, z.codes, 0, 9, z.work, z.setup.enoughLens);
    BuildsIs(LENS, lit, 9, z.setup.enoughLens, rc, root);
    CarriedPast(z);
    if rc != 0 {
      z.mode := BAD(LiteralSet);
      CarriedPast(z);
      Settled(z, a);
    } else {
      BuildDists(z, lit, used, root, a);
    }
  }

  ghost predicate LitTable(codes: array<Entry>, used: nat, lit: seq<nat>, root: nat, c: Setup)
    reads codes
  {
    && |lit| <= 288 && used <= codes.Length && TableFor(LENS, lit, codes[0..][..used], root)
    && ValidLens(lit) && Builds(LENS, lit, 9, c.enoughLens)
  }

  /** The distance table goes after the other one and leaves it as it is. */
  method BuildAfter(codes: array<Entry>, work: array<nat>, dist: seq<nat>, used: nat, enough: nat)
    returns (rc: int, used1: nat, root1: nat)
    requires |dist| <= 32 && ValidLens(dist) && work.Length >= |dist|
    requires 2 <= enough && used + enough <= codes.Length
    modifies codes, work
    ensures codes[0..][..used] == old(codes[0..][..used])
    ensures rc == 0 <==> Builds(DISTS, dist, 6, enough)
    ensures rc == 0 ==> used1 <= enough && TableFor(DISTS, dist, codes[used..][..used1], root1)
  {
    hide Pow2, GoodCode, TableFor, Builds, Acceptable, RootFor, TableSize, NoSymbols, ValidLens;
    rc, used1, root1 := Build(DISTS, dist, codes, used, 6, work, enough);
    BuildsIs(DISTS, dist, 6, enough, rc, root1);
    assert codes[0..][..used] == codes[..used];
    assert old(codes[0..][..used]) == old(codes[..used]);
  }

  /** zlib/inflate.c:1047-1058. */
  method BuildDists(z: Inflater, lit: seq<nat>, used: nat, root: nat, ghost a: State)
    requires z.Shape() && z.Past() && |z.lcode| <= 288 && |z.dcode| <= 32 && z.reader.Valid() && z.reader.bits < 8
    requires z.mode == CODELENS && Ok(a) && z.Abs() == a && a.have >= a.nlen + a.ndist && |a.lens| == LENS_SIZE
      && a.lens[256] != 0
    requires a.nlen <= 288 && lit == z.lens[..z.nlen]
    requires used <= z.setup.enoughLens && LitTable(z.codes, used, lit, root, z.setup)
    modifies z`mode, z`lcode, z`dcode, z`lencode, z`lenbits, z`distcode, z`distbits, z.codes, z.work
    ensures z.Valid() && Leads(z.setup, a, z.Abs()) && Below(z.Abs(), a)
  {
    hide Inflater.Valid, Step, Inflater.Past, Inflater.Produced, BitReader.Rest, Ok, Leads, Below, Finish, Pow2,
      GoodCode, TableFor, Builds, FixedTables.Right, Acceptable, RootFor, TableSize, NoSymbols;
    Bounds(z);
    TreesStep(z.setup, a);
    CodeLensOk(a);
    var dist := z.lens[z.nlen..z.nlen + z.ndist];
    var rc, used1, root1 := BuildAfter(z.codes, z.work, dist, used, z.setup.enoughDists);
    CarriedPast(z);
    if rc != 0 {
      z.mode := BAD(DistanceSet);
      CarriedPast(z);
      Settled(z, a);
    } else {
      EnterBlock(z, lit, dist, z.codes[0..][..used], z.codes[used..][..used1], root, root1, a);
    }
  }

  lemma BlockTables(z: Inflater)
    requires |z.lcode| <= 288 && |z.dcode| <= 32 && z.mode == LEN
    requires TableFor(LENS, z.lcode, z.lencode, z.lenbits) && TableFor(DISTS, z.dcode, z.distcode, z.distbits)
    ensures z.Tables() && z.Aligned()
  {
    hide TableFor;
  }

  method SetTables(z: Inflater, lit: seq<nat>, dist: seq<nat>, ltab: seq<Entry>, dtab: seq<Entry>, root: nat,
      root1: nat)
    modifies z`mode, z`lcode, z`dcode, z`lencode, z`lenbits, z`distcode, z`distbits
    ensures z.mode == LEN && z.lcode == lit && z.dcode == dist
    ensures z.lencode == ltab && z.lenbits == root && z.distcode == dtab && z.distbits == root1
  {
    z.lencode, z.lenbits := ltab, root;
    z.distcode, z.distbits := dtab, root1;
    z.lcode, z.dcode := lit, dist;
    z.mode := LEN;
  }

  /** The tables of a block's two codes. */
  ghost predicate BothTables(lit: seq<nat>, dist: seq<nat>, ltab: seq<Entry>, dtab: seq<Entry>, root: nat, root1: nat) {
    |lit| <= 288 && |dist| <= 32 && TableFor(LENS, lit, ltab, root) && TableFor(DISTS, dist, dtab, root1)
  }

  method EnterBlock(z: Inflater, lit: seq<nat>, dist: seq<nat>, ltab: seq<Entry>, dtab: seq<Entry>,
                    root: nat, root1: nat, ghost a: State)
    requires z.Shape() && z.Past() && z.reader.Valid() && z.reader.bits < 8 && z.mode == CODELENS && Ok(a)
    requires BothTables(lit, dist, ltab, dtab, root, root1)
    requires Step(z.setup, a) == Next(z.Abs().(lcode := lit, dcode := dist, mode := LEN))
    modifies z`mode, z`lcode, z`dcode, z`lencode, z`lenbits, z`distcode, z`distbits
    ensures z.Valid() && Leads(z.setup, a, z.Abs()) && Below(z.Abs(), a)
    ensures z.lencode == ltab && z.distcode == dtab
  {
    hide Inflater.Valid, Step, Inflater.Shape, Inflater.Past, Inflater.Tables, Inflater.Aligned, Inflater.Produced,
      BitReader.Rest, Ok, Leads, Below, Finish, Pow2, TableFor;
    Bounds(z);
    SetTables(z, lit, dist, ltab, dtab, root, root1);
    BlockTables(z);
    CarriedPast(z);
    Settled(z, a);
  }

  method DoCodeLens(z: Inflater) returns (leave: bool)
    requires z.Valid() && z.mode == CODELENS
    modifies z`mode, z`have, z`lens, z`lcode, z`dcode, z`lencode, z`lenbits, z`distcode, z`distbits, z.codes, z.work,
        z.reader`hold, z.reader`bits, z.reader`next
    ensures z.Valid() && Leads(z.setup, old(z.Abs()), z.Abs())
    ensures if leave then z.Waiting() else Below(z.Abs(), old(z.Abs()))
  {
    hide Step, Inflater.Valid, Inflater.Shape, Inflater.Past, Inflater.Tables, Inflater.Abs, Inflater.Waiting, Ok,
      Leads, Below, Finish;
    if z.have < z.nlen + z.ndist {
      leave := DoLength(z);
    } else {
      DoTrees(z);
      leave := false;
    }
  }
}
