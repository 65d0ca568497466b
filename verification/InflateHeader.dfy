/**
 The modes of inflate before and around a block's codes: wrapper, block type, stored
 data and check (zlib/inflate.c:660-706, 848-935 and 1221-1262), each proved to take
 steps of module InflateSpec or to wait.
 */
module InflateHeader {
  import opened BitOps
  import opened DecodeTable
  import opened BitStream
  import opened InflateSpec
  import opened InflateRuns
  import opened InflateWindow
  import opened BitReader
  import opened InflateState
  import opened InflateStep
  import Adler32
  import StaticTrees

  lemma HeadBits(v: nat, hold: nat)
    requires Low(v, 16) == hold
    ensures Low(hold, 8) == Low(v, 8) && Low(hold, 4) == Low(v, 4)
    ensures Shr(Shr(hold, 4), 9) == Shr(hold, 13)
    ensures Shr(Shr(v, 4), 12) == Shr(v, 16)
  {
    hide Low, Shr;
    LowLow(v, 8, 8);
    LowLow(v, 4, 12);
    ShrShr(hold, 4, 9);
    ShrShr(v, 4, 12);
  }

  /** The two bytes of a zlib header. */
  method ReadHeader(r: BitReader, ghost c: Setup, ghost s: State) returns (ok: bool, mode: Mode)
    requires r.Valid() && r.bits % 8 == 0 && r.bits <= 16 && c.zlib && s.rest == r.Rest()
    modifies r`hold, r`bits, r`next
    ensures r.Valid()
    ensures !ok ==> r.Rest() == old(r.Rest()) && r.next == |r.input| && r.bits < 16 && r.bits % 8 == 0
    ensures ok ==> StepHead(c, s) == Next(s.(mode := mode, rest := r.Rest())) && (r.bits == 0 || mode.BAD?)
    ensures ok ==> mode.BAD? || mode == DICTID || mode == TYPE
  {
    hide Low, Shr, Shl, Pow2, BytesBits, Join;
    ok := r.NeedBits(16);
    r.RestFacts();
    mode := HEAD;
    if !ok {
      return;
    }
    ghost var h := r.hold;
    LowSmall(h, 16);
    ghost var p := r.Peek(16);
    HeadBits(r.Rest().v, h);
    if (Shl(r.Peek(8), 8) + Shr(r.hold, 8)) % 31 != 0 {
      mode := BAD(HeaderCheck);
    } else if r.Peek(4) != 8 {
      mode := BAD(Method);
    } else {
      r.DropBits(4);
      var len := r.Peek(4) + 8;
      if len > 15 {
        mode := BAD(WindowSize);
      } else {
        mode := if Shr(r.hold, 9) % 2 == 1 then DICTID else TYPE;
        r.InitBits();
      }
    }
  }

  method DoHead(z: Inflater) returns (leave: bool)
    requires z.Valid() && z.mode == HEAD
    modifies z`mode, z`check, z.reader`hold, z.reader`bits, z.reader`next
    ensures z.Valid() && Leads(z.setup, old(z.Abs()), z.Abs())
    ensures if leave then z.Waiting() else Below(z.Abs(), old(z.Abs()))
  {
    hide Step, StepHead, Inflater.Produced, BitReader.Rest, Ok, Leads, Below, Finish, TableFor, Keeps, Adler32.Check,
      FixedTables.Right, Pow2;
    ghost var a := z.Abs();
    Here(z.setup, a);
    AtHead(z.setup, a);
    HeadHeld(z.setup, z.HeldState());
    CheckNone();
    if !z.setup.zlib {
      RawHead(z.setup, a);
      EnterHead(z, TYPE, a);
      return false;
    }
    var ok, mode := ReadHeader(z.reader, z.setup, a);
    if !ok {
      z.HeldOk();
      HeadHeld(z.setup, z.HeldState());
      return true;
    }
    if !mode.BAD? {
      z.check := 1;
    }
    EnterHead(z, mode, a);
    leave := false;
  }

  method EnterHead(z: Inflater, mode: Mode, ghost a: State)
    requires z.Shape() && z.Past() && z.reader.Valid() && z.mode == HEAD && Ok(a) && |z.lcode| <= 288 && |z.dcode| <= 32
    requires mode.BAD? || ((mode == DICTID || mode == TYPE) && z.reader.bits == 0 && (z.setup.zlib ==> z.check == 1))
    requires Step(z.setup, a) == Next(z.Abs().(mode := mode))
    modifies z`mode
    ensures z.Valid() && Leads(z.setup, a, z.Abs()) && Below(z.Abs(), a)
  {
    hide Step, StepHead, Inflater.Produced, BitReader.Rest, Ok, Leads, Below, Finish, TableFor, Keeps, Adler32.Check,
      FixedTables.Right, Pow2, Window.Shape, Window.Holds;
    CheckNone();
    z.mode := mode;
    Settled(z, a);
  }

  lemma RawHead(c: Setup, s: State)
    requires !c.zlib
    ensures StepHead(c, s) == Next(s.(mode := TYPE))
  {
  }

  /** With two bytes held, or without a wrapper, a header can be dealt with. */
  lemma HeadHeld(c: Setup, s: State)
    requires Ok(s) && s.mode == HEAD
    ensures Step(c, s) == NeedInput <==> c.zlib && s.rest.n < 16
  {
    AtHead(c, s);
  }

  // ------------------------------------------------------------------- dictionary

  lemma DictIdHeld(c: Setup, s: State)
    requires Ok(s) && s.mode == DICTID
    ensures Step(c, s) == NeedInput <==> s.rest.n < 32
    ensures s.rest.n >= 32 ==> Step(c, s) == Next(Take(s, 32).(mode := DICT))
  {
    hide Shr;
    AtDictId(c, s);
  }

  method AwaitDictionary(z: Inflater, id: nat, ghost a: State)
    requires z.reader.Valid() && z.reader.bits == 0 && z.mode == DICTID && Ok(a) && z.Shape() && z.Past()
    requires |z.lcode| <= 288 && |z.dcode| <= 32
    requires Step(z.setup, a) == Next(z.Abs().(mode := DICT))
    modifies z`mode, z`check
    ensures z.Valid() && Leads(z.setup, a, z.Abs()) && Below(z.Abs(), a)
  {
    hide Step, Inflater.Produced, BitReader.Rest, Ok, Leads, Below, Finish, TableFor, Keeps, Adler32.Check,
      FixedTables.Right, Pow2;
    z.check := id;
    z.mode := DICT;
    Settled(z, a);
  }

  method DoDictId(z: Inflater) returns (leave: bool)
    requires z.Valid() && z.mode == DICTID
    modifies z`mode, z`check, z.reader`hold, z.reader`bits, z.reader`next
    ensures z.Valid() && Leads(z.setup, old(z.Abs()), z.Abs())
    ensures if leave then z.Waiting() else Below(z.Abs(), old(z.Abs()))
  {
    hide Step, Inflater.Valid, Inflater.Shape, Inflater.Tables, Inflater.Past, Inflater.Waiting, Inflater.Produced,
      BitReader.Rest, Ok, Leads, Below, Finish, Pow2, Swap32, Shr, Low;
    Begun(z);
    ghost var a := z.Abs();
    DictIdHeld(z.setup, a);
    DictIdHeld(z.setup, z.HeldState());
    var ok := z.reader.NeedBits(32);
    if !ok {
      if Ok(z.HeldState()) { DictIdHeld(z.setup, z.HeldState()); }
      Starved(z);
      return true;
    }
    z.reader.RestFacts();
    var id := Swap32(z.reader.hold);
    z.reader.InitBits();
    AwaitDictionary(z, id, a);
    leave := false;
  }

  // ------------------------------------------------------------------- block type

  lemma TypeHeld(c: Setup, s: State)
    requires Ok(s) && s.mode == TYPE
    ensures Step(c, s) == NeedInput <==> !s.last && s.rest.n < 3
  {
    hide StaticTrees.StaticLit, FixedDist;
    AtType(c, s);
  }

  method ReadType(r: BitReader) returns (ok: bool, last: bool, kind: nat)
    requires r.Valid() && r.bits <= 32
    modifies r`hold, r`bits, r`next
    ensures r.Valid()
    ensures !ok ==> r.Rest() == old(r.Rest()) && r.next == |r.input| && r.bits < 3
    ensures ok ==>
      old(r.Rest()).n >= 3 && last == (Low(old(r.Rest()).v, 1) == 1) && kind == Low(Shr(old(r.Rest()).v, 1), 2)
    ensures ok ==> r.Rest() == Bits(Shr(old(r.Rest()).v, 3), old(r.Rest()).n - 3) && (old(r.bits) < 8 ==> r.bits < 8)
  {
    hide Low, Shr, Pow2, BytesBits, Join;
    last, kind := false, 0;
    ok := r.NeedBits(3);
    if ok {
      r.RestFacts();
      ghost var v := r.Rest().v;
      last := r.Peek(1) == 1;
      r.DropBits(1);
      kind := r.Peek(2);
      r.DropBits(2);
      ShrShr(v, 1, 2);
    }
  }

  /** fixedtables. */
  method UseFixed(z: Inflater)
    requires z.fixed.Right()
    modifies z`lencode, z`lenbits, z`distcode, z`distbits, z`lcode, z`dcode
    ensures z.lcode == StaticTrees.StaticLit() && z.dcode == FixedDist()
    ensures TableFor(LENS, z.lcode, z.lencode, z.lenbits) && TableFor(DISTS, z.dcode, z.distcode, z.distbits)
  {
    z.lencode, z.lenbits, z.distcode, z.distbits := z.fixed.lenfix, 9, z.fixed.distfix, 5;
    z.lcode, z.dcode := StaticTrees.StaticLit(), FixedDist();
  }

  /** The codes of a fixed block. */
  method DoFixed(z: Inflater, ghost a: State)
    requires z.Shape() && z.reader.Valid() && z.reader.bits < 8 && z.Past() && z.mode == TYPE && Ok(a)
    requires Step(z.setup, a) == Next(z.Abs().(mode := LEN, lcode := StaticTrees.StaticLit(), dcode := FixedDist()))
    modifies z`mode, z`lencode, z`lenbits, z`distcode, z`distbits, z`lcode, z`dcode
    ensures z.Valid() && Leads(z.setup, a, z.Abs()) && Below(z.Abs(), a)
  {
    hide Step, Inflater.Produced, BitReader.Rest, Ok, Leads, Below, Finish, TableFor, Keeps, StaticTrees.StaticLit,
      FixedDist, Pow2, SymbolFound, Decodes, BitWriter.Valid, BitReader.Valid, Inflater.Valid, Adler32.Pack,
      Adler32.Feed, Adler32.Check;
    UseFixed(z);
    z.mode := LEN;
    Settled(z, a);
  }

  lemma TypeSteps(s: State, last: bool, kind: nat)
    requires !s.last && s.rest.n >= 3 && last == (Low(s.rest.v, 1) == 1) && kind == Low(Shr(s.rest.v, 1), 2)
    ensures var s' := Take(s, 3).(last := last);
      StepType(s) == Next(match kind
                          case 0 => s'.(mode := STORED)
                          case 1 => s'.(mode := LEN, lcode := StaticTrees.StaticLit(), dcode := FixedDist())
                          case 2 => s'.(mode := TABLE)
                          case _ => s'.(mode := BAD(BlockKind)))
  {
    hide Low, Shr, StaticTrees.StaticLit, FixedDist;
  }

  lemma LastStep(s: State)
    requires s.last
    ensures StepType(s) == Next(Take(s, s.rest.n % 8).(mode := CHECK))
  {
  }

  /** After the last block. */
  method DoLast(z: Inflater)
    requires z.Valid() && z.mode == TYPE && z.last
    modifies z`mode, z.reader`hold, z.reader`bits
    ensures z.Valid() && Leads(z.setup, old(z.Abs()), z.Abs()) && Below(z.Abs(), old(z.Abs()))
  {
    hide Step, StepType, Inflater.Valid, Inflater.Shape, Inflater.Tables, Inflater.Past, Inflater.Produced,
      BitReader.Rest, Ok, Leads, Below, Finish, Pow2, Shr, Low;
    Begun(z);
    ghost var a := z.Abs();
    AtType(z.setup, a);
    TypeHeld(z.setup, z.HeldState());
    z.reader.ByteBits();
    z.mode := CHECK;
    LastStep(a);
    Carried(z);
    Settled(z, a);
  }

  method DoType(z: Inflater) returns (leave: bool)
    requires z.Valid() && z.mode == TYPE
    modifies z`mode, z`last, z`lencode, z`lenbits, z`distcode, z`distbits, z`lcode, z`dcode, z.reader`hold,
        z.reader`bits, z.reader`next
    ensures z.Valid() && Leads(z.setup, old(z.Abs()), z.Abs())
    ensures if leave then z.Waiting() else Below(z.Abs(), old(z.Abs()))
  {
    hide Step, StepType, Inflater.Valid, Inflater.Shape, Inflater.Tables, Inflater.Past, Inflater.Waiting,
      Inflater.Produced, BitReader.Rest, Ok, Leads, Below, Finish, Pow2, Shr, Low, StaticTrees.StaticLit, FixedDist;
    Begun(z);
    ghost var a := z.Abs();
    AtType(z.setup, a);
    TypeHeld(z.setup, z.HeldState());
    if z.last {
      DoLast(z);
      return false;
    }
    var ok, last, kind := ReadType(z.reader);
    if !ok {
      if Ok(z.HeldState()) { TypeHeld(z.setup, z.HeldState()); }
      Starved(z);
      return true;
    }
    Carried(z);
    EnterType(z, last, kind, a);
    leave := false;
  }

  method EnterType(z: Inflater, last: bool, kind: nat, ghost a: State)
    requires z.Shape() && z.Past() && |z.lcode| <= 288 && |z.dcode| <= 32 && z.Tables() && z.reader.Valid()
    requires z.reader.bits < 8 && z.mode == TYPE && Ok(a) && a.mode == TYPE && !a.last && a.rest.n >= 3
      && z.Abs() == Take(a, 3)
    requires last == (Low(a.rest.v, 1) == 1) && kind == Low(Shr(a.rest.v, 1), 2)
    modifies z`mode, z`last, z`lencode, z`lenbits, z`distcode, z`distbits, z`lcode, z`dcode
    ensures z.Valid() && Leads(z.setup, a, z.Abs()) && Below(z.Abs(), a)
  {
    hide Step, StepType, Inflater.Valid, Inflater.Shape, Inflater.Tables, Inflater.Past, Inflater.Waiting,
      Inflater.Produced, BitReader.Rest, Ok, Leads, Below, Finish, Pow2, Shr, Low, StaticTrees.StaticLit, FixedDist;
    Bounds(z);
    AtType(z.setup, a);
    TypeSteps(a, last, kind);
    z.last := last;
    Carried(z);
    if kind == 1 {
      DoFixed(z, a);
    } else {
      Move(z, if kind == 0 then STORED else if kind == 2 then TABLE else BAD(BlockKind), a);
    }
  }

  // ----------------------------------------------------------------- stored blocks

  lemma StoredHeld(c: Setup, s: State)
    requires Ok(s) && s.mode == STORED
    ensures Step(c, s) == NeedInput <==> s.rest.n % 8 == 0 && s.rest.n < 32
  {
    AtStored(c, s);
  }

  /** The state at the byte boundary, and whether it is a step away. */
  lemma StoredAligned(c: Setup, a: State, b: State)
    requires Ok(a) && a.mode == STORED && b == Take(a, a.rest.n % 8)
    ensures Leads(c, a, b) && b.mode == STORED && b.rest.n % 8 == 0
  {
    hide Ok, Step, Leads, Shr, Low, Finish;
    AtStored(c, a);
    if a.rest.n % 8 != 0 {
      LeadsStep(c, a, b);
    } else {
      TakeNone(a);
      Here(c, a);
    }
  }

  lemma TakeNone(s: State)
    ensures Take(s, 0) == s
  {
  }

  method ReadStored(r: BitReader) returns (ok: bool, good: bool, length: nat)
    requires r.Valid() && r.bits % 8 == 0
    modifies r`hold, r`bits, r`next
    ensures r.Valid()
    ensures !ok ==> r.Rest() == old(r.Rest()) && r.next == |r.input| && r.bits < 32 && r.bits % 8 == 0
    ensures ok ==> old(r.Rest()).n >= 32 && length == Low(old(r.Rest()).v, 16)
    ensures ok ==> (good <==> length == Xor(Low(Shr(old(r.Rest()).v, 16), 16), 0xffff))
    ensures ok && good ==> r.bits == 0 && r.Rest() == Bits(Shr(old(r.Rest()).v, 32), old(r.Rest()).n - 32)
    ensures ok && !good ==> r.Rest() == old(r.Rest())
  {
    hide Low, Shr, Pow2, BytesBits, Join, Xor;
    good, length := false, 0;
    ok := r.NeedBits(32);
    if ok {
      r.RestFacts();
      ghost var v := r.Rest().v;
      LowSmall(r.hold, 32);
      ghost var p := r.Peek(32);
      LowLow(v, 16, 16);
      length := r.Peek(16);
      good := length == Xor(Shr(r.hold, 16), 0xffff);
      if good {
        r.InitBits();
      }
    }
  }

  method DoStored(z: Inflater) returns (leave: bool)
    requires z.Valid() && z.mode == STORED
    modifies z`mode, z`length, z.reader`hold, z.reader`bits, z.reader`next
    ensures z.Valid() && Leads(z.setup, old(z.Abs()), z.Abs())
    ensures if leave then z.Waiting() else Below(z.Abs(), old(z.Abs()))
  {
    hide Inflater.Valid, Inflater.Shape, Inflater.Tables, Inflater.Waiting, Inflater.Abs, Leads, Below, Ok, Step;
    Begun(z);
    ghost var a := z.Abs();
    AlignStored(z);
    Begun(z);
    ghost var b := z.Abs();
    leave := ReadSizes(z);
    Begun(z);
    LeadsOn(z.setup, a, b, z.Abs());
  }

  /** The two lengths after the byte boundary. */
  method ReadSizes(z: Inflater) returns (leave: bool)
    requires z.Valid() && z.mode == STORED && z.reader.bits % 8 == 0
    modifies z`mode, z`length, z.reader`hold, z.reader`bits, z.reader`next
    ensures z.Valid() && Leads(z.setup, old(z.Abs()), z.Abs())
    ensures if leave then z.Waiting() else Below(z.Abs(), old(z.Abs()))
  {
    hide Step, StepStored, Inflater.Valid, Inflater.Shape, Inflater.Tables, Inflater.Past, Inflater.Waiting,
      Inflater.Produced, BitReader.Rest, Ok, Leads, Below, Finish, Pow2, Shr, Low, Xor;
    Begun(z);
    z.reader.RestFacts();
    ghost var a := z.Abs();
    AtStored(z.setup, a);
    StoredHeld(z.setup, z.HeldState());
    var ok, good, length := ReadStored(z.reader);
    if !ok {
      if Ok(z.HeldState()) { StoredHeld(z.setup, z.HeldState()); }
      Starved(z);
      return true;
    }
    StoredSteps(a);
    Carried(z);
    UseSizes(z, good, length, a);
    leave := false;
  }

  method UseSizes(z: Inflater, good: bool, length: nat, ghost a: State)
    requires z.Shape() && z.Past() && |z.lcode| <= 288 && |z.dcode| <= 32 && z.Tables() && z.reader.Valid()
    requires z.mode == STORED && Ok(a) && (good ==> z.reader.bits == 0)
    requires Step(z.setup, a)
      == Next(if good then z.Abs().(length := length, mode := COPY) else z.Abs().(mode := BAD(StoredLengths)))
    modifies z`mode, z`length
    ensures z.Valid() && Leads(z.setup, a, z.Abs()) && Below(z.Abs(), a)
  {
    hide Step, StepStored, Inflater.Valid, Inflater.Shape, Inflater.Tables, Inflater.Past, Inflater.Produced,
      BitReader.Rest, Ok, Leads, Below, Finish;
    Bounds(z);
    if good {
      StartCopy(z, length, a);
    } else {
      Move(z, BAD(StoredLengths), a);
    }
  }

  method StartCopy(z: Inflater, length: nat, ghost a: State)
    requires z.Shape() && z.Past() && |z.lcode| <= 288 && |z.dcode| <= 32 && z.Tables() && z.reader.Valid()
    requires z.mode == STORED && Ok(a) && z.reader.bits == 0
    requires Step(z.setup, a) == Next(z.Abs().(length := length, mode := COPY))
    modifies z`mode, z`length
    ensures z.Valid() && Leads(z.setup, a, z.Abs()) && Below(z.Abs(), a)
  {
    hide Step, StepStored, Inflater.Valid, Inflater.Shape, Inflater.Tables, Inflater.Past, Inflater.Produced,
      BitReader.Rest, Ok, Leads, Below, Finish;
    Bounds(z);
    z.length := length;
    z.mode := COPY;
    Carried(z);
    Settled(z, a);
  }

  lemma StoredSteps(s: State)
    requires s.rest.n % 8 == 0 && s.rest.n >= 32
    ensures StepStored(s) == if Low(s.rest.v, 16) != Xor(Low(Shr(s.rest.v, 16), 16), 0xffff) then Bad(s, StoredLengths)
      else Next(Take(s, 32).(length := Low(s.rest.v, 16), mode := COPY))
  {
  }

  method AlignStored(z: Inflater)
    requires z.Valid() && z.mode == STORED
    modifies z.reader`hold, z.reader`bits
    ensures z.Valid() && Leads(z.setup, old(z.Abs()), z.Abs()) && z.reader.bits % 8 == 0
  {
    hide Step, Inflater.Valid, Inflater.Shape, Inflater.Tables, Inflater.Past, Inflater.Produced,
      BitReader.Rest, Ok, Leads, Below, Finish, Pow2, Shr, Low;
    Begun(z);
    ghost var a := z.Abs();
    StoredHeld(z.setup, z.HeldState());
    z.reader.RestFacts();
    z.reader.ByteBits();
    StoredAligned(z.setup, a, z.Abs());
    if Ok(z.HeldState()) { StoredHeld(z.setup, z.HeldState()); }
    Pulled(z);
  }

  lemma CopyHeld(c: Setup, s: State)
    requires Ok(s) && s.mode == COPY
    ensures Step(c, s) == NeedInput <==> s.length > 0 && s.rest.n < 8
    ensures s.length == 0 ==> Step(c, s) == Next(s.(mode := TYPE))
  {
    AtCopy(c, s);
  }

  /** zmemcpy from the input to the output. */
  method CopyBytes(z: Inflater, copy: nat)
    requires z.Shape() && z.reader.Valid() && z.reader.bits == 0
    requires z.reader.next + copy <= |z.reader.input| && z.put + copy <= z.out.Length
    modifies z`put, z.out, z.reader`next
    ensures z.Shape() && z.reader.Valid() && z.put == old(z.put) + copy && z.reader.next == old(z.reader.next) + copy
    ensures var data := z.reader.input[old(z.reader.next)..z.reader.next];
      && |data| == copy
      && z.Produced() == old(z.Produced()) + data && old(z.reader.Rest()) == Join(BytesBits(data), z.reader.Rest())
  {
    hide FixedTables.Right, BytesBits, Join, Pow2;
    ghost var before := z.out[z.start..z.put];
    forall k | 0 <= k < copy {
      z.out[z.put + k] := z.reader.input[z.reader.next + k];
    }
    z.reader.SkipBytes(copy);
    z.put := z.put + copy;
    assert z.out[z.start..z.put] == before + z.reader.input[old(z.reader.next)..z.reader.next];
  }

  /** zlib/inflate.c:925-931. */
  method CopyPart(z: Inflater, copy: nat, ghost a: State)
    requires z.Shape() && z.Past() && |z.lcode| <= 288 && |z.dcode| <= 32 && z.Tables() && z.reader.Valid()
    requires z.mode == COPY && z.reader.bits == 0 && Ok(a) && z.Abs() == a && 0 < copy <= z.length
    requires z.reader.next + copy <= |z.reader.input| && z.put + copy <= z.out.Length && z.out != z.win.window
    modifies z`length, z`put, z.out, z.reader`next
    ensures z.Valid() && Leads(z.setup, a, z.Abs()) && Below(z.Abs(), a)
  {
    hide Step, Inflater.Valid, Inflater.Shape, Inflater.Tables, Inflater.Past, Inflater.Produced,
      BitReader.Rest, Ok, Leads, Below, Finish, Pow2, Shr, Low, Join, BytesBits;
    Bounds(z);
    CopyBytes(z, copy);
    z.length := z.length - copy;
    ghost var data := z.reader.input[old(z.reader.next)..z.reader.next];
    StoredRun(z.setup, a, data, z.reader.Rest());
    assert z.Abs() == Brought(a, data, z.reader.Rest());
    Carried(z);
    Landed(z, a);
  }

  method DoCopy(z: Inflater) returns (leave: bool)
    requires z.Valid() && z.mode == COPY
    modifies z`mode, z`length, z`put, z.out, z.reader`next
    ensures z.Valid() && Leads(z.setup, old(z.Abs()), z.Abs())
    ensures if leave then z.Waiting() else Below(z.Abs(), old(z.Abs()))
  {
    hide Step, Inflater.Valid, Inflater.Shape, Inflater.Tables, Inflater.Past, Inflater.Produced,
      BitReader.Rest, Ok, Leads, Below, Finish, Pow2, Shr, Low, Join, BytesBits;
    Begun(z);
    ghost var a := z.Abs();
    CopyHeld(z.setup, a);
    CopyHeld(z.setup, z.HeldState());
    var copy := z.length;
    if copy != 0 {
      if copy > |z.reader.input| - z.reader.next {
        copy := |z.reader.input| - z.reader.next;
      }
      if copy > z.out.Length - z.put {
        copy := z.out.Length - z.put;
      }
      if copy == 0 {
        return true;
      }
      CopyPart(z, copy, a);
    } else {
      z.mode := TYPE;
      Carried(z);
      Settled(z, a);
    }
    leave := false;
  }

  // --------------------------------------------------------------------- the check

  lemma CheckHeld(c: Setup, s: State)
    requires Ok(s) && s.mode == CHECK
    ensures Step(c, s) == NeedInput <==> c.zlib && s.rest.n < 32
    ensures !c.zlib ==> Step(c, s) == Next(s.(mode := DONE))
    ensures c.zlib && s.rest.n >= 32 ==> Step(c, s) == CheckStep(s)
  {
    hide Low, Swap32, Adler32.Check;
    AtCheck(c, s);
  }

  function CheckStep(s: State): Outcome
    requires s.rest.n >= 32
  {
    if Swap32(Low(s.rest.v, 32)) != Adler32.Check(1, s.out) then Bad(s, DataCheck) else Next(Take(s, 32).(mode := DONE))
  }

  /** The check over what the call has put out so far (zlib/inflate.c:1224-1230). */
  method UpdateCheck(z: Inflater)
    requires z.Shape() && z.check == Adler32.Check(1, z.history)
    modifies z`check, z`history, z`start
    ensures z.Shape() && z.start == z.put && z.history == old(z.Produced()) == z.Produced()
    ensures z.check == Adler32.Check(1, z.history)
  {
    hide Adler32.Check, Adler32.Unpack, FixedTables.Right;
    UnpackOne();
    ghost var added := z.out[z.start..z.put];
    Adler32.CheckAppend(1, z.history, added);
    if z.put != z.start {
      z.check := Adler32.Adler32Z(z.check, Adler32.Bytes(z.out[z.start..z.put]), z.put - z.start);
    } else {
      assert z.history + added == z.history;
    }
    z.history := z.history + added;
    z.start := z.put;
    assert z.out[z.start..z.put] == [];
    assert z.history + [] == z.history;
  }

  lemma UnpackOne()
    ensures Adler32.Unpack(1) == Adler32.Sums(1, 0) && Adler32.Reduced(Adler32.Unpack(1))
  {
    hide Adler32.Unpack;
    Adler32.UnpackOne();
  }

  method DoCheck(z: Inflater) returns (leave: bool)
    requires z.Valid() && z.mode == CHECK
    modifies z`mode, z`check, z`history, z`start, z.reader`hold, z.reader`bits, z.reader`next
    ensures z.Valid() && Leads(z.setup, old(z.Abs()), z.Abs())
    ensures if leave then z.Waiting() else Below(z.Abs(), old(z.Abs()))
    ensures z.Produced() == old(z.Produced())
    ensures if leave then z.history == old(z.history) && z.start == old(z.start) else !Live(z.mode)
  {
    hide Step, Inflater.Valid, Inflater.Shape, Inflater.Tables, Inflater.Waiting, Inflater.Produced, Inflater.Past,
      BitReader.Rest, Ok, Leads, Below, Finish, Pow2, Shr, Low, Join, BytesBits, Adler32.Check, Swap32;
    Begun(z);
    ghost var a := z.Abs();
    CheckHeld(z.setup, a);
    CheckHeld(z.setup, z.HeldState());
    if !z.setup.zlib {
      z.mode := DONE;
      Carried(z);
      Settled(z, a);
      return false;
    }
    var ok := z.reader.NeedBits(32);
    if !ok {
      if Ok(z.HeldState()) { CheckHeld(z.setup, z.HeldState()); }
      Starved(z);
      return true;
    }
    z.reader.RestFacts();
    ghost var v := z.reader.Peek(32);
    LowFull(z.reader.hold);
    Carried(z);
    CompareCheck(z, a);
    leave := false;
  }

  lemma LowFull(x: nat)
    ensures x < Pow2(32) ==> Low(x, 32) == x
  {
    if x < Pow2(32) { LowSmall(x, 32); }
  }

  method CompareCheck(z: Inflater, ghost a: State)
    requires z.Shape() && z.Past() && z.reader.Valid() && z.mode == CHECK && z.setup.zlib && z.reader.bits == 32
      && Ok(a)
    requires |z.lcode| <= 288 && |z.dcode| <= 32
    requires a == z.Abs() && a.rest.n >= 32 && Step(z.setup, a) == CheckStep(a) && Low(a.rest.v, 32) == z.reader.hold
    modifies z`mode, z`check, z`history, z`start, z.reader`hold, z.reader`bits
    ensures z.Valid() && Leads(z.setup, a, z.Abs()) && Below(z.Abs(), a) && z.Produced() == a.out && !Live(z.mode)
  {
    hide Step, Inflater.Produced, BitReader.Rest, Ok, Leads, Below, Finish, Pow2, Shr, Low, Adler32.Check, Swap32,
      Keeps, FixedTables.Right, TableFor, Window.Holds, Inflater.HeldState, Inflater.Slim;
    UpdateCheck(z);
    assert z.Abs() == a;
    if Swap32(z.reader.hold) != z.check {
      EndCheck(z, BAD(DataCheck), a);
    } else {
      z.reader.InitBits();
      assert z.Abs() == Take(a, 32);
      EndCheck(z, DONE, a);
    }
  }

  method EndCheck(z: Inflater, mode: Mode, ghost a: State)
    requires z.Shape() && z.reader.Valid() && z.mode == CHECK && Ok(a) && |z.lcode| <= 288 && |z.dcode| <= 32
    requires z.win.Shape() && z.check == Adler32.Check(1, z.history)
      && (mode.BAD? || (mode == DONE && z.reader.bits == 0))
    requires Step(z.setup, a) == Next(z.Abs().(mode := mode))
    modifies z`mode
    ensures z.Valid() && Leads(z.setup, a, z.Abs()) && Below(z.Abs(), a) && z.Produced() == old(z.Produced())
      && z.mode == mode
  {
    hide Step, Inflater.Produced, BitReader.Rest, Ok, Leads, Below, Finish, Pow2, Adler32.Check, Keeps,
      FixedTables.Right, TableFor, Window.Holds, Window.Shape, Inflater.HeldState, Inflater.Slim;
    z.mode := mode;
    Settled(z, a);
  }
}
