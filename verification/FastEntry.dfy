/**
 With how many bits inflate_fast is entered.  It says fewer than eight (zlib/inffast.c:25-32); a call of
 inflate that ended inside a code of nine bits or more can leave eight or more, and these are
 exactly the states in which it does.
 */
module FastEntry {
  import opened BitOps
  import opened Canonical
  import opened DecodeTable
  import opened CodeLookup
  import opened BitStream
  import opened CodeReading
  import opened StaticTrees
  import opened SentBlock
  import opened RoundTrip
  import opened InflateSpec
  import opened InflateRuns
  import opened InflateState
  import Inflate
  import BlockDecoding
  import InflateSymbols

  /** Between two symbols: what is held are fewer than eight bits, or the beginning of one code. */
  lemma HeldInLen(z: Inflater)
    requires z.reader.Valid() && z.start <= z.put <= z.out.Length && Ok(z.HeldState()) && z.mode == LEN
    ensures z.Slim() <==> z.reader.bits < 8 || CodeFound(LENS, z.lcode, z.reader.hold).bits > z.reader.bits
  {
    hide Ok, Step, CodeFound;
    InflateSymbols.LenHeld(z.setup, z.HeldState());
  }

  /** When inflate_fast may be entered with eight bits or more, and that there are never more than fourteen. */
  lemma HeldOnEntry(z: Inflater)
    requires z.Valid() && z.mode == LEN
    ensures z.reader.bits >= 8 ==> CodeFound(LENS, z.lcode, z.reader.hold).bits > z.reader.bits
    ensures z.reader.bits <= 14
  {
    hide Ok, Step, CodeFound, TableFor, Inflater.Tables, Inflater.Past;
    HeldInLen(z);
    InflateSymbols.BlockOk(z.HeldState());
    CodesShort(z.lcode, z.reader.hold);
  }

  lemma CodesShort(lens: seq<nat>, v: nat)
    requires GoodCode(LENS, lens)
    ensures CodeFound(LENS, lens, v).bits <= 15
  {
    hide Kraft;
  }

  // ------------------------------------------------------------------- a stream that does it

  /** The n low bytes of a number. */
  function Unload(v: nat, n: nat): (bs: seq<byte>)
    ensures |bs| == n
  {
    if n == 0 then [] else Pow2Byte(); [Low(v, 8)] + Unload(Shr(v, 8), n - 1)
  }

  lemma {:induction false} UnloadLoad(v: nat, n: nat)
    requires v < Pow2(8 * n)
    ensures Load(Unload(v, n)) == v
  {
    hide Low, Shr, Shl, Pow2;
    if n == 0 {
      NoBitsLeft(v);
    } else {
      Pow2Byte();
      ShrBound(v, 8, 8 * (n - 1));
      UnloadLoad(Shr(v, 8), n - 1);
      Split(v, 8);
      assert Unload(v, n)[1..] == Unload(Shr(v, 8), n - 1);
    }
  }

  lemma NoBitsLeft(v: nat)
    requires v < Pow2(0)
    ensures v == 0
  {
  }

  /** A literal that has nine bits in the fixed code, k times. */
  ghost function Lits(b: byte, k: nat, more: Bits): Bits
    decreases k
  {
    if k == 0 then more else Join(CodeOf(StaticLit(), b), Lits(b, k - 1, more))
  }

  lemma {:induction false} LitsSize(b: byte, k: nat, more: Bits)
    requires 144 <= b
    requires Proper(more)
    ensures Proper(Lits(b, k, more)) && Lits(b, k, more).n == 9 * k + more.n
  {
    hide RevCode, Join, Proper;
    if k != 0 {
      LitsSize(b, k - 1, more);
      JoinProper(CodeOf(StaticLit(), b), Lits(b, k - 1, more));
      JoinSize(CodeOf(StaticLit(), b), Lits(b, k - 1, more));
    }
  }

  lemma JoinSize(x: Bits, y: Bits)
    ensures Join(x, y).n == x.n + y.n
  {
  }

  /** The first eight bits of that code. */
  ghost function Beginning(b: byte): Bits
  {
    Bits(Low(CodeOf(StaticLit(), b).v, 8), 8)
  }

  /** Three bits of block type, five literals of nine bits, and eight bits of a sixth: seven bytes. */
  ghost function CutBits(b: byte): Bits
  {
    Join(BlockType(1, false), Lits(b, 5, Beginning(b)))
  }

  ghost function CutStream(b: byte): seq<byte>
  {
    Unload(CutBits(b).v, 7)
  }

  lemma CutIsStream(b: byte)
    requires 144 <= b
    ensures BytesBits(CutStream(b)) == CutBits(b)
  {
    hide RevCode, Join, Lits, Unload, Low;
    LowBelow(CodeOf(StaticLit(), b).v, 8);
    LitsSize(b, 5, Beginning(b));
    TypeProper();
    JoinProper(BlockType(1, false), Lits(b, 5, Beginning(b)));
    JoinSize(BlockType(1, false), Lits(b, 5, Beginning(b)));
    UnloadLoad(CutBits(b).v, 7);
  }

  lemma TypeProper()
    ensures Proper(BlockType(1, false))
  {
  }

  lemma LowBelow(v: nat, n: nat)
    ensures Low(v, n) < Pow2(n)
  {
  }

  /** Eight bits are no code. */
  lemma BeginningIsNone(b: byte)
    requires 144 <= b
    ensures CodeFound(LENS, StaticLit(), Beginning(b).v).bits > 8
  {
    hide RevCode, CodeFound, GoodCode, Low, Shr, Shl, Pow2, Join;
    var code := CodeOf(StaticLit(), b);
    FixedGood();
    BlockDecoding.CodeReads(LENS, StaticLit(), b, NoBits);
    JoinNone(code);
    LowBelow(code.v, 8);
    Split(code.v, 8);
    if CodeFound(LENS, StaticLit(), Beginning(b).v).bits <= 8 {
      FoundStable(LENS, StaticLit(), Low(code.v, 8), 8, Shr(code.v, 8));
    }
  }

  /** One literal decoded: two steps. */
  lemma LitRun(b: byte, c: Setup, s: State, more: Bits) returns (d: State)
    requires 144 <= b
    requires Ok(s) && s.mode == LEN && s.lcode == StaticLit() && s.rest == Join(CodeOf(StaticLit(), b), more)
    ensures Leads(c, s, d) && d.mode == LEN && d.lcode == StaticLit() && d.rest == more && d.out == s.out + [b]
  {
    hide Ok, Step, Leads, Below, RevCode, CodeFound, GoodCode, Shr;
    FixedGood();
    BlockDecoding.CodeReads(LENS, StaticLit(), b, more);
    AtLen(c, s);
    var m := Step(c, s).s;
    LeadsStep(c, s, m);
    LeadsOk(c, s, m);
    AtLit(c, m);
    d := Step(c, m).s;
    LeadsStep(c, m, d);
    LeadsOn(c, s, m, d);
  }

  lemma {:induction false} LitsRun(b: byte, c: Setup, s: State, k: nat, more: Bits) returns (d: State)
    requires 144 <= b
    requires Ok(s) && s.mode == LEN && s.lcode == StaticLit() && s.rest == Lits(b, k, more)
    ensures Leads(c, s, d) && d.mode == LEN && d.lcode == StaticLit() && d.rest == more && |d.out| == |s.out| + k
    decreases k
  {
    hide Ok, Step, Leads, Below, RevCode, Join;
    if k == 0 {
      d := s;
      Stays(c, s);
    } else {
      var m := LitRun(b, c, s, Lits(b, k - 1, more));
      LeadsOk(c, s, m);
      d := LitsRun(b, c, m, k - 1, more);
      LeadsOn(c, s, m, d);
    }
  }

  lemma Stays(c: Setup, s: State)
    requires Ok(s)
    ensures Leads(c, s, s)
  {
    hide Ok;
  }

  /** The state that the seven bytes lead to: between two symbols, with eight bits that are no code. */
  lemma CutRun(b: byte, c: Setup) returns (s: State)
    requires 144 <= b
    requires !c.zlib
    ensures Leads(c, Opened(CutStream(b)), s) && s.mode == LEN && s.lcode == StaticLit() && s.rest == Beginning(b)
      && |s.out| == 5
    ensures Step(c, s) == NeedInput
  {
    hide Ok, Step, Leads, Below, RevCode, Join, Lits, CutStream, CodeFound;
    var o := Opened(CutStream(b));
    OpenedOk(CutStream(b));
    CutIsStream(b);
    AtHead(c, o);
    var h := Step(c, o).s;
    LeadsStep(c, o, h);
    LeadsOk(c, o, h);
    TypeRun(c, h, 1, false, Lits(b, 5, Beginning(b)));
    var m := Entered(h, 1, false, Lits(b, 5, Beginning(b)));
    LeadsOn(c, o, h, m);
    s := LitsRun(b, c, m, 5, Beginning(b));
    LeadsOn(c, o, m, s);
    LeadsOk(c, m, s);
    InflateSymbols.LenHeld(c, s);
    BeginningIsNone(b);
  }

  /** A call with these bytes leaves eight bits held, and the next one may enter inflate_fast with them. */
  method EightHeld(b: byte, c: Setup, stream: seq<byte>) returns (z: Inflater)
    requires 144 <= b && !c.zlib && 128 <= c.enoughLens && 2 <= c.enoughDists && stream == CutStream(b)
    ensures z.Valid() && z.mode == LEN && z.reader.bits == 8
  {
    hide Ok, Step, Leads, Below, RevCode, CutStream, CodeFound, Ending, Opened, Inflater.Valid, Inflater.Produced, Low,
      Inflate.Idle, Inflate.OutOfRoom;
    z := new Inflater(c, stream);
    Inflate.NothingYet(z, stream);
    var buf := new byte[300];
    assert stream == stream + [];
    var code, used, made := Inflate.Call(z, stream, buf, []);
    Inflate.IdleIs(z);
    ghost var s := CutRun(b, c);
    Inflate.EndOf(c, Opened(stream), s);
    Inflate.EndOf(c, Opened(stream), z.Abs());
    assert |buf[..made]| == made;
    Inflate.AtEnd(z);
  }
}
