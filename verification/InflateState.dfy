/**
 inflate's state between and during calls (zlib/inflate.h:82-126): the registers, the
 tables, the window and the buffers of the call, and what makes them right.  The
 abstract state of module InflateSpec is read off them.
 */
module InflateState {
  import opened BitOps
  import opened Canonical
  import opened DecodeTable
  import opened BitStream
  import opened CodeLookup
  import opened InflateSpec
  import opened InflateWindow
  import opened BitReader
  import opened InflateTable
  import opened SubTables
  import opened StaticTrees
  import Adler32

  const WORK_SIZE: nat := 288

  /** Modes in which the window is kept up. */
  ghost predicate Live(m: Mode) {
    !m.BAD? && m != DONE && m != DICT
  }

  /** Modes before the first block. */
  ghost predicate Opening(m: Mode) {
    m == HEAD || m == DICTID || m == DICT
  }

  class Inflater {
    const setup: Setup
    var mode: Mode
    var last: bool
    var length: nat
    var offset: nat
    var extra: nat
    var nlen: nat
    var ndist: nat
    var ncode: nat
    var have: nat
    var lens: seq<nat>
    const work: array<nat>
    const codes: array<Entry>
    /** The tables that the pointers lencode and distcode lead to, and their index bits. */
    var lencode: seq<Entry>
    var lenbits: nat
    var distcode: seq<Entry>
    var distbits: nat
    ghost var lcode: seq<nat>
    ghost var dcode: seq<nat>
    const fixed: FixedTables
    const win: Window
    const reader: BitReader
    var check: nat
    /** The output buffer of the call, how far it is filled, and from where it is not yet in the window. */
    var out: array<byte>
    var put: nat
    var start: nat
    /** All output before `start`. */
    ghost var history: seq<byte>

    ghost predicate Shape()
      reads this
    {
      && work.Length == WORK_SIZE && 128 <= setup.enoughLens && 2 <= setup.enoughDists
      && codes.Length == setup.enoughLens + setup.enoughDists
      && start <= put <= out.Length && out != win.window
      && fixed.Right()
    }

    /** All output so far. */
    ghost function Produced(): seq<byte>
      requires start <= put <= out.Length
      reads `history, `start, `put, `out, out
    {
      history + out[start..put]
    }

    ghost function Abs(): State
      requires reader.next <= |reader.input| && start <= put <= out.Length
      reads this, reader, out
    {
      State(mode, last, length, offset, extra, nlen, ndist, ncode, have, lens, lcode, dcode,
            Produced(), reader.Rest())
    }

    /** The state if no more input were to come. */
    ghost function HeldState(): State
      requires reader.next <= |reader.input| && start <= put <= out.Length
      reads this, reader, out
    {
      Abs().(rest := reader.Held())
    }

    ghost predicate Tables()
      requires |lcode| <= 288 && |dcode| <= 32
      reads this
    {
      && (mode == CODELENS
          ==> |lcode| <= 19 && 1 <= lenbits && TableFor(CODES, lcode, lencode, lenbits)
              && forall i :: 0 <= i < |lcode| ==> lcode[i] <= lenbits)
      && (InBlock(mode) ==> TableFor(LENS, lcode, lencode, lenbits) && TableFor(DISTS, dcode, distcode, distbits))
    }

    /** Where whole bytes are read, no bits hang over. */
    ghost predicate Aligned()
      reads this, reader
    {
      && (mode == COPY ==> reader.bits == 0)
      && (mode == CHECK || mode == DONE || Opening(mode) ==> reader.bits % 8 == 0)
    }

    /** No whole byte is held that could be done without. */
    ghost predicate Slim()
      requires reader.Valid() && start <= put <= out.Length && Ok(HeldState())
      reads this, reader, out
    {
      reader.bits < 8 || mode.BAD? || Step(setup, HeldState()) == NeedInput
    }

    ghost predicate Past()
      reads this, win, win.window
    {
      && win.Shape()
      && (Live(mode) ==> win.Holds(history))
      && (Opening(mode) ==> history == [] && put == start)
      && (setup.zlib && !mode.BAD? && !Opening(mode) ==> check == Adler32.Check(1, history))
    }

    ghost predicate Valid()
      reads this, reader, win, win.window, out
    {
      && Shape() && reader.Valid() && Ok(Abs()) && Ok(HeldState())
      && |lcode| <= 288 && |dcode| <= 32 && Tables() && Aligned() && Slim() && Past()
    }

    /** inflateInit2_ and inflateReset. */
    constructor (setup0: Setup, ghost stream: seq<byte>)
      requires 128 <= setup0.enoughLens && 2 <= setup0.enoughDists
      ensures Valid() && setup == setup0 && Abs() == Opened(stream) && history == []
      ensures start == put && reader.future == stream && reader.input == []
      ensures fresh(win) && fresh(win.window) && fresh(reader) && fresh(work) && fresh(codes) && fresh(out)
    {
      hide Finish, TableFor, StaticLit, FixedDist, Adler32.Check, Ok, Step, BytesBits, Join, Pow2, Keeps, ValidLens,
        KraftBelow, Kraft, MaxCodes, Proper, NoSymbols;
      setup := setup0;
      mode, last := HEAD, false;
      length, offset, extra, nlen, ndist, ncode, have := 0, 0, 0, 0, 0, 0, 0;
      lens := seq(LENS_SIZE, _ => 0);
      var scratch := new nat[WORK_SIZE];
      work := scratch;
      codes := new Entry[setup0.enoughLens + setup0.enoughDists];
      lencode, distcode, lenbits, distbits := [], [], 0, 0;
      lcode, dcode := [], [];
      var tables := BuildFixed(scratch);
      fixed := tables;
      win := new Window();
      reader := new BitReader();
      check := 1;
      out := new byte[0];
      put, start := 0, 0;
      history := [];
      new;
      reader.Await(stream);
      CheckNone();
      OpenedOk(stream);
      Empty();
      JoinNone(BytesBits(stream));
      assert reader.input[reader.next..] + reader.future == stream;
      assert reader.Rest() == Join(NoBits, BytesBits(stream));
      assert Abs() == Opened(stream);
      HeldOk();
    }

    lemma HeldOk()
      requires reader.Valid() && start <= put <= out.Length && Ok(Abs())
      ensures Ok(HeldState())
    {
      hide GoodCode;
    }

    /** Why a call may end: no input that helps, no room, or nothing left to do. */
    ghost predicate Waiting()
      requires reader.Valid() && start <= put <= out.Length && Ok(Abs()) && Ok(HeldState())
      reads this, reader, out
    {
      || (reader.next == |reader.input| && Step(setup, HeldState()) == NeedInput)
      || (put == out.Length && (mode == LIT || mode == MATCH || (mode == COPY && length > 0)))
      || Step(setup, Abs()) == Stopped
    }
  }

  lemma CheckNone()
    ensures Adler32.Check(1, []) == 1
  {
    hide Low, Shr, Or, Shl;
    Adler32.FeedNone(Adler32.Unpack(1));
    Adler32.UnpackPack(1);
  }

  // ------------------------------------------------------------------ fixed codes

  /** lenfix and distfix. */
  datatype FixedTables = FixedTables(lenfix: seq<Entry>, distfix: seq<Entry>) {
    ghost predicate Right() {
      TableFor(LENS, StaticLit(), lenfix, 9) && TableFor(DISTS, FixedDist(), distfix, 5)
    }
  }

  lemma FixedRoots(root: nat)
    ensures RootFor(StaticLit(), 9, root) ==> root == 9
    ensures RootFor(FixedDist(), 5, root) ==> root == 5
  {
    hide CountBelow;
    assert StaticLit()[144] == 9 && FixedDist()[0] == 5;
  }

  lemma FixedSizes()
    ensures TableSize(StaticLit(), 9, Pow2(9)) == 512 && TableSize(FixedDist(), 5, Pow2(5)) == 32
    ensures Acceptable(LENS, StaticLit()) && Acceptable(DISTS, FixedDist())
  {
    hide StaticDist;
    FixedGood();
    AllInRoot(StaticLit(), 9);
    AllInRoot(FixedDist(), 5);
    Pow2Byte();
    assert Pow2(9) == 2 * Pow2(8) && Pow2(5) == 32;
  }

  /** `fixedtables` as it builds the tables that inffixed.h holds ready (zlib/inflate.c:281-322). */
  method BuildFixed(work: array<nat>) returns (tables: FixedTables)
    requires work.Length >= WORK_SIZE
    modifies work
    ensures tables.Right()
  {
    hide StaticLit, FixedDist, TableFor, TableSize, Acceptable, RootFor, ValidLens;
    var fixed := new Entry[544];
    FixedGood();
    FixedSizes();
    var rc, used, root := Build(LENS, StaticLit(), fixed, 0, 9, work, 512);
    FixedRoots(root);
    ghost var before := fixed[..][..512];
    FixedUsed(root);
    var lenfix := fixed[0..][..used];
    rc, used, root := Build(DISTS, FixedDist(), fixed, 512, 5, work, 32);
    FixedRoots(root);
    FixedUsed(root);
    tables := FixedTables(lenfix, fixed[512..][..used]);
    assert fixed[0..][..512] == lenfix;
  }

  lemma FixedUsed(root: nat)
    ensures !NoSymbols(StaticLit()) && !NoSymbols(FixedDist())
  {
    assert StaticLit()[0] == 8 && FixedDist()[0] == 5;
  }
}
