/**
 `inflate` as a whole (zlib/inflate.c:625-1302, without flushing modes, gzip and preset
 dictionaries): a call takes steps until it lacks input, room or anything to do.  However
 a stream is cut into calls, the calls together end as one run over all its bits does.
 */
module Inflate {
  import opened BitOps
  import opened InflateSpec
  import opened InflateRuns
  import opened InflateWindow
  import opened BitReader
  import opened InflateState
  import opened InflateStep
  import opened InflateHeader
  import opened InflateTrees
  import opened InflateSymbols
  import opened InflateFast
  import opened DecodeTable
  import BitStream
  import CodeLookup
  import InflateTable
  import Adler32
  import StreamFormat
  import StreamAccepted
  import StreamDecoding

  /** LEN: the fast loop when there is enough of everything (zlib/inflate.c:1064-1072). */
  method DoLenOrFast(z: Inflater) returns (leave: bool)
    requires z.Valid() && z.mode == LEN
    modifies z`mode, z`length, z`extra, z`put, z.out, z.reader`hold, z.reader`bits, z.reader`next
    ensures z.Valid() && Leads(z.setup, old(z.Abs()), z.Abs())
    ensures if leave then z.Waiting() else Below(z.Abs(), old(z.Abs()))
  {
    hide Inflater.Valid, Inflater.Abs, Inflater.Waiting, Inflater.Shape, Inflater.Past, Inflater.Tables, Ok, Step,
      Leads, Below;
    Begun(z);
    if |z.reader.input| - z.reader.next >= 6 && z.out.Length - z.put >= 258 {
      DecodeFast(z);
      leave := false;
    } else {
      leave := DoLen(z);
    }
  }

  /** The switch over the modes. */
  method OneMode(z: Inflater) returns (leave: bool)
    requires z.Valid()
    modifies z`mode, z`last, z`length, z`offset, z`extra, z`nlen, z`ndist, z`ncode, z`have, z`lens, z`lencode,
        z`lenbits,
      z`distcode, z`distbits, z`lcode, z`dcode, z`check, z`put, z`start, z`history, z.out, z.codes, z.work,
      z.reader`hold, z.reader`bits, z.reader`next
    ensures z.Valid() && Leads(z.setup, old(z.Abs()), z.Abs())
    ensures if leave then z.Waiting() else Below(z.Abs(), old(z.Abs()))
    ensures old(z.mode) == CHECK || !Live(old(z.mode))
      ==> z.Produced() == old(z.Produced()) && z.put == old(z.put) && z.out[..] == old(z.out[..])
    ensures old(z.mode) != CHECK || Live(z.mode) ==> z.history == old(z.history) && z.start == old(z.start)
    ensures Live(z.mode) ==> Live(old(z.mode))
  {
    hide Inflater.Valid, Inflater.Abs, Inflater.Waiting, Inflater.Produced, Inflater.Shape, Inflater.Past,
      Inflater.Tables, Ok, Step, Leads, Below;
    Begun(z);
    match z.mode {
      case HEAD => leave := DoHead(z);
      case DICTID => leave := DoDictId(z);
      case TYPE => leave := DoType(z);
      case STORED => leave := DoStored(z);
      case COPY => leave := DoCopy(z);
      case TABLE => leave := DoTable(z);
      case LENLENS => leave := DoLenLens(z);
      case CODELENS => leave := DoCodeLens(z);
      case LEN => leave := DoLenOrFast(z);
      case LENEXT => leave := DoLenExt(z);
      case DIST => leave := DoDist(z);
      case DISTEXT => leave := DoDistExt(z);
      case MATCH => leave := DoMatch(z);
      case LIT => leave := DoLit(z);
      case CHECK => leave := DoCheck(z);
      case DICT => leave := true; Ended(z);
      case DONE => leave := true; Ended(z);
      case BAD(_) => leave := true; Ended(z);
    }
  }

  /** In order, and with a reason to stop. */
  ghost predicate Paused(z: Inflater)
    reads z, z.reader, z.win, z.win.window, z.out
  {
    z.Valid() && z.Waiting()
  }

  lemma Ended(z: Inflater)
    requires z.Valid() && (z.mode == DICT || z.mode == DONE || z.mode.BAD?)
    ensures z.Waiting()
  {
    hide Ok, StepHead, StepType, StepDictId, StepStored, StepCopy, StepTable, StepLenLens, StepCodeLens, StepLen,
      StepDist, StepLenExt, StepDistExt, StepMatch, StepLit, StepCheck;
  }

  /** The loop of one call. */
  method RunModes(z: Inflater)
    requires z.Valid() && z.start == 0
    modifies z`mode, z`last, z`length, z`offset, z`extra, z`nlen, z`ndist, z`ncode, z`have, z`lens, z`lencode,
        z`lenbits,
      z`distcode, z`distbits, z`lcode, z`dcode, z`check, z`put, z`start, z`history, z.out, z.codes, z.work,
      z.reader`hold, z.reader`bits, z.reader`next
    ensures z.Valid() && z.Waiting() && Leads(z.setup, old(z.Abs()), z.Abs())
    ensures z.put <= z.out.Length && z.Produced() == old(z.history) + z.out[..z.put]
  {
    hide Inflater.Valid, Inflater.Waiting, Inflater.Shape, Inflater.Past, Inflater.Tables, BitReader.Rest, Ok, Step,
      Leads, Below;
    Begun(z);
    ghost var a := z.Abs();
    StartZero(z);
    var leave := false;
    while !leave
      invariant z.Valid() && z.reader.next <= |z.reader.input| && z.start <= z.put <= z.out.Length
      invariant Leads(z.setup, a, z.Abs()) && (leave ==> Paused(z))
      invariant z.Produced() == old(z.history) + z.out[..z.put]
      invariant Live(z.mode) ==> z.start == 0 && z.history == old(z.history)
      decreases !leave, z.Abs().rest.n, Rank(z.mode), Size(z.Abs())
    {
      ghost var b := z.Abs();
      leave := OneMode(z);
      Begun(z);
      StartZero(z);
      LeadsOn(z.setup, a, b, z.Abs());
      BelowMeans(b, z.Abs());
    }
  }

  lemma StartZero(z: Inflater)
    requires z.start <= z.put <= z.out.Length
    ensures z.start == 0 ==> z.Produced() == z.history + z.out[..z.put]
  {
    if z.start == 0 { assert z.out[0..z.put] == z.out[..z.put]; }
  }

  lemma BelowMeans(s: State, s': State)
    ensures Below(s', s)
      ==> s'.rest.n < s.rest.n
          || (s'.rest.n == s.rest.n
              && (Rank(s'.mode) < Rank(s.mode) || (Rank(s'.mode) == Rank(s.mode) && Size(s') < Size(s))))
  {
  }

  // -------------------------------------------------------------------- one call

  /** The window takes the output of the call (zlib/inflate.c:1280-1287). */
  method UpdateWindow(z: Inflater)
    requires z.Shape() && z.win.Shape() && (Live(z.mode) ==> z.win.Holds(z.history))
    modifies z.win, z.win.window
    ensures z.win.Shape() && (Live(z.mode) ==> z.win.Holds(z.Produced()))
    ensures z.Produced() == old(z.Produced())
  {
    hide FixedTables.Right, Keeps, Window.Shape, Window.Holds;
    if z.win.wsize != 0 || (z.put != z.start && !z.mode.BAD?) {
      z.win.Update(z.out, z.put, z.put - z.start, z.history);
      assert z.out[..][z.put - (z.put - z.start)..z.put] == z.out[z.start..z.put];
    } else if Live(z.mode) {
      NoneYet(z.win, z.history);
      assert z.out[z.start..z.put] == [];
      assert z.history + [] == z.history;
    }
  }

  lemma NoneYet(win: Window, h: seq<byte>)
    requires win.Holds(h) && win.wsize == 0
    ensures h == []
  {
  }

  /** A state in order stays so where only its place in the buffers changes. */
  twostate lemma StillValid(z: Inflater)
    requires old(z.Valid()) && old(z.start <= z.put <= z.out.Length && z.reader.next <= |z.reader.input|)
    requires z.Shape() && z.Past() && z.reader.Valid() && z.start <= z.put <= z.out.Length
    requires z.Abs() == old(z.Abs()) && z.HeldState() == old(z.HeldState()) && z.reader.bits == old(z.reader.bits)
    requires unchanged(z`lencode, z`lenbits, z`distcode, z`distbits)
    ensures z.Valid()
  {
    hide Step, Ok, Inflater.Shape, Inflater.Past, Inflater.Produced, BitReader.Rest, TableFor, InBlock, Pow2;
  }

  /** What the call's end changes does not matter between calls. */
  twostate lemma StillPaused(z: Inflater)
    requires old(Paused(z)) && z.Shape() && z.Past() && unchanged(z.reader) && z.Abs() == old(z.Abs())
    requires unchanged(z`lencode, z`lenbits, z`distcode, z`distbits, z`put, z`out)
      && old(z.start <= z.put <= z.out.Length)
    ensures Paused(z)
  {
    hide Step, Ok, Inflater.Shape, Inflater.Past, Inflater.Produced, BitReader.Rest, TableFor, InBlock, Pow2;
    Bounds(z);
    assert z.HeldState() == old(z.HeldState());
  }

  /** inf_leave. */
  method LeaveCall(z: Inflater)
    requires Paused(z)
    modifies z`check, z`history, z`start, z.win, z.win.window
    ensures Paused(z) && z.start == z.put && z.Abs() == old(z.Abs())
  {
    hide Paused, Step, Ok, Inflater.Produced, BitReader.Rest, Keeps, TableFor, FixedTables.Right, Adler32.Check,
      Window.Shape, Window.Holds, Pow2, InBlock;
    PausedFacts(z);
    ghost var a := z.Abs();
    UpdateWindow(z);
    if z.setup.zlib && z.put != z.start && !z.mode.BAD? {
      UpdateCheck(z);
    } else {
      Advance(z);
    }
    assert z.Abs() == a;
    StillPaused(z);
  }

  lemma PausedFacts(z: Inflater)
    requires Paused(z)
    ensures z.Shape() && z.Past() && z.reader.next <= |z.reader.input| && z.start <= z.put <= z.out.Length
  {
    hide Inflater.Past, Inflater.Tables, Ok, Step;
  }

  /** The call's output counts as history. */
  method Advance(z: Inflater)
    requires z.start <= z.put <= z.out.Length
    modifies z`history, z`start
    ensures z.start == z.put && z.history == old(z.Produced()) == z.Produced()
    ensures old(z.put == z.start) ==> z.history == old(z.history)
  {
    ghost var added := z.out[z.start..z.put];
    assert z.put == z.start ==> z.history + added == z.history;
    z.history := z.history + added;
    z.start := z.put;
    assert z.history + z.out[z.start..z.put] == z.history;
  }

  datatype Code = OK | STREAM_END | NEED_DICT | DATA_ERROR | BUF_ERROR

  /** Between calls. */
  ghost predicate Idle(z: Inflater)
    reads z, z.reader, z.win, z.win.window, z.out
  {
    z.Valid() && z.start == z.put && z.reader.input == [] && z.reader.next == 0
  }

  /** next_in, avail_in, next_out and avail_out. */
  method SetBuffers(z: Inflater, data: seq<byte>, buf: array<byte>, ghost later: seq<byte>)
    requires Idle(z) && z.reader.future == data + later && buf != z.win.window
    modifies z`out, z`put, z`start, z.reader`input, z.reader`future
    ensures z.Valid() && z.Abs() == old(z.Abs()) && z.out == buf && z.put == z.start == 0
    ensures z.reader.input == data && z.reader.next == 0 && z.reader.future == later
    ensures z.history == old(z.Produced())
  {
    hide Inflater.Valid, Inflater.Tables, Step, Ok, BitReader.Rest, Keeps, TableFor, FixedTables.Right, Adler32.Check,
      Pow2, Window.Shape, Window.Holds;
    Begun(z);
    ghost var a, h := z.Abs(), z.HeldState();
    assert z.history + z.out[z.start..z.put] == z.history;
    z.reader.Provide(data, later);
    z.out := buf;
    z.put := 0;
    z.start := 0;
    assert z.history + z.out[z.start..z.put] == z.history;
    assert z.Abs() == a && z.HeldState() == h;
    StillValid(z);
  }

  method GiveBackBuffers(z: Inflater)
    requires Paused(z) && z.start == z.put
    modifies z.reader`input, z.reader`next, z.reader`future
    ensures Idle(z) && z.Abs() == old(z.Abs()) && z.HeldState() == old(z.HeldState())
    ensures z.reader.future == old(z.reader.input[z.reader.next..]) + old(z.reader.future)
  {
    hide Step, Ok, BitReader.Rest, Keeps, TableFor, FixedTables.Right, Adler32.Check, Inflater.Produced;
    ghost var a, h := z.Abs(), z.HeldState();
    z.reader.HandBack();
    assert z.Abs() == a && z.HeldState() == h;
  }

  /** The next step puts out a byte. */
  ghost predicate OutOfRoom(s: State) {
    s.mode == LIT || s.mode == MATCH || (s.mode == COPY && s.length > 0)
  }

  /** Why a call cannot go on: no room, or nothing more in this call's input. */
  lemma StuckFor(z: Inflater)
    requires Paused(z)
    ensures Step(z.setup, z.Abs()).Next? ==>
      (z.put == z.out.Length && OutOfRoom(z.Abs())) || (z.reader.next == |z.reader.input| && z.reader.future != [])
    ensures !Step(z.setup, z.Abs()).Next?
      ==> z.reader.next == |z.reader.input| || z.mode == DICT || z.mode == DONE || z.mode.BAD?
    ensures z.reader.next < |z.reader.input|
      ==> z.put == z.out.Length || z.mode == DICT || z.mode == DONE || z.mode.BAD?
  {
    hide Step, Ok, Keeps, TableFor, FixedTables.Right, Inflater.Produced, BitReader.Rest, Inflater.Past;
    z.reader.RestFacts();
    AtEnd(z);
    RoomSteps(z.setup, z.Abs());
    OnlyEndsStop(z.setup, z.Abs());
  }

  /** What waits for room would go on, unless a stored block lacks its next byte. */
  lemma RoomSteps(c: Setup, s: State)
    requires Ok(s)
    ensures s.mode == LIT || s.mode == MATCH ==> Step(c, s).Next?
    ensures s.mode == COPY && s.length > 0 && !Step(c, s).Next? ==> s.rest.n < 8
  {
    hide Step, CodeLookup.GoodCode;
    if s.mode == LIT { AtLit(c, s); }
    if s.mode == MATCH { AtMatch(c, s); }
    if s.mode == COPY { AtCopy(c, s); }
  }

  lemma OnlyEndsStop(c: Setup, s: State)
    requires Ok(s)
    ensures Step(c, s) == Stopped <==> s.mode == DICT || s.mode == DONE || s.mode.BAD?
  {
    hide Ok;
  }

  /** What the caller is told. */
  function CodeFor(m: Mode, used: nat, made: nat): Code {
    match m
    case DICT => NEED_DICT
    case DONE => STREAM_END
    case BAD(_) => DATA_ERROR
    case _ => if used == 0 && made == 0 then BUF_ERROR else OK
  }

  predicate Final(code: Code) {
    code == STREAM_END || code == DATA_ERROR || code == NEED_DICT
  }

  /** One call of inflate. */
  method Call(z: Inflater, data: seq<byte>, buf: array<byte>, ghost later: seq<byte>)
    returns (code: Code, used: nat, made: nat)
    requires Idle(z) && z.reader.future == data + later && buf != z.win.window
    modifies z, z.reader, z.win, z.win.window, z.codes, z.work, buf
    ensures Idle(z) && Leads(z.setup, old(z.Abs()), z.Abs())
    ensures used <= |data| && made <= buf.Length && z.reader.future == data[used..] + later
    ensures z.Produced() == old(z.Produced()) + buf[..made]
    ensures code == CodeFor(z.mode, used, made)
    ensures Step(z.setup, z.Abs()).Next?
      ==> (made == buf.Length && OutOfRoom(z.Abs())) || (used == |data| && later != [])
    ensures !Step(z.setup, z.Abs()).Next? ==> used == |data| || Final(code)
    ensures used < |data| ==> made == buf.Length || Final(code)
    ensures forall bytes ::
      Leads(z.setup, Opened(bytes), old(z.Abs())) ==> CallJudged(z.setup, bytes, code, |z.reader.future|, z.Produced())
  {
    hide Inflater.Valid, Inflater.Waiting, Inflater.Produced, Inflater.Shape, Inflater.Past, Inflater.Tables,
      BitReader.Rest, Ok, Step, Leads, Below, Paused, CallJudged, Opened;
    IdleIs(z);
    ghost var a := z.Abs();
    SetBuffers(z, data, buf, later);
    RunModes(z);
    PausedIs(z);
    LeaveCall(z);
    PausedIs(z);
    StuckFor(z);
    used, made := z.reader.next, z.put;
    code := CodeFor(z.mode, used, made);
    GiveBackBuffers(z);
    forall bytes | Leads(z.setup, Opened(bytes), a)
      ensures CallJudged(z.setup, bytes, code, |z.reader.future|, z.Produced())
    {
      LeadsOn(z.setup, Opened(bytes), a, z.Abs());
      CallEnds(z, bytes, code);
    }
  }

  /** The last of the calls for these bytes, with so many of them left, says rightly if they are a stream. */
  ghost predicate CallJudged(c: Setup, bytes: seq<byte>, code: Code, left: nat, text: seq<byte>) {
    && (code == STREAM_END ==> left <= |bytes| && StreamFormat.IsStream(c, bytes[..|bytes| - left], text))
    && (code == DATA_ERROR || code == NEED_DICT ==>
        forall n, t :: 0 <= n <= |bytes| ==> !StreamFormat.IsStream(c, bytes[..n], t))
  }

  lemma CallEnds(z: Inflater, bytes: seq<byte>, code: Code)
    requires Idle(z) && Leads(z.setup, Opened(bytes), z.Abs())
    requires (code == STREAM_END ==> z.mode == DONE) && (code == DATA_ERROR ==> z.mode.BAD?)
      && (code == NEED_DICT ==> z.mode == DICT)
    ensures CallJudged(z.setup, bytes, code, |z.reader.future|, z.Produced())
  {
    hide Inflater.Valid, Inflater.Waiting, Inflater.Shape, Inflater.Past, Inflater.Tables, BitReader.Rest, Ok, Step,
      Leads, Below, Ending, Opened, Idle, Inflater.Produced, StreamFormat.IsStream;
    IdleIs(z);
    AtEnd(z);
    LeadsOk(z.setup, Opened(bytes), z.Abs());
    EndOf(z.setup, Opened(bytes), z.Abs());
    Judged(z.setup, bytes);
  }

  lemma PausedIs(z: Inflater)
    ensures Paused(z) <==> z.Valid() && z.Waiting()
    ensures Paused(z) ==> z.reader.next <= |z.reader.input| && z.start <= z.put <= z.out.Length && z.reader.Valid()
  {
    hide Ok, Step, TableFor, Keeps;
  }

  // ----------------------------------------------------------- any cutting into calls

  lemma EndOf(c: Setup, a: State, b: State)
    requires Leads(c, a, b)
    ensures b.out <= Ending(c, a).out
    ensures !Step(c, b).Next? ==> Ending(c, a) == Verdict(b.mode, b.out, b.rest)
  {
    hide Step, Ok;
    FinishGrows(c, b);
    if !Step(c, b).Next? { FinishEnd(c, b); }
  }

  /** An end is an end: nothing is left to do, and no bits are held after a whole stream. */
  lemma AtEnd(z: Inflater)
    requires z.Valid()
    ensures z.mode == DONE || z.mode == DICT || z.mode.BAD? ==> Step(z.setup, z.Abs()) == Stopped
    ensures z.mode == DONE ==> z.reader.bits == 0
    ensures z.reader.Rest().n == z.reader.bits + 8 * (|z.reader.input| - z.reader.next + |z.reader.future|)
  {
    hide Ok, StepHead, StepType, StepDictId, StepStored, StepCopy, StepTable, StepLenLens, StepCodeLens, StepLen,
      StepDist, StepLenExt, StepDistExt, StepMatch, StepLit, StepCheck, TableFor, Keeps;
  }

  /** Waiting for room, with more to come: the end has more output, or turns out to be a match too far back. */
  lemma RoomWasted(c: Setup, s: State)
    requires Ok(s) && OutOfRoom(s) && Step(c, s).Next?
    ensures |Ending(c, s).out| > |s.out| || Ending(c, s).mode == BAD(TooFarBack)
  {
    hide Ok, Step, Leads, Finish, Below, Ending;
    var s' := Step(c, s).s;
    RoomStep(c, s);
    LeadsStep(c, s, s');
    LeadsOk(c, s, s');
    OnlyEndsStop(c, s');
    EndOf(c, s, s');
  }

  lemma RoomStep(c: Setup, s: State)
    requires Ok(s) && OutOfRoom(s) && Step(c, s).Next?
    ensures var s' := Step(c, s).s; |s'.out| > |s.out| || s'.mode == BAD(TooFarBack)
  {
    hide Step, CodeLookup.GoodCode;
    if s.mode == LIT { AtLit(c, s); }
    if s.mode == MATCH { AtMatch(c, s); }
    if s.mode == COPY { AtCopy(c, s); }
  }

  /** The last call offers all that is left, and has room for everything; to be told of a bad match takes a byte more.
      */
  ghost predicate Enough(takes: seq<nat>, rooms: seq<nat>, stream: seq<byte>, e: Verdict) {
    && |takes| == |rooms| > 0 && takes[|takes| - 1] >= |stream|
    && (rooms[|rooms| - 1] > |e.out| || (rooms[|rooms| - 1] == |e.out| && e.mode != BAD(TooFarBack)))
  }

  /** Every call offers something and has some room, and there are enough calls. */
  ghost predicate Steady(takes: seq<nat>, rooms: seq<nat>, stream: seq<byte>, e: Verdict) {
    |takes| == |rooms| > |stream| + |e.out| && forall i :: 0 <= i < |takes| ==> takes[i] > 0 && rooms[i] > 0
  }

  /** One call on what is left of the stream from pos on. */
  method OnePiece(z: Inflater, stream: seq<byte>, pos: nat, take: nat, room: nat)
    returns (code: Code, end: nat, more: seq<byte>, starved: bool)
    requires Idle(z) && pos <= |stream| && z.reader.future == stream[pos..]
    modifies z, z.reader, z.win, z.win.window, z.codes, z.work
    ensures Idle(z) && Leads(z.setup, old(z.Abs()), z.Abs())
    ensures pos <= end <= |stream| && z.reader.future == stream[end..]
    ensures z.Produced() == old(z.Produced()) + more && |more| <= room
    ensures (code == STREAM_END <==> z.mode == DONE) && (code == DATA_ERROR <==> z.mode.BAD?)
      && (code == NEED_DICT <==> z.mode == DICT)
    ensures starved ==> !Step(z.setup, z.Abs()).Next? && !Final(code)
    ensures take > 0 && room > 0 ==> end + |more| > pos || Final(code) || starved
    ensures take >= |stream| && Step(z.setup, z.Abs()).Next? ==> OutOfRoom(z.Abs()) && |more| == room
  {
    hide Inflater.Valid, Inflater.Waiting, Inflater.Shape, Inflater.Past, Inflater.Tables, BitReader.Rest, Ok, Step,
      Leads, Below, Idle, OutOfRoom;
    var n: nat := if take < |stream| - pos then take else |stream| - pos;
    var data := stream[pos..pos + n];
    var buf := new byte[room];
    assert stream[pos..] == data + stream[pos + n..];
    var used, made;
    code, used, made := Call(z, data, buf, stream[pos + n..]);
    assert data[used..] + stream[pos + n..] == stream[pos + used..];
    end, more := pos + used, buf[..made];
    starved := pos + n == |stream| && used == n && made < room && !Final(code);
  }

  /**
   A stream cut into calls in any way: call i offers up to takes[i] bytes of what is left
   and room for rooms[i].  Whenever the calls come to an end, it is the end of the one run
   over all the bits: the same output, verdict and position, to the bit.  They do come to
   it if the last call offers enough, or if all of them offer something and they are many.
   A good end is told of exactly the streams of the format, right behind them.
   */
  method InflateInPieces(c: Setup, stream: seq<byte>, takes: seq<nat>, rooms: seq<nat>)
    returns (text: seq<byte>, code: Code, mode: Mode, pos: nat, held: nat, starved: bool)
    requires 128 <= c.enoughLens && 2 <= c.enoughDists && |takes| == |rooms|
    ensures Ok(Opened(stream)) && text <= Ending(c, Opened(stream)).out && pos <= |stream|
    ensures var e := Ending(c, Opened(stream));
      Final(code) || starved || Enough(takes, rooms, stream, e) || Steady(takes, rooms, stream, e) ==>
      text == e.out && mode == e.mode && 8 * pos - held == 8 * |stream| - e.rest.n
    ensures code == STREAM_END ==> held == 0
    ensures (code == STREAM_END <==> mode == DONE) && (code == DATA_ERROR <==> mode.BAD?)
      && (code == NEED_DICT <==> mode == DICT)
    ensures starved ==> !Final(code) && Ending(c, Opened(stream)).rest.n < 32
    ensures code == STREAM_END ==> StreamFormat.IsStream(c, stream[..pos], text)
    ensures code == DATA_ERROR || code == NEED_DICT ==>
      forall n, t :: 0 <= n <= |stream| ==> !StreamFormat.IsStream(c, stream[..n], t)
    ensures var e := Ending(c, Opened(stream));
      Final(code) || starved || Enough(takes, rooms, stream, e) || Steady(takes, rooms, stream, e) ==>
      forall n, t ::
        0 <= n <= |stream| && StreamFormat.IsStream(c, stream[..n], t) ==> code == STREAM_END && text == t && pos == n
  {
    hide Inflater.Valid, Inflater.Waiting, Inflater.Shape, Inflater.Past, Inflater.Tables, BitReader.Rest, Ok, Step,
      Leads, Below, Paused, StreamFormat.IsStream, Ending, Opened, Idle, OutOfRoom, Inflater.Produced, Pow2,
      BitReader.Held, Opening, Inflater.HeldState, Inflater.Aligned;
    var z := new Inflater(c, stream);
    Begun(z);
    LeadsOk(c, Opened(stream), z.Abs());
    text, code, pos, starved := [], OK, 0, false;
    NothingYet(z, stream);
    var i := 0;
    while i < |takes| && !Final(code) && !starved
      invariant Idle(z) && z.setup == c && z.reader.next <= |z.reader.input| && z.start <= z.put <= z.out.Length
      invariant fresh(z) && fresh(z.reader) && fresh(z.win) && fresh(z.win.window) && fresh(z.codes) && fresh(z.work)
      invariant i <= |takes| && pos <= |stream| && z.reader.future == stream[pos..]
      invariant Leads(c, Opened(stream), z.Abs()) && z.Produced() == text
      invariant (code == STREAM_END <==> z.mode == DONE) && (code == DATA_ERROR <==> z.mode.BAD?)
        && (code == NEED_DICT <==> z.mode == DICT)
      invariant Ok(z.Abs()) && (starved ==> !Step(c, z.Abs()).Next? && !Final(code))
      invariant (forall j :: 0 <= j < i ==> takes[j] > 0 && rooms[j] > 0)
        ==> pos + |text| >= i || Final(code) || starved
      invariant i > 0 && takes[i - 1] >= |stream| && Step(c, z.Abs()).Next?
        ==> OutOfRoom(z.Abs()) && |text| >= rooms[i - 1]
    {
      ghost var b := z.Abs();
      var more;
      code, pos, more, starved := OnePiece(z, stream, pos, takes[i], rooms[i]);
      text := text + more;
      IdleIs(z);
      LeadsOn(c, Opened(stream), b, z.Abs());
      i := i + 1;
    }
    mode, held := z.mode, z.reader.bits;
    AtLast(z, stream, pos, i == |takes| > 0 && takes[i - 1] >= |stream|, if i > 0 then rooms[i - 1] else 0);
    Judged(c, stream);
  }

  lemma FoundBits(t: CodeType, lens: seq<nat>, v: nat)
    requires CodeLookup.GoodCode(t, lens)
    ensures CodeLookup.CodeFound(t, lens, v).bits <= 15
  {
    hide InflateTable.Acceptable;
  }

  lemma CodesOk(s: State)
    requires Ok(s)
    ensures s.mode == CODELENS ==> CodeLookup.GoodCode(CODES, s.lcode)
    ensures InBlock(s.mode) ==> CodeLookup.GoodCode(LENS, s.lcode) && CodeLookup.GoodCode(DISTS, s.dcode)
    ensures s.mode == LENEXT || s.mode == DISTEXT ==> s.extra < 16
  {
    hide CodeLookup.GoodCode;
  }

  /** Nothing waits that has 32 bits before it. */
  lemma WaitsShort(c: Setup, s: State)
    requires Ok(s) && Step(c, s) == NeedInput
    ensures s.rest.n < 32
  {
    hide Ok, Step, CodeLookup.GoodCode, CodeLookup.CodeFound;
    CodesOk(s);
    match s.mode
    case HEAD => HeadHeld(c, s);
    case DICTID => DictIdHeld(c, s);
    case TYPE => TypeHeld(c, s);
    case STORED => StoredHeld(c, s);
    case COPY => CopyHeld(c, s);
    case TABLE => TableHeld(c, s);
    case LENLENS => LenLensHeld(c, s);
    case CODELENS =>
      LengthHeld(c, s);
      FoundBits(CODES, s.lcode, s.rest.v);
    case LEN =>
      LenHeld(c, s);
      FoundBits(LENS, s.lcode, s.rest.v);
    case DIST =>
      DistHeld(c, s);
      FoundBits(DISTS, s.dcode, s.rest.v);
    case LENEXT => ExtHeld(c, s);
    case DISTEXT => ExtHeld(c, s);
    case MATCH => MatchStep(c, s);
    case LIT => LitStep(c, s);
    case CHECK => CheckHeld(c, s);
    case DICT => OnlyEndsStop(c, s);
    case DONE => OnlyEndsStop(c, s);
    case BAD(_) => OnlyEndsStop(c, s);
  }

  /** What the end of a run says of the bytes. */
  lemma Judged(c: Setup, stream: seq<byte>)
    ensures Ok(Opened(stream))
    ensures forall n, t ::
      0 <= n <= |stream| && StreamFormat.IsStream(c, stream[..n], t) ==>
      Ending(c, Opened(stream)) == Verdict(DONE, t, BitStream.Bits(Load(stream[n..]), 8 * (|stream| - n)))
    ensures var e := Ending(c, Opened(stream));
      e.mode == DONE ==>
        && e.rest.n % 8 == 0 && e.rest.n <= 8 * |stream|
        && StreamFormat.IsStream(c, stream[..|stream| - e.rest.n / 8], e.out)
  {
    hide Ok, Ending, StreamFormat.IsStream, Load, Opened;
    OpenedOk(stream);
    forall n, t | 0 <= n <= |stream| && StreamFormat.IsStream(c, stream[..n], t)
      ensures Ending(c, Opened(stream)) == Verdict(DONE, t, BitStream.Bits(Load(stream[n..]), 8 * (|stream| - n)))
    {
      StreamDecoding.ExactlyStreams(c, stream, n, t);
    }
    if Ending(c, Opened(stream)).mode == DONE {
      var n := StreamAccepted.OnlyStreams(c, stream);
    }
  }

  /** Where the calls have stopped. */
  lemma AtLast(z: Inflater, stream: seq<byte>, pos: nat, all: bool, room: nat)
    requires Idle(z) && pos <= |stream| && z.reader.future == stream[pos..]
    requires z.reader.next <= |z.reader.input| && z.start <= z.put <= z.out.Length && Ok(Opened(stream)) && Ok(z.Abs())
    requires Leads(z.setup, Opened(stream), z.Abs())
    requires all && Step(z.setup, z.Abs()).Next? ==> OutOfRoom(z.Abs()) && |z.Produced()| >= room
    ensures z.Produced() <= Ending(z.setup, Opened(stream)).out
    ensures var e := Ending(z.setup, Opened(stream));
      !Step(z.setup, z.Abs()).Next? || (all && (room > |e.out| || (room == |e.out| && e.mode != BAD(TooFarBack)))) ==>
      z.Produced() == e.out && z.mode == e.mode && 8 * pos - z.reader.bits == 8 * |stream| - e.rest.n
    ensures z.mode == DONE || z.mode == DICT || z.mode.BAD? ==> !Step(z.setup, z.Abs()).Next?
    ensures z.mode == DONE ==> z.reader.bits == 0
    ensures !Step(z.setup, z.Abs()).Next? && !(z.mode == DONE || z.mode == DICT || z.mode.BAD?) ==>
      Ending(z.setup, Opened(stream)).rest.n < 32
  {
    hide Inflater.Valid, Inflater.Waiting, Inflater.Shape, Inflater.Past, Inflater.Tables, BitReader.Rest, Ok, Step,
      Leads, Below, Ending, Opened, Idle, OutOfRoom, Inflater.Produced;
    IdleIs(z);
    AtEnd(z);
    OnlyEndsStop(z.setup, z.Abs());
    if Step(z.setup, z.Abs()) == NeedInput { WaitsShort(z.setup, z.Abs()); }
    EndOf(z.setup, Opened(stream), z.Abs());
    LeadsOk(z.setup, Opened(stream), z.Abs());
    if OutOfRoom(z.Abs()) && Step(z.setup, z.Abs()).Next? { RoomWasted(z.setup, z.Abs()); }
  }

  lemma IdleIs(z: Inflater)
    requires Idle(z)
    ensures z.Valid() && z.reader.next == |z.reader.input| == 0 && z.start <= z.put <= z.out.Length && Ok(z.Abs())
  {
    hide Ok, Step, TableFor, Keeps;
  }

  lemma NothingYet(z: Inflater, stream: seq<byte>)
    requires z.Valid() && z.Abs() == Opened(stream) && z.start == z.put && z.reader.input == []
    ensures z.mode == HEAD && z.Produced() == [] && Idle(z)
  {
    hide Ok, Step, TableFor, Keeps;
  }
}
