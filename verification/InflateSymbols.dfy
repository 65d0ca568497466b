/**
 inflate's modes for the symbols of a block (zlib/inflate.c:1064-1220): codes, extra
 bits, and the copying of matches, which may stop where the output does.
 */
module InflateSymbols {
  import opened BitOps
  import opened DecodeTable
  import opened BitStream
  import opened CodeLookup
  import opened Lz77
  import opened InflateSpec
  import opened InflateRuns
  import opened InflateWindow
  import opened MatchCopy
  import opened BitReader
  import opened InflateState
  import opened InflateStep
  import opened InflateTable
  import BlockCodes

  // -------------------------------------------------------------------------- LEN

  lemma LenHeld(c: Setup, s: State)
    requires Ok(s) && s.mode == LEN
    ensures Step(c, s) == NeedInput <==> CodeFound(LENS, s.lcode, s.rest.v).bits > s.rest.n
  {
    hide CodeFound, Acceptable, Shr;
    AtLen(c, s);
  }

  lemma BlockOk(s: State)
    requires Ok(s) && InBlock(s.mode)
    ensures GoodCode(LENS, s.lcode) && GoodCode(DISTS, s.dcode)
  {
    hide Acceptable;
  }

  /** What follows a literal or length code. */
  function AfterLen(op: nat): Mode {
    if op == 0 then LIT else if BlockCodes.Flag(op, 32) then TYPE else if BlockCodes.Flag(op, 64) then BAD(LiteralCode)
        else LENEXT
  }

  lemma LenStep(c: Setup, s: State, f: Found)
    requires Ok(s) && s.mode == LEN && f == CodeFound(LENS, s.lcode, s.rest.v) && f.bits <= s.rest.n
    ensures var s' := Take(s, f.bits).(length := f.val, mode := AfterLen(f.op));
      Step(c, s) == Next(if AfterLen(f.op) == LENEXT then s'.(extra := f.op % 16) else s')
  {
    hide CodeFound, Acceptable, Shr;
    AtLen(c, s);
  }

  method DoLen(z: Inflater) returns (leave: bool)
    requires z.Valid() && z.mode == LEN
    modifies z`mode, z`length, z`extra, z.reader`hold, z.reader`bits, z.reader`next
    ensures z.Valid() && Leads(z.setup, old(z.Abs()), z.Abs())
    ensures if leave then z.Waiting() else Below(z.Abs(), old(z.Abs()))
  {
    hide Step, Inflater.Valid, Inflater.Shape, Inflater.Past, Inflater.Waiting, Inflater.Produced,
      BitReader.Rest, Ok, Leads, Below, Finish, Pow2, Shr, GoodCode, CodeFound, TableFor;
    Begun(z);
    ghost var a := z.Abs();
    BlockOk(a);
    LenHeld(z.setup, z.HeldState());
    var ok, here := z.reader.FindCode(z.lencode, z.lenbits, LENS, z.lcode);
    if !ok {
      if Ok(z.HeldState()) { LenHeld(z.setup, z.HeldState()); }
      Starved(z);
      return true;
    }
    Carried(z);
    LenStep(z.setup, a, here);
    UseLen(z, here, a);
    leave := false;
  }

  method UseLen(z: Inflater, here: Found, ghost a: State)
    requires z.Shape() && z.Past() && |z.lcode| <= 288 && |z.dcode| <= 32 && z.Tables() && z.reader.Valid()
    requires z.reader.bits < 8 && z.mode == LEN && Ok(a)
    requires var b := z.Abs().(length := here.val, mode := AfterLen(here.op));
      Step(z.setup, a) == Next(if AfterLen(here.op) == LENEXT then b.(extra := here.op % 16) else b)
    modifies z`mode, z`length, z`extra
    ensures z.Valid() && Leads(z.setup, a, z.Abs()) && Below(z.Abs(), a)
  {
    hide Step, Inflater.Shape, Inflater.Past, Inflater.Tables, Inflater.Produced, BitReader.Rest, Ok, Leads, Below,
      Finish, Pow2, BlockCodes.Flag;
    Bounds(z);
    z.length := here.val;
    if here.op == 0 {
      Carried(z);
      Move(z, LIT, a);
    } else if BlockCodes.Flag(here.op, 32) {
      Carried(z);
      Move(z, TYPE, a);
    } else if BlockCodes.Flag(here.op, 64) {
      Carried(z);
      Move(z, BAD(LiteralCode), a);
    } else {
      z.extra := here.op % 16;
      Carried(z);
      Move(z, LENEXT, a);
    }
  }

  // ------------------------------------------------------------------- extra bits

  lemma ExtHeld(c: Setup, s: State)
    requires Ok(s) && (s.mode == LENEXT || s.mode == DISTEXT)
    ensures Step(c, s) == NeedInput <==> s.extra > s.rest.n
    ensures s.extra <= s.rest.n && s.mode == LENEXT
      ==> Step(c, s) == Next(Take(s, s.extra).(length := s.length + Low(s.rest.v, s.extra), mode := DIST))
    ensures s.extra <= s.rest.n && s.mode == DISTEXT
      ==> Step(c, s) == Next(Take(s, s.extra).(offset := s.offset + Low(s.rest.v, s.extra), mode := MATCH))
  {
    hide Low, Shr, GoodCode;
    if s.mode == LENEXT { AtLenExt(c, s); } else { AtDistExt(c, s); }
  }

  /** The extra bits, if any. */
  method ReadExtra(r: BitReader, extra: nat) returns (ok: bool, v: nat)
    requires r.Valid() && extra < 16
    modifies r`hold, r`bits, r`next
    ensures r.Valid()
    ensures !ok ==> r.Rest() == old(r.Rest()) && r.next == |r.input| && extra > r.bits
    ensures ok ==> extra <= old(r.Rest()).n && v == Low(old(r.Rest()).v, extra)
    ensures ok ==> r.Rest() == Bits(Shr(old(r.Rest()).v, extra), old(r.Rest()).n - extra)
    ensures ok && (old(r.bits) < 8 || old(r.bits) < extra) ==> r.bits < 8
  {
    hide Low, Shr, Pow2, BitReader.Rest;
    v := 0;
    if extra != 0 {
      ok := r.NeedBits(extra);
      if ok {
        r.RestFacts();
        v := r.Peek(extra);
        r.DropBits(extra);
      }
    } else {
      NoneTaken(r.Rest());
      ok := true;
    }
  }

  lemma NoneTaken(b: Bits)
    ensures Low(b.v, 0) == 0 && Bits(Shr(b.v, 0), b.n - 0) == b
  {
  }

  method DoLenExt(z: Inflater) returns (leave: bool)
    requires z.Valid() && z.mode == LENEXT
    modifies z`mode, z`length, z.reader`hold, z.reader`bits, z.reader`next
    ensures z.Valid() && Leads(z.setup, old(z.Abs()), z.Abs())
    ensures if leave then z.Waiting() else Below(z.Abs(), old(z.Abs()))
  {
    hide Step, Inflater.Valid, Inflater.Shape, Inflater.Past, Inflater.Tables, Inflater.Waiting, Inflater.Produced,
      BitReader.Rest, Ok, Leads, Below, Finish, Pow2, Shr, Low;
    Begun(z);
    ghost var a := z.Abs();
    ExtHeld(z.setup, a);
    ExtHeld(z.setup, z.HeldState());
    ExtraSmall(a);
    var ok, v := ReadExtra(z.reader, z.extra);
    if !ok {
      if Ok(z.HeldState()) { ExtHeld(z.setup, z.HeldState()); }
      Starved(z);
      return true;
    }
    z.length := z.length + v;
    Carried(z);
    Move(z, DIST, a);
    leave := false;
  }

  lemma ExtraSmall(s: State)
    requires Ok(s) && (s.mode == LENEXT || s.mode == DISTEXT)
    ensures s.extra < 16
  {
    hide GoodCode;
  }

  method DoDistExt(z: Inflater) returns (leave: bool)
    requires z.Valid() && z.mode == DISTEXT
    modifies z`mode, z`offset, z.reader`hold, z.reader`bits, z.reader`next
    ensures z.Valid() && Leads(z.setup, old(z.Abs()), z.Abs())
    ensures if leave then z.Waiting() else Below(z.Abs(), old(z.Abs()))
  {
    hide Step, Inflater.Valid, Inflater.Shape, Inflater.Past, Inflater.Tables, Inflater.Waiting, Inflater.Produced,
      BitReader.Rest, Ok, Leads, Below, Finish, Pow2, Shr, Low;
    Begun(z);
    ghost var a := z.Abs();
    ExtHeld(z.setup, a);
    ExtHeld(z.setup, z.HeldState());
    ExtraSmall(a);
    var ok, v := ReadExtra(z.reader, z.extra);
    if !ok {
      if Ok(z.HeldState()) { ExtHeld(z.setup, z.HeldState()); }
      Starved(z);
      return true;
    }
    z.offset := z.offset + v;
    Carried(z);
    Move(z, MATCH, a);
    leave := false;
  }

  // ------------------------------------------------------------------------- DIST

  lemma DistHeld(c: Setup, s: State)
    requires Ok(s) && s.mode == DIST
    ensures Step(c, s) == NeedInput <==> CodeFound(DISTS, s.dcode, s.rest.v).bits > s.rest.n
  {
    hide CodeFound, Acceptable, Shr;
    AtDist(c, s);
  }

  lemma DistStep(c: Setup, s: State, f: Found)
    requires Ok(s) && s.mode == DIST && f == CodeFound(DISTS, s.dcode, s.rest.v) && f.bits <= s.rest.n
    ensures Step(c, s) == Next(if BlockCodes.Flag(f.op, 64) then Take(s, f.bits).(mode := BAD(DistanceCode))
                               else Take(s, f.bits).(offset := f.val, extra := f.op % 16, mode := DISTEXT))
  {
    hide CodeFound, Acceptable, Shr;
    AtDist(c, s);
  }

  method DoDist(z: Inflater) returns (leave: bool)
    requires z.Valid() && z.mode == DIST
    modifies z`mode, z`offset, z`extra, z.reader`hold, z.reader`bits, z.reader`next
    ensures z.Valid() && Leads(z.setup, old(z.Abs()), z.Abs())
    ensures if leave then z.Waiting() else Below(z.Abs(), old(z.Abs()))
  {
    hide Step, Inflater.Valid, Inflater.Shape, Inflater.Past, Inflater.Waiting, Inflater.Produced,
      BitReader.Rest, Ok, Leads, Below, Finish, Pow2, Shr, GoodCode, CodeFound, TableFor;
    Begun(z);
    ghost var a := z.Abs();
    BlockOk(a);
    DistHeld(z.setup, z.HeldState());
    var ok, here := z.reader.FindCode(z.distcode, z.distbits, DISTS, z.dcode);
    if !ok {
      if Ok(z.HeldState()) { DistHeld(z.setup, z.HeldState()); }
      Starved(z);
      return true;
    }
    Carried(z);
    DistStep(z.setup, a, here);
    UseDist(z, here, a);
    leave := false;
  }

  method SetDist(z: Inflater, here: Found)
    requires z.reader.next <= |z.reader.input| && z.start <= z.put <= z.out.Length
    modifies z`offset, z`extra
    ensures z.Abs() == old(z.Abs()).(offset := here.val, extra := here.op % 16)
  {
    hide Inflater.Produced, BitReader.Rest;
    z.offset := here.val;
    z.extra := here.op % 16;
  }

  method UseDist(z: Inflater, here: Found, ghost a: State)
    requires z.Shape() && z.Past() && |z.lcode| <= 288 && |z.dcode| <= 32 && z.Tables() && z.reader.Valid()
    requires z.reader.bits < 8 && z.mode == DIST && Ok(a)
    requires Step(z.setup, a) == Next(if BlockCodes.Flag(here.op, 64) then z.Abs().(mode := BAD(DistanceCode))
                                      else z.Abs().(offset := here.val, extra := here.op % 16, mode := DISTEXT))
    modifies z`mode, z`offset, z`extra
    ensures z.Valid() && Leads(z.setup, a, z.Abs()) && Below(z.Abs(), a)
  {
    hide Step, Inflater.Shape, Inflater.Past, Inflater.Tables, Inflater.Produced, BitReader.Rest, Ok, Leads, Below,
      Finish, Pow2, BlockCodes.Flag;
    Bounds(z);
    if BlockCodes.Flag(here.op, 64) {
      Move(z, BAD(DistanceCode), a);
    } else {
      SetDist(z, here);
      Carried(z);
      Move(z, DISTEXT, a);
    }
  }

  // -------------------------------------------------------------------------- LIT

  lemma LitStep(c: Setup, s: State)
    requires Ok(s) && s.mode == LIT
    ensures Step(c, s) == Next(s.(out := s.out + [s.length % 256], mode := LEN))
  {
    AtLit(c, s);
  }

  /** One byte to the output. */
  method PutByte(z: Inflater, b: byte)
    requires z.Shape() && z.put < z.out.Length
    modifies z`put, z.out
    ensures z.Shape() && z.put == old(z.put) + 1 && z.Produced() == old(z.Produced()) + [b]
  {
    hide FixedTables.Right;
    ghost var before := z.out[z.start..z.put];
    z.out[z.put] := b;
    z.put := z.put + 1;
    assert z.out[z.start..z.put] == before + [b];
  }

  method DoLit(z: Inflater) returns (leave: bool)
    requires z.Valid() && z.mode == LIT
    modifies z`mode, z`put, z.out
    ensures z.Valid() && Leads(z.setup, old(z.Abs()), z.Abs())
    ensures if leave then z.Waiting() else Below(z.Abs(), old(z.Abs()))
  {
    hide Step, Inflater.Valid, Inflater.Shape, Inflater.Past, Inflater.Tables, Inflater.Produced,
      BitReader.Rest, Ok, Leads, Below, Finish, Pow2;
    Begun(z);
    if z.put == z.out.Length {
      return true;
    }
    ghost var a := z.Abs();
    LitStep(z.setup, a);
    LitStep(z.setup, z.HeldState());
    PutByte(z, z.length % 256);
    Carried(z);
    Move(z, LEN, a);
    leave := false;
  }

  // ------------------------------------------------------------------------ MATCH

  lemma MatchStep(c: Setup, s: State)
    requires Ok(s) && s.mode == MATCH
    ensures 0 < s.length <= 258 && 0 < s.offset <= 0x8000 && Step(c, s).Next?
    ensures s.offset > |s.out| ==> Step(c, s) == Bad(s, Why.TooFarBack)
  {
    hide GoodCode;
    AtMatch(c, s);
  }

  /** The part of a match that begins k bytes back from the end of the window (zlib/inflate.c:1195-1212). */
  method CopyWindow(z: Inflater, k: nat) returns (copied: nat)
    requires z.Shape() && z.win.Holds(z.history) && z.put < z.out.Length && 0 < z.length && 1 <= k <= z.win.whave
    requires z.offset == k + (z.put - z.start)
    modifies z`put, z.out
    ensures z.Shape() && z.put == old(z.put) + copied && 0 < copied <= z.length
    ensures z.Produced() == Copy(old(z.Produced()), z.offset, copied)
  {
    hide FixedTables.Right, Keeps, Copy;
    var left := z.out.Length - z.put;
    var copy, from := k, 0;
    WindowHas(z.win, z.history, k);
    if copy > z.win.wnext {
      copy := copy - z.win.wnext;
      from := z.win.wsize - copy;
    } else {
      from := z.win.wnext - copy;
    }
    if copy > z.length {
      copy := z.length;
    }
    if copy > left {
      copy := left;
    }
    WindowRun(z.win, z.out, z.start, z.put, from, copy, k, z.history);
    z.put := z.put + copy;
    copied := copy;
  }

  /** As much of a match as one source and the output allow (zlib/inflate.c:1172-1212). */
  method CopyMatch(z: Inflater) returns (ok: bool, copied: nat)
    requires z.Shape() && z.win.Holds(z.history) && z.put < z.out.Length && 0 < z.length && 0 < z.offset <= WSIZE
    modifies z`put, z.out
    ensures z.Shape() && z.put == old(z.put) + copied
    ensures ok <==> z.offset <= |old(z.Produced())|
    ensures ok ==> 0 < copied <= z.length && z.Produced() == Copy(old(z.Produced()), z.offset, copied)
    ensures !ok ==> copied == 0 && z.Produced() == old(z.Produced())
  {
    hide FixedTables.Right, Keeps, Copy;
    var left := z.out.Length - z.put;
    var copy: nat := z.put - z.start;
    if z.offset > copy {
      copy := z.offset - copy;
      WindowReach(z.win, z.history);
      if copy > z.win.whave {
        return false, 0;
      }
      copied := CopyWindow(z, copy);
    } else {
      var from := z.put - z.offset;
      copy := z.length;
      if copy > left {
        copy := left;
      }
      OutputRun(z.out, z.start, z.put, from, copy, z.history);
      z.put := z.put + copy;
      copied := copy;
    }
    ok := true;
  }

  lemma WindowReach(win: Window, h: seq<byte>)
    requires win.Holds(h)
    ensures win.whave <= |h| && (win.whave < |h| ==> win.whave == WSIZE)
  {
  }

  /** The window in use is not empty, and its places lie within it. */
  lemma WindowHas(win: Window, h: seq<byte>, k: nat)
    requires win.Holds(h) && 1 <= k <= win.whave
    ensures win.wsize == WSIZE && 0 <= Place(win.wnext, k) < WSIZE && k <= |h|
  {
  }

  lemma PastWindow(z: Inflater)
    requires z.Past() && Live(z.mode)
    ensures z.win.Holds(z.history)
  {
  }

  method DoMatch(z: Inflater) returns (leave: bool)
    requires z.Valid() && z.mode == MATCH
    modifies z`mode, z`length, z`put, z.out
    ensures z.Valid() && Leads(z.setup, old(z.Abs()), z.Abs())
    ensures if leave then z.Waiting() else Below(z.Abs(), old(z.Abs()))
  {
    hide Step, Inflater.Valid, Inflater.Shape, Inflater.Tables, Inflater.Past, Inflater.Produced, Window.Holds, Copy,
      BitReader.Rest, Ok, Leads, Below, Finish, Pow2;
    Begun(z);
    PastWindow(z);
    if z.put == z.out.Length {
      return true;
    }
    ghost var a := z.Abs();
    MatchStep(z.setup, a);
    MatchStep(z.setup, z.HeldState());
    var ok, copied := CopyMatch(z);
    Bounds(z);
    if !ok {
      Carried(z);
      Move(z, BAD(Why.TooFarBack), a);
      return false;
    }
    MatchRun(z.setup, a, copied);
    Carried(z);
    CountCopied(z, copied, a, Matched(a, copied));
    leave := false;
  }

  method CountCopied(z: Inflater, copied: nat, ghost a: State, ghost b: State)
    requires z.Shape() && z.Past() && |z.lcode| <= 288 && |z.dcode| <= 32 && z.Tables() && z.reader.Valid()
      && z.Aligned()
    requires z.mode == MATCH && copied <= z.length && Ok(a) && z.reader.bits < 8
    requires z.Abs().(length := z.length - copied, mode := if z.length == copied then LEN else MATCH) == b
    requires Leads(z.setup, a, b) && Below(b, a)
    modifies z`mode, z`length
    ensures z.Valid() && Leads(z.setup, a, z.Abs()) && Below(z.Abs(), a)
  {
    hide Step, Inflater.Valid, Inflater.Shape, Inflater.Tables, Inflater.Past, Inflater.Produced, BitReader.Rest, Ok,
      Leads, Below, Finish;
    Bounds(z);
    LessLeft(z, copied);
    assert z.Abs() == b;
    Carried(z);
    Landed(z, a);
  }

  method LessLeft(z: Inflater, copied: nat)
    requires z.mode == MATCH && copied <= z.length
    modifies z`mode, z`length
    ensures z.length == old(z.length) - copied && z.mode == if z.length == 0 then LEN else MATCH
  {
    z.length := z.length - copied;
    if z.length == 0 {
      z.mode := LEN;
    }
  }
}
