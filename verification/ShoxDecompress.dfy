/**
 The loops of the shox96 decoder over its buffer (SQLite_Esp_Port/shox96_0_2.cpp:338-500): they give
 what ShoxDecode says; and a text goes through the encoder and the decoder.
 */
module ShoxDecompress {
  import opened BitOps
  import opened ShoxBits
  import opened ShoxCode
  import opened ShoxDecode
  import opened ShoxTokens
  import opened ShoxEncode
  import opened ShoxCompress

  /** The bits from bitNo on. */
  function From(data: seq<byte>, bitNo: nat): seq<bool> {
    Drop(BitsOf(data, 8 * |data|), bitNo)
  }

  lemma FromOn(data: seq<byte>, bitNo: nat)
    ensures From(data, bitNo) == [] <==> bitNo >= 8 * |data|
    ensures bitNo < 8 * |data| ==> From(data, bitNo) == [BitAt(data, bitNo)] + From(data, bitNo + 1)
    ensures bitNo >= 8 * |data| ==> From(data, bitNo + 1) == []
  {
    hide BitAt;
  }

  lemma FromMore(data: seq<byte>, bitNo: nat, n: nat)
    ensures Drop(From(data, bitNo), n) == From(data, bitNo + n)
  {
    hide BitsOf;
  }

  /** How many bits behind the input come before bitNo. */
  function Beyond(data: seq<byte>, bitNo: nat): nat {
    if bitNo < 8 * |data| then 0 else bitNo - 8 * |data|
  }

  /** getBitVal, which may be asked for bits behind the input. */
  method GetBitVal(a: Around, data: seq<byte>, bitNo: nat, count: nat) returns (r: nat)
    ensures r == if (if From(data, bitNo) != [] then From(data, bitNo)[0] else a.past(Beyond(data, bitNo)))
      then Pow2(count) else 0
  {
    hide From, BitAt;
    FromOn(data, bitNo);
    r := if (if bitNo < 8 * |data| then BitAt(data, bitNo) else a.past(bitNo - 8 * |data|)) then Pow2(count) else 0;
  }

  /** getCodeIdx. */
  method GetCodeIdx(a: Around, table: seq<nat>, data: seq<byte>, bitNo0: nat) returns (idx: nat, bitNo: nat)
    requires |table| == 32
    ensures bitNo0 <= bitNo && CodeAt(table, From(data, bitNo0), 0, 0) == Read(idx, bitNo - bitNo0)
    ensures idx != NO_CODE ==> bitNo0 < bitNo <= 8 * |data|
  {
    hide From, Ends, Pow2, CodeAt;
    bitNo := bitNo0;
    var code: nat, count: nat := 0, 0;
    NoPower();
    while true
      invariant count < 5 && bitNo == bitNo0 + count && code < Pow2(count) && (count > 0 ==> bitNo <= 8 * |data|)
      invariant CodeAt(table, From(data, bitNo0), 0, 0) == CodeAt(table, From(data, bitNo), code, count)
      decreases 5 - count
    {
      FromOn(data, bitNo);
      CodeAtOn(table, From(data, bitNo), code, count);
      if bitNo >= 8 * |data| { return NO_CODE, bitNo; }
      var bit := GetBitVal(a, data, bitNo, count);
      assert From(data, bitNo)[1..] == From(data, bitNo + 1);
      code := code + bit;
      bitNo := bitNo + 1;
      count := count + 1;
      if table[code] != 0 && table[code] % 8 == count {
        EndsHere(table[code], count);
        return table[code] / 8, bitNo;
      }
      EndsHere(table[code], count);
      if count >= 5 { break; }
    }
    return 1, bitNo;
  }

  lemma NoPower()
    ensures Pow2(0) == 1
  {
  }

  lemma EndsHere(entry: nat, n: nat)
    ensures Ends(entry, n) <==> entry != 0 && entry % 8 == n
  {
  }

  /** getNumFromBits. */
  method GetNumFromBits(a: Around, data: seq<byte>, bitNo0: nat, count0: nat) returns (r: nat)
    ensures r == NumberAt(a, Beyond(data, bitNo0), From(data, bitNo0), count0)
  {
    hide From, Pow2;
    var bitNo: nat, count: nat := bitNo0, count0;
    r := 0;
    while count > 0
      invariant bitNo + count == bitNo0 + count0
      invariant NumberAt(a, Beyond(data, bitNo0), From(data, bitNo0), count0)
             == r + NumberAt(a, Beyond(data, bitNo), From(data, bitNo), count)
    {
      FromOn(data, bitNo);
      count := count - 1;
      var bit := GetBitVal(a, data, bitNo, count);
      assert From(data, bitNo) != [] ==> From(data, bitNo)[1..] == From(data, bitNo + 1);
      r := r + bit;
      bitNo := bitNo + 1;
    }
  }

  /** readCount. */
  method ReadCount(a: Around, data: seq<byte>, bitNo0: nat) returns (count: nat, bitNo: nat)
    ensures bitNo0 <= bitNo && CountAt(a, From(data, bitNo0)) == Read(count, bitNo - bitNo0)
  {
    hide From, NumberAt, CodeAt;
    var idx;
    idx, bitNo := GetCodeIdx(a, HCODE, data, bitNo0);
    if idx > 6 { return 0, bitNo; }
    FromMore(data, bitNo0, bitNo - bitNo0);
    count := GetNumFromBits(a, data, bitNo, COUNT_BITS[idx]);
    count := count + COUNT_BASE[idx];
    bitNo := bitNo + COUNT_BITS[idx];
  }

  /** What a turn came to: go on, stop because the bits ran out, or leave the model. */
  datatype Verdict = Going | Stopped | Left

  function TurnOf(v: Verdict, data: seq<byte>, bitNo: nat, m: Mode, out: seq<nat>): Turn {
    match v
    case Going => Go(m, out, From(data, bitNo))
    case Stopped => Stop
    case Left => Outside
  }

  /** SQLite_Esp_Port/shox96_0_2.cpp:465-481. */
  method CopyReferred(a: Around, data: seq<byte>, bitNo0: nat, m: Mode, out0: seq<nat>)
    returns (verdict: Verdict, bitNo: nat, out: seq<nat>)
    requires bitNo0 <= 8 * |data|
    ensures Referred(a, m, From(data, bitNo0), out0) == TurnOf(verdict, data, bitNo, m, out)
    ensures (verdict.Going? ==> bitNo0 <= bitNo) && !verdict.Stopped?
  {
    hide From, CountAt, ReferredBack, ReferredLine;
    FromOn(data, bitNo0);
    var bit := GetBitVal(a, data, bitNo0, 0);
    NoPower();
    FromMore(data, bitNo0, 1);
    if bit != 0 {
      verdict, bitNo, out := CopyBack(a, data, bitNo0 + 1, m, out0);
    } else {
      verdict, bitNo, out := CopyLine(a, data, bitNo0 + 1, m, out0);
    }
  }

  method CopyBack(a: Around, data: seq<byte>, bitNo0: nat, m: Mode, out0: seq<nat>)
    returns (verdict: Verdict, bitNo: nat, out: seq<nat>)
    ensures ReferredBack(a, m, From(data, bitNo0), out0) == TurnOf(verdict, data, bitNo, m, out)
    ensures (verdict.Going? ==> bitNo0 <= bitNo) && !verdict.Stopped?
  {
    hide From, CountAt;
    var length, dist;
    ghost var at := bitNo0;
    length, bitNo := ReadCount(a, data, bitNo0);
    FromMore(data, at, bitNo - at);
    at := bitNo;
    dist, bitNo := ReadCount(a, data, bitNo);
    FromMore(data, at, bitNo - at);
    length, dist := length + NICE, dist + NICE - 1;
    if !(length <= dist <= |out0|) { return Left, bitNo, out0; }
    return Going, bitNo, out0 + out0[|out0| - dist..|out0| - dist + length];
  }

  method CopyLine(a: Around, data: seq<byte>, bitNo0: nat, m: Mode, out0: seq<nat>)
    returns (verdict: Verdict, bitNo: nat, out: seq<nat>)
    ensures ReferredLine(a, m, From(data, bitNo0), out0) == TurnOf(verdict, data, bitNo, m, out)
    ensures (verdict.Going? ==> bitNo0 <= bitNo) && !verdict.Stopped?
  {
    hide From, CountAt;
    var length, dist, ctx;
    ghost var at := bitNo0;
    length, bitNo := ReadCount(a, data, bitNo0);
    FromMore(data, at, bitNo - at);
    at := bitNo;
    dist, bitNo := ReadCount(a, data, bitNo);
    FromMore(data, at, bitNo - at);
    at := bitNo;
    ctx, bitNo := ReadCount(a, data, bitNo);
    FromMore(data, at, bitNo - at);
    length := length + NICE_LINE;
    if !(ctx < |a.lines| && dist + length <= |a.lines[ctx]|) { return Left, bitNo, out0; }
    return Going, bitNo, out0 + a.lines[ctx][dist..dist + length];
  }

  /** SQLite_Esp_Port/shox96_0_2.cpp:482-489. */
  method RepeatLast(a: Around, data: seq<byte>, bitNo0: nat, m: Mode, out0: seq<nat>)
    returns (verdict: Verdict, bitNo: nat, out: seq<nat>)
    ensures Emit(a, m, SET1B, 9, m.upper, From(data, bitNo0), out0) == TurnOf(verdict, data, bitNo, m, out)
    ensures verdict.Going? ==> bitNo0 <= bitNo
    ensures !verdict.Stopped?
  {
    hide From, CountAt;
    var count;
    count, bitNo := ReadCount(a, data, bitNo0);
    FromMore(data, bitNo0, bitNo - bitNo0);
    count := count + 4;
    out := out0;
    if out == [] { return Left, bitNo, out; }
    var c, n := out[|out| - 1], count;
    while count > 0
      invariant count <= n && out == out0 + Copies(c, n - count)
    {
      out := out + [c];
      count := count - 1;
    }
    verdict := Going;
  }

  lemma RepeatAnyCase(a: Around, m: Mode, up: bool, rest: seq<bool>, out: seq<nat>)
    ensures Emit(a, m, SET1B, 9, up, rest, out) == Emit(a, m, SET1B, 9, m.upper, rest, out)
  {
  }

  /** SQLite_Esp_Port/shox96_0_2.cpp:448-495: from the set and the place to the output. */
  method PutChar(a: Around, data: seq<byte>, bitNo0: nat, m: Mode, h: nat, v: nat, isUpper: bool, out0: seq<nat>)
    returns (verdict: Verdict, bitNo: nat, out: seq<nat>)
    requires h < 7 && v < 11 && bitNo0 <= 8 * |data|
    ensures Emit(a, m, h, v, isUpper, From(data, bitNo0), out0) == TurnOf(verdict, data, bitNo, m, out)
    ensures (verdict.Going? ==> bitNo0 <= bitNo) && !verdict.Stopped?
  {
    hide From, CountAt, Referred;
    verdict, bitNo, out := Going, bitNo0, out0;
    var c := SETS[h][v];
    if Small(c) {
      if isUpper { c := c - 32; }
    } else {
      if isUpper && !m.second && v == 1 { c := 9; }
      if h == SET1B {
        SignsOf(v);
        if v == 6 {
          out := out + [13];
          c := 10;
        } else if v == 7 {
          c := if isUpper then 13 else 10;
        } else if v == 8 {
          verdict, bitNo, out := CopyReferred(a, data, bitNo, m, out);
          return;
        } else if v == 9 {
          RepeatAnyCase(a, m, isUpper, From(data, bitNo), out);
          verdict, bitNo, out := RepeatLast(a, data, bitNo, m, out);
          return;
        } else if v == 10 {
          return;
        }
      }
    }
    out := out + [c];
  }

  /** The places of set 1b that hold a letter. */
  lemma SignsOf(v: nat)
    requires v < 11 && !Small(SETS[SET1B][v])
    ensures v >= 6
  {
  }

  /** SQLite_Esp_Port/shox96_0_2.cpp:440-446: the place, and then the character. */
  method PlaceAndChar(a: Around, data: seq<byte>, bitNo0: nat, m: Mode, h: nat, isUpper: bool, out0: seq<nat>)
    returns (verdict: Verdict, bitNo: nat, out: seq<nat>)
    requires h < 7
    ensures EmitFrom(a, m, h, isUpper, From(data, bitNo0), out0) == TurnOf(verdict, data, bitNo, m, out)
    ensures (verdict.Going? ==> bitNo0 <= bitNo) && (verdict.Stopped? ==> out == out0)
  {
    hide From, CodeAt, Emit;
    var v;
    v, bitNo := GetCodeIdx(a, VCODE, data, bitNo0);
    if v == NO_CODE { return Stopped, bitNo, out0; }
    PlacesKnown(From(data, bitNo0));
    FromMore(data, bitNo0, bitNo - bitNo0);
    verdict, bitNo, out := PutChar(a, data, bitNo, m, h, v, isUpper, out0);
  }

  /** No prefix leads out of the tables. */
  lemma {:induction false} IndexBelow(table: seq<nat>, bits: seq<bool>, code: nat, count: nat, bound: nat)
    requires |table| == 32 && (forall c :: 0 <= c < 32 ==> table[c] / 8 < bound) && code < Pow2(count) && count < 5
      && 2 <= bound
    ensures var i := CodeAt(table, bits, code, count).idx; i == NO_CODE || i < bound
    decreases 5 - count
  {
    hide Pow2, Ends, CodeAt;
    CodeAtOn(table, bits, code, count);
    if bits != [] && count < 4 {
      IndexBelow(table, bits[1..], code + if bits[0] then Pow2(count) else 0, count + 1, bound);
    }
  }

  lemma PlacesKnown(bits: seq<bool>)
    ensures CodeAt(VCODE, bits, 0, 0).idx == NO_CODE || CodeAt(VCODE, bits, 0, 0).idx < 11
  {
    hide CodeAt;
    IndexBelow(VCODE, bits, 0, 0, 11);
  }

  lemma SetsKnown(bits: seq<bool>)
    ensures CodeAt(HCODE, bits, 0, 0).idx == NO_CODE || CodeAt(HCODE, bits, 0, 0).idx < 7
  {
    hide CodeAt;
    IndexBelow(HCODE, bits, 0, 0, 7);
  }

  /** SQLite_Esp_Port/shox96_0_2.cpp:413-429: after a shift. */
  method AfterShift(a: Around, data: seq<byte>, bitNo0: nat, m0: Mode, out0: seq<nat>)
    returns (verdict: Verdict, bitNo: nat, m: Mode, out: seq<nat>)
    ensures Shifted(a, m0, From(data, bitNo0), out0) == TurnOf(verdict, data, bitNo, m, out)
    ensures (verdict.Going? ==> bitNo0 <= bitNo) && (verdict.Stopped? ==> out == out0)
  {
    hide From, CodeAt, Emit, EmitFrom;
    m, out := m0, out0;
    var v, h;
    v, bitNo := GetCodeIdx(a, VCODE, data, bitNo0);
    if v == NO_CODE { return Stopped, bitNo, m, out; }
    PlacesKnown(From(data, bitNo0));
    NoPower();
    FromMore(data, bitNo0, bitNo - bitNo0);
    if v != 0 {
      verdict, bitNo, out := PutChar(a, data, bitNo, m, SET1, v, true, out);
      return;
    }
    ghost var at := bitNo;
    h, bitNo := GetCodeIdx(a, HCODE, data, bitNo);
    if h == NO_CODE { return Stopped, bitNo, m, out; }
    SetsKnown(From(data, at));
    FromMore(data, at, bitNo - at);
    if h == SET1 { return Going, bitNo, m.(upper := true), out; }
    verdict, bitNo, out := PlaceAndChar(a, data, bitNo, m, h, true, out);
  }

  /** SQLite_Esp_Port/shox96_0_2.cpp:401-447: after the prefix that a set follows. */
  method AfterPrefix(a: Around, data: seq<byte>, bitNo0: nat, m0: Mode, out0: seq<nat>)
    returns (verdict: Verdict, bitNo: nat, m: Mode, out: seq<nat>)
    ensures FromSet(a, m0, From(data, bitNo0), out0) == TurnOf(verdict, data, bitNo, m, out)
    ensures (verdict.Going? ==> bitNo0 <= bitNo) && (verdict.Stopped? ==> out == out0)
  {
    hide From, CodeAt, EmitFrom, Shifted;
    m, out := m0, out0;
    var h;
    h, bitNo := GetCodeIdx(a, HCODE, data, bitNo0);
    if h == NO_CODE { return Stopped, bitNo, m, out; }
    SetsKnown(From(data, bitNo0));
    NoPower();
    FromMore(data, bitNo0, bitNo - bitNo0);
    if h == SET1 {
      if m.second { return Going, bitNo, m.(second := false), out; }
      if m.upper { return Going, bitNo, m.(upper := false), out; }
      verdict, bitNo, m, out := AfterShift(a, data, bitNo, m, out);
      return;
    }
    if h == SET2 { return Going, bitNo, m.(second := true), out; }
    verdict, bitNo, out := PlaceAndChar(a, data, bitNo, m, h, m.upper, out);
  }

  /** One turn of the loop. */
  method DecodeTurn(a: Around, data: seq<byte>, bitNo0: nat, m0: Mode, out0: seq<nat>)
    returns (verdict: Verdict, bitNo: nat, m: Mode, out: seq<nat>)
    ensures TurnAt(a, m0, From(data, bitNo0), out0) == TurnOf(verdict, data, bitNo, m, out)
    ensures (verdict.Going? ==> bitNo0 < bitNo) && (verdict.Stopped? ==> out == out0)
  {
    hide From, CodeAt, Emit, FromSet;
    m, out := m0, out0;
    var v;
    v, bitNo := GetCodeIdx(a, VCODE, data, bitNo0);
    if v == NO_CODE { return Stopped, bitNo, m, out; }
    PlacesKnown(From(data, bitNo0));
    NoPower();
    FromMore(data, bitNo0, bitNo - bitNo0);
    if v == 0 {
      verdict, bitNo, m, out := AfterPrefix(a, data, bitNo, m, out);
    } else {
      verdict, bitNo, out := PutChar(a, data, bitNo, m, if m.second then SET2 else SET1, v, m.upper, out);
    }
  }

  /** shox96_0_2_decompress. */
  method Decompress(a: Around, data: seq<byte>) returns (inside: bool, out: seq<nat>)
    ensures DecodeAll(a, START.mode, BitsOf(data, 8 * |data|), []) == if inside then Text(out) else Reference
  {
    hide From, TurnAt;
    var bitNo: nat, m, verdict := 0, START.mode, Going;
    out := [];
    FromStart(data);
    while bitNo < 8 * |data|
      invariant DecodeAll(a, START.mode, BitsOf(data, 8 * |data|), []) == DecodeAll(a, m, From(data, bitNo), out)
      decreases 8 * |data| - bitNo
    {
      FromOn(data, bitNo);
      verdict, bitNo, m, out := DecodeTurn(a, data, bitNo, m, out);
      if verdict.Stopped? { return true, out; }
      if verdict.Left? { return false, out; }
    }
    FromOn(data, bitNo);
    inside := true;
  }

  lemma FromStart(data: seq<byte>)
    ensures From(data, 0) == BitsOf(data, 8 * |data|)
  {
    hide BitAt;
  }

  /** A text through the encoder and the decoder: it comes back exactly when every run that is coded is one. */
  method Through(a: Around, text: seq<nat>, o: Matching, out: array<byte>) returns (inside: bool, back: seq<nat>)
    requires AllKnown(text) && Counted(text, o, START) && o.lines <= a.lines
    requires |Encoded(text, o)| + (if o.lines == [] then 0 else LINE_ROOM) <= 8 * out.Length
    modifies out
    ensures inside && back == text <==> RunsRight(text, o, START)
    ensures o == ALONE ==> inside && back == text
  {
    hide DecodeAll, Counted, RunsRight, Finish, AllKnown, Pad;
    var n := Compress(text, o, out);
    WholeBytes(out[..], n);
    inside, back := Decompress(a, out[..n]);
    ThereAndBack(a, text, o);
    AlwaysRight(text, START);
  }

  lemma WholeBytes(data: seq<byte>, n: nat)
    requires n <= |data|
    ensures BitsOf(data[..n], 8 * n) == BitsOf(data, 8 * n)
  {
  }
}
