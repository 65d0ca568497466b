/**
 What `shox96_0_2_decompress` makes of a row of bits (SQLite_Esp_Port/shox96_0_2.cpp:378-500),
 one turn of its loop after another, and that it reads back every piece of code the
 encoder can write while the two are in the same state.  References to what does not
 exist, and copies that overlap what they copy, are outside this model.
 */
module ShoxDecode {
  import opened BitOps
  import opened ShoxCode

  /** The set in use, the first or the second, and whether all letters are capitals. */
  datatype Mode = Mode(second: bool, upper: bool)

  /** What the decoder is given besides its input: the earlier lines, and the bits that lie behind the input. */
  datatype Around = Around(lines: seq<seq<nat>>, past: nat -> bool)

  /** One turn: go on, stop because the bits ran out, or leave this model. */
  datatype Turn = Go(mode: Mode, out: seq<nat>, rest: seq<bool>) | Stop | Outside

  function Drop(bits: seq<bool>, n: nat): seq<bool> {
    if n <= |bits| then bits[n..] else []
  }

  // ------------------------------------------------------------------- counts

  /** bit_len and adder as the decoder has them. */
  const COUNT_BITS: seq<nat> := [5, 2, 7, 9, 12, 16, 17]
  const COUNT_BASE: seq<nat> := [4, 0, 36, 164, 676, 4772, 0]

  /** getNumFromBits (SQLite_Esp_Port/shox96_0_2.cpp:359-365), when k bits behind the input were read before. */
  function NumberAt(a: Around, k: nat, bits: seq<bool>, n: nat): nat
    decreases n
  {
    if n == 0 then 0
    else if bits == [] then (if a.past(k) then Pow2(n - 1) else 0) + NumberAt(a, k + 1, [], n - 1)
    else (if bits[0] then Pow2(n - 1) else 0) + NumberAt(a, k, bits[1..], n - 1)
  }

  /** readCount (SQLite_Esp_Port/shox96_0_2.cpp:367-376). */
  function CountAt(a: Around, bits: seq<bool>): Read {
    var k := CodeAt(HCODE, bits, 0, 0);
    if k.idx > 6 then Read(0, k.used)
    else Read(NumberAt(a, 0, Drop(bits, k.used), COUNT_BITS[k.idx]) + COUNT_BASE[k.idx], k.used + COUNT_BITS[k.idx])
  }

  function Copies(c: nat, n: nat): seq<nat> {
    seq(n, _ => c)
  }

  // ------------------------------------------------------------------- one turn

  /** SQLite_Esp_Port/shox96_0_2.cpp:465-481: a reference to text decoded earlier in this call, or to a line. */
  function Referred(a: Around, m: Mode, rest: seq<bool>, out: seq<nat>): (t: Turn)
    ensures t.Go? ==> |t.rest| <= |rest| && out <= t.out
  {
    if (if rest == [] then a.past(0) else rest[0]) then ReferredBack(a, m, Drop(rest, 1), out)
        else ReferredLine(a, m, Drop(rest, 1), out)
  }

  function ReferredBack(a: Around, m: Mode, rest: seq<bool>, out: seq<nat>): (t: Turn)
    ensures t.Go? ==> |t.rest| <= |rest| && out <= t.out
  {
    var n := CountAt(a, rest);
    var r := Drop(rest, n.used);
    var d := CountAt(a, r);
    var length, dist := n.idx + 7, d.idx + 6;
    if length <= dist <= |out| then Go(m, out + out[|out| - dist..|out| - dist + length], Drop(r, d.used)) else Outside
  }

  function ReferredLine(a: Around, m: Mode, rest: seq<bool>, out: seq<nat>): (t: Turn)
    ensures t.Go? ==> |t.rest| <= |rest| && out <= t.out
  {
    var n := CountAt(a, rest);
    var r := Drop(rest, n.used);
    var d := CountAt(a, r);
    var q := Drop(r, d.used);
    var ctx := CountAt(a, q);
    if ctx.idx < |a.lines| && d.idx + n.idx + 12 <= |a.lines[ctx.idx]|
    then Go(m, out + a.lines[ctx.idx][d.idx..d.idx + n.idx + 12], Drop(q, ctx.used)) else Outside
  }

  /** SQLite_Esp_Port/shox96_0_2.cpp:448-495: the character in place v of set h. */
  function Emit(a: Around, m: Mode, h: nat, v: nat, up: bool, rest: seq<bool>, out: seq<nat>): (t: Turn)
    ensures t.Go? ==> |t.rest| <= |rest| && out <= t.out
  {
    var c := if h < 7 && v < 11 then SETS[h][v] else 0;
    if 97 <= c <= 122 then Go(m, out + [if up then c - 32 else c], rest)
    else if h == SET1B && v == 6 then Go(m, out + [13, 10], rest)
    else if h == SET1B && v == 7 then Go(m, out + [if up then 13 else 10], rest)
    else if h == SET1B && v == 8 then Referred(a, m, rest, out)
    else if h == SET1B && v == 9 then
      if out == [] then Outside
      else Go(m, out + Copies(out[|out| - 1], CountAt(a, rest).idx + 4), Drop(rest, CountAt(a, rest).used))
    else if h == SET1B && v == 10 then Go(m, out, rest)
    else Go(m, out + [if up && !m.second && v == 1 then 9 else c], rest)
  }

  /** The place, and then the character. */
  function EmitFrom(a: Around, m: Mode, h: nat, up: bool, bits: seq<bool>, out: seq<nat>): (t: Turn)
    ensures t.Go? ==> |t.rest| <= |bits| && out <= t.out
  {
    var v := CodeAt(VCODE, bits, 0, 0);
    if v.idx == NO_CODE then Stop else Emit(a, m, h, v.idx, up, bits[v.used..], out)
  }

  /** After a shift: a capital or another sign, or the change to capitals. */
  function Shifted(a: Around, m: Mode, bits: seq<bool>, out: seq<nat>): (t: Turn)
    ensures t.Go? ==> |t.rest| <= |bits| && out <= t.out
  {
    var v := CodeAt(VCODE, bits, 0, 0);
    if v.idx == NO_CODE then Stop
    else
      var r := bits[v.used..];
      if v.idx != 0 then Emit(a, m, SET1, v.idx, true, r, out)
      else
        var h := CodeAt(HCODE, r, 0, 0);
        if h.idx == NO_CODE then Stop
        else if h.idx == SET1 then Go(m.(upper := true), out, r[h.used..])
        else EmitFrom(a, m, h.idx, true, r[h.used..], out)
  }

  /** After the prefix that a set follows. */
  function FromSet(a: Around, m: Mode, bits: seq<bool>, out: seq<nat>): (t: Turn)
    ensures t.Go? ==> |t.rest| <= |bits| && out <= t.out
  {
    var h := CodeAt(HCODE, bits, 0, 0);
    if h.idx == NO_CODE then Stop
    else
      var r := bits[h.used..];
      if h.idx == SET1 then
        if m.second then Go(m.(second := false), out, r)
        else if m.upper then Go(m.(upper := false), out, r)
        else Shifted(a, m, r, out)
      else if h.idx == SET2 then Go(m.(second := true), out, r)
      else EmitFrom(a, m, h.idx, m.upper, r, out)
  }

  /** One turn of the loop. */
  function TurnAt(a: Around, m: Mode, bits: seq<bool>, out: seq<nat>): (t: Turn)
    ensures t.Go? ==> |t.rest| < |bits| && out <= t.out
  {
    var v := CodeAt(VCODE, bits, 0, 0);
    if v.idx == NO_CODE then Stop
    else
      var r := bits[v.used..];
      if v.idx != 0 then Emit(a, m, if m.second then SET2 else SET1, v.idx, m.upper, r, out) else FromSet(a, m, r, out)
  }

  datatype Text = Text(chars: seq<nat>) | Reference

  function DecodeAll(a: Around, m: Mode, bits: seq<bool>, out: seq<nat>): (t: Text)
    ensures t.Text? ==> out <= t.chars
    decreases |bits|
  {
    if bits == [] then Text(out)
    else match TurnAt(a, m, bits, out)
      case Go(m', out', rest) => DecodeAll(a, m', rest, out')
      case Stop => Text(out)
      case Outside => Reference
  }

  // ------------------------------------------------------- reading the pieces of a code

  lemma TurnPlace(a: Around, m: Mode, v: nat, rest: seq<bool>, out: seq<nat>)
    requires 1 <= v < 11
    ensures TurnAt(a, m, VBITS[v] + rest, out) == Emit(a, m, if m.second then SET2 else SET1, v, m.upper, rest, out)
  {
    hide CodeAt, Emit;
    PlaceRead(v, rest);
    assert (VBITS[v] + rest)[|VBITS[v]|..] == rest;
  }

  lemma TurnSet(a: Around, m: Mode, rest: seq<bool>, out: seq<nat>)
    ensures TurnAt(a, m, [false, false] + rest, out) == FromSet(a, m, rest, out)
  {
    hide CodeAt, Emit, FromSet;
    PlaceRead(0, rest);
    assert VBITS[0] == [false, false];
    assert ([false, false] + rest)[2..] == rest;
  }

  lemma SetAt(a: Around, m: Mode, h: nat, rest: seq<bool>, out: seq<nat>)
    requires h < 7
    ensures FromSet(a, m, HBITS[h] + rest, out) ==
      if h == SET1 then
        (if m.second then Go(m.(second := false), out, rest)
         else if m.upper then Go(m.(upper := false), out, rest)
         else Shifted(a, m, rest, out))
      else if h == SET2 then Go(m.(second := true), out, rest)
      else EmitFrom(a, m, h, m.upper, rest, out)
  {
    hide CodeAt, EmitFrom, Shifted;
    SetRead(h, rest);
    assert (HBITS[h] + rest)[|HBITS[h]|..] == rest;
  }

  lemma PlaceFrom(a: Around, m: Mode, h: nat, v: nat, up: bool, rest: seq<bool>, out: seq<nat>)
    requires v < 11
    ensures EmitFrom(a, m, h, up, VBITS[v] + rest, out) == Emit(a, m, h, v, up, rest, out)
  {
    hide CodeAt, Emit;
    PlaceRead(v, rest);
    assert (VBITS[v] + rest)[|VBITS[v]|..] == rest;
  }

  lemma ShiftedPlace(a: Around, m: Mode, h: nat, v: nat, rest: seq<bool>, out: seq<nat>)
    requires h < 7 && v < 11 && (h == SET1 ==> v >= 1)
    ensures Shifted(a, m, SetPrefix(h) + VBITS[v] + rest, out) == Emit(a, m, h, v, true, rest, out)
  {
    hide CodeAt, Emit, EmitFrom;
    if h == SET1 {
      assert [] + VBITS[v] + rest == VBITS[v] + rest;
      PlaceRead(v, rest);
      assert (VBITS[v] + rest)[|VBITS[v]|..] == rest;
    } else {
      var r := HBITS[h] + (VBITS[v] + rest);
      assert [false, false] + HBITS[h] + VBITS[v] + rest == VBITS[0] + r;
      PlaceRead(0, r);
      assert (VBITS[0] + r)[|VBITS[0]|..] == r;
      SetRead(h, VBITS[v] + rest);
      assert r[|HBITS[h]|..] == VBITS[v] + rest;
      PlaceFrom(a, m, h, v, true, rest, out);
    }
  }

  /** A spelled character, without the shift. */
  lemma SpelledPlain(a: Around, m: Mode, h: nat, v: nat, rest: seq<bool>, out: seq<nat>)
    requires h < 7 && v < 11 && (h == SET1 ==> v >= 1 && !m.second) && h != SET2
    ensures TurnAt(a, m, Spelling(false, h, v) + rest, out) == Emit(a, m, h, v, m.upper, rest, out)
  {
    hide TurnAt, Emit, FromSet, EmitFrom;
    if h == SET1 {
      assert [] + ([] + VBITS[v]) + rest == VBITS[v] + rest;
      TurnPlace(a, m, v, rest, out);
    } else {
      var r := VBITS[v] + rest;
      assert [] + ([false, false] + HBITS[h] + VBITS[v]) + rest == [false, false] + (HBITS[h] + r);
      TurnSet(a, m, HBITS[h] + r, out);
      SetAt(a, m, h, r, out);
      PlaceFrom(a, m, h, v, m.upper, rest, out);
    }
  }

  /** A spelled character after the shift to capitals. */
  lemma SpelledShifted(a: Around, m: Mode, h: nat, v: nat, rest: seq<bool>, out: seq<nat>)
    requires h < 7 && v < 11 && (h == SET1 ==> v >= 1) && !m.second && !m.upper
    ensures TurnAt(a, m, Spelling(true, h, v) + rest, out) == Emit(a, m, h, v, true, rest, out)
  {
    hide TurnAt, Emit, FromSet, Shifted, SetPrefix;
    var r := SetPrefix(h) + VBITS[v] + rest;
    assert SHIFT + (SetPrefix(h) + VBITS[v]) + rest == [false, false] + (HBITS[SET1] + r);
    TurnSet(a, m, HBITS[SET1] + r, out);
    SetAt(a, m, SET1, r, out);
    ShiftedPlace(a, m, h, v, rest, out);
  }
}
