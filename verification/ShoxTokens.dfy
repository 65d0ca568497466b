/**
 The pieces of code that `shox96_0_2_compress` appends (SQLite_Esp_Port/shox96_0_2.cpp:88-102
 and 174-304), and that the decoder reads each of them back.
 */
module ShoxTokens {
  import opened BitOps
  import opened ShoxBits
  import opened ShoxCode
  import opened ShoxDecode

  // ------------------------------------------------------------------- counts

  /** codes, bit_len and adder of encodeCount: the low three bits of a code are its length. */
  const COUNT_CODES: seq<nat> := [0x01, 0x82, 0xc3, 0xe5, 0xed, 0xf5]
  const COUNT_SIZES: seq<nat> := [2, 5, 7, 9, 12, 16]
  const COUNT_FROM: seq<nat> := [0, 4, 36, 164, 676, 4772]
  const COUNT_LIMIT: nat := 70308

  /** Which of the six forms a count takes. */
  function FormOf(count: nat): (k: nat)
    requires count < COUNT_LIMIT
    ensures k < 6 && COUNT_FROM[k] <= count && count - COUNT_FROM[k] < Pow2(COUNT_SIZES[k])
  {
    FormPowers();
    if count < 4 then 0 else if count < 36 then 1 else if count < 164 then 2 else if count < 676 then 3
        else if count < 4772 then 4 else 5
  }

  lemma FormPowers()
    ensures Pow2(2) == 4 && Pow2(5) == 32 && Pow2(7) == 128 && Pow2(9) == 512 && Pow2(12) == 4096 && Pow2(16) == 65536
  {
    Pow2Short();
    assert Pow2(12) == 8 * Pow2(9);
  }

  /** encodeCount (SQLite_Esp_Port/shox96_0_2.cpp:88-102); a count past the limit is not written. */
  function CountBits(count: nat): seq<bool> {
    if count >= COUNT_LIMIT then []
    else
      var k := FormOf(count);
      Top(256 * (COUNT_CODES[k] - COUNT_CODES[k] % 8), COUNT_CODES[k] % 8)
      + Top(Shl(count - COUNT_FROM[k], 16 - COUNT_SIZES[k]), COUNT_SIZES[k])
  }

  /** The prefix of form k, for the decoder. */
  function PrefixOf(k: nat): nat
    requires k < 6
  {
    if k == 0 then 1 else if k == 1 then 0 else k
  }

  lemma {:induction false} NumberRead(a: Around, k: nat, x: nat, n: nat, rest: seq<bool>)
    requires x < Pow2(n) && n <= 16
    ensures NumberAt(a, k, Top(Shl(x, 16 - n), n) + rest, n) == x
  {
    hide Bit, Shl, Top, Low, Pow2;
    if n != 0 {
      var bits, low := Top(Shl(x, 16 - n), n), Low(x, n - 1);
      LeadingBit(x, n);
      NumberRead(a, k, low, n - 1, rest);
      assert (bits + rest)[1..] == bits[1..] + rest;
    } else {
      NoBitsLess(x);
    }
  }

  lemma NoBitsLess(x: nat)
    ensures x < Pow2(0) ==> x == 0
  {
  }

  /** The highest of n bits, and the others. */
  lemma LeadingBit(x: nat, n: nat)
    requires x < Pow2(n) && 1 <= n <= 16
    ensures var bits, low := Top(Shl(x, 16 - n), n), Low(x, n - 1);
      && bits[0] == Bit(x, n - 1) && bits[1..] == Top(Shl(low, 17 - n), n - 1) && low < Pow2(n - 1)
      && x == (if bits[0] then Pow2(n - 1) else 0) + low
  {
    hide Bit, Shl, Low, Pow2;
    var bits, low := Top(Shl(x, 16 - n), n), Low(x, n - 1);
    ShlBit(x, 16 - n, n - 1);
    HighestBit(x, n - 1);
    forall i | 0 <= i < n - 1 ensures bits[1..][i] == Top(Shl(low, 17 - n), n - 1)[i] {
      ShlBit(x, 16 - n, n - 2 - i);
      ShlBit(low, 17 - n, n - 2 - i);
      LowKeepsBit(x, n - 1, n - 2 - i);
    }
  }

  lemma HighestBit(x: nat, k: nat)
    requires x < Pow2(k + 1)
    ensures x == (if Bit(x, k) then Pow2(k) else 0) + Low(x, k)
  {
    hide Shl, Low, Shr;
    Split(x, k);
    ShrBound(x, k, 1);
    assert Pow2(1) == 2;
    ShlOne(k);
  }

  lemma LowKeepsBit(x: nat, n: nat, k: nat)
    requires k < n
    ensures Bit(Low(x, n), k) == Bit(x, k)
  {
    hide Low, Shr;
    LowLow(x, k, n - k);
    LowFirst(Shr(x, k), n - k);
  }

  lemma LowFirst(x: nat, n: nat)
    requires n >= 1
    ensures Low(x, n) % 2 == x % 2
  {
  }

  lemma CountPrefix(k: nat)
    requires k < 6
    ensures Top(256 * (COUNT_CODES[k] - COUNT_CODES[k] % 8), COUNT_CODES[k] % 8) == HBITS[PrefixOf(k)]
    ensures COUNT_BITS[PrefixOf(k)] == COUNT_SIZES[k] && COUNT_BASE[PrefixOf(k)] == COUNT_FROM[k]
  {
    hide Top, Shl, Number;
    var bits := HBITS[PrefixOf(k)];
    SetNumbers(PrefixOf(k));
    NumberTop(bits);
    ShlPower(Number(bits), 16 - |bits|);
  }

  /** A count within the limit is read back. */
  lemma CountRead(a: Around, count: nat, rest: seq<bool>)
    requires count < COUNT_LIMIT
    ensures CountAt(a, CountBits(count) + rest) == Read(count, |CountBits(count)|)
  {
    hide Top, Shl, CodeAt, NumberAt, Pow2;
    var k := FormOf(count);
    var h, b := HBITS[PrefixOf(k)], Top(Shl(count - COUNT_FROM[k], 16 - COUNT_SIZES[k]), COUNT_SIZES[k]);
    CountPrefix(k);
    assert CountBits(count) + rest == h + (b + rest);
    SetRead(PrefixOf(k), b + rest);
    assert Drop(h + (b + rest), |h|) == b + rest;
    NumberRead(a, 0, count - COUNT_FROM[k], COUNT_SIZES[k], rest);
  }

  // ------------------------------------------------------------------- pieces of code

  /** What the encoder appends at a time. */
  datatype Token =
    | ToFirst | ToSmall | ToCapitals | ToSecond
    | Plain(c: nat) | CrLf | Lf | Cr | Tab
    | Run(more: nat) | Back(length: nat, dist: nat) | Line(length: nat, dist: nat, ctx: nat)

  /** NICE_LEN_FOR_PRIOR and NICE_LEN_FOR_OTHER: the least lengths of references. */
  const NICE: nat := 7
  const NICE_LINE: nat := 12

  predicate Printable(c: nat) {
    32 <= c <= 126
  }

  predicate Capital(c: nat) {
    65 <= c <= 90
  }

  /** Where the code of a character is: capitals in a row are coded as small letters. */
  function IndexOf(m: Mode, c: nat): (i: nat)
    requires Printable(c)
    ensures i < 95
  {
    if m.upper && Capital(c) then c else c - 32
  }

  predicate Formed(t: Token) {
    (t.Plain? ==> Printable(t.c)) && (t.Back? ==> NICE <= t.length <= t.dist) && (t.Line? ==> NICE_LINE <= t.length)
  }

  function TokenBits(m: Mode, t: Token): seq<bool>
    requires Formed(t)
  {
    match t
    case ToFirst => Top(8192, 4)
    case ToSmall => Top(8192, 4)
    case ToCapitals => Top(8704, 8)
    case ToSecond => Top(14336, 7)
    case Plain(c) =>
      if c == 32 && m.second then Top(15232, 11)
      else
        CodeIsSpelling(IndexOf(m, c));
        Appended(Code(IndexOf(m, c)), Length(IndexOf(m, c)), m.second)
    case CrLf => Top(13824, 9)
    case Lf => Top(13952, 9)
    case Cr => Top(9064, 13)
    case Tab => Top(9216, 7)
    case Run(more) => Top(14208, 10) + CountBits(more)
    case Back(length, dist) => Top(14144, 10) + CountBits(length - NICE) + CountBits(dist - NICE + 1)
    case Line(length, dist, ctx) => Top(14080, 10) + CountBits(length - NICE_LINE) + CountBits(dist) + CountBits(ctx)
  }

  function After(m: Mode, t: Token): Mode {
    match t
    case ToFirst => m.(second := false)
    case ToSmall => m.(upper := false)
    case ToCapitals => m.(upper := true)
    case ToSecond => m.(second := true)
    case _ => m
  }

  /** There is something to repeat or to refer to. */
  predicate Possible(lines: seq<seq<nat>>, out: seq<nat>, t: Token) {
    && (t.Run? ==> out != []) && (t.Back? ==> t.length <= t.dist <= |out|)
    && (t.Line? ==> t.ctx < |lines| && t.dist + t.length <= |lines[t.ctx]|)
  }

  /** What the piece stands for. */
  function Add(lines: seq<seq<nat>>, out: seq<nat>, t: Token): seq<nat>
    requires Possible(lines, out, t)
  {
    match t
    case Plain(c) => out + [c]
    case CrLf => out + [13, 10]
    case Lf => out + [10]
    case Cr => out + [13]
    case Tab => out + [9]
    case Run(more) => out + Copies(out[|out| - 1], more + 4)
    case Back(length, dist) => out + out[|out| - dist..|out| - dist + length]
    case Line(length, dist, ctx) => out + lines[ctx][dist..dist + length]
    case _ => out
  }

  /** The pieces that make sense in each state. */
  predicate Fine(m: Mode, t: Token) {
    match t
    case ToFirst => m.second
    case ToSmall => !m.second && m.upper
    case ToCapitals => !m.second && !m.upper
    case ToSecond => !m.second && !m.upper
    case Plain(c) =>
      Printable(c) &&
      if m.second then !m.upper && (c == 32 || SetOf(c - 32) >= SET2)
      else if m.upper then Capital(c)
      else SetOf(c - 32) != SET2
    case Run(more) => more < COUNT_LIMIT
    case Back(length, dist) => NICE <= length <= dist && dist - NICE + 1 < COUNT_LIMIT
    case Line(length, dist, ctx) => NICE_LINE <= length && length - NICE_LINE < COUNT_LIMIT && dist < COUNT_LIMIT
        && ctx < COUNT_LIMIT
    case _ => !m.second && !m.upper
  }

  lemma SpellingOf(code: nat, up: bool, h: nat, v: nat)
    requires h < 7 && v < 11 && code == CodeNumber(up, h, v) * POWERS[16 - CodeLength(up, h, v)]
    ensures Top(code, CodeLength(up, h, v)) == Spelling(up, h, v)
  {
    hide Top, Shl, Spelling, Number, CodeNumber, CodeLength;
    SpellingNumber(up, h, v);
    NumberTop(Spelling(up, h, v));
    ShlPower(CodeNumber(up, h, v), 16 - CodeLength(up, h, v));
  }

  /** The codes that are no characters. */
  lemma SignsSpelled()
    ensures Top(15232, 11) == Spelling(false, 4, 6) && Top(13824, 9) == Spelling(false, 2, 6)
      && Top(13952, 9) == Spelling(false, 2, 7)
    ensures Top(9064, 13) == Spelling(true, 2, 7) && Top(9216, 7) == Spelling(true, 0, 1)
      && Top(14208, 10) == Spelling(false, 2, 9)
    ensures Top(14272, 10) == Spelling(false, 2, 10)
  {
    hide Top, Spelling;
    SpellingOf(15232, false, 4, 6);
    SpellingOf(13824, false, 2, 6);
    SpellingOf(13952, false, 2, 7);
    SpellingOf(9064, true, 2, 7);
    SpellingOf(9216, true, 0, 1);
    SpellingOf(14208, false, 2, 9);
    SpellingOf(14272, false, 2, 10);
  }

  /** The changes of state. */
  lemma ChangesSpelled()
    ensures Top(8192, 4) == SHIFT && Top(8704, 8) == SHIFT + SHIFT && Top(14336, 7) == [false, false] + HBITS[SET2]
  {
    hide Top, Shl, Number;
    Number2(false, false);
    Number4(false, false, true, false);
    NumberTop(SHIFT);
    ShlPower(2, 12);
    NumberJoin(SHIFT, SHIFT);
    ShlPower(2, 4);
    NumberTop(SHIFT + SHIFT);
    ShlPower(34, 8);
    SetNumbers(SET2);
    NumberTop(SetPrefix(SET2));
    ShlPower(28, 9);
  }

  lemma ChangeRead(a: Around, m: Mode, t: Token, rest: seq<bool>, out: seq<nat>)
    requires Fine(m, t) && (t.ToFirst? || t.ToSmall? || t.ToCapitals? || t.ToSecond?)
    ensures TurnAt(a, m, TokenBits(m, t) + rest, out) == Go(After(m, t), out, rest)
  {
    hide Top, TurnAt, FromSet, Emit, EmitFrom, CodeAt;
    ChangesSpelled();
    if t.ToCapitals? {
      var r := SHIFT + rest;
      assert SHIFT + SHIFT + rest == [false, false] + (HBITS[SET1] + r);
      TurnSet(a, m, HBITS[SET1] + r, out);
      SetAt(a, m, SET1, r, out);
      CapitalsRead(a, m, rest, out);
    } else if t.ToSecond? {
      assert [false, false] + HBITS[SET2] + rest == [false, false] + (HBITS[SET2] + rest);
      TurnSet(a, m, HBITS[SET2] + rest, out);
      SetAt(a, m, SET2, rest, out);
    } else {
      assert SHIFT + rest == [false, false] + (HBITS[SET1] + rest);
      TurnSet(a, m, HBITS[SET1] + rest, out);
      SetAt(a, m, SET1, rest, out);
    }
  }

  lemma CapitalsRead(a: Around, m: Mode, rest: seq<bool>, out: seq<nat>)
    ensures Shifted(a, m, SHIFT + rest, out) == Go(m.(upper := true), out, rest)
  {
    hide CodeAt, Emit, EmitFrom;
    var r := HBITS[SET1] + rest;
    assert SHIFT + rest == VBITS[0] + r;
    PlaceRead(0, r);
    assert (VBITS[0] + r)[|VBITS[0]|..] == r;
    SetRead(SET1, rest);
    assert r[|HBITS[SET1]|..] == rest;
  }

  lemma SignRead(a: Around, m: Mode, t: Token, rest: seq<bool>, out: seq<nat>)
    requires Fine(m, t) && (t.CrLf? || t.Lf? || t.Cr? || t.Tab?)
    ensures TurnAt(a, m, TokenBits(m, t) + rest, out) == Go(m, Add(a.lines, out, t), rest)
  {
    hide Top, TurnAt, Spelling;
    SignsSpelled();
    if t.CrLf? {
      SpelledPlain(a, m, 2, 6, rest, out);
    } else if t.Lf? {
      SpelledPlain(a, m, 2, 7, rest, out);
    } else if t.Cr? {
      SpelledShifted(a, m, 2, 7, rest, out);
    } else {
      SpelledShifted(a, m, 0, 1, rest, out);
    }
  }

  lemma RunRead(a: Around, m: Mode, more: nat, rest: seq<bool>, out: seq<nat>)
    requires more < COUNT_LIMIT && out != []
    ensures TurnAt(a, m, TokenBits(m, Run(more)) + rest, out) == Go(m, Add(a.lines, out, Run(more)), rest)
  {
    hide Top, TurnAt, Spelling, CountBits, CountAt;
    SignsSpelled();
    var r := CountBits(more) + rest;
    assert Top(14208, 10) + CountBits(more) + rest == Top(14208, 10) + r;
    SpelledPlain(a, m, 2, 9, r, out);
    CountRead(a, more, rest);
    assert Drop(r, |CountBits(more)|) == rest;
  }

  lemma BackSpelled()
    ensures Top(14144, 10) == Spelling(false, 2, 8) + [true]
  {
    hide Top, Shl, Spelling, Number;
    var bits := Spelling(false, 2, 8);
    SpellingNumber(false, 2, 8);
    NumberMore(bits, true);
    NumberTop(bits + [true]);
    ShlPower(221, 6);
  }

  /** A count is read, and what follows it is left. */
  lemma CountNext(a: Around, count: nat, rest: seq<bool>)
    requires count < COUNT_LIMIT
    ensures CountAt(a, CountBits(count) + rest) == Read(count, |CountBits(count)|)
    ensures Drop(CountBits(count) + rest, |CountBits(count)|) == rest
  {
    hide CountAt, CountBits;
    CountRead(a, count, rest);
  }

  lemma BackRead(a: Around, m: Mode, length: nat, dist: nat, rest: seq<bool>, out: seq<nat>)
    requires Fine(m, Back(length, dist)) && dist <= |out|
    ensures TurnAt(a, m, TokenBits(m, Back(length, dist)) + rest, out) == Go(m, Add(a.lines, out, Back(length, dist)),
      rest)
  {
    hide Top, TurnAt, Spelling, CountBits, CountAt, ReferredBack;
    BackSpelled();
    var b := CountBits(dist - NICE + 1) + rest;
    var c := CountBits(length - NICE) + b;
    assert Top(14144, 10) + CountBits(length - NICE) + CountBits(dist - NICE + 1) + rest == Spelling(false, 2,
        8) + ([true] + c);
    SpelledPlain(a, m, 2, 8, [true] + c, out);
    assert Drop([true] + c, 1) == c;
    BackCounts(a, m, length, dist, rest, out);
  }

  lemma BackCounts(a: Around, m: Mode, length: nat, dist: nat, rest: seq<bool>, out: seq<nat>)
    requires Fine(m, Back(length, dist)) && dist <= |out|
    ensures ReferredBack(a, m, CountBits(length - NICE) + (CountBits(dist - NICE + 1) + rest), out)
         == Go(m, out + out[|out| - dist..|out| - dist + length], rest)
  {
    hide CountBits, CountAt, Drop;
    CountNext(a, length - NICE, CountBits(dist - NICE + 1) + rest);
    CountNext(a, dist - NICE + 1, rest);
  }

  lemma LineSpelled()
    ensures Top(14080, 10) == Spelling(false, 2, 8) + [false]
  {
    hide Top, Shl, Spelling, Number;
    var bits := Spelling(false, 2, 8);
    SpellingNumber(false, 2, 8);
    NumberMore(bits, false);
    NumberTop(bits + [false]);
    ShlPower(220, 6);
  }

  lemma LineRead(a: Around, m: Mode, length: nat, dist: nat, ctx: nat, rest: seq<bool>, out: seq<nat>)
    requires Fine(m, Line(length, dist, ctx)) && Possible(a.lines, out, Line(length, dist, ctx))
    ensures TurnAt(a, m, TokenBits(m, Line(length, dist, ctx)) + rest, out)
         == Go(m, Add(a.lines, out, Line(length, dist, ctx)), rest)
  {
    hide Top, TurnAt, Spelling, CountBits, CountAt, ReferredLine;
    LineSpelled();
    var b := CountBits(dist) + (CountBits(ctx) + rest);
    var c := CountBits(length - NICE_LINE) + b;
    Regroup(Top(14080, 10), CountBits(length - NICE_LINE), CountBits(dist), CountBits(ctx), rest);
    assert Spelling(false, 2, 8) + [false] + c == Spelling(false, 2, 8) + ([false] + c);
    SpelledPlain(a, m, 2, 8, [false] + c, out);
    assert Drop([false] + c, 1) == c;
    LineCounts(a, m, length, dist, ctx, rest, out);
  }

  lemma Regroup(p: seq<bool>, q: seq<bool>, r: seq<bool>, s: seq<bool>, t: seq<bool>)
    ensures p + q + r + s + t == p + (q + (r + (s + t)))
  {
  }

  lemma LineCounts(a: Around, m: Mode, length: nat, dist: nat, ctx: nat, rest: seq<bool>, out: seq<nat>)
    requires Fine(m, Line(length, dist, ctx)) && Possible(a.lines, out, Line(length, dist, ctx))
    ensures ReferredLine(a, m, CountBits(length - NICE_LINE) + (CountBits(dist) + (CountBits(ctx) + rest)), out)
         == Go(m, out + a.lines[ctx][dist..dist + length], rest)
  {
    hide CountBits, CountAt, Drop;
    CountNext(a, length - NICE_LINE, CountBits(dist) + (CountBits(ctx) + rest));
    CountNext(a, dist, CountBits(ctx) + rest);
    CountNext(a, ctx, rest);
  }

  lemma PlainRead(a: Around, m: Mode, c: nat, rest: seq<bool>, out: seq<nat>)
    requires Fine(m, Plain(c))
    ensures TurnAt(a, m, TokenBits(m, Plain(c)) + rest, out) == Go(m, out + [c], rest)
  {
    hide Top, TurnAt, Spelling, SetOf, PlaceOf, Code, Length, Shr;
    var i := IndexOf(m, c);
    CodeIsSpelling(i);
    if m.second {
      SecondRead(a, m, c, rest, out);
    } else if m.upper {
      SmallLetter(i);
      SpelledPlain(a, m, SetOf(i), PlaceOf(i), rest, out);
    } else if IsCapital(i) {
      SpelledShifted(a, m, SetOf(i), PlaceOf(i), rest, out);
    } else {
      SpelledPlain(a, m, SetOf(i), PlaceOf(i), rest, out);
    }
  }

  /** Small letters are in the sets that are searched first. */
  lemma SmallLetter(i: nat)
    requires 65 <= i <= 90
    ensures SetOf(i) != SET2
  {
    hide SetOf;
    CodeIsSpelling(i);
  }

  lemma SecondRead(a: Around, m: Mode, c: nat, rest: seq<bool>, out: seq<nat>)
    requires Fine(m, Plain(c)) && m.second
    ensures TurnAt(a, m, TokenBits(m, Plain(c)) + rest, out) == Go(m, out + [c], rest)
  {
    hide Top, TurnAt, SetOf, PlaceOf, Code, Length, Shr;
    var i := c - 32;
    CodeIsSpelling(i);
    if c == 32 {
      SignsSpelled();
      SpelledPlain(a, m, 4, 6, rest, out);
    } else if SetOf(i) == SET2 {
      StripSecond(i);
      TurnPlace(a, m, PlaceOf(i), rest, out);
    } else {
      SpelledPlain(a, m, SetOf(i), PlaceOf(i), rest, out);
    }
  }

  lemma SpaceIsFirst()
    ensures SetOf(0) == SET1
  {
  }

  lemma StripSecond(i: nat)
    requires i < 95 && SetOf(i) == SET2
    ensures PlaceOf(i) < 11 && !IsCapital(i) && Length(i) <= 16
    ensures Appended(Code(i), Length(i), true) == VBITS[PlaceOf(i)] && 1 <= PlaceOf(i)
  {
    hide Top, PlaceOf, Code, Length, Shr, SetOf;
    CodeIsSpelling(i);
    SpaceIsFirst();
    var v := PlaceOf(i);
    assert Spelling(false, SET2, v)[7..] == VBITS[v];
  }

  /** Every piece is read as what it stands for, and leaves the decoder where the encoder is. */
  lemma TokenRead(a: Around, m: Mode, t: Token, rest: seq<bool>, out: seq<nat>)
    requires Fine(m, t) && Possible(a.lines, out, t)
    ensures TurnAt(a, m, TokenBits(m, t) + rest, out) == Go(After(m, t), Add(a.lines, out, t), rest)
  {
    hide TurnAt, TokenBits, Fine;
    if t.Plain? {
      PlainRead(a, m, t.c, rest, out);
    } else if t.Run? {
      RunLimit(m, t.more);
      RunRead(a, m, t.more, rest, out);
    } else if t.Back? {
      BackRead(a, m, t.length, t.dist, rest, out);
    } else if t.Line? {
      LineRead(a, m, t.length, t.dist, t.ctx, rest, out);
    } else if t.CrLf? || t.Lf? || t.Cr? || t.Tab? {
      SignRead(a, m, t, rest, out);
    } else {
      ChangeRead(a, m, t, rest, out);
    }
  }

  lemma RunLimit(m: Mode, more: nat)
    requires Fine(m, Run(more))
    ensures more < COUNT_LIMIT
  {
  }
}
