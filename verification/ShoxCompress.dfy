/**
 The loops of `shox96_0_2_compress` over its buffer (SQLite_Esp_Port/shox96_0_2.cpp:88-304):
 they write the bits that ShoxEncode says.
 */
module ShoxCompress {
  import opened BitOps
  import opened ShoxBits
  import opened ShoxCode
  import opened ShoxDecode
  import opened ShoxTokens
  import opened ShoxEncode

  /** The first ol bits of the buffer, with nothing written behind them in their byte. */
  ghost predicate Holds(data: seq<byte>, ol: nat, bits: seq<bool>) {
    ol <= 8 * |data| && BitsOf(data, ol) == bits && Clean(data, ol)
  }

  method Put(out: array<byte>, ol0: nat, code: nat, clen: nat, second: bool, ghost bits: seq<bool>) returns (ol: nat)
    requires clen <= 16 && Holds(out[..], ol0, bits)
    requires |bits| + |Appended(code, clen, second)| <= 8 * out.Length
    modifies out
    ensures Holds(out[..], ol, bits + Appended(code, clen, second))
  {
    hide Clean, Top, Shr, Under;
    CleanUnder(out[..], ol0, Appended(code, clen, second));
    ol := AppendBits(out, ol0, code, clen, second);
  }

  method PutCount(out: array<byte>, ol0: nat, count: nat, i: nat, ghost bits: seq<bool>) returns (ol: nat)
    requires count < COUNT_LIMIT && FormOf(count) == i && Holds(out[..], ol0, bits)
      && |bits| + |CountBits(count)| <= 8 * out.Length
    modifies out
    ensures Holds(out[..], ol, bits + CountBits(count))
  {
    hide Holds, Top, Shl, Shr, FormOf, Pow2;
    var top, clen := 256 * (COUNT_CODES[i] - COUNT_CODES[i] % 8), COUNT_CODES[i] % 8;
    ol := Put(out, ol0, top, clen, false, bits);
    ghost var more := bits + Top(top, clen);
    assert bits + CountBits(count) == more + Top(Shl(count - COUNT_FROM[i], 16 - COUNT_SIZES[i]), COUNT_SIZES[i]);
    ol := Put(out, ol, Shl(count - COUNT_FROM[i], 16 - COUNT_SIZES[i]), COUNT_SIZES[i], false, more);
  }

  /** encodeCount: the counts past the last form are left out. */
  method EncodeCount(out: array<byte>, ol0: nat, count: nat, ghost bits: seq<bool>) returns (ol: nat)
    requires Holds(out[..], ol0, bits) && |bits| + |CountBits(count)| <= 8 * out.Length
    modifies out
    ensures Holds(out[..], ol, bits + CountBits(count))
  {
    hide Holds, Top, Shl, Shr, Pow2;
    var till: nat := 0;
    FormPowers();
    for i := 0 to 6
      invariant i < 6 ==> till == COUNT_FROM[i] <= count
      invariant i == 6 ==> COUNT_LIMIT <= count
      invariant out[..] == old(out[..])
    {
      till := till + Pow2(COUNT_SIZES[i]);
      if count < till {
        ol := PutCount(out, ol0, count, i, bits);
        return;
      }
    }
    ol := ol0;
    assert bits + CountBits(count) == bits;
  }

  /** matchOccurance: the result is negative when nothing agrees far enough. */
  method MatchOccurance(text: seq<nat>, l: nat, out: array<byte>, ol0: nat, ghost s: State) returns (r: int, ol: nat)
    requires s.l == l && l + NICE < |text| && Holds(out[..], ol0, s.bits)
    requires BackAt(text, true, l) ==> |SentBack(text, s).bits| <= 8 * out.Length
    modifies out
    ensures BackAt(text, true, l) ==> r == l + BackLength(text, l) - 1 && Holds(out[..], ol, SentBack(text, s).bits)
    ensures !BackAt(text, true, l) ==> r + l == 0 && Holds(out[..], ol, s.bits)
  {
    hide Holds, Common, SentBack;
    for j := 0 to l
      invariant Earlier(text, 0, l) == Earlier(text, j, l) && out[..] == old(out[..])
    {
      var n := CommonLength(text, j, l);
      if n > NICE - 1 {
        ol := PutReference(text, out, ol0, n, l - j, s);
        return l + n - 1, ol;
      }
    }
    r, ol := 0 - (l as int), ol0;
  }

  method CommonLength(text: seq<nat>, j: nat, l: nat) returns (n: nat)
    requires j < l <= |text|
    ensures n == Common(text, j, l, 0)
  {
    var k := j;
    while k < l && l + k - j < |text|
      invariant j <= k <= l && l + k - j <= |text|
      invariant Common(text, j, l, 0) == Common(text, j, l, k - j)
    {
      if text[k] != text[l + k - j] { break; }
      k := k + 1;
    }
    n := k - j;
  }

  /** The bits of a reference to a line are never more. */
  const LINE_ROOM: nat := 73

  lemma CountShort(count: nat)
    ensures |CountBits(count)| <= 21
  {
    hide Top, Shl;
  }

  lemma LineShort(m: Mode, t: Token)
    requires Formed(t) && t.Line?
    ensures |TokenBits(m, t)| <= LINE_ROOM
  {
    hide Top, CountBits;
    CountShort(t.length - NICE_LINE);
    CountShort(t.dist);
    CountShort(t.ctx);
  }

  /** What stands in the buffer from the bit ol0 on: the references to lines that were tried, the last one kept. */
  ghost predicate Tried(data: seq<byte>, ol0: nat, ol: nat, s: State, b: Best) {
    && ol0 <= 8 * |data| && BitsOf(data, ol0) == s.bits && Under(data, ol0, Top(14080, 10))
    && (b.NoLine? ==> ol == ol0 && Holds(data, ol, s.bits))
    && (b.ALine? ==> b.length >= NICE_LINE && Holds(data, ol, Say(s, true, LineToken(b)).bits))
  }

  lemma NothingTried(data: seq<byte>, ol: nat, s: State)
    requires Holds(data, ol, s.bits)
    ensures Tried(data, ol, ol, s, NoLine)
  {
    hide Clean, Under, Top, TokenBits;
    CleanUnder(data, ol, Top(14080, 10));
  }

  /** A reference to a line, written where the one tried before began; its first bits are the same. */
  method PutLine(out: array<byte>, ol0: nat, b: Best, ghost s: State, ghost b0: Best, ghost ol1: nat) returns (ol: nat)
    requires b.ALine? && b.length >= NICE_LINE && Tried(out[..], ol0, ol1, s, b0)
      && |s.bits| + LINE_ROOM <= 8 * out.Length
    modifies out
    ensures Tried(out[..], ol0, ol, s, b)
  {
    hide Clean, Under, Top, Shr, CountBits, Say, LineToken, BitsOf;
    ghost var t := LineToken(b);
    LineParts(s, b);
    NotStripped(14080, 10, false);
    ol := AppendBits(out, ol0, 14080, 10, false);
    ghost var more := s.bits + Top(14080, 10);
    LineShort(s.mode, t);
    ol := EncodeCount(out, ol, b.length - NICE_LINE, more);
    ol := EncodeCount(out, ol, b.dist, more + CountBits(b.length - NICE_LINE));
    ol := EncodeCount(out, ol, b.ctx, more + CountBits(b.length - NICE_LINE) + CountBits(b.dist));
    LineOver(out[..], ol0, ol, s, b);
  }

  /** The parts that a reference to a line is written in. */
  lemma LineParts(s: State, b: Best)
    requires b.ALine? && b.length >= NICE_LINE
    ensures LineToken(b) == Line(b.length, b.dist, b.ctx)
    ensures Say(s, true, LineToken(b)).bits
         == s.bits + Top(14080, 10) + CountBits(b.length - NICE_LINE) + CountBits(b.dist) + CountBits(b.ctx)
    ensures TokenBits(s.mode, LineToken(b)) == Top(14080,
      10) + CountBits(b.length - NICE_LINE) + CountBits(b.dist) + CountBits(b.ctx)
  {
    hide Top, CountBits;
  }

  lemma LineOver(data: seq<byte>, ol0: nat, ol: nat, s: State, b: Best)
    requires b.ALine? && b.length >= NICE_LINE && Holds(data, ol, Say(s, true, LineToken(b)).bits) && ol0 == |s.bits|
    ensures Tried(data, ol0, ol, s, b)
  {
    hide Clean, Under, Top, CountBits, Say, LineToken, BitsOf;
    LineParts(s, b);
    var more := CountBits(b.length - NICE_LINE) + CountBits(b.dist) + CountBits(b.ctx);
    assert Say(s, true, LineToken(b)).bits == s.bits + Top(14080, 10) + more;
    WrittenUnder(data, ol0, ol, s.bits, Top(14080, 10), more);
  }

  method AgreeingLength(line: seq<nat>, text: seq<nat>, j: nat, l: nat) returns (n: nat)
    requires j <= |line| && l <= |text|
    ensures n == Agreeing(line, text, j, l, 0)
  {
    var i, k := l, j;
    while k < |line| && i < |text|
      invariant j <= k <= |line| && i == l + (k - j) <= |text|
      invariant Agreeing(line, text, j, l, 0) == Agreeing(line, text, j, l, k - j)
    {
      if line[k] != text[i] { break; }
      k, i := k + 1, i + 1;
    }
    n := k - j;
  }

  /** One line: every place that agrees far enough and is not behind the last one taken is written over it. */
  method MatchInLine(text: seq<nat>, l: nat, out: array<byte>, ol0: nat, ol1: nat, lines: seq<seq<nat>>, ctx: nat,
      b0: Best, ghost s: State)
    returns (b: Best, ol: nat)
    requires l <= |text| && ctx < |lines| && Matches(lines, text, l, b0)
    requires Tried(out[..], ol0, ol1, s, b0) && |s.bits| + LINE_ROOM <= 8 * out.Length
    modifies out
    ensures b == SeekIn(lines, text, l, ctx, 0, b0) && Tried(out[..], ol0, ol, s, b)
  {
    hide Tried, Agreeing;
    b, ol := b0, ol1;
    var line := lines[ctx];
    for j := 0 to |line|
      invariant Matches(lines, text, l, b) && Tried(out[..], ol0, ol, s, b)
      invariant SeekIn(lines, text, l, ctx, 0, b0) == SeekIn(lines, text, l, ctx, j, b)
    {
      var n := AgreeingLength(line, text, j, l);
      if n >= NICE_LINE {
        if b.ALine? && j > b.dist { continue; }
        ghost var was, at := b, ol;
        b := ALine(n, j, ctx);
        ol := PutLine(out, ol0, b, s, was, at);
      }
    }
  }

  /** matchLine: the result is negative when no line agrees far enough. */
  method MatchLine(text: seq<nat>, l: nat, out: array<byte>, ol0: nat, lines: seq<seq<nat>>, ghost s: State)
    returns (r: int, ol: nat)
    requires s.l == l && l + NICE_LINE < |text| && lines != [] && Holds(out[..], ol0, s.bits)
      && |s.bits| + LINE_ROOM <= 8 * out.Length
    modifies out
    ensures LineAt(text, lines, l) ==>
      r == l + Seek(lines, text, l, 0, NoLine).length - 1 && Holds(out[..], ol, SentLine(text, lines, s).bits)
    ensures !LineAt(text, lines, l) ==> r + l == 0 && Holds(out[..], ol, s.bits)
  {
    hide Holds, Agreeing, SeekIn, TokenBits;
    var b: Best;
    b, ol := NoLine, ol0;
    NothingTried(out[..], ol, s);
    for ctx := 0 to |lines|
      invariant Matches(lines, text, l, b) && Tried(out[..], ol0, ol, s, b)
      invariant Seek(lines, text, l, 0, NoLine) == Seek(lines, text, l, ctx, b)
    {
      b, ol := MatchInLine(text, l, out, ol0, ol, lines, ctx, b, s);
    }
    if b.ALine? {
      r := l + b.length - 1;
    } else {
      r := 0 - (l as int);
    }
  }

  method PutReference(text: seq<nat>, out: array<byte>, ol0: nat, length: nat, dist: nat, ghost s: State)
    returns (ol: nat)
    requires BackAt(text, true, s.l) && length == BackLength(text, s.l) && dist == s.l - Earlier(text, 0, s.l)
    requires Holds(out[..], ol0, s.bits) && |SentBack(text, s).bits| <= 8 * out.Length
    modifies out
    ensures Holds(out[..], ol, SentBack(text, s).bits)
  {
    hide Holds, Top, Shr, CountBits, BackAt, BackLength;
    ghost var more := s.bits + Top(14144, 10);
    ghost var last := more + CountBits(length - NICE);
    assert last + CountBits(dist - NICE + 1) == s.bits + TokenBits(s.mode, Back(length, dist));
    ol := Put(out, ol0, 14144, 10, false, s.bits);
    ol := EncodeCount(out, ol, length - NICE, more);
    ol := EncodeCount(out, ol, dist - NICE + 1, last);
  }

  /** SQLite_Esp_Port/shox96_0_2.cpp:195-206. */
  method PutRun(text: seq<nat>, l: nat, out: array<byte>, ol0: nat, ghost s: State) returns (r: int, ol: nat)
    requires s.l == l && RunAt(text, s.prev, l) && Holds(out[..], ol0, s.bits)
    requires |Repeated(text, s).bits| <= 8 * out.Length
    modifies out
    ensures r == l + RunLength(text, l) - 1 && Holds(out[..], ol, Repeated(text, s).bits)
  {
    hide Holds, Top, Shr, CountBits;
    var count: nat := l + 4;
    while count < |text| && text[count] == text[l]
      invariant l + 4 <= count <= |text| && forall k :: l <= k < count ==> text[k] == text[l]
    {
      count := count + 1;
    }
    count := count - l;
    assert count == RunLength(text, l);
    ol := Put(out, ol0, 14208, 10, false, s.bits);
    ghost var more := s.bits + Top(14208, 10);
    assert more + CountBits(count - 4) == s.bits + (Top(14208, 10) + CountBits(count - 4));
    ol := EncodeCount(out, ol, count - 4, more);
    return l + count - 1, ol;
  }

  /** SQLite_Esp_Port/shox96_0_2.cpp:255-258: backwards to the last small letter of six. */
  method LastSmall(text: seq<nat>, l: nat) returns (ll: int)
    requires l < |text|
    ensures ll == l - 1 <==> NoSmallAhead(text, l)
  {
    ll := l + 5;
    while l <= ll < |text|
      invariant l - 1 <= ll <= l + 5 && (ll < l + 5 ==> l + 5 < |text|)
      invariant forall k :: ll < k <= l + 5 && k < |text| ==> !Small(text[k])
      decreases ll
    {
      if Small(text[ll]) { break; }
      ll := ll - 1;
    }
  }

  /** The codes that change the state are never taken for the change to the second set. */
  lemma NotStripped(code: nat, clen: nat, second: bool)
    requires clen <= 16 && (code / 512 != 0x1c || !second)
    ensures Appended(code, clen, second) == Top(code, clen)
  {
    hide Top, Shr;
    ShrNine(code);
  }

  /** One piece appended by a single call. */
  method PutSign(out: array<byte>, ol0: nat, code: nat, clen: nat, second: bool, ghost s: State, ghost t: Token)
    returns (ol: nat)
    requires Holds(out[..], ol0, s.bits) && Formed(t) && clen <= 16 && (code / 512 != 0x1c || !second)
    requires TokenBits(s.mode, t) == Top(code, clen) && |Say(s, true, t).bits| <= 8 * out.Length
    modifies out
    ensures Holds(out[..], ol, Say(s, true, t).bits)
  {
    hide Holds, Top, Shr, TokenBits;
    NotStripped(code, clen, second);
    ol := Put(out, ol0, code, clen, second, s.bits);
  }

  /** The changes of state before a character. */
  method PutChanges(text: seq<nat>, l: nat, out: array<byte>, ol0: nat, second0: bool, upper0: bool, ghost s: State)
    returns (ol: nat, second: bool, upper: bool)
    requires s.l == l < |text| && s.mode == Mode(second0, upper0) && Holds(out[..], ol0, s.bits)
    requires |Changed(text, s).bits| <= 8 * out.Length
    modifies out
    ensures Holds(out[..], ol, Changed(text, s).bits) && Changed(text, s).mode == Mode(second, upper)
  {
    hide Holds, Top, NoSmallAhead;
    var c := text[l];
    ol, second, upper := ol0, second0, upper0;
    ghost var s1 := s;
    if second {
      var found := if c == 32 && |text| - 1 > l then text[l + 1] in SECOND else c in SECOND;
      if !found {
        second := false;
        ol := PutSign(out, ol, 8192, 4, false, s1, ToFirst);
        s1 := Say(s1, true, ToFirst);
      }
    }
    var isUpper := false;
    if Capital(c) {
      isUpper := true;
    } else if upper {
      upper := false;
      ol := PutSign(out, ol, 8192, 4, second, s1, ToSmall);
      s1 := Say(s1, true, ToSmall);
    }
    if isUpper && !upper {
      var ll := LastSmall(text, l);
      if ll == l - 1 {
        ol := PutSign(out, ol, 8704, 8, second, s1, ToCapitals);
        s1 := Say(s1, true, ToCapitals);
        upper := true;
      }
    }
    if !second && Digit(c) {
      ol := PutSign(out, ol, 14336, 7, second, s1, ToSecond);
      s1 := Say(s1, true, ToSecond);
      second := true;
    }
  }

  /** A printable character, as the code of a small letter among capitals. */
  method PutPlain(c: nat, out: array<byte>, ol0: nat, second: bool, upper: bool, ghost s: State) returns (ol: nat)
    requires Printable(c) && s.mode == Mode(second, upper) && Holds(out[..], ol0, s.bits)
    requires |Say(s, true, Plain(c)).bits| <= 8 * out.Length
    modifies out
    ensures Holds(out[..], ol, Say(s, true, Plain(c)).bits)
  {
    hide Holds, Top, Shr, Code, Length, TokenBits, Appended;
    var i := c - 32;
    if upper && Capital(c) { i := i + 32; }
    PlainBits(s.mode, c);
    if i == 0 && second {
      ol := PutSign(out, ol0, 15232, 11, second, s, Plain(c));
    } else {
      CodeIsSpelling(i);
      ol := Put(out, ol0, Code(i), Length(i), second, s.bits);
    }
  }

  lemma PlainBits(m: Mode, c: nat)
    requires Printable(c)
    ensures var i := IndexOf(m, c);
      && (i == 0 && m.second ==> TokenBits(m, Plain(c)) == Top(15232, 11))
      && (!(i == 0 && m.second) ==> Length(i) <= 16 && TokenBits(m, Plain(c)) == Appended(Code(i), Length(i), m.second))
  {
    hide Top, Code, Length, Appended;
    CodeIsSpelling(IndexOf(m, c));
  }

  method PutCharacter(text: seq<nat>, l: nat, out: array<byte>, ol0: nat, second: bool, upper: bool, ghost s: State)
    returns (l': nat, prev: nat, ol: nat)
    requires s.l == l < |text| && Changed(text, s).mode == Mode(second, upper)
      && Holds(out[..], ol0, Changed(text, s).bits)
    requires |Character(text, s).bits| <= 8 * out.Length
    modifies out
    ensures var r := Character(text, s);
      && r.l == l' + 1 && r.prev == prev && r.mode == Mode(second, upper) && Holds(out[..], ol, r.bits)
  {
    hide Holds, Top, TokenBits, Changed;
    ghost var s1 := Changed(text, s);
    var c := text[l];
    var next := 0;
    if l + 1 < |text| { next := text[l + 1]; }
    l', prev, ol := l, c, ol0;
    if Printable(c) {
      ol := PutPlain(c, out, ol, second, upper, s1);
    } else if c == 13 && next == 10 {
      SignCodes(s1.mode);
      ol := PutSign(out, ol, 13824, 9, second, s1, CrLf);
      l' := l + 1;
      prev := 10;
    } else if c == 10 {
      SignCodes(s1.mode);
      ol := PutSign(out, ol, 13952, 9, second, s1, Lf);
    } else if c == 13 {
      SignCodes(s1.mode);
      ol := PutSign(out, ol, 9064, 13, second, s1, Cr);
    } else if c == 9 {
      SignCodes(s1.mode);
      ol := PutSign(out, ol, 9216, 7, second, s1, Tab);
    }
  }

  lemma SignCodes(m: Mode)
    ensures TokenBits(m, CrLf) == Top(13824, 9) && TokenBits(m, Lf) == Top(13952, 9)
    ensures TokenBits(m, Cr) == Top(9064, 13) && TokenBits(m, Tab) == Top(9216, 7)
  {
    hide Top;
  }

  /** The bits that fill the last byte. */
  method PutPad(out: array<byte>, ol0: nat, ghost bits: seq<bool>) returns (ol: nat)
    requires Holds(out[..], ol0, bits) && |bits| + |Pad(|bits|)| <= 8 * out.Length
    modifies out
    ensures Holds(out[..], ol, bits + Pad(|bits|))
  {
    hide Clean, Top, Shr;
    ol := ol0;
    var bits8 := ol % 8;
    if bits8 != 0 {
      NotStripped(14272, 8 - bits8, false);
      ol := Put(out, ol, 14272, 8 - bits8, false, bits);
    } else {
      assert bits + [] == bits;
    }
  }

  /** One turn of the loop. */
  method PutNext(text: seq<nat>, o: Matching, l0: nat, prev0: nat, out: array<byte>, ol0: nat, second0: bool,
      upper0: bool, ghost s: State)
    returns (l: nat, prev: nat, ol: nat, second: bool, upper: bool, ghost r: State)
    requires l0 < |text| && s.l == l0 && s.prev == prev0 && s.mode == Mode(second0, upper0)
      && Holds(out[..], ol0, s.bits)
    requires |Next(text, o, s).bits| <= 8 * out.Length
    requires o.lines != [] ==> |s.bits| + LINE_ROOM <= 8 * out.Length
    modifies out
    ensures r == Next(text, o, s) && r.l == l + 1 && r.prev == prev && r.mode == Mode(second, upper)
      && Holds(out[..], ol, r.bits)
  {
    hide Holds, TokenBits, Changed, RunLength, BackLength, Common, Earlier, Seek, Agreeing, Printable, Formed, Known,
      CrLfAt, CharToken;
    l, prev, ol, second, upper := l0, prev0, ol0, second0, upper0;
    r := Next(text, o, s);
    var c := text[l];
    if l + 4 < |text| && c == prev && c == text[l + 1] && c == text[l + 2] && c == text[l + 3] {
      l, ol := PutRun(text, l, out, ol, s);
      return;
    }
    if l + NICE < |text| && o.within {
      var at;
      at, ol := MatchOccurance(text, l, out, ol, s);
      if at > 0 {
        l, prev := at, text[at - 1];
        return;
      }
      l := -at;
    }
    if l + NICE_LINE < |text| && o.lines != [] {
      var at;
      at, ol := MatchLine(text, l, out, ol, o.lines, s);
      if at > 0 {
        l, prev := at, text[at - 1];
        return;
      }
      l := -at;
    }
    ol, second, upper := PutChanges(text, l, out, ol, second, upper, s);
    l, prev, ol := PutCharacter(text, l, out, ol, second, upper, s);
  }

  /** shox96_0_2_compress; with earlier lines the references that are tried need room besides. */
  method Compress(text: seq<nat>, o: Matching, out: array<byte>) returns (n: nat)
    requires |Encoded(text, o)| + (if o.lines == [] then 0 else LINE_ROOM) <= 8 * out.Length
    modifies out
    ensures n <= out.Length && BitsOf(out[..], 8 * n) == Encoded(text, o)
  {
    hide Next, Finish, Pad, Clean, BitsOf;
    var l: nat, prev: nat, ol: nat, second, upper := 0, 0, 0, false, false;
    ghost var s := START;
    NothingYet(out[..]);
    while l < |text|
      invariant s.l == l <= |text| && s.prev == prev && s.mode == Mode(second, upper)
      invariant Holds(out[..], ol, s.bits) && Finish(text, o, s) == Finish(text, o, START)
    {
      FinishOn(text, o, s);
      l, prev, ol, second, upper, s := PutNext(text, o, l, prev, out, ol, second, upper, s);
      l := l + 1;
    }
    FinishOn(text, o, s);
    ol := PutPad(out, ol, s.bits);
    n := ol / 8 + if ol % 8 != 0 then 1 else 0;
  }

  lemma NothingYet(data: seq<byte>)
    ensures Holds(data, 0, [])
  {
  }

  lemma FinishOn(text: seq<nat>, o: Matching, s: State)
    requires s.l <= |text|
    ensures Finish(text, o, s) == if s.l == |text| then s else Finish(text, o, Next(text, o, s))
    ensures s.l < |text| ==> Next(text, o, s).bits <= Finish(text, o, s).bits
  {
    hide Next;
  }
}
