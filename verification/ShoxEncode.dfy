/**
 What `shox96_0_2_compress` writes for a text (SQLite_Esp_Port/shox96_0_2.cpp:104-304), step by
 step, with references to the text itself and to earlier lines.  Decoding gives the text back
 exactly when no run is coded right after a reference to a text whose last character is not the
 one before it: there the encoder compares with the wrong character.
 */
module ShoxEncode {
  import opened BitOps
  import opened ShoxBits
  import opened ShoxCode
  import opened ShoxDecode
  import opened ShoxTokens

  /** SET2_STR without its closing zero and the last character: the first 42. */
  const SECOND: set<nat> := {
    57, 48, 49, 50, 51, 52, 53, 54, 55, 56, 46, 44, 45, 47, 61, 43, 32, 40, 41, 36, 37,
    38, 59, 58, 60, 62, 42, 34, 123, 125, 91, 93, 64, 63, 39, 94, 35, 95, 33, 92, 124, 126
  }

  predicate Digit(c: nat) {
    48 <= c <= 57
  }

  predicate Small(c: nat) {
    97 <= c <= 122
  }

  /** The characters that have a code. */
  predicate Known(c: nat) {
    Printable(c) || c == 9 || c == 10 || c == 13
  }

  // ------------------------------------------------------------------- what lies ahead

  /** How often the character at l follows from l on. */
  function RunLength(text: seq<nat>, l: nat): (n: nat)
    requires l < |text|
    ensures 1 <= n && l + n <= |text| && (l + n < |text| ==> text[l + n] != text[l])
    ensures forall k :: l <= k < l + n ==> text[k] == text[l]
    decreases |text| - l
  {
    if l + 1 < |text| && text[l + 1] == text[l] then 1 + RunLength(text, l + 1) else 1
  }

  /** SQLite_Esp_Port/shox96_0_2.cpp:195-206: whether a run is coded. */
  predicate RunAt(text: seq<nat>, prev: nat, l: nat) {
    l + 4 < |text| && text[l] == prev && text[l] == text[l + 1] && text[l] == text[l + 2] && text[l] == text[l + 3]
  }

  /** How far the text from j on, up to l, agrees with that from l on, when n agree. */
  function Common(text: seq<nat>, j: nat, l: nat, n: nat): (r: nat)
    requires j + n <= l && l + n <= |text|
    ensures n <= r && j + r <= l && l + r <= |text|
    ensures forall k :: l + n <= k < l + r ==> text[k] == text[k - (l - j)]
    ensures j + r < l && l + r < |text| ==> text[j + r] != text[l + r]
    decreases l - j - n
  {
    if j + n < l && l + n < |text| && text[j + n] == text[l + n] then Common(text, j, l, n + 1) else n
  }

  /** The first place from j on that agrees far enough, or l. */
  function Earlier(text: seq<nat>, j: nat, l: nat): (r: nat)
    requires j <= l <= |text|
    ensures j <= r <= l && (r < l ==> Common(text, r, l, 0) >= NICE)
    ensures forall i :: j <= i < r ==> Common(text, i, l, 0) < NICE
    decreases l - j
  {
    if j == l || Common(text, j, l, 0) >= NICE then j else Earlier(text, j + 1, l)
  }

  /** Whether a reference is coded. */
  predicate BackAt(text: seq<nat>, within: bool, l: nat) {
    within && l + NICE < |text| && Earlier(text, 0, l) < l
  }

  function BackLength(text: seq<nat>, l: nat): (n: nat)
    requires BackAt(text, true, l)
    ensures NICE <= n <= l - Earlier(text, 0, l) && l + n <= |text|
  {
    Common(text, Earlier(text, 0, l), l, 0)
  }

  /** Whether references to the text itself are wanted, and the earlier lines, the last one first. */
  datatype Matching = Matching(within: bool, lines: seq<seq<nat>>)

  /** No references, and only those to the text itself. */
  const ALONE: Matching := Matching(false, [])
  const WITHIN: Matching := Matching(true, [])

  /** How far a line from j on agrees with the text from l on, when n agree. */
  function Agreeing(line: seq<nat>, text: seq<nat>, j: nat, l: nat, n: nat): (r: nat)
    requires j + n <= |line| && l + n <= |text|
    ensures n <= r && j + r <= |line| && l + r <= |text|
    ensures forall k :: l + n <= k < l + r ==> text[k] == line[k - l + j]
    ensures j + r < |line| && l + r < |text| ==> line[j + r] != text[l + r]
    decreases |line| - j - n
  {
    if j + n < |line| && l + n < |text| && line[j + n] == text[l + n] then Agreeing(line, text, j, l, n + 1) else n
  }

  /** What matchLine keeps: how far, where in the line, and which line. */
  datatype Best = NoLine | ALine(length: nat, dist: nat, ctx: nat)

  /** It is as long as line and text agree. */
  predicate Matches(lines: seq<seq<nat>>, text: seq<nat>, l: nat, b: Best)
    requires l <= |text|
  {
    b.ALine? ==> b.ctx < |lines| && b.dist <= |lines[b.ctx]| && b.length >= NICE_LINE
                 && b.length == Agreeing(lines[b.ctx], text, b.dist, l, 0)
  }

  /** A place that agrees far enough comes later in its line, or as early in the same line or one before. */
  predicate NotBetter(line: seq<nat>, text: seq<nat>, l: nat, ctx: nat, j: nat, b: Best)
    requires l <= |text|
  {
    j <= |line| && Agreeing(line, text, j, l, 0) >= NICE_LINE ==>
      b.ALine? && (b.dist < j || (b.dist == j && ctx <= b.ctx))
  }

  /** SQLite_Esp_Port/shox96_0_2.cpp:131-163: one line from j on. */
  function SeekIn(lines: seq<seq<nat>>, text: seq<nat>, l: nat, ctx: nat, j: nat, b: Best): (r: Best)
    requires ctx < |lines| && j <= |lines[ctx]| && l <= |text| && Matches(lines, text, l, b)
    ensures Matches(lines, text, l, r)
    decreases |lines[ctx]| - j
  {
    if j == |lines[ctx]| then b
    else
      var n := Agreeing(lines[ctx], text, j, l, 0);
      SeekIn(lines, text, l, ctx, j + 1, if n >= NICE_LINE && (b.NoLine? || j <= b.dist) then ALine(n, j, ctx) else b)
  }

  /** The lines from ctx on. */
  function Seek(lines: seq<seq<nat>>, text: seq<nat>, l: nat, ctx: nat, b: Best): (r: Best)
    requires ctx <= |lines| && l <= |text| && Matches(lines, text, l, b)
    ensures Matches(lines, text, l, r)
    decreases |lines| - ctx
  {
    if ctx == |lines| then b else Seek(lines, text, l, ctx + 1, SeekIn(lines, text, l, ctx, 0, b))
  }

  /** A place that was not better stays so. */
  lemma {:induction false} SeekInKeeps(lines: seq<seq<nat>>, text: seq<nat>, l: nat, ctx: nat, j: nat, b: Best,
      line: seq<nat>, c: nat, i: nat)
    requires ctx < |lines| && j <= |lines[ctx]| && l <= |text| && Matches(lines, text, l, b)
      && (b.ALine? ==> b.ctx <= ctx)
    requires c <= ctx && NotBetter(line, text, l, c, i, b)
    ensures var r := SeekIn(lines, text, l, ctx, j, b);
      (r.ALine? ==> r.ctx <= ctx) && NotBetter(line, text, l, c, i, r)
    decreases |lines[ctx]| - j
  {
    hide Agreeing;
    if j < |lines[ctx]| {
      var n := Agreeing(lines[ctx], text, j, l, 0);
      var next := if n >= NICE_LINE && (b.NoLine? || j <= b.dist) then ALine(n, j, ctx) else b;
      SeekInKeeps(lines, text, l, ctx, j + 1, next, line, c, i);
    }
  }

  lemma {:induction false} SeekInFinds(lines: seq<seq<nat>>, text: seq<nat>, l: nat, ctx: nat, j: nat, b: Best, i: nat)
    requires ctx < |lines| && j <= i < |lines[ctx]| && l <= |text|
    requires Matches(lines, text, l, b) && (b.ALine? ==> b.ctx <= ctx)
    ensures NotBetter(lines[ctx], text, l, ctx, i, SeekIn(lines, text, l, ctx, j, b))
    decreases |lines[ctx]| - j
  {
    hide Agreeing;
    var n := Agreeing(lines[ctx], text, j, l, 0);
    var next := if n >= NICE_LINE && (b.NoLine? || j <= b.dist) then ALine(n, j, ctx) else b;
    if i == j {
      SeekInKeeps(lines, text, l, ctx, j + 1, next, lines[ctx], ctx, i);
    } else {
      SeekInFinds(lines, text, l, ctx, j + 1, next, i);
    }
  }

  lemma {:induction false} SeekInBound(lines: seq<seq<nat>>, text: seq<nat>, l: nat, ctx: nat, j: nat, b: Best)
    requires ctx < |lines| && j <= |lines[ctx]| && l <= |text| && Matches(lines, text, l, b)
      && (b.ALine? ==> b.ctx <= ctx)
    ensures var r := SeekIn(lines, text, l, ctx, j, b); r.ALine? ==> r.ctx <= ctx
  {
    hide Agreeing, Matches, SeekIn;
    SeekInKeeps(lines, text, l, ctx, j, b, [], 0, 1);
  }

  lemma {:induction false} SeekKeeps(lines: seq<seq<nat>>, text: seq<nat>, l: nat, ctx: nat, b: Best,
      line: seq<nat>, c: nat, i: nat)
    requires ctx <= |lines| && l <= |text| && Matches(lines, text, l, b) && (b.ALine? ==> b.ctx < ctx)
    requires c < ctx && NotBetter(line, text, l, c, i, b)
    ensures NotBetter(line, text, l, c, i, Seek(lines, text, l, ctx, b))
    decreases |lines| - ctx
  {
    hide Agreeing, Matches, NotBetter, SeekIn;
    if ctx < |lines| {
      SeekInKeeps(lines, text, l, ctx, 0, b, line, c, i);
      SeekKeeps(lines, text, l, ctx + 1, SeekIn(lines, text, l, ctx, 0, b), line, c, i);
    }
  }

  /** Of all places that agree far enough, the one taken is the earliest in its line, in the last such line. */
  lemma {:induction false} SeekFinds(lines: seq<seq<nat>>, text: seq<nat>, l: nat, ctx: nat, b: Best, c: nat, i: nat)
    requires ctx <= c < |lines| && i < |lines[c]| && l <= |text|
    requires Matches(lines, text, l, b) && (b.ALine? ==> b.ctx < ctx)
    ensures NotBetter(lines[c], text, l, c, i, Seek(lines, text, l, ctx, b))
    decreases |lines| - ctx
  {
    hide Agreeing, Matches, NotBetter, SeekIn;
    var b1 := SeekIn(lines, text, l, ctx, 0, b);
    SeekInBound(lines, text, l, ctx, 0, b);
    if c == ctx {
      SeekInFinds(lines, text, l, ctx, 0, b, i);
      SeekKeeps(lines, text, l, ctx + 1, b1, lines[c], c, i);
    } else {
      SeekFinds(lines, text, l, ctx + 1, b1, c, i);
    }
  }

  /** Whether a reference to a line is coded. */
  predicate LineAt(text: seq<nat>, lines: seq<seq<nat>>, l: nat) {
    lines != [] && l + NICE_LINE < |text| && Seek(lines, text, l, 0, NoLine).ALine?
  }

  function LineToken(b: Best): (t: Token)
    requires b.ALine? && b.length >= NICE_LINE
    ensures Formed(t)
  {
    Line(b.length, b.dist, b.ctx)
  }

  // ------------------------------------------------------------------- the encoder's steps

  datatype State = State(mode: Mode, bits: seq<bool>, prev: nat, l: nat)

  const START: State := State(Mode(false, false), [], 0, 0)

  function Say(s: State, cond: bool, t: Token): (r: State)
    requires cond ==> Formed(t)
    ensures s.bits <= r.bits
  {
    if cond then s.(mode := After(s.mode, t), bits := s.bits + TokenBits(s.mode, t)) else s
  }

  /** The character that is looked for among those of the second set. */
  function Look(text: seq<nat>, l: nat): nat
    requires l < |text|
  {
    if text[l] == 32 && l + 1 < |text| then text[l + 1] else text[l]
  }

  /** SQLite_Esp_Port/shox96_0_2.cpp:255-259: no small letter here or in the next five places. */
  predicate NoSmallAhead(text: seq<nat>, l: nat) {
    l + 5 < |text| && forall k :: l <= k <= l + 5 ==> !Small(text[k])
  }

  /** SQLite_Esp_Port/shox96_0_2.cpp:235-267: the changes of state before a character. */
  function Changed(text: seq<nat>, s: State): (r: State)
    requires s.l < |text|
    ensures r.l == s.l && r.prev == s.prev && s.bits <= r.bits
  {
    var c := text[s.l];
    var s1 := Say(s, s.mode.second && Look(text, s.l) !in SECOND, ToFirst);
    var s2 := Say(s1, !Capital(c) && s1.mode.upper, ToSmall);
    var s3 := Say(s2, Capital(c) && !s2.mode.upper && NoSmallAhead(text, s.l), ToCapitals);
    Say(s3, !s3.mode.second && Digit(c), ToSecond)
  }

  predicate CrLfAt(text: seq<nat>, l: nat) {
    l + 1 < |text| && text[l] == 13 && text[l + 1] == 10
  }

  /** The code of the character at l, if it has one. */
  function CharToken(text: seq<nat>, l: nat): (t: Token)
    requires l < |text| && Known(text[l])
    ensures Formed(t)
  {
    if Printable(text[l]) then Plain(text[l])
    else if CrLfAt(text, l) then CrLf
    else if text[l] == 10 then Lf
    else if text[l] == 13 then Cr
    else Tab
  }

  function Character(text: seq<nat>, s: State): (r: State)
    requires s.l < |text|
    ensures s.l < r.l <= |text| && s.bits <= r.bits
  {
    var s1 := Changed(text, s);
    if !Known(text[s.l]) then s1.(prev := text[s.l], l := s.l + 1)
    else if CrLfAt(text, s.l) then Say(s1, true, CrLf).(prev := 10, l := s.l + 2)
    else Say(s1, true, CharToken(text, s.l)).(prev := text[s.l], l := s.l + 1)
  }

  function Repeated(text: seq<nat>, s: State): (r: State)
    requires RunAt(text, s.prev, s.l)
    ensures s.l < r.l <= |text| && s.bits <= r.bits
  {
    LongRun(text, s);
    Say(s, true, Run(RunLength(text, s.l) - 4)).(l := s.l + RunLength(text, s.l))
  }

  lemma LongRun(text: seq<nat>, s: State)
    requires RunAt(text, s.prev, s.l)
    ensures RunLength(text, s.l) >= 4
  {
  }

  /** SQLite_Esp_Port/shox96_0_2.cpp:209-224: the character that the next one is compared with is the last but one. */
  function SentBack(text: seq<nat>, s: State): (r: State)
    requires BackAt(text, true, s.l)
    ensures s.l < r.l <= |text| && s.bits <= r.bits
  {
    var n := BackLength(text, s.l);
    Say(s, true, Back(n, s.l - Earlier(text, 0, s.l))).(prev := text[s.l + n - 2], l := s.l + n)
  }

  /** SQLite_Esp_Port/shox96_0_2.cpp:225-234: the same for a line. */
  function SentLine(text: seq<nat>, lines: seq<seq<nat>>, s: State): (r: State)
    requires LineAt(text, lines, s.l)
    ensures s.l < r.l <= |text| && s.bits <= r.bits
  {
    var b := Seek(lines, text, s.l, 0, NoLine);
    Say(s, true, LineToken(b)).(prev := text[s.l + b.length - 2], l := s.l + b.length)
  }

  /** One turn of the encoder's loop. */
  function Next(text: seq<nat>, o: Matching, s: State): (r: State)
    requires s.l < |text|
    ensures s.l < r.l <= |text| && s.bits <= r.bits
  {
    if RunAt(text, s.prev, s.l) then Repeated(text, s)
    else if BackAt(text, o.within, s.l) then SentBack(text, s)
    else if LineAt(text, o.lines, s.l) then SentLine(text, o.lines, s)
    else Character(text, s)
  }

  function Finish(text: seq<nat>, o: Matching, s: State): (r: State)
    requires s.l <= |text|
    ensures s.bits <= r.bits
    decreases |text| - s.l
  {
    if s.l == |text| then s else Finish(text, o, Next(text, o, s))
  }

  /** The bits that fill the last byte. */
  function Pad(n: nat): (bits: seq<bool>)
    ensures (n + |bits|) % 8 == 0
  {
    if n % 8 == 0 then [] else Top(14272, 8 - n % 8)
  }

  /** All that is written for a text. */
  function Encoded(text: seq<nat>, o: Matching): (bits: seq<bool>)
    ensures |bits| % 8 == 0
  {
    Filled(Finish(text, o, START).bits)
  }

  function Filled(bits: seq<bool>): (r: seq<bool>)
    ensures |r| % 8 == 0
  {
    bits + Pad(|bits|)
  }

  // ------------------------------------------------------------------- when it is right

  /** The counts that this turn writes have a code. */
  predicate CountsFit(text: seq<nat>, o: Matching, s: State)
    requires s.l < |text|
  {
    if RunAt(text, s.prev, s.l) then RunLength(text, s.l) - 4 < COUNT_LIMIT
    else if BackAt(text, o.within, s.l) then s.l - Earlier(text, 0, s.l) - NICE + 1 < COUNT_LIMIT
    else LineAt(text, o.lines, s.l) ==> Fine(s.mode, LineToken(Seek(o.lines, text, s.l, 0, NoLine)))
  }

  predicate Counted(text: seq<nat>, o: Matching, s: State)
    requires s.l <= |text|
    decreases |text| - s.l
  {
    s.l < |text| ==> CountsFit(text, o, s) && Counted(text, o, Next(text, o, s))
  }

  /** No turn takes a run for one of the character before it when it is not. */
  predicate RunsRight(text: seq<nat>, o: Matching, s: State)
    requires s.l <= |text|
    decreases |text| - s.l
  {
    s.l < |text| ==>
      && (s.l > 0 && RunAt(text, s.prev, s.l) ==> text[s.l - 1] == text[s.l])
      && RunsRight(text, o, Next(text, o, s))
  }

  predicate AllKnown(text: seq<nat>) {
    forall k :: 0 <= k < |text| ==> Known(text[k])
  }

  /** What was written is read as `out`, in the same state. */
  ghost predicate Reads(a: Around, s: State, out: seq<nat>) {
    forall rest :: DecodeAll(a, START.mode, s.bits + rest, []) == DecodeAll(a, s.mode, rest, out)
  }

  ghost predicate InStep(a: Around, text: seq<nat>, s: State) {
    s.l <= |text| && !(s.mode.second && s.mode.upper) && (s.prev == 0 || s.l > 0) && Reads(a, s, text[..s.l])
  }

  /** One more piece keeps the two sides in step. */
  lemma SayRead(a: Around, s: State, cond: bool, t: Token, out: seq<nat>)
    requires Reads(a, s, out)
    requires cond ==> Formed(t) && Fine(s.mode, t) && Possible(a.lines, out, t)
    ensures Reads(a, Say(s, cond, t), if cond then Add(a.lines, out, t) else out)
  {
    hide DecodeAll, TurnAt, TokenBits, Fine, Add;
    if cond {
      forall rest {
        SayReadOne(a, s, t, out, rest);
      }
    }
  }

  lemma SayReadOne(a: Around, s: State, t: Token, out: seq<nat>, rest: seq<bool>)
    requires Reads(a, s, out)
    requires Formed(t) && Fine(s.mode, t) && Possible(a.lines, out, t)
    ensures DecodeAll(a, START.mode, Say(s, true, t).bits + rest, []) == DecodeAll(a, After(s.mode, t), rest,
      Add(a.lines, out, t))
  {
    hide TurnAt, TokenBits, Fine, Add;
    var bits := TokenBits(s.mode, t) + rest;
    assert Say(s, true, t).bits + rest == s.bits + bits;
    TokenRead(a, s.mode, t, rest, out);
    assert bits != [];
  }

  lemma PlainFits(m: Mode, c: nat)
    requires Printable(c) && !(m.second && m.upper)
    requires m.second ==> c in SECOND
    requires m.upper ==> Capital(c)
    requires Digit(c) ==> m.second
    ensures Fine(m, Plain(c))
  {
    hide SetOf;
    if m.second {
      SecondSets(c);
    } else if !m.upper {
      FirstSets(c);
    }
  }

  lemma FirstSets(c: nat)
    requires Printable(c) && !Digit(c)
    ensures SetOf(c - 32) != SET2
  {
    hide SetOf, PlaceOf, Code, Length, Shr, Top, Spelling;
    CodeIsSpelling(c - 32);
    SpaceIsFirst();
  }

  lemma SecondSets(c: nat)
    requires c in SECOND
    ensures Printable(c) && (c == 32 || SetOf(c - 32) >= SET2)
  {
  }

  lemma ChangedInStep(a: Around, text: seq<nat>, s: State)
    requires s.l < |text| && InStep(a, text, s)
    ensures var r := Changed(text, s); var c := text[s.l];
      && Reads(a, r, text[..s.l]) && !(r.mode.second && r.mode.upper)
      && (r.mode.second ==> c in SECOND) && (r.mode.upper ==> Capital(c)) && (Digit(c) ==> r.mode.second)
  {
    hide Reads, NoSmallAhead, TokenBits;
    var c, out := text[s.l], text[..s.l];
    var s1 := Say(s, s.mode.second && Look(text, s.l) !in SECOND, ToFirst);
    SayRead(a, s, s.mode.second && Look(text, s.l) !in SECOND, ToFirst, out);
    var s2 := Say(s1, !Capital(c) && s1.mode.upper, ToSmall);
    SayRead(a, s1, !Capital(c) && s1.mode.upper, ToSmall, out);
    var s3 := Say(s2, Capital(c) && !s2.mode.upper && NoSmallAhead(text, s.l), ToCapitals);
    SayRead(a, s2, Capital(c) && !s2.mode.upper && NoSmallAhead(text, s.l), ToCapitals, out);
    SayRead(a, s3, !s3.mode.second && Digit(c), ToSecond, out);
  }

  lemma CharacterInStep(a: Around, text: seq<nat>, s: State)
    requires s.l < |text| && InStep(a, text, s) && AllKnown(text)
    ensures InStep(a, text, Character(text, s))
  {
    hide Reads, Changed, TokenBits;
    ChangedInStep(a, text, s);
    var s1, t, out := Changed(text, s), CharToken(text, s.l), text[..s.l];
    if t.Plain? {
      PlainFits(s1.mode, t.c);
    }
    SayRead(a, s1, true, t, out);
    assert t.CrLf? ==> text[..s.l + 2] == out + [13, 10];
    assert !t.CrLf? ==> text[..s.l + 1] == out + [text[s.l]];
    MoveReads(a, Say(s1, true, t), Character(text, s), text[..Character(text, s).l]);
  }

  lemma MoveReads(a: Around, s: State, r: State, out: seq<nat>)
    requires Reads(a, s, out) && r.mode == s.mode && r.bits == s.bits
    ensures Reads(a, r, out)
  {
    hide DecodeAll;
  }

  lemma RepeatedInStep(a: Around, text: seq<nat>, s: State)
    requires InStep(a, text, s) && RunAt(text, s.prev, s.l) && s.l > 0 && text[s.l - 1] == text[s.l]
    requires RunLength(text, s.l) - 4 < COUNT_LIMIT
    ensures InStep(a, text, Repeated(text, s))
  {
    hide Reads, TokenBits, RunLength;
    LongRun(text, s);
    var n, out := RunLength(text, s.l), text[..s.l];
    SayRead(a, s, true, Run(n - 4), out);
    assert text[..s.l + n] == out + Copies(text[s.l - 1], n);
    MoveReads(a, Say(s, true, Run(n - 4)), Repeated(text, s), text[..s.l + n]);
  }

  lemma PieceCopied(text: seq<nat>, j: nat, l: nat)
    requires j <= l <= |text|
    ensures var n := Common(text, j, l, 0); text[..l + n] == text[..l] + text[..l][j..j + n]
  {
    var n := Common(text, j, l, 0);
    assert text[l..l + n] == text[j..j + n];
    assert text[..l + n] == text[..l] + text[l..l + n];
  }

  lemma BackInStep(a: Around, text: seq<nat>, s: State)
    requires InStep(a, text, s) && BackAt(text, true, s.l) && s.l - Earlier(text, 0, s.l) - NICE + 1 < COUNT_LIMIT
    ensures InStep(a, text, SentBack(text, s))
  {
    hide Reads, TokenBits, Earlier, Common;
    var n, j, out := BackLength(text, s.l), Earlier(text, 0, s.l), text[..s.l];
    var t := Back(n, s.l - j);
    SayRead(a, s, true, t, out);
    PieceCopied(text, j, s.l);
    MoveReads(a, Say(s, true, t), SentBack(text, s), text[..s.l + n]);
  }

  lemma LineInStep(a: Around, text: seq<nat>, lines: seq<seq<nat>>, s: State)
    requires InStep(a, text, s) && LineAt(text, lines, s.l) && lines <= a.lines
    requires Fine(s.mode, LineToken(Seek(lines, text, s.l, 0, NoLine)))
    ensures InStep(a, text, SentLine(text, lines, s))
  {
    hide Reads, TokenBits, Seek, Agreeing;
    var b, out := Seek(lines, text, s.l, 0, NoLine), text[..s.l];
    var t := LineToken(b);
    SayRead(a, s, true, t, out);
    LineCopied(lines[b.ctx], text, b.dist, s.l);
    MoveReads(a, Say(s, true, t), SentLine(text, lines, s), text[..s.l + b.length]);
  }

  lemma LineCopied(line: seq<nat>, text: seq<nat>, j: nat, l: nat)
    requires j <= |line| && l <= |text|
    ensures var n := Agreeing(line, text, j, l, 0); text[..l + n] == text[..l] + line[j..j + n]
  {
    var n := Agreeing(line, text, j, l, 0);
    assert text[l..l + n] == line[j..j + n];
    assert text[..l + n] == text[..l] + text[l..l + n];
  }

  lemma NextInStep(a: Around, text: seq<nat>, o: Matching, s: State)
    requires o.lines <= a.lines
    requires s.l < |text| && InStep(a, text, s) && AllKnown(text) && CountsFit(text, o, s)
    requires RunAt(text, s.prev, s.l) ==> s.l > 0 && text[s.l - 1] == text[s.l]
    ensures InStep(a, text, Next(text, o, s))
  {
    hide InStep, RunAt, Character, Repeated, SentBack, Earlier, RunLength, AllKnown;
    if RunAt(text, s.prev, s.l) {
      RepeatedInStep(a, text, s);
    } else if BackAt(text, o.within, s.l) {
      BackInStep(a, text, s);
    } else if LineAt(text, o.lines, s.l) {
      LineInStep(a, text, o.lines, s);
    } else {
      CharacterInStep(a, text, s);
    }
  }

  lemma NotAtStart(a: Around, text: seq<nat>, s: State)
    requires InStep(a, text, s) && AllKnown(text) && RunAt(text, s.prev, s.l)
    ensures s.l > 0
  {
    hide Reads;
  }

  lemma {:induction false} FinishInStep(a: Around, text: seq<nat>, o: Matching, s: State)
    requires o.lines <= a.lines
    requires s.l <= |text| && InStep(a, text, s) && AllKnown(text)
    requires Counted(text, o, s) && RunsRight(text, o, s)
    ensures Reads(a, Finish(text, o, s), text)
    decreases |text| - s.l
  {
    hide Reads, Next, RunAt, CountsFit, AllKnown;
    if s.l < |text| {
      if RunAt(text, s.prev, s.l) {
        NotAtStart(a, text, s);
      }
      NextInStep(a, text, o, s);
      FinishInStep(a, text, o, Next(text, o, s));
    } else {
      assert text[..s.l] == text;
    }
  }

  // ------------------------------------------------------------------- the end of the bits

  /** A prefix cut short is no code. */
  lemma {:induction false} CutShort(table: seq<nat>, bits: seq<bool>, n: nat, code: nat, count: nat, idx: nat)
    requires |table| == 32 && code < Pow2(count) && count < 5 && Spells(table, bits, code, count, idx) && n < |bits|
    ensures CodeAt(table, bits[..n], code, count).idx == NO_CODE
    decreases 5 - count
  {
    hide Pow2, Ends;
    if n > 0 {
      SpelledOn(table, bits, [], code, count, idx);
      CutShort(table, bits[1..], n - 1, code + if bits[0] then Pow2(count) else 0, count + 1, idx);
      CutOn(table, bits, n, code, count, idx);
    }
  }

  lemma CutOn(table: seq<nat>, bits: seq<bool>, n: nat, code: nat, count: nat, idx: nat)
    requires |table| == 32 && code < Pow2(count) && count < 5 && Spells(table, bits, code, count, idx) && 0 < n < |bits|
    ensures var c := code + if bits[0] then Pow2(count) else 0;
      c < Pow2(count + 1) && count < 4
          && CodeAt(table, bits[..n], code, count) == CodeAt(table, bits[1..][..n - 1], c, count + 1)
  {
    hide Pow2, Ends, Spells, CodeAt;
    SpellsOn(table, bits, code, count, idx);
    CodeAtOn(table, bits[..n], code, count);
    assert bits[..n][1..] == bits[1..][..n - 1];
  }

  /** The bits of the code 14272: set 1b, place 10. */
  lemma PadSpelled(k: nat)
    requires 1 <= k < 8
    ensures Top(14272, k) == ([false, false] + HBITS[SET1B] + VBITS[10])[..k]
  {
    hide Top, Shl;
    SignsSpelled();
    TopMore(14272, k, 10 - k);
    assert Top(14272, 10)[..k] == Top(14272, k);
    assert Spelling(false, SET1B, 10) == [false, false] + HBITS[SET1B] + VBITS[10];
  }

  /** The bits that fill the last byte end the text. */
  lemma PadRead(a: Around, m: Mode, k: nat, out: seq<nat>)
    requires 1 <= k < 8
    ensures TurnAt(a, m, Top(14272, k), out) == Stop
  {
    hide Top, CodeAt, Emit, Spells, Shifted;
    PadSpelled(k);
    PlacesFrom0();
    PlacesFrom10();
    SetsFrom0();
    var h, v := HBITS[SET1B], VBITS[10];
    var bits := ([false, false] + h + v)[..k];
    if k < 2 {
      CutShort(VCODE, VBITS[0], k, 0, 0, 0);
      assert bits == VBITS[0][..k];
    } else if k < 5 {
      CutShort(HCODE, h, k - 2, 0, 0, SET1B);
      assert bits == [false, false] + h[..k - 2];
      TurnSet(a, m, h[..k - 2], out);
    } else {
      CutShort(VCODE, v, k - 5, 0, 0, 10);
      assert bits == [false, false] + (h + v[..k - 5]);
      TurnSet(a, m, h + v[..k - 5], out);
      SetAt(a, m, SET1B, v[..k - 5], out);
    }
  }

  lemma PadEnds(a: Around, m: Mode, n: nat, out: seq<nat>)
    ensures DecodeAll(a, m, Pad(n), out) == Text(out)
  {
    hide TurnAt;
    if n % 8 != 0 {
      PadRead(a, m, 8 - n % 8, out);
    }
  }

  // ------------------------------------------------------------------- there and back

  lemma RoundTripIfRight(a: Around, text: seq<nat>, o: Matching)
    requires o.lines <= a.lines
    requires AllKnown(text) && Counted(text, o, START) && RunsRight(text, o, START)
    ensures DecodeAll(a, START.mode, Encoded(text, o), []) == Text(text)
  {
    hide DecodeAll, Counted, RunsRight, Finish, Pad, AllKnown;
    StartInStep(a, text);
    FinishInStep(a, text, o, START);
    var s := Finish(text, o, START);
    PadEnds(a, s.mode, |s.bits|, text);
  }

  lemma StartInStep(a: Around, text: seq<nat>)
    ensures InStep(a, text, START)
  {
    hide DecodeAll;
    forall rest: seq<bool> ensures START.bits + rest == rest {
    }
  }

  /** A wrong run leaves a wrong character at s.l, which nothing after it can mend. */
  lemma WrongRun(a: Around, text: seq<nat>, s: State, rest: seq<bool>)
    requires InStep(a, text, s) && RunAt(text, s.prev, s.l) && s.l > 0 && text[s.l - 1] != text[s.l]
    requires RunLength(text, s.l) - 4 < COUNT_LIMIT
    ensures DecodeAll(a, START.mode, Repeated(text, s).bits + rest, []) != Text(text)
  {
    hide DecodeAll, TurnAt, TokenBits, RunLength, Reads;
    LongRun(text, s);
    var n, out := RunLength(text, s.l), text[..s.l];
    SayRead(a, s, true, Run(n - 4), out);
    ReadsOn(a, Say(s, true, Run(n - 4)), Add(a.lines, out, Run(n - 4)), rest);
    assert Add(a.lines, out, Run(n - 4))[s.l] == text[s.l - 1];
  }

  lemma ReadsOn(a: Around, s: State, out: seq<nat>, rest: seq<bool>)
    requires Reads(a, s, out)
    ensures DecodeAll(a, START.mode, s.bits + rest, []) == DecodeAll(a, s.mode, rest, out)
  {
    hide DecodeAll;
  }

  lemma {:induction false} WrongText(a: Around, text: seq<nat>, o: Matching, s: State, rest: seq<bool>)
    requires o.lines <= a.lines
    requires s.l <= |text| && InStep(a, text, s) && AllKnown(text)
    requires Counted(text, o, s) && !RunsRight(text, o, s)
    ensures DecodeAll(a, START.mode, Finish(text, o, s).bits + rest, []) != Text(text)
    decreases |text| - s.l
  {
    hide InStep, Next, RunAt, AllKnown, DecodeAll, CountsFit;
    if RunAt(text, s.prev, s.l) {
      NotAtStart(a, text, s);
    }
    if RunAt(text, s.prev, s.l) && text[s.l - 1] != text[s.l] {
      WrongRunHere(a, text, o, s, rest);
    } else {
      NextInStep(a, text, o, s);
      WrongText(a, text, o, Next(text, o, s), rest);
    }
  }

  lemma WrongRunHere(a: Around, text: seq<nat>, o: Matching, s: State, rest: seq<bool>)
    requires s.l < |text| && InStep(a, text, s) && RunAt(text, s.prev, s.l) && s.l > 0 && text[s.l - 1] != text[s.l]
    requires CountsFit(text, o, s)
    ensures DecodeAll(a, START.mode, Finish(text, o, s).bits + rest, []) != Text(text)
  {
    hide InStep, RunAt, DecodeAll, Repeated, RunLength;
    var r := Repeated(text, s);
    var more := Finish(text, o, s).bits[|r.bits|..];
    assert Finish(text, o, s).bits == r.bits + more;
    assert r.bits + more + rest == r.bits + (more + rest);
    WrongRun(a, text, s, more + rest);
  }

  /** Decoding gives the text back exactly when every run that is coded is one. */
  lemma ThereAndBack(a: Around, text: seq<nat>, o: Matching)
    requires o.lines <= a.lines
    requires AllKnown(text) && Counted(text, o, START)
    ensures DecodeAll(a, START.mode, Encoded(text, o), []) == Text(text) <==> RunsRight(text, o, START)
  {
    hide DecodeAll, Counted, RunsRight, Finish, AllKnown, Pad, InStep;
    if RunsRight(text, o, START) {
      RoundTripIfRight(a, text, o);
    } else {
      StartInStep(a, text);
      WrongText(a, text, o, START, Pad(|Finish(text, o, START).bits|));
    }
  }

  lemma PrevIsLast(text: seq<nat>, s: State)
    requires s.l < |text| && (s.l > 0 ==> s.prev == text[s.l - 1])
    ensures var r := Next(text, ALONE, s); r.prev == text[r.l - 1]
    ensures s.l > 0 && RunAt(text, s.prev, s.l) ==> text[s.l - 1] == text[s.l]
  {
    hide TokenBits, Changed, CharToken, Known;
    if RunAt(text, s.prev, s.l) {
      var r := Repeated(text, s);
      assert text[r.l - 1] == text[s.l];
    } else {
      assert Next(text, ALONE, s) == Character(text, s);
    }
  }

  /** Without references every run that is coded is one. */
  lemma {:induction false} AlwaysRight(text: seq<nat>, s: State)
    requires s.l <= |text| && (s.l > 0 ==> s.prev == text[s.l - 1])
    ensures RunsRight(text, ALONE, s)
    decreases |text| - s.l
  {
    hide Next, RunAt;
    if s.l < |text| {
      PrevIsLast(text, s);
      AlwaysRight(text, Next(text, ALONE, s));
    }
  }

  /** No count of a text of this length is past the limit, with lines that are not longer and no more of them. */
  lemma {:induction false} ShortIsCounted(text: seq<nat>, o: Matching, s: State)
    requires s.l <= |text| < COUNT_LIMIT + 4
    requires |o.lines| <= COUNT_LIMIT && forall k :: 0 <= k < |o.lines| ==> |o.lines[k]| < COUNT_LIMIT + NICE_LINE
    ensures Counted(text, o, s)
    decreases |text| - s.l
  {
    hide Next, RunAt, BackAt, Seek, Agreeing;
    if s.l < |text| {
      ShortIsCounted(text, o, Next(text, o, s));
    }
  }

  /** "abcdefg" twice, and then five times "f". */
  const CONFUSED: seq<nat> := seq(19,
      i requires 0 <= i < 19 => if i < 7 then 97 + i else if i < 14 then 90 + i else 102)

  /** With references the run after the second "abcdefg" is read as five times "g". */
  lemma RunAfterReference(a: Around)
    ensures !RunsRight(CONFUSED, WITHIN, START)
    ensures DecodeAll(a, START.mode, Encoded(CONFUSED, WITHIN), []) != Text(CONFUSED)
    ensures DecodeAll(a, START.mode, Encoded(CONFUSED, ALONE), []) == Text(CONFUSED)
  {
    hide DecodeAll, Counted, RunsRight, Encoded;
    ConfusedFrom(START);
    ShortIsCounted(CONFUSED, WITHIN, START);
    ThereAndBack(a, CONFUSED, WITHIN);
    AlwaysRight(CONFUSED, START);
    ShortIsCounted(CONFUSED, ALONE, START);
    ThereAndBack(a, CONFUSED, ALONE);
  }

  lemma {:induction false} ConfusedFrom(s: State)
    requires s.l <= 7 && s.mode == START.mode && s.prev == (if s.l == 0 then 0 else CONFUSED[s.l - 1])
    ensures !RunsRight(CONFUSED, WITHIN, s)
    decreases 7 - s.l
  {
    hide Next, RunAt;
    if s.l < 7 {
      ConfusedLetter(s);
      ConfusedFrom(Next(CONFUSED, WITHIN, s));
    } else {
      ConfusedReference(s);
      var r := Next(CONFUSED, WITHIN, s);
      assert RunAt(CONFUSED, r.prev, r.l);
    }
  }

  lemma ConfusedLetter(s: State)
    requires s.l < 7 && s.mode == START.mode && s.prev == (if s.l == 0 then 0 else CONFUSED[s.l - 1])
    ensures var r := Next(CONFUSED, WITHIN, s); r.l == s.l + 1 && r.mode == s.mode && r.prev == CONFUSED[s.l]
  {
    hide TokenBits, Common, Earlier, NoSmallAhead;
    assert !RunAt(CONFUSED, s.prev, s.l) && !BackAt(CONFUSED, true, s.l);
  }

  lemma ConfusedReference(s: State)
    requires s.l == 7 && s.prev == 103
    ensures var r := Next(CONFUSED, WITHIN, s); r.l == 14 && r.prev == 102 && RunAt(CONFUSED, r.prev, r.l)
  {
    hide TokenBits, Common;
    assert Common(CONFUSED, 0, 7, 0) == 7;
    assert Earlier(CONFUSED, 0, 7) == 0;
  }

  // ------------------------------------------------------------------- a run without a count

  /** The letter "a", n times. */
  function Letters(n: nat): seq<nat> {
    seq(n, _ => 97)
  }

  /** A run past the last form of a count is lost: two bits that fill the last byte, and one behind it, are
      taken for its count. */
  lemma LongRunIsLost(a: Around, n: nat, within: bool)
    requires n >= COUNT_LIMIT + 5
    ensures !Counted(Letters(n), Matching(within, []), START)
    ensures DecodeAll(a, START.mode, Encoded(Letters(n), Matching(within, [])),
      []) == Text(Letters(if a.past(0) then 6 else 5))
  {
    hide DecodeAll, TurnAt, TokenBits, Next, Pad, Emit;
    var text, o := Letters(n), Matching(within, []);
    var s := Say(START, true, Plain(97)).(prev := 97, l := 1);
    FirstLetter(n, within);
    OtherLetters(n, within, s);
    assert Counted(text, o, START) ==> Counted(text, o, s);
    var r := Next(text, o, s);
    var bits := TokenBits(START.mode, Plain(97));
    LetterBits();
    assert Finish(text, o, START) == Finish(text, o, s) == Finish(text, o, r) == r;
    assert |r.bits| == 14 && r.bits == bits + Top(14208, 10);
    assert Encoded(text, o) == bits + (Top(14208, 10) + Pad(14));
    TokenRead(a, START.mode, Plain(97), Top(14208, 10) + Pad(14), []);
    CountLost(a);
    DecodeOn(a, START.mode, Encoded(text, o), [], START.mode, [97], Top(14208, 10) + Pad(14));
  }

  lemma DecodeOn(a: Around, m: Mode, bits: seq<bool>, out: seq<nat>, m': Mode, out': seq<nat>, rest: seq<bool>)
    requires TurnAt(a, m, bits, out) == Go(m', out', rest) && bits != []
    ensures DecodeAll(a, m, bits, out) == DecodeAll(a, m', rest, out')
  {
    hide TurnAt;
  }

  lemma FirstLetter(n: nat, within: bool)
    requires n >= 2
    ensures Next(Letters(n), Matching(within, []), START) == Say(START, true, Plain(97)).(prev := 97, l := 1)
  {
    hide TokenBits, Common, RunLength;
  }

  lemma OtherLetters(n: nat, within: bool, s: State)
    requires n >= COUNT_LIMIT + 5 && s.l == 1 && s.prev == 97
    ensures !CountsFit(Letters(n), Matching(within, []), s)
    ensures var r := Next(Letters(n), Matching(within, []), s);
      r.l == n && r.bits == s.bits + Top(14208, 10) && r.mode == s.mode
  {
    hide Top, Common, Earlier, RunLength;
    var text, k := Letters(n), RunLength(Letters(n), 1);
    assert text[1] == 97 && k == n - 1;
  }

  lemma LetterBits()
    ensures |TokenBits(START.mode, Plain(97))| == 4
  {
    hide Top;
    CodeIsSpelling(65);
    assert Length(65) == 4;
  }

  lemma CountLost(a: Around)
    ensures DecodeAll(a, START.mode, Top(14208, 10) + Pad(14), [97]) == Text(Letters(if a.past(0) then 6 else 5))
  {
    hide Top, TurnAt, CodeAt, Spelling, Number, CountAt;
    SignsSpelled();
    PadSpelled(2);
    assert Pad(14) == [false, false];
    SpelledPlain(a, START.mode, SET1B, 9, [false, false], [97]);
    PadCount(a);
    var k := if a.past(0) then 5 else 4;
    assert [97] + Copies(97, k) == Letters(k + 1);
    assert Drop([false, false], 3) == [];
  }

  /** The second bit of the count is the first behind the input. */
  lemma PadCount(a: Around)
    ensures CountAt(a, [false, false]) == Read(if a.past(0) then 1 else 0, 3)
  {
    hide CodeAt;
    SetRead(1, [false]);
    assert HBITS[1] + [false] == [false, false];
    assert Drop([false, false], 1) == [false];
    assert NumberAt(a, 0, [false], 2) == NumberAt(a, 0, [], 1);
    assert NumberAt(a, 0, [], 1) == if a.past(0) then 1 else 0;
  }
}
