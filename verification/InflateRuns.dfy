/**
 Several steps of inflate at once: whole stretches of a stored block or of a match, and
 what any number of steps keeps.
 */
module InflateRuns {
  import opened BitOps
  import opened BitStream
  import opened InflateSpec
  import opened Lz77
  import opened MatchCopy
  import CodeLookup
  import DecodeTable
  import StaticTrees
  import BlockHeader
  import Adler32

  /** Registers that nothing looks at any more do not matter. */
  ghost predicate Alike(a: State, b: State) {
    && a.(length := 0, offset := 0, extra := 0) == b.(length := 0, offset := 0, extra := 0)
    && (a.mode == COPY || a.mode == LIT || a.mode == LENEXT || a.mode == DIST || a.mode == DISTEXT || a.mode == MATCH
        ==> a.length == b.length)
    && (a.mode == DISTEXT || a.mode == MATCH ==> a.offset == b.offset)
    && (a.mode == LENEXT || a.mode == DISTEXT ==> a.extra == b.extra)
  }

  /** How decoding ends: the mode, the output and the bits left over. */
  datatype Verdict = Verdict(mode: Mode, out: seq<byte>, rest: Bits)

  ghost function Ending(c: Setup, s: State): Verdict
    requires Ok(s)
  {
    var r := Finish(c, s);
    Verdict(r.mode, r.out, r.rest)
  }

  /** b lies on the way from a to its end. */
  ghost predicate Leads(c: Setup, a: State, b: State) {
    Ok(a) && Ok(b) && Ending(c, a) == Ending(c, b) && (a == b || Below(b, a))
  }

  lemma AlikeOk(a: State, b: State)
    requires Ok(a) && Alike(a, b)
    ensures Ok(b)
  {
    hide CodeLookup.GoodCode;
  }

  ghost predicate AlikeSteps(x: Outcome, y: Outcome) {
    (x.Next? <==> y.Next?) && (x.Next? ==> Alike(x.s, y.s))
  }

  lemma AlikeHead(c: Setup, a: State, b: State)
    requires Ok(a) && Ok(b) && Alike(a, b) && a.mode == HEAD
    ensures AlikeSteps(Step(c, a), Step(c, b))
  {
    hide HeaderFails, Step, Ok, Low, Shr, Shl, Xor, Adler32.Check, Swap32, Pow2;
    AtHead(c, a);
    AtHead(c, b);
  }

  lemma AlikeDictId(c: Setup, a: State, b: State)
    requires Ok(a) && Ok(b) && Alike(a, b) && a.mode == DICTID
    ensures AlikeSteps(Step(c, a), Step(c, b))
  {
    hide Step, Ok, Low, Shr, Shl, Xor, Adler32.Check, Swap32, Pow2;
    AtDictId(c, a);
    AtDictId(c, b);
  }

  lemma AlikeStored(c: Setup, a: State, b: State)
    requires Ok(a) && Ok(b) && Alike(a, b) && a.mode == STORED
    ensures AlikeSteps(Step(c, a), Step(c, b))
  {
    hide Step, Ok, Low, Shr, Shl, Xor, Adler32.Check, Swap32, Pow2;
    AtStored(c, a);
    AtStored(c, b);
  }

  lemma AlikeCheck(c: Setup, a: State, b: State)
    requires Ok(a) && Ok(b) && Alike(a, b) && a.mode == CHECK
    ensures AlikeSteps(Step(c, a), Step(c, b))
  {
    hide Step, Ok, Low, Shr, Shl, Xor, Adler32.Check, Swap32, Pow2;
    AtCheck(c, a);
    AtCheck(c, b);
  }

  lemma AlikeType(c: Setup, a: State, b: State)
    requires Ok(a) && Ok(b) && Alike(a, b) && (a.mode == TYPE || a.mode == TABLE)
    ensures AlikeSteps(Step(c, a), Step(c, b))
  {
    hide Step, Ok, Low, Shr, Shl, Xor, CodeLookup.CodeFound, StaticTrees.StaticLit, FixedDist, ZeroRest,
      CodeLookup.GoodCode, CodeLookup.Builds, Adler32.Check, Swap32, BlockHeader.ReadCounts, Pow2, Spread;
    if a.mode == TYPE {
      AtType(c, a);
      AtType(c, b);
    } else {
      AtTable(c, a);
      AtTable(c, b);
    }
  }

  lemma AlikeTrees(c: Setup, a: State, b: State)
    requires Ok(a) && Ok(b) && Alike(a, b) && (a.mode == LENLENS)
    ensures AlikeSteps(Step(c, a), Step(c, b))
  {
    hide Step, Ok, Low, Shr, Shl, Xor, CodeLookup.CodeFound, StaticTrees.StaticLit, FixedDist, ZeroRest,
      CodeLookup.GoodCode, CodeLookup.Builds, Adler32.Check, Swap32, BlockHeader.ReadCounts, Pow2, Spread;
    AtLenLens(c, a);
    AtLenLens(c, b);
  }

  lemma AlikeRepeated(a: State, b: State, bits: nat, l: nat, least: nat, x: nat)
    requires Alike(a, b) && a.mode == CODELENS && bits + x <= a.rest.n && a.nlen + a.ndist <= |a.lens|
    ensures AlikeSteps(Repeated(a, bits, l, least, x), Repeated(b, bits, l, least, x))
  {
    hide Low, Shr, Spread, AlikeSteps, Alike;
    AlikeFields(a, b);
    var copy := least + Low(Shr(a.rest.v, bits), x);
    if a.have + copy > a.nlen + a.ndist {
      AlikeBad(a, b, bits + x);
    } else {
      AlikeNext(a, b, bits + x, Spread(a.lens, a.have, l, copy), a.have + copy);
    }
  }

  lemma AlikeFields(a: State, b: State)
    requires Alike(a, b)
    ensures a.lens == b.lens && a.have == b.have && a.rest == b.rest && a.nlen == b.nlen && a.ndist == b.ndist
      && a.mode == b.mode
  {
  }

  lemma AlikeNext(a: State, b: State, bits: nat, lens: seq<nat>, have: nat)
    requires Alike(a, b) && a.mode == CODELENS && bits <= a.rest.n
    ensures AlikeSteps(Next(Take(a, bits).(lens := lens, have := have)),
      Next(Take(b, bits).(lens := lens, have := have)))
  {
    hide Shr;
  }

  lemma AlikeLength(a: State, b: State)
    requires Ok(a) && Ok(b) && Alike(a, b) && a.mode == CODELENS && a.have < a.nlen + a.ndist
    ensures AlikeSteps(StepLength(a), StepLength(b))
  {
    hide Low, Shr, CodeLookup.CodeFound, CodeLookup.GoodCode, Pow2, Repeated, AlikeSteps;
    var f := CodeLookup.CodeFound(DecodeTable.CODES, a.lcode, a.rest.v);
    if f.bits > a.rest.n {
      BothWait();
    } else if f.val < 16 {
      AlikeNext(a, b, f.bits, a.lens[a.have := f.val], a.have + 1);
    } else {
      var x := if f.val == 16 then 2 else if f.val == 17 then 3 else 7;
      if f.bits + x > a.rest.n {
        BothWait();
      } else if f.val == 16 && a.have == 0 {
        AlikeBad(a, b, f.bits);
      } else {
        AlikeRepeated(a, b, f.bits, if f.val == 16 then a.lens[a.have - 1] else 0, if f.val <= 17 then 3 else 11, x);
      }
    }
  }

  lemma AlikeBad(a: State, b: State, bits: nat)
    requires Alike(a, b) && a.mode == CODELENS && bits <= a.rest.n
    ensures AlikeSteps(Bad(Take(a, bits), LengthRepeat), Bad(Take(b, bits), LengthRepeat))
  {
    hide Shr;
  }

  lemma BothWait()
    ensures AlikeSteps(NeedInput, NeedInput)
  {
  }

  lemma AlikeLengths(c: Setup, a: State, b: State)
    requires Ok(a) && Ok(b) && Alike(a, b) && a.mode == CODELENS
    ensures AlikeSteps(Step(c, a), Step(c, b))
  {
    hide Step, StepLength, StepCodeLens, Ok, AlikeSteps, Alike;
    AlikeFields(a, b);
    AtCodeLens(c, a);
    AtCodeLens(c, b);
    if a.have < a.nlen + a.ndist {
      MoreLengths(c, a);
      MoreLengths(c, b);
      AlikeLength(a, b);
    } else {
      AlikeTables(c, a, b);
    }
  }

  lemma MoreLengths(c: Setup, s: State)
    requires Ok(s) && s.mode == CODELENS && s.have < s.nlen + s.ndist
    ensures StepCodeLens(c, s) == StepLength(s)
  {
    hide StepLength, Ok;
  }

  lemma AlikeTables(c: Setup, a: State, b: State)
    requires Ok(a) && Ok(b) && Alike(a, b) && a.mode == CODELENS && a.have >= a.nlen + a.ndist
    ensures AlikeSteps(StepCodeLens(c, a), StepCodeLens(c, b))
  {
    hide StepLength, CodeLookup.Builds, Alike, AlikeSteps;
    AlikeFields(a, b);
    AlikeFails(a, b, NoEndOfBlock);
    AlikeFails(a, b, LiteralSet);
    AlikeFails(a, b, DistanceSet);
    AlikeBlock(a, b, a.lens[..a.nlen], a.lens[a.nlen..a.nlen + a.ndist]);
  }

  lemma AlikeFails(a: State, b: State, why: Why)
    requires Alike(a, b)
    ensures AlikeSteps(Bad(a, why), Bad(b, why))
  {
  }

  lemma AlikeBlock(a: State, b: State, lit: seq<nat>, dist: seq<nat>)
    requires Alike(a, b)
    ensures AlikeSteps(Next(a.(lcode := lit, dcode := dist, mode := LEN)),
      Next(b.(lcode := lit, dcode := dist, mode := LEN)))
  {
  }

  lemma AlikeCodes(c: Setup, a: State, b: State)
    requires Ok(a) && Ok(b) && Alike(a, b) && (a.mode == LEN || a.mode == LENEXT || a.mode == DIST || a.mode == DISTEXT)
    ensures AlikeSteps(Step(c, a), Step(c, b))
  {
    hide Step, Ok, Low, Shr, Shl, Xor, CodeLookup.CodeFound, StaticTrees.StaticLit, FixedDist, ZeroRest,
      CodeLookup.GoodCode, CodeLookup.Builds, Adler32.Check, Swap32, BlockHeader.ReadCounts, Pow2, Spread;
    if a.mode == LEN {
      AtLen(c, a);
      AtLen(c, b);
    } else if a.mode == LENEXT {
      AtLenExt(c, a);
      AtLenExt(c, b);
    } else if a.mode == DIST {
      AtDist(c, a);
      AtDist(c, b);
    } else {
      AtDistExt(c, a);
      AtDistExt(c, b);
    }
  }

  lemma AlikeMatch(c: Setup, a: State, b: State)
    requires Ok(a) && Ok(b) && Alike(a, b) && a.mode == MATCH
    ensures AlikeSteps(Step(c, a), Step(c, b))
  {
    hide Step, Ok, ZeroRest, CodeLookup.GoodCode, Copy;
    AtMatch(c, a);
    AtMatch(c, b);
  }

  lemma AlikeLit(c: Setup, a: State, b: State)
    requires Ok(a) && Ok(b) && Alike(a, b) && a.mode == LIT
    ensures AlikeSteps(Step(c, a), Step(c, b))
  {
    hide Step, Ok, ZeroRest, CodeLookup.GoodCode;
    AtLit(c, a);
    AtLit(c, b);
  }

  lemma AlikeCopy(c: Setup, a: State, b: State)
    requires Ok(a) && Ok(b) && Alike(a, b) && a.mode == COPY
    ensures AlikeSteps(Step(c, a), Step(c, b))
  {
    hide Step, Ok, ZeroRest, Low, Shr, Pow2, CodeLookup.GoodCode;
    AtCopy(c, a);
    AtCopy(c, b);
  }

  lemma AlikeStep(c: Setup, a: State, b: State)
    requires Ok(a) && Ok(b) && Alike(a, b)
    ensures AlikeSteps(Step(c, a), Step(c, b))
  {
    hide Ok, AlikeSteps, Alike, StepHead, StepType, StepDictId, StepStored, StepCopy, StepTable, StepLenLens,
      StepCodeLens, StepLen, StepDist, StepLenExt, StepDistExt, StepMatch, StepLit, StepCheck;
    AlikeMode(a, b);
    match a.mode {
      case HEAD => AlikeHead(c, a, b);
      case DICTID => AlikeDictId(c, a, b);
      case STORED => AlikeStored(c, a, b);
      case CHECK => AlikeCheck(c, a, b);
      case TYPE => AlikeType(c, a, b);
      case TABLE => AlikeType(c, a, b);
      case LENLENS => AlikeTrees(c, a, b);
      case CODELENS => AlikeLengths(c, a, b);
      case LEN => AlikeCodes(c, a, b);
      case LENEXT => AlikeCodes(c, a, b);
      case DIST => AlikeCodes(c, a, b);
      case DISTEXT => AlikeCodes(c, a, b);
      case MATCH => AlikeMatch(c, a, b);
      case LIT => AlikeLit(c, a, b);
      case COPY => AlikeCopy(c, a, b);
      case DICT => BothStop();
      case DONE => BothStop();
      case BAD(_) => BothStop();
    }
  }

  lemma AlikeMode(a: State, b: State)
    requires Alike(a, b)
    ensures a.mode == b.mode
  {
  }

  lemma BothStop()
    ensures AlikeSteps(Stopped, Stopped)
  {
  }

  lemma {:induction false} AlikeEnd(c: Setup, a: State, b: State)
    requires Ok(a) && Ok(b) && Alike(a, b)
    ensures Ending(c, a) == Ending(c, b)
    decreases a.rest.n, Rank(a.mode), Size(a)
  {
    hide Ok, Step;
    var x, y := Step(c, a), Step(c, b);
    AlikeStep(c, a, b);
    if x.Next? {
      FinishNext(c, a, x.s);
      FinishNext(c, b, y.s);
      AlikeEnd(c, x.s, y.s);
    } else {
      FinishEnd(c, a);
      FinishEnd(c, b);
    }
  }

  /** Arriving somewhere alike will do. */
  lemma LeadsAlike(c: Setup, a: State, b: State, d: State)
    requires Leads(c, a, b) && Below(b, a) && Alike(b, d)
    ensures Leads(c, a, d) && Below(d, a)
  {
    hide Ok, Ending, Finish;
    AlikeOk(b, d);
    AlikeEnd(c, b, d);
  }

  lemma LeadsOn(c: Setup, a: State, b: State, d: State)
    requires Leads(c, a, b) && Leads(c, b, d)
    ensures Leads(c, a, d) && (Below(b, a) || Below(d, b) ==> Below(d, a))
  {
    hide Ok, Ending, Rank, Size;
  }

  lemma LeadsStep(c: Setup, a: State, b: State)
    requires Ok(a) && Step(c, a) == Next(b)
    ensures Leads(c, a, b) && Below(b, a)
  {
    hide Ok, Step, Finish, Below;
    FinishNext(c, a, b);
  }

  /** A state that has copied n bytes of its match. */
  function Matched(s: State, n: nat): State
    requires 1 <= s.offset <= |s.out| && n <= s.length
  {
    s.(out := Copy(s.out, s.offset, n), length := s.length - n, mode := if n == s.length then LEN else MATCH)
  }

  /** The steps of a match are the LZ77 copy. */
  lemma {:induction false} MatchRun(c: Setup, s: State, n: nat)
    requires Ok(s) && s.mode == MATCH && 1 <= n <= s.length && s.offset <= |s.out|
    ensures Leads(c, s, Matched(s, n)) && Below(Matched(s, n), s)
    decreases n
  {
    hide Ok, Finish, Leads, Below;
    assert s.offset > 0 by { MatchOk(s); }
    CopyOne(s.out, s.offset);
    LeadsStep(c, s, Matched(s, 1));
    if n > 1 {
      CopyCopy(s.out, s.offset, 1, n - 1);
      assert Ok(Matched(s, 1)) by { LeadsOk(c, s, Matched(s, 1)); }
      MatchRun(c, Matched(s, 1), n - 1);
      LeadsOn(c, s, Matched(s, 1), Matched(s, n));
    }
  }

  lemma MatchOk(s: State)
    requires Ok(s) && s.mode == MATCH
    ensures s.offset > 0 && s.length > 0
  {
  }

  lemma LeadsOk(c: Setup, a: State, b: State)
    requires Leads(c, a, b)
    ensures Ok(a) && Ok(b) && Ending(c, a) == Ending(c, b)
  {
    hide Ok, Finish;
  }

  /** A state that has copied data of a stored block. */
  function Brought(s: State, data: seq<byte>, rest: Bits): State
    requires |data| <= s.length
  {
    s.(out := s.out + data, length := s.length - |data|, rest := rest)
  }

  lemma ByteNext(b: byte, more: Bits)
    ensures var r := Join(BytesBits([b]), more);
      Low(r.v, 8) == b && Bits(Shr(r.v, 8), r.n - 8) == more && r.n >= 8
  {
    hide Low, Shr, Shl;
    OneByte(b);
    Pow2Byte();
    ReadBack(Bits(b, 8), more.v);
  }

  lemma {:induction false} StoredRun(c: Setup, s: State, data: seq<byte>, rest: Bits)
    requires Ok(s) && s.mode == COPY && 1 <= |data| <= s.length && s.rest == Join(BytesBits(data), rest)
    ensures Leads(c, s, Brought(s, data, rest)) && Below(Brought(s, data, rest), s)
    decreases |data|
  {
    hide Ok, Finish, Leads, Below, BytesBits, Join, Low, Shr;
    var b, more := data[0], data[1..];
    var rest1 := Join(BytesBits(more), rest);
    assert data == [b] + more;
    BytesJoin([b], more);
    JoinAssoc(BytesBits([b]), BytesBits(more), rest);
    ByteNext(b, rest1);
    var s1 := Brought(s, [b], rest1);
    LeadsStep(c, s, s1);
    if more != [] {
      assert Ok(s1) by { LeadsOk(c, s, s1); }
      StoredRun(c, s1, more, rest);
      assert Brought(s1, more, rest) == Brought(s, data, rest);
      LeadsOn(c, s, s1, Brought(s, data, rest));
    } else {
      NoBytes(rest);
      assert [b] == data;
    }
  }

  lemma NoBytes(rest: Bits)
    ensures Join(BytesBits([]), rest) == rest
  {
    JoinNone(rest);
  }

  // -------------------------------------------------------------- output only grows

  lemma StepGrows(c: Setup, s: State, s': State)
    requires Ok(s) && Step(c, s) == Next(s')
    ensures s.out <= s'.out
  {
    hide Low, Shr, Shl, Xor, CodeLookup.CodeFound, StaticTrees.StaticLit, FixedDist, ZeroRest, CodeLookup.GoodCode,
      CodeLookup.Builds, Adler32.Check, Swap32, BlockHeader.ReadCounts, Pow2, Step, Ok, StepLenLens, StepCodeLens;
    match s.mode {
      case HEAD => AtHead(c, s);
      case DICTID => AtDictId(c, s);
      case STORED => AtStored(c, s);
      case CHECK => AtCheck(c, s);
      case TYPE => AtType(c, s);
      case TABLE => AtTable(c, s);
      case LENLENS => TreesKeepOutput(c, s, s');
      case CODELENS => TreesKeepOutput(c, s, s');
      case LEN => AtLen(c, s);
      case LENEXT => AtLenExt(c, s);
      case DIST => AtDist(c, s);
      case DISTEXT => AtDistExt(c, s);
      case MATCH => AtMatch(c, s);
      case LIT => AtLit(c, s);
      case COPY => AtCopy(c, s);
      case DICT => OnlyStops(c, s);
      case DONE => OnlyStops(c, s);
      case BAD(_) => OnlyStops(c, s);
    }
  }

  lemma TreesKeepOutput(c: Setup, s: State, s': State)
    requires Ok(s) && Step(c, s) == Next(s') && (s.mode == LENLENS || s.mode == CODELENS)
    ensures s'.out == s.out
  {
    hide Low, Shr, CodeLookup.CodeFound, ZeroRest, CodeLookup.GoodCode, CodeLookup.Builds, Pow2, Step, Ok;
    if s.mode == LENLENS { AtLenLens(c, s); } else { AtCodeLens(c, s); }
  }

  lemma OnlyStops(c: Setup, s: State)
    requires Ok(s) && (s.mode == DICT || s.mode == DONE || s.mode.BAD?)
    ensures Step(c, s) == Stopped
  {
    hide Ok;
  }

  lemma {:induction false} FinishGrows(c: Setup, s: State)
    requires Ok(s)
    ensures s.out <= Finish(c, s).out
    decreases s.rest.n, Rank(s.mode), Size(s)
  {
    hide Ok, Step;
    var o := Step(c, s);
    if o.Next? {
      StepGrows(c, s, o.s);
      FinishNext(c, s, o.s);
      FinishGrows(c, o.s);
    }
  }
}
