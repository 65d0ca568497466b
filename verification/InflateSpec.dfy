/**
 What inflate computes, one small step at a time on all the bits that are still to
 come: the modes of zlib/inflate.c:658-1272 for raw and zlib streams, with codes in
 place of tables and without any input or output buffer.  `Finish` runs the steps to
 the end.
 */
module InflateSpec {
  import opened BitOps
  import opened Canonical
  import opened DecodeTable
  import opened BitStream
  import opened CodeLookup
  import BlockCodes
  import BlockHeader
  import StaticTrees
  import Adler32
  import InflateTable

  datatype Why =
    | HeaderCheck | Method | WindowSize | BlockKind | StoredLengths | TooManySymbols | CodeLengthsSet
    | LengthRepeat | NoEndOfBlock | LiteralSet | DistanceSet | LiteralCode | DistanceCode | TooFarBack | DataCheck

  datatype Mode =
    | HEAD | DICTID | DICT | TYPE | STORED | COPY | TABLE | LENLENS | CODELENS
    | LEN | LENEXT | DIST | DISTEXT | MATCH | LIT | CHECK | DONE | BAD(why: Why)

  /** Is there a zlib wrapper, and how many entries the two tables may take. */
  datatype Setup = Setup(zlib: bool, enoughLens: nat, enoughDists: nat)

  /** The registers that outlive a step, the output so far and the bits to come. */
  datatype State = State(
    mode: Mode, last: bool, length: nat, offset: nat, extra: nat,
    nlen: nat, ndist: nat, ncode: nat, have: nat, lens: seq<nat>,
    lcode: seq<nat>, dcode: seq<nat>, out: seq<byte>, rest: Bits)

  datatype Outcome = Next(s: State) | NeedInput | Stopped

  const LENS_SIZE: nat := 320
  const CODE_LENGTHS: nat := 19

  ghost predicate InBlock(m: Mode) {
    m == LEN || m == LENEXT || m == DIST || m == DISTEXT || m == MATCH || m == LIT
  }

  /** The code length codes of the first k ranks have been read. */
  ghost predicate ShortUpTo(lens: seq<nat>, k: nat) {
    |lens| == LENS_SIZE && forall r :: 0 <= r < k && r < CODE_LENGTHS ==> lens[BlockHeader.BL_ORDER[r]] <= 7
  }

  ghost predicate Ok(s: State) {
    && |s.lens| == LENS_SIZE && Proper(s.rest)
    && (forall i :: 0 <= i < LENS_SIZE ==> s.lens[i] <= MAXBITS)
    && (s.mode == LENLENS || s.mode == CODELENS ==> 257 <= s.nlen <= 286 && 1 <= s.ndist <= 30)
    && (s.mode == LENLENS ==> s.have <= s.ncode <= CODE_LENGTHS && ShortUpTo(s.lens, s.have))
    && (s.mode == CODELENS ==> s.have <= s.nlen + s.ndist && GoodCode(CODES, s.lcode) && |s.lcode| == CODE_LENGTHS)
    && (InBlock(s.mode) ==> GoodCode(LENS, s.lcode) && GoodCode(DISTS, s.dcode))
    && (s.mode == MATCH ==> 0 < s.length <= 258 && 0 < s.offset <= 0x8000)
    && (s.mode == LENEXT ==> 0 < s.length && s.extra < 16 && s.length + Pow2(s.extra) <= 259)
    && (s.mode == DIST || s.mode == DISTEXT ==> 0 < s.length <= 258)
    && (s.mode == DISTEXT ==> 0 < s.offset && s.extra < 16 && s.offset + Pow2(s.extra) <= 0x8001)
  }

  /** At the start of a stream. */
  function Opened(stream: seq<byte>): State {
    State(HEAD, false, 0, 0, 0, 0, 0, 0, 0, seq(LENS_SIZE, _ => 0), [], [], [], BytesBits(stream))
  }

  lemma OpenedOk(stream: seq<byte>)
    ensures Ok(Opened(stream))
  {
    LoadBound(stream);
  }

  function Take(s: State, n: nat): State
    requires n <= s.rest.n
  {
    s.(rest := Bits(Shr(s.rest.v, n), s.rest.n - n))
  }

  function Peek(s: State, n: nat): nat {
    Low(s.rest.v, n)
  }

  function Bad(s: State, why: Why): Outcome {
    Next(s.(mode := BAD(why)))
  }

  // ----------------------------------------------------------- wrapper and block

  /** ZSWAP32. */
  function Swap32(x: nat): nat {
    Shl(Low(x, 8), 24) + Shl(Low(Shr(x, 8), 8), 16) + Shl(Low(Shr(x, 16), 8), 8) + Low(Shr(x, 24), 8)
  }

  /** The first two bytes, as a big-endian number, are no multiple of 31. */
  predicate HeaderFails(h: nat) {
    (Shl(Low(h, 8), 8) + Shr(h, 8)) % 31 != 0
  }

  function StepHead(c: Setup, s: State): Outcome {
    if !c.zlib then Next(s.(mode := TYPE))
    else if s.rest.n < 16 then NeedInput
    else
      var h := Peek(s, 16);
      if HeaderFails(h) then Bad(s, HeaderCheck)
      else if Low(h, 4) != 8 then Bad(s, Method)
      else if Low(Shr(s.rest.v, 4), 4) + 8 > 15 then Bad(Take(s, 4), WindowSize)
      else Next(Take(s, 16).(mode := if Shr(h, 13) % 2 == 1 then DICTID else TYPE))
  }

  function StepDictId(s: State): Outcome {
    if s.rest.n < 32 then NeedInput else Next(Take(s, 32).(mode := DICT))
  }

  function FixedDist(): (lens: seq<nat>)
    ensures |lens| == 32
  {
    StaticTrees.StaticDist(32)
  }

  function StepType(s: State): Outcome {
    if s.last then Next(Take(s, s.rest.n % 8).(mode := CHECK))
    else if s.rest.n < 3 then NeedInput
    else
      var s' := Take(s, 3).(last := Peek(s, 1) == 1);
      match Low(Shr(s.rest.v, 1), 2)
      case 0 => Next(s'.(mode := STORED))
      case 1 => Next(s'.(mode := LEN, lcode := StaticTrees.StaticLit(), dcode := FixedDist()))
      case 2 => Next(s'.(mode := TABLE))
      case _ => Bad(s', BlockKind)
  }

  function StepStored(s: State): Outcome {
    if s.rest.n % 8 != 0 then Next(Take(s, s.rest.n % 8))
    else if s.rest.n < 32 then NeedInput
    else if Peek(s, 16) != Xor(Low(Shr(s.rest.v, 16), 16), 0xffff) then Bad(s, StoredLengths)
    else Next(Take(s, 32).(length := Peek(s, 16), mode := COPY))
  }

  function StepCopy(s: State): Outcome {
    if s.length == 0 then Next(s.(mode := TYPE))
    else if s.rest.n < 8 then NeedInput
    else
      Pow2Byte();
      Next(Take(s, 8).(length := s.length - 1, out := s.out + [Peek(s, 8)]))
  }

  // ---------------------------------------------------------------- the two trees

  function StepTable(s: State): Outcome {
    if s.rest.n < 14 then NeedInput
    else
      var c := BlockHeader.ReadCounts(s.rest.v);
      var s' := Take(s, 14).(nlen := c.nlen, ndist := c.ndist, ncode := c.ncode);
      if c.nlen > 286 || c.ndist > 30 then Bad(s', TooManySymbols)
      else Next(s'.(have := 0, mode := LENLENS))
  }

  /** lens with the code length codes of rank k and up made zero. */
  function ZeroRest(lens: seq<nat>, k: nat): (r: seq<nat>)
    requires |lens| == LENS_SIZE
    ensures |r| == LENS_SIZE
    decreases CODE_LENGTHS - k
  {
    if k >= CODE_LENGTHS then lens else ZeroRest(lens[BlockHeader.BL_ORDER[k] := 0], k + 1)
  }

  lemma {:induction false} ZeroRestValid(lens: seq<nat>, k: nat)
    requires |lens| == LENS_SIZE && forall i :: 0 <= i < LENS_SIZE ==> lens[i] <= MAXBITS
    ensures forall i :: 0 <= i < LENS_SIZE ==> ZeroRest(lens, k)[i] <= MAXBITS
    decreases CODE_LENGTHS - k
  {
    if k < CODE_LENGTHS {
      BlockHeader.OrderRanks(k);
      ZeroRestValid(lens[BlockHeader.BL_ORDER[k] := 0], k + 1);
    }
  }

  ghost function StepLenLens(s: State): Outcome
    requires Ok(s) && s.mode == LENLENS
  {
    if s.have < s.ncode then
      if s.rest.n < 3 then NeedInput
      else
        BlockHeader.OrderRanks(s.have);
        Next(Take(s, 3).(lens := s.lens[BlockHeader.BL_ORDER[s.have] := Peek(s, 3)], have := s.have + 1))
    else
      ZeroRestValid(s.lens, s.have);
      var lens := ZeroRest(s.lens, s.have);
      var s' := s.(lens := lens, have := CODE_LENGTHS);
      if CodeLensFit(lens[..CODE_LENGTHS]) then
        Next(s'.(have := 0, lcode := lens[..CODE_LENGTHS], mode := CODELENS))
      else Bad(s', CodeLengthsSet)
  }

  /** `inflate_table(CODES, …)` with index bits 7 returns 0. */
  ghost predicate CodeLensFit(lens: seq<nat>)
    requires |lens| == CODE_LENGTHS && ValidLens(lens)
  {
    GoodCode(CODES, lens)
  }

  /** Some lengths replaced by l. */
  function Spread(lens: seq<nat>, have: nat, l: nat, copy: nat): (r: seq<nat>)
    requires have + copy <= |lens|
    ensures |r| == |lens|
  {
    lens[..have] + seq(copy, _ => l) + lens[have + copy..]
  }

  /** A repeat of l, `least` or more times, the number in x bits after the code of `bits` bits. */
  function Repeated(s: State, bits: nat, l: nat, least: nat, x: nat): Outcome
    requires bits + x <= s.rest.n && s.nlen + s.ndist <= |s.lens|
  {
    var copy := least + Low(Shr(s.rest.v, bits), x);
    var s' := Take(s, bits + x);
    if s.have + copy > s.nlen + s.ndist then Bad(s', LengthRepeat)
    else Next(s'.(lens := Spread(s.lens, s.have, l, copy), have := s.have + copy))
  }

  ghost function StepLength(s: State): Outcome
    requires Ok(s) && s.mode == CODELENS && s.have < s.nlen + s.ndist
  {
    var f := CodeFound(CODES, s.lcode, s.rest.v);
    if f.bits > s.rest.n then NeedInput
    else if f.val < 16 then
      Next(Take(s, f.bits).(lens := s.lens[s.have := f.val], have := s.have + 1))
    else if f.val == 16 then
      if f.bits + 2 > s.rest.n then NeedInput
      else if s.have == 0 then Bad(Take(s, f.bits), LengthRepeat)
      else Repeated(s, f.bits, s.lens[s.have - 1], 3, 2)
    else if f.val == 17 then
      if f.bits + 3 > s.rest.n then NeedInput else Repeated(s, f.bits, 0, 3, 3)
    else
      if f.bits + 7 > s.rest.n then NeedInput else Repeated(s, f.bits, 0, 11, 7)
  }

  ghost function StepCodeLens(c: Setup, s: State): Outcome
    requires Ok(s) && s.mode == CODELENS
  {
    if s.have < s.nlen + s.ndist then StepLength(s)
    else
      var lit, dist := s.lens[..s.nlen], s.lens[s.nlen..s.nlen + s.ndist];
      if s.lens[BlockCodes.END_BLOCK] == 0 then Bad(s, NoEndOfBlock)
      else if !Builds(LENS, lit, 9, c.enoughLens) then Bad(s, LiteralSet)
      else if !Builds(DISTS, dist, 6, c.enoughDists) then Bad(s, DistanceSet)
      else Next(s.(lcode := lit, dcode := dist, mode := LEN))
  }

  // ------------------------------------------------------------- symbols of a block

  ghost function StepLen(s: State): Outcome
    requires |s.lcode| <= MaxCodes(LENS)
  {
    var f := CodeFound(LENS, s.lcode, s.rest.v);
    if f.bits > s.rest.n then NeedInput
    else
      var s' := Take(s, f.bits).(length := f.val);
      if f.op == 0 then Next(s'.(mode := LIT))
      else if BlockCodes.Flag(f.op, 32) then Next(s'.(mode := TYPE))
      else if BlockCodes.Flag(f.op, 64) then Bad(s', LiteralCode)
      else Next(s'.(extra := f.op % 16, mode := LENEXT))
  }

  function StepLenExt(s: State): Outcome {
    if s.extra > s.rest.n then NeedInput
    else Next(Take(s, s.extra).(length := s.length + Peek(s, s.extra), mode := DIST))
  }

  ghost function StepDist(s: State): Outcome
    requires |s.dcode| <= MaxCodes(DISTS)
  {
    var f := CodeFound(DISTS, s.dcode, s.rest.v);
    if f.bits > s.rest.n then NeedInput
    else if BlockCodes.Flag(f.op, 64) then Bad(Take(s, f.bits), DistanceCode)
    else Next(Take(s, f.bits).(offset := f.val, extra := f.op % 16, mode := DISTEXT))
  }

  function StepDistExt(s: State): Outcome {
    if s.extra > s.rest.n then NeedInput
    else Next(Take(s, s.extra).(offset := s.offset + Peek(s, s.extra), mode := MATCH))
  }

  /** One byte of a match. */
  function StepMatch(s: State): Outcome
    requires s.length > 0 && s.offset > 0
  {
    if s.offset > |s.out| then Bad(s, TooFarBack)
    else Next(s.(out := s.out + [s.out[|s.out| - s.offset]], length := s.length - 1,
                 mode := if s.length == 1 then LEN else MATCH))
  }

  function StepLit(s: State): Outcome {
    Next(s.(out := s.out + [s.length % 256], mode := LEN))
  }

  function StepCheck(c: Setup, s: State): Outcome {
    if !c.zlib then Next(s.(mode := DONE))
    else if s.rest.n < 32 then NeedInput
    else if Swap32(Peek(s, 32)) != Adler32.Check(1, s.out) then Bad(s, DataCheck)
    else Next(Take(s, 32).(mode := DONE))
  }

  // -------------------------------------------------------------------- all modes

  ghost function Step(c: Setup, s: State): Outcome
    requires Ok(s)
  {
    match s.mode
    case HEAD => StepHead(c, s)
    case DICTID => StepDictId(s)
    case TYPE => StepType(s)
    case STORED => StepStored(s)
    case COPY => StepCopy(s)
    case TABLE => StepTable(s)
    case LENLENS => StepLenLens(s)
    case CODELENS => StepCodeLens(c, s)
    case LEN => StepLen(s)
    case LENEXT => StepLenExt(s)
    case DIST => StepDist(s)
    case DISTEXT => StepDistExt(s)
    case MATCH => StepMatch(s)
    case LIT => StepLit(s)
    case CHECK => StepCheck(c, s)
    case DICT => Stopped
    case DONE => Stopped
    case BAD(_) => Stopped
  }

  lemma AtHead(c: Setup, s: State)
    requires Ok(s) && s.mode == HEAD
    ensures Step(c, s) == StepHead(c, s)
  {
    hide StepHead, GoodCode;
  }

  lemma AtDictId(c: Setup, s: State)
    requires Ok(s) && s.mode == DICTID
    ensures Step(c, s) == StepDictId(s)
  {
    hide StepDictId, GoodCode;
  }

  lemma AtType(c: Setup, s: State)
    requires Ok(s) && s.mode == TYPE
    ensures Step(c, s) == StepType(s)
  {
    hide StepType, GoodCode;
  }

  lemma AtStored(c: Setup, s: State)
    requires Ok(s) && s.mode == STORED
    ensures Step(c, s) == StepStored(s)
  {
    hide StepStored, GoodCode;
  }

  lemma AtCopy(c: Setup, s: State)
    requires Ok(s) && s.mode == COPY
    ensures Step(c, s) == StepCopy(s)
  {
    hide StepCopy, GoodCode;
  }

  lemma AtTable(c: Setup, s: State)
    requires Ok(s) && s.mode == TABLE
    ensures Step(c, s) == StepTable(s)
  {
    hide StepTable, GoodCode;
  }

  lemma AtLenLens(c: Setup, s: State)
    requires Ok(s) && s.mode == LENLENS
    ensures Step(c, s) == StepLenLens(s)
  {
    hide StepLenLens, GoodCode;
  }

  lemma AtCodeLens(c: Setup, s: State)
    requires Ok(s) && s.mode == CODELENS
    ensures Step(c, s) == StepCodeLens(c, s)
  {
    hide StepCodeLens, GoodCode;
  }

  lemma AtLen(c: Setup, s: State)
    requires Ok(s) && s.mode == LEN
    ensures Step(c, s) == StepLen(s)
  {
    hide StepLen, GoodCode;
  }

  lemma AtLenExt(c: Setup, s: State)
    requires Ok(s) && s.mode == LENEXT
    ensures Step(c, s) == StepLenExt(s)
  {
    hide StepLenExt, GoodCode;
  }

  lemma AtDist(c: Setup, s: State)
    requires Ok(s) && s.mode == DIST
    ensures Step(c, s) == StepDist(s)
  {
    hide StepDist, GoodCode;
  }

  lemma AtDistExt(c: Setup, s: State)
    requires Ok(s) && s.mode == DISTEXT
    ensures Step(c, s) == StepDistExt(s)
  {
    hide StepDistExt, GoodCode;
  }

  lemma AtMatch(c: Setup, s: State)
    requires Ok(s) && s.mode == MATCH
    ensures Step(c, s) == StepMatch(s)
  {
    hide StepMatch, GoodCode;
  }

  lemma AtLit(c: Setup, s: State)
    requires Ok(s) && s.mode == LIT
    ensures Step(c, s) == StepLit(s)
  {
    hide StepLit, GoodCode;
  }

  lemma AtCheck(c: Setup, s: State)
    requires Ok(s) && s.mode == CHECK
    ensures Step(c, s) == StepCheck(c, s)
  {
    hide StepCheck, GoodCode;
  }

  /** Steps that use no bits go down in rank, or shorten the match. */
  function Rank(m: Mode): nat {
    match m
    case BAD(_) => 0
    case DONE => 0
    case DICT => 0
    case DICTID => 1
    case CHECK => 1
    case TYPE => 2
    case LEN => 3
    case COPY => 4
    case MATCH => 4
    case LIT => 4
    case DISTEXT => 5
    case STORED => 5
    case CODELENS => 5
    case DIST => 6
    case LENLENS => 6
    case LENEXT => 7
    case TABLE => 7
    case HEAD => 8
  }

  function Size(s: State): nat {
    if s.mode == MATCH then s.length else 0
  }

  ghost predicate Below(s': State, s: State) {
    || s'.rest.n < s.rest.n
    || (s'.rest.n == s.rest.n && Rank(s'.mode) < Rank(s.mode))
    || (s'.rest.n == s.rest.n && Rank(s'.mode) == Rank(s.mode) && Size(s') < Size(s))
  }

  ghost predicate GoodStep(s: State, o: Outcome) {
    o.Next? ==> Ok(o.s) && Below(o.s, s)
  }

  // ------------------------------------------------------- every step is a good one

  lemma TakeOk(s: State, n: nat)
    requires Proper(s.rest) && n <= s.rest.n
    ensures Proper(Take(s, n).rest)
  {
    hide Shr, Pow2;
    ShrBound(s.rest.v, n, s.rest.n - n);
  }

  lemma LowBelow(x: nat, k: nat, m: nat)
    requires Pow2(k) <= m
    ensures Low(x, k) < m
  {
  }

  lemma GoodHead(c: Setup, s: State)
    requires Ok(s) && s.mode == HEAD
    ensures GoodStep(s, StepHead(c, s))
  {
    hide Low, Shr, Shl, Pow2, GoodCode;
    if s.rest.n >= 16 {
      TakeOk(s, 16);
      TakeOk(s, 4);
    }
  }

  lemma GoodType(s: State)
    requires Ok(s) && s.mode == TYPE
    ensures GoodStep(s, StepType(s))
  {
    hide Low, Shr, Shl, Pow2, GoodCode, StaticTrees.StaticLit, FixedDist;
    FixedGood();
    TakeOk(s, s.rest.n % 8);
    if s.rest.n >= 3 {
      TakeOk(s, 3);
    }
  }

  lemma FixedGood()
    ensures GoodCode(LENS, StaticTrees.StaticLit()) && GoodCode(DISTS, FixedDist())
  {
    FixedLitKraft();
    FixedDistKraft();
    Pow2Fifteen();
  }

  lemma Pow2Fifteen()
    ensures Pow2(15) == 0x8000 && Pow2(MAXBITS) == 0x8000
  {
    Pow2Byte();
    assert Pow2(11) == 8 * Pow2(8);
    assert Pow2(14) == 8 * Pow2(11);
  }

  lemma {:induction false} FixedLitBelow(n: nat)
    requires n <= 288
    ensures KraftBelow(StaticTrees.StaticLit(), n) ==
      if n <= 144 then 128 * n else if n <= 256 then 128 * 144 + 64 * (n - 144)
      else if n <= 280 then 128 * 144 + 64 * 112 + 256 * (n - 256)
      else 128 * 144 + 64 * 112 + 256 * 24 + 128 * (n - 280)
  {
    assert Pow2(6) == 64 && Pow2(7) == 128 && Pow2(8) == 256;
    if n != 0 { FixedLitBelow(n - 1); }
  }

  lemma FixedLitKraft()
    ensures ValidLens(StaticTrees.StaticLit()) && Kraft(StaticTrees.StaticLit()) == 0x8000
  {
    hide Pow2, KraftBelow;
    FixedLitBelow(288);
  }

  lemma {:induction false} FixedDistBelow(n: nat)
    requires n <= 32
    ensures ValidLens(FixedDist()) && KraftBelow(FixedDist(), n) == 1024 * n
  {
    assert Pow2(10) == 1024;
    if n != 0 { FixedDistBelow(n - 1); }
  }

  lemma FixedDistKraft()
    ensures ValidLens(FixedDist()) && Kraft(FixedDist()) == 0x8000
  {
    FixedDistBelow(32);
  }

  lemma GoodStored(s: State)
    requires Ok(s)
    ensures s.mode == DICTID ==> GoodStep(s, StepDictId(s))
    ensures s.mode == STORED ==> GoodStep(s, StepStored(s))
  {
    hide Low, Shr, Shl, Pow2, GoodCode, Xor;
    TakeOk(s, s.rest.n % 8);
    if s.rest.n >= 32 { TakeOk(s, 32); }
  }

  lemma GoodCopy(s: State)
    requires Ok(s) && s.mode == COPY
    ensures GoodStep(s, StepCopy(s))
  {
    hide Low, Shr, Shl, Pow2, GoodCode;
    if s.rest.n >= 8 { TakeOk(s, 8); }
  }

  lemma GoodTable(s: State)
    requires Ok(s) && s.mode == TABLE
    ensures GoodStep(s, StepTable(s))
  {
    hide Low, Shr, Shl, Pow2, GoodCode, BlockHeader.ReadCounts;
    assert |s.lens| == LENS_SIZE ==> ShortUpTo(s.lens, 0);
    CountsBound(s.rest.v);
    if s.rest.n >= 14 { TakeOk(s, 14); }
  }

  lemma CountsBound(h: nat)
    ensures var c := BlockHeader.ReadCounts(h); 257 <= c.nlen && 1 <= c.ndist && c.ncode <= CODE_LENGTHS
  {
    hide Low, Shr, Pow2;
    FourBits(Shr(Shr(h, 5), 5));
  }

  lemma FourBits(v: nat)
    ensures Low(v, 4) < 16
  {
    assert Pow2(4) == 16;
  }

  lemma GoodLenLens(s: State)
    requires Ok(s) && s.mode == LENLENS
    ensures GoodStep(s, StepLenLens(s))
  {
    hide Low, Shr, Pow2, ZeroRest, InflateTable.Acceptable, ShortUpTo;
    if s.have < s.ncode {
      if s.rest.n >= 3 {
        ThreeBits(s.rest.v);
        ShortNext(s.lens, s.have, Peek(s, 3));
        TakeOk(s, 3);
      }
    } else {
      ZeroRestValid(s.lens, s.have);
    }
  }

  lemma ShortNext(lens: seq<nat>, k: nat, x: nat)
    requires ShortUpTo(lens, k) && k < CODE_LENGTHS && x <= 7
    ensures BlockHeader.BL_ORDER[k] < CODE_LENGTHS && ShortUpTo(lens[BlockHeader.BL_ORDER[k] := x], k + 1)
  {
    BlockHeader.OrderRanks(k);
    forall r | 0 <= r < k + 1 && r < CODE_LENGTHS ensures BlockHeader.BL_ORDER[r] < CODE_LENGTHS {
      BlockHeader.OrderRanks(r);
    }
  }

  /** All nineteen. */
  lemma ShortAll(lens: seq<nat>)
    requires ShortUpTo(lens, CODE_LENGTHS)
    ensures forall i :: 0 <= i < CODE_LENGTHS ==> lens[i] <= 7
  {
    forall i | 0 <= i < CODE_LENGTHS ensures lens[i] <= 7 {
      BlockHeader.OrderRanks(i);
    }
  }

  lemma {:induction false} ShortZero(lens: seq<nat>, k: nat)
    requires ShortUpTo(lens, k)
    ensures ShortUpTo(ZeroRest(lens, k), CODE_LENGTHS)
    decreases CODE_LENGTHS - k
  {
    if k < CODE_LENGTHS {
      ShortNext(lens, k, 0);
      ShortZero(lens[BlockHeader.BL_ORDER[k] := 0], k + 1);
    }
  }

  lemma ThreeBits(v: nat)
    ensures Low(v, 3) < 8
  {
    assert Pow2(3) == 8;
  }

  lemma GoodRepeated(s: State, bits: nat, l: nat, least: nat, x: nat)
    requires Ok(s) && s.mode == CODELENS && bits + x <= s.rest.n && l <= MAXBITS && bits > 0
    ensures GoodStep(s, Repeated(s, bits, l, least, x))
  {
    hide Low, Shr, Pow2, GoodCode;
    TakeOk(s, bits + x);
  }

  lemma GoodLength(s: State)
    requires Ok(s) && s.mode == CODELENS && s.have < s.nlen + s.ndist
    ensures GoodStep(s, StepLength(s))
  {
    hide Low, Shr, Pow2, GoodCode, CodeFound, Repeated;
    var f := CodeFound(CODES, s.lcode, s.rest.v);
    if f.bits <= s.rest.n { TakeOk(s, f.bits); }
    if f.bits + 2 <= s.rest.n && s.have > 0 { GoodRepeated(s, f.bits, s.lens[s.have - 1], 3, 2); }
    if f.bits + 3 <= s.rest.n { GoodRepeated(s, f.bits, 0, 3, 3); }
    if f.bits + 7 <= s.rest.n { GoodRepeated(s, f.bits, 0, 11, 7); }
  }

  lemma GoodCodeLens(c: Setup, s: State)
    requires Ok(s) && s.mode == CODELENS
    ensures GoodStep(s, StepCodeLens(c, s))
  {
    hide StepLength, InflateTable.Acceptable;
    if s.have < s.nlen + s.ndist { GoodLength(s); }
  }

  /** What a literal or length entry that is no error can be. */
  lemma LengthFound(lens: seq<nat>, h: nat)
    requires |lens| <= MaxCodes(LENS)
    ensures var f := CodeFound(LENS, lens, h); LitLenEntry(f.op, f.val)
  {
    hide RevCode, Low, LitLenEntry;
    forall s: nat | s < MaxCodes(LENS) ensures LitLenEntry(SymbolOp(LENS, s), SymbolVal(LENS, s)) {
      LengthOf(s);
    }
    NotLength();
  }

  /** A literal, a length, the end of the block or an invalid code. */
  ghost predicate LitLenEntry(op: nat, val: nat) {
    && (IsLength(op) ==> LengthEntry(op, val))
    && (op == 0 || op >= 16) && (op != 0 && !IsLength(op) ==> !BlockCodes.Flag(op, 16) && BlockCodes.Flag(op, 64))
  }

  ghost predicate IsLength(op: nat) {
    op != 0 && !BlockCodes.Flag(op, 32) && !BlockCodes.Flag(op, 64)
  }

  ghost predicate LengthEntry(op: nat, val: nat) {
    val >= 3 && op >= 16 && op % 16 <= 5 && val + Pow2(op % 16) <= 259 && BlockCodes.Flag(op, 16)
  }

  ghost predicate DistanceEntry(op: nat, val: nat) {
    op >= 16 && (BlockCodes.Flag(op, 16) <==> !BlockCodes.Flag(op, 64))
    && (!BlockCodes.Flag(op, 64) ==> val > 0 && op % 16 <= 13 && val + Pow2(op % 16) <= 0x8001)
  }

  lemma NotLength()
    ensures LitLenEntry(64, 0)
  {
  }

  lemma Powers()
    ensures Pow2(0) == 1 && Pow2(1) == 2 && Pow2(2) == 4 && Pow2(3) == 8 && Pow2(4) == 16 && Pow2(5) == 32
      && Pow2(6) == 64
    ensures Pow2(7) == 128 && Pow2(8) == 256 && Pow2(9) == 512 && Pow2(10) == 1024 && Pow2(11) == 2048
      && Pow2(12) == 4096 && Pow2(13) == 8192
  {
    Pow2Byte();
    assert Pow2(11) == 8 * Pow2(8);
  }

  lemma LengthOf(s: nat)
    requires s < MaxCodes(LENS)
    ensures LitLenEntry(SymbolOp(LENS, s), SymbolVal(LENS, s))
  {
    Powers();
    hide Pow2;
  }

  lemma DistFound(lens: seq<nat>, h: nat)
    requires |lens| <= MaxCodes(DISTS)
    ensures var f := CodeFound(DISTS, lens, h); DistanceEntry(f.op, f.val)
  {
    hide RevCode, Low, DistanceEntry;
    forall s: nat | s < MaxCodes(DISTS) ensures DistanceEntry(SymbolOp(DISTS, s), SymbolVal(DISTS, s)) {
      DistOf(s);
    }
    NotDistance();
  }

  lemma NotDistance()
    ensures DistanceEntry(64, 0)
  {
  }

  lemma NearOf(s: nat)
    requires s < 16
    ensures DistanceEntry(SymbolOp(DISTS, s), SymbolVal(DISTS, s))
  {
    hide Pow2;
    Powers();
  }

  lemma DistOf(s: nat)
    requires s < MaxCodes(DISTS)
    ensures DistanceEntry(SymbolOp(DISTS, s), SymbolVal(DISTS, s))
  {
    hide Pow2;
    Powers();
    if s < 16 { NearOf(s); }
  }

  lemma GoodSymbols(c: Setup, s: State)
    requires Ok(s)
    ensures s.mode == LEN ==> GoodStep(s, StepLen(s))
    ensures s.mode == DIST ==> GoodStep(s, StepDist(s))
  {
    hide Low, Shr, Pow2, InflateTable.Acceptable, CodeFound;
    if s.mode == LEN {
      var f := CodeFound(LENS, s.lcode, s.rest.v);
      LengthFound(s.lcode, s.rest.v);
      if f.bits <= s.rest.n { TakeOk(s, f.bits); }
    } else if s.mode == DIST {
      var f := CodeFound(DISTS, s.dcode, s.rest.v);
      DistFound(s.dcode, s.rest.v);
      if f.bits <= s.rest.n { TakeOk(s, f.bits); }
    }
  }

  lemma GoodExt(s: State)
    requires Ok(s)
    ensures s.mode == LENEXT ==> GoodStep(s, StepLenExt(s))
    ensures s.mode == DISTEXT ==> GoodStep(s, StepDistExt(s))
  {
    hide Low, Shr, Pow2, GoodCode;
    if s.extra <= s.rest.n { TakeOk(s, s.extra); }
  }

  lemma GoodOutput(c: Setup, s: State)
    requires Ok(s)
    ensures s.mode == MATCH ==> GoodStep(s, StepMatch(s))
    ensures s.mode == LIT ==> GoodStep(s, StepLit(s))
    ensures s.mode == CHECK ==> GoodStep(s, StepCheck(c, s))
  {
    hide Low, Shr, Pow2, GoodCode, Adler32.Check, Swap32, Peek;
    if 32 <= s.rest.n { TakeOk(s, 32); }
  }

  lemma StepGood(c: Setup, s: State)
    requires Ok(s)
    ensures GoodStep(s, Step(c, s))
  {
    hide GoodStep, StepHead, StepType, StepDictId, StepStored, StepCopy, StepTable, StepLenLens, StepCodeLens,
      StepLen, StepDist, StepLenExt, StepDistExt, StepMatch, StepLit, StepCheck, GoodCode;
    match s.mode {
      case HEAD => GoodHead(c, s);
      case DICTID => GoodStored(s);
      case TYPE => GoodType(s);
      case STORED => GoodStored(s);
      case COPY => GoodCopy(s);
      case TABLE => GoodTable(s);
      case LENLENS => GoodLenLens(s);
      case CODELENS => GoodCodeLens(c, s);
      case LEN => GoodSymbols(c, s);
      case DIST => GoodSymbols(c, s);
      case LENEXT => GoodExt(s);
      case DISTEXT => GoodExt(s);
      case MATCH => GoodOutput(c, s);
      case LIT => GoodOutput(c, s);
      case CHECK => GoodOutput(c, s);
      case DICT => Halts(s);
      case DONE => Halts(s);
      case BAD(_) => Halts(s);
    }
  }

  lemma Halts(s: State)
    ensures GoodStep(s, Stopped) && GoodStep(s, NeedInput)
  {
  }

  // ------------------------------------------------------------------ to the end

  /** The state in which the bits to come leave the decoder: an end, or waiting for bits. */
  ghost function Finish(c: Setup, s: State): (r: State)
    requires Ok(s)
    ensures Ok(r) && !Step(c, r).Next?
    decreases s.rest.n, Rank(s.mode), Size(s)
  {
    StepGood(c, s);
    var o := Step(c, s);
    if o.Next? then Finish(c, o.s) else s
  }

  lemma FinishNext(c: Setup, s: State, s': State)
    requires Ok(s) && Step(c, s) == Next(s')
    ensures Ok(s') && Below(s', s) && Finish(c, s) == Finish(c, s')
  {
    hide Step, Ok;
    StepGood(c, s);
  }

  lemma FinishEnd(c: Setup, s: State)
    requires Ok(s) && !Step(c, s).Next?
    ensures Finish(c, s) == s
  {
    hide Step, Ok;
  }
}
