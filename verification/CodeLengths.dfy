/**
 The code lengths of a dynamic block as bits (section 3.2.7 of RFC 1951): what
 `send_tree` writes and what inflate's CODELENS state makes of it.
 */
module CodeLengths {
  import opened BitOps
  import opened Canonical
  import opened RunLengths
  import opened BitStream
  import opened CodeReading

  // --------------------------------------------------------------- one token

  const REP_3_6: nat := 16
  const REPZ_3_10: nat := 17
  const REPZ_11_138: nat := 18
  const BL_CODES: nat := 19

  function SymbolOf(t: Token): nat {
    match t
    case Length(l) => l
    case Rep(_) => REP_3_6
    case Zeros(_) => REPZ_3_10
    case ManyZeros(_) => REPZ_11_138
  }

  function ExtraOf(t: Token): Bits
    requires Sendable(t)
  {
    match t
    case Length(_) => NoBits
    case Rep(times) => Bits(times - 3, 2)
    case Zeros(times) => Bits(times - 3, 3)
    case ManyZeros(times) => Bits(times - 11, 7)
  }

  /** The token can be sent with code lengths bl for the 19 symbols. */
  ghost predicate HasCode(bl: seq<nat>, t: Token) {
    Sendable(t) && |bl| == BL_CODES && SymbolOf(t) < BL_CODES && bl[SymbolOf(t)] != 0
  }

  ghost predicate BlCode(bl: seq<nat>) {
    |bl| == BL_CODES && ValidLens(bl) && Kraft(bl) == Pow2(MAXBITS) && forall i :: 0 <= i < |bl| ==> bl[i] <= 7
  }

  ghost function TokenBits(bl: seq<nat>, t: Token): Bits
    requires HasCode(bl, t)
  {
    Join(CodeOf(bl, SymbolOf(t)), ExtraOf(t))
  }

  ghost predicate HaveCodes(bl: seq<nat>, ts: seq<Token>) {
    forall t :: t in ts ==> HasCode(bl, t)
  }

  ghost function TokensBits(bl: seq<nat>, ts: seq<Token>): Bits
    requires HaveCodes(bl, ts)
    decreases |ts|
  {
    if ts == [] then NoBits else Join(TokenBits(bl, ts[0]), TokensBits(bl, ts[1..]))
  }

  // ------------------------------------------------------------------ reading

  lemma ExtraBack(t: Token, rest: nat)
    requires Sendable(t)
    ensures Low(Followed(ExtraOf(t), rest), ExtraOf(t).n) == ExtraOf(t).v
    ensures Shr(Followed(ExtraOf(t), rest), ExtraOf(t).n) == rest
  {
    assert Pow2(2) == 4 && Pow2(3) == 8 && Pow2(7) == 128 && Pow2(0) == 1;
    FollowedBack(ExtraOf(t), rest);
  }

  lemma {:induction false} ExpandGrows(out: seq<nat>, ts: seq<Token>, final: seq<nat>)
    requires Expand(out, ts) == Lengths(final)
    ensures |out| <= |final|
    decreases |ts|
  {
    if ts != [] { ExpandGrows(out + Added(out, ts[0]), ts[1..], final); }
  }

  /** Expanding after other lengths changes nothing, as long as nothing repeats them. */
  lemma {:induction false} ExpandAfter(before: seq<nat>, out: seq<nat>, ts: seq<Token>, final: seq<nat>)
    requires Expand(out, ts) == Lengths(final)
    ensures Expand(before + out, ts) == Lengths(before + final)
    decreases |ts|
  {
    if ts != [] {
      assert before + (out + Added(out, ts[0])) == (before + out) + Added(before + out, ts[0]);
      ExpandAfter(before, out + Added(out, ts[0]), ts[1..], final);
    }
  }

  // ------------------------------------------------------------------ sending

  lemma {:induction false} TokensJoin(bl: seq<nat>, a: seq<Token>, b: seq<Token>)
    requires HaveCodes(bl, a) && HaveCodes(bl, b)
    ensures HaveCodes(bl, a + b) && TokensBits(bl, a + b) == Join(TokensBits(bl, a), TokensBits(bl, b))
    decreases |a|
  {
    hide TokenBits, HasCode, Join;
    if a == [] {
      assert a + b == b;
      JoinNone(TokensBits(bl, b));
    } else {
      assert (a + b)[1..] == a[1..] + b && (a + b)[0] == a[0];
      TokensJoin(bl, a[1..], b);
      JoinAssoc(TokenBits(bl, a[0]), TokensBits(bl, a[1..]), TokensBits(bl, b));
    }
  }

  lemma OneTokenBits(bl: seq<nat>, t: Token)
    requires HasCode(bl, t)
    ensures HaveCodes(bl, [t]) && TokensBits(bl, [t]) == TokenBits(bl, t)
  {
    hide TokenBits, Join, HasCode;
    assert [t][1..] == [];
    JoinNone(TokenBits(bl, t));
  }

  /** bl_tree after gen_codes: the codes and lengths of the 19 symbols. */
  ghost predicate CodesReady(code: seq<nat>, len: seq<nat>, bl: seq<nat>) {
    && |bl| == BL_CODES <= |code| && |bl| <= |len| && (forall i :: 0 <= i < |bl| ==> len[i] == bl[i] <= 7)
    && forall s: nat :: s < |bl| && bl[s] != 0 ==> code[s] == RevCode(bl, s)
  }

  /** send_code, and send_bits for the repeat count. */
  method SendToken(w: BitWriter, code: array<nat>, len: array<nat>, t: Token, ghost bl: seq<nat>)
    requires w.Valid() && CodesReady(code[..], len[..], bl) && HasCode(bl, t)
    modifies w
    ensures w.Valid() && w.Written() == Join(old(w.Written()), TokenBits(bl, t))
  {
    hide Join;
    var s := SymbolOf(t);
    ghost var was := w.Written();
    assert code[..][s] == RevCode(bl, s) && len[..][s] == bl[s];
    w.SendBits(code[s], len[s]);
    JoinAssoc(was, CodeOf(bl, s), ExtraOf(t));
    var x := ExtraOf(t);
    if x.n != 0 {
      assert Pow2(2) == 4 && Pow2(3) == 8 && Pow2(7) == 128;
      w.SendBits(x.v, x.n);
    } else {
      JoinNone(w.Written());
    }
  }

  /** The tokens of a run are among those of the tree, and the others follow. */
  lemma RunTokens(lens: seq<nat>, n: nat, run: Run, bl: seq<nat>)
    requires n < |lens| && HaveCodes(bl, Tokens(lens, n, run))
    ensures Goes(run, lens[n], LengthAt(lens, n + 1)) ==>
      Tokens(lens, n, run) == Tokens(lens, n + 1, run.(count := run.count + 1))
    ensures !Goes(run, lens[n], LengthAt(lens, n + 1)) ==>
      var ts, next := Emitted(run, lens[n], run.count + 1), Fresh(lens[n], LengthAt(lens, n + 1));
      && HaveCodes(bl, ts) && HaveCodes(bl, Tokens(lens, n + 1, next))
      && TokensBits(bl, Tokens(lens, n, run)) == Join(TokensBits(bl, ts), TokensBits(bl, Tokens(lens, n + 1, next)))
  {
    hide Join, HasCode, TokensBits, Emitted, Fresh;
    if !Goes(run, lens[n], LengthAt(lens, n + 1)) {
      var ts, next := Emitted(run, lens[n], run.count + 1), Fresh(lens[n], LengthAt(lens, n + 1));
      var rest := Tokens(lens, n + 1, next);
      forall t | t in ts ensures HasCode(bl, t) { assert t in ts + rest; }
      forall t | t in rest ensures HasCode(bl, t) { assert t in ts + rest; }
      TokensJoin(bl, ts, rest);
    }
  }

  /** The body of send_tree's loop at the end of a run (zlib/trees.c:768-791). */
  method SendRun(w: BitWriter, code: array<nat>, len: array<nat>, run: Run, curlen: nat, count0: nat,
                 ghost bl: seq<nat>)
    requires w.Valid() && CodesReady(code[..], len[..], bl) && count0 >= 1
    requires HaveCodes(bl, Emitted(run, curlen, count0))
    modifies w
    ensures w.Valid() && w.Written() == Join(old(w.Written()), TokensBits(bl, Emitted(run, curlen, count0)))
  {
    hide Join, TokenBits, TokensBits, HasCode, CodesReady;
    ghost var was, ts := w.Written(), Emitted(run, curlen, count0);
    var count := count0;
    if count < run.minCount {
      JoinNone(was);
      OnesNext(bl, curlen, 0);
      while true
        invariant 1 <= count <= count0 && w.Valid() && HaveCodes(bl, Ones(curlen, count0 - count))
        invariant w.Written() == Join(was, TokensBits(bl, Ones(curlen, count0 - count)))
        decreases count
      {
        assert Length(curlen) in ts by { assert ts[0] == Length(curlen); }
        OnesNext(bl, curlen, count0 - count);
        JoinAssoc(was, TokensBits(bl, Ones(curlen, count0 - count)), TokenBits(bl, Length(curlen)));
        SendToken(w, code, len, Length(curlen), bl);
        count := count - 1;
        if count == 0 { break; }
      }
    } else if curlen != 0 {
      if curlen != run.prevlen {
        assert ts[0] in ts && ts[1] in ts;
        SendToken(w, code, len, Length(curlen), bl);
        count := count - 1;
        TwoTokenBits(bl, ts[0], ts[1]);
        JoinAssoc(was, TokenBits(bl, ts[0]), TokenBits(bl, ts[1]));
      } else {
        assert ts[0] in ts;
        OneTokenBits(bl, ts[0]);
      }
      SendToken(w, code, len, Rep(count), bl);
    } else {
      assert ts[0] in ts;
      OneTokenBits(bl, ts[0]);
      if count <= 10 {
        SendToken(w, code, len, Zeros(count), bl);
      } else {
        SendToken(w, code, len, ManyZeros(count), bl);
      }
    }
  }

  lemma TwoTokenBits(bl: seq<nat>, t: Token, u: Token)
    requires HasCode(bl, t) && HasCode(bl, u)
    ensures HaveCodes(bl, [t, u]) && TokensBits(bl, [t, u]) == Join(TokenBits(bl, t), TokenBits(bl, u))
  {
    hide Join, TokenBits, HasCode;
    assert [t, u][1..] == [u];
    OneTokenBits(bl, u);
  }

  lemma OnesNext(bl: seq<nat>, l: nat, n: nat)
    ensures TokensBits(bl, Ones(l, 0)) == NoBits
    ensures HasCode(bl, Length(l)) && HaveCodes(bl, Ones(l, n)) ==>
      HaveCodes(bl, Ones(l, n + 1))
      && TokensBits(bl, Ones(l, n + 1)) == Join(TokensBits(bl, Ones(l, n)), TokenBits(bl, Length(l)))
  {
    hide Join, TokenBits, HasCode;
    if HasCode(bl, Length(l)) && HaveCodes(bl, Ones(l, n)) {
      OneTokenBits(bl, Length(l));
      TokensJoin(bl, Ones(l, n), [Length(l)]);
      assert Ones(l, n) + [Length(l)] == Ones(l, n + 1);
    }
  }

  /** send_tree (zlib/trees.c:748-793). */
  method SendTree(w: BitWriter, tree: array<nat>, maxCode: nat, code: array<nat>, len: array<nat>,
                  ghost bl: seq<nat>, ghost lens: seq<nat>)
    requires w.Valid() && CodesReady(code[..], len[..], bl)
    requires maxCode + 1 < tree.Length && lens == tree[..maxCode + 1] && tree[maxCode + 1] == GUARD
    requires HaveCodes(bl, TreeTokens(lens))
    modifies w
    ensures w.Valid() && w.Written() == Join(old(w.Written()), TokensBits(bl, TreeTokens(lens)))
  {
    hide Join, TokensBits, HaveCodes, CodesReady, Emitted;
    ghost var was := w.Written();
    var prevlen: int, nextlen: nat, count: nat := -1, tree[0], 0;
    var maxCount: nat, minCount: nat := 7, 4;
    if nextlen == 0 { maxCount, minCount := 138, 3; }
    for n := 0 to maxCode + 1
      invariant w.Valid() && nextlen == LengthAt(lens, n)
      invariant HaveCodes(bl, Tokens(lens, n, Run(prevlen, count, maxCount, minCount)))
      invariant Join(w.Written(), TokensBits(bl, Tokens(lens, n, Run(prevlen, count, maxCount, minCount))))
             == Join(was, TokensBits(bl, TreeTokens(lens)))
    {
      ghost var run := Run(prevlen, count, maxCount, minCount);
      var curlen := nextlen;
      nextlen := tree[n + 1];
      RunTokens(lens, n, run, bl);
      count := count + 1;
      if !(count < maxCount && curlen == nextlen) {
        ghost var before := w.Written();
        SendRun(w, code, len, Run(prevlen, count - 1, maxCount, minCount), curlen, count, bl);
        JoinAssoc(before, TokensBits(bl, Emitted(run, curlen, count)),
                  TokensBits(bl, Tokens(lens, n + 1, Fresh(curlen, nextlen))));
        count, prevlen := 0, curlen;
        if nextlen == 0 {
          maxCount, minCount := 138, 3;
        } else if curlen == nextlen {
          maxCount, minCount := 6, 3;
        } else {
          maxCount, minCount := 7, 4;
        }
      }
    }
    NoTokens(lens, Run(prevlen, count, maxCount, minCount), bl);
    JoinNone(w.Written());
  }

  lemma NoTokens(lens: seq<nat>, run: Run, bl: seq<nat>)
    ensures Tokens(lens, |lens|, run) == [] && TokensBits(bl, []) == NoBits
  {
  }

  // ------------------------------------------------------------------ counting

  /** How many of the tokens have the code of symbol s. */
  function CountOf(ts: seq<Token>, s: nat): nat
    decreases |ts|
  {
    if ts == [] then 0 else (if SymbolOf(ts[0]) == s then 1 else 0) + CountOf(ts[1..], s)
  }

  lemma {:induction false} CountJoin(a: seq<Token>, b: seq<Token>, s: nat)
    ensures CountOf(a + b, s) == CountOf(a, s) + CountOf(b, s)
    decreases |a|
  {
    if a == [] {
      assert a + b == b;
    } else {
      assert (a + b)[1..] == a[1..] + b;
      CountJoin(a[1..], b, s);
    }
  }

  lemma {:induction false} CountOnes(l: nat, n: nat, s: nat)
    ensures CountOf(Ones(l, n), s) == if s == l then n else 0
    decreases n
  {
    if n != 0 {
      assert Ones(l, n)[1..] == Ones(l, n - 1);
      CountOnes(l, n - 1, s);
    }
  }

  lemma CountFew(t: Token, u: Token, s: nat)
    ensures CountOf([t], s) == if SymbolOf(t) == s then 1 else 0
    ensures CountOf([t, u], s) == CountOf([t], s) + CountOf([u], s)
  {
    assert [t][1..] == [];
    assert [t, u][1..] == [u];
  }

  /** freq has gained one for each token. */
  ghost predicate Gained(freq: seq<nat>, freq0: seq<nat>, ts: seq<Token>) {
    |freq| == |freq0| && forall s :: 0 <= s < |freq| ==> freq[s] == freq0[s] + CountOf(ts, s)
  }

  /** What a run adds to the count of symbol s. */
  function RunGain(run: Run, curlen: nat, count: nat, s: nat): nat {
    if count < run.minCount then if s == curlen then count else 0
    else if curlen != 0 then (if s == curlen != run.prevlen then 1 else 0) + (if s == REP_3_6 then 1 else 0)
    else if count <= 10 then if s == REPZ_3_10 then 1 else 0
    else if s == REPZ_11_138 then 1 else 0
  }

  lemma RunGains(run: Run, curlen: nat, count: nat, s: nat)
    requires count >= 1
    ensures CountOf(Emitted(run, curlen, count), s) == RunGain(run, curlen, count, s)
  {
    hide CountOf;
    CountOnes(curlen, count, s);
    CountFew(Length(curlen), Rep(if count > 1 then count - 1 else 0), s);
    CountFew(Rep(count), Rep(count), s);
    CountFew(Rep(if count > 1 then count - 1 else 0), Rep(count), s);
    CountFew(Zeros(count), ManyZeros(count), s);
    CountFew(ManyZeros(count), ManyZeros(count), s);
  }

  /** The body of scan_tree's loop at the end of a run (zlib/trees.c:723-740). */
  method CountRun(freq: array<nat>, run: Run, curlen: nat, count: nat)
    requires freq.Length >= BL_CODES && curlen <= 15 && count >= 1
    modifies freq
    ensures Gained(freq[..], old(freq[..]), Emitted(run, curlen, count))
  {
    hide CountOf, Emitted;
    forall s | 0 <= s < freq.Length
      ensures CountOf(Emitted(run, curlen, count), s) == RunGain(run, curlen, count, s)
    {
      RunGains(run, curlen, count, s);
    }
    if count < run.minCount {
      freq[curlen] := freq[curlen] + count;
    } else if curlen != 0 {
      if curlen != run.prevlen { freq[curlen] := freq[curlen] + 1; }
      freq[REP_3_6] := freq[REP_3_6] + 1;
    } else if count <= 10 {
      freq[REPZ_3_10] := freq[REPZ_3_10] + 1;
    } else {
      freq[REPZ_11_138] := freq[REPZ_11_138] + 1;
    }
  }

  lemma GainedMore(freq: seq<nat>, freq1: seq<nat>, freq0: seq<nat>, a: seq<Token>, b: seq<Token>)
    requires Gained(freq1, freq0, a) && Gained(freq, freq1, b)
    ensures Gained(freq, freq0, a + b)
  {
    forall s | 0 <= s < |freq| ensures freq[s] == freq0[s] + CountOf(a + b, s) { CountJoin(a, b, s); }
  }

  /** The tokens of the runs that ended before n. */
  ghost predicate SoFar(lens: seq<nat>, n: nat, run: Run, done: seq<Token>)
    requires n <= |lens|
  {
    done + Tokens(lens, n, run) == TreeTokens(lens)
  }

  lemma NothingEnded(lens: seq<nat>)
    ensures SoFar(lens, 0, Fresh(-1, LengthAt(lens, 0)), [])
  {
  }

  lemma AllEnded(lens: seq<nat>, run: Run, done: seq<Token>)
    requires SoFar(lens, |lens|, run, done)
    ensures done == TreeTokens(lens)
  {
    assert done + [] == done;
  }

  /** One length more either goes with the run or begins a fresh one. */
  lemma SoFarNext(lens: seq<nat>, n: nat, run: Run, done: seq<Token>)
    requires n < |lens| && SoFar(lens, n, run, done)
    ensures var count, curlen, nextlen := run.count + 1, lens[n], LengthAt(lens, n + 1);
      if count < run.maxCount && curlen == nextlen then SoFar(lens, n + 1, run.(count := count), done)
      else SoFar(lens, n + 1, Fresh(curlen, nextlen), done + Emitted(run, curlen, count))
  {
    hide Emitted;
    var ts, next := Emitted(run, lens[n], run.count + 1), Fresh(lens[n], LengthAt(lens, n + 1));
    assert done + (ts + Tokens(lens, n + 1, next)) == done + ts + Tokens(lens, n + 1, next);
  }

  /** scan_tree (zlib/trees.c:703-742): it sets the guard and counts exactly the codes that send_tree sends. */
  method ScanTree(tree: array<nat>, maxCode: nat, freq: array<nat>)
    requires maxCode + 1 < tree.Length && freq.Length >= BL_CODES && tree != freq
    requires forall i :: 0 <= i <= maxCode ==> tree[i] <= 15
    modifies tree, freq
    ensures tree[..maxCode + 1] == old(tree[..maxCode + 1]) && tree[maxCode + 1] == GUARD
    ensures Gained(freq[..], old(freq[..]), TreeTokens(tree[..maxCode + 1]))
  {
    hide CountOf, Emitted, Gained, SoFar, Tokens, TreeTokens;
    ghost var lens: seq<nat> := tree[..maxCode + 1];
    ghost var freq0: seq<nat> := freq[..];
    ghost var done: seq<Token> := [];
    var prevlen: int, nextlen: nat, count: nat := -1, tree[0], 0;
    var maxCount: nat, minCount: nat := 7, 4;
    if nextlen == 0 { maxCount, minCount := 138, 3; }
    tree[maxCode + 1] := GUARD;
    assert tree[..maxCode + 1] == lens;
    NothingCounted(freq0);
    NothingEnded(lens);
    for n := 0 to maxCode + 1
      invariant tree[..maxCode + 1] == lens && tree[maxCode + 1] == GUARD
      invariant nextlen == LengthAt(lens, n)
      invariant SoFar(lens, n, Run(prevlen, count, maxCount, minCount), done)
      invariant Gained(freq[..], freq0, done)
    {
      var run := Run(prevlen, count, maxCount, minCount);
      SoFarNext(lens, n, run, done);
      var curlen := nextlen;
      nextlen := tree[n + 1];
      assert nextlen == LengthAt(lens, n + 1);
      count := count + 1;
      if !(count < maxCount && curlen == nextlen) {
        CountMore(freq, run, curlen, count, freq0, done);
        done := done + Emitted(run, curlen, count);
        count, prevlen := 0, curlen;
        if nextlen == 0 {
          maxCount, minCount := 138, 3;
        } else if curlen == nextlen {
          maxCount, minCount := 6, 3;
        } else {
          maxCount, minCount := 7, 4;
        }
      }
    }
    AllEnded(lens, Run(prevlen, count, maxCount, minCount), done);
  }

  /** A run counted, on top of what was counted before. */
  method CountMore(freq: array<nat>, run: Run, curlen: nat, count: nat, ghost freq0: seq<nat>, ghost done: seq<Token>)
    requires freq.Length >= BL_CODES && curlen <= 15 && count >= 1 && Gained(freq[..], freq0, done)
    modifies freq
    ensures Gained(freq[..], freq0, done + Emitted(run, curlen, count))
  {
    hide Gained, Emitted;
    ghost var freq1: seq<nat> := freq[..];
    CountRun(freq, run, curlen, count);
    GainedMore(freq[..], freq1, freq0, done, Emitted(run, curlen, count));
  }

  lemma NothingCounted(freq: seq<nat>)
    ensures Gained(freq, freq, [])
  {
  }
}
