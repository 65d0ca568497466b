/**
 Code lengths as runs (section 3.2.7 of RFC 1951): the machine that `scan_tree` and
 `send_tree` share (zlib/trees.c:703-793), and what its tokens expand to.
 */
module RunLengths {

  /** A length, the last length 3..6 times more, or zeros 3..10 or 11..138 times. */
  datatype Token = Length(l: nat) | Rep(times: nat) | Zeros(times: nat) | ManyZeros(times: nat)

  predicate Sendable(t: Token) {
    match t
    case Length(l) => l <= 15
    case Rep(times) => 3 <= times <= 6
    case Zeros(times) => 3 <= times <= 10
    case ManyZeros(times) => 11 <= times <= 138
  }

  function Copies(l: nat, times: nat): (r: seq<nat>)
    ensures |r| == times && forall i :: 0 <= i < times ==> r[i] == l
  {
    seq(times, _ => l)
  }

  /** What a decoder that already has the lengths `out` adds for t; there may be nothing to repeat. */
  function Added(out: seq<nat>, t: Token): seq<nat>
    requires t.Rep? ==> out != []
  {
    match t
    case Length(l) => [l]
    case Rep(times) => Copies(out[|out| - 1], times)
    case Zeros(times) => Copies(0, times)
    case ManyZeros(times) => Copies(0, times)
  }

  datatype Lengths = Lengths(out: seq<nat>) | NothingToRepeat

  function Expand(out: seq<nat>, ts: seq<Token>): Lengths
    decreases |ts|
  {
    if ts == [] then Lengths(out)
    else if ts[0].Rep? && out == [] then NothingToRepeat
    else Expand(out + Added(out, ts[0]), ts[1..])
  }

  lemma {:induction false} ExpandMore(out: seq<nat>, a: seq<Token>, b: seq<Token>, mid: seq<nat>)
    requires Expand(out, a) == Lengths(mid)
    ensures Expand(out, a + b) == Expand(mid, b)
    decreases |a|
  {
    if a == [] {
      assert a + b == b;
    } else {
      assert (a + b)[1..] == a[1..] + b;
      ExpandMore(out + Added(out, a[0]), a[1..], b, mid);
    }
  }

  // --------------------------------------------------------------- the machine

  /** Lengths still to be sent: `count` of them alike; the bounds on a run. */
  datatype Run = Run(prevlen: int, count: nat, maxCount: nat, minCount: nat)

  const GUARD: nat := 0xffff

  function LengthAt(lens: seq<nat>, n: nat): nat {
    if n < |lens| then lens[n] else GUARD
  }

  /** max_count and min_count for a run that begins with nextlen after prevlen. */
  function Fresh(prevlen: int, nextlen: nat): Run {
    if nextlen == 0 then Run(prevlen, 0, 138, 3)
    else if prevlen == nextlen then Run(prevlen, 0, 6, 3)
    else Run(prevlen, 0, 7, 4)
  }

  function Ones(l: nat, count: nat): seq<Token> {
    seq(count, _ => Length(l))
  }

  /** The tokens for a run of count > 0 lengths. */
  function Emitted(run: Run, curlen: nat, count: nat): seq<Token>
    requires count >= 1
  {
    if count < run.minCount then Ones(curlen, count)
    else if curlen != 0 then
      if curlen != run.prevlen then [Length(curlen), Rep(count - 1)] else [Rep(count)]
    else if count <= 10 then [Zeros(count)]
    else [ManyZeros(count)]
  }

  predicate Goes(run: Run, curlen: nat, nextlen: nat) {
    run.count + 1 < run.maxCount && curlen == nextlen
  }

  function Tokens(lens: seq<nat>, n: nat, run: Run): seq<Token>
    requires n <= |lens|
    decreases |lens| - n
  {
    if n == |lens| then []
    else if Goes(run, lens[n], LengthAt(lens, n + 1)) then
      Tokens(lens, n + 1, run.(count := run.count + 1))
    else
      Emitted(run, lens[n], run.count + 1) + Tokens(lens, n + 1, Fresh(lens[n], LengthAt(lens, n + 1)))
  }

  /** The tokens of a whole tree. */
  function TreeTokens(lens: seq<nat>): seq<Token> {
    Tokens(lens, 0, Fresh(-1, LengthAt(lens, 0)))
  }

  /** The run is bounded as its length and the one before demand, and is of equal lengths. */
  ghost predicate RunAt(lens: seq<nat>, n: nat, run: Run) {
    && run.count <= n <= |lens| && run == Fresh(run.prevlen, LengthAt(lens, n)).(count := run.count)
    && (forall i :: n - run.count <= i < n ==> n < |lens| && lens[i] == lens[n])
    && (n == run.count ==> run.prevlen == -1)
    && (n > run.count ==> run.prevlen == lens[n - run.count - 1])
    && run.count < run.maxCount
    && (n == |lens| ==> run.count == 0)
  }

  lemma ExpandOne(out: seq<nat>, t: Token)
    requires t.Rep? ==> out != []
    ensures Expand(out, [t]) == Lengths(out + Added(out, t))
  {
    assert [t][1..] == [];
  }

  lemma {:induction false} ExpandOnes(out: seq<nat>, l: nat, count: nat)
    ensures Expand(out, Ones(l, count)) == Lengths(out + Copies(l, count))
    decreases count
  {
    if count == 0 {
      assert out + Copies(l, 0) == out;
    } else {
      assert Ones(l, count)[1..] == Ones(l, count - 1);
      ExpandOnes(out + [l], l, count - 1);
      assert out + [l] + Copies(l, count - 1) == out + Copies(l, count);
    }
  }

  /** A run's tokens are sendable and expand to the run. */
  lemma EmittedRun(out: seq<nat>, run: Run, l: nat, count: nat)
    requires 1 <= count <= run.maxCount && l <= 15 && run == Fresh(run.prevlen, l).(count := run.count)
    requires out == [] ==> run.prevlen == -1
    requires out != [] ==> run.prevlen == out[|out| - 1]
    ensures forall t :: t in Emitted(run, l, count) ==> Sendable(t)
    ensures Expand(out, Emitted(run, l, count)) == Lengths(out + Copies(l, count))
  {
    if count < run.minCount {
      ExpandOnes(out, l, count);
    } else if l != 0 && l != run.prevlen {
      ExpandOne(out, Length(l));
      ExpandOne(out + [l], Rep(count - 1));
      ExpandMore(out, [Length(l)], [Rep(count - 1)], out + [l]);
      assert [Length(l)] + [Rep(count - 1)] == [Length(l), Rep(count - 1)];
      assert out + [l] + Copies(l, count - 1) == out + Copies(l, count);
    } else {
      ExpandOne(out, Emitted(run, l, count)[0]);
    }
  }

  lemma RunGoes(lens: seq<nat>, n: nat, run: Run)
    requires RunAt(lens, n, run) && n < |lens| && lens[n] <= 15 && Goes(run, lens[n], LengthAt(lens, n + 1))
    ensures RunAt(lens, n + 1, run.(count := run.count + 1))
  {
  }

  lemma RunEnds(lens: seq<nat>, n: nat, run: Run)
    requires RunAt(lens, n, run) && n < |lens|
    ensures RunAt(lens, n + 1, Fresh(lens[n], LengthAt(lens, n + 1)))
    ensures lens[..n - run.count] + Copies(lens[n], run.count + 1) == lens[..n + 1]
    ensures run == Fresh(run.prevlen, lens[n]).(count := run.count)
  {
  }

  lemma {:induction false} TokensExpand(lens: seq<nat>, n: nat, run: Run)
    requires RunAt(lens, n, run) && forall i :: 0 <= i < |lens| ==> lens[i] <= 15
    ensures Expand(lens[..n - run.count], Tokens(lens, n, run)) == Lengths(lens)
    ensures forall t :: t in Tokens(lens, n, run) ==> Sendable(t)
    decreases |lens| - n
  {
    hide Expand, Emitted;
    if n == |lens| {
      assert lens[..n] == lens;
      ExpandNone(lens);
    } else if Goes(run, lens[n], LengthAt(lens, n + 1)) {
      RunGoes(lens, n, run);
      TokensExpand(lens, n + 1, run.(count := run.count + 1));
    } else {
      var out, next := lens[..n - run.count], Fresh(lens[n], LengthAt(lens, n + 1));
      RunEnds(lens, n, run);
      EmittedRun(out, run, lens[n], run.count + 1);
      TokensExpand(lens, n + 1, next);
      ExpandMore(out, Emitted(run, lens[n], run.count + 1), Tokens(lens, n + 1, next), lens[..n + 1]);
    }
  }

  lemma ExpandNone(out: seq<nat>)
    ensures Expand(out, []) == Lengths(out)
  {
  }

  /** The tokens of a tree rebuild its lengths, are all in range, and do not begin with a repeat. */
  lemma TreeTokensExpand(lens: seq<nat>)
    requires forall i :: 0 <= i < |lens| ==> lens[i] <= 15
    ensures Expand([], TreeTokens(lens)) == Lengths(lens)
    ensures forall t :: t in TreeTokens(lens) ==> Sendable(t)
    ensures TreeTokens(lens) != [] ==> !TreeTokens(lens)[0].Rep?
  {
    TokensExpand(lens, 0, Fresh(-1, LengthAt(lens, 0)));
    assert lens[..0] == [];
  }

  // ----------------------------------------------------- each token for as many as it can

  /** How many lengths from n on are alike. */
  function Alike(lens: seq<nat>, n: nat): (k: nat)
    ensures n < |lens| ==> 1 <= k <= |lens| - n
    decreases |lens| - n
  {
    if n >= |lens| then 0
    else if n + 1 < |lens| && lens[n + 1] == lens[n] then 1 + Alike(lens, n + 1)
    else 1
  }

  function Least(a: nat, b: nat): nat {
    if a < b then a else b
  }

  /**
   The token for the lengths from n on, and how many they are: as many zeros as one token can stand for, or as many
   repeats of the length before; only where these are fewer than three, a length by itself.
   */
  function NextToken(lens: seq<nat>, n: nat): (r: (Token, nat))
    requires n < |lens|
    ensures 1 <= r.1 <= |lens| - n
  {
    var k := Alike(lens, n);
    if lens[n] == 0 && k >= 11 then (ManyZeros(Least(k, 138)), Least(k, 138))
    else if lens[n] == 0 && k >= 3 then (Zeros(k), k)
    else if lens[n] != 0 && n > 0 && lens[n - 1] == lens[n] && k >= 3 then (Rep(Least(k, 6)), Least(k, 6))
    else (Length(lens[n]), 1)
  }

  /** The lengths from n on, one token after the other. */
  function Greedy(lens: seq<nat>, n: nat): seq<Token>
    requires n <= |lens|
    decreases |lens| - n
  {
    if n == |lens| then [] else [NextToken(lens, n).0] + Greedy(lens, n + NextToken(lens, n).1)
  }

  lemma {:induction false} AlikeMeans(lens: seq<nat>, n: nat, i: nat)
    requires n < |lens| && i < Alike(lens, n)
    ensures lens[n + i] == lens[n] && Alike(lens, n + i) == Alike(lens, n) - i
    decreases i
  {
    if i != 0 { AlikeMeans(lens, n + 1, i - 1); }
  }

  /** The machine's tokens up to the end of a run. */
  lemma {:induction false} RunOf(lens: seq<nat>, n: nat, run: Run, k: nat)
    requires n < |lens| && (forall i :: 0 <= i < |lens| ==> lens[i] <= 15)
    requires run.count < run.maxCount && k == Least(Alike(lens, n), run.maxCount - run.count)
    ensures n + k <= |lens|
    ensures Tokens(lens, n, run)
      == Emitted(run, lens[n], run.count + k) + Tokens(lens, n + k, Fresh(lens[n], LengthAt(lens, n + k)))
    decreases k
  {
    hide Emitted;
    if k > 1 {
      var next := run.(count := run.count + 1);
      RunOf(lens, n + 1, next, k - 1);
      SameEmitted(run, next, lens[n], run.count + k);
    }
  }

  lemma SameEmitted(a: Run, b: Run, l: nat, count: nat)
    requires count >= 1 && a.(count := 0) == b.(count := 0)
    ensures Emitted(a, l, count) == Emitted(b, l, count)
  {
  }

  /** What comes before n, or nothing. */
  function Before(lens: seq<nat>, n: nat): int
    requires n <= |lens|
  {
    if n == 0 then -1 else lens[n - 1]
  }

  /** Lengths by themselves, where there are too few for more. */
  lemma {:induction false} OnesGreedy(lens: seq<nat>, n: nat, k: nat)
    requires n < |lens| && k == Alike(lens, n) <= 3
    requires lens[n] == 0 || Before(lens, n) == lens[n] ==> k < 3
    ensures n + k <= |lens| && Greedy(lens, n) == Ones(lens[n], k) + Greedy(lens, n + k)
    decreases k
  {
    hide Greedy, Alike, NextToken;
    AloneNext(lens, n);
    GreedyNext(lens, n);
    if k > 1 {
      AlikeMeans(lens, n, 1);
      OnesGreedy(lens, n + 1, k - 1);
      assert Ones(lens[n], k) == [Length(lens[n])] + Ones(lens[n], k - 1);
    } else {
      assert Ones(lens[n], k) == [Length(lens[n])];
    }
  }

  lemma AloneNext(lens: seq<nat>, n: nat)
    requires n < |lens| && Alike(lens, n) <= 3
    requires lens[n] == 0 || Before(lens, n) == lens[n] ==> Alike(lens, n) < 3
    ensures NextToken(lens, n) == (Length(lens[n]), 1)
  {
    hide Alike;
  }

  lemma GreedyNext(lens: seq<nat>, n: nat)
    requires n < |lens|
    ensures Greedy(lens, n) == [NextToken(lens, n).0] + Greedy(lens, n + NextToken(lens, n).1)
  {
    hide NextToken;
  }

  /** A length and its repeats. */
  lemma PairGreedy(lens: seq<nat>, n: nat, k: nat)
    requires n < |lens| && k == Least(Alike(lens, n), 7) && k >= 4 && lens[n] != 0 && Before(lens, n) != lens[n]
    ensures n + k <= |lens| && Greedy(lens, n) == [Length(lens[n]), Rep(k - 1)] + Greedy(lens, n + k)
  {
    hide Greedy, Alike;
    AlikeMeans(lens, n, 1);
    GreedyNext(lens, n);
    GreedyNext(lens, n + 1);
    assert NextToken(lens, n) == (Length(lens[n]), 1);
    assert NextToken(lens, n + 1) == (Rep(k - 1), k - 1);
  }

  /** One token for all. */
  lemma OneGreedy(lens: seq<nat>, n: nat, k: nat)
    requires n < |lens| && NextToken(lens, n).1 == k
    ensures n + k <= |lens| && Greedy(lens, n) == [NextToken(lens, n).0] + Greedy(lens, n + k)
  {
    hide NextToken;
  }

  /** A run's tokens are those that cover the most. */
  lemma RunGreedy(lens: seq<nat>, n: nat, k: nat)
    requires n < |lens| && (forall i :: 0 <= i < |lens| ==> lens[i] <= 15)
    requires k == Least(Alike(lens, n), Fresh(Before(lens, n), lens[n]).maxCount)
    ensures n + k <= |lens|
    ensures Greedy(lens, n) == Emitted(Fresh(Before(lens, n), lens[n]), lens[n], k) + Greedy(lens, n + k)
  {
    hide Greedy, Alike, Tokens;
    var run, l := Fresh(Before(lens, n), lens[n]), lens[n];
    if k < run.minCount {
      OnesGreedy(lens, n, k);
    } else if l != 0 && l != run.prevlen {
      PairGreedy(lens, n, k);
    } else {
      OneGreedy(lens, n, k);
    }
  }

  lemma {:induction false} TokensGreedy(lens: seq<nat>, n: nat)
    requires n <= |lens| && (forall i :: 0 <= i < |lens| ==> lens[i] <= 15)
    ensures Tokens(lens, n, Fresh(Before(lens, n), LengthAt(lens, n))) == Greedy(lens, n)
    decreases |lens| - n
  {
    hide Emitted, NextToken, Greedy;
    if n == |lens| {
      GreedyNone(lens);
    } else {
      var run := Fresh(Before(lens, n), lens[n]);
      var k := Least(Alike(lens, n), run.maxCount);
      RunOf(lens, n, run, k);
      RunGreedy(lens, n, k);
      AlikeMeans(lens, n, k - 1);
      TokensGreedy(lens, n + k);
    }
  }

  lemma GreedyNone(lens: seq<nat>)
    ensures Greedy(lens, |lens|) == []
  {
  }

  /** What is sent for a tree covers as many lengths with each token as that can stand for. */
  lemma TreeTokensGreedy(lens: seq<nat>)
    requires forall i :: 0 <= i < |lens| ==> lens[i] <= 15
    ensures TreeTokens(lens) == Greedy(lens, 0)
  {
    TokensGreedy(lens, 0);
  }
}
