/**
 The canonical prefix code of section 3.2.2 of RFC 1951, as a function of the
 code lengths alone.  Both sides of the codec are proved against this module:
 the encoder's `gen_codes` computes these codes, and the decoder's tables look
 them up.

 Codes are placed on a line of 2^15 points: a code of b bits owns the 2^(15-b)
 points whose leading b bits spell it.  On that line the codes are consecutive
 intervals in order of (length, symbol), which makes "no code is a prefix of
 another" and "every pattern is some code" statements about intervals.
 */
module Canonical {
  import opened BitOps

  const MAXBITS: nat := 15

  ghost predicate ValidLens(lens: seq<nat>) {
    forall i :: 0 <= i < |lens| ==> lens[i] <= MAXBITS
  }

  /** How many of the first n symbols have length b. */
  function CountBelow(lens: seq<nat>, n: nat, b: nat): (c: nat)
    requires n <= |lens|
    ensures c <= n
  {
    if n == 0 then 0 else CountBelow(lens, n - 1, b) + (if lens[n - 1] == b then 1 else 0)
  }

  function Count(lens: seq<nat>, b: nat): nat {
    CountBelow(lens, |lens|, b)
  }

  /** Step 2 of section 3.2.2: the smallest code of each length. */
  function FirstCode(lens: seq<nat>, b: nat): nat {
    if b <= 1 then 0 else 2 * (FirstCode(lens, b - 1) + Count(lens, b - 1))
  }

  /** Step 3 of section 3.2.2: symbols of one length get consecutive codes. */
  function Code(lens: seq<nat>, s: nat): nat
    requires s < |lens|
  {
    FirstCode(lens, lens[s]) + CountBelow(lens, s, lens[s])
  }

  /** The Kraft sum, in units of 2^-15, over the first n symbols. */
  function KraftBelow(lens: seq<nat>, n: nat): nat
    requires n <= |lens| && ValidLens(lens)
  {
    if n == 0 then 0
    else KraftBelow(lens, n - 1) + (if lens[n - 1] == 0 then 0 else Pow2(MAXBITS - lens[n - 1]))
  }

  function Kraft(lens: seq<nat>): nat
    requires ValidLens(lens)
  {
    KraftBelow(lens, |lens|)
  }

  /** The same sum grouped by length: lengths 1..b among the first n symbols. */
  function KraftByLenBelow(lens: seq<nat>, n: nat, b: nat): nat
    requires n <= |lens| && b <= MAXBITS
  {
    if b == 0 then 0
    else KraftByLenBelow(lens, n, b - 1) + Shl(CountBelow(lens, n, b), MAXBITS - b)
  }

  function KraftByLen(lens: seq<nat>, b: nat): nat
    requires b <= MAXBITS
  {
    KraftByLenBelow(lens, |lens|, b)
  }

  lemma {:induction false} KraftByLenStep(lens: seq<nat>, n: nat, b: nat)
    requires n < |lens| && b <= MAXBITS && ValidLens(lens)
    ensures KraftByLenBelow(lens, n + 1, b) == KraftByLenBelow(lens, n, b)
              + (if 1 <= lens[n] <= b then Pow2(MAXBITS - lens[n]) else 0)
  {
    if b != 0 {
      KraftByLenStep(lens, n, b - 1);
      ShlSucc(CountBelow(lens, n, b), MAXBITS - b);
    }
  }

  lemma {:induction false} KraftGrouped(lens: seq<nat>, n: nat)
    requires n <= |lens| && ValidLens(lens)
    ensures KraftByLenBelow(lens, n, MAXBITS) == KraftBelow(lens, n)
  {
    if n == 0 {
      KraftGroupedEmpty(lens, MAXBITS);
    } else {
      KraftGrouped(lens, n - 1);
      KraftByLenStep(lens, n - 1, MAXBITS);
    }
  }

  lemma {:induction false} KraftGroupedEmpty(lens: seq<nat>, b: nat)
    requires b <= MAXBITS
    ensures KraftByLenBelow(lens, 0, b) == 0
  {
    if b != 0 {
      KraftGroupedEmpty(lens, b - 1);
      ShlOne(MAXBITS - b);
    }
  }

  lemma {:induction false} KraftByLenMono(lens: seq<nat>, a: nat, b: nat)
    requires a <= b <= MAXBITS
    ensures KraftByLen(lens, a) <= KraftByLen(lens, b)
  {
    if a < b { KraftByLenMono(lens, a, b - 1); }
  }

  /** On the line, the codes of length b start where those of shorter lengths end. */
  lemma {:induction false} FirstCodeStart(lens: seq<nat>, b: nat)
    requires 1 <= b <= MAXBITS
    ensures Shl(FirstCode(lens, b), MAXBITS - b) == KraftByLen(lens, b - 1)
  {
    if b == 1 {
      ShlOne(MAXBITS - b);
    } else {
      FirstCodeStart(lens, b - 1);
      var f, c := FirstCode(lens, b - 1), Count(lens, b - 1);
      ShlDouble(f + c, MAXBITS - b);
      ShlAdd(f, c, MAXBITS - (b - 1));
    }
  }

  lemma {:induction false} CountBelowMono(lens: seq<nat>, m: nat, n: nat, b: nat)
    requires m <= n <= |lens|
    ensures CountBelow(lens, m, b) <= CountBelow(lens, n, b)
  {
    if m < n { CountBelowMono(lens, m, n - 1, b); }
  }

  lemma RankBound(lens: seq<nat>, s: nat)
    requires s < |lens|
    ensures CountBelow(lens, s, lens[s]) < Count(lens, lens[s])
  {
    CountBelowMono(lens, s + 1, |lens|, lens[s]);
  }

  /** The r-th symbol, from zero, among the first n that have length b. */
  function AtBelow(lens: seq<nat>, n: nat, b: nat, r: nat): (s: nat)
    requires n <= |lens| && r < CountBelow(lens, n, b)
    ensures s < n && lens[s] == b && CountBelow(lens, s, b) == r
  {
    if lens[n - 1] == b && CountBelow(lens, n - 1, b) == r then n - 1
    else AtBelow(lens, n - 1, b, r)
  }

  /** The interval of symbol s starts here. */
  function Start(lens: seq<nat>, s: nat): nat
    requires s < |lens| && ValidLens(lens)
  {
    Shl(Code(lens, s), MAXBITS - lens[s])
  }

  function End(lens: seq<nat>, s: nat): nat
    requires s < |lens| && ValidLens(lens)
  {
    Start(lens, s) + Pow2(MAXBITS - lens[s])
  }

  lemma IntervalWithinLength(lens: seq<nat>, s: nat)
    requires s < |lens| && ValidLens(lens) && lens[s] != 0
    ensures KraftByLen(lens, lens[s] - 1) <= Start(lens, s)
    ensures End(lens, s) <= KraftByLen(lens, lens[s])
  {
    var b := lens[s];
    var f, r, d := FirstCode(lens, b), CountBelow(lens, s, b), MAXBITS - b;
    RankBound(lens, s);
    FirstCodeStart(lens, b);
    ShlAdd(f, r, d);
    ShlSucc(r, d);
    ShlMono(r + 1, Count(lens, b), d);
  }

  /** Intervals follow one another in order of (length, symbol). */
  lemma IntervalsOrdered(lens: seq<nat>, s: nat, t: nat)
    requires s < |lens| && t < |lens| && ValidLens(lens) && lens[s] != 0 && lens[t] != 0
    requires lens[s] < lens[t] || (lens[s] == lens[t] && s < t)
    ensures End(lens, s) <= Start(lens, t)
  {
    if lens[s] < lens[t] {
      IntervalWithinLength(lens, s);
      IntervalWithinLength(lens, t);
      KraftByLenMono(lens, lens[s], lens[t] - 1);
    } else {
      CountBelowMono(lens, s + 1, t, lens[s]);
      ShlSucc(Code(lens, s), MAXBITS - lens[s]);
      ShlMono(Code(lens, s) + 1, Code(lens, t), MAXBITS - lens[s]);
    }
  }

  /** When the lengths are not over-subscribed, a code fits in its length. */
  lemma CodeFits(lens: seq<nat>, s: nat)
    requires s < |lens| && ValidLens(lens) && lens[s] != 0 && Kraft(lens) <= Pow2(MAXBITS)
    ensures Code(lens, s) < Pow2(lens[s])
    ensures End(lens, s) <= Pow2(MAXBITS)
  {
    var b := lens[s];
    IntervalWithinLength(lens, s);
    KraftByLenMono(lens, b, MAXBITS);
    KraftGrouped(lens, |lens|);
    Pow2Add(b, MAXBITS - b);
    ShlMono(Pow2(b), Code(lens, s), MAXBITS - b);
  }

  /** The symbol whose interval contains point p, searching lengths from b up. */
  lemma {:induction false} Covered(lens: seq<nat>, b: nat, p: nat) returns (s: nat)
    requires 1 <= b <= MAXBITS && ValidLens(lens)
    requires KraftByLen(lens, b - 1) <= p < KraftByLen(lens, MAXBITS)
    ensures s < |lens| && lens[s] != 0 && Start(lens, s) <= p < End(lens, s)
    decreases MAXBITS - b
  {
    if p >= KraftByLen(lens, b) {
      s := Covered(lens, b + 1, p);
    } else {
      FirstCodeStart(lens, b);
      var d := p - KraftByLen(lens, b - 1);
      var r := Shr(d, MAXBITS - b);
      Split(d, MAXBITS - b);
      ShlMono(Count(lens, b), r, MAXBITS - b);
      s := AtBelow(lens, |lens|, b, r);
      ShlAdd(FirstCode(lens, b), r, MAXBITS - b);
    }
  }

  // ---------------------------------------------------------------- bit order

  /** The low n bits of x in reverse order (what `bi_reverse` computes). */
  function Rev(n: nat, x: nat): (r: nat)
    ensures r < Pow2(n)
  {
    if n == 0 then 0 else (if x % 2 == 1 then Pow2(n - 1) else 0) + Rev(n - 1, x / 2)
  }

  lemma RevFirst(n: nat, x: nat)
    requires n >= 1
    ensures Rev(n, x) == (if x % 2 == 1 then Pow2(n - 1) else 0) + Rev(n - 1, x / 2)
    ensures Low(x, n) == x % 2 + 2 * Low(x / 2, n - 1)
  {
  }

  lemma OfNoBits(x: nat, y: nat)
    ensures Low(x, 0) == 0 && Rev(0, y) == 0
  {
  }

  /** Keeping the leading l of n reversed bits keeps the low l bits, reversed. */
  lemma {:induction false} RevPrefix(n: nat, l: nat, x: nat)
    requires l <= n
    ensures Shr(Rev(n, x), n - l) == Rev(l, x)
  {
    hide Pow2, Shl, Low;
    if l == 0 {
      LowSmall(Rev(n, x), n);
    } else {
      RevPrefix(n - 1, l - 1, x / 2);
      var q := if x % 2 == 1 then Pow2(l - 1) else 0;
      Pow2Add(l - 1, n - l);
      ShlOne(n - l);
      ShrAdd(q, Rev(n - 1, x / 2), n - l);
    }
  }

  /** Only the low n bits matter. */
  lemma {:induction false} RevLow(n: nat, x: nat)
    ensures Rev(n, Low(x, n)) == Rev(n, x)
  {
    if n != 0 { RevLow(n - 1, x / 2); }
  }

  /** The last reversed bit is the top one. */
  lemma {:induction false} RevLast(n: nat, x: nat)
    requires n >= 1
    ensures Rev(n, x) == 2 * Rev(n - 1, x) + Shr(x, n - 1) % 2
  {
    if n > 1 { RevLast(n - 1, x / 2); }
  }

  /** Reversal undoes itself. */
  lemma {:induction false} RevRev(n: nat, x: nat)
    ensures Rev(n, Rev(n, x)) == Low(x, n)
  {
    hide Rev, Low, Pow2, Shl, Shr;
    if n == 0 {
      OfNoBits(x, Rev(0, x));
    } else {
      var y, t := Rev(n - 1, x / 2), x % 2;
      RevRev(n - 1, x / 2);
      RevFirst(n, x);
      RevLast(n, Rev(n, x));
      ShlOne(n - 1);
      SplitUnique(t, y, n - 1);
      RevLow(n - 1, Rev(n, x));
    }
  }

  // --------------------------------------------------------------- matching

  /** The code of s as the decoder sees it: first bit in the lowest position. */
  function RevCode(lens: seq<nat>, s: nat): nat
    requires s < |lens|
  {
    Rev(lens[s], Code(lens, s))
  }

  /** Bits h, first bit lowest, begin with the code of s. */
  predicate Matches(lens: seq<nat>, s: nat, h: nat) {
    s < |lens| && lens[s] != 0 && Low(h, lens[s]) == RevCode(lens, s)
  }

  /** Where the bits h fall on the line of 2^15 points. */
  function Point(h: nat): (p: nat)
    ensures p < Pow2(MAXBITS)
  {
    Rev(MAXBITS, h)
  }

  /** Beginning with an l-bit code c is having its value as leading l bits. */
  lemma MatchIsPrefix(l: nat, c: nat, h: nat)
    requires l <= MAXBITS && c < Pow2(l)
    ensures Low(h, l) == Rev(l, c) <==> Shr(Point(h), MAXBITS - l) == c
  {
    RevPrefix(MAXBITS, l, h);
    RevRev(l, c);
    LowSmall(c, l);
    RevRev(l, h);
    RevLow(l, h);
  }

  /** Having leading l bits c is lying in the interval of c. */
  lemma PrefixIsInterval(l: nat, c: nat, p: nat)
    requires l <= MAXBITS
    ensures Shr(p, MAXBITS - l) == c
       <==> Shl(c, MAXBITS - l) <= p < Shl(c, MAXBITS - l) + Pow2(MAXBITS - l)
  {
    var d := MAXBITS - l;
    Split(p, d);
    ShlSucc(c, d);
    ShlSucc(Shr(p, d), d);
    ShlMono(c, Shr(p, d), d);
    ShlMono(c + 1, Shr(p, d), d);
    ShlMono(Shr(p, d) + 1, c, d);
  }

  /** Beginning with the code of s is falling in the interval of s. */
  lemma MatchesIsInterval(lens: seq<nat>, s: nat, h: nat)
    requires s < |lens| && ValidLens(lens) && lens[s] != 0 && Kraft(lens) <= Pow2(MAXBITS)
    ensures Matches(lens, s, h) <==> Start(lens, s) <= Point(h) < End(lens, s)
  {
    CodeFits(lens, s);
    MatchIsPrefix(lens[s], Code(lens, s), h);
    PrefixIsInterval(lens[s], Code(lens, s), Point(h));
  }

  /** No bits begin with two different codes: the code is prefix-free. */
  lemma PrefixFree(lens: seq<nat>, s: nat, t: nat, h: nat)
    requires ValidLens(lens) && Kraft(lens) <= Pow2(MAXBITS)
    requires Matches(lens, s, h) && Matches(lens, t, h)
    ensures s == t
  {
    MatchesIsInterval(lens, s, h);
    MatchesIsInterval(lens, t, h);
    if s != t {
      if lens[s] < lens[t] || (lens[s] == lens[t] && s < t) {
        IntervalsOrdered(lens, s, t);
      } else {
        IntervalsOrdered(lens, t, s);
      }
    }
  }

  /** A code whose Kraft sum is exactly one leaves no pattern unused. */
  lemma Complete(lens: seq<nat>, h: nat) returns (s: nat)
    requires ValidLens(lens) && Kraft(lens) == Pow2(MAXBITS)
    ensures Matches(lens, s, h)
  {
    KraftGrouped(lens, |lens|);
    s := Covered(lens, 1, Point(h));
    MatchesIsInterval(lens, s, h);
  }
}
