/**
 The fixed codes (section 3.2.6 of RFC 1951) as `tr_static_init` builds them
 (zlib/trees.c:288-305): a canonical code like any other.
 */
module StaticTrees {
  import opened Canonical
  import opened BuildTree
  import opened CodeReading
  import opened CompressBlock

  const L_CODES: nat := 286

  function LitLength(n: nat): nat {
    if n <= 143 then 8 else if n <= 255 then 9 else if n <= 279 then 7 else 8
  }

  function StaticLit(): (lens: seq<nat>)
    ensures |lens| == L_CODES + 2 && forall n :: 0 <= n < |lens| ==> lens[n] == LitLength(n)
  {
    seq(L_CODES + 2, n requires 0 <= n => LitLength(n))
  }

  /** All 32 distance symbols have five bits; the last two are never sent. */
  function StaticDist(m: nat): (lens: seq<nat>)
    ensures |lens| == m && forall n :: 0 <= n < |lens| ==> lens[n] == 5
  {
    seq(m, _ => 5)
  }

  /** zlib/trees.c:291-294: some symbols more of one length, counted. */
  method SetLengths(len: array<nat>, blCount: array<nat>, from: nat, to: nat, l: nat)
    requires len != blCount && len.Length == L_CODES + 2 && blCount.Length == MAXBITS + 1 && l <= MAXBITS
    requires from <= to <= len.Length && (forall n :: from <= n < to ==> LitLength(n) == l)
    requires (forall n :: 0 <= n < from ==> len[n] == LitLength(n))
    requires forall b :: 0 <= b <= MAXBITS ==> blCount[b] == CountBelow(StaticLit(), from, b)
    modifies len, blCount
    ensures forall n :: 0 <= n < to ==> len[n] == LitLength(n)
    ensures forall b :: 0 <= b <= MAXBITS ==> blCount[b] == CountBelow(StaticLit(), to, b)
  {
    var n := from;
    while n < to
      invariant from <= n <= to
      invariant forall i :: 0 <= i < n ==> len[i] == LitLength(i)
      invariant forall b :: 0 <= b <= MAXBITS ==> blCount[b] == CountBelow(StaticLit(), n, b)
    {
      len[n] := l;
      n := n + 1;
      blCount[l] := blCount[l] + 1;
    }
  }

  lemma {:induction false} NoneOfLength(lens: seq<nat>, n: nat, b: nat)
    requires n <= |lens| && forall i :: 0 <= i < n ==> lens[i] != b
    ensures CountBelow(lens, n, b) == 0
  {
    if n != 0 { NoneOfLength(lens, n - 1, b); }
  }

  /** zlib/trees.c:290-294: the lengths and how many there are of each. */
  method StaticLengths(len: array<nat>, blCount: array<nat>)
    requires len != blCount && len.Length == L_CODES + 2 && blCount.Length == MAXBITS + 1
    requires forall b :: 0 <= b <= MAXBITS ==> blCount[b] == 0
    modifies len, blCount
    ensures len[..] == StaticLit()
    ensures forall b :: 0 <= b <= MAXBITS ==> blCount[b] == Count(StaticLit(), b)
  {
    SetLengths(len, blCount, 0, 144, 8);
    SetLengths(len, blCount, 144, 256, 9);
    SetLengths(len, blCount, 256, 280, 7);
    SetLengths(len, blCount, 280, 288, 8);
  }

  /** The static literal tree (zlib/trees.c:288-299). */
  method StaticLitTree() returns (code: array<nat>, len: array<nat>)
    ensures fresh(code) && fresh(len) && TreeReady(code[..], len[..], StaticLit())
  {
    hide RevCode;
    code := new nat[L_CODES + 2](i => 0);
    len := new nat[L_CODES + 2](i => 0);
    var blCount := new nat[MAXBITS + 1](i => 0);
    StaticLengths(len, blCount);
    ghost var lens := StaticLit();
    NoneOfLength(lens, |lens|, 0);
    GenCodes(code, len, L_CODES + 1, blCount, lens);
  }

  lemma {:induction false} AllFives(m: nat, n: nat)
    requires n <= m
    ensures CountBelow(StaticDist(m), n, 5) == n
  {
    if n != 0 { AllFives(m, n - 1); }
  }

  lemma {:induction false} FirstFive(m: nat, b: nat)
    requires b <= 5
    ensures FirstCode(StaticDist(m), b) == 0
  {
    if b > 1 {
      FirstFive(m, b - 1);
      NoneOfLength(StaticDist(m), m, b - 1);
    }
  }

  lemma FiveBits(m: nat, n: nat)
    requires n < m
    ensures CodeOf(StaticDist(m), n).v == Rev(5, n) && RevCode(StaticDist(m), n) == Rev(5, n)
  {
    FirstFive(m, 5);
    AllFives(m, n);
  }

  /** The static distance tree is trivial (zlib/trees.c:301-305). */
  method StaticDistTree() returns (code: array<nat>, len: array<nat>)
    ensures fresh(code) && fresh(len) && TreeReady(code[..], len[..], StaticDist(30))
  {
    hide RevCode;
    code := new nat[30](i => 0);
    len := new nat[30](i => 0);
    for n := 0 to 30
      invariant forall i :: 0 <= i < n ==> len[i] == 5 && code[i] == RevCode(StaticDist(30), i)
    {
      FiveBits(30, n);
      len[n] := 5;
      code[n] := BiReverse(n, 5);
    }
  }
}
