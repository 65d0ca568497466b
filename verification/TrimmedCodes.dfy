/**
 Symbols without a code at the end of an alphabet make no difference: a block header
 gives only the lengths up to the last symbol in use.
 */
module TrimmedCodes {
  import opened Canonical
  import opened CodeReading

  lemma {:induction false} SamePrefix(a: seq<nat>, b: seq<nat>, n: nat, l: nat)
    requires n <= |a| && n <= |b| && forall i :: 0 <= i < n ==> a[i] == b[i]
    ensures CountBelow(a, n, l) == CountBelow(b, n, l)
  {
    if n != 0 { SamePrefix(a, b, n - 1, l); }
  }

  lemma {:induction false} ZerosAdd(lens: seq<nat>, m: nat, n: nat, l: nat)
    requires m <= n <= |lens| && (forall i :: m <= i < n ==> lens[i] == 0) && l >= 1
    ensures CountBelow(lens, n, l) == CountBelow(lens, m, l)
    decreases n
  {
    if m < n { ZerosAdd(lens, m, n - 1, l); }
  }

  lemma TrimCount(lens: seq<nat>, m: nat, l: nat)
    requires m <= |lens| && (forall i :: m <= i < |lens| ==> lens[i] == 0) && l >= 1
    ensures Count(lens, l) == Count(lens[..m], l)
  {
    ZerosAdd(lens, m, |lens|, l);
    SamePrefix(lens, lens[..m], m, l);
  }

  lemma {:induction false} TrimFirstCode(lens: seq<nat>, m: nat, l: nat)
    requires m <= |lens| && forall i :: m <= i < |lens| ==> lens[i] == 0
    ensures FirstCode(lens, l) == FirstCode(lens[..m], l)
  {
    if l > 1 {
      TrimFirstCode(lens, m, l - 1);
      TrimCount(lens, m, l - 1);
    }
  }

  lemma TrimCode(lens: seq<nat>, m: nat, s: nat)
    requires m <= |lens| && (forall i :: m <= i < |lens| ==> lens[i] == 0) && s < m && lens[s] != 0
    ensures CodeOf(lens[..m], s) == CodeOf(lens, s) && RevCode(lens[..m], s) == RevCode(lens, s)
  {
    TrimFirstCode(lens, m, lens[s]);
    SamePrefix(lens, lens[..m], s, lens[s]);
  }

  lemma {:induction false} TrimKraftBelow(lens: seq<nat>, m: nat, n: nat)
    requires ValidLens(lens) && m <= |lens| && n <= m
    ensures KraftBelow(lens[..m], n) == KraftBelow(lens, n)
  {
    if n != 0 { TrimKraftBelow(lens, m, n - 1); }
  }

  lemma {:induction false} KraftZeros(lens: seq<nat>, m: nat, n: nat)
    requires ValidLens(lens) && m <= n <= |lens| && forall i :: m <= i < n ==> lens[i] == 0
    ensures KraftBelow(lens, n) == KraftBelow(lens, m)
    decreases n
  {
    if m < n { KraftZeros(lens, m, n - 1); }
  }

  lemma TrimKraft(lens: seq<nat>, m: nat)
    requires ValidLens(lens) && m <= |lens| && forall i :: m <= i < |lens| ==> lens[i] == 0
    ensures Kraft(lens[..m]) == Kraft(lens)
  {
    KraftZeros(lens, m, |lens|);
    TrimKraftBelow(lens, m, m);
  }
}
