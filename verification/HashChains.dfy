/**
 The dictionary of the matcher: head[] and prev[] chain the inserted positions that
 share a hash key, prev[] indexed modulo the window size (zlib/deflate.c:160-222).

 Positions are counted from the start of the whole input `text`; the window shows
 it from `base` on, and the tables hold positions relative to base, 0 meaning none.
 */
module HashChains {
  import opened BitOps
  import opened HashKey

  datatype Sizes = Sizes(wBits: nat, hash: HashSize)

  ghost function KeyAt(z: Sizes, text: seq<byte>, p: nat): nat
    requires p + 3 <= |text|
  {
    Key(z.hash, text[p], text[p + 1], text[p + 2])
  }

  /** A table entry: nothing, or an inserted position before `bound` with this key. */
  ghost predicate Link(z: Sizes, text: seq<byte>, inserted: set<nat>, base: nat, m: nat, key: nat, bound: nat) {
    m == 0 || (base + m in inserted && base + m < bound && base + m + 3 <= |text| && KeyAt(z, text, base + m) == key)
  }

  /** No position inserted after that one and before `bound` has this key. */
  ghost predicate Newest(z: Sizes, text: seq<byte>, inserted: set<nat>, base: nat, m: nat, key: nat, bound: nat) {
    forall q: nat :: q in inserted && base + m < q < bound && q + 3 <= |text| ==> KeyAt(z, text, q) != key
  }

  /** The newest position before `bound` with this key, or nothing if there is none after base. */
  ghost predicate Latest(z: Sizes, text: seq<byte>, inserted: set<nat>, base: nat, m: nat, key: nat, bound: nat) {
    Link(z, text, inserted, base, m, key, bound) && Newest(z, text, inserted, base, m, key, bound)
  }

  ghost predicate Heads(z: Sizes, head: seq<nat>, text: seq<byte>, inserted: set<nat>, base: nat, top: nat) {
    |head| == Pow2(z.hash.bits) && forall k :: 0 <= k < |head| ==> Latest(z, text, inserted, base, head[k], k, top)
  }

  /** The slot of a position still holds its link while no later position can have overwritten it. */
  ghost predicate Prevs(z: Sizes, prev: seq<nat>, text: seq<byte>, inserted: set<nat>, base: nat, top: nat) {
    && |prev| == Pow2(z.wBits)
    && forall p: nat :: p in inserted && top <= p + Pow2(z.wBits) ==>
         p + 3 <= |text| && Latest(z, text, inserted, base, prev[Low(p, z.wBits)], KeyAt(z, text, p), p)
  }

  ghost predicate Chains(z: Sizes, head: seq<nat>, prev: seq<nat>, text: seq<byte>, inserted: set<nat>,
                         base: nat, top: nat)
  {
    && Within(inserted, text, top)
    && Heads(z, head, text, inserted, base, top) && Prevs(z, prev, text, inserted, base, top)
  }

  lemma ChainsWithin(z: Sizes, head: seq<nat>, prev: seq<nat>, text: seq<byte>, inserted: set<nat>, base: nat, top: nat)
    requires Chains(z, head, prev, text, inserted, base, top)
    ensures Within(inserted, text, top)
  {
  }

  // ------------------------------------------------------------- more input

  ghost predicate Within(inserted: set<nat>, text: seq<byte>, top: nat) {
    forall p: nat :: p in inserted ==> p + 3 <= |text| && p < top
  }

  lemma LatestGrows(z: Sizes, text: seq<byte>, more: seq<byte>, inserted: set<nat>, base: nat, m: nat,
                    key: nat, bound: nat, top: nat)
    requires Latest(z, text, inserted, base, m, key, bound) && Within(inserted, text, top)
    ensures Latest(z, text + more, inserted, base, m, key, bound)
  {
    forall q: nat | q in inserted && base + m < q < bound ensures KeyAt(z, text + more, q) != key {
      assert KeyAt(z, text + more, q) == KeyAt(z, text, q);
    }
  }

  lemma ChainsGrow(z: Sizes, head: seq<nat>, prev: seq<nat>, text: seq<byte>, more: seq<byte>, inserted: set<nat>,
                   base: nat, top: nat)
    requires Chains(z, head, prev, text, inserted, base, top)
    ensures Chains(z, head, prev, text + more, inserted, base, top)
  {
    hide Latest;
    forall k | 0 <= k < |head| ensures Latest(z, text + more, inserted, base, head[k], k, top) {
      LatestGrows(z, text, more, inserted, base, head[k], k, top, top);
    }
    forall p: nat | p in inserted && top <= p + Pow2(z.wBits)
      ensures p + 3 <= |text + more|
              && Latest(z, text + more, inserted, base, prev[Low(p, z.wBits)], KeyAt(z, text + more, p), p)
    {
      LatestGrows(z, text, more, inserted, base, prev[Low(p, z.wBits)], KeyAt(z, text, p), p, top);
    }
  }

  // ---------------------------------------------------------------- inserting

  /** Positions less than a window apart have different slots. */
  lemma SlotsDiffer(p: nat, q: nat, k: nat)
    requires p < q < p + Pow2(k)
    ensures Low(p, k) != Low(q, k)
  {
    Split(p, k);
    Split(q, k);
    if Shr(q, k) <= Shr(p, k) {
      ShlMono(Shr(q, k), Shr(p, k), k);
    } else {
      ShlMono(Shr(p, k) + 1, Shr(q, k), k);
      ShlSucc(Shr(p, k), k);
    }
  }

  /** A newer position that comes after the bound, or has another key, changes nothing. */
  lemma LatestMore(z: Sizes, text: seq<byte>, inserted: set<nat>, base: nat, m: nat, key: nat, bound: nat,
                   p: nat, bound': nat, top: nat)
    requires Latest(z, text, inserted, base, m, key, bound) && Within(inserted, text, top)
    requires bound == bound' <= p || (top <= bound <= bound' && p + 3 <= |text| && KeyAt(z, text, p) != key)
    ensures Latest(z, text, inserted + {p}, base, m, key, bound')
  {
    hide KeyAt;
  }

  lemma LatestItself(z: Sizes, text: seq<byte>, inserted: set<nat>, base: nat, top: nat, p: nat)
    requires Within(inserted, text, top) && top <= p && p + 3 <= |text| && base <= p
    ensures Latest(z, text, inserted + {p}, base, p - base, KeyAt(z, text, p), p + 1)
  {
    hide KeyAt;
  }

  lemma InsertHead(z: Sizes, head: seq<nat>, text: seq<byte>, inserted: set<nat>, base: nat, top: nat, p: nat)
    requires Heads(z, head, text, inserted, base, top) && Within(inserted, text, top)
    requires top <= p && p + 3 <= |text| && base <= p
    ensures KeyAt(z, text, p) < |head|
    ensures Heads(z, head[KeyAt(z, text, p) := p - base], text, inserted + {p}, base, p + 1)
  {
    hide Latest;
    var key := KeyAt(z, text, p);
    var head' := head[key := p - base];
    forall k | 0 <= k < |head| ensures Latest(z, text, inserted + {p}, base, head'[k], k, p + 1) {
      if k != key {
        LatestMore(z, text, inserted, base, head[k], k, top, p, p + 1, top);
      } else {
        LatestItself(z, text, inserted, base, top, p);
      }
    }
  }

  lemma InsertPrev(z: Sizes, prev: seq<nat>, text: seq<byte>, inserted: set<nat>, base: nat, top: nat, p: nat, m: nat)
    requires Prevs(z, prev, text, inserted, base, top) && Within(inserted, text, top)
    requires top <= p && p + 3 <= |text|
    requires Latest(z, text, inserted, base, m, KeyAt(z, text, p), top)
    ensures Low(p, z.wBits) < |prev|
    ensures Prevs(z, prev[Low(p, z.wBits) := m], text, inserted + {p}, base, p + 1)
  {
    hide Latest;
    var prev' := prev[Low(p, z.wBits) := m];
    forall q: nat | q in inserted + {p} && p + 1 <= q + Pow2(z.wBits)
      ensures q + 3 <= |text|
              && Latest(z, text, inserted + {p}, base, prev'[Low(q, z.wBits)], KeyAt(z, text, q), q)
    {
      if q == p {
        LatestUpTo(z, text, inserted, base, m, KeyAt(z, text, p), top, p);
        LatestMore(z, text, inserted, base, m, KeyAt(z, text, p), p, p, p, top);
      } else {
        SlotsDiffer(q, p, z.wBits);
        LatestMore(z, text, inserted, base, prev[Low(q, z.wBits)], KeyAt(z, text, q), q, p, q, top);
      }
    }
  }

  lemma LatestUpTo(z: Sizes, text: seq<byte>, inserted: set<nat>, base: nat, m: nat, key: nat, top: nat, bound: nat)
    requires Latest(z, text, inserted, base, m, key, top) && Within(inserted, text, top) && top <= bound
    ensures Latest(z, text, inserted, base, m, key, bound)
  {
    hide KeyAt;
  }

  lemma InsertKeeps(z: Sizes, head: seq<nat>, prev: seq<nat>, text: seq<byte>, inserted: set<nat>,
                    base: nat, top: nat, p: nat)
    requires Chains(z, head, prev, text, inserted, base, top)
    requires top <= p && p + 3 <= |text| && base <= p
    ensures KeyAt(z, text, p) < |head| && Low(p, z.wBits) < |prev|
    ensures var key := KeyAt(z, text, p);
      && Latest(z, text, inserted, base, head[key], key, p)
      && Chains(z, head[key := p - base], prev[Low(p, z.wBits) := head[key]], text, inserted + {p}, base, p + 1)
  {
    hide Latest;
    InsertHead(z, head, text, inserted, base, top, p);
    InsertPrev(z, prev, text, inserted, base, top, p, head[KeyAt(z, text, p)]);
    LatestUpTo(z, text, inserted, base, head[KeyAt(z, text, p)], KeyAt(z, text, p), top, p);
  }

  /** The window shows the input from base on, up to index `end`. */
  ghost predicate Shows(window: seq<byte>, text: seq<byte>, base: nat, end: nat) {
    end <= |window| && base + end == |text| && forall i :: 0 <= i < end ==> window[i] == text[base + i]
  }

  /** base is a whole number of windows. */
  ghost predicate Aligned(z: Sizes, base: nat, slides: nat) {
    base == Shl(slides, z.wBits)
  }

  /** INSERT_STRING (zlib/deflate.c:176-179): hashHead is the previous head of the chain of str, the newest position
      with its key. */
  method InsertString(z: Sizes, window: array<byte>, prev: array<nat>, head: array<nat>, insH0: nat, str: nat,
                      ghost text: seq<byte>, ghost inserted: set<nat>, ghost base: nat, ghost slides: nat,
                      ghost top: nat, ghost end: nat)
    returns (insH: nat, hashHead: nat)
    requires ValidHashSize(z.hash) && prev != head && Aligned(z, base, slides)
    requires Shows(window[..], text, base, end) && str + 3 <= end
    requires Chains(z, head[..], prev[..], text, inserted, base, top) && top <= base + str
    requires Primed(z.hash, insH0, window[str], window[str + 1])
    modifies prev, head
    ensures Chains(z, head[..], prev[..], text, inserted + {base + str}, base, base + str + 1)
    ensures Primed(z.hash, insH, window[str + 1], window[str + 2])
    ensures Latest(z, text, inserted, base, hashHead, KeyAt(z, text, base + str), base + str)
  {
    hide Pow2, Shl, Shr, Low, Latest, Within, Heads, Prevs;
    ghost var p, h: seq<nat>, q: seq<nat> := base + str, head[..], prev[..];
    PrimedKey(z.hash, insH0, window[str], window[str + 1], window[str + 2]);
    KeyPrimes(z.hash, window[str], window[str + 1], window[str + 2]);
    InsertKeeps(z, h, q, text, inserted, base, top, p);
    ShrAdd(slides, str, z.wBits);
    insH := Update(z.hash, insH0, window[str + 2]);
    assert insH == KeyAt(z, text, p);
    hashHead := head[insH];
    prev[Low(str, z.wBits)] := hashHead;
    head[insH] := str;
    assert head[..] == h[insH := str] && prev[..] == q[Low(p, z.wBits) := hashHead];
  }

  // ------------------------------------------------------------------ sliding

  function Slid(m: nat, wSize: nat): nat {
    if m >= wSize then m - wSize else 0
  }

  lemma LatestSlides(z: Sizes, text: seq<byte>, inserted: set<nat>, base: nat, m: nat, key: nat, bound: nat, w: nat)
    requires Latest(z, text, inserted, base, m, key, bound)
    ensures Latest(z, text, inserted, base + w, Slid(m, w), key, bound)
  {
    hide KeyAt;
    if m > w { assert base + w + (m - w) == base + m; }
  }

  lemma ChainsSlide(z: Sizes, head: seq<nat>, prev: seq<nat>, head': seq<nat>, prev': seq<nat>, text: seq<byte>,
                    inserted: set<nat>, base: nat, top: nat)
    requires Chains(z, head, prev, text, inserted, base, top) && |head'| == |head| && |prev'| == |prev|
    requires forall k :: 0 <= k < |head| ==> head'[k] == Slid(head[k], Pow2(z.wBits))
    requires forall k :: 0 <= k < |prev| ==> prev'[k] == Slid(prev[k], Pow2(z.wBits))
    ensures Chains(z, head', prev', text, inserted, base + Pow2(z.wBits), top)
  {
    hide Latest;
    var w := Pow2(z.wBits);
    forall k | 0 <= k < |head| ensures Latest(z, text, inserted, base + w, head'[k], k, top) {
      LatestSlides(z, text, inserted, base, head[k], k, top, w);
    }
    forall p: nat | p in inserted && top <= p + w
      ensures p + 3 <= |text| && Latest(z, text, inserted, base + w, prev'[Low(p, z.wBits)], KeyAt(z, text, p), p)
    {
      LatestSlides(z, text, inserted, base, prev[Low(p, z.wBits)], KeyAt(z, text, p), p, w);
    }
  }

  method SlideTable(a: array<nat>, wSize: nat)
    modifies a
    ensures forall k :: 0 <= k < a.Length ==> a[k] == Slid(old(a[k]), wSize)
  {
    var n: nat := a.Length;
    while n != 0
      invariant n <= a.Length
      invariant forall k :: 0 <= k < n ==> a[k] == old(a[k])
      invariant forall k :: n <= k < a.Length ==> a[k] == Slid(old(a[k]), wSize)
    {
      n := n - 1;
      var m := a[n];
      a[n] := if m >= wSize then m - wSize else 0;
    }
  }

  /** slide_hash (zlib/deflate.c:198-222). */
  method SlideHash(z: Sizes, head: array<nat>, prev: array<nat>, wSize: nat,
                   ghost text: seq<byte>, ghost inserted: set<nat>, ghost base: nat, ghost top: nat)
    requires head != prev && wSize == Pow2(z.wBits)
    requires Chains(z, head[..], prev[..], text, inserted, base, top)
    modifies head, prev
    ensures Chains(z, head[..], prev[..], text, inserted, base + wSize, top)
  {
    SlideTable(head, wSize);
    SlideTable(prev, wSize);
    ChainsSlide(z, old(head[..]), old(prev[..]), head[..], prev[..], text, inserted, base, top);
  }

  /** CLEAR_HASH: nothing is chained. */
  lemma NothingChained(z: Sizes, head: seq<nat>, prev: seq<nat>, text: seq<byte>, base: nat)
    requires |head| == Pow2(z.hash.bits) && |prev| == Pow2(z.wBits) && forall k :: 0 <= k < |head| ==> head[k] == 0
    ensures Chains(z, head, prev, text, {}, base, base)
  {
  }
}
