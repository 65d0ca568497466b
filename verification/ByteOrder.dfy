/**
 Words of w bytes as machines of either byte order see them: byte_swap (zlib/crc32.c:115-150)
 reverses the bytes of a word of four or eight.
 */
module ByteOrder {
  import opened BitOps

  /** The bytes as one number, the first highest: a word as a big-endian machine reads it. */
  function LoadBig(bs: seq<byte>): nat
    decreases |bs|
  {
    if bs == [] then 0 else Shl(bs[0], 8 * |bs| - 8) + LoadBig(bs[1..])
  }

  /** Byte k of a word, the lowest being byte 0. */
  function ByteAt(x: nat, k: nat): nat {
    Low(Shr(x, 8 * k), 8)
  }

  /** The w low bytes of a word in reverse order. */
  function Swap(w: nat, x: nat): nat {
    if w == 0 then 0 else Shl(Low(x, 8), 8 * w - 8) + Swap(w - 1, Shr(x, 8))
  }

  lemma {:induction false} SwapBound(w: nat, x: nat)
    ensures Swap(w, x) < Pow2(8 * w)
  {
    hide Low, Shr, Shl, Pow2;
    if w == 0 {
      Pow2Mono(0, 0);
    } else {
      SwapBound(w - 1, Shr(x, 8));
      ShlBound(Low(x, 8), 8 * w - 8, 8);
    }
  }

  /** The highest byte of the result is the lowest of the word. */
  lemma SwapHighest(w: nat, x: nat)
    requires w >= 1
    ensures Shr(Swap(w, x), 8 * w - 8) == Low(x, 8) && Low(Swap(w, x), 8 * w - 8) == Swap(w - 1, Shr(x, 8))
  {
    hide Low, Shr, Shl, Pow2;
    SwapBound(w - 1, Shr(x, 8));
    SplitUnique(Low(x, 8), Swap(w - 1, Shr(x, 8)), 8 * w - 8);
  }

  /** The lowest byte of the result is the highest of the word. */
  lemma {:induction false} SwapLowest(w: nat, x: nat)
    requires w >= 1
    ensures Swap(w, x) == Shl(Swap(w - 1, x), 8) + ByteAt(x, w - 1)
    ensures Low(Swap(w, x), 8) == ByteAt(x, w - 1) && Shr(Swap(w, x), 8) == Swap(w - 1, x)
  {
    hide Low, Shr, Shl, Pow2;
    ShrNone(x);
    ShlNone(Low(x, 8));
    if w == 1 {
      ShlOne(8);
    } else {
      SwapLowest(w - 1, Shr(x, 8));
      ShrShr(x, 8, 8 * w - 16);
      ShlShl(Low(x, 8), 8 * w - 16, 8);
      ShlAdd(Shl(Low(x, 8), 8 * w - 16), Swap(w - 2, Shr(x, 8)), 8);
    }
    SplitUnique(Swap(w - 1, x), ByteAt(x, w - 1), 8);
  }

  lemma ShrNone(x: nat)
    ensures Shr(x, 0) == x
  {
  }

  lemma {:induction false} SwapZero(w: nat)
    ensures Swap(w, 0) == 0
  {
    hide Low, Shr, Shl;
    if w != 0 {
      LowSmall(0, 8);
      ShlOne(8 * w - 8);
      SwapZero(w - 1);
    }
  }

  /** Byte by byte: byte k becomes byte w - 1 - k. */
  lemma {:induction false} SwapByte(w: nat, x: nat, k: nat)
    requires k < w
    ensures ByteAt(Swap(w, x), k) == ByteAt(x, w - 1 - k)
    decreases k
  {
    hide Low, Shr, Shl, Swap;
    SwapLowest(w, x);
    if k == 0 {
      ShrNone(Swap(w, x));
    } else {
      SwapByte(w - 1, x, k - 1);
      ShrShr(Swap(w, x), 8, 8 * k - 8);
    }
  }

  /** Reversing twice changes nothing. */
  lemma {:induction false} SwapSwap(w: nat, x: nat)
    ensures Swap(w, Swap(w, x)) == Low(x, 8 * w)
  {
    hide Low, Shr, Shl, Pow2;
    if w == 0 {
      LowSmall(0, 0);
      NoneLow(x);
    } else {
      SwapLowest(w, x);
      SwapSwap(w - 1, x);
      LowAdd(x, 8 * w - 8, 8);
    }
  }

  lemma NoneLow(x: nat)
    ensures Low(x, 0) == 0
  {
  }

  lemma {:induction false} SwapXor(w: nat, x: nat, y: nat)
    ensures Swap(w, Xor(x, y)) == Xor(Swap(w, x), Swap(w, y))
  {
    hide Low, Shr, Shl, Pow2, Xor;
    if w == 0 {
      XorZero(0);
    } else {
      var k, a, b := 8 * w - 8, Low(x, 8), Low(y, 8);
      var s, t := Swap(w - 1, Shr(x, 8)), Swap(w - 1, Shr(y, 8));
      LowXor(x, y, 8);
      ShrXor(x, y, 8);
      SwapXor(w - 1, Shr(x, 8), Shr(y, 8));
      ShlXor(a, b, k);
      SwapBound(w - 1, Shr(x, 8));
      SwapBound(w - 1, Shr(y, 8));
      XorBound(s, t, k);
      XorDisjoint(a, s, k);
      XorDisjoint(b, t, k);
      XorDisjoint(Xor(a, b), Xor(s, t), k);
      XorSwap(Shl(a, k), Shl(b, k), s, t);
    }
  }

  /** The same bytes read in the other order. */
  lemma {:induction false} SwapLoad(bs: seq<byte>)
    ensures Swap(|bs|, Load(bs)) == LoadBig(bs)
    decreases |bs|
  {
    hide Low, Shr, Shl, Pow2;
    if bs != [] {
      SwapLoad(bs[1..]);
      Pow2Byte();
      SplitUnique(Load(bs[1..]), bs[0], 8);
    }
  }

  /** Shifting a word down by a byte is shifting its reverse up, within the w bytes. */
  lemma SwapShift(w: nat, x: nat)
    requires w >= 1 && x < Pow2(8 * w)
    ensures Swap(w, Shr(x, 8)) == Low(Shl(Swap(w, x), 8), 8 * w)
  {
    hide Low, Shr, Shl, Pow2, Swap;
    SwapLowest(w, Shr(x, 8));
    ShrShr(x, 8, 8 * w - 8);
    LowSmall(x, 8 * w);
    ShlOne(0);
    LowSmall(0, 8);
    SwapHighest(w, x);
    LowShl(Swap(w, x), 8, 8 * w);
  }

  // -------------------------------------------------------------------- the code

  lemma SwapNext(w: nat, x: nat, k: nat)
    requires k < w
    ensures Swap(w - k, Shr(x, 8 * k)) == Shl(ByteAt(x, k), 8 * (w - k - 1)) + Swap(w - k - 1, Shr(x, 8 * k + 8))
  {
    hide Low, Shr, Shl;
    ShrShr(x, 8 * k, 8);
  }

  /** byte_swap (zlib/crc32.c:121-142).  The fields joined do not overlap. */
  method ByteSwap(word: nat, w: nat) returns (r: nat)
    requires w == 4 || w == 8
    ensures r == Swap(w, word)
  {
    hide Low, Shr, Shl, ByteAt;
    ShrNone(word);
    ShlNone(ByteAt(word, w - 1));
    forall k | 0 <= k < w
      ensures Swap(w - k, Shr(word, 8 * k))
        == Shl(ByteAt(word, k), 8 * (w - k - 1)) + Swap(w - k - 1, Shr(word, 8 * k + 8))
    {
      SwapNext(w, word, k);
    }
    if w == 8 {
      r := ByteAt(word, 7) + Shl(ByteAt(word, 6), 8) + Shl(ByteAt(word, 5), 16) + Shl(ByteAt(word, 4), 24)
        + Shl(ByteAt(word, 3), 32) + Shl(ByteAt(word, 2), 40) + Shl(ByteAt(word, 1), 48) + Shl(ByteAt(word, 0), 56);
    } else {
      r := ByteAt(word, 3) + Shl(ByteAt(word, 2), 8) + Shl(ByteAt(word, 1), 16) + Shl(ByteAt(word, 0), 24);
    }
  }
}
