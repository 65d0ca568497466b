/**
 The running hash key of `UPDATE_HASH` (zlib/deflate.c:157), and why three bytes
 with equal keys and equal first two bytes are equal: the last byte enters the key
 unshifted, and the key keeps at least eight bits.
 */
module HashKey {
  import opened BitOps

  /** zlib/deflate.c: hash_bits and hash_shift; the oldest of three bytes leaves the key. */
  datatype HashSize = HashSize(bits: nat, shift: nat)

  predicate ValidHashSize(p: HashSize) {
    8 <= p.bits <= 16 && p.shift == (p.bits + 2) / 3
  }

  /** UPDATE_HASH. */
  function Update(p: HashSize, h: nat, c: byte): (r: nat)
    ensures r < Pow2(p.bits)
  {
    Low(Xor(Shl(h, p.shift), c), p.bits)
  }

  function Key(p: HashSize, a: byte, b: byte, c: byte): (r: nat)
    ensures r < Pow2(p.bits)
  {
    Update(p, Xor(Shl(a, p.shift), b), c)
  }

  /** h is what is left of the key after bytes a and b, as far as the next byte's key needs it. */
  ghost predicate Primed(p: HashSize, h: nat, a: byte, b: byte) {
    p.shift <= p.bits && Low(h, p.bits - p.shift) == Low(Xor(Shl(a, p.shift), b), p.bits - p.shift)
  }

  /** A primed key takes the third byte to the key of the three. */
  lemma PrimedKey(p: HashSize, h: nat, a: byte, b: byte, c: byte)
    requires Primed(p, h, a, b)
    ensures Update(p, h, c) == Key(p, a, b, c)
  {
    var g := Xor(Shl(a, p.shift), b);
    LowXor(Shl(h, p.shift), c, p.bits);
    LowXor(Shl(g, p.shift), c, p.bits);
    LowShl(h, p.shift, p.bits);
    LowShl(g, p.shift, p.bits);
  }

  /** After three bytes the first has left: the key is primed for the other two. */
  lemma KeyPrimes(p: HashSize, a: byte, b: byte, c: byte)
    requires ValidHashSize(p)
    ensures Primed(p, Key(p, a, b, c), b, c)
  {
    var s, k := p.shift, p.bits - p.shift;
    var full := Xor(Shl(Xor(Shl(a, s), b), s), c);
    LowLow(full, k, s);
    LowXor(Shl(Xor(Shl(a, s), b), s), c, k);
    ShlXor(Shl(a, s), b, s);
    LowXor(Shl(Shl(a, s), s), Shl(b, s), k);
    ShlShl(a, s, s);
    LowShl(a, s + s, k);
    LowXor(Shl(b, s), c, k);
    XorZero(Low(Shl(b, s), k));
  }

  /** zlib/deflate.c:1587-1588: starting over from two bytes primes the key. */
  lemma StartPrimes(p: HashSize, a: byte, b: byte)
    requires ValidHashSize(p)
    ensures Primed(p, Update(p, a, b), a, b)
  {
    LowLow(Xor(Shl(a, p.shift), b), p.bits - p.shift, p.shift);
  }

  /** zlib/deflate.c:1379-1384: why the third byte of a candidate need not be compared. */
  lemma ThirdByte(p: HashSize, a: byte, b: byte, c: byte, d: byte)
    requires ValidHashSize(p) && Key(p, a, b, c) == Key(p, a, b, d)
    ensures c == d
  {
    var g := Shl(Xor(Shl(a, p.shift), b), p.shift);
    LowLow(Xor(g, c), 8, p.bits - 8);
    LowLow(Xor(g, d), 8, p.bits - 8);
    LowXor(g, c, 8);
    LowXor(g, d, 8);
    assert Pow2(8) == 256;
    LowSmall(c, 8);
    LowSmall(d, 8);
    XorCancel(Low(g, 8), c, d);
  }
}
