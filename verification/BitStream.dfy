/**
 Strings of bits, the first lowest, and the bit buffer that zlib/trees.c packs them
 into bytes with (zlib/trees.c:170-223 and 1148-1181).
 */
module BitStream {
  import opened BitOps

  /** n bits, as the number they spell from the lowest up. */
  datatype Bits = Bits(v: nat, n: nat)

  const NoBits: Bits := Bits(0, 0)

  ghost predicate Proper(b: Bits) {
    b.v < Pow2(b.n)
  }

  function Join(a: Bits, b: Bits): Bits {
    Bits(a.v + Shl(b.v, a.n), a.n + b.n)
  }

  lemma JoinProper(a: Bits, b: Bits)
    requires Proper(a) && Proper(b)
    ensures Proper(Join(a, b))
  {
    ShlBound(b.v, a.n, b.n);
  }

  lemma JoinAssoc(a: Bits, b: Bits, c: Bits)
    ensures Join(Join(a, b), c) == Join(a, Join(b, c))
  {
    ShlAdd(b.v, Shl(c.v, b.n), a.n);
    ShlShl(c.v, b.n, a.n);
  }

  lemma JoinNone(a: Bits)
    ensures Join(a, NoBits) == a && Join(NoBits, a) == a
  {
    ShlOne(a.n);
  }

  /** The bits of b are read first, and what follows them is left. */
  lemma ReadBack(b: Bits, rest: nat)
    requires Proper(b)
    ensures Low(b.v + Shl(rest, b.n), b.n) == b.v && Shr(b.v + Shl(rest, b.n), b.n) == rest
  {
    SplitUnique(rest, b.v, b.n);
  }

  /** Reading b and then c from their joint bits. */
  lemma JoinThen(b: Bits, c: Bits, rest: nat)
    ensures Join(b, c).v + Shl(rest, Join(b, c).n) == b.v + Shl(c.v + Shl(rest, c.n), b.n)
  {
    ShlAdd(c.v, Shl(rest, c.n), b.n);
    ShlShl(rest, c.n, b.n);
  }

  function BytesBits(bs: seq<byte>): Bits {
    Bits(Load(bs), 8 * |bs|)
  }

  lemma BytesJoin(bs: seq<byte>, cs: seq<byte>)
    ensures BytesBits(bs + cs) == Join(BytesBits(bs), BytesBits(cs))
  {
    hide Load, Shl;
    LoadAppend(bs, cs);
  }

  // ------------------------------------------------------------ the bit buffer

  const BUF_SIZE: nat := 16

  /** Bits cut in two at bit k. */
  lemma Cut(x: nat, k: nat, n: nat)
    requires k <= n
    ensures Join(Bits(Low(x, k), k), Bits(Shr(x, k), n - k)) == Bits(x, n)
  {
    Split(x, k);
  }

  /** A short as two bytes, the low one first. */
  lemma ShortBytes(x: nat)
    ensures Low(x, 8) < 256 && Low(Shr(x, 8), 8) < 256
    ensures BytesBits([Low(x, 8), Low(Shr(x, 8), 8)]) == Bits(Low(x, 16), 16)
  {
    hide Low, Shr, Shl;
    Pow2Byte();
    LowAdd(x, 8, 8);
    var lo: byte, hi: byte := Low(x, 8), Low(Shr(x, 8), 8);
    TwoBytes(lo, hi);
  }

  lemma OneLoad(b: byte)
    ensures Load([b]) == b
  {
    assert [b][1..] == [];
    assert Load([]) == 0;
    ShlOne(8);
  }

  lemma TwoBytes(lo: byte, hi: byte)
    ensures Load([lo, hi]) == lo + Shl(hi, 8)
  {
    hide Shl;
    assert [lo, hi][1..] == [hi];
    OneLoad(hi);
  }

  /** The value that does not fit is cut at the end of the buffer. */
  lemma Overflow(buf: nat, valid: nat, value: nat, length: nat)
    requires buf < Pow2(valid) && valid <= BUF_SIZE < valid + length && value < Pow2(length)
    ensures var x := Or(buf, Shl(value, valid));
      && Join(Bits(Low(x, 16), 16), Bits(Shr(value, BUF_SIZE - valid), valid + length - BUF_SIZE))
         == Join(Bits(buf, valid), Bits(value, length))
      && Shr(value, BUF_SIZE - valid) < Pow2(valid + length - BUF_SIZE)
  {
    hide Or, Low, Shr, Shl, Pow2;
    var x := buf + Shl(value, valid);
    OrDisjoint(buf, value, valid);
    Cut(x, 16, valid + length);
    ShrShr(x, valid, BUF_SIZE - valid);
    SplitUnique(value, buf, valid);
    ShrBound(value, BUF_SIZE - valid, valid + length - BUF_SIZE);
  }

  /** pending_buf, bi_buf and bi_valid. */
  class BitWriter {
    var pending: seq<byte>
    var biBuf: nat
    var biValid: nat

    ghost predicate Valid()
      reads this
    {
      biValid <= BUF_SIZE && biBuf < Pow2(biValid)
    }

    /** Every bit sent so far. */
    ghost function Written(): Bits
      reads this
    {
      Join(BytesBits(pending), Bits(biBuf, biValid))
    }

    constructor ()
      ensures Valid() && Written() == NoBits && biValid == 0
    {
      pending, biBuf, biValid := [], 0, 0;
    }

    /** put_short. */
    method PutShort(w: nat)
      modifies this`pending
      ensures BytesBits(pending) == Join(old(BytesBits(pending)), Bits(Low(w, 16), 16))
    {
      ShortBytes(w);
      BytesJoin(pending, [Low(w, 8), Low(Shr(w, 8), 8)]);
      pending := pending + [Low(w, 8), Low(Shr(w, 8), 8)];
    }

    /** send_bits (zlib/trees.c:179-223). */
    method SendBits(value: nat, length: nat)
      requires Valid() && length <= BUF_SIZE && value < Pow2(length)
      modifies this
      ensures Valid() && Written() == Join(old(Written()), Bits(value, length))
    {
      hide Or, Low, Shr, Shl, Pow2, Join;
      JoinAssoc(BytesBits(pending), Bits(biBuf, biValid), Bits(value, length));
      if biValid > BUF_SIZE - length {
        Overflow(biBuf, biValid, value, length);
        ghost var b := Bits(Shr(value, BUF_SIZE - biValid), biValid + length - BUF_SIZE);
        JoinAssoc(BytesBits(pending), Bits(Low(Or(biBuf, Shl(value, biValid)), 16), 16), b);
        PutShort(Or(biBuf, Shl(value, biValid)));
        biBuf := Shr(value, BUF_SIZE - biValid);
        biValid := biValid + length - BUF_SIZE;
      } else {
        Fits(biBuf, biValid, value, length);
        biBuf := Or(biBuf, Shl(value, biValid));
        biValid := biValid + length;
      }
    }

    /** bi_windup (zlib/trees.c:1165-1181): zero bits up to a byte boundary. */
    method Windup()
      requires Valid()
      modifies this
      ensures Valid() && biValid == 0 && Written() == Join(old(Written()), Pad(old(Written().n)))
      ensures Written() == BytesBits(pending)
    {
      hide Or, Low, Shr, Shl, Pow2, Join;
      ghost var p, b := BytesBits(pending), Bits(biBuf, biValid);
      JoinLength(p, b);
      PadIs(|pending|, biValid);
      JoinAssoc(p, b, Pad(biValid));
      if biValid > 8 {
        LowFits(biBuf, biValid, 16);
        Widen(b, 16);
        PutShort(biBuf);
      } else if biValid > 0 {
        LowFits(biBuf, biValid, 8);
        Pow2Byte();
        Widen(b, 8);
        OneByte(Low(biBuf, 8));
        BytesJoin(pending, [Low(biBuf, 8)]);
        pending := pending + [Low(biBuf, 8)];
      } else {
        Positive(0);
        ZeroBits(biBuf);
        JoinNone(p);
        JoinNone(NoBits);
      }
      biBuf := 0;
      biValid := 0;
      Positive(0);
      JoinNone(BytesBits(pending));
    }

    /** zmemcpy to pending_buf. */
    method PutBytes(bs: seq<byte>)
      requires Valid() && biValid == 0
      modifies this`pending
      ensures Valid() && pending == old(pending) + bs
        && BytesBits(pending) == Join(old(BytesBits(pending)), BytesBits(bs))
    {
      BytesJoin(pending, bs);
      pending := pending + bs;
    }

    /** bi_flush (zlib/trees.c:1148-1163): whole bytes leave the buffer. */
    method Flush()
      requires Valid()
      modifies this
      ensures Valid() && Written() == old(Written()) && biValid < 8
    {
      hide Or, Low, Shr, Shl, Pow2, Join;
      if biValid == 16 {
        LowSmall(biBuf, 16);
        JoinNone(Join(BytesBits(pending), Bits(biBuf, 16)));
        PutShort(biBuf);
        biBuf := 0;
        biValid := 0;
        Positive(0);
      } else if biValid >= 8 {
        Pow2Byte();
        ghost var b := Bits(Shr(biBuf, 8), biValid - 8);
        Cut(biBuf, 8, biValid);
        JoinAssoc(BytesBits(pending), Bits(Low(biBuf, 8), 8), b);
        OneByte(Low(biBuf, 8));
        BytesJoin(pending, [Low(biBuf, 8)]);
        ShrBound(biBuf, 8, biValid - 8);
        pending := pending + [Low(biBuf, 8)];
        biBuf := Shr(biBuf, 8);
        biValid := biValid - 8;
      }
    }
  }

  /** The zero bits up to a byte boundary. */
  function Pad(n: nat): Bits {
    Bits(0, (8 - n % 8) % 8)
  }

  /** Whole bytes in front do not change the padding, and the rest of a short is padding. */
  lemma PadIs(bytes: nat, valid: nat)
    requires valid <= 16
    ensures Pad(8 * bytes + valid) == Pad(valid)
    ensures Pad(valid).n == if valid == 0 then 0 else if valid <= 8 then 8 - valid else 16 - valid
  {
    hide Pad;
    var q := if valid < 8 then 0 else if valid < 16 then 1 else 2;
    PadFrom(bytes + q, valid - 8 * q);
    PadFrom(q, valid - 8 * q);
    assert 8 * bytes + valid == 8 * (bytes + q) + (valid - 8 * q);
  }

  lemma PadFrom(q: nat, r: nat)
    requires r < 8
    ensures Pad(8 * q + r) == Bits(0, if r == 0 then 0 else 8 - r)
  {
    assert (8 * q + r) % 8 == r;
  }

  lemma Widen(b: Bits, n: nat)
    requires b.n <= n
    ensures Join(b, Bits(0, n - b.n)) == Bits(b.v, n)
  {
    ShlOne(b.n);
  }

  lemma JoinLength(a: Bits, b: Bits)
    ensures Join(a, b).n == a.n + b.n
  {
  }

  lemma ZeroBits(x: nat)
    requires x < Pow2(0)
    ensures x == 0
  {
  }

  lemma LowFits(x: nat, k: nat, n: nat)
    requires x < Pow2(k) && k <= n
    ensures Low(x, n) == x
  {
    Pow2Mono(k, n);
    LowSmall(x, n);
  }

  lemma Positive(k: nat)
    ensures Pow2(k) > 0
  {
  }

  lemma OneByte(b: byte)
    ensures BytesBits([b]) == Bits(b, 8)
  {
    OneLoad(b);
  }

  lemma Fits(buf: nat, valid: nat, value: nat, length: nat)
    requires buf < Pow2(valid) && value < Pow2(length)
    ensures var x := Or(buf, Shl(value, valid));
      Bits(x, valid + length) == Join(Bits(buf, valid), Bits(value, length)) && x < Pow2(valid + length)
  {
    hide Or;
    OrDisjoint(buf, value, valid);
    ShlBound(value, valid, length);
  }
}
