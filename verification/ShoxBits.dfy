/**
 Bits in the order shox96 writes and reads them, the highest of a byte first
 (SQLite_Esp_Port/shox96_0_2.cpp:53-86 and 338-340).
 */
module ShoxBits {
  import opened BitOps

  predicate Bit(x: nat, k: nat) {
    Shr(x, k) % 2 == 1
  }

  function And(x: nat, y: nat): nat
    decreases x + y
  {
    if x + y == 0 then 0 else (if x % 2 == 1 && y % 2 == 1 then 1 else 0) + 2 * And(x / 2, y / 2)
  }

  lemma BitStep(x: nat, k: nat)
    ensures Bit(x, 0) <==> x % 2 == 1
    ensures Bit(x, k + 1) <==> Bit(x / 2, k)
  {
  }

  lemma {:induction false} AndBit(x: nat, y: nat, k: nat)
    ensures Bit(And(x, y), k) <==> Bit(x, k) && Bit(y, k)
  {
    hide Bit;
    if x + y == 0 {
      ZeroBit(k);
    } else {
      var n := if k == 0 then 0 else k - 1;
      BitStep(x, n);
      BitStep(y, n);
      BitStep(And(x, y), n);
      assert And(x, y) / 2 == And(x / 2, y / 2);
      if k != 0 { AndBit(x / 2, y / 2, k - 1); }
    }
  }

  lemma {:induction false} OrBit(x: nat, y: nat, k: nat)
    ensures Bit(Or(x, y), k) <==> Bit(x, k) || Bit(y, k)
  {
    hide Bit;
    if x + y == 0 {
      ZeroBit(k);
    } else {
      var n := if k == 0 then 0 else k - 1;
      BitStep(x, n);
      BitStep(y, n);
      BitStep(Or(x, y), n);
      assert Or(x, y) / 2 == Or(x / 2, y / 2);
      if k != 0 { OrBit(x / 2, y / 2, k - 1); }
    }
  }

  lemma {:induction false} ZeroBit(k: nat)
    ensures !Bit(0, k)
  {
    if k != 0 { ZeroBit(k - 1); }
  }

  lemma {:induction false} OrBound(x: nat, y: nat, k: nat)
    requires x < Pow2(k) && y < Pow2(k)
    ensures Or(x, y) < Pow2(k)
  {
    if k != 0 { OrBound(x / 2, y / 2, k - 1); }
  }

  lemma {:induction false} AndBound(x: nat, y: nat)
    ensures And(x, y) <= y
    decreases x + y
  {
    if x + y != 0 { AndBound(x / 2, y / 2); }
  }

  lemma HighBit(x: nat, n: nat, k: nat)
    requires x < Pow2(n) && n <= k
    ensures !Bit(x, k)
  {
    Pow2Mono(n, k);
    LowSmall(x, k);
  }

  lemma ShrBit(x: nat, a: nat, k: nat)
    ensures Bit(Shr(x, a), k) == Bit(x, a + k)
  {
    ShrShr(x, a, k);
  }

  lemma ShlBit(x: nat, a: nat, k: nat)
    ensures Bit(Shl(x, a), a + k) == Bit(x, k)
  {
    SplitUnique(x, 0, a);
    ShrShr(Shl(x, a), a, k);
  }

  // ------------------------------------------------------------------ rows of bits

  /** The leading n of the low 16 bits of a code. */
  function Top(code: nat, n: nat): (r: seq<bool>)
    requires n <= 16
    ensures |r| == n
  {
    seq(n, i requires 0 <= i < n => Bit(code, 15 - i))
  }

  lemma TopMore(code: nat, a: nat, b: nat)
    requires a + b <= 16
    ensures Top(code, a) + Top(Shl(code, a), b) == Top(code, a + b)
  {
    hide Bit, Shl;
    var x, y := Top(code, a) + Top(Shl(code, a), b), Top(code, a + b);
    forall i | 0 <= i < a + b ensures x[i] == y[i] {
      if i >= a { ShlBit(code, a, 15 - i); }
    }
  }

  /** The bit at place p of a byte, counting from the highest. */
  predicate Place(x: nat, p: nat)
    requires p < 8
  {
    Bit(x, 7 - p)
  }

  /** Bit i of a buffer. */
  function BitAt(data: seq<byte>, i: nat): bool
    requires i < 8 * |data|
  {
    Place(data[i / 8], i % 8)
  }

  function BitsOf(data: seq<byte>, n: nat): (r: seq<bool>)
    requires n <= 8 * |data|
    ensures |r| == n
  {
    seq(n, i requires 0 <= i < n => BitAt(data, i))
  }

  /** The rest of the byte that bit ol is in has not been written to. */
  ghost predicate Clean(data: seq<byte>, ol: nat)
    requires ol <= 8 * |data|
  {
    ol % 8 != 0 ==> forall p :: ol % 8 <= p < 8 ==> !Place(data[ol / 8], p)
  }

  /** What may have been written into that byte before is what the row has there. */
  ghost predicate Under(data: seq<byte>, ol: nat, row: seq<bool>)
    requires ol <= 8 * |data|
  {
    ol % 8 != 0 ==> forall p :: ol % 8 <= p < 8 && Place(data[ol / 8], p) ==> p - ol % 8 < |row| && row[p - ol % 8]
  }

  lemma CleanUnder(data: seq<byte>, ol: nat, row: seq<bool>)
    requires ol <= 8 * |data| && Clean(data, ol)
    ensures Under(data, ol, row)
  {
    hide Place;
  }

  lemma UnderNothing(data: seq<byte>, ol: nat)
    requires ol <= 8 * |data| && Under(data, ol, [])
    ensures Clean(data, ol)
  {
    hide Place;
  }

  /** A row written once may be written over. */
  lemma WrittenUnder(data: seq<byte>, ol0: nat, ol: nat, bits: seq<bool>, row: seq<bool>, more: seq<bool>)
    requires ol <= 8 * |data| && BitsOf(data, ol) == bits + row + more && |bits| == ol0 && |row| >= 8
    ensures ol0 <= ol && BitsOf(data, ol0) == bits && Under(data, ol0, row)
  {
    hide Place;
    assert BitsOf(data, ol)[..ol0] == bits;
    forall p | ol0 % 8 <= p < 8 && ol0 % 8 != 0 ensures Place(data[ol0 / 8], p) == row[p - ol0 % 8] {
      var i := ol0 + (p - ol0 % 8);
      assert i / 8 == ol0 / 8 && i % 8 == p;
      assert BitsOf(data, ol)[i] == (bits + row + more)[i];
    }
  }

  const MASK: seq<nat> := [0x8000, 0xc000, 0xe000, 0xf000, 0xf800, 0xfc00, 0xfe00, 0xff00]

  lemma {:induction false} OnesBit(n: nat, k: nat)
    requires k < n
    ensures Bit(Pow2(n) - 1, k)
  {
    assert (Pow2(n) - 1) / 2 == Pow2(n - 1) - 1;
    if k != 0 { OnesBit(n - 1, k - 1); }
  }

  lemma {:induction false} BelowShl(x: nat, a: nat, k: nat)
    requires k < a
    ensures !Bit(Shl(x, a), k)
  {
    if k != 0 { BelowShl(x, a - 1, k - 1); }
  }

  lemma MaskIs(n: nat)
    requires 1 <= n <= 8
    ensures MASK[n - 1] == Shl(Pow2(n) - 1, 16 - n) < 0x10000
  {
    hide Shl, Pow2;
    var x := Pow2(n) - 1;
    ShlShl(x, 8 - n, 8);
    ShlByte(Shl(x, 8 - n));
    ShlSucc(x, 8 - n);
    Pow2Add(n, 8 - n);
    Pow2Byte();
    SmallPowers();
  }

  lemma SmallPowers()
    ensures Pow2(0) == 1 && Pow2(1) == 2 && Pow2(2) == 4 && Pow2(3) == 8 && Pow2(4) == 16 && Pow2(5) == 32
      && Pow2(6) == 64 && Pow2(7) == 128
  {
  }

  lemma MaskBits(n: nat, k: nat)
    requires 1 <= n <= 8 && k < 8
    ensures Bit(MASK[n - 1], 8 + k) <==> k >= 8 - n
    ensures MASK[n - 1] < 0x10000
  {
    hide Bit, Shl, Pow2;
    MaskIs(n);
    if k >= 8 - n {
      OnesBit(n, k - (8 - n));
      ShlBit(Pow2(n) - 1, 16 - n, k - (8 - n));
    } else {
      BelowShl(Pow2(n) - 1, 16 - n, 8 + k);
    }
  }

  /** `(code & mask[blen - 1]) >> 8`. */
  function Lead(code: nat, blen: nat): nat
    requires 1 <= blen <= 8
  {
    Shr(And(code, MASK[blen - 1]), 8)
  }

  lemma LeadBits(code: nat, blen: nat, j: nat)
    requires 1 <= blen <= 8 && j < 8
    ensures Bit(Lead(code, blen), 7 - j) <==> j < blen && Bit(code, 15 - j)
    ensures Lead(code, blen) < 256
  {
    hide Bit, And, Shr;
    var x := And(code, MASK[blen - 1]);
    ShrBit(x, 8, 7 - j);
    AndBit(code, MASK[blen - 1], 15 - j);
    MaskBits(blen, 7 - j);
    AndBound(code, MASK[blen - 1]);
    WordByte(x);
  }

  lemma WordByte(x: nat)
    requires x < 0x10000
    ensures Shr(x, 8) < 256
  {
    Pow2Short();
    Pow2Byte();
    ShrBound(x, 8, 8);
  }

  /** What the byte becomes: cur bits of it written before, then as many of the code's as fit. */
  lemma PlacedBits(old8: byte, code: nat, blen: nat, cur: nat, p: nat)
    requires 1 <= blen <= 8 && cur < 8 && p < 8
    requires forall q :: cur <= q < 8 && Place(old8, q) ==> q - cur < blen && Bit(code, 15 - (q - cur))
    ensures var x := Or(old8, Shr(Lead(code, blen), cur));
      && x < 256
      && (Place(x, p) <==> if p < cur then Place(old8, p) else p - cur < blen && Bit(code, 15 - (p - cur)))
  {
    hide Bit, Lead, Shr, Or;
    var a := Lead(code, blen);
    LeadBits(code, blen, 0);
    Pow2Byte();
    OrBit(old8, Shr(a, cur), 7 - p);
    ShrBit(a, cur, 7 - p);
    OrBound(old8, Shr(a, cur), 8);
    if p < cur {
      HighBit(a, 8, 7 - p + cur);
    } else {
      LeadBits(code, blen, p - cur);
      assert Place(old8, p) ==> p - cur < blen && Bit(code, 15 - (p - cur));
    }
  }

  /** One byte's worth written: the bits before stay, n more follow. */
  lemma PlacedRow(data: seq<byte>, ol: nat, code: nat, blen: nat, x: byte)
    requires 1 <= blen <= 8 && ol / 8 < |data| && Under(data, ol, Top(code, blen))
    requires x == Or(if ol % 8 == 0 then 0 else data[ol / 8], Shr(Lead(code, blen), ol % 8))
    ensures var n := if blen + ol % 8 > 8 then 8 - ol % 8 else blen;
      && ol + n <= 8 * |data| && BitsOf(data[ol / 8 := x], ol + n) == BitsOf(data, ol) + Top(code, n)
      && Clean(data[ol / 8 := x], ol + n)
  {
    hide Bit, Or, Shr, Lead;
    var cur, at := ol % 8, ol / 8;
    var n := if blen + cur > 8 then 8 - cur else blen;
    var data', old8: byte := data[at := x], if cur == 0 then 0 else data[at];
    forall q | cur <= q < 8 && Place(old8, q) ensures q - cur < blen && Bit(code, 15 - (q - cur)) {
      if cur == 0 { ZeroBit(7 - q); }
    }
    var r, s := BitsOf(data', ol + n), BitsOf(data, ol) + Top(code, n);
    forall i | 0 <= i < ol + n ensures r[i] == s[i] {
      if i / 8 == at { PlacedBits(old8, code, blen, cur, i % 8); }
    }
    forall p | cur + n <= p < 8 ensures !Place(x, p) {
      PlacedBits(old8, code, blen, cur, p);
    }
  }

  /** The bits that append_bits writes: in the second state a change of state in front is left out. */
  function Appended(code: nat, clen: nat, second: bool): seq<bool>
    requires clen <= 16
  {
    if second && Shr(code, 9) == 0x1c then (if clen < 7 then [] else Top(code, clen)[7..]) else Top(code, clen)
  }

  /** What is left of the code, and how many bits of it. */
  lemma Stripped(code: nat, clen: nat, second: bool)
    requires clen <= 16
    ensures Appended(code, clen, second) ==
      if !second || Shr(code, 9) != 0x1c then Top(code, clen)
      else Top(Shl(code, 7), if clen < 7 then 0 else clen - 7)
  {
    hide Top, Shl, Shr;
    if clen >= 7 {
      TopMore(code, 7, clen - 7);
      assert Top(code, clen)[7..] == Top(Shl(code, 7), clen - 7);
    }
  }

  /** As much of the code as fits into the byte that bit ol is in (SQLite_Esp_Port/shox96_0_2.cpp:71-80). */
  method PutPiece(out: array<byte>, ol: nat, code: nat, clen: nat) returns (blen: nat)
    requires 0 < clen <= 16 && ol + clen <= 8 * out.Length && Under(out[..], ol, Top(code, clen))
    modifies out
    ensures 1 <= blen <= clen && BitsOf(out[..], ol + blen) == old(BitsOf(out[..], ol)) + Top(code, blen)
    ensures Clean(out[..], ol + blen)
  {
    hide Bit, Shr, Shl, Or, Lead, Clean, BitsOf, Top, Under;
    var curBit := ol % 8;
    blen := if clen > 8 then 8 else clen;
    var aByte := Lead(code, blen);
    aByte := Shr(aByte, curBit);
    ghost var data, b := out[..], blen;
    UnderFirst(data, ol, code, clen);
    OneByte(data, ol, code, b);
    ghost var x: byte := Or(if curBit == 0 then 0 else data[ol / 8], aByte);
    if blen + curBit > 8 { blen := 8 - curBit; }
    OrZero(aByte);
    if curBit == 0 {
      out[ol / 8] := aByte;
    } else {
      out[ol / 8] := Or(out[ol / 8], aByte);
    }
    assert out[..] == data[ol / 8 := x];
    PlacedRow(data, ol, code, b, x);
  }

  /** append_bits (SQLite_Esp_Port/shox96_0_2.cpp:53-86). */
  method AppendBits(out: array<byte>, ol0: nat, code0: nat, clen0: nat, second: bool) returns (ol: nat)
    requires clen0 <= 16 && ol0 + |Appended(code0, clen0, second)| <= 8 * out.Length
    requires Under(out[..], ol0, Appended(code0, clen0, second))
    modifies out
    ensures ol == ol0 + |Appended(code0, clen0, second)|
    ensures BitsOf(out[..], ol) == old(BitsOf(out[..], ol0)) + Appended(code0, clen0, second)
    ensures Clean(out[..], ol)
  {
    hide Bit, Shr, Shl, Or, Lead, Clean, BitsOf, Top, Appended, Under;
    var code: nat, clen: int := code0, clen0;
    ol := ol0;
    if second {
      if Shr(code, 9) == 0x1c {
        code := Shl(code, 7);
        clen := clen - 7;
      }
    }
    Stripped(code0, clen0, second);
    ghost var before, code1: nat, clen1: nat := out[..], code, if clen < 0 then 0 else clen;
    assert Top(code, clen1) == Appended(code0, clen0, second);
    Nothing(code);
    assert BitsOf(before, ol0) + [] == BitsOf(before, ol0);
    ghost var done: nat := 0;
    while clen > 0
      invariant done + Left(clen) == clen1 && ol == ol0 + done && code == Shl(code1, done)
      invariant Under(out[..], ol, Top(code, Left(clen)))
        && BitsOf(out[..], ol) == BitsOf(before, ol0) + Top(code1, done)
    {
      var blen := PutPiece(out, ol, code, clen);
      TopMore(code1, done, blen);
      code := Shl(code, blen);
      ShlShl(code1, done, blen);
      ol := ol + blen;
      clen := clen - blen;
      done := done + blen;
      CleanUnder(out[..], ol, Top(code, Left(clen)));
    }
    Nothing(code);
    UnderNothing(out[..], ol);
  }

  /** How many bits are still to be written. */
  function Left(clen: int): nat {
    if clen < 0 then 0 else clen
  }

  /** The byte that is written next sees no more than eight bits of the row. */
  lemma UnderFirst(data: seq<byte>, ol: nat, code: nat, clen: nat)
    requires clen <= 16 && ol <= 8 * |data| && Under(data, ol, Top(code, clen))
    ensures Under(data, ol, Top(code, if clen > 8 then 8 else clen))
  {
    hide Place, Bit;
  }

  lemma Nothing(code: nat)
    ensures Top(code, 0) == [] && Shl(code, 0) == code
  {
  }

  lemma OneByte(data: seq<byte>, ol: nat, code: nat, blen: nat)
    requires 1 <= blen <= 8 && ol / 8 < |data| && Under(data, ol, Top(code, blen))
    ensures Or(if ol % 8 == 0 then 0 else data[ol / 8], Shr(Lead(code, blen), ol % 8)) < 256
  {
    hide Bit, Or, Shr, Lead;
    var cur, old8: byte := ol % 8, if ol % 8 == 0 then 0 else data[ol / 8];
    forall q | cur <= q < 8 && Place(old8, q) ensures q - cur < blen && Bit(code, 15 - (q - cur)) {
      if cur == 0 { ZeroBit(7 - q); }
    }
    PlacedBits(old8, code, blen, cur, 0);
  }
}
