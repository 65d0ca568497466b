/**
 inflate's bit accumulator and its input (zlib/inflate.c:500-541), and the table reads
 that pull a byte at a time until the entry found is covered by the bits held
 (zlib/inflate.c:1074-1090).  Input that later calls will bring is a ghost: pulling
 bytes never changes what is still to be read.
 */
module BitReader {
  import opened BitOps
  import opened Canonical
  import opened DecodeTable
  import opened BitStream
  import opened CodeLookup
  import opened InflateTable

  /** What a byte adds to the accumulator. */
  lemma PullOne(hold: nat, bits: nat, b: byte, more: seq<byte>)
    requires hold < Pow2(bits)
    ensures hold + Shl(b, bits) < Pow2(bits + 8)
    ensures Join(Bits(hold + Shl(b, bits), bits + 8), BytesBits(more)) == Join(Bits(hold, bits), BytesBits([b] + more))
  {
    hide Shl, Pow2, BytesBits, Join;
    Pow2Byte();
    ShlBound(b, bits, 8);
    OneByte(b);
    BytesJoin([b], more);
    JoinAssoc(Bits(hold, bits), Bits(b, 8), BytesBits(more));
    JoinIs(hold, bits, b, 8);
  }

  lemma JoinIs(a: nat, n: nat, b: nat, m: nat)
    ensures Join(Bits(a, n), Bits(b, m)) == Bits(a + Shl(b, n), n + m)
  {
  }

  /** The held bits come first. */
  lemma HeldFirst(hold: nat, bits: nat, more: Bits, n: nat)
    requires hold < Pow2(bits) && n <= bits
    ensures var r := Join(Bits(hold, bits), more);
      && Low(r.v, n) == Low(hold, n)
      && Join(Bits(Shr(hold, n), bits - n), more) == Bits(Shr(r.v, n), r.n - n)
      && Shr(hold, n) < Pow2(bits - n)
  {
    hide Low, Shr, Shl, Pow2;
    LowSame(hold, more.v, bits, n);
    ShrBound(hold, n, bits - n);
    ShlShl(more.v, bits - n, n);
    Split(hold, n);
    Split(hold + Shl(more.v, bits), n);
    ShlAdd(Shr(hold, n), Shl(more.v, bits - n), n);
    SplitUnique(Shr(hold, n) + Shl(more.v, bits - n), Low(hold, n), n);
  }

  lemma RestProper(hold: nat, bits: nat, more: seq<byte>)
    requires hold < Pow2(bits)
    ensures Proper(Join(Bits(hold, bits), BytesBits(more)))
  {
    LoadBound(more);
    JoinProper(Bits(hold, bits), BytesBits(more));
  }

  class BitReader {
    var hold: nat
    var bits: nat
    var input: seq<byte>
    var next: nat
    /** The input of later calls. */
    ghost var future: seq<byte>

    ghost predicate Valid()
      reads this
    {
      hold < Pow2(bits) && bits <= 32 && next <= |input|
    }

    /** All the bits still to be read. */
    ghost function Rest(): Bits
      requires next <= |input|
      reads this
    {
      Join(Bits(hold, bits), BytesBits(input[next..] + future))
    }

    ghost function Held(): Bits
      reads this
    {
      Bits(hold, bits)
    }

    constructor ()
      ensures Valid() && hold == bits == next == 0 && input == [] == future
    {
      hold, bits, next, input, future := 0, 0, 0, [], [];
    }

    /** What the caller has yet to bring. */
    ghost method Await(stream: seq<byte>)
      requires Valid() && next == |input|
      modifies `future
      ensures Valid() && future == stream
    {
      future := stream;
    }

    /** The caller brings the next of it. */
    method Provide(data: seq<byte>, ghost later: seq<byte>)
      requires Valid() && input == [] && next == 0 && future == data + later
      modifies `input, `future
      ensures Valid() && input == data && future == later && Rest() == old(Rest())
    {
      hide Pow2, BytesBits, Join;
      assert input[next..] + future == data + later;
      input := data;
      future := later;
      assert input[next..] + future == data + later;
    }

    /** next_in and avail_in are the caller's again. */
    method HandBack()
      requires Valid()
      modifies `input, `next, `future
      ensures Valid() && input == [] && next == 0 && Rest() == old(Rest())
      ensures future == old(input[next..]) + old(future)
    {
      hide Pow2, BytesBits, Join;
      future := input[next..] + future;
      input := [];
      next := 0;
      assert input[next..] + future == old(input[next..] + future);
    }

    lemma RestFacts()
      requires Valid()
      ensures Proper(Rest()) && Rest().n % 8 == bits % 8 && Rest().n >= bits
      ensures next == |input| && future == [] ==> Rest() == Held()
    {
      hide Pow2;
      RestProper(hold, bits, input[next..] + future);
      if next == |input| && future == [] {
        assert input[next..] + future == [];
        Empty();
        JoinNone(Held());
      }
    }

    /** PULLBYTE. */
    method PullByte() returns (ok: bool)
      requires Valid() && bits <= 24
      modifies `hold, `bits, `next
      ensures Valid() && Rest() == old(Rest())
      ensures ok <==> old(next) < |input|
      ensures ok ==>
        bits == old(bits) + 8 && next == old(next) + 1 && hold == old(hold) + Shl(input[old(next)], old(bits))
      ensures !ok ==> bits == old(bits) && next == old(next) && hold == old(hold)
    {
      hide Pow2, Shl, Join, BytesBits;
      if next == |input| {
        return false;
      }
      assert input[next..] + future == [input[next]] + (input[next + 1..] + future);
      PullOne(hold, bits, input[next], input[next + 1..] + future);
      hold := hold + Shl(input[next], bits);
      next := next + 1;
      bits := bits + 8;
      ok := true;
    }

    /** The same where enough input is known to be there. */
    method PullSure()
      requires Valid() && bits <= 24 && next < |input|
      modifies `hold, `bits, `next
      ensures Valid() && Rest() == old(Rest()) && bits == old(bits) + 8 && next == old(next) + 1
    {
      hide Pow2, Shl, Join, BytesBits;
      var ok := PullByte();
    }

    /** Whole bytes go back to the input (zlib/inffast.c:293-296). */
    method ReturnBytes(n: nat, ghost from: nat, ghost hold0: nat, ghost bits0: nat)
      requires Valid() && 8 * n <= bits && from + n <= next
      requires hold0 < Pow2(bits0) && Tail(From(this, from, hold0, bits0), Rest())
      modifies `hold, `bits, `next
      ensures Valid() && Rest() == old(Rest()) && bits == old(bits) - 8 * n && next == old(next) - n
    {
      hide Pow2, Shl, Shr, Low, Join, BytesBits, Load;
      GivenBack(this, n, from, hold0, bits0);
      next := next - n;
      bits := bits - 8 * n;
      hold := Low(hold, bits);
    }

    /** NEEDBITS: no byte is pulled that is not needed. */
    method NeedBits(n: nat) returns (ok: bool)
      requires Valid() && n <= 32 && (n > 25 ==> n % 8 == 0 && bits % 8 == 0)
      modifies `hold, `bits, `next
      ensures Valid() && Rest() == old(Rest()) && bits % 8 == old(bits) % 8
      ensures ok <==> bits >= n
      ensures !ok ==> next == |input|
      ensures old(bits) >= n ==> bits == old(bits) && next == old(next)
      ensures old(bits) < n ==> old(bits) <= bits < n + 8
    {
      hide Pow2, Shl, Join, BytesBits;
      while bits < n
        invariant Valid() && Rest() == old(Rest()) && bits % 8 == old(bits) % 8
        invariant old(bits) >= n ==> bits == old(bits) && next == old(next)
        invariant old(bits) < n ==> old(bits) <= bits < n + 8
        decreases |input| - next
      {
        var pulled := PullByte();
        if !pulled {
          return false;
        }
      }
      ok := true;
    }

    /** BITS. */
    function Peek(n: nat): (v: nat)
      requires Valid() && n <= bits
      reads this
      ensures v == Low(Rest().v, n)
    {
      HeldFirst(hold, bits, BytesBits(input[next..] + future), n);
      Low(hold, n)
    }

    /** DROPBITS. */
    method DropBits(n: nat)
      requires Valid() && n <= bits
      modifies `hold, `bits
      ensures Valid() && bits == old(bits) - n && hold == Shr(old(hold), n)
      ensures Rest() == Bits(Shr(old(Rest()).v, n), old(Rest()).n - n)
    {
      HeldFirst(hold, bits, BytesBits(input[next..] + future), n);
      hold := Shr(hold, n);
      bits := bits - n;
    }

    /** BYTEBITS. */
    method ByteBits()
      requires Valid()
      modifies `hold, `bits
      ensures Valid() && bits == old(bits) - old(bits) % 8
      ensures var k := old(Rest()).n % 8; k <= old(Rest()).n && Rest() == Bits(Shr(old(Rest()).v, k), old(Rest()).n - k)
    {
      hide Pow2, Shr, Join, BytesBits;
      RestFacts();
      DropBits(bits % 8);
    }

    /** INITBITS when just the bits asked for are held. */
    method InitBits()
      requires Valid()
      modifies `hold, `bits
      ensures Valid() && bits == 0
      ensures Rest() == Bits(Shr(old(Rest()).v, old(bits)), old(Rest()).n - old(bits))
    {
      hide Pow2, Join, BytesBits, Shr;
      HeldFirst(hold, bits, BytesBits(input[next..] + future), bits);
      NoBitsLeft(Shr(hold, bits));
      hold := 0;
      bits := 0;
    }

    /** Input bytes used as they are. */
    method SkipBytes(n: nat)
      requires Valid() && bits == 0 && next + n <= |input|
      modifies `next
      ensures Valid() && next == old(next) + n
      ensures old(Rest()) == Join(BytesBits(input[old(next)..next]), Rest())
    {
      hide BytesBits, Join, Pow2;
      assert input[next..] + future == input[next..next + n] + (input[next + n..] + future);
      BytesJoin(input[next..next + n], input[next + n..] + future);
      NoBitsLeft(hold);
      next := next + n;
      JoinNone(BytesBits(input[next..] + future));
      JoinNone(BytesBits(input[old(next)..] + future));
    }

    /** Pulling a byte: the answer for the bits held was not covered before, so it now needs some of the new ones. */
    lemma StillTight(t: CodeType, lens: seq<nat>, hold0: nat, bits0: nat, b: byte)
      requires GoodCode(t, lens) && hold0 < Pow2(bits0) && CodeFound(t, lens, hold0).bits > bits0
      ensures CodeFound(t, lens, hold0 + Shl(b, bits0)).bits > bits0
    {
      hide CodeFound, Acceptable, ValidLens, Shl, Pow2;
      if CodeFound(t, lens, hold0 + Shl(b, bits0)).bits <= bits0 {
        FoundEarlier(t, lens, hold0, bits0, b);
      }
    }

    /** The code bits held cover is the code that comes next. */
    lemma FoundInRest(t: CodeType, lens: seq<nat>)
      requires Valid() && GoodCode(t, lens) && CodeFound(t, lens, hold).bits <= bits
      ensures CodeFound(t, lens, Rest().v) == CodeFound(t, lens, hold)
    {
      hide CodeFound, Acceptable, ValidLens, Pow2;
      FoundStable(t, lens, hold, bits, BytesBits(input[next..] + future).v);
    }

    /** Reading an entry of the first table until it, or the link it is, is covered. */
    method FindEntry(tab: seq<Entry>, root: nat, ghost t: CodeType, ghost lens: seq<nat>)
      returns (ok: bool, here: Entry)
      requires Valid() && GoodCode(t, lens) && TableFor(t, lens, tab, root)
      modifies `hold, `bits, `next
      ensures Valid() && Rest() == old(Rest())
      ensures ok ==> Low(hold, root) < |tab| && here == tab[Low(hold, root)] && here.bits <= bits
      ensures !ok ==> next == |input| && CodeFound(t, lens, hold).bits > bits
      ensures (bits == old(bits) && hold == old(hold)) || bits - 8 < CodeFound(t, lens, hold).bits
      ensures bits <= if old(bits) < 23 then 23 else old(bits)
    {
      hide CodeFound, Acceptable, ValidLens, TableFor, Finds, Low, Shl, Pow2, Join, BytesBits;
      EntryFacts(t, lens, tab, root, hold);
      here := tab[Low(hold, root)];
      while here.bits > bits
        invariant Valid() && Rest() == old(Rest())
        invariant Low(hold, root) < |tab| && here == tab[Low(hold, root)] && here.bits <= 15
        invariant here.bits > bits ==> CodeFound(t, lens, hold).bits > bits
        invariant (bits == old(bits) && hold == old(hold)) || bits - 8 < CodeFound(t, lens, hold).bits
        invariant bits <= if old(bits) < 23 then 23 else old(bits)
        decreases |input| - next
      {
        ghost var hold0, bits0 := hold, bits;
        var pulled := PullByte();
        if !pulled {
          return false, here;
        }
        StillTight(t, lens, hold0, bits0, input[next - 1]);
        EntryFacts(t, lens, tab, root, hold);
        here := tab[Low(hold, root)];
      }
      ok := true;
    }

    /** One or two table reads (zlib/inflate.c:1074-1090); the code is then dropped. */
    method FindCode(tab: seq<Entry>, root: nat, ghost t: CodeType, ghost lens: seq<nat>)
      returns (ok: bool, f: Found)
      requires Valid() && GoodCode(t, lens) && TableFor(t, lens, tab, root)
      modifies `hold, `bits, `next
      ensures Valid()
      ensures !ok ==> Rest() == old(Rest()) && next == |input| && CodeFound(t, lens, hold).bits > bits
      ensures ok ==> f == CodeFound(t, lens, old(Rest()).v) && f.bits <= old(Rest()).n
      ensures ok ==> Rest() == Bits(Shr(old(Rest()).v, f.bits), old(Rest()).n - f.bits)
      ensures ok && (old(bits) < 8 || CodeFound(t, lens, old(hold)).bits > old(bits)) ==> bits < 8
      ensures !ok ==> bits <= 23 || bits <= old(bits)
    {
      hide CodeFound, Acceptable, ValidLens, TableFor, Finds, Low, Shl, Shr, Pow2, Join, BytesBits;
      var here;
      ok, here := FindEntry(tab, root, t, lens);
      if !ok {
        return false, Found(0, 0, 0);
      }
      EntryFacts(t, lens, tab, root, hold);
      var drop := 0;
      if IsLink(here) {
        var link := here;
        drop := link.bits;
        here := tab[link.val + Shr(Low(hold, link.bits + link.op), link.bits)];
        while link.bits + here.bits > bits
          invariant Valid() && Rest() == old(Rest()) && root <= bits && link.bits == root
          invariant Low(hold, root) < |tab| && link == tab[Low(hold, root)]
          invariant CodeFound(t, lens, hold) == Found(here.op, here.val, link.bits + here.bits)
            && link.bits + here.bits <= 15
          invariant (bits == old(bits) && hold == old(hold)) || bits - 8 < CodeFound(t, lens, hold).bits
          decreases |input| - next
        {
          ghost var hold0, bits0 := hold, bits;
          var pulled := PullByte();
          if !pulled {
            return false, Found(0, 0, 0);
          }
          StillTight(t, lens, hold0, bits0, input[next - 1]);
          LowSame(hold0, input[next - 1], bits0, root);
          EntryFacts(t, lens, tab, root, hold);
          here := tab[link.val + Shr(Low(hold, link.bits + link.op), link.bits)];
        }
      }
      f := Found(here.op, here.val, drop + here.bits);
      FoundInRest(t, lens);
      RestFacts();
      DropBits(f.bits);
    }
  }

  /** What there was to read at position `from`, with those bits held. */
  ghost function From(r: BitReader, from: nat, hold0: nat, bits0: nat): Bits
    requires from <= |r.input|
    reads r`input, r`future
  {
    Join(Bits(hold0, bits0), BytesBits(r.input[from..] + r.future))
  }

  /** The rest is the end of all. */
  ghost predicate Tail(all: Bits, rest: Bits) {
    rest.n <= all.n && rest.v == Shr(all.v, all.n - rest.n)
  }

  lemma TailOn(all: Bits, rest: Bits, later: Bits)
    requires Tail(all, rest) && later.n <= rest.n && later.v == Shr(rest.v, rest.n - later.n)
    ensures Tail(all, later)
  {
    hide Shr;
    ShrShr(all.v, all.n - rest.n, rest.n - later.n);
  }

  /** Reading past the bits held and some bytes. */
  lemma PastBytes(a: Bits, data: seq<byte>, more: seq<byte>)
    requires Proper(a)
    ensures Shr(Join(a, BytesBits(data + more)).v, a.n + 8 * |data|) == Load(more)
  {
    hide Shr, Shl, Low, Pow2, Load;
    BytesJoin(data, more);
    JoinAssoc(a, BytesBits(data), BytesBits(more));
    LoadBound(data);
    JoinProper(a, BytesBits(data));
    ReadBack(Join(a, BytesBits(data)), Load(more));
  }

  lemma GivenBack(r: BitReader, n: nat, from: nat, hold0: nat, bits0: nat)
    requires r.Valid() && 8 * n <= r.bits && from + n <= r.next && hold0 < Pow2(bits0)
    requires Tail(From(r, from, hold0, bits0), r.Rest())
    ensures var low := Low(r.hold, r.bits - 8 * n);
      && low < Pow2(r.bits - 8 * n)
      && Join(Bits(low, r.bits - 8 * n), BytesBits(r.input[r.next - n..] + r.future)) == r.Rest()
  {
    hide Shr, Shl, Low, Pow2, Load;
    var bits := r.bits - 8 * n;
    var data, more := r.input[from..r.next - n], r.input[r.next - n..] + r.future;
    assert r.input[from..] + r.future == data + more;
    var all := Join(Bits(hold0, bits0), BytesBits(data + more));
    var c := all.n - r.Rest().n;
    PastBytes(Bits(hold0, bits0), data, more);
    assert c + bits == bits0 + 8 * |data|;
    ShrShr(all.v, c, bits);
    Split(r.Rest().v, bits);
    HeldFirst(r.hold, r.bits, BytesBits(r.input[r.next..] + r.future), bits);
  }

  lemma Empty()
    ensures BytesBits([]) == NoBits
  {
  }

  lemma NoBitsLeft(x: nat)
    ensures x < Pow2(0) ==> x == 0
    ensures 0 < Pow2(0)
  {
  }

  /** What the entries read for h have to do with the code that h begins with. */
  lemma EntryFacts(t: CodeType, lens: seq<nat>, tab: seq<Entry>, root: nat, h: nat)
    requires GoodCode(t, lens) && TableFor(t, lens, tab, root)
    ensures Low(h, root) < |tab| && CodeFound(t, lens, h).bits <= 15
    ensures var e, f := tab[Low(h, root)], CodeFound(t, lens, h);
      if IsLink(e) then
        && e.bits == root < f.bits
        && e.val + Shr(Low(h, e.bits + e.op), e.bits) < |tab|
        && var e2 := tab[e.val + Shr(Low(h, e.bits + e.op), e.bits)];
           f == Found(e2.op, e2.val, root + e2.bits)
      else f == Found(e.op, e.val, e.bits)
  {
    hide TableFor, Low, Shr, RevCode;
    LookupIs(t, lens, tab, root, h);
  }
}
