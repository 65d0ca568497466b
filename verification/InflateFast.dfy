/**
 `inflate_fast` (zlib/inffast.c:50-307) takes the same steps as the modes LEN to LIT,
 without asking for input or room inside a symbol: six bytes and 258 places at the
 start of one are enough, and at the end whole bytes not needed go back.
 */
module InflateFast {
  import opened BitOps
  import opened Canonical
  import opened DecodeTable
  import opened InflateTable
  import opened BitStream
  import opened CodeLookup
  import opened Lz77
  import opened InflateSpec
  import opened InflateRuns
  import opened InflateWindow
  import opened MatchCopy
  import opened BitReader
  import opened InflateState
  import opened InflateStep
  import InflateSymbols
  import BlockCodes

  // ------------------------------------------------------------- one whole symbol

  datatype Item = ILit(b: byte) | IEnd | IBadLit | IBadDist | ICopy(dist: nat, len: nat)

  /** The item that bits begin with, and how many bits it takes. */
  datatype ReadItem = ReadItem(item: Item, used: nat)

  ghost function DistAt(dcode: seq<nat>, v: nat, len: nat, used: nat): ReadItem
    requires |dcode| <= 32
  {
    var g := CodeFound(DISTS, dcode, v);
    if BlockCodes.Flag(g.op, 64) then ReadItem(IBadDist, used + g.bits)
    else ReadItem(ICopy(g.val + Low(Shr(v, g.bits), g.op % 16), len), used + g.bits + g.op % 16)
  }

  ghost function ItemAt(lcode: seq<nat>, dcode: seq<nat>, v: nat): ReadItem
    requires |lcode| <= 288 && |dcode| <= 32
  {
    var f := CodeFound(LENS, lcode, v);
    if f.op == 0 then ReadItem(ILit(f.val % 256), f.bits)
    else if BlockCodes.Flag(f.op, 32) then ReadItem(IEnd, f.bits)
    else if BlockCodes.Flag(f.op, 64) then ReadItem(IBadLit, f.bits)
    else
      var e, v1 := f.op % 16, Shr(v, f.bits);
      DistAt(dcode, Shr(v1, e), f.val + Low(v1, e), f.bits + e)
  }

  function AfterItem(s: State, r: ReadItem): State
    requires r.used <= s.rest.n && (r.item.ICopy? ==> 1 <= r.item.dist)
  {
    var t := Take(s, r.used);
    match r.item
    case ILit(b) => t.(out := s.out + [b])
    case IEnd => t.(mode := TYPE)
    case IBadLit => t.(mode := BAD(LiteralCode))
    case IBadDist => t.(mode := BAD(DistanceCode))
    case ICopy(dist, len) =>
      if dist > |s.out| then t.(mode := BAD(Why.TooFarBack)) else t.(out := Copy(s.out, dist, len))
  }

  lemma TakeTake(s: State, a: nat, b: nat)
    requires a + b <= s.rest.n
    ensures Take(Take(s, a), b) == Take(s, a + b)
  {
    ShrShr(s.rest.v, a, b);
  }

  /** The literal or length code and what follows from it alone. */
  lemma LitLenRun(c: Setup, s: State)
    requires Ok(s) && s.mode == LEN && |s.lcode| <= 288 && |s.dcode| <= 32
    ensures var r := ItemAt(s.lcode, s.dcode, s.rest.v);
      !r.item.IBadDist? && !r.item.ICopy? && r.used <= s.rest.n ==>
        Leads(c, s, AfterItem(s, r)) && Below(AfterItem(s, r), s)
  {
    hide Step, Ok, Leads, Below, CodeFound, Low, Shr, BlockCodes.Flag;
    var r, f := ItemAt(s.lcode, s.dcode, s.rest.v), CodeFound(LENS, s.lcode, s.rest.v);
    if !r.item.IBadDist? && !r.item.ICopy? && r.used <= s.rest.n {
      InflateSymbols.LenStep(c, s, f);
      var s1 := Take(s, f.bits).(length := f.val, mode := InflateSymbols.AfterLen(f.op));
      LeadsStep(c, s, s1);
      LeadsOk(c, s, s1);
      if r.item.ILit? {
        var s2 := s1.(out := s.out + [f.val % 256], mode := LEN);
        InflateSymbols.LitStep(c, s1);
        LeadsStep(c, s1, s2);
        LeadsOn(c, s, s1, s2);
        LeadsAlike(c, s, s2, AfterItem(s, r));
      } else {
        LeadsAlike(c, s, s1, AfterItem(s, r));
      }
    }
  }

  /** From a length code to the start of a match, or a bad distance code. */
  lemma LengthRun(c: Setup, s: State) returns (t: State)
    requires Ok(s) && s.mode == LEN && |s.lcode| <= 288 && |s.dcode| <= 32
    requires var f := CodeFound(LENS, s.lcode, s.rest.v); IsLength(f.op) && f.bits + f.op % 16 <= s.rest.n
    ensures var f := CodeFound(LENS, s.lcode, s.rest.v);
      && Leads(c, s, t) && Below(t, s)
      && t == Take(s, f.bits + f.op % 16).(mode := DIST, length := f.val + Low(Shr(s.rest.v, f.bits), f.op % 16),
          extra := f.op % 16)
  {
    hide Step, Ok, Leads, Below, CodeFound, Low, Shr;
    var f := CodeFound(LENS, s.lcode, s.rest.v);
    InflateSymbols.LenStep(c, s, f);
    var s1 := Take(s, f.bits).(length := f.val, mode := LENEXT, extra := f.op % 16);
    LeadsStep(c, s, s1);
    LeadsOk(c, s, s1);
    InflateSymbols.ExtHeld(c, s1);
    t := Take(s1, s1.extra).(length := s1.length + Low(s1.rest.v, s1.extra), mode := DIST);
    TakeTake(s, f.bits, f.op % 16);
    LeadsStep(c, s1, t);
    LeadsOn(c, s, s1, t);
  }

  lemma DistRun(c: Setup, s: State) returns (t: State)
    requires Ok(s) && s.mode == DIST && |s.dcode| <= 32
    requires var g := CodeFound(DISTS, s.dcode, s.rest.v);
      g.bits <= s.rest.n && (BlockCodes.Flag(g.op, 64) || g.bits + g.op % 16 <= s.rest.n)
    ensures var g := CodeFound(DISTS, s.dcode, s.rest.v);
      && Leads(c, s, t) && Below(t, s)
      && t == if BlockCodes.Flag(g.op, 64) then Take(s, g.bits).(mode := BAD(DistanceCode))
              else Take(s, g.bits + g.op % 16).(mode := MATCH, offset := g.val + Low(Shr(s.rest.v, g.bits), g.op % 16),
                  extra := g.op % 16)
  {
    hide Step, Ok, Leads, Below, CodeFound, Low, Shr, BlockCodes.Flag, Pow2, Shl, Xor;
    var g := CodeFound(DISTS, s.dcode, s.rest.v);
    InflateSymbols.DistStep(c, s, g);
    if BlockCodes.Flag(g.op, 64) {
      t := Take(s, g.bits).(mode := BAD(DistanceCode));
      LeadsStep(c, s, t);
    } else {
      var s1 := Take(s, g.bits).(offset := g.val, extra := g.op % 16, mode := DISTEXT);
      LeadsStep(c, s, s1);
      LeadsOk(c, s, s1);
      InflateSymbols.ExtHeld(c, s1);
      t := Take(s1, s1.extra).(offset := s1.offset + Low(s1.rest.v, s1.extra), mode := MATCH);
      TakeTake(s, g.bits, g.op % 16);
      LeadsStep(c, s1, t);
      LeadsOn(c, s, s1, t);
    }
  }

  /** A match carried out to its end. */
  lemma WholeMatch(c: Setup, s: State, d: State)
    requires Ok(s) && s.mode == MATCH && s.offset > 0
    requires Alike(d,
      if s.offset > |s.out| then s.(mode := BAD(Why.TooFarBack))
          else s.(out := Copy(s.out, s.offset, s.length), mode := LEN))
    ensures Leads(c, s, d) && Below(d, s)
  {
    hide Step, Ok, Leads, Below, Copy;
    InflateSymbols.MatchStep(c, s);
    if s.offset > |s.out| {
      var b := s.(mode := BAD(Why.TooFarBack));
      LeadsStep(c, s, b);
      LeadsAlike(c, s, b, d);
    } else {
      MatchRun(c, s, s.length);
      LeadsAlike(c, s, Matched(s, s.length), d);
    }
  }

  /** What is left to do once a length and a distance have been read. */
  lemma ItemDone(c: Setup, s: State, s2: State, r: ReadItem)
    requires Ok(s) && s.mode == LEN && Leads(c, s, s2) && Below(s2, s) && r.used <= s.rest.n
    requires r.item.IBadDist? || r.item.ICopy?
    requires s2 == Take(s, r.used).(mode := if r.item.ICopy? then MATCH else BAD(DistanceCode),
                                    length := s2.length, offset := s2.offset, extra := s2.extra)
    requires r.item.ICopy? ==> s2.offset == r.item.dist && s2.length == r.item.len
    ensures r.item.ICopy? ==> 1 <= r.item.dist
    ensures Leads(c, s, AfterItem(s, r)) && Below(AfterItem(s, r), s)
  {
    hide Step, Ok, Leads, Below, CodeFound, Low, Shr, Copy, Alike, Pow2, Finish, Ending;
    LeadsOk(c, s, s2);
    if r.item.IBadDist? {
      AlikeBad2(s2, AfterItem(s, r));
      LeadsAlike(c, s, s2, AfterItem(s, r));
    } else {
      InflateSymbols.MatchStep(c, s2);
      AlikeCopied(s2, AfterItem(s, r));
      WholeMatch(c, s2, AfterItem(s, r));
      LeadsOn(c, s, s2, AfterItem(s, r));
    }
  }

  /** A whole symbol is some steps. */
  lemma ItemRun(c: Setup, s: State)
    requires Ok(s) && s.mode == LEN && |s.lcode| <= 288 && |s.dcode| <= 32
    ensures var r := ItemAt(s.lcode, s.dcode, s.rest.v);
      r.used <= s.rest.n ==>
        (r.item.ICopy? ==> 1 <= r.item.dist) && Leads(c, s, AfterItem(s, r)) && Below(AfterItem(s, r), s)
  {
    hide Step, Ok, Leads, Below, CodeFound, Low, Shr, BlockCodes.Flag, Copy, Alike, Pow2, Finish, Ending, Bad;
    var r, f := ItemAt(s.lcode, s.dcode, s.rest.v), CodeFound(LENS, s.lcode, s.rest.v);
    LitLenRun(c, s);
    if r.used <= s.rest.n && (r.item.IBadDist? || r.item.ICopy?) {
      var s1 := LengthRun(c, s);
      LeadsOk(c, s, s1);
      ShrShr(s.rest.v, f.bits, f.op % 16);
      var s2 := DistRun(c, s1);
      LeadsOn(c, s, s1, s2);
      TakeTake(s, f.bits + f.op % 16, r.used - f.bits - f.op % 16);
      ItemDone(c, s, s2, r);
    }
  }

  lemma AlikeBad2(s2: State, d: State)
    requires d.mode.BAD? && d == s2.(length := d.length, offset := d.offset, extra := d.extra)
    ensures Alike(s2, d)
  {
  }

  lemma AlikeCopied(s2: State, d: State)
    requires s2.mode == MATCH && s2.offset > 0
    requires var b := if s2.offset > |s2.out| then s2.(mode := BAD(Why.TooFarBack))
      else s2.(out := Copy(s2.out, s2.offset, s2.length), mode := LEN);
      d == b.(length := d.length, offset := d.offset, extra := d.extra)
    ensures Alike(d,
      if s2.offset > |s2.out| then s2.(mode := BAD(Why.TooFarBack))
          else s2.(out := Copy(s2.out, s2.offset, s2.length), mode := LEN))
  {
    hide Copy;
  }

  // ---------------------------------------------------------------- reading it fast

  /** dolen and dodist: a code, with enough bits held for any. */
  method FastCode(r: BitReader, tab: seq<Entry>, root: nat, ghost t: CodeType, ghost lens: seq<nat>) returns (f: Found)
    requires r.Valid() && 15 <= r.bits && GoodCode(t, lens) && TableFor(t, lens, tab, root)
    modifies r`hold, r`bits
    ensures r.Valid() && f == CodeFound(t, lens, old(r.Rest()).v) && f.bits <= 15
    ensures r.bits == old(r.bits) - f.bits && f.bits <= old(r.Rest()).n
    ensures r.Rest() == Bits(Shr(old(r.Rest()).v, f.bits), old(r.Rest()).n - f.bits)
  {
    hide CodeFound, Acceptable, ValidLens, TableFor, Low, Shr, Pow2, BitReader.Rest;
    EntryFacts(t, lens, tab, root, r.hold);
    r.FoundInRest(t, lens);
    r.RestFacts();
    ghost var h, v := r.hold, r.Rest().v;
    var here := tab[Low(r.hold, root)];
    r.DropBits(here.bits);
    f := Found(here.op, here.val, here.bits);
    if IsLink(here) {
      LowLow(h, here.bits, here.op);
      var here2 := tab[here.val + Low(r.hold, here.op)];
      r.DropBits(here2.bits);
      ShrShr(v, here.bits, here2.bits);
      f := Found(here2.op, here2.val, here.bits + here2.bits);
    }
  }

  /** Extra bits, pulling up to two bytes for them. */
  method FastExtra(r: BitReader, op: nat) returns (v: nat)
    requires r.Valid() && op <= 13
    requires r.next + (if r.bits >= op then 0 else if r.bits + 8 >= op then 1 else 2) <= |r.input|
    modifies r`hold, r`bits, r`next
    ensures r.Valid() && v == Low(old(r.Rest()).v, op) && op <= old(r.Rest()).n
    ensures r.Rest() == Bits(Shr(old(r.Rest()).v, op), old(r.Rest()).n - op)
    ensures var k := if old(r.bits) >= op then 0 else if old(r.bits) + 8 >= op then 1 else 2;
      r.next == old(r.next) + k && r.bits == old(r.bits) + 8 * k - op
  {
    hide Low, Shr, Pow2, BitReader.Rest;
    if r.bits < op {
      r.PullSure();
      if r.bits < op {
        r.PullSure();
      }
    }
    r.RestFacts();
    v := r.Peek(op);
    r.DropBits(op);
  }

  /** `if (bits < 15)` two bytes more. */
  method Refill(r: BitReader)
    requires r.Valid() && r.bits <= 30 && r.next + (if r.bits < 15 then 2 else 0) <= |r.input|
    modifies r`hold, r`bits, r`next
    ensures r.Valid() && r.Rest() == old(r.Rest()) && 15 <= r.bits <= 30
    ensures var k := if old(r.bits) < 15 then 2 else 0; r.next == old(r.next) + k && r.bits == old(r.bits) + 8 * k
  {
    hide Pow2, BitReader.Rest;
    if r.bits < 15 {
      r.PullSure();
      r.PullSure();
    }
  }

  lemma LitLenFound(lens: seq<nat>, h: nat)
    requires |lens| <= 288
    ensures var f := CodeFound(LENS, lens, h);
      && (f.op != 0 ==> (BlockCodes.Flag(f.op, 16) <==> IsLength(f.op)))
      && (IsLength(f.op) ==> 3 <= f.val && f.op % 16 <= 5 && f.val + Pow2(f.op % 16) <= 259)
      && (f.op != 0 && !BlockCodes.Flag(f.op, 16) ==> BlockCodes.Flag(f.op, 64))
  {
    hide CodeFound, Pow2, BlockCodes.Flag;
    LengthFound(lens, h);
  }

  lemma DistCodeFound(lens: seq<nat>, h: nat)
    requires |lens| <= 32
    ensures var g := CodeFound(DISTS, lens, h);
      && (BlockCodes.Flag(g.op, 16) <==> !BlockCodes.Flag(g.op, 64))
      && (BlockCodes.Flag(g.op, 16) ==> 1 <= g.val && g.op % 16 <= 13 && g.val + Pow2(g.op % 16) <= 0x8001)
  {
    hide CodeFound, Pow2, BlockCodes.Flag;
    DistFound(lens, h);
  }

  /** The distance part. */
  method FastDist(r: BitReader, tab: seq<Entry>, root: nat, ghost dcode: seq<nat>, len: nat, ghost used: nat)
    returns (item: Item)
    requires r.Valid() && 15 <= r.bits <= 30 && GoodCode(DISTS, dcode) && TableFor(DISTS, dcode, tab, root)
    requires r.next + (if r.bits >= 28 then 0 else if r.bits >= 20 then 1 else 2) <= |r.input|
    modifies r`hold, r`bits, r`next
    ensures r.Valid() && r.bits <= 30
    ensures var i := DistAt(dcode, old(r.Rest()).v, len, used);
      && item == i.item && used <= i.used <= used + old(r.Rest()).n
      && r.Rest() == Bits(Shr(old(r.Rest()).v, i.used - used), old(r.Rest()).n - (i.used - used))
    ensures item.ICopy? ==> 1 <= item.dist <= 0x8000 && item.len == len
    ensures 0 <= r.next - old(r.next) <= if old(r.bits) >= 28 then 0 else if old(r.bits) >= 20 then 1 else 2
  {
    hide CodeFound, Acceptable, ValidLens, TableFor, Low, Shr, Pow2, BlockCodes.Flag, BitReader.Rest;
    ghost var v := r.Rest().v;
    var here := FastCode(r, tab, root, DISTS, dcode);
    DistCodeFound(dcode, v);
    if BlockCodes.Flag(here.op, 16) {
      var extra := FastExtra(r, here.op % 16);
      ShrShr(v, here.bits, here.op % 16);
      item := ICopy(here.val + extra, len);
    } else {
      item := IBadDist;
    }
  }

  /** One turn of the loop, up to the copying (zlib/inffast.c:103-178): at most six bytes. */
  method FastSymbol(r: BitReader, ltab: seq<Entry>, lroot: nat, dtab: seq<Entry>, droot: nat, ghost lcode: seq<nat>,
      ghost dcode: seq<nat>)
    returns (item: Item)
    requires r.Valid() && r.bits <= 30 && r.next + 6 <= |r.input|
    requires GoodCode(LENS, lcode) && TableFor(LENS, lcode, ltab, lroot) && GoodCode(DISTS, dcode)
      && TableFor(DISTS, dcode, dtab, droot)
    modifies r`hold, r`bits, r`next
    ensures r.Valid() && r.bits <= 30 && old(r.next) <= r.next <= old(r.next) + 6
    ensures var i := ItemAt(lcode, dcode, old(r.Rest()).v);
      && item == i.item && i.used <= old(r.Rest()).n
      && r.Rest() == Bits(Shr(old(r.Rest()).v, i.used), old(r.Rest()).n - i.used)
    ensures item.ICopy? ==> 1 <= item.dist <= 0x8000 && 3 <= item.len <= 258
  {
    hide CodeFound, Acceptable, ValidLens, TableFor, Low, Shr, Pow2, BlockCodes.Flag, BitReader.Rest, DistAt;
    ghost var v := r.Rest().v;
    Refill(r);
    var here := FastCode(r, ltab, lroot, LENS, lcode);
    LitLenFound(lcode, v);
    if here.op == 0 {
      item := ILit(here.val % 256);
    } else if BlockCodes.Flag(here.op, 16) {
      var len := here.val;
      var op := here.op % 16;
      if op != 0 {
        var more := FastExtra(r, op);
        len := len + more;
      } else {
        InflateSymbols.NoneTaken(r.Rest());
      }
      ShrShr(v, here.bits, op);
      ghost var w := r.Rest();
      Refill(r);
      item := FastDist(r, dtab, droot, dcode, len, here.bits + op);
      ghost var i := DistAt(dcode, w.v, len, here.bits + op);
      ShrShr(v, here.bits + op, i.used - here.bits - op);
    } else if BlockCodes.Flag(here.op, 32) {
      item := IEnd;
    } else {
      item := IBadLit;
    }
  }

  // ------------------------------------------------------------------------ copying

  /** A match from the window, as far as it reaches, and then from the output (zlib/inffast.c:199-250). */
  method CopyWindow(z: Inflater, dist: nat, len: nat)
    requires z.Shape() && z.win.Holds(z.history) && z.put + len <= z.out.Length
    requires z.put - z.start < dist <= z.put - z.start + z.win.whave
    modifies z`put, z.out
    ensures z.Shape() && z.put == old(z.put) + len && z.Produced() == Copy(old(z.Produced()), dist, len)
  {
    hide FixedTables.Right, Window.Holds, Copy, Inflater.Produced, Keeps, Window.Shape;
    var op: nat := dist - (z.put - z.start);
    InflateSymbols.WindowHas(z.win, z.history, op);
    ghost var was := z.Produced();
    LongOutput(z, dist);
    var left := 0;
    if z.win.wnext == 0 {
      left := FromWindow(z, z.win.wsize - op, op, len, op);
    } else if z.win.wnext < op {
      left := FromWindow(z, z.win.wsize + z.win.wnext - op, op - z.win.wnext, len, op);
      if left > 0 {
        CopyCopy(was, dist, len - left, if z.win.wnext < left then z.win.wnext else left);
        left := FromWindow(z, 0, z.win.wnext, left, z.win.wnext);
      }
    } else {
      left := FromWindow(z, z.win.wnext - op, op, len, op);
    }
    if left > 0 {
      CopyCopy(was, dist, len - left, left);
      FromOutput(z, dist, left);
    }
  }

  lemma LongOutput(z: Inflater, dist: nat)
    requires z.Shape() && z.win.Holds(z.history) && z.put - z.start < dist <= z.put - z.start + z.win.whave
    ensures 1 <= dist <= |z.Produced()|
  {
    hide FixedTables.Right, Keeps;
    InflateSymbols.WindowHas(z.win, z.history, dist - (z.put - z.start));
  }

  /** op bytes from position `from` of the window, or fewer if the match is shorter. */
  method FromWindow(z: Inflater, from: nat, op: nat, len: nat, ghost k: nat) returns (left: nat)
    requires z.Shape() && z.win.Holds(z.history) && z.put + len <= z.out.Length
    requires op <= k <= z.win.whave && k >= 1 && from == Place(z.win.wnext, k)
      && (k <= z.win.wnext || op <= k - z.win.wnext)
    modifies z`put, z.out
    ensures z.Shape() && z.win.Holds(z.history) && left == (if op < len then len - op else 0)
      && z.put == old(z.put) + (len - left)
    ensures 1 <= k + (old(z.put) - z.start) <= |old(z.Produced())|
    ensures z.Produced() == Copy(old(z.Produced()), k + (old(z.put) - z.start), len - left)
  {
    hide FixedTables.Right, Keeps;
    InflateSymbols.WindowHas(z.win, z.history, k);
    left := if op < len then len - op else 0;
    WindowRun(z.win, z.out, z.start, z.put, from, len - left, k, z.history);
    z.put := z.put + (len - left);
  }

  method FromOutput(z: Inflater, dist: nat, n: nat)
    requires z.Shape() && z.put + n <= z.out.Length && 1 <= dist <= z.put - z.start
    modifies z`put, z.out
    ensures z.Shape() && z.put == old(z.put) + n && z.Produced() == Copy(old(z.Produced()), dist, n)
  {
    hide FixedTables.Right;
    OutputRun(z.out, z.start, z.put, z.put - dist, n, z.history);
    z.put := z.put + n;
  }

  method CopyFast(z: Inflater, dist: nat, len: nat) returns (ok: bool)
    requires z.Shape() && z.win.Holds(z.history) && z.put + len <= z.out.Length && 1 <= dist <= WSIZE
    modifies z`put, z.out
    ensures z.Shape() && z.put == old(z.put) + (if ok then len else 0)
    ensures ok <==> dist <= |old(z.Produced())|
    ensures z.Produced() == if ok then Copy(old(z.Produced()), dist, len) else old(z.Produced())
  {
    hide FixedTables.Right, Keeps;
    var op: nat := z.put - z.start;
    if dist > op {
      op := dist - op;
      if op > z.win.whave {
        return false;
      }
      CopyWindow(z, dist, len);
    } else {
      FromOutput(z, dist, len);
    }
    ok := true;
  }

  // ----------------------------------------------------------------------- the loop

  /** What holds between symbols. */
  ghost predicate Running(z: Inflater)
    reads z, z.reader, z.win, z.win.window, z.out
  {
    && z.Shape() && z.Past() && |z.lcode| <= 288 && |z.dcode| <= 32 && z.Tables()
    && z.reader.Valid() && z.reader.bits <= 30 && Ok(z.Abs()) && !Opening(z.mode)
  }

  lemma RunningFacts(z: Inflater)
    requires Running(z)
    ensures z.Shape() && z.Past() && |z.lcode| <= 288 && |z.dcode| <= 32 && z.Tables()
    ensures z.reader.Valid() && z.reader.bits <= 30 && z.start <= z.put <= z.out.Length && Ok(z.Abs())
      && z.out != z.win.window
    ensures Live(z.mode) ==> z.win.Holds(z.history)
    ensures z.mode == LEN ==> GoodCode(LENS, z.lcode) && GoodCode(DISTS, z.dcode)
    ensures z.mode == LEN
      ==> TableFor(LENS, z.lcode, z.lencode, z.lenbits) && TableFor(DISTS, z.dcode, z.distcode, z.distbits)
  {
    hide Ok, TableFor, Keeps, FixedTables.Right, GoodCode;
    if z.mode == LEN { InflateSymbols.BlockOk(z.Abs()); }
  }

  ghost predicate CarriedOut(item: Item, before: seq<byte>, mode: Mode, after: seq<byte>)
    requires item.ICopy? ==> 1 <= item.dist
  {
    match item
    case ILit(b) => mode == LEN && after == before + [b]
    case IEnd => mode == TYPE && after == before
    case IBadLit => mode == BAD(LiteralCode) && after == before
    case IBadDist => mode == BAD(DistanceCode) && after == before
    case ICopy(dist, len) =>
      if dist > |before| then mode == BAD(Why.TooFarBack) && after == before
      else mode == LEN && after == Copy(before, dist, len)
  }

  lemma AfterIs(a: State, r: ReadItem, b: State)
    requires a.mode == LEN && r.used <= a.rest.n && (r.item.ICopy? ==> 1 <= r.item.dist)
      && CarriedOut(r.item, a.out, b.mode, b.out)
    requires b == Take(a, r.used).(mode := b.mode, out := b.out)
    ensures b == AfterItem(a, r)
    ensures b.mode == LEN || b.mode == TYPE || b.mode.BAD?
  {
    hide Copy, Shr;
  }

  lemma CarriedModes(item: Item, before: seq<byte>, mode: Mode, after: seq<byte>)
    requires (item.ICopy? ==> 1 <= item.dist) && CarriedOut(item, before, mode, after)
    ensures mode == LEN || mode == TYPE || mode.BAD?
  {
    hide Copy;
  }

  method CarryOut(z: Inflater, item: Item)
    requires z.Shape() && z.win.Holds(z.history) && z.mode == LEN && z.put + 258 <= z.out.Length
    requires item.ICopy? ==> 1 <= item.dist <= 0x8000 && 3 <= item.len <= 258
    modifies z`mode, z`put, z.out
    ensures z.start <= z.put <= z.out.Length && z.put <= old(z.put) + 258
    ensures CarriedOut(item, old(z.Produced()), z.mode, z.Produced())
  {
    hide Inflater.Shape, Inflater.Produced, Copy, Window.Holds;
    Bounds(z);
    match item {
      case ILit(b) =>
        InflateSymbols.PutByte(z, b);
        Bounds(z);
      case IEnd =>
        z.mode := TYPE;
      case IBadLit =>
        z.mode := BAD(LiteralCode);
      case IBadDist =>
        z.mode := BAD(DistanceCode);
      case ICopy(dist, len) =>
        var ok := CopyFast(z, dist, len);
        Bounds(z);
        if !ok {
          z.mode := BAD(Why.TooFarBack);
        }
    }
  }

  /** A symbol read and carried out: at most six bytes in and 258 out. */
  method OneItem(z: Inflater)
    requires Running(z) && z.mode == LEN && z.reader.next + 6 <= |z.reader.input| && z.put + 258 <= z.out.Length
    modifies z`mode, z`put, z.out, z.reader`hold, z.reader`bits, z.reader`next
    ensures Running(z) && Leads(z.setup, old(z.Abs()), z.Abs()) && Below(z.Abs(), old(z.Abs()))
    ensures z.mode == LEN || z.mode == TYPE || z.mode.BAD?
    ensures old(z.reader.next) <= z.reader.next <= old(z.reader.next) + 6 && z.put <= old(z.put) + 258
    ensures var used := old(z.reader.Rest()).n - z.reader.Rest().n;
      && used >= CodeFound(LENS, old(z.lcode), old(z.reader.Rest()).v).bits
      && z.reader.Rest().v == Shr(old(z.reader.Rest()).v, used)
  {
    hide Running, Ok, Step, Leads, Below, Inflater.Shape, Inflater.Past, Inflater.Tables, Inflater.Produced,
      BitReader.Rest, CodeFound, GoodCode, TableFor, Shr, Pow2, Copy, Window.Holds, ItemAt, AfterItem, CarriedOut;
    RunningFacts(z);
    ghost var a := z.Abs();
    var item := FastSymbol(z.reader, z.lencode, z.lenbits, z.distcode, z.distbits, z.lcode, z.dcode);
    ghost var r := ItemAt(z.lcode, z.dcode, a.rest.v);
    ItemUses(z.lcode, z.dcode, a.rest.v);
    ItemRun(z.setup, a);
    StillRunning(z, a, r.used);
    FinishItem(z, a, r, item);
  }

  method FinishItem(z: Inflater, ghost a: State, ghost r: ReadItem, item: Item)
    requires Running(z) && z.mode == LEN && z.put + 258 <= z.out.Length && item == r.item
    requires item.ICopy? ==> 1 <= item.dist <= 0x8000 && 3 <= item.len <= 258
    requires a.mode == LEN && r.used <= a.rest.n && z.Abs() == Take(a, r.used)
    requires Leads(z.setup, a, AfterItem(a, r)) && Below(AfterItem(a, r), a)
    modifies z`mode, z`put, z.out
    ensures Running(z) && Leads(z.setup, a, z.Abs()) && Below(z.Abs(), a)
    ensures z.mode == LEN || z.mode == TYPE || z.mode.BAD?
    ensures z.put <= old(z.put) + 258
  {
    hide Running, Ok, Step, Leads, Below, Inflater.Shape, Inflater.Past, Inflater.Tables, Inflater.Produced,
      BitReader.Rest, Shr, Pow2, Copy, Window.Holds, AfterItem, CarriedOut;
    RunningFacts(z);
    CarryOut(z, item);
    CarriedModes(item, a.out, z.mode, z.Produced());
    Carried(z);
    AfterIs(a, r, z.Abs());
    LeadsOk(z.setup, a, z.Abs());
    NowRunning(z);
  }

  /** With the bits of a symbol taken, before it is carried out. */
  lemma StillRunning(z: Inflater, a: State, used: nat)
    requires z.Shape() && z.Past() && |z.lcode| <= 288 && |z.dcode| <= 32 && z.Tables() && z.mode == LEN
    requires z.reader.Valid() && z.reader.bits <= 30 && z.start <= z.put <= z.out.Length
    requires Ok(a) && a.mode == LEN && used <= a.rest.n && z.Abs() == Take(a, used)
    ensures Running(z)
  {
    hide GoodCode, Inflater.Shape, Inflater.Past, Inflater.Tables, Shr, Pow2;
    TakeOk(a, used);
  }

  lemma NowRunning(z: Inflater)
    requires z.Shape() && z.Past() && |z.lcode| <= 288 && |z.dcode| <= 32 && z.Tables() && !Opening(z.mode)
    requires z.reader.Valid() && z.reader.bits <= 30 && z.start <= z.put <= z.out.Length && Ok(z.Abs())
    ensures Running(z)
  {
    hide Ok, Inflater.Shape, Inflater.Past, Inflater.Tables;
  }

  lemma ItemUses(lcode: seq<nat>, dcode: seq<nat>, v: nat)
    requires |lcode| <= 288 && |dcode| <= 32
    ensures ItemAt(lcode, dcode, v).used >= CodeFound(LENS, lcode, v).bits
  {
    hide CodeFound;
  }

  /** The first code is longer than the bits held, or those are fewer than eight. */
  lemma FirstCode(z: Inflater)
    requires z.Valid() && z.mode == LEN
    ensures |z.lcode| <= 288 && Running(z)
    ensures z.reader.bits < 8 + CodeFound(LENS, z.lcode, z.reader.Rest().v).bits
    ensures z.reader.bits < 15
  {
    hide Step, Ok, CodeFound, GoodCode, TableFor, Keeps, FixedTables.Right, Pow2, Shl, BytesBits;
    InflateSymbols.BlockOk(z.Abs());
    InflateSymbols.LenHeld(z.setup, z.HeldState());
    var r := z.reader;
    var more := BytesBits(r.input[r.next..] + r.future).v;
    FirstLonger(z.lcode, r.hold, r.bits, more, z.lencode, z.lenbits);
  }

  lemma FirstLonger(lens: seq<nat>, hold: nat, bits: nat, more: nat, tab: seq<Entry>, root: nat)
    requires GoodCode(LENS, lens) && hold < Pow2(bits) && TableFor(LENS, lens, tab, root)
    ensures CodeFound(LENS, lens, hold).bits <= 15
    ensures CodeFound(LENS, lens, hold).bits > bits ==> CodeFound(LENS, lens, hold + Shl(more, bits)).bits > bits
  {
    hide CodeFound, Acceptable, ValidLens, TableFor, Low, Shr, Pow2, Shl;
    EntryFacts(LENS, lens, tab, root, hold);
    if CodeFound(LENS, lens, hold + Shl(more, bits)).bits <= bits {
      FoundEarlier(LENS, lens, hold, bits, more);
    }
  }

  lemma RestLength(r: BitReader)
    requires r.next <= |r.input|
    ensures r.Rest().n == r.bits + 8 * (|r.input| - r.next + |r.future|)
  {
  }

  lemma TailHere(r: BitReader)
    requires r.Valid()
    ensures Tail(From(r, r.next, r.hold, r.bits), r.Rest())
  {
    hide Pow2, BytesBits, Join;
    NoneShifted(r.Rest().v);
  }

  lemma NoneShifted(v: nat)
    ensures Shr(v, 0) == v
  {
  }

  /** zlib/inffast.c:292-306. */
  method GiveBack(z: Inflater, ghost from: nat, ghost hold0: nat, ghost bits0: nat, ghost a: State)
    requires Running(z) && (z.mode == LEN || z.mode == TYPE || z.mode.BAD?) && Leads(z.setup, a, z.Abs())
    requires from <= z.reader.next && z.reader.bits < 8 + 8 * (z.reader.next - from) && hold0 < Pow2(bits0)
    requires Tail(From(z.reader, from, hold0, bits0), z.reader.Rest())
    modifies z.reader`hold, z.reader`bits, z.reader`next
    ensures z.Valid() && z.Abs() == old(z.Abs()) && z.reader.bits < 8 && from <= z.reader.next
  {
    hide Running, Ok, Step, Leads, Below, Inflater.Valid, Inflater.Shape, Inflater.Past, Inflater.Tables,
      Inflater.Produced, BitReader.Rest, CodeFound, GoodCode, TableFor, Shr, Pow2, Tail, From;
    RunningFacts(z);
    LeadsOk(z.setup, a, z.Abs());
    var len := z.reader.bits / 8;
    z.reader.ReturnBytes(len, from, hold0, bits0);
    NoCopy(z);
    Landed(z, a);
  }

  lemma NoCopy(z: Inflater)
    requires z.mode == LEN || z.mode == TYPE || z.mode.BAD?
    ensures z.Aligned()
  {
  }

  /** `inflate_fast`, entered with six bytes of input and room for 258. */
  method DecodeFast(z: Inflater)
    requires z.Valid() && z.mode == LEN && |z.reader.input| - z.reader.next >= 6 && z.out.Length - z.put >= 258
    modifies z`mode, z`put, z.out, z.reader`hold, z.reader`bits, z.reader`next
    ensures z.Valid() && Leads(z.setup, old(z.Abs()), z.Abs()) && Below(z.Abs(), old(z.Abs()))
    ensures z.mode == LEN || z.mode == TYPE || z.mode.BAD?
    ensures old(z.reader.next) <= z.reader.next && z.reader.bits < 8
  {
    hide Running, Ok, Step, Leads, Below, Inflater.Valid, Inflater.Shape, Inflater.Past, Inflater.Tables,
      Inflater.Produced, BitReader.Rest, CodeFound, GoodCode, TableFor, Shr, Pow2, Tail, From, Place, Keeps,
      Window.Shape, Window.Holds, Live;
    FirstCode(z);
    RunningFacts(z);
    ghost var a := z.Abs();
    ghost var from, hold0, bits0 := z.reader.next, z.reader.hold, z.reader.bits;
    ghost var rest0 := z.reader.Rest();
    ghost var all := From(z.reader, from, hold0, bits0);
    RestLength(z.reader);
    TailHere(z.reader);
    OneItem(z);
    RunningFacts(z);
    TailOn(all, rest0, z.reader.Rest());
    while z.mode == LEN && z.reader.next + 6 <= |z.reader.input| && z.put + 258 <= z.out.Length
      invariant Running(z) && z.reader.next <= |z.reader.input| && z.start <= z.put <= z.out.Length
      invariant Leads(z.setup, a, z.Abs()) && Below(z.Abs(), a)
      invariant z.mode == LEN || z.mode == TYPE || z.mode.BAD?
      invariant from <= z.reader.next && Tail(all, z.reader.Rest()) && bits0 < 8 + (rest0.n - z.reader.Rest().n)
      decreases z.reader.Rest().n
    {
      ghost var b := z.Abs();
      RunningFacts(z);
      OneItem(z);
      RunningFacts(z);
      TailOn(all, b.rest, z.reader.Rest());
      LeadsOn(z.setup, a, b, z.Abs());
    }
    RunningFacts(z);
    RestLength(z.reader);
    GiveBack(z, from, hold0, bits0, a);
  }
}
