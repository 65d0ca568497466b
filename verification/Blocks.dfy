/**
 A text cut into blocks: the symbols of each, and its text while that is at hand.
 */
module Blocks {
  import opened BitOps
  import opened Lz77

  /** Symbols of a block, and its text if that is still in the window. */
  datatype Block = Block(syms: seq<Symbol>, buf: seq<byte>, hasBuf: bool, storedLen: nat)

  /** The output after some symbols. */
  function Extend(out: seq<byte>, syms: seq<Symbol>): Decoded
    decreases |syms|
  {
    if syms == [] then Decoded(out)
    else if !CanApply(out, syms[0]) then TooFarBack
    else Extend(Apply(out, syms[0]), syms[1..])
  }

  lemma {:induction false} ExtendMore(out: seq<byte>, a: seq<Symbol>, b: seq<Symbol>, mid: seq<byte>)
    requires Extend(out, a) == Decoded(mid)
    ensures Extend(out, a + b) == Extend(mid, b)
    decreases |a|
  {
    hide Apply;
    if a == [] {
      assert a + b == b;
    } else {
      assert (a + b)[1..] == a[1..] + b;
      ExtendMore(Apply(out, a[0]), a[1..], b, mid);
    }
  }

  /** Decoding from nothing is the same as decoding from the last symbol back. */
  lemma {:induction false} ExtendIsDecode(syms: seq<Symbol>, text: seq<byte>)
    requires Decode(syms) == Decoded(text)
    ensures Extend([], syms) == Decoded(text)
    decreases |syms|
  {
    hide Apply;
    if syms != [] {
      var n := |syms| - 1;
      var a, s := syms[..n], syms[n];
      assert syms == a + [s];
      ExtendIsDecode(a, Decode(a).text);
      ExtendMore([], a, [s], Decode(a).text);
      assert [s][1..] == [];
    }
  }

  /** The symbols of all the blocks. */
  function AllSyms(blocks: seq<Block>): seq<Symbol>
    decreases |blocks|
  {
    if blocks == [] then [] else AllSyms(blocks[..|blocks| - 1]) + blocks[|blocks| - 1].syms
  }

  lemma AllSymsMore(blocks: seq<Block>, b: Block)
    ensures AllSyms(blocks + [b]) == AllSyms(blocks) + b.syms
  {
    assert (blocks + [b])[..|blocks|] == blocks;
  }

  /** The blocks stand for text after out; a text kept for a stored block is the block's. */
  ghost predicate StandFor(out: seq<byte>, blocks: seq<Block>, text: seq<byte>)
    decreases |blocks|
  {
    if blocks == [] then out == text
    else
      var e := Extend(out, blocks[0].syms);
      && e.Decoded? && (blocks[0].hasBuf ==> e.text == out + blocks[0].buf)
      && StandFor(e.text, blocks[1..], text)
  }

  lemma {:induction false} StandForMore(out: seq<byte>, blocks: seq<Block>, b: Block, mid: seq<byte>, text: seq<byte>)
    requires StandFor(out, blocks, mid) && Extend(mid, b.syms) == Decoded(text) && (b.hasBuf ==> text == mid + b.buf)
    ensures StandFor(out, blocks + [b], text)
    decreases |blocks|
  {
    if blocks == [] {
      assert blocks + [b] == [b] && [b][1..] == [];
    } else {
      assert (blocks + [b])[1..] == blocks[1..] + [b];
      StandForMore(Extend(out, blocks[0].syms).text, blocks[1..], b, mid, text);
    }
  }

  /** One more block flushed: what its symbols add to those before it is its text. */
  lemma Flushed(sent: seq<Symbol>, syms: seq<Symbol>, before: seq<byte>, after: seq<byte>)
    requires Decode(sent) == Decoded(before) && Decode(sent + syms) == Decoded(after)
    ensures Extend(before, syms) == Decoded(after)
  {
    hide Decode, Extend;
    ExtendIsDecode(sent, before);
    ExtendIsDecode(sent + syms, after);
    ExtendMore([], sent, syms, before);
  }
}
