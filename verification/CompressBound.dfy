/**
 `compressBound` (zlib/compress.c:81-86): what blocks that each take at most five bytes
 more than their text come to, when all but the last cover at least 16383 bytes.
 */
module CompressBound {
  import opened BitOps
  import opened Lz77
  import opened Blocks

  const MIN_BLOCK: nat := 16383
  const BLOCK_OVERHEAD: nat := 5
  /** Two bytes of header, four of Adler-32. */
  const WRAPPER: nat := 6

  function Bound(sourceLen: nat): nat {
    sourceLen + sourceLen / 0x1000 + sourceLen / 0x4000 + sourceLen / 0x200_0000 + 13
  }

  /** The stored lengths of the blocks together. */
  function StoredTotal(blocks: seq<Block>): nat
    decreases |blocks|
  {
    if blocks == [] then 0 else blocks[0].storedLen + StoredTotal(blocks[1..])
  }

  lemma {:induction false} StoredMore(blocks: seq<Block>, b: Block)
    ensures StoredTotal(blocks + [b]) == StoredTotal(blocks) + b.storedLen
    decreases |blocks|
  {
    if blocks == [] {
      assert blocks + [b] == [b] && [b][1..] == [];
    } else {
      assert (blocks + [b])[1..] == blocks[1..] + [b];
      StoredMore(blocks[1..], b);
    }
  }

  /** Every block's text is at hand, and every block but the last is a long one. */
  ghost predicate LongBlocks(blocks: seq<Block>) {
    && (forall i :: 0 <= i < |blocks| ==> blocks[i].hasBuf)
    && (forall i :: 0 <= i < |blocks| - 1 ==> blocks[i].storedLen >= MIN_BLOCK)
  }

  /** How many blocks there can be. */
  lemma {:induction false} ManyBlocks(blocks: seq<Block>)
    requires blocks != [] && LongBlocks(blocks)
    ensures (|blocks| - 1) * MIN_BLOCK <= StoredTotal(blocks)
    decreases |blocks|
  {
    if |blocks| > 1 { ManyBlocks(blocks[1..]); }
  }

  /** k blocks of 16383 bytes: the shifts make up for five bytes each. */
  lemma ShiftsCover(k: nat, n: nat)
    requires k * MIN_BLOCK <= n
    ensures 5 * k <= n / 0x1000 + n / 0x4000 + n / 0x200_0000 + 2
  {
    var a, b, c := n / 0x1000, n / 0x4000, n / 0x200_0000;
    assert 0x1000 * a + 0xfff >= n && 0x4000 * b + 0x3fff >= n && 0x200_0000 * c + 0x1ff_ffff >= n;
  }

  /** What the blocks can come to fits in the bound. */
  lemma BlocksFit(blocks: seq<Block>)
    requires blocks != [] && LongBlocks(blocks)
    ensures WRAPPER + StoredTotal(blocks) + BLOCK_OVERHEAD * |blocks| <= Bound(StoredTotal(blocks))
  {
    ManyBlocks(blocks);
    ShiftsCover(|blocks| - 1, StoredTotal(blocks));
  }

  /** Blocks that have their text at hand have all of the text between them. */
  lemma {:induction false} StoredIsText(out: seq<byte>, blocks: seq<Block>, text: seq<byte>)
    requires StandFor(out, blocks, text)
    requires forall i :: 0 <= i < |blocks| ==> blocks[i].hasBuf && blocks[i].storedLen == |blocks[i].buf|
    ensures |text| == |out| + StoredTotal(blocks)
    decreases |blocks|
  {
    hide Extend;
    if blocks != [] { StoredIsText(Extend(out, blocks[0].syms).text, blocks[1..], text); }
  }

  lemma {:induction false} SymbolsCover(out: seq<byte>, syms: seq<Symbol>)
    requires Extend(out, syms).Decoded? && forall s :: s in syms && s.Match? ==> s.len >= 1
    ensures |Extend(out, syms).text| >= |out| + |syms|
    decreases |syms|
  {
    if syms != [] {
      ApplyAdds(out, syms[0]);
      SymbolsCover(Apply(out, syms[0]), syms[1..]);
    }
  }

  lemma ApplyAdds(out: seq<byte>, s: Symbol)
    requires CanApply(out, s) && (s.Match? ==> s.len >= 1)
    ensures |Apply(out, s)| >= |out| + 1
  {
  }

  /** Blocks sent because 16383 symbols had gathered are long enough. */
  lemma {:induction false} FullAreLong(out: seq<byte>, blocks: seq<Block>, text: seq<byte>)
    requires StandFor(out, blocks, text)
    requires forall i :: 0 <= i < |blocks| ==> blocks[i].hasBuf && blocks[i].storedLen == |blocks[i].buf|
    requires forall i :: 0 <= i < |blocks| ==> forall s :: s in blocks[i].syms && s.Match? ==> s.len >= 1
    requires forall i :: 0 <= i < |blocks| - 1 ==> |blocks[i].syms| >= MIN_BLOCK
    ensures LongBlocks(blocks)
    decreases |blocks|
  {
    hide Extend;
    if blocks != [] {
      SymbolsCover(out, blocks[0].syms);
      FullAreLong(Extend(out, blocks[0].syms).text, blocks[1..], text);
      forall i | 0 <= i < |blocks| - 1 ensures blocks[i].storedLen >= MIN_BLOCK {
        if i > 0 { assert blocks[i] == blocks[1..][i - 1]; }
      }
    }
  }
}
