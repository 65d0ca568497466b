/**
 The header of a dynamic block (section 3.2.7 of RFC 1951): `send_all_trees`
 (zlib/trees.c:829-858) and inflate's TABLE, LENLENS and CODELENS states.
 */
module BlockHeader {
  import opened BitOps
  import opened RunLengths
  import opened BitStream
  import opened CodeReading
  import opened CodeLengths

  const BL_ORDER: seq<nat> := [16, 17, 18, 0, 8, 7, 9, 6, 10, 5, 11, 4, 12, 3, 13, 2, 14, 1, 15]
  /** Where each symbol comes in that order. */
  const BL_RANK: seq<nat> := [3, 17, 15, 13, 11, 9, 7, 5, 4, 6, 8, 10, 12, 14, 16, 18, 0, 1, 2]

  /** The order of section 3.2.7 of RFC 1951: the repeats, zero, and then outward from eight in turn. */
  lemma OrderIs(k: nat)
    requires k < 8
    ensures |BL_ORDER| == BL_CODES && BL_ORDER[..4] == [16, 17, 18, 0]
    ensures BL_ORDER[4 + 2 * k] == 8 + k && (k < 7 ==> BL_ORDER[5 + 2 * k] == 7 - k)
  {
  }

  lemma OrderRanks(i: nat)
    requires i < BL_CODES
    ensures BL_ORDER[i] < BL_CODES && BL_RANK[i] < BL_CODES
    ensures BL_ORDER[BL_RANK[i]] == i && BL_RANK[BL_ORDER[i]] == i
  {
  }

  // ------------------------------------------------------- the 19 short lengths

  ghost function OrderBits(bl: seq<nat>, rank: nat, n: nat): Bits
    requires |bl| == BL_CODES && n <= BL_CODES
    decreases n - rank
  {
    if rank >= n then NoBits else Join(Bits(bl[BL_ORDER[rank]], 3), OrderBits(bl, rank + 1, n))
  }

  /** Every length of rank n or more is zero. */
  ghost predicate ZeroFrom(bl: seq<nat>, n: nat) {
    |bl| == BL_CODES && forall r :: n <= r < BL_CODES ==> bl[BL_ORDER[r]] == 0
  }

  // ------------------------------------------------------------------ the header

  /** Literal and distance lengths, the 19 lengths that code them, and how many of those are sent. */
  ghost predicate GoodHeader(lit: seq<nat>, dist: seq<nat>, bl: seq<nat>, n: nat) {
    && 257 <= |lit| <= 286 && 1 <= |dist| <= 30 && 4 <= n <= BL_CODES && ZeroFrom(bl, n)
    && (forall i :: 0 <= i < |lit| ==> lit[i] <= 15) && (forall i :: 0 <= i < |dist| ==> dist[i] <= 15)
    && (forall i :: 0 <= i < |bl| ==> bl[i] <= 7)
    && HaveCodes(bl, TreeTokens(lit)) && HaveCodes(bl, TreeTokens(dist))
  }

  ghost function CountBits(lit: nat, dist: nat, n: nat): Bits
    requires 257 <= lit && 1 <= dist && 4 <= n
  {
    Join(Bits(lit - 257, 5), Join(Bits(dist - 1, 5), Bits(n - 4, 4)))
  }

  ghost function TreesBits(lit: seq<nat>, dist: seq<nat>, bl: seq<nat>): Bits
    requires HaveCodes(bl, TreeTokens(lit)) && HaveCodes(bl, TreeTokens(dist))
  {
    Join(TokensBits(bl, TreeTokens(lit)), TokensBits(bl, TreeTokens(dist)))
  }

  ghost function HeaderBits(lit: seq<nat>, dist: seq<nat>, bl: seq<nat>, n: nat): Bits
    requires GoodHeader(lit, dist, bl, n)
  {
    Join(CountBits(|lit|, |dist|, n), Join(OrderBits(bl, 0, n), TreesBits(lit, dist, bl)))
  }

  datatype Counts = Counts(nlen: nat, ndist: nat, ncode: nat, rest: nat)

  /** TABLE (zlib/inflate.c:936-954). */
  function ReadCounts(h: nat): Counts {
    var h1 := Shr(h, 5);
    var h2 := Shr(h1, 5);
    Counts(Low(h, 5) + 257, Low(h1, 5) + 1, Low(h2, 4) + 4, Shr(h2, 4))
  }

  lemma CountsRead(lit: nat, dist: nat, n: nat, rest: nat)
    requires 257 <= lit <= 288 && 1 <= dist <= 32 && 4 <= n <= 19
    ensures ReadCounts(Followed(CountBits(lit, dist, n), rest)) == Counts(lit, dist, n, rest)
  {
    assert Pow2(5) == 32 && Pow2(4) == 16;
    hide Low, Shr, Followed, Join;
    var a, b, c := Bits(lit - 257, 5), Bits(dist - 1, 5), Bits(n - 4, 4);
    FollowedJoin(a, Join(b, c), rest);
    FollowedJoin(b, c, rest);
    FollowedBack(a, Followed(b, Followed(c, rest)));
    FollowedBack(b, Followed(c, rest));
    FollowedBack(c, rest);
  }

  // --------------------------------------------------------------------- sending

  /** zlib/trees.c:818-820: the last of the 19 lengths to send. */
  method LastBlCode(blLen: array<nat>) returns (maxBlindex: nat)
    requires blLen.Length >= BL_CODES
    ensures 2 <= maxBlindex < BL_CODES && ZeroFrom(blLen[..BL_CODES], maxBlindex + 1)
    ensures maxBlindex >= 3 <==> !ZeroFrom(blLen[..BL_CODES], 3)
    ensures maxBlindex >= 3 ==> blLen[BL_ORDER[maxBlindex]] != 0
  {
    maxBlindex := BL_CODES - 1;
    while maxBlindex >= 3
      invariant 2 <= maxBlindex < BL_CODES && ZeroFrom(blLen[..BL_CODES], maxBlindex + 1)
    {
      OrderRanks(maxBlindex);
      if blLen[BL_ORDER[maxBlindex]] != 0 {
        assert blLen[..BL_CODES][BL_ORDER[maxBlindex]] != 0;
        break;
      }
      maxBlindex := maxBlindex - 1;
    }
  }

  /** send_all_trees; the guards that scan_tree left end the two trees. */
  method SendAllTrees(w: BitWriter, ltree: array<nat>, dtree: array<nat>, code: array<nat>, len: array<nat>,
                      lcodes: nat, dcodes: nat, blcodes: nat, ghost bl: seq<nat>)
    requires w.Valid() && CodesReady(code[..], len[..], bl)
    requires 1 <= lcodes < ltree.Length && 1 <= dcodes < dtree.Length
    requires ltree[lcodes] == GUARD && dtree[dcodes] == GUARD
    requires GoodHeader(ltree[..lcodes], dtree[..dcodes], bl, blcodes)
    modifies w
    ensures w.Valid()
    ensures w.Written() == Join(old(w.Written()), HeaderBits(ltree[..lcodes], dtree[..dcodes], bl, blcodes))
  {
    hide Join, TreeTokens, TokensBits, HaveCodes;
    ghost var was := w.Written();
    ghost var lit: seq<nat>, dist: seq<nat> := ltree[..lcodes], dtree[..dcodes];
    SendCounts(w, lcodes, dcodes, blcodes);
    ghost var counts := Join(was, CountBits(lcodes, dcodes, blcodes));
    JoinNone(counts);
    for rank := 0 to blcodes
      invariant w.Valid()
      invariant Join(w.Written(), OrderBits(bl, rank, blcodes)) == Join(counts, OrderBits(bl, 0, blcodes))
    {
      OrderRanks(rank);
      assert Pow2(3) == 8;
      JoinAssoc(w.Written(), Bits(bl[BL_ORDER[rank]], 3), OrderBits(bl, rank + 1, blcodes));
      w.SendBits(len[BL_ORDER[rank]], 3);
    }
    JoinNone(w.Written());
    ghost var a, b := TokensBits(bl, TreeTokens(lit)), TokensBits(bl, TreeTokens(dist));
    SendTree(w, ltree, lcodes - 1, code, len, bl, lit);
    SendTree(w, dtree, dcodes - 1, code, len, bl, dist);
    JoinAssoc(Join(counts, OrderBits(bl, 0, blcodes)), a, b);
    JoinAssoc(counts, OrderBits(bl, 0, blcodes), Join(a, b));
    JoinAssoc(was, CountBits(lcodes, dcodes, blcodes), Join(OrderBits(bl, 0, blcodes), Join(a, b)));
  }

  method SendCounts(w: BitWriter, lcodes: nat, dcodes: nat, blcodes: nat)
    requires w.Valid() && 257 <= lcodes <= 286 && 1 <= dcodes <= 30 && 4 <= blcodes <= BL_CODES
    modifies w
    ensures w.Valid() && w.Written() == Join(old(w.Written()), CountBits(lcodes, dcodes, blcodes))
  {
    hide Join;
    ghost var was := w.Written();
    assert Pow2(5) == 32 && Pow2(4) == 16;
    w.SendBits(lcodes - 257, 5);
    w.SendBits(dcodes - 1, 5);
    w.SendBits(blcodes - 4, 4);
    ghost var a, b, c := Bits(lcodes - 257, 5), Bits(dcodes - 1, 5), Bits(blcodes - 4, 4);
    JoinAssoc(was, a, b);
    JoinAssoc(was, Join(a, b), c);
    JoinAssoc(a, b, c);
  }
}
