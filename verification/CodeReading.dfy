/**
 A code sent and read back: `send_code` writes the reversed canonical code, and the
 decoder's table finds its symbol whatever bits follow.
 */
module CodeReading {
  import opened BitOps
  import opened Canonical
  import opened BitStream

  /** The bits that stand for symbol s. */
  ghost function CodeOf(lens: seq<nat>, s: nat): (b: Bits)
    requires s < |lens|
    ensures Proper(b)
  {
    Bits(RevCode(lens, s), lens[s])
  }

  /** The bits b, and then the bits of the number rest. */
  function Followed(b: Bits, rest: nat): nat {
    b.v + Shl(rest, b.n)
  }

  lemma FollowedJoin(b: Bits, c: Bits, rest: nat)
    ensures Followed(Join(b, c), rest) == Followed(b, Followed(c, rest))
  {
    JoinThen(b, c, rest);
  }

  lemma FollowedNone(rest: nat)
    ensures Followed(NoBits, rest) == rest
  {
  }

  lemma FollowedBack(b: Bits, rest: nat)
    requires Proper(b)
    ensures Low(Followed(b, rest), b.n) == b.v && Shr(Followed(b, rest), b.n) == rest
  {
    ReadBack(b, rest);
  }

}
