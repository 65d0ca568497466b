/**
 LZ77: a text as literals and references to what came before, and what a decoder
 makes of them, byte by byte (section 3.2.3 of RFC 1951).
 */
module Lz77 {
  import opened BitOps

  datatype Symbol = Literal(c: byte) | Match(dist: nat, len: nat)

  /** Append len bytes, each a copy of the one dist places before it; the copy may overlap itself. */
  function Copy(out: seq<byte>, dist: nat, len: nat): (r: seq<byte>)
    requires 1 <= dist <= |out|
    ensures |r| == |out| + len
    decreases len
  {
    if len == 0 then out else Copy(out + [out[|out| - dist]], dist, len - 1)
  }

  predicate CanApply(out: seq<byte>, s: Symbol) {
    s.Match? ==> 1 <= s.dist <= |out|
  }

  function Apply(out: seq<byte>, s: Symbol): seq<byte>
    requires CanApply(out, s)
  {
    match s
    case Literal(c) => out + [c]
    case Match(dist, len) => Copy(out, dist, len)
  }

  datatype Decoded = Decoded(text: seq<byte>) | TooFarBack

  /** What a decoder that starts with nothing makes of the symbols (zlib/inflate.c:1172-1180 for the error). */
  function Decode(syms: seq<Symbol>): Decoded
    decreases |syms|
  {
    if syms == [] then Decoded([])
    else match Decode(syms[..|syms| - 1])
      case TooFarBack => TooFarBack
      case Decoded(out) => var s := syms[|syms| - 1]; if CanApply(out, s) then Decoded(Apply(out, s)) else TooFarBack
  }

  /** The same text is found dist bytes before position pos, over len bytes. */
  ghost predicate Repeats(text: seq<byte>, pos: nat, dist: nat, len: nat) {
    && 1 <= dist <= pos && pos + len <= |text|
    && forall i :: pos <= i < pos + len ==> text[i] == text[i - dist]
  }

  lemma {:induction false} CopyRepeats(text: seq<byte>, pos: nat, dist: nat, len: nat)
    requires Repeats(text, pos, dist, len)
    ensures Copy(text[..pos], dist, len) == text[..pos + len]
    decreases len
  {
    if len != 0 {
      assert text[..pos] + [text[pos]] == text[..pos + 1];
      CopyRepeats(text, pos + 1, dist, len - 1);
    }
  }

  lemma DecodeNext(syms: seq<Symbol>, out: seq<byte>, s: Symbol)
    requires Decode(syms) == Decoded(out) && CanApply(out, s)
    ensures Decode(syms + [s]) == Decoded(Apply(out, s))
  {
    assert (syms + [s])[..|syms|] == syms;
  }

  lemma TallyLiteral(syms: seq<Symbol>, text: seq<byte>, pos: nat)
    requires pos < |text| && Decode(syms) == Decoded(text[..pos])
    ensures Decode(syms + [Literal(text[pos])]) == Decoded(text[..pos + 1])
  {
    DecodeNext(syms, text[..pos], Literal(text[pos]));
    assert text[..pos] + [text[pos]] == text[..pos + 1];
  }

  lemma TallyMatch(syms: seq<Symbol>, text: seq<byte>, pos: nat, dist: nat, len: nat)
    requires Repeats(text, pos, dist, len) && Decode(syms) == Decoded(text[..pos])
    ensures Decode(syms + [Match(dist, len)]) == Decoded(text[..pos + len])
  {
    DecodeNext(syms, text[..pos], Match(dist, len));
    CopyRepeats(text, pos, dist, len);
  }
}
