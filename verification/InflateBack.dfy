/**
 Where `inflateBack` puts its output (zlib/infback.c:211-222 and 579-605): the window is
 the output buffer, and goes to the caller whenever it is full.  Copying a match within
 it, around its end and over bytes just written, is the LZ77 copy from all the output.
 */
module InflateBack {
  import opened BitOps
  import opened Lz77
  import opened Blocks
  import opened MatchCopy

  datatype Result = Fine | TooFar | OutFailed

  /** The index of the byte k back from put. */
  function Back(put: nat, wsize: nat, k: nat): int {
    if k <= put then put - k else put - k + wsize
  }

  /** The last bytes of the output, as many as there are or as fit, are in the window. */
  ghost predicate Last(window: seq<byte>, put: nat, history: seq<byte>) {
    forall k :: 1 <= k <= |window| && k <= |history| ==>
      0 <= Back(put, |window|, k) < |window| && window[Back(put, |window|, k)] == history[|history| - k]
  }

  lemma LastMore(window: seq<byte>, put: nat, history: seq<byte>, c: byte)
    requires put < |window| && Last(window, put, history)
    ensures Last(window[put := c], put + 1, history + [c])
  {
    var w, h, p := window[put := c], history + [c], put + 1;
    forall k | 1 <= k <= |w| && k <= |h| ensures 0 <= Back(p, |w|, k) < |w| && w[Back(p, |w|, k)] == h[|h| - k] {
      if k > 1 { assert Back(p, |w|, k) == Back(put, |window|, k - 1); }
    }
  }

  /** A full window is the end of the output; it is used from the start again. */
  lemma LastFull(window: seq<byte>, history: seq<byte>)
    requires Last(window, |window|, history) && |window| <= |history|
    ensures history[|history| - |window|..] == window && Last(window, 0, history)
  {
    var n := |window|;
    forall i | 0 <= i < n ensures history[|history| - n + i] == window[i] {
      assert Back(n, n, n - i) == i;
    }
    forall k | 1 <= k <= n && k <= |history|
      ensures 0 <= Back(0, n, k) < n && window[Back(0, n, k)] == history[|history| - k]
    {
      assert Back(0, n, k) == Back(n, n, k);
    }
  }

  lemma LastBytes(window: seq<byte>, put: nat, history: seq<byte>)
    requires Last(window, put, history) && put <= |window| && put <= |history|
    ensures history[|history| - put..] == window[..put]
  {
    forall i | 0 <= i < put ensures history[|history| - put + i] == window[i] {
      assert Back(put, |window|, put - i) == i;
    }
  }

  class BackWindow {
    const window: array<byte>
    const wsize: nat
    /** out() never fails; otherwise it may whenever it is called. */
    const reliable: bool
    var put: nat
    var left: nat
    var whave: nat
    /** What out() has been given. */
    var written: seq<byte>
    /** All output. */
    ghost var history: seq<byte>

    ghost predicate Valid()
      reads this, window
    {
      && window.Length == wsize > 0 && put + left == wsize && put <= |history|
      && (if whave < wsize then |history| == put else |history| >= wsize)
      && written == history[..|history| - put] && Last(window[..], put, history)
    }

    /** zlib/infback.c:278-288. */
    constructor (wbits: nat, reliable0: bool)
      requires 8 <= wbits <= 15
      ensures Valid() && fresh(window) && history == written == [] && wsize == Pow2(wbits) && reliable == reliable0
    {
      reliable := reliable0;
      window := new byte[Pow2(wbits)];
      wsize := Pow2(wbits);
      put, left, whave := 0, Pow2(wbits), 0;
      written, history := [], [];
    }

    /** ROOM. */
    method Room() returns (ok: bool)
      requires Valid()
      modifies this`put, this`left, this`whave, this`written
      ensures Valid() && (ok ==> left > 0) && history == old(history)
      ensures old(left) > 0 || reliable ==> ok
      ensures old(left) > 0 ==> put == old(put)
    {
      ok := true;
      if left == 0 {
        LastFull(window[..], history);
        put := 0;
        left := wsize;
        whave := left;
        written := written + window[..];
        if !reliable { ok := *; }
      }
    }

    /** `*put++ = c`. */
    method PutByte(c: byte)
      requires Valid() && left > 0
      modifies this`put, this`left, this`history, window
      ensures Valid() && history == old(history) + [c] && put == old(put) + 1
    {
      LastMore(window[..], put, history, c);
      window[put] := c;
      put, left := put + 1, left - 1;
      history := history + [c];
    }

    /** zlib/infback.c:513-523. */
    method PutLiteral(c: byte) returns (r: Result)
      requires Valid()
      modifies this, window
      ensures Valid() && !r.TooFar? && (reliable ==> r.Fine?)
      ensures history == if r.Fine? then old(history) + [c] else old(history)
    {
      var ok := Room();
      if !ok { return OutFailed; }
      PutByte(c);
      r := Fine;
    }

    /** `*put++ = *from++`, n times, from a place that stays offset bytes behind. */
    method CopyRun(from0: nat, n: nat, offset: nat)
      requires Valid() && n <= left && 1 <= offset <= wsize && offset <= |history|
      requires from0 == Back(put, wsize, offset) && (offset > put ==> n <= offset - put)
      modifies this`put, this`left, this`history, window
      ensures Valid() && history == Copy(old(history), offset, n) && put == old(put) + n
    {
      ghost var h, at := history, put;
      var from := from0;
      for i := 0 to n
        invariant Valid() && put == at + i && from == from0 + i && offset <= |history|
        invariant history == Copy(h, offset, i)
      {
        assert from == Back(put, wsize, offset);
        CopyCopy(h, offset, i, 1);
        CopyOne(history, offset);
        PutByte(window[from]);
        from := from + 1;
      }
    }

    /** One pass of the loop: as much as fits and lies in one piece (zlib/infback.c:589-604). */
    method CopyPiece(length: nat, offset: nat) returns (n: nat)
      requires Valid() && left > 0 && length > 0 && 1 <= offset <= wsize && offset <= |history|
      modifies this`put, this`left, this`history, window
      ensures Valid() && 0 < n <= length && history == Copy(old(history), offset, n)
    {
      var from: nat, copy: nat := 0, wsize - offset;
      if copy < left {
        from := put + copy;
        copy := left - copy;
      } else {
        from := put - offset;
        copy := left;
      }
      if copy > length { copy := length; }
      CopyRun(from, copy, offset);
      n := copy;
    }

    /** zlib/infback.c:579-605.  A distance is refused just when it reaches before the output or out of the window;
        copied tells how far a failing out() let the copy get. */
    method CopyMatch(length: nat, offset: nat) returns (r: Result, ghost copied: nat)
      requires Valid() && length > 0 && offset > 0
      modifies this, window
      ensures Valid() && (reliable ==> !r.OutFailed?)
      ensures r.TooFar? <==> offset > |old(history)| || offset > wsize
      ensures r.TooFar? ==> history == old(history)
      ensures !r.TooFar?
        ==> copied <= length && (r.Fine? <==> copied == length) && history == Copy(old(history), offset, copied)
    {
      copied := 0;
      if offset > wsize - (if whave < wsize then left else 0) { return TooFar, 0; }
      ghost var h := history;
      var rest: nat := length;
      while rest != 0
        invariant Valid() && rest <= length && copied == length - rest && history == Copy(h, offset, copied)
        decreases rest
      {
        var ok := Room();
        if !ok { return OutFailed, copied; }
        var n := CopyPiece(rest, offset);
        CopyCopy(h, offset, copied, n);
        copied := copied + n;
        rest := rest - n;
      }
      r := Fine;
    }

    /** inf_leave: out() is given the rest. */
    method Leave()
      requires Valid()
      modifies this`written
      ensures written == history == old(history)
    {
      LastBytes(window[..], put, history);
      if left < wsize { written := written + window[..wsize - left]; }
    }

    /** The symbols of a block: what out() gets and the window keeps is what they decode to.  A symbol is refused just
        when it reaches before the output or out of the window; done counts the symbols carried out. */
    method Play(syms: seq<Symbol>) returns (r: Result, ghost done: nat)
      requires Valid() && forall s :: s in syms && s.Match? ==> s.dist > 0 && s.len > 0
      modifies this, window
      ensures Valid() && done <= |syms| && (r.Fine? <==> done == |syms|) && (reliable ==> !r.OutFailed?)
      ensures !r.OutFailed? ==> Extend(old(history), syms[..done]) == Decoded(history)
      ensures r.TooFar? ==> syms[done].Match? && (syms[done].dist > |history| || syms[done].dist > wsize)
      ensures r.Fine? ==> Extend(old(history), syms) == Decoded(history)
    {
      ghost var h := history;
      done := 0;
      for i := 0 to |syms|
        invariant Valid() && done == i && Extend(h, syms[..i]) == Decoded(history)
      {
        ghost var before := history;
        assert syms[..i + 1] == syms[..i] + [syms[i]];
        match syms[i] {
          case Literal(c) =>
            r := PutLiteral(c);
          case Match(dist, len) =>
            ghost var copied;
            r, copied := CopyMatch(len, dist);
        }
        if !r.Fine? { return r, done; }
        ExtendOne(h, syms[..i], syms[i], before, history);
        done := done + 1;
      }
      assert syms[..|syms|] == syms;
      r := Fine;
    }
  }

  lemma ExtendOne(h: seq<byte>, syms: seq<Symbol>, s: Symbol, before: seq<byte>, after: seq<byte>)
    requires Extend(h, syms) == Decoded(before) && CanApply(before, s) && after == Apply(before, s)
    ensures Extend(h, syms + [s]) == Decoded(after)
  {
    ExtendMore(h, syms, [s], before);
    assert [s][1..] == [];
  }
}
