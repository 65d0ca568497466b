/**
 inflate's circular window (zlib/inflate.c:399-447): after any updates it holds the
 last output bytes, as many as there are or as fit, ending at wnext.
 */
module InflateWindow {
  import opened BitOps

  /** 1 << wbits for the largest window. */
  const WSIZE: nat := 0x8000

  class Window {
    const window: array<byte>
    /** Zero until the window is first used. */
    var wsize: nat
    var whave: nat
    var wnext: nat

    ghost predicate Shape()
      reads this
    {
      && window.Length == WSIZE && (wsize == 0 || wsize == WSIZE)
      && (wsize == 0 ==> whave == wnext == 0)
      && whave <= wsize && (wsize != 0 ==> wnext < wsize) && (whave < wsize ==> wnext == whave)
    }

    /** The window has the end of history h. */
    ghost predicate Holds(h: seq<byte>)
      reads this, window
    {
      && Shape()
      && (if wsize == 0 then h == [] else Keeps(window[..], wnext, whave, h))
      && whave == (if |h| < wsize then |h| else wsize)
    }

    constructor ()
      ensures Holds([]) && fresh(window)
    {
      window := new byte[WSIZE];
      wsize, whave, wnext := 0, 0, 0;
    }

    /** zmemcpy into the window. */
    method Fill(at: nat, out: array<byte>, from: nat, n: nat)
      requires at + n <= window.Length && from + n <= out.Length && out != window
      modifies window
      ensures window[..] == Filled(old(window[..]), at, out[..][from..from + n])
      ensures out[..] == old(out[..])
    {
      forall k | 0 <= k < n {
        window[at + k] := out[from + k];
      }
    }

    /** updatewindow, with the allocation done beforehand. */
    method Update(out: array<byte>, end: nat, copy: nat, ghost h: seq<byte>)
      requires Shape() && copy <= end <= out.Length && out != window
      modifies this, window
      ensures Shape() && wsize == WSIZE
      ensures old(Holds(h)) ==> Holds(h + out[..][end - copy..end])
    {
      hide Keeps, Filled;
      if wsize == 0 {
        NoneKept(window[..], h);
        wsize := WSIZE;
        wnext := 0;
        whave := 0;
      }
      if copy >= wsize {
        Fill(0, out, end - wsize, wsize);
        wnext := 0;
        whave := wsize;
        Halves(out[..], end - copy, end - wsize, end);
        Replaced(old(window[..]), window[..], out[..][end - copy..end], h);
      } else {
        Append(out, end, copy, h);
      }
    }

    lemma HoldsSays(h: seq<byte>)
      requires Holds(h) && wsize == WSIZE
      ensures Keeps(window[..], wnext, whave, h) && whave == if |h| < WSIZE then |h| else WSIZE
    {
    }

    lemma NowHolds(h: seq<byte>)
      requires Shape() && wsize == WSIZE && Keeps(window[..], wnext, whave, h)
      requires whave == if |h| < WSIZE then |h| else WSIZE
      ensures Holds(h)
    {
    }

    /** The case of less than a window. */
    method Append(out: array<byte>, end: nat, copy0: nat, ghost h: seq<byte>)
      requires Shape() && copy0 <= end <= out.Length && out != window && wsize == WSIZE && copy0 < wsize
      modifies `wnext, `whave, window
      ensures Shape()
      ensures old(Holds(h)) ==> Holds(h + out[..][end - copy0..end])
    {
      hide Keeps, Place, Filled, Window.Holds;
      ghost var held, w, next, have := Holds(h), window[..], wnext, whave;
      if held { HoldsSays(h); }
      ghost var added := out[..][end - copy0..end];
      var copy := copy0;
      var dist := wsize - wnext;
      if dist > copy {
        dist := copy;
      }
      Fill(wnext, out, end - copy, dist);
      Halves(out[..], end - copy, end - copy + dist, end);
      ghost var w1 := window[..];
      copy := copy - dist;
      if copy != 0 {
        Fill(0, out, end - copy, copy);
        wnext := copy;
        whave := wsize;
        if held {
          Wrapped(w, w1, window[..], next, dist, added, h, have);
          NowHolds(h + added);
        }
      } else {
        wnext := wnext + dist;
        if wnext == wsize {
          wnext := 0;
        }
        if whave < wsize {
          whave := whave + dist;
        }
        if held {
          Extended(w, w1, next, added, h, have);
          NowHolds(h + added);
        }
      }
    }
  }

  lemma Halves(o: seq<byte>, a: nat, b: nat, c: nat)
    requires a <= b <= c <= |o|
    ensures o[a..c][..b - a] == o[a..b] && o[a..c][b - a..] == o[b..c]
  {
  }

  /** The place k back in a window that ends at next. */
  function Place(next: nat, k: nat): int {
    if k <= next then next - k else WSIZE + next - k
  }

  /** The last `have` bytes of h are in w, ending at next. */
  ghost predicate Keeps(w: seq<byte>, next: nat, have: nat, h: seq<byte>) {
    && |w| == WSIZE && have <= |h| && have <= WSIZE && next < WSIZE
    && forall k :: 1 <= k <= have ==> 0 <= Place(next, k) < WSIZE && w[Place(next, k)] == h[|h| - k]
  }

  lemma NoneKept(w: seq<byte>, h: seq<byte>)
    requires |w| == WSIZE
    ensures Keeps(w, 0, 0, h)
  {
  }

  /** Bytes written over those at a place. */
  function Filled(w: seq<byte>, at: nat, bytes: seq<byte>): (r: seq<byte>)
    requires at + |bytes| <= |w|
    ensures |r| == |w|
  {
    w[..at] + bytes + w[at + |bytes|..]
  }

  lemma Replaced(w: seq<byte>, w1: seq<byte>, added: seq<byte>, h: seq<byte>)
    requires |added| >= WSIZE == |w| && w1 == Filled(w, 0, added[|added| - WSIZE..])
    ensures Keeps(w1, 0, WSIZE, h + added)
  {
  }

  /** The added bytes fit before the end of the window. */
  lemma Extended(w: seq<byte>, w1: seq<byte>, next: nat, added: seq<byte>, h: seq<byte>, have: nat)
    requires Keeps(w, next, have, h) && next + |added| <= WSIZE && (have < WSIZE ==> next == have)
    requires w1 == Filled(w, next, added)
    ensures var next1 := if next + |added| == WSIZE then 0 else next + |added|;
      Keeps(w1, next1, if have < WSIZE then have + |added| else have, h + added)
  {
    var next1 := if next + |added| == WSIZE then 0 else next + |added|;
    forall k | 1 <= k <= (if have < WSIZE then have + |added| else have)
      ensures 0 <= Place(next1, k) < WSIZE && w1[Place(next1, k)] == (h + added)[|h + added| - k]
    {
      if |added| < k {
        assert Place(next, k - |added|) == Place(next1, k);
      }
    }
  }

  /** The added bytes reach the end of the window and go on from its start. */
  lemma Wrapped(w: seq<byte>, w1: seq<byte>, w2: seq<byte>, next: nat, dist: nat, added: seq<byte>,
                h: seq<byte>, have: nat)
    requires Keeps(w, next, have, h) && next <= have && next + dist == WSIZE && dist < |added| < WSIZE
    requires w1 == Filled(w, next, added[..dist]) && w2 == Filled(w1, 0, added[dist..])
    ensures Keeps(w2, |added| - dist, WSIZE, h + added)
  {
    var c := |added| - dist;
    forall k | 1 <= k <= WSIZE
      ensures 0 <= Place(c, k) < WSIZE && w2[Place(c, k)] == (h + added)[|h + added| - k]
    {
      if c < k && |added| < k {
        assert Place(next, k - |added|) == Place(c, k);
      }
    }
  }
}
