/**
 Copying a match byte after byte, from the window or from the output itself
 (zlib/inflate.c:1170-1214, zlib/inffast.c:199-263, zlib/infback.c:579-605): each run
 is a stretch of the LZ77 copy from the whole history.
 */
module MatchCopy {
  import opened BitOps
  import opened Lz77
  import opened InflateWindow

  lemma {:induction false} CopyCopy(x: seq<byte>, d: nat, a: nat, b: nat)
    requires 1 <= d <= |x|
    ensures Copy(Copy(x, d, a), d, b) == Copy(x, d, a + b)
    decreases a
  {
    if a != 0 { CopyCopy(x + [x[|x| - d]], d, a - 1, b); }
  }

  lemma CopyOne(x: seq<byte>, d: nat)
    requires 1 <= d <= |x|
    ensures Copy(x, d, 1) == x + [x[|x| - d]]
  {
    assert Copy(x + [x[|x| - d]], d, 0) == x + [x[|x| - d]];
  }

  /** A copy no longer than its distance does not overlap itself. */
  lemma {:induction false} CopyShort(x: seq<byte>, d: nat, n: nat)
    requires n <= d && 1 <= d <= |x|
    ensures Copy(x, d, n) == x + x[|x| - d..|x| - d + n]
    decreases n
  {
    if n != 0 {
      CopyShort(x, d, n - 1);
      CopyCopy(x, d, n - 1, 1);
      CopyOne(Copy(x, d, n - 1), d);
      assert x[|x| - d..|x| - d + n] == x[|x| - d..|x| - d + n - 1] + [x[|x| - d + n - 1]];
    }
  }

  /** `*put++ = *from++`, n times, within the output. */
  method OutputRun(out: array<byte>, start: nat, put: nat, from: nat, n: nat, ghost h: seq<byte>)
    requires start <= from < put && put + n <= out.Length
    modifies out
    ensures h + out[start..put + n] == Copy(h + old(out[start..put]), put - from, n)
  {
    ghost var x, d := h + out[start..put], put - from;
    for i := 0 to n
      invariant h + out[start..put + i] == Copy(x, d, i)
    {
      ghost var y := h + out[start..put + i];
      CopyCopy(x, d, i, 1);
      CopyOne(y, d);
      out[put + i] := out[from + i];
      assert h + out[start..put + (i + 1)] == y + [y[|y| - d]];
    }
  }

  /** The same from the window, where the bytes from k back on are in one piece. */
  method WindowRun(win: Window, out: array<byte>, start: nat, put: nat, from: nat, n: nat, ghost k: nat,
      ghost h: seq<byte>)
    requires win.Holds(h) && out != win.window && start <= put && put + n <= out.Length
    requires n <= k <= win.whave && k >= 1 && from == Place(win.wnext, k) && (k <= win.wnext || n <= k - win.wnext)
    modifies out
    ensures h + out[start..put + n] == Copy(h + old(out[start..put]), k + (put - start), n)
  {
    hide Keeps, Copy;
    ghost var w, before := win.window[..], out[start..put];
    WindowPiece(w, win.wnext, win.whave, k, n, h);
    for i := 0 to n
      invariant win.window[..] == w
      invariant out[start..put + i] == before + w[from..from + i]
    {
      out[put + i] := win.window[from + i];
      assert w[from..from + (i + 1)] == w[from..from + i] + [w[from + i]];
      assert out[start..put + (i + 1)] == out[start..put + i] + [w[from + i]];
    }
    WindowCopied(h, before, out[start..put + n], k, n, w[from..from + n]);
  }

  lemma WindowCopied(h: seq<byte>, before: seq<byte>, after: seq<byte>, k: nat, n: nat, run: seq<byte>)
    requires 1 <= k <= |h| && n <= k && run == h[|h| - k..|h| - k + n] && after == before + run
    ensures h + after == Copy(h + before, k + |before|, n)
  {
    var x := h + before;
    CopyShort(x, k + |before|, n);
    assert x[|h| - k..|h| - k + n] == run;
  }

  lemma WindowPiece(w: seq<byte>, next: nat, have: nat, k: nat, n: nat, h: seq<byte>)
    requires Keeps(w, next, have, h) && 1 <= k <= have && n <= k && (k <= next || n <= k - next)
    ensures 0 <= Place(next, k) && Place(next, k) + n <= WSIZE
    ensures w[Place(next, k)..Place(next, k) + n] == h[|h| - k..|h| - k + n]
  {
    var from := Place(next, k);
    if n != 0 {
      assert 0 <= Place(next, k - (n - 1)) < WSIZE;
      var a, b := w[from..from + n], h[|h| - k..|h| - k + n];
      forall i | 0 <= i < n ensures a[i] == b[i] {
        assert Place(next, k - i) == from + i;
      }
    } else {
      assert 0 <= Place(next, k) < WSIZE;
    }
  }
}
