/**
  inflate.c and inffast.c: copying the bytes of a match from the window or from the output itself.
*/
module CopyBytes {
  import opened Bits
  import opened Format
  import opened Window

  lemma {:induction false} CopySnoc(h: seq<byte>, n: nat, d: nat)
    requires 1 <= d <= |h|
    ensures CopyFrom(h, n + 1, d) == CopyFrom(h, n, d) + [CopyFrom(h, n, d)[|h| + n - d]]
    decreases n
  {
    var one := h + [h[|h| - d]];
    CopyStep(h, n, d);
    if n == 0 {
      assert CopyFrom(one, 0, d) == one;
      assert CopyFrom(h, 0, d) == h;
    } else {
      CopyStep(h, n - 1, d);
      hide CopyFrom;
      CopySnoc(one, n - 1, d);
    }
  }

  lemma CopyStep(h: seq<byte>, n: nat, d: nat)
    requires 1 <= d <= |h|
    ensures CopyFrom(h, n + 1, d) == CopyFrom(h + [h[|h| - d]], n, d)
  {
  }

  lemma {:induction false} CopyTwice(h: seq<byte>, n: nat, m: nat, d: nat)
    requires 1 <= d <= |h|
    ensures CopyFrom(CopyFrom(h, n, d), m, d) == CopyFrom(h, n + m, d)
    decreases n
  {
    if n > 0 { CopyTwice(h + [h[|h| - d]], n - 1, m, d); }
  }

  /** A copy no longer than its distance does not overlap itself. */
  lemma {:induction false} CopyShort(h: seq<byte>, n: nat, d: nat)
    requires 1 <= d <= |h| && n <= d
    ensures CopyFrom(h, n, d) == h + h[|h| - d..|h| - d + n]
    decreases n
  {
    if n > 0 {
      CopyShort(h, n - 1, d);
      CopySnoc(h, n - 1, d);
      var i := |h| - d + n - 1;
      assert h[|h| - d..i + 1] == h[|h| - d..i] + [h[i]];
      assert CopyFrom(h, n - 1, d)[i] == h[i];
    }
  }

  /** Copies `n` bytes from `offset` back within the output, one by one. */
  method CopyBack(out: array<byte>, put: nat, offset: nat, n: nat, ghost base: seq<byte>)
    requires put + n <= out.Length && 1 <= offset <= put
    modifies out
    ensures base + out[..put + n] == CopyFrom(base + old(out[..put]), n, offset)
    ensures forall i :: put + n <= i < out.Length ==> out[i] == old(out[i])
  {
    hide CopyFrom;
    ghost var h := base + out[..put];
    var k: nat := 0;
    CopyNone(h, offset);
    while k < n
      invariant k <= n && base + out[..put + k] == CopyFrom(h, k, offset)
      invariant forall i :: put + n <= i < out.Length ==> out[i] == old(out[i])
    {
      CopySnoc(h, k, offset);
      assert out[put + k - offset] == (base + out[..put + k])[|h| + k - offset];
      ghost var was := out[..put + k];
      out[put + k] := out[put + k - offset];
      assert out[..put + (k + 1)] == was + [out[put + k]];
      SeqAssoc(base, was, [out[put + k]]);
      k := k + 1;
    }
  }

  lemma CopyNone(h: seq<byte>, d: nat)
    requires 1 <= d <= |h|
    ensures CopyFrom(h, 0, d) == h
  {
  }

  /** `out` is `was` with `k` bytes of `w` from `from` on moved to `put`. */
  ghost predicate Moved(out: seq<byte>, was: seq<byte>, put: nat, w: seq<byte>, from: nat, k: nat)
  {
    |out| == |was| && put + k <= |was| && from + k <= |w| && out[..put + k] == was[..put] + w[from..from + k] &&
    out[put + k..] == was[put + k..]
  }

  /** `*put++ = *from++` out of the window. */
  method MoveByte(out: array<byte>, window: array<byte>, ghost was: seq<byte>, put: nat, from: nat, k: nat)
    requires out != window && Moved(out[..], was, put, window[..], from, k) && put + k < out.Length &&
             from + k < window.Length
    modifies out
    ensures Moved(out[..], was, put, window[..], from, k + 1)
  {
    ghost var o := out[..];
    out[put + k] := window[from + k];
    assert out[..][..put + (k + 1)] == o[..put + k] + [window[from + k]];
    assert window[..][from..from + (k + 1)] == window[..][from..from + k] + [window[from + k]];
    SeqAssoc(was[..put], window[..][from..from + k], [window[from + k]]);
    assert out[..][put + (k + 1)..] == o[put + k..][1..];
    assert was[put + k..][1..] == was[put + (k + 1)..];
  }

  /** Bytes moved from the window are those of the match `d` bytes before the output of this call. */
  lemma MovedCopies(out: seq<byte>, was: seq<byte>, put: nat, w: seq<byte>, from: nat, n: nat, d: nat, run: nat,
                    base: seq<byte>)
    requires n <= run <= d <= |base| && 1 <= d && from + run <= |w| &&
             w[from..from + run] == base[|base| - d..|base| - d + run]
    requires Moved(out, was, put, w, from, n)
    ensures put + n <= |out| && put <= |was| && 1 <= d + put <= |base| + put &&
            base + out[..put + n] == CopyFrom(base + was[..put], n, d + put)
  {
    hide CopyFrom, Moved;
    MovedParts(out, was, put, w, from, n);
    CopyIs(w, base, was[..put], w[from..from + n], put, from, d, n, run);
  }

  lemma CopyIs(w: seq<byte>, base: seq<byte>, o: seq<byte>, x: seq<byte>, put: nat, from: nat, d: nat, n: nat, run: nat)
    requires |o| == put && from + n <= |w| && x == w[from..from + n]
    requires n <= run <= d <= |base| && 1 <= d && from + run <= |w| &&
             w[from..from + run] == base[|base| - d..|base| - d + run]
    ensures 1 <= d + put <= |base + o| && base + (o + x) == CopyFrom(base + o, n, d + put)
  {
    hide CopyFrom;
    ShortRun(w, base, o, from, d, n, run);
    CopyShort(base + o, n, d + |o|);
    SeqAssoc(base, o, w[from..from + n]);
  }

  lemma MovedParts(out: seq<byte>, was: seq<byte>, put: nat, w: seq<byte>, from: nat, n: nat)
    requires Moved(out, was, put, w, from, n)
    ensures |out| == |was| && put + n <= |was| && from + n <= |w| && out[..put + n] == was[..put] + w[from..from + n]
    ensures forall i :: put + n <= i < |out| ==> out[i] == was[i]
  {
    forall i | put + n <= i < |out| ensures out[i] == was[i] {
      assert out[put + n..][i - (put + n)] == was[put + n..][i - (put + n)];
    }
  }

  /** Copies `n` bytes of a match that start in the window, `d` bytes before the output of this call. */
  method CopyWindow(out: array<byte>, put: nat, window: array<byte>, from: nat, n: nat, ghost d: nat, ghost whave: nat,
                    ghost wnext: nat, ghost base: seq<byte>)
    requires out != window && put + n <= out.Length && Holds(window[..], whave, wnext, base) && 1 <= d <= whave
    requires from == RunStart(window.Length, wnext, d) && n <= RunLength(wnext, d)
    modifies out
    ensures 1 <= d + put <= |base| + put && base + out[..put + n] == CopyFrom(base + old(out[..put]), n, d + put)
    ensures forall i :: put + n <= i < out.Length ==> out[i] == old(out[i])
  {
    hide CopyFrom, Holds, Moved;
    WindowRun(window[..], whave, wnext, base, d);
    ghost var was := out[..];
    var k := 0;
    MovedNone(was, put, window[..], from);
    while k < n
      invariant 0 <= k <= n && Moved(out[..], was, put, window[..], from, k)
    {
      MoveByte(out, window, was, put, from, k);
      k := k + 1;
    }
    MovedCopies(out[..], was, put, window[..], from, n, d, RunLength(wnext, d), base);
    MovedParts(out[..], was, put, window[..], from, n);
    assert out[..][..put + n] == out[..put + n] && was[..put] == old(out[..put]);
  }

  lemma MovedNone(was: seq<byte>, put: nat, w: seq<byte>, from: nat)
    requires put <= |was| && from <= |w|
    ensures Moved(was, was, put, w, from, 0)
  {
  }

  /** The same, three bytes at a time, as inflate_fast moves the last piece. */
  method CopyWindowFast(out: array<byte>, put: nat, window: array<byte>, from: nat, n: nat, ghost d: nat,
                        ghost whave: nat, ghost wnext: nat, ghost base: seq<byte>)
    requires out != window && put + n <= out.Length && Holds(window[..], whave, wnext, base) && 1 <= d <= whave
    requires from == RunStart(window.Length, wnext, d) && n <= RunLength(wnext, d)
    modifies out
    ensures 1 <= d + put <= |base| + put && base + out[..put + n] == CopyFrom(base + old(out[..put]), n, d + put)
  {
    hide CopyFrom, Holds, Moved;
    WindowRun(window[..], whave, wnext, base, d);
    ghost var was := out[..];
    MoveFast(out, put, window, from, n);
    MovedCopies(out[..], was, put, window[..], from, n, d, RunLength(wnext, d), base);
    assert out[..][..put + n] == out[..put + n] && was[..put] == old(out[..put]);
  }

  /** Three bytes at a time, and what is left. */
  method MoveFast(out: array<byte>, put: nat, window: array<byte>, from: nat, n: nat)
    requires out != window && put + n <= out.Length && from + n <= window.Length
    modifies out
    ensures Moved(out[..], old(out[..]), put, window[..], from, n)
  {
    hide Moved;
    ghost var was := out[..];
    var len := n;
    MovedNone(was, put, window[..], from);
    while len > 2
      invariant 0 <= len <= n && Moved(out[..], was, put, window[..], from, n - len)
    {
      MoveByte(out, window, was, put, from, n - len);
      MoveByte(out, window, was, put, from, n - len + 1);
      MoveByte(out, window, was, put, from, n - len + 2);
      len := len - 3;
    }
    if len != 0 {
      MoveByte(out, window, was, put, from, n - len);
      if len > 1 { MoveByte(out, window, was, put, from, n - len + 1); }
    }
  }

  /** The first `n` bytes of the run are the bytes of the history from `d + put` back. */
  lemma ShortRun(w: seq<byte>, base: seq<byte>, o: seq<byte>, from: nat, d: nat, n: nat, run: nat)
    requires n <= run <= d <= |base| && from + run <= |w| && w[from..from + run] == base[|base| - d..|base| - d + run]
    ensures var h := base + o; w[from..from + n] == h[|h| - (d + |o|)..|h| - (d + |o|) + n]
  {
    assert w[from..from + n] == w[from..from + run][..n];
    assert base[|base| - d..|base| - d + n] == base[|base| - d..|base| - d + run][..n];
  }

  /** One byte of an overlapping copy. */
  method CopyOne(out: array<byte>, put: nat, offset: nat, ghost h: seq<byte>, ghost k: nat, ghost base: seq<byte>)
    requires put < out.Length && 1 <= offset <= put && offset <= |h| && |h| + k == |base| + put &&
             base + out[..put] == CopyFrom(h, k, offset)
    modifies out
    ensures base + out[..put + 1] == CopyFrom(h, k + 1, offset)
  {
    hide CopyFrom;
    CopySnoc(h, k, offset);
    assert out[put - offset] == (base + out[..put])[|h| + k - offset];
    ghost var was := out[..put];
    out[put] := out[put - offset];
    assert out[..put + 1] == was + [out[put]];
    SeqAssoc(base, was, [out[put]]);
  }

  /** The copy loop of inflate_fast, three bytes at a time. */
  method CopyBackFast(out: array<byte>, put0: nat, offset: nat, len0: nat, ghost base: seq<byte>)
    requires put0 + len0 <= out.Length && 1 <= offset <= put0
    modifies out
    ensures base + out[..put0 + len0] == CopyFrom(base + old(out[..put0]), len0, offset)
  {
    hide CopyFrom;
    ghost var h := base + out[..put0];
    CopyNone(h, offset);
    var len, put := len0, put0;
    while len > 2
      invariant 0 <= len <= len0 && put == put0 + (len0 - len)
      invariant base + out[..put] == CopyFrom(h, len0 - len, offset)
    {
      CopyOne(out, put, offset, h, len0 - len, base);
      CopyOne(out, put + 1, offset, h, len0 - len + 1, base);
      CopyOne(out, put + 2, offset, h, len0 - len + 2, base);
      put := put + 3;
      len := len - 3;
    }
    if len != 0 {
      CopyOne(out, put, offset, h, len0 - len, base);
      if len > 1 { CopyOne(out, put + 1, offset, h, len0 - len + 1, base); }
    }
  }

  /** Copies a match of inflate_fast that starts in the window: up to two pieces of the window, the rest from the
      output. */
  method CopyFast(out: array<byte>, put0: nat, window: array<byte>, wnext: nat, dist: nat, len0: nat, ghost whave: nat,
                  ghost base: seq<byte>)
    requires out != window && put0 + len0 <= out.Length && Holds(window[..], whave, wnext, base) && put0 < dist &&
             dist - put0 <= whave && 1 <= len0
    modifies out
    ensures 1 <= dist <= |base| + put0 && base + out[..put0 + len0] == CopyFrom(base + old(out[..put0]), len0, dist)
  {
    hide CopyFrom, Holds;
    var wsize, op := window.Length, dist - put0;
    WindowRun(window[..], whave, wnext, base, op);
    if wnext == 0 || wnext >= op {
      var from := if wnext == 0 then wsize - op else wnext - op;
      CopyOnePiece(out, put0, window, from, wnext, dist, len0, whave, base);
    } else {
      CopyTwoPieces(out, put0, window, wnext, dist, len0, whave, base);
    }
  }

  /** The part of the match in the window is contiguous. */
  method CopyOnePiece(out: array<byte>, put0: nat, window: array<byte>, from: nat, ghost wnext: nat, dist: nat,
                      len0: nat, ghost whave: nat, ghost base: seq<byte>)
    requires out != window && put0 + len0 <= out.Length && Holds(window[..], whave, wnext, base) && put0 < dist &&
             dist - put0 <= whave && 1 <= len0
    requires from == RunStart(window.Length, wnext, dist - put0) && RunLength(wnext, dist - put0) == dist - put0 &&
             dist - put0 <= |base|
    modifies out
    ensures 1 <= dist <= |base| + put0 && base + out[..put0 + len0] == CopyFrom(base + old(out[..put0]), len0, dist)
  {
    hide CopyFrom, Holds, RunStart, RunLength;
    var op := dist - put0;
    ghost var h := base + out[..put0];
    if op >= len0 {
      CopyWindowFast(out, put0, window, from, len0, op, whave, wnext, base);
      return;
    }
    CopyWindow(out, put0, window, from, op, op, whave, wnext, base);
    CopyTwice(h, op, len0 - op, dist);
    CopyBackFast(out, put0 + op, dist, len0 - op, base);
  }

  /** The match wraps around the end of the window. */
  method CopyTwoPieces(out: array<byte>, put0: nat, window: array<byte>, wnext: nat, dist: nat, len0: nat,
                       ghost whave: nat, ghost base: seq<byte>)
    requires out != window && put0 + len0 <= out.Length && Holds(window[..], whave, wnext, base) && put0 < dist &&
             dist - put0 <= whave && 1 <= len0
    requires 1 <= wnext < dist - put0 <= |base|
    modifies out
    ensures 1 <= dist <= |base| + put0 && base + out[..put0 + len0] == CopyFrom(base + old(out[..put0]), len0, dist)
  {
    hide CopyFrom, Holds;
    var op := dist - put0 - wnext;
    ghost var h := base + out[..put0];
    var from := window.Length - op;
    WindowRun(window[..], whave, wnext, base, dist - put0);
    if op >= len0 {
      CopyWindowFast(out, put0, window, from, len0, dist - put0, whave, wnext, base);
      return;
    }
    CopyWindow(out, put0, window, from, op, dist - put0, whave, wnext, base);
    var len, put := len0 - op, put0 + op;
    if wnext >= len {
      CopyWindowFast(out, put, window, 0, len, wnext, whave, wnext, base);
      CopyTwice(h, op, len, dist);
      return;
    }
    CopyWindow(out, put, window, 0, wnext, wnext, whave, wnext, base);
    CopyTwice(h, op, wnext, dist);
    CopyTwice(h, op + wnext, len - wnext, dist);
    CopyBackFast(out, put + wnext, dist, len - wnext, base);
  }
}
