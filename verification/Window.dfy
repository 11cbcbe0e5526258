/**
  inflate.c: the circular window that keeps the last output for later calls.
*/
module Window {
  import opened Bits

  /** Where the byte `d` back from the end of the history is kept. */
  function Slot(size: nat, wnext: nat, d: nat): (i: int)
  {
    if d <= wnext then wnext - d else wnext + size - d
  }

  /** `w` keeps the last `whave` bytes of the history `h` in circular order, ending before `wnext`. */
  ghost predicate Holds(w: seq<byte>, whave: nat, wnext: nat, h: seq<byte>)
  {
    |w| >= 1 && wnext < |w| && whave == (if |h| < |w| then |h| else |w|) && (whave < |w| ==> wnext == whave) &&
    forall d :: 1 <= d <= whave ==> w[Slot(|w|, wnext, d)] == h[|h| - d]
  }

  /** `s` with the bytes `x` written at position `at`. */
  function Overwrite(s: seq<byte>, at: nat, x: seq<byte>): (r: seq<byte>)
    requires at + |x| <= |s|
    ensures |r| == |s|
  {
    s[..at] + x + s[at + |x|..]
  }

  lemma OverwriteNone(s: seq<byte>, at: nat, x: seq<byte>, from: nat)
    requires at <= |s| && from <= |x|
    ensures Overwrite(s, at, x[from..from + 0]) == s
  {
  }

  lemma OverwriteStep(s: seq<byte>, at: nat, x: seq<byte>, from: nat, k: nat)
    requires at + k < |s| && from + k < |x|
    ensures Overwrite(s, at, x[from..from + k])[at + k := x[from + k]] == Overwrite(s, at, x[from..from + (k + 1)])
  {
    assert x[from..from + (k + 1)] == x[from..from + k] + [x[from + k]];
  }

  /** zmemcpy between two different buffers. */
  method MemCopy(dst: array<byte>, at: nat, src: array<byte>, from: nat, n: nat)
    requires dst != src && at + n <= dst.Length && from + n <= src.Length
    modifies dst
    ensures dst[..] == Overwrite(old(dst[..]), at, src[..][from..from + n])
  {
    hide Overwrite;
    var k := 0;
    OverwriteNone(dst[..], at, src[..], from);
    while k < n
      invariant 0 <= k <= n && dst[..] == Overwrite(old(dst[..]), at, src[..][from..from + k])
    {
      ghost var d := dst[..];
      OverwriteStep(old(dst[..]), at, src[..], from, k);
      dst[at + k] := src[from + k];
      assert dst[..] == d[at + k := src[..][from + k]];
      k := k + 1;
    }
  }

  lemma HoldsFull(w: seq<byte>, h: seq<byte>)
    requires |w| >= 1 && |h| >= |w| && forall i :: 0 <= i < |w| ==> w[i] == h[|h| - |w| + i]
    ensures Holds(w, |w|, 0, h)
  {
    forall d | 1 <= d <= |w| ensures w[Slot(|w|, 0, d)] == h[|h| - d] { }
  }

  /** The bytes `x` fit between `wnext` and the end of the window. */
  lemma HoldsStraight(w: seq<byte>, whave: nat, wnext: nat, h: seq<byte>, x: seq<byte>)
    requires Holds(w, whave, wnext, h) && |x| <= |w| - wnext
    ensures Holds(Overwrite(w, wnext, x), if whave < |w| then whave + |x| else whave,
                  if wnext + |x| == |w| then 0 else wnext + |x|, h + x)
  {
    var n, k, y, w' := |w|, |x|, h + x, Overwrite(w, wnext, x);
    var whave', wnext' := if whave < n then whave + k else whave, if wnext + k == n then 0 else wnext + k;
    forall d | 1 <= d <= whave' ensures w'[Slot(n, wnext', d)] == y[|y| - d] {
      StraightAt(n, wnext, k, whave, d);
      if d > k { assert w[Slot(n, wnext, d - k)] == h[|h| - (d - k)]; }
    }
  }

  lemma StraightAt(n: nat, wnext: nat, k: nat, whave: nat, d: nat)
    requires wnext < n && k <= n - wnext && 1 <= d <= n && (whave < n ==> wnext == whave) && whave <= n
    requires whave < n ==> d <= whave + k
    ensures var wnext' := if wnext + k == n then 0 else wnext + k;
            var s := Slot(n, wnext', d);
            0 <= s < n && (d <= k ==> s == wnext + (k - d)) &&
            (d > k ==> d - k <= whave && s == Slot(n, wnext, d - k) && !(wnext <= s < wnext + k))
  {
  }

  /** The bytes `x` run past the end of the window and continue at its start. */
  lemma HoldsWrapped(w: seq<byte>, whave: nat, wnext: nat, h: seq<byte>, x: seq<byte>)
    requires Holds(w, whave, wnext, h) && |w| - wnext < |x| < |w|
    ensures var t := |w| - wnext; Holds(Overwrite(Overwrite(w, wnext, x[..t]), 0, x[t..]), |w|, |x| - t, h + x)
  {
    var n, k, y, t := |w|, |x|, h + x, |w| - wnext;
    var m := Overwrite(w, wnext, x[..t]);
    var w' := Overwrite(m, 0, x[t..]);
    var wnext' := k - t;
    forall d | 1 <= d <= n ensures w'[Slot(n, wnext', d)] == y[|y| - d] {
      if d > k { assert w[Slot(n, wnext, d - k)] == h[|h| - (d - k)]; }
    }
  }

  lemma SplitCopy(o: seq<byte>, a: nat, b: nat, c: nat)
    requires a <= b <= c <= |o|
    ensures o[a..c][..b - a] == o[a..b] && o[a..c][b - a..] == o[b..c]
  {
  }

  lemma HoldsAll(w: seq<byte>, o: seq<byte>, end: nat, copy: nat, h: seq<byte>)
    requires 1 <= |w| <= copy <= end <= |o|
    ensures Holds(Overwrite(w, 0, o[end - |w|..end]), |w|, 0, h + o[end - copy..end])
  {
    HoldsFull(Overwrite(w, 0, o[end - |w|..end]), h + o[end - copy..end]);
  }

  lemma WrapBounds(w: seq<byte>, whave: nat, wnext: nat, h: seq<byte>, x: seq<byte>)
    requires Holds(w, whave, wnext, h)
    ensures |w| >= 1 && wnext < |w| && whave <= |w| && (whave < |w| ==> wnext == whave == |h|)
  {
  }

  /** updatewindow, for a window in use: appends the `copy` bytes before `end` to the history it keeps. */
  method UpdateWindow(window: array<byte>, wnext0: nat, whave0: nat, out: array<byte>, end: nat, copy0: nat,
                      ghost h: seq<byte>)
    returns (wnext: nat, whave: nat)
    requires window != out && copy0 <= end <= out.Length && Holds(window[..], whave0, wnext0, h)
    modifies window
    ensures Holds(window[..], whave, wnext, h + out[end - copy0..end])
  {
    hide Holds, Overwrite;
    wnext, whave := wnext0, whave0;
    var wsize, copy := window.Length, copy0;
    ghost var w, o := window[..], out[..];
    ghost var x := o[end - copy0..end];
    assert out[end - copy0..end] == x;
    WrapBounds(w, whave, wnext, h, x);
    if copy >= wsize {
      MemCopy(window, 0, out, end - wsize, wsize);
      wnext, whave := 0, wsize;
      HoldsAll(w, o, end, copy0, h);
    } else {
      var dist := wsize - wnext;
      if dist > copy { dist := copy; }
      MemCopy(window, wnext, out, end - copy, dist);
      copy := copy - dist;
      if copy > 0 {
        MemCopy(window, 0, out, end - copy, copy);
        HoldsWrapped(w, whave, wnext, h, x);
        SplitCopy(o, end - copy0, end - copy, end);
        wnext, whave := copy, wsize;
      } else {
        HoldsStraight(w, whave, wnext, h, x);
        wnext := wnext + dist;
        if wnext == wsize { wnext := 0; }
        if whave < wsize { whave := whave + dist; }
      }
    }
  }

  /** The bytes of a match `d` back that lie in the window: where they start and how many are contiguous. */
  function RunStart(size: nat, wnext: nat, d: nat): (from: int) { Slot(size, wnext, d) }

  function RunLength(wnext: nat, d: nat): (n: nat) { if d > wnext then d - wnext else d }

  lemma WindowRun(w: seq<byte>, whave: nat, wnext: nat, h: seq<byte>, d: nat)
    requires Holds(w, whave, wnext, h) && 1 <= d <= whave
    ensures 0 <= RunStart(|w|, wnext, d) && RunStart(|w|, wnext, d) + RunLength(wnext, d) <= |w|
    ensures 1 <= RunLength(wnext, d) <= d <= |h|
    ensures var r, n := RunStart(|w|, wnext, d), RunLength(wnext, d); w[r..r + n] == h[|h| - d..|h| - d + n]
  {
    var r, n := RunStart(|w|, wnext, d), RunLength(wnext, d);
    forall j | r <= j < r + n ensures w[j] == h[|h| - d + (j - r)] {
      assert w[Slot(|w|, wnext, d - (j - r))] == h[|h| - (d - (j - r))];
    }
  }

  /** inflateGetDictionary: the bytes of the window in order. */
  method GetDictionary(window: array<byte>, wnext: nat, whave: nat, dictionary: array<byte>, ghost h: seq<byte>)
    requires window != dictionary && Holds(window[..], whave, wnext, h) && whave <= dictionary.Length
    modifies dictionary
    ensures whave <= |h| && dictionary[..whave] == h[|h| - whave..]
    ensures dictionary[whave..] == old(dictionary[whave..])
  {
    hide Holds, Overwrite;
    WrapBounds(window[..], whave, wnext, h, []);
    ghost var d0 := dictionary[..];
    Dictionary(window[..], whave, wnext, h, d0);
    if whave > 0 {
      MemCopy(dictionary, 0, window, wnext, whave - wnext);
      MemCopy(dictionary, whave - wnext, window, 0, wnext);
    }
    assert dictionary[..whave] == dictionary[..][..whave] && dictionary[whave..] == dictionary[..][whave..];
  }

  lemma Dictionary(w: seq<byte>, whave: nat, wnext: nat, h: seq<byte>, d: seq<byte>)
    requires Holds(w, whave, wnext, h) && whave <= |d|
    ensures whave <= |h| && (whave == 0 ==> h[|h| - whave..] == [])
    ensures whave > 0 ==> wnext <= whave <= |w|
    ensures whave > 0 ==> (var r := Overwrite(Overwrite(d, 0, w[wnext..whave]), whave - wnext, w[..wnext]);
                           r[..whave] == h[|h| - whave..] && r[whave..] == d[whave..])
  {
    if whave > 0 {
      var r := Overwrite(Overwrite(d, 0, w[wnext..whave]), whave - wnext, w[..wnext]);
      forall i | 0 <= i < whave ensures r[i] == h[|h| - whave + i] {
        assert w[Slot(|w|, wnext, whave - i)] == h[|h| - (whave - i)];
      }
    }
  }
}
