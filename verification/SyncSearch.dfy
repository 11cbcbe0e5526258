/**
  inflate.c, syncsearch: the search for the four bytes 00 00 FF FF that an empty stored block leaves, resumable at any
  byte.
*/
module SyncSearch {
  import opened Bits

  const PATTERN: seq<byte> := [0, 0, 0xff, 0xff]

  /** The text ends with the first `k` bytes of the pattern. */
  predicate EndsWith(h: seq<byte>, k: nat) { k <= 4 && k <= |h| && h[|h| - k..] == PATTERN[..k] }

  /** `k` is the length of the longest start of the pattern that the text ends with. */
  ghost predicate Longest(h: seq<byte>, k: nat) { EndsWith(h, k) && forall j: nat :: k < j <= 4 ==> !EndsWith(h, j) }

  /** The pattern does not end anywhere inside the text, before its end. */
  ghost predicate NotBefore(h: seq<byte>) { forall n: nat :: n < |h| ==> !EndsWith(h[..n], 4) }

  function Next(got: nat, x: byte): (n: nat)
    requires got < 4
    ensures n <= 4
  {
    if x == (if got < 2 then 0 else 0xff) then got + 1 else if x != 0 then 0 else 4 - got
  }

  lemma EndsSnoc(h: seq<byte>, x: byte, k: nat)
    requires k < 4
    ensures EndsWith(h + [x], k + 1) <==> EndsWith(h, k) && x == PATTERN[k]
  {
    var g := h + [x];
    if k <= |h| {
      assert g[|g| - (k + 1)..] == h[|h| - k..] + [x];
      assert PATTERN[..k + 1] == PATTERN[..k] + [PATTERN[k]];
    }
  }

  /** With the longest start known, the shorter ones are those the pattern itself ends with. */
  lemma Shorter(h: seq<byte>, k: nat, j: nat)
    requires EndsWith(h, k) && j <= k
    ensures EndsWith(h, j) <==> EndsWith(PATTERN[..k], j)
  {
    assert h[|h| - j..] == h[|h| - k..][k - j..];
  }

  lemma Borders(k: nat, j: nat)
    requires j <= k <= 4
    ensures EndsWith(PATTERN[..k], j) <==> j == 0 || j == k || (j == 1 && k == 2)
  {
    var p := PATTERN[..k];
    if 0 < j {
      assert p[k - j..][0] == p[k - j] && p[k - j..][j - 1] == p[k - 1];
      assert PATTERN[..j][0] == PATTERN[0] && PATTERN[..j][j - 1] == PATTERN[j - 1];
    }
    if j == 1 && k == 2 { assert p[1..] == PATTERN[..1]; }
    if j == k { assert p[0..] == p; }
  }

  lemma EndsNext(h: seq<byte>, k: nat, x: byte, j: nat)
    requires Longest(h, k) && k < 4 && j < 4
    ensures EndsWith(h + [x], j + 1) <==> (j == 0 || j == k || (j == 1 && k == 2)) && j <= k && x == PATTERN[j]
  {
    hide EndsWith;
    EndsSnoc(h, x, j);
    if j <= k {
      Shorter(h, k, j);
      Borders(k, j);
    }
  }

  /** One byte more: the new state is again the longest start. */
  lemma NextIsLongest(h: seq<byte>, k: nat, x: byte)
    requires Longest(h, k) && k < 4
    ensures Longest(h + [x], Next(k, x))
  {
    hide EndsWith;
    EndsNone(h + [x]);
    forall j: nat | Next(k, x) < j <= 4 ensures !EndsWith(h + [x], j) { EndsNext(h, k, x, j - 1); }
    if Next(k, x) > 0 { EndsNext(h, k, x, Next(k, x) - 1); }
  }

  lemma EndsNone(h: seq<byte>)
    ensures EndsWith(h, 0)
  {
  }

  lemma NoneBefore(h: seq<byte>, k: nat, x: byte)
    requires Longest(h, k) && k < 4 && NotBefore(h)
    ensures NotBefore(h + [x])
  {
    hide EndsWith;
    forall n: nat | n < |h + [x]| ensures !EndsWith((h + [x])[..n], 4) {
      if n == |h| {
        assert (h + [x])[..n] == h;
      } else {
        assert (h + [x])[..n] == h[..n];
      }
    }
  }

  /** syncsearch: `h` is the text of the calls before.  It reads up to the first end of the pattern in the whole text,
      or to the end of the buffer. */
  method Search(have: nat, buf: seq<byte>, ghost h: seq<byte>) returns (got: nat, next: nat)
    requires Longest(h, have) && NotBefore(h)
    ensures next <= |buf| && Longest(h + buf[..next], got) && NotBefore(h + buf[..next])
    ensures got == 4 || next == |buf|
    ensures got == 4 <==> exists n: nat :: n <= |h + buf| && EndsWith((h + buf)[..n], 4)
  {
    hide EndsWith, Next;
    got, next := have, 0;
    assert h + buf[..0] == h;
    LongestRange(h, have);
    while next < |buf| && got < 4
      invariant 0 <= next <= |buf| && got <= 4 && Longest(h + buf[..next], got) && NotBefore(h + buf[..next])
    {
      assert h + buf[..next + 1] == (h + buf[..next]) + [buf[next]];
      NextIsLongest(h + buf[..next], got, buf[next]);
      NoneBefore(h + buf[..next], got, buf[next]);
      got := Next(got, buf[next]);
      next := next + 1;
    }
    ghost var t := h + buf[..next];
    assert t == (h + buf)[..|t|];
    if got < 4 {
      assert t == h + buf;
      assert t[..|t|] == t;
      forall n: nat | n <= |t| ensures !EndsWith(t[..n], 4) { }
    }
  }

  lemma LongestRange(h: seq<byte>, k: nat)
    requires Longest(h, k)
    ensures k <= 4
  {
  }
}
