/**
  deflate.c: the hash table of three-byte strings and its chains.

  Positions in the arrays are relative to the window; the proof speaks about absolute positions in the
  input, `base` being that of window index 0.  `ins` holds the positions that were entered.
*/
module HashChains {
  import opened Bits
  import opened Hash

  /** Window size and hash size as powers of two, the tuning values of a compression level, and whether the strategy
      uses the hash table at all. */
  datatype Conf = Conf(wbits: nat, hashBits: nat, good: nat, maxLazy: nat, nice: nat, maxChain: nat, useHash: bool)

  predicate ValidConf(f: Conf)
  {
    9 <= f.wbits <= 15 && 8 <= f.hashBits <= 16 && f.maxLazy <= 258 && f.nice <= 258 && 1 <= f.maxChain
  }

  const MIN_MATCH: nat := 3
  const MAX_MATCH: nat := 258
  const MIN_LOOKAHEAD: nat := 262

  function WSize(f: Conf): (w: nat) { Pow2(f.wbits) }

  lemma WSizes(f: Conf)
    requires ValidConf(f)
    ensures 512 <= WSize(f) <= 32768
  {
    Pow2Mono(9, f.wbits);
    Pow2Mono(f.wbits, 15);
    Pow2Values();
    assert Pow2(9) == 2 * Pow2(8);
  }

  /** The farthest distance a match may have. */
  function MaxDist(f: Conf): (d: int) { WSize(f) - MIN_LOOKAHEAD }

  function HashAt(n: nat, data: seq<byte>, p: nat): (h: nat)
    requires p + 2 < |data|
    ensures h < Pow2(n)
  {
    Hash3(n, data[p], data[p + 1], data[p + 2])
  }

  // ------------------------------------------------------------------ the invariant

  /** Every entered position lies after window index 0 and before `bound`, with its three bytes present. */
  ghost predicate Entered(data: seq<byte>, base: nat, ins: set<nat>, bound: nat)
  {
    forall p :: p in ins ==> base < p < bound && p + 2 < |data|
  }

  /** No entered position strictly between `from` and `to` has the hash `h`. */
  ghost predicate Skips(n: nat, data: seq<byte>, ins: set<nat>, from: nat, to: nat, h: nat)
  {
    forall r :: r in ins && from < r < to && r + 2 < |data| ==> HashAt(n, data, r) != h
  }

  /** A chain starts at the newest entered position of the right hash, if there is one. */
  ghost predicate HeadOk(n: nat, data: seq<byte>, base: nat, ins: set<nat>, h: nat, q: nat)
  {
    (q == 0 || (base + q in ins && base + q + 2 < |data| && HashAt(n, data, base + q) == h)) &&
    Skips(n, data, ins, base + q, |data|, h)
  }

  /** The link of `p` leads to the next older entered position of the same hash, to nothing, or out of reach. */
  ghost predicate LinkOk(n: nat, w: nat, data: seq<byte>, base: nat, ins: set<nat>, bound: nat, p: nat, q: nat)
  {
    base + q < p && p + 2 < |data| &&
    (q == 0 || base + q + w < bound ||
     (base + q in ins && base + q + 2 < |data| && HashAt(n, data, base + q) == HashAt(n, data, p))) &&
    Skips(n, data, ins, base + q, p, HashAt(n, data, p))
  }

  ghost predicate Chains(n: nat, w: nat, head: seq<nat>, prev: seq<nat>, data: seq<byte>, base: nat, ins: set<nat>,
                         bound: nat)
  {
    |head| == Pow2(n) && |prev| == w && w >= 1 && Entered(data, base, ins, bound) &&
    (forall h :: 0 <= h < |head| ==> HeadOk(n, data, base, ins, h, head[h])) &&
    forall p :: p in ins && p + w >= bound ==>
      base <= p && LinkOk(n, w, data, base, ins, bound, p, prev[(p - base) % w])
  }

  lemma ModDiffers(a: nat, d: nat, w: nat)
    requires 0 < d < w
    ensures a % w != (a + d) % w
  {
    var k, m := a / w, (a + d) / w;
    if a % w == (a + d) % w {
      assert a == w * k + a % w && a + d == w * m + (a + d) % w;
      assert d == w * (m - k);
      MulAtLeast(w, m - k);
    }
  }

  lemma ModShift(a: nat, w: nat)
    requires w > 0 && a >= w
    ensures (a - w) % w == a % w
  {
    var k := a / w;
    assert a == w * k + a % w;
    assert w * (k - 1) == w * k - w;
    DivModUnique(a - w, w, k - 1, a % w);
  }

  /** More data, or a later bound, changes nothing. */
  lemma ChainsGrow(n: nat, w: nat, head: seq<nat>, prev: seq<nat>, data: seq<byte>, more: seq<byte>, base: nat,
                   ins: set<nat>, bound: nat, bound': nat)
    requires Chains(n, w, head, prev, data, base, ins, bound) && bound <= bound'
    ensures Chains(n, w, head, prev, data + more, base, ins, bound')
  {
    hide Hash3;
    forall p: nat | p + 2 < |data| ensures HashAt(n, data + more, p) == HashAt(n, data, p) { }
    forall p | p in ins && p + w >= bound'
      ensures base <= p && LinkOk(n, w, data + more, base, ins, bound', p, prev[(p - base) % w]) {
      assert LinkOk(n, w, data, base, ins, bound, p, prev[(p - base) % w]);
    }
    forall h | 0 <= h < |head| ensures HeadOk(n, data + more, base, ins, h, head[h]) {
      assert HeadOk(n, data, base, ins, h, head[h]);
    }
  }

  lemma ChainsBound(n: nat, w: nat, head: seq<nat>, prev: seq<nat>, data: seq<byte>, base: nat, ins: set<nat>,
                    bound: nat, bound': nat)
    requires Chains(n, w, head, prev, data, base, ins, bound) && bound <= bound'
    ensures Chains(n, w, head, prev, data, base, ins, bound')
  {
    hide Chains;
    ChainsGrow(n, w, head, prev, data, [], base, ins, bound, bound');
    assert data + [] == data;
  }

  // ------------------------------------------------------------------ INSERT_STRING

  ghost function WithString(ins: set<nat>, base: nat, p: nat): (r: set<nat>)
  {
    if p == base then ins else ins + {p}
  }

  /** The `n` positions from `p` on entered one after another; the string at window index 0 cannot be. */
  ghost function WithStrings(ins: set<nat>, base: nat, p: nat, n: nat): (r: set<nat>)
    decreases n
  {
    if n == 0 then ins else WithString(WithStrings(ins, base, p, n - 1), base, p + n - 1)
  }

  lemma WithStringsStep(ins: set<nat>, base: nat, p: nat, n: nat)
    ensures WithStrings(ins, base, p, 0) == ins
    ensures WithString(WithStrings(ins, base, p, n), base, p + n) == WithStrings(ins, base, p, n + 1)
  {
  }

  lemma {:induction false} InStrings(ins: set<nat>, base: nat, p: nat, n: nat, q: nat)
    requires base <= p
    ensures q in WithStrings(ins, base, p, n) <==> q in ins || (p <= q < p + n && q != base)
    decreases n
  {
    if n > 0 { InStrings(ins, base, p, n - 1, q); }
  }

  lemma InsertKeeps(n: nat, w: nat, head: seq<nat>, prev: seq<nat>, data: seq<byte>, base: nat, ins: set<nat>, p: nat)
    requires Chains(n, w, head, prev, data, base, ins, p) && base <= p && p + 2 < |data|
    ensures var h := HashAt(n, data, p);
            h < |head| && 0 <= (p - base) % w < |prev| &&
            Chains(n, w, head[h := p - base], prev[(p - base) % w := head[h]], data, base, WithString(ins, base, p),
                   p + 1) &&
            HeadOk(n, data, base, ins, h, head[h])
  {
    hide HashAt;
    var h := HashAt(n, data, p);
    var i := (p - base) % w;
    var ins' := WithString(ins, base, p);
    var head', prev' := head[h := p - base], prev[i := head[h]];
    assert HeadOk(n, data, base, ins, h, head[h]);
    forall k | 0 <= k < |head'| ensures HeadOk(n, data, base, ins', k, head'[k]) {
      assert HeadOk(n, data, base, ins, k, head[k]);
    }
    forall r | r in ins' && r + w >= p + 1
      ensures base <= r && LinkOk(n, w, data, base, ins', p + 1, r, prev'[(r - base) % w]) {
      if r == p {
        assert LinkOk(n, w, data, base, ins', p + 1, r, head[h]);
      } else {
        assert base <= r < p;
        ModDiffers(r - base, p - r, w);
        assert r - base + (p - r) == p - base;
        assert LinkOk(n, w, data, base, ins, p, r, prev[(r - base) % w]);
      }
    }
  }

  /** INSERT_STRING: enters the string at window index `str`, whose third byte is `c`. */
  method InsertString(f: Conf, head: array<nat>, prev: array<nat>, str: nat, insH: nat, c: byte, ghost data: seq<byte>,
                      ghost base: nat, ghost ins: set<nat>)
    returns (h: nat, hashHead: nat)
    requires head != prev && Chains(f.hashBits, WSize(f), head[..], prev[..], data, base, ins, base + str) &&
             base + str + 2 < |data| && c == data[base + str + 2]
    requires Primed(f.hashBits, insH, data[base + str], data[base + str + 1])
    modifies head, prev
    ensures Chains(f.hashBits, WSize(f), head[..], prev[..], data, base, WithString(ins, base, base + str),
                   base + str + 1)
    ensures h == HashAt(f.hashBits, data, base + str) &&
            Primed(f.hashBits, h, data[base + str + 1], data[base + str + 2])
    ensures HeadOk(f.hashBits, data, base, ins, h, hashHead)
  {
    hide Chains, Primed, Hash3, UpdateHash, HeadOk, Pow2;
    ghost var hs, ps := head[..], prev[..];
    PrimedNext(f.hashBits, insH, data[base + str], data[base + str + 1], c);
    InsertKeeps(f.hashBits, WSize(f), hs, ps, data, base, ins, base + str);
    ChainSizes(f.hashBits, WSize(f), hs, ps, data, base, ins, base + str);
    h := UpdateHash(f.hashBits, insH, c);
    hashHead := head[h];
    prev[str % WSize(f)] := hashHead;
    head[h] := str;
    assert head[..] == hs[h := str] && prev[..] == ps[str % WSize(f) := hashHead];
  }

  lemma ChainSizes(n: nat, w: nat, head: seq<nat>, prev: seq<nat>, data: seq<byte>, base: nat, ins: set<nat>,
                   bound: nat)
    requires Chains(n, w, head, prev, data, base, ins, bound)
    ensures |head| == Pow2(n) && |prev| == w && w >= 1
  {
  }

  // ------------------------------------------------------------------ slide_hash

  function Slid(m: nat, w: nat): (r: nat) { if m >= w then m - w else 0 }

  function SlidAll(s: seq<nat>, w: nat): (r: seq<nat>)
    ensures |r| == |s| && forall i :: 0 <= i < |s| ==> r[i] == Slid(s[i], w)
  {
    seq(|s|, i requires 0 <= i < |s| => Slid(s[i], w))
  }

  ghost function Above(ins: set<nat>, base: nat): (r: set<nat>) { set p | p in ins && p > base }

  /** Sliding keeps the chains: the same absolute positions, less those that leave the window. */
  lemma SlideKeeps(n: nat, w: nat, head: seq<nat>, prev: seq<nat>, data: seq<byte>, base: nat, ins: set<nat>,
                   bound: nat)
    requires Chains(n, w, head, prev, data, base, ins, bound)
    ensures Chains(n, w, SlidAll(head, w), SlidAll(prev, w), data, base + w, Above(ins, base + w), bound)
  {
    hide HashAt;
    var base', ins' := base + w, Above(ins, base + w);
    var head', prev' := SlidAll(head, w), SlidAll(prev, w);
    forall h | 0 <= h < |head'| ensures HeadOk(n, data, base', ins', h, head'[h]) {
      assert HeadOk(n, data, base, ins, h, head[h]);
    }
    forall p | p in ins' && p + w >= bound
      ensures base' <= p && LinkOk(n, w, data, base', ins', bound, p, prev'[(p - base') % w]) {
      ModShift(p - base, w);
      assert p - base - w == p - base';
      assert LinkOk(n, w, data, base, ins, bound, p, prev[(p - base) % w]);
    }
  }

  method SlideArray(a: array<nat>, w: nat)
    modifies a
    ensures a[..] == SlidAll(old(a[..]), w)
  {
    var n := a.Length;
    while n > 0
      invariant 0 <= n <= a.Length
      invariant forall i :: 0 <= i < n ==> a[i] == old(a[i])
      invariant forall i :: n <= i < a.Length ==> a[i] == Slid(old(a[i]), w)
    {
      n := n - 1;
      a[n] := if a[n] >= w then a[n] - w else 0;
    }
  }

  /** slide_hash. */
  method SlideHash(f: Conf, head: array<nat>, prev: array<nat>, ghost data: seq<byte>, ghost base: nat,
                   ghost ins: set<nat>, ghost bound: nat)
    requires head != prev && Chains(f.hashBits, WSize(f), head[..], prev[..], data, base, ins, bound)
    modifies head, prev
    ensures Chains(f.hashBits, WSize(f), head[..], prev[..], data, base + WSize(f), Above(ins, base + WSize(f)), bound)
  {
    hide Chains, Slid, Pow2;
    SlideKeeps(f.hashBits, WSize(f), head[..], prev[..], data, base, ins, bound);
    SlideArray(head, WSize(f));
    SlideArray(prev, WSize(f));
  }

  /** CLEAR_HASH. */
  method ClearHash(f: Conf, head: array<nat>, prev: array<nat>, ghost data: seq<byte>, ghost base: nat)
    requires head != prev && head.Length == Pow2(f.hashBits) && prev.Length == WSize(f)
    modifies head
    ensures Chains(f.hashBits, WSize(f), head[..], prev[..], data, base, {}, base)
  {
    var i := 0;
    while i < head.Length
      invariant 0 <= i <= head.Length && forall j :: 0 <= j < i ==> head[j] == 0
    {
      head[i] := 0;
      i := i + 1;
    }
  }
}
