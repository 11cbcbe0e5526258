/**
  Canonical Huffman codes as defined in section 3.2.2 of RFC 1951.

  A code is given by its lengths: `lens[s]` bits for symbol `s`, zero meaning "not used".
  `Code` is the reference definition; `GenCodes` is the loop of trees.c that computes it.
*/
module Canonical {
  import opened Bits

  const MAX_BITS: nat := 15

  /** How many of the first `n` symbols have length `l`. */
  function Count(lens: seq<nat>, l: nat, n: nat): (c: nat)
    requires n <= |lens|
    ensures c <= n
  {
    if n == 0 then 0 else Count(lens, l, n - 1) + (if lens[n - 1] == l then 1 else 0)
  }

  function Total(lens: seq<nat>, l: nat): (c: nat) { Count(lens, l, |lens|) }

  /** One more than the largest `l`-bit value taken by codes of length at most `l`. */
  function Top(lens: seq<nat>, l: nat): (t: nat)
  {
    if l == 0 then 0 else 2 * Top(lens, l - 1) + Total(lens, l)
  }

  /** Smallest code value of length `l` (step 2 of section 3.2.2 of RFC 1951). */
  function First(lens: seq<nat>, l: nat): (f: nat)
    requires l >= 1
  {
    2 * Top(lens, l - 1)
  }

  function CodeValue(lens: seq<nat>, s: nat): (v: nat)
    requires s < |lens| && lens[s] >= 1
  {
    First(lens, lens[s]) + Count(lens, lens[s], s)
  }

  /** The code of symbol `s` in the order its bits appear in the stream. */
  function Code(lens: seq<nat>, s: nat): (c: seq<bool>)
    requires s < |lens| && lens[s] >= 1
    ensures |c| == lens[s]
  {
    MsbBits(CodeValue(lens, s), lens[s])
  }

  predicate Bounded(lens: seq<nat>, m: nat)
  {
    forall i :: 0 <= i < |lens| ==> lens[i] <= m
  }

  /** The set of lengths is not over-subscribed. */
  ghost predicate Fits(lens: seq<nat>)
  {
    forall l: nat :: Top(lens, l) <= Pow2(l)
  }

  /** The Kraft sum of the lengths is exactly one; `m` bounds the lengths. */
  ghost predicate Complete(lens: seq<nat>, m: nat)
  {
    Bounded(lens, m) && Top(lens, m) == Pow2(m)
  }

  ghost predicate IsCodeAt(lens: seq<nat>, s: nat, bits: seq<bool>)
  {
    s < |lens| && lens[s] >= 1 && Code(lens, s) <= bits
  }

  lemma {:induction false} CountMono(lens: seq<nat>, l: nat, a: nat, b: nat)
    requires a <= b <= |lens|
    ensures Count(lens, l, a) <= Count(lens, l, b)
    ensures (exists i :: a <= i < b && lens[i] == l) ==> Count(lens, l, a) < Count(lens, l, b)
    decreases b
  {
    if a < b { CountMono(lens, l, a, b - 1); }
  }

  lemma {:induction false} CountZero(lens: seq<nat>, l: nat, n: nat)
    requires n <= |lens|
    requires forall i :: 0 <= i < n ==> lens[i] != l
    ensures Count(lens, l, n) == 0
  {
    if n > 0 { CountZero(lens, l, n - 1); }
  }

  /** Beyond the largest length the reading of `Top` just doubles. */
  lemma {:induction false} TopBeyond(lens: seq<nat>, m: nat, l: nat)
    requires Bounded(lens, m) && m <= l
    ensures Top(lens, l) == Top(lens, m) * Pow2(l - m)
    decreases l
  {
    if m < l {
      TopBeyond(lens, m, l - 1);
      CountZero(lens, l, |lens|);
      MulDouble(Top(lens, m), Pow2(l - 1 - m));
    }
  }

  lemma MulDouble(a: nat, p: nat)
    ensures a * (2 * p) == 2 * (a * p)
  {
  }

  lemma {:induction false} TopGrows(lens: seq<nat>, l: nat, m: nat)
    requires l <= m
    ensures Top(lens, m) >= Top(lens, l) * Pow2(m - l)
    ensures l < m ==> First(lens, m) >= Top(lens, l) * Pow2(m - l)
    decreases m
  {
    if l < m {
      TopGrows(lens, l, m - 1);
      MulDouble(Top(lens, l), Pow2(m - 1 - l));
    }
  }

  lemma CompleteFits(lens: seq<nat>, m: nat)
    requires Complete(lens, m)
    ensures Fits(lens)
  {
    forall l: nat ensures Top(lens, l) <= Pow2(l) {
      if l <= m {
        TopGrows(lens, l, m);
        Pow2Add(l, m - l);
        MulCancel(Top(lens, l), Pow2(l), Pow2(m - l));
      } else {
        TopBeyond(lens, m, l);
        Pow2Add(m, l - m);
      }
    }
  }

  lemma MulCancel(a: int, b: int, p: int)
    requires p > 0
    ensures a * p <= b * p ==> a <= b
    ensures a * p < b * p ==> a < b
  {
    if a > b { assert a * p == b * p + (a - b) * p; MulAtLeast(p, a - b); }
    if a == b { }
  }

  lemma DivAtLeast(a: nat, v: nat, p: nat)
    requires p > 0 && a * p <= v
    ensures a <= v / p
  {
    var q := v / p;
    assert v == p * q + v % p;
    assert (q + 1) * p == p * q + p;
    MulCancel(a, q + 1, p);
  }

  lemma CodeValueRange(lens: seq<nat>, s: nat)
    requires s < |lens| && lens[s] >= 1
    ensures First(lens, lens[s]) <= CodeValue(lens, s) < Top(lens, lens[s])
  {
    CountMono(lens, lens[s], s, |lens|);
  }

  /** A code value fits its length, so `Code` loses no digits. */
  lemma CodeReads(lens: seq<nat>, s: nat)
    requires Fits(lens) && s < |lens| && lens[s] >= 1
    ensures MsbValue(Code(lens, s)) == CodeValue(lens, s)
  {
    CodeValueRange(lens, s);
    assert Top(lens, lens[s]) <= Pow2(lens[s]);
    MsbFromTo(CodeValue(lens, s), lens[s]);
  }

  /** Longer codes start after every value reserved for shorter ones. */
  lemma CodeOrder(lens: seq<nat>, s: nat, t: nat)
    requires Fits(lens)
    requires s < |lens| && t < |lens| && 1 <= lens[s] < lens[t]
    ensures CodeValue(lens, s) < CodeValue(lens, t) / Pow2(lens[t] - lens[s])
  {
    var l, m := lens[s], lens[t];
    CodeValueRange(lens, s);
    CodeValueRange(lens, t);
    TopGrows(lens, l, m);
    DivAtLeast(Top(lens, l), CodeValue(lens, t), Pow2(m - l));
  }

  lemma PrefixSame(c: seq<bool>, d: seq<bool>)
    requires |c| == |d|
    ensures c <= d ==> c == d
  {
  }

  /** Canonical codes of lengths that fit are prefix-free. */
  lemma PrefixFree(lens: seq<nat>, s: nat, t: nat)
    requires Fits(lens) && s != t
    requires s < |lens| && t < |lens| && lens[s] >= 1 && lens[t] >= 1
    ensures !(Code(lens, s) <= Code(lens, t))
  {
    var l, m := lens[s], lens[t];
    var c, d := Code(lens, s), Code(lens, t);
    CodeReads(lens, s);
    CodeReads(lens, t);
    if l < m {
      CodeOrder(lens, s, t);
      MsbPrefix(d, l);
      assert d[..l] != c;
    } else if l == m {
      if s < t { CountMono(lens, l, s, t); } else { CountMono(lens, l, t, s); }
      assert c != d;
      PrefixSame(c, d);
    }
  }

  lemma DecodeUnique(lens: seq<nat>, s: nat, t: nat, bits: seq<bool>)
    requires Fits(lens) && IsCodeAt(lens, s, bits) && IsCodeAt(lens, t, bits)
    ensures s == t
  {
    if s != t {
      PrefixFree(lens, s, t);
      PrefixFree(lens, t, s);
    }
  }

  lemma {:induction false} NthSymbol(lens: seq<nat>, l: nat, k: nat, n: nat) returns (s: nat)
    requires n <= |lens| && k < Count(lens, l, n)
    ensures s < n && lens[s] == l && Count(lens, l, s) == k
  {
    if lens[n - 1] == l && Count(lens, l, n - 1) == k {
      s := n - 1;
    } else {
      s := NthSymbol(lens, l, k, n - 1);
    }
  }

  lemma TopIs(lens: seq<nat>, l: nat)
    requires l >= 1
    ensures Top(lens, l) == First(lens, l) + Total(lens, l)
  {
  }

  lemma CoverHit(lens: seq<nat>, bits: seq<bool>, l: nat)
    requires 1 <= l <= |bits| && First(lens, l) <= MsbValue(bits[..l]) < Top(lens, l)
    ensures exists s: nat :: IsCodeAt(lens, s, bits) && lens[s] <= l
  {
    var b := bits[..l];
    hide MsbValue, Top, Count;
    MsbToFrom(b);
    TopIs(lens, l);
    var s := NthSymbol(lens, l, MsbValue(b) - First(lens, l), |lens|);
    hide First;
    assert CodeValue(lens, s) == MsbValue(b);
    assert Code(lens, s) == b;
    assert IsCodeAt(lens, s, bits);
  }

  /** Either some code of length at most `l` starts `bits`, or `bits` lies above all of them. */
  lemma {:induction false} CoverStep(lens: seq<nat>, bits: seq<bool>, l: nat)
    requires Fits(lens) && l <= |bits|
    ensures (exists s: nat :: IsCodeAt(lens, s, bits) && lens[s] <= l) || MsbValue(bits[..l]) >= Top(lens, l)
    decreases l
  {
    if l > 0 {
      CoverStep(lens, bits, l - 1);
      var v := MsbValue(bits[..l]);
      assert bits[..l][..l - 1] == bits[..l - 1];
      if MsbValue(bits[..l - 1]) >= Top(lens, l - 1) && v < Top(lens, l) {
        CoverHit(lens, bits, l);
      }
    }
  }

  /** In a complete code every bit string long enough starts with some code. */
  lemma CompleteCovers(lens: seq<nat>, m: nat, bits: seq<bool>) returns (s: nat)
    requires Complete(lens, m) && |bits| >= m
    ensures IsCodeAt(lens, s, bits)
  {
    CompleteFits(lens, m);
    CoverStep(lens, bits, m);
    MsbBound(bits[..m]);
    s :| IsCodeAt(lens, s, bits);
  }

  /** The last code of a complete set is all ones. */
  lemma LastCodeAllOnes(lens: seq<nat>, s: nat, m: nat)
    requires Complete(lens, m) && s < |lens| && lens[s] == m >= 1
    requires forall t :: s < t < |lens| ==> lens[t] != m
    ensures CodeValue(lens, s) == Pow2(m) - 1
  {
    CountAfter(lens, m, s + 1, |lens|);
  }

  lemma {:induction false} CountAfter(lens: seq<nat>, l: nat, a: nat, b: nat)
    requires a <= b <= |lens|
    requires forall t :: a <= t < b ==> lens[t] != l
    ensures Count(lens, l, a) == Count(lens, l, b)
    decreases b
  {
    if a < b { CountAfter(lens, l, a, b - 1); }
  }

  /** Outcome of matching a code against the front of a bit string. */
  datatype Decoded = Symbol(sym: nat, size: nat) | Invalid | NeedMore

  /** The symbol whose code starts `bits`.  A code with at most one symbol leaves a hole that reads as invalid. */
  ghost function Decode(lens: seq<nat>, bits: seq<bool>): (d: Decoded)
    ensures d.Symbol? ==> IsCodeAt(lens, d.sym, bits) && d.size == lens[d.sym]
  {
    if exists s: nat :: IsCodeAt(lens, s, bits) then
      var s: nat :| IsCodeAt(lens, s, bits);
      Symbol(s, lens[s])
    else if Bounded(lens, 1) && bits != [] then Invalid
    else NeedMore
  }

  lemma DecodeIs(lens: seq<nat>, s: nat, bits: seq<bool>)
    requires Fits(lens) && IsCodeAt(lens, s, bits)
    ensures Decode(lens, bits) == Symbol(s, lens[s])
  {
    DecodeUnique(lens, s, Decode(lens, bits).sym, bits);
  }

  /** A decoding decision is never changed by bits that arrive later. */
  lemma DecodeStable(lens: seq<nat>, bits: seq<bool>, more: seq<bool>)
    requires Fits(lens) && !Decode(lens, bits).NeedMore?
    ensures Decode(lens, bits + more) == Decode(lens, bits)
  {
    if Decode(lens, bits).Symbol? {
      DecodeIs(lens, Decode(lens, bits).sym, bits + more);
    } else {
      forall s: nat | IsCodeAt(lens, s, bits + more) ensures IsCodeAt(lens, s, bits) {
        assert Code(lens, s) <= bits + more;
      }
    }
  }
}
