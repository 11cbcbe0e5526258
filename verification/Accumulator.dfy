/**
  inflate.c: the bit accumulator.  It holds the last `bits` bits of the bytes pulled so far.
*/
module Accumulator {
  import opened Bits
  import opened Canonical
  import opened InflateTable
  import opened Format
  import opened TableRead

  ghost predicate Acc(s: seq<bool>, hold: nat, bits: nat)
  {
    bits <= |s| && hold < Pow2(bits) && ToBits(hold, bits) == s[|s| - bits..]
  }

  lemma OneByteMore(fed: seq<byte>, b: byte)
    ensures BytesToBits(fed + [b]) == BytesToBits(fed) + ByteBits(b)
  {
    hide ByteBits;
    BytesToBitsAppend(fed, [b]);
    assert [b][1..] == [];
    assert BytesToBits([b]) == ByteBits(b) + [];
    assert ByteBits(b) + [] == ByteBits(b);
  }

  /** PULLBYTE: `hold += byte << bits`. */
  lemma AccPull(s: seq<bool>, hold: nat, bits: nat, b: byte)
    requires Acc(s, hold, bits)
    ensures Acc(s + ByteBits(b), Joined(hold, bits, b), bits + 8)
  {
    hide Pow2, ToBits, Joined;
    Pow2Values();
    Extend(hold, bits, b, 8);
    var t := s + ByteBits(b);
    assert t[|t| - (bits + 8)..] == s[|s| - bits..] + ByteBits(b);
  }

  lemma AccSplit(s: seq<bool>, hold: nat, bits: nat, n: nat)
    requires Acc(s, hold, bits) && n <= bits
    ensures Acc(s, Shr(hold, n), bits - n)
    ensures Low(hold, n) == Field(s, |s| - bits, n)
  {
    hide Pow2, ToBits, FromBits;
    var b := s[|s| - bits..];
    FromTo(hold, bits);
    SplitValue(b, n);
    ToFrom(b[n..]);
    FromBitsBound(b[n..]);
    assert b[n..] == s[|s| - (bits - n)..];
    assert b[..n] == s[|s| - bits..|s| - bits + n];
  }

  lemma AccEmpty(s: seq<bool>)
    ensures Acc(s, 0, 0)
  {
    assert s[|s|..] == [];
  }

  lemma AccBound(s: seq<bool>, hold: nat, bits: nat)
    requires Acc(s, hold, bits)
    ensures bits <= |s| && hold < Pow2(bits) && s[|s| - bits..] == ToBits(hold, bits)
  {
  }

  /** Two fields in a row. */
  lemma AccThen(s: seq<bool>, hold: nat, bits: nat, n: nat, m: nat)
    requires Acc(s, hold, bits) && n + m <= bits
    ensures Low(Shr(hold, n), m) == Field(s, |s| - bits + n, m)
  {
    hide Acc, Low, Shr, Field;
    AccBound(s, hold, bits);
    AccSplit(s, hold, bits, n);
    AccSplit(s, Shr(hold, n), bits - n, m);
  }

  /** No byte more was pulled than the next code needs. */
  ghost predicate Lagging(lens: seq<nat>, b: seq<bool>)
  {
    |b| < 8 || Decode(lens, b[..|b| - 8]) == NeedMore
  }

  lemma NeedMorePrefix(lens: seq<nat>, b: seq<bool>, n: nat)
    requires Fits(lens) && n <= |b| && Decode(lens, b) == NeedMore
    ensures Decode(lens, b[..n]) == NeedMore
  {
    if !Decode(lens, b[..n]).NeedMore? {
      assert b == b[..n] + b[n..];
      DecodeStable(lens, b[..n], b[n..]);
    }
  }

  lemma LagStart(lens: seq<nat>, b: seq<bool>)
    requires Fits(lens) && (|b| < 8 || Decode(lens, b) == NeedMore)
    ensures Lagging(lens, b)
  {
    if |b| >= 8 { NeedMorePrefix(lens, b, |b| - 8); }
  }

  lemma LagPull(lens: seq<nat>, b: seq<bool>, more: seq<bool>)
    requires Decode(lens, b) == NeedMore && |more| == 8
    ensures Lagging(lens, b + more)
  {
    assert (b + more)[..|b + more| - 8] == b;
  }

  /** After the code is dropped fewer than eight bits are left. */
  lemma LagDone(kind: Kind, lens: seq<nat>, b: seq<bool>, e: Entry, size: nat)
    requires Lagging(lens, b) && Answer(kind, lens, b, e, size)
    ensures |b| - size < 8
  {
    if |b| >= 8 {
      var q := b[..|b| - 8];
      var d := Decode(lens, b);
      if d.Symbol? && size <= |q| {
        assert Code(lens, d.sym) == b[..size] == q[..size];
        assert IsCodeAt(lens, d.sym, q);
      }
    }
  }
}
