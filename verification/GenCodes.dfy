/**
  trees.c: assigning bit strings to code lengths.

  A node of a tree is a C struct of two unions: `fc` holds its frequency and later its code, `dl`
  its parent and later its length.  The two fields are kept as two arrays here.
*/
module GenCodes {
  import opened Bits
  import opened Canonical

  lemma {:induction false} MsbFront(c: nat, j: nat)
    ensures MsbBits(c, j + 1) == [Shr(c, j) % 2 == 1] + MsbBits(c, j)
    decreases j
  {
    if j == 0 {
      assert MsbBits(c / 2, 0) == [];
      assert Shr(c, 0) == c;
    } else {
      MsbFront(c / 2, j - 1);
      ShrStep(c, j);
      assert MsbBits(c, j) == MsbBits(c / 2, j - 1) + [c % 2 == 1];
      assert MsbBits(c, j + 1) == MsbBits(c / 2, j) + [c % 2 == 1];
    }
  }

  lemma ShrStep(c: nat, j: nat)
    requires j >= 1
    ensures Shr(c, j) == Shr(c / 2, j - 1)
  {
    DivDiv(c, 2, Pow2(j - 1));
  }

  lemma ShrHalf(c: nat, j: nat)
    ensures Shr(c, j) / 2 == Shr(c, j + 1)
  {
    DivDiv(c, Pow2(j), 2);
  }

  /** bi_reverse: the `len` low bits of `code` in opposite order. */
  method BiReverse(code0: nat, len0: nat) returns (res: nat)
    requires len0 >= 1
    ensures res == FromBits(MsbBits(code0, len0)) < Pow2(len0)
    ensures ToBits(res, len0) == MsbBits(code0, len0)
  {
    hide Shr, MsbBits, FromBits, Pow2;
    var code, len := code0, len0;
    ghost var j := 0;
    res := 0;
    ReverseStart(code0);
    while len > 0
      invariant 0 <= j <= len0 && len == len0 - j
      invariant code == Shr(code0, j) && res == 2 * FromBits(MsbBits(code0, j))
      decreases len
    {
      ReverseStep(code0, j);
      ShrHalf(code0, j);
      res := res + code % 2;
      code := code / 2;
      res := 2 * res;
      len := len - 1;
      j := j + 1;
    }
    res := res / 2;
    FromBitsBound(MsbBits(code0, len0));
    ToFrom(MsbBits(code0, len0));
  }

  lemma ReverseStart(c: nat)
    ensures Shr(c, 0) == c && FromBits(MsbBits(c, 0)) == 0
  {
  }

  lemma ReverseStep(c: nat, j: nat)
    ensures FromBits(MsbBits(c, j + 1)) == Shr(c, j) % 2 + 2 * FromBits(MsbBits(c, j))
  {
    MsbFront(c, j);
    assert MsbBits(c, j + 1)[1..] == MsbBits(c, j);
  }

  // ------------------------------------------------------------------ gen_codes

  /** The number of symbols of each length, as gen_bitlen leaves it in bl_count. */
  ghost predicate LengthCounts(lens: seq<nat>, blCount: seq<nat>)
  {
    |blCount| == MAX_BITS + 1 && blCount[0] == 0 &&
    forall l :: 1 <= l <= MAX_BITS ==> blCount[l] == Total(lens, l)
  }

  ghost predicate NextCodes(lens: seq<nat>, next: seq<nat>, n: nat)
    requires n <= |lens|
  {
    |next| == MAX_BITS + 1 && forall l :: 1 <= l <= MAX_BITS ==> next[l] == First(lens, l) + Count(lens, l, n)
  }

  method FirstCodes(ghost lens: seq<nat>, blCount: seq<nat>) returns (next: seq<nat>)
    requires LengthCounts(lens, blCount) && Fits(lens)
    ensures NextCodes(lens, next, 0)
  {
    hide Top, Total;
    next := blCount;
    var code, bits := 0, 1;
    TopBase(lens);
    while bits <= MAX_BITS
      invariant 1 <= bits <= MAX_BITS + 1 && |next| == MAX_BITS + 1
      invariant code + blCount[bits - 1] == Top(lens, bits - 1)
      invariant forall l :: 1 <= l < bits ==> next[l] == First(lens, l)
    {
      code := (code + blCount[bits - 1]) * 2;
      NoOverflow(lens, bits);
      next := next[bits := code % 0x1_0000];
      TopNext(lens, bits);
      bits := bits + 1;
    }
  }

  /** First codes fit the 16-bit `next_code`. */
  lemma NoOverflow(lens: seq<nat>, l: nat)
    requires Fits(lens) && 1 <= l <= MAX_BITS
    ensures First(lens, l) < 0x1_0000
  {
    assert Top(lens, l - 1) <= Pow2(l - 1);
    Pow2Mono(l - 1, 14);
    Pow2Values();
    assert Pow2(15) == 2 * Pow2(14);
  }

  lemma TopBase(lens: seq<nat>)
    ensures Top(lens, 0) == 0
  {
  }

  lemma TopNext(lens: seq<nat>, l: nat)
    requires l >= 1
    ensures Top(lens, l) == First(lens, l) + Total(lens, l)
  {
  }

  lemma NextCodesStep(lens: seq<nat>, next: seq<nat>, n: nat)
    requires n < |lens| && lens[n] <= MAX_BITS && NextCodes(lens, next, n)
    ensures lens[n] == 0 ==> NextCodes(lens, next, n + 1)
    ensures lens[n] >= 1 ==> next[lens[n]] == CodeValue(lens, n) &&
                             NextCodes(lens, next[lens[n] := next[lens[n]] + 1], n + 1)
  {
    hide First;
  }

  /** The value stored for symbol `n` sends the canonical code of `n`, first bit first. */
  ghost predicate Coded(lens: seq<nat>, n: nat, value: nat)
    requires n < |lens| && lens[n] >= 1
  {
    value < Pow2(lens[n]) && ToBits(value, lens[n]) == Code(lens, n)
  }

  /** gen_codes: canonical codes of section 3.2.2 of RFC 1951, stored bit-reversed. */
  method GenCodes(fc: array<nat>, dl: array<nat>, maxCode: nat, blCount: seq<nat>)
    requires fc != dl && maxCode < fc.Length && maxCode < dl.Length
    requires Bounded(dl[..maxCode + 1], MAX_BITS) && LengthCounts(dl[..maxCode + 1], blCount) && Fits(dl[..maxCode + 1])
    modifies fc
    ensures forall n :: 0 <= n <= maxCode && dl[n] >= 1 ==> Coded(dl[..maxCode + 1], n, fc[n])
    ensures forall n :: 0 <= n < fc.Length && (n > maxCode || dl[n] == 0) ==> fc[n] == old(fc[n])
  {
    hide NextCodes, Coded, Fits, LengthCounts, Top;
    ghost var lens := dl[..maxCode + 1];
    var next := FirstCodes(lens, blCount);
    var n := 0;
    while n <= maxCode
      invariant 0 <= n <= maxCode + 1
      invariant NextCodes(lens, next, n)
      invariant forall i :: 0 <= i < n && dl[i] >= 1 ==> Coded(lens, i, fc[i])
      invariant forall i :: 0 <= i < fc.Length && (i >= n || dl[i] == 0) ==> fc[i] == old(fc[i])
    {
      var len := dl[n];
      assert len == lens[n];
      NextCodesStep(lens, next, n);
      NextSize(lens, next, n);
      if len != 0 {
        var c := BiReverse(next[len], len);
        IsCoded(lens, n, c);
        fc[n] := c;
        next := next[len := next[len] + 1];
      }
      n := n + 1;
    }
  }

  lemma NextSize(lens: seq<nat>, next: seq<nat>, n: nat)
    requires n <= |lens| && NextCodes(lens, next, n)
    ensures |next| == MAX_BITS + 1
  {
  }

  lemma IsCoded(lens: seq<nat>, n: nat, c: nat)
    requires n < |lens| && lens[n] >= 1 && c < Pow2(lens[n])
    requires ToBits(c, lens[n]) == MsbBits(CodeValue(lens, n), lens[n])
    ensures Coded(lens, n, c)
  {
  }
}
