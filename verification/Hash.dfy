/**
  deflate.c: the rolling hash of three bytes.  A hash key has `n` bits (8 to 16); UPDATE_HASH shifts it
  by `Shift(n)`, adds the next byte without carry, and masks it to `n` bits.
*/
module Hash {
  import opened Bits

  function Shift(n: nat): (s: nat) { (n + 2) / 3 }

  /** The digits of `((h << shift) ^ c) & mask`. */
  function HashBits(n: nat, h: seq<bool>, c: byte): (r: seq<bool>)
    requires |h| == n
    ensures |r| == n
    ensures forall i :: 0 <= i < n ==> r[i] == ((i >= Shift(n) && h[i - Shift(n)]) != (i < 8 && ByteBits(c)[i]))
  {
    seq(n, i requires 0 <= i < n => (i >= Shift(n) && h[i - Shift(n)]) != (i < 8 && ByteBits(c)[i]))
  }

  /** UPDATE_HASH. */
  function UpdateHash(n: nat, h: nat, c: byte): (r: nat)
    ensures r < Pow2(n)
  {
    FromBitsBound(HashBits(n, ToBits(h, n), c));
    FromBits(HashBits(n, ToBits(h, n), c))
  }

  function Hash3(n: nat, a: byte, b: byte, c: byte): (r: nat)
    ensures r < Pow2(n)
  {
    UpdateHash(n, UpdateHash(n, UpdateHash(n, 0, a), b), c)
  }

  lemma UpdateBits(n: nat, h: nat, c: byte)
    ensures ToBits(UpdateHash(n, h, c), n) == HashBits(n, ToBits(h, n), c)
  {
    ToFrom(HashBits(n, ToBits(h, n), c));
  }

  /** After three updates nothing of the old key is left. */
  lemma Forget(n: nat, h: nat, a: byte, b: byte, c: byte)
    ensures UpdateHash(n, UpdateHash(n, UpdateHash(n, h, a), b), c) == Hash3(n, a, b, c)
  {
    hide ToBits, FromBits, Pow2, ByteBits, UpdateHash;
    var h1, h2 := UpdateHash(n, h, a), UpdateHash(n, UpdateHash(n, h, a), b);
    var z1, z2 := UpdateHash(n, 0, a), UpdateHash(n, UpdateHash(n, 0, a), b);
    UpdateBits(n, h, a);
    UpdateBits(n, h1, b);
    UpdateBits(n, h2, c);
    UpdateBits(n, 0, a);
    UpdateBits(n, z1, b);
    UpdateBits(n, z2, c);
    ThirdSame(n, ToBits(h, n), ToBits(0, n), a, b, c);
    SameBits(n, UpdateHash(n, h2, c), UpdateHash(n, z2, c));
  }

  lemma ThirdSame(n: nat, h: seq<bool>, z: seq<bool>, a: byte, b: byte, c: byte)
    requires |h| == |z| == n
    ensures HashBits(n, HashBits(n, HashBits(n, h, a), b), c) == HashBits(n, HashBits(n, HashBits(n, z, a), b), c)
  {
    hide ByteBits;
    assert 3 * Shift(n) >= n;
  }

  lemma SameBits(n: nat, x: nat, y: nat)
    requires x < Pow2(n) && y < Pow2(n) && ToBits(x, n) == ToBits(y, n)
    ensures x == y
  {
    FromTo(x, n);
    FromTo(y, n);
  }

  /** Equal keys and equal first two bytes leave no choice for the third byte. */
  lemma ThirdByte(n: nat, a: byte, b: byte, c: byte, d: byte)
    requires n >= 8 && Hash3(n, a, b, c) == Hash3(n, a, b, d)
    ensures c == d
  {
    hide ToBits, FromBits, Pow2, UpdateHash;
    var k := UpdateHash(n, UpdateHash(n, 0, a), b);
    UpdateBits(n, k, c);
    UpdateBits(n, k, d);
    var x, y := HashBits(n, ToBits(k, n), c), HashBits(n, ToBits(k, n), d);
    assert x == y;
    forall i | 0 <= i < 8 ensures ByteBits(c)[i] == ByteBits(d)[i] { assert x[i] == y[i]; }
    assert ByteBits(c) == ByteBits(d);
    Pow2Values();
    SameBits(8, c, d);
  }

  /** The key of a single byte is the byte itself. */
  lemma FirstByte(n: nat, a: byte)
    requires n >= 8
    ensures UpdateHash(n, 0, a) == a
  {
    hide ToBits, FromBits, Pow2;
    var z := ToBits(0, n);
    ZeroBits(n);
    var r := HashBits(n, z, a);
    assert r == ByteBits(a) + Zeros(n - 8);
    PadValue(ByteBits(a), n - 8);
    Pow2Values();
    FromTo(a, 8);
  }

  lemma {:induction false} ZeroBits(n: nat)
    ensures ToBits(0, n) == Zeros(n)
    decreases n
  {
    if n > 0 { ZeroBits(n - 1); }
  }

  /** The key `h` has taken in the bytes `a` and `b` last. */
  ghost predicate Primed(n: nat, h: nat, a: byte, b: byte)
  {
    exists x: nat :: h == UpdateHash(n, UpdateHash(n, x, a), b)
  }

  lemma PrimedNext(n: nat, h: nat, a: byte, b: byte, c: byte)
    requires Primed(n, h, a, b)
    ensures UpdateHash(n, h, c) == Hash3(n, a, b, c) && Primed(n, UpdateHash(n, h, c), b, c)
  {
    hide UpdateHash, Hash3;
    var x: nat :| h == UpdateHash(n, UpdateHash(n, x, a), b);
    Forget(n, x, a, b, c);
  }

  lemma PrimedStart(n: nat, a: byte, b: byte)
    requires n >= 8
    ensures Primed(n, UpdateHash(n, a, b), a, b)
  {
    hide UpdateHash;
    FirstByte(n, a);
  }
}
