/**
  Bit strings and their numeric readings.  A DEFLATE stream is read least significant bit first
  (`FromBits`), while Huffman codes are compared most significant bit first (`MsbValue`).
  C shifts and masks on unsigned words are written with `/`, `%` and `*` by powers of two.
*/
module Bits {

  type byte = x: int | 0 <= x < 256

  datatype Option<T> = None | Some(value: T)

  function Pow2(n: nat): (p: nat)
    ensures p >= 1
  {
    if n == 0 then 1 else 2 * Pow2(n - 1)
  }

  lemma {:induction false} Pow2Add(a: nat, b: nat)
    ensures Pow2(a + b) == Pow2(a) * Pow2(b)
  {
    if a > 0 {
      Pow2Add(a - 1, b);
      assert Pow2(a) * Pow2(b) == 2 * (Pow2(a - 1) * Pow2(b));
    }
  }

  lemma {:induction false} Pow2Mono(a: nat, b: nat)
    requires a <= b
    ensures Pow2(a) <= Pow2(b)
    decreases b
  {
    if a < b { Pow2Mono(a, b - 1); }
  }

  lemma Pow2Values()
    ensures Pow2(1) == 2 && Pow2(2) == 4 && Pow2(3) == 8 && Pow2(4) == 16 && Pow2(5) == 32
    ensures Pow2(6) == 64 && Pow2(7) == 128 && Pow2(8) == 256 && Pow2(13) == 8192
    ensures Pow2(15) == 32768 && Pow2(16) == 65536
  {
    assert Pow2(3) == 8;
    assert Pow2(6) == 64;
    assert Pow2(9) == 512;
    assert Pow2(12) == 4096;
  }

  lemma DivNonNeg(x: nat, d: nat)
    requires d > 0
    ensures 0 <= x / d <= x
  {
    var q := x / d;
    assert x == d * q + x % d;
    MulAtLeast(d, q);
    if q >= 1 { MulGrows(d, q); }
  }

  lemma MulGrows(d: nat, q: nat)
    requires d > 0
    ensures d * q >= q
  {
    MulNonNeg(d - 1, q);
    assert d * q == (d - 1) * q + q;
  }

  /** The low `n` bits of `w`, and `w` shifted right by `n`. */
  function Low(w: nat, n: nat): (r: nat) { w % Pow2(n) }

  function Shr(w: nat, n: nat): (r: nat)
  {
    DivNonNeg(w, Pow2(n));
    w / Pow2(n)
  }

  function BitVal(b: bool): (v: nat) { if b then 1 else 0 }

  /** The low `n` bits of `v`, least significant first. */
  function ToBits(v: nat, n: nat): (b: seq<bool>)
    ensures |b| == n
    decreases n, v
  {
    if n == 0 then [] else [v % 2 == 1] + ToBits(v / 2, n - 1)
  }

  /** The number whose binary digits are `b`, least significant first. */
  function FromBits(b: seq<bool>): (v: nat)
  {
    if b == [] then 0 else BitVal(b[0]) + 2 * FromBits(b[1..])
  }

  lemma {:induction false} FromBitsBound(b: seq<bool>)
    ensures FromBits(b) < Pow2(|b|)
  {
    if b != [] { FromBitsBound(b[1..]); }
  }

  lemma {:induction false} ToFrom(b: seq<bool>)
    ensures ToBits(FromBits(b), |b|) == b
  {
    if b != [] {
      ToFrom(b[1..]);
      assert FromBits(b) / 2 == FromBits(b[1..]);
      assert b == [b[0]] + b[1..];
    }
  }

  lemma {:induction false} FromTo(v: nat, n: nat)
    requires v < Pow2(n)
    ensures FromBits(ToBits(v, n)) == v
    decreases n, v
  {
    if n > 0 {
      FromTo(v / 2, n - 1);
      assert ToBits(v, n)[1..] == ToBits(v / 2, n - 1);
    }
  }

  lemma {:induction false} FromBitsAppend(a: seq<bool>, b: seq<bool>)
    ensures FromBits(a + b) == FromBits(a) + Pow2(|a|) * FromBits(b)
  {
    if a == [] {
      assert a + b == b;
    } else {
      FromBitsAppend(a[1..], b);
      assert (a + b)[1..] == a[1..] + b;
      calc {
        FromBits(a + b);
        BitVal(a[0]) + 2 * (FromBits(a[1..]) + Pow2(|a| - 1) * FromBits(b));
        BitVal(a[0]) + 2 * FromBits(a[1..]) + 2 * (Pow2(|a| - 1) * FromBits(b));
        { MulAssoc(2, Pow2(|a| - 1), FromBits(b)); }
        FromBits(a) + Pow2(|a|) * FromBits(b);
      }
    }
  }

  lemma MulAssoc(a: int, b: int, c: int)
    ensures a * (b * c) == (a * b) * c
  {
  }

  /** `b` is determined by its numeric reading and its length. */
  lemma FromBitsInjective(a: seq<bool>, b: seq<bool>)
    requires |a| == |b| && FromBits(a) == FromBits(b)
    ensures a == b
  {
    ToFrom(a);
    ToFrom(b);
  }

  /** Dividing and reducing by a power of two split the digit string. */
  lemma SplitValue(b: seq<bool>, n: nat)
    requires n <= |b|
    ensures FromBits(b) % Pow2(n) == FromBits(b[..n])
    ensures FromBits(b) / Pow2(n) == FromBits(b[n..])
  {
    hide FromBits, Pow2;
    assert b == b[..n] + b[n..];
    FromBitsAppend(b[..n], b[n..]);
    FromBitsBound(b[..n]);
    DivModUnique(FromBits(b), Pow2(n), FromBits(b[n..]), FromBits(b[..n]));
  }

  lemma MulAtLeast(d: int, t: int)
    requires d > 0
    ensures t >= 1 ==> d * t >= d
    ensures t <= -1 ==> d * t <= -d
  {
    if t >= 1 { assert d * t == d + d * (t - 1); }
    if t <= -1 { assert d * t == d * (t + 1) - d; }
  }

  lemma DivModUnique(x: int, d: int, q: int, r: int)
    requires d > 0 && 0 <= r < d && x == r + d * q
    ensures x / d == q && x % d == r
  {
    var q', r' := x / d, x % d;
    assert x == d * q' + r';
    var t := q - q';
    assert d * t == r' - r by { assert d * t == d * q - d * q'; }
    MulAtLeast(d, t);
  }

  /** A bit string of length at most `n` starts the `n`-bit reading of `i` exactly when the low bits agree. */
  lemma PrefixIff(b: seq<bool>, i: nat, n: nat)
    requires |b| <= n && i < Pow2(n)
    ensures b <= ToBits(i, n) <==> i % Pow2(|b|) == FromBits(b)
  {
    var w := ToBits(i, n);
    FromTo(i, n);
    SplitValue(w, |b|);
    if i % Pow2(|b|) == FromBits(b) {
      FromBitsInjective(b, w[..|b|]);
    } else {
      assert w[..|b|] != b;
    }
  }

  function Zeros(n: nat): (z: seq<bool>)
    ensures |z| == n
    ensures forall i :: 0 <= i < n ==> !z[i]
  {
    seq(n, i => false)
  }

  lemma {:induction false} ZerosValue(n: nat)
    ensures FromBits(Zeros(n)) == 0
  {
    if n > 0 {
      assert Zeros(n)[1..] == Zeros(n - 1);
      ZerosValue(n - 1);
    }
  }

  /** Trailing zero digits do not change the value, so a short accumulator reads as a zero-padded one. */
  lemma PadValue(b: seq<bool>, n: nat)
    ensures FromBits(b + Zeros(n)) == FromBits(b)
  {
    FromBitsAppend(b, Zeros(n));
    ZerosValue(n);
  }

  /** Reading of a bit string with the first bit most significant, as Huffman codes are ordered. */
  function MsbValue(b: seq<bool>): (v: nat)
  {
    if b == [] then 0 else 2 * MsbValue(b[..|b| - 1]) + BitVal(b[|b| - 1])
  }

  function MsbBits(c: nat, n: nat): (b: seq<bool>)
    ensures |b| == n
    decreases n, c
  {
    if n == 0 then [] else MsbBits(c / 2, n - 1) + [c % 2 == 1]
  }

  lemma {:induction false} MsbBound(b: seq<bool>)
    ensures MsbValue(b) < Pow2(|b|)
  {
    if b != [] { MsbBound(b[..|b| - 1]); }
  }

  lemma {:induction false} MsbFromTo(c: nat, n: nat)
    requires c < Pow2(n)
    ensures MsbValue(MsbBits(c, n)) == c
    decreases n, c
  {
    if n > 0 {
      MsbFromTo(c / 2, n - 1);
      assert MsbBits(c, n)[..n - 1] == MsbBits(c / 2, n - 1);
    }
  }

  lemma {:induction false} MsbToFrom(b: seq<bool>)
    ensures MsbBits(MsbValue(b), |b|) == b
  {
    if b != [] {
      MsbToFrom(b[..|b| - 1]);
      assert MsbValue(b) / 2 == MsbValue(b[..|b| - 1]);
      assert b == b[..|b| - 1] + [b[|b| - 1]];
    }
  }

  lemma {:induction false} MsbPrefix(b: seq<bool>, n: nat)
    requires n <= |b|
    ensures MsbValue(b) / Pow2(|b| - n) == MsbValue(b[..n])
    decreases |b|
  {
    if n == |b| {
      assert b[..n] == b;
    } else {
      var h := b[..|b| - 1];
      MsbPrefix(h, n);
      assert h[..n] == b[..n];
      assert Pow2(|b| - n) == 2 * Pow2(|h| - n);
      DivDiv(MsbValue(b), 2, Pow2(|h| - n));
      assert MsbValue(b) / 2 == MsbValue(h);
    }
  }

  lemma DivDiv(x: nat, a: nat, b: nat)
    requires a > 0 && b > 0
    ensures a * b > 0
    ensures x / (a * b) == (x / a) / b
  {
    var q, r := x / a, x % a;
    var q2, r2 := q / b, q % b;
    var m := a * b;
    MulAtLeast(a, b);
    MulAtLeast(a, b - r2);
    assert a * (b - r2) == m - a * r2;
    calc {
      x;
      a * q + r;
      { assert q == b * q2 + r2; }
      a * (b * q2 + r2) + r;
      { MulDistrib(a, b * q2, r2); MulAssoc(a, b, q2); }
      m * q2 + (a * r2 + r);
    }
    MulNonNeg(a, r2);
    DivModUnique(x, m, q2, a * r2 + r);
  }

  lemma MulDistrib(a: int, b: int, c: int)
    ensures a * (b + c) == a * b + a * c
  {
  }

  lemma MulNonNeg(a: int, b: int)
    requires a >= 0 && b >= 0
    ensures a * b >= 0
  {
  }

  function ByteBits(b: byte): (r: seq<bool>)
    ensures |r| == 8
  {
    ToBits(b, 8)
  }

  /** The bits of a byte string in stream order. */
  function BytesToBits(s: seq<byte>): (b: seq<bool>)
    ensures |b| == 8 * |s|
  {
    if s == [] then [] else ByteBits(s[0]) + BytesToBits(s[1..])
  }

  lemma {:induction false} BytesToBitsAppend(a: seq<byte>, b: seq<byte>)
    ensures BytesToBits(a + b) == BytesToBits(a) + BytesToBits(b)
  {
    hide ByteBits;
    if a == [] {
      assert a + b == b;
    } else {
      var ab := a + b;
      BytesToBitsAppend(a[1..], b);
      assert ab[1..] == a[1..] + b && ab[0] == a[0];
      SeqAssoc(ByteBits(a[0]), BytesToBits(a[1..]), BytesToBits(b));
    }
  }

  lemma SeqAssoc<T>(a: seq<T>, b: seq<T>, c: seq<T>)
    ensures a + (b + c) == (a + b) + c
  {
  }

  /** `value` placed above the `v` low bits `buf`: the C expression `buf | value << v`. */
  function Joined(buf: nat, v: nat, value: nat): (x: nat)
  {
    MulNonNeg(value, Pow2(v));
    buf + value * Pow2(v)
  }

  lemma Extend(buf: nat, v: nat, value: nat, n: nat)
    requires buf < Pow2(v) && value < Pow2(n)
    ensures Joined(buf, v, value) < Pow2(v + n)
    ensures ToBits(Joined(buf, v, value), v + n) == ToBits(buf, v) + ToBits(value, n)
  {
    hide Pow2, FromBits, ToBits;
    var w := ToBits(buf, v) + ToBits(value, n);
    FromTo(buf, v);
    FromTo(value, n);
    FromBitsAppend(ToBits(buf, v), ToBits(value, n));
    FromBitsBound(w);
    ToFrom(w);
  }
}
