/**
  adler32.c: the Adler-32 checksum with deferred reduction, the division-free remainders, and combination.
*/
module Adler32 {
  import opened Bits

  /** 32-bit unsigned words: every assignment to one is an obligation that nothing overflows. */
  type u32 = x: int | 0 <= x < 0x1_0000_0000

  const BASE := 65521
  const NMAX := 5552

  // ------------------------------------------------------------------ the definition (section 2.2 of RFC 1950)

  /** The two sums, reduced after every byte. */
  datatype Sums = Sums(a: nat, b: nat)

  function Reduced(s: Sums): (r: Sums)
    ensures r.a < BASE && r.b < BASE
  {
    Sums(s.a % BASE, s.b % BASE)
  }

  function AdlerStep(s: Sums, x: byte): (r: Sums)
  {
    Sums((s.a + x) % BASE, (s.b + s.a + x) % BASE)
  }

  function Adler(s: Sums, data: seq<byte>): (r: Sums)
    ensures r.a < BASE && r.b < BASE
    decreases |data|
  {
    if data == [] then Reduced(s) else AdlerStep(Adler(s, data[..|data| - 1]), data[|data| - 1])
  }

  /** The sums without any reduction. */
  function Plain(s: Sums, data: seq<byte>): (r: Sums)
    decreases |data|
  {
    if data == [] then s
    else
      var p, x := Plain(s, data[..|data| - 1]), data[|data| - 1];
      Sums(p.a + x, p.b + p.a + x)
  }

  function Pack(s: Sums): (w: int) { s.a + 65536 * s.b }

  function Unpack(w: u32): (s: Sums)
    ensures s.a < 65536 && s.b < 65536 && Pack(s) == w
  {
    Sums(w % 65536, w / 65536 % 65536)
  }

  lemma PackUnpack(s: Sums)
    requires s.a < 65536 && s.b < 65536
    ensures 0 <= Pack(s) < 0x1_0000_0000 && Unpack(Pack(s)) == s
  {
  }

  // ------------------------------------------------------------------ deferred reduction

  lemma ModSum(x: nat, y: nat)
    ensures (x % BASE + y) % BASE == (x + y) % BASE
  {
  }

  lemma ModSum2(x: nat, y: nat, z: nat)
    ensures (x % BASE + y % BASE + z) % BASE == (x + y + z) % BASE
  {
    ModSum(x, y % BASE + z);
    ModSum(y, x + z);
  }

  /** Reducing once at the end gives what reducing after every byte gives. */
  lemma {:induction false} DeferredMod(s: Sums, data: seq<byte>)
    ensures Adler(s, data) == Reduced(Plain(s, data))
    decreases |data|
  {
    if data != [] {
      DeferredMod(s, data[..|data| - 1]);
      var p, x := Plain(s, data[..|data| - 1]), data[|data| - 1];
      ModSum(p.a, x);
      ModSum2(p.b, p.a, x);
    }
  }

  lemma {:induction false} AdlerAppend(s: Sums, x: seq<byte>, y: seq<byte>)
    ensures Adler(s, x + y) == Adler(Adler(s, x), y)
    decreases |y|
  {
    if y == [] {
      assert x + y == x;
    } else {
      var n := |y| - 1;
      assert (x + y)[..|x + y| - 1] == x + y[..n];
      AdlerAppend(s, x, y[..n]);
    }
  }

  lemma {:induction false} AdlerReduced(s: Sums, x: seq<byte>)
    ensures Adler(Reduced(s), x) == Adler(s, x)
    decreases |x|
  {
    if x != [] { AdlerReduced(s, x[..|x| - 1]); }
  }

  /** The largest second sum that `n` bytes can give from sums that fit 16 bits. */
  function Cap(n: nat): (c: nat) { 65535 * (n + 1) + 255 * (n * (n + 1) / 2) }

  lemma CapNext(n: nat)
    ensures Cap(0) == 65535 && Cap(n + 1) == Cap(n) + 65535 + 255 * (n + 1)
  {
    assert (n + 1) * (n + 2) == n * (n + 1) + 2 * (n + 1);
  }

  lemma {:induction false} PlainBound(s: Sums, data: seq<byte>)
    requires s.a <= 65535 && s.b <= 65535
    ensures s.a <= Plain(s, data).a <= s.a + 255 * |data| && Plain(s, data).b <= Cap(|data|)
    decreases |data|
  {
    hide Cap;
    CapNext(0);
    if data != [] {
      PlainBound(s, data[..|data| - 1]);
      CapNext(|data| - 1);
    }
  }

  lemma {:induction false} CapMono(n: nat, m: nat)
    requires n <= m
    ensures Cap(n) <= Cap(m)
    decreases m
  {
    hide Cap;
    if n < m {
      CapMono(n, m - 1);
      CapNext(m - 1);
    }
  }

  /** No sum over a block of at most NMAX bytes exceeds 32 bits. */
  lemma NoOverflow(s: Sums, data: seq<byte>)
    requires s.a <= 65535 && s.b <= 65535 && |data| <= NMAX
    ensures Plain(s, data).a < 0x1_0000_0000 && Plain(s, data).b < 0x1_0000_0000
  {
    PlainBound(s, data);
    CapMono(|data|, NMAX);
  }

  /** The bound in the comment: what `n` bytes 255 give from the largest reduced sums. */
  function Worst(n: nat): (w: nat) { 255 * (n * (n + 1) / 2) + (n + 1) * (BASE - 1) }

  lemma WorstNext(n: nat)
    ensures Worst(0) == BASE - 1 && Worst(n + 1) == Worst(n) + BASE - 1 + 255 * (n + 1)
  {
    assert (n + 1) * (n + 2) == n * (n + 1) + 2 * (n + 1);
  }

  lemma {:induction false} WorstIs(data: seq<byte>)
    requires forall i :: 0 <= i < |data| ==> data[i] == 255
    ensures Plain(Sums(BASE - 1, BASE - 1), data) == Sums(BASE - 1 + 255 * |data|, Worst(|data|))
    decreases |data|
  {
    hide Worst;
    WorstNext(0);
    if data != [] {
      var n := |data| - 1;
      WorstIs(data[..n]);
      WorstNext(n);
    }
  }

  lemma WorstMono(n: nat, m: nat)
    requires n <= m
    ensures Worst(n) <= Worst(m)
    decreases m - n
  {
    hide Worst;
    if n < m {
      WorstNext(n);
      WorstMono(n + 1, m);
    }
  }

  /** NMAX is the largest block length for which the sums always fit 32 bits. */
  lemma NmaxIsLargest(n: nat)
    ensures Worst(n) < 0x1_0000_0000 <==> n <= NMAX
  {
    if n <= NMAX { WorstMono(n, NMAX); } else { WorstMono(NMAX + 1, n); }
  }

  // ------------------------------------------------------------------ remainders without division

  /** CHOP: 65536 is congruent to 15. */
  function Chop(a: nat): (r: nat)
    ensures r % BASE == a % BASE && r <= 65535 + 15 * (a / 65536)
  {
    var tmp := a / 65536;
    var r := a % 65536 + (tmp * 16 - tmp);
    assert a == r + BASE * tmp;
    r
  }

  function Mod28(a: nat): (r: nat)
    requires a < 0x1000_0000
    ensures r == a % BASE
  {
    var c := Chop(a);
    if c >= BASE then c - BASE else c
  }

  function Mod(a: nat): (r: nat)
    requires a < 0x1_0000_0000
    ensures r == a % BASE
  {
    Mod28(Chop(a))
  }

  /** The first step of MOD63: 2^32 is congruent to 225. */
  function Fold(a: nat): (r: nat)
    ensures r % BASE == a % BASE && r < 0x1_0000_0000 + 225 * (a / 0x1_0000_0000)
  {
    var tmp := a / 0x1_0000_0000;
    var r := a % 0x1_0000_0000 + (tmp * 256 - tmp * 32 + tmp);
    Congruent(a, r, 65551 * tmp);
    r
  }

  /** Congruence modulo BASE by an explicit quotient. */
  lemma Congruent(x: int, y: int, k: int)
    requires x == y + BASE * k
    ensures x % BASE == y % BASE
  {
  }

  function Mod63(a: nat): (r: nat)
    requires a < 0x8000_0000_0000_0000
    ensures r == a % BASE
  {
    hide Fold, Chop;
    Mod28(Chop(Fold(a)))
  }

  // ------------------------------------------------------------------ adler32_z

  /** DO1 for `n` bytes from `pos` on, without reduction. */
  method AddBytes(buf: seq<byte>, pos: nat, n: nat, adler0: u32, sum0: u32, ghost from: nat, ghost s: Sums)
    returns (adler: u32, sum2: u32)
    requires from <= pos <= pos + n <= |buf| && pos + n - from <= NMAX && s.a <= 65535 && s.b <= 65535
    requires Sums(adler0, sum0) == Plain(s, buf[from..pos])
    ensures Sums(adler, sum2) == Plain(s, buf[from..pos + n])
  {
    hide Plain;
    adler, sum2 := adler0, sum0;
    var i := 0;
    while i < n
      invariant 0 <= i <= n && Sums(adler, sum2) == Plain(s, buf[from..pos + i])
    {
      PlainNext(s, buf, from, pos + i);
      NoOverflow(s, buf[from..pos + i + 1]);
      adler := adler + buf[pos + i];
      sum2 := sum2 + adler;
      i := i + 1;
    }
  }

  lemma PlainNext(s: Sums, buf: seq<byte>, from: nat, pos: nat)
    requires from <= pos < |buf|
    ensures var p := Plain(s, buf[from..pos]);
            Plain(s, buf[from..pos + 1]) == Sums(p.a + buf[pos], p.b + p.a + buf[pos])
  {
    var t := buf[from..pos + 1];
    assert t[..|t| - 1] == buf[from..pos];
  }

  /** The end of a block: the sums are reduced and stand for all bytes so far. */
  lemma BlockEnd(s0: Sums, s: Sums, buf: seq<byte>, from: nat, pos: nat)
    requires from <= pos <= |buf| && Reduced(s) == Adler(s0, buf[..from])
    ensures Reduced(Plain(s, buf[from..pos])) == Adler(s0, buf[..pos])
  {
    hide Adler, Plain;
    DeferredMod(s, buf[from..pos]);
    AdlerReduced(s, buf[from..pos]);
    AdlerAppend(s0, buf[..from], buf[from..pos]);
    assert buf[..from] + buf[from..pos] == buf[..pos];
  }

  /** The one case in which the shortcut for a single byte does not reduce fully: the caller's sums were not reduced. */
  predicate Unreduced(adler: u32, buf: seq<byte>)
  {
    |buf| == 1 && Unpack(adler).b + (Unpack(adler).a + buf[0]) % BASE >= 2 * BASE
  }

  /** Sums that are reduced, as those of every checksum are, never lead there. */
  lemma ReducedSums(adler: u32, buf: seq<byte>)
    requires Unpack(adler).b < BASE
    ensures !Unreduced(adler, buf)
  {
  }

  /** Subtracting BASE at most once. */
  function Once(v: nat): (r: nat)
    ensures r <= v && (v < 2 * BASE ==> r == v % BASE) && (v >= 2 * BASE ==> r >= BASE) &&
            (v < 65536 + BASE ==> r < 65536)
  {
    if v >= BASE then v - BASE else v
  }

  lemma PackInjective(s: Sums, t: Sums)
    requires s.a < 65536 && t.a < 65536
    ensures Pack(s) == Pack(t) <==> s == t
  {
  }

  /** What adler32_z returns for a single byte. */
  function Shortcut(adler: u32, x: byte): (r: u32)
  {
    var sum1 := Once(adler % 65536 + x);
    var sum2 := Once(adler / 65536 % 65536 + sum1);
    sum1 + 65536 * sum2
  }

  /** adler32_z for a single byte. */
  method OneByte(adler: u32, x: byte) returns (r: u32)
    ensures r == Shortcut(adler, x)
    ensures r == Pack(Adler(Unpack(adler), [x])) <==> !Unreduced(adler, [x])
  {
    hide Adler, Once;
    var sum1: u32, sum2: u32 := adler % 65536, adler / 65536 % 65536;
    SingleByte(Unpack(adler), x);
    hide Unpack;
    sum1 := Once(sum1 + x);
    sum2 := Once(sum2 + sum1);
    r := sum1 + 65536 * sum2;
    PackInjective(Sums(sum1, sum2), Adler(Unpack(adler), [x]));
  }

  /** An input on which the shortcut is wrong: from the unreduced sums 65520 and 65535 the byte 0 should lead to 65520
      and 13, but the second sum is left at 65534. */
  lemma ShortcutFails()
    ensures Unreduced(0xffff_fff0, [0]) && Shortcut(0xffff_fff0, 0) == 0xfffe_fff0 &&
            Pack(Adler(Unpack(0xffff_fff0), [0])) == 0x000d_fff0
  {
    SingleByte(Sums(65520, 65535), 0);
    assert Unpack(0xffff_fff0) == Sums(65520, 65535);
  }

  lemma SingleByte(s: Sums, x: byte)
    requires s.a <= 65535 && s.b <= 65535
    ensures Adler(s, [x]) == Sums((s.a + x) % BASE, (s.b + (s.a + x) % BASE) % BASE)
  {
    assert [x][..0] == [];
    assert Adler(s, []) == Reduced(s);
    ModSum(s.a, x);
    ModSum2(s.b, s.a, x);
    ModSum(s.a + x, s.b);
  }

  /** adler32_z; without a buffer the initial value. */
  method Adler32Z(adler0: u32, buffer: Option<seq<byte>>) returns (r: u32)
    ensures buffer.None? ==> r == Pack(Sums(1, 0))
    ensures buffer.Some? ==> (r == Pack(Adler(Unpack(adler0), buffer.value)) <==> !Unreduced(adler0, buffer.value))
  {
    hide Adler, Plain, Unpack;
    if buffer.Some? && |buffer.value| == 1 {
      r := OneByte(adler0, buffer.value[0]);
      assert buffer.value == [buffer.value[0]];
      return;
    }
    if buffer.None? { return 1; }
    if |buffer.value| < 16 { r := Short(adler0, buffer.value); } else { r := Blocks(adler0, buffer.value); }
  }

  /** adler32_z for fewer than 16 bytes. */
  method Short(adler0: u32, buf: seq<byte>) returns (r: u32)
    requires |buf| < 16
    ensures r == Pack(Adler(Unpack(adler0), buf))
  {
    hide Adler, Plain, Cap;
    ghost var s0 := Unpack(adler0);
    var adler: u32, sum2: u32 := adler0 % 65536, adler0 / 65536 % 65536;
    NothingYet(s0, buf, 0);
    assert buf[..|buf|] == buf && buf[0..|buf|] == buf;
    adler, sum2 := AddBytes(buf, 0, |buf|, adler, sum2, 0, s0);
    BlockEnd(s0, s0, buf, 0, |buf|);
    PlainBound(s0, buf);
    CapMono(|buf|, 15);
    ShortCap();
    adler := Once(adler);
    sum2 := Mod28(sum2);
    return adler + 65536 * sum2;
  }

  lemma ShortCap()
    ensures Cap(15) < 0x1000_0000
  {
  }

  /** The loops of adler32_z over whole blocks of NMAX bytes and the rest. */
  method Blocks(adler0: u32, buf: seq<byte>) returns (r: u32)
    requires |buf| >= 16
    ensures r == Pack(Adler(Unpack(adler0), buf))
  {
    hide Adler, Plain;
    ghost var s0 := Unpack(adler0);
    var adler: u32, sum2: u32 := adler0 % 65536, adler0 / 65536 % 65536;
    assert Sums(adler, sum2) == s0;
    hide Unpack, Reduced;
    NothingYet(s0, buf, 0);
    var pos, len := 0, |buf|;
    while len >= NMAX
      invariant 0 <= pos && 0 <= len && pos + len == |buf| && adler <= 65535 && sum2 <= 65535
      invariant Reduced(Sums(adler, sum2)) == Adler(s0, buf[..pos]) &&
                (pos > 0 ==> Sums(adler, sum2) == Adler(s0, buf[..pos]))
    {
      adler, sum2 := WholeBlock(buf, pos, adler, sum2, s0);
      FullyReduced(Sums(adler, sum2));
      pos, len := pos + NMAX, len - NMAX;
    }
    if len > 0 {
      adler, sum2 := LastBlock(buf, pos, len, adler, sum2, s0);
    }
    assert buf[..|buf|] == buf;
    r := adler + 65536 * sum2;
  }

  lemma FullyReduced(s: Sums)
    requires s.a < BASE && s.b < BASE
    ensures Reduced(s) == s
  {
  }

  /** One block of NMAX bytes, sixteen at a time. */
  method WholeBlock(buf: seq<byte>, from: nat, adler0: u32, sum0: u32, ghost s0: Sums) returns (adler: u32, sum2: u32)
    requires from + NMAX <= |buf| && adler0 <= 65535 && sum0 <= 65535 &&
             Reduced(Sums(adler0, sum0)) == Adler(s0, buf[..from])
    ensures adler < BASE && sum2 < BASE && Sums(adler, sum2) == Adler(s0, buf[..from + NMAX])
  {
    hide Adler, Plain;
    ghost var s := Sums(adler0, sum0);
    adler, sum2 := adler0, sum0;
    NothingYet(s, buf, from);
    var pos, n := from, NMAX / 16;
    while n > 0
      invariant 0 <= n <= NMAX / 16 && pos == from + NMAX - 16 * n && Sums(adler, sum2) == Plain(s, buf[from..pos])
    {
      adler, sum2 := AddBytes(buf, pos, 16, adler, sum2, from, s);
      pos, n := pos + 16, n - 1;
    }
    BlockEnd(s0, s, buf, from, pos);
    adler, sum2 := Mod(adler), Mod(sum2);
  }

  /** The remaining bytes, fewer than NMAX. */
  method LastBlock(buf: seq<byte>, from: nat, len0: nat, adler0: u32, sum0: u32, ghost s0: Sums)
    returns (adler: u32, sum2: u32)
    requires from + len0 == |buf| && len0 < NMAX && adler0 <= 65535 && sum0 <= 65535 &&
             Reduced(Sums(adler0, sum0)) == Adler(s0, buf[..from])
    ensures adler < BASE && sum2 < BASE && Sums(adler, sum2) == Adler(s0, buf[..|buf|])
  {
    hide Adler, Plain;
    ghost var s := Sums(adler0, sum0);
    adler, sum2 := adler0, sum0;
    NothingYet(s, buf, from);
    var pos, len := from, len0;
    while len >= 16
      invariant from <= pos && pos + len == |buf| && 0 <= len && Sums(adler, sum2) == Plain(s, buf[from..pos])
    {
      adler, sum2 := AddBytes(buf, pos, 16, adler, sum2, from, s);
      pos, len := pos + 16, len - 16;
    }
    adler, sum2 := AddBytes(buf, pos, len, adler, sum2, from, s);
    BlockEnd(s0, s, buf, from, |buf|);
    adler, sum2 := Mod(adler), Mod(sum2);
  }

  lemma NothingYet(s: Sums, buf: seq<byte>, from: nat)
    requires from <= |buf|
    ensures Plain(s, buf[from..from]) == s && Adler(s, buf[..0]) == Reduced(s)
  {
  }

  // ------------------------------------------------------------------ adler32_combine_

  /** The sums as polynomials in the start: a + sum, b + n a + weighted sum. */
  lemma {:induction false} PlainFrom(s: Sums, data: seq<byte>)
    ensures var z := Plain(Sums(0, 0), data); Plain(s, data) == Sums(s.a + z.a, s.b + |data| * s.a + z.b)
    decreases |data|
  {
    if data != [] {
      var n := |data| - 1;
      PlainFrom(s, data[..n]);
      assert (n + 1) * s.a == n * s.a + s.a;
    }
  }

  lemma ModMul(x: nat, y: nat)
    ensures exists k: int :: (x % BASE) * y == x * y + BASE * k
  {
    var q := x / BASE;
    assert x == BASE * q + x % BASE;
    assert (x % BASE) * y == x * y + BASE * (-(q * y)) by {
      assert (x % BASE) * y == (x - BASE * q) * y == x * y - (BASE * q) * y;
      MulAssoc(BASE, q, y);
    }
  }

  /** How the checksum of a text continues that of the text before it. */
  lemma CombineSums(s1: Sums, data: seq<byte>, a: nat, b: nat)
    requires s1.a < BASE && s1.b < BASE
    requires var s2 := Adler(Sums(1, 0), data); var rem := |data| % BASE;
      a == s1.a + s2.a + BASE - 1 && b == (rem * s1.a) % BASE + s1.b + s2.b + BASE - rem
    ensures Adler(s1, data) == Sums(a % BASE, b % BASE)
  {
    hide Adler, Plain;
    var z := Plain(Sums(0, 0), data);
    assert |data| * 1 == |data|;
    DeferredMod(s1, data);
    DeferredMod(Sums(1, 0), data);
    PlainFrom(s1, data);
    PlainFrom(Sums(1, 0), data);
    FirstSum(s1.a, z.a, a);
    SecondSum(s1.a, s1.b, z.b, |data|, b);
  }

  lemma FirstSum(a1: nat, za: nat, a: nat)
    requires a == a1 + (1 + za) % BASE + BASE - 1
    ensures a % BASE == (a1 + za) % BASE
  {
    Congruent(a, a1 + za, 1 - (1 + za) / BASE);
  }

  lemma SecondSum(a1: nat, b1: nat, zb: nat, n: nat, b: nat)
    requires b == (n % BASE * a1) % BASE + b1 + (n + zb) % BASE + BASE - n % BASE
    ensures b % BASE == (b1 + n * a1 + zb) % BASE
  {
    ModMul(n, a1);
    var rem := n % BASE;
    var k: int :| rem * a1 == n * a1 + BASE * k;
    var p, q := rem * a1, n * a1;
    assert p == BASE * (p / BASE) + p % BASE && n + zb == BASE * ((n + zb) / BASE) + (n + zb) % BASE &&
           n == BASE * (n / BASE) + rem;
    Congruent(b, b1 + q + zb, k - p / BASE - (n + zb) / BASE + 1 + n / BASE);
  }

  /** The C expression `lo | hi << 16` on 32-bit words; `lo` may have one bit too many. */
  function OrShifted(lo: nat, hi: nat): (r: u32)
    requires lo < 131072
    ensures lo < 65536 && hi < 65536 ==> r == Pack(Sums(lo, hi))
  {
    var h := hi % 65536;
    lo % 65536 + 65536 * (if lo >= 65536 && h % 2 == 0 then h + 1 else h)
  }

  /** The reductions at the end of adler32_combine_. */
  function Below3(v: nat): (r: nat)
    ensures r <= v && (v < 3 * BASE ==> r == v % BASE) && (v < 3 * 65536 ==> r < 131072)
  {
    Once(if v >= BASE then v - BASE else v)
  }

  function Below4(v: nat): (r: nat)
    ensures r <= v && (v < 4 * BASE ==> r == v % BASE)
  {
    Once(if v >= 2 * BASE then v - 2 * BASE else v)
  }

  /** adler32_combine_: from the checksum of a text and that of the next `len2` bytes, that of both together.
      A negative length gives an impossible checksum. */
  method Combine(adler1: u32, adler2: u32, len2: int, ghost data: seq<byte>) returns (r: u32)
    requires len2 < 0x8000_0000_0000_0000
    ensures len2 < 0 ==> r == 0xffff_ffff
    ensures Unpack(adler1).a < BASE && Unpack(adler1).b < BASE && len2 == |data| &&
            adler2 == Pack(Adler(Sums(1, 0), data)) ==>
              r == Pack(Adler(Unpack(adler1), data))
  {
    hide Adler, Below3, Below4, Mod, Mod63;
    if len2 < 0 { return 0xffff_ffff; }
    PackUnpack(Adler(Sums(1, 0), data));
    var rem := Mod63(len2);
    var sum1: u32 := adler1 % 65536;
    ProductFits(rem, sum1);
    var sum2: u32 := rem * sum1;
    sum2 := Mod(sum2);
    sum1 := sum1 + (adler2 % 65536) + BASE - 1;
    sum2 := sum2 + adler1 / 65536 % 65536 + adler2 / 65536 % 65536 + BASE - rem;
    if Unpack(adler1).a < BASE && Unpack(adler1).b < BASE && len2 == |data| && adler2 == Pack(Adler(Sums(1, 0), data)) {
      CombineSums(Unpack(adler1), data, sum1, sum2);
    }
    sum1 := Below3(sum1);
    sum2 := Below4(sum2);
    r := OrShifted(sum1, sum2);
  }

  lemma ProductFits(x: nat, y: nat)
    requires x < BASE && y < 65536
    ensures 0 <= x * y < 0x1_0000_0000
  {
    MulNonNeg(BASE - 1 - x, y);
    MulNonNeg(x, y);
    assert (BASE - 1 - x) * y == (BASE - 1) * y - x * y;
  }

  /** So combining the checksums of two texts gives the checksum of the one followed by the other. */
  lemma CombineLaw(x: seq<byte>, y: seq<byte>)
    ensures 0 <= Pack(Adler(Sums(1, 0), x)) < 0x1_0000_0000
    ensures Adler(Unpack(Pack(Adler(Sums(1, 0), x))), y) == Adler(Sums(1, 0), x + y)
  {
    hide Adler, Pack, Unpack;
    PackUnpack(Adler(Sums(1, 0), x));
    AdlerAppend(Sums(1, 0), x, y);
  }
}
