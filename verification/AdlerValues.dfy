/**
  Adler-32 in numbers: the modulus, and the checksum of a text.
*/
module AdlerValues {
  import opened Bits
  import opened Adler32

  predicate Prime(n: nat) { n >= 2 && forall d :: 2 <= d < n ==> n % d != 0 }

  lemma NoSmallFactor(d: int, q: int)
    requires 2 <= d < 256
    ensures d * q != BASE
  {
  }

  lemma Cofactor(d: nat, q: nat)
    requires d >= 256
    ensures q >= 256 ==> d * q >= 65536
    ensures q <= 1 ==> d * q <= d
  {
    if q >= 256 {
      MulNonNeg(d - 256, q);
      assert d * q == 256 * q + (d - 256) * q;
    }
  }

  /** Of a divisor and its cofactor one is below 256. */
  lemma NoDivisors(d: nat)
    requires 2 <= d < BASE
    ensures BASE % d != 0
  {
    var q := BASE / d;
    assert BASE == d * q + BASE % d;
    if d < 256 {
      NoSmallFactor(d, q);
    } else {
      Cofactor(d, q);
      if 2 <= q < 256 { NoSmallFactor(q, d); }
      assert q * d == d * q;
    }
  }

  lemma Composite(n: nat, d: nat)
    requires 2 <= d < n && n % d == 0
    ensures !Prime(n)
  {
  }

  /** The modulus is the largest prime below 65536. */
  lemma BaseIsLargestPrime(n: nat)
    ensures Prime(BASE) && (BASE < n < 65536 ==> !Prime(n))
  {
    forall d | 2 <= d < BASE ensures BASE % d != 0 { NoDivisors(d); }
    if BASE < n < 65536 {
      if n % 2 == 0 { Composite(n, 2); }
      else if n % 3 == 0 { Composite(n, 3); }
      else if n == 65525 { Composite(n, 5); }
      else if n == 65527 { Composite(n, 7); }
      else if n == 65531 { Composite(n, 19); }
      else { assert n == 65533; Composite(n, 13); }
    }
  }

  lemma Continue(s: Sums, data: seq<byte>, x: byte)
    ensures Adler(s, data + [x]) == AdlerStep(Adler(s, data), x)
  {
    assert (data + [x])[..|data|] == data;
  }

  /** The sums after "Wikipedia". */
  lemma SumsOfText()
    ensures Adler(Sums(1, 0), [0x57, 0x69, 0x6b, 0x69, 0x70, 0x65, 0x64, 0x69, 0x61]) == Sums(0x398, 0x11e6)
  {
    var s := Sums(1, 0);
    assert Adler(s, []) == s;
    hide Adler, AdlerStep;
    Next(s, [], s, 0x57, Sums(0x58, 0x58));
    Next(s, [] + [0x57], Sums(0x58, 0x58), 0x69, Sums(0xc1, 0x119));
    var two := [] + [0x57] + [0x69];
    Next(s, two, Sums(0xc1, 0x119), 0x6b, Sums(0x12c, 0x245));
    Next(s, two + [0x6b], Sums(0x12c, 0x245), 0x69, Sums(0x195, 0x3da));
    var four := two + [0x6b] + [0x69];
    SumsOfRest(s, four);
    assert four + [0x70] + [0x65] + [0x64] + [0x69] + [0x61] ==
           [0x57, 0x69, 0x6b, 0x69, 0x70, 0x65, 0x64, 0x69, 0x61];
  }

  lemma SumsOfRest(s: Sums, e: seq<byte>)
    requires Adler(s, e) == Sums(0x195, 0x3da)
    ensures Adler(s, e + [0x70] + [0x65] + [0x64] + [0x69] + [0x61]) == Sums(0x398, 0x11e6)
  {
    hide Adler, AdlerStep;
    Next(s, e, Sums(0x195, 0x3da), 0x70, Sums(0x205, 0x5df));
    Next(s, e + [0x70], Sums(0x205, 0x5df), 0x65, Sums(0x26a, 0x849));
    Next(s, e + [0x70] + [0x65], Sums(0x26a, 0x849), 0x64, Sums(0x2ce, 0xb17));
    Next(s, e + [0x70] + [0x65] + [0x64], Sums(0x2ce, 0xb17), 0x69, Sums(0x337, 0xe4e));
    Next(s, e + [0x70] + [0x65] + [0x64] + [0x69], Sums(0x337, 0xe4e), 0x61, Sums(0x398, 0x11e6));
  }

  lemma Next(s: Sums, data: seq<byte>, r: Sums, x: byte, t: Sums)
    requires Adler(s, data) == r && r.a + x < BASE && r.b + r.a + x < BASE && t == Sums(r.a + x, r.b + r.a + x)
    ensures Adler(s, data + [x]) == t
  {
    Continue(s, data, x);
  }
}
