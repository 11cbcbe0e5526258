/**
  The tables shared by encoder, decoder and format machine, in the numbers of RFC 1951.
*/
module FormatTables {
  import opened Bits
  import opened Canonical
  import opened InflateTable
  import opened Format
  import opened BlockPlan
  import opened Encoding

  // ------------------------------------------------------------------ the order of the code length lengths

  /** The places of the order in section 3.2.7 of RFC 1951: first 16, 17, 18 and 0, then outwards from 8. */
  lemma OrderPlaces(k: nat)
    ensures k < 3 ==> ORDER[k] == 16 + k && RANK[16 + k] == k
    ensures |ORDER| == |RANK| == 19 && ORDER[3] == 0 && RANK[0] == 3
    ensures k < 8 ==> ORDER[4 + 2 * k] == 8 + k && RANK[8 + k] == 4 + 2 * k
    ensures k < 7 ==> ORDER[5 + 2 * k] == 7 - k && RANK[7 - k] == 5 + 2 * k
  {
    assert k == 0 || k == 1 || k == 2 || k == 3 || k == 4 || k == 5 || k == 6 || k == 7 || k >= 8;
  }

  /** The `k`th value sent, or zero. */
  function Sent(cl: seq<nat>, k: nat): (v: nat) { if k < |cl| then cl[k] else 0 }

  /** What the receiver makes of the values sent. */
  lemma ClensPlaces(cl: seq<nat>, k: nat)
    requires |cl| <= 19
    ensures k < 3 ==> ClensOf(cl)[16 + k] == Sent(cl, k)
    ensures ClensOf(cl)[0] == Sent(cl, 3)
    ensures k < 8 ==> ClensOf(cl)[8 + k] == Sent(cl, 4 + 2 * k)
    ensures k < 7 ==> ClensOf(cl)[7 - k] == Sent(cl, 5 + 2 * k)
  {
    hide ORDER, RANK;
    OrderPlaces(k);
  }

  /** What the sender sends for the lengths `lens`. */
  lemma ClPlaces(lens: seq<nat>, n: nat, k: nat)
    requires |lens| == 19 && n <= 19
    ensures k < 3 && k < n ==> ClOf(lens, n)[k] == lens[16 + k]
    ensures 3 < n ==> ClOf(lens, n)[3] == lens[0]
    ensures k < 8 && 4 + 2 * k < n ==> ClOf(lens, n)[4 + 2 * k] == lens[8 + k]
    ensures k < 7 && 5 + 2 * k < n ==> ClOf(lens, n)[5 + 2 * k] == lens[7 - k]
  {
    hide ORDER, RANK;
    OrderPlaces(k);
  }

  // ------------------------------------------------------------------ lengths and distances

  /** Section 3.2.5 of RFC 1951: eight length codes without extra bits, then four for each number of them, and a code of
      its own for 258. */
  lemma LengthRule(c: nat)
    requires c <= 28
    ensures |LBASE| == |LEXT| == 31
    ensures c < 8 ==> LBASE[c] == 3 + c && ExtraBits(LEXT[c]) == 0
    ensures 8 <= c < 28 ==>
              ExtraBits(LEXT[c]) == c / 4 - 1 && LBASE[c] == 3 + (4 + c % 4) * Pow2(c / 4 - 1)
    ensures c == 28 ==> LBASE[c] == 258 && ExtraBits(LEXT[c]) == 0
  {
    if 8 <= c < 28 { if c < 18 { LowLength(c); } else { HighLength(c); } }
  }

  lemma LowLength(c: nat)
    requires 8 <= c < 18
    ensures ExtraBits(LEXT[c]) == c / 4 - 1 && LBASE[c] == 3 + (4 + c % 4) * Pow2(c / 4 - 1)
  {
    Pow2Values();
    hide Pow2;
  }

  lemma HighLength(c: nat)
    requires 18 <= c < 28
    ensures ExtraBits(LEXT[c]) == c / 4 - 1 && LBASE[c] == 3 + (4 + c % 4) * Pow2(c / 4 - 1)
  {
    Pow2Values();
    hide Pow2;
  }

  /** Four distance codes without extra bits, then two for each number of them. */
  lemma DistanceRule(c: nat)
    requires c < 30
    ensures |DBASE| == |DEXT| == 32
    ensures c < 4 ==> DBASE[c] == 1 + c && ExtraBits(DEXT[c]) == 0
    ensures 4 <= c ==> ExtraBits(DEXT[c]) == c / 2 - 1 && DBASE[c] == 1 + (2 + c % 2) * Pow2(c / 2 - 1)
  {
    if c < 14 { LowDistance(c); } else if c < 22 { MiddleDistance(c); } else { HighDistance(c); }
  }

  lemma LowDistance(c: nat)
    requires c < 14
    ensures c < 4 ==> DBASE[c] == 1 + c && ExtraBits(DEXT[c]) == 0
    ensures 4 <= c ==> ExtraBits(DEXT[c]) == c / 2 - 1 && DBASE[c] == 1 + (2 + c % 2) * Pow2(c / 2 - 1)
  {
    MorePowers();
    hide Pow2;
  }

  lemma MiddleDistance(c: nat)
    requires 14 <= c < 22
    ensures ExtraBits(DEXT[c]) == c / 2 - 1 && DBASE[c] == 1 + (2 + c % 2) * Pow2(c / 2 - 1)
  {
    MorePowers();
    hide Pow2;
  }

  lemma HighDistance(c: nat)
    requires 22 <= c < 30
    ensures ExtraBits(DEXT[c]) == c / 2 - 1 && DBASE[c] == 1 + (2 + c % 2) * Pow2(c / 2 - 1)
  {
    MorePowers();
    hide Pow2;
  }

  lemma MorePowers()
    ensures Pow2(1) == 2 && Pow2(2) == 4 && Pow2(3) == 8 && Pow2(4) == 16 && Pow2(5) == 32 && Pow2(6) == 64
    ensures Pow2(7) == 128 && Pow2(8) == 256 && Pow2(9) == 512 && Pow2(10) == 1024 && Pow2(11) == 2048
    ensures Pow2(12) == 4096 && Pow2(13) == 8192
  {
    Pow2Values();
    assert Pow2(9) == 512;
    assert Pow2(12) == 4096;
  }

  // ------------------------------------------------------------------ repeats

  /** Section 3.2.7: symbol 16 repeats 3 to 6 times, 17 stands for 3 to 10 zeros, 18 for 11 to 138. */
  lemma RepeatRule()
    ensures RepBase(16) == 3 && RepBase(16) + Pow2(RepBits(16)) - 1 == 6
    ensures RepBase(17) == 3 && RepBase(17) + Pow2(RepBits(17)) - 1 == 10
    ensures RepBase(18) == 11 && RepBase(18) + Pow2(RepBits(18)) - 1 == 138
    ensures forall s :: 0 <= s < 16 ==> RepBits(s) == 0
  {
    Pow2Values();
  }

  // ------------------------------------------------------------------ the fixed codes

  /** The code of its own is used for 258, and for nothing else. */
  lemma LongestCode(len: nat)
    requires 3 <= len <= 258
    ensures LengthCode(len) == 28 <==> len == 258
  {
  }

  /** Section 3.2.6: literals 0 to 143 have the 8-bit codes from 00110000 on, 144 to 255 the 9-bit codes from 110010000
      on, 256 to 279 the 7-bit codes from 0000000 on, 280 to 287 the 8-bit codes from 11000000 on. */
  lemma FixedLitCodes(s: nat)
    requires s < 288
    ensures s < 144 ==> FixedLit()[s] == 8 && CodeValue(FixedLit(), s) == 0x30 + s
    ensures 144 <= s < 256 ==> FixedLit()[s] == 9 && CodeValue(FixedLit(), s) == 0x190 + (s - 144)
    ensures 256 <= s < 280 ==> FixedLit()[s] == 7 && CodeValue(FixedLit(), s) == s - 256
    ensures 280 <= s ==> FixedLit()[s] == 8 && CodeValue(FixedLit(), s) == 0xc0 + (s - 280)
  {
    FixedTops();
    FixedCount(s);
    hide Top, Count, FixedLit;
    FixedLength(s);
  }

  lemma FixedLength(s: nat)
    requires s < 288
    ensures FixedLit()[s] == if s < 144 then 8 else if s < 256 then 9 else if s < 280 then 7 else 8
  {
  }

  lemma FixedTops()
    ensures Top(FixedLit(), 6) == 0 && Top(FixedLit(), 7) == 24 && Top(FixedLit(), 8) == 200
  {
    hide FixedLit, FixedDist, Total;
    forall l: nat
      ensures Total(FixedLit(), l) == (if l == 7 then 24 else if l == 8 then 152 else if l == 9 then 112 else 0) {
      FixedTotals(l);
    }
    TopEmpty(FixedLit(), 6);
  }

  lemma FixedCount(s: nat)
    requires s < 288
    ensures Count(FixedLit(), FixedLit()[s], s) ==
              if s < 144 then s else if s < 256 then s - 144 else if s < 280 then s - 256 else 144 + (s - 280)
  {
    var f, l := FixedLit(), FixedLit()[s];
    assert Count(f, l, 0) == 0;
    hide Count;
    CountRun(f, l, 0, if s < 144 then s else 144, 8);
    if s >= 144 { CountRun(f, l, 144, if s < 256 then s else 256, 9); }
    if s >= 256 { CountRun(f, l, 256, if s < 280 then s else 280, 7); }
    if s >= 280 { CountRun(f, l, 280, s, 8); }
  }

  /** The fixed distance codes are the numbers 0 to 31 in five bits. */
  lemma FixedDistCodes(s: nat)
    requires s < 32
    ensures FixedDist()[s] == 5 && CodeValue(FixedDist(), s) == s
  {
    var f := FixedDist();
    assert Count(f, 5, 0) == 0;
    CountRun(f, 5, 0, s, 5);
    hide Count;
    forall l: nat ensures Total(f, l) == if l == 5 then 32 else 0 { FixedTotals(l); }
    hide Total;
    TopEmpty(f, 4);
  }
}
