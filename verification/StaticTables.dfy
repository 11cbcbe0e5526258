/**
  trees.c, tr_static_init: the mappings from lengths and distances to their codes, and the codes of
  the fixed trees of section 3.2.6 of RFC 1951.
*/
module StaticTables {
  import opened Bits
  import opened Canonical
  import opened InflateTable
  import opened Format
  import opened Encoding
  import opened GenCodes
  import opened CodeLengths

  const EXTRA_L: seq<nat> := [0, 0, 0, 0, 0, 0, 0, 0, 1, 1, 1, 1, 2, 2, 2, 2, 3, 3, 3, 3, 4, 4, 4, 4, 5, 5, 5, 5, 0]
  const EXTRA_D: seq<nat> := [0, 0, 0, 0, 1, 1, 2, 2, 3, 3, 4, 4, 5, 5, 6, 6, 7, 7, 8, 8, 9, 9, 10, 10, 11, 11, 12, 12,
                              13, 13]
  const EXTRA_BL: seq<nat> := [0, 0, 0, 0, 0, 0, 0, 0, 0, 0, 0, 0, 0, 0, 0, 0, 2, 3, 7]

  const L_CODES: nat := 286
  const D_CODES: nat := 30
  const LENGTH_CODES: nat := 29
  const END_BLOCK: nat := 256
  const LITERALS: nat := 256

  lemma ExtraLengths(c: nat)
    requires c < LENGTH_CODES
    ensures ExtraBits(LEXT[c]) == EXTRA_L[c] <= 5
  {
  }

  lemma ExtraDists(c: nat)
    requires c < D_CODES
    ensures ExtraBits(DEXT[c]) == EXTRA_D[c] <= 13
  {
  }

  lemma {:induction false} LengthBasesGrow(a: nat, b: nat)
    requires a < b <= 28
    ensures LBASE[a] + Pow2(EXTRA_L[a]) <= if b == 28 then 259 else LBASE[b]
    decreases b
  {
    hide Pow2, ExtraBits;
    LengthTable(a);
    ExtraLengths(a);
    if a + 1 < b {
      LengthTable(b - 1);
      LengthBasesGrow(a, b - 1);
    }
  }

  lemma {:induction false} DistBasesGrow(a: nat, b: nat)
    requires a < b <= 30
    ensures DBASE[a] + Pow2(EXTRA_D[a]) <= if b == 30 then 32769 else DBASE[b]
    decreases b
  {
    hide Pow2, ExtraBits;
    DistTable(a);
    ExtraDists(a);
    if a + 1 < b {
      DistTable(b - 1);
      DistBasesGrow(a, b - 1);
    }
  }

  lemma LengthCodeIs(c: nat, len: nat)
    requires c < 28 && 3 <= len < 258 && LBASE[c] <= len < LBASE[c] + Pow2(EXTRA_L[c])
    ensures LengthCode(len) == c
  {
    hide Pow2, ExtraBits, LastAtMost;
    var r := LengthCode(len);
    LengthFits(len);
    ExtraLengths(r);
    if r < c { LengthBasesGrow(r, c); } else if c < r { LengthBasesGrow(c, r); }
  }

  lemma DistCodeIs(c: nat, dist: nat)
    requires c < 30 && 1 <= dist <= 32768 && DBASE[c] <= dist < DBASE[c] + Pow2(EXTRA_D[c])
    ensures DistCode(dist) == c
  {
    hide Pow2, ExtraBits, LastAtMost;
    var r := DistCode(dist);
    DistFits(dist);
    ExtraDists(r);
    if r < c { DistBasesGrow(r, c); } else if c < r { DistBasesGrow(c, r); }
  }

  datatype Tables = Tables(lengthCode: seq<nat>, baseLength: seq<nat>, distCode: seq<nat>, baseDist: seq<nat>,
                           lcodes: seq<nat>, dcodes: seq<nat>)

  /** The macro d_code: `d` is a distance less one. */
  function DCode(distCode: seq<nat>, d: nat): (c: nat)
    requires |distCode| == 512 && d < 32768
  {
    if d < 256 then distCode[d] else distCode[256 + d / 128]
  }

  ghost predicate LengthMap(lengthCode: seq<nat>, baseLength: seq<nat>)
  {
    |lengthCode| == 256 && |baseLength| == LENGTH_CODES &&
    (forall i :: 0 <= i < 256 ==> lengthCode[i] == LengthCode(i + 3)) &&
    forall c :: 0 <= c < 28 ==> baseLength[c] + 3 == LBASE[c]
  }

  ghost predicate DistMap(distCode: seq<nat>, baseDist: seq<nat>)
  {
    |distCode| == 512 && |baseDist| == D_CODES &&
    (forall d :: 0 <= d < 32768 ==> DCode(distCode, d) == DistCode(d + 1)) &&
    forall c :: 0 <= c < D_CODES ==> baseDist[c] + 1 == DBASE[c]
  }

  ghost predicate FixedTrees(lcodes: seq<nat>, dcodes: seq<nat>)
  {
    AllCoded(FixedLit(), lcodes) && |dcodes| == D_CODES &&
    forall n :: 0 <= n < D_CODES ==> FixedDist()[n] == 5 && Coded(FixedDist(), n, dcodes[n])
  }

  ghost predicate ValidTables(t: Tables)
  {
    LengthMap(t.lengthCode, t.baseLength) && DistMap(t.distCode, t.baseDist) && FixedTrees(t.lcodes, t.dcodes)
  }

  lemma TableSizes()
    ensures |LBASE| == 31 && |EXTRA_L| == 29 && LBASE[0] == 3 && |DBASE| >= 30 && |EXTRA_D| == 30 && DBASE[0] == 1 &&
            DBASE[16] == 257
  {
  }

  /** 1 << n for the small tables. */
  function Shl1(n: nat): (p: nat)
    ensures p == Pow2(n)
  {
    Pow2(n)
  }

  method LengthTables() returns (lengthCode: seq<nat>, baseLength: seq<nat>)
    ensures LengthMap(lengthCode, baseLength)
  {
    hide Pow2, LengthCode, ExtraBits, LBASE, EXTRA_L, LEXT;
    var lc, bl := new nat[256], new nat[LENGTH_CODES];
    var length: nat, code: nat := 0, 0;
    TableSizes();
    while code < LENGTH_CODES - 1
      invariant code <= 28 && length + 3 == (if code == 28 then 259 else LBASE[code])
      invariant forall i :: 0 <= i < length && i < 255 ==> lc[i] == LengthCode(i + 3)
      invariant forall c :: 0 <= c < code ==> bl[c] + 3 == LBASE[c]
    {
      bl[code] := length;
      LengthTable(code);
      ExtraLengths(code);
      LengthBasesGrow(code, 28);
      var n := 0;
      while n < Shl1(EXTRA_L[code])
        invariant 0 <= n <= Pow2(EXTRA_L[code]) && length + 3 == LBASE[code] + n
        invariant forall i :: 0 <= i < length && i < 255 ==> lc[i] == LengthCode(i + 3)
        invariant forall c :: 0 <= c < code + 1 ==> bl[c] + 3 == LBASE[c]
        decreases Pow2(EXTRA_L[code]) - n
      {
        if length < 255 { LengthCodeIs(code, length + 3); }
        lc[length] := code;
        length := length + 1;
        n := n + 1;
      }
      code := code + 1;
    }
    lc[length - 1] := code;
    LongestLength();
    lengthCode, baseLength := lc[..], bl[..];
  }

  lemma LongestLength()
    ensures LengthCode(258) == 28
  {
  }

  /** The first half of the distance table holds distances up to 256, the second half the upper bits of longer ones. */
  ghost predicate DistsDone(dc: seq<nat>, near: nat, far: nat)
  {
    |dc| == 512 && near <= 256 && far <= 256 && (forall d :: 0 <= d < near ==> dc[d] == DistCode(d + 1)) &&
    forall d :: 256 <= d < 128 * far ==> dc[256 + d / 128] == DistCode(d + 1)
  }

  lemma NearStep(dc: seq<nat>, code: nat, dist: nat)
    requires DistsDone(dc, dist, 0) && code < 16 && dist < 256 &&
             DBASE[code] <= dist + 1 < DBASE[code] + Pow2(EXTRA_D[code])
    ensures DistsDone(dc[dist := code], dist + 1, 0)
  {
    hide Pow2, DistCode, DBASE, EXTRA_D;
    DistCodeIs(code, dist + 1);
  }

  lemma FarStep(dc: seq<nat>, code: nat, far: nat)
    requires DistsDone(dc, 256, far) && 2 <= far < 256 && code < 30 && DBASE[code] <= 128 * far + 1
    requires 128 * far + 128 < DBASE[code] + Pow2(EXTRA_D[code]) <= 32769
    ensures DistsDone(dc[256 + far := code], 256, far + 1)
  {
    hide Pow2, DistCode;
    forall d | 256 <= d < 128 * (far + 1) ensures dc[256 + far := code][256 + d / 128] == DistCode(d + 1) {
      if d >= 128 * far { DistCodeIs(code, d + 1); }
    }
  }

  method DistTables() returns (distCode: seq<nat>, baseDist: seq<nat>)
    ensures DistMap(distCode, baseDist)
  {
    hide Pow2, DistCode, ExtraBits, DistsDone, DBASE, EXTRA_D, DEXT;
    var dc, bd := new nat[512], new nat[D_CODES];
    var dist: nat, code: nat := 0, 0;
    TableSizes();
    StartDists(dc[..]);
    while code < 16
      invariant code <= 16 && dist + 1 == DBASE[code] && DistsDone(dc[..], dist, 0)
      invariant forall c :: 0 <= c < code ==> bd[c] + 1 == DBASE[c]
    {
      bd[code] := dist;
      DistTable(code);
      ExtraDists(code);
      NearEnd(code);
      var n := 0;
      while n < Shl1(EXTRA_D[code])
        invariant 0 <= n <= Pow2(EXTRA_D[code]) && dist + 1 == DBASE[code] + n && DistsDone(dc[..], dist, 0)
        invariant forall c :: 0 <= c < code + 1 ==> bd[c] + 1 == DBASE[c]
        decreases Pow2(EXTRA_D[code]) - n
      {
        NearStep(dc[..], code, dist);
        ghost var was := dc[..];
        dc[dist] := code;
        assert dc[..] == was[dist := code];
        dist := dist + 1;
        n := n + 1;
      }
      code := code + 1;
    }
    StartFar(dc[..]);
    dist := dist / 128;
    while code < D_CODES
      invariant 16 <= code <= D_CODES && 2 <= dist && 128 * dist + 1 == (if code == D_CODES then 32769 else DBASE[code])
      invariant DistsDone(dc[..], 256, dist)
      invariant forall c :: 0 <= c < code ==> bd[c] + 1 == DBASE[c]
    {
      bd[code] := dist * 128;
      DistTable(code);
      ExtraDists(code);
      DistBasesGrow(code, 30);
      FarSize(code);
      var n := 0;
      while n < Shl1(EXTRA_D[code] - 7)
        invariant 0 <= n <= Pow2(EXTRA_D[code] - 7) && 2 <= dist && 128 * dist + 1 == DBASE[code] + 128 * n &&
                  DistsDone(dc[..], 256, dist)
        invariant forall c :: 0 <= c < code + 1 ==> bd[c] + 1 == DBASE[c]
        decreases Pow2(EXTRA_D[code] - 7) - n
      {
        FarStep(dc[..], code, dist);
        ghost var was := dc[..];
        dc[256 + dist] := code;
        assert dc[..] == was[256 + dist := code];
        dist := dist + 1;
        n := n + 1;
      }
      code := code + 1;
    }
    distCode, baseDist := dc[..], bd[..];
    DistsAll(distCode);
  }

  lemma StartDists(dc: seq<nat>)
    requires |dc| == 512
    ensures DBASE[0] == 1 && DistsDone(dc, 0, 0)
  {
  }

  lemma StartFar(dc: seq<nat>)
    requires DistsDone(dc, 256, 0)
    ensures DBASE[16] == 257 && DistsDone(dc, 256, 2)
  {
  }

  lemma NearEnd(code: nat)
    requires code < 16
    ensures DBASE[code] + Pow2(EXTRA_D[code]) <= 257 && DBASE[16] == 257
  {
    DistBasesGrow(code, 16);
  }

  lemma FarSize(code: nat)
    requires 16 <= code < 30
    ensures EXTRA_D[code] >= 7 && Pow2(EXTRA_D[code]) == 128 * Pow2(EXTRA_D[code] - 7)
  {
    Pow2All();
    hide Pow2;
  }

  lemma DistsAll(dc: seq<nat>)
    requires DistsDone(dc, 256, 256)
    ensures |dc| == 512 && forall d :: 0 <= d < 32768 ==> DCode(dc, d) == DistCode(d + 1)
  {
  }

  /** Fills `len` into the symbols from..to and counts them. */
  method FillLengths(dl: array<nat>, from: nat, to: nat, len: nat, bl0: seq<nat>) returns (bl: seq<nat>)
    requires from <= to <= dl.Length && len < |bl0|
    modifies dl
    ensures forall i :: from <= i < to ==> dl[i] == len
    ensures forall i :: 0 <= i < dl.Length && !(from <= i < to) ==> dl[i] == old(dl[i])
    ensures bl == bl0[len := bl0[len] + (to - from)]
  {
    bl := bl0;
    var n := from;
    while n < to
      invariant from <= n <= to && bl == bl0[len := bl0[len] + (n - from)]
      invariant forall i :: from <= i < n ==> dl[i] == len
      invariant forall i :: 0 <= i < dl.Length && !(from <= i < n) ==> dl[i] == old(dl[i])
    {
      dl[n] := len;
      bl := bl[len := bl[len] + 1];
      n := n + 1;
    }
  }

  lemma FixedCounts(bl: seq<nat>)
    requires |bl| == MAX_BITS + 1
    requires forall l :: 0 <= l <= MAX_BITS ==>
               bl[l] == if l == 7 then 24 else if l == 8 then 152 else if l == 9 then 112 else 0
    ensures LengthCounts(FixedLit(), bl) && Fits(FixedLit()) && Bounded(FixedLit(), MAX_BITS)
  {
    hide FixedLit, FixedDist, Total, Top, Pow2, Fits, ValidCodes;
    forall l | 1 <= l <= MAX_BITS ensures bl[l] == Total(FixedLit(), l) { FixedTotals(l); }
    FixedValid();
    CompleteFits(FixedLit(), MAX_BITS);
  }

  lemma FixedDistCode(n: nat)
    requires n < 32
    ensures FixedDist()[n] == 5 && CodeValue(FixedDist(), n) == n
  {
    var g := FixedDist();
    forall l | 1 <= l <= 4 ensures Total(g, l) == 0 { FixedTotals(l); }
    TopEmpty(g, 4);
    Format.CountRun(g, 5, 0, n, 5);
  }

  method LiteralTree() returns (lcodes: seq<nat>)
    ensures AllCoded(FixedLit(), lcodes)
  {
    hide LengthCounts, Fits, Coded;
    var fc, dl := new nat[L_CODES + 2], new nat[L_CODES + 2];
    var bl := [0, 0, 0, 0, 0, 0, 0, 0, 0, 0, 0, 0, 0, 0, 0, 0];
    bl := FillLengths(dl, 0, 144, 8, bl);
    bl := FillLengths(dl, 144, 256, 9, bl);
    bl := FillLengths(dl, 256, 280, 7, bl);
    bl := FillLengths(dl, 280, 288, 8, bl);
    FixedCounts(bl);
    assert dl[..L_CODES + 1 + 1] == FixedLit();
    GenCodes.GenCodes(fc, dl, L_CODES + 1, bl);
    lcodes := fc[..];
  }

  method DistTree() returns (dcodes: seq<nat>)
    ensures |dcodes| == D_CODES &&
            forall n :: 0 <= n < D_CODES ==> FixedDist()[n] == 5 && Coded(FixedDist(), n, dcodes[n])
  {
    hide Coded, FixedDist;
    forall n | 0 <= n < D_CODES ensures FixedDist()[n] == 5 { FixedDistCode(n); }
    dcodes := [];
    var n: nat := 0;
    while n < D_CODES
      invariant n <= D_CODES && |dcodes| == n
      invariant forall i :: 0 <= i < n ==> FixedDist()[i] == 5 && Coded(FixedDist(), i, dcodes[i])
    {
      var c := BiReverse(n, 5);
      FixedDistCode(n);
      IsCoded(FixedDist(), n, c);
      dcodes := dcodes + [c];
      n := n + 1;
    }
  }

  /** tr_static_init. */
  method StaticInit() returns (t: Tables)
    ensures ValidTables(t)
  {
    hide LengthMap, DistMap;
    var lengthCode, baseLength := LengthTables();
    var distCode, baseDist := DistTables();
    var lcodes := LiteralTree();
    var dcodes := DistTree();
    t := Tables(lengthCode, baseLength, distCode, baseDist, lcodes, dcodes);
  }
}
