/**
  trees.c, compress_block and send_all_trees: sending a token buffer and a dynamic header.
*/
module CompressBlock {
  import opened Bits
  import opened Canonical
  import opened InflateTable
  import opened Format
  import opened Encoding
  import opened BitWriter
  import opened StaticTables
  import opened GenCodes
  import opened CodeLengths
  import opened BlockPlan

  /** An entry of d_buf and l_buf: distance zero marks a literal. */
  function TokenOf(d: nat, l: byte): (t: Token)
  {
    if d == 0 then Literal(l) else Copy(l + 3, d)
  }

  function TokensOf(dist: seq<nat>, lc: seq<byte>): (ts: seq<Token>)
    requires |dist| == |lc|
    ensures |ts| == |dist| && forall i :: 0 <= i < |ts| ==> ts[i] == TokenOf(dist[i], lc[i])
  {
    seq(|dist|, i requires 0 <= i < |dist| => TokenOf(dist[i], lc[i]))
  }

  /** The first symbols of `lens`, those a token can need, have their codes in `fc`. */
  ghost predicate CodedUpTo(lens: seq<nat>, fc: seq<nat>, n: nat)
  {
    Bounded(lens, MAX_BITS) &&
    forall i :: 0 <= i < |lens| && i < n && lens[i] >= 1 ==> i < |fc| && Coded(lens, i, fc[i])
  }

  lemma AllCodedUpTo(lens: seq<nat>, fc: seq<nat>, n: nat)
    requires AllCoded(lens, fc)
    ensures CodedUpTo(lens, fc, n)
  {
  }

  method SendSymbol(w: Writer, lens: seq<nat>, fc: seq<nat>, n: nat, sym: nat)
    requires w.Valid() && CodedUpTo(lens, fc, n) && sym < |lens| && sym < n && lens[sym] >= 1
    requires sym < |fc|
    modifies w`pending, w`biBuf, w`biValid
    ensures w.Valid() && w.Sent() == old(w.Sent()) + Code(lens, sym)
  {
    hide w.Sent;
    w.SendBits(fc[sym], lens[sym]);
  }

  /** Sends `extra` low bits unless there are none. */
  method SendExtra(w: Writer, v: nat, extra: nat)
    requires w.Valid() && extra <= 16 && v < Pow2(extra)
    modifies w`pending, w`biBuf, w`biValid
    ensures w.Valid() && w.Sent() == old(w.Sent()) + ToBits(v, extra)
  {
    hide w.Sent, Pow2;
    if extra != 0 {
      w.SendBits(v, extra);
    } else {
      NoBits(v);
      assert w.Sent() + [] == w.Sent();
    }
  }

  lemma NoBits(v: nat)
    ensures ToBits(v, 0) == []
  {
  }

  lemma LengthExtra(t: Tables, l: byte)
    requires ValidTables(t)
    ensures |t.lengthCode| == 256 && |t.baseLength| == LENGTH_CODES && |EXTRA_L| == LENGTH_CODES
    ensures t.lengthCode[l] == LengthCode(l + 3) < LENGTH_CODES
    ensures var c := LengthCode(l + 3);
            EXTRA_L[c] == ExtraBits(LEXT[c]) <= 5 && |LBASE| >= LENGTH_CODES && LBASE[c] <= l + 3 &&
            l + 3 - LBASE[c] < Pow2(EXTRA_L[c]) &&
            (EXTRA_L[c] != 0 ==> t.baseLength[c] <= l && l - t.baseLength[c] == l + 3 - LBASE[c])
  {
    hide Pow2, LengthCode, ExtraBits, DistMap, FixedTrees, EXTRA_L, LBASE, LEXT;
    TableSizes();
    LengthFits(l + 3);
    ExtraLengths(LengthCode(l + 3));
    NoExtra28();
  }

  lemma NoExtra28()
    ensures |EXTRA_L| == 29 && EXTRA_L[28] == 0 && |LEXT| >= 29
  {
  }

  lemma DistExtra(t: Tables, d: nat)
    requires ValidTables(t) && 1 <= d <= 32768
    ensures |t.distCode| == 512 && |t.baseDist| == D_CODES && |EXTRA_D| == D_CODES
    ensures DCode(t.distCode, d - 1) == DistCode(d) < D_CODES
    ensures var c := DistCode(d);
            EXTRA_D[c] == ExtraBits(DEXT[c]) <= 13 && |DBASE| >= D_CODES && t.baseDist[c] <= d - 1 &&
            d - 1 - t.baseDist[c] == d - DBASE[c] < Pow2(EXTRA_D[c])
  {
    hide Pow2, DistCode, ExtraBits, LengthMap, FixedTrees, EXTRA_D, DBASE, DEXT;
    TableSizes();
    DistFits(d);
    ExtraDists(DistCode(d));
  }

  /** Sends a symbol and its extra bits. */
  method SendWithExtra(w: Writer, lens: seq<nat>, fc: seq<nat>, n: nat, sym: nat, v: nat, extra: nat)
    requires w.Valid() && CodedUpTo(lens, fc, n) && sym < |lens| && sym < n && lens[sym] >= 1 && sym < |fc| &&
             extra <= 16 && v < Pow2(extra)
    modifies w`pending, w`biBuf, w`biValid
    ensures w.Valid() && w.Sent() == old(w.Sent()) + (Code(lens, sym) + ToBits(v, extra))
  {
    hide w.Sent, w.Valid, CodedUpTo, Code, Pow2, ToBits;
    SeqAssoc(w.Sent(), Code(lens, sym), ToBits(v, extra));
    SendSymbol(w, lens, fc, n, sym);
    SendExtra(w, v, extra);
  }

  /** The extra bits of a length as the code computes them. */
  lemma LengthRest(t: Tables, l: byte)
    requires ValidTables(t)
    ensures |t.lengthCode| == 256 && |t.baseLength| == LENGTH_CODES && |EXTRA_L| == LENGTH_CODES
    ensures var c := t.lengthCode[l];
            c < LENGTH_CODES && c == LengthCode(l + 3) && EXTRA_L[c] <= 5 &&
            (EXTRA_L[c] != 0 ==> t.baseLength[c] <= l) &&
            var v := if EXTRA_L[c] != 0 then l - t.baseLength[c] else 0;
            v < Pow2(EXTRA_L[c]) && ToBits(v, EXTRA_L[c]) == ToBits(l + 3 - LBASE[c], ExtraBits(LEXT[c]))
  {
    hide ValidTables, LengthCode, ExtraBits, ToBits, EXTRA_L, LBASE, LEXT;
    LengthExtra(t, l);
    NoExtra28();
    NoBits(0);
    NoBits(l + 3 - LBASE[t.lengthCode[l]]);
  }

  /** Sends one entry of the token buffer. */
  method SendToken(w: Writer, t: Tables, ghost k: Codes, lcodes: seq<nat>, dcodes: seq<nat>, ll: seq<nat>, dl: seq<nat>,
                   d: nat, l: byte)
    requires w.Valid() && ValidTables(t) && k == Codes(ll, dl) && CodedUpTo(ll, lcodes, L_CODES) &&
             CodedUpTo(dl, dcodes, D_CODES)
    requires d <= 32768 && Encodable(k, TokenOf(d, l))
    modifies w`pending, w`biBuf, w`biValid
    ensures w.Valid() && w.Sent() == old(w.Sent()) + TokenBits(k, TokenOf(d, l))
  {
    hide w.Sent, w.Valid, ValidTables, Coded, Code, LengthCode, DistCode, ExtraBits, Pow2, ToBits;
    hide EXTRA_L, EXTRA_D, LBASE, DBASE, LEXT, DEXT, DCode;
    if d == 0 {
      SendSymbol(w, ll, lcodes, L_CODES, l);
      return;
    }
    LengthRest(t, l);
    DistExtra(t, d);
    DistSizes();
    SeqAssoc(w.Sent(), LengthBits(k, l + 3), DistBits(k, d));
    var code := t.lengthCode[l];
    var rest := 0;
    if EXTRA_L[code] != 0 { rest := l - t.baseLength[code]; }
    SendWithExtra(w, ll, lcodes, L_CODES, code + LITERALS + 1, rest, EXTRA_L[code]);
    code := DCode(t.distCode, d - 1);
    SendWithExtra(w, dl, dcodes, D_CODES, code, d - 1 - t.baseDist[code], EXTRA_D[code]);
  }

  lemma DistSizes()
    ensures |DBASE| >= 30 && |DEXT| >= 30
  {
  }

  lemma TokensRest(dist: seq<nat>, lc: seq<byte>, i: nat)
    requires |dist| == |lc| && i < |dist|
    ensures var r := TokensOf(dist, lc)[i..];
            r != [] && r[0] == TokenOf(dist[i], lc[i]) && r[1..] == TokensOf(dist, lc)[i + 1..]
  {
  }

  lemma EncodableRest(k: Codes, ts: seq<Token>, i: nat)
    requires AllEncodable(k, ts) && i <= |ts|
    ensures AllEncodable(k, ts[i..])
  {
    hide Encodable;
  }

  /** compress_block: sends the token buffer and the end of block. */
  method CompressBlock(w: Writer, t: Tables, dist: seq<nat>, lc: seq<byte>, ll: seq<nat>, lcodes: seq<nat>,
                       dl: seq<nat>, dcodes: seq<nat>)
    requires w.Valid() && ValidTables(t) && CodedUpTo(ll, lcodes, L_CODES) && CodedUpTo(dl, dcodes, D_CODES)
    requires |dist| == |lc| && (forall i :: 0 <= i < |dist| ==> dist[i] <= 32768) &&
             AllEncodable(Codes(ll, dl), TokensOf(dist, lc))
    modifies w`pending, w`biBuf, w`biValid
    ensures w.Valid() && w.Sent() == old(w.Sent()) + DataBits(Codes(ll, dl), TokensOf(dist, lc))
  {
    hide w.Sent, w.Valid, ValidTables, CodedUpTo, Code, TokensOf, AllEncodable, Encodable, TokenBits;
    ghost var k, ts := Codes(ll, dl), TokensOf(dist, lc);
    var lx: nat := 0;
    assert ts[0..] == ts;
    while lx < |dist|
      invariant lx <= |dist| && w.Valid() && AllEncodable(k, ts[lx..])
      invariant w.Sent() + DataBits(k, ts[lx..]) == old(w.Sent()) + DataBits(k, ts)
    {
      TokensRest(dist, lc, lx);
      EncodableRest(k, ts[lx..], 1);
      FirstEncodable(k, ts[lx..]);
      SeqAssoc(w.Sent(), TokenBits(k, ts[lx..][0]), DataBits(k, ts[lx + 1..]));
      SendToken(w, t, k, lcodes, dcodes, ll, dl, dist[lx], lc[lx]);
      lx := lx + 1;
    }
    EndSymbol(k, ll, lcodes, ts[lx..]);
    SendSymbol(w, ll, lcodes, L_CODES, END_BLOCK);
  }

  lemma FirstEncodable(k: Codes, ts: seq<Token>)
    requires AllEncodable(k, ts) && ts != []
    ensures Encodable(k, ts[0])
  {
  }

  lemma EndSymbol(k: Codes, ll: seq<nat>, lcodes: seq<nat>, ts: seq<Token>)
    requires AllEncodable(k, ts) && k.ll == ll && CodedUpTo(ll, lcodes, L_CODES)
    ensures |ll| > 256 && ll[256] >= 1 && |lcodes| > 256 && (ts == [] ==> DataBits(k, ts) == Code(ll, 256))
  {
  }

  // ------------------------------------------------------------------ send_all_trees

  lemma {:induction false} ClBitsSnoc(cl: seq<nat>, v: nat)
    ensures ClBits(cl + [v]) == ClBits(cl) + ToBits(v, 3)
    decreases |cl|
  {
    if cl == [] {
      assert [v][1..] == [];
      assert ClBits([v]) == ToBits(v, 3) + [];
      assert ToBits(v, 3) + [] == ToBits(v, 3);
      assert cl + [v] == [v];
      assert ClBits(cl) + ToBits(v, 3) == ToBits(v, 3);
    } else {
      ClBitsSnoc(cl[1..], v);
      assert (cl + [v])[1..] == cl[1..] + [v];
      SeqAssoc(ToBits(cl[0], 3), ClBits(cl[1..]), ToBits(v, 3));
    }
  }

  /** send_all_trees: the counts, the code length code, and both trees. */
  method SendAllTrees(w: Writer, ldl: array<nat>, lmax: nat, ddl: array<nat>, dmax: nat, clens: seq<nat>,
                      bcodes: seq<nat>, blcodes: nat)
    requires w.Valid() && 256 <= lmax < 286 && dmax < 30 && 4 <= blcodes <= BL_CODES
    requires AllCoded(clens, bcodes) && |clens| == BL_CODES && Bounded(clens, 7)
    requires lmax + 1 < ldl.Length && ldl[lmax + 1] == GUARD && Bounded(ldl[..lmax + 1], MAX_BITS)
    requires dmax + 1 < ddl.Length && ddl[dmax + 1] == GUARD && Bounded(ddl[..dmax + 1], MAX_BITS)
    requires HasItems(clens, AllItems(ldl[..lmax + 1], ddl[..dmax + 1])) && ClensOf(ClOf(clens, blcodes)) == clens
    modifies w`pending, w`biBuf, w`biValid
    ensures w.Valid() &&
            w.Sent() == old(w.Sent()) + HeaderBits(PlanHeader(ldl[..lmax + 1], ddl[..dmax + 1], clens, blcodes))
  {
    hide w.Sent, w.Valid, AllCoded, HasItems, ClensOf, ItemsBits, ToBits, ClBits, Pow2, PackFrom;
    ghost var ll, dl := ldl[..lmax + 1], ddl[..dmax + 1];
    ghost var h := PlanHeader(ll, dl, clens, blcodes);
    HasParts(clens, Pack(ll), Pack(dl));
    ItemsBitsAppend(clens, Pack(ll), Pack(dl));
    ghost var s0 := w.Sent();
    SendCounts(w, lmax + 1, dmax + 1, blcodes);
    SendClens(w, clens, blcodes);
    SendTree(w, ldl, lmax, clens, bcodes);
    SendTree(w, ddl, dmax, clens, bcodes);
    Assemble(s0, CountBits(h), ClBits(h.cl), ItemsBits(clens, Pack(ll)), ItemsBits(clens, Pack(dl)));
  }

  lemma Assemble(s: seq<bool>, a: seq<bool>, b: seq<bool>, c: seq<bool>, d: seq<bool>)
    ensures s + a + b + c + d == s + (a + (b + (c + d)))
  {
    SeqAssoc(s + a + b, c, d);
    SeqAssoc(s + a, b, c + d);
    SeqAssoc(s, a, b + (c + d));
  }

  method SendCounts(w: Writer, lcodes: nat, dcodes: nat, blcodes: nat)
    requires w.Valid() && 257 <= lcodes <= 286 && 1 <= dcodes <= 30 && 4 <= blcodes <= BL_CODES
    modifies w`pending, w`biBuf, w`biValid
    ensures w.Valid() &&
            w.Sent() == old(w.Sent()) + (ToBits(lcodes - 257, 5) + (ToBits(dcodes - 1, 5) + ToBits(blcodes - 4, 4)))
  {
    hide w.Sent, w.Valid, ToBits, Pow2;
    Pow2Values();
    ghost var s := w.Sent();
    w.SendBits(lcodes - 257, 5);
    w.SendBits(dcodes - 1, 5);
    w.SendBits(blcodes - 4, 4);
    SeqAssoc(s + ToBits(lcodes - 257, 5), ToBits(dcodes - 1, 5), ToBits(blcodes - 4, 4));
    SeqAssoc(s, ToBits(lcodes - 257, 5), ToBits(dcodes - 1, 5) + ToBits(blcodes - 4, 4));
  }

  method SendClens(w: Writer, clens: seq<nat>, blcodes: nat)
    requires w.Valid() && |clens| == BL_CODES && Bounded(clens, 7) && blcodes <= BL_CODES
    modifies w`pending, w`biBuf, w`biValid
    ensures w.Valid() && w.Sent() == old(w.Sent()) + ClBits(ClOf(clens, blcodes))
  {
    hide w.Sent, w.Valid, ToBits, ClBits, Pow2, ORDER;
    OrderRange();
    Pow2Values();
    NoCl(clens);
    assert w.Sent() + [] == w.Sent();
    var rank: nat := 0;
    while rank < blcodes
      invariant rank <= blcodes && w.Valid() && w.Sent() == old(w.Sent()) + ClBits(ClOf(clens, rank))
    {
      ClBitsSnoc(ClOf(clens, rank), clens[ORDER[rank]]);
      assert ClOf(clens, rank + 1) == ClOf(clens, rank) + [clens[ORDER[rank]]];
      SeqAssoc(old(w.Sent()), ClBits(ClOf(clens, rank)), ToBits(clens[ORDER[rank]], 3));
      w.SendBits(clens[ORDER[rank]], 3);
      rank := rank + 1;
    }
  }

  lemma NoCl(clens: seq<nat>)
    requires |clens| == BL_CODES
    ensures ClBits(ClOf(clens, 0)) == []
  {
  }
}
