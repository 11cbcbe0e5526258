/**
  trees.c and the tally macros of deflate.h: collecting tokens, and closing a block as a stored,
  fixed or dynamic one.
*/
module Blocks {
  import opened Bits
  import opened Canonical
  import opened InflateTable
  import opened Format
  import opened Encoding
  import opened BitWriter
  import opened StaticTables
  import opened CodeLengths
  import opened BlockCost
  import opened BlockPlan
  import opened CompressBlock
  import opened MakeTree
  import G = GenCodes
  import T = GenBitlen
  import B = BuildTree
  import K = Ranks

  function LitDesc(): (d: T.Desc) { T.Desc(EXTRA_L, LITERALS + 1, FixedLit()[..L_CODES], 15) }
  function DistDesc(): (d: T.Desc) { T.Desc(EXTRA_D, 0, FixedDist()[..D_CODES], 15) }
  function BlDesc(): (d: T.Desc) { T.Desc(EXTRA_BL, 0, [], 7) }

  lemma DescsValid()
    ensures ValidDesc(LitDesc(), L_CODES) && ValidDesc(DistDesc(), D_CODES) && ValidDesc(BlDesc(), BL_CODES)
  {
    assert Pow2(7) == 128;
    assert Pow2(15) == 256 * Pow2(7);
  }

  // ------------------------------------------------------------------ the trees of a block

  /** What building the three trees of a block leaves behind. */
  datatype Plan = Plan(ll: seq<nat>, lcodes: seq<nat>, dl: seq<nat>, dcodes: seq<nat>, clens: seq<nat>,
                       bcodes: seq<nat>, blcodes: nat)

  function PlanCodes(p: Plan): (k: Codes) { Codes(p.ll, p.dl) }

  function PlanOf(p: Plan): (h: Header)
    requires |p.clens| == BL_CODES && p.blcodes <= BL_CODES
  {
    PlanHeader(p.ll, p.dl, p.clens, p.blcodes)
  }

  /** The plan describes a dynamic block for `ts` that the format accepts. */
  ghost predicate GoodPlan(p: Plan, ts: seq<Token>)
  {
    |p.clens| == BL_CODES && 4 <= p.blcodes <= BL_CODES && AllSendable(ts) && AllEncodable(PlanCodes(p), ts) &&
    ValidHeader(PlanOf(p), PlanCodes(p)) && HasItems(p.clens, AllItems(p.ll, p.dl)) &&
    ClOf(p.clens, p.blcodes)[p.blcodes - 1] != 0 &&
    ClensOf(ClOf(p.clens, p.blcodes)) == p.clens && Bounded(p.clens, 7) && Bounded(p.ll, MAX_BITS) &&
    Bounded(p.dl, MAX_BITS) &&
    AllCoded(p.ll, p.lcodes) && AllCoded(p.dl, p.dcodes) && AllCoded(p.clens, p.bcodes)
  }

  /** The lengths are those build_tree makes for the frequencies: of an optimal code, if any optimal one keeps to `max`
      bits. */
  ghost predicate Made(freqs: seq<nat>, n: nat, max: nat, lens: seq<nat>)
  {
    exists f0: seq<nat>, dl: seq<nat> :: MadeFrom(freqs, n, max, lens, f0, dl)
  }

  ghost predicate MadeFrom(freqs: seq<nat>, n: nat, max: nat, lens: seq<nat>, f0: seq<nat>, dl: seq<nat>)
  {
    n <= |f0| && f0[..n] == freqs && lens <= dl && (forall i :: |lens| <= i < n && i < |dl| ==> dl[i] == 0) &&
    HuffmanFor(f0, n, max, dl)
  }

  /** The dynamic block has the codes made for the tokens `ts`, and a header of its own for them. */
  ghost predicate OwnCodes(b: Block, ts: seq<Token>)
    requires AllSendable(ts)
  {
    b.DynamicBlock? && Made(LitFreqs(ts), L_CODES, 15, b.k.ll) && Made(DistFreqs(ts), D_CODES, 15, b.k.dl) &&
    OwnHeader(b.h, b.k)
  }

  /** The header packs the lengths of both codes and has a code made for that, of which the last length sent is in
      use. */
  ghost predicate OwnHeader(h: Header, k: Codes)
  {
    4 <= |h.cl| <= BL_CODES && h.cl[|h.cl| - 1] != 0 && h.items == AllItems(k.ll, k.dl) &&
    Made(ItemFreqs(h.items), BL_CODES, 7, ClensOf(h.cl))
  }

  lemma DescLimits()
    ensures LitDesc().maxLength == 15 && DistDesc().maxLength == 15 && BlDesc().maxLength == 7
  {
  }

  lemma MadeIs(f0: seq<nat>, n: nat, max: nat, dl: seq<nat>, last: nat, f: seq<nat>, forced: seq<nat>, freqs: seq<nat>)
    requires n <= |f0| && f0[..n] == freqs && last < n <= |dl| && HuffmanWith(f0, n, max, dl, f, forced)
    requires forall i :: last < i < n ==> dl[i] == 0
    ensures Made(freqs, n, max, dl[..last + 1])
  {
    hide HuffmanWith;
    assert HuffmanFor(f0, n, max, dl);
    assert MadeFrom(freqs, n, max, dl[..last + 1], f0, dl);
  }

  lemma AllMade(f0: seq<nat>, n: nat, max: nat, dl: seq<nat>, f: seq<nat>, forced: seq<nat>, freqs: seq<nat>)
    requires 1 <= n <= |f0| && f0[..n] == freqs && n <= |dl| && HuffmanWith(f0, n, max, dl, f, forced)
    ensures Made(freqs, n, max, dl[..n])
  {
    hide HuffmanWith;
    MadeIs(f0, n, max, dl, n - 1, f, forced, freqs);
  }

  /** Bits of the data of a block, after the three header bits. */
  function FixedSize(ts: seq<Token>): (n: nat)
    requires AllEncodable(FixedCodes(), ts)
  {
    |DataBits(FixedCodes(), ts)|
  }

  ghost function DynamicSize(p: Plan, ts: seq<Token>): (n: nat)
    requires GoodPlan(p, ts)
  {
    |HeaderBits(PlanOf(p))| + |DataBits(PlanCodes(p), ts)|
  }

  /** A tree whose frequencies count the tokens has a code for all of them. */
  lemma TreeEncodes(ts: seq<Token>, i: nat)
    requires AllSendable(ts) && i < |ts|
    ensures LitFreqs(ts)[LitSym(ts[i])] >= 1 && (ts[i].Copy? ==> DistFreqs(ts)[DistCode(ts[i].dist)] >= 1)
    ensures LitFreqs(ts)[END_BLOCK] == 1
    decreases |ts|
  {
    hide LitSym, DistCode;
    EndOnce(ts);
    var n := |ts| - 1;
    if i < n { TreeEncodes(ts[..n], i); }
  }

  lemma {:induction false} EndOnce(ts: seq<Token>)
    requires AllSendable(ts)
    ensures LitFreqs(ts)[END_BLOCK] == 1
    decreases |ts|
  {
    hide LengthCode;
    if ts != [] { EndOnce(ts[..|ts| - 1]); }
  }

  /** The lengths of the used symbols, cut after the last one. */
  function Cut(dl: seq<nat>, max: nat): (lens: seq<nat>)
    requires max < |dl|
    ensures |lens| == max + 1
  {
    dl[..max + 1]
  }

  /** Trees finished from the frequencies of `ts` give every token a code. */
  lemma PlanEncodes(ts: seq<Token>, lf: seq<nat>, df: seq<nat>, ldl: seq<nat>, lmax: nat, ddl: seq<nat>, dmax: nat,
                    o1: int, s1: int, o2: int, s2: int)
    requires AllSendable(ts) && |lf| >= L_CODES && |df| >= D_CODES && lf[..L_CODES] == LitFreqs(ts) &&
             df[..D_CODES] == DistFreqs(ts)
    requires TreeSized(lf, L_CODES, LitDesc(), ldl, lmax, o1, s1) &&
             TreeSized(df, D_CODES, DistDesc(), ddl, dmax, o2, s2)
    ensures 256 <= lmax && ldl[256] >= 1 && AllEncodable(Codes(Cut(ldl, lmax), Cut(ddl, dmax)), ts)
  {
    hide LitFreqs, DistFreqs, LengthCode, DistCode, Bill, Complete, FixedLit, FixedDist, EXTRA_L, EXTRA_D;
    var k := Codes(Cut(ldl, lmax), Cut(ddl, dmax));
    EndOnce(ts);
    assert lf[END_BLOCK] == lf[..L_CODES][END_BLOCK];
    forall i | 0 <= i < |ts| ensures Encodable(k, ts[i]) {
      TreeEncodes(ts, i);
      var s := LitSym(ts[i]);
      assert lf[s] == lf[..L_CODES][s];
      if ts[i].Copy? { var c := DistCode(ts[i].dist); assert df[c] == df[..D_CODES][c]; }
    }
  }

  /** The bit counts of the two data trees are those of the encoded data. */
  lemma DataSizes(ts: seq<Token>, lf: seq<nat>, df: seq<nat>, ldl: seq<nat>, lmax: nat, ddl: seq<nat>, dmax: nat,
                  o1: int, s1: int, o2: int, s2: int)
    requires AllSendable(ts) && |lf| >= L_CODES && |df| >= D_CODES && lf[..L_CODES] == LitFreqs(ts) &&
             df[..D_CODES] == DistFreqs(ts)
    requires TreeSized(lf, L_CODES, LitDesc(), ldl, lmax, o1, s1) &&
             TreeSized(df, D_CODES, DistDesc(), ddl, dmax, o2, s2)
    requires AllEncodable(Codes(Cut(ldl, lmax), Cut(ddl, dmax)), ts) && AllEncodable(FixedCodes(), ts)
    ensures o1 + o2 == |DataBits(Codes(Cut(ldl, lmax), Cut(ddl, dmax)), ts)|
    ensures s1 + s2 == FixedSize(ts)
  {
    hide LitFreqs, DistFreqs, Bill, Complete, FixedLit, FixedDist, EXTRA_L, EXTRA_D, DataBits, AllEncodable;
    var k := Codes(Cut(ldl, lmax), Cut(ddl, dmax));
    var fl, fd := FixedLit()[..L_CODES], FixedDist()[..D_CODES];
    BillFreqFrame(lf, LitFreqs(ts), ldl, EXTRA_L, 257, L_CODES);
    BillFreqFrame(df, DistFreqs(ts), ddl, EXTRA_D, 0, D_CODES);
    BillFreqFrame(lf, LitFreqs(ts), fl, EXTRA_L, 257, L_CODES);
    BillFreqFrame(df, DistFreqs(ts), fd, EXTRA_D, 0, D_CODES);
    DataCost(k, ts, ldl, ddl);
    DataCost(FixedCodes(), ts, fl, fd);
  }

  lemma FixedEncodes(ts: seq<Token>)
    requires AllSendable(ts)
    ensures AllEncodable(FixedCodes(), ts)
  {
    hide LengthCode, DistCode;
    forall i | 0 <= i < |ts| ensures Encodable(FixedCodes(), ts[i]) { assert Sendable(ts[i]); }
  }

  /** The symbols counted for the code length tree all get a code, and some symbol 1..15 among them. */
  lemma BlTree(ll: seq<nat>, dl: seq<nat>, bf: seq<nat>, bdl: seq<nat>, bmax: nat, o3: int, s3: int)
    requires Bounded(ll, MAX_BITS) && Bounded(dl, MAX_BITS) && |ll| > 256 && ll[256] >= 1
    requires |bf| >= BL_CODES && bf[..BL_CODES] == ItemFreqs(AllItems(ll, dl)) &&
             TreeSized(bf, BL_CODES, BlDesc(), bdl, bmax, o3, s3)
    ensures var clens := bdl[..BL_CODES];
            Complete(clens, 7) && Padded(Cut(bdl, bmax), clens) &&
            (forall j :: 0 <= j < |AllItems(ll, dl)| ==>
               AllItems(ll, dl)[j].sym < BL_CODES && clens[AllItems(ll, dl)[j].sym] >= 1) &&
            exists s :: 1 <= s < 16 && clens[s] >= 1
  {
    hide AllItems, ItemFreqs, Complete, Bill, EXTRA_BL, Freq, ValidItem;
    var items, clens := AllItems(ll, dl), bdl[..BL_CODES];
    AllItemsFacts(ll, dl);
    forall j | 0 <= j < |items| ensures items[j].sym < BL_CODES && clens[items[j].sym] >= 1 {
      FreqPositive(items, j);
      var s := items[j].sym;
      assert bf[s] == bf[..BL_CODES][s];
      assert clens[s] == bdl[s];
    }
    assert Padded(Cut(bdl, bmax), clens);
    PadComplete(Cut(bdl, bmax), clens, 7);
    var j :| 0 <= j < |items| && 1 <= items[j].sym < 16;
    assert clens[items[j].sym] >= 1;
  }

  lemma HeaderSize(ll: seq<nat>, dl: seq<nat>, clens: seq<nat>, n: nat)
    requires |clens| == BL_CODES && 4 <= n <= BL_CODES && HasItems(clens, AllItems(ll, dl)) &&
             ClensOf(ClOf(clens, n)) == clens
    requires 257 <= |ll| && 1 <= |dl|
    ensures |HeaderBits(PlanHeader(ll, dl, clens, n))|
            == 14 + 3 * n + Bill(ItemFreqs(AllItems(ll, dl)), clens, EXTRA_BL, 0, BL_CODES)
  {
    hide AllItems, HasItems, ItemsBits, ClensOf, ClBits, CountBits, Bill, EXTRA_BL, ORDER;
    ItemsCost(clens, AllItems(ll, dl));
  }

  // ------------------------------------------------------------------ building the trees

  /** The code length tree for the lengths `ll` and `dl`: complete, coded, and sent in `n` lengths. */
  ghost predicate LengthTree(ll: seq<nat>, dl: seq<nat>, clens: seq<nat>, bcodes: seq<nat>, n: nat)
  {
    |clens| == BL_CODES && 4 <= n <= BL_CODES && Complete(clens, 7) && AllCoded(clens, bcodes) && |ORDER| == BL_CODES &&
    (forall r :: n <= r < BL_CODES ==> ORDER[r] < BL_CODES && clens[ORDER[r]] == 0) &&
    ORDER[n - 1] < BL_CODES && clens[ORDER[n - 1]] != 0 &&
    forall j :: 0 <= j < |AllItems(ll, dl)| ==>
      AllItems(ll, dl)[j].sym < BL_CODES && clens[AllItems(ll, dl)[j].sym] >= 1
  }

  /** The index of the last code length to send; some symbol 1..15 is used, so at least four are sent. */
  method LastBlIndex(bdl: array<nat>, ghost s: nat) returns (max: nat)
    requires bdl.Length >= BL_CODES && 1 <= s < 16 && bdl[s] >= 1
    ensures 3 <= max < BL_CODES && |ORDER| == BL_CODES
    ensures forall r :: max < r < BL_CODES ==> ORDER[r] < BL_CODES && bdl[ORDER[r]] == 0
    ensures ORDER[max] < BL_CODES && bdl[ORDER[max]] != 0
  {
    hide ORDER, RANK;
    OrderRange();
    OrderRank(s);
    max := BL_CODES - 1;
    while max >= 3 && bdl[ORDER[max]] == 0
      invariant RANK[s] <= max < BL_CODES
      invariant forall r :: max < r < BL_CODES ==> bdl[ORDER[r]] == 0
      decreases max
    {
      max := max - 1;
    }
  }

  lemma ScanFreqs(ll: seq<nat>, dl: seq<nat>, f: seq<nat>)
    requires |f| >= BL_CODES && forall s :: 0 <= s < BL_CODES ==> f[s] == Freq(Pack(ll), s) + Freq(Pack(dl), s)
    ensures f[..BL_CODES] == ItemFreqs(AllItems(ll, dl))
  {
    hide PackFrom, Freq;
    forall s | 0 <= s < BL_CODES ensures f[s] == Freq(AllItems(ll, dl), s) { FreqAppend(Pack(ll), Pack(dl), s); }
  }

  lemma BlLight(ll: seq<nat>, dl: seq<nat>, f: seq<nat>)
    requires |f| >= BL_CODES && f[..BL_CODES] == ItemFreqs(AllItems(ll, dl))
    requires Bounded(ll, MAX_BITS) && Bounded(dl, MAX_BITS) && 256 < |ll| <= 286 && |dl| <= 30 && ll[256] >= 1
    ensures Light(f, BL_CODES)
  {
    hide AllItems, FreqSum, ItemFreqs, ValidItem;
    AllItemsFacts(ll, dl);
    ItemsTotal(AllItems(ll, dl));
    FreqSumFrame(f, f[..BL_CODES], BL_CODES);
    LightSum(f, BL_CODES);
  }

  /** build_bl_tree. */
  method BuildBlTree(ldl: array<nat>, lmax: nat, ddl: array<nat>, dmax: nat, bfc: array<nat>, bdl: array<nat>,
                     depth: array<nat>, heap: array<nat>, opt0: int)
    returns (maxBlindex: nat, opt: int)
    requires ldl != ddl && ldl != bfc && ldl != bdl && ldl != depth && ldl != heap && ddl != bfc && ddl != bdl &&
             ddl != depth && ddl != heap
    requires bfc != bdl && bfc != depth && bfc != heap && bdl != depth && bdl != heap && depth != heap
    requires heap.Length == B.HEAP_SIZE && bfc.Length == bdl.Length == 2 * BL_CODES + 1 && depth.Length >= 2 * BL_CODES
    requires 256 <= lmax < 286 && lmax + 1 < ldl.Length && dmax < 30 && dmax + 1 < ddl.Length && ldl[256] >= 1
    requires Bounded(ldl[..lmax + 1], MAX_BITS) && Bounded(ddl[..dmax + 1], MAX_BITS)
    requires forall s :: 0 <= s < BL_CODES ==> bfc[s] == 0
    modifies ldl, ddl, bfc, bdl, depth, heap
    ensures ldl[..lmax + 1] == old(ldl[..lmax + 1]) && ldl[lmax + 1] == GUARD
    ensures ddl[..dmax + 1] == old(ddl[..dmax + 1]) && ddl[dmax + 1] == GUARD
    ensures LengthTree(ldl[..lmax + 1], ddl[..dmax + 1], bdl[..BL_CODES], bfc[..BL_CODES], maxBlindex + 1)
    ensures Made(ItemFreqs(AllItems(ldl[..lmax + 1], ddl[..dmax + 1])), BL_CODES, 7, bdl[..BL_CODES])
    ensures opt == opt0 + 14 + 3 * (maxBlindex + 1)
                 + Bill(ItemFreqs(AllItems(ldl[..lmax + 1], ddl[..dmax + 1])), bdl[..BL_CODES], EXTRA_BL, 0, BL_CODES)
  {
    hide Bounded, Freq, PackFrom, ItemFreqs, AllItems, Light, TreeDone, TreeSized, ValidDesc, BlDesc, Bill, EXTRA_BL,
         LengthTree, HuffmanWith, K.FitsLimit, B.Leaves, ORDER, Made;
    ghost var ll, dl := ldl[..lmax + 1], ddl[..dmax + 1];
    ScanTree(ldl, lmax, bfc);
    assert ldl[..lmax + 1] == ll;
    ScanTree(ddl, dmax, bfc);
    assert ddl[..dmax + 1] == dl;
    ghost var bf := bfc[..];
    ScanFreqs(ll, dl, bf);
    BlLight(ll, dl, bf);
    DescsValid();
    var bmax, o, st, over, f, forced := MakeTree.MakeTree(bfc, bdl, depth, heap, BL_CODES, BlDesc(), opt0, 0);
    ghost var s := BlFinished(ll, dl, bf, bdl[..], bfc[..], bmax, o - opt0, st);
    DescLimits();
    AllMade(bf, BL_CODES, 7, bdl[..], f, forced, ItemFreqs(AllItems(ll, dl)));
    assert bdl[..][..BL_CODES] == bdl[..BL_CODES];
    maxBlindex := LastBlIndex(bdl, s);
    opt := o + 3 * (maxBlindex + 1) + 5 + 5 + 4;
    BlDone(ll, dl, bf, bdl[..], bfc[..], bmax, o - opt0, st, maxBlindex + 1);
  }

  lemma BlFinished(ll: seq<nat>, dl: seq<nat>, bf: seq<nat>, bdl: seq<nat>, bfc: seq<nat>, bmax: nat, o: int, st: int)
    returns (s: nat)
    requires Bounded(ll, MAX_BITS) && Bounded(dl, MAX_BITS) && |ll| > 256 && ll[256] >= 1
    requires |bf| >= BL_CODES && bf[..BL_CODES] == ItemFreqs(AllItems(ll, dl)) &&
             TreeDone(bf, BL_CODES, BlDesc(), bdl, bfc, bmax, o, st)
    ensures |bdl| >= BL_CODES && 1 <= s < 16 && bdl[s] >= 1
  {
    hide AllItems, ItemFreqs, Complete, Bill, EXTRA_BL, Padded;
    BlTree(ll, dl, bf, bdl, bmax, o, st);
    s :| 1 <= s < 16 && bdl[..BL_CODES][s] >= 1;
  }

  lemma BlDone(ll: seq<nat>, dl: seq<nat>, bf: seq<nat>, bdl: seq<nat>, bfc: seq<nat>, bmax: nat, o: int, st: int,
               n: nat)
    requires Bounded(ll, MAX_BITS) && Bounded(dl, MAX_BITS) && |ll| > 256 && ll[256] >= 1
    requires |bf| >= BL_CODES && bf[..BL_CODES] == ItemFreqs(AllItems(ll, dl)) &&
             TreeDone(bf, BL_CODES, BlDesc(), bdl, bfc, bmax, o, st)
    requires |bdl| >= BL_CODES && 4 <= n <= BL_CODES && |ORDER| == BL_CODES &&
             (forall r :: n <= r < BL_CODES ==> ORDER[r] < BL_CODES && bdl[ORDER[r]] == 0) &&
             ORDER[n - 1] < BL_CODES && bdl[ORDER[n - 1]] != 0
    ensures |bfc| >= BL_CODES && LengthTree(ll, dl, bdl[..BL_CODES], bfc[..BL_CODES], n)
    ensures o == Bill(ItemFreqs(AllItems(ll, dl)), bdl[..BL_CODES], EXTRA_BL, 0, BL_CODES)
  {
    hide AllItems, ItemFreqs, Complete, Bill, EXTRA_BL, ORDER, AllCoded, Padded;
    BlTree(ll, dl, bf, bdl, bmax, o, st);
    var clens := bdl[..BL_CODES];
    assert bfc[..BL_CODES][..bmax + 1] == bfc[..bmax + 1];
    PadAllCoded(Cut(bdl, bmax), clens, bfc[..BL_CODES]);
    BillFreqFrame(bf, ItemFreqs(AllItems(ll, dl)), bdl, EXTRA_BL, 0, BL_CODES);
    BillFrame(ItemFreqs(AllItems(ll, dl)), bdl, clens, EXTRA_BL, 0, BL_CODES);
  }

  // ------------------------------------------------------------------ the block state

  lemma PlanGood(ts: seq<Token>, lf: seq<nat>, df: seq<nat>, ldl: seq<nat>, lfc: seq<nat>, lmax: nat, ddl: seq<nat>,
                 dfc: seq<nat>, dmax: nat,
                 o1: int, s1: int, o2: int, s2: int, clens: seq<nat>, bcodes: seq<nat>, n: nat)
    requires AllSendable(ts) && |lf| >= L_CODES && |df| >= D_CODES && lf[..L_CODES] == LitFreqs(ts) &&
             df[..D_CODES] == DistFreqs(ts)
    requires TreeDone(lf, L_CODES, LitDesc(), ldl, lfc, lmax, o1, s1) &&
             TreeDone(df, D_CODES, DistDesc(), ddl, dfc, dmax, o2, s2)
    requires LengthTree(Cut(ldl, lmax), Cut(ddl, dmax), clens, bcodes, n)
    ensures var p := Plan(Cut(ldl, lmax), lfc[..lmax + 1], Cut(ddl, dmax), dfc[..dmax + 1], clens, bcodes, n);
            GoodPlan(p, ts) && AllEncodable(FixedCodes(), ts) &&
            o1 + o2 + 14 + 3 * n + Bill(ItemFreqs(AllItems(p.ll, p.dl)), clens, EXTRA_BL, 0,
                                        BL_CODES) == DynamicSize(p, ts) &&
            s1 + s2 == FixedSize(ts)
  {
    hide LitFreqs, DistFreqs, Bill, Complete, FixedLit, FixedDist, EXTRA_L, EXTRA_D, EXTRA_BL, DataBits, AllEncodable,
         AllCoded, AllItems, ItemFreqs,
      ORDER, HeaderBits, ValidHeader, HasItems, ClensOf, AllSendable, PlanHeader;
    var ll, dl := Cut(ldl, lmax), Cut(ddl, dmax);
    PlanEncodes(ts, lf, df, ldl, lmax, ddl, dmax, o1, s1, o2, s2);
    FixedEncodes(ts);
    DataSizes(ts, lf, df, ldl, lmax, ddl, dmax, o1, s1, o2, s2);
    PlanValid(ll, dl, clens, n);
    HeaderSize(ll, dl, clens, n);
    CompleteBound(ll, 15);
    CompleteBound(dl, 15);
    CompleteBound(clens, 7);
    HeaderShape(PlanHeader(ll, dl, clens, n), Codes(ll, dl));
  }

  lemma CompleteBound(lens: seq<nat>, m: nat)
    requires Complete(lens, m)
    ensures Bounded(lens, m)
  {
  }

  lemma TokensLight(ts: seq<Token>, lf: seq<nat>, df: seq<nat>)
    requires AllSendable(ts) && |ts| <= 32767 && |lf| >= L_CODES && |df| >= D_CODES && lf[..L_CODES] == LitFreqs(ts) &&
             df[..D_CODES] == DistFreqs(ts)
    ensures Light(lf, L_CODES) && Light(df, D_CODES)
  {
    hide LitFreqs, DistFreqs, FreqSum;
    FreqTotal(ts);
    FreqSumFrame(lf, lf[..L_CODES], L_CODES);
    FreqSumFrame(df, df[..D_CODES], D_CODES);
    LightSum(lf, L_CODES);
    LightSum(df, D_CODES);
  }

  /** The trees of one block and its token buffer. */
  class Trees {
    const tables: Tables
    const litBufsize: nat
    const lfc: array<nat>
    const ldl: array<nat>
    const dfc: array<nat>
    const ddl: array<nat>
    const bfc: array<nat>
    const bdl: array<nat>
    const depth: array<nat>
    const heap: array<nat>
    /** d_buf and l_buf. */
    var dist: seq<nat>
    var lc: seq<byte>
    var optLen: int
    var staticLen: int

    ghost predicate Apart()
    {
      lfc != ldl && lfc != dfc && lfc != ddl && lfc != bfc && lfc != bdl && lfc != depth && lfc != heap &&
      ldl != dfc && ldl != ddl && ldl != bfc && ldl != bdl && ldl != depth && ldl != heap &&
      dfc != ddl && dfc != bfc && dfc != bdl && dfc != depth && dfc != heap &&
      ddl != bfc && ddl != bdl && ddl != depth && ddl != heap &&
      bfc != bdl && bfc != depth && bfc != heap &&
      bdl != depth && bdl != heap &&
      depth != heap
    }

    ghost function Repr(): (r: set<object>) { {lfc, ldl, dfc, ddl, bfc, bdl, depth, heap} }

    ghost predicate Shape()
    {
      ValidTables(tables) && 1 <= litBufsize <= 32768 && Apart() && heap.Length == B.HEAP_SIZE &&
      depth.Length == B.HEAP_SIZE &&
      lfc.Length == ldl.Length == B.HEAP_SIZE && dfc.Length == ddl.Length == 2 * D_CODES + 1 &&
      bfc.Length == bdl.Length == 2 * BL_CODES + 1
    }

    ghost predicate Buffered()
      reads this`dist, this`lc
    {
      |dist| == |lc| && |dist| < litBufsize && forall i :: 0 <= i < |dist| ==> dist[i] <= 32768
    }

    function Tokens(): (ts: seq<Token>)
      requires Buffered()
      reads this`dist, this`lc
    {
      TokensOf(dist, lc)
    }

    /** The frequencies count the tokens of the buffer. */
    ghost predicate Valid()
      reads this`dist, this`lc, this`optLen, this`staticLen, lfc, dfc, bfc
    {
      Shape() && Buffered() && AllSendable(Tokens()) && optLen == 0 && staticLen == 0 &&
      lfc[..L_CODES] == LitFreqs(Tokens()) && dfc[..D_CODES] == DistFreqs(Tokens()) &&
      forall s :: 0 <= s < BL_CODES ==> bfc[s] == 0
    }

    constructor (litBufsize: nat)
      requires 1 <= litBufsize <= 32768
      ensures Valid() && Tokens() == [] && this.litBufsize == litBufsize && fresh(Repr())
    {
      hide ValidTables;
      var t := StaticInit();
      this.tables, this.litBufsize := t, litBufsize;
      lfc, ldl, dfc, ddl := new nat[B.HEAP_SIZE], new nat[B.HEAP_SIZE],
                            new nat[2 * D_CODES + 1], new nat[2 * D_CODES + 1];
      bfc, bdl, depth, heap := new nat[2 * BL_CODES + 1], new nat[2 * BL_CODES + 1],
                               new nat[B.HEAP_SIZE], new nat[B.HEAP_SIZE];
      dist, lc, optLen, staticLen := [], [], 0, 0;
      new;
      InitBlock();
    }

    /** init_block. */
    method InitBlock()
      requires Shape()
      modifies this, lfc, dfc, bfc
      ensures Valid() && Tokens() == []
    {
      hide ValidTables;
      ClearFreqs(lfc, L_CODES);
      ClearFreqs(dfc, D_CODES);
      ClearFreqs(bfc, BL_CODES);
      lfc[END_BLOCK] := 1;
      dist, lc, optLen, staticLen := [], [], 0, 0;
      assert lfc[..L_CODES] == LitFreqs([]);
      assert dfc[..D_CODES] == DistFreqs([]);
    }

    /** _tr_tally_lit: records an unmatched byte; `flush` says that the buffer is full. */
    method TallyLit(c: byte) returns (flush: bool)
      requires Valid() && |Tokens()| + 1 < litBufsize
      modifies this`dist, this`lc, lfc
      ensures Valid() && Tokens() == old(Tokens()) + [Literal(c)] && flush == (|Tokens()| == litBufsize - 1)
    {
      hide ValidTables, LengthCode, LitFreqs, DistFreqs, Bump;
      ghost var ts := Tokens();
      dist, lc := dist + [0], lc + [c];
      Increment(lfc, L_CODES, c);
      flush := |dist| == litBufsize - 1;
      Snoc(ts, Tokens(), Literal(c));
    }

    /** _tr_tally_dist: records a match of length `len + 3` at distance `distance`. */
    method TallyDist(distance: nat, len: byte) returns (flush: bool)
      requires Valid() && |Tokens()| + 1 < litBufsize && 1 <= distance <= 32768
      modifies this`dist, this`lc, lfc, dfc
      ensures Valid() && Tokens() == old(Tokens()) + [Copy(len + 3, distance)] &&
              flush == (|Tokens()| == litBufsize - 1)
    {
      hide ValidTables, LengthCode, DistCode, DCode, LitFreqs, DistFreqs, Bump, EXTRA_L, EXTRA_D, LEXT, DEXT, LBASE,
           DBASE, Pow2, ExtraBits;
      ghost var ts := Tokens();
      dist, lc := dist + [distance], lc + [len];
      LengthExtra(tables, len);
      DistExtra(tables, distance);
      var l := tables.lengthCode[len] + LITERALS + 1;
      Increment(lfc, L_CODES, l);
      var d := DCode(tables.distCode, distance - 1);
      Increment(dfc, D_CODES, d);
      flush := |dist| == litBufsize - 1;
      Snoc(ts, Tokens(), Copy(len + 3, distance));
    }

    /** The arrays of lengths hold the plan, with their guards. */
    ghost predicate Planned(p: Plan, lmax: nat, dmax: nat)
      reads ldl, ddl
    {
      256 <= lmax < 286 && dmax < 30 && lmax + 1 < ldl.Length && dmax + 1 < ddl.Length &&
      p.ll == ldl[..lmax + 1] && p.dl == ddl[..dmax + 1] && ldl[lmax + 1] == GUARD && ddl[dmax + 1] == GUARD
    }

    /** Builds the three trees; `p` is the dynamic block they describe. */
    method BuildTrees() returns (p: Plan, lmax: nat, dmax: nat)
      requires Valid()
      modifies this`optLen, this`staticLen, Repr()
      ensures GoodPlan(p, Tokens()) && AllEncodable(FixedCodes(), Tokens())
      ensures optLen == DynamicSize(p, Tokens()) && staticLen == FixedSize(Tokens())
      ensures Planned(p, lmax, dmax) && Made(LitFreqs(Tokens()), L_CODES, 15, p.ll) &&
              Made(DistFreqs(Tokens()), D_CODES, 15, p.dl) &&
              Made(ItemFreqs(AllItems(p.ll, p.dl)), BL_CODES, 7, p.clens)
    {
      hide ValidTables, LitFreqs, DistFreqs, AllSendable, Light, TreeDone, LitDesc, DistDesc, ValidDesc, GoodPlan,
           AllEncodable, DynamicSize, FixedSize, LengthTree, Bill, ItemFreqs, AllItems, EXTRA_BL, TokensOf,
           HuffmanWith, HuffmanFor, Made, K.FitsLimit, B.Leaves, Bounded;
      ghost var ts, lf, df := Tokens(), lfc[..], dfc[..];
      assert lf[..L_CODES] == LitFreqs(ts) && df[..D_CODES] == DistFreqs(ts);
      TokensLight(ts, lf, df);
      DescsValid();
      DescLimits();
      var o, s, over;
      ghost var f, forced;
      lmax, o, s, over, f, forced := MakeTree.MakeTree(lfc, ldl, depth, heap, L_CODES, LitDesc(), optLen, staticLen);
      optLen, staticLen := o, s;
      ghost var ldl1, lfc1 := ldl[..], lfc[..];
      MadeIs(lf, L_CODES, 15, ldl1, lmax, f, forced, LitFreqs(ts));
      dmax, o, s, over, f, forced := MakeTree.MakeTree(dfc, ddl, depth, heap, D_CODES, DistDesc(), optLen, staticLen);
      ghost var o1, s1, o2 := optLen, staticLen, o - optLen;
      optLen, staticLen := o, s;
      ghost var ddl1, dfc1 := ddl[..], dfc[..];
      MadeIs(df, D_CODES, 15, ddl1, dmax, f, forced, DistFreqs(ts));
      DataTreeFacts(ts, lf, df, ldl1, lfc1, lmax, ddl1, dfc1, dmax, o1, s1, o2, s - s1);
      assert ldl[..lmax + 1] == Cut(ldl1, lmax) && ddl[..dmax + 1] == Cut(ddl1, dmax);
      var maxBlindex;
      maxBlindex, o := BuildBlTree(ldl, lmax, ddl, dmax, bfc, bdl, depth, heap, optLen);
      optLen := o;
      p := Plan(ldl[..lmax + 1], lfc[..lmax + 1], ddl[..dmax + 1], dfc[..dmax + 1], bdl[..BL_CODES], bfc[..BL_CODES],
                maxBlindex + 1);
      assert lfc[..lmax + 1] == lfc1[..lmax + 1] && dfc[..dmax + 1] == dfc1[..dmax + 1];
      PlanGood(ts, lf, df, ldl1, lfc1, lmax, ddl1, dfc1, dmax, o1, s1, o2, s - s1, p.clens, p.bcodes, p.blcodes);
    }

    /** Sends the data of the buffered tokens with the fixed codes. */
    method SendFixed(w: Writer, last: bool, ghost out: seq<byte>)
      requires Shape() && Buffered() && w.Valid() && ValidTokens(out, Tokens()) && AllEncodable(FixedCodes(), Tokens())
      modifies w`pending, w`biBuf, w`biValid
      ensures w.Valid() && w.Sent() == old(w.Sent()) + BlockBits(FixedBlock(Tokens()), last, |old(w.Sent())|, out)
    {
      hide w.Sent, w.Valid, ValidTables, TypeBits, DataBits, AllEncodable, TokensOf, CodedUpTo, ValidTokens, FixedLit,
           FixedDist;
      ghost var ts := Tokens();
      SeqAssoc(w.Sent(), TypeBits(last, 1), DataBits(FixedCodes(), ts));
      SendType(w, 1, last);
      FixedCodedUpTo(tables);
      CompressBlock.CompressBlock(w, tables, dist, lc, FixedLit(), tables.lcodes, FixedDist(), tables.dcodes);
    }

    /** Sends a dynamic header and the data of the buffered tokens with its codes. */
    method SendDynamic(w: Writer, p: Plan, lmax: nat, dmax: nat, last: bool, ghost out: seq<byte>, ghost b: Block)
      requires Shape() && Buffered() && w.Valid() && PlannedBlock(p, Tokens(), b, out)
      requires Planned(p, lmax, dmax)
      modifies w`pending, w`biBuf, w`biValid
      ensures w.Valid() && w.Sent() == old(w.Sent()) + BlockBits(b, last, |old(w.Sent())|, out)
    {
      hide w.Sent, w.Valid, ValidTables, TypeBits, DataBits, AllEncodable, TokensOf, CodedUpTo, ValidTokens, HeaderBits,
           ValidHeader, AllCoded,
        PlanHeader, HasItems, AllItems, ClensOf, Bounded, AllSendable, ORDER;
      ghost var ts, k, h := Tokens(), PlanCodes(p), PlanOf(p);
      HeaderShape(h, k);
      ghost var s := w.Sent();
      AllCodedUpTo(p.ll, p.lcodes, L_CODES);
      AllCodedUpTo(p.dl, p.dcodes, D_CODES);
      SendType(w, 2, last);
      SendAllTrees(w, ldl, lmax, ddl, dmax, p.clens, p.bcodes, p.blcodes);
      CompressBlock.CompressBlock(w, tables, dist, lc, p.ll, p.lcodes, p.dl, p.dcodes);
      SeqAssoc(s + TypeBits(last, 2), HeaderBits(h), DataBits(k, ts));
      SeqAssoc(s, TypeBits(last, 2), HeaderBits(h) + DataBits(k, ts));
    }

    /** _tr_flush_block for levels above 0: `out` is the history, `buf` the input of the block unless it is too old.
        `b` is the block sent, `dyn` the dynamic block that was considered. */
    method FlushBlock(w: Writer, buf: Option<seq<byte>>, storedLen: nat, last: bool, fixedStrategy: bool,
                      ghost out: seq<byte>)
      returns (ghost b: Block, ghost dyn: Block)
      requires Valid() && w.Valid() && ValidTokens(out, Tokens()) && |out| + storedLen == |Expand(out, Tokens())|
      requires buf.Some? ==> out + buf.value == Expand(out, Tokens()) && |buf.value| == storedLen <= 65535
      modifies this, Repr(), w`pending, w`biBuf, w`biValid
      ensures Valid() && Tokens() == [] && w.Valid() && (last ==> w.biValid == 0)
      ensures ValidBlock(b, out) && ValidBlock(dyn, out) && BlockOut(b, out) == old(Expand(out, Tokens()))
      ensures w.Sent() == Wound(old(w.Sent()) + BlockBits(b, last, |old(w.Sent())|, out), last)
      ensures Chosen(b, dyn, old(Tokens()), buf, fixedStrategy, last, |old(w.Sent())|, out)
      ensures OwnCodes(dyn, old(Tokens()))
    {
      hide w.Sent, w.Valid, Made, GoodPlan, AllEncodable, DynamicSize, FixedSize, TokensOf, ValidTokens, Expand,
           BlockBits, ValidBlock, Chosen, Wound,
        PlannedBlock, Planned, LitFreqs, DistFreqs, AllSendable, ValidTables, BlockOut, OwnCodes, ItemFreqs, AllItems;
      ghost var ts, sent := Tokens(), w.Sent();
      var p, lmax, dmax := BuildTrees();
      dyn := PlanBlock(p, ts, out);
      PlanOwn(p, ts, dyn, out);
      var optLenb, staticLenb := (optLen + 3 + 7) / 8, (staticLen + 3 + 7) / 8;
      if staticLenb <= optLenb { optLenb := staticLenb; }
      if storedLen + 4 <= optLenb && buf.Some? {
        b := StoredBlock(buf.value);
        SendStored(w, buf.value, last, out);
      } else if fixedStrategy || staticLenb == optLenb {
        b := FixedBlock(ts);
        SendFixed(w, last, out);
      } else {
        b := dyn;
        SendDynamic(w, p, lmax, dmax, last, out, dyn);
      }
      BlockOutIs(b, p, dyn, ts, out, buf);
      ChosenIs(b, p, dyn, ts, out, buf, storedLen, fixedStrategy, optLen, staticLen, last, |sent|);
      ghost var s := w.Sent();
      InitBlock();
      WoundIs(s, last);
      if last { w.BiWindup(); }
    }
  }

  ghost function Wound(s: seq<bool>, last: bool): (r: seq<bool>)
  {
    if last then s + Zeros(Align(|s|) - |s|) else s
  }

  lemma WoundIs(s: seq<bool>, last: bool)
    ensures Wound(s, last) == if last then s + Zeros(Align(|s|) - |s|) else s
  {
  }

  /** The bits of a block at position `at`. */
  ghost function Size(b: Block, last: bool, at: nat, out: seq<byte>): (n: nat)
    requires ValidBlock(b, out)
  {
    |BlockBits(b, last, at, out)|
  }

  function Bytes(bits: nat): (n: nat) { (bits + 7) / 8 }

  function Least(a: nat, b: nat): (m: nat) { if a <= b then a else b }

  /** The bits that bring a stored block to a byte boundary. */
  function Padding(at: nat): (n: nat)
    ensures n < 8
  {
    Align(at + 3) - (at + 3)
  }

  /** The decision of _tr_flush_block between the block stored, with the fixed codes, and with its own codes.  The
      stored block is measured without its type and its padding. */
  ghost predicate Chosen(b: Block, dyn: Block, ts: seq<Token>, buf: Option<seq<byte>>, fixedStrategy: bool, last: bool,
                         at: nat, out: seq<byte>)
  {
    dyn.DynamicBlock? && dyn.tokens == ts && ValidBlock(dyn, out) && ValidBlock(FixedBlock(ts), out) &&
    (buf.Some? ==> ValidBlock(StoredBlock(buf.value), out)) &&
    var f, d := Size(FixedBlock(ts), last, at, out), Size(dyn, last, at, out);
    if buf.Some? && |buf.value| + 4 <= Bytes(Least(f, d)) then b == StoredBlock(buf.value)
    else if fixedStrategy || Bytes(f) <= Bytes(d) then b == FixedBlock(ts)
    else b == dyn
  }

  lemma BlockSizes(ts: seq<Token>, dyn: Block, data: seq<byte>, last: bool, at: nat, out: seq<byte>)
    requires dyn.DynamicBlock? && ValidBlock(dyn, out) && ValidBlock(FixedBlock(ts), out) && |data| <= 65535
    ensures ValidBlock(StoredBlock(data), out) &&
            Size(StoredBlock(data), last, at, out) == 3 + Padding(at) + 32 + 8 * |data|
    ensures Size(FixedBlock(ts), last, at, out) == 3 + |DataBits(FixedCodes(), ts)|
    ensures Size(dyn, last, at, out) == 3 + |HeaderBits(dyn.h)| + |DataBits(dyn.k, dyn.tokens)|
  {
    hide DataBits, HeaderBits, BytesToBits, FixedCodes, ValidHeader, AllEncodable, ValidTokens;
  }

  /** How good the decision is outside Z_FIXED.  A block that is not stored takes no more bytes than the other one with
      codes, and fewer bits than the stored one.  A stored block is a smallest one exactly when its padding allows it,
      and is never more than 17 bits above. */
  lemma ChosenSize(b: Block, dyn: Block, ts: seq<Token>, buf: Option<seq<byte>>, last: bool, at: nat, out: seq<byte>)
    requires Chosen(b, dyn, ts, buf, false, last, at, out)
    ensures var f, d := Size(FixedBlock(ts), last, at, out), Size(dyn, last, at, out);
      ValidBlock(b, out) &&
      (!b.StoredBlock? ==>
         Bytes(Size(b, last, at, out)) <= Bytes(f) && Bytes(Size(b, last, at, out)) <= Bytes(d) &&
         (buf.Some? ==> Size(b, last, at, out) < Size(StoredBlock(buf.value), last, at, out))) &&
      (b.StoredBlock? ==>
         Size(b, last, at, out) <= Least(f, d) + 17 &&
         (Size(b, last, at, out) <= Least(f, d) <==> Padding(at) + 32 + 8 * |b.data| <= Least(f, d) - 3))
  {
    hide BlockBits, Align, AllEncodable, ValidHeader, ValidTokens;
    BlockSizes(ts, dyn, if buf.Some? then buf.value else [], last, at, out);
  }

  /** `b` is the dynamic block of plan `p`. */
  ghost predicate PlannedBlock(p: Plan, ts: seq<Token>, b: Block, out: seq<byte>)
  {
    GoodPlan(p, ts) && ValidBlock(b, out) && b == DynamicBlock(ts, PlanCodes(p), PlanOf(p))
  }

  lemma PlanBlock(p: Plan, ts: seq<Token>, out: seq<byte>) returns (b: Block)
    requires GoodPlan(p, ts) && ValidTokens(out, ts)
    ensures PlannedBlock(p, ts, b, out) && ValidBlock(b, out) && b.DynamicBlock? && b.k == PlanCodes(p)
  {
    hide ValidHeader, AllEncodable, ValidTokens;
    b := DynamicBlock(ts, PlanCodes(p), PlanOf(p));
  }

  lemma PlanOwn(p: Plan, ts: seq<Token>, b: Block, out: seq<byte>)
    requires PlannedBlock(p, ts, b, out) && AllSendable(ts)
    requires Made(LitFreqs(ts), L_CODES, 15, p.ll) && Made(DistFreqs(ts), D_CODES, 15, p.dl) &&
             Made(ItemFreqs(AllItems(p.ll, p.dl)), BL_CODES, 7, p.clens)
    ensures OwnCodes(b, ts)
  {
    hide Made, ValidHeader, AllEncodable, LitFreqs, DistFreqs, ItemFreqs, AllItems, ClOf, ClensOf, HasItems, AllCoded,
         Bounded, AllSendable;
  }

  lemma BlockOutIs(b: Block, p: Plan, dyn: Block, ts: seq<Token>, out: seq<byte>, buf: Option<seq<byte>>)
    requires PlannedBlock(p, ts, dyn, out) && ValidTokens(out, ts) && AllEncodable(FixedCodes(), ts)
    requires b == FixedBlock(ts) || b == dyn || (buf.Some? && b == StoredBlock(buf.value))
    requires buf.Some? ==> out + buf.value == Expand(out, ts) && |buf.value| <= 65535
    ensures ValidBlock(b, out) && BlockOut(b, out) == Expand(out, ts)
  {
    hide ValidHeader, AllEncodable, ValidTokens, Expand;
  }

  lemma ChosenIs(b: Block, p: Plan, dyn: Block, ts: seq<Token>, out: seq<byte>, buf: Option<seq<byte>>, storedLen: nat,
                 fixedStrategy: bool,
                 optLen: int, staticLen: int, last: bool, at: nat)
    requires PlannedBlock(p, ts, dyn, out) && AllEncodable(FixedCodes(), ts) && ValidTokens(out, ts)
    requires optLen == DynamicSize(p, ts) && staticLen == FixedSize(ts) &&
             (buf.Some? ==> |buf.value| == storedLen <= 65535)
    requires var optLenb, staticLenb := (optLen + 3 + 7) / 8, (staticLen + 3 + 7) / 8;
             var lenb := if staticLenb <= optLenb then staticLenb else optLenb;
             if storedLen + 4 <= lenb && buf.Some? then b == StoredBlock(buf.value)
             else if fixedStrategy || staticLenb == lenb then b == FixedBlock(ts)
             else b == dyn
    ensures Chosen(b, dyn, ts, buf, fixedStrategy, last, at, out)
  {
    hide ValidHeader, AllEncodable, HeaderBits, DataBits, FixedLit, FixedDist, BlockBits, ValidTokens;
    BlockSizes(ts, dyn, if buf.Some? then buf.value else [], last, at, out);
  }

  lemma FixedCodedUpTo(t: Tables)
    requires ValidTables(t)
    ensures CodedUpTo(FixedLit(), t.lcodes, L_CODES) && CodedUpTo(FixedDist(), t.dcodes, D_CODES)
  {
    hide G.Coded, LengthMap, DistMap;
  }

  /** Sends the three bits that open a block. */
  method SendType(w: Writer, kind: nat, last: bool)
    requires w.Valid() && kind < 3
    modifies w`pending, w`biBuf, w`biValid
    ensures w.Valid() && w.Sent() == old(w.Sent()) + TypeBits(last, kind)
  {
    hide w.Sent;
    TypeValue(kind, last);
    w.SendBits(kind * 2 + (if last then 1 else 0), 3);
  }

  lemma TypeValue(kind: nat, last: bool)
    requires kind < 3
    ensures var v := kind * 2 + (if last then 1 else 0); v < Pow2(3) && ToBits(v, 3) == TypeBits(last, kind)
  {
    var v := kind * 2 + (if last then 1 else 0);
    assert v / 2 == kind && (v % 2 == 1) == last;
    assert Pow2(3) == 8;
  }

  /** _tr_stored_block. */
  method SendStored(w: Writer, buf: seq<byte>, last: bool, ghost out: seq<byte>)
    requires w.Valid() && |buf| <= 65535
    modifies w`pending, w`biBuf, w`biValid
    ensures w.Valid() && w.biValid == 0 &&
            w.Sent() == old(w.Sent()) + BlockBits(StoredBlock(buf), last, |old(w.Sent())|, out)
  {
    hide w.Sent, w.Bytes, TypeBits, BytesToBits, ToBits, Pow2, Align, Zeros;
    Pow2Values();
    ghost var s := w.Sent();
    SendType(w, 0, last);
    w.BiWindup();
    w.Aligned();
    ghost var z := Zeros(Align(|s| + 3) - (|s| + 3));
    w.PutShort(|buf|);
    w.PutShort(65535 - |buf|);
    w.PutBytes(buf);
    w.Aligned();
    StoredParts(s, TypeBits(last, 0), z, ToBits(|buf|, 16), ToBits(65535 - |buf|, 16), BytesToBits(buf));
  }

  lemma StoredParts(s: seq<bool>, t: seq<bool>, z: seq<bool>, a: seq<bool>, b: seq<bool>, d: seq<bool>)
    ensures s + t + z + a + b + d == s + (t + (z + ((a + b) + d)))
  {
    SeqAssoc(s + t + z, a, b);
    SeqAssoc(s + t + z, a + b, d);
    SeqAssoc(s + t, z, (a + b) + d);
    SeqAssoc(s, t, z + ((a + b) + d));
  }

  /** _tr_align: an empty fixed block, of which at most seven bits stay in the bit buffer. */
  method SendAlign(w: Writer, t: Tables, ghost out: seq<byte>)
    requires w.Valid() && ValidTables(t)
    modifies w`pending, w`biBuf, w`biValid
    ensures w.Valid() && w.biValid <= 7 &&
            w.Sent() == old(w.Sent()) + BlockBits(FixedBlock([]), false, |old(w.Sent())|, out)
  {
    hide w.Sent, ValidTables, TypeBits, Code, CodedUpTo;
    FixedCodedUpTo(t);
    FixedEncodes([]);
    EndSymbol(FixedCodes(), FixedLit(), t.lcodes, []);
    SeqAssoc(w.Sent(), TypeBits(false, 1), Code(FixedLit(), 256));
    SendType(w, 1, false);
    SendSymbol(w, FixedLit(), t.lcodes, L_CODES, END_BLOCK);
    w.BiFlush();
  }

  /** Block round trip: whatever block is chosen, the format machine turns its bits into the expansion of the tokens
      and stops right behind it. */
  lemma FlushRoundTrip(s: seq<bool>, sent: seq<bool>, b: Block, last: bool, out: seq<byte>, ts: seq<Token>)
    requires ValidTokens(out, ts) && ValidBlock(b, out) && BlockOut(b, out) == Expand(out, ts) && |s| % 8 == 0
    requires sent + BlockBits(b, last, |sent|, out) <= s
    ensures Reaches(s, Config(false, TypeDo, |sent|, out),
                    Config(last, TypeDo, |sent + BlockBits(b, last, |sent|, out)|, Expand(out, ts)))
  {
    hide Reaches, BlockBits, ValidBlock, Expand;
    assert At(s, |sent|, BlockBits(b, last, |sent|, out));
    BlockRun(s, Config(false, TypeDo, |sent|, out), last, b);
  }

  lemma DataTreeFacts(ts: seq<Token>, lf: seq<nat>, df: seq<nat>, ldl: seq<nat>, lfc: seq<nat>, lmax: nat,
                      ddl: seq<nat>, dfc: seq<nat>, dmax: nat,
                      o1: int, s1: int, o2: int, s2: int)
    requires AllSendable(ts) && |lf| >= L_CODES && |df| >= D_CODES && lf[..L_CODES] == LitFreqs(ts) &&
             df[..D_CODES] == DistFreqs(ts)
    requires TreeDone(lf, L_CODES, LitDesc(), ldl, lfc, lmax, o1, s1) &&
             TreeDone(df, D_CODES, DistDesc(), ddl, dfc, dmax, o2, s2)
    ensures 256 <= lmax < 286 && dmax < 30 && lmax < |ldl| == |lfc| && dmax < |ddl| == |dfc| && ldl[256] >= 1
    ensures Bounded(Cut(ldl, lmax), MAX_BITS) && Bounded(Cut(ddl, dmax), MAX_BITS)
  {
    hide LitFreqs, DistFreqs, Bill, FixedLit, FixedDist, EXTRA_L, EXTRA_D, AllCoded, Top, Pow2;
    PlanEncodes(ts, lf, df, ldl, lmax, ddl, dmax, o1, s1, o2, s2);
  }

  lemma Snoc(ts: seq<Token>, ts': seq<Token>, t: Token)
    requires AllSendable(ts) && Sendable(t) && |ts'| == |ts| + 1 && ts'[..|ts|] == ts && ts'[|ts|] == t
    ensures ts' == ts + [t] && AllSendable(ts') && LitFreqs(ts') == Bump(LitFreqs(ts), LitSym(t))
    ensures DistFreqs(ts') == if t.Literal? then DistFreqs(ts) else Bump(DistFreqs(ts), DistCode(t.dist))
  {
    hide LitSym, DistCode;
    forall i | 0 <= i < |ts'| ensures Sendable(ts'[i]) { if i < |ts| { assert ts'[i] == ts[i]; } }
    assert ts'[..|ts'| - 1] == ts;
  }

  method Increment(a: array<nat>, n: nat, i: nat)
    requires i < n <= a.Length
    modifies a
    ensures a[..n] == Bump(old(a[..n]), i)
  {
    a[i] := a[i] + 1;
  }

  method ClearFreqs(a: array<nat>, n: nat)
    requires n <= a.Length
    modifies a
    ensures forall i :: 0 <= i < n ==> a[i] == 0
  {
    var i := 0;
    while i < n
      invariant 0 <= i <= n && forall j :: 0 <= j < i ==> a[j] == 0
    {
      a[i] := 0;
      i := i + 1;
    }
  }
}
