/**
  trees.c, _tr_flush_block: an input for which the block that is stored is not the smallest.  The comparison leaves out
  the type and the padding of a stored block, and so prefers it to a block with the fixed codes that has 15 bits less.
*/
module BlockExample {
  import opened Bits
  import opened Canonical
  import opened InflateTable
  import opened Format
  import opened Encoding
  import opened StaticTables
  import opened BlockCost
  import opened MakeTree
  import opened Blocks
  import H = Huffman
  import B = BuildTree
  import K = Ranks

  /** Literals that have nine bits with the fixed codes. */
  function Literals(n: nat): (ts: seq<Token>)
    requires n <= 100
    ensures |ts| == n
  {
    seq(n, i requires 0 <= i < n => Literal(144 + i))
  }

  function Plain(n: nat): (data: seq<byte>)
    requires n <= 100
    ensures |data| == n
  {
    seq(n, i requires 0 <= i < n => 144 + i)
  }

  // ------------------------------------------------------------------ bits of the literals

  /** The lengths of the symbols from `a` on. */
  function Lengths(lens: seq<nat>, a: nat, n: nat): (s: nat)
    requires a + n <= |lens|
    decreases n
  {
    if n == 0 then 0 else lens[a] + Lengths(lens, a + 1, n - 1)
  }

  lemma {:induction false} LiteralBits(k: Codes, ts: seq<Token>, a: nat)
    requires AllEncodable(k, ts) && a + |ts| <= 256 && forall i :: 0 <= i < |ts| ==> ts[i] == Literal(a + i)
    ensures |DataBits(k, ts)| == Lengths(k.ll, a, |ts|) + k.ll[256]
    decreases |ts|
  {
    if ts != [] {
      forall i | 0 <= i < |ts[1..]| ensures ts[1..][i] == Literal(a + 1 + i) { assert ts[1..][i] == ts[i + 1]; }
      assert AllEncodable(k, ts[1..]);
      LiteralBits(k, ts[1..], a + 1);
    }
  }

  lemma {:induction false} FixedLengths(a: nat, n: nat)
    requires 144 <= a && a + n <= 256
    ensures Lengths(FixedLit(), a, n) == 9 * n
    decreases n
  {
    if n > 0 { FixedLengths(a + 1, n - 1); }
  }

  // ------------------------------------------------------------------ sixteen codes have 64 bits at least

  /** The symbols from `a` on and the end of block. */
  ghost function Symbols(a: nat, n: nat): (r: set<nat>)
    ensures forall s :: s in r <==> a <= s < a + n || s == 256
    decreases n
  {
    if n == 0 then {256} else Symbols(a + 1, n - 1) + {a}
  }

  lemma {:induction false} RangeTotal(g: seq<int>, a: nat, n: nat)
    requires a + n <= 256 < |g|
    ensures H.Total(Symbols(a, n), g) == RangeSum(g, a, n) + g[256]
    decreases n
  {
    if n == 0 {
      assert Symbols(a, 0) == {256};
      H.SumSingle(256, g, |g|);
    } else {
      RangeTotal(g, a + 1, n - 1);
      assert Symbols(a, n) == Symbols(a + 1, n - 1) + {a};
      H.SumAdd(Symbols(a + 1, n - 1), a, g, |g|);
    }
  }

  function RangeSum(g: seq<int>, a: nat, n: nat): (s: int)
    requires a + n <= |g|
    decreases n
  {
    if n == 0 then 0 else g[a] + RangeSum(g, a + 1, n - 1)
  }

  /** A code of `l` bits takes at least this share of 2^15: a chord of the exponential. */
  lemma Chord(l: nat)
    requires l <= 15
    ensures H.Share(l, 15) >= 6144 - 1024 * l
  {
    Pow2Values();
    if l <= 3 {
      Pow2Mono(12, 15 - l);
      Pow2Add(4, 8);
      if l <= 2 { Pow2Mono(13, 15 - l); }
      if l == 1 { Pow2Add(1, 13); }
      if l == 0 { }
    } else if l == 4 {
      Pow2Add(3, 8);
    } else if l == 5 {
      Pow2Add(2, 8);
    }
  }

  lemma {:induction false} ChordSum(lens: seq<nat>, len: seq<int>, a: nat, n: nat)
    requires a + n <= |lens| == |len| && forall i :: a <= i < a + n ==> len[i] == lens[i] <= 15
    ensures RangeSum(H.Shares(len, 15), a, n) >= 6144 * n - 1024 * Lengths(lens, a, n)
    decreases n
  {
    hide H.Share;
    if n > 0 {
      Chord(lens[a]);
      ChordSum(lens, len, a + 1, n - 1);
    }
  }

  /** Fifteen literals and the end of block take at least 64 bits. */
  lemma ManyBits(lens: seq<nat>, a: nat, n: nat)
    requires Fits(lens) && Bounded(lens, 15) && n == 15 && a + n <= 256 < |lens| && lens[256] >= 1 &&
             forall i :: a <= i < a + n ==> lens[i] >= 1
    ensures Lengths(lens, a, n) + lens[256] >= 64
  {
    hide Fits, H.Share, H.Feasible, Lengths, RangeSum, Symbols, Code, H.Total, Pow2;
    var r := Symbols(a, n);
    var code := CodesOf(lens);
    forall i, j | i in r && j in r && i != j ensures !(code[i] <= code[j]) { PrefixFree(lens, i, j); }
    Sizes(lens, code, r);
    Kraft(r, code, 15);
    var len := LengthsOf(code);
    KraftSum(r, len);
    RangeTotal(H.Shares(len, 15), a, n);
    ChordSum(lens, len, a, n);
    Chord(lens[256]);
  }

  ghost function CodesOf(lens: seq<nat>): (code: seq<seq<bool>>)
    ensures |code| == |lens| && forall s :: 0 <= s < |lens| && lens[s] >= 1 ==> code[s] == Code(lens, s)
  {
    seq(|lens|, s requires 0 <= s < |lens| => if lens[s] >= 1 then Code(lens, s) else [])
  }

  lemma KraftSum(r: set<nat>, len: seq<int>)
    requires H.Feasible(r, len, 15)
    ensures H.Total(r, H.Shares(len, 15)) <= 32768
  {
    Pow2Values();
  }

  lemma Sizes(lens: seq<nat>, code: seq<seq<bool>>, r: set<nat>)
    requires Bounded(lens, 15) && |code| == |lens| &&
             forall s :: s in r ==> s < |lens| && lens[s] >= 1 && code[s] == Code(lens, s)
    ensures forall s :: s in r ==> |code[s]| == lens[s] <= 15
  {
  }

  // ------------------------------------------------------------------ the header has 83 bits at least

  /** A length that occurs is sent as a symbol of its own at least once. */
  lemma {:induction false} SentOnce(lens: seq<nat>, items: seq<Item>, v: nat, i: nat) returns (j: nat)
    requires Unpackable(lens, items) && 1 <= v < 16 && (forall i :: 0 <= i < |lens| ==> lens[i] != v)
    requires i < |UnpackAll(lens, items)| && UnpackAll(lens, items)[i] == v
    ensures j < |items| && items[j].sym == v
    decreases |items|
  {
    assert items != [];
    if items[0].sym == v {
      j := 0;
    } else {
      var k := SentOnce(Unpack(lens, items[0]), items[1..], v, i);
      j := k + 1;
    }
  }

  lemma ItemSize(clens: seq<nat>, lens: seq<nat>, it: Item)
    requires HasItem(clens, it) && (it.sym == 16 ==> lens != [])
    ensures 8 * (|Unpack(lens, it)| - |lens|) <= 138 * |ItemBits(clens, it)|
  {
    Pow2Values();
  }

  /** No item stands for more than 138 lengths in eight bits. */
  lemma {:induction false} ItemsSize(clens: seq<nat>, lens: seq<nat>, items: seq<Item>)
    requires HasItems(clens, items) && Unpackable(lens, items)
    ensures 8 * (|UnpackAll(lens, items)| - |lens|) <= 138 * |ItemsBits(clens, items)|
    decreases |items|
  {
    hide ItemBits, Unpack, HasItem;
    if items != [] {
      ItemSize(clens, lens, items[0]);
      ItemsSize(clens, Unpack(lens, items[0]), items[1..]);
    }
  }

  lemma HeaderLong(h: Header, k: Codes, i: nat)
    requires ValidHeader(h, k) && i < |k.dl| && k.dl[i] == 1
    ensures |HeaderBits(h)| >= 83
  {
    hide Acceptable, Bounded, ValidCodes, ClensOf, ItemsBits, UnpackAll, Unpackable;
    var clens := ClensOf(h.cl);
    var j := SentOnce([], h.items, 1, |k.ll| + i);
    OneIsLate(h.cl, h.items[j]);
    ItemsSize(clens, [], h.items);
  }

  lemma OneIsLate(cl: seq<nat>, it: Item)
    requires |cl| <= 19 && HasItem(ClensOf(cl), it) && it.sym == 1
    ensures |cl| >= 18
  {
  }

  // ------------------------------------------------------------------ two forced distances have one bit each

  lemma TwoTotal(a: nat, b: nat, g: seq<int>)
    requires a < |g| && b < |g| && a != b
    ensures H.Total({a, b}, g) == g[a] + g[b]
  {
    H.SumSingle(a, g, |g|);
    H.SumAdd({a}, b, g, |g|);
    assert {a} + {b} == {a, b};
  }

  /** Codes for two symbols have at least one bit each. */
  lemma TwoLengths(a: nat, b: nat, len: seq<int>, m: nat)
    requires H.Feasible({a, b}, len, m) && a != b
    ensures a < |len| && b < |len| && len[a] >= 1 && len[b] >= 1
  {
    assert a in {a, b} && b in {a, b};
    TwoTotal(a, b, H.Shares(len, m));
    H.SharePositive(len[a], m);
    H.SharePositive(len[b], m);
    if len[a] == 0 || len[b] == 0 { H.ShareZero(m); }
  }

  lemma TwoCost(a: nat, b: nat, f: seq<nat>, len: seq<int>)
    requires a < |f| == |len| && b < |f| && a != b && f[a] == 1 && f[b] == 1
    ensures H.Cost({a, b}, f, len) == len[a] + len[b]
  {
    TwoTotal(a, b, H.Weights(f, len));
  }

  lemma OneBitEach(a: nat, b: nat, f: seq<nat>, dl: seq<nat>)
    requires a < |f| == |dl| && b < |f| && a != b && f[a] == 1 && f[b] == 1 && dl[a] >= 1 && dl[b] >= 1
    requires K.FitsLimit({a, b}, f, 15) ==> H.Optimal({a, b}, f, dl)
    ensures dl[a] == 1 && dl[b] == 1
  {
    var one := OneBits(a, b, f);
    TwoCost(a, b, f, one);
    TwoCost(a, b, f, dl);
    hide H.Feasible, H.Cost;
  }

  /** One bit for each of two symbols is optimal. */
  lemma OneBits(a: nat, b: nat, f: seq<nat>) returns (one: seq<int>)
    requires a < |f| && b < |f| && a != b && f[a] == 1 && f[b] == 1
    ensures |one| == |f| && one[a] == 1 && one[b] == 1 && H.Feasible({a, b}, one, 15) && H.Optimal({a, b}, f, one)
  {
    hide Pow2, H.Cost;
    one := seq(|f|, _ => 1);
    TwoTotal(a, b, H.Shares(one, 15));
    H.ShareHalf(1, 15);
    H.ShareZero(15);
    assert H.Feasible({a, b}, one, 15);
    hide H.Feasible;
    TwoCost(a, b, f, one);
    forall other: seq<int>, m: nat | |other| == |f| && H.Feasible({a, b}, other, m)
      ensures H.Cost({a, b}, f, one) <= H.Cost({a, b}, f, other) {
      TwoLengths(a, b, other, m);
      TwoCost(a, b, f, other);
    }
    assert H.Optimal({a, b}, f, one);
  }

  /** Without distances two of them are forced, with codes of one bit. */
  lemma ForcedDistances(f0: seq<nat>, n: nat, dl: seq<nat>) returns (s: nat)
    requires HuffmanFor(f0, n, 15, dl) && 3 <= n <= |f0| && forall i :: 0 <= i < n ==> f0[i] == 0
    ensures s < n && s < |dl| && dl[s] == 1
  {
    hide H.Optimal, K.FitsLimit;
    var f: seq<nat>, forced: seq<nat> :| HuffmanWith(f0, n, 15, dl, f, forced);
    assert B.Leaves(f0, n) == {};
    var a, b := forced[0], forced[1];
    assert forced == [a, b];
    assert B.Leaves(f, n) == {a, b};
    OneBitEach(a, b, f, dl);
    s := a;
  }

  lemma {:induction false} NoDistances(ts: seq<Token>)
    requires AllSendable(ts) && forall i :: 0 <= i < |ts| ==> ts[i].Literal?
    ensures forall i :: 0 <= i < D_CODES ==> DistFreqs(ts)[i] == 0
    decreases |ts|
  {
    if ts != [] { NoDistances(ts[..|ts| - 1]); }
  }

  lemma OneInside(ts: seq<Token>, lens: seq<nat>) returns (s: nat)
    requires AllSendable(ts) && (forall i :: 0 <= i < |ts| ==> ts[i].Literal?) && Made(DistFreqs(ts), D_CODES, 15, lens)
    ensures s < |lens| && lens[s] == 1
  {
    hide HuffmanFor, DistFreqs, AllSendable;
    NoDistances(ts);
    var f0: seq<nat>, dl: seq<nat> :| MadeFrom(DistFreqs(ts), D_CODES, 15, lens, f0, dl);
    forall i | 0 <= i < D_CODES ensures f0[i] == 0 { assert f0[..D_CODES][i] == DistFreqs(ts)[i]; }
    s := ForcedDistances(f0, D_CODES, dl);
  }

  // ------------------------------------------------------------------ the example

  /** For the literals 144 to 158 at the start of a stream the stored block is chosen, with 160 bits.  With the fixed
      codes the block would have 145. */
  lemma StoredIsLarger(n: nat, ts: seq<Token>, data: seq<byte>, b: Block, dyn: Block, last: bool)
    requires n == 15 && ts == Literals(n) && data == Plain(n) && AllSendable(ts) &&
             Chosen(b, dyn, ts, Some(data), false, last, 0, [])
    requires Made(DistFreqs(ts), D_CODES, 15, dyn.k.dl)
    ensures b == StoredBlock(data) && Size(b, last, 0, []) == 160
    ensures ValidBlock(FixedBlock(ts), []) && Size(FixedBlock(ts), last, 0, []) == 145 &&
            BlockOut(b, []) == BlockOut(FixedBlock(ts), [])
  {
    hide Made, DistFreqs, AllSendable, Size, DataBits, HeaderBits, Literals, Plain, AllEncodable, ValidHeader, Align,
         Expand, ValidTokens, FixedLit, FixedDist;
    FixedBits(n, ts);
    DynamicBits(n, ts, dyn);
    BlockSizes(ts, dyn, data, last, 0, []);
    assert Padding(0) == 5 by { PadZero(); }
    SameText(n, ts, data);
  }

  lemma PadZero()
    ensures Padding(0) == 5
  {
  }

  lemma SameText(n: nat, ts: seq<Token>, data: seq<byte>)
    requires n <= 100 && ts == Literals(n) && data == Plain(n) && ValidTokens([], ts)
    ensures Expand([], ts) == [] + data
  {
    ExpandsTo(ts, data, []);
  }

  lemma FixedBits(n: nat, ts: seq<Token>)
    requires n <= 100 && ts == Literals(n) && AllEncodable(FixedCodes(), ts)
    ensures |DataBits(FixedCodes(), ts)| == 9 * n + 7
  {
    LiteralBits(FixedCodes(), ts, 144);
    FixedLengths(144, n);
  }

  lemma DynamicBits(n: nat, ts: seq<Token>, dyn: Block)
    requires n == 15 && ts == Literals(n) && AllSendable(ts) && dyn.DynamicBlock? && dyn.tokens == ts &&
             ValidBlock(dyn, [])
    requires Made(DistFreqs(ts), D_CODES, 15, dyn.k.dl)
    ensures |HeaderBits(dyn.h)| + |DataBits(dyn.k, ts)| >= 147
  {
    hide Made, DistFreqs, AllSendable, DataBits, HeaderBits, ValidTokens, Acceptable, Bounded, Fits, HasItems, ClensOf,
         Unpackable, UnpackAll, Lengths, AllEncodable;
    var k := dyn.k;
    var s := OneInside(ts, k.dl);
    HeaderLong(dyn.h, k, s);
    LiteralBits(k, ts, 144);
    AllUsed(k, n, ts);
    AcceptableFits(LENS, k.ll);
    ManyBits(k.ll, 144, n);
  }

  lemma AllUsed(k: Codes, n: nat, ts: seq<Token>)
    requires n <= 100 && ts == Literals(n) && AllEncodable(k, ts)
    ensures |k.ll| > 256 && k.ll[256] >= 1 && forall i :: 144 <= i < 144 + n ==> k.ll[i] >= 1
  {
    forall i | 144 <= i < 144 + n ensures i < |k.ll| && k.ll[i] >= 1 { assert Encodable(k, ts[i - 144]); }
  }

  lemma {:induction false} ExpandsTo(ts: seq<Token>, data: seq<byte>, out: seq<byte>)
    requires |ts| == |data| && (forall i :: 0 <= i < |ts| ==> ts[i] == Literal(data[i])) && ValidTokens(out, ts)
    ensures Expand(out, ts) == out + data
    decreases |ts|
  {
    if ts == [] {
      assert out + data == out;
    } else {
      ExpandsTo(ts[1..], data[1..], out + [data[0]]);
      assert out + [data[0]] + data[1..] == out + data;
    }
  }
}
