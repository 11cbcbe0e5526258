/**
  trees.c: symbol frequencies of a token buffer, and the proof that frequencies times code lengths
  count exactly the bits that compress_block and send_tree send.
*/
module BlockCost {
  import opened Bits
  import opened Canonical
  import opened InflateTable
  import opened Format
  import opened Encoding
  import opened StaticTables
  import opened CodeLengths
  import opened GenBitlen
  import opened MakeTree

  predicate Sendable(t: Token)
  {
    t.Literal? || (3 <= t.len <= 258 && 1 <= t.dist <= 32768)
  }

  predicate AllSendable(ts: seq<Token>)
  {
    forall i :: 0 <= i < |ts| ==> Sendable(ts[i])
  }

  /** The literal/length symbol of a token. */
  function LitSym(t: Token): (s: nat)
    requires Sendable(t)
    ensures s < L_CODES && s != END_BLOCK
  {
    if t.Literal? then t.b else 257 + LengthCode(t.len)
  }

  function Bump(f: seq<nat>, s: nat): (g: seq<nat>)
    requires s < |f|
    ensures |g| == |f|
  {
    f[s := f[s] + 1]
  }

  function ZeroFreqs(n: nat): (f: seq<nat>)
    ensures |f| == n && forall i :: 0 <= i < n ==> f[i] == 0
  {
    seq(n, i => 0)
  }

  /** How often each literal/length symbol occurs, counting the end of block once. */
  function LitFreqs(ts: seq<Token>): (f: seq<nat>)
    requires AllSendable(ts)
    ensures |f| == L_CODES
  {
    if ts == [] then Bump(ZeroFreqs(L_CODES), END_BLOCK)
    else Bump(LitFreqs(ts[..|ts| - 1]), LitSym(ts[|ts| - 1]))
  }

  function DistFreqs(ts: seq<Token>): (f: seq<nat>)
    requires AllSendable(ts)
    ensures |f| == D_CODES
  {
    if ts == [] then ZeroFreqs(D_CODES)
    else
      var f := DistFreqs(ts[..|ts| - 1]);
      var t := ts[|ts| - 1];
      if t.Literal? then f else Bump(f, DistCode(t.dist))
  }

  lemma {:induction false} BillBump(f: seq<nat>, s: nat, lens: seq<nat>, extra: seq<nat>, base: nat, n: nat)
    requires s < |f| && n <= |f| && n <= |lens|
    ensures Bill(Bump(f, s), lens, extra, base, n)
         == Bill(f, lens, extra, base, n) + if s < n then lens[s] + XBits(extra, base, s) else 0
  {
    hide XBits;
    if n > 0 {
      BillBump(f, s, lens, extra, base, n - 1);
      if s == n - 1 { OneMore(f[s], lens[s] + XBits(extra, base, s)); }
    }
  }

  lemma OneMore(a: nat, b: nat)
    ensures (a + 1) * b == a * b + b
  {
  }

  lemma {:induction false} BillZero(f: seq<nat>, lens: seq<nat>, extra: seq<nat>, base: nat, n: nat)
    requires n <= |f| && n <= |lens| && forall i :: 0 <= i < n ==> f[i] == 0
    ensures Bill(f, lens, extra, base, n) == 0
  {
    if n > 0 {
      BillZero(f, lens, extra, base, n - 1);
      assert 0 * (lens[n - 1] + XBits(extra, base, n - 1)) == 0;
    }
  }

  lemma {:induction false} DataBitsSnoc(k: Codes, ts: seq<Token>, t: Token)
    requires AllEncodable(k, ts) && Encodable(k, t)
    ensures AllEncodable(k, ts + [t]) && |DataBits(k, ts + [t])| == |DataBits(k, ts)| + |TokenBits(k, t)|
    decreases |ts|
  {
    hide TokenBits, Encodable;
    if ts == [] {
      assert (ts + [t])[1..] == [];
    } else {
      DataBitsSnoc(k, ts[1..], t);
      assert (ts + [t])[1..] == ts[1..] + [t] && (ts + [t])[0] == ts[0];
    }
  }

  /** `ll` and `dl` are the lengths of `k`, as far as symbols in use go. */
  ghost predicate LensFor(k: Codes, ll: seq<nat>, dl: seq<nat>)
  {
    |ll| >= L_CODES && |dl| >= D_CODES && (forall i :: 0 <= i < |k.ll| && i < L_CODES ==> ll[i] == k.ll[i]) &&
    forall i :: 0 <= i < |k.dl| && i < D_CODES ==> dl[i] == k.dl[i]
  }

  function Charge(ts: seq<Token>, ll: seq<nat>, dl: seq<nat>): (n: int)
    requires AllSendable(ts) && |ll| >= L_CODES && |dl| >= D_CODES
  {
    Bill(LitFreqs(ts), ll, EXTRA_L, 257, L_CODES) + Bill(DistFreqs(ts), dl, EXTRA_D, 0, D_CODES)
  }

  lemma TokenCost(k: Codes, t: Token, ll: seq<nat>, dl: seq<nat>)
    requires Encodable(k, t) && LensFor(k, ll, dl)
    ensures Sendable(t)
    ensures |TokenBits(k, t)| == ll[LitSym(t)] + XBits(EXTRA_L, 257, LitSym(t))
                               + if t.Literal? then 0 else dl[DistCode(t.dist)] + XBits(EXTRA_D, 0, DistCode(t.dist))
  {
    hide Code, LengthCode, DistCode, ExtraBits, EXTRA_L, EXTRA_D, LEXT, DEXT, LBASE, DBASE, ToBits;
    TableSizes();
    if t.Copy? {
      ExtraLengths(LengthCode(t.len));
      ExtraDists(DistCode(t.dist));
      LengthFits(t.len);
      DistFits(t.dist);
    }
  }

  /** Frequencies times lengths are the bits of the block data. */
  lemma {:induction false} DataCost(k: Codes, ts: seq<Token>, ll: seq<nat>, dl: seq<nat>)
    requires AllEncodable(k, ts) && LensFor(k, ll, dl)
    ensures AllSendable(ts) && |DataBits(k, ts)| == Charge(ts, ll, dl)
    decreases |ts|
  {
    forall i | 0 <= i < |ts| ensures Sendable(ts[i]) { assert Encodable(k, ts[i]); }
    hide Bill, XBits, TokenBits, Encodable, EXTRA_L, EXTRA_D, Code, LensFor, Bump, Sendable, LitSym;
    LensSize(k, ll, dl);
    if ts == [] {
      EmptyCost(k, ll, dl);
    } else {
      var n := |ts| - 1;
      var t := ts[n];
      assert ts == ts[..n] + [t];
      DataCost(k, ts[..n], ll, dl);
      DataBitsSnoc(k, ts[..n], t);
      TokenCost(k, t, ll, dl);
      BillBump(LitFreqs(ts[..n]), LitSym(t), ll, EXTRA_L, 257, L_CODES);
      if t.Copy? { BillBump(DistFreqs(ts[..n]), DistCode(t.dist), dl, EXTRA_D, 0, D_CODES); }
    }
  }

  lemma LensSize(k: Codes, ll: seq<nat>, dl: seq<nat>)
    requires LensFor(k, ll, dl)
    ensures |ll| >= L_CODES && |dl| >= D_CODES
  {
  }

  lemma EmptyCost(k: Codes, ll: seq<nat>, dl: seq<nat>)
    requires LensFor(k, ll, dl) && AllEncodable(k, [])
    ensures |DataBits(k, [])| == Charge([], ll, dl)
  {
    hide Bill, EXTRA_L, EXTRA_D;
    BillZero(ZeroFreqs(L_CODES), ll, EXTRA_L, 257, L_CODES);
    BillBump(ZeroFreqs(L_CODES), END_BLOCK, ll, EXTRA_L, 257, L_CODES);
    BillZero(ZeroFreqs(D_CODES), dl, EXTRA_D, 0, D_CODES);
  }

  // ------------------------------------------------------------------ packed code lengths

  function ItemFreqs(items: seq<Item>): (f: seq<nat>)
    ensures |f| == BL_CODES && forall s :: 0 <= s < BL_CODES ==> f[s] == Freq(items, s)
  {
    seq(BL_CODES, s requires 0 <= s < BL_CODES => Freq(items, s))
  }

  lemma ItemCost(clens: seq<nat>, it: Item)
    requires HasItem(clens, it)
    ensures it.sym < BL_CODES && |ItemBits(clens, it)| == clens[it.sym] + XBits(EXTRA_BL, 0, it.sym)
  {
    hide Code, ToBits, Pow2;
  }

  /** Frequencies times lengths are the bits of the packed code lengths. */
  lemma {:induction false} ItemsCost(clens: seq<nat>, items: seq<Item>)
    requires |clens| == BL_CODES && HasItems(clens, items)
    ensures |ItemsBits(clens, items)| == Bill(ItemFreqs(items), clens, EXTRA_BL, 0, BL_CODES)
    decreases |items|
  {
    hide Bill, XBits, ItemBits, EXTRA_BL;
    if items == [] {
      BillZero(ItemFreqs(items), clens, EXTRA_BL, 0, BL_CODES);
    } else {
      ItemCost(clens, items[0]);
      ItemsCost(clens, items[1..]);
      assert ItemFreqs(items) == Bump(ItemFreqs(items[1..]), items[0].sym);
      BillBump(ItemFreqs(items[1..]), items[0].sym, clens, EXTRA_BL, 0, BL_CODES);
    }
  }

  // ------------------------------------------------------------------ totals stay small

  lemma {:induction false} FreqTotal(ts: seq<Token>)
    requires AllSendable(ts)
    ensures FreqSum(LitFreqs(ts), L_CODES) == |ts| + 1 && FreqSum(DistFreqs(ts), D_CODES) <= |ts|
    decreases |ts|
  {
    hide Bump, LitSym, DistCode;
    if ts == [] {
      PlainBump(ZeroFreqs(L_CODES), END_BLOCK, L_CODES);
      PlainZero(ZeroFreqs(L_CODES), L_CODES);
      PlainZero(ZeroFreqs(D_CODES), D_CODES);
    } else {
      var n := |ts| - 1;
      FreqTotal(ts[..n]);
      PlainBump(LitFreqs(ts[..n]), LitSym(ts[n]), L_CODES);
      if ts[n].Copy? { PlainBump(DistFreqs(ts[..n]), DistCode(ts[n].dist), D_CODES); }
    }
  }

  /** Sum of the first `n` frequencies. */
  function FreqSum(f: seq<nat>, n: nat): (s: nat)
    requires n <= |f|
  {
    if n == 0 then 0 else FreqSum(f, n - 1) + f[n - 1]
  }

  lemma {:induction false} PlainBump(f: seq<nat>, s: nat, n: nat)
    requires s < |f| && n <= |f|
    ensures FreqSum(Bump(f, s), n) == FreqSum(f, n) + if s < n then 1 else 0
  {
    if n > 0 { PlainBump(f, s, n - 1); }
  }

  lemma {:induction false} PlainZero(f: seq<nat>, n: nat)
    requires n <= |f| && forall i :: 0 <= i < n ==> f[i] == 0
    ensures FreqSum(f, n) == 0
  {
    if n > 0 { PlainZero(f, n - 1); }
  }
}
