/**
  trees.c: the header of a dynamic block, from finished trees to a header the format accepts.
*/
module BlockPlan {
  import opened Bits
  import opened Canonical
  import opened Format
  import opened Encoding
  import opened GenCodes
  import opened CodeLengths
  import opened BlockCost
  import opened MakeTree
  import H = Huffman
  import B = BuildTree

  // ------------------------------------------------------------------ unused symbols at the end

  /** `padded` is `lens` followed by unused symbols. */
  ghost predicate Padded(lens: seq<nat>, padded: seq<nat>)
  {
    lens <= padded && forall i :: |lens| <= i < |padded| ==> padded[i] == 0
  }

  lemma {:induction false} PadCount(lens: seq<nat>, padded: seq<nat>, l: nat, n: nat)
    requires Padded(lens, padded) && l >= 1 && n <= |padded|
    ensures Count(padded, l, n) == Count(lens, l, if n < |lens| then n else |lens|)
    decreases n
  {
    if n > 0 { PadCount(lens, padded, l, n - 1); }
  }

  lemma {:induction false} PadTop(lens: seq<nat>, padded: seq<nat>, l: nat)
    requires Padded(lens, padded)
    ensures Top(padded, l) == Top(lens, l)
    decreases l
  {
    if l > 0 {
      PadTop(lens, padded, l - 1);
      PadCount(lens, padded, l, |padded|);
    }
  }

  lemma PadComplete(lens: seq<nat>, padded: seq<nat>, m: nat)
    requires Padded(lens, padded) && Complete(lens, m)
    ensures Complete(padded, m)
  {
    PadTop(lens, padded, m);
  }

  lemma PadCode(lens: seq<nat>, padded: seq<nat>, s: nat)
    requires Padded(lens, padded) && s < |lens| && lens[s] >= 1
    ensures padded[s] == lens[s] && Code(padded, s) == Code(lens, s)
  {
    PadTop(lens, padded, lens[s] - 1);
    PadCount(lens, padded, lens[s], s);
  }

  lemma PadAllCoded(lens: seq<nat>, padded: seq<nat>, fc: seq<nat>)
    requires Padded(lens, padded) && |fc| == |padded| && AllCoded(lens, fc[..|lens|])
    ensures AllCoded(padded, fc)
  {
    hide Code;
    forall n | 0 <= n < |padded| && padded[n] >= 1 ensures Coded(padded, n, fc[n]) {
      assert n < |lens|;
      assert Coded(lens, n, fc[..|lens|][n]);
      PadCode(lens, padded, n);
    }
  }

  // ------------------------------------------------------------------ the code length code

  /** The lengths of the code length code in the order they are sent. */
  function ClOf(lens: seq<nat>, n: nat): (cl: seq<nat>)
    requires |lens| == BL_CODES && n <= BL_CODES
    ensures |cl| == n && forall r :: 0 <= r < n ==> cl[r] == lens[ORDER[r]]
  {
    OrderRange();
    seq(n, r requires 0 <= r < n => lens[ORDER[r]])
  }

  lemma OrderRange()
    ensures |ORDER| == BL_CODES && |RANK| == BL_CODES &&
            forall r :: 0 <= r < BL_CODES ==> ORDER[r] < BL_CODES && RANK[r] < BL_CODES
  {
  }

  lemma OrderRank(s: nat)
    requires s < BL_CODES
    ensures RANK[s] < BL_CODES && ORDER[RANK[s]] == s && (s < 16 ==> RANK[s] >= 3)
  {
  }

  /** The receiver rebuilds the lengths when all that are not sent are zero. */
  lemma ClRoundTrip(lens: seq<nat>, n: nat)
    requires |lens| == BL_CODES && n <= BL_CODES && |ORDER| == BL_CODES
    requires forall r :: n <= r < BL_CODES ==> ORDER[r] < BL_CODES && lens[ORDER[r]] == 0
    ensures ClensOf(ClOf(lens, n)) == lens
  {
    hide ORDER, RANK;
    OrderRange();
    forall s | 0 <= s < BL_CODES ensures ClensOf(ClOf(lens, n))[s] == lens[s] { OrderRank(s); }
  }

  // ------------------------------------------------------------------ packed lengths

  lemma {:induction false} RunSize(len: nat, count: nat, prev: int)
    requires count >= 1
    ensures |RunItems(len, count, prev)| <= count
  {
  }

  lemma {:induction false} PackSize(lens: seq<nat>, n: nat, count: nat, prev: int)
    requires n <= |lens|
    ensures |PackFrom(lens, n, count, prev)| <= |lens| - n + count
    decreases |lens| - n
  {
    hide RunItems;
    if n < |lens| {
      if count + 1 < MaxCount(lens[n], prev) && lens[n] == NextLen(lens, n) {
        PackSize(lens, n + 1, count + 1, prev);
      } else {
        RunSize(lens[n], count + 1, prev);
        PackSize(lens, n + 1, 0, lens[n]);
      }
    }
  }

  /** Lengths that are not all zero need some symbol 1..15. */
  lemma {:induction false} SomePlain(lens: seq<nat>, items: seq<Item>, i: nat) returns (j: nat)
    requires Unpackable(lens, items) && (forall i :: 0 <= i < |lens| ==> lens[i] == 0)
    requires i < |UnpackAll(lens, items)| && UnpackAll(lens, items)[i] != 0
    ensures j < |items| && 1 <= items[j].sym < 16
    decreases |items|
  {
    assert items != [];
    if 1 <= items[0].sym < 16 {
      j := 0;
    } else {
      var k := SomePlain(Unpack(lens, items[0]), items[1..], i);
      j := k + 1;
    }
  }

  lemma {:induction false} FreqPositive(items: seq<Item>, j: nat)
    requires j < |items|
    ensures Freq(items, items[j].sym) >= 1
    decreases |items|
  {
    if j > 0 { FreqPositive(items[1..], j - 1); }
  }

  lemma {:induction false} ItemsValid(lens: seq<nat>, items: seq<Item>, j: nat)
    requires Unpackable(lens, items) && j < |items|
    ensures ValidItem(items[j]) && items[j].sym < BL_CODES
    decreases |items|
  {
    if j > 0 { ItemsValid(Unpack(lens, items[0]), items[1..], j - 1); }
  }

  lemma {:induction false} ItemsTotal(items: seq<Item>)
    requires forall j :: 0 <= j < |items| ==> items[j].sym < BL_CODES
    ensures FreqSum(ItemFreqs(items), BL_CODES) == |items|
    decreases |items|
  {
    hide FreqSum;
    if items == [] {
      PlainZero(ItemFreqs(items), BL_CODES);
    } else {
      ItemsTotal(items[1..]);
      assert ItemFreqs(items) == Bump(ItemFreqs(items[1..]), items[0].sym);
      PlainBump(ItemFreqs(items[1..]), items[0].sym, BL_CODES);
    }
  }

  function AllItems(ll: seq<nat>, dl: seq<nat>): (items: seq<Item>) { Pack(ll) + Pack(dl) }

  lemma AllItemsFacts(ll: seq<nat>, dl: seq<nat>)
    requires Bounded(ll, MAX_BITS) && Bounded(dl, MAX_BITS) && |ll| > 256 && ll[256] >= 1
    ensures |AllItems(ll, dl)| <= |ll| + |dl|
    ensures forall j :: 0 <= j < |AllItems(ll, dl)| ==>
              ValidItem(AllItems(ll, dl)[j]) && AllItems(ll, dl)[j].sym < BL_CODES
    ensures exists j :: 0 <= j < |AllItems(ll, dl)| && 1 <= AllItems(ll, dl)[j].sym < 16
  {
    hide PackFrom, ValidItem, Unpackable, UnpackAll;
    var items := AllItems(ll, dl);
    PackRoundTrip(ll, dl);
    PackSize(ll, 0, 0, -1);
    PackSize(dl, 0, 0, -1);
    forall j | 0 <= j < |items| ensures ValidItem(items[j]) && items[j].sym < BL_CODES { ItemsValid([], items, j); }
    var j := SomePlain([], items, 256);
  }

  // ------------------------------------------------------------------ the frequencies fit 16 bits

  lemma {:induction false} FreqSumIsSum(f: seq<nat>, elems: nat, n: nat)
    requires n <= elems <= |f|
    ensures H.Sum(B.Leaves(f, elems), f, n) == FreqSum(f, n)
  {
    if n > 0 { FreqSumIsSum(f, elems, n - 1); }
  }

  lemma LightSum(f: seq<nat>, elems: nat)
    requires elems <= |f| && FreqSum(f, elems) <= 0xffff - 2
    ensures Light(f, elems)
  {
    FreqSumIsSum(f, elems, elems);
    SumBeyond(B.Leaves(f, elems), f, elems, |f|);
  }

  lemma {:induction false} FreqSumFrame(f: seq<nat>, g: seq<nat>, n: nat)
    requires n <= |f| && n <= |g| && forall i :: 0 <= i < n ==> f[i] == g[i]
    ensures FreqSum(f, n) == FreqSum(g, n)
  {
    if n > 0 { FreqSumFrame(f, g, n - 1); }
  }

  lemma {:induction false} BillFreqFrame(f: seq<nat>, g: seq<nat>, lens: seq<nat>, extra: seq<nat>, base: nat, n: nat)
    requires n <= |f| && n <= |g| && n <= |lens| && forall i :: 0 <= i < n ==> f[i] == g[i]
    ensures Bill(f, lens, extra, base, n) == Bill(g, lens, extra, base, n)
  {
    if n > 0 { BillFreqFrame(f, g, lens, extra, base, n - 1); }
  }

  // ------------------------------------------------------------------ a valid header

  /** The dynamic header for the lengths `ll` and `dl`, with `n` lengths of the code length code `clens`. */
  function PlanHeader(ll: seq<nat>, dl: seq<nat>, clens: seq<nat>, n: nat): (h: Header)
    requires |clens| == BL_CODES && n <= BL_CODES
  {
    Header(|ll|, |dl|, ClOf(clens, n), AllItems(ll, dl))
  }

  lemma PlanValid(ll: seq<nat>, dl: seq<nat>, clens: seq<nat>, n: nat)
    requires 257 <= |ll| <= 286 && 1 <= |dl| <= 30 && ll[256] >= 1 && Complete(ll, MAX_BITS) && Complete(dl, MAX_BITS)
    requires |clens| == BL_CODES && Complete(clens, 7) && 4 <= n <= BL_CODES && |ORDER| == BL_CODES
    requires forall r :: n <= r < BL_CODES ==> ORDER[r] < BL_CODES && clens[ORDER[r]] == 0
    requires forall j :: 0 <= j < |AllItems(ll, dl)| ==>
               AllItems(ll, dl)[j].sym < BL_CODES && clens[AllItems(ll, dl)[j].sym] >= 1
    ensures ValidHeader(PlanHeader(ll, dl, clens, n), Codes(ll, dl)) && HasItems(clens, AllItems(ll, dl)) &&
            ClensOf(ClOf(clens, n)) == clens
  {
    hide ORDER, RANK, PackFrom, ClensOf, Unpackable, UnpackAll, Top, Pow2, ValidItem;
    OrderRange();
    ClRoundTrip(clens, n);
    AllItemsFacts(ll, dl);
    PackRoundTrip(ll, dl);
    CompleteUp(clens, 7);
    CompleteFits(clens, 7);
    CompleteFits(ll, MAX_BITS);
    CompleteFits(dl, MAX_BITS);
  }
}
