/**
  trees.c: transmitting code lengths with the run-length symbols of section 3.2.7 of RFC 1951.

  `Pack` is the list of symbols that scan_tree counts and send_tree sends; `PackRoundTrip` shows
  that the receiver rebuilds the lengths from it.
*/
module CodeLengths {
  import opened Bits
  import opened Canonical
  import opened Format
  import opened Encoding
  import opened BitWriter
  import opened GenCodes

  const GUARD: nat := 0xffff
  const BL_CODES: nat := 19

  /** Longest and shortest run that is packed, for length `len` after a previously sent `prev`. */
  function MaxCount(len: nat, prev: int): (m: nat) { if len == 0 then 138 else if len == prev then 6 else 7 }
  function MinCount(len: nat, prev: int): (m: nat) { if len == 0 then 3 else if len == prev then 3 else 4 }

  function Plain(len: nat, n: nat): (items: seq<Item>)
    ensures |items| == n
  {
    seq(n, i => Item(len, 1))
  }

  /** The symbols sent for `count` lengths `len` when the length sent before was `prev`. */
  function RunItems(len: nat, count: nat, prev: int): (items: seq<Item>)
  {
    if count < MinCount(len, prev) then Plain(len, count)
    else if len != 0 then
      if len != prev then [Item(len, 1), Item(16, count - 1)] else [Item(16, count)]
    else if count <= 10 then [Item(17, count)]
    else [Item(18, count)]
  }

  function NextLen(lens: seq<nat>, n: nat): (l: nat)
    requires n < |lens|
  {
    if n + 1 < |lens| then lens[n + 1] else GUARD
  }

  /** The symbols for the rest of `lens` from position `n`, with `count` equal lengths already seen. */
  function PackFrom(lens: seq<nat>, n: nat, count: nat, prev: int): (items: seq<Item>)
    requires n <= |lens|
    decreases |lens| - n
  {
    if n == |lens| then []
    else if count + 1 < MaxCount(lens[n], prev) &&
            lens[n] == NextLen(lens, n) then PackFrom(lens, n + 1, count + 1, prev)
    else RunItems(lens[n], count + 1, prev) + PackFrom(lens, n + 1, 0, lens[n])
  }

  function Pack(lens: seq<nat>): (items: seq<Item>) { PackFrom(lens, 0, 0, -1) }

  // ------------------------------------------------------------------ runs

  /** A run of `c` lengths `len` after a previously sent `prev`: as many at a time as one symbol can stand for. */
  function RunPacked(len: nat, c: nat, prev: int): (items: seq<Item>)
    decreases c
  {
    if c == 0 then []
    else if c <= MaxCount(len, prev) then RunItems(len, c, prev)
    else RunItems(len, MaxCount(len, prev), prev) + RunPacked(len, c - MaxCount(len, prev), len)
  }

  /** The lengths from `n` up to `e` are one run that cannot be prolonged. */
  predicate RunOf(lens: seq<nat>, n: nat, e: nat)
  {
    n < e <= |lens| && (forall i :: n <= i < e ==> lens[i] == lens[n]) &&
    if e == |lens| then lens[n] != GUARD else lens[e] != lens[n]
  }

  /** Packing takes the lengths run by run. */
  lemma {:induction false} PackRun(lens: seq<nat>, n: nat, e: nat, count: nat, prev: int)
    requires RunOf(lens, n, e) && count < MaxCount(lens[n], prev)
    ensures PackFrom(lens, n, count, prev) ==
            RunPacked(lens[n], count + (e - n), prev) + PackFrom(lens, e, 0, lens[n])
    decreases e - n
  {
    hide RunItems;
    var len := lens[n];
    if n + 1 == e {
      assert NextLen(lens, n) != len;
    } else {
      assert NextLen(lens, n) == len;
      assert RunOf(lens, n + 1, e);
      if count + 1 < MaxCount(len, prev) {
        PackRun(lens, n + 1, e, count + 1, prev);
      } else {
        PackRun(lens, n + 1, e, 0, len);
      }
    }
  }

  // ------------------------------------------------------------------ round trip

  lemma {:induction false} PlainOk(pre: seq<nat>, len: nat, n: nat)
    requires len < 16
    ensures Unpackable(pre, Plain(len, n)) && UnpackAll(pre, Plain(len, n)) == pre + Copies(len, n)
    decreases n
  {
    if n == 0 {
      assert pre + Copies(len, 0) == pre;
    } else {
      PlainOk(pre + [len], len, n - 1);
      assert Plain(len, n)[1..] == Plain(len, n - 1);
      assert (pre + [len]) + Copies(len, n - 1) == pre + Copies(len, n);
    }
  }

  lemma UnpackOne(pre: seq<nat>, it: Item)
    requires ValidItem(it) && (it.sym == 16 ==> pre != [])
    ensures Unpackable(pre, [it]) && UnpackAll(pre, [it]) == Unpack(pre, it)
  {
    hide Unpack, ValidItem;
    assert [it][1..] == [];
    assert Unpackable(Unpack(pre, it), []);
    assert UnpackAll(Unpack(pre, it), []) == Unpack(pre, it);
  }

  lemma UnpackTwo(pre: seq<nat>, a: Item, b: Item)
    requires ValidItem(a) && ValidItem(b) && a.sym < 16
    ensures Unpackable(pre, [a, b]) && UnpackAll(pre, [a, b]) == Unpack(Unpack(pre, a), b)
  {
    hide ValidItem;
    UnpackOne(pre, a);
    UnpackOne(Unpack(pre, a), b);
    assert [a, b][1..] == [b];
  }

  /** `prev` is the last length of `pre`, or -1 at the start of a tree. */
  predicate Follows(pre: seq<nat>, prev: int)
  {
    prev == -1 || (pre != [] && prev == pre[|pre| - 1])
  }

  lemma RunOk(pre: seq<nat>, len: nat, count: nat, prev: int)
    requires len < 16 && 1 <= count <= MaxCount(len, prev) && Follows(pre, prev)
    ensures Unpackable(pre, RunItems(len, count, prev))
    ensures UnpackAll(pre, RunItems(len, count, prev)) == pre + Copies(len, count)
  {
    Pow2Values();
    hide Pow2, Unpackable, UnpackAll;
    if count < MinCount(len, prev) {
      PlainOk(pre, len, count);
    } else if len != 0 {
      if len != prev {
        UnpackTwo(pre, Item(len, 1), Item(16, count - 1));
        assert (pre + [len]) + Copies(len, count - 1) == pre + Copies(len, count);
      } else {
        UnpackOne(pre, Item(16, count));
      }
    } else if count <= 10 {
      UnpackOne(pre, Item(17, count));
    } else {
      UnpackOne(pre, Item(18, count));
    }
  }

  lemma {:induction false} PackOk(base: seq<nat>, lens: seq<nat>, n: nat, count: nat, prev: int)
    requires Bounded(lens, MAX_BITS) && count <= n <= |lens|
    requires n == |lens| ==> count == 0
    requires n < |lens| ==> count < MaxCount(lens[n], prev)
    requires forall i :: n - count <= i < n ==> lens[i] == lens[n]
    requires prev != -1 ==> n - count > 0 && prev == lens[n - count - 1]
    ensures Unpackable(base + lens[..n - count], PackFrom(lens, n, count, prev))
    ensures UnpackAll(base + lens[..n - count], PackFrom(lens, n, count, prev)) == base + lens
    decreases |lens| - n
  {
    hide RunItems, Unpack;
    var pre := base + lens[..n - count];
    if n == |lens| {
      assert lens[..n] == lens;
    } else if count + 1 < MaxCount(lens[n], prev) && lens[n] == NextLen(lens, n) {
      PackOk(base, lens, n + 1, count + 1, prev);
    } else {
      RunOk(pre, lens[n], count + 1, prev);
      assert pre + Copies(lens[n], count + 1) == base + lens[..n + 1];
      PackOk(base, lens, n + 1, 0, lens[n]);
      UnpackAppend(pre, RunItems(lens[n], count + 1, prev), PackFrom(lens, n + 1, 0, lens[n]));
    }
  }

  /** Two trees sent one after the other are rebuilt exactly, no run crossing from one to the other. */
  lemma PackRoundTrip(ll: seq<nat>, dl: seq<nat>)
    requires Bounded(ll, MAX_BITS) && Bounded(dl, MAX_BITS)
    ensures Unpackable([], Pack(ll) + Pack(dl)) && UnpackAll([], Pack(ll) + Pack(dl)) == ll + dl
  {
    hide PackFrom;
    PackOk([], ll, 0, 0, -1);
    PackOk(ll, dl, 0, 0, -1);
    assert [] + ll[..0] == [] && [] + ll == ll && ll + dl[..0] == ll;
    UnpackAppend([], Pack(ll), Pack(dl));
  }

  // ------------------------------------------------------------------ scan_tree

  /** How often symbol `sym` occurs in `items`. */
  function Freq(items: seq<Item>, sym: nat): (f: nat)
  {
    if items == [] then 0 else (if items[0].sym == sym then 1 else 0) + Freq(items[1..], sym)
  }

  lemma {:induction false} FreqAppend(a: seq<Item>, b: seq<Item>, sym: nat)
    ensures Freq(a + b, sym) == Freq(a, sym) + Freq(b, sym)
    decreases |a|
  {
    if a == [] {
      assert a + b == b;
    } else {
      FreqAppend(a[1..], b, sym);
      assert (a + b)[1..] == a[1..] + b;
    }
  }

  lemma {:induction false} FreqPlain(len: nat, n: nat, sym: nat)
    ensures Freq(Plain(len, n), sym) == if len == sym then n else 0
  {
    if n > 0 {
      FreqPlain(len, n - 1, sym);
      assert Plain(len, n)[1..] == Plain(len, n - 1);
    }
  }

  lemma FreqSmall(it: Item, it2: Item, sym: nat)
    ensures Freq([it], sym) == if it.sym == sym then 1 else 0
    ensures Freq([it, it2], sym) == (if it.sym == sym then 1 else 0) + (if it2.sym == sym then 1 else 0)
  {
    assert [it, it2][1..] == [it2] && [it][1..] == [] && [it2][1..] == [];
  }

  /** Adds the symbols of one run to the frequencies. */
  method CountRun(blFreq: array<nat>, curlen: nat, count: nat, minCount: nat, ghost prev: int, sameAsPrev: bool)
    requires blFreq.Length >= BL_CODES && curlen < 16 && 1 <= count
    requires minCount == MinCount(curlen, prev) && sameAsPrev == (curlen == prev)
    modifies blFreq
    ensures forall s :: 0 <= s < BL_CODES ==> blFreq[s] == old(blFreq[s]) + Freq(RunItems(curlen, count, prev), s)
    ensures forall s :: BL_CODES <= s < blFreq.Length ==> blFreq[s] == old(blFreq[s])
  {
    hide Freq;
    forall s | 0 <= s < BL_CODES
      ensures count < minCount ==> Freq(RunItems(curlen, count, prev), s) == if s == curlen then count else 0
      ensures count >= minCount && curlen != 0 && !sameAsPrev ==>
                Freq(RunItems(curlen, count, prev), s) == (if s == curlen then 1 else 0) + (if s == 16 then 1 else 0)
      ensures count >= minCount && curlen != 0 && sameAsPrev ==>
                Freq(RunItems(curlen, count, prev), s) == if s == 16 then 1 else 0
      ensures count >= minCount && curlen == 0 ==>
                Freq(RunItems(curlen, count, prev), s) == if s == (if count <= 10 then 17 else 18) then 1 else 0
    {
      FreqPlain(curlen, count, s);
      FreqSmall(Item(16, count), Item(0, 0), s);
      FreqSmall(Item(17, count), Item(0, 0), s);
      FreqSmall(Item(18, count), Item(0, 0), s);
      FreqSmall(Item(curlen, 1), Item(16, count - 1), s);
    }
    if count < minCount {
      blFreq[curlen] := blFreq[curlen] + count;
    } else if curlen != 0 {
      if !sameAsPrev { blFreq[curlen] := blFreq[curlen] + 1; }
      blFreq[16] := blFreq[16] + 1;
    } else if count <= 10 {
      blFreq[17] := blFreq[17] + 1;
    } else {
      blFreq[18] := blFreq[18] + 1;
    }
  }

  /** The loop variables of scan_tree and send_tree before position `n`. */
  ghost predicate Scanning(lens: seq<nat>, n: nat, count: nat, prev: int, next: nat, max: nat, min: nat)
  {
    n <= |lens| && count <= n && next == (if n < |lens| then lens[n] else GUARD) &&
    (n < |lens| ==> max == MaxCount(lens[n], prev) && min == MinCount(lens[n], prev))
  }

  /** scan_tree: counts the symbols that send_tree will send, and sets the guard after the last length. */
  method ScanTree(dl: array<nat>, maxCode: nat, blFreq: array<nat>)
    requires dl != blFreq && maxCode + 1 < dl.Length && blFreq.Length >= BL_CODES
    requires Bounded(dl[..maxCode + 1], MAX_BITS)
    modifies dl, blFreq
    ensures dl[maxCode + 1] == GUARD
    ensures forall i :: 0 <= i < dl.Length && i != maxCode + 1 ==> dl[i] == old(dl[i])
    ensures forall s :: 0 <= s < BL_CODES ==> blFreq[s] == old(blFreq[s]) + Freq(Pack(old(dl[..maxCode + 1])), s)
    ensures forall s :: BL_CODES <= s < blFreq.Length ==> blFreq[s] == old(blFreq[s])
  {
    hide Freq, RunItems;
    ghost var lens := dl[..maxCode + 1];
    var prevlen: int, nextlen: nat, count: nat, maxCount: nat, minCount: nat := -1, dl[0], 0, 7, 4;
    if nextlen == 0 { maxCount, minCount := 138, 3; }
    dl[maxCode + 1] := GUARD;
    var n: nat := 0;
    while n <= maxCode
      invariant Scanning(lens, n, count, prevlen, nextlen, maxCount, minCount)
      invariant dl[maxCode + 1] == GUARD
      invariant forall i :: 0 <= i < dl.Length && i != maxCode + 1 ==> dl[i] == old(dl[i])
      invariant forall s :: 0 <= s < BL_CODES ==>
                              blFreq[s] + Freq(PackFrom(lens, n, count, prevlen), s)
                              == old(blFreq[s]) + Freq(Pack(lens), s)
      invariant forall s :: BL_CODES <= s < blFreq.Length ==> blFreq[s] == old(blFreq[s])
    {
      var curlen := nextlen;
      nextlen := dl[n + 1];
      assert curlen == lens[n] && nextlen == NextLen(lens, n);
      count := count + 1;
      if !(count < maxCount && curlen == nextlen) {
        forall s | 0 <= s < BL_CODES
          ensures Freq(PackFrom(lens, n, count - 1, prevlen), s)
               == Freq(RunItems(curlen, count, prevlen), s) + Freq(PackFrom(lens, n + 1, 0, curlen), s)
        {
          FreqAppend(RunItems(curlen, count, prevlen), PackFrom(lens, n + 1, 0, curlen), s);
        }
        CountRun(blFreq, curlen, count, minCount, prevlen, curlen == prevlen);
        count, prevlen := 0, curlen;
        if nextlen == 0 {
          maxCount, minCount := 138, 3;
        } else if curlen == nextlen {
          maxCount, minCount := 6, 3;
        } else {
          maxCount, minCount := 7, 4;
        }
      }
      n := n + 1;
    }
    FreqNone();
  }

  lemma FreqNone()
    ensures forall s: nat :: Freq([], s) == 0
  {
  }

  // ------------------------------------------------------------------ send_tree

  /** Every used symbol of the code `lens` has its canonical code stored in `fc`. */
  ghost predicate AllCoded(lens: seq<nat>, fc: seq<nat>)
  {
    |fc| == |lens| && Bounded(lens, MAX_BITS) && forall n :: 0 <= n < |lens| && lens[n] >= 1 ==> Coded(lens, n, fc[n])
  }

  /** send_code. */
  method SendCode(w: Writer, lens: seq<nat>, fc: seq<nat>, sym: nat)
    requires w.Valid() && AllCoded(lens, fc) && sym < |lens| && lens[sym] >= 1
    modifies w`pending, w`biBuf, w`biValid
    ensures w.Valid() && w.Sent() == old(w.Sent()) + Code(lens, sym)
  {
    hide w.Sent;
    w.SendBits(fc[sym], lens[sym]);
  }

  method SendPlain(w: Writer, clens: seq<nat>, fc: seq<nat>, curlen: nat, count0: nat)
    requires w.Valid() && AllCoded(clens, fc) && curlen < |clens| && curlen < 16 && clens[curlen] >= 1 && count0 >= 1
    requires HasItems(clens, Plain(curlen, count0))
    modifies w`pending, w`biBuf, w`biValid
    ensures w.Valid() && w.Sent() == old(w.Sent()) + ItemsBits(clens, Plain(curlen, count0))
  {
    hide w.Sent, w.Valid, AllCoded, Code, HasItems, ItemsBits, HasItem;
    var count := count0;
    PlainBits(clens, curlen, count0, count0);
    assert w.Sent() + [] == w.Sent();
    while count != 0
      invariant 0 <= count <= count0 && w.Valid() && HasItems(clens, Plain(curlen, count0 - count))
      invariant w.Sent() == old(w.Sent()) + ItemsBits(clens, Plain(curlen, count0 - count))
      decreases count
    {
      PlainBits(clens, curlen, count0 - count, count0);
      SeqAssoc(old(w.Sent()), ItemsBits(clens, Plain(curlen, count0 - count)), Code(clens, curlen));
      SendCode(w, clens, fc, curlen);
      count := count - 1;
    }
  }

  lemma PlainBits(clens: seq<nat>, len: nat, j: nat, n: nat)
    requires len < |clens| && len < 16 && clens[len] >= 1 && j <= n && HasItems(clens, Plain(len, n))
    ensures HasItems(clens, Plain(len, 0)) && ItemsBits(clens, Plain(len, 0)) == []
    ensures HasItems(clens, Plain(len, j))
    ensures j < n ==> HasItems(clens, Plain(len, j + 1)) &&
                      ItemsBits(clens, Plain(len, j + 1)) == ItemsBits(clens, Plain(len, j)) + Code(clens, len)
  {
    hide Code;
    var one := [Item(len, 1)];
    assert Plain(len, j + 1) == Plain(len, j) + one;
    assert HasItems(clens, one);
    ItemsBitsAppend(clens, Plain(len, j), one);
    assert one[1..] == [];
    assert ItemsBits(clens, one) == ItemBits(clens, one[0]) + [];
    assert ItemBits(clens, one[0]) + [] == ItemBits(clens, one[0]);
  }

  /** Sends a repeat symbol and its count. */
  method SendRepeat(w: Writer, clens: seq<nat>, fc: seq<nat>, sym: nat, count: nat)
    requires w.Valid() && AllCoded(clens, fc) && 16 <= sym <= 18 && HasItem(clens, Item(sym, count))
    modifies w`pending, w`biBuf, w`biValid
    ensures w.Valid() && w.Sent() == old(w.Sent()) + ItemBits(clens, Item(sym, count))
  {
    hide w.Sent, w.Valid, AllCoded, Code, ToBits;
    SendCode(w, clens, fc, sym);
    w.SendBits(count - RepBase(sym), RepBits(sym));
    SeqAssoc(old(w.Sent()), Code(clens, sym), ToBits(count - RepBase(sym), RepBits(sym)));
  }

  lemma OneItem(clens: seq<nat>, it: Item)
    requires HasItem(clens, it)
    ensures HasItems(clens, [it]) && ItemsBits(clens, [it]) == ItemBits(clens, it)
  {
    hide ItemBits, HasItem;
    assert [it][1..] == [];
    assert ItemsBits(clens, [it]) == ItemBits(clens, it) + [];
    assert ItemBits(clens, it) + [] == ItemBits(clens, it);
  }

  lemma TwoItems(clens: seq<nat>, a: Item, b: Item)
    requires HasItem(clens, a) && HasItem(clens, b)
    ensures HasItems(clens, [a, b]) && ItemsBits(clens, [a, b]) == ItemBits(clens, a) + ItemBits(clens, b)
  {
    hide ItemBits, HasItem;
    OneItem(clens, b);
    assert [a, b][1..] == [b];
  }

  method SendRun(w: Writer, clens: seq<nat>, fc: seq<nat>, curlen: nat, count0: nat, minCount: nat, ghost prev: int,
                 sameAsPrev: bool)
    requires w.Valid() && AllCoded(clens, fc) && |clens| == BL_CODES && curlen < 16 && count0 >= 1
    requires minCount == MinCount(curlen, prev) && sameAsPrev == (curlen == prev)
    requires HasItems(clens, RunItems(curlen, count0, prev))
    modifies w`pending, w`biBuf, w`biValid
    ensures w.Valid() && w.Sent() == old(w.Sent()) + ItemsBits(clens, RunItems(curlen, count0, prev))
  {
    hide w.Sent, w.Valid, AllCoded, ItemsBits, ItemBits, ValidItem;
    ghost var items := RunItems(curlen, count0, prev);
    assert HasItem(clens, items[0]);
    var count := count0;
    if count < minCount {
      SendPlain(w, clens, fc, curlen, count);
    } else if curlen != 0 {
      if !sameAsPrev {
        assert HasItem(clens, items[1]);
        TwoItems(clens, items[0], items[1]);
        SeqAssoc(w.Sent(), ItemBits(clens, items[0]), ItemBits(clens, items[1]));
        PlainItem(clens, curlen);
        SendCode(w, clens, fc, curlen);
        count := count - 1;
      } else {
        OneItem(clens, items[0]);
      }
      SendRepeat(w, clens, fc, 16, count);
    } else if count <= 10 {
      OneItem(clens, items[0]);
      SendRepeat(w, clens, fc, 17, count);
    } else {
      OneItem(clens, items[0]);
      SendRepeat(w, clens, fc, 18, count);
    }
  }

  lemma PlainItem(clens: seq<nat>, len: nat)
    requires len < 16 && HasItem(clens, Item(len, 1))
    ensures ItemBits(clens, Item(len, 1)) == Code(clens, len)
  {
  }

  lemma HasParts(clens: seq<nat>, a: seq<Item>, b: seq<Item>)
    requires HasItems(clens, a + b)
    ensures HasItems(clens, a) && HasItems(clens, b)
  {
    forall i | 0 <= i < |a| ensures HasItem(clens, a[i]) { assert (a + b)[i] == a[i]; }
    forall i | 0 <= i < |b| ensures HasItem(clens, b[i]) { assert (a + b)[|a| + i] == b[i]; }
  }

  /** send_tree: sends the packed lengths with the code `clens`. */
  method SendTree(w: Writer, dl: array<nat>, maxCode: nat, clens: seq<nat>, fc: seq<nat>)
    requires w.Valid() && AllCoded(clens, fc) && |clens| == BL_CODES
    requires maxCode + 1 < dl.Length && dl[maxCode + 1] == GUARD && Bounded(dl[..maxCode + 1], MAX_BITS)
    requires HasItems(clens, Pack(dl[..maxCode + 1]))
    modifies w`pending, w`biBuf, w`biValid
    ensures w.Valid() && w.Sent() == old(w.Sent()) + ItemsBits(clens, Pack(dl[..maxCode + 1]))
  {
    hide w.Sent, w.Valid, AllCoded, ItemsBits, HasItems, RunItems;
    ghost var lens := dl[..maxCode + 1];
    var prevlen: int, nextlen: nat, count: nat, maxCount: nat, minCount: nat := -1, dl[0], 0, 7, 4;
    if nextlen == 0 { maxCount, minCount := 138, 3; }
    var n: nat := 0;
    while n <= maxCode
      invariant Scanning(lens, n, count, prevlen, nextlen, maxCount, minCount)
      invariant w.Valid() && HasItems(clens, PackFrom(lens, n, count, prevlen))
      invariant w.Sent() + ItemsBits(clens, PackFrom(lens, n, count, prevlen))
                == old(w.Sent()) + ItemsBits(clens, Pack(lens))
    {
      var curlen := nextlen;
      nextlen := dl[n + 1];
      assert curlen == lens[n] && nextlen == NextLen(lens, n);
      count := count + 1;
      if !(count < maxCount && curlen == nextlen) {
        ghost var now, rest := RunItems(curlen, count, prevlen), PackFrom(lens, n + 1, 0, curlen);
        HasParts(clens, now, rest);
        ItemsBitsAppend(clens, now, rest);
        SeqAssoc(w.Sent(), ItemsBits(clens, now), ItemsBits(clens, rest));
        SendRun(w, clens, fc, curlen, count, minCount, prevlen, curlen == prevlen);
        count, prevlen := 0, curlen;
        if nextlen == 0 {
          maxCount, minCount := 138, 3;
        } else if curlen == nextlen {
          maxCount, minCount := 6, 3;
        } else {
          maxCount, minCount := 7, 4;
        }
      }
      n := n + 1;
    }
    NoItems(clens);
    assert w.Sent() + [] == w.Sent();
  }

  lemma NoItems(clens: seq<nat>)
    requires HasItems(clens, [])
    ensures ItemsBits(clens, []) == []
  {
  }
}
