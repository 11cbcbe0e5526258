/**
  inftrees.c: building the one- or two-level decoding table of a canonical code.

  `Build` follows inflate_table loop by loop.  `TableFor` says what a finished table means and is
  stated through the reference codes of module `Canonical` only; `LookupSymbol` and `LookupHole`
  derive from it what one or two table reads return.
*/
module InflateTable {
  import opened Bits
  import opened Canonical

  datatype Entry = Entry(op: nat, bits: nat, val: nat)
  datatype Kind = CODES | LENS | DISTS

  const ENOUGH_LENS: nat := 852
  const ENOUGH_DISTS: nat := 592

  const LBASE: seq<nat> := [3, 4, 5, 6, 7, 8, 9, 10, 11, 13, 15, 17, 19, 23, 27, 31,
                            35, 43, 51, 59, 67, 83, 99, 115, 131, 163, 195, 227, 258, 0, 0]
  const LEXT: seq<nat> := [16, 16, 16, 16, 16, 16, 16, 16, 17, 17, 17, 17, 18, 18, 18, 18,
                           19, 19, 19, 19, 20, 20, 20, 20, 21, 21, 21, 21, 16, 77, 202]
  const DBASE: seq<nat> := [1, 2, 3, 4, 5, 7, 9, 13, 17, 25, 33, 49, 65, 97, 129, 193, 257, 385, 513, 769,
                            1025, 1537, 2049, 3073, 4097, 6145, 8193, 12289, 16385, 24577, 0, 0]
  const DEXT: seq<nat> := [16, 16, 16, 16, 17, 17, 18, 18, 19, 19, 20, 20, 21, 21, 22, 22, 23, 23, 24, 24,
                           25, 25, 26, 26, 27, 27, 28, 28, 29, 29, 64, 64]

  /** The number of symbols each kind of code may have. */
  function SymbolLimit(kind: Kind): (n: nat)
  {
    match kind case CODES => 19 case LENS => 288 case DISTS => 32
  }

  /** The entry made for a symbol whose code has `bits` bits left at this table level. */
  function SymbolEntry(kind: Kind, sym: nat, bits: nat): (e: Entry)
    requires sym < SymbolLimit(kind)
    ensures e.bits == bits
    ensures e.op == 0 || e.op >= 16
  {
    match kind
    case CODES => Entry(0, bits, sym)
    case LENS =>
      if sym < 256 then Entry(0, bits, sym)
      else if sym == 256 then Entry(96, bits, 0)
      else Entry(LEXT[sym - 257], bits, LBASE[sym - 257])
    case DISTS => Entry(DEXT[sym], bits, DBASE[sym])
  }

  const HOLE: Entry := Entry(64, 1, 0)

  /** Lengths that inflate_table accepts: complete, or with a single one-bit code, or empty. */
  ghost predicate Acceptable(kind: Kind, lens: seq<nat>)
  {
    Fits(lens) &&
    (Bounded(lens, 0) || Complete(lens, MAX_BITS) || (kind != CODES && Bounded(lens, 1)))
  }

  predicate IsLink(e: Entry) { 1 <= e.op < 16 }

  /** Symbol `s` is entered in table `t`, at the root or in the sub-table its first bits link to. */
  ghost predicate Entered(t: seq<Entry>, root: nat, kind: Kind, lens: seq<nat>, s: nat)
    requires s < |lens| <= SymbolLimit(kind) && lens[s] >= 1
    requires Pow2(root) <= |t|
  {
    var c := Code(lens, s);
    if lens[s] <= root then
      forall i :: 0 <= i < Pow2(root) && c <= ToBits(i, root) ==> t[i] == SymbolEntry(kind, s, lens[s])
    else
      var p := FromBits(c[..root]);
      p < Pow2(root) && t[p].bits == root &&
      InSub(t, t[p], lens[s] - root, c[root..], SymbolEntry(kind, s, lens[s] - root))
  }

  /** The sub-table behind `link` has `e` at every index that starts with `x`. */
  ghost predicate InSub(t: seq<Entry>, link: Entry, len: nat, x: seq<bool>, e: Entry)
  {
    IsLink(link) && len <= link.op && link.val + Pow2(link.op) <= |t| &&
    forall i :: 0 <= i < Pow2(link.op) && x <= ToBits(i, link.op) ==> t[link.val + i] == e
  }

  /** No code starts with the one-bit reading of `i`. */
  ghost predicate Uncovered(lens: seq<nat>, i: nat)
  {
    forall s: nat :: !IsCodeAt(lens, s, ToBits(i, 1))
  }

  ghost predicate TableFor(t: seq<Entry>, root: nat, kind: Kind, lens: seq<nat>)
  {
    |lens| <= SymbolLimit(kind) && 1 <= root <= MAX_BITS && Pow2(root) <= |t| &&
    (forall s :: 0 <= s < |lens| && lens[s] >= 1 ==> Entered(t, root, kind, lens, s)) &&
    (Bounded(lens, 1) ==>
       root == 1 &&
       forall i :: 0 <= i < 2 && Uncovered(lens, i) ==> t[i] == HOLE)
  }

  // ------------------------------------------------------------------ sorted order

  /** Position in the sorted symbol list where the codes of length `l` begin. */
  function Offset(lens: seq<nat>, l: nat): (o: nat)
    requires l >= 1
  {
    if l == 1 then 0 else Offset(lens, l - 1) + Total(lens, l - 1)
  }

  function Index(lens: seq<nat>, s: nat): (i: nat)
    requires s < |lens| && lens[s] >= 1
  {
    Offset(lens, lens[s]) + Count(lens, lens[s], s)
  }

  lemma {:induction false} OffsetMono(lens: seq<nat>, a: nat, b: nat)
    requires 1 <= a < b
    ensures Offset(lens, a) + Total(lens, a) <= Offset(lens, b)
    decreases b
  {
    if a < b - 1 { OffsetMono(lens, a, b - 1); }
  }

  lemma {:induction false} OffsetGap(lens: seq<nat>, a: nat, b: nat)
    requires 1 <= a < b
    requires forall l :: a < l < b ==> Total(lens, l) == 0
    ensures Offset(lens, b) == Offset(lens, a) + Total(lens, a)
    decreases b
  {
    if a < b - 1 { OffsetGap(lens, a, b - 1); }
  }

  lemma {:induction false} TopGap(lens: seq<nat>, a: nat, b: nat)
    requires a < b
    requires forall l :: a < l < b ==> Total(lens, l) == 0
    ensures 2 * Top(lens, b - 1) == Top(lens, a) * Pow2(b - a)
    decreases b
  {
    if a < b - 1 {
      TopGap(lens, a, b - 1);
      MulDouble(Top(lens, a), Pow2(b - 1 - a));
    }
  }

  /** `s` comes before `t` in the order codes are assigned. */
  predicate Before(lens: seq<nat>, s: nat, t: nat)
    requires s < |lens| && t < |lens|
  {
    lens[s] < lens[t] || (lens[s] == lens[t] && s < t)
  }

  lemma IndexOrder(lens: seq<nat>, s: nat, t: nat)
    requires s < |lens| && t < |lens| && lens[s] >= 1 && lens[t] >= 1
    ensures Index(lens, s) < Index(lens, t) <==> Before(lens, s, t)
    ensures Index(lens, s) == Index(lens, t) <==> s == t
  {
    CountMono(lens, lens[s], s, |lens|);
    CountMono(lens, lens[t], t, |lens|);
    if lens[s] < lens[t] {
      OffsetMono(lens, lens[s], lens[t]);
    } else if lens[t] < lens[s] {
      OffsetMono(lens, lens[t], lens[s]);
    } else if s < t {
      CountMono(lens, lens[s], s, t);
    } else if t < s {
      CountMono(lens, lens[s], t, s);
    }
  }

  ghost predicate Sorted(lens: seq<nat>, work: seq<nat>)
  {
    forall s :: 0 <= s < |lens| && lens[s] >= 1 ==> Index(lens, s) < |work| && work[Index(lens, s)] == s
  }

  /** Offsets into the sorted list for each length. */
  method Offsets(lens: seq<nat>, count: seq<nat>) returns (offs: seq<nat>)
    requires |count| == MAX_BITS + 1
    requires forall l :: 1 <= l <= MAX_BITS ==> count[l] == Total(lens, l)
    ensures |offs| == MAX_BITS + 1
    ensures forall l :: 1 <= l <= MAX_BITS ==> offs[l] == Offset(lens, l)
  {
    offs := count;
    offs := offs[1 := 0];
    var len := 1;
    while len < MAX_BITS
      invariant 1 <= len <= MAX_BITS && |offs| == MAX_BITS + 1
      invariant forall l :: 1 <= l <= len ==> offs[l] == Offset(lens, l)
    {
      offs := offs[len + 1 := offs[len] + count[len]];
      len := len + 1;
    }
  }

  /** Every symbol below `n` sits at its place in the sorted list. */
  ghost predicate Placed(lens: seq<nat>, work: seq<nat>, n: nat)
    requires n <= |lens|
  {
    forall s :: 0 <= s < n && lens[s] >= 1 ==> Index(lens, s) < |work| && work[Index(lens, s)] == s
  }

  lemma PlaceNext(lens: seq<nat>, work: seq<nat>, n: nat)
    requires n < |lens| && |work| == |lens| && Placed(lens, work, n) && lens[n] >= 1
    ensures Index(lens, n) < |work|
    ensures Placed(lens, work[Index(lens, n) := n], n + 1)
  {
    IndexBound(lens, n);
    forall s | 0 <= s < n && lens[s] >= 1 ensures Index(lens, s) != Index(lens, n) {
      IndexOrder(lens, s, n);
    }
  }

  /** Where the next symbol of each length goes once the symbols below `n` are placed. */
  ghost predicate NextFree(lens: seq<nat>, offs: seq<nat>, n: nat)
    requires n <= |lens|
  {
    |offs| == MAX_BITS + 1 &&
    forall l :: 1 <= l <= MAX_BITS ==> offs[l] == Offset(lens, l) + Count(lens, l, n)
  }

  lemma NextFreeStep(lens: seq<nat>, offs: seq<nat>, n: nat)
    requires n < |lens| && lens[n] <= MAX_BITS && NextFree(lens, offs, n)
    ensures lens[n] == 0 ==> NextFree(lens, offs, n + 1)
    ensures lens[n] >= 1 ==> offs[lens[n]] == Index(lens, n) &&
                             NextFree(lens, offs[lens[n] := offs[lens[n]] + 1], n + 1)
  {
  }

  /** Counting sort of the symbols by length. */
  method SortSymbols(lens: seq<nat>, count: seq<nat>) returns (work: seq<nat>)
    requires Bounded(lens, MAX_BITS) && |count| == MAX_BITS + 1
    requires forall l :: 1 <= l <= MAX_BITS ==> count[l] == Total(lens, l)
    ensures Sorted(lens, work) && |work| == |lens|
  {
    var offs := Offsets(lens, count);
    work := lens;
    var sym := 0;
    while sym < |lens|
      invariant 0 <= sym <= |lens| && |work| == |lens|
      invariant NextFree(lens, offs, sym)
      invariant Placed(lens, work, sym)
    {
      var l := lens[sym];
      NextFreeStep(lens, offs, sym);
      if l != 0 {
        PlaceNext(lens, work, sym);
        work := work[offs[l] := sym];
        offs := offs[l := offs[l] + 1];
      }
      sym := sym + 1;
    }
  }

  /** The number of symbols with lengths 1..l. */
  function Used(lens: seq<nat>, l: nat, n: nat): (u: nat)
    requires n <= |lens|
    ensures u <= n
  {
    if n == 0 then 0 else Used(lens, l, n - 1) + (if 1 <= lens[n - 1] <= l then 1 else 0)
  }

  lemma {:induction false} UsedStep(lens: seq<nat>, l: nat, n: nat)
    requires n <= |lens| && l >= 1
    ensures Used(lens, l, n) == Used(lens, l - 1, n) + Count(lens, l, n)
  {
    if n > 0 { UsedStep(lens, l, n - 1); }
  }

  lemma {:induction false} OffsetIsUsed(lens: seq<nat>, l: nat)
    requires l >= 1
    ensures Offset(lens, l) == Used(lens, l - 1, |lens|)
    decreases l
  {
    if l == 1 {
      UsedZero(lens, |lens|);
    } else {
      OffsetIsUsed(lens, l - 1);
      UsedStep(lens, l - 1, |lens|);
    }
  }

  lemma {:induction false} UsedZero(lens: seq<nat>, n: nat)
    requires n <= |lens|
    ensures Used(lens, 0, n) == 0
  {
    if n > 0 { UsedZero(lens, n - 1); }
  }

  lemma IndexBound(lens: seq<nat>, s: nat)
    requires s < |lens| && lens[s] >= 1
    ensures Index(lens, s) < |lens|
  {
    OffsetIsUsed(lens, lens[s]);
    UsedStep(lens, lens[s], |lens|);
    CountMono(lens, lens[s], s, |lens|);
  }

  lemma Pow2Zero(y: nat)
    ensures y * Pow2(0) == y
  {
  }

  lemma TopOf(lens: seq<nat>, s: nat)
    requires s < |lens| && lens[s] >= 1 && Count(lens, lens[s], s) + 1 == Total(lens, lens[s])
    ensures CodeValue(lens, s) + 1 == Top(lens, lens[s])
  {
  }

  /** The symbol after `s` in sorted order, and how its code value follows from that of `s`. */
  lemma NextSymbol(lens: seq<nat>, work: seq<nat>, s: nat, t: nat)
    requires Sorted(lens, work) && s < |lens| && t < |lens| && lens[s] >= 1
    requires lens[t] == lens[s] ==> Count(lens, lens[s], t) == Count(lens, lens[s], s) + 1
    requires lens[t] != lens[s] ==>
               lens[s] < lens[t] && Count(lens, lens[s], s) + 1 == Total(lens, lens[s]) &&
               Count(lens, lens[t], t) == 0 && forall l :: lens[s] < l < lens[t] ==> Total(lens, l) == 0
    ensures Index(lens, t) == Index(lens, s) + 1 < |work| && work[Index(lens, s) + 1] == t
    ensures CodeValue(lens, t) == (CodeValue(lens, s) + 1) * Pow2(lens[t] - lens[s])
  {
    hide Pow2, Top;
    var y := CodeValue(lens, s) + 1;
    if lens[t] != lens[s] {
      OffsetGap(lens, lens[s], lens[t]);
      TopGap(lens, lens[s], lens[t]);
      TopOf(lens, s);
      assert CodeValue(lens, t) == y * Pow2(lens[t] - lens[s]);
    } else {
      Pow2Zero(y);
      assert CodeValue(lens, t) == y;
    }
  }

  // ------------------------------------------------------------------ length statistics

  ghost predicate Counts(lens: seq<nat>, count: seq<nat>, n: nat)
    requires n <= |lens|
  {
    |count| == MAX_BITS + 1 && forall l :: 0 <= l <= MAX_BITS ==> count[l] == Count(lens, l, n)
  }

  method CountLengths(lens: seq<nat>) returns (count: seq<nat>)
    requires Bounded(lens, MAX_BITS)
    ensures Counts(lens, count, |lens|)
  {
    count := [0, 0, 0, 0, 0, 0, 0, 0, 0, 0, 0, 0, 0, 0, 0, 0];
    var sym := 0;
    while sym < |lens|
      invariant 0 <= sym <= |lens|
      invariant Counts(lens, count, sym)
    {
      count := count[lens[sym] := count[lens[sym]] + 1];
      sym := sym + 1;
    }
  }

  /** Largest and smallest used length; `max` is zero when no symbol is coded. */
  method LengthBounds(lens: seq<nat>, count: seq<nat>) returns (min: nat, max: nat)
    requires Bounded(lens, MAX_BITS) && Counts(lens, count, |lens|)
    ensures max <= MAX_BITS && Bounded(lens, max) && 1 <= min
    ensures max >= 1 ==> min <= max && Total(lens, max) >= 1 && Total(lens, min) >= 1
    ensures forall l :: 1 <= l < min ==> Total(lens, l) == 0
  {
    max := MAX_BITS;
    while max >= 1 && count[max] == 0
      invariant 0 <= max <= MAX_BITS
      invariant Bounded(lens, max)
    {
      BoundedDown(lens, max);
      max := max - 1;
    }
    min := 1;
    while min < max && count[min] == 0
      invariant 1 <= min && (max >= 1 ==> min <= max)
      invariant forall l :: 1 <= l < min ==> Total(lens, l) == 0
    {
      min := min + 1;
    }
  }

  lemma BoundedDown(lens: seq<nat>, m: nat)
    requires m >= 1 && Bounded(lens, m) && Total(lens, m) == 0
    ensures Bounded(lens, m - 1)
  {
    forall i | 0 <= i < |lens| ensures lens[i] <= m - 1 {
      if lens[i] == m { CountMono(lens, m, i, i + 1); CountMono(lens, m, i + 1, |lens|); }
    }
  }

  /** The over-subscription test: `left` counts unused codes as the length grows. */
  method CheckLeft(lens: seq<nat>, count: seq<nat>) returns (left: int)
    requires Bounded(lens, MAX_BITS) && Counts(lens, count, |lens|)
    ensures left < 0 <==> !Fits(lens)
    ensures left >= 0 ==> left == Pow2(MAX_BITS) - Top(lens, MAX_BITS)
  {
    left := 1;
    var len := 1;
    while len <= MAX_BITS
      invariant 1 <= len <= MAX_BITS + 1
      invariant left == Pow2(len - 1) - Top(lens, len - 1) >= 0
      invariant forall l :: 0 <= l < len ==> Top(lens, l) <= Pow2(l)
    {
      left := 2 * left;
      left := left - count[len];
      if left < 0 {
        assert Top(lens, len) > Pow2(len);
        return;
      }
      len := len + 1;
    }
    FitsFrom(lens);
  }

  lemma FitsFrom(lens: seq<nat>)
    requires Bounded(lens, MAX_BITS)
    requires forall l :: 0 <= l <= MAX_BITS ==> Top(lens, l) <= Pow2(l)
    ensures Fits(lens)
  {
    forall l: nat ensures Top(lens, l) <= Pow2(l) {
      if l > MAX_BITS {
        TopBeyond(lens, MAX_BITS, l);
        Pow2Add(MAX_BITS, l - MAX_BITS);
        MulMono(Top(lens, MAX_BITS), Pow2(MAX_BITS), Pow2(l - MAX_BITS));
      }
    }
  }

  lemma MulMono(a: nat, b: nat, p: nat)
    requires a <= b
    ensures a * p <= b * p
  {
  }

  // ------------------------------------------------------------------ stepping through the codes

  /** Binary increment of a code read most significant bit first; all ones wraps to all zeros. */
  function IncMsb(c: seq<bool>): (d: seq<bool>)
    ensures |d| == |c|
  {
    if c == [] then []
    else if c[|c| - 1] then IncMsb(c[..|c| - 1]) + [false]
    else c[..|c| - 1] + [true]
  }

  lemma {:induction false} IncValue(c: seq<bool>)
    ensures MsbValue(c) + 1 < Pow2(|c|) ==> MsbValue(IncMsb(c)) == MsbValue(c) + 1
    ensures MsbValue(c) + 1 == Pow2(|c|) ==> IncMsb(c) == Zeros(|c|)
  {
    if c != [] {
      var h := c[..|c| - 1];
      var d := IncMsb(c);
      IncValue(h);
      MsbBound(h);
      assert d[..|d| - 1] == (if c[|c| - 1] then IncMsb(h) else h);
    }
  }

  /** Skipping a run of ones at the end of a code. */
  lemma {:induction false} IncRun(c: seq<bool>, j: nat)
    requires j <= |c| && forall i :: |c| - j <= i < |c| ==> c[i]
    ensures IncMsb(c) == IncMsb(c[..|c| - j]) + Zeros(j)
    decreases j
  {
    if j == 0 {
      assert c[..|c|] == c;
      assert IncMsb(c) + Zeros(0) == IncMsb(c);
    } else {
      var h := c[..|c| - 1];
      IncRun(h, j - 1);
      assert h[..|h| - (j - 1)] == c[..|c| - j];
      assert Zeros(j - 1) + [false] == Zeros(j);
    }
  }

  lemma Parity(x: nat, b: nat, h: nat)
    requires b <= 1 && x == b + 2 * h
    ensures x % 2 == b
  {
  }

  lemma BitAt(c: seq<bool>, i: nat)
    requires i < |c|
    ensures (FromBits(c) / Pow2(i)) % 2 == BitVal(c[i])
  {
    var d := c[i..];
    SplitValue(c, i);
    assert d[0] == c[i];
    Parity(FromBits(d), BitVal(c[i]), FromBits(d[1..]));
  }

  /** inflate_table's backwards increment of the bit-reversed code `huff`. */
  method BackwardsIncrement(huff: nat, len: nat, ghost c: seq<bool>) returns (next: nat)
    requires |c| == len >= 1 && huff == FromBits(c)
    ensures next == FromBits(IncMsb(c))
  {
    hide FromBits, IncMsb, Zeros;
    var incr := Pow2(len - 1);
    ghost var j := 0;
    while incr != 0 && (huff / incr) % 2 == 1
      invariant 0 <= j <= len && (j < len ==> incr == Pow2(len - 1 - j)) && (j == len ==> incr == 0)
      invariant forall i :: len - j <= i < len ==> c[i]
      decreases len - j
    {
      BitAt(c, len - 1 - j);
      incr := incr / 2;
      j := j + 1;
    }
    if incr != 0 {
      BitAt(c, len - 1 - j);
      IncTail(c, j);
      next := huff % incr;
      next := next + incr;
    } else {
      IncOver(c);
      next := 0;
    }
  }

  /** A code that ends in a zero and `j` ones. */
  lemma IncTail(c: seq<bool>, j: nat)
    requires j < |c| && !c[|c| - 1 - j] && forall i :: |c| - j <= i < |c| ==> c[i]
    ensures FromBits(IncMsb(c)) == FromBits(c) % Pow2(|c| - 1 - j) + Pow2(|c| - 1 - j)
  {
    var m := |c| - 1 - j;
    IncRun(c, j);
    assert c[..|c| - j][..m] == c[..m] && !c[..|c| - j][m];
    assert IncMsb(c) == (c[..m] + [true]) + Zeros(j);
    hide IncMsb, Zeros, Pow2;
    SplitValue(c, m);
    PadValue(c[..m] + [true], j);
    FromBitsAppend(c[..m], [true]);
  }

  lemma IncOver(c: seq<bool>)
    requires forall i :: 0 <= i < |c| ==> c[i]
    ensures FromBits(IncMsb(c)) == 0
  {
    IncRun(c, |c|);
    assert IncMsb(c) == Zeros(|c|);
    ZerosValue(|c|);
  }

  /** The numeric reading of the first `root` bits of a long code. */
  function RootPrefix(lens: seq<nat>, s: nat, root: nat): (p: nat)
    requires s < |lens| && 1 <= lens[s] && root <= lens[s]
  {
    Shr(CodeValue(lens, s), lens[s] - root)
  }

  lemma RootPrefixReads(lens: seq<nat>, s: nat, root: nat)
    requires Fits(lens) && s < |lens| && 1 <= lens[s] && root <= lens[s]
    ensures MsbValue(Code(lens, s)[..root]) == RootPrefix(lens, s, root)
  {
    CodeReads(lens, s);
    MsbPrefix(Code(lens, s), root);
  }

  lemma SamePrefix(lens: seq<nat>, r: nat, s: nat, root: nat)
    requires Fits(lens) && r < |lens| && s < |lens| && 1 <= lens[r] && 1 <= lens[s]
    requires root <= lens[r] && root <= lens[s]
    ensures RootPrefix(lens, r, root) == RootPrefix(lens, s, root)
            <==> Code(lens, r)[..root] == Code(lens, s)[..root]
  {
    RootPrefixReads(lens, r, root);
    RootPrefixReads(lens, s, root);
    MsbToFrom(Code(lens, r)[..root]);
    MsbToFrom(Code(lens, s)[..root]);
  }

  lemma DivMono(a: nat, b: nat, p: nat)
    requires a <= b && p > 0
    ensures a / p <= b / p
  {
    assert a == p * (a / p) + a % p;
    DivAtLeast(a / p, b, p);
  }

  /** Root prefixes never decrease along the sorted order. */
  lemma PrefixOrder(lens: seq<nat>, r: nat, s: nat, root: nat)
    requires Fits(lens) && r < |lens| && s < |lens| && 1 <= lens[r] && 1 <= lens[s]
    requires root <= lens[r] && root <= lens[s] && Before(lens, r, s)
    ensures RootPrefix(lens, r, root) <= RootPrefix(lens, s, root)
  {
    if lens[r] == lens[s] {
      CountMono(lens, lens[r], r, s);
      DivMono(CodeValue(lens, r), CodeValue(lens, s), Pow2(lens[r] - root));
    } else {
      CodeOrder(lens, r, s);
      var a, b := lens[s] - lens[r], lens[r] - root;
      Pow2Add(a, b);
      DivDiv(CodeValue(lens, s), Pow2(a), Pow2(b));
      DivMono(CodeValue(lens, r), CodeValue(lens, s) / Pow2(a), Pow2(b));
    }
  }

  /** The counts left once every symbol before `s` has been taken off. */
  ghost predicate Remaining(lens: seq<nat>, count: seq<nat>, s: nat)
    requires s < |lens|
  {
    |count| == MAX_BITS + 1 && lens[s] <= MAX_BITS &&
    count[lens[s]] + Count(lens, lens[s], s) == Total(lens, lens[s]) &&
    forall l :: lens[s] < l <= MAX_BITS ==> count[l] == Total(lens, l)
  }

  /** Every code that shares its first `root` bits with `s` fits a sub-table of `curr` index bits. */
  ghost predicate Sized(lens: seq<nat>, s: nat, root: nat, curr: nat)
    requires s < |lens| && 1 <= lens[s] && root <= lens[s]
  {
    forall r :: 0 <= r < |lens| && lens[r] > root + curr ==> RootPrefix(lens, r, root) != RootPrefix(lens, s, root)
  }

  lemma BeyondSubtable(lens: seq<nat>, r: nat, root: nat, l: nat, p: nat)
    requires r < |lens| && root <= l < lens[r]
    requires Top(lens, l) >= (p + 1) * Pow2(l - root)
    ensures RootPrefix(lens, r, root) > p
  {
    var m := lens[r];
    TopGrows(lens, l, m);
    CodeValueRange(lens, r);
    Pow2Add(l - root, m - l);
    MulMono((p + 1) * Pow2(l - root), Top(lens, l), Pow2(m - l));
    MulAssoc(p + 1, Pow2(l - root), Pow2(m - l));
    DivAtLeast(p + 1, CodeValue(lens, r), Pow2(m - root));
  }

  /** End of the sub-tree below root prefix `p`, counted in codes `c` bits below the root. */
  function Span(p: nat, c: nat): (e: nat) { (p + 1) * Pow2(c) }

  lemma SpanDouble(p: nat, c: nat)
    ensures Span(p, c + 1) == 2 * Span(p, c)
  {
    MulDouble(p + 1, Pow2(c));
  }

  lemma SpanStart(v: nat, p: nat, c: nat)
    requires v % Pow2(c) == 0 && p == v / Pow2(c)
    ensures Pow2(c) == Span(p, c) - v
  {
    hide Pow2;
    assert v == Pow2(c) * p;
    MulDistrib(Pow2(c), p, 1);
  }

  lemma SizedAt(lens: seq<nat>, s: nat, root: nat, curr: nat)
    requires s < |lens| && 1 <= lens[s] && root <= lens[s]
    requires Top(lens, root + curr) >= Span(RootPrefix(lens, s, root), curr)
    ensures Sized(lens, s, root, curr)
  {
    forall r | 0 <= r < |lens| && lens[r] > root + curr
      ensures RootPrefix(lens, r, root) != RootPrefix(lens, s, root)
    {
      BeyondSubtable(lens, r, root, root + curr, RootPrefix(lens, s, root));
    }
  }

  /** Some code below the same root entry as `s` has the full `root + curr` bits. */
  ghost predicate Reached(lens: seq<nat>, s: nat, root: nat, curr: nat)
    requires s < |lens| && 1 <= lens[s] && root <= lens[s]
  {
    exists r :: 0 <= r < |lens| && 1 <= lens[r] == root + curr && RootPrefix(lens, r, root) == RootPrefix(lens, s, root)
  }

  lemma DivBelow(v: nat, q: nat, p: nat)
    requires p > 0 && v < q * p
    ensures v / p < q
  {
    assert v == p * (v / p) + v % p;
    if v / p >= q { MulMono(q, v / p, p); }
  }

  /** The codes of the next length begin inside the sub-tree, so its table needs them. */
  lemma ReachedNext(lens: seq<nat>, s: nat, root: nat, curr: nat)
    requires Fits(lens) && s < |lens| && 1 <= root < lens[s] < root + curr && Total(lens, root + curr) >= 1
    requires First(lens, root + curr) < Span(RootPrefix(lens, s, root), curr)
    ensures Reached(lens, s, root, curr)
  {
    hide Fits;
    var r := NthSymbol(lens, root + curr, 0, |lens|);
    PrefixOrder(lens, s, r, root);
    DivBelow(CodeValue(lens, r), RootPrefix(lens, s, root) + 1, Pow2(curr));
  }

  /** The look-ahead on `count` that sizes a new sub-table, whose first code is that of `s`: as large as its longest
      code needs, and no larger. */
  method SubtableBits(lens: seq<nat>, count: seq<nat>, len: nat, root: nat, max: nat, ghost s: nat) returns (curr: nat)
    requires s < |lens| && lens[s] == len && 1 <= root < len <= max <= MAX_BITS && Bounded(lens, max) &&
             Total(lens, max) >= 1
    requires Remaining(lens, count, s) && Fits(lens)
    requires CodeValue(lens, s) % Pow2(len - root) == 0
    ensures len <= root + curr <= max && Sized(lens, s, root, curr) && Reached(lens, s, root, curr)
  {
    ghost var p := RootPrefix(lens, s, root);
    curr := len - root;
    var left: int := Pow2(curr);
    ghost var from := CodeValue(lens, s);
    SpanStart(from, p, curr);
    hide Span, Pow2, Sized, Reached, Fits, RootPrefix;
    ReachedFirst(lens, s, root);
    while curr + root < max
      invariant len <= root + curr <= max
      invariant left == Span(p, curr) - from && left > 0
      invariant root + curr == len ==> from == CodeValue(lens, s)
      invariant root + curr > len ==> from == First(lens, root + curr)
    {
      left := left - count[curr + root];
      assert left == Span(p, curr) - Top(lens, root + curr);
      if left <= 0 {
        SizedAt(lens, s, root, curr);
        if root + curr > len { ReachedNext(lens, s, root, curr); }
        return;
      }
      SpanDouble(p, curr);
      curr := curr + 1;
      left := 2 * left;
      from := First(lens, root + curr);
    }
    if root + curr > len { ReachedNext(lens, s, root, curr); }
    SizedMax(lens, s, root, curr);
  }

  lemma ReachedFirst(lens: seq<nat>, s: nat, root: nat)
    requires s < |lens| && 1 <= lens[s] && root <= lens[s]
    ensures Reached(lens, s, root, lens[s] - root)
  {
  }

  lemma SizedMax(lens: seq<nat>, s: nat, root: nat, curr: nat)
    requires s < |lens| && 1 <= lens[s] && root <= lens[s] && Bounded(lens, root + curr)
    ensures Sized(lens, s, root, curr)
  {
  }

  // ------------------------------------------------------------------ the size of the table

  /** Bits below the root of the longest code with root prefix `p` among the first `n` symbols; 0 if none is that long.
      */
  function Depth(lens: seq<nat>, root: nat, p: nat, n: nat): (d: nat)
    requires n <= |lens|
  {
    if n == 0 then 0
    else
      var d := Depth(lens, root, p, n - 1);
      if lens[n - 1] > root + d && RootPrefix(lens, n - 1, root) == p then lens[n - 1] - root else d
  }

  /** Entries of the root table and of the sub-tables below the first `q` root prefixes. */
  function SizeUpTo(lens: seq<nat>, root: nat, q: nat): (n: nat)
    decreases q
  {
    if q == 0 then Pow2(root)
    else
      var d := Depth(lens, root, q - 1, |lens|);
      SizeUpTo(lens, root, q - 1) + if d == 0 then 0 else Pow2(d)
  }

  /** Entries of all tables for a code: 2^root, and for every root prefix of longer codes 2 to the longest rest. */
  function TableSize(lens: seq<nat>, root: nat): (n: nat) { SizeUpTo(lens, root, Pow2(root)) }

  lemma {:induction false} DepthIs(lens: seq<nat>, root: nat, p: nat, n: nat, d: nat)
    requires n <= |lens| && forall r :: 0 <= r < n && lens[r] > root + d ==> RootPrefix(lens, r, root) != p
    ensures Depth(lens, root, p, n) <= d
    ensures (exists r :: 0 <= r < n && lens[r] == root + d && d >= 1 && RootPrefix(lens, r, root) == p) ==>
              Depth(lens, root, p, n) == d
    decreases n
  {
    hide RootPrefix;
    if n > 0 { DepthIs(lens, root, p, n - 1, d); }
  }

  lemma {:induction false} SizeGap(lens: seq<nat>, root: nat, a: nat, b: nat)
    requires a <= b && forall r :: 0 <= r < |lens| && lens[r] > root ==> !(a <= RootPrefix(lens, r, root) < b)
    ensures SizeUpTo(lens, root, b) == SizeUpTo(lens, root, a)
    decreases b
  {
    hide RootPrefix, Depth, Pow2;
    if a < b {
      SizeGap(lens, root, a, b - 1);
      DepthIs(lens, root, b - 1, |lens|, 0);
    }
  }

  lemma {:induction false} SizeMono(lens: seq<nat>, root: nat, a: nat, b: nat)
    requires a <= b
    ensures SizeUpTo(lens, root, a) <= SizeUpTo(lens, root, b)
    decreases b
  {
    hide Depth, Pow2;
    if a < b { SizeMono(lens, root, a, b - 1); }
  }

  /** While symbol `s` is entered, `used` counts the root table and all sub-tables up to its own. */
  ghost predicate Sizing(lens: seq<nat>, root: nat, s: nat, used: nat)
    requires s < |lens|
  {
    used == if lens[s] <= root then Pow2(root) else SizeUpTo(lens, root, RootPrefix(lens, s, root) + 1)
  }

  lemma PrefixBound(lens: seq<nat>, s: nat, root: nat)
    requires Fits(lens) && s < |lens| && 1 <= lens[s] && root <= lens[s]
    ensures RootPrefix(lens, s, root) < Pow2(root)
  {
    CodeValueRange(lens, s);
    assert Top(lens, lens[s]) <= Pow2(lens[s]);
    Pow2Add(root, lens[s] - root);
    DivBelow(CodeValue(lens, s), Pow2(root), Pow2(lens[s] - root));
  }

  /** The prefixes between those of two neighbours belong to no code. */
  lemma NothingBetween(lens: seq<nat>, root: nat, s: nat, r: nat)
    requires Fits(lens) && s < |lens| && r < |lens| && 1 <= lens[s] <= lens[r] && root < lens[r] &&
             Index(lens, r) == Index(lens, s) + 1
    ensures var a := if lens[s] <= root then 0 else RootPrefix(lens, s, root) + 1;
            forall t :: 0 <= t < |lens| && lens[t] > root ==>
              !(a <= RootPrefix(lens, t, root) < RootPrefix(lens, r, root))
  {
    hide Fits, RootPrefix, Index;
    var a := if lens[s] <= root then 0 else RootPrefix(lens, s, root) + 1;
    forall t | 0 <= t < |lens| && lens[t] > root ensures !(a <= RootPrefix(lens, t, root) < RootPrefix(lens, r, root)) {
      IndexOrder(lens, t, r);
      IndexOrder(lens, r, t);
      IndexOrder(lens, t, s);
      IndexOrder(lens, s, t);
      if Index(lens, t) > Index(lens, r) {
        PrefixOrder(lens, r, t, root);
      } else if Index(lens, t) < Index(lens, s) && lens[s] > root {
        PrefixOrder(lens, t, s, root);
      }
    }
  }

  /** Opening the sub-table of `r` after `s`. */
  lemma SizeOpens(lens: seq<nat>, root: nat, s: nat, r: nat, used: nat, curr: nat)
    requires Fits(lens) && s < |lens| && r < |lens| && 1 <= lens[s] <= lens[r] && 1 <= root < lens[r] &&
             Index(lens, r) == Index(lens, s) + 1
    requires lens[s] > root ==> RootPrefix(lens, s, root) != RootPrefix(lens, r, root)
    requires Sizing(lens, root, s, used) && Sized(lens, r, root, curr) && Reached(lens, r, root, curr) && curr >= 1
    ensures Sizing(lens, root, r, used + Pow2(curr)) && used + Pow2(curr) <= TableSize(lens, root)
  {
    hide Fits, RootPrefix, Index, Depth, Pow2;
    var p := RootPrefix(lens, r, root);
    IndexOrder(lens, s, r);
    if lens[s] > root { PrefixOrder(lens, s, r, root); }
    NothingBetween(lens, root, s, r);
    SizeGap(lens, root, if lens[s] <= root then 0 else RootPrefix(lens, s, root) + 1, p);
    DepthIs(lens, root, p, |lens|, curr);
    PrefixBound(lens, r, root);
    SizeMono(lens, root, p + 1, Pow2(root));
  }

  /** At the last symbol everything is counted. */
  lemma SizeDone(lens: seq<nat>, root: nat, s: nat, used: nat)
    requires Fits(lens) && s < |lens| && lens[s] >= 1 && Sizing(lens, root, s, used)
    requires forall r :: 0 <= r < |lens| && lens[r] >= 1 ==> Index(lens, r) < Index(lens, s) + 1
    ensures used == TableSize(lens, root)
  {
    hide Fits, RootPrefix, Index, Depth, Pow2;
    var a := if lens[s] <= root then 0 else RootPrefix(lens, s, root) + 1;
    forall t | 0 <= t < |lens| && lens[t] > root ensures !(a <= RootPrefix(lens, t, root) < Pow2(root)) {
      IndexOrder(lens, t, s);
      if t != s { PrefixOrder2(lens, t, s, root); }
    }
    if lens[s] > root { PrefixBound(lens, s, root); }
    SizeGap(lens, root, a, Pow2(root));
  }

  lemma PrefixOrder2(lens: seq<nat>, t: nat, s: nat, root: nat)
    requires Fits(lens) && s < |lens| && t < |lens| && lens[t] > root && Before(lens, t, s)
    ensures lens[s] > root && RootPrefix(lens, t, root) <= RootPrefix(lens, s, root)
  {
    PrefixOrder(lens, t, s, root);
  }

  // ------------------------------------------------------------------ writing entries

  /** Where the builder stands: the open table begins at `next` and has `curr` index bits;
      `low` is the root index it hangs from, or -1 while the root table itself is filled. */
  datatype Cursor = Cursor(root: nat, next: nat, curr: nat, low: int)

  /** Symbols placed before position `k` are entered, and closed sub-tables end before the open one. */
  ghost predicate Progress(t: seq<Entry>, kind: Kind, lens: seq<nat>, k: nat, u: Cursor)
  {
    |lens| <= SymbolLimit(kind) && Pow2(u.root) <= |t| &&
    forall s :: 0 <= s < |lens| && lens[s] >= 1 && Index(lens, s) < k ==>
                  Entered(t, u.root, kind, lens, s) && LinkPlaced(t, lens, s, u)
  }

  ghost predicate LinkPlaced(t: seq<Entry>, lens: seq<nat>, s: nat, u: Cursor)
    requires s < |lens| && lens[s] >= 1
  {
    lens[s] > u.root ==>
      var p := FromBits(Code(lens, s)[..u.root]);
      p < |t| && Pow2(u.root) <= t[p].val &&
      (if p == u.low then t[p] == Entry(u.curr, u.root, u.next) else t[p].val + Pow2(t[p].op) <= u.next)
  }

  /** `t'` is `t` with `e` at every index of the `w`-bit table at `at` that starts with `c`. */
  ghost predicate Filled(t: seq<Entry>, t': seq<Entry>, at: nat, w: nat, c: seq<bool>, e: Entry)
  {
    |t'| == |t| && at + Pow2(w) <= |t| &&
    (forall i :: 0 <= i < |t| && !(at <= i < at + Pow2(w)) ==> t'[i] == t[i]) &&
    (forall i :: 0 <= i < Pow2(w) ==> t'[at + i] == if c <= ToBits(i, w) then e else t[at + i])
  }

  lemma EnterRoot(t: seq<Entry>, t': seq<Entry>, kind: Kind, lens: seq<nat>, s: nat, u: Cursor)
    requires Fits(lens) && s < |lens| && 1 <= lens[s] <= u.root && |lens| <= SymbolLimit(kind)
    requires Progress(t, kind, lens, Index(lens, s), u)
    requires Filled(t, t', 0, u.root, Code(lens, s), SymbolEntry(kind, s, lens[s]))
    ensures Progress(t', kind, lens, Index(lens, s) + 1, u)
  {
    var c := Code(lens, s);
    forall r | 0 <= r < |lens| && lens[r] >= 1 && Index(lens, r) < Index(lens, s) + 1
      ensures Entered(t', u.root, kind, lens, r) && LinkPlaced(t', lens, r, u)
    {
      IndexOrder(lens, r, s);
      IndexOrder(lens, s, r);
      var d := Code(lens, r);
      forall i | 0 <= i < Pow2(u.root) && d <= ToBits(i, u.root)
        ensures t'[i] == SymbolEntry(kind, r, lens[r])
      {
        assert t'[0 + i] == t'[i] && t[0 + i] == t[i];
        if c <= ToBits(i, u.root) { DecodeUnique(lens, r, s, ToBits(i, u.root)); }
      }
    }
  }

  /** Two codes of one sub-table never claim the same slot. */
  lemma SlotUnique(lens: seq<nat>, r: nat, s: nat, root: nat, w: seq<bool>)
    requires Fits(lens) && r < |lens| && s < |lens| && lens[r] > root && lens[s] > root
    requires Code(lens, r)[..root] == Code(lens, s)[..root]
    requires Code(lens, r)[root..] <= w && Code(lens, s)[root..] <= w
    ensures r == s
  {
    var c, d := Code(lens, s), Code(lens, r);
    var b := c[..root] + w;
    assert c == c[..root] + c[root..] && d == d[..root] + d[root..];
    assert c <= b && d <= b;
    DecodeUnique(lens, r, s, b);
  }

  lemma EnterSub(t: seq<Entry>, t': seq<Entry>, kind: Kind, lens: seq<nat>, s: nat, u: Cursor)
    requires Fits(lens) && s < |lens| <= SymbolLimit(kind) && u.root < lens[s] <= u.root + u.curr
    requires Progress(t, kind, lens, Index(lens, s), u)
    requires Pow2(u.root) <= u.next && 1 <= u.curr < 16
    requires u.low == FromBits(Code(lens, s)[..u.root]) < Pow2(u.root) && t[u.low] == Entry(u.curr, u.root, u.next)
    requires Filled(t, t', u.next, u.curr, Code(lens, s)[u.root..], SymbolEntry(kind, s, lens[s] - u.root))
    ensures Progress(t', kind, lens, Index(lens, s) + 1, u)
    ensures t'[u.low] == t[u.low]
  {
    var c := Code(lens, s);
    forall r | 0 <= r < |lens| && lens[r] >= 1 && Index(lens, r) < Index(lens, s) + 1
      ensures Entered(t', u.root, kind, lens, r) && LinkPlaced(t', lens, r, u)
    {
      IndexOrder(lens, r, s);
      IndexOrder(lens, s, r);
      if lens[r] > u.root { KeepSub(t, t', kind, lens, r, s, u); }
    }
  }

  lemma KeepSub(t: seq<Entry>, t': seq<Entry>, kind: Kind, lens: seq<nat>, r: nat, s: nat, u: Cursor)
    requires Fits(lens) && r < |lens| && s < |lens| <= SymbolLimit(kind) && u.root < lens[r]
    requires u.root < lens[s] <= u.root + u.curr && Pow2(u.root) <= u.next && 1 <= u.curr < 16
    requires Pow2(u.root) <= |t|
    requires r != s ==> Entered(t, u.root, kind, lens, r) && LinkPlaced(t, lens, r, u)
    requires u.low == FromBits(Code(lens, s)[..u.root]) < Pow2(u.root) && t[u.low] == Entry(u.curr, u.root, u.next)
    requires Filled(t, t', u.next, u.curr, Code(lens, s)[u.root..], SymbolEntry(kind, s, lens[s] - u.root))
    ensures Entered(t', u.root, kind, lens, r) && LinkPlaced(t', lens, r, u)
  {
    hide InSub, SymbolEntry, Code;
    var c, d := Code(lens, s), Code(lens, r);
    var p, e := FromBits(d[..u.root]), SymbolEntry(kind, r, lens[r] - u.root);
    assert t'[p] == t[p];
    if p == u.low {
      FromBitsInjective(d[..u.root], c[..u.root]);
      KeepOpen(t, t', lens, r, s, u, e, SymbolEntry(kind, s, lens[s] - u.root));
    } else {
      KeepClosed(t, t', t[p], lens[r] - u.root, d[u.root..], e, u.next);
    }
  }

  lemma KeepOpen(t: seq<Entry>, t': seq<Entry>, lens: seq<nat>, r: nat, s: nat, u: Cursor, e: Entry, f: Entry)
    requires Fits(lens) && r < |lens| && s < |lens| && lens[r] > u.root && lens[s] > u.root
    requires 1 <= u.curr < 16 && lens[s] <= u.root + u.curr
    requires Code(lens, r)[..u.root] == Code(lens, s)[..u.root] && (r == s ==> e == f)
    requires Filled(t, t', u.next, u.curr, Code(lens, s)[u.root..], f)
    requires r != s ==> InSub(t, Entry(u.curr, u.root, u.next), lens[r] - u.root, Code(lens, r)[u.root..], e)
    ensures InSub(t', Entry(u.curr, u.root, u.next), lens[r] - u.root, Code(lens, r)[u.root..], e)
  {
    var x, y := Code(lens, r)[u.root..], Code(lens, s)[u.root..];
    forall i | 0 <= i < Pow2(u.curr) && x <= ToBits(i, u.curr) ensures t'[u.next + i] == e {
      if y <= ToBits(i, u.curr) { SlotUnique(lens, r, s, u.root, ToBits(i, u.curr)); }
    }
  }

  lemma KeepClosed(t: seq<Entry>, t': seq<Entry>, link: Entry, len: nat, x: seq<bool>, e: Entry, next: nat)
    requires link.val + Pow2(link.op) <= next <= |t| == |t'|
    requires forall i :: 0 <= i < next ==> t'[i] == t[i]
    requires InSub(t, link, len, x, e)
    ensures InSub(t', link, len, x, e)
  {
  }

  /** Opening a new sub-table keeps everything entered so far. */
  lemma OpenSub(t: seq<Entry>, kind: Kind, lens: seq<nat>, s: nat, u: Cursor, v: Cursor)
    requires Fits(lens) && s < |lens| <= SymbolLimit(kind) && u.root < lens[s]
    requires Progress(t, kind, lens, Index(lens, s), u)
    requires v.root == u.root && v.next == u.next + Pow2(u.curr)
    requires 0 <= v.low == FromBits(Code(lens, s)[..u.root]) < Pow2(u.root)
    requires forall r :: 0 <= r < |lens| && lens[r] > u.root && Index(lens, r) < Index(lens, s) ==>
                           FromBits(Code(lens, r)[..u.root]) != v.low
    ensures Progress(t[v.low := Entry(v.curr, v.root, v.next)], kind, lens, Index(lens, s), v)
  {
    var c := Code(lens, s);
    var t' := t[v.low := Entry(v.curr, v.root, v.next)];
    forall r | 0 <= r < |lens| && lens[r] >= 1 && Index(lens, r) < Index(lens, s)
      ensures Entered(t', u.root, kind, lens, r) && LinkPlaced(t', lens, r, v)
    {
      if lens[r] <= u.root {
        ToFrom(c[..u.root]);
        PrefixFree(lens, r, s);
        assert !(Code(lens, r) <= c[..u.root]) by { PrefixOfPrefix(Code(lens, r), c, u.root); }
      } else {
        KeepLong(t, t', kind, lens, r, u.root, v.low);
      }
    }
  }

  lemma PrefixOfPrefix(a: seq<bool>, b: seq<bool>, n: nat)
    requires n <= |b|
    ensures a <= b[..n] ==> a <= b
  {
  }

  lemma KeepLong(t: seq<Entry>, t': seq<Entry>, kind: Kind, lens: seq<nat>, r: nat, root: nat, low: int)
    requires r < |lens| <= SymbolLimit(kind) && lens[r] > root && Pow2(root) <= |t| == |t'|
    requires Entered(t, root, kind, lens, r)
    requires forall i :: 0 <= i < |t| && i != low ==> t'[i] == t[i]
    requires 0 <= low < Pow2(root)
    requires low != FromBits(Code(lens, r)[..root])
    requires Pow2(root) <= t[FromBits(Code(lens, r)[..root])].val
    ensures Entered(t', root, kind, lens, r)
    ensures t'[FromBits(Code(lens, r)[..root])] == t[FromBits(Code(lens, r)[..root])]
  {
  }

  lemma BlockMod(i: nat, f: nat, m: nat, incr: nat)
    requires incr > 0 && f == incr * m && f <= i < f + incr
    ensures i % incr == i - f
  {
    DivModUnique(i, incr, m, i - f);
  }

  /** Index `i` has the low bits `h` and lies at or above `f`. */
  predicate InRun(i: nat, f: int, incr: nat, h: nat)
    requires incr > 0
  {
    f <= i && i % incr == h
  }

  lemma RunStep(i: nat, f: nat, m: nat, incr: nat, h: nat)
    requires incr > 0 && f == incr * m && h < incr
    ensures InRun(i, f, incr, h) <==> i == f + h || InRun(i, f + incr, incr, h)
  {
    if f <= i < f + incr { BlockMod(i, f, m, incr); }
  }

  /** Replicates `e` over all indices of a `w`-bit table whose low bits are the code `c`. */
  method Replicate(table: array<Entry>, at: nat, w: nat, h: nat, l: nat, e: Entry, ghost c: seq<bool>)
    requires at + Pow2(w) <= table.Length
    requires |c| == l <= w && h == FromBits(c)
    modifies table
    ensures forall i :: 0 <= i < table.Length && !(at <= i < at + Pow2(w)) ==> table[i] == old(table[i])
    ensures forall i :: 0 <= i < Pow2(w) ==> table[at + i] == if c <= ToBits(i, w) then e else old(table[at + i])
  {
    var incr, fill := Pow2(l), Pow2(w);
    FromBitsBound(c);
    Pow2Add(l, w - l);
    ghost var m := Pow2(w - l);
    hide Pow2, FromBits, ToBits;
    while fill != 0
      invariant fill == incr * m && 0 <= fill <= Pow2(w) && m >= 0
      invariant forall i :: 0 <= i < table.Length && !(at <= i < at + Pow2(w)) ==> table[i] == old(table[i])
      invariant forall i :: 0 <= i < Pow2(w) ==>
                              table[at + i] == if InRun(i, fill, incr, h) then e else old(table[at + i])
    {
      MulStep(incr, m);
      m := m - 1;
      fill := fill - incr;
      forall i | 0 <= i < Pow2(w)
        ensures InRun(i, fill, incr, h) <==> i == fill + h || InRun(i, fill + incr, incr, h)
      {
        RunStep(i, fill, m, incr, h);
      }
      table[at + h + fill] := e;
    }
    forall i | 0 <= i < Pow2(w) ensures c <= ToBits(i, w) <==> InRun(i, 0, incr, h) {
      PrefixIff(c, i, w);
    }
  }

  lemma MulStep(d: nat, m: int)
    requires d > 0 && d * m != 0 && m >= 0
    ensures m >= 1 && d * m - d == d * (m - 1) >= 0
  {
    MulDistrib(d, m - 1, 1);
    MulNonNeg(d, m - 1);
  }

  // ------------------------------------------------------------------ moving to the next symbol

  lemma {:induction false} MsbShift(x: nat, n: nat, d: nat)
    ensures MsbBits(x * Pow2(d), n + d) == MsbBits(x, n) + Zeros(d)
    decreases d
  {
    if d == 0 {
      assert MsbBits(x, n) + Zeros(0) == MsbBits(x, n);
    } else {
      MsbShift(x, n, d - 1);
      MulDouble(x, Pow2(d - 1));
      var y := x * Pow2(d - 1);
      assert (2 * y) / 2 == y && (2 * y) % 2 == 0;
      assert Zeros(d - 1) + [false] == Zeros(d);
    }
  }

  /** The code after `s` is the incremented code of `s`, extended with zeros if it is longer. */
  lemma NextCode(lens: seq<nat>, s: nat, t: nat)
    requires Fits(lens) && s < |lens| && t < |lens| && 1 <= lens[s] <= lens[t]
    requires CodeValue(lens, t) == (CodeValue(lens, s) + 1) * Pow2(lens[t] - lens[s])
    ensures Code(lens, t) == IncMsb(Code(lens, s)) + Zeros(lens[t] - lens[s])
    ensures FromBits(Code(lens, t)) == FromBits(IncMsb(Code(lens, s)))
  {
    hide MsbValue, MsbBits, IncMsb, FromBits, Top, Fits, Pow2, CodeValue, Zeros;
    var l, d, v := lens[s], lens[t] - lens[s], CodeValue(lens, s);
    var c := Code(lens, s);
    NextBelow(lens, s, t);
    CodeReads(lens, s);
    assert Code(lens, t) == MsbBits((v + 1) * Pow2(d), l + d);
    hide Code;
    IncValue(c);
    MsbToFrom(IncMsb(c));
    MsbShift(v + 1, l, d);
    PadValue(IncMsb(c), d);
  }

  /** A code with a successor is not the last of its length. */
  lemma NextBelow(lens: seq<nat>, s: nat, t: nat)
    requires Fits(lens) && s < |lens| && t < |lens| && 1 <= lens[s] <= lens[t]
    requires CodeValue(lens, t) == (CodeValue(lens, s) + 1) * Pow2(lens[t] - lens[s])
    ensures CodeValue(lens, s) + 1 < Pow2(lens[s])
  {
    hide CodeValue, Top, Pow2;
    var l, d, v := lens[s], lens[t] - lens[s], CodeValue(lens, s);
    CodeValueRange(lens, t);
    assert Top(lens, l + d) <= Pow2(l + d);
    Pow2Add(l, d);
    MulCancel(v + 1, Pow2(l), Pow2(d));
  }

  lemma {:induction false} NextLength(lens: seq<nat>, l: nat, max: nat) returns (m: nat)
    requires l < max && Total(lens, max) >= 1
    ensures l < m <= max && Total(lens, m) >= 1 && forall j :: l < j < m ==> Total(lens, j) == 0
    decreases max - l
  {
    if Total(lens, l + 1) >= 1 {
      m := l + 1;
    } else {
      m := NextLength(lens, l + 1, max);
    }
  }

  /** What follows symbol `s` in the sorted list once its count has been taken off. */
  lemma Advance(lens: seq<nat>, work: seq<nat>, count: seq<nat>, s: nat, max: nat) returns (t: nat)
    requires Fits(lens) && Sorted(lens, work) && s < |lens| && 1 <= lens[s] <= max <= MAX_BITS
    requires Bounded(lens, max) && Total(lens, max) >= 1 && Remaining(lens, count, s)
    requires count[lens[s]] >= 1 && (count[lens[s]] > 1 || lens[s] < max)
    ensures t < |lens| && Index(lens, s) + 1 < |work| && work[Index(lens, s) + 1] == t
    ensures 1 <= lens[s] <= lens[t] <= max && Index(lens, t) == Index(lens, s) + 1
    ensures count[lens[s]] > 1 ==> lens[t] == lens[s]
    ensures Remaining(lens, count[lens[s] := count[lens[s]] - 1], t)
    ensures CodeValue(lens, t) == (CodeValue(lens, s) + 1) * Pow2(lens[t] - lens[s])
    ensures Code(lens, t) == IncMsb(Code(lens, s)) + Zeros(lens[t] - lens[s])
    ensures FromBits(Code(lens, t)) == FromBits(IncMsb(Code(lens, s)))
  {
    hide Sorted, Fits, Code, CodeValue, Pow2;
    var l := lens[s];
    if count[l] > 1 {
      t := NthSymbol(lens, l, Count(lens, l, s) + 1, |lens|);
    } else {
      CountMono(lens, l, s, |lens|);
      var m := NextLength(lens, l, max);
      t := NthSymbol(lens, m, 0, |lens|);
    }
    NextSymbol(lens, work, s, t);
    NextCode(lens, s, t);
  }

  /** The open table is the one symbol `s` belongs to and is large enough for it. */
  ghost predicate OpenFor(t: seq<Entry>, lens: seq<nat>, s: nat, drop: nat, u: Cursor)
    requires s < |lens| && lens[s] >= 1
  {
    u.next + Pow2(u.curr) <= |t| &&
    if lens[s] <= u.root then
      drop == 0 && u.next == 0 && u.curr == u.root && u.low == -1
    else
      drop == u.root && Pow2(u.root) <= u.next && 1 <= u.curr < 16 && lens[s] <= u.root + u.curr &&
      u.low == FromBits(Code(lens, s)[..u.root]) < Pow2(u.root) && t[u.low] == Entry(u.curr, u.root, u.next) &&
      Sized(lens, s, u.root, u.curr)
  }

  lemma OpenUsed(t: seq<Entry>, lens: seq<nat>, s: nat, drop: nat, u: Cursor)
    requires s < |lens| && lens[s] >= 1 && OpenFor(t, lens, s, drop, u)
    ensures Pow2(u.root) <= u.next + Pow2(u.curr)
  {
  }

  /** A following symbol with the same root bits still fits the open table. */
  lemma StayOpen(t: seq<Entry>, lens: seq<nat>, s: nat, r: nat, drop: nat, u: Cursor)
    requires Fits(lens) && s < |lens| && r < |lens| && 1 <= lens[s] <= lens[r]
    requires OpenFor(t, lens, s, drop, u)
    requires lens[r] > u.root ==> FromBits(Code(lens, r)[..u.root]) == u.low
    ensures OpenFor(t, lens, r, drop, u)
  {
    if lens[r] > u.root {
      if lens[s] > u.root {
        FromBitsInjective(Code(lens, s)[..u.root], Code(lens, r)[..u.root]);
        SamePrefix(lens, s, r, u.root);
      }
    }
  }

  lemma ZeroTail(v: nat, a: nat, b: nat)
    requires a > 0 && b > 0
    ensures a * b > 0
    ensures (v * (a * b)) % b == 0
  {
    MulAtLeast(a, b);
    MulAssoc(v, a, b);
    DivModUnique(v * (a * b), b, v * a, 0);
  }

  lemma StepsOver(v: nat, p: nat)
    requires p > 0 && (v + 1) / p != v / p
    ensures (v + 1) % p == 0
  {
    var q, r := v / p, v % p;
    assert v == p * q + r;
    if r + 1 < p { DivModUnique(v + 1, p, q, r + 1); }
    else { MulDistrib(p, q, 1); DivModUnique(v + 1, p, q + 1, 0); }
  }

  lemma MulModZero(x: nat, p: nat, q: nat)
    requires p > 0 && q > 0 && x % p == 0
    ensures p * q > 0
    ensures (x * q) % (p * q) == 0
    ensures (x * q) / (p * q) == x / p
  {
    MulAtLeast(p, q);
    var k := x / p;
    assert x == p * k;
    calc {
      x * q;
      (p * k) * q;
      { MulAssoc(p, k, q); }
      p * (k * q);
      { assert k * q == q * k; }
      p * (q * k);
      { MulAssoc(p, q, k); }
      (p * q) * k;
    }
    DivModUnique(x * q, p * q, k, 0);
  }

  /** The first code under a new root entry starts its sub-table. */
  lemma Aligned(lens: seq<nat>, s: nat, t: nat, root: nat)
    requires s < |lens| && t < |lens| && 1 <= lens[s] <= lens[t] && root < lens[t]
    requires CodeValue(lens, t) == (CodeValue(lens, s) + 1) * Pow2(lens[t] - lens[s])
    requires lens[s] > root ==> RootPrefix(lens, s, root) != RootPrefix(lens, t, root)
    ensures CodeValue(lens, t) % Pow2(lens[t] - root) == 0
  {
    var v, d := CodeValue(lens, s), lens[t] - lens[s];
    if lens[s] <= root {
      Pow2Add(root - lens[s], lens[t] - root);
      ZeroTail(v + 1, Pow2(root - lens[s]), Pow2(lens[t] - root));
    } else {
      var p, q := Pow2(lens[s] - root), Pow2(d);
      Pow2Add(lens[s] - root, d);
      if (v + 1) % p == 0 {
        MulModZero(v + 1, p, q);
      } else {
        DivShift(v + 1, p, q);
        StepsOver(v, p);
      }
    }
  }

  lemma DivShift(x: nat, p: nat, q: nat)
    requires p > 0 && q > 0
    ensures p * q > 0
    ensures (x * q) / (p * q) == x / p
  {
    MulAtLeast(p, q);
    DivDiv(x * q, q, p);
    DivModUnique(x * q, q, x, 0);
    assert q * p == p * q;
  }

  /** No symbol entered so far hangs from the root entry about to be linked. */
  lemma FreshPrefix(lens: seq<nat>, s: nat, t: nat, root: nat)
    requires Fits(lens) && s < |lens| && t < |lens| && 1 <= lens[s] <= lens[t] && root < lens[t]
    requires Index(lens, t) == Index(lens, s) + 1
    requires lens[s] > root ==> FromBits(Code(lens, s)[..root]) != FromBits(Code(lens, t)[..root])
    ensures forall r :: 0 <= r < |lens| && lens[r] > root && Index(lens, r) < Index(lens, t) ==>
                          FromBits(Code(lens, r)[..root]) != FromBits(Code(lens, t)[..root])
  {
    forall r | 0 <= r < |lens| && lens[r] > root && Index(lens, r) < Index(lens, t)
      ensures FromBits(Code(lens, r)[..root]) != FromBits(Code(lens, t)[..root])
    {
      IndexOrder(lens, r, s);
      IndexOrder(lens, s, r);
      IndexOrder(lens, s, t);
      if r != s {
        PrefixOrder(lens, r, s, root);
        PrefixOrder(lens, s, t, root);
        SamePrefix(lens, s, t, root);
        SamePrefix(lens, r, t, root);
      }
      if FromBits(Code(lens, r)[..root]) == FromBits(Code(lens, t)[..root]) {
        FromBitsInjective(Code(lens, r)[..root], Code(lens, t)[..root]);
      }
    }
  }

  // ------------------------------------------------------------------ inflate_table

  /** Entries the caller must have room for. */
  function Room(kind: Kind, request: nat): (n: nat)
    ensures n >= 2
  {
    match kind case CODES => 2 * Pow2(request) case LENS => ENOUGH_LENS case DISTS => ENOUGH_DISTS
  }

  function View(table: array<Entry>, start: nat, n: nat): (t: seq<Entry>)
    requires start + n <= table.Length
    reads table
    ensures |t| == n
  {
    table[start..start + n]
  }

  /** The loop state of the main loop, at sorted position `k`. */
  ghost predicate Filling(t: seq<Entry>, kind: Kind, lens: seq<nat>, work: seq<nat>, count: seq<nat>,
                          k: nat, len: nat, huff: nat, drop: nat, u: Cursor)
  {
    k < |work| && work[k] < |lens| && lens[work[k]] == len >= 1 && Index(lens, work[k]) == k &&
    huff == FromBits(Code(lens, work[k])) && Remaining(lens, count, work[k]) &&
    Progress(t, kind, lens, k, u) && OpenFor(t, lens, work[k], drop, u)
  }

  /** Replication seen in the part of the array that belongs to this table. */
  method ReplicateIn(table: array<Entry>, start: nat, room: nat, at: nat, w: nat, h: nat, l: nat, e: Entry,
                     ghost c: seq<bool>)
    requires start + room <= table.Length && at + Pow2(w) <= room
    requires |c| == l <= w && h == FromBits(c)
    modifies table
    ensures Filled(old(View(table, start, room)), View(table, start, room), at, w, c, e)
    ensures forall i :: 0 <= i < table.Length && !(start <= i < start + room) ==> table[i] == old(table[i])
  {
    hide Pow2, FromBits;
    Replicate(table, start + at, w, h, l, e, c);
    assert forall i :: 0 <= i < room ==> View(table, start, room)[i] == table[start + i];
    forall i | 0 <= i < Pow2(w)
      ensures View(table, start, room)[at + i] == if c <= ToBits(i, w) then e else old(View(table, start, room))[at + i]
    {
      assert View(table, start, room)[at + i] == table[start + at + i];
    }
  }

  /** Enters one symbol in the open table. */
  method EnterSymbol(table: array<Entry>, start: nat, room: nat, kind: Kind, lens: seq<nat>, s: nat, huff: nat,
                     drop: nat, next: nat, curr: nat, ghost u: Cursor)
    requires start + room <= table.Length && Fits(lens) && s < |lens| <= SymbolLimit(kind) && lens[s] >= 1
    requires u.next == next && u.curr == curr && u.root >= 1 && huff == FromBits(Code(lens, s))
    requires Progress(View(table, start, room), kind, lens, Index(lens, s), u)
    requires OpenFor(View(table, start, room), lens, s, drop, u)
    modifies table
    ensures Progress(View(table, start, room), kind, lens, Index(lens, s) + 1, u)
    ensures OpenFor(View(table, start, room), lens, s, drop, u)
    ensures forall i :: 0 <= i < table.Length && !(start <= i < start + room) ==> table[i] == old(table[i])
  {
    hide SymbolEntry, Code, Progress, Sized, Pow2, Filled, FromBits, View, Fits, Index;
    ghost var t := View(table, start, room);
    ghost var c := Code(lens, s);
    var here := SymbolEntry(kind, s, lens[s] - drop);
    if drop == 0 {
      ReplicateIn(table, start, room, next, curr, huff, lens[s], here, c);
      EnterRoot(t, View(table, start, room), kind, lens, s, u);
    } else {
      SplitValue(c, drop);
      ReplicateIn(table, start, room, next, curr, huff / Pow2(drop), lens[s] - drop, here, c[drop..]);
      EnterSub(t, View(table, start, room), kind, lens, s, u);
    }
  }

  function Enough(kind: Kind): (n: nat)
  {
    match kind case CODES => 0 case LENS => ENOUGH_LENS case DISTS => ENOUGH_DISTS
  }

  /** Closes the open table and links a new one for symbol `r`, the successor of `s`. */
  lemma Relink(t: seq<Entry>, kind: Kind, lens: seq<nat>, s: nat, r: nat, drop: nat, u: Cursor, v: Cursor)
    requires Fits(lens) && s < |lens| && r < |lens| <= SymbolLimit(kind) && 1 <= lens[s] <= lens[r] && u.root >= 1
    requires Index(lens, r) == Index(lens, s) + 1 && u.root < lens[r]
    requires Progress(t, kind, lens, Index(lens, r), u) && OpenFor(t, lens, s, drop, u)
    requires v.root == u.root && v.next == u.next + Pow2(u.curr) && v.next + Pow2(v.curr) <= |t|
    requires v.low == FromBits(Code(lens, r)[..u.root]) && v.low != u.low
    requires 1 <= v.curr < 16 && lens[r] <= v.root + v.curr && Sized(lens, r, v.root, v.curr)
    ensures v.low < Pow2(u.root) <= |t|
    ensures Progress(t[v.low := Entry(v.curr, v.root, v.next)], kind, lens, Index(lens, r), v)
    ensures OpenFor(t[v.low := Entry(v.curr, v.root, v.next)], lens, r, v.root, v)
  {
    hide Code, Progress, Sized, Fits, Index, Pow2, FromBits;
    FromBitsBound(Code(lens, r)[..u.root]);
    FreshPrefix(lens, s, r, u.root);
    ProgressSize(t, kind, lens, Index(lens, r), u);
    OpenSub(t, kind, lens, r, u, v);
  }

  lemma ProgressSize(t: seq<Entry>, kind: Kind, lens: seq<nat>, k: nat, u: Cursor)
    requires Progress(t, kind, lens, k, u)
    ensures Pow2(u.root) <= |t|
  {
  }

  lemma RemainingPositive(lens: seq<nat>, count: seq<nat>, s: nat)
    requires s < |lens| && Remaining(lens, count, s)
    ensures |count| == MAX_BITS + 1 && lens[s] <= MAX_BITS && count[lens[s]] >= 1
  {
    CountMono(lens, lens[s], s, |lens|);
  }

  /** When the counts run out at the longest length, every symbol has been placed. */
  lemma AllPlaced(lens: seq<nat>, count: seq<nat>, s: nat, max: nat)
    requires s < |lens| && 1 <= lens[s] == max && Bounded(lens, max) && Remaining(lens, count, s) && count[max] == 1
    ensures forall r :: 0 <= r < |lens| && lens[r] >= 1 ==> Index(lens, r) < Index(lens, s) + 1
    ensures CodeValue(lens, s) + 1 == Top(lens, max)
  {
    forall r | 0 <= r < |lens| && lens[r] >= 1 ensures Index(lens, r) < Index(lens, s) + 1 {
      IndexOrder(lens, s, r);
      if lens[r] == max && s < r {
        CountMono(lens, max, s, s + 1);
        CountMono(lens, max, s + 1, r);
        CountMono(lens, max, r, |lens|);
      }
    }
  }

  /** A new root entry begins with a code that fills its sub-table from the start. */
  lemma NewPrefixAligned(t: seq<Entry>, lens: seq<nat>, s: nat, r: nat, drop: nat, u: Cursor)
    requires Fits(lens) && s < |lens| && r < |lens| && 1 <= lens[s] <= lens[r] && u.root < lens[r]
    requires CodeValue(lens, r) == (CodeValue(lens, s) + 1) * Pow2(lens[r] - lens[s])
    requires OpenFor(t, lens, s, drop, u) && FromBits(Code(lens, r)[..u.root]) != u.low
    ensures CodeValue(lens, r) % Pow2(lens[r] - u.root) == 0
  {
    if lens[s] > u.root { SamePrefix(lens, s, r, u.root); }
    Aligned(lens, s, r, u.root);
  }

  lemma NewPrefix(t: seq<Entry>, lens: seq<nat>, s: nat, r: nat, drop: nat, u: Cursor)
    requires Fits(lens) && s < |lens| && r < |lens| && 1 <= lens[s] <= lens[r] && u.root < lens[r]
    requires OpenFor(t, lens, s, drop, u) && FromBits(Code(lens, r)[..u.root]) != u.low
    ensures lens[s] > u.root ==> RootPrefix(lens, s, u.root) != RootPrefix(lens, r, u.root)
  {
    if lens[s] > u.root { SamePrefix(lens, s, r, u.root); }
  }

  /** Starts the sub-table of symbol `r`, or reports that the table space is too small. */
  method OpenTable(table: array<Entry>, start: nat, room: nat, kind: Kind, lens: seq<nat>, count: seq<nat>,
                   len: nat, huff: nat, root: nat, max: nat, next0: nat, curr0: nat,
                   ghost s: nat, ghost r: nat, ghost drop: nat, ghost u: Cursor)
    returns (fits: bool, next: nat, curr: nat, low: int, ghost v: Cursor)
    requires start + room <= table.Length && Fits(lens) && r < |lens| <= SymbolLimit(kind)
    requires s < |lens| && 1 <= lens[s] <= lens[r] == len && Index(lens, r) == Index(lens, s) + 1
    requires 1 <= root < len <= max <= MAX_BITS && Bounded(lens, max) && Remaining(lens, count, r)
    requires kind != CODES && room == Enough(kind) && Total(lens, max) >= 1
    requires CodeValue(lens, r) == (CodeValue(lens, s) + 1) * Pow2(lens[r] - lens[s])
    requires u.root == root && u.next == next0 && u.curr == curr0 && Sizing(lens, root, s, next0 + Pow2(curr0))
    requires Progress(View(table, start, room), kind, lens, Index(lens, r), u)
    requires OpenFor(View(table, start, room), lens, s, drop, u)
    requires huff == FromBits(Code(lens, r)) && huff % Pow2(root) == FromBits(Code(lens, r)[..root]) != u.low
    modifies table
    ensures fits ==> v == Cursor(root, next, curr, low) && next == next0 + Pow2(curr0)
    ensures fits ==> next + Pow2(curr) <= room && Sizing(lens, root, r, next + Pow2(curr))
    ensures !fits ==> TableSize(lens, root) > Enough(kind)
    ensures fits ==> Progress(View(table, start, room), kind, lens, Index(lens, r), v)
    ensures fits ==> OpenFor(View(table, start, room), lens, r, root, v)
    ensures forall i :: 0 <= i < table.Length && !(start <= i < start + room) ==> table[i] == old(table[i])
  {
    hide Progress, Sized, Reached, Sizing, TableSize, RootPrefix, Fits, Code, CodeValue, Index, Remaining, OpenFor,
         Total, Pow2, FromBits;
    ghost var t := View(table, start, room);
    NewPrefixAligned(t, lens, s, r, drop, u);
    NewPrefix(t, lens, s, r, drop, u);
    next := next0 + Pow2(curr0);
    curr := SubtableBits(lens, count, len, root, max, r);
    SizeOpens(lens, root, s, r, next, curr);
    low := huff % Pow2(root);
    v := Cursor(root, next, curr, low);
    fits := !(next + Pow2(curr) > Enough(kind));
    if fits {
      Relink(t, kind, lens, s, r, drop, u, v);
      table[start + low] := Entry(curr, root, next);
      ViewUpdate(t, View(table, start, room), low, Entry(curr, root, next), table, start, room);
    }
  }

  lemma ViewUpdate(t: seq<Entry>, t': seq<Entry>, low: nat, e: Entry, table: array<Entry>, start: nat, room: nat)
    requires start + room <= table.Length && t' == View(table, start, room) && |t| == room && low < room
    requires table[start + low] == e && forall i :: 0 <= i < room && i != low ==> table[start + i] == t[i]
    ensures t' == t[low := e]
  {
  }

  /** What the main loop leaves behind: `last` was the last symbol and `huff` the value after its code. */
  ghost predicate Finished(t: seq<Entry>, kind: Kind, lens: seq<nat>, max: nat, huff: nat, used: nat, last: nat,
                           u: Cursor)
  {
    last < |lens| && 1 <= lens[last] == max && huff == FromBits(IncMsb(Code(lens, last))) &&
    CodeValue(lens, last) + 1 == Top(lens, max) && Pow2(u.root) <= u.next + Pow2(u.curr) == used <= |t| &&
    Progress(t, kind, lens, Index(lens, last) + 1, u) &&
    forall r :: 0 <= r < |lens| && lens[r] >= 1 ==> Index(lens, r) < Index(lens, last) + 1
  }

  /** The main loop: fills the root table and all sub-tables. */
  method FillTables(table: array<Entry>, start: nat, room: nat, kind: Kind, lens: seq<nat>, work: seq<nat>,
                    count0: seq<nat>, min: nat, max: nat, root: nat)
    returns (fits: bool, used: nat, huff: nat, ghost last: nat, ghost u: Cursor)
    requires start + room <= table.Length && |lens| <= SymbolLimit(kind) && Fits(lens)
    requires Sorted(lens, work) && Counts(lens, count0, |lens|)
    requires 1 <= min <= root <= max <= MAX_BITS && Bounded(lens, max)
    requires Total(lens, max) >= 1 && Total(lens, min) >= 1 && forall l :: 1 <= l < min ==> Total(lens, l) == 0
    requires Pow2(root) <= room
    requires kind == CODES ==> root == max
    requires kind != CODES ==> room == Enough(kind)
    modifies table
    ensures fits ==>
              u.root == root && Finished(View(table, start, room), kind, lens, max, huff, used, last, u) &&
              used == TableSize(lens, root)
    ensures !fits ==> kind != CODES && TableSize(lens, root) > Enough(kind)
    ensures max <= root ==> fits && used == Pow2(root)
    ensures forall i :: 0 <= i < table.Length && !(start <= i < start + room) ==> table[i] == old(table[i])
  {
    hide Progress, Sized, Sorted, Fits, Code, CodeValue, Index, View, Total, OpenFor, Counts, Pow2, Top, Bounded,
         FromBits, IncMsb, SymbolLimit, Remaining, Sizing, TableSize;
    var count, len: nat, low: int := count0, min, -1;
    var k: nat, next: nat, curr: nat, drop: nat := 0, 0, root, 0;
    huff, last := 0, 0;
    used := Pow2(root);
    FirstSymbol(lens, work, count, min);
    u := Cursor(root, next, curr, low);
    StartFilling(View(table, start, room), kind, lens, work, count, u);
    SizeStart(lens, root, work[0]);
    while true
      invariant u == Cursor(root, next, curr, low) && used == next + Pow2(curr) <= room
      invariant Filling(View(table, start, room), kind, lens, work, count, k, len, huff, drop, u)
      invariant len <= max <= root ==> used == Pow2(root)
      invariant k < |work| && work[k] < |lens| && Sizing(lens, root, work[k], used)
      invariant len <= max
      invariant forall i :: 0 <= i < table.Length && !(start <= i < start + room) ==> table[i] == old(table[i])
      decreases |work| - k
    {
      ghost var s := work[k];
      EnterSymbol(table, start, room, kind, lens, work[k], huff, drop, next, curr, u);
      huff := BackwardsIncrement(huff, len, Code(lens, s));
      RemainingPositive(lens, count, s);
      if count[len] == 1 && len == max {
        AllPlaced(lens, count, s, max);
        OpenUsed(View(table, start, room), lens, s, drop, u);
        SizeDone(lens, root, s, used);
        return true, used, huff, s, u;
      }
      fits, count, len, next, curr, drop, low, u :=
        StepOn(table, start, room, kind, lens, work, count, k, len, huff, root, max, next, curr, drop, low, u);
      if !fits { return; }
      used := next + Pow2(curr);
      k := k + 1;
    }
  }

  /** Goes to the next symbol: updates the counts and the length, and opens a sub-table if it is needed. */
  method StepOn(table: array<Entry>, start: nat, room: nat, kind: Kind, lens: seq<nat>, work: seq<nat>,
                count0: seq<nat>, k: nat, len0: nat, huff: nat, root: nat, max: nat,
                next0: nat, curr0: nat, drop0: nat, low0: int, ghost u: Cursor)
    returns (fits: bool, count: seq<nat>, len: nat, next: nat, curr: nat, drop: nat, low: int, ghost v: Cursor)
    requires start + room <= table.Length && Fits(lens) && Sorted(lens, work) && |lens| <= SymbolLimit(kind)
    requires k < |work| && work[k] < |lens| && 1 <= len0 == lens[work[k]] && Index(lens, work[k]) == k
    requires 1 <= root <= max <= MAX_BITS && len0 <= max && Bounded(lens, max) && Total(lens, max) >= 1
    requires Remaining(lens, count0, work[k]) && count0[len0] >= 1 && (count0[len0] > 1 || len0 < max)
    requires kind == CODES ==> root == max
    requires kind != CODES ==> room == Enough(kind)
    requires u == Cursor(root, next0, curr0, low0) && huff == FromBits(IncMsb(Code(lens, work[k])))
    requires next0 + Pow2(curr0) <= room && Sizing(lens, root, work[k], next0 + Pow2(curr0))
    requires Progress(View(table, start, room), kind, lens, k + 1, u)
    requires OpenFor(View(table, start, room), lens, work[k], drop0, u)
    modifies table
    ensures fits ==> v == Cursor(root, next, curr, low) && next + Pow2(curr) <= room && len <= max && k + 1 < |work|
    ensures fits ==> Filling(View(table, start, room), kind, lens, work, count, k + 1, len, huff, drop, v)
    ensures fits ==> work[k + 1] < |lens| && Sizing(lens, root, work[k + 1], next + Pow2(curr))
    ensures !fits ==> kind != CODES && TableSize(lens, root) > Enough(kind)
    ensures max <= root ==> fits && next == next0 && curr == curr0
    ensures forall i :: 0 <= i < table.Length && !(start <= i < start + room) ==> table[i] == old(table[i])
  {
    hide Progress, Sized, Sorted, Fits, Code, CodeValue, Index, View, Total, OpenFor, Pow2, Sizing, TableSize;
    ghost var s := work[k];
    ghost var r := Advance(lens, work, count0, s, max);
    count, len, next, curr, drop, low, v := count0[len0 := count0[len0] - 1], len0, next0, curr0, drop0, low0, u;
    if count[len0] == 0 {
      len := lens[work[k + 1]];
    }
    SplitRoot(lens, r, root);
    fits := true;
    if len > root && huff % Pow2(root) != low {
      fits, next, curr, low, v := OpenTable(table, start, room, kind, lens, count, len, huff, root, max, next, curr, s,
                                            r, drop, u);
      drop := root;
    } else {
      StayOpen(View(table, start, room), lens, s, r, drop, u);
      SizeStays(View(table, start, room), lens, s, r, drop, u, next + Pow2(curr));
    }
  }

  lemma SizeStays(t: seq<Entry>, lens: seq<nat>, s: nat, r: nat, drop: nat, u: Cursor, used: nat)
    requires Fits(lens) && s < |lens| && r < |lens| && 1 <= lens[s] <= lens[r]
    requires OpenFor(t, lens, s, drop, u) && Sizing(lens, u.root, s, used)
    requires lens[r] > u.root ==> FromBits(Code(lens, r)[..u.root]) == u.low
    ensures Sizing(lens, u.root, r, used)
  {
    if lens[r] > u.root && lens[s] > u.root {
      FromBitsInjective(Code(lens, s)[..u.root], Code(lens, r)[..u.root]);
      SamePrefix(lens, s, r, u.root);
    }
  }

  lemma SplitRoot(lens: seq<nat>, r: nat, root: nat)
    requires r < |lens| && lens[r] >= 1
    ensures lens[r] > root ==> FromBits(Code(lens, r)) % Pow2(root) == FromBits(Code(lens, r)[..root])
  {
    if lens[r] > root { SplitValue(Code(lens, r), root); }
  }

  lemma SizeStart(lens: seq<nat>, root: nat, s: nat)
    requires s < |lens| && lens[s] <= root
    ensures Sizing(lens, root, s, Pow2(root))
  {
  }

  lemma FirstSymbol(lens: seq<nat>, work: seq<nat>, count: seq<nat>, min: nat)
    requires Sorted(lens, work) && Counts(lens, count, |lens|) && 1 <= min <= MAX_BITS
    requires Total(lens, min) >= 1 && forall l :: 1 <= l < min ==> Total(lens, l) == 0
    ensures |work| >= 1 && work[0] < |lens| && lens[work[0]] == min && Index(lens, work[0]) == 0
    ensures FromBits(Code(lens, work[0])) == 0 && Remaining(lens, count, work[0])
  {
    var s := NthSymbol(lens, min, 0, |lens|);
    if min > 1 { OffsetGap0(lens, min); }
    TopZero(lens, min - 1);
    MsbZeros(min);
    ZerosValue(min);
  }

  lemma {:induction false} OffsetGap0(lens: seq<nat>, m: nat)
    requires m >= 1 && forall l :: 1 <= l < m ==> Total(lens, l) == 0
    ensures Offset(lens, m) == 0
    decreases m
  {
    if m > 1 { OffsetGap0(lens, m - 1); }
  }

  lemma {:induction false} TopZero(lens: seq<nat>, m: nat)
    requires forall l :: 1 <= l <= m ==> Total(lens, l) == 0
    ensures Top(lens, m) == 0
    decreases m
  {
    if m > 0 { TopZero(lens, m - 1); }
  }

  lemma {:induction false} MsbZeros(n: nat)
    ensures MsbBits(0, n) == Zeros(n)
  {
    if n > 0 {
      MsbZeros(n - 1);
      assert Zeros(n - 1) + [false] == Zeros(n);
    }
  }

  lemma StartFilling(t: seq<Entry>, kind: Kind, lens: seq<nat>, work: seq<nat>, count: seq<nat>, u: Cursor)
    requires |lens| <= SymbolLimit(kind) && Pow2(u.root) <= |t| && u == Cursor(u.root, 0, u.root, -1)
    requires |work| >= 1 && work[0] < |lens| && 1 <= lens[work[0]] <= u.root && Index(lens, work[0]) == 0
    requires FromBits(Code(lens, work[0])) == 0 && Remaining(lens, count, work[0])
    ensures Filling(t, kind, lens, work, count, 0, lens[work[0]], 0, 0, u)
  {
  }

  lemma CompleteAt(lens: seq<nat>, m: nat)
    requires Complete(lens, MAX_BITS) && Bounded(lens, m) && m <= MAX_BITS
    ensures Complete(lens, m)
  {
    TopBeyond(lens, m, MAX_BITS);
    Pow2Add(m, MAX_BITS - m);
    MulCancel(Top(lens, m), Pow2(m), Pow2(MAX_BITS - m));
    MulCancel(Pow2(m), Top(lens, m), Pow2(MAX_BITS - m));
  }

  /** Everything entered lies in the used part of the table. */
  lemma EnteredInUsed(t: seq<Entry>, kind: Kind, lens: seq<nat>, k: nat, u: Cursor, used: nat, s: nat)
    requires Progress(t, kind, lens, k, u) && s < |lens| && lens[s] >= 1 && Index(lens, s) < k
    requires u.next + Pow2(u.curr) == used <= |t| && Pow2(u.root) <= used
    ensures Entered(t[..used], u.root, kind, lens, s)
  {
    hide SymbolEntry, Code;
    if lens[s] > u.root {
      var p := FromBits(Code(lens, s)[..u.root]);
      InSubUsed(t, t[p], lens[s] - u.root, Code(lens, s)[u.root..], SymbolEntry(kind, s, lens[s] - u.root), used);
    }
  }

  lemma InSubUsed(t: seq<Entry>, link: Entry, len: nat, x: seq<bool>, e: Entry, used: nat)
    requires InSub(t, link, len, x, e) && link.val + Pow2(link.op) <= used <= |t|
    ensures InSub(t[..used], link, len, x, e)
  {
  }

  /** A complete code leaves no hole. */
  lemma CompleteDone(t: seq<Entry>, kind: Kind, lens: seq<nat>, max: nat, huff: nat, used: nat, last: nat, u: Cursor)
    requires Finished(t, kind, lens, max, huff, used, last, u) && Complete(lens, MAX_BITS) && Bounded(lens, max)
    requires |lens| <= SymbolLimit(kind) && 1 <= u.root <= max <= MAX_BITS && Pow2(u.root) <= used
    ensures huff == 0 && TableFor(t[..used], u.root, kind, lens)
  {
    hide Entered, Progress, Code, Pow2, FromBits, ToBits, Top, CodeValue, IncMsb, Fits, Index;
    CompleteAt(lens, max);
    CompleteFits(lens, max);
    CodeReads(lens, last);
    IncValue(Code(lens, last));
    ZerosValue(max);
    forall s | 0 <= s < |lens| && lens[s] >= 1 ensures Entered(t[..used], u.root, kind, lens, s) {
      EnteredInUsed(t, kind, lens, Index(lens, last) + 1, u, used, s);
    }
    if Bounded(lens, 1) {
      forall i | 0 <= i < 2 ensures !Uncovered(lens, i) {
        var s := CompleteCovers(lens, 1, ToBits(i, 1));
      }
    }
  }

  /** A lone one-bit code leaves exactly index 1 to be marked invalid. */
  lemma LoneDone(t: seq<Entry>, kind: Kind, lens: seq<nat>, huff: nat, used: nat, last: nat, u: Cursor)
    requires Finished(t, kind, lens, 1, huff, used, last, u) && Fits(lens) && !Complete(lens, MAX_BITS) &&
             Bounded(lens, 1)
    requires |lens| <= SymbolLimit(kind) && u.root == 1 && used == 2
    ensures huff == 1 && TableFor(t[1 := HOLE][..used], 1, kind, lens)
  {
    hide Progress, Index, Fits, SymbolEntry;
    LoneTop(lens);
    LoneCode(lens, last);
    assert IncMsb([false]) == [true];
    assert FromBits([true]) == 1;
    assert ToBits(0, 1) == [false] && ToBits(1, 1) == [true];
    var t' := t[1 := HOLE][..used];
    forall s | 0 <= s < |lens| && lens[s] >= 1 ensures Entered(t', 1, kind, lens, s) {
      LoneCode(lens, s);
      EnteredInUsed(t, kind, lens, Index(lens, last) + 1, u, used, s);
    }
    LoneCode(lens, last);
    assert IsCodeAt(lens, last, ToBits(0, 1));
  }

  lemma LoneTop(lens: seq<nat>)
    requires Fits(lens) && Bounded(lens, 1) && !Complete(lens, MAX_BITS)
    ensures Top(lens, 1) <= 1
  {
    hide Pow2, Top;
    TopBeyond(lens, 1, MAX_BITS);
    Pow2Add(1, MAX_BITS - 1);
    Pow2Values();
    assert Top(lens, 1) <= Pow2(1);
  }

  lemma LoneCode(lens: seq<nat>, s: nat)
    requires s < |lens| && lens[s] == 1 && Top(lens, 1) <= 1
    ensures CodeValue(lens, s) == 0 && Code(lens, s) == [false]
  {
    CodeValueRange(lens, s);
  }

  lemma EmptyTable(t: seq<Entry>, kind: Kind, lens: seq<nat>)
    requires Bounded(lens, 0) && |lens| <= SymbolLimit(kind) && |t| == 2 && t[0] == HOLE && t[1] == HOLE
    ensures Fits(lens) && TableFor(t, 1, kind, lens)
  {
    forall l: nat ensures Top(lens, l) <= Pow2(l) {
      forall j | 1 <= j <= l ensures Total(lens, j) == 0 { CountZero(lens, j, |lens|); }
      TopZero(lens, l);
    }
  }

  /** The longest and the shortest length in use among the first `n` symbols, 0 if there is none. */
  function MaxLength(lens: seq<nat>, n: nat): (m: nat)
    requires n <= |lens|
  {
    if n == 0 then 0 else var m := MaxLength(lens, n - 1); if lens[n - 1] > m then lens[n - 1] else m
  }

  function MinLength(lens: seq<nat>, n: nat): (m: nat)
    requires n <= |lens|
  {
    if n == 0 then 0
    else var m := MinLength(lens, n - 1); if lens[n - 1] != 0 && (m == 0 || lens[n - 1] < m) then lens[n - 1] else m
  }

  /** The index bits of the root table: those requested, within the lengths in use. */
  function RootFor(lens: seq<nat>, request: nat): (root: nat)
  {
    var min, max := MinLength(lens, |lens|), MaxLength(lens, |lens|);
    if max == 0 then 1 else if request > max then max else if request < min then min else request
  }

  /** The tables for the code have more entries than the caller has room for. */
  predicate TooLarge(kind: Kind, lens: seq<nat>, request: nat)
  {
    kind != CODES && TableSize(lens, RootFor(lens, request)) > Enough(kind)
  }

  /** The room given for the tables of dynamic blocks suffices for every code inflate accepts: 286 and 30 symbols, root
      tables of 9 and 6 bits.  For ENOUGH_LENS and ENOUGH_DISTS inftrees.h reports this from an exhaustive search;
      module `Enough` proves it. */
  ghost predicate Suffices(lenRoom: nat, distRoom: nat)
  {
    (forall ll: seq<nat> :: |ll| <= 286 && Bounded(ll, MAX_BITS) && Acceptable(LENS, ll) ==>
       TableSize(ll, RootFor(ll, 9)) <= lenRoom) &&
    (forall dl: seq<nat> :: |dl| <= 30 && Bounded(dl, MAX_BITS) && Acceptable(DISTS, dl) ==>
       TableSize(dl, RootFor(dl, 6)) <= distRoom)
  }

  lemma NotEnough(ll: seq<nat>, dl: seq<nat>)
    requires |ll| <= 286 && Bounded(ll, MAX_BITS) && |dl| <= 30 && Bounded(dl, MAX_BITS)
    requires (Acceptable(LENS, ll) && TooLarge(LENS, ll, 9)) || (Acceptable(DISTS, dl) && TooLarge(DISTS, dl, 6))
    ensures !Suffices(ENOUGH_LENS, ENOUGH_DISTS)
  {
    hide Acceptable, TableSize, RootFor, Bounded;
  }

  lemma {:induction false} LengthsAre(lens: seq<nat>, n: nat, min: nat, max: nat)
    requires n <= |lens| && Bounded(lens, max) && 1 <= min && forall i :: 0 <= i < n && lens[i] >= 1 ==> lens[i] >= min
    ensures MaxLength(lens, n) <= max && (MinLength(lens, n) == 0 || MinLength(lens, n) >= min)
    ensures (exists i :: 0 <= i < n && lens[i] == max) ==> MaxLength(lens, n) == max
    ensures (exists i :: 0 <= i < n && lens[i] == min) ==> MinLength(lens, n) == min
    decreases n
  {
    if n > 0 { LengthsAre(lens, n - 1, min, max); }
  }

  lemma RootIs(lens: seq<nat>, request: nat, min: nat, max: nat)
    requires 1 <= min <= max && Bounded(lens, max) && Total(lens, max) >= 1 && Total(lens, min) >= 1
    requires forall l :: 1 <= l < min ==> Total(lens, l) == 0
    ensures RootFor(lens, request) == if request > max then max else if request < min then min else request
  {
    hide Bounded;
    var a := NthSymbol(lens, max, 0, |lens|);
    var b := NthSymbol(lens, min, 0, |lens|);
    forall i | 0 <= i < |lens| && lens[i] >= 1 ensures lens[i] >= min {
      if lens[i] < min { UsedOnce(lens, i); }
    }
    LengthsAre(lens, |lens|, min, max);
  }

  lemma UsedOnce(lens: seq<nat>, i: nat)
    requires i < |lens|
    ensures Total(lens, lens[i]) >= 1
  {
    CountMono(lens, lens[i], i, i + 1);
    CountMono(lens, lens[i], i + 1, |lens|);
  }

  lemma SizeRoot(lens: seq<nat>, root: nat)
    ensures SizeUpTo(lens, root, 0) == Pow2(root) && TableSize(lens, root) == SizeUpTo(lens, root, Pow2(root))
  {
  }

  lemma EmptyRoot(lens: seq<nat>, request: nat)
    requires Bounded(lens, 0)
    ensures RootFor(lens, request) == 1 && TableSize(lens, 1) == 2
  {
    LengthsAre(lens, |lens|, 1, 0);
    SizeGap(lens, 1, 0, Pow2(1));
  }

  /** inflate_table: 0 and a table, -1 for an invalid set of lengths, +1 when the space is too small. */
  method Build(kind: Kind, lens: seq<nat>, table: array<Entry>, start: nat, request: nat)
    returns (ret: int, used: nat, root: nat)
    requires Bounded(lens, MAX_BITS) && |lens| <= SymbolLimit(kind) && 1 <= request <= MAX_BITS
    requires start + Room(kind, request) <= table.Length
    requires kind == CODES ==> Bounded(lens, request)
    modifies table
    ensures ret == 0 || ret == 1 || ret == -1
    ensures ret == -1 <==> !Acceptable(kind, lens)
    ensures ret == 0 ==> used <= Room(kind, request) && TableFor(View(table, start, used), root, kind, lens)
    ensures ret == 0 ==> root == RootFor(lens, request) && used == TableSize(lens, root)
    ensures ret == 1 <==> Acceptable(kind, lens) && TooLarge(kind, lens, request)
    ensures ret == 1 ==> kind != CODES && (!Bounded(lens, request) || Pow2(request) > Room(kind, request))
    ensures ret == 0 && kind == CODES ==> Bounded(lens, root)
    ensures forall i :: 0 <= i < table.Length && !(start <= i < start + Room(kind, request)) ==>
              table[i] == old(table[i])
  {
    hide Fits, TableFor, Counts, Top, Total, Pow2, View, TableSize, RootFor;
    used := 0;
    var count := CountLengths(lens);
    var min, max := LengthBounds(lens, count);
    root := request;
    if root > max { root := max; }
    if max == 0 {
      used, root := EmptyCode(kind, lens, table, start);
      EmptyRoot(lens, request);
      return 0, used, root;
    }
    NotBounded(lens, max);
    if root < min { root := min; }
    RootIs(lens, request, min, max);
    SizeMono(lens, root, 0, Pow2(root));
    SizeRoot(lens, root);
    if Bounded(lens, request) { MaxWithin(lens, max, request); }
    var left := CheckLeft(lens, count);
    if left < 0 || (left > 0 && (kind == CODES || max != 1)) { return -1, 0, root; }
    if root <= request { Pow2Mono(root, request); }
    if kind != CODES && Pow2(root) > Enough(kind) { return 1, 0, root; }
    var fits;
    fits, used := FillAndFinish(table, start, Room(kind, request), kind, lens, count, min, max, root);
    ret := if fits then 0 else 1;
  }

  /** No symbols: two entries that report an error when they are used. */
  method EmptyCode(kind: Kind, lens: seq<nat>, table: array<Entry>, start: nat) returns (used: nat, root: nat)
    requires Bounded(lens, 0) && |lens| <= SymbolLimit(kind) && start + 2 <= table.Length
    modifies table
    ensures used == 2 && root == 1 && Fits(lens) && TableFor(View(table, start, used), root, kind, lens)
    ensures forall i :: 0 <= i < table.Length && !(start <= i < start + 2) ==> table[i] == old(table[i])
  {
    hide TableFor, Fits;
    table[start] := HOLE;
    table[start + 1] := HOLE;
    EmptyTable(View(table, start, 2), kind, lens);
    return 2, 1;
  }

  /** Sorts, fills, and marks the one unused entry of an incomplete code. */
  method FillAndFinish(table: array<Entry>, start: nat, room: nat, kind: Kind, lens: seq<nat>, count: seq<nat>,
                       min: nat, max: nat, root: nat) returns (fits: bool, used: nat)
    requires start + room <= table.Length && |lens| <= SymbolLimit(kind) && Fits(lens) && Counts(lens, count, |lens|)
    requires 1 <= min <= root <= max <= MAX_BITS && Bounded(lens, max)
    requires Total(lens, max) >= 1 && Total(lens, min) >= 1 && forall l :: 1 <= l < min ==> Total(lens, l) == 0
    requires Pow2(root) <= room
    requires kind == CODES ==> root == max
    requires kind != CODES ==> room == Enough(kind)
    requires Complete(lens, MAX_BITS) || max == 1
    modifies table
    ensures fits ==>
              used <= room && TableFor(View(table, start, used), root, kind, lens) && used == TableSize(lens, root)
    ensures !fits ==> kind != CODES && TableSize(lens, root) > Enough(kind)
    ensures max <= root ==> fits
    ensures forall i :: 0 <= i < table.Length && !(start <= i < start + room) ==> table[i] == old(table[i])
  {
    hide Fits, TableFor, Counts, Sorted, Total, Complete, Bounded, Pow2, SymbolLimit, TableSize;
    Pow2Values();
    CountsTail(lens, count, max);
    var work := SortSymbols(lens, count);
    var huff;
    ghost var last, u;
    fits, used, huff, last, u := FillTables(table, start, room, kind, lens, work, count, min, max, root);
    if !fits { return; }
    ghost var t := View(table, start, room);
    if Complete(lens, MAX_BITS) {
      CompleteDone(t, kind, lens, max, huff, used, last, u);
    } else {
      LoneDone(t, kind, lens, huff, used, last, u);
    }
    if huff != 0 {
      table[start + huff] := HOLE;
      ViewUpdate(t, View(table, start, room), huff, HOLE, table, start, room);
    }
    ViewPrefix(table, start, room, used);
  }

  lemma CountsTail(lens: seq<nat>, count: seq<nat>, max: nat)
    requires Counts(lens, count, |lens|) && Bounded(lens, max) && max <= MAX_BITS
    ensures Bounded(lens, MAX_BITS) && |count| == MAX_BITS + 1
    ensures forall l :: 1 <= l <= MAX_BITS ==> count[l] == Total(lens, l)
  {
  }

  lemma ViewPrefix(table: array<Entry>, start: nat, room: nat, used: nat)
    requires start + room <= table.Length && used <= room
    ensures View(table, start, used) == View(table, start, room)[..used]
  {
  }

  lemma MaxWithin(lens: seq<nat>, max: nat, m: nat)
    requires Total(lens, max) >= 1 && Bounded(lens, m)
    ensures max <= m
  {
    var s := NthSymbol(lens, max, 0, |lens|);
  }

  lemma NotBounded(lens: seq<nat>, max: nat)
    requires max >= 1 && Total(lens, max) >= 1
    ensures !Bounded(lens, max - 1) && (Bounded(lens, 1) ==> max == 1) && !Bounded(lens, 0)
  {
    var s := NthSymbol(lens, max, 0, |lens|);
  }

  // ------------------------------------------------------------------ reading the table

  /** Index of the second-level read, as inflate computes it from the bit accumulator value `w`. */
  function SubIndex(link: Entry, w: nat): (i: nat)
  {
    link.val + Shr(Low(w, link.bits + link.op), link.bits)
  }

  lemma MidValue(p: seq<bool>, a: nat, b: nat)
    requires a + b <= |p|
    ensures Shr(Low(FromBits(p), a + b), a) == FromBits(p[a..a + b]) < Pow2(b)
  {
    hide Pow2, FromBits;
    SplitValue(p, a + b);
    SplitValue(p[..a + b], a);
    assert p[..a + b][a..] == p[a..a + b];
    FromBitsBound(p[a..a + b]);
  }

  /** Reading the table with any bit string that starts with the code of `s` yields the entry of `s`,
      through the root alone or through one link. */
  lemma LookupSymbol(t: seq<Entry>, root: nat, kind: Kind, lens: seq<nat>, s: nat, p: seq<bool>)
    requires TableFor(t, root, kind, lens) && IsCodeAt(lens, s, p) && |p| >= 2 * MAX_BITS
    ensures Low(FromBits(p), root) < |t|
    ensures lens[s] <= root ==> t[Low(FromBits(p), root)] == SymbolEntry(kind, s, lens[s])
    ensures lens[s] > root ==>
              var link := t[Low(FromBits(p), root)];
              IsLink(link) && link.bits == root && SubIndex(link, FromBits(p)) < |t| &&
              t[SubIndex(link, FromBits(p))] == SymbolEntry(kind, s, lens[s] - root)
  {
    hide SymbolEntry, Code, FromBits, Pow2, ToBits, InSub, Shr;
    var c := Code(lens, s);
    var i := FromBits(p[..root]);
    SplitValue(p, root);
    FromBitsBound(p[..root]);
    ToFrom(p[..root]);
    assert Entered(t, root, kind, lens, s);
    if lens[s] <= root {
      assert c <= ToBits(i, root);
    } else {
      assert c[..root] == p[..root];
      LookupLink(t, t[i], root, lens[s] - root, c[root..], SymbolEntry(kind, s, lens[s] - root), p);
    }
  }

  lemma LookupLink(t: seq<Entry>, link: Entry, root: nat, len: nat, x: seq<bool>, e: Entry, p: seq<bool>)
    requires InSub(t, link, len, x, e) && link.bits == root <= MAX_BITS && |p| >= 2 * MAX_BITS
    requires |x| == len && x <= p[root..]
    ensures IsLink(link) && SubIndex(link, FromBits(p)) < |t| && t[SubIndex(link, FromBits(p))] == e
  {
    hide FromBits, Pow2, ToBits, Shr, Low;
    var k := link.op;
    MidValue(p, root, k);
    ToFrom(p[root..root + k]);
    assert x <= p[root..root + k];
    LookupSub(t, link, len, x, e, FromBits(p[root..root + k]));
  }

  lemma LookupSub(t: seq<Entry>, link: Entry, len: nat, x: seq<bool>, e: Entry, i: nat)
    requires InSub(t, link, len, x, e) && i < Pow2(link.op) && x <= ToBits(i, link.op)
    ensures link.val + i < |t| && t[link.val + i] == e
  {
  }

  /** Bits that no code of a one-bit or empty code starts read as the invalid entry. */
  lemma LookupHole(t: seq<Entry>, root: nat, kind: Kind, lens: seq<nat>, p: seq<bool>)
    requires TableFor(t, root, kind, lens) && Bounded(lens, 1) && |p| >= 1
    requires forall s: nat :: !IsCodeAt(lens, s, p)
    ensures root == 1 && Low(FromBits(p), root) < |t| && t[Low(FromBits(p), root)] == HOLE
  {
    SplitValue(p, 1);
    FromBitsBound(p[..1]);
    ToFrom(p[..1]);
    forall s: nat ensures !IsCodeAt(lens, s, p[..1]) {
      assert !IsCodeAt(lens, s, p);
      if s < |lens| && lens[s] >= 1 { PrefixOfPrefix(Code(lens, s), p, 1); }
    }
  }
}
