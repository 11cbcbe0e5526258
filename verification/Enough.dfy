/**
  The size of the decoding tables of a complete code, as a sum over lengths, and the proof that the room inftrees.h
  sets aside is enough for every code, and for some code just enough.
*/
module Enough {
  import opened Bits
  import opened Canonical
  import opened InflateTable
  import F = Format

  // ------------------------------------------------------------------ how deep each sub-table is

  /** The first root prefix with codes of at least `j` bits below the root. */
  function Start(lens: seq<nat>, root: nat, j: nat): (p: nat)
    requires j >= 1
  {
    Shr(Top(lens, root + j - 1), j - 1)
  }

  lemma StartMono(lens: seq<nat>, root: nat, j: nat)
    requires j >= 1
    ensures Start(lens, root, j) <= Start(lens, root, j + 1)
  {
    var a, b, p := Top(lens, root + j - 1), Top(lens, root + j), Pow2(j - 1);
    hide Top;
    TopStep(lens, root + j - 1);
    DivMono(2 * a, b, 2 * p);
    DivDouble(a, p);
  }

  lemma DivDouble(a: nat, p: nat)
    requires p > 0
    ensures (2 * a) / (2 * p) == a / p
  {
    var q, r := a / p, a % p;
    assert a == p * q + r;
    assert 2 * a == 2 * r + (2 * p) * q by { MulAssoc(2, p, q); }
    DivModUnique(2 * a, 2 * p, q, 2 * r);
  }

  lemma TopStep(lens: seq<nat>, l: nat)
    ensures Top(lens, l + 1) == 2 * Top(lens, l) + Total(lens, l + 1)
  {
  }

  /** Codes of `root + d` bits start with root prefix `p`, and no longer ones do. */
  ghost predicate DeepAs(lens: seq<nat>, root: nat, p: nat, d: nat)
  {
    (d >= 1 ==> Start(lens, root, d) <= p) && p < Start(lens, root, d + 1)
  }

  lemma DepthAt(lens: seq<nat>, root: nat, p: nat, d: nat)
    requires DeepAs(lens, root, p, d)
    ensures Depth(lens, root, p, |lens|) == d
  {
    hide Top, RootPrefix, Depth, Pow2;
    var top := Top(lens, root + d);
    ShrTimes(top, d, p + 1);
    forall r | 0 <= r < |lens| && lens[r] > root + d ensures RootPrefix(lens, r, root) != p {
      BeyondSubtable(lens, r, root, root + d, p);
    }
    DepthIs(lens, root, p, |lens|, d);
    if d >= 1 {
      var r := CodeAt(lens, root, p, d);
      assert lens[r] == root + d;
    } else {
      DepthIs(lens, root, p, |lens|, 0);
    }
  }

  lemma ShrTimes(v: nat, d: nat, q: nat)
    requires q <= Shr(v, d)
    ensures q * Pow2(d) <= v
  {
    MulMono(q, Shr(v, d), Pow2(d));
    assert v == Pow2(d) * (v / Pow2(d)) + v % Pow2(d);
  }

  lemma ShrBelow(v: nat, d: nat, q: nat)
    requires Shr(v, d) < q
    ensures v < q * Pow2(d)
  {
    MulMono(Shr(v, d) + 1, q, Pow2(d));
    assert v == Pow2(d) * (v / Pow2(d)) + v % Pow2(d);
    assert (Shr(v, d) + 1) * Pow2(d) == Pow2(d) * (v / Pow2(d)) + Pow2(d);
  }

  /** The last code below prefix `p`. */
  lemma CodeAt(lens: seq<nat>, root: nat, p: nat, d: nat) returns (r: nat)
    requires d >= 1 && DeepAs(lens, root, p, d)
    ensures r < |lens| && lens[r] == root + d && RootPrefix(lens, r, root) == p
  {
    hide Top, Count, Pow2;
    var l := root + d;
    ShrTimes(Top(lens, l), d, p + 1);
    ShrBelow(Top(lens, l - 1), d - 1, p + 1);
    SpanDouble(p, d - 1);
    var v := (p + 1) * Pow2(d) - 1;
    assert First(lens, l) <= v < Top(lens, l);
    TopIs(lens, l);
    r := NthSymbol(lens, l, v - First(lens, l), |lens|);
    assert (p + 1) * Pow2(d) == Pow2(d) * p + Pow2(d);
    DivModUnique(v, Pow2(d), p, Pow2(d) - 1);
  }

  /** Every prefix is reached at some depth. */
  lemma FindDepth(lens: seq<nat>, root: nat, p: nat, j: nat) returns (d: nat)
    requires p < Start(lens, root, j + 1)
    ensures d <= j && DeepAs(lens, root, p, d)
    decreases j
  {
    hide Start;
    if j == 0 || Start(lens, root, j) <= p { d := j; } else { d := FindDepth(lens, root, p, j - 1); }
  }

  lemma {:induction false} StartUpTo(lens: seq<nat>, root: nat, i: nat, j: nat)
    requires 1 <= i <= j
    ensures Start(lens, root, i) <= Start(lens, root, j)
    decreases j
  {
    hide Start;
    if i < j {
      StartUpTo(lens, root, i, j - 1);
      StartMono(lens, root, j - 1);
    }
  }

  // ------------------------------------------------------------------ the sum over depths

  function Weight(j: nat): (w: nat) { if j <= 1 then 2 else Pow2(j - 1) }

  function Above(a: nat, b: nat): (n: nat) { if a > b then a - b else 0 }

  /** Prefixes below `q` with codes of at least `i` bits below the root, weighted, for `i` up to `j`. */
  function Sum(lens: seq<nat>, root: nat, q: nat, j: nat): (n: nat)
    decreases j
  {
    if j == 0 then 0 else Sum(lens, root, q, j - 1) + Weight(j) * Above(q, Start(lens, root, j))
  }

  lemma {:induction false} SumStep(lens: seq<nat>, root: nat, p: nat, d: nat, j: nat)
    requires DeepAs(lens, root, p, d)
    ensures Sum(lens, root, p + 1, j) - Sum(lens, root, p, j)
            == var m := if d <= j then d else j; if m == 0 then 0 else Pow2(m)
    decreases j
  {
    hide Start, Pow2;
    if j > 0 {
      SumStep(lens, root, p, d, j - 1);
      var c := Start(lens, root, j);
      if j <= d { StartUpTo(lens, root, j, d); } else { StartUpTo(lens, root, d + 1, j); }
      WeightOne(j, p, c);
      WeightSum(j);
    }
  }

  lemma WeightOne(j: nat, p: nat, c: nat)
    ensures Weight(j) * Above(p + 1, c) - Weight(j) * Above(p, c) == if c <= p then Weight(j) else 0
  {
    hide Weight;
    if c <= p { MulDistrib(Weight(j), Above(p, c), 1); }
  }

  lemma WeightSum(j: nat)
    requires j >= 1
    ensures Weight(j) + (if j == 1 then 0 else Pow2(j - 1)) == Pow2(j)
  {
  }

  lemma {:induction false} SizeIsSum(lens: seq<nat>, root: nat, q: nat, j: nat)
    requires q <= Start(lens, root, j + 1)
    ensures SizeUpTo(lens, root, q) == Pow2(root) + Sum(lens, root, q, j)
    decreases q
  {
    hide Start, Depth, Pow2, Above;
    if q == 0 {
      SumNone(lens, root, j);
    } else {
      SizeIsSum(lens, root, q - 1, j);
      var d := FindDepth(lens, root, q - 1, j);
      DepthAt(lens, root, q - 1, d);
      SumStep(lens, root, q - 1, d, j);
    }
  }

  lemma {:induction false} SumNone(lens: seq<nat>, root: nat, j: nat)
    ensures Sum(lens, root, 0, j) == 0
    decreases j
  {
    if j > 0 { SumNone(lens, root, j - 1); }
  }

  // ------------------------------------------------------------------ the sum over lengths

  /** Nodes of the code tree at depth `l` that no code of at most `l` bits covers. */
  function Free(lens: seq<nat>, l: nat): (n: int) { Pow2(l) - Top(lens, l) }

  lemma FreeStep(lens: seq<nat>, l: nat)
    ensures Free(lens, l + 1) == 2 * Free(lens, l) - Total(lens, l + 1)
  {
    TopStep(lens, l);
  }

  /** Symbols with codes of more than `root` and at most `root + j` bits. */
  function Longer(lens: seq<nat>, root: nat, j: nat): (n: nat)
    decreases j
  {
    if j == 0 then 0 else Longer(lens, root, j - 1) + Total(lens, root + j)
  }

  /** Entries of sub-tables beyond one for each symbol. */
  function Spare(lens: seq<nat>, root: nat, j: nat): (n: nat)
    decreases j
  {
    if j == 0 then 0 else Spare(lens, root, j - 1) + Low(Top(lens, root + j), j)
  }

  /** What depth `j` adds over all prefixes. */
  lemma Term(lens: seq<nat>, root: nat, j: nat)
    requires Top(lens, root + j) <= Pow2(root + j)
    ensures Start(lens, root, j + 1) <= Pow2(root)
    ensures Pow2(j) * (Pow2(root) - Start(lens, root, j + 1)) == Free(lens, root + j) + Low(Top(lens, root + j), j)
  {
    hide Top, Pow2;
    var t, p, r := Top(lens, root + j), Pow2(j), Pow2(root);
    Pow2Add(root, j);
    var s := t / p;
    assert t == p * s + t % p;
    assert r * p == p * r;
    assert s * p == p * s;
    MulCancel(s, r, p);
    MulMinus(p, r, s);
  }

  lemma MulMinus(a: int, b: int, c: int)
    ensures a * (b - c) == a * b - a * c
  {
  }

  lemma {:induction false} SumIs(lens: seq<nat>, root: nat, j: nat)
    requires j >= 1 && Fits(lens)
    ensures Sum(lens, root, Pow2(root), j) == Longer(lens, root, j) + Free(lens, root + j) + Spare(lens, root, j - 1)
    decreases j
  {
    hide Top, Pow2, Start, Free, Low, Fits;
    FreeStep(lens, root + j - 1);
    FitsAt(lens, root + j - 1);
    Term(lens, root, j - 1);
    WeightIs(j);
    if j == 1 {
      LowZero(Top(lens, root));
      assert Sum(lens, root, Pow2(root), 0) == 0 && Longer(lens, root, 0) == 0;
    } else {
      SumIs(lens, root, j - 1);
    }
  }

  lemma FitsAt(lens: seq<nat>, l: nat)
    requires Fits(lens)
    ensures Top(lens, l) <= Pow2(l)
  {
  }

  lemma LowZero(v: nat)
    ensures Low(v, 0) == 0
  {
  }

  lemma WeightIs(j: nat)
    requires j >= 1
    ensures Weight(j) == if j == 1 then 2 * Pow2(0) else Pow2(j - 1)
  {
  }

  // ------------------------------------------------------------------ complete codes

  /** The tables of a complete code: the root table, an entry for each longer symbol, and what the sub-tables have
      besides. */
  lemma CompleteSize(lens: seq<nat>, root: nat)
    requires Complete(lens, MAX_BITS) && root < MAX_BITS
    ensures var j := MAX_BITS - root;
            TableSize(lens, root) == Pow2(root) + Longer(lens, root, j) + Spare(lens, root, j - 1)
  {
    hide Top, Pow2, Sum, Longer, Spare;
    var j := MAX_BITS - root;
    CompleteFits(lens, MAX_BITS);
    LastStart(lens, root, j);
    SizeRoot(lens, root);
    SizeIsSum(lens, root, Pow2(root), j);
    SumIs(lens, root, j);
  }

  lemma LastStart(lens: seq<nat>, root: nat, j: nat)
    requires Top(lens, root + j) == Pow2(root + j)
    ensures Start(lens, root, j + 1) == Pow2(root)
  {
    hide Top, Pow2;
    Pow2Add(root, j);
    assert Pow2(root) * Pow2(j) == Pow2(j) * Pow2(root);
    DivModUnique(Top(lens, root + j), Pow2(j), Pow2(root), 0);
  }

  /** Half of all longer symbols at least are needed below the free nodes of the root table. */
  lemma {:induction false} LongerAtLeast(lens: seq<nat>, root: nat, j: nat)
    requires Fits(lens) && j >= 1
    ensures Longer(lens, root, j) + Free(lens, root + j) >= 2 * Free(lens, root)
    decreases j
  {
    hide Top, Free, Fits;
    FreeStep(lens, root + j - 1);
    if j == 1 {
      assert Longer(lens, root, 0) == 0;
    } else {
      LongerAtLeast(lens, root, j - 1);
      FreeIs(lens, root + j - 1);
    }
  }

  lemma FreeIs(lens: seq<nat>, l: nat)
    requires Fits(lens)
    ensures Free(lens, l) >= 0
  {
  }

  lemma LowBound(v: nat, j: nat)
    ensures Low(v, j) <= Pow2(j) - 1
    ensures j >= 1 && Low(v, j) == Pow2(j) - 1 ==> v % 2 == 1
  {
    if j >= 1 {
      var p, q := Pow2(j - 1), v / Pow2(j);
      assert Pow2(j) == 2 * p;
      hide Pow2;
      assert v == (2 * p) * q + Low(v, j);
      hide Low;
      MulAssoc(2, p, q);
      OddBy(v, p * q + p);
    }
  }

  lemma OddBy(v: int, x: int)
    ensures v == 2 * x - 1 ==> v % 2 == 1
  {
  }

  /** The sub-tables have at most 2^(j+1) - 2 - j further entries, and with so many every tree level is odd. */
  lemma {:induction false} SpareBound(lens: seq<nat>, root: nat, j: nat)
    requires Fits(lens) && root >= 1
    ensures Spare(lens, root, j) <= Pow2(j + 1) - 2 - j
    ensures Spare(lens, root, j) == Pow2(j + 1) - 2 - j ==>
              (Longer(lens, root, j + 1) + Free(lens, root + j + 1)) % 2 == j % 2
    decreases j
  {
    hide Top, Low, Fits, Free;
    FreeStep(lens, root + j);
    assert Longer(lens, root, j + 1) == Longer(lens, root, j) + Total(lens, root + j + 1);
    if j > 0 {
      SpareBound(lens, root, j - 1);
      LowBound(Top(lens, root + j), j);
      FreeOdd(lens, root + j);
    } else {
      assert Longer(lens, root, 0) == 0;
    }
  }

  lemma FreeOdd(lens: seq<nat>, l: nat)
    requires l >= 1
    ensures Free(lens, l) % 2 == Top(lens, l) % 2
  {
    hide Top;
  }

  // ------------------------------------------------------------------ counting symbols

  /** Symbols among the first `n` with lengths up to `m`. */
  function CountTo(lens: seq<nat>, m: nat, n: nat): (c: nat)
    requires n <= |lens|
    decreases m
  {
    Count(lens, m, n) + if m == 0 then 0 else CountTo(lens, m - 1, n)
  }

  lemma {:induction false} CountToStep(lens: seq<nat>, m: nat, n: nat)
    requires n < |lens|
    ensures CountTo(lens, m, n + 1) == CountTo(lens, m, n) + if lens[n] <= m then 1 else 0
    decreases m
  {
    if m > 0 { CountToStep(lens, m - 1, n); }
  }

  lemma {:induction false} CountToAll(lens: seq<nat>, m: nat, n: nat)
    requires n <= |lens| && Bounded(lens, m)
    ensures CountTo(lens, m, n) == n
    decreases n
  {
    hide CountTo;
    if n > 0 {
      CountToAll(lens, m, n - 1);
      CountToStep(lens, m, n - 1);
    } else {
      CountToNone(lens, m);
    }
  }

  lemma {:induction false} CountToNone(lens: seq<nat>, m: nat)
    ensures CountTo(lens, m, 0) == 0
    decreases m
  {
    if m > 0 { CountToNone(lens, m - 1); }
  }

  /** Symbols with codes of 1 to `l` bits. */
  function Shorter(lens: seq<nat>, l: nat): (n: nat)
    decreases l
  {
    if l == 0 then 0 else Shorter(lens, l - 1) + Total(lens, l)
  }

  lemma {:induction false} ShorterIs(lens: seq<nat>, l: nat)
    ensures CountTo(lens, l, |lens|) == Total(lens, 0) + Shorter(lens, l)
    decreases l
  {
    if l > 0 { ShorterIs(lens, l - 1); }
  }

  lemma {:induction false} LongerIs(lens: seq<nat>, root: nat, j: nat)
    ensures Shorter(lens, root + j) == Shorter(lens, root) + Longer(lens, root, j)
    decreases j
  {
    if j > 0 { LongerIs(lens, root, j - 1); }
  }

  lemma Symbols(lens: seq<nat>, root: nat)
    requires Bounded(lens, MAX_BITS) && root <= MAX_BITS
    ensures Shorter(lens, root) + Longer(lens, root, MAX_BITS - root) <= |lens|
  {
    hide Count, Shorter, Longer, CountTo;
    CountToAll(lens, MAX_BITS, |lens|);
    ShorterIs(lens, MAX_BITS);
    LongerIs(lens, root, MAX_BITS - root);
  }

  /** What short codes cover, when `Total(lens, 1)` of them have one bit. */
  lemma {:induction false} ShorterCover(lens: seq<nat>, l: nat)
    requires l >= 1
    ensures Total(lens, 1) <= Shorter(lens, l)
    ensures 2 * Top(lens, l) <= (Shorter(lens, l) + Total(lens, 1)) * Pow2(l - 1)
    decreases l
  {
    hide Count;
    var t := Total(lens, 1);
    if l == 1 {
      assert Top(lens, 0) == 0 && Shorter(lens, 0) == 0;
      assert Top(lens, 1) == t && Shorter(lens, 1) == t && Pow2(0) == 1;
    } else {
      ShorterCover(lens, l - 1);
      var a, p := Shorter(lens, l - 1) + t, Pow2(l - 2);
      MulDouble(a, p);
      assert (a + Total(lens, l)) * (2 * p) == a * (2 * p) + Total(lens, l) * (2 * p);
      MulGrows(p, Total(lens, l));
      assert Total(lens, l) * (2 * p) == 2 * (p * Total(lens, l));
    }
  }

  // ------------------------------------------------------------------ ENOUGH

  lemma TwoPowers()
    ensures Pow2(5) == 32 && Pow2(6) == 64 && Pow2(8) == 256 && Pow2(9) == 512
  {
    Pow2Values();
    assert Pow2(9) == 2 * Pow2(8);
  }

  /** With few symbols two codes at least are no longer than the root. */
  lemma EnoughShort(lens: seq<nat>, root: nat)
    requires Complete(lens, MAX_BITS) && 1 <= root < MAX_BITS && |lens| < Pow2(root)
    ensures Shorter(lens, root) >= 2
  {
    hide Top, Pow2, Shorter, Longer, Count, Fits;
    CompleteFits(lens, MAX_BITS);
    Symbols(lens, root);
    LongerAtLeast(lens, root, MAX_BITS - root);
    ShorterCover(lens, root);
    FreeLast(lens);
    var s, t, p := Shorter(lens, root), Total(lens, 1), Pow2(root - 1);
    assert Pow2(root) == 2 * p by { PowerStep(root); }
    if s <= 1 {
      MulMono(s + t, 2, p);
      FreeValue(lens, root);
    }
  }

  lemma PowerStep(n: nat)
    requires n >= 1
    ensures Pow2(n) == 2 * Pow2(n - 1)
  {
  }

  lemma FreeValue(lens: seq<nat>, l: nat)
    ensures Free(lens, l) == Pow2(l) - Top(lens, l)
  {
  }

  lemma FreeLast(lens: seq<nat>)
    requires Complete(lens, MAX_BITS)
    ensures Free(lens, MAX_BITS) == 0
  {
  }

  /** At most 852 entries for 286 symbols with a root table of 9 bits. */
  lemma EnoughLens(lens: seq<nat>)
    requires Complete(lens, MAX_BITS) && |lens| <= 286
    ensures TableSize(lens, 9) <= ENOUGH_LENS
  {
    hide Top, Pow2, Shorter, Longer, Count, Fits, TableSize, Spare, Free;
    TwoPowers();
    CompleteFits(lens, MAX_BITS);
    CompleteSize(lens, 9);
    Symbols(lens, 9);
    SpareBound(lens, 9, 5);
    FreeLast(lens);
    EnoughShort(lens, 9);
  }

  /** At most 592 entries for 30 symbols with a root table of 6 bits. */
  lemma EnoughDists(lens: seq<nat>)
    requires Complete(lens, MAX_BITS) && |lens| <= 30
    ensures TableSize(lens, 6) <= ENOUGH_DISTS
  {
    hide Top, Pow2, Shorter, Longer, Count, Fits, TableSize, Spare, Free;
    TwoPowers();
    CompleteFits(lens, MAX_BITS);
    CompleteSize(lens, 6);
    Symbols(lens, 6);
    SpareBound(lens, 6, 8);
    assert Pow2(9) == 512;
    FreeLast(lens);
    EnoughShort(lens, 6);
    if Shorter(lens, 6) == 2 { TwoShort(lens); }
  }

  /** Two short codes leave either nothing free or too much for 28 symbols. */
  lemma TwoShort(lens: seq<nat>)
    requires Complete(lens, MAX_BITS) && |lens| <= 30 && Shorter(lens, 6) == 2
    ensures Spare(lens, 6, 8) == 0
  {
    hide Top, Pow2, Shorter, Longer, Count, Fits, Free;
    TwoPowers();
    CompleteFits(lens, MAX_BITS);
    Symbols(lens, 6);
    LongerAtLeast(lens, 6, 9);
    ShorterCover(lens, 6);
    FreeLast(lens);
    FreeValue(lens, 6);
    assert Total(lens, 1) == 2;
    OneBitTop(lens);
    TopGrows(lens, 1, 6);
    FitsAt(lens, 6);
    NoSpare(lens, 6, 8);
  }

  lemma OneBitTop(lens: seq<nat>)
    ensures Top(lens, 1) == Total(lens, 1)
  {
    assert Top(lens, 0) == 0;
  }

  lemma {:induction false} NoSpare(lens: seq<nat>, root: nat, j: nat)
    requires Fits(lens) && Top(lens, root) == Pow2(root)
    ensures Spare(lens, root, j) == 0
    decreases j
  {
    hide Top, Pow2, Fits;
    if j > 0 {
      NoSpare(lens, root, j - 1);
      TopGrows(lens, root, root + j);
      FitsAt(lens, root + j);
      Pow2Add(root, j);
      assert Pow2(root) * Pow2(j) == Pow2(j) * Pow2(root);
      DivModUnique(Top(lens, root + j), Pow2(j), Pow2(root), 0);
    }
  }

  // ------------------------------------------------------------------ every acceptable code

  lemma {:induction false} MinMax(lens: seq<nat>, n: nat, i: nat)
    requires i < n <= |lens|
    ensures lens[i] <= MaxLength(lens, n) && (lens[i] == 0 || lens[i] >= MinLength(lens, n))
    ensures lens[i] != 0 ==> MinLength(lens, n) != 0
    decreases n
  {
    if i < n - 1 { MinMax(lens, n - 1, i); }
  }

  lemma BoundedMax(lens: seq<nat>)
    ensures Bounded(lens, MaxLength(lens, |lens|))
  {
    forall i | 0 <= i < |lens| ensures lens[i] <= MaxLength(lens, |lens|) { MinMax(lens, |lens|, i); }
  }

  /** Without longer codes there is just the root table. */
  lemma RootOnly(lens: seq<nat>, root: nat)
    requires Bounded(lens, root)
    ensures TableSize(lens, root) == Pow2(root)
  {
    SizeGap(lens, root, 0, Pow2(root));
  }

  lemma {:induction false} NoneShorter(lens: seq<nat>, l: nat)
    requires l < MinLength(lens, |lens|)
    ensures Shorter(lens, l) == 0
    decreases l
  {
    if l > 0 {
      NoneShorter(lens, l - 1);
      forall i | 0 <= i < |lens| ensures lens[i] != l { MinMax(lens, |lens|, i); }
      CountZero(lens, l, |lens|);
    }
  }

  /** The root table is as large as requested, unless no code is that long. */
  lemma SizeOfComplete(lens: seq<nat>, request: nat)
    requires Complete(lens, MAX_BITS) && 1 <= request < MAX_BITS && |lens| < Pow2(request)
    ensures var root := RootFor(lens, request);
            root == request || (1 <= root < request && TableSize(lens, root) == Pow2(root))
  {
    hide Top, Pow2, Shorter, TableSize, MinLength, MaxLength;
    EnoughShort(lens, request);
    if request < MinLength(lens, |lens|) { NoneShorter(lens, request); }
    BoundedMax(lens);
    var max := MaxLength(lens, |lens|);
    if max == 0 {
      NotEmpty(lens);
    } else if request > max {
      RootOnly(lens, max);
    }
  }

  lemma NotEmpty(lens: seq<nat>)
    requires Complete(lens, MAX_BITS)
    ensures !Bounded(lens, 0)
  {
    if Bounded(lens, 0) { TopNone(lens, MAX_BITS); }
  }

  lemma {:induction false} TopNone(lens: seq<nat>, l: nat)
    requires Bounded(lens, 0)
    ensures Top(lens, l) == 0
    decreases l
  {
    if l > 0 {
      TopNone(lens, l - 1);
      CountZero(lens, l, |lens|);
    }
  }

  lemma SmallSize(lens: seq<nat>, request: nat)
    requires Bounded(lens, 1) && request >= 1
    ensures TableSize(lens, RootFor(lens, request)) == 2
  {
    hide TableSize, MinLength;
    BoundedMax(lens);
    LengthsAre(lens, |lens|, 1, 1);
    RootOnly(lens, 1);
    assert Pow2(1) == 2;
    if MaxLength(lens, |lens|) == 1 && request == 1 {
      NoneAbove(lens);
    }
  }

  lemma NoneAbove(lens: seq<nat>)
    requires Bounded(lens, 1)
    ensures MinLength(lens, |lens|) <= 1
  {
    MinOne(lens, |lens|);
  }

  lemma {:induction false} MinOne(lens: seq<nat>, n: nat)
    requires Bounded(lens, 1) && n <= |lens|
    ensures MinLength(lens, n) <= 1
    decreases n
  {
    if n > 0 { MinOne(lens, n - 1); }
  }

  /** The room of inftrees.h is enough for every code that inflate accepts. */
  lemma RoomSuffices()
    ensures Suffices(ENOUGH_LENS, ENOUGH_DISTS)
  {
    hide Acceptable, TableSize, RootFor, Bounded;
    forall ll: seq<nat> | |ll| <= 286 && Bounded(ll, MAX_BITS) && Acceptable(LENS, ll)
      ensures TableSize(ll, RootFor(ll, 9)) <= ENOUGH_LENS {
      LensFit(ll);
    }
    forall dl: seq<nat> | |dl| <= 30 && Bounded(dl, MAX_BITS) && Acceptable(DISTS, dl)
      ensures TableSize(dl, RootFor(dl, 6)) <= ENOUGH_DISTS {
      DistsFit(dl);
    }
  }

  lemma LensFit(ll: seq<nat>)
    requires |ll| <= 286 && Acceptable(LENS, ll)
    ensures TableSize(ll, RootFor(ll, 9)) <= ENOUGH_LENS
  {
    hide TableSize, RootFor, Fits, Top, Pow2;
    TwoPowers();
    if Complete(ll, MAX_BITS) {
      SizeOfComplete(ll, 9);
      EnoughLens(ll);
      Pow2Mono(RootFor(ll, 9), 9);
    } else {
      SmallSize(ll, 9);
    }
  }

  lemma DistsFit(dl: seq<nat>)
    requires |dl| <= 30 && Acceptable(DISTS, dl)
    ensures TableSize(dl, RootFor(dl, 6)) <= ENOUGH_DISTS
  {
    hide TableSize, RootFor, Fits, Top, Pow2;
    TwoPowers();
    if Complete(dl, MAX_BITS) {
      SizeOfComplete(dl, 6);
      EnoughDists(dl);
      Pow2Mono(RootFor(dl, 6), 6);
    } else {
      SmallSize(dl, 6);
    }
  }

  // ------------------------------------------------------------------ no less would do

  /** Lengths of 286 symbols whose tables have 852 entries. */
  function WideLens(): (lens: seq<nat>)
    ensures |lens| == 286
  {
    seq(286, i => if i == 0 then 1 else if i == 1 then 2 else if i == 2 then 9 else if i < 232 then 10
                  else if i < 281 then 11 else if i < 285 then i - 269 else 15)
  }

  lemma WideTotals(l: nat)
    requires l <= 15
    ensures Total(WideLens(), l) == if l == 1 || l == 2 || l == 9 then 1 else if l == 10 then 229
                                    else if l == 11 then 49 else if 12 <= l <= 14 then 1 else if l == 15 then 2 else 0
  {
    var f := WideLens();
    assert Count(f, l, 0) == 0;
    hide Count;
    F.CountRun(f, l, 0, 1, 1);
    F.CountRun(f, l, 1, 2, 2);
    F.CountRun(f, l, 2, 3, 9);
    F.CountRun(f, l, 3, 232, 10);
    F.CountRun(f, l, 232, 281, 11);
    F.CountRun(f, l, 281, 282, 12);
    F.CountRun(f, l, 282, 283, 13);
    F.CountRun(f, l, 283, 284, 14);
    F.CountRun(f, l, 284, 286, 15);
  }

  lemma WideTops()
    ensures var f := WideLens();
            Top(f, 9) == 385 && Top(f, 10) == 999 && Top(f, 11) == 2047 && Top(f, 12) == 4095 && Top(f, 13) == 8191 &&
            Top(f, 14) == 16383 && Top(f, 15) == 32768
  {
    hide Total, WideLens;
    var f := WideLens();
    forall l: nat | l <= 15
      ensures Total(f, l) == (if l == 1 || l == 2 || l == 9 then 1 else if l == 10 then 229
                              else if l == 11 then 49 else if 12 <= l <= 14 then 1 else if l == 15 then 2 else 0) {
      WideTotals(l);
    }
    assert Top(f, 0) == 0;
    assert Top(f, 1) == 1;
    assert Top(f, 2) == 3;
    assert Top(f, 3) == 6;
    assert Top(f, 4) == 12;
    assert Top(f, 5) == 24;
    assert Top(f, 6) == 48;
    assert Top(f, 7) == 96;
    assert Top(f, 8) == 192;
  }

  /** 852 entries are needed. */
  lemma LensNeeded()
    ensures Complete(WideLens(), MAX_BITS) && RootFor(WideLens(), 9) == 9 && TableSize(WideLens(), 9) == ENOUGH_LENS
  {
    hide WideLens, TableSize, RootFor;
    var f := WideLens();
    WideRoot();
    WideTops();
    Powers15();
    hide Top, Pow2;
    CompleteSize(f, 9);
    WideSpare(f);
    WideLonger(f);
  }

  lemma WideRoot()
    ensures Bounded(WideLens(), MAX_BITS) && RootFor(WideLens(), 9) == 9
  {
    hide MinLength, MaxLength;
    var f := WideLens();
    assert f[0] == 1 && f[285] == 15;
    LengthsAre(f, 286, 1, 15);
  }

  lemma WideSpare(f: seq<nat>)
    requires Top(f, 10) == 999 && Top(f, 11) == 2047 && Top(f, 12) == 4095 && Top(f, 13) == 8191 && Top(f, 14) == 16383
    ensures Spare(f, 9, 5) == 57
  {
    Powers15();
    hide Top, Pow2;
    assert Spare(f, 9, 0) == 0;
    assert Spare(f, 9, 1) == 1;
    assert Spare(f, 9, 2) == 4;
    assert Spare(f, 9, 3) == 11;
    assert Spare(f, 9, 4) == 26;
  }

  lemma WideLonger(f: seq<nat>)
    requires f == WideLens()
    ensures Longer(f, 9, 6) == 283
  {
    hide Total, WideLens;
    WideTotals(10);
    WideTotals(11);
    WideTotals(12);
    WideTotals(13);
    WideTotals(14);
    WideTotals(15);
    assert Longer(f, 9, 0) == 0;
    assert Longer(f, 9, 1) == 229;
    assert Longer(f, 9, 2) == 278;
    assert Longer(f, 9, 3) == 279;
    assert Longer(f, 9, 4) == 280;
    assert Longer(f, 9, 5) == 281;
  }

  lemma Powers15()
    ensures Pow2(1) == 2 && Pow2(2) == 4 && Pow2(3) == 8 && Pow2(4) == 16 && Pow2(5) == 32 && Pow2(6) == 64
    ensures Pow2(7) == 128 && Pow2(8) == 256 && Pow2(9) == 512 && Pow2(15) == 32768
  {
    Pow2Values();
    assert Pow2(9) == 512;
  }

  /** Lengths of 30 symbols whose tables have 592 entries. */
  function WideDists(): (lens: seq<nat>)
    ensures |lens| == 30
  {
    seq(30, i => if i == 0 then 1 else if i == 1 then 2 else if i < 4 then 4 else if i < 17 then 7 else if i < 22 then 8
                 else if i < 29 then i - 13 else 15)
  }

  lemma DistTotals(l: nat)
    requires l <= 15
    ensures Total(WideDists(), l) == if l == 1 || l == 2 then 1 else if l == 4 then 2 else if l == 7 then 13
                                    else if l == 8 then 5 else if 9 <= l <= 14 then 1 else if l == 15 then 2 else 0
  {
    var f := WideDists();
    assert Count(f, l, 0) == 0;
    hide Count;
    F.CountRun(f, l, 0, 1, 1);
    F.CountRun(f, l, 1, 2, 2);
    F.CountRun(f, l, 2, 4, 4);
    F.CountRun(f, l, 4, 17, 7);
    F.CountRun(f, l, 17, 22, 8);
    F.CountRun(f, l, 22, 23, 9);
    F.CountRun(f, l, 23, 24, 10);
    F.CountRun(f, l, 24, 25, 11);
    F.CountRun(f, l, 25, 26, 12);
    F.CountRun(f, l, 26, 27, 13);
    F.CountRun(f, l, 27, 28, 14);
    F.CountRun(f, l, 28, 30, 15);
  }

  lemma DistTops()
    ensures var f := WideDists();
            Top(f, 6) == 56 && Top(f, 7) == 125 && Top(f, 8) == 255 && Top(f, 9) == 511 && Top(f, 10) == 1023 &&
            Top(f, 11) == 2047 && Top(f, 12) == 4095 && Top(f, 13) == 8191 && Top(f, 14) == 16383 && Top(f, 15) == 32768
  {
    hide Total, WideDists;
    var f := WideDists();
    forall l: nat | l <= 15
      ensures Total(f, l) == (if l == 1 || l == 2 then 1 else if l == 4 then 2 else if l == 7 then 13
                              else if l == 8 then 5 else if 9 <= l <= 14 then 1 else if l == 15 then 2 else 0) {
      DistTotals(l);
    }
    assert Top(f, 0) == 0;
    assert Top(f, 1) == 1;
    assert Top(f, 2) == 3;
    assert Top(f, 3) == 6;
    assert Top(f, 4) == 14;
    assert Top(f, 5) == 28;
  }

  /** 592 entries are needed. */
  lemma DistsNeeded()
    ensures Complete(WideDists(), MAX_BITS) && RootFor(WideDists(), 6) == 6 && TableSize(WideDists(), 6) == ENOUGH_DISTS
  {
    hide WideDists, TableSize, RootFor;
    var f := WideDists();
    DistRoot();
    DistTops();
    Powers15();
    hide Top, Pow2;
    CompleteSize(f, 6);
    DistSpare(f);
    DistLonger(f);
  }

  lemma DistRoot()
    ensures Bounded(WideDists(), MAX_BITS) && RootFor(WideDists(), 6) == 6
  {
    hide MinLength, MaxLength;
    var f := WideDists();
    assert f[0] == 1 && f[29] == 15;
    LengthsAre(f, 30, 1, 15);
  }

  lemma DistSpare(f: seq<nat>)
    requires Top(f, 7) == 125 && Top(f, 8) == 255 && Top(f, 9) == 511 && Top(f, 10) == 1023 && Top(f, 11) == 2047
    requires Top(f, 12) == 4095 && Top(f, 13) == 8191 && Top(f, 14) == 16383
    ensures Spare(f, 6, 8) == 502
  {
    Powers15();
    hide Top, Pow2;
    assert Spare(f, 6, 0) == 0;
    assert Spare(f, 6, 1) == 1;
    assert Spare(f, 6, 2) == 4;
    assert Spare(f, 6, 3) == 11;
    assert Spare(f, 6, 4) == 26;
    assert Spare(f, 6, 5) == 57;
    assert Spare(f, 6, 6) == 120;
    assert Spare(f, 6, 7) == 247;
  }

  lemma DistLonger(f: seq<nat>)
    requires f == WideDists()
    ensures Longer(f, 6, 9) == 26
  {
    hide Total, WideDists;
    forall l: nat | 7 <= l <= 15
      ensures Total(f, l) == (if l == 7 then 13 else if l == 8 then 5 else if l == 15 then 2 else 1) {
      DistTotals(l);
    }
    assert Longer(f, 6, 0) == 0;
    assert Longer(f, 6, 1) == 13;
    assert Longer(f, 6, 2) == 18;
    assert Longer(f, 6, 3) == 19;
    assert Longer(f, 6, 4) == 20;
    assert Longer(f, 6, 5) == 21;
    assert Longer(f, 6, 6) == 22;
    assert Longer(f, 6, 7) == 23;
    assert Longer(f, 6, 8) == 24;
  }
}
