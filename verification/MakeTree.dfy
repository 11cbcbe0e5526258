/**
  trees.c: gen_bitlen and build_tree as a whole.  The lengths form a complete code within the limit,
  are optimal among all prefix codes unless the limit interfered, and the bit counts are exact.
*/
module MakeTree {
  import opened Bits
  import opened Huffman
  import opened Ranks
  import opened Heap
  import opened BuildTree
  import opened GenBitlen
  import opened LimitLengths
  import opened Rarer
  import C = Canonical
  import G = GenCodes
  import L = CodeLengths

  // ------------------------------------------------------------------ optimality among prefix codes

  /** Bit strings for the nodes `r`, none of them a prefix of another. */
  ghost predicate PrefixCode(r: set<nat>, code: seq<seq<bool>>)
  {
    (forall i :: i in r ==> i < |code|) && forall i, j :: i in r && j in r && i != j ==> !(code[i] <= code[j])
  }

  ghost function LengthsOf(code: seq<seq<bool>>): (len: seq<int>)
    ensures |len| == |code| && forall i :: 0 <= i < |code| ==> len[i] == |code[i]|
  {
    seq(|code|, i requires 0 <= i < |code| => |code[i]|)
  }

  ghost function StartsWith(r: set<nat>, code: seq<seq<bool>>, b: bool): (q: set<nat>)
  {
    set i | i in r && i < |code| && code[i] != [] && code[i][0] == b
  }

  ghost function Rest(code: seq<seq<bool>>): (q: seq<seq<bool>>)
    ensures |q| == |code| && forall i :: 0 <= i < |code| ==> q[i] == if code[i] == [] then [] else code[i][1..]
  {
    seq(|code|, i requires 0 <= i < |code| => if code[i] == [] then [] else code[i][1..])
  }

  lemma {:induction false} SumUnion(a: set<nat>, b: set<nat>, g: seq<int>, n: nat)
    requires n <= |g| && a !! b
    ensures Sum(a + b, g, n) == Sum(a, g, n) + Sum(b, g, n)
  {
    if n > 0 { SumUnion(a, b, g, n - 1); }
  }

  lemma HalfCode(r: set<nat>, code: seq<seq<bool>>, b: bool, m: nat)
    requires PrefixCode(r, code) && m >= 1 && forall i :: i in r ==> |code[i]| <= m
    ensures var q := StartsWith(r, code, b);
            PrefixCode(q, Rest(code)) && (forall i :: i in q ==> |Rest(code)[i]| <= m - 1) &&
            Total(q, Shares(LengthsOf(Rest(code)), m - 1)) == Total(q, Shares(LengthsOf(code), m))
  {
    var q, rest := StartsWith(r, code, b), Rest(code);
    forall i, j | i in q && j in q && i != j ensures !(rest[i] <= rest[j]) {
      assert code[i] == [b] + rest[i] && code[j] == [b] + rest[j];
    }
    SumSame(q, Shares(LengthsOf(rest), m - 1), Shares(LengthsOf(code), m), |code|);
  }

  /** The Kraft inequality: the lengths of every prefix code are feasible. */
  lemma {:induction false} Kraft(r: set<nat>, code: seq<seq<bool>>, m: nat)
    requires PrefixCode(r, code) && forall i :: i in r ==> |code[i]| <= m
    ensures Feasible(r, LengthsOf(code), m)
    decreases m
  {
    hide Sum, Share, Pow2, StartsWith;
    var g := Shares(LengthsOf(code), m);
    if exists x :: x in r && code[x] == [] {
      KraftOne(r, code, m);
    } else if m == 0 {
      assert r == {};
      SumEmpty(g, |code|);
    } else {
      var p, q := StartsWith(r, code, false), StartsWith(r, code, true);
      HalfCode(r, code, false, m);
      HalfCode(r, code, true, m);
      Kraft(p, Rest(code), m - 1);
      Kraft(q, Rest(code), m - 1);
      TwoHalves(r, code);
      SumUnion(p, q, g, |code|);
      assert Pow2(m) == 2 * Pow2(m - 1) by { PowHalf(m); }
    }
  }

  lemma PowHalf(m: nat)
    requires m >= 1
    ensures Pow2(m) == 2 * Pow2(m - 1)
  {
  }

  lemma TwoHalves(r: set<nat>, code: seq<seq<bool>>)
    requires PrefixCode(r, code) && forall i :: i in r ==> code[i] != []
    ensures StartsWith(r, code, false) + StartsWith(r, code, true) == r
    ensures StartsWith(r, code, false) !! StartsWith(r, code, true)
  {
  }

  /** A prefix code that uses the empty string has only one member. */
  lemma KraftOne(r: set<nat>, code: seq<seq<bool>>, m: nat)
    requires PrefixCode(r, code) && exists x :: x in r && code[x] == []
    ensures Feasible(r, LengthsOf(code), m)
  {
    var x: nat :| x in r && code[x] == [];
    forall y | y in r ensures y == x { assert code[x] <= code[y]; }
    assert r == {x};
    SumSingle(x, Shares(LengthsOf(code), m), |code|);
  }

  /** Optimal lengths are optimal among all prefix codes. */
  lemma OptimalForCodes(leaves: set<nat>, freq: seq<int>, len: seq<int>, code: seq<seq<bool>>, m: nat)
    requires |freq| == |len| == |code| && Optimal(leaves, freq, len)
    requires PrefixCode(leaves, code) && forall i :: i in leaves ==> |code[i]| <= m
    ensures Cost(leaves, freq, len) <= Cost(leaves, freq, LengthsOf(code))
  {
    hide Cost;
    Kraft(leaves, code, m);
  }

  // ------------------------------------------------------------------ gen_bitlen

  /** What the first pass leaves behind. */
  ghost predicate Passed1(elems: nat, leaves: set<nat>, ms: seq<Merge>, dl: seq<nat>, f: seq<nat>, max: nat, over: nat)
  {
    |f| == |dl| && |ms| >= 1 && Numbered(elems, leaves, ms) && Greedy(leaves, ms, f) && Depths(ms, dl, max) &&
    Roots(leaves, ms) == {ms[|ms| - 1].node} && ms[|ms| - 1].node < |dl| && dl[ms[|ms| - 1].node] == 0 &&
    over == 2 * Excess(ms, dl, max)
  }

  lemma FirstDone(order: seq<nat>, f: seq<nat>, dl0: seq<nat>, elems: nat, leaves: set<nat>, ms: seq<Merge>,
                  dl: seq<nat>, d: Desc, bl: seq<nat>, over: nat, opt: int, stat: int)
    requires Built(order, f, dl0, elems, leaves, ms) && |dl| == |dl0| == |f|
    requires Visiting(elems, leaves, ms, dl, f, d, -1, false, bl, over, opt, stat)
    ensures Passed1(elems, leaves, ms, dl, f, d.maxLength, over) && Stats(leaves, dl, f, d, bl, opt, stat)
  {
    hide Stats, Greedy, Dads, Listed, Excess, Over, TreeShape, DoneLeaves;
    BuiltShape(order, f, dl0, elems, leaves, ms);
    DoneEnds(order, f, dl0, elems, leaves, ms);
    PassDone(elems, ms, dl, d.maxLength);
    ExcessIsOver(ms, dl, d.maxLength);
  }

  lemma ExcessIsOver(ms: seq<Merge>, dl: seq<nat>, max: nat)
    requires forall j :: 0 <= j < |ms| ==> ms[j].node < |dl|
    ensures Over(ms, dl, max, 0) == Excess(ms, dl, max)
  {
    OverIsExcess(ms, dl, max, 0);
    assert ms[..0] == [];
    assert Excess([], dl, max) == 0;
  }

  /** Without overflow the lengths are optimal. */
  lemma FirstOptimal(elems: nat, leaves: set<nat>, ms: seq<Merge>, dl: seq<nat>, f: seq<nat>, max: nat)
    requires Passed1(elems, leaves, ms, dl, f, max, 0)
    ensures Optimal(leaves, f, dl)
  {
    hide Greedy, Excess, Cost, Feasible, Sum, Roots;
    NoExcess(ms, dl, max);
    forall other: seq<int>, m: nat | |other| == |f| && Feasible(leaves, other, m)
      ensures Cost(leaves, f, dl) <= Cost(leaves, f, other)
    {
      LowerBound(leaves, ms, f, other, m);
      CostIsInnerWeight(leaves, ms, f, dl);
      var root := ms[|ms| - 1].node;
      SumSingle(root, Weights(f, dl), |dl|);
      assert f[root] * 0 == 0;
    }
  }

  lemma FirstLengths(elems: nat, leaves: set<nat>, ms: seq<Merge>, dl: seq<nat>, f: seq<nat>, max: nat, over: nat)
    requires Passed1(elems, leaves, ms, dl, f, max, over) && max >= 1
    ensures LeafLengths(leaves, dl, max)
  {
    hide Greedy, Excess;
    forall x | x in leaves ensures x < |dl| && 1 <= dl[x] <= max {
      LeafAccounted(leaves, ms, x);
      var j :| 0 <= j < |ms| && ChildOf(x, ms[j]);
    }
  }

  lemma FirstKraft(elems: nat, leaves: set<nat>, ms: seq<Merge>, dl: seq<nat>, f: seq<nat>, max: nat, over: nat)
    requires Passed1(elems, leaves, ms, dl, f, max, over) && max >= 1
    ensures Total(leaves, Shares(dl, max)) == Pow2(max) + over / 2
    ensures over >= 2 ==> Total(leaves, AtLength(dl, max)) >= over / 2 + 1
  {
    hide Greedy, Excess, Sum, Depths, Numbered, Pow2, Share;
    var root := ms[|ms| - 1].node;
    KraftExcess(leaves, ms, f, dl, max);
    SumSingle(root, Shares(dl, max), |dl|);
    ShareZero(max);
    if over >= 2 { EnoughAtLimit(elems, leaves, ms, f, dl, max, root); }
  }

  lemma FirstCounts(elems: nat, leaves: set<nat>, ms: seq<Merge>, dl: seq<nat>, f: seq<nat>, d: Desc, bl: seq<nat>,
                    over: nat, opt: int, stat: int)
    requires Passed1(elems, leaves, ms, dl, f, d.maxLength, over) && 1 <= d.maxLength <= C.MAX_BITS
    requires Stats(leaves, dl, f, d, bl, opt, stat)
    ensures Counts(bl, d.maxLength, Total(leaves, Ones(|dl|)), Pow2(d.maxLength) + over / 2)
    ensures Total(leaves, Ones(|dl|)) <= elems && over % 2 == 0
    ensures over >= 2 ==> bl[d.maxLength] >= over / 2 + 1
    ensures Limited(leaves, dl, f, d, bl, opt)
  {
    hide Greedy, Depths, Roots, Excess, Sum, KraftOf, SizeOf;
    var max := d.maxLength;
    FirstLengths(elems, leaves, ms, dl, f, max, over);
    FirstKraft(elems, leaves, ms, dl, f, max, over);
    KraftByLength(leaves, dl, bl, max, max);
    SizeOfLeaves(leaves, dl, bl, max, elems);
    forall l | 0 <= l <= C.MAX_BITS && (l == 0 || l > max) ensures bl[l] == 0 {
      SumZero(leaves, AtLength(dl, l), |dl|);
    }
  }

  /** gen_bitlen. */
  method GenLengths(order: seq<nat>, dl: array<nat>, fc: array<nat>, maxCode: nat, d: Desc,
                    ghost elems: nat, ghost leaves: set<nat>, ghost ms: seq<Merge>)
    returns (bl: seq<int>, over: nat, opt: int, stat: int)
    requires fc != dl && fc.Length == dl.Length && 1 <= d.maxLength <= C.MAX_BITS && elems <= Pow2(d.maxLength)
    requires Built(order, fc[..], dl[..], elems, leaves, ms)
    requires maxCode < elems && forall x :: x in leaves ==> x <= maxCode
    modifies dl
    ensures Limited(leaves, dl[..], fc[..], d, bl, opt)
    ensures Counts(bl, d.maxLength, Total(leaves, Ones(dl.Length)), Pow2(d.maxLength))
    ensures stat == Total(leaves, CostSeq(fc[..], StaticLens(d, dl.Length), d.extra, d.base))
    ensures (over == 0 <==> Shallow(leaves, ms, d.maxLength)) && (over == 0 ==> Optimal(leaves, fc[..], dl[..])) &&
            Feasible(leaves, dl[..], d.maxLength)
    ensures |ms| == 1 ==> forall x :: x in leaves && x < dl.Length ==> dl[x] == 1
    ensures RareLong(leaves, fc[..], dl[..])
    ensures forall i :: 0 <= i < dl.Length && i < elems && i !in leaves ==> dl[i] == old(dl[i])
  {
    hide Built, Visiting, Passed1, Counts, Limited, NodeList, Total, Optimal, Feasible, Stats, OnlyLeaves, Pow2,
         RareLong,
         InStep;
    ghost var f, s0 := fc[..], dl[..];
    bl, over, opt, stat := FirstPass(order, dl, fc, maxCode, d, elems, leaves, ms);
    ghost var s1 := dl[..];
    FirstDone(order, f, s0, elems, leaves, ms, s1, d, bl, over, opt, stat);
    FirstCounts(elems, leaves, ms, s1, f, d, bl, over, opt, stat);
    StatsParts(leaves, s1, f, d, bl, opt, stat);
    OverIffDeep(elems, leaves, ms, s1, f, d.maxLength, over);
    if |ms| == 1 { TwoLeaves(elems, leaves, ms, s1, f, d.maxLength, over); }
    if over == 0 {
      FirstOptimal(elems, leaves, ms, s1, f, d.maxLength);
      LimitedFeasible(leaves, s1, f, d, bl, opt, Total(leaves, Ones(dl.Length)));
      OptimalIsRareLong(leaves, f, s1, d.maxLength);
      return;
    }
    bl := LimitCounts(bl, d.maxLength, over, Total(leaves, Ones(dl.Length)));
    BuiltList(order, f, s0, elems, leaves, ms, maxCode);
    opt := HandOut(order, dl, fc, maxCode, d, bl, opt, leaves, Total(leaves, Ones(dl.Length)));
    OnlyLeavesAt(leaves, s1, dl[..]);
    InStepIsRareLong(order, leaves, maxCode, f, s0, dl[..], elems, ms);
    LimitedFeasible(leaves, dl[..], f, d, bl, opt, Total(leaves, Ones(dl.Length)));
  }

  lemma LimitedFeasible(leaves: set<nat>, dl: seq<nat>, f: seq<nat>, d: Desc, bl: seq<int>, opt: int, size: int)
    requires Limited(leaves, dl, f, d, bl, opt) && Counts(bl, d.maxLength, size, Pow2(d.maxLength))
    ensures Feasible(leaves, dl, d.maxLength)
  {
    hide KraftOf, SizeOf, Sum, Pow2;
    KraftByLength(leaves, dl, bl, d.maxLength, d.maxLength);
  }

  lemma OverIffDeep(elems: nat, leaves: set<nat>, ms: seq<Merge>, dl: seq<nat>, f: seq<nat>, max: nat, over: nat)
    requires Passed1(elems, leaves, ms, dl, f, max, over)
    ensures over == 0 <==> Shallow(leaves, ms, max)
  {
    hide Greedy, Excess, Shallow, Depths, Roots, Numbered;
    CutIffDeep(elems, leaves, ms, f, dl, max);
  }

  lemma OnlyLeavesAt(leaves: set<nat>, a: seq<nat>, b: seq<nat>)
    requires OnlyLeaves(leaves, a, b)
    ensures |a| == |b| && forall i :: 0 <= i < |a| && i !in leaves ==> b[i] == a[i]
  {
  }

  lemma StatsParts(leaves: set<nat>, dl: seq<nat>, f: seq<nat>, d: Desc, bl: seq<nat>, opt: int, stat: int)
    requires Stats(leaves, dl, f, d, bl, opt, stat)
    ensures |f| == |dl| && opt == Total(leaves, CostSeq(f, dl, d.extra, d.base))
    ensures stat == Total(leaves, CostSeq(f, StaticLens(d, |dl|), d.extra, d.base))
  {
  }

  /** Two symbols get one bit each, and nothing is cut. */
  lemma TwoLeaves(elems: nat, leaves: set<nat>, ms: seq<Merge>, dl: seq<nat>, f: seq<nat>, max: nat, over: nat)
    requires Passed1(elems, leaves, ms, dl, f, max, over) && |ms| == 1 && max >= 1
    ensures over == 0 && forall x :: x in leaves ==> x < |dl| && dl[x] == 1
  {
    assert ms[..0] == [];
    assert Excess([], dl, max) == 0;
    assert Excess(ms, dl, max) == 0;
    forall x | x in leaves ensures x < |dl| && dl[x] == 1 {
      LeafAccounted(leaves, ms, x);
      var j :| 0 <= j < |ms| && ChildOf(x, ms[j]);
    }
  }

  // ------------------------------------------------------------------ build_tree

  /** Counting symbols and adding over leaves agree. */
  lemma {:induction false} CountIsSum(leaves: set<nat>, dl: seq<nat>, lens: seq<nat>, l: nat, n: nat)
    requires l >= 1 && n <= |lens| <= |dl| &&
             forall i :: 0 <= i < |lens| ==> lens[i] == dl[i] && (i in leaves <==> dl[i] >= 1)
    ensures C.Count(lens, l, n) == Sum(leaves, AtLength(dl, l), n)
  {
    if n > 0 { CountIsSum(leaves, dl, lens, l, n - 1); }
  }

  lemma {:induction false} SumBeyond(r: set<nat>, g: seq<int>, k: nat, n: nat)
    requires k <= n <= |g| && forall x :: x in r ==> x < k
    ensures Sum(r, g, n) == Sum(r, g, k)
    decreases n
  {
    if n > k { SumBeyond(r, g, k, n - 1); }
  }

  lemma {:induction false} TopIsKraft(lens: seq<nat>, bl: seq<int>, l: nat)
    requires l < |bl| && forall i :: 1 <= i <= l ==> bl[i] == C.Total(lens, i)
    ensures C.Top(lens, l) == KraftOf(bl, l)
    decreases l
  {
    if l > 0 { TopIsKraft(lens, bl, l - 1); }
  }

  /** The lengths of the symbols 0..maxCode, with exactly the leaves used. */
  ghost predicate LensOf(leaves: set<nat>, dl: seq<nat>, maxCode: nat, lens: seq<nat>)
  {
    maxCode < |dl| && lens == dl[..maxCode + 1] && (forall x :: x in leaves ==> x <= maxCode) &&
    forall i :: 0 <= i <= maxCode ==> (i in leaves <==> dl[i] >= 1)
  }

  /** The lengths form a complete code with the counts `bl`. */
  lemma LimitedIsComplete(leaves: set<nat>, dl: seq<nat>, f: seq<nat>, d: Desc, bl: seq<int>, opt: int, size: int,
                          maxCode: nat, lens: seq<nat>)
    requires Limited(leaves, dl, f, d, bl, opt) && Counts(bl, d.maxLength, size, Pow2(d.maxLength)) &&
             LensOf(leaves, dl, maxCode, lens)
    ensures C.Complete(lens, d.maxLength) && G.LengthCounts(lens, bl) && C.Bounded(lens, C.MAX_BITS)
  {
    hide KraftOf, SizeOf, Pow2, Sum;
    forall l | 1 <= l <= C.MAX_BITS ensures bl[l] == C.Total(lens, l) {
      CountIsSum(leaves, dl, lens, l, |lens|);
      SumBeyond(leaves, AtLength(dl, l), maxCode + 1, |dl|);
    }
    TopIsKraft(lens, bl, d.maxLength);
  }

  /** Taking the forced symbols out of a sum. */
  lemma {:induction false} SumForced(f0: seq<nat>, f: seq<nat>, forced: seq<nat>, elems: nat, g0: seq<int>, g: seq<int>)
    requires Forcing(f0, f, forced) && elems <= |f| == |g| == |g0| &&
             forall i :: 0 <= i < |forced| ==> forced[i] < elems
    requires forall i :: 0 <= i < elems && f0[i] != 0 ==> g0[i] == g[i]
    ensures Total(Leaves(f, elems), g) == Total(Leaves(f0, elems), g0) + SumAt(g, forced)
  {
    var a, b := Leaves(f0, elems), Members(forced);
    forall x ensures x in Leaves(f, elems) <==> x in a + b { }
    assert Leaves(f, elems) == a + b;
    SumUnion(a, b, g, |g|);
    SumSame(a, g0, g, |g|);
    SumOfList(forced, g);
  }

  ghost function Members(xs: seq<nat>): (s: set<nat>) { set x | x in xs }

  ghost function SumAt(g: seq<int>, xs: seq<nat>): (s: int)
    requires forall i :: 0 <= i < |xs| ==> xs[i] < |g|
  {
    if xs == [] then 0 else g[xs[|xs| - 1]] + SumAt(g, xs[..|xs| - 1])
  }

  lemma {:induction false} SumOfList(xs: seq<nat>, g: seq<int>)
    requires (forall i :: 0 <= i < |xs| ==> xs[i] < |g|) && forall i, j :: 0 <= i < j < |xs| ==> xs[i] != xs[j]
    ensures Total(Members(xs), g) == SumAt(g, xs)
    decreases |xs|
  {
    if xs == [] {
      assert Members(xs) == {};
      SumEmpty(g, |g|);
    } else {
      var n := |xs| - 1;
      var a, b := Members(xs), Members(xs[..n]);
      assert xs == xs[..n] + [xs[n]];
      assert a == b + {xs[n]};
      SumOfList(xs[..n], g);
      SumAdd(b, xs[n], g, |g|);
    }
  }

  lemma {:induction false} SumAtIs(g: seq<int>, stree: seq<nat>, xs: seq<nat>)
    requires (forall i :: 0 <= i < |xs| ==> xs[i] < |g| && xs[i] < |stree| && g[xs[i]] == stree[xs[i]])
    ensures SumAt(g, xs) == StaticOf(stree, xs)
    decreases |xs|
  {
    if xs != [] { SumAtIs(g, stree, xs[..|xs| - 1]); }
  }

  lemma {:induction false} SumAtConst(g: seq<int>, xs: seq<nat>, v: int)
    requires forall i :: 0 <= i < |xs| ==> xs[i] < |g| && g[xs[i]] == v
    ensures SumAt(g, xs) == v * |xs|
    decreases |xs|
  {
    if xs != [] {
      SumAtConst(g, xs[..|xs| - 1], v);
      assert v * |xs| == v * (|xs| - 1) + v;
    }
  }

  /** Bits spent on the first `n` symbols when symbol `i` occurs `f[i]` times and has a code of `lens[i]` bits. */
  function Bill(f: seq<nat>, lens: seq<nat>, extra: seq<nat>, base: nat, n: nat): (b: int)
    requires n <= |f| && n <= |lens|
  {
    if n == 0 then 0 else Bill(f, lens, extra, base, n - 1) + f[n - 1] * (lens[n - 1] + XBits(extra, base, n - 1))
  }

  lemma {:induction false} BillFrame(f: seq<nat>, lens: seq<nat>, lens': seq<nat>, extra: seq<nat>, base: nat, n: nat)
    requires n <= |f| && n <= |lens| && n <= |lens'| && forall i :: 0 <= i < n ==> lens[i] == lens'[i]
    ensures Bill(f, lens, extra, base, n) == Bill(f, lens', extra, base, n)
  {
    if n > 0 { BillFrame(f, lens, lens', extra, base, n - 1); }
  }

  lemma {:induction false} BillIsSum(f: seq<nat>, dl: seq<nat>, extra: seq<nat>, base: nat, elems: nat, n: nat)
    requires n <= elems <= |f| == |dl|
    ensures Bill(f, dl, extra, base, n) == Sum(Leaves(f, elems), CostSeq(f, dl, extra, base), n)
  {
    if n > 0 {
      BillIsSum(f, dl, extra, base, elems, n - 1);
      if f[n - 1] == 0 { assert 0 * (dl[n - 1] + XBits(extra, base, n - 1)) == 0; }
    }
  }

  lemma BillIsTotal(f: seq<nat>, dl: seq<nat>, extra: seq<nat>, base: nat, elems: nat)
    requires elems <= |f| == |dl|
    ensures Bill(f, dl, extra, base, elems) == Total(Leaves(f, elems), CostSeq(f, dl, extra, base))
  {
    BillIsSum(f, dl, extra, base, elems, elems);
    SumBeyond(Leaves(f, elems), CostSeq(f, dl, extra, base), elems, |f|);
  }

  /** Frequencies above the symbols do not matter for the cost. */
  lemma CostFrame(leaves: set<nat>, f: seq<nat>, g: seq<nat>, dl: seq<nat>, extra: seq<nat>, base: nat, elems: nat)
    requires elems <= |f| == |g| == |dl| && (forall x :: x in leaves ==> x < elems) &&
             forall i :: 0 <= i < elems ==> f[i] == g[i]
    ensures Total(leaves, CostSeq(f, dl, extra, base)) == Total(leaves, CostSeq(g, dl, extra, base))
  {
    hide XBits;
    SumSame(leaves, CostSeq(f, dl, extra, base), CostSeq(g, dl, extra, base), |dl|);
  }

  lemma OptimalFrame(leaves: set<nat>, f: seq<int>, g: seq<int>, len: seq<int>, elems: nat)
    requires elems <= |f| == |g| == |len| && (forall x :: x in leaves ==> x < elems) &&
             forall i :: 0 <= i < elems ==> f[i] == g[i]
    requires Optimal(leaves, f, len)
    ensures Optimal(leaves, g, len)
  {
    hide Feasible, Cost;
    SameCost(leaves, f, g, len, elems);
    forall other: seq<int>, m: nat | |other| == |g| && Feasible(leaves, other, m)
      ensures Cost(leaves, g, len) <= Cost(leaves, g, other)
    {
      SameCost(leaves, f, g, other, elems);
    }
  }

  lemma SameCost(leaves: set<nat>, f: seq<int>, g: seq<int>, len: seq<int>, elems: nat)
    requires elems <= |f| == |g| == |len| && (forall x :: x in leaves ==> x < elems) &&
             forall i :: 0 <= i < elems ==> f[i] == g[i]
    ensures Cost(leaves, f, len) == Cost(leaves, g, len)
  {
    SumSame(leaves, Weights(f, len), Weights(g, len), |len|);
  }

  /** With forced symbols of one bit each the correction makes the bill that of the real symbols. */
  lemma ForcedBill(f0: seq<nat>, f: seq<nat>, forced: seq<nat>, dl: seq<nat>, extra: seq<nat>, base: nat, elems: nat)
    requires Forcing(f0, f, forced) && 3 <= elems <= |f| == |dl|
    requires forall i :: 0 <= i < 3 ==> XBits(extra, base, i) == 0
    ensures forall i :: 0 <= i < |forced| ==> forced[i] < |dl|
    ensures Total(Leaves(f, elems), CostSeq(f, dl, extra, base))
         == Bill(f0, dl, extra, base, elems) + SumAt(dl, forced)
  {
    hide XBits;
    var g0, g := CostSeq(f0, dl, extra, base), CostSeq(f, dl, extra, base);
    SumForced(f0, f, forced, elems, g0, g);
    BillIsTotal(f0, dl, extra, base, elems);
    SumAtSame(g, dl, forced);
  }

  lemma {:induction false} SumAtSame(g: seq<int>, h: seq<int>, xs: seq<nat>)
    requires forall i :: 0 <= i < |xs| ==> xs[i] < |g| && xs[i] < |h| && g[xs[i]] == h[xs[i]]
    ensures SumAt(g, xs) == SumAt(h, xs)
    decreases |xs|
  {
    if xs != [] { SumAtSame(g, h, xs[..|xs| - 1]); }
  }

  /** The frequencies are small enough for the 16-bit fields, with two forced symbols. */
  ghost predicate Light(f: seq<nat>, elems: nat)
  {
    elems <= |f| && Total(Leaves(f, elems), f) <= 0xffff - 2
  }

  lemma StillLight(f0: seq<nat>, f: seq<nat>, forced: seq<nat>, elems: nat)
    requires Light(f0, elems) && 3 <= elems && Forcing(f0, f, forced) && |forced| <= 2
    ensures Total(Leaves(f, elems), f) <= 0xffff
  {
    hide Sum;
    SumForced(f0, f, forced, elems, f0, f);
    SumAtConst(f, forced, 1);
  }

  /** Lengths for the frequencies `f0`: a complete code that has every symbol in use, and the bits it takes. */
  ghost predicate TreeSized(f0: seq<nat>, elems: nat, d: Desc, dl: seq<nat>, maxCode: nat, opt: int, stat: int)
  {
    elems <= |f0| && elems <= |dl| && maxCode < elems && dl[maxCode] >= 1 &&
    C.Complete(dl[..maxCode + 1], d.maxLength) &&
    (forall i :: 0 <= i < elems && f0[i] != 0 ==> i <= maxCode && dl[i] >= 1) &&
    (forall i :: maxCode < i < elems ==> dl[i] == 0) &&
    opt == Bill(f0, dl, d.extra, d.base, elems) &&
    (d.stree != [] ==> |d.stree| >= elems && stat == Bill(f0, d.stree, d.extra, d.base, elems)) &&
    (d.stree == [] ==> stat == 0)
  }

  /** A finished tree: the lengths, and the canonical codes for them. */
  ghost predicate TreeDone(f0: seq<nat>, elems: nat, d: Desc, dl: seq<nat>, fc: seq<nat>, maxCode: nat, opt: int,
                           stat: int)
  {
    TreeSized(f0, elems, d, dl, maxCode, opt, stat) && |fc| == |dl| && L.AllCoded(dl[..maxCode + 1], fc[..maxCode + 1])
  }

  ghost predicate ValidDesc(d: Desc, elems: nat)
  {
    3 <= elems <= 286 && 1 <= d.maxLength <= C.MAX_BITS && elems <= Pow2(d.maxLength) &&
    (d.stree != [] ==> |d.stree| >= elems) && forall i :: 0 <= i < 3 ==> XBits(d.extra, d.base, i) == 0
  }

  /** The corrected bit counts are exact. */
  lemma ExactOpt(f0: seq<nat>, f: seq<nat>, forced: seq<nat>, dl: seq<nat>, d: Desc, elems: nat)
    requires Forcing(f0, f, forced) && elems <= |f| == |dl| && ValidDesc(d, elems)
    requires forced != [] ==> forall i :: 0 <= i < |forced| ==> forced[i] < |dl| && dl[forced[i]] == 1
    ensures Total(Leaves(f, elems), CostSeq(f, dl, d.extra, d.base)) - |forced| == Bill(f0, dl, d.extra, d.base, elems)
  {
    ForcedBill(f0, f, forced, dl, d.extra, d.base, elems);
    SumAtConst(dl, forced, 1);
  }

  lemma ExactStatic(f0: seq<nat>, f: seq<nat>, forced: seq<nat>, d: Desc, elems: nat)
    requires Forcing(f0, f, forced) && elems <= |f| && ValidDesc(d, elems) && d.stree != []
    ensures forall i :: 0 <= i < |forced| ==> forced[i] < |d.stree|
    ensures Total(Leaves(f, elems), CostSeq(f, StaticLens(d, |f|), d.extra, d.base)) - StaticOf(d.stree, forced)
         == Bill(f0, d.stree, d.extra, d.base, elems)
  {
    hide XBits;
    var s := StaticLens(d, |f|);
    ForcedBill(f0, f, forced, s, d.extra, d.base, elems);
    SumAtIs(s, d.stree, forced);
    BillFrame(f0, s, d.stree, d.extra, d.base, elems);
  }

  lemma FinishedLens(leaves: set<nat>, dl: seq<nat>, d: Desc, maxCode: nat, f1: seq<nat>, elems: nat)
    requires elems <= |f1| && elems <= |dl| && leaves == Leaves(f1, elems) && LeafLengths(leaves, dl, d.maxLength)
    requires IsMaxCode(f1, elems, maxCode) && forall i :: 0 <= i < elems && f1[i] == 0 ==> dl[i] == 0
    ensures LensOf(leaves, dl, maxCode, dl[..maxCode + 1]) && dl[maxCode] >= 1
    ensures forall i :: 0 <= i < elems && f1[i] != 0 ==> i <= maxCode && dl[i] >= 1
    ensures forall i :: maxCode < i < elems ==> dl[i] == 0
  {
  }

  lemma DescFacts(d: Desc, elems: nat)
    requires ValidDesc(d, elems)
    ensures 3 <= elems <= 286 && 1 <= d.maxLength <= C.MAX_BITS && elems <= Pow2(d.maxLength) &&
            (d.stree != [] ==> |d.stree| >= elems)
  {
  }

  lemma Collected(h: seq<nat>, len: nat, f: seq<nat>, depth: seq<nat>, elems: nat)
    requires elems <= |f| && elems <= |depth| && Ascending(h, len) && Elems(h, len) == Leaves(f, elems)
    ensures HeapHolds(h, len, f, depth, elems)
  {
    AscendingNodes(h, len, f, depth, elems);
  }

  lemma {:induction false} ElemsSize(h: seq<nat>, len: nat, f: seq<nat>, d: seq<nat>)
    requires Nodes(h, len, f, d)
    ensures |Elems(h, len)| == len
    decreases len
  {
    if len > 0 {
      ElemsSize(h, len - 1, f, d);
      assert Elems(h, len) == Elems(h, len - 1) + {h[len]};
    } else {
      assert Elems(h, 0) == {};
    }
  }

  lemma HeapSize(h: seq<nat>, len: nat, f: seq<nat>, d: seq<nat>, elems: nat)
    requires HeapHolds(h, len, f, d, elems)
    ensures |Leaves(f, elems)| == len
  {
    ElemsSize(h, len, f, d);
  }

  lemma ZeroKept(f0: seq<nat>, f: seq<nat>, forced: seq<nat>, dl: seq<nat>, elems: nat)
    requires Forcing(f0, f, forced) && elems <= |f| && elems <= |dl| &&
             forall i :: 0 <= i < elems && f0[i] == 0 ==> dl[i] == 0
    ensures forall i :: 0 <= i < elems && f[i] == 0 ==> dl[i] == 0 && i !in Leaves(f, elems)
  {
  }

  lemma MaxIsLargest(f: seq<nat>, elems: nat, maxCode: int)
    requires elems <= |f| && IsMaxCode(f, elems, maxCode)
    ensures forall x :: x in Leaves(f, elems) ==> x <= maxCode && x < elems
  {
  }

  lemma Finishing(f0: seq<nat>, f: seq<nat>, forced: seq<nat>, fB: seq<nat>, leaves: set<nat>, dl: seq<nat>, d: Desc,
                  bl: seq<int>, opt: int, stat: int, elems: nat, maxCode: nat, size: int)
    requires Forcing(f0, f, forced) && elems <= |f| == |fB| == |dl| && ValidDesc(d, elems) && leaves == Leaves(f, elems)
    requires forall i :: 0 <= i < elems ==> fB[i] == f[i]
    requires Limited(leaves, dl, fB, d, bl, opt) && Counts(bl, d.maxLength, size, Pow2(d.maxLength))
    requires stat == Total(leaves, CostSeq(fB, StaticLens(d, |dl|), d.extra, d.base))
    requires IsMaxCode(f, elems, maxCode) && forall i :: 0 <= i < elems && f[i] == 0 ==> dl[i] == 0
    requires forced != [] ==> forall x :: x in leaves && x < |dl| ==> dl[x] == 1
    ensures d.stree != [] ==> forall i :: 0 <= i < |forced| ==> forced[i] < |d.stree|
    ensures TreeSized(f0, elems, d, dl, maxCode, opt - |forced|,
                      if d.stree == [] then 0 else stat - StaticOf(d.stree, forced))
    ensures (forall i :: 0 <= i < |bl| ==> bl[i] >= 0) && LeafLengths(leaves, dl, d.maxLength)
    ensures G.LengthCounts(dl[..maxCode + 1], bl) && C.Bounded(dl[..maxCode + 1], C.MAX_BITS)
  {
    hide Total, Pow2, C.Complete, G.LengthCounts, C.Bounded, KraftOf, SizeOf, StaticOf, Bill, XBits, Forcing, Limited,
         Leaves, LensOf, StaticLens, CostSeq;
    DescFacts(d, elems);
    LimitedParts(leaves, dl, fB, d, bl, opt, elems, f);
    var lens := dl[..maxCode + 1];
    FinishedLens(leaves, dl, d, maxCode, f, elems);
    LimitedIsComplete(leaves, dl, fB, d, bl, opt, size, maxCode, lens);
    CostFrame(leaves, fB, f, dl, d.extra, d.base, elems);
    ForcedOnes(f0, f, forced, leaves, dl, elems);
    ExactOpt(f0, f, forced, dl, d, elems);
    if d.stree != [] {
      CostFrame(leaves, fB, f, StaticLens(d, |dl|), d.extra, d.base, elems);
      ExactStatic(f0, f, forced, d, elems);
    }
    UsedStill(f0, f, forced);
  }

  lemma LimitedParts(leaves: set<nat>, dl: seq<nat>, fB: seq<nat>, d: Desc, bl: seq<int>, opt: int, elems: nat,
                     f: seq<nat>)
    requires Limited(leaves, dl, fB, d, bl, opt) && elems <= |f| && leaves == Leaves(f, elems)
    ensures LeafLengths(leaves, dl, d.maxLength) && opt == Total(leaves, CostSeq(fB, dl, d.extra, d.base)) &&
            |bl| == C.MAX_BITS + 1
    ensures forall x :: x in leaves ==> x < elems
  {
  }

  lemma UsedStill(f0: seq<nat>, f: seq<nat>, forced: seq<nat>)
    requires Forcing(f0, f, forced)
    ensures |f| == |f0| && forall i :: 0 <= i < |f0| && f0[i] != 0 ==> f[i] != 0
  {
  }

  lemma ForcedOnes(f0: seq<nat>, f: seq<nat>, forced: seq<nat>, leaves: set<nat>, dl: seq<nat>, elems: nat)
    requires Forcing(f0, f, forced) && 3 <= elems <= |f| == |dl| && leaves == Leaves(f, elems)
    requires forced != [] ==> forall x :: x in leaves && x < |dl| ==> dl[x] == 1
    ensures forall i :: 0 <= i < |forced| ==> forced[i] < |dl| && dl[forced[i]] == 1
  {
    forall i | 0 <= i < |forced| ensures forced[i] < |dl| && dl[forced[i]] == 1 {
      assert forced[i] in leaves;
    }
  }

  /** How many symbols are forced: as many as are missing to two. */
  ghost function Missing(f0: seq<nat>, elems: nat): (n: nat)
    requires elems <= |f0|
  {
    var used := |Leaves(f0, elems)|;
    if used >= 2 then 0 else 2 - used
  }

  /** `dl` are lengths for the frequencies `f0`, with symbols forced only below two: those of an optimal prefix code
      whenever any optimal prefix code keeps to the greatest length `max`. */
  ghost predicate HuffmanWith(f0: seq<nat>, elems: nat, max: nat, dl: seq<nat>, f: seq<nat>, forced: seq<nat>)
  {
    elems <= |f| == |dl| && Forcing(f0, f, forced) && |forced| == Missing(f0, elems) &&
    LeafLengths(Leaves(f, elems), dl, max) &&
    RareLong(Leaves(f, elems), f, dl) && (FitsLimit(Leaves(f, elems), f, max) ==> Optimal(Leaves(f, elems), f, dl))
  }

  ghost predicate HuffmanFor(f0: seq<nat>, elems: nat, max: nat, dl: seq<nat>)
  {
    exists f: seq<nat>, forced: seq<nat> :: HuffmanWith(f0, elems, max, dl, f, forced)
  }

  /** With two symbols in use that is optimality for the frequencies themselves. */
  lemma HuffmanOptimal(f0: seq<nat>, elems: nat, max: nat, dl: seq<nat>)
    requires HuffmanFor(f0, elems, max, dl) && elems <= |f0| == |dl| && |Leaves(f0, elems)| >= 2 &&
             FitsLimit(Leaves(f0, elems), f0, max)
    ensures Optimal(Leaves(f0, elems), f0, dl) && LeafLengths(Leaves(f0, elems), dl, max)
  {
    hide FitsLimit, Optimal, Leaves;
    var f: seq<nat>, forced: seq<nat> :| HuffmanWith(f0, elems, max, dl, f, forced);
    assert f == f0;
  }

  /** With two symbols in use the rarer ones have codes at least as long, whatever the limit. */
  lemma RarerIsLonger(f0: seq<nat>, elems: nat, max: nat, dl: seq<nat>)
    requires HuffmanFor(f0, elems, max, dl) && elems <= |f0| == |dl| && |Leaves(f0, elems)| >= 2
    ensures forall x, y :: 0 <= x < elems && 0 <= y < elems && 0 < f0[x] < f0[y] ==> dl[x] >= dl[y]
  {
    hide FitsLimit, Optimal, LeafLengths;
    var f: seq<nat>, forced: seq<nat> :| HuffmanWith(f0, elems, max, dl, f, forced);
    assert f == f0;
  }

  /** Nothing is cut exactly when some optimal code keeps to the limit. */
  lemma ShallowIffFits(order: seq<nat>, f: seq<nat>, fB: seq<nat>, dl0: seq<nat>, h: seq<nat>, dl: seq<nat>, elems: nat,
                       leaves: set<nat>, ms: seq<Merge>, max: nat)
    requires Built(order, fB, dl0, elems, leaves, ms) && elems <= |f| == |fB| == |dl| && leaves == Leaves(f, elems) &&
             forall i :: 0 <= i < elems ==> fB[i] == f[i]
    requires Ranked(leaves, ms, fB, h) && forall i :: elems <= i < elems + |ms| ==> i < |fB| && fB[i] <= 0xffff
    requires Feasible(leaves, dl, max) && (Shallow(leaves, ms, max) ==> Optimal(leaves, fB, dl))
    ensures Shallow(leaves, ms, max) <==> FitsLimit(leaves, f, max)
  {
    hide Greedy, Optimal, Feasible, Ranked, Shallow, Listed, Dads, Roots;
    if Shallow(leaves, ms, max) {
      OptimalFrame(leaves, fB, f, dl, elems);
    }
    if FitsLimit(leaves, f, max) {
      var len: seq<int> :| |len| == |f| && Feasible(leaves, len, max) && Optimal(leaves, f, len);
      OptimalFrame(leaves, f, fB, len, elems);
      FitsIsShallow(elems, leaves, ms, fB, h, max);
    }
  }

  lemma FinishedAll(f0: seq<nat>, elems: nat, d: Desc, dl: seq<nat>, fc: seq<nat>, maxCode: nat, opt: int, stat: int)
    requires TreeSized(f0, elems, d, dl, maxCode, opt, stat) && |fc| == |dl| && C.Bounded(dl[..maxCode + 1], C.MAX_BITS)
    requires forall n :: 0 <= n <= maxCode && dl[n] >= 1 ==> G.Coded(dl[..maxCode + 1], n, fc[n])
    ensures TreeDone(f0, elems, d, dl, fc, maxCode, opt, stat)
  {
    hide G.Coded, C.Complete, Bill;
  }

  lemma SizedComplete(f0: seq<nat>, elems: nat, d: Desc, dl: seq<nat>, maxCode: nat, opt: int, stat: int)
    requires TreeSized(f0, elems, d, dl, maxCode, opt, stat)
    ensures maxCode < elems <= |dl| && C.Fits(dl[..maxCode + 1]) && forall i :: maxCode < i < elems ==> dl[i] == 0
  {
    C.CompleteFits(dl[..maxCode + 1], d.maxLength);
  }

  /** build_tree: `f` are the frequencies with at least two symbols forced. */
  method MakeTree(fc: array<nat>, dl: array<nat>, depth: array<nat>, heap: array<nat>, elems: nat, d: Desc, opt0: int,
                  stat0: int)
    returns (maxCode: nat, opt: int, stat: int, over: nat, ghost f: seq<nat>, ghost forced: seq<nat>)
    requires fc != dl && fc != depth && fc != heap && dl != depth && dl != heap && depth != heap
    requires heap.Length == HEAP_SIZE && fc.Length == dl.Length && 2 * elems <= fc.Length && 2 * elems <= depth.Length
    requires ValidDesc(d, elems) && Light(fc[..], elems)
    modifies fc, dl, depth, heap
    ensures TreeDone(old(fc[..]), elems, d, dl[..], fc[..], maxCode, opt - opt0, stat - stat0)
    ensures HuffmanWith(old(fc[..]), elems, d.maxLength, dl[..], f, forced) && maxCode < elems <= dl.Length
    ensures forall i :: maxCode < i < elems ==> dl[i] == 0
    ensures over == 0 <==> FitsLimit(Leaves(f, elems), f, d.maxLength)
  {
    hide TreeDone, TreeSized, G.LengthCounts, C.Fits, C.Bounded, ValidDesc, Light, Forcing, HeapHolds, IsMaxCode,
         Leaves, Built, Limited, Counts, Optimal, StaticOf, Pow2, Shallow, FitsLimit, Feasible, Ranked,
         RareLong;
    DescFacts(d, elems);
    ghost var f0 := fc[..];
    var heapLen, mc := CollectSymbols(fc, dl, depth, heap, elems);
    Collected(heap[..], heapLen, fc[..], depth[..], elems);
    HeapSize(heap[..], heapLen, fc[..], depth[..], elems);
    heapLen, mc, opt, stat, forced := ForceTwo(fc, depth, heap, elems, d.stree, heapLen, mc, opt0, stat0);
    f := fc[..];
    maxCode := mc;
    ghost var leaves := Leaves(f, elems);
    StillLight(f0, f, forced, elems);
    ZeroKept(f0, f, forced, dl[..], elems);
    ghost var dl1 := dl[..];
    var heapMax, ms := BuildForest(fc, dl, depth, heap, elems, heapLen);
    MaxIsLargest(f, elems, maxCode);
    ghost var fB := fc[..];
    ghost var order, dlB, h := heap[heapMax..], dl[..], depth[..];
    var bl, ov, o, s := GenLengths(heap[heapMax..], dl, fc, maxCode, d, elems, leaves, ms);
    over, opt := ov, opt + o;
    if d.stree != [] { stat := stat + s; }
    Finishing(f0, f, forced, fB, leaves, dl[..], d, bl, o, s, elems, maxCode, Total(leaves, Ones(dl.Length)));
    ShallowIffFits(order, f, fB, dlB, h, dl[..], elems, leaves, ms, d.maxLength);
    if over == 0 { OptimalFrame(leaves, fB, f, dl[..], elems); }
    RareLongFrame(leaves, fB, f, dl[..], elems);
    ghost var sent, fixedSent := o - |forced|, if d.stree == [] then 0 else s - StaticOf(d.stree, forced);
    assert opt - opt0 == sent && stat - stat0 == fixedSent;
    AssignCodes(fc, dl, f0, elems, d, maxCode, bl, sent, fixedSent);
  }

  /** The codes for the lengths. */
  method AssignCodes(fc: array<nat>, dl: array<nat>, ghost f0: seq<nat>, ghost elems: nat, ghost d: Desc, maxCode: nat,
                     bl: seq<nat>, ghost opt: int, ghost stat: int)
    requires fc != dl && fc.Length == dl.Length && TreeSized(f0, elems, d, dl[..], maxCode, opt, stat)
    requires G.LengthCounts(dl[..][..maxCode + 1], bl) && C.Bounded(dl[..][..maxCode + 1], C.MAX_BITS)
    modifies fc
    ensures TreeDone(f0, elems, d, dl[..], fc[..], maxCode, opt, stat) && maxCode < elems &&
            forall i :: maxCode < i < elems ==> dl[i] == 0
  {
    hide TreeSized, G.LengthCounts, C.Fits, C.Bounded;
    SizedComplete(f0, elems, d, dl[..], maxCode, opt, stat);
    assert dl[..maxCode + 1] == dl[..][..maxCode + 1];
    G.GenCodes(fc, dl, maxCode, bl);
    FinishedAll(f0, elems, d, dl[..], fc[..], maxCode, opt, stat);
  }
}
