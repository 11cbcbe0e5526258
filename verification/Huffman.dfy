/**
  Theory of the Huffman construction of trees.c.

  `Merge` records one round of build_tree: two roots get a common father.  `Greedy` says that every
  round took two roots of least frequency.  From the record alone follow the Kraft sum of the depths,
  the cost of the tree, the number of nodes cut off by a length limit, and optimality.
*/
module Huffman {
  import opened Bits

  datatype Merge = Merge(left: nat, right: nat, node: nat)

  // ------------------------------------------------------------------ sums over sets of nodes

  /** Sum of `g[i]` over the nodes `i < n` in `r`. */
  ghost function Sum(r: set<nat>, g: seq<int>, n: nat): (s: int)
    requires n <= |g|
  {
    if n == 0 then 0 else Sum(r, g, n - 1) + (if n - 1 in r then g[n - 1] else 0)
  }

  ghost function Total(r: set<nat>, g: seq<int>): (s: int) { Sum(r, g, |g|) }

  lemma {:induction false} SumAdd(r: set<nat>, x: nat, g: seq<int>, n: nat)
    requires n <= |g| && x !in r
    ensures Sum(r + {x}, g, n) == Sum(r, g, n) + if x < n then g[x] else 0
  {
    if n > 0 { SumAdd(r, x, g, n - 1); }
  }

  /** Replacing two members by a new one. */
  lemma TotalMerge(r: set<nat>, m: Merge, g: seq<int>)
    requires m.left in r && m.right in r && m.left != m.right && m.node !in r
    requires m.left < |g| && m.right < |g| && m.node < |g|
    ensures Total(Merged(r, m), g) == Total(r, g) - g[m.left] - g[m.right] + g[m.node]
  {
    var q := r - {m.left, m.right};
    assert Merged(r, m) == q + {m.node};
    SumAdd(q, m.node, g, |g|);
    SumAdd(q, m.left, g, |g|);
    SumAdd(q + {m.left}, m.right, g, |g|);
    assert q + {m.left} + {m.right} == r;
  }

  ghost function Merged(r: set<nat>, m: Merge): (q: set<nat>)
  {
    r - {m.left, m.right} + {m.node}
  }

  /** Changing one value changes the sum by the difference. */
  lemma {:induction false} SumUpdate(r: set<nat>, g: seq<int>, i: nat, v: int, n: nat)
    requires n <= |g| && i < |g|
    ensures Sum(r, g[i := v], n) == Sum(r, g, n) + if i in r && i < n then v - g[i] else 0
  {
    if n > 0 { SumUpdate(r, g, i, v, n - 1); }
  }

  lemma {:induction false} SumNonNeg(r: set<nat>, g: seq<int>, n: nat)
    requires n <= |g| && forall i :: 0 <= i < |g| && i in r ==> g[i] >= 0
    ensures Sum(r, g, n) >= 0
  {
    if n > 0 { SumNonNeg(r, g, n - 1); }
  }

  lemma {:induction false} SumSame(r: set<nat>, g: seq<int>, h: seq<int>, n: nat)
    requires n <= |g| && n <= |h| && forall i :: 0 <= i < n && i in r ==> g[i] == h[i]
    ensures Sum(r, g, n) == Sum(r, h, n)
  {
    if n > 0 { SumSame(r, g, h, n - 1); }
  }

  lemma {:induction false} SumSingle(x: nat, g: seq<int>, n: nat)
    requires n <= |g| && x < n
    ensures Sum({x}, g, n) == g[x]
  {
    SumAdd({}, x, g, n);
    assert {} + {x} == {x};
    SumEmpty(g, n);
  }

  lemma {:induction false} SumEmpty(g: seq<int>, n: nat)
    requires n <= |g|
    ensures Sum({}, g, n) == 0
  {
    if n > 0 { SumEmpty(g, n - 1); }
  }

  lemma {:induction false} SumDivides(r: set<nat>, g: seq<int>, d: int, n: nat)
    requires n <= |g| && d > 0 && forall i :: 0 <= i < n && i in r ==> g[i] % d == 0
    ensures Sum(r, g, n) % d == 0
  {
    if n > 0 {
      SumDivides(r, g, d, n - 1);
      if n - 1 in r { ModAdd(Sum(r, g, n - 1), g[n - 1], d); }
    }
  }

  lemma ModAdd(a: int, b: int, d: int)
    requires d > 0 && a % d == 0 && b % d == 0
    ensures (a + b) % d == 0
  {
    var p, q := a / d, b / d;
    assert a == d * p && b == d * q;
    MulDistrib(d, p, q);
    DivModUnique(a + b, d, p + q, 0);
  }

  // ------------------------------------------------------------------ merge histories

  /** The roots after the merges `ms`, starting from `leaves`. */
  ghost function Roots(leaves: set<nat>, ms: seq<Merge>): (r: set<nat>)
  {
    if ms == [] then leaves else Merged(Roots(leaves, ms[..|ms| - 1]), ms[|ms| - 1])
  }

  /** One round on the roots `r`: both parts are roots, the father is new, its frequency is the sum. */
  ghost predicate Joins(r: set<nat>, m: Merge, freq: seq<int>)
  {
    m.left in r && m.right in r && m.left != m.right && m.node !in r &&
    m.left < |freq| && m.right < |freq| && m.node < |freq| && freq[m.node] == freq[m.left] + freq[m.right]
  }

  /** No other root has a smaller frequency than the two that were joined. */
  ghost predicate Least(r: set<nat>, m: Merge, freq: seq<int>)
    requires m.left < |freq| && m.right < |freq|
  {
    forall x :: x in r && x < |freq| ==>
                  freq[m.left] <= freq[x] && (x != m.left ==> freq[m.right] <= freq[x])
  }

  ghost predicate Greedy(leaves: set<nat>, ms: seq<Merge>, freq: seq<int>)
  {
    ms == [] ||
    (var n := |ms| - 1;
     Greedy(leaves, ms[..n], freq) && Joins(Roots(leaves, ms[..n]), ms[n], freq) &&
     Least(Roots(leaves, ms[..n]), ms[n], freq))
  }

  /** The same history unfolded from the front. */
  lemma {:induction false} GreedyFront(leaves: set<nat>, ms: seq<Merge>, freq: seq<int>)
    requires Greedy(leaves, ms, freq) && ms != []
    ensures Joins(leaves, ms[0], freq) && Least(leaves, ms[0], freq)
    ensures Greedy(Merged(leaves, ms[0]), ms[1..], freq)
    ensures Roots(leaves, ms) == Roots(Merged(leaves, ms[0]), ms[1..])
    decreases |ms|
  {
    hide Joins, Least, Merged;
    var n := |ms| - 1;
    var init := ms[..n];
    if n == 0 {
      assert init == [];
      assert ms[1..] == [];
      assert Roots(leaves, init) == leaves;
    } else {
      GreedyFront(leaves, init, freq);
      var t := ms[1..];
      assert t[..|t| - 1] == init[1..] && t[|t| - 1] == ms[n];
    }
  }

  /** Total frequency of the inner nodes created by `ms`: the cost of the tree. */
  ghost function InnerWeight(ms: seq<Merge>, freq: seq<int>): (w: int)
    requires forall i :: 0 <= i < |ms| ==> ms[i].node < |freq|
  {
    if ms == [] then 0 else freq[ms[0].node] + InnerWeight(ms[1..], freq)
  }

  // ------------------------------------------------------------------ optimality

  /** `2^(m - l)`, the share of a code of length `l` in units of the longest length `m`. */
  function Share(l: int, m: nat): (s: int)
  {
    if 0 <= l <= m then Pow2(m - l) else 0
  }

  ghost function Shares(len: seq<int>, m: nat): (g: seq<int>)
    ensures |g| == |len|
    ensures forall i :: 0 <= i < |len| ==> g[i] == Share(len[i], m)
  {
    seq(|len|, i requires 0 <= i < |len| => Share(len[i], m))
  }

  ghost function Weights(freq: seq<int>, len: seq<int>): (g: seq<int>)
    requires |freq| == |len|
    ensures |g| == |len|
    ensures forall i :: 0 <= i < |len| ==> g[i] == freq[i] * len[i]
  {
    seq(|len|, i requires 0 <= i < |len| => freq[i] * len[i])
  }

  /** Lengths for the nodes `r` that satisfy the Kraft inequality, as the lengths of every prefix code do. */
  ghost predicate Feasible(r: set<nat>, len: seq<int>, m: nat)
  {
    (forall i :: i in r ==> i < |len| && 0 <= len[i] <= m) && Total(r, Shares(len, m)) <= Pow2(m)
  }

  ghost function Cost(r: set<nat>, freq: seq<int>, len: seq<int>): (c: int)
    requires |freq| == |len|
  {
    Total(r, Weights(freq, len))
  }

  /** No lengths that satisfy the Kraft inequality, of whatever greatest length, cost less than `len`. */
  ghost predicate Optimal(leaves: set<nat>, freq: seq<int>, len: seq<int>)
    requires |freq| == |len|
  {
    forall other: seq<int>, m: nat :: |other| == |freq| && Feasible(leaves, other, m) ==>
      Cost(leaves, freq, len) <= Cost(leaves, freq, other)
  }

  lemma SetLength(r: set<nat>, freq: seq<int>, len: seq<int>, i: nat, v: int, m: nat)
    requires |freq| == |len| && i < |len| && i in r
    ensures Total(r, Shares(len[i := v], m)) == Total(r, Shares(len, m)) + Share(v, m) - Share(len[i], m)
    ensures Cost(r, freq, len[i := v]) == Cost(r, freq, len) + freq[i] * v - freq[i] * len[i]
  {
    hide Share;
    assert Shares(len[i := v], m) == Shares(len, m)[i := Share(v, m)];
    assert Weights(freq, len[i := v]) == Weights(freq, len)[i := freq[i] * v];
    SumUpdate(r, Shares(len, m), i, Share(v, m), |len|);
    SumUpdate(r, Weights(freq, len), i, freq[i] * v, |len|);
  }

  ghost function Swapped(len: seq<int>, a: nat, b: nat): (q: seq<int>)
    requires a < |len| && b < |len|
    ensures |q| == |len|
  {
    len[a := len[b]][b := len[a]]
  }

  /** Giving the longer of two lengths to the rarer node does not cost more. */
  lemma SwapCost(r: set<nat>, freq: seq<int>, len: seq<int>, a: nat, b: nat, m: nat)
    requires |freq| == |len| && Feasible(r, len, m) && a in r && b in r && a < |len| && b < |len| && a != b
    requires freq[a] <= freq[b] && len[a] <= len[b]
    ensures Feasible(r, Swapped(len, a, b), m) && Cost(r, freq, Swapped(len, a, b)) <= Cost(r, freq, len)
  {
    hide Total, Shares, Share, Cost;
    var one := len[a := len[b]];
    SetLength(r, freq, len, a, len[b], m);
    SetLength(r, freq, one, b, len[a], m);
    MulMono2(freq[a], freq[b], len[a], len[b]);
  }

  lemma MulMono2(f: int, g: int, x: int, y: int)
    requires f <= g && x <= y
    ensures f * y + g * x <= f * x + g * y
  {
    var d, e := g - f, y - x;
    MulNonNeg(d, e);
    assert d * e == (g * y - g * x) - (f * y - f * x);
  }

  /** A node of `r` whose length is largest. */
  lemma Longest(r: set<nat>, len: seq<int>) returns (a: nat)
    requires r != {} && forall i :: i in r ==> i < |len|
    ensures a in r && forall i :: i in r ==> len[i] <= len[a]
    decreases r
  {
    var x: nat :| x in r;
    if r == {x} {
      a := x;
    } else {
      var q := r - {x};
      assert r == q + {x};
      a := Longest(q, len);
      if len[a] < len[x] { a := x; }
    }
  }

  /** The two rarest nodes can be given the two greatest lengths. */
  lemma Deepest(r: set<nat>, freq: seq<int>, len: seq<int>, m: nat, l: nat, s: nat) returns (q: seq<int>)
    requires |freq| == |len| && Feasible(r, len, m) && l in r && s in r && l != s && l < |len| && s < |len|
    requires Least(r, Merge(l, s, 0), freq)
    ensures |q| == |len| && Feasible(r, q, m) && Cost(r, freq, q) <= Cost(r, freq, len)
    ensures q[s] <= q[l] && forall i :: i in r && i != l ==> i < |q| && q[i] <= q[s]
  {
    hide Total, Cost;
    var a := Longest(r, len);
    q := len;
    if a != l {
      SwapCost(r, freq, len, l, a, m);
      q := Swapped(len, l, a);
    }
    assert forall i :: i in r ==> q[i] <= q[l];
    var rest := r - {l};
    assert s in rest;
    var b := Longest(rest, q);
    if b != s {
      SwapCost(r, freq, q, s, b, m);
      q := Swapped(q, s, b);
    }
  }

  lemma SharePositive(l: int, m: nat)
    requires 0 <= l <= m
    ensures Share(l, m) >= 1
  {
  }

  lemma ShareDivides(a: int, b: int, m: nat)
    requires 0 <= a <= b <= m
    ensures Share(b, m) > 0 && Share(a, m) % Share(b, m) == 0
  {
    hide Pow2;
    Pow2Add(b - a, m - b);
    DivModUnique(Pow2(m - a), Pow2(m - b), Pow2(b - a), 0);
  }

  lemma RoomLeft(x: int, whole: int, d: int)
    requires d > 0 && x % d == 0 && whole % d == 0 && x < whole
    ensures x + d <= whole
  {
    var p, q := x / d, whole / d;
    assert x == d * p && whole == d * q;
    MulLess(d, p, q);
    MulAtLeast(d, q - p);
    assert d * (q - p) == d * q - d * p;
  }

  lemma MulLess(d: int, p: int, q: int)
    requires d > 0
    ensures d * p < d * q ==> p < q
  {
    if p >= q {
      MulNonNeg(d, p - q);
      assert d * (p - q) == d * p - d * q;
    }
  }

  /** Lowering the single greatest length to the second greatest keeps the Kraft inequality. */
  lemma Level(r: set<nat>, freq: seq<int>, len: seq<int>, m: nat, l: nat, s: nat)
    requires |freq| == |len| && Feasible(r, len, m) && l in r && s in r && l != s && l < |len| && s < |len|
    requires freq[l] >= 0 && len[s] <= len[l] && forall i :: i in r && i != l ==> len[i] <= len[s]
    ensures Feasible(r, len[l := len[s]], m) && Cost(r, freq, len[l := len[s]]) <= Cost(r, freq, len)
  {
    SetLength(r, freq, len, l, len[s], m);
    hide Cost;
    MulSave(freq[l], len[s], len[l]);
    if len[s] < len[l] {
      var d := Share(len[s], m);
      var q := r - {l};
      assert q + {l} == r;
      SumAdd(q, l, Shares(len, m), |len|);
      SharePositive(len[l], m);
      forall i | 0 <= i < |len| && i in q ensures Shares(len, m)[i] % d == 0 { ShareDivides(len[i], len[s], m); }
      ShareDivides(0, len[s], m);
      SumDivides(q, Shares(len, m), d, |len|);
      hide Share, Shares, Sum;
      assert Share(0, m) == Pow2(m) by { ShareZero(m); }
      RoomLeft(Sum(q, Shares(len, m), |len|), Pow2(m), d);
    }
  }

  lemma ShareZero(m: nat)
    ensures Share(0, m) == Pow2(m)
  {
  }

  lemma MulSave(f: int, x: int, y: int)
    requires f >= 0 && x <= y
    ensures f * x <= f * y
  {
    MulNonNeg(f, y - x);
    MulDistrib(f, x, y - x);
  }

  /** Two nodes of equal length cannot both have length zero. */
  lemma NotZero(r: set<nat>, len: seq<int>, m: nat, l: nat, s: nat)
    requires Feasible(r, len, m) && l in r && s in r && l != s && l < |len| && s < |len| && len[l] == len[s]
    ensures len[l] >= 1
  {
    var q := r - {l, s};
    var g := Shares(len, m);
    SumAdd(q, l, g, |len|);
    SumAdd(q + {l}, s, g, |len|);
    assert q + {l} + {s} == r;
    forall i | 0 <= i < |g| && i in q ensures g[i] >= 0 { }
    SumNonNeg(q, g, |len|);
    if len[l] == 0 { ShareZero(m); }
  }

  /** Contracting two nodes of equal length into their father saves their joint frequency. */
  lemma Contract(r: set<nat>, freq: seq<int>, len: seq<int>, m: nat, j: Merge)
    requires |freq| == |len| && Feasible(r, len, m) && Joins(r, j, freq) && len[j.left] == len[j.right] >= 1
    ensures Feasible(Merged(r, j), len[j.node := len[j.left] - 1], m)
    ensures Cost(r, freq, len) == Cost(Merged(r, j), freq, len[j.node := len[j.left] - 1]) + freq[j.node]
  {
    hide Share, Sum, Shares, Weights;
    ContractShares(r, freq, len, m, j);
    ContractCost(r, freq, len, j);
  }

  lemma ContractShares(r: set<nat>, freq: seq<int>, len: seq<int>, m: nat, j: Merge)
    requires |freq| == |len| && Feasible(r, len, m) && Joins(r, j, freq) && len[j.left] == len[j.right] >= 1
    ensures Total(Merged(r, j), Shares(len[j.node := len[j.left] - 1], m)) == Total(r, Shares(len, m))
  {
    hide Share, Sum;
    var q := len[j.node := len[j.left] - 1];
    SumSame(r, Shares(len, m), Shares(q, m), |len|);
    TotalMerge(r, j, Shares(q, m));
    ShareHalf(len[j.left], m);
  }

  lemma ContractCost(r: set<nat>, freq: seq<int>, len: seq<int>, j: Merge)
    requires |freq| == |len| && Joins(r, j, freq) && len[j.left] == len[j.right]
    ensures Cost(r, freq, len) == Cost(Merged(r, j), freq, len[j.node := len[j.left] - 1]) + freq[j.node]
  {
    hide Sum;
    var d := len[j.left];
    var q := len[j.node := d - 1];
    SumSame(r, Weights(freq, len), Weights(freq, q), |len|);
    TotalMerge(r, j, Weights(freq, q));
    WeightStep(freq[j.left], freq[j.right], d - 1);
  }

  lemma ShareHalf(l: int, m: nat)
    requires 1 <= l <= m
    ensures Share(l - 1, m) == 2 * Share(l, m)
  {
  }

  /** Every feasible assignment of lengths costs at least the total frequency of the inner nodes. */
  lemma {:induction false} LowerBound(leaves: set<nat>, ms: seq<Merge>, freq: seq<int>, len: seq<int>, m: nat)
    requires Greedy(leaves, ms, freq) && |freq| == |len| && Feasible(leaves, len, m)
    requires forall i :: 0 <= i < |freq| ==> freq[i] >= 0
    ensures forall i :: 0 <= i < |ms| ==> ms[i].node < |freq|
    ensures Cost(leaves, freq, len) >= InnerWeight(ms, freq)
    decreases |ms|
  {
    hide Joins, Least, Feasible, Greedy, Roots, Merged;
    if ms == [] {
      CostNonNeg(leaves, freq, len, m);
    } else {
      GreedyFront(leaves, ms, freq);
      var j := ms[0];
      JoinFacts(leaves, j, freq);
      LeastPair(leaves, j, freq);
      var q := Deepest(leaves, freq, len, m, j.left, j.right);
      Level(leaves, freq, q, m, j.left, j.right);
      var p := q[j.left := q[j.right]];
      NotZero(leaves, p, m, j.left, j.right);
      Contract(leaves, freq, p, m, j);
      LowerBound(Merged(leaves, j), ms[1..], freq, p[j.node := p[j.left] - 1], m);
    }
  }

  lemma LeastPair(r: set<nat>, j: Merge, freq: seq<int>)
    requires j.left < |freq| && j.right < |freq| && Least(r, j, freq)
    ensures Least(r, Merge(j.left, j.right, 0), freq)
  {
  }

  lemma JoinFacts(r: set<nat>, j: Merge, freq: seq<int>)
    requires Joins(r, j, freq)
    ensures j.left in r && j.right in r && j.left != j.right && j.left < |freq| && j.right < |freq| && j.node < |freq|
  {
  }

  lemma CostNonNeg(r: set<nat>, freq: seq<int>, len: seq<int>, m: nat)
    requires |freq| == |len| && Feasible(r, len, m) && forall i :: 0 <= i < |freq| ==> freq[i] >= 0
    ensures Cost(r, freq, len) >= 0
  {
    forall i | 0 <= i < |len| && i in r ensures Weights(freq, len)[i] >= 0 { MulNonNeg(freq[i], len[i]); }
    SumNonNeg(r, Weights(freq, len), |len|);
  }

  // ------------------------------------------------------------------ shape of a history

  /** Inner nodes are numbered from `elems` up, in the order of their creation. */
  ghost predicate Numbered(elems: nat, leaves: set<nat>, ms: seq<Merge>)
  {
    (forall x :: x in leaves ==> x < elems) && forall i :: 0 <= i < |ms| ==> ms[i].node == elems + i
  }

  lemma {:induction false} RootsBelow(elems: nat, leaves: set<nat>, ms: seq<Merge>)
    requires Numbered(elems, leaves, ms)
    ensures forall x :: x in Roots(leaves, ms) ==> x < elems + |ms|
    ensures forall x :: x in Roots(leaves, ms) ==> x in leaves || elems <= x
    decreases |ms|
  {
    if ms != [] { RootsBelow(elems, leaves, ms[..|ms| - 1]); }
  }

  predicate ChildOf(x: nat, m: Merge) { x == m.left || x == m.right }

  /** A node that has been joined is no root afterwards. */
  lemma {:induction false} ChildGone(elems: nat, leaves: set<nat>, ms: seq<Merge>, freq: seq<int>, i: nat, x: nat)
    requires Numbered(elems, leaves, ms) && Greedy(leaves, ms, freq) && i < |ms| && ChildOf(x, ms[i])
    ensures x !in Roots(leaves, ms) && x < elems + i
    decreases |ms|
  {
    var n := |ms| - 1;
    RootsBelow(elems, leaves, ms[..n]);
    if i < n { ChildGone(elems, leaves, ms[..n], freq, i, x); }
  }

  lemma {:induction false} GreedyAt(leaves: set<nat>, ms: seq<Merge>, freq: seq<int>, i: nat)
    requires Greedy(leaves, ms, freq) && i < |ms|
    ensures Greedy(leaves, ms[..i], freq)
    ensures Joins(Roots(leaves, ms[..i]), ms[i], freq) && Least(Roots(leaves, ms[..i]), ms[i], freq)
    decreases |ms|
  {
    hide Joins, Least, Roots;
    var n := |ms| - 1;
    if i < n {
      GreedyAt(leaves, ms[..n], freq, i);
      assert ms[..n][..i] == ms[..i];
    }
  }

  /** No node is joined twice. */
  lemma ChildOnce(elems: nat, leaves: set<nat>, ms: seq<Merge>, freq: seq<int>, i: nat, j: nat, x: nat)
    requires Numbered(elems, leaves, ms) && Greedy(leaves, ms, freq) && i < j < |ms| && ChildOf(x, ms[i])
    ensures !ChildOf(x, ms[j])
  {
    GreedyAt(leaves, ms, freq, j);
    assert Numbered(elems, leaves, ms[..j]);
    ChildGone(elems, leaves, ms[..j], freq, i, x);
  }

  /** Every node made is a root at the end, or was joined later. */
  lemma {:induction false} Accounted(elems: nat, leaves: set<nat>, ms: seq<Merge>, i: nat)
    requires Numbered(elems, leaves, ms) && i < |ms|
    ensures elems + i in Roots(leaves, ms) || exists j :: i < j < |ms| && ChildOf(elems + i, ms[j])
    decreases |ms|
  {
    var n := |ms| - 1;
    if i < n {
      Accounted(elems, leaves, ms[..n], i);
      if j :| i < j < n && ChildOf(elems + i, ms[..n][j]) { assert ChildOf(elems + i, ms[j]); }
      else if ChildOf(elems + i, ms[n]) { }
    }
  }

  lemma {:induction false} LeafAccounted(leaves: set<nat>, ms: seq<Merge>, x: nat)
    requires x in leaves
    ensures x in Roots(leaves, ms) || exists j :: 0 <= j < |ms| && ChildOf(x, ms[j])
    decreases |ms|
  {
    if ms != [] {
      var n := |ms| - 1;
      LeafAccounted(leaves, ms[..n], x);
      if j :| 0 <= j < n && ChildOf(x, ms[..n][j]) { assert ChildOf(x, ms[j]); }
      else if ChildOf(x, ms[n]) { }
    }
  }

  // ------------------------------------------------------------------ depths, cut at a greatest length

  /** Every joined node is one deeper than its father, but not deeper than `max`. */
  ghost predicate Depths(ms: seq<Merge>, len: seq<int>, max: nat)
  {
    forall i :: 0 <= i < |ms| ==>
                  ms[i].left < |len| && ms[i].right < |len| && ms[i].node < |len| && 0 <= len[ms[i].node] <= max &&
                  len[ms[i].left] == len[ms[i].right] == Cut(len[ms[i].node] + 1, max)
  }

  function Cut(l: int, max: nat): (c: int)
    ensures c <= max && c <= l && (l >= 0 ==> c >= 0)
  {
    if l > max then max else l
  }

  /** The number of inner nodes at depth `max`, whose children had to be cut. */
  ghost function Excess(ms: seq<Merge>, len: seq<int>, max: nat): (e: nat)
    requires forall i :: 0 <= i < |ms| ==> ms[i].node < |len|
  {
    if ms == [] then 0 else (if len[ms[|ms| - 1].node] == max then 1 else 0) + Excess(ms[..|ms| - 1], len, max)
  }

  lemma ShareStep(m: Merge, len: seq<int>, max: nat)
    requires m.left < |len| && m.right < |len| && m.node < |len| && 0 <= len[m.node] <= max
    requires len[m.left] == len[m.right] == Cut(len[m.node] + 1, max)
    ensures Share(len[m.left], max) + Share(len[m.right], max)
            == Share(len[m.node], max) + if len[m.node] == max then 1 else 0
  {
    if len[m.node] < max { ShareHalf(len[m.node] + 1, max); }
  }

  /** The Kraft sum of the leaves exceeds that of the roots by the number of inner nodes at the limit. */
  lemma {:induction false} KraftExcess(leaves: set<nat>, ms: seq<Merge>, freq: seq<int>, len: seq<int>, max: nat)
    requires Greedy(leaves, ms, freq) && Depths(ms, len, max)
    ensures Total(leaves, Shares(len, max)) == Total(Roots(leaves, ms), Shares(len, max)) + Excess(ms, len, max)
    decreases |ms|
  {
    hide Share, Total, Least, Merged;
    if ms != [] {
      var n := |ms| - 1;
      KraftExcess(leaves, ms[..n], freq, len, max);
      TotalMerge(Roots(leaves, ms[..n]), ms[n], Shares(len, max));
      ShareStep(ms[n], len, max);
    }
  }

  /** Without cut the weighted length of the leaves is the total frequency of the inner nodes. */
  lemma {:induction false} CostIsInnerWeight(leaves: set<nat>, ms: seq<Merge>, freq: seq<int>, len: seq<int>)
    requires Greedy(leaves, ms, freq) && |freq| == |len|
    requires forall i :: 0 <= i < |ms| ==>
               ms[i].left < |len| && ms[i].right < |len| && ms[i].node < |len| &&
               len[ms[i].left] == len[ms[i].right] == len[ms[i].node] + 1
    ensures Cost(leaves, freq, len) == Total(Roots(leaves, ms), Weights(freq, len)) + InnerWeight(ms, freq)
    decreases |ms|
  {
    hide Total, Least, Merged;
    if ms != [] {
      var j := ms[0];
      GreedyFront(leaves, ms, freq);
      CostIsInnerWeight(Merged(leaves, j), ms[1..], freq, len);
      TotalMerge(leaves, j, Weights(freq, len));
      WeightStep(freq[j.left], freq[j.right], len[j.node]);
    }
  }

  lemma WeightStep(f: int, g: int, d: int)
    ensures f * (d + 1) + g * (d + 1) == (f + g) * d + (f + g)
  {
  }

  // ------------------------------------------------------------------ leaves at the limit

  ghost function AtLength(len: seq<int>, l: int): (g: seq<int>)
    ensures |g| == |len|
    ensures forall i :: 0 <= i < |len| ==> g[i] == if len[i] == l then 1 else 0
  {
    seq(|len|, i requires 0 <= i < |len| => if len[i] == l then 1 else 0)
  }

  /** How many inner nodes lie one above the limit. */
  ghost function Above(ms: seq<Merge>, len: seq<int>, max: nat): (e: nat)
    requires forall i :: 0 <= i < |ms| ==> ms[i].node < |len|
  {
    if ms == [] then 0 else (if len[ms[|ms| - 1].node] == max - 1 then 1 else 0) + Above(ms[..|ms| - 1], len, max)
  }

  lemma {:induction false} LeavesAtLimit(leaves: set<nat>, ms: seq<Merge>, freq: seq<int>, len: seq<int>, max: nat)
    requires Greedy(leaves, ms, freq) && Depths(ms, len, max) && max >= 1
    ensures Total(leaves, AtLength(len, max))
         == Total(Roots(leaves, ms), AtLength(len, max)) + Excess(ms, len, max) + 2 * Above(ms, len, max)
    decreases |ms|
  {
    hide Total, Least, Merged;
    if ms != [] {
      var n := |ms| - 1;
      LeavesAtLimit(leaves, ms[..n], freq, len, max);
      TotalMerge(Roots(leaves, ms[..n]), ms[n], AtLength(len, max));
    }
  }

  lemma {:induction false} AbovePositive(ms: seq<Merge>, len: seq<int>, max: nat, i: nat)
    requires forall i :: 0 <= i < |ms| ==> ms[i].node < |len|
    requires i < |ms| && len[ms[i].node] == max - 1
    ensures Above(ms, len, max) >= 1
    decreases |ms|
  {
    var n := |ms| - 1;
    if i < n { AbovePositive(ms[..n], len, max, i); }
  }

  /** An inner node at the limit has an ancestor right above the limit. */
  lemma {:induction false} SomeAbove(elems: nat, leaves: set<nat>, ms: seq<Merge>, len: seq<int>, max: nat, root: nat,
                                     i: nat)
    requires Numbered(elems, leaves, ms) && Depths(ms, len, max) && max >= 1
    requires Roots(leaves, ms) == {root} && root < |len| && len[root] == 0
    requires i < |ms| && len[ms[i].node] == max
    ensures Above(ms, len, max) >= 1
    decreases |ms| - i
  {
    Accounted(elems, leaves, ms, i);
    var j :| i < j < |ms| && ChildOf(elems + i, ms[j]);
    if len[ms[j].node] == max {
      SomeAbove(elems, leaves, ms, len, max, root, j);
    } else {
      AbovePositive(ms, len, max, j);
    }
  }

  lemma {:induction false} ExcessWitness(ms: seq<Merge>, len: seq<int>, max: nat) returns (i: nat)
    requires (forall i :: 0 <= i < |ms| ==> ms[i].node < |len|) && Excess(ms, len, max) >= 1
    ensures i < |ms| && len[ms[i].node] == max
    decreases |ms|
  {
    var n := |ms| - 1;
    if len[ms[n].node] == max { i := n; } else { i := ExcessWitness(ms[..n], len, max); }
  }

  /** When something was cut, more leaves sit at the limit than the Kraft sum is too large by. */
  lemma EnoughAtLimit(elems: nat, leaves: set<nat>, ms: seq<Merge>, freq: seq<int>, len: seq<int>, max: nat, root: nat)
    requires Numbered(elems, leaves, ms) && Greedy(leaves, ms, freq) && Depths(ms, len, max) && max >= 1
    requires Roots(leaves, ms) == {root} && root < |len| && len[root] == 0
    requires Excess(ms, len, max) >= 1
    ensures Total(leaves, AtLength(len, max)) >= Excess(ms, len, max) + 1
  {
    var i := ExcessWitness(ms, len, max);
    SomeAbove(elems, leaves, ms, len, max, root, i);
    LeavesAtLimit(leaves, ms, freq, len, max);
    SumSingle(root, AtLength(len, max), |len|);
  }

  // ------------------------------------------------------------------ depths in the history itself

  /** How many fathers `x` gets in the history from step `i` on. */
  function DepthOf(ms: seq<Merge>, i: nat, x: nat): (d: nat)
    requires i <= |ms|
    decreases |ms| - i
  {
    if i == |ms| then 0 else if ChildOf(x, ms[i]) then 1 + DepthOf(ms, i + 1, ms[i].node) else DepthOf(ms, i + 1, x)
  }

  /** No leaf of the tree lies deeper than `max`. */
  predicate Shallow(leaves: set<nat>, ms: seq<Merge>, max: nat) { forall x :: x in leaves ==> DepthOf(ms, 0, x) <= max }

  lemma {:induction false} DepthSkips(ms: seq<Merge>, i: nat, j: nat, x: nat)
    requires i <= j <= |ms| && forall k :: i <= k < j ==> !ChildOf(x, ms[k])
    ensures DepthOf(ms, i, x) == DepthOf(ms, j, x)
    decreases j - i
  {
    if i < j { DepthSkips(ms, i + 1, j, x); }
  }

  /** A node gets its first father at step `j`. */
  lemma FatherAt(elems: nat, leaves: set<nat>, ms: seq<Merge>, freq: seq<int>, i: nat, j: nat, x: nat)
    requires Numbered(elems, leaves, ms) && Greedy(leaves, ms, freq) && i <= j < |ms| && ChildOf(x, ms[j])
    ensures DepthOf(ms, i, x) == 1 + DepthOf(ms, j + 1, ms[j].node)
  {
    hide Greedy;
    forall k | i <= k < j ensures !ChildOf(x, ms[k]) {
      if ChildOf(x, ms[k]) { ChildOnce(elems, leaves, ms, freq, k, j, x); }
    }
    DepthSkips(ms, i, j, x);
  }

  /** The lengths of the inner nodes are their depths, cut at the limit. */
  lemma {:induction false} InnerDepth(elems: nat, leaves: set<nat>, ms: seq<Merge>, freq: seq<int>, len: seq<int>,
                                      max: nat, i: nat)
    requires Numbered(elems, leaves, ms) && Greedy(leaves, ms, freq) && Depths(ms, len, max) && i < |ms|
    requires Roots(leaves, ms) == {ms[|ms| - 1].node} && len[ms[|ms| - 1].node] == 0
    ensures len[ms[i].node] == Cut(DepthOf(ms, i + 1, ms[i].node), max)
    decreases |ms| - i
  {
    hide Greedy;
    if i < |ms| - 1 {
      Accounted(elems, leaves, ms, i);
      var j :| i < j < |ms| && ChildOf(elems + i, ms[j]);
      FatherAt(elems, leaves, ms, freq, i + 1, j, ms[i].node);
      InnerDepth(elems, leaves, ms, freq, len, max, j);
    }
  }

  /** Below every inner node there is a leaf that is deeper. */
  lemma {:induction false} LeafBelow(elems: nat, leaves: set<nat>, ms: seq<Merge>, freq: seq<int>, i: nat)
    returns (x: nat)
    requires Numbered(elems, leaves, ms) && Greedy(leaves, ms, freq) && i < |ms|
    ensures x in leaves && DepthOf(ms, 0, x) > DepthOf(ms, i + 1, ms[i].node)
    decreases i
  {
    hide Greedy;
    x := ms[i].left;
    ChildKnown(elems, leaves, ms, freq, i, x);
    if x in leaves {
      FatherAt(elems, leaves, ms, freq, 0, i, x);
    } else {
      var j := x - elems;
      FatherAt(elems, leaves, ms, freq, j + 1, i, x);
      x := LeafBelow(elems, leaves, ms, freq, j);
    }
  }

  lemma ChildKnown(elems: nat, leaves: set<nat>, ms: seq<Merge>, freq: seq<int>, i: nat, x: nat)
    requires Numbered(elems, leaves, ms) && Greedy(leaves, ms, freq) && i < |ms| && ChildOf(x, ms[i])
    ensures x in Roots(leaves, ms[..i]) && (x in leaves || elems <= x < elems + i)
  {
    hide Greedy;
    GreedyAt(leaves, ms, freq, i);
    assert Numbered(elems, leaves, ms[..i]);
    RootsBelow(elems, leaves, ms[..i]);
  }

  /** Nothing was cut exactly when no leaf lies deeper than the limit. */
  lemma CutIffDeep(elems: nat, leaves: set<nat>, ms: seq<Merge>, freq: seq<int>, len: seq<int>, max: nat)
    requires Numbered(elems, leaves, ms) && Greedy(leaves, ms, freq) && Depths(ms, len, max) && ms != []
    requires Roots(leaves, ms) == {ms[|ms| - 1].node} && len[ms[|ms| - 1].node] == 0
    ensures Excess(ms, len, max) == 0 <==> Shallow(leaves, ms, max)
  {
    hide Greedy;
    if Excess(ms, len, max) >= 1 {
      var i := ExcessWitness(ms, len, max);
      InnerDepth(elems, leaves, ms, freq, len, max, i);
      var x := LeafBelow(elems, leaves, ms, freq, i);
    } else {
      RootsBelow(elems, leaves, ms);
      NoExcess(ms, len, max);
      forall x | x in leaves ensures DepthOf(ms, 0, x) <= max {
        LeafAccounted(leaves, ms, x);
        var j :| 0 <= j < |ms| && ChildOf(x, ms[j]);
        FatherAt(elems, leaves, ms, freq, 0, j, x);
        InnerDepth(elems, leaves, ms, freq, len, max, j);
      }
    }
  }

  lemma {:induction false} NoExcess(ms: seq<Merge>, len: seq<int>, max: nat)
    requires (forall i :: 0 <= i < |ms| ==> ms[i].node < |len|) && Excess(ms, len, max) == 0
    ensures forall i :: 0 <= i < |ms| ==> len[ms[i].node] != max
    decreases |ms|
  {
    if ms != [] { NoExcess(ms[..|ms| - 1], len, max); }
  }
}
