/**
  Theory of the tie breaker of trees.c: among nodes of equal frequency build_tree joins the lower ones first.
  That makes its tree the lowest of all optimal ones.
*/
module Ranks {
  import opened Bits
  import opened Huffman

  function Max(a: nat, b: nat): (m: nat) { if a >= b then a else b }

  /** Rarer, or as rare and not higher. */
  predicate Before(a: nat, b: nat, freq: seq<int>, h: seq<nat>)
    requires a < |freq| && b < |freq| && a < |h| && b < |h|
  {
    freq[a] < freq[b] || (freq[a] == freq[b] && h[a] <= h[b])
  }

  /** The two nodes joined come before all other roots. */
  ghost predicate LexLeast(r: set<nat>, m: Merge, freq: seq<int>, h: seq<nat>)
    requires m.left < |freq| && m.right < |freq| && m.left < |h| && m.right < |h|
  {
    forall x :: x in r && x < |freq| && x < |h| ==>
      Before(m.left, x, freq, h) && (x != m.left ==> Before(m.right, x, freq, h))
  }

  /** One round with the height of the new node kept in eight bits. */
  ghost predicate Round(r: set<nat>, m: Merge, freq: seq<int>, h: seq<nat>)
  {
    m.left < |freq| && m.right < |freq| && m.node < |freq| && m.left < |h| && m.right < |h| && m.node < |h| &&
    h[m.node] == (Max(h[m.left], h[m.right]) + 1) % 256 && LexLeast(r, m, freq, h)
  }

  /** Every round of the history is such a round; `h` holds the heights. */
  ghost predicate Ranked(leaves: set<nat>, ms: seq<Merge>, freq: seq<int>, h: seq<nat>)
  {
    (forall x :: x in leaves ==> x < |h| && h[x] == 0) &&
    forall i :: 0 <= i < |ms| ==> Round(Roots(leaves, ms[..i]), ms[i], freq, h)
  }

  // ------------------------------------------------------------------ histories from the front

  lemma {:induction false} RootsFront(leaves: set<nat>, ms: seq<Merge>)
    requires ms != []
    ensures Roots(leaves, ms) == Roots(Merged(leaves, ms[0]), ms[1..])
    decreases |ms|
  {
    hide Merged;
    var n := |ms| - 1;
    if n == 0 {
      assert ms[..0] == [] && ms[1..] == [];
      assert Roots(leaves, []) == leaves;
    } else {
      RootsFront(leaves, ms[..n]);
      var t := ms[1..];
      assert t[..|t| - 1] == ms[..n][1..] && t[|t| - 1] == ms[n];
    }
  }

  /** A round in which eight bits are enough for the height. */
  ghost predicate TrueRound(r: set<nat>, m: Merge, freq: seq<int>, h: seq<nat>)
  {
    Round(r, m, freq, h) && h[m.node] == Max(h[m.left], h[m.right]) + 1
  }

  /** A history whose heights are true ones. */
  ghost predicate Rising(r: set<nat>, ms: seq<Merge>, freq: seq<int>, h: seq<nat>)
  {
    forall i :: 0 <= i < |ms| ==> TrueRound(Roots(r, ms[..i]), ms[i], freq, h)
  }

  lemma RisingFront(r: set<nat>, ms: seq<Merge>, freq: seq<int>, h: seq<nat>)
    requires Rising(r, ms, freq, h) && ms != []
    ensures TrueRound(r, ms[0], freq, h) && Rising(Merged(r, ms[0]), ms[1..], freq, h)
  {
    hide TrueRound, Merged;
    assert ms[..0] == [];
    assert Roots(r, []) == r;
    forall i | 0 <= i < |ms[1..]| ensures TrueRound(Roots(Merged(r, ms[0]), ms[1..][..i]), ms[1..][i], freq, h) {
      RootsFront(r, ms[..i + 1]);
      assert ms[..i + 1][1..] == ms[1..][..i] && ms[1..][i] == ms[i + 1];
    }
  }

  // ------------------------------------------------------------------ exchanging lengths

  /** With the lengths `len` no subtree reaches below `b`. */
  ghost predicate Within(r: set<nat>, len: seq<int>, h: seq<nat>, b: int)
  {
    forall i :: i in r ==> i < |len| && i < |h| && len[i] + h[i] <= b
  }

  /** No lengths up to `m` cost less than `w`. */
  ghost predicate AtLeast(r: set<nat>, freq: seq<int>, m: nat, w: int)
  {
    forall q: seq<int> :: |q| == |freq| && Feasible(r, q, m) ==> w <= Cost(r, freq, q)
  }

  lemma SwapSaves(r: set<nat>, freq: seq<int>, len: seq<int>, a: nat, b: nat)
    requires |freq| == |len| && a in r && b in r && a < |len| && b < |len| && a != b
    ensures Cost(r, freq, Swapped(len, a, b)) == Cost(r, freq, len) - (freq[b] - freq[a]) * (len[b] - len[a])
  {
    hide Total, Cost;
    var one := len[a := len[b]];
    SetLength(r, freq, len, a, len[b], 0);
    SetLength(r, freq, one, b, len[a], 0);
    assert (freq[b] - freq[a]) * (len[b] - len[a])
           == freq[b] * len[b] - freq[b] * len[a] - freq[a] * len[b] + freq[a] * len[a];
  }

  /** When the cost cannot fall, an exchange that lowers the rarer node does not make the tree higher. */
  lemma SwapWithin(r: set<nat>, freq: seq<int>, h: seq<nat>, len: seq<int>, a: nat, b: nat, bound: int)
    requires |freq| == |len| && a in r && b in r && a < |len| && b < |len| && a != b && a < |h| && b < |h|
    requires Before(a, b, freq, h) && len[a] <= len[b] && Within(r, len, h, bound) &&
             Cost(r, freq, Swapped(len, a, b)) >= Cost(r, freq, len)
    ensures Within(r, Swapped(len, a, b), h, bound)
  {
    hide Cost;
    SwapSaves(r, freq, len, a, b);
    if len[a] < len[b] && freq[a] < freq[b] {
      MulAtLeast(freq[b] - freq[a], len[b] - len[a]);
    }
  }

  /** Gives `a` the length of `b`, which is not rarer and has a length not smaller. */
  lemma Exchange(r: set<nat>, freq: seq<int>, h: seq<nat>, len: seq<int>, m: nat, a: nat, b: nat, bound: int, w: int)
    returns (q: seq<int>)
    requires |freq| == |len| && a in r && b in r && a < |len| && b < |len| && a < |h| && b < |h| &&
             Before(a, b, freq, h) && len[a] <= len[b]
    requires Feasible(r, len, m) && Within(r, len, h, bound) && Cost(r, freq, len) == w && AtLeast(r, freq, m, w)
    ensures q == Swapped(len, a, b) && Feasible(r, q, m) && Within(r, q, h, bound) && Cost(r, freq, q) == w
  {
    hide Cost, Feasible, Within;
    q := Swapped(len, a, b);
    if a == b {
      assert q == len;
    } else {
      SwapCost(r, freq, len, a, b, m);
      AtLeastIs(r, freq, m, w, q);
      SwapWithin(r, freq, h, len, a, b, bound);
    }
  }

  lemma Inside(r: set<nat>, len: seq<int>, h: seq<nat>, bound: int)
    requires Within(r, len, h, bound)
    ensures forall i :: i in r ==> i < |len| && i < |h|
  {
  }

  /** The two nodes that come first can be given the two greatest lengths without making the tree higher. */
  lemma DeepestWithin(r: set<nat>, freq: seq<int>, h: seq<nat>, len: seq<int>, m: nat, j: Merge, bound: int, w: int)
    returns (q: seq<int>)
    requires |freq| == |len| && Feasible(r, len, m) && Joins(r, j, freq) && Round(r, j, freq, h)
    requires Within(r, len, h, bound) && Cost(r, freq, len) == w && AtLeast(r, freq, m, w)
    ensures |q| == |len| && Feasible(r, q, m) && Cost(r, freq, q) == w && Within(r, q, h, bound)
    ensures q[j.right] <= q[j.left] && forall i :: i in r && i != j.left ==> i < |q| && q[i] <= q[j.right]
  {
    hide Cost, Feasible, Within, AtLeast, Before;
    Inside(r, len, h, bound);
    var l, s := j.left, j.right;
    var a := Longest(r, len);
    q := Exchange(r, freq, h, len, m, l, a, bound, w);
    assert forall i :: i in r ==> q[i] <= q[l];
    var rest := r - {l};
    assert s in rest;
    var b := Longest(rest, q);
    q := Exchange(r, freq, h, q, m, s, b, bound, w);
  }

  // ------------------------------------------------------------------ the lowest tree

  lemma BoundIs(leaves: set<nat>, ms: seq<Merge>, freq: seq<int>, m: nat)
    requires Greedy(leaves, ms, freq) && forall i :: 0 <= i < |freq| ==> freq[i] >= 0
    ensures forall i :: 0 <= i < |ms| ==> ms[i].node < |freq|
    ensures AtLeast(leaves, freq, m, InnerWeight(ms, freq))
  {
    hide Greedy, Feasible, Cost;
    GreedyNodes(leaves, ms, freq);
    forall q: seq<int> | |q| == |freq| && Feasible(leaves, q, m)
      ensures InnerWeight(ms, freq) <= Cost(leaves, freq, q) {
      LowerBound(leaves, ms, freq, q, m);
    }
  }

  lemma {:induction false} GreedyNodes(leaves: set<nat>, ms: seq<Merge>, freq: seq<int>)
    requires Greedy(leaves, ms, freq)
    ensures forall i :: 0 <= i < |ms| ==> ms[i].node < |freq|
    decreases |ms|
  {
    if ms != [] { GreedyNodes(leaves, ms[..|ms| - 1], freq); }
  }

  /** One round: the lengths go over to the roots after it. */
  lemma RoundDown(r: set<nat>, freq: seq<int>, h: seq<nat>, len: seq<int>, m: nat, j: Merge, bound: int, w: int)
    returns (p: seq<int>)
    requires |freq| == |len| && Feasible(r, len, m) && Joins(r, j, freq) && TrueRound(r, j, freq, h)
    requires Within(r, len, h, bound) && Cost(r, freq, len) == w && AtLeast(r, freq, m, w) && freq[j.left] >= 0
    ensures |p| == |len| && Feasible(Merged(r, j), p, m) && Within(Merged(r, j), p, h, bound) &&
            Cost(Merged(r, j), freq, p) == w - freq[j.node]
  {
    var q := DeepestWithin(r, freq, h, len, m, j, bound, w);
    JoinFacts(r, j, freq);
    hide Cost, Feasible, Merged, Joins, LexLeast;
    Level(r, freq, q, m, j.left, j.right);
    var e := q[j.left := q[j.right]];
    AtLeastIs(r, freq, m, w, e);
    NotZero(r, e, m, j.left, j.right);
    Contract(r, freq, e, m, j);
    p := e[j.node := e[j.left] - 1];
    ContractWithin(r, h, q, j, bound);
  }

  lemma AtLeastIs(r: set<nat>, freq: seq<int>, m: nat, w: int, q: seq<int>)
    requires AtLeast(r, freq, m, w) && |q| == |freq| && Feasible(r, q, m)
    ensures w <= Cost(r, freq, q)
  {
    hide Cost, Feasible;
  }

  /** No optimal lengths lead to a tree lower than that of the history. */
  lemma {:induction false} Lowest(r: set<nat>, ms: seq<Merge>, freq: seq<int>, h: seq<nat>, len: seq<int>, m: nat,
                                  bound: int)
    requires Greedy(r, ms, freq) && Rising(r, ms, freq, h) && |freq| == |len| && Feasible(r, len, m) &&
             Within(r, len, h, bound)
    requires forall i :: 0 <= i < |freq| ==> freq[i] >= 0
    requires forall i :: 0 <= i < |ms| ==> ms[i].node < |freq|
    requires Cost(r, freq, len) == InnerWeight(ms, freq)
    ensures forall x :: x in Roots(r, ms) ==> x < |h| && h[x] <= bound
    decreases |ms|
  {
    if ms == [] { return; }
    hide Greedy, Rising, Cost, Feasible, Within, Joins, Round, AtLeast, Merged, Roots;
    GreedyFront(r, ms, freq);
    RisingFront(r, ms, freq, h);
    RootsFront(r, ms);
    BoundIs(r, ms, freq, m);
    JoinFacts(r, ms[0], freq);
    var p := RoundDown(r, freq, h, len, m, ms[0], bound, InnerWeight(ms, freq));
    Lowest(Merged(r, ms[0]), ms[1..], freq, h, p, m, bound);
  }

  lemma ContractWithin(r: set<nat>, h: seq<nat>, q: seq<int>, j: Merge, bound: int)
    requires Within(r, q, h, bound) && j.left in r && j.right in r && j.left < |q| && j.right < |q| && j.node < |q| &&
             j.node < |h|
    requires q[j.right] <= q[j.left] && h[j.node] == Max(h[j.left], h[j.right]) + 1
    ensures Within(Merged(r, j), q[j.left := q[j.right]][j.node := q[j.right] - 1], h, bound)
  {
  }

  // ------------------------------------------------------------------ eight bits are enough for the heights

  /** What the two nodes joined at step `i` weigh is a bound for all later roots. */
  lemma {:induction false} LaterHeavier(leaves: set<nat>, ms: seq<Merge>, freq: seq<int>, i: nat, j: nat, y: nat)
    requires Greedy(leaves, ms, freq) && i < j <= |ms| && y in Roots(leaves, ms[..j]) &&
             forall k :: 0 <= k < |freq| ==> freq[k] >= 0
    requires forall x :: x in leaves ==> x < |freq|
    ensures ms[i].left < |freq| && ms[i].right < |freq| && y < |freq| && freq[ms[i].left] <= freq[y] &&
            freq[ms[i].right] <= freq[y]
    decreases j
  {
    hide Greedy, Roots;
    GreedyAt(leaves, ms, freq, j - 1);
    RootsSnoc(leaves, ms, j);
    if i == j - 1 {
      RootsInside(leaves, ms, freq, i);
    } else if y == ms[j - 1].node {
      LaterHeavier(leaves, ms, freq, i, j - 1, ms[j - 1].left);
    } else {
      LaterHeavier(leaves, ms, freq, i, j - 1, y);
    }
  }

  lemma RootsSnoc(leaves: set<nat>, ms: seq<Merge>, j: nat)
    requires 1 <= j <= |ms|
    ensures Roots(leaves, ms[..j]) == Merged(Roots(leaves, ms[..j - 1]), ms[j - 1])
  {
    assert ms[..j][..j - 1] == ms[..j - 1];
  }

  lemma {:induction false} RootsInside(leaves: set<nat>, ms: seq<Merge>, freq: seq<int>, i: nat)
    requires Greedy(leaves, ms, freq) && i <= |ms| && forall x :: x in leaves ==> x < |freq|
    ensures forall x :: x in Roots(leaves, ms[..i]) ==> x < |freq|
    decreases i
  {
    if i > 0 {
      GreedyAt(leaves, ms, freq, i - 1);
      RootsInside(leaves, ms, freq, i - 1);
      RootsSnoc(leaves, ms, i);
    } else {
      assert ms[..0] == [];
    }
  }

  /** The least weight of a tree of height `n`. */
  function Fib(n: nat): (w: nat)
    ensures w >= 1
  {
    if n == 0 then 1 else if n == 1 then 2 else Fib(n - 1) + Fib(n - 2)
  }

  lemma {:induction false} FibMono(n: nat, m: nat)
    requires n <= m
    ensures Fib(n) <= Fib(m)
    decreases m
  {
    if n < m { FibMono(n, m - 1); }
  }

  lemma FibLarge()
    ensures Fib(23) > 0xffff
  {
    assert Fib(5) == 13;
    assert Fib(6) == 21;
    assert Fib(7) == 34 && Fib(8) == 55;
    assert Fib(9) == 89 && Fib(10) == 144;
    assert Fib(11) == 233 && Fib(12) == 377;
    assert Fib(13) == 610 && Fib(14) == 987;
    assert Fib(15) == 1597 && Fib(16) == 2584;
    assert Fib(17) == 4181 && Fib(18) == 6765;
    assert Fib(19) == 10946 && Fib(20) == 17711;
    assert Fib(21) == 28657 && Fib(22) == 46368;
  }

  /** A node weighs at least as much as its height asks for. */
  ghost predicate Heavy(x: nat, freq: seq<int>, h: seq<nat>) { x < |freq| && x < |h| && Fib(h[x]) <= freq[x] }

  /** What is known of the nodes made in the first `i` rounds. */
  ghost predicate TrueUpTo(leaves: set<nat>, ms: seq<Merge>, freq: seq<int>, h: seq<nat>, i: nat)
    requires i <= |ms|
  {
    forall k :: 0 <= k < i ==> TrueRound(Roots(leaves, ms[..k]), ms[k], freq, h) && Heavy(ms[k].node, freq, h)
  }

  /** A history of 16-bit frequencies. */
  ghost predicate Light16(elems: nat, leaves: set<nat>, ms: seq<Merge>, freq: seq<int>)
  {
    Numbered(elems, leaves, ms) && Greedy(leaves, ms, freq) &&
    (forall x :: x in leaves ==> x < |freq| && freq[x] >= 1) &&
    (forall k :: 0 <= k < |freq| ==> freq[k] >= 0) &&
    forall k :: 0 <= k < |ms| ==> ms[k].node < |freq| && freq[ms[k].node] <= 0xffff
  }

  lemma ChildHeavy(elems: nat, leaves: set<nat>, ms: seq<Merge>, freq: seq<int>, h: seq<nat>, i: nat, x: nat)
    requires Light16(elems, leaves, ms, freq) && Ranked(leaves, ms, freq, h) && i < |ms| &&
             TrueUpTo(leaves, ms, freq, h, i) && ChildOf(x, ms[i])
    ensures Heavy(x, freq, h) && x in Roots(leaves, ms[..i]) && (h[x] >= 1 ==> elems <= x < elems + i)
  {
    hide Greedy, Roots, TrueRound, Round;
    ChildKnown(elems, leaves, ms, freq, i, x);
    if x !in leaves {
      var k := x - elems;
      assert Heavy(ms[k].node, freq, h);
    }
  }

  /** The sibling of a high node weighs at least as much as the higher of the node's sons. */
  lemma SiblingHeavy(elems: nat, leaves: set<nat>, ms: seq<Merge>, freq: seq<int>, h: seq<nat>, i: nat, x: nat, y: nat)
    requires Light16(elems, leaves, ms, freq) && Ranked(leaves, ms, freq, h) && i < |ms| &&
             TrueUpTo(leaves, ms, freq, h, i)
    requires ChildOf(x, ms[i]) && ChildOf(y, ms[i]) && x < |h| && h[x] >= 1
    ensures y < |freq| && Fib(h[x] - 1) <= freq[y]
  {
    hide Light16, Ranked, TrueUpTo, Roots;
    ChildHeavy(elems, leaves, ms, freq, h, i, x);
    ChildHeavy(elems, leaves, ms, freq, h, i, y);
    var k := x - elems;
    NodeTrue(elems, leaves, ms, freq, h, i, k);
    var c := if h[ms[k].left] >= h[ms[k].right] then ms[k].left else ms[k].right;
    SonHeavy(elems, leaves, ms, freq, h, i, k, c);
    LaterThan(elems, leaves, ms, freq, k, i, y);
  }

  lemma NodeTrue(elems: nat, leaves: set<nat>, ms: seq<Merge>, freq: seq<int>, h: seq<nat>, i: nat, k: nat)
    requires Light16(elems, leaves, ms, freq) && k < i <= |ms| && TrueUpTo(leaves, ms, freq, h, i)
    ensures ms[k].node == elems + k && ms[k].left < |h| && ms[k].right < |h| && ms[k].node < |h|
    ensures h[ms[k].node] == Max(h[ms[k].left], h[ms[k].right]) + 1
  {
    hide Greedy, Roots, LexLeast, Heavy;
    assert TrueRound(Roots(leaves, ms[..k]), ms[k], freq, h);
  }

  lemma LaterThan(elems: nat, leaves: set<nat>, ms: seq<Merge>, freq: seq<int>, k: nat, i: nat, y: nat)
    requires Light16(elems, leaves, ms, freq) && k < i <= |ms| && y in Roots(leaves, ms[..i])
    ensures ms[k].left < |freq| && ms[k].right < |freq| && y < |freq| && freq[ms[k].left] <= freq[y] &&
            freq[ms[k].right] <= freq[y]
  {
    hide Greedy, Roots;
    LaterHeavier(leaves, ms, freq, k, i, y);
  }

  lemma SonHeavy(elems: nat, leaves: set<nat>, ms: seq<Merge>, freq: seq<int>, h: seq<nat>, i: nat, k: nat, c: nat)
    requires Light16(elems, leaves, ms, freq) && Ranked(leaves, ms, freq, h) && k < i < |ms| &&
             TrueUpTo(leaves, ms, freq, h, i) && ChildOf(c, ms[k])
    ensures Heavy(c, freq, h)
  {
    hide TrueRound, Heavy, Greedy, Roots, Round;
    assert TrueUpTo(leaves, ms, freq, h, k);
    ChildHeavy(elems, leaves, ms, freq, h, k, c);
  }

  lemma TrueNext(elems: nat, leaves: set<nat>, ms: seq<Merge>, freq: seq<int>, h: seq<nat>, i: nat)
    requires Light16(elems, leaves, ms, freq) && Ranked(leaves, ms, freq, h) && i < |ms| &&
             TrueUpTo(leaves, ms, freq, h, i)
    ensures TrueRound(Roots(leaves, ms[..i]), ms[i], freq, h) && Heavy(ms[i].node, freq, h)
  {
    hide Roots, TrueUpTo, LexLeast, Light16, Ranked, Fib;
    var m := ms[i];
    RoundAt(elems, leaves, ms, freq, h, i);
    var x, y := if h[m.left] >= h[m.right] then m.left
                else m.right, if h[m.left] >= h[m.right] then m.right else m.left;
    ChildHeavy(elems, leaves, ms, freq, h, i, x);
    ChildHeavy(elems, leaves, ms, freq, h, i, y);
    if h[x] >= 1 { SiblingHeavy(elems, leaves, ms, freq, h, i, x, y); }
    FibNext(h[x]);
    assert Fib(h[x] + 1) <= freq[m.node];
    FibLarge();
    if h[x] + 1 >= 23 { FibMono(23, h[x] + 1); }
  }

  lemma RoundAt(elems: nat, leaves: set<nat>, ms: seq<Merge>, freq: seq<int>, h: seq<nat>, i: nat)
    requires Light16(elems, leaves, ms, freq) && Ranked(leaves, ms, freq, h) && i < |ms|
    ensures Round(Roots(leaves, ms[..i]), ms[i], freq, h) && freq[ms[i].node] == freq[ms[i].left] + freq[ms[i].right] &&
            freq[ms[i].node] <= 0xffff
  {
    hide Greedy, Roots, LexLeast;
    JoinAt(leaves, ms, freq, i);
  }

  lemma FibNext(n: nat)
    ensures Fib(n + 1) == if n == 0 then 2 else Fib(n) + Fib(n - 1)
  {
  }

  lemma JoinAt(leaves: set<nat>, ms: seq<Merge>, freq: seq<int>, i: nat)
    requires Greedy(leaves, ms, freq) && i < |ms|
    ensures ms[i].left < |freq| && ms[i].right < |freq| && ms[i].node < |freq| &&
            freq[ms[i].node] == freq[ms[i].left] + freq[ms[i].right]
  {
    hide Greedy, Roots;
    GreedyAt(leaves, ms, freq, i);
  }

  /** All heights are true ones. */
  lemma {:induction false} TrueHeights(elems: nat, leaves: set<nat>, ms: seq<Merge>, freq: seq<int>, h: seq<nat>,
                                       i: nat)
    requires Light16(elems, leaves, ms, freq) && Ranked(leaves, ms, freq, h) && i <= |ms|
    ensures TrueUpTo(leaves, ms, freq, h, i)
    decreases i
  {
    hide Light16, Ranked, TrueRound, Heavy;
    if i > 0 {
      TrueHeights(elems, leaves, ms, freq, h, i - 1);
      TrueNext(elems, leaves, ms, freq, h, i - 1);
    }
  }

  // ------------------------------------------------------------------ depth and height

  lemma {:induction false} DepthBelow(ms: seq<Merge>, i: nat, x: nat)
    requires i <= |ms|
    ensures DepthOf(ms, i, x) <= |ms| - i
    decreases |ms| - i
  {
    if i < |ms| { DepthBelow(ms, i + 1, if ChildOf(x, ms[i]) then ms[i].node else x); }
  }

  /** The depth of a root and its height add up to no more than the height of the tree. */
  lemma {:induction false} DepthHeight(leaves: set<nat>, ms: seq<Merge>, freq: seq<int>, h: seq<nat>, i: nat, x: nat,
                                       root: nat)
    requires Rising(leaves, ms, freq, h) && i <= |ms| && Roots(leaves, ms) == {root} && root < |h| &&
             x in Roots(leaves, ms[..i]) && x < |h|
    ensures DepthOf(ms, i, x) + h[x] <= h[root]
    decreases |ms| - i
  {
    if i == |ms| {
      assert ms[..i] == ms;
    } else {
      hide Roots, LexLeast;
      RootsSnoc(leaves, ms, i + 1);
      assert TrueRound(Roots(leaves, ms[..i]), ms[i], freq, h);
      DepthHeight(leaves, ms, freq, h, i + 1, if ChildOf(x, ms[i]) then ms[i].node else x, root);
    }
  }

  lemma LowIsShallow(leaves: set<nat>, ms: seq<Merge>, freq: seq<int>, h: seq<nat>, root: nat, max: nat)
    requires Rising(leaves, ms, freq, h) && Roots(leaves, ms) == {root} && root < |h| && h[root] <= max &&
             forall x :: x in leaves ==> x < |h|
    ensures Shallow(leaves, ms, max)
  {
    hide Rising;
    assert ms[..0] == [];
    assert Roots(leaves, []) == leaves;
    forall x | x in leaves ensures DepthOf(ms, 0, x) <= max { DepthHeight(leaves, ms, freq, h, 0, x, root); }
  }

  // ------------------------------------------------------------------ what an optimal code costs

  /** The depths of all nodes. */
  ghost function AllDepths(elems: nat, ms: seq<Merge>, n: nat): (d: seq<int>)
    ensures |d| == n
  {
    seq(n,
        x requires 0 <= x < n => if elems <= x < elems + |ms| then DepthOf(ms, x - elems + 1, x) else DepthOf(ms, 0, x))
  }

  lemma SonDepth(elems: nat, leaves: set<nat>, ms: seq<Merge>, freq: seq<int>, i: nat, x: nat)
    requires Numbered(elems, leaves, ms) && Greedy(leaves, ms, freq) && i < |ms| && ChildOf(x, ms[i]) && x < |freq| &&
             ms[i].node < |freq|
    ensures var d := AllDepths(elems, ms, |freq|); d[x] == d[ms[i].node] + 1 && 0 <= d[ms[i].node] < |ms|
  {
    hide Greedy, Roots;
    ChildKnown(elems, leaves, ms, freq, i, x);
    FatherAt(elems, leaves, ms, freq, if x in leaves then 0 else x - elems + 1, i, x);
    DepthBelow(ms, i + 1, ms[i].node);
  }

  predicate NodeDepth(d: seq<int>, m: Merge)
  {
    m.left < |d| && m.right < |d| && m.node < |d| && d[m.left] == d[m.right] == d[m.node] + 1
  }

  lemma DepthsAre(elems: nat, leaves: set<nat>, ms: seq<Merge>, freq: seq<int>)
    requires Numbered(elems, leaves, ms) && Greedy(leaves, ms, freq)
    ensures Depths(ms, AllDepths(elems, ms, |freq|), |ms| + 1)
    ensures forall i :: 0 <= i < |ms| ==> AllDepths(elems, ms, |freq|)[ms[i].node] != |ms| + 1
    ensures forall i :: 0 <= i < |ms| ==> NodeDepth(AllDepths(elems, ms, |freq|), ms[i])
  {
    hide Greedy;
    forall i | 0 <= i < |ms|
      ensures ms[i].left < |freq| && ms[i].right < |freq| && ms[i].node < |freq|
      ensures var d := AllDepths(elems, ms, |freq|);
              d[ms[i].left] == d[ms[i].right] == d[ms[i].node] + 1 && 0 <= d[ms[i].node] < |ms|
    {
      JoinAt(leaves, ms, freq, i);
      SonDepth(elems, leaves, ms, freq, i, ms[i].left);
      SonDepth(elems, leaves, ms, freq, i, ms[i].right);
    }
  }

  lemma {:induction false} ExcessNone(ms: seq<Merge>, len: seq<int>, max: nat)
    requires forall i :: 0 <= i < |ms| ==> ms[i].node < |len| && len[ms[i].node] != max
    ensures Excess(ms, len, max) == 0
    decreases |ms|
  {
    if ms != [] { ExcessNone(ms[..|ms| - 1], len, max); }
  }

  /** Optimal lengths cost exactly the weight of the inner nodes. */
  lemma OptimalCost(elems: nat, leaves: set<nat>, ms: seq<Merge>, freq: seq<int>, len: seq<int>, m: nat)
    requires Light16(elems, leaves, ms, freq) && ms != [] && Roots(leaves, ms) == {ms[|ms| - 1].node} && |len| == |freq|
    requires Optimal(leaves, freq, len) && Feasible(leaves, len, m)
    ensures Cost(leaves, freq, len) == InnerWeight(ms, freq)
  {
    hide Greedy, Cost, Roots, Feasible, Optimal, AllDepths;
    DepthsCost(elems, leaves, ms, freq);
    LowerBound(leaves, ms, freq, len, m);
    OptimalIs(leaves, freq, len, AllDepths(elems, ms, |freq|), |ms| + 1);
  }

  lemma DepthsCost(elems: nat, leaves: set<nat>, ms: seq<Merge>, freq: seq<int>)
    requires Light16(elems, leaves, ms, freq) && ms != [] && Roots(leaves, ms) == {ms[|ms| - 1].node}
    ensures Feasible(leaves, AllDepths(elems, ms, |freq|), |ms| + 1) &&
            Cost(leaves, freq, AllDepths(elems, ms, |freq|)) == InnerWeight(ms, freq)
  {
    hide Greedy, Roots, Feasible, Total, Depths, AllDepths;
    var d, root := AllDepths(elems, ms, |freq|), ms[|ms| - 1].node;
    DepthsAre(elems, leaves, ms, freq);
    DepthsFeasible(elems, leaves, ms, freq);
    forall i | 0 <= i < |ms|
      ensures ms[i].left < |d| && ms[i].right < |d| && ms[i].node < |d| &&
              d[ms[i].left] == d[ms[i].right] == d[ms[i].node] + 1
    {
      assert NodeDepth(d, ms[i]);
    }
    CostIsInnerWeight(leaves, ms, freq, d);
    RootWeight(freq, d, root);
  }

  lemma RootWeight(freq: seq<int>, d: seq<int>, root: nat)
    requires |freq| == |d| && root < |d| && d[root] == 0
    ensures Total({root}, Weights(freq, d)) == 0
  {
    SumSingle(root, Weights(freq, d), |d|);
    assert freq[root] * 0 == 0;
  }

  lemma OptimalIs(leaves: set<nat>, freq: seq<int>, len: seq<int>, other: seq<int>, m: nat)
    requires |freq| == |len| == |other| && Optimal(leaves, freq, len) && Feasible(leaves, other, m)
    ensures Cost(leaves, freq, len) <= Cost(leaves, freq, other)
  {
    hide Cost, Feasible;
  }

  lemma DepthsFeasible(elems: nat, leaves: set<nat>, ms: seq<Merge>, freq: seq<int>)
    requires Light16(elems, leaves, ms, freq) && ms != [] && Roots(leaves, ms) == {ms[|ms| - 1].node}
    ensures var d := AllDepths(elems, ms, |freq|); Feasible(leaves, d, |ms| + 1) && d[ms[|ms| - 1].node] == 0
  {
    hide Greedy, Roots, Excess, Total, Share;
    var d, m, root := AllDepths(elems, ms, |freq|), |ms| + 1, ms[|ms| - 1].node;
    DepthsAre(elems, leaves, ms, freq);
    ExcessNone(ms, d, m);
    KraftExcess(leaves, ms, freq, d, m);
    assert d[root] == DepthOf(ms, |ms|, root) == 0;
    ShareZero(m);
    SumOne(root, Shares(d, m));
    forall x | x in leaves ensures x < |d| && 0 <= d[x] <= m { DepthBelow(ms, 0, x); }
  }

  lemma SumOne(x: nat, g: seq<int>)
    requires x < |g|
    ensures Total({x}, g) == g[x]
  {
    SumSingle(x, g, |g|);
  }

  // ------------------------------------------------------------------ the limit

  /** Some optimal code has no length above `max`. */
  ghost predicate FitsLimit(leaves: set<nat>, freq: seq<int>, max: nat)
  {
    exists len: seq<int> :: |len| == |freq| && Feasible(leaves, len, max) && Optimal(leaves, freq, len)
  }

  /** If any optimal code keeps to the limit, the tree of the history does. */
  lemma FitsIsShallow(elems: nat, leaves: set<nat>, ms: seq<Merge>, freq: seq<int>, h: seq<nat>, max: nat)
    requires Light16(elems, leaves, ms, freq) && Ranked(leaves, ms, freq, h) && ms != [] &&
             Roots(leaves, ms) == {ms[|ms| - 1].node}
    requires FitsLimit(leaves, freq, max)
    ensures Shallow(leaves, ms, max)
  {
    hide Greedy, Roots, Optimal, Cost, TrueRound, Heavy;
    var len: seq<int> :| |len| == |freq| && Feasible(leaves, len, max) && Optimal(leaves, freq, len);
    TrueHeights(elems, leaves, ms, freq, h, |ms|);
    OptimalCost(elems, leaves, ms, freq, len, max);
    Lowest(leaves, ms, freq, h, len, max, max);
    LowIsShallow(leaves, ms, freq, h, ms[|ms| - 1].node, max);
  }
}
