/**
  trees.c, gen_bitlen: repairing the number of codes of each length after a cut, and handing the
  repaired lengths out again.
*/
module LimitLengths {
  import opened Bits
  import C = Canonical
  import opened Huffman
  import opened BuildTree
  import opened GenBitlen

  // ------------------------------------------------------------------ counts of codes by length

  /** Kraft sum of the counts for lengths 1..l, in units of length `l`. */
  function KraftOf(bl: seq<int>, l: nat): (k: int)
    requires l < |bl|
  {
    if l == 0 then 0 else 2 * KraftOf(bl, l - 1) + bl[l]
  }

  /** Number of codes with lengths 1..l. */
  function SizeOf(bl: seq<int>, l: nat): (n: int)
    requires l < |bl|
  {
    if l == 0 then 0 else SizeOf(bl, l - 1) + bl[l]
  }

  lemma {:induction false} KraftSet(bl: seq<int>, i: nat, v: int, l: nat)
    requires 1 <= i < |bl| && l < |bl|
    ensures KraftOf(bl[i := v], l) == KraftOf(bl, l) + if i <= l then (v - bl[i]) * Pow2(l - i) else 0
  {
    if l > 0 {
      KraftSet(bl, i, v, l - 1);
      if i < l { assert (v - bl[i]) * Pow2(l - i) == 2 * ((v - bl[i]) * Pow2(l - 1 - i)); }
      else if i == l { assert Pow2(0) == 1; }
    }
  }

  lemma {:induction false} SizeSet(bl: seq<int>, i: nat, v: int, l: nat)
    requires 1 <= i < |bl| && l < |bl|
    ensures SizeOf(bl[i := v], l) == SizeOf(bl, l) + if i <= l then v - bl[i] else 0
  {
    if l > 0 { SizeSet(bl, i, v, l - 1); }
  }

  lemma {:induction false} AllZero(bl: seq<int>, l: nat)
    requires l < |bl| && forall i :: 1 <= i <= l ==> bl[i] == 0
    ensures KraftOf(bl, l) == 0 && SizeOf(bl, l) == 0
  {
    if l > 0 { AllZero(bl, l - 1); }
  }

  /** One repair step: a leaf of length `bits` moves down and an overflowing one becomes its brother. */
  function Repaired(bl: seq<int>, bits: nat, max: nat): (r: seq<int>)
    requires 1 <= bits < max < |bl|
    ensures |r| == |bl|
  {
    var a := bl[bits := bl[bits] - 1];
    var b := a[bits + 1 := a[bits + 1] + 2];
    b[max := b[max] - 1]
  }

  lemma RepairIs(bl: seq<int>, bits: nat, max: nat)
    requires 1 <= bits < max < |bl|
    ensures var a := bl[bits := bl[bits] - 1];
            var b := a[bits + 1 := a[bits + 1] + 2];
            b[max := b[max] - 1] == Repaired(bl, bits, max)
  {
  }

  /** The greatest length in use up to `l`, zero if there is none. */
  function Deepest(bl: seq<int>, l: nat): (w: nat)
    requires l < |bl|
    ensures w <= l && (forall i :: w < i <= l ==> bl[i] == 0) && (w > 0 ==> bl[w] != 0)
  {
    if l == 0 then 0 else if bl[l] != 0 then l else Deepest(bl, l - 1)
  }

  /** The counts after `n` repairs: each splits a leaf of the greatest length in use below the limit. */
  function RepairAll(bl: seq<int>, max: nat, n: nat): (r: seq<int>)
    requires 1 <= max < |bl|
    decreases n
  {
    if n == 0 || Deepest(bl, max - 1) == 0 then bl else RepairAll(Repaired(bl, Deepest(bl, max - 1), max), max, n - 1)
  }

  lemma RepairNext(bl: seq<int>, max: nat, n: nat)
    requires 1 <= max < |bl| && n >= 1 && Deepest(bl, max - 1) > 0
    ensures RepairAll(Repaired(bl, Deepest(bl, max - 1), max), max, n - 1) == RepairAll(bl, max, n)
  {
    hide Repaired, Deepest;
  }

  lemma RepairNone(bl: seq<int>, max: nat)
    requires 1 <= max < |bl|
    ensures RepairAll(bl, max, 0) == bl
  {
  }

  lemma DeepestAt(bl: seq<int>, l: nat)
    requires l < |bl|
    ensures bl[l] != 0 ==> Deepest(bl, l) == l
    ensures l > 0 && bl[l] == 0 ==> Deepest(bl, l - 1) == Deepest(bl, l)
  {
  }

  /** Each step lowers the Kraft sum by one unit and keeps the number of codes. */
  lemma RepairStep(bl: seq<int>, bits: nat, max: nat)
    requires 1 <= bits < max < |bl|
    ensures KraftOf(Repaired(bl, bits, max), max) == KraftOf(bl, max) - 1
    ensures SizeOf(Repaired(bl, bits, max), max) == SizeOf(bl, max)
  {
    hide KraftOf, SizeOf;
    var a := bl[bits := bl[bits] - 1];
    var b := a[bits + 1 := a[bits + 1] + 2];
    KraftSet(bl, bits, bl[bits] - 1, max);
    KraftSet(a, bits + 1, a[bits + 1] + 2, max);
    KraftSet(b, max, b[max] - 1, max);
    SizeSet(bl, bits, bl[bits] - 1, max);
    SizeSet(a, bits + 1, a[bits + 1] + 2, max);
    SizeSet(b, max, b[max] - 1, max);
    assert Pow2(max - bits) == 2 * Pow2(max - bits - 1);
    assert Pow2(0) == 1;
  }

  /** While the Kraft sum is too large some code is shorter than the limit. */
  lemma ShorterExists(bl: seq<int>, max: nat) returns (w: nat)
    requires 1 <= max < |bl| && forall i :: 0 <= i < |bl| ==> bl[i] >= 0
    requires SizeOf(bl, max) <= Pow2(max) < KraftOf(bl, max)
    ensures 1 <= w < max && bl[w] > 0
  {
    if forall i :: 1 <= i <= max - 1 ==> bl[i] == 0 {
      AllZero(bl, max - 1);
    }
    w :| 1 <= w < max && bl[w] != 0;
  }

  ghost predicate Counts(bl: seq<int>, max: nat, size: int, kraft: int)
  {
    |bl| == C.MAX_BITS + 1 && 1 <= max <= C.MAX_BITS && (forall i :: 0 <= i < |bl| ==> bl[i] >= 0) && bl[0] == 0 &&
    (forall i :: max < i < |bl| ==> bl[i] == 0) && SizeOf(bl, max) == size && KraftOf(bl, max) == kraft
  }

  /** The repair loop: afterwards the counts satisfy the Kraft equality. */
  method LimitCounts(bl0: seq<int>, max: nat, overflow0: int, ghost size: int) returns (bl: seq<int>)
    requires overflow0 >= 2 && overflow0 % 2 == 0 && Counts(bl0, max, size, Pow2(max) + overflow0 / 2)
    requires size <= Pow2(max) && bl0[max] >= overflow0 / 2 + 1
    ensures Counts(bl, max, size, Pow2(max)) && max < |bl0| && bl == RepairAll(bl0, max, overflow0 / 2)
  {
    hide Pow2, KraftOf, SizeOf, RepairAll, Deepest, Repaired;
    var overflow := overflow0;
    bl := bl0;
    while overflow > 0
      invariant overflow >= 0 && overflow % 2 == 0 && Counts(bl, max, size, Pow2(max) + overflow / 2)
      invariant bl[max] >= overflow / 2 + 1 && RepairAll(bl, max, overflow / 2) == RepairAll(bl0, max, overflow0 / 2)
    {
      ghost var w := ShorterExists(bl, max);
      var bits := max - 1;
      while bl[bits] == 0
        invariant w <= bits < max && Deepest(bl, bits) == Deepest(bl, max - 1)
        decreases bits
      {
        DeepestAt(bl, bits);
        bits := bits - 1;
      }
      DeepestAt(bl, bits);
      RepairNext(bl, max, overflow / 2);
      RepairStep(bl, bits, max);
      ghost var was := bl;
      bl := bl[bits := bl[bits] - 1];
      bl := bl[bits + 1 := bl[bits + 1] + 2];
      bl := bl[max := bl[max] - 1];
      RepairIs(was, bits, max);
      overflow := overflow - 2;
    }
    RepairNone(bl, max);
  }

  // ------------------------------------------------------------------ sums over the leaves

  lemma {:induction false} SumLinear(r: set<nat>, g: seq<int>, a: seq<int>, b: seq<int>, n: nat)
    requires n <= |g| && n <= |a| && n <= |b| && forall i :: 0 <= i < n && i in r ==> g[i] == 2 * a[i] + b[i]
    ensures Sum(r, g, n) == 2 * Sum(r, a, n) + Sum(r, b, n)
  {
    if n > 0 { SumLinear(r, g, a, b, n - 1); }
  }

  ghost predicate LeafLengths(leaves: set<nat>, dl: seq<nat>, max: nat)
  {
    forall x :: x in leaves ==> x < |dl| && 1 <= dl[x] <= max
  }

  lemma ShareRec(x: nat, l: nat)
    requires x >= 1 && l >= 1
    ensures Share(x, l) == 2 * Share(x, l - 1) + if x == l then 1 else 0
  {
  }

  /** Counting by length gives the same Kraft sum as adding up the leaves. */
  lemma {:induction false} KraftByLength(leaves: set<nat>, dl: seq<nat>, bl: seq<int>, max: nat, l: nat)
    requires LeafLengths(leaves, dl, max) && l < |bl|
    requires forall i :: 1 <= i <= l ==> bl[i] == Total(leaves, AtLength(dl, i))
    ensures KraftOf(bl, l) == Total(leaves, Shares(dl, l))
    decreases l
  {
    hide Share;
    if l == 0 {
      forall i | 0 <= i < |dl| && i in leaves ensures Shares(dl, 0)[i] == 0 { ShareNone(dl[i]); }
      SumZero(leaves, Shares(dl, 0), |dl|);
    } else {
      KraftByLength(leaves, dl, bl, max, l - 1);
      forall i | 0 <= i < |dl| && i in leaves
        ensures Shares(dl, l)[i] == 2 * Shares(dl, l - 1)[i] + AtLength(dl, l)[i] {
        ShareRec(dl[i], l);
      }
      SumLinear(leaves, Shares(dl, l), Shares(dl, l - 1), AtLength(dl, l), |dl|);
    }
  }

  lemma ShareNone(x: nat)
    requires x >= 1
    ensures Share(x, 0) == 0
  {
  }

  lemma {:induction false} SumZero(r: set<nat>, g: seq<int>, n: nat)
    requires n <= |g| && forall i :: 0 <= i < |g| && i in r ==> g[i] == 0
    ensures Sum(r, g, n) == 0
  {
    if n > 0 { SumZero(r, g, n - 1); }
  }

  /** 1 for every node with a length from 1 to `l`. */
  ghost function UpTo(dl: seq<nat>, l: nat): (g: seq<int>)
    ensures |g| == |dl| && forall i :: 0 <= i < |dl| ==> g[i] == if 1 <= dl[i] <= l then 1 else 0
  {
    seq(|dl|, i requires 0 <= i < |dl| => if 1 <= dl[i] <= l then 1 else 0)
  }

  lemma {:induction false} SumAdd2(r: set<nat>, g: seq<int>, a: seq<int>, b: seq<int>, n: nat)
    requires n <= |g| && n <= |a| && n <= |b| && forall i :: 0 <= i < n && i in r ==> g[i] == a[i] + b[i]
    ensures Sum(r, g, n) == Sum(r, a, n) + Sum(r, b, n)
  {
    if n > 0 { SumAdd2(r, g, a, b, n - 1); }
  }

  lemma {:induction false} SizeByLength(leaves: set<nat>, dl: seq<nat>, bl: seq<int>, l: nat)
    requires l < |bl| && forall i :: 1 <= i <= l ==> bl[i] == Total(leaves, AtLength(dl, i))
    ensures SizeOf(bl, l) == Total(leaves, UpTo(dl, l))
    decreases l
  {
    if l == 0 {
      SumZero(leaves, UpTo(dl, 0), |dl|);
    } else {
      SizeByLength(leaves, dl, bl, l - 1);
      SumAdd2(leaves, UpTo(dl, l), UpTo(dl, l - 1), AtLength(dl, l), |dl|);
    }
  }

  ghost function Ones(n: nat): (g: seq<int>)
    ensures |g| == n && forall i :: 0 <= i < n ==> g[i] == 1
  {
    seq(n, i => 1)
  }

  lemma {:induction false} OnesBound(r: set<nat>, k: nat, n: nat, size: nat)
    requires n <= size && forall x :: x in r ==> x < k
    ensures 0 <= Sum(r, Ones(size), n) <= if n < k then n else k
  {
    if n > 0 { OnesBound(r, k, n - 1, size); }
  }

  lemma SizeOfLeaves(leaves: set<nat>, dl: seq<nat>, bl: seq<int>, max: nat, elems: nat)
    requires LeafLengths(leaves, dl, max) && max < |bl| && forall x :: x in leaves ==> x < elems
    requires forall i :: 1 <= i <= max ==> bl[i] == Total(leaves, AtLength(dl, i))
    ensures SizeOf(bl, max) == Total(leaves, Ones(|dl|)) <= elems
  {
    SizeByLength(leaves, dl, bl, max);
    SumSame(leaves, UpTo(dl, max), Ones(|dl|), |dl|);
    OnesBound(leaves, elems, |dl|, |dl|);
  }

  // ------------------------------------------------------------------ second pass: handing out lengths

  /** The list of nodes from the root down: no node twice, and exactly the leaves are symbols. */
  ghost predicate NodeList(order: seq<nat>, leaves: set<nat>, maxCode: nat, size: nat)
  {
    (forall i :: 0 <= i < |order| ==> order[i] < size && (order[i] <= maxCode <==> order[i] in leaves)) &&
    (forall i, j :: 0 <= i < j < |order| ==> order[i] != order[j]) &&
    forall x :: x in leaves ==> x < size && x in order
  }

  /** The leaves listed from position `h` on. */
  ghost function Tail(order: seq<nat>, leaves: set<nat>, h: nat): (t: set<nat>)
    requires h <= |order|
    ensures t <= leaves
  {
    set x | x in leaves && x in order[h..]
  }

  lemma TailStep(order: seq<nat>, leaves: set<nat>, maxCode: nat, size: nat, h: nat)
    requires NodeList(order, leaves, maxCode, size) && h < |order|
    ensures order[h] !in Tail(order, leaves, h + 1)
    ensures Tail(order, leaves, h)
            == if order[h] <= maxCode then Tail(order, leaves, h + 1) + {order[h]} else Tail(order, leaves, h + 1)
  {
    assert order[h..] == [order[h]] + order[h + 1..];
    assert order[h] !in order[h + 1..];
  }

  lemma TailEnds(order: seq<nat>, leaves: set<nat>, maxCode: nat, size: nat)
    requires NodeList(order, leaves, maxCode, size)
    ensures Tail(order, leaves, |order|) == {} && Tail(order, leaves, 0) == leaves
  {
    assert order[0..] == order;
  }

  /** Where node `p` of the list comes from. */
  lemma ListedFrom(order: seq<nat>, f: seq<nat>, dl: seq<nat>, elems: nat, leaves: set<nat>, ms: seq<Merge>, p: nat)
    returns (i: nat)
    requires Built(order, f, dl, elems, leaves, ms) && 1 <= p < |order|
    ensures i < |ms| && p == Pos(|ms|, i) + (if order[p] == ms[i].right then 0 else 1) && ChildOf(order[p], ms[i])
  {
    hide Built;
    BuiltSize(order, f, dl, elems, leaves, ms);
    i := |ms| - 1 - (p - 1) / 2;
    OrderAtBuilt(order, f, dl, elems, leaves, ms, i);
    BuiltShape(order, f, dl, elems, leaves, ms);
  }

  lemma NodeKinds(order: seq<nat>, f: seq<nat>, dl: seq<nat>, elems: nat, leaves: set<nat>, ms: seq<Merge>,
                  maxCode: nat, p: nat)
    requires Built(order, f, dl, elems, leaves, ms) && p < |order| && |f| == |dl|
    requires maxCode < elems && forall x :: x in leaves ==> x <= maxCode
    ensures order[p] < |dl| && (order[p] <= maxCode <==> order[p] in leaves)
    ensures p > 0 ==> order[p] != order[0]
  {
    hide Built;
    BuiltSize(order, f, dl, elems, leaves, ms);
    if p > 0 {
      var i := ListedFrom(order, f, dl, elems, leaves, ms, p);
      SonsAreLeaves(order, f, dl, elems, leaves, ms, i);
      SonsInside(order, f, dl, elems, leaves, ms, i);
    } else {
      SonsInside(order, f, dl, elems, leaves, ms, |ms| - 1);
    }
  }

  lemma SonsInside(order: seq<nat>, f: seq<nat>, dl: seq<nat>, elems: nat, leaves: set<nat>, ms: seq<Merge>, i: nat)
    requires Built(order, f, dl, elems, leaves, ms) && i < |ms|
    ensures ms[i].left < |dl| && ms[i].right < |dl| && ms[i].left < elems + i && ms[i].right < elems + i
    ensures elems <= ms[i].node == elems + i < |dl| && ms[|ms| - 1].node == elems + |ms| - 1
  {
    hide Roots, Greedy, Listed;
  }

  lemma ListedOnce(order: seq<nat>, f: seq<nat>, dl: seq<nat>, elems: nat, leaves: set<nat>, ms: seq<Merge>, p: nat,
                   q: nat)
    requires Built(order, f, dl, elems, leaves, ms) && 1 <= p < q < |order|
    ensures order[p] != order[q]
  {
    hide Built;
    var i := ListedFrom(order, f, dl, elems, leaves, ms, p);
    var j := ListedFrom(order, f, dl, elems, leaves, ms, q);
    BuiltShape(order, f, dl, elems, leaves, ms);
  }

  lemma LeafListed(order: seq<nat>, f: seq<nat>, dl: seq<nat>, elems: nat, leaves: set<nat>, ms: seq<Merge>, x: nat)
    requires Built(order, f, dl, elems, leaves, ms) && x in leaves
    ensures x in order && exists j :: 0 <= j < |ms| && ChildOf(x, ms[j])
  {
    LeafAccounted(leaves, ms, x);
    hide Built;
    var j := LeafFather(order, f, dl, elems, leaves, ms, x);
    OrderAtBuilt(order, f, dl, elems, leaves, ms, j);
  }

  lemma LeafFather(order: seq<nat>, f: seq<nat>, dl: seq<nat>, elems: nat, leaves: set<nat>, ms: seq<Merge>, x: nat)
    returns (j: nat)
    requires Built(order, f, dl, elems, leaves, ms) && x in leaves
    ensures j < |ms| && ChildOf(x, ms[j])
  {
    hide Greedy, Dads, Listed;
    LeafAccounted(leaves, ms, x);
    j :| 0 <= j < |ms| && ChildOf(x, ms[j]);
  }

  lemma BuiltList(order: seq<nat>, f: seq<nat>, dl: seq<nat>, elems: nat, leaves: set<nat>, ms: seq<Merge>,
                  maxCode: nat)
    requires Built(order, f, dl, elems, leaves, ms) && |f| == |dl|
    requires maxCode < elems && forall x :: x in leaves ==> x <= maxCode
    ensures NodeList(order, leaves, maxCode, |dl|)
  {
    hide Built;
    forall p | 0 <= p < |order| ensures order[p] < |dl| && (order[p] <= maxCode <==> order[p] in leaves) {
      NodeKinds(order, f, dl, elems, leaves, ms, maxCode, p);
    }
    forall p, q | 0 <= p < q < |order| ensures order[p] != order[q] {
      if p == 0 { NodeKinds(order, f, dl, elems, leaves, ms, maxCode, q); }
      else { ListedOnce(order, f, dl, elems, leaves, ms, p, q); }
    }
    forall x | x in leaves ensures x < |dl| && x in order {
      LeafListed(order, f, dl, elems, leaves, ms, x);
    }
  }

  /** How many leaves have been given length `l` when `n` more are due for `bits`. */
  function Given(bl: seq<int>, bits: nat, n: int, l: nat): (g: int)
    requires l < |bl|
  {
    if l > bits then bl[l] else if l == bits then bl[l] - n else 0
  }

  /** The leaves `done` have their final lengths, and each length was given as often as `bl` says. */
  ghost predicate Handed(done: set<nat>, dl: seq<nat>, bl: seq<int>, max: nat, bits: nat, n: int)
  {
    |bl| == C.MAX_BITS + 1 && max <= C.MAX_BITS && bits <= max &&
    (forall x :: x in done ==> x < |dl| && 1 <= dl[x] <= max) &&
    forall l :: 1 <= l <= C.MAX_BITS ==> Total(done, AtLength(dl, l)) == Given(bl, bits, n, l)
  }

  lemma HandStart(dl: seq<nat>, bl: seq<int>, max: nat)
    requires |bl| == C.MAX_BITS + 1 && 1 <= max <= C.MAX_BITS && forall l :: max < l <= C.MAX_BITS ==> bl[l] == 0
    ensures Handed({}, dl, bl, max, max, bl[max])
  {
    forall l | 1 <= l <= C.MAX_BITS ensures Total({}, AtLength(dl, l)) == 0 { SumEmpty(AtLength(dl, l), |dl|); }
  }

  lemma HandNext(done: set<nat>, dl: seq<nat>, bl: seq<int>, max: nat, bits: nat)
    requires Handed(done, dl, bl, max, bits, 0) && bits >= 1
    ensures Handed(done, dl, bl, max, bits - 1, bl[bits - 1])
  {
  }

  lemma HandLeaf(done: set<nat>, dl: seq<nat>, bl: seq<int>, max: nat, bits: nat, n: int, x: nat)
    requires Handed(done, dl, bl, max, bits, n) && x !in done && x < |dl| && bits >= 1
    ensures Handed(done + {x}, dl[x := bits], bl, max, bits, n - 1)
  {
    hide Total;
    AddLeaf(done, dl, x, bits, dl, [], 0);
    var done', dl' := done + {x}, dl[x := bits];
    forall l | 1 <= l <= C.MAX_BITS ensures Total(done', AtLength(dl', l)) == Given(bl, bits, n - 1, l) {
      assert Total(done, AtLength(dl, l)) == Given(bl, bits, n, l);
    }
  }

  lemma {:induction false} SizeMono(a: seq<int>, b: seq<int>, l: nat, k: nat)
    requires l < |a| && l < |b| && forall i :: 1 <= i <= l ==> a[i] <= b[i]
    ensures SizeOf(a, l) <= SizeOf(b, l)
    ensures 1 <= k <= l && a[k] < b[k] ==> SizeOf(a, l) < SizeOf(b, l)
    decreases l
  {
    if l > 0 { SizeMono(a, b, l - 1, k); }
  }

  ghost function GivenSeq(bl: seq<int>, bits: nat, n: int): (g: seq<int>)
    ensures |g| == |bl| && forall l :: 0 <= l < |bl| ==> g[l] == Given(bl, bits, n, l)
  {
    seq(|bl|, l requires 0 <= l < |bl| => Given(bl, bits, n, l))
  }

  /** The number of leaves done is the number of lengths given. */
  lemma HandedSize(done: set<nat>, dl: seq<nat>, bl: seq<int>, max: nat, bits: nat, n: int)
    requires Handed(done, dl, bl, max, bits, n)
    ensures SizeOf(GivenSeq(bl, bits, n), max) == Total(done, Ones(|dl|))
  {
    hide Given, Sum;
    SizeByLength(done, dl, GivenSeq(bl, bits, n), max);
    SumSame(done, UpTo(dl, max), Ones(|dl|), |dl|);
  }

  lemma {:induction false} OnesSubset(r: set<nat>, q: set<nat>, size: nat, n: nat, x: nat)
    requires n <= size && r <= q
    ensures Sum(r, Ones(size), n) <= Sum(q, Ones(size), n)
    ensures x < n && x in q && x !in r ==> Sum(r, Ones(size), n) < Sum(q, Ones(size), n)
  {
    if n > 0 { OnesSubset(r, q, size, n - 1, x); }
  }

  /** While a length is still due, some listed leaf is left. */
  lemma MoreLeft(leaves: set<nat>, done: set<nat>, dl: seq<nat>, bl: seq<int>, max: nat, bits: nat, n: int)
    requires Handed(done, dl, bl, max, bits, n) && 1 <= bits && n > 0 && forall i :: 0 <= i < |bl| ==> bl[i] >= 0
    requires SizeOf(bl, max) == Total(leaves, Ones(|dl|))
    ensures done != leaves
  {
    hide Total;
    HandedSize(done, dl, bl, max, bits, n);
    SizeMono(GivenSeq(bl, bits, n), bl, max, bits);
  }

  lemma AllDone(leaves: set<nat>, done: set<nat>, dl: seq<nat>, bl: seq<int>, max: nat)
    requires Handed(done, dl, bl, max, 0, 0) && |bl| > 0 && bl[0] == 0 && done <= leaves
    requires forall x :: x in leaves ==> x < |dl|
    requires SizeOf(bl, max) == Total(leaves, Ones(|dl|))
    ensures done == leaves
  {
    HandedSize(done, dl, bl, max, 0, 0);
    assert GivenSeq(bl, 0, 0) == bl;
    if x :| x in leaves && x !in done {
      OnesSubset(done, leaves, |dl|, |dl|, x);
    }
  }

  /** Changing the length of one leaf changes the cost by its frequency times the difference. */
  lemma Recost(leaves: set<nat>, f: seq<nat>, dl: seq<nat>, extra: seq<nat>, base: nat, x: nat, bits: nat)
    requires |f| == |dl| && x in leaves && x < |dl|
    ensures Total(leaves, CostSeq(f, dl[x := bits], extra, base))
         == Total(leaves, CostSeq(f, dl, extra, base)) + (bits - dl[x]) * f[x]
  {
    hide XBits;
    var e := XBits(extra, base, x);
    var v := f[x] * (bits + e);
    assert CostSeq(f, dl[x := bits], extra, base) == CostSeq(f, dl, extra, base)[x := v];
    SumUpdate(leaves, CostSeq(f, dl, extra, base), x, v, |dl|);
    CostDiff(f[x], bits, dl[x], e);
  }

  lemma CostDiff(f: int, a: int, b: int, e: int)
    ensures f * (a + e) - f * (b + e) == (a - b) * f
  {
    assert f * (a + e) == f * a + f * e;
    assert f * (b + e) == f * b + f * e;
  }

  /** Loop state of the second pass: the leaves from `h` on are done and the cost is kept exact. */
  ghost predicate Handing(order: seq<nat>, leaves: set<nat>, h: nat, dl: seq<nat>, f: seq<nat>, d: Desc, bl: seq<int>,
                          bits: nat, n: int, opt: int)
  {
    h <= |order| && |f| == |dl| && Handed(Tail(order, leaves, h), dl, bl, d.maxLength, bits, n) &&
    opt == Total(leaves, CostSeq(f, dl, d.extra, d.base))
  }

  lemma HandingSkip(order: seq<nat>, leaves: set<nat>, maxCode: nat, h: nat, dl: seq<nat>, f: seq<nat>, d: Desc,
                    bl: seq<int>, bits: nat, n: int, opt: int)
    requires Handing(order, leaves, h, dl, f, d, bl, bits, n, opt) && h >= 1 && order[h - 1] > maxCode
    requires NodeList(order, leaves, maxCode, |dl|)
    ensures Handing(order, leaves, h - 1, dl, f, d, bl, bits, n, opt)
  {
    hide NodeList, Handed, Total, Tail;
    TailStep(order, leaves, maxCode, |dl|, h - 1);
  }

  lemma HandingLeaf(order: seq<nat>, leaves: set<nat>, maxCode: nat, h: nat, dl: seq<nat>, f: seq<nat>, d: Desc,
                    bl: seq<int>, bits: nat, n: int, opt: int)
    requires Handing(order, leaves, h, dl, f, d, bl, bits, n, opt) && h >= 1 && order[h - 1] <= maxCode && bits >= 1
    requires NodeList(order, leaves, maxCode, |dl|)
    ensures order[h - 1] < |dl| && order[h - 1] in leaves
    ensures Handing(order, leaves, h - 1, dl[order[h - 1] := bits], f, d, bl, bits, n - 1,
                    opt + (bits - dl[order[h - 1]]) * f[order[h - 1]])
  {
    var x := order[h - 1];
    assert x in leaves && x < |dl|;
    hide NodeList, Handed, Total, Tail;
    TailStep(order, leaves, maxCode, |dl|, h - 1);
    HandLeaf(Tail(order, leaves, h), dl, bl, d.maxLength, bits, n, x);
    Recost(leaves, f, dl, d.extra, d.base, x, bits);
  }

  lemma HandingMore(order: seq<nat>, leaves: set<nat>, maxCode: nat, h: nat, dl: seq<nat>, f: seq<nat>, d: Desc,
                    bl: seq<int>, bits: nat, n: int, opt: int)
    requires Handing(order, leaves, h, dl, f, d, bl, bits, n, opt) && n > 0 && bits >= 1
    requires NodeList(order, leaves, maxCode, |dl|) && forall i :: 0 <= i < |bl| ==> bl[i] >= 0
    requires d.maxLength < |bl| && SizeOf(bl, d.maxLength) == Total(leaves, Ones(|dl|))
    ensures h >= 1 && order[h - 1] < |dl|
  {
    hide Handed, Total, Tail;
    TailEnds(order, leaves, maxCode, |dl|);
    MoreLeft(leaves, Tail(order, leaves, h), dl, bl, d.maxLength, bits, n);
  }

  lemma HandingDown(order: seq<nat>, leaves: set<nat>, h: nat, dl: seq<nat>, f: seq<nat>, d: Desc, bl: seq<int>,
                    bits: nat, opt: int)
    requires Handing(order, leaves, h, dl, f, d, bl, bits, 0, opt) && bits >= 1
    ensures |bl| == C.MAX_BITS + 1 && bits <= C.MAX_BITS &&
            Handing(order, leaves, h, dl, f, d, bl, bits - 1, bl[bits - 1], opt)
  {
    hide Total, Tail;
    HandNext(Tail(order, leaves, h), dl, bl, d.maxLength, bits);
  }

  /** The lengths are final: as many of each as `bl` says, all within the limit, and `opt` is their cost. */
  ghost predicate Limited(leaves: set<nat>, dl: seq<nat>, f: seq<nat>, d: Desc, bl: seq<int>, opt: int)
  {
    |f| == |dl| && |bl| == C.MAX_BITS + 1 && LeafLengths(leaves, dl, d.maxLength) &&
    (forall l :: 1 <= l <= C.MAX_BITS ==> bl[l] == Total(leaves, AtLength(dl, l))) &&
    opt == Total(leaves, CostSeq(f, dl, d.extra, d.base))
  }

  lemma HandingDone(order: seq<nat>, leaves: set<nat>, maxCode: nat, h: nat, dl: seq<nat>, f: seq<nat>, d: Desc,
                    bl: seq<int>, opt: int)
    requires Handing(order, leaves, h, dl, f, d, bl, 0, 0, opt) && NodeList(order, leaves, maxCode, |dl|) && |bl| > 0 &&
             bl[0] == 0
    requires d.maxLength < |bl| && SizeOf(bl, d.maxLength) == Total(leaves, Ones(|dl|))
    ensures Limited(leaves, dl, f, d, bl, opt) && h <= |order| && Tail(order, leaves, h) == leaves
  {
    hide Total, Tail;
    AllDone(leaves, Tail(order, leaves, h), dl, bl, d.maxLength);
  }

  /** Lengths outside `leaves` are untouched. */
  ghost predicate OnlyLeaves(leaves: set<nat>, dl: seq<nat>, dl': seq<nat>)
  {
    |dl'| == |dl| && forall i :: 0 <= i < |dl| && i !in leaves ==> dl'[i] == dl[i]
  }

  lemma OnlyLeavesSet(leaves: set<nat>, dl: seq<nat>, dl': seq<nat>, m: nat, v: nat)
    requires OnlyLeaves(leaves, dl, dl') && m in leaves && m < |dl|
    ensures OnlyLeaves(leaves, dl, dl'[m := v])
  {
  }

  /** Along the list the lengths given from `h` on do not fall, and they are `bits` at least. */
  ghost predicate InStep(order: seq<nat>, leaves: set<nat>, h: nat, dl: seq<nat>, bits: nat)
  {
    (forall i :: h <= i < |order| && order[i] in leaves ==> order[i] < |dl| && bits <= dl[order[i]]) &&
    forall i, j :: h <= i < j < |order| && order[i] in leaves && order[j] in leaves ==> dl[order[i]] <= dl[order[j]]
  }

  lemma InStepLeaf(order: seq<nat>, leaves: set<nat>, maxCode: nat, h: nat, dl: seq<nat>, bits: nat)
    requires InStep(order, leaves, h, dl, bits) && NodeList(order, leaves, maxCode, |dl|) && 1 <= h <= |order|
    ensures order[h - 1] < |dl| && InStep(order, leaves, h - 1, dl[order[h - 1] := bits], bits)
  {
  }

  lemma InStepSkip(order: seq<nat>, leaves: set<nat>, maxCode: nat, h: nat, dl: seq<nat>, bits: nat)
    requires InStep(order, leaves, h, dl, bits) && NodeList(order, leaves, maxCode, |dl|) && 1 <= h <= |order|
    requires order[h - 1] > maxCode
    ensures InStep(order, leaves, h - 1, dl, bits)
  {
  }

  lemma InStepDown(order: seq<nat>, leaves: set<nat>, h: nat, dl: seq<nat>, bits: nat)
    requires InStep(order, leaves, h, dl, bits) && bits >= 1
    ensures InStep(order, leaves, h, dl, bits - 1)
  {
  }

  lemma InStepAll(order: seq<nat>, leaves: set<nat>, maxCode: nat, h: nat, dl: seq<nat>)
    requires InStep(order, leaves, h, dl, 0) && NodeList(order, leaves, maxCode, |dl|) && h <= |order|
    requires Tail(order, leaves, h) == leaves
    ensures InStep(order, leaves, 0, dl, 0)
  {
    forall i | 0 <= i < |order| && order[i] in leaves ensures h <= i {
      assert order[i] in Tail(order, leaves, h);
    }
  }

  /** Hands out the length `bits` to the next `bl[bits]` leaves of the list, from the end. */
  method HandLength(order: seq<nat>, dl: array<nat>, fc: array<nat>, maxCode: nat, ghost d: Desc, bl: seq<int>,
                    bits: nat, h0: nat, opt0: int,
                    ghost leaves: set<nat>)
    returns (h: nat, opt: int)
    requires fc != dl && fc.Length == dl.Length && NodeList(order, leaves, maxCode, dl.Length)
    requires 1 <= bits <= d.maxLength < |bl| && SizeOf(bl, d.maxLength) == Total(leaves, Ones(dl.Length))
    requires forall i :: 0 <= i < |bl| ==> bl[i] >= 0
    requires Handing(order, leaves, h0, dl[..], fc[..], d, bl, bits, bl[bits], opt0) &&
             InStep(order, leaves, h0, dl[..], bits)
    modifies dl
    ensures Handing(order, leaves, h, dl[..], fc[..], d, bl, bits, 0, opt) && InStep(order, leaves, h, dl[..], bits)
    ensures OnlyLeaves(leaves, old(dl[..]), dl[..])
  {
    hide NodeList, Handing, Total, OnlyLeaves, SizeOf, InStep;
    OnlyLeavesRefl(leaves, dl[..]);
    h, opt := h0, opt0;
    var n := bl[bits];
    HandingSize(order, leaves, h, dl[..], fc[..], d, bl, bits, n, opt);
    while n != 0
      invariant 0 <= n && h <= |order|
      invariant Handing(order, leaves, h, dl[..], fc[..], d, bl, bits, n, opt) && InStep(order, leaves, h, dl[..], bits)
      invariant OnlyLeaves(leaves, old(dl[..]), dl[..])
      decreases h
    {
      ghost var was, f := dl[..], fc[..];
      HandingMore(order, leaves, maxCode, h, was, f, d, bl, bits, n, opt);
      h := h - 1;
      var m := order[h];
      if m > maxCode {
        HandingSkip(order, leaves, maxCode, h + 1, was, f, d, bl, bits, n, opt);
        InStepSkip(order, leaves, maxCode, h + 1, was, bits);
      } else {
        HandingLeaf(order, leaves, maxCode, h + 1, was, f, d, bl, bits, n, opt);
        InStepLeaf(order, leaves, maxCode, h + 1, was, bits);
        OnlyLeavesSet(leaves, old(dl[..]), was, m, bits);
        opt := GiveLength(dl, fc, m, bits, opt);
        n := n - 1;
      }
    }
  }

  lemma OnlyLeavesRefl(leaves: set<nat>, dl: seq<nat>)
    ensures OnlyLeaves(leaves, dl, dl)
  {
  }

  lemma OnlyLeavesTrans(leaves: set<nat>, a: seq<nat>, b: seq<nat>, c: seq<nat>)
    requires OnlyLeaves(leaves, a, b) && OnlyLeaves(leaves, b, c)
    ensures OnlyLeaves(leaves, a, c)
  {
  }

  lemma HandingSize(order: seq<nat>, leaves: set<nat>, h: nat, dl: seq<nat>, f: seq<nat>, d: Desc, bl: seq<int>,
                    bits: nat, n: int, opt: int)
    requires Handing(order, leaves, h, dl, f, d, bl, bits, n, opt)
    ensures h <= |order|
  {
  }

  /** Second pass of gen_bitlen: recomputes all lengths in increasing frequency from the repaired counts. */
  method HandOut(order: seq<nat>, dl: array<nat>, fc: array<nat>, maxCode: nat, d: Desc, bl: seq<int>, opt0: int,
                 ghost leaves: set<nat>, ghost size: int)
    returns (opt: int)
    requires fc != dl && fc.Length == dl.Length && NodeList(order, leaves, maxCode, dl.Length)
    requires 1 <= d.maxLength <= C.MAX_BITS && Counts(bl, d.maxLength, size, Pow2(d.maxLength)) &&
             size == Total(leaves, Ones(dl.Length))
    requires opt0 == Total(leaves, CostSeq(fc[..], dl[..], d.extra, d.base))
    modifies dl
    ensures Limited(leaves, dl[..], fc[..], d, bl, opt) && OnlyLeaves(leaves, old(dl[..]), dl[..])
    ensures InStep(order, leaves, 0, dl[..], 0)
  {
    hide NodeList, Handing, Handed, Total, Limited, SizeOf, KraftOf, Pow2, OnlyLeaves, InStep, Tail;
    opt := opt0;
    HandStart(dl[..], bl, d.maxLength);
    TailEnds(order, leaves, maxCode, dl.Length);
    HandingStart(order, leaves, dl[..], fc[..], d, bl, opt);
    InStepStart(order, leaves, dl[..], d.maxLength);
    OnlyLeavesRefl(leaves, dl[..]);
    var h: nat, bits: nat := |order|, d.maxLength;
    while bits != 0
      invariant 0 <= bits <= d.maxLength
      invariant Handing(order, leaves, h, dl[..], fc[..], d, bl, bits, bl[bits], opt)
      invariant h <= |order| && InStep(order, leaves, h, dl[..], bits)
      invariant OnlyLeaves(leaves, old(dl[..]), dl[..])
      decreases bits
    {
      ghost var was := dl[..];
      h, opt := HandLength(order, dl, fc, maxCode, d, bl, bits, h, opt, leaves);
      OnlyLeavesTrans(leaves, old(dl[..]), was, dl[..]);
      HandingDown(order, leaves, h, dl[..], fc[..], d, bl, bits, opt);
      HandingSize(order, leaves, h, dl[..], fc[..], d, bl, bits - 1, bl[bits - 1], opt);
      InStepDown(order, leaves, h, dl[..], bits);
      bits := bits - 1;
    }
    HandingDone(order, leaves, maxCode, h, dl[..], fc[..], d, bl, opt);
    InStepAll(order, leaves, maxCode, h, dl[..]);
  }

  lemma InStepStart(order: seq<nat>, leaves: set<nat>, dl: seq<nat>, bits: nat)
    ensures InStep(order, leaves, |order|, dl, bits)
  {
  }

  /** Gives symbol `m` the length `bits` and corrects the cost. */
  method GiveLength(dl: array<nat>, fc: array<nat>, m: nat, bits: nat, opt0: int) returns (opt: int)
    requires fc != dl && m < fc.Length && m < dl.Length
    modifies dl
    ensures dl[..] == old(dl[..])[m := bits] && opt == opt0 + (bits - old(dl[m])) * fc[m]
  {
    opt := opt0;
    SameLength(dl[..], fc[..], m, dl[m]);
    if dl[m] != bits {
      opt := opt + (bits - dl[m]) * fc[m];
      dl[m] := bits;
    }
  }

  lemma SameLength(dl: seq<nat>, f: seq<nat>, m: nat, bits: nat)
    requires m < |dl| && m < |f| && dl[m] == bits
    ensures (bits - dl[m]) * f[m] == 0 && dl[m := bits] == dl
  {
  }

  lemma HandingStart(order: seq<nat>, leaves: set<nat>, dl: seq<nat>, f: seq<nat>, d: Desc, bl: seq<int>, opt: int)
    requires |f| == |dl| && d.maxLength < |bl| && Tail(order, leaves, |order|) == {} &&
             Handed({}, dl, bl, d.maxLength, d.maxLength, bl[d.maxLength])
    requires opt == Total(leaves, CostSeq(f, dl, d.extra, d.base))
    ensures Handing(order, leaves, |order|, dl, f, d, bl, d.maxLength, bl[d.maxLength], opt)
  {
  }
}
