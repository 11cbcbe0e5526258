/**
  trees.c, gen_bitlen: depths of the Huffman tree, cut at a greatest length, and the repair of the
  lengths when something was cut.
*/
module GenBitlen {
  import opened Huffman
  import opened BuildTree
  import C = Canonical

  // ------------------------------------------------------------------ the list of nodes

  /** Position of the right son of merge `i` in the list of nodes; its left son follows. */
  function Pos(n: nat, i: int): (p: int) { 2 * (n - 1 - i) + 1 }

  lemma {:induction false} ListedAt(ms: seq<Merge>, i: nat)
    requires i < |ms|
    ensures Listed(ms)[Pos(|ms|, i) - 1] == ms[i].right && Listed(ms)[Pos(|ms|, i)] == ms[i].left
    decreases |ms|
  {
    if i < |ms| - 1 { ListedAt(ms[..|ms| - 1], i); }
  }

  lemma OrderAt(ms: seq<Merge>, order: seq<nat>, i: nat)
    requires |ms| >= 1 && order == [ms[|ms| - 1].node] + Listed(ms) && i < |ms|
    ensures |order| == 2 * |ms| + 1 && 1 <= Pos(|ms|, i) < |order| - 1
    ensures order[Pos(|ms|, i)] == ms[i].right && order[Pos(|ms|, i) + 1] == ms[i].left
  {
    hide Listed;
    ListedAt(ms, i);
  }

  /** No node is joined twice, and sons are numbered below their father. */
  ghost predicate TreeShape(elems: nat, ms: seq<Merge>)
  {
    |ms| >= 1 &&
    (forall i :: 0 <= i < |ms| ==>
       ms[i].node == elems + i && ms[i].left < elems + i && ms[i].right < elems + i && ms[i].left != ms[i].right) &&
    (forall i, j :: 0 <= i < j < |ms| ==> !ChildOf(ms[i].left, ms[j]) && !ChildOf(ms[i].right, ms[j])) &&
    forall i :: 0 <= i < |ms| - 1 ==> exists j :: i < j < |ms| && ChildOf(ms[i].node, ms[j])
  }

  lemma BuiltShape(order: seq<nat>, f: seq<nat>, dl: seq<nat>, elems: nat, leaves: set<nat>, ms: seq<Merge>)
    requires Built(order, f, dl, elems, leaves, ms)
    ensures TreeShape(elems, ms)
  {
    hide Roots, Greedy, Dads, Listed;
    forall i | 0 <= i < |ms| ensures ms[i].left != ms[i].right { GreedyAt(leaves, ms, f, i); }
    forall i, j | 0 <= i < j < |ms| ensures !ChildOf(ms[i].left, ms[j]) && !ChildOf(ms[i].right, ms[j]) {
      ChildOnce(elems, leaves, ms, f, i, j, ms[i].left);
      ChildOnce(elems, leaves, ms, f, i, j, ms[i].right);
    }
    forall i | 0 <= i < |ms| - 1 ensures exists j :: i < j < |ms| && ChildOf(ms[i].node, ms[j]) {
      Accounted(elems, leaves, ms, i);
    }
  }

  // ------------------------------------------------------------------ first pass: depths

  /** Sons of merges after `i` have their length, sons of earlier merges still their father;
      of merge `i` itself the right son is done when `half` is set. */
  ghost predicate Passed(ms: seq<Merge>, dl: seq<nat>, max: nat, i: int, half: bool)
  {
    -1 <= i < |ms| && (i == -1 ==> !half) && |ms| >= 1 &&
    (forall j :: 0 <= j < |ms| ==> ms[j].left < |dl| && ms[j].right < |dl| && ms[j].node < |dl|) &&
    dl[ms[|ms| - 1].node] == 0 &&
    (forall j :: i < j < |ms| ==> dl[ms[j].left] == dl[ms[j].right] == Cut(dl[ms[j].node] + 1, max)) &&
    (forall j :: 0 <= j < i ==> dl[ms[j].left] == dl[ms[j].right] == ms[j].node) &&
    (i >= 0 ==>
       dl[ms[i].left] == ms[i].node && dl[ms[i].right] == if half then Cut(dl[ms[i].node] + 1, max) else ms[i].node)
  }

  lemma PassStart(order: seq<nat>, f: seq<nat>, dl: seq<nat>, elems: nat, leaves: set<nat>, ms: seq<Merge>, max: nat)
    requires Built(order, f, dl, elems, leaves, ms)
    ensures order[0] == ms[|ms| - 1].node < |dl| && Passed(ms, dl[order[0] := 0], max, |ms| - 1, false)
  {
    hide Roots, Greedy, Listed;
  }

  lemma ParentOf(elems: nat, ms: seq<Merge>, k: nat) returns (j: nat)
    requires TreeShape(elems, ms) && k < |ms| - 1
    ensures k < j < |ms| && ChildOf(ms[k].node, ms[j])
  {
    j :| k < j < |ms| && ChildOf(ms[k].node, ms[j]);
  }

  lemma SonLength(ms: seq<Merge>, dl: seq<nat>, max: nat, i: int, half: bool, j: nat, x: nat)
    requires Passed(ms, dl, max, i, half) && i < j < |ms| && ChildOf(x, ms[j])
    ensures x < |dl| && dl[x] <= max
  {
  }

  lemma RootLength(ms: seq<Merge>, dl: seq<nat>, max: nat, i: int, half: bool)
    requires Passed(ms, dl, max, i, half)
    ensures |ms| >= 1 && ms[|ms| - 1].node < |dl| && dl[ms[|ms| - 1].node] == 0
    ensures forall j :: 0 <= j < |ms| ==> ms[j].left < |dl| && ms[j].right < |dl| && ms[j].node < |dl|
  {
  }

  /** The length of an inner node is known before its sons are visited, and is within the limit. */
  lemma NodeLength(elems: nat, ms: seq<Merge>, dl: seq<nat>, max: nat, i: int, half: bool, k: nat)
    requires TreeShape(elems, ms) && Passed(ms, dl, max, i, half) && i <= k < |ms|
    ensures ms[k].node < |dl| && dl[ms[k].node] <= max
  {
    hide TreeShape, Passed;
    RootLength(ms, dl, max, i, half);
    if k < |ms| - 1 {
      var j := ParentOf(elems, ms, k);
      SonLength(ms, dl, max, i, half, j, ms[k].node);
    }
  }

  /** Writing the length of a son of merge `i` disturbs no other son and no father from `i` on. */
  lemma WriteSon(elems: nat, ms: seq<Merge>, dl: seq<nat>, i: nat, x: nat, v: nat)
    requires TreeShape(elems, ms) && i < |ms| && ChildOf(x, ms[i]) && x < |dl|
    requires forall j :: 0 <= j < |ms| ==> ms[j].left < |dl| && ms[j].right < |dl| && ms[j].node < |dl|
    ensures forall j :: 0 <= j < |ms| && j != i ==>
                          dl[x := v][ms[j].left] == dl[ms[j].left] && dl[x := v][ms[j].right] == dl[ms[j].right]
    ensures forall j :: i <= j < |ms| ==> dl[x := v][ms[j].node] == dl[ms[j].node]
    ensures ms[i].left != ms[i].right
  {
    forall j | 0 <= j < |ms| && j != i ensures !ChildOf(x, ms[j]) {
      if j < i { assert !ChildOf(ms[j].left, ms[i]) && !ChildOf(ms[j].right, ms[i]); }
    }
  }

  lemma PassRight(elems: nat, ms: seq<Merge>, dl: seq<nat>, max: nat, i: nat)
    requires TreeShape(elems, ms) && i < |ms| && Passed(ms, dl, max, i, false)
    ensures ms[i].right < |dl| && ms[i].node < |dl| && dl[ms[i].right] == ms[i].node && dl[ms[i].node] <= max
    ensures Passed(ms, dl[ms[i].right := Cut(dl[ms[i].node] + 1, max)], max, i, true)
  {
    hide TreeShape, Cut;
    NodeLength(elems, ms, dl, max, i, false, i);
    WriteSon(elems, ms, dl, i, ms[i].right, Cut(dl[ms[i].node] + 1, max));
  }

  lemma PassLeft(elems: nat, ms: seq<Merge>, dl: seq<nat>, max: nat, i: nat)
    requires TreeShape(elems, ms) && i < |ms| && Passed(ms, dl, max, i, true)
    ensures ms[i].left < |dl| && ms[i].node < |dl| && dl[ms[i].left] == ms[i].node && dl[ms[i].node] <= max
    ensures Passed(ms, dl[ms[i].left := Cut(dl[ms[i].node] + 1, max)], max, i - 1, false)
  {
    hide TreeShape, Cut;
    NodeLength(elems, ms, dl, max, i, true, i);
    WriteSon(elems, ms, dl, i, ms[i].left, Cut(dl[ms[i].node] + 1, max));
  }

  lemma PassDone(elems: nat, ms: seq<Merge>, dl: seq<nat>, max: nat)
    requires TreeShape(elems, ms) && Passed(ms, dl, max, -1, false)
    ensures Depths(ms, dl, max)
  {
    hide TreeShape;
    forall k | 0 <= k < |ms| ensures 0 <= dl[ms[k].node] <= max { NodeLength(elems, ms, dl, max, -1, false, k); }
  }

  /** The number of inner nodes from merge `i` on that lie at the limit. */
  ghost function Over(ms: seq<Merge>, dl: seq<nat>, max: nat, i: nat): (o: nat)
    requires i <= |ms| && forall j :: 0 <= j < |ms| ==> ms[j].node < |dl|
    decreases |ms| - i
  {
    if i == |ms| then 0 else (if dl[ms[i].node] == max then 1 else 0) + Over(ms, dl, max, i + 1)
  }

  lemma {:induction false} OverFrame(ms: seq<Merge>, dl: seq<nat>, dl': seq<nat>, max: nat, i: nat)
    requires i <= |ms| && |dl'| == |dl| && forall j :: 0 <= j < |ms| ==> ms[j].node < |dl|
    requires forall j :: i <= j < |ms| ==> dl'[ms[j].node] == dl[ms[j].node]
    ensures Over(ms, dl', max, i) == Over(ms, dl, max, i)
    decreases |ms| - i
  {
    if i < |ms| { OverFrame(ms, dl, dl', max, i + 1); }
  }

  lemma {:induction false} OverIsExcess(ms: seq<Merge>, dl: seq<nat>, max: nat, i: nat)
    requires i <= |ms| && forall j :: 0 <= j < |ms| ==> ms[j].node < |dl|
    ensures Over(ms, dl, max, i) + Excess(ms[..i], dl, max) == Excess(ms, dl, max)
    decreases |ms| - i
  {
    if i == |ms| {
      assert ms[..i] == ms;
    } else {
      OverIsExcess(ms, dl, max, i + 1);
      var p := ms[..i + 1];
      assert p[..|p| - 1] == ms[..i];
    }
  }

  // ------------------------------------------------------------------ first pass: statistics

  /** Extra bits sent after the code of symbol `n`. */
  function XBits(extra: seq<nat>, base: nat, n: nat): (x: nat)
  {
    if base <= n < base + |extra| then extra[n - base] else 0
  }

  /** Bits spent on each node at the lengths `dl`, including extra bits. */
  ghost function CostSeq(f: seq<nat>, dl: seq<nat>, extra: seq<nat>, base: nat): (g: seq<int>)
    requires |f| == |dl|
    ensures |g| == |dl|
    ensures forall i :: 0 <= i < |g| ==> g[i] == f[i] * (dl[i] + XBits(extra, base, i))
  {
    seq(|dl|, i requires 0 <= i < |dl| => f[i] * (dl[i] + XBits(extra, base, i)))
  }

  /** A leaf reached for the first time adds its own entry and changes no other. */
  lemma AddLeaf(done: set<nat>, dl: seq<nat>, x: nat, v: nat, f: seq<nat>, extra: seq<nat>, base: nat)
    requires x < |dl| == |f| && x !in done
    ensures forall l ::
              Total(done + {x}, AtLength(dl[x := v], l)) == Total(done, AtLength(dl, l)) + if v == l then 1 else 0
    ensures Total(done + {x}, CostSeq(f, dl[x := v], extra, base))
         == Total(done, CostSeq(f, dl, extra, base)) + f[x] * (v + XBits(extra, base, x))
  {
    hide XBits;
    var dl' := dl[x := v];
    forall l ensures Total(done + {x}, AtLength(dl', l)) == Total(done, AtLength(dl, l)) + if v == l then 1 else 0 {
      SumAdd(done, x, AtLength(dl', l), |dl|);
      SumSame(done, AtLength(dl', l), AtLength(dl, l), |dl|);
    }
    SumAdd(done, x, CostSeq(f, dl', extra, base), |dl|);
    SumSame(done, CostSeq(f, dl', extra, base), CostSeq(f, dl, extra, base), |dl|);
  }

  lemma SkipNode(done: set<nat>, dl: seq<nat>, x: nat, v: nat, f: seq<nat>, extra: seq<nat>, base: nat)
    requires x < |dl| == |f| && x !in done
    ensures forall l :: Total(done, AtLength(dl[x := v], l)) == Total(done, AtLength(dl, l))
    ensures Total(done, CostSeq(f, dl[x := v], extra, base)) == Total(done, CostSeq(f, dl, extra, base))
  {
    hide XBits;
    var dl' := dl[x := v];
    forall l ensures Total(done, AtLength(dl', l)) == Total(done, AtLength(dl, l)) {
      SumSame(done, AtLength(dl', l), AtLength(dl, l), |dl|);
    }
    SumSame(done, CostSeq(f, dl', extra, base), CostSeq(f, dl, extra, base), |dl|);
  }

  /** Node `x` has been visited. */
  ghost predicate Seen(ms: seq<Merge>, i: int, half: bool, x: nat)
  {
    (exists j :: i < j < |ms| && 0 <= j && ChildOf(x, ms[j])) || (half && 0 <= i < |ms| && x == ms[i].right)
  }

  lemma SeenRight(elems: nat, ms: seq<Merge>, i: nat)
    requires TreeShape(elems, ms) && i < |ms|
    ensures !Seen(ms, i, false, ms[i].right)
    ensures forall x :: Seen(ms, i, true, x) <==> Seen(ms, i, false, x) || x == ms[i].right
  {
  }

  lemma SeenLeft(elems: nat, ms: seq<Merge>, i: nat)
    requires TreeShape(elems, ms) && i < |ms|
    ensures !Seen(ms, i, true, ms[i].left)
    ensures forall x :: Seen(ms, i - 1, false, x) <==> Seen(ms, i, true, x) || x == ms[i].left
  {
    forall x ensures Seen(ms, i - 1, false, x) <==> Seen(ms, i, true, x) || x == ms[i].left {
      if Seen(ms, i, true, x) || x == ms[i].left {
        if j :| i < j < |ms| && ChildOf(x, ms[j]) { } else { assert ChildOf(x, ms[i]); }
      }
    }
  }

  ghost function DoneLeaves(leaves: set<nat>, ms: seq<Merge>, i: int, half: bool): (d: set<nat>)
  {
    set x | x in leaves && Seen(ms, i, half, x)
  }

  lemma DoneStep(elems: nat, leaves: set<nat>, ms: seq<Merge>, i: nat)
    requires TreeShape(elems, ms) && i < |ms|
    ensures ms[i].right !in DoneLeaves(leaves, ms, i, false) && ms[i].left !in DoneLeaves(leaves, ms, i, true)
    ensures DoneLeaves(leaves, ms, i, true)
         == if ms[i].right in leaves then DoneLeaves(leaves, ms, i, false) + {ms[i].right}
            else DoneLeaves(leaves, ms, i, false)
    ensures DoneLeaves(leaves, ms, i - 1, false)
         == if ms[i].left in leaves then DoneLeaves(leaves, ms, i, true) + {ms[i].left}
            else DoneLeaves(leaves, ms, i, true)
  {
    hide TreeShape, Seen;
    SeenRight(elems, ms, i);
    SeenLeft(elems, ms, i);
  }

  lemma DoneEnds(order: seq<nat>, f: seq<nat>, dl: seq<nat>, elems: nat, leaves: set<nat>, ms: seq<Merge>)
    requires Built(order, f, dl, elems, leaves, ms)
    ensures DoneLeaves(leaves, ms, |ms| - 1, false) == {} && DoneLeaves(leaves, ms, -1, false) == leaves
  {
    hide Greedy, Dads, Listed;
    forall x | x in leaves ensures Seen(ms, -1, false, x) {
      LeafAccounted(leaves, ms, x);
    }
  }

  /** Every joined node below `elems` is a leaf. */
  lemma SonsAreLeaves(order: seq<nat>, f: seq<nat>, dl: seq<nat>, elems: nat, leaves: set<nat>, ms: seq<Merge>, i: nat)
    requires Built(order, f, dl, elems, leaves, ms) && i < |ms|
    ensures (ms[i].left < elems ==> ms[i].left in leaves) && (ms[i].right < elems ==> ms[i].right in leaves)
  {
    hide Dads, Listed;
    GreedyAt(leaves, ms, f, i);
    assert Numbered(elems, leaves, ms[..i]);
    RootsBelow(elems, leaves, ms[..i]);
  }

  /** What a tree descriptor says about a kind of tree. */
  datatype Desc = Desc(extra: seq<nat>, base: nat, stree: seq<nat>, maxLength: nat)

  function Static(d: Desc, n: nat): (l: nat) { if n < |d.stree| then d.stree[n] else 0 }

  ghost function StaticLens(d: Desc, n: nat): (s: seq<nat>)
    ensures |s| == n && forall i :: 0 <= i < n ==> s[i] == Static(d, i)
  {
    seq(n, i requires 0 <= i < n => Static(d, i))
  }

  /** The running statistics describe exactly the leaves in `done`. */
  ghost predicate Stats(done: set<nat>, dl: seq<nat>, f: seq<nat>, d: Desc, bl: seq<nat>, opt: int, stat: int)
  {
    |f| == |dl| && |bl| == C.MAX_BITS + 1 &&
    (forall l :: 0 <= l <= C.MAX_BITS ==> bl[l] == Total(done, AtLength(dl, l))) &&
    opt == Total(done, CostSeq(f, dl, d.extra, d.base)) &&
    stat == Total(done, CostSeq(f, StaticLens(d, |dl|), d.extra, d.base))
  }

  lemma StatsLeaf(done: set<nat>, dl: seq<nat>, f: seq<nat>, d: Desc, bl: seq<nat>, opt: int, stat: int, x: nat, v: nat)
    requires Stats(done, dl, f, d, bl, opt, stat) && x < |dl| && x !in done && v <= C.MAX_BITS
    ensures Stats(done + {x}, dl[x := v], f, d, bl[v := bl[v] + 1],
                  opt + f[x] * (v + XBits(d.extra, d.base, x)),
                  stat + f[x] * (Static(d, x) + XBits(d.extra, d.base, x)))
  {
    hide XBits, Total, Static;
    AddLeaf(done, dl, x, v, f, d.extra, d.base);
    StaticLeaf(done, |dl|, f, d, x);
  }

  lemma StaticLeaf(done: set<nat>, n: nat, f: seq<nat>, d: Desc, x: nat)
    requires x < n == |f| && x !in done
    ensures Total(done + {x}, CostSeq(f, StaticLens(d, n), d.extra, d.base))
         == Total(done,
                  CostSeq(f, StaticLens(d, n), d.extra, d.base)) + f[x] * (Static(d, x) + XBits(d.extra, d.base, x))
  {
    SumAdd(done, x, CostSeq(f, StaticLens(d, n), d.extra, d.base), n);
  }

  lemma StatsSkip(done: set<nat>, dl: seq<nat>, f: seq<nat>, d: Desc, bl: seq<nat>, opt: int, stat: int, x: nat, v: nat)
    requires Stats(done, dl, f, d, bl, opt, stat) && x < |dl| && x !in done
    ensures Stats(done, dl[x := v], f, d, bl, opt, stat)
  {
    hide XBits, Total, Static;
    SkipNode(done, dl, x, v, f, d.extra, d.base);
  }

  lemma StatsStart(dl: seq<nat>, f: seq<nat>, d: Desc)
    requires |f| == |dl|
    ensures Stats({}, dl, f, d, [0, 0, 0, 0, 0, 0, 0, 0, 0, 0, 0, 0, 0, 0, 0, 0], 0, 0)
  {
    forall l ensures Total({}, AtLength(dl, l)) == 0 { SumEmpty(AtLength(dl, l), |dl|); }
    SumEmpty(CostSeq(f, dl, d.extra, d.base), |dl|);
    SumEmpty(CostSeq(f, StaticLens(d, |dl|), d.extra, d.base), |dl|);
  }

  /** Visits one node of the list: sets its length, and counts it if it is a leaf. */
  method VisitNode(n: nat, dl: array<nat>, fc: array<nat>, maxCode: nat, d: Desc, bl0: seq<nat>, over0: nat, opt0: int,
                   stat0: int,
                   ghost done: set<nat>)
    returns (bl: seq<nat>, over: nat, opt: int, stat: int)
    requires fc != dl && fc.Length == dl.Length && n < dl.Length && dl[n] < dl.Length &&
             dl[dl[n]] <= d.maxLength <= C.MAX_BITS
    requires Stats(done, dl[..], fc[..], d, bl0, opt0, stat0) && n !in done
    modifies dl
    ensures dl[..] == old(dl[..])[n := Cut(old(dl[dl[n]]) + 1, d.maxLength)]
    ensures Stats(if n <= maxCode then done + {n} else done, dl[..], fc[..], d, bl, opt, stat)
    ensures over == over0 + if old(dl[dl[n]]) == d.maxLength then 1 else 0
  {
    hide Stats;
    ghost var s := dl[..];
    bl, over, opt, stat := bl0, over0, opt0, stat0;
    StatsShape(done, s, fc[..], d, bl, opt, stat);
    var bits := dl[dl[n]] + 1;
    if bits > d.maxLength { bits, over := d.maxLength, over + 1; }
    dl[n] := bits;
    if n > maxCode {
      StatsSkip(done, s, fc[..], d, bl, opt, stat, n, bits);
    } else {
      StatsLeaf(done, s, fc[..], d, bl, opt, stat, n, bits);
      var xbits := XBits(d.extra, d.base, n);
      bl := bl[bits := bl[bits] + 1];
      opt := opt + fc[n] * (bits + xbits);
      stat := stat + fc[n] * (Static(d, n) + xbits);
    }
  }

  lemma StatsShape(done: set<nat>, dl: seq<nat>, f: seq<nat>, d: Desc, bl: seq<nat>, opt: int, stat: int)
    requires Stats(done, dl, f, d, bl, opt, stat)
    ensures |bl| == C.MAX_BITS + 1 && |f| == |dl|
  {
  }

  /** The loop state of the first pass. */
  ghost predicate Visiting(elems: nat, leaves: set<nat>, ms: seq<Merge>, dl: seq<nat>, f: seq<nat>, d: Desc,
                           i: int, half: bool, bl: seq<nat>, over: nat, opt: int, stat: int)
  {
    Passed(ms, dl, d.maxLength, i, half) && Stats(DoneLeaves(leaves, ms, i, half), dl, f, d, bl, opt, stat) &&
    over == 2 * Over(ms, dl, d.maxLength, i + 1) + if half && dl[ms[i].node] == d.maxLength then 1 else 0
  }

  /** First pass of gen_bitlen: optimal lengths cut at the limit, with their statistics. */
  method FirstPass(order: seq<nat>, dl: array<nat>, fc: array<nat>, maxCode: nat, d: Desc,
                   ghost elems: nat, ghost leaves: set<nat>, ghost ms: seq<Merge>)
    returns (bl: seq<nat>, over: nat, opt: int, stat: int)
    requires fc != dl && fc.Length == dl.Length && 1 <= d.maxLength <= C.MAX_BITS
    requires Built(order, fc[..], dl[..], elems, leaves, ms)
    requires maxCode < elems && forall x :: x in leaves ==> x <= maxCode
    modifies dl
    ensures Visiting(elems, leaves, ms, dl[..], fc[..], d, -1, false, bl, over, opt, stat)
    ensures forall i :: 0 <= i < dl.Length && i < elems && i !in leaves ==> dl[i] == old(dl[i])
  {
    hide Built, Stats, Passed, DoneLeaves, TreeShape, Over;
    ghost var f, s0 := fc[..], dl[..];
    BuiltShape(order, f, s0, elems, leaves, ms);
    DoneEnds(order, f, s0, elems, leaves, ms);
    PassStart(order, f, s0, elems, leaves, ms, d.maxLength);
    BuiltSize(order, f, s0, elems, leaves, ms);
    dl[order[0]] := 0;
    bl, over, opt, stat := [0, 0, 0, 0, 0, 0, 0, 0, 0, 0, 0, 0, 0, 0, 0, 0], 0, 0, 0;
    StatsStart(dl[..], f, d);
    assert dl[..] == s0[order[0] := 0];
    RootLength(ms, dl[..], d.maxLength, |ms| - 1, false);
    OverStart(ms, dl[..], d.maxLength);
    ghost var i: int, half := |ms| - 1, false;
    var h := 1;
    while h < |order|
      invariant -1 <= i < |ms| && (i == -1 ==> !half) && h == Pos(|ms|, i) + (if half then 1 else 0) <= |order|
      invariant Visiting(elems, leaves, ms, dl[..], f, d, i, half, bl, over, opt, stat)
      invariant fc[..] == f
      invariant forall k :: 0 <= k < dl.Length && k < elems && k !in leaves ==> dl[k] == old(dl[k])
    {
      ghost var s := dl[..];
      OrderAtBuilt(order, f, s0, elems, leaves, ms, i);
      SonsAreLeaves(order, f, s0, elems, leaves, ms, i);
      DoneStep(elems, leaves, ms, i);
      if half { PassLeft(elems, ms, s, d.maxLength, i); } else { PassRight(elems, ms, s, d.maxLength, i); }
      bl, over, opt, stat := VisitNode(order[h], dl, fc, maxCode, d, bl, over, opt, stat,
                                       DoneLeaves(leaves, ms, i, half));
      RootLength(ms, s, d.maxLength, i, half);
      WriteSon(elems, ms, s, i, order[h], Cut(s[ms[i].node] + 1, d.maxLength));
      OverStep(ms, s, dl[..], d.maxLength, i);
      if half { i, half := i - 1, false; } else { half := true; }
      h := h + 1;
    }
  }

  lemma BuiltSize(order: seq<nat>, f: seq<nat>, dl: seq<nat>, elems: nat, leaves: set<nat>, ms: seq<Merge>)
    requires Built(order, f, dl, elems, leaves, ms)
    ensures |ms| >= 1 && |order| == 2 * |ms| + 1 && order[0] == ms[|ms| - 1].node >= elems
  {
  }

  lemma OrderAtBuilt(order: seq<nat>, f: seq<nat>, dl: seq<nat>, elems: nat, leaves: set<nat>, ms: seq<Merge>, i: nat)
    requires Built(order, f, dl, elems, leaves, ms) && i < |ms|
    ensures 1 <= Pos(|ms|, i) < |order| - 1
    ensures order[Pos(|ms|, i)] == ms[i].right && order[Pos(|ms|, i) + 1] == ms[i].left
  {
    OrderAt(ms, order, i);
  }

  lemma OverStart(ms: seq<Merge>, dl: seq<nat>, max: nat)
    requires forall j :: 0 <= j < |ms| ==> ms[j].node < |dl|
    ensures Over(ms, dl, max, |ms|) == 0
  {
  }

  lemma OverStep(ms: seq<Merge>, dl: seq<nat>, dl': seq<nat>, max: nat, i: nat)
    requires i < |ms| && |dl'| == |dl| && forall j :: 0 <= j < |ms| ==> ms[j].node < |dl|
    requires forall j :: i <= j < |ms| ==> dl'[ms[j].node] == dl[ms[j].node]
    ensures Over(ms, dl', max, i + 1) == Over(ms, dl, max, i + 1)
    ensures Over(ms, dl', max, i) == Over(ms, dl, max, i + 1) + if dl[ms[i].node] == max then 1 else 0
  {
    OverFrame(ms, dl, dl', max, i + 1);
  }
}
