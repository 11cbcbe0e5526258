/**
  trees.c, build_tree up to the point where the fields Freq and Dad are set: collecting the used
  symbols, forcing two of them, and joining the two least frequent nodes until one is left.
*/
module BuildTree {
  import opened Heap
  import opened Huffman
  import opened Ranks

  const HEAP_SIZE: nat := 573

  /** The symbols with a non-zero frequency. */
  ghost function Leaves(f: seq<nat>, n: nat): (s: set<nat>)
    requires n <= |f|
  {
    set i | 0 <= i < n && f[i] != 0
  }

  /** The largest used symbol, or -1. */
  ghost predicate IsMaxCode(f: seq<nat>, n: nat, m: int)
    requires n <= |f|
  {
    -1 <= m < n && (m >= 0 ==> f[m] != 0) && forall i :: m < i < n ==> f[i] == 0
  }

  ghost predicate Ascending(h: seq<nat>, len: nat)
  {
    len < |h| && forall i, j :: 1 <= i < j <= len ==> h[i] < h[j]
  }

  /** Puts every used symbol in the heap array and clears the length of the others. */
  method CollectSymbols(fc: array<nat>, dl: array<nat>, depth: array<nat>, heap: array<nat>, elems: nat)
    returns (heapLen: nat, maxCode: int)
    requires elems <= fc.Length && elems <= dl.Length && elems <= depth.Length && elems < heap.Length
    requires fc != dl && fc != depth && fc != heap && dl != depth && dl != heap && depth != heap
    modifies dl, depth, heap
    ensures heapLen <= elems && IsMaxCode(fc[..], elems, maxCode)
    ensures Ascending(heap[..], heapLen) && Elems(heap[..], heapLen) == Leaves(fc[..], elems)
    ensures forall i :: 0 <= i < elems && fc[i] == 0 ==> dl[i] == 0
    ensures forall i :: elems <= i < dl.Length ==> dl[i] == old(dl[i])
    ensures heapLen >= 1 ==> maxCode >= 0 && heap[heapLen] == maxCode
    ensures heapLen == 0 ==> maxCode == -1
    ensures forall i :: 0 <= i < elems && fc[i] != 0 ==> depth[i] == 0
  {
    hide Elems, Leaves;
    heapLen, maxCode := 0, -1;
    NothingYet(heap[..], fc[..]);
    var n := 0;
    while n < elems
      invariant 0 <= n <= elems && heapLen <= n && IsMaxCode(fc[..], n, maxCode)
      invariant Ascending(heap[..], heapLen) && Elems(heap[..], heapLen) == Leaves(fc[..], n)
      invariant forall i :: 1 <= i <= heapLen ==> heap[i] < n
      invariant forall i :: 0 <= i < n && fc[i] == 0 ==> dl[i] == 0
      invariant forall i :: 0 <= i < n && fc[i] != 0 ==> depth[i] == 0
      invariant forall i :: n <= i < dl.Length ==> dl[i] == old(dl[i])
      invariant heapLen >= 1 ==> maxCode >= 0 && heap[heapLen] == maxCode
      invariant heapLen == 0 ==> maxCode == -1
    {
      LeavesStep(fc[..], n);
      if fc[n] != 0 {
        ghost var h := heap[..];
        heapLen := heapLen + 1;
        heap[heapLen] := n;
        ElemsPush(h, heap[..], heapLen - 1);
        maxCode := n;
        depth[n] := 0;
      } else {
        dl[n] := 0;
      }
      n := n + 1;
    }
  }

  lemma NothingYet(h: seq<nat>, f: seq<nat>)
    requires |h| > 0
    ensures Elems(h, 0) == {} == Leaves(f, 0)
  {
  }

  lemma LeavesStep(f: seq<nat>, n: nat)
    requires n < |f|
    ensures Leaves(f, n + 1) == Leaves(f, n) + if f[n] != 0 then {n} else {}
  {
  }

  lemma ElemsPush(h: seq<nat>, h': seq<nat>, len: nat)
    requires |h| == |h'| && len + 1 < |h| && forall i :: 1 <= i <= len ==> h'[i] == h[i]
    ensures Elems(h', len + 1) == Elems(h, len) + {h'[len + 1]}
  {
    forall x | x in Elems(h, len) ensures x in Elems(h', len + 1) {
      var i :| 1 <= i <= len && h[i] == x;
      assert h'[i] == x;
    }
  }

  /** Which symbol the forcing loop takes next: the one after a small largest code, or symbol 0. */
  function Forced(maxCode: int): (n: nat)
    requires maxCode >= -1
  {
    if maxCode < 2 then maxCode + 1 else 0
  }

  /** Length of the forced symbols in the static tree, to be taken off static_len. */
  function StaticOf(stree: seq<nat>, forced: seq<nat>): (n: nat)
    requires forall i :: 0 <= i < |forced| ==> forced[i] < |stree|
  {
    if forced == [] then 0 else stree[forced[|forced| - 1]] + StaticOf(stree, forced[..|forced| - 1])
  }

  lemma StaticNone(stree: seq<nat>)
    ensures StaticOf(stree, []) == 0
  {
  }

  lemma StaticStep(stree: seq<nat>, forced: seq<nat>, x: nat)
    requires x < |stree| && forall i :: 0 <= i < |forced| ==> forced[i] < |stree|
    ensures StaticOf(stree, forced + [x]) == StaticOf(stree, forced) + stree[x]
  {
    assert (forced + [x])[..|forced|] == forced;
  }

  /** What forcing has done so far: `forced` lists the new symbols, each with frequency one. */
  ghost predicate Forcing(f0: seq<nat>, f: seq<nat>, forced: seq<nat>)
  {
    |f| == |f0| &&
    (forall i :: 0 <= i < |forced| ==> forced[i] < 3 && forced[i] < |f| && f0[forced[i]] == 0 && f[forced[i]] == 1) &&
    (forall i, j :: 0 <= i < j < |forced| ==> forced[i] != forced[j]) &&
    forall i :: 0 <= i < |f| && i !in forced ==> f[i] == f0[i]
  }

  ghost predicate HeapHolds(h: seq<nat>, len: nat, f: seq<nat>, d: seq<nat>, elems: nat)
  {
    elems <= |f| && Nodes(h, len, f, d) && Elems(h, len) == Leaves(f, elems)
  }

  /** Forces at least two codes of non-zero frequency, correcting the bit lengths for them. */
  method ForceTwo(fc: array<nat>, depth: array<nat>, heap: array<nat>, elems: nat, stree: seq<nat>,
                  heapLen0: nat, maxCode0: int, optLen0: int, staticLen0: int)
    returns (heapLen: nat, maxCode: int, optLen: int, staticLen: int, ghost forced: seq<nat>)
    requires 3 <= elems <= fc.Length && elems <= depth.Length && elems + 2 < heap.Length && heapLen0 <= elems
    requires fc != depth && fc != heap && depth != heap && (stree != [] ==> |stree| >= 3)
    requires IsMaxCode(fc[..], elems, maxCode0) && HeapHolds(heap[..], heapLen0, fc[..], depth[..], elems)
    requires heapLen0 >= 1 ==> maxCode0 >= 0 && heap[heapLen0] == maxCode0
    requires heapLen0 == 0 ==> maxCode0 == -1
    requires forall i :: 0 <= i < elems && fc[i] != 0 ==> depth[i] == 0
    modifies fc, depth, heap
    ensures forall i :: 0 <= i < elems && fc[i] != 0 ==> depth[i] == 0
    ensures 2 <= heapLen <= elems && 0 <= maxCode < elems && IsMaxCode(fc[..], elems, maxCode)
    ensures HeapHolds(heap[..], heapLen, fc[..], depth[..], elems)
    ensures |forced| == heapLen - heapLen0 && (heapLen0 >= 2 ==> forced == []) && (heapLen0 < 2 ==> heapLen == 2)
    ensures Forcing(old(fc[..]), fc[..], forced) && forall i :: 0 <= i < |forced| ==> forced[i] < 3
    ensures optLen == optLen0 - |forced|
    ensures staticLen == if stree == [] then staticLen0 else staticLen0 - StaticOf(stree, forced)
  {
    hide HeapHolds, IsMaxCode, Forcing, StaticOf;
    StaticNone(stree);
    heapLen, maxCode, optLen, staticLen, forced := heapLen0, maxCode0, optLen0, staticLen0, [];
    MaxBounds(fc[..], elems, maxCode);
    if heapLen >= 2 { return; }
    while heapLen < 2
      invariant heapLen0 <= heapLen <= 2 && -1 <= maxCode < elems && |forced| == heapLen - heapLen0
      invariant IsMaxCode(fc[..], elems, maxCode) && HeapHolds(heap[..], heapLen, fc[..], depth[..], elems)
      invariant heapLen == 0 ==> maxCode == -1
      invariant forall i :: 0 <= i < elems && fc[i] != 0 ==> depth[i] == 0
      invariant heapLen >= 1 ==> maxCode >= 0
      invariant heapLen == 1 ==> heap[1] == maxCode
      invariant Forcing(old(fc[..]), fc[..], forced) && forall i :: 0 <= i < |forced| ==> forced[i] < 3
      invariant optLen == optLen0 - |forced|
      invariant staticLen == if stree == [] then staticLen0 else staticLen0 - StaticOf(stree, forced)
    {
      ghost var f := fc[..];
      var node;
      node, maxCode := ForceOne(fc, depth, heap, elems, heapLen, maxCode);
      heapLen := heapLen + 1;
      optLen := optLen - 1;
      if stree != [] {
        staticLen := staticLen - stree[node];
        StaticStep(stree, forced, node);
      }
      ForcingStep(old(fc[..]), f, fc[..], forced, node);
      forced := forced + [node];
    }
  }

  /** One round of the forcing loop. */
  method ForceOne(fc: array<nat>, depth: array<nat>, heap: array<nat>, elems: nat, heapLen: nat, maxCode0: int)
    returns (node: nat, maxCode: int)
    requires 3 <= elems <= fc.Length && elems <= depth.Length && heapLen < 2 && 3 < heap.Length
    requires fc != depth && fc != heap && depth != heap
    requires IsMaxCode(fc[..], elems, maxCode0) && HeapHolds(heap[..], heapLen, fc[..], depth[..], elems)
    requires heapLen == 0 ==> maxCode0 == -1
    requires heapLen == 1 ==> maxCode0 >= 0 && heap[1] == maxCode0
    modifies fc, depth, heap
    ensures node < 3 && old(fc[node]) == 0 && fc[..] == old(fc[..])[node := 1] && depth[..] == old(depth[..])[node := 0]
    ensures 0 <= maxCode < elems && IsMaxCode(fc[..], elems, maxCode)
    ensures HeapHolds(heap[..], heapLen + 1, fc[..], depth[..], elems)
    ensures heapLen == 0 ==> heap[1] == maxCode
  {
    hide HeapHolds;
    ghost var h, f, d := heap[..], fc[..], depth[..];
    FreshForced(f, h, heapLen, d, elems, maxCode0);
    node, maxCode := Forced(maxCode0), maxCode0;
    if maxCode < 2 { maxCode := maxCode + 1; }
    heap[heapLen + 1] := node;
    fc[node] := 1;
    depth[node] := 0;
    ForceStep(h, f, d, heap[..], fc[..], depth[..], heapLen, elems, node);
  }

  lemma ForceStep(h: seq<nat>, f: seq<nat>, d: seq<nat>, h': seq<nat>, f': seq<nat>, d': seq<nat>, len: nat, elems: nat,
                  x: nat)
    requires HeapHolds(h, len, f, d, elems) && len + 1 < |h| && x < elems <= |d| && f[x] == 0
    requires h' == h[len + 1 := x] && f' == f[x := 1] && d' == d[x := 0]
    ensures HeapHolds(h', len + 1, f', d', elems)
  {
    ElemsPush(h, h', len);
    LeavesUpdate(f, f', elems, x);
    forall i | 1 <= i <= len ensures h[i] != x { assert h[i] in Elems(h, len); }
  }

  lemma MaxBounds(f: seq<nat>, n: nat, m: int)
    requires n <= |f| && IsMaxCode(f, n, m)
    ensures -1 <= m < n && Forcing(f, f, [])
  {
  }

  lemma ForcingStep(f0: seq<nat>, f: seq<nat>, f': seq<nat>, forced: seq<nat>, x: nat)
    requires Forcing(f0, f, forced) && x < 3 && x < |f| && f[x] == 0 && f' == f[x := 1]
    ensures Forcing(f0, f', forced + [x])
  {
    assert x !in forced;
    forall i | 0 <= i < |f'| && i !in forced + [x] ensures f'[i] == f0[i] {
      assert i !in forced && i != x;
    }
  }

  lemma AscendingNodes(h: seq<nat>, len: nat, f: seq<nat>, d: seq<nat>, n: nat)
    requires Ascending(h, len) && n <= |f| && n <= |d| && Elems(h, len) <= Leaves(f, n)
    ensures Nodes(h, len, f, d)
  {
    forall i | 1 <= i <= len ensures h[i] < n { assert h[i] in Elems(h, len); }
  }

  /** With fewer than two codes the forced symbol is new, and nothing lies above it or the largest code. */
  lemma FreshForced(f: seq<nat>, h: seq<nat>, len: nat, d: seq<nat>, n: nat, maxCode: int)
    requires 3 <= n && len < 2 && IsMaxCode0(f, n, maxCode) && HeapHolds(h, len, f, d, n)
    requires len == 0 ==> maxCode == -1
    requires len == 1 ==> maxCode >= 0 && h[1] == maxCode
    ensures Forced(maxCode) < 3 && f[Forced(maxCode)] == 0
    ensures maxCode < 2 ==> forall i :: maxCode + 1 < i < n ==> f[i] == 0
  {
    var x := Forced(maxCode);
    assert (x in Elems(h, len)) == (x in Leaves(f, n));
    assert len == 0 ==> Elems(h, len) == {};
    assert len == 1 ==> Elems(h, len) == {h[1]};
  }

  ghost predicate IsMaxCode0(f: seq<nat>, n: nat, m: int) { n <= |f| && IsMaxCode(f, n, m) }

  lemma LeavesUpdate(f: seq<nat>, f': seq<nat>, n: nat, x: nat)
    requires n <= |f| == |f'| && x < n && f'[x] != 0 && forall i :: 0 <= i < |f| && i != x ==> f'[i] == f[i]
    ensures Leaves(f', n) == Leaves(f, n) + {x}
  {
  }

  // ------------------------------------------------------------------ joining nodes

  /** The nodes in the order gen_bitlen will visit them: sons of the last inner node first. */
  ghost function Listed(ms: seq<Merge>): (l: seq<nat>)
    ensures |l| == 2 * |ms|
  {
    if ms == [] then [] else [ms[|ms| - 1].right, ms[|ms| - 1].left] + Listed(ms[..|ms| - 1])
  }

  ghost predicate Dads(ms: seq<Merge>, dl: seq<nat>)
  {
    forall i :: 0 <= i < |ms| ==>
                  ms[i].left < |dl| && ms[i].right < |dl| && dl[ms[i].left] == ms[i].node &&
                  dl[ms[i].right] == ms[i].node
  }

  /** The heap part of the state: the roots of the forest built so far, as a heap. */
  ghost predicate Forest(h: seq<nat>, len: nat, f: seq<nat>, d: seq<nat>, elems: nat, leaves: set<nat>, ms: seq<Merge>)
  {
    Nodes(h, len, f, d) && HeapFrom(h, len, f, d, 1) && Elems(h, len) == Roots(leaves, ms) &&
    Numbered(elems, leaves, ms) && Greedy(leaves, ms, f) && elems + |ms| + len <= |f| + 1 &&
    elems + |ms| + len <= |d| + 1
  }

  lemma RemoveTop(h: seq<nat>, len: nat, f: seq<nat>, d: seq<nat>)
    requires Nodes(h, len, f, d) && HeapFrom(h, len, f, d, 1) && len >= 2
    ensures var g := h[1 := h[len]];
            Nodes(g, len - 1, f, d) && HeapFrom(g, len - 1, f, d, 2) && Elems(g, len - 1) == Elems(h, len) - {h[1]}
    ensures forall x :: x in Elems(h, len) ==> x < |f| && f[h[1]] <= f[x]
  {
    var g := h[1 := h[len]];
    forall i | 2 <= i <= len - 1 && 2 <= i / 2 ensures Smaller(f, d, g[i / 2], g[i]) {
      assert Smaller(f, d, h[i / 2], h[i]);
    }
    forall x | x in Elems(h, len) ensures x < |f| && f[h[1]] <= f[x] {
      var i :| 1 <= i <= len && h[i] == x;
      HeapMin(h, len, f, d, i);
    }
    RemoveElems(h, g, len);
  }

  lemma RemoveElems(h: seq<nat>, g: seq<nat>, len: nat)
    requires 2 <= len < |h| && g == h[1 := h[len]] && forall i, j :: 1 <= i < j <= len ==> h[i] != h[j]
    ensures Elems(g, len - 1) == Elems(h, len) - {h[1]}
  {
    forall x | x in Elems(h, len) - {h[1]} ensures x in Elems(g, len - 1) {
      var i :| 1 <= i <= len && h[i] == x;
      assert g[if i == len then 1 else i] == x;
    }
    forall x | x in Elems(g, len - 1) ensures x in Elems(h, len) - {h[1]} {
      var i :| 1 <= i <= len - 1 && g[i] == x;
      assert h[if i == 1 then len else i] == x;
    }
  }

  lemma TopIsLeast(h: seq<nat>, len: nat, f: seq<nat>, d: seq<nat>)
    requires Nodes(h, len, f, d) && HeapFrom(h, len, f, d, 1) && len >= 1
    ensures h[1] in Elems(h, len) && forall x :: x in Elems(h, len) ==> x < |f| && f[h[1]] <= f[x]
    ensures forall x :: x in Elems(h, len) ==> x < |d| && Before(h[1], x, f, d)
  {
    forall x | x in Elems(h, len) ensures x < |f| && x < |d| && Before(h[1], x, f, d) {
      var i :| 1 <= i <= len && h[i] == x;
      HeapMin(h, len, f, d, i);
    }
  }

  /** Putting a new node in place of the top. */
  lemma ReplaceTop(h: seq<nat>, len: nat, f: seq<nat>, d: seq<nat>, f': seq<nat>, d': seq<nat>, node: nat)
    requires Nodes(h, len, f, d) && HeapFrom(h, len, f, d, 1) && len >= 1
    requires |f'| == |f| && |d'| == |d| && node < |f| && node < |d| && node !in Elems(h, len)
    requires forall i :: 0 <= i < |f| && i != node ==> f'[i] == f[i]
    requires forall i :: 0 <= i < |d| && i != node ==> d'[i] == d[i]
    ensures var g := h[1 := node];
            Nodes(g, len, f', d') && HeapFrom(g, len, f', d', 2) && Elems(g, len) == Elems(h, len) - {h[1]} + {node}
  {
    var g := h[1 := node];
    forall i | 1 <= i <= len ensures h[i] != node { assert h[i] in Elems(h, len); }
    forall i | 2 <= i <= len && 2 <= i / 2 ensures Smaller(f', d', g[i / 2], g[i]) {
      assert Smaller(f, d, h[i / 2], h[i]);
    }
    forall x | x in Elems(h, len) - {h[1]} + {node} ensures x in Elems(g, len) {
      if x != node {
        var i :| 1 <= i <= len && h[i] == x;
        assert g[i] == x;
      } else {
        assert g[1] == x;
      }
    }
    forall x | x in Elems(g, len) ensures x in Elems(h, len) - {h[1]} + {node} {
      var i :| 1 <= i <= len && g[i] == x;
      if i != 1 { assert h[i] == x; }
    }
  }

  /** Frequencies of nodes not yet made do not matter. */
  lemma {:induction false} GreedyFrame(elems: nat, leaves: set<nat>, ms: seq<Merge>, f: seq<int>, f': seq<int>)
    requires Numbered(elems, leaves, ms) && Greedy(leaves, ms, f) && |f'| == |f|
    requires forall i :: 0 <= i < |f| && i < elems + |ms| ==> f'[i] == f[i]
    ensures Greedy(leaves, ms, f')
    decreases |ms|
  {
    if ms != [] {
      var n := |ms| - 1;
      GreedyFrame(elems, leaves, ms[..n], f, f');
      RootsBelow(elems, leaves, ms[..n]);
      hide Roots;
      JoinFrame(Roots(leaves, ms[..n]), ms[n], f, f', elems + n);
    }
  }

  lemma JoinFrame(r: set<nat>, m: Merge, f: seq<int>, f': seq<int>, node: nat)
    requires Joins(r, m, f) && Least(r, m, f) && m.node == node && |f'| == |f|
    requires forall x :: x in r ==> x < node
    requires forall i :: 0 <= i < |f| && i <= node ==> f'[i] == f[i]
    ensures Joins(r, m, f') && Least(r, m, f')
  {
  }

  lemma ExtendHistory(elems: nat, leaves: set<nat>, ms: seq<Merge>, f: seq<nat>, f': seq<nat>, m: Merge)
    requires Numbered(elems, leaves, ms) && Greedy(leaves, ms, f) && m.node == elems + |ms| < |f| == |f'|
    requires m.left in Roots(leaves, ms) && m.right in Roots(leaves, ms) && m.left != m.right
    requires m.left < |f| && m.right < |f|
    requires forall i :: 0 <= i < |f| && i != m.node ==> f'[i] == f[i]
    requires forall x :: x in Roots(leaves, ms) ==> x < |f| && f[m.left] <= f[x]
    requires forall x :: x in Roots(leaves, ms) && x != m.left ==> f[m.right] <= f[x]
    requires f'[m.node] == f[m.left] + f[m.right]
    ensures Numbered(elems, leaves, ms + [m]) && Greedy(leaves, ms + [m], f')
    ensures Roots(leaves, ms + [m]) == Merged(Roots(leaves, ms), m) && m.node !in Roots(leaves, ms)
  {
    hide Merged, Joins, Least;
    GreedyFrame(elems, leaves, ms, f, f');
    RootsBelow(elems, leaves, ms);
    NewJoin(Roots(leaves, ms), f, f', m);
    var ms' := ms + [m];
    assert ms'[..|ms'| - 1] == ms && ms'[|ms'| - 1] == m;
  }

  /** One more round with the lower node first among equals. */
  lemma ExtendRanks(elems: nat, leaves: set<nat>, ms: seq<Merge>, f: seq<nat>, f': seq<nat>, d: seq<nat>, d': seq<nat>,
                    m: Merge)
    requires Numbered(elems, leaves, ms) && Greedy(leaves, ms, f) && Ranked(leaves, ms, f, d) &&
             m.node == elems + |ms| < |f| == |f'| && m.node < |d| == |d'|
    requires m.left in Roots(leaves, ms) && m.right in Roots(leaves, ms) && m.left < |f| && m.right < |f| &&
             m.left < |d| && m.right < |d|
    requires forall i :: 0 <= i < |f| && i != m.node ==> f'[i] == f[i]
    requires d' == d[m.node := (Max(d[m.left], d[m.right]) + 1) % 256]
    requires forall x :: x in Roots(leaves, ms) ==> x < |f| && x < |d| && Before(m.left, x, f, d)
    requires forall x :: x in Roots(leaves, ms) && x != m.left ==> x < |f| && x < |d| && Before(m.right, x, f, d)
    ensures Ranked(leaves, ms + [m], f', d')
  {
    hide Roots, Round, Greedy, Before;
    var ms' := ms + [m];
    forall i | 0 <= i < |ms'| ensures Round(Roots(leaves, ms'[..i]), ms'[i], f', d') {
      assert ms'[..i] == ms[..i];
      if i < |ms| {
        assert Round(Roots(leaves, ms[..i]), ms[i], f, d);
        KeepRound(elems, leaves, ms, f, f', d, d', m.node, i);
      } else {
        assert ms[..i] == ms;
        RootsBelow(elems, leaves, ms);
        NewRound(Roots(leaves, ms), f, f', d, d', m);
      }
    }
    RanksLeaves(leaves, ms, f, d, d', elems, m.node);
  }

  lemma RanksLeaves(leaves: set<nat>, ms: seq<Merge>, f: seq<nat>, d: seq<nat>, d': seq<nat>, elems: nat, node: nat)
    requires Ranked(leaves, ms, f, d) && Numbered(elems, leaves, ms) && elems <= node < |d| == |d'| &&
             forall k :: 0 <= k < |d| && k != node ==> d'[k] == d[k]
    ensures forall x :: x in leaves ==> x < |d'| && d'[x] == 0
  {
    hide Round, Roots;
  }

  lemma NewRound(r: set<nat>, f: seq<nat>, f': seq<nat>, d: seq<nat>, d': seq<nat>, m: Merge)
    requires m.left in r && m.right in r && m.left < |f| && m.right < |f| && m.left < |d| && m.right < |d| &&
             m.node !in r
    requires m.node < |f| == |f'| && m.node < |d| && (forall i :: 0 <= i < |f| && i != m.node ==> f'[i] == f[i])
    requires d' == d[m.node := (Max(d[m.left], d[m.right]) + 1) % 256]
    requires forall x :: x in r ==> x < |f| && x < |d| && Before(m.left, x, f, d)
    requires forall x :: x in r && x != m.left ==> x < |f| && x < |d| && Before(m.right, x, f, d)
    ensures Round(r, m, f', d')
  {
  }

  lemma KeepRound(elems: nat, leaves: set<nat>, ms: seq<Merge>, f: seq<nat>, f': seq<nat>, d: seq<nat>, d': seq<nat>,
                  node: nat, i: nat)
    requires Numbered(elems, leaves, ms) && Greedy(leaves, ms, f) && i < |ms| && node == elems + |ms| < |f| == |f'| &&
             node < |d| == |d'|
    requires (forall k :: 0 <= k < |f| && k != node ==> f'[k] == f[k]) &&
             forall k :: 0 <= k < |d| && k != node ==> d'[k] == d[k]
    requires Round(Roots(leaves, ms[..i]), ms[i], f, d)
    ensures Round(Roots(leaves, ms[..i]), ms[i], f', d')
  {
    hide Roots, Greedy;
    ChildKnown(elems, leaves, ms, f, i, ms[i].left);
    ChildKnown(elems, leaves, ms, f, i, ms[i].right);
    assert Numbered(elems, leaves, ms[..i]);
    RootsBelow(elems, leaves, ms[..i]);
  }

  lemma NewJoin(r: set<nat>, f: seq<nat>, f': seq<nat>, m: Merge)
    requires m.left in r && m.right in r && m.left != m.right && m.node !in r
    requires m.left < |f| && m.right < |f| && m.node < |f| == |f'|
    requires forall i :: 0 <= i < |f| && i != m.node ==> f'[i] == f[i]
    requires forall x :: x in r ==> x < |f| && f[m.left] <= f[x]
    requires forall x :: x in r && x != m.left ==> f[m.right] <= f[x]
    requires f'[m.node] == f[m.left] + f[m.right]
    ensures Joins(r, m, f') && Least(r, m, f')
  {
  }

  /** pqremove: takes the least node out of the heap. */
  method PqRemove(heap: array<nat>, heapLen: nat, fc: array<nat>, depth: array<nat>) returns (top: nat)
    requires heap != fc && heap != depth && heapLen >= 2
    requires Nodes(heap[..], heapLen, fc[..], depth[..]) && HeapFrom(heap[..], heapLen, fc[..], depth[..], 1)
    modifies heap
    ensures Nodes(heap[..], heapLen - 1, fc[..], depth[..]) && HeapFrom(heap[..], heapLen - 1, fc[..], depth[..], 1)
    ensures top == old(heap[1]) && Elems(heap[..], heapLen - 1) == old(Elems(heap[..], heapLen)) - {top}
    ensures forall i :: heapLen < i < heap.Length ==> heap[i] == old(heap[i])
  {
    hide Elems, Nodes, HeapFrom;
    NodesFacts(heap[..], heapLen, fc[..], depth[..]);
    ghost var h := heap[..];
    RemoveTop(h, heapLen, fc[..], depth[..]);
    top := heap[1];
    heap[1] := heap[heapLen];
    assert heap[..] == h[1 := h[heapLen]];
    PqDownHeap(heap, heapLen - 1, fc, depth, 1);
  }

  /** The finished part of the heap array lists the joined nodes; `dl` holds their fathers. */
  ghost predicate Recorded(h: seq<nat>, heapMax: nat, dl: seq<nat>, elems: nat, ms: seq<Merge>)
  {
    |h| == HEAP_SIZE && heapMax + 2 * |ms| == HEAP_SIZE && h[heapMax..] == Listed(ms) && Dads(ms, dl) &&
    forall i :: 0 <= i < |ms| ==> ms[i].left < elems + i && ms[i].right < elems + i && ms[i].node == elems + i
  }

  lemma RecordStep(h: seq<nat>, h': seq<nat>, heapMax: nat, dl: seq<nat>, dl': seq<nat>, elems: nat, ms: seq<Merge>,
                   m: Merge)
    requires Recorded(h, heapMax, dl, elems, ms) && heapMax >= 2 && |h'| == |h| && m.node == elems + |ms|
    requires h'[heapMax..] == h[heapMax..] && h'[heapMax - 1] == m.left && h'[heapMax - 2] == m.right
    requires m.left < elems + |ms| && m.right < elems + |ms| && m.left < |dl| && m.right < |dl|
    requires dl' == dl[m.left := m.node][m.right := m.node]
    requires forall i :: 0 <= i < |ms| ==> !ChildOf(m.left, ms[i]) && !ChildOf(m.right, ms[i])
    ensures Recorded(h', heapMax - 2, dl', elems, ms + [m])
  {
    var ms' := ms + [m];
    assert ms'[..|ms|] == ms;
    assert h'[heapMax - 2..] == [m.right, m.left] + h'[heapMax..];
    forall i | 0 <= i < |ms'|
      ensures ms'[i].left < |dl'| && ms'[i].right < |dl'| && dl'[ms'[i].left] == ms'[i].node &&
              dl'[ms'[i].right] == ms'[i].node
    {
      if i < |ms| { assert ChildOf(ms[i].left, ms[i]) && ChildOf(ms[i].right, ms[i]); }
    }
  }

  lemma RecordSize(h: seq<nat>, heapMax: nat, dl: seq<nat>, elems: nat, ms: seq<Merge>)
    requires Recorded(h, heapMax, dl, elems, ms)
    ensures |h| == HEAP_SIZE && heapMax <= HEAP_SIZE
  {
  }

  lemma MergedIs(r: set<nat>, m: Merge)
    ensures Merged(r, m) == r - {m.left} - {m.right} + {m.node}
  {
  }

  /** A root has not been joined before. */
  lemma RootsUnjoined(elems: nat, leaves: set<nat>, ms: seq<Merge>, f: seq<int>, x: nat)
    requires Numbered(elems, leaves, ms) && Greedy(leaves, ms, f) && x in Roots(leaves, ms)
    ensures x < elems + |ms| && forall i :: 0 <= i < |ms| ==> !ChildOf(x, ms[i])
  {
    RootsBelow(elems, leaves, ms);
    forall i | 0 <= i < |ms| ensures !ChildOf(x, ms[i]) {
      if ChildOf(x, ms[i]) { ChildGone(elems, leaves, ms, f, i, x); }
    }
  }

  /** One round: joins the two least frequent nodes under the new inner node `node`. */
  method JoinTwo(fc: array<nat>, dl: array<nat>, depth: array<nat>, heap: array<nat>, heapLen: nat, heapMax: nat,
                 node: nat,
                 ghost elems: nat, ghost leaves: set<nat>, ghost ms: seq<Merge>) returns (ghost m: Merge)
    requires fc != dl && fc != depth && fc != heap && dl != depth && dl != heap && depth != heap
    requires 2 <= heapLen && heapLen + 2 <= heapMax && node == elems + |ms| && node < dl.Length
    requires Forest(heap[..], heapLen, fc[..], depth[..], elems, leaves, ms)
    requires Recorded(heap[..], heapMax, dl[..], elems, ms)
    requires Total(Roots(leaves, ms), fc[..]) <= 0xffff && Ranked(leaves, ms, fc[..], depth[..])
    modifies fc, dl, depth, heap
    ensures Ranked(leaves, ms + [m], fc[..], depth[..]) && fc[node] <= 0xffff
    ensures Forest(heap[..], heapLen - 1, fc[..], depth[..], elems, leaves, ms + [m])
    ensures Total(Roots(leaves, ms + [m]), fc[..]) == old(Total(Roots(leaves, ms), fc[..]))
    ensures Recorded(heap[..], heapMax - 2, dl[..], elems, ms + [m])
    ensures m.node == node && m.left < node && m.right < node
    ensures forall i :: 0 <= i < fc.Length && i != node ==> fc[i] == old(fc[i])
    ensures forall i :: 0 <= i < dl.Length && i != m.left && i != m.right ==> dl[i] == old(dl[i])
    ensures m.left in Roots(leaves, ms) && m.right in Roots(leaves, ms)
  {
    hide Nodes, HeapFrom, Elems, Roots, Greedy, Numbered, Listed, Dads, Total, Merged, Recorded, Ranked, Before;
    ghost var h0, f0, d0, dl0 := heap[..], fc[..], depth[..], dl[..];
    RecordSize(h0, heapMax, dl0, elems, ms);
    TopIsLeast(h0, heapLen, f0, d0);
    var n := PqRemove(heap, heapLen, fc, depth);
    ghost var h1 := heap[..];
    TopIsLeast(h1, heapLen - 1, f0, d0);
    NodesFacts(h1, heapLen - 1, f0, d0);
    var x := heap[1];
    RootsUnjoined(elems, leaves, ms, f0, n);
    RootsUnjoined(elems, leaves, ms, f0, x);
    PairFits(Roots(leaves, ms), f0, n, x);
    MakeFather(fc, dl, depth, heap, heapMax, n, x, node);
    m := Merge(n, x, node);
    ExtendHistory(elems, leaves, ms, f0, fc[..], m);
    ExtendRanks(elems, leaves, ms, f0, fc[..], d0, depth[..], m);
    TotalKept(Roots(leaves, ms), f0, fc[..], m);
    MergedIs(Roots(leaves, ms), m);
    assert heap[heapMax..] == h0[heapMax..];
    RecordStep(h0, heap[..], heapMax, dl0, dl[..], elems, ms, m);
    KeepHeap(h1, heap[..], heapLen - 1, f0, d0);
    ghost var h2 := heap[..];
    PutFather(fc, depth, heap, heapLen - 1, node, f0, d0);
    RecordFrame(h2, heap[..], heapMax - 2, dl[..], elems, ms + [m]);
  }

  /** The new node takes the place of the root. */
  method PutFather(fc: array<nat>, depth: array<nat>, heap: array<nat>, len: nat, node: nat, ghost f: seq<nat>,
                   ghost d: seq<nat>)
    requires heap != fc && heap != depth && len >= 1
    requires Nodes(heap[..], len, f, d) && HeapFrom(heap[..], len, f, d, 1)
    requires |f| == fc.Length && |d| == depth.Length && node < |f| && node < |d| && node !in Elems(heap[..], len)
    requires forall i :: 0 <= i < |f| && i != node ==> fc[i] == f[i]
    requires forall i :: 0 <= i < |d| && i != node ==> depth[i] == d[i]
    modifies heap
    ensures Nodes(heap[..], len, fc[..], depth[..]) && HeapFrom(heap[..], len, fc[..], depth[..], 1)
    ensures heap.Length > 1 && Elems(heap[..], len) == old(Elems(heap[..], len)) - {old(heap[1])} + {node}
    ensures forall i :: len < i < heap.Length ==> heap[i] == old(heap[i])
  {
    hide Nodes, HeapFrom, Elems;
    NodesFacts(heap[..], len, f, d);
    ghost var h := heap[..];
    ReplaceTop(h, len, f, d, fc[..], depth[..], node);
    heap[1] := node;
    assert heap[..] == h[1 := node];
    PqDownHeap(heap, len, fc, depth, 1);
  }

  /** Lists `n` and `x` as done and makes `node` their father. */
  method MakeFather(fc: array<nat>, dl: array<nat>, depth: array<nat>, heap: array<nat>, heapMax: nat, n: nat, x: nat,
                    node: nat)
    requires fc != dl && fc != depth && fc != heap && dl != depth && dl != heap && depth != heap
    requires 2 <= heapMax <= heap.Length && node < fc.Length && node < depth.Length && n < node && x < node &&
             n < dl.Length && x < dl.Length
    requires fc[n] + fc[x] <= 0xffff
    modifies fc, dl, depth, heap
    ensures heap[..] == old(heap[..])[heapMax - 1 := n][heapMax - 2 := x]
    ensures fc[..] == old(fc[..])[node := old(fc[n] + fc[x])] && dl[..] == old(dl[..])[n := node][x := node]
    ensures depth[..] == old(depth[..])[node := (Max(old(depth[n]), old(depth[x])) + 1) % 256]
  {
    heap[heapMax - 1] := n;
    heap[heapMax - 2] := x;
    fc[node] := (fc[n] + fc[x]) % 0x1_0000;
    depth[node] := (Max(depth[n], depth[x]) + 1) % 256;
    dl[n] := node;
    dl[x] := node;
  }

  /** The frequencies of two roots fit the 16-bit field of their father. */
  lemma PairFits(r: set<nat>, f: seq<nat>, a: nat, b: nat)
    requires a in r && b in r && a != b && a < |f| && b < |f| && Total(r, f) <= 0xffff
    ensures f[a] + f[b] <= 0xffff
  {
    var q := r - {a, b};
    SumAdd(q, a, f, |f|);
    SumAdd(q + {a}, b, f, |f|);
    assert q + {a} + {b} == r;
    SumNonNeg(q, f, |f|);
  }

  lemma TotalKept(r: set<nat>, f: seq<nat>, f': seq<nat>, m: Merge)
    requires m.left in r && m.right in r && m.left != m.right && m.node !in r && m.node < |f| == |f'|
    requires m.left < |f| && m.right < |f| && forall i :: 0 <= i < |f| && i != m.node ==> f'[i] == f[i]
    requires f'[m.node] == f[m.left] + f[m.right]
    ensures Total(Merged(r, m), f') == Total(r, f)
  {
    SumSame(r, f, f', |f|);
    TotalMerge(r, m, f');
  }

  lemma KeepHeap(h: seq<nat>, h': seq<nat>, len: nat, f: seq<nat>, d: seq<nat>)
    requires Nodes(h, len, f, d) && HeapFrom(h, len, f, d, 1) && |h'| == |h|
    requires forall i :: 0 <= i <= len ==> h'[i] == h[i]
    ensures Nodes(h', len, f, d) && HeapFrom(h', len, f, d, 1) && Elems(h', len) == Elems(h, len)
  {
    forall x | x in Elems(h, len) ensures x in Elems(h', len) {
      var i :| 1 <= i <= len && h[i] == x;
      assert h'[i] == x;
    }
    forall x | x in Elems(h', len) ensures x in Elems(h, len) {
      var i :| 1 <= i <= len && h'[i] == x;
      assert h[i] == x;
    }
  }

  lemma RecordFrame(h: seq<nat>, h': seq<nat>, heapMax: nat, dl: seq<nat>, elems: nat, ms: seq<Merge>)
    requires Recorded(h, heapMax, dl, elems, ms) && |h'| == |h| && forall i :: heapMax <= i < |h| ==> h'[i] == h[i]
    ensures Recorded(h', heapMax, dl, elems, ms)
  {
    assert h'[heapMax..] == h[heapMax..];
  }

  /** What build_tree knows once a single root is left. */
  ghost predicate Built(order: seq<nat>, f: seq<nat>, dl: seq<nat>, elems: nat, leaves: set<nat>, ms: seq<Merge>)
  {
    |ms| >= 1 && order == [ms[|ms| - 1].node] + Listed(ms) && Roots(leaves, ms) == {ms[|ms| - 1].node} &&
    Numbered(elems, leaves, ms) && Greedy(leaves, ms, f) && Dads(ms, dl) &&
    forall i :: 0 <= i < |ms| ==>
      ms[i].left < elems + i && ms[i].right < elems + i && ms[i].node < |dl| && ms[i].node < |f|
  }

  /** Establishes the heap from the bottom up. */
  method Heapify(heap: array<nat>, heapLen: nat, fc: array<nat>, depth: array<nat>)
    requires heap != fc && heap != depth && Nodes(heap[..], heapLen, fc[..], depth[..])
    modifies heap
    ensures Nodes(heap[..], heapLen, fc[..], depth[..]) && HeapFrom(heap[..], heapLen, fc[..], depth[..], 1)
    ensures Elems(heap[..], heapLen) == old(Elems(heap[..], heapLen))
  {
    hide Nodes, HeapFrom, Elems;
    NodesFacts(heap[..], heapLen, fc[..], depth[..]);
    var n := heapLen / 2;
    HalfHeap(heap[..], heapLen, fc[..], depth[..]);
    while n >= 1
      invariant 0 <= n <= heapLen / 2 && heapLen < heap.Length && Nodes(heap[..], heapLen, fc[..], depth[..])
      invariant HeapFrom(heap[..], heapLen, fc[..], depth[..], n + 1)
      invariant Elems(heap[..], heapLen) == old(Elems(heap[..], heapLen))
    {
      PqDownHeap(heap, heapLen, fc, depth, n);
      n := n - 1;
    }
  }

  lemma HalfHeap(h: seq<nat>, len: nat, f: seq<nat>, d: seq<nat>)
    requires Nodes(h, len, f, d)
    ensures HeapFrom(h, len, f, d, len / 2 + 1)
  {
  }

  /** Joins nodes until one root is left, and lists all nodes from the root down. */
  method BuildForest(fc: array<nat>, dl: array<nat>, depth: array<nat>, heap: array<nat>, elems: nat, heapLen0: nat)
    returns (heapMax: nat, ghost ms: seq<Merge>)
    requires fc != dl && fc != depth && fc != heap && dl != depth && dl != heap && depth != heap
    requires heap.Length == HEAP_SIZE && 2 <= heapLen0 <= elems <= 286
    requires 2 * elems <= fc.Length && 2 * elems <= depth.Length && 2 * elems <= dl.Length
    requires HeapHolds(heap[..], heapLen0, fc[..], depth[..], elems)
    requires Total(Leaves(fc[..], elems), fc[..]) <= 0xffff &&
             forall i :: 0 <= i < elems && fc[i] != 0 ==> depth[i] == 0
    modifies fc, dl, depth, heap
    ensures Ranked(old(Leaves(fc[..], elems)), ms, fc[..], depth[..]) &&
            forall i :: elems <= i < elems + |ms| ==> i < fc.Length && fc[i] <= 0xffff
    ensures heapMax <= HEAP_SIZE && Built(heap[heapMax..], fc[..], dl[..], elems, old(Leaves(fc[..], elems)), ms)
    ensures |ms| == heapLen0 - 1
    ensures forall i :: 0 <= i < elems ==> fc[i] == old(fc[i])
    ensures forall i :: 0 <= i < elems && i !in old(Leaves(fc[..], elems)) ==> dl[i] == old(dl[i])
  {
    hide Leaves, Nodes, HeapFrom, Elems, Total, Listed, Dads, Roots, Greedy, Ranked;
    ghost var leaves := Leaves(fc[..], elems);
    Heapify(heap, heapLen0, fc, depth);
    var heapLen, node := heapLen0, elems;
    heapMax := HEAP_SIZE;
    ms := [];
    StartHistory(heap[..], fc[..], dl[..], elems, leaves);
    StartRanks(fc[..], depth[..], elems);
    while heapLen >= 2
      invariant 1 <= heapLen <= heapLen0 && |ms| == heapLen0 - heapLen && node == elems + |ms|
      invariant heapMax == HEAP_SIZE - 2 * |ms|
      invariant Forest(heap[..], heapLen, fc[..], depth[..], elems, leaves, ms)
      invariant Recorded(heap[..], heapMax, dl[..], elems, ms)
      invariant Total(Roots(leaves, ms), fc[..]) <= 0xffff && Ranked(leaves, ms, fc[..], depth[..])
      invariant forall i :: elems <= i < elems + |ms| ==> i < fc.Length && fc[i] <= 0xffff
      invariant forall i :: 0 <= i < elems ==> fc[i] == old(fc[i])
      invariant forall i :: 0 <= i < elems && i !in leaves ==> dl[i] == old(dl[i])
    {
      RootsOrigin(elems, leaves, ms);
      ghost var m := JoinTwo(fc, dl, depth, heap, heapLen, heapMax, node, elems, leaves, ms);
      heapLen, heapMax, node := heapLen - 1, heapMax - 2, node + 1;
      ms := ms + [m];
    }
    ghost var h := heap[..];
    heapMax := heapMax - 1;
    heap[heapMax] := heap[1];
    Finish(h, heap[..], heapMax, fc[..], depth[..], dl[..], elems, leaves, ms);
  }

  lemma StartHistory(h: seq<nat>, f: seq<nat>, dl: seq<nat>, elems: nat, leaves: set<nat>)
    requires |h| == HEAP_SIZE && elems <= |f| && leaves == Leaves(f, elems)
    ensures Roots(leaves, []) == leaves && Numbered(elems, leaves, []) && Greedy(leaves, [], f) &&
            Recorded(h, HEAP_SIZE, dl, elems, [])
  {
  }

  lemma StartRanks(f: seq<nat>, d: seq<nat>, elems: nat)
    requires elems <= |f| && elems <= |d| && forall i :: 0 <= i < elems && f[i] != 0 ==> d[i] == 0
    ensures Ranked(Leaves(f, elems), [], f, d)
  {
  }

  lemma RootsOrigin(elems: nat, leaves: set<nat>, ms: seq<Merge>)
    requires Numbered(elems, leaves, ms)
    ensures forall x :: x in Roots(leaves, ms) && x < elems ==> x in leaves
  {
    RootsBelow(elems, leaves, ms);
  }

  lemma Finish(h: seq<nat>, h': seq<nat>, heapMax: nat, f: seq<nat>, d: seq<nat>, dl: seq<nat>, elems: nat,
               leaves: set<nat>, ms: seq<Merge>)
    requires Forest(h, 1, f, d, elems, leaves, ms) && Recorded(h, heapMax + 1, dl, elems, ms) && |ms| >= 1
    requires h' == h[heapMax := h[1]] && elems + |ms| <= |dl| && elems + |ms| <= |f|
    ensures Built(h'[heapMax..], f, dl, elems, leaves, ms)
  {
    assert Elems(h, 1) == {h[1]};
    var n := |ms| - 1;
    assert ms[n].node in Roots(leaves, ms);
    assert h'[heapMax..] == [h[1]] + h[heapMax + 1..];
  }
}
