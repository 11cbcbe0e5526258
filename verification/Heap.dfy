/**
  trees.c: the priority queue of build_tree, a heap of tree nodes ordered by frequency and depth.
*/
module Heap {

  /** The order of the macro `smaller`: frequency first, depth as tie breaker. */
  predicate Smaller(f: seq<nat>, d: seq<nat>, n: nat, m: nat)
    requires n < |f| && m < |f| && n < |d| && m < |d|
  {
    f[n] < f[m] || (f[n] == f[m] && d[n] <= d[m])
  }

  /** Entries 1..len of `h` are distinct nodes with keys. */
  ghost predicate Nodes(h: seq<nat>, len: nat, f: seq<nat>, d: seq<nat>)
  {
    len < |h| &&
    (forall i :: 1 <= i <= len ==> h[i] < |f| && h[i] < |d|) &&
    forall i, j :: 1 <= i < j <= len ==> h[i] != h[j]
  }

  ghost function Elems(h: seq<nat>, len: nat): (e: set<nat>)
    requires len < |h|
  {
    set i | 1 <= i <= len :: h[i]
  }

  /** Fathers at `lo` and beyond are not greater than their sons. */
  ghost predicate HeapFrom(h: seq<nat>, len: nat, f: seq<nat>, d: seq<nat>, lo: nat)
    requires Nodes(h, len, f, d)
  {
    forall i :: 2 <= i <= len && lo <= i / 2 ==> Smaller(f, d, h[i / 2], h[i])
  }

  /** As `HeapFrom`, except for the sons of position `k`, which are only known to fit below k's father. */
  ghost predicate HoleAt(h: seq<nat>, len: nat, f: seq<nat>, d: seq<nat>, lo: nat, k: nat)
    requires Nodes(h, len, f, d)
  {
    (forall i :: 2 <= i <= len && lo <= i / 2 && i / 2 != k ==> Smaller(f, d, h[i / 2], h[i])) &&
    forall i :: 2 <= i <= len && i / 2 == k && k >= 2 && lo <= k / 2 ==> Smaller(f, d, h[k / 2], h[i])
  }

  ghost function Swap(h: seq<nat>, i: nat, j: nat): (r: seq<nat>)
    requires i < |h| && j < |h|
    ensures |r| == |h|
  {
    h[i := h[j]][j := h[i]]
  }

  lemma SwapKeeps(h: seq<nat>, len: nat, f: seq<nat>, d: seq<nat>, i: nat, j: nat)
    requires Nodes(h, len, f, d) && 1 <= i <= len && 1 <= j <= len
    ensures Nodes(Swap(h, i, j), len, f, d) && Elems(Swap(h, i, j), len) == Elems(h, len)
  {
    var r := Swap(h, i, j);
    forall x | x in Elems(h, len) ensures x in Elems(r, len) {
      var p :| 1 <= p <= len && h[p] == x;
      var q := if p == i then j else if p == j then i else p;
      assert r[q] == x;
    }
    forall x | x in Elems(r, len) ensures x in Elems(h, len) {
      var p :| 1 <= p <= len && r[p] == x;
      var q := if p == i then j else if p == j then i else p;
      assert h[q] == x;
    }
  }

  /** Moving the smaller son up and the hole down keeps the order around the hole. */
  lemma SiftStep(h: seq<nat>, len: nat, f: seq<nat>, d: seq<nat>, lo: nat, k: nat, j: nat)
    requires Nodes(h, len, f, d) && 1 <= lo <= k && 2 * k <= j <= 2 * k + 1 && j <= len
    requires HoleAt(h, len, f, d, lo, k) && !Smaller(f, d, h[k], h[j])
    requires forall i :: 2 * k <= i <= 2 * k + 1 && i <= len ==> Smaller(f, d, h[j], h[i])
    ensures Nodes(Swap(h, k, j), len, f, d) && HoleAt(Swap(h, k, j), len, f, d, lo, j)
  {
    SwapKeeps(h, len, f, d, k, j);
    var r := Swap(h, k, j);
    forall i | 2 <= i <= len && lo <= i / 2 && i / 2 != j ensures Smaller(f, d, r[i / 2], r[i]) {
      if i / 2 == k { assert Smaller(f, d, h[j], h[i]); }
      else if i == k { assert Smaller(f, d, h[k / 2], h[j]); }
      else { assert Smaller(f, d, h[i / 2], h[i]); }
    }
    forall i | 2 <= i <= len && i / 2 == j && j >= 2 && lo <= j / 2 ensures Smaller(f, d, r[j / 2], r[i]) {
      assert Smaller(f, d, h[i / 2], h[i]);
    }
  }

  lemma SiftEnd(h: seq<nat>, len: nat, f: seq<nat>, d: seq<nat>, lo: nat, k: nat)
    requires Nodes(h, len, f, d) && 1 <= lo <= k && HoleAt(h, len, f, d, lo, k)
    requires forall i :: 2 * k <= i <= 2 * k + 1 && i <= len ==> Smaller(f, d, h[k], h[i])
    ensures HeapFrom(h, len, f, d, lo)
  {
    forall i | 2 <= i <= len && lo <= i / 2 ensures Smaller(f, d, h[i / 2], h[i]) {
      if i / 2 == k { assert 2 * k <= i <= 2 * k + 1; }
    }
  }

  /** pqdownheap: restores the heap below node `k`. */
  method PqDownHeap(heap: array<nat>, len: nat, fc: array<nat>, depth: array<nat>, k0: nat)
    requires heap != fc && heap != depth
    requires 1 <= k0 <= len && Nodes(heap[..], len, fc[..], depth[..])
    requires HeapFrom(heap[..], len, fc[..], depth[..], k0 + 1)
    modifies heap
    ensures Nodes(heap[..], len, fc[..], depth[..]) && HeapFrom(heap[..], len, fc[..], depth[..], k0)
    ensures Elems(heap[..], len) == old(Elems(heap[..], len))
    ensures forall i :: 0 <= i < heap.Length && (i < k0 || i > len) ==> heap[i] == old(heap[i])
  {
    hide Elems, Nodes, HoleAt, HeapFrom, Smaller;
    ghost var f, d := fc[..], depth[..];
    ghost var h := heap[..];
    NodesFacts(h, len, f, d);
    var v, k, j := heap[k0], k0, 2 * k0;
    HoleStart(h, len, f, d, k0);
    while j <= len
      invariant 1 <= k0 <= k <= len && j == 2 * k && len < heap.Length
      invariant |h| == heap.Length && h[k] == v && heap[..][k := v] == h
      invariant Nodes(h, len, f, d) && HoleAt(h, len, f, d, k0, k) && Elems(h, len) == old(Elems(heap[..], len))
      invariant forall i :: 0 <= i < heap.Length && (i < k0 || i > len) ==> heap[i] == old(heap[i])
      invariant fc[..] == f && depth[..] == d
      decreases len - k
    {
      NodesFacts(h, len, f, d);
      assert heap[j] == h[j];
      if j < len {
        assert heap[j + 1] == h[j + 1];
        var fn, fm, dn, dm := fc[heap[j + 1]], fc[heap[j]], depth[heap[j + 1]], depth[heap[j]];
        Order(f, d, h[j + 1], h[j]);
        if fn < fm || (fn == fm && dn <= dm) { j := j + 1; }
      }
      assert heap[j] == h[j];
      Order(f, d, h[j], h[j]);
      Order(f, d, v, h[j]);
      var fn, fm, dn, dm := fc[v], fc[heap[j]], depth[v], depth[heap[j]];
      if fn < fm || (fn == fm && dn <= dm) {
        Below(f, d, h, k, j, len);
        break;
      }
      SiftStep(h, len, f, d, k0, k, j);
      SwapKeeps(h, len, f, d, k, j);
      h := Swap(h, k, j);
      heap[k] := heap[j];
      k := j;
      j := 2 * j;
    }
    heap[k] := v;
    assert heap[..] == h;
    SiftEnd(h, len, f, d, k0, k);
  }

  lemma NodesFacts(h: seq<nat>, len: nat, f: seq<nat>, d: seq<nat>)
    requires Nodes(h, len, f, d)
    ensures len < |h| && forall i :: 1 <= i <= len ==> h[i] < |f| && h[i] < |d|
  {
  }

  lemma HoleStart(h: seq<nat>, len: nat, f: seq<nat>, d: seq<nat>, k: nat)
    requires 1 <= k && Nodes(h, len, f, d) && HeapFrom(h, len, f, d, k + 1)
    ensures HoleAt(h, len, f, d, k, k)
  {
  }

  lemma Order(f: seq<nat>, d: seq<nat>, n: nat, m: nat)
    requires n < |f| && m < |f| && n < |d| && m < |d|
    ensures Smaller(f, d, n, m) <==> f[n] < f[m] || (f[n] == f[m] && d[n] <= d[m])
    ensures !Smaller(f, d, n, m) ==> Smaller(f, d, m, n)
    ensures Smaller(f, d, n, n)
  {
  }

  lemma Below(f: seq<nat>, d: seq<nat>, h: seq<nat>, k: nat, j: nat, len: nat)
    requires Nodes(h, len, f, d) && 1 <= k <= len && 2 * k <= j <= 2 * k + 1 && j <= len && Smaller(f, d, h[k], h[j])
    requires forall i :: 2 * k <= i <= 2 * k + 1 && i <= len ==> Smaller(f, d, h[j], h[i])
    ensures forall i :: 2 * k <= i <= 2 * k + 1 && i <= len ==> Smaller(f, d, h[k], h[i])
  {
  }

  /** The root of a heap is not greater than any element. */
  lemma {:induction false} HeapMin(h: seq<nat>, len: nat, f: seq<nat>, d: seq<nat>, i: nat)
    requires Nodes(h, len, f, d) && HeapFrom(h, len, f, d, 1) && 1 <= i <= len
    ensures Smaller(f, d, h[1], h[i])
    decreases i
  {
    if i > 1 {
      HeapMin(h, len, f, d, i / 2);
      assert Smaller(f, d, h[i / 2], h[i]);
    }
  }
}
