/**
  trees.c, gen_bitlen: rarer symbols get codes at least as long, also when lengths had to be limited.
*/
module Rarer {
  import opened Huffman
  import opened BuildTree
  import opened GenBitlen
  import opened LimitLengths

  ghost predicate RareLong(leaves: set<nat>, f: seq<nat>, dl: seq<nat>)
  {
    forall x, y :: x in leaves && y in leaves && x < |f| == |dl| && y < |f| && f[x] < f[y] ==> dl[x] >= dl[y]
  }

  lemma OptimalIsRareLong(leaves: set<nat>, f: seq<nat>, dl: seq<nat>, max: nat)
    requires |f| == |dl| && Optimal(leaves, f, dl) && Feasible(leaves, dl, max)
    ensures RareLong(leaves, f, dl)
  {
    hide Feasible, Cost;
    forall x, y | x in leaves && y in leaves && x < |f| && y < |f| && f[x] < f[y] ensures dl[x] >= dl[y] {
      if dl[x] < dl[y] {
        var other := Exchange(leaves, f, dl, max, x, y);
        assert false;
      }
    }
  }

  /** Exchanging the lengths of two symbols in the wrong order saves bits. */
  lemma Exchange(leaves: set<nat>, f: seq<nat>, dl: seq<nat>, max: nat, x: nat, y: nat) returns (other: seq<nat>)
    requires |f| == |dl| && Feasible(leaves, dl, max) && x in leaves && y in leaves
    requires x < |f| && y < |f| && f[x] < f[y] && dl[x] < dl[y]
    ensures |other| == |dl| && Feasible(leaves, other, max) && Cost(leaves, f, other) < Cost(leaves, f, dl)
  {
    hide Total, Cost, Shares, Share;
    var a := dl[x := dl[y]];
    other := a[y := dl[x]];
    SetLength(leaves, f, dl, x, dl[y], max);
    SetLength(leaves, f, a, y, dl[x], max);
    var fx: int, fy: int, lx: int, ly: int := f[x], f[y], dl[x], dl[y];
    assert Cost(leaves, f, other) - Cost(leaves, f, dl) == (fx - fy) * (ly - lx);
    Negative(fx - fy, ly - lx);
  }

  lemma Negative(a: int, b: int)
    requires a < 0 < b
    ensures a * b < 0
  {
  }

  // ------------------------------------------------------------------ the order of the joins

  /** Frequencies do not rise along the list. */
  ghost predicate Falls(l: seq<nat>, f: seq<nat>)
  {
    forall i, j :: 0 <= i < j < |l| && l[i] < |f| && l[j] < |f| ==> f[l[i]] >= f[l[j]]
  }

  /** What has been joined is not more frequent than what is left. */
  lemma {:induction false} JoinedBelow(leaves: set<nat>, ms: seq<Merge>, f: seq<nat>)
    requires Greedy(leaves, ms, f)
    ensures forall x, y :: x in Listed(ms) && y in Roots(leaves, ms) && x < |f| && y < |f| ==> f[x] <= f[y]
    decreases |ms|
  {
    if ms != [] {
      var n := |ms| - 1;
      JoinedBelow(leaves, ms[..n], f);
      StepBelow(Roots(leaves, ms[..n]), Listed(ms[..n]), ms[n], f);
    }
  }

  lemma StepBelow(r: set<nat>, l: seq<nat>, m: Merge, f: seq<nat>)
    requires Joins(r, m, f) && Least(r, m, f)
    requires forall x, y :: x in l && y in r && x < |f| && y < |f| ==> f[x] <= f[y]
    ensures forall x, y :: x in [m.right, m.left] + l && y in Merged(r, m) && x < |f| && y < |f| ==> f[x] <= f[y]
  {
    assert f[m.left] <= f[m.right];
  }

  lemma {:induction false} ListedFalls(leaves: set<nat>, ms: seq<Merge>, f: seq<nat>)
    requires Greedy(leaves, ms, f)
    ensures Falls(Listed(ms), f)
    decreases |ms|
  {
    if ms != [] {
      var n := |ms| - 1;
      ListedFalls(leaves, ms[..n], f);
      JoinedBelow(leaves, ms[..n], f);
      FallsOn(Roots(leaves, ms[..n]), Listed(ms[..n]), ms[n], f);
    }
  }

  lemma FallsOn(r: set<nat>, l: seq<nat>, m: Merge, f: seq<nat>)
    requires Joins(r, m, f) && Least(r, m, f) && Falls(l, f)
    requires forall x, y :: x in l && y in r && x < |f| && y < |f| ==> f[x] <= f[y]
    ensures Falls([m.right, m.left] + l, f)
  {
    var t := [m.right, m.left] + l;
    assert f[m.left] <= f[m.right];
    forall i, j | 0 <= i < j < |t| && t[i] < |f| && t[j] < |f| ensures f[t[i]] >= f[t[j]] {
      if i >= 2 {
        assert t[i] == l[i - 2] && t[j] == l[j - 2];
      } else if j >= 2 {
        assert t[j] == l[j - 2] && t[j] in l;
      }
    }
  }

  lemma RareLongFrame(leaves: set<nat>, f: seq<nat>, g: seq<nat>, dl: seq<nat>, elems: nat)
    requires RareLong(leaves, f, dl) && |f| == |g| == |dl| && elems <= |f| && leaves == Leaves(g, elems)
    requires forall i :: 0 <= i < elems ==> g[i] == f[i]
    ensures RareLong(leaves, g, dl)
  {
  }

  /** Lengths that do not fall along the list are longest for the rarest symbols. */
  lemma InStepIsRareLong(order: seq<nat>, leaves: set<nat>, maxCode: nat, f: seq<nat>, dl0: seq<nat>, dl: seq<nat>,
                         elems: nat, ms: seq<Merge>)
    requires InStep(order, leaves, 0, dl, 0) && NodeList(order, leaves, maxCode, |dl|) && |f| == |dl|
    requires Built(order, f, dl0, elems, leaves, ms) && maxCode < elems
    ensures RareLong(leaves, f, dl)
  {
    hide Listed, Greedy, Dads, Roots;
    var root := ms[|ms| - 1].node;
    BuiltSize(order, f, dl0, elems, leaves, ms);
    ListedFalls(leaves, ms, f);
    forall x, y | x in leaves && y in leaves && x < |f| && y < |f| && f[x] < f[y] ensures dl[x] >= dl[y] {
      var p :| 0 <= p < |order| && order[p] == x;
      var q :| 0 <= q < |order| && order[q] == y;
      assert order[0] == root && p >= 1 && q >= 1;
      assert Listed(ms)[p - 1] == x && Listed(ms)[q - 1] == y;
    }
  }
}
