/**
  deflate.c, longest_match: walking a hash chain for the longest earlier occurrence of the current string.
*/
module LongestMatch {
  import opened Bits
  import opened Hash
  import opened HashChains

  /** The first `end` bytes of the window are the input from absolute position `base` on. */
  ghost predicate WindowHas(window: seq<byte>, data: seq<byte>, base: nat, end: nat)
  {
    end <= |window| && base + end <= |data| && window[..end] == data[base..base + end]
  }

  /** The `len` bytes at `p` also stand at `start`. */
  ghost predicate RealMatch(data: seq<byte>, p: nat, start: int, len: nat)
  {
    0 <= start < p && p + len <= |data| && data[start..start + len] == data[p..p + len]
  }

  /** Bytes `0..n` after both positions are equal in the window. */
  ghost predicate SameBytes(window: seq<byte>, a: nat, b: nat, n: nat)
  {
    a + n <= |window| && b + n <= |window| && window[a..a + n] == window[b..b + n]
  }

  lemma SameMore(window: seq<byte>, a: nat, b: nat, n: nat)
    requires SameBytes(window, a, b, n) && a + n < |window| && b + n < |window| && window[a + n] == window[b + n]
    ensures SameBytes(window, a, b, n + 1)
  {
    assert window[a..a + (n + 1)] == window[a..a + n] + [window[a + n]];
    assert window[b..b + (n + 1)] == window[b..b + n] + [window[b + n]];
  }

  /** The comparison loop, eight bytes between two tests for the end; the first three bytes are known to agree. */
  method CompareStrings(window: array<byte>, scan: nat, start: nat) returns (len: nat)
    requires start < scan && scan + MAX_MATCH < window.Length && SameBytes(window[..], start, scan, 3)
    ensures 3 <= len <= MAX_MATCH && SameBytes(window[..], start, scan, len)
    ensures len == MAX_MATCH || window[start + len] != window[scan + len]
  {
    hide SameBytes;
    var k: nat := 2;
    ghost var rounds: nat := 0;
    while true
      invariant k == 2 + 8 * rounds && k < MAX_MATCH && SameBytes(window[..], start, scan, k + 1)
      decreases MAX_MATCH - k
    {
      var j: nat := 0;
      while j < 8
        invariant j <= 8 && k == 2 + 8 * rounds + j && k <= MAX_MATCH && 2 + 8 * rounds < MAX_MATCH
        invariant if k < MAX_MATCH then SameBytes(window[..], start, scan, k + 1)
                  else SameBytes(window[..], start, scan, k)
      {
        k := k + 1;
        if window[scan + k] != window[start + k] { return k; }
        if k < MAX_MATCH { SameMore(window[..], start, scan, k); }
        j := j + 1;
      }
      rounds := rounds + 1;
      if k >= MAX_MATCH { return k; }
    }
  }

  /** A string in reach of the current one: entered in the table, with the same hash. */
  ghost predicate Candidate(f: Conf, data: seq<byte>, base: nat, ins: set<nat>, strstart: nat, cur: nat)
  {
    0 < cur < strstart && strstart - cur <= MaxDist(f) && base + cur in ins && base + strstart + 2 < |data| &&
    HashAt(f.hashBits, data, base + cur) == HashAt(f.hashBits, data, base + strstart)
  }

  lemma ByteAt(window: seq<byte>, data: seq<byte>, base: nat, end: nat, i: nat)
    requires WindowHas(window, data, base, end) && i < end
    ensures window[i] == data[base + i]
  {
    assert window[i] == window[..end][i] == data[base..base + end][i];
  }

  /** The third bytes agree when the hashes and the first two bytes do. */
  lemma ThirdAgrees(f: Conf, window: seq<byte>, data: seq<byte>, base: nat, ins: set<nat>, strstart: nat, cur: nat)
    requires ValidConf(f) && Candidate(f, data, base, ins, strstart, cur) && WindowHas(window, data, base, strstart + 3)
    requires window[cur] == window[strstart] && window[cur + 1] == window[strstart + 1]
    ensures SameBytes(window, cur, strstart, 3)
  {
    hide Hash3;
    var p, q := base + cur, base + strstart;
    ByteAt(window, data, base, strstart + 3, cur);
    ByteAt(window, data, base, strstart + 3, cur + 1);
    ByteAt(window, data, base, strstart + 3, cur + 2);
    ByteAt(window, data, base, strstart + 3, strstart);
    ByteAt(window, data, base, strstart + 3, strstart + 1);
    ByteAt(window, data, base, strstart + 3, strstart + 2);
    ThirdByte(f.hashBits, data[p], data[p + 1], data[p + 2], data[q + 2]);
    ThreeBytes(window, cur);
    ThreeBytes(window, strstart);
  }

  lemma ThreeBytes(s: seq<byte>, i: nat)
    requires i + 3 <= |s|
    ensures s[i..i + 3] == [s[i], s[i + 1], s[i + 2]]
  {
  }

  /** The next link of a candidate is a candidate too, as long as it is within reach. */
  lemma NextCandidate(f: Conf, head: seq<nat>, prev: seq<nat>, data: seq<byte>, base: nat, ins: set<nat>, strstart: nat,
                      cur: nat)
    requires ValidConf(f) && Chains(f.hashBits, WSize(f), head, prev, data, base, ins, base + strstart + 1) &&
             Candidate(f, data, base, ins, strstart, cur)
    ensures cur % WSize(f) < |prev| && prev[cur % WSize(f)] < cur
    ensures var q := prev[cur % WSize(f)];
            q > 0 && strstart - q <= MaxDist(f) ==> Candidate(f, data, base, ins, strstart, q)
  {
    hide HashAt;
    WSizes(f);
    hide Pow2;
    var w := WSize(f);
    assert base + cur in ins && base + cur + w >= base + strstart + 1;
    assert LinkOk(f.hashBits, w, data, base, ins, base + strstart + 1, base + cur, prev[(base + cur - base) % w]);
    assert base + cur - base == cur;
  }

  /** What has been found so far: a match longer than `prevLength`, or nothing. */
  ghost predicate Best(window: seq<byte>, limit: nat, strstart: nat, prevLength: nat, best: nat, start: int)
  {
    prevLength <= best <= MAX_MATCH &&
    (best > prevLength ==> 0 < start && limit <= start < strstart && SameBytes(window, start, strstart, best))
  }

  lemma BestIsReal(window: seq<byte>, data: seq<byte>, base: nat, limit: nat, strstart: nat, lookahead: nat,
                   prevLength: nat, best: nat, start: int, len: nat)
    requires Best(window, limit, strstart, prevLength, best, start) && best > prevLength && len <= best &&
             len <= lookahead
    requires WindowHas(window, data, base, strstart + lookahead)
    ensures RealMatch(data, base + strstart, base + start, len)
  {
    var end := strstart + lookahead;
    SliceAt(window, data, base, end, start, len);
    SliceAt(window, data, base, end, strstart, len);
    assert window[start..start + best][..len] == window[start..start + len];
    assert window[strstart..strstart + best][..len] == window[strstart..strstart + len];
  }

  lemma SliceAt(window: seq<byte>, data: seq<byte>, base: nat, end: nat, i: nat, n: nat)
    requires WindowHas(window, data, base, end) && i + n <= end
    ensures window[i..i + n] == data[base + i..base + i + n]
  {
    SubSlice(window, 0, end, i, n);
    SubSlice(data, base, base + end, i, n);
  }

  lemma SubSlice(s: seq<byte>, a: nat, b: nat, i: nat, n: nat)
    requires a <= b <= |s| && i + n <= b - a
    ensures s[a..b][i..i + n] == s[a + i..a + i + n]
  {
    var x, y := s[a..b][i..i + n], s[a + i..a + i + n];
    forall j | 0 <= j < n ensures x[j] == y[j] { }
  }

  /** The strings on the chain from `cur` on: at most `n` of them, while they are above `limit`. */
  function Walk(prev: seq<nat>, w: nat, limit: nat, cur: nat, n: int): (q: set<nat>)
    requires w > 0
    decreases cur
  {
    if cur % w >= |prev| || prev[cur % w] >= cur || prev[cur % w] <= limit || n == 1 then {cur}
    else {cur} + Walk(prev, w, limit, prev[cur % w], n - 1)
  }

  /** None of the strings `qs` agrees with the current one in more than `len` bytes. */
  ghost predicate NoneLonger(window: seq<byte>, qs: set<nat>, strstart: nat, len: nat)
  {
    forall q :: q in qs ==> !SameBytes(window, q, strstart, len + 1)
  }

  lemma SameLess(window: seq<byte>, a: nat, b: nat, n: nat, m: nat)
    requires SameBytes(window, a, b, n) && m <= n
    ensures SameBytes(window, a, b, m)
  {
    assert window[a..a + n][..m] == window[a..a + m];
    assert window[b..b + n][..m] == window[b..b + m];
  }

  lemma NoneLongerMore(window: seq<byte>, qs: set<nat>, strstart: nat, len: nat, best: nat, cur: nat)
    requires NoneLonger(window, qs, strstart, len) && len <= best && !SameBytes(window, cur, strstart, best + 1)
    ensures NoneLonger(window, qs + {cur}, strstart, best)
  {
    hide SameBytes;
    forall q | q in qs + {cur} ensures !SameBytes(window, q, strstart, best + 1) {
      if q in qs && SameBytes(window, q, strstart, best + 1) { SameLess(window, q, strstart, best + 1, len + 1); }
    }
  }

  /** Two strings that differ somewhere below `n`. */
  lemma Differ(window: seq<byte>, a: nat, b: nat, n: nat, i: nat)
    requires i < n && a + i < |window| && b + i < |window| && window[a + i] != window[b + i]
    ensures !SameBytes(window, a, b, n)
  {
    hide SameBytes;
    if SameBytes(window, a, b, n) { SameAt(window, a, b, n, i); }
  }

  lemma SameAt(window: seq<byte>, a: nat, b: nat, n: nat, i: nat)
    requires SameBytes(window, a, b, n) && i < n
    ensures a + i < |window| && b + i < |window| && window[a + i] == window[b + i]
  {
    assert window[a..a + n][i] == window[a + i] && window[b..b + n][i] == window[b + i];
  }

  lemma RealIsSame(window: seq<byte>, data: seq<byte>, base: nat, q: nat, strstart: nat, lookahead: nat, n: nat)
    requires WindowHas(window, data, base, strstart + lookahead) && n <= lookahead &&
             RealMatch(data, base + strstart, base + q, n)
    ensures SameBytes(window, q, strstart, n)
  {
    hide WindowHas;
    WindowSize(window, data, base, strstart + lookahead);
    SliceAt(window, data, base, strstart + lookahead, q, n);
    SliceAt(window, data, base, strstart + lookahead, strstart, n);
  }

  /** Within the lookahead the bytes of the window are those of the input. */
  lemma NoneLongerIsReal(window: seq<byte>, data: seq<byte>, base: nat, qs: set<nat>, strstart: nat, lookahead: nat,
                         len: nat)
    requires NoneLonger(window, qs, strstart, len) && WindowHas(window, data, base, strstart + lookahead) &&
             len < lookahead
    ensures forall q :: q in qs ==> !RealMatch(data, base + strstart, base + q, len + 1)
  {
    hide WindowHas, RealMatch, SameBytes;
    forall q | q in qs ensures !RealMatch(data, base + strstart, base + q, len + 1) {
      if RealMatch(data, base + strstart, base + q, len + 1) {
        RealIsSame(window, data, base, q, strstart, lookahead, len + 1);
      }
    }
  }

  lemma WindowSize(window: seq<byte>, data: seq<byte>, base: nat, end: nat)
    requires WindowHas(window, data, base, end)
    ensures end <= |window| && base + end <= |data|
  {
  }

  /** Compares one candidate, unless a glance at four bytes shows that it cannot beat `best`. */
  method TryString(f: Conf, window: array<byte>, strstart: nat, ghost lookahead: nat, cur: nat, best: nat,
                   scanEnd1: byte, scanEnd: byte,
                   ghost data: seq<byte>, ghost base: nat, ghost ins: set<nat>) returns (n: nat)
    requires ValidConf(f) && strstart + MIN_LOOKAHEAD <= window.Length && 3 <= lookahead && 1 <= best < MAX_MATCH &&
             0 < cur < strstart
    requires WindowHas(window[..], data, base, strstart + lookahead) && Candidate(f, data, base, ins, strstart, cur)
    requires scanEnd1 == window[strstart + best - 1] && scanEnd == window[strstart + best]
    ensures n <= MAX_MATCH && (n > best ==> SameBytes(window[..], cur, strstart, n))
    ensures n < MAX_MATCH ==> !SameBytes(window[..], cur, strstart, (if n > best then n else best) + 1)
  {
    hide WindowHas, SameBytes, Candidate;
    if window[cur + best] != scanEnd || window[cur + best - 1] != scanEnd1 || window[cur] != window[strstart] ||
       window[cur + 1] != window[strstart + 1] {
      Glance(window[..], cur, strstart, best);
      return 0;
    }
    ThreeValid(window[..], data, base, strstart, lookahead);
    ThirdAgrees(f, window[..], data, base, ins, strstart, cur);
    n := CompareStrings(window, strstart, cur);
    if n < MAX_MATCH { Differ(window[..], cur, strstart, (if n > best then n else best) + 1, n); }
  }

  lemma Glance(window: seq<byte>, cur: nat, strstart: nat, best: nat)
    requires 1 <= best && cur + best < |window| && strstart + best < |window|
    requires window[cur + best] != window[strstart + best] || window[cur + best - 1] != window[strstart + best - 1] ||
             window[cur] != window[strstart] || window[cur + 1] != window[strstart + 1]
    ensures !SameBytes(window, cur, strstart, best + 1)
  {
    hide SameBytes;
    if window[cur + best] != window[strstart + best] { Differ(window, cur, strstart, best + 1, best); }
    else if window[cur + best - 1] != window[strstart + best - 1] { Differ(window, cur, strstart, best + 1, best - 1); }
    else if window[cur] != window[strstart] { Differ(window, cur, strstart, best + 1, 0); }
    else { Differ(window, cur, strstart, best + 1, 1); }
  }

  /** How many strings of the chain are looked at: a quarter of the usual number when there is a good match already. */
  function ChainLength(f: Conf, prevLength: nat): (n: int)
  {
    if prevLength >= f.good then f.maxChain / 4 else f.maxChain
  }

  function Limit(f: Conf, strstart: nat): (l: nat) { if strstart > MaxDist(f) then strstart - MaxDist(f) else 0 }

  // ------------------------------------------------------------------ what the chain reaches

  /** The entered positions before `p` whose three bytes have the hash of those at `p`. */
  ghost function Alike(n: nat, data: seq<byte>, ins: set<nat>, p: nat): (r: set<nat>)
    requires p + 2 < |data|
  {
    set r | r in ins && r < p && r + 2 < |data| && HashAt(n, data, r) == HashAt(n, data, p)
  }

  /** Those of them after `q`, up to `top`. */
  ghost function Newer(n: nat, data: seq<byte>, ins: set<nat>, p: nat, q: nat, top: nat): (r: set<nat>)
    requires p + 2 < |data|
  {
    set r | r in Alike(n, data, ins, p) && q < r <= top
  }

  /** Window index `q` is in reach of `strstart` and among the `n` newest strings of the same hash; a limit of zero is
      none, because the counter wraps around. */
  ghost predicate Near(f: Conf, data: seq<byte>, base: nat, ins: set<nat>, strstart: nat, q: nat, n: int)
  {
    base + strstart + 2 < |data| && Limit(f, strstart) < q &&
    base + q in Alike(f.hashBits, data, ins, base + strstart) &&
    (n <= 0 || |Newer(f.hashBits, data, ins, base + strstart, base + q, base + strstart)| < n)
  }

  /** No string near enough agrees with the current one in more than `len` bytes. */
  ghost predicate NoLonger(f: Conf, data: seq<byte>, base: nat, ins: set<nat>, strstart: nat, len: nat, n: int)
  {
    forall q: nat :: Near(f, data, base, ins, strstart, q, n) ==> !RealMatch(data, base + strstart, base + q, len + 1)
  }

  /** A string that agrees in three bytes has the same hash. */
  lemma MatchIsAlike(n: nat, data: seq<byte>, ins: set<nat>, p: nat, start: nat, len: nat)
    requires RealMatch(data, p, start, len) && len >= 3 && start in ins
    ensures start in Alike(n, data, ins, p)
  {
    hide Hash3;
    assert data[start..start + len][0] == data[p..p + len][0];
    assert data[start..start + len][1] == data[p..p + len][1];
    assert data[start..start + len][2] == data[p..p + len][2];
  }

  lemma NewerStep(n: nat, data: seq<byte>, ins: set<nat>, p: nat, q: nat, next: nat, cur: nat)
    requires p + 2 < |data| && q <= next < cur && cur in Alike(n, data, ins, p) &&
             Skips(n, data, ins, next, cur, HashAt(n, data, p))
    ensures |Newer(n, data, ins, p, q, cur)| == |Newer(n, data, ins, p, q, next)| + 1
  {
    hide HashAt;
    assert Newer(n, data, ins, p, q, cur) == Newer(n, data, ins, p, q, next) + {cur};
  }

  /** The next link does not pass `q`. */
  lemma LinkReaches(f: Conf, head: seq<nat>, prev: seq<nat>, data: seq<byte>, base: nat, ins: set<nat>, strstart: nat,
                    cur: nat, q: nat)
    requires ValidConf(f) && Chains(f.hashBits, WSize(f), head, prev, data, base, ins, base + strstart + 1)
    requires Candidate(f, data, base, ins, strstart, cur) && q < cur &&
             base + q in Alike(f.hashBits, data, ins, base + strstart)
    ensures cur % WSize(f) < |prev| && q <= prev[cur % WSize(f)] < cur && base + strstart + 2 < |data|
    ensures Skips(f.hashBits, data, ins, base + prev[cur % WSize(f)], base + cur,
                  HashAt(f.hashBits, data, base + strstart))
    ensures base + cur in Alike(f.hashBits, data, ins, base + strstart)
  {
    hide HashAt;
    WSizes(f);
    hide Pow2;
    var w := WSize(f);
    assert base + cur in ins && base + cur + w >= base + strstart + 1;
    assert LinkOk(f.hashBits, w, data, base, ins, base + strstart + 1, base + cur, prev[(base + cur - base) % w]);
    assert base + cur - base == cur;
  }

  /** The chain comes by every string that is near enough. */
  lemma {:induction false} WalkReaches(f: Conf, head: seq<nat>, prev: seq<nat>, data: seq<byte>, base: nat,
                                       ins: set<nat>, strstart: nat, cur: nat, n: int, q: nat)
    requires ValidConf(f) && Chains(f.hashBits, WSize(f), head, prev, data, base, ins, base + strstart + 1)
    requires Candidate(f, data, base, ins, strstart, cur) && Limit(f, strstart) < q <= cur && WSize(f) > 0
    requires base + q in Alike(f.hashBits, data, ins, base + strstart)
    requires n <= 0 || |Newer(f.hashBits, data, ins, base + strstart, base + q, base + cur)| < n
    ensures q in Walk(prev, WSize(f), Limit(f, strstart), cur, n)
    decreases cur
  {
    hide Chains, HashAt, Alike, Newer, WSize, Skips, Walk, Candidate, Limit;
    CandidateRange(f, data, base, ins, strstart, cur);
    if q < cur {
      LinkReaches(f, head, prev, data, base, ins, strstart, cur, q);
      var next := prev[cur % WSize(f)];
      NewerStep(f.hashBits, data, ins, base + strstart, base + q, base + next, base + cur);
      NextReach(f, strstart, next, q);
      NextCandidate(f, head, prev, data, base, ins, strstart, cur);
      WalkMore(prev, WSize(f), Limit(f, strstart), cur, n);
      WalkReaches(f, head, prev, data, base, ins, strstart, next, n - 1, q);
    } else {
      WalkHas(prev, WSize(f), Limit(f, strstart), cur, n);
    }
  }

  lemma NextReach(f: Conf, strstart: nat, next: nat, q: nat)
    requires Limit(f, strstart) < q <= next < strstart
    ensures next > 0 && strstart - next <= MaxDist(f)
  {
  }

  lemma WalkHas(prev: seq<nat>, w: nat, limit: nat, cur: nat, n: int)
    requires w > 0
    ensures cur in Walk(prev, w, limit, cur, n)
  {
  }

  lemma WalkMore(prev: seq<nat>, w: nat, limit: nat, cur: nat, n: int)
    requires w > 0 && cur % w < |prev| && limit < prev[cur % w] < cur && n != 1
    ensures Walk(prev, w, limit, cur, n) == {cur} + Walk(prev, w, limit, prev[cur % w], n - 1)
  {
  }

  /** What no string of the chain does, no string near enough does. */
  lemma WalkIsNear(f: Conf, head: seq<nat>, prev: seq<nat>, data: seq<byte>, base: nat, ins: set<nat>, strstart: nat,
                   cur: nat, n: int, len: nat)
    requires ValidConf(f) && Chains(f.hashBits, WSize(f), head, prev, data, base, ins, base + strstart + 1)
    requires Candidate(f, data, base, ins, strstart, cur) && WSize(f) > 0
    requires Skips(f.hashBits, data, ins, base + cur, base + strstart, HashAt(f.hashBits, data, base + strstart))
    requires forall q :: q in Walk(prev, WSize(f), Limit(f, strstart), cur, n) ==>
                           !RealMatch(data, base + strstart, base + q, len + 1)
    ensures NoLonger(f, data, base, ins, strstart, len, n)
  {
    hide Chains, HashAt, Walk, RealMatch, WSize, Candidate;
    forall q: nat | Near(f, data, base, ins, strstart, q, n)
      ensures !RealMatch(data, base + strstart, base + q, len + 1) {
      CandidateRange(f, data, base, ins, strstart, cur);
      assert q <= cur;
      SameNewer(f.hashBits, data, ins, base + strstart, base + q, base + cur);
      WalkReaches(f, head, prev, data, base, ins, strstart, cur, n, q);
    }
  }

  lemma SameNewer(n: nat, data: seq<byte>, ins: set<nat>, p: nat, q: nat, cur: nat)
    requires p + 2 < |data| && Skips(n, data, ins, cur, p, HashAt(n, data, p)) && cur < p
    ensures Newer(n, data, ins, p, q, p) == Newer(n, data, ins, p, q, cur)
  {
    hide HashAt;
  }

  /** longest_match: the chain starts at `cur0`; a result above `prevLength` is a match at `matchStart`.  Unless the
      result is nice enough or takes up the lookahead, no string near enough matches longer. */
  method LongestMatch(f: Conf, window: array<byte>, prev: array<nat>, strstart: nat, lookahead: nat, prevLength: nat,
                      cur0: nat, matchStart0: int,
                      ghost head: seq<nat>, ghost data: seq<byte>, ghost base: nat, ghost ins: set<nat>)
    returns (len: nat, matchStart: int)
    requires ValidConf(f) && window.Length == 2 * WSize(f) && strstart + MIN_LOOKAHEAD <= window.Length &&
             3 <= lookahead && 1 <= prevLength < MAX_MATCH
    requires WindowHas(window[..], data, base, strstart + lookahead) && |data| == base + strstart + lookahead
    requires Chains(f.hashBits, WSize(f), head, prev[..], data, base, ins, base + strstart + 1)
    requires Candidate(f, data, base, ins, strstart, cur0) &&
             Skips(f.hashBits, data, ins, base + cur0, base + strstart, HashAt(f.hashBits, data, base + strstart))
    ensures len <= lookahead && len <= MAX_MATCH && (len >= prevLength || len == lookahead)
    ensures len > prevLength ==>
              0 <= matchStart && strstart - matchStart <= MaxDist(f) &&
              RealMatch(data, base + strstart, base + matchStart, len)
    ensures len >= f.nice || len == lookahead ||
            NoLonger(f, data, base, ins, strstart, len, ChainLength(f, prevLength))
  {
    hide Chains, WindowHas, SameBytes, Candidate, Best, RealMatch, WSize, Pow2, NoneLonger, Walk, NoLonger, Skips,
         HashAt;
    var chainLength: int, best: nat, nice: nat := f.maxChain, prevLength, f.nice;
    var limit := Limit(f, strstart);
    if prevLength >= f.good { chainLength := chainLength / 4; }
    if nice > lookahead { nice := lookahead; }
    best, matchStart := WalkChain(f, window, prev, strstart, lookahead, prevLength, cur0, matchStart0, chainLength,
                                  limit, nice, head, data, base, ins);
    len := if best <= lookahead then best else lookahead;
    BestReach(window[..], limit, strstart, prevLength, best, matchStart);
    if len < f.nice && len < lookahead {
      NoneLongerIsReal(window[..], data, base, Walk(prev[..], WSize(f), limit, cur0, chainLength), strstart, lookahead,
                       len);
      WalkIsNear(f, head, prev[..], data, base, ins, strstart, cur0, chainLength, len);
    }
    if len > prevLength {
      BestIsReal(window[..], data, base, limit, strstart, lookahead, prevLength, best, matchStart, len);
    }
  }

  /** The loop of longest_match: the best of the strings on the chain, unless one is nice enough to stop at. */
  method WalkChain(f: Conf, window: array<byte>, prev: array<nat>, strstart: nat, ghost lookahead: nat, prevLength: nat,
                   cur0: nat, matchStart0: int, chainLength0: int, limit: nat, nice: nat,
                   ghost head: seq<nat>, ghost data: seq<byte>, ghost base: nat, ghost ins: set<nat>)
    returns (best: nat, matchStart: int)
    requires ValidConf(f) && window.Length == 2 * WSize(f) && strstart + MIN_LOOKAHEAD <= window.Length &&
             3 <= lookahead && 1 <= prevLength < MAX_MATCH
    requires WindowHas(window[..], data, base, strstart + lookahead) && |data| == base + strstart + lookahead &&
             nice <= MAX_MATCH
    requires Chains(f.hashBits, WSize(f), head, prev[..], data, base, ins, base + strstart + 1)
    requires Candidate(f, data, base, ins, strstart, cur0) && limit == Limit(f, strstart)
    ensures prevLength <= best && Best(window[..], limit, strstart, prevLength, best, matchStart) && WSize(f) > 0
    ensures best >= nice || NoneLonger(window[..], Walk(prev[..], WSize(f), limit, cur0, chainLength0), strstart, best)
  {
    hide Chains, WindowHas, SameBytes, Candidate, Best, RealMatch, WSize, Pow2, NoneLonger, Walk;
    var chainLength, cur := chainLength0, cur0;
    best, matchStart := prevLength, matchStart0;
    var scanEnd1, scanEnd := window[strstart + best - 1], window[strstart + best];
    BestStart(window[..], limit, strstart, prevLength, matchStart);
    CandidateRange(f, data, base, ins, strstart, cur);
    ghost var seen: set<nat> := {};
    ghost var all := Walk(prev[..], WSize(f), limit, cur0, chainLength);
    NoneSeen(window[..], strstart, best);
    while true
      invariant prevLength <= best < MAX_MATCH && Best(window[..], limit, strstart, prevLength, best, matchStart)
      invariant 0 < cur && limit <= cur < strstart && Candidate(f, data, base, ins, strstart, cur)
      invariant all == seen + Walk(prev[..], WSize(f), limit, cur, chainLength) &&
                NoneLonger(window[..], seen, strstart, best)
      invariant scanEnd1 == window[strstart + best - 1] && scanEnd == window[strstart + best]
      decreases cur
    {
      var n := TryString(f, window, strstart, lookahead, cur, best, scanEnd1, scanEnd, data, base, ins);
      ghost var before := best;
      if n > best {
        matchStart, best := cur, n;
        BestNow(window[..], limit, strstart, prevLength, best, matchStart);
        if n >= nice { return; }
        scanEnd1, scanEnd := window[strstart + best - 1], window[strstart + best];
      }
      NoneLongerMore(window[..], seen, strstart, before, best, cur);
      NextCandidate(f, head, prev[..], data, base, ins, strstart, cur);
      WalkNext(prev[..], WSize(f), limit, cur, chainLength, all, seen);
      seen := seen + {cur};
      cur := prev[cur % WSize(f)];
      if cur <= limit { return; }
      CandidateRange2(f, data, base, ins, strstart, cur);
      chainLength := chainLength - 1;
      if chainLength == 0 { return; }
    }
  }

  lemma NoneSeen(window: seq<byte>, strstart: nat, len: nat)
    ensures NoneLonger(window, {}, strstart, len)
  {
  }

  lemma WalkNext(prev: seq<nat>, w: nat, limit: nat, cur: nat, n: int, all: set<nat>, seen: set<nat>)
    requires w > 0 && cur % w < |prev| && prev[cur % w] < cur && all == seen + Walk(prev, w, limit, cur, n)
    ensures all == if prev[cur % w] <= limit || n == 1 then seen + {cur}
                   else seen + {cur} + Walk(prev, w, limit, prev[cur % w], n - 1)
  {
  }

  lemma BestStart(window: seq<byte>, limit: nat, strstart: nat, prevLength: nat, start: int)
    requires prevLength <= MAX_MATCH
    ensures Best(window, limit, strstart, prevLength, prevLength, start)
  {
  }

  lemma BestNow(window: seq<byte>, limit: nat, strstart: nat, prevLength: nat, best: nat, start: nat)
    requires prevLength <= best <= MAX_MATCH && 0 < start && limit <= start < strstart &&
             SameBytes(window, start, strstart, best)
    ensures Best(window, limit, strstart, prevLength, best, start)
  {
  }

  lemma BestReach(window: seq<byte>, limit: nat, strstart: nat, prevLength: nat, best: nat, start: int)
    requires Best(window, limit, strstart, prevLength, best, start)
    ensures best <= MAX_MATCH && (best > prevLength ==> 0 < start && limit <= start < strstart)
  {
    hide SameBytes;
  }

  lemma CandidateRange(f: Conf, data: seq<byte>, base: nat, ins: set<nat>, strstart: nat, cur: nat)
    requires Candidate(f, data, base, ins, strstart, cur)
    ensures (if strstart > MaxDist(f) then strstart - MaxDist(f) else 0) <= cur < strstart && 0 < cur
  {
  }

  lemma CandidateRange2(f: Conf, data: seq<byte>, base: nat, ins: set<nat>, strstart: nat, cur: nat)
    requires 0 < cur < strstart && (if strstart > MaxDist(f) then strstart - MaxDist(f) else 0) < cur
    ensures strstart - cur <= MaxDist(f)
  {
  }

  lemma ThreeValid(window: seq<byte>, data: seq<byte>, base: nat, strstart: nat, lookahead: nat)
    requires WindowHas(window, data, base, strstart + lookahead) && lookahead >= 3
    ensures WindowHas(window, data, base, strstart + 3)
  {
  }
}
