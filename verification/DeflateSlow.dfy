/**
  deflate.c, deflate_slow: lazy matching.  A match is adopted only when the next position has no better one.
*/
module DeflateSlow {
  import opened Bits
  import opened Hash
  import opened HashChains
  import opened LongestMatch
  import opened FillWindow
  import opened Format
  import opened DeflateText
  import opened Restart
  import opened BlockLog
  import opened Emit
  import opened Moves
  import opened DeflateFast

  const TOO_FAR: nat := 4096

  /** The match found at the previous position, if there is one. */
  ghost predicate Pending(f: Conf, data: seq<byte>, p: int, start: int, len: nat)
  {
    2 <= len <= MAX_MATCH && (len >= MIN_MATCH ==> 0 <= p && p - start <= MaxDist(f) && RealMatch(data, p, start, len))
  }

  lemma PendingMore(f: Conf, data: seq<byte>, more: seq<byte>, p: int, start: int, len: nat)
    requires Pending(f, data, p, start, len) && data <= more
    ensures Pending(f, more, p, start, len)
  {
    if len >= MIN_MATCH {
      assert more[start..start + len] == data[start..start + len] && more[p..p + len] == data[p..p + len];
    }
  }

  lemma PendingIs(f: Conf, data: seq<byte>, p: int, start: int, len: nat)
    requires Pending(f, data, p, start, len)
    ensures 2 <= len <= MAX_MATCH
    ensures len >= MIN_MATCH ==>
              0 <= start < p && p - start <= MaxDist(f) && p + len <= |data| && RealMatch(data, p, start, len)
  {
  }

  /** Between two steps: everything before the byte that waits for its decision is coded. */
  ghost predicate SlowReady(c: Coder, s: Lz, g: Past)
    reads c.d.window, c.d.head, c.d.prev
    reads c, c.trees`dist, c.trees`lc, c.trees`optLen, c.trees`staticLen, c.trees.lfc, c.trees.dfc, c.trees.bfc, c.w
  {
    c.d.f.useHash && (s.matchAvailable ==> s.strstart >= 1) && Ready(c, s, g, Coded(s, g)) &&
    (s.matchLength >= MIN_MATCH ==> s.matchAvailable && Behind(c.marks, g.base + s.matchStart)) &&
    Pending(c.d.f, g.data, g.base + s.strstart - 1, g.base + s.matchStart, s.matchLength)
  }

  /** What a search gives: whether a chain was followed, the length it led to, and the match that is considered. */
  datatype Find = Find(found: bool, raw: nat, len: nat, start: int)

  /** There is a search unless the previous match is long enough not to be bettered.  A short match counts as none when
      the strategy is Z_FILTERED, or when three bytes stand too far back. */
  ghost predicate Lazily(f: Conf, filtered: bool, s: Lz, g: Past, d: Find)
  {
    if s.lookahead < MIN_MATCH || s.prevLength >= f.maxLazy then d.len == 2
    else
      Searched(f, s, g, d.found, d.raw) &&
      d.len == if !d.found || (d.raw <= 5 && (filtered || (d.raw == MIN_MATCH && s.strstart - d.start > 4096)))
               then 2 else d.raw
  }

  /** The previous match is output unless the one found now is longer; else the byte before the current one, if it
      waits, becomes a literal, and the match found now waits. */
  ghost predicate LazyStep(s: Lz, g: Past, d: Find, ts: seq<Token>, t: Lz)
  {
    var dist := s.strstart - 1 - s.matchStart;
    if s.matchLength >= MIN_MATCH && d.len <= s.matchLength then
      dist >= 1 && ts == [Copy(s.matchLength, dist)] && !t.matchAvailable && t.matchLength == 2 &&
      t.strstart == s.strstart + s.matchLength - 1
    else
      (if s.matchAvailable then 1 <= g.base + s.strstart <= |g.data| && ts == [Literal(g.data[g.base + s.strstart - 1])]
       else ts == []) &&
      t.matchAvailable && t.matchLength == d.len && t.matchStart == d.start && t.strstart == s.strstart + 1
  }

  /** The strings in the table after a step that moves on by `n` bytes. */
  ghost function SlowEntered(s: Lz, g: Past, n: nat): (ins: set<nat>)
  {
    if s.lookahead < MIN_MATCH then g.ins
    else WithStrings(g.ins, g.base, g.base + s.strstart, if n <= s.lookahead - 2 then n else s.lookahead - 2)
  }

  /** What the search at the current position gives: a match or nothing. */
  method Search(c: Coder, s: Lz, ghost g: Past) returns (insH: nat, d: Find, ghost all: set<nat>)
    requires LzOk(c.d, s, g) && c.d.f.useHash && s.lookahead >= MIN_MATCH &&
             s.strstart + MIN_LOOKAHEAD <= c.d.window.Length && 2 <= s.prevLength <= MAX_MATCH
    modifies c.d.head, c.d.prev
    ensures AtString(c.d, g.data, g.base, all, s.strstart + 1, insH) &&
            all == WithString(g.ins, g.base, g.base + s.strstart)
    ensures 2 <= d.len <= MAX_MATCH && d.len <= s.lookahead && Lazily(c.d.f, c.filtered, s, g, d)
    ensures d.len > s.prevLength ==>
              Pending(c.d.f, g.data, g.base + s.strstart, g.base + d.start, d.len) && d.start >= 0
  {
    hide LzOk, AtString, Chains, Primed, WindowHas, RealMatch, Pow2, c.d.Shape, Searched, WithString;
    var found, len, start;
    LzIs(c.d, s, g);
    ShapeConf(c.d);
    insH, found, len, start, all := EnterAndSearch(c.d, s, g, s.prevLength < c.d.f.maxLazy);
    var none := !found || (len <= 5 && (c.filtered || (len == MIN_MATCH && s.strstart - start > TOO_FAR)));
    d := Find(found, len, if none then 2 else len, start);
  }

  /** Skips or enters the strings of the match that was output; the first one is in the table already. */
  method SlowInsert(d: Dict, s: Lz, ghost g: Past, h1: nat, n: nat, ghost ins: set<nat>) returns (t: Lz, ghost h: Past)
    requires AtString(d, g.data, g.base, ins, s.strstart + 1, h1) && s.insert == 0 && s.next <= |s.input| &&
             1 <= n <= s.lookahead
    requires |g.data| == g.base + s.strstart + s.lookahead &&
             WindowHas(d.window[..], g.data, g.base, s.strstart + s.lookahead)
    requires s.lookahead >= MIN_MATCH && ins == WithString(g.ins, g.base, g.base + s.strstart)
    modifies d.head, d.prev
    ensures LzOk(d, t, h) && h == g.(ins := SlowEntered(s, g, n), top := h.top)
    ensures t == s.(strstart := s.strstart + n, lookahead := s.lookahead - n, insH := t.insH)
  {
    hide AtString, LzOk, WindowHas, Chains, Primed, Pow2, WithString, WithStrings;
    WithStringsStep(g.ins, g.base, g.base + s.strstart, 0);
    AtStringIs(d, g.data, g.base, ins, s.strstart + 1, h1);
    ghost var all, k := ins, 1;
    var maxInsert := s.strstart + s.lookahead - MIN_MATCH;
    var insH, str := h1, s.strstart;
    while str + 1 < s.strstart + n
      invariant s.strstart <= str < s.strstart + n && 1 <= k <= n
      invariant AtString(d, g.data, g.base, all, s.strstart + k, insH)
      invariant if str <= maxInsert then s.strstart + k == str + 1 else s.strstart + k == maxInsert + 1
      invariant all == WithStrings(g.ins, g.base, g.base + s.strstart, k)
    {
      str := str + 1;
      if str <= maxInsert {
        var hashHead;
        assert str == s.strstart + k;
        WithStringsStep(g.ins, g.base, g.base + s.strstart, k);
        insH, hashHead, all := EnterString(d, str, insH, g.data, g.base, all, s.strstart + s.lookahead);
        k := k + 1;
      }
    }
    t := s.(strstart := s.strstart + n, lookahead := s.lookahead - n, insH := insH);
    h := g.(ins := all, top := g.base + s.strstart + k);
    LzPassed(d, t, g, all, s.strstart + k);
  }

  lemma LzPassed(d: Dict, t: Lz, g: Past, ins: set<nat>, done: nat)
    requires AtString(d, g.data, g.base, ins, done, t.insH) && done <= t.strstart && t.insert == 0 &&
             t.next <= |t.input|
    requires |g.data| == g.base + t.strstart + t.lookahead &&
             WindowHas(d.window[..], g.data, g.base, t.strstart + t.lookahead)
    requires done == t.strstart || t.lookahead < MIN_MATCH
    ensures LzOk(d, t, g.(ins := ins, top := g.base + done))
  {
    hide Chains, Primed, WindowHas;
  }

  /** Moves on by `n` bytes after the current string was entered, or could not be. */
  method Advance(d: Dict, s: Lz, ghost g: Past, insH: nat, n: nat, ghost ins: set<nat>) returns (t: Lz, ghost h: Past)
    requires s.lookahead >= MIN_MATCH ==>
               AtString(d, g.data, g.base, ins, s.strstart + 1, insH) && s.insert == 0 &&
               ins == WithString(g.ins, g.base, g.base + s.strstart)
    requires s.lookahead < MIN_MATCH ==> LzOk(d, s, g)
    requires 1 <= n <= s.lookahead && s.next <= |s.input|
    requires |g.data| == g.base + s.strstart + s.lookahead &&
             WindowHas(d.window[..], g.data, g.base, s.strstart + s.lookahead)
    modifies d.head, d.prev
    ensures LzOk(d, t, h) && h == g.(ins := SlowEntered(s, g, n), top := h.top)
    ensures t == s.(strstart := s.strstart + n, lookahead := s.lookahead - n, insH := t.insH)
  {
    hide AtString, LzOk, WindowHas, WithString, WithStrings;
    if s.lookahead >= MIN_MATCH {
      t, h := SlowInsert(d, s, g, insH, n, ins);
    } else {
      t, h := s.(strstart := s.strstart + n, lookahead := s.lookahead - n), g;
      LzSkip(d, s, g, t, n);
    }
  }

  /** Only the match fields differ. */
  lemma LzFields(d: Dict, s: Lz, g: Past, t: Lz)
    requires LzOk(d, s, g)
    requires t == s.(matchStart := t.matchStart, matchLength := t.matchLength, prevLength := t.prevLength,
                     prevMatch := t.prevMatch, matchAvailable := t.matchAvailable, blockStart := t.blockStart)
    ensures LzOk(d, t, g)
  {
    hide Chains, Primed, WindowHas;
  }

  /** What one step knows after its search. */
  ghost predicate Looked(c: Coder, s: Lz, g: Past, insH: nat, ins: set<nat>)
    reads c.d.window, c.d.head, c.d.prev
  {
    (s.lookahead >= MIN_MATCH ==>
       AtString(c.d, g.data, g.base, ins, s.strstart + 1, insH) && s.insert == 0 &&
       ins == WithString(g.ins, g.base, g.base + s.strstart)) &&
    (s.lookahead < MIN_MATCH ==> LzOk(c.d, s, g)) && 1 <= s.lookahead && s.next <= |s.input| &&
    |g.data| == g.base + s.strstart + s.lookahead && WindowHas(c.d.window[..], g.data, g.base, s.strstart + s.lookahead)
  }

  /** What every kind of step leads to. */
  ghost predicate SlowStepped(c: Coder, t: Lz, h: Past, s: Lz, g: Past)
    reads c.d.window, c.d.head, c.d.prev
    reads c, c.trees`dist, c.trees`lc, c.trees`optLen, c.trees`staticLen, c.trees.lfc, c.trees.dfc, c.trees.bfc, c.w
  {
    SlowReady(c, t, h) && t.input == s.input && t.next == s.next && h == g.(ins := h.ins, top := h.top) &&
    t.lookahead < s.lookahead
  }

  lemma SameEntered(s: Lz, u: Lz, g: Past, n: nat)
    requires u.strstart == s.strstart && u.lookahead == s.lookahead
    ensures SlowEntered(u, g, n) == SlowEntered(s, g, n)
  {
    hide WithStrings;
  }

  /** The previous match is the better one: it is output. */
  method OutputMatch(c: Coder, s: Lz, ghost g: Past, insH: nat, len: nat, start: int, ghost ins: set<nat>,
                     availOut0: nat)
    returns (stop: bool, t: Lz, ghost h: Past, availOut: nat)
    requires s.strstart >= 1 && Looked(c, s, g, insH, ins) &&
             OutOk(c, g.data, g.base + s.blockStart, g.base + s.strstart - 1) && Space(c) && c.Apart() &&
             c.w.biValid <= 7
    requires len >= MIN_MATCH && Pending(c.d.f, g.data, g.base + s.strstart - 1, g.base + start, len) &&
             Behind(c.marks, g.base) && Behind(c.marks, g.base + start)
    requires c.d.Shape() && c.d.f.useHash && s.strstart + MIN_LOOKAHEAD <= c.d.window.Length
    modifies c.d.head, c.d.prev, c.trees, c.trees.Repr(), c.w, c`log
    ensures SlowStepped(c, t, h, s, g) && availOut <= availOut0 &&
            Handed(old(c.w.delivered), c.w.delivered, availOut0, availOut) && (stop ==> availOut == 0)
    ensures c.trees.Valid() && start < s.strstart - 1 &&
            History(c) == old(History(c)) + [Copy(len, s.strstart - 1 - start)] &&
            |c.log| == After(|old(c.log)|, |old(c.trees.dist)|, c.trees.litBufsize)
    ensures !t.matchAvailable && t.matchLength == 2 && t.strstart == s.strstart + len - 1 &&
            h.ins == SlowEntered(s, g, len - 1)
  {
    hide LzOk, AtString, WindowHas, Chains, Primed, Pow2, OutOk, RealMatch, c.d.Shape, Closed, Handed, SlowEntered,
         c.trees.Valid, LogTokens, Behind, Text, Marked, Logged, Within, Ready, SlowStepped;
    OutIs(c, g.data, g.base + s.blockStart, g.base + s.strstart - 1);
    PendingIs(c.d.f, g.data, g.base + s.strstart - 1, g.base + start, len);
    ShapeConf(c.d);
    WSizes(c.d.f);
    var flush := EmitMatch(c, s.strstart - 1 - start, len, g.data, g.base + s.blockStart, g.base + s.strstart - 1);
    var u := s.(matchAvailable := false, matchLength := 2, prevLength := 0);
    if s.lookahead < MIN_MATCH { LzFields(c.d, s, g, u); }
    t, h := Advance(c.d, u, g, insH, len - 1, ins);
    SameEntered(s, u, g, len - 1);
    OutIs(c, g.data, g.base + s.blockStart, g.base + t.strstart);
    stop, t, availOut := FlushIf(c, t, h, flush, availOut0);
    NothingWaits(c, t, h, s, g);
  }

  lemma NothingWaits(c: Coder, t: Lz, h: Past, s: Lz, g: Past)
    requires Ready(c, t, h, h.base + t.strstart) && !t.matchAvailable && t.matchLength == 2 && c.d.f.useHash
    requires t.input == s.input && t.next == s.next && h == g.(ins := h.ins, top := h.top) && t.lookahead < s.lookahead
    ensures SlowStepped(c, t, h, s, g)
  {
    hide Ready;
  }

  /** The byte before the current one becomes a literal. */
  method WriteLiteral(c: Coder, s: Lz, ghost g: Past, availOut0: nat) returns (blockStart: int, availOut: nat)
    requires s.strstart >= 1 && OutOk(c, g.data, g.base + s.blockStart, g.base + s.strstart - 1) && Space(c) &&
             c.Apart() && c.w.biValid <= 7
    requires |g.data| == g.base + s.strstart + s.lookahead && s.strstart <= 65535 &&
             WindowHas(c.d.window[..], g.data, g.base, s.strstart + s.lookahead)
    modifies c.trees, c.trees.Repr(), c.w, c`log
    ensures OutOk(c, g.data, g.base + blockStart, g.base + s.strstart) && Space(c) && c.w.biValid <= 7
    ensures c.trees.Valid() && History(c) == old(History(c)) + [Literal(g.data[g.base + s.strstart - 1])]
    ensures |c.log| == After(|old(c.log)|, |old(c.trees.dist)|, c.trees.litBufsize)
    ensures (blockStart == s.blockStart || blockStart == s.strstart) && availOut <= availOut0 &&
            Handed(old(c.w.delivered), c.w.delivered, availOut0, availOut)
  {
    hide WindowHas, OutOk, Closed, Handed, c.trees.Valid, LogTokens, Text, Marked, Logged, Within, Added;
    OutIs(c, g.data, g.base + s.blockStart, g.base + s.strstart - 1);
    HandedNone(c.w.delivered, availOut0);
    blockStart, availOut := s.blockStart, availOut0;
    WindowSize(c.d.window[..], g.data, g.base, s.strstart + s.lookahead);
    ByteAt(c.d.window[..], g.data, g.base, s.strstart + s.lookahead, s.strstart - 1);
    var flush := EmitLiteral(c, c.d.window[s.strstart - 1], g.data, g.base + s.blockStart, g.base + s.strstart - 1);
    OutIs(c, g.data, g.base + s.blockStart, g.base + s.strstart);
    if flush {
      ghost var ts, log := c.trees.Tokens(), c.log;
      availOut := FlushOnly(c, s.blockStart, s.strstart, false, availOut, g.data, g.base, s.strstart + s.lookahead);
      ClosedOut(c, g.data, g.base + s.strstart);
      SameHistory(c, log, ts, g.data, g.base + s.strstart);
      NoTokens(c);
      blockStart := s.strstart;
    }
  }

  lemma NoTokens(c: Coder)
    requires c.trees.Valid() && c.trees.dist == [] && c.trees.litBufsize >= 3
    ensures Space(c)
  {
  }

  lemma SameHistory(c: Coder, log: seq<Sent>, ts: seq<Token>, data: seq<byte>, pos: nat)
    requires Closed(c, data, pos, false) && (exists buf :: Added(c.log, log, ts, buf, false))
    ensures c.trees.Valid() && History(c) == LogTokens(log) + ts && |c.log| == |log| + 1
  {
    hide Text, Marked, Logged, c.trees.Valid, LogTokens;
    ClosedIs(c, data, pos, false);
    EmptyTokens(c);
  }

  /** The current byte waits, with the match found for it. */
  method Wait(c: Coder, s: Lz, ghost g: Past, insH: nat, len: nat, start: int, ghost ins: set<nat>)
    returns (t: Lz, ghost h: Past)
    requires Looked(c, s, g, insH, ins) && OutOk(c, g.data, g.base + s.blockStart, g.base + s.strstart) && Space(c) &&
             c.Apart() && c.w.biValid <= 7
    requires Pending(c.d.f, g.data, g.base + s.strstart, g.base + start, len) && c.d.Shape() && c.d.f.useHash &&
             s.strstart + MIN_LOOKAHEAD <= c.d.window.Length && Behind(c.marks, g.base) &&
             (len >= MIN_MATCH ==> Behind(c.marks, g.base + start))
    modifies c.d.head, c.d.prev
    ensures SlowStepped(c, t, h, s, g)
    ensures t.matchAvailable && t.matchLength == len && t.matchStart == start && t.strstart == s.strstart + 1 &&
            h.ins == SlowEntered(s, g, 1)
  {
    hide LzOk, AtString, WindowHas, Chains, Primed, Pow2, OutOk, Pending, c.d.Shape, SlowEntered, Behind;
    ShapeConf(c.d);
    WSizes(c.d.f);
    var u := s.(matchLength := len, matchStart := start, matchAvailable := true);
    if s.lookahead < MIN_MATCH { LzFields(c.d, s, g, u); }
    t, h := Advance(c.d, u, g, insH, 1, ins);
    SameEntered(s, u, g, 1);
  }

  /** The previous match is not the better one: the byte before the current one, if it waits, is written. */
  method OutputLiteral(c: Coder, s: Lz, ghost g: Past, insH: nat, len: nat, start: int, ghost ins: set<nat>,
                       availOut0: nat)
    returns (t: Lz, ghost h: Past, availOut: nat)
    requires s.strstart >= 1 && Looked(c, s, g, insH, ins) &&
             OutOk(c, g.data, g.base + s.blockStart, g.base + s.strstart - 1) && Space(c) && c.Apart() &&
             c.w.biValid <= 7
    requires Pending(c.d.f, g.data, g.base + s.strstart, g.base + start, len) && Behind(c.marks, g.base) &&
             (len >= MIN_MATCH ==> Behind(c.marks, g.base + start))
    requires c.d.Shape() && c.d.f.useHash && s.strstart + MIN_LOOKAHEAD <= c.d.window.Length
    modifies c.d.head, c.d.prev, c.trees, c.trees.Repr(), c.w, c`log
    ensures SlowStepped(c, t, h, s, g) && availOut <= availOut0 &&
            Handed(old(c.w.delivered), c.w.delivered, availOut0, availOut)
    ensures c.trees.Valid() && g.base + s.strstart <= |g.data| &&
            History(c) == old(History(c)) + [Literal(g.data[g.base + s.strstart - 1])] &&
            |c.log| == After(|old(c.log)|, |old(c.trees.dist)|, c.trees.litBufsize)
    ensures t.matchAvailable && t.matchLength == len && t.matchStart == start && t.strstart == s.strstart + 1 &&
            h.ins == SlowEntered(s, g, 1)
  {
    hide LzOk, AtString, WindowHas, Chains, Primed, Pow2, OutOk, Pending, c.d.Shape, Handed, SlowEntered, c.trees.Valid,
         LogTokens, Behind, Space, SlowStepped;
    ShapeConf(c.d);
    WSizes(c.d.f);
    var blockStart;
    blockStart, availOut := WriteLiteral(c, s, g, availOut0);
    var u := s.(blockStart := blockStart);
    if s.lookahead < MIN_MATCH { LzFields(c.d, s, g, u); }
    t, h := Wait(c, u, g, insH, len, start, ins);
    SteppedFrom(c, t, h, u, s, g);
    SameEntered(s, u, g, 1);
  }

  lemma SlowIs(c: Coder, s: Lz, g: Past)
    requires SlowReady(c, s, g)
    ensures c.d.f.useHash && (s.matchAvailable ==> s.strstart >= 1) && Ready(c, s, g, Coded(s, g)) &&
            (s.matchLength >= MIN_MATCH ==> s.matchAvailable && Behind(c.marks, g.base + s.matchStart))
    ensures Pending(c.d.f, g.data, g.base + s.strstart - 1, g.base + s.matchStart, s.matchLength)
  {
    hide Ready, Pending;
  }

  /** What a step starts from. */
  lemma SlowParts(c: Coder, s: Lz, g: Past, u: Lz)
    requires SlowReady(c, s, g) && u == s.(prevLength := s.matchLength, prevMatch := s.matchStart)
    ensures LzOk(c.d, u, g) && OutOk(c, g.data, g.base + s.blockStart, Coded(s, g)) && Space(c) && c.Apart() &&
            c.w.biValid <= 7 && Behind(c.marks, g.base) && c.d.f.useHash
    ensures c.trees.Valid() && |g.data| == g.base + s.strstart + s.lookahead
    ensures (s.matchAvailable ==> s.strstart >= 1) && 2 <= s.matchLength <= MAX_MATCH
    ensures s.matchLength >= MIN_MATCH ==>
              s.matchAvailable && Behind(c.marks, g.base + s.matchStart) && s.matchStart < s.strstart - 1 &&
              Pending(c.d.f, g.data, g.base + s.strstart - 1, g.base + s.matchStart, s.matchLength)
  {
    hide LzOk, OutOk, Pending, Ready, SlowReady, Space, Behind, c.trees.Valid, Text, Marked, Logged, Within, c.Apart,
         c.d.Shape, Chains, WindowHas, Primed;
    SlowIs(c, s, g);
    ReadyIs(c, s, g, Coded(s, g));
    OutIs(c, g.data, g.base + s.blockStart, Coded(s, g));
    LzIs(c.d, s, g);
    PendingIs(c.d.f, g.data, g.base + s.strstart - 1, g.base + s.matchStart, s.matchLength);
    LzFields(c.d, s, g, u);
  }

  /** One step of the lazy evaluation. */
  method SlowStep(c: Coder, s: Lz, ghost g: Past, availOut0: nat)
    returns (stop: bool, t: Lz, ghost h: Past, availOut: nat, ghost find: Find, ghost ts: seq<Token>)
    requires SlowReady(c, s, g) && s.lookahead >= 1 && s.strstart + MIN_LOOKAHEAD <= c.d.window.Length
    modifies c.d.head, c.d.prev, c.trees, c.trees.Repr(), c.w, c`log
    ensures SlowStepped(c, t, h, s, g) && availOut <= availOut0 &&
            Handed(old(c.w.delivered), c.w.delivered, availOut0, availOut) && (stop ==> availOut == 0)
    ensures Lazily(c.d.f, c.filtered, s.(prevLength := s.matchLength, prevMatch := s.matchStart), g, find) &&
            LazyStep(s, g, find, ts, t) && t.strstart > s.strstart &&
            h.ins == SlowEntered(s, g, t.strstart - s.strstart)
    ensures c.trees.Valid() && History(c) == old(History(c)) + ts
    ensures |c.log| == if ts == [] then |old(c.log)| else After(|old(c.log)|, |old(c.trees.dist)|, c.trees.litBufsize)
  {
    hide LzOk, AtString, WindowHas, Chains, Primed, Pow2, OutOk, Pending, Ready, SlowReady, SlowStepped, c.d.Shape,
         Space, Handed, Behind, c.trees.Valid, LogTokens, SlowEntered, WithString, Searched, Lazily, Text, Marked,
         Logged, Within, LazyStep, Looked;
    HandedNone(c.w.delivered, availOut0);
    availOut := availOut0;
    var u := s.(prevLength := s.matchLength, prevMatch := s.matchStart);
    SlowParts(c, s, g, u);
    var insH, d;
    ghost var ins;
    insH, d, ins := Look(c, u, g);
    find := d;
    SameEntered(s, u, g, 1);
    if u.prevLength >= MIN_MATCH && d.len <= u.prevLength {
      SameEntered(s, u, g, s.matchLength - 1);
      stop, t, h, availOut := OutputMatch(c, u, g, insH, u.prevLength, u.prevMatch, ins, availOut);
      SteppedFrom(c, t, h, u, s, g);
      ts := [Copy(s.matchLength, s.strstart - 1 - s.matchStart)];
      StepIs(s, g, d, ts, t);
      return;
    }
    NoBetter(c.d.f, g.data, g.base + s.strstart, g.base + d.start, d.len, u.prevLength);
    if s.matchAvailable {
      t, h, availOut := OutputLiteral(c, u, g, insH, d.len, d.start, ins, availOut);
      stop, ts := availOut == 0, [Literal(g.data[g.base + s.strstart - 1])];
    } else {
      t, h := Wait(c, u, g, insH, d.len, d.start, ins);
      stop, ts := false, [];
    }
    SteppedFrom(c, t, h, u, s, g);
    StepIs(s, g, d, ts, t);
  }

  /** The search of a step, if there is enough to search for. */
  method Look(c: Coder, s: Lz, ghost g: Past) returns (insH: nat, d: Find, ghost ins: set<nat>)
    requires LzOk(c.d, s, g) && c.d.f.useHash && 1 <= s.lookahead && s.strstart + MIN_LOOKAHEAD <= c.d.window.Length &&
             2 <= s.prevLength <= MAX_MATCH && Behind(c.marks, g.base)
    modifies c.d.head, c.d.prev
    ensures Looked(c, s, g, insH, ins) && c.d.Shape()
    ensures 2 <= d.len <= MAX_MATCH && Lazily(c.d.f, c.filtered, s, g, d)
    ensures d.len > s.prevLength ==>
              Pending(c.d.f, g.data, g.base + s.strstart, g.base + d.start, d.len) &&
              Behind(c.marks, g.base + d.start)
  {
    hide LzOk, AtString, Chains, Primed, WindowHas, Pow2, c.d.Shape, Searched, WithString, Lazily, Pending, Behind;
    LzIs(c.d, s, g);
    insH, ins, d := s.insH, g.ins, Find(false, 0, 2, s.matchStart);
    if s.lookahead >= MIN_MATCH {
      LzString(c.d, s, g);
      insH, d, ins := Search(c, s, g);
      if d.len > s.prevLength { BehindMore(c.marks, g.base, g.base + d.start); }
    } else {
      NoSearch(c.d.f, c.filtered, s, g, d);
    }
  }

  lemma NoSearch(f: Conf, filtered: bool, s: Lz, g: Past, d: Find)
    requires s.lookahead < MIN_MATCH && d.len == 2
    ensures Lazily(f, filtered, s, g, d)
  {
    hide Searched;
  }

  lemma StepIs(s: Lz, g: Past, d: Find, ts: seq<Token>, t: Lz)
    requires if s.matchLength >= MIN_MATCH && d.len <= s.matchLength then
               s.matchStart < s.strstart - 1 && ts == [Copy(s.matchLength, s.strstart - 1 - s.matchStart)] &&
               !t.matchAvailable && t.matchLength == 2 && t.strstart == s.strstart + s.matchLength - 1
             else
               (if s.matchAvailable then
                  1 <= g.base + s.strstart <= |g.data| && ts == [Literal(g.data[g.base + s.strstart - 1])]
                else ts == []) &&
               t.matchAvailable && t.matchLength == d.len && t.matchStart == d.start && t.strstart == s.strstart + 1
    ensures LazyStep(s, g, d, ts, t)
  {
  }

  lemma SteppedFrom(c: Coder, t: Lz, h: Past, u: Lz, s: Lz, g: Past)
    requires SlowStepped(c, t, h, u, g) && u.input == s.input && u.next == s.next && u.lookahead == s.lookahead
    ensures SlowStepped(c, t, h, s, g)
  {
    hide SlowReady;
  }

  /** A match that is not longer than the previous one and not output is no match at all. */
  lemma NoBetter(f: Conf, data: seq<byte>, p: nat, start: int, len: nat, prevLength: nat)
    requires 2 <= len <= MAX_MATCH && (len > prevLength ==> Pending(f, data, p, start, len)) && 2 <= prevLength &&
             (prevLength < MIN_MATCH || len > prevLength)
    ensures Pending(f, data, p, start, len)
  {
  }

  /** What a step of deflate_slow is. */
  ghost predicate SlowMove(f: Conf, filtered: bool, e: Move)
  {
    exists d :: Lazily(f, filtered, e.s.(prevLength := e.s.matchLength, prevMatch := e.s.matchStart), e.g, d) &&
                LazyStep(e.s, e.g, d, e.toks, e.t) && SlowOn(e)
  }

  /** A step moves on and enters the strings it passes. */
  ghost predicate SlowOn(e: Move)
  {
    e.t.strstart > e.s.strstart && e.h.ins == SlowEntered(e.s, e.g, e.t.strstart - e.s.strstart) &&
    e.h.base == e.g.base && e.h.data == e.g.data && e.t.input == e.s.input && e.t.next == e.s.next
  }

  ghost predicate SlowMoves(f: Conf, filtered: bool, es: seq<Move>)
  {
    forall i :: 0 <= i < |es| ==> SlowMove(f, filtered, es[i])
  }

  /** The call so far: the steps `es` led from the state `s0` to `s`, and `ts` has become `us`. */
  ghost predicate SlowSoFar(f: Conf, filtered: bool, es: seq<Move>, s0: Lz, g0: Past, s: Lz, g: Past, ts: seq<Token>,
                            us: seq<Token>)
  {
    Chained(es, s0, g0) && SlowMoves(f, filtered, es) && us == ts + Toks(es) && s == EndS(es, s0) && g == EndG(es, g0)
  }

  lemma SlowNext(f: Conf, filtered: bool, es: seq<Move>, s0: Lz, g0: Past, e: Move, d: Find, ts: seq<Token>,
                 us: seq<Token>)
    requires SlowSoFar(f, filtered, es, s0, g0, e.from, e.past, ts, us) && Filled(e.s, e.g, e.from, e.past)
    requires Lazily(f, filtered, e.s.(prevLength := e.s.matchLength, prevMatch := e.s.matchStart), e.g, d)
    requires LazyStep(e.s, e.g, d, e.toks, e.t) && SlowOn(e)
    ensures SlowSoFar(f, filtered, es + [e], s0, g0, e.t, e.h, ts, us + e.toks)
  {
    hide Lazily, LazyStep, SlowOn, Filled, Chained, Toks;
    ChainNext(es, e, s0, g0);
    assert SlowMove(f, filtered, e);
    forall i | 0 <= i < |es + [e]| ensures SlowMove(f, filtered, (es + [e])[i]) {
      if i < |es| { assert (es + [e])[i] == es[i]; }
    }
    assert (ts + Toks(es)) + e.toks == ts + (Toks(es) + e.toks);
  }

  lemma SlowStart(c: Coder, s0: Lz, g0: Past)
    requires SlowReady(c, s0, g0)
    ensures c.trees.Valid() && c.trees.Buffered()
    ensures SlowSoFar(c.d.f, c.filtered, [], s0, g0, s0, g0, History(c), History(c))
  {
    hide Ready, Pending, LogTokens, c.trees.Valid, LzOk, OutOk;
    SlowIs(c, s0, g0);
    ReadyTrees(c, s0, g0, Coded(s0, g0));
    assert History(c) + [] == History(c);
  }

  /** What the call so far means at its end. */
  lemma SlowDone(f: Conf, filtered: bool, es: seq<Move>, s0: Lz, g0: Past, v: Lz, w: Past, ts: seq<Token>,
                 us: seq<Token>)
    requires SlowSoFar(f, filtered, es, s0, g0, v, w, ts, us)
    ensures Chained(es, s0, g0) && SlowMoves(f, filtered, es) && us == ts + Toks(es) + [] && v == EndS(es, s0) &&
            w == EndG(es, g0)
  {
    hide Chained, SlowMoves, Toks;
  }

  /** The literal for the byte that waits at the end of the input. */
  function LastLiteral(s: Lz, g: Past): (ts: seq<Token>)
  {
    if s.matchAvailable && 1 <= g.base + s.strstart <= |g.data| then [Literal(g.data[g.base + s.strstart - 1])] else []
  }

  /** deflate_slow. */
  method DeflateSlow(c: Coder, s0: Lz, ghost g0: Past, flush: FlushMode, availOut0: nat)
    returns (r: BlockState, s: Lz, ghost g: Past, availOut: nat, ghost es: seq<Move>, ghost end: seq<Token>)
    requires SlowReady(c, s0, g0)
    modifies c.d.window, c.d.head, c.d.prev, c.trees, c.trees.Repr(), c.w, c`log
    ensures Outcome(c, r, s, g, s0, g0) && availOut <= availOut0 &&
            Handed(old(c.w.delivered), c.w.delivered, availOut0, availOut)
    ensures r == NeedMore || r == BlockDone ==> SlowReady(c, s, g)
    ensures r == NeedMore || r == FinishStarted ==> (flush == NO_FLUSH && s.next == |s.input|) || availOut == 0
    ensures (r == FinishDone || r == FinishStarted ==> flush == FINISH) && (r == BlockDone ==> flush != FINISH) &&
            (r == FinishDone ==> availOut > 0)
    ensures r == NeedMore && flush == FINISH ==> Left(s) < Left(s0)
    ensures r == NeedMore && availOut > 0 ==> s.lookahead < MIN_LOOKAHEAD
    ensures r != NeedMore ==> s.insert == if s.strstart < 2 then s.strstart else 2
    ensures Chained(es, s0, g0) && SlowMoves(c.d.f, c.filtered, es) && c.trees.Buffered()
    ensures History(c) == old(History(c)) + Toks(es) + end
    ensures end == [] || (s.lookahead == 0 && end == LastLiteral(EndS(es, s0), EndG(es, g0)))
  {
    hide LzOk, OutOk, WindowHas, Chains, Primed, Pow2, c.d.Shape, Space, SlowReady, Ready, Pending, WholeStream, Handed,
         Lazily, LazyStep, SlowEntered, c.trees.Valid, LogTokens, SlowStepped, Behind, Since, Filled, Chained,
         SlowMoves, Toks, Outcome, LastLiteral, SlowSoFar;
    s, g, availOut, es, end := s0, g0, availOut0, [], [];
    ghost var d0 := c.w.delivered;
    HandedNone(d0, availOut);
    SlowIs(c, s, g);
    ReadyIs(c, s, g, Coded(s, g));
    SinceStart(s, g);
    SlowStart(c, s, g);
    ghost var past := History(c);
    while true
      invariant SlowReady(c, s, g) && Since(s, g, s0, g0) && availOut <= availOut0 &&
                Handed(d0, c.w.delivered, availOut0, availOut) && Left(s) <= Left(s0) && s.next <= |s.input|
      invariant c.trees.Buffered() && SlowSoFar(c.d.f, c.filtered, es, s0, g0, s, g, past, History(c))
      decreases Left(s)
    {
      ghost var v, w := s, g;
      s, g := TopUpSlow(c, s, g, s0, g0);
      if s.lookahead < MIN_LOOKAHEAD && flush == NO_FLUSH {
        StopSlow(c, s, g, s0, g0);
        SlowDone(c.d.f, c.filtered, es, s0, g0, v, w, past, History(c));
        return NeedMore, s, g, availOut, es, [];
      }
      ghost var d1, a1 := c.w.delivered, availOut;
      if s.lookahead == 0 {
        r, s, availOut, end := SlowFinish(c, s, g, flush, availOut, s0, g0, es, v, w, past);
        HandedTwice(d0, d1, c.w.delivered, availOut0, a1, availOut);
        return;
      }
      var stop;
      stop, s, g, availOut, es := SlowRound(c, s, g, availOut, s0, g0, es, v, w, past);
      HandedTwice(d0, d1, c.w.delivered, availOut0, a1, availOut);
      if stop {
        StopSlow(c, s, g, s0, g0);
        SlowDone(c.d.f, c.filtered, es, s0, g0, s, g, past, History(c));
        return NeedMore, s, g, availOut, es, [];
      }
    }
  }

  /** The end of the input within a call. */
  method SlowFinish(c: Coder, s: Lz, ghost g: Past, flush: FlushMode, availOut0: nat, ghost s0: Lz, ghost g0: Past,
                    ghost es: seq<Move>, ghost v: Lz, ghost w: Past, ghost past: seq<Token>)
    returns (r: BlockState, t: Lz, availOut: nat, ghost end: seq<Token>)
    requires SlowReady(c, s, g) && Since(s, g, s0, g0) && s.next == |s.input| && s.lookahead == 0
    requires c.trees.Buffered() && Filled(s, g, v, w) &&
             SlowSoFar(c.d.f, c.filtered, es, s0, g0, v, w, past, History(c))
    modifies c.trees, c.trees.Repr(), c.w, c`log
    ensures Outcome(c, r, t, g, s0, g0) && availOut <= availOut0 &&
            Handed(old(c.w.delivered), c.w.delivered, availOut0, availOut)
    ensures r == NeedMore || r == BlockDone ==> SlowReady(c, t, g)
    ensures (r == NeedMore || r == FinishStarted ==> availOut == 0) && (r == NeedMore ==> flush != FINISH)
    ensures (r == FinishDone || r == FinishStarted ==> flush == FINISH) && (r == BlockDone ==> flush != FINISH) &&
            (r == FinishDone ==> availOut > 0)
    ensures Chained(es, s0, g0) && SlowMoves(c.d.f, c.filtered, es) && c.trees.Buffered() &&
            History(c) == past + Toks(es) + end
    ensures t.lookahead == 0 && end == LastLiteral(EndS(es, s0), EndG(es, g0)) &&
            t.insert == if t.strstart < 2 then t.strstart else 2
  {
    hide SlowReady, c.trees.Valid, LogTokens, Since, Filled, SlowSoFar, Handed, Outcome, Chained, SlowMoves, Toks,
         LastLiteral;
    LastSame(s, g, v, w);
    SlowDone(c.d.f, c.filtered, es, s0, g0, v, w, past, History(c));
    end := LastLiteral(s, g);
    r, t, availOut := SlowEnd(c, s, g, flush, availOut0, s0, g0);
  }

  /** A step within a call. */
  method SlowRound(c: Coder, s: Lz, ghost g: Past, availOut0: nat, ghost s0: Lz, ghost g0: Past, ghost es0: seq<Move>,
                   ghost v: Lz, ghost w: Past, ghost past: seq<Token>)
    returns (stop: bool, t: Lz, ghost h: Past, availOut: nat, ghost es: seq<Move>)
    requires SlowReady(c, s, g) && Since(s, g, s0, g0) && s.lookahead >= 1 &&
             s.strstart + MIN_LOOKAHEAD <= c.d.window.Length
    requires c.trees.Buffered() && Filled(s, g, v, w) &&
             SlowSoFar(c.d.f, c.filtered, es0, s0, g0, v, w, past, History(c))
    modifies c.d.head, c.d.prev, c.trees, c.trees.Repr(), c.w, c`log
    ensures SlowReady(c, t, h) && Since(t, h, s0, g0) && t.input == s.input && t.next == s.next &&
            t.lookahead < s.lookahead && availOut <= availOut0 &&
            Handed(old(c.w.delivered), c.w.delivered, availOut0, availOut) && (stop ==> availOut == 0)
    ensures c.trees.Buffered() && SlowSoFar(c.d.f, c.filtered, es, s0, g0, t, h, past, History(c))
  {
    hide SlowReady, Lazily, LazyStep, SlowEntered, c.trees.Valid, LogTokens, SlowStepped, Since, Filled, SlowSoFar,
         Handed;
    ghost var find, ts, h1 := Find(false, 0, 0, 0), [], History(c);
    stop, t, h, availOut, find, ts := SlowStep(c, s, g, availOut0);
    SteppedIs(c, t, h, s, g);
    SinceSame(s, g, t, h, s0, g0);
    ValidBuffered(c);
    ghost var e := Move(v, w, s, g, ts, t, h);
    SlowNext(c.d.f, c.filtered, es0, s0, g0, e, find, past, h1);
    es := es0 + [e];
  }

  lemma StopSlow(c: Coder, s: Lz, g: Past, s0: Lz, g0: Past)
    requires SlowReady(c, s, g) && Since(s, g, s0, g0)
    ensures Outcome(c, NeedMore, s, g, s0, g0)
  {
    hide Ready, Pending;
    SlowIs(c, s, g);
  }

  lemma LastSame(s: Lz, g: Past, v: Lz, w: Past)
    requires Filled(s, g, v, w) && s.lookahead == 0
    ensures LastLiteral(s, g) == LastLiteral(v, w)
  {
    assert s.input[v.next..s.next] == [];
    assert g.data == w.data;
  }

  lemma SteppedIs(c: Coder, t: Lz, h: Past, s: Lz, g: Past)
    requires SlowStepped(c, t, h, s, g)
    ensures SlowReady(c, t, h) && t.input == s.input && t.next == s.next && h.data == g.data && h.base == g.base &&
            t.lookahead < s.lookahead
  {
    hide SlowReady;
  }

  method TopUpSlow(c: Coder, s: Lz, ghost g: Past, ghost s0: Lz, ghost g0: Past) returns (t: Lz, ghost h: Past)
    requires SlowReady(c, s, g) && Since(s, g, s0, g0)
    modifies c.d.window, c.d.head, c.d.prev
    ensures SlowReady(c, t, h) && Since(t, h, s0, g0) &&
            |t.input| - t.next + t.lookahead == |s.input| - s.next + s.lookahead
    ensures t.next <= |t.input| && (t.lookahead >= MIN_LOOKAHEAD || t.next == |t.input|)
    ensures t.strstart + MIN_LOOKAHEAD <= c.d.window.Length && Filled(t, h, s, g) && c.trees.Buffered()
  {
    hide Ready, Pending, Since, SlowReady;
    SlowIs(c, s, g);
    t, h := TopUp(c, s, g, Coded(s, g), MIN_LOOKAHEAD, s0, g0);
    PendingMore(c.d.f, g.data, h.data, g.base + s.strstart - 1, g.base + s.matchStart, s.matchLength);
    SlowFrom(c, t, h);
    ReadyIs(c, t, h, Coded(t, h));
  }

  lemma SlowFrom(c: Coder, s: Lz, g: Past)
    requires c.d.f.useHash && (s.matchAvailable ==> s.strstart >= 1) && Ready(c, s, g, Coded(s, g)) &&
             (s.matchLength >= MIN_MATCH ==> s.matchAvailable && Behind(c.marks, g.base + s.matchStart))
    requires Pending(c.d.f, g.data, g.base + s.strstart - 1, g.base + s.matchStart, s.matchLength)
    ensures SlowReady(c, s, g)
  {
    hide Ready, Pending;
  }

  /** The byte that waits becomes a literal. */
  method LastByte(c: Coder, s: Lz, ghost g: Past) returns (t: Lz)
    requires SlowReady(c, s, g) && s.next == |s.input| && s.lookahead == 0
    modifies c.trees`dist, c.trees`lc, c.trees.lfc
    ensures LzOk(c.d, t, g) && OutOk(c, g.data, g.base + t.blockStart, g.base + t.strstart) && c.Apart() &&
            Storable(t) && c.w.biValid <= 7 && Behind(c.marks, g.base) && c.d.f.useHash
    ensures t == s.(matchAvailable := false) && t.matchLength == 2 && |g.data| == g.base + s.strstart
    ensures c.trees.Valid() && (s.matchAvailable ==> 1 <= g.base + s.strstart <= |g.data|) &&
            c.trees.Tokens() ==
            old(c.trees.Tokens()) + if s.matchAvailable then [Literal(g.data[g.base + s.strstart - 1])] else []
  {
    hide LzOk, OutOk, WindowHas, Chains, Primed, Pow2, c.d.Shape, Space, SlowReady, Ready, Pending, Behind,
         c.trees.Valid, Text, Marked, Logged, Within;
    SlowIs(c, s, g);
    ReadyIs(c, s, g, Coded(s, g));
    PendingIs(c.d.f, g.data, g.base + s.strstart - 1, g.base + s.matchStart, s.matchLength);
    OutIs(c, g.data, g.base + s.blockStart, Coded(s, g));
    t := s;
    if s.matchAvailable {
      ByteAt(c.d.window[..], g.data, g.base, s.strstart + s.lookahead, s.strstart - 1);
      var bflush := EmitLiteral(c, c.d.window[s.strstart - 1], g.data, g.base + s.blockStart, g.base + s.strstart - 1);
      t := t.(matchAvailable := false);
      LzFields(c.d, s, g, t);
      OutIs(c, g.data, g.base + s.blockStart, g.base + s.strstart);
    }
  }

  /** The end of the input: the byte that waits becomes a literal. */
  method SlowEnd(c: Coder, s: Lz, ghost g: Past, flush: FlushMode, availOut0: nat, ghost s0: Lz, ghost g0: Past)
    returns (r: BlockState, t: Lz, availOut: nat)
    requires SlowReady(c, s, g) && Since(s, g, s0, g0) && s.next == |s.input| && s.lookahead == 0
    modifies c.trees, c.trees.Repr(), c.w, c`log
    ensures Outcome(c, r, t, g, s0, g0) && availOut <= availOut0 &&
            Handed(old(c.w.delivered), c.w.delivered, availOut0, availOut)
    ensures r == NeedMore || r == BlockDone ==> SlowReady(c, t, g)
    ensures r == NeedMore || r == FinishStarted ==> availOut == 0
    ensures (r == FinishDone || r == FinishStarted ==> flush == FINISH) && (r == BlockDone ==> flush != FINISH) &&
            (r == FinishDone ==> availOut > 0)
    ensures r == NeedMore ==> flush != FINISH
    ensures c.trees.Valid() && c.trees.Buffered() && History(c) == old(History(c)) + LastLiteral(s, g) &&
            t.lookahead == 0 && t.insert == if t.strstart < 2 then t.strstart else 2
  {
    hide LzOk, OutOk, WindowHas, Chains, Primed, Pow2, c.d.Shape, Space, SlowReady, Ready, Pending, WholeStream, Since,
         Handed, Behind, Outcome, c.trees.Valid, LogTokens, Text, Marked, Logged, Within;
    t := LastByte(c, s, g);
    ghost var u := t;
    t := t.(insert := if t.strstart < MIN_MATCH - 1 then t.strstart else MIN_MATCH - 1);
    LzEnd(c.d, u, g, t);
    SinceSame(s, g, t, g, s0, g0);
    r, t, availOut := EndOfInput(c, t, g, flush, availOut0, s0, g0);
    if r == NeedMore || r == BlockDone {
      OutcomeReady(c, r, t, g, s0, g0);
      NothingPending(c.d.f, g.data, g.base + t.strstart - 1, g.base + t.matchStart, t.matchLength);
      SlowFrom(c, t, g);
    }
    ValidBuffered(c);
  }

  lemma OutcomeReady(c: Coder, r: BlockState, s: Lz, g: Past, s0: Lz, g0: Past)
    requires Outcome(c, r, s, g, s0, g0) && (r == NeedMore || r == BlockDone)
    ensures Ready(c, s, g, Coded(s, g))
  {
    hide Ready;
  }

  lemma NothingPending(f: Conf, data: seq<byte>, p: int, start: int, len: nat)
    requires len == 2
    ensures Pending(f, data, p, start, len)
  {
  }
}
