/**
  deflate.c, deflate_fast: greedy matching.
*/
module DeflateFast {
  import opened Bits
  import opened Hash
  import opened HashChains
  import opened LongestMatch
  import opened FillWindow
  import opened Format
  import opened DeflateText
  import opened Restart
  import opened BlockLog
  import opened Emit
  import opened Moves

  datatype FlushMode = NO_FLUSH | PARTIAL_FLUSH | SYNC_FLUSH | FULL_FLUSH | FINISH | BLOCK_FLUSH
  datatype BlockState = NeedMore | BlockDone | FinishStarted | FinishDone

  /** A block that is still in the window fits a stored block. */
  predicate Storable(s: Lz) { s.blockStart < 0 || s.strstart - s.blockStart <= 65535 }

  /** The invariant of all compression functions: everything before `pos` is in the output or the token buffer. */
  ghost predicate Ready(c: Coder, s: Lz, g: Past, pos: nat)
    reads c.d.window, c.d.head, c.d.prev
    reads c, c.trees`dist, c.trees`lc, c.trees`optLen, c.trees`staticLen, c.trees.lfc, c.trees.dfc, c.trees.bfc, c.w
  {
    LzOk(c.d, s, g) && OutOk(c, g.data, g.base + s.blockStart, pos) && Space(c) && c.Apart() && Storable(s) &&
    c.w.biValid <= 7 && Behind(c.marks, g.base)
  }

  lemma ReadyIs(c: Coder, s: Lz, g: Past, pos: nat)
    requires Ready(c, s, g, pos)
    ensures LzOk(c.d, s, g) && OutOk(c, g.data, g.base + s.blockStart, pos) && Space(c) && c.Apart() && Storable(s) &&
            c.w.biValid <= 7 && Behind(c.marks, g.base)
    ensures |g.data| == g.base + s.strstart + s.lookahead && s.next <= |s.input| && pos <= |g.data| &&
            512 <= WSize(c.d.f) <= 32768
    ensures c.d.window.Length == 2 * WSize(c.d.f) &&
            WindowHas(c.d.window[..], g.data, g.base, s.strstart + s.lookahead) && MaxDist(c.d.f) < 32768
    ensures c.d.head !in c.trees.Repr() && c.d.prev !in c.trees.Repr() && s.strstart + s.lookahead <= c.d.window.Length
  {
    hide OutOk, Chains, Primed, WindowHas, LzOk, Pow2, c.d.Shape, Text, Behind, Marked, Logged;
    LzIs(c.d, s, g);
    ShapeConf(c.d);
    OutIs(c, g.data, g.base + s.blockStart, pos);
  }

  /** fill_window between two steps. */
  method Refill(c: Coder, s: Lz, ghost g: Past, ghost pos: nat) returns (t: Lz, ghost h: Past)
    requires Ready(c, s, g, pos) && s.lookahead < MIN_LOOKAHEAD
    modifies c.d.window, c.d.head, c.d.prev
    ensures Ready(c, t, h, pos) && Filled(t, h, s, g) && t.strstart + MIN_LOOKAHEAD <= c.d.window.Length
    ensures t.lookahead >= MIN_LOOKAHEAD || t.next == |t.input|
  {
    hide LzOk, OutOk, Chains, Primed, WindowHas, Pow2, Text, c.d.Shape, Kept, Behind;
    ReadyIs(c, s, g, pos);
    t, h := FillWindow.FillWindow(c.d, s, g);
    OutMore(c, g.data, s.input[s.next..t.next], g.base + s.blockStart, pos);
    BehindMore(c.marks, g.base, h.base);
  }

  lemma BehindMore(ms: set<Mark>, p: int, q: int)
    requires Behind(ms, p) && p <= q
    ensures Behind(ms, q)
  {
  }

  /** Everything a step needs. */
  ghost predicate Step1(c: Coder, s: Lz, g: Past)
    reads c.d.window, c.d.head, c.d.prev
    reads c, c.trees`dist, c.trees`lc, c.trees`optLen, c.trees`staticLen, c.trees.lfc, c.trees.dfc, c.trees.bfc, c.w
  {
    Ready(c, s, g, g.base + s.strstart) && s.lookahead >= 1 && s.strstart + MIN_LOOKAHEAD <= c.d.window.Length &&
    s.matchLength < MIN_MATCH && s.prevLength == 2 && c.d.f.useHash
  }

  /** After a step: the text goes on to the new position; the token buffer has room unless it is to be flushed. */
  ghost predicate Stepped(c: Coder, t: Lz, h: Past, s: Lz, g: Past, flush: bool)
    reads c.d.window, c.d.head, c.d.prev
    reads c, c.trees`dist, c.trees`lc, c.trees`optLen, c.trees`staticLen, c.trees.lfc, c.trees.dfc, c.trees.bfc, c.w
  {
    LzOk(c.d, t, h) && OutOk(c, h.data, h.base + t.blockStart, h.base + t.strstart) && (flush <==> !Space(c)) &&
    c.Apart() && Storable(t) &&
    t.lookahead < s.lookahead && t.input == s.input && t.next == s.next && t.blockStart == s.blockStart &&
    h == g.(ins := h.ins, top := h.top) &&
    t.matchLength < MIN_MATCH && t.prevLength == s.prevLength && t.matchAvailable == s.matchAvailable &&
    c.w.biValid <= 7 && Behind(c.marks, h.base)
  }

  /** The token that greedy matching calls for at the current position: a match unless no string near enough agrees in
      three bytes, and then one that no string near enough exceeds, unless it is nice enough or takes up the lookahead.
      */
  ghost predicate Greedy(f: Conf, s: Lz, g: Past, tok: Token)
  {
    var p, n := g.base + s.strstart, ChainLength(f, s.prevLength);
    p < |g.data| &&
    match tok
    case Literal(b) =>
      b == g.data[p] &&
      (s.lookahead < MIN_MATCH || f.nice <= 2 || NoLonger(f, g.data, g.base, g.ins, s.strstart, 2, n))
    case Copy(len, dist) =>
      MIN_MATCH <= len <= s.lookahead && 1 <= dist <= p && dist <= MaxDist(f) && RealMatch(g.data, p, p - dist, len) &&
      (len >= f.nice || len == s.lookahead || NoLonger(f, g.data, g.base, g.ins, s.strstart, len, n))
  }

  /** The strings in the table after the token: the current one, and those inside a match that is not too long for it.
      */
  ghost function EnteredBy(f: Conf, s: Lz, g: Past, tok: Token): (ins: set<nat>)
  {
    if s.lookahead < MIN_MATCH then g.ins
    else
      var inside := tok.Copy? && tok.len <= f.maxLazy && s.lookahead - tok.len >= MIN_MATCH;
      WithStrings(g.ins, g.base, g.base + s.strstart, if inside then tok.len else 1)
  }

  lemma SteppedBy(c: Coder, t: Lz, h: Past, s: Lz, g: Past, flush: bool)
    requires LzOk(c.d, t, h) && OutOk(c, g.data, g.base + s.blockStart, g.base + t.strstart) && (flush <==> !Space(c))
    requires c.Apart() && c.w.biValid <= 7 && Behind(c.marks, g.base) && h == g.(ins := h.ins, top := h.top)
    requires s.strstart < t.strstart && t.strstart + t.lookahead == s.strstart + s.lookahead && Storable(t) &&
             t.input == s.input && t.next == s.next && t.blockStart == s.blockStart && t.matchLength < MIN_MATCH &&
             t.prevLength == s.prevLength && t.matchAvailable == s.matchAvailable
    ensures Stepped(c, t, h, s, g, flush)
    ensures c.trees.Valid()
  {
    hide LzOk, OutOk, Space, c.Apart, Behind, c.trees.Valid, Text, Marked, Logged, Within;
    OutIs(c, g.data, g.base + s.blockStart, g.base + t.strstart);
  }

  lemma GreedyLiteral(f: Conf, s: Lz, g: Past)
    requires g.base + s.strstart < |g.data|
    requires s.lookahead < MIN_MATCH || f.nice <= 2 ||
             NoLonger(f, g.data, g.base, g.ins, s.strstart, 2, ChainLength(f, s.prevLength))
    ensures Greedy(f, s, g, Literal(g.data[g.base + s.strstart]))
    ensures EnteredBy(f, s, g, Literal(g.data[g.base + s.strstart])) ==
            if s.lookahead < MIN_MATCH then g.ins else WithStrings(g.ins, g.base, g.base + s.strstart, 1)
  {
    hide NoLonger, WithStrings, ChainLength;
  }

  lemma GreedyCopy(f: Conf, s: Lz, g: Past, len: nat, start: int)
    requires MIN_MATCH <= len <= s.lookahead && 0 <= start < s.strstart && s.strstart - start <= MaxDist(f) &&
             RealMatch(g.data, g.base + s.strstart, g.base + start, len)
    requires len >= f.nice || len == s.lookahead ||
             NoLonger(f, g.data, g.base, g.ins, s.strstart, len, ChainLength(f, s.prevLength))
    ensures Greedy(f, s, g, Copy(len, s.strstart - start))
    ensures EnteredBy(f, s, g, Copy(len, s.strstart - start)) ==
            WithStrings(g.ins, g.base, g.base + s.strstart,
                        if len <= f.maxLazy && s.lookahead - len >= MIN_MATCH then len else 1)
  {
    hide NoLonger, WithStrings, ChainLength;
  }

  /** The rest of a match: enters its strings, unless it is too long for that. */
  method AfterMatch(d: Dict, s: Lz, ghost g: Past, h1: nat, len: nat, ghost ins: set<nat>)
    returns (t: Lz, ghost h: Past)
    requires AtString(d, g.data, g.base, ins, s.strstart + 1, h1) && s.insert == 0 && s.next <= |s.input| &&
             MIN_MATCH <= len <= s.lookahead
    requires |g.data| == g.base + s.strstart + s.lookahead &&
             WindowHas(d.window[..], g.data, g.base, s.strstart + s.lookahead)
    requires s.strstart + len + 1 < d.window.Length && ins == WithStrings(g.ins, g.base, g.base + s.strstart, 1)
    modifies d.head, d.prev
    ensures LzOk(d, t, h) && h == g.(ins := h.ins, top := h.top)
    ensures h.ins == WithStrings(g.ins, g.base, g.base + s.strstart,
                                 if len <= d.f.maxLazy && s.lookahead - len >= MIN_MATCH then len else 1)
    ensures t == s.(strstart := s.strstart + len, lookahead := s.lookahead - len, insH := t.insH, matchLength := 0)
  {
    hide AtString, LzOk, WindowHas, Chains, Primed, Pow2, UpdateHash, WithStrings, WithString;
    ghost var all := ins;
    if len <= d.f.maxLazy && s.lookahead - len >= MIN_MATCH {
      var insH, k := h1, 1;
      while k < len
        invariant 1 <= k <= len && AtString(d, g.data, g.base, all, s.strstart + k, insH)
        invariant all == WithStrings(g.ins, g.base, g.base + s.strstart, k)
      {
        var hashHead;
        WithStringsStep(g.ins, g.base, g.base + s.strstart, k);
        insH, hashHead, all := EnterString(d, s.strstart + k, insH, g.data, g.base, all, s.strstart + s.lookahead);
        k := k + 1;
      }
      t := s.(strstart := s.strstart + len, lookahead := s.lookahead - len, insH := insH, matchLength := 0);
      h := g.(ins := all, top := g.base + t.strstart);
      LzFrom(d, t, g, all);
    } else {
      var ns := s.strstart + len;
      t := s.(strstart := ns, lookahead := s.lookahead - len,
              insH := UpdateHash(d.f.hashBits, d.window[ns], d.window[ns + 1]), matchLength := 0);
      h := g.(ins := ins, top := g.base + s.strstart + 1);
      SkipMatch(d, s, g, h1, len, ins, t);
    }
  }

  lemma SkipMatch(d: Dict, s: Lz, g: Past, h1: nat, len: nat, ins: set<nat>, t: Lz)
    requires AtString(d, g.data, g.base, ins, s.strstart + 1, h1) && s.insert == 0 && s.next <= |s.input| &&
             MIN_MATCH <= len <= s.lookahead
    requires |g.data| == g.base + s.strstart + s.lookahead &&
             WindowHas(d.window[..], g.data, g.base, s.strstart + s.lookahead)
    requires s.strstart + len + 1 < d.window.Length
    requires t == s.(strstart := s.strstart + len, lookahead := s.lookahead - len,
                     insH := UpdateHash(d.f.hashBits, d.window[s.strstart + len],
                                        d.window[s.strstart + len + 1]), matchLength := 0)
    ensures LzOk(d, t, g.(ins := ins, top := g.base + s.strstart + 1))
  {
    hide WindowHas, Chains, Primed, UpdateHash;
    if t.lookahead >= 2 {
      ByteAt(d.window[..], g.data, g.base, s.strstart + s.lookahead, t.strstart);
      ByteAt(d.window[..], g.data, g.base, s.strstart + s.lookahead, t.strstart + 1);
      PrimedStart(d.f.hashBits, d.window[t.strstart], d.window[t.strstart + 1]);
    }
  }

  /** Emits the match found. */
  method FastMatch(c: Coder, s: Lz, ghost g: Past, insH: nat, len: nat, ghost ins: set<nat>)
    returns (flush: bool, t: Lz, ghost h: Past)
    requires OutOk(c, g.data, g.base + s.blockStart, g.base + s.strstart) && Space(c) && c.Apart() &&
             Behind(c.marks, g.base)
    requires AtString(c.d, g.data, g.base, ins, s.strstart + 1, insH) && s.insert == 0 && s.next <= |s.input| &&
             MIN_MATCH <= len <= s.lookahead && len <= MAX_MATCH
    requires |g.data| == g.base + s.strstart + s.lookahead &&
             WindowHas(c.d.window[..], g.data, g.base, s.strstart + s.lookahead)
    requires s.strstart + len + 1 < c.d.window.Length && ins == WithStrings(g.ins, g.base, g.base + s.strstart, 1)
    requires 0 <= s.matchStart < s.strstart && s.strstart - s.matchStart <= MaxDist(c.d.f) <= 32768 &&
             RealMatch(g.data, g.base + s.strstart, g.base + s.matchStart, len)
    modifies c.d.head, c.d.prev, c.trees`dist, c.trees`lc, c.trees.lfc, c.trees.dfc
    ensures OutOk(c, g.data, g.base + s.blockStart, g.base + t.strstart) && (flush <==> !Space(c))
    ensures c.trees.Valid() &&
            c.trees.Tokens() == old(c.trees.Tokens()) + [Copy(len, s.strstart - s.matchStart)] &&
            |c.trees.dist| == |old(c.trees.dist)| + 1
    ensures LzOk(c.d, t, h) && h == g.(ins := h.ins, top := h.top)
    ensures h.ins == WithStrings(g.ins, g.base, g.base + s.strstart,
                                 if len <= c.d.f.maxLazy && s.lookahead - len >= MIN_MATCH then len else 1)
    ensures t == s.(strstart := s.strstart + len, lookahead := s.lookahead - len, insH := t.insH, matchLength := 0)
  {
    hide LzOk, OutOk, WindowHas, Chains, Primed, Pow2, AtString, RealMatch, c.d.Shape, c.trees.Valid, Behind,
         WithStrings, WithString, Text, Marked, Logged, Within, MaxDist;
    OutIs(c, g.data, g.base + s.blockStart, g.base + s.strstart);
    BehindMore(c.marks, g.base, g.base + s.matchStart);
    flush := EmitMatch(c, s.strstart - s.matchStart, len, g.data, g.base + s.blockStart, g.base + s.strstart);
    t, h := AfterMatch(c.d, s, g, insH, len, ins);
    OutIs(c, g.data, g.base + s.blockStart, g.base + t.strstart);
  }

  /** Looks for a match of at least three bytes. */
  method FastFind(c: Coder, s: Lz, ghost g: Past)
    returns (insH: nat, found: bool, len: nat, matchStart: int, ghost all: set<nat>)
    requires LzOk(c.d, s, g) && c.d.f.useHash && s.lookahead >= MIN_MATCH &&
             s.strstart + MIN_LOOKAHEAD <= c.d.window.Length && s.matchLength < MIN_MATCH && s.prevLength == 2
    modifies c.d.head, c.d.prev
    ensures AtString(c.d, g.data, g.base, all, s.strstart + 1, insH) &&
            all == WithStrings(g.ins, g.base, g.base + s.strstart, 1) && s.insert == 0
    ensures !found ==>
              len < MIN_MATCH && Greedy(c.d.f, s, g, Literal(g.data[g.base + s.strstart])) &&
              all == EnteredBy(c.d.f, s, g, Literal(g.data[g.base + s.strstart]))
    ensures found ==>
              MIN_MATCH <= len <= s.lookahead && len <= MAX_MATCH && 0 <= matchStart < s.strstart &&
              s.strstart - matchStart <= MaxDist(c.d.f) &&
              RealMatch(g.data, g.base + s.strstart, g.base + matchStart, len) &&
              Greedy(c.d.f, s, g, Copy(len, s.strstart - matchStart)) &&
              EnteredBy(c.d.f, s, g, Copy(len, s.strstart - matchStart)) ==
              WithStrings(g.ins, g.base, g.base + s.strstart,
                          if len <= c.d.f.maxLazy && s.lookahead - len >= MIN_MATCH then len else 1)
  {
    hide LzOk, WindowHas, Chains, Primed, Pow2, AtString, RealMatch, c.d.Shape, NoLonger, WithStrings, WithString,
         ChainLength, Greedy, EnteredBy, MaxDist;
    LzIs(c.d, s, g);
    LzString(c.d, s, g);
    insH, found, len, matchStart, all := EnterAndSearch(c.d, s, g, true);
    WithStringsStep(g.ins, g.base, g.base + s.strstart, 0);
    if found && len >= MIN_MATCH {
      MatchBefore(g.data, g.base + s.strstart, g.base + matchStart, len);
      GreedyCopy(c.d.f, s, g, len, matchStart);
    } else {
      GreedyLiteral(c.d.f, s, g);
      found, len := false, if found then len else s.matchLength;
    }
  }

  /** One step: a match if there is one of at least three bytes, else a literal. */
  method FastStep(c: Coder, s: Lz, ghost g: Past) returns (flush: bool, t: Lz, ghost h: Past, ghost tok: Token)
    requires Step1(c, s, g)
    modifies c.d.head, c.d.prev, c.trees`dist, c.trees`lc, c.trees.lfc, c.trees.dfc
    ensures Stepped(c, t, h, s, g, flush)
    ensures c.trees.Valid() && c.trees.Tokens() == old(c.trees.Tokens()) + [tok] && Greedy(c.d.f, s, g, tok)
    ensures h.ins == EnteredBy(c.d.f, s, g, tok)
    ensures t.strstart == s.strstart + Span(tok) && t.lookahead == s.lookahead - Span(tok) &&
            |c.trees.dist| == |old(c.trees.dist)| + 1
  {
    hide LzOk, OutOk, WindowHas, Chains, Primed, Pow2, AtString, RealMatch, c.d.Shape, c.trees.Valid, NoLonger, Behind,
         WithStrings, WithString, ChainLength, Text, Marked, Logged, Within, Greedy, EnteredBy, Stepped, Space, MaxDist;
    ReadyIs(c, s, g, g.base + s.strstart);
    OutIs(c, g.data, g.base + s.blockStart, g.base + s.strstart);
    tok := Literal(g.data[g.base + s.strstart]);
    if s.lookahead < MIN_MATCH {
      GreedyLiteral(c.d.f, s, g);
      flush := TakeLiteral(c, s, g);
      t, h := s.(strstart := s.strstart + 1, lookahead := s.lookahead - 1), g;
      LzSkip(c.d, s, g, t, 1);
      SteppedBy(c, t, h, s, g, flush);
      return;
    }
    var insH, found, len, matchStart;
    ghost var all;
    insH, found, len, matchStart, all := FastFind(c, s, g);
    if found {
      tok := Copy(len, s.strstart - matchStart);
      flush, t, h := FastMatch(c, s.(matchStart := matchStart), g, insH, len, all);
    } else {
      flush := TakeLiteral(c, s, g);
      t := s.(strstart := s.strstart + 1, lookahead := s.lookahead - 1, insH := insH, matchStart := matchStart,
              matchLength := len);
      h := g.(ins := all, top := g.base + t.strstart);
      LzFrom(c.d, t, g, all);
    }
    SteppedBy(c, t, h, s, g, flush);
  }

  lemma MatchBefore(data: seq<byte>, p: nat, start: int, len: nat)
    requires RealMatch(data, p, start, len)
    ensures 0 <= start < p
  {
  }

  /** Emits the byte at `strstart` as a literal. */
  method TakeLiteral(c: Coder, s: Lz, ghost g: Past) returns (flush: bool)
    requires OutOk(c, g.data, g.base + s.blockStart, g.base + s.strstart) && Space(c) && s.lookahead >= 1 &&
             |g.data| == g.base + s.strstart + s.lookahead
    requires WindowHas(c.d.window[..], g.data, g.base, s.strstart + s.lookahead)
    modifies c.trees`dist, c.trees`lc, c.trees.lfc
    ensures OutOk(c, g.data, g.base + s.blockStart, g.base + s.strstart + 1) && (flush <==> !Space(c)) &&
            |c.trees.dist| == old(|c.trees.dist|) + 1
    ensures c.trees.Tokens() == old(c.trees.Tokens()) + [Literal(g.data[g.base + s.strstart])]
  {
    hide OutOk, WindowHas;
    WindowSize(c.d.window[..], g.data, g.base, s.strstart + s.lookahead);
    ByteAt(c.d.window[..], g.data, g.base, s.strstart + s.lookahead, s.strstart);
    flush := EmitLiteral(c, c.d.window[s.strstart], g.data, g.base + s.blockStart, g.base + s.strstart);
  }

  // ------------------------------------------------------------------ closing blocks

  lemma LzBlock(d: Dict, s: Lz, g: Past, blockStart: int)
    requires LzOk(d, s, g)
    ensures LzOk(d, s.(blockStart := blockStart), g)
  {
    hide Chains, Primed, WindowHas;
  }

  /** FLUSH_BLOCK_ONLY between two steps. */
  method FlushStep(c: Coder, s: Lz, ghost g: Past, last: bool, availOut0: nat) returns (t: Lz, availOut: nat)
    requires LzOk(c.d, s, g) && OutOk(c, g.data, g.base + s.blockStart, g.base + s.strstart) && c.Apart() &&
             Storable(s) && Behind(c.marks, g.base)
    modifies c.trees, c.trees.Repr(), c.w, c`log
    ensures t == s.(blockStart := s.strstart) && LzOk(c.d, t, g) && Closed(c, g.data, g.base + s.strstart, last) &&
            availOut <= availOut0
    ensures (availOut > 0 ==> c.w.pending == []) && c.w.biValid <= 7 &&
            Handed(old(c.w.delivered), c.w.delivered, availOut0, availOut)
    ensures !last ==> Ready(c, t, g, g.base + s.strstart)
    ensures c.trees.Valid() && History(c) == old(History(c)) && |c.log| == |old(c.log)| + 1 && c.trees.dist == []
  {
    hide LzOk, OutOk, WindowHas, Chains, Primed, Pow2, Closed, c.d.Shape, Handed, Behind, c.trees.Valid, LogTokens,
         Text, Marked, Logged, Within;
    LzIs(c.d, s, g);
    OutIs(c, g.data, g.base + s.blockStart, g.base + s.strstart);
    availOut := FlushOnly(c, s.blockStart, s.strstart, last, availOut0, g.data, g.base, s.strstart + s.lookahead);
    t := s.(blockStart := s.strstart);
    LzBlock(c.d, s, g, s.strstart);
    ClosedIs(c, g.data, g.base + s.strstart, last);
    EmptyTokens(c);
    if !last { ClosedOut(c, g.data, g.base + s.strstart); }
  }

  /** FLUSH_BLOCK after a step, when the token buffer is full; `stop` says that the output is full then. */
  method FlushIf(c: Coder, s: Lz, ghost g: Past, bflush: bool, availOut0: nat)
    returns (stop: bool, t: Lz, availOut: nat)
    requires LzOk(c.d, s, g) && OutOk(c, g.data, g.base + s.blockStart, g.base + s.strstart) && c.Apart() &&
             Storable(s) && c.w.biValid <= 7 && (bflush <==> !Space(c)) && Behind(c.marks, g.base)
    modifies c.trees, c.trees.Repr(), c.w, c`log
    ensures Ready(c, t, g, g.base + t.strstart) && t == s.(blockStart := t.blockStart) && availOut <= availOut0 &&
            (stop ==> availOut == 0)
    ensures if bflush then t.blockStart == s.strstart && c.trees.dist == []
            else t == s && c.trees.dist == old(c.trees.dist)
    ensures |c.log| == |old(c.log)| + if bflush then 1 else 0
    ensures Handed(old(c.w.delivered), c.w.delivered, availOut0, availOut)
    ensures c.trees.Valid() && History(c) == old(History(c))
  {
    hide LzOk, OutOk, Closed, Handed, Space, c.trees.Valid, LogTokens, Behind, Text, Marked, Logged, Within;
    OutIs(c, g.data, g.base + s.blockStart, g.base + s.strstart);
    stop, t, availOut := false, s, availOut0;
    HandedNone(c.w.delivered, availOut0);
    if bflush {
      t, availOut := FlushStep(c, s, g, false, availOut0);
      stop := availOut == 0;
    }
  }

  /** The bytes that are in the output or the token buffer. */
  function Coded(s: Lz, g: Past): (n: int) { g.base + s.strstart - if s.matchAvailable then 1 else 0 }

  /** The stream is complete: for all of the text from the start, and for what follows each mark. */
  ghost predicate Ended(c: Coder, data: seq<byte>)
    reads c, c.w
  {
    WholeStream(c.w.Sent(), data) && AllWhole(c.marks, c.w.Sent(), data) &&
    Logged(c.log, c.w.Sent(), data, c.fixedStrategy, true) && c.w.Valid() && c.w.biValid <= 7
  }

  /** How a compression function may return. */
  ghost predicate Outcome(c: Coder, r: BlockState, s: Lz, g: Past, s0: Lz, g0: Past)
    reads c.d.window, c.d.head, c.d.prev
    reads c, c.trees`dist, c.trees`lc, c.trees`optLen, c.trees`staticLen, c.trees.lfc, c.trees.dfc, c.trees.bfc, c.w
  {
    s.input == s0.input && s0.next <= s.next <= |s.input| && g.data == g0.data + s.input[s0.next..s.next] &&
    Coded(s, g) >= 0 &&
    match r
    case NeedMore => Ready(c, s, g, Coded(s, g))
    case BlockDone =>
      Ready(c, s, g, |g.data|) && s.next == |s.input| && c.trees.dist == [] && Coded(s, g) == |g.data| &&
      s.lookahead == 0
    case FinishStarted => Ended(c, g.data) && s.lookahead == 0 && s.next == |s.input|
    case FinishDone => Ended(c, g.data) && s.lookahead == 0 && s.next == |s.input| && c.w.pending == []
  }

  /** Input still to be coded. */
  function Left(s: Lz): (n: int) { |s.input| - s.next + s.lookahead }

  lemma StopHere(c: Coder, s: Lz, g: Past, s0: Lz, g0: Past)
    requires Ready(c, s, g, g.base + s.strstart) && !s.matchAvailable && Since(s, g, s0, g0)
    ensures Outcome(c, NeedMore, s, g, s0, g0)
  {
    hide Ready;
  }

  /** What has been read since the call began. */
  predicate Since(s: Lz, g: Past, s0: Lz, g0: Past)
  {
    s.input == s0.input && s0.next <= s.next <= |s.input| && g.data == g0.data + s.input[s0.next..s.next]
  }

  lemma SinceFilled(t: Lz, h: Past, s: Lz, g: Past, s0: Lz, g0: Past)
    requires Since(s, g, s0, g0) && Filled(t, h, s, g)
    ensures Since(t, h, s0, g0)
  {
    var a, b := s.input[s0.next..s.next], s.input[s.next..t.next];
    assert s.input[s0.next..t.next] == a + b;
    SeqAssoc(g0.data, a, b);
  }

  lemma SinceSame(s: Lz, g: Past, t: Lz, h: Past, s0: Lz, g0: Past)
    requires Since(s, g, s0, g0) && t.input == s.input && t.next == s.next && h.data == g.data
    ensures Since(t, h, s0, g0)
  {
  }

  lemma SinceStart(s: Lz, g: Past)
    requires s.next <= |s.input|
    ensures Since(s, g, s, g)
  {
    assert s.input[s.next..s.next] == [];
    assert g.data + [] == g.data;
  }

  /** The end of the input of a flushing call: `insert` strings wait for more input. */
  lemma LzEnd(d: Dict, s: Lz, g: Past, t: Lz)
    requires LzOk(d, s, g) && d.f.useHash && s.lookahead == 0 &&
             t == s.(insert := if s.strstart < MIN_MATCH - 1 then s.strstart else MIN_MATCH - 1)
    ensures LzOk(d, t, g)
  {
    hide Chains, Primed, WindowHas;
  }

  /** The common end of deflate_fast and deflate_slow, and with `insert` zero that of the others. */
  method EndOfInput(c: Coder, s: Lz, ghost g: Past, flush: FlushMode, availOut0: nat, ghost s0: Lz, ghost g0: Past)
    returns (r: BlockState, t: Lz, availOut: nat)
    requires LzOk(c.d, s, g) && OutOk(c, g.data, g.base + s.blockStart, g.base + s.strstart) && c.Apart() &&
             Storable(s) && c.w.biValid <= 7 && Behind(c.marks, g.base)
    requires Since(s, g, s0, g0) && s.next == |s.input| && s.lookahead == 0 && !s.matchAvailable
    modifies c.trees, c.trees.Repr(), c.w, c`log
    ensures Outcome(c, r, t, g, s0, g0) && availOut <= availOut0 &&
            Handed(old(c.w.delivered), c.w.delivered, availOut0, availOut)
    ensures t.blockStart == s.strstart || (t == s && c.trees.dist == old(c.trees.dist))
    ensures t == s.(blockStart := t.blockStart) && (r == FinishDone || r == FinishStarted <==> flush == FINISH) &&
            (r == NeedMore || r == FinishStarted ==> availOut == 0) && (r == FinishDone ==> availOut > 0)
    ensures c.trees.Valid() && History(c) == old(History(c))
    ensures |c.log| == |old(c.log)| + if flush == FINISH || old(c.trees.dist) != [] then 1 else 0
  {
    hide LzOk, OutOk, WindowHas, Chains, Primed, Pow2, Closed, c.d.Shape, c.trees.Valid, Text, Ended, Handed, Behind,
         Marked, Logged, Within, LogTokens;
    LzIs(c.d, s, g);
    OutIs(c, g.data, g.base + s.blockStart, g.base + s.strstart);
    HandedNone(c.w.delivered, availOut0);
    t, availOut := s, availOut0;
    if flush == FINISH {
      t, availOut := FlushStep(c, s, g, true, availOut);
      StreamDone(c, g.data, g.base + s.strstart);
      return if availOut == 0 then FinishStarted else FinishDone, t, availOut;
    }
    if |c.trees.dist| != 0 {
      t, availOut := FlushStep(c, s, g, false, availOut);
      ClosedIs(c, g.data, g.base + s.strstart, false);
      if availOut == 0 { return NeedMore, t, availOut; }
    }
    r := BlockDone;
  }

  lemma StreamDone(c: Coder, data: seq<byte>, pos: nat)
    requires Closed(c, data, pos, true) && pos == |data| && c.w.biValid <= 7
    ensures Ended(c, data) && c.trees.Valid()
  {
    hide WholeStream, AllWhole, Logged;
    assert data[..pos] == data;
  }

  /** The state differs from an earlier one only in how much input has been read. */
  predicate SameStep(t: Lz, h: Past, s: Lz, g: Past)
  {
    t.matchLength == s.matchLength && t.prevLength == s.prevLength && t.matchAvailable == s.matchAvailable &&
    t.input == s.input && s.next <= t.next &&
    h.base + t.strstart == g.base + s.strstart &&
    |t.input| - t.next + t.lookahead == |s.input| - s.next + s.lookahead &&
    h.base + t.matchStart == g.base + s.matchStart && h.base + t.blockStart == g.base + s.blockStart &&
    g.data <= h.data && (s.strstart >= 1 ==> t.strstart >= 1)
  }

  lemma SameFacts(t: Lz, h: Past, s: Lz, g: Past)
    requires SameStep(t, h, s, g)
    ensures Left(t) == Left(s) && t.matchAvailable == s.matchAvailable && t.input == s.input &&
            t.matchLength == s.matchLength && t.prevLength == s.prevLength
    ensures h.base + t.strstart == g.base + s.strstart && t.strstart - t.blockStart == s.strstart - s.blockStart
  {
  }

  /** Makes sure of `need` bytes of lookahead, unless the input ends first. */
  method TopUp(c: Coder, s: Lz, ghost g: Past, ghost pos: nat, need: nat, ghost s0: Lz, ghost g0: Past)
    returns (t: Lz, ghost h: Past)
    requires Ready(c, s, g, pos) && Since(s, g, s0, g0) && need <= MIN_LOOKAHEAD
    modifies c.d.window, c.d.head, c.d.prev
    ensures Ready(c, t, h, pos) && Since(t, h, s0, g0) && SameStep(t, h, s, g)
    ensures t.lookahead >= need || t.next == |t.input|
    ensures t.strstart + need <= c.d.window.Length && |h.data| == h.base + t.strstart + t.lookahead
    ensures Filled(t, h, s, g) && c.trees.Buffered()
  {
    hide Ready, Filled, Since, WindowHas, LzOk, OutOk, Space, Pow2, c.Apart, c.trees.Valid;
    t, h := s, g;
    ReadyIs(c, s, g, pos);
    FilledStart(c.d, s, g);
    if s.lookahead < need {
      t, h := Refill(c, s, g, pos);
      SinceFilled(t, h, s, g, s0, g0);
      FilledKeeps(t, h, s, g);
      ReadyIs(c, t, h, pos);
    }
    ReadyTrees(c, t, h, pos);
  }

  lemma ReadyTrees(c: Coder, s: Lz, g: Past, pos: nat)
    requires Ready(c, s, g, pos)
    ensures c.trees.Valid() && c.trees.Buffered()
  {
    hide OutOk, Chains, Primed, WindowHas, LzOk, Pow2, c.d.Shape, Text, Behind, Marked, Logged, Within;
    OutIs(c, g.data, g.base + s.blockStart, pos);
  }

  // ------------------------------------------------------------------ deflate_fast

  /** Between two steps of deflate_fast. */
  ghost predicate FastReady(c: Coder, s: Lz, g: Past)
    reads c.d.window, c.d.head, c.d.prev
    reads c, c.trees`dist, c.trees`lc, c.trees`optLen, c.trees`staticLen, c.trees.lfc, c.trees.dfc, c.trees.bfc, c.w
  {
    Ready(c, s, g, g.base + s.strstart) && s.matchLength < MIN_MATCH && s.prevLength == 2 && !s.matchAvailable &&
    c.d.f.useHash
  }

  /** What a step of deflate_fast is: the token, and where it leads. */
  ghost predicate FastMove(f: Conf, e: Move)
  {
    |e.toks| == 1 && Greedy(f, e.s, e.g, e.toks[0]) && e.h.ins == EnteredBy(f, e.s, e.g, e.toks[0]) &&
    e.t.strstart == e.s.strstart + Span(e.toks[0]) && e.t.lookahead == e.s.lookahead - Span(e.toks[0]) &&
    e.t.prevLength == 2 && e.h.base == e.g.base && e.h.data == e.g.data && e.t.input == e.s.input &&
    e.t.next == e.s.next
  }

  /** The bytes a token stands for. */
  function Span(tok: Token): (n: nat) { if tok.Copy? then tok.len else 1 }

  ghost predicate FastMoves(f: Conf, es: seq<Move>)
  {
    forall i :: 0 <= i < |es| ==> FastMove(f, es[i])
  }

  lemma FastNext(f: Conf, es: seq<Move>, e: Move)
    requires FastMoves(f, es) && FastMove(f, e)
    ensures FastMoves(f, es + [e])
  {
    hide FastMove;
  }

  /** A step and, when the token buffer is full then, the end of a block. */
  method FastRound(c: Coder, s: Lz, ghost g: Past, availOut0: nat)
    returns (stop: bool, t: Lz, ghost h: Past, availOut: nat, ghost tok: Token)
    requires Step1(c, s, g) && !s.matchAvailable
    modifies c.d.head, c.d.prev, c.trees, c.trees.Repr(), c.w, c`log
    ensures FastReady(c, t, h) && t.input == s.input && t.next == s.next && h.data == g.data &&
            t.lookahead < s.lookahead
    ensures availOut <= availOut0 && Handed(old(c.w.delivered), c.w.delivered, availOut0, availOut) &&
            (stop ==> availOut == 0)
    ensures c.trees.Valid() && History(c) == old(History(c)) + [tok]
    ensures forall from, past :: FastMove(c.d.f, Move(from, past, s, g, [tok], t, h))
    ensures |c.log| == After(|old(c.log)|, |old(c.trees.dist)|, c.trees.litBufsize)
  {
    hide LzOk, OutOk, Handed, Greedy, EnteredBy, Behind, c.trees.Valid, c.Apart, LogTokens;
    var bflush;
    bflush, t, h, tok := FastStep(c, s, g);
    stop, t, availOut := FlushIf(c, t, h, bflush, availOut0);
  }

  lemma MovesStart(f: Conf, s0: Lz, g0: Past, ts: seq<Token>)
    ensures Chained([], s0, g0) && FastMoves(f, []) && Written(ts, ts, [])
  {
    assert ts + [] == ts;
  }

  /** deflate_fast. */
  method DeflateFast(c: Coder, s0: Lz, ghost g0: Past, flush: FlushMode, availOut0: nat)
    returns (r: BlockState, s: Lz, ghost g: Past, availOut: nat, ghost es: seq<Move>)
    requires FastReady(c, s0, g0)
    modifies c.d.window, c.d.head, c.d.prev, c.trees, c.trees.Repr(), c.w, c`log
    ensures Outcome(c, r, s, g, s0, g0) && availOut <= availOut0 &&
            Handed(old(c.w.delivered), c.w.delivered, availOut0, availOut)
    ensures s.matchLength < MIN_MATCH && s.prevLength == 2 && !s.matchAvailable
    ensures r == NeedMore || r == FinishStarted ==> (flush == NO_FLUSH && s.next == |s.input|) || availOut == 0
    ensures (r == FinishDone || r == FinishStarted ==> flush == FINISH) && (r == BlockDone ==> flush != FINISH) &&
            (r == FinishDone ==> availOut > 0)
    ensures r == NeedMore && flush == FINISH ==> Left(s) < Left(s0)
    ensures r == NeedMore && availOut > 0 ==> s.lookahead < MIN_LOOKAHEAD
    ensures r != NeedMore ==> s.insert == if s.strstart < 2 then s.strstart else 2
    ensures Chained(es, s0, g0) && FastMoves(c.d.f, es) && c.trees.Buffered() &&
            Written(old(History(c)), History(c), es)
  {
    hide LzOk, OutOk, WindowHas, Chains, Primed, Pow2, Closed, c.d.Shape, Space, Filled, WholeStream, Handed, Outcome,
         Ready, c.Apart, Greedy, EnteredBy, Behind, c.trees.Valid, FastMove, FastMoves, Chained, Toks, Written,
         LogTokens, SameStep, Since;
    s, g, availOut, es := s0, g0, availOut0, [];
    ReadyTrees(c, s, g, g.base + s.strstart);
    ghost var past := History(c);
    MovesStart(c.d.f, s0, g0, past);
    ghost var d0 := c.w.delivered;
    HandedNone(d0, availOut);
    ReadyIs(c, s, g, g.base + s.strstart);
    SinceStart(s, g);
    while true
      invariant FastReady(c, s, g) && Since(s, g, s0, g0) && availOut <= availOut0 &&
                Handed(d0, c.w.delivered, availOut0, availOut) && Left(s) <= Left(s0)
      invariant Chained(es, s0, g0) && FastMoves(c.d.f, es) && c.trees.Buffered() && Written(past, History(c), es) &&
                s == EndS(es, s0) && g == EndG(es, g0)
      decreases Left(s)
    {
      ghost var v, k := s, g;
      s, g := TopUp(c, s, g, g.base + s.strstart, MIN_LOOKAHEAD, s0, g0);
      SameFacts(s, g, v, k);
      if s.lookahead < MIN_LOOKAHEAD && flush == NO_FLUSH {
        StopHere(c, s, g, s0, g0);
        return NeedMore, s, g, availOut, es;
      }
      if s.lookahead == 0 { break; }
      var stop;
      ghost var d1, a1 := c.w.delivered, availOut;
      ghost var tok, u, j, ts := Literal(0), s, g, History(c);
      stop, s, g, availOut, tok := FastRound(c, s, g, availOut);
      SinceSame(u, j, s, g, s0, g0);
      ValidBuffered(c);
      ghost var e := Move(v, k, u, j, [tok], s, g);
      ChainNext(es, e, s0, g0);
      FastNext(c.d.f, es, e);
      WrittenMore(past, ts, History(c), es, e);
      es := es + [e];
      HandedTwice(d0, d1, c.w.delivered, availOut0, a1, availOut);
      if stop {
        StopHere(c, s, g, s0, g0);
        return NeedMore, s, g, availOut, es;
      }
    }
    ghost var d2, a2 := c.w.delivered, availOut;
    r, s, availOut := FastEnd(c, s, g, flush, availOut, s0, g0);
    ValidBuffered(c);
    HandedTwice(d0, d2, c.w.delivered, availOut0, a2, availOut);
  }

  /** The end of the input in deflate_fast. */
  method FastEnd(c: Coder, s: Lz, ghost g: Past, flush: FlushMode, availOut0: nat, ghost s0: Lz, ghost g0: Past)
    returns (r: BlockState, t: Lz, availOut: nat)
    requires FastReady(c, s, g) && Since(s, g, s0, g0) && s.next == |s.input| && s.lookahead == 0
    modifies c.trees, c.trees.Repr(), c.w, c`log
    ensures Outcome(c, r, t, g, s0, g0) && availOut <= availOut0 &&
            Handed(old(c.w.delivered), c.w.delivered, availOut0, availOut)
    ensures t.matchLength < MIN_MATCH && t.prevLength == 2 && !t.matchAvailable &&
            (r == FinishDone || r == FinishStarted <==> flush == FINISH)
    ensures (r == NeedMore || r == FinishStarted ==> availOut == 0) && (r == FinishDone ==> availOut > 0)
    ensures t.insert == (if t.strstart < 2 then t.strstart else 2) && t.lookahead == 0
    ensures c.trees.Valid() && History(c) == old(History(c))
  {
    hide LzOk, OutOk, Outcome, Handed, Space, Behind, c.trees.Valid, LogTokens;
    ReadyIs(c, s, g, g.base + s.strstart);
    var u := s.(insert := if s.strstart < MIN_MATCH - 1 then s.strstart else MIN_MATCH - 1);
    LzEnd(c.d, s, g, u);
    r, t, availOut := EndOfInput(c, u, g, flush, availOut0, s0, g0);
  }

  lemma FilledKeeps(t: Lz, h: Past, s: Lz, g: Past)
    requires Filled(t, h, s, g)
    ensures t.matchLength == s.matchLength && t.prevLength == s.prevLength && t.matchAvailable == s.matchAvailable &&
            t.input == s.input
    ensures h.base + t.strstart == g.base + s.strstart &&
            |t.input| - t.next + t.lookahead == |s.input| - s.next + s.lookahead
    ensures h.base + t.matchStart == g.base + s.matchStart && h.base + t.blockStart == g.base + s.blockStart &&
            g.data <= h.data && s.next <= t.next && (s.strstart >= 1 ==> t.strstart >= 1)
  {
  }
}
