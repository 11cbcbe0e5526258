/**
  deflate.c, deflate_rle and deflate_huff: strategies that do not use the hash table.
*/
module DeflateRuns {
  import opened Bits
  import opened Hash
  import opened HashChains
  import opened LongestMatch
  import opened FillWindow
  import opened Format
  import opened BlockCost
  import opened DeflateText
  import opened Restart
  import opened BlockLog
  import opened Emit
  import opened Moves
  import opened DeflateFast

  ghost predicate PlainReady(c: Coder, s: Lz, g: Past)
    reads c.d.window, c.d.head, c.d.prev
    reads c, c.trees`dist, c.trees`lc, c.trees`optLen, c.trees`staticLen, c.trees.lfc, c.trees.dfc, c.trees.bfc, c.w
  {
    Ready(c, s, g, g.base + s.strstart) && !s.matchAvailable && !c.d.f.useHash
  }

  /** The `n` bytes from `a` on all equal the byte before them. */
  ghost predicate Repeats(w: seq<byte>, a: nat, n: nat)
  {
    1 <= a && a + n <= |w| && forall i :: a <= i < a + n ==> w[i] == w[a - 1]
  }

  /** How often the previous byte repeats, up to the longest match; fewer than three times count as none. */
  method RunLength(window: array<byte>, strstart: nat) returns (len: nat)
    requires 1 <= strstart && strstart + MAX_MATCH < window.Length
    ensures len == 0 <==> !Repeats(window[..], strstart, MIN_MATCH)
    ensures len != 0 ==>
              MIN_MATCH <= len <= MAX_MATCH && Repeats(window[..], strstart, len) &&
              (len == MAX_MATCH || window[strstart + len] != window[strstart - 1])
  {
    var prev := window[strstart - 1];
    if window[strstart] != prev || window[strstart + 1] != prev || window[strstart + 2] != prev { return 0; }
    var k: nat := 2;
    ghost var rounds: nat := 0;
    while true
      invariant k == 2 + 8 * rounds && k < MAX_MATCH && Repeats(window[..], strstart, k + 1)
      decreases MAX_MATCH - k
    {
      var j: nat := 0;
      while j < 8
        invariant j <= 8 && k == 2 + 8 * rounds + j && k <= MAX_MATCH && 2 + 8 * rounds < MAX_MATCH
        invariant if k < MAX_MATCH then Repeats(window[..], strstart, k + 1) else Repeats(window[..], strstart, k)
      {
        k := k + 1;
        if window[strstart + k] != prev { return k; }
        j := j + 1;
      }
      rounds := rounds + 1;
      if k >= MAX_MATCH { return k; }
    }
  }

  /** A run is a match at distance one. */
  lemma RunMatches(w: seq<byte>, data: seq<byte>, base: nat, end: nat, a: nat, n: nat)
    requires WindowHas(w, data, base, end) && Repeats(w, a, n) && a + n <= end
    ensures RealMatch(data, base + a, base + a - 1, n)
  {
    SliceAt(w, data, base, end, a, n);
    SliceAt(w, data, base, end, a - 1, n);
    var x, y := w[a..a + n], w[a - 1..a - 1 + n];
    forall i | 0 <= i < n ensures x[i] == y[i] { }
  }

  /** After a step of either strategy. */
  ghost predicate PlainStepped(c: Coder, t: Lz, s: Lz, g: Past, flush: bool)
    reads c.d.window, c.d.head, c.d.prev
    reads c, c.trees`dist, c.trees`lc, c.trees`optLen, c.trees`staticLen, c.trees.lfc, c.trees.dfc, c.trees.bfc, c.w
  {
    LzOk(c.d, t, g) && OutOk(c, g.data, g.base + t.blockStart, g.base + t.strstart) && (flush <==> !Space(c)) &&
    c.Apart() && Storable(t) &&
    t.lookahead < s.lookahead && t.input == s.input && t.next == s.next && t.blockStart == s.blockStart &&
    !t.matchAvailable && c.w.biValid <= 7 && Behind(c.marks, g.base)
  }

  /** Moving on without entering strings. */
  lemma PlainSkip(d: Dict, s: Lz, g: Past, t: Lz, n: nat)
    requires LzOk(d, s, g) && !d.f.useHash && n <= s.lookahead && s.next <= |s.input|
    requires t == s.(strstart := s.strstart + n, lookahead := s.lookahead - n, matchLength := t.matchLength)
    ensures LzOk(d, t, g)
  {
    hide LzOk;
    LzSkip(d, s, g, t, n);
  }

  /** The token for the current byte: the longest run of three bytes or more that repeats the byte before, else the
      byte. */
  ghost predicate RunToken(s: Lz, g: Past, tok: Token)
  {
    var p := g.base + s.strstart;
    var run := s.lookahead >= MIN_MATCH && s.strstart > 0 && Repeats(g.data, p, MIN_MATCH);
    match tok
    case Literal(b) => !run && p < |g.data| && b == g.data[p]
    case Copy(len, dist) =>
      run && dist == 1 && MIN_MATCH <= len <= MAX_MATCH && len <= s.lookahead && Repeats(g.data, p, len) &&
      (len == MAX_MATCH || len == s.lookahead || !Repeats(g.data, p, len + 1))
  }

  lemma SameRepeats(w: seq<byte>, data: seq<byte>, base: nat, end: nat, a: nat, n: nat)
    requires WindowHas(w, data, base, end) && 1 <= a && a + n <= end
    ensures Repeats(w, a, n) <==> Repeats(data, base + a, n)
  {
    forall i | 0 <= i < end ensures i < |w| && base + i < |data| && w[i] == data[base + i] {
      WindowByte(w, data, base, end, i);
    }
    if Repeats(w, a, n) {
      forall i | base + a <= i < base + a + n ensures data[i] == data[base + a - 1] {
        assert w[i - base] == w[a - 1];
      }
      WindowSize(w, data, base, end);
    }
    if Repeats(data, base + a, n) {
      forall i | a <= i < a + n ensures w[i] == w[a - 1] { assert data[base + i] == data[base + a - 1]; }
      WindowSize(w, data, base, end);
    }
  }

  lemma RunEnds(w: seq<byte>, a: nat, n: nat)
    requires 1 <= a && a + n < |w| && w[a + n] != w[a - 1]
    ensures !Repeats(w, a, n + 1)
  {
  }

  lemma RunIs(w: seq<byte>, s: Lz, g: Past, run: nat, len: nat)
    requires WindowHas(w, g.data, g.base, s.strstart + s.lookahead) && s.strstart + MAX_MATCH < |w| &&
             s.lookahead >= MIN_MATCH && s.strstart > 0
    requires run == 0 <==> !Repeats(w, s.strstart, MIN_MATCH)
    requires run != 0 ==>
               MIN_MATCH <= run <= MAX_MATCH && Repeats(w, s.strstart, run) &&
               (run == MAX_MATCH || w[s.strstart + run] != w[s.strstart - 1])
    requires len == if run > s.lookahead then s.lookahead else run
    ensures g.base + s.strstart < |g.data| &&
            RunToken(s, g, if len == 0 then Literal(g.data[g.base + s.strstart]) else Copy(len, 1))
  {
    hide WindowHas, Repeats;
    var end := s.strstart + s.lookahead;
    WindowSize(w, g.data, g.base, end);
    SameRepeats(w, g.data, g.base, end, s.strstart, MIN_MATCH);
    if len > 0 {
      ShorterRun(w, s.strstart, run, len);
      SameRepeats(w, g.data, g.base, end, s.strstart, len);
      if len < s.lookahead && len < MAX_MATCH {
        SameRepeats(w, g.data, g.base, end, s.strstart, len + 1);
        RunEnds(w, s.strstart, len);
      }
    }
  }

  /** The length of the run at the current position, within the lookahead. */
  method RunAt(window: array<byte>, s: Lz, ghost g: Past) returns (len: nat)
    requires WindowHas(window[..], g.data, g.base, s.strstart + s.lookahead) && s.lookahead >= 1 &&
             s.strstart + MAX_MATCH < window.Length
    ensures len == 0 || MIN_MATCH <= len <= MAX_MATCH
    ensures g.base + s.strstart < |g.data| &&
            RunToken(s, g, if len == 0 then Literal(g.data[g.base + s.strstart]) else Copy(len, 1))
    ensures len > 0 ==>
              len <= s.lookahead && s.strstart >= 1 &&
              RealMatch(g.data, g.base + s.strstart, g.base + s.strstart - 1, len)
  {
    hide WindowHas, RealMatch, Repeats, RunToken;
    if s.lookahead < MIN_MATCH || s.strstart == 0 {
      NoRun(window[..], s, g);
      return 0;
    }
    len := RunLength(window, s.strstart);
    ghost var run := len;
    if len > s.lookahead { len := s.lookahead; }
    RunIs(window[..], s, g, run, len);
    if len > 0 {
      ShorterRun(window[..], s.strstart, run, len);
      RunMatches(window[..], g.data, g.base, s.strstart + s.lookahead, s.strstart, len);
    }
  }

  /** One step of deflate_rle: a run as a match of distance one, else a literal. */
  method RleStep(c: Coder, s: Lz, ghost g: Past) returns (flush: bool, t: Lz, ghost tok: Token)
    requires PlainReady(c, s, g) && s.lookahead >= 1 && s.strstart + MAX_MATCH + 1 <= c.d.window.Length
    modifies c.trees`dist, c.trees`lc, c.trees.lfc, c.trees.dfc
    ensures PlainStepped(c, t, s, g, flush)
    ensures c.trees.Valid() && c.trees.Tokens() == old(c.trees.Tokens()) + [tok] && RunToken(s, g, tok)
    ensures t.strstart == s.strstart + Span(tok) &&
            |c.trees.dist| == |old(c.trees.dist)| + 1
  {
    hide LzOk, OutOk, WindowHas, Chains, Primed, Pow2, RealMatch, c.d.Shape, Space, Behind, c.trees.Valid, Text,
         Marked, Logged, Within, RunToken;
    ReadyIs(c, s, g, g.base + s.strstart);
    OutIs(c, g.data, g.base + s.blockStart, g.base + s.strstart);
    var len := RunAt(c.d.window, s, g);
    if len >= MIN_MATCH {
      BehindMore(c.marks, g.base, g.base + s.strstart - 1);
      tok := Copy(len, 1);
      flush := EmitMatch(c, 1, len, g.data, g.base + s.blockStart, g.base + s.strstart);
      t := s.(strstart := s.strstart + len, lookahead := s.lookahead - len, matchLength := 0);
      PlainSkip(c.d, s, g, t, len);
    } else {
      tok := Literal(g.data[g.base + s.strstart]);
      flush := TakeLiteral(c, s, g);
      t := s.(strstart := s.strstart + 1, lookahead := s.lookahead - 1, matchLength := len);
      PlainSkip(c.d, s, g, t, 1);
    }
    OutIs(c, g.data, g.base + s.blockStart, g.base + t.strstart);
  }

  lemma NoRun(w: seq<byte>, s: Lz, g: Past)
    requires WindowHas(w, g.data, g.base, s.strstart + s.lookahead) && s.lookahead >= 1
    requires s.lookahead < MIN_MATCH || s.strstart == 0
    ensures g.base + s.strstart < |g.data| && RunToken(s, g, Literal(g.data[g.base + s.strstart]))
  {
    WindowSize(w, g.data, g.base, s.strstart + s.lookahead);
  }

  lemma WindowByte(w: seq<byte>, data: seq<byte>, base: nat, end: nat, i: nat)
    requires WindowHas(w, data, base, end) && i < end
    ensures i < |w| && base + i < |data| && w[i] == data[base + i]
  {
    WindowSize(w, data, base, end);
    ByteAt(w, data, base, end, i);
  }

  lemma ShorterRun(w: seq<byte>, a: nat, n: nat, m: nat)
    requires Repeats(w, a, n) && m <= n
    ensures Repeats(w, a, m)
  {
  }

  /** Between two steps of deflate_huff: a token stands for one byte. */
  ghost predicate HuffReady(c: Coder, s: Lz, g: Past)
    reads c.d.window, c.d.head, c.d.prev
    reads c, c.trees`dist, c.trees`lc, c.trees`optLen, c.trees`staticLen, c.trees.lfc, c.trees.dfc, c.trees.bfc, c.w
  {
    PlainReady(c, s, g) && s.strstart - s.blockStart <= |c.trees.dist|
  }

  lemma FewTokens(c: Coder, data: seq<byte>, block: int, pos: nat)
    requires OutOk(c, data, block, pos)
    ensures |c.trees.dist| < 32768
  {
    hide Text, LitFreqs, DistFreqs, Marked, Logged;
  }

  /** One step of deflate_huff: a literal. */
  method HuffStep(c: Coder, s: Lz, ghost g: Past) returns (flush: bool, t: Lz)
    requires HuffReady(c, s, g) && s.lookahead >= 1
    modifies c.trees`dist, c.trees`lc, c.trees.lfc
    ensures PlainStepped(c, t, s, g, flush) && t.strstart - t.blockStart <= |c.trees.dist|
    ensures c.trees.Valid() && g.base + s.strstart < |g.data| && t.strstart == s.strstart + 1 &&
            c.trees.Tokens() == old(c.trees.Tokens()) + [Literal(g.data[g.base + s.strstart])] &&
            |c.trees.dist| == |old(c.trees.dist)| + 1
  {
    hide LzOk, OutOk, WindowHas, Chains, Primed, Pow2, c.d.Shape, Space, Behind, c.trees.Valid, Text, Marked, Logged,
         Within;
    ReadyIs(c, s, g, g.base + s.strstart);
    flush := TakeLiteral(c, s, g);
    FewTokens(c, g.data, g.base + s.blockStart, g.base + s.strstart + 1);
    OutIs(c, g.data, g.base + s.blockStart, g.base + s.strstart + 1);
    t := s.(strstart := s.strstart + 1, lookahead := s.lookahead - 1, matchLength := 0);
    PlainSkip(c.d, s, g, t, 1);
  }

  lemma HuffAgain(c: Coder, r: BlockState, s: Lz, g: Past, s0: Lz, g0: Past)
    requires Outcome(c, r, s, g, s0, g0) && (r == NeedMore || r == BlockDone) && !s.matchAvailable && !c.d.f.useHash &&
             s.strstart - s.blockStart <= |c.trees.dist|
    ensures HuffReady(c, s, g)
  {
    hide Ready;
  }

  // ------------------------------------------------------------------ the loops

  /** The end of the input; nothing is left to be entered. */
  method PlainFinish(c: Coder, s: Lz, ghost g: Past, flush: FlushMode, availOut0: nat, ghost s0: Lz, ghost g0: Past)
    returns (r: BlockState, t: Lz, availOut: nat)
    requires PlainReady(c, s, g) && Since(s, g, s0, g0) && s.next == |s.input| && s.lookahead == 0
    modifies c.trees, c.trees.Repr(), c.w, c`log
    ensures Outcome(c, r, t, g, s0, g0) && availOut <= availOut0 &&
            Handed(old(c.w.delivered), c.w.delivered, availOut0, availOut)
    ensures t == s.(blockStart := t.blockStart, insert := 0) &&
            (r == FinishDone || r == FinishStarted <==> flush == FINISH)
    ensures t.blockStart == s.strstart || (t == s && c.trees.dist == old(c.trees.dist))
    ensures (r == NeedMore || r == FinishStarted ==> availOut == 0) && (r == FinishDone ==> availOut > 0)
    ensures c.trees.Valid() && c.trees.Buffered() && History(c) == old(History(c))
  {
    hide LzOk, OutOk, Outcome, Handed, Space, Behind, c.trees.Valid, LogTokens;
    ReadyIs(c, s, g, g.base + s.strstart);
    PlainEnd(c.d, s, g);
    r, t, availOut := EndOfInput(c, s, g, flush, availOut0, s0, g0);
    ValidBuffered(c);
  }

  /** The end of the input in deflate_huff. */
  method HuffFinish(c: Coder, s: Lz, ghost g: Past, flush: FlushMode, availOut0: nat, ghost s0: Lz, ghost g0: Past)
    returns (r: BlockState, t: Lz, availOut: nat)
    requires HuffReady(c, s, g) && Since(s, g, s0, g0) && s.next == |s.input| && s.lookahead == 0
    modifies c.trees, c.trees.Repr(), c.w, c`log
    ensures Outcome(c, r, t, g, s0, g0) && availOut <= availOut0 &&
            Handed(old(c.w.delivered), c.w.delivered, availOut0, availOut) && !t.matchAvailable
    ensures r == NeedMore || r == BlockDone ==> HuffReady(c, t, g)
    ensures r == FinishDone || r == FinishStarted <==> flush == FINISH
    ensures (r == NeedMore || r == FinishStarted ==> availOut == 0) && (r == FinishDone ==> availOut > 0)
    ensures c.trees.Valid() && c.trees.Buffered() && History(c) == old(History(c))
  {
    hide Ready, Outcome, Handed, Since, c.trees.Valid, LogTokens;
    r, t, availOut := PlainFinish(c, s, g, flush, availOut0, s0, g0);
    if r == NeedMore || r == BlockDone { HuffAgain(c, r, t, g, s0, g0); }
  }

  lemma PlainEnd(d: Dict, s: Lz, g: Past)
    requires LzOk(d, s, g) && !d.f.useHash
    ensures s.insert == 0
  {
  }

  /** What steps of deflate_rle and deflate_huff are. */
  ghost predicate RleMove(e: Move)
  {
    |e.toks| == 1 && RunToken(e.s, e.g, e.toks[0]) && PlainOn(e)
  }

  ghost predicate HuffMove(e: Move)
  {
    e.g.base + e.s.strstart < |e.g.data| && e.toks == [Literal(e.g.data[e.g.base + e.s.strstart])] && PlainOn(e)
  }

  ghost predicate PlainOn(e: Move)
  {
    |e.toks| == 1 && e.t.strstart == e.s.strstart + Span(e.toks[0]) && e.h == e.g && e.t.input == e.s.input &&
    e.t.next == e.s.next
  }

  ghost predicate RleMoves(es: seq<Move>) { forall i :: 0 <= i < |es| ==> RleMove(es[i]) }
  ghost predicate HuffMoves(es: seq<Move>) { forall i :: 0 <= i < |es| ==> HuffMove(es[i]) }

  lemma RleNext(es: seq<Move>, e: Move)
    requires RleMoves(es) && RleMove(e)
    ensures RleMoves(es + [e])
  {
    hide RleMove;
  }

  lemma HuffNext(es: seq<Move>, e: Move)
    requires HuffMoves(es) && HuffMove(e)
    ensures HuffMoves(es + [e])
  {
    hide HuffMove;
  }

  lemma PlainStart(s0: Lz, g0: Past, ts: seq<Token>)
    ensures Chained([], s0, g0) && RleMoves([]) && HuffMoves([]) && Written(ts, ts, [])
    ensures EndS([], s0) == s0 && EndG([], g0) == g0
  {
    assert ts + [] == ts;
  }

  /** A step of deflate_rle and, when the token buffer is full then, the end of a block. */
  method RleRound(c: Coder, s: Lz, ghost g: Past, availOut0: nat)
    returns (stop: bool, t: Lz, availOut: nat, ghost tok: Token)
    requires PlainReady(c, s, g) && s.lookahead >= 1 && s.strstart + MAX_MATCH + 1 <= c.d.window.Length
    modifies c.trees, c.trees.Repr(), c.w, c`log
    ensures PlainReady(c, t, g) && t.input == s.input && t.next == s.next && t.lookahead < s.lookahead
    ensures availOut <= availOut0 && Handed(old(c.w.delivered), c.w.delivered, availOut0, availOut) &&
            (stop ==> availOut == 0)
    ensures c.trees.Valid() && History(c) == old(History(c)) + [tok]
    ensures forall from, past :: RleMove(Move(from, past, s, g, [tok], t, g))
    ensures |c.log| == After(|old(c.log)|, |old(c.trees.dist)|, c.trees.litBufsize)
  {
    hide LzOk, OutOk, Handed, RunToken, Behind, c.trees.Valid, c.Apart, LogTokens;
    var bflush;
    bflush, t, tok := RleStep(c, s, g);
    stop, t, availOut := FlushIf(c, t, g, bflush, availOut0);
  }

  /** The same for deflate_huff. */
  method HuffRound(c: Coder, s: Lz, ghost g: Past, availOut0: nat)
    returns (stop: bool, t: Lz, availOut: nat, ghost tok: Token)
    requires HuffReady(c, s, g) && s.lookahead >= 1
    modifies c.trees, c.trees.Repr(), c.w, c`log
    ensures HuffReady(c, t, g) && t.input == s.input && t.next == s.next && t.lookahead < s.lookahead
    ensures availOut <= availOut0 && Handed(old(c.w.delivered), c.w.delivered, availOut0, availOut) &&
            (stop ==> availOut == 0)
    ensures c.trees.Valid() && History(c) == old(History(c)) + [tok]
    ensures forall from, past :: HuffMove(Move(from, past, s, g, [tok], t, g))
    ensures |c.log| == After(|old(c.log)|, |old(c.trees.dist)|, c.trees.litBufsize)
  {
    hide LzOk, OutOk, Handed, Behind, c.trees.Valid, c.Apart, LogTokens;
    var bflush;
    bflush, t := HuffStep(c, s, g);
    tok := Literal(g.data[g.base + s.strstart]);
    stop, t, availOut := FlushIf(c, t, g, bflush, availOut0);
  }

  /** deflate_rle. */
  method DeflateRle(c: Coder, s0: Lz, ghost g0: Past, flush: FlushMode, availOut0: nat)
    returns (r: BlockState, s: Lz, ghost g: Past, availOut: nat, ghost es: seq<Move>)
    requires PlainReady(c, s0, g0)
    modifies c.d.window, c.d.head, c.d.prev, c.trees, c.trees.Repr(), c.w, c`log
    ensures Outcome(c, r, s, g, s0, g0) && availOut <= availOut0 &&
            Handed(old(c.w.delivered), c.w.delivered, availOut0, availOut) && !s.matchAvailable
    ensures r == NeedMore || r == FinishStarted ==> (flush == NO_FLUSH && s.next == |s.input|) || availOut == 0
    ensures (r == FinishDone || r == FinishStarted ==> flush == FINISH) && (r == BlockDone ==> flush != FINISH) &&
            (r == FinishDone ==> availOut > 0)
    ensures r == NeedMore && flush == FINISH ==> Left(s) < Left(s0)
    ensures r == NeedMore && availOut > 0 ==> s.lookahead < MIN_LOOKAHEAD
    ensures Chained(es, s0, g0) && RleMoves(es) && c.trees.Buffered() && Written(old(History(c)), History(c), es)
  {
    hide LzOk, OutOk, WindowHas, Chains, Primed, Pow2, Closed, c.d.Shape, Space, Filled, WholeStream, c.Apart, Handed,
         Outcome, Ready, Behind, c.trees.Valid, LogTokens, Since, RunToken, SameStep,
         RleMove, RleMoves, Chained, Toks, Written, EndS, EndG;
    s, g, availOut, es := s0, g0, availOut0, [];
    ghost var d0 := c.w.delivered;
    HandedNone(d0, availOut);
    ReadyIs(c, s, g, g.base + s.strstart);
    SinceStart(s, g);
    ReadyTrees(c, s, g, g.base + s.strstart);
    ghost var past := History(c);
    PlainStart(s0, g0, past);
    while true
      invariant PlainReady(c, s, g) && Since(s, g, s0, g0) && availOut <= availOut0 &&
                Handed(d0, c.w.delivered, availOut0, availOut) && Left(s) <= Left(s0)
      invariant Chained(es, s0, g0) && RleMoves(es) && c.trees.Buffered() && Written(past, History(c), es) &&
                s == EndS(es, s0) && g == EndG(es, g0)
      decreases Left(s)
    {
      ghost var v, k := s, g;
      s, g := TopUp(c, s, g, g.base + s.strstart, MAX_MATCH + 1, s0, g0);
      SameFacts(s, g, v, k);
      if s.lookahead <= MAX_MATCH && flush == NO_FLUSH {
        StopHere(c, s, g, s0, g0);
        return NeedMore, s, g, availOut, es;
      }
      if s.lookahead == 0 { break; }
      var stop;
      ghost var tok;
      ghost var d1, a1 := c.w.delivered, availOut;
      ghost var u, ts := s, History(c);
      stop, s, availOut, tok := RleRound(c, s, g, availOut);
      SinceSame(u, g, s, g, s0, g0);
      ValidBuffered(c);
      ghost var e := Move(v, k, u, g, [tok], s, g);
      ChainNext(es, e, s0, g0);
      RleNext(es, e);
      WrittenMore(past, ts, History(c), es, e);
      es := es + [e];
      HandedTwice(d0, d1, c.w.delivered, availOut0, a1, availOut);
      if stop {
        StopHere(c, s, g, s0, g0);
        return NeedMore, s, g, availOut, es;
      }
    }
    ghost var d2, a2 := c.w.delivered, availOut;
    r, s, availOut := PlainFinish(c, s, g, flush, availOut, s0, g0);
    HandedTwice(d0, d2, c.w.delivered, availOut0, a2, availOut);
  }

  /** deflate_huff. */
  method DeflateHuff(c: Coder, s0: Lz, ghost g0: Past, flush: FlushMode, availOut0: nat)
    returns (r: BlockState, s: Lz, ghost g: Past, availOut: nat, ghost es: seq<Move>)
    requires HuffReady(c, s0, g0)
    modifies c.d.window, c.d.head, c.d.prev, c.trees, c.trees.Repr(), c.w, c`log
    ensures Outcome(c, r, s, g, s0, g0) && availOut <= availOut0 &&
            Handed(old(c.w.delivered), c.w.delivered, availOut0, availOut) && !s.matchAvailable
    ensures r == NeedMore || r == BlockDone ==> HuffReady(c, s, g)
    ensures r == NeedMore || r == FinishStarted ==> (flush == NO_FLUSH && s.next == |s.input|) || availOut == 0
    ensures (r == FinishDone || r == FinishStarted ==> flush == FINISH) && (r == BlockDone ==> flush != FINISH) &&
            (r == FinishDone ==> availOut > 0)
    ensures r == NeedMore && flush == FINISH ==> Left(s) < Left(s0)
    ensures r == NeedMore && availOut > 0 ==> s.lookahead < MIN_LOOKAHEAD
    ensures Chained(es, s0, g0) && HuffMoves(es) && c.trees.Buffered() && Written(old(History(c)), History(c), es)
  {
    hide LzOk, OutOk, WindowHas, Chains, Primed, Pow2, Closed, c.d.Shape, Space, Filled, WholeStream, c.Apart, Handed,
         Outcome, Ready, Behind, c.trees.Valid, LogTokens, Since, RunToken, SameStep,
         HuffMove, HuffMoves, Chained, Toks, Written, EndS, EndG;
    s, g, availOut, es := s0, g0, availOut0, [];
    ghost var d0 := c.w.delivered;
    HandedNone(d0, availOut);
    ReadyIs(c, s, g, g.base + s.strstart);
    SinceStart(s, g);
    ReadyTrees(c, s, g, g.base + s.strstart);
    ghost var past := History(c);
    PlainStart(s0, g0, past);
    while true
      invariant HuffReady(c, s, g) && Since(s, g, s0, g0) && availOut <= availOut0 &&
                Handed(d0, c.w.delivered, availOut0, availOut) && Left(s) <= Left(s0)
      invariant Chained(es, s0, g0) && HuffMoves(es) && c.trees.Buffered() && Written(past, History(c), es) &&
                s == EndS(es, s0) && g == EndG(es, g0)
      decreases Left(s)
    {
      ghost var v, k := s, g;
      s, g := TopUp(c, s, g, g.base + s.strstart, 1, s0, g0);
      SameFacts(s, g, v, k);
      if s.lookahead == 0 {
        if flush == NO_FLUSH {
          StopHere(c, s, g, s0, g0);
          return NeedMore, s, g, availOut, es;
        }
        break;
      }
      var stop;
      ghost var d1, a1 := c.w.delivered, availOut;
      ghost var u, ts := s, History(c);
      ghost var tok;
      stop, s, availOut, tok := HuffRound(c, s, g, availOut);
      SinceSame(u, g, s, g, s0, g0);
      ValidBuffered(c);
      ghost var e := Move(v, k, u, g, [tok], s, g);
      ChainNext(es, e, s0, g0);
      HuffNext(es, e);
      WrittenMore(past, ts, History(c), es, e);
      es := es + [e];
      HandedTwice(d0, d1, c.w.delivered, availOut0, a1, availOut);
      if stop {
        StopHere(c, s, g, s0, g0);
        return NeedMore, s, g, availOut, es;
      }
    }
    ghost var d2, a2 := c.w.delivered, availOut;
    r, s, availOut := HuffFinish(c, s, g, flush, availOut, s0, g0);
    HandedTwice(d0, d2, c.w.delivered, availOut0, a2, availOut);
  }
}
