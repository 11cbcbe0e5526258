/**
  deflate.c: calls of deflate() for raw streams, at one level and strategy.
*/
module Deflate {
  import opened Bits
  import opened Hash
  import opened HashChains
  import opened LongestMatch
  import opened FillWindow
  import opened Format
  import opened Encoding
  import opened BitWriter
  import opened StaticTables
  import opened BlockCost
  import opened Blocks
  import opened DeflateText
  import opened Restart
  import opened BlockLog
  import opened Emit
  import opened Moves
  import opened DeflateFast
  import opened DeflateSlow
  import opened DeflateRuns

  /** The compression function: by level, or by the strategies Z_RLE and Z_HUFFMAN_ONLY. */
  datatype Method = FAST | SLOW | RLE | HUFF

  datatype Status = BUSY_STATE | FINISH_STATE

  datatype Return = Z_OK | Z_STREAM_END | Z_STREAM_ERROR | Z_BUF_ERROR

  ghost predicate MethodReady(m: Method, c: Coder, s: Lz, g: Past)
    reads c.d.window, c.d.head, c.d.prev
    reads c, c.trees`dist, c.trees`lc, c.trees`optLen, c.trees`staticLen, c.trees.lfc, c.trees.dfc, c.trees.bfc, c.w
  {
    match m
    case FAST => FastReady(c, s, g)
    case SLOW => SlowReady(c, s, g)
    case RLE => PlainReady(c, s, g)
    case HUFF => HuffReady(c, s, g)
  }

  /** The steps are those of the compression function. */
  ghost predicate Steps(m: Method, f: Conf, filtered: bool, es: seq<Move>)
  {
    match m
    case FAST => FastMoves(f, es)
    case SLOW => SlowMoves(f, filtered, es)
    case RLE => RleMoves(es)
    case HUFF => HuffMoves(es)
  }

  /** From the state `s0` the tokens `ts` were continued to `us`, by steps of the compression function and, at the end
      of the input, by the literal that waited. */
  ghost predicate Tokenized(m: Method, c: Coder, es: seq<Move>, end: seq<Token>, s0: Lz, g0: Past, ts: seq<Token>,
                            us: seq<Token>)
  {
    Chained(es, s0, g0) && Steps(m, c.d.f, c.filtered, es) && us == ts + Toks(es) + end &&
    (end == [] || (m == SLOW && end == LastLiteral(EndS(es, s0), EndG(es, g0))))
  }

  lemma NoSteps(m: Method, c: Coder, s0: Lz, g0: Past, ts: seq<Token>)
    ensures Tokenized(m, c, [], [], s0, g0, ts, ts)
  {
    assert ts + Toks([]) + [] == ts;
  }

  lemma StepsOnly(m: Method, c: Coder, es: seq<Move>, s0: Lz, g0: Past, ts: seq<Token>, us: seq<Token>)
    requires Chained(es, s0, g0) && Steps(m, c.d.f, c.filtered, es) && Written(ts, us, es)
    ensures Tokenized(m, c, es, [], s0, g0, ts, us)
  {
    hide Chained, Steps;
  }

  /** Runs the compression function of the level or strategy. */
  method Compress(m: Method, c: Coder, s0: Lz, ghost g0: Past, flush: FlushMode, availOut0: nat)
    returns (r: BlockState, s: Lz, ghost g: Past, availOut: nat, ghost es: seq<Move>, ghost end: seq<Token>)
    requires MethodReady(m, c, s0, g0) && c.trees.Buffered()
    modifies c.d.window, c.d.head, c.d.prev, c.trees, c.trees.Repr(), c.w, c`log
    ensures Outcome(c, r, s, g, s0, g0) && availOut <= availOut0 &&
            Handed(old(c.w.delivered), c.w.delivered, availOut0, availOut)
    ensures r == NeedMore || r == BlockDone ==> MethodReady(m, c, s, g)
    ensures r == NeedMore || r == FinishStarted ==> (flush == NO_FLUSH && s.next == |s.input|) || availOut == 0
    ensures (r == FinishDone || r == FinishStarted ==> flush == FINISH) && (r == BlockDone ==> flush != FINISH) &&
            (r == FinishDone ==> availOut > 0)
    ensures r == NeedMore && flush == FINISH ==> Left(s) < Left(s0)
    ensures r == NeedMore && availOut > 0 ==> s.lookahead < MIN_LOOKAHEAD
    ensures r != NeedMore && c.d.f.useHash ==> s.insert == if s.strstart < 2 then s.strstart else 2
    ensures c.trees.Buffered() && Tokenized(m, c, es, end, s0, g0, old(History(c)), History(c))
  {
    hide FastReady, SlowReady, PlainReady, HuffReady, Outcome, Handed, FastMoves, SlowMoves, RleMoves, HuffMoves,
         Chained,
         Toks, Written, LogTokens, LastLiteral;
    ghost var ts := History(c);
    end := [];
    match m {
      case FAST =>
        FastFlag(c, s0, g0);
        r, s, g, availOut, es := DeflateFast.DeflateFast(c, s0, g0, flush, availOut0);
        if r == NeedMore || r == BlockDone { FastAgain(c, r, s, g, s0, g0); }
        StepsOnly(m, c, es, s0, g0, ts, History(c));
      case SLOW => r, s, g, availOut, es, end := DeflateSlow.DeflateSlow(c, s0, g0, flush, availOut0);
      case RLE =>
        PlainFlag(c, s0, g0);
        r, s, g, availOut, es := DeflateRle(c, s0, g0, flush, availOut0);
        if r == NeedMore || r == BlockDone { PlainAgain(c, r, s, g, s0, g0); }
        StepsOnly(m, c, es, s0, g0, ts, History(c));
      case HUFF =>
        HuffFlag(c, s0, g0);
        r, s, g, availOut, es := DeflateHuff(c, s0, g0, flush, availOut0);
        StepsOnly(m, c, es, s0, g0, ts, History(c));
    }
  }

  lemma MethodBuffered(m: Method, c: Coder, s: Lz, g: Past)
    requires MethodReady(m, c, s, g)
    ensures c.trees.Buffered()
  {
    hide Ready, Pending;
    MethodIs(m, c, s, g);
    ReadyTrees(c, s, g, Coded(s, g));
  }

  lemma FastFlag(c: Coder, s: Lz, g: Past)
    requires FastReady(c, s, g)
    ensures c.d.f.useHash
  {
    hide Ready;
  }

  lemma PlainFlag(c: Coder, s: Lz, g: Past)
    requires PlainReady(c, s, g)
    ensures !c.d.f.useHash
  {
    hide Ready;
  }

  lemma HuffFlag(c: Coder, s: Lz, g: Past)
    requires HuffReady(c, s, g)
    ensures !c.d.f.useHash
  {
    hide Ready;
  }

  lemma FastAgain(c: Coder, r: BlockState, s: Lz, g: Past, s0: Lz, g0: Past)
    requires Outcome(c, r, s, g, s0, g0) && (r == NeedMore || r == BlockDone) && s.matchLength < MIN_MATCH &&
             s.prevLength == 2 && !s.matchAvailable && c.d.f.useHash
    ensures FastReady(c, s, g)
  {
    hide Ready;
  }

  lemma PlainAgain(c: Coder, r: BlockState, s: Lz, g: Past, s0: Lz, g0: Past)
    requires Outcome(c, r, s, g, s0, g0) && (r == NeedMore || r == BlockDone) && !s.matchAvailable && !c.d.f.useHash
    ensures PlainReady(c, s, g)
  {
    hide Ready;
  }

  // ------------------------------------------------------------------ empty blocks between calls

  /** The text has been closed at the end of the input read so far. */
  ghost predicate AtEnd(c: Coder, s: Lz, g: Past)
    reads c, c.trees`dist, c.trees`lc, c.trees`optLen, c.trees`staticLen, c.trees.lfc, c.trees.dfc, c.trees.bfc, c.w
  {
    OutOk(c, g.data, g.base + s.blockStart, |g.data|) && c.trees.dist == [] && Coded(s, g) == |g.data| &&
    s.lookahead == 0
  }

  /** The marker of a flush: nothing for Z_BLOCK, an empty fixed block for Z_PARTIAL_FLUSH, else an empty stored one. */
  function Marker(flush: FlushMode): (b: Option<Block>)
  {
    match flush
    case BLOCK_FLUSH => None
    case PARTIAL_FLUSH => Some(FixedBlock([]))
    case _ => Some(StoredBlock([]))
  }

  function MarkerEntry(flush: FlushMode, sent: seq<bool>, data: seq<byte>): (log: seq<Sent>)
  {
    if Marker(flush).Some? then [Sent(Marker(flush).value, false, sent, data, None)] else []
  }

  /** An empty block of any kind does not change the text. */
  lemma EmptyBlock(c: Coder, sent: seq<bool>, data: seq<byte>, b: Block)
    requires Text(sent, [], data, |data|, |data|) && Marked(c.marks, sent, [], data, |data|, |data|) &&
             Logged(c.log, sent, data, c.fixedStrategy, false)
    requires b == StoredBlock([]) || (b == FixedBlock([]) && ValidBlock(b, data))
    ensures ValidBlock(b, data)
    ensures var s, log := sent + BlockBits(b, false, |sent|, data), c.log + [Sent(b, false, sent, data, None)];
            Text(s, [], data, |data|, |data|) && Marked(c.marks, s, [], data, |data|, |data|) &&
            Logged(log, s, data, c.fixedStrategy, false) && LogTokens(log) == LogTokens(c.log)
  {
    hide BlockBits, Decodes, AllEncodable, Marked, Logged, Wound, LogTokens;
    assert data[..|data|] == data && data + [] == data;
    EmptyBlockKeeps(sent, data, |data|, |data|, b);
    FromBlock(c.marks, sent, [], data, |data|, |data|, b, false);
    NotWound(sent + BlockBits(b, false, |sent|, data));
    LogNext(c.log, Sent(b, false, sent, data, None), sent + BlockBits(b, false, |sent|, data), data, c.fixedStrategy);
    assert LogTokens(c.log) + [] == LogTokens(c.log);
  }

  lemma EmptyFixed(out: seq<byte>)
    ensures ValidBlock(FixedBlock([]), out)
  {
    FixedEncodes([]);
  }

  lemma EmptyFixedSize(at: nat, out: seq<byte>)
    requires ValidBlock(FixedBlock([]), out)
    ensures |BlockBits(FixedBlock([]), false, at, out)| == 10
  {
    FixedEncodes([]);
  }

  /** Sends the marker that ends a flush. */
  method SendMarker(c: Coder, flush: FlushMode, ghost data: seq<byte>)
    requires OutOk(c, data, |data|, |data|) && c.trees.dist == [] && c.w.biValid <= 7
    modifies c.w`pending, c.w`biBuf, c.w`biValid, c`log
    ensures OutOk(c, data, |data|, |data|) && c.w.biValid <= 7 &&
            (flush == SYNC_FLUSH || flush == FULL_FLUSH ==> c.w.biValid == 0)
    ensures old(c.w.Sent()) <= c.w.Sent() && (flush == PARTIAL_FLUSH ==> |c.w.Sent()| == |old(c.w.Sent())| + 10)
    ensures c.log == old(c.log) + MarkerEntry(flush, old(c.w.Sent()), data) && LogTokens(c.log) == LogTokens(old(c.log))
  {
    hide Text, LitFreqs, DistFreqs, BlockBits, ValidBlock, c.w.Sent, AllSendable, ValidTables, Marked, Logged,
         LogTokens;
    OutIs(c, data, |data|, |data|);
    EmptyTokens(c);
    ghost var sent := c.w.Sent();
    assert data[..|data|] == data;
    ghost var entry := MarkerEntry(flush, sent, data);
    if flush == PARTIAL_FLUSH {
      EmptyFixed(data);
      EmptyFixedSize(|sent|, data);
      EmptyBlock(c, sent, data, FixedBlock([]));
      SendAlign(c.w, c.trees.tables, data);
    } else if flush != BLOCK_FLUSH {
      EmptyBlock(c, sent, data, StoredBlock([]));
      SendStored(c.w, [], false, data);
    }
    assert c.log + [] == c.log;
    c.log := c.log + entry;
  }

  // ------------------------------------------------------------------ what the methods have in common

  lemma MethodIs(m: Method, c: Coder, s: Lz, g: Past)
    requires MethodReady(m, c, s, g)
    ensures 0 <= Coded(s, g) && Ready(c, s, g, Coded(s, g))
  {
    hide Ready, Pending;
  }

  /** New input for the next call. */
  lemma NewInput(m: Method, c: Coder, s: Lz, g: Past, t: Lz)
    requires MethodReady(m, c, s, g) && t == s.(input := t.input, next := 0)
    ensures MethodReady(m, c, t, g)
  {
    hide OutOk, Chains, Primed, WindowHas, Pending, Space;
  }

  /** The state right after Z_FULL_FLUSH: nothing of the window is used any more. */
  function Forgotten(s: Lz): (t: Lz) { s.(strstart := 0, blockStart := 0, insert := 0) }

  lemma ForgetKeeps(m: Method, c: Coder, s: Lz, g: Past)
    requires s.lookahead == 0 && |g.data| == g.base + s.strstart && s.next <= |s.input| && !s.matchAvailable &&
             c.d.Shape() && c.Apart()
    requires OutOk(c, g.data, |g.data|, |g.data|) && c.trees.dist == [] && c.w.biValid <= 7 &&
             Behind(c.marks, |g.data|)
    requires Chains(c.d.f.hashBits, WSize(c.d.f), c.d.head[..], c.d.prev[..], g.data, |g.data|, {}, |g.data|)
    requires m == FAST ==> s.matchLength < MIN_MATCH && s.prevLength == 2
    requires m == SLOW ==> s.matchLength == 2
    requires c.d.f.useHash <==> m == FAST || m == SLOW
    ensures MethodReady(m, c, Forgotten(s), Past(|g.data|, g.data, {}, |g.data|))
  {
    hide OutOk, Chains, Primed;
    assert c.d.window[..][..0] == g.data[|g.data|..|g.data| + 0];
  }

  lemma AtEndFacts(m: Method, c: Coder, s: Lz, g: Past)
    requires MethodReady(m, c, s, g) && AtEnd(c, s, g)
    ensures !s.matchAvailable && |g.data| == g.base + s.strstart && s.next <= |s.input| && c.d.Shape() && c.Apart()
    ensures (m == FAST ==> s.matchLength < MIN_MATCH && s.prevLength == 2) && (m == SLOW ==> s.matchLength == 2) &&
            (c.d.f.useHash <==> m == FAST || m == SLOW)
    ensures OutOk(c, g.data, |g.data|, |g.data|) && g.base + s.blockStart == |g.data|
  {
    hide OutOk, Chains, Primed, WindowHas, RealMatch, Space;
    MethodIs(m, c, s, g);
    ReadyIs(c, s, g, Coded(s, g));
    if m == SLOW { PendingIs(c.d.f, g.data, g.base + s.strstart - 1, g.base + s.matchStart, s.matchLength); }
    EmptyBlockEnd(c, g.data, g.base + s.blockStart, |g.data|);
  }

  /** With no tokens the block is empty. */
  lemma EmptyBlockEnd(c: Coder, data: seq<byte>, block: int, pos: nat)
    requires OutOk(c, data, block, pos) && c.trees.dist == []
    ensures block == pos && OutOk(c, data, pos, pos)
  {
    hide LitFreqs, DistFreqs, ValidTables, Decodes;
    EmptyTokens(c);
    assert Expand(data[..block], []) == data[..block];
  }

  /** After a flush the output is aligned to the input; a full flush also forgets the history, and marks the point. */
  method FinishFlush(m: Method, c: Coder, s: Lz, ghost g: Past, flush: FlushMode) returns (t: Lz, ghost h: Past)
    requires MethodReady(m, c, s, g) && AtEnd(c, s, g)
    modifies c.w`pending, c.w`biBuf, c.w`biValid, c.d.head, c`log, c`marks
    ensures MethodReady(m, c, t, h) && t == (if flush == FULL_FLUSH then Forgotten(s) else s) &&
            h == if flush == FULL_FLUSH then Past(|g.data|, g.data, {}, |g.data|) else g
    ensures c.marks == old(c.marks) + (if flush == FULL_FLUSH then {Mark(|c.w.Sent()|, |g.data|)} else {})
    ensures c.log == old(c.log) + MarkerEntry(flush, old(c.w.Sent()), g.data)
    ensures Restarts(c.marks, c.w.Sent(), g.data) && LogTokens(c.log) == LogTokens(old(c.log))
    ensures Decodes(c.w.Sent(), g.data) && (flush == SYNC_FLUSH || flush == FULL_FLUSH ==> c.w.biValid == 0)
    ensures Decodes(old(c.w.Sent()), g.data) && old(c.w.Sent()) <= c.w.Sent() &&
            (flush == PARTIAL_FLUSH ==> |c.w.Sent()| == |old(c.w.Sent())| + 10)
  {
    hide MethodReady, OutOk, Chains, Pow2, c.d.Shape, Decodes, c.w.Sent, Restarts, Behind, MarkerEntry, c.Apart,
         LogTokens;
    MethodIs(m, c, s, g);
    ReadyIs(c, s, g, Coded(s, g));
    AtEndFacts(m, c, s, g);
    LzIs(c.d, s, g);
    AllDecodes(c, g.data);
    SendMarker(c, flush, g.data);
    AllDecodes(c, g.data);
    t, h := s, g;
    if flush == FULL_FLUSH {
      SetMark(c, g.data);
      ShapeSizes(c.d);
      ClearHash(c.d.f, c.d.head, c.d.prev, g.data, |g.data|);
      t, h := Forgotten(s), Past(|g.data|, g.data, {}, |g.data|);
      ForgetKeeps(m, c, s, g);
    } else {
      Rebuild(m, c, s, g);
    }
    AllRestart(c, g.data);
  }

  /** What was sent after a mark decodes, from the start of a stream, to the text after it. */
  ghost predicate Restarts(ms: set<Mark>, sent: seq<bool>, data: seq<byte>)
  {
    forall m :: m in ms ==>
      m.bits <= |sent| && m.bits % 8 == 0 && m.pos <= |data| && Decodes(sent[m.bits..], data[m.pos..])
  }

  lemma AllRestart(c: Coder, data: seq<byte>)
    requires OutOk(c, data, |data|, |data|) && c.trees.dist == []
    ensures Restarts(c.marks, c.w.Sent(), data)
  {
    hide Text, Decodes, Logged, c.w.Sent, LitFreqs, DistFreqs, ValidTables, Within;
    EmptyTokens(c);
    forall m | m in c.marks
      ensures m.bits <= |c.w.Sent()| && m.bits % 8 == 0 && m.pos <= |data| &&
              Decodes(c.w.Sent()[m.bits..], data[m.pos..]) {
      assert TextFrom(m, c.w.Sent(), [], data, |data|, |data|);
      FromDecodes(m, c.w.Sent(), data);
    }
  }

  /** A byte boundary at the end of all blocks can be marked. */
  lemma MarkHere(c: Coder, data: seq<byte>)
    requires OutOk(c, data, |data|, |data|) && c.trees.dist == [] && c.w.biValid == 0
    ensures var ms := c.marks + {Mark(|c.w.Sent()|, |data|)};
            Marked(ms, c.w.Sent(), c.trees.Tokens(), data, |data|, |data|) && Behind(ms, |data|)
  {
    hide Text, Logged, c.w.Sent, LitFreqs, DistFreqs, ValidTables, Within;
    EmptyTokens(c);
    SentSize(c.w);
    NewMark(c.marks, c.w.Sent(), data);
    var ms := c.marks + {Mark(|c.w.Sent()|, |data|)};
    forall m | m in ms ensures m.pos <= |data| {
      assert TextFrom(m, c.w.Sent(), [], data, |data|, |data|);
    }
  }

  ghost method SetMark(c: Coder, data: seq<byte>)
    requires OutOk(c, data, |data|, |data|) && c.trees.dist == [] && c.w.biValid == 0
    modifies c`marks
    ensures OutOk(c, data, |data|, |data|) && Behind(c.marks, |data|) &&
            c.marks == old(c.marks) + {Mark(|c.w.Sent()|, |data|)}
  {
    hide Text, Logged, c.w.Sent, c.trees.Valid, Within, Marked, Behind;
    MarkHere(c, data);
    OutIs(c, data, |data|, |data|);
    c.marks := c.marks + {Mark(|c.w.Sent()|, |data|)};
  }

  lemma SentSize(w: Writer)
    requires w.Valid()
    ensures |w.Sent()| == 8 * |w.delivered + w.pending| + w.biValid
  {
  }

  lemma Rebuild(m: Method, c: Coder, s: Lz, g: Past)
    requires LzOk(c.d, s, g) && OutOk(c, g.data, |g.data|, |g.data|) && g.base + s.blockStart == |g.data| &&
             c.trees.dist == [] && c.Apart() && c.w.biValid <= 7 && Behind(c.marks, g.base)
    requires |g.data| == g.base + s.strstart && !s.matchAvailable
    requires m == FAST ==> s.matchLength < MIN_MATCH && s.prevLength == 2
    requires m == SLOW ==> s.matchLength == 2
    requires c.d.f.useHash <==> m == FAST || m == SLOW
    ensures MethodReady(m, c, s, g)
  {
    hide LzOk, OutOk;
  }

  lemma AllDecodes(c: Coder, data: seq<byte>)
    requires OutOk(c, data, |data|, |data|)
    ensures Decodes(c.w.Sent(), data)
  {
    hide Decodes, ValidTokens, Expand, c.trees.Valid, Within, Marked, Logged;
    assert data[..|data|] == data;
  }

  lemma ShapeSizes(d: Dict)
    requires d.Shape()
    ensures d.head != d.prev && d.head.Length == Pow2(d.f.hashBits) && d.prev.Length == WSize(d.f)
  {
  }

  // ------------------------------------------------------------------ deflate()

  /** A compressor for a raw stream. */
  class Deflater {
    const m: Method
    const c: Coder
    var s: Lz
    ghost var g: Past
    var status: Status
    /** The flush value of the last call, -1 when it could not finish for lack of output space. */
    var lastFlush: int

    ghost predicate Valid()
      reads this`s, this`g, this`status, c.d.window, c.d.head, c.d.prev
      reads c, c.trees`dist, c.trees`lc, c.trees`optLen, c.trees`staticLen, c.trees.lfc, c.trees.dfc, c.trees.bfc, c.w
    {
      c.w.Valid() && c.trees.Buffered() &&
      match status
      case BUSY_STATE => MethodReady(m, c, s, g)
      case FINISH_STATE => Ended(c, g.data) && s.lookahead == 0
    }

    /** deflateInit2 for a raw stream. */
    constructor (m: Method, f: Conf, litBufsize: nat, fixedStrategy: bool, filtered: bool)
      requires ValidConf(f) && 3 <= litBufsize <= 32768 && (f.useHash <==> m == FAST || m == SLOW)
      ensures Valid() && g.data == [] && status == BUSY_STATE && c.w.delivered == [] && this.m == m && c.d.f == f &&
              c.fixedStrategy == fixedStrategy && c.filtered == filtered && c.trees.litBufsize == litBufsize &&
              c.marks == {} && c.log == [] && lastFlush == 0
      ensures fresh(c) && fresh(c.d) && fresh(c.d.window) && fresh(c.d.head) && fresh(c.d.prev) && fresh(c.trees) &&
              fresh(c.trees.Repr()) && fresh(c.w)
    {
      hide Chains, Primed, Text, WindowHas, LitFreqs, DistFreqs;
      this.m := m;
      c := new Coder(f, litBufsize, fixedStrategy, filtered);
      s := Lz(0, 0, 0, 0, 0, 2, 2, 0, false, 0, [], 0);
      g := Past(0, [], {}, 0);
      status, lastFlush := BUSY_STATE, 0;
      new;
      StartReady(m, c, s, g);
    }
  }

  lemma StartReady(m: Method, c: Coder, s: Lz, g: Past)
    requires s == Lz(0, 0, 0, 0, 0, 2, 2, 0, false, 0, [], 0) && g == Past(0, [], {}, 0) && c.Apart() && c.d.Shape()
    requires Chains(c.d.f.hashBits, WSize(c.d.f), c.d.head[..], c.d.prev[..], [], 0, {}, 0)
    requires c.trees.Valid() && c.trees.Tokens() == [] && c.w.Valid() && c.w.Sent() == [] && c.w.biValid == 0 &&
             c.marks == {} && c.log == [] && (c.d.f.useHash <==> m == FAST || m == SLOW)
    ensures MethodReady(m, c, s, g)
  {
    hide Chains, Primed, Text, LitFreqs, DistFreqs;
    TextStart([]);
    assert c.d.window[..][..0] == [];
    assert |c.trees.dist| == |c.trees.Tokens()|;
  }

  /** The numbers of the flush values in zlib.h, and their rank. */
  function Code(f: FlushMode): (n: nat)
  {
    match f
    case NO_FLUSH => 0
    case PARTIAL_FLUSH => 1
    case SYNC_FLUSH => 2
    case FULL_FLUSH => 3
    case FINISH => 4
    case BLOCK_FLUSH => 5
  }

  function RankOf(f: int): (r: int) { f * 2 - if f > 4 then 9 else 0 }

  /** Z_BLOCK ranks between Z_NO_FLUSH and Z_PARTIAL_FLUSH, and -1, a call that ran out of space, below all. */
  function Place(f: FlushMode): (n: nat)
  {
    match f
    case NO_FLUSH => 0
    case BLOCK_FLUSH => 1
    case PARTIAL_FLUSH => 2
    case SYNC_FLUSH => 3
    case FULL_FLUSH => 4
    case FINISH => 5
  }

  lemma RankOrder(f: FlushMode, g: FlushMode)
    ensures RankOf(Code(f)) <= RankOf(Code(g)) <==> Place(f) <= Place(g)
    ensures RankOf(-1) < RankOf(Code(f))
  {
  }

  /** flush_pending at the start of a call. */
  method FlushFirst(z: Deflater, availOut0: nat) returns (availOut: nat)
    requires z.Valid()
    modifies z.c.w
    ensures z.Valid() && Handed(old(z.c.w.delivered), z.c.w.delivered, availOut0, availOut) &&
            (availOut > 0 ==> z.c.w.pending == [])
    ensures z.c.w.Sent() == old(z.c.w.Sent()) && (old(z.c.w.biValid) == 0 ==> z.c.w.biValid == 0)
    ensures |z.c.w.pending| == |old(z.c.w.pending)| - (availOut0 - availOut) &&
            (availOut == 0 <==> |old(z.c.w.pending)| >= availOut0) && z.c.w.biValid <= 7
  {
    hide Text, WholeStream, LzOk, Pending, z.c.w.Sent, Marked, Logged, AllWhole, Behind, Within, z.c.trees.Valid;
    availOut := z.c.w.FlushPending(availOut0);
  }

  /** The work of a call that has something to do: compression, and the marker that completes a flush. */
  method Work(z: Deflater, input: seq<byte>, availOut0: nat, flush: FlushMode)
    returns (more: bool, consumed: nat, availOut: nat, ghost es: seq<Move>, ghost end: seq<Token>)
    requires z.Valid() && z.status == BUSY_STATE
    modifies z`s, z`g, z`status, z`lastFlush, z.c`marks, z.c`log
    modifies z.c.d.window, z.c.d.head, z.c.d.prev, z.c.trees, z.c.trees.Repr(), z.c.w
    ensures z.Valid() && consumed <= |input| && z.g.data == old(z.g.data) + input[..consumed]
    ensures Handed(old(z.c.w.delivered), z.c.w.delivered, availOut0, availOut)
    ensures !more ==> availOut > 0 && consumed == |input|
    ensures !more && flush == FINISH ==> z.status == FINISH_STATE && z.c.w.pending == []
    ensures z.status == FINISH_STATE ==> flush == FINISH && consumed == |input|
    ensures !more ==> Flushed(z.c.w, z.g.data, flush) && Restartable(z.c, z.g.data, flush)
    ensures MarksKept(z.c, old(z.c.marks), z.g.data, flush)
    ensures Tokenized(z.m, z.c, es, end, old(z.s).(input := input, next := 0), old(z.g), old(History(z.c)),
                      History(z.c))
    ensures (consumed == |input| || availOut == 0) && (more && flush != NO_FLUSH ==> availOut == 0)
    ensures availOut > 0 ==> z.s.lookahead < MIN_LOOKAHEAD
    ensures z.lastFlush == if availOut == 0 then -1 else old(z.lastFlush)
    ensures more && flush == FINISH && z.status == BUSY_STATE ==>
              |input| - consumed + z.s.lookahead < |input| + old(z.s.lookahead)
  {
    hide MethodReady, AtEnd, WholeStream, Decodes, Flushed, Handed, Tokenized, LogTokens, z.c.w.Sent, z.c.w.Valid,
         Ended, Restartable, z.Valid, Forgotten;
    ghost var d0 := z.c.w.delivered;
    var r, s;
    ghost var g;
    r, s, g, availOut, es, end := Press(z, input, availOut0, flush);
    consumed := s.next;
    if r == FinishStarted || r == FinishDone {
      z.s, z.g, z.status := s, g, FINISH_STATE;
      if r == FinishStarted { z.lastFlush := -1; }
      KeepEnded(z);
      MoreFlushed(z.c, z.g.data, FINISH);
      more := r == FinishStarted;
      return;
    }
    if r == NeedMore {
      if availOut == 0 { z.lastFlush := -1; }
      z.s, z.g := s, g;
      KeepValid(z);
      more := true;
      return;
    }
    ghost var d1, a1 := z.c.w.delivered, availOut;
    more, availOut := Complete(z, s, g, flush, availOut);
    HandedTwice(d0, d1, z.c.w.delivered, availOut0, a1, availOut);
  }

  /** Compression within a call; the new state is not stored yet. */
  method Press(z: Deflater, input: seq<byte>, availOut0: nat, flush: FlushMode)
    returns (r: BlockState, s: Lz, ghost g: Past, availOut: nat, ghost es: seq<Move>, ghost end: seq<Token>)
    requires z.Valid() && z.status == BUSY_STATE
    modifies z.c.d.window, z.c.d.head, z.c.d.prev, z.c.trees, z.c.trees.Repr(), z.c.w, z.c`log
    ensures s.next <= |input| && g.data == z.g.data + input[..s.next] &&
            Handed(old(z.c.w.delivered), z.c.w.delivered, availOut0, availOut)
    ensures r == FinishStarted || r == FinishDone ==>
              Ended(z.c, g.data) && s.next == |input| && s.lookahead == 0 && flush == FINISH
    ensures (r == FinishDone ==> z.c.w.pending == [] && availOut > 0) && (r == FinishStarted ==> availOut == 0)
    ensures r == NeedMore ==> MethodReady(z.m, z.c, s, g) && ((flush == NO_FLUSH && s.next == |input|) || availOut == 0)
    ensures r == NeedMore && flush == FINISH ==> |input| - s.next + s.lookahead < |input| + z.s.lookahead
    ensures r == NeedMore && availOut > 0 ==> s.lookahead < MIN_LOOKAHEAD
    ensures r == BlockDone ==>
              MethodReady(z.m, z.c, s, g) && AtEnd(z.c, s, g) && s.next == |input| && flush != FINISH &&
              s.lookahead == 0
    ensures z.c.trees.Buffered() &&
            Tokenized(z.m, z.c, es, end, z.s.(input := input, next := 0), z.g, old(History(z.c)), History(z.c))
  {
    hide MethodReady, Outcome, WholeStream, Handed, Tokenized, LogTokens, Ended, AtEnd, z.c.w.Sent, z.c.w.Valid;
    var s0 := z.s.(input := input, next := 0);
    NewInput(z.m, z.c, z.s, z.g, s0);
    r, s, g, availOut, es, end := Compress(z.m, z.c, s0, z.g, flush, availOut0);
    OutcomeIs(z.c, r, s, g, s0, z.g);
    if r == BlockDone {
      BlockEnd(z.c, s, g, s0, z.g);
      AtEndLook(z.c, s, g);
    }
  }

  /** Completes a flush: the marker, and delivery. */
  method Complete(z: Deflater, s: Lz, ghost g: Past, flush: FlushMode, availOut0: nat)
    returns (more: bool, availOut: nat)
    requires z.status == BUSY_STATE && MethodReady(z.m, z.c, s, g) && AtEnd(z.c, s, g) && z.c.trees.Buffered()
    modifies z`s, z`g, z`lastFlush, z.c.w, z.c.d.head, z.c`marks, z.c`log
    ensures z.Valid() && z.g.data == g.data && Handed(old(z.c.w.delivered), z.c.w.delivered, availOut0, availOut)
    ensures History(z.c) == old(History(z.c)) && z.s == (if flush == FULL_FLUSH then Forgotten(s) else s) &&
            z.g == (if flush == FULL_FLUSH then Past(|g.data|, g.data, {}, |g.data|) else g) &&
            z.s.lookahead == s.lookahead
    ensures MarksKept(z.c, old(z.c.marks), z.g.data, flush) && Restartable(z.c, z.g.data, flush)
    ensures (more <==> availOut == 0) && (!more ==> Flushed(z.c.w, z.g.data, flush)) &&
            z.lastFlush == if availOut == 0 then -1 else old(z.lastFlush)
  {
    hide MethodReady, AtEnd, WholeStream, Decodes, Flushed, Handed, z.Valid, z.c.w.Sent, z.c.w.Valid, Restarts,
         MarkerEntry, LogTokens;
    ghost var sent, d0 := z.c.w.Sent(), z.c.w.delivered;
    z.s, z.g := FinishFlush(z.m, z.c, s, g, flush);
    KeepValid(z);
    availOut := FlushFirst(z, availOut0);
    more := availOut == 0;
    if more {
      z.lastFlush := -1;
    } else {
      StillValid(z);
      FlushedIs(z.c.w, z.g.data, flush, sent);
    }
  }

  lemma ValidTrees(z: Deflater)
    requires z.Valid()
    ensures z.c.trees.Buffered()
  {
    hide MethodReady, WholeStream;
  }

  lemma StillValid(z: Deflater)
    requires z.Valid()
    ensures z.c.w.Valid()
  {
    hide MethodReady, WholeStream;
  }

  /** What the bytes the application has are worth after a flush.  After Z_SYNC_FLUSH and Z_FULL_FLUSH they decode to
      all input so far; after Z_PARTIAL_FLUSH a part of them does, and what follows adds nothing; after Z_BLOCK all
      input is in closed blocks, of which at most seven bits are held back. */
  ghost predicate Flushed(w: Writer, data: seq<byte>, flush: FlushMode)
    reads w
  {
    (flush == SYNC_FLUSH || flush == FULL_FLUSH ==> Synced(w, data)) && (flush == PARTIAL_FLUSH ==> Caught(w, data)) &&
    (flush == BLOCK_FLUSH ==> w.pending == [] && w.biValid <= 7 && Decodes(w.Sent(), data))
  }

  /** After any flush decoding can start at every mark; Z_FULL_FLUSH sets one where it ends. */
  ghost predicate Restartable(c: Coder, data: seq<byte>, flush: FlushMode)
    reads c, c.w
  {
    (flush != NO_FLUSH && flush != FINISH ==> Restarts(c.marks, c.w.Sent(), data)) &&
    (flush == FULL_FLUSH ==> Mark(|c.w.Sent()|, |data|) in c.marks)
  }

  ghost predicate Caught(w: Writer, data: seq<byte>)
    reads w
  {
    w.pending == [] && Decodes(w.Sent(), data) &&
    exists n: nat :: n <= |BytesToBits(w.delivered)| && Decodes(BytesToBits(w.delivered)[..n], data)
  }

  /** The marks stay; at most Z_FULL_FLUSH adds the point it reaches. */
  ghost predicate MarksKept(c: Coder, was: set<Mark>, data: seq<byte>, flush: FlushMode)
    reads c, c.w
  {
    c.marks == was || (flush == FULL_FLUSH && c.marks == was + {Mark(|c.w.Sent()|, |data|)})
  }

  lemma FlushedIs(w: Writer, data: seq<byte>, flush: FlushMode, sent: seq<bool>)
    requires w.Valid() && w.pending == [] && w.biValid <= 7 && Decodes(w.Sent(), data) && Decodes(sent, data) &&
             sent <= w.Sent()
    requires flush == SYNC_FLUSH || flush == FULL_FLUSH ==> w.biValid == 0
    requires flush == PARTIAL_FLUSH ==> |w.Sent()| == |sent| + 10
    ensures Flushed(w, data, flush)
  {
    hide Decodes, BytesToBits, Synced;
    SyncedIs(w, data);
    if flush == PARTIAL_FLUSH {
      assert w.delivered + [] == w.delivered;
      assert BytesToBits(w.delivered)[..|sent|] == sent;
    }
  }

  /** All input so far can be decoded from the bytes the application has. */
  ghost predicate Synced(w: Writer, data: seq<byte>)
    reads w
  {
    w.pending == [] && w.biValid == 0 && Decodes(BytesToBits(w.delivered), data)
  }

  lemma SyncedIs(w: Writer, data: seq<byte>)
    requires w.Valid() && Decodes(w.Sent(), data) && w.pending == []
    ensures w.biValid == 0 ==> Synced(w, data)
  {
    hide Decodes, BytesToBits;
    if w.biValid == 0 {
      EmptyBits();
      assert w.delivered + [] == w.delivered;
      assert w.Sent() == BytesToBits(w.delivered);
    }
  }

  lemma KeepValid(z: Deflater)
    requires z.status == BUSY_STATE && MethodReady(z.m, z.c, z.s, z.g)
    ensures z.Valid()
  {
    hide LzOk, Text, Pending;
    MethodIs(z.m, z.c, z.s, z.g);
    MethodBuffered(z.m, z.c, z.s, z.g);
  }

  lemma KeepEnded(z: Deflater)
    requires z.status == FINISH_STATE && Ended(z.c, z.g.data) && z.s.lookahead == 0 && z.c.trees.Buffered()
    ensures z.Valid()
  {
    hide WholeStream, AllWhole, Logged, MethodReady;
  }

  lemma OutcomeIs(c: Coder, r: BlockState, s: Lz, g: Past, s0: Lz, g0: Past)
    requires Outcome(c, r, s, g, s0, g0) && s0.next == 0
    ensures s.input == s0.input && s.next <= |s.input| && g.data == g0.data + s.input[..s.next]
    ensures r == FinishStarted || r == FinishDone ==>
              Ended(c, g.data) && s.next == |s.input| && s.lookahead == 0
    ensures (r == FinishDone ==> c.w.pending == []) && (r == BlockDone ==> s.next == |s.input|)
  {
    hide Ready, Ended;
  }

  lemma BlockEnd(c: Coder, s: Lz, g: Past, s0: Lz, g0: Past)
    requires Outcome(c, BlockDone, s, g, s0, g0)
    ensures AtEnd(c, s, g)
  {
    hide LzOk, OutOk;
    OutAtBlock(c, s, g);
  }

  lemma AtEndLook(c: Coder, s: Lz, g: Past)
    requires AtEnd(c, s, g)
    ensures s.lookahead == 0
  {
    hide OutOk;
  }

  lemma OutAtBlock(c: Coder, s: Lz, g: Past)
    requires Ready(c, s, g, |g.data|)
    ensures OutOk(c, g.data, g.base + s.blockStart, |g.data|)
  {
    hide LzOk, OutOk;
  }

  /** The guards of Z_BUF_ERROR: no output space; nothing to do since the last call; or more input after the end. */
  predicate NothingPossible(status: Status, pending: nat, lastFlush: int, input: nat, availOut: nat, flush: FlushMode)
  {
    availOut == 0 || (pending == 0 && input == 0 && RankOf(Code(flush)) <= RankOf(lastFlush) && flush != FINISH) ||
    (status == FINISH_STATE && input != 0 && pending < availOut)
  }

  /** What a call that could not finish has achieved: the stream is complete, or less input or less output waits. */
  predicate Progress(status0: Status, left0: int, pending0: nat, status: Status, left: int, pending: nat)
  {
    (status0 == BUSY_STATE && status == FINISH_STATE) ||
    (status == status0 && (left < left0 || (left == left0 && pending < pending0)))
  }

  /** The part of a call that starts with all earlier output delivered. */
  method Proceed(z: Deflater, input: seq<byte>, availOut0: nat, flush: FlushMode)
    returns (ret: Return, consumed: nat, availOut: nat, ghost es: seq<Move>, ghost end: seq<Token>)
    requires z.Valid() && availOut0 > 0 && z.c.w.pending == [] &&
             (z.status == FINISH_STATE ==> flush == FINISH && input == []) && z.lastFlush == Code(flush)
    modifies z`s, z`g, z`status, z`lastFlush, z.c`marks, z.c`log
    modifies z.c.d.window, z.c.d.head, z.c.d.prev, z.c.trees, z.c.trees.Repr(), z.c.w
    ensures z.Valid() && consumed <= |input| && z.g.data == old(z.g.data) + input[..consumed]
    ensures Handed(old(z.c.w.delivered), z.c.w.delivered, availOut0, availOut)
    ensures (consumed == |input| || availOut == 0) && z.lastFlush == if availOut == 0 then -1 else Code(flush)
    ensures availOut > 0 ==> z.s.lookahead < MIN_LOOKAHEAD
    ensures ret == if flush == FINISH && availOut > 0 then Z_STREAM_END else Z_OK
    ensures ret == Z_STREAM_END ==> z.status == FINISH_STATE && z.c.w.pending == [] && consumed == |input|
    ensures ret == Z_OK && availOut > 0 ==> Flushed(z.c.w, z.g.data, flush) && Restartable(z.c, z.g.data, flush)
    ensures MarksKept(z.c, old(z.c.marks), z.g.data, flush)
    ensures Tokenized(z.m, z.c, es, end, old(z.s).(input := input, next := 0), old(z.g), old(History(z.c)),
                      History(z.c))
    ensures z.status == FINISH_STATE && old(z.status) == BUSY_STATE ==> flush == FINISH && consumed == |input|
    ensures ret == Z_OK && flush == FINISH ==>
              (old(z.status) == BUSY_STATE &&
               (z.status == FINISH_STATE || |input| - consumed + z.s.lookahead < |input| + old(z.s.lookahead)))
  {
    hide MethodReady, WholeStream, Handed, Flushed, Code, Restartable, z.c.w.Sent, Ended, Tokenized, LogTokens, z.Valid;
    FinishedLook(z);
    HandedNone(z.c.w.delivered, availOut0);
    consumed, availOut, es, end := 0, availOut0, [], [];
    ValidTrees(z);
    NoSteps(z.m, z.c, z.s.(input := input, next := 0), z.g, History(z.c));
    MoreFlushed(z.c, z.g.data, flush);
    if |input| != 0 || z.s.lookahead != 0 || (flush != NO_FLUSH && z.status != FINISH_STATE) {
      var more;
      more, consumed, availOut, es, end := Work(z, input, availOut0, flush);
      if more {
        MoreFlushed(z.c, z.g.data, flush);
        ret := Z_OK;
        return;
      }
    }
    ret := if flush == FINISH then Z_STREAM_END else Z_OK;
  }

  /** The start of a call: what makes it an error, and delivery of earlier output. */
  method Start(z: Deflater, input: nat, availOut0: nat, flush: FlushMode)
    returns (done: bool, ret: Return, availOut: nat)
    requires z.Valid()
    modifies z`lastFlush, z.c.w
    ensures z.Valid() && Handed(old(z.c.w.delivered), z.c.w.delivered, availOut0, availOut) &&
            z.c.w.Sent() == old(z.c.w.Sent())
    ensures ret == Z_STREAM_ERROR <==> old(z.status) == FINISH_STATE && flush != FINISH
    ensures ret == Z_BUF_ERROR <==>
              ret != Z_STREAM_ERROR &&
              NothingPossible(old(z.status), old(|z.c.w.pending|), old(z.lastFlush), input, availOut0, flush)
    ensures ret == Z_STREAM_ERROR || availOut0 == 0 ==>
              z.lastFlush == old(z.lastFlush) && z.c.w.pending == old(z.c.w.pending)
    ensures ret == Z_BUF_ERROR && availOut0 > 0 ==> z.lastFlush == Code(flush) && z.c.w.pending == []
    ensures ret != Z_STREAM_END && (ret != Z_OK ==> done)
    ensures done && ret == Z_OK ==> availOut == 0 && z.lastFlush == -1 && |z.c.w.pending| < |old(z.c.w.pending)|
    ensures !done ==> availOut0 > 0 && availOut > 0 && z.c.w.pending == [] && z.lastFlush == Code(flush) &&
                      (z.status == FINISH_STATE ==> flush == FINISH && input == 0)
  {
    hide z.Valid, Handed, RankOf, Code, z.c.w.Sent;
    HandedNone(z.c.w.delivered, availOut0);
    availOut := availOut0;
    if z.status == FINISH_STATE && flush != FINISH { return true, Z_STREAM_ERROR, availOut; }
    if availOut == 0 { return true, Z_BUF_ERROR, availOut; }
    var oldFlush := z.lastFlush;
    z.lastFlush := Code(flush);
    if z.c.w.pending != [] {
      availOut := FlushFirst(z, availOut);
      if availOut == 0 {
        z.lastFlush := -1;
        return true, Z_OK, availOut;
      }
    } else if input == 0 && RankOf(Code(flush)) <= RankOf(oldFlush) && flush != FINISH {
      return true, Z_BUF_ERROR, availOut;
    }
    if z.status == FINISH_STATE && input != 0 { return true, Z_BUF_ERROR, availOut; }
    return false, Z_OK, availOut;
  }

  /** deflate() for a raw stream. */
  method Call(z: Deflater, input: seq<byte>, availOut0: nat, flush: FlushMode)
    returns (ret: Return, consumed: nat, availOut: nat, ghost es: seq<Move>, ghost end: seq<Token>)
    requires z.Valid()
    modifies z`s, z`g, z`status, z`lastFlush, z.c`marks, z.c`log
    modifies z.c.d.window, z.c.d.head, z.c.d.prev, z.c.trees, z.c.trees.Repr(), z.c.w
    ensures z.Valid() && consumed <= |input| && z.g.data == old(z.g.data) + input[..consumed]
    ensures Handed(old(z.c.w.delivered), z.c.w.delivered, availOut0, availOut)
    ensures ret == Z_STREAM_ERROR <==> old(z.status) == FINISH_STATE && flush != FINISH
    ensures ret == Z_BUF_ERROR <==>
              ret != Z_STREAM_ERROR &&
              NothingPossible(old(z.status), old(|z.c.w.pending|), old(z.lastFlush), |input|, availOut0, flush)
    ensures ret == Z_STREAM_ERROR || ret == Z_BUF_ERROR ==>
              consumed == 0 && z.s == old(z.s) && z.status == old(z.status) && z.c.w.Sent() == old(z.c.w.Sent())
    ensures ret == Z_STREAM_ERROR || availOut0 == 0 ==>
              z.lastFlush == old(z.lastFlush) && z.c.w.pending == old(z.c.w.pending)
    ensures ret == Z_BUF_ERROR && availOut0 > 0 ==> z.lastFlush == Code(flush) && z.c.w.pending == []
    ensures ret == Z_OK || ret == Z_STREAM_END ==>
              (consumed == |input| || availOut == 0) && z.lastFlush == if availOut == 0 then -1 else Code(flush)
    ensures ret == Z_OK || ret == Z_STREAM_END ==> (ret == Z_STREAM_END <==> flush == FINISH && availOut > 0)
    ensures ret == Z_OK && availOut > 0 ==> z.s.lookahead < MIN_LOOKAHEAD
    ensures ret == Z_STREAM_END ==> z.status == FINISH_STATE && z.c.w.pending == [] && consumed == |input|
    ensures ret == Z_OK && availOut > 0 ==> Flushed(z.c.w, z.g.data, flush) && Restartable(z.c, z.g.data, flush)
    ensures MarksKept(z.c, old(z.c.marks), z.g.data, flush)
    ensures Tokenized(z.m, z.c, es, end, old(z.s).(input := input, next := 0), old(z.g), old(History(z.c)),
                      History(z.c))
    ensures z.status == FINISH_STATE && old(z.status) == BUSY_STATE ==> flush == FINISH && consumed == |input|
    ensures ret == Z_OK && flush == FINISH ==>
              Progress(old(z.status), |input| + old(z.s.lookahead), old(|z.c.w.pending|), z.status,
                       |input| - consumed + z.s.lookahead, |z.c.w.pending|)
  {
    hide MethodReady, WholeStream, Handed, z.Valid, Flushed, NothingPossible, Code, z.c.w.Sent, Restartable, Ended,
         Tokenized, LogTokens;
    consumed, availOut, es, end := 0, availOut0, [], [];
    ValidTrees(z);
    NoSteps(z.m, z.c, z.s.(input := input, next := 0), z.g, History(z.c));
    HandedNone(z.c.w.delivered, availOut);
    ghost var d0 := z.c.w.delivered;
    var done;
    done, ret, availOut := Start(z, |input|, availOut, flush);
    if done { return; }
    ghost var d1, a1 := z.c.w.delivered, availOut;
    ret, consumed, availOut, es, end := Proceed(z, input, availOut, flush);
    HandedTwice(d0, d1, z.c.w.delivered, availOut0, a1, availOut);
  }

  /** At any time the bits sent are those of the blocks in the log: each well chosen for its tokens, or a marker. */
  lemma StreamBlocks(z: Deflater)
    requires z.Valid()
    ensures z.status == FINISH_STATE ==> Logged(z.c.log, z.c.w.Sent(), z.g.data, z.c.fixedStrategy, true)
    ensures z.status == BUSY_STATE ==>
              exists n :: 0 <= n <= |z.g.data| &&
                          Logged(z.c.log, z.c.w.Sent(), z.g.data[..n], z.c.fixedStrategy, false)
  {
    hide MethodReady, Logged, WholeStream, AllWhole, LzOk, OutOk, Text, Marked;
    if z.status == BUSY_STATE {
      MethodIs(z.m, z.c, z.s, z.g);
      var n := z.g.base + z.s.blockStart;
      OutIs(z.c, z.g.data, n, Coded(z.s, z.g));
      assert Logged(z.c.log, z.c.w.Sent(), z.g.data[..n], z.c.fixedStrategy, false);
    }
  }

  lemma MoreFlushed(c: Coder, data: seq<byte>, flush: FlushMode)
    ensures flush == NO_FLUSH || flush == FINISH ==> Flushed(c.w, data, flush) && Restartable(c, data, flush)
  {
    hide Synced, Caught, Restarts;
  }

  lemma FinishedLook(z: Deflater)
    requires z.Valid()
    ensures z.status == FINISH_STATE ==> z.s.lookahead == 0
  {
    hide MethodReady, WholeStream;
  }
}
