/**
  deflate.c: emitting a literal, a match or a block, and entering runs of strings.
*/
module Emit {
  import opened Bits
  import opened Hash
  import opened HashChains
  import opened LongestMatch
  import opened FillWindow
  import opened Format
  import opened Encoding
  import opened BitWriter
  import opened BlockCost
  import opened Blocks
  import opened DeflateText
  import opened Restart
  import opened BlockLog

  /** What deflate works with: window and hash table, token buffer, bit buffer. */
  class Coder {
    const d: Dict
    const trees: Trees
    const w: Writer
    /** Strategies Z_FIXED and Z_FILTERED. */
    const fixedStrategy: bool
    const filtered: bool
    /** Where decoding can start afresh, and the blocks sent. */
    ghost var marks: set<Mark>
    ghost var log: seq<Sent>

    ghost predicate Apart()
    {
      d.head !in trees.Repr() && d.prev !in trees.Repr() && trees.litBufsize >= 3
    }

    constructor (f: Conf, litBufsize: nat, fixedStrategy: bool, filtered: bool)
      requires ValidConf(f) && 3 <= litBufsize <= 32768
      ensures Apart() && d.f == f && d.Shape() && Chains(f.hashBits, WSize(f), d.head[..], d.prev[..], [], 0, {}, 0)
      ensures this.fixedStrategy == fixedStrategy && this.filtered == filtered && trees.litBufsize == litBufsize &&
              marks == {} && log == []
      ensures trees.Valid() && trees.Tokens() == [] && w.Valid() && w.Sent() == [] && w.biValid == 0 &&
              w.pending == [] && w.delivered == []
      ensures fresh(d) && fresh(d.window) && fresh(d.head) && fresh(d.prev) && fresh(trees) && fresh(trees.Repr()) &&
              fresh(w)
    {
      hide Chains, Pow2, LitFreqs, DistFreqs;
      d := new Dict(f);
      var t := new Trees(litBufsize);
      trees := t;
      w := new Writer();
      this.fixedStrategy, this.filtered, marks, log := fixedStrategy, filtered, {}, [];
    }
  }

  /** No copy reaches further back than `reach`. */
  ghost predicate Within(ts: seq<Token>, reach: int)
  {
    forall i :: 0 <= i < |ts| && ts[i].Copy? ==> ts[i].dist <= reach
  }

  /** All tokens so far: those of the blocks sent and those in the buffer. */
  ghost function History(c: Coder): (ts: seq<Token>)
    requires c.trees.Buffered()
    reads c, c.trees`dist, c.trees`lc
  {
    LogTokens(c.log) + c.trees.Tokens()
  }

  /** The bits sent and the tokens buffered stand for the input up to `pos`, from the start and from every mark; the
      bits are those of the blocks in the log; no match reaches beyond MAX_DIST. */
  ghost predicate OutOk(c: Coder, data: seq<byte>, block: int, pos: nat)
    reads c, c.trees`dist, c.trees`lc, c.trees`optLen, c.trees`staticLen, c.trees.lfc, c.trees.dfc, c.trees.bfc, c.w
  {
    c.trees.Valid() && c.w.Valid() && Text(c.w.Sent(), c.trees.Tokens(), data, block, pos) &&
    Marked(c.marks, c.w.Sent(), c.trees.Tokens(), data, block, pos) &&
    Logged(c.log, c.w.Sent(), data[..block], c.fixedStrategy, false) && Within(c.trees.Tokens(), MaxDist(c.d.f))
  }

  lemma OutIs(c: Coder, data: seq<byte>, block: int, pos: nat)
    requires OutOk(c, data, block, pos)
    ensures c.trees.Valid() && c.trees.Buffered() && c.w.Valid() &&
            Text(c.w.Sent(), c.trees.Tokens(), data, block, pos) && 0 <= block <= pos <= |data|
    ensures Within(c.trees.Tokens(), MaxDist(c.d.f))
    ensures Marked(c.marks, c.w.Sent(), c.trees.Tokens(), data, block, pos) &&
            Logged(c.log, c.w.Sent(), data[..block], c.fixedStrategy, false)
  {
    hide Text, Marked, Logged;
    TextRange(c.w.Sent(), c.trees.Tokens(), data, block, pos);
  }

  lemma OutMore(c: Coder, data: seq<byte>, more: seq<byte>, block: int, pos: nat)
    requires OutOk(c, data, block, pos)
    ensures OutOk(c, data + more, block, pos)
  {
    hide Text, Marked, Logged;
    TextRange(c.w.Sent(), c.trees.Tokens(), data, block, pos);
    TextMore(c.w.Sent(), c.trees.Tokens(), data, more, block, pos);
    FromMore(c.marks, c.w.Sent(), c.trees.Tokens(), data, more, block, pos);
    assert (data + more)[..block] == data[..block];
  }

  ghost predicate Space(c: Coder)
    reads c.trees`dist, c.trees`lc
  {
    |c.trees.dist| + 1 < c.trees.litBufsize
  }

  /** The number of blocks that have been sent after one more token: the block is closed when the buffer is full. */
  ghost function After(blocks: nat, tokens: nat, litBufsize: nat): (n: nat)
  {
    blocks + if tokens + 2 < litBufsize then 0 else 1
  }

  /** Emits the literal at `pos`. */
  method EmitLiteral(c: Coder, b: byte, ghost data: seq<byte>, ghost block: int, ghost pos: nat) returns (flush: bool)
    requires OutOk(c, data, block, pos) && Space(c) && pos < |data| && b == data[pos]
    modifies c.trees`dist, c.trees`lc, c.trees.lfc
    ensures OutOk(c, data, block, pos + 1) && (flush <==> !Space(c)) && |c.trees.dist| == old(|c.trees.dist|) + 1
    ensures c.trees.Tokens() == old(c.trees.Tokens()) + [Literal(data[pos])]
  {
    hide Text, LitFreqs, DistFreqs, c.trees.Shape, AllSendable, Marked, Logged;
    OutIs(c, data, block, pos);
    TextLiteral(c.w.Sent(), c.trees.Tokens(), data, block, pos);
    FromLiteral(c.marks, c.w.Sent(), c.trees.Tokens(), data, block, pos);
    flush := c.trees.TallyLit(b);
  }

  /** Emits a match of `len` bytes at `pos` that also stand `dist` bytes before. */
  method EmitMatch(c: Coder, dist: nat, len: nat, ghost data: seq<byte>, ghost block: int, ghost pos: nat)
    returns (flush: bool)
    requires OutOk(c, data, block, pos) && Space(c) && 3 <= len <= 258 && 1 <= dist <= 32768 &&
             dist <= MaxDist(c.d.f) && dist <= pos && RealMatch(data, pos, pos - dist, len) &&
             Behind(c.marks, pos - dist)
    modifies c.trees`dist, c.trees`lc, c.trees.lfc, c.trees.dfc
    ensures OutOk(c, data, block, pos + len) && (flush <==> !Space(c)) && |c.trees.dist| == old(|c.trees.dist|) + 1
    ensures c.trees.Tokens() == old(c.trees.Tokens()) + [Copy(len, dist)]
  {
    hide Text, LitFreqs, DistFreqs, c.trees.Shape, AllSendable, Marked, Logged, RealMatch, Behind;
    OutIs(c, data, block, pos);
    TextMatch(c.w.Sent(), c.trees.Tokens(), data, block, pos, len, pos - dist);
    FromMatch(c.marks, c.w.Sent(), c.trees.Tokens(), data, block, pos, len, pos - dist);
    flush := c.trees.TallyDist(dist, len - 3);
  }

  /** What is known once a block has been closed at `pos`. */
  ghost predicate Closed(c: Coder, data: seq<byte>, pos: nat, last: bool)
    reads c, c.trees`dist, c.trees`lc, c.trees`optLen, c.trees`staticLen, c.trees.lfc, c.trees.dfc, c.trees.bfc, c.w
  {
    pos <= |data| && c.trees.Valid() && c.w.Valid() && c.trees.dist == [] &&
    Logged(c.log, c.w.Sent(), data[..pos], c.fixedStrategy, last) &&
    if last then WholeStream(c.w.Sent(), data[..pos]) && AllWhole(c.marks, c.w.Sent(), data[..pos])
    else
      Text(c.w.Sent(), c.trees.Tokens(), data, pos, pos) &&
      Marked(c.marks, c.w.Sent(), c.trees.Tokens(), data, pos, pos)
  }

  lemma ClosedOut(c: Coder, data: seq<byte>, pos: nat)
    requires Closed(c, data, pos, false)
    ensures OutOk(c, data, pos, pos) && c.trees.dist == []
  {
    hide Text, Marked, Logged;
  }

  lemma ClosedIs(c: Coder, data: seq<byte>, pos: nat, last: bool)
    requires Closed(c, data, pos, last)
    ensures c.trees.Valid() && c.w.Valid() && c.trees.dist == [] && pos <= |data|
  {
    hide Text, WholeStream, Marked, Logged, AllWhole;
  }

  lemma ValidBuffered(c: Coder)
    requires c.trees.Valid()
    ensures c.trees.Buffered()
  {
    hide LitFreqs, DistFreqs;
  }

  lemma EmptyTokens(c: Coder)
    requires c.trees.Valid() && c.trees.dist == []
    ensures c.trees.Tokens() == []
  {
    hide LitFreqs, DistFreqs;
  }

  /** Closes the block; `buf` is its text unless that has left the window. */
  method SendBlock(c: Coder, buf: Option<seq<byte>>, storedLen: nat, last: bool, ghost data: seq<byte>,
                   ghost block: nat, ghost pos: nat)
    requires OutOk(c, data, block, pos) && block <= pos <= |data| && storedLen == pos - block
    requires buf.Some? ==> data[..block] + buf.value == data[..pos] && |buf.value| == storedLen <= 65535
    modifies c.trees, c.trees.Repr(), c.w`pending, c.w`biBuf, c.w`biValid, c`log
    ensures Closed(c, data, pos, last) && Added(c.log, old(c.log), old(c.trees.Tokens()), buf, last)
  {
    hide Text, LitFreqs, DistFreqs, c.trees.Shape, AllSendable, ValidTokens, Expand, BlockBits, ValidBlock, BlockOut,
         Chosen, OwnCodes, Wound, Decodes, WholeStream, Leads, c.w.Sent, Marked, Logged, AllWhole, Entry, LogTokens;
    OutIs(c, data, block, pos);
    TextParts(c.w.Sent(), c.trees.Tokens(), data, block, pos);
    ghost var sent, ts, out := c.w.Sent(), c.trees.Tokens(), data[..block];
    ghost var b, dyn := c.trees.FlushBlock(c.w, buf, storedLen, last, c.fixedStrategy, out);
    BlockLeads(sent, out, b, last, ts);
    BlockDone(sent + BlockBits(b, last, |sent|, out), data, pos, last);
    ChosenCarries(b, dyn, ts, buf, c.fixedStrategy, last, |sent|, out);
    FromBlock(c.marks, sent, ts, data, block, pos, b, last);
    ghost var e := Sent(b, last, sent, out, Some(Choice(dyn, ts, buf)));
    EntryIs(e, dyn, ts, buf, c.fixedStrategy);
    LogNext(c.log, e, c.w.Sent(), data[..pos], c.fixedStrategy);
    c.log := c.log + [e];
    assert |c.trees.dist| == |c.trees.Tokens()|;
  }

  /** The application got the bytes of `b` after those of `a`, and its space shrank from `x` to `y` by their number. */
  predicate Handed(a: seq<byte>, b: seq<byte>, x: nat, y: nat) { a <= b && |b| - |a| == x - y }

  lemma HandedTwice(a: seq<byte>, b: seq<byte>, c: seq<byte>, x: nat, y: nat, z: nat)
    requires Handed(a, b, x, y) && Handed(b, c, y, z)
    ensures Handed(a, c, x, z)
  {
  }

  lemma HandedNone(a: seq<byte>, x: nat)
    ensures Handed(a, a, x, x)
  {
  }

  /** flush_pending: delivers what the output has room for. */
  method Deliver(c: Coder, availOut: nat, ghost data: seq<byte>, ghost pos: nat, ghost last: bool) returns (rest: nat)
    requires Closed(c, data, pos, last)
    modifies c.w
    ensures Closed(c, data, pos, last) && rest <= availOut && (rest > 0 ==> c.w.pending == []) && c.w.biValid <= 7 &&
            Handed(old(c.w.delivered), c.w.delivered, availOut, rest)
  {
    hide Text, WholeStream, c.w.Sent, Marked, Logged, AllWhole;
    rest := c.w.FlushPending(availOut);
  }

  /** FLUSH_BLOCK_ONLY: closes the block that ends at `strstart`. */
  method FlushOnly(c: Coder, blockStart: int, strstart: nat, last: bool, availOut: nat, ghost data: seq<byte>,
                   ghost base: nat, ghost end: nat)
    returns (rest: nat)
    requires OutOk(c, data, base + blockStart, base + strstart) && WindowHas(c.d.window[..], data, base, end) &&
             strstart <= end && (blockStart < 0 || strstart - blockStart <= 65535)
    modifies c.trees, c.trees.Repr(), c.w, c`log
    ensures Added(c.log, old(c.log), old(c.trees.Tokens()),
                  if blockStart >= 0 then Some(old(c.d.window[blockStart..strstart])) else None, last)
    ensures Closed(c, data, base + strstart, last) && rest <= availOut && (rest > 0 ==> c.w.pending == []) &&
            c.w.biValid <= 7 && Handed(old(c.w.delivered), c.w.delivered, availOut, rest)
  {
    hide Text, WholeStream, WindowHas, OutOk, Closed, Handed, Marked, Logged, Added;
    OutIs(c, data, base + blockStart, base + strstart);
    var buf: Option<seq<byte>> := None;
    if blockStart >= 0 {
      BlockBytes(c.d.window[..], data, base, end, blockStart, strstart);
      assert c.d.window[blockStart..strstart] == c.d.window[..][blockStart..strstart];
      buf := Some(c.d.window[blockStart..strstart]);
    }
    SendBlock(c, buf, strstart - blockStart, last, data, base + blockStart, base + strstart);
    rest := Deliver(c, availOut, data, base + strstart, last);
  }

  lemma TextParts(sent: seq<bool>, tokens: seq<Token>, data: seq<byte>, block: int, pos: nat)
    requires Text(sent, tokens, data, block, pos)
    ensures 0 <= block <= pos <= |data| && Decodes(sent, data[..block]) && ValidTokens(data[..block], tokens) &&
            Expand(data[..block], tokens) == data[..pos]
  {
    hide Decodes, ValidTokens, Expand;
  }

  lemma BlockBytes(window: seq<byte>, data: seq<byte>, base: nat, end: nat, blockStart: nat, strstart: nat)
    requires WindowHas(window, data, base, end) && blockStart <= strstart <= end
    ensures strstart <= |window| && data[..base + blockStart] + window[blockStart..strstart] == data[..base + strstart]
  {
    SliceAt(window, data, base, end, blockStart, strstart - blockStart);
    assert window[blockStart..blockStart + (strstart - blockStart)] == window[blockStart..strstart];
    assert data[..base + strstart] == data[..base + blockStart] + data[base + blockStart..base + strstart];
  }

  // ------------------------------------------------------------------ entering strings

  /** The string at window index `str` is the next to be entered, and the hash has taken in its first two bytes. */
  ghost predicate AtString(d: Dict, data: seq<byte>, base: nat, ins: set<nat>, str: nat, insH: nat)
    reads d.head, d.prev
  {
    d.Shape() && base + str + 1 < |data| && Primed(d.f.hashBits, insH, data[base + str], data[base + str + 1]) &&
    Chains(d.f.hashBits, WSize(d.f), d.head[..], d.prev[..], data, base, ins, base + str)
  }

  /** Enters the string at `str`. */
  method EnterString(d: Dict, str: nat, insH: nat, ghost data: seq<byte>, ghost base: nat, ghost ins: set<nat>,
                     ghost end: nat)
    returns (h: nat, hashHead: nat, ghost all: set<nat>)
    requires AtString(d, data, base, ins, str, insH) && str + 2 < end && WindowHas(d.window[..], data, base, end)
    modifies d.head, d.prev
    ensures base + str + 2 < |data| && all == WithString(ins, base, base + str) &&
            AtString(d, data, base, all, str + 1, h)
    ensures h == HashAt(d.f.hashBits, data, base + str) && HeadOk(d.f.hashBits, data, base, ins, h, hashHead)
  {
    hide Chains, Primed, WindowHas, Pow2, HashAt, HeadOk;
    WindowSize(d.window[..], data, base, end);
    ByteAt(d.window[..], data, base, end, str + 2);
    all := WithString(ins, base, base + str);
    h, hashHead := InsertString(d.f, d.head, d.prev, str, insH, d.window[str + 2], data, base, ins);
  }

  lemma AtStringIs(d: Dict, data: seq<byte>, base: nat, ins: set<nat>, str: nat, insH: nat)
    requires AtString(d, data, base, ins, str, insH)
    ensures d.Shape() && base + str + 1 < |data| && Primed(d.f.hashBits, insH, data[base + str], data[base + str + 1])
    ensures Chains(d.f.hashBits, WSize(d.f), d.head[..], d.prev[..], data, base, ins, base + str)
  {
    hide Chains, Primed;
  }

  lemma LzString(d: Dict, s: Lz, g: Past)
    requires LzOk(d, s, g) && s.lookahead >= MIN_MATCH && d.f.useHash
    ensures s.insert == 0 && AtString(d, g.data, g.base, g.ins, s.strstart, s.insH)
  {
    hide Chains, Primed, WindowHas;
    ChainsBound(d.f.hashBits, WSize(d.f), d.head[..], d.prev[..], g.data, g.base, g.ins, g.top, g.base + s.strstart);
  }

  /** Back to the loop invariant, with every string before `t.strstart` accounted for. */
  lemma LzFrom(d: Dict, t: Lz, g: Past, ins: set<nat>)
    requires AtString(d, g.data, g.base, ins, t.strstart, t.insH) && t.insert == 0 && t.next <= |t.input| &&
             t.lookahead >= 2
    requires |g.data| == g.base + t.strstart + t.lookahead &&
             WindowHas(d.window[..], g.data, g.base, t.strstart + t.lookahead)
    ensures LzOk(d, t, g.(ins := ins, top := g.base + t.strstart))
  {
    hide Chains, Primed, WindowHas;
  }

  /** Moving on without entering strings, when there is too little lookahead to enter any. */
  lemma LzSkip(d: Dict, s: Lz, g: Past, t: Lz, n: nat)
    requires LzOk(d, s, g) && n <= s.lookahead && t.strstart == s.strstart + n && t.lookahead == s.lookahead - n &&
             t.insert == s.insert && t.next <= |t.input|
    requires !d.f.useHash || s.lookahead < MIN_MATCH || t.lookahead < MIN_MATCH ||
             Primed(d.f.hashBits, t.insH, g.data[g.base + t.strstart], g.data[g.base + t.strstart + 1])
    ensures LzOk(d, t, g)
  {
    hide Chains, Primed, WindowHas;
  }

  /** Where a chain leads: a candidate for the current string. */
  lemma HeadCandidate(f: Conf, data: seq<byte>, base: nat, ins: set<nat>, str: nat, h: nat, hashHead: nat)
    requires base + str + 2 < |data| && h == HashAt(f.hashBits, data, base + str) &&
             HeadOk(f.hashBits, data, base, ins, h, hashHead)
    requires Entered(data, base, ins, base + str) && hashHead != 0 && str - hashHead <= MaxDist(f)
    ensures Candidate(f, data, base, WithString(ins, base, base + str), str, hashHead)
  {
    hide HashAt;
  }

  /** The head of a chain is the newest candidate. */
  lemma HeadSkips(n: nat, data: seq<byte>, base: nat, ins: set<nat>, p: nat, h: nat, hashHead: nat)
    requires p + 2 < |data| && h == HashAt(n, data, p) && HeadOk(n, data, base, ins, h, hashHead)
    ensures Skips(n, data, WithString(ins, base, p), base + hashHead, p, h)
  {
    hide HashAt;
  }

  /** Whether the current string has been entered does not matter to what is near. */
  lemma SameNear(f: Conf, data: seq<byte>, base: nat, ins: set<nat>, strstart: nat, len: nat, n: int)
    requires base + strstart + 2 < |data| &&
             NoLonger(f, data, base, WithString(ins, base, base + strstart), strstart, len, n)
    ensures NoLonger(f, data, base, ins, strstart, len, n)
  {
    hide HashAt, RealMatch, Limit;
    var all, p := WithString(ins, base, base + strstart), base + strstart;
    assert Alike(f.hashBits, data, all, p) == Alike(f.hashBits, data, ins, p);
    forall q: nat | Near(f, data, base, ins, strstart, q, n) ensures !RealMatch(data, p, base + q, len + 1) {
      assert Newer(f.hashBits, data, all, p, base + q, p) == Newer(f.hashBits, data, ins, p, base + q, p);
      assert Near(f, data, base, all, strstart, q, n);
    }
  }

  /** Without a head in reach nothing is near. */
  lemma NothingNear(f: Conf, data: seq<byte>, base: nat, ins: set<nat>, strstart: nat, hashHead: nat, len: nat, n: int)
    requires base + strstart + 2 < |data| &&
             HeadOk(f.hashBits, data, base, ins, HashAt(f.hashBits, data, base + strstart), hashHead)
    requires hashHead == 0 || strstart - hashHead > MaxDist(f)
    ensures NoLonger(f, data, base, ins, strstart, len, n)
  {
    hide HashAt, RealMatch, Near, HeadOk, MaxDist;
    forall q: nat ensures !Near(f, data, base, ins, strstart, q, n) {
      NotNear(f, data, base, ins, strstart, hashHead, q, n);
    }
  }

  lemma NotNear(f: Conf, data: seq<byte>, base: nat, ins: set<nat>, strstart: nat, hashHead: nat, q: nat, n: int)
    requires base + strstart + 2 < |data| &&
             HeadOk(f.hashBits, data, base, ins, HashAt(f.hashBits, data, base + strstart), hashHead)
    requires hashHead == 0 || strstart - hashHead > MaxDist(f)
    ensures !Near(f, data, base, ins, strstart, q, n)
  {
    hide HashAt, Newer;
  }

  lemma ChainsEntered(n: nat, w: nat, head: seq<nat>, prev: seq<nat>, data: seq<byte>, base: nat, ins: set<nat>,
                      bound: nat)
    requires Chains(n, w, head, prev, data, base, ins, bound)
    ensures Entered(data, base, ins, bound)
  {
  }

  /** Enters the current string and, when its chain is in reach, searches it. */
  method EnterAndSearch(d: Dict, s: Lz, ghost g: Past, search: bool)
    returns (h: nat, found: bool, len: nat, matchStart: int, ghost all: set<nat>)
    requires LzOk(d, s, g) && d.f.useHash && s.lookahead >= MIN_MATCH &&
             s.strstart + MIN_LOOKAHEAD <= d.window.Length && 1 <= s.prevLength && (search ==> s.prevLength < MAX_MATCH)
    modifies d.head, d.prev
    ensures AtString(d, g.data, g.base, all, s.strstart + 1, h) &&
            all == WithString(g.ins, g.base, g.base + s.strstart)
    ensures !found ==> matchStart == s.matchStart
    ensures search ==> Searched(d.f, s, g, found, len)
    ensures found ==> search && len <= s.lookahead && len <= MAX_MATCH && (len >= s.prevLength || len == s.lookahead)
    ensures found && len > s.prevLength ==>
              0 <= matchStart && s.strstart - matchStart <= MaxDist(d.f) &&
              RealMatch(g.data, g.base + s.strstart, g.base + matchStart, len)
  {
    hide Chains, Primed, WindowHas, Pow2, HashAt, HeadOk, Candidate, RealMatch, AtString, Entered, LzOk, d.Shape, Skips,
         NoLonger, WithString, ChainLength;
    LzIs(d, s, g);
    LzString(d, s, g);
    AtStringIs(d, g.data, g.base, g.ins, s.strstart, s.insH);
    ChainsEntered(d.f.hashBits, WSize(d.f), d.head[..], d.prev[..], g.data, g.base, g.ins, g.base + s.strstart);
    var hashHead;
    h, hashHead, all := EnterString(d, s.strstart, s.insH, g.data, g.base, g.ins, s.strstart + s.lookahead);
    found, len, matchStart := false, 0, s.matchStart;
    LookaheadIs(g.data, g.base, s.strstart, s.lookahead);
    if search && hashHead != 0 && s.strstart - hashHead <= MaxDist(d.f) {
      HeadCandidate(d.f, g.data, g.base, g.ins, s.strstart, h, hashHead);
      HeadSkips(d.f.hashBits, g.data, g.base, g.ins, g.base + s.strstart, h, hashHead);
      AtStringIs(d, g.data, g.base, all, s.strstart + 1, h);
      ShapeConf(d);
      found := true;
      len, matchStart := LongestMatch.LongestMatch(d.f, d.window, d.prev, s.strstart, s.lookahead, s.prevLength,
                                                   hashHead, s.matchStart, d.head[..], g.data, g.base, all);
      if len < d.f.nice && len != s.lookahead {
        SameNear(d.f, g.data, g.base, g.ins, s.strstart, len, ChainLength(d.f, s.prevLength));
      }
    } else if search {
      NothingNear(d.f, g.data, g.base, g.ins, s.strstart, hashHead, 2, ChainLength(d.f, s.prevLength));
    }
  }

  /** What a search tells: unless the match found is nice enough or takes up the lookahead, no string near enough
      matches longer; without one none matches in three bytes. */
  ghost predicate Searched(f: Conf, s: Lz, g: Past, found: bool, len: nat)
  {
    (found && (len >= f.nice || len == s.lookahead)) ||
    NoLonger(f, g.data, g.base, g.ins, s.strstart, if found then len else 2, ChainLength(f, s.prevLength))
  }

  lemma LookaheadIs(data: seq<byte>, base: nat, strstart: nat, lookahead: nat)
    requires |data| == base + strstart + lookahead && lookahead >= MIN_MATCH
    ensures base + strstart + 2 < |data|
  {
  }

  lemma ShapeConf(d: Dict)
    requires d.Shape()
    ensures ValidConf(d.f) && d.window.Length == 2 * WSize(d.f)
  {
  }
}
