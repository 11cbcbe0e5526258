/**
  inflate.c: the cases of the mode switch that write output: LIT, MATCH and COPY.
*/
module InflateOutput {
  import opened Bits
  import opened Format
  import opened Accumulator
  import opened InflateSteps
  import opened InflateState
  import opened InflateModes
  import opened InflateData
  import opened Window
  import opened CopyBytes

  lemma BaseIs(z: Inflater, s: State, g: Trace)
    requires Base(z, s, g)
    ensures z.Shape() && z.window != s.out && WindowIs(z, s, g) && s.put <= s.out.Length &&
            g.cfg.out == g.base + s.out[..s.put]
  {
    hide WindowIs;
  }

  lemma BaseFrom(z: Inflater, s: State, g: Trace)
    requires z.Shape() && z.window != s.out && WindowIs(z, s, g) && s.put <= s.out.Length &&
             g.cfg.out == g.base + s.out[..s.put]
    ensures Base(z, s, g)
  {
    hide WindowIs, TableAt;
  }

  lemma SameWindow(z: Inflater, s: State, g: Trace, t: State, h: Trace)
    requires WindowIs(z, s, g) && t.win == s.win && h.base == g.base
    ensures WindowIs(z, t, h)
  {
  }

  /** Case LIT. */
  method LitCase(z: Inflater, s: State, ghost g: Trace, flush: Flush) returns (leave: bool, t: State, ghost h: Trace)
    requires Inv(z, s, g) && s.mode == LIT
    modifies s.out
    ensures Inv(z, t, h) && SameCall(t, s, h, g)
    ensures leave ==> Idle(t, h, flush)
    ensures !leave ==> Ahead(t, s)
  {
    hide Reaches, BytesToBits, Valid, Step, START, ModeOk, PosOk, Here, Inv, Reading, Stream, Align, TableAt, Base,
         IsStuck, WindowIs, Tables, z.Shape;
    Open(z, s, g);
    OpenData(z, s, g);
    BaseIs(z, s, g);
    DataModes(s, g.cfg.mode);
    if s.put == s.out.Length { return true, s, g; }
    LitOut(Stream(s.io, g.fed0), g.cfg);
    h := g.(cfg := g.cfg.(mode := Len(g.cfg.mode.k), out := g.cfg.out + [g.cfg.mode.b]));
    Took(s.io, g.fed0, g.cfg, h.cfg);
    LitLean(s.io, g.fed0, g.cfg, h.cfg);
    ghost var was := s.out[..s.put];
    s.out[s.put] := s.length;
    assert s.out[..s.put + 1] == was + [s.length];
    SeqAssoc(g.base, was, [s.length]);
    t := s.(put := s.put + 1, mode := LEN);
    SameWindow(z, s, g, t, h);
    BaseFrom(z, t, h);
    KeepTables(s.len, s.dist, g, h, h.cfg.mode.k);
    DataModes(t, h.cfg.mode);
    CloseData(z, t, h, t, h);
    return false, t, h;
  }

  /** Between steps that read nothing the accumulator stays short. */
  lemma LitLean(io: Io, fed0: seq<byte>, c: Config, d: Config)
    requires io.next <= |io.input| && Lean(io, fed0, c) && Valid(Stream(io, fed0), c) &&
             Step(Stream(io, fed0), c) == Go(d) && d.pos == c.pos && AtBit(io, fed0, c)
    ensures io.bits < 8 && AtBit(io, fed0, d) && Lean(io, fed0, d)
  {
    hide Stream, Valid, Step;
  }

  // ------------------------------------------------------------------ MATCH

  lemma WindowReach(w: seq<byte>, n: Win, h: seq<byte>, d: nat)
    requires WindowOk(w, n, h) && 1 <= d <= WSIZE
    ensures d > n.whave <==> d > |h|
    ensures d <= n.whave ==> n.wsize == WSIZE == |w| && Holds(w, n.whave, n.wnext, h)
  {
  }

  /** The bytes a single copy step of MATCH may take, given the space left: where from and how many. */
  function ChunkLength(s: State): (n: nat)
    requires s.put <= s.out.Length
  {
    var left := s.out.Length - s.put;
    var avail := if s.offset > s.put then RunLength(s.win.wnext, s.offset - s.put) else s.length;
    var want := if avail > s.length then s.length else avail;
    if want > left then left else want
  }

  /** One copy of MATCH: from the window, or from the output with overlap. */
  method CopyChunk(z: Inflater, s: State, ghost g: Trace) returns (n: nat)
    requires z.window != s.out && WindowIs(z, s, g) && s.put < s.out.Length && 1 <= s.length && 1 <= s.offset <= WSIZE
    requires s.offset <= |g.base| + s.put
    modifies s.out
    ensures n == ChunkLength(s) && 1 <= n <= s.length && s.put + n <= s.out.Length
    ensures g.base + s.out[..s.put + n] == CopyFrom(g.base + old(s.out[..s.put]), n, s.offset)
  {
    hide CopyFrom, Holds, TableAt;
    n := ChunkLength(s);
    if s.offset > s.put {
      var d := s.offset - s.put;
      WindowReach(z.window[..], s.win, g.base, d);
      WindowRun(z.window[..], s.win.whave, s.win.wnext, g.base, d);
      var from := if d > s.win.wnext then s.win.wsize - (d - s.win.wnext) else s.win.wnext - d;
      CopyWindow(s.out, s.put, z.window, from, n, d, s.win.whave, s.win.wnext, g.base);
    } else {
      CopyBack(s.out, s.put, s.offset, n, g.base);
    }
  }

  lemma MatchSizes(s: seq<bool>, c: Config)
    requires Valid(s, c) && c.mode.Match?
    ensures 1 <= c.mode.length <= 258 && 1 <= c.mode.dist <= WSIZE
  {
  }

  lemma MatchTook(io: Io, fed0: seq<byte>, c: Config, n: nat)
    requires Reading(io, fed0, c) && io.next <= |io.input| && AtBit(io, fed0, c) && Lean(io, fed0, c)
    requires c.mode.Match? && c.mode.dist <= |c.out| && 1 <= n <= c.mode.length && 1 <= c.mode.dist
    ensures Reading(io, fed0, Matched(c, n)) && io.bits < 8
  {
    hide BytesToBits, Reaches, Valid, Step, Acc, CopyFrom;
    ReadingRange(io, fed0, c);
    MatchPart(Stream(io, fed0), c, n);
    ReachTrans(Stream(io, fed0), START, c, Matched(c, n));
    MatchNotStuck(Stream(io, fed0), c);
  }

  lemma MatchNotStuck(s: seq<bool>, c: Config)
    requires Valid(s, c) && c.mode.Match?
    ensures Step(s, c) != Stuck
  {
    hide ValidCodes;
  }

  /** Case MATCH. */
  method MatchCase(z: Inflater, s: State, ghost g: Trace, flush: Flush) returns (leave: bool, t: State, ghost h: Trace)
    requires Inv(z, s, g) && s.mode == MATCH
    modifies s.out
    ensures Inv(z, t, h) && SameCall(t, s, h, g)
    ensures leave ==> Idle(t, h, flush)
    ensures !leave ==> Ahead(t, s)
  {
    hide Reaches, BytesToBits, Valid, Step, START, ModeOk, PosOk, Here, Inv, Reading, Stream, Align, TableAt, Base,
         IsStuck, WindowIs, Tables, z.Shape, CopyFrom;
    Open(z, s, g);
    OpenData(z, s, g);
    BaseIs(z, s, g);
    DataModes(s, g.cfg.mode);
    if s.put == s.out.Length { return true, s, g; }
    MatchSizes(Stream(s.io, g.fed0), g.cfg);
    TooFarIff(z, s, g);
    if s.offset > s.put && s.offset - s.put > s.win.whave {
      t, h := s.(mode := BAD), g.(cfg := Config(g.cfg.last, Bad, 0, g.cfg.out));
      CloseTooFar(z, s, g, t, h);
      return false, t, h;
    }
    var n := CopyChunk(z, s, g);
    t := s.(put := s.put + n, length := s.length - n, mode := if s.length == n then LEN else MATCH);
    h := g.(cfg := Matched(g.cfg, n));
    CloseMatch(z, s, g, t, h, n);
    return false, t, h;
  }

  lemma CloseTooFar(z: Inflater, s: State, g: Trace, t: State, h: Trace)
    requires Inv(z, s, g) && s.mode == MATCH && g.cfg.mode.Match? && g.cfg.mode.dist > |g.cfg.out|
    requires t == s.(mode := BAD) && h == g.(cfg := Config(g.cfg.last, Bad, 0, g.cfg.out))
    ensures Inv(z, t, h) && SameCall(t, s, h, g)
  {
    hide Valid, Step, ModeOk, PosOk, Inv, Reading, Stream, Base, Here;
    Open(z, s, g);
    TooFar(Stream(s.io, g.fed0), g.cfg);
    Took(s.io, g.fed0, g.cfg, h.cfg);
    EndModes(t, h.cfg.mode);
    CloseHeader(z, s, g, t, h);
  }

  /** Closes MATCH after `n` bytes were copied. */
  lemma CloseMatch(z: Inflater, s: State, g: Trace, t: State, h: Trace, n: nat)
    requires g.cfg.mode.Match? && g.cfg.mode.length == s.length && g.cfg.mode.dist == s.offset &&
             s.io.next <= |s.io.input|
    requires 1 <= n <= s.length && 1 <= s.offset <= |g.cfg.out| && s.put + n <= s.out.Length
    requires t == s.(put := s.put + n, length := s.length - n, mode := if s.length == n then LEN else MATCH) &&
             h == g.(cfg := Matched(g.cfg, n))
    requires g.base + s.out[..s.put + n] == CopyFrom(g.cfg.out, n, s.offset)
    requires AtBit(s.io, g.fed0, g.cfg) && Lean(s.io, g.fed0, g.cfg) && s.last == g.cfg.last
    requires Reading(s.io, g.fed0, g.cfg) && Tables(s.len, s.dist, g, g.cfg.mode.k) && z.window != s.out &&
             WindowIs(z, s, g) && z.Shape()
    ensures Inv(z, t, h)
  {
    hide Reaches, BytesToBits, Valid, Step, START, ModeOk, PosOk, Here, Inv, Reading, Stream, Align, TableAt, Base,
         IsStuck, WindowIs, Tables, z.Shape, CopyFrom;
    MatchTook(s.io, g.fed0, g.cfg, n);
    SameWindow(z, s, g, t, h);
    BaseFrom(z, t, h);
    KeepTables(s.len, s.dist, g, h, h.cfg.mode.k);
    DataModes(t, h.cfg.mode);
    CloseData(z, t, h, t, h);
  }

  /** The test against whave is the test against the whole history. */
  lemma TooFarIff(z: Inflater, s: State, g: Trace)
    requires WindowIs(z, s, g) && 1 <= s.offset <= WSIZE
    ensures s.offset > s.put && s.offset - s.put > s.win.whave <==> s.offset > |g.base| + s.put
  {
    hide Holds;
    if s.offset > s.put { WindowReach(z.window[..], s.win, g.base, s.offset - s.put); }
  }

  // ------------------------------------------------------------------ COPY

  /** Copies stored bytes from the input to the output. */
  method CopyInput(out: array<byte>, put: nat, input: seq<byte>, next: nat, n: nat)
    requires put + n <= out.Length && next + n <= |input|
    modifies out
    ensures out[..put + n] == old(out[..put]) + input[next..next + n]
  {
    var k := 0;
    while k < n
      invariant 0 <= k <= n && out[..put + k] == old(out[..put]) + input[next..next + k]
    {
      ghost var was := out[..put + k];
      out[put + k] := input[next + k];
      assert out[..put + (k + 1)] == was + [input[next + k]];
      assert input[next..next + (k + 1)] == input[next..next + k] + [input[next + k]];
      k := k + 1;
    }
  }

  ghost function AfterCopy(c: Config, x: seq<byte>): (d: Config)
    requires c.mode.StoredBytes? && |x| <= c.mode.left
  {
    c.(mode := StoredBytes(c.mode.left - |x|), pos := c.pos + 8 * |x|, out := c.out + x)
  }

  /** Taking `n` whole bytes from the input past an empty accumulator. */
  lemma CopyTook(io: Io, fed0: seq<byte>, c: Config, n: nat)
    requires Reading(io, fed0, c) && AtBit(io, fed0, c) && io.bits == 0 && io.next + n <= |io.input| &&
             c.mode.StoredBytes? && n <= c.mode.left
    ensures var t := io.(next := io.next + n);
            Reading(t, fed0, AfterCopy(c, io.input[io.next..io.next + n])) &&
            |Stream(t, fed0)| == |Stream(io, fed0)| + 8 * n
  {
    hide Reaches, Valid, Step, BytesToBits, Acc;
    var t, x := io.(next := io.next + n), io.input[io.next..io.next + n];
    var a := fed0 + io.input[..io.next];
    BytesToBitsAppend(a, x);
    assert io.input[..io.next + n] == io.input[..io.next] + x;
    SeqAssoc(fed0, io.input[..io.next], x);
    var s, u := Stream(io, fed0), Stream(t, fed0);
    assert u == s + BytesToBits(x);
    ReachStable(s, BytesToBits(x), START, c);
    ReachValid(u, START, c);
    StoredPart(s, x, c);
    ReachTrans(u, START, c, AfterCopy(c, x));
    HoldNothing(s, io.hold, u);
  }

  lemma HoldNothing(s: seq<bool>, hold: nat, u: seq<bool>)
    requires Acc(s, hold, 0)
    ensures Acc(u, hold, 0)
  {
    assert Pow2(0) == 1;
    AccEmpty(u);
  }

  /** Case COPY: stored bytes, as many as there are input and space for. */
  method CopyCase(z: Inflater, s: State, ghost g: Trace, flush: Flush) returns (leave: bool, t: State, ghost h: Trace)
    requires Inv(z, s, g) && s.mode == COPY
    modifies s.out
    ensures Inv(z, t, h) && SameCall(t, s, h, g)
    ensures leave ==> Idle(t, h, flush)
    ensures !leave ==> Ahead(t, s)
  {
    hide Reaches, BytesToBits, Valid, Step, START, ModeOk, PosOk, Here, Inv, Reading, Stream, Align, TableAt, Base,
         IsStuck, WindowIs, z.Shape;
    Open(z, s, g);
    BaseIs(z, s, g);
    CopyModes(s, g.cfg.mode);
    if s.length == 0 {
      t, h := s.(mode := TYPE), g.(cfg := g.cfg.(mode := TypeDo));
      CloseStored(z, s, g, t, h);
      return false, t, h;
    }
    var copy := s.length;
    if copy > |s.io.input| - s.io.next { copy := |s.io.input| - s.io.next; }
    if copy > s.out.Length - s.put { copy := s.out.Length - s.put; }
    if copy == 0 {
      CopyStops(s, g, flush);
      return true, s, g;
    }
    CopyInput(s.out, s.put, s.io.input, s.io.next, copy);
    t := s.(io := s.io.(next := s.io.next + copy), put := s.put + copy, length := s.length - copy);
    h := g.(cfg := AfterCopy(g.cfg, s.io.input[s.io.next..s.io.next + copy]));
    CloseCopy(z, s, g, t, h, copy, old(s.out[..s.put]));
    return false, t, h;
  }

  /** The end of a stored block. */
  lemma CloseStored(z: Inflater, s: State, g: Trace, t: State, h: Trace)
    requires t == s.(mode := TYPE) && h == g.(cfg := g.cfg.(mode := TypeDo)) && s.mode == COPY && s.length == 0
    requires Inv(z, s, g)
    ensures Inv(z, t, h) && SameCall(t, s, h, g)
  {
    hide Valid, Step, ModeOk, PosOk, Inv, Reading, Stream, Base, Here;
    Open(z, s, g);
    CopyModes(s, g.cfg.mode);
    StoredEnd(Stream(s.io, g.fed0), g.cfg);
    Took(s.io, g.fed0, g.cfg, h.cfg);
    CloseLen(z, s, g, t, h);
  }

  lemma CopyStops(s: State, g: Trace, flush: Flush)
    requires Reading(s.io, g.fed0, g.cfg) && s.io.next <= |s.io.input| && AtBit(s.io, g.fed0, g.cfg) &&
             s.io.bits == 0 && g.cfg.mode == StoredBytes(s.length) && s.length > 0
    requires s.mode == COPY && s.put <= s.out.Length && (s.io.next == |s.io.input| || s.put == s.out.Length)
    ensures Idle(s, g, flush)
  {
    hide Reading, Stream, Valid, Step;
    ReadingRange(s.io, g.fed0, g.cfg);
    StoredBytesStuck(Stream(s.io, g.fed0), g.cfg);
  }

  lemma CloseCopy(z: Inflater, s: State, g: Trace, t: State, h: Trace, n: nat, was: seq<byte>)
    requires s.io.next + n <= |s.io.input| && s.put + n <= s.out.Length && n <= s.length &&
             g.cfg.mode == StoredBytes(s.length)
    requires t == s.(io := s.io.(next := s.io.next + n), put := s.put + n, length := s.length - n)
    requires h == g.(cfg := AfterCopy(g.cfg, s.io.input[s.io.next..s.io.next + n]))
    requires g.cfg.out == g.base + was && s.out[..s.put + n] == was + s.io.input[s.io.next..s.io.next + n]
    requires AtBit(s.io, g.fed0, g.cfg) && s.io.bits == 0 && s.last == g.cfg.last && s.mode == COPY
    requires Reading(s.io, g.fed0, g.cfg) && z.window != s.out && WindowIs(z, s, g) && z.Shape()
    ensures Inv(z, t, h)
  {
    hide Reaches, BytesToBits, Valid, Step, START, ModeOk, PosOk, Here, Inv, Reading, Stream, Align, TableAt, Base,
         IsStuck, WindowIs, z.Shape;
    CopyTook(s.io, g.fed0, g.cfg, n);
    SeqAssoc(g.base, was, s.io.input[s.io.next..s.io.next + n]);
    SameWindow(z, s, g, t, h);
    BaseFrom(z, t, h);
    CopyModes(t, h.cfg.mode);
    ReadingRange(t.io, h.fed0, h.cfg);
    PosAt(COPY, h.cfg.pos, |Stream(t.io, h.fed0)|, 0);
    CloseHeader(z, t, h, t, h);
  }
}
