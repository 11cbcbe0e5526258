/**
  inffast.c: one round of the fast loop, the loop, and its return to the slow path.
*/
module FastLoop {
  import opened Bits
  import opened Canonical
  import opened InflateTable
  import opened Format
  import opened TableRead
  import opened Accumulator
  import opened InflateSteps
  import opened InflateState
  import opened InflateModes
  import opened InflateData
  import opened InflateOutput
  import opened InflateFast
  import opened InflateLens
  import opened Window
  import opened CopyBytes

  /** At most `used` bits were dropped, and at most six bytes pulled, since the input stood at `n0`. */
  predicate Spent(io: Io, n0: nat, used: nat)
  {
    n0 <= io.next <= |io.input| && io.next <= n0 + 6 && 8 * (io.next - n0) <= used + io.bits
  }

  /** The machine stands at the accumulator in state `c`. */
  ghost predicate Stands(io: Io, fed0: seq<byte>, c: Config)
  {
    Reading(io, fed0, c) && AtBit(io, fed0, c)
  }

  lemma StandsIs(io: Io, fed0: seq<byte>, c: Config)
    requires Stands(io, fed0, c)
    ensures io.next <= |io.input| && Reading(io, fed0, c) && AtBit(io, fed0, c) && Valid(Stream(io, fed0), c) &&
            io.bits <= 32
    ensures c.pos + io.bits == |Stream(io, fed0)|
  {
    hide Reading, Stream, Valid;
    ReadingRange(io, fed0, c);
  }

  lemma StandsNow(io: Io, fed0: seq<byte>, c: Config)
    requires Reading(io, fed0, c) && io.next <= |io.input| && c.pos == |Stream(io, fed0)| - io.bits
    ensures Stands(io, fed0, c)
  {
    hide Reading, Stream;
  }

  lemma DropNone(io: Io)
    ensures Dropped(io, 0) == io && Peek(io, 0) == 0
  {
    assert Pow2(0) == 1;
  }

  lemma ExtraTaken(io: Io, fed0: seq<byte>, c: Config)
    requires Stands(io, fed0, c) && (c.mode.LenExt? || c.mode.DistExt?) && c.mode.extra <= io.bits
    ensures Stands(Dropped(io, c.mode.extra), fed0, AfterExtra(c, Peek(io, c.mode.extra)))
  {
    hide Reading, Stream, Stands, Peek;
    StandsIs(io, fed0, c);
    ExtraStep(io, fed0, c);
    StandsNow(Dropped(io, c.mode.extra), fed0, AfterExtra(c, Peek(io, c.mode.extra)));
  }

  lemma ExtraBound(s: seq<bool>, c: Config)
    requires Valid(s, c)
    ensures c.mode.LenExt? ==> c.mode.extra <= 5
    ensures c.mode.DistExt? ==> c.mode.extra <= 13
  {
    hide ValidCodes;
  }

  /** Extra bits of a length: at most one more byte. */
  method FastLenExtra(io0: Io, ghost fed0: seq<byte>, ghost c: Config, extra: nat, ghost n0: nat)
    returns (io: Io, v: nat)
    requires Stands(io0, fed0, c) && c.mode.LenExt? && c.mode.extra == extra && Spent(io0, n0, 15) &&
             n0 + 6 <= |io0.input|
    ensures io.input == io0.input && Stands(io, fed0, AfterExtra(c, v)) && Spent(io, n0, 20)
  {
    hide Reading, Stream, Stands, Valid;
    io, v := io0, 0;
    StandsIs(io, fed0, c);
    ExtraBound(Stream(io, fed0), c);
    DropNone(io);
    if extra != 0 {
      if io.bits < extra {
        io := PullOne(io, fed0, c);
        StandsNow(io, fed0, c);
      }
      ExtraTaken(io, fed0, c);
      v := Peek(io, extra);
      io := Dropped(io, extra);
    } else {
      ExtraTaken(io, fed0, c);
    }
  }

  /** Extra bits of a distance: at most two more bytes. */
  method FastDistExtra(io0: Io, ghost fed0: seq<byte>, ghost c: Config, extra: nat, ghost n0: nat)
    returns (io: Io, v: nat)
    requires Stands(io0, fed0, c) && c.mode.DistExt? && c.mode.extra == extra && Spent(io0, n0, 35) &&
             n0 + 6 <= |io0.input|
    ensures io.input == io0.input && Stands(io, fed0, AfterExtra(c, v)) && Spent(io, n0, 48)
  {
    hide Reading, Stream, Stands, Valid;
    io := io0;
    StandsIs(io, fed0, c);
    ExtraBound(Stream(io, fed0), c);
    if io.bits < extra {
      io := PullOne(io, fed0, c);
      StandsNow(io, fed0, c);
      if io.bits < extra {
        io := PullOne(io, fed0, c);
        StandsNow(io, fed0, c);
      }
    }
    ExtraTaken(io, fed0, c);
    v := Peek(io, extra);
    io := Dropped(io, extra);
  }

  // ------------------------------------------------------------------ what an entry can be

  lemma LenOps(lens: seq<nat>, b: seq<bool>, e: Entry, size: nat)
    requires Answer(LENS, lens, b, e, size)
    ensures Bit(e.op, 4) ==> e.op != 0 && !Bit(e.op, 5) && !Bit(e.op, 6)
    ensures !Bit(e.op, 4) ==> e.op == 0 || Bit(e.op, 6)
  {
    hide Decode, LBASE;
    HoleBits();
    var d := Decode(lens, b);
    if d.Symbol? && d.sym > 256 { LengthOpBits(d.sym); }
  }

  lemma HoleBits()
    ensures !Bit(0, 4) && !Bit(64, 4) && Bit(64, 6) && !Bit(96, 4) && Bit(96, 6) && |LEXT| == 31 && |LBASE| == 31
  {
    Pow2Values();
    hide Pow2;
  }

  lemma LengthOpBits(sym: nat)
    requires 257 <= sym < 288
    ensures LEXT[sym - 257] != 0 && !Bit(LEXT[sym - 257], 5) && (Bit(LEXT[sym - 257], 4) <==> sym < 286) &&
            (Bit(LEXT[sym - 257], 6) <==> sym >= 286)
  {
    Pow2Values();
    hide Pow2;
  }

  lemma DistOps(lens: seq<nat>, b: seq<bool>, e: Entry, size: nat)
    requires Answer(DISTS, lens, b, e, size)
    ensures Bit(e.op, 4) <==> !Bit(e.op, 6)
  {
    hide Decode, DBASE;
    HoleBits();
    var d := Decode(lens, b);
    if d.Symbol? { DistOpBits(d.sym); }
  }

  lemma DistOpBits(sym: nat)
    requires sym < 32
    ensures |DBASE| == 32 && (Bit(DEXT[sym], 4) <==> sym < 30) && (Bit(DEXT[sym], 6) <==> sym >= 30)
  {
    Pow2Values();
    hide Pow2;
  }

  // ------------------------------------------------------------------ reading a length/distance pair

  /** What a round found: nothing yet written. */
  datatype Pair = Far(len: nat, dist: nat) | NoDist

  /** After a length code: the rest of the pair. */
  method FastPair(io0: Io, ghost fed0: seq<byte>, ghost c0: Config, base: nat, extra: nat, t: Ref, ghost used: nat,
                  ghost n0: nat)
    returns (p: Pair, io: Io, ghost c: Config)
    requires Stands(io0, fed0, c0) && c0.mode.LenExt? && c0.mode.base == base && c0.mode.extra == extra &&
             Spent(io0, n0, 15) && n0 + 6 <= |io0.input|
    requires TableAt(t.code, t.at, used, t.bits, DISTS, c0.mode.k.dl)
    ensures io.input == io0.input && Spent(io, n0, 48) && c.out == c0.out && c.last == c0.last && c0.pos <= c.pos
    ensures p.Far? ==> Stands(io, fed0, c) && c.mode == Match(c0.mode.k, p.len, p.dist)
    ensures p.NoDist? ==> Reading(io, fed0, c) && WillFail(Stream(io, fed0), c, |Stream(io, fed0)| - io.bits)
  {
    hide Reading, Stream, Stands, Valid, TableAt, Answer, WillFail, Bit;
    var v;
    io, v := FastLenExtra(io0, fed0, c0, extra, n0);
    var len := base + v;
    c := AfterExtra(c0, v);
    StandsIs(io, fed0, c);
    io := Refill(io, fed0, c);
    ghost var io1 := io;
    var here, rest;
    ghost var size;
    here, rest, size := FastDecode(io, fed0, c, t, used, DISTS, c0.mode.k.dl);
    io := rest;
    DistOps(c0.mode.k.dl, Stream(io1, fed0)[c.pos..], here, size);
    if Bit(here.op, 4) {
      DistTaken(io1, fed0, c, here, size);
      c := AfterDist(c, here, size);
      var w;
      io, w := FastDistExtra(io, fed0, c, here.op % 16, n0);
      p, c := Far(len, here.val + w), AfterExtra(c, w);
    } else {
      DistWrong(io1, fed0, c, here, size);
      p := NoDist;
    }
  }

  lemma DistTaken(io: Io, fed0: seq<byte>, c: Config, e: Entry, size: nat)
    requires Reading(io, fed0, c) && io.next <= |io.input| && AtBit(io, fed0, c) && c.pos <= |Stream(io, fed0)| &&
             c.mode.Dist? && size <= io.bits
    requires Answer(DISTS, c.mode.k.dl, Stream(io, fed0)[c.pos..], e, size) && !Bit(e.op, 6)
    ensures Stands(Dropped(io, size), fed0, AfterDist(c, e, size)) &&
            AfterDist(c, e, size).mode == DistExt(c.mode.k, c.mode.length, e.val, e.op % 16)
  {
    hide Reading, Stream, Stands, Answer, Bit;
    DistAnswer(io, fed0, c, e, size);
    StandsNow(Dropped(io, size), fed0, AfterDist(c, e, size));
  }

  lemma DistWrong(io: Io, fed0: seq<byte>, c: Config, e: Entry, size: nat)
    requires Reading(io, fed0, c) && io.next <= |io.input| && AtBit(io, fed0, c) && c.pos <= |Stream(io, fed0)| &&
             c.mode.Dist? && size <= io.bits
    requires Answer(DISTS, c.mode.k.dl, Stream(io, fed0)[c.pos..], e, size) && Bit(e.op, 6)
    ensures Reading(Dropped(io, size), fed0, c)
    ensures WillFail(Stream(Dropped(io, size), fed0), c, |Stream(Dropped(io, size), fed0)| - (io.bits - size))
  {
    hide Reading, Stream, Answer, Bit, WillFail, Valid;
    ReadingRange(io, fed0, c);
    DistFails(Stream(io, fed0), c, e, size);
    DropKeeps(io, fed0, c, size);
  }

  lemma LenTaken(io: Io, fed0: seq<byte>, c: Config, e: Entry, size: nat)
    requires Reading(io, fed0, c) && io.next <= |io.input| && AtBit(io, fed0, c) && c.pos <= |Stream(io, fed0)| &&
             c.mode.Len? && size <= io.bits
    requires Answer(LENS, c.mode.k.ll, Stream(io, fed0)[c.pos..], e, size) &&
             (e.op == 0 || Bit(e.op, 5) || !Bit(e.op, 6))
    ensures Stands(Dropped(io, size), fed0, AfterLen(c, e, size)) && (e.op == 0 ==> e.val < 256)
  {
    hide Reading, Stream, Stands, Answer, Bit;
    LenAnswer(io, fed0, c, e, size);
    StandsNow(Dropped(io, size), fed0, AfterLen(c, e, size));
  }

  lemma LenWrong(io: Io, fed0: seq<byte>, c: Config, e: Entry, size: nat)
    requires Reading(io, fed0, c) && io.next <= |io.input| && AtBit(io, fed0, c) && c.pos <= |Stream(io, fed0)| &&
             c.mode.Len? && size <= io.bits
    requires Answer(LENS, c.mode.k.ll, Stream(io, fed0)[c.pos..], e, size) && e.op != 0 && !Bit(e.op, 5) && Bit(e.op, 6)
    ensures Reading(Dropped(io, size), fed0, c)
    ensures WillFail(Stream(Dropped(io, size), fed0), c, |Stream(Dropped(io, size), fed0)| - (io.bits - size))
  {
    hide Reading, Stream, Answer, Bit, WillFail, Valid;
    ReadingRange(io, fed0, c);
    LenFails(Stream(io, fed0), c, e, size);
    DropKeeps(io, fed0, c, size);
  }

  // ------------------------------------------------------------------ one round

  datatype Round = Again | EndOfBlock | Failed

  /** The state between rounds: as in mode LEN, but with bits read ahead. */
  ghost predicate FastInv(z: Inflater, s: State, g: Trace)
    reads z.fixedLen, z.fixedDist, z.window, s.out, s.len.code, s.dist.code
  {
    Base(z, s, g) && Stands(s.io, g.fed0, g.cfg) && s.last == g.cfg.last &&
    g.cfg.mode.Len? && Tables(s.len, s.dist, g, g.cfg.mode.k)
  }

  /** How a round may end. */
  ghost predicate Rounded(r: Round, z: Inflater, t: State, h: Trace)
    reads z.fixedLen, z.fixedDist, z.window, t.out, t.len.code, t.dist.code
  {
    match r
    case Again => FastInv(z, t, h)
    case EndOfBlock => Base(z, t, h) && Stands(t.io, h.fed0, h.cfg) && h.cfg.mode == TypeDo
    case Failed =>
      Base(z, t, h) && Reading(t.io, h.fed0, h.cfg) && t.io.next <= |t.io.input| &&
      WillFail(Stream(t.io, h.fed0), h.cfg, |Stream(t.io, h.fed0)| - t.io.bits)
  }

  /** Only the input side and the output moved, by no more than one round may. */
  ghost predicate OneRound(t: State, h: Trace, s: State, g: Trace)
  {
    t == s.(io := t.io, put := t.put) && h == g.(cfg := h.cfg) && t.io.input == s.io.input &&
    s.put <= t.put <= s.put + 258 &&
    s.io.next <= t.io.next <= s.io.next + 6 && t.io.next <= |t.io.input| && Budget(t.io) < Budget(s.io) &&
    g.cfg.pos <= h.cfg.pos && h.cfg.last == g.cfg.last
  }

  lemma FastIs(z: Inflater, s: State, g: Trace)
    requires FastInv(z, s, g)
    ensures Base(z, s, g) && Stands(s.io, g.fed0, g.cfg) && s.last == g.cfg.last
    ensures g.cfg.mode.Len? && Tables(s.len, s.dist, g, g.cfg.mode.k)
    ensures allocated(s.len.code) && allocated(s.dist.code) && allocated(s.out)
  {
    hide Base, Stands, Tables;
  }

  lemma QuietBase(z: Inflater, s: State, g: Trace, t: State, h: Trace)
    requires Base(z, s, g) && t.out == s.out && t.put == s.put && t.win == s.win && h.base == g.base &&
             h.cfg.out == g.cfg.out
    ensures Base(z, t, h)
  {
    hide TableAt, WindowOk;
  }

  /** Writes a literal. */
  method FastLiteral(z: Inflater, s: State, ghost g: Trace, io: Io, ghost c: Config, b: nat)
    returns (t: State, ghost h: Trace)
    requires g.cfg.mode.Len? && b < 256 && c.mode == Lit(g.cfg.mode.k, b) && c.out == g.cfg.out &&
             c.last == g.cfg.last && s.put < s.out.Length
    requires FastInv(z, s, g) && Stands(io, g.fed0, c)
    modifies s.out
    ensures t == s.(io := io, put := s.put + 1) && h == g.(cfg := h.cfg) && h.cfg.pos == c.pos && h.cfg.last == c.last
    ensures FastInv(z, t, h)
  {
    hide Reaches, BytesToBits, Valid, Step, START, Reading, Stream, TableAt, Base, WindowIs, Tables, z.Shape, Stands;
    FastIs(z, s, g);
    BaseIs(z, s, g);
    StandsIs(io, g.fed0, c);
    LitOut(Stream(io, g.fed0), c);
    h := g.(cfg := c.(mode := Len(g.cfg.mode.k), out := c.out + [b]));
    Took(io, g.fed0, c, h.cfg);
    StandsNow(io, h.fed0, h.cfg);
    ghost var was := s.out[..s.put];
    s.out[s.put] := b;
    assert s.out[..s.put + 1] == was + [b];
    SeqAssoc(g.base, was, [b]);
    t := s.(io := io, put := s.put + 1);
    SameWindow(z, s, g, t, h);
    BaseFrom(z, t, h);
    KeepTables(s.len, s.dist, g, h, h.cfg.mode.k);
  }

  /** Copies a match whose distance is within the history. */
  method FastCopyMatch(z: Inflater, s: State, ghost g: Trace, len: nat, dist: nat)
    requires z.window != s.out && WindowIs(z, s, g) && s.put + len <= s.out.Length && 1 <= len && 1 <= dist <= WSIZE &&
             dist <= |g.base| + s.put
    modifies s.out
    ensures g.base + s.out[..s.put + len] == CopyFrom(g.base + old(s.out[..s.put]), len, dist)
  {
    hide CopyFrom, Holds;
    if dist > s.put {
      WindowReach(z.window[..], s.win, g.base, dist - s.put);
      CopyFast(s.out, s.put, z.window, s.win.wnext, dist, len, s.win.whave, g.base);
    } else {
      CopyBackFast(s.out, s.put, dist, len, g.base);
    }
  }

  /** All bytes of a match at once. */
  lemma WholeMatch(io: Io, fed0: seq<byte>, c: Config, len: nat, dist: nat, k: Codes)
    requires Stands(io, fed0, c) && c.mode == Match(k, len, dist) && 1 <= dist <= |c.out| && 1 <= len
    ensures Stands(io, fed0, c.(mode := Len(k), out := CopyFrom(c.out, len, dist)))
  {
    hide BytesToBits, Reaches, Valid, Step, Acc, CopyFrom;
    ReadingRange(io, fed0, c);
    MatchPart(Stream(io, fed0), c, len);
    ReachTrans(Stream(io, fed0), START, c, Matched(c, len));
  }

  /** The length/distance pair of a round: reads the rest of it, checks the distance, copies. */
  method FastMatch(z: Inflater, s: State, ghost g: Trace, io0: Io, ghost c0: Config, base: nat, extra: nat)
    returns (r: Round, t: State, ghost h: Trace)
    requires FastInv(z, s, g) && Stands(io0, g.fed0, c0) && c0.mode == LenExt(g.cfg.mode.k, base, extra)
    requires c0.out == g.cfg.out && c0.last == g.cfg.last && g.cfg.pos <= c0.pos && io0.input == s.io.input &&
             Budget(io0) < Budget(s.io)
    requires Spent(io0, s.io.next, 15) && s.io.next + 6 <= |s.io.input| && s.put + 258 <= s.out.Length
    modifies s.out
    ensures r != EndOfBlock && Rounded(r, z, t, h) && OneRound(t, h, s, g) && Budget(t.io) <= Budget(io0)
  {
    hide Reaches, BytesToBits, Valid, Step, START, Reading, Stream, TableAt, Base, WindowIs, z.Shape, Stands, WillFail,
         CopyFrom;
    FastIs(z, s, g);
    BaseIs(z, s, g);
    var p, io;
    ghost var c;
    StandsIs(io0, g.fed0, c0);
    p, io, c := FastPair(io0, g.fed0, c0, base, extra, s.dist, g.distUsed, s.io.next);
    h := g.(cfg := c);
    t := s.(io := io);
    PairBudget(io0, io, g.fed0, c0, c, s.io.next, p);
    if p.NoDist? {
      QuietBase(z, s, g, t, h);
      return Failed, t, h;
    }
    StandsIs(io, g.fed0, c);
    MatchSizes(Stream(io, g.fed0), c);
    SameWindow(z, s, g, s.(offset := p.dist), g);
    TooFarIff(z, s.(offset := p.dist), g);
    if p.dist > s.put && p.dist - s.put > s.win.whave {
      QuietBase(z, s, g, t, h);
      FarFails(Stream(io, g.fed0), c);
      return Failed, t, h;
    }
    FastCopyMatch(z, s, g, p.len, p.dist);
    t, h := s.(io := io, put := s.put + p.len), g.(cfg := c.(mode := Len(g.cfg.mode.k),
                                                             out := CopyFrom(c.out, p.len, p.dist)));
    CloseFastMatch(z, s, g, t, h, c, p.len, p.dist);
    return Again, t, h;
  }

  lemma PairBudget(io0: Io, io: Io, fed0: seq<byte>, c0: Config, c: Config, n0: nat, p: Pair)
    requires io.input == io0.input && io.next <= |io.input| && io0.next <= |io0.input| && Spent(io, n0, 48)
    requires Stands(io0, fed0, c0) && c0.pos <= c.pos && (p.Far? ==> Stands(io, fed0, c))
    requires p.NoDist? ==> Reading(io, fed0, c) && WillFail(Stream(io, fed0), c, |Stream(io, fed0)| - io.bits)
    ensures Budget(io) <= Budget(io0) && io.next <= n0 + 6
  {
    hide Reading, Valid, Step;
    StreamLength(io, fed0);
    StreamLength(io0, fed0);
  }

  lemma StreamLength(io: Io, fed0: seq<byte>)
    requires io.next <= |io.input|
    ensures |Stream(io, fed0)| == 8 * (|fed0| + io.next)
  {
    hide BytesToBits;
  }

  lemma CloseFastMatch(z: Inflater, s: State, g: Trace, t: State, h: Trace, c: Config, len: nat, dist: nat)
    requires g.cfg.mode.Len? && c.mode == Match(g.cfg.mode.k, len, dist) && 1 <= dist <= |c.out| && 1 <= len &&
             s.put + len <= s.out.Length
    requires t == s.(io := t.io, put := s.put + len) &&
             h == g.(cfg := c.(mode := Len(g.cfg.mode.k), out := CopyFrom(c.out, len, dist)))
    requires g.base + s.out[..s.put + len] == CopyFrom(c.out, len, dist) && s.last == g.cfg.last &&
             c.last == g.cfg.last
    requires Tables(s.len, s.dist, g, g.cfg.mode.k) && Stands(t.io, g.fed0, c) && z.window != s.out &&
             WindowIs(z, s, g) && z.Shape()
    ensures FastInv(z, t, h)
  {
    hide Reaches, BytesToBits, Reading, Stream, TableAt, Base, WindowIs, Tables, z.Shape, Stands, CopyFrom;
    WholeMatch(t.io, g.fed0, c, len, dist, g.cfg.mode.k);
    SameWindow(z, s, g, t, h);
    BaseFrom(z, t, h);
    KeepTables(s.len, s.dist, g, h, h.cfg.mode.k);
  }

  /** One round: a literal, a match, the end of the block, or an error. */
  method FastRound(z: Inflater, s: State, ghost g: Trace) returns (r: Round, t: State, ghost h: Trace)
    requires FastInv(z, s, g) && s.io.next + 6 <= |s.io.input| && s.put + 258 <= s.out.Length
    modifies s.out
    ensures Rounded(r, z, t, h) && OneRound(t, h, s, g)
    ensures s.io.bits < 8 || IsStuck(Stream(s.io, g.fed0), g.cfg) ==> Budget(t.io) < 8 * (|s.io.input| - s.io.next) + 8
  {
    hide Reaches, BytesToBits, Valid, Step, START, Reading, Stream, TableAt, Base, FastInv, Stands, WillFail, Answer,
         Bit, IsStuck;
    FastIs(z, s, g);
    StandsIs(s.io, g.fed0, g.cfg);
    var io := Refill(s.io, g.fed0, g.cfg);
    var here, rest;
    ghost var size;
    here, rest, size := FastDecode(io, g.fed0, g.cfg, s.len, g.lenUsed, LENS, g.cfg.mode.k.ll);
    LenOps(g.cfg.mode.k.ll, Stream(io, g.fed0)[g.cfg.pos..], here, size);
    ghost var c := AfterLen(g.cfg, here, size);
    if IsStuck(Stream(s.io, g.fed0), g.cfg) { StuckSize(s.io, io, g.fed0, g.cfg, here, size); }
    if here.op == 0 {
      LenTaken(io, g.fed0, g.cfg, here, size);
      t, h := FastLiteral(z, s, g, rest, c, here.val);
      return Again, t, h;
    }
    if Bit(here.op, 4) {
      LenTaken(io, g.fed0, g.cfg, here, size);
      r, t, h := FastMatch(z, s, g, rest, c, here.val, here.op % 16);
      return;
    }
    t := s.(io := rest);
    if Bit(here.op, 5) {
      LenTaken(io, g.fed0, g.cfg, here, size);
      h := g.(cfg := c);
      QuietBase(z, s, g, t, h);
      return EndOfBlock, t, h;
    }
    LenWrong(io, g.fed0, g.cfg, here, size);
    h := g;
    QuietBase(z, s, g, t, h);
    return Failed, t, h;
  }

  /** A code that was not complete before is longer than the bits there were. */
  lemma StuckSize(s: Io, io: Io, fed0: seq<byte>, c: Config, e: Entry, size: nat)
    requires Stands(s, fed0, c) && s.next <= |s.input| && IsStuck(Stream(s, fed0), c) && c.mode.Len? && Pulled(io, s) &&
             c.pos <= |Stream(io, fed0)|
    requires Answer(LENS, c.mode.k.ll, Stream(io, fed0)[c.pos..], e, size)
    ensures size > s.bits
  {
    hide Reading, Stream, Valid, Step, Answer;
    StandsIs(s, fed0, c);
    LenStuck(Stream(s, fed0), c);
    StreamExtends(s, io, fed0);
    var a, b := Stream(s, fed0), Stream(io, fed0);
    if size <= s.bits {
      CodesFit(a, c);
      assert b[..|a|] == a;
      SizeFits(LENS, c.mode.k.ll, b[c.pos..], e, size);
      DecodeKept(c.mode.k.ll, b, c.pos, |a|, LENS, e, size);
      Undecided(c.mode.k.ll, a[c.pos..], e, size);
    }
  }

  lemma Undecided(lens: seq<nat>, b: seq<bool>, e: Entry, size: nat)
    requires Answer(LENS, lens, b, e, size)
    ensures Decode(lens, b) != NeedMore
  {
    hide Decode;
  }

  // ------------------------------------------------------------------ the loop

  /** Everything since the start of the loop. */
  ghost predicate SinceStart(t: State, h: Trace, s: State, g: Trace)
  {
    t == s.(io := t.io, put := t.put) && h == g.(cfg := h.cfg) && t.io.input == s.io.input && s.put <= t.put &&
    s.io.next <= t.io.next <= |t.io.input| && Budget(t.io) <= Budget(s.io) && g.cfg.pos <= h.cfg.pos &&
    h.cfg.last == g.cfg.last
  }

  lemma OneMoreRound(t: State, h: Trace, u: State, k: Trace, s: State, g: Trace)
    requires SinceStart(u, k, s, g) && OneRound(t, h, u, k)
    ensures SinceStart(t, h, s, g) && Budget(t.io) < Budget(u.io)
  {
  }

  /** Bytes are given back only as far as the loop took them. */
  lemma BackInside(t: Io, s: Io)
    requires t.input == s.input && s.next <= t.next <= |t.input| && Budget(t) < 8 * (|s.input| - s.next) + 8
    ensures s.next <= t.next - t.bits / 8
  {
  }

  lemma Returned(r: Round, z: Inflater, t: State, h: Trace, u: State, k: Trace)
    requires Rounded(r, z, t, h) && t.io.bits / 8 <= t.io.next <= |t.io.input| && t.last == h.cfg.last
    requires r != Failed ==> u == t.(io := GivenBack(t.io), mode := if r == Again then LEN else TYPE) && k == h
    requires r == Failed ==>
               u == t.(io := GivenBack(t.io), mode := BAD) && k == h.(cfg := Config(h.cfg.last, Bad, 0, h.cfg.out))
    ensures Inv(z, u, k)
  {
    hide Reaches, BytesToBits, Valid, Step, START, Reading, Stream, TableAt, Base, Stands, Inv, ModeOk, GivenBack,
         Tables;
    if r == Failed { ReturnFailed(z, t, h, u, k); } else { ReturnGood(r, z, t, h, u, k); }
  }

  lemma ReturnGood(r: Round, z: Inflater, t: State, h: Trace, u: State, k: Trace)
    requires Rounded(r, z, t, h) && t.io.bits / 8 <= t.io.next <= |t.io.input| && t.last == h.cfg.last &&
             r != Failed
    requires u == t.(io := GivenBack(t.io), mode := if r == Again then LEN else TYPE) && k == h
    ensures Inv(z, u, k)
  {
    hide Reaches, BytesToBits, Valid, Step, START, Reading, Stream, TableAt, Base, Stands, Inv, ModeOk, Tables, Low,
         WillFail;
    StandsIs(t.io, h.fed0, h.cfg);
    GiveBack(t.io, h.fed0, h.cfg);
    QuietBase(z, t, h, u, k);
    if r == Again {
      DataModes(u, k.cfg.mode);
      CloseData(z, u, k, u, k);
    } else {
      CloseLen(z, u, k, u, k);
    }
  }

  lemma ReturnFailed(z: Inflater, t: State, h: Trace, u: State, k: Trace)
    requires Rounded(Failed, z, t, h) && t.io.bits / 8 <= t.io.next <= |t.io.input| && t.last == h.cfg.last
    requires u == t.(io := GivenBack(t.io), mode := BAD) && k == h.(cfg := Config(h.cfg.last, Bad, 0, h.cfg.out))
    ensures Inv(z, u, k)
  {
    hide Reaches, BytesToBits, Valid, Step, START, Reading, Stream, TableAt, Base, Stands, Inv, ModeOk, Tables, Low;
    GiveBack(t.io, h.fed0, h.cfg);
    FailNow(t.io, h.fed0, h.cfg);
    Took(u.io, h.fed0, h.cfg, k.cfg);
    QuietBase(z, t, h, u, k);
    CloseLen(z, u, k, u, k);
  }

  lemma FailNow(io: Io, fed0: seq<byte>, c: Config)
    requires io.bits / 8 <= io.next <= |io.input| && Reading(io, fed0, c) &&
             WillFail(Stream(io, fed0), c, |Stream(io, fed0)| - io.bits)
    requires Stream(GivenBack(io), fed0) == Stream(io, fed0)[..|Stream(io, fed0)| - 8 * (io.bits / 8)]
    ensures var s := Stream(GivenBack(io), fed0); Valid(s, c) && Step(s, c) == Go(Config(c.last, Bad, 0, c.out))
  {
    hide Reading, Stream, Valid, Step, GivenBack;
    ReadingRange(io, fed0, c);
    var n := |Stream(io, fed0)|;
    var k: nat := n - 8 * (io.bits / 8);
    assert k % 8 == 0;
  }

  /** inflate_fast, from mode LEN with enough input and output space; the result continues the slow path. */
  method FastCase(z: Inflater, s: State, ghost g: Trace) returns (t: State, ghost h: Trace)
    requires Inv(z, s, g) && s.mode == LEN && |s.io.input| - s.io.next >= 6 &&
             s.out.Length - s.put >= 258
    modifies s.out
    ensures Inv(z, t, h) && SameCall(t, s, h, g) && Ahead(t, s)
    ensures (t.mode == LEN || t.mode == TYPE || t.mode == BAD) && t.io.bits < 8 && s.io.next <= t.io.next
  {
    hide Reaches, BytesToBits, Valid, Step, START, Reading, Stream, TableAt, Base, FastInv, Stands, Inv, ModeOk,
         Rounded, OneRound, SinceStart;
    var r;
    t, h := s, g;
    StartFast(z, s, g);
    r, t, h := FastRound(z, t, h);
    FirstRound(t, h, s, g);
    while r == Again && t.io.next + 5 < |t.io.input| && t.put + 257 < t.out.Length
      invariant Rounded(r, z, t, h) && SinceStart(t, h, s, g) && Budget(t.io) < Budget(s.io) && t.out == s.out
      invariant Budget(t.io) < 8 * (|s.io.input| - s.io.next) + 8
      decreases Budget(t.io)
    {
      ghost var u, k := t, h;
      AgainIs(z, t, h, s, g);
      r, t, h := FastRound(z, t, h);
      OneMoreRound(t, h, u, k, s, g);
      SameOut(t, h, s, g);
    }
    t, h := FinishFast(z, s, g, t, h, r);
  }

  lemma SameOut(t: State, h: Trace, s: State, g: Trace)
    requires SinceStart(t, h, s, g)
    ensures t.out == s.out && Budget(t.io) <= Budget(s.io) && t.io.next <= |t.io.input| && t.io.input == s.io.input
  {
  }

  lemma AgainIs(z: Inflater, t: State, h: Trace, s: State, g: Trace)
    requires Rounded(Again, z, t, h) && SinceStart(t, h, s, g)
    ensures FastInv(z, t, h) && t.io.next <= |t.io.input| && Budget(t.io) >= 0
  {
    hide FastInv;
  }

  lemma FirstRound(t: State, h: Trace, s: State, g: Trace)
    requires OneRound(t, h, s, g)
    ensures SinceStart(t, h, s, g) && Budget(t.io) < Budget(s.io) && t.out == s.out
  {
  }

  lemma StartFast(z: Inflater, s: State, g: Trace)
    requires Inv(z, s, g) && s.mode == LEN
    ensures s.io.next <= |s.io.input| && (s.io.bits < 8 || IsStuck(Stream(s.io, g.fed0), g.cfg))
    ensures FastInv(z, s, g) && s.last == g.cfg.last && allocated(s.out) && allocated(s.len.code) &&
            allocated(s.dist.code)
  {
    hide Reaches, BytesToBits, Valid, Step, START, Reading, Stream, TableAt, Base, Inv, ModeOk, Tables, Here, IsStuck;
    Open(z, s, g);
    OpenData(z, s, g);
    DataModes(s, g.cfg.mode);
  }

  /** Gives bytes back and returns to the slow path. */
  method FinishFast(z: Inflater, ghost s: State, ghost g: Trace, t0: State, ghost h0: Trace, r: Round)
    returns (t: State, ghost h: Trace)
    requires Rounded(r, z, t0, h0) && SinceStart(t0, h0, s, g) && Budget(t0.io) < Budget(s.io) &&
             Budget(t0.io) < 8 * (|s.io.input| - s.io.next) + 8
    requires s.last == g.cfg.last && s.mode == LEN
    ensures Inv(z, t, h) && SameCall(t, s, h, g) && Ahead(t, s)
    ensures (t.mode == LEN || t.mode == TYPE || t.mode == BAD) && t.io.bits < 8 && s.io.next <= t.io.next
  {
    hide Stream, Rounded, Inv, Low;
    BackInside(t0.io, s.io);
    t := t0.(io := GivenBack(t0.io), mode := if r == Again then LEN else if r == EndOfBlock then TYPE else BAD);
    h := if r == Failed then h0.(cfg := Config(h0.cfg.last, Bad, 0, h0.cfg.out)) else h0;
    Returned(r, z, t0, h0, t, h);
  }
}
