/**
  inflate.c: the cases of the mode switch that decode compressed data and write output.
*/
module InflateData {
  import opened Bits
  import opened Canonical
  import opened InflateTable
  import opened Format
  import opened TableRead
  import opened Accumulator
  import opened InflateSteps
  import opened InflateState
  import opened InflateModes
  import opened InflateDecode

  lemma OpenData(z: Inflater, s: State, g: Trace)
    requires Inv(z, s, g) && UsesTables(s.mode)
    ensures HasCodes(g.cfg.mode) && Tables(s.len, s.dist, g, g.cfg.mode.k)
  {
    hide ModeOk, TableAt, Reading, Stream;
  }

  // ------------------------------------------------------------------ LEN and LENEXT

  lemma LagLen(io: Io, fed0: seq<byte>, c: Config, t: Ref, used: nat)
    requires Reading(io, fed0, c) && io.next <= |io.input| && AtBit(io, fed0, c) && Lean(io, fed0, c) && c.mode.Len?
    requires TableAt(t.code, t.at, used, t.bits, LENS, c.mode.k.ll)
    ensures Decoding(io, fed0, c, t, used, LENS, c.mode.k.ll)
  {
    hide Reading, Stream, TableFor, Acceptable, Bounded, View;
    ReadingRange(io, fed0, c);
    AvailIs(io, fed0, c);
    AcceptableFits(LENS, c.mode.k.ll);
    LenStuck(Stream(io, fed0), c);
    LagStart(c.mode.k.ll, Avail(io));
  }

  /** The machine after the literal/length entry `e` of `size` bits. */
  ghost function AfterLen(c: Config, e: Entry, size: nat): (d: Config)
    requires c.mode.Len?
  {
    if e.op == 0 then (if e.val < 256 then c.(mode := Lit(c.mode.k, e.val), pos := c.pos + size) else c)
    else if Bit(e.op, 5) then c.(mode := TypeDo, pos := c.pos + size)
    else if Bit(e.op, 6) then Config(c.last, Bad, 0, c.out)
    else c.(mode := LenExt(c.mode.k, e.val, e.op % 16), pos := c.pos + size)
  }

  /** Decodes a literal/length symbol. */
  method ReadLen(s: Io, ghost fed0: seq<byte>, ghost c: Config, t: Ref, ghost used: nat)
    returns (ok: bool, io: Io, here: Entry, ghost size: nat)
    requires Reading(s, fed0, c) && s.next <= |s.input| && AtBit(s, fed0, c) && Lean(s, fed0, c) && c.mode.Len?
    requires TableAt(t.code, t.at, used, t.bits, LENS, c.mode.k.ll)
    ensures io.input == s.input && s.next <= io.next <= |io.input|
    ensures !ok ==> Reading(io, fed0, c) && AtBit(io, fed0, c) && io.next == |io.input| && IsStuck(Stream(io, fed0), c)
    ensures ok ==>
              io.bits < 8 && Budget(io) < Budget(s) && Reading(io, fed0, AfterLen(c, here, size)) &&
              c.pos + size == |Stream(io, fed0)| - io.bits
    ensures ok && here.op == 0 ==> here.val < 256
  {
    hide Reading, Stream, Decoding, Found, TableAt, Valid, Step, Answer, Decode, Bit;
    LagLen(s, fed0, c, t, used);
    var n;
    ok, io, here, n := DecodeEntry(s, fed0, c, t, used, LENS, c.mode.k.ll);
    size := n;
    if !ok {
      StuckLen(io, fed0, c);
      return;
    }
    FoundLen(io, fed0, c, here, size);
    io := Dropped(io, n);
  }

  lemma StuckLen(io: Io, fed0: seq<byte>, c: Config)
    requires Reading(io, fed0, c) && io.next <= |io.input| && AtBit(io, fed0, c) && c.mode.Len? &&
             c.pos <= |Stream(io, fed0)|
    requires Decode(c.mode.k.ll, Stream(io, fed0)[c.pos..]) == NeedMore
    ensures IsStuck(Stream(io, fed0), c)
  {
    hide Reading, Stream, Decode, Valid, Step;
    ReadingRange(io, fed0, c);
    LenStuck(Stream(io, fed0), c);
  }

  lemma FoundLen(io: Io, fed0: seq<byte>, c: Config, e: Entry, size: nat)
    requires c.mode.Len? && Found(io, fed0, c, LENS, c.mode.k.ll, e, size)
    ensures io.next <= |io.input| && 1 <= size <= io.bits < size + 8 &&
            Reading(Dropped(io, size), fed0, AfterLen(c, e, size))
    ensures Stream(Dropped(io, size), fed0) == Stream(io, fed0) && c.pos == |Stream(io, fed0)| - io.bits &&
            (e.op == 0 ==> e.val < 256)
  {
    hide Reading, Stream, Answer, AfterLen;
    ReadingRange(io, fed0, c);
    SizeFits(LENS, c.mode.k.ll, Stream(io, fed0)[c.pos..], e, size);
    LenAnswer(io, fed0, c, e, size);
  }

  lemma SizeFits(kind: Kind, lens: seq<nat>, b: seq<bool>, e: Entry, size: nat)
    requires Answer(kind, lens, b, e, size)
    ensures 1 <= size <= |b|
  {
    hide Decode;
  }

  /** What a decoded literal/length entry does to the machine. */
  lemma LenAnswer(io: Io, fed0: seq<byte>, c: Config, e: Entry, size: nat)
    requires c.mode.Len? && Reading(io, fed0, c) && io.next <= |io.input| && c.pos <= |Stream(io, fed0)| &&
             AtBit(io, fed0, c) && size <= io.bits
    requires Answer(LENS, c.mode.k.ll, Stream(io, fed0)[c.pos..], e, size)
    ensures Reading(Dropped(io, size), fed0, AfterLen(c, e, size)) && (e.op == 0 ==> e.val < 256)
    ensures Stream(Dropped(io, size), fed0) == Stream(io, fed0)
  {
    hide Reading, Stream, Valid, Step, Decode, Bit;
    ReadingRange(io, fed0, c);
    LenStep(Stream(io, fed0), c, e, size);
    Took(io, fed0, c, AfterLen(c, e, size));
    DropKeeps(io, fed0, AfterLen(c, e, size), size);
  }

  lemma {:induction false} KeepTables(len: Ref, dist: Ref, g: Trace, h: Trace, k: Codes)
    requires Tables(len, dist, g, k) && h.lenUsed == g.lenUsed && h.distUsed == g.distUsed
    ensures Tables(len, dist, h, k)
  {
    hide TableAt;
  }

  /** Case LEN without the fast loop. */
  method LenCase(z: Inflater, s: State, ghost g: Trace, flush: Flush) returns (leave: bool, t: State, ghost h: Trace)
    requires Inv(z, s, g) && s.mode == LEN
    ensures Inv(z, t, h) && SameCall(t, s, h, g)
    ensures leave ==> Idle(t, h, flush)
    ensures !leave ==> Ahead(t, s)
  {
    hide Reaches, BytesToBits, Valid, Step, START, ModeOk, PosOk, Here, Inv, Reading, Stream, Align, TableAt, Base,
         IsStuck, Bit;
    Open(z, s, g);
    OpenData(z, s, g);
    DataModes(s, g.cfg.mode);
    var ok, io, here;
    ghost var size;
    ok, io, here, size := ReadLen(s.io, g.fed0, g.cfg, s.len, g.lenUsed);
    if !ok {
      t, h := s.(io := io), g;
      DataModes(t, h.cfg.mode);
      CloseData(z, s, g, t, h);
      return true, t, h;
    }
    h := g.(cfg := AfterLen(g.cfg, here, size));
    if here.op != 0 && (Bit(here.op, 5) || Bit(here.op, 6)) {
      t := s.(io := io, length := here.val, mode := if Bit(here.op, 5) then TYPE else BAD);
      CloseLen(z, s, g, t, h);
      return false, t, h;
    }
    t := s.(io := io, length := here.val, extra := if here.op == 0 then s.extra else here.op % 16,
            mode := if here.op == 0 then LIT else LENEXT);
    KeepTables(s.len, s.dist, g, h, g.cfg.mode.k);
    DataModes(t, h.cfg.mode);
    CloseData(z, s, g, t, h);
    return false, t, h;
  }

  lemma CloseLen(z: Inflater, s: State, g: Trace, t: State, h: Trace)
    requires Base(z, s, g) && Quiet(t, s, h, g) && Reading(t.io, h.fed0, h.cfg) && t.io.next <= |t.io.input| &&
             t.last == h.cfg.last
    requires (t.mode == TYPE && h.cfg.mode == TypeDo && t.io.bits < 8 && AtBit(t.io, h.fed0, h.cfg)) ||
             (t.mode == BAD && h.cfg.mode == Bad)
    ensures Inv(z, t, h) && SameCall(t, s, h, g)
  {
    hide Reading, Stream, Base, ModeOk, Inv;
    EndModes(t, h.cfg.mode);
    TypeModes(t, h.cfg.mode);
    CloseHeader(z, s, g, t, h);
  }

  /** Reads the extra bits of a length or a distance. */
  method ReadExtra(s: Io, ghost fed0: seq<byte>, ghost c: Config, extra: nat) returns (ok: bool, io: Io, v: nat)
    requires Reading(s, fed0, c) && s.next <= |s.input| && AtBit(s, fed0, c) && Lean(s, fed0, c) &&
             (c.mode.LenExt? || c.mode.DistExt?) && c.mode.extra == extra
    ensures io.input == s.input && s.next <= io.next <= |io.input|
    ensures !ok ==> Reading(io, fed0, c) && AtBit(io, fed0, c) && io.next == |io.input| && IsStuck(Stream(io, fed0), c)
    ensures ok ==>
              io.bits < 8 && Budget(io) <= Budget(s) && Reading(io, fed0, AfterExtra(c, v)) &&
              c.pos + extra == |Stream(io, fed0)| - io.bits
  {
    hide Reading, Stream, Valid, Step, Low, Shr, Here;
    v := 0;
    ReadyAt(s, fed0, c);
    ReadingRange(s, fed0, c);
    ExtStuck(Stream(s, fed0), c, s.hold, s.bits);
    ok, io := NeedBits(s, fed0, c, extra);
    ReadyAt(io, fed0, c);
    ExtStuck(Stream(io, fed0), c, io.hold, io.bits);
    if !ok { return; }
    v := Peek(io, extra);
    ExtraStep(io, fed0, c);
    io := Dropped(io, extra);
  }

  ghost function AfterExtra(c: Config, v: nat): (d: Config)
    requires c.mode.LenExt? || c.mode.DistExt?
  {
    if c.mode.LenExt? then c.(mode := Dist(c.mode.k, c.mode.base + v), pos := c.pos + c.mode.extra)
    else c.(mode := Match(c.mode.k, c.mode.length, c.mode.base + v), pos := c.pos + c.mode.extra)
  }

  lemma ExtraStep(io: Io, fed0: seq<byte>, c: Config)
    requires Reading(io, fed0, c) && io.next <= |io.input| && AtBit(io, fed0, c) &&
             (c.mode.LenExt? || c.mode.DistExt?) && c.mode.extra <= io.bits
    ensures Reading(Dropped(io, c.mode.extra), fed0, AfterExtra(c, Peek(io, c.mode.extra))) &&
            Stream(Dropped(io, c.mode.extra), fed0) == Stream(io, fed0)
  {
    hide Reading, Stream, Valid, Step, Low, Here;
    ReadyAt(io, fed0, c);
    ReadingRange(io, fed0, c);
    if c.mode.LenExt? {
      LenExtStep(Stream(io, fed0), c, io.hold, io.bits);
    } else {
      DistExtStep(Stream(io, fed0), c, io.hold, io.bits);
    }
    Took(io, fed0, c, AfterExtra(c, Peek(io, c.mode.extra)));
    DropKeeps(io, fed0, AfterExtra(c, Peek(io, c.mode.extra)), c.mode.extra);
  }

  /** Cases LENEXT and DISTEXT. */
  method ExtraCase(z: Inflater, s: State, ghost g: Trace, flush: Flush) returns (leave: bool, t: State, ghost h: Trace)
    requires Inv(z, s, g) && (s.mode == LENEXT || s.mode == DISTEXT)
    ensures Inv(z, t, h) && SameCall(t, s, h, g)
    ensures leave ==> Idle(t, h, flush)
    ensures !leave ==> Ahead(t, s)
  {
    hide Reaches, BytesToBits, Valid, Step, START, ModeOk, PosOk, Here, Inv, Reading, Stream, Align, TableAt, Base,
         IsStuck;
    Open(z, s, g);
    OpenData(z, s, g);
    DataModes(s, g.cfg.mode);
    var ok, io, v := ReadExtra(s.io, g.fed0, g.cfg, s.extra);
    if !ok {
      t, h := s.(io := io), g;
      DataModes(t, h.cfg.mode);
      CloseData(z, s, g, t, h);
      return true, t, h;
    }
    h := g.(cfg := AfterExtra(g.cfg, v));
    t := if s.mode == LENEXT then s.(io := io, length := s.length + v, mode := DIST)
         else s.(io := io, offset := s.offset + v, mode := MATCH);
    KeepTables(s.len, s.dist, g, h, g.cfg.mode.k);
    DataModes(t, h.cfg.mode);
    CloseData(z, s, g, t, h);
    return false, t, h;
  }

  // ------------------------------------------------------------------ DIST

  lemma LagDist(io: Io, fed0: seq<byte>, c: Config, t: Ref, used: nat)
    requires Reading(io, fed0, c) && io.next <= |io.input| && AtBit(io, fed0, c) && Lean(io, fed0, c) && c.mode.Dist?
    requires TableAt(t.code, t.at, used, t.bits, DISTS, c.mode.k.dl)
    ensures Decoding(io, fed0, c, t, used, DISTS, c.mode.k.dl)
  {
    hide Reading, Stream, TableFor, Acceptable, Bounded, View;
    ReadingRange(io, fed0, c);
    AvailIs(io, fed0, c);
    AcceptableFits(DISTS, c.mode.k.dl);
    DistStuck(Stream(io, fed0), c);
    LagStart(c.mode.k.dl, Avail(io));
  }

  ghost function AfterDist(c: Config, e: Entry, size: nat): (d: Config)
    requires c.mode.Dist?
  {
    if Bit(e.op, 6) then Config(c.last, Bad, 0, c.out)
    else c.(mode := DistExt(c.mode.k, c.mode.length, e.val, e.op % 16), pos := c.pos + size)
  }

  /** Decodes a distance symbol. */
  method ReadDist(s: Io, ghost fed0: seq<byte>, ghost c: Config, t: Ref, ghost used: nat)
    returns (ok: bool, io: Io, here: Entry, ghost size: nat)
    requires Reading(s, fed0, c) && s.next <= |s.input| && AtBit(s, fed0, c) && Lean(s, fed0, c) && c.mode.Dist?
    requires TableAt(t.code, t.at, used, t.bits, DISTS, c.mode.k.dl)
    ensures io.input == s.input && s.next <= io.next <= |io.input|
    ensures !ok ==> Reading(io, fed0, c) && AtBit(io, fed0, c) && io.next == |io.input| && IsStuck(Stream(io, fed0), c)
    ensures ok ==>
              io.bits < 8 && Budget(io) < Budget(s) && Reading(io, fed0, AfterDist(c, here, size)) &&
              c.pos + size == |Stream(io, fed0)| - io.bits
  {
    hide Reading, Stream, Decoding, Found, TableAt, Valid, Step, Answer, Decode, Bit;
    LagDist(s, fed0, c, t, used);
    var n;
    ok, io, here, n := DecodeEntry(s, fed0, c, t, used, DISTS, c.mode.k.dl);
    size := n;
    if !ok {
      StuckDist(io, fed0, c);
      return;
    }
    FoundDist(io, fed0, c, here, size);
    io := Dropped(io, n);
  }

  lemma StuckDist(io: Io, fed0: seq<byte>, c: Config)
    requires Reading(io, fed0, c) && io.next <= |io.input| && AtBit(io, fed0, c) && c.mode.Dist? &&
             c.pos <= |Stream(io, fed0)|
    requires Decode(c.mode.k.dl, Stream(io, fed0)[c.pos..]) == NeedMore
    ensures IsStuck(Stream(io, fed0), c)
  {
    hide Reading, Stream, Decode, Valid, Step;
    ReadingRange(io, fed0, c);
    DistStuck(Stream(io, fed0), c);
  }

  lemma FoundDist(io: Io, fed0: seq<byte>, c: Config, e: Entry, size: nat)
    requires c.mode.Dist? && Found(io, fed0, c, DISTS, c.mode.k.dl, e, size)
    ensures io.next <= |io.input| && 1 <= size <= io.bits < size + 8 &&
            Reading(Dropped(io, size), fed0, AfterDist(c, e, size))
    ensures Stream(Dropped(io, size), fed0) == Stream(io, fed0) && c.pos == |Stream(io, fed0)| - io.bits
  {
    hide Reading, Stream, Answer, AfterDist;
    ReadingRange(io, fed0, c);
    SizeFits(DISTS, c.mode.k.dl, Stream(io, fed0)[c.pos..], e, size);
    DistAnswer(io, fed0, c, e, size);
  }

  /** What a decoded distance entry does to the machine. */
  lemma DistAnswer(io: Io, fed0: seq<byte>, c: Config, e: Entry, size: nat)
    requires c.mode.Dist? && Reading(io, fed0, c) && io.next <= |io.input| && c.pos <= |Stream(io, fed0)| &&
             AtBit(io, fed0, c) && size <= io.bits
    requires Answer(DISTS, c.mode.k.dl, Stream(io, fed0)[c.pos..], e, size)
    ensures Reading(Dropped(io, size), fed0, AfterDist(c, e, size))
    ensures Stream(Dropped(io, size), fed0) == Stream(io, fed0)
  {
    hide Reading, Stream, Valid, Step, Decode, Bit;
    ReadingRange(io, fed0, c);
    DistStep(Stream(io, fed0), c, e, size);
    Took(io, fed0, c, AfterDist(c, e, size));
    DropKeeps(io, fed0, AfterDist(c, e, size), size);
  }

  /** Case DIST. */
  method DistCase(z: Inflater, s: State, ghost g: Trace, flush: Flush) returns (leave: bool, t: State, ghost h: Trace)
    requires Inv(z, s, g) && s.mode == DIST
    ensures Inv(z, t, h) && SameCall(t, s, h, g)
    ensures leave ==> Idle(t, h, flush)
    ensures !leave ==> Ahead(t, s)
  {
    hide Reaches, BytesToBits, Valid, Step, START, ModeOk, PosOk, Here, Inv, Reading, Stream, Align, TableAt, Base,
         IsStuck, Bit;
    Open(z, s, g);
    OpenData(z, s, g);
    DataModes(s, g.cfg.mode);
    var ok, io, here;
    ghost var size;
    ok, io, here, size := ReadDist(s.io, g.fed0, g.cfg, s.dist, g.distUsed);
    if !ok {
      t, h := s.(io := io), g;
      DataModes(t, h.cfg.mode);
      CloseData(z, s, g, t, h);
      return true, t, h;
    }
    h := g.(cfg := AfterDist(g.cfg, here, size));
    if Bit(here.op, 6) {
      t := s.(io := io, mode := BAD);
      CloseLen(z, s, g, t, h);
      return false, t, h;
    }
    t := s.(io := io, offset := here.val, extra := here.op % 16, mode := DISTEXT);
    KeepTables(s.len, s.dist, g, h, g.cfg.mode.k);
    DataModes(t, h.cfg.mode);
    CloseData(z, s, g, t, h);
    return false, t, h;
  }
}
