/**
  inflate.c: the cases of the mode switch that read block headers.
*/
module InflateModes {
  import opened Bits
  import opened Format
  import opened InflateSteps
  import opened InflateState

  /** `t` differs from `s` only in what was read. */
  predicate Quiet(t: State, s: State, h: Trace, g: Trace)
  {
    t.io.input == s.io.input && t.out == s.out && t.put == s.put && t.win == s.win &&
    h.fed0 == g.fed0 && h.base == g.base && h.cfg.out == g.cfg.out
  }

  /** Closes a case that ends in a mode without tables. */
  lemma CloseHeader(z: Inflater, s: State, g: Trace, t: State, h: Trace)
    requires Base(z, s, g) && Quiet(t, s, h, g) && Reading(t.io, h.fed0, h.cfg)
    requires t.last == h.cfg.last && ModeOk(t.mode, t, h.cfg.mode) && !UsesTables(t.mode) && t.mode != LENLENS &&
             t.mode != CODELENS
    requires t.mode != BAD ==>
               t.io.next <= |t.io.input| && Lean(t.io, h.fed0, h.cfg) &&
               PosOk(t.mode, h.cfg.pos, |Stream(t.io, h.fed0)|, t.io.bits)
    ensures Inv(z, t, h) && SameCall(t, s, h, g)
  {
    hide IsStuck, Reading, ModeOk, Align, z.Shape, TableAt, WindowOk, Stream, Lean;
    ReadingRange(t.io, h.fed0, h.cfg);
  }

  /** Closes a case that ends in a mode of compressed data. */
  lemma CloseData(z: Inflater, s: State, g: Trace, t: State, h: Trace)
    requires Base(z, s, g) && Quiet(t, s, h, g) && Reading(t.io, h.fed0, h.cfg) && t.io.next <= |t.io.input|
    requires t.last == h.cfg.last && ModeOk(t.mode, t, h.cfg.mode) && UsesTables(t.mode)
    requires HasCodes(h.cfg.mode) && Tables(t.len, t.dist, h, h.cfg.mode.k)
    requires AtBit(t.io, h.fed0, h.cfg) && Lean(t.io, h.fed0, h.cfg)
    ensures Inv(z, t, h) && SameCall(t, s, h, g)
  {
    hide IsStuck, Reading, ModeOk, Align, z.Shape, TableAt, WindowOk, Stream, Lean;
  }

  lemma Open(z: Inflater, s: State, g: Trace)
    requires Inv(z, s, g)
    ensures s.io.next <= |s.io.input| && s.put <= s.out.Length && s.last == g.cfg.last && Reading(s.io, g.fed0, g.cfg)
    ensures Valid(Stream(s.io, g.fed0), g.cfg) && s.io.bits <= |Stream(s.io, g.fed0)| && ModeOk(s.mode, s, g.cfg.mode)
    ensures s.mode != BAD && s.mode != STORED ==>
              AtBit(s.io, g.fed0, g.cfg) && Lean(s.io, g.fed0, g.cfg) &&
              Here(Stream(s.io, g.fed0), g.cfg, s.io.hold, s.io.bits) &&
              (s.mode == COPY || s.mode == COPY_ ==> s.io.bits == 0)
    ensures s.mode == STORED ==> PosOk(STORED, g.cfg.pos, |Stream(s.io, g.fed0)|, s.io.bits)
    ensures Running(s.mode) ==> Base(z, s, g)
    ensures allocated(s.len.code) && allocated(s.dist.code) && allocated(s.out)
  {
    hide IsStuck, Reading, ModeOk, Align, z.Shape, TableAt, WindowOk, Stream, Lean, Writing, ArraysOk, Here, Valid;
    ReadingRange(s.io, g.fed0, g.cfg);
    if s.mode != BAD && s.mode != STORED { ReadyAt(s.io, g.fed0, g.cfg); }
  }

  lemma AlignPos(n: nat, bits: nat)
    requires n % 8 == 0 && bits <= n
    ensures Align(n - bits) == n - (bits - bits % 8)
  {
  }

  lemma PosAt(m: IMode, pos: nat, n: nat, bits: nat)
    requires m != STORED && pos == n - bits && (m == COPY_ || m == COPY || m == CHECK || m == DONE ==> bits == 0)
    ensures PosOk(m, pos, n, bits)
  {
  }

  /** Reads the three sizes of a dynamic block. */
  method ReadSizes(s: Io, ghost fed0: seq<byte>, ghost c: Config)
    returns (ok: bool, t: Io, nlen: nat, ndist: nat, ncode: nat)
    requires Reading(s, fed0, c) && AtBit(s, fed0, c) && Lean(s, fed0, c) && c.mode == Table
    ensures t.input == s.input && t.next <= |t.input|
    ensures !ok ==> Reading(t, fed0, c) && AtBit(t, fed0, c) && t.next == |t.input| && IsStuck(Stream(t, fed0), c)
    ensures ok ==>
              Budget(t) < Budget(s) && t.bits < 8 && ncode <= 19 &&
              Reading(t, fed0, AfterSizes(c, nlen, ndist, ncode)) &&
                   c.pos + 14 == |Stream(t, fed0)| - t.bits
  {
    hide Reaches, BytesToBits, Valid, Step, Low, Shr, START, ModeOk, PosOk, Here, Inv, Reading, Stream, Field, FixedLit,
         FixedDist, Align, TableAt, Base;
    nlen, ndist, ncode := 0, 0, 0;
    ReadingRange(s, fed0, c);
    ReadyAt(s, fed0, c);
    TableStuck(Stream(s, fed0), c, s.hold, s.bits);
    ok, t := NeedBits(s, fed0, c, 14);
    ReadyAt(t, fed0, c);
    TableStuck(Stream(t, fed0), c, t.hold, t.bits);
    if !ok { return; }
    TableStep(Stream(t, fed0), c, t.hold, t.bits);
    ghost var d := Step(Stream(t, fed0), c).c;
    Took(t, fed0, c, d);
    nlen := Peek(t, 5) + 257;
    DropKeeps(t, fed0, d, 5);
    t := Dropped(t, 5);
    ndist := Peek(t, 5) + 1;
    DropKeeps(t, fed0, d, 5);
    t := Dropped(t, 5);
    ncode := Peek(t, 4) + 4;
    DropKeeps(t, fed0, d, 4);
    t := Dropped(t, 4);
  }

  ghost function AfterSizes(c: Config, nlen: nat, ndist: nat, ncode: nat): (d: Config)
  {
    if nlen > 286 ||
       ndist > 30 then Config(c.last, Bad, 0, c.out) else Config(c.last, LenLens(nlen, ndist, ncode, []), c.pos + 14,
                                                                 c.out)
  }

  /** Case TABLE: the sizes of a dynamic block. */
  method TableCase(z: Inflater, s: State, ghost g: Trace, flush: Flush) returns (leave: bool, t: State, ghost h: Trace)
    requires Inv(z, s, g) && s.mode == TABLE
    ensures Inv(z, t, h) && SameCall(t, s, h, g)
    ensures leave ==> Idle(t, h, flush)
    ensures !leave ==> Ahead(t, s)
  {
    hide Reaches, BytesToBits, Valid, Step, Low, Shr, START, ModeOk, PosOk, Here, Inv, Reading, Stream, Field, FixedLit,
         FixedDist, Align, TableAt, Base;
    Open(z, s, g);
    TableMode(s, g.cfg.mode);
    var ok, io, nlen, ndist, ncode := ReadSizes(s.io, g.fed0, g.cfg);
    if !ok {
      t, h := s.(io := io), g;
      PosAt(TABLE, g.cfg.pos, |Stream(io, g.fed0)|, io.bits);
      TableMode(t, g.cfg.mode);
      CloseHeader(z, s, g, t, h);
      return true, t, h;
    }
    h := g.(cfg := AfterSizes(g.cfg, nlen, ndist, ncode));
    if nlen > 286 || ndist > 30 {
      t := s.(io := io, nlen := nlen, ndist := ndist, ncode := ncode, mode := BAD);
      EndModes(t, h.cfg.mode);
      CloseHeader(z, s, g, t, h);
      return false, t, h;
    }
    t := s.(io := io, nlen := nlen, ndist := ndist, ncode := ncode, have := 0, mode := LENLENS);
    TreeModes(t, h.cfg.mode);
    CloseLenLens(z, s, g, t, h);
    return false, t, h;
  }

  lemma CloseLenLens(z: Inflater, s: State, g: Trace, t: State, h: Trace)
    requires Base(z, s, g) && Quiet(t, s, h, g) && Reading(t.io, h.fed0, h.cfg) && t.io.next <= |t.io.input|
    requires t.last == h.cfg.last && t.mode == LENLENS && ModeOk(LENLENS, t, h.cfg.mode) && Lean(t.io, h.fed0, h.cfg) &&
             AtBit(t.io, h.fed0, h.cfg)
    requires t.have <= 19 && h.cfg.mode.LenLens? && z.lens.Length == 320 ==> h.cfg.mode.cl == ClRead(z.lens[..], t.have)
    ensures Inv(z, t, h) && SameCall(t, s, h, g)
  {
    hide IsStuck, Reading, ModeOk, Align, TableAt, WindowOk, Stream, Lean, ClRead;
    TreeModes(t, h.cfg.mode);
  }

  /** Case TYPEDO: the three header bits of a block, or the end of the last one. */
  method TypeDoCase(z: Inflater, s: State, ghost g: Trace, flush: Flush) returns (leave: bool, t: State, ghost h: Trace)
    requires Inv(z, s, g) && s.mode == TYPEDO
    ensures Inv(z, t, h) && SameCall(t, s, h, g)
    ensures leave ==> Idle(t, h, flush)
    ensures !leave ==> Ahead(t, s)
  {
    hide Reaches, BytesToBits, Valid, Step, Low, Shr, START, ModeOk, PosOk, Here, Inv, Reading, Stream, Field, FixedLit,
         FixedDist, Align, TableAt, Base;
    h := g;
    Open(z, s, g);
    TypeModes(s, g.cfg.mode);
    TypeStuck(Stream(s.io, g.fed0), g.cfg, s.io.hold, s.io.bits);
    if s.last {
      t, h := EndOfBlocks(z, s, g);
      return false, t, h;
    }
    var ok, io := NeedBits(s.io, g.fed0, g.cfg, 3);
    ReadyAt(io, g.fed0, g.cfg);
    TypeStuck(Stream(io, g.fed0), g.cfg, io.hold, io.bits);
    if !ok {
      t := s.(io := io);
      PosAt(TYPEDO, g.cfg.pos, |Stream(io, g.fed0)|, io.bits);
      TypeModes(t, g.cfg.mode);
      CloseHeader(z, s, g, t, h);
      return true, t, h;
    }
    leave, t, h := OpenBlock(z, s, g, io, flush);
  }

  /** BYTEBITS after the last block brings the machine to its end. */
  lemma EndRead(s: Io, fed0: seq<byte>, c: Config)
    requires Reading(s, fed0, c) && AtBit(s, fed0, c) && c.mode == TypeDo && c.last && Lean(s, fed0, c)
    ensures s.bits < 8 && s.next <= |s.input|
    ensures var t := Dropped(s, s.bits % 8);
            Reading(t, fed0, Config(true, Done, |Stream(t, fed0)| - t.bits, c.out)) &&
            Stream(t, fed0) == Stream(s, fed0)
  {
    hide Reaches, BytesToBits, Valid, Step, Low, Shr, START, ModeOk, PosOk, Here, Inv, Reading, Stream, Field, FixedLit,
         FixedDist, Align, TableAt, Base;
    ReadingRange(s, fed0, c);
    ReadyAt(s, fed0, c);
    TypeStuck(Stream(s, fed0), c, s.hold, s.bits);
    AlignPos(|Stream(s, fed0)|, s.bits);
    Took(s, fed0, c, Config(true, Done, Align(c.pos), c.out));
    DropKeeps(s, fed0, Config(true, Done, Align(c.pos), c.out), s.bits % 8);
  }

  /** After the last block: on to the trailer, at a byte boundary. */
  method EndOfBlocks(z: Inflater, s: State, ghost g: Trace) returns (t: State, ghost h: Trace)
    requires Inv(z, s, g) && s.mode == TYPEDO && s.last
    ensures Inv(z, t, h) && SameCall(t, s, h, g) && Ahead(t, s)
  {
    hide Reaches, BytesToBits, Valid, Step, Low, Shr, START, ModeOk, PosOk, Here, Inv, Reading, Stream, Field, FixedLit,
         FixedDist, Align, TableAt, Base;
    Open(z, s, g);
    TypeModes(s, g.cfg.mode);
    EndRead(s.io, g.fed0, g.cfg);
    var io := Dropped(s.io, s.io.bits % 8);
    ReadingRange(io, g.fed0, Config(true, Done, |Stream(io, g.fed0)| - io.bits, g.cfg.out));
    h := g.(cfg := Config(true, Done, |Stream(io, g.fed0)| - io.bits, g.cfg.out));
    t := s.(io := io, mode := CHECK);
    EndModes(t, h.cfg.mode);
    PosAt(CHECK, h.cfg.pos, |Stream(io, h.fed0)|, io.bits);
    CloseHeader(z, s, g, t, h);
  }

  /** The machine after the header bits of a block of the given kind. */
  ghost function AfterType(c: Config, last: bool, kind: nat): (d: Config)
  {
    if kind == 0 then Config(last, StoredHeader, Align(c.pos + 3), c.out)
    else if kind == 1 then Config(last, Len(Codes(FixedLit(), FixedDist())), c.pos + 3, c.out)
    else if kind == 2 then Config(last, Table, c.pos + 3, c.out)
    else Config(last, Bad, 0, c.out)
  }

  /** Reads the three header bits. */
  method ReadType(s: Io, ghost fed0: seq<byte>, ghost c: Config) returns (last: bool, kind: nat, t: Io)
    requires Reading(s, fed0, c) && AtBit(s, fed0, c) && c.mode == TypeDo && !c.last && 3 <= s.bits
    ensures s.next <= |s.input| && t.input == s.input && t.next == s.next && t.bits == s.bits - 3 && kind < 4
    ensures Reading(t, fed0, AfterType(c, last, kind)) && Stream(t, fed0) == Stream(s, fed0) &&
            t.bits <= |Stream(t, fed0)|
  {
    hide Reaches, BytesToBits, Valid, Step, Low, Shr, START, ModeOk, PosOk, Here, Inv, Reading, Stream, Field, FixedLit,
         FixedDist, Align, TableAt, Base;
    ReadyAt(s, fed0, c);
    ReadingRange(s, fed0, c);
    TypeStep(Stream(s, fed0), c, s.hold, s.bits);
    last := Peek(s, 1) == 1;
    DropKeeps(s, fed0, c, 1);
    t := Dropped(s, 1);
    kind := Peek(t, 2);
    DropKeeps(t, fed0, c, 2);
    t := Dropped(t, 2);
    Took(t, fed0, c, AfterType(c, last, kind));
    ReadingRange(t, fed0, AfterType(c, last, kind));
  }

  /** The header bits are there: picks the kind of block. */
  method OpenBlock(z: Inflater, s: State, ghost g: Trace, io0: Io, flush: Flush)
    returns (leave: bool, t: State, ghost h: Trace)
    requires Inv(z, s, g) && s.mode == TYPEDO && Pulled(io0, s.io) && Reading(io0, g.fed0, g.cfg) &&
             AtBit(io0, g.fed0, g.cfg)
    requires g.cfg.mode == TypeDo && !g.cfg.last && 3 <= io0.bits < 11
    ensures Inv(z, t, h) && SameCall(t, s, h, g) && Ahead(t, s)
    ensures leave ==> Idle(t, h, flush)
  {
    hide Reaches, BytesToBits, Valid, Step, Low, Shr, START, ModeOk, PosOk, Here, Inv, Reading, Stream, Field, FixedLit,
         FixedDist, Align, TableAt, Base;
    Open(z, s, g);
    var last, kind, io := ReadType(io0, g.fed0, g.cfg);
    h := g.(cfg := AfterType(g.cfg, last, kind), lenUsed := z.fixedLenUsed, distUsed := z.fixedDistUsed);
    if kind == 1 {
      t := s.(io := io, last := last, mode := LEN_, len := Ref(z.fixedLen, 0, z.fixedLenBits),
              dist := Ref(z.fixedDist, 0, z.fixedDistBits));
      DataModes(t, h.cfg.mode);
      FixedTables(z, s, g, t, h);
      CloseData(z, s, g, t, h);
      return flush == TREES, t, h;
    }
    t := s.(io := io, last := last, mode := if kind == 0 then STORED else if kind == 2 then TABLE else BAD);
    HeaderMode(t, h.cfg, |Stream(io, h.fed0)|, g.cfg, kind);
    CloseHeader(z, s, g, t, h);
    return false, t, h;
  }

  lemma HeaderMode(t: State, d: Config, n: nat, c: Config, kind: nat)
    requires kind != 1 && d == AfterType(c, t.last, kind) &&
             t.mode == (if kind == 0 then STORED else if kind == 2 then TABLE else BAD)
    requires t.io.bits <= n && c.pos + 3 == n - t.io.bits
    ensures ModeOk(t.mode, t, d.mode) && PosOk(t.mode, d.pos, n, t.io.bits) && t.last == d.last && d.out == c.out
  {
    hide Align, FixedLit, FixedDist;
  }

  lemma FixedTables(z: Inflater, s: State, g: Trace, t: State, h: Trace)
    requires Base(z, s, g) && t.len == Ref(z.fixedLen, 0, z.fixedLenBits) && h.lenUsed == z.fixedLenUsed
    requires t.dist == Ref(z.fixedDist, 0, z.fixedDistBits) && h.distUsed == z.fixedDistUsed
    ensures Tables(t.len, t.dist, h, Codes(FixedLit(), FixedDist()))
  {
    hide TableAt, FixedLit, FixedDist;
  }

  /** Reads the length words of a stored block, from a byte boundary on. */
  method ReadStored(s: Io, ghost fed0: seq<byte>, ghost c: Config) returns (ok: bool, t: Io, len: nat, good: bool)
    requires Reading(s, fed0, c) && c.mode == StoredHeader && PosOk(STORED, c.pos, |Stream(s, fed0)|, s.bits)
    ensures t.input == s.input && s.next <= t.next <= |t.input|
    ensures !ok ==>
              Reading(t, fed0, c) && PosOk(STORED, c.pos, |Stream(t, fed0)|, t.bits) && t.next == |t.input| &&
              IsStuck(Stream(t, fed0), c)
    ensures ok ==>
              Budget(t) < Budget(s) && t.bits == 0 && Reading(t, fed0, AfterStored(c, len, good)) &&
              c.pos + 32 == |Stream(t, fed0)|
  {
    hide Reaches, BytesToBits, Valid, Step, Low, Shr, START, ModeOk, PosOk, Here, Inv, Reading, Stream, Field, FixedLit,
         FixedDist, Align, TableAt, Base;
    len, good := 0, false;
    ReadingRange(s, fed0, c);
    StoredPos(s, fed0, c);
    DropKeeps(s, fed0, c, s.bits % 8);
    ok, t := NeedBits(Dropped(s, s.bits % 8), fed0, c, 32);
    ReadyAt(t, fed0, c);
    StoredStuck(Stream(t, fed0), c, t.hold, t.bits);
    if !ok {
      StillStored(t, fed0, c);
      return;
    }
    StoredStep(Stream(t, fed0), c, t.hold);
    len, good := Peek(t, 16), Peek(t, 16) == 65535 - Shr(t.hold, 16);
    Took(t, fed0, c, AfterStored(c, len, good));
    ClearKeeps(t, fed0, AfterStored(c, len, good));
    t := Cleared(t);
  }

  ghost function AfterStored(c: Config, len: nat, good: bool): (d: Config)
  {
    if good then Config(c.last, StoredBytes(len), c.pos + 32, c.out) else Config(c.last, Bad, 0, c.out)
  }

  /** Case STORED: the length of a stored block and its complement. */
  method StoredCase(z: Inflater, s: State, ghost g: Trace, flush: Flush) returns (leave: bool, t: State, ghost h: Trace)
    requires Inv(z, s, g) && s.mode == STORED
    ensures Inv(z, t, h) && SameCall(t, s, h, g)
    ensures leave ==> Idle(t, h, flush)
    ensures !leave ==> Ahead(t, s)
  {
    hide Reaches, BytesToBits, Valid, Step, Low, Shr, START, ModeOk, PosOk, Here, Inv, Reading, Stream, Field, FixedLit,
         FixedDist, Align, TableAt, Base;
    Open(z, s, g);
    StoredMode(s, g.cfg.mode);
    var ok, io, len, good := ReadStored(s.io, g.fed0, g.cfg);
    if !ok {
      t, h := s.(io := io), g;
      StoredMode(t, h.cfg.mode);
      CloseHeader(z, s, g, t, h);
      return true, t, h;
    }
    h := g.(cfg := AfterStored(g.cfg, len, good));
    if !good {
      t := s.(io := io, mode := BAD);
      EndModes(t, h.cfg.mode);
      CloseHeader(z, s, g, t, h);
      return false, t, h;
    }
    t := s.(io := io, length := len, mode := COPY_);
    PosAt(COPY_, h.cfg.pos, |Stream(io, h.fed0)|, 0);
    CopyModes(t, h.cfg.mode);
    CloseHeader(z, s, g, t, h);
    return flush == TREES, t, h;
  }

  /** Dropping the odd bits brings the accumulator to where the machine already is. */
  lemma StoredPos(s: Io, fed0: seq<byte>, c: Config)
    requires Reading(s, fed0, c) && PosOk(STORED, c.pos, |Stream(s, fed0)|, s.bits)
    ensures c.pos == |Stream(s, fed0)| - (s.bits - s.bits % 8)
  {
    hide Reading, Stream;
    ReadingRange(s, fed0, c);
    AlignPos(|Stream(s, fed0)|, s.bits);
  }

  lemma StillStored(s: Io, fed0: seq<byte>, c: Config)
    requires Reading(s, fed0, c) && AtBit(s, fed0, c) && s.bits % 8 == 0
    ensures PosOk(STORED, c.pos, |Stream(s, fed0)|, s.bits)
  {
    hide Reading, Stream;
    ReadingRange(s, fed0, c);
    AlignPos(|Stream(s, fed0)|, s.bits);
  }
}
