/**
  inflate.c: the decoder state for raw streams with a 15-bit window, and its tie to the format machine.

  `cfg` is the state of the format machine that the decoder has reached over all bytes pulled so far.
*/
module InflateState {
  import opened Bits
  import opened Canonical
  import opened InflateTable
  import opened Format
  import opened Accumulator
  import opened InflateSteps
  import opened Window

  datatype IMode = HEAD | TYPE | TYPEDO | STORED | COPY_ | COPY | TABLE | LENLENS | CODELENS | LEN_ | LEN
                 | LENEXT | DIST | DISTEXT | MATCH | LIT | CHECK | DONE | BAD

  datatype Flush = NO_FLUSH | FINISH | BLOCK | TREES

  const WSIZE: nat := 32768
  const ENOUGH: nat := 1444

  /** A finished table of `used` entries at position `at` of an array. */
  ghost predicate TableAt(table: array<Entry>, at: nat, used: nat, root: nat, kind: Kind, lens: seq<nat>)
    reads table
  {
    at + used <= table.Length && TableFor(View(table, at, used), root, kind, lens) && Acceptable(kind, lens) &&
    Bounded(lens, MAX_BITS)
  }

  ghost predicate IsStuck(s: seq<bool>, c: Config) { Valid(s, c) && Step(s, c) == Stuck }

  /** The window agrees with the output of earlier calls. */
  ghost predicate WindowOk(w: seq<byte>, n: Win, h: seq<byte>)
  {
    |w| == WSIZE && ((n == Win(0, 0, 0) && h == []) || (n.wsize == WSIZE && Holds(w, n.whave, n.wnext, h)))
  }

  /** Modes in which more output can still follow. */
  predicate Running(m: IMode) { m != CHECK && m != DONE && m != BAD }

  /** The values sent so far for the code length code, in the order they are sent. */
  function ClRead(lens: seq<nat>, have: nat): (cl: seq<nat>)
    requires |lens| >= 19 && have <= 19
    ensures |cl| == have
  {
    seq(have, i requires 0 <= i < have => lens[ORDER[i]])
  }

  /** Transitions that neither read nor write lower the rank. */
  function Rank(m: IMode): (r: nat)
  {
    match m
    case COPY_ => 9 case COPY => 8 case HEAD => 7 case TYPE => 7 case TYPEDO => 6
    case STORED => 5 case TABLE => 5
    case LENLENS => 5 case CODELENS => 4 case LEN_ => 3 case LEN => 2
    case LENEXT => 5 case DIST => 4 case DISTEXT => 4 case MATCH => 3 case LIT => 3
    case CHECK => 1 case DONE => 0 case BAD => 0
  }


  /** The input side: the registers next, hold and bits of inflate(). */
  datatype Io = Io(input: seq<byte>, next: nat, hold: nat, bits: nat)

  /** A decoding table in use: the array, its first entry and its root bits. */
  datatype Ref = Ref(code: array<Entry>, at: nat, bits: nat)

  datatype Win = Win(wsize: nat, whave: nat, wnext: nat)

  /** The stream and the scalar part of the decoder state. */
  datatype State = State(
    mode: IMode, last: bool, io: Io,
    length: nat, offset: nat, extra: nat, nlen: nat, ndist: nat, ncode: nat, have: nat,
    len: Ref, dist: Ref, win: Win, out: array<byte>, put: nat)

  /** What the proof knows beside the state: bytes pulled and written before the current call, the state of the
      format machine, the sizes of the tables, and whether a table did not fit. */
  datatype Trace = Trace(fed0: seq<byte>, base: seq<byte>, cfg: Config, lenUsed: nat, distUsed: nat)

  predicate UsesTables(m: IMode)
  {
    m == LEN_ || m == LEN || m == LENEXT || m == DIST || m == DISTEXT || m == MATCH || m == LIT
  }

  predicate HasCodes(m: Mode)
  {
    m.Len? || m.LenExt? || m.Dist? || m.DistExt? || m.Match? || m.Lit?
  }

  /** The fields that the mode uses are those of the machine. */
  predicate ModeOk(m: IMode, f: State, c: Mode)
  {
    match m
    case HEAD => c == TypeDo
    case TYPE => c == TypeDo
    case TYPEDO => c == TypeDo
    case STORED => c == StoredHeader
    case COPY_ => c == StoredBytes(f.length)
    case COPY => c == StoredBytes(f.length)
    case TABLE => c == Table
    case LENLENS =>
      f.have <= f.ncode <= 19 && c.LenLens? && c.nlen == f.nlen && c.ndist == f.ndist && c.ncode == f.ncode &&
      |c.cl| == f.have
    case CODELENS => f.have <= 316 && c.CodeLens? && c.nlen == f.nlen && c.ndist == f.ndist && |c.lens| == f.have
    case LEN_ => c.Len?
    case LEN => c.Len?
    case LENEXT => c.LenExt? && c.base == f.length && c.extra == f.extra
    case DIST => c.Dist? && c.length == f.length
    case DISTEXT => c.DistExt? && c.length == f.length && c.base == f.offset && c.extra == f.extra
    case MATCH => c.Match? && c.length == f.length && c.dist == f.offset
    case LIT => c.Lit? && c.b == f.length
    case CHECK => c == Done
    case DONE => c == Done
    case BAD => c == Bad
  }

  // What `ModeOk` says for each mode.

  lemma TypeModes(f: State, c: Mode)
    ensures (ModeOk(HEAD, f, c) <==> c == TypeDo) && (ModeOk(TYPE, f, c) <==> c == TypeDo) &&
            (ModeOk(TYPEDO, f, c) <==> c == TypeDo)
  {
  }

  lemma EndModes(f: State, c: Mode)
    ensures (ModeOk(CHECK, f, c) <==> c == Done) && (ModeOk(DONE, f, c) <==> c == Done) &&
            (ModeOk(BAD, f, c) <==> c == Bad)
  {
  }

  lemma StoredMode(f: State, c: Mode)
    ensures ModeOk(STORED, f, c) <==> c == StoredHeader
  {
  }

  lemma CopyModes(f: State, c: Mode)
    ensures (ModeOk(COPY_, f, c) <==> c == StoredBytes(f.length)) &&
            (ModeOk(COPY, f, c) <==> c == StoredBytes(f.length))
  {
  }

  lemma TableMode(f: State, c: Mode)
    ensures ModeOk(TABLE, f, c) <==> c == Table
  {
  }

  lemma TreeModes(f: State, c: Mode)
    ensures ModeOk(LENLENS, f, c) <==>
            f.have <= f.ncode <= 19 && c.LenLens? && c.nlen == f.nlen && c.ndist == f.ndist && c.ncode == f.ncode &&
            |c.cl| == f.have
    ensures ModeOk(CODELENS, f, c) <==>
              f.have <= 316 && c.CodeLens? && c.nlen == f.nlen && c.ndist == f.ndist && |c.lens| == f.have
  {
  }

  lemma DataModes(f: State, c: Mode)
    ensures (ModeOk(LEN_, f, c) <==> c.Len?) && (ModeOk(LEN, f, c) <==> c.Len?)
    ensures ModeOk(LENEXT, f, c) <==> c.LenExt? && c.base == f.length && c.extra == f.extra
    ensures ModeOk(DIST, f, c) <==> c.Dist? && c.length == f.length
    ensures ModeOk(DISTEXT, f, c) <==> c.DistExt? && c.length == f.length && c.base == f.offset && c.extra == f.extra
    ensures ModeOk(MATCH, f, c) <==> c.Match? && c.length == f.length && c.dist == f.offset
    ensures ModeOk(LIT, f, c) <==> c.Lit? && c.b == f.length
  {
  }

  /** Where the machine stands relative to the `n` bits pulled. */
  predicate PosOk(m: IMode, pos: nat, n: nat, bits: nat)
  {
    if m == BAD then true
    else if m == STORED then bits <= n && pos == Align(n - bits)
    else pos == n - bits && (m == COPY_ || m == COPY || m == CHECK || m == DONE ==> bits == 0)
  }


  /** The buffers of a decoder. */
  class Inflater {
    const lens: array<nat>
    const codes: array<Entry>
    /** The tables of the fixed codes. */
    const fixedLen: array<Entry>
    const fixedDist: array<Entry>
    const fixedLenBits: nat
    const fixedDistBits: nat
    const window: array<byte>
    var s: State
    ghost var g: Trace
    ghost const fixedLenUsed: nat
    ghost const fixedDistUsed: nat

    ghost predicate Shape()
      reads fixedLen, fixedDist
    {
      lens.Length == 320 && codes.Length == ENOUGH && window.Length == WSIZE && codes != fixedLen &&
      codes != fixedDist &&
      TableAt(fixedLen, 0, fixedLenUsed, fixedLenBits, LENS, FixedLit()) &&
      TableAt(fixedDist, 0, fixedDistUsed, fixedDistBits, DISTS, FixedDist())
    }

    /** inflateInit2 for a raw stream with a 15-bit window; the fixed tables are built here. */
    constructor ()
      ensures Shape() && fresh(lens) && fresh(codes) && fresh(window) && fresh(fixedLen) && fresh(fixedDist) &&
              fresh(s.out)
      ensures s.mode == HEAD && !s.last && s.io == Io([], 0, 0, 0) && s.win == Win(0, 0, 0) && s.put == 0 &&
              s.out != window
      ensures s.len.code == codes && s.dist.code == codes && g == Trace([], [], START, 0, 0)
    {
      hide TableFor, Acceptable, FixedLit, FixedDist, TooLarge, TableSize, RootFor, Bounded, Pow2;
      FixedAccepted();
      var fl, fd := new Entry[ENOUGH_LENS](_ => HOLE), new Entry[ENOUGH_DISTS](_ => HOLE);
      var ret, used, root := Build(LENS, FixedLit(), fl, 0, 9);
      var ret2, used2, root2 := Build(DISTS, FixedDist(), fd, 0, 5);
      lens, codes, window := new nat[320], new Entry[ENOUGH](_ => HOLE), new byte[WSIZE];
      fixedLen, fixedLenBits, fixedLenUsed := fl, root, used;
      fixedDist, fixedDistBits, fixedDistUsed := fd, root2, used2;
      var none := new byte[0];
      s := State(HEAD, false, Io([], 0, 0, 0), 0, 0, 0, 0, 0, 0, 0, Ref(codes, 0, 0), Ref(codes, 0, 0), Win(0, 0, 0),
                 none, 0);
      g := Trace([], [], START, 0, 0);
    }
  }

  /** The fixed codes need no second level, so their tables always fit. */
  lemma FixedAccepted()
    ensures Acceptable(LENS, FixedLit()) && Acceptable(DISTS, FixedDist())
    ensures Bounded(FixedLit(), 9) && Bounded(FixedDist(), 5) && Bounded(FixedLit(), MAX_BITS) &&
            Bounded(FixedDist(), MAX_BITS)
    ensures Pow2(9) <= Room(LENS, 9) && Pow2(5) <= Room(DISTS, 5)
  {
    hide FixedLit, FixedDist, Top, Total, Fits;
    FixedValid();
    FixedBounded();
    assert Pow2(5) == 32;
    assert Pow2(9) == 16 * Pow2(5);
  }

  /** The bits of all bytes pulled from the input so far. */
  ghost function Stream(io: Io, fed0: seq<byte>): (b: seq<bool>)
    requires io.next <= |io.input|
    ensures |b| % 8 == 0
  {
    BytesToBits(fed0 + io.input[..io.next])
  }

  /** The bits in the accumulator. */
  ghost function Avail(io: Io): (b: seq<bool>)
    ensures |b| == io.bits
  {
    ToBits(io.hold, io.bits)
  }

  /** The accumulator holds the last bits pulled, and the machine has got to `c` over all of them. */
  ghost predicate Reading(io: Io, fed0: seq<byte>, c: Config)
  {
    io.next <= |io.input| && io.bits <= 32 && Acc(Stream(io, fed0), io.hold, io.bits) &&
    Reaches(Stream(io, fed0), START, c)
  }

  ghost predicate Writing(s: State, g: Trace)
    reads s.out
  {
    s.put <= s.out.Length && g.cfg.out == g.base + s.out[..s.put]
  }

  ghost predicate WindowIs(z: Inflater, s: State, g: Trace)
    reads z.window
  {
    WindowOk(z.window[..], s.win, g.base)
  }

  ghost predicate Tables(len: Ref, dist: Ref, g: Trace, k: Codes)
    reads len.code, dist.code
  {
    TableAt(len.code, len.at, g.lenUsed, len.bits, LENS, k.ll) &&
    TableAt(dist.code, dist.at, g.distUsed, dist.bits, DISTS, k.dl)
  }

  /** The machine stands at the first bit of the accumulator. */
  ghost predicate AtBit(io: Io, fed0: seq<byte>, c: Config)
    requires io.next <= |io.input|
  {
    c.pos == |Stream(io, fed0)| - io.bits
  }

  /** The arrays that the mode uses. */
  ghost predicate ArraysOk(z: Inflater, s: State, g: Trace)
    reads z.lens, s.len.code, s.dist.code
  {
    (UsesTables(s.mode) ==> HasCodes(g.cfg.mode) && Tables(s.len, s.dist, g, g.cfg.mode.k)) &&
    (s.mode == LENLENS ==> LensRead(z, s, g.cfg.mode)) &&
    (s.mode == CODELENS ==> LensUnpacked(z, s, g.cfg.mode) && LengthTable(z, s, g))
  }

  ghost predicate LensRead(z: Inflater, s: State, c: Mode)
    reads z.lens
  {
    z.lens.Length == 320 && s.have <= 19 && c.LenLens? && c.cl == ClRead(z.lens[..], s.have)
  }

  ghost predicate LensUnpacked(z: Inflater, s: State, c: Mode)
    reads z.lens
  {
    s.have <= z.lens.Length && c.CodeLens? && c.lens == z.lens[..s.have]
  }

  /** The table of the code length code is in place. */
  ghost predicate LengthTable(z: Inflater, s: State, g: Trace)
    reads s.len.code
  {
    g.cfg.mode.CodeLens? && s.len.code == z.codes && Bounded(g.cfg.mode.clens, s.len.bits) &&
    TableAt(s.len.code, s.len.at, g.lenUsed, s.len.bits, CODES, g.cfg.mode.clens)
  }

  /** No whole byte is held back that the next step does not need. */
  ghost predicate Lean(io: Io, fed0: seq<byte>, c: Config)
    requires io.next <= |io.input|
  {
    io.bits < 8 || IsStuck(Stream(io, fed0), c)
  }

  /** The part of the invariant about buffers and output. */
  ghost predicate Base(z: Inflater, s: State, g: Trace)
    reads z.fixedLen, z.fixedDist, z.window, s.out
  {
    z.Shape() && z.window != s.out && Writing(s, g) && WindowIs(z, s, g)
  }

  /** Once the data has ended the window may also never have been created. */
  ghost predicate WindowKept(z: Inflater, s: State, g: Trace)
    reads z.window
  {
    WindowIs(z, s, g) || (!Running(s.mode) && s.win == Win(0, 0, 0) && s.put == 0)
  }

  ghost predicate Inv(z: Inflater, s: State, g: Trace)
    reads z.fixedLen, z.fixedDist, z.lens, z.window, s.len.code, s.dist.code, s.out
  {
    z.Shape() && z.window != s.out && s.io.next <= |s.io.input| && s.put <= s.out.Length && WindowKept(z, s, g) &&
    Reading(s.io, g.fed0, g.cfg) && Writing(s, g) &&
    s.last == g.cfg.last && ModeOk(s.mode, s, g.cfg.mode) &&
    PosOk(s.mode, g.cfg.pos, |Stream(s.io, g.fed0)|, s.io.bits) && ArraysOk(z, s, g) &&
    (s.mode != BAD ==> Lean(s.io, g.fed0, g.cfg))
  }

  /** Bits not yet used by the machine. */
  function Budget(io: Io): (n: int) { 8 * (|io.input| - io.next) + io.bits }

  /** Closer to the end of the call. */
  predicate Ahead(t: State, s: State)
  {
    Budget(t.io) < Budget(s.io) || (Budget(t.io) == Budget(s.io) && (t.put > s.put || Rank(t.mode) < Rank(s.mode)))
  }

  /** The same buffers and the same window as before. */
  predicate SameCall(t: State, s: State, h: Trace, g: Trace)
  {
    t.io.input == s.io.input && t.out == s.out && s.put <= t.put && h.fed0 == g.fed0 && h.base == g.base &&
    t.win == s.win
  }

  /** Why a call may end. */
  ghost predicate Idle(s: State, g: Trace, flush: Flush)
    requires s.io.next <= |s.io.input|
  {
    s.mode == DONE || s.mode == BAD ||
    (s.io.next == |s.io.input| && IsStuck(Stream(s.io, g.fed0), g.cfg)) ||
    (s.put == s.out.Length && (s.mode == MATCH || s.mode == LIT || (s.mode == COPY && s.length > 0))) ||
    (s.mode == TYPE && (flush == BLOCK || flush == TREES)) ||
    ((s.mode == LEN_ || s.mode == COPY_) && flush == TREES)
  }

  // ------------------------------------------------------------------ the accumulator

  lemma NextByte(io: Io, fed0: seq<byte>)
    requires io.next < |io.input|
    ensures Stream(io.(next := io.next + 1), fed0) == Stream(io, fed0) + ByteBits(io.input[io.next])
  {
    hide BytesToBits, ByteBits;
    OneByteMore(fed0 + io.input[..io.next], io.input[io.next]);
    assert io.input[..io.next + 1] == io.input[..io.next] + [io.input[io.next]];
    SeqAssoc(fed0, io.input[..io.next], [io.input[io.next]]);
  }

  /** `t` is `s` with more bits in the accumulator. */
  predicate Pulled(t: Io, s: Io)
  {
    t.input == s.input && s.next <= t.next <= |t.input| && t.bits == s.bits + 8 * (t.next - s.next)
  }

  /** PULLBYTE. */
  method PullByte(s: Io, ghost fed0: seq<byte>, ghost c: Config) returns (ok: bool, t: Io)
    requires Reading(s, fed0, c) && s.bits <= 24
    ensures Reading(t, fed0, c) && Pulled(t, s)
    ensures ok ==> t.next == s.next + 1 && Avail(t) == Avail(s) + ByteBits(s.input[s.next])
    ensures ok ==> Stream(t, fed0) == Stream(s, fed0) + ByteBits(s.input[s.next])
    ensures !ok ==> t == s && s.next == |s.input|
  {
    hide Reaches, BytesToBits, ByteBits, Joined, Acc;
    ok, t := s.next < |s.input|, s;
    if ok {
      NextByte(s, fed0);
      AccPull(Stream(s, fed0), s.hold, s.bits, s.input[s.next]);
      ReachStable(Stream(s, fed0), ByteBits(s.input[s.next]), START, c);
      PullAvail(Stream(s, fed0), s.hold, s.bits, s.input[s.next]);
      t := Io(s.input, s.next + 1, Joined(s.hold, s.bits, s.input[s.next]), s.bits + 8);
    }
  }

  /** NEEDBITS: false when the input runs out first. */
  method NeedBits(s: Io, ghost fed0: seq<byte>, ghost c: Config, n: nat) returns (ok: bool, t: Io)
    requires Reading(s, fed0, c) && (n <= 25 || (n == 32 && s.bits % 8 == 0))
    ensures Reading(t, fed0, c) && Pulled(t, s) && |Stream(t, fed0)| - t.bits == |Stream(s, fed0)| - s.bits
    ensures Valid(Stream(t, fed0), c) && t.bits <= |Stream(t, fed0)| && t.bits <= 32
    ensures ok ==> t.bits >= n
    ensures !ok ==> t.bits < n && t.next == |t.input|
    ensures t == s || t.bits < n + 8
  {
    hide Reaches, BytesToBits, Acc, Reading, Stream, Valid;
    ok, t := true, s;
    ReadingRange(s, fed0, c);
    while t.bits < n
      invariant Reading(t, fed0, c) && Pulled(t, s) && |Stream(t, fed0)| - t.bits == |Stream(s, fed0)| - s.bits
      invariant t == s || t.bits < n + 8
      decreases |t.input| - t.next
    {
      ok, t := PullByte(t, fed0, c);
      if !ok { break; }
    }
    ReadingRange(t, fed0, c);
  }

  lemma ReadingRange(s: Io, fed0: seq<byte>, c: Config)
    requires Reading(s, fed0, c)
    ensures s.next <= |s.input| && s.bits <= |Stream(s, fed0)| && s.bits <= 32 && Valid(Stream(s, fed0), c)
  {
    hide BytesToBits, Reaches, Valid;
    ReachValid(Stream(s, fed0), START, c);
  }

  /** DROPBITS. */
  function Dropped(s: Io, n: nat): (t: Io)
    requires n <= s.bits
  {
    s.(hold := Shr(s.hold, n), bits := s.bits - n)
  }

  lemma DropKeeps(s: Io, fed0: seq<byte>, c: Config, n: nat)
    requires Reading(s, fed0, c) && n <= s.bits
    ensures Reading(Dropped(s, n), fed0, c) && Stream(Dropped(s, n), fed0) == Stream(s, fed0)
  {
    hide Acc, BytesToBits, Reaches;
    AccSplit(Stream(s, fed0), s.hold, s.bits, n);
  }

  /** BITS. */
  function Peek(s: Io, n: nat): (v: nat) { Low(s.hold, n) }

  /** INITBITS. */
  function Cleared(s: Io): (t: Io) { s.(hold := 0, bits := 0) }

  lemma ClearKeeps(s: Io, fed0: seq<byte>, c: Config)
    requires Reading(s, fed0, c)
    ensures Reading(Cleared(s), fed0, c) && Stream(Cleared(s), fed0) == Stream(s, fed0)
  {
    hide BytesToBits, Reaches;
    AccEmpty(Stream(s, fed0));
  }

  lemma ReadyAt(s: Io, fed0: seq<byte>, c: Config)
    requires Reading(s, fed0, c) && AtBit(s, fed0, c)
    ensures Here(Stream(s, fed0), c, s.hold, s.bits)
  {
    hide Reaches, Acc, Valid, BytesToBits;
    ReachValid(Stream(s, fed0), START, c);
  }

  /** A step of the machine. */
  lemma Took(s: Io, fed0: seq<byte>, c: Config, d: Config)
    requires Reading(s, fed0, c) && Valid(Stream(s, fed0), c) && Step(Stream(s, fed0), c) == Go(d)
    ensures Reading(s, fed0, d) && Valid(Stream(s, fed0), d)
  {
    hide Reaches, Valid, Step, Acc, BytesToBits;
    Follow(Stream(s, fed0), c, d);
  }

  lemma PullAvail(s: seq<bool>, hold: nat, bits: nat, b: byte)
    requires Acc(s, hold, bits)
    ensures ToBits(Joined(hold, bits, b), bits + 8) == ToBits(hold, bits) + ByteBits(b)
  {
    hide ToBits, Joined;
    Pow2Values();
    Extend(hold, bits, b, 8);
  }
}
