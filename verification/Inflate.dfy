/**
  inflate.c: a call of inflate() on a raw stream, what it leaves for the next call, and why the way the
  buffers are cut does not matter.
*/
module Inflate {
  import opened Bits
  import opened Canonical
  import opened Format
  import opened Runs
  import opened Accumulator
  import opened InflateState
  import opened InflateModes
  import opened InflateTrees
  import opened InflateLens
  import opened InflateData
  import opened InflateOutput
  import opened FastLoop
  import opened Window

  /** Transitions that only rename the mode. */
  predicate Shifts(a: IMode, b: IMode)
  {
    (a == HEAD && b == TYPEDO) || (a == TYPE && b == TYPEDO) || (a == COPY_ && b == COPY) || (a == LEN_ && b == LEN) ||
    (a == CHECK && b == DONE)
  }

  lemma ModeShift(z: Inflater, s: State, g: Trace, b: IMode)
    requires Inv(z, s, g) && Shifts(s.mode, b)
    ensures Inv(z, s.(mode := b), g) && SameCall(s.(mode := b), s, g, g) && Ahead(s.(mode := b), s)
  {
    hide Reading, ModeOk, Stream, TableAt, Lean, Align;
    var t := s.(mode := b);
    TypeModes(s, g.cfg.mode);
    TypeModes(t, g.cfg.mode);
    EndModes(s, g.cfg.mode);
    EndModes(t, g.cfg.mode);
    CopyModes(s, g.cfg.mode);
    CopyModes(t, g.cfg.mode);
    DataModes(s, g.cfg.mode);
    DataModes(t, g.cfg.mode);
  }

  /** One turn of the mode switch. */
  method Turn(z: Inflater, s: State, ghost g: Trace, flush: Flush) returns (leave: bool, t: State, ghost h: Trace)
    requires Inv(z, s, g)
    modifies z.lens, z.codes, s.out
    ensures Inv(z, t, h) && SameCall(t, s, h, g)
    ensures leave ==> s.io.next <= |s.io.input| && t.io.next <= |t.io.input| && Idle(t, h, flush)
    ensures !leave ==> Ahead(t, s)
  {
    hide Inv, Ahead, Stream, IsStuck;
    InvRange(z, s, g);
    leave, t, h := true, s, g;
    match s.mode
    case HEAD => ModeShift(z, s, g, TYPEDO); leave, t := false, s.(mode := TYPEDO);
    case TYPE =>
      if flush == BLOCK || flush == TREES { return; }
      ModeShift(z, s, g, TYPEDO);
      leave, t := false, s.(mode := TYPEDO);
    case TYPEDO => leave, t, h := TypeDoCase(z, s, g, flush); InvRange(z, t, h);
    case STORED => leave, t, h := StoredCase(z, s, g, flush); InvRange(z, t, h);
    case COPY_ => ModeShift(z, s, g, COPY); leave, t := false, s.(mode := COPY);
    case COPY => leave, t, h := CopyCase(z, s, g, flush); InvRange(z, t, h);
    case TABLE => leave, t, h := TableCase(z, s, g, flush); InvRange(z, t, h);
    case LENLENS => leave, t, h := LenLensCase(z, s, g, flush); InvRange(z, t, h);
    case CODELENS => leave, t, h := CodeLensCase(z, s, g, flush); InvRange(z, t, h);
    case LEN_ => ModeShift(z, s, g, LEN); leave, t := false, s.(mode := LEN);
    case LEN =>
      if |s.io.input| - s.io.next >= 6 && s.out.Length - s.put >= 258 {
        t, h := FastCase(z, s, g);
        leave := false;
      } else {
        leave, t, h := LenCase(z, s, g, flush);
      }
      InvRange(z, t, h);
    case LENEXT => leave, t, h := ExtraCase(z, s, g, flush); InvRange(z, t, h);
    case DIST => leave, t, h := DistCase(z, s, g, flush); InvRange(z, t, h);
    case DISTEXT => leave, t, h := ExtraCase(z, s, g, flush); InvRange(z, t, h);
    case MATCH => leave, t, h := MatchCase(z, s, g, flush); InvRange(z, t, h);
    case LIT => leave, t, h := LitCase(z, s, g, flush); InvRange(z, t, h);
    case CHECK => ModeShift(z, s, g, DONE); leave, t := false, s.(mode := DONE);
    case DONE =>
    case BAD =>
  }

  lemma InvRange(z: Inflater, s: State, g: Trace)
    requires Inv(z, s, g)
    ensures s.io.next <= |s.io.input| && s.put <= s.out.Length
    ensures Budget(s.io) >= 0 && z.window != s.out
    ensures allocated(s.out) && allocated(s.len.code) && allocated(s.dist.code)
  {
    hide z.Shape, Reading, ModeOk, Stream, PosOk, ArraysOk, Lean, Writing;
  }

  lemma SameCallTrans(a: State, ga: Trace, b: State, gb: Trace, c: State, gc: Trace)
    requires SameCall(b, a, gb, ga) && SameCall(c, b, gc, gb)
    ensures SameCall(c, a, gc, ga)
  {
  }

  /** The loop of inflate(): turns of the switch until one of them leaves. */
  method Loop(z: Inflater, s0: State, ghost g0: Trace, flush: Flush) returns (s: State, ghost g: Trace)
    requires Inv(z, s0, g0)
    modifies z.lens, z.codes, s0.out
    ensures Inv(z, s, g) && SameCall(s, s0, g, g0) && s.io.next <= |s.io.input| && Idle(s, g, flush)
  {
    hide Inv, Idle, Stream;
    s, g := s0, g0;
    var leave := false;
    InvRange(z, s, g);
    while !leave
      invariant Inv(z, s, g) && SameCall(s, s0, g, g0) && s.io.next <= |s.io.input| && s.put <= s.out.Length &&
                Budget(s.io) >= 0
      invariant leave ==> Idle(s, g, flush)
      invariant allocated(s.out) && allocated(s.len.code) && allocated(s.dist.code)
      decreases !leave, Budget(s.io), s.out.Length - s.put, Rank(s.mode)
    {
      ghost var u, k := s, g;
      leave, s, g := Turn(z, s, g, flush);
      SameCallTrans(s0, g0, u, k, s, g);
      InvRange(z, s, g);
    }
  }

  // ------------------------------------------------------------------ between calls

  /** The state between two calls: nothing of the last buffers is needed any more. */
  ghost predicate Between(z: Inflater)
    reads z, z.fixedLen, z.fixedDist, z.lens, z.window, z.s.len.code, z.s.dist.code, z.s.out
  {
    Inv(z, z.s, z.g) && z.s.io.input == [] && z.s.put == 0
  }

  lemma NewBetween(z: Inflater)
    requires z.Shape() && z.s.mode == HEAD && !z.s.last && z.s.io == Io([], 0, 0, 0) && z.s.win == Win(0, 0, 0) &&
             z.s.put == 0 && z.s.out != z.window
    requires z.g == Trace([], [], START, 0, 0)
    ensures Between(z)
  {
    hide TableAt;
    AccEmpty([]);
    assert BytesToBits([]) == [];
    assert [] + z.s.io.input[..0] == [];
    ReachRefl([], START);
    hide Reaches, Acc, ModeOk;
    TypeModes(z.s, z.g.cfg.mode);
    assert [] + z.s.out[..0] == [];
  }

  /** New buffers for the next call. */
  lemma Begin(z: Inflater, s: State, g: Trace, input: seq<byte>, out: array<byte>, t: State)
    requires Inv(z, s, g) && s.io.input == [] && s.put == 0 && out != z.window
    requires t
             == s.(io := Io(input, 0, s.io.hold, s.io.bits), out := out,
                   mode := if s.mode == TYPE then TYPEDO else s.mode)
    ensures Inv(z, t, g)
  {
    hide z.Shape, ModeOk, TableAt, BytesToBits, Reaches, Acc, Align, IsStuck, WindowOk;
    assert s.io.input[..s.io.next] == input[..0];
    assert s.out[..0] == out[..0];
    TypeModes(s, g.cfg.mode);
    TypeModes(t, g.cfg.mode);
    SameFields(s, t, g.cfg.mode);
  }

  lemma SameFields(s: State, t: State, c: Mode)
    requires ModeOk(s.mode, s, c) && t == s.(io := t.io, out := t.out, mode := t.mode) &&
             (t.mode == s.mode || (s.mode == TYPE && t.mode == TYPEDO))
    ensures ModeOk(t.mode, t, c)
  {
  }

  datatype Return = Z_OK | Z_STREAM_END | Z_DATA_ERROR | Z_BUF_ERROR

  /** The return code: a call that could neither read nor write reports a buffer error. */
  function ReturnOf(m: IMode, consumed: nat, written: nat, flush: Flush): (r: Return)
  {
    if m == DONE then Z_STREAM_END
    else if m == BAD then Z_DATA_ERROR
    else if (consumed == 0 && written == 0) || flush == FINISH then Z_BUF_ERROR
    else Z_OK
  }

  /** inf_leave: whether the window is to be updated. */
  predicate NeedsWindow(s: State, flush: Flush)
  {
    s.win.wsize != 0 || (s.put != 0 && s.mode != BAD && (Running(s.mode) || flush != FINISH))
  }

  /** What is kept of the state after a call. */
  lemma End(z: Inflater, s: State, g: Trace, t: State, h: Trace)
    requires z.Shape() && z.window != s.out && s.io.next <= |s.io.input| && s.put <= s.out.Length && WindowKept(z, t, h)
    requires Writing(s, g) && Settled(z, s, g)
    requires t == s.(io := Io([], 0, s.io.hold, s.io.bits), put := 0, win := t.win)
    requires h == g.(fed0 := g.fed0 + s.io.input[..s.io.next], base := g.base + s.out[..s.put])
    ensures Inv(z, t, h)
  {
    hide z.Shape, ModeOk, TableAt, BytesToBits, Reaches, Acc, Align, IsStuck, WindowKept, ArraysOk;
    assert t.io.input[..0] == [] && h.fed0 + [] == h.fed0;
    assert t.out[..0] == [] && h.base + [] == h.base;
    EndFields(s, t, g.cfg.mode);
    EndArrays(z, s, g, t, h);
  }

  lemma EndArrays(z: Inflater, s: State, g: Trace, t: State, h: Trace)
    requires ArraysOk(z, s, g) && t.mode == s.mode && t.have == s.have && t.len == s.len && t.dist == s.dist
    requires h.cfg == g.cfg && h.lenUsed == g.lenUsed && h.distUsed == g.distUsed
    ensures ArraysOk(z, t, h)
  {
    hide TableAt, Bounded;
  }

  lemma EndFields(s: State, t: State, c: Mode)
    requires ModeOk(s.mode, s, c) && t == s.(io := t.io, put := t.put, win := t.win)
    ensures ModeOk(t.mode, t, c)
  {
  }

  /** The part of the invariant about reading and decoding. */
  ghost predicate Settled(z: Inflater, s: State, g: Trace)
    reads z.lens, s.len.code, s.dist.code
  {
    s.io.next <= |s.io.input| && Reading(s.io, g.fed0, g.cfg) && s.last == g.cfg.last &&
    ModeOk(s.mode, s, g.cfg.mode) &&
    PosOk(s.mode, g.cfg.pos, |Stream(s.io, g.fed0)|, s.io.bits) && ArraysOk(z, s, g) &&
    (s.mode != BAD ==> Lean(s.io, g.fed0, g.cfg))
  }

  lemma Parts(z: Inflater, s: State, g: Trace)
    requires Inv(z, s, g)
    ensures z.Shape() && z.window != s.out && s.io.next <= |s.io.input| && s.put <= s.out.Length && WindowKept(z, s, g)
    ensures Writing(s, g) && Settled(z, s, g)
  {
    hide z.Shape, ModeOk, TableAt, Stream, Reading, Align, IsStuck, WindowOk, PosOk, ArraysOk, Lean, Writing;
  }

  /** Copies the output of the call to the window when it is needed later. */
  method KeepWindow(z: Inflater, s: State, ghost g: Trace, flush: Flush) returns (win: Win)
    requires z.window != s.out && s.put <= s.out.Length && WindowKept(z, s, g)
    modifies z.window
    ensures WindowKept(z, s.(win := win, put := 0), g.(base := g.base + s.out[..s.put]))
    ensures Running(s.mode) ==> WindowOk(z.window[..], win, g.base + s.out[..s.put])
  {
    hide Holds;
    win := s.win;
    assert s.put == 0 ==> g.base + s.out[..s.put] == g.base;
    if NeedsWindow(s, flush) {
      if win.wsize == 0 {
        FreshWindow(z.window[..]);
        win := Win(WSIZE, 0, 0);
      }
      var wnext, whave := UpdateWindow(z.window, win.wnext, win.whave, s.out, s.put, s.put, g.base);
      assert s.out[s.put - s.put..s.put] == s.out[..s.put];
      win := Win(WSIZE, whave, wnext);
    }
  }

  lemma FreshWindow(w: seq<byte>)
    requires |w| == WSIZE
    ensures Holds(w, 0, 0, [])
  {
  }

  // ------------------------------------------------------------------ a call

  /** Nothing more can be done with the buffers of this call. */
  ghost predicate Stopped(z: Inflater, input: seq<byte>, consumed: nat, space: nat, written: nat, flush: Flush)
    reads z
  {
    z.s.mode == DONE || z.s.mode == BAD ||
    (consumed == |input| && IsStuck(BytesToBits(z.g.fed0), z.g.cfg)) ||
    (written == space && (z.s.mode == MATCH || z.s.mode == LIT || (z.s.mode == COPY && z.s.length > 0))) ||
    (z.s.mode == TYPE && (flush == BLOCK || flush == TREES)) ||
    ((z.s.mode == LEN_ || z.s.mode == COPY_) && flush == TREES)
  }

  /** inflate(): reads from `input`, writes to `out`, and keeps what a later call needs. */
  method Call(z: Inflater, input: seq<byte>, out: array<byte>, flush: Flush)
    returns (ret: Return, consumed: nat, written: nat)
    requires Between(z) && out != z.window
    modifies z, z.lens, z.codes, z.window, out
    ensures Between(z) && consumed <= |input| && written <= out.Length
    ensures z.g.fed0 == old(z.g.fed0) + input[..consumed] && z.g.base == old(z.g.base) + out[..written]
    ensures Stopped(z, input, consumed, out.Length, written, flush)
    ensures ret == ReturnOf(z.s.mode, consumed, written, flush) && z.s.out == out
    ensures (ret == Z_STREAM_END <==> z.s.mode == DONE) && (ret == Z_DATA_ERROR <==> z.s.mode == BAD)
    ensures ret == Z_BUF_ERROR <==>
              z.s.mode != DONE && z.s.mode != BAD && ((consumed == 0 && written == 0) || flush == FINISH)
    ensures Running(z.s.mode) ==> WindowOk(z.window[..], z.s.win, z.g.base)
  {
    hide Inv, Idle, Stream, IsStuck, WindowKept, z.Shape, Settled, Writing, WindowOk;
    var s := z.s.(io := Io(input, 0, z.s.io.hold, z.s.io.bits), out := out,
                  mode := if z.s.mode == TYPE then TYPEDO else z.s.mode);
    Begin(z, z.s, z.g, input, out, s);
    ghost var g0 := z.g;
    ghost var g;
    s, g := Loop(z, s, g0, flush);
    InvRange(z, s, g);
    Parts(z, s, g);
    consumed, written := s.io.next, s.put;
    var win := KeepWindow(z, s, g, flush);
    ghost var t, h := s.(io := Io([], 0, s.io.hold, s.io.bits), put := 0, win := win),
                      g.(fed0 := g.fed0 + s.io.input[..s.io.next], base := g.base + s.out[..s.put]);
    KeptSame(z, s.(win := win, put := 0), g.(base := g.base + s.out[..s.put]), t, h);
    End(z, s, g, t, h);
    ret := ReturnOf(s.mode, consumed, written, flush);
    z.s, z.g := s.(io := Io([], 0, s.io.hold, s.io.bits), put := 0, win := win), h;
    IdleStops(z, s, g, flush);
  }

  lemma KeptSame(z: Inflater, s: State, g: Trace, t: State, h: Trace)
    requires WindowKept(z, s, g) && t.win == s.win && t.put == s.put && t.mode == s.mode && h.base == g.base
    ensures WindowKept(z, t, h)
  {
    hide WindowOk;
  }

  lemma IdleStops(z: Inflater, s: State, g: Trace, flush: Flush)
    requires s.io.next <= |s.io.input| && Idle(s, g, flush) && z.s.mode == s.mode && z.s.length == s.length &&
             z.g.cfg == g.cfg
    requires z.g.fed0 == g.fed0 + s.io.input[..s.io.next]
    ensures Stopped(z, s.io.input, s.io.next, s.out.Length, s.put, flush)
  {
    hide IsStuck, BytesToBits;
  }

  /** inflateGetDictionary: the last bytes of the output, in order.  A stream that ended or failed before a window was
      needed has no dictionary. */
  method GetDictionaryOf(z: Inflater, dictionary: array<byte>) returns (length: nat)
    requires Between(z) && dictionary != z.window && dictionary != z.s.out && dictionary.Length >= WSIZE
    modifies dictionary
    ensures length == (if !Running(z.s.mode) && z.s.win.wsize == 0 then 0
                       else if |z.g.base| < WSIZE then |z.g.base| else WSIZE)
    ensures dictionary[..length] == z.g.base[|z.g.base| - length..] && dictionary[length..] == old(dictionary[length..])
  {
    hide Holds, z.Shape, Reading, ModeOk, PosOk, ArraysOk, Lean, Writing, Stream;
    length := z.s.win.whave;
    assert z.g.base[|z.g.base|..] == [];
    if z.s.win.wsize != 0 || Running(z.s.mode) { WholeWindow(z.window[..], z.s.win, z.g.base); }
    if length != 0 {
      GetDictionary(z.window, z.s.win.wnext, z.s.win.whave, dictionary, z.g.base);
    }
  }

  lemma WholeWindow(w: seq<byte>, n: Win, h: seq<byte>)
    requires WindowOk(w, n, h)
    ensures n.whave == (if |h| < WSIZE then |h| else WSIZE) && (n.whave != 0 ==> Holds(w, n.whave, n.wnext, h))
  {
  }

  // ------------------------------------------------------------------ cutting does not matter

  /** The machine reached `g.cfg` over all bytes pulled, and its output is the output of all calls. */
  ghost predicate Follows(g: Trace)
  {
    Reaches(BytesToBits(g.fed0), START, g.cfg) && g.cfg.out == g.base
  }

  lemma BetweenFollows(z: Inflater)
    requires Between(z)
    ensures Follows(z.g) && (z.s.mode == DONE ==> z.g.cfg.mode == Done) && (z.s.mode == BAD ==> z.g.cfg.mode == Bad)
  {
    hide z.Shape, BytesToBits, Reaches, Acc, ModeOk, PosOk, ArraysOk, Lean, WindowKept;
    assert z.s.io.input[..z.s.io.next] == [];
    assert z.g.fed0 + [] == z.g.fed0;
    assert z.s.out[..0] == [] && z.g.base + [] == z.g.base;
    EndModes(z.s, z.g.cfg.mode);
  }

  /** Just-enough reading: between calls fewer than eight bits are held back unless the next step needs more than
      there are, and at the end of the stream no byte behind it has been taken. */
  lemma JustEnough(z: Inflater)
    requires Between(z) && z.s.mode != BAD
    ensures z.s.io.bits < 8 || IsStuck(BytesToBits(z.g.fed0), z.g.cfg)
    ensures z.s.mode == DONE ==> 8 * |z.g.fed0| == z.g.cfg.pos
  {
    hide z.Shape, BytesToBits, Reaches, Acc, ModeOk, ArraysOk, WindowKept, IsStuck;
    assert z.s.io.input[..z.s.io.next] == [];
    assert z.g.fed0 + [] == z.g.fed0;
  }

  /** A run over `data` that has come to its end: done, in error, or out of input. */
  ghost predicate AtRest(g: Trace, data: seq<byte>)
  {
    g.fed0 <= data &&
    (g.cfg.mode == Done || g.cfg.mode == Bad || (g.fed0 == data && IsStuck(BytesToBits(data), g.cfg)))
  }

  lemma PrefixRun(g: Trace, data: seq<byte>)
    requires Follows(g) && g.fed0 <= data
    ensures Reaches(BytesToBits(data), START, g.cfg)
  {
    hide Reaches, BytesToBits;
    var more := data[|g.fed0|..];
    assert data == g.fed0 + more;
    BytesToBitsAppend(g.fed0, more);
    ReachStable(BytesToBits(g.fed0), BytesToBits(more), START, g.cfg);
  }

  lemma RestIsStuck(g: Trace, data: seq<byte>)
    requires Follows(g) && AtRest(g, data)
    ensures IsStuck(BytesToBits(data), g.cfg)
  {
    hide Reaches, BytesToBits, Valid, Step;
    PrefixRun(g, data);
    ReachValid(BytesToBits(data), START, g.cfg);
    if g.cfg.mode == Done || g.cfg.mode == Bad { NotTerminal(BytesToBits(data), g.cfg); }
  }

  /** However two runs over the same data were cut into calls, they end in the same state with the same output. */
  lemma CuttingDoesNotMatter(g1: Trace, g2: Trace, data: seq<byte>)
    requires Follows(g1) && Follows(g2) && AtRest(g1, data) && AtRest(g2, data)
    ensures g1.cfg == g2.cfg && g1.base == g2.base
  {
    hide Reaches, BytesToBits, Valid, Step;
    PrefixRun(g1, data);
    PrefixRun(g2, data);
    RestIsStuck(g1, data);
    RestIsStuck(g2, data);
    ReachUnique(BytesToBits(data), START, g1.cfg, g2.cfg);
  }

  /** At any time the output of one run is a prefix of the output of the other. */
  lemma OutputsAgree(g1: Trace, g2: Trace, data: seq<byte>)
    requires Follows(g1) && Follows(g2) && g1.fed0 <= data && g2.fed0 <= data
    ensures g1.base <= g2.base || g2.base <= g1.base
  {
    hide Reaches, BytesToBits;
    PrefixRun(g1, data);
    PrefixRun(g2, data);
    ReachLinear(BytesToBits(data), START, g1.cfg, g2.cfg);
    if Reaches(BytesToBits(data), g1.cfg, g2.cfg) {
      ReachGrows(BytesToBits(data), g1.cfg, g2.cfg);
    } else {
      ReachGrows(BytesToBits(data), g2.cfg, g1.cfg);
    }
  }

  /** One call of a run: how much input to offer, how much output space, and the flush mode. */
  datatype Piece = Piece(take: nat, space: nat, flush: Flush)

  /** Decodes `data` in the given pieces; `used` bytes of it are taken. */
  method RunPieces(z: Inflater, data: seq<byte>, pieces: seq<Piece>) returns (output: seq<byte>, used: nat)
    requires Between(z) && z.g.fed0 == [] && z.g.base == []
    modifies z, z.lens, z.codes, z.window, z.s.out
    ensures Between(z) && output == z.g.base && used <= |data| && z.g.fed0 == data[..used]
    ensures z.s.out == old(z.s.out) || fresh(z.s.out)
  {
    hide Inv, IsStuck, BytesToBits;
    output, used := [], 0;
    var i := 0;
    while i < |pieces|
      invariant 0 <= i <= |pieces| && 0 <= used <= |data| && Between(z) && z.g.fed0 == data[..used] &&
                output == z.g.base
      invariant z.s.out == old(z.s.out) || fresh(z.s.out)
    {
      var p := pieces[i];
      var take := if used + p.take > |data| then |data| - used else p.take;
      var ret, more;
      ret, more, used := OnePiece(z, data, used, take, p.space, p.flush);
      output, i := output + more, i + 1;
    }
  }

  /** One call, with `take` bytes of `data` on offer and a fresh buffer. */
  method OnePiece(z: Inflater, data: seq<byte>, pos: nat, take: nat, space: nat, flush: Flush)
    returns (ret: Return, more: seq<byte>, next: nat)
    requires Between(z) && pos + take <= |data| && z.g.fed0 == data[..pos]
    modifies z, z.lens, z.codes, z.window, z.s.out
    ensures Between(z) && pos <= next <= pos + take && z.g.fed0 == data[..next] && z.g.base == old(z.g.base) + more &&
            |more| <= space && fresh(z.s.out)
    ensures Stopped(z, data[pos..pos + take], next - pos, space, |more|, flush) &&
            ret == ReturnOf(z.s.mode, next - pos, |more|, flush)
  {
    hide Inv, IsStuck, BytesToBits, Stopped;
    InvRange(z, z.s, z.g);
    var out := new byte[space];
    var consumed, written;
    ret, consumed, written := Call(z, data[pos..pos + take], out, flush);
    more, next := out[..written], pos + consumed;
    assert data[..pos] + data[pos..pos + take][..consumed] == data[..next];
  }

  /** Decodes `data`, first in the given pieces and then in calls that offer all the rest and `space` bytes each, until
      the run comes to its end.  It always does. */
  method Unpack(z: Inflater, data: seq<byte>, pieces: seq<Piece>, space: nat) returns (output: seq<byte>)
    requires Between(z) && z.g.fed0 == [] && z.g.base == [] && space > 0
    modifies z, z.lens, z.codes, z.window, z.s.out
    ensures Between(z) && output == z.g.base && z.g.fed0 <= data
    ensures Follows(z.g) && AtRest(z.g, data)
  {
    hide Inv, Follows, AtRest, IsStuck, BytesToBits, Between;
    var used;
    output, used := RunPieces(z, data, pieces);
    while true
      invariant Between(z) && 0 <= used <= |data| && z.g.fed0 == data[..used] && output == z.g.base
      invariant z.s.out == old(z.s.out) || fresh(z.s.out)
      decreases 2064 * |data| - |output|
    {
      ghost var before := output;
      var ret, more;
      ret, more, used := OnePiece(z, data, used, |data| - used, space, NO_FLUSH);
      output := output + more;
      if ret == Z_STREAM_END || ret == Z_DATA_ERROR || |more| < space {
        CameToRest(z, data, used, |more|, space);
        return;
      }
      OutputBound(z, data, used);
    }
  }

  lemma CameToRest(z: Inflater, data: seq<byte>, used: nat, written: nat, space: nat)
    requires Between(z) && used <= |data| && z.g.fed0 == data[..used]
    requires (z.s.mode == DONE || z.s.mode == BAD) || (used == |data| && IsStuck(BytesToBits(z.g.fed0), z.g.cfg))
    ensures Follows(z.g) && AtRest(z.g, data)
  {
    hide Inv, Follows, IsStuck, BytesToBits;
    BetweenFollows(z);
    assert used == |data| ==> data[..used] == data;
  }

  /** A run that goes on has no more output than its input can stand for. */
  lemma OutputBound(z: Inflater, data: seq<byte>, used: nat)
    requires Between(z) && z.s.mode != BAD && used <= |data| && z.g.fed0 == data[..used]
    ensures |z.g.base| <= 2064 * |data|
  {
    hide Inv, Reaches, BytesToBits;
    InvRange(z, z.s, z.g);
    BetweenFollows(z);
    ReachBound(BytesToBits(z.g.fed0), z.g.cfg);
  }
}
