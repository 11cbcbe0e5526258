/**
  inflate.c, modes LENLENS and CODELENS: reading the code lengths of a dynamic block and building its
  decoding tables.
*/
module InflateTrees {
  import opened Bits
  import opened Canonical
  import opened InflateTable
  import opened Format
  import opened InflateSteps
  import opened InflateState
  import opened InflateModes

  // ------------------------------------------------------------------ LENLENS

  lemma OrderInjective(i: nat, j: nat)
    requires i < j < 19
    ensures ORDER[i] < 19 && ORDER[j] < 19 && ORDER[i] != ORDER[j]
  {
    assert RANK[ORDER[i]] == i && RANK[ORDER[j]] == j;
  }

  lemma OrderInside(i: nat)
    requires i < 19
    ensures |ORDER| == 19 && ORDER[i] < 19
  {
  }

  lemma ClReadStep(lens: seq<nat>, have: nat, v: nat)
    requires |lens| >= 19 && have < 19
    ensures |ORDER| == 19 && ORDER[have] < 19 && ClRead(lens[ORDER[have] := v], have + 1) == ClRead(lens, have) + [v]
  {
    OrderInside(have);
    hide ORDER;
    var a, b := ClRead(lens[ORDER[have] := v], have + 1), ClRead(lens, have) + [v];
    forall i | 0 <= i < have ensures a[i] == b[i] { OrderInjective(i, have); }
  }

  /** The lengths with all values that were not sent set to zero are those the machine sees. */
  lemma ClComplete(lens: seq<nat>, have: nat)
    requires |lens| >= 19 && have <= 19
    requires |ORDER| == 19 && forall r :: have <= r < 19 ==> ORDER[r] < 19 && lens[ORDER[r]] == 0
    ensures lens[..19] == ClensOf(ClRead(lens, have))
  {
    forall s | 0 <= s < 19 ensures lens[s] == ClensOf(ClRead(lens, have))[s] {
      assert ORDER[RANK[s]] == s && RANK[s] < 19;
    }
  }

  /** Clears the lengths that were not sent. */
  method ZeroRest(lens: array<nat>, have0: nat)
    requires lens.Length == 320 && have0 <= 19
    modifies lens
    ensures ClRead(lens[..], have0) == old(ClRead(lens[..], have0)) &&
            lens[..19] == ClensOf(old(ClRead(lens[..], have0)))
  {
    var have := have0;
    hide ORDER;
    ghost var cl := ClRead(lens[..], have0);
    while have < 19
      invariant have0 <= have <= 19 && lens.Length == 320 && ClRead(lens[..], have0) == cl
      invariant forall r :: have0 <= r < have ==> |ORDER| == 19 && ORDER[r] < 19 && lens[ORDER[r]] == 0
    {
      ghost var was := lens[..];
      OrderInside(have);
      KeepCl(was, have0, have, 0);
      lens[ORDER[have]] := 0;
      assert lens[..] == was[ORDER[have] := 0];
      forall r | have0 <= r < have ensures lens[ORDER[r]] == 0 { OrderInjective(r, have); }
      have := have + 1;
    }
    OrderInside(0);
    ClComplete(lens[..], have0);
    assert lens[..19] == lens[..][..19];
  }

  lemma KeepCl(lens: seq<nat>, have0: nat, have: nat, v: nat)
    requires |lens| >= 19 && have0 <= have < 19 && |ORDER| == 19 && ORDER[have] < 19
    ensures ClRead(lens[ORDER[have] := v], have0) == ClRead(lens, have0)
  {
    hide ORDER;
    var a, b := ClRead(lens[ORDER[have] := v], have0), ClRead(lens, have0);
    forall i | 0 <= i < have0 ensures a[i] == b[i] { OrderInside(i); OrderInjective(i, have); }
  }

  /** The machine while `have` values of the code length code have been read. */
  ghost predicate ReadingCl(io: Io, fed0: seq<byte>, c: Config, lens: seq<nat>, nlen: nat, ndist: nat, ncode: nat,
                            have: nat)
  {
    Reading(io, fed0, c) && AtBit(io, fed0, c) && Lean(io, fed0, c) && have <= ncode <= 19 && |lens| == 320 &&
    c.mode == LenLens(nlen, ndist, ncode, ClRead(lens, have))
  }

  lemma ClStep(io: Io, fed0: seq<byte>, c: Config, lens: seq<nat>, nlen: nat, ndist: nat, ncode: nat, have: nat)
    returns (d: Config)
    requires Reading(io, fed0, c) && AtBit(io, fed0, c) && have < ncode <= 19 && |lens| == 320 && 3 <= io.bits < 11
    requires c.mode == LenLens(nlen, ndist, ncode, ClRead(lens, have))
    ensures |ORDER| == 19 && ORDER[have] < 19 && d.out == c.out && d.last == c.last
    ensures ReadingCl(Dropped(io, 3), fed0, d, lens[ORDER[have] := Peek(io, 3)], nlen, ndist, ncode, have + 1)
  {
    hide Reaches, BytesToBits, Valid, Step, Low, Shr, START, Here, Reading, Stream, Field, ClRead, ORDER;
    ReadyAt(io, fed0, c);
    ReadingRange(io, fed0, c);
    LenLensStuck(Stream(io, fed0), c, io.hold, io.bits);
    d := Step(Stream(io, fed0), c).c;
    Took(io, fed0, c, d);
    DropKeeps(io, fed0, d, 3);
    ClReadStep(lens, have, Peek(io, 3));
    ReadingRange(Dropped(io, 3), fed0, d);
  }

  lemma ClNeed(io: Io, fed0: seq<byte>, c: Config, lens: seq<nat>, nlen: nat, ndist: nat, ncode: nat, have: nat)
    requires ReadingCl(io, fed0, c, lens, nlen, ndist, ncode, have) && have < ncode
    ensures io.next <= |io.input| && io.bits < 8
  {
    hide Reaches, BytesToBits, Valid, Step, Low, START, Here, Reading, Stream, Field, ClRead;
    ReadyAt(io, fed0, c);
    ReadingRange(io, fed0, c);
    LenLensStuck(Stream(io, fed0), c, io.hold, io.bits);
  }

  lemma ClWait(io: Io, t: Io, fed0: seq<byte>, c: Config, lens: seq<nat>, nlen: nat, ndist: nat, ncode: nat, have: nat)
    requires ReadingCl(io, fed0, c, lens, nlen, ndist, ncode, have) && have < ncode && Reading(t, fed0, c) && t.bits < 3
    requires t.next <= |t.input| && io.next <= |io.input| && |Stream(t, fed0)| - t.bits == |Stream(io, fed0)| - io.bits
    ensures ReadingCl(t, fed0, c, lens, nlen, ndist, ncode, have) && IsStuck(Stream(t, fed0), c)
  {
    hide Reaches, BytesToBits, Valid, Step, Low, START, Here, Reading, Stream, Field, ClRead;
    ReadyAt(t, fed0, c);
    ReadingRange(t, fed0, c);
    LenLensStuck(Stream(t, fed0), c, t.hold, t.bits);
  }

  /** Reads the values of the code length code that are sent. */
  method ReadClens(lens: array<nat>, s: Io, ghost fed0: seq<byte>, ghost c0: Config, nlen: nat, ndist: nat, ncode: nat,
                   have0: nat)
    returns (ok: bool, io: Io, have: nat, ghost c: Config)
    requires lens.Length == 320 && ReadingCl(s, fed0, c0, lens[..], nlen, ndist, ncode, have0)
    modifies lens
    ensures lens.Length == 320 && ReadingCl(io, fed0, c, lens[..], nlen, ndist, ncode, have) && have0 <= have
    ensures io.input == s.input && s.next <= io.next <= |io.input| && Budget(io) <= Budget(s) && c.out == c0.out &&
            c.last == c0.last
    ensures ok ==> have == ncode
    ensures !ok ==> io.next == |io.input| && IsStuck(Stream(io, fed0), c)
  {
    hide ReadingCl, Reading, IsStuck, Stream, ORDER, Peek, Valid;
    ok, io, have, c := true, s, have0, c0;
    ClRange(s, fed0, c0, lens[..], nlen, ndist, ncode, have0);
    while have < ncode
      invariant have0 <= have <= ncode && lens.Length == 320 &&
                ReadingCl(io, fed0, c, lens[..], nlen, ndist, ncode, have)
      invariant io.input == s.input && s.next <= io.next <= |io.input| && Budget(io) <= Budget(s) && c.out == c0.out &&
                c.last == c0.last
    {
      ghost var was := lens[..];
      ClRange(io, fed0, c, was, nlen, ndist, ncode, have);
      ClNeed(io, fed0, c, was, nlen, ndist, ncode, have);
      var t;
      ok, t := NeedBits(io, fed0, c, 3);
      if !ok {
        ClWait(io, t, fed0, c, was, nlen, ndist, ncode, have);
        io := t;
        return;
      }
      c := ClStep(t, fed0, c, was, nlen, ndist, ncode, have);
      lens[ORDER[have]] := Peek(t, 3);
      assert lens[..] == was[ORDER[have] := Peek(t, 3)];
      io := Dropped(t, 3);
      have := have + 1;
    }
  }

  lemma ClRange(io: Io, fed0: seq<byte>, c: Config, lens: seq<nat>, nlen: nat, ndist: nat, ncode: nat, have: nat)
    requires ReadingCl(io, fed0, c, lens, nlen, ndist, ncode, have)
    ensures io.next <= |io.input| && Reading(io, fed0, c) && AtBit(io, fed0, c) && Lean(io, fed0, c) &&
            have <= ncode <= 19 && |lens| == 320
    ensures c.mode == LenLens(nlen, ndist, ncode, ClRead(lens, have))
  {
    hide Reading;
    ReadingRange(io, fed0, c);
  }

  lemma BaseParts(z: Inflater, s: State, g: Trace)
    requires Base(z, s, g)
    ensures z.codes != z.fixedLen && z.codes != z.fixedDist && z.lens.Length == 320 && z.codes.Length == ENOUGH
  {
    hide TableAt;
  }

  lemma OpenLenLens(z: Inflater, s: State, g: Trace)
    requires Inv(z, s, g) && s.mode == LENLENS
    ensures z.lens.Length == 320 && ReadingCl(s.io, g.fed0, g.cfg, z.lens[..], s.nlen, s.ndist, s.ncode, s.have)
  {
    hide Reading, ModeOk, TableAt, Stream, Lean;
    TreeModes(s, g.cfg.mode);
  }

  /** Closes a case that ends in CODELENS. */
  lemma CloseCodeLens(z: Inflater, s: State, g: Trace, t: State, h: Trace)
    requires Base(z, s, g) && Quiet(t, s, h, g) && Reading(t.io, h.fed0, h.cfg) && t.io.next <= |t.io.input|
    requires t.last == h.cfg.last && t.mode == CODELENS && ModeOk(CODELENS, t, h.cfg.mode) &&
             Lean(t.io, h.fed0, h.cfg) && AtBit(t.io, h.fed0, h.cfg)
    requires LensUnpacked(z, t, h.cfg.mode) && LengthTable(z, t, h)
    ensures Inv(z, t, h) && SameCall(t, s, h, g)
  {
    hide IsStuck, Reading, ModeOk, Align, TableAt, WindowOk, Stream, Lean, LensUnpacked, LengthTable;
  }

  /** Builds the table of the code length code. */
  method BuildClens(z: Inflater, ghost cl: seq<nat>) returns (good: bool, used: nat, root: nat)
    requires z.lens.Length == 320 && z.codes.Length == ENOUGH && |cl| <= 19 && Bounded(cl, 7) &&
             z.lens[..19] == ClensOf(cl)
    modifies z.codes
    ensures good <==> Acceptable(CODES, ClensOf(cl))
    ensures good ==> TableAt(z.codes, 0, used, root, CODES, ClensOf(cl)) && Bounded(ClensOf(cl), root)
  {
    hide Acceptable, TableFor, ClensOf, Pow2;
    Pow2Values();
    ClensBounded(cl, 7);
    var ret;
    ret, used, root := Build(CODES, z.lens[..19], z.codes, 0, 7);
    good := ret == 0;
  }

  lemma ClBounded(s: seq<bool>, c: Config)
    requires Valid(s, c) && c.mode.LenLens?
    ensures Bounded(c.mode.cl, 7) && |c.mode.cl| <= 19
  {
  }

  lemma ClDone(io: Io, fed0: seq<byte>, c: Config, good: bool)
    requires Reading(io, fed0, c) && AtBit(io, fed0, c) && c.mode.LenLens? && |c.mode.cl| == c.mode.ncode <= 19 &&
             Lean(io, fed0, c)
    requires good <==> Acceptable(CODES, ClensOf(c.mode.cl))
    ensures io.next <= |io.input| && io.bits < 8
    ensures Reading(io, fed0, AfterCl(c, good))
  {
    hide Reaches, BytesToBits, Valid, Step, START, Reading, Stream, Acceptable, ClensOf;
    ReadingRange(io, fed0, c);
    LenLensDone(Stream(io, fed0), c);
    Took(io, fed0, c, AfterCl(c, good));
  }

  ghost function AfterCl(c: Config, good: bool): (d: Config)
    requires c.mode.LenLens? && |c.mode.cl| <= 19
  {
    if good then c.(mode := CodeLens(c.mode.nlen, c.mode.ndist, ClensOf(c.mode.cl), []))
    else Config(c.last, Bad, 0, c.out)
  }

  /** Case LENLENS: the code length code. */
  method LenLensCase(z: Inflater, s: State, ghost g: Trace, flush: Flush)
    returns (leave: bool, t: State, ghost h: Trace)
    requires Inv(z, s, g) && s.mode == LENLENS
    modifies z.lens, z.codes
    ensures Inv(z, t, h) && SameCall(t, s, h, g)
    ensures leave ==> Idle(t, h, flush)
    ensures !leave ==> Ahead(t, s)
  {
    hide Reaches, BytesToBits, Valid, Step, Low, Shr, START, ModeOk, PosOk, Here, Inv, Reading, Stream, Field, Align,
         TableAt, Base;
    hide ReadingCl, ClRead, ClensOf, Acceptable, Lean, AtBit, IsStuck;
    Open(z, s, g);
    BaseParts(z, s, g);
    OpenLenLens(z, s, g);
    var ok, io, have;
    ghost var c;
    ok, io, have, c := ReadClens(z.lens, s.io, g.fed0, g.cfg, s.nlen, s.ndist, s.ncode, s.have);
    h := g.(cfg := c);
    ClRange(io, g.fed0, c, z.lens[..], s.nlen, s.ndist, s.ncode, have);
    if !ok {
      t := s.(io := io, have := have);
      TreeModes(t, h.cfg.mode);
      CloseLenLens(z, s, g, t, h);
      return true, t, h;
    }
    t, h := FinishClens(z, s, g, io, have, c);
    return false, t, h;
  }

  /** All values of the code length code are there: builds its table. */
  method FinishClens(z: Inflater, s: State, ghost g: Trace, io: Io, have: nat, ghost c: Config)
    returns (t: State, ghost h: Trace)
    requires Base(z, s, g) && s.mode == LENLENS && s.last == g.cfg.last && have == s.ncode
    requires z.codes != z.fixedLen && z.codes != z.fixedDist && z.lens.Length == 320 && z.codes.Length == ENOUGH
    requires ReadingCl(io, g.fed0, c, z.lens[..], s.nlen, s.ndist, s.ncode, have)
    requires io.input == s.io.input && Budget(io) <= Budget(s.io) && c.out == g.cfg.out && c.last == g.cfg.last
    modifies z.lens, z.codes
    ensures Inv(z, t, h) && SameCall(t, s, h, g) && Ahead(t, s)
  {
    hide Reaches, BytesToBits, Valid, Step, Low, Shr, START, ModeOk, PosOk, Here, Inv, Reading, Stream, Field, Align,
         TableAt, Base;
    hide ReadingCl, ClRead, ClensOf, Acceptable, Lean, AtBit, IsStuck;
    ClRange(io, g.fed0, c, z.lens[..], s.nlen, s.ndist, s.ncode, have);
    ReadingRange(io, g.fed0, c);
    ClBounded(Stream(io, g.fed0), c);
    ZeroRest(z.lens, have);
    var good, used, root := BuildClens(z, c.mode.cl);
    ClDone(io, g.fed0, c, good);
    t, h := EnterCodeLens(z, s, g, io, have, c, good, used, root);
  }

  /** Enters the code lengths when the table of their code was built. */
  method EnterCodeLens(z: Inflater, s: State, ghost g: Trace, io: Io, have: nat, ghost c: Config, good: bool,
                       ghost used: nat, root: nat)
    returns (t: State, ghost h: Trace)
    requires Base(z, s, g) && s.mode == LENLENS && s.last == g.cfg.last && z.lens.Length == 320
    requires io.input == s.io.input && Budget(io) <= Budget(s.io) && c.out == g.cfg.out && c.last == g.cfg.last
    requires c.mode.LenLens? && |c.mode.cl| <= 19 && c.mode.nlen == s.nlen && c.mode.ndist == s.ndist
    requires io.next <= |io.input| && io.bits < 8 && Reading(io, g.fed0, AfterCl(c, good)) && AtBit(io, g.fed0, c)
    requires good ==> TableAt(z.codes, 0, used, root, CODES, ClensOf(c.mode.cl)) && Bounded(ClensOf(c.mode.cl), root)
    ensures Inv(z, t, h) && SameCall(t, s, h, g) && Ahead(t, s)
  {
    hide Reaches, BytesToBits, Valid, Step, Low, Shr, START, ModeOk, PosOk, Here, Inv, Reading, Stream, Field, Align,
         TableAt, Base;
    hide ClensOf, Acceptable, Lean, AtBit, IsStuck, Bounded;
    h := g.(cfg := AfterCl(c, good), lenUsed := used);
    LeanSmall(io, h.fed0, h.cfg);
    if !good {
      t := s.(io := io, have := have, mode := BAD);
      EndModes(t, h.cfg.mode);
      CloseHeader(z, s, g, t, h);
      return;
    }
    t := s.(io := io, have := 0, len := Ref(z.codes, 0, root), mode := CODELENS);
    TreeModes(t, h.cfg.mode);
    AtSame(io, h.fed0, c, h.cfg);
    CloseCodeLens(z, s, g, t, h);
  }

  lemma LeanSmall(io: Io, fed0: seq<byte>, c: Config)
    requires io.next <= |io.input| && io.bits < 8
    ensures Lean(io, fed0, c)
  {
  }

  lemma AtSame(io: Io, fed0: seq<byte>, c: Config, d: Config)
    requires io.next <= |io.input| && AtBit(io, fed0, c) && d.pos == c.pos
    ensures AtBit(io, fed0, d)
  {
  }
}
