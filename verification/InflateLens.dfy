/**
  inflate.c, mode CODELENS: unpacking the code lengths and building the tables of a dynamic block.
*/
module InflateLens {
  import opened Bits
  import opened Canonical
  import opened InflateTable
  import E = Enough
  import opened Format
  import opened TableRead
  import opened Accumulator
  import opened InflateSteps
  import opened InflateState
  import opened InflateModes
  import opened InflateDecode
  import opened InflateTrees

  /** The machine while `have` code lengths have been unpacked. */
  ghost predicate Unpacking(io: Io, fed0: seq<byte>, c: Config, lens: seq<nat>, nlen: nat, ndist: nat, clens: seq<nat>,
                            have: nat)
  {
    Reading(io, fed0, c) && AtBit(io, fed0, c) && Lean(io, fed0, c) && have <= nlen + ndist <= 316 && |lens| == 320 &&
    c.mode == CodeLens(nlen, ndist, clens, lens[..have])
  }

  lemma UnpackingIs(io: Io, fed0: seq<byte>, c: Config, lens: seq<nat>, nlen: nat, ndist: nat, clens: seq<nat>,
                    have: nat)
    requires Unpacking(io, fed0, c, lens, nlen, ndist, clens, have)
    ensures io.next <= |io.input| && Reading(io, fed0, c) && AtBit(io, fed0, c) && Lean(io, fed0, c) &&
            have <= nlen + ndist <= 316 && |lens| == 320
    ensures c.mode == CodeLens(nlen, ndist, clens, lens[..have]) && Valid(Stream(io, fed0), c)
  {
    hide Reading, Stream, Valid;
    ReadingRange(io, fed0, c);
  }

  /** Waiting for a symbol or for its repeat count, at most one byte too many has been pulled for the symbol. */
  lemma LagCodeLens(s: seq<bool>, c: Config, hold: nat, bits: nat)
    requires Here(s, c, hold, bits) && c.mode.CodeLens? && |c.mode.lens| < c.mode.nlen + c.mode.ndist
    requires bits < 8 || Step(s, c) == Stuck
    ensures Lagging(c.mode.clens, s[c.pos..])
  {
    hide Decode, Field, Acc, Fits, Acceptable;
    AccBound(s, hold, bits);
    var m, b := c.mode, s[c.pos..];
    AcceptableFits(CODES, m.clens);
    var d := Decode(m.clens, b);
    if bits >= 8 && d.Symbol? {
      var q := b[..|b| - 8];
      if Decode(m.clens, q) != NeedMore {
        assert b == q + b[|b| - 8..];
        DecodeStable(m.clens, q, b[|b| - 8..]);
        DecodeFits(m.clens, q);
      }
    } else {
      LagStart(m.clens, b);
    }
  }

  lemma StartSymbol(io: Io, fed0: seq<byte>, c: Config, lens: seq<nat>, nlen: nat, ndist: nat, clens: seq<nat>,
                    have: nat, t: Ref, used: nat)
    requires Unpacking(io, fed0, c, lens, nlen, ndist, clens, have) && have < nlen + ndist &&
             TableAt(t.code, t.at, used, t.bits, CODES, clens)
    ensures Decoding(io, fed0, c, t, used, CODES, clens)
  {
    hide Reading, Stream, TableAt, Here, Lagging, Step, Valid;
    UnpackingIs(io, fed0, c, lens, nlen, ndist, clens, have);
    ReadyAt(io, fed0, c);
    LagCodeLens(Stream(io, fed0), c, io.hold, io.bits);
    AvailIs(io, fed0, c);
  }

  /** Later bits do not change an answer. */
  lemma AnswerStable(kind: Kind, lens: seq<nat>, b: seq<bool>, more: seq<bool>, e: Entry, size: nat)
    requires Answer(kind, lens, b, e, size) && Fits(lens)
    ensures Answer(kind, lens, b + more, e, size)
  {
    hide Decode, Fits;
    DecodeStable(lens, b, more);
  }

  lemma StreamExtends(s: Io, t: Io, fed0: seq<byte>)
    requires Pulled(t, s)
    ensures Stream(s, fed0) <= Stream(t, fed0)
  {
    hide BytesToBits;
    var a, b := fed0 + s.input[..s.next], s.input[s.next..t.next];
    BytesToBitsAppend(a, b);
    assert s.input[..t.next] == s.input[..s.next] + b;
    SeqAssoc(fed0, s.input[..s.next], b);
  }

  lemma FoundStays(s: Io, t: Io, fed0: seq<byte>, c: Config, lens: seq<nat>, e: Entry, size: nat)
    requires Found(s, fed0, c, CODES, lens, e, size) && Pulled(t, s) && Reading(t, fed0, c) && Fits(lens)
    requires s.next <= |s.input| && |Stream(t, fed0)| - t.bits == |Stream(s, fed0)| - s.bits
    ensures AtBit(t, fed0, c) && c.pos <= |Stream(t, fed0)| && Answer(CODES, lens, Stream(t, fed0)[c.pos..], e, size)
  {
    hide Reading, Stream, Answer, Fits;
    StreamExtends(s, t, fed0);
    ReadingRange(t, fed0, c);
    var a, b := Stream(s, fed0), Stream(t, fed0);
    var more := b[|a|..];
    assert b == a + more;
    AvailIs(s, fed0, c);
    assert b[c.pos..] == a[c.pos..] + more;
    AnswerStable(CODES, lens, a[c.pos..], more, e, size);
  }

  datatype Outcome = Wait | More | Wrong

  /** What one symbol does: waits for input, appends lengths, or is an error. */
  ghost predicate Unpacked(r: Outcome, io: Io, fed0: seq<byte>, c: Config, lens: seq<nat>, nlen: nat, ndist: nat,
                           clens: seq<nat>, have: nat, s: Io, c0: Config)
  {
    io.input == s.input && io.next <= |io.input| && c.out == c0.out && c.last == c0.last &&
    match r
    case Wait =>
      Unpacking(io, fed0, c, lens, nlen, ndist, clens, have) && Budget(io) <= Budget(s) && io.next == |io.input| &&
      IsStuck(Stream(io, fed0), c)
    case More => Unpacking(io, fed0, c, lens, nlen, ndist, clens, have) && Budget(io) < Budget(s)
    case Wrong => Reading(io, fed0, c) && c.mode == Bad && Budget(io) < Budget(s)
  }

  /** A plain length. */
  lemma TakePlain(s: Io, io: Io, fed0: seq<byte>, c: Config, lens: seq<nat>, nlen: nat, ndist: nat, clens: seq<nat>,
                  have: nat, e: Entry, size: nat)
    returns (d: Config)
    requires Found(io, fed0, c, CODES, clens, e, size) && Pulled(io, s) && e.val < 16 && have < nlen + ndist <= 316 &&
             |lens| == 320
    requires c.mode == CodeLens(nlen, ndist, clens, lens[..have]) && size >= 1
    ensures Unpacked(More, Dropped(io, size), fed0, d, lens[have := e.val], nlen, ndist, clens, have + 1, s, c)
  {
    hide Reading, Stream, Answer, Step, Valid, CodeLenSymbol;
    ReadingRange(io, fed0, c);
    CodeLensRead(Stream(io, fed0), c, e, size);
    PlainLength(Stream(io, fed0), c, e.val, size);
    d := c.(mode := c.mode.(lens := c.mode.lens + [e.val]), pos := c.pos + size);
    Took(io, fed0, c, d);
    DropKeeps(io, fed0, d, size);
    assert lens[have := e.val][..have + 1] == lens[..have] + [e.val];
  }

  /** The lengths with `n` copies of `v` written from `have` on. */
  function Run(lens: seq<nat>, have: nat, v: nat, n: nat): (r: seq<nat>)
    requires have + n <= |lens|
    ensures |r| == |lens|
  {
    lens[..have] + seq(n, i => v) + lens[have + n..]
  }

  /** The repeat count behind the symbol. */
  function Repeats(io: Io, sym: nat, size: nat): (n: nat) { RepBase(sym) + Low(Shr(io.hold, size), RepBits(sym)) }

  /** The machine behind a repeat symbol and its count. */
  ghost function AfterRepeat(c: Config, sym: nat, n: nat, size: nat): (d: Config)
    requires c.mode.CodeLens?
  {
    var m := c.mode;
    if (sym == 16 && m.lens == []) || |m.lens| + n > m.nlen + m.ndist then Config(c.last, Bad, 0, c.out)
    else c.(mode := m.(lens := m.lens + seq(n, i => if sym == 16 then m.lens[|m.lens| - 1] else 0)),
            pos := c.pos + size)
  }

  lemma RepeatStep(io: Io, fed0: seq<byte>, c: Config, clens: seq<nat>, e: Entry, size: nat)
    requires Reading(io, fed0, c) && io.next <= |io.input| && AtBit(io, fed0, c) && c.pos <= |Stream(io, fed0)|
    requires Answer(CODES, clens, Stream(io, fed0)[c.pos..], e, size) && 16 <= e.val && c.mode.CodeLens? &&
             c.mode.clens == clens
    requires |c.mode.lens| < c.mode.nlen + c.mode.ndist && size + RepBits(e.val) <= io.bits
    ensures e.val <= 18 && Reading(io, fed0, AfterRepeat(c, e.val, Repeats(io, e.val, size), size + RepBits(e.val)))
  {
    hide Reading, Stream, Answer, Step, Valid, CodeLenSymbol, Low, Shr;
    ReadingRange(io, fed0, c);
    ReadyAt(io, fed0, c);
    CodeLensRead(Stream(io, fed0), c, e, size);
    SizeInside(io, fed0, c, clens, e, size);
    RepeatLength(Stream(io, fed0), c, io.hold, io.bits, e.val, size);
    Took(io, fed0, c, AfterRepeat(c, e.val, Repeats(io, e.val, size), size + RepBits(e.val)));
  }

  /** A repeat that has nothing to repeat, or runs over the end. */
  lemma RepeatWrong(s: Io, io: Io, fed0: seq<byte>, c: Config, lens: seq<nat>, nlen: nat, ndist: nat, clens: seq<nat>,
                    have: nat, e: Entry, size: nat, drop: nat)
    returns (d: Config)
    requires Reading(io, fed0, c) && io.next <= |io.input| && AtBit(io, fed0, c) && c.pos <= |Stream(io, fed0)|
    requires Answer(CODES, clens, Stream(io, fed0)[c.pos..], e, size) && Pulled(io, s) && 16 <= e.val &&
             have < nlen + ndist && have <= |lens|
    requires c.mode == CodeLens(nlen, ndist, clens, lens[..have]) && size + RepBits(e.val) <= io.bits &&
             1 <= drop <= io.bits
    requires (e.val == 16 && have == 0) || have + Repeats(io, e.val, size) > nlen + ndist
    ensures Unpacked(Wrong, Dropped(io, drop), fed0, d, lens, nlen, ndist, clens, have, s, c)
  {
    hide Reading, Stream, Answer, AtBit, Repeats, Shr;
    RepeatStep(io, fed0, c, clens, e, size);
    d := AfterRepeat(c, e.val, Repeats(io, e.val, size), size + RepBits(e.val));
    DropKeeps(io, fed0, d, drop);
  }

  /** A repeat symbol with its count. */
  lemma RepeatMore(s: Io, io: Io, fed0: seq<byte>, c: Config, lens: seq<nat>, nlen: nat, ndist: nat, clens: seq<nat>,
                   have: nat, e: Entry, size: nat, v: nat)
    returns (d: Config)
    requires Reading(io, fed0, c) && io.next <= |io.input| && AtBit(io, fed0, c) && c.pos <= |Stream(io, fed0)|
    requires Answer(CODES, clens, Stream(io, fed0)[c.pos..], e, size) && Pulled(io, s) && 16 <= e.val && 1 <= size &&
             |lens| == 320
    requires have < nlen + ndist <= 316 && c.mode == CodeLens(nlen, ndist, clens, lens[..have]) &&
             size + RepBits(e.val) <= io.bits < size + RepBits(e.val) + 8
    requires have + Repeats(io, e.val, size) <= nlen + ndist && (e.val == 16 ==> have > 0)
    requires v == if e.val == 16 then lens[have - 1] else 0
    ensures var n := Repeats(io, e.val, size);
            Unpacked(More, Dropped(io, size + RepBits(e.val)), fed0, d, Run(lens, have, v, n), nlen, ndist, clens,
                     have + n, s, c)
  {
    hide Reading, Stream, Answer, AtBit, Repeats, Shr, Unpacked, Run;
    RepeatStep(io, fed0, c, clens, e, size);
    var n, r := Repeats(io, e.val, size), size + RepBits(e.val);
    d := AfterRepeat(c, e.val, n, r);
    DropKeeps(io, fed0, d, r);
    RunIs(lens, have, e.val, v, n);
    MoreLengths(s, io, fed0, c, d, Run(lens, have, v, n), nlen, ndist, clens, have + n, r);
  }

  /** Lengths were appended. */
  lemma MoreLengths(s: Io, io: Io, fed0: seq<byte>, c: Config, d: Config, ext: seq<nat>, nlen: nat, ndist: nat,
                    clens: seq<nat>, have: nat, size: nat)
    requires io.next <= |io.input| && AtBit(io, fed0, c) && Pulled(io, s) && 1 <= size <= io.bits < size + 8 &&
             have <= nlen + ndist <= 316 && |ext| == 320
    requires Reading(Dropped(io, size), fed0, d) && Stream(Dropped(io, size), fed0) == Stream(io, fed0)
    requires d == c.(mode := CodeLens(nlen, ndist, clens, ext[..have]), pos := c.pos + size)
    ensures Unpacked(More, Dropped(io, size), fed0, d, ext, nlen, ndist, clens, have, s, c)
  {
    hide Reading, Stream;
  }

  lemma SizeInside(io: Io, fed0: seq<byte>, c: Config, clens: seq<nat>, e: Entry, size: nat)
    requires Reading(io, fed0, c) && io.next <= |io.input| && AtBit(io, fed0, c) && c.pos <= |Stream(io, fed0)|
    requires Answer(CODES, clens, Stream(io, fed0)[c.pos..], e, size)
    ensures size <= io.bits
  {
    hide Reading, Stream, Decode;
    AvailIs(io, fed0, c);
  }

  lemma RunIs(lens: seq<nat>, have: nat, sym: nat, v: nat, n: nat)
    requires have + n <= |lens| && (sym == 16 ==> have >= 1 && v == lens[have - 1]) && (sym != 16 ==> v == 0)
    ensures Run(lens, have, v, n)[..have + n]
         == lens[..have] + seq(n, i => if sym == 16 then lens[..have][|lens[..have]| - 1] else 0)
  {
    var a, b := seq(n, i => v), seq(n, i => if sym == 16 then lens[..have][|lens[..have]| - 1] else 0);
    assert a == b;
    assert Run(lens, have, v, n)[..have + n] == lens[..have] + a;
  }

  lemma WaitHere(s: Io, io: Io, fed0: seq<byte>, c: Config, lens: seq<nat>, nlen: nat, ndist: nat, clens: seq<nat>,
                 have: nat)
    requires Reading(io, fed0, c) && io.next == |io.input| && AtBit(io, fed0, c) && Pulled(io, s) &&
             have < nlen + ndist <= 316 && |lens| == 320
    requires c.mode == CodeLens(nlen, ndist, clens, lens[..have]) && IsStuck(Stream(io, fed0), c)
    ensures Unpacked(Wait, io, fed0, c, lens, nlen, ndist, clens, have, s, c)
  {
    hide Reading, Stream, IsStuck;
  }

  lemma StuckSymbol(io: Io, fed0: seq<byte>, c: Config, clens: seq<nat>)
    requires Reading(io, fed0, c) && io.next <= |io.input| && AtBit(io, fed0, c) && c.mode.CodeLens? &&
             |c.mode.lens| < c.mode.nlen + c.mode.ndist
    requires c.mode.clens == clens && c.pos <= |Stream(io, fed0)| &&
             Decode(clens, Stream(io, fed0)[c.pos..]) == NeedMore
    ensures IsStuck(Stream(io, fed0), c)
  {
    hide Reading, Stream, Decode, Valid, Step;
    ReadingRange(io, fed0, c);
    CodeLensStuck(Stream(io, fed0), c);
  }

  lemma StuckRepeat(io: Io, fed0: seq<byte>, c: Config, clens: seq<nat>, e: Entry, size: nat)
    requires Reading(io, fed0, c) && io.next <= |io.input| && AtBit(io, fed0, c) && c.mode.CodeLens? &&
             |c.mode.lens| < c.mode.nlen + c.mode.ndist
    requires c.mode.clens == clens && c.pos <= |Stream(io, fed0)| &&
             Answer(CODES, clens, Stream(io, fed0)[c.pos..], e, size)
    requires 16 <= e.val && io.bits < size + RepBits(e.val)
    ensures IsStuck(Stream(io, fed0), c)
  {
    hide Reading, Stream, Answer, Valid, Step, CodeLenSymbol, Low, Shr;
    ReadingRange(io, fed0, c);
    ReadyAt(io, fed0, c);
    CodeLensRead(Stream(io, fed0), c, e, size);
    SizeInside(io, fed0, c, clens, e, size);
    RepeatLength(Stream(io, fed0), c, io.hold, io.bits, e.val, size);
  }

  lemma RunStart(lens: seq<nat>, have: nat, v: nat)
    requires have <= |lens|
    ensures Run(lens, have, v, 0) == lens
  {
    assert lens == lens[..have] + lens[have..];
  }

  lemma RunNext(lens: seq<nat>, have: nat, v: nat, n: nat)
    requires have + n < |lens|
    ensures Run(lens, have, v, n)[have + n := v] == Run(lens, have, v, n + 1)
  {
    assert seq(n + 1, i => v) == seq(n, i => v) + [v];
  }

  /** Writes `copy` equal lengths. */
  method FillRun(lens: array<nat>, have: nat, v: nat, copy: nat)
    requires have + copy <= lens.Length
    modifies lens
    ensures lens[..] == Run(old(lens[..]), have, v, copy)
  {
    hide Run;
    var n := 0;
    RunStart(lens[..], have, v);
    while n < copy
      invariant 0 <= n <= copy && lens[..] == Run(old(lens[..]), have, v, n)
    {
      RunNext(old(lens[..]), have, v, n);
      ghost var was := lens[..];
      lens[have + n] := v;
      assert lens[..] == was[have + n := v];
      n := n + 1;
    }
  }

  /** One code length symbol, with its repeat count. */
  method ReadLength(lens: array<nat>, s: Io, ghost fed0: seq<byte>, ghost c0: Config, t: Ref, ghost used: nat,
                    nlen: nat, ndist: nat, ghost clens: seq<nat>, have0: nat)
    returns (r: Outcome, io: Io, have: nat, ghost c: Config)
    requires lens.Length == 320 && Unpacking(s, fed0, c0, lens[..], nlen, ndist, clens, have0) && have0 < nlen + ndist
    requires TableAt(t.code, t.at, used, t.bits, CODES, clens) && Bounded(clens, t.bits)
    modifies lens
    ensures Unpacked(r, io, fed0, c, lens[..], nlen, ndist, clens, have, s, c0)
  {
    hide Reading, Stream, Unpacking, Unpacked, Decoding, Found, RootRead, TableAt, Valid, IsStuck, Answer, Decode, Run,
         Bounded;
    UnpackingIs(s, fed0, c0, lens[..], nlen, ndist, clens, have0);
    have, c := have0, c0;
    StartSymbol(s, fed0, c, lens[..], nlen, ndist, clens, have, t, used);
    var ok, here;
    ok, io, here := DecodeRoot(s, fed0, c, t, used, CODES, clens);
    if !ok {
      NotFound(io, fed0, c, t, used, CODES, clens);
      AvailIs(io, fed0, c);
      StuckSymbol(io, fed0, c, clens);
      WaitHere(s, io, fed0, c, lens[..], nlen, ndist, clens, have);
      return Wait, io, have, c;
    }
    NoLink(io, fed0, c, t, used, clens, here);
    if here.val < 16 {
      c := TakePlain(s, io, fed0, c, lens[..], nlen, ndist, clens, have, here, here.bits);
      ghost var was := lens[..];
      lens[have] := here.val;
      assert lens[..] == was[have := here.val];
      return More, Dropped(io, here.bits), have + 1, c;
    }
    r, io, have, c := ReadRepeat(lens, s, io, fed0, c, nlen, ndist, clens, have, here);
  }

  /** A complete table without links yields the answer at once. */
  lemma NoLink(io: Io, fed0: seq<byte>, c: Config, t: Ref, used: nat, clens: seq<nat>, here: Entry)
    requires Decoding(io, fed0, c, t, used, CODES, clens) && RootRead(io, t, used, CODES, clens, here) &&
             here.bits <= io.bits && Bounded(clens, t.bits)
    ensures 1 <= here.bits && here.bits <= MAX_BITS && Found(io, fed0, c, CODES, clens, here, here.bits) && Fits(clens)
  {
    hide Decoding, Answer, Decode, Low, Found, Fits;
    TableFits(io, fed0, c, t, used, CODES, clens);
    FoundAt(io, fed0, c, t, used, CODES, clens, here, here.bits);
  }

  lemma FoundRange(io: Io, fed0: seq<byte>, c: Config, kind: Kind, lens: seq<nat>, e: Entry, size: nat)
    requires Found(io, fed0, c, kind, lens, e, size)
    ensures io.next <= |io.input| && Reading(io, fed0, c) && size <= io.bits < size + 8 && AtBit(io, fed0, c)
  {
    hide Reading, Answer, Stream;
    ReadingRange(io, fed0, c);
  }

  /** The repeat count of a symbol 16, 17 or 18. */
  method ReadRepeat(lens: array<nat>, ghost s: Io, io0: Io, ghost fed0: seq<byte>, ghost c0: Config, nlen: nat,
                    ndist: nat, ghost clens: seq<nat>, have0: nat, here: Entry)
    returns (r: Outcome, io: Io, have: nat, ghost c: Config)
    requires lens.Length == 320 && Found(io0, fed0, c0, CODES, clens, here, here.bits) && Pulled(io0, s) &&
             Fits(clens) && here.val >= 16
    requires have0 < nlen + ndist <= 316 && 1 <= here.bits <= MAX_BITS &&
             c0.mode == CodeLens(nlen, ndist, clens, lens[..have0])
    modifies lens
    ensures Unpacked(r, io, fed0, c, lens[..], nlen, ndist, clens, have, s, c0)
  {
    hide Reading, Stream, Unpacking, Unpacked, Decoding, Found, Valid, IsStuck, Answer, Run, Repeats, Shr, Fits;
    have, c := have0, c0;
    FoundRange(io0, fed0, c, CODES, clens, here, here.bits);
    var ok;
    ok, io := NeedBits(io0, fed0, c, here.bits + RepBits(here.val));
    FoundStays(io0, io, fed0, c, clens, here, here.bits);
    if !ok {
      StuckRepeat(io, fed0, c, clens, here, here.bits);
      WaitHere(s, io, fed0, c, lens[..], nlen, ndist, clens, have);
      return Wait, io, have, c;
    }
    if here.val == 16 && have == 0 {
      c := RepeatWrong(s, io, fed0, c, lens[..], nlen, ndist, clens, have, here, here.bits, here.bits);
      return Wrong, Dropped(io, here.bits), have, c;
    }
    var len := if here.val == 16 then lens[have - 1] else 0;
    var copy := Repeats(io, here.val, here.bits);
    if have + copy > nlen + ndist {
      c := RepeatWrong(s, io, fed0, c, lens[..], nlen, ndist, clens, have, here, here.bits,
                       here.bits + RepBits(here.val));
      return Wrong, Dropped(io, here.bits + RepBits(here.val)), have, c;
    }
    c := RepeatMore(s, io, fed0, c, lens[..], nlen, ndist, clens, have, here, here.bits, len);
    io := Dropped(io, here.bits + RepBits(here.val));
    FillRun(lens, have, len, copy);
    return More, io, have + copy, c;
  }

  // ------------------------------------------------------------------ the case

  lemma UnpackedIs(r: Outcome, io: Io, fed0: seq<byte>, c: Config, lens: seq<nat>, nlen: nat, ndist: nat,
                   clens: seq<nat>, have: nat, s: Io, c0: Config)
    requires Unpacked(r, io, fed0, c, lens, nlen, ndist, clens, have, s, c0)
    ensures io.input == s.input && io.next <= |io.input| && c.out == c0.out && c.last == c0.last &&
            Budget(io) <= Budget(s)
    ensures r != Wrong ==> Unpacking(io, fed0, c, lens, nlen, ndist, clens, have)
    ensures r == More ==> Budget(io) < Budget(s)
    ensures r == Wait ==> io.next == |io.input| && IsStuck(Stream(io, fed0), c)
    ensures r == Wrong ==> Reading(io, fed0, c) && c.mode == Bad
  {
    hide Reading, Unpacking, IsStuck, Stream;
  }

  /** Unpacks code lengths until all are there. */
  method ReadLengths(lens: array<nat>, s: Io, ghost fed0: seq<byte>, ghost c0: Config, t: Ref, ghost used: nat,
                     nlen: nat, ndist: nat, ghost clens: seq<nat>, have0: nat)
    returns (r: Outcome, io: Io, have: nat, ghost c: Config)
    requires lens.Length == 320 && Unpacking(s, fed0, c0, lens[..], nlen, ndist, clens, have0)
    requires TableAt(t.code, t.at, used, t.bits, CODES, clens) && Bounded(clens, t.bits)
    modifies lens
    ensures io.input == s.input && io.next <= |io.input| && c.out == c0.out && c.last == c0.last &&
            Budget(io) <= Budget(s)
    ensures r != Wrong ==> Unpacking(io, fed0, c, lens[..], nlen, ndist, clens, have)
    ensures r == More ==> have == nlen + ndist
    ensures r == Wait ==> io.next == |io.input| && IsStuck(Stream(io, fed0), c)
    ensures r == Wrong ==> Reading(io, fed0, c) && c.mode == Bad
  {
    hide Reading, Stream, Unpacking, Unpacked, TableAt, IsStuck, Bounded;
    r, io, have, c := More, s, have0, c0;
    UnpackingIs(s, fed0, c0, lens[..], nlen, ndist, clens, have0);
    while have < nlen + ndist
      invariant Unpacking(io, fed0, c, lens[..], nlen, ndist, clens, have) && have <= nlen + ndist
      invariant io.input == s.input && io.next <= |io.input| && c.out == c0.out && c.last == c0.last &&
                Budget(io) <= Budget(s) && r == More
      decreases Budget(io)
    {
      ghost var io1, c1 := io, c;
      r, io, have, c := ReadLength(lens, io, fed0, c, t, used, nlen, ndist, clens, have);
      UnpackedIs(r, io, fed0, c, lens[..], nlen, ndist, clens, have, io1, c1);
      if r != More { return; }
      UnpackingIs(io, fed0, c, lens[..], nlen, ndist, clens, have);
    }
  }

  lemma KeepTable(table: array<Entry>, was: seq<Entry>, at: nat, used: nat)
    requires at + used <= |was| <= table.Length && forall i :: 0 <= i < at + used ==> table[i] == was[i]
    ensures View(table, at, used) == was[at..at + used]
  {
  }

  lemma NeverTooLarge(ll: seq<nat>, dl: seq<nat>)
    requires |ll| <= 286 && Bounded(ll, MAX_BITS) && |dl| <= 30 && Bounded(dl, MAX_BITS)
    ensures !(Acceptable(LENS, ll) && TooLarge(LENS, ll, 9)) && !(Acceptable(DISTS, dl) && TooLarge(DISTS, dl, 6))
  {
    hide Suffices, Acceptable, TooLarge, Bounded;
    E.RoomSuffices();
    if (Acceptable(LENS, ll) && TooLarge(LENS, ll, 9)) || (Acceptable(DISTS, dl) && TooLarge(DISTS, dl, 6)) {
      NotEnough(ll, dl);
    }
  }

  /** Builds the two tables of a dynamic block in one array. */
  method BuildCodes(codes: array<Entry>, ll: seq<nat>, dl: seq<nat>)
    returns (good: bool, len: Ref, dist: Ref, ghost lenUsed: nat, ghost distUsed: nat)
    requires codes.Length == ENOUGH && |ll| <= 286 && |dl| <= 30 && Bounded(ll, MAX_BITS) && Bounded(dl, MAX_BITS)
    modifies codes
    ensures good <==> Acceptable(LENS, ll) && Acceptable(DISTS, dl)
    ensures good ==> len.code == codes && dist.code == codes
    ensures good ==>
              TableAt(codes, len.at, lenUsed, len.bits, LENS, ll) &&
              TableAt(codes, dist.at, distUsed, dist.bits, DISTS, dl)
  {
    hide Acceptable, TableFor, View, TooLarge, Bounded;
    NeverTooLarge(ll, dl);
    good, len, dist, distUsed := false, Ref(codes, 0, 9), Ref(codes, 0, 6), 0;
    var ret, used, root := Build(LENS, ll, codes, 0, 9);
    var first := used;
    lenUsed := used;
    if ret != 0 { return; }
    len := Ref(codes, 0, root);
    ghost var was := codes[..];
    KeepTable(codes, was, 0, used);
    ret, used, root := Build(DISTS, dl, codes, used, 6);
    if ret != 0 { return; }
    KeepTable(codes, was, 0, lenUsed);
    dist, distUsed := Ref(codes, first, root), used;
    good := true;
  }

  lemma OpenCodeLens(z: Inflater, s: State, g: Trace)
    requires Inv(z, s, g) && s.mode == CODELENS
    ensures Base(z, s, g) && s.last == g.cfg.last && allocated(s.len.code) && allocated(s.dist.code) && allocated(s.out)
    ensures z.codes != z.fixedLen && z.codes != z.fixedDist && z.codes.Length == ENOUGH
    ensures z.lens.Length == 320 && g.cfg.mode.CodeLens? && s.len.code == z.codes &&
            Bounded(g.cfg.mode.clens, s.len.bits)
    ensures TableAt(s.len.code, s.len.at, g.lenUsed, s.len.bits, CODES, g.cfg.mode.clens)
    ensures Unpacking(s.io, g.fed0, g.cfg, z.lens[..], s.nlen, s.ndist, g.cfg.mode.clens, s.have)
  {
    hide Reading, ModeOk, TableAt, Stream, Lean, Bounded;
    Open(z, s, g);
    BaseParts(z, s, g);
    TreeModes(s, g.cfg.mode);
    ReadingRange(s.io, g.fed0, g.cfg);
    LensSizes(Stream(s.io, g.fed0), g.cfg);
  }

  lemma LensSizes(s: seq<bool>, c: Config)
    requires Valid(s, c) && c.mode.CodeLens?
    ensures 257 <= c.mode.nlen <= 286 && 1 <= c.mode.ndist <= 30 && |c.mode.lens| <= c.mode.nlen + c.mode.ndist &&
            Bounded(c.mode.lens, MAX_BITS)
  {
  }

  ghost function AfterLens(c: Config, k: Codes, good: bool): (d: Config)
  {
    if good then c.(mode := Len(k)) else Config(c.last, Bad, 0, c.out)
  }

  /** All lengths are there. */
  lemma LensFinish(io: Io, fed0: seq<byte>, c: Config, lens: seq<nat>, nlen: nat, ndist: nat, clens: seq<nat>,
                   good: bool)
    requires Unpacking(io, fed0, c, lens, nlen, ndist, clens, nlen + ndist) && 257 <= nlen
    requires good <==> lens[256] != 0 && Acceptable(LENS, lens[..nlen]) && Acceptable(DISTS, lens[nlen..nlen + ndist])
    ensures io.next <= |io.input| && io.bits < 8 &&
            Reading(io, fed0, AfterLens(c, Codes(lens[..nlen], lens[nlen..nlen + ndist]), good))
    ensures AtBit(io, fed0, c)
  {
    hide Reaches, BytesToBits, Valid, Step, START, Reading, Stream, Acceptable, Unpacking;
    UnpackingIs(io, fed0, c, lens, nlen, ndist, clens, nlen + ndist);
    LensDone(Stream(io, fed0), c);
    var all := lens[..nlen + ndist];
    assert all[..nlen] == lens[..nlen] && all[nlen..] == lens[nlen..nlen + ndist] && all[256] == lens[256];
    Took(io, fed0, c, AfterLens(c, Codes(lens[..nlen], lens[nlen..nlen + ndist]), good));
  }

  /** Case CODELENS: the packed code lengths, and the tables for them. */
  method CodeLensCase(z: Inflater, s: State, ghost g: Trace, flush: Flush)
    returns (leave: bool, t: State, ghost h: Trace)
    requires Inv(z, s, g) && s.mode == CODELENS
    modifies z.lens, z.codes
    ensures Inv(z, t, h) && SameCall(t, s, h, g)
    ensures leave ==> Idle(t, h, flush)
    ensures !leave ==> Ahead(t, s)
  {
    hide Reaches, BytesToBits, Valid, Step, START, ModeOk, PosOk, Here, Inv, Reading, Stream, Align, TableAt, Base,
         Unpacking, Acceptable, Bounded, IsStuck, Lean;
    OpenCodeLens(z, s, g);
    var r, io, have;
    ghost var c;
    r, io, have, c := ReadLengths(z.lens, s.io, g.fed0, g.cfg, s.len, g.lenUsed, s.nlen, s.ndist, g.cfg.mode.clens,
                                  s.have);
    h := g.(cfg := c);
    if r == Wrong {
      t := s.(io := io, mode := BAD);
      WrongLengths(z, s, g, t, h);
      return false, t, h;
    }
    if r == Wait {
      t := s.(io := io, have := have);
      WaitLengths(z, s, g, t, h);
      return true, t, h;
    }
    leave, t, h := FinishLens(z, s, g, io, c, g.cfg.mode.clens, flush);
  }

  lemma WrongLengths(z: Inflater, s: State, g: Trace, t: State, h: Trace)
    requires Base(z, s, g) && s.mode == CODELENS && s.last == g.cfg.last
    requires t == s.(io := t.io, mode := BAD) && h == g.(cfg := h.cfg) && h.cfg.out == g.cfg.out &&
             h.cfg.last == g.cfg.last && h.cfg.mode == Bad
    requires t.io.input == s.io.input && t.io.next <= |t.io.input| && Budget(t.io) <= Budget(s.io) &&
             Reading(t.io, g.fed0, h.cfg)
    ensures Inv(z, t, h) && SameCall(t, s, h, g) && Ahead(t, s)
  {
    hide ModeOk, PosOk, Inv, Reading, Stream, TableAt, Base, Lean;
    EndModes(t, h.cfg.mode);
    CloseHeader(z, s, g, t, h);
  }

  lemma WaitLengths(z: Inflater, s: State, g: Trace, t: State, h: Trace)
    requires Base(z, s, g) && s.mode == CODELENS && s.last == g.cfg.last && g.cfg.mode.CodeLens?
    requires z.lens.Length == 320 && s.len.code == z.codes && Bounded(g.cfg.mode.clens, s.len.bits)
    requires TableAt(s.len.code, s.len.at, g.lenUsed, s.len.bits, CODES, g.cfg.mode.clens)
    requires t == s.(io := t.io, have := t.have) && h == g.(cfg := h.cfg) && h.cfg.out == g.cfg.out &&
             h.cfg.last == g.cfg.last
    requires t.io.input == s.io.input && Budget(t.io) <= Budget(s.io)
    requires Unpacking(t.io, g.fed0, h.cfg, z.lens[..], s.nlen, s.ndist, g.cfg.mode.clens, t.have)
    ensures Inv(z, t, h) && SameCall(t, s, h, g)
  {
    hide Valid, ModeOk, PosOk, Inv, Reading, Stream, TableAt, Base, Unpacking, Bounded, Lean;
    UnpackingIs(t.io, g.fed0, h.cfg, z.lens[..], s.nlen, s.ndist, g.cfg.mode.clens, t.have);
    TreeModes(t, h.cfg.mode);
    StillUnpacking(z, t, h, s, g);
    CloseCodeLens(z, s, g, t, h);
  }

  lemma StillUnpacking(z: Inflater, t: State, h: Trace, s: State, g: Trace)
    requires z.lens.Length == 320 && t.have <= 320 && h.cfg.mode.CodeLens? && g.cfg.mode.CodeLens? &&
             h.cfg.mode.lens == z.lens[..][..t.have]
    requires t.len == s.len && h.lenUsed == g.lenUsed && s.len.code == z.codes && h.cfg.mode.clens == g.cfg.mode.clens
    requires Bounded(g.cfg.mode.clens, s.len.bits) &&
             TableAt(s.len.code, s.len.at, g.lenUsed, s.len.bits, CODES, g.cfg.mode.clens)
    ensures LensUnpacked(z, t, h.cfg.mode) && LengthTable(z, t, h)
  {
    hide TableAt, Bounded;
    assert z.lens[..][..t.have] == z.lens[..t.have];
  }

  /** All code lengths are there: builds the tables. */
  method FinishLens(z: Inflater, s: State, ghost g: Trace, io: Io, ghost c: Config, ghost clens: seq<nat>, flush: Flush)
    returns (leave: bool, t: State, ghost h: Trace)
    requires Base(z, s, g) && s.mode == CODELENS && s.last == g.cfg.last
    requires z.codes != z.fixedLen && z.codes != z.fixedDist && z.lens.Length == 320 && z.codes.Length == ENOUGH
    requires Unpacking(io, g.fed0, c, z.lens[..], s.nlen, s.ndist, clens, s.nlen + s.ndist)
    requires io.input == s.io.input && Budget(io) <= Budget(s.io) && c.out == g.cfg.out && c.last == g.cfg.last
    modifies z.codes
    ensures Inv(z, t, h) && SameCall(t, s, h, g)
    ensures leave ==> Idle(t, h, flush)
    ensures !leave ==> Ahead(t, s)
  {
    hide Reaches, BytesToBits, Valid, Step, START, ModeOk, PosOk, Here, Inv, Reading, Stream, Align, TableAt, Base,
         Unpacking, Acceptable, Bounded, IsStuck, Lean;
    ghost var all := z.lens[..];
    LensParts(io, g.fed0, c, all, s.nlen, s.ndist, clens);
    var ll, dl := z.lens[..s.nlen], z.lens[s.nlen..s.nlen + s.ndist];
    assert ll == all[..s.nlen] && dl == all[s.nlen..s.nlen + s.ndist];
    var good, len, dist := false, s.len, s.dist;
    ghost var lenUsed, distUsed := 0, 0;
    if z.lens[256] != 0 {
      good, len, dist, lenUsed, distUsed := BuildCodes(z.codes, ll, dl);
    }
    LensFinish(io, g.fed0, c, all, s.nlen, s.ndist, clens, good);
    leave, t, h := EnterData(z, s, g, io, c, Codes(ll, dl), good, len, dist, lenUsed, distUsed, flush);
  }

  /** Enters the data of a dynamic block whose tables were built. */
  method EnterData(z: Inflater, s: State, ghost g: Trace, io: Io, ghost c: Config, ghost k: Codes, good: bool,
                   len: Ref, dist: Ref, ghost lenUsed: nat, ghost distUsed: nat, flush: Flush)
    returns (leave: bool, t: State, ghost h: Trace)
    requires Base(z, s, g) && s.mode == CODELENS && s.last == g.cfg.last
    requires io.input == s.io.input && Budget(io) <= Budget(s.io) && c.out == g.cfg.out && c.last == g.cfg.last
    requires io.next <= |io.input| && io.bits < 8 && Reading(io, g.fed0, AfterLens(c, k, good)) &&
             AtBit(io, g.fed0, c)
    requires good ==>
               TableAt(len.code, len.at, lenUsed, len.bits, LENS, k.ll) &&
               TableAt(dist.code, dist.at, distUsed, dist.bits, DISTS, k.dl)
    ensures Inv(z, t, h) && SameCall(t, s, h, g)
    ensures leave ==> Idle(t, h, flush)
    ensures !leave ==> Ahead(t, s)
  {
    hide Reaches, BytesToBits, Valid, Step, START, ModeOk, PosOk, Here, Inv, Reading, Stream, Align, TableAt, Base,
         Acceptable, Bounded, IsStuck, Lean;
    h := g.(cfg := AfterLens(c, k, good), lenUsed := lenUsed, distUsed := distUsed);
    if !good {
      t := s.(io := io, mode := BAD);
      EndModes(t, h.cfg.mode);
      CloseHeader(z, s, g, t, h);
      return false, t, h;
    }
    t := s.(io := io, len := len, dist := dist, mode := LEN_);
    DataModes(t, h.cfg.mode);
    LeanSmall(io, h.fed0, h.cfg);
    CloseData(z, s, g, t, h);
    return flush == TREES, t, h;
  }

  lemma LensParts(io: Io, fed0: seq<byte>, c: Config, lens: seq<nat>, nlen: nat, ndist: nat, clens: seq<nat>)
    requires Unpacking(io, fed0, c, lens, nlen, ndist, clens, nlen + ndist)
    ensures io.next <= |io.input| && 257 <= nlen <= 286 && 1 <= ndist <= 30 && |lens| == 320 &&
            Bounded(lens[..nlen], MAX_BITS) && Bounded(lens[nlen..nlen + ndist], MAX_BITS)
  {
    hide Unpacking, Stream, Valid, Bounded, Reading;
    UnpackingIs(io, fed0, c, lens, nlen, ndist, clens, nlen + ndist);
    LensSizes(Stream(io, fed0), c);
    TwoParts(lens, nlen, ndist);
  }

  lemma TwoParts(lens: seq<nat>, n: nat, m: nat)
    requires n + m <= |lens| && Bounded(lens[..n + m], MAX_BITS)
    ensures Bounded(lens[..n], MAX_BITS) && Bounded(lens[n..n + m], MAX_BITS)
  {
    assert forall i :: 0 <= i < n + m ==> lens[..n + m][i] == lens[i];
  }
}
