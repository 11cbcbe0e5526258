/**
  inffast.c: the unrolled decoding loop.  It reads ahead up to thirty bits, needs at most six input
  bytes and 258 bytes of output space per round, and gives back every whole byte it did not use.
*/
module InflateFast {
  import opened Bits
  import opened Canonical
  import opened InflateTable
  import opened Format
  import opened Runs
  import opened TableRead
  import opened Accumulator
  import opened InflateSteps
  import opened InflateState
  import opened InflateDecode
  import opened InflateData

  // ------------------------------------------------------------------ reading ahead

  /** Pulls one byte that is known to be there. */
  method PullOne(s: Io, ghost fed0: seq<byte>, ghost c: Config) returns (t: Io)
    requires Reading(s, fed0, c) && s.bits <= 24 && s.next < |s.input| && AtBit(s, fed0, c)
    ensures Reading(t, fed0, c) && Pulled(t, s) && t.next == s.next + 1 && t.bits == s.bits + 8 && AtBit(t, fed0, c)
  {
    hide Reading, Stream;
    var ok;
    ok, t := PullByte(s, fed0, c);
  }

  /** Makes sure that a whole code is in the accumulator. */
  method Refill(s: Io, ghost fed0: seq<byte>, ghost c: Config) returns (t: Io)
    requires Reading(s, fed0, c) && s.next <= |s.input| && AtBit(s, fed0, c) &&
             (s.bits < 15 ==> s.next + 2 <= |s.input|)
    ensures Reading(t, fed0, c) && Pulled(t, s) && 15 <= t.bits && AtBit(t, fed0, c) &&
            (t == s || (s.bits < 15 && t.next == s.next + 2))
  {
    hide Reading, Stream;
    t := s;
    if t.bits < 15 {
      t := PullOne(t, fed0, c);
      t := PullOne(t, fed0, c);
    }
  }

  lemma ShrShr(w: nat, a: nat, b: nat)
    ensures Shr(Shr(w, a), b) == Shr(w, a + b)
  {
    hide Pow2;
    Pow2Add(a, b);
    DivDiv(w, Pow2(a), Pow2(b));
  }

  lemma DropTwice(s: Io, a: nat, b: nat)
    requires a + b <= s.bits
    ensures Dropped(Dropped(s, a), b) == Dropped(s, a + b)
  {
    hide Shr;
    ShrShr(s.hold, a, b);
  }

  /** Masking after the shift and shifting after the mask give the same index. */
  lemma ShiftIndex(link: Entry, hold: nat, bits: nat)
    requires hold < Pow2(bits)
    ensures SubIndex(link, hold) == link.val + Low(Shr(hold, link.bits), link.op)
  {
    hide Pow2, FromBits, ToBits, Low, Shr;
    var a, b := link.bits, link.op;
    var p := ToBits(hold, bits) + Zeros(a + b);
    FromTo(hold, bits);
    PadValue(ToBits(hold, bits), a + b);
    MidValue(p, a, b);
    SplitBoth(p, a, b);
  }

  lemma SplitBoth(p: seq<bool>, a: nat, b: nat)
    requires a + b <= |p|
    ensures Low(Shr(FromBits(p), a), b) == FromBits(p[a..a + b])
  {
    hide Pow2, FromBits;
    SplitValue(p, a);
    SplitValue(p[a..], b);
    assert p[a..][..b] == p[a..a + b];
  }

  /** The test of inflate_fast for a second-level entry. */
  predicate Linking(op: nat) { op != 0 && !Bit(op, 4) && !Bit(op, 6) }

  lemma SmallOps(op: nat)
    requires 1 <= op < 16
    ensures Linking(op)
  {
    Pow2Values();
    hide Pow2;
  }

  lemma SymbolOps(kind: Kind, s: nat, bits: nat)
    requires kind != CODES && s < SymbolLimit(kind)
    ensures !Linking(SymbolEntry(kind, s, bits).op) && !Linking(HOLE.op)
  {
    Pow2Values();
    hide Pow2;
  }

  lemma LinkingIff(kind: Kind, lens: seq<nat>, b: seq<bool>, e: Entry)
    requires kind != CODES && (IsLink(e) || exists n: nat :: Answer(kind, lens, b, e, n))
    ensures Linking(e.op) <==> IsLink(e)
  {
    if IsLink(e) {
      SmallOps(e.op);
    } else {
      var n: nat :| Answer(kind, lens, b, e, n);
      hide Linking, Decode;
      SymbolOps(kind, 0, 0);
      if Decode(lens, b).Symbol? { SymbolOps(kind, Decode(lens, b).sym, e.bits); }
    }
  }

  /** What the tables say with enough bits in the accumulator. */
  ghost predicate Sure(io: Io, t: Ref, used: nat, kind: Kind, lens: seq<nat>)
    reads t.code
  {
    t.at + used <= t.code.Length && RootSays(View(t.code, t.at, used), t.bits, kind, lens, io.hold, Avail(io)) &&
    io.hold < Pow2(io.bits)
  }

  lemma SureIs(io: Io, fed0: seq<byte>, c: Config, t: Ref, used: nat, kind: Kind, lens: seq<nat>)
    requires Reading(io, fed0, c) && io.next <= |io.input| && AtBit(io, fed0, c) &&
             TableAt(t.code, t.at, used, t.bits, kind, lens)
    ensures Sure(io, t, used, kind, lens)
  {
    hide BytesToBits, Reaches, Pow2, ToBits, TableFor, RootSays, View, Reading, Stream;
    AvailIs(io, fed0, c);
    ReadRoot(View(t.code, t.at, used), t.bits, kind, lens, io.hold, Avail(io));
  }

  lemma SureRoot(io: Io, t: Ref, used: nat, kind: Kind, lens: seq<nat>)
    requires Sure(io, t, used, kind, lens) && io.bits >= 15 && kind != CODES
    ensures t.at + Low(io.hold, t.bits) < t.code.Length
    ensures var e := t.code[t.at + Low(io.hold, t.bits)];
            1 <= e.bits <= 15 && (Linking(e.op) <==> IsLink(e)) &&
            (!IsLink(e) ==> Answer(kind, lens, Avail(io), e, e.bits)) &&
            (IsLink(e) ==> SubSays(View(t.code, t.at, used), e, kind, lens, io.hold, Avail(io)))
  {
    hide Low, Answer, Decode, SubSays, Linking, Avail, Pow2;
    var e := View(t.code, t.at, used)[Low(io.hold, t.bits)];
    assert e == t.code[t.at + Low(io.hold, t.bits)];
    LinkingIff(kind, lens, Avail(io), e);
  }

  lemma SureSub(io: Io, t: Ref, used: nat, kind: Kind, lens: seq<nat>, link: Entry)
    requires Sure(io, t, used, kind, lens) && io.bits >= 15 &&
             SubSays(View(t.code, t.at, used), link, kind, lens, io.hold, Avail(io))
    ensures t.at + link.val + Low(Shr(io.hold, link.bits), link.op) < t.code.Length
    ensures var e := t.code[t.at + link.val + Low(Shr(io.hold, link.bits), link.op)];
            link.bits + e.bits <= 15 && Answer(kind, lens, Avail(io), e, link.bits + e.bits)
  {
    hide Low, Shr, Answer, Decode, Avail, Pow2, RootSays, SubIndex;
    ShiftIndex(link, io.hold, io.bits);
    assert t.code[t.at + SubIndex(link, io.hold)] == View(t.code, t.at, used)[SubIndex(link, io.hold)];
  }

  /** Decodes a symbol that is known to be in the accumulator, dropping its bits on the way. */
  method FastDecode(io: Io, ghost fed0: seq<byte>, ghost c: Config, t: Ref, ghost used: nat, kind: Kind,
                    ghost lens: seq<nat>)
    returns (here: Entry, rest: Io, ghost size: nat)
    requires Reading(io, fed0, c) && io.next <= |io.input| && AtBit(io, fed0, c) && io.bits >= 15 && kind != CODES
    requires TableAt(t.code, t.at, used, t.bits, kind, lens)
    ensures 1 <= size <= 15 && rest == Dropped(io, size) && c.pos <= |Stream(io, fed0)|
    ensures Answer(kind, lens, Stream(io, fed0)[c.pos..], here, size)
  {
    hide Reading, Stream, TableAt, Sure, Answer, Avail, Low, Shr, SubSays, Linking, View, IsLink;
    SureIs(io, fed0, c, t, used, kind, lens);
    SureRoot(io, t, used, kind, lens);
    AvailIs(io, fed0, c);
    here := t.code[t.at + Low(io.hold, t.bits)];
    size := here.bits;
    rest := Dropped(io, here.bits);
    if Linking(here.op) {
      var link := here;
      SureSub(io, t, used, kind, lens, link);
      here := t.code[t.at + link.val + Low(rest.hold, link.op)];
      size := link.bits + here.bits;
      DropTwice(io, link.bits, here.bits);
      rest := Dropped(rest, here.bits);
    }
    SizeFits(kind, lens, Avail(io), here, size);
  }

  // ------------------------------------------------------------------ giving bytes back

  function GivenBack(io: Io): (t: Io)
    requires io.bits / 8 <= io.next
  {
    Io(io.input, io.next - io.bits / 8, Low(io.hold, io.bits % 8), io.bits % 8)
  }

  lemma StreamBack(io: Io, fed0: seq<byte>, n: nat)
    requires n <= io.next <= |io.input|
    ensures Stream(io.(next := io.next - n), fed0) == Stream(io, fed0)[..|Stream(io, fed0)| - 8 * n]
  {
    hide BytesToBits;
    var a, b := fed0 + io.input[..io.next - n], io.input[io.next - n..io.next];
    BytesToBitsAppend(a, b);
    assert io.input[..io.next] == io.input[..io.next - n] + b;
    SeqAssoc(fed0, io.input[..io.next - n], b);
  }

  lemma AccBack(s: seq<bool>, hold: nat, bits: nat)
    requires Acc(s, hold, bits)
    ensures Acc(s[..|s| - 8 * (bits / 8)], Low(hold, bits % 8), bits % 8)
  {
    hide Pow2, ToBits, FromBits;
    var n := bits % 8;
    var b, t := s[|s| - bits..], s[..|s| - 8 * (bits / 8)];
    FromTo(hold, bits);
    SplitValue(b, n);
    ToFrom(b[..n]);
    FromBitsBound(b[..n]);
    assert b[..n] == t[|t| - n..];
  }

  /** The machine does not need the bytes that are given back. */
  lemma GiveBack(io: Io, fed0: seq<byte>, c: Config)
    requires Reading(io, fed0, c) && !c.mode.Bad? && io.bits / 8 <= io.next <= |io.input| &&
             c.pos <= |Stream(io, fed0)| - io.bits
    ensures Reading(GivenBack(io), fed0, c)
    ensures Stream(GivenBack(io), fed0) == Stream(io, fed0)[..|Stream(io, fed0)| - 8 * (io.bits / 8)]
  {
    hide BytesToBits, Reaches, Acc, Low;
    var s := Stream(io, fed0);
    StreamBack(io, fed0, io.bits / 8);
    AccBack(s, io.hold, io.bits);
    ReachLocal(s, START, c, |s| - 8 * (io.bits / 8));
  }

  /** The next step is an error, and the bits up to position `p` show it. */
  ghost predicate WillFail(s: seq<bool>, c: Config, p: nat)
  {
    !c.mode.Bad? && c.pos <= p <= |s| &&
    forall k: nat :: p <= k <= |s| && k % 8 == 0 ==>
      Valid(s[..k], c) && Step(s[..k], c) == Go(Config(c.last, Bad, 0, c.out))
  }

  lemma DecodeKept(lens: seq<nat>, s: seq<bool>, pos: nat, k: nat, kind: Kind, e: Entry, size: nat)
    requires Fits(lens) && pos + size <= k <= |s| && Answer(kind, lens, s[pos..], e, size)
    ensures Answer(kind, lens, s[..k][pos..], e, size)
  {
    DecodeCut(lens, s, pos, k);
    hide Fits, Decode;
    assert s == s[..k] + s[k..];
    DecodeRestStable(lens, s[..k], s[k..], pos);
  }

  lemma ValidCut(s: seq<bool>, c: Config, k: nat)
    requires Valid(s, c) && c.pos <= k <= |s| && k % 8 == 0
    ensures Valid(s[..k], c)
  {
  }

  lemma ValidPos(s: seq<bool>, c: Config)
    requires Valid(s, c)
    ensures c.pos <= |s|
  {
  }

  lemma CodesFit(s: seq<bool>, c: Config)
    requires Valid(s, c) && (c.mode.Len? || c.mode.Dist?)
    ensures Fits(c.mode.k.ll) && Fits(c.mode.k.dl)
  {
    hide Fits, Bounded;
  }

  lemma LenFails(s: seq<bool>, c: Config, e: Entry, size: nat)
    requires Valid(s, c) && c.mode.Len? && Answer(LENS, c.mode.k.ll, s[c.pos..], e, size) && e.op != 0 &&
             !Bit(e.op, 5) && Bit(e.op, 6)
    ensures WillFail(s, c, c.pos + size)
  {
    hide Answer, Step, Bit, Fits, Valid;
    assert c.pos <= |s| by { ValidPos(s, c); }
    SizeFits(LENS, c.mode.k.ll, s[c.pos..], e, size);
    CodesFit(s, c);
    forall k: nat | c.pos + size <= k <= |s| && k % 8 == 0
      ensures Valid(s[..k], c) && Step(s[..k], c) == Go(Config(c.last, Bad, 0, c.out)) {
      DecodeKept(c.mode.k.ll, s, c.pos, k, LENS, e, size);
      ValidCut(s, c, k);
      LenStep(s[..k], c, e, size);
    }
  }

  lemma DistFails(s: seq<bool>, c: Config, e: Entry, size: nat)
    requires Valid(s, c) && c.mode.Dist? && Answer(DISTS, c.mode.k.dl, s[c.pos..], e, size) && Bit(e.op, 6)
    ensures WillFail(s, c, c.pos + size)
  {
    hide Answer, Step, Bit, Fits, Valid;
    assert c.pos <= |s| by { ValidPos(s, c); }
    SizeFits(DISTS, c.mode.k.dl, s[c.pos..], e, size);
    CodesFit(s, c);
    forall k: nat | c.pos + size <= k <= |s| && k % 8 == 0
      ensures Valid(s[..k], c) && Step(s[..k], c) == Go(Config(c.last, Bad, 0, c.out)) {
      DecodeKept(c.mode.k.dl, s, c.pos, k, DISTS, e, size);
      ValidCut(s, c, k);
      DistStep(s[..k], c, e, size);
    }
  }

  lemma FarFails(s: seq<bool>, c: Config)
    requires Valid(s, c) && c.mode.Match? && c.mode.dist > |c.out|
    ensures WillFail(s, c, c.pos)
  {
    hide Step, ValidCodes;
    forall k: nat | c.pos <= k <= |s| && k % 8 == 0
      ensures Valid(s[..k], c) && Step(s[..k], c) == Go(Config(c.last, Bad, 0, c.out)) {
      TooFar(s[..k], c);
    }
  }
}
