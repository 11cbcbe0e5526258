/**
  inffast.c: a state in which inflate_fast is entered with eight or more bits held.  Its comment says that fewer are
  held; after a call that ended inside a long code that is not so.
*/
module FastEntry {
  import opened Bits
  import opened Canonical
  import opened InflateTable
  import opened Format
  import opened Encoding
  import opened CodeLengths
  import opened BlockPlan
  import opened Accumulator
  import opened InflateState
  import I = Inflate

  // ------------------------------------------------------------------ a code with lengths up to 15

  /** Symbols 0 to 14 have 1 to 15 bits, the end of block 15. */
  function Long(n: nat): (lens: seq<nat>)
    ensures |lens| == n
  {
    seq(n, i => if 0 <= i < 15 then i + 1 else if i == 256 then 15 else 0)
  }

  /** The code length code: thirteen codes of four bits, then codes of five. */
  function Short(n: nat): (lens: seq<nat>)
    ensures |lens| == n
  {
    seq(n, i => if i < 13 then 4 else 5)
  }

  lemma {:induction false} LongCount(lens: seq<nat>, l: nat, n: nat)
    requires lens == Long(257) && 1 <= l <= 15 && n <= 257
    ensures Count(lens, l, n) == (if l <= n then 1 else 0) + if l == 15 && n == 257 then 1 else 0
    decreases n
  {
    if n > 0 { LongCount(lens, l, n - 1); }
  }

  lemma {:induction false} LongTop(lens: seq<nat>, l: nat)
    requires lens == Long(257) && l <= 14
    ensures Top(lens, l) == Pow2(l) - 1
    decreases l
  {
    hide Long;
    if l > 0 {
      LongTop(lens, l - 1);
      LongCount(lens, l, 257);
    }
  }

  lemma LongBound(lens: seq<nat>)
    requires lens == Long(257)
    ensures Bounded(lens, 15) && lens[0] == 1 && lens[256] == 15
  {
  }

  lemma LongComplete(lens: seq<nat>)
    requires lens == Long(257)
    ensures Complete(lens, 15) && Acceptable(LENS, lens)
  {
    hide Long, Pow2, Bounded;
    LongTop(lens, 14);
    LongCount(lens, 15, 257);
    assert Top(lens, 15) == 2 * Top(lens, 14) + 2;
    assert Pow2(15) == 2 * Pow2(14) by { Pow2Add(1, 14); Pow2Values(); }
    LongBound(lens);
    CompleteFits(lens, 15);
  }

  lemma {:induction false} ShortCount(lens: seq<nat>, l: nat, n: nat)
    requires lens == Short(19) && n <= 19
    ensures Count(lens, l, n)
            == if l == 4 then (if n < 13 then n else 13) else if l == 5 then (if n < 13 then 0 else n - 13) else 0
    decreases n
  {
    if n > 0 { ShortCount(lens, l, n - 1); }
  }

  lemma ShortBound(lens: seq<nat>)
    requires lens == Short(19)
    ensures Bounded(lens, 5) && Bounded(ClOf(lens, 19), 7) && forall i :: 0 <= i < 19 ==> lens[i] >= 1
  {
    OrderRange();
  }

  lemma ShortComplete(lens: seq<nat>)
    requires lens == Short(19)
    ensures Acceptable(CODES, lens)
  {
    hide Short, Bounded, Pow2;
    ShortBound(lens);
    forall l: nat ensures Total(lens, l) == if l == 4 then 13 else if l == 5 then 6 else 0 { ShortCount(lens, l, 19); }
    hide Total;
    TopEmpty(lens, 3);
    assert Top(lens, 4) == 2 * Top(lens, 3) + Total(lens, 4);
    assert Top(lens, 5) == 2 * Top(lens, 4) + Total(lens, 5);
    Pow2Values();
    CompleteUp(lens, 5);
    CompleteFits(lens, 5);
  }

  lemma NoDistances(lens: seq<nat>)
    requires lens == [0]
    ensures Acceptable(DISTS, lens) && Bounded(lens, MAX_BITS)
  {
    forall l: nat ensures Top(lens, l) <= Pow2(l) {
      forall j | 1 <= j <= l ensures Total(lens, j) == 0 { assert Count(lens, j, 0) == 0; }
      TopEmpty(lens, l);
    }
  }

  /** A dynamic header for this code. */
  method LongHeader() returns (h: Header, k: Codes)
    ensures ValidHeader(h, k) && k.ll[0] == 1 && k.ll[256] == 15
  {
    hide Long, Short, Acceptable, Bounded, ClOf, AllItems, ValidHeader;
    var ll, dl, cl := Long(257), [0], Short(19);
    LongBound(ll);
    LongComplete(ll);
    ShortBound(cl);
    ShortComplete(cl);
    NoDistances(dl);
    k, h := Codes(ll, dl), Header(257, 1, ClOf(cl, 19), AllItems(ll, dl));
    AnyHeader(ll, dl, cl);
  }

  /** Every pair of codes can be announced with a code length code that has all symbols. */
  lemma AnyHeader(ll: seq<nat>, dl: seq<nat>, cl: seq<nat>)
    requires |ll| == 257 && |dl| == 1 && |cl| == 19 && ll[256] >= 1 && (forall i :: 0 <= i < 19 ==> cl[i] >= 1) &&
             Bounded(ClOf(cl, 19), 7)
    requires Bounded(ll, MAX_BITS) && Bounded(dl, MAX_BITS) && Acceptable(LENS, ll) && Acceptable(DISTS, dl) &&
             Acceptable(CODES, cl)
    ensures ValidHeader(Header(257, 1, ClOf(cl, 19), AllItems(ll, dl)), Codes(ll, dl))
  {
    hide Acceptable, Bounded, ClOf, Unpackable, UnpackAll, ValidItem, ClensOf, AllItems;
    OrderRange();
    ClRoundTrip(cl, 19);
    AllItemsFacts(ll, dl);
    AllPack(ll, dl);
  }

  lemma AllPack(ll: seq<nat>, dl: seq<nat>)
    requires Bounded(ll, MAX_BITS) && Bounded(dl, MAX_BITS)
    ensures Unpackable([], AllItems(ll, dl)) && UnpackAll([], AllItems(ll, dl)) == ll + dl
  {
    hide Bounded, Unpackable, UnpackAll;
    PackRoundTrip(ll, dl);
  }

  // ------------------------------------------------------------------ a stream that ends inside a code of 15 bits

  /** A literal of one bit, when without it the last code would be complete. */
  function Filler(k: Codes, n: nat): (b: seq<bool>)
    requires |k.ll| > 0 && k.ll[0] == 1
    ensures |b| == if n % 8 == 1 then 1 else 0
  {
    if n % 8 == 1 then Code(k.ll, 0) else []
  }

  /** How many bits of the last code make the stream whole bytes. */
  function Part(n: nat): (r: nat)
    ensures 8 <= r <= 15 && (n + r) % 8 == 0 && (n % 8 != 1 ==> r <= 14)
  {
    8 + (8 - n % 8) % 8
  }

  lemma CodeSize(lens: seq<nat>, s: nat)
    requires s < |lens| && lens[s] >= 1
    ensures |Code(lens, s)| == lens[s]
  {
  }

  /** A part of a code is not enough to decode it. */
  lemma Undecided(lens: seq<nat>, s: nat, r: nat)
    requires Fits(lens) && s < |lens| && 1 <= r < lens[s] && |Code(lens, s)| == lens[s]
    ensures Decode(lens, Code(lens, s)[..r]) == NeedMore
  {
    hide Code, Fits;
    var b := Code(lens, s)[..r];
    forall t: nat ensures !IsCodeAt(lens, t, b) {
      if IsCodeAt(lens, t, b) {
        PrefixOfPrefix(Code(lens, t), Code(lens, s), r);
        CodeSize(lens, t);
        PrefixFree(lens, t, s);
      }
    }
  }

  /** The bytes whose bits are `s`. */
  function ToBytes(s: seq<bool>): (b: seq<byte>)
    requires |s| % 8 == 0
    decreases |s|
  {
    if s == [] then [] else
      FromBitsBound(s[..8]);
      Pow2Values();
      [FromBits(s[..8])] + ToBytes(s[8..])
  }

  lemma {:induction false} ToBytesBits(s: seq<bool>)
    requires |s| % 8 == 0
    ensures BytesToBits(ToBytes(s)) == s
    decreases |s|
  {
    if s != [] {
      ToFrom(s[..8]);
      ToBytesBits(s[8..]);
      FromBitsBound(s[..8]);
      Pow2Values();
      var b := ToBytes(s);
      hide ToBits, FromBits, Pow2;
      assert b[1..] == ToBytes(s[8..]);
      assert s == s[..8] + s[8..];
    }
  }

  /** The machine stops on this stream with the bits of the last code unread. */
  lemma StopsInCode(s: seq<bool>, h: Header, k: Codes, start: seq<bool>, fill: seq<bool>, r: nat) returns (c: Config)
    requires ValidHeader(h, k) && k.ll[0] == 1 && k.ll[256] == 15 && start == TypeBits(false, 2) + HeaderBits(h)
    requires fill == Filler(k, |start|) && 8 <= r <= 14 && s == start + (fill + Code(k.ll, 256)[..r]) && |s| % 8 == 0
    ensures Reaches(s, START, c) && IsStuck(s, c) && c.mode.Len? && c.pos == |s| - r
  {
    hide Reaches, TypeBits, HeaderBits, ValidHeader, Code, Valid, Decode, Acceptable, Fits, Step;
    HeaderShape(h, k);
    HeaderFits(h, k);
    var last := Code(k.ll, 256)[..r];
    assert At(s, 0, start + (fill + last));
    AtSplit(s, 0, start, fill + last);
    AtSplit(s, 0, TypeBits(false, 2), HeaderBits(h));
    AtSplit(s, |start|, fill, last);
    StartValid(s);
    var c1, c2 := Config(false, Table, 3, []), Config(false, Len(k), |start|, []);
    TypeRun(s, START, false, 2);
    ReachValid(s, START, c1);
    HeaderRun(s, c1, h, k);
    ReachTrans(s, START, c1, c2);
    ReachValid(s, START, c2);
    c := c2;
    if fill != [] {
      c := Config(false, Len(k), |start| + |fill|, ExpandOne([], Literal(0)));
      TokenRun(s, c2, k, Literal(0));
      ReachTrans(s, START, c2, c);
      ReachValid(s, START, c);
    }
    assert s[c.pos..] == last;
    Undecided(k.ll, 256, r);
    StuckInCode(s, c);
  }

  lemma HeaderFits(h: Header, k: Codes)
    requires ValidHeader(h, k) && k.ll[256] == 15
    ensures Fits(k.ll) && |k.ll| == h.nlen && |Code(k.ll, 256)| == 15
  {
    hide HasItems, Unpackable, UnpackAll, ClensOf, Fits, Complete, Bounded;
  }

  lemma StartValid(s: seq<bool>)
    requires |s| % 8 == 0
    ensures Valid(s, START)
  {
  }

  lemma StuckInCode(s: seq<bool>, c: Config)
    requires Valid(s, c) && c.mode.Len? && Decode(c.mode.k.ll, s[c.pos..]) == NeedMore
    ensures IsStuck(s, c)
  {
  }

  /** Bytes on which the decoder stops inside a code, with `r` bits of it. */
  method CutStream() returns (bytes: seq<byte>, r: nat, ghost c: Config)
    ensures 8 <= r <= 14 && Reaches(BytesToBits(bytes), START, c) && IsStuck(BytesToBits(bytes), c) && c.mode.Len? &&
            c.pos == 8 * |bytes| - r
  {
    hide Reaches, Code, BytesToBits, IsStuck, TypeBits, HeaderBits, ValidHeader;
    var h, k := LongHeader();
    HeaderShape(h, k);
    HeaderFits(h, k);
    var start := TypeBits(false, 2) + HeaderBits(h);
    var fill := Filler(k, |start|);
    r := Part(|start| + |fill|);
    var bits := start + (fill + Code(k.ll, 256)[..r]);
    c := StopsInCode(bits, h, k, start, fill, r);
    ToBytesBits(bits);
    bytes := ToBytes(bits);
  }

  // ------------------------------------------------------------------ the decoder on it

  /** After a call on that stream the next one enters inflate_fast with eight or more bits in the accumulator. */
  method HeldOnEntry(input: seq<byte>) returns (z: Inflater, s: State, ghost g: Trace)
    requires |input| >= 6
    ensures fresh(z) && Inv(z, s, g) && s.mode == LEN
    ensures 8 <= s.io.bits <= 14 && s.io.input == input && s.io.next == 0 && s.put == 0 && s.out.Length >= 258
  {
    hide Inv, Reaches, BytesToBits, I.Between, I.Follows, I.AtRest, IsStuck, TableAt;
    var out := new byte[258];
    var bytes, r, c := CutStream();
    z := new Inflater();
    I.NewBetween(z);
    var output := I.Unpack(z, bytes, [], 1);
    s := z.s.(io := Io(input, 0, z.s.io.hold, z.s.io.bits), out := out);
    g := z.g;
    InCode(z, bytes, c, r);
    I.Begin(z, z.s, z.g, input, out, s);
    if s.mode == LEN_ {
      I.ModeShift(z, s, g, LEN);
      s := s.(mode := LEN);
    }
  }

  lemma InCode(z: Inflater, bytes: seq<byte>, c: Config, r: nat)
    requires Reaches(BytesToBits(bytes), START, c) && IsStuck(BytesToBits(bytes), c) && c.mode.Len? &&
             c.pos == 8 * |bytes| - r
    requires I.Between(z) && I.Follows(z.g) && I.AtRest(z.g, bytes)
    ensures Inv(z, z.s, z.g) && z.s.io.input == [] && z.s.put == 0 && (z.s.mode == LEN || z.s.mode == LEN_) &&
            z.s.io.bits == r && z.s.out != z.window
  {
    hide Reaches, BytesToBits, Valid, Step, Inv, I.Between, I.Follows;
    I.PrefixRun(z.g, bytes);
    I.RestIsStuck(z.g, bytes);
    ReachUnique(BytesToBits(bytes), START, z.g.cfg, c);
    HeldBits(z, |bytes|, r);
  }

  lemma HeldBits(z: Inflater, n: nat, r: nat)
    requires I.Between(z) && |z.g.fed0| == n && z.g.cfg.mode.Len? && z.g.cfg.pos == 8 * n - r
    ensures Inv(z, z.s, z.g) && z.s.io.input == [] && z.s.put == 0 && (z.s.mode == LEN || z.s.mode == LEN_) &&
            z.s.io.bits == r && z.s.out != z.window
  {
    hide z.Shape, BytesToBits, Reaches, Acc, ArraysOk, WindowKept, IsStuck, Lean, Writing;
    assert z.s.io.input[..z.s.io.next] == [];
    assert z.g.fed0 + [] == z.g.fed0;
  }
}
