/**
  The compressed format of RFC 1951 as a deterministic machine over a bit string.

  `Step` takes the smallest step the format allows: one header field, one code, one output byte.
  It is the common reference for the encoder (which must produce bits this machine expands to the
  input) and for the decoder (which must follow this machine however its buffers are cut).
*/
module Format {
  import opened Bits
  import opened Canonical
  import opened InflateTable

  // ------------------------------------------------------------------ tokens

  datatype Token = Literal(b: byte) | Copy(len: nat, dist: nat)

  /** The bytes produced by `len` steps of copying from `dist` back, overlapping allowed. */
  function CopyFrom(out: seq<byte>, len: nat, dist: nat): (r: seq<byte>)
    requires 1 <= dist <= |out|
    ensures |r| == |out| + len && out <= r
    decreases len
  {
    if len == 0 then out else CopyFrom(out + [out[|out| - dist]], len - 1, dist)
  }

  predicate ValidToken(t: Token, have: nat)
  {
    t.Literal? || (3 <= t.len <= 258 && 1 <= t.dist <= 32768 && t.dist <= have)
  }

  function ExpandOne(out: seq<byte>, t: Token): (r: seq<byte>)
    requires ValidToken(t, |out|)
    ensures out <= r
  {
    match t
    case Literal(b) => out + [b]
    case Copy(len, dist) => CopyFrom(out, len, dist)
  }

  predicate ValidTokens(out: seq<byte>, ts: seq<Token>)
    decreases |ts|
  {
    ts == [] || (ValidToken(ts[0], |out|) && ValidTokens(ExpandOne(out, ts[0]), ts[1..]))
  }

  /** The history after expanding `ts`. */
  function Expand(out: seq<byte>, ts: seq<Token>): (r: seq<byte>)
    requires ValidTokens(out, ts)
    ensures out <= r
    decreases |ts|
  {
    if ts == [] then out else Expand(ExpandOne(out, ts[0]), ts[1..])
  }

  lemma {:induction false} ExpandAppend(out: seq<byte>, a: seq<Token>, b: seq<Token>)
    requires ValidTokens(out, a)
    ensures ValidTokens(out, a + b) <==> ValidTokens(Expand(out, a), b)
    ensures ValidTokens(Expand(out, a), b) ==> Expand(out, a + b) == Expand(Expand(out, a), b)
    decreases |a|
  {
    hide ExpandOne, ValidToken;
    if a == [] {
      assert a + b == b;
    } else {
      ExpandAppend(ExpandOne(out, a[0]), a[1..], b);
      assert (a + b)[1..] == a[1..] + b && (a + b)[0] == a[0];
    }
  }

  // ------------------------------------------------------------------ code tables of the format

  const ORDER: seq<nat> := [16, 17, 18, 0, 8, 7, 9, 6, 10, 5, 11, 4, 12, 3, 13, 2, 14, 1, 15]
  /** Position of each code length symbol in `ORDER`. */
  const RANK: seq<nat> := [3, 17, 15, 13, 11, 9, 7, 5, 4, 6, 8, 10, 12, 14, 16, 18, 0, 1, 2]

  function ExtraBits(op: nat): (e: nat) { op % 16 }

  function FixedLit(): (lens: seq<nat>)
    ensures |lens| == 288
  {
    seq(288, i => if i < 144 then 8 else if i < 256 then 9 else if i < 280 then 7 else 8)
  }

  function FixedDist(): (lens: seq<nat>)
    ensures |lens| == 32
  {
    seq(32, i => 5)
  }

  /** The lengths of the code length code, from the values sent in `ORDER`. */
  function ClensOf(cl: seq<nat>): (lens: seq<nat>)
    requires |cl| <= 19
    ensures |lens| == 19
  {
    seq(19, s requires 0 <= s < 19 => if RANK[s] < |cl| then cl[RANK[s]] else 0)
  }

  // ------------------------------------------------------------------ machine state

  /** The literal/length and distance codes of the current block. */
  datatype Codes = Codes(ll: seq<nat>, dl: seq<nat>)

  datatype Mode =
    | TypeDo
    | StoredHeader
    | StoredBytes(left: nat)
    | Table
    | LenLens(nlen: nat, ndist: nat, ncode: nat, cl: seq<nat>)
    | CodeLens(nlen: nat, ndist: nat, clens: seq<nat>, lens: seq<nat>)
    | Len(k: Codes)
    | LenExt(k: Codes, base: nat, extra: nat)
    | Dist(k: Codes, length: nat)
    | DistExt(k: Codes, length: nat, base: nat, extra: nat)
    | Match(k: Codes, length: nat, dist: nat)
    | Lit(k: Codes, b: byte)
    | Done
    | Bad

  /** `pos` counts the stream bits read, `out` is everything written so far. */
  datatype Config = Config(last: bool, mode: Mode, pos: nat, out: seq<byte>)

  const START: Config := Config(false, TypeDo, 0, [])

  datatype Next = Stuck | Go(c: Config)

  function Align(pos: nat): (p: nat)
    ensures pos <= p < pos + 8 && p % 8 == 0
  {
    (pos + 7) / 8 * 8
  }

  /** The `n` bits at `pos`, least significant first. */
  function Field(s: seq<bool>, pos: nat, n: nat): (v: nat)
    requires pos + n <= |s|
    ensures v < Pow2(n)
  {
    FromBitsBound(s[pos..pos + n]);
    FromBits(s[pos..pos + n])
  }

  function Fail(c: Config): (n: Next) { Go(Config(c.last, Bad, 0, c.out)) }

  // ------------------------------------------------------------------ block headers

  function StepType(s: seq<bool>, c: Config): (n: Next)
    requires c.pos <= |s|
  {
    if c.last then Go(c.(mode := Done, pos := Align(c.pos)))
    else if c.pos + 3 > |s| then Stuck
    else
      var d := c.(last := s[c.pos], pos := c.pos + 3);
      var kind := Field(s, c.pos + 1, 2);
      if kind == 0 then Go(d.(mode := StoredHeader, pos := Align(d.pos)))
      else if kind == 1 then Go(d.(mode := Len(Codes(FixedLit(), FixedDist()))))
      else if kind == 2 then Go(d.(mode := Table))
      else Fail(d)
  }

  function StepStoredHeader(s: seq<bool>, c: Config): (n: Next)
    requires c.pos <= |s|
  {
    if c.pos + 32 > |s| then Stuck
    else
      var len, nlen := Field(s, c.pos, 16), Field(s, c.pos + 16, 16);
      if len != 65535 - nlen then Fail(c)
      else Go(c.(mode := StoredBytes(len), pos := c.pos + 32))
  }

  function StepStoredBytes(s: seq<bool>, c: Config): (n: Next)
    requires c.pos <= |s| && c.mode.StoredBytes?
  {
    if c.mode.left == 0 then Go(c.(mode := TypeDo))
    else if c.pos + 8 > |s| then Stuck
    else
      Pow2Values();
      Go(c.(mode := StoredBytes(c.mode.left - 1), pos := c.pos + 8, out := c.out + [Field(s, c.pos, 8)]))
  }

  function StepTable(s: seq<bool>, c: Config): (n: Next)
    requires c.pos <= |s|
  {
    if c.pos + 14 > |s| then Stuck
    else
      var nlen, ndist, ncode := Field(s, c.pos, 5) + 257, Field(s, c.pos + 5, 5) + 1, Field(s, c.pos + 10, 4) + 4;
      if nlen > 286 || ndist > 30 then Fail(c)
      else Go(c.(mode := LenLens(nlen, ndist, ncode, []), pos := c.pos + 14))
  }

  ghost function StepLenLens(s: seq<bool>, c: Config): (n: Next)
    requires c.pos <= |s| && c.mode.LenLens? && |c.mode.cl| <= 19
  {
    var m := c.mode;
    if |m.cl| < m.ncode then
      if c.pos + 3 > |s| then Stuck
      else Go(c.(mode := m.(cl := m.cl + [Field(s, c.pos, 3)]), pos := c.pos + 3))
    else if Acceptable(CODES, ClensOf(m.cl)) then Go(c.(mode := CodeLens(m.nlen, m.ndist, ClensOf(m.cl), [])))
    else Fail(c)
  }

  /** The least count of a repeat symbol, and the width of the rest of it. */
  function RepBase(sym: nat): (b: nat) { if sym == 18 then 11 else 3 }
  function RepBits(sym: nat): (n: nat) { if sym == 16 then 2 else if sym == 17 then 3 else if sym == 18 then 7 else 0 }

  /** Appends `n` copies of `v` to the lengths read so far, unless that is too many. */
  function Repeat(c: Config, v: nat, n: nat, pos: nat): (r: Next)
    requires c.mode.CodeLens?
  {
    var m := c.mode;
    if |m.lens| + n > m.nlen + m.ndist then Fail(c)
    else Go(c.(mode := m.(lens := m.lens + seq(n, i => v)), pos := pos))
  }

  /** One code length symbol `sym` of `size` bits, with the repeat count that follows it. */
  function CodeLenSymbol(s: seq<bool>, c: Config, sym: nat, size: nat): (n: Next)
    requires c.pos <= |s| && c.mode.CodeLens?
  {
    var m, p := c.mode, c.pos + size;
    if sym < 16 then
      Go(c.(mode := m.(lens := m.lens + [sym]), pos := p))
    else if sym == 16 then
      if p + 2 > |s| then Stuck
      else if m.lens == [] then Fail(c)
      else Repeat(c, m.lens[|m.lens| - 1], 3 + Field(s, p, 2), p + 2)
    else if sym == 17 then
      if p + 3 > |s| then Stuck else Repeat(c, 0, 3 + Field(s, p, 3), p + 3)
    else
      if p + 7 > |s| then Stuck else Repeat(c, 0, 11 + Field(s, p, 7), p + 7)
  }

  ghost function StepCodeLens(s: seq<bool>, c: Config): (n: Next)
    requires c.pos <= |s| && c.mode.CodeLens?
  {
    var m := c.mode;
    if |m.lens| < m.nlen + m.ndist then
      match Decode(m.clens, s[c.pos..])
      case NeedMore => Stuck
      // An empty code length code is an error of the stream in section 3.2.7 of RFC 1951; inflate reads its holes as
      // length 0.
      case Invalid => CodeLenSymbol(s, c, 0, 1)
      case Symbol(sym, size) => CodeLenSymbol(s, c, sym, size)
    else EndOfLens(c)
  }

  ghost function EndOfLens(c: Config): (n: Next)
    requires c.mode.CodeLens? && |c.mode.lens| >= c.mode.nlen + c.mode.ndist
  {
    var m := c.mode;
    if m.nlen <= 256 || m.lens[256] == 0 then Fail(c)
    else
      var k := Codes(m.lens[..m.nlen], m.lens[m.nlen..]);
      if Acceptable(LENS, k.ll) && Acceptable(DISTS, k.dl) then Go(c.(mode := Len(k))) else Fail(c)
  }

  // ------------------------------------------------------------------ compressed data

  ghost function StepLen(s: seq<bool>, c: Config): (n: Next)
    requires c.pos <= |s| && c.mode.Len? && |c.mode.k.ll| <= 288
  {
    var k := c.mode.k;
    match Decode(k.ll, s[c.pos..])
    case NeedMore => Stuck
    case Invalid => Fail(c)
    case Symbol(sym, size) =>
      if sym < 256 then Go(c.(mode := Lit(k, sym), pos := c.pos + size))
      else if sym == 256 then Go(c.(mode := TypeDo, pos := c.pos + size))
      else if sym < 286 then
        Go(c.(mode := LenExt(k, LBASE[sym - 257], ExtraBits(LEXT[sym - 257])), pos := c.pos + size))
      else Fail(c)
  }

  function StepLenExt(s: seq<bool>, c: Config): (n: Next)
    requires c.pos <= |s| && c.mode.LenExt?
  {
    var m := c.mode;
    if c.pos + m.extra > |s| then Stuck
    else Go(c.(mode := Dist(m.k, m.base + Field(s, c.pos, m.extra)), pos := c.pos + m.extra))
  }

  ghost function StepDist(s: seq<bool>, c: Config): (n: Next)
    requires c.pos <= |s| && c.mode.Dist? && |c.mode.k.dl| <= 32
  {
    var m := c.mode;
    match Decode(m.k.dl, s[c.pos..])
    case NeedMore => Stuck
    case Invalid => Fail(c)
    case Symbol(sym, size) =>
      if sym < 30 then
        Go(c.(mode := DistExt(m.k, m.length, DBASE[sym], ExtraBits(DEXT[sym])), pos := c.pos + size))
      else Fail(c)
  }

  function StepDistExt(s: seq<bool>, c: Config): (n: Next)
    requires c.pos <= |s| && c.mode.DistExt?
  {
    var m := c.mode;
    if c.pos + m.extra > |s| then Stuck
    else Go(c.(mode := Match(m.k, m.length, m.base + Field(s, c.pos, m.extra)), pos := c.pos + m.extra))
  }

  /** One byte of a match; a distance that reaches before the first output byte is an error. */
  function StepMatch(c: Config): (n: Next)
    requires c.mode.Match?
  {
    var m := c.mode;
    if m.dist > |c.out| || m.dist == 0 || m.length == 0 then Fail(c)
    else Go(c.(mode := if m.length == 1 then Len(m.k) else m.(length := m.length - 1),
               out := c.out + [c.out[|c.out| - m.dist]]))
  }

  function StepLit(c: Config): (n: Next)
    requires c.mode.Lit?
  {
    Go(c.(mode := Len(c.mode.k), out := c.out + [c.mode.b]))
  }

  // ------------------------------------------------------------------ the machine

  ghost predicate ValidCodes(k: Codes)
  {
    |k.ll| <= 288 && |k.dl| <= 32 && Bounded(k.ll, MAX_BITS) && Bounded(k.dl, MAX_BITS) &&
    Acceptable(LENS, k.ll) && Acceptable(DISTS, k.dl)
  }

  ghost predicate ValidMode(m: Mode)
  {
    match m
    case LenLens(nlen, ndist, ncode, cl) =>
      257 <= nlen <= 286 && 1 <= ndist <= 30 && 4 <= ncode <= 19 && |cl| <= ncode && Bounded(cl, 7)
    case CodeLens(nlen, ndist, clens, lens) =>
      257 <= nlen <= 286 && 1 <= ndist <= 30 && |clens| == 19 && Bounded(clens, 7) && Acceptable(CODES, clens) &&
      |lens| <= nlen + ndist && Bounded(lens, MAX_BITS)
    case Len(k) => ValidCodes(k)
    case LenExt(k, base, extra) => ValidCodes(k) && 3 <= base && extra <= 5 && base + Pow2(extra) <= 259
    case Dist(k, length) => ValidCodes(k) && 3 <= length <= 258
    case DistExt(k, length, base, extra) =>
      ValidCodes(k) && 3 <= length <= 258 && 1 <= base && extra <= 13 && base + Pow2(extra) <= 32769
    case Match(k, length, dist) => ValidCodes(k) && 1 <= length <= 258 && 1 <= dist <= 32768
    case Lit(k, b) => ValidCodes(k)
    case _ => true
  }

  ghost predicate Valid(s: seq<bool>, c: Config)
  {
    |s| % 8 == 0 && c.pos <= |s| && ValidMode(c.mode)
  }

  ghost function Step(s: seq<bool>, c: Config): (n: Next)
    requires Valid(s, c)
  {
    match c.mode
    case TypeDo => StepType(s, c)
    case StoredHeader => StepStoredHeader(s, c)
    case StoredBytes(_) => StepStoredBytes(s, c)
    case Table => StepTable(s, c)
    case LenLens(_, _, _, _) => StepLenLens(s, c)
    case CodeLens(_, _, _, _) => StepCodeLens(s, c)
    case Len(_) => StepLen(s, c)
    case LenExt(_, _, _) => StepLenExt(s, c)
    case Dist(_, _) => StepDist(s, c)
    case DistExt(_, _, _, _) => StepDistExt(s, c)
    case Match(_, _, _) => StepMatch(c)
    case Lit(_, _) => StepLit(c)
    case Done => Stuck
    case Bad => Stuck
  }

  // ------------------------------------------------------------------ the fixed codes

  lemma {:induction false} CountRun(lens: seq<nat>, l: nat, a: nat, b: nat, v: nat)
    requires a <= b <= |lens| && forall i :: a <= i < b ==> lens[i] == v
    ensures Count(lens, l, b) == Count(lens, l, a) + if v == l then b - a else 0
    decreases b
  {
    if a < b { CountRun(lens, l, a, b - 1, v); }
  }

  lemma FixedTotals(l: nat)
    ensures Total(FixedLit(), l) == if l == 7 then 24 else if l == 8 then 152 else if l == 9 then 112 else 0
    ensures Total(FixedDist(), l) == if l == 5 then 32 else 0
  {
    var f := FixedLit();
    assert Count(f, l, 0) == 0 && Count(FixedDist(), l, 0) == 0;
    hide Count;
    CountRun(f, l, 0, 144, 8);
    CountRun(f, l, 144, 256, 9);
    CountRun(f, l, 256, 280, 7);
    CountRun(f, l, 280, 288, 8);
    CountRun(FixedDist(), l, 0, 32, 5);
  }

  lemma {:induction false} TopEmpty(lens: seq<nat>, l: nat)
    requires forall j :: 1 <= j <= l ==> Total(lens, j) == 0
    ensures Top(lens, l) == 0
    decreases l
  {
    if l > 0 { TopEmpty(lens, l - 1); }
  }

  lemma FixedValid()
    ensures ValidCodes(Codes(FixedLit(), FixedDist()))
    ensures Complete(FixedLit(), MAX_BITS) && Complete(FixedDist(), MAX_BITS)
  {
    hide FixedLit, FixedDist, Total;
    var f, g := FixedLit(), FixedDist();
    forall l: nat ensures Total(f, l) == (if l == 7 then 24 else if l == 8 then 152 else if l == 9 then 112 else 0)
      ensures Total(g, l) == if l == 5 then 32 else 0 { FixedTotals(l); }
    FixedBounded();
    TopEmpty(f, 6);
    TopEmpty(g, 4);
    assert Top(f, 7) == 24;
    assert Top(f, 8) == 200;
    assert Top(f, 9) == 512 == Pow2(9);
    assert Top(g, 5) == 32 == Pow2(5);
    CompleteUp(f, 9);
    CompleteUp(g, 5);
    CompleteFits(f, MAX_BITS);
    CompleteFits(g, MAX_BITS);
  }

  lemma FixedCodesValid()
    ensures ValidCodes(Codes(FixedLit(), FixedDist()))
  {
    FixedValid();
  }

  lemma FixedBounded()
    ensures Bounded(FixedLit(), 9) && Bounded(FixedDist(), 5)
  {
  }

  lemma CompleteUp(lens: seq<nat>, m: nat)
    requires Complete(lens, m) && m <= MAX_BITS
    ensures Complete(lens, MAX_BITS)
  {
    hide Pow2, Top;
    TopBeyond(lens, m, MAX_BITS);
    Pow2Add(m, MAX_BITS - m);
  }

  // ------------------------------------------------------------------ steps keep the state valid

  lemma LengthRange(sym: nat)
    requires 257 <= sym < 286
    ensures LBASE[sym - 257] >= 3 && ExtraBits(LEXT[sym - 257]) <= 5
    ensures LBASE[sym - 257] + Pow2(ExtraBits(LEXT[sym - 257])) <= 259
  {
    Pow2All();
    hide Pow2;
  }

  lemma DistanceRange(sym: nat)
    requires sym < 30
    ensures DBASE[sym] >= 1 && ExtraBits(DEXT[sym]) <= 13 && DBASE[sym] + Pow2(ExtraBits(DEXT[sym])) <= 32769
  {
    Pow2All();
    hide Pow2;
  }

  lemma Pow2All()
    ensures Pow2(0) == 1 && Pow2(1) == 2 && Pow2(2) == 4 && Pow2(3) == 8 && Pow2(4) == 16 && Pow2(5) == 32
    ensures Pow2(6) == 64 && Pow2(7) == 128 && Pow2(8) == 256 && Pow2(9) == 512 && Pow2(10) == 1024
    ensures Pow2(11) == 2048 && Pow2(12) == 4096 && Pow2(13) == 8192
  {
  }

  lemma AlignInside(s: seq<bool>, pos: nat)
    requires |s| % 8 == 0 && pos <= |s|
    ensures Align(pos) <= |s|
  {
  }

  lemma BoundedAppend(a: seq<nat>, b: seq<nat>, m: nat)
    requires Bounded(a, m) && Bounded(b, m)
    ensures Bounded(a + b, m)
  {
  }

  lemma ClensBounded(cl: seq<nat>, m: nat)
    requires |cl| <= 19 && Bounded(cl, m)
    ensures Bounded(ClensOf(cl), m)
  {
  }

  lemma KeepType(s: seq<bool>, c: Config)
    requires Valid(s, c) && c.mode.TypeDo? && Step(s, c).Go?
    ensures Valid(s, Step(s, c).c)
  {
    hide ValidCodes, FixedLit, FixedDist, Align, Field, Pow2;
    FixedCodesValid();
    AlignInside(s, c.pos);
    if c.pos + 3 <= |s| { AlignInside(s, c.pos + 3); }
  }

  lemma KeepHeader(s: seq<bool>, c: Config)
    requires Valid(s, c) && (c.mode.StoredHeader? || c.mode.StoredBytes? || c.mode.Table?)
    requires Step(s, c).Go?
    ensures Valid(s, Step(s, c).c)
  {
    hide Field, Pow2;
    Pow2Values();
  }

  lemma KeepRepeat(c: Config, v: nat, n: nat, pos: nat)
    requires ValidMode(c.mode) && c.mode.CodeLens? && v <= MAX_BITS && Repeat(c, v, n, pos).Go?
    ensures ValidMode(Repeat(c, v, n, pos).c.mode)
    ensures Repeat(c, v, n, pos).c.pos <= pos
  {
    hide Acceptable;
    BoundedAppend(c.mode.lens, seq(n, i => v), MAX_BITS);
  }

  lemma KeepCodeLenSymbol(s: seq<bool>, c: Config, sym: nat, size: nat)
    requires Valid(s, c) && c.mode.CodeLens? && |c.mode.lens| < c.mode.nlen + c.mode.ndist
    requires c.pos + size <= |s| && CodeLenSymbol(s, c, sym, size).Go?
    ensures Valid(s, CodeLenSymbol(s, c, sym, size).c)
  {
    hide Acceptable, Field, Repeat;
    var m, p := c.mode, c.pos + size;
    if sym < 16 {
      BoundedAppend(m.lens, [sym], MAX_BITS);
    } else if sym == 16 {
      if m.lens != [] { KeepRepeat(c, m.lens[|m.lens| - 1], 3 + Field(s, p, 2), p + 2); }
    } else if sym == 17 {
      KeepRepeat(c, 0, 3 + Field(s, p, 3), p + 3);
    } else {
      KeepRepeat(c, 0, 11 + Field(s, p, 7), p + 7);
    }
  }

  lemma KeepTrees(s: seq<bool>, c: Config)
    requires Valid(s, c) && (c.mode.LenLens? || c.mode.CodeLens?) && Step(s, c).Go?
    ensures Valid(s, Step(s, c).c)
  {
    hide Acceptable, Decode, CodeLenSymbol, Field, ClensOf;
    var m := c.mode;
    if m.LenLens? {
      ClensBounded(m.cl, 7);
      if |m.cl| < m.ncode {
        assert Pow2(3) == 8;
        BoundedAppend(m.cl, [Field(s, c.pos, 3)], 7);
      }
    } else if |m.lens| < m.nlen + m.ndist {
      match Decode(m.clens, s[c.pos..])
      case NeedMore =>
      case Invalid => DecodeFits(m.clens, s[c.pos..]); KeepCodeLenSymbol(s, c, 0, 1);
      case Symbol(sym, size) => KeepCodeLenSymbol(s, c, sym, size);
    }
  }

  lemma DecodeFits(lens: seq<nat>, bits: seq<bool>)
    ensures Decode(lens, bits).Symbol? ==> Decode(lens, bits).size <= |bits|
    ensures Decode(lens, bits).Invalid? ==> 1 <= |bits|
  {
  }

  lemma KeepData(s: seq<bool>, c: Config)
    requires Valid(s, c) &&
             (c.mode.Len? || c.mode.LenExt? || c.mode.Dist? || c.mode.DistExt? || c.mode.Match? || c.mode.Lit?)
    requires Step(s, c).Go?
    ensures Valid(s, Step(s, c).c)
  {
    hide ValidCodes, Decode, Field, ExtraBits, Pow2;
    CodesSize(c.mode.k);
    if c.mode.Len? {
      var d := Decode(c.mode.k.ll, s[c.pos..]);
      DecodeFits(c.mode.k.ll, s[c.pos..]);
      if d.Symbol? && 257 <= d.sym < 286 { LengthRange(d.sym); }
    } else if c.mode.Dist? {
      var d := Decode(c.mode.k.dl, s[c.pos..]);
      DecodeFits(c.mode.k.dl, s[c.pos..]);
      if d.Symbol? && d.sym < 30 { DistanceRange(d.sym); }
    }
  }

  lemma CodesSize(k: Codes)
    requires ValidCodes(k)
    ensures |k.ll| <= 288 && |k.dl| <= 32
  {
  }

  /** Every step leads from a valid state to a valid state. */
  lemma StepKeeps(s: seq<bool>, c: Config)
    requires Valid(s, c) && Step(s, c).Go?
    ensures Valid(s, Step(s, c).c)
  {
    hide Step, Valid;
    match c.mode
    case TypeDo => KeepType(s, c);
    case StoredHeader => KeepHeader(s, c);
    case StoredBytes(_) => KeepHeader(s, c);
    case Table => KeepHeader(s, c);
    case LenLens(_, _, _, _) => KeepTrees(s, c);
    case CodeLens(_, _, _, _) => KeepTrees(s, c);
    case Done => NotTerminal(s, c);
    case Bad => NotTerminal(s, c);
    case _ => KeepData(s, c);
  }

  lemma NotTerminal(s: seq<bool>, c: Config)
    requires Valid(s, c) && (c.mode.Done? || c.mode.Bad?)
    ensures Step(s, c) == Stuck
  {
  }

  // ------------------------------------------------------------------ steps do not depend on later bits

  lemma FieldStable(s: seq<bool>, t: seq<bool>, pos: nat, n: nat)
    requires pos + n <= |s|
    ensures Field(s + t, pos, n) == Field(s, pos, n)
  {
    assert (s + t)[pos..pos + n] == s[pos..pos + n];
  }

  lemma DecodeRestStable(lens: seq<nat>, s: seq<bool>, t: seq<bool>, pos: nat)
    requires Fits(lens) && pos <= |s| && !Decode(lens, s[pos..]).NeedMore?
    ensures Decode(lens, (s + t)[pos..]) == Decode(lens, s[pos..])
  {
    assert (s + t)[pos..] == s[pos..] + t;
    DecodeStable(lens, s[pos..], t);
  }

  lemma StableHeader(s: seq<bool>, t: seq<bool>, c: Config)
    requires Valid(s, c) && (c.mode.TypeDo? || c.mode.StoredHeader? || c.mode.StoredBytes? || c.mode.Table?)
    requires |t| % 8 == 0 && Step(s, c).Go?
    ensures Valid(s + t, c) && Step(s + t, c) == Step(s, c)
  {
    hide Field, Align, FixedLit, FixedDist;
    var p := c.pos;
    if p + 3 <= |s| { FieldStable(s, t, p + 1, 2); assert (s + t)[p] == s[p]; }
    if p + 8 <= |s| { FieldStable(s, t, p, 8); }
    if p + 14 <= |s| { FieldStable(s, t, p, 5); FieldStable(s, t, p + 5, 5); FieldStable(s, t, p + 10, 4); }
    if p + 32 <= |s| { FieldStable(s, t, p, 16); FieldStable(s, t, p + 16, 16); }
  }

  lemma StableCodeLenSymbol(s: seq<bool>, t: seq<bool>, c: Config, sym: nat, size: nat)
    requires c.pos + size <= |s| && c.mode.CodeLens? && CodeLenSymbol(s, c, sym, size).Go?
    ensures CodeLenSymbol(s + t, c, sym, size) == CodeLenSymbol(s, c, sym, size)
  {
    hide Field, Repeat;
    var p := c.pos + size;
    if p + 2 <= |s| { FieldStable(s, t, p, 2); }
    if p + 3 <= |s| { FieldStable(s, t, p, 3); }
    if p + 7 <= |s| { FieldStable(s, t, p, 7); }
  }

  lemma AcceptableFits(kind: Kind, lens: seq<nat>)
    requires Acceptable(kind, lens)
    ensures Fits(lens)
  {
  }

  lemma StableCodeLens(s: seq<bool>, t: seq<bool>, c: Config)
    requires Valid(s, c) && c.mode.CodeLens? && StepCodeLens(s, c).Go?
    ensures StepCodeLens(s + t, c) == StepCodeLens(s, c)
  {
    hide Decode, CodeLenSymbol, EndOfLens, Fits, Acceptable, Bounded;
    var m := c.mode;
    if |m.lens| < m.nlen + m.ndist {
      var d := Decode(m.clens, s[c.pos..]);
      AcceptableFits(CODES, m.clens);
      if !d.NeedMore? {
        DecodeFits(m.clens, s[c.pos..]);
        DecodeRestStable(m.clens, s, t, c.pos);
        if d.Invalid? { StableCodeLenSymbol(s, t, c, 0, 1); } else { StableCodeLenSymbol(s, t, c, d.sym, d.size); }
      }
    }
  }

  lemma StableTrees(s: seq<bool>, t: seq<bool>, c: Config)
    requires Valid(s, c) && (c.mode.LenLens? || c.mode.CodeLens?) && |t| % 8 == 0 && Step(s, c).Go?
    ensures Valid(s + t, c) && Step(s + t, c) == Step(s, c)
  {
    hide StepCodeLens, Field, ClensOf, Acceptable, Bounded;
    var m := c.mode;
    if m.LenLens? {
      if c.pos + 3 <= |s| { FieldStable(s, t, c.pos, 3); }
    } else {
      StableCodeLens(s, t, c);
    }
  }

  lemma StableData(s: seq<bool>, t: seq<bool>, c: Config)
    requires Valid(s, c) &&
             (c.mode.Len? || c.mode.LenExt? || c.mode.Dist? || c.mode.DistExt? || c.mode.Match? || c.mode.Lit?)
    requires |t| % 8 == 0 && Step(s, c).Go?
    ensures Valid(s + t, c) && Step(s + t, c) == Step(s, c)
  {
    hide Decode, Field, ExtraBits, Fits, Pow2;
    if c.mode.Len? {
      DecodeRestStable(c.mode.k.ll, s, t, c.pos);
    } else if c.mode.Dist? {
      DecodeRestStable(c.mode.k.dl, s, t, c.pos);
    } else if c.mode.LenExt? || c.mode.DistExt? {
      FieldStable(s, t, c.pos, c.mode.extra);
    }
  }

  /** A step that can be taken is the same step whatever bits follow. */
  lemma StepStable(s: seq<bool>, t: seq<bool>, c: Config)
    requires Valid(s, c) && |t| % 8 == 0 && Step(s, c).Go?
    ensures Valid(s + t, c) && Step(s + t, c) == Step(s, c)
  {
    hide Step, Valid;
    match c.mode
    case TypeDo => StableHeader(s, t, c);
    case StoredHeader => StableHeader(s, t, c);
    case StoredBytes(_) => StableHeader(s, t, c);
    case Table => StableHeader(s, t, c);
    case LenLens(_, _, _, _) => StableTrees(s, t, c);
    case CodeLens(_, _, _, _) => StableTrees(s, t, c);
    case Done => NotTerminal(s, c);
    case Bad => NotTerminal(s, c);
    case _ => StableData(s, t, c);
  }

  // ------------------------------------------------------------------ runs

  /** `b` is reached from `a` in exactly `n` steps over the bits `s`. */
  ghost predicate Path(s: seq<bool>, a: Config, b: Config, n: nat)
    decreases n
  {
    Valid(s, a) && if n == 0 then a == b else Step(s, a).Go? && Path(s, Step(s, a).c, b, n - 1)
  }

  ghost predicate Reaches(s: seq<bool>, a: Config, b: Config)
  {
    exists n: nat :: Path(s, a, b, n)
  }

  lemma ReachRefl(s: seq<bool>, a: Config)
    requires Valid(s, a)
    ensures Reaches(s, a, a)
  {
    assert Path(s, a, a, 0);
  }

  lemma {:induction false} PathValid(s: seq<bool>, a: Config, b: Config, n: nat)
    requires Path(s, a, b, n)
    ensures Valid(s, b)
    decreases n
  {
    hide Step, Valid;
    if n > 0 { PathValid(s, Step(s, a).c, b, n - 1); }
  }

  lemma ReachValid(s: seq<bool>, a: Config, b: Config)
    requires Reaches(s, a, b)
    ensures Valid(s, a) && Valid(s, b)
  {
    hide Step, Valid;
    var n: nat :| Path(s, a, b, n);
    PathValid(s, a, b, n);
  }

  lemma {:induction false} PathJoin(s: seq<bool>, a: Config, b: Config, c: Config, n: nat, m: nat)
    requires Path(s, a, b, n) && Path(s, b, c, m)
    ensures Path(s, a, c, n + m)
    decreases n
  {
    hide Step, Valid;
    if n > 0 { PathJoin(s, Step(s, a).c, b, c, n - 1, m); }
  }

  lemma ReachTrans(s: seq<bool>, a: Config, b: Config, c: Config)
    requires Reaches(s, a, b) && Reaches(s, b, c)
    ensures Reaches(s, a, c)
  {
    hide Step, Valid;
    var n: nat :| Path(s, a, b, n);
    var m: nat :| Path(s, b, c, m);
    PathJoin(s, a, b, c, n, m);
  }

  lemma ReachStep(s: seq<bool>, a: Config, b: Config)
    requires Valid(s, a) && Step(s, a) == Go(b)
    ensures Reaches(s, a, b)
  {
    hide Step;
    StepKeeps(s, a);
    assert Path(s, b, b, 0);
    assert Path(s, a, b, 1);
  }

  lemma {:induction false} PathStable(s: seq<bool>, t: seq<bool>, a: Config, b: Config, n: nat)
    requires Path(s, a, b, n) && |t| % 8 == 0
    ensures Path(s + t, a, b, n)
    decreases n
  {
    hide Step;
    if n > 0 {
      StepStable(s, t, a);
      PathStable(s, t, Step(s, a).c, b, n - 1);
    }
  }

  /** What has been reached stays reached when more input arrives. */
  lemma ReachStable(s: seq<bool>, t: seq<bool>, a: Config, b: Config)
    requires Reaches(s, a, b) && |t| % 8 == 0
    ensures Reaches(s + t, a, b)
  {
    var n: nat :| Path(s, a, b, n);
    PathStable(s, t, a, b, n);
  }

  lemma {:induction false} PathUnique(s: seq<bool>, a: Config, b: Config, c: Config, n: nat, m: nat)
    requires Path(s, a, b, n) && Path(s, a, c, m)
    requires Valid(s, b) && Valid(s, c) && Step(s, b) == Stuck && Step(s, c) == Stuck
    ensures b == c
    decreases n
  {
    hide Step, Valid;
    if n > 0 && m > 0 { PathUnique(s, Step(s, a).c, b, c, n - 1, m - 1); }
  }

  /** The machine is deterministic: there is one state it stops in. */
  lemma ReachUnique(s: seq<bool>, a: Config, b: Config, c: Config)
    requires Reaches(s, a, b) && Reaches(s, a, c)
    requires Valid(s, b) && Valid(s, c) && Step(s, b) == Stuck && Step(s, c) == Stuck
    ensures b == c
  {
    hide Step, Valid;
    var n: nat :| Path(s, a, b, n);
    var m: nat :| Path(s, a, c, m);
    PathUnique(s, a, b, c, n, m);
  }
}
