/**
  inflate.c: each case of the mode switch, read off the accumulator and the decoding tables, is a step
  of the format machine.
*/
module InflateSteps {
  import opened Bits
  import opened Canonical
  import opened InflateTable
  import opened Format
  import opened TableRead
  import opened Accumulator

  /** The machine stands where the accumulator starts. */
  ghost predicate Here(s: seq<bool>, c: Config, hold: nat, bits: nat)
  {
    Valid(s, c) && Acc(s, hold, bits) && c.pos == |s| - bits
  }

  function Bit(op: nat, k: nat): (b: bool) { (op / Pow2(k)) % 2 == 1 }

  // ------------------------------------------------------------------ headers

  lemma FirstBit(s: seq<bool>, pos: nat)
    requires pos < |s|
    ensures Field(s, pos, 1) == if s[pos] then 1 else 0
  {
    assert s[pos..pos + 1] == [s[pos]];
    assert [s[pos]][1..] == [];
    assert FromBits([]) == 0;
    assert FromBits([s[pos]]) == BitVal(s[pos]) + 2 * FromBits([]);
  }

  lemma TypeStuck(s: seq<bool>, c: Config, hold: nat, bits: nat)
    requires Here(s, c, hold, bits) && c.mode == TypeDo
    ensures c.last ==> Step(s, c) == Go(Config(true, Done, Align(c.pos), c.out))
    ensures !c.last ==> (bits < 3 <==> Step(s, c) == Stuck)
  {
    hide Align, Field, FixedLit, FixedDist, Acc;
    AccBound(s, hold, bits);
  }

  lemma TypeStep(s: seq<bool>, c: Config, hold: nat, bits: nat)
    requires Here(s, c, hold, bits) && c.mode == TypeDo && !c.last && bits >= 3
    ensures var d := Config(Low(hold, 1) == 1, TypeDo, c.pos + 3, c.out);
            var kind := Low(Shr(hold, 1), 2);
            kind < 4 &&
            Step(s, c) == if kind == 0 then Go(d.(mode := StoredHeader, pos := Align(d.pos)))
                          else if kind == 1 then Go(d.(mode := Len(Codes(FixedLit(), FixedDist()))))
                          else if kind == 2 then Go(d.(mode := Table))
                          else Go(Config(d.last, Bad, 0, c.out))
  {
    hide Align, FixedLit, FixedDist, Low, Shr, Field;
    Pow2Values();
    AccSplit(s, hold, bits, 1);
    AccThen(s, hold, bits, 1, 2);
    FirstBit(s, c.pos);
  }

  lemma StoredStuck(s: seq<bool>, c: Config, hold: nat, bits: nat)
    requires Here(s, c, hold, bits) && c.mode == StoredHeader
    ensures bits < 32 <==> Step(s, c) == Stuck
  {
    hide Field, Acc;
    AccBound(s, hold, bits);
  }

  lemma StoredStep(s: seq<bool>, c: Config, hold: nat)
    requires Here(s, c, hold, 32) && c.mode == StoredHeader
    ensures Low(hold, 16) <= 65535 && Shr(hold, 16) <= 65535
    ensures Low(hold, 16) != 65535 - Shr(hold, 16) ==> Step(s, c) == Go(Config(c.last, Bad, 0, c.out))
    ensures Low(hold, 16) == 65535 - Shr(hold, 16) ==>
              Step(s, c) == Go(Config(c.last, StoredBytes(Low(hold, 16)), c.pos + 32, c.out))
  {
    Pow2Values();
    hide Low, Shr, Field, Pow2;
    AccSplit(s, hold, 32, 16);
    AccThen(s, hold, 32, 16, 16);
    AccBound(s, Shr(hold, 16), 16);
    LowAll(Shr(hold, 16), 16);
  }

  lemma LowAll(x: nat, n: nat)
    requires x < Pow2(n)
    ensures Low(x, n) == x
  {
    DivModUnique(x, Pow2(n), 0, x);
  }

  lemma TableStuck(s: seq<bool>, c: Config, hold: nat, bits: nat)
    requires Here(s, c, hold, bits) && c.mode == Table
    ensures bits < 14 <==> Step(s, c) == Stuck
  {
    hide Field, Acc;
    AccBound(s, hold, bits);
  }

  lemma TableStep(s: seq<bool>, c: Config, hold: nat, bits: nat)
    requires Here(s, c, hold, bits) && c.mode == Table && bits >= 14
    ensures var nlen, ndist, ncode := Low(hold, 5) + 257, Low(Shr(hold, 5), 5) + 1, Low(Shr(Shr(hold, 5), 5), 4) + 4;
            ncode <= 19 &&
            Step(s, c) == if nlen > 286 || ndist > 30 then Go(Config(c.last, Bad, 0, c.out))
                          else Go(Config(c.last, LenLens(nlen, ndist, ncode, []), c.pos + 14, c.out))
  {
    hide Low, Shr, Field;
    Pow2Values();
    AccSplit(s, hold, bits, 5);
    AccThen(s, hold, bits, 5, 5);
    AccThen(s, Shr(hold, 5), bits - 5, 5, 4);
  }

  lemma LenLensStuck(s: seq<bool>, c: Config, hold: nat, bits: nat)
    requires Here(s, c, hold, bits) && c.mode.LenLens? && |c.mode.cl| < c.mode.ncode
    ensures bits < 3 <==> Step(s, c) == Stuck
    ensures bits >= 3 ==>
              Low(hold, 3) <= 7 &&
              Step(s, c) == Go(c.(mode := c.mode.(cl := c.mode.cl + [Low(hold, 3)]), pos := c.pos + 3))
  {
    hide Low, Field, Acceptable, ClensOf;
    Pow2Values();
    AccBound(s, hold, bits);
    if bits >= 3 { AccSplit(s, hold, bits, 3); }
  }

  lemma LenLensDone(s: seq<bool>, c: Config)
    requires Valid(s, c) && c.mode.LenLens? && |c.mode.cl| == c.mode.ncode
    ensures |c.mode.cl| <= 19
    ensures Step(s, c) == if Acceptable(CODES, ClensOf(c.mode.cl))
                          then Go(c.(mode := CodeLens(c.mode.nlen, c.mode.ndist, ClensOf(c.mode.cl), [])))
                          else Go(Config(c.last, Bad, 0, c.out))
  {
    hide Acceptable, ClensOf;
  }

  // ------------------------------------------------------------------ code lengths

  lemma CodeLensStuck(s: seq<bool>, c: Config)
    requires Valid(s, c) && c.mode.CodeLens? && |c.mode.lens| < c.mode.nlen + c.mode.ndist
    ensures Decode(c.mode.clens, s[c.pos..]) == NeedMore ==> Step(s, c) == Stuck
  {
    hide Decode, Acceptable;
  }

  /** The symbol `e.val` was read with `size` bits. */
  lemma CodeLensRead(s: seq<bool>, c: Config, e: Entry, size: nat)
    requires Valid(s, c) && c.mode.CodeLens? && |c.mode.lens| < c.mode.nlen + c.mode.ndist
    requires Answer(CODES, c.mode.clens, s[c.pos..], e, size)
    ensures e.val < 19 && c.pos + size <= |s| && Step(s, c) == CodeLenSymbol(s, c, e.val, size)
  {
    hide Decode, Acceptable, CodeLenSymbol;
  }

  lemma PlainLength(s: seq<bool>, c: Config, sym: nat, size: nat)
    requires c.mode.CodeLens? && c.pos + size <= |s| && sym < 16
    ensures CodeLenSymbol(s, c, sym, size) == Go(c.(mode := c.mode.(lens := c.mode.lens + [sym]), pos := c.pos + size))
  {
  }

  /** A repeat symbol followed by its count, both in the accumulator or not. */
  lemma RepeatLength(s: seq<bool>, c: Config, hold: nat, bits: nat, sym: nat, size: nat)
    requires Here(s, c, hold, bits) && c.mode.CodeLens? && size <= bits && 16 <= sym <= 18
    ensures bits < size + RepBits(sym) ==> CodeLenSymbol(s, c, sym, size) == Stuck
    ensures bits >= size + RepBits(sym) ==>
              (var m, n := c.mode, RepBase(sym) + Low(Shr(hold, size), RepBits(sym));
               CodeLenSymbol(s, c, sym, size) ==
               if (sym == 16 && m.lens == []) || |m.lens| + n > m.nlen + m.ndist then Go(Config(c.last, Bad, 0, c.out))
               else Go(c.(mode := m.(lens := m.lens + seq(n, i => if sym == 16 then m.lens[|m.lens| - 1] else 0)),
                          pos := c.pos + size + RepBits(sym))))
  {
    hide Low, Shr, Field, Acceptable;
    AccBound(s, hold, bits);
    if bits >= size + RepBits(sym) {
      AccThen(s, hold, bits, size, RepBits(sym));
      SameRun(c.mode.lens, sym, RepBase(sym) + Low(Shr(hold, size), RepBits(sym)));
    }
  }

  lemma SameRun(lens: seq<nat>, sym: nat, n: nat)
    ensures sym == 16 && lens != [] ==>
              seq(n, i => if sym == 16 then lens[|lens| - 1] else 0) == seq(n, i => lens[|lens| - 1])
    ensures sym != 16 ==> (lens == [] || seq(n, i => if sym == 16 then lens[|lens| - 1] else 0) == seq(n, i => 0))
  {
  }

  lemma LensDone(s: seq<bool>, c: Config)
    requires Valid(s, c) && c.mode.CodeLens? && |c.mode.lens| == c.mode.nlen + c.mode.ndist
    ensures var m := c.mode;
            var k := Codes(m.lens[..m.nlen], m.lens[m.nlen..]);
            Step(s, c)
            == if m.lens[256] != 0 && Acceptable(LENS, k.ll) && Acceptable(DISTS, k.dl) then Go(c.(mode := Len(k)))
                          else Go(Config(c.last, Bad, 0, c.out))
  {
    hide Acceptable;
  }

  // ------------------------------------------------------------------ compressed data

  lemma LenStuck(s: seq<bool>, c: Config)
    requires Valid(s, c) && c.mode.Len?
    ensures Decode(c.mode.k.ll, s[c.pos..]) == NeedMore <==> Step(s, c) == Stuck
  {
    hide Decode, ExtraBits, ValidCodes, LBASE, LEXT;
    CodesSize(c.mode.k);
    HoleOps();
  }

  /** What inflate makes of the entry `e` in mode LEN. */
  lemma LenStep(s: seq<bool>, c: Config, e: Entry, size: nat)
    requires Valid(s, c) && c.mode.Len? && Answer(LENS, c.mode.k.ll, s[c.pos..], e, size)
    ensures e.op == 0 ==> e.val < 256 && Step(s, c) == Go(c.(mode := Lit(c.mode.k, e.val), pos := c.pos + size))
    ensures e.op != 0 && Bit(e.op, 5) ==> Step(s, c) == Go(c.(mode := TypeDo, pos := c.pos + size))
    ensures e.op != 0 && !Bit(e.op, 5) && Bit(e.op, 6) ==> Step(s, c) == Go(Config(c.last, Bad, 0, c.out))
    ensures e.op != 0 && !Bit(e.op, 5) && !Bit(e.op, 6) ==>
              Step(s, c) == Go(c.(mode := LenExt(c.mode.k, e.val, e.op % 16), pos := c.pos + size))
  {
    hide Decode, ValidCodes, LBASE, LEXT;
    var d := Decode(c.mode.k.ll, s[c.pos..]);
    CodesSize(c.mode.k);
    HoleOps();
    if d.Symbol? && d.sym > 256 { LengthOps(d.sym); }
  }

  /** The flag bits of the entries for invalid codes and for the end of block. */
  lemma HoleOps()
    ensures Bit(64, 6) && !Bit(64, 5) && Bit(96, 5) && |LBASE| == 31 && |LEXT| == 31
  {
    Pow2Values();
    hide Pow2;
  }

  lemma LengthOps(sym: nat)
    requires 257 <= sym < 288
    ensures LEXT[sym - 257] != 0 && !Bit(LEXT[sym - 257], 5) && (Bit(LEXT[sym - 257], 6) <==> sym >= 286)
  {
    Pow2Values();
    hide Pow2;
  }

  lemma ExtStuck(s: seq<bool>, c: Config, hold: nat, bits: nat)
    requires Here(s, c, hold, bits) && (c.mode.LenExt? || c.mode.DistExt?)
    ensures c.mode.extra <= 13 && (bits < c.mode.extra <==> Step(s, c) == Stuck)
  {
    hide Field, Acc, ValidCodes;
    AccBound(s, hold, bits);
  }

  lemma LenExtStep(s: seq<bool>, c: Config, hold: nat, bits: nat)
    requires Here(s, c, hold, bits) && c.mode.LenExt? && bits >= c.mode.extra
    ensures Step(s, c)
            == Go(c.(mode := Dist(c.mode.k, c.mode.base + Low(hold, c.mode.extra)), pos := c.pos + c.mode.extra))
  {
    hide Low, Field, ValidCodes;
    AccSplit(s, hold, bits, c.mode.extra);
  }

  lemma DistStuck(s: seq<bool>, c: Config)
    requires Valid(s, c) && c.mode.Dist?
    ensures Decode(c.mode.k.dl, s[c.pos..]) == NeedMore <==> Step(s, c) == Stuck
  {
    hide Decode, ExtraBits, ValidCodes;
    CodesSize(c.mode.k);
  }

  lemma DistStep(s: seq<bool>, c: Config, e: Entry, size: nat)
    requires Valid(s, c) && c.mode.Dist? && Answer(DISTS, c.mode.k.dl, s[c.pos..], e, size)
    ensures e.op >= 16
    ensures Bit(e.op, 6) ==> Step(s, c) == Go(Config(c.last, Bad, 0, c.out))
    ensures !Bit(e.op, 6) ==>
              Step(s, c) == Go(c.(mode := DistExt(c.mode.k, c.mode.length, e.val, e.op % 16), pos := c.pos + size))
  {
    Pow2Values();
    hide Decode, Pow2;
    var d := Decode(c.mode.k.dl, s[c.pos..]);
    if d.Symbol? { DistanceOps(d.sym); }
  }

  lemma DistanceOps(sym: nat)
    requires sym < 32
    ensures DEXT[sym] >= 16 && (Bit(DEXT[sym], 6) <==> sym >= 30)
  {
    Pow2Values();
    hide Pow2;
  }

  lemma DistExtStep(s: seq<bool>, c: Config, hold: nat, bits: nat)
    requires Here(s, c, hold, bits) && c.mode.DistExt? && bits >= c.mode.extra
    ensures Step(s, c)
            == Go(c.(mode := Match(c.mode.k, c.mode.length, c.mode.base + Low(hold, c.mode.extra)),
                     pos := c.pos + c.mode.extra))
  {
    hide Low, Field, ValidCodes;
    AccSplit(s, hold, bits, c.mode.extra);
  }

  lemma TooFar(s: seq<bool>, c: Config)
    requires Valid(s, c) && c.mode.Match? && c.mode.dist > |c.out|
    ensures Step(s, c) == Go(Config(c.last, Bad, 0, c.out))
  {
    hide ValidCodes;
  }

  /** The state after `n` bytes of a match. */
  function Matched(c: Config, n: nat): (d: Config)
    requires c.mode.Match? && 1 <= c.mode.dist <= |c.out| && n <= c.mode.length
  {
    var m := c.mode;
    c.(mode := if n == m.length then Len(m.k) else m.(length := m.length - n), out := CopyFrom(c.out, n, m.dist))
  }

  /** Copying `n` bytes at once is `n` steps. */
  lemma {:induction false} MatchPart(s: seq<bool>, c: Config, n: nat)
    requires Valid(s, c) && c.mode.Match? && c.mode.dist <= |c.out| && 1 <= n <= c.mode.length
    ensures 1 <= c.mode.dist && Reaches(s, c, Matched(c, n))
    decreases n
  {
    hide Reaches, Valid, Step;
    var m := c.mode;
    var d := MatchOne(s, c);
    ReachStep(s, c, d);
    if n > 1 {
      ReachValid(s, c, d);
      MatchPart(s, d, n - 1);
      assert Matched(d, n - 1) == Matched(c, n);
      ReachTrans(s, c, d, Matched(c, n));
    }
  }

  lemma MatchOne(s: seq<bool>, c: Config) returns (d: Config)
    requires Valid(s, c) && c.mode.Match? && c.mode.dist <= |c.out|
    ensures 1 <= c.mode.dist && 1 <= c.mode.length && Step(s, c) == Go(d) && d == Matched(c, 1)
    ensures d.out == c.out + [c.out[|c.out| - c.mode.dist]]
  {
    hide ValidCodes;
    d := Step(s, c).c;
    OneCopied(c.out, c.mode.dist);
  }

  lemma OneCopied(out: seq<byte>, dist: nat)
    requires 1 <= dist <= |out|
    ensures CopyFrom(out, 1, dist) == out + [out[|out| - dist]]
  {
    var o := out + [out[|out| - dist]];
    assert CopyFrom(o, 0, dist) == o;
  }

  lemma LitOut(s: seq<bool>, c: Config)
    requires Valid(s, c) && c.mode.Lit?
    ensures Step(s, c) == Go(c.(mode := Len(c.mode.k), out := c.out + [c.mode.b]))
  {
    hide ValidCodes;
  }

  // ------------------------------------------------------------------ stored data

  /** Copying `n` stored bytes at once is `n` steps. */
  lemma {:induction false} StoredPart(s: seq<bool>, t: seq<byte>, c: Config)
    requires Valid(s + BytesToBits(t), c) && c.mode.StoredBytes? && |t| <= c.mode.left && c.pos == |s|
    ensures Reaches(s + BytesToBits(t), c,
                    c.(mode := StoredBytes(c.mode.left - |t|), pos := c.pos + 8 * |t|, out := c.out + t))
    decreases |t|
  {
    hide Reaches, Field;
    var u := s + BytesToBits(t);
    var e := c.(mode := StoredBytes(c.mode.left - |t|), pos := c.pos + 8 * |t|, out := c.out + t);
    if t == [] {
      assert c.out + t == c.out;
      assert e == c;
      ReachRefl(u, c);
    } else {
      ByteField(s, t);
      var d := c.(mode := StoredBytes(c.mode.left - 1), pos := c.pos + 8, out := c.out + [t[0]]);
      ReachStep(u, c, d);
      ReachValid(u, c, d);
      SeqAssoc(s, ByteBits(t[0]), BytesToBits(t[1..]));
      StoredPart(s + ByteBits(t[0]), t[1..], d);
      assert (c.out + [t[0]]) + t[1..] == c.out + t;
      ReachTrans(u, c, d, e);
    }
  }

  lemma ByteField(s: seq<bool>, t: seq<byte>)
    requires t != []
    ensures |s| + 8 <= |s + BytesToBits(t)| && Field(s + BytesToBits(t), |s|, 8) == t[0]
  {
    hide ToBits, Pow2;
    Pow2Values();
    var u := s + BytesToBits(t);
    assert u[|s|..|s| + 8] == ByteBits(t[0]);
    FromTo(t[0], 8);
  }

  lemma StoredEnd(s: seq<bool>, c: Config)
    requires Valid(s, c) && c.mode == StoredBytes(0)
    ensures Step(s, c) == Go(c.(mode := TypeDo))
  {
  }

  lemma StoredBytesStuck(s: seq<bool>, c: Config)
    requires Valid(s, c) && c.mode.StoredBytes? && c.mode.left > 0 && c.pos == |s|
    ensures Step(s, c) == Stuck
  {
  }

  /** Taking a step keeps the run. */
  lemma Follow(s: seq<bool>, c: Config, d: Config)
    requires Reaches(s, START, c) && Valid(s, c) && Step(s, c) == Go(d)
    ensures Reaches(s, START, d) && Valid(s, d)
  {
    hide Step, Valid, Reaches;
    ReachStep(s, c, d);
    ReachTrans(s, START, c, d);
    ReachValid(s, START, d);
  }
}
