/**
  The CRC-32 in numbers: the complement, the residue, and the checksum of a text.
*/
module CrcValues {
  import opened Bits
  import opened Crc32

  // ------------------------------------------------------------------ the complement

  lemma {:induction false} ComplementValue(a: seq<bool>, b: seq<bool>)
    requires |a| == |b| && forall i :: 0 <= i < |a| ==> b[i] == !a[i]
    ensures FromBits(b) == Pow2(|a|) - 1 - FromBits(a)
    decreases |a|
  {
    if a != [] { ComplementValue(a[1..], b[1..]); }
  }

  /** `crc ^ 0xffffffff` is the complement of the word. */
  lemma NotValue(a: Word)
    ensures FromBits(Not(a)) == 0xffff_ffff - FromBits(a)
  {
    ComplementValue(a, Not(a));
    Pow2Values();
    Pow2Add(16, 16);
  }

  // ------------------------------------------------------------------ machine words

  /** A machine word. */
  datatype Reg = Reg(v: bv32)

  predicate Odd(w: Reg) { w.v & 1 == 1 }

  function Half(w: Reg): (r: Reg) { Reg(w.v >> 1) }

  function XorReg(a: Reg, b: Reg): (r: Reg) { Reg(a.v ^ b.v) }

  /** The low `n` digits. */
  function Digits(w: Reg, n: nat): (b: seq<bool>)
    ensures |b| == n
    decreases n, w
  {
    if n == 0 then [] else [Odd(w)] + Digits(Half(w), n - 1)
  }

  lemma HalfXor(a: Reg, b: Reg)
    ensures Half(XorReg(a, b)) == XorReg(Half(a), Half(b)) && Odd(XorReg(a, b)) == (Odd(a) != Odd(b))
  {
  }

  lemma {:induction false} XorDigits(a: Reg, b: Reg, n: nat, i: nat)
    requires i < n
    ensures Digits(XorReg(a, b), n)[i] == (Digits(a, n)[i] != Digits(b, n)[i])
    decreases n
  {
    hide Odd, Half, XorReg;
    HalfXor(a, b);
    if i > 0 { XorDigits(Half(a), Half(b), n - 1, i - 1); }
  }

  lemma XorWords(a: Reg, b: Reg)
    ensures Xor(Digits(a, 32), Digits(b, 32)) == Digits(XorReg(a, b), 32)
  {
    hide Digits, XorReg;
    forall i | 0 <= i < 32 ensures Xor(Digits(a, 32), Digits(b, 32))[i] == Digits(XorReg(a, b), 32)[i] {
      XorDigits(a, b, 32, i);
    }
  }

  function Halves(w: Reg, n: nat): (r: Reg)
    decreases n
  {
    if n == 0 then w else Halves(Half(w), n - 1)
  }

  lemma {:induction false} NextDigit(w: Reg, n: nat)
    ensures Digits(w, n + 1) == Digits(w, n) + [Odd(Halves(w, n))]
    decreases n
  {
    hide Odd, Half;
    if n > 0 { NextDigit(Half(w), n - 1); }
  }

  lemma {:induction false} HalvesTwice(w: Reg, n: nat, m: nat)
    ensures Halves(Halves(w, n), m) == Halves(w, n + m)
    decreases n
  {
    hide Half;
    if n > 0 { HalvesTwice(Half(w), n - 1, m); }
  }

  /** The word shifted right by one hexadecimal digit. */
  function Sixteenth(w: Reg): (r: Reg) { Reg(w.v >> 4) }

  lemma FourHalves(w: Reg)
    ensures Half(Half(Half(Half(w)))) == Sixteenth(w)
  {
  }

  lemma HalvesFour(w: Reg)
    ensures Halves(w, 4) == Sixteenth(w)
  {
    hide Half, Sixteenth;
    FourHalves(w);
    assert Halves(Half(Half(w)), 2) == Half(Half(Half(Half(w))));
  }

  lemma EightSixteenths(w: Reg)
    ensures var f := Sixteenth(Sixteenth(Sixteenth(Sixteenth(w))));
            Sixteenth(Sixteenth(Sixteenth(Sixteenth(f)))) == Reg(0)
  {
  }

  lemma HalvesSixteen(w: Reg)
    ensures Halves(w, 16) == Sixteenth(Sixteenth(Sixteenth(Sixteenth(w))))
  {
    hide Half, Sixteenth, Halves;
    HalvesFour(w);
    HalvesFour(Sixteenth(w));
    HalvesFour(Sixteenth(Sixteenth(w)));
    HalvesFour(Sixteenth(Sixteenth(Sixteenth(w))));
    HalvesTwice(w, 4, 4);
    HalvesTwice(w, 8, 4);
    HalvesTwice(w, 12, 4);
  }

  /** The word shifted right by one. */
  lemma RightDigits(w: Reg)
    ensures Right(Digits(w, 32), 1) == Digits(Half(w), 32)
  {
    assert Halves(w, 32) == Halves(Half(w), 31);
    HalvesTwice(w, 16, 16);
    hide Half, Halves, Sixteenth;
    HalvesSixteen(w);
    HalvesSixteen(Halves(w, 16));
    EightSixteenths(w);
    NextDigit(Half(w), 31);
    NotOdd();
    hide Odd;
  }

  lemma NotOdd()
    ensures !Odd(Reg(0))
  {
  }

  // ------------------------------------------------------------------ hexadecimal digits

  /** The digits of the hexadecimal digit `x`. */
  function Hex(x: nat): (b: seq<bool>)
    requires x < 16
  {
    [x % 2 == 1, x / 2 % 2 == 1, x / 4 % 2 == 1, x / 8 == 1]
  }

  lemma HexBits(x: nat)
    requires x < 16
    ensures Hex(x) == ToBits(x, 4)
  {
    Nibble(x);
  }

  /** The hexadecimal digit `x` is the lowest of `v`. */
  predicate Lowest(v: bv32, x: nat)
  {
    x < 16 && Hex(x) == [v & 1 == 1, (v >> 1) & 1 == 1, (v >> 2) & 1 == 1, (v >> 3) & 1 == 1]
  }

  lemma LowestIs(w: Reg, x: nat)
    requires Lowest(w.v, x)
    ensures x < 16 && Hex(x) == [Odd(w), Odd(Half(w)), Odd(Half(Half(w))), Odd(Half(Half(Half(w))))]
  {
    hide Hex;
    Shifts(w.v);
  }

  lemma Shifts(v: bv32)
    ensures (v >> 1) >> 1 == v >> 2 && ((v >> 1) >> 1) >> 1 == v >> 3
  {
  }

  lemma TakeHex(w: Reg, x: nat, n: nat)
    requires Lowest(w.v, x)
    ensures x < 16 && Digits(w, n + 4) == Hex(x) + Digits(Sixteenth(w), n)
  {
    hide Odd, Half, Hex, Lowest, Sixteenth;
    LowestIs(w, x);
    FourHalves(w);
    var a, b, c := Half(w), Half(Half(w)), Half(Half(Half(w)));
    NextLow(w, n + 3);
    NextLow(a, n + 2);
    NextLow(b, n + 1);
    NextLow(c, n);
    hide Digits;
    FourBits(Odd(w), Odd(a), Odd(b), Odd(c), Digits(Half(c), n));
  }

  lemma NextLow(w: Reg, n: nat)
    ensures Digits(w, n + 1) == [Odd(w)] + Digits(Half(w), n)
  {
    hide Odd, Half;
  }

  lemma FourBits(a: bool, b: bool, c: bool, d: bool, rest: seq<bool>)
    ensures [a] + ([b] + ([c] + ([d] + rest))) == [a, b, c, d] + rest
  {
  }

  /** The number with the hexadecimal digits `d`, lowest first. */
  function Number(d: seq<nat>): (n: nat) { if d == [] then 0 else d[0] + 16 * Number(d[1..]) }

  /** The hexadecimal digits of `w` are `d`. */
  predicate Reads(w: Reg, d: seq<nat>)
    decreases |d|
  {
    d == [] || (Lowest(w.v, d[0]) && Reads(Sixteenth(w), d[1..]))
  }

  lemma {:induction false} NumberDigits(w: Reg, d: seq<nat>)
    requires Reads(w, d)
    ensures Number(d) < Pow2(4 * |d|) && Digits(w, 4 * |d|) == ToBits(Number(d), 4 * |d|)
    decreases |d|
  {
    hide Digits, ToBits, Hex, Lowest, Sixteenth;
    if d == [] {
      assert Digits(w, 0) == ToBits(0, 0);
    } else {
      var n := 4 * |d[1..]|;
      NumberDigits(Sixteenth(w), d[1..]);
      TakeHex(w, d[0], n);
      HexBits(d[0]);
      Pow2Values();
      NumberStep(d);
      hide Pow2, Number;
      Extend(d[0], 4, Number(d[1..]), n);
    }
  }

  lemma NumberStep(d: seq<nat>)
    requires d != []
    ensures Number(d) == Joined(d[0], 4, Number(d[1..]))
  {
    Pow2Values();
  }

  lemma ReadsNext(w: Reg, v: bv32, x: nat, d: seq<nat>)
    requires Lowest(w.v, x) && Sixteenth(w).v == v && Reads(Reg(v), d)
    ensures Reads(w, [x] + d)
  {
    hide Lowest, Sixteenth;
    assert Sixteenth(w) == Reg(v);
    assert ([x] + d)[1..] == d;
  }

  lemma ReadsEight(v: bv32, a: nat, b: nat, c: nat, d: nat, e: nat, f: nat, g: nat, h: nat)
    requires Lowest(v, a) && Lowest(v >> 4, b) && Lowest(v >> 8, c) && Lowest(v >> 12, d)
    requires Lowest(v >> 16, e) && Lowest(v >> 20, f) && Lowest(v >> 24, g) && Lowest(v >> 28, h)
    ensures Reads(Reg(v), [a, b, c, d, e, f, g, h])
  {
    EightShifts(v);
    hide Lowest, Sixteenth;
    var r := [h] + [];
    ReadsNext(Reg(v >> 28), Sixteenth(Reg(v >> 28)).v, h, []);
    ReadsNext(Reg(v >> 24), v >> 28, g, r);
    ReadsNext(Reg(v >> 20), v >> 24, f, [g] + r);
    ReadsNext(Reg(v >> 16), v >> 20, e, [f] + ([g] + r));
    ReadsNext(Reg(v >> 12), v >> 16, d, [e] + ([f] + ([g] + r)));
    hide Reads;
    r := [d] + ([e] + ([f] + ([g] + r)));
    assert Reads(Reg(v >> 12), r);
    ReadsNext(Reg(v >> 8), v >> 12, c, r);
    ReadsNext(Reg(v >> 4), v >> 8, b, [c] + r);
    ReadsNext(Reg(v), v >> 4, a, [b] + ([c] + r));
    assert [a] + ([b] + ([c] + r)) == [a, b, c, d, e, f, g, h];
  }

  /** A word is the number its eight hexadecimal digits say. */
  lemma EightDigits(v: bv32, a: nat, b: nat, c: nat, d: nat, e: nat, f: nat, g: nat, h: nat)
    requires Lowest(v, a) && Lowest(v >> 4, b) && Lowest(v >> 8, c) && Lowest(v >> 12, d)
    requires Lowest(v >> 16, e) && Lowest(v >> 20, f) && Lowest(v >> 24, g) && Lowest(v >> 28, h)
    ensures Digits(Reg(v), 32) == ToBits(a + 0x10 * b + 0x100 * c + 0x1000 * d + 0x10000 * e + 0x100000 * f +
                                         0x1000000 * g + 0x10000000 * h, 32)
  {
    hide Lowest, Digits, ToBits, Number, Reads;
    ReadsEight(v, a, b, c, d, e, f, g, h);
    NumberDigits(Reg(v), [a, b, c, d, e, f, g, h]);
    EightIs([a, b, c, d, e, f, g, h]);
  }

  lemma EightShifts(v: bv32)
    ensures Sixteenth(Reg(v)).v == v >> 4 && Sixteenth(Reg(v >> 4)).v == v >> 8
    ensures Sixteenth(Reg(v >> 8)).v == v >> 12 && Sixteenth(Reg(v >> 12)).v == v >> 16
    ensures Sixteenth(Reg(v >> 16)).v == v >> 20 && Sixteenth(Reg(v >> 20)).v == v >> 24
    ensures Sixteenth(Reg(v >> 24)).v == v >> 28
  {
    hide Sixteenth;
    LowShifts(v);
    MiddleShifts(v);
    HighShifts(v);
  }

  lemma LowShifts(v: bv32)
    ensures Sixteenth(Reg(v)).v == v >> 4 && Sixteenth(Reg(v >> 4)).v == v >> 8
  {
  }

  lemma MiddleShifts(v: bv32)
    ensures Sixteenth(Reg(v >> 8)).v == v >> 12 && Sixteenth(Reg(v >> 12)).v == v >> 16
  {
  }

  lemma HighShifts(v: bv32)
    ensures Sixteenth(Reg(v >> 16)).v == v >> 20 && Sixteenth(Reg(v >> 20)).v == v >> 24
    ensures Sixteenth(Reg(v >> 24)).v == v >> 28
  {
  }

  lemma EightIs(d: seq<nat>)
    requires |d| == 8
    ensures Number(d) == d[0] + 0x10 * d[1] + 0x100 * d[2] + 0x1000 * d[3] + 0x10000 * d[4] + 0x100000 * d[5] +
                         0x1000000 * d[6] + 0x10000000 * d[7]
  {
    assert Number(d[7..]) == d[7];
    assert Number(d[6..]) == d[6] + 16 * Number(d[7..]);
    assert Number(d[5..]) == d[5] + 16 * Number(d[6..]);
    assert Number(d[4..]) == d[4] + 16 * Number(d[5..]);
    assert Number(d[3..]) == d[3] + 16 * Number(d[4..]);
    assert Number(d[2..]) == d[2] + 16 * Number(d[3..]);
    assert Number(d[1..]) == d[1] + 16 * Number(d[2..]);
    assert d[0..] == d;
  }

  const POLY: Reg := Reg(0xedb88320)
  const ONES: Reg := Reg(0xffff_ffff)

  lemma PolyDigits()
    ensures Poly() == Digits(POLY, 32)
  {
    hide ToBits, Digits, Poly;
    PolyValue();
    EightDigits(0xedb88320, 0x0, 0x2, 0x3, 0x8, 0x8, 0xb, 0xd, 0xe);
  }

  lemma AllOnes()
    ensures Ones() == Digits(ONES, 32)
  {
    hide Digits, ToBits, FromBits, Ones;
    EightDigits(0xffff_ffff, 15, 15, 15, 15, 15, 15, 15, 15);
    OnesValue();
    ToFrom(Ones());
  }

  lemma OnesValue()
    ensures FromBits(Ones()) == 0xffff_ffff
  {
    hide FromBits;
    NotValue(Zeros(32));
    ZerosValue(32);
    assert Not(Zeros(32)) == Ones();
  }

  lemma NotDigits(w: Reg)
    ensures Not(Digits(w, 32)) == Digits(XorReg(w, ONES), 32)
  {
    hide Digits, Ones, Xor, XorReg, ONES;
    AllOnes();
    XorWords(w, ONES);
  }

  // ------------------------------------------------------------------ the register as a machine word

  function Shifted(w: Reg): (r: Reg) { if Odd(w) then XorReg(Half(w), POLY) else Half(w) }

  function ShiftedBy(w: Reg, n: nat): (r: Reg)
    decreases n
  {
    if n == 0 then w else ShiftedBy(Shifted(w), n - 1)
  }

  lemma ShiftOne(w: Reg)
    ensures Advance(Digits(w, 32)) == Digits(Shifted(w), 32)
  {
    hide Odd, Half, XorReg, Poly, Xor, Right, POLY;
    NextLow(w, 31);
    RightDigits(w);
    PolyDigits();
    hide Digits;
    XorWords(Half(w), POLY);
  }

  lemma {:induction false} ShiftWord(w: Reg, n: nat)
    ensures AdvanceBy(Digits(w, 32), n) == Digits(ShiftedBy(w, n), 32)
    decreases n
  {
    hide Shifted, Digits, Advance;
    if n > 0 {
      ShiftOne(w);
      ShiftWord(Shifted(w), n - 1);
    }
  }

  lemma {:induction false} ShiftedTwice(w: Reg, n: nat, m: nat)
    ensures ShiftedBy(ShiftedBy(w, n), m) == ShiftedBy(w, n + m)
    decreases n
  {
    hide Shifted;
    if n > 0 { ShiftedTwice(Shifted(w), n - 1, m); }
  }

  /** Eight shifts, on the bits of the word. */
  function Eight(v: bv32, n: nat): (r: bv32)
    decreases n
  {
    if n == 0 then v else Eight(if v & 1 == 1 then (v >> 1) ^ 0xedb88320 else v >> 1, n - 1)
  }

  lemma {:induction false} EightIsShifted(v: bv32, n: nat)
    ensures ShiftedBy(Reg(v), n) == Reg(Eight(v, n))
    decreases n
  {
    if n > 0 {
      var u := if v & 1 == 1 then (v >> 1) ^ 0xedb88320 else v >> 1;
      assert Shifted(Reg(v)) == Reg(u);
      EightIsShifted(u, n - 1);
    }
  }

  // ------------------------------------------------------------------ the residue

  /** The four bytes of a word, least significant first. */
  function WordBytes(w: Word): (b: seq<byte>)
  {
    Pow2Values();
    FromBitsBound(w[..8]);
    FromBitsBound(w[8..16]);
    FromBitsBound(w[16..24]);
    FromBitsBound(w[24..]);
    [FromBits(w[..8]), FromBits(w[8..16]), FromBits(w[16..24]), FromBits(w[24..])]
  }

  lemma WordBytesBits(w: Word)
    ensures BytesToBits(WordBytes(w)) == w
  {
    hide FromBits, ToBits;
    ToFrom(w[..8]);
    ToFrom(w[8..16]);
    ToFrom(w[16..24]);
    ToFrom(w[24..]);
    var b := WordBytes(w);
    FirstBits(b);
    FirstBits(b[1..]);
    FirstBits(b[2..]);
    FirstBits(b[3..]);
    assert b[1..][1..] == b[2..] && b[2..][1..] == b[3..] && b[3..][1..] == [];
  }

  lemma FirstBits(b: seq<byte>)
    requires b != []
    ensures BytesToBits(b) == ByteBits(b[0]) + BytesToBits(b[1..])
  {
  }

  lemma ResidueNumber()
    ensures XorReg(ShiftedBy(ONES, 32), ONES) == Reg(0x2144df1c)
  {
    ResidueEights();
    hide ShiftedBy;
    EightIsShifted(0xffff_ffff, 8);
    EightIsShifted(0x2dfd1072, 8);
    EightIsShifted(0xbe26ed00, 8);
    EightIsShifted(0xbe26ed, 8);
    ShiftedTwice(ONES, 8, 24);
    ShiftedTwice(Reg(0x2dfd1072), 8, 16);
    ShiftedTwice(Reg(0xbe26ed00), 8, 8);
    hide Eight;
  }

  lemma ResidueEights()
    ensures Eight(0xffff_ffff, 8) == 0x2dfd1072 && Eight(0x2dfd1072, 8) == 0xbe26ed00
    ensures Eight(0xbe26ed00, 8) == 0xbe26ed && Eight(0xbe26ed, 8) == 0xdebb20e3
  {
    FirstEight();
    SecondEight();
    ThirdEight();
    LastEight();
  }

  lemma FirstEight()
    ensures Eight(0xffff_ffff, 8) == 0x2dfd1072
  {
  }

  lemma SecondEight()
    ensures Eight(0x2dfd1072, 8) == 0xbe26ed00
  {
  }

  lemma ThirdEight()
    ensures Eight(0xbe26ed00, 8) == 0xbe26ed
  {
  }

  lemma LastEight()
    ensures Eight(0xbe26ed, 8) == 0xdebb20e3
  {
  }

  /** The residue: a text followed by its own checksum, least byte first, always has the checksum 0x2144df1c. */
  lemma Residue(crc: Word, data: seq<byte>)
    ensures Crc(crc, data + WordBytes(Crc(crc, data))) == ToBits(0x2144df1c, 32)
  {
    hide Register, AdvanceBy, Xor, ToBits, Not, Pow2, Ones, WordBytes, BytesToBits, Digits, ShiftedBy, XorReg, ONES;
    var r := Register(Not(crc), BytesToBits(data));
    var own := Crc(crc, data);
    BytesToBitsAppend(data, WordBytes(own));
    WordBytesBits(own);
    RegisterAppend(Not(crc), BytesToBits(data), own);
    RegisterAtOnce(r, own);
    XorItsNot(r);
    AllOnes();
    ShiftWord(ONES, 32);
    NotDigits(ShiftedBy(ONES, 32));
    ResidueNumber();
    EightDigits(0x2144df1c, 0xc, 0x1, 0xf, 0xd, 0x4, 0x4, 0x1, 0x2);
  }

  lemma XorItsNot(r: Word)
    ensures Xor(r, Wide(Not(r))) == Ones()
  {
  }

  // ------------------------------------------------------------------ the checksum of a text

  lemma {:induction false} ZeroDigits(n: nat)
    ensures Digits(Reg(0), n) == Zeros(n)
    decreases n
  {
    if n > 0 {
      assert Half(Reg(0)) == Reg(0);
      ZeroDigits(n - 1);
      assert Zeros(n) == [false] + Zeros(n - 1);
    }
  }

  /** `w` is the machine word with the byte `b`. */
  ghost predicate IsByte(w: Reg, b: byte) { Wide(ByteBits(b)) == Digits(w, 32) }

  lemma TwoHex(v: bv32, lo: nat, hi: nat)
    requires Lowest(v, lo) && Lowest(v >> 4, hi) && v >> 8 == 0
    ensures lo < 16 && hi < 16 && IsByte(Reg(v), lo + 16 * hi)
  {
    hide Lowest, Digits, ToBits, Hex, Pow2;
    TakeHex(Reg(v), lo, 28);
    TakeHex(Reg(v >> 4), hi, 24);
    var b: byte := lo + 16 * hi;
    ShiftedOut(v);
    hide Sixteenth;
    HexBits(lo);
    HexBits(hi);
    Pow2Values();
    Extend(lo, 4, hi, 4);
    ZeroDigits(24);
    SeqAssoc(Hex(lo), Hex(hi), Zeros(24));
  }

  lemma ShiftedOut(v: bv32)
    requires v >> 8 == 0
    ensures Sixteenth(Reg(v)) == Reg(v >> 4) && Sixteenth(Reg(v >> 4)) == Reg(0)
  {
  }

  /** One byte enters the register. */
  lemma EnterByte(c: Word, w: Reg, x: Reg, b: byte)
    requires IsByte(x, b) && c == Digits(w, 32)
    ensures Register(c, ByteBits(b)) == Digits(ShiftedBy(XorReg(w, x), 8), 32)
  {
    hide Digits, ByteBits, AdvanceBy, Xor, ShiftedBy, Register, Wide, XorReg;
    RegisterAtOnce(c, ByteBits(b));
    XorWords(w, x);
    ShiftWord(XorReg(w, x), 8);
  }

  /** The checksum of a zero byte. */
  lemma ZeroByte()
    ensures Crc(Zeros(32), [0]) == ToBits(0xd202ef8d, 32)
  {
    hide Digits, ToBits, Not, Register, Ones, ShiftedBy, XorReg, ONES, IsByte, Eight;
    NotDigits(Reg(0));
    ZeroDigits(32);
    TwoHex(0, 0, 0);
    EnterByte(Not(Zeros(32)), XorReg(Reg(0), ONES), Reg(0), 0);
    assert BytesToBits([0]) == ByteBits(0) + [] == ByteBits(0);
    ZeroEight();
    NotDigits(Reg(0x2dfd1072));
    EightDigits(0xd202ef8d, 0xd, 0x8, 0xf, 0xe, 0x2, 0x0, 0x2, 0xd);
  }

  lemma ZeroEight()
    ensures ShiftedBy(XorReg(XorReg(Reg(0), ONES), Reg(0)), 8) == Reg(0x2dfd1072)
    ensures XorReg(Reg(0x2dfd1072), ONES) == Reg(0xd202ef8d)
  {
    EightIsShifted(0xffff_ffff, 8);
    ResidueEights();
    hide ShiftedBy, Eight;
  }
}
