/**
  crc32.c: the CRC-32 register, the tables, and the byte-wise and word-wise forms.

  A 32-bit word is the sequence of its binary digits, least significant first.
*/
module Crc32 {
  import opened Bits

  type Word = w: seq<bool> | |w| == 32 witness Zeros(32)

  // ------------------------------------------------------------------ words

  function Xor(a: Word, b: Word): (r: Word) { seq(32, i requires 0 <= i < 32 => a[i] != b[i]) }

  /** The word shifted right by `n`. */
  function Right(a: Word, n: nat): (r: Word)
    requires n <= 32
  {
    a[n..] + Zeros(n)
  }

  /** The word shifted left by `n`. */
  function Left(a: Word, n: nat): (r: Word)
    requires n <= 32
  {
    Zeros(n) + a[..32 - n]
  }

  function Ones(): (r: Word) { seq(32, i => true) }

  function Not(a: Word): (r: Word) { Xor(a, Ones()) }

  /** The digits `b` as a word. */
  function Wide(b: seq<bool>): (r: Word)
    requires |b| <= 32
  {
    b + Zeros(32 - |b|)
  }

  /** ZSWAP32. */
  function Swap(a: Word): (r: Word) { a[24..] + a[16..24] + a[8..16] + a[..8] }

  lemma XorSame(a: Word)
    ensures Xor(a, a) == Zeros(32) && Xor(a, Zeros(32)) == a && Xor(Zeros(32), a) == a
  {
  }

  lemma XorComm(a: Word, b: Word)
    ensures Xor(a, b) == Xor(b, a)
  {
  }

  lemma XorAssoc(a: Word, b: Word, c: Word)
    ensures Xor(Xor(a, b), c) == Xor(a, Xor(b, c))
  {
  }

  lemma SwapXor(a: Word, b: Word)
    ensures Swap(Xor(a, b)) == Xor(Swap(a), Swap(b))
  {
  }

  lemma SwapSwap(a: Word)
    ensures Swap(Swap(a)) == a
  {
    var s := Swap(a);
    assert s[..8] == a[24..] && s[8..16] == a[16..24] && s[16..24] == a[8..16] && s[24..] == a[..8];
  }

  lemma SwapNot(a: Word)
    ensures Swap(Not(a)) == Not(Swap(a))
  {
    SwapXor(a, Ones());
    assert Swap(Ones()) == Ones();
  }

  lemma SwapRight(a: Word)
    ensures Swap(Right(a, 8)) == Left(Swap(a), 8)
  {
  }

  // ------------------------------------------------------------------ the shift register

  /** The powers of the polynomial below 32. */
  const TERMS: seq<nat> := [0, 1, 2, 4, 5, 7, 8, 10, 11, 12, 16, 22, 23, 26]

  /** The polynomial, lowest power in the most significant bit. */
  function Poly(): (p: Word) { seq(32, i => 31 - i in TERMS) }

  lemma PolyValue()
    ensures Poly() == ToBits(0xedb88320, 32)
  {
    hide ToBits, Pow2, Poly;
    Pow2Values();
    Pow2Add(16, 8);
    PolyByte(0);
    PolyByte(1);
    PolyByte(2);
    PolyByte(3);
    Extend(0x20, 8, 0x83, 8);
    Extend(0x8320, 16, 0xb8, 8);
    Extend(0xb88320, 24, 0xed, 8);
    var p := Poly();
    assert p == p[0..8] + p[8..16] + p[16..24] + p[24..32];
  }

  lemma TermsAre(x: int)
    ensures x in TERMS <==>
              x == 0 || x == 1 || x == 2 || x == 4 || x == 5 || x == 7 || x == 8 || x == 10 || x == 11 || x == 12 ||
              x == 16 || x == 22 || x == 23 || x == 26
  {
  }

  lemma PolyBit(i: nat)
    requires i < 32
    ensures Poly()[i] <==>
              i == 31 || i == 30 || i == 29 || i == 27 || i == 26 || i == 24 || i == 23 || i == 21 || i == 20 ||
              i == 19 || i == 15 || i == 9 || i == 8 || i == 5
  {
    hide TERMS;
    TermsAre(31 - i);
  }

  /** The hexadecimal digits of the polynomial, lowest first. */
  const NIBBLES: seq<nat> := [0x0, 0x2, 0x3, 0x8, 0x8, 0xb, 0xd, 0xe]

  lemma Nibble(v: nat)
    requires v < 16
    ensures ToBits(v, 4) == [v % 2 == 1, v / 2 % 2 == 1, v / 4 % 2 == 1, v / 8 == 1]
  {
    assert ToBits(v / 8, 1) == [v / 8 == 1] + ToBits(v / 16, 0);
    assert ToBits(v / 4, 2) == [v / 4 % 2 == 1] + ToBits(v / 8, 1);
    assert ToBits(v / 2, 3) == [v / 2 % 2 == 1] + ToBits(v / 4, 2);
  }

  lemma PolyNibble(j: nat)
    requires j < 8
    ensures Poly()[4 * j..4 * j + 4] == ToBits(NIBBLES[j], 4)
  {
    hide Poly, ToBits, NIBBLES;
    PolyBit(4 * j);
    PolyBit(4 * j + 1);
    PolyBit(4 * j + 2);
    PolyBit(4 * j + 3);
    NibbleBits(j);
    var p := Poly();
    assert p[4 * j..4 * j + 4] == [p[4 * j], p[4 * j + 1], p[4 * j + 2], p[4 * j + 3]];
  }

  lemma NibbleBits(j: nat)
    requires j < 8
    ensures |NIBBLES| == 8 && ToBits(NIBBLES[j], 4) ==
              [j == 2 || j == 5 || j == 6, j == 1 || j == 2 || j == 5 || j == 7, j == 6 || j == 7, j >= 3]
  {
    hide ToBits;
    Nibble(NIBBLES[j]);
    assert j == 0 || j == 1 || j == 2 || j == 3 || j == 4 || j == 5 || j == 6 || j == 7;
  }

  lemma PolyByte(j: nat)
    requires j < 4
    ensures Poly()[8 * j..8 * j + 8] == ToBits(NIBBLES[2 * j] + 16 * NIBBLES[2 * j + 1], 8)
  {
    hide Poly, ToBits, Pow2;
    Pow2Values();
    PolyNibble(2 * j);
    PolyNibble(2 * j + 1);
    Extend(NIBBLES[2 * j], 4, NIBBLES[2 * j + 1], 4);
    var p := Poly();
    assert p[8 * j..8 * j + 8] == p[4 * (2 * j)..4 * (2 * j) + 4] + p[4 * (2 * j + 1)..4 * (2 * j + 1) + 4];
  }

  /** Multiplying by x modulo the polynomial: one zero bit enters the register. */
  function Advance(c: Word): (r: Word) { if c[0] then Xor(Right(c, 1), Poly()) else Right(c, 1) }

  function AdvanceBy(c: Word, n: nat): (r: Word)
    decreases n
  {
    if n == 0 then c else AdvanceBy(Advance(c), n - 1)
  }

  /** The register after the bits `b` have entered one by one. */
  function Register(c: Word, b: seq<bool>): (r: Word)
    decreases |b|
  {
    if b == [] then c else Register(if c[0] != b[0] then Xor(Right(c, 1), Poly()) else Right(c, 1), b[1..])
  }

  /** The CRC of `data` continuing from `crc`. */
  function Crc(crc: Word, data: seq<byte>): (r: Word) { Not(Register(Not(crc), BytesToBits(data))) }

  lemma {:induction false} RegisterAppend(c: Word, a: seq<bool>, b: seq<bool>)
    ensures Register(c, a + b) == Register(Register(c, a), b)
    decreases |a|
  {
    if a == [] {
      assert a + b == b;
    } else {
      assert (a + b)[1..] == a[1..] + b;
      RegisterAppend(if c[0] != a[0] then Xor(Right(c, 1), Poly()) else Right(c, 1), a[1..], b);
    }
  }

  lemma AdvanceXor(a: Word, b: Word)
    ensures Advance(Xor(a, b)) == Xor(Advance(a), Advance(b))
  {
    hide Poly;
  }

  lemma {:induction false} AdvanceByXor(a: Word, b: Word, n: nat)
    ensures AdvanceBy(Xor(a, b), n) == Xor(AdvanceBy(a, n), AdvanceBy(b, n))
    decreases n
  {
    hide Advance, Xor;
    if n > 0 {
      AdvanceXor(a, b);
      AdvanceByXor(Advance(a), Advance(b), n - 1);
    }
  }

  lemma {:induction false} AdvanceByAdd(c: Word, n: nat, m: nat)
    ensures AdvanceBy(AdvanceBy(c, n), m) == AdvanceBy(c, n + m)
    decreases n
  {
    hide Advance;
    if n > 0 { AdvanceByAdd(Advance(c), n - 1, m); }
  }

  /** Zero digits at the low end are shifted out. */
  lemma {:induction false} ShiftOut(b: seq<bool>, n: nat)
    requires n + |b| <= 32
    ensures AdvanceBy(Wide(Zeros(n) + b), n) == Wide(b)
    decreases n
  {
    hide Xor, Poly;
    if n == 0 {
      assert Zeros(0) + b == b;
    } else {
      var w := Wide(Zeros(n) + b);
      assert !w[0];
      assert Right(w, 1) == Wide(Zeros(n - 1) + b);
      ShiftOut(b, n - 1);
    }
  }

  /** Up to 32 bits can be added to the register at once and shifted out together. */
  lemma {:induction false} RegisterAtOnce(c: Word, b: seq<bool>)
    requires |b| <= 32
    ensures Register(c, b) == AdvanceBy(Xor(c, Wide(b)), |b|)
    decreases |b|
  {
    hide Xor, Advance, Poly;
    if b == [] {
      assert Wide(b) == Zeros(32);
      XorSame(c);
    } else {
      var first, rest := Wide([b[0]]), Wide([false] + b[1..]);
      EnterBit(c, b[0]);
      var d := Advance(Xor(c, first));
      RegisterAtOnce(d, b[1..]);
      assert Wide(b) == Xor(first, rest) by { SplitBit(b); }
      XorAssoc(c, first, rest);
      AdvanceXor(Xor(c, first), rest);
      ShiftOut(b[1..], 1);
      assert Zeros(1) == [false];
      assert AdvanceBy(rest, 1) == AdvanceBy(Advance(rest), 0) == Advance(rest);
    }
  }

  lemma SplitBit(b: seq<bool>)
    requires 1 <= |b| <= 32
    ensures Wide(b) == Xor(Wide([b[0]]), Wide([false] + b[1..]))
  {
  }

  lemma EnterBit(c: Word, x: bool)
    ensures Advance(Xor(c, Wide([x]))) == if c[0] != x then Xor(Right(c, 1), Poly()) else Right(c, 1)
  {
    hide Poly;
    var w := Xor(c, Wide([x]));
    assert w[0] == (c[0] != x);
    assert Right(w, 1) == Right(c, 1);
  }

  // ------------------------------------------------------------------ bytes

  /** The register after the byte with digits `b` has entered an empty register, followed by `k` zero bytes. */
  function Table(k: nat, b: seq<bool>): (r: Word)
    requires |b| == 8
  {
    AdvanceBy(Wide(b), 8 * (k + 1))
  }

  /** Byte `j` of a word. */
  function ByteOf(c: Word, j: nat): (b: seq<bool>)
    requires j < 4
    ensures |b| == 8
  {
    c[8 * j..8 * j + 8]
  }

  /** One byte leaves the register. */
  lemma AdvanceByte(c: Word)
    ensures AdvanceBy(c, 8) == Xor(Table(0, ByteOf(c, 0)), Right(c, 8))
  {
    hide AdvanceBy;
    var low, high := Wide(c[..8]), Wide(Zeros(8) + c[8..]);
    assert c == Xor(low, high);
    AdvanceByXor(low, high, 8);
    ShiftOut(c[8..], 8);
    assert Wide(c[8..]) == Right(c, 8);
  }

  /** DO1: a byte enters the register by one look-up. */
  lemma OneByteStep(c: Word, b: seq<bool>)
    requires |b| == 8
    ensures Register(c, b) == Xor(Table(0, ByteOf(Xor(c, Wide(b)), 0)), Right(c, 8))
  {
    hide Register, Table, AdvanceBy;
    RegisterAtOnce(c, b);
    AdvanceByte(Xor(c, Wide(b)));
    assert Right(Xor(c, Wide(b)), 8) == Right(c, 8);
  }

  /** Byte `j` of a word, alone in its place. */
  function Part(x: Word, j: nat): (r: Word)
    requires j < 4
  {
    Wide(Zeros(8 * j) + ByteOf(x, j))
  }

  /** It leaves the register as a table entry. */
  lemma LonePart(x: Word, j: nat)
    requires j < 4
    ensures AdvanceBy(Part(x, j), 32) == Table(3 - j, ByteOf(x, j))
  {
    hide AdvanceBy;
    ShiftOut(ByteOf(x, j), 8 * j);
    AdvanceByAdd(Part(x, j), 8 * j, 32 - 8 * j);
  }

  function Xor4(a: Word, b: Word, c: Word, d: Word): (r: Word) { Xor(Xor(Xor(a, b), c), d) }

  lemma FourParts(x: Word)
    ensures x == Xor4(Part(x, 0), Part(x, 1), Part(x, 2), Part(x, 3))
  {
  }

  lemma AdvanceFour(a: Word, b: Word, c: Word, d: Word, n: nat)
    ensures AdvanceBy(Xor4(a, b, c, d), n) == Xor4(AdvanceBy(a, n), AdvanceBy(b, n), AdvanceBy(c, n), AdvanceBy(d, n))
  {
    hide AdvanceBy, Xor;
    AdvanceByXor(Xor(Xor(a, b), c), d, n);
    AdvanceByXor(Xor(a, b), c, n);
    AdvanceByXor(a, b, n);
  }

  /** The four look-ups of DOLIT4. */
  function Sliced(x: Word): (r: Word)
  {
    Xor4(Table(3, ByteOf(x, 0)), Table(2, ByteOf(x, 1)), Table(1, ByteOf(x, 2)), Table(0, ByteOf(x, 3)))
  }

  lemma WideWhole(w: Word)
    ensures Wide(w) == w
  {
  }

  /** DOLIT4: four bytes enter the register by four look-ups. */
  lemma FourByteStep(c: Word, w: Word)
    ensures Register(c, w) == Sliced(Xor(c, w))
  {
    hide Register, Table, AdvanceBy, Xor, Xor4, ByteOf, Part, Wide;
    var x := Xor(c, w);
    RegisterAtOnce(c, w);
    WideWhole(w);
    FourParts(x);
    AdvanceFour(Part(x, 0), Part(x, 1), Part(x, 2), Part(x, 3), 32);
    LonePart(x, 0);
    LonePart(x, 1);
    LonePart(x, 2);
    LonePart(x, 3);
  }

  // ------------------------------------------------------------------ the tables

  /** The digits of a table index. */
  function Index(b: seq<bool>): (n: nat)
    requires |b| == 8
    ensures n < 256 && ToBits(n, 8) == b
  {
    FromBitsBound(b);
    Pow2Values();
    ToFrom(b);
    FromBits(b)
  }

  ghost predicate Row(t: array2<Word>, n: nat)
    requires t.Length0 == 8 && t.Length1 == 256 && n < 256
    reads t
  {
    forall k :: 0 <= k < 4 ==> t[k, n] == Table(k, ToBits(n, 8)) && t[k + 4, n] == Swap(Table(k, ToBits(n, 8)))
  }

  /** The tables of make_crc_table. */
  ghost predicate ValidTable(t: array2<Word>)
    reads t
  {
    t.Length0 == 8 && t.Length1 == 256 && forall n :: 0 <= n < 256 ==> Row(t, n)
  }

  lemma Lookup(t: array2<Word>, k: nat, b: seq<bool>)
    requires ValidTable(t) && |b| == 8 && k < 4
    ensures t.Length0 == 8 && t.Length1 == 256 && t[k, Index(b)] == Table(k, b) &&
            t[k + 4, Index(b)] == Swap(Table(k, b))
  {
    hide Table, Swap;
    assert Row(t, Index(b));
  }

  /** The exclusive-or pattern from the terms of the polynomial. */
  method MakePoly() returns (poly: Word)
    ensures poly == Poly()
  {
    poly := Zeros(32);
    var n := 0;
    while n < |TERMS|
      invariant 0 <= n <= |TERMS| && forall i :: 0 <= i < 32 ==> (poly[i] <==> 31 - i in TERMS[..n])
    {
      assert TERMS[..n + 1] == TERMS[..n] + [TERMS[n]];
      poly := poly[31 - TERMS[n] := true];
      n := n + 1;
    }
    assert TERMS[..n] == TERMS;
  }

  /** The CRC of one byte, bit by bit. */
  method ByteCrc(poly: Word, n: nat) returns (c: Word)
    requires poly == Poly() && n < 256
    ensures c == Table(0, ToBits(n, 8))
  {
    hide Poly, Xor, AdvanceBy;
    c := Wide(ToBits(n, 8));
    var k := 0;
    AdvanceNone(c);
    while k < 8
      invariant 0 <= k <= 8 && c == AdvanceBy(Wide(ToBits(n, 8)), k)
    {
      AdvanceByAdd(Wide(ToBits(n, 8)), k, 1);
      AdvanceOnce(c);
      c := if c[0] then Xor(poly, Right(c, 1)) else Right(c, 1);
      XorComm(poly, Right(AdvanceBy(Wide(ToBits(n, 8)), k), 1));
      k := k + 1;
    }
  }

  lemma AdvanceNone(c: Word)
    ensures AdvanceBy(c, 0) == c
  {
  }

  lemma AdvanceOnce(c: Word)
    ensures AdvanceBy(c, 1) == Advance(c)
  {
    AdvanceNone(Advance(c));
  }

  lemma TableNext(k: nat, b: seq<bool>)
    requires |b| == 8
    ensures Table(k + 1, b) == Xor(Table(0, ByteOf(Table(k, b), 0)), Right(Table(k, b), 8))
  {
    hide Xor, AdvanceBy;
    AdvanceByAdd(Wide(b), 8 * (k + 1), 8);
    AdvanceByte(Table(k, b));
  }

  /** make_crc_table. */
  method MakeCrcTable() returns (t: array2<Word>)
    ensures ValidTable(t) && fresh(t)
  {
    hide Table, Swap, Poly, Xor, Right;
    var poly := MakePoly();
    t := new Word[8, 256]((i, j) => Zeros(32));
    var n := 0;
    while n < 256
      invariant 0 <= n <= 256 && forall i :: 0 <= i < n ==> t[0, i] == Table(0, ToBits(i, 8))
    {
      t[0, n] := ByteCrc(poly, n);
      n := n + 1;
    }
    n := 0;
    while n < 256
      invariant 0 <= n <= 256 && forall i :: 0 <= i < n ==> Row(t, i)
      invariant forall i :: 0 <= i < 256 ==> t[0, i] == Table(0, ToBits(i, 8))
    {
      FillRow(t, n);
      n := n + 1;
    }
  }

  /** The entries for a byte followed by up to three zero bytes, and all of them swapped. */
  method FillRow(t: array2<Word>, n: nat)
    requires t.Length0 == 8 && t.Length1 == 256 && n < 256 &&
             forall i :: 0 <= i < 256 ==> t[0, i] == Table(0, ToBits(i, 8))
    modifies t
    ensures Row(t, n) && forall j, i :: 0 <= j < 8 && 0 <= i < 256 && i != n ==> t[j, i] == old(t[j, i])
    ensures t[0, n] == old(t[0, n]) && forall i :: 0 <= i < 256 && i != n && old(Row(t, i)) ==> Row(t, i)
  {
    hide Table, Swap, Xor, Right, ByteOf;
    var b := ToBits(n, 8);
    var c := t[0, n];
    t[4, n] := Swap(c);
    var k := 1;
    while k < 4
      invariant 1 <= k <= 4 && c == Table(k - 1, b) && t[0, n] == old(t[0, n])
      invariant forall i :: 0 <= i < k ==> t[i, n] == Table(i, b) && t[i + 4, n] == Swap(Table(i, b))
      invariant forall i :: 0 <= i < 256 ==> t[0, i] == Table(0, ToBits(i, 8))
      invariant forall j, i :: 0 <= j < 8 && 0 <= i < 256 && i != n ==> t[j, i] == old(t[j, i])
    {
      TableNext(k - 1, b);
      c := Xor(t[0, Index(ByteOf(c, 0))], Right(c, 8));
      t[k, n] := c;
      t[k + 4, n] := Swap(c);
      k := k + 1;
    }
  }

  // ------------------------------------------------------------------ crc32_z

  lemma NextByte(c: Word, data: seq<byte>, pos: nat)
    requires pos < |data|
    ensures Register(c, BytesToBits(data[..pos + 1]))
            == Register(Register(c, BytesToBits(data[..pos])), ByteBits(data[pos]))
  {
    hide Register, BytesToBits, ByteBits;
    assert data[..pos + 1] == data[..pos] + [data[pos]];
    BytesToBitsAppend(data[..pos], [data[pos]]);
    ByteAlone(data[pos]);
    RegisterAppend(c, BytesToBits(data[..pos]), ByteBits(data[pos]));
  }

  lemma ByteAlone(x: byte)
    ensures BytesToBits([x]) == ByteBits(x)
  {
    assert [x][1..] == [];
    assert BytesToBits([]) == [];
  }

  /** Single bytes from `pos` to `end`. */
  method Bytewise(t: array2<Word>, c0: Word, data: seq<byte>, pos: nat, end: nat, ghost start: Word) returns (c: Word)
    requires ValidTable(t) && pos <= end <= |data| && c0 == Register(start, BytesToBits(data[..pos]))
    ensures c == Register(start, BytesToBits(data[..end]))
  {
    hide Register, BytesToBits, ByteBits, Xor, Right, Table, Wide, ByteOf;
    c := c0;
    var p := pos;
    while p < end
      invariant pos <= p <= end && c == Register(start, BytesToBits(data[..p]))
    {
      NextByte(start, data, p);
      OneByteStep(c, ByteBits(data[p]));
      var i := ByteOf(Xor(c, Wide(ByteBits(data[p]))), 0);
      Lookup(t, 0, i);
      c := Xor(t[0, Index(i)], Right(c, 8));
      p := p + 1;
    }
  }

  lemma RegisterNone(c: Word, data: seq<byte>)
    ensures Register(c, BytesToBits(data[..0])) == c
  {
    assert BytesToBits([]) == [];
  }

  /** crc32_z without BYFOUR: eight bytes at a time, then the rest. */
  method Crc32Bytes(t: array2<Word>, crc: Word, data: seq<byte>) returns (r: Word)
    requires ValidTable(t)
    ensures r == Crc(crc, data)
  {
    hide Register, BytesToBits, ValidTable, Xor;
    var c, len := Not(crc), |data|;
    RegisterNone(c, data);
    while len >= 8
      invariant 0 <= len <= |data| && c == Register(Not(crc), BytesToBits(data[..|data| - len]))
    {
      c := Bytewise(t, c, data, |data| - len, |data| - len + 8, Not(crc));
      len := len - 8;
    }
    c := Bytewise(t, c, data, |data| - len, |data|, Not(crc));
    assert data[..|data|] == data;
    r := Not(c);
  }

  // ------------------------------------------------------------------ words in little-endian order

  /** The word at `pos` as a little-endian machine reads it. */
  function Load(data: seq<byte>, pos: nat): (w: Word)
    requires pos + 4 <= |data|
  {
    ByteBits(data[pos]) + ByteBits(data[pos + 1]) + ByteBits(data[pos + 2]) + ByteBits(data[pos + 3])
  }

  lemma NextWord(c: Word, data: seq<byte>, pos: nat)
    requires pos + 4 <= |data|
    ensures Register(c, BytesToBits(data[..pos + 4]))
            == Register(Register(c, BytesToBits(data[..pos])), Load(data, pos))
  {
    hide Register, BytesToBits, ByteBits;
    var a := data[..pos];
    var b0, b1, b2, b3 := ByteBits(data[pos]), ByteBits(data[pos + 1]),
                          ByteBits(data[pos + 2]), ByteBits(data[pos + 3]);
    NextByte(c, data, pos);
    NextByte(c, data, pos + 1);
    NextByte(c, data, pos + 2);
    NextByte(c, data, pos + 3);
    var r := Register(c, BytesToBits(a));
    RegisterAppend(r, b0 + b1 + b2, b3);
    RegisterAppend(r, b0 + b1, b2);
    RegisterAppend(r, b0, b1);
  }

  /** DOLIT4. */
  method Lit4(t: array2<Word>, c0: Word, w: Word) returns (c: Word)
    requires ValidTable(t)
    ensures c == Register(c0, w)
  {
    hide Register, Xor, Xor4, Table, ByteOf, ValidTable;
    c := Xor(c0, w);
    Lookup(t, 3, ByteOf(c, 0));
    Lookup(t, 2, ByteOf(c, 1));
    Lookup(t, 1, ByteOf(c, 2));
    Lookup(t, 0, ByteOf(c, 3));
    FourByteStep(c0, w);
    c := Xor4(t[3, Index(ByteOf(c, 0))], t[2, Index(ByteOf(c, 1))], t[1, Index(ByteOf(c, 2))],
              t[0, Index(ByteOf(c, 3))]);
  }

  /** Whole words from `pos` on, `n` of them. */
  method LittleWords(t: array2<Word>, c0: Word, data: seq<byte>, pos: nat, n: nat, ghost start: Word) returns (c: Word)
    requires ValidTable(t) && pos + 4 * n <= |data| && c0 == Register(start, BytesToBits(data[..pos]))
    ensures c == Register(start, BytesToBits(data[..pos + 4 * n]))
  {
    hide Register, BytesToBits, Load, ValidTable;
    c := c0;
    var i := 0;
    while i < n
      invariant 0 <= i <= n && c == Register(start, BytesToBits(data[..pos + 4 * i]))
    {
      NextWord(start, data, pos + 4 * i);
      c := Lit4(t, c, Load(data, pos + 4 * i));
      i := i + 1;
    }
  }

  /** crc32_little. */
  method Crc32Little(t: array2<Word>, crc: Word, data: seq<byte>, address: nat) returns (r: Word)
    requires ValidTable(t)
    ensures r == Crc(crc, data)
  {
    hide Register, BytesToBits, ValidTable, Xor;
    var c := Not(crc);
    RegisterNone(c, data);
    var pos := 0;
    while pos < |data| && (address + pos) % 4 != 0
      invariant 0 <= pos <= |data| && c == Register(Not(crc), BytesToBits(data[..pos]))
    {
      c := Bytewise(t, c, data, pos, pos + 1, Not(crc));
      pos := pos + 1;
    }
    while |data| - pos >= 32
      invariant 0 <= pos <= |data| && c == Register(Not(crc), BytesToBits(data[..pos]))
    {
      c := LittleWords(t, c, data, pos, 8, Not(crc));
      pos := pos + 32;
    }
    while |data| - pos >= 4
      invariant 0 <= pos <= |data| && c == Register(Not(crc), BytesToBits(data[..pos]))
    {
      c := LittleWords(t, c, data, pos, 1, Not(crc));
      pos := pos + 4;
    }
    c := Bytewise(t, c, data, pos, |data|, Not(crc));
    assert data[..|data|] == data;
    r := Not(c);
  }

  // ------------------------------------------------------------------ words in big-endian order

  /** The word at `pos` as a big-endian machine reads it. */
  function LoadBig(data: seq<byte>, pos: nat): (w: Word)
    requires pos + 4 <= |data|
    ensures w == Swap(Load(data, pos))
  {
    ByteBits(data[pos + 3]) + ByteBits(data[pos + 2]) + ByteBits(data[pos + 1]) + ByteBits(data[pos])
  }

  lemma SwapByte(c: Word, j: nat)
    requires j < 4
    ensures ByteOf(Swap(c), j) == ByteOf(c, 3 - j)
  {
  }

  /** One byte of crc32_big: the register is kept byte-swapped. */
  method BigByte(t: array2<Word>, c: Word, x: byte, ghost little: Word) returns (r: Word)
    requires ValidTable(t) && c == Swap(little)
    ensures r == Swap(Register(little, ByteBits(x)))
  {
    hide Register, Xor, Table, Swap, Right, Left, ValidTable;
    var i := ByteOf(Xor(Right(c, 24), Wide(ByteBits(x))), 0);
    TopByte(little, ByteBits(x));
    Lookup(t, 0, i);
    OneByteStep(little, ByteBits(x));
    SwapXor(Table(0, i), Right(little, 8));
    SwapRight(little);
    r := Xor(t[4, Index(i)], Left(c, 8));
  }

  lemma TopByte(little: Word, b: seq<bool>)
    requires |b| == 8
    ensures ByteOf(Xor(Right(Swap(little), 24), Wide(b)), 0) == ByteOf(Xor(little, Wide(b)), 0)
  {
  }

  /** The four look-ups of DOBIG4 are those of DOLIT4, swapped. */
  method Big4(t: array2<Word>, c0: Word, w: Word, ghost little: Word, ghost v: Word) returns (c: Word)
    requires ValidTable(t) && c0 == Swap(little) && w == Swap(v)
    ensures c == Swap(Register(little, v))
  {
    hide Register, Xor, Xor4, Table, ByteOf, Swap, ValidTable, Sliced;
    ghost var x := Xor(little, v);
    SwapXor(little, v);
    c := Xor(c0, w);
    SwapByte(x, 0);
    SwapByte(x, 1);
    SwapByte(x, 2);
    SwapByte(x, 3);
    Lookup(t, 0, ByteOf(c, 0));
    Lookup(t, 1, ByteOf(c, 1));
    Lookup(t, 2, ByteOf(c, 2));
    Lookup(t, 3, ByteOf(c, 3));
    FourByteStep(little, v);
    SwapSliced(x);
    c := Xor4(t[4, Index(ByteOf(c, 0))], t[5, Index(ByteOf(c, 1))], t[6, Index(ByteOf(c, 2))],
              t[7, Index(ByteOf(c, 3))]);
  }

  lemma SwapSliced(x: Word)
    ensures Swap(Sliced(x))
            == Xor4(Swap(Table(0, ByteOf(x, 3))), Swap(Table(1, ByteOf(x, 2))), Swap(Table(2, ByteOf(x, 1))),
                    Swap(Table(3, ByteOf(x, 0))))
  {
    hide Table, Swap, Xor, ByteOf;
    var a, b, c, d := Table(3, ByteOf(x, 0)), Table(2, ByteOf(x, 1)), Table(1, ByteOf(x, 2)), Table(0, ByteOf(x, 3));
    SwapXor(Xor(Xor(a, b), c), d);
    SwapXor(Xor(a, b), c);
    SwapXor(a, b);
    FourReversed(Swap(a), Swap(b), Swap(c), Swap(d));
  }

  lemma FourReversed(a: Word, b: Word, c: Word, d: Word)
    ensures Xor4(a, b, c, d) == Xor4(d, c, b, a)
  {
  }

  method BigBytes(t: array2<Word>, c0: Word, data: seq<byte>, pos: nat, end: nat, ghost start: Word) returns (c: Word)
    requires ValidTable(t) && pos <= end <= |data| && c0 == Swap(Register(start, BytesToBits(data[..pos])))
    ensures c == Swap(Register(start, BytesToBits(data[..end])))
  {
    hide Register, BytesToBits, ByteBits, Swap, ValidTable;
    c := c0;
    var p := pos;
    while p < end
      invariant pos <= p <= end && c == Swap(Register(start, BytesToBits(data[..p])))
    {
      NextByte(start, data, p);
      c := BigByte(t, c, data[p], Register(start, BytesToBits(data[..p])));
      p := p + 1;
    }
  }

  method BigWords(t: array2<Word>, c0: Word, data: seq<byte>, pos: nat, n: nat, ghost start: Word) returns (c: Word)
    requires ValidTable(t) && pos + 4 * n <= |data| && c0 == Swap(Register(start, BytesToBits(data[..pos])))
    ensures c == Swap(Register(start, BytesToBits(data[..pos + 4 * n])))
  {
    hide Register, BytesToBits, Load, LoadBig, Swap, ValidTable;
    c := c0;
    var i := 0;
    while i < n
      invariant 0 <= i <= n && c == Swap(Register(start, BytesToBits(data[..pos + 4 * i])))
    {
      NextWord(start, data, pos + 4 * i);
      c := Big4(t, c, LoadBig(data, pos + 4 * i), Register(start, BytesToBits(data[..pos + 4 * i])),
                Load(data, pos + 4 * i));
      i := i + 1;
    }
  }

  /** crc32_big. */
  method Crc32Big(t: array2<Word>, crc: Word, data: seq<byte>, address: nat) returns (r: Word)
    requires ValidTable(t)
    ensures r == Crc(crc, data)
  {
    hide Register, BytesToBits, ValidTable, Xor, Swap, Not;
    var c := Not(Swap(crc));
    SwapNot(crc);
    RegisterNone(Not(crc), data);
    var pos := 0;
    while pos < |data| && (address + pos) % 4 != 0
      invariant 0 <= pos <= |data| && c == Swap(Register(Not(crc), BytesToBits(data[..pos])))
    {
      c := BigBytes(t, c, data, pos, pos + 1, Not(crc));
      pos := pos + 1;
    }
    while |data| - pos >= 32
      invariant 0 <= pos <= |data| && c == Swap(Register(Not(crc), BytesToBits(data[..pos])))
    {
      c := BigWords(t, c, data, pos, 8, Not(crc));
      pos := pos + 32;
    }
    while |data| - pos >= 4
      invariant 0 <= pos <= |data| && c == Swap(Register(Not(crc), BytesToBits(data[..pos])))
    {
      c := BigWords(t, c, data, pos, 1, Not(crc));
      pos := pos + 4;
    }
    c := BigBytes(t, c, data, pos, |data|, Not(crc));
    assert data[..|data|] == data;
    SwapNot(Register(Not(crc), BytesToBits(data)));
    SwapSwap(Not(Register(Not(crc), BytesToBits(data))));
    r := Swap(Not(c));
  }

  /** How the machine is built: one byte at a time, or words in one of the two orders. */
  datatype Machine = BYTES | LITTLE | BIG

  /** crc32_z: every form computes the same checksum; without a buffer the initial value. */
  method Crc32Z(t: array2<Word>, crc: Word, buffer: Option<seq<byte>>, address: nat, m: Machine) returns (r: Word)
    requires ValidTable(t)
    ensures buffer.None? ==> r == Zeros(32)
    ensures buffer.Some? ==> r == Crc(crc, buffer.value)
  {
    hide ValidTable, Crc;
    if buffer.None? { return Zeros(32); }
    match m
    case BYTES => r := Crc32Bytes(t, crc, buffer.value);
    case LITTLE => r := Crc32Little(t, crc, buffer.value, address);
    case BIG => r := Crc32Big(t, crc, buffer.value, address);
  }
}
