/**
  crc32.c: crc32_combine_, with operators on the register as matrices over GF(2).
*/
module CrcCombine {
  import opened Bits
  import opened Crc32

  // ------------------------------------------------------------------ the law

  /** The register is linear in its start: the part `a` of it only sees zero bits. */
  lemma {:induction false} RegisterXor(a: Word, c: Word, b: seq<bool>)
    ensures Register(Xor(a, c), b) == Xor(AdvanceBy(a, |b|), Register(c, b))
    decreases |b|
  {
    hide Xor, Poly, Right, Advance, Wide;
    if b != [] {
      EnterBit(Xor(a, c), b[0]);
      EnterBit(c, b[0]);
      var first := Wide([b[0]]);
      XorAssoc(a, c, first);
      AdvanceXor(a, Xor(c, first));
      RegisterXor(Advance(a), Advance(Xor(c, first)), b[1..]);
      RegisterStep(Xor(a, c), b);
      RegisterStep(c, b);
    }
  }

  lemma RegisterStep(c: Word, b: seq<bool>)
    requires b != []
    ensures Register(c, b) == Register(Advance(Xor(c, Wide([b[0]]))), b[1..])
  {
    hide Xor, Poly, Right, Advance, Wide;
    EnterBit(c, b[0]);
  }

  lemma NotNot(a: Word)
    ensures Not(Not(a)) == a
  {
  }

  lemma XorNot(a: Word, b: Word)
    ensures Not(Xor(a, Not(b))) == Xor(a, b) && Not(a) == Xor(a, Ones()) && Xor(a, Not(b)) == Not(Xor(a, b))
  {
  }

  /** The checksum of one text after another: that of the first, advanced over as many zero bits as the second has,
      plus that of the second. */
  lemma CombineLaw(x: seq<byte>, y: seq<byte>)
    ensures Crc(Zeros(32), x + y) == Xor(AdvanceBy(Crc(Zeros(32), x), 8 * |y|), Crc(Zeros(32), y))
  {
    hide Register, BytesToBits, Xor, AdvanceBy, Not, Ones;
    var z := Not(Zeros(32));
    NotZero();
    BytesToBitsAppend(x, y);
    RegisterAppend(z, BytesToBits(x), BytesToBits(y));
    var cx, cy := Crc(Zeros(32), x), Crc(Zeros(32), y);
    NotNot(Register(z, BytesToBits(x)));
    NotNot(Register(z, BytesToBits(y)));
    XorNot(cx, cx);
    RegisterXor(cx, Ones(), BytesToBits(y));
    XorNot(AdvanceBy(cx, 8 * |y|), cy);
  }

  lemma NotZero()
    ensures Not(Zeros(32)) == Ones()
  {
  }

  /** A checksum continued over more text is the checksum of the whole. */
  lemma CrcAppend(c: Word, x: seq<byte>, y: seq<byte>)
    ensures Crc(Crc(c, x), y) == Crc(c, x + y)
  {
    hide Register, BytesToBits, Not;
    BytesToBitsAppend(x, y);
    RegisterAppend(Not(c), BytesToBits(x), BytesToBits(y));
    NotNot(Register(Not(c), BytesToBits(x)));
  }

  // ------------------------------------------------------------------ matrices

  function Unit(i: nat): (u: Word)
    requires i < 32
  {
    Zeros(i) + [true] + Zeros(31 - i)
  }

  /** The matrix is the operator that advances the register over `n` zero bits. */
  ghost predicate Operator(mat: seq<Word>, n: nat)
  {
    |mat| == 32 && forall i :: 0 <= i < 32 ==> mat[i] == AdvanceBy(Unit(i), n)
  }

  /** Digits `i` and up of `v`, in place. */
  function From(v: Word, i: nat): (r: Word)
    requires i <= 32
  {
    Zeros(i) + v[i..]
  }

  lemma SplitDigit(v: Word, i: nat)
    requires i < 32
    ensures From(v, i) == if v[i] then Xor(Unit(i), From(v, i + 1)) else From(v, i + 1)
  {
  }

  lemma {:induction false} AdvanceZero(n: nat)
    ensures AdvanceBy(Zeros(32), n) == Zeros(32)
    decreases n
  {
    if n > 0 {
      assert Advance(Zeros(32)) == Zeros(32);
      AdvanceZero(n - 1);
    }
  }

  /** What is left of `v` after `k` shifts. */
  lemma ShiftedDigits(v: Word, k: nat)
    requires k <= 32
    ensures Right(v, k) == Zeros(32) ==> From(v, k) == Zeros(32)
    ensures k < 32 ==> Right(Right(v, k), 1) == Right(v, k + 1) && Right(v, k)[0] == v[k]
    ensures k == 32 ==> Right(v, k) == Zeros(32)
  {
    if Right(v, k) == Zeros(32) {
      forall i | k <= i < 32 ensures !v[i] { assert Right(v, k)[i - k] == v[i]; }
    }
  }

  lemma XorMiddle(s: Word, u: Word, r: Word)
    ensures Xor(s, Xor(u, r)) == Xor(Xor(s, u), r)
  {
  }

  /** gf2_matrix_times: applies the operator. */
  method MatrixTimes(mat: array<Word>, vec0: Word, ghost n: nat) returns (sum: Word)
    requires Operator(mat[..], n)
    ensures sum == AdvanceBy(vec0, n)
  {
    hide AdvanceBy, Xor, Unit, From, Right;
    sum := Zeros(32);
    var vec, k := vec0, 0;
    WholeWord(vec0, n);
    while vec != Zeros(32)
      invariant 0 <= k <= 32 && vec == Right(vec0, k) && Xor(sum, AdvanceBy(From(vec0, k), n)) == AdvanceBy(vec0, n)
      decreases 32 - k
    {
      ShiftedDigits(vec0, k);
      SplitDigit(vec0, k);
      if vec[0] {
        assert mat[..][k] == mat[k];
        AdvanceByXor(Unit(k), From(vec0, k + 1), n);
        XorMiddle(sum, AdvanceBy(Unit(k), n), AdvanceBy(From(vec0, k + 1), n));
        sum := Xor(sum, mat[k]);
      }
      vec := Right(vec, 1);
      k := k + 1;
    }
    ShiftedDigits(vec0, k);
    AdvanceZero(n);
    XorSame(sum);
  }

  lemma WholeWord(v: Word, n: nat)
    ensures Right(v, 0) == v && From(v, 0) == v && Xor(Zeros(32), AdvanceBy(From(v, 0), n)) == AdvanceBy(v, n)
  {
    assert From(v, 0) == v;
    XorSame(AdvanceBy(v, n));
  }

  /** gf2_matrix_square: the operator for twice as many zero bits. */
  method MatrixSquare(square: array<Word>, mat: array<Word>, ghost n: nat)
    requires square != mat && square.Length == 32 && Operator(mat[..], n)
    modifies square
    ensures Operator(square[..], 2 * n)
  {
    hide AdvanceBy, Unit;
    var i := 0;
    while i < 32
      invariant 0 <= i <= 32 && Operator(mat[..], n) &&
                forall j :: 0 <= j < i ==> square[j] == AdvanceBy(Unit(j), 2 * n)
    {
      assert mat[..][i] == mat[i];
      square[i] := MatrixTimes(mat, mat[i], n);
      AdvanceByAdd(Unit(i), n, n);
      i := i + 1;
    }
  }

  /** The operator for one zero bit. */
  method OneBit(odd: array<Word>)
    requires odd.Length == 32
    modifies odd
    ensures Operator(odd[..], 1)
  {
    hide AdvanceBy, Unit, Poly, ToBits;
    PolyValue();
    odd[0] := ToBits(0xedb88320, 32);
    UnitAdvances(0);
    var row := Unit(0);
    var n := 1;
    while n < 32
      invariant 1 <= n <= 32 && (n < 32 ==> row == Unit(n - 1)) &&
                forall j :: 0 <= j < n ==> odd[j] == AdvanceBy(Unit(j), 1)
    {
      UnitAdvances(n);
      odd[n] := row;
      UnitShifts(n - 1);
      row := Left(row, 1);
      n := n + 1;
    }
  }

  lemma UnitAdvances(i: nat)
    requires i < 32
    ensures AdvanceBy(Unit(i), 1) == if i == 0 then Poly() else Unit(i - 1)
  {
    hide Poly;
    AdvanceOnce(Unit(i));
    XorSame(Poly());
    if i == 0 {
      assert Right(Unit(0), 1) == Zeros(32);
    } else {
      assert Right(Unit(i), 1) == Unit(i - 1);
    }
  }

  lemma UnitShifts(i: nat)
    requires i < 31
    ensures Left(Unit(i), 1) == Unit(i + 1)
  {
  }

  // ------------------------------------------------------------------ crc32_combine_

  /** Taking the lowest binary digit off the number of operators still to apply. */
  lemma HalfStep(c: Word, m: nat, len: nat)
    ensures AdvanceBy(if len % 2 == 1 then AdvanceBy(c, m) else c, 2 * m * (len / 2)) == AdvanceBy(c, m * len)
  {
    hide AdvanceBy;
    var q := len / 2;
    if len % 2 == 1 {
      AdvanceByAdd(c, m, 2 * m * q);
      assert len == 2 * q + 1;
      assert m * (2 * q + 1) == m + 2 * m * q;
    } else {
      assert len == 2 * q;
      assert m * (2 * q) == 2 * m * q;
    }
  }

  /** The loop of crc32_combine_: advances `crc1` over `len2` zero bytes. */
  method AdvanceBytes(crc1: Word, len2: nat) returns (c: Word)
    requires len2 > 0
    ensures c == AdvanceBy(crc1, 8 * len2)
  {
    hide AdvanceBy, Operator;
    var even, odd := new Word[32](_ => Zeros(32)), new Word[32](_ => Zeros(32));
    OneBit(odd);
    MatrixSquare(even, odd, 1);
    MatrixSquare(odd, even, 2);
    c := crc1;
    var len := len2;
    ghost var m: nat := 4;
    while true
      invariant len > 0 && m > 0 && Operator(odd[..], m) && AdvanceBy(c, 2 * m * len) == AdvanceBy(crc1, 8 * len2)
      decreases len
    {
      MatrixSquare(even, odd, m);
      HalfStep(c, 2 * m, len);
      if len % 2 == 1 { c := MatrixTimes(even, c, 2 * m); }
      len := len / 2;
      m := 2 * m;
      if len == 0 { break; }
      MatrixSquare(odd, even, m);
      HalfStep(c, 2 * m, len);
      if len % 2 == 1 { c := MatrixTimes(odd, c, 2 * m); }
      len := len / 2;
      m := 2 * m;
      if len == 0 { break; }
    }
    AdvanceNone(c);
  }

  /** crc32_combine_: a length that is not positive leaves the first checksum. */
  method Combine(crc1: Word, crc2: Word, len2: int, ghost x: seq<byte>, ghost y: seq<byte>) returns (r: Word)
    ensures len2 <= 0 ==> r == crc1
    ensures len2 > 0 ==> r == Xor(AdvanceBy(crc1, 8 * len2), crc2)
    ensures len2 == |y| && crc1 == Crc(Zeros(32), x) && crc2 == Crc(Zeros(32), y) ==> r == Crc(Zeros(32), x + y)
  {
    hide Crc, AdvanceBy, Xor;
    assert x + [] == x;
    if len2 <= 0 { return crc1; }
    var c := AdvanceBytes(crc1, len2);
    CombineLaw(x, y);
    r := Xor(c, crc2);
  }
}
