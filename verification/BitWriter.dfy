/**
  The 16-bit output buffer of trees.c and the pending output of deflate.c.
*/
module BitWriter {
  import opened Bits
  import opened Format

  const BUF_SIZE: nat := 16

  /** A 16-bit word sent low byte first is its sixteen bits. */
  lemma WordBits(w: nat)
    requires w < Pow2(16)
    ensures w % 256 < 256 && 0 <= w / 256 < 256
    ensures BytesToBits([w % 256, w / 256]) == ToBits(w, 16)
  {
    Pow2Values();
    var lo: byte, hi: byte := w % 256, w / 256;
    var b := ToBits(w, 16);
    FromTo(w, 16);
    SplitValue(b, 8);
    ToFrom(b[..8]);
    ToFrom(b[8..]);
    OneByte(lo);
    OneByte(hi);
    BytesToBitsAppend([lo], [hi]);
    assert [lo] + [hi] == [lo, hi];
    assert b == b[..8] + b[8..];
  }

  lemma OneByte(x: byte)
    ensures BytesToBits([x]) == ByteBits(x)
  {
    assert BytesToBits([]) == [];
    assert [x][1..] == [];
    assert ByteBits(x) + [] == ByteBits(x);
  }

  /** Sixteen bits taken from a buffer of `v` bits extended by `n` bits of `value`. */
  lemma Spill(buf: nat, v: nat, value: nat, n: nat)
    requires v <= 16 && n <= 16 && v + n > 16 && buf < Pow2(v) && value < Pow2(n)
    ensures var word := Low(Joined(buf, v, value), 16);
            var rest := Shr(value, 16 - v);
            word < Pow2(16) && rest < Pow2(v + n - 16) &&
            ToBits(word, 16) + ToBits(rest, v + n - 16) == ToBits(buf, v) + ToBits(value, n)
  {
    hide Pow2, FromBits, ToBits;
    var a, b := ToBits(buf, v), ToBits(value, n);
    var w := a + b;
    FromTo(buf, v);
    FromTo(value, n);
    FromBitsAppend(a, b);
    assert FromBits(w) == buf + value * Pow2(v);
    SplitValue(w, 16);
    SplitValue(b, 16 - v);
    assert w[16..] == b[16 - v..];
    FromBitsBound(w[..16]);
    FromBitsBound(w[16..]);
    ToFrom(w[..16]);
    ToFrom(w[16..]);
    assert w == w[..16] + w[16..];
  }

  lemma DropByte(buf: nat, v: nat)
    requires 8 <= v <= 16 && buf < Pow2(v)
    ensures 0 <= buf % 256 < 256 && 0 <= buf / 256 < Pow2(v - 8)
    ensures ToBits(buf, v) == ByteBits(buf % 256) + ToBits(buf / 256, v - 8)
  {
    Pow2Values();
    var b := ToBits(buf, v);
    FromTo(buf, v);
    SplitValue(b, 8);
    ToFrom(b[..8]);
    ToFrom(b[8..]);
    FromBitsBound(b[8..]);
    assert b == b[..8] + b[8..];
  }

  lemma PadByte(buf: nat, v: nat, n: nat)
    requires v <= n && buf < Pow2(v)
    ensures buf < Pow2(n)
    ensures ToBits(buf, n) == ToBits(buf, v) + Zeros(n - v)
  {
    hide Pow2, FromBits, ToBits;
    var w := ToBits(buf, v) + Zeros(n - v);
    FromTo(buf, v);
    PadValue(ToBits(buf, v), n - v);
    ToFrom(w);
    Pow2Mono(v, n);
  }

  class Writer {
    /** All bytes handed to the application so far, and those still waiting. */
    var delivered: seq<byte>
    var pending: seq<byte>
    /** Bit buffer: the low `biValid` bits of `biBuf` are not yet in `pending`. */
    var biBuf: nat
    var biValid: nat

    ghost predicate Valid()
      reads this
    {
      biValid <= BUF_SIZE && biBuf < Pow2(biValid)
    }

    ghost function Bytes(): (b: seq<bool>)
      reads this`delivered, this`pending
    {
      BytesToBits(delivered + pending)
    }

    /** Every bit sent since the start of the stream. */
    ghost function Sent(): (b: seq<bool>)
      reads this
    {
      Bytes() + ToBits(biBuf, biValid)
    }

    constructor ()
      ensures Valid() && Sent() == [] && delivered == [] && pending == [] && biValid == 0
    {
      delivered, pending, biBuf, biValid := [], [], 0, 0;
    }

    method PutByte(c: byte)
      modifies this`pending
      ensures pending == old(pending) + [c]
      ensures Bytes() == old(Bytes()) + ByteBits(c)
    {
      hide BytesToBits, ByteBits;
      assert (delivered + pending) + [c] == delivered + (pending + [c]);
      BytesToBitsAppend(delivered + pending, [c]);
      OneByte(c);
      pending := pending + [c];
    }

    method PutShort(w: nat)
      requires w < Pow2(16)
      modifies this`pending
      ensures |pending| == |old(pending)| + 2
      ensures Bytes() == old(Bytes()) + ToBits(w, 16)
    {
      hide ByteBits, BytesToBits, ToBits, Pow2;
      WordBits(w);
      ghost var two: seq<byte> := [w % 256, w / 256];
      BytesToBitsAppend(delivered + pending, two);
      assert (delivered + pending) + two == delivered + (pending + two);
      pending := pending + [w % 256];
      pending := pending + [w / 256];
      assert pending == old(pending) + two;
    }

    /** Copies whole bytes to the pending output. */
    method PutBytes(buf: seq<byte>)
      modifies this`pending
      ensures pending == old(pending) + buf
      ensures Bytes() == old(Bytes()) + BytesToBits(buf)
    {
      hide BytesToBits;
      assert (delivered + pending) + buf == delivered + (pending + buf);
      BytesToBitsAppend(delivered + pending, buf);
      pending := pending + buf;
    }

    lemma Aligned()
      requires biValid == 0
      ensures Sent() == Bytes() && |Sent()| % 8 == 0
    {
      hide BytesToBits;
      BytesLength();
      assert ToBits(biBuf, 0) == [];
      assert Bytes() + [] == Bytes();
    }

    /** send_bits: appends the `length` bits of `value`. */
    method SendBits(value: nat, length: nat)
      requires Valid() && length <= 16 && value < Pow2(length)
      modifies this`pending, this`biBuf, this`biValid
      ensures Valid() && Sent() == old(Sent()) + ToBits(value, length)
    {
      hide ToBits, Bytes, Pow2, Joined, Low, Shr;
      if biValid > BUF_SIZE - length {
        Spill(biBuf, biValid, value, length);
        var word := Low(Joined(biBuf, biValid, value), 16);
        PutShort(word);
        SeqAssoc(old(Bytes()), ToBits(word, 16), ToBits(Shr(value, BUF_SIZE - biValid), biValid + length - BUF_SIZE));
        SeqAssoc(old(Bytes()), ToBits(biBuf, biValid), ToBits(value, length));
        biBuf := Shr(value, BUF_SIZE - biValid);
        biValid := biValid + length - BUF_SIZE;
      } else {
        Extend(biBuf, biValid, value, length);
        SeqAssoc(Bytes(), ToBits(biBuf, biValid), ToBits(value, length));
        biBuf := Joined(biBuf, biValid, value);
        biValid := biValid + length;
      }
    }

    /** bi_flush: moves whole bytes out of the bit buffer, leaving at most seven bits. */
    method BiFlush()
      requires Valid()
      modifies this`pending, this`biBuf, this`biValid
      ensures Valid() && Sent() == old(Sent()) && biValid <= 7 && (old(biValid) == 0 ==> biValid == 0)
      ensures old(biValid) <= 7 ==> pending == old(pending)
    {
      hide ToBits, Bytes, ByteBits, Pow2;
      if biValid == 16 {
        PutShort(biBuf);
        biBuf := 0;
        biValid := 0;
        EmptyBits();
        assert Bytes() + [] == Bytes();
      } else if biValid >= 8 {
        DropByte(biBuf, biValid);
        SeqAssoc(Bytes(), ByteBits(biBuf % 256), ToBits(biBuf / 256, biValid - 8));
        PutByte(biBuf % 256);
        biBuf := biBuf / 256;
        biValid := biValid - 8;
      }
    }

    /** bi_windup: pads with zero bits to a byte boundary. */
    method BiWindup()
      requires Valid()
      modifies this`pending, this`biBuf, this`biValid
      ensures Valid() && biValid == 0
      ensures Sent() == old(Sent()) + Zeros(Align(|old(Sent())|) - |old(Sent())|)
    {
      hide ToBits, Bytes, ByteBits, Pow2;
      ghost var before := Sent();
      BytesLength();
      if biValid > 8 {
        PadByte(biBuf, biValid, 16);
        PutShort(biBuf);
        AlignUp(|before|, |before| - biValid, biValid);
        SeqAssoc(old(Bytes()), ToBits(biBuf, biValid), Zeros(16 - biValid));
      } else if biValid > 0 {
        PadByte(biBuf, biValid, 8);
        Pow2Values();
        PutByte(biBuf);
        ByteIs(biBuf);
        AlignUp(|before|, |before| - biValid, biValid);
        SeqAssoc(old(Bytes()), ToBits(biBuf, biValid), Zeros(8 - biValid));
      } else {
        AlignUp(|before|, |before|, 0);
      }
      biBuf := 0;
      biValid := 0;
      EmptyBits();
      assert Bytes() + [] == Bytes();
      assert before + Zeros(0) == before;
      assert old(Bytes()) + [] == old(Bytes());
    }

    lemma BytesLength()
      ensures |Bytes()| == 8 * |delivered + pending|
    {
    }

    /** flush_pending: hands over as many waiting bytes as the application has room for. */
    method FlushPending(availOut: nat) returns (rest: nat)
      requires Valid()
      modifies this
      ensures Valid() && Sent() == old(Sent()) && biValid <= 7
      ensures old(delivered) <= delivered && rest <= availOut
      ensures |delivered| - |old(delivered)| == availOut - rest
      ensures (rest > 0 ==> pending == []) && (old(biValid) == 0 ==> biValid == 0)
      ensures old(biValid) <= 7 ==>
                |pending| == |old(pending)| - (availOut - rest) && (rest == 0 <==> |old(pending)| >= availOut)
    {
      BiFlush();
      hide ToBits, BytesToBits;
      var len := |pending|;
      if len > availOut { len := availOut; }
      assert delivered + pending == (delivered + pending[..len]) + pending[len..];
      delivered := delivered + pending[..len];
      pending := pending[len..];
      rest := availOut - len;
    }
  }

  lemma EmptyBits()
    ensures ToBits(0, 0) == [] && Pow2(0) == 1
  {
  }

  lemma ByteIs(x: byte)
    ensures ByteBits(x) == ToBits(x, 8)
  {
  }

  lemma AlignUp(n: nat, whole: nat, v: nat)
    requires n == whole + v && whole % 8 == 0 && v <= 16
    ensures v > 8 ==> Align(n) == whole + 16
    ensures 0 < v <= 8 ==> Align(n) == whole + 8
    ensures v == 0 ==> Align(n) == whole
  {
  }
}
