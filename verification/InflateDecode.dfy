/**
  inflate.c: decoding one symbol, pulling just enough bytes.
*/
module InflateDecode {
  import opened Bits
  import opened Canonical
  import opened InflateTable
  import opened Format
  import opened TableRead
  import opened Accumulator
  import opened InflateState

  /** The accumulator is what the machine sees next. */
  lemma AvailIs(io: Io, fed0: seq<byte>, c: Config)
    requires Reading(io, fed0, c) && AtBit(io, fed0, c)
    ensures io.next <= |io.input| && c.pos <= |Stream(io, fed0)| && Stream(io, fed0)[c.pos..] == Avail(io) &&
            io.hold < Pow2(io.bits)
  {
    hide BytesToBits, Reaches, Pow2, ToBits;
  }

  /** The machine and a table to decode with. */
  ghost predicate Decoding(io: Io, fed0: seq<byte>, c: Config, t: Ref, used: nat, kind: Kind, lens: seq<nat>)
    reads t.code
  {
    Reading(io, fed0, c) && AtBit(io, fed0, c) && TableAt(t.code, t.at, used, t.bits, kind, lens) &&
    Lagging(lens, Avail(io))
  }

  lemma TableFits(io: Io, fed0: seq<byte>, c: Config, t: Ref, used: nat, kind: Kind, lens: seq<nat>)
    requires Decoding(io, fed0, c, t, used, kind, lens)
    ensures Fits(lens) && io.next <= |io.input| && t.at + used <= t.code.Length
    ensures RootSays(View(t.code, t.at, used), t.bits, kind, lens, io.hold, Avail(io))
  {
    hide BytesToBits, Reaches, Pow2, ToBits, TableFor, Fits, RootSays, View, Reading, Stream;
    AvailIs(io, fed0, c);
    ReadRoot(View(t.code, t.at, used), t.bits, kind, lens, io.hold, Avail(io));
    AcceptableFits(kind, lens);
  }

  /** One more byte after a read that was not decisive. */
  lemma PullMore(s: Io, io: Io, fed0: seq<byte>, c: Config, t: Ref, used: nat, kind: Kind, lens: seq<nat>)
    requires Decoding(s, fed0, c, t, used, kind, lens) && Decode(lens, Avail(s)) == NeedMore
    requires Reading(io, fed0, c) && Pulled(io, s) && io.next == s.next + 1 && s.next < |s.input| &&
             Avail(io) == Avail(s) + ByteBits(s.input[s.next])
    requires Stream(io, fed0) == Stream(s, fed0) + ByteBits(s.input[s.next])
    ensures Decoding(io, fed0, c, t, used, kind, lens)
  {
    hide BytesToBits, Reaches, Pow2, ToBits, TableFor, TableAt, Reading, Stream, Decode;
    LagPull(lens, Avail(s), ByteBits(s.input[s.next]));
  }

  /** Reads the first table until the entry found lies within the bits present. */
  method DecodeRoot(s: Io, ghost fed0: seq<byte>, ghost c: Config, t: Ref, ghost used: nat, kind: Kind,
                    ghost lens: seq<nat>)
    returns (ok: bool, io: Io, here: Entry)
    requires Decoding(s, fed0, c, t, used, kind, lens)
    ensures Pulled(io, s) && Decoding(io, fed0, c, t, used, kind, lens)
    ensures RootRead(io, t, used, kind, lens, here)
    ensures ok ==> here.bits <= io.bits
    ensures !ok ==> io.next == |io.input| && Decode(lens, Avail(io)) == NeedMore
  {
    hide Decoding, Reading, Stream, RootSays, RootRead, View, Decode, Fits, Low;
    ok, io := true, s;
    DecodingRange(s, fed0, c, t, used, kind, lens);
    while true
      invariant Pulled(io, s) && Decoding(io, fed0, c, t, used, kind, lens)
      decreases |io.input| - io.next
    {
      TableFits(io, fed0, c, t, used, kind, lens);
      RootIndex(io, t, used, kind, lens);
      DecodingRange(io, fed0, c, t, used, kind, lens);
      here := t.code[t.at + Low(io.hold, t.bits)];
      if here.bits <= io.bits { return; }
      ghost var was := io;
      var more;
      ok, more := PullByte(io, fed0, c);
      if !ok { return; }
      PullMore(io, more, fed0, c, t, used, kind, lens);
      io := more;
    }
  }

  /** `here` is what the first table says about the accumulator. */
  ghost predicate RootRead(io: Io, t: Ref, used: nat, kind: Kind, lens: seq<nat>, here: Entry)
    reads t.code
  {
    t.at + used <= t.code.Length && RootSays(View(t.code, t.at, used), t.bits, kind, lens, io.hold, Avail(io)) &&
    here == View(t.code, t.at, used)[Low(io.hold, t.bits)]
  }

  lemma DecodingRange(io: Io, fed0: seq<byte>, c: Config, t: Ref, used: nat, kind: Kind, lens: seq<nat>)
    requires Decoding(io, fed0, c, t, used, kind, lens)
    ensures io.next <= |io.input| && Reading(io, fed0, c)
  {
    hide Reading, TableAt;
    ReadingRange(io, fed0, c);
  }

  lemma RootIndex(io: Io, t: Ref, used: nat, kind: Kind, lens: seq<nat>)
    requires t.at + used <= t.code.Length && RootSays(View(t.code, t.at, used), t.bits, kind, lens, io.hold, Avail(io))
    ensures t.at + Low(io.hold, t.bits) < t.code.Length
    ensures var here := t.code[t.at + Low(io.hold, t.bits)];
            RootRead(io, t, used, kind, lens, here) && here.bits <= MAX_BITS &&
            (here.bits > io.bits ==> Decode(lens, Avail(io)) == NeedMore)
  {
    hide Low, Decode, Answer, SubSays;
  }

  /** What a symbol decoded with `size` bits means for the machine. */
  ghost predicate Found(io: Io, fed0: seq<byte>, c: Config, kind: Kind, lens: seq<nat>, here: Entry, size: nat)
  {
    Reading(io, fed0, c) && AtBit(io, fed0, c) && size <= io.bits && io.bits - size < 8 &&
    Answer(kind, lens, Stream(io, fed0)[c.pos..], here, size)
  }

  lemma FoundAt(io: Io, fed0: seq<byte>, c: Config, t: Ref, used: nat, kind: Kind, lens: seq<nat>, here: Entry,
                size: nat)
    requires Decoding(io, fed0, c, t, used, kind, lens) && Answer(kind, lens, Avail(io), here, size)
    ensures Found(io, fed0, c, kind, lens, here, size)
  {
    hide TableAt, Reading, Stream, Lagging;
    AvailIs(io, fed0, c);
    LagDone(kind, lens, Avail(io), here, size);
  }

  /** Reads the second table through `link` until the entry lies within the bits present. */
  method DecodeSub(s: Io, ghost fed0: seq<byte>, ghost c: Config, t: Ref, ghost used: nat, kind: Kind,
                   ghost lens: seq<nat>, link: Entry)
    returns (ok: bool, io: Io, here: Entry)
    requires Decoding(s, fed0, c, t, used, kind, lens) && RootRead(s, t, used, kind, lens, link) && IsLink(link) &&
             link.bits <= s.bits
    ensures Pulled(io, s) && Decoding(io, fed0, c, t, used, kind, lens)
    ensures ok ==> link.bits + here.bits <= io.bits && Answer(kind, lens, Avail(io), here, link.bits + here.bits)
    ensures !ok ==> io.next == |io.input| && Decode(lens, Avail(io)) == NeedMore
  {
    hide Decoding, Reading, Stream, RootSays, RootRead, View, Decode, Fits, Low, SubIndex, Answer;
    ok, io := true, s;
    DecodingRange(s, fed0, c, t, used, kind, lens);
    while true
      invariant Pulled(io, s) && Decoding(io, fed0, c, t, used, kind, lens) &&
                RootRead(io, t, used, kind, lens, link) && link.bits <= io.bits
      decreases |io.input| - io.next
    {
      SubAt(io, t, used, kind, lens, link);
      DecodingRange(io, fed0, c, t, used, kind, lens);
      here := t.code[t.at + SubIndex(link, io.hold)];
      if link.bits + here.bits <= io.bits { return; }
      var more;
      ok, more := PullByte(io, fed0, c);
      if !ok { return; }
      PullMore(io, more, fed0, c, t, used, kind, lens);
      SameLink(io, more, fed0, c, t, used, kind, lens, link);
      io := more;
    }
  }

  lemma SubAt(io: Io, t: Ref, used: nat, kind: Kind, lens: seq<nat>, link: Entry)
    requires RootRead(io, t, used, kind, lens, link) && IsLink(link) && link.bits <= io.bits
    ensures t.at + SubIndex(link, io.hold) < t.code.Length
    ensures var here := t.code[t.at + SubIndex(link, io.hold)];
            link.bits + here.bits <= MAX_BITS &&
            (link.bits + here.bits > io.bits ==> Decode(lens, Avail(io)) == NeedMore) &&
            (link.bits + here.bits <= io.bits ==> Answer(kind, lens, Avail(io), here, link.bits + here.bits))
  {
    hide Low, SubIndex, Decode, Answer;
  }

  /** The low bits do not change when a byte is pulled, so the link stays the same. */
  lemma SameLink(s: Io, io: Io, fed0: seq<byte>, c: Config, t: Ref, used: nat, kind: Kind, lens: seq<nat>, link: Entry)
    requires Decoding(s, fed0, c, t, used, kind, lens) && Decoding(io, fed0, c, t, used, kind, lens)
    requires RootRead(s, t, used, kind, lens, link) && IsLink(link) && link.bits <= s.bits && Avail(s) <= Avail(io)
    ensures RootRead(io, t, used, kind, lens, link)
  {
    hide Decoding, RootSays, View, Low, Pow2, ToBits;
    LinkBits(s, t, used, kind, lens, link);
    HoldBound(s, fed0, c, t, used, kind, lens);
    HoldBound(io, fed0, c, t, used, kind, lens);
    TableFits(io, fed0, c, t, used, kind, lens);
    LowSame(s.hold, s.bits, io.hold, io.bits, link.bits);
  }

  lemma HoldBound(io: Io, fed0: seq<byte>, c: Config, t: Ref, used: nat, kind: Kind, lens: seq<nat>)
    requires Decoding(io, fed0, c, t, used, kind, lens)
    ensures io.hold < Pow2(io.bits)
  {
    hide Reading, TableAt, Stream;
    AvailIs(io, fed0, c);
  }

  lemma LinkBits(io: Io, t: Ref, used: nat, kind: Kind, lens: seq<nat>, link: Entry)
    requires RootRead(io, t, used, kind, lens, link) && IsLink(link)
    ensures link.bits == t.bits
  {
    hide Low, SubSays, Answer, Decode;
  }

  lemma LowSame(a: nat, n: nat, b: nat, m: nat, k: nat)
    requires k <= n <= m && a < Pow2(n) && b < Pow2(m) && ToBits(a, n) <= ToBits(b, m)
    ensures Low(a, k) == Low(b, k)
  {
    hide Pow2, ToBits;
    var x, y := ToBits(a, n), ToBits(b, m);
    FromTo(a, n);
    FromTo(b, m);
    SplitValue(x, k);
    SplitValue(y, k);
    assert x[..k] == y[..k];
  }

  /** Decodes one symbol through one or two tables. */
  method DecodeEntry(s: Io, ghost fed0: seq<byte>, ghost c: Config, t: Ref, ghost used: nat, kind: Kind,
                     ghost lens: seq<nat>)
    returns (ok: bool, io: Io, here: Entry, size: nat)
    requires Decoding(s, fed0, c, t, used, kind, lens)
    ensures Pulled(io, s)
    ensures ok ==> Found(io, fed0, c, kind, lens, here, size)
    ensures !ok ==>
              Reading(io, fed0, c) && AtBit(io, fed0, c) && io.next == |io.input| &&
              Decode(lens, Stream(io, fed0)[c.pos..]) == NeedMore
  {
    hide Decoding, Reading, Stream, RootSays, RootRead, View, Decode, Fits, Low, Answer, Found;
    size := 0;
    ok, io, here := DecodeRoot(s, fed0, c, t, used, kind, lens);
    if !ok {
      NotFound(io, fed0, c, t, used, kind, lens);
      return;
    }
    if IsLink(here) {
      var link, first := here, io;
      ok, io, here := DecodeSub(io, fed0, c, t, used, kind, lens, link);
      if !ok {
        NotFound(io, fed0, c, t, used, kind, lens);
        return;
      }
      size := link.bits + here.bits;
    } else {
      RootAnswer(io, t, used, kind, lens, here);
      size := here.bits;
    }
    FoundAt(io, fed0, c, t, used, kind, lens, here, size);
  }

  lemma RootAnswer(io: Io, t: Ref, used: nat, kind: Kind, lens: seq<nat>, here: Entry)
    requires RootRead(io, t, used, kind, lens, here) && !IsLink(here) && here.bits <= io.bits
    ensures Answer(kind, lens, Avail(io), here, here.bits)
  {
    hide Low, Answer, Decode, SubSays;
  }

  lemma NotFound(io: Io, fed0: seq<byte>, c: Config, t: Ref, used: nat, kind: Kind, lens: seq<nat>)
    requires Decoding(io, fed0, c, t, used, kind, lens) && Decode(lens, Avail(io)) == NeedMore
    ensures Reading(io, fed0, c) && io.next <= |io.input| && AtBit(io, fed0, c) &&
            Decode(lens, Stream(io, fed0)[c.pos..]) == NeedMore
  {
    hide TableAt, Reading, Stream, Decode;
    AvailIs(io, fed0, c);
  }
}
