/**
  deflate() and inflate() together: whatever one packs in any number of calls, the other unpacks in any
  number of calls.
*/
module EndToEnd {
  import opened Bits
  import opened Format
  import opened Runs
  import opened BitWriter
  import opened DeflateText
  import opened Restart
  import opened Emit
  import HashChains
  import BlockLog
  import D = Deflate
  import F = DeflateFast
  import I = Inflate
  import S = InflateState

  // ------------------------------------------------------------------ streams

  lemma OneSegment(bytes: seq<byte>, tail: seq<byte>, c: Config)
    requires Leads(BytesToBits(bytes), c)
    ensures BytesToBits(bytes) <= BytesToBits(bytes + tail) && |BytesToBits(bytes + tail)| % 8 == 0 &&
            Reaches(BytesToBits(bytes + tail), START, c)
  {
    hide Reaches, BytesToBits, Leads;
    BytesToBitsAppend(bytes, tail);
    LeadsTo(BytesToBits(bytes), c, BytesToBits(bytes + tail));
  }

  /** A run that has come to its end has come as far as any other. */
  lemma SameEnd(all: seq<byte>, c: Config, g: S.Trace)
    requires I.Follows(g) && I.AtRest(g, all) && Reaches(BytesToBits(all), START, c) && S.IsStuck(BytesToBits(all), c)
    ensures g.cfg == c && g.base == c.out
  {
    hide Reaches, BytesToBits, Valid, Step;
    I.PrefixRun(g, all);
    I.RestIsStuck(g, all);
    ReachUnique(BytesToBits(all), START, g.cfg, c);
  }

  lemma StuckAtEnd(s: seq<bool>, c: Config)
    requires Reaches(s, START, c) && (c.mode == Done || (c.mode == TypeDo && !c.last && c.pos == |s|))
    ensures S.IsStuck(s, c)
  {
    hide Reaches;
    ReachValid(s, START, c);
  }

  /** A whole stream is decoded to its text, whatever follows it and however the calls of inflate() cut it. */
  lemma StreamRoundTrip(bytes: seq<byte>, tail: seq<byte>, data: seq<byte>, g: S.Trace)
    requires WholeStream(BytesToBits(bytes), data) && I.Follows(g) && I.AtRest(g, bytes + tail)
    ensures g.base == data && g.cfg == Config(true, Done, 8 * |bytes|, data)
  {
    hide Reaches, BytesToBits, Leads, S.IsStuck, I.Follows, I.AtRest;
    var c := Config(true, Done, |BytesToBits(bytes)|, data);
    OneSegment(bytes, tail, c);
    StuckAtEnd(BytesToBits(bytes + tail), c);
    SameEnd(bytes + tail, c, g);
  }

  /** When inflate() is done it has taken the stream and not a byte behind it. */
  lemma TailUntouched(y: S.Inflater, bytes: seq<byte>, tail: seq<byte>, data: seq<byte>)
    requires I.Between(y) && y.s.mode == S.DONE && y.g.fed0 <= bytes + tail &&
             WholeStream(BytesToBits(bytes), data)
    ensures y.g.fed0 == bytes && y.g.base == data
  {
    hide I.Between, WholeStream, I.Follows, BytesToBits, S.IsStuck;
    I.BetweenFollows(y);
    I.JustEnough(y);
    StreamRoundTrip(bytes, tail, data, y.g);
    assert (bytes + tail)[..|bytes|] == bytes;
  }

  /** After a flush the decoder gets all input so far from the bytes delivered so far. */
  lemma FlushedIsDecoded(bytes: seq<byte>, data: seq<byte>, g: S.Trace)
    requires Decodes(BytesToBits(bytes), data) && I.Follows(g) && I.AtRest(g, bytes)
    ensures g.base == data
  {
    hide Reaches, BytesToBits, Leads, S.IsStuck, I.Follows, I.AtRest;
    var c := Config(false, TypeDo, |BytesToBits(bytes)|, data);
    OneSegment(bytes, [], c);
    assert bytes + [] == bytes;
    StuckAtEnd(BytesToBits(bytes), c);
    SameEnd(bytes, c, g);
  }

  lemma StartsWith(g: S.Trace, all: seq<byte>, n: nat, data: seq<byte>)
    requires n <= |BytesToBits(all)| && Decodes(BytesToBits(all)[..n], data) && I.Follows(g) && I.AtRest(g, all)
    ensures data <= g.base
  {
    hide Reaches, BytesToBits, Valid, Step;
    var s := BytesToBits(all);
    var c := Config(false, TypeDo, n, data);
    LeadsTo(s[..n], c, s);
    I.PrefixRun(g, all);
    I.RestIsStuck(g, all);
    ReachLinear(s, START, c, g.cfg);
    if Reaches(s, c, g.cfg) { ReachGrows(s, c, g.cfg); } else { ReachStuck(s, g.cfg, c); }
  }

  lemma ReachStuck(s: seq<bool>, a: Config, b: Config)
    requires S.IsStuck(s, a) && Reaches(s, a, b)
    ensures b == a
  {
    var n: nat :| Path(s, a, b, n);
  }

  /** After Z_PARTIAL_FLUSH too the decoder gets all input so far, and nothing else. */
  lemma PartialIsDecoded(w: Writer, data: seq<byte>, g: S.Trace)
    requires w.Valid() && w.biValid <= 7 && D.Caught(w, data) && I.Follows(g) && I.AtRest(g, w.delivered)
    ensures g.base == data
  {
    hide Leads, BytesToBits, Reaches, S.IsStuck, I.Follows;
    var n: nat :| n <= |BytesToBits(w.delivered)| && Decodes(BytesToBits(w.delivered)[..n], data);
    StartsWith(g, w.delivered, n, data);
    NoMore(w, data, g);
  }

  lemma FollowsOut(g: S.Trace)
    requires I.Follows(g)
    ensures g.cfg.out == g.base
  {
  }

  /** Fewer than eight zero bits after a block lead to no output. */
  lemma PaddingIsEmpty(s: seq<bool>, c: Config, d: Config)
    requires Reaches(s, c, d) && c.mode == TypeDo && !c.last && |s| % 8 == 0 && c.pos <= |s| < c.pos + 8 &&
             forall i :: c.pos <= i < |s| ==> !s[i]
    ensures d.out == c.out
  {
    hide Step, Valid;
    var n: nat :| Path(s, c, d, n);
    if n > 0 {
      ZeroBits(s, c);
      assert Path(s, Step(s, c).c, d, n - 1);
    }
  }

  lemma ZeroBits(s: seq<bool>, c: Config)
    requires Valid(s, c) && c.mode == TypeDo && !c.last && c.pos <= |s| < c.pos + 8 &&
             forall i :: c.pos <= i < |s| ==> !s[i]
    ensures Step(s, c).Go? ==> Step(s, c).c.out == c.out && Valid(s, Step(s, c).c) && Step(s, Step(s, c).c) == Stuck
  {
    if c.pos + 3 <= |s| {
      var f := s[c.pos + 1..c.pos + 3];
      assert f == [false, false];
      assert FromBits([false]) == 0;
      assert f[1..] == [false];
      assert Field(s, c.pos + 1, 2) == 0;
      assert Align(c.pos + 3) + 32 > |s|;
    }
  }

  /** What the decoder has is a part of what the rest of the bits will complete. */
  lemma NoMore(w: Writer, data: seq<byte>, g: S.Trace)
    requires w.Valid() && w.biValid <= 7 && w.pending == [] && Decodes(w.Sent(), data) && I.Follows(g) &&
             g.fed0 <= w.delivered
    ensures g.base <= data
  {
    hide BytesToBits, Reaches, Pow2, Leads, ToBits, Valid, Step, I.Follows;
    var b := BytesToBits(w.delivered);
    assert w.delivered + [] == w.delivered;
    assert |w.Sent()| == 8 * |w.delivered| + w.biValid;
    var s := w.Sent() + Zeros(if w.biValid == 0 then 0 else 8 - w.biValid);
    var c := Config(false, TypeDo, |w.Sent()|, data);
    LeadsTo(w.Sent(), c, s);
    FollowsOut(g);
    I.PrefixRun(g, w.delivered);
    assert s == b + s[|b|..];
    ReachStable(b, s[|b|..], START, g.cfg);
    ReachLinear(s, START, g.cfg, c);
    if Reaches(s, g.cfg, c) {
      ReachGrows(s, g.cfg, c);
    } else {
      PaddingIsEmpty(s, c, g.cfg);
    }
  }

  // ------------------------------------------------------------------ starting at a mark

  lemma BitsFrom(bytes: seq<byte>, k: nat)
    requires k <= |bytes|
    ensures |BytesToBits(bytes)| == 8 * |bytes| && BytesToBits(bytes)[8 * k..] == BytesToBits(bytes[k..])
  {
    hide BytesToBits;
    BytesToBitsAppend(bytes[..k], bytes[k..]);
    assert bytes[..k] + bytes[k..] == bytes;
  }

  /** After Z_SYNC_FLUSH or Z_FULL_FLUSH a new decoder that starts at a mark gets the text from there on. */
  lemma RestartAfterFlush(c: Coder, data: seq<byte>, flush: F.FlushMode, m: Mark, g: S.Trace)
    requires c.w.Valid() && D.Flushed(c.w, data, flush) && D.Restartable(c, data, flush) && m in c.marks
    requires flush == F.SYNC_FLUSH || flush == F.FULL_FLUSH
    ensures m.bits % 8 == 0 && m.bits <= 8 * |c.w.delivered| && m.pos <= |data|
    ensures I.Follows(g) && I.AtRest(g, c.w.delivered[m.bits / 8..]) ==> g.base == data[m.pos..]
  {
    hide Leads, BytesToBits, I.Follows, I.AtRest, c.w.Valid;
    SyncedBits(c.w);
    BitsFrom(c.w.delivered, m.bits / 8);
    if I.Follows(g) && I.AtRest(g, c.w.delivered[m.bits / 8..]) {
      FlushedIsDecoded(c.w.delivered[m.bits / 8..], data[m.pos..], g);
    }
  }

  lemma SyncedBits(w: Writer)
    requires w.Valid() && w.pending == [] && w.biValid == 0
    ensures w.Sent() == BytesToBits(w.delivered) && |w.Sent()| == 8 * |w.delivered|
  {
    hide BytesToBits;
    EmptyBits();
    assert w.delivered + [] == w.delivered;
  }

  /** At the end of the stream too, whatever follows it. */
  lemma RestartAtEnd(z: D.Deflater, m: Mark, tail: seq<byte>, g: S.Trace)
    requires z.Valid() && z.status == D.FINISH_STATE && z.c.w.pending == [] && m in z.c.marks
    ensures m.bits % 8 == 0 && m.bits <= 8 * |z.c.w.delivered| && m.pos <= |z.g.data|
    ensures I.Follows(g) && I.AtRest(g, z.c.w.delivered[m.bits / 8..] + tail) ==> g.base == z.g.data[m.pos..]
  {
    hide Leads, BytesToBits, I.Follows, I.AtRest, D.MethodReady, BlockLog.Logged;
    assert WholeFrom(m, z.c.w.Sent(), z.g.data);
    EvenEnd(z);
    SyncedBits(z.c.w);
    BitsFrom(z.c.w.delivered, m.bits / 8);
    if I.Follows(g) && I.AtRest(g, z.c.w.delivered[m.bits / 8..] + tail) {
      StreamRoundTrip(z.c.w.delivered[m.bits / 8..], tail, z.g.data[m.pos..], g);
    }
  }

  lemma EvenEnd(z: D.Deflater)
    requires z.Valid() && z.status == D.FINISH_STATE && z.c.w.pending == []
    ensures z.c.w.biValid == 0 && z.c.w.Valid()
  {
    hide Leads, BytesToBits, D.MethodReady, AllWhole, BlockLog.Logged;
    assert |z.c.w.Sent()| == 8 * |z.c.w.delivered + z.c.w.pending| + z.c.w.biValid;
  }

  // ------------------------------------------------------------------ whole runs

  /** The bytes delivered at the end of a run are a whole stream. */
  lemma Finished(z: D.Deflater)
    requires z.Valid() && z.status == D.FINISH_STATE && z.c.w.pending == []
    ensures WholeStream(BytesToBits(z.c.w.delivered), z.g.data)
  {
    hide Leads, BytesToBits, D.MethodReady, AllWhole, BlockLog.Logged;
    var w := z.c.w;
    assert w.delivered + [] == w.delivered;
    assert w.biValid == 0;
    EmptyBits();
    assert w.Sent() == BytesToBits(w.delivered);
  }

  /** One call of a run: how much input to offer, how much output space, and the flush value.  Z_FINISH offers all the
      rest, as its documentation asks. */
  datatype Piece = Piece(take: nat, space: nat, flush: F.FlushMode)

  /** Packs a part of `data` in the given pieces. */
  method PackPieces(z: D.Deflater, data: seq<byte>, pieces: seq<Piece>) returns (used: nat)
    requires z.Valid() && z.g.data == [] && z.status == D.BUSY_STATE
    modifies z`s, z`g, z`status, z`lastFlush, z.c`marks, z.c`log
    modifies z.c.d.window, z.c.d.head, z.c.d.prev, z.c.trees, z.c.trees.Repr(), z.c.w
    ensures z.Valid() && used <= |data| && z.g.data == data[..used] && (z.status == D.FINISH_STATE ==> used == |data|)
    ensures old(z.c.w.delivered) <= z.c.w.delivered
  {
    hide z.Valid, D.Flushed, D.Progress, D.NothingPossible, D.Restartable, D.MarksKept, D.Tokenized;
    used := 0;
    var i := 0;
    while i < |pieces|
      invariant 0 <= i <= |pieces| && 0 <= used <= |data| && z.Valid() && z.g.data == data[..used] &&
                (z.status == D.FINISH_STATE ==> used == |data|)
      invariant old(z.c.w.delivered) <= z.c.w.delivered
    {
      var p := pieces[i];
      var take := if used + p.take > |data| || p.flush == F.FINISH then |data| - used else p.take;
      var ret, consumed, rest;
      ghost var es, end;
      ret, consumed, rest, es, end := D.Call(z, data[used..used + take], p.space, p.flush);
      assert data[..used] + data[used..used + take][..consumed] == data[..used + consumed];
      used, i := used + consumed, i + 1;
    }
  }

  /** Packs `data`, first in the given pieces and then in calls with Z_FINISH and `space` bytes each, until deflate()
      returns Z_STREAM_END.  It always does, and the bytes delivered are a whole stream for all of `data`. */
  method Pack(z: D.Deflater, data: seq<byte>, pieces: seq<Piece>, space: nat) returns (packed: seq<byte>)
    requires z.Valid() && z.g.data == [] && z.status == D.BUSY_STATE && space > 0
    modifies z`s, z`g, z`status, z`lastFlush, z.c`marks, z.c`log
    modifies z.c.d.window, z.c.d.head, z.c.d.prev, z.c.trees, z.c.trees.Repr(), z.c.w
    ensures z.Valid() && packed == z.c.w.delivered && z.g.data == data && WholeStream(BytesToBits(packed), data)
  {
    hide z.Valid, WholeStream, Handed, D.Flushed, D.Restartable, D.MarksKept, D.Tokenized;
    var used := PackPieces(z, data, pieces);
    while true
      invariant 0 <= used <= |data| && z.Valid() && z.g.data == data[..used] &&
                (z.status == D.FINISH_STATE ==> used == |data|)
      decreases z.status == D.BUSY_STATE, |data| - used + z.s.lookahead, |z.c.w.pending|
    {
      var ret, consumed, rest;
      ghost var es, end;
      ret, consumed, rest, es, end := D.Call(z, data[used..], space, F.FINISH);
      assert data[..used] + data[used..][..consumed] == data[..used + consumed];
      used := used + consumed;
      if ret == D.Z_STREAM_END {
        assert data[..|data|] == data;
        Finished(z);
        return z.c.w.delivered;
      }
    }
  }

  /** The round trip: for every input, method and configuration, packing in any pieces and unpacking in any others, with
      anything behind the stream, gives the input back. */
  method RoundTrip(m: D.Method, f: HashChains.Conf, litBufsize: nat, fixedStrategy: bool, filtered: bool,
                   data: seq<byte>, pieces: seq<Piece>, space: nat, tail: seq<byte>, calls: seq<I.Piece>, room: nat)
    returns (packed: seq<byte>, unpacked: seq<byte>)
    requires HashChains.ValidConf(f) && 3 <= litBufsize <= 32768 && (f.useHash <==> m == D.FAST || m == D.SLOW)
    requires space > 0 && room > 0
    ensures WholeStream(BytesToBits(packed), data)
    ensures unpacked == data
  {
    hide WholeStream, I.Between, I.Follows, I.AtRest, S.TableAt, BytesToBits;
    var z := new D.Deflater(m, f, litBufsize, fixedStrategy, filtered);
    hide z.Valid;
    packed := Pack(z, data, pieces, space);
    var y := new S.Inflater();
    I.NewBetween(y);
    unpacked := I.Unpack(y, packed + tail, calls, room);
    StreamRoundTrip(packed, tail, data, y.g);
  }
}
