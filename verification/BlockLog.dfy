/**
  The blocks a stream is made of, in the order they were sent, and how each of them was chosen.
*/
module BlockLog {
  import opened Bits
  import opened Format
  import opened Encoding
  import opened BlockCost
  import opened Blocks

  /** What _tr_flush_block chose from: the tokens of the block, the dynamic block for them, and the text of the block
      unless it had left the window. */
  datatype Choice = Choice(dyn: Block, ts: seq<Token>, buf: Option<seq<byte>>)

  /** A block, the bits and the text before it, and the choice it comes from; markers of a flush come from none. */
  datatype Sent = Sent(b: Block, last: bool, before: seq<bool>, out: seq<byte>, choice: Option<Choice>)

  /** The block sent is the one that the sizes of the candidates call for, and the dynamic candidate has the codes that
      build_tree makes for the tokens of the block. */
  ghost predicate WellChosen(e: Sent, ch: Choice, fixedStrategy: bool)
    requires ValidBlock(e.b, e.out)
  {
    AllSendable(ch.ts) && ValidTokens(e.out, ch.ts) && BlockOut(e.b, e.out) == Expand(e.out, ch.ts) &&
    (ch.buf.Some? ==> e.out + ch.buf.value == Expand(e.out, ch.ts)) &&
    Chosen(e.b, ch.dyn, ch.ts, ch.buf, fixedStrategy, e.last, |e.before|, e.out) && OwnCodes(ch.dyn, ch.ts)
  }

  ghost predicate Entry(e: Sent, fixedStrategy: bool)
  {
    ValidBlock(e.b, e.out) &&
    match e.choice
    case None => !e.last && (e.b == StoredBlock([]) || e.b == FixedBlock([]))
    case Some(ch) => WellChosen(e, ch, fixedStrategy)
  }

  /** The stream `sent` consists of the blocks of `log` and nothing else; they stand for the text `out`, and `done` says
      that the last of them closes the stream. */
  ghost predicate Logged(log: seq<Sent>, sent: seq<bool>, out: seq<byte>, fixedStrategy: bool, done: bool)
    decreases |log|
  {
    if log == [] then sent == [] && out == [] && !done
    else
      var e := log[|log| - 1];
      Logged(log[..|log| - 1], e.before, e.out, fixedStrategy, false) && Entry(e, fixedStrategy) && e.last == done &&
      sent == Wound(e.before + BlockBits(e.b, e.last, |e.before|, e.out), e.last) && out == BlockOut(e.b, e.out)
  }

  /** All tokens of the blocks so far. */
  function LogTokens(log: seq<Sent>): (ts: seq<Token>)
    decreases |log|
  {
    if log == [] then []
    else
      var c := log[|log| - 1].choice;
      LogTokens(log[..|log| - 1]) + if c.Some? then c.value.ts else []
  }

  lemma LogNext(log: seq<Sent>, e: Sent, sent: seq<bool>, out: seq<byte>, fixedStrategy: bool)
    requires Logged(log, e.before, e.out, fixedStrategy, false) && Entry(e, fixedStrategy)
    requires sent == Wound(e.before + BlockBits(e.b, e.last, |e.before|, e.out), e.last) && out == BlockOut(e.b, e.out)
    ensures Logged(log + [e], sent, out, fixedStrategy, e.last)
    ensures LogTokens(log + [e]) == LogTokens(log) + if e.choice.Some? then e.choice.value.ts else []
  {
    hide Entry, BlockBits, ValidBlock, ValidTokens, Wound;
    assert (log + [e])[..|log + [e]| - 1] == log;
  }

  /** One block was added to the log, for the tokens `ts` and with the text `buf` to choose from. */
  ghost predicate Added(log: seq<Sent>, was: seq<Sent>, ts: seq<Token>, buf: Option<seq<byte>>, last: bool)
  {
    |log| == |was| + 1 && log[..|was|] == was && log[|was|].last == last && log[|was|].choice.Some? &&
    log[|was|].choice.value.ts == ts && log[|was|].choice.value.buf == buf && LogTokens(log) == LogTokens(was) + ts
  }

  lemma EntryIs(e: Sent, dyn: Block, ts: seq<Token>, buf: Option<seq<byte>>, fixedStrategy: bool)
    requires e.choice == Some(Choice(dyn, ts, buf)) && ValidBlock(e.b, e.out) && AllSendable(ts) &&
             ValidTokens(e.out, ts) && BlockOut(e.b, e.out) == Expand(e.out, ts)
    requires buf.Some? ==> e.out + buf.value == Expand(e.out, ts)
    requires Chosen(e.b, dyn, ts, buf, fixedStrategy, e.last, |e.before|, e.out) && OwnCodes(dyn, ts)
    ensures Entry(e, fixedStrategy)
  {
    hide ValidBlock, ValidTokens, Expand, Chosen, OwnCodes;
  }

  /** Every block of a stream was well chosen or is a marker, and only the last one can be the final block. */
  lemma {:induction false} LogEntry(log: seq<Sent>, sent: seq<bool>, out: seq<byte>, fixedStrategy: bool, done: bool,
                                    i: nat)
    requires Logged(log, sent, out, fixedStrategy, done) && i < |log|
    ensures Entry(log[i], fixedStrategy) && (log[i].last <==> done && i == |log| - 1)
    decreases |log|
  {
    hide Entry, BlockBits, ValidBlock, ValidTokens, Wound;
    if i < |log| - 1 {
      var e := log[|log| - 1];
      LogEntry(log[..|log| - 1], e.before, e.out, fixedStrategy, false, i);
    }
  }

  /** The tokens of all blocks expand to the text. */
  lemma {:induction false} LogExpands(log: seq<Sent>, sent: seq<bool>, out: seq<byte>, fixedStrategy: bool, done: bool)
    requires Logged(log, sent, out, fixedStrategy, done)
    ensures ValidTokens([], LogTokens(log)) && Expand([], LogTokens(log)) == out
    decreases |log|
  {
    hide BlockBits, Wound, Chosen, OwnCodes, AllSendable, AllEncodable;
    if log != [] {
      var e := log[|log| - 1];
      LogExpands(log[..|log| - 1], e.before, e.out, fixedStrategy, false);
      if e.choice.Some? {
        ExpandAppend([], LogTokens(log[..|log| - 1]), e.choice.value.ts);
      } else {
        assert e.out + [] == e.out;
        assert LogTokens(log) == LogTokens(log[..|log| - 1]) + [] == LogTokens(log[..|log| - 1]);
      }
    }
  }
}
