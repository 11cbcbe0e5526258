/**
  deflate.c: what has been sent and what is in the token buffer, as text.

  `Text` ties the bits sent and the buffered tokens to the input: the bits decode to the input up to the
  start of the current block, and the tokens expand to the input from there on.
*/
module DeflateText {
  import opened Bits
  import opened Format
  import opened Encoding
  import opened Blocks
  import opened LongestMatch

  // ------------------------------------------------------------------ matches are copies

  lemma {:induction false} MatchExpands(data: seq<byte>, p: nat, start: nat, len: nat)
    requires RealMatch(data, p, start, len)
    ensures CopyFrom(data[..p], len, p - start) == data[..p + len]
    decreases len
  {
    if len > 0 {
      var a, b := data[start..start + len], data[p..p + len];
      assert a[0] == b[0] && a[1..] == b[1..];
      assert data[start + 1..start + 1 + (len - 1)] == a[1..] && data[p + 1..p + 1 + (len - 1)] == b[1..];
      assert data[..p][p - (p - start)] == data[start];
      assert data[..p] + [data[p]] == data[..p + 1];
      MatchExpands(data, p + 1, start + 1, len - 1);
    }
  }

  // ------------------------------------------------------------------ the text so far

  /** Every stream that starts with `sent` takes the machine to `c`. */
  ghost predicate Leads(sent: seq<bool>, c: Config)
  {
    forall s: seq<bool> :: sent <= s && |s| % 8 == 0 ==> Reaches(s, START, c)
  }

  /** The bits `sent` decode to `out` and end between two blocks. */
  ghost predicate Decodes(sent: seq<bool>, out: seq<byte>)
  {
    Leads(sent, Config(false, TypeDo, |sent|, out))
  }

  /** The bits `sent` are a whole stream that decodes to `out`. */
  ghost predicate WholeStream(sent: seq<bool>, out: seq<byte>)
  {
    |sent| % 8 == 0 && Leads(sent, Config(true, Done, |sent|, out))
  }

  ghost predicate Text(sent: seq<bool>, tokens: seq<Token>, data: seq<byte>, block: int, pos: nat)
  {
    0 <= block <= pos <= |data| && Decodes(sent, data[..block]) && ValidTokens(data[..block], tokens) &&
    Expand(data[..block], tokens) == data[..pos]
  }

  lemma TextStart(data: seq<byte>)
    ensures Text([], [], data, 0, 0)
  {
    forall s: seq<bool> | [] <= s && |s| % 8 == 0
      ensures Reaches(s, START, Config(false, TypeDo, 0, [])) { ReachRefl(s, START); }
    assert data[..0] == [];
  }

  lemma TextMore(sent: seq<bool>, tokens: seq<Token>, data: seq<byte>, more: seq<byte>, block: int, pos: nat)
    requires Text(sent, tokens, data, block, pos)
    ensures Text(sent, tokens, data + more, block, pos)
  {
    hide Decodes, ValidTokens, Expand;
    assert (data + more)[..block] == data[..block] && (data + more)[..pos] == data[..pos];
  }

  lemma OneToken(out: seq<byte>, t: Token)
    requires ValidToken(t, |out|)
    ensures ValidTokens(out, [t]) && Expand(out, [t]) == ExpandOne(out, t)
  {
    hide ExpandOne, ValidToken;
    assert [t][1..] == [];
    assert ValidTokens(ExpandOne(out, t), []);
    assert Expand(ExpandOne(out, t), []) == ExpandOne(out, t);
  }

  lemma TextToken(sent: seq<bool>, tokens: seq<Token>, data: seq<byte>, block: int, pos: nat, t: Token, next: nat)
    requires Text(sent, tokens, data, block, pos) && pos <= next <= |data| && ValidToken(t, pos) &&
             ExpandOne(data[..pos], t) == data[..next]
    ensures Text(sent, tokens + [t], data, block, next)
  {
    hide Decodes, ValidTokens, Expand, ExpandOne, ValidToken;
    OneToken(data[..pos], t);
    ExpandAppend(data[..block], tokens, [t]);
  }

  lemma TextLiteral(sent: seq<bool>, tokens: seq<Token>, data: seq<byte>, block: int, pos: nat)
    requires Text(sent, tokens, data, block, pos) && pos < |data|
    ensures Text(sent, tokens + [Literal(data[pos])], data, block, pos + 1)
  {
    hide Text;
    TextRange(sent, tokens, data, block, pos);
    assert data[..pos] + [data[pos]] == data[..pos + 1];
    TextToken(sent, tokens, data, block, pos, Literal(data[pos]), pos + 1);
  }

  lemma TextRange(sent: seq<bool>, tokens: seq<Token>, data: seq<byte>, block: int, pos: nat)
    requires Text(sent, tokens, data, block, pos)
    ensures 0 <= block <= pos <= |data|
  {
    hide Decodes, ValidTokens, Expand;
  }

  lemma TextMatch(sent: seq<bool>, tokens: seq<Token>, data: seq<byte>, block: int, pos: nat, len: nat, start: nat)
    requires Text(sent, tokens, data, block, pos) && RealMatch(data, pos, start, len) && 3 <= len <= 258 &&
             pos - start <= 32768
    ensures Text(sent, tokens + [Copy(len, pos - start)], data, block, pos + len)
  {
    hide Text;
    TextRange(sent, tokens, data, block, pos);
    MatchExpands(data, pos, start, len);
    TextToken(sent, tokens, data, block, pos, Copy(len, pos - start), pos + len);
  }

  // ------------------------------------------------------------------ closing a block

  lemma LeadsTo(sent: seq<bool>, c: Config, s: seq<bool>)
    requires Leads(sent, c) && sent <= s && |s| % 8 == 0
    ensures Reaches(s, START, c)
  {
  }

  /** A block takes the machine on to its end. */
  lemma BlockLeads(sent: seq<bool>, out: seq<byte>, b: Block, last: bool, ts: seq<Token>)
    requires Decodes(sent, out) && ValidBlock(b, out) && ValidTokens(out, ts) && BlockOut(b, out) == Expand(out, ts)
    ensures var full := sent + BlockBits(b, last, |sent|, out);
            Leads(full, Config(last, TypeDo, |full|, Expand(out, ts)))
  {
    hide Reaches, ValidBlock, ValidTokens, Expand, BlockOut, BlockBits;
    var full := sent + BlockBits(b, last, |sent|, out);
    forall s: seq<bool> | full <= s && |s| % 8 == 0
      ensures Reaches(s, START, Config(last, TypeDo, |full|, Expand(out, ts))) {
      assert sent <= s;
      LeadsTo(sent, Config(false, TypeDo, |sent|, out), s);
      FlushRoundTrip(s, sent, b, last, out, ts);
      ReachTrans(s, START, Config(false, TypeDo, |sent|, out), Config(last, TypeDo, |full|, Expand(out, ts)));
    }
  }

  /** After the last block the padding completes the stream. */
  lemma PadLeads(full: seq<bool>, out: seq<byte>)
    requires Leads(full, Config(true, TypeDo, |full|, out))
    ensures WholeStream(Wound(full, true), out)
  {
    hide Reaches, Align;
    var sent := full + Zeros(Align(|full|) - |full|);
    forall s: seq<bool> | sent <= s && |s| % 8 == 0 ensures Reaches(s, START, Config(true, Done, |sent|, out)) {
      assert full <= s;
      LeadsTo(full, Config(true, TypeDo, |full|, out), s);
      ReachValid(s, START, Config(true, TypeDo, |full|, out));
      ReachStep(s, Config(true, TypeDo, |full|, out), Config(true, Done, |sent|, out));
      ReachTrans(s, START, Config(true, TypeDo, |full|, out), Config(true, Done, |sent|, out));
    }
  }

  /** What the text is after a block was sent. */
  lemma BlockDone(full: seq<bool>, data: seq<byte>, pos: nat, last: bool)
    requires pos <= |data| && Leads(full, Config(last, TypeDo, |full|, data[..pos]))
    ensures !last ==> Text(Wound(full, last), [], data, pos, pos)
    ensures last ==> WholeStream(Wound(full, last), data[..pos])
  {
    hide Leads, WholeStream;
    if last {
      PadLeads(full, data[..pos]);
    } else {
      assert ValidTokens(data[..pos], []) && Expand(data[..pos], []) == data[..pos];
    }
  }

  /** A block that carries nothing keeps the text. */
  lemma EmptyBlockKeeps(sent: seq<bool>, data: seq<byte>, block: int, pos: nat, b: Block)
    requires Text(sent, [], data, block, pos) && ValidBlock(b, data[..block]) &&
             BlockOut(b, data[..block]) == data[..block]
    ensures Text(sent + BlockBits(b, false, |sent|, data[..block]), [], data, block, pos)
  {
    hide ValidBlock, BlockOut, BlockBits, Leads;
    var out := data[..block];
    assert ValidTokens(out, []) && Expand(out, []) == out;
    BlockLeads(sent, out, b, false, []);
  }
}
