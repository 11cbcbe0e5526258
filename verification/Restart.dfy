/**
  deflate.c: points of a stream where decoding can start afresh.

  A mark is a position in the bits sent and one in the text.  Text, tokens and blocks after it make sense on their own:
  no match reaches back over it.
*/
module Restart {
  import opened Bits
  import opened Format
  import opened Encoding
  import opened Blocks
  import opened LongestMatch
  import opened DeflateText

  datatype Mark = Mark(bits: nat, pos: nat)

  /** What was sent and buffered after the mark stands for the text after it. */
  ghost predicate TextFrom(m: Mark, sent: seq<bool>, tokens: seq<Token>, data: seq<byte>, block: int, pos: nat)
  {
    m.bits <= |sent| && m.bits % 8 == 0 && m.pos <= pos && m.pos <= |data| &&
    Text(sent[m.bits..], tokens, data[m.pos..], block - m.pos, pos - m.pos)
  }

  ghost predicate Marked(ms: set<Mark>, sent: seq<bool>, tokens: seq<Token>, data: seq<byte>, block: int, pos: nat)
  {
    forall m :: m in ms ==> TextFrom(m, sent, tokens, data, block, pos)
  }

  /** What was sent after the mark is a whole stream for the text after it. */
  ghost predicate WholeFrom(m: Mark, sent: seq<bool>, data: seq<byte>)
  {
    m.bits <= |sent| && m.bits % 8 == 0 && m.pos <= |data| && WholeStream(sent[m.bits..], data[m.pos..])
  }

  ghost predicate AllWhole(ms: set<Mark>, sent: seq<bool>, data: seq<byte>)
  {
    forall m :: m in ms ==> WholeFrom(m, sent, data)
  }

  /** No mark lies behind `p`. */
  predicate Behind(ms: set<Mark>, p: int) { forall m :: m in ms ==> m.pos <= p }

  lemma FromMore(ms: set<Mark>, sent: seq<bool>, tokens: seq<Token>, data: seq<byte>, more: seq<byte>, block: int,
                 pos: nat)
    requires Marked(ms, sent, tokens, data, block, pos)
    ensures Marked(ms, sent, tokens, data + more, block, pos)
  {
    hide Text;
    forall m | m in ms ensures TextFrom(m, sent, tokens, data + more, block, pos) {
      assert TextFrom(m, sent, tokens, data, block, pos);
      assert (data + more)[m.pos..] == data[m.pos..] + more;
      TextMore(sent[m.bits..], tokens, data[m.pos..], more, block - m.pos, pos - m.pos);
    }
  }

  lemma FromLiteral(ms: set<Mark>, sent: seq<bool>, tokens: seq<Token>, data: seq<byte>, block: int, pos: nat)
    requires Marked(ms, sent, tokens, data, block, pos) && pos < |data|
    ensures Marked(ms, sent, tokens + [Literal(data[pos])], data, block, pos + 1)
  {
    hide Text;
    forall m | m in ms ensures TextFrom(m, sent, tokens + [Literal(data[pos])], data, block, pos + 1) {
      assert TextFrom(m, sent, tokens, data, block, pos);
      assert data[m.pos..][pos - m.pos] == data[pos];
      TextLiteral(sent[m.bits..], tokens, data[m.pos..], block - m.pos, pos - m.pos);
    }
  }

  lemma FromMatch(ms: set<Mark>, sent: seq<bool>, tokens: seq<Token>, data: seq<byte>, block: int, pos: nat, len: nat,
                  start: nat)
    requires Marked(ms, sent, tokens, data, block, pos) && RealMatch(data, pos, start, len) && 3 <= len <= 258 &&
             start < pos <= start + 32768 && Behind(ms, start)
    ensures Marked(ms, sent, tokens + [Copy(len, pos - start)], data, block, pos + len)
  {
    hide Text, RealMatch;
    forall m | m in ms ensures TextFrom(m, sent, tokens + [Copy(len, pos - start)], data, block, pos + len) {
      assert TextFrom(m, sent, tokens, data, block, pos);
      MatchFrom(data, pos, start, len, m.pos);
      TextMatch(sent[m.bits..], tokens, data[m.pos..], block - m.pos, pos - m.pos, len, start - m.pos);
    }
  }

  lemma MatchFrom(data: seq<byte>, p: nat, start: nat, len: nat, q: nat)
    requires RealMatch(data, p, start, len) && q <= start
    ensures q <= |data| && RealMatch(data[q..], p - q, start - q, len)
  {
    assert data[q..][start - q..start - q + len] == data[start..start + len];
    assert data[q..][p - q..p - q + len] == data[p..p + len];
  }

  // ------------------------------------------------------------------ blocks

  /** The bits of a block depend on its place only as far as the byte boundary. */
  lemma BitsShift(b: Block, last: bool, at: nat, out: seq<byte>, k: nat, out': seq<byte>)
    requires ValidBlock(b, out) && ValidBlock(b, out') && k <= at && k % 8 == 0
    ensures BlockBits(b, last, at - k, out') == BlockBits(b, last, at, out)
  {
    hide HeaderBits, DataBits, AllEncodable, ValidHeader, ValidTokens, BytesToBits, TypeBits, FixedCodes, Align;
    AlignShift(at + 3, k);
  }

  lemma AlignShift(n: nat, k: nat)
    requires k <= n && k % 8 == 0
    ensures Align(n - k) == Align(n) - k
  {
    var j, q, r := k / 8, (n + 7) / 8, (n + 7) % 8;
    assert k == 8 * j && n + 7 == 8 * q + r;
    DivModUnique(n - k + 7, 8, q - j, r);
  }

  lemma WoundShift(s: seq<bool>, last: bool, k: nat)
    requires k <= |s| && k % 8 == 0
    ensures k <= |Wound(s, last)| && Wound(s, last)[k..] == Wound(s[k..], last)
  {
    var n := Align(|s|) - |s|;
    assert Align(|s| - k) - (|s| - k) == n;
    assert last ==> (s + Zeros(n))[k..] == s[k..] + Zeros(n);
  }

  /** `b` carries the buffered tokens. */
  predicate Carries(b: Block, tokens: seq<Token>) { b.StoredBlock? || b.tokens == tokens }

  lemma ChosenCarries(b: Block, dyn: Block, ts: seq<Token>, buf: Option<seq<byte>>, fixedStrategy: bool, last: bool,
                      at: nat, out: seq<byte>)
    requires Chosen(b, dyn, ts, buf, fixedStrategy, last, at, out)
    ensures Carries(b, ts)
  {
    hide ValidBlock;
  }

  lemma BlockFrom(m: Mark, sent: seq<bool>, tokens: seq<Token>, data: seq<byte>, block: int, pos: nat, b: Block,
                  last: bool)
    requires TextFrom(m, sent, tokens, data, block, pos) && 0 <= block <= pos <= |data| &&
             ValidBlock(b, data[..block]) && Carries(b, tokens)
    requires BlockOut(b, data[..block]) == data[..pos]
    ensures var s := Wound(sent + BlockBits(b, last, |sent|, data[..block]), last);
            if last then WholeFrom(m, s, data[..pos]) else TextFrom(m, s, [], data, pos, pos)
  {
    hide BlockBits, Leads, Wound, AllEncodable, ValidHeader, WholeStream, ValidTokens, Expand;
    var out, tail := data[..block], data[m.pos..];
    var s, o := sent[m.bits..], tail[..block - m.pos];
    assert out == data[..m.pos] + o;
    assert data[..pos][m.pos..] == tail[..pos - m.pos];
    if b.StoredBlock? { assert (out + b.data)[m.pos..] == o + b.data; }
    BitsShift(b, last, |sent|, out, m.bits, o);
    var bits := BlockBits(b, last, |sent|, out);
    BlockLeads(s, o, b, last, tokens);
    assert (sent + bits)[m.bits..] == s + bits;
    BlockDone(s + bits, tail, pos - m.pos, last);
    WoundShift(sent + bits, last, m.bits);
    NotWound(sent + bits);
  }

  lemma NotWound(s: seq<bool>)
    ensures Wound(s, false) == s
  {
  }

  /** Closing a block keeps every mark. */
  lemma FromBlock(ms: set<Mark>, sent: seq<bool>, tokens: seq<Token>, data: seq<byte>, block: int, pos: nat, b: Block,
                  last: bool)
    requires Marked(ms, sent, tokens, data, block, pos) && 0 <= block <= pos <= |data| &&
             ValidBlock(b, data[..block]) &&
             Carries(b, tokens) && BlockOut(b, data[..block]) == data[..pos]
    ensures var s := Wound(sent + BlockBits(b, last, |sent|, data[..block]), last);
            if last then AllWhole(ms, s, data[..pos]) else Marked(ms, s, [], data, pos, pos)
  {
    hide BlockBits, Wound, ValidBlock, BlockOut, TextFrom, WholeFrom;
    var s := Wound(sent + BlockBits(b, last, |sent|, data[..block]), last);
    forall m | m in ms
      ensures if last then WholeFrom(m, s, data[..pos]) else TextFrom(m, s, [], data, pos, pos) {
      BlockFrom(m, sent, tokens, data, block, pos, b, last);
    }
  }

  /** The end of a block at a byte boundary is a new mark, when everything before it is closed. */
  lemma NewMark(ms: set<Mark>, sent: seq<bool>, data: seq<byte>)
    requires Marked(ms, sent, [], data, |data|, |data|) && |sent| % 8 == 0
    ensures Marked(ms + {Mark(|sent|, |data|)}, sent, [], data, |data|, |data|)
  {
    hide Text;
    assert sent[|sent|..] == [] && data[|data|..] == [];
    TextStart([]);
  }

  /** What follows a mark decodes from the start of a stream. */
  lemma FromDecodes(m: Mark, sent: seq<bool>, data: seq<byte>)
    requires TextFrom(m, sent, [], data, |data|, |data|)
    ensures m.bits <= |sent| && m.pos <= |data| && Decodes(sent[m.bits..], data[m.pos..])
  {
    hide Leads;
    assert data[m.pos..][..|data| - m.pos] == data[m.pos..];
  }
}
