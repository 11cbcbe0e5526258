/**
  The bits an encoder sends for tokens and blocks, and the proof that the machine of module
  `Format` expands them to what the tokens mean.
*/
module Encoding {
  import opened Bits
  import opened Canonical
  import opened InflateTable
  import opened Format

  /** The bits `b` stand at position `pos` of the stream `s`. */
  ghost predicate At(s: seq<bool>, pos: nat, b: seq<bool>)
  {
    pos + |b| <= |s| && s[pos..pos + |b|] == b
  }

  lemma AtSplit(s: seq<bool>, pos: nat, a: seq<bool>, b: seq<bool>)
    requires At(s, pos, a + b)
    ensures At(s, pos, a) && At(s, pos + |a|, b)
  {
    var w := s[pos..pos + |a + b|];
    assert w[..|a|] == a && w[|a|..] == b;
    assert s[pos..pos + |a|] == w[..|a|];
    assert s[pos + |a|..pos + |a| + |b|] == w[|a|..];
  }

  lemma AtField(s: seq<bool>, pos: nat, v: nat, n: nat)
    requires At(s, pos, ToBits(v, n)) && v < Pow2(n)
    ensures Field(s, pos, n) == v
  {
    FromTo(v, n);
  }

  lemma AtDecode(s: seq<bool>, pos: nat, lens: seq<nat>, sym: nat)
    requires Fits(lens) && sym < |lens| && lens[sym] >= 1 && At(s, pos, Code(lens, sym))
    ensures Decode(lens, s[pos..]) == Symbol(sym, lens[sym])
  {
    assert Code(lens, sym) == s[pos..][..lens[sym]];
    DecodeIs(lens, sym, s[pos..]);
  }

  // ------------------------------------------------------------------ length and distance symbols

  /** The last of the first `n` entries of the increasing table `b` that does not exceed `v`. */
  function LastAtMost(b: seq<nat>, v: nat, n: nat): (r: nat)
    requires 1 <= n <= |b|
    ensures r < n
    ensures r > 0 ==> b[r] <= v
    ensures r + 1 < n ==> v < b[r + 1]
  {
    if n == 1 then 0 else if b[n - 1] <= v then n - 1 else LastAtMost(b, v, n - 1)
  }

  /** Length code (0..28) of a match length; 258 has a code of its own. */
  function LengthCode(len: nat): (c: nat)
    requires 3 <= len <= 258
    ensures c <= 28
  {
    if len == 258 then 28 else LastAtMost(LBASE, len, 28)
  }

  function DistCode(dist: nat): (c: nat)
    requires 1 <= dist <= 32768
    ensures c < 30
  {
    LastAtMost(DBASE, dist, 30)
  }

  lemma LengthTable(c: nat)
    requires c < 28
    ensures ExtraBits(LEXT[c]) <= 5
    ensures (if c == 27 then 259 else LBASE[c + 1]) == LBASE[c] + Pow2(ExtraBits(LEXT[c]))
  {
    Pow2All();
    hide Pow2;
  }

  lemma DistTable(c: nat)
    requires c < 30
    ensures ExtraBits(DEXT[c]) <= 13
    ensures (if c == 29 then 32769 else DBASE[c + 1]) == DBASE[c] + Pow2(ExtraBits(DEXT[c]))
  {
    Pow2All();
    hide Pow2;
  }

  /** The extra bits of a length always fit the width its symbol prescribes. */
  lemma LengthFits(len: nat)
    requires 3 <= len <= 258
    ensures LBASE[LengthCode(len)] <= len < LBASE[LengthCode(len)] + Pow2(ExtraBits(LEXT[LengthCode(len)]))
  {
    var c := LengthCode(len);
    if len == 258 {
      assert LBASE[28] == 258 && ExtraBits(LEXT[28]) == 0;
    } else {
      LengthTable(c);
      assert LBASE[0] == 3;
    }
  }

  lemma DistFits(dist: nat)
    requires 1 <= dist <= 32768
    ensures DBASE[DistCode(dist)] <= dist < DBASE[DistCode(dist)] + Pow2(ExtraBits(DEXT[DistCode(dist)]))
  {
    DistTable(DistCode(dist));
    assert DBASE[0] == 1;
  }

  // ------------------------------------------------------------------ tokens

  /** The code has every symbol the token needs. */
  predicate Encodable(k: Codes, t: Token)
  {
    match t
    case Literal(b) => b < |k.ll| && k.ll[b] >= 1
    case Copy(len, dist) =>
      3 <= len <= 258 && 1 <= dist <= 32768 &&
      257 + LengthCode(len) < |k.ll| && k.ll[257 + LengthCode(len)] >= 1 &&
      DistCode(dist) < |k.dl| && k.dl[DistCode(dist)] >= 1
  }

  function LengthBits(k: Codes, len: nat): (b: seq<bool>)
    requires 3 <= len <= 258 && 257 + LengthCode(len) < |k.ll| && k.ll[257 + LengthCode(len)] >= 1
  {
    var c := LengthCode(len);
    LengthFits(len);
    Code(k.ll, 257 + c) + ToBits(len - LBASE[c], ExtraBits(LEXT[c]))
  }

  function DistBits(k: Codes, dist: nat): (b: seq<bool>)
    requires 1 <= dist <= 32768 && DistCode(dist) < |k.dl| && k.dl[DistCode(dist)] >= 1
  {
    var c := DistCode(dist);
    DistFits(dist);
    Code(k.dl, c) + ToBits(dist - DBASE[c], ExtraBits(DEXT[c]))
  }

  function TokenBits(k: Codes, t: Token): (b: seq<bool>)
    requires Encodable(k, t)
  {
    match t
    case Literal(b) => Code(k.ll, b)
    case Copy(len, dist) => LengthBits(k, len) + DistBits(k, dist)
  }

  predicate AllEncodable(k: Codes, ts: seq<Token>)
  {
    |k.ll| > 256 && k.ll[256] >= 1 && forall i :: 0 <= i < |ts| ==> Encodable(k, ts[i])
  }

  /** The tokens followed by the end-of-block code. */
  function DataBits(k: Codes, ts: seq<Token>): (b: seq<bool>)
    requires AllEncodable(k, ts)
  {
    if ts == [] then Code(k.ll, 256) else TokenBits(k, ts[0]) + DataBits(k, ts[1..])
  }

  lemma LiteralRun(s: seq<bool>, c: Config, k: Codes, b: byte)
    requires Valid(s, c) && c.mode == Len(k) && Encodable(k, Literal(b)) && At(s, c.pos, Code(k.ll, b))
    ensures Reaches(s, c, Config(c.last, Len(k), c.pos + k.ll[b], c.out + [b]))
  {
    hide Reaches, Code, Acceptable;
    AcceptableFits(LENS, k.ll);
    AtDecode(s, c.pos, k.ll, b);
    var d := Config(c.last, Lit(k, b), c.pos + k.ll[b], c.out);
    ReachStep(s, c, d);
    ReachValid(s, c, d);
    ReachStep(s, d, Config(c.last, Len(k), d.pos, c.out + [b]));
    ReachTrans(s, c, d, Config(c.last, Len(k), d.pos, c.out + [b]));
  }

  lemma LengthRun(s: seq<bool>, c: Config, k: Codes, len: nat)
    requires Valid(s, c) && c.mode == Len(k)
    requires 3 <= len <= 258 && 257 + LengthCode(len) < |k.ll| && k.ll[257 + LengthCode(len)] >= 1
    requires At(s, c.pos, LengthBits(k, len))
    ensures Reaches(s, c, Config(c.last, Dist(k, len), c.pos + |LengthBits(k, len)|, c.out))
  {
    hide Reaches, Code, Acceptable, Decode, Field, LengthCode, ExtraBits, Pow2, ToBits, FromBits, Bounded, At, LBASE,
         LEXT;
    TableLengths();
    var lc := LengthCode(len);
    LengthFits(len);
    var e := ExtraBits(LEXT[lc]);
    AtSplit(s, c.pos, Code(k.ll, 257 + lc), ToBits(len - LBASE[lc], e));
    AcceptableFits(LENS, k.ll);
    AtDecode(s, c.pos, k.ll, 257 + lc);
    var d := Config(c.last, LenExt(k, LBASE[lc], e), c.pos + k.ll[257 + lc], c.out);
    ReachStep(s, c, d);
    ReachValid(s, c, d);
    LengthExtRun(s, d, k, LBASE[lc], e, len);
    ReachTrans(s, c, d, Config(c.last, Dist(k, len), d.pos + e, c.out));
  }

  lemma TableLengths()
    ensures |LBASE| >= 29 && |LEXT| >= 29
  {
  }

  lemma LengthExtRun(s: seq<bool>, c: Config, k: Codes, base: nat, e: nat, len: nat)
    requires Valid(s, c) && c.mode == LenExt(k, base, e) && base <= len && len - base < Pow2(e) &&
             At(s, c.pos, ToBits(len - base, e))
    ensures Reaches(s, c, Config(c.last, Dist(k, len), c.pos + e, c.out))
  {
    hide Reaches, Field, Pow2, ToBits, ValidCodes;
    AtField(s, c.pos, len - base, e);
    ReachStep(s, c, Config(c.last, Dist(k, len), c.pos + e, c.out));
  }

  lemma DistRun(s: seq<bool>, c: Config, k: Codes, len: nat, dist: nat)
    requires Valid(s, c) && c.mode == Dist(k, len)
    requires 1 <= dist <= 32768 && DistCode(dist) < |k.dl| && k.dl[DistCode(dist)] >= 1
    requires At(s, c.pos, DistBits(k, dist))
    ensures Reaches(s, c, Config(c.last, Match(k, len, dist), c.pos + |DistBits(k, dist)|, c.out))
  {
    hide Reaches, Code, Acceptable, Decode, Field, DistCode, ExtraBits, Pow2, ToBits, FromBits;
    var dc := DistCode(dist);
    DistFits(dist);
    var e := ExtraBits(DEXT[dc]);
    AtSplit(s, c.pos, Code(k.dl, dc), ToBits(dist - DBASE[dc], e));
    AcceptableFits(DISTS, k.dl);
    AtDecode(s, c.pos, k.dl, dc);
    var d := Config(c.last, DistExt(k, len, DBASE[dc], e), c.pos + k.dl[dc], c.out);
    ReachStep(s, c, d);
    ReachValid(s, c, d);
    AtField(s, d.pos, dist - DBASE[dc], e);
    var f := Config(c.last, Match(k, len, dist), d.pos + e, c.out);
    ReachStep(s, d, f);
    ReachTrans(s, c, d, f);
  }

  /** Byte-by-byte copying writes the overlapping copy. */
  lemma {:induction false} MatchRun(s: seq<bool>, c: Config, k: Codes, len: nat, dist: nat)
    requires Valid(s, c) && c.mode == Match(k, len, dist) && 1 <= dist <= |c.out|
    ensures Reaches(s, c, Config(c.last, Len(k), c.pos, CopyFrom(c.out, len, dist)))
    decreases len
  {
    hide Reaches, ValidCodes;
    var out' := c.out + [c.out[|c.out| - dist]];
    if len == 1 {
      ReachStep(s, c, Config(c.last, Len(k), c.pos, out'));
    } else {
      var d := Config(c.last, Match(k, len - 1, dist), c.pos, out');
      ReachStep(s, c, d);
      ReachValid(s, c, d);
      MatchRun(s, d, k, len - 1, dist);
      ReachTrans(s, c, d, Config(c.last, Len(k), c.pos, CopyFrom(c.out, len, dist)));
    }
  }

  /** Decoding the bits of one token appends exactly what the token means. */
  lemma TokenRun(s: seq<bool>, c: Config, k: Codes, t: Token)
    requires Valid(s, c) && c.mode == Len(k) && Encodable(k, t) && ValidToken(t, |c.out|)
    requires At(s, c.pos, TokenBits(k, t))
    ensures Reaches(s, c, Config(c.last, Len(k), c.pos + |TokenBits(k, t)|, ExpandOne(c.out, t)))
  {
    hide Reaches, LengthBits, DistBits, Valid, Code, LengthCode, DistCode, At;
    match t
    case Literal(b) => LiteralRun(s, c, k, b);
    case Copy(len, dist) =>
      AtSplit(s, c.pos, LengthBits(k, len), DistBits(k, dist));
      var d := Config(c.last, Dist(k, len), c.pos + |LengthBits(k, len)|, c.out);
      LengthRun(s, c, k, len);
      ReachValid(s, c, d);
      var e := Config(c.last, Match(k, len, dist), d.pos + |DistBits(k, dist)|, c.out);
      DistRun(s, d, k, len, dist);
      ReachTrans(s, c, d, e);
      ReachValid(s, d, e);
      MatchRun(s, e, k, len, dist);
      ReachTrans(s, c, e, Config(c.last, Len(k), e.pos, CopyFrom(c.out, len, dist)));
  }

  lemma EndRun(s: seq<bool>, c: Config, k: Codes)
    requires Valid(s, c) && c.mode == Len(k) && |k.ll| > 256 && k.ll[256] >= 1 && At(s, c.pos, Code(k.ll, 256))
    ensures Reaches(s, c, Config(c.last, TypeDo, c.pos + k.ll[256], c.out))
  {
    hide Reaches, Code, Acceptable;
    AcceptableFits(LENS, k.ll);
    AtDecode(s, c.pos, k.ll, 256);
    ReachStep(s, c, Config(c.last, TypeDo, c.pos + k.ll[256], c.out));
  }

  /** Decoding the data of a block expands its tokens and stops right after the end-of-block code. */
  lemma {:induction false} DataRun(s: seq<bool>, c: Config, k: Codes, ts: seq<Token>)
    requires Valid(s, c) && c.mode == Len(k) && AllEncodable(k, ts) && ValidTokens(c.out, ts)
    requires At(s, c.pos, DataBits(k, ts))
    ensures Reaches(s, c, Config(c.last, TypeDo, c.pos + |DataBits(k, ts)|, Expand(c.out, ts)))
    decreases |ts|
  {
    hide Reaches, Valid, Code, TokenBits, Encodable, ValidToken, ExpandOne;
    if ts == [] {
      EndRun(s, c, k);
    } else {
      AtSplit(s, c.pos, TokenBits(k, ts[0]), DataBits(k, ts[1..]));
      var d := Config(c.last, Len(k), c.pos + |TokenBits(k, ts[0])|, ExpandOne(c.out, ts[0]));
      TokenRun(s, c, k, ts[0]);
      ReachValid(s, c, d);
      DataRun(s, d, k, ts[1..]);
      ReachTrans(s, c, d, Config(c.last, TypeDo, c.pos + |DataBits(k, ts)|, Expand(c.out, ts)));
    }
  }

  // ------------------------------------------------------------------ code length items

  /** A symbol of the code length code; 16, 17 and 18 stand for `rep` lengths. */
  datatype Item = Item(sym: nat, rep: nat)

  predicate ValidItem(it: Item)
  {
    it.sym < 16 || (it.sym <= 18 && RepBase(it.sym) <= it.rep < RepBase(it.sym) + Pow2(RepBits(it.sym)))
  }

  function Copies(v: nat, n: nat): (r: seq<nat>)
    ensures |r| == n
  {
    seq(n, i => v)
  }

  /** The lengths read so far, extended by what the item stands for. */
  function Unpack(lens: seq<nat>, it: Item): (r: seq<nat>)
    requires it.sym == 16 ==> lens != []
  {
    if it.sym < 16 then lens + [it.sym]
    else if it.sym == 16 then lens + Copies(lens[|lens| - 1], it.rep)
    else lens + Copies(0, it.rep)
  }

  predicate Unpackable(lens: seq<nat>, items: seq<Item>)
    decreases |items|
  {
    items == [] ||
    (ValidItem(items[0]) && (items[0].sym == 16 ==> lens != []) && Unpackable(Unpack(lens, items[0]), items[1..]))
  }

  function UnpackAll(lens: seq<nat>, items: seq<Item>): (r: seq<nat>)
    requires Unpackable(lens, items)
    ensures lens <= r
    decreases |items|
  {
    if items == [] then lens else UnpackAll(Unpack(lens, items[0]), items[1..])
  }

  lemma {:induction false} UnpackAppend(lens: seq<nat>, a: seq<Item>, b: seq<Item>)
    requires Unpackable(lens, a) && Unpackable(UnpackAll(lens, a), b)
    ensures Unpackable(lens, a + b) && UnpackAll(lens, a + b) == UnpackAll(UnpackAll(lens, a), b)
    decreases |a|
  {
    hide Unpack, ValidItem;
    if a == [] {
      assert a + b == b;
    } else {
      UnpackAppend(Unpack(lens, a[0]), a[1..], b);
      assert (a + b)[1..] == a[1..] + b && (a + b)[0] == a[0];
    }
  }

  predicate HasItem(clens: seq<nat>, it: Item)
  {
    ValidItem(it) && it.sym < |clens| && clens[it.sym] >= 1
  }

  function ItemBits(clens: seq<nat>, it: Item): (b: seq<bool>)
    requires HasItem(clens, it)
  {
    if it.sym < 16 then Code(clens, it.sym)
    else Code(clens, it.sym) + ToBits(it.rep - RepBase(it.sym), RepBits(it.sym))
  }

  predicate HasItems(clens: seq<nat>, items: seq<Item>)
  {
    forall i :: 0 <= i < |items| ==> HasItem(clens, items[i])
  }

  function ItemsBits(clens: seq<nat>, items: seq<Item>): (b: seq<bool>)
    requires HasItems(clens, items)
  {
    if items == [] then [] else ItemBits(clens, items[0]) + ItemsBits(clens, items[1..])
  }

  lemma {:induction false} ItemsBitsAppend(clens: seq<nat>, a: seq<Item>, b: seq<Item>)
    requires HasItems(clens, a) && HasItems(clens, b)
    ensures HasItems(clens, a + b) && ItemsBits(clens, a + b) == ItemsBits(clens, a) + ItemsBits(clens, b)
    decreases |a|
  {
    hide ItemBits, HasItem;
    if a == [] {
      assert a + b == b;
      assert ItemsBits(clens, a) + ItemsBits(clens, b) == ItemsBits(clens, b);
    } else {
      ItemsBitsAppend(clens, a[1..], b);
      assert (a + b)[1..] == a[1..] + b && (a + b)[0] == a[0];
      SeqAssoc(ItemBits(clens, a[0]), ItemsBits(clens, a[1..]), ItemsBits(clens, b));
    }
  }

  lemma ItemSymbol(s: seq<bool>, c: Config, it: Item)
    requires Valid(s, c) && c.mode.CodeLens? && HasItem(c.mode.clens, it) && (it.sym == 16 ==> c.mode.lens != [])
    requires At(s, c.pos, ItemBits(c.mode.clens, it))
    requires |Unpack(c.mode.lens, it)| <= c.mode.nlen + c.mode.ndist
    ensures CodeLenSymbol(s, c, it.sym, c.mode.clens[it.sym])
         == Go(c.(mode := c.mode.(lens := Unpack(c.mode.lens, it)), pos := c.pos + |ItemBits(c.mode.clens, it)|))
  {
    hide Code, Field, Acceptable, ToBits, Pow2, At, Valid, CodeLenSymbol, ItemBits, Unpack;
    ItemAt(s, c.pos, c.mode.clens, it);
    if it.sym >= 16 {
      RepeatSymbol(s, c, it);
    } else {
      PlainSymbol(s, c, it);
    }
  }

  /** Where the parts of an item stand. */
  lemma ItemAt(s: seq<bool>, pos: nat, clens: seq<nat>, it: Item)
    requires HasItem(clens, it) && At(s, pos, ItemBits(clens, it))
    ensures pos + |ItemBits(clens, it)| <= |s| && |ItemBits(clens, it)| == clens[it.sym] + RepBits(it.sym)
    ensures it.sym >= 16 ==>
              RepBase(it.sym) <= it.rep && Field(s, pos + clens[it.sym], RepBits(it.sym)) == it.rep - RepBase(it.sym)
  {
    hide Code, Field, ToBits, Pow2, At;
    AtInside(s, pos, ItemBits(clens, it));
    if it.sym >= 16 {
      var e, v := RepBits(it.sym), it.rep - RepBase(it.sym);
      AtSplit(s, pos, Code(clens, it.sym), ToBits(v, e));
      AtField(s, pos + clens[it.sym], v, e);
    }
  }

  lemma AtInside(s: seq<bool>, pos: nat, b: seq<bool>)
    requires At(s, pos, b)
    ensures pos + |b| <= |s|
  {
  }

  lemma PlainSymbol(s: seq<bool>, c: Config, it: Item)
    requires c.pos <= |s| && c.mode.CodeLens? && it.sym < 16 && it.sym < |c.mode.clens|
    ensures CodeLenSymbol(s, c, it.sym, c.mode.clens[it.sym])
         == Go(c.(mode := c.mode.(lens := Unpack(c.mode.lens, it)), pos := c.pos + c.mode.clens[it.sym]))
  {
  }

  lemma RepeatSymbol(s: seq<bool>, c: Config, it: Item)
    requires c.pos <= |s| && c.mode.CodeLens? && 16 <= it.sym <= 18 && it.sym < |c.mode.clens| &&
             (it.sym == 16 ==> c.mode.lens != [])
    requires c.pos + c.mode.clens[it.sym] + RepBits(it.sym) <= |s| && RepBase(it.sym) <= it.rep
    requires Field(s, c.pos + c.mode.clens[it.sym], RepBits(it.sym)) == it.rep - RepBase(it.sym)
    requires |Unpack(c.mode.lens, it)| <= c.mode.nlen + c.mode.ndist
    ensures CodeLenSymbol(s, c, it.sym, c.mode.clens[it.sym])
         == Go(c.(mode := c.mode.(lens := Unpack(c.mode.lens, it)),
                  pos := c.pos + c.mode.clens[it.sym] + RepBits(it.sym)))
  {
    hide Field, Pow2;
  }

  lemma ItemRun(s: seq<bool>, c: Config, it: Item)
    requires Valid(s, c) && c.mode.CodeLens? && HasItem(c.mode.clens, it) && (it.sym == 16 ==> c.mode.lens != [])
    requires At(s, c.pos, ItemBits(c.mode.clens, it))
    requires |c.mode.lens| < |Unpack(c.mode.lens, it)| <= c.mode.nlen + c.mode.ndist
    ensures Reaches(s, c,
                    c.(mode := c.mode.(lens := Unpack(c.mode.lens, it)), pos := c.pos + |ItemBits(c.mode.clens, it)|))
  {
    hide Reaches, Code, CodeLenSymbol, Acceptable, Decode, Unpack, Field, ToBits, Pow2;
    var m := c.mode;
    AcceptableFits(CODES, m.clens);
    if it.sym >= 16 { AtSplit(s, c.pos, Code(m.clens, it.sym), ToBits(it.rep - RepBase(it.sym), RepBits(it.sym))); }
    AtDecode(s, c.pos, m.clens, it.sym);
    ItemSymbol(s, c, it);
    ReachStep(s, c, c.(mode := m.(lens := Unpack(m.lens, it)), pos := c.pos + |ItemBits(m.clens, it)|));
  }

  lemma UnpackGrows(lens: seq<nat>, it: Item)
    requires ValidItem(it) && (it.sym == 16 ==> lens != [])
    ensures |lens| < |Unpack(lens, it)|
  {
  }

  /** Decoding a list of items rebuilds the lengths the items stand for. */
  lemma {:induction false} ItemsRun(s: seq<bool>, c: Config, items: seq<Item>)
    requires Valid(s, c) && c.mode.CodeLens? && HasItems(c.mode.clens, items) && Unpackable(c.mode.lens, items)
    requires At(s, c.pos, ItemsBits(c.mode.clens, items))
    requires |UnpackAll(c.mode.lens, items)| <= c.mode.nlen + c.mode.ndist
    ensures Reaches(s, c,
                    c.(mode := c.mode.(lens := UnpackAll(c.mode.lens, items)),
                       pos := c.pos + |ItemsBits(c.mode.clens, items)|))
    decreases |items|
  {
    hide Reaches, Unpack, ItemBits, ValidItem, Valid;
    if items == [] {
      assert c == c.(mode := c.mode.(lens := c.mode.lens), pos := c.pos + 0);
      ReachRefl(s, c);
    } else {
      var m, it := c.mode, items[0];
      var d := c.(mode := m.(lens := Unpack(m.lens, it)), pos := c.pos + |ItemBits(m.clens, it)|);
      AtSplit(s, c.pos, ItemBits(m.clens, it), ItemsBits(m.clens, items[1..]));
      UnpackGrows(m.lens, it);
      assert Unpack(m.lens, it) <= UnpackAll(m.lens, items);
      ItemRun(s, c, it);
      ReachValid(s, c, d);
      ItemsRun(s, d, items[1..]);
      ReachTrans(s, c, d, d.(mode := m.(lens := UnpackAll(m.lens, items)), pos := c.pos + |ItemsBits(m.clens, items)|));
    }
  }

  // ------------------------------------------------------------------ dynamic block header

  function ClBits(cl: seq<nat>): (b: seq<bool>)
    ensures |b| == 3 * |cl|
  {
    if cl == [] then [] else ToBits(cl[0], 3) + ClBits(cl[1..])
  }

  lemma {:induction false} ClRun(s: seq<bool>, c: Config, cl: seq<nat>)
    requires Valid(s, c) && c.mode.LenLens? && |c.mode.cl| + |cl| == c.mode.ncode && Bounded(cl, 7)
    requires At(s, c.pos, ClBits(cl))
    ensures Reaches(s, c, c.(mode := c.mode.(cl := c.mode.cl + cl), pos := c.pos + 3 * |cl|))
    decreases |cl|
  {
    hide Reaches, Field, ClensOf, Acceptable;
    var m := c.mode;
    if cl == [] {
      assert m.cl + cl == m.cl;
      assert c == c.(mode := m.(cl := m.cl), pos := c.pos + 0);
      ReachRefl(s, c);
    } else {
      Pow2Values();
      AtSplit(s, c.pos, ToBits(cl[0], 3), ClBits(cl[1..]));
      AtField(s, c.pos, cl[0], 3);
      var d := c.(mode := m.(cl := m.cl + [cl[0]]), pos := c.pos + 3);
      ReachStep(s, c, d);
      ReachValid(s, c, d);
      ClRun(s, d, cl[1..]);
      assert (m.cl + [cl[0]]) + cl[1..] == m.cl + cl;
      ReachTrans(s, c, d, c.(mode := m.(cl := m.cl + cl), pos := c.pos + 3 * |cl|));
    }
  }

  /** The parts of a dynamic header: symbol counts, code length code, and the packed lengths. */
  datatype Header = Header(nlen: nat, ndist: nat, cl: seq<nat>, items: seq<Item>)

  ghost predicate ValidHeader(h: Header, k: Codes)
  {
    257 <= h.nlen <= 286 && 1 <= h.ndist <= 30 && 4 <= |h.cl| <= 19 && Bounded(h.cl, 7) &&
    Acceptable(CODES, ClensOf(h.cl)) && HasItems(ClensOf(h.cl), h.items) &&
    Unpackable([], h.items) && UnpackAll([], h.items) == k.ll + k.dl &&
    |k.ll| == h.nlen && |k.dl| == h.ndist && k.ll[256] >= 1 && ValidCodes(k)
  }

  function CountBits(h: Header): (b: seq<bool>)
    requires 257 <= h.nlen && 1 <= h.ndist && 4 <= |h.cl|
    ensures |b| == 14
  {
    ToBits(h.nlen - 257, 5) + (ToBits(h.ndist - 1, 5) + ToBits(|h.cl| - 4, 4))
  }

  function HeaderBits(h: Header): (b: seq<bool>)
    requires 257 <= h.nlen && 1 <= h.ndist && 4 <= |h.cl| <= 19 && HasItems(ClensOf(h.cl), h.items)
  {
    CountBits(h) + (ClBits(h.cl) + ItemsBits(ClensOf(h.cl), h.items))
  }

  lemma CountRun3(s: seq<bool>, c: Config, h: Header)
    requires Valid(s, c) && c.mode == Table && 257 <= h.nlen <= 286 && 1 <= h.ndist <= 30 && 4 <= |h.cl| <= 19
    requires At(s, c.pos, CountBits(h))
    ensures Reaches(s, c, c.(mode := LenLens(h.nlen, h.ndist, |h.cl|, []), pos := c.pos + 14))
  {
    hide Reaches, Field, ToBits, Pow2;
    Pow2Values();
    var x, y, z := ToBits(h.nlen - 257, 5), ToBits(h.ndist - 1, 5), ToBits(|h.cl| - 4, 4);
    AtSplit(s, c.pos, x, y + z);
    AtSplit(s, c.pos + 5, y, z);
    AtField(s, c.pos, h.nlen - 257, 5);
    AtField(s, c.pos + 5, h.ndist - 1, 5);
    AtField(s, c.pos + 10, |h.cl| - 4, 4);
    ReachStep(s, c, c.(mode := LenLens(h.nlen, h.ndist, |h.cl|, []), pos := c.pos + 14));
  }

  lemma EndOfLensRun(s: seq<bool>, c: Config, k: Codes)
    requires Valid(s, c) && c.mode.CodeLens? && c.mode.lens == k.ll + k.dl
    requires |k.ll| == c.mode.nlen && |k.dl| == c.mode.ndist && k.ll[256] >= 1 && ValidCodes(k)
    ensures Reaches(s, c, c.(mode := Len(k)))
  {
    hide Reaches, Acceptable;
    var m := c.mode;
    assert m.lens[..m.nlen] == k.ll && m.lens[m.nlen..] == k.dl;
    ReachStep(s, c, c.(mode := Len(k)));
  }

  /** Decoding a dynamic header rebuilds both code length arrays. */
  lemma HeaderRun(s: seq<bool>, c: Config, h: Header, k: Codes)
    requires Valid(s, c) && c.mode == Table && ValidHeader(h, k) && At(s, c.pos, HeaderBits(h))
    ensures Reaches(s, c, c.(mode := Len(k), pos := c.pos + |HeaderBits(h)|))
  {
    hide Reaches, ClensOf, Acceptable, ValidCodes, HasItems, Unpackable, UnpackAll, ClBits, CountBits, ItemsBits, Step;
    var clens := ClensOf(h.cl);
    AtSplit(s, c.pos, CountBits(h), ClBits(h.cl) + ItemsBits(clens, h.items));
    AtSplit(s, c.pos + 14, ClBits(h.cl), ItemsBits(clens, h.items));
    var c1 := c.(mode := LenLens(h.nlen, h.ndist, |h.cl|, []), pos := c.pos + 14);
    CountRun3(s, c, h);
    ReachValid(s, c, c1);
    var c2 := c1.(mode := LenLens(h.nlen, h.ndist, |h.cl|, h.cl), pos := c1.pos + 3 * |h.cl|);
    ClRun(s, c1, h.cl);
    assert [] + h.cl == h.cl;
    ReachTrans(s, c, c1, c2);
    ReachValid(s, c, c2);
    var c3 := c2.(mode := CodeLens(h.nlen, h.ndist, clens, []));
    ClDone(s, c2, c3);
    ReachTrans(s, c, c2, c3);
    ReachValid(s, c, c3);
    var c4 := c3.(mode := CodeLens(h.nlen, h.ndist, clens, k.ll + k.dl), pos := c3.pos + |ItemsBits(clens, h.items)|);
    ItemsRun(s, c3, h.items);
    ReachTrans(s, c, c3, c4);
    ReachValid(s, c, c4);
    EndOfLensRun(s, c4, k);
    ReachTrans(s, c, c4, c4.(mode := Len(k)));
  }

  lemma ClDone(s: seq<bool>, c: Config, d: Config)
    requires Valid(s, c) && c.mode.LenLens? && |c.mode.cl| == c.mode.ncode && Acceptable(CODES, ClensOf(c.mode.cl))
    requires d == c.(mode := CodeLens(c.mode.nlen, c.mode.ndist, ClensOf(c.mode.cl), []))
    ensures Reaches(s, c, d)
  {
    hide Reaches, ClensOf, Acceptable;
    ReachStep(s, c, d);
  }

  // ------------------------------------------------------------------ blocks

  datatype Block =
    | StoredBlock(data: seq<byte>)
    | FixedBlock(tokens: seq<Token>)
    | DynamicBlock(tokens: seq<Token>, k: Codes, h: Header)

  function FixedCodes(): (k: Codes) { Codes(FixedLit(), FixedDist()) }

  /** What the block appends to the history `out` is defined, and its parts can be encoded. */
  ghost predicate ValidBlock(b: Block, out: seq<byte>)
  {
    match b
    case StoredBlock(data) => |data| <= 65535
    case FixedBlock(ts) => ValidTokens(out, ts) && AllEncodable(FixedCodes(), ts)
    case DynamicBlock(ts, k, h) => ValidTokens(out, ts) && AllEncodable(k, ts) && ValidHeader(h, k)
  }

  function BlockOut(b: Block, out: seq<byte>): (r: seq<byte>)
    requires b.StoredBlock? || ValidTokens(out, b.tokens)
  {
    if b.StoredBlock? then out + b.data else Expand(out, b.tokens)
  }

  function TypeBits(last: bool, kind: nat): (b: seq<bool>)
    ensures |b| == 3
  {
    [last] + ToBits(kind, 2)
  }

  function StoredHeaderBits(n: nat): (b: seq<bool>)
    requires n <= 65535
    ensures |b| == 32
  {
    ToBits(n, 16) + ToBits(65535 - n, 16)
  }

  /** The bits of a block that starts at bit `pos` of the stream (a stored block is byte aligned). */
  ghost function BlockBits(b: Block, last: bool, pos: nat, out: seq<byte>): (r: seq<bool>)
    requires ValidBlock(b, out)
  {
    match b
    case StoredBlock(data) =>
      TypeBits(last, 0) + (Zeros(Align(pos + 3) - (pos + 3)) + (StoredHeaderBits(|data|) + BytesToBits(data)))
    case FixedBlock(ts) => TypeBits(last, 1) + DataBits(FixedCodes(), ts)
    case DynamicBlock(ts, k, h) => TypeBits(last, 2) + (HeaderBits(h) + DataBits(k, ts))
  }

  lemma TypeRun(s: seq<bool>, c: Config, last: bool, kind: nat)
    requires Valid(s, c) && c.mode == TypeDo && !c.last && kind < 3 && At(s, c.pos, TypeBits(last, kind))
    ensures kind == 0 ==> Reaches(s, c, Config(last, StoredHeader, Align(c.pos + 3), c.out))
    ensures kind == 1 ==> Reaches(s, c, Config(last, Len(FixedCodes()), c.pos + 3, c.out))
    ensures kind == 2 ==> Reaches(s, c, Config(last, Table, c.pos + 3, c.out))
  {
    hide Reaches, Field, FixedLit, FixedDist, Align, ToBits;
    Pow2Values();
    AtSplit(s, c.pos, [last], ToBits(kind, 2));
    AtField(s, c.pos + 1, kind, 2);
    assert s[c.pos] == s[c.pos..c.pos + 1][0];
    ReachStep(s, c, Step(s, c).c);
  }

  lemma {:induction false} BytesRun(s: seq<bool>, c: Config, data: seq<byte>)
    requires Valid(s, c) && c.mode == StoredBytes(|data|) && At(s, c.pos, BytesToBits(data))
    ensures Reaches(s, c, Config(c.last, TypeDo, c.pos + 8 * |data|, c.out + data))
    decreases |data|
  {
    hide Reaches, Field, ToBits;
    var e := Config(c.last, TypeDo, c.pos + 8 * |data|, c.out + data);
    if data == [] {
      assert c.out + data == c.out;
      ReachStep(s, c, e);
    } else {
      Pow2Values();
      AtSplit(s, c.pos, ByteBits(data[0]), BytesToBits(data[1..]));
      AtField(s, c.pos, data[0], 8);
      var d := Config(c.last, StoredBytes(|data| - 1), c.pos + 8, c.out + [data[0]]);
      ReachStep(s, c, d);
      ReachValid(s, c, d);
      BytesRun(s, d, data[1..]);
      assert (c.out + [data[0]]) + data[1..] == c.out + data;
      ReachTrans(s, c, d, e);
    }
  }

  lemma StoredHeaderRun(s: seq<bool>, c: Config, n: nat)
    requires Valid(s, c) && c.mode == StoredHeader && n <= 65535 && At(s, c.pos, StoredHeaderBits(n))
    ensures Reaches(s, c, Config(c.last, StoredBytes(n), c.pos + 32, c.out))
  {
    hide Reaches, Field, ToBits, Pow2;
    Pow2Values();
    AtSplit(s, c.pos, ToBits(n, 16), ToBits(65535 - n, 16));
    AtField(s, c.pos, n, 16);
    AtField(s, c.pos + 16, 65535 - n, 16);
    ReachStep(s, c, Config(c.last, StoredBytes(n), c.pos + 32, c.out));
  }

  lemma StoredRun(s: seq<bool>, c: Config, last: bool, data: seq<byte>)
    requires Valid(s, c) && c.mode == TypeDo && !c.last && |data| <= 65535
    requires At(s, c.pos, BlockBits(StoredBlock(data), last, c.pos, c.out))
    ensures Reaches(s, c,
                    Config(last, TypeDo, c.pos + |BlockBits(StoredBlock(data), last, c.pos, c.out)|, c.out + data))
  {
    hide Reaches, TypeBits, StoredHeaderBits, BytesToBits, Align, Valid, At, Zeros, BlockBits;
    StoredBits(data, last, c.pos, c.out);
    var p := Align(c.pos + 3);
    AtFour(s, c.pos, TypeBits(last, 0), Zeros(p - (c.pos + 3)), StoredHeaderBits(|data|), BytesToBits(data));
    StoredPartsRun(s, c, last, data, p);
  }

  lemma StoredPartsRun(s: seq<bool>, c: Config, last: bool, data: seq<byte>, p: nat)
    requires Valid(s, c) && c.mode == TypeDo && !c.last && |data| <= 65535 && p == Align(c.pos + 3)
    requires At(s, c.pos, TypeBits(last, 0)) && At(s, p, StoredHeaderBits(|data|)) && At(s, p + 32, BytesToBits(data))
    ensures Reaches(s, c, Config(last, TypeDo, p + 32 + 8 * |data|, c.out + data))
  {
    hide Reaches, TypeBits, StoredHeaderBits, BytesToBits, Align, Valid, At;
    var c1, c2 := Config(last, StoredHeader, p, c.out), Config(last, StoredBytes(|data|), p + 32, c.out);
    TypeRun(s, c, last, 0);
    ReachValid(s, c, c1);
    StoredHeaderRun(s, c1, |data|);
    ReachTrans(s, c, c1, c2);
    ReachValid(s, c, c2);
    BytesRun(s, c2, data);
    ReachTrans(s, c, c2, Config(last, TypeDo, p + 32 + 8 * |data|, c.out + data));
  }

  lemma AtFour(s: seq<bool>, pos: nat, a: seq<bool>, b: seq<bool>, c: seq<bool>, d: seq<bool>)
    requires At(s, pos, a + (b + (c + d)))
    ensures At(s, pos, a) && At(s, pos + |a| + |b|, c) && At(s, pos + |a| + |b| + |c|, d)
  {
    hide At;
    var y := c + d;
    var x := b + y;
    AtSplit(s, pos, a, x);
    AtSplit(s, pos + |a|, b, y);
    AtSplit(s, pos + |a| + |b|, c, d);
  }

  lemma StoredBits(data: seq<byte>, last: bool, pos: nat, out: seq<byte>)
    requires |data| <= 65535
    ensures BlockBits(StoredBlock(data), last, pos, out)
         == TypeBits(last, 0) + (Zeros(Align(pos + 3) - (pos + 3)) + (StoredHeaderBits(|data|) + BytesToBits(data)))
    ensures pos + |BlockBits(StoredBlock(data), last, pos, out)| == Align(pos + 3) + 32 + 8 * |data|
  {
    hide TypeBits, BytesToBits, Zeros, Align;
  }

  /** What the bits of a block with codes are. */
  lemma CodedBits(b: Block, last: bool, pos: nat, out: seq<byte>)
    requires ValidBlock(b, out) && !b.StoredBlock?
    ensures b.FixedBlock? ==> BlockBits(b, last, pos, out) == TypeBits(last, 1) + DataBits(FixedCodes(), b.tokens)
    ensures b.FixedBlock? ==> |BlockBits(b, last, pos, out)| == 3 + |DataBits(FixedCodes(), b.tokens)|
    ensures b.DynamicBlock? ==>
              BlockBits(b, last, pos, out) == TypeBits(last, 2) + (HeaderBits(b.h) + DataBits(b.k, b.tokens))
    ensures b.DynamicBlock? ==> |BlockBits(b, last, pos, out)| == 3 + |HeaderBits(b.h)| + |DataBits(b.k, b.tokens)|
  {
    hide TypeBits, DataBits, HeaderBits, AllEncodable, ValidTokens, ValidHeader, FixedCodes;
  }

  /** Block round trip: the machine turns the bits of a block into exactly what the block stands for
      and stops at the first bit after it. */
  lemma BlockRun(s: seq<bool>, c: Config, last: bool, b: Block)
    requires Valid(s, c) && c.mode == TypeDo && !c.last && ValidBlock(b, c.out)
    requires At(s, c.pos, BlockBits(b, last, c.pos, c.out))
    ensures Reaches(s, c, Config(last, TypeDo, c.pos + |BlockBits(b, last, c.pos, c.out)|, BlockOut(b, c.out)))
  {
    hide Reaches, TypeBits, DataBits, HeaderBits, AllEncodable, ValidTokens, Expand, Valid, ValidHeader, FixedCodes,
         BlockBits, At;
    if !b.StoredBlock? { CodedBits(b, last, c.pos, c.out); }
    match b
    case StoredBlock(data) => StoredRun(s, c, last, data);
    case FixedBlock(ts) => FixedRun(s, c, last, ts);
    case DynamicBlock(ts, k, h) => DynamicRun(s, c, last, ts, k, h);
  }

  lemma FixedRun(s: seq<bool>, c: Config, last: bool, ts: seq<Token>)
    requires Valid(s, c) && c.mode == TypeDo && !c.last && ValidTokens(c.out, ts) && AllEncodable(FixedCodes(), ts)
    requires At(s, c.pos, TypeBits(last, 1) + DataBits(FixedCodes(), ts))
    ensures Reaches(s, c, Config(last, TypeDo, c.pos + 3 + |DataBits(FixedCodes(), ts)|, Expand(c.out, ts)))
  {
    hide Reaches, TypeBits, DataBits, AllEncodable, ValidTokens, Expand, Valid, FixedCodes, At;
    var k := FixedCodes();
    AtSplit(s, c.pos, TypeBits(last, 1), DataBits(k, ts));
    var c1 := Config(last, Len(k), c.pos + 3, c.out);
    TypeRun(s, c, last, 1);
    ReachValid(s, c, c1);
    DataRun(s, c1, k, ts);
    ReachTrans(s, c, c1, Config(last, TypeDo, c1.pos + |DataBits(k, ts)|, Expand(c.out, ts)));
  }

  lemma DynamicRun(s: seq<bool>, c: Config, last: bool, ts: seq<Token>, k: Codes, h: Header)
    requires Valid(s, c) && c.mode == TypeDo && !c.last && ValidTokens(c.out, ts) && AllEncodable(k, ts) &&
             ValidHeader(h, k)
    requires At(s, c.pos, TypeBits(last, 2) + (HeaderBits(h) + DataBits(k, ts)))
    ensures Reaches(s, c, Config(last, TypeDo, c.pos + 3 + |HeaderBits(h)| + |DataBits(k, ts)|, Expand(c.out, ts)))
  {
    hide Reaches, TypeBits, DataBits, HeaderBits, AllEncodable, ValidTokens, Expand, Valid, ValidHeader, At, HasItems,
         ClensOf;
    HeaderShape(h, k);
    AtSplit(s, c.pos, TypeBits(last, 2), HeaderBits(h) + DataBits(k, ts));
    AtSplit(s, c.pos + 3, HeaderBits(h), DataBits(k, ts));
    var c1 := Config(last, Table, c.pos + 3, c.out);
    TypeRun(s, c, last, 2);
    ReachValid(s, c, c1);
    var c2 := Config(last, Len(k), c1.pos + |HeaderBits(h)|, c.out);
    HeaderRun(s, c1, h, k);
    ReachTrans(s, c, c1, c2);
    ReachValid(s, c, c2);
    DataRun(s, c2, k, ts);
    ReachTrans(s, c, c2, Config(last, TypeDo, c2.pos + |DataBits(k, ts)|, Expand(c.out, ts)));
  }

  lemma HeaderShape(h: Header, k: Codes)
    requires ValidHeader(h, k)
    ensures 257 <= h.nlen && 1 <= h.ndist && 4 <= |h.cl| <= 19 && HasItems(ClensOf(h.cl), h.items)
  {
  }
}
