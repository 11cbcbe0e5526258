/**
  Runs of the format machine: they only grow the output, need no bits beyond those they read, and any
  two runs from the same state are stages of a single one.
*/
module Runs {
  import opened Bits
  import opened Canonical
  import opened InflateTable
  import opened Format

  // ------------------------------------------------------------------ progress

  lemma StepGrows(s: seq<bool>, c: Config)
    requires Valid(s, c) && Step(s, c).Go?
    ensures c.out <= Step(s, c).c.out
    ensures !Step(s, c).c.mode.Bad? ==> c.pos <= Step(s, c).c.pos
  {
    if OfData(c.mode) { DataGrows(s, c); } else { HeaderGrows(s, c); }
  }

  /** The modes of compressed data, as against those of the block headers. */
  predicate OfData(m: Mode)
  {
    m.Len? || m.LenExt? || m.Dist? || m.DistExt? || m.Match? || m.Lit?
  }

  lemma DataGrows(s: seq<bool>, c: Config)
    requires Valid(s, c) && Step(s, c).Go? && OfData(c.mode)
    ensures c.out <= Step(s, c).c.out
    ensures !Step(s, c).c.mode.Bad? ==> c.pos <= Step(s, c).c.pos
  {
    hide ValidCodes, Acceptable, Decode, Field, ExtraBits, Pow2, Bounded;
  }

  lemma HeaderGrows(s: seq<bool>, c: Config)
    requires Valid(s, c) && Step(s, c).Go? && !OfData(c.mode)
    ensures c.out <= Step(s, c).c.out
    ensures !Step(s, c).c.mode.Bad? ==> c.pos <= Step(s, c).c.pos
  {
    hide ValidCodes, Acceptable, Decode, Field, ExtraBits, Pow2, FixedLit, FixedDist, ClensOf, Bounded;
  }

  lemma BadIsLast(s: seq<bool>, c: Config)
    requires Valid(s, c) && c.mode.Bad?
    ensures Step(s, c) == Stuck
  {
  }

  // ------------------------------------------------------------------ runs need only what they read

  lemma DecodeCut(lens: seq<nat>, s: seq<bool>, pos: nat, k: nat)
    requires pos <= k <= |s|
    requires var d := Decode(lens, s[pos..]); (d.Symbol? && pos + d.size <= k) || (d.Invalid? && pos + 1 <= k)
    ensures !Decode(lens, s[..k][pos..]).NeedMore?
  {
    var d := Decode(lens, s[pos..]);
    var b := s[..k][pos..];
    if d.Symbol? {
      assert Code(lens, d.sym) == s[pos..][..d.size] == b[..d.size];
      assert IsCodeAt(lens, d.sym, b);
    }
  }

  lemma NotStuckHeader(s: seq<bool>, c: Config, k: nat)
    requires Valid(s, c) &&
             (c.mode.TypeDo? || c.mode.StoredHeader? || c.mode.StoredBytes? || c.mode.Table? || c.mode.LenLens?)
    requires k % 8 == 0 && c.pos <= k <= |s| && Step(s, c).Go? && !Step(s, c).c.mode.Bad? && Step(s, c).c.pos <= k
    ensures Valid(s[..k], c) && Step(s[..k], c).Go?
  {
    hide Field, FixedLit, FixedDist, ClensOf, Acceptable, Bounded;
  }

  lemma NotStuckCodeLens(s: seq<bool>, c: Config, k: nat)
    requires Valid(s, c) && c.mode.CodeLens?
    requires k % 8 == 0 && c.pos <= k <= |s| && Step(s, c).Go? && !Step(s, c).c.mode.Bad? && Step(s, c).c.pos <= k
    ensures Valid(s[..k], c) && Step(s[..k], c).Go?
  {
    hide Field, Acceptable, Bounded, Decode;
    var m := c.mode;
    if |m.lens| < m.nlen + m.ndist {
      var d := Decode(m.clens, s[c.pos..]);
      AcceptableFits(CODES, m.clens);
      hide Fits;
      DecodeCut(m.clens, s, c.pos, k);
      assert s == s[..k] + s[k..];
      DecodeRestStable(m.clens, s[..k], s[k..], c.pos);
    }
  }

  lemma NotStuckData(s: seq<bool>, c: Config, k: nat)
    requires Valid(s, c) && OfData(c.mode)
    requires k % 8 == 0 && c.pos <= k <= |s| && Step(s, c).Go? && !Step(s, c).c.mode.Bad? && Step(s, c).c.pos <= k
    ensures Valid(s[..k], c) && Step(s[..k], c).Go?
  {
    hide Field, ValidCodes, Decode, ExtraBits;
    CodesSize(c.mode.k);
    if c.mode.Len? { DecodeCut(c.mode.k.ll, s, c.pos, k); }
    if c.mode.Dist? { DecodeCut(c.mode.k.dl, s, c.pos, k); }
  }

  /** A step is possible as soon as the bits it reads are there. */
  lemma StepLocal(s: seq<bool>, c: Config, k: nat)
    requires Valid(s, c) && k % 8 == 0 && c.pos <= k <= |s|
    requires Step(s, c).Go? && !Step(s, c).c.mode.Bad? && Step(s, c).c.pos <= k
    ensures Valid(s[..k], c) && Step(s[..k], c) == Step(s, c)
  {
    hide Step, Valid;
    match c.mode {
      case TypeDo => NotStuckHeader(s, c, k);
      case StoredHeader => NotStuckHeader(s, c, k);
      case StoredBytes(_) => NotStuckHeader(s, c, k);
      case Table => NotStuckHeader(s, c, k);
      case LenLens(_, _, _, _) => NotStuckHeader(s, c, k);
      case CodeLens(_, _, _, _) => NotStuckCodeLens(s, c, k);
      case Done => NotTerminal(s, c);
      case Bad => NotTerminal(s, c);
      case _ => NotStuckData(s, c, k);
    }
    WholeBytes(s, c);
    assert s == s[..k] + s[k..];
    StepStable(s[..k], s[k..], c);
  }

  lemma WholeBytes(s: seq<bool>, c: Config)
    requires Valid(s, c)
    ensures |s| % 8 == 0
  {
  }

  lemma {:induction false} PathLocal(s: seq<bool>, a: Config, b: Config, n: nat, k: nat)
    requires Path(s, a, b, n) && !b.mode.Bad? && b.pos <= k <= |s| && k % 8 == 0
    ensures a.pos <= b.pos && Path(s[..k], a, b, n)
    decreases n
  {
    hide Step;
    if n > 0 {
      var c := Step(s, a).c;
      PathLocal(s, c, b, n - 1, k);
      if c.mode.Bad? {
        BadPath(s, c, b, n - 1);
      } else {
        StepGrows(s, a);
        StepLocal(s, a, k);
      }
    } else {
      assert |s[..k]| == k;
    }
  }

  lemma BadPath(s: seq<bool>, a: Config, b: Config, n: nat)
    requires Path(s, a, b, n) && a.mode.Bad?
    ensures b == a
  {
    if n > 0 { BadIsLast(s, a); }
  }

  /** A run that reads no further than bit `k` is a run over the first `k` bits. */
  lemma ReachLocal(s: seq<bool>, a: Config, b: Config, k: nat)
    requires Reaches(s, a, b) && !b.mode.Bad? && b.pos <= k <= |s| && k % 8 == 0
    ensures Reaches(s[..k], a, b)
  {
    hide Step, Valid;
    var n: nat :| Path(s, a, b, n);
    PathLocal(s, a, b, n, k);
  }

  // ------------------------------------------------------------------ runs are finite

  /** Bytes that are still to come without reading a code for them. */
  function Owed(m: Mode): (n: nat)
  {
    match m
    case LenExt(_, _, _) => 258
    case Dist(_, _) => 258
    case DistExt(_, _, _, _) => 258
    case Match(_, length, _) => length
    case Lit(_, _) => 1
    case _ => 0
  }

  /** Every bit read stands for at most 258 bytes of output. */
  predicate Paid(s: seq<bool>, c: Config) { |c.out| + Owed(c.mode) <= 258 * if c.mode.Bad? then |s| else c.pos }

  lemma StepPaid(s: seq<bool>, c: Config)
    requires Valid(s, c) && Step(s, c).Go? && Paid(s, c)
    ensures Paid(s, Step(s, c).c)
  {
    if OfData(c.mode) { DataPaid(s, c); } else { HeaderPaid(s, c); }
  }

  lemma DataPaid(s: seq<bool>, c: Config)
    requires Valid(s, c) && Step(s, c).Go? && Paid(s, c) && OfData(c.mode)
    ensures Paid(s, Step(s, c).c)
  {
    hide ValidCodes, Acceptable, Decode, Field, ExtraBits, Pow2, Bounded, LBASE, DBASE, LEXT, DEXT;
  }

  lemma HeaderPaid(s: seq<bool>, c: Config)
    requires Valid(s, c) && Step(s, c).Go? && Paid(s, c) && !OfData(c.mode)
    ensures Paid(s, Step(s, c).c)
  {
    hide ValidCodes, Acceptable, Decode, Field, ExtraBits, Pow2, FixedLit, FixedDist, ClensOf, Bounded, LBASE, DBASE,
         LEXT, DEXT;
  }

  lemma {:induction false} PathPaid(s: seq<bool>, a: Config, b: Config, n: nat)
    requires Path(s, a, b, n) && Paid(s, a)
    ensures Paid(s, b)
    decreases n
  {
    hide Step, Valid, Paid;
    if n > 0 {
      StepPaid(s, a);
      PathPaid(s, Step(s, a).c, b, n - 1);
    }
  }

  /** The output of a run is bounded by its input. */
  lemma ReachBound(s: seq<bool>, c: Config)
    requires Reaches(s, START, c)
    ensures |c.out| <= 258 * |s|
  {
    hide Step, Valid;
    var n: nat :| Path(s, START, c, n);
    PathPaid(s, START, c, n);
    PathValid(s, START, c, n);
  }

  lemma {:induction false} PathValid(s: seq<bool>, a: Config, b: Config, n: nat)
    requires Path(s, a, b, n)
    ensures b.pos <= |s|
    decreases n
  {
    hide Step;
    if n > 0 { PathValid(s, Step(s, a).c, b, n - 1); }
  }

  // ------------------------------------------------------------------ two runs

  lemma {:induction false} PathGrows(s: seq<bool>, a: Config, b: Config, n: nat)
    requires Path(s, a, b, n)
    ensures a.out <= b.out
    decreases n
  {
    hide Step, Valid;
    if n > 0 {
      StepGrows(s, a);
      PathGrows(s, Step(s, a).c, b, n - 1);
    }
  }

  lemma ReachGrows(s: seq<bool>, a: Config, b: Config)
    requires Reaches(s, a, b)
    ensures a.out <= b.out
  {
    hide Step, Valid;
    var n: nat :| Path(s, a, b, n);
    PathGrows(s, a, b, n);
  }

  lemma {:induction false} PathLinear(s: seq<bool>, a: Config, b: Config, c: Config, n: nat, m: nat)
    requires Path(s, a, b, n) && Path(s, a, c, m) && n <= m
    ensures Path(s, b, c, m - n)
    decreases n
  {
    hide Step, Valid;
    if n > 0 { PathLinear(s, Step(s, a).c, b, c, n - 1, m - 1); }
  }

  /** Of two runs from the same state one continues the other. */
  lemma ReachLinear(s: seq<bool>, a: Config, b: Config, c: Config)
    requires Reaches(s, a, b) && Reaches(s, a, c)
    ensures Reaches(s, b, c) || Reaches(s, c, b)
  {
    hide Step, Valid;
    var n: nat :| Path(s, a, b, n);
    var m: nat :| Path(s, a, c, m);
    if n <= m { PathLinear(s, a, b, c, n, m); } else { PathLinear(s, a, c, b, m, n); }
  }
}
