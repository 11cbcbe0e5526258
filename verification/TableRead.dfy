/**
  inflate.c: what one or two reads of a decoding table say about the bits in the accumulator.

  The accumulator holds the next bits of the stream with zeros above them.  A read is decisive
  exactly when the code it finds lies within the bits present, so an early read never misleads.
*/
module TableRead {
  import opened Bits
  import opened Canonical
  import opened InflateTable

  /** The entry `e`, reached with `size` bits, is the answer for the bits `b`. */
  ghost predicate Answer(kind: Kind, lens: seq<nat>, b: seq<bool>, e: Entry, size: nat)
  {
    var d := Decode(lens, b);
    1 <= size <= |b| &&
    match d
    case NeedMore => false
    case Invalid => size == 1 && e == HOLE
    case Symbol(s, n) => n == size && |lens| <= SymbolLimit(kind) && e == SymbolEntry(kind, s, e.bits)
  }

  lemma CodeInside(lens: seq<nat>, s: nat, b: seq<bool>, more: seq<bool>)
    requires IsCodeAt(lens, s, b + more) && lens[s] <= |b|
    ensures IsCodeAt(lens, s, b)
  {
    assert Code(lens, s) == (b + more)[..lens[s]] == b[..lens[s]];
  }

  lemma CodeExtends(lens: seq<nat>, s: nat, b: seq<bool>, more: seq<bool>)
    requires IsCodeAt(lens, s, b)
    ensures IsCodeAt(lens, s, b + more)
  {
  }

  /** When the padded bits start with the code of `s`, the bits themselves decode iff that code is inside. */
  lemma DecodePadded(lens: seq<nat>, s: nat, b: seq<bool>, more: seq<bool>)
    requires Fits(lens) && IsCodeAt(lens, s, b + more)
    ensures lens[s] <= |b| ==> Decode(lens, b) == Symbol(s, lens[s])
    ensures lens[s] > |b| ==> Decode(lens, b) == NeedMore
  {
    hide Code, Fits;
    if lens[s] <= |b| {
      CodeInside(lens, s, b, more);
      DecodeIs(lens, s, b);
    } else if exists t: nat :: IsCodeAt(lens, t, b) {
      var t: nat :| IsCodeAt(lens, t, b);
      CodeExtends(lens, t, b, more);
      DecodeUnique(lens, s, t, b + more);
    }
  }

  /** Some symbol covers the padded bits, or the code has a hole there. */
  lemma Covered(kind: Kind, lens: seq<nat>, p: seq<bool>) returns (s: nat)
    requires Acceptable(kind, lens) && |p| >= MAX_BITS
    ensures IsCodeAt(lens, s, p) || (Bounded(lens, 1) && forall t: nat :: !IsCodeAt(lens, t, p))
  {
    hide IsCodeAt, Fits;
    if exists t: nat :: IsCodeAt(lens, t, p) {
      s :| IsCodeAt(lens, s, p);
    } else {
      s := 0;
      if Complete(lens, MAX_BITS) { s := CompleteCovers(lens, MAX_BITS, p); }
    }
  }

  lemma NoCode(lens: seq<nat>, b: seq<bool>, more: seq<bool>)
    requires forall t: nat :: !IsCodeAt(lens, t, b + more)
    ensures forall t: nat :: !IsCodeAt(lens, t, b)
  {
    forall t: nat ensures !IsCodeAt(lens, t, b) {
      if IsCodeAt(lens, t, b) { CodeExtends(lens, t, b, more); }
    }
  }

  /** What the first read `e` says: an answer, a link to follow, or that bits are missing. */
  ghost predicate RootSays(t: seq<Entry>, root: nat, kind: Kind, lens: seq<nat>, hold: nat, b: seq<bool>)
  {
    Low(hold, root) < |t| &&
    var e := t[Low(hold, root)];
    (e.bits > |b| ==> Decode(lens, b) == NeedMore) &&
    1 <= e.bits <= MAX_BITS &&
    (!IsLink(e) && e.bits <= |b| ==> Answer(kind, lens, b, e, e.bits)) &&
    (IsLink(e) ==> e.bits == root && e.bits + e.op <= 2 * MAX_BITS && !Bounded(lens, root)) &&
    (IsLink(e) && root <= |b| ==> SubSays(t, e, kind, lens, hold, b))
  }

  /** What the second read through `link` says. */
  ghost predicate SubSays(t: seq<Entry>, link: Entry, kind: Kind, lens: seq<nat>, hold: nat, b: seq<bool>)
  {
    SubIndex(link, hold) < |t| &&
    var e := t[SubIndex(link, hold)];
    !IsLink(e) && 1 <= e.bits && link.bits + e.bits <= MAX_BITS &&
    (link.bits + e.bits > |b| ==> Decode(lens, b) == NeedMore) &&
    (link.bits + e.bits <= |b| ==> Answer(kind, lens, b, e, link.bits + e.bits))
  }

  lemma SymbolRead(t: seq<Entry>, root: nat, kind: Kind, lens: seq<nat>, s: nat, hold: nat, b: seq<bool>)
    requires TableFor(t, root, kind, lens) && Fits(lens) && Bounded(lens, MAX_BITS)
    requires hold < Pow2(|b|) && b == ToBits(hold, |b|) && IsCodeAt(lens, s, b + Zeros(2 * MAX_BITS))
    ensures RootSays(t, root, kind, lens, hold, b)
  {
    var p := b + Zeros(2 * MAX_BITS);
    FromTo(hold, |b|);
    PadValue(b, 2 * MAX_BITS);
    LookupSymbol(t, root, kind, lens, s, p);
    DecodePadded(lens, s, b, Zeros(2 * MAX_BITS));
    var e := t[Low(hold, root)];
    assert |lens| <= SymbolLimit(kind) && root <= MAX_BITS;
    LinkSize(t, root, kind, lens, s, p);
    hide Decode, Code, Fits, TableFor, Pow2, ToBits, FromBits, SymbolEntry, SymbolLimit, SubIndex, Low;
    assert 1 <= lens[s] <= MAX_BITS;
  }

  lemma LinkSize(t: seq<Entry>, root: nat, kind: Kind, lens: seq<nat>, s: nat, p: seq<bool>)
    requires TableFor(t, root, kind, lens) && IsCodeAt(lens, s, p) && |p| >= 2 * MAX_BITS && Bounded(lens, MAX_BITS)
    ensures Low(FromBits(p), root) < |t|
    ensures IsLink(t[Low(FromBits(p), root)]) ==> lens[s] > root && t[Low(FromBits(p), root)].op < 16
  {
    LookupSymbol(t, root, kind, lens, s, p);
  }

  /** Reading the table with the accumulator decides exactly what the format decides. */
  lemma ReadRoot(t: seq<Entry>, root: nat, kind: Kind, lens: seq<nat>, hold: nat, b: seq<bool>)
    requires TableFor(t, root, kind, lens) && Acceptable(kind, lens) && Bounded(lens, MAX_BITS)
    requires hold < Pow2(|b|) && b == ToBits(hold, |b|)
    ensures RootSays(t, root, kind, lens, hold, b)
  {
    var p := b + Zeros(2 * MAX_BITS);
    var s := Covered(kind, lens, p);
    if IsCodeAt(lens, s, p) {
      hide TableFor, IsCodeAt, RootSays, Pow2, ToBits, Bounded;
      SymbolRead(t, root, kind, lens, s, hold, b);
    } else {
      HoleRead(t, root, kind, lens, hold, b);
    }
  }

  lemma HoleRead(t: seq<Entry>, root: nat, kind: Kind, lens: seq<nat>, hold: nat, b: seq<bool>)
    requires TableFor(t, root, kind, lens) && Bounded(lens, 1) &&
             forall s: nat :: !IsCodeAt(lens, s, b + Zeros(2 * MAX_BITS))
    requires hold < Pow2(|b|) && b == ToBits(hold, |b|)
    ensures RootSays(t, root, kind, lens, hold, b)
  {
    hide Pow2, ToBits, FromBits, IsCodeAt, Low, SubIndex;
    FromTo(hold, |b|);
    PadValue(b, 2 * MAX_BITS);
    LookupHole(t, root, kind, lens, b + Zeros(2 * MAX_BITS));
    NoCode(lens, b, Zeros(2 * MAX_BITS));
    hide TableFor, Bounded;
    HoleDecode(lens, b);
  }

  lemma HoleDecode(lens: seq<nat>, b: seq<bool>)
    requires Bounded(lens, 1) && forall s: nat :: !IsCodeAt(lens, s, b)
    ensures Decode(lens, b) == if b == [] then NeedMore else Invalid
  {
  }
}
