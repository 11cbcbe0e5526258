/**
  deflate.c: the sliding window, reading input into it, and entering strings that could not be entered
  before because their third byte was missing.
*/
module FillWindow {
  import opened Bits
  import opened Hash
  import opened HashChains
  import opened LongestMatch

  /** The scalar state of the matcher.  Positions are window indices and may become negative when the window slides. */
  datatype Lz = Lz(strstart: nat, lookahead: nat, insert: nat, insH: nat, matchStart: int, matchLength: nat,
                   prevLength: nat, prevMatch: int, matchAvailable: bool, blockStart: int, input: seq<byte>, next: nat)

  /** All input read so far, the absolute position of window index 0, the strings entered in the hash table, and the
      position after the last of them. */
  datatype Past = Past(base: nat, data: seq<byte>, ins: set<nat>, top: nat)

  class Dict {
    const f: Conf
    const window: array<byte>
    const head: array<nat>
    const prev: array<nat>

    ghost predicate Shape()
    {
      ValidConf(f) && window.Length == 2 * WSize(f) && head.Length == Pow2(f.hashBits) && prev.Length == WSize(f) &&
      head != prev
    }

    constructor (f: Conf)
      requires ValidConf(f)
      ensures Shape() && this.f == f && fresh(window) && fresh(head) && fresh(prev)
      ensures Chains(f.hashBits, WSize(f), head[..], prev[..], [], 0, {}, 0)
    {
      hide Chains, Pow2;
      this.f := f;
      window, head, prev := new byte[2 * WSize(f)], new nat[Pow2(f.hashBits)], new nat[WSize(f)];
      new;
      ClearHash(f, head, prev, [], 0);
    }
  }

  /** Window and hash table agree with the input. */
  ghost predicate LzOk(d: Dict, s: Lz, g: Past)
    reads d.window, d.head, d.prev
  {
    d.Shape() && |g.data| == g.base + s.strstart + s.lookahead && s.insert <= s.strstart && s.next <= |s.input| &&
    WindowHas(d.window[..], g.data, g.base, s.strstart + s.lookahead) &&
    Chains(d.f.hashBits, WSize(d.f), d.head[..], d.prev[..], g.data, g.base, g.ins, g.top) &&
    g.top <= g.base + s.strstart - s.insert && (g.top <= g.base || g.top + 2 <= |g.data|) &&
    (s.insert > 0 ==> s.lookahead + s.insert < MIN_MATCH) &&
    (!d.f.useHash ==> s.insert == 0) &&
    (d.f.useHash && s.lookahead >= MIN_MATCH ==>
       Primed(d.f.hashBits, s.insH, g.data[g.base + s.strstart], g.data[g.base + s.strstart + 1]))
  }

  lemma LzIs(d: Dict, s: Lz, g: Past)
    requires LzOk(d, s, g)
    ensures d.Shape() && |g.data| == g.base + s.strstart + s.lookahead && s.insert <= s.strstart && s.next <= |s.input|
    ensures WindowHas(d.window[..], g.data, g.base, s.strstart + s.lookahead) &&
            s.strstart + s.lookahead <= d.window.Length == 2 * WSize(d.f)
    ensures Chains(d.f.hashBits, WSize(d.f), d.head[..], d.prev[..], g.data, g.base, g.ins, g.top) &&
            g.top <= g.base + s.strstart - s.insert
    ensures (s.insert > 0 ==> s.lookahead + s.insert < MIN_MATCH) && (!d.f.useHash ==> s.insert == 0)
    ensures d.f.useHash && s.lookahead >= MIN_MATCH ==>
              Primed(d.f.hashBits, s.insH, g.data[g.base + s.strstart], g.data[g.base + s.strstart + 1])
    ensures 512 <= WSize(d.f) <= 32768 && MaxDist(d.f) == WSize(d.f) - 262 >= 0
  {
    hide Chains, Primed;
    WSizes(d.f);
  }

  // ------------------------------------------------------------------ sliding

  /** Moves `n` bytes from the upper half of the window to the lower one. */
  method MoveDown(window: array<byte>, w: nat, n: nat)
    requires n <= w && w + n <= window.Length
    modifies window
    ensures window[..n] == old(window[w..w + n])
  {
    var k := 0;
    while k < n
      invariant 0 <= k <= n && window[..k] == old(window[w..w + k])
      invariant forall i :: w <= i < window.Length ==> window[i] == old(window[i])
    {
      ghost var was := window[..k];
      window[k] := window[w + k];
      assert window[..k + 1] == was + [window[k]];
      k := k + 1;
    }
  }

  lemma SlidWindow(a: seq<byte>, b: seq<byte>, data: seq<byte>, base: nat, w: nat, n: nat)
    requires WindowHas(a, data, base, w + n) && |b| == |a| && b[..n] == a[w..w + n]
    ensures WindowHas(b, data, base + w, n)
  {
    SliceAt(a, data, base, w + n, w, n);
  }

  /** The window slid down by its half: the same input and the same strings at smaller indices. */
  method Slide(d: Dict, s: Lz, ghost g: Past) returns (t: Lz, ghost h: Past)
    requires LzOk(d, s, g) && s.strstart >= WSize(d.f) + MaxDist(d.f) && s.strstart >= WSize(d.f) &&
             s.lookahead < MIN_LOOKAHEAD
    modifies d.window, d.head, d.prev
    ensures LzOk(d, t, h) && h == Past(g.base + WSize(d.f), g.data, Above(g.ins, g.base + WSize(d.f)), g.top)
    ensures t
            == s.(strstart := s.strstart - WSize(d.f), matchStart := s.matchStart - WSize(d.f),
                  blockStart := s.blockStart - WSize(d.f))
  {
    hide Chains, Primed, WindowHas, Pow2, Above;
    LzIs(d, s, g);
    var w := WSize(d.f);
    var n := s.strstart + s.lookahead - w;
    ghost var was := d.window[..];
    MoveDown(d.window, w, n);
    SlideWindowIs(was, d.window[..], g.data, g.base, w, n, d.window);
    SlideHash(d.f, d.head, d.prev, g.data, g.base, g.ins, g.top);
    t := s.(strstart := s.strstart - w, matchStart := s.matchStart - w, blockStart := s.blockStart - w);
    h := Past(g.base + w, g.data, Above(g.ins, g.base + w), g.top);
    assert h.base + t.strstart - t.insert == g.base + s.strstart - s.insert;
  }

  lemma SlideWindowIs(was: seq<byte>, now: seq<byte>, data: seq<byte>, base: nat, w: nat, n: nat, window: array<byte>)
    requires WindowHas(was, data, base, w + n) && now == window[..] && |now| == |was| && n <= w && w + n <= |was| &&
             window[..n] == was[w..w + n]
    ensures WindowHas(now, data, base + w, n)
  {
    hide WindowHas;
    assert now[..n] == window[..n];
    SlidWindow(was, now, data, base, w, n);
  }

  // ------------------------------------------------------------------ reading

  /** read_buf: as much input as there is room for. */
  method ReadBuf(window: array<byte>, at: nat, more: nat, input: seq<byte>, next: nat) returns (n: nat)
    requires at + more <= window.Length && next <= |input|
    modifies window
    ensures n == (if |input| - next > more then more else |input| - next)
    ensures window[..at + n] == old(window[..at]) + input[next..next + n]
  {
    n := |input| - next;
    if n > more { n := more; }
    var k := 0;
    while k < n
      invariant 0 <= k <= n && window[..at + k] == old(window[..at]) + input[next..next + k]
    {
      ghost var was := window[..at + k];
      window[at + k] := input[next + k];
      assert window[..at + (k + 1)] == was + [input[next + k]];
      assert input[next..next + (k + 1)] == input[next..next + k] + [input[next + k]];
      k := k + 1;
    }
  }

  lemma ReadWindow(a: seq<byte>, b: seq<byte>, data: seq<byte>, more: seq<byte>, base: nat, end: nat)
    requires WindowHas(a, data, base, end) && |data| == base + end && |b| == |a| && end + |more| <= |b| &&
             b[..end + |more|] == a[..end] + more
    ensures WindowHas(b, data + more, base, end + |more|)
  {
    assert (data + more)[base..base + end + |more|] == data[base..base + end] + more;
  }

  /** State while the strings left over are entered: `str` is the next of them. */
  ghost predicate Entering(d: Dict, s: Lz, g: Past, str: nat, insert: nat, insH: nat)
    reads d.window, d.head, d.prev
  {
    d.Shape() && |g.data| == g.base + s.strstart + s.lookahead && str + insert == s.strstart && s.next <= |s.input| &&
    WindowHas(d.window[..], g.data, g.base, s.strstart + s.lookahead) &&
    Chains(d.f.hashBits, WSize(d.f), d.head[..], d.prev[..], g.data, g.base, g.ins, g.base + str) &&
    str + 1 < s.strstart + s.lookahead && Primed(d.f.hashBits, insH, g.data[g.base + str], g.data[g.base + str + 1])
  }

  lemma EnterStep(d: Dict, s: Lz, g: Past, str: nat, insert: nat, insH: nat)
    requires Entering(d, s, g, str, insert, insH) && insert + s.lookahead >= 3
    ensures d.Shape() && g.base + str + 2 < |g.data| && str + 2 < d.window.Length &&
            d.window[str + 2] == g.data[g.base + str + 2]
    ensures Chains(d.f.hashBits, WSize(d.f), d.head[..], d.prev[..], g.data, g.base, g.ins, g.base + str)
    ensures Primed(d.f.hashBits, insH, g.data[g.base + str], g.data[g.base + str + 1])
    ensures |g.data| == g.base + s.strstart + s.lookahead && str + insert == s.strstart && s.next <= |s.input|
    ensures WindowHas(d.window[..], g.data, g.base, s.strstart + s.lookahead)
  {
    hide Chains, Primed;
    ByteAt(d.window[..], g.data, g.base, s.strstart + s.lookahead, str + 2);
  }

  /** Enters the strings whose third byte has arrived. */
  method EnterRest(d: Dict, s: Lz, ghost g: Past, str0: nat, insH0: nat) returns (t: Lz, ghost h: Past)
    requires Entering(d, s, g, str0, s.insert, insH0) && s.lookahead + s.insert >= MIN_MATCH &&
             (!d.f.useHash ==> s.insert == 0)
    modifies d.head, d.prev
    ensures LzOk(d, t, h) && t == s.(insert := t.insert, insH := t.insH) && h == g.(ins := h.ins, top := h.top)
    ensures t.insert <= s.insert && h.ins == WithStrings(g.ins, g.base, g.base + str0, s.insert - t.insert)
  {
    hide Chains, Primed, WindowHas, Pow2, WithString, WithStrings, HashAt, Entering, LzOk;
    var str: nat, insert: nat, insH: nat := str0, s.insert, insH0;
    h := g;
    EnterStep(d, s, g, str, insert, insH);
    WithStringsStep(g.ins, g.base, g.base + str0, 0);
    while insert > 0
      invariant str + insert == s.strstart && Entering(d, s, h, str, insert, insH) && h == g.(ins := h.ins) &&
                s.lookahead + insert >= MIN_MATCH
      invariant !d.f.useHash ==> insert == 0
      invariant insert <= s.insert && h.ins == WithStrings(g.ins, g.base, g.base + str0, s.insert - insert)
      decreases insert
    {
      EnterStep(d, s, h, str, insert, insH);
      ghost var k := h;
      WithStringsStep(g.ins, g.base, g.base + str0, s.insert - insert);
      var x, hashHead := InsertString(d.f, d.head, d.prev, str, insH, d.window[str + 2], h.data, h.base, h.ins);
      h := h.(ins := WithString(h.ins, h.base, h.base + str));
      insH := x;
      str := str + 1;
      insert := insert - 1;
      EnterNext(d, s, k, h, str, insert, insH);
      if s.lookahead + insert < MIN_MATCH { break; }
    }
    t := s.(insert := insert, insH := insH);
    EnterDone(d, s, h, str, insert, insH, t);
    h := h.(top := h.base + str);
  }

  lemma EnterNext(d: Dict, s: Lz, k: Past, g: Past, str: nat, insert: nat, insH: nat)
    requires d.Shape() && |g.data| == g.base + s.strstart + s.lookahead && str + insert == s.strstart &&
             s.next <= |s.input| && 1 <= str
    requires WindowHas(d.window[..], g.data, g.base, s.strstart + s.lookahead) && s.lookahead + insert >= 2
    requires Chains(d.f.hashBits, WSize(d.f), d.head[..], d.prev[..], g.data, g.base, g.ins, g.base + str)
    requires Primed(d.f.hashBits, insH, g.data[g.base + str], g.data[g.base + str + 1])
    ensures Entering(d, s, g, str, insert, insH)
  {
  }

  lemma EnterDone(d: Dict, s: Lz, g: Past, str: nat, insert: nat, insH: nat, t: Lz)
    requires Entering(d, s, g, str, insert, insH) && (insert > 0 ==> s.lookahead + insert < MIN_MATCH) &&
             t == s.(insert := insert, insH := insH)
    requires !d.f.useHash ==> insert == 0
    ensures LzOk(d, t, g.(top := g.base + str))
  {
    hide Chains, Primed, WindowHas, Pow2;
  }

  // ------------------------------------------------------------------ fill_window

  /** The same text and positions as before, with more input behind. */
  ghost predicate Filled(t: Lz, h: Past, s: Lz, g: Past)
  {
    t.input == s.input && s.next <= t.next <= |s.input| && h.data == g.data + s.input[s.next..t.next] &&
    g.base <= h.base &&
    h.base + t.strstart == g.base + s.strstart && h.base + t.matchStart == g.base + s.matchStart &&
    h.base + t.blockStart == g.base + s.blockStart &&
    t.matchLength == s.matchLength && t.prevLength == s.prevLength && t.prevMatch == s.prevMatch &&
    t.matchAvailable == s.matchAvailable &&
    t.lookahead == s.lookahead + (t.next - s.next) && (s.strstart >= 1 ==> t.strstart >= 1) &&
    t.insert <= s.insert && Kept(h, g, g.base + s.strstart - s.insert, g.base + s.strstart - t.insert)
  }

  /** The entered positions are those of before that are still in the window, and those from `lo` up to `hi`. */
  ghost predicate Kept(h: Past, g: Past, lo: int, hi: int)
  {
    (forall p :: p in h.ins ==> p in g.ins || lo <= p < hi) &&
    forall p: nat :: p > h.base && (p in g.ins || lo <= p < hi) ==> p in h.ins
  }

  /** All input that there was room for has been read. */
  predicate Took(t: Lz, s: Lz, more: nat)
  {
    t.next - s.next == if |s.input| - s.next <= more then |s.input| - s.next else more
  }

  lemma TookAll(t: Lz, s: Lz, more: nat, size: nat)
    requires Took(t, s, more) && more == size - s.lookahead - s.strstart && t.input == s.input &&
             t.strstart == s.strstart && t.lookahead == s.lookahead + (t.next - s.next)
    ensures t.next == |t.input| || t.strstart + t.lookahead == size
  {
  }

  /** Reads once into the room there is, and enters strings that were waiting for it. */
  method ReadMore(d: Dict, s: Lz, ghost g: Past, more: nat) returns (t: Lz, ghost h: Past)
    requires LzOk(d, s, g) && s.next < |s.input| && more == d.window.Length - s.lookahead - s.strstart && more >= 2
    modifies d.window, d.head, d.prev
    ensures LzOk(d, t, h) && Filled(t, h, s, g) && t.strstart == s.strstart && h.base == g.base
    ensures Took(t, s, more) && t.next > s.next
  {
    hide Chains, Primed, WindowHas, Pow2, Entering, LzOk, WSize, Filled;
    t, h := TakeIn(d, s, g, more);
    if t.lookahead + t.insert >= MIN_MATCH {
      var str := t.strstart - t.insert;
      ChainsBound(d.f.hashBits, WSize(d.f), d.head[..], d.prev[..], h.data, h.base, h.ins, h.top, h.base + str);
      StartEntering(d, t, h, str);
      ghost var u, k := t, h;
      t, h := EnterRest(d, t, h, str, UpdateHash(d.f.hashBits, d.window[str], d.window[str + 1]));
      FilledInner(t, h, u, k, s, g);
    } else {
      NothingWaits(d, t, h);
    }
  }

  lemma FilledInner(t: Lz, h: Past, u: Lz, k: Past, s: Lz, g: Past)
    requires Filled(u, k, s, g) && t == u.(insert := t.insert, insH := t.insH) && h == k.(ins := h.ins, top := h.top)
    requires t.insert <= u.insert <= u.strstart &&
             h.ins == WithStrings(k.ins, k.base, k.base + u.strstart - u.insert, u.insert - t.insert)
    ensures Filled(t, h, s, g)
  {
    hide WithStrings;
    var lo, hi := k.base + u.strstart - u.insert, k.base + u.strstart - t.insert;
    forall p: nat ensures p in h.ins <==> p in k.ins || (lo <= p < hi && p != k.base) {
      InStrings(k.ins, k.base, lo, u.insert - t.insert, p);
    }
  }

  /** Window and chains after reading, before waiting strings are entered. */
  ghost predicate Waiting(d: Dict, s: Lz, g: Past)
    reads d.window, d.head, d.prev
  {
    d.Shape() && |g.data| == g.base + s.strstart + s.lookahead && s.insert <= s.strstart && s.next <= |s.input| &&
    WindowHas(d.window[..], g.data, g.base, s.strstart + s.lookahead) &&
    Chains(d.f.hashBits, WSize(d.f), d.head[..], d.prev[..], g.data, g.base, g.ins, g.top) &&
    g.top <= g.base + s.strstart - s.insert && (g.top <= g.base || g.top + 2 <= |g.data|) &&
    (!d.f.useHash ==> s.insert == 0)
  }

  lemma NothingWaits(d: Dict, s: Lz, g: Past)
    requires Waiting(d, s, g) && s.lookahead + s.insert < MIN_MATCH
    ensures LzOk(d, s, g)
  {
    hide Chains, Primed, WindowHas;
  }

  /** Reads once into the room there is. */
  method TakeIn(d: Dict, s: Lz, ghost g: Past, more: nat) returns (t: Lz, ghost h: Past)
    requires LzOk(d, s, g) && s.next < |s.input| && more == d.window.Length - s.lookahead - s.strstart && more >= 2
    modifies d.window
    ensures Waiting(d, t, h) && Filled(t, h, s, g) && t == s.(lookahead := t.lookahead, next := t.next) &&
            h == g.(data := h.data)
    ensures Took(t, s, more) && t.next > s.next
  {
    hide Chains, Primed, WindowHas, Pow2;
    LzIs(d, s, g);
    ghost var was := d.window[..];
    var end := s.strstart + s.lookahead;
    var n := ReadBuf(d.window, end, more, s.input, s.next);
    ghost var x := s.input[s.next..s.next + n];
    assert d.window[..][..end + n] == d.window[..end + n] && was[..end] == old(d.window[..end]);
    ReadWindow(was, d.window[..], g.data, x, g.base, end);
    ChainsGrow(d.f.hashBits, WSize(d.f), d.head[..], d.prev[..], g.data, x, g.base, g.ins, g.top, g.top);
    t := s.(lookahead := s.lookahead + n, next := s.next + n);
    h := g.(data := g.data + x);
  }

  lemma StartEntering(d: Dict, s: Lz, g: Past, str: nat)
    requires d.Shape() && |g.data| == g.base + s.strstart + s.lookahead && str + s.insert == s.strstart &&
             s.next <= |s.input|
    requires WindowHas(d.window[..], g.data, g.base, s.strstart + s.lookahead) && s.lookahead + s.insert >= MIN_MATCH
    requires Chains(d.f.hashBits, WSize(d.f), d.head[..], d.prev[..], g.data, g.base, g.ins, g.base + str)
    ensures str + 1 < d.window.Length &&
            Entering(d, s, g, str, s.insert, UpdateHash(d.f.hashBits, d.window[str], d.window[str + 1]))
  {
    hide Chains, Primed, UpdateHash;
    ByteAt(d.window[..], g.data, g.base, s.strstart + s.lookahead, str);
    ByteAt(d.window[..], g.data, g.base, s.strstart + s.lookahead, str + 1);
    PrimedStart(d.f.hashBits, d.window[str], d.window[str + 1]);
  }

  lemma FilledOnce(t: Lz, h: Past, u: Lz, k: Past, s: Lz, g: Past)
    requires Filled(u, k, s, g) && Filled(t, h, u, k)
    ensures Filled(t, h, s, g)
  {
    var a, b := s.input[s.next..u.next], s.input[u.next..t.next];
    assert s.input[s.next..t.next] == a + b;
    SeqAssoc(g.data, a, b);
  }

  lemma FilledNone(s: Lz, g: Past)
    requires s.next <= |s.input|
    ensures Filled(s, g, s, g)
  {
    assert s.input[s.next..s.next] == [];
    assert g.data + [] == g.data;
  }

  lemma FilledSlide(t: Lz, h: Past, s: Lz, g: Past, w: nat)
    requires s.next <= |s.input| && w < s.strstart && h.base == g.base + w && h.data == g.data
    requires h.ins == Above(g.ins, h.base)
    requires t == s.(strstart := s.strstart - w, matchStart := s.matchStart - w, blockStart := s.blockStart - w)
    ensures Filled(t, h, s, g)
  {
    assert s.input[s.next..s.next] == [];
    assert g.data + [] == g.data;
  }

  /** By how much the window slides. */
  function Slid(f: Conf, strstart: nat): (w: nat) { if strstart >= WSize(f) + MaxDist(f) then WSize(f) else 0 }

  /** Slides the window when it is almost full. */
  method MakeRoom(d: Dict, s: Lz, ghost g: Past) returns (t: Lz, ghost h: Past)
    requires LzOk(d, s, g) && s.lookahead < MIN_LOOKAHEAD
    modifies d.window, d.head, d.prev
    ensures LzOk(d, t, h) && Filled(t, h, s, g) && t.next == s.next && t.lookahead == s.lookahead
    ensures t.strstart + MIN_LOOKAHEAD < d.window.Length && h.base == g.base + Slid(d.f, s.strstart) &&
            Slid(d.f, t.strstart) == 0
  {
    hide LzOk, Filled, Pow2, WindowHas, Chains, Primed, d.Shape;
    t, h := s, g;
    LzIs(d, s, g);
    FilledNone(s, g);
    if s.strstart >= WSize(d.f) + MaxDist(d.f) {
      t, h := Slide(d, s, g);
      FilledSlide(t, h, s, g, WSize(d.f));
    }
  }

  lemma FilledIs(t: Lz, h: Past, s: Lz, g: Past)
    requires Filled(t, h, s, g)
    ensures t.input == s.input && s.next <= t.next <= |s.input| && t.lookahead == s.lookahead + (t.next - s.next)
  {
  }

  /** fill_window: reads until there is enough lookahead or no input. */
  method FillWindow(d: Dict, s: Lz, ghost g: Past) returns (t: Lz, ghost h: Past)
    requires LzOk(d, s, g) && s.lookahead < MIN_LOOKAHEAD
    modifies d.window, d.head, d.prev
    ensures LzOk(d, t, h) && Filled(t, h, s, g)
    ensures t.strstart + MIN_LOOKAHEAD <= d.window.Length
    ensures t.lookahead >= MIN_LOOKAHEAD || t.next == |t.input|
    ensures h.base == g.base + Slid(d.f, s.strstart) &&
            (t.next == |t.input| || t.strstart + t.lookahead == d.window.Length)
  {
    hide LzOk, Filled, Pow2, WindowHas, Chains, Primed, d.Shape, WSize, MaxDist, Took;
    t, h := s, g;
    FilledStart(d, s, g);
    while true
      invariant h.base + Slid(d.f, t.strstart) == g.base + Slid(d.f, s.strstart)
      invariant LzOk(d, t, h) && Filled(t, h, s, g) && t.lookahead < MIN_LOOKAHEAD && t.next <= |t.input|
      decreases |t.input| - t.next
    {
      ghost var u, k := t, h;
      t, h := MakeRoom(d, t, h);
      FilledIs(t, h, u, k);
      FilledOnce(t, h, u, k, s, g);
      var more := d.window.Length - t.lookahead - t.strstart;
      if t.next == |t.input| { break; }
      assert more >= 2;
      u, k := t, h;
      t, h := ReadMore(d, t, h, more);
      FilledIs(t, h, u, k);
      FilledOnce(t, h, u, k, s, g);
      if t.lookahead >= MIN_LOOKAHEAD || t.next == |t.input| {
        TookAll(t, u, more, d.window.Length);
        break;
      }
    }
  }

  lemma FilledStart(d: Dict, s: Lz, g: Past)
    requires LzOk(d, s, g)
    ensures Filled(s, g, s, g) && s.next <= |s.input|
  {
    hide Filled, WindowHas, Chains, Primed, d.Shape;
    FilledNone(s, g);
  }
}
