/**
  deflate.c: what a compression function does in one call, as a chain of steps.

  A step starts from the state the one before left, may read more input into the window first, and writes tokens.
*/
module Moves {
  import opened FillWindow
  import opened Format

  datatype Move = Move(from: Lz, past: Past, s: Lz, g: Past, toks: seq<Token>, t: Lz, h: Past)

  /** All tokens of the steps. */
  ghost function Toks(es: seq<Move>): (ts: seq<Token>)
    decreases |es|
  {
    if es == [] then [] else Toks(es[..|es| - 1]) + es[|es| - 1].toks
  }

  ghost function EndS(es: seq<Move>, s0: Lz): (s: Lz) { if es == [] then s0 else es[|es| - 1].t }
  ghost function EndG(es: seq<Move>, g0: Past): (g: Past) { if es == [] then g0 else es[|es| - 1].h }

  /** Each step continues the one before, and only the window is filled in between. */
  ghost predicate Chained(es: seq<Move>, s0: Lz, g0: Past)
  {
    forall i :: 0 <= i < |es| ==>
      es[i].from == EndS(es[..i], s0) && es[i].past == EndG(es[..i], g0) &&
      Filled(es[i].s, es[i].g, es[i].from, es[i].past)
  }

  lemma ChainNext(es: seq<Move>, e: Move, s0: Lz, g0: Past)
    requires Chained(es, s0, g0) && e.from == EndS(es, s0) && e.past == EndG(es, g0) && Filled(e.s, e.g, e.from, e.past)
    ensures Chained(es + [e], s0, g0) && Toks(es + [e]) == Toks(es) + e.toks
    ensures EndS(es + [e], s0) == e.t && EndG(es + [e], g0) == e.h
  {
    hide Filled;
    var all := es + [e];
    assert all[..|es|] == es;
    forall i | 0 <= i < |all|
      ensures all[i].from == EndS(all[..i], s0) && all[i].past == EndG(all[..i], g0) &&
              Filled(all[i].s, all[i].g, all[i].from, all[i].past) {
      if i < |es| { assert all[..i] == es[..i] && all[i] == es[i]; }
    }
  }

  /** `x` has been followed by the tokens of the steps, which makes `y`. */
  ghost predicate Written(x: seq<Token>, y: seq<Token>, es: seq<Move>) { y == x + Toks(es) }

  lemma WrittenMore(x: seq<Token>, y: seq<Token>, z: seq<Token>, es: seq<Move>, e: Move)
    requires Written(x, y, es) && z == y + e.toks && Toks(es + [e]) == Toks(es) + e.toks
    ensures Written(x, z, es + [e])
  {
  }
}
