/**
 * The integer draw `generator.number(min, max)`, that is
 * `Math.round(Math.random() * (max - min) + min)`. Randomness is injected: an
 * `Entropy` stream holds the raw choices, one consumed per draw, and a draw
 * may land on any integer between the two bounds, in either order.
 */
module Random {

  type Entropy = seq<nat>

  function Min(a: int, b: int): int { if a <= b then a else b }

  function Max(a: int, b: int): int { if a <= b then b else a }

  /** The choice at the head of the stream; an exhausted stream keeps answering 0. */
  function Head(rs: Entropy): nat { if |rs| == 0 then 0 else rs[0] }

  function Advance(rs: Entropy): Entropy { if |rs| == 0 then [] else rs[1..] }

  function Draw(lo: int, hi: int, rs: Entropy): (r: (int, Entropy))
    ensures Min(lo, hi) <= r.0 <= Max(lo, hi)
    ensures lo <= hi ==> lo <= r.0 <= hi
    ensures r.1 == Advance(rs)
  {
    (Min(lo, hi) + Head(rs) % (Max(lo, hi) - Min(lo, hi) + 1), Advance(rs))
  }

  /** The oracle does not narrow the range: every integer between the bounds can be drawn. */
  lemma DrawCanYieldAny(lo: int, hi: int, v: int)
    requires Min(lo, hi) <= v <= Max(lo, hi)
    ensures exists rs: Entropy :: Draw(lo, hi, rs).0 == v
  {
    var rs: Entropy := [v - Min(lo, hi)];
    assert Draw(lo, hi, rs).0 == v;
  }
}
