/** Sequences put together, and how often they hold what. */
module Sequences {

  function Concat<T>(pieces: seq<seq<T>>): seq<T>
  {
    if |pieces| == 0 then [] else pieces[0] + Concat(pieces[1..])
  }

  /** Replacing one place changes two counts. */
  lemma Moves<T>(q: seq<T>, w: nat, x: T)
    requires w < |q|
    ensures forall p :: multiset(q[w := x])[p] == multiset(q)[p] - (if p == q[w] then 1 else 0) + (if p == x then 1 else 0)
  {
    assert q == q[..w] + [q[w]] + q[w + 1..];
    assert q[w := x] == q[..w] + [x] + q[w + 1..];
  }

  lemma HeldTwice<T>(q: seq<T>, v: nat, w: nat)
    requires v < w < |q| && q[v] == q[w]
    ensures multiset(q)[q[v]] >= 2
  {
    assert q == q[..w] + q[w..];
    assert q[v] in q[..w] && q[w] in q[w..];
    assert multiset(q) == multiset(q[..w]) + multiset(q[w..]);
  }
}
