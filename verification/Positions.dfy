/** Ascending lists of the positions that have a property: what a filtering loop keeps. */
module Positions {

  /** `ps` lists, in ascending order, exactly the positions below `n` that are kept. */
  ghost predicate Lists(ps: seq<nat>, n: nat, keep: nat -> bool) {
    && (forall i, j | 0 <= i < j < |ps| :: ps[i] < ps[j])
    && (forall k: nat :: k in ps <==> k < n && keep(k))
  }

  /** One more position: it is appended if it is kept. */
  lemma ListsNext(ps: seq<nat>, n: nat, keep: nat -> bool, next: seq<nat>)
    requires Lists(ps, n, keep) && next == ps + if keep(n) then [n] else []
    ensures Lists(next, n + 1, keep)
  {
    assert forall i | 0 <= i < |ps| :: ps[i] in ps;
  }
}
