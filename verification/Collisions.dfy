/** Hash collisions among the pairs that are actually hashed. */
module Collisions {
  datatype Pair<H> = Pair(left: H, right: H)

  // Two different pairs of `s` with one hash. The sets used hold only pairs that somebody hashes, so this is a collision
  // that was found, not merely one that must exist.
  ghost predicate Collision<H(!new)>(f: (H, H) -> H, s: set<Pair<H>>) {
    exists p, q :: p in s && q in s && p != q && f(p.left, p.right) == f(q.left, q.right)
  }

  lemma SamePair<H(!new)>(f: (H, H) -> H, s: set<Pair<H>>, p: Pair<H>, q: Pair<H>)
    requires !Collision(f, s) && p in s && q in s && f(p.left, p.right) == f(q.left, q.right)
    ensures p == q
  {
  }
}
