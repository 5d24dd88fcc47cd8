/** The Merkle root of a list, level by level, and the branch that leads from a leaf to it. */
module MerkleLevels {
  import opened Collisions

  // Neighbours in pairs, the last one with itself if it is alone.
  function PairOf<H>(s: seq<H>, i: nat): Pair<H>
    requires 2 * i < |s|
  {
    Pair(s[2 * i], if 2 * i + 1 < |s| then s[2 * i + 1] else s[2 * i])
  }

  function NextLevel<H>(f: (H, H) -> H, s: seq<H>): (r: seq<H>)
    ensures |r| == (|s| + 1) / 2
  {
    seq((|s| + 1) / 2, i requires 0 <= i < (|s| + 1) / 2 => f(PairOf(s, i).left, PairOf(s, i).right))
  }

  function MerkleRoot<H>(f: (H, H) -> H, s: seq<H>): H
    requires s != []
    decreases |s|
  {
    if |s| == 1 then s[0] else MerkleRoot(f, NextLevel(f, s))
  }

  // The pairs hashed for the root.
  ghost function RootPairs<H>(f: (H, H) -> H, s: seq<H>): set<Pair<H>>
    requires s != []
    decreases |s|
  {
    if |s| == 1 then {} else (set i | 0 <= i < (|s| + 1) / 2 :: PairOf(s, i)) + RootPairs(f, NextLevel(f, s))
  }

  // The number of levels above n leaves.
  function Height(n: nat): nat { if n <= 1 then 0 else 1 + Height((n + 1) / 2) }

  // What a leaf is hashed with.
  function Sibling<H>(s: seq<H>, i: nat): H
    requires i < |s|
  {
    if i % 2 == 1 then s[i - 1] else if i + 1 < |s| then s[i + 1] else s[i]
  }

  // The siblings on the way from leaf i to the root.
  function Branch<H>(f: (H, H) -> H, s: seq<H>, i: nat): (r: seq<H>)
    requires i < |s|
    ensures |r| == Height(|s|)
    decreases |s|
  {
    if |s| == 1 then [] else [Sibling(s, i)] + Branch(f, NextLevel(f, s), i / 2)
  }
}
