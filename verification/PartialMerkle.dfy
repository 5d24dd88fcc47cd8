/** Partial Merkle trees: building, packing and extracting. */
module PartialMerkle {
  import opened Arithmetic
  import opened Collisions
  import opened Common
  import opened MerkleLevels
  import opened Powers

  type Hasher = (Hash256, Hash256) -> Hash256

  // --- The shape of the tree ---

  function CalcTreeWidth(n: nat, h: nat): nat {
    (n + Pow2(h) - 1) / Pow2(h)
  }

  // The least number of nodes of 2^h leaves that cover n leaves.
  lemma WidthCovers(n: nat, h: nat, w: nat)
    requires n >= 1
    ensures w == CalcTreeWidth(n, h) <==> n <= w * Pow2(h) && (w - 1) * Pow2(h) < n
  {
    Ceiling(n, Pow2(h), w);
  }

  lemma Ceiling(n: nat, d: nat, w: nat)
    requires n >= 1 && d >= 1
    ensures w == (n + d - 1) / d <==> n <= w * d && (w - 1) * d < n
  {
    var q := (n + d - 1) / d;
    var r := (n + d - 1) % d;
    assert q * d + r == n + d - 1;
    assert (q - 1) * d == q * d - d;
    if n <= w * d && (w - 1) * d < n && w != q {
      Between(w, q, d, n);
    }
  }

  lemma Between(w: int, q: int, d: nat, n: int)
    requires d >= 1 && n <= w * d && (w - 1) * d < n && n <= q * d && (q - 1) * d < n
    ensures w == q
  {
    if w < q {
      MulMono(w, q - 1, d);
    } else if q < w {
      MulMono(q, w - 1, d);
    }
  }

  lemma WidthZero(n: nat)
    ensures CalcTreeWidth(n, 0) == n
  {
  }

  // Going up one level halves the width, rounding up.
  lemma WidthNext(n: nat, h: nat)
    requires n >= 1
    ensures CalcTreeWidth(n, h + 1) == (CalcTreeWidth(n, h) + 1) / 2 >= 1
  {
    var w := CalcTreeWidth(n, h);
    WidthCovers(n, h, w);
    Half(n, Pow2(h), w);
    WidthCovers(n, h + 1, (w + 1) / 2);
  }

  lemma Half(n: nat, d: nat, w: nat)
    requires n >= 1 && d >= 1 && n <= w * d && (w - 1) * d < n
    ensures w >= 1 && n <= (w + 1) / 2 * (2 * d) && ((w + 1) / 2 - 1) * (2 * d) < n
  {
    var v := (w + 1) / 2;
    if w % 2 == 0 {
      Rescaled(v, d, w);
      Rescaled(v - 1, d, w - 2);
    } else {
      Rescaled(v, d, w + 1);
      Rescaled(v - 1, d, w - 1);
    }
  }

  lemma Rescaled(v: int, d: int, w: int)
    requires w == 2 * v
    ensures v * (2 * d) == w * d && (w - 1) * d == w * d - d && (w + 1) * d == w * d + d
  {
  }

  lemma WidthPositive(n: nat, h: nat)
    requires n >= 1
    ensures CalcTreeWidth(n, h) >= 1
  {
    WidthCovers(n, h, CalcTreeWidth(n, h));
  }

  ghost predicate IsHeight(n: nat, h: nat) {
    CalcTreeWidth(n, h) <= 1 && forall k :: 0 <= k < h ==> CalcTreeWidth(n, k) > 1
  }

  method TreeHeight(n: nat) returns (nHeight: nat)
    requires n >= 1
    ensures IsHeight(n, nHeight) && CalcTreeWidth(n, nHeight) == 1
  {
    nHeight := 0;
    WidthPositive(n, 0);
    while CalcTreeWidth(n, nHeight) > 1
      invariant forall k :: 0 <= k < nHeight ==> CalcTreeWidth(n, k) > 1
      invariant CalcTreeWidth(n, nHeight) >= 1
      decreases CalcTreeWidth(n, nHeight)
    {
      WidthNext(n, nHeight);
      nHeight := nHeight + 1;
    }
  }

  // The children of a node: the left one always exists, the right one unless it is past the end.
  lemma Children(n: nat, h: nat, pos: nat)
    requires n >= 1 && h >= 1 && pos < CalcTreeWidth(n, h)
    ensures 2 * pos < CalcTreeWidth(n, h - 1)
    ensures 2 * pos + 1 >= CalcTreeWidth(n, h - 1) ==> pos == CalcTreeWidth(n, h) - 1 && 2 * pos + 1 == CalcTreeWidth(n, h - 1)
  {
    hide CalcTreeWidth;
    WidthNext(n, h - 1);
  }

  // --- The tree of hashes ---

  function CalcHash(f: Hasher, txids: seq<Hash256>, h: nat, pos: nat): Hash256
    requires txids != [] && pos < CalcTreeWidth(|txids|, h)
  {
    if h == 0 then txids[pos]
    else
      Children(|txids|, h, pos);
      var left := CalcHash(f, txids, h - 1, 2 * pos);
      var right := if 2 * pos + 1 < CalcTreeWidth(|txids|, h - 1) then CalcHash(f, txids, h - 1, 2 * pos + 1) else left;
      f(left, right)
  }

  // The pairs hashed under a node.
  ghost function Hashed(f: Hasher, txids: seq<Hash256>, h: nat, pos: nat): set<Pair<Hash256>>
    requires txids != [] && pos < CalcTreeWidth(|txids|, h)
  {
    if h == 0 then {}
    else
      Children(|txids|, h, pos);
      {PairAt(f, txids, h, pos)} + Hashed(f, txids, h - 1, 2 * pos)
      + if 2 * pos + 1 < CalcTreeWidth(|txids|, h - 1) then Hashed(f, txids, h - 1, 2 * pos + 1) else {}
  }

  function PairAt(f: Hasher, txids: seq<Hash256>, h: nat, pos: nat): Pair<Hash256>
    requires txids != [] && h >= 1 && pos < CalcTreeWidth(|txids|, h)
  {
    Children(|txids|, h, pos);
    var left := CalcHash(f, txids, h - 1, 2 * pos);
    Pair(left, if 2 * pos + 1 < CalcTreeWidth(|txids|, h - 1) then CalcHash(f, txids, h - 1, 2 * pos + 1) else left)
  }

  function Level(f: Hasher, txids: seq<Hash256>, h: nat): seq<Hash256> {
    if h == 0 then txids else NextLevel(f, Level(f, txids, h - 1))
  }

  lemma {:induction false} LevelIsCalcHash(f: Hasher, txids: seq<Hash256>, h: nat)
    requires txids != []
    ensures |Level(f, txids, h)| == CalcTreeWidth(|txids|, h)
    ensures forall pos :: 0 <= pos < CalcTreeWidth(|txids|, h) ==> CalcHash(f, txids, h, pos) == Level(f, txids, h)[pos]
  {
    hide CalcTreeWidth;
    if h == 0 {
      WidthZero(|txids|);
    } else {
      LevelIsCalcHash(f, txids, h - 1);
      WidthNext(|txids|, h - 1);
      var below := Level(f, txids, h - 1);
      forall pos | 0 <= pos < CalcTreeWidth(|txids|, h) ensures CalcHash(f, txids, h, pos) == Level(f, txids, h)[pos] {
        Children(|txids|, h, pos);
        assert Level(f, txids, h)[pos] == f(PairOf(below, pos).left, PairOf(below, pos).right);
      }
    }
  }

  lemma {:induction false} RootByLevels(f: Hasher, txids: seq<Hash256>, h: nat, k: nat)
    requires txids != [] && IsHeight(|txids|, h) && k <= h && Level(f, txids, k) != []
    ensures |Level(f, txids, h)| == 1 && MerkleRoot(f, Level(f, txids, k)) == Level(f, txids, h)[0]
    decreases h - k
  {
    hide CalcTreeWidth, CalcHash, NextLevel;
    LevelIsCalcHash(f, txids, k);
    WidthPositive(|txids|, k);
    if k < h {
      LevelIsCalcHash(f, txids, k + 1);
      WidthNext(|txids|, k);
      RootByLevels(f, txids, h, k + 1);
    }
  }

  /** The recursive hash of the top node is the Merkle root. */
  lemma CalcHashIsRoot(f: Hasher, txids: seq<Hash256>, h: nat)
    requires txids != [] && IsHeight(|txids|, h)
    ensures CalcTreeWidth(|txids|, h) == 1 && CalcHash(f, txids, h, 0) == MerkleRoot(f, txids)
  {
    RootByLevels(f, txids, h, 0);
    LevelIsCalcHash(f, txids, h);
  }

  // Different nodes of a level have different hashes.
  lemma {:induction false} NodesDiffer(f: Hasher, txids: seq<Hash256>, s: set<Pair<Hash256>>, h: nat, p: nat, q: nat)
    requires txids != [] && Distinct(txids) && !Collision(f, s)
    requires p < q < CalcTreeWidth(|txids|, h) && Hashed(f, txids, h, p) <= s && Hashed(f, txids, h, q) <= s
    ensures CalcHash(f, txids, h, p) != CalcHash(f, txids, h, q)
  {
    hide CalcTreeWidth, Collision;
    if h == 0 {
      WidthZero(|txids|);
    } else {
      Children(|txids|, h, p);
      Children(|txids|, h, q);
      NodesDiffer(f, txids, s, h - 1, 2 * p, 2 * q);
      if CalcHash(f, txids, h, p) == CalcHash(f, txids, h, q) {
        SamePair(f, s, PairAt(f, txids, h, p), PairAt(f, txids, h, q));
      }
    }
  }

  // --- Matches ---

  predicate AnyIn(match': seq<bool>, lo: nat, hi: nat) {
    exists p :: lo <= p < hi && p < |match'| && match'[p]
  }

  datatype Found = Found(hash: Hash256, pos: nat)

  // The matched transactions of a range, in order.
  function Matches(txids: seq<Hash256>, match': seq<bool>, lo: nat, hi: nat): seq<Found>
    requires |txids| == |match'|
    decreases hi - lo
  {
    if lo >= hi || lo >= |txids| then []
    else (if match'[lo] then [Found(txids[lo], lo)] else []) + Matches(txids, match', lo + 1, hi)
  }

  lemma {:induction false} MatchesSplit(txids: seq<Hash256>, match': seq<bool>, lo: nat, mid: nat, hi: nat)
    requires |txids| == |match'| && lo <= mid <= hi
    ensures Matches(txids, match', lo, hi) == Matches(txids, match', lo, mid) + Matches(txids, match', mid, hi)
    ensures AnyIn(match', lo, hi) <==> AnyIn(match', lo, mid) || AnyIn(match', mid, hi)
    decreases mid - lo
  {
    hide AnyIn, Matches;
    if lo < mid {
      MatchesSplit(txids, match', lo + 1, mid, hi);
      AnyFirst(match', lo, mid);
      AnyFirst(match', lo, hi);
      MatchesFirst(txids, match', lo, mid);
      MatchesFirst(txids, match', lo, hi);
      MatchesFirst(txids, match', mid, hi);
    } else {
      MatchesFirst(txids, match', lo, mid);
      AnyNone(match', lo);
    }
  }

  lemma MatchesFirst(txids: seq<Hash256>, match': seq<bool>, lo: nat, hi: nat)
    requires |txids| == |match'|
    ensures lo >= hi || lo >= |txids| ==> Matches(txids, match', lo, hi) == []
    ensures lo < hi && lo < |txids| ==>
              Matches(txids, match', lo, hi) == (if match'[lo] then [Found(txids[lo], lo)] else []) + Matches(txids, match', lo + 1, hi)
  {
  }

  lemma AnyNone(match': seq<bool>, lo: nat)
    ensures !AnyIn(match', lo, lo)
  {
  }

  lemma AnyFirst(match': seq<bool>, lo: nat, hi: nat)
    requires lo < hi
    ensures AnyIn(match', lo, hi) <==> (lo < |match'| && match'[lo]) || AnyIn(match', lo + 1, hi)
  {
  }

  lemma {:induction false} MatchesAny(txids: seq<Hash256>, match': seq<bool>, lo: nat, hi: nat)
    requires |txids| == |match'|
    ensures AnyIn(match', lo, hi) <==> Matches(txids, match', lo, hi) != []
    decreases hi - lo
  {
    if lo < hi && lo < |txids| {
      AnyFirst(match', lo, hi);
      MatchesAny(txids, match', lo + 1, hi);
    }
  }

  // The leaves under a node.
  function Lo(h: nat, pos: nat): nat { pos * Pow2(h) }

  lemma LoSplit(n: nat, h: nat, pos: nat)
    requires n >= 1 && h >= 1 && pos < CalcTreeWidth(n, h)
    ensures Lo(h, pos) == Lo(h - 1, 2 * pos) <= Lo(h - 1, 2 * pos + 1) <= Lo(h - 1, 2 * pos + 2) == Lo(h, pos + 1)
    ensures 2 * pos + 1 >= CalcTreeWidth(n, h - 1) ==> n <= Lo(h - 1, 2 * pos + 1)
  {
    var d := Pow2(h - 1);
    Rescaled(pos, d, 2 * pos);
    Rescaled(pos + 1, d, 2 * pos + 2);
    Children(n, h, pos);
    WidthCovers(n, h - 1, CalcTreeWidth(n, h - 1));
  }

  // --- Building ---

  datatype Tree = Tree(bits: seq<bool>, hashes: seq<Hash256>)

  function Build(f: Hasher, txids: seq<Hash256>, match': seq<bool>, h: nat, pos: nat): Tree
    requires txids != [] && |txids| == |match'| && pos < CalcTreeWidth(|txids|, h)
  {
    var parentOfMatch := AnyIn(match', Lo(h, pos), Lo(h, pos + 1));
    if h == 0 || !parentOfMatch then Tree([parentOfMatch], [CalcHash(f, txids, h, pos)])
    else
      Children(|txids|, h, pos);
      var left := Build(f, txids, match', h - 1, 2 * pos);
      var right := if 2 * pos + 1 < CalcTreeWidth(|txids|, h - 1) then Build(f, txids, match', h - 1, 2 * pos + 1) else Tree([], []);
      Tree([parentOfMatch] + left.bits + right.bits, left.hashes + right.hashes)
  }

  // --- Extracting ---

  datatype Extraction = Extraction(hash: Hash256, nBitsUsed: nat, nHashUsed: nat, found: seq<Found>, bad: bool)

  function Extract(f: Hasher, n: nat, vBits: seq<bool>, vHash: seq<Hash256>, h: nat, pos: nat, nBitsUsed: nat, nHashUsed: nat): Extraction
    requires n >= 1 && pos < CalcTreeWidth(n, h)
  {
    if nBitsUsed >= |vBits| then Extraction(NULL_HASH, nBitsUsed, nHashUsed, [], true)
    else
      var parentOfMatch := vBits[nBitsUsed];
      if h == 0 || !parentOfMatch then
        if nHashUsed >= |vHash| then Extraction(NULL_HASH, nBitsUsed + 1, nHashUsed, [], true)
        else Extraction(vHash[nHashUsed], nBitsUsed + 1, nHashUsed + 1,
                        if parentOfMatch then [Found(vHash[nHashUsed], pos)] else [], false)
      else
        Children(n, h, pos);
        var l := Extract(f, n, vBits, vHash, h - 1, 2 * pos, nBitsUsed + 1, nHashUsed);
        if 2 * pos + 1 < CalcTreeWidth(n, h - 1) then
          var r := Extract(f, n, vBits, vHash, h - 1, 2 * pos + 1, l.nBitsUsed, l.nHashUsed);
          Extraction(f(l.hash, r.hash), r.nBitsUsed, r.nHashUsed, l.found + r.found, l.bad || r.bad || r.hash == l.hash)
        else Extraction(f(l.hash, l.hash), l.nBitsUsed, l.nHashUsed, l.found, l.bad)
  }

  // The pairs hashed during an extraction.
  ghost function ExtractHashed(f: Hasher, n: nat, vBits: seq<bool>, vHash: seq<Hash256>, h: nat, pos: nat, nb: nat, nh: nat): set<Pair<Hash256>>
    requires n >= 1 && pos < CalcTreeWidth(n, h)
  {
    if nb >= |vBits| || h == 0 || !vBits[nb] then {}
    else
      Children(n, h, pos);
      var l := Extract(f, n, vBits, vHash, h - 1, 2 * pos, nb + 1, nh);
      ExtractHashed(f, n, vBits, vHash, h - 1, 2 * pos, nb + 1, nh)
      + if 2 * pos + 1 < CalcTreeWidth(n, h - 1) then
          var r := Extract(f, n, vBits, vHash, h - 1, 2 * pos + 1, l.nBitsUsed, l.nHashUsed);
          {Pair(l.hash, r.hash)} + ExtractHashed(f, n, vBits, vHash, h - 1, 2 * pos + 1, l.nBitsUsed, l.nHashUsed)
        else {Pair(l.hash, l.hash)}
  }

  ghost predicate Right(txids: seq<Hash256>, found: seq<Found>) {
    forall k :: 0 <= k < |found| ==> found[k].pos < |txids| && found[k].hash == txids[found[k].pos]
  }

  lemma LeafHash(f: Hasher, txids: seq<Hash256>, pos: nat)
    requires txids != [] && pos < CalcTreeWidth(|txids|, 0)
    ensures pos < |txids| && CalcHash(f, txids, 0, pos) == txids[pos]
  {
    WidthZero(|txids|);
  }

  lemma HashedUnder(f: Hasher, txids: seq<Hash256>, h: nat, pos: nat)
    requires txids != [] && h >= 1 && pos < CalcTreeWidth(|txids|, h)
    ensures 2 * pos < CalcTreeWidth(|txids|, h - 1)
    ensures var p := PairAt(f, txids, h, pos);
            && p in Hashed(f, txids, h, pos) && CalcHash(f, txids, h, pos) == f(p.left, p.right)
            && p.left == CalcHash(f, txids, h - 1, 2 * pos) && Hashed(f, txids, h - 1, 2 * pos) <= Hashed(f, txids, h, pos)
            && (2 * pos + 1 < CalcTreeWidth(|txids|, h - 1) ==>
                  p.right == CalcHash(f, txids, h - 1, 2 * pos + 1) && Hashed(f, txids, h - 1, 2 * pos + 1) <= Hashed(f, txids, h, pos))
  {
    Children(|txids|, h, pos);
  }

  lemma ExtractHashedUnder(f: Hasher, n: nat, vBits: seq<bool>, vHash: seq<Hash256>, h: nat, pos: nat, nb: nat, nh: nat)
    requires n >= 1 && pos < CalcTreeWidth(n, h) && nb < |vBits| && h >= 1 && vBits[nb]
    ensures 2 * pos < CalcTreeWidth(n, h - 1)
    ensures var l := Extract(f, n, vBits, vHash, h - 1, 2 * pos, nb + 1, nh);
            var s := ExtractHashed(f, n, vBits, vHash, h, pos, nb, nh);
            && ExtractHashed(f, n, vBits, vHash, h - 1, 2 * pos, nb + 1, nh) <= s
            && if 2 * pos + 1 < CalcTreeWidth(n, h - 1) then
                 var r := Extract(f, n, vBits, vHash, h - 1, 2 * pos + 1, l.nBitsUsed, l.nHashUsed);
                 Pair(l.hash, r.hash) in s && ExtractHashed(f, n, vBits, vHash, h - 1, 2 * pos + 1, l.nBitsUsed, l.nHashUsed) <= s
               else Pair(l.hash, l.hash) in s
  {
    Children(n, h, pos);
  }

  /** Whatever the bits and hashes: if the hash of a node is right, so is every transaction found under it. */
  lemma {:induction false} ExtractSound(f: Hasher, txids: seq<Hash256>, s: set<Pair<Hash256>>, vBits: seq<bool>, vHash: seq<Hash256>,
                                        h: nat, pos: nat, nb: nat, nh: nat)
    requires txids != [] && pos < CalcTreeWidth(|txids|, h) && !Collision(f, s)
    requires Hashed(f, txids, h, pos) <= s && ExtractHashed(f, |txids|, vBits, vHash, h, pos, nb, nh) <= s
    requires var e := Extract(f, |txids|, vBits, vHash, h, pos, nb, nh);
             !e.bad && e.hash == CalcHash(f, txids, h, pos)
    ensures Right(txids, Extract(f, |txids|, vBits, vHash, h, pos, nb, nh).found)
  {
    hide CalcTreeWidth, Collision, Hashed, CalcHash, ExtractHashed, PairAt;
    if h == 0 {
      WidthZero(|txids|);
      LeafHash(f, txids, pos);
    } else if vBits[nb] {
      HashedUnder(f, txids, h, pos);
      ExtractHashedUnder(f, |txids|, vBits, vHash, h, pos, nb, nh);
      var l := Extract(f, |txids|, vBits, vHash, h - 1, 2 * pos, nb + 1, nh);
      if 2 * pos + 1 < CalcTreeWidth(|txids|, h - 1) {
        var r := Extract(f, |txids|, vBits, vHash, h - 1, 2 * pos + 1, l.nBitsUsed, l.nHashUsed);
        SamePair(f, s, Pair(l.hash, r.hash), PairAt(f, txids, h, pos));
        ExtractSound(f, txids, s, vBits, vHash, h - 1, 2 * pos + 1, l.nBitsUsed, l.nHashUsed);
      } else {
        SamePair(f, s, Pair(l.hash, l.hash), PairAt(f, txids, h, pos));
      }
      ExtractSound(f, txids, s, vBits, vHash, h - 1, 2 * pos, nb + 1, nh);
    }
  }

  ghost predicate At<T>(s: seq<T>, k: nat, part: seq<T>) {
    k + |part| <= |s| && s[k..k + |part|] == part
  }

  lemma AtSplit<T>(s: seq<T>, k: nat, a: seq<T>, b: seq<T>)
    requires At(s, k, a + b)
    ensures At(s, k, a) && At(s, k + |a|, b)
  {
    var p := s[k..k + |a + b|];
    assert s[k..k + |a|] == p[..|a|] == a;
    assert s[k + |a|..k + |a| + |b|] == p[|a|..] == b;
  }

  ghost predicate Node(txids: seq<Hash256>, match': seq<bool>, h: nat, pos: nat) {
    txids != [] && |txids| == |match'| && pos < CalcTreeWidth(|txids|, h)
  }

  // Extraction from position (nb, nh) gives back the node that was built.
  ghost predicate Recovers(f: Hasher, txids: seq<Hash256>, match': seq<bool>, vBits: seq<bool>, vHash: seq<Hash256>,
                           h: nat, pos: nat, nb: nat, nh: nat)
    requires Node(txids, match', h, pos)
  {
    var t := Build(f, txids, match', h, pos);
    Extract(f, |txids|, vBits, vHash, h, pos, nb, nh)
    == Extraction(CalcHash(f, txids, h, pos), nb + |t.bits|, nh + |t.hashes|, Matches(txids, match', Lo(h, pos), Lo(h, pos + 1)), false)
  }

  lemma BuiltLeaf(f: Hasher, txids: seq<Hash256>, match': seq<bool>, vBits: seq<bool>, vHash: seq<Hash256>,
                  h: nat, pos: nat, nb: nat, nh: nat)
    requires Node(txids, match', h, pos) && (h == 0 || !AnyIn(match', Lo(h, pos), Lo(h, pos + 1)))
    requires var t := Build(f, txids, match', h, pos); At(vBits, nb, t.bits) && At(vHash, nh, t.hashes)
    ensures Recovers(f, txids, match', vBits, vHash, h, pos, nb, nh)
  {
    hide CalcTreeWidth, Lo, AnyIn, Matches;
    assert vBits[nb] == vBits[nb..nb + 1][0];
    assert vHash[nh] == vHash[nh..nh + 1][0];
    LeafMatches(txids, match', h, pos);
  }

  lemma BuiltTwo(f: Hasher, txids: seq<Hash256>, match': seq<bool>, vBits: seq<bool>, vHash: seq<Hash256>,
                 h: nat, pos: nat, nb: nat, nh: nat)
    requires h >= 1 && Node(txids, match', h, pos) && AnyIn(match', Lo(h, pos), Lo(h, pos + 1))
    requires Node(txids, match', h - 1, 2 * pos) && Node(txids, match', h - 1, 2 * pos + 1)
    requires nb < |vBits| && vBits[nb]
    requires Recovers(f, txids, match', vBits, vHash, h - 1, 2 * pos, nb + 1, nh)
    requires var l := Build(f, txids, match', h - 1, 2 * pos);
             Recovers(f, txids, match', vBits, vHash, h - 1, 2 * pos + 1, nb + 1 + |l.bits|, nh + |l.hashes|)
    requires CalcHash(f, txids, h - 1, 2 * pos) != CalcHash(f, txids, h - 1, 2 * pos + 1)
    ensures Recovers(f, txids, match', vBits, vHash, h, pos, nb, nh)
  {
    hide CalcTreeWidth, Lo, AnyIn, Matches;
    LoSplit(|txids|, h, pos);
    MatchesSplit(txids, match', Lo(h, pos), Lo(h - 1, 2 * pos + 1), Lo(h, pos + 1));
  }

  lemma BuiltOne(f: Hasher, txids: seq<Hash256>, match': seq<bool>, vBits: seq<bool>, vHash: seq<Hash256>,
                 h: nat, pos: nat, nb: nat, nh: nat)
    requires h >= 1 && Node(txids, match', h, pos) && AnyIn(match', Lo(h, pos), Lo(h, pos + 1))
    requires Node(txids, match', h - 1, 2 * pos) && 2 * pos + 1 >= CalcTreeWidth(|txids|, h - 1)
    requires nb < |vBits| && vBits[nb]
    requires Recovers(f, txids, match', vBits, vHash, h - 1, 2 * pos, nb + 1, nh)
    ensures Recovers(f, txids, match', vBits, vHash, h, pos, nb, nh)
  {
    hide CalcTreeWidth, Lo, AnyIn, Matches;
    LoSplit(|txids|, h, pos);
    MatchesSplit(txids, match', Lo(h, pos), Lo(h - 1, 2 * pos + 1), Lo(h, pos + 1));
    NoMatches(txids, match', Lo(h - 1, 2 * pos + 1), Lo(h, pos + 1));
  }

  lemma BuiltParts(f: Hasher, txids: seq<Hash256>, match': seq<bool>, vBits: seq<bool>, vHash: seq<Hash256>,
                   h: nat, pos: nat, nb: nat, nh: nat)
    requires h >= 1 && Node(txids, match', h, pos) && AnyIn(match', Lo(h, pos), Lo(h, pos + 1))
    requires var t := Build(f, txids, match', h, pos); At(vBits, nb, t.bits) && At(vHash, nh, t.hashes)
    ensures Node(txids, match', h - 1, 2 * pos) && nb < |vBits| && vBits[nb]
    ensures var l := Build(f, txids, match', h - 1, 2 * pos);
            && At(vBits, nb + 1, l.bits) && At(vHash, nh, l.hashes)
            && (Node(txids, match', h - 1, 2 * pos + 1) ==>
                  var r := Build(f, txids, match', h - 1, 2 * pos + 1);
                  At(vBits, nb + 1 + |l.bits|, r.bits) && At(vHash, nh + |l.hashes|, r.hashes))
  {
    hide CalcTreeWidth, CalcHash, Lo, AnyIn, At;
    Children(|txids|, h, pos);
    var l := Build(f, txids, match', h - 1, 2 * pos);
    var r := if 2 * pos + 1 < CalcTreeWidth(|txids|, h - 1) then Build(f, txids, match', h - 1, 2 * pos + 1) else Tree([], []);
    BuildSplits(f, txids, match', h, pos);
    AtSplit(vBits, nb, [true], l.bits + r.bits);
    AtFirst(vBits, nb, true);
    AtSplit(vBits, nb + 1, l.bits, r.bits);
    AtSplit(vHash, nh, l.hashes, r.hashes);
  }

  lemma AtFirst<T>(s: seq<T>, k: nat, x: T)
    requires At(s, k, [x])
    ensures k < |s| && s[k] == x
  {
    assert s[k] == s[k..k + 1][0];
  }

  lemma BuildSplits(f: Hasher, txids: seq<Hash256>, match': seq<bool>, h: nat, pos: nat)
    requires h >= 1 && Node(txids, match', h, pos) && AnyIn(match', Lo(h, pos), Lo(h, pos + 1))
    ensures 2 * pos < CalcTreeWidth(|txids|, h - 1)
    ensures var l := Build(f, txids, match', h - 1, 2 * pos);
            var r := if 2 * pos + 1 < CalcTreeWidth(|txids|, h - 1) then Build(f, txids, match', h - 1, 2 * pos + 1) else Tree([], []);
            Build(f, txids, match', h, pos) == Tree([true] + (l.bits + r.bits), l.hashes + r.hashes)
  {
    Children(|txids|, h, pos);
  }

  /** Extracting what was built gives the hash and the matches of the node and uses exactly what was built. */
  lemma {:induction false} ExtractBuilt(f: Hasher, txids: seq<Hash256>, s: set<Pair<Hash256>>, match': seq<bool>, vBits: seq<bool>,
                                        vHash: seq<Hash256>, h: nat, pos: nat, nb: nat, nh: nat)
    requires Node(txids, match', h, pos) && Distinct(txids) && !Collision(f, s) && Hashed(f, txids, h, pos) <= s
    requires var t := Build(f, txids, match', h, pos); At(vBits, nb, t.bits) && At(vHash, nh, t.hashes)
    ensures Recovers(f, txids, match', vBits, vHash, h, pos, nb, nh)
  {
    hide CalcTreeWidth, Build, CalcHash, Collision, Distinct, Lo, AnyIn, Recovers, At;
    if h == 0 || !AnyIn(match', Lo(h, pos), Lo(h, pos + 1)) {
      BuiltLeaf(f, txids, match', vBits, vHash, h, pos, nb, nh);
    } else {
      BuiltParts(f, txids, match', vBits, vHash, h, pos, nb, nh);
      ExtractBuilt(f, txids, s, match', vBits, vHash, h - 1, 2 * pos, nb + 1, nh);
      if 2 * pos + 1 < CalcTreeWidth(|txids|, h - 1) {
        var l := Build(f, txids, match', h - 1, 2 * pos);
        ExtractBuilt(f, txids, s, match', vBits, vHash, h - 1, 2 * pos + 1, nb + 1 + |l.bits|, nh + |l.hashes|);
        NodesDiffer(f, txids, s, h - 1, 2 * pos, 2 * pos + 1);
        BuiltTwo(f, txids, match', vBits, vHash, h, pos, nb, nh);
      } else {
        BuiltOne(f, txids, match', vBits, vHash, h, pos, nb, nh);
      }
    }
  }

  lemma NoMatches(txids: seq<Hash256>, match': seq<bool>, lo: nat, hi: nat)
    requires |txids| == |match'| <= lo
    ensures Matches(txids, match', lo, hi) == [] && !AnyIn(match', lo, hi)
  {
  }

  lemma LeafMatches(txids: seq<Hash256>, match': seq<bool>, h: nat, pos: nat)
    requires txids != [] && |txids| == |match'| && pos < CalcTreeWidth(|txids|, h)
    requires h == 0 || !AnyIn(match', Lo(h, pos), Lo(h, pos + 1))
    ensures AnyIn(match', Lo(h, pos), Lo(h, pos + 1)) ==> h == 0 && pos < |txids|
    ensures Matches(txids, match', Lo(h, pos), Lo(h, pos + 1)) == if AnyIn(match', Lo(h, pos), Lo(h, pos + 1)) then [Found(txids[pos], pos)] else []
  {
    MatchesAny(txids, match', Lo(h, pos), Lo(h, pos + 1));
    if h == 0 {
      WidthZero(|txids|);
      assert Lo(0, pos) == pos && Lo(0, pos + 1) == pos + 1;
      assert Matches(txids, match', pos + 1, pos + 1) == [];
      AnyFirst(match', pos, pos + 1);
    }
  }

  // --- How large a partial tree gets ---

  // Nodes descended into that have a single child.
  ghost function OneChild(match': seq<bool>, h: nat, pos: nat): nat
    requires match' != [] && pos < CalcTreeWidth(|match'|, h)
  {
    if h == 0 || !AnyIn(match', Lo(h, pos), Lo(h, pos + 1)) then 0
    else
      Children(|match'|, h, pos);
      OneChild(match', h - 1, 2 * pos)
      + if 2 * pos + 1 < CalcTreeWidth(|match'|, h - 1) then OneChild(match', h - 1, 2 * pos + 1) else 1
  }

  /** The number of flag bits. */
  lemma {:induction false} BitsCount(f: Hasher, txids: seq<Hash256>, match': seq<bool>, h: nat, pos: nat)
    requires Node(txids, match', h, pos)
    ensures var t := Build(f, txids, match', h, pos); |t.bits| == 2 * |t.hashes| - 1 + OneChild(match', h, pos) && |t.hashes| >= 1
  {
    hide CalcTreeWidth, CalcHash, Lo, AnyIn;
    if h > 0 && AnyIn(match', Lo(h, pos), Lo(h, pos + 1)) {
      Children(|txids|, h, pos);
      BitsCount(f, txids, match', h - 1, 2 * pos);
      if 2 * pos + 1 < CalcTreeWidth(|txids|, h - 1) {
        BitsCount(f, txids, match', h - 1, 2 * pos + 1);
      }
    }
  }

  lemma Starts(n: nat, h: nat, pos: nat)
    requires n >= 1 && pos < CalcTreeWidth(n, h)
    ensures Lo(h, pos) < n && Lo(h, pos) < Lo(h, pos + 1)
  {
    WidthCovers(n, h, CalcTreeWidth(n, h));
    MulMono(pos, CalcTreeWidth(n, h) - 1, Pow2(h));
    assert (pos + 1) * Pow2(h) == pos * Pow2(h) + Pow2(h);
  }

  /** At most one hash for every transaction under the node. */
  lemma {:induction false} HashesPerLeaf(f: Hasher, txids: seq<Hash256>, match': seq<bool>, h: nat, pos: nat)
    requires Node(txids, match', h, pos)
    ensures |Build(f, txids, match', h, pos).hashes| <= Min(|txids|, Lo(h, pos + 1)) - Lo(h, pos)
  {
    hide CalcTreeWidth, CalcHash, Lo, AnyIn;
    Starts(|txids|, h, pos);
    if h > 0 && AnyIn(match', Lo(h, pos), Lo(h, pos + 1)) {
      Children(|txids|, h, pos);
      LoSplit(|txids|, h, pos);
      HashesPerLeaf(f, txids, match', h - 1, 2 * pos);
      if 2 * pos + 1 < CalcTreeWidth(|txids|, h - 1) {
        HashesPerLeaf(f, txids, match', h - 1, 2 * pos + 1);
        Starts(|txids|, h - 1, 2 * pos + 1);
      }
    }
  }

  lemma Budget(ml: nat, mr: nat, h: nat, l: nat, r: nat)
    requires h >= 1 && ml + mr >= 1 && l <= 1 + ml * (h - 1) && r <= 1 + mr * (h - 1)
    ensures l + r <= 1 + (ml + mr) * h
  {
    assert (ml + mr) * h == ml * (h - 1) + mr * (h - 1) + (ml + mr);
  }

  /** At most one hash more than the height for every match. */
  lemma {:induction false} HashesPerMatch(f: Hasher, txids: seq<Hash256>, match': seq<bool>, h: nat, pos: nat)
    requires Node(txids, match', h, pos)
    ensures |Build(f, txids, match', h, pos).hashes| <= 1 + |Matches(txids, match', Lo(h, pos), Lo(h, pos + 1))| * h
  {
    hide CalcTreeWidth, CalcHash, Lo, AnyIn, Matches;
    if h > 0 && AnyIn(match', Lo(h, pos), Lo(h, pos + 1)) {
      Children(|txids|, h, pos);
      LoSplit(|txids|, h, pos);
      var mid := Lo(h - 1, 2 * pos + 1);
      MatchesSplit(txids, match', Lo(h, pos), mid, Lo(h, pos + 1));
      MatchesAny(txids, match', Lo(h, pos), Lo(h, pos + 1));
      var ml, mr := |Matches(txids, match', Lo(h, pos), mid)|, |Matches(txids, match', mid, Lo(h, pos + 1))|;
      var l := |Build(f, txids, match', h - 1, 2 * pos).hashes|;
      HashesPerMatch(f, txids, match', h - 1, 2 * pos);
      if 2 * pos + 1 < CalcTreeWidth(|txids|, h - 1) {
        HashesPerMatch(f, txids, match', h - 1, 2 * pos + 1);
        Budget(ml, mr, h, l, |Build(f, txids, match', h - 1, 2 * pos + 1).hashes|);
      } else {
        Budget(ml, mr, h, l, 0);
      }
    }
  }

  // Some level up to h has its last node alone under its parent, and a match under that parent.
  ghost predicate Ragged(match': seq<bool>, h: nat)
    requires match' != []
  {
    exists k :: 1 <= k <= h && LoneAbove(match', k)
  }

  ghost predicate LoneAbove(match': seq<bool>, k: nat)
    requires match' != [] && k >= 1
  {
    WidthPositive(|match'|, k);
    CalcTreeWidth(|match'|, k - 1) % 2 == 1 && AnyIn(match', Lo(k, CalcTreeWidth(|match'|, k) - 1), |match'|)
  }

  // Away from the right edge every node has two children.
  lemma {:induction false} InnerHasTwo(match': seq<bool>, h: nat, pos: nat)
    requires match' != [] && pos + 1 < CalcTreeWidth(|match'|, h)
    ensures OneChild(match', h, pos) == 0
  {
    hide CalcTreeWidth, Lo, AnyIn;
    if h > 0 {
      WidthNext(|match'|, h - 1);
      InnerHasTwo(match', h - 1, 2 * pos);
      InnerHasTwo(match', h - 1, 2 * pos + 1);
    }
  }

  lemma EdgeNested(n: nat, h: nat)
    requires n >= 1 && h >= 1
    ensures CalcTreeWidth(n, h) >= 1 && CalcTreeWidth(n, h - 1) >= 1
    ensures Lo(h, CalcTreeWidth(n, h) - 1) <= Lo(h - 1, CalcTreeWidth(n, h - 1) - 1)
    ensures n <= Lo(h, CalcTreeWidth(n, h))
  {
    var w := CalcTreeWidth(n, h);
    WidthNext(n, h - 1);
    WidthPositive(n, h - 1);
    WidthCovers(n, h, w);
    LoSplit(n, h, w - 1);
    Children(n, h, w - 1);
  }

  lemma AnyToEnd(match': seq<bool>, lo: nat, hi: nat)
    requires |match'| <= hi
    ensures AnyIn(match', lo, hi) <==> AnyIn(match', lo, |match'|)
  {
  }

  lemma {:induction false} NoEdgeMatch(match': seq<bool>, h: nat)
    requires match' != [] && h >= 1 && (WidthPositive(|match'|, h); !AnyIn(match', Lo(h, CalcTreeWidth(|match'|, h) - 1), |match'|))
    ensures !Ragged(match', h)
  {
    hide CalcTreeWidth, Lo;
    EdgeNested(|match'|, h);
    if h > 1 {
      NoEdgeMatch(match', h - 1);
    }
  }

  lemma {:induction false} EdgeOneChild(match': seq<bool>, h: nat)
    requires match' != []
    ensures CalcTreeWidth(|match'|, h) >= 1
    ensures OneChild(match', h, CalcTreeWidth(|match'|, h) - 1) > 0 <==> Ragged(match', h)
  {
    hide CalcTreeWidth, Lo, AnyIn;
    var n := |match'|;
    WidthPositive(n, h);
    if h > 0 {
      var last := CalcTreeWidth(n, h) - 1;
      EdgeNested(n, h);
      AnyToEnd(match', Lo(h, last), Lo(h, last + 1));
      if AnyIn(match', Lo(h, last), Lo(h, last + 1)) {
        WidthNext(n, h - 1);
        Children(n, h, last);
        EdgeOneChild(match', h - 1);
        RaggedStep(match', h);
        if 2 * last + 1 < CalcTreeWidth(n, h - 1) {
          InnerHasTwo(match', h - 1, 2 * last);
        }
      } else {
        NoEdgeMatch(match', h);
      }
    }
  }

  lemma RaggedStep(match': seq<bool>, h: nat)
    requires match' != [] && h >= 1
    ensures Ragged(match', h) <==> Ragged(match', h - 1) || LoneAbove(match', h)
  {
    hide LoneAbove;
  }

  /** The documented bound of 2N-1 bits for N hashes holds exactly when no lone edge node is descended into. */
  lemma DocumentedBitsIff(f: Hasher, txids: seq<Hash256>, match': seq<bool>, h: nat)
    requires txids != [] && |txids| == |match'| && IsHeight(|txids|, h)
    ensures CalcTreeWidth(|txids|, h) == 1
    ensures var t := Build(f, txids, match', h, 0); |t.bits| <= 2 * |t.hashes| - 1 <==> !Ragged(match', h)
  {
    CalcHashIsRoot(f, txids, h);
    hide CalcTreeWidth;
    BitsCount(f, txids, match', h, 0);
    EdgeOneChild(match', h);
  }

  /** Three transactions with the last one matched take four bits and two hashes. */
  lemma ThreeBreakTheBound(f: Hasher, a: Hash256, b: Hash256, c: Hash256)
    ensures CalcTreeWidth(3, 2) == 1 && IsHeight(3, 2)
    ensures var t := Build(f, [a, b, c], [false, false, true], 2, 0); |t.bits| == 4 && |t.hashes| == 2
  {
    assert Pow2(0) == 1 && Pow2(1) == 2 && Pow2(2) == 4;
    var m := [false, false, true];
    assert m[2];
    assert AnyIn(m, Lo(2, 0), Lo(2, 1)) && !AnyIn(m, Lo(1, 0), Lo(1, 1)) && AnyIn(m, Lo(1, 1), Lo(1, 2)) && AnyIn(m, Lo(0, 2), Lo(0, 3));
    assert CalcTreeWidth(3, 0) == 3 && CalcTreeWidth(3, 1) == 2 && CalcTreeWidth(3, 2) == 1;
    var l, r := Build(f, [a, b, c], m, 1, 0), Build(f, [a, b, c], m, 1, 1);
    var leaf := Build(f, [a, b, c], m, 0, 2);
    assert |l.bits| == 1 && |l.hashes| == 1 && |leaf.bits| == 1 && |leaf.hashes| == 1;
    assert |r.bits| == 2 && |r.hashes| == 1;
  }
}
