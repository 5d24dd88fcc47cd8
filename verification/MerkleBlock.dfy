/** The partial Merkle tree object: construction, serialization and extraction. */
module MerkleBlock {
  import opened ByteBits
  import opened Collisions
  import opened Common
  import opened MerkleLevels
  import opened PartialMerkle
  import opened Powers

  const MAX_BLOCK_BASE_SIZE := 1000000

  // --- Flag bits as bytes, least significant bit first ---

  // `bytes` holds the first `upto` of the bits and zeros after them.
  ghost predicate Holds(bytes: seq<bv8>, bits: seq<bool>, upto: nat) {
    && upto <= |bits| <= 8 * |bytes|
    && forall p :: 0 <= p < 8 * |bytes| ==> (BitAt(bytes, p) <==> p < upto && bits[p])
  }

  lemma SetBit(bytes: seq<bv8>, bits: seq<bool>, p: nat)
    requires Holds(bytes, bits, p) && p < |bits|
    ensures Holds(if bits[p] then bytes[p / 8 := WithBit(bytes[p / 8], p % 8)] else bytes, bits, p + 1)
  {
    hide Bit, Mask, WithBit;
    if bits[p] {
      var bytes' := bytes[p / 8 := WithBit(bytes[p / 8], p % 8)];
      forall q | 0 <= q < 8 * |bytes'| ensures BitAt(bytes', q) <==> q < p + 1 && bits[q] {
        SameBit(p, q);
        if q / 8 == p / 8 {
          OneBit(bytes[p / 8], p % 8, q % 8);
        }
        assert BitAt(bytes, q) <==> q < p && bits[q];
      }
    }
  }

  method Pack(vBits: seq<bool>) returns (vBytes: seq<bv8>)
    ensures |vBytes| == (|vBits| + 7) / 8 && Holds(vBytes, vBits, |vBits|)
  {
    hide Bit, WithBit;
    vBytes := seq((|vBits| + 7) / 8, i => 0 as bv8);
    NoBits(vBytes, vBits);
    for p := 0 to |vBits|
      invariant |vBytes| == (|vBits| + 7) / 8 && Holds(vBytes, vBits, p)
    {
      SetBit(vBytes, vBits, p);
      if vBits[p] {
        vBytes := vBytes[p / 8 := WithBit(vBytes[p / 8], p % 8)];
      }
    }
  }

  lemma NoBits(bytes: seq<bv8>, bits: seq<bool>)
    requires |bits| <= 8 * |bytes| && forall i :: 0 <= i < |bytes| ==> bytes[i] == 0
    ensures Holds(bytes, bits, 0)
  {
  }

  method Unpack(vBytes: seq<bv8>) returns (vBits: seq<bool>)
    ensures |vBits| == 8 * |vBytes| && forall p :: 0 <= p < |vBits| ==> vBits[p] == BitAt(vBytes, p)
  {
    vBits := [];
    for p := 0 to 8 * |vBytes|
      invariant |vBits| == p && forall q :: 0 <= q < p ==> vBits[q] == BitAt(vBytes, q)
    {
      vBits := vBits + [vBytes[p / 8] & Mask(p % 8) != 0];
    }
  }

  function Padding(n: nat): seq<bool> {
    seq((n + 7) / 8 * 8 - n, i => false)
  }

  /** Unpacking packed bits gives them back, padded with zeros to a whole byte. */
  lemma UnpackPacked(vBytes: seq<bv8>, bits: seq<bool>, vBits: seq<bool>)
    requires |vBytes| == (|bits| + 7) / 8 && Holds(vBytes, bits, |bits|)
    requires |vBits| == 8 * |vBytes| && forall p :: 0 <= p < |vBits| ==> vBits[p] == BitAt(vBytes, p)
    ensures vBits == bits + Padding(|bits|)
  {
    hide BitAt;
  }

  // --- The object ---

  function Hashes(found: seq<Found>): (r: seq<Hash256>)
    ensures |r| == |found|
  {
    seq(|found|, i requires 0 <= i < |found| => found[i].hash)
  }

  function Positions(found: seq<Found>): (r: seq<nat>)
    ensures |r| == |found|
  {
    seq(|found|, i requires 0 <= i < |found| => found[i].pos)
  }

  lemma FoundSplit(a: seq<Found>, b: seq<Found>)
    ensures Hashes(a + b) == Hashes(a) + Hashes(b) && Positions(a + b) == Positions(a) + Positions(b)
  {
  }

  lemma FoundNone()
    ensures Hashes([]) == [] && Positions([]) == []
  {
  }

  lemma FoundOne(x: Found)
    ensures Hashes([x]) == [x.hash] && Positions([x]) == [x.pos]
  {
  }

  lemma ExtractStops(f: Hasher, n: nat, vBits: seq<bool>, vHash: seq<Hash256>, h: nat, pos: nat, nb: nat, nh: nat)
    requires n >= 1 && pos < CalcTreeWidth(n, h)
    ensures nb >= |vBits| ==> Extract(f, n, vBits, vHash, h, pos, nb, nh) == Extraction(NULL_HASH, nb, nh, [], true)
    ensures nb < |vBits| && (h == 0 || !vBits[nb]) && nh >= |vHash| ==>
              Extract(f, n, vBits, vHash, h, pos, nb, nh) == Extraction(NULL_HASH, nb + 1, nh, [], true)
    ensures nb < |vBits| && (h == 0 || !vBits[nb]) && nh < |vHash| ==>
              Extract(f, n, vBits, vHash, h, pos, nb, nh)
              == Extraction(vHash[nh], nb + 1, nh + 1, if vBits[nb] then [Found(vHash[nh], pos)] else [], false)
  {
  }

  lemma ExtractDescends(f: Hasher, n: nat, vBits: seq<bool>, vHash: seq<Hash256>, h: nat, pos: nat, nb: nat, nh: nat)
    requires n >= 1 && pos < CalcTreeWidth(n, h) && h >= 1 && nb < |vBits| && vBits[nb]
    ensures 2 * pos < CalcTreeWidth(n, h - 1)
    ensures var l := Extract(f, n, vBits, vHash, h - 1, 2 * pos, nb + 1, nh);
            Extract(f, n, vBits, vHash, h, pos, nb, nh)
            == if 2 * pos + 1 < CalcTreeWidth(n, h - 1) then
                 var r := Extract(f, n, vBits, vHash, h - 1, 2 * pos + 1, l.nBitsUsed, l.nHashUsed);
                 Extraction(f(l.hash, r.hash), r.nBitsUsed, r.nHashUsed, l.found + r.found, l.bad || r.bad || r.hash == l.hash)
               else Extraction(f(l.hash, l.hash), l.nBitsUsed, l.nHashUsed, l.found, l.bad)
  {
    Children(n, h, pos);
  }

  // Everything but the traversal that can make extraction fail.
  predicate Plausible(n: nat, vBits: seq<bool>, vHash: seq<Hash256>) {
    n != 0 && n <= MAX_BLOCK_BASE_SIZE / 60 && |vHash| <= n && |vHash| <= |vBits|
  }

  predicate AllUsed(vBits: seq<bool>, vHash: seq<Hash256>, e: Extraction) {
    !e.bad && (e.nBitsUsed + 7) / 8 == (|vBits| + 7) / 8 && e.nHashUsed == |vHash|
  }

  class PartialMerkleTree {
    const f: Hasher
    const nTransactions: nat
    var vBits: seq<bool>
    var vHash: seq<Hash256>
    var fBad: bool

    constructor (f': Hasher, vTxid: seq<Hash256>, vMatch: seq<bool>)
      requires vTxid != [] && |vTxid| == |vMatch|
      ensures f == f' && nTransactions == |vTxid| && !fBad
      ensures exists h :: IsHeight(|vTxid|, h) && CalcTreeWidth(|vTxid|, h) == 1
                          && Tree(vBits, vHash) == Build(f, vTxid, vMatch, h, 0)
    {
      f, nTransactions, fBad := f', |vTxid|, false;
      vBits, vHash := [], [];
      new;
      var nHeight := TreeHeight(|vTxid|);
      TraverseAndBuild(nHeight, 0, vTxid, vMatch);
      assert Tree(vBits, vHash) == Build(f, vTxid, vMatch, nHeight, 0);
    }

    constructor Unserialize(f': Hasher, n: nat, hashes: seq<Hash256>, vBytes: seq<bv8>)
      ensures f == f' && nTransactions == n && vHash == hashes && !fBad
      ensures |vBits| == 8 * |vBytes| && forall p :: 0 <= p < |vBits| ==> vBits[p] == BitAt(vBytes, p)
    {
      f, nTransactions, vHash, fBad := f', n, hashes, false;
      var bits := Unpack(vBytes);
      vBits := bits;
    }

    method Serialize() returns (n: nat, hashes: seq<Hash256>, vBytes: seq<bv8>)
      ensures n == nTransactions && hashes == vHash
      ensures |vBytes| == (|vBits| + 7) / 8 && Holds(vBytes, vBits, |vBits|)
    {
      n, hashes := nTransactions, vHash;
      vBytes := Pack(vBits);
    }

    method TraverseAndBuild(height: nat, pos: nat, vTxid: seq<Hash256>, vMatch: seq<bool>)
      requires Node(vTxid, vMatch, height, pos) && nTransactions == |vTxid|
      modifies this`vBits, this`vHash
      ensures var t := Build(f, vTxid, vMatch, height, pos); vBits == old(vBits) + t.bits && vHash == old(vHash) + t.hashes
    {
      hide CalcTreeWidth, CalcHash, Lo, AnyIn, Build;
      var fParentOfMatch := ParentOfMatch(vMatch, Lo(height, pos), Lo(height, pos + 1));
      vBits := vBits + [fParentOfMatch];
      if height == 0 || !fParentOfMatch {
        BuildStops(f, vTxid, vMatch, height, pos);
        vHash := vHash + [CalcHash(f, vTxid, height, pos)];
      } else {
        BuildSplits(f, vTxid, vMatch, height, pos);
        TraverseAndBuild(height - 1, 2 * pos, vTxid, vMatch);
        if 2 * pos + 1 < CalcTreeWidth(nTransactions, height - 1) {
          TraverseAndBuild(height - 1, 2 * pos + 1, vTxid, vMatch);
        }
      }
    }

    method TraverseAndExtract(height: nat, pos: nat, nBitsUsed0: nat, nHashUsed0: nat, vMatch0: seq<Hash256>, vnIndex0: seq<nat>)
        returns (hash: Hash256, nBitsUsed: nat, nHashUsed: nat, vMatch: seq<Hash256>, vnIndex: seq<nat>)
      requires nTransactions >= 1 && pos < CalcTreeWidth(nTransactions, height)
      modifies this`fBad
      ensures var e := Extract(f, nTransactions, vBits, vHash, height, pos, nBitsUsed0, nHashUsed0);
              && hash == e.hash && nBitsUsed == e.nBitsUsed && nHashUsed == e.nHashUsed && fBad == (old(fBad) || e.bad)
              && vMatch == vMatch0 + Hashes(e.found) && vnIndex == vnIndex0 + Positions(e.found)
      decreases height
    {
      hide CalcTreeWidth, Extract, Hashes, Positions;
      ExtractStops(f, nTransactions, vBits, vHash, height, pos, nBitsUsed0, nHashUsed0);
      FoundNone();
      nBitsUsed, nHashUsed, vMatch, vnIndex := nBitsUsed0, nHashUsed0, vMatch0, vnIndex0;
      if nBitsUsed >= |vBits| {
        fBad := true;
        return NULL_HASH, nBitsUsed, nHashUsed, vMatch, vnIndex;
      }
      var fParentOfMatch := vBits[nBitsUsed];
      nBitsUsed := nBitsUsed + 1;
      if height == 0 || !fParentOfMatch {
        if nHashUsed >= |vHash| {
          fBad := true;
          return NULL_HASH, nBitsUsed, nHashUsed, vMatch, vnIndex;
        }
        hash := vHash[nHashUsed];
        nHashUsed := nHashUsed + 1;
        if height == 0 && fParentOfMatch {
          vMatch := vMatch + [hash];
          vnIndex := vnIndex + [pos];
          FoundOne(Found(hash, pos));
        }
      } else {
        ExtractDescends(f, nTransactions, vBits, vHash, height, pos, nBitsUsed0, nHashUsed0);
        Children(nTransactions, height, pos);
        var left;
        ghost var l := Extract(f, nTransactions, vBits, vHash, height - 1, 2 * pos, nBitsUsed, nHashUsed);
        left, nBitsUsed, nHashUsed, vMatch, vnIndex := TraverseAndExtract(height - 1, 2 * pos, nBitsUsed, nHashUsed, vMatch, vnIndex);
        var right := left;
        if 2 * pos + 1 < CalcTreeWidth(nTransactions, height - 1) {
          ghost var r := Extract(f, nTransactions, vBits, vHash, height - 1, 2 * pos + 1, nBitsUsed, nHashUsed);
          right, nBitsUsed, nHashUsed, vMatch, vnIndex := TraverseAndExtract(height - 1, 2 * pos + 1, nBitsUsed, nHashUsed, vMatch, vnIndex);
          FoundSplit(l.found, r.found);
          if right == left {
            fBad := true;
          }
        }
        hash := f(left, right);
      }
    }

    // The index list is appended to, not cleared.
    method ExtractMatches(vnIndex0: seq<nat>) returns (root: Hash256, vMatch: seq<Hash256>, vnIndex: seq<nat>, ghost h: nat)
      modifies this`fBad
      ensures !Plausible(nTransactions, vBits, vHash) ==> root == NULL_HASH && vMatch == [] && vnIndex == vnIndex0
      ensures Plausible(nTransactions, vBits, vHash) ==>
                && IsHeight(nTransactions, h) && CalcTreeWidth(nTransactions, h) == 1
                && (var e := Extract(f, nTransactions, vBits, vHash, h, 0, 0, 0);
                    && root == (if !old(fBad) && AllUsed(vBits, vHash, e) then e.hash else NULL_HASH)
                    && vMatch == Hashes(e.found) && vnIndex == vnIndex0 + Positions(e.found))
      ensures |vMatch| == |vnIndex| <==> vnIndex0 == []
    {
      h := 0;
      vMatch, vnIndex := [], vnIndex0;
      if nTransactions == 0 {
        return NULL_HASH, vMatch, vnIndex, h;
      }
      if nTransactions > MAX_BLOCK_BASE_SIZE / 60 {
        return NULL_HASH, vMatch, vnIndex, h;
      }
      if |vHash| > nTransactions {
        return NULL_HASH, vMatch, vnIndex, h;
      }
      if |vBits| < |vHash| {
        return NULL_HASH, vMatch, vnIndex, h;
      }
      hide Extract, CalcTreeWidth;
      var nHeight := TreeHeight(nTransactions);
      h := nHeight;
      var nBitsUsed, nHashUsed;
      root, nBitsUsed, nHashUsed, vMatch, vnIndex := TraverseAndExtract(nHeight, 0, 0, 0, vMatch, vnIndex);
      if fBad {
        return NULL_HASH, vMatch, vnIndex, h;
      }
      if (nBitsUsed + 7) / 8 != (|vBits| + 7) / 8 {
        return NULL_HASH, vMatch, vnIndex, h;
      }
      if nHashUsed != |vHash| {
        return NULL_HASH, vMatch, vnIndex, h;
      }
    }
  }

  /** One matched transaction, extracted twice into the same lists: one match and two positions. */
  method ExtractTwice(f: Hasher, txid: Hash256) returns (vMatch: seq<Hash256>, vnIndex: seq<nat>)
    ensures vMatch == [txid] && vnIndex == [0, 0]
  {
    var tree := new PartialMerkleTree(f, [txid], [true]);
    OneLeaf(f, txid);
    var root;
    ghost var h;
    root, vMatch, vnIndex, h := tree.ExtractMatches([]);
    SameHeight(1, h, 0);
    root, vMatch, vnIndex, h := tree.ExtractMatches(vnIndex);
    SameHeight(1, h, 0);
  }

  lemma OneLeaf(f: Hasher, txid: Hash256)
    ensures CalcTreeWidth(1, 0) == 1 && IsHeight(1, 0) && forall h :: IsHeight(1, h) ==> h == 0
    ensures Build(f, [txid], [true], 0, 0) == Tree([true], [txid])
    ensures var e := Extract(f, 1, [true], [txid], 0, 0, 0, 0); Hashes(e.found) == [txid] && Positions(e.found) == [0]
  {
    WidthZero(1);
    forall h | IsHeight(1, h) ensures h == 0 {
      SameHeight(1, h, 0);
    }
    assert AnyIn([true], Lo(0, 0), Lo(0, 1)) by {
      assert [true][0];
    }
    LeafHash(f, [txid], 0);
  }

  method ParentOfMatch(vMatch: seq<bool>, lo: nat, hi: nat) returns (any: bool)
    ensures any <==> AnyIn(vMatch, lo, hi)
  {
    any := false;
    var p := lo;
    while p < hi && p < |vMatch|
      invariant lo <= p && (p <= hi || p == lo) && any == AnyIn(vMatch, lo, p)
      decreases |vMatch| - p
    {
      AnyLast(vMatch, lo, p);
      any := any || vMatch[p];
      p := p + 1;
    }
    AnyCapped(vMatch, lo, p, hi);
  }

  lemma BuildStops(f: Hasher, txids: seq<Hash256>, match': seq<bool>, h: nat, pos: nat)
    requires Node(txids, match', h, pos)
    requires h == 0 || !AnyIn(match', Lo(h, pos), Lo(h, pos + 1))
    ensures Build(f, txids, match', h, pos) == Tree([AnyIn(match', Lo(h, pos), Lo(h, pos + 1))], [CalcHash(f, txids, h, pos)])
  {
  }

  lemma AnyLast(match': seq<bool>, lo: nat, p: nat)
    requires lo <= p < |match'|
    ensures AnyIn(match', lo, p + 1) <==> AnyIn(match', lo, p) || match'[p]
  {
  }

  lemma AnyCapped(match': seq<bool>, lo: nat, p: nat, hi: nat)
    requires p >= hi || p >= |match'|
    requires p <= hi || p == lo
    ensures AnyIn(match', lo, p) <==> AnyIn(match', lo, hi)
  {
  }

  // --- What extraction promises ---

  /**
   * Whoever made the tree: if extraction reports the Merkle root of the block, every reported transaction is in it
   * where it says, or two of the pairs hashed in the two trees collide.
   */
  method Verify(tree: PartialMerkleTree, ghost txids: seq<Hash256>)
      returns (root: Hash256, vMatch: seq<Hash256>, vnIndex: seq<nat>, ghost h: nat)
    modifies tree`fBad
    ensures |vMatch| == |vnIndex|
    ensures root != NULL_HASH && |txids| == tree.nTransactions && txids != [] && root == MerkleRoot(tree.f, txids) ==>
              && HeightOf(|txids|, h)
              && (|| Collision(tree.f, Hashed(tree.f, txids, h, 0) + ExtractHashed(tree.f, |txids|, tree.vBits, tree.vHash, h, 0, 0, 0))
                  || forall k :: 0 <= k < |vMatch| ==> vnIndex[k] < |txids| && txids[vnIndex[k]] == vMatch[k])
  {
    hide Collision, Extract, CalcTreeWidth, MerkleRoot, Hashed, ExtractHashed;
    root, vMatch, vnIndex, h := tree.ExtractMatches([]);
    if root != NULL_HASH && |txids| == tree.nTransactions && txids != [] && root == MerkleRoot(tree.f, txids) {
      CalcHashIsRoot(tree.f, txids, h);
      ghost var s := Hashed(tree.f, txids, h, 0) + ExtractHashed(tree.f, |txids|, tree.vBits, tree.vHash, h, 0, 0, 0);
      if !Collision(tree.f, s) {
        ExtractSound(tree.f, txids, s, tree.vBits, tree.vHash, h, 0, 0, 0);
      }
    }
  }

  ghost predicate HeightOf(n: nat, h: nat) {
    IsHeight(n, h) && CalcTreeWidth(n, h) == 1
  }

  lemma SameHeight(n: nat, h: nat, k: nat)
    requires IsHeight(n, h) && IsHeight(n, k)
    ensures h == k
  {
  }

  lemma AllMatches(txids: seq<Hash256>, match': seq<bool>, h: nat)
    requires txids != [] && |txids| == |match'| && HeightOf(|txids|, h)
    ensures Matches(txids, match', Lo(h, 0), Lo(h, 1)) == Matches(txids, match', 0, |txids|)
    ensures |txids| <= Lo(h, 1) && Lo(h, 0) == 0
  {
    WidthCovers(|txids|, h, 1);
    MatchesSplit(txids, match', 0, |txids|, Lo(h, 1));
    NoMatches(txids, match', |txids|, Lo(h, 1));
  }

  lemma BuiltIsPlausible(f: Hasher, txids: seq<Hash256>, match': seq<bool>, h: nat)
    requires txids != [] && |txids| == |match'| && HeightOf(|txids|, h)
    ensures var t := Build(f, txids, match', h, 0);
            |t.hashes| <= |txids| && |t.hashes| <= |t.bits| && |t.hashes| <= 1 + |Matches(txids, match', 0, |txids|)| * h
  {
    hide CalcTreeWidth, Build, Matches, Lo;
    AllMatches(txids, match', h);
    BitsCount(f, txids, match', h, 0);
    HashesPerLeaf(f, txids, match', h, 0);
    HashesPerMatch(f, txids, match', h, 0);
  }

  lemma PaddedFits(bits: seq<bool>, t: seq<bool>)
    requires bits == t + Padding(|t|)
    ensures At(bits, 0, t) && (|t| + 7) / 8 == (|bits| + 7) / 8
  {
    assert bits[0..|t|] == t;
  }

  /** Building, sending, receiving and extracting gives the Merkle root and exactly the matches, in order. */
  method RoundTrip(f: Hasher, txids: seq<Hash256>, match': seq<bool>, ghost h: nat)
      returns (root: Hash256, vMatch: seq<Hash256>, vnIndex: seq<nat>)
    requires 1 <= |txids| <= MAX_BLOCK_BASE_SIZE / 60 && |match'| == |txids| && Distinct(txids)
    requires HeightOf(|txids|, h) && !Collision(f, Hashed(f, txids, h, 0))
    ensures root == MerkleRoot(f, txids)
    ensures var found := Matches(txids, match', 0, |txids|); vMatch == Hashes(found) && vnIndex == Positions(found)
  {
    hide CalcTreeWidth, Build, Matches, Lo, Extract, MerkleRoot, Distinct, Collision, Hashed, CalcHash, Hashes, Positions, Holds, BitAt, Padding, IsHeight;
    var sender := new PartialMerkleTree(f, txids, match');
    ghost var h' :| IsHeight(|txids|, h') && CalcTreeWidth(|txids|, h') == 1
                    && Tree(sender.vBits, sender.vHash) == Build(f, txids, match', h', 0);
    SameHeight(|txids|, h, h');
    var n, hashes, vBytes := sender.Serialize();
    var receiver := new PartialMerkleTree.Unserialize(f, n, hashes, vBytes);
    UnpackPacked(vBytes, sender.vBits, receiver.vBits);
    BuiltIsPlausible(f, txids, match', h);
    PaddedFits(receiver.vBits, sender.vBits);
    WholeAt(hashes);
    ExtractBuilt(f, txids, Hashed(f, txids, h, 0), match', receiver.vBits, hashes, h, 0, 0, 0);
    ghost var k;
    root, vMatch, vnIndex, k := receiver.ExtractMatches([]);
    SameHeight(|txids|, h, k);
    AllMatches(txids, match', h);
    CalcHashIsRoot(f, txids, h);
  }

  lemma WholeAt<T>(s: seq<T>)
    ensures At(s, 0, s)
  {
    assert s[0..0 + |s|] == s;
  }
}
