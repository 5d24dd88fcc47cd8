/** Merged mining: checking that an auxiliary block was committed to by a parent block. */
module AuxPow {
  import opened Arithmetic
  import opened Collisions
  import opened MerkleLevels
  import opened Powers

  type Byte = x: nat | x < 256

  // A 256-bit hash as its 32 bytes.
  type Hash = s: seq<Byte> | |s| == 32 witness [0, 0, 0, 0, 0, 0, 0, 0, 0, 0, 0, 0, 0, 0, 0, 0, 0, 0, 0, 0, 0, 0, 0, 0, 0, 0, 0, 0, 0, 0, 0, 0]

  const NULL_HASH: Hash := [0, 0, 0, 0, 0, 0, 0, 0, 0, 0, 0, 0, 0, 0, 0, 0, 0, 0, 0, 0, 0, 0, 0, 0, 0, 0, 0, 0, 0, 0, 0, 0]
  const HEADER: seq<Byte> := [0xfa, 0xbe, 0x6d, 0x6d]

  type Hasher = (Hash, Hash) -> Hash

  // --- Merkle branches ---

  // One step up: the node is a right child when its index is odd.
  function Step(f: Hasher, hash: Hash, other: Hash, nIndex: int): Hash {
    if nIndex % 2 == 1 then f(other, hash) else f(hash, other)
  }

  // Follow a branch to its root.
  function Climb(f: Hasher, hash: Hash, branch: seq<Hash>, nIndex: int): Hash
    decreases |branch|
  {
    if branch == [] then hash else Climb(f, Step(f, hash, branch[0], nIndex), branch[1..], nIndex / 2)
  }

  function Root(f: Hasher, hash: Hash, branch: seq<Hash>, nIndex: int): Hash {
    if nIndex == -1 then NULL_HASH else Climb(f, hash, branch, nIndex)
  }

  method CheckMerkleBranch(f: Hasher, hash0: Hash, vMerkleBranch: seq<Hash>, nIndex0: int) returns (hash: Hash)
    ensures hash == Root(f, hash0, vMerkleBranch, nIndex0)
  {
    hash := hash0;
    var nIndex := nIndex0;
    if nIndex == -1 {
      return NULL_HASH;
    }
    for i := 0 to |vMerkleBranch|
      invariant Climb(f, hash, vMerkleBranch[i..], nIndex) == Climb(f, hash0, vMerkleBranch, nIndex0)
    {
      var it := vMerkleBranch[i];
      assert vMerkleBranch[i..][0] == it && vMerkleBranch[i..][1..] == vMerkleBranch[i + 1..];
      if nIndex % 2 == 1 {
        hash := f(it, hash);
      } else {
        hash := f(hash, it);
      }
      nIndex := nIndex / 2;
    }
  }

  function StepPair(hash: Hash, other: Hash, nIndex: int): Pair<Hash> {
    if nIndex % 2 == 1 then Pair(other, hash) else Pair(hash, other)
  }

  // The pairs hashed on the way up.
  ghost function Hashed(f: Hasher, hash: Hash, branch: seq<Hash>, nIndex: int): set<Pair<Hash>>
    decreases |branch|
  {
    if branch == [] then {}
    else {StepPair(hash, branch[0], nIndex)} + Hashed(f, Step(f, hash, branch[0], nIndex), branch[1..], nIndex / 2)
  }

  /** Two branches of one length from one index to one root start at the same hash, or a collision was hashed. */
  lemma {:induction false} OneStart(f: Hasher, a: Hash, as': seq<Hash>, b: Hash, bs: seq<Hash>, nIndex: int, s: set<Pair<Hash>>)
    requires |as'| == |bs| && Climb(f, a, as', nIndex) == Climb(f, b, bs, nIndex)
    requires Hashed(f, a, as', nIndex) + Hashed(f, b, bs, nIndex) <= s && !Collision(f, s)
    ensures a == b
    decreases |as'|
  {
    hide Collision;
    if as' != [] {
      var p, q := StepPair(a, as'[0], nIndex), StepPair(b, bs[0], nIndex);
      OneStart(f, Step(f, a, as'[0], nIndex), as'[1..], Step(f, b, bs[0], nIndex), bs[1..], nIndex / 2, s);
      SamePair(f, s, p, q);
    }
  }

  /** The siblings of a leaf lead from it to the Merkle root, and only pairs of the tree are hashed on the way. */
  lemma {:induction false} BranchLeads(f: Hasher, leaves: seq<Hash>, i: nat)
    requires i < |leaves|
    ensures Climb(f, leaves[i], Branch(f, leaves, i), i) == MerkleRoot(f, leaves)
    ensures Hashed(f, leaves[i], Branch(f, leaves, i), i) <= RootPairs(f, leaves)
    decreases |leaves|
  {
    if |leaves| > 1 {
      var next := NextLevel(f, leaves);
      assert StepPair(leaves[i], Sibling(leaves, i), i) == PairOf(leaves, i / 2);
      assert Step(f, leaves[i], Sibling(leaves, i), i) == next[i / 2];
      BranchLeads(f, next, i / 2);
    }
  }

  /** A branch of the tree's height from index i to the Merkle root starts at leaf i, or a collision was hashed. */
  lemma BranchProves(f: Hasher, hash: Hash, branch: seq<Hash>, leaves: seq<Hash>, i: nat)
    requires i < |leaves| && |branch| == Height(|leaves|) && Climb(f, hash, branch, i) == MerkleRoot(f, leaves)
    ensures hash == leaves[i] || Collision(f, Hashed(f, hash, branch, i) + RootPairs(f, leaves))
  {
    hide Collision, Climb, Hashed, MerkleRoot, RootPairs, Branch;
    BranchLeads(f, leaves, i);
    var s := Hashed(f, hash, branch, i) + RootPairs(f, leaves);
    if !Collision(f, s) {
      OneStart(f, hash, branch, leaves[i], Branch(f, leaves, i), i, s);
    }
  }

  // --- Searching ---

  predicate At(script: seq<Byte>, i: nat, pattern: seq<Byte>) {
    i + |pattern| <= |script| && script[i..i + |pattern|] == pattern
  }

  ghost predicate FirstAt(script: seq<Byte>, start: nat, pattern: seq<Byte>, i: nat) {
    && start <= i && (forall k :: start <= k < i ==> !At(script, k, pattern))
    && (At(script, i, pattern) || (i == |script| && forall k :: start <= k ==> !At(script, k, pattern)))
  }

  // The first place at or after `start`, or the end.
  method Search(script: seq<Byte>, start: nat, pattern: seq<Byte>) returns (i: nat)
    requires start <= |script| && pattern != []
    ensures FirstAt(script, start, pattern, i) && i <= |script|
  {
    i := start;
    while i + |pattern| <= |script|
      invariant start <= i && (i <= |script|)
      invariant forall k :: start <= k < i ==> !At(script, k, pattern)
    {
      if script[i..i + |pattern|] == pattern {
        return i;
      }
      i := i + 1;
    }
    i := |script|;
  }

  lemma FirstUnique(script: seq<Byte>, start: nat, pattern: seq<Byte>, i: nat, j: nat)
    requires FirstAt(script, start, pattern, i) && FirstAt(script, start, pattern, j) && pattern != []
    ensures i == j
  {
  }

  function Reverse(s: seq<Byte>): (r: seq<Byte>)
    ensures |r| == |s|
  {
    seq(|s|, i requires 0 <= i < |s| => s[|s| - 1 - i])
  }

  lemma ReverseOnce(s: seq<Byte>)
    ensures Reverse(Reverse(s)) == s
  {
  }

  function Le32(s: seq<Byte>): nat
    requires |s| == 4
  {
    var b0: int, b1: int, b2: int, b3: int := s[0], s[1], s[2], s[3];
    b0 + 256 * b1 + 65536 * b2 + 16777216 * b3
  }

  // --- The slot of a chain ---

  const WORD: int := 0x1_0000_0000

  // 32-bit unsigned arithmetic.
  function ExpectedIndex(nNonce: nat, nChainId: int, h: nat): int {
    var rand := nNonce;
    var rand1 := (rand * 1103515245 + 12345) % WORD;
    var rand2 := (rand1 + nChainId) % WORD;
    var rand3 := (rand2 * 1103515245 + 12345) % WORD;
    rand3 % Pow2(h)
  }

  lemma {:induction false} PowDivides(h: nat)
    requires h <= 32
    ensures Pow2(h) * Pow2(32 - h) == WORD
    decreases 32 - h
  {
    if h == 32 {
      assert Pow2(8) == 256;
      PowSum(8, 8);
      PowSum(16, 16);
    } else {
      PowDivides(h + 1);
      Doubled(Pow2(h), Pow2(32 - (h + 1)));
    }
  }

  lemma WrapIs(x: int)
    ensures x % WORD == x - (x / WORD) * WORD
  {
  }

  /** The wrapping computation is the unbounded one modulo the size of the tree. */
  lemma IndexWithoutWrap(nNonce: nat, nChainId: int, h: nat)
    requires h <= 30
    ensures ExpectedIndex(nNonce, nChainId, h) == ((nNonce * 1103515245 + 12345 + nChainId) * 1103515245 + 12345) % Pow2(h)
  {
    hide Pow2;
    var a := nNonce * 1103515245 + 12345;
    var u := (a + nChainId) * 1103515245 + 12345;
    var k := WrapTwice(a, nChainId);
    WordShift(u, k, h);
  }

  lemma WordShift(u: int, k: int, h: nat)
    requires h <= 32
    ensures (u + k * WORD) % Pow2(h) == u % Pow2(h)
  {
    hide Pow2;
    PowDivides(h);
    var j := Pow2(32 - h);
    Assoc(k, j, Pow2(h));
    Comm(j, Pow2(h));
    ModAdd(u, k * j, Pow2(h));
  }

  // The three reductions modulo 2^32 change the result by a multiple of 2^32.
  lemma WrapTwice(a: int, nChainId: int) returns (k: int)
    ensures ((a % WORD + nChainId) % WORD * 1103515245 + 12345) % WORD == (a + nChainId) * 1103515245 + 12345 + k * WORD
  {
    var b := a % WORD + nChainId;
    var c := b % WORD * 1103515245 + 12345;
    WrapIs(a);
    WrapIs(b);
    WrapIs(c);
    k := -((a / WORD + b / WORD) * 1103515245 + c / WORD);
  }

  lemma PowInjective(a: nat, b: nat)
    requires Pow2(a) == Pow2(b)
    ensures a == b
  {
    if a < b {
      PowGrows(a, b);
    } else if b < a {
      PowGrows(b, a);
    }
  }

  lemma {:induction false} PowGrows(a: nat, b: nat)
    requires a < b
    ensures Pow2(a) < Pow2(b)
  {
    if a + 1 < b {
      PowGrows(a, b - 1);
    }
  }

  // --- The proof ---

  datatype Proof = Proof(txHash: Hash, script: seq<Byte>, nIndex: int, vMerkleBranch: seq<Hash>, vChainMerkleBranch: seq<Hash>,
                         nChainIndex: int, hashMerkleRoot: Hash, parentChainId: int)

  function ChainRoot(f: Hasher, p: Proof, hashAuxBlock: Hash): seq<Byte> {
    Reverse(Root(f, hashAuxBlock, p.vChainMerkleBranch, p.nChainIndex))
  }

  ghost predicate NoneAfter(script: seq<Byte>, i: nat, pattern: seq<Byte>) {
    forall k :: i < k ==> !At(script, k, pattern)
  }

  // The commitment, with the root found at pc and the header at pcHead: the root is where it must be, and the size of
  // the tree and the nonce follow it.
  ghost predicate CommittedAt(p: Proof, nChainId: int, pc: nat, pcHead: nat) {
    && pc != |p.script|
    && (pcHead != |p.script| ==> pcHead + 4 == pc && NoneAfter(p.script, pcHead, HEADER))
    && (pcHead == |p.script| ==> pc <= 20)
    && pc + 40 <= |p.script|
    && Le32(p.script[pc + 32..pc + 36]) == Pow2(|p.vChainMerkleBranch|)
    && p.nChainIndex == ExpectedIndex(Le32(p.script[pc + 36..pc + 40]), nChainId, |p.vChainMerkleBranch|)
  }

  ghost predicate Committed(p: Proof, root: seq<Byte>, nChainId: int) {
    exists pc: nat, pcHead: nat ::
      FirstAt(p.script, 0, root, pc) && FirstAt(p.script, 0, HEADER, pcHead) && CommittedAt(p, nChainId, pc, pcHead)
  }

  ghost predicate Accepts(f: Hasher, p: Proof, hashAuxBlock: Hash, nChainId: int, fStrictChainId: bool) {
    && p.nIndex == 0 && !(fStrictChainId && p.parentChainId == nChainId) && |p.vChainMerkleBranch| <= 30
    && Root(f, p.txHash, p.vMerkleBranch, p.nIndex) == p.hashMerkleRoot
    && Committed(p, ChainRoot(f, p, hashAuxBlock), nChainId)
  }

  method Check(f: Hasher, p: Proof, hashAuxBlock: Hash, nChainId: int, fStrictChainId: bool) returns (ok: bool)
    ensures ok <==> Accepts(f, p, hashAuxBlock, nChainId, fStrictChainId)
  {
    hide FirstAt, Le32, Pow2, ExpectedIndex, Reverse;
    if p.nIndex != 0 {
      return false;
    }
    if fStrictChainId && p.parentChainId == nChainId {
      return false;
    }
    if |p.vChainMerkleBranch| > 30 {
      return false;
    }
    var nRootHash := CheckMerkleBranch(f, hashAuxBlock, p.vChainMerkleBranch, p.nChainIndex);
    var vchRootHash := Reverse(nRootHash);
    var top := CheckMerkleBranch(f, p.txHash, p.vMerkleBranch, p.nIndex);
    if top != p.hashMerkleRoot {
      return false;
    }
    ok := CheckScript(p, vchRootHash, nChainId);
  }

  method CheckScript(p: Proof, vchRootHash: seq<Byte>, nChainId: int) returns (ok: bool)
    requires |vchRootHash| == 32 && |p.vChainMerkleBranch| <= 30
    ensures ok <==> Committed(p, vchRootHash, nChainId)
  {
    var script := p.script;
    var pcHead := Search(script, 0, HEADER);
    var pc := Search(script, 0, vchRootHash);
    OnlyPlaces(p, vchRootHash, nChainId, pc, pcHead);
    if pc == |script| {
      return false;
    }
    if pcHead != |script| {
      var again := Search(script, pcHead + 1, HEADER);
      if again != |script| {
        return false;
      }
      if pcHead + 4 != pc {
        return false;
      }
    } else {
      if pc > 20 {
        return false;
      }
    }
    pc := pc + |vchRootHash|;
    if |script| - pc < 8 {
      return false;
    }
    var nSize := Le32(script[pc..pc + 4]);
    var merkleHeight := |p.vChainMerkleBranch|;
    if nSize != Pow2(merkleHeight) {
      return false;
    }
    var nNonce := Le32(script[pc + 4..pc + 8]);
    if p.nChainIndex != ExpectedIndex(nNonce, nChainId, merkleHeight) {
      return false;
    }
    return true;
  }

  lemma OnlyPlaces(p: Proof, root: seq<Byte>, nChainId: int, pc: nat, pcHead: nat)
    requires |root| == 32 && FirstAt(p.script, 0, root, pc) && FirstAt(p.script, 0, HEADER, pcHead)
    ensures Committed(p, root, nChainId) <==> CommittedAt(p, nChainId, pc, pcHead)
  {
    if Committed(p, root, nChainId) {
      var pc': nat, pcHead': nat :| FirstAt(p.script, 0, root, pc') && FirstAt(p.script, 0, HEADER, pcHead')
                                    && CommittedAt(p, nChainId, pc', pcHead');
      FirstUnique(p.script, 0, root, pc, pc');
      FirstUnique(p.script, 0, HEADER, pcHead, pcHead');
    }
  }

  // --- The parent block ---

  /** An accepted proof's coinbase is the first transaction of the parent block, or a collision was hashed. */
  lemma CoinbaseInParent(f: Hasher, p: Proof, hashAuxBlock: Hash, nChainId: int, strict: bool, txs: seq<Hash>)
    requires Accepts(f, p, hashAuxBlock, nChainId, strict)
    requires txs != [] && p.hashMerkleRoot == MerkleRoot(f, txs) && |p.vMerkleBranch| == Height(|txs|)
    ensures p.txHash == txs[0] || Collision(f, Hashed(f, p.txHash, p.vMerkleBranch, 0) + RootPairs(f, txs))
  {
    hide Committed, Climb, Collision, Hashed, MerkleRoot, RootPairs;
    BranchProves(f, p.txHash, p.vMerkleBranch, txs, 0);
  }

  /**
   * A proof made from a parent block and a tree of chains passes exactly if it is about the first transaction, that one
   * commits to the chains, the tree is not too high and the parent may have its chain ID.
   */
  lemma BuiltPassesIff(f: Hasher, p: Proof, txs: seq<Hash>, chains: seq<Hash>, nChainId: int, strict: bool)
    requires 0 <= p.nIndex < |txs| && p.txHash == txs[p.nIndex]
    requires p.vMerkleBranch == Branch(f, txs, p.nIndex) && p.hashMerkleRoot == MerkleRoot(f, txs)
    requires 0 <= p.nChainIndex < |chains| && p.vChainMerkleBranch == Branch(f, chains, p.nChainIndex)
    ensures Accepts(f, p, chains[p.nChainIndex], nChainId, strict) <==>
              && p.nIndex == 0 && Height(|chains|) <= 30 && !(strict && p.parentChainId == nChainId)
              && Committed(p, Reverse(MerkleRoot(f, chains)), nChainId)
  {
    hide Committed, Climb, Reverse, MerkleRoot, Branch;
    BranchLeads(f, txs, p.nIndex);
    BranchLeads(f, chains, p.nChainIndex);
  }

  /** Without the merged-mining header, a root that is found where it is meant to be passes exactly within the first 20 bytes. */
  lemma HeaderlessPassesIff(f: Hasher, hash: Hash, coinbaseHash: Hash, before: seq<Byte>, nChainId: int, strict: bool)
    requires var script := before + Reverse(hash) + [1, 0, 0, 0, 0, 0, 0, 0];
             FirstAt(script, 0, Reverse(hash), |before|) && FirstAt(script, 0, HEADER, |script|)
    ensures var p := InitAuxPow(hash, coinbaseHash).(script := before + Reverse(hash) + [1, 0, 0, 0, 0, 0, 0, 0]);
            Accepts(f, p, hash, nChainId, strict) <==> |before| <= 20 && !(strict && p.parentChainId == nChainId)
  {
    hide FirstAt, Reverse;
    var script := before + Reverse(hash) + [1, 0, 0, 0, 0, 0, 0, 0];
    var p := InitAuxPow(hash, coinbaseHash).(script := script);
    var n := |before|;
    assert script[n + 32..n + 36] == [1, 0, 0, 0] && script[n + 36..n + 40] == [0, 0, 0, 0];
    assert ChainRoot(f, p, hash) == Reverse(hash);
    OnlyPlaces(p, Reverse(hash), nChainId, n, |script|);
  }

  // --- One block for one piece of work ---

  ghost predicate HasHeader(script: seq<Byte>) {
    exists k: nat :: At(script, k, HEADER)
  }

  // The header fixes where the root is read, and so the root, the height and the slot.
  lemma HeaderFixes(p: Proof, root: seq<Byte>, q: Proof, root': seq<Byte>, nChainId: int)
    requires p.script == q.script && HasHeader(p.script) && |root| == 32 && |root'| == 32
    requires Committed(p, root, nChainId) && Committed(q, root', nChainId)
    ensures root == root' && |p.vChainMerkleBranch| == |q.vChainMerkleBranch| && p.nChainIndex == q.nChainIndex
    ensures p.nChainIndex >= 0
  {
    hide Pow2, Le32;
    var pc: nat, h: nat :| FirstAt(p.script, 0, root, pc) && FirstAt(p.script, 0, HEADER, h) && CommittedAt(p, nChainId, pc, h);
    var pc': nat, h': nat :| FirstAt(q.script, 0, root', pc') && FirstAt(q.script, 0, HEADER, h') && CommittedAt(q, nChainId, pc', h');
    FirstUnique(p.script, 0, HEADER, h, h');
    HeaderNotAtEnd(p.script, h);
    assert At(p.script, pc, root) && At(p.script, pc, root');
    PowInjective(|p.vChainMerkleBranch|, |q.vChainMerkleBranch|);
  }

  lemma HeaderNotAtEnd(script: seq<Byte>, h: nat)
    requires HasHeader(script) && FirstAt(script, 0, HEADER, h)
    ensures h < |script|
  {
  }

  /**
   * For one coinbase script with the merged-mining header, and one chain, at most one auxiliary block passes,
   * or two of the pairs hashed along the two chain branches collide.
   */
  lemma AtMostOneBlock(f: Hasher, p: Proof, hash: Hash, q: Proof, hash': Hash, nChainId: int, strict: bool, strict': bool)
    requires p.script == q.script && HasHeader(p.script)
    requires Accepts(f, p, hash, nChainId, strict) && Accepts(f, q, hash', nChainId, strict')
    ensures hash == hash' || Collision(f, Hashed(f, hash, p.vChainMerkleBranch, p.nChainIndex) + Hashed(f, hash', q.vChainMerkleBranch, q.nChainIndex))
  {
    hide Committed, HasHeader, Reverse, Collision, Hashed, Climb;
    HeaderFixes(p, ChainRoot(f, p, hash), q, ChainRoot(f, q, hash'), nChainId);
    ReverseOnce(Root(f, hash, p.vChainMerkleBranch, p.nChainIndex));
    ReverseOnce(Root(f, hash', q.vChainMerkleBranch, q.nChainIndex));
    var s := Hashed(f, hash, p.vChainMerkleBranch, p.nChainIndex) + Hashed(f, hash', q.vChainMerkleBranch, q.nChainIndex);
    if !Collision(f, s) {
      OneStart(f, hash, p.vChainMerkleBranch, hash', q.vChainMerkleBranch, p.nChainIndex, s);
    }
  }

  // --- The minimal proof a node makes for its own block ---

  // A push of the reversed block hash, the tree size 1 and the nonce 0.
  function MinimalScript(hashAuxBlock: Hash): seq<Byte> {
    [40] + (Reverse(hashAuxBlock) + [1, 0, 0, 0, 0, 0, 0, 0])
  }

  function InitAuxPow(hashAuxBlock: Hash, coinbaseHash: Hash): Proof {
    Proof(coinbaseHash, MinimalScript(hashAuxBlock), 0, [], [], 0, coinbaseHash, 0)
  }

  lemma MinimalBytes(hash: Hash)
    ensures var s := MinimalScript(hash);
            && |s| == 41 && s[0] == 40 && s[1..33] == Reverse(hash) && s[33] == 1
            && s[34] == s[35] == s[36] == s[37] == s[38] == s[39] == s[40] == 0
            && forall i :: 1 <= i < 33 ==> s[i] == Reverse(hash)[i - 1]
  {
    var s := MinimalScript(hash);
    assert s[1..33] == Reverse(hash);
  }

  // The header can only occur inside the hash.
  lemma MinimalHeader(hash: Hash, k: nat)
    ensures At(MinimalScript(hash), k, HEADER) <==> k >= 1 && At(Reverse(hash), k - 1, HEADER)
  {
    var s := MinimalScript(hash);
    var r := Reverse(hash);
    MinimalBytes(hash);
    hide MinimalScript, Reverse;
    if k + 4 <= 41 && s[k..k + 4] == HEADER {
      assert s[k] == 0xfa && s[k + 1] == 0xbe && s[k + 2] == 0x6d && s[k + 3] == 0x6d by {
        assert s[k..k + 4][0] == 0xfa && s[k..k + 4][1] == 0xbe && s[k..k + 4][2] == 0x6d && s[k..k + 4][3] == 0x6d;
      }
      assert 1 <= k && k + 3 < 33;
      assert r[k - 1..k + 3] == HEADER;
    }
    if k >= 1 && At(r, k - 1, HEADER) {
      assert s[k..k + 4] == r[k - 1..k + 3];
    }
  }

  // The root is found at 1, unless every byte of the hash is the push byte.
  lemma MinimalRoot(hash: Hash)
    ensures At(MinimalScript(hash), 1, Reverse(hash))
    ensures At(MinimalScript(hash), 0, Reverse(hash)) <==> forall i :: 0 <= i < 32 ==> Reverse(hash)[i] == 40
  {
    var s := MinimalScript(hash);
    var r := Reverse(hash);
    MinimalBytes(hash);
    hide MinimalScript, Reverse;
    if s[0..32] == r {
      assert r[0] == s[0..32][0];
      for i := 0 to 32
        invariant forall k :: 0 <= k < i ==> r[k] == 40
      {
        assert r[i] == s[0..32][i] == s[i];
      }
    }
    if forall i :: 0 <= i < 32 ==> r[i] == 40 {
      assert s[0..32] == r;
    }
  }

  /**
   * The minimal proof passes exactly when the chain is not the parent's (where that is enforced), the header does
   * not occur in the hash, and the hash is not 32 times the push byte.
   */
  lemma MinimalPassesIff(f: Hasher, hash: Hash, coinbaseHash: Hash, nChainId: int, strict: bool)
    ensures Accepts(f, InitAuxPow(hash, coinbaseHash), hash, nChainId, strict) <==>
              && !(strict && nChainId == 0)
              && !HasHeader(Reverse(hash))
              && !(forall i :: 0 <= i < 32 ==> hash[i] == 40)
  {
    var p := InitAuxPow(hash, coinbaseHash);
    var r := Reverse(hash);
    assert ChainRoot(f, p, hash) == r;
    assert Root(f, p.txHash, p.vMerkleBranch, p.nIndex) == p.hashMerkleRoot;
    SameBytes(hash);
    MinimalRoot(hash);
    var pc := if At(p.script, 0, r) then 0 else 1;
    assert FirstAt(p.script, 0, r, pc);
    MinimalBytes(hash);
    MinimalSize(p.script, pc, nChainId);
    hide MinimalScript, Reverse, Pow2, ExpectedIndex, Le32;
    if HasHeader(r) {
      var k: nat :| At(r, k, HEADER);
      MinimalHeader(hash, k + 1);
      var h := FirstOf(p.script, HEADER, k + 1);
      OnlyPlaces(p, r, nChainId, pc, h);
    } else {
      forall k: nat ensures !At(p.script, k, HEADER) {
        MinimalHeader(hash, k);
      }
      assert FirstAt(p.script, 0, HEADER, |p.script|);
      OnlyPlaces(p, r, nChainId, pc, |p.script|);
    }
  }

  /** The minimal proof for the hash of 32 bytes 40 does not pass: the push opcode is taken for the first byte of the hash. */
  lemma MinimalFailsOnForty(f: Hasher, coinbaseHash: Hash, nChainId: int, strict: bool)
    ensures var hash: Hash := seq(32, _ => 40); !Accepts(f, InitAuxPow(hash, coinbaseHash), hash, nChainId, strict)
  {
    MinimalPassesIff(f, seq(32, _ => 40), coinbaseHash, nChainId, strict);
  }

  const HEADER_AT_END: Hash := [0, 0, 0, 0, 0, 0, 0, 0, 0, 0, 0, 0, 0, 0, 0, 0, 0, 0, 0, 0, 0, 0, 0, 0, 0, 0, 0, 0, 0x6d, 0x6d, 0xbe, 0xfa]

  /** Nor does the one for a hash whose last four bytes are the merged-mining header backwards. */
  lemma MinimalFailsOnHeader(f: Hasher, coinbaseHash: Hash, nChainId: int, strict: bool)
    ensures !Accepts(f, InitAuxPow(HEADER_AT_END, coinbaseHash), HEADER_AT_END, nChainId, strict)
  {
    var r := Reverse(HEADER_AT_END);
    assert r[0] == 0xfa && r[1] == 0xbe && r[2] == 0x6d && r[3] == 0x6d;
    assert At(r, 0, HEADER);
    MinimalPassesIff(f, HEADER_AT_END, coinbaseHash, nChainId, strict);
  }

  lemma SameBytes(hash: Hash)
    ensures (forall i :: 0 <= i < 32 ==> hash[i] == 40) <==> forall i :: 0 <= i < 32 ==> Reverse(hash)[i] == 40
  {
    if forall i :: 0 <= i < 32 ==> Reverse(hash)[i] == 40 {
      forall i | 0 <= i < 32 ensures hash[i] == 40 {
        assert Reverse(hash)[31 - i] == hash[i];
      }
    }
  }

  // At place 1 the size and the nonce are read; at place 0 the size is wrong.
  lemma MinimalSize(s: seq<Byte>, pc: nat, nChainId: int)
    requires |s| == 41 && s[33] == 1 && s[34] == s[35] == s[36] == s[37] == s[38] == s[39] == s[40] == 0 && pc <= 1
    ensures Le32(s[pc + 32..pc + 36]) == Pow2(0) <==> pc == 1
    ensures ExpectedIndex(Le32(s[pc + 36..pc + 40]), nChainId, 0) == 0
  {
    var t := s[pc + 32..pc + 36];
    assert t[0] == s[pc + 32] && t[1] == s[pc + 33] && t[2] == s[pc + 34] && t[3] == s[pc + 35];
  }

  lemma FirstOf(script: seq<Byte>, pattern: seq<Byte>, k: nat) returns (h: nat)
    requires At(script, k, pattern) && pattern != []
    ensures FirstAt(script, 0, pattern, h) && At(script, h, pattern) && h < |script|
  {
    h := 0;
    while !At(script, h, pattern)
      invariant h <= k && forall j :: 0 <= j < h ==> !At(script, j, pattern)
      decreases k - h
    {
      h := h + 1;
    }
  }
}
