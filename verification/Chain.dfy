/** The block index tree with its skip pointers, and the active chain. */
module Chain {
  import opened Arithmetic
  import opened Common
  import opened Powers

  type Id = nat

  datatype Block = Block(nHeight: nat, pprev: Option<Id>, pskip: Option<Id>)

  type Tree = map<Id, Block>

  // Every block but the ones at height 0 has a predecessor one lower.
  ghost predicate Linked(t: Tree) {
    forall b :: b in t ==>
      match t[b].pprev
      case None => t[b].nHeight == 0
      case Some(p) => p in t && t[b].nHeight == t[p].nHeight + 1
  }

  lemma LinkedAt(t: Tree, b: Id)
    requires Linked(t) && b in t
    ensures t[b].nHeight == 0 <==> t[b].pprev.None?
    ensures t[b].pprev.Some? ==> t[b].pprev.value in t && t[b].nHeight == t[t[b].pprev.value].nHeight + 1
  {
  }

  // The ancestor at a height, found one predecessor at a time.
  ghost function Walk(t: Tree, b: Id, h: nat): Id
    requires Linked(t) && b in t && h <= t[b].nHeight
    decreases t[b].nHeight
  {
    LinkedAt(t, b);
    if t[b].nHeight == h then b else Walk(t, t[b].pprev.value, h)
  }

  lemma {:induction false} WalkHeight(t: Tree, b: Id, h: nat)
    requires Linked(t) && b in t && h <= t[b].nHeight
    ensures Walk(t, b, h) in t && t[Walk(t, b, h)].nHeight == h
    decreases t[b].nHeight
  {
    hide Linked;
    LinkedAt(t, b);
    if t[b].nHeight != h {
      WalkHeight(t, t[b].pprev.value, h);
    }
  }

  // Going on from an ancestor.
  lemma {:induction false} WalkOn(t: Tree, b: Id, k: nat, h: nat)
    requires Linked(t) && b in t && h <= k <= t[b].nHeight
    ensures Walk(t, b, k) in t && t[Walk(t, b, k)].nHeight == k && Walk(t, Walk(t, b, k), h) == Walk(t, b, h)
    decreases t[b].nHeight
  {
    hide Linked;
    LinkedAt(t, b);
    WalkHeight(t, b, k);
    if t[b].nHeight != k {
      WalkOn(t, t[b].pprev.value, k, h);
    }
  }

  // --- Where skip pointers lead ---

  // Bitwise and, of non-negative numbers.
  function And(a: nat, b: nat): (r: nat)
    ensures r <= a && r <= b
  {
    if a == 0 || b == 0 then 0 else 2 * And(a / 2, b / 2) + (if a % 2 == 1 && b % 2 == 1 then 1 else 0)
  }

  function InvertLowestOne(n: nat): nat { if n == 0 then 0 else And(n, n - 1) }

  function SkipHeight(height: int): nat {
    if height < 2 then 0
    else if height % 2 == 1 then InvertLowestOne(InvertLowestOne(height - 1)) + 1
    else InvertLowestOne(height)
  }

  // Odd times a power of two: the lowest one bit is that power.
  lemma {:induction false} LowestOne(m: nat, k: nat)
    ensures InvertLowestOne((2 * m + 1) * Pow2(k)) == 2 * m * Pow2(k)
  {
    hide And, InvertLowestOne;
    if k == 0 {
      AndSelf(m);
      LowestOfOdd(m);
    } else {
      LowestOne(m, k - 1);
      var p := Pow2(k - 1);
      Doubled(2 * m + 1, p);
      Doubled(2 * m, p);
      MulMono(1, 2 * m + 1, p);
      Halves((2 * m + 1) * p);
    }
  }

  lemma LowestOfOdd(m: nat)
    ensures InvertLowestOne(2 * m + 1) == And(2 * m + 1, 2 * m)
  {
    hide And;
  }

  lemma {:induction false} AndSelf(m: nat)
    ensures And(2 * m + 1, 2 * m) == 2 * m
  {
    AndSame(m);
  }

  lemma {:induction false} AndSame(m: nat)
    ensures And(m, m) == m
  {
    if m > 0 {
      AndSame(m / 2);
    }
  }

  lemma Halves(n: nat)
    requires n >= 1
    ensures InvertLowestOne(2 * n) == 2 * InvertLowestOne(n)
  {
    assert (2 * n - 1) / 2 == n - 1;
    assert And(2 * n, 2 * n - 1) == 2 * And(n, n - 1);
  }

  lemma SkipFrom(n: nat, a: nat, r: nat)
    requires n >= 2 && n % 2 == 0 && InvertLowestOne(n) == a
    ensures SkipHeight(n) == a && (InvertLowestOne(a) == r ==> SkipHeight(n + 1) == r + 1)
  {
    hide And, InvertLowestOne;
  }

  /** From an even height a skip clears the lowest one bit; from an odd one it clears the two lowest above bit zero. */
  lemma SkipClears(m: nat, k: nat, j: nat)
    requires k >= 1
    ensures SkipHeight((2 * m + 1) * Pow2(k)) == 2 * m * Pow2(k)
    ensures j > k ==> SkipHeight((2 * m + 1) * Pow2(j) + Pow2(k) + 1) == 2 * m * Pow2(j) + 1
  {
    hide And, InvertLowestOne, Pow2, SkipHeight;
    LowestOne(m, k);
    EvenMultiple(2 * m + 1, k);
    SkipFrom((2 * m + 1) * Pow2(k), 2 * m * Pow2(k), 0);
    if j > k {
      LowestOne(m, j);
      SumOfTwo(m, j, k);
      var q := m * Pow2(j - k) + Pow2(j - k - 1);
      LowestOne(q, k);
      EvenMultiple(2 * q + 1, k);
      SkipFrom((2 * q + 1) * Pow2(k), 2 * q * Pow2(k), 2 * m * Pow2(j));
    }
  }

  lemma EvenMultiple(a: nat, k: nat)
    requires k >= 1 && a >= 1
    ensures a * Pow2(k) % 2 == 0 && a * Pow2(k) >= 2
  {
    Assoc(a, 2, Pow2(k - 1));
    Assoc(2, a, Pow2(k - 1));
    Comm(a, 2);
    MulMono(1, a, Pow2(k - 1));
    assert a * Pow2(k) == 2 * (a * Pow2(k - 1));
  }

  lemma SumOfTwo(m: nat, j: nat, k: nat)
    requires j > k
    ensures var q := m * Pow2(j - k) + Pow2(j - k - 1);
            (2 * m + 1) * Pow2(j) + Pow2(k) == (2 * q + 1) * Pow2(k) && 2 * q * Pow2(k) == (2 * m + 1) * Pow2(j)
  {
    var a, b, c := Pow2(j - k - 1), Pow2(j - k), Pow2(k);
    var q := m * b + a;
    PowSum(j - k, k);
    assert b == 2 * a;
    assert 2 * q == (2 * m + 1) * b by {
      Dist(2 * m, 1, b);
      Assoc(2, m, b);
    }
    Assoc(2 * m + 1, b, c);
    Dist(2 * q, 1, c);
  }

  /** A skip pointer always leads to a lower height. */
  lemma SkipLower(height: nat)
    requires height >= 1
    ensures SkipHeight(height) < height
  {
  }

  ghost predicate SkipAt(t: Tree, b: Id)
    requires Linked(t) && b in t
  {
    t[b].pskip.Some? ==>
      t[b].nHeight >= 1 && SkipHeight(t[b].nHeight) <= t[b].nHeight && t[b].pskip.value == Walk(t, b, SkipHeight(t[b].nHeight))
  }

  ghost predicate SkipsRight(t: Tree)
    requires Linked(t)
  {
    forall b :: b in t ==> SkipAt(t, b)
  }

  // --- Ancestors ---

  method GetAncestor(t: Tree, b: Id, height: int) returns (r: Option<Id>)
    requires Linked(t) && SkipsRight(t) && b in t
    ensures r == if 0 <= height <= t[b].nHeight then Some(Walk(t, b, height)) else None
  {
    if height > t[b].nHeight || height < 0 {
      return None;
    }
    var pindexWalk, heightWalk := b, t[b].nHeight;
    while heightWalk > height
      invariant height <= heightWalk && pindexWalk in t && t[pindexWalk].nHeight == heightWalk
      invariant Walk(t, pindexWalk, height) == Walk(t, b, height)
      decreases heightWalk
    {
      var heightSkip := SkipHeight(heightWalk);
      var heightSkipPrev := SkipHeight(heightWalk - 1);
      SkipLower(heightWalk);
      LinkedAt(t, pindexWalk);
      if t[pindexWalk].pskip.Some? && (heightSkip == height || (heightSkip > height && !(heightSkipPrev < heightSkip - 2 && heightSkipPrev >= height))) {
        WalkOn(t, pindexWalk, heightSkip, height);
        pindexWalk := t[pindexWalk].pskip.value;
        heightWalk := heightSkip;
      } else {
        pindexWalk := t[pindexWalk].pprev.value;
        heightWalk := heightWalk - 1;
      }
    }
    return Some(pindexWalk);
  }

  // Every block of t is in t' with the same place.
  ghost predicate SameLinks(t: Tree, t': Tree) {
    forall c :: c in t ==> c in t' && t'[c].nHeight == t[c].nHeight && t'[c].pprev == t[c].pprev
  }

  // Blocks and skip pointers that are added change no ancestor.
  lemma {:induction false} WalkSameLinks(t: Tree, t': Tree, b: Id, h: nat)
    requires Linked(t) && b in t && h <= t[b].nHeight
    requires SameLinks(t, t') && Linked(t')
    ensures Walk(t', b, h) == Walk(t, b, h)
    decreases t[b].nHeight
  {
    hide Linked;
    LinkedAt(t, b);
    if t[b].nHeight != h {
      WalkSameLinks(t, t', t[b].pprev.value, h);
    }
  }

  // Adding a block under an existing one, with its skip pointer.
  lemma ExtendKeeps(t: Tree, id: Id, p: Id)
    requires Linked(t) && SkipsRight(t) && p in t && id !in t
    ensures SkipHeight(t[p].nHeight + 1) <= t[p].nHeight
    ensures var t' := t[id := Block(t[p].nHeight + 1, Some(p), Some(Walk(t, p, SkipHeight(t[p].nHeight + 1))))];
            Linked(t') && SkipsRight(t') && Walk(t', id, t'[id].nHeight) == id
  {
    hide Linked, SkipHeight, SameLinks, SkipAt, Walk;
    SkipLower(t[p].nHeight + 1);
    var k := SkipHeight(t[p].nHeight + 1);
    var t' := t[id := Block(t[p].nHeight + 1, Some(p), Some(Walk(t, p, k)))];
    ExtendLinked(t, id, p, Some(Walk(t, p, k)));
    WalkSameLinks(t, t', p, k);
    NewSkip(t', id, p, k);
    forall b | b in t' ensures SkipAt(t', b) {
      if b != id {
        SkipStays(t, t', b);
      }
    }
  }

  lemma ExtendLinked(t: Tree, id: Id, p: Id, skip: Option<Id>)
    requires Linked(t) && p in t && id !in t
    ensures var t' := t[id := Block(t[p].nHeight + 1, Some(p), skip)]; Linked(t') && SameLinks(t, t')
  {
  }

  lemma NewSkip(t: Tree, id: Id, p: Id, k: nat)
    requires Linked(t) && id in t && p in t && t[id].pprev == Some(p) && k == SkipHeight(t[id].nHeight) < t[id].nHeight
    requires t[id].nHeight == t[p].nHeight + 1 && t[id].pskip == Some(Walk(t, p, k))
    ensures SkipAt(t, id) && Walk(t, id, t[id].nHeight) == id
  {
    hide Linked, SkipHeight;
  }

  lemma SkipStays(t: Tree, t': Tree, b: Id)
    requires Linked(t) && Linked(t') && SameLinks(t, t') && b in t && b in t' && t'[b] == t[b] && SkipAt(t, b)
    ensures SkipAt(t', b)
  {
    hide Linked, SkipHeight, SameLinks;
    if t[b].pskip.Some? {
      WalkSameLinks(t, t', b, SkipHeight(t[b].nHeight));
    }
  }

  // The tree as blocks are accepted: each gets its height from its predecessor, and then its skip pointer.
  class BlockTree {
    var blocks: Tree

    ghost predicate Valid()
      reads this
    {
      Linked(blocks) && SkipsRight(blocks)
    }

    constructor ()
      ensures Valid() && blocks == map[]
    {
      blocks := map[];
    }

    method AddGenesis(id: Id)
      requires Valid() && id !in blocks
      modifies this
      ensures Valid() && blocks == old(blocks)[id := Block(0, None, None)]
    {
      ghost var t := blocks;
      blocks := blocks[id := Block(0, None, None)];
      forall b | b in t ensures SkipAt(blocks, b) {
        SkipStays(t, blocks, b);
      }
    }

    method Add(id: Id, pprev: Id)
      requires Valid() && pprev in blocks && id !in blocks
      modifies this
      ensures Valid() && id in blocks && blocks == old(blocks)[id := blocks[id]]
      ensures blocks[id].nHeight == old(blocks)[pprev].nHeight + 1 && blocks[id].pprev == Some(pprev) && blocks[id].pskip.Some?
    {
      ExtendKeeps(blocks, id, pprev);
      var nHeight := blocks[pprev].nHeight + 1;
      var pskip := GetAncestor(blocks, pprev, SkipHeight(nHeight));
      blocks := blocks[id := Block(nHeight, Some(pprev), pskip)];
    }
  }

  // --- The active chain ---

  // The blocks from height 0 up to the last one: its ancestors.
  ghost predicate IsChain(t: Tree, v: seq<Option<Id>>)
    requires Linked(t)
  {
    v == [] || (var tip := v[|v| - 1]; tip.Some? && Holds(t, v, tip.value, 0))
  }

  // From height k on, v lists the ancestors of tip.
  ghost predicate Holds(t: Tree, v: seq<Option<Id>>, tip: Id, k: nat)
    requires Linked(t)
  {
    tip in t && t[tip].nHeight == |v| - 1 && forall h :: k <= h < |v| ==> v[h] == Some(Walk(t, tip, h))
  }

  // Two blocks with a common ancestor at a height have the same ancestors below it.
  lemma SharedBelow(t: Tree, a: Id, b: Id, k: nat, h: nat)
    requires Linked(t) && a in t && b in t && h <= k && k <= t[a].nHeight && k <= t[b].nHeight && Walk(t, a, k) == Walk(t, b, k)
    ensures Walk(t, a, h) == Walk(t, b, h)
  {
    hide Linked;
    WalkOn(t, a, k, h);
    WalkOn(t, b, k, h);
  }

  lemma WalkPrev(t: Tree, b: Id, h: nat)
    requires Linked(t) && b in t && 1 <= h <= t[b].nHeight
    ensures Walk(t, b, h) in t && t[Walk(t, b, h)].pprev == Some(Walk(t, b, h - 1))
  {
    hide Linked;
    WalkOn(t, b, h, h - 1);
    LinkedAt(t, Walk(t, b, h));
    assert Walk(t, t[Walk(t, b, h)].pprev.value, h - 1) == t[Walk(t, b, h)].pprev.value;
  }

  // The lower part of an old chain that meets the new tip's ancestors belongs to the new chain.
  lemma EarlyExit(t: Tree, old': seq<Option<Id>>, v: seq<Option<Id>>, tip: Id, k: nat)
    requires Linked(t) && IsChain(t, old') && Holds(t, v, tip, k + 1) && k < |v| && k < |old'|
    requires v[k] == Some(Walk(t, tip, k)) && forall h :: 0 <= h <= k ==> v[h] == old'[h]
    ensures Holds(t, v, tip, 0)
  {
    hide Linked, Walk;
    var last := old'[|old'| - 1].value;
    forall h | 0 <= h <= k ensures v[h] == Some(Walk(t, tip, h)) {
      assert old'[k] == Some(Walk(t, last, k)) && old'[h] == Some(Walk(t, last, h));
      SharedBelow(t, last, tip, k, h);
    }
  }

  // b is the ancestor whose slot is next; above it the slots are done, below it they are as they were.
  ghost predicate Filling(t: Tree, old': seq<Option<Id>>, v: seq<Option<Id>>, tip: Id, b: Id)
    requires Linked(t)
  {
    && tip in t && b in t && t[b].nHeight <= t[tip].nHeight && b == Walk(t, tip, t[b].nHeight)
    && Holds(t, v, tip, t[b].nHeight + 1)
    && forall h :: 0 <= h <= t[b].nHeight ==> v[h] == if h < |old'| then old'[h] else None
  }

  lemma FillStart(t: Tree, old': seq<Option<Id>>, v: seq<Option<Id>>, tip: Id)
    requires Linked(t) && tip in t && v == Resized(old', t[tip].nHeight + 1)
    ensures Filling(t, old', v, tip, tip)
  {
    WalkSelf(t, tip);
    hide Linked, Walk;
  }

  lemma FillNext(t: Tree, old': seq<Option<Id>>, v: seq<Option<Id>>, tip: Id, b: Id)
    requires Linked(t) && Filling(t, old', v, tip, b)
    ensures t[b].nHeight < |v| && (t[b].pprev.Some? ==> t[b].pprev.value in t && t[t[b].pprev.value].nHeight == t[b].nHeight - 1)
    ensures var v' := v[t[b].nHeight := Some(b)];
            if t[b].pprev.Some? then Filling(t, old', v', tip, t[b].pprev.value) else Holds(t, v', tip, 0)
  {
    hide Linked, Walk;
    LinkedAt(t, b);
    if t[b].nHeight > 0 {
      WalkPrev(t, tip, t[b].nHeight);
    }
  }

  lemma FillDone(t: Tree, old': seq<Option<Id>>, v: seq<Option<Id>>, tip: Id, b: Id)
    requires Linked(t) && IsChain(t, old') && Filling(t, old', v, tip, b) && t[b].nHeight < |v| && v[t[b].nHeight] == Some(b)
    ensures Holds(t, v, tip, 0)
  {
    hide Linked, Walk;
    EarlyExit(t, old', v, tip, t[b].nHeight);
  }

  lemma ChainOf(t: Tree, v: seq<Option<Id>>, tip: Id)
    requires Linked(t) && Holds(t, v, tip, 0)
    ensures IsChain(t, v)
  {
    hide Linked, Walk;
    WalkSelf(t, tip);
  }

  class ActiveChain {
    var vChain: seq<Option<Id>>

    constructor ()
      ensures vChain == []
    {
      vChain := [];
    }

    // The entry at a height, or nothing.
    function At(nHeight: int): (r: Option<Id>)
      reads this
    {
      if nHeight < 0 || nHeight >= |vChain| then None else vChain[nHeight]
    }

    function Height(): int
      reads this
    {
      |vChain| - 1
    }

    predicate Contains(t: Tree, b: Id)
      requires b in t
      reads this
    {
      At(t[b].nHeight) == Some(b)
    }

    function Next(t: Tree, b: Id): (r: Option<Id>)
      requires b in t
      reads this
    {
      if Contains(t, b) then At(t[b].nHeight + 1) else None
    }

    /** The next block is the one block of the chain that builds on b; only the tip and strangers have none. */
    lemma NextBuildsOn(t: Tree, b: Id)
      requires Linked(t) && IsChain(t, vChain) && b in t
      ensures Next(t, b).None? <==> !Contains(t, b) || t[b].nHeight == Height()
      ensures Next(t, b).Some? ==> var n := Next(t, b).value; n in t && t[n].pprev == Some(b) && Contains(t, n)
      ensures forall c :: c in t && Contains(t, c) && t[c].pprev == Some(b) ==> Next(t, b) == Some(c)
    {
      hide Linked, Walk;
      if vChain != [] {
        var tip := vChain[|vChain| - 1].value;
        if Contains(t, b) && t[b].nHeight < Height() {
          WalkPrev(t, tip, t[b].nHeight + 1);
          WalkHeight(t, tip, t[b].nHeight + 1);
        }
        forall c | c in t && Contains(t, c) && t[c].pprev == Some(b) ensures Next(t, b) == Some(c) {
          LinkedAt(t, c);
          WalkPrev(t, tip, t[c].nHeight);
        }
      }
    }

    method SetTip(t: Tree, pindex: Option<Id>)
      requires Linked(t) && IsChain(t, vChain) && (pindex.Some? ==> pindex.value in t)
      modifies this
      ensures IsChain(t, vChain)
      ensures pindex.None? ==> vChain == []
      ensures pindex.Some? ==> Holds(t, vChain, pindex.value, 0)
    {
      if pindex.None? {
        vChain := [];
        return;
      }
      hide Linked, Walk, Holds, IsChain, Filling;
      var tip := pindex.value;
      ghost var old' := vChain;
      vChain := Resized(vChain, t[tip].nHeight + 1);
      FillStart(t, old', vChain, tip);
      var b := tip;
      var more := true;
      while more && vChain[t[b].nHeight] != Some(b)
        invariant |vChain| == t[tip].nHeight + 1 && b in t && t[b].nHeight < |vChain|
        invariant if more then Filling(t, old', vChain, tip, b) else Holds(t, vChain, tip, 0)
        decreases more, t[b].nHeight
      {
        FillNext(t, old', vChain, tip, b);
        vChain := vChain[t[b].nHeight := Some(b)];
        if t[b].pprev.None? {
          more := false;
        } else {
          b := t[b].pprev.value;
        }
      }
      if more {
        FillDone(t, old', vChain, tip, b);
      }
      ChainOf(t, vChain, tip);
    }

    method FindFork(t: Tree, pindex: Option<Id>) returns (r: Option<Id>)
      requires Linked(t) && SkipsRight(t) && IsChain(t, vChain) && (pindex.Some? ==> pindex.value in t)
      ensures r.Some? ==> pindex.Some? && Shared(t, vChain, pindex.value, r.value)
      ensures pindex.Some? ==> forall c :: Shared(t, vChain, pindex.value, c) ==> r.Some? && t[c].nHeight <= t[r.value].nHeight
    {
      if pindex.None? {
        return None;
      }
      hide Linked, Walk, Shared, NoneAbove, SkipsRight, IsChain;
      var start := pindex.value;
      WalkSelf(t, start);
      NoneHigher(t, vChain, start);
      r := pindex;
      if t[start].nHeight > Height() {
        r := GetAncestor(t, start, Height());
        if r.Some? {
          WalkHeight(t, start, Height());
        }
      }
      r := Descend(t, start, r);
      ForkFound(t, vChain, start, r);
    }

    function Tip(): (r: Option<Id>)
      reads this
    {
      if |vChain| > 0 then vChain[|vChain| - 1] else None
    }

    // The ancestor of b at a lower height, from the chain if b is in it.
    method Back(t: Tree, b: Id, nHeight: nat) returns (r: Option<Id>)
      requires Linked(t) && SkipsRight(t) && IsChain(t, vChain) && b in t && nHeight <= t[b].nHeight
      ensures r == Some(Walk(t, b, nHeight))
    {
      hide Linked, Walk, SkipsRight;
      if Contains(t, b) {
        r := At(nHeight);
        WalkOn(t, Tip().value, t[b].nHeight, nHeight);
      } else {
        r := GetAncestor(t, b, nHeight);
      }
    }

    method GetLocator(t: Tree, pindex: Option<Id>) returns (vHave: seq<Id>)
      requires Linked(t) && SkipsRight(t) && IsChain(t, vChain) && (pindex.Some? ==> pindex.value in t)
      ensures pindex.None? && Tip().None? ==> vHave == []
      ensures var start := if pindex.Some? then pindex else Tip();
              start.Some? ==> start.value in t && Locates(t, start.value, vHave) && Complete(t[start.value].nHeight, |vHave|)
    {
      hide Linked, Walk, SkipsRight, IsChain, Locates, Complete;
      TipIn(t, vChain);
      var p := pindex;
      if p.None? {
        p := Tip();
      }
      vHave := [];
      if p.Some? {
        vHave := Collect(t, p.value);
      }
    }

    method Collect(t: Tree, start: Id) returns (vHave: seq<Id>)
      requires Linked(t) && SkipsRight(t) && IsChain(t, vChain) && start in t
      ensures Locates(t, start, vHave) && Complete(t[start].nHeight, |vHave|)
    {
      hide Linked, Walk, SkipsRight, IsChain, Drop, EntryHeight;
      var nStep := 1;
      vHave := [];
      var b := start;
      FirstEntry(t, start);
      while true
        invariant b in t && b == Walk(t, start, EntryHeight(t, start, |vHave|)) && t[b].nHeight == EntryHeight(t, start, |vHave|)
        invariant nStep == Drop(|vHave| + 1) - Drop(|vHave|) && Locates(t, start, vHave)
        invariant forall n :: 0 <= n < |vHave| ==> Drop(n) < t[start].nHeight
        decreases t[b].nHeight
      {
        NextEntry(t, start, |vHave|, b, nStep);
        vHave := vHave + [b];
        if t[b].nHeight == 0 {
          break;
        }
        var r := Back(t, b, Max(t[b].nHeight - nStep, 0));
        b := r.value;
        if |vHave| > 10 {
          nStep := nStep * 2;
        }
      }
    }

    // The first contained block at or below a given ancestor.
    method Descend(t: Tree, start: Id, from: Option<Id>) returns (r: Option<Id>)
      requires Linked(t) && start in t && OnPath(t, start, from) && NoneAbove(t, vChain, start, HeightOf(t, from))
      ensures OnPath(t, start, r) && NoneAbove(t, vChain, start, HeightOf(t, r)) && (r.Some? ==> Contains(t, r.value))
    {
      hide Linked, Walk, NoneAbove;
      r := from;
      while r.Some? && !Contains(t, r.value)
        invariant OnPath(t, start, r) && NoneAbove(t, vChain, start, HeightOf(t, r))
        decreases HeightOf(t, r)
      {
        LinkedAt(t, r.value);
        NotThis(t, vChain, start, t[r.value].nHeight);
        if t[r.value].nHeight > 0 {
          WalkPrev(t, start, t[r.value].nHeight);
        }
        r := t[r.value].pprev;
      }
    }
  }

  // --- Locators ---

  // How far below the start the n-th entry of a locator is: ten single steps, then steps that double.
  function Drop(n: nat): nat {
    if n <= 10 then n else 9 + Pow2(n - 10)
  }

  function EntryHeight(t: Tree, start: Id, n: nat): (h: nat)
    requires start in t
    ensures h <= t[start].nHeight
  {
    Max(0, t[start].nHeight - Drop(n))
  }

  lemma FirstEntry(t: Tree, start: Id)
    requires Linked(t) && start in t
    ensures Walk(t, start, EntryHeight(t, start, 0)) == start && t[start].nHeight == EntryHeight(t, start, 0) && Drop(1) - Drop(0) == 1
  {
  }

  // From entry n, above height 0, a step back leads to the next entry, and the next step is known.
  lemma NextEntry(t: Tree, start: Id, n: nat, b: Id, nStep: int)
    requires Linked(t) && start in t && b in t
    requires b == Walk(t, start, EntryHeight(t, start, n)) && t[b].nHeight == EntryHeight(t, start, n) && nStep == Drop(n + 1) - Drop(n)
    ensures t[b].nHeight == 0 ==> Drop(n) >= t[start].nHeight
    ensures t[b].nHeight > 0 ==>
              && Drop(n) < t[start].nHeight && nStep >= 1
              && Max(t[b].nHeight - nStep, 0) == EntryHeight(t, start, n + 1) <= t[b].nHeight
              && Walk(t, b, EntryHeight(t, start, n + 1)) == Walk(t, start, EntryHeight(t, start, n + 1))
              && Walk(t, b, EntryHeight(t, start, n + 1)) in t
              && t[Walk(t, b, EntryHeight(t, start, n + 1))].nHeight == EntryHeight(t, start, n + 1) < t[b].nHeight
    ensures Drop(n + 2) - Drop(n + 1) == if n + 1 > 10 then nStep * 2 else nStep
  {
    hide Linked, Walk;
    DropGrows(n, n + 1);
    if t[b].nHeight > 0 {
      WalkOn(t, start, t[b].nHeight, EntryHeight(t, start, n + 1));
      WalkHeight(t, start, EntryHeight(t, start, n + 1));
    }
  }

  // The first entries of the locator of a block.
  ghost predicate Locates(t: Tree, start: Id, have: seq<Id>)
    requires Linked(t) && start in t
  {
    forall n :: 0 <= n < |have| ==> have[n] == Walk(t, start, EntryHeight(t, start, n))
  }

  lemma {:induction false} DropGrows(m: nat, n: nat)
    requires m < n
    ensures Drop(m) < Drop(n)
  {
    if m + 1 < n {
      DropGrows(m, n - 1);
    }
  }

  // Every entry but the last is above height 0, and the last is at height 0.
  ghost predicate Complete(height: nat, length: nat) {
    length >= 1 && Drop(length - 1) >= height && forall n :: 0 <= n < length - 1 ==> Drop(n) < height
  }

  /** A locator has at most 11 + ceil(log2(height + 1)) entries. */
  lemma LocatorShort(height: nat, length: nat, log: nat)
    requires Complete(height, length) && height + 1 <= Pow2(log)
    ensures length <= 11 + log
  {
    if length > 11 + log {
      assert Drop(length - 2) < height;
      PowMono(log, length - 12);
    }
  }

  /** The entries of a locator have strictly falling heights. */
  lemma LocatorFalls(t: Tree, start: Id, have: seq<Id>, m: nat, n: nat)
    requires Linked(t) && start in t && Locates(t, start, have) && Complete(t[start].nHeight, |have|) && m < n < |have|
    ensures have[m] in t && have[n] in t && t[have[m]].nHeight > t[have[n]].nHeight
  {
    hide Linked, Walk;
    DropGrows(m, n);
    WalkHeight(t, start, EntryHeight(t, start, m));
    WalkHeight(t, start, EntryHeight(t, start, n));
  }

  /** A locator goes from the block itself to height 0. */
  lemma LocatorEnds(t: Tree, start: Id, have: seq<Id>)
    requires Linked(t) && start in t && Locates(t, start, have) && Complete(t[start].nHeight, |have|)
    ensures have != [] && have[0] == start && have[|have| - 1] in t && t[have[|have| - 1]].nHeight == 0
  {
    hide Linked, Walk;
    WalkSelf(t, start);
    WalkHeight(t, start, EntryHeight(t, start, |have| - 1));
  }

  ghost predicate OnPath(t: Tree, b: Id, r: Option<Id>)
    requires Linked(t) && b in t
  {
    r.Some? ==> r.value in t && t[r.value].nHeight <= t[b].nHeight && r.value == Walk(t, b, t[r.value].nHeight)
  }

  function HeightOf(t: Tree, r: Option<Id>): int { if r.Some? && r.value in t then t[r.value].nHeight else -1 }

  // No block shared by the chain and b's ancestry is higher than a limit.
  ghost predicate NoneAbove(t: Tree, v: seq<Option<Id>>, b: Id, limit: int)
    requires Linked(t) && b in t
  {
    forall c :: Shared(t, v, b, c) ==> t[c].nHeight <= limit
  }

  lemma NoneHigher(t: Tree, v: seq<Option<Id>>, b: Id)
    requires Linked(t) && b in t
    ensures NoneAbove(t, v, b, t[b].nHeight) && NoneAbove(t, v, b, |v| - 1)
  {
  }

  lemma NotThis(t: Tree, v: seq<Option<Id>>, b: Id, h: nat)
    requires Linked(t) && b in t && NoneAbove(t, v, b, h) && h <= t[b].nHeight && !(h < |v| && v[h] == Some(Walk(t, b, h)))
    ensures NoneAbove(t, v, b, h - 1)
  {
    hide Linked, Walk;
  }

  lemma ForkFound(t: Tree, v: seq<Option<Id>>, b: Id, r: Option<Id>)
    requires Linked(t) && b in t && OnPath(t, b, r) && NoneAbove(t, v, b, HeightOf(t, r))
    requires r.Some? ==> t[r.value].nHeight < |v| && v[t[r.value].nHeight] == r
    ensures r.Some? ==> Shared(t, v, b, r.value)
    ensures forall c :: Shared(t, v, b, c) ==> r.Some? && t[c].nHeight <= t[r.value].nHeight
  {
    hide Linked, Walk;
  }

  // c is in the chain and is b or an ancestor of b.
  ghost predicate Shared(t: Tree, v: seq<Option<Id>>, b: Id, c: Id)
    requires Linked(t) && b in t
  {
    c in t && t[c].nHeight < |v| && v[t[c].nHeight] == Some(c) && t[c].nHeight <= t[b].nHeight && Walk(t, b, t[c].nHeight) == c
  }

  lemma WalkSelf(t: Tree, b: Id)
    requires Linked(t) && b in t
    ensures Walk(t, b, t[b].nHeight) == b
  {
  }

  lemma TipIn(t: Tree, v: seq<Option<Id>>)
    requires Linked(t) && IsChain(t, v)
    ensures v != [] ==> v[|v| - 1].Some? && v[|v| - 1].value in t
  {
  }

  function Resized(v: seq<Option<Id>>, n: nat): (r: seq<Option<Id>>)
    ensures |r| == n && forall i :: 0 <= i < n ==> r[i] == if i < |v| then v[i] else None
  {
    if n <= |v| then v[..n] else v + seq(n - |v|, i => None)
  }
}
