/** Selecting mempool transactions for a new block. */
module Assembler {
  import opened Arithmetic
  import opened Common
  import opened Mempool

  const MAX_BLOCK_WEIGHT := 4000000
  const MAX_BLOCK_SERIALIZED_SIZE := 4000000
  const MAX_BLOCK_SIGOPS_COST := 80000
  const MAX_CONSECUTIVE_FAILURES := 1000

  // The limits, and the fee the minimum fee rate asks for a size.
  datatype Config = Config(nBlockMaxWeight: nat, nBlockMaxSize: nat, minFee: int -> int)

  predicate InRange(c: Config) {
    && 4000 <= c.nBlockMaxWeight <= MAX_BLOCK_WEIGHT - 4000
    && 1000 <= c.nBlockMaxSize <= MAX_BLOCK_SERIALIZED_SIZE - 1000
  }

  // Whatever the command line asks for is brought into range.
  function Limited(weight: nat, size: nat, minFee: int -> int): (c: Config)
    ensures InRange(c) && c.minFee == minFee
    ensures c.nBlockMaxWeight == if weight < 4000 then 4000 else if weight > 3996000 then 3996000 else weight
    ensures c.nBlockMaxSize == if size < 1000 then 1000 else if size > 3999000 then 3999000 else size
  {
    Config(Max(4000, Min(MAX_BLOCK_WEIGHT - 4000, weight)), Max(1000, Min(MAX_BLOCK_SERIALIZED_SIZE - 1000, size)), minFee)
  }

  // Whether bytes are counted beside weight.
  predicate AccountsSizes(c: Config) { c.nBlockMaxSize < MAX_BLOCK_SERIALIZED_SIZE - 1000 }

  // --- The block under construction ---

  datatype Block = Block(vtx: seq<Tx>, inBlock: set<Tx>, nBlockWeight: nat, nBlockSize: nat, nBlockTx: nat,
                         nBlockSigOpsCost: nat, nFees: int, fNeedSizeAccounting: bool)

  // Space for the coinbase is reserved.
  function Reset(fNeedSizeAccounting: bool): Block {
    Block([], {}, 4000, 1000, 0, 400, 0, fNeedSizeAccounting)
  }

  // No transaction twice, and every one after everything it depends on.
  ghost predicate Ordered(m: Pool, vtx: seq<Tx>)
    requires Layered(m)
  {
    && (forall k :: 0 <= k < |vtx| ==> vtx[k] in m && Anc(m, vtx[k]) <= Elements(vtx[..k]))
    && forall j, k :: 0 <= j < k < |vtx| ==> vtx[j] != vtx[k]
  }

  // The counters are the sums over the block.
  ghost predicate Totals(m: Pool, b: Block) {
    && b.nBlockWeight == 4000 + Sum(b.inBlock, WeightOf(m))
    && b.nBlockSigOpsCost == 400 + Sum(b.inBlock, SigopsOf(m))
    && (b.fNeedSizeAccounting ==> b.nBlockSize == 1000 + Sum(b.inBlock, SerializedOf(m)))
    && b.nBlockTx == |b.vtx|
    && b.nFees == Net(b.inBlock, FeeOf(m))
  }

  predicate Within(c: Config, b: Block) {
    && b.nBlockWeight <= c.nBlockMaxWeight
    && b.nBlockSize <= c.nBlockMaxSize
    && b.nBlockSigOpsCost <= MAX_BLOCK_SIGOPS_COST
  }

  ghost predicate Good(m: Pool, c: Config, b: Block) {
    Correct(m) && Ordered(m, b.vtx) && b.inBlock == Elements(b.vtx) && Totals(m, b) && Within(c, b)
  }

  lemma ResetGood(m: Pool, c: Config, sizes: bool)
    requires Correct(m) && InRange(c)
    ensures Good(m, c, Reset(sizes))
  {
    hide Layered, Anc, Sum;
    NoSum(WeightOf(m));
    NoSum(SigopsOf(m));
    NoSum(SerializedOf(m));
    NoNet(FeeOf(m));
  }

  lemma NoSum(f: Tx -> nat)
    ensures Sum({}, f) == 0
  {
  }

  function Added(m: Pool, b: Block, x: Tx): Block
    requires x in m
  {
    b.(vtx := b.vtx + [x], inBlock := b.inBlock + {x}, nBlockWeight := b.nBlockWeight + m[x].weight,
       nBlockSize := if b.fNeedSizeAccounting then b.nBlockSize + m[x].serialized else b.nBlockSize,
       nBlockTx := b.nBlockTx + 1, nBlockSigOpsCost := b.nBlockSigOpsCost + m[x].sigops, nFees := b.nFees + m[x].fee)
  }

  // Everything in `rest` can still go in.
  ghost predicate Fits(m: Pool, c: Config, b: Block, rest: set<Tx>) {
    && b.nBlockWeight + Sum(rest, WeightOf(m)) < c.nBlockMaxWeight
    && b.nBlockSigOpsCost + Sum(rest, SigopsOf(m)) < MAX_BLOCK_SIGOPS_COST
    && (b.fNeedSizeAccounting ==> b.nBlockSize + Sum(rest, SerializedOf(m)) < c.nBlockMaxSize)
  }

  lemma OrderedNext(m: Pool, vtx: seq<Tx>, x: Tx)
    requires Layered(m) && Ordered(m, vtx) && x in m && x !in Elements(vtx) && Anc(m, x) <= Elements(vtx)
    ensures Ordered(m, vtx + [x]) && Elements(vtx + [x]) == Elements(vtx) + {x}
  {
    hide Layered, Anc;
    var w := vtx + [x];
    forall k | 0 <= k < |w| ensures w[k] in m && Anc(m, w[k]) <= Elements(w[..k]) {
      assert w[..k] == vtx[..k];
      assert vtx[..|vtx|] == vtx;
    }
  }

  lemma TotalsNext(m: Pool, c: Config, b: Block, x: Tx, rest: set<Tx>)
    requires x in m && x !in b.inBlock && Totals(m, b) && x in rest && Fits(m, c, b, rest) && Within(c, b)
    ensures Totals(m, Added(m, b, x)) && Fits(m, c, Added(m, b, x), rest - {x}) && Within(c, Added(m, b, x))
  {
    hide Sum, Net;
    SumAdd(b.inBlock, x, WeightOf(m));
    SumAdd(b.inBlock, x, SigopsOf(m));
    SumAdd(b.inBlock, x, SerializedOf(m));
    NetAdd(b.inBlock, x, FeeOf(m));
    SumRemove(rest, x, WeightOf(m));
    SumRemove(rest, x, SigopsOf(m));
    SumRemove(rest, x, SerializedOf(m));
  }

  lemma AddKeeps(m: Pool, c: Config, b: Block, x: Tx, rest: set<Tx>)
    requires Good(m, c, b) && x in m && x !in b.inBlock && Anc(m, x) <= b.inBlock && x in rest && Fits(m, c, b, rest)
    ensures Good(m, c, Added(m, b, x)) && Fits(m, c, Added(m, b, x), rest - {x})
  {
    hide Ordered, Elements, Totals, Fits, Within, Layered, Anc;
    OrderedNext(m, b.vtx, x);
    TotalsNext(m, c, b, x, rest);
  }

  // Everything a block transaction depends on is in the block.
  lemma BlockClosed(m: Pool, c: Config, b: Block, x: Tx)
    requires Good(m, c, b) && x in b.inBlock
    ensures x in m && Anc(m, x) <= b.inBlock
  {
    hide Layered, Anc, Totals, Within;
    var k :| 0 <= k < |b.vtx| && b.vtx[k] == x;
    assert Anc(m, b.vtx[k]) <= Elements(b.vtx[..k]);
  }

  // --- Packages ---

  // What is left to add before x can be in the block: x and its missing ancestors.
  ghost function Missing(m: Pool, inBlock: set<Tx>, x: Tx): set<Tx>
    requires Layered(m) && x in m
  {
    Package(m, x) - inBlock
  }

  // The totals of a package as the assembler tracks them.
  datatype ModEntry = ModEntry(nSizeWithAncestors: int, nModFeesWithAncestors: int, nSigOpCostWithAncestors: int)

  function Cached(m: Pool, x: Tx): ModEntry
    requires x in m
  {
    ModEntry(m[x].sizeWithAncestors, m[x].modFeesWithAncestors, m[x].sigopsWithAncestors)
  }

  ghost predicate NoLess(m: Pool, e: ModEntry, pkg: set<Tx>) {
    e.nSizeWithAncestors >= Sum(pkg, SizeOf(m)) && e.nSigOpCostWithAncestors >= Sum(pkg, SigopsOf(m))
  }

  // Fees are exact unless the operator adjusted some.
  ghost predicate Exact(m: Pool, e: ModEntry, pkg: set<Tx>) {
    && e.nSizeWithAncestors == Sum(pkg, SizeOf(m)) && e.nSigOpCostWithAncestors == Sum(pkg, SigopsOf(m))
    && (Unadjusted(m) ==> e.nModFeesWithAncestors == Net(pkg, ModFeeOf(m)))
  }

  // All that x still needs, and perhaps ancestors that are in the block already.
  ghost predicate Spans(m: Pool, inBlock: set<Tx>, x: Tx, pkg: set<Tx>)
    requires Layered(m) && x in m
  {
    Missing(m, inBlock, x) <= pkg <= Package(m, x)
  }

  ghost predicate Covers(m: Pool, inBlock: set<Tx>, x: Tx, e: ModEntry)
    requires Layered(m) && x in m
  {
    exists pkg :: Spans(m, inBlock, x, pkg) && Exact(m, e, pkg)
  }

  /** The tracked totals cover what is missing, and they are exact unless the entry failed before. */
  ghost predicate Tracking(m: Pool, inBlock: set<Tx>, mod: map<Tx, ModEntry>, failed: set<Tx>)
    requires Layered(m)
  {
    && (forall k :: k in mod ==> k in m && k !in inBlock && Covers(m, inBlock, k, mod[k]))
    && (forall k :: k in mod && k !in failed ==> Exact(m, mod[k], Missing(m, inBlock, k)))
    && forall k :: k in m && k !in mod && k !in inBlock && k !in failed ==> Anc(m, k) !! inBlock
  }

  lemma CoversNoLess(m: Pool, inBlock: set<Tx>, x: Tx, e: ModEntry)
    requires Layered(m) && x in m && Covers(m, inBlock, x, e)
    ensures NoLess(m, e, Missing(m, inBlock, x))
  {
    hide Sum, Anc, Layered, Missing, Package, Net;
    var pkg :| Spans(m, inBlock, x, pkg) && Exact(m, e, pkg);
    SumSplit(pkg, Missing(m, inBlock, x), SizeOf(m));
    SumSplit(pkg, Missing(m, inBlock, x), SigopsOf(m));
  }

  // An entry straight from the pool covers what is missing too.
  lemma CachedCovers(m: Pool, inBlock: set<Tx>, x: Tx)
    requires Correct(m) && x in m
    ensures Covers(m, inBlock, x, Cached(m, x))
    ensures x !in inBlock && Anc(m, x) !! inBlock ==> Exact(m, Cached(m, x), Missing(m, inBlock, x))
  {
    hide Sum, Anc, Layered, Net;
    assert Spans(m, inBlock, x, Package(m, x)) && Exact(m, Cached(m, x), Package(m, x));
    if x !in inBlock && Anc(m, x) !! inBlock {
      assert Missing(m, inBlock, x) == Package(m, x);
    }
  }

  // A package is complete: every ancestor of a member is a member or in the block.
  ghost predicate Complete(m: Pool, inBlock: set<Tx>, pkg: set<Tx>)
    requires Layered(m)
  {
    forall x :: x in pkg ==> x in m && x !in inBlock && Anc(m, x) <= inBlock + pkg
  }

  lemma MissingComplete(m: Pool, inBlock: set<Tx>, x: Tx)
    requires Layered(m) && x in m
    ensures Complete(m, inBlock, Missing(m, inBlock, x))
  {
    forall y | y in Missing(m, inBlock, x) ensures y in m && Anc(m, y) <= inBlock + Missing(m, inBlock, x) {
      if y != x {
        AncBelow(m, x, y);
      }
    }
  }

  lemma PackageFits(m: Pool, c: Config, b: Block, e: ModEntry, pkg: set<Tx>)
    requires Correct(m) && (forall x :: x in pkg ==> x in m) && NoLess(m, e, pkg)
    requires b.nBlockWeight + WITNESS_SCALE_FACTOR * e.nSizeWithAncestors < c.nBlockMaxWeight
    requires b.nBlockSigOpsCost + e.nSigOpCostWithAncestors < MAX_BLOCK_SIGOPS_COST
    requires b.fNeedSizeAccounting ==> b.nBlockSize + Sum(pkg, SerializedOf(m)) < c.nBlockMaxSize
    ensures Fits(m, c, b, pkg)
  {
    SumScaled(pkg, WeightOf(m), SizeOf(m));
  }

  // --- Updating the tracked totals after an addition ---

  function Base(m: Pool, mod0: map<Tx, ModEntry>, k: Tx): ModEntry
    requires k in m
  {
    if k in mod0 then mod0[k] else Cached(m, k)
  }

  ghost predicate Reduced(m: Pool, mod0: map<Tx, ModEntry>, k: Tx, e: ModEntry, seen: set<Tx>)
    requires Layered(m) && k in m
  {
    && e.nSizeWithAncestors == Base(m, mod0, k).nSizeWithAncestors - Sum(Anc(m, k) * seen, SizeOf(m))
    && e.nSigOpCostWithAncestors == Base(m, mod0, k).nSigOpCostWithAncestors - Sum(Anc(m, k) * seen, SigopsOf(m))
    && (Unadjusted(m) ==> e.nModFeesWithAncestors == Base(m, mod0, k).nModFeesWithAncestors - Net(Anc(m, k) * seen, ModFeeOf(m)))
  }

  // `mod` is `mod0` with the members of `seen` taken off every descendant outside `added`; the descendants of
  // `it` that are in `done` have `it` taken off too.
  ghost predicate Midway(m: Pool, mod0: map<Tx, ModEntry>, mod: map<Tx, ModEntry>, added: set<Tx>, seen: set<Tx>,
                         it: Tx, done: set<Tx>)
    requires Layered(m)
  {
    && (forall k :: k in mod ==> k in m && k !in added && Reduced(m, mod0, k, mod[k], if k in done then seen + {it} else seen))
    && (forall k :: k in m ==> (k in mod <==> k in mod0 || (k !in added && (Anc(m, k) * seen != {} || k in done))))
  }

  predicate Unlisted(m: Pool, mod: map<Tx, ModEntry>, added: set<Tx>) {
    forall k :: k in mod ==> k in m && k !in added
  }

  ghost predicate Updated(m: Pool, mod0: map<Tx, ModEntry>, mod: map<Tx, ModEntry>, added: set<Tx>, seen: set<Tx>)
    requires Layered(m)
  {
    && (forall k :: k in mod ==> k in m && k !in added && Reduced(m, mod0, k, mod[k], seen))
    && (forall k :: k in m ==> (k in mod <==> k in mod0 || (k !in added && Anc(m, k) * seen != {})))
  }

  lemma UpdateStart(m: Pool, mod0: map<Tx, ModEntry>, added: set<Tx>)
    requires Layered(m) && Unlisted(m, mod0, added)
    ensures Updated(m, mod0, mod0, added, {})
  {
    hide Sum, Anc, Net, Layered, Unadjusted;
    NoSum(SizeOf(m));
    NoSum(SigopsOf(m));
    NoNet(ModFeeOf(m));
    forall k | k in m ensures Anc(m, k) * {} == {} {
    }
  }

  // The new value of a descendant: `it` is taken off.
  function Off(m: Pool, mod: map<Tx, ModEntry>, it: Tx, desc: Tx): ModEntry
    requires it in m && desc in m
  {
    if desc in mod then
      ModEntry(mod[desc].nSizeWithAncestors - m[it].size, mod[desc].nModFeesWithAncestors - m[it].fee,
               mod[desc].nSigOpCostWithAncestors - m[it].sigops)
    else
      var e := Cached(m, desc);
      ModEntry(e.nSizeWithAncestors - m[it].size, e.nModFeesWithAncestors - m[it].modFee, e.nSigOpCostWithAncestors - m[it].sigops)
  }

  /** Taking a member off exact fees leaves them exact only if the entry is new to the map or the member's fee is not adjusted. */
  lemma OffFeesIff(m: Pool, mod: map<Tx, ModEntry>, it: Tx, desc: Tx, pkg: set<Tx>)
    requires it in m && desc in m && it in pkg && Base(m, mod, desc).nModFeesWithAncestors == Net(pkg, ModFeeOf(m))
    ensures Off(m, mod, it, desc).nModFeesWithAncestors == Net(pkg - {it}, ModFeeOf(m)) <==> desc !in mod || m[it].fee == m[it].modFee
  {
    NetAdd(pkg - {it}, it, ModFeeOf(m));
    assert pkg - {it} + {it} == pkg;
  }

  // Two parents, the second adjusted by 100, and their child.
  const ADJUSTED: Pool := map[
    0 := Entry({}, 100, 400, 100, 4, 10, 10, true, false, 1, 100, 4, 10),
    1 := Entry({}, 100, 400, 100, 4, 10, 110, true, false, 1, 100, 4, 110),
    2 := Entry({0, 1}, 100, 400, 100, 4, 10, 10, true, false, 3, 300, 12, 130)]

  /** With both parents in the block, the child is taken to pay 110 although it counts for 10. */
  lemma FeesDrift()
    ensures var once := map[2 := Off(ADJUSTED, map[], 0, 2)];
            Off(ADJUSTED, once, 1, 2).nModFeesWithAncestors == 110 && ADJUSTED[2].modFee == 10
  {
  }

  lemma SumOneMore(a: set<Tx>, seen: set<Tx>, it: Tx, f: Tx -> nat)
    requires it in a && it !in seen
    ensures Sum(a * (seen + {it}), f) == Sum(a * seen, f) + f(it)
  {
    SumAdd(a * seen, it, f);
    assert a * (seen + {it}) == a * seen + {it};
  }

  lemma NetOneMore(a: set<Tx>, seen: set<Tx>, it: Tx, f: Tx -> int)
    requires it in a && it !in seen
    ensures Net(a * (seen + {it}), f) == Net(a * seen, f) + f(it)
  {
    NetAdd(a * seen, it, f);
    assert a * (seen + {it}) == a * seen + {it};
  }

  lemma OffReduces(m: Pool, mod0: map<Tx, ModEntry>, mod: map<Tx, ModEntry>, added: set<Tx>, seen: set<Tx>,
                   it: Tx, done: set<Tx>, desc: Tx)
    requires Layered(m) && Midway(m, mod0, mod, added, seen, it, done) && it in m && it !in seen
    requires desc in m && it in Anc(m, desc) && desc !in done && desc !in added
    ensures Reduced(m, mod0, desc, Off(m, mod, it, desc), seen + {it})
  {
    hide Sum, Anc, Layered, Midway, Net;
    SumOneMore(Anc(m, desc), seen, it, SizeOf(m));
    SumOneMore(Anc(m, desc), seen, it, SigopsOf(m));
    NetOneMore(Anc(m, desc), seen, it, ModFeeOf(m));
    NoSum(SizeOf(m));
    NoSum(SigopsOf(m));
    NoNet(ModFeeOf(m));
    MidwayAt(m, mod0, mod, added, seen, it, done, desc);
  }

  lemma MidwayAt(m: Pool, mod0: map<Tx, ModEntry>, mod: map<Tx, ModEntry>, added: set<Tx>, seen: set<Tx>,
                 it: Tx, done: set<Tx>, desc: Tx)
    requires Layered(m) && Midway(m, mod0, mod, added, seen, it, done) && desc in m && desc !in done && desc !in added
    ensures desc in mod ==> Reduced(m, mod0, desc, mod[desc], seen)
    ensures desc !in mod ==> desc !in mod0 && Anc(m, desc) * seen == {}
  {
    hide Anc, Layered, Reduced;
  }

  lemma MidwayNext(m: Pool, mod0: map<Tx, ModEntry>, mod: map<Tx, ModEntry>, added: set<Tx>, seen: set<Tx>,
                   it: Tx, done: set<Tx>, desc: Tx)
    requires Layered(m) && Midway(m, mod0, mod, added, seen, it, done) && it in m && it !in seen
    requires desc in m && it in Anc(m, desc) && desc !in done && desc !in added
    ensures Midway(m, mod0, mod[desc := Off(m, mod, it, desc)], added, seen, it, done + {desc})
  {
    hide Sum, Anc, Reduced, Off, Layered;
    OffReduces(m, mod0, mod, added, seen, it, done, desc);
    var mod' := mod[desc := Off(m, mod, it, desc)];
    forall k | k in mod' ensures k in m && k !in added && Reduced(m, mod0, k, mod'[k], if k in done + {desc} then seen + {it} else seen) {
      if k != desc {
        assert k in mod;
      }
    }
  }

  lemma MidwayStart(m: Pool, mod0: map<Tx, ModEntry>, mod: map<Tx, ModEntry>, added: set<Tx>, seen: set<Tx>, it: Tx)
    requires Layered(m) && Updated(m, mod0, mod, added, seen)
    ensures Midway(m, mod0, mod, added, seen, it, {})
  {
    hide Reduced, Anc, Layered;
  }

  lemma MidwayDone(m: Pool, mod0: map<Tx, ModEntry>, mod: map<Tx, ModEntry>, added: set<Tx>, seen: set<Tx>,
                   it: Tx, done: set<Tx>)
    requires Layered(m) && Midway(m, mod0, mod, added, seen, it, done)
    requires it in added && done == Desc(m, it) - added
    ensures Updated(m, mod0, mod, added, seen + {it})
  {
    hide Anc, Layered, Reduced;
    forall k | k in m && k !in added
      ensures k in done ==> it in Anc(m, k) * (seen + {it})
      ensures k !in done ==> Anc(m, k) * (seen + {it}) == Anc(m, k) * seen
    {
      DoneOrNot(m, added, seen, it, done, k);
    }
    forall k | k in mod ensures Reduced(m, mod0, k, mod[k], seen + {it}) {
      if k !in done {
        ReducedSame(m, mod0, k, mod[k], seen, seen + {it});
      }
    }
  }

  lemma DoneOrNot(m: Pool, added: set<Tx>, seen: set<Tx>, it: Tx, done: set<Tx>, k: Tx)
    requires Layered(m) && it in added && done == Desc(m, it) - added && k in m && k !in added
    ensures k in done ==> it in Anc(m, k) * (seen + {it})
    ensures k !in done ==> Anc(m, k) * (seen + {it}) == Anc(m, k) * seen
  {
  }

  lemma ReducedSame(m: Pool, mod0: map<Tx, ModEntry>, k: Tx, e: ModEntry, seen: set<Tx>, seen': set<Tx>)
    requires Layered(m) && k in m && Reduced(m, mod0, k, e, seen) && Anc(m, k) * seen == Anc(m, k) * seen'
    ensures Reduced(m, mod0, k, e, seen')
  {
  }

  // How many entries an addition updates: its descendants outside the added set.
  ghost function UpdatesOf(m: Pool, added: set<Tx>): Tx -> nat
    requires Layered(m)
  {
    x => |Desc(m, x) - added|
  }

  method UpdatePackagesForAdded(m: Pool, alreadyAdded: set<Tx>, mod0: map<Tx, ModEntry>)
      returns (nDescendantsUpdated: nat, mapModifiedTx: map<Tx, ModEntry>)
    requires Layered(m) && Unlisted(m, mod0, alreadyAdded) && alreadyAdded <= m.Keys
    ensures Updated(m, mod0, mapModifiedTx, alreadyAdded, alreadyAdded)
    ensures nDescendantsUpdated == Sum(alreadyAdded, UpdatesOf(m, alreadyAdded))
  {
    hide Layered, Anc, Updated, Unlisted, Sum, UpdatesOf;
    UpdateStart(m, mod0, alreadyAdded);
    NoSum(UpdatesOf(m, alreadyAdded));
    nDescendantsUpdated, mapModifiedTx := 0, mod0;
    var todo := alreadyAdded;
    Nothing(todo);
    while todo != {}
      invariant todo <= alreadyAdded && Updated(m, mod0, mapModifiedTx, alreadyAdded, alreadyAdded - todo)
      invariant nDescendantsUpdated == Sum(alreadyAdded - todo, UpdatesOf(m, alreadyAdded))
      decreases |todo|
    {
      var it :| it in todo;
      var n;
      n, mapModifiedTx := UpdateDescendants(m, alreadyAdded, mod0, mapModifiedTx, it, alreadyAdded - todo);
      nDescendantsUpdated := nDescendantsUpdated + n;
      OneDone(alreadyAdded, todo, it);
      PrefixSum(alreadyAdded, todo, it, UpdatesOf(m, alreadyAdded));
      todo := todo - {it};
    }
    AllDone(alreadyAdded);
  }

  lemma Nothing(s: set<Tx>)
    ensures s - s == {}
  {
  }

  lemma AllDone(s: set<Tx>)
    ensures s - {} == s
  {
  }

  lemma OneDone(s: set<Tx>, todo: set<Tx>, x: Tx)
    requires x in todo && todo <= s
    ensures s - (todo - {x}) == s - todo + {x}
  {
  }

  lemma PrefixSum(s: set<Tx>, todo: set<Tx>, x: Tx, f: Tx -> nat)
    requires x in todo && todo <= s
    ensures Sum(s - (todo - {x}), f) == Sum(s - todo, f) + f(x) <= Sum(s, f)
  {
    OneDone(s, todo, x);
    SumAdd(s - todo, x, f);
    SumSplit(s, s - todo + {x}, f);
  }

  method UpdateDescendants(m: Pool, alreadyAdded: set<Tx>, ghost mod0: map<Tx, ModEntry>, mod1: map<Tx, ModEntry>, it: Tx,
                           ghost seen: set<Tx>)
      returns (n: nat, mod: map<Tx, ModEntry>)
    requires Layered(m) && it in m && it !in seen && it in alreadyAdded && Updated(m, mod0, mod1, alreadyAdded, seen)
    ensures Updated(m, mod0, mod, alreadyAdded, seen + {it}) && n == UpdatesOf(m, alreadyAdded)(it)
  {
    hide Layered, Anc, Midway, Updated, Desc, Off;
    var descendants := CalculateDescendants(m, it);
    MidwayStart(m, mod0, mod1, alreadyAdded, seen, it);
    n, mod := 0, mod1;
    var todo := descendants;
    ghost var done: set<Tx> := {};
    while todo != {}
      invariant done !! todo && done + (todo - alreadyAdded) == Desc(m, it) - alreadyAdded
      invariant Midway(m, mod0, mod, alreadyAdded, seen, it, done) && n == |done|
      decreases |todo|
    {
      var desc :| desc in todo;
      MoveOne(done, todo, alreadyAdded, desc);
      todo := todo - {desc};
      if desc !in alreadyAdded {
        Below(m, it, desc);
        MidwayNext(m, mod0, mod, alreadyAdded, seen, it, done, desc);
        n := n + 1;
        mod := mod[desc := Off(m, mod, it, desc)];
        done := done + {desc};
      }
    }
    MidwayDone(m, mod0, mod, alreadyAdded, seen, it, done);
  }

  lemma Below(m: Pool, it: Tx, desc: Tx)
    requires Layered(m) && desc in Desc(m, it) && desc != it
    ensures desc in m && it in Anc(m, desc)
  {
  }

  lemma MoveOne(done: set<Tx>, todo: set<Tx>, added: set<Tx>, x: Tx)
    requires x in todo && done !! todo
    ensures done + {x} !! todo - {x}
    ensures x in added ==> todo - {x} - added == todo - added
    ensures x !in added ==> (done + {x}) + (todo - {x} - added) == done + (todo - added) && x in done + (todo - added)
  {
  }

  ghost predicate Closed(m: Pool, inBlock: set<Tx>)
    requires Layered(m)
  {
    forall x :: x in inBlock ==> x in m && Anc(m, x) <= inBlock
  }

  // What is taken off the totals is taken off what they count.
  lemma ExactLess(m: Pool, e: ModEntry, e': ModEntry, pkg: set<Tx>, off: set<Tx>)
    requires Exact(m, e, pkg) && off <= pkg
    requires e'.nSizeWithAncestors == e.nSizeWithAncestors - Sum(off, SizeOf(m))
    requires e'.nSigOpCostWithAncestors == e.nSigOpCostWithAncestors - Sum(off, SigopsOf(m))
    requires Unadjusted(m) ==> e'.nModFeesWithAncestors == e.nModFeesWithAncestors - Net(off, ModFeeOf(m))
    ensures Exact(m, e', pkg - off)
  {
    hide Sum, Net;
    SumSplit(pkg, off, SizeOf(m));
    SumSplit(pkg, off, SigopsOf(m));
    NetSplit(pkg, off, ModFeeOf(m));
  }

  // Adding a complete package takes exactly its members off what is missing.
  lemma MissingAfter(m: Pool, inBlock: set<Tx>, pkg: set<Tx>, k: Tx)
    requires Layered(m) && Complete(m, inBlock, pkg) && k in m && k !in pkg
    ensures Missing(m, inBlock + pkg, k) == Missing(m, inBlock, k) - Anc(m, k) * pkg && Anc(m, k) * pkg <= Missing(m, inBlock, k)
  {
    hide Anc, Layered;
  }

  lemma SpansAfter(m: Pool, inBlock: set<Tx>, pkg: set<Tx>, k: Tx, q: set<Tx>)
    requires Layered(m) && Complete(m, inBlock, pkg) && k in m && k !in pkg && Spans(m, inBlock, k, q)
    ensures Anc(m, k) * pkg <= q && Spans(m, inBlock + pkg, k, q - Anc(m, k) * pkg)
  {
    hide Anc, Layered, Complete, Missing, Package;
    MissingAfter(m, inBlock, pkg, k);
  }

  lemma KeyAfter(m: Pool, inBlock: set<Tx>, mod: map<Tx, ModEntry>, e: ModEntry, failed: set<Tx>, pkg: set<Tx>, k: Tx)
    requires Correct(m) && Tracking(m, inBlock, mod, failed) && Complete(m, inBlock, pkg) && k in m && k !in pkg && k !in inBlock
    requires Reduced(m, mod - pkg, k, e, pkg)
    ensures Covers(m, inBlock + pkg, k, e)
    ensures k !in failed ==> Exact(m, e, Missing(m, inBlock + pkg, k))
  {
    hide Correct, Sum, Anc, Layered, Complete, Missing, Package, Net, Spans, Exact;
    CorrectLayered(m);
    CachedCovers(m, inBlock, k);
    var base, off := Base(m, mod - pkg, k), Anc(m, k) * pkg;
    assert Covers(m, inBlock, k, base);
    var q :| Spans(m, inBlock, k, q) && Exact(m, base, q);
    SpansAfter(m, inBlock, pkg, k, q);
    ExactLess(m, base, e, q, off);
    if k !in failed {
      MissingAfter(m, inBlock, pkg, k);
      ExactLess(m, base, e, Missing(m, inBlock, k), off);
    }
  }

  lemma NewKeyFresh(m: Pool, inBlock: set<Tx>, pkg: set<Tx>, k: Tx)
    requires Layered(m) && Closed(m, inBlock) && Complete(m, inBlock, pkg) && k in m && Anc(m, k) * pkg != {}
    ensures k !in inBlock
  {
    hide Anc, Layered;
    var y :| y in Anc(m, k) * pkg;
  }

  lemma TrackingKeeps(m: Pool, inBlock: set<Tx>, mod: map<Tx, ModEntry>, mod': map<Tx, ModEntry>, failed: set<Tx>, pkg: set<Tx>)
    requires Correct(m) && Closed(m, inBlock) && Tracking(m, inBlock, mod, failed) && Complete(m, inBlock, pkg)
    requires Updated(m, mod - pkg, mod', pkg, pkg)
    ensures Tracking(m, inBlock + pkg, mod', failed)
  {
    hide Correct, Layered, Anc, Closed, Complete, Missing, Covers, Exact, Updated;
    CorrectLayered(m);
    forall k | k in mod'
      ensures k in m && k !in inBlock + pkg && Covers(m, inBlock + pkg, k, mod'[k])
      ensures k !in failed ==> Exact(m, mod'[k], Missing(m, inBlock + pkg, k))
    {
      ListedAfter(m, inBlock, mod, mod', failed, pkg, k);
    }
    forall k | k in m && k !in mod' && k !in inBlock + pkg && k !in failed ensures Anc(m, k) !! inBlock + pkg {
      UnlistedAfter(m, inBlock, mod, mod', failed, pkg, k);
    }
  }

  lemma CorrectLayered(m: Pool)
    requires Correct(m)
    ensures Layered(m)
  {
  }

  lemma ListedAfter(m: Pool, inBlock: set<Tx>, mod: map<Tx, ModEntry>, mod': map<Tx, ModEntry>, failed: set<Tx>, pkg: set<Tx>, k: Tx)
    requires Correct(m) && Closed(m, inBlock) && Tracking(m, inBlock, mod, failed) && Complete(m, inBlock, pkg)
    requires Updated(m, mod - pkg, mod', pkg, pkg) && k in mod'
    ensures k in m && k !in inBlock + pkg && Covers(m, inBlock + pkg, k, mod'[k])
    ensures k !in failed ==> Exact(m, mod'[k], Missing(m, inBlock + pkg, k))
  {
    hide Layered, Anc, Closed, Complete, Missing, Covers, Exact, Reduced;
    if k !in mod {
      NewKeyFresh(m, inBlock, pkg, k);
    }
    KeyAfter(m, inBlock, mod, mod'[k], failed, pkg, k);
  }

  lemma UnlistedAfter(m: Pool, inBlock: set<Tx>, mod: map<Tx, ModEntry>, mod': map<Tx, ModEntry>, failed: set<Tx>, pkg: set<Tx>, k: Tx)
    requires Layered(m) && Tracking(m, inBlock, mod, failed) && Updated(m, mod - pkg, mod', pkg, pkg)
    requires k in m && k !in mod' && k !in inBlock + pkg && k !in failed
    ensures Anc(m, k) !! inBlock + pkg
  {
    hide Layered, Anc, Missing, Covers, Exact, Reduced;
    Apart(Anc(m, k), inBlock, pkg);
  }

  lemma Apart(a: set<Tx>, s: set<Tx>, t: set<Tx>)
    requires a !! s && a * t == {}
    ensures a !! s + t
  {
    assert forall x :: x in a && x in t ==> x in a * t;
  }

  // A failed entry is dropped and remembered.
  lemma FailKeeps(m: Pool, inBlock: set<Tx>, mod: map<Tx, ModEntry>, failed: set<Tx>, x: Tx)
    requires Layered(m) && Tracking(m, inBlock, mod, failed)
    ensures Tracking(m, inBlock, mod - {x}, failed + {x})
  {
    hide Layered, Anc, Missing, Covers, Exact;
  }

  lemma TrackingStart(m: Pool)
    requires Layered(m)
    ensures Tracking(m, {}, map[], {})
  {
  }

  lemma GoodClosed(m: Pool, c: Config, b: Block)
    requires Good(m, c, b)
    ensures Layered(m) && Closed(m, b.inBlock) && b.inBlock <= m.Keys && Complete(m, {}, b.inBlock)
  {
    hide Layered, Anc, Ordered, Elements, Totals, Within;
    forall x | x in b.inBlock ensures x in m && Anc(m, x) <= b.inBlock {
      BlockClosed(m, c, b, x);
    }
  }

  // --- Ordering a package ---

  ghost predicate Sorted(m: Pool, s: seq<Tx>) {
    forall j, k :: 0 <= j < k < |s| ==> s[j] in m && s[k] in m && m[s[j]].countWithAncestors <= m[s[k]].countWithAncestors
  }

  method Least(m: Pool, package: set<Tx>) returns (x: Tx)
    requires package != {} && package <= m.Keys
    ensures x in package && forall y :: y in package ==> m[x].countWithAncestors <= m[y].countWithAncestors
  {
    x :| x in package;
    var todo := package - {x};
    while todo != {}
      invariant x in package && todo <= package
      invariant forall y :: y in package && y !in todo ==> m[x].countWithAncestors <= m[y].countWithAncestors
      decreases |todo|
    {
      var y :| y in todo;
      if m[y].countWithAncestors < m[x].countWithAncestors {
        x := y;
      }
      todo := todo - {y};
    }
  }

  // Every member once, by rising ancestor count.
  method SortForBlock(m: Pool, package: set<Tx>) returns (sortedEntries: seq<Tx>)
    requires package <= m.Keys
    ensures Elements(sortedEntries) == package && Distinct(sortedEntries) && Sorted(m, sortedEntries)
  {
    hide Elements, Distinct, Sorted, AllBelow;
    sortedEntries := [];
    var rest := package;
    SortStart(m, package);
    while rest != {}
      invariant rest <= package && Elements(sortedEntries) == package - rest
      invariant Distinct(sortedEntries) && Sorted(m, sortedEntries) && AllBelow(m, sortedEntries, rest)
      decreases |rest|
    {
      var x := Least(m, rest);
      SortNext(m, sortedEntries, rest, x);
      Appended(sortedEntries, x);
      OneDone(package, rest, x);
      sortedEntries := sortedEntries + [x];
      rest := rest - {x};
    }
    AllDone(package);
  }

  // No member of s has more ancestors than one of the rest.
  ghost predicate AllBelow(m: Pool, s: seq<Tx>, rest: set<Tx>) {
    forall j :: 0 <= j < |s| ==> s[j] in m && forall y :: y in rest ==> y in m && m[s[j]].countWithAncestors <= m[y].countWithAncestors
  }

  lemma SortStart(m: Pool, package: set<Tx>)
    ensures Elements<Tx>([]) == {} && Distinct<Tx>([]) && Sorted(m, []) && AllBelow(m, [], package) && package - package == {}
  {
  }

  lemma SortNext(m: Pool, s: seq<Tx>, rest: set<Tx>, x: Tx)
    requires Distinct(s) && Sorted(m, s) && AllBelow(m, s, rest) && x in rest && x !in Elements(s) && rest <= m.Keys
    requires forall y :: y in rest ==> m[x].countWithAncestors <= m[y].countWithAncestors
    ensures Distinct(s + [x]) && Sorted(m, s + [x]) && AllBelow(m, s + [x], rest - {x})
  {
  }

  lemma Appended(s: seq<Tx>, x: Tx)
    ensures Elements(s + [x]) == Elements(s) + {x}
  {
  }

  // In that order, an entry's ancestors are in the block or come before it.
  lemma AncestorsFirst(m: Pool, inBlock: set<Tx>, pkg: set<Tx>, s: seq<Tx>, i: nat)
    requires Layered(m) && Complete(m, inBlock, pkg) && Elements(s) == pkg && Sorted(m, s) && i < |s|
    ensures s[i] in m && s[i] in pkg && s[i] !in inBlock && Anc(m, s[i]) <= inBlock + Elements(s[..i])
  {
    hide Anc, Layered;
    assert s[i] in pkg;
    forall a | a in Anc(m, s[i]) ensures a in inBlock + Elements(s[..i]) {
      AncBelow(m, s[i], a);
      if a !in inBlock {
        assert a in Elements(s);
        var j :| 0 <= j < |s| && s[j] == a;
        assert s[..i][j] == a;
      }
    }
  }

  // One more of the sorted package goes in.
  lemma PackageStep(m: Pool, c: Config, b: Block, inBlock: set<Tx>, pkg: set<Tx>, s: seq<Tx>, i: nat)
    requires Good(m, c, b) && Complete(m, inBlock, pkg) && Elements(s) == pkg && Distinct(s) && Sorted(m, s) && i < |s|
    requires b.inBlock == inBlock + Elements(s[..i]) && Fits(m, c, b, pkg - Elements(s[..i]))
    ensures s[i] in m && Good(m, c, Added(m, b, s[i]))
    ensures Elements(s[..i + 1]) == Elements(s[..i]) + {s[i]}
    ensures Added(m, b, s[i]).inBlock == inBlock + Elements(s[..i + 1])
    ensures Fits(m, c, Added(m, b, s[i]), pkg - Elements(s[..i + 1]))
  {
    hide Good, Correct, Complete, Anc, Layered, Fits, Sorted, Distinct, Elements;
    GoodClosed(m, c, b);
    AncestorsFirst(m, inBlock, pkg, s, i);
    NotYet(s, i);
    AddKeeps(m, c, b, s[i], pkg - Elements(s[..i]));
    Shrink(pkg, Elements(s[..i]), s[i]);
  }

  lemma NotYet(s: seq<Tx>, i: nat)
    requires Distinct(s) && i < |s|
    ensures s[i] !in Elements(s[..i]) && Elements(s[..i + 1]) == Elements(s[..i]) + {s[i]}
  {
    Appended(s[..i], s[i]);
    assert s[..i + 1] == s[..i] + [s[i]];
  }

  lemma Shrink(a: set<Tx>, e: set<Tx>, x: Tx)
    ensures a - e - {x} == a - (e + {x})
  {
  }

  // --- What is left out ---

  /** The tests a package must pass, on the sums themselves. */
  ghost predicate Takes(m: Pool, c: Config, segwit: bool, sizes: bool, inBlock: set<Tx>, pkg: set<Tx>) {
    && 4000 + Sum(inBlock, WeightOf(m)) + WITNESS_SCALE_FACTOR * Sum(pkg, SizeOf(m)) < c.nBlockMaxWeight
    && 400 + Sum(inBlock, SigopsOf(m)) + Sum(pkg, SigopsOf(m)) < MAX_BLOCK_SIGOPS_COST
    && (sizes ==> 1000 + Sum(inBlock, SerializedOf(m)) + Sum(pkg, SerializedOf(m)) < c.nBlockMaxSize)
    && forall x :: x in pkg && x in m ==> m[x].isFinal && (segwit || !m[x].hasWitness)
  }

  ghost predicate RejectedAt(m: Pool, c: Config, segwit: bool, sizes: bool, before: seq<Tx>, x: Tx) {
    && Layered(m) && x in m && x !in Elements(before)
    && !Takes(m, c, segwit, sizes, Elements(before), Missing(m, Elements(before), x))
  }

  /** At some point of the filling, x with what it still needed did not pass. */
  ghost predicate Rejected(m: Pool, c: Config, segwit: bool, sizes: bool, vtx: seq<Tx>, x: Tx) {
    exists j :: 0 <= j <= |vtx| && RejectedAt(m, c, segwit, sizes, vtx[..j], x)
  }

  lemma RejectedLater(m: Pool, c: Config, segwit: bool, sizes: bool, vtx: seq<Tx>, vtx': seq<Tx>, x: Tx)
    requires vtx <= vtx' && Rejected(m, c, segwit, sizes, vtx, x)
    ensures Rejected(m, c, segwit, sizes, vtx', x)
  {
    hide RejectedAt;
    var j :| 0 <= j <= |vtx| && RejectedAt(m, c, segwit, sizes, vtx[..j], x);
    assert vtx'[..j] == vtx[..j];
  }

  // A failed test on exact totals is a rejection.
  lemma RejectedNow(m: Pool, c: Config, b: Block, segwit: bool, x: Tx, e: ModEntry)
    requires Good(m, c, b) && x in m && x !in b.inBlock && Exact(m, e, Missing(m, b.inBlock, x))
    requires var pkg := Missing(m, b.inBlock, x);
             || b.nBlockWeight + WITNESS_SCALE_FACTOR * e.nSizeWithAncestors >= c.nBlockMaxWeight
             || b.nBlockSigOpsCost + e.nSigOpCostWithAncestors >= MAX_BLOCK_SIGOPS_COST
             || (b.fNeedSizeAccounting && b.nBlockSize + Sum(pkg, SerializedOf(m)) >= c.nBlockMaxSize)
             || exists y :: y in pkg && y in m && !(m[y].isFinal && (segwit || !m[y].hasWitness))
    ensures Rejected(m, c, segwit, b.fNeedSizeAccounting, b.vtx, x)
  {
    hide Layered, Ordered, Sum, Missing, Within, Elements;
    assert b.vtx[..|b.vtx|] == b.vtx;
    assert RejectedAt(m, c, segwit, b.fNeedSizeAccounting, b.vtx[..|b.vtx|], x);
  }

  // Everything up to place mi of the pool is in the block, waiting among the modified entries or rejected, except `open`.
  ghost predicate Considered(m: Pool, c: Config, segwit: bool, b: Block, mod: map<Tx, ModEntry>, failed: set<Tx>, mapTx: seq<Tx>, mi: nat,
                             open: set<Tx>)
  {
    && (forall k :: 0 <= k < mi && k < |mapTx| ==>
          mapTx[k] in b.inBlock || mapTx[k] in mod || mapTx[k] in open || Rejected(m, c, segwit, b.fNeedSizeAccounting, b.vtx, mapTx[k]))
    && forall x :: x in failed ==> Rejected(m, c, segwit, b.fNeedSizeAccounting, b.vtx, x)
  }

  lemma ConsiderSkip(m: Pool, c: Config, segwit: bool, b: Block, mod: map<Tx, ModEntry>, failed: set<Tx>, mapTx: seq<Tx>, mi: nat)
    requires Considered(m, c, segwit, b, mod, failed, mapTx, mi, {}) && mi < |mapTx|
    requires mapTx[mi] in mod || mapTx[mi] in b.inBlock || mapTx[mi] in failed
    ensures Considered(m, c, segwit, b, mod, failed, mapTx, mi + 1, {})
  {
    hide Rejected;
  }

  lemma ConsiderPick(m: Pool, c: Config, segwit: bool, b: Block, mod: map<Tx, ModEntry>, failed: set<Tx>, mapTx: seq<Tx>, mi: nat, x: Tx)
    requires Considered(m, c, segwit, b, mod, failed, mapTx, mi, {})
    ensures Considered(m, c, segwit, b, mod, failed, mapTx, mi, {x})
    ensures mi < |mapTx| && x == mapTx[mi] ==> Considered(m, c, segwit, b, mod, failed, mapTx, mi + 1, {x})
  {
    hide Rejected;
  }

  lemma ConsiderFail(m: Pool, c: Config, segwit: bool, b: Block, mod: map<Tx, ModEntry>, failed: set<Tx>, mapTx: seq<Tx>, mi: nat, x: Tx)
    requires Considered(m, c, segwit, b, mod, failed, mapTx, mi, {x}) && Rejected(m, c, segwit, b.fNeedSizeAccounting, b.vtx, x)
    ensures Considered(m, c, segwit, b, mod, failed, mapTx, mi, {})
    ensures Considered(m, c, segwit, b, mod - {x}, failed + {x}, mapTx, mi, {})
  {
    hide Rejected;
  }

  lemma ConsiderTake(m: Pool, c: Config, segwit: bool, b: Block, b': Block, mod: map<Tx, ModEntry>, mod': map<Tx, ModEntry>, failed: set<Tx>,
                     mapTx: seq<Tx>, mi: nat, x: Tx)
    requires Considered(m, c, segwit, b, mod, failed, mapTx, mi, {x}) && b'.fNeedSizeAccounting == b.fNeedSizeAccounting
    requires b.vtx <= b'.vtx && b.inBlock <= b'.inBlock && x in b'.inBlock && mod.Keys <= mod'.Keys + b'.inBlock
    ensures Considered(m, c, segwit, b', mod', failed, mapTx, mi, {})
  {
    hide Rejected;
    forall y | Rejected(m, c, segwit, b.fNeedSizeAccounting, b.vtx, y)
      ensures Rejected(m, c, segwit, b.fNeedSizeAccounting, b'.vtx, y)
    {
      RejectedLater(m, c, segwit, b.fNeedSizeAccounting, b.vtx, b'.vtx, y);
    }
  }

  /** There is room for the whole pool and nothing in it is unfit. */
  ghost predicate RoomForAll(m: Pool, c: Config, segwit: bool, sizes: bool) {
    && 4000 + WITNESS_SCALE_FACTOR * Sum(m.Keys, SizeOf(m)) < c.nBlockMaxWeight
    && 400 + Sum(m.Keys, SigopsOf(m)) < MAX_BLOCK_SIGOPS_COST
    && (sizes ==> 1000 + Sum(m.Keys, SerializedOf(m)) < c.nBlockMaxSize)
    && forall x :: x in m ==> m[x].isFinal && (segwit || !m[x].hasWitness)
  }

  lemma SumApart(all: set<Tx>, a: set<Tx>, b: set<Tx>, f: Tx -> nat)
    requires a <= all && b <= all && a !! b
    ensures Sum(a, f) + Sum(b, f) <= Sum(all, f)
  {
    hide Sum;
    SumSplit(all, a, f);
    SumSplit(all - a, b, f);
  }

  /** With room for all, nothing is ever rejected. */
  lemma NothingRejected(m: Pool, c: Config, segwit: bool, sizes: bool, vtx: seq<Tx>, x: Tx)
    requires Correct(m) && RoomForAll(m, c, segwit, sizes) && Elements(vtx) <= m.Keys
    ensures !Rejected(m, c, segwit, sizes, vtx, x)
  {
    hide Sum, Layered, Anc;
    forall j | 0 <= j <= |vtx| ensures !RejectedAt(m, c, segwit, sizes, vtx[..j], x) {
      if Layered(m) && x in m {
        RoomStays(m, c, segwit, sizes, vtx[..j], x);
      }
    }
  }

  lemma RoomStays(m: Pool, c: Config, segwit: bool, sizes: bool, before: seq<Tx>, x: Tx)
    requires Correct(m) && RoomForAll(m, c, segwit, sizes) && Elements(before) <= m.Keys && x in m
    ensures Takes(m, c, segwit, sizes, Elements(before), Missing(m, Elements(before), x))
  {
    hide Sum, Correct, Layered, Anc, Elements, Missing;
    CorrectLayered(m);
    var a := Elements(before);
    var pkg := Missing(m, a, x);
    MissingInside(m, a, x);
    SumApart(m.Keys, a, pkg, SizeOf(m));
    SumApart(m.Keys, a, pkg, SigopsOf(m));
    SumApart(m.Keys, a, pkg, SerializedOf(m));
    WeightCovered(m, a);
  }

  lemma MissingInside(m: Pool, a: set<Tx>, x: Tx)
    requires Layered(m) && x in m
    ensures Missing(m, a, x) <= m.Keys && Missing(m, a, x) !! a
  {
    MissingComplete(m, a, x);
    hide Layered, Anc;
  }

  lemma WeightCovered(m: Pool, a: set<Tx>)
    requires Correct(m) && a <= m.Keys
    ensures Sum(a, WeightOf(m)) <= WITNESS_SCALE_FACTOR * Sum(a, SizeOf(m))
  {
    hide Sum, Layered;
    SumScaled(a, WeightOf(m), SizeOf(m));
  }

  // How many transactions of the pool are not in the block.
  ghost function Remaining(m: Pool, inBlock: set<Tx>): nat { |m.Keys - inBlock| }

  ghost function Listed(mod: map<Tx, ModEntry>): nat { |mod| }

  // --- Fees ---

  ghost predicate Pays(m: Pool, c: Config, pkg: set<Tx>) { Net(pkg, ModFeeOf(m)) >= c.minFee(Sum(pkg, SizeOf(m))) }

  /** Whatever is in the block already, what an entry still needs pays enough. */
  ghost predicate AllPay(m: Pool, c: Config) {
    Layered(m) && forall s, x :: Closed(m, s) && x in m && x !in s ==> Pays(m, c, Missing(m, s, x))
  }

  // The order of packages by fee rate.
  predicate Better(a: ModEntry, b: ModEntry) {
    a.nModFeesWithAncestors * b.nSizeWithAncestors > b.nModFeesWithAncestors * a.nSizeWithAncestors
  }

  ghost predicate NoBetter(m: Pool, p: set<Tx>, q: set<Tx>) {
    Net(p, ModFeeOf(m)) * Sum(q, SizeOf(m)) <= Net(q, ModFeeOf(m)) * Sum(p, SizeOf(m))
  }

  // The pool's index by fee rate with ancestors, best first.
  ghost predicate Ranked(m: Pool, mapTx: seq<Tx>) {
    && (forall x :: x in m ==> m[x].size >= 1) && (forall k :: 0 <= k < |mapTx| ==> mapTx[k] in m)
    && forall i, j :: 0 <= i < j < |mapTx| ==> !Better(Cached(m, mapTx[j]), Cached(m, mapTx[i]))
  }

  // What was counted for x with vtx in the block: what it still needed, unless it had been rejected before.
  ghost predicate Counts(m: Pool, c: Config, segwit: bool, sizes: bool, vtx: seq<Tx>, x: Tx, pkg: set<Tx>) {
    && Layered(m) && x in m && x !in Elements(vtx) && Spans(m, Elements(vtx), x, pkg)
    && (pkg == Missing(m, Elements(vtx), x) || Rejected(m, c, segwit, sizes, vtx, x))
  }

  /** The package of x went in after `before`, and what was counted for it paid enough. */
  ghost predicate PaidOne(m: Pool, c: Config, segwit: bool, sizes: bool, before: seq<Tx>, vtx: seq<Tx>, x: Tx, pkg: set<Tx>) {
    && before <= vtx && Counts(m, c, segwit, sizes, before, x, pkg)
    && Elements(vtx) == Elements(before) + Missing(m, Elements(before), x)
    && (Unadjusted(m) ==> Pays(m, c, pkg))
  }

  /** vtx0 and then exactly n packages that paid. */
  ghost predicate Paid(m: Pool, c: Config, segwit: bool, sizes: bool, vtx0: seq<Tx>, vtx: seq<Tx>, n: nat)
    decreases n
  {
    if n == 0 then vtx == vtx0
    else exists j, x, pkg :: 0 <= j <= |vtx| && Paid(m, c, segwit, sizes, vtx0, vtx[..j], n - 1) && PaidOne(m, c, segwit, sizes, vtx[..j], vtx, x, pkg)
  }

  lemma PaidNone(m: Pool, c: Config, segwit: bool, sizes: bool, vtx: seq<Tx>)
    ensures Paid(m, c, segwit, sizes, vtx, vtx, 0)
  {
  }

  lemma PaidNext(m: Pool, c: Config, segwit: bool, sizes: bool, vtx0: seq<Tx>, before: seq<Tx>, vtx: seq<Tx>, n: nat, x: Tx, pkg: set<Tx>)
    requires Paid(m, c, segwit, sizes, vtx0, before, n) && PaidOne(m, c, segwit, sizes, before, vtx, x, pkg)
    ensures Paid(m, c, segwit, sizes, vtx0, vtx, n + 1)
  {
    hide Counts, Pays, Missing, Layered;
    assert vtx[..|before|] == before;
  }

  // --- How the selection ends ---

  datatype Stop = Exhausted | LowFee | NearlyFull

  // x came up and pays too little; under the fee-rate order nothing that is left pays a better rate.
  ghost predicate TooCheap(m: Pool, c: Config, segwit: bool, b: Block, mapTx: seq<Tx>, x: Tx, pkg: set<Tx>) {
    && Counts(m, c, segwit, b.fNeedSizeAccounting, b.vtx, x, pkg)
    && (Unadjusted(m) ==> !Pays(m, c, pkg))
    && (Unadjusted(m) && Ranked(m, mapTx) ==> forall k :: 0 <= k < |mapTx| ==> Outranked(m, c, segwit, b, mapTx[k], pkg))
  }

  ghost predicate Outranked(m: Pool, c: Config, segwit: bool, b: Block, y: Tx, pkg: set<Tx>) {
    Layered(m) && y in m &&
    (y in Elements(b.vtx) || Rejected(m, c, segwit, b.fNeedSizeAccounting, b.vtx, y) || NoBetter(m, Missing(m, Elements(b.vtx), y), pkg))
  }

  // x came up and what was counted for it is too much for the block.
  ghost predicate TooBig(m: Pool, c: Config, segwit: bool, b: Block, x: Tx) {
    exists pkg :: Counts(m, c, segwit, b.fNeedSizeAccounting, b.vtx, x, pkg)
                  && (|| b.nBlockWeight + WITNESS_SCALE_FACTOR * Sum(pkg, SizeOf(m)) >= c.nBlockMaxWeight
                      || b.nBlockSigOpsCost + Sum(pkg, SigopsOf(m)) >= MAX_BLOCK_SIGOPS_COST)
  }

  /**
   * What each ending means: nothing of the pool is left that is neither in the block nor rejected; or a candidate pays
   * less than the minimum; or the block is nearly full and 1001 entries in a row were too big for it.
   */
  ghost predicate Ended(m: Pool, c: Config, segwit: bool, b: Block, mapTx: seq<Tx>, why: Stop) {
    match why
    case Exhausted =>
      forall k :: 0 <= k < |mapTx| ==> mapTx[k] in b.inBlock || Rejected(m, c, segwit, b.fNeedSizeAccounting, b.vtx, mapTx[k])
    case LowFee =>
      exists x, pkg :: TooCheap(m, c, segwit, b, mapTx, x, pkg)
    case NearlyFull =>
      && b.nBlockWeight > c.nBlockMaxWeight - 4000 && (exists x :: Rejected(m, c, segwit, b.fNeedSizeAccounting, b.vtx, x))
      && (Distinct(mapTx) ==> exists row: set<Tx> :: |row| == 1001 && forall x :: x in row ==> TooBig(m, c, segwit, b, x))
  }

  lemma EndLowFee(m: Pool, c: Config, segwit: bool, b: Block, mapTx: seq<Tx>, x: Tx, pkg: set<Tx>)
    requires TooCheap(m, c, segwit, b, mapTx, x, pkg)
    ensures Ended(m, c, segwit, b, mapTx, LowFee)
  {
    hide TooCheap;
  }

  // The entries that came up since the last addition and were too big. None of them comes up again.
  ghost predicate Row(m: Pool, c: Config, segwit: bool, b: Block, mod: map<Tx, ModEntry>, failed: set<Tx>, mapTx: seq<Tx>, mi: nat,
                      row: set<Tx>, n: nat)
  {
    && |row| == n && (b.nBlockWeight > c.nBlockMaxWeight - 4000 ==> n <= MAX_CONSECUTIVE_FAILURES)
    && forall x :: x in row ==> TooBig(m, c, segwit, b, x) && x !in mod && (x in failed || forall k :: mi <= k < |mapTx| ==> mapTx[k] != x)
  }

  lemma RowStart(m: Pool, c: Config, segwit: bool, b: Block, mod: map<Tx, ModEntry>, failed: set<Tx>, mapTx: seq<Tx>, mi: nat)
    ensures Row(m, c, segwit, b, mod, failed, mapTx, mi, {}, 0)
  {
  }

  lemma RowLater(m: Pool, c: Config, segwit: bool, b: Block, mod: map<Tx, ModEntry>, failed: set<Tx>, mapTx: seq<Tx>, mi: nat, row: set<Tx>, n: nat,
                 mod': map<Tx, ModEntry>, failed': set<Tx>, mi': nat)
    requires Row(m, c, segwit, b, mod, failed, mapTx, mi, row, n) && mod'.Keys <= mod.Keys && failed <= failed' && mi <= mi'
    ensures Row(m, c, segwit, b, mod', failed', mapTx, mi', row, n)
  {
    hide TooBig;
  }

  // One more: it came from the modified entries and is remembered as failed, or it came from the pool's order.
  lemma RowNext(m: Pool, c: Config, segwit: bool, b: Block, mod: map<Tx, ModEntry>, failed: set<Tx>, mapTx: seq<Tx>, mi: nat, row: set<Tx>, n: nat,
                x: Tx, modified: bool)
    requires Row(m, c, segwit, b, mod, failed, mapTx, mi, row, n) && TooBig(m, c, segwit, b, x) && Distinct(mapTx)
    requires if modified then x in mod else mi < |mapTx| && x == mapTx[mi] && x !in mod && x !in failed
    ensures |row + {x}| == n + 1 && (b.nBlockWeight > c.nBlockMaxWeight - 4000 ==> n <= MAX_CONSECUTIVE_FAILURES)
    ensures n < MAX_CONSECUTIVE_FAILURES || b.nBlockWeight <= c.nBlockMaxWeight - 4000 ==>
              Row(m, c, segwit, b, if modified then mod - {x} else mod, if modified then failed + {x} else failed, mapTx, if modified then mi else mi + 1,
                  row + {x}, n + 1)
    ensures forall y :: y in row + {x} ==> TooBig(m, c, segwit, b, y)
  {
    hide TooBig;
    assert x !in row;
  }

  lemma EndNearlyFull(m: Pool, c: Config, segwit: bool, b: Block, mapTx: seq<Tx>, x: Tx, row: set<Tx>)
    requires b.nBlockWeight > c.nBlockMaxWeight - 4000 && Rejected(m, c, segwit, b.fNeedSizeAccounting, b.vtx, x)
    requires Distinct(mapTx) ==> |row| == 1001 && forall y :: y in row ==> TooBig(m, c, segwit, b, y)
    ensures Ended(m, c, segwit, b, mapTx, NearlyFull)
  {
    hide Rejected, TooBig, Distinct;
  }

  // --- The order by fee rate ---

  lemma RankTrans(f1: int, s1: int, f2: int, s2: int, f3: int, s3: int)
    requires s1 >= 0 && s2 >= 1 && s3 >= 0 && f1 * s2 <= f2 * s1 && f2 * s3 <= f3 * s2
    ensures f1 * s3 <= f3 * s1
  {
    MulMono(f1 * s2, f2 * s1, s3);
    MulMono(f2 * s3, f3 * s2, s1);
    Assoc(f1, s2, s3);
    Assoc(f2, s1, s3);
    Assoc(f2, s3, s1);
    Assoc(f3, s2, s1);
    Comm(s1, s3);
    if f1 * s3 > f3 * s1 {
      StrictMono(f3 * s1, f1 * s3, s2);
      Assoc(f3, s1, s2);
      Assoc(f1, s3, s2);
      Comm(s1, s2);
      Comm(s2, s3);
    }
  }

  lemma NoneBetter(a: ModEntry, b: ModEntry, d: ModEntry)
    requires a.nSizeWithAncestors >= 0 && b.nSizeWithAncestors >= 1 && d.nSizeWithAncestors >= 0 && !Better(a, b) && !Better(b, d)
    ensures !Better(a, d)
  {
    RankTrans(a.nModFeesWithAncestors, a.nSizeWithAncestors, b.nModFeesWithAncestors, b.nSizeWithAncestors,
              d.nModFeesWithAncestors, d.nSizeWithAncestors);
  }

  ghost predicate Sized(mod: map<Tx, ModEntry>) { forall x :: x in mod ==> mod[x].nSizeWithAncestors >= 1 }

  // The first of the modified entries by fee rate.
  method Best(mod: map<Tx, ModEntry>) returns (x: Tx)
    requires mod != map[]
    ensures x in mod && (Sized(mod) ==> forall y :: y in mod ==> !Better(mod[y], mod[x]))
  {
    hide Better;
    HasKey(mod);
    x :| x in mod.Keys;
    var todo := mod.Keys - {x};
    Irreflexive(mod[x]);
    while todo != {}
      invariant x in mod && todo <= mod.Keys && (Sized(mod) ==> forall y :: y in mod && y !in todo ==> !Better(mod[y], mod[x]))
      decreases |todo|
    {
      var z :| z in todo;
      if Better(mod[z], mod[x]) {
        if Sized(mod) {
          Asymmetric(mod[z], mod[x]);
          Irreflexive(mod[z]);
          forall y | y in mod && y !in todo ensures !Better(mod[y], mod[z]) {
            NoneBetter(mod[y], mod[x], mod[z]);
          }
        }
        x := z;
      }
      todo := todo - {z};
    }
  }

  lemma Irreflexive(a: ModEntry)
    ensures !Better(a, a)
  {
  }

  lemma Asymmetric(a: ModEntry, b: ModEntry)
    ensures !Better(a, b) || !Better(b, a)
  {
  }

  // e is first by fee rate, among the modified entries and the rest of the pool.
  ghost predicate First(m: Pool, mod: map<Tx, ModEntry>, mapTx: seq<Tx>, mi: nat, e: ModEntry) {
    && (forall y :: y in mod ==> !Better(mod[y], e))
    && forall k :: mi <= k < |mapTx| ==> mapTx[k] in m && !Better(Cached(m, mapTx[k]), e)
  }

  lemma SumHolds(s: set<Tx>, x: Tx, f: Tx -> nat)
    requires x in s
    ensures Sum(s, f) >= f(x)
  {
    SumRemove(s, x, f);
  }

  lemma CandidateSized(m: Pool, b: Block, x: Tx, e: ModEntry)
    requires Candidate(m, b, x, e) && m[x].size >= 1
    ensures e.nSizeWithAncestors >= 1
  {
    hide Sum, Anc, Layered, Package, Net;
    var pkg :| Spans(m, b.inBlock, x, pkg) && Exact(m, e, pkg);
    InMissing(m, b.inBlock, x);
    SumHolds(pkg, x, SizeOf(m));
  }

  lemma InMissing(m: Pool, inBlock: set<Tx>, x: Tx)
    requires Layered(m) && x in m && x !in inBlock
    ensures x in Missing(m, inBlock, x)
  {
  }

  lemma CachedSized(m: Pool, x: Tx)
    requires Correct(m) && x in m && m[x].size >= 1
    ensures Cached(m, x).nSizeWithAncestors >= 1
  {
    hide Sum, Layered, Anc;
    SumHolds(Package(m, x), x, SizeOf(m));
  }

  lemma AllSized(m: Pool, c: Config, b: Block, mod: map<Tx, ModEntry>, failed: set<Tx>, mapTx: seq<Tx>)
    requires Selecting(m, c, b, mod, failed) && Ranked(m, mapTx)
    ensures Sized(mod) && forall k :: 0 <= k < |mapTx| ==> mapTx[k] in m && Cached(m, mapTx[k]).nSizeWithAncestors >= 1
  {
    hide Layered, Ordered, Totals, Within, Tracking, Candidate, Better, Selecting, Good;
    SelectingGood(m, c, b, mod, failed);
    GoodFacts(m, c, b);
    forall x | x in mod ensures mod[x].nSizeWithAncestors >= 1 {
      FromModified(m, c, b, mod, failed, x);
      CandidateNew(m, b, x, mod[x]);
      CandidateSized(m, b, x, mod[x]);
    }
    forall k | 0 <= k < |mapTx| ensures Cached(m, mapTx[k]).nSizeWithAncestors >= 1 {
      CachedSized(m, mapTx[k]);
    }
  }

  lemma FirstOf(m: Pool, c: Config, b: Block, mod: map<Tx, ModEntry>, failed: set<Tx>, mapTx: seq<Tx>, mi: nat, top: Tx, modified: bool)
    requires Selecting(m, c, b, mod, failed)
    requires mod != map[] ==> top in mod && (Sized(mod) ==> forall y :: y in mod ==> !Better(mod[y], mod[top]))
    requires mi < |mapTx| ==> mapTx[mi] in m
    requires if modified then mod != map[] && (mi < |mapTx| ==> !Better(Cached(m, mapTx[mi]), mod[top]))
             else mi < |mapTx| && (mod != map[] ==> !Better(mod[top], Cached(m, mapTx[mi])))
    ensures Ranked(m, mapTx) ==> First(m, mod, mapTx, mi, if modified then mod[top] else Cached(m, mapTx[mi]))
  {
    hide Selecting, Better, Sized, Cached;
    if Ranked(m, mapTx) {
      AllSized(m, c, b, mod, failed, mapTx);
      FirstAmong(m, mod, mapTx, mi, top, modified);
    }
  }

  lemma FirstAmong(m: Pool, mod: map<Tx, ModEntry>, mapTx: seq<Tx>, mi: nat, top: Tx, modified: bool)
    requires Ranked(m, mapTx) && Sized(mod) && forall k :: 0 <= k < |mapTx| ==> mapTx[k] in m && Cached(m, mapTx[k]).nSizeWithAncestors >= 1
    requires mod != map[] ==> top in mod && forall y :: y in mod ==> !Better(mod[y], mod[top])
    requires if modified then mod != map[] && (mi < |mapTx| ==> !Better(Cached(m, mapTx[mi]), mod[top]))
             else mi < |mapTx| && (mod != map[] ==> !Better(mod[top], Cached(m, mapTx[mi])))
    ensures First(m, mod, mapTx, mi, if modified then mod[top] else Cached(m, mapTx[mi]))
  {
    hide Better;
    var e := if modified then mod[top] else Cached(m, mapTx[mi]);
    forall y | y in mod ensures !Better(mod[y], e) {
      if !modified {
        NoneBetter(mod[y], mod[top], e);
      }
    }
    forall k | mi <= k < |mapTx| ensures !Better(Cached(m, mapTx[k]), e) {
      Irreflexive(Cached(m, mapTx[mi]));
      if modified {
        NoneBetter(Cached(m, mapTx[k]), Cached(m, mapTx[mi]), e);
      }
    }
  }

  // What the totals of the candidate count.
  lemma CandidateCounts(m: Pool, c: Config, segwit: bool, b: Block, x: Tx, e: ModEntry) returns (pkg: set<Tx>)
    requires Good(m, c, b) && Candidate(m, b, x, e)
    requires Exact(m, e, Missing(m, b.inBlock, x)) || Rejected(m, c, segwit, b.fNeedSizeAccounting, b.vtx, x)
    ensures Counts(m, c, segwit, b.fNeedSizeAccounting, b.vtx, x, pkg) && Exact(m, e, pkg)
  {
    hide Correct, Ordered, Totals, Within, Rejected, Exact, Layered, Missing, Package;
    if Exact(m, e, Missing(m, b.inBlock, x)) {
      pkg := Missing(m, b.inBlock, x);
      SpansMissing(m, b.inBlock, x);
    } else {
      pkg :| Spans(m, b.inBlock, x, pkg) && Exact(m, e, pkg);
    }
  }

  lemma SpansMissing(m: Pool, inBlock: set<Tx>, x: Tx)
    requires Layered(m) && x in m
    ensures Spans(m, inBlock, x, Missing(m, inBlock, x))
  {
  }

  // Everything that is left has totals of its own, and they rank no higher.
  lemma LeftOutranked(m: Pool, c: Config, segwit: bool, b: Block, mod: map<Tx, ModEntry>, failed: set<Tx>, mapTx: seq<Tx>, mi0: nat, mi: nat,
                      x: Tx, e: ModEntry, pkg: set<Tx>, k: nat)
    requires Selecting(m, c, b, mod, failed) && Considered(m, c, segwit, b, mod, failed, mapTx, mi, {x})
    requires First(m, mod, mapTx, mi0, e) && mi0 <= mi && Unadjusted(m) && Ranked(m, mapTx)
    requires Counts(m, c, segwit, b.fNeedSizeAccounting, b.vtx, x, pkg) && Exact(m, e, pkg) && k < |mapTx|
    ensures Outranked(m, c, segwit, b, mapTx[k], pkg)
  {
    hide Layered, Ordered, Totals, Within, Tracking, Candidate, Better, Selecting, Rejected, Missing, Exact, Cached, Good, NoBetter, Package, Elements;
    SelectingGood(m, c, b, mod, failed);
    GoodFacts(m, c, b);
    var y := mapTx[k];
    if y !in b.inBlock && !Rejected(m, c, segwit, b.fNeedSizeAccounting, b.vtx, y) {
      if y in mod {
        FromModified(m, c, b, mod, failed, y);
        RankOf(m, mod[y], Missing(m, b.inBlock, y), e, pkg);
      } else if y == x {
        RankSelf(m, pkg);
      } else {
        FromPool(m, c, b, mod, failed, y);
        RankOf(m, Cached(m, y), Missing(m, b.inBlock, y), e, pkg);
      }
    }
  }

  lemma RankOf(m: Pool, a: ModEntry, p: set<Tx>, e: ModEntry, pkg: set<Tx>)
    requires Unadjusted(m) && Exact(m, a, p) && Exact(m, e, pkg) && !Better(a, e)
    ensures NoBetter(m, p, pkg)
  {
  }

  lemma RankSelf(m: Pool, pkg: set<Tx>)
    ensures NoBetter(m, pkg, pkg)
  {
  }

  lemma StopLowFee(m: Pool, c: Config, segwit: bool, b: Block, mod: map<Tx, ModEntry>, failed: set<Tx>, mapTx: seq<Tx>, mi0: nat, mi: nat,
                   x: Tx, e: ModEntry)
    requires Selecting(m, c, b, mod, failed) && Considered(m, c, segwit, b, mod, failed, mapTx, mi, {x}) && mi0 <= mi
    requires Candidate(m, b, x, e) && (x in failed || Exact(m, e, Missing(m, b.inBlock, x)))
    requires Ranked(m, mapTx) ==> First(m, mod, mapTx, mi0, e)
    requires e.nModFeesWithAncestors < c.minFee(e.nSizeWithAncestors)
    ensures Ended(m, c, segwit, b, mapTx, LowFee)
  {
    hide Layered, Ordered, Totals, Within, Tracking, Candidate, Better, Selecting, Rejected, Missing, Cached, Good, Ranked, First, Considered, Counts,
         Outranked, Sum, Net, Ended;
    SelectingGood(m, c, b, mod, failed);
    FailedBefore(m, c, segwit, b, mod, failed, mapTx, mi, x);
    CandidateNew(m, b, x, e);
    var pkg := CandidateCounts(m, c, segwit, b, x, e);
    if Unadjusted(m) && Ranked(m, mapTx) {
      forall k | 0 <= k < |mapTx| ensures Outranked(m, c, segwit, b, mapTx[k], pkg) {
        LeftOutranked(m, c, segwit, b, mod, failed, mapTx, mi0, mi, x, e, pkg, k);
      }
    }
    EndLowFee(m, c, segwit, b, mapTx, x, pkg);
  }

  lemma CandidateTooBig(m: Pool, c: Config, segwit: bool, b: Block, x: Tx, e: ModEntry)
    requires Good(m, c, b) && Candidate(m, b, x, e)
    requires Exact(m, e, Missing(m, b.inBlock, x)) || Rejected(m, c, segwit, b.fNeedSizeAccounting, b.vtx, x)
    requires || b.nBlockWeight + WITNESS_SCALE_FACTOR * e.nSizeWithAncestors >= c.nBlockMaxWeight
             || b.nBlockSigOpsCost + e.nSigOpCostWithAncestors >= MAX_BLOCK_SIGOPS_COST
    ensures TooBig(m, c, segwit, b, x)
  {
    hide Good, Candidate, Rejected, Missing, Counts, Sum, Net, Layered;
    CandidateNew(m, b, x, e);
    var pkg := CandidateCounts(m, c, segwit, b, x, e);
  }

  lemma CandidatePaid(m: Pool, c: Config, segwit: bool, b: Block, vtx: seq<Tx>, x: Tx, e: ModEntry)
    requires Good(m, c, b) && Candidate(m, b, x, e)
    requires Exact(m, e, Missing(m, b.inBlock, x)) || Rejected(m, c, segwit, b.fNeedSizeAccounting, b.vtx, x)
    requires e.nModFeesWithAncestors >= c.minFee(e.nSizeWithAncestors)
    requires b.vtx <= vtx && Elements(vtx) == b.inBlock + Missing(m, b.inBlock, x)
    ensures exists pkg :: PaidOne(m, c, segwit, b.fNeedSizeAccounting, b.vtx, vtx, x, pkg)
  {
    hide Candidate, Rejected, Missing, Counts, Sum, Net, Layered, Correct, Ordered, Totals, Within, Elements;
    CandidateNew(m, b, x, e);
    var pkg := CandidateCounts(m, c, segwit, b, x, e);
    assert PaidOne(m, c, segwit, b.fNeedSizeAccounting, b.vtx, vtx, x, pkg);
  }

  // What every round of the selection starts from.
  ghost predicate Going(m: Pool, c: Config, segwit: bool, b: Block, mod: map<Tx, ModEntry>, failed: set<Tx>, mapTx: seq<Tx>, mi: nat,
                        vtx0: seq<Tx>, selected: nat, row: set<Tx>, fails: nat)
  {
    && mi <= |mapTx| && Selecting(m, c, b, mod, failed) && vtx0 <= b.vtx && Considered(m, c, segwit, b, mod, failed, mapTx, mi, {})
    && Paid(m, c, segwit, b.fNeedSizeAccounting, vtx0, b.vtx, selected)
    && (Distinct(mapTx) ==> Row(m, c, segwit, b, mod, failed, mapTx, mi, row, fails))
  }

  lemma GoingStart(m: Pool, c: Config, segwit: bool, b: Block, mod: map<Tx, ModEntry>, mapTx: seq<Tx>)
    requires Selecting(m, c, b, mod, {})
    ensures Going(m, c, segwit, b, mod, {}, mapTx, 0, b.vtx, 0, {}, 0)
  {
    hide Selecting, Considered, Paid, Row;
    NothingConsidered(m, c, segwit, b, mod, mapTx);
    PaidNone(m, c, segwit, b.fNeedSizeAccounting, b.vtx);
    RowStart(m, c, segwit, b, mod, {}, mapTx, 0);
  }

  lemma GoingFacts(m: Pool, c: Config, segwit: bool, b: Block, mod: map<Tx, ModEntry>, failed: set<Tx>, mapTx: seq<Tx>, mi: nat,
                   vtx0: seq<Tx>, selected: nat, row: set<Tx>, fails: nat)
    requires Going(m, c, segwit, b, mod, failed, mapTx, mi, vtx0, selected, row, fails)
    ensures mi <= |mapTx| && Selecting(m, c, b, mod, failed) && Good(m, c, b) && vtx0 <= b.vtx
    ensures Considered(m, c, segwit, b, mod, failed, mapTx, mi, {}) && Paid(m, c, segwit, b.fNeedSizeAccounting, vtx0, b.vtx, selected)
  {
    hide Good, Tracking, Considered, Paid, Row;
  }

  lemma GoingSkip(m: Pool, c: Config, segwit: bool, b: Block, mod: map<Tx, ModEntry>, failed: set<Tx>, mapTx: seq<Tx>, mi: nat,
                  vtx0: seq<Tx>, selected: nat, row: set<Tx>, fails: nat)
    requires Going(m, c, segwit, b, mod, failed, mapTx, mi, vtx0, selected, row, fails)
    requires mi < |mapTx| && (mapTx[mi] in mod || mapTx[mi] in b.inBlock || mapTx[mi] in failed)
    ensures Going(m, c, segwit, b, mod, failed, mapTx, mi + 1, vtx0, selected, row, fails)
  {
    hide Selecting, Considered, Paid, Row, Distinct;
    ConsiderSkip(m, c, segwit, b, mod, failed, mapTx, mi);
    if Distinct(mapTx) {
      RowLater(m, c, segwit, b, mod, failed, mapTx, mi, row, fails, mod, failed, mi + 1);
    }
  }

  lemma GoingTake(m: Pool, c: Config, segwit: bool, b: Block, mod: map<Tx, ModEntry>, failed: set<Tx>, mapTx: seq<Tx>, mi: nat,
                  vtx0: seq<Tx>, before: seq<Tx>, selected: nat, x: Tx)
    requires mi <= |mapTx| && Selecting(m, c, b, mod, failed) && vtx0 <= before <= b.vtx && Considered(m, c, segwit, b, mod, failed, mapTx, mi, {})
    requires Paid(m, c, segwit, b.fNeedSizeAccounting, vtx0, before, selected)
    requires exists pkg :: PaidOne(m, c, segwit, b.fNeedSizeAccounting, before, b.vtx, x, pkg)
    ensures Going(m, c, segwit, b, mod, failed, mapTx, mi, vtx0, selected + 1, {}, 0)
  {
    hide Selecting, Considered, Paid, Row, PaidOne;
    var pkg :| PaidOne(m, c, segwit, b.fNeedSizeAccounting, before, b.vtx, x, pkg);
    PaidNext(m, c, segwit, b.fNeedSizeAccounting, vtx0, before, b.vtx, selected, x, pkg);
    RowStart(m, c, segwit, b, mod, failed, mapTx, mi);
  }

  lemma GoingFail(m: Pool, c: Config, segwit: bool, b: Block, mod: map<Tx, ModEntry>, failed: set<Tx>, mapTx: seq<Tx>, mi: nat,
                  vtx0: seq<Tx>, selected: nat, row: set<Tx>, fails: nat, x: Tx, modified: bool, fits: bool)
    requires Going(m, c, segwit, b, mod, failed, mapTx, mi, vtx0, selected, row, fails)
    requires if modified then x in mod else mi < |mapTx| && x == mapTx[mi] && x !in mod && x !in failed
    requires (!fits ==> TooBig(m, c, segwit, b, x)) && Rejected(m, c, segwit, b.fNeedSizeAccounting, b.vtx, x)
    requires var mod', failed', mi' := if modified then mod - {x} else mod, if modified then failed + {x} else failed, if modified then mi else mi + 1;
             Selecting(m, c, b, mod', failed') && Considered(m, c, segwit, b, mod', failed', mapTx, mi', {})
    ensures var mod', failed', mi' := if modified then mod - {x} else mod, if modified then failed + {x} else failed, if modified then mi else mi + 1;
            && (fits ==> Going(m, c, segwit, b, mod', failed', mapTx, mi', vtx0, selected, row, fails))
            && (!fits ==> if fails + 1 > MAX_CONSECUTIVE_FAILURES && b.nBlockWeight > c.nBlockMaxWeight - 4000
                          then Ended(m, c, segwit, b, mapTx, NearlyFull)
                          else Going(m, c, segwit, b, mod', failed', mapTx, mi', vtx0, selected, row + {x}, fails + 1))
  {
    hide Selecting, Considered, Paid, Row, Distinct, TooBig, Rejected, Ended;
    if Distinct(mapTx) {
      if fits {
        RowLater(m, c, segwit, b, mod, failed, mapTx, mi, row, fails, if modified then mod - {x} else mod,
                 if modified then failed + {x} else failed, if modified then mi else mi + 1);
      } else {
        RowNext(m, c, segwit, b, mod, failed, mapTx, mi, row, fails, x, modified);
      }
    }
    if !fits && fails + 1 > MAX_CONSECUTIVE_FAILURES && b.nBlockWeight > c.nBlockMaxWeight - 4000 {
      EndNearlyFull(m, c, segwit, b, mapTx, x, row + {x});
    }
  }

  class BlockAssembler {
    const m: Pool
    const c: Config
    const fIncludeWitness: bool
    var vtx: seq<Tx>
    var inBlock: set<Tx>
    var nBlockWeight: nat
    var nBlockSize: nat
    var nBlockTx: nat
    var nBlockSigOpsCost: nat
    var nFees: int
    var fNeedSizeAccounting: bool
    var lastFewTxs: nat
    var blockFinished: bool

    ghost function Current(): Block
      reads this
    {
      Block(vtx, inBlock, nBlockWeight, nBlockSize, nBlockTx, nBlockSigOpsCost, nFees, fNeedSizeAccounting)
    }

    // The limits asked for are brought into range.
    constructor (pool: Pool, maxWeight: nat, maxSize: nat, minFee: int -> int, includeWitness: bool)
      requires Correct(pool)
      ensures m == pool && c == Limited(maxWeight, maxSize, minFee) && fIncludeWitness == includeWitness
      ensures Current() == Reset(AccountsSizes(c)) && Good(m, c, Current())
    {
      hide Good;
      var config := Limited(maxWeight, maxSize, minFee);
      m, c, fIncludeWitness := pool, config, includeWitness;
      vtx, inBlock := [], {};
      nBlockSize, nBlockWeight, nBlockSigOpsCost := 1000, 4000, 400;
      nBlockTx, nFees := 0, 0;
      lastFewTxs, blockFinished := 0, false;
      fNeedSizeAccounting := AccountsSizes(config);
      ResetGood(pool, config, AccountsSizes(config));
    }

    method AddToBlock(x: Tx)
      requires x in m
      modifies this`vtx, this`inBlock, this`nBlockWeight, this`nBlockSize, this`nBlockTx, this`nBlockSigOpsCost, this`nFees
      ensures Current() == Added(m, old(Current()), x)
    {
      vtx := vtx + [x];
      if fNeedSizeAccounting {
        nBlockSize := nBlockSize + m[x].serialized;
      }
      nBlockWeight := nBlockWeight + m[x].weight;
      nBlockTx := nBlockTx + 1;
      nBlockSigOpsCost := nBlockSigOpsCost + m[x].sigops;
      nFees := nFees + m[x].fee;
      inBlock := inBlock + {x};
    }

    method OnlyUnconfirmed(s: set<Tx>) returns (testSet: set<Tx>)
      ensures testSet == s - inBlock
    {
      testSet := s;
      var todo := s;
      while todo != {}
        invariant todo <= testSet <= s && s - inBlock <= testSet && (testSet - todo) !! inBlock
        decreases |todo|
      {
        var iit :| iit in todo;
        todo := todo - {iit};
        if iit in inBlock {
          testSet := testSet - {iit};
        }
      }
    }

    method TestPackage(packageSize: int, packageSigOpsCost: int) returns (fits: bool)
      ensures fits <==> nBlockWeight + WITNESS_SCALE_FACTOR * packageSize < c.nBlockMaxWeight
                        && nBlockSigOpsCost + packageSigOpsCost < MAX_BLOCK_SIGOPS_COST
    {
      if nBlockWeight + WITNESS_SCALE_FACTOR * packageSize >= c.nBlockMaxWeight {
        return false;
      }
      if nBlockSigOpsCost + packageSigOpsCost >= MAX_BLOCK_SIGOPS_COST {
        return false;
      }
      return true;
    }

    method TestPackageTransactions(package: set<Tx>) returns (fits: bool)
      requires package <= m.Keys
      ensures fits <==> && (forall x :: x in package ==> m[x].isFinal && (fIncludeWitness || !m[x].hasWitness))
                        && (fNeedSizeAccounting && package != {} ==> nBlockSize + Sum(package, SerializedOf(m)) < c.nBlockMaxSize)
    {
      hide Sum;
      var nPotentialBlockSize := nBlockSize;
      var todo := package;
      AllDone(package);
      Nothing(package);
      NoSum(SerializedOf(m));
      while todo != {}
        invariant todo <= package
        invariant forall x :: x in package - todo ==> m[x].isFinal && (fIncludeWitness || !m[x].hasWitness)
        invariant fNeedSizeAccounting ==> nPotentialBlockSize == nBlockSize + Sum(package - todo, SerializedOf(m))
        invariant fNeedSizeAccounting && todo != package ==> nPotentialBlockSize < c.nBlockMaxSize
        decreases |todo|
      {
        var it :| it in todo;
        if !m[it].isFinal {
          return false;
        }
        if !fIncludeWitness && m[it].hasWitness {
          return false;
        }
        PrefixSum(package, todo, it, SerializedOf(m));
        if fNeedSizeAccounting {
          var nTxSize := m[it].serialized;
          if nPotentialBlockSize + nTxSize >= c.nBlockMaxSize {
            return false;
          }
          nPotentialBlockSize := nPotentialBlockSize + nTxSize;
        }
        todo := todo - {it};
      }
      return true;
    }

    // Add the sorted package and forget its members' tracked totals.
    method AddPackage(sortedEntries: seq<Tx>, mod0: map<Tx, ModEntry>, ghost pkg: set<Tx>) returns (mod: map<Tx, ModEntry>)
      requires Good(m, c, Current()) && Complete(m, inBlock, pkg) && Fits(m, c, Current(), pkg)
      requires Elements(sortedEntries) == pkg && Distinct(sortedEntries) && Sorted(m, sortedEntries)
      modifies this`vtx, this`inBlock, this`nBlockWeight, this`nBlockSize, this`nBlockTx, this`nBlockSigOpsCost, this`nFees
      ensures Good(m, c, Current()) && inBlock == old(inBlock) + pkg && mod == mod0 - pkg && old(vtx) <= vtx
    {
      hide Good, Correct, Complete, Fits, Distinct, Sorted, Elements, Added;
      mod := mod0;
      NoElements();
      assert pkg - {} == pkg;
      for i := 0 to |sortedEntries|
        invariant Good(m, c, Current()) && old(vtx) <= vtx
        invariant inBlock == old(inBlock) + Elements(sortedEntries[..i]) && mod == mod0 - Elements(sortedEntries[..i])
        invariant Fits(m, c, Current(), pkg - Elements(sortedEntries[..i]))
      {
        ghost var b := Current();
        PackageStep(m, c, b, old(inBlock), pkg, sortedEntries, i);
        AddToBlock(sortedEntries[i]);
        Lengthened(m, b, sortedEntries[i]);
        MapShrink(mod0, Elements(sortedEntries[..i]), sortedEntries[i]);
        mod := mod - {sortedEntries[i]};
      }
      assert sortedEntries[..|sortedEntries|] == sortedEntries;
    }

    // The second half of a round: the candidate passed TestPackage.
    method Include(iter: Tx, ghost e: ModEntry, mod0: map<Tx, ModEntry>, ghost failed: set<Tx>)
        returns (included: bool, nDescendantsUpdated: nat, mod: map<Tx, ModEntry>)
      requires Selecting(m, c, Current(), mod0, failed) && Candidate(m, Current(), iter, e)
      requires nBlockWeight + WITNESS_SCALE_FACTOR * e.nSizeWithAncestors < c.nBlockMaxWeight
      requires nBlockSigOpsCost + e.nSigOpCostWithAncestors < MAX_BLOCK_SIGOPS_COST
      modifies this`vtx, this`inBlock, this`nBlockWeight, this`nBlockSize, this`nBlockTx, this`nBlockSigOpsCost, this`nFees
      ensures Selecting(m, c, Current(), mod, failed) && old(vtx) <= vtx
      ensures !included ==> Current() == old(Current()) && mod == mod0
      ensures included ==> inBlock == old(inBlock) + Missing(m, old(inBlock), iter) && mod0.Keys <= mod.Keys + inBlock
      ensures !included && Exact(m, e, Missing(m, inBlock, iter)) ==> Rejected(m, c, fIncludeWitness, fNeedSizeAccounting, vtx, iter)
    {
      ghost var b := Current();
      hide Correct, Layered, Ordered, Totals, Within, Anc, Missing, Tracking, Sum, Complete, Fits, Updated, Covers, Exact, Elements, Sorted,
           Distinct, Unlisted, Rejected;
      var ancestors := CalculateMemPoolAncestors(m, iter);
      ancestors := OnlyUnconfirmed(ancestors);
      ancestors := ancestors + {iter};
      CandidateFacts(m, c, b, iter, e);
      included := TestPackageTransactions(ancestors);
      nDescendantsUpdated, mod := 0, mod0;
      if included {
        CandidateFits(m, c, b, iter, e);
        var sortedEntries := SortForBlock(m, ancestors);
        StillUnlisted(m, c, b, mod0, failed, ancestors);
        mod := AddPackage(sortedEntries, mod0, ancestors);
        nDescendantsUpdated, mod := UpdatePackagesForAdded(m, ancestors, mod);
        AfterPackage(m, c, b, Current(), mod0, mod, failed, ancestors);
        KeysKept(m, mod0, mod, ancestors);
      } else if Exact(m, e, Missing(m, inBlock, iter)) {
        RejectedNow(m, c, b, fIncludeWitness, iter, e);
      }
    }

    // The next entry of the pool or the first of the modified entries, whichever pays the better rate.
    method NextCandidate(mapTx: seq<Tx>, mi0: nat, mod: map<Tx, ModEntry>, failed: set<Tx>)
        returns (iter: Tx, e: ModEntry, fUsingModified: bool, mi: nat)
      requires Selecting(m, c, Current(), mod, failed) && mi0 <= |mapTx| && (mi0 < |mapTx| || mod != map[])
      requires mi0 < |mapTx| ==> mapTx[mi0] in m && !(mapTx[mi0] in mod || mapTx[mi0] in inBlock || mapTx[mi0] in failed)
      requires Considered(m, c, fIncludeWitness, Current(), mod, failed, mapTx, mi0, {})
      ensures Layered(m) && iter in m && iter !in inBlock
      ensures Candidate(m, Current(), iter, e) && (iter in failed || Exact(m, e, Missing(m, inBlock, iter)))
      ensures Considered(m, c, fIncludeWitness, Current(), mod, failed, mapTx, mi, {iter})
      ensures if fUsingModified then mi == mi0 && iter in mod && e == mod[iter] && Listed(mod - {iter}) < Listed(mod)
              else mi0 < |mapTx| && mi == mi0 + 1 && iter == mapTx[mi0] && e == Cached(m, iter)
      ensures Ranked(m, mapTx) ==> First(m, mod, mapTx, mi0, e)
    {
      hide Good, Layered, Anc, Missing, Tracking, Candidate, Selecting, Considered, Exact, Better, Ranked, First, Sized;
      fUsingModified, mi := mi0 == |mapTx|, mi0;
      var top := mi0;
      if mod != map[] {
        top := Best(mod);
        if mi < |mapTx| {
          Asymmetric(mod[top], Cached(m, mapTx[mi]));
          var tie := *;
          fUsingModified := if tie then !Better(Cached(m, mapTx[mi]), mod[top]) else Better(mod[top], Cached(m, mapTx[mi]));
        }
      }
      FirstOf(m, c, Current(), mod, failed, mapTx, mi0, top, fUsingModified);
      if fUsingModified {
        iter := top;
        FromModified(m, c, Current(), mod, failed, iter);
        e := mod[iter];
        FewerListed(mod, iter);
      } else {
        iter := mapTx[mi];
        mi := mi + 1;
        FromPool(m, c, Current(), mod, failed, iter);
        e := Cached(m, iter);
      }
      CandidateNew(m, Current(), iter, e);
      ConsiderPick(m, c, fIncludeWitness, Current(), mod, failed, mapTx, mi0, iter);
    }

    // One candidate that pays enough: include its package, or drop it from the modified entries.
    method TryPackage(iter: Tx, e: ModEntry, fUsingModified: bool, mod0: map<Tx, ModEntry>, failed0: set<Tx>, ghost mapTx: seq<Tx>, ghost mi: nat)
        returns (fits: bool, included: bool, n: nat, mod: map<Tx, ModEntry>, failed: set<Tx>)
      requires Selecting(m, c, Current(), mod0, failed0) && Candidate(m, Current(), iter, e) && (fUsingModified ==> iter in mod0)
      requires iter in failed0 || Exact(m, e, Missing(m, inBlock, iter))
      requires e.nModFeesWithAncestors >= c.minFee(e.nSizeWithAncestors)
      requires Considered(m, c, fIncludeWitness, Current(), mod0, failed0, mapTx, mi, {iter})
      modifies this`vtx, this`inBlock, this`nBlockWeight, this`nBlockSize, this`nBlockTx, this`nBlockSigOpsCost, this`nFees
      ensures Selecting(m, c, Current(), mod, failed) && old(vtx) <= vtx
      ensures Considered(m, c, fIncludeWitness, Current(), mod, failed, mapTx, mi, {})
      ensures included ==> Remaining(m, inBlock) < Remaining(m, old(inBlock))
      ensures !included ==> Current() == old(Current()) && mod == (if fUsingModified then mod0 - {iter} else mod0)
                            && failed == (if fUsingModified then failed0 + {iter} else failed0)
                            && Rejected(m, c, fIncludeWitness, fNeedSizeAccounting, vtx, iter)
      ensures included ==> fits && exists pkg :: PaidOne(m, c, fIncludeWitness, fNeedSizeAccounting, old(vtx), vtx, iter, pkg)
      ensures !fits ==> TooBig(m, c, fIncludeWitness, Current(), iter)
    {
      hide Good, Layered, Anc, Missing, Tracking, Candidate, Selecting, Considered, Rejected, Exact, Remaining, PaidOne, TooBig, Elements;
      ghost var b := Current();
      CandidateNew(m, b, iter, e);
      FailedBefore(m, c, fIncludeWitness, b, mod0, failed0, mapTx, mi, iter);
      SelectingGood(m, c, b, mod0, failed0);
      fits := TestPackage(e.nSizeWithAncestors, e.nSigOpCostWithAncestors);
      included, n, mod, failed := false, 0, mod0, failed0;
      if fits {
        MoreIncluded(m, inBlock, iter);
        included, n, mod := Include(iter, e, mod0, failed0);
      } else {
        CandidateTooBig(m, c, fIncludeWitness, b, iter, e);
        if iter !in failed0 {
          RejectedNow(m, c, b, fIncludeWitness, iter, e);
        }
      }
      if included {
        SelectingGood(m, c, Current(), mod, failed0);
        GoodFacts(m, c, Current());
        CandidatePaid(m, c, fIncludeWitness, b, vtx, iter, e);
        ConsiderTake(m, c, fIncludeWitness, b, Current(), mod0, mod, failed0, mapTx, mi, iter);
      } else {
        ConsiderFail(m, c, fIncludeWitness, b, mod0, failed0, mapTx, mi, iter);
        if fUsingModified {
          Dropped(m, c, b, mod0, failed0, iter);
          mod := mod - {iter};
          failed := failed + {iter};
        }
      }
    }

    // One round: the best candidate that is left ends the selection, goes in with its package, or fails.
    method Round(mapTx: seq<Tx>, mi0: nat, mod0: map<Tx, ModEntry>, failed0: set<Tx>, ghost vtx0: seq<Tx>, ghost selected: nat, ghost row0: set<Tx>,
                 ghost fails0: nat)
        returns (low: bool, fits: bool, included: bool, n: nat, mi: nat, mod: map<Tx, ModEntry>, failed: set<Tx>, ghost row: set<Tx>)
      requires Going(m, c, fIncludeWitness, Current(), mod0, failed0, mapTx, mi0, vtx0, selected, row0, fails0)
      requires (mi0 < |mapTx| || mod0 != map[]) && forall k :: 0 <= k < |mapTx| ==> mapTx[k] in m
      requires mi0 < |mapTx| ==> !(mapTx[mi0] in mod0 || mapTx[mi0] in inBlock || mapTx[mi0] in failed0)
      modifies this`vtx, this`inBlock, this`nBlockWeight, this`nBlockSize, this`nBlockTx, this`nBlockSigOpsCost, this`nFees
      ensures !included ==> Current() == old(Current())
      ensures low ==> !included && Ended(m, c, fIncludeWitness, Current(), mapTx, LowFee)
      ensures included ==> Going(m, c, fIncludeWitness, Current(), mod, failed, mapTx, mi, vtx0, selected + 1, {}, 0)
                           && Remaining(m, inBlock) < Remaining(m, old(inBlock))
      ensures !low && !included ==> mi0 <= mi && (mi == mi0 ==> Listed(mod) < Listed(mod0))
      ensures !low && !included && fits ==> Going(m, c, fIncludeWitness, Current(), mod, failed, mapTx, mi, vtx0, selected, row0, fails0)
      ensures !low && !fits ==>
                !included && if fails0 + 1 > MAX_CONSECUTIVE_FAILURES && nBlockWeight > c.nBlockMaxWeight - 4000
                             then Ended(m, c, fIncludeWitness, Current(), mapTx, NearlyFull)
                             else Going(m, c, fIncludeWitness, Current(), mod, failed, mapTx, mi, vtx0, selected, row, fails0 + 1)
    {
      hide Good, Layered, Anc, Missing, Tracking, Candidate, Selecting, Considered, Rejected, Exact, Ended, Remaining, Listed, Paid, PaidOne, Going,
           TooBig, Ranked, First;
      GoingFacts(m, c, fIncludeWitness, Current(), mod0, failed0, mapTx, mi0, vtx0, selected, row0, fails0);
      low, fits, included, n, mod, failed, row := false, true, false, 0, mod0, failed0, row0;
      ghost var before := vtx;
      var iter, e, fUsingModified;
      iter, e, fUsingModified, mi := NextCandidate(mapTx, mi0, mod0, failed0);
      assert iter !in inBlock;
      if e.nModFeesWithAncestors < c.minFee(e.nSizeWithAncestors) {
        StopLowFee(m, c, fIncludeWitness, Current(), mod0, failed0, mapTx, mi0, mi, iter, e);
        low := true;
        return;
      }
      fits, included, n, mod, failed := TryPackage(iter, e, fUsingModified, mod0, failed0, mapTx, mi);
      if included {
        GoingTake(m, c, fIncludeWitness, Current(), mod, failed, mapTx, mi, vtx0, before, selected, iter);
      } else {
        row := row0 + {iter};
        GoingFail(m, c, fIncludeWitness, Current(), mod0, failed0, mapTx, mi0, vtx0, selected, row0, fails0, iter, fUsingModified, fits);
      }
    }

    /**
     * Package selection, over any order of the pool. It terminates: each round adds to the block, or advances in the
     * pool, or drops a modified entry. When it runs to the end, whatever is left out did not fit, with what it still
     * needed, at some point of the filling.
     */
    method AddPackageTxs(mapTx: seq<Tx>) returns (nPackagesSelected: nat, nDescendantsUpdated: nat, ghost why: Stop)
      requires Good(m, c, Current()) && forall k :: 0 <= k < |mapTx| ==> mapTx[k] in m
      modifies this`vtx, this`inBlock, this`nBlockWeight, this`nBlockSize, this`nBlockTx, this`nBlockSigOpsCost, this`nFees
      ensures Good(m, c, Current()) && old(vtx) <= vtx
      ensures Ended(m, c, fIncludeWitness, Current(), mapTx, why)
      ensures Paid(m, c, fIncludeWitness, fNeedSizeAccounting, old(vtx), vtx, nPackagesSelected)
    {
      hide Good, Layered, Anc, Updated, Unlisted, Closed, Complete, Selecting, Considered, Ended, Remaining, Listed, Paid, Going, Sum, UpdatesOf;
      nPackagesSelected, nDescendantsUpdated, why := 0, 0, Exhausted;
      var failedTx: set<Tx> := {};
      GoodClosed(m, c, Current());
      NothingListed(m, inBlock);
      var n: nat;
      var mapModifiedTx: map<Tx, ModEntry>;
      n, mapModifiedTx := UpdatePackagesForAdded(m, inBlock, map[]);
      FirstUpdate(m, c, Current(), mapModifiedTx);
      GoingStart(m, c, fIncludeWitness, Current(), mapModifiedTx, mapTx);
      var mi: nat := 0;
      var nConsecutiveFailed: nat := 0;
      ghost var row: set<Tx> := {};
      while mi < |mapTx| || mapModifiedTx != map[]
        invariant why == Exhausted
        invariant Going(m, c, fIncludeWitness, Current(), mapModifiedTx, failedTx, mapTx, mi, old(vtx), nPackagesSelected, row, nConsecutiveFailed)
        decreases Remaining(m, inBlock), |mapTx| - mi, Listed(mapModifiedTx)
      {
        GoingFacts(m, c, fIncludeWitness, Current(), mapModifiedTx, failedTx, mapTx, mi, old(vtx), nPackagesSelected, row, nConsecutiveFailed);
        if mi < |mapTx| && (mapTx[mi] in mapModifiedTx || mapTx[mi] in inBlock || mapTx[mi] in failedTx) {
          GoingSkip(m, c, fIncludeWitness, Current(), mapModifiedTx, failedTx, mapTx, mi, old(vtx), nPackagesSelected, row, nConsecutiveFailed);
          mi := mi + 1;
          continue;
        }
        var low, fits, included;
        ghost var row';
        low, fits, included, n, mi, mapModifiedTx, failedTx, row' :=
          Round(mapTx, mi, mapModifiedTx, failedTx, old(vtx), nPackagesSelected, row, nConsecutiveFailed);
        if low {
          why := LowFee;
          return;
        }
        if included {
          nConsecutiveFailed, row := 0, {};
          nPackagesSelected := nPackagesSelected + 1;
          nDescendantsUpdated := nDescendantsUpdated + n;
        } else if !fits {
          nConsecutiveFailed, row := nConsecutiveFailed + 1, row';
          if nConsecutiveFailed > MAX_CONSECUTIVE_FAILURES && nBlockWeight > c.nBlockMaxWeight - 4000 {
            why := NearlyFull;
            return;
          }
        }
      }
      GoingFacts(m, c, fIncludeWitness, Current(), mapModifiedTx, failedTx, mapTx, mi, old(vtx), nPackagesSelected, row, nConsecutiveFailed);
      AllConsidered(m, c, fIncludeWitness, Current(), mapModifiedTx, failedTx, mapTx, mi);
    }

    method IsStillDependent(x: Tx) returns (dependent: bool)
      requires x in m
      ensures dependent <==> !(m[x].parents <= inBlock)
    {
      var todo := m[x].parents;
      while todo != {}
        invariant todo <= m[x].parents && m[x].parents - todo <= inBlock
        decreases |todo|
      {
        var parent :| parent in todo;
        if parent !in inBlock {
          return true;
        }
        todo := todo - {parent};
      }
      return false;
    }

    method TestForBlock(x: Tx) returns (fits: bool)
      requires x in m && InRange(c)
      modifies this`lastFewTxs, this`blockFinished
      ensures fits <==> && nBlockWeight + m[x].weight < c.nBlockMaxWeight
                        && (fNeedSizeAccounting ==> nBlockSize + m[x].serialized < c.nBlockMaxSize)
                        && nBlockSigOpsCost + m[x].sigops < MAX_BLOCK_SIGOPS_COST && m[x].isFinal
      ensures fits ==> unchanged(this)
      ensures var finishes :=
                if nBlockWeight + m[x].weight >= c.nBlockMaxWeight then nBlockWeight > c.nBlockMaxWeight - 400 || old(lastFewTxs) > 50
                else if fNeedSizeAccounting && nBlockSize + m[x].serialized >= c.nBlockMaxSize
                then nBlockSize > c.nBlockMaxSize - 100 || old(lastFewTxs) > 50
                else MAX_BLOCK_SIGOPS_COST - 8 < nBlockSigOpsCost && nBlockSigOpsCost + m[x].sigops >= MAX_BLOCK_SIGOPS_COST;
              blockFinished == (old(blockFinished) || finishes)
      ensures var nearlyFull :=
                if nBlockWeight + m[x].weight >= c.nBlockMaxWeight
                then c.nBlockMaxWeight - 4000 < nBlockWeight <= c.nBlockMaxWeight - 400 && old(lastFewTxs) <= 50
                else fNeedSizeAccounting && nBlockSize + m[x].serialized >= c.nBlockMaxSize
                     && c.nBlockMaxSize - 1000 < nBlockSize <= c.nBlockMaxSize - 100 && old(lastFewTxs) <= 50;
              lastFewTxs == old(lastFewTxs) + if nearlyFull then 1 else 0
    {
      if nBlockWeight + m[x].weight >= c.nBlockMaxWeight {
        if nBlockWeight > c.nBlockMaxWeight - 400 || lastFewTxs > 50 {
          blockFinished := true;
          return false;
        }
        if nBlockWeight > c.nBlockMaxWeight - 4000 {
          lastFewTxs := lastFewTxs + 1;
        }
        return false;
      }
      if fNeedSizeAccounting {
        if nBlockSize + m[x].serialized >= c.nBlockMaxSize {
          if nBlockSize > c.nBlockMaxSize - 100 || lastFewTxs > 50 {
            blockFinished := true;
            return false;
          }
          if nBlockSize > c.nBlockMaxSize - 1000 {
            lastFewTxs := lastFewTxs + 1;
          }
          return false;
        }
      }
      if nBlockSigOpsCost + m[x].sigops >= MAX_BLOCK_SIGOPS_COST {
        if nBlockSigOpsCost > MAX_BLOCK_SIGOPS_COST - 8 {
          blockFinished := true;
        }
        return false;
      }
      return m[x].isFinal;
    }

    // Test an independent transaction and add it.
    method AddIfFits(x: Tx) returns (fits: bool)
      requires Good(m, c, Current()) && InRange(c) && x in m && x !in inBlock && m[x].parents <= inBlock
      modifies this
      ensures Good(m, c, Current()) && fNeedSizeAccounting == old(fNeedSizeAccounting)
      ensures fits ==> Current() == Added(m, old(Current()), x)
      ensures !fits ==> Current() == old(Current()) && (fNeedSizeAccounting ==> TurnedDown(m, c, vtx, x))
    {
      hide Good, InRange, TurnedDown;
      fits := TestForBlock(x);
      if fits {
        IndependentKeeps(m, c, Current(), x);
        AddToBlock(x);
      } else if fNeedSizeAccounting {
        TurnedDownNow(m, c, Current(), x);
      }
    }

    /**
     * The priority area. Transactions come off the heap by priority, and none comes off once it is in the block.
     * All that enter, but perhaps the last, have a priority that allows a free transaction. When the heap empties,
     * every entry is in the block, was turned down, carries a disallowed witness or lacks a parent; when a low
     * priority ends the phase, that holds of every entry of higher priority than the threshold.
     */
    method AddPriorityTxs(pool: seq<Tx>, priority: Tx -> real, prioritySize: nat) returns (ghost why: PriorityStop)
      requires Good(m, c, Current()) && InRange(c) && nBlockSize == 1000 + Sum(inBlock, SerializedOf(m))
      requires Distinct(pool) && Pending(m, inBlock, pool)
      modifies this
      ensures Good(m, c, Current()) && old(vtx) <= vtx && fNeedSizeAccounting == old(fNeedSizeAccounting)
      ensures PriorityEnded(m, c, fIncludeWitness, old(vtx), Current(), pool, priority, Min(c.nBlockMaxSize, prioritySize), blockFinished, why)
    {
      hide Good, Layered, Anc, Sum, Heaped, Distinct, InRange, Added, Remaining, Tracked, Favoured, PriorityEnded;
      var nBlockPrioritySize := Min(c.nBlockMaxSize, prioritySize);
      if nBlockPrioritySize == 0 {
        NoPriority(m, c, fIncludeWitness, Current(), pool, priority, blockFinished);
        return Disabled;
      }
      var fSizeAccounting := fNeedSizeAccounting;
      Accounted(m, c, Current());
      fNeedSizeAccounting := true;
      var vecPriority := pool;
      var waitPriMap: set<Tx> := {};
      Heap(m, inBlock, pool);
      TrackAll(m, c, fIncludeWitness, Current(), pool, priority);
      while vecPriority != [] && !blockFinished
        invariant Good(m, c, Current()) && fNeedSizeAccounting
        invariant Heaped(m, inBlock, vecPriority, waitPriMap)
        invariant Tracked(m, c, fIncludeWitness, Current(), vecPriority, waitPriMap, pool) && Favoured(old(vtx), vtx, priority)
        decreases Remaining(m, inBlock), |vecPriority|
      {
        var i := Top(vecPriority, priority);
        var iter := vecPriority[i];
        ghost var b, vec := Current(), vecPriority;
        Pop(m, inBlock, vecPriority, waitPriMap, i);
        vecPriority := vecPriority[..i] + vecPriority[i + 1..];
        assert iter !in inBlock;
        if !fIncludeWitness && m[iter].hasWitness {
          TrackPass(m, c, fIncludeWitness, b, vec, i, waitPriMap, pool);
          continue;
        }
        var dependent := IsStillDependent(iter);
        if dependent {
          Wait(m, inBlock, vecPriority, waitPriMap, iter);
          TrackWait(m, c, fIncludeWitness, b, vec, i, waitPriMap, pool);
          waitPriMap := waitPriMap + {iter};
          continue;
        }
        EnterLater(m, Current(), vecPriority, waitPriMap, iter);
        var fits := AddIfFits(iter);
        if fits {
          AddedFacts(m, b, iter);
          if nBlockSize >= nBlockPrioritySize || !AllowFree(priority(iter)) {
            why := if nBlockSize >= nBlockPrioritySize then Filled else LowPriority;
            EndBroken(m, c, fIncludeWitness, old(vtx), b, vec, i, waitPriMap, pool, priority, nBlockPrioritySize, blockFinished, why);
            Restore(fSizeAccounting, old(vtx), pool, priority, nBlockPrioritySize, why);
            return;
          }
          ghost var waiting := waitPriMap;
          vecPriority, waitPriMap := Release(m, inBlock, iter, vecPriority, waitPriMap);
          TrackAdd(m, c, fIncludeWitness, b, vec, i, waiting, vecPriority, pool);
          FavourAdd(m, old(vtx), b, iter, priority);
        } else {
          TrackPass(m, c, fIncludeWitness, b, vec, i, waitPriMap, pool);
        }
      }
      why := if vecPriority == [] then Emptied else Finished;
      EndOfHeap(m, c, fIncludeWitness, old(vtx), Current(), vecPriority, waitPriMap, pool, priority, nBlockPrioritySize, blockFinished, why);
      Restore(fSizeAccounting, old(vtx), pool, priority, nBlockPrioritySize, why);
    }

    // Sizes are accounted for again as they were before the priority phase.
    method Restore(fSizeAccounting: bool, ghost vtx0: seq<Tx>, ghost pool: seq<Tx>, ghost priority: Tx -> real, ghost limit: nat,
                   ghost why: PriorityStop)
      requires Good(m, c, Current()) && fNeedSizeAccounting
      requires PriorityEnded(m, c, fIncludeWitness, vtx0, Current(), pool, priority, limit, blockFinished, why)
      modifies this`fNeedSizeAccounting
      ensures Good(m, c, Current()) && fNeedSizeAccounting == fSizeAccounting && vtx0 <= vtx
      ensures PriorityEnded(m, c, fIncludeWitness, vtx0, Current(), pool, priority, limit, blockFinished, why)
    {
      hide Good;
      Unaccounted(m, c, Current(), fSizeAccounting);
      fNeedSizeAccounting := fSizeAccounting;
    }

    /**
     * Both phases from an empty block: for every pool, every limits, every order and every choice, the block has no
     * duplicates, is in dependency order and is within its limits, and nothing is left out without a reason.
     */
    static method CreateNewBlock(pool: Pool, maxWeight: nat, maxSize: nat, minFee: int -> int, includeWitness: bool, mapTx: seq<Tx>,
                                 priority: Tx -> real, prioritySize: nat)
        returns (block: seq<Tx>, nBlockWeight: nat, nBlockSize: nat, nBlockSigOpsCost: nat, nFees: int, nPackages: nat, ghost why: Stop)
      requires Correct(pool)
      requires Distinct(mapTx) && forall k :: 0 <= k < |mapTx| ==> mapTx[k] in pool
      ensures var c := Limited(maxWeight, maxSize, minFee);
              && Ordered(pool, block)
              && nBlockWeight == 4000 + Sum(Elements(block), WeightOf(pool)) <= c.nBlockMaxWeight
              && nBlockSigOpsCost == 400 + Sum(Elements(block), SigopsOf(pool)) <= MAX_BLOCK_SIGOPS_COST
              && nFees == Net(Elements(block), FeeOf(pool))
              && nBlockSize <= c.nBlockMaxSize
              && (AccountsSizes(c) ==> nBlockSize == 1000 + Sum(Elements(block), SerializedOf(pool)))
      ensures (forall x :: x in pool ==> pool[x].serialized <= pool[x].weight) ==>
                1000 + Sum(Elements(block), SerializedOf(pool)) <= Limited(maxWeight, maxSize, minFee).nBlockMaxSize
      ensures LeftOut(pool, Limited(maxWeight, maxSize, minFee), includeWitness, block, mapTx, why)
      ensures var c := Limited(maxWeight, maxSize, minFee);
              exists j :: 0 <= j <= |block| && Paid(pool, c, includeWitness, AccountsSizes(c), block[..j], block, nPackages)
    {
      hide Paid, Net, Sum, Layered, Ordered, Correct, Distinct, Good, InRange, LeftOut, Ended, Reset, Limited, AccountsSizes;
      var a := new BlockAssembler(pool, maxWeight, maxSize, minFee, includeWitness);
      StartFacts(pool, a.c, a.Current());
      ghost var ended := a.AddPriorityTxs(mapTx, priority, prioritySize);
      ghost var first := a.vtx;
      var k;
      nPackages, k, why := a.AddPackageTxs(mapTx);
      assert a.vtx[..|first|] == first;
      GoodFacts(pool, a.c, a.Current());
      EndedFacts(pool, a.c, includeWitness, a.Current(), mapTx, why);
      SizesHold(pool, maxWeight, maxSize, minFee, a.Current());
      return a.vtx, a.nBlockWeight, a.nBlockSize, a.nBlockSigOpsCost, a.nFees, nPackages, why;
    }
  }

  /**
   * A pool entry is in the block or was rejected, when the selection ran to the end; with room for all, and when all pay
   * enough, every entry is in the block.
   */
  ghost predicate LeftOut(m: Pool, c: Config, segwit: bool, block: seq<Tx>, mapTx: seq<Tx>, why: Stop) {
    && (why == Exhausted ==> forall k :: 0 <= k < |mapTx| ==> mapTx[k] in block || Rejected(m, c, segwit, AccountsSizes(c), block, mapTx[k]))
    && (RoomForAll(m, c, segwit, AccountsSizes(c)) && Unadjusted(m) && AllPay(m, c) ==> forall k :: 0 <= k < |mapTx| ==> mapTx[k] in block)
  }

  /** The size limit holds even when sizes are not counted, because no transaction has more bytes than weight. */
  lemma SizesHold(m: Pool, maxWeight: nat, maxSize: nat, minFee: int -> int, b: Block)
    requires var c := Limited(maxWeight, maxSize, minFee); Totals(m, b) && Within(c, b) && b.fNeedSizeAccounting == AccountsSizes(c)
    requires b.inBlock <= m.Keys
    ensures (forall x :: x in m ==> m[x].serialized <= m[x].weight) ==>
              1000 + Sum(b.inBlock, SerializedOf(m)) <= Limited(maxWeight, maxSize, minFee).nBlockMaxSize
  {
    hide Sum, Net;
    if forall x :: x in m ==> m[x].serialized <= m[x].weight {
      SumAtMost(b.inBlock, SerializedOf(m), WeightOf(m));
    }
  }

  lemma StartFacts(m: Pool, c: Config, b: Block)
    requires b == Reset(AccountsSizes(c))
    ensures b.inBlock == {} && b.nBlockSize == 1000 + Sum({}, SerializedOf(m)) && b.fNeedSizeAccounting == AccountsSizes(c)
  {
    NoSum(SerializedOf(m));
  }

  lemma GoodFacts(m: Pool, c: Config, b: Block)
    requires Good(m, c, b)
    ensures Correct(m) && Layered(m) && Ordered(m, b.vtx) && b.inBlock == Elements(b.vtx) <= m.Keys && Totals(m, b) && Within(c, b)
  {
    hide Ordered, Totals, Within;
    CorrectLayered(m);
    InPool(m, b.vtx);
  }

  lemma EndedFacts(m: Pool, c: Config, segwit: bool, b: Block, mapTx: seq<Tx>, why: Stop)
    requires Good(m, c, b) && Ended(m, c, segwit, b, mapTx, why) && b.fNeedSizeAccounting == AccountsSizes(c)
    ensures LeftOut(m, c, segwit, b.vtx, mapTx, why)
  {
    hide Good, Correct, Layered, Ordered, Totals, Within, Rejected, RoomForAll, TooCheap, AllPay, TooBig;
    GoodFacts(m, c, b);
    if RoomForAll(m, c, segwit, AccountsSizes(c)) {
      forall x ensures !Rejected(m, c, segwit, AccountsSizes(c), b.vtx, x) {
        NothingRejected(m, c, segwit, AccountsSizes(c), b.vtx, x);
      }
      if Unadjusted(m) && AllPay(m, c) {
        forall x, pkg ensures !TooCheap(m, c, segwit, b, mapTx, x, pkg) {
          NothingCheap(m, c, segwit, b, mapTx, x, pkg);
        }
      }
    }
  }

  lemma NothingCheap(m: Pool, c: Config, segwit: bool, b: Block, mapTx: seq<Tx>, x: Tx, pkg: set<Tx>)
    requires Good(m, c, b) && Unadjusted(m) && AllPay(m, c) && !Rejected(m, c, segwit, b.fNeedSizeAccounting, b.vtx, x)
    ensures !TooCheap(m, c, segwit, b, mapTx, x, pkg)
  {
    hide Layered, Ordered, Totals, Within, Rejected, Correct, Missing, Pays, Closed, Outranked, Ranked, Elements;
    GoodClosed(m, c, b);
  }

  lemma InPool(m: Pool, vtx: seq<Tx>)
    requires Layered(m) && Ordered(m, vtx)
    ensures Elements(vtx) <= m.Keys
  {
    hide Layered, Anc;
  }

  // --- The priority heap ---

  // The heap, the waiting transactions and the block are disjoint, and the heap has no duplicates.
  ghost predicate Heaped(m: Pool, inBlock: set<Tx>, vec: seq<Tx>, waiting: set<Tx>) {
    && Distinct(vec) && waiting <= m.Keys && waiting !! inBlock
    && forall k :: 0 <= k < |vec| ==> vec[k] in m && vec[k] !in inBlock && vec[k] !in waiting
  }

  // An entry of the highest priority; ties are free.
  method Top(vec: seq<Tx>, priority: Tx -> real) returns (i: nat)
    requires vec != []
    ensures i < |vec| && forall k :: 0 <= k < |vec| ==> priority(vec[k]) <= priority(vec[i])
  {
    i := 0;
    for j := 1 to |vec|
      invariant i < |vec| && forall k :: 0 <= k < j ==> priority(vec[k]) <= priority(vec[i])
    {
      if priority(vec[j]) > priority(vec[i]) {
        i := j;
      }
    }
  }

  lemma Pop(m: Pool, inBlock: set<Tx>, vec: seq<Tx>, waiting: set<Tx>, i: nat)
    requires Heaped(m, inBlock, vec, waiting) && i < |vec|
    ensures var rest := vec[..i] + vec[i + 1..];
            Heaped(m, inBlock, rest, waiting) && vec[i] in m && vec[i] !in inBlock && vec[i] !in waiting && vec[i] !in rest
  {
  }

  lemma Wait(m: Pool, inBlock: set<Tx>, vec: seq<Tx>, waiting: set<Tx>, x: Tx)
    requires Heaped(m, inBlock, vec, waiting) && x in m && x !in inBlock && x !in vec
    ensures Heaped(m, inBlock, vec, waiting + {x})
  {
  }

  lemma EnterLater(m: Pool, b: Block, vec: seq<Tx>, waiting: set<Tx>, x: Tx)
    requires Heaped(m, b.inBlock, vec, waiting) && x in m && x !in vec && x !in waiting && x !in b.inBlock
    ensures Heaped(m, b.inBlock + {x}, vec, waiting)
    ensures Remaining(m, b.inBlock + {x}) < Remaining(m, b.inBlock)
  {
    Smaller(m.Keys - (b.inBlock + {x}), m.Keys - b.inBlock, x);
  }

  // Children that were waiting go back on the heap.
  method Release(m: Pool, inBlock: set<Tx>, x: Tx, vec0: seq<Tx>, waiting0: set<Tx>) returns (vec: seq<Tx>, waiting: set<Tx>)
    requires Heaped(m, inBlock, vec0, waiting0)
    ensures Heaped(m, inBlock, vec, waiting) && waiting == waiting0 - Children(m, x)
    ensures forall y :: y in vec0 || (y in waiting0 && y in Children(m, x)) ==> y in vec
  {
    vec, waiting := vec0, waiting0;
    var todo := Children(m, x);
    while todo != {}
      invariant Heaped(m, inBlock, vec, waiting) && todo <= Children(m, x) && waiting == waiting0 - (Children(m, x) - todo)
      invariant forall y :: y in vec0 || (y in waiting0 && y in Children(m, x) - todo) ==> y in vec
      decreases |todo|
    {
      var child :| child in todo;
      if child in waiting {
        vec := vec + [child];
        waiting := waiting - {child};
      }
      todo := todo - {child};
    }
  }

  // The priority above which a transaction may be free.
  const ALLOW_FREE_THRESHOLD: real := 576000000.0

  predicate AllowFree(priority: real) { priority > ALLOW_FREE_THRESHOLD }

  datatype PriorityStop = Disabled | Emptied | Finished | Filled | LowPriority

  // With exactly `before` in the block, x depends on nothing else and TestForBlock refuses it.
  ghost predicate TurnedDownAt(m: Pool, c: Config, before: seq<Tx>, x: Tx) {
    && x in m && m[x].parents <= Elements(before)
    && !(&& 4000 + Sum(Elements(before), WeightOf(m)) + m[x].weight < c.nBlockMaxWeight
         && 1000 + Sum(Elements(before), SerializedOf(m)) + m[x].serialized < c.nBlockMaxSize
         && 400 + Sum(Elements(before), SigopsOf(m)) + m[x].sigops < MAX_BLOCK_SIGOPS_COST
         && m[x].isFinal)
  }

  ghost predicate TurnedDown(m: Pool, c: Config, vtx: seq<Tx>, x: Tx) {
    exists j :: 0 <= j <= |vtx| && TurnedDownAt(m, c, vtx[..j], x)
  }

  ghost predicate Passed(m: Pool, c: Config, segwit: bool, vtx: seq<Tx>, x: Tx) {
    x in m && ((!segwit && m[x].hasWitness) || TurnedDown(m, c, vtx, x))
  }

  // x is in the block, or was turned down, or has a witness the block cannot carry, or lacked a parent among the first n.
  ghost predicate Settled(m: Pool, c: Config, segwit: bool, vtx: seq<Tx>, n: nat, x: Tx)
    requires n <= |vtx|
  {
    x in vtx || Passed(m, c, segwit, vtx, x) || (x in m && !(m[x].parents <= Elements(vtx[..n])))
  }

  // What was added after vtx0 has a priority that allows a free transaction.
  ghost predicate Favoured(vtx0: seq<Tx>, vtx: seq<Tx>, priority: Tx -> real) {
    vtx0 <= vtx && forall k :: |vtx0| <= k < |vtx| ==> AllowFree(priority(vtx[k]))
  }

  /** How the priority phase ended. */
  ghost predicate PriorityEnded(m: Pool, c: Config, segwit: bool, vtx0: seq<Tx>, b: Block, pool: seq<Tx>, priority: Tx -> real, limit: nat,
                                finished: bool, why: PriorityStop)
  {
    match why
    case Disabled => limit == 0 && b.vtx == vtx0
    case Emptied => Favoured(vtx0, b.vtx, priority) && forall k :: 0 <= k < |pool| ==> Settled(m, c, segwit, b.vtx, |b.vtx|, pool[k])
    case Finished => Favoured(vtx0, b.vtx, priority) && finished
    case Filled => vtx0 < b.vtx && Favoured(vtx0, b.vtx[..|b.vtx| - 1], priority) && b.nBlockSize >= limit
    case LowPriority =>
      && vtx0 < b.vtx && Favoured(vtx0, b.vtx[..|b.vtx| - 1], priority) && !AllowFree(priority(b.vtx[|b.vtx| - 1]))
      && forall k :: 0 <= k < |pool| && AllowFree(priority(pool[k])) ==> Settled(m, c, segwit, b.vtx, |b.vtx| - 1, pool[k])
  }

  // Every entry is in the block, on the heap, waiting for a parent, or passed over.
  ghost predicate Tracked(m: Pool, c: Config, segwit: bool, b: Block, vec: seq<Tx>, waiting: set<Tx>, pool: seq<Tx>) {
    && b.inBlock == Elements(b.vtx)
    && (forall k :: 0 <= k < |pool| ==> pool[k] in b.vtx || pool[k] in vec || pool[k] in waiting || Passed(m, c, segwit, b.vtx, pool[k]))
    && forall x :: x in waiting ==> x in m && !(m[x].parents <= b.inBlock)
  }

  lemma TurnedDownNow(m: Pool, c: Config, b: Block, x: Tx)
    requires Good(m, c, b) && b.fNeedSizeAccounting && x in m && m[x].parents <= b.inBlock
    requires !(&& b.nBlockWeight + m[x].weight < c.nBlockMaxWeight && b.nBlockSize + m[x].serialized < c.nBlockMaxSize
               && b.nBlockSigOpsCost + m[x].sigops < MAX_BLOCK_SIGOPS_COST && m[x].isFinal)
    ensures TurnedDown(m, c, b.vtx, x)
  {
    hide Correct, Ordered, Sum, Within, Elements;
    assert b.vtx[..|b.vtx|] == b.vtx;
    assert TurnedDownAt(m, c, b.vtx[..|b.vtx|], x);
  }

  lemma PassedLater(m: Pool, c: Config, segwit: bool, vtx: seq<Tx>, vtx': seq<Tx>, x: Tx)
    requires vtx <= vtx' && Passed(m, c, segwit, vtx, x)
    ensures Passed(m, c, segwit, vtx', x)
  {
    hide TurnedDownAt;
    if TurnedDown(m, c, vtx, x) {
      var j :| 0 <= j <= |vtx| && TurnedDownAt(m, c, vtx[..j], x);
      assert vtx'[..j] == vtx[..j];
    }
  }

  lemma NoPriority(m: Pool, c: Config, segwit: bool, b: Block, pool: seq<Tx>, priority: Tx -> real, finished: bool)
    ensures PriorityEnded(m, c, segwit, b.vtx, b, pool, priority, 0, finished, Disabled)
  {
  }

  lemma TrackAll(m: Pool, c: Config, segwit: bool, b: Block, pool: seq<Tx>, priority: Tx -> real)
    requires Good(m, c, b)
    ensures Tracked(m, c, segwit, b, pool, {}, pool) && Favoured(b.vtx, b.vtx, priority)
  {
    hide Passed, Correct, Ordered, Totals, Within;
  }

  lemma Without(vec: seq<Tx>, i: nat, x: Tx)
    requires i < |vec| && x in vec
    ensures x == vec[i] || x in vec[..i] + vec[i + 1..]
  {
    var k :| 0 <= k < |vec| && vec[k] == x;
    if k < i {
      assert (vec[..i] + vec[i + 1..])[k] == x;
    } else if k > i {
      assert (vec[..i] + vec[i + 1..])[k - 1] == x;
    }
  }

  lemma TrackPass(m: Pool, c: Config, segwit: bool, b: Block, vec: seq<Tx>, i: nat, waiting: set<Tx>, pool: seq<Tx>)
    requires Tracked(m, c, segwit, b, vec, waiting, pool) && i < |vec| && Passed(m, c, segwit, b.vtx, vec[i])
    ensures Tracked(m, c, segwit, b, vec[..i] + vec[i + 1..], waiting, pool)
  {
    hide Passed;
    forall x | x in vec ensures x == vec[i] || x in vec[..i] + vec[i + 1..] { Without(vec, i, x); }
  }

  lemma TrackWait(m: Pool, c: Config, segwit: bool, b: Block, vec: seq<Tx>, i: nat, waiting: set<Tx>, pool: seq<Tx>)
    requires Tracked(m, c, segwit, b, vec, waiting, pool) && i < |vec| && vec[i] in m && !(m[vec[i]].parents <= b.inBlock)
    ensures Tracked(m, c, segwit, b, vec[..i] + vec[i + 1..], waiting + {vec[i]}, pool)
  {
    hide Passed;
    forall x | x in vec ensures x == vec[i] || x in vec[..i] + vec[i + 1..] { Without(vec, i, x); }
  }

  // Once a transaction is in and its waiting children are back on the heap, what still waits lacks another parent.
  lemma TrackAdd(m: Pool, c: Config, segwit: bool, b: Block, vec: seq<Tx>, i: nat, waiting: set<Tx>, vec': seq<Tx>, pool: seq<Tx>)
    requires Tracked(m, c, segwit, b, vec, waiting, pool) && i < |vec| && vec[i] in m
    requires forall x :: x in vec[..i] + vec[i + 1..] || (x in waiting && x in Children(m, vec[i])) ==> x in vec'
    ensures Tracked(m, c, segwit, Added(m, b, vec[i]), vec', waiting - Children(m, vec[i]), pool)
  {
    hide Passed;
    var b' := Added(m, b, vec[i]);
    forall x | x in vec ensures x == vec[i] || x in vec' { Without(vec, i, x); }
    forall x | Passed(m, c, segwit, b.vtx, x) ensures Passed(m, c, segwit, b'.vtx, x) { PassedLater(m, c, segwit, b.vtx, b'.vtx, x); }
  }

  lemma FavourAdd(m: Pool, vtx0: seq<Tx>, b: Block, x: Tx, priority: Tx -> real)
    requires Favoured(vtx0, b.vtx, priority) && x in m && AllowFree(priority(x))
    ensures Favoured(vtx0, Added(m, b, x).vtx, priority)
  {
  }

  lemma AddedFacts(m: Pool, b: Block, x: Tx)
    requires x in m
    ensures var b' := Added(m, b, x);
            b'.inBlock == b.inBlock + {x} && b'.vtx == b.vtx + [x] && b'.fNeedSizeAccounting == b.fNeedSizeAccounting
  {
  }

  lemma EndOfHeap(m: Pool, c: Config, segwit: bool, vtx0: seq<Tx>, b: Block, vec: seq<Tx>, waiting: set<Tx>, pool: seq<Tx>,
                  priority: Tx -> real, limit: nat, finished: bool, why: PriorityStop)
    requires Tracked(m, c, segwit, b, vec, waiting, pool) && Favoured(vtx0, b.vtx, priority)
    requires (vec == [] && why == Emptied) || (finished && why == Finished)
    ensures PriorityEnded(m, c, segwit, vtx0, b, pool, priority, limit, finished, why)
  {
    hide Passed, Favoured;
    assert b.vtx[..|b.vtx|] == b.vtx;
  }

  // The last addition ends the phase: what is left on the heap has no higher priority.
  lemma EndBroken(m: Pool, c: Config, segwit: bool, vtx0: seq<Tx>, b: Block, vec: seq<Tx>, i: nat, waiting: set<Tx>, pool: seq<Tx>,
                  priority: Tx -> real, limit: nat, finished: bool, why: PriorityStop)
    requires Tracked(m, c, segwit, b, vec, waiting, pool) && Favoured(vtx0, b.vtx, priority)
    requires i < |vec| && vec[i] in m && forall k :: 0 <= k < |vec| ==> priority(vec[k]) <= priority(vec[i])
    requires var full := Added(m, b, vec[i]).nBlockSize >= limit;
             if full then why == Filled else why == LowPriority && !AllowFree(priority(vec[i]))
    ensures PriorityEnded(m, c, segwit, vtx0, Added(m, b, vec[i]), pool, priority, limit, finished, why)
  {
    hide Passed;
    var b' := Added(m, b, vec[i]);
    assert b'.vtx[..|b'.vtx| - 1] == b.vtx;
    forall x | Passed(m, c, segwit, b.vtx, x) ensures Passed(m, c, segwit, b'.vtx, x) { PassedLater(m, c, segwit, b.vtx, b'.vtx, x); }
  }

  // A transaction whose parents are all in the block and that passed TestForBlock can be added.
  lemma IndependentKeeps(m: Pool, c: Config, b: Block, x: Tx)
    requires Good(m, c, b) && x in m && x !in b.inBlock && m[x].parents <= b.inBlock
    requires b.nBlockWeight + m[x].weight < c.nBlockMaxWeight && b.nBlockSigOpsCost + m[x].sigops < MAX_BLOCK_SIGOPS_COST
    requires b.fNeedSizeAccounting ==> b.nBlockSize + m[x].serialized < c.nBlockMaxSize
    ensures Good(m, c, Added(m, b, x))
  {
    hide Good, Layered, Anc, Sum, Closed, Complete;
    GoodClosed(m, c, b);
    ParentsIn(m, b.inBlock, x);
    SumOne(x, WeightOf(m));
    SumOne(x, SigopsOf(m));
    SumOne(x, SerializedOf(m));
    AddKeeps(m, c, b, x, {x});
  }

  lemma SumOne(x: Tx, f: Tx -> nat)
    ensures Sum({x}, f) == f(x)
  {
    SumAdd({}, x, f);
    assert {} + {x} == {x};
  }

  lemma ParentsIn(m: Pool, inBlock: set<Tx>, x: Tx)
    requires Layered(m) && Closed(m, inBlock) && x in m && m[x].parents <= inBlock
    ensures Anc(m, x) <= inBlock
  {
    forall a | a in Anc(m, x) ensures a in inBlock {
      AncCase(m, x, a);
    }
  }

  ghost predicate Pending(m: Pool, inBlock: set<Tx>, pool: seq<Tx>) {
    forall k :: 0 <= k < |pool| ==> pool[k] in m && pool[k] !in inBlock
  }

  lemma Heap(m: Pool, inBlock: set<Tx>, pool: seq<Tx>)
    requires Distinct(pool) && Pending(m, inBlock, pool)
    ensures Heaped(m, inBlock, pool, {})
  {
  }

  lemma Accounted(m: Pool, c: Config, b: Block)
    requires Good(m, c, b) && b.nBlockSize == 1000 + Sum(b.inBlock, SerializedOf(m))
    ensures Good(m, c, b.(fNeedSizeAccounting := true))
  {
    hide Layered, Ordered, Sum;
  }

  lemma Unaccounted(m: Pool, c: Config, b: Block, sizes: bool)
    requires Good(m, c, b) && b.fNeedSizeAccounting
    ensures Good(m, c, b.(fNeedSizeAccounting := sizes))
  {
    hide Layered, Ordered, Elements, Sum, Anc;
  }

  // --- What the selection loop keeps ---

  lemma HasKey(mod: map<Tx, ModEntry>)
    ensures mod.Keys == {} ==> mod == map[]
  {
  }

  lemma NothingListed(m: Pool, s: set<Tx>)
    ensures Unlisted(m, map[], s)
  {
  }

  lemma FewerListed(mod: map<Tx, ModEntry>, x: Tx)
    requires x in mod
    ensures |mod - {x}| < |mod|
  {
    assert (mod - {x}).Keys == mod.Keys - {x};
  }

  lemma MoreIncluded(m: Pool, inBlock: set<Tx>, x: Tx)
    requires Layered(m) && x in m && x !in inBlock
    ensures x in Missing(m, inBlock, x) && Remaining(m, inBlock + Missing(m, inBlock, x)) < Remaining(m, inBlock)
  {
    Smaller(m.Keys - (inBlock + Missing(m, inBlock, x)), m.Keys - inBlock, x);
  }

  ghost predicate Selecting(m: Pool, c: Config, b: Block, mod: map<Tx, ModEntry>, failed: set<Tx>) {
    Good(m, c, b) && Tracking(m, b.inBlock, mod, failed)
  }

  // The candidate and its totals, taken from the pool or from the modified entries.
  ghost predicate Candidate(m: Pool, b: Block, x: Tx, e: ModEntry) {
    Layered(m) && x in m && x !in b.inBlock && Covers(m, b.inBlock, x, e)
  }

  lemma FromModified(m: Pool, c: Config, b: Block, mod: map<Tx, ModEntry>, failed: set<Tx>, x: Tx)
    requires Selecting(m, c, b, mod, failed) && x in mod
    ensures Candidate(m, b, x, mod[x]) && (x in failed || Exact(m, mod[x], Missing(m, b.inBlock, x)))
  {
    hide Layered, Missing, Covers, Exact, Ordered, Totals, Within;
  }

  lemma CandidateNew(m: Pool, b: Block, x: Tx, e: ModEntry)
    requires Candidate(m, b, x, e)
    ensures Layered(m) && x in m && x !in b.inBlock
  {
  }

  lemma SelectingGood(m: Pool, c: Config, b: Block, mod: map<Tx, ModEntry>, failed: set<Tx>)
    requires Selecting(m, c, b, mod, failed)
    ensures Good(m, c, b)
  {
  }

  lemma FromPool(m: Pool, c: Config, b: Block, mod: map<Tx, ModEntry>, failed: set<Tx>, x: Tx)
    requires Selecting(m, c, b, mod, failed) && x in m && x !in b.inBlock && x !in mod && x !in failed
    ensures Candidate(m, b, x, Cached(m, x)) && Exact(m, Cached(m, x), Missing(m, b.inBlock, x))
  {
    hide Layered, Missing, Covers, Exact, Ordered, Totals, Within;
    CachedCovers(m, b.inBlock, x);
  }

  lemma KeysKept(m: Pool, mod: map<Tx, ModEntry>, mod': map<Tx, ModEntry>, pkg: set<Tx>)
    requires Layered(m) && Updated(m, mod - pkg, mod', pkg, pkg) && Unlisted(m, mod - pkg, pkg)
    ensures mod.Keys <= mod'.Keys + pkg
  {
    hide Layered, Reduced, Anc;
  }

  lemma NothingConsidered(m: Pool, c: Config, segwit: bool, b: Block, mod: map<Tx, ModEntry>, mapTx: seq<Tx>)
    ensures Considered(m, c, segwit, b, mod, {}, mapTx, 0, {})
  {
  }

  // What failed before was rejected then.
  lemma FailedBefore(m: Pool, c: Config, segwit: bool, b: Block, mod: map<Tx, ModEntry>, failed: set<Tx>, mapTx: seq<Tx>, mi: nat, x: Tx)
    requires Considered(m, c, segwit, b, mod, failed, mapTx, mi, {x})
    ensures x in failed ==> Rejected(m, c, segwit, b.fNeedSizeAccounting, b.vtx, x)
  {
    hide Rejected;
  }

  lemma AllConsidered(m: Pool, c: Config, segwit: bool, b: Block, mod: map<Tx, ModEntry>, failed: set<Tx>, mapTx: seq<Tx>, mi: nat)
    requires Considered(m, c, segwit, b, mod, failed, mapTx, mi, {})
    ensures mi == |mapTx| && mod == map[] ==> Ended(m, c, segwit, b, mapTx, Exhausted)
  {
    hide Rejected;
  }

  lemma Dropped(m: Pool, c: Config, b: Block, mod: map<Tx, ModEntry>, failed: set<Tx>, x: Tx)
    requires Selecting(m, c, b, mod, failed)
    ensures Selecting(m, c, b, mod - {x}, failed + {x})
  {
    hide Layered, Ordered, Totals, Within, Tracking;
    FailKeeps(m, b.inBlock, mod, failed, x);
  }

  lemma FirstUpdate(m: Pool, c: Config, b: Block, mod: map<Tx, ModEntry>)
    requires Good(m, c, b) && Updated(m, map[], mod, b.inBlock, b.inBlock)
    ensures Selecting(m, c, b, mod, {})
  {
    hide Layered, Ordered, Totals, Within, Tracking, Updated, Complete, Closed;
    GoodClosed(m, c, b);
    TrackingStart(m);
    ClosedEmpty(m);
    var none: map<Tx, ModEntry> := map[];
    assert none - b.inBlock == none;
    TrackingKeeps(m, {}, none, mod, {}, b.inBlock);
    assert {} + b.inBlock == b.inBlock;
  }

  lemma ClosedEmpty(m: Pool)
    requires Layered(m)
    ensures Closed(m, {})
  {
  }

  lemma AfterPackage(m: Pool, c: Config, b: Block, b': Block, mod: map<Tx, ModEntry>, mod': map<Tx, ModEntry>, failed: set<Tx>,
                     pkg: set<Tx>)
    requires Selecting(m, c, b, mod, failed) && Good(m, c, b') && b'.inBlock == b.inBlock + pkg
    requires Complete(m, b.inBlock, pkg) && Updated(m, mod - pkg, mod', pkg, pkg)
    ensures Selecting(m, c, b', mod', failed)
  {
    hide Layered, Ordered, Totals, Within, Tracking, Updated, Complete, Closed;
    GoodClosed(m, c, b);
    TrackingKeeps(m, b.inBlock, mod, mod', failed, pkg);
  }

  lemma CandidateFacts(m: Pool, c: Config, b: Block, x: Tx, e: ModEntry)
    requires Good(m, c, b) && Candidate(m, b, x, e)
    ensures Missing(m, b.inBlock, x) == Anc(m, x) - b.inBlock + {x}
    ensures Complete(m, b.inBlock, Missing(m, b.inBlock, x)) && Missing(m, b.inBlock, x) <= m.Keys
  {
    hide Good, Layered, Anc, Complete, Covers;
    MissingComplete(m, b.inBlock, x);
    MissingIs(m, b.inBlock, x);
  }

  lemma MissingIs(m: Pool, inBlock: set<Tx>, x: Tx)
    requires Layered(m) && x in m && x !in inBlock && Complete(m, inBlock, Missing(m, inBlock, x))
    ensures Missing(m, inBlock, x) == Anc(m, x) - inBlock + {x} && Missing(m, inBlock, x) <= m.Keys
  {
    hide Layered, Anc;
  }

  lemma StillUnlisted(m: Pool, c: Config, b: Block, mod: map<Tx, ModEntry>, failed: set<Tx>, pkg: set<Tx>)
    requires Selecting(m, c, b, mod, failed)
    ensures Unlisted(m, mod - pkg, pkg)
  {
    hide Layered, Missing, Covers, Exact, Anc;
  }

  lemma CandidateFits(m: Pool, c: Config, b: Block, x: Tx, e: ModEntry)
    requires Good(m, c, b) && Candidate(m, b, x, e)
    requires b.nBlockWeight + WITNESS_SCALE_FACTOR * e.nSizeWithAncestors < c.nBlockMaxWeight
    requires b.nBlockSigOpsCost + e.nSigOpCostWithAncestors < MAX_BLOCK_SIGOPS_COST
    requires b.fNeedSizeAccounting ==> b.nBlockSize + Sum(Missing(m, b.inBlock, x), SerializedOf(m)) < c.nBlockMaxSize
    ensures Fits(m, c, b, Missing(m, b.inBlock, x))
  {
    hide Layered, Sum, Missing, Ordered, Totals, Within;
    CandidateFacts(m, c, b, x, e);
    CoversNoLess(m, b.inBlock, x, e);
    PackageFits(m, c, b, e, Missing(m, b.inBlock, x));
  }

  lemma NoElements()
    ensures Elements<Tx>([]) == {}
  {
  }

  lemma Lengthened(m: Pool, b: Block, x: Tx)
    requires x in m
    ensures b.vtx <= Added(m, b, x).vtx
  {
  }

  lemma MapShrink<V>(mod: map<Tx, V>, e: set<Tx>, x: Tx)
    ensures mod - e - {x} == mod - (e + {x})
  {
  }
}
