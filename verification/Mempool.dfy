/** The memory pool as the block assembler sees it: the dependency graph and the cached ancestor totals. */
module Mempool {
  import opened Common

  // A mempool entry is known by a number, in place of an iterator ordered by transaction hash.
  type Tx = nat

  datatype Entry = Entry(parents: set<Tx>, size: nat, weight: nat, serialized: nat, sigops: nat, fee: int, modFee: int,
                         isFinal: bool, hasWitness: bool,
                         countWithAncestors: nat, sizeWithAncestors: nat, sigopsWithAncestors: nat, modFeesWithAncestors: int)

  type Pool = map<Tx, Entry>

  // --- Sums over sets ---

  ghost function Sum(s: set<Tx>, f: Tx -> nat): nat
    decreases |s|
  {
    if s == {} then 0 else var x :| x in s; f(x) + Sum(s - {x}, f)
  }

  lemma {:induction false} SumRemove(s: set<Tx>, x: Tx, f: Tx -> nat)
    requires x in s
    ensures Sum(s, f) == f(x) + Sum(s - {x}, f)
    decreases |s|
  {
    var y :| y in s && Sum(s, f) == f(y) + Sum(s - {y}, f);
    if y != x {
      SumRemove(s - {y}, x, f);
      SumRemove(s - {x}, y, f);
      assert s - {y} - {x} == s - {x} - {y};
    }
  }

  lemma SumAdd(s: set<Tx>, x: Tx, f: Tx -> nat)
    requires x !in s
    ensures Sum(s + {x}, f) == f(x) + Sum(s, f)
  {
    SumRemove(s + {x}, x, f);
    assert s + {x} - {x} == s;
  }

  lemma {:induction false} SumSplit(s: set<Tx>, t: set<Tx>, f: Tx -> nat)
    requires t <= s
    ensures Sum(s, f) == Sum(t, f) + Sum(s - t, f)
    decreases |t|
  {
    if t == {} {
      assert s - t == s;
    } else {
      var x :| x in t;
      SumRemove(s, x, f);
      SumRemove(t, x, f);
      SumSplit(s - {x}, t - {x}, f);
      assert s - {x} - (t - {x}) == s - t;
    }
  }

  lemma {:induction false} SumScaled(s: set<Tx>, f: Tx -> nat, g: Tx -> nat)
    requires forall x :: x in s ==> f(x) <= 4 * g(x)
    ensures Sum(s, f) <= 4 * Sum(s, g)
    decreases |s|
  {
    if s != {} {
      var x :| x in s;
      SumRemove(s, x, f);
      SumRemove(s, x, g);
      SumScaled(s - {x}, f, g);
    }
  }

  lemma {:induction false} SumAtMost(s: set<Tx>, f: Tx -> nat, g: Tx -> nat)
    requires forall x :: x in s ==> f(x) <= g(x)
    ensures Sum(s, f) <= Sum(s, g)
    decreases |s|
  {
    if s != {} {
      var x :| x in s;
      SumRemove(s, x, f);
      SumRemove(s, x, g);
      SumAtMost(s - {x}, f, g);
    }
  }

  // A sum of signed amounts: what comes in less what goes out.
  ghost function Net(s: set<Tx>, f: Tx -> int): int { Sum(s, In(f)) - Sum(s, Out(f)) }

  ghost function In(f: Tx -> int): Tx -> nat { x => if f(x) > 0 then f(x) else 0 }
  ghost function Out(f: Tx -> int): Tx -> nat { x => if f(x) < 0 then -f(x) else 0 }

  lemma NetAdd(s: set<Tx>, x: Tx, f: Tx -> int)
    requires x !in s
    ensures Net(s + {x}, f) == f(x) + Net(s, f)
  {
    SumAdd(s, x, In(f));
    SumAdd(s, x, Out(f));
  }

  lemma NetSplit(s: set<Tx>, t: set<Tx>, f: Tx -> int)
    requires t <= s
    ensures Net(s, f) == Net(t, f) + Net(s - t, f)
  {
    SumSplit(s, t, In(f));
    SumSplit(s, t, Out(f));
  }

  lemma NoNet(f: Tx -> int)
    ensures Net({}, f) == 0
  {
  }

  // --- Ancestors ---

  // Parents are in the pool and have a smaller ancestor count, so the graph is acyclic; an acyclic pool
  // whose counts are right is always of this kind (CountsLayer).
  ghost predicate Layered(m: Pool) {
    forall x, p :: x in m && p in m[x].parents ==> p in m && m[p].countWithAncestors < m[x].countWithAncestors
  }

  // Everything x depends on.
  ghost function Anc(m: Pool, x: Tx): set<Tx>
    requires Layered(m) && x in m
    decreases m[x].countWithAncestors
  {
    m[x].parents + (set p, a | p in m[x].parents && a in Anc(m, p) :: a)
  }

  lemma AncOfParent(m: Pool, x: Tx, p: Tx)
    requires Layered(m) && x in m && p in m[x].parents
    ensures p in m && p in Anc(m, x) && Anc(m, p) <= Anc(m, x)
  {
  }

  lemma AncCase(m: Pool, x: Tx, a: Tx)
    requires Layered(m) && x in m && a in Anc(m, x)
    ensures a in m[x].parents || exists p :: p in m[x].parents && a in Anc(m, p)
  {
  }

  lemma {:induction false} AncBelow(m: Pool, x: Tx, a: Tx)
    requires Layered(m) && x in m && a in Anc(m, x)
    ensures a in m && m[a].countWithAncestors < m[x].countWithAncestors && Anc(m, a) <= Anc(m, x)
    decreases m[x].countWithAncestors
  {
    AncCase(m, x, a);
    if a in m[x].parents {
      AncOfParent(m, x, a);
    } else {
      var p :| p in m[x].parents && a in Anc(m, p);
      AncBelow(m, p, a);
      AncOfParent(m, x, p);
    }
  }

  ghost predicate ParentClosed(m: Pool, s: set<Tx>) {
    forall a :: a in s && a in m ==> m[a].parents <= s
  }

  // The ancestors are the least set that holds the parents and is closed under parents.
  lemma {:induction false} AncLeast(m: Pool, x: Tx, s: set<Tx>)
    requires Layered(m) && x in m && ParentClosed(m, s) && m[x].parents <= s
    ensures Anc(m, x) <= s
    decreases m[x].countWithAncestors
  {
    forall a | a in Anc(m, x) ensures a in s {
      AncCase(m, x, a);
      if a !in m[x].parents {
        var p :| p in m[x].parents && a in Anc(m, p);
        AncLeast(m, p, s);
      }
    }
  }

  lemma AncParents(m: Pool, x: Tx, a: Tx)
    requires Layered(m) && x in m && a in Anc(m, x)
    ensures a in m && m[a].parents <= Anc(m, x)
  {
    AncBelow(m, x, a);
    forall p | p in m[a].parents ensures p in Anc(m, x) {
      AncOfParent(m, a, p);
    }
  }

  // If every entry's count is one more than the number of its ancestors, for any ancestor map of an
  // acyclic graph, then the pool is layered.
  lemma CountsLayer(m: Pool, anc: map<Tx, set<Tx>>)
    requires anc.Keys == m.Keys
    requires forall x, p :: x in m && p in m[x].parents ==> p in m && p in anc[x] && anc[p] <= anc[x]
    requires forall x :: x in m ==> x !in anc[x] && m[x].countWithAncestors == |anc[x]| + 1
    ensures Layered(m)
  {
    forall x, p | x in m && p in m[x].parents ensures m[p].countWithAncestors < m[x].countWithAncestors {
      Smaller(anc[p], anc[x], p);
    }
  }

  // --- The cached totals ---

  ghost function SizeOf(m: Pool): Tx -> nat { x => if x in m then m[x].size else 0 }
  ghost function SigopsOf(m: Pool): Tx -> nat { x => if x in m then m[x].sigops else 0 }
  ghost function WeightOf(m: Pool): Tx -> nat { x => if x in m then m[x].weight else 0 }
  ghost function SerializedOf(m: Pool): Tx -> nat { x => if x in m then m[x].serialized else 0 }

  // The fee a transaction pays, and the fee it counts for after adjustments by the operator.
  ghost function FeeOf(m: Pool): Tx -> int { x => if x in m then m[x].fee else 0 }
  ghost function ModFeeOf(m: Pool): Tx -> int { x => if x in m then m[x].modFee else 0 }

  ghost predicate Unadjusted(m: Pool) { forall x :: x in m ==> m[x].modFee == m[x].fee }

  ghost function Package(m: Pool, x: Tx): set<Tx>
    requires Layered(m) && x in m
  {
    Anc(m, x) + {x}
  }

  // Acyclic, with the right totals, and with sizes that are virtual sizes.
  ghost predicate Correct(m: Pool) {
    Layered(m) &&
    forall x :: x in m ==>
      && m[x].sizeWithAncestors == Sum(Package(m, x), SizeOf(m))
      && m[x].sigopsWithAncestors == Sum(Package(m, x), SigopsOf(m))
      && m[x].modFeesWithAncestors == Net(Package(m, x), ModFeeOf(m))
      && m[x].weight <= WITNESS_SCALE_FACTOR * m[x].size
  }

  const WITNESS_SCALE_FACTOR := 4

  function VirtualSize(weight: nat, sigops: nat, nBytesPerSigOp: nat): nat {
    ((if weight < sigops * nBytesPerSigOp then sigops * nBytesPerSigOp else weight) + WITNESS_SCALE_FACTOR - 1) / WITNESS_SCALE_FACTOR
  }

  lemma VirtualSizeCovers(weight: nat, sigops: nat, nBytesPerSigOp: nat)
    ensures weight <= WITNESS_SCALE_FACTOR * VirtualSize(weight, sigops, nBytesPerSigOp)
    ensures sigops * nBytesPerSigOp <= WITNESS_SCALE_FACTOR * VirtualSize(weight, sigops, nBytesPerSigOp)
    ensures 4 * VirtualSize(weight, sigops, nBytesPerSigOp) <= Max(weight, sigops * nBytesPerSigOp) + 3
  {
  }

  // --- The two graph walks ---

  ghost predicate Frontier(m: Pool, x: Tx, found: set<Tx>, stage: set<Tx>)
    requires Layered(m) && x in m
  {
    && found + stage <= Anc(m, x) && found !! stage
    && m[x].parents <= found + stage
    && forall a :: a in found && a in m ==> m[a].parents <= found + stage
  }

  lemma FrontierNext(m: Pool, x: Tx, found: set<Tx>, stage: set<Tx>, it: Tx)
    requires Layered(m) && x in m && Frontier(m, x, found, stage) && it in stage
    ensures it in m && Frontier(m, x, found + {it}, stage - {it} + (m[it].parents - (found + {it})))
  {
    AncParents(m, x, it);
  }

  lemma FrontierDone(m: Pool, x: Tx, found: set<Tx>)
    requires Layered(m) && x in m && Frontier(m, x, found, {})
    ensures found == Anc(m, x)
  {
    assert found + {} == found;
    assert ParentClosed(m, found);
    AncLeast(m, x, found);
  }

  method CalculateMemPoolAncestors(m: Pool, x: Tx) returns (setAncestors: set<Tx>)
    requires Layered(m) && x in m
    ensures setAncestors == Anc(m, x)
  {
    hide Layered, Anc, Frontier;
    setAncestors := {};
    var parentHashes := m[x].parents;
    FrontierStart(m, x);
    while parentHashes != {}
      invariant Frontier(m, x, setAncestors, parentHashes)
      decreases |Anc(m, x) - setAncestors|
    {
      var stageit :| stageit in parentHashes;
      FrontierNext(m, x, setAncestors, parentHashes, stageit);
      FrontierShrinks(m, x, setAncestors, parentHashes, stageit);
      setAncestors := setAncestors + {stageit};
      parentHashes := parentHashes - {stageit} + (m[stageit].parents - setAncestors);
    }
    FrontierDone(m, x, setAncestors);
  }

  lemma FrontierStart(m: Pool, x: Tx)
    requires Layered(m) && x in m
    ensures Frontier(m, x, {}, m[x].parents)
  {
  }

  lemma FrontierShrinks(m: Pool, x: Tx, found: set<Tx>, stage: set<Tx>, it: Tx)
    requires Layered(m) && x in m && Frontier(m, x, found, stage) && it in stage
    ensures |Anc(m, x) - (found + {it})| < |Anc(m, x) - found|
  {
    Smaller(Anc(m, x) - (found + {it}), Anc(m, x) - found, it);
  }

  ghost function Desc(m: Pool, x: Tx): set<Tx>
    requires Layered(m)
  {
    set d | d in m && (d == x || x in Anc(m, d))
  }

  function Children(m: Pool, x: Tx): set<Tx> {
    set c | c in m && x in m[c].parents
  }

  ghost predicate DownFrontier(m: Pool, x: Tx, found: set<Tx>, stage: set<Tx>)
    requires Layered(m)
  {
    && found + stage <= Desc(m, x) && found !! stage
    && x in found + stage
    && forall a :: a in found ==> Children(m, a) <= found + stage
  }

  lemma ChildrenBelow(m: Pool, x: Tx, it: Tx)
    requires Layered(m) && it in Desc(m, x)
    ensures Children(m, it) <= Desc(m, x)
  {
    forall c | c in Children(m, it) ensures c in Desc(m, x) {
      AncOfParent(m, c, it);
    }
  }

  lemma DownNext(m: Pool, x: Tx, found: set<Tx>, stage: set<Tx>, it: Tx)
    requires Layered(m) && DownFrontier(m, x, found, stage) && it in stage
    ensures DownFrontier(m, x, found + {it}, stage - {it} + (Children(m, it) - (found + {it})))
    ensures |Desc(m, x) - (found + {it})| < |Desc(m, x) - found|
  {
    hide Layered, Anc, Desc, Children;
    ChildrenBelow(m, x, it);
    Smaller(Desc(m, x) - (found + {it}), Desc(m, x) - found, it);
  }

  lemma {:induction false} Reached(m: Pool, x: Tx, found: set<Tx>, d: Tx)
    requires Layered(m) && DownFrontier(m, x, found, {}) && d in m && x in Anc(m, d)
    ensures d in found
    decreases m[d].countWithAncestors
  {
    AncCase(m, d, x);
    if x in m[d].parents {
      assert d in Children(m, x);
    } else {
      var p :| p in m[d].parents && x in Anc(m, p);
      Reached(m, x, found, p);
      assert d in Children(m, p);
    }
  }

  lemma DownDone(m: Pool, x: Tx, found: set<Tx>)
    requires Layered(m) && DownFrontier(m, x, found, {})
    ensures found == Desc(m, x)
  {
    forall d | d in Desc(m, x) ensures d in found {
      if d != x {
        Reached(m, x, found, d);
      }
    }
  }

  method CalculateDescendants(m: Pool, x: Tx) returns (setDescendants: set<Tx>)
    requires Layered(m) && x in m
    ensures setDescendants == Desc(m, x)
  {
    setDescendants := {};
    var stage: set<Tx> := {x};
    assert DownFrontier(m, x, setDescendants, stage);
    hide Layered, Anc, Desc, DownFrontier, Children;
    while stage != {}
      invariant DownFrontier(m, x, setDescendants, stage)
      decreases |Desc(m, x) - setDescendants|
    {
      var it :| it in stage;
      DownNext(m, x, setDescendants, stage, it);
      setDescendants := setDescendants + {it};
      stage := stage - {it} + (Children(m, it) - setDescendants);
    }
    DownDone(m, x, setDescendants);
  }
}
