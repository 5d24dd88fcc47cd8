/** The UTXO cache stack: write-back caches with DIRTY and FRESH flags, layered to any depth over
    a coin database. Everything is stated against the plain map of unspent coins that a view stands for. */
module Coins {
  import opened Common

  // A spent output is null: it carries the value -1.
  datatype TxOut = TxOut(value: int, script: seq<bv8>) {
    predicate IsNull() { value == -1 }
  }

  const NULL_OUT := TxOut(-1, [])

  predicate AllNull(vout: seq<TxOut>) {
    forall i :: 0 <= i < |vout| ==> vout[i].IsNull()
  }

  datatype Coins = Coins(coinBase: bool, vout: seq<TxOut>, height: int, version: int) {
    predicate IsPruned() { AllNull(vout) }

    predicate IsAvailable(n: nat) { n < |vout| && !vout[n].IsNull() }

    function Clean(): Coins { this.(vout := Trim(vout)) }
  }

  const EMPTY_COINS := Coins(false, [], 0, 0)

  function Trim(vout: seq<TxOut>): seq<TxOut> {
    if |vout| > 0 && vout[|vout| - 1].IsNull() then Trim(vout[..|vout| - 1]) else vout
  }

  // Trimming loses nothing but trailing nulls, so no output changes its availability.
  lemma {:induction false} TrimKeepsOutputs(c: Coins)
    ensures Trim(c.vout) <= c.vout
    ensures |Trim(c.vout)| > 0 ==> !Trim(c.vout)[|Trim(c.vout)| - 1].IsNull()
    ensures forall n: nat :: c.Clean().IsAvailable(n) == c.IsAvailable(n)
    ensures c.Clean().IsPruned() <==> c.IsPruned()
    ensures c.Clean().IsPruned() <==> c.Clean().vout == []
    decreases |c.vout|
  {
    var k := |c.vout|;
    if k > 0 && c.vout[k - 1].IsNull() {
      var d := c.(vout := c.vout[..k - 1]);
      TrimKeepsOutputs(d);
      assert c.Clean() == d.Clean();
      assert forall n: nat :: d.IsAvailable(n) == c.IsAvailable(n);
      assert d.IsPruned() ==> c.IsPruned();
    } else if k > 0 {
      assert !c.IsPruned();
    }
  }

  method Cleanup(c: Coins) returns (r: Coins)
    ensures r == c.Clean()
  {
    var vout := c.vout;
    while |vout| > 0 && vout[|vout| - 1].IsNull()
      invariant Trim(vout) == Trim(c.vout)
    {
      vout := vout[..|vout| - 1];
    }
    r := c.(vout := vout);
  }

  function SpendResult(c: Coins, n: nat): Coins {
    if c.IsAvailable(n) then c.(vout := c.vout[n := NULL_OUT]).Clean() else c
  }

  // Spending removes exactly output n, keeps every other one, and leaves a fully spent record empty.
  lemma SpendRemovesOne(c: Coins, n: nat)
    requires c.IsAvailable(n)
    ensures !SpendResult(c, n).IsAvailable(n)
    ensures forall m: nat | m != n ::
              SpendResult(c, n).IsAvailable(m) == c.IsAvailable(m)
              && (c.IsAvailable(m) ==> SpendResult(c, n).vout[m] == c.vout[m])
    ensures SpendResult(c, n).vout == [] <==> forall m: nat :: c.IsAvailable(m) ==> m == n
  {
    var d := c.(vout := c.vout[n := NULL_OUT]);
    TrimKeepsOutputs(d);
    forall m: nat | m != n
      ensures SpendResult(c, n).IsAvailable(m) == c.IsAvailable(m)
      ensures c.IsAvailable(m) ==> SpendResult(c, n).vout[m] == c.vout[m]
    {
      assert d.IsAvailable(m) == c.IsAvailable(m);
    }
    if forall m: nat :: c.IsAvailable(m) ==> m == n {
      assert forall m: nat :: !d.IsAvailable(m);
      assert d.IsPruned() by {
        forall i | 0 <= i < |d.vout| ensures d.vout[i].IsNull() { assert !d.IsAvailable(i); }
      }
    }
  }

  method Spend(c: Coins, n: nat) returns (ok: bool, r: Coins)
    ensures ok == c.IsAvailable(n)
    ensures r == SpendResult(c, n)
  {
    if n >= |c.vout| || c.vout[n].IsNull() {
      return false, c;
    }
    r := Cleanup(c.(vout := c.vout[n := NULL_OUT]));
    ok := true;
  }

  datatype Entry = Entry(coins: Coins, isDirty: bool, isFresh: bool)

  type CoinsMap = map<Hash256, Entry>

  // What a view stands for: the unspent coins. A pruned record means the same as none.
  type View = map<Hash256, Coins>

  ghost function Put(view: View, txid: Hash256, c: Coins): View {
    if c.IsPruned() then view - {txid} else view[txid := c]
  }

  lemma PutTwice(view: View, t: Hash256, c: Coins, d: Coins)
    ensures Put(Put(view, t, c), t, d) == Put(view, t, d)
    ensures Put(view - {t}, t, d) == Put(view, t, d)
    ensures c.IsPruned() && t !in view ==> Put(view, t, c) == view
  {
  }

  ghost function Overlay(base: View, cache: CoinsMap): View {
    map t | t in base.Keys + cache.Keys && (t in cache ==> !cache[t].coins.IsPruned())
      :: if t in cache then cache[t].coins else base[t]
  }

  ghost predicate EntryOk(base: View, t: Hash256, e: Entry) {
    && (e.isFresh ==> t !in base)
    && (!e.isDirty ==> if e.coins.IsPruned() then t !in base else t in base && base[t] == e.coins)
  }

  ghost predicate LevelOk(base: View, cache: CoinsMap) {
    forall t :: t in cache ==> EntryOk(base, t, cache[t])
  }

  // One child entry written into its parent cache.
  function Absorb(cache: CoinsMap, t: Hash256, e: Entry): CoinsMap {
    if !e.isDirty then cache
    else if t !in cache then
      if e.isFresh && e.coins.IsPruned() then cache else cache[t := Entry(e.coins, true, e.isFresh)]
    else if cache[t].isFresh && e.coins.IsPruned() then cache - {t}
    else cache[t := Entry(e.coins, true, cache[t].isFresh)]
  }

  predicate Misapplied(cache: CoinsMap, t: Hash256, e: Entry) {
    e.isDirty && t in cache && e.isFresh && !cache[t].coins.IsPruned()
  }

  ghost function Lookup(view: View, t: Hash256): Option<Coins> {
    if t in view then Some(view[t]) else None
  }

  ghost function Unspent(c: Coins): Option<Coins> {
    if c.IsPruned() then None else Some(c)
  }

  ghost predicate SameElsewhere(a: CoinsMap, b: CoinsMap, t: Hash256) {
    forall s :: s != t ==> (s in a <==> s in b) && (s in a ==> a[s] == b[s])
  }

  lemma OverlayChangesOne(base: View, cache: CoinsMap, cache': CoinsMap, t: Hash256, c: Coins)
    requires SameElsewhere(cache, cache', t)
    requires Lookup(Overlay(base, cache'), t) == Unspent(c)
    ensures Overlay(base, cache') == Put(Overlay(base, cache), t, c)
  {
    hide Coins.IsPruned;
    var v, w := Overlay(base, cache), Overlay(base, cache');
    assert forall s :: s != t ==> (s in w <==> s in v);
    assert w.Keys == Put(v, t, c).Keys;
  }

  lemma AbsorbStep(base: View, cache: CoinsMap, t: Hash256, e: Entry)
    requires LevelOk(base, cache)
    requires EntryOk(Overlay(base, cache), t, e)
    ensures !Misapplied(cache, t, e)
    ensures LevelOk(base, Absorb(cache, t, e))
    ensures Overlay(base, Absorb(cache, t, e)) == Put(Overlay(base, cache), t, e.coins)
  {
    var v := Overlay(base, cache);
    var next := Absorb(cache, t, e);
    assert SameElsewhere(cache, next, t);
    assert t in next ==> EntryOk(base, t, next[t]);
    assert Lookup(Overlay(base, next), t) == Unspent(e.coins);
    OverlayChangesOne(base, cache, next, t, e.coins);
  }

  // --- Steps of one cache level, as functions of its map ---

  function Fetched(cache: CoinsMap, t: Hash256, found: Option<Coins>): CoinsMap {
    if t in cache || found.None? then cache
    else cache[t := Entry(found.value, false, found.value.IsPruned())]
  }

  function BeginModify(cache: CoinsMap, t: Hash256, found: Option<Coins>): CoinsMap {
    if t in cache then cache[t := cache[t].(isDirty := true)]
    else if found.None? then cache[t := Entry(EMPTY_COINS, true, true)]
    else cache[t := Entry(found.value, true, found.value.IsPruned())]
  }

  // None is the thrown logic error.
  function BeginNew(cache: CoinsMap, t: Hash256, coinbase: bool): Option<CoinsMap> {
    var e := if t in cache then cache[t] else Entry(EMPTY_COINS, false, false);
    if !coinbase && !e.coins.IsPruned() then None
    else Some(cache[t := Entry(EMPTY_COINS, true, e.isFresh || (!coinbase && !e.isDirty))])
  }

  function EndModify(cache: CoinsMap, t: Hash256): CoinsMap
    requires t in cache
  {
    var c := cache[t].coins.Clean();
    if cache[t].isFresh && c.IsPruned() then cache - {t} else cache[t := cache[t].(coins := c)]
  }

  // What a view may answer for t: any pruned record stands for an absent one.
  ghost predicate Answers(view: View, t: Hash256, found: Option<Coins>) {
    Lookup(view, t) == if found.None? then None else Unspent(found.value)
  }

  lemma FetchKeepsLevel(base: View, cache: CoinsMap, t: Hash256, found: Option<Coins>)
    requires LevelOk(base, cache)
    requires t in cache || Answers(base, t, found)
    ensures LevelOk(base, Fetched(cache, t, found))
    ensures Overlay(base, Fetched(cache, t, found)) == Overlay(base, cache)
    ensures forall x :: x in Fetched(cache, t, found) && Fetched(cache, t, found)[x].isDirty <==> x in cache && cache[x].isDirty
  {
    var next := Fetched(cache, t, found);
    if t !in cache && found.Some? {
      assert Lookup(Overlay(base, next), t) == Unspent(found.value);
      OverlayChangesOne(base, cache, next, t, found.value);
    }
  }

  lemma ModifyKeepsLevel(base: View, cache: CoinsMap, t: Hash256, found: Option<Coins>)
    requires LevelOk(base, cache)
    requires t in cache || Answers(base, t, found)
    ensures LevelOk(base, BeginModify(cache, t, found))
    ensures Overlay(base, BeginModify(cache, t, found)) == Overlay(base, cache)
    ensures t in BeginModify(cache, t, found) && BeginModify(cache, t, found)[t].isDirty
    ensures Lookup(Overlay(base, cache), t) == Unspent(BeginModify(cache, t, found)[t].coins)
  {
    hide LevelOk, Overlay, Put;
    var next := BeginModify(cache, t, found);
    ModifyLevel(base, cache, t, found);
    ModifyLookup(base, cache, t, found);
    OverlayChangesOne(base, cache, next, t, next[t].coins);
    PutSame(Overlay(base, cache), t, next[t].coins);
  }

  lemma PutSame(view: View, t: Hash256, c: Coins)
    requires Lookup(view, t) == Unspent(c)
    ensures Put(view, t, c) == view
  {
  }

  lemma ModifyLevel(base: View, cache: CoinsMap, t: Hash256, found: Option<Coins>)
    requires LevelOk(base, cache)
    requires t in cache || Answers(base, t, found)
    ensures LevelOk(base, BeginModify(cache, t, found))
  {
  }

  lemma ModifyLookup(base: View, cache: CoinsMap, t: Hash256, found: Option<Coins>)
    requires t in cache || Answers(base, t, found)
    ensures var next := BeginModify(cache, t, found);
            && SameElsewhere(cache, next, t) && Lookup(Overlay(base, next), t) == Unspent(next[t].coins)
            && Lookup(Overlay(base, cache), t) == Unspent(next[t].coins)
  {
  }

  // The flags stay truthful exactly when BIP 30 holds: a non-coinbase txid that the cache has never
  // seen must be spent below. Otherwise FRESH is set over unspent coins.
  lemma NewKeepsLevelIff(base: View, cache: CoinsMap, t: Hash256, coinbase: bool)
    requires LevelOk(base, cache)
    requires BeginNew(cache, t, coinbase).Some?
    ensures LevelOk(base, BeginNew(cache, t, coinbase).value) <==> coinbase || t in cache || t !in base
    ensures Overlay(base, BeginNew(cache, t, coinbase).value) == Overlay(base, cache) - {t}
  {
    var next := BeginNew(cache, t, coinbase).value;
    assert SameElsewhere(cache, next, t);
    assert EMPTY_COINS.IsPruned();
    OverlayChangesOne(base, cache, next, t, EMPTY_COINS);
    if coinbase || t in cache || t !in base {
      assert EntryOk(base, t, next[t]);
    } else {
      assert next[t].isFresh && t in base;
      assert !EntryOk(base, t, next[t]);
    }
  }

  // Releasing the modifier commits the cleaned coins, provided FRESH is truthful.
  // If it is not, a record that was fully spent in the meantime comes back to life.
  lemma ReleaseCommitsIff(base: View, cache: CoinsMap, t: Hash256)
    requires t in cache && cache[t].isDirty
    ensures Overlay(base, EndModify(cache, t)) == Put(Overlay(base, cache), t, cache[t].coins.Clean())
            <==> !(cache[t].isFresh && cache[t].coins.IsPruned() && t in base)
    ensures LevelOk(base, cache) ==> LevelOk(base, EndModify(cache, t))
  {
    var c := cache[t].coins.Clean();
    TrimKeepsOutputs(cache[t].coins);
    var next := EndModify(cache, t);
    assert SameElsewhere(cache, next, t);
    if cache[t].isFresh && c.IsPruned() && t in base {
      assert t in Overlay(base, next);
      assert t !in Put(Overlay(base, cache), t, c);
    } else {
      assert Lookup(Overlay(base, next), t) == Unspent(c);
      OverlayChangesOne(base, cache, next, t, c);
    }
  }

  lemma UncacheKeepsView(base: View, cache: CoinsMap, t: Hash256)
    requires LevelOk(base, cache)
    requires t in cache && !cache[t].isDirty
    ensures LevelOk(base, cache - {t})
    ensures Overlay(base, cache - {t}) == Overlay(base, cache)
  {
    assert SameElsewhere(cache, cache - {t}, t);
    assert Lookup(Overlay(base, cache - {t}), t) == Unspent(cache[t].coins);
    OverlayChangesOne(base, cache, cache - {t}, t, cache[t].coins);
  }

  // Writing a whole child map, entry by entry in any order.
  lemma AbsorbNext(view: View, done: CoinsMap, t: Hash256, e: Entry)
    requires t !in done && EntryOk(view, t, e)
    ensures EntryOk(Overlay(view, done), t, e)
    ensures Put(Overlay(view, done), t, e.coins) == Overlay(view, done[t := e])
  {
    assert SameElsewhere(done, done[t := e], t);
    assert Lookup(Overlay(view, done), t) == Lookup(view, t);
    assert Lookup(Overlay(view, done[t := e]), t) == Unspent(e.coins);
    OverlayChangesOne(view, done, done[t := e], t, e.coins);
  }

  ghost predicate Splits(child: CoinsMap, todo: CoinsMap, done: CoinsMap) {
    todo.Keys !! done.Keys && child == todo + done
  }

  lemma SplitStart(view: View, child: CoinsMap)
    ensures Splits(child, child, map[]) && Overlay(view, map[]) == view
  {
    assert child + map[] == child;
  }

  lemma SplitDone(child: CoinsMap, done: CoinsMap)
    requires Splits(child, map[], done)
    ensures done == child
  {
  }

  lemma SplitNext(child: CoinsMap, todo: CoinsMap, done: CoinsMap, t: Hash256)
    requires Splits(child, todo, done) && t in todo
    ensures child[t] == todo[t] && t !in done
    ensures Splits(child, todo - {t}, done[t := todo[t]]) && (todo - {t}).Keys < todo.Keys
  {
    assert child == (todo - {t}) + done[t := todo[t]];
  }

  ghost function LiveCoins(coins: map<Hash256, Coins>): View {
    map t | t in coins && !coins[t].IsPruned() :: coins[t]
  }

  function DbWrite(coins: map<Hash256, Coins>, t: Hash256, e: Entry): map<Hash256, Coins> {
    if !e.isDirty then coins else if e.coins.IsPruned() then coins - {t} else coins[t := e.coins]
  }

  lemma DbWriteStep(coins: map<Hash256, Coins>, t: Hash256, e: Entry)
    requires EntryOk(LiveCoins(coins), t, e)
    ensures LiveCoins(DbWrite(coins, t, e)) == Put(LiveCoins(coins), t, e.coins)
  {
    hide Coins.IsPruned;
    var v, w := LiveCoins(coins), LiveCoins(DbWrite(coins, t, e));
    assert forall s :: s != t ==> (s in w <==> s in v);
    assert w.Keys == Put(v, t, e.coins).Keys;
  }

  // --- Trimmed records ---

  // No trailing null outputs: what cleaning leaves, and what the database codec restores.
  predicate Trimmed(c: Coins) { c.vout == Trim(c.vout) }

  lemma {:induction false} CleanIsTrimmed(c: Coins)
    ensures Trimmed(c.Clean()) && Trimmed(EMPTY_COINS)
    ensures Trimmed(c) ==> (c.IsPruned() <==> c.vout == [])
  {
    TrimKeepsOutputs(c);
    TrimKeepsOutputs(c.Clean());
  }

  ghost predicate AllTrimmed(cache: CoinsMap, except: set<Hash256>) {
    forall t :: t in cache && t !in except ==> Trimmed(cache[t].coins)
  }

  ghost predicate StoredTrimmed(coins: map<Hash256, Coins>) {
    forall t :: t in coins ==> Trimmed(coins[t])
  }

  // Each change of a level brings in trimmed records only, or touches the one that is being edited.
  lemma StepsTrimmed(cache: CoinsMap, t: Hash256, e: Entry, found: Option<Coins>, except: set<Hash256>)
    requires AllTrimmed(cache, except)
    ensures Trimmed(e.coins) ==> AllTrimmed(Absorb(cache, t, e), except)
    ensures found.Some? && Trimmed(found.value) ==> AllTrimmed(Fetched(cache, t, found), except)
    ensures AllTrimmed(BeginModify(cache, t, found), except + {t})
    ensures forall coinbase :: BeginNew(cache, t, coinbase).Some? ==> AllTrimmed(BeginNew(cache, t, coinbase).value, except + {t})
    ensures t in cache ==> AllTrimmed(EndModify(cache, t), except - {t})
  {
    if t in cache {
      CleanIsTrimmed(cache[t].coins);
    }
  }

  method DbWriteAll(coins: map<Hash256, Coins>, child: CoinsMap) returns (batch: map<Hash256, Coins>)
    requires LevelOk(LiveCoins(coins), child)
    ensures LiveCoins(batch) == Overlay(LiveCoins(coins), child)
    ensures StoredTrimmed(coins) && AllTrimmed(child, {}) ==> StoredTrimmed(batch)
  {
    hide Trimmed;
    batch := coins;
    var todo := child;
    ghost var done: CoinsMap := map[];
    ghost var view := LiveCoins(coins);
    SplitStart(view, child);
    while todo != map[]
      invariant Splits(child, todo, done)
      invariant LiveCoins(batch) == Overlay(view, done)
      invariant StoredTrimmed(coins) && AllTrimmed(child, {}) ==> StoredTrimmed(batch)
      decreases todo.Keys
    {
      var t :| t in todo.Keys;
      SplitNext(child, todo, done, t);
      AbsorbNext(view, done, t, todo[t]);
      DbWriteStep(batch, t, todo[t]);
      batch := DbWrite(batch, t, todo[t]);
      todo, done := todo - {t}, done[t := todo[t]];
    }
    SplitDone(child, done);
  }

  // The parent ends up standing for exactly what the child stood for, and nothing is thrown.
  method AbsorbAll(cache: CoinsMap, child: CoinsMap, ghost base: View) returns (status: Status, next: CoinsMap)
    requires LevelOk(base, cache) && LevelOk(Overlay(base, cache), child)
    ensures status == Done
    ensures LevelOk(base, next)
    ensures Overlay(base, next) == Overlay(Overlay(base, cache), child)
    ensures AllTrimmed(cache, {}) && AllTrimmed(child, {}) ==> AllTrimmed(next, {})
  {
    hide Trimmed;
    status, next := Done, cache;
    var todo := child;
    ghost var done: CoinsMap := map[];
    ghost var view := Overlay(base, cache);
    SplitStart(view, child);
    while todo != map[]
      invariant Splits(child, todo, done)
      invariant LevelOk(base, next)
      invariant Overlay(base, next) == Overlay(view, done)
      invariant AllTrimmed(cache, {}) && AllTrimmed(child, {}) ==> AllTrimmed(next, {})
      decreases todo.Keys
    {
      var t :| t in todo.Keys;
      SplitNext(child, todo, done, t);
      AbsorbNext(view, done, t, todo[t]);
      AbsorbStep(base, next, t, todo[t]);
      if Misapplied(next, t, todo[t]) {
        return LogicError, next;
      }
      if AllTrimmed(next, {}) {
        StepsTrimmed(next, t, todo[t], None, {});
      }
      next := Absorb(next, t, todo[t]);
      todo, done := todo - {t}, done[t := todo[t]];
    }
    SplitDone(child, done);
  }

  // --- The views ---

  datatype Status = Done | LogicError

  // --- The plain stack ---

  /** What a stack of views means: at every level a plain map of unspent coins and a best block, null if never set. */
  datatype Plain = Bottom(view: View, best: Hash256) | Level(view: View, best: Hash256, below: Plain)

  ghost function Best(p: Plain): Hash256 {
    if p.Level? && p.best == NULL_HASH then Best(p.below) else p.best
  }

  // A level is written to the one below it. The database keeps its best block when it is given none; a cache does not.
  ghost function Written(p: Plain, view: View, best: Hash256): Plain {
    if p.Bottom? then Bottom(view, if best == NULL_HASH then p.best else best) else p.(view := view, best := best)
  }

  // Asking for the best block stores the answer on the way.
  ghost function AskBest(p: Plain): Plain {
    if p.Bottom? || p.best != NULL_HASH then p else p.(best := Best(p), below := AskBest(p.below))
  }

  lemma {:induction false} AskBestSame(p: Plain)
    ensures Best(AskBest(p)) == Best(p) && AskBest(p).view == p.view
  {
    if p.Level? && p.best == NULL_HASH {
      AskBestSame(p.below);
    }
  }

  /** The coin database at the bottom of the stack. */
  class CoinsViewDb {
    var coins: map<Hash256, Coins>
    var bestBlock: Hash256

    constructor (coins: map<Hash256, Coins>, bestBlock: Hash256)
      ensures this.coins == coins && this.bestBlock == bestBlock
    {
      this.coins, this.bestBlock := coins, bestBlock;
    }

    ghost function Contents(): View
      reads this
    {
      LiveCoins(coins)
    }

    method BatchWrite(child: CoinsMap, hashBlockIn: Hash256) returns (status: Status)
      requires LevelOk(Contents(), child)
      modifies this
      ensures status == Done
      ensures Contents() == Overlay(old(Contents()), child)
      ensures bestBlock == if hashBlockIn == NULL_HASH then old(bestBlock) else hashBlockIn
      ensures old(StoredTrimmed(coins)) && AllTrimmed(child, {}) ==> StoredTrimmed(coins)
    {
      coins := DbWriteAll(coins, child);
      if hashBlockIn != NULL_HASH {
        bestBlock := hashBlockIn;
      }
      status := Done;
    }
  }

  datatype Backing = Disk(db: CoinsViewDb) | Cache(view: CoinsViewCache)

  /** A write-back cache over another view. */
  class CoinsViewCache {
    const base: Backing
    ghost const Repr: set<object>
    var cacheCoins: CoinsMap
    var hashBlock: Hash256
    var hasModifier: bool
    // The record that is handed out for editing, if any.
    ghost var editing: set<Hash256>

    ghost predicate Linked()
      decreases Repr
    {
      && this in Repr
      && match base
         case Disk(db) => db in Repr
         case Cache(v) => v in Repr && v.Repr < Repr && this !in v.Repr && v.Linked()
    }

    ghost function BaseState(): Plain
      requires Linked()
      reads Repr
      decreases Repr, 0
    {
      match base
      case Disk(db) => Bottom(db.Contents(), db.bestBlock)
      case Cache(v) => v.State()
    }

    ghost function State(): Plain
      requires Linked()
      reads Repr
      decreases Repr, 1
    {
      Level(Overlay(BaseState().view, cacheCoins), hashBlock, BaseState())
    }

    ghost function BaseView(): View
      requires Linked()
      reads Repr
    {
      BaseState().view
    }

    ghost function Contents(): View
      requires Linked()
      reads Repr
    {
      Overlay(BaseView(), cacheCoins)
    }

    ghost function BestBlock(): Hash256
      requires Linked()
      reads Repr
    {
      Best(State())
    }

    // Every level keeps truthful flags, and no lower level is being modified.
    ghost predicate Valid(): (valid: bool)
      reads Repr
      ensures valid ==> Linked()
      decreases Repr
    {
      && Linked()
      && (base.Cache? ==> base.view.Valid() && !base.view.hasModifier)
      && LevelOk(BaseView(), cacheCoins)
      && (hasModifier || editing == {})
    }

    // Every record at every level is trimmed, except the one that is being edited.
    ghost predicate Tidy()
      requires Linked()
      reads Repr
      decreases Repr
    {
      && AllTrimmed(cacheCoins, editing)
      && match base
         case Disk(db) => StoredTrimmed(db.coins)
         case Cache(v) => v.Tidy()
    }

    ghost predicate BaseTidy()
      requires Linked()
      reads Repr
    {
      match base
      case Disk(db) => StoredTrimmed(db.coins)
      case Cache(v) => v.Tidy()
    }

    constructor OverDb(db: CoinsViewDb)
      ensures Valid() && base == Disk(db) && fresh(Repr - {db})
      ensures cacheCoins == map[] && !hasModifier
      ensures State() == Level(db.Contents(), NULL_HASH, Bottom(db.Contents(), db.bestBlock))
      ensures Tidy() <==> StoredTrimmed(db.coins)
    {
      base, Repr := Disk(db), {this, db};
      cacheCoins, hashBlock, hasModifier, editing := map[], NULL_HASH, false, {};
    }

    constructor OverCache(view: CoinsViewCache)
      requires view.Valid() && !view.hasModifier
      ensures Valid() && base == Cache(view) && fresh(Repr - view.Repr)
      ensures cacheCoins == map[] && !hasModifier
      ensures State() == Level(view.Contents(), NULL_HASH, view.State())
      ensures Tidy() <==> view.Tidy()
    {
      base, Repr := Cache(view), {this} + view.Repr;
      cacheCoins, hashBlock, hasModifier, editing := map[], NULL_HASH, false, {};
    }

    method BaseGetCoins(t: Hash256) returns (found: Option<Coins>)
      requires Valid()
      modifies Repr - {this}
      ensures Valid() && BaseState() == old(BaseState())
      ensures Answers(BaseView(), t, found)
      ensures old(BaseTidy()) ==> BaseTidy() && (found.Some? ==> Trimmed(found.value))
      decreases Repr, 0
    {
      match base {
        case Disk(db) => found := if t in db.coins then Some(db.coins[t]) else None;
        case Cache(v) => found := v.GetCoins(t);
      }
    }

    method FetchCoins(t: Hash256)
      requires Valid()
      modifies Repr
      ensures Valid() && hasModifier == old(hasModifier) && hashBlock == old(hashBlock)
      ensures State() == old(State())
      ensures editing == old(editing) && (old(Tidy()) ==> Tidy())
      ensures exists found :: (t in old(cacheCoins) || Answers(BaseView(), t, found)) && cacheCoins == Fetched(old(cacheCoins), t, found)
      decreases Repr, 1
    {
      hide LevelOk, Overlay, AllTrimmed, Trimmed, Answers, Fetched;
      if t !in cacheCoins {
        var found := BaseGetCoins(t);
        FetchedNone(cacheCoins, t);
        FetchKeepsLevel(BaseView(), cacheCoins, t, found);
        if AllTrimmed(cacheCoins, editing) {
          StepsTrimmed(cacheCoins, t, Entry(EMPTY_COINS, false, false), found, editing);
        }
        if found.Some? {
          cacheCoins := Fetched(cacheCoins, t, found);
        }
      }
      if t in old(cacheCoins) {
        FetchedNone(old(cacheCoins), t);
      }
    }

    method GetCoins(t: Hash256) returns (found: Option<Coins>)
      requires Valid()
      modifies Repr
      ensures Valid() && hasModifier == old(hasModifier) && hashBlock == old(hashBlock)
      ensures State() == old(State())
      ensures Answers(Contents(), t, found)
      ensures editing == old(editing) && (old(Tidy()) ==> Tidy() && (found.Some? && t !in editing ==> Trimmed(found.value)))
      decreases Repr, 2
    {
      FetchCoins(t);
      found := if t in cacheCoins then Some(cacheCoins[t].coins) else None;
    }

    // Looks only at whether the record has stored outputs. That is right for trimmed records.
    method HaveCoins(t: Hash256) returns (have: bool)
      requires Valid()
      modifies Repr
      ensures Valid() && hasModifier == old(hasModifier) && State() == old(State())
      ensures editing == old(editing) && (old(Tidy()) ==> Tidy())
      ensures t in Contents() ==> have
      ensures old(Tidy()) && t !in editing ==> (have <==> t in Contents())
      ensures have && t !in Contents() ==> t in cacheCoins && !Trimmed(cacheCoins[t].coins)
    {
      FetchCoins(t);
      have := t in cacheCoins && cacheCoins[t].coins.vout != [];
      if t in cacheCoins {
        CleanIsTrimmed(cacheCoins[t].coins);
      }
    }

    method GetBestBlock() returns (h: Hash256)
      requires Valid()
      modifies Repr
      ensures Valid() && h == BestBlock() == old(BestBlock())
      ensures State() == AskBest(old(State())) && cacheCoins == old(cacheCoins) && hasModifier == old(hasModifier)
      ensures editing == old(editing) && Tidy() == old(Tidy())
      decreases Repr
    {
      hide LevelOk, Overlay;
      if hashBlock == NULL_HASH {
        ghost var p := BaseState();
        AskBestSame(p);
        match base {
          case Disk(db) => h := db.bestBlock;
          case Cache(v) =>
            h := v.GetBestBlock();
            assert BaseState() == v.State();
        }
        assert BaseState() == AskBest(p);
        hashBlock := h;
        assert BaseState() == AskBest(p);
      }
      h := hashBlock;
    }

    method SetBestBlock(h: Hash256)
      requires Valid()
      modifies this`hashBlock
      ensures Valid() && State() == old(State()).(best := h) && hasModifier == old(hasModifier) && Tidy() == old(Tidy())
    {
      hashBlock := h;
      assert BaseTidy() == old(BaseTidy());
      assert BaseState() == old(BaseState());
    }

    method BatchWrite(child: CoinsMap, hashBlockIn: Hash256) returns (status: Status)
      requires Valid() && !hasModifier
      requires LevelOk(Contents(), child)
      modifies this
      ensures status == Done
      ensures Valid() && !hasModifier
      ensures State() == Written(old(State()), Overlay(old(Contents()), child), hashBlockIn)
      ensures old(Tidy()) && AllTrimmed(child, {}) ==> Tidy()
    {
      hide AllTrimmed;
      status, cacheCoins := AbsorbAll(cacheCoins, child, BaseView());
      hashBlock := hashBlockIn;
      assert BaseState() == old(BaseState()) && BaseTidy() == old(BaseTidy());
    }

    // Moves the exact view down one level. The raw best-block field is written too, and when it was
    // never set the parent cache forgets its own best block.
    method Flush() returns (status: Status)
      requires Valid() && !hasModifier
      modifies Repr
      ensures status == Done
      ensures Valid() && !hasModifier && cacheCoins == map[]
      ensures State() == Flushed(old(State()), 0)
      ensures Contents() == BaseView() == old(Contents())
      ensures BestBlock() == old(BestBlock())
              <==> old(hashBlock != NULL_HASH || base.Disk? || base.view.BestBlock() == Best(base.view.State().below))
      ensures old(Tidy()) ==> Tidy()
    {
      match base {
        case Disk(db) => status := db.BatchWrite(cacheCoins, hashBlock);
        case Cache(v) =>
          ghost var was, child := v.State(), cacheCoins;
          assert BaseState() == was && BaseView() == v.Contents();
          status := v.BatchWrite(cacheCoins, hashBlock);
          assert BaseState() == v.State() == Written(was, Overlay(was.view, child), hashBlock);
      }
      cacheCoins := map[];
      SplitStart(BaseView(), map[]);
      BestAfter(old(State()));
    }

    method Uncache(t: Hash256)
      requires Valid()
      modifies this`cacheCoins
      ensures Valid() && State() == old(State()) && hasModifier == old(hasModifier) && (old(Tidy()) ==> Tidy())
      ensures cacheCoins == if t in old(cacheCoins) && !old(cacheCoins[t].isDirty) && !old(cacheCoins[t].isFresh)
                            then old(cacheCoins) - {t} else old(cacheCoins)
    {
      if t in cacheCoins && !cacheCoins[t].isDirty && !cacheCoins[t].isFresh {
        UncacheKeepsView(BaseView(), cacheCoins, t);
        cacheCoins := cacheCoins - {t};
      }
      assert BaseState() == old(BaseState()) && BaseTidy() == old(BaseTidy());
    }

    method ModifyCoins(t: Hash256) returns (m: CoinsModifier)
      requires Valid() && !hasModifier
      modifies Repr
      ensures m.cache == this && m.txid == t && m.Active() && fresh(m)
      ensures State() == old(State()) && Lookup(Contents(), t) == Unspent(cacheCoins[t].coins)
      ensures old(Tidy()) ==> Tidy()
    {
      hide LevelOk, Overlay, Unspent, Lookup, AllTrimmed;
      HandOut(t);
      m := new CoinsModifier(this, t);
    }

    // Fetch the record if need be and mark it dirty.
    method HandOut(t: Hash256)
      requires Valid() && !hasModifier
      modifies Repr
      ensures Valid() && hasModifier && editing == {t} && t in cacheCoins && cacheCoins[t].isDirty
      ensures State() == old(State()) && Lookup(Contents(), t) == Unspent(cacheCoins[t].coins)
      ensures old(Tidy()) ==> Tidy()
    {
      hide LevelOk, Overlay, BeginModify, Unspent, Lookup, AllTrimmed, Trimmed, Answers;
      var found := None;
      if t !in cacheCoins {
        found := BaseGetCoins(t);
      }
      ModifyKeepsLevel(BaseView(), cacheCoins, t, found);
      if AllTrimmed(cacheCoins, {}) {
        StepsTrimmed(cacheCoins, t, Entry(EMPTY_COINS, false, false), found, {});
        assert {} + {t} == {t};
      }
      ghost var below, tidy := BaseState(), BaseTidy();
      cacheCoins := BeginModify(cacheCoins, t, found);
      hasModifier, editing := true, {t};
      assert BaseState() == below && BaseTidy() == tidy;
    }

    // Non-coinbase callers must respect BIP 30: an unseen txid has no unspent outputs below.
    method ModifyNewCoins(t: Hash256, coinbase: bool) returns (m: Option<CoinsModifier>)
      requires Valid() && !hasModifier
      requires coinbase || t in cacheCoins || t !in BaseView()
      modifies this
      ensures m.None? <==> !coinbase && t in old(Contents())
      ensures m.None? ==> Valid() && !hasModifier && State() == old(State())
      ensures m.Some? ==> m.value.cache == this && m.value.txid == t && m.value.Active() && fresh(m.value)
                          && State() == old(State()).(view := old(Contents()) - {t})
      ensures old(Tidy()) ==> Tidy()
    {
      hide LevelOk, AllTrimmed;
      var next := BeginNew(cacheCoins, t, coinbase);
      if next.None? {
        return None;
      }
      NewKeepsLevelIff(BaseView(), cacheCoins, t, coinbase);
      if AllTrimmed(cacheCoins, {}) {
        StepsTrimmed(cacheCoins, t, Entry(EMPTY_COINS, false, false), None, {});
        assert {} + {t} == {t};
      }
      cacheCoins, hasModifier, editing := next.value, true, {t};
      assert BaseState() == old(BaseState()) && BaseTidy() == old(BaseTidy());
      var fresh' := new CoinsModifier(this, t);
      m := Some(fresh');
    }
  }

  /** The handle through which one entry of a cache is edited. */
  class CoinsModifier {
    const cache: CoinsViewCache
    const txid: Hash256

    ghost predicate Active()
      reads cache.Repr
    {
      cache.Valid() && cache.hasModifier && cache.editing == {txid} && txid in cache.cacheCoins && cache.cacheCoins[txid].isDirty
    }

    constructor (cache: CoinsViewCache, txid: Hash256)
      requires cache.Valid() && cache.hasModifier && cache.editing == {txid} && txid in cache.cacheCoins && cache.cacheCoins[txid].isDirty
      ensures this.cache == cache && this.txid == txid && Active()
    {
      this.cache, this.txid := cache, txid;
    }

    method Write(c: Coins)
      requires Active()
      modifies cache`cacheCoins
      ensures Active() && cache.cacheCoins[txid].coins == c
      ensures cache.State() == old(cache.State()).(view := Put(old(cache.Contents()), txid, c))
      ensures old(cache.Tidy()) ==> cache.Tidy()
    {
      ghost var base, was := cache.BaseView(), cache.cacheCoins;
      cache.cacheCoins := cache.cacheCoins[txid := cache.cacheCoins[txid].(coins := c)];
      assert cache.BaseState() == old(cache.BaseState()) && cache.BaseTidy() == old(cache.BaseTidy());
      assert SameElsewhere(was, cache.cacheCoins, txid);
      assert Lookup(Overlay(base, cache.cacheCoins), txid) == Unspent(c);
      OverlayChangesOne(base, was, cache.cacheCoins, txid, c);
    }

    method Commit(c: Coins)
      requires Active()
      modifies cache`cacheCoins, cache`hasModifier, cache`editing
      ensures cache.Valid() && !cache.hasModifier
      ensures cache.State() == old(cache.State()).(view := Put(old(cache.Contents()), txid, c.Clean()))
      ensures old(cache.Tidy()) ==> cache.Tidy()
    {
      PutTwice(cache.Contents(), txid, c, c.Clean());
      Write(c);
      Release();
    }

    // The destructor.
    method Release()
      requires Active()
      modifies cache`cacheCoins, cache`hasModifier, cache`editing
      ensures cache.Valid() && !cache.hasModifier
      ensures cache.State() == old(cache.State()).(view := Put(old(cache.Contents()), txid, old(cache.cacheCoins[txid].coins.Clean())))
      ensures old(cache.Tidy()) ==> cache.Tidy()
    {
      hide AllTrimmed, EndModify, Overlay, Put, LevelOk, Trim;
      if cache.cacheCoins[txid].isFresh {
        NotHidden(cache.BaseView(), cache.cacheCoins, txid);
      }
      ReleaseCommitsIff(cache.BaseView(), cache.cacheCoins, txid);
      if AllTrimmed(cache.cacheCoins, {txid}) {
        StepsTrimmed(cache.cacheCoins, txid, Entry(EMPTY_COINS, false, false), None, {txid});
        assert {txid} - {txid} == {};
      }
      cache.cacheCoins := EndModify(cache.cacheCoins, txid);
      cache.hasModifier, cache.editing := false, {};
      assert cache.BaseState() == old(cache.BaseState()) && cache.BaseTidy() == old(cache.BaseTidy());
    }
  }

  // Truthful flags: a FRESH entry hides nothing.
  lemma NotHidden(base: View, cache: CoinsMap, t: Hash256)
    requires LevelOk(base, cache) && t in cache && cache[t].isFresh
    ensures t !in base
  {
  }

  lemma FetchedNone(cache: CoinsMap, t: Hash256)
    ensures Fetched(cache, t, None) == cache
  {
  }

  lemma NotBelow(base: View, cache: CoinsMap, t: Hash256)
    ensures t !in Overlay(base, cache) ==> t in cache || t !in base
  {
  }

  // Writing down loses the best block exactly when none was set here and the cache below had one of its own.
  lemma BestAfter(p: Plain)
    requires p.Level?
    ensures Best(Flushed(p, 0)) == Best(p) <==> p.best != NULL_HASH || p.below.Bottom? || Best(p.below) == Best(p.below.below)
  {
  }

  /**
   * A flush forgets the best block when the flushed cache was never given one: over a database at block a and a cache at
   * block b, the best block goes back from b to a.
   */
  method FlushForgets(a: Hash256, b: Hash256) returns (before: Hash256, after: Hash256)
    requires a != b && b != NULL_HASH
    ensures before == b && after == a
  {
    hide LevelOk, Overlay, LiveCoins, CoinsViewCache.Valid;
    var db := new CoinsViewDb(map[], a);
    var parent := new CoinsViewCache.OverDb(db);
    parent.SetBestBlock(b);
    before := parent.GetBestBlock();
    var child := new CoinsViewCache.OverCache(parent);
    ghost var p := child.State();
    assert Best(p) == b;
    var _ := child.Flush();
    after := child.GetBestBlock();
    assert Flushed(p, 0).below.below == p.below.below;
  }

  // --- Whole runs ---

  // An operation on a stack; level counts caches down from the top, and only the top is edited.
  datatype Op =
    | Get(level: nat, t: Hash256)
    | Have(level: nat, t: Hash256)
    | Assign(t: Hash256, c: Coins)
    | SpendOne(t: Hash256, n: nat)
    | Create(t: Hash256, coinbase: bool, c: Coins)
    | Uncache(level: nat, t: Hash256)
    | Flush(level: nat)
    | GetBest(level: nat)
    | SetBest(level: nat, h: Hash256)

  datatype Answer = Nothing | Found(unspent: Option<Coins>) | Has(have: bool) | Spent(ok: bool) | BestIs(h: Hash256)

  // The stack from the given level down.
  ghost function Under(p: Plain, level: nat): Plain {
    if level == 0 || p.Bottom? then p else Under(p.below, level - 1)
  }

  ghost function Flushed(p: Plain, level: nat): Plain {
    if p.Bottom? then p
    else if level == 0 then p.(below := Written(p.below, p.view, p.best))
    else p.(below := Flushed(p.below, level - 1))
  }

  ghost function AskedBest(p: Plain, level: nat): Plain {
    if p.Bottom? then p else if level == 0 then AskBest(p) else p.(below := AskedBest(p.below, level - 1))
  }

  ghost function WithBest(p: Plain, level: nat, h: Hash256): Plain {
    if p.Bottom? then p else if level == 0 then p.(best := h) else p.(below := WithBest(p.below, level - 1, h))
  }

  ghost function PlainStep(p: Plain, op: Op): Plain {
    match op
    case Assign(t, c) => p.(view := Put(p.view, t, c.Clean()))
    case SpendOne(t, n) => if t in p.view then p.(view := Put(p.view, t, SpendResult(p.view[t], n).Clean())) else p
    case Create(t, _, c) => p.(view := Put(p.view, t, c.Clean()))
    case Flush(level) => Flushed(p, level)
    case GetBest(level) => AskedBest(p, level)
    case SetBest(level, h) => WithBest(p, level, h)
    case _ => p
  }

  // On a tidy stack every answer is determined.
  ghost predicate PlainAnswer(p: Plain, op: Op, a: Answer, tidy: bool) {
    match op
    case Get(level, t) => a == if Under(p, level).Bottom? then Nothing else Found(Lookup(Under(p, level).view, t))
    case Have(level, t) =>
      if Under(p, level).Bottom? then a == Nothing
      else a.Has? && (t in Under(p, level).view ==> a.have) && (tidy && a.have ==> t in Under(p, level).view)
    case SpendOne(t, n) => a == Spent(t in p.view && p.view[t].IsAvailable(n))
    case GetBest(level) => a == if Under(p, level).Bottom? then Nothing else BestIs(Best(Under(p, level)))
    case _ => a == Nothing
  }

  // BIP 30: a new transaction that is not a coinbase has no unspent outputs yet.
  ghost predicate Admissible(p: Plain, op: Op) {
    op.Create? && !op.coinbase ==> op.t !in p.view
  }

  ghost function PlainRun(p: Plain, ops: seq<Op>): Plain {
    if ops == [] then p else PlainStep(PlainRun(p, ops[..|ops| - 1]), ops[|ops| - 1])
  }

  ghost predicate AdmissibleRun(p: Plain, ops: seq<Op>) {
    forall k :: 0 <= k < |ops| ==> Admissible(PlainRun(p, ops[..k]), ops[k])
  }

  // None of the three changes what the level above sees.
  lemma {:induction false} SameView(p: Plain, level: nat, h: Hash256)
    ensures Flushed(p, level).view == AskedBest(p, level).view == WithBest(p, level, h).view == p.view
  {
    AskBestSame(p);
  }

  method FlushAt(top: CoinsViewCache, level: nat)
    requires top.Valid() && !top.hasModifier
    modifies top.Repr
    ensures top.Valid() && !top.hasModifier && top.State() == Flushed(old(top.State()), level) && (old(top.Tidy()) ==> top.Tidy())
    decreases level
  {
    if level == 0 {
      var _ := top.Flush();
    } else if top.base.Cache? {
      SameView(top.BaseState(), level - 1, NULL_HASH);
      FlushAt(top.base.view, level - 1);
    }
  }

  method UncacheAt(top: CoinsViewCache, level: nat, t: Hash256)
    requires top.Valid() && !top.hasModifier
    modifies top.Repr
    ensures top.Valid() && !top.hasModifier && top.State() == old(top.State()) && (old(top.Tidy()) ==> top.Tidy())
    decreases level
  {
    if level == 0 {
      top.Uncache(t);
    } else if top.base.Cache? {
      UncacheAt(top.base.view, level - 1, t);
    }
  }

  method GetAt(top: CoinsViewCache, level: nat, t: Hash256) returns (a: Answer)
    requires top.Valid() && !top.hasModifier
    modifies top.Repr
    ensures top.Valid() && !top.hasModifier && top.State() == old(top.State()) && (old(top.Tidy()) ==> top.Tidy())
    ensures PlainAnswer(old(top.State()), Get(level, t), a, old(top.Tidy()))
    decreases level
  {
    if level == 0 {
      var found := top.GetCoins(t);
      a := Found(if found.None? || found.value.IsPruned() then None else found);
    } else if top.base.Cache? {
      a := GetAt(top.base.view, level - 1, t);
    } else {
      a := Nothing;
    }
  }

  method HaveAt(top: CoinsViewCache, level: nat, t: Hash256) returns (a: Answer)
    requires top.Valid() && !top.hasModifier
    modifies top.Repr
    ensures top.Valid() && !top.hasModifier && top.State() == old(top.State()) && (old(top.Tidy()) ==> top.Tidy())
    ensures PlainAnswer(old(top.State()), Have(level, t), a, old(top.Tidy()))
    decreases level
  {
    ghost var p := top.State();
    if level == 0 {
      var have := top.HaveCoins(t);
      a := Has(have);
      assert Under(p, 0).view == old(top.Contents());
    } else if top.base.Cache? {
      a := HaveAt(top.base.view, level - 1, t);
      assert Under(p, level) == Under(p.below, level - 1);
    } else {
      a := Nothing;
      assert Under(p, level) == Under(p.below, level - 1);
    }
  }

  method GetBestAt(top: CoinsViewCache, level: nat) returns (a: Answer)
    requires top.Valid() && !top.hasModifier
    modifies top.Repr
    ensures top.Valid() && !top.hasModifier && top.State() == AskedBest(old(top.State()), level) && (old(top.Tidy()) ==> top.Tidy())
    ensures PlainAnswer(old(top.State()), GetBest(level), a, old(top.Tidy()))
    decreases level
  {
    if level == 0 {
      var h := top.GetBestBlock();
      a := BestIs(h);
    } else if top.base.Cache? {
      SameView(top.BaseState(), level - 1, NULL_HASH);
      a := GetBestAt(top.base.view, level - 1);
    } else {
      a := Nothing;
    }
  }

  method SetBestAt(top: CoinsViewCache, level: nat, h: Hash256)
    requires top.Valid() && !top.hasModifier
    modifies top.Repr
    ensures top.Valid() && !top.hasModifier && top.State() == WithBest(old(top.State()), level, h) && (old(top.Tidy()) ==> top.Tidy())
    decreases level
  {
    if level == 0 {
      top.SetBestBlock(h);
    } else if top.base.Cache? {
      SameView(top.BaseState(), level - 1, h);
      SetBestAt(top.base.view, level - 1, h);
    }
  }

  method Execute(top: CoinsViewCache, op: Op) returns (a: Answer)
    requires top.Valid() && !top.hasModifier
    requires Admissible(top.State(), op)
    modifies top.Repr
    ensures top.Valid() && !top.hasModifier && (old(top.Tidy()) ==> top.Tidy())
    ensures top.State() == PlainStep(old(top.State()), op)
    ensures PlainAnswer(old(top.State()), op, a, old(top.Tidy()))
  {
    a := Nothing;
    match op {
      case Get(level, t) => a := GetAt(top, level, t);
      case Have(level, t) => a := HaveAt(top, level, t);
      case Assign(t, c) => ExecuteAssign(top, t, c);
      case SpendOne(t, n) => a := ExecuteSpend(top, t, n);
      case Create(t, coinbase, c) => ExecuteCreate(top, t, coinbase, c);
      case Uncache(level, t) => UncacheAt(top, level, t);
      case Flush(level) => FlushAt(top, level);
      case GetBest(level) => a := GetBestAt(top, level);
      case SetBest(level, h) => SetBestAt(top, level, h);
    }
  }

  method ExecuteAssign(top: CoinsViewCache, t: Hash256, c: Coins)
    requires top.Valid() && !top.hasModifier
    modifies top.Repr
    ensures top.Valid() && !top.hasModifier && (old(top.Tidy()) ==> top.Tidy())
    ensures top.State() == PlainStep(old(top.State()), Assign(t, c))
  {
    var m := top.ModifyCoins(t);
    m.Commit(c);
  }

  method ExecuteCreate(top: CoinsViewCache, t: Hash256, coinbase: bool, c: Coins)
    requires top.Valid() && !top.hasModifier && Admissible(top.State(), Create(t, coinbase, c))
    modifies top.Repr
    ensures top.Valid() && !top.hasModifier && (old(top.Tidy()) ==> top.Tidy())
    ensures top.State() == PlainStep(old(top.State()), Create(t, coinbase, c))
  {
    hide LevelOk, Overlay, AllTrimmed, Put;
    PutTwice(top.Contents(), t, c, c.Clean());
    NotBelow(top.BaseView(), top.cacheCoins, t);
    var m := top.ModifyNewCoins(t, coinbase);
    m.value.Commit(c);
  }

  method ExecuteSpend(top: CoinsViewCache, t: Hash256, n: nat) returns (a: Answer)
    requires top.Valid() && !top.hasModifier
    modifies top.Repr
    ensures top.Valid() && !top.hasModifier && (old(top.Tidy()) ==> top.Tidy())
    ensures top.State() == PlainStep(old(top.State()), SpendOne(t, n))
    ensures PlainAnswer(old(top.State()), SpendOne(t, n), a, old(top.Tidy()))
  {
    var m := top.ModifyCoins(t);
    ghost var was := top.cacheCoins[t].coins;
    var ok, c := Spend(top.cacheCoins[t].coins, n);
    TrimKeepsOutputs(c);
    PutTwice(top.Contents(), t, c.Clean(), c);
    m.Commit(c);
    a := Spent(ok);
    assert t !in old(top.Contents()) ==> was.IsPruned() && c == was;
  }

  /**
   * The stack cannot be told apart from plain maps of unspent coins, one at each level, that a flush copies down: whatever
   * its depth, its initial cache contents and the run. No step throws or trips an assertion on the way.
   */
  method Run(top: CoinsViewCache, ops: seq<Op>) returns (answers: seq<Answer>)
    requires top.Valid() && !top.hasModifier
    requires AdmissibleRun(top.State(), ops)
    modifies top.Repr
    ensures top.Valid() && !top.hasModifier && (old(top.Tidy()) ==> top.Tidy())
    ensures top.State() == PlainRun(old(top.State()), ops)
    ensures |answers| == |ops|
    ensures forall k :: 0 <= k < |ops| ==> PlainAnswer(PlainRun(old(top.State()), ops[..k]), ops[k], answers[k], old(top.Tidy()))
  {
    hide PlainStep, PlainAnswer, Admissible, CoinsViewCache.Valid, CoinsViewCache.State, CoinsViewCache.Tidy;
    answers := [];
    ghost var start, tidy := top.State(), top.Tidy();
    for k := 0 to |ops|
      invariant top.Valid() && !top.hasModifier && (tidy ==> top.Tidy())
      invariant top.State() == PlainRun(start, ops[..k])
      invariant |answers| == k
      invariant forall j :: 0 <= j < k ==> PlainAnswer(PlainRun(start, ops[..j]), ops[j], answers[j], tidy)
    {
      ghost var now, tidyNow := top.State(), top.Tidy();
      var a := Execute(top, ops[k]);
      AnswerForTidy(now, ops[k], a, tidyNow, tidy);
      answers := answers + [a];
      assert ops[..k + 1][..k] == ops[..k];
    }
    assert ops[..|ops|] == ops;
  }

  lemma AnswerForTidy(p: Plain, op: Op, a: Answer, tidyNow: bool, tidy: bool)
    requires PlainAnswer(p, op, a, tidyNow) && (tidy ==> tidyNow)
    ensures PlainAnswer(p, op, a, tidy)
  {
  }

  // A stack of new caches over a database.
  method NewStack(db: CoinsViewDb, caches: nat) returns (top: CoinsViewCache)
    requires StoredTrimmed(db.coins)
    ensures top.Valid() && !top.hasModifier && top.Tidy() && fresh(top.Repr - {db})
    ensures top.State() == NewPlain(Bottom(db.Contents(), db.bestBlock), caches)
  {
    top := new CoinsViewCache.OverDb(db);
    for i := 0 to caches
      invariant top.Valid() && !top.hasModifier && top.Tidy() && fresh(top.Repr - {db})
      invariant top.State() == NewPlain(Bottom(db.Contents(), db.bestBlock), i)
    {
      top := new CoinsViewCache.OverCache(top);
    }
  }

  ghost function NewPlain(p: Plain, caches: nat): Plain {
    var q := if caches == 0 then p else NewPlain(p, caches - 1);
    Level(q.view, NULL_HASH, q)
  }

  /** From new caches over any database, to any depth, every answer of every run is exactly the plain one. */
  method RunNew(db: CoinsViewDb, caches: nat, ops: seq<Op>) returns (answers: seq<Answer>)
    requires StoredTrimmed(db.coins)
    requires AdmissibleRun(NewPlain(Bottom(db.Contents(), db.bestBlock), caches), ops)
    modifies db
    ensures |answers| == |ops|
    ensures var p := NewPlain(Bottom(old(db.Contents()), old(db.bestBlock)), caches);
            forall k :: 0 <= k < |ops| ==> PlainAnswer(PlainRun(p, ops[..k]), ops[k], answers[k], true)
  {
    hide PlainAnswer, AdmissibleRun, PlainRun, NewPlain;
    var top := NewStack(db, caches);
    answers := Run(top, ops);
  }
}
