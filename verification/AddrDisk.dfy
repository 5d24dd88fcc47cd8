/** Saving the address manager and loading it into a fresh one. */
module AddrDisk {
  import opened Common
  import opened AddrTables
  import opened AddrCheck

  // The part of an entry that is written out.
  datatype Record = Record(address: Address, source: NetAddr, nLastSuccess: int, nAttempts: int)

  datatype Stream = Stream(
    version: int,
    keySize: int,
    key: Hash256,
    nNew: int,
    nTried: int,
    nUBuckets: bv32,
    news: seq<Record>,
    trieds: seq<Record>,
    buckets: seq<seq<int>>)

  datatype Outcome = Loaded(state: State) | Failure

  function Saved(i: AddrInfo): Record { Record(i.address, i.source, i.nLastSuccess, i.nAttempts) }

  function Restored(r: Record): AddrInfo { AddrInfo(r.address, r.source, r.nLastSuccess, 0, 0, r.nAttempts, 0, false, -1) }

  const VERSION_MASK: bv32 := 0x4000_0000

  // l lists the entries of m that satisfy kind, each once.
  ghost predicate Lists(l: seq<int>, m: InfoMap, tried: bool) {
    && (forall k :: 0 <= k < |l| ==> l[k] in m && m[l[k]].fInTried == tried)
    && (forall j, k :: 0 <= j < k < |l| ==> l[j] != l[k])
    && (forall id :: id in m && m[id].fInTried == tried ==> id in l)
  }

  ghost predicate ListsSome(l: seq<int>, m: InfoMap, tried: bool, todo: set<int>) {
    && (forall k :: 0 <= k < |l| ==> l[k] in m && m[l[k]].fInTried == tried && l[k] !in todo)
    && (forall j, k :: 0 <= j < k < |l| ==> l[j] != l[k])
    && (forall id :: id in m && m[id].fInTried == tried && id !in todo ==> id in l)
  }

  function Records(l: seq<int>, m: InfoMap): seq<Record>
    requires forall k :: 0 <= k < |l| ==> l[k] in m
  {
    seq(|l|, k requires 0 <= k < |l| => Saved(m[l[k]]))
  }

  ghost predicate Numbering(unk: map<int, int>, l: seq<int>) {
    forall k :: 0 <= k < |l| ==> l[k] in unk && unk[l[k]] == k
  }

  lemma ListStep(l: seq<int>, m: InfoMap, tried: bool, todo: set<int>, id: int)
    requires ListsSome(l, m, tried, todo) && id in m && id in todo
    ensures if m[id].fInTried == tried
            then ListsSome(l + [id], m, tried, todo - {id}) && Records(l + [id], m) == Records(l, m) + [Saved(m[id])]
            else ListsSome(l, m, tried, todo - {id})
  {
  }

  lemma NumberStep(unk: map<int, int>, l: seq<int>, id: int)
    requires Numbering(unk, l) && id !in l
    ensures Numbering(unk[id := |l|], l) && Numbering(unk[id := |l|], l + [id])
  {
  }

  // A list of distinct entries of one kind is no longer than the counter for that kind.
  lemma ListSize(s: State, l: seq<int>, tried: bool, todo: set<int>)
    requires Inv(s, {}, 0) && ListsSome(l, s.info, tried, todo)
    ensures |l| <= if tried then s.nTried else s.nNew
    ensures todo == {} ==> Lists(l, s.info, tried) && |l| == if tried then s.nTried else s.nNew
  {
    var kind := if tried then TriedIds(s.info) else NewIds(s.info);
    ElementsBound(l);
    forall id | id in Elements(l) ensures id in kind {}
    assert Elements(l) <= kind;
    NotLarger(Elements(l), kind);
    if todo == {} {
      forall id | id in kind ensures id in Elements(l) {
        var k :| 0 <= k < |l| && l[k] == id;
        assert l[k] in Elements(l);
      }
      assert kind <= Elements(l);
      NotLarger(kind, Elements(l));
    }
  }

  method SaveNew(s: State) returns (news: seq<Record>, unk: map<int, int>, ghost l: seq<int>)
    requires Inv(s, {}, 0)
    ensures Lists(l, s.info, false) && |l| == s.nNew && news == Records(l, s.info) && Numbering(unk, l)
  {
    hide Inv, Lists, Records, Numbering;
    news, unk, l := [], map[], [];
    var todo := s.info.Keys;
    SaveStart(s);
    while todo != {}
      invariant todo <= s.info.Keys
      invariant ListsSome(l, s.info, false, todo) && news == Records(l, s.info) && |news| == |l| && Numbering(unk, l)
      decreases todo
    {
      var id := Pick(todo);
      ReferencedIffNew(s, id);
      ListStep(l, s.info, false, todo, id);
      NumberStep(unk, l, id);
      unk := unk[id := |news|];
      if s.info[id].nRefCount != 0 {
        ListSize(s, l + [id], false, todo - {id});
        assert |news| != s.nNew;
        news, l := news + [Saved(s.info[id])], l + [id];
      }
      todo := todo - {id};
    }
    ListSize(s, l, false, todo);
  }

  lemma SaveStart(s: State)
    ensures ListsSome([], s.info, false, s.info.Keys) && ListsSome([], s.info, true, s.info.Keys)
    ensures Records([], s.info) == [] && Numbering(map[], [])
  {
  }

  lemma ReferencedIffNew(s: State, id: int)
    requires Inv(s, {}, 0) && id in s.info
    ensures s.info[id].nRefCount != 0 <==> !s.info[id].fInTried
  {
    assert s.w.RefOk(s.fresh', {}, id, s.info[id]);
  }

  method SaveTried(s: State) returns (trieds: seq<Record>, ghost l: seq<int>)
    requires Inv(s, {}, 0)
    ensures Lists(l, s.info, true) && |l| == s.nTried && trieds == Records(l, s.info)
  {
    hide Inv, Lists, Records;
    trieds, l := [], [];
    var todo := s.info.Keys;
    SaveStart(s);
    while todo != {}
      invariant todo <= s.info.Keys
      invariant ListsSome(l, s.info, true, todo) && trieds == Records(l, s.info) && |trieds| == |l|
      decreases todo
    {
      var id := Pick(todo);
      ListStep(l, s.info, true, todo, id);
      if s.info[id].fInTried {
        ListSize(s, l + [id], true, todo - {id});
        assert |trieds| != s.nTried;
        trieds, l := trieds + [Saved(s.info[id])], l + [id];
      }
      todo := todo - {id};
    }
    ListSize(s, l, true, todo);
  }

  // --- Loading, step by step ---

  ghost predicate Tables(t: State) {
    Sized(t.fresh', NEW_BUCKET_COUNT) && Sized(t.tried, TRIED_BUCKET_COUNT) && RandomIndex(t.info, t.random)
    && forall id :: id in t.info ==> id < t.nIdCount
  }

  function Blank(h: Hashing, key: Hash256, nNew: int, nTried: int): (t: State)
    ensures Tables(t)
  {
    State(Places(h, key), 0, map[], map[], [], nTried, EmptyTable(TRIED_BUCKET_COUNT), nNew, EmptyTable(NEW_BUCKET_COUNT), 1)
  }

  function Appended(t: State, i: AddrInfo): (r: State)
    requires Tables(t)
    ensures Tables(r) && r.fresh' == t.fresh' && r.tried == t.tried && r.w == t.w
  {
    var i' := WithPos(i, |t.random|);
    t.(info := t.info[t.nIdCount := i'], addr := t.addr[i.Addr() := t.nIdCount],
       random := t.random + [t.nIdCount], nIdCount := t.nIdCount + 1)
  }

  // One entry of the new table. When the saved buckets cannot be used it gets the place its source gives it.
  function NewLoaded(t: State, r: Record, rebuild: bool): (u: State)
    requires Tables(t)
    ensures Tables(u) && u.w == t.w
  {
    var i := Restored(r);
    var b := NewBucket(t.w.h, t.w.key, i.address.service, i.source);
    var p := t.w.NewPos(i.address.service, b);
    var u := Appended(t, i);
    if rebuild && u.fresh'[b][p] == -1 then Referenced(u, b, p, t.nIdCount) else u
  }

  function LoadNews(t: State, news: seq<Record>, rebuild: bool): (u: State)
    requires Tables(t)
    ensures Tables(u) && u.w == t.w
  {
    if news == [] then t else NewLoaded(LoadNews(t, news[..|news| - 1], rebuild), news[|news| - 1], rebuild)
  }

  // One entry of the tried table; it is lost if its slot is taken.
  function TriedLoaded(t: State, r: Record): (u: State)
    requires Tables(t)
    ensures Tables(u) && u.w == t.w
  {
    var i := Restored(r).(fInTried := true);
    var b, p := t.w.KBucket(i.address.service), t.w.KPos(i.address.service);
    if t.tried[b][p] == -1 then Appended(t, i).(tried := Set(t.tried, b, p, t.nIdCount))
    else t.(nTried := t.nTried - 1)
  }

  function LoadTrieds(t: State, trieds: seq<Record>): (u: State)
    requires Tables(t)
    ensures Tables(u) && u.w == t.w
  {
    if trieds == [] then t else TriedLoaded(LoadTrieds(t, trieds[..|trieds| - 1]), trieds[|trieds| - 1])
  }

  // One saved index of bucket b.
  function IndexLoaded(t: State, nNew: int, b: nat, index: int, usable: bool): (u: State)
    requires Tables(t)
    ensures Tables(u) && u == t.(info := u.info, fresh' := u.fresh')
  {
    if !(0 <= index < nNew) || index !in t.info || b >= NEW_BUCKET_COUNT then t
    else
      var p := t.w.NewPos(t.info[index].address.service, b);
      if usable && t.fresh'[b][p] == -1 && t.info[index].nRefCount < NEW_BUCKETS_PER_ADDRESS
      then Referenced(t, b, p, index) else t
  }

  function LoadRow(t: State, nNew: int, b: nat, row: seq<int>, usable: bool): (u: State)
    requires Tables(t)
    ensures Tables(u) && u == t.(info := u.info, fresh' := u.fresh')
  {
    if row == [] then t
    else IndexLoaded(LoadRow(t, nNew, b, row[..|row| - 1], usable), nNew, b, row[|row| - 1], usable)
  }

  function LoadRows(t: State, nNew: int, rows: seq<seq<int>>, usable: bool): (u: State)
    requires Tables(t)
    ensures Tables(u) && u == t.(info := u.info, fresh' := u.fresh')
  {
    if rows == [] then t
    else LoadRow(LoadRows(t, nNew, rows[..|rows| - 1], usable), nNew, |rows| - 1, rows[|rows| - 1], usable)
  }

  predicate Unplaced(t: State, id: int) { id in t.info && !t.info[id].fInTried && t.info[id].nRefCount == 0 }

  // Entries left without any reference are dropped, in the order of their ids.
  function Pruned(t: State, lo: int, hi: int): (u: State)
    requires Tables(t)
    ensures Tables(u)
    decreases hi - lo
  {
    if lo >= hi then t
    else if Unplaced(t, lo) then
      DeletedTables(t, lo);
      Pruned(Deleted(t, lo), lo + 1, hi)
    else Pruned(t, lo + 1, hi)
  }

  lemma DeletedTables(t: State, id: int)
    requires Tables(t) && id in t.info
    ensures Tables(Deleted(t, id))
  {
  }

  const ALL_BUCKETS: bv32 := 1024

  // The bucket count as the loader reads it: a signed 32-bit number whose bit 30 marks the newer format.
  function BucketCount(version: int, count: bv32): int {
    var nUBuckets := if version != 0 then count ^ VERSION_MASK else count;
    if nUBuckets < 0x8000_0000 then nUBuckets as int else nUBuckets as int - 0x1_0000_0000
  }

  lemma CountWritten()
    ensures BucketCount(1, ALL_BUCKETS ^ VERSION_MASK) == NEW_BUCKET_COUNT
  {
    assert (ALL_BUCKETS ^ VERSION_MASK) ^ VERSION_MASK == ALL_BUCKETS;
  }

  // No row follows a negative count.
  function Parse(h: Hashing, st: Stream): Outcome {
    var nUBuckets := BucketCount(st.version, st.nUBuckets);
    if st.keySize != 32 then Failure
    else if st.nNew > NEW_BUCKET_COUNT * BUCKET_SIZE || st.nTried > TRIED_BUCKET_COUNT * BUCKET_SIZE then Failure
    else if |st.news| != Max(0, st.nNew) || |st.trieds| != Max(0, st.nTried) || |st.buckets| != Max(0, nUBuckets) then Failure
    else Loaded(Rebuilt(h, st, st.version == 1 && nUBuckets == NEW_BUCKET_COUNT))
  }

  function Rebuilt(h: Hashing, st: Stream, usable: bool): State {
    var t1 := LoadNews(Blank(h, st.key, st.nNew, st.nTried), st.news, !usable);
    var t2 := if st.news == [] then t1.(nIdCount := st.nNew) else t1;
    var t3 := LoadTrieds(t2, st.trieds);
    var t4 := LoadRows(t3, st.nNew, st.buckets, usable);
    Pruned(t4, Min(0, st.nNew), t4.nIdCount)
  }

  // --- What is written ---

  function Indexes(row: seq<int>, unk: map<int, int>): seq<int> {
    if row == [] then []
    else
      var last := row[|row| - 1];
      Indexes(row[..|row| - 1], unk) + if last != -1 && last in unk then [unk[last]] else []
  }

  function Written(s: State, news: seq<Record>, trieds: seq<Record>, unk: map<int, int>): Stream {
    Stream(1, 32, s.w.key, s.nNew, s.nTried, ALL_BUCKETS ^ VERSION_MASK, news, trieds,
           seq(|s.fresh'|, b requires 0 <= b < |s.fresh'| => Indexes(s.fresh'[b], unk)))
  }

  // --- The image of a state ---

  // ids names every entry once; position k is its id after loading. References are counted from zero.
  function Reload(i: AddrInfo, k: int, refs: int): AddrInfo {
    i.(nLastTry := 0, nLastCountAttempt := 0, nRandomPos := k, nRefCount := refs)
  }

  ghost predicate Named(s: State, ids: seq<int>) {
    && (forall k :: 0 <= k < |ids| ==> ids[k] in s.info)
    && (forall j, k :: 0 <= j < k < |ids| ==> ids[j] != ids[k])
    && (forall id :: id in s.info ==> id in ids)
  }

  // y stands after loading for x.
  predicate Stands(ids: seq<int>, n: int, x: int, y: int)
    requires n <= |ids|
  {
    if x == -1 || x !in ids[..Max(0, n)] then y == -1 else 0 <= y < n && ids[y] == x
  }

  // The first n names have become entries 0 to n - 1, in that order.
  ghost predicate Listed(s: State, t: State, ids: seq<int>, n: nat)
    requires Named(s, ids) && n <= |ids|
  {
    && t.nIdCount == n && |t.random| == n && (forall k :: 0 <= k < n ==> t.random[k] == k)
    && (forall k :: k in t.info <==> 0 <= k < n)
    && (forall k :: 0 <= k < n ==> t.info[k] == Reload(s.info[ids[k]], k, 0))
    && (forall k :: 0 <= k < n ==> s.info[ids[k]].Addr() in t.addr && t.addr[s.info[ids[k]].Addr()] == k)
    && (forall a :: a in t.addr ==> 0 <= t.addr[a] < n && s.info[ids[t.addr[a]]].Addr() == a)
  }

  // The tried table holds the entries loaded so far at their old places.
  ghost predicate TriedSoFar(s: State, t: State, ids: seq<int>, n: nat)
    requires n <= |ids|
  {
    && Sized(s.tried, TRIED_BUCKET_COUNT) && Sized(t.tried, TRIED_BUCKET_COUNT)
    && forall b, p :: 0 <= b < TRIED_BUCKET_COUNT && 0 <= p < BUCKET_SIZE ==> Stands(ids, n, s.tried[b][p], t.tried[b][p])
  }

  lemma AddrOf(s: State, id: int)
    requires AddrIndex(s.info, s.addr) && id in s.info
    ensures s.info[id].Addr() in s.addr && s.addr[s.info[id].Addr()] == id
  {
  }

  lemma NoRecords(m: InfoMap)
    ensures Records([], m) == []
  {
  }

  lemma RecordsPrefix(l: seq<int>, m: InfoMap, n: nat)
    requires 0 < n <= |l| && forall k :: 0 <= k < |l| ==> l[k] in m
    ensures Records(l[..n], m) != [] && |Records(l[..n], m)| == n
    ensures Records(l[..n], m)[..n - 1] == Records(l[..n - 1], m) && Records(l[..n], m)[n - 1] == Saved(m[l[n - 1]])
  {
  }

  // Two names never share an address.
  lemma FreshName(s: State, t: State, ids: seq<int>, n: nat)
    requires AddrIndex(s.info, s.addr) && Named(s, ids) && n < |ids| && Listed(s, t, ids, n)
    ensures s.info[ids[n]].Addr() !in t.addr
  {
    var a := s.info[ids[n]].Addr();
    AddrOf(s, ids[n]);
    forall k | 0 <= k < n ensures s.info[ids[k]].Addr() != a {
      AddrOf(s, ids[k]);
    }
  }

  lemma ListNext(s: State, t: State, ids: seq<int>, n: nat, i: AddrInfo)
    requires AddrIndex(s.info, s.addr) && Tables(t) && Named(s, ids) && n < |ids| && Listed(s, t, ids, n)
    requires WithPos(i, n) == Reload(s.info[ids[n]], n, 0)
    ensures Listed(s, Appended(t, i), ids, n + 1)
  {
    hide AddrIndex, RandomIndex, Sized, Tables;
    FreshName(s, t, ids, n);
  }

  lemma StandsNext(ids: seq<int>, n: nat, x: int, y: int)
    requires n < |ids| && Stands(ids, n, x, y) && n <= |ids|
    requires forall j, k :: 0 <= j < k < |ids| ==> ids[j] != ids[k]
    ensures x != ids[n] ==> Stands(ids, n + 1, x, y)
    ensures x == ids[n] && x != -1 ==> y == -1 && Stands(ids, n + 1, x, n)
  {
    assert ids[..n + 1] == ids[..n] + [ids[n]];
  }

  // An untried name occupies no tried slot.
  lemma TriedSkip(s: State, t: State, ids: seq<int>, n: nat)
    requires s.w.TriedPlaced(s.info, s.tried) && Numbered(s.info, s.nIdCount)
    requires Named(s, ids) && n < |ids| && TriedSoFar(s, t, ids, n) && !s.info[ids[n]].fInTried
    ensures TriedSoFar(s, t, ids, n + 1)
  {
    forall b, p | 0 <= b < TRIED_BUCKET_COUNT && 0 <= p < BUCKET_SIZE
      ensures Stands(ids, n + 1, s.tried[b][p], t.tried[b][p])
    {
      StandsNext(ids, n, s.tried[b][p], t.tried[b][p]);
    }
  }

  // A tried name finds its slot free and takes it.
  lemma TriedNext(s: State, t: State, ids: seq<int>, n: nat)
    requires s.w.TriedPlaced(s.info, s.tried) && Numbered(s.info, s.nIdCount)
    requires Named(s, ids) && n < |ids| && TriedSoFar(s, t, ids, n) && s.info[ids[n]].fInTried
    ensures var b, p := s.w.KBucket(s.info[ids[n]].address.service), s.w.KPos(s.info[ids[n]].address.service);
            Sized(t.tried, TRIED_BUCKET_COUNT) && t.tried[b][p] == -1 && TriedSoFar(s, t.(tried := Set(t.tried, b, p, n)), ids, n + 1)
  {
    var b0, p0 := s.w.KBucket(s.info[ids[n]].address.service), s.w.KPos(s.info[ids[n]].address.service);
    assert s.tried[b0][p0] == ids[n];
    StandsNext(ids, n, s.tried[b0][p0], t.tried[b0][p0]);
    var u := Set(t.tried, b0, p0, n);
    forall b, p | 0 <= b < TRIED_BUCKET_COUNT && 0 <= p < BUCKET_SIZE
      ensures Stands(ids, n + 1, s.tried[b][p], u[b][p])
    {
      StandsNext(ids, n, s.tried[b][p], t.tried[b][p]);
    }
  }

  // The first n names have been loaded; no new bucket has.
  ghost predicate Entered(s: State, t: State, ids: seq<int>, n: nat) {
    && n <= |ids| && Named(s, ids) && Tables(t)
    && Listed(s, t, ids, n) && TriedSoFar(s, t, ids, n)
    && t.w == s.w && t.nNew == s.nNew && t.nTried == s.nTried
    && t.fresh' == EmptyTable(NEW_BUCKET_COUNT)
  }

  lemma EnterNew(s: State, t: State, ids: seq<int>, n: nat)
    requires Inv(s, {}, 0) && Entered(s, t, ids, n) && n < |ids| && !s.info[ids[n]].fInTried
    ensures Entered(s, NewLoaded(t, Saved(s.info[ids[n]]), false), ids, n + 1)
  {
    hide Listed, TriedSoFar, AddrIndex, Places.TriedPlaced, Tables;
    ListNext(s, t, ids, n, Restored(Saved(s.info[ids[n]])));
    TriedSkip(s, t, ids, n);
    var u := NewLoaded(t, Saved(s.info[ids[n]]), false);
    TriedTableOnly(s, t, u, ids, n + 1);
  }

  lemma TriedTableOnly(s: State, t: State, u: State, ids: seq<int>, n: nat)
    requires n <= |ids| && TriedSoFar(s, t, ids, n) && u.tried == t.tried
    ensures TriedSoFar(s, u, ids, n)
  {
  }

  lemma EnterTriedName(s: State, t: State, ids: seq<int>, n: nat)
    requires Inv(s, {}, 0) && Entered(s, t, ids, n) && n < |ids| && s.info[ids[n]].fInTried
    ensures Entered(s, TriedLoaded(t, Saved(s.info[ids[n]])), ids, n + 1)
  {
    hide TriedSoFar, AddrIndex, Places.TriedPlaced, Tables;
    var i := Restored(Saved(s.info[ids[n]])).(fInTried := true);
    ListNext(s, t, ids, n, i);
    TriedNext(s, t, ids, n);
    var b, p := s.w.KBucket(s.info[ids[n]].address.service), s.w.KPos(s.info[ids[n]].address.service);
    var u := TriedLoaded(t, Saved(s.info[ids[n]]));
    TriedTableOnly(s, t.(tried := Set(t.tried, b, p, n)), u, ids, n + 1);
  }

  lemma {:induction false} EnterAllNew(s: State, l: seq<int>, q: seq<int>, n: nat)
    requires Inv(s, {}, 0) && Named(s, l + q) && Lists(l, s.info, false) && n <= |l|
    ensures Entered(s, LoadNews(Blank(s.w.h, s.w.key, s.nNew, s.nTried), Records(l[..n], s.info), false), l + q, n)
  {
    hide Entered, Inv, Records, Named;
    var ids, news := l + q, Records(l[..n], s.info);
    NoRecords(s.info);
    if n == 0 {
      assert l[..n] == [];
      EnterStart(s, ids);
    } else {
      EnterAllNew(s, l, q, n - 1);
      RecordsPrefix(l, s.info, n);
      var t := LoadNews(Blank(s.w.h, s.w.key, s.nNew, s.nTried), news[..n - 1], false);
      EnterNew(s, t, ids, n - 1);
    }
  }

  lemma EnterStart(s: State, ids: seq<int>)
    requires Inv(s, {}, 0) && Named(s, ids)
    ensures Entered(s, Blank(s.w.h, s.w.key, s.nNew, s.nTried), ids, 0)
  {
    assert forall x :: Stands(ids, 0, x, -1);
  }

  lemma EnteredTables(s: State, t: State, ids: seq<int>, n: nat)
    requires Entered(s, t, ids, n)
    ensures Tables(t)
  {
  }

  lemma ListsAt(q: seq<int>, m: InfoMap, n: nat)
    requires Lists(q, m, true) && n < |q|
    ensures q[n] in m && m[q[n]].fInTried
  {
  }

  lemma {:induction false} EnterAllTried(s: State, t: State, l: seq<int>, q: seq<int>, n: nat)
    requires Inv(s, {}, 0) && Lists(q, s.info, true) && n <= |q| && Entered(s, t, l + q, |l|)
    ensures Entered(s, LoadTrieds(t, Records(q[..n], s.info)), l + q, |l| + n)
  {
    hide Entered, Inv, Records, TriedLoaded, Restored, Saved;
    var ids, trieds := l + q, Records(q[..n], s.info);
    assert n == 0 ==> q[..n] == [];
    NoRecords(s.info);
    EnteredTables(s, t, ids, |l|);
    if n > 0 {
      EnterAllTried(s, t, l, q, n - 1);
      RecordsPrefix(q, s.info, n);
      assert ids[|l| + n - 1] == q[n - 1];
      ListsAt(q, s.info, n - 1);
      EnterTriedName(s, LoadTrieds(t, trieds[..n - 1]), ids, |l| + n - 1);
    }
  }

  // --- The new buckets ---

  // References counted up to, not including, position (b, i).
  ghost predicate RefilledInfo(s: State, m: InfoMap, ids: seq<int>, b: int, i: int)
    requires Named(s, ids) && Sized(s.fresh', NEW_BUCKET_COUNT)
  {
    && (forall k :: k in m <==> 0 <= k < |ids|)
    && (forall k :: 0 <= k < |ids| ==> m[k] == Reload(s.info[ids[k]], k, |Met(s, ids[k], b, i)|))
  }

  ghost predicate RefilledTable(s: State, t: Table, ids: seq<int>, b: int, i: int)
    requires Sized(s.fresh', NEW_BUCKET_COUNT)
  {
    && Sized(t, NEW_BUCKET_COUNT)
    && forall c, p :: 0 <= c < NEW_BUCKET_COUNT && 0 <= p < BUCKET_SIZE ==>
         if Before(c, p, b, i) then Stands(ids, |ids|, s.fresh'[c][p], t[c][p]) else t[c][p] == -1
  }

  ghost predicate Refilled(s: State, t: State, ids: seq<int>, b: int, i: int) {
    && Named(s, ids) && Tables(t) && Sized(s.fresh', NEW_BUCKET_COUNT)
    && RefilledInfo(s, t.info, ids, b, i) && RefilledTable(s, t.fresh', ids, b, i)
  }

  lemma RefillStart(s: State, t: State, ids: seq<int>)
    requires Inv(s, {}, 0) && Entered(s, t, ids, |ids|)
    ensures Refilled(s, t, ids, 0, 0)
  {
    forall k | 0 <= k < |ids| ensures Met(s, ids[k], 0, 0) == {} {}
  }

  lemma RefillSkip(s: State, t: State, ids: seq<int>, b: nat, i: nat)
    requires Inv(s, {}, 0) && Refilled(s, t, ids, b, i) && b < NEW_BUCKET_COUNT && i < BUCKET_SIZE && s.fresh'[b][i] == -1
    ensures Refilled(s, t, ids, b, i + 1)
  {
    hide Inv, RandomIndex, AddrIndex, Places.NewPlaced;
    InvFacts(s, {}, 0);
    forall k | 0 <= k < |ids| ensures Met(s, ids[k], b, i + 1) == Met(s, ids[k], b, i) {
      assert ids[k] != -1;
    }
  }

  lemma RefillInfo(s: State, m: InfoMap, ids: seq<int>, b: nat, i: nat, k: nat)
    requires Inv(s, {}, 0) && Named(s, ids) && RefilledInfo(s, m, ids, b, i) && b < NEW_BUCKET_COUNT && i < BUCKET_SIZE
    requires k < |ids| && ids[k] == s.fresh'[b][i] != -1
    ensures s.w.NewPos(s.info[ids[k]].address.service, b) == i && m[k].nRefCount < NEW_BUCKETS_PER_ADDRESS
    ensures RefilledInfo(s, m[k := m[k].(nRefCount := m[k].nRefCount + 1)], ids, b, i + 1)
  {
    hide RandomIndex, AddrIndex, Places.TriedPlaced, NewIds, TriedIds, Inv;
    InvFacts(s, {}, 0);
    var x := ids[k];
    SlotHolds(s.w, s.info, s.fresh', b, i);
    MetNext(s, b, i);
    var all, met := s.w.Slots(s.fresh', x, s.info[x].address.service), Met(s, x, b, i);
    Smaller(met, all, b);
    forall j | 0 <= j < |ids| && j != k ensures ids[j] != x {}
  }

  // Passing position (b, i) counts one more slot for its occupant and none for the others.
  lemma MetNext(s: State, b: nat, i: nat)
    requires Inv(s, {}, 0) && b < NEW_BUCKET_COUNT && i < BUCKET_SIZE && s.fresh'[b][i] != -1
    ensures var x := s.fresh'[b][i];
            && x in s.info && !s.info[x].fInTried && s.w.NewPos(s.info[x].address.service, b) == i
            && b in s.w.Slots(s.fresh', x, s.info[x].address.service) && b !in Met(s, x, b, i)
            && s.info[x].nRefCount == |s.w.Slots(s.fresh', x, s.info[x].address.service)| <= NEW_BUCKETS_PER_ADDRESS
            && Met(s, x, b, i + 1) == Met(s, x, b, i) + {b}
            && forall id :: id in s.info && id != x ==> Met(s, id, b, i + 1) == Met(s, id, b, i)
  {
    var x := s.fresh'[b][i];
    SlotHolds(s.w, s.info, s.fresh', b, i);
    assert s.w.RefOk(s.fresh', {}, x, s.info[x]);
    assert Met(s, x, b, i + 1) == Met(s, x, b, i) + {b};
    forall id | id in s.info && id != x ensures Met(s, id, b, i + 1) == Met(s, id, b, i) {}
  }

  lemma RefillTable(s: State, t: Table, ids: seq<int>, b: nat, i: nat, k: nat)
    requires Sized(s.fresh', NEW_BUCKET_COUNT) && RefilledTable(s, t, ids, b, i) && b < NEW_BUCKET_COUNT && i < BUCKET_SIZE
    requires k < |ids| && ids[k] == s.fresh'[b][i] != -1
    ensures t[b][i] == -1 && RefilledTable(s, Set(t, b, i, k), ids, b, i + 1)
  {
    assert ids[..|ids|] == ids;
    assert Stands(ids, |ids|, s.fresh'[b][i], k);
  }

  // The saved index finds the slot free and the reference count below its limit.
  lemma RefillOne(s: State, t: State, ids: seq<int>, b: nat, i: nat, k: nat)
    requires Inv(s, {}, 0) && Refilled(s, t, ids, b, i) && b < NEW_BUCKET_COUNT && i < BUCKET_SIZE
    requires k < |ids| && ids[k] == s.fresh'[b][i] != -1
    requires t.w == s.w && k < s.nNew
    ensures Refilled(s, IndexLoaded(t, s.nNew, b, k, true), ids, b, i + 1)
  {
    hide RefilledTable, Inv, RandomIndex;
    RefillInfo(s, t.info, ids, b, i, k);
    RefillTable(s, t.fresh', ids, b, i, k);
  }

  lemma RefillRow(s: State, t: State, ids: seq<int>, b: nat)
    requires Refilled(s, t, ids, b, BUCKET_SIZE)
    ensures Refilled(s, t, ids, b + 1, 0)
  {
    forall k | 0 <= k < |ids| ensures Met(s, ids[k], b + 1, 0) == Met(s, ids[k], b, BUCKET_SIZE) {}
  }

  // --- Round trip ---

  // What the saved lists and numbers are: all new entries and all tried entries, numbered in order.
  ghost predicate Listing(s: State, l: seq<int>, q: seq<int>, unk: map<int, int>) {
    && Lists(l, s.info, false) && Lists(q, s.info, true) && Numbering(unk, l)
    && |l| == s.nNew && |q| == s.nTried && Named(s, l + q)
  }

  lemma {:induction false} RefillIndexes(s: State, t: State, l: seq<int>, q: seq<int>, unk: map<int, int>, b: nat, i: nat)
    requires Inv(s, {}, 0) && Listing(s, l, q, unk) && b < NEW_BUCKET_COUNT && i <= BUCKET_SIZE
    requires t.w == s.w && Refilled(s, t, l + q, b, 0)
    ensures Refilled(s, LoadRow(t, s.nNew, b, Indexes(s.fresh'[b][..i], unk), true), l + q, b, i)
  {
    hide Inv, Refilled, Named, Indexes, RandomIndex, AddrIndex, LoadRow, IndexLoaded;
    InvFacts(s, {}, 0);
    RefilledFacts(s, t, l + q, b, 0);
    IndexesNext(s.fresh'[b], unk, i);
    LoadRowNext(t, s.nNew, b, []);
    if i > 0 {
      RefillIndexes(s, t, l, q, unk, b, i - 1);
      var x := s.fresh'[b][i - 1];
      var head := Indexes(s.fresh'[b][..i - 1], unk);
      var u := LoadRow(t, s.nNew, b, head, true);
      if x == -1 {
        assert head + [] == head;
        RefillSkip(s, u, l + q, b, i - 1);
      } else {
        SlotHolds(s.w, s.info, s.fresh', b, i - 1);
        var k :| 0 <= k < |l| && l[k] == x;
        assert (head + [k])[..|head|] == head && (head + [k])[|head|] == k;
        LoadRowNext(t, s.nNew, b, head + [k]);
        RefillOne(s, u, l + q, b, i - 1, k);
      }
    }
  }

  lemma LoadRowNext(t: State, nNew: int, b: nat, row: seq<int>)
    requires Tables(t)
    ensures row == [] ==> LoadRow(t, nNew, b, row, true) == t
    ensures row != [] ==> LoadRow(t, nNew, b, row, true) == IndexLoaded(LoadRow(t, nNew, b, row[..|row| - 1], true), nNew, b, row[|row| - 1], true)
  {
    hide Tables, IndexLoaded;
  }

  lemma IndexesNext(row: seq<int>, unk: map<int, int>, i: nat)
    requires i <= |row|
    ensures i == 0 ==> Indexes(row[..i], unk) == []
    ensures i > 0 ==> Indexes(row[..i], unk) == Indexes(row[..i - 1], unk) +
                      if row[i - 1] != -1 && row[i - 1] in unk then [unk[row[i - 1]]] else []
  {
    if i > 0 {
      assert row[..i][..i - 1] == row[..i - 1];
    }
  }

  lemma RefilledFacts(s: State, t: State, ids: seq<int>, b: int, i: int)
    requires Refilled(s, t, ids, b, i)
    ensures Tables(t)
  {
  }

  lemma {:induction false} RefillRows(s: State, t: State, l: seq<int>, q: seq<int>, unk: map<int, int>, rows: seq<seq<int>>, n: nat)
    requires Inv(s, {}, 0) && Listing(s, l, q, unk) && n <= |rows| == NEW_BUCKET_COUNT
    requires forall b :: 0 <= b < |rows| ==> rows[b] == Indexes(s.fresh'[b], unk)
    requires t.w == s.w && Refilled(s, t, l + q, 0, 0)
    ensures Refilled(s, LoadRows(t, s.nNew, rows[..n], true), l + q, n, 0)
  {
    hide Inv, Refilled, Listing, Indexes;
    InvFacts(s, {}, 0);
    RefilledFacts(s, t, l + q, 0, 0);
    if n > 0 {
      RefillRows(s, t, l, q, unk, rows, n - 1);
      assert rows[..n][..n - 1] == rows[..n - 1];
      var u := LoadRows(t, s.nNew, rows[..n - 1], true);
      assert s.fresh'[n - 1][..BUCKET_SIZE] == s.fresh'[n - 1];
      RefillIndexes(s, u, l, q, unk, n - 1, BUCKET_SIZE);
      RefillRow(s, LoadRow(u, s.nNew, n - 1, rows[n - 1], true), l + q, n - 1);
    }
  }

  ghost predicate SameEntries(s: State, t: State, ids: seq<int>)
    requires Named(s, ids)
  {
    && t.nIdCount == |ids| && |t.random| == |ids| && (forall k :: 0 <= k < |ids| ==> t.random[k] == k)
    && (forall k :: k in t.info <==> 0 <= k < |ids|)
    && (forall k :: 0 <= k < |ids| ==> t.info[k] == Reload(s.info[ids[k]], k, s.info[ids[k]].nRefCount))
    && (forall k :: 0 <= k < |ids| ==> s.info[ids[k]].Addr() in t.addr && t.addr[s.info[ids[k]].Addr()] == k)
    && (forall a :: a in t.addr ==> 0 <= t.addr[a] < |ids| && s.info[ids[t.addr[a]]].Addr() == a)
  }

  ghost predicate SameTable(old': Table, new': Table, n: nat, ids: seq<int>) {
    && Sized(old', n) && Sized(new', n)
    && forall b, p :: 0 <= b < n && 0 <= p < BUCKET_SIZE ==> Stands(ids, |ids|, old'[b][p], new'[b][p])
  }

  // t is s up to the names of the entries and the order of vRandom: the same entries, the same places in
  // both tables, the same counts. Only the fields that are kept in memory alone are reset.
  ghost predicate Isomorphic(s: State, t: State, ids: seq<int>) {
    && Named(s, ids) && SameEntries(s, t, ids)
    && t.w == s.w && t.nNew == s.nNew && t.nTried == s.nTried
    && SameTable(s.fresh', t.fresh', NEW_BUCKET_COUNT, ids) && SameTable(s.tried, t.tried, TRIED_BUCKET_COUNT, ids)
  }

  lemma RefillEnd(s: State, t0: State, t: State, ids: seq<int>)
    requires Inv(s, {}, 0) && Entered(s, t0, ids, |ids|) && Refilled(s, t, ids, NEW_BUCKET_COUNT, 0)
    requires t == t0.(info := t.info, fresh' := t.fresh')
    ensures Isomorphic(s, t, ids)
  {
    forall k | 0 <= k < |ids| ensures |Met(s, ids[k], NEW_BUCKET_COUNT, 0)| == s.info[ids[k]].nRefCount {
      AllMet(s, ids[k]);
    }
  }

  lemma AllMet(s: State, id: int)
    requires Inv(s, {}, 0) && id in s.info
    ensures |Met(s, id, NEW_BUCKET_COUNT, 0)| == s.info[id].nRefCount
  {
    assert s.w.RefOk(s.fresh', {}, id, s.info[id]);
    assert Met(s, id, NEW_BUCKET_COUNT, 0) == s.w.Slots(s.fresh', id, s.info[id].address.service);
    if s.info[id].fInTried {
      NoSlots(s.w, s.info, s.fresh', id);
    }
  }

  // Nothing has lost all its references, so nothing is dropped.
  lemma {:induction false} PruneNothing(t: State, lo: int, hi: int)
    requires Tables(t) && forall id :: !Unplaced(t, id)
    ensures Pruned(t, lo, hi) == t
    decreases hi - lo
  {
    if lo < hi {
      PruneNothing(t, lo + 1, hi);
    }
  }

  lemma NothingUnplaced(s: State, t: State, ids: seq<int>)
    requires Inv(s, {}, 0) && Isomorphic(s, t, ids)
    ensures forall id :: !Unplaced(t, id)
  {
    forall id | Unplaced(t, id) ensures false {
      ReferencedIffNew(s, ids[id]);
    }
  }

  lemma StandsBoth(ids: seq<int>, x: int, y: int, k: nat)
    requires Stands(ids, |ids|, x, y) && k < |ids| && ids[k] != -1
    requires forall j, k :: 0 <= j < k < |ids| ==> ids[j] != ids[k]
    ensures y == k <==> x == ids[k]
  {
    assert ids[..|ids|] == ids;
  }

  lemma ImageRefs(s: State, t: State, ids: seq<int>)
    requires Inv(s, {}, 0) && Isomorphic(s, t, ids)
    ensures t.w.RefsOk(t.info, t.fresh', {})
  {
    hide RandomIndex, AddrIndex, Places.TriedPlaced, NewIds, TriedIds;
    forall k | k in t.info ensures t.w.RefOk(t.fresh', {}, k, t.info[k]) {
      var srv := s.info[ids[k]].address.service;
      assert s.w.RefOk(s.fresh', {}, ids[k], s.info[ids[k]]);
      forall b | 0 <= b < NEW_BUCKET_COUNT
        ensures t.fresh'[b][s.w.NewPos(srv, b)] == k <==> s.fresh'[b][s.w.NewPos(srv, b)] == ids[k]
      {
        StandsBoth(ids, s.fresh'[b][s.w.NewPos(srv, b)], t.fresh'[b][s.w.NewPos(srv, b)], k);
      }
      assert t.w.Slots(t.fresh', k, srv) == s.w.Slots(s.fresh', ids[k], srv);
    }
  }

  lemma ImagePlaces(s: State, t: State, ids: seq<int>)
    requires Inv(s, {}, 0) && Isomorphic(s, t, ids)
    ensures t.w.NewPlaced(t.info, t.fresh') && t.w.TriedPlaced(t.info, t.tried)
  {
    hide RandomIndex, AddrIndex, Places.RefsOk, NewIds, TriedIds;
    forall b, p | 0 <= b < NEW_BUCKET_COUNT && 0 <= p < BUCKET_SIZE && t.fresh'[b][p] != -1
      ensures var k := t.fresh'[b][p]; k in t.info && !t.info[k].fInTried && t.w.NewPos(t.info[k].address.service, b) == p
    {
      assert Stands(ids, |ids|, s.fresh'[b][p], t.fresh'[b][p]);
    }
    forall b, p | 0 <= b < TRIED_BUCKET_COUNT && 0 <= p < BUCKET_SIZE && t.tried[b][p] != -1
      ensures var k := t.tried[b][p];
              k in t.info && t.info[k].fInTried && t.w.KBucket(t.info[k].address.service) == b && t.w.KPos(t.info[k].address.service) == p
    {
      assert Stands(ids, |ids|, s.tried[b][p], t.tried[b][p]);
    }
    forall k | k in t.info && t.info[k].fInTried
      ensures t.tried[t.w.KBucket(t.info[k].address.service)][t.w.KPos(t.info[k].address.service)] == k
    {
      var b, p := s.w.KBucket(s.info[ids[k]].address.service), s.w.KPos(s.info[ids[k]].address.service);
      StandsBoth(ids, s.tried[b][p], t.tried[b][p], k);
    }
  }

  lemma ImageCounts(s: State, t: State, l: seq<int>, q: seq<int>, unk: map<int, int>)
    requires Inv(s, {}, 0) && Listing(s, l, q, unk) && Isomorphic(s, t, l + q)
    ensures |NewIds(t.info)| == |l| && |TriedIds(t.info)| == |q|
  {
    hide Inv, NewIds, TriedIds, SameTable;
    forall k | 0 <= k < |l| + |q| ensures t.info[k].fInTried <==> k >= |l| {
      assert (l + q)[k] == if k < |l| then l[k] else q[k - |l|];
    }
    CountSplit(t.info, |l|, |l| + |q|);
  }

  lemma CountSplit(m: InfoMap, a: nat, n: nat)
    requires a <= n && (forall k :: k in m <==> 0 <= k < n) && forall k :: 0 <= k < n ==> (m[k].fInTried <==> k >= a)
    ensures |NewIds(m)| == a && |TriedIds(m)| == n - a
  {
    Partition(m);
    assert m.Keys == Upto(n);
    assert NewIds(m) == Upto(a);
  }

  lemma ImageConsistent(s: State, t: State, l: seq<int>, q: seq<int>, unk: map<int, int>)
    requires Consistent(s) && Listing(s, l, q, unk) && Isomorphic(s, t, l + q)
    ensures Consistent(t)
  {
    hide Places.RefsOk, Places.NewPlaced, Places.TriedPlaced, NewIds, TriedIds, Isomorphic, Inv, Listing, RandomIndex, AddrIndex, Numbered, Sized, TimesOk;
    ImageRefs(s, t, l + q);
    ImagePlaces(s, t, l + q);
    ImageCounts(s, t, l, q, unk);
    ImageIndexes(s, t, l + q);
    ListingCounts(s, l, q, unk);
    ImageSame(s, t, l + q);
    Assemble(t);
  }

  lemma ImageSame(s: State, t: State, ids: seq<int>)
    requires Isomorphic(s, t, ids)
    ensures t.w == s.w && t.nNew == s.nNew && t.nTried == s.nTried
  {
  }

  lemma ListingCounts(s: State, l: seq<int>, q: seq<int>, unk: map<int, int>)
    requires Inv(s, {}, 0) && Listing(s, l, q, unk)
    ensures s.w.key != NULL_HASH && s.nNew == |l| && s.nTried == |q|
  {
    hide Places.RefsOk, Places.NewPlaced, Places.TriedPlaced, RandomIndex, AddrIndex, Numbered, Sized;
  }

  lemma ImageIndexes(s: State, t: State, ids: seq<int>)
    requires Inv(s, {}, 0) && TimesOk(s.info) && Isomorphic(s, t, ids)
    ensures RandomIndex(t.info, t.random) && AddrIndex(t.info, t.addr) && Numbered(t.info, t.nIdCount) && TimesOk(t.info)
    ensures Sized(t.fresh', NEW_BUCKET_COUNT) && Sized(t.tried, TRIED_BUCKET_COUNT)
  {
    hide Places.RefsOk, Places.NewPlaced, Places.TriedPlaced, NewIds, TriedIds;
  }

  lemma Assemble(t: State)
    requires t.w.key != NULL_HASH && Sized(t.fresh', NEW_BUCKET_COUNT) && Sized(t.tried, TRIED_BUCKET_COUNT)
    requires RandomIndex(t.info, t.random) && AddrIndex(t.info, t.addr) && Numbered(t.info, t.nIdCount) && TimesOk(t.info)
    requires t.w.NewPlaced(t.info, t.fresh') && t.w.TriedPlaced(t.info, t.tried) && t.w.RefsOk(t.info, t.fresh', {})
    requires t.nTried == |TriedIds(t.info)| && t.nNew == |NewIds(t.info)|
    ensures Consistent(t)
  {
  }

  // Saving a consistent manager and loading the result into a fresh one loses nothing: no slot collides,
  // no entry is dropped, and the result is consistent again.
  lemma RoundTrip(s: State, l: seq<int>, q: seq<int>, unk: map<int, int>)
    requires Consistent(s) && Listing(s, l, q, unk)
    ensures var r := Parse(s.w.h, Written(s, Records(l, s.info), Records(q, s.info), unk));
            r.Loaded? && Isomorphic(s, r.state, l + q) && Consistent(r.state)
  {
    hide Inv, Entered, Refilled, Isomorphic, Indexes, LoadNews, LoadTrieds, LoadRows, Pruned, RandomIndex, AddrIndex, Places.NewPlaced,
         Numbering, Named, TimesOk, Unplaced, Tables, BucketCount;
    CountWritten();
    InvFacts(s, {}, 0);
    var st := Written(s, Records(l, s.info), Records(q, s.info), unk);
    WithinLimits(s, l, false);
    WithinLimits(s, q, true);
    assert l[..|l|] == l && q[..|q|] == q && st.buckets[..|st.buckets|] == st.buckets;
    var t1 := LoadNews(Blank(s.w.h, s.w.key, s.nNew, s.nTried), st.news, false);
    EnterAllNew(s, l, q, |l|);
    NoNews(s, t1, l, q);
    EnterAllTried(s, t1, l, q, |q|);
    var t3 := LoadTrieds(t1, st.trieds);
    EnteredTables(s, t3, l + q, |l + q|);
    RefillStart(s, t3, l + q);
    EnteredPlaces(s, t3, l + q, |l + q|);
    RefillRows(s, t3, l, q, unk, st.buckets, NEW_BUCKET_COUNT);
    var t4 := LoadRows(t3, s.nNew, st.buckets, true);
    RefillEnd(s, t3, t4, l + q);
    NothingUnplaced(s, t4, l + q);
    PruneNothing(t4, Min(0, s.nNew), t4.nIdCount);
    ImageConsistent(s, t4, l, q, unk);
  }

  lemma EnteredPlaces(s: State, t: State, ids: seq<int>, n: nat)
    requires Entered(s, t, ids, n)
    ensures t.w == s.w
  {
  }

  lemma NoNews(s: State, t: State, l: seq<int>, q: seq<int>)
    requires Entered(s, t, l + q, |l|)
    ensures t.nIdCount == |l|
  {
  }

  // --- Sizes ---

  ghost function Upto(n: nat): (r: set<int>)
    ensures |r| == n && forall k :: k in r <==> 0 <= k < n
  {
    if n == 0 then {} else Upto(n - 1) + {n - 1}
  }

  lemma Bounded(codes: seq<int>, n: nat)
    requires forall j, k :: 0 <= j < k < |codes| ==> codes[j] != codes[k]
    requires forall k :: 0 <= k < |codes| ==> 0 <= codes[k] < n
    ensures |codes| <= n
  {
    ElementsBound(codes);
    forall x | x in Elements(codes) ensures x in Upto(n) {}
    assert Elements(codes) <= Upto(n);
    NotLarger(Elements(codes), Upto(n));
  }

  ghost function SlotCode(s: State, id: int): (c: int)
    requires Inv(s, {}, 0) && id in s.info
    ensures if s.info[id].fInTried
            then 0 <= c < TRIED_BUCKET_COUNT * BUCKET_SIZE && s.tried[c / BUCKET_SIZE][c % BUCKET_SIZE] == id
            else 0 <= c < NEW_BUCKET_COUNT * BUCKET_SIZE && s.fresh'[c / BUCKET_SIZE][c % BUCKET_SIZE] == id
  {
    var srv := s.info[id].address.service;
    if s.info[id].fInTried then s.w.KBucket(srv) * BUCKET_SIZE + s.w.KPos(srv)
    else
      InSomeBucket(s, id);
      var b :| 0 <= b < NEW_BUCKET_COUNT && s.fresh'[b][s.w.NewPos(srv, b)] == id;
      b * BUCKET_SIZE + s.w.NewPos(srv, b)
  }

  // The counters never exceed the sizes that a loader accepts.
  lemma WithinLimits(s: State, l: seq<int>, tried: bool)
    requires Inv(s, {}, 0) && Lists(l, s.info, tried)
    ensures |l| <= (if tried then TRIED_BUCKET_COUNT else NEW_BUCKET_COUNT) * BUCKET_SIZE
  {
    hide Inv, SlotCode;
    var codes := seq(|l|, k requires 0 <= k < |l| => SlotCode(s, l[k]));
    forall j, k | 0 <= j < k < |codes| ensures codes[j] != codes[k] {
      assert l[j] != l[k];
    }
    Bounded(codes, (if tried then TRIED_BUCKET_COUNT else NEW_BUCKET_COUNT) * BUCKET_SIZE);
  }

  // --- The two programs ---

  method SaveRow(row: seq<int>, unk: map<int, int>) returns (nSize: nat, indexes: seq<int>)
    requires forall i :: 0 <= i < |row| && row[i] != -1 ==> row[i] in unk
    ensures indexes == Indexes(row, unk) && nSize == |indexes|
  {
    nSize := 0;
    for i := 0 to |row|
      invariant nSize == |Indexes(row[..i], unk)|
    {
      IndexesNext(row, unk, i + 1);
      if row[i] != -1 {
        nSize := nSize + 1;
      }
    }
    indexes := [];
    for i := 0 to |row|
      invariant indexes == Indexes(row[..i], unk)
    {
      IndexesNext(row, unk, i + 1);
      if row[i] != -1 {
        indexes := indexes + [unk[row[i]]];
      }
    }
    assert row[..|row|] == row;
  }

  lemma NamedByBoth(s: State, l: seq<int>, q: seq<int>)
    requires Lists(l, s.info, false) && Lists(q, s.info, true)
    ensures Named(s, l + q)
  {
  }

  lemma RowKnown(s: State, l: seq<int>, unk: map<int, int>, b: nat)
    requires Inv(s, {}, 0) && Lists(l, s.info, false) && Numbering(unk, l) && b < NEW_BUCKET_COUNT
    ensures forall i :: 0 <= i < |s.fresh'[b]| && s.fresh'[b][i] != -1 ==> s.fresh'[b][i] in unk
  {
    forall i | 0 <= i < |s.fresh'[b]| && s.fresh'[b][i] != -1 ensures s.fresh'[b][i] in unk {
      SlotHolds(s.w, s.info, s.fresh', b, i);
      var k :| 0 <= k < |l| && l[k] == s.fresh'[b][i];
    }
  }

  method Serialize(s: State) returns (st: Stream, ghost l: seq<int>, ghost q: seq<int>, ghost unk: map<int, int>)
    requires Consistent(s)
    ensures Listing(s, l, q, unk) && st == Written(s, Records(l, s.info), Records(q, s.info), unk)
  {
    hide Inv, Lists, Numbering, Records, Named, RandomIndex, AddrIndex, TimesOk, Places.NewPlaced;
    var news, mapUnkIds;
    news, mapUnkIds, l := SaveNew(s);
    var trieds;
    trieds, q := SaveTried(s);
    NamedByBoth(s, l, q);
    InvFacts(s, {}, 0);
    var buckets: seq<seq<int>> := [];
    for bucket := 0 to NEW_BUCKET_COUNT
      invariant |buckets| == bucket && forall b :: 0 <= b < bucket ==> buckets[b] == Indexes(s.fresh'[b], mapUnkIds)
    {
      RowKnown(s, l, mapUnkIds, bucket);
      var nSize, indexes := SaveRow(s.fresh'[bucket], mapUnkIds);
      buckets := buckets + [indexes];
    }
    unk := mapUnkIds;
    st := Stream(1, 32, s.w.key, s.nNew, s.nTried, ALL_BUCKETS ^ VERSION_MASK, news, trieds, buckets);
  }

  method Unserialize(h: Hashing, st: Stream) returns (r: Outcome)
    ensures r == Parse(h, st)
  {
    hide Rebuilt, BucketCount;
    if st.keySize != 32 {
      return Failure;
    }
    var nUBuckets := BucketCount(st.version, st.nUBuckets);
    if st.nNew > NEW_BUCKET_COUNT * BUCKET_SIZE || st.nTried > TRIED_BUCKET_COUNT * BUCKET_SIZE {
      return Failure;
    }
    if |st.news| != Max(0, st.nNew) || |st.trieds| != Max(0, st.nTried) || |st.buckets| != Max(0, nUBuckets) {
      return Failure;
    }
    var t := Rebuild(h, st, st.version == 1 && nUBuckets == NEW_BUCKET_COUNT);
    r := Loaded(t);
  }

  method Rebuild(h: Hashing, st: Stream, usable: bool) returns (t: State)
    ensures t == Rebuilt(h, st, usable)
  {
    hide LoadNews, LoadTrieds, LoadRows, Pruned, Tables, EmptyTable, RandomIndex, Sized;
    t := ReadNews(Blank(h, st.key, st.nNew, st.nTried), st.news, !usable);
    if st.news == [] {
      EmptyNews(h, st, !usable);
      t := t.(nIdCount := st.nNew);
    }
    t := ReadTrieds(t, st.trieds);
    t := ReadBuckets(t, st.nNew, st.buckets, usable);
    t := Prune(t, Min(0, st.nNew), t.nIdCount);
  }

  lemma EmptyNews(h: Hashing, st: Stream, rebuild: bool)
    ensures Tables(LoadNews(Blank(h, st.key, st.nNew, st.nTried), [], rebuild).(nIdCount := st.nNew))
  {
  }

  method ReadNews(t0: State, news: seq<Record>, rebuild: bool) returns (t: State)
    requires Tables(t0)
    ensures Tables(t) && t == LoadNews(t0, news, rebuild)
  {
    hide Tables, NewLoaded;
    t := t0;
    for n := 0 to |news|
      invariant Tables(t) && t == LoadNews(t0, news[..n], rebuild)
    {
      assert news[..n + 1][..n] == news[..n];
      t := NewLoaded(t, news[n], rebuild);
    }
    assert news[..|news|] == news;
  }

  method ReadTrieds(t0: State, trieds: seq<Record>) returns (t: State)
    requires Tables(t0)
    ensures Tables(t) && t == LoadTrieds(t0, trieds)
  {
    hide Tables, TriedLoaded;
    t := t0;
    for n := 0 to |trieds|
      invariant Tables(t) && t == LoadTrieds(t0, trieds[..n])
    {
      assert trieds[..n + 1][..n] == trieds[..n];
      t := TriedLoaded(t, trieds[n]);
    }
    assert trieds[..|trieds|] == trieds;
  }

  method ReadBuckets(t0: State, nNew: int, buckets: seq<seq<int>>, usable: bool) returns (t: State)
    requires Tables(t0)
    ensures Tables(t) && t == LoadRows(t0, nNew, buckets, usable)
  {
    hide Tables, IndexLoaded;
    t := t0;
    for bucket := 0 to |buckets|
      invariant Tables(t) && t == LoadRows(t0, nNew, buckets[..bucket], usable)
    {
      assert buckets[..bucket + 1][..bucket] == buckets[..bucket];
      var row := buckets[bucket];
      ghost var start := t;
      for n := 0 to |row|
        invariant Tables(t) && t == LoadRow(start, nNew, bucket, row[..n], usable)
      {
        assert row[..n + 1][..n] == row[..n];
        t := IndexLoaded(t, nNew, bucket, row[n], usable);
      }
      assert row[..|row|] == row;
    }
    assert buckets[..|buckets|] == buckets;
  }

  method Prune(t0: State, lo: int, hi: int) returns (t: State)
    requires Tables(t0)
    ensures t == Pruned(t0, lo, hi)
  {
    hide Tables, Deleted, RandomIndex;
    t := t0;
    var id := lo;
    while id < hi
      invariant Tables(t) && Pruned(t, id, hi) == Pruned(t0, lo, hi)
    {
      if Unplaced(t, id) {
        TablesIndex(t);
        DeletedTables(t, id);
        t := Deleted(t, id);
      }
      id := id + 1;
    }
  }

  lemma TablesIndex(t: State)
    requires Tables(t)
    ensures RandomIndex(t.info, t.random)
  {
  }

  method SaveAndLoad(s: State) returns (r: Outcome, ghost ids: seq<int>)
    requires Consistent(s)
    ensures r.Loaded? && Isomorphic(s, r.state, ids) && Consistent(r.state)
  {
    ghost var l, q, unk;
    var st;
    st, l, q, unk := Serialize(s);
    hide *;
    RoundTrip(s, l, q, unk);
    r := Unserialize(s.w.h, st);
    ids := l + q;
  }
}
