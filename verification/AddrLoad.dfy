/** Loading any file of peers: whatever its version and its bucket rows, what comes out passes the self-check. */
module AddrLoad {
  import opened AddrDisk
  import opened AddrTables
  import opened Common

  function AddrOfRecord(r: Record): NetAddr { r.address.service.addr }

  ghost function AddrsOf(rs: seq<Record>): set<NetAddr> { set k | 0 <= k < |rs| :: AddrOfRecord(rs[k]) }

  /** A key, counts that are not negative, no address twice, and sane times of success. */
  ghost predicate Sane(st: Stream) {
    && st.key != NULL_HASH && st.nNew >= 0 && st.nTried >= 0
    && (forall j, k :: 0 <= j < k < |st.news + st.trieds| ==> AddrOfRecord((st.news + st.trieds)[j]) != AddrOfRecord((st.news + st.trieds)[k]))
    && (forall k :: 0 <= k < |st.news| ==> st.news[k].nLastSuccess >= 0)
    && forall k :: 0 <= k < |st.trieds| ==> st.trieds[k].nLastSuccess > 0
  }

  ghost function Loose(t: State): set<int> { set id | id in t.info && !t.info[id].fInTried && t.info[id].nRefCount == 0 }

  // Consistent but for entries without a place, `owed` tried entries still to come and `lag` new ones.
  ghost predicate Core(t: State, owed: int, lag: int) {
    Inv(t.(nTried := t.nTried - owed), Loose(t), lag) && TimesOk(t.info)
  }

  lemma CoreTables(t: State, owed: int, lag: int)
    requires Core(t, owed, lag)
    ensures Tables(t)
  {
  }

  lemma BlankCore(h: Hashing, key: Hash256, nNew: int, nTried: int)
    requires key != NULL_HASH
    ensures Core(Blank(h, key, nNew, nTried), nTried, -nNew)
  {
  }

  // --- One record ---

  lemma AppendKeeps(s: State, i: AddrInfo, loose: set<int>, lag: int)
    requires Inv(s, loose, lag) && Tables(s) && !i.fInTried && i.nRefCount == 0 && i.Addr() !in s.addr
    ensures s.nIdCount !in s.info && s.nIdCount >= 0 && Inv(Appended(s, i), loose + {s.nIdCount}, lag + 1)
  {
    hide Places.NewPlaced, Places.TriedPlaced, Places.RefsOk, RandomIndex, AddrIndex, NewIds, TriedIds;
    var id, j := s.nIdCount, WithPos(i, |s.random|);
    AddKeepsIndex(s.info, s.random, s.addr, id, j);
    AddLoose(s.w, s.info, s.tried, s.fresh', loose, id, j);
    NewIdsMember(s.info, id);
  }

  lemma LooseAppended(t: State, i: AddrInfo)
    requires Tables(t) && t.nIdCount !in t.info && !i.fInTried && i.nRefCount == 0
    ensures Loose(Appended(t, i)) == Loose(t) + {t.nIdCount}
  {
  }

  lemma AppendCore(t: State, owed: int, lag: int, i: AddrInfo)
    requires Core(t, owed, lag) && !i.fInTried && i.nRefCount == 0 && i.Addr() !in t.addr && i.nLastTry >= 0 && i.nLastSuccess >= 0
    ensures Tables(t) && t.nIdCount !in t.info && Core(Appended(t, i), owed, lag + 1)
    ensures var u := Appended(t, i);
            u.addr == t.addr[i.Addr() := t.nIdCount] && u.info == t.info[t.nIdCount := WithPos(i, |t.random|)] && u.nIdCount == t.nIdCount + 1
  {
    hide Inv, Loose;
    CoreTables(t, owed, lag);
    AppendKeeps(t.(nTried := t.nTried - owed), i, Loose(t), lag);
    LooseAppended(t, i);
  }

  lemma LooseReferenced(t: State, b: nat, p: nat, x: int)
    requires Sized(t.fresh', NEW_BUCKET_COUNT) && b < NEW_BUCKET_COUNT && p < BUCKET_SIZE && x in t.info && t.info[x].nRefCount >= 0
    ensures Loose(Referenced(t, b, p, x)) == Loose(t) - {x}
  {
  }

  lemma CoreRefs(t: State, owed: int, lag: int, x: int)
    requires Core(t, owed, lag) && x in t.info
    ensures t.info[x].nRefCount >= 0
  {
    var s := t.(nTried := t.nTried - owed);
    assert s.w.RefOk(s.fresh', Loose(t), x, s.info[x]);
  }

  lemma ReferTimes(m: InfoMap, x: int)
    requires TimesOk(m) && x in m
    ensures TimesOk(m[x := m[x].(nRefCount := m[x].nRefCount + 1)])
  {
  }

  lemma ReferCore(t: State, owed: int, lag: int, b: nat, p: nat, x: int)
    requires Core(t, owed, lag) && b < NEW_BUCKET_COUNT && p < BUCKET_SIZE && Tables(t) && t.fresh'[b][p] == -1
    requires x in t.info && !t.info[x].fInTried && t.info[x].nRefCount < NEW_BUCKETS_PER_ADDRESS
    requires t.w.NewPos(t.info[x].address.service, b) == p
    ensures Core(Referenced(t, b, p, x), owed, lag)
  {
    hide Inv, Loose, Tables, BucketPosition, TimesOk;
    CoreRefs(t, owed, lag, x);
    CoreSized(t, owed, lag);
    LooseReferenced(t, b, p, x);
    ReferTimes(t.info, x);
    ReferenceKeeps(t.(nTried := t.nTried - owed), b, p, x, Loose(t), lag);
  }

  lemma NewCore(t: State, owed: int, lag: int, r: Record, rebuild: bool)
    requires Core(t, owed, lag) && AddrOfRecord(r) !in t.addr && r.nLastSuccess >= 0
    ensures Tables(t) && Core(NewLoaded(t, r, rebuild), owed, lag + 1)
    ensures var u := NewLoaded(t, r, rebuild);
            && u.addr.Keys == t.addr.Keys + {AddrOfRecord(r)} && u.nIdCount == t.nIdCount + 1 && u.info.Keys == t.info.Keys + {t.nIdCount}
            && (forall id :: id in t.info ==> u.info[id] == t.info[id]) && !u.info[t.nIdCount].fInTried
  {
    hide Core, Tables, BucketPosition, NewBucket;
    var i := Restored(r);
    AppendCore(t, owed, lag, i);
    var u := Appended(t, i);
    var b := NewBucket(t.w.h, t.w.key, i.address.service, i.source);
    CoreSized(u, owed, lag + 1);
    if rebuild && u.fresh'[b][t.w.NewPos(i.address.service, b)] == -1 {
      CoreTables(u, owed, lag + 1);
      ReferCore(u, owed, lag + 1, b, t.w.NewPos(i.address.service, b), t.nIdCount);
    }
  }

  lemma LooseEntered(t: State, x: int)
    requires Sized(t.tried, TRIED_BUCKET_COUNT) && x in t.info
    ensures Loose(EnteredTried(t, x)) == Loose(t) - {x}
  {
  }

  lemma TriedCore(t: State, owed: int, lag: int, r: Record)
    requires Core(t, owed, lag) && AddrOfRecord(r) !in t.addr && r.nLastSuccess > 0
    ensures Tables(t) && Core(TriedLoaded(t, r), owed - 1, lag)
    ensures var u := TriedLoaded(t, r);
            && u.addr.Keys <= t.addr.Keys + {AddrOfRecord(r)} && u.nIdCount >= t.nIdCount && u.info.Keys <= t.info.Keys + {t.nIdCount}
            && (forall id :: id in t.info ==> id in u.info && u.info[id] == t.info[id])
  {
    hide Tables, Inv, Loose;
    CoreTables(t, owed, lag);
    var i0 := Restored(r);
    var i := i0.(fInTried := true);
    var b, p := t.w.KBucket(i.address.service), t.w.KPos(i.address.service);
    CoreSized(t, owed, lag);
    if t.tried[b][p] == -1 {
      AppendCore(t, owed, lag, i0);
      var v, x := Appended(t, i0), t.nIdCount;
      EnterTriedKeeps(v.(nTried := v.nTried - owed), x, Loose(v), lag + 1);
      LooseEntered(v, x);
      var u := TriedLoaded(t, r);
      EnteredSame(t, r, i0);
      assert u == EnteredTried(v, x).(nTried := v.nTried);
      LooseSame(EnteredTried(v, x), u);
      assert u.(nTried := u.nTried - (owed - 1)) == EnteredTried(v.(nTried := v.nTried - owed), x);
    } else {
      var u := TriedLoaded(t, r);
      LooseSame(t, u);
      assert u.(nTried := u.nTried - (owed - 1)) == t.(nTried := t.nTried - owed);
    }
  }

  lemma CoreSized(t: State, owed: int, lag: int)
    requires Core(t, owed, lag)
    ensures Sized(t.tried, TRIED_BUCKET_COUNT) && Sized(t.fresh', NEW_BUCKET_COUNT)
  {
  }

  lemma LooseSame(t: State, u: State)
    requires t.info == u.info
    ensures Loose(t) == Loose(u)
  {
  }

  lemma EnteredSame(t: State, r: Record, i0: AddrInfo)
    requires Tables(t) && i0 == Restored(r) && t.tried[t.w.KBucket(i0.address.service)][t.w.KPos(i0.address.service)] == -1
    ensures t.nIdCount in Appended(t, i0).info && Sized(Appended(t, i0).tried, TRIED_BUCKET_COUNT)
    ensures TriedLoaded(t, r) == EnteredTried(Appended(t, i0), t.nIdCount).(nTried := t.nTried)
  {
    hide TriedBucket, BucketPosition, RandomIndex;
    var v := Appended(t, i0);
    var i := i0.(fInTried := true);
    assert v.info[t.nIdCount := v.info[t.nIdCount].(fInTried := true)] == t.info[t.nIdCount := WithPos(i, |t.random|)];
  }

  lemma IndexCore(t: State, owed: int, lag: int, nNew: int, b: nat, index: int, usable: bool)
    requires Core(t, owed, lag) && Tables(t) && forall id :: id in t.info && id < nNew ==> !t.info[id].fInTried
    ensures Core(IndexLoaded(t, nNew, b, index, usable), owed, lag)
    ensures var u := IndexLoaded(t, nNew, b, index, usable);
            u.info.Keys == t.info.Keys && forall id :: id in t.info ==> SameButRefs(t.info[id], u.info[id])
  {
    hide Core, Tables, BucketPosition;
    if 0 <= index < nNew && index in t.info && b < NEW_BUCKET_COUNT {
      var p := t.w.NewPos(t.info[index].address.service, b);
      CoreSized(t, owed, lag);
      if usable && t.fresh'[b][p] == -1 && t.info[index].nRefCount < NEW_BUCKETS_PER_ADDRESS {
        ReferCore(t, owed, lag, b, p, index);
      }
    }
  }

  ghost predicate SameButRefs(i: AddrInfo, j: AddrInfo) { i == j.(nRefCount := i.nRefCount) }

  // --- Whole lists ---

  lemma AddrsNext(rs: seq<Record>, k: nat)
    requires k < |rs|
    ensures AddrsOf(rs[..k + 1]) == AddrsOf(rs[..k]) + {AddrOfRecord(rs[k])}
  {
    assert forall j :: 0 <= j < k ==> rs[..k + 1][j] == rs[..k][j];
    assert rs[..k + 1][k] == rs[k];
    forall a | a in AddrsOf(rs[..k]) ensures a in AddrsOf(rs[..k + 1]) {
      var j :| 0 <= j < k && AddrOfRecord(rs[..k][j]) == a;
      assert AddrOfRecord(rs[..k + 1][j]) == a;
    }
  }

  lemma NotAmong(rs: seq<Record>, k: nat)
    requires k < |rs| && forall i, j :: 0 <= i < j < |rs| ==> AddrOfRecord(rs[i]) != AddrOfRecord(rs[j])
    ensures AddrOfRecord(rs[k]) !in AddrsOf(rs[..k])
  {
  }

  lemma {:induction false} NewsCore(st: Stream, t0: State, rebuild: bool, n: nat)
    requires Sane(st) && n <= |st.news| && Core(t0, st.nTried, -st.nNew) && t0.addr == map[] && t0.info == map[] && t0.nIdCount == 0
    ensures Tables(t0)
    ensures var t, all := LoadNews(t0, st.news[..n], rebuild), st.news + st.trieds;
            && Core(t, st.nTried, n - st.nNew) && t.addr.Keys <= AddrsOf(all[..n]) && t.nIdCount == n
            && (forall id :: id in t.info <==> 0 <= id < n) && forall id :: id in t.info ==> !t.info[id].fInTried
  {
    hide Core, NewLoaded, AddrsOf, Tables;
    CoreTables(t0, st.nTried, -st.nNew);
    var all := st.news + st.trieds;
    if n > 0 {
      NewsCore(st, t0, rebuild, n - 1);
      assert st.news[..n][..n - 1] == st.news[..n - 1];
      var t := LoadNews(t0, st.news[..n - 1], rebuild);
      assert all[n - 1] == st.news[n - 1];
      NotAmong(all, n - 1);
      AddrsNext(all, n - 1);
      NewCore(t, st.nTried, n - 1 - st.nNew, st.news[n - 1], rebuild);
    }
  }

  lemma {:induction false} TriedsCore(st: Stream, t0: State, n: nat)
    requires Sane(st) && n <= |st.trieds| && Core(t0, st.nTried, 0) && t0.addr.Keys <= AddrsOf(st.news) && t0.nIdCount == |st.news|
    requires forall id :: id in t0.info ==> 0 <= id < |st.news| && !t0.info[id].fInTried
    ensures Tables(t0)
    ensures var t, all := LoadTrieds(t0, st.trieds[..n]), st.news + st.trieds;
            && Core(t, st.nTried - n, 0) && t.addr.Keys <= AddrsOf(all[..|st.news| + n]) && t.nIdCount >= |st.news|
            && forall id :: id in t.info && id < |st.news| ==> 0 <= id && !t.info[id].fInTried
  {
    hide Core, TriedLoaded, AddrsOf, Tables;
    CoreTables(t0, st.nTried, 0);
    var all := st.news + st.trieds;
    if n == 0 {
      assert all[..|st.news|] == st.news;
    } else {
      TriedsCore(st, t0, n - 1);
      assert st.trieds[..n][..n - 1] == st.trieds[..n - 1];
      var t := LoadTrieds(t0, st.trieds[..n - 1]);
      var k := |st.news| + n - 1;
      assert all[k] == st.trieds[n - 1];
      NotAmong(all, k);
      AddrsNext(all, k);
      TriedCore(t, st.nTried - (n - 1), 0, st.trieds[n - 1]);
    }
  }

  ghost predicate NewBelow(t: State, nNew: int) { forall id :: id in t.info && id < nNew ==> !t.info[id].fInTried }

  lemma {:induction false} RowCore(t: State, nNew: int, b: nat, row: seq<int>, usable: bool)
    requires Core(t, 0, 0) && NewBelow(t, nNew)
    ensures Tables(t) && Core(LoadRow(t, nNew, b, row, usable), 0, 0) && NewBelow(LoadRow(t, nNew, b, row, usable), nNew)
  {
    hide Core, IndexLoaded, Tables;
    CoreTables(t, 0, 0);
    if row != [] {
      RowCore(t, nNew, b, row[..|row| - 1], usable);
      IndexCore(LoadRow(t, nNew, b, row[..|row| - 1], usable), 0, 0, nNew, b, row[|row| - 1], usable);
    }
  }

  lemma {:induction false} RowsCore(t: State, nNew: int, rows: seq<seq<int>>, usable: bool)
    requires Core(t, 0, 0) && NewBelow(t, nNew)
    ensures Tables(t) && Core(LoadRows(t, nNew, rows, usable), 0, 0) && NewBelow(LoadRows(t, nNew, rows, usable), nNew)
  {
    hide Core, LoadRow, Tables, NewBelow;
    CoreTables(t, 0, 0);
    if rows != [] {
      RowsCore(t, nNew, rows[..|rows| - 1], usable);
      RowCore(LoadRows(t, nNew, rows[..|rows| - 1], usable), nNew, |rows| - 1, rows[|rows| - 1], usable);
    }
  }

  // --- Pruning ---

  lemma DeleteCore(t: State, id: int)
    requires Core(t, 0, 0) && Unplaced(t, id)
    ensures RandomIndex(t.info, t.random) && Core(Deleted(t, id), 0, 0)
    ensures SameUpToPos(t.info - {id}, Deleted(t, id).info) && Deleted(t, id).nIdCount == t.nIdCount
  {
    hide Inv, Deleted, Loose, RandomIndex;
    assert t.(nTried := t.nTried - 0) == t;
    InvFacts(t, Loose(t), 0);
    DeleteKeeps(t, id, Loose(t), 0);
    var u := Deleted(t, id);
    assert u.(nTried := u.nTried - 0) == u;
    DeletedKeepsOthers(t, id);
    LooseDeleted(t, u, id);
    DeletedTimes(t.info, u.info, id);
  }

  lemma LooseDeleted(t: State, u: State, id: int)
    requires SameUpToPos(t.info - {id}, u.info)
    ensures Loose(u) == Loose(t) - {id}
  {
    forall y ensures y in Loose(u) <==> y in Loose(t) - {id} {
      if y in u.info {
        assert WithPos((t.info - {id})[y], 0) == WithPos(u.info[y], 0);
      }
    }
  }

  /** Pruning drops exactly the entries without a place. */
  lemma {:induction false} PruneCore(t: State, lo: int, hi: int)
    requires Core(t, 0, 0) && (forall id :: id in t.info ==> id < hi) && forall id :: id in t.info && id < lo ==> !Unplaced(t, id)
    ensures Tables(t)
    ensures var u := Pruned(t, lo, hi); Consistent(u) && SameUpToPos(t.info - Loose(t), u.info)
    decreases hi - lo
  {
    hide Inv, Deleted, Core, Loose;
    CoreTables(t, 0, 0);
    if lo >= hi {
      NothingLoose(t);
    } else if Unplaced(t, lo) {
      DeleteCore(t, lo);
      var u := Deleted(t, lo);
      SameBelow(t.info, u.info, lo);
      PruneCore(u, lo + 1, hi);
      LooseDeleted(t, u, lo);
      LooseRest(t, lo);
      SameLess(t.info - {lo}, u.info, Loose(u));
      SameThen(t.info - {lo} - Loose(u), u.info - Loose(u), Pruned(u, lo + 1, hi).info);
      assert t.info - Loose(t) == t.info - {lo} - Loose(u);
    } else {
      PruneCore(t, lo + 1, hi);
    }
  }

  lemma LooseRest(t: State, id: int)
    requires Unplaced(t, id)
    ensures id in Loose(t)
  {
  }

  lemma NothingLoose(t: State)
    requires Core(t, 0, 0) && forall id :: id in t.info ==> !Unplaced(t, id)
    ensures Consistent(t) && Loose(t) == {} && SameUpToPos(t.info - Loose(t), t.info)
  {
    hide Inv;
    forall id ensures id !in Loose(t) {
      assert id in Loose(t) ==> Unplaced(t, id);
    }
    assert Loose(t) == {};
    assert t.(nTried := t.nTried - 0) == t;
    assert t.info - {} == t.info;
  }

  lemma SameBelow(m: InfoMap, n: InfoMap, id: int)
    requires SameUpToPos(m - {id}, n)
    ensures forall y :: y in n ==> y in m && y != id && n[y].fInTried == m[y].fInTried && n[y].nRefCount == m[y].nRefCount
  {
    forall y | y in n ensures y in m && y != id && n[y].fInTried == m[y].fInTried && n[y].nRefCount == m[y].nRefCount {
      assert WithPos((m - {id})[y], 0) == WithPos(n[y], 0);
    }
  }

  lemma SameLess(m: InfoMap, n: InfoMap, s: set<int>)
    requires SameUpToPos(m, n)
    ensures SameUpToPos(m - s, n - s)
  {
  }

  lemma SameThen(a: InfoMap, b: InfoMap, c: InfoMap)
    requires SameUpToPos(a, b) && SameUpToPos(b, c)
    ensures SameUpToPos(a, c)
  {
  }

  // --- Any file ---

  /** Whatever the version, the bucket count and the rows of a sane file say, what is loaded passes the self-check. */
  lemma LoadConsistent(h: Hashing, st: Stream)
    requires Sane(st)
    ensures Parse(h, st).Loaded? ==> Consistent(Parse(h, st).state)
  {
    hide Core, Tables, LoadNews, LoadTrieds, LoadRows, Pruned, BucketCount, NewBelow, AddrsOf, Inv;
    var r := Parse(h, st);
    if r.Loaded? {
      var usable := st.version == 1 && BucketCount(st.version, st.nUBuckets) == NEW_BUCKET_COUNT;
      RebuiltConsistent(h, st, usable);
    }
  }

  lemma RebuiltConsistent(h: Hashing, st: Stream, usable: bool)
    requires Sane(st) && |st.news| == st.nNew && |st.trieds| == st.nTried
    ensures Consistent(Rebuilt(h, st, usable))
  {
    hide Core, Tables, LoadNews, LoadTrieds, LoadRows, Pruned, AddrsOf, Inv, Unplaced;
    var t0 := Blank(h, st.key, st.nNew, st.nTried);
    BlankCore(h, st.key, st.nNew, st.nTried);
    NewsCore(st, t0, !usable, |st.news|);
    assert st.news[..|st.news|] == st.news && st.trieds[..|st.trieds|] == st.trieds && (st.news + st.trieds)[..|st.news|] == st.news;
    var t1 := LoadNews(t0, st.news, !usable);
    assert t1.(nIdCount := t1.nIdCount) == t1;
    TriedsCore(st, t1, |st.trieds|);
    var t3 := LoadTrieds(t1, st.trieds);
    RowsCore(t3, st.nNew, st.buckets, usable);
    var t4 := LoadRows(t3, st.nNew, st.buckets, usable);
    CoreTables(t4, 0, 0);
    CoreNumbered(t4);
    PruneCore(t4, 0, t4.nIdCount);
  }

  lemma CoreNumbered(t: State)
    requires Core(t, 0, 0)
    ensures forall id :: id in t.info ==> 0 <= id < t.nIdCount
  {
  }

  // --- Files whose rows cannot be used ---

  // The slot a record's own source leads to.
  function SlotOf(w: Places, r: Record): (s: (nat, nat))
    ensures s.0 < NEW_BUCKET_COUNT && s.1 < BUCKET_SIZE
  {
    var b := NewBucket(w.h, w.key, r.address.service, r.source);
    (b, w.NewPos(r.address.service, b))
  }

  ghost predicate FirstInSlot(w: Places, news: seq<Record>, k: nat)
    requires k < |news|
  {
    forall j :: 0 <= j < k ==> SlotOf(w, news[j]) != SlotOf(w, news[k])
  }

  // The slots so far belong to the first record for each, and only these have a reference.
  ghost predicate ByOrder(t: State, news: seq<Record>, n: nat)
    requires n <= |news| && Sized(t.fresh', NEW_BUCKET_COUNT)
  {
    && t.nIdCount == n && (forall id :: id in t.info <==> 0 <= id < n)
    && SlotsByOrder(t.w, t.fresh', news, n)
    && forall k :: 0 <= k < n ==>
         t.info[k] == WithPos(Restored(news[k]).(nRefCount := if FirstInSlot(t.w, news, k) then 1 else 0), k)
  }

  // The slots, apart from the entries: taken exactly by the records so far.
  ghost predicate SlotsByOrder(w: Places, fresh': Table, news: seq<Record>, n: nat)
    requires n <= |news| && Sized(fresh', NEW_BUCKET_COUNT)
  {
    && (forall b, p :: 0 <= b < NEW_BUCKET_COUNT && 0 <= p < BUCKET_SIZE && fresh'[b][p] == -1 ==> forall j :: 0 <= j < n ==> SlotOf(w, news[j]) != (b, p))
    && forall b, p :: 0 <= b < NEW_BUCKET_COUNT && 0 <= p < BUCKET_SIZE && fresh'[b][p] != -1 ==> exists j :: 0 <= j < n && SlotOf(w, news[j]) == (b, p)
  }

  lemma SlotsNext(w: Places, fresh': Table, news: seq<Record>, n: nat, id: int)
    requires n < |news| && Sized(fresh', NEW_BUCKET_COUNT) && SlotsByOrder(w, fresh', news, n) && id != -1
    ensures var slot := SlotOf(w, news[n]);
            var free := fresh'[slot.0][slot.1] == -1;
            && (free <==> FirstInSlot(w, news, n))
            && var next := if free then Set(fresh', slot.0, slot.1, id) else fresh';
               Sized(next, NEW_BUCKET_COUNT) && SlotsByOrder(w, next, news, n + 1)
  {
    hide SlotOf;
    var slot := SlotOf(w, news[n]);
    var free := fresh'[slot.0][slot.1] == -1;
    var next := if free then Set(fresh', slot.0, slot.1, id) else fresh';
    if !free {
      var j :| 0 <= j < n && SlotOf(w, news[j]) == (slot.0, slot.1);
    }
    forall b, p | 0 <= b < NEW_BUCKET_COUNT && 0 <= p < BUCKET_SIZE && next[b][p] != -1
      ensures exists j :: 0 <= j < n + 1 && SlotOf(w, news[j]) == (b, p)
    {
      if (b, p) == slot {
        assert SlotOf(w, news[n]) == (b, p);
      } else {
        assert fresh'[b][p] != -1;
      }
    }
  }

  // Appending the next record, with its reference if its slot was free.
  lemma LoadedNext(t: State, r: Record)
    requires Tables(t) && |t.random| == t.nIdCount
    ensures var u, slot := NewLoaded(t, r, true), SlotOf(t.w, r);
            var free := t.fresh'[slot.0][slot.1] == -1;
            && u.w == t.w && u.nIdCount == t.nIdCount + 1 && |u.random| == t.nIdCount + 1
            && u.info == t.info[t.nIdCount := WithPos(Restored(r).(nRefCount := if free then 1 else 0), t.nIdCount)]
            && u.fresh' == if free then Set(t.fresh', slot.0, slot.1, t.nIdCount) else t.fresh'
  {
    hide NewBucket, BucketPosition, RandomIndex;
    var v := Appended(t, Restored(r));
    assert v.info[t.nIdCount] == WithPos(Restored(r), t.nIdCount);
    assert t.info[t.nIdCount := v.info[t.nIdCount]][t.nIdCount := v.info[t.nIdCount].(nRefCount := 1)]
        == t.info[t.nIdCount := v.info[t.nIdCount].(nRefCount := 1)];
  }

  lemma ByOrderNext(t: State, news: seq<Record>, n: nat)
    requires n < |news| && Tables(t) && ByOrder(t, news, n) && |t.random| == n
    ensures var u := NewLoaded(t, news[n], true); Sized(u.fresh', NEW_BUCKET_COUNT) && ByOrder(u, news, n + 1) && |u.random| == n + 1
  {
    hide NewLoaded, SlotOf, Tables, SlotsByOrder, FirstInSlot;
    LoadedNext(t, news[n]);
    TablesSized(t);
    SlotsNext(t.w, t.fresh', news, n, n);
  }

  lemma TablesSized(t: State)
    requires Tables(t)
    ensures Sized(t.fresh', NEW_BUCKET_COUNT)
  {
  }

  lemma {:induction false} NewsByOrder(t0: State, news: seq<Record>, n: nat)
    requires n <= |news| && Tables(t0) && t0.info == map[] && t0.random == [] && t0.nIdCount == 0
    requires forall b, p :: 0 <= b < NEW_BUCKET_COUNT && 0 <= p < BUCKET_SIZE ==> t0.fresh'[b][p] == -1
    ensures var t := LoadNews(t0, news[..n], true); Sized(t.fresh', NEW_BUCKET_COUNT) && ByOrder(t, news, n) && |t.random| == n
  {
    hide NewLoaded, RandomIndex;
    if n > 0 {
      NewsByOrder(t0, news, n - 1);
      assert news[..n][..n - 1] == news[..n - 1];
      hide ByOrder;
      ByOrderNext(LoadNews(t0, news[..n - 1], true), news, n - 1);
    }
  }

  lemma {:induction false} RowUnused(t: State, nNew: int, b: nat, row: seq<int>)
    requires Tables(t)
    ensures LoadRow(t, nNew, b, row, false) == t
  {
    hide Tables;
    if row != [] {
      RowUnused(t, nNew, b, row[..|row| - 1]);
    }
  }

  lemma {:induction false} RowsUnused(t: State, nNew: int, rows: seq<seq<int>>)
    requires Tables(t)
    ensures LoadRows(t, nNew, rows, false) == t
  {
    hide Tables, LoadRow;
    if rows != [] {
      RowsUnused(t, nNew, rows[..|rows| - 1]);
      RowUnused(t, nNew, |rows| - 1, rows[|rows| - 1]);
    }
  }

  lemma {:induction false} TriedsKeep(t: State, trieds: seq<Record>, n: nat)
    requires Tables(t) && n <= |trieds| && forall id :: id in t.info ==> 0 <= id < t.nIdCount
    ensures var u := LoadTrieds(t, trieds[..n]);
            && u.nIdCount >= t.nIdCount && (forall id :: id in u.info && id < t.nIdCount ==> id in t.info)
            && forall id :: id in t.info ==> id in u.info && u.info[id] == t.info[id]
  {
    hide Tables;
    if n > 0 {
      TriedsKeep(t, trieds, n - 1);
      assert trieds[..n][..n - 1] == trieds[..n - 1];
    }
  }

  /**
   * A file of another version, or with another number of buckets: a peer of the new table is kept exactly if it is the
   * first in the file for the slot its own source leads to, with its record and one reference.
   */
  lemma OlderFileKeeps(h: Hashing, st: Stream, k: nat)
    requires Sane(st) && Parse(h, st).Loaded? && !(st.version == 1 && BucketCount(st.version, st.nUBuckets) == NEW_BUCKET_COUNT)
    requires k < |st.news|
    ensures var t, w := Parse(h, st).state, Places(h, st.key);
            && (k in t.info <==> FirstInSlot(w, st.news, k))
            && (k in t.info ==> WithPos(t.info[k], 0) == WithPos(Restored(st.news[k]).(nRefCount := 1), 0))
  {
    hide Core, Tables, LoadNews, LoadTrieds, LoadRows, Pruned, AddrsOf, Inv, BucketCount, FirstInSlot, RandomIndex, SlotOf;
    var t0 := Blank(h, st.key, st.nNew, st.nTried);
    BlankCore(h, st.key, st.nNew, st.nTried);
    NewsCore(st, t0, true, |st.news|);
    NewsByOrder(t0, st.news, |st.news|);
    assert st.news[..|st.news|] == st.news && st.trieds[..|st.trieds|] == st.trieds && (st.news + st.trieds)[..|st.news|] == st.news;
    var t1 := LoadNews(t0, st.news, true);
    assert t1.(nIdCount := t1.nIdCount) == t1;
    TriedsCore(st, t1, |st.trieds|);
    TriedsKeep(t1, st.trieds, |st.trieds|);
    var t3 := LoadTrieds(t1, st.trieds);
    CoreTables(t3, 0, 0);
    RowsUnused(t3, st.nNew, st.buckets);
    CoreNumbered(t3);
    PruneCore(t3, 0, t3.nIdCount);
    LooseAt(t3, k);
    var u := Pruned(t3, 0, t3.nIdCount);
    if k in u.info {
      assert WithPos((t3.info - Loose(t3))[k], 0) == WithPos(u.info[k], 0);
    }
  }

  lemma LooseAt(t: State, k: int)
    ensures k in Loose(t) <==> Unplaced(t, k)
  {
  }
}
