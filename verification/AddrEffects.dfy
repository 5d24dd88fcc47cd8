/** What the operations of the address manager do to its entries: what changes, what is lost, and where peers can end up. */
module AddrEffects {
  import opened AddrTables
  import opened Common

  // --- Where an address can be ---

  /** All addresses of one group share eight tried buckets. */
  lemma TriedSpread(h: Hashing, key: Hash256, g: Group)
    ensures exists buckets: seq<nat> :: |buckets| == 8 && forall s: Service :: h.group(s.addr) == g ==> TriedBucket(h, key, s) in buckets
  {
    var buckets := seq(8, i requires 0 <= i < 8 => h.cheap(TriedByGroup(key, g, i)) % TRIED_BUCKET_COUNT);
    forall s: Service | h.group(s.addr) == g ensures TriedBucket(h, key, s) in buckets {
      var i := h.cheap(TriedByService(key, s)) % 8;
      assert buckets[i] == TriedBucket(h, key, s);
    }
  }

  /** All addresses heard of from one group share 64 new buckets; those of one group heard of from one group share one. */
  lemma NewSpread(h: Hashing, key: Hash256, g: Group)
    ensures exists buckets: seq<nat> :: |buckets| == 64 &&
              forall s: Service, src {:trigger NewBucket(h, key, s, src)} :: h.group(src) == g ==> NewBucket(h, key, s, src) in buckets
    ensures forall s: Service, s': Service, src, src' {:trigger NewBucket(h, key, s, src), NewBucket(h, key, s', src')} ::
              h.group(src) == h.group(src') && h.group(s.addr) == h.group(s'.addr) ==> NewBucket(h, key, s, src) == NewBucket(h, key, s', src')
  {
    var buckets := seq(64, i requires 0 <= i < 64 => h.cheap(NewBySource(key, g, i)) % NEW_BUCKET_COUNT);
    forall s: Service, src {:trigger NewBucket(h, key, s, src)} | h.group(src) == g ensures NewBucket(h, key, s, src) in buckets {
      var i := h.cheap(NewByGroups(key, h.group(s.addr), g)) % 64;
      assert buckets[i] == NewBucket(h, key, s, src);
    }
  }

  // --- Low quality ---

  /** Whatever was tried in the last minute is kept. Otherwise an entry must have been seen in the last 30 days and not in
      the future, must not have failed three times before any success, nor ten times in a week without one. */
  lemma TerribleIff(i: AddrInfo, nNow: int)
    ensures i.IsTerrible(nNow) <==>
              && !(i.nLastTry != 0 && nNow - i.nLastTry <= 60)
              && !(&& i.address.nTime != 0 && nNow - 2592000 <= i.address.nTime <= nNow + 600
                   && (i.nLastSuccess == 0 ==> i.nAttempts < 3) && (nNow - i.nLastSuccess > 604800 ==> i.nAttempts < 10))
  {
  }

  /** After a success, only the time it was last seen can make an entry terrible. */
  lemma GoodStays(i: AddrInfo, nTime: int, nNow: int)
    requires nTime > 0
    ensures MarkedGood(i, nTime).IsTerrible(nNow) <==> nNow > nTime + 60 && !(i.address.nTime != 0 && nNow - 2592000 <= i.address.nTime <= nNow + 600)
  {
  }

  /** Between two successes of the node one failure counts at most, however often an address is tried. */
  lemma OneFailureCounts(i: AddrInfo, count: bool, count': bool, nTime: int, nTime': int, nLastGood: int)
    requires nTime >= nLastGood
    ensures var j := Attempted(Attempted(i, count, nTime, nLastGood), count', nTime', nLastGood);
            && j.nAttempts == i.nAttempts + (if i.nLastCountAttempt < nLastGood && (count || count') then 1 else 0)
            && j == i.(nLastTry := nTime', nAttempts := j.nAttempts, nLastCountAttempt := j.nLastCountAttempt)
  {
  }

  /** A connection moves the time an address was seen forward only, and leaves it at most twenty minutes behind. */
  lemma SeenEffect(i: AddrInfo, nTime: int)
    ensures var j := Seen(i, nTime);
            && j == i.(address := i.address.(nTime := j.address.nTime)) && (j.address.nTime == i.address.nTime || j.address.nTime == nTime)
            && j.address.nTime >= i.address.nTime && nTime - j.address.nTime <= 1200
            && (nTime - i.address.nTime <= 1200 ==> j == i)
  {
  }

  // --- What stays ---

  ghost predicate SameRecord(i: AddrInfo, j: AddrInfo) {
    i.(nRefCount := 0, fInTried := false, nRandomPos := 0) == j.(nRefCount := 0, fInTried := false, nRandomPos := 0)
  }

  // Every entry but d is still there with its record, and nothing is new.
  ghost predicate KeptBut(m: InfoMap, n: InfoMap, d: int) {
    (forall y :: y in m && y != d ==> y in n) && forall y :: y in n ==> y in m && SameRecord(m[y], n[y])
  }

  lemma KeptByOthers(m: InfoMap, n: InfoMap, d: int)
    requires OthersKept(m, n, d)
    ensures KeptBut(m, n, d)
  {
    forall y | y in n ensures y in m && SameRecord(m[y], n[y]) {
      assert WithPos(m[y].(nRefCount := 0), 0) == WithPos(n[y].(nRefCount := 0), 0);
    }
  }

  lemma KeptThen(a: InfoMap, b: InfoMap, c: InfoMap, d: int)
    requires (KeptBut(a, b, d) && KeptBut(b, c, -1)) || (KeptBut(a, b, -1) && KeptBut(b, c, d))
    requires -1 !in a && -1 !in b
    ensures KeptBut(a, c, d)
  {
  }

  // One record changes in what does not count.
  lemma KeptByTouch(m: InfoMap, id: int, i: AddrInfo)
    requires id in m && SameRecord(m[id], i)
    ensures KeptBut(m, m[id := i], -1)
  {
  }

  // Clearing a slot loses its holder exactly if that was its only reference.
  lemma ClearLoses(s: State, b: nat, p: nat, loose: set<int>, lag: int)
    requires Inv(s, loose, lag) && b < NEW_BUCKET_COUNT && p < BUCKET_SIZE && s.fresh'[b][p] !in loose
    ensures var d, r := s.fresh'[b][p], ClearedNew(s, b, p);
            KeptBut(s.info, r.info, d) && (d in s.info && d !in r.info ==> s.info[d].nRefCount == 1 && !s.info[d].fInTried)
  {
    hide Inv, RandomIndex, AddrIndex, Places.NewPlaced, OthersKept, KeptBut;
    InvFacts(s, loose, lag);
    NewSlotHolds(s, loose, lag, b, p);
    ClearNewKeeps(s, b, p, loose, lag);
    KeptByOthers(s.info, ClearedNew(s, b, p).info, s.fresh'[b][p]);
  }

  lemma NoNegative(s: State, loose: set<int>, lag: int)
    requires Inv(s, loose, lag)
    ensures -1 !in s.info
  {
  }

  lemma RefsNatural(s: State, loose: set<int>, lag: int, id: int)
    requires Inv(s, loose, lag) && id in s.info
    ensures s.info[id].nRefCount >= 0
  {
    assert s.w.RefOk(s.fresh', loose, id, s.info[id]);
  }

  // --- Placing ---

  // The slot a source leads to.
  function SlotOf(s: State, srv: Service, source: NetAddr): (nat, nat) {
    var b := NewBucket(s.w.h, s.w.key, srv, source);
    (b, BucketPosition(s.w.h, s.w.key, true, b, srv))
  }

  /** Placing an entry loses at most the holder of its slot, and that only if it is terrible and had no other reference. */
  lemma PlacedEffect(s: State, id: int, source: NetAddr, nNow: int)
    requires Inv(s, {id}, 0) && TimesOk(s.info) && id in s.info && !s.info[id].fInTried && s.info[id].nRefCount < NEW_BUCKETS_PER_ADDRESS
    ensures Sized(s.fresh', NEW_BUCKET_COUNT)
    ensures var r, slot := Placed(s, id, source, nNow), SlotOf(s, s.info[id].address.service, source);
            var there := s.fresh'[slot.0][slot.1];
            && (there != -1 && there != id ==> there in s.info)
            && var enters := there != id && (there == -1 || s.info[there].IsTerrible(nNow) || (s.info[there].nRefCount > 1 && s.info[id].nRefCount == 0));
               && (id in r.info <==> enters || there == id || s.info[id].nRefCount > 0)
               && (id in r.info ==> SameRecord(s.info[id], r.info[id]) && r.info[id].nRefCount == s.info[id].nRefCount + (if enters then 1 else 0)
                                    && !r.info[id].fInTried)
               && KeptBut(s.info - {id}, r.info - {id}, there)
               && (there in s.info && there != id && there !in r.info ==> s.info[there].IsTerrible(nNow) && s.info[there].nRefCount == 1)
               && (enters ==> Sized(r.fresh', NEW_BUCKET_COUNT) && r.fresh'[slot.0][slot.1] == id)
  {
    hide Inv, RandomIndex, AddrIndex, Places.NewPlaced, Deleted, OthersKept, ClearedNew, KeptBut, SameRecord, SameUpToPos, AddrInfo.IsTerrible;
    InvFacts(s, {id}, 0);
    NoNegative(s, {id}, 0);
    var (b, p) := SlotOf(s, s.info[id].address.service, source);
    var there := s.fresh'[b][p];
    NewSlotHolds(s, {id}, 0, b, p);
    RefsNatural(s, {id}, 0, id);
    SameAsSelf(s.info[id]);
    if there == id {
      KeptSelf(s.info - {id}, there);
    } else if there == -1 || Overwrites(s.info[there], s.info[id], nNow) {
      EntersEffect(s, id, b, p);
    } else if s.info[id].nRefCount == 0 {
      DeleteEffect(s, id, there);
    } else {
      KeptSelf(s.info - {id}, there);
    }
  }

  lemma SameAsSelf(i: AddrInfo)
    ensures SameRecord(i, i)
  {
  }

  lemma KeptSelf(m: InfoMap, d: int)
    ensures KeptBut(m, m, d)
  {
  }

  lemma KeptLess(m: InfoMap, n: InfoMap, d: int, id: int)
    requires KeptBut(m, n, d)
    ensures KeptBut(m - {id}, n - {id}, d)
  {
  }

  lemma EntersEffect(s: State, id: int, b: nat, p: nat)
    requires Inv(s, {id}, 0) && id in s.info && b < NEW_BUCKET_COUNT && p < BUCKET_SIZE && s.fresh'[b][p] != id && -1 !in s.info
    ensures RandomIndex(s.info, s.random) && Sized(s.fresh', NEW_BUCKET_COUNT) && (s.fresh'[b][p] != -1 ==> s.fresh'[b][p] in s.info)
    ensures id in ClearedNew(s, b, p).info
    ensures var there, r := s.fresh'[b][p], Referenced(ClearedNew(s, b, p), b, p, id);
            && id in r.info && SameRecord(s.info[id], r.info[id]) && r.info[id].nRefCount == s.info[id].nRefCount + 1
            && r.info[id].fInTried == s.info[id].fInTried
            && KeptBut(s.info - {id}, r.info - {id}, there)
            && (there in s.info && there !in r.info ==> s.info[there].nRefCount == 1)
            && Sized(r.fresh', NEW_BUCKET_COUNT) && r.fresh'[b][p] == id
  {
    hide Inv, RandomIndex, AddrIndex, Places.NewPlaced, Deleted, OthersKept, ClearedNew, KeptBut;
    InvFacts(s, {id}, 0);
    NewSlotHolds(s, {id}, 0, b, p);
    ClearLoses(s, b, p, {id}, 0);
    ClearNewKeeps(s, b, p, {id}, 0);
    var c := ClearedNew(s, b, p);
    OtherKept(s.info, c.info, s.fresh'[b][p], id);
    assert WithPos(s.info[id], 0) == WithPos(c.info[id], 0);
    KeptLess(s.info, c.info, s.fresh'[b][p], id);
    assert Referenced(c, b, p, id).info - {id} == c.info - {id};
    InvFacts(c, {id}, 0);
  }

  lemma DeleteEffect(s: State, id: int, d: int)
    requires Inv(s, {id}, 0) && id in s.info && !s.info[id].fInTried && s.info[id].nRefCount == 0
    ensures RandomIndex(s.info, s.random) && id !in Deleted(s, id).info && KeptBut(s.info - {id}, Deleted(s, id).info - {id}, d)
    ensures forall y :: y in s.info && y != id ==> y in Deleted(s, id).info
  {
    hide Inv, RandomIndex, AddrIndex, Places.NewPlaced, Deleted;
    InvFacts(s, {id}, 0);
    DeleteKeeps(s, id, {id}, 0);
    var n := Deleted(s, id).info;
    assert n.Keys == s.info.Keys - {id};
    forall y | y in n - {id} ensures y in s.info - {id} && SameRecord(s.info[y], n[y]) {
      assert WithPos((s.info - {id})[y], 0) == WithPos(n[y], 0);
    }
  }

  // --- Adding ---

  function Stamped(a: Address, source: NetAddr, penalty: int): int {
    Max(0, a.nTime - if a.service.addr == source then 0 else penalty)
  }

  /**
   * A new address goes to the slot its source leads to, with the time it was announced less the penalty, if that slot is
   * free, its holder is terrible or its holder has other references; otherwise it is dropped.
   */
  lemma AddNewEffect(s: State, a: Address, source: NetAddr, penalty: int, nNow: int, lucky: bool)
    requires Consistent(s) && s.w.h.routable(a.service.addr) && a.service.addr !in s.addr
    ensures Sized(s.fresh', NEW_BUCKET_COUNT)
    ensures var (r, isNew) := AddResult(s, a, source, penalty, nNow, lucky);
            var slot := SlotOf(s, a.service, source);
            var there := s.fresh'[slot.0][slot.1];
            && isNew && (there != -1 ==> there in s.info)
            && var room := there == -1 || s.info[there].IsTerrible(nNow) || s.info[there].nRefCount > 1;
               && (s.nIdCount in r.info <==> room)
               && (room ==> && SameRecord(r.info[s.nIdCount], AddrInfo(a.(nTime := Stamped(a, source, penalty)), source, 0, 0, 0, 0, 0, false, 0))
                            && r.info[s.nIdCount].nRefCount == 1 && !r.info[s.nIdCount].fInTried
                            && Sized(r.fresh', NEW_BUCKET_COUNT) && r.fresh'[slot.0][slot.1] == s.nIdCount)
               && KeptBut(s.info, r.info - {s.nIdCount}, there)
               && (there in s.info && there !in r.info ==> s.info[there].IsTerrible(nNow) && s.info[there].nRefCount == 1)
  {
    hide Inv, RandomIndex, AddrIndex, Places.NewPlaced, KeptBut, SameRecord, AddrInfo.IsTerrible, Placed;
    InvFacts(s, {}, 0);
    AddFresh(s, a, source, SelfPenalty(a, source, penalty));
    var t := Fresh(s, a, source, SelfPenalty(a, source, penalty));
    FreshRecord(s, a, source, penalty);
    PlacedEffect(t, s.nIdCount, source, nNow);
    var slot := SlotOf(s, a.service, source);
    NewSlotHolds(s, {}, 0, slot.0, slot.1);
    NoNegative(t, {s.nIdCount}, 0);
    SameTurn(t.info[s.nIdCount], AddrInfo(a.(nTime := Stamped(a, source, penalty)), source, 0, 0, 0, 0, 0, false, 0),
             Placed(t, s.nIdCount, source, nNow).info, s.nIdCount);
  }

  lemma SameTurn(i: AddrInfo, j: AddrInfo, m: InfoMap, id: int)
    requires SameRecord(i, j)
    ensures id in m && SameRecord(i, m[id]) ==> SameRecord(m[id], j)
  {
  }

  lemma FreshRecord(s: State, a: Address, source: NetAddr, penalty: int)
    requires Inv(s, {}, 0) && a.service.addr !in s.addr
    ensures var t := Fresh(s, a, source, SelfPenalty(a, source, penalty));
            && s.nIdCount !in s.info && s.nIdCount in t.info && t.info - {s.nIdCount} == s.info && t.fresh' == s.fresh' && t.w == s.w
            && (forall y :: y in s.info ==> y != s.nIdCount && t.info[y] == s.info[y])
            && t.info[s.nIdCount].address.service == a.service && t.info[s.nIdCount].nRefCount == 0
            && SameRecord(t.info[s.nIdCount], AddrInfo(a.(nTime := Stamped(a, source, penalty)), source, 0, 0, 0, 0, 0, false, 0))
  {
    hide Places.NewPlaced, Places.TriedPlaced, Places.RefsOk, RandomIndex, AddrIndex;
    assert s.nIdCount !in s.info;
  }

  // When an announcement updates the time of a known entry: it must be newer by more than an hour, or by a day when it is
  // itself a day old or more, penalty included.
  function UpdatedTime(old': int, a: Address, source: NetAddr, penalty: int, nNow: int): int {
    var p := if a.service.addr == source then 0 else penalty;
    if a.nTime != 0 && (old' == 0 || a.nTime - p - old' > if nNow - a.nTime < 86400 then 3600 else 86400) then Max(0, a.nTime - p) else old'
  }

  /**
   * Hearing of a known address again adds its services, and moves its time forward if the news is fresh enough, never
   * back. At most one more reference, never for a tried entry, never more than eight, and only for news.
   */
  lemma AddKnownEffect(s: State, a: Address, source: NetAddr, penalty: int, nNow: int, lucky: bool)
    requires Consistent(s) && s.w.h.routable(a.service.addr) && a.service.addr in s.addr
    ensures s.addr[a.service.addr] in s.info
    ensures var (r, isNew) := AddResult(s, a, source, penalty, nNow, lucky);
            var id := s.addr[a.service.addr];
            var i := s.info[id];
            var time := UpdatedTime(i.address.nTime, a, source, penalty, nNow);
            && !isNew && id in r.info && time >= i.address.nTime
            && SameRecord(r.info[id], i.(address := i.address.(nTime := time, nServices := Joined(i.address.nServices, a.nServices))))
            && r.info[id].fInTried == i.fInTried
            && i.nRefCount <= r.info[id].nRefCount <= i.nRefCount + 1
            && (r.info[id].nRefCount > i.nRefCount ==> lucky && !i.fInTried && i.nRefCount < 8 && a.nTime != 0 && (time == 0 || a.nTime > time))
            && exists d :: KeptBut(s.info - {id}, r.info - {id}, d) && (d in s.info && d !in r.info ==> s.info[d].IsTerrible(nNow) && s.info[d].nRefCount == 1)
  {
    hide Inv, RandomIndex, AddrIndex, Places.NewPlaced, KeptBut, AddrInfo.IsTerrible, Placed, Refreshed, UpdatedTime, SameRecord, Joined;
    KnownId(s, a.service.addr);
    NoNegative(s, {}, 0);
    var id := s.addr[a.service.addr];
    var i := s.info[id];
    RefreshedRecord(i, a, source, penalty, nNow);
    var j := Refreshed(i, a, SelfPenalty(a, source, penalty), nNow);
    var t := Touched(s, id, j);
    TouchKeeps(s, id, j, {}, 0);
    LoosenOne(t, id);
    assert t.info - {id} == s.info - {id};
    if WantsReference(j, a, lucky) {
      KnownPlaced(s, t, id, source, nNow);
      SameTurn(j, i.(address := j.address), Placed(t, id, source, nNow).info, id);
    } else {
      KeptSelf(s.info - {id}, -1);
      assert KeptBut(s.info - {id}, t.info - {id}, -1);
    }
  }

  lemma RefreshedRecord(i: AddrInfo, a: Address, source: NetAddr, penalty: int, nNow: int)
    ensures var j, time := Refreshed(i, a, SelfPenalty(a, source, penalty), nNow), UpdatedTime(i.address.nTime, a, source, penalty, nNow);
            && time >= i.address.nTime && SameRole(i, j) && j == i.(address := j.address) && SameRecord(j, i.(address := j.address))
            && j.address == i.address.(nTime := time, nServices := Joined(i.address.nServices, a.nServices))
  {
    hide Joined;
  }

  lemma JoinedServices(a: bv64, b: bv64)
    ensures Joined(a, 0) == a && Joined(a, a) == a && Joined(a, b) == Joined(b, a) && Joined(Joined(a, b), b) == Joined(a, b)
  {
  }

  lemma KnownPlaced(s: State, t: State, id: int, source: NetAddr, nNow: int)
    requires Inv(t, {id}, 0) && TimesOk(t.info) && id in t.info && !t.info[id].fInTried && 0 < t.info[id].nRefCount < NEW_BUCKETS_PER_ADDRESS
    requires -1 !in s.info && t.info - {id} == s.info - {id} && id in s.info
    ensures var r := Placed(t, id, source, nNow);
            && id in r.info && SameRecord(t.info[id], r.info[id]) && !r.info[id].fInTried
            && t.info[id].nRefCount <= r.info[id].nRefCount <= t.info[id].nRefCount + 1
            && exists d :: KeptBut(s.info - {id}, r.info - {id}, d) && (d in s.info && d !in r.info ==> s.info[d].IsTerrible(nNow) && s.info[d].nRefCount == 1)
  {
    hide Inv, RandomIndex, AddrIndex, Places.NewPlaced, KeptBut, AddrInfo.IsTerrible, Placed, SameRecord;
    PlacedEffect(t, id, source, nNow);
    InvFacts(t, {id}, 0);
    var slot := SlotOf(t, t.info[id].address.service, source);
    var d := t.fresh'[slot.0][slot.1];
    assert KeptBut(s.info - {id}, Placed(t, id, source, nNow).info - {id}, d);
    if d in s.info && d != id {
      assert (s.info - {id})[d] == (t.info - {id})[d];
    }
  }

  // --- Success ---

  // An entry that is evicted from the tried table goes back to the new one and takes the slot its source leads to.
  lemma EvictEffect(s: State, e: int, x: int)
    requires Inv(s, {x}, 1) && x in s.info && !s.info[x].fInTried && s.info[x].nRefCount == 0
    requires e in s.info && s.info[e].fInTried
    ensures Sized(s.fresh', NEW_BUCKET_COUNT)
    ensures RandomIndex(s.info, s.random) && s.w.NewPlaced(s.info, s.fresh') && Sized(s.tried, TRIED_BUCKET_COUNT)
    ensures var r, slot := Evicted(s, e), SlotOf(s, s.info[e].address.service, s.info[e].source);
            var d := s.fresh'[slot.0][slot.1];
            && e in r.info && !r.info[e].fInTried && r.info[e].nRefCount == 1 && d != e && d != x
            && KeptBut(s.info, r.info, d) && (d in s.info && d !in r.info ==> !s.info[d].fInTried && s.info[d].nRefCount == 1)
            && Sized(r.fresh', NEW_BUCKET_COUNT) && r.fresh'[slot.0][slot.1] == e
  {
    hide Inv, RandomIndex, AddrIndex, Places.NewPlaced, ClearedNew, OthersKept, NewBucket, BucketPosition, TriedBucket, KeptBut, SameRecord;
    InvFacts(s, {x}, 1);
    UnreferencedNowhere(s, {x}, 1, e);
    UnreferencedNowhere(s, {x}, 1, x);
    LeaveTriedKeeps(s, e, {x}, 1);
    var t := LeftTried(s, e);
    InvFacts(t, {x} + {e}, 2);
    NoNegative(s, {x}, 1);
    var (b, p) := SlotOf(s, s.info[e].address.service, s.info[e].source);
    var d := t.fresh'[b][p];
    ClearLoses(t, b, p, {x} + {e}, 2);
    ClearNewKeeps(t, b, p, {x} + {e}, 2);
    var c := ClearedNew(t, b, p);
    OtherKept(t.info, c.info, d, e);
    InvFacts(c, {x} + {e}, 2);
    LeftRecord(s.info[e]);
    KeptByTouch(s.info, e, t.info[e]);
    KeptThen(s.info, t.info, c.info, d);
    CountedRecord(c.info[e]);
    KeptByTouch(c.info, e, c.info[e].(nRefCount := c.info[e].nRefCount + 1));
    KeptIds(s.info, c.info, d);
    KeptThen(s.info, c.info, Evicted(s, e).info, d);
    assert WithPos(t.info[e], 0) == WithPos(c.info[e], 0);
  }

  lemma KeptIds(m: InfoMap, n: InfoMap, d: int)
    requires KeptBut(m, n, d) && -1 !in m
    ensures -1 !in n
  {
  }

  lemma LeftRecord(i: AddrInfo)
    ensures SameRecord(i, i.(fInTried := false)) && SameRecord(i, i.(fInTried := true))
  {
  }

  lemma CountedRecord(i: AddrInfo)
    ensures forall k :: SameRecord(i, i.(nRefCount := k))
  {
  }

  lemma VacateEffect(s: State, x: int)
    requires Inv(s, {}, 0) && x in s.info && !s.info[x].fInTried
    ensures Sized(s.tried, TRIED_BUCKET_COUNT)
    ensures var r := Vacated(s, x);
            var occupant := s.tried[s.w.KBucket(s.info[x].address.service)][s.w.KPos(s.info[x].address.service)];
            && x in r.info && -1 !in r.info
            && (occupant != -1 ==> occupant in r.info && occupant in s.info && occupant != x && !r.info[occupant].fInTried)
            && exists d :: d != x && KeptBut(s.info, r.info, d) && (d in s.info && d !in r.info ==> !s.info[d].fInTried && s.info[d].nRefCount == 1)
  {
    hide Inv, Evicted, Removed, RandomIndex, AddrIndex, Places.NewPlaced, KeptBut, SameRecord;
    InvFacts(s, {}, 0);
    NoNegative(s, {}, 0);
    RemoveAll(s, x);
    var a := Removed(s, x, NEW_BUCKET_COUNT);
    var t := a.(nNew := s.nNew - 1);
    LagShift(a, {x}, 0, -1);
    CountedRecord(s.info[x]);
    KeptByTouch(s.info, x, t.info[x]);
    var b, p := s.w.KBucket(s.info[x].address.service), s.w.KPos(s.info[x].address.service);
    var occupant := t.tried[b][p];
    if occupant == -1 {
      assert KeptBut(s.info, t.info, -1);
    } else {
      TriedSlotHolds(s, {}, 0, b, p);
      EvictEffect(t, occupant, x);
      var slot := SlotOf(t, t.info[occupant].address.service, t.info[occupant].source);
      var d := t.fresh'[slot.0][slot.1];
      KeptIds(s.info, t.info, -1);
      KeptThen(s.info, t.info, Evicted(t, occupant).info, d);
      KeptIds(t.info, Evicted(t, occupant).info, d);
      VacateKeeps(s, x);
    }
  }

  /**
   * Marking an address good records the success and nothing else of it, puts it into its own slot of the tried table, and
   * sends the previous holder back to the new table. At most one entry is lost: one of the new table with one reference.
   */
  lemma GoodEffect(s: State, srv: Service, nTime: int)
    requires Consistent(s)
    ensures !Known(s, srv) ==> GoodResult(s, srv, nTime) == s.(nLastGood := nTime)
    ensures Known(s, srv) ==>
              var r, id := GoodResult(s, srv, nTime), s.addr[srv.addr];
              var i, b, p := s.info[id], TriedBucket(s.w.h, s.w.key, srv), s.w.KPos(srv);
              && Sized(s.tried, TRIED_BUCKET_COUNT) && Sized(r.tried, TRIED_BUCKET_COUNT)
              && r.nLastGood == nTime && id in r.info && r.info[id].fInTried && r.tried[b][p] == id
              && SameRecord(r.info[id], i.(nLastSuccess := nTime, nLastTry := nTime, nAttempts := 0))
              && (!i.fInTried && s.tried[b][p] != -1 ==> s.tried[b][p] in r.info && !r.info[s.tried[b][p]].fInTried)
              && exists d :: d != id && KeptBut(s.info - {id}, r.info - {id}, d) && (d in s.info && d !in r.info ==> !s.info[d].fInTried && s.info[d].nRefCount == 1)
  {
    hide Inv, RandomIndex, AddrIndex, Places.NewPlaced, KeptBut, SameRecord, MadeTried;
    InvFacts(s, {}, 0);
    NoNegative(s, {}, 0);
    if Known(s, srv) {
      var id := s.addr[srv.addr];
      var i := s.info[id];
      var j := MarkedGood(i, nTime);
      var s0 := s.(nLastGood := nTime);
      LastGoodKeeps(s, nTime);
      TouchKeeps(s0, id, j, {}, 0);
      var t := Touched(s0, id, j);
      assert t.info - {id} == s.info - {id};
      GoodRecord(i, nTime);
      if i.fInTried {
        KeptSelf(s.info - {id}, -1);
        assert KeptBut(s.info - {id}, t.info - {id}, -1);
        TriedAt(t, id);
      } else {
        TriedEffect(t, id);
        var r := MadeTried(t, id);
        SameTurn(j, i.(nLastSuccess := nTime, nLastTry := nTime, nAttempts := 0), r.info, id);
        var d :| d != id && KeptBut(t.info - {id}, r.info - {id}, d) && (d in t.info && d !in r.info ==> !t.info[d].fInTried && t.info[d].nRefCount == 1);
        if d in s.info {
          assert (s.info - {id})[d] == (t.info - {id})[d];
        }
        assert KeptBut(s.info - {id}, r.info - {id}, d);
      }
    }
  }

  lemma GoodRecord(i: AddrInfo, nTime: int)
    ensures SameRecord(MarkedGood(i, nTime), i.(nLastSuccess := nTime, nLastTry := nTime, nAttempts := 0)) && SameRole(i, MarkedGood(i, nTime))
    ensures MarkedGood(i, nTime).fInTried == i.fInTried
  {
  }

  lemma TriedAt(s: State, id: int)
    requires Inv(s, {}, 0) && id in s.info && s.info[id].fInTried
    ensures Sized(s.tried, TRIED_BUCKET_COUNT)
    ensures s.tried[s.w.KBucket(s.info[id].address.service)][s.w.KPos(s.info[id].address.service)] == id
  {
  }

  lemma TriedEffect(s: State, x: int)
    requires Inv(s, {}, 0) && x in s.info && !s.info[x].fInTried
    ensures Sized(s.tried, TRIED_BUCKET_COUNT)
    ensures var r, b, p := MadeTried(s, x), s.w.KBucket(s.info[x].address.service), s.w.KPos(s.info[x].address.service);
            && Sized(r.tried, TRIED_BUCKET_COUNT) && r.nLastGood == s.nLastGood
            && x in r.info && r.info[x].fInTried && SameRecord(s.info[x], r.info[x]) && r.tried[b][p] == x
            && (s.tried[b][p] != -1 ==> s.tried[b][p] in r.info && !r.info[s.tried[b][p]].fInTried)
            && exists d :: d != x && KeptBut(s.info - {x}, r.info - {x}, d) && (d in s.info && d !in r.info ==> !s.info[d].fInTried && s.info[d].nRefCount == 1)
  {
    hide Inv, RandomIndex, AddrIndex, Places.NewPlaced, KeptBut, Vacated;
    InvFacts(s, {}, 0);
    MakeTriedKeeps(s, x);
    VacateEffect(s, x);
    VacateKeeps(s, x);
    var v, r := Vacated(s, x), MadeTried(s, x);
    TriedAt(r, x);
    var d :| d != x && KeptBut(s.info, v.info, d) && (d in s.info && d !in v.info ==> !s.info[d].fInTried && s.info[d].nRefCount == 1);
    KeptLess(s.info, v.info, d, x);
    assert r.info - {x} == v.info - {x};
  }
}
