/** The address manager as the object whose fields every operation updates in place, each method proved
    against its step function in AddrTables. Random choices are left open. */
module AddrMan {
  import opened AddrCheck
  import opened AddrTables
  import opened Common
  import opened Powers

  class AddrMan {
    const hashing: Hashing
    var nKey: Hash256
    var nIdCount: int
    var mapInfo: InfoMap
    var mapAddr: map<NetAddr, int>
    var vRandom: seq<int>
    var nTried: int
    var vvTried: Table
    var nNew: int
    var vvNew: Table
    var nLastGood: int

    function Current(): State
      reads this
    {
      State(Places(hashing, nKey), nIdCount, mapInfo, mapAddr, vRandom, nTried, vvTried, nNew, vvNew, nLastGood)
    }

    constructor (hashing: Hashing, nKey: Hash256)
      requires nKey != NULL_HASH
      ensures Consistent(Current())
      ensures Current() == State(Places(hashing, nKey), 0, map[], map[], [], 0, EmptyTable(TRIED_BUCKET_COUNT),
                                 0, EmptyTable(NEW_BUCKET_COUNT), 1)
    {
      this.hashing, this.nKey := hashing, nKey;
      nIdCount, mapInfo, mapAddr, vRandom, nTried, nNew, nLastGood := 0, map[], map[], [], 0, 0, 1;
      vvNew, vvTried := EmptyTable(NEW_BUCKET_COUNT), EmptyTable(TRIED_BUCKET_COUNT);
    }

    method SwapRandom(p: nat, q: nat)
      requires p < |vRandom| && q < |vRandom| && vRandom[p] in mapInfo && vRandom[q] in mapInfo
      modifies this`mapInfo, this`vRandom
      ensures (mapInfo, vRandom) == Swapped(old(mapInfo), old(vRandom), p, q)
    {
      if p == q {
        return;
      }
      var id1, id2 := vRandom[p], vRandom[q];
      mapInfo := mapInfo[id1 := WithPos(mapInfo[id1], q)];
      mapInfo := mapInfo[id2 := WithPos(mapInfo[id2], p)];
      vRandom := vRandom[p := id2];
      vRandom := vRandom[q := id1];
    }

    method Create(addr: Address, source: NetAddr) returns (nId: int)
      modifies this
      ensures nId == old(nIdCount) && Current() == Created(old(Current()), addr, source)
    {
      nId := nIdCount;
      nIdCount := nIdCount + 1;
      mapInfo := mapInfo[nId := NewInfo(addr, source, -1)];
      mapAddr := mapAddr[addr.service.addr := nId];
      mapInfo := mapInfo[nId := mapInfo[nId].(nRandomPos := |vRandom|)];
      vRandom := vRandom + [nId];
    }

    method Delete(nId: int)
      requires RandomIndex(mapInfo, vRandom)
      requires nId in mapInfo && !mapInfo[nId].fInTried && mapInfo[nId].nRefCount == 0
      modifies this
      ensures Current() == Deleted(old(Current()), nId)
    {
      ghost var addr := mapInfo[nId].Addr();
      SwapRandom(mapInfo[nId].nRandomPos, |vRandom| - 1);
      vRandom := vRandom[..|vRandom| - 1];
      assert mapInfo[nId].Addr() == addr;
      mapAddr := mapAddr - {mapInfo[nId].Addr()};
      mapInfo := mapInfo - {nId};
      nNew := nNew - 1;
    }

    method ClearNew(b: nat, p: nat)
      requires RandomIndex(mapInfo, vRandom) && Sized(vvNew, NEW_BUCKET_COUNT) && b < NEW_BUCKET_COUNT && p < BUCKET_SIZE
      requires vvNew[b][p] != -1 ==> vvNew[b][p] in mapInfo && !mapInfo[vvNew[b][p]].fInTried && mapInfo[vvNew[b][p]].nRefCount > 0
      modifies this
      ensures Current() == ClearedNew(old(Current()), b, p)
    {
      if vvNew[b][p] != -1 {
        var nIdDelete := vvNew[b][p];
        mapInfo := mapInfo[nIdDelete := mapInfo[nIdDelete].(nRefCount := mapInfo[nIdDelete].nRefCount - 1)];
        vvNew := Set(vvNew, b, p, -1);
        assert Current() == Unreferenced(old(Current()), b, p);
        if mapInfo[nIdDelete].nRefCount == 0 {
          Delete(nIdDelete);
        }
      }
    }

    method RemoveFromNew(nId: int)
      requires Inv(Current(), {}, 0) && nId in mapInfo && !mapInfo[nId].fInTried
      modifies this
      ensures Current() == Removed(old(Current()), nId, NEW_BUCKET_COUNT)
    {
      hide Inv, Removed, Set, BucketPosition;
      ghost var s := Current();
      RemovedStart(s, nId);
      for bucket := 0 to NEW_BUCKET_COUNT
        invariant Current() == Removed(s, nId, bucket) && nId in mapInfo
      {
        var pos := BucketPosition(hashing, nKey, true, bucket, mapInfo[nId].address.service);
        RemovedNext(s, nId, bucket);
        if vvNew[bucket][pos] == nId {
          vvNew := Set(vvNew, bucket, pos, -1);
          mapInfo := mapInfo[nId := mapInfo[nId].(nRefCount := mapInfo[nId].nRefCount - 1)];
        }
      }
    }

    // Takes the entry out of the new table and frees its tried slot.
    method Vacate(nId: int)
      requires Inv(Current(), {}, 0) && nId in mapInfo && !mapInfo[nId].fInTried
      modifies this
      ensures Current() == Vacated(old(Current()), nId)
    {
      hide Inv, Removed, Evicted, RandomIndex, Places.NewPlaced;
      ghost var s := Current();
      InvFacts(s, {}, 0);
      RemoveFromNew(nId);
      RemoveAll(s, nId);
      LagShift(Current(), {nId}, 0, -1);
      nNew := nNew - 1;
      assert mapInfo[nId].nRefCount == 0;
      InvFacts(Current(), {nId}, 1);
      var nKBucket := TriedBucket(hashing, nKey, mapInfo[nId].address.service);
      var nKBucketPos := BucketPosition(hashing, nKey, false, nKBucket, mapInfo[nId].address.service);
      if vvTried[nKBucket][nKBucketPos] != -1 {
        TriedSlotHolds(Current(), {nId}, 1, nKBucket, nKBucketPos);
        Evict(vvTried[nKBucket][nKBucketPos], nKBucket, nKBucketPos, nId);
      }
    }

    method MakeTried(nId: int)
      requires Inv(Current(), {}, 0) && nId in mapInfo && !mapInfo[nId].fInTried
      modifies this
      ensures Current() == MadeTried(old(Current()), nId)
    {
      hide Inv, Vacated;
      VacateKeeps(Current(), nId);
      Vacate(nId);
      var info := mapInfo[nId];
      var nKBucket := TriedBucket(hashing, nKey, info.address.service);
      var nKBucketPos := BucketPosition(hashing, nKey, false, nKBucket, info.address.service);
      assert info.nRefCount == 0 && vvTried[nKBucket][nKBucketPos] == -1;
      vvTried := Set(vvTried, nKBucket, nKBucketPos, nId);
      nTried := nTried + 1;
      mapInfo := mapInfo[nId := info.(fInTried := true)];
    }

    method LeaveSlot(nIdEvict: int, nKBucket: nat, nKBucketPos: nat)
      requires Sized(vvTried, TRIED_BUCKET_COUNT) && nIdEvict in mapInfo
      requires nKBucket == Current().w.KBucket(mapInfo[nIdEvict].address.service)
      requires nKBucketPos == Current().w.KPos(mapInfo[nIdEvict].address.service)
      modifies this
      ensures Current() == LeftTried(old(Current()), nIdEvict)
    {
      mapInfo := mapInfo[nIdEvict := mapInfo[nIdEvict].(fInTried := false)];
      vvTried := Set(vvTried, nKBucket, nKBucketPos, -1);
      nTried := nTried - 1;
    }

    // The occupant of a tried slot goes back to the new table.
    method Evict(nIdEvict: int, nKBucket: nat, nKBucketPos: nat, ghost nId: int)
      requires Inv(Current(), {nId}, 1) && nId in mapInfo && !mapInfo[nId].fInTried && mapInfo[nId].nRefCount == 0
      requires nIdEvict in mapInfo && mapInfo[nIdEvict].fInTried
      requires nKBucket == Current().w.KBucket(mapInfo[nIdEvict].address.service)
      requires nKBucketPos == Current().w.KPos(mapInfo[nIdEvict].address.service)
      modifies this
      ensures Current() == Evicted(old(Current()), nIdEvict)
    {
      hide Inv, RandomIndex, Places.NewPlaced, ClearedNew, NewBucket, BucketPosition, TriedBucket;
      EvictSteps(Current(), nIdEvict, nId);
      LeaveSlot(nIdEvict, nKBucket, nKBucketPos);
      var infoOld := mapInfo[nIdEvict];

      var nUBucket := NewBucket(hashing, nKey, infoOld.address.service, infoOld.source);
      var nUBucketPos := BucketPosition(hashing, nKey, true, nUBucket, infoOld.address.service);
      ClearNew(nUBucket, nUBucketPos);
      assert vvNew[nUBucket][nUBucketPos] == -1;
      mapInfo := mapInfo[nIdEvict := mapInfo[nIdEvict].(nRefCount := 1)];
      vvNew := Set(vvNew, nUBucket, nUBucketPos, nIdEvict);
      nNew := nNew + 1;
    }

    // Any random starting bucket finds the entry, so the give-up branch is dead.
    method FindBucket(nId: int) returns (nUBucket: int)
      requires Inv(Current(), {}, 0) && nId in mapInfo && !mapInfo[nId].fInTried
      ensures 0 <= nUBucket < |vvNew| && nId in vvNew[nUBucket]
    {
      hide Inv, RandomIndex, AddrIndex, BucketPosition;
      InvFacts(Current(), {}, 0);
      InSomeBucket(Current(), nId);
      var nRnd: nat :| nRnd < NEW_BUCKET_COUNT;
      var srv := mapInfo[nId].address.service;
      ghost var home :| 0 <= home < NEW_BUCKET_COUNT && vvNew[home][Current().w.NewPos(srv, home)] == nId;
      ghost var last := (home - nRnd + NEW_BUCKET_COUNT) % NEW_BUCKET_COUNT;
      assert Rotate(last, nRnd) == home;
      nUBucket := -1;
      for n := 0 to NEW_BUCKET_COUNT
        invariant n <= last
      {
        nUBucket := Rotate(n, nRnd);
        if vvNew[nUBucket][BucketPosition(hashing, nKey, true, nUBucket, srv)] == nId {
          return;
        }
      }
    }

    method Good(addr: Service, nTime: int)
      requires Consistent(Current())
      modifies this
      ensures Current() == GoodResult(old(Current()), addr, nTime)
      ensures Inv(Current(), {}, 0)
      ensures Consistent(Current()) <==> (Known(old(Current()), addr) ==> nTime > 0)
    {
      hide RandomIndex, Places.NewPlaced, Places.TriedPlaced, Places.RefsOk, NewIds, TriedIds;
      GoodKeeps(Current(), addr, nTime);
      nLastGood := nTime;
      if addr.addr !in mapAddr {
        return;
      }
      var nId := mapAddr[addr.addr];
      if nId !in mapInfo || mapInfo[nId].address.service != addr {
        return;
      }
      TouchKeeps(Current(), nId, MarkedGood(mapInfo[nId], nTime), {}, 0);
      mapInfo := mapInfo[nId := MarkedGood(mapInfo[nId], nTime)];
      if mapInfo[nId].fInTried {
        return;
      }
      var nUBucket := FindBucket(nId);
      if nUBucket == -1 {
        return;
      }
      MakeTried(nId);
    }

    // The stochastic test: with N references already there, one chance in 2^N.
    method Lucky(nRefCount: int) returns (lucky: bool, ghost r: nat)
      ensures r < Pow2(Max(0, nRefCount)) && (lucky <==> r == 0)
    {
      var nFactor := 1;
      var n: nat := 0;
      while n < nRefCount
        invariant nFactor == Pow2(n) && n <= Max(0, nRefCount)
      {
        nFactor := nFactor * 2;
        n := n + 1;
      }
      var random: nat :| random < nFactor;
      r := random;
      lucky := !(nFactor > 1 && random != 0);
    }

    method Add(addr: Address, source: NetAddr, nTimePenalty: int, nNow: int) returns (fNew: bool)
      requires Consistent(Current())
      modifies this
      ensures exists lucky :: (Current(), fNew) == AddResult(old(Current()), addr, source, nTimePenalty, nNow, lucky)
      ensures Consistent(Current())
    {
      ghost var s := Current();
      if !hashing.routable(addr.service.addr) {
        assert (Current(), false) == AddResult(s, addr, source, nTimePenalty, nNow, true);
        return false;
      }
      var penalty := if addr.service.addr == source then 0 else nTimePenalty;
      if addr.service.addr in mapAddr {
        fNew := false;
        AddKnown(addr, source, penalty, nNow, nTimePenalty);
      } else {
        AddFresh(s, addr, source, penalty);
        AddKeeps(s, addr, source, nTimePenalty, nNow, true);
        var nId := CreateFresh(addr, source, penalty);
        Place(nId, source, nNow);
        fNew := true;
        assert (Current(), fNew) == AddResult(s, addr, source, nTimePenalty, nNow, true);
      }
    }

    method CreateFresh(addr: Address, source: NetAddr, penalty: int) returns (nId: int)
      modifies this
      ensures nId == old(nIdCount) && Current() == Fresh(old(Current()), addr, source, penalty)
    {
      ghost var s := Current();
      nId := Create(addr, source);
      ghost var t := Current();
      assert t == Created(s, addr, source);
      var i := mapInfo[nId].(address := mapInfo[nId].address.(nTime := Max(0, mapInfo[nId].address.nTime - penalty)));
      mapInfo := mapInfo[nId := i];
      assert Current() == Touched(t, nId, i);
      nNew := nNew + 1;
    }

    method AddKnown(addr: Address, source: NetAddr, penalty: int, nNow: int, ghost nTimePenalty: int)
      requires Consistent(Current()) && hashing.routable(addr.service.addr) && addr.service.addr in mapAddr
      requires penalty == SelfPenalty(addr, source, nTimePenalty)
      modifies this
      ensures exists lucky :: (Current(), false) == AddResult(old(Current()), addr, source, nTimePenalty, nNow, lucky)
      ensures Consistent(Current())
    {
      ghost var s := Current();
      var nId := mapAddr[addr.service.addr];
      mapInfo := mapInfo[nId := Refreshed(mapInfo[nId], addr, penalty, nNow)];
      var i := mapInfo[nId];
      TouchKeeps(s, nId, i, {}, 0);
      LoosenOne(Current(), nId);
      AddKeeps(s, addr, source, nTimePenalty, nNow, false);
      AddKeeps(s, addr, source, nTimePenalty, nNow, true);
      if addr.nTime == 0 || (i.address.nTime != 0 && addr.nTime <= i.address.nTime)
         || i.fInTried || i.nRefCount == NEW_BUCKETS_PER_ADDRESS {
        assert (Current(), false) == AddResult(s, addr, source, nTimePenalty, nNow, true);
        return;
      }
      var lucky;
      ghost var r;
      lucky, r := Lucky(i.nRefCount);
      if !lucky {
        assert (Current(), false) == AddResult(s, addr, source, nTimePenalty, nNow, false);
        return;
      }
      Place(nId, source, nNow);
      assert (Current(), false) == AddResult(s, addr, source, nTimePenalty, nNow, true);
    }

    method Place(nId: int, source: NetAddr, nNow: int)
      requires Inv(Current(), {nId}, 0) && nId in mapInfo && !mapInfo[nId].fInTried
      modifies this
      ensures Current() == Placed(old(Current()), nId, source, nNow)
    {
      hide Inv, RandomIndex, Places.NewPlaced, ClearedNew, Deleted, OthersKept;
      ghost var s := Current();
      InvFacts(s, {nId}, 0);
      var srv := mapInfo[nId].address.service;
      var nUBucket := NewBucket(hashing, nKey, srv, source);
      var nUBucketPos := BucketPosition(hashing, nKey, true, nUBucket, srv);
      NewSlotHolds(s, {nId}, 0, nUBucket, nUBucketPos);
      if vvNew[nUBucket][nUBucketPos] != nId {
        var fInsert := vvNew[nUBucket][nUBucketPos] == -1;
        if !fInsert {
          fInsert := Overwrites(mapInfo[vvNew[nUBucket][nUBucketPos]], mapInfo[nId], nNow);
        }
        if fInsert {
          ClearNewKeeps(s, nUBucket, nUBucketPos, {nId}, 0);
          OtherKept(s.info, ClearedNew(s, nUBucket, nUBucketPos).info, vvNew[nUBucket][nUBucketPos], nId);
          ClearNew(nUBucket, nUBucketPos);
          mapInfo := mapInfo[nId := mapInfo[nId].(nRefCount := mapInfo[nId].nRefCount + 1)];
          vvNew := Set(vvNew, nUBucket, nUBucketPos, nId);
        } else if mapInfo[nId].nRefCount == 0 {
          Delete(nId);
        }
      }
    }

    method Attempt(addr: Service, fCountFailure: bool, nTime: int)
      requires Consistent(Current())
      modifies this`mapInfo
      ensures Inv(Current(), {}, 0)
      ensures Consistent(Current()) <==> (Known(old(Current()), addr) ==> nTime >= 0)
      ensures Current() == OnKnown(old(Current()), addr, i => Attempted(i, fCountFailure, nTime, old(nLastGood)))
    {
      hide RandomIndex, Places.NewPlaced, Places.TriedPlaced, Places.RefsOk, NewIds, TriedIds;
      if addr.addr in mapAddr && mapInfo[mapAddr[addr.addr]].address.service == addr {
        var id := mapAddr[addr.addr];
        var i := mapInfo[id].(nLastTry := nTime);
        if fCountFailure && i.nLastCountAttempt < nLastGood {
          i := i.(nLastCountAttempt := nTime, nAttempts := i.nAttempts + 1);
        }
        TouchKnown(Current(), addr, i);
        mapInfo := mapInfo[id := i];
      }
    }

    method Connected(addr: Service, nTime: int)
      requires Consistent(Current())
      modifies this`mapInfo
      ensures Consistent(Current())
      ensures Current() == OnKnown(old(Current()), addr, i => Seen(i, nTime))
    {
      hide RandomIndex, Places.NewPlaced, Places.TriedPlaced, Places.RefsOk, NewIds, TriedIds;
      if addr.addr in mapAddr && mapInfo[mapAddr[addr.addr]].address.service == addr {
        var id := mapAddr[addr.addr];
        var i := Seen(mapInfo[id], nTime);
        TouchKnown(Current(), addr, i);
        mapInfo := mapInfo[id := i];
      }
    }

    method SetServices(addr: Service, nServices: bv64)
      requires Consistent(Current())
      modifies this`mapInfo
      ensures Consistent(Current())
      ensures Current() == OnKnown(old(Current()), addr, (i: AddrInfo) => i.(address := i.address.(nServices := nServices)))
    {
      hide RandomIndex, Places.NewPlaced, Places.TriedPlaced, Places.RefsOk, NewIds, TriedIds;
      if addr.addr in mapAddr && mapInfo[mapAddr[addr.addr]].address.service == addr {
        var id := mapAddr[addr.addr];
        var i := mapInfo[id].(address := mapInfo[id].address.(nServices := nServices));
        TouchKnown(Current(), addr, i);
        mapInfo := mapInfo[id := i];
      }
    }

    // Bring a random later entry to place n.
    method Shuffle(n: nat, ghost was: InfoMap, ghost ids: seq<int>, ghost vAddr: seq<Address>, ghost nNow: int)
      requires n < |vRandom| && Consistent(Current()) && SameUpToPos(was, mapInfo) && Sampled(mapInfo, ids, vAddr, n, nNow)
      modifies this`mapInfo, this`vRandom
      ensures |vRandom| == |old(vRandom)| && Consistent(Current()) && SameUpToPos(was, mapInfo)
      ensures Sampled(mapInfo, ids, vAddr, n, nNow) && vRandom[n] in mapInfo && mapInfo[vRandom[n]].nRandomPos == n
    {
      hide Inv, RandomIndex, AddrIndex, Sampled, SameUpToPos, TimesOk, Swapped;
      var r: nat :| r < |vRandom| - n;
      SwapKeeps(Current(), n, r + n);
      InvFacts(Current(), {}, 0);
      SampleSwap(mapInfo, vRandom, ids, vAddr, n, r + n, nNow);
      ghost var before := mapInfo;
      SwapRandom(n, r + n);
      SameTwice(was, before, mapInfo);
    }

    // A random sample: at most 23 percent and 2500 entries, no address twice, none of low quality, and fewer only if
    // there are no more.
    method GetAddr(nNow: int) returns (vAddr: seq<Address>)
      requires Consistent(Current())
      modifies this`mapInfo, this`vRandom
      ensures Consistent(Current()) && SameUpToPos(old(mapInfo), mapInfo)
      ensures |vRandom| == |old(vRandom)| && |vAddr| <= 2500 && 100 * |vAddr| <= 23 * |vRandom|
      ensures forall i, j :: 0 <= i < j < |vAddr| ==> vAddr[i].service.addr != vAddr[j].service.addr
      ensures forall k :: 0 <= k < |vAddr| ==> Offered(mapInfo, vAddr[k], nNow)
      ensures || (forall id :: id in mapInfo && !mapInfo[id].IsTerrible(nNow) ==> mapInfo[id].address in vAddr)
              || |vAddr| == 2500 || 23 * |vRandom| < 100 * (|vAddr| + 1)
    {
      hide Inv, RandomIndex, AddrIndex, Sampled, SameUpToPos, TimesOk, Swapped, Offered, SampleLimit;
      var nNodes := SampleLimit(|vRandom|);
      InvFacts(Current(), {}, 0);
      SampleStart(mapInfo, vRandom, nNow);
      vAddr := [];
      ghost var ids: seq<int> := [];
      ghost var was := mapInfo;
      var n := 0;
      while n < |vRandom| && |vAddr| < nNodes
        invariant n <= |vRandom| == |old(vRandom)| && |vAddr| <= nNodes
        invariant Consistent(Current()) && SameUpToPos(was, mapInfo)
        invariant Sampled(mapInfo, ids, vAddr, n, nNow)
      {
        Shuffle(n, was, ids, vAddr, nNow);
        var id := vRandom[n];
        InvFacts(Current(), {}, 0);
        SampleNext(mapInfo, vRandom, ids, vAddr, n, nNow, id);
        if !mapInfo[id].IsTerrible(nNow) {
          vAddr, ids := vAddr + [mapInfo[id].address], ids + [id];
        }
        n := n + 1;
      }
      InvFacts(Current(), {}, 0);
      SampleDistinct(Current(), ids, vAddr, n, nNow);
      if n == |vRandom| {
        SampleWhole(mapInfo, vRandom, ids, vAddr, nNow);
      }
    }
  }

  datatype Op =
    | AddOne(addr: Address, source: NetAddr, penalty: int, now: int)
    | MarkGood(service: Service, time: int)
    | MarkAttempt(service: Service, countFailure: bool, time: int)
    | MarkConnected(service: Service, time: int)
    | ChangeServices(service: Service, services: bv64)
    | Sample(now: int)

  // Clock readings are positive when a connection succeeds and never negative.
  predicate Timely(op: Op) {
    (op.MarkGood? ==> op.time > 0) && (op.MarkAttempt? ==> op.time >= 0)
  }

  method Execute(m: AddrMan, op: Op)
    requires Consistent(m.Current()) && Timely(op)
    modifies m
    ensures Consistent(m.Current())
  {
    match op {
      case AddOne(addr, source, penalty, now) => var _ := m.Add(addr, source, penalty, now);
      case MarkGood(service, time) => m.Good(service, time);
      case MarkAttempt(service, countFailure, time) => m.Attempt(service, countFailure, time);
      case MarkConnected(service, time) => m.Connected(service, time);
      case ChangeServices(service, services) => m.SetServices(service, services);
      case Sample(now) => var _ := m.GetAddr(now);
    }
  }

  // From a fresh manager, the self-check passes after every step of every run.
  method Run(hashing: Hashing, nKey: Hash256, ops: seq<Op>) returns (errors: seq<int>, m: AddrMan)
    requires nKey != NULL_HASH
    requires forall k :: 0 <= k < |ops| ==> Timely(ops[k])
    ensures fresh(m) && Consistent(m.Current())
    ensures |errors| == |ops| && forall k :: 0 <= k < |errors| ==> errors[k] == 0
  {
    m := new AddrMan(hashing, nKey);
    errors := [];
    for k := 0 to |ops|
      invariant fresh(m) && Consistent(m.Current())
      invariant |errors| == k && forall j :: 0 <= j < k ==> errors[j] == 0
    {
      Execute(m, ops[k]);
      InvIsShaped(m.Current());
      var err := SelfCheck(m.Current());
      errors := errors + [err];
    }
  }

  /**
   * At time zero, marking the one address of a new manager good breaks the manager's own check. The only caller passes the
   * clock, so this needs a clock at the epoch.
   */
  method GoodAtZero(hashing: Hashing, nKey: Hash256, addr: Address, source: NetAddr, nNow: int) returns (before: int, after: int)
    requires nKey != NULL_HASH && hashing.routable(addr.service.addr)
    ensures before == 0 && after != 0
  {
    hide Inv, AddResult, GoodResult, EmptyTable;
    var m := new AddrMan(hashing, nKey);
    ghost var s := m.Current();
    var _ := m.Add(addr, source, 0, nNow);
    ghost var lucky :| m.Current() == AddResult(s, addr, source, 0, nNow, lucky).0;
    AddedToEmpty(s, addr, source, 0, nNow, lucky);
    InvIsShaped(m.Current());
    before := SelfCheck(m.Current());
    m.Good(addr.service, 0);
    InvIsShaped(m.Current());
    after := SelfCheck(m.Current());
  }
}
