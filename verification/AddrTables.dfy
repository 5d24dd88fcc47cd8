/** The address manager on values: five redundant indexes over one set of peers, the consistency that its
    self-check verifies, and the step functions that keep it. Bucket choice goes through an
    arbitrary hash. */
module AddrTables {
  import opened Common

  const TRIED_BUCKET_COUNT := 256
  const NEW_BUCKET_COUNT := 1024
  const BUCKET_SIZE := 64
  const TRIED_BUCKETS_PER_GROUP := 8
  const NEW_BUCKETS_PER_SOURCE_GROUP := 64
  const NEW_BUCKETS_PER_ADDRESS := 8
  const HORIZON_DAYS := 30
  const RETRIES := 3
  const MAX_FAILURES := 10
  const MIN_FAIL_DAYS := 7
  const GETADDR_MAX_PCT := 23
  const GETADDR_MAX := 2500
  const DAY := 24 * 60 * 60

  datatype NetAddr = NetAddr(ip: seq<bv8>)

  datatype Service = Service(addr: NetAddr, port: nat)

  datatype Address = Address(service: Service, nServices: bv64, nTime: int)

  type Group = seq<bv8>

  datatype HashInput =
    | TriedByService(key: Hash256, service: Service)
    | TriedByGroup(key: Hash256, group: Group, slice: nat)
    | NewByGroups(key: Hash256, group: Group, sourceGroup: Group)
    | NewBySource(key: Hash256, sourceGroup: Group, slice: nat)
    | Position(key: Hash256, isNew: bool, bucket: int, service: Service)

  // The hash, the network group of an address and its routability are not interpreted.
  datatype Hashing = Hashing(cheap: HashInput -> nat, group: NetAddr -> Group, routable: NetAddr -> bool)

  datatype AddrInfo = AddrInfo(
    address: Address,
    source: NetAddr,
    nLastSuccess: int,
    nLastTry: int,
    nLastCountAttempt: int,
    nAttempts: int,
    nRefCount: int,
    fInTried: bool,
    nRandomPos: int)
  {
    function Addr(): NetAddr { address.service.addr }

    predicate IsTerrible(nNow: int) {
      if nLastTry != 0 && nLastTry >= nNow - 60 then false
      else
        || address.nTime > nNow + 10 * 60
        || address.nTime == 0 || nNow - address.nTime > HORIZON_DAYS * DAY
        || (nLastSuccess == 0 && nAttempts >= RETRIES)
        || (nNow - nLastSuccess > MIN_FAIL_DAYS * DAY && nAttempts >= MAX_FAILURES)
    }
  }

  function TriedBucket(h: Hashing, key: Hash256, s: Service): (b: nat)
    ensures b < TRIED_BUCKET_COUNT
  {
    var hash1 := h.cheap(TriedByService(key, s));
    var hash2 := h.cheap(TriedByGroup(key, h.group(s.addr), hash1 % TRIED_BUCKETS_PER_GROUP));
    hash2 % TRIED_BUCKET_COUNT
  }

  function NewBucket(h: Hashing, key: Hash256, s: Service, src: NetAddr): (b: nat)
    ensures b < NEW_BUCKET_COUNT
  {
    var hash1 := h.cheap(NewByGroups(key, h.group(s.addr), h.group(src)));
    var hash2 := h.cheap(NewBySource(key, h.group(src), hash1 % NEW_BUCKETS_PER_SOURCE_GROUP));
    hash2 % NEW_BUCKET_COUNT
  }

  function BucketPosition(h: Hashing, key: Hash256, isNew: bool, bucket: int, s: Service): (p: nat)
    ensures p < BUCKET_SIZE
  {
    h.cheap(Position(key, isNew, bucket, s)) % BUCKET_SIZE
  }

  type InfoMap = map<int, AddrInfo>

  ghost function NewIds(m: InfoMap): set<int> { set id | id in m && !m[id].fInTried }

  ghost function TriedIds(m: InfoMap): set<int> { set id | id in m && m[id].fInTried }

  // vRandom lists every id once and each entry knows its own place in it.
  ghost predicate RandomIndex(m: InfoMap, vRandom: seq<int>) {
    && (forall id :: id in m ==> 0 <= m[id].nRandomPos < |vRandom| && vRandom[m[id].nRandomPos] == id)
    && (forall i :: 0 <= i < |vRandom| ==> vRandom[i] in m && m[vRandom[i]].nRandomPos == i)
  }

  // mapAddr is the inverse of the address field.
  ghost predicate AddrIndex(m: InfoMap, mapAddr: map<NetAddr, int>) {
    && (forall id :: id in m ==> m[id].Addr() in mapAddr && mapAddr[m[id].Addr()] == id)
    && (forall a :: a in mapAddr ==> mapAddr[a] in m && m[mapAddr[a]].Addr() == a)
  }

  ghost predicate TimesOk(m: InfoMap) {
    forall id :: id in m ==>
      m[id].nLastTry >= 0 && m[id].nLastSuccess >= 0 && (m[id].fInTried ==> m[id].nLastSuccess != 0)
  }

  function WithPos(i: AddrInfo, p: int): AddrInfo { i.(nRandomPos := p) }

  // The same entries up to their positions in vRandom.
  ghost predicate SameUpToPos(m: InfoMap, n: InfoMap) {
    m.Keys == n.Keys && forall id :: id in m ==> WithPos(m[id], 0) == WithPos(n[id], 0)
  }

  // Statistics may differ; identity, tables and counters may not.
  ghost predicate SameRole(i: AddrInfo, j: AddrInfo) {
    && i.address.service == j.address.service
    && i.nRefCount == j.nRefCount && i.fInTried == j.fInTried && i.nRandomPos == j.nRandomPos
  }

  function Swapped(m: InfoMap, vRandom: seq<int>, p: int, q: int): (r: (InfoMap, seq<int>))
    requires 0 <= p < |vRandom| && 0 <= q < |vRandom|
    requires vRandom[p] in m && vRandom[q] in m
  {
    if p == q then (m, vRandom)
    else
      var id1, id2 := vRandom[p], vRandom[q];
      (m[id1 := WithPos(m[id1], q)][id2 := WithPos(m[id2], p)], vRandom[p := id2][q := id1])
  }

  lemma SwapKeepsIndex(m: InfoMap, vRandom: seq<int>, mapAddr: map<NetAddr, int>, p: int, q: int)
    requires RandomIndex(m, vRandom) && AddrIndex(m, mapAddr)
    requires 0 <= p < |vRandom| && 0 <= q < |vRandom|
    ensures var r := Swapped(m, vRandom, p, q);
            RandomIndex(r.0, r.1) && SameUpToPos(m, r.0) && AddrIndex(r.0, mapAddr) && |r.1| == |vRandom|
  {
    if p != q {
      assert vRandom[p] != vRandom[q];
    }
  }

  lemma DropLastKeepsIndex(m: InfoMap, vRandom: seq<int>, mapAddr: map<NetAddr, int>)
    requires RandomIndex(m, vRandom) && AddrIndex(m, mapAddr) && |vRandom| > 0
    ensures var last := vRandom[|vRandom| - 1];
            && last in m
            && RandomIndex(m - {last}, vRandom[..|vRandom| - 1])
            && AddrIndex(m - {last}, mapAddr - {m[last].Addr()})
  {
  }

  lemma AddKeepsIndex(m: InfoMap, vRandom: seq<int>, mapAddr: map<NetAddr, int>, id: int, info: AddrInfo)
    requires RandomIndex(m, vRandom) && AddrIndex(m, mapAddr)
    requires id !in m && info.Addr() !in mapAddr && info.nRandomPos == |vRandom|
    ensures RandomIndex(m[id := info], vRandom + [id])
    ensures AddrIndex(m[id := info], mapAddr[info.Addr() := id])
  {
  }

  // --- The bucket tables ---

  // A table of ids, -1 where empty.
  type Table = seq<seq<int>>

  ghost predicate Sized(t: Table, n: nat) {
    |t| == n && forall b :: 0 <= b < n ==> |t[b]| == BUCKET_SIZE
  }

  function Set(t: Table, b: nat, p: nat, id: int): (r: Table)
    requires b < |t| && p < |t[b]|
  {
    t[b := t[b][p := id]]
  }

  lemma SetTwice(t: Table, n: nat, b: nat, p: nat, u: int, v: int)
    requires Sized(t, n) && b < n && p < BUCKET_SIZE
    ensures Set(Set(t, b, p, u), b, p, v) == Set(t, b, p, v)
    ensures t[b][p] == v ==> Set(t, b, p, v) == t
  {
    assert t[b][p := u][p := v] == t[b][p := v];
    assert t[b][p] == v ==> t[b][p := v] == t[b];
  }

  function EmptyTable(n: nat): (t: Table)
    ensures Sized(t, n)
    ensures forall b, p :: 0 <= b < n && 0 <= p < BUCKET_SIZE ==> t[b][p] == -1
  {
    seq(n, _ => seq(BUCKET_SIZE, _ => -1))
  }

  // Where buckets come from: the hash functions and the secret key.
  datatype Places = Places(h: Hashing, key: Hash256) {
    function NewPos(s: Service, b: int): nat { BucketPosition(h, key, true, b, s) }

    function KBucket(s: Service): nat { TriedBucket(h, key, s) }

    function KPos(s: Service): nat { BucketPosition(h, key, false, TriedBucket(h, key, s), s) }

    // The new buckets that hold id.
    ghost function Slots(t: Table, id: int, s: Service): set<int>
      requires Sized(t, NEW_BUCKET_COUNT)
    {
      set b | 0 <= b < NEW_BUCKET_COUNT && t[b][NewPos(s, b)] == id
    }

    ghost predicate NewPlaced(m: InfoMap, t: Table) {
      && Sized(t, NEW_BUCKET_COUNT)
      && forall b, p :: 0 <= b < NEW_BUCKET_COUNT && 0 <= p < BUCKET_SIZE && t[b][p] != -1 ==>
           var id := t[b][p];
           id in m && !m[id].fInTried && NewPos(m[id].address.service, b) == p
    }

    ghost predicate TriedPlaced(m: InfoMap, t: Table) {
      && Sized(t, TRIED_BUCKET_COUNT)
      && (forall b, p :: 0 <= b < TRIED_BUCKET_COUNT && 0 <= p < BUCKET_SIZE && t[b][p] != -1 ==>
            var id := t[b][p];
            id in m && m[id].fInTried && KBucket(m[id].address.service) == b && KPos(m[id].address.service) == p)
      && (forall id :: id in m && m[id].fInTried ==>
            t[KBucket(m[id].address.service)][KPos(m[id].address.service)] == id)
    }

    // Reference counts count slots; only loose entries may have none.
    ghost predicate RefOk(t: Table, loose: set<int>, id: int, i: AddrInfo)
      requires Sized(t, NEW_BUCKET_COUNT)
    {
      if i.fInTried then i.nRefCount == 0
      else
        && i.nRefCount == |Slots(t, id, i.address.service)|
        && i.nRefCount <= NEW_BUCKETS_PER_ADDRESS
        && (id !in loose ==> i.nRefCount > 0)
    }

    ghost predicate RefsOk(m: InfoMap, t: Table, loose: set<int>) {
      Sized(t, NEW_BUCKET_COUNT) && forall id :: id in m ==> RefOk(t, loose, id, m[id])
    }
  }

  ghost predicate Numbered(m: InfoMap, nIdCount: int) {
    0 <= nIdCount && forall id :: id in m ==> 0 <= id < nIdCount
  }

  // Entries whose service and table membership are unchanged keep their places.
  ghost predicate SamePlaces(m: InfoMap, n: InfoMap) {
    m.Keys == n.Keys && forall id :: id in m ==>
      m[id].address.service == n[id].address.service
      && m[id].fInTried == n[id].fInTried && m[id].nRefCount == n[id].nRefCount
  }

  lemma PlacesKept(w: Places, m: InfoMap, n: InfoMap, tried: Table, fresh': Table, loose: set<int>)
    requires SamePlaces(m, n)
    requires w.NewPlaced(m, fresh') && w.TriedPlaced(m, tried) && w.RefsOk(m, fresh', loose)
    ensures w.NewPlaced(n, fresh') && w.TriedPlaced(n, tried) && w.RefsOk(n, fresh', loose)
    ensures NewIds(n) == NewIds(m) && TriedIds(n) == TriedIds(m)
  {
    forall id | id in n ensures w.RefOk(fresh', loose, id, n[id]) { assert w.RefOk(fresh', loose, id, m[id]); }
  }

  lemma RemoveLoose(w: Places, m: InfoMap, tried: Table, fresh': Table, loose: set<int>, x: int)
    requires w.NewPlaced(m, fresh') && w.TriedPlaced(m, tried) && w.RefsOk(m, fresh', loose)
    requires x in m && x != -1 && !m[x].fInTried && m[x].nRefCount == 0
    ensures w.NewPlaced(m - {x}, fresh') && w.TriedPlaced(m - {x}, tried) && w.RefsOk(m - {x}, fresh', loose - {x})
    ensures NewIds(m - {x}) == NewIds(m) - {x} && TriedIds(m - {x}) == TriedIds(m)
  {
    assert w.RefOk(fresh', loose, x, m[x]);
    NoSlots(w, m, fresh', x);
    forall id | id in m - {x} ensures w.RefOk(fresh', loose - {x}, id, m[id]) { assert w.RefOk(fresh', loose, id, m[id]); }
  }

  lemma AddLoose(w: Places, m: InfoMap, tried: Table, fresh': Table, loose: set<int>, x: int, i: AddrInfo)
    requires w.NewPlaced(m, fresh') && w.TriedPlaced(m, tried) && w.RefsOk(m, fresh', loose)
    requires x !in m && x != -1 && !i.fInTried && i.nRefCount == 0
    ensures w.NewPlaced(m[x := i], fresh') && w.TriedPlaced(m[x := i], tried) && w.RefsOk(m[x := i], fresh', loose + {x})
    ensures NewIds(m[x := i]) == NewIds(m) + {x} && TriedIds(m[x := i]) == TriedIds(m)
  {
    assert w.Slots(fresh', x, i.address.service) == {};
    forall id | id in m ensures w.RefOk(fresh', loose + {x}, id, m[id]) { assert w.RefOk(fresh', loose, id, m[id]); }
  }

  lemma SlotHolds(w: Places, m: InfoMap, t: Table, b: nat, p: nat)
    requires w.NewPlaced(m, t) && b < NEW_BUCKET_COUNT && p < BUCKET_SIZE && t[b][p] != -1
    ensures t[b][p] in m && !m[t[b][p]].fInTried && b in w.Slots(t, t[b][p], m[t[b][p]].address.service)
  {
  }

  lemma NoSlots(w: Places, m: InfoMap, fresh': Table, x: int)
    requires w.NewPlaced(m, fresh') && x in m && x != -1
    requires m[x].fInTried || w.Slots(fresh', x, m[x].address.service) == {}
    ensures w.Slots(fresh', x, m[x].address.service) == {}
    ensures forall b, p :: 0 <= b < NEW_BUCKET_COUNT && 0 <= p < BUCKET_SIZE ==> fresh'[b][p] != x
  {
    forall b, p | 0 <= b < NEW_BUCKET_COUNT && 0 <= p < BUCKET_SIZE
      ensures fresh'[b][p] != x
    {
      if fresh'[b][p] != -1 {
        SlotHolds(w, m, fresh', b, p);
      }
    }
  }

  lemma ClearSlot(w: Places, m: InfoMap, t: Table, loose: set<int>, b: nat, p: nat)
    requires w.NewPlaced(m, t) && w.RefsOk(m, t, loose)
    requires b < NEW_BUCKET_COUNT && p < BUCKET_SIZE && t[b][p] != -1 && -1 !in m
    ensures var d := t[b][p];
            && d in m && !m[d].fInTried && m[d].nRefCount > 0
            && w.NewPlaced(m[d := m[d].(nRefCount := m[d].nRefCount - 1)], Set(t, b, p, -1))
            && w.RefsOk(m[d := m[d].(nRefCount := m[d].nRefCount - 1)], Set(t, b, p, -1), loose + {d})
            && w.Slots(Set(t, b, p, -1), d, m[d].address.service) == w.Slots(t, d, m[d].address.service) - {b}
  {
    var d := t[b][p];
    var t' := Set(t, b, p, -1);
    assert w.RefOk(t, loose, d, m[d]);
    assert b in w.Slots(t, d, m[d].address.service);
    assert w.Slots(t', d, m[d].address.service) == w.Slots(t, d, m[d].address.service) - {b};
    forall id | id in m && id != d
      ensures w.RefOk(t', loose + {d}, id, m[id])
    {
      assert w.RefOk(t, loose, id, m[id]);
      SlotsElsewhere(w, m, t, b, p, -1, id);
    }
  }

  lemma SlotsElsewhere(w: Places, m: InfoMap, t: Table, b: nat, p: nat, v: int, id: int)
    requires Sized(t, NEW_BUCKET_COUNT) && b < NEW_BUCKET_COUNT && p < BUCKET_SIZE
    requires id in m && t[b][p] != id && v != id
    ensures w.Slots(Set(t, b, p, v), id, m[id].address.service) == w.Slots(t, id, m[id].address.service)
  {
  }

  lemma FillSlot(w: Places, m: InfoMap, t: Table, loose: set<int>, b: nat, p: nat, x: int)
    requires w.NewPlaced(m, t) && w.RefsOk(m, t, loose)
    requires b < NEW_BUCKET_COUNT && p < BUCKET_SIZE && t[b][p] == -1
    requires x in m && x != -1 && -1 !in m && !m[x].fInTried && w.NewPos(m[x].address.service, b) == p
    requires m[x].nRefCount < NEW_BUCKETS_PER_ADDRESS
    ensures w.NewPlaced(m[x := m[x].(nRefCount := m[x].nRefCount + 1)], Set(t, b, p, x))
    ensures w.RefsOk(m[x := m[x].(nRefCount := m[x].nRefCount + 1)], Set(t, b, p, x), loose - {x})
    ensures w.Slots(Set(t, b, p, x), x, m[x].address.service) == w.Slots(t, x, m[x].address.service) + {b}
  {
    var t' := Set(t, b, p, x);
    assert w.RefOk(t, loose, x, m[x]);
    assert w.Slots(t', x, m[x].address.service) == w.Slots(t, x, m[x].address.service) + {b};
    forall id | id in m && id != x
      ensures w.RefOk(t', loose - {x}, id, m[id])
    {
      assert w.RefOk(t, loose, id, m[id]);
      SlotsElsewhere(w, m, t, b, p, x, id);
    }
  }

  lemma TriedKept(w: Places, m: InfoMap, n: InfoMap, tried: Table)
    requires m.Keys == n.Keys
    requires forall id :: id in m ==> m[id].address.service == n[id].address.service && m[id].fInTried == n[id].fInTried
    requires w.TriedPlaced(m, tried)
    ensures w.TriedPlaced(n, tried) && NewIds(n) == NewIds(m) && TriedIds(n) == TriedIds(m)
  {
    assert forall id :: id in NewIds(n) <==> id in NewIds(m);
    assert forall id :: id in TriedIds(n) <==> id in TriedIds(m);
  }

  // Taking an entry out of its tried slot leaves it loose.
  lemma LeaveTried(w: Places, m: InfoMap, tried: Table, fresh': Table, loose: set<int>, x: int)
    requires w.NewPlaced(m, fresh') && w.TriedPlaced(m, tried) && w.RefsOk(m, fresh', loose)
    requires x in m && x != -1 && m[x].fInTried
    ensures var n, b, p := m[x := m[x].(fInTried := false)], w.KBucket(m[x].address.service), w.KPos(m[x].address.service);
            && w.NewPlaced(n, fresh') && w.TriedPlaced(n, Set(tried, b, p, -1)) && w.RefsOk(n, fresh', loose + {x})
            && NewIds(n) == NewIds(m) + {x} && TriedIds(n) == TriedIds(m) - {x}
  {
    var n := m[x := m[x].(fInTried := false)];
    NoSlots(w, m, fresh', x);
    assert w.RefOk(fresh', loose, x, m[x]);
    forall id | id in n ensures w.RefOk(fresh', loose + {x}, id, n[id]) { assert w.RefOk(fresh', loose, id, m[id]); }
  }

  // An unreferenced entry may enter its empty tried slot.
  lemma EnterTried(w: Places, m: InfoMap, tried: Table, fresh': Table, loose: set<int>, x: int)
    requires w.NewPlaced(m, fresh') && w.TriedPlaced(m, tried) && w.RefsOk(m, fresh', loose)
    requires x in m && x != -1 && !m[x].fInTried && m[x].nRefCount == 0
    requires tried[w.KBucket(m[x].address.service)][w.KPos(m[x].address.service)] == -1 && -1 !in m
    ensures var n, b, p := m[x := m[x].(fInTried := true)], w.KBucket(m[x].address.service), w.KPos(m[x].address.service);
            && w.NewPlaced(n, fresh') && w.TriedPlaced(n, Set(tried, b, p, x)) && w.RefsOk(n, fresh', loose - {x})
            && NewIds(n) == NewIds(m) - {x} && TriedIds(n) == TriedIds(m) + {x}
  {
    var n := m[x := m[x].(fInTried := true)];
    assert w.RefOk(fresh', loose, x, m[x]);
    NoSlots(w, m, fresh', x);
    forall id | id in n ensures w.RefOk(fresh', loose - {x}, id, n[id]) { assert w.RefOk(fresh', loose, id, m[id]); }
  }

  // --- Whole states and the steps between them ---

  datatype State = State(
    w: Places,
    nIdCount: int,
    info: InfoMap,
    addr: map<NetAddr, int>,
    random: seq<int>,
    nTried: int,
    tried: Table,
    nNew: int,
    fresh': Table,
    nLastGood: int)

  // The consistency of a whole state in the middle of an operation: loose entries are not
  // referenced yet (or any more), and nNew lags behind by a known amount.
  ghost predicate Inv(s: State, loose: set<int>, lag: int) {
    && s.w.key != NULL_HASH
    && Sized(s.fresh', NEW_BUCKET_COUNT) && Sized(s.tried, TRIED_BUCKET_COUNT)
    && RandomIndex(s.info, s.random) && AddrIndex(s.info, s.addr) && Numbered(s.info, s.nIdCount)
    && s.w.NewPlaced(s.info, s.fresh') && s.w.TriedPlaced(s.info, s.tried) && s.w.RefsOk(s.info, s.fresh', loose)
    && s.nTried == |TriedIds(s.info)|
    && s.nNew + lag == |NewIds(s.info)|
  }

  // What the address manager's self-check verifies.
  ghost predicate Consistent(s: State) {
    Inv(s, {}, 0) && TimesOk(s.info)
  }

  function NewInfo(a: Address, source: NetAddr, pos: int): AddrInfo {
    AddrInfo(a, source, 0, 0, 0, 0, 0, false, pos)
  }

  function Created(s: State, a: Address, source: NetAddr): State {
    s.(nIdCount := s.nIdCount + 1,
       info := s.info[s.nIdCount := NewInfo(a, source, |s.random|)],
       addr := s.addr[a.service.addr := s.nIdCount],
       random := s.random + [s.nIdCount])
  }

  lemma CreateKeeps(s: State, a: Address, source: NetAddr)
    requires Inv(s, {}, 0) && a.service.addr !in s.addr
    ensures s.nIdCount !in s.info && Inv(Created(s, a, source), {s.nIdCount}, 1)
  {
    hide Places.NewPlaced, Places.TriedPlaced, Places.RefsOk, RandomIndex, AddrIndex, NewIds, TriedIds;
    var id, i := s.nIdCount, NewInfo(a, source, |s.random|);
    AddKeepsIndex(s.info, s.random, s.addr, id, i);
    AddLoose(s.w, s.info, s.tried, s.fresh', {}, id, i);
    assert {} + {id} == {id};
    NewIdsMember(s.info, id);
  }

  lemma NewIdsMember(m: InfoMap, id: int)
    ensures id in NewIds(m) <==> id in m && !m[id].fInTried
    ensures id in TriedIds(m) <==> id in m && m[id].fInTried
  {
  }

  function Deleted(s: State, id: int): (r: State)
    requires id in s.info && RandomIndex(s.info, s.random)
    ensures r.info.Keys == s.info.Keys - {id} && r.fresh' == s.fresh'
  {
    var (m, r) := Swapped(s.info, s.random, s.info[id].nRandomPos, |s.random| - 1);
    s.(random := r[..|r| - 1], addr := s.addr - {s.info[id].Addr()}, info := m - {id}, nNew := s.nNew - 1)
  }

  lemma SwapToEnd(s: State, id: int)
    requires RandomIndex(s.info, s.random) && AddrIndex(s.info, s.addr) && Numbered(s.info, s.nIdCount)
    requires id in s.info
    ensures 0 <= s.info[id].nRandomPos < |s.random| && s.random[s.info[id].nRandomPos] in s.info && s.random[|s.random| - 1] in s.info
    ensures var (m, r) := Swapped(s.info, s.random, s.info[id].nRandomPos, |s.random| - 1);
            && RandomIndex(m, r) && AddrIndex(m, s.addr) && SamePlaces(s.info, m)
            && |r| == |s.random| && r[|r| - 1] == id && id != -1 && m[id].Addr() == s.info[id].Addr()
            && Numbered(m - {id}, s.nIdCount) && SameUpToPos(s.info - {id}, m - {id})
  {
    SwapKeepsIndex(s.info, s.random, s.addr, s.info[id].nRandomPos, |s.random| - 1);
  }

  lemma DeleteKeeps(s: State, id: int, loose: set<int>, lag: int)
    requires Inv(s, loose, lag)
    requires id in s.info && !s.info[id].fInTried && s.info[id].nRefCount == 0
    ensures Inv(Deleted(s, id), loose - {id}, lag)
    ensures SameUpToPos(s.info - {id}, Deleted(s, id).info)
  {
    hide Places.NewPlaced, Places.TriedPlaced, Places.RefsOk, RandomIndex, AddrIndex, NewIds, TriedIds, Numbered, SamePlaces, SameUpToPos,
         Swapped, Sized;
    SwapToEnd(s, id);
    var (m, r) := Swapped(s.info, s.random, s.info[id].nRandomPos, |s.random| - 1);
    PlacesKept(s.w, s.info, m, s.tried, s.fresh', loose);
    DropLastKeepsIndex(m, r, s.addr);
    RemoveLoose(s.w, m, s.tried, s.fresh', loose, id);
    NewIdsMember(m, id);
  }

  // One reference dropped, the entry still present.
  function Unreferenced(s: State, b: nat, p: nat): State
    requires Sized(s.fresh', NEW_BUCKET_COUNT) && b < NEW_BUCKET_COUNT && p < BUCKET_SIZE && s.fresh'[b][p] in s.info
  {
    var d := s.fresh'[b][p];
    s.(info := s.info[d := s.info[d].(nRefCount := s.info[d].nRefCount - 1)], fresh' := Set(s.fresh', b, p, -1))
  }

  lemma UnreferenceKeeps(s: State, b: nat, p: nat, loose: set<int>, lag: int)
    requires Inv(s, loose, lag) && b < NEW_BUCKET_COUNT && p < BUCKET_SIZE && s.fresh'[b][p] != -1
    ensures s.fresh'[b][p] in s.info && !s.info[s.fresh'[b][p]].fInTried && s.info[s.fresh'[b][p]].nRefCount > 0
    ensures Inv(Unreferenced(s, b, p), loose + {s.fresh'[b][p]}, lag)
    ensures s.info[s.fresh'[b][p]].nRefCount > 1 ==> Inv(Unreferenced(s, b, p), loose, lag)
  {
    hide Places.NewPlaced, Places.TriedPlaced, Places.RefsOk, RandomIndex, AddrIndex, NewIds, TriedIds;
    ClearSlot(s.w, s.info, s.fresh', loose, b, p);
    var r := Unreferenced(s, b, p);
    TriedKept(s.w, s.info, r.info, s.tried);
    IndexKept(s.info, r.info, s.random, s.addr);
    if s.info[s.fresh'[b][p]].nRefCount > 1 {
      TightenLoose(s.w, r.info, r.fresh', loose, s.fresh'[b][p]);
    }
  }

  lemma TightenLoose(w: Places, m: InfoMap, t: Table, loose: set<int>, d: int)
    requires w.RefsOk(m, t, loose + {d}) && d in m && !m[d].fInTried && m[d].nRefCount > 0
    ensures w.RefsOk(m, t, loose)
  {
    forall id | id in m ensures w.RefOk(t, loose, id, m[id]) { assert w.RefOk(t, loose + {d}, id, m[id]); }
  }

  lemma IndexKept(m: InfoMap, n: InfoMap, vRandom: seq<int>, mapAddr: map<NetAddr, int>)
    requires RandomIndex(m, vRandom) && AddrIndex(m, mapAddr) && m.Keys == n.Keys
    requires forall id :: id in m ==> m[id].nRandomPos == n[id].nRandomPos && m[id].Addr() == n[id].Addr()
    ensures RandomIndex(n, vRandom) && AddrIndex(n, mapAddr)
  {
  }

  function ClearedNew(s: State, b: nat, p: nat): (r: State)
    requires RandomIndex(s.info, s.random)
    requires Sized(s.fresh', NEW_BUCKET_COUNT) && b < NEW_BUCKET_COUNT && p < BUCKET_SIZE
    requires s.fresh'[b][p] != -1 ==> s.fresh'[b][p] in s.info
    ensures Sized(r.fresh', NEW_BUCKET_COUNT)
    ensures forall id :: id in s.info && id != s.fresh'[b][p] ==> id in r.info
  {
    if s.fresh'[b][p] == -1 then s
    else
      var r := Unreferenced(s, b, p);
      if r.info[s.fresh'[b][p]].nRefCount == 0 then Deleted(r, s.fresh'[b][p]) else r
  }

  lemma ClearNewKeeps(s: State, b: nat, p: nat, loose: set<int>, lag: int)
    requires Inv(s, loose, lag) && b < NEW_BUCKET_COUNT && p < BUCKET_SIZE
    requires s.fresh'[b][p] !in loose
    ensures s.fresh'[b][p] != -1 ==> s.fresh'[b][p] in s.info
    ensures var r := ClearedNew(s, b, p);
            && Inv(r, loose, lag) && r.fresh' == Set(s.fresh', b, p, -1)
            && r.w == s.w && r.tried == s.tried && r.nIdCount == s.nIdCount && r.nLastGood == s.nLastGood
            && OthersKept(s.info, r.info, s.fresh'[b][p])
  {
    hide Inv, RandomIndex, AddrIndex, Deleted, SameUpToPos, OthersKept;
    InvFacts(s, loose, lag);
    var d := s.fresh'[b][p];
    if d == -1 {
      assert s.fresh'[b][p := -1] == s.fresh'[b];
      OthersKeptBySame(s.info, d);
    } else {
      UnreferenceKeeps(s, b, p, loose, lag);
      var r := Unreferenced(s, b, p);
      InvFacts(r, loose + {d}, lag);
      if r.info[d].nRefCount == 0 {
        DeleteKeeps(r, d, loose + {d}, lag);
        DeletedKeepsOthers(r, d);
        assert loose + {d} - {d} == loose;
        OthersKeptByDelete(s.info, r.info, Deleted(r, d).info, d);
      } else {
        OthersKeptByCount(s.info, r.info, d);
      }
    }
  }

  lemma InvFacts(s: State, loose: set<int>, lag: int)
    requires Inv(s, loose, lag)
    ensures RandomIndex(s.info, s.random) && AddrIndex(s.info, s.addr) && Numbered(s.info, s.nIdCount)
    ensures s.w.NewPlaced(s.info, s.fresh')
    ensures Sized(s.fresh', NEW_BUCKET_COUNT) && Sized(s.tried, TRIED_BUCKET_COUNT)
  {
  }

  lemma TriedSlotHolds(s: State, loose: set<int>, lag: int, b: nat, p: nat)
    requires Inv(s, loose, lag) && b < TRIED_BUCKET_COUNT && p < BUCKET_SIZE && s.tried[b][p] != -1
    ensures var id := s.tried[b][p];
            id in s.info && s.info[id].fInTried && s.w.KBucket(s.info[id].address.service) == b && s.w.KPos(s.info[id].address.service) == p
  {
  }

  lemma NewSlotHolds(s: State, loose: set<int>, lag: int, b: nat, p: nat)
    requires Inv(s, loose, lag) && b < NEW_BUCKET_COUNT && p < BUCKET_SIZE
    ensures var id := s.fresh'[b][p];
            id != -1 ==> id in s.info && !s.info[id].fInTried && s.info[id].nRefCount > 0
  {
    if s.fresh'[b][p] != -1 {
      SlotHolds(s.w, s.info, s.fresh', b, p);
      assert s.w.RefOk(s.fresh', loose, s.fresh'[b][p], s.info[s.fresh'[b][p]]);
    }
  }

  lemma DeletedKeepsOthers(s: State, id: int)
    requires id in s.info && RandomIndex(s.info, s.random)
    ensures var r := Deleted(s, id);
            r.w == s.w && r.fresh' == s.fresh' && r.tried == s.tried && r.nTried == s.nTried
            && r.nIdCount == s.nIdCount && r.nLastGood == s.nLastGood && r.nNew == s.nNew - 1
  {
  }

  lemma OthersKeptBySame(m: InfoMap, d: int)
    ensures OthersKept(m, m, d)
  {
  }

  lemma OthersKeptByCount(m: InfoMap, n: InfoMap, d: int)
    requires d in m && n == m[d := m[d].(nRefCount := m[d].nRefCount - 1)]
    ensures OthersKept(m, n, d)
  {
  }

  lemma OthersKeptByDelete(m: InfoMap, n: InfoMap, k: InfoMap, d: int)
    requires d in m && n == m[d := m[d].(nRefCount := m[d].nRefCount - 1)]
    requires SameUpToPos(n - {d}, k)
    ensures OthersKept(m, k, d)
  {
  }

  // Entries other than d survive, up to their position in vRandom.
  ghost predicate OthersKept(m: InfoMap, n: InfoMap, d: int) {
    && (forall id :: id in m && id != d ==> id in n && WithPos(m[id], 0) == WithPos(n[id], 0))
    && (forall id :: id in n ==> id in m && WithPos(m[id].(nRefCount := 0), 0) == WithPos(n[id].(nRefCount := 0), 0))
  }

  // x enters an empty slot that is its own.
  function Referenced(s: State, b: nat, p: nat, x: int): State
    requires Sized(s.fresh', NEW_BUCKET_COUNT) && b < NEW_BUCKET_COUNT && p < BUCKET_SIZE && x in s.info
  {
    s.(info := s.info[x := s.info[x].(nRefCount := s.info[x].nRefCount + 1)], fresh' := Set(s.fresh', b, p, x))
  }

  lemma ReferenceKeeps(s: State, b: nat, p: nat, x: int, loose: set<int>, lag: int)
    requires Inv(s, loose, lag) && b < NEW_BUCKET_COUNT && p < BUCKET_SIZE && s.fresh'[b][p] == -1
    requires x in s.info && !s.info[x].fInTried && s.info[x].nRefCount < NEW_BUCKETS_PER_ADDRESS
    requires s.w.NewPos(s.info[x].address.service, b) == p
    ensures Inv(Referenced(s, b, p, x), loose - {x}, lag)
  {
    hide Places.NewPlaced, Places.TriedPlaced, Places.RefsOk, RandomIndex, AddrIndex, NewIds, TriedIds;
    FillSlot(s.w, s.info, s.fresh', loose, b, p, x);
    var r := Referenced(s, b, p, x);
    TriedKept(s.w, s.info, r.info, s.tried);
    IndexKept(s.info, r.info, s.random, s.addr);
  }

  // The state after x has been taken out of the first k new buckets.
  function Removed(s: State, x: int, k: nat): (r: State)
    requires Sized(s.fresh', NEW_BUCKET_COUNT) && x in s.info && k <= NEW_BUCKET_COUNT
    ensures Sized(r.fresh', NEW_BUCKET_COUNT) && x in r.info
  {
    if k == 0 then s
    else
      var t := Removed(s, x, k - 1);
      var p := s.w.NewPos(s.info[x].address.service, k - 1);
      if t.fresh'[k - 1][p] == x then Unreferenced(t, k - 1, p) else t
  }

  lemma {:induction false} RemoveKeeps(s: State, x: int, k: nat)
    requires Inv(s, {}, 0) && x in s.info && k <= NEW_BUCKET_COUNT && !s.info[x].fInTried
    ensures var r := Removed(s, x, k);
            && Inv(r, {x}, 0)
            && r.info == s.info[x := s.info[x].(nRefCount := r.info[x].nRefCount)]
            && r == s.(info := r.info, fresh' := r.fresh')
            && forall b :: 0 <= b < k ==> r.fresh'[b][s.w.NewPos(s.info[x].address.service, b)] != x
  {
    hide Inv, RandomIndex, AddrIndex, Places.NewPlaced, BucketPosition;
    InvFacts(s, {}, 0);
    if k == 0 {
      LoosenOne(s, x);
    } else {
      RemoveKeeps(s, x, k - 1);
      var t := Removed(s, x, k - 1);
      var p := s.w.NewPos(s.info[x].address.service, k - 1);
      if t.fresh'[k - 1][p] == x {
        InvFacts(t, {x}, 0);
        UnreferenceKeeps(t, k - 1, p, {x}, 0);
        assert {x} + {x} == {x};
      }
    }
  }

  lemma RemovedStart(s: State, x: int)
    requires Inv(s, {}, 0) && x in s.info
    ensures Sized(s.fresh', NEW_BUCKET_COUNT) && Removed(s, x, 0) == s
  {
  }

  // One bucket at a time.
  lemma RemovedNext(s: State, x: int, k: nat)
    requires Inv(s, {}, 0) && x in s.info && k < NEW_BUCKET_COUNT && !s.info[x].fInTried
    ensures Sized(s.fresh', NEW_BUCKET_COUNT)
    ensures var t, p := Removed(s, x, k), s.w.NewPos(s.info[x].address.service, k);
            && t.w == s.w && t.info[x].address.service == s.info[x].address.service
            && Removed(s, x, k + 1) ==
               if t.fresh'[k][p] == x then t.(info := t.info[x := t.info[x].(nRefCount := t.info[x].nRefCount - 1)], fresh' := Set(t.fresh', k, p, -1))
               else t
  {
    hide Inv, RandomIndex, AddrIndex, Places.NewPlaced;
    InvFacts(s, {}, 0);
    RemoveKeeps(s, x, k);
  }

  lemma LoosenOne(s: State, x: int)
    requires Inv(s, {}, 0)
    ensures Inv(s, {x}, 0)
  {
    forall id | id in s.info ensures s.w.RefOk(s.fresh', {x}, id, s.info[id]) { assert s.w.RefOk(s.fresh', {}, id, s.info[id]); }
  }

  // After all buckets the reference count has gone down to zero.
  lemma RemoveAll(s: State, x: int)
    requires Inv(s, {}, 0) && x in s.info && !s.info[x].fInTried
    ensures var r := Removed(s, x, NEW_BUCKET_COUNT);
            && Inv(r, {x}, 0) && r.info == s.info[x := s.info[x].(nRefCount := 0)]
            && r == s.(info := r.info, fresh' := r.fresh')
  {
    RemoveKeeps(s, x, NEW_BUCKET_COUNT);
    var r := Removed(s, x, NEW_BUCKET_COUNT);
    assert s.w.Slots(r.fresh', x, s.info[x].address.service) == {};
    assert s.w.RefOk(r.fresh', {x}, x, r.info[x]);
  }

  function LeftTried(s: State, x: int): State
    requires Sized(s.tried, TRIED_BUCKET_COUNT) && x in s.info
  {
    var srv := s.info[x].address.service;
    s.(info := s.info[x := s.info[x].(fInTried := false)],
       tried := Set(s.tried, s.w.KBucket(srv), s.w.KPos(srv), -1),
       nTried := s.nTried - 1)
  }

  lemma LeaveTriedKeeps(s: State, x: int, loose: set<int>, lag: int)
    requires Inv(s, loose, lag) && x in s.info && s.info[x].fInTried
    ensures Inv(LeftTried(s, x), loose + {x}, lag + 1)
  {
    hide Places.NewPlaced, Places.TriedPlaced, Places.RefsOk, RandomIndex, AddrIndex, NewIds, TriedIds;
    LeaveTried(s.w, s.info, s.tried, s.fresh', loose, x);
    NewIdsMember(s.info, x);
    IndexKept(s.info, LeftTried(s, x).info, s.random, s.addr);
  }

  function EnteredTried(s: State, x: int): State
    requires Sized(s.tried, TRIED_BUCKET_COUNT) && x in s.info
  {
    var srv := s.info[x].address.service;
    s.(info := s.info[x := s.info[x].(fInTried := true)],
       tried := Set(s.tried, s.w.KBucket(srv), s.w.KPos(srv), x),
       nTried := s.nTried + 1)
  }

  lemma EnterTriedKeeps(s: State, x: int, loose: set<int>, lag: int)
    requires Inv(s, loose, lag) && x in s.info && !s.info[x].fInTried && s.info[x].nRefCount == 0
    requires s.tried[s.w.KBucket(s.info[x].address.service)][s.w.KPos(s.info[x].address.service)] == -1
    ensures Inv(EnteredTried(s, x), loose - {x}, lag - 1)
  {
    hide Places.NewPlaced, Places.TriedPlaced, Places.RefsOk, RandomIndex, AddrIndex, NewIds, TriedIds;
    EnterTried(s.w, s.info, s.tried, s.fresh', loose, x);
    NewIdsMember(s.info, x);
    IndexKept(s.info, EnteredTried(s, x).info, s.random, s.addr);
  }

  // The entry e that occupies a tried slot goes back to the new table, evicting whatever is in its way.
  function Evicted(s: State, e: int): State
    requires Sized(s.tried, TRIED_BUCKET_COUNT) && Sized(s.fresh', NEW_BUCKET_COUNT) && e in s.info
    requires RandomIndex(s.info, s.random) && s.w.NewPlaced(s.info, s.fresh') && s.info[e].fInTried
  {
    var srv := s.info[e].address.service;
    var b := NewBucket(s.w.h, s.w.key, srv, s.info[e].source);
    var p := s.w.NewPos(srv, b);
    var r := ClearedNew(LeftTried(s, e), b, p);
    Referenced(r, b, p, e).(nNew := r.nNew + 1)
  }

  lemma UnreferencedNowhere(s: State, loose: set<int>, lag: int, y: int)
    requires Inv(s, loose, lag) && y in s.info && (s.info[y].nRefCount == 0 || s.info[y].fInTried)
    ensures s.info[y].nRefCount == 0
    ensures forall b, p :: 0 <= b < NEW_BUCKET_COUNT && 0 <= p < BUCKET_SIZE ==> s.fresh'[b][p] != y
  {
    assert s.w.RefOk(s.fresh', loose, y, s.info[y]);
    NoSlots(s.w, s.info, s.fresh', y);
  }

  lemma LagShift(s: State, loose: set<int>, lag: int, step: int)
    requires Inv(s, loose, lag)
    ensures Inv(s.(nNew := s.nNew + step), loose, lag - step)
  {
  }

  // x is on its way to the tried table, so it has left every new bucket.
  // The steps of an eviction are possible: the slot to clear holds a referenced entry, and e has no reference yet.
  lemma EvictSteps(s: State, e: int, x: int)
    requires Inv(s, {x}, 1) && x in s.info && !s.info[x].fInTried && s.info[x].nRefCount == 0
    requires e in s.info && s.info[e].fInTried
    ensures Sized(s.tried, TRIED_BUCKET_COUNT) && Sized(s.fresh', NEW_BUCKET_COUNT)
    ensures var t, srv := LeftTried(s, e), s.info[e].address.service;
            var b := NewBucket(s.w.h, s.w.key, srv, s.info[e].source);
            var p := s.w.NewPos(srv, b);
            var there := s.fresh'[b][p];
            && RandomIndex(s.info, s.random) && s.w.NewPlaced(s.info, s.fresh') && RandomIndex(t.info, t.random)
            && (there != -1 ==> there in t.info && !t.info[there].fInTried && t.info[there].nRefCount > 0)
            && (var r := ClearedNew(t, b, p);
                e in r.info && r.info[e].nRefCount == 0 && Sized(r.fresh', NEW_BUCKET_COUNT) && r.fresh'[b][p] == -1)
  {
    hide Inv, RandomIndex, AddrIndex, Places.NewPlaced, ClearedNew, OthersKept;
    InvFacts(s, {x}, 1);
    UnreferencedNowhere(s, {x}, 1, e);
    UnreferencedNowhere(s, {x}, 1, x);
    LeaveTriedKeeps(s, e, {x}, 1);
    var srv := s.info[e].address.service;
    var b := NewBucket(s.w.h, s.w.key, srv, s.info[e].source);
    var p := s.w.NewPos(srv, b);
    var t := LeftTried(s, e);
    InvFacts(t, {x} + {e}, 2);
    NewSlotHolds(t, {x} + {e}, 2, b, p);
    ClearNewKeeps(t, b, p, {x} + {e}, 2);
    OtherKept(t.info, ClearedNew(t, b, p).info, t.fresh'[b][p], e);
  }

  lemma TimesTouched(m: InfoMap, id: int, i: AddrInfo)
    requires TimesOk(m) && id in m && i.nLastTry == m[id].nLastTry && i.nLastSuccess == m[id].nLastSuccess && (i.fInTried ==> m[id].fInTried)
    ensures TimesOk(m[id := i])
  {
  }

  lemma EvictKeeps(s: State, e: int, x: int)
    requires Inv(s, {x}, 1) && x in s.info && !s.info[x].fInTried && s.info[x].nRefCount == 0
    requires e in s.info && s.info[e].fInTried
    ensures var r := Evicted(s, e);
            && Inv(r, {x}, 1) && r.tried == LeftTried(s, e).tried
            && x in r.info && WithPos(r.info[x], 0) == WithPos(s.info[x], 0)
            && r.w == s.w && r.nIdCount == s.nIdCount && r.nLastGood == s.nLastGood
            && (TimesOk(s.info) ==> TimesOk(r.info))
  {
    hide Inv, RandomIndex, AddrIndex, Places.NewPlaced, ClearedNew, OthersKept, TimesOk, NewBucket, BucketPosition, TriedBucket;
    InvFacts(s, {x}, 1);
    UnreferencedNowhere(s, {x}, 1, e);
    UnreferencedNowhere(s, {x}, 1, x);
    LeaveTriedKeeps(s, e, {x}, 1);
    var srv := s.info[e].address.service;
    var b := NewBucket(s.w.h, s.w.key, srv, s.info[e].source);
    var p := s.w.NewPos(srv, b);
    var t := LeftTried(s, e);
    InvFacts(t, {x} + {e}, 2);
    ClearNewKeeps(t, b, p, {x} + {e}, 2);
    var r := ClearedNew(t, b, p);
    InvFacts(r, {x} + {e}, 2);
    if TimesOk(s.info) {
      TimesTouched(s.info, e, t.info[e]);
      OthersTimes(t.info, r.info, t.fresh'[b][p]);
      TimesTouched(r.info, e, Referenced(r, b, p, e).info[e]);
    }
    OtherKept(t.info, r.info, t.fresh'[b][p], e);
    OtherKept(t.info, r.info, t.fresh'[b][p], x);
    ReferenceKeeps(r, b, p, e, {x} + {e}, 2);
    assert {x} + {e} - {e} == {x};
    LagShift(Referenced(r, b, p, e), {x}, 2, 1);
  }

  lemma OtherKept(m: InfoMap, n: InfoMap, d: int, id: int)
    requires OthersKept(m, n, d) && id in m && id != d
    ensures id in n && WithPos(m[id], 0) == WithPos(n[id], 0)
  {
  }

  lemma OthersTimes(m: InfoMap, n: InfoMap, d: int)
    requires OthersKept(m, n, d) && TimesOk(m)
    ensures TimesOk(n)
  {
  }

  // x has left the new table and its tried slot is free, the occupant having been evicted.
  function Vacated(s: State, x: int): State
    requires Inv(s, {}, 0) && x in s.info && !s.info[x].fInTried
  {
    RemoveAll(s, x);
    var t := Removed(s, x, NEW_BUCKET_COUNT).(nNew := s.nNew - 1);
    var occupant := t.tried[s.w.KBucket(s.info[x].address.service)][s.w.KPos(s.info[x].address.service)];
    if occupant == -1 then t else Evicted(t, occupant)
  }

  lemma VacateKeeps(s: State, x: int)
    requires Inv(s, {}, 0) && x in s.info && !s.info[x].fInTried
    ensures var r, srv := Vacated(s, x), s.info[x].address.service;
            && Inv(r, {x}, 1)
            && x in r.info && WithPos(r.info[x], 0) == WithPos(s.info[x].(nRefCount := 0), 0)
            && Sized(r.tried, TRIED_BUCKET_COUNT) && r.tried[s.w.KBucket(srv)][s.w.KPos(srv)] == -1
            && (TimesOk(s.info) ==> TimesOk(r.info))
            && r.w == s.w && r.nIdCount == s.nIdCount && r.nLastGood == s.nLastGood
  {
    hide Evicted, Removed, RandomIndex, AddrIndex, Places.NewPlaced, Places.RefsOk, NewIds, TriedIds;
    RemoveAll(s, x);
    var a := Removed(s, x, NEW_BUCKET_COUNT);
    var t := a.(nNew := s.nNew - 1);
    LagShift(a, {x}, 0, -1);
    var srv := s.info[x].address.service;
    var occupant := t.tried[s.w.KBucket(srv)][s.w.KPos(srv)];
    if occupant != -1 {
      EvictKeeps(t, occupant, x);
      InvFacts(Evicted(t, occupant), {x}, 1);
    }
  }

  function MadeTried(s: State, x: int): State
    requires Inv(s, {}, 0) && x in s.info && !s.info[x].fInTried
  {
    VacateKeeps(s, x);
    EnteredTried(Vacated(s, x), x)
  }

  lemma MakeTriedKeeps(s: State, x: int)
    requires Inv(s, {}, 0) && x in s.info && !s.info[x].fInTried
    ensures var r := MadeTried(s, x);
            && Inv(r, {}, 0) && x in r.info && r.info[x].fInTried
            && r.info[x] == s.info[x].(nRefCount := 0, fInTried := true, nRandomPos := r.info[x].nRandomPos)
            && (TimesOk(s.info) && s.info[x].nLastSuccess != 0 ==> TimesOk(r.info))
            && r.w == s.w && r.nIdCount == s.nIdCount && r.nLastGood == s.nLastGood
  {
    hide Inv, Vacated;
    VacateKeeps(s, x);
    EnterTriedKeeps(Vacated(s, x), x, {x}, 1);
    assert {x} - {x} == {};
  }

  // --- The public operations ---

  function Touched(s: State, id: int, i: AddrInfo): State { s.(info := s.info[id := i]) }

  lemma TouchKeeps(s: State, id: int, i: AddrInfo, loose: set<int>, lag: int)
    requires Inv(s, loose, lag) && id in s.info && SameRole(s.info[id], i)
    ensures Inv(Touched(s, id, i), loose, lag)
  {
    hide Places.NewPlaced, Places.TriedPlaced, Places.RefsOk, RandomIndex, AddrIndex, NewIds, TriedIds;
    PlacesKept(s.w, s.info, s.info[id := i], s.tried, s.fresh', loose);
    IndexKept(s.info, s.info[id := i], s.random, s.addr);
  }

  lemma SwapInside(m: InfoMap, r: seq<int>, p: int, q: int)
    requires RandomIndex(m, r) && 0 <= p < |r| && 0 <= q < |r|
    ensures r[p] in m && r[q] in m
  {
  }

  lemma SamePosPlaces(m: InfoMap, n: InfoMap, nIdCount: int)
    requires SameUpToPos(m, n) && Numbered(m, nIdCount)
    ensures SamePlaces(m, n) && Numbered(n, nIdCount)
  {
    forall id | id in m ensures SameRoleUpToPos(m[id], n[id]) {
      assert WithPos(m[id], 0) == WithPos(n[id], 0);
    }
  }

  predicate SameRoleUpToPos(i: AddrInfo, j: AddrInfo) {
    i.address.service == j.address.service && i.fInTried == j.fInTried && i.nRefCount == j.nRefCount
  }

  lemma SwapKeeps(s: State, p: int, q: int)
    requires Inv(s, {}, 0) && 0 <= p < |s.random| && 0 <= q < |s.random|
    ensures s.random[p] in s.info && s.random[q] in s.info
    ensures var (m, r) := Swapped(s.info, s.random, p, q);
            Inv(s.(info := m, random := r), {}, 0) && SameUpToPos(s.info, m) && |r| == |s.random|
  {
    hide Places.NewPlaced, Places.TriedPlaced, Places.RefsOk, RandomIndex, AddrIndex, NewIds, TriedIds, SamePlaces, SameUpToPos, Numbered,
         Sized;
    SwapInside(s.info, s.random, p, q);
    var (m, r) := Swapped(s.info, s.random, p, q);
    SwapKeepsIndex(s.info, s.random, s.addr, p, q);
    SamePosPlaces(s.info, m, s.nIdCount);
    PlacesKept(s.w, s.info, m, s.tried, s.fresh', {});
  }

  // The entry for exactly this service, including the port.
  predicate Known(s: State, srv: Service) {
    srv.addr in s.addr && s.addr[srv.addr] in s.info && s.info[s.addr[srv.addr]].address.service == srv
  }

  lemma TouchKnown(s: State, srv: Service, i: AddrInfo)
    requires Consistent(s) && Known(s, srv) && SameRole(s.info[s.addr[srv.addr]], i)
    ensures Inv(Touched(s, s.addr[srv.addr], i), {}, 0)
    ensures Consistent(Touched(s, s.addr[srv.addr], i))
            <==> i.nLastTry >= 0 && i.nLastSuccess >= 0 && (i.fInTried ==> i.nLastSuccess != 0)
  {
    hide Inv;
    TouchKeeps(s, s.addr[srv.addr], i, {}, 0);
    assert Touched(s, s.addr[srv.addr], i).info[s.addr[srv.addr]] == i;
  }

  // An update of the one entry for this service.
  ghost function OnKnown(s: State, srv: Service, f: AddrInfo -> AddrInfo): State {
    if Known(s, srv) then Touched(s, s.addr[srv.addr], f(s.info[s.addr[srv.addr]])) else s
  }

  function Attempted(i: AddrInfo, fCountFailure: bool, nTime: int, nLastGood: int): AddrInfo {
    var j := i.(nLastTry := nTime);
    if fCountFailure && i.nLastCountAttempt < nLastGood
    then j.(nLastCountAttempt := nTime, nAttempts := i.nAttempts + 1) else j
  }

  function Seen(i: AddrInfo, nTime: int): AddrInfo {
    if nTime - i.address.nTime > 20 * 60 then i.(address := i.address.(nTime := nTime)) else i
  }

  function Rotate(k: nat, start: nat): (b: nat)
    ensures b < NEW_BUCKET_COUNT
  {
    (k + start) % NEW_BUCKET_COUNT
  }

  function MarkedGood(i: AddrInfo, nTime: int): AddrInfo {
    i.(nLastSuccess := nTime, nLastTry := nTime, nAttempts := 0)
  }

  function GoodResult(s: State, srv: Service, nTime: int): State
    requires Inv(s, {}, 0)
  {
    var s0 := s.(nLastGood := nTime);
    if !Known(s, srv) then s0
    else
      var id := s.addr[srv.addr];
      var s1 := Touched(s0, id, MarkedGood(s.info[id], nTime));
      TouchKeeps(s0, id, MarkedGood(s.info[id], nTime), {}, 0);
      if s.info[id].fInTried then s1 else MadeTried(s1, id)
  }

  // The structure survives any call; the recorded times stay sane exactly for a positive clock.
  lemma LastGoodKeeps(s: State, nTime: int)
    requires Inv(s, {}, 0)
    ensures Inv(s.(nLastGood := nTime), {}, 0)
  {
  }

  lemma GoodKeeps(s: State, srv: Service, nTime: int)
    requires Consistent(s)
    ensures Inv(GoodResult(s, srv, nTime), {}, 0)
    ensures Consistent(GoodResult(s, srv, nTime)) <==> (Known(s, srv) ==> nTime > 0)
    ensures Known(s, srv) ==> Known(GoodResult(s, srv, nTime), srv) && s.addr[srv.addr] in GoodResult(s, srv, nTime).info
                              && GoodResult(s, srv, nTime).info[s.addr[srv.addr]].fInTried
  {
    hide Inv, MadeTried, RandomIndex, AddrIndex, Places.NewPlaced, Sized;
    InvFacts(s, {}, 0);
    var s0 := s.(nLastGood := nTime);
    LastGoodKeeps(s, nTime);
    if Known(s, srv) {
      var id := s.addr[srv.addr];
      var i := MarkedGood(s.info[id], nTime);
      var s1 := Touched(s0, id, i);
      TouchKeeps(s0, id, i, {}, 0);
      if s.info[id].fInTried {
        assert nTime > 0 ==> TimesOk(s1.info);
      } else {
        MakeTriedKeeps(s1, id);
        var r := MadeTried(s1, id);
        assert nTime > 0 ==> TimesOk(s1.info);
        InvFacts(r, {}, 0);
        assert r.info[id].Addr() == srv.addr;
      }
    }
  }

  // An unlisted entry is never in the tried table, and a listed untried one is in some new bucket.
  lemma InSomeBucket(s: State, id: int)
    requires Inv(s, {}, 0) && id in s.info && !s.info[id].fInTried
    ensures exists b :: 0 <= b < NEW_BUCKET_COUNT && s.fresh'[b][s.w.NewPos(s.info[id].address.service, b)] == id
  {
    assert s.w.RefOk(s.fresh', {}, id, s.info[id]);
    var b :| b in s.w.Slots(s.fresh', id, s.info[id].address.service);
  }

  function Joined(services: bv64, more: bv64): bv64 { services | more }

  function Refreshed(i: AddrInfo, a: Address, penalty: int, nNow: int): AddrInfo {
    var interval := if nNow - a.nTime < DAY then 60 * 60 else DAY;
    var time := if a.nTime != 0 && (i.address.nTime == 0 || i.address.nTime < a.nTime - interval - penalty)
                then Max(0, a.nTime - penalty) else i.address.nTime;
    i.(address := i.address.(nTime := time, nServices := Joined(i.address.nServices, a.nServices)))
  }

  predicate Overwrites(existing: AddrInfo, mine: AddrInfo, nNow: int) {
    existing.IsTerrible(nNow) || (existing.nRefCount > 1 && mine.nRefCount == 0)
  }

  // Give id a place in the new bucket chosen by the source, or drop it if it has none at all.
  function Placed(s: State, id: int, source: NetAddr, nNow: int): State
    requires Inv(s, {id}, 0) && id in s.info
  {
    var srv := s.info[id].address.service;
    var b := NewBucket(s.w.h, s.w.key, srv, source);
    var p := s.w.NewPos(srv, b);
    var there := s.fresh'[b][p];
    if there == id then s
    else if there == -1 || Overwrites(s.info[there], s.info[id], nNow) then
      Referenced(ClearedNew(s, b, p), b, p, id)
    else if s.info[id].nRefCount == 0 then Deleted(s, id) else s
  }

  // The slot the source leads to is free, or its holder gives way.
  predicate HasRoom(s: State, id: int, source: NetAddr, nNow: int)
    requires Sized(s.fresh', NEW_BUCKET_COUNT) && id in s.info
  {
    var srv := s.info[id].address.service;
    var b := NewBucket(s.w.h, s.w.key, srv, source);
    var there := s.fresh'[b][s.w.NewPos(srv, b)];
    there == id || there == -1 || (there in s.info && Overwrites(s.info[there], s.info[id], nNow))
  }

  /** id ends up in its slot exactly when there is room, no other slot changes, and it goes only if it has no slot at all. */
  lemma PlacedIff(s: State, id: int, source: NetAddr, nNow: int)
    requires Inv(s, {id}, 0) && id in s.info && !s.info[id].fInTried
    ensures Sized(s.fresh', NEW_BUCKET_COUNT)
    ensures var r, b := Placed(s, id, source, nNow), NewBucket(s.w.h, s.w.key, s.info[id].address.service, source);
            && (id in r.info <==> s.info[id].nRefCount != 0 || HasRoom(s, id, source, nNow))
            && r.fresh' == if HasRoom(s, id, source, nNow) then Set(s.fresh', b, s.w.NewPos(s.info[id].address.service, b), id) else s.fresh'
  {
    hide Inv, RandomIndex, AddrIndex, Places.NewPlaced, ClearedNew, Deleted, OthersKept, SameUpToPos;
    InvFacts(s, {id}, 0);
    var srv := s.info[id].address.service;
    var b := NewBucket(s.w.h, s.w.key, srv, source);
    var p := s.w.NewPos(srv, b);
    var there := s.fresh'[b][p];
    NewSlotHolds(s, {id}, 0, b, p);
    if there == id {
      SetTwice(s.fresh', NEW_BUCKET_COUNT, b, p, id, id);
    } else if HasRoom(s, id, source, nNow) {
      ClearNewKeeps(s, b, p, {id}, 0);
      OtherKept(s.info, ClearedNew(s, b, p).info, there, id);
      SetTwice(s.fresh', NEW_BUCKET_COUNT, b, p, -1, id);
    } else if s.info[id].nRefCount == 0 {
      DeletedKeepsOthers(s, id);
    }
  }

  lemma PlaceKeeps(s: State, id: int, source: NetAddr, nNow: int)
    requires Inv(s, {id}, 0) && TimesOk(s.info)
    requires id in s.info && !s.info[id].fInTried && s.info[id].nRefCount < NEW_BUCKETS_PER_ADDRESS
    ensures Consistent(Placed(s, id, source, nNow))
    ensures Placed(s, id, source, nNow).w == s.w
    ensures s.info[id].nRefCount > 0 ==> id in Placed(s, id, source, nNow).info
  {
    hide Inv, RandomIndex, AddrIndex, Places.NewPlaced, ClearedNew, Deleted, OthersKept, SameUpToPos;
    InvFacts(s, {id}, 0);
    var srv := s.info[id].address.service;
    var b := NewBucket(s.w.h, s.w.key, srv, source);
    var p := s.w.NewPos(srv, b);
    var there := s.fresh'[b][p];
    if there == id {
      PlacedIsReferenced(s, id, b, {id}, 0);
      Tighten(s, id);
    } else if there == -1 || Overwrites(s.info[there], s.info[id], nNow) {
      ClearNewKeeps(s, b, p, {id}, 0);
      var r := ClearedNew(s, b, p);
      OtherKept(s.info, r.info, there, id);
      OthersTimes(s.info, r.info, there);
      InvFacts(r, {id}, 0);
      ReferenceKeeps(r, b, p, id, {id}, 0);
      assert {id} - {id} == {};
    } else if s.info[id].nRefCount == 0 {
      DeleteKeeps(s, id, {id}, 0);
      assert {id} - {id} == {};
      DeletedKeepsOthers(s, id);
      DeletedTimes(s.info, Deleted(s, id).info, id);
    } else {
      Tighten(s, id);
    }
  }

  lemma DeletedTimes(m: InfoMap, n: InfoMap, id: int)
    requires TimesOk(m) && SameUpToPos(m - {id}, n)
    ensures TimesOk(n)
  {
  }

  lemma PlacedIsReferenced(s: State, id: int, b: nat, loose: set<int>, lag: int)
    requires Inv(s, loose, lag) && id in s.info && !s.info[id].fInTried && b < NEW_BUCKET_COUNT
    requires s.fresh'[b][s.w.NewPos(s.info[id].address.service, b)] == id
    ensures s.info[id].nRefCount > 0
  {
    assert s.w.RefOk(s.fresh', loose, id, s.info[id]);
    assert b in s.w.Slots(s.fresh', id, s.info[id].address.service);
  }

  lemma Tighten(s: State, id: int)
    requires Inv(s, {id}, 0) && id in s.info && !s.info[id].fInTried && s.info[id].nRefCount != 0
    ensures Inv(s, {}, 0)
  {
    assert s.w.RefOk(s.fresh', {id}, id, s.info[id]);
    assert {} + {id} == {id};
    TightenLoose(s.w, s.info, s.fresh', {}, id);
  }

  function SelfPenalty(a: Address, source: NetAddr, penalty: int): int {
    if a.service.addr == source then 0 else penalty
  }

  // Whether a known entry earns one more reference; lucky is the outcome of the stochastic test.
  predicate WantsReference(i: AddrInfo, a: Address, lucky: bool) {
    && a.nTime != 0 && (i.address.nTime == 0 || a.nTime > i.address.nTime)
    && !i.fInTried && i.nRefCount != NEW_BUCKETS_PER_ADDRESS
    && lucky
  }

  function AddResult(s: State, a: Address, source: NetAddr, penalty: int, nNow: int, lucky: bool): (State, bool)
    requires Consistent(s)
  {
    var penalty' := SelfPenalty(a, source, penalty);
    if !s.w.h.routable(a.service.addr) then (s, false)
    else if a.service.addr in s.addr then
      var id := s.addr[a.service.addr];
      var i := Refreshed(s.info[id], a, penalty', nNow);
      var s1 := Touched(s, id, i);
      TouchKeeps(s, id, i, {}, 0);
      LoosenOne(s1, id);
      if WantsReference(i, a, lucky) then (Placed(s1, id, source, nNow), false) else (s1, false)
    else
      AddFresh(s, a, source, penalty');
      (Placed(Fresh(s, a, source, penalty'), s.nIdCount, source, nNow), true)
  }

  // A new entry, counted but not yet placed.
  function Fresh(s: State, a: Address, source: NetAddr, penalty: int): State {
    var t := Created(s, a, source);
    var i := t.info[s.nIdCount];
    Touched(t, s.nIdCount, i.(address := i.address.(nTime := Max(0, i.address.nTime - penalty)))).(nNew := s.nNew + 1)
  }

  lemma AddFresh(s: State, a: Address, source: NetAddr, penalty: int)
    requires Consistent(s) && a.service.addr !in s.addr
    ensures var r := Fresh(s, a, source, penalty);
            Inv(r, {s.nIdCount}, 0) && TimesOk(r.info) && s.nIdCount in r.info
            && !r.info[s.nIdCount].fInTried && r.info[s.nIdCount].nRefCount == 0
  {
    hide Inv;
    CreateKeeps(s, a, source);
    var t := Created(s, a, source);
    var i := t.info[s.nIdCount];
    var i' := i.(address := i.address.(nTime := Max(0, i.address.nTime - penalty)));
    TouchKeeps(t, s.nIdCount, i', {s.nIdCount}, 1);
    LagShift(Touched(t, s.nIdCount, i'), {s.nIdCount}, 1, 1);
  }

  lemma KnownId(s: State, a: NetAddr)
    requires Inv(s, {}, 0) && a in s.addr
    ensures s.addr[a] in s.info && s.info[s.addr[a]].Addr() == a
    ensures !s.info[s.addr[a]].fInTried ==> 0 < s.info[s.addr[a]].nRefCount <= NEW_BUCKETS_PER_ADDRESS
  {
    assert s.w.RefOk(s.fresh', {}, s.addr[a], s.info[s.addr[a]]);
  }

  lemma AddKeeps(s: State, a: Address, source: NetAddr, penalty: int, nNow: int, lucky: bool)
    requires Consistent(s)
    ensures var (r, isNew) := AddResult(s, a, source, penalty, nNow, lucky);
            && Consistent(r)
            && (isNew <==> s.w.h.routable(a.service.addr) && a.service.addr !in s.addr)
            && (a.service.addr in s.addr ==> a.service.addr in r.addr && r.addr[a.service.addr] == s.addr[a.service.addr])
  {
    hide Placed, Inv, Fresh, RandomIndex, AddrIndex, Places.NewPlaced, Sized;
    var penalty' := SelfPenalty(a, source, penalty);
    if s.w.h.routable(a.service.addr) {
      if a.service.addr in s.addr {
        KnownId(s, a.service.addr);
        var id := s.addr[a.service.addr];
        var i := Refreshed(s.info[id], a, penalty', nNow);
        var s1 := Touched(s, id, i);
        TouchKeeps(s, id, i, {}, 0);
        LoosenOne(s1, id);
        if WantsReference(i, a, lucky) {
          PlaceKeeps(s1, id, source, nNow);
          PlacedAddr(s1, id, source, nNow);
        }
      } else {
        AddFresh(s, a, source, penalty');
        PlaceKeeps(Fresh(s, a, source, penalty'), s.nIdCount, source, nNow);
      }
    }
  }

  // In an empty table a new address finds its slot free.
  lemma AddedToEmpty(s: State, a: Address, source: NetAddr, penalty: int, nNow: int, lucky: bool)
    requires Consistent(s) && s.fresh' == EmptyTable(NEW_BUCKET_COUNT) && a.service.addr !in s.addr && s.w.h.routable(a.service.addr)
    ensures Known(AddResult(s, a, source, penalty, nNow, lucky).0, a.service)
  {
    hide Inv, RandomIndex, AddrIndex, Places.NewPlaced;
    AddFresh(s, a, source, SelfPenalty(a, source, penalty));
    InvFacts(Fresh(s, a, source, SelfPenalty(a, source, penalty)), {s.nIdCount}, 0);
  }

  lemma PlacedAddr(s: State, id: int, source: NetAddr, nNow: int)
    requires Inv(s, {id}, 0) && TimesOk(s.info) && id in s.info && !s.info[id].fInTried
    requires 0 < s.info[id].nRefCount < NEW_BUCKETS_PER_ADDRESS
    ensures var r := Placed(s, id, source, nNow);
            s.info[id].Addr() in r.addr && r.addr[s.info[id].Addr()] == id
  {
    hide Inv, RandomIndex, Places.NewPlaced, ClearedNew, OthersKept;
    PlaceKeeps(s, id, source, nNow);
    InvFacts(s, {id}, 0);
    var r := Placed(s, id, source, nNow);
    InvFacts(r, {}, 0);
    var srv := s.info[id].address.service;
    var b := NewBucket(s.w.h, s.w.key, srv, source);
    var p := s.w.NewPos(srv, b);
    var there := s.fresh'[b][p];
    if there != id && (there == -1 || Overwrites(s.info[there], s.info[id], nNow)) {
      ClearNewKeeps(s, b, p, {id}, 0);
      OtherKept(s.info, ClearedNew(s, b, p).info, there, id);
    }
    assert r.info[id].Addr() == s.info[id].Addr();
  }

  // The sample so far: the good entries from the first n places of vRandom, each once.
  ghost predicate Sampled(m: InfoMap, ids: seq<int>, vAddr: seq<Address>, n: int, nNow: int) {
    && |ids| == |vAddr|
    && (forall k :: 0 <= k < |ids| ==>
          ids[k] in m && m[ids[k]].address == vAddr[k] && !m[ids[k]].IsTerrible(nNow) && m[ids[k]].nRandomPos < n)
    && (forall i, j :: 0 <= i < j < |ids| ==> ids[i] != ids[j])
    && (forall id :: id in m && m[id].nRandomPos < n && !m[id].IsTerrible(nNow) ==> id in ids)
  }

  // The address of some entry that is not of low quality.
  ghost predicate Offered(m: InfoMap, a: Address, nNow: int) {
    exists id :: Offers(m, id, a, nNow)
  }

  predicate Offers(m: InfoMap, id: int, a: Address, nNow: int) {
    id in m && m[id].address == a && !m[id].IsTerrible(nNow)
  }

  // At most 23 percent of the known entries, and at most 2500.
  function SampleLimit(known: nat): (r: nat)
    ensures r <= 2500 && 100 * r <= 23 * known && (r == 2500 || 23 * known < 100 * (r + 1))
  {
    var nodes := GETADDR_MAX_PCT * known / 100;
    if nodes > GETADDR_MAX then GETADDR_MAX else nodes
  }

  lemma SampleStart(m: InfoMap, vRandom: seq<int>, nNow: int)
    requires RandomIndex(m, vRandom)
    ensures Sampled(m, [], [], 0, nNow) && SameUpToPos(m, m)
  {
  }

  lemma SampleNext(m: InfoMap, vRandom: seq<int>, ids: seq<int>, vAddr: seq<Address>, n: int, nNow: int, id: int)
    requires RandomIndex(m, vRandom) && Sampled(m, ids, vAddr, n, nNow) && id in m && m[id].nRandomPos == n
    ensures m[id].IsTerrible(nNow) ==> Sampled(m, ids, vAddr, n + 1, nNow)
    ensures !m[id].IsTerrible(nNow) ==> Sampled(m, ids + [id], vAddr + [m[id].address], n + 1, nNow)
  {
  }

  lemma SampleSwap(m: InfoMap, vRandom: seq<int>, ids: seq<int>, vAddr: seq<Address>, n: int, q: int, nNow: int)
    requires RandomIndex(m, vRandom) && Sampled(m, ids, vAddr, n, nNow) && 0 <= n <= q < |vRandom|
    ensures var (m', r) := Swapped(m, vRandom, n, q);
            Sampled(m', ids, vAddr, n, nNow) && r[n] in m' && m'[r[n]].nRandomPos == n
  {
  }

  lemma SameTwice(a: InfoMap, b: InfoMap, c: InfoMap)
    requires SameUpToPos(a, b) && SameUpToPos(b, c)
    requires TimesOk(b)
    ensures SameUpToPos(a, c) && TimesOk(c)
  {
  }

  // The whole of vRandom was visited: every good entry is offered.
  lemma SampleWhole(m: InfoMap, vRandom: seq<int>, ids: seq<int>, vAddr: seq<Address>, nNow: int)
    requires RandomIndex(m, vRandom) && Sampled(m, ids, vAddr, |vRandom|, nNow)
    ensures forall id :: id in m && !m[id].IsTerrible(nNow) ==> m[id].address in vAddr
  {
    forall id | id in m && !m[id].IsTerrible(nNow) ensures m[id].address in vAddr {
      var k :| 0 <= k < |ids| && ids[k] == id;
      assert vAddr[k] == m[id].address;
    }
  }

  lemma SampleDistinct(s: State, ids: seq<int>, vAddr: seq<Address>, n: int, nNow: int)
    requires AddrIndex(s.info, s.addr) && Sampled(s.info, ids, vAddr, n, nNow)
    ensures forall i, j :: 0 <= i < j < |vAddr| ==> vAddr[i].service.addr != vAddr[j].service.addr
    ensures forall k :: 0 <= k < |vAddr| ==> Offered(s.info, vAddr[k], nNow)
  {
    forall k | 0 <= k < |vAddr| ensures Offered(s.info, vAddr[k], nNow) {
      assert Offers(s.info, ids[k], vAddr[k], nNow);
    }
    forall i, j | 0 <= i < j < |vAddr| ensures vAddr[i].service.addr != vAddr[j].service.addr {
      assert ids[i] in s.info && ids[j] in s.info;
      assert s.addr[s.info[ids[i]].Addr()] == ids[i] && s.addr[s.info[ids[j]].Addr()] == ids[j];
    }
  }
}
