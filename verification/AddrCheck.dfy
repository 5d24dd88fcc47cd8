/** The consistency self-check of the address manager, proved to accept exactly the consistent states. */
module AddrCheck {
  import opened Common
  import opened AddrTables

  // What the self-check takes for granted: the table dimensions, non-negative ids, and that mapAddr has
  // a key for the address of each entry and for nothing else.
  ghost predicate Shaped(s: State) {
    && Sized(s.fresh', NEW_BUCKET_COUNT) && Sized(s.tried, TRIED_BUCKET_COUNT) && Numbered(s.info, s.nIdCount)
    && (forall id :: id in s.info ==> s.info[id].Addr() in s.addr)
    && (forall a :: a in s.addr ==> s.addr[a] in s.info && s.info[s.addr[a]].Addr() == a)
  }

  predicate EntryFine(s: State, id: int)
    requires id in s.info && s.info[id].Addr() in s.addr
  {
    var i := s.info[id];
    && (if i.fInTried then i.nLastSuccess != 0 && i.nRefCount == 0 else 0 < i.nRefCount <= NEW_BUCKETS_PER_ADDRESS)
    && s.addr[i.Addr()] == id
    && 0 <= i.nRandomPos < |s.random| && s.random[i.nRandomPos] == id
    && i.nLastTry >= 0 && i.nLastSuccess >= 0
  }

  function EntryError(s: State, id: int): (err: int)
    requires id in s.info && s.info[id].Addr() in s.addr
    ensures err == 0 <==> EntryFine(s, id)
  {
    var i := s.info[id];
    if i.fInTried && i.nLastSuccess == 0 then -1
    else if i.fInTried && i.nRefCount != 0 then -2
    else if !i.fInTried && (i.nRefCount < 0 || i.nRefCount > NEW_BUCKETS_PER_ADDRESS) then -3
    else if !i.fInTried && i.nRefCount == 0 then -4
    else if s.addr[i.Addr()] != id then -5
    else if i.nRandomPos < 0 || i.nRandomPos >= |s.random| || s.random[i.nRandomPos] != id then -14
    else if i.nLastTry < 0 then -6
    else if i.nLastSuccess < 0 then -8
    else 0
  }

  method Pick<T>(ids: set<T>) returns (n: T)
    requires ids != {}
    ensures n in ids
  {
    n :| n in ids;
  }

  lemma Witness<T>(ids: set<T>) returns (n: T)
    requires ids != {}
    ensures n in ids
  {
    n :| n in ids;
  }

  lemma NothingLeft<T>(a: set<T>, b: set<T>)
    requires a - b == {}
    ensures a <= b
  {
    assert forall x :: x in a ==> x in b || x in a - b;
  }

  ghost function NewRefs(m: InfoMap, ids: set<int>): map<int, int> {
    map id | id in ids && id in m && !m[id].fInTried :: m[id].nRefCount
  }

  ghost function TriedAmong(m: InfoMap, ids: set<int>): set<int> {
    set id | id in ids && id in m && m[id].fInTried
  }

  method CheckEntries(s: State) returns (err: int, setTried: set<int>, mapNew: map<int, int>)
    requires Shaped(s)
    ensures err == 0 <==> forall id :: id in s.info ==> EntryFine(s, id)
    ensures err == 0 ==> setTried == TriedIds(s.info) && mapNew == NewRefs(s.info, s.info.Keys)
  {
    setTried, mapNew := {}, map[];
    var todo := s.info.Keys;
    ghost var done: set<int> := {};
    while todo != {}
      invariant todo !! done && todo + done == s.info.Keys
      invariant setTried == TriedAmong(s.info, done) && mapNew == NewRefs(s.info, done)
      invariant forall id :: id in done ==> EntryFine(s, id)
      decreases todo
    {
      var n := Pick(todo);
      err := EntryError(s, n);
      if err != 0 {
        return;
      }
      EntryDone(s.info, done, n);
      if s.info[n].fInTried {
        setTried := setTried + {n};
      } else {
        mapNew := mapNew[n := s.info[n].nRefCount];
      }
      todo, done := todo - {n}, done + {n};
    }
    assert TriedAmong(s.info, done) == TriedIds(s.info);
    err := 0;
  }

  lemma EntryDone(m: InfoMap, done: set<int>, n: int)
    requires n in m && n !in done
    ensures if m[n].fInTried
            then TriedAmong(m, done + {n}) == TriedAmong(m, done) + {n} && NewRefs(m, done + {n}) == NewRefs(m, done)
            else TriedAmong(m, done + {n}) == TriedAmong(m, done) && NewRefs(m, done + {n}) == NewRefs(m, done)[n := m[n].nRefCount]
  {
  }

  predicate Before(b: int, p: int, n: int, i: int) { b < n || (b == n && p < i) }

  // --- The tried table ---

  predicate TriedSlotFine(s: State, b: nat, p: nat)
    requires b < |s.tried| && p < |s.tried[b]|
  {
    var id := s.tried[b][p];
    id != -1 ==> id in s.info && s.info[id].fInTried && s.w.KBucket(s.info[id].address.service) == b && s.w.KPos(s.info[id].address.service) == p
  }

  // Tried entries that have not been met at their own slot yet.
  ghost function Unmet(s: State, n: int, i: int): set<int>
    requires Sized(s.tried, TRIED_BUCKET_COUNT)
  {
    set id | id in TriedIds(s.info) &&
      var b, p := s.w.KBucket(s.info[id].address.service), s.w.KPos(s.info[id].address.service);
      !(Before(b, p, n, i) && s.tried[b][p] == id)
  }

  ghost predicate TriedFineBefore(s: State, n: int, i: int)
    requires Sized(s.tried, TRIED_BUCKET_COUNT)
  {
    forall b, p :: 0 <= b < TRIED_BUCKET_COUNT && 0 <= p < BUCKET_SIZE && Before(b, p, n, i) ==> TriedSlotFine(s, b, p)
  }

  // Scan the tried table; what is left of the tried entries is in no slot.
  method CheckTried(s: State, tried: set<int>) returns (err: int, setTried: set<int>)
    requires Shaped(s) && tried == TriedIds(s.info)
    ensures err == 0 && setTried == {} <==> s.w.TriedPlaced(s.info, s.tried)
  {
    setTried := tried;
    for n := 0 to TRIED_BUCKET_COUNT
      invariant setTried == Unmet(s, n, 0) && TriedFineBefore(s, n, 0)
    {
      for i := 0 to BUCKET_SIZE
        invariant setTried == Unmet(s, n, i) && TriedFineBefore(s, n, i)
      {
        var id := s.tried[n][i];
        if id != -1 {
          if id !in setTried {
            UnmetMember(s, n, i);
            return -11, setTried;
          }
          if s.w.KBucket(s.info[id].address.service) != n {
            return -17, setTried;
          }
          if s.w.KPos(s.info[id].address.service) != i {
            return -18, setTried;
          }
          setTried := setTried - {id};
        }
        UnmetNext(s, n, i);
      }
      UnmetRow(s, n);
    }
    UnmetAll(s);
    err := 0;
  }

  lemma UnmetMember(s: State, n: nat, i: nat)
    requires Shaped(s) && n < TRIED_BUCKET_COUNT && i < BUCKET_SIZE && s.tried[n][i] != -1
    ensures s.w.TriedPlaced(s.info, s.tried) ==> s.tried[n][i] in Unmet(s, n, i)
  {
  }

  lemma UnmetNext(s: State, n: nat, i: nat)
    requires Shaped(s) && n < TRIED_BUCKET_COUNT && i < BUCKET_SIZE
    requires TriedSlotFine(s, n, i) && TriedFineBefore(s, n, i)
    ensures TriedFineBefore(s, n, i + 1)
    ensures Unmet(s, n, i + 1) == if s.tried[n][i] == -1 then Unmet(s, n, i) else Unmet(s, n, i) - {s.tried[n][i]}
  {
    var a, b := Unmet(s, n, i + 1), Unmet(s, n, i);
    assert forall id :: id in a ==> id in b && id != s.tried[n][i];
    assert forall id :: id in b && id != s.tried[n][i] ==> id in a;
    assert -1 !in b;
  }

  lemma UnmetRow(s: State, n: nat)
    requires Shaped(s) && n < TRIED_BUCKET_COUNT && TriedFineBefore(s, n, BUCKET_SIZE)
    ensures Unmet(s, n + 1, 0) == Unmet(s, n, BUCKET_SIZE) && TriedFineBefore(s, n + 1, 0)
  {
    forall id | id in TriedIds(s.info)
      ensures var b, p := s.w.KBucket(s.info[id].address.service), s.w.KPos(s.info[id].address.service);
              Before(b, p, n + 1, 0) == Before(b, p, n, BUCKET_SIZE)
    {
    }
  }

  lemma UnmetAll(s: State)
    requires Shaped(s) && TriedFineBefore(s, TRIED_BUCKET_COUNT, 0)
    ensures Unmet(s, TRIED_BUCKET_COUNT, 0) == {} <==> s.w.TriedPlaced(s.info, s.tried)
  {
    if Unmet(s, TRIED_BUCKET_COUNT, 0) == {} {
      forall b, p | 0 <= b < TRIED_BUCKET_COUNT && 0 <= p < BUCKET_SIZE && s.tried[b][p] != -1
        ensures var id := s.tried[b][p];
                id in s.info && s.info[id].fInTried && s.w.KBucket(s.info[id].address.service) == b && s.w.KPos(s.info[id].address.service) == p
      {
        assert Before(b, p, TRIED_BUCKET_COUNT, 0) && TriedSlotFine(s, b, p);
      }
      forall id | id in s.info && s.info[id].fInTried
        ensures s.tried[s.w.KBucket(s.info[id].address.service)][s.w.KPos(s.info[id].address.service)] == id
      {
        assert id !in Unmet(s, TRIED_BUCKET_COUNT, 0);
      }
    }
    if Unmet(s, TRIED_BUCKET_COUNT, 0) != {} {
      var id := Witness(Unmet(s, TRIED_BUCKET_COUNT, 0));
      assert s.tried[s.w.KBucket(s.info[id].address.service)][s.w.KPos(s.info[id].address.service)] != id;
    }
  }

  // --- The new table ---

  predicate NewSlotFine(s: State, b: nat, p: nat)
    requires b < |s.fresh'| && p < |s.fresh'[b]|
  {
    var id := s.fresh'[b][p];
    id != -1 ==> id in s.info && !s.info[id].fInTried && s.w.NewPos(s.info[id].address.service, b) == p
  }

  ghost predicate NewFineBefore(s: State, n: int, i: int)
    requires Sized(s.fresh', NEW_BUCKET_COUNT)
  {
    forall b, p :: 0 <= b < NEW_BUCKET_COUNT && 0 <= p < BUCKET_SIZE && Before(b, p, n, i) ==> NewSlotFine(s, b, p)
  }

  // The slots of an entry that the scan has passed.
  ghost function Met(s: State, id: int, n: int, i: int): set<int>
    requires Sized(s.fresh', NEW_BUCKET_COUNT) && id in s.info
  {
    set b | b in s.w.Slots(s.fresh', id, s.info[id].address.service) && Before(b, s.w.NewPos(s.info[id].address.service, b), n, i)
  }

  // What the reference counts come down to, entries at zero erased.
  ghost predicate Counted(s: State, mapNew: map<int, int>, n: int, i: int)
    requires Sized(s.fresh', NEW_BUCKET_COUNT)
  {
    && (forall id :: id in mapNew ==> id in s.info && !s.info[id].fInTried && mapNew[id] > 0)
    && (forall id :: id in s.info && !s.info[id].fInTried ==>
          s.info[id].nRefCount == |Met(s, id, n, i)| + if id in mapNew then mapNew[id] else 0)
  }

  // Scan the new table; what is left of the counts has no slot.
  method CheckNew(s: State, refs: map<int, int>) returns (err: int, mapNew: map<int, int>)
    requires Shaped(s) && refs == NewRefs(s.info, s.info.Keys)
    requires forall id :: id in refs ==> refs[id] > 0
    ensures err == 0 && mapNew == map[] <==> s.w.NewPlaced(s.info, s.fresh') && CountsExact(s)
  {
    hide Counted, NewFineBefore, CountsExact, Places.NewPlaced, NewRefs;
    mapNew := refs;
    CountedStart(s, refs);
    for n := 0 to NEW_BUCKET_COUNT
      invariant Counted(s, mapNew, n, 0) && NewFineBefore(s, n, 0)
    {
      for i := 0 to BUCKET_SIZE
        invariant Counted(s, mapNew, n, i) && NewFineBefore(s, n, i)
      {
        var id := s.fresh'[n][i];
        if id != -1 {
          if id !in mapNew {
            CountedMember(s, mapNew, n, i);
            return -12, mapNew;
          }
          CountedKnown(s, mapNew, n, i, id);
          if s.w.NewPos(s.info[id].address.service, n) != i {
            WrongPlace(s, n, i);
            return -19, mapNew;
          }
          CountedNext(s, mapNew, n, i);
          mapNew := if mapNew[id] == 1 then mapNew - {id} else mapNew[id := mapNew[id] - 1];
        } else {
          CountedSkip(s, mapNew, n, i);
        }
      }
      CountedRow(s, mapNew, n);
    }
    CountedAll(s, mapNew);
    err := 0;
  }

  lemma CountedKnown(s: State, mapNew: map<int, int>, n: nat, i: nat, id: int)
    requires Shaped(s) && Counted(s, mapNew, n, i) && id in mapNew
    ensures id in s.info
  {
  }

  lemma WrongPlace(s: State, n: nat, i: nat)
    requires Shaped(s) && n < NEW_BUCKET_COUNT && i < BUCKET_SIZE && s.fresh'[n][i] != -1 && s.fresh'[n][i] in s.info
    requires s.w.NewPos(s.info[s.fresh'[n][i]].address.service, n) != i
    ensures !s.w.NewPlaced(s.info, s.fresh')
  {
  }

  ghost predicate CountsExact(s: State)
    requires Sized(s.fresh', NEW_BUCKET_COUNT)
  {
    forall id :: id in s.info && !s.info[id].fInTried ==>
      s.info[id].nRefCount == |s.w.Slots(s.fresh', id, s.info[id].address.service)|
  }

  lemma CountedStart(s: State, refs: map<int, int>)
    requires Shaped(s) && refs == NewRefs(s.info, s.info.Keys)
    requires forall id :: id in refs ==> refs[id] > 0
    ensures Counted(s, refs, 0, 0) && NewFineBefore(s, 0, 0)
  {
    forall id | id in s.info ensures Met(s, id, 0, 0) == {} {}
  }

  lemma CountedMember(s: State, mapNew: map<int, int>, n: nat, i: nat)
    requires Shaped(s) && n < NEW_BUCKET_COUNT && i < BUCKET_SIZE && Counted(s, mapNew, n, i)
    requires s.fresh'[n][i] != -1 && s.fresh'[n][i] !in mapNew
    ensures !(s.w.NewPlaced(s.info, s.fresh') && CountsExact(s))
  {
    var id := s.fresh'[n][i];
    if s.w.NewPlaced(s.info, s.fresh') {
      var all, met := s.w.Slots(s.fresh', id, s.info[id].address.service), Met(s, id, n, i);
      assert n in all && n !in met;
      Smaller(met, all, n);
    }
  }

  lemma CountedNext(s: State, mapNew: map<int, int>, n: nat, i: nat)
    requires Shaped(s) && n < NEW_BUCKET_COUNT && i < BUCKET_SIZE && Counted(s, mapNew, n, i) && NewFineBefore(s, n, i)
    requires s.fresh'[n][i] in mapNew && s.fresh'[n][i] != -1
    requires s.w.NewPos(s.info[s.fresh'[n][i]].address.service, n) == i
    ensures NewFineBefore(s, n, i + 1)
    ensures var id := s.fresh'[n][i];
            Counted(s, if mapNew[id] == 1 then mapNew - {id} else mapNew[id := mapNew[id] - 1], n, i + 1)
  {
    hide Met, NewFineBefore, NewSlotFine;
    var x := s.fresh'[n][i];
    FineNext(s, n, i);
    MetGrows(s, x, n, i);
    forall id | id in s.info && id != x ensures Met(s, id, n, i + 1) == Met(s, id, n, i) {
      MetStays(s, id, n, i);
    }
  }

  lemma FineNext(s: State, n: nat, i: nat)
    requires Shaped(s) && n < NEW_BUCKET_COUNT && i < BUCKET_SIZE && NewFineBefore(s, n, i) && s.fresh'[n][i] in s.info
    requires !s.info[s.fresh'[n][i]].fInTried && s.w.NewPos(s.info[s.fresh'[n][i]].address.service, n) == i
    ensures NewFineBefore(s, n, i + 1)
  {
  }

  lemma MetGrows(s: State, x: int, n: nat, i: nat)
    requires Shaped(s) && n < NEW_BUCKET_COUNT && i < BUCKET_SIZE && x in s.info && s.fresh'[n][i] == x
    requires s.w.NewPos(s.info[x].address.service, n) == i
    ensures |Met(s, x, n, i + 1)| == |Met(s, x, n, i)| + 1
  {
    assert Met(s, x, n, i + 1) == Met(s, x, n, i) + {n} && n !in Met(s, x, n, i);
  }

  lemma MetStays(s: State, id: int, n: nat, i: nat)
    requires Shaped(s) && n < NEW_BUCKET_COUNT && i < BUCKET_SIZE && id in s.info && s.fresh'[n][i] != id
    ensures Met(s, id, n, i + 1) == Met(s, id, n, i)
  {
  }

  lemma CountedSkip(s: State, mapNew: map<int, int>, n: nat, i: nat)
    requires Shaped(s) && n < NEW_BUCKET_COUNT && i < BUCKET_SIZE && Counted(s, mapNew, n, i) && NewFineBefore(s, n, i)
    requires s.fresh'[n][i] == -1
    ensures Counted(s, mapNew, n, i + 1) && NewFineBefore(s, n, i + 1)
  {
    forall id | id in s.info ensures Met(s, id, n, i + 1) == Met(s, id, n, i) {}
  }

  lemma CountedRow(s: State, mapNew: map<int, int>, n: nat)
    requires Shaped(s) && n < NEW_BUCKET_COUNT && Counted(s, mapNew, n, BUCKET_SIZE) && NewFineBefore(s, n, BUCKET_SIZE)
    ensures Counted(s, mapNew, n + 1, 0) && NewFineBefore(s, n + 1, 0)
  {
    forall id | id in s.info ensures Met(s, id, n + 1, 0) == Met(s, id, n, BUCKET_SIZE) {}
  }

  lemma CountedAll(s: State, mapNew: map<int, int>)
    requires Shaped(s) && Counted(s, mapNew, NEW_BUCKET_COUNT, 0) && NewFineBefore(s, NEW_BUCKET_COUNT, 0)
    ensures s.w.NewPlaced(s.info, s.fresh')
    ensures mapNew == map[] <==> CountsExact(s)
  {
    forall b, p | 0 <= b < NEW_BUCKET_COUNT && 0 <= p < BUCKET_SIZE && s.fresh'[b][p] != -1
      ensures var id := s.fresh'[b][p];
              id in s.info && !s.info[id].fInTried && s.w.NewPos(s.info[id].address.service, b) == p
    {
      assert Before(b, p, NEW_BUCKET_COUNT, 0) && NewSlotFine(s, b, p);
    }
    forall id | id in s.info
      ensures Met(s, id, NEW_BUCKET_COUNT, 0) == s.w.Slots(s.fresh', id, s.info[id].address.service)
    {
    }
    if mapNew != map[] {
      var id := Witness(mapNew.Keys);
      assert s.info[id].nRefCount != |s.w.Slots(s.fresh', id, s.info[id].address.service)|;
    }
  }

  // --- The index of positions ---

  lemma Larger(a: set<int>, b: set<int>)
    requires a <= b && |b| <= |a|
    ensures a == b
  {
    if b - a != {} {
      var x := Witness(b - a);
      Smaller(a, b, x);
    } else {
      NothingLeft(b, a);
    }
  }

  // If there are as many places as entries and each entry sits at its own place, every place is some entry's.
  lemma PositionsCover(m: InfoMap, r: seq<int>)
    requires forall id :: id in m ==> 0 <= m[id].nRandomPos < |r| && r[m[id].nRandomPos] == id
    ensures |r| == |m| <==> RandomIndex(m, r)
  {
    forall id | id in m.Keys ensures id in Elements(r) {
      assert r[m[id].nRandomPos] == id;
    }
    ElementsBound(r);
    NotLarger(m.Keys, Elements(r));
    if |r| == |m| {
      Larger(m.Keys, Elements(r));
      forall i | 0 <= i < |r| ensures r[i] in m && m[r[i]].nRandomPos == i {
        assert r[i] in Elements(r);
        var j := m[r[i]].nRandomPos;
        assert r[j] == r[i];
        assert !(i < j) && !(j < i);
      }
    }
    if RandomIndex(m, r) {
      assert Elements(r) == m.Keys;
      ElementsBound(r);
    }
  }

  // --- The whole check ---

  ghost predicate AllFine(s: State)
    requires Shaped(s)
  {
    forall id :: id in s.info ==> EntryFine(s, id)
  }

  // The facts that the check establishes one after the other.
  ghost predicate Passes(s: State)
    requires Shaped(s)
  {
    && |s.random| == s.nTried + s.nNew && AllFine(s)
    && |TriedIds(s.info)| == s.nTried && |NewIds(s.info)| == s.nNew
    && s.w.TriedPlaced(s.info, s.tried) && s.w.NewPlaced(s.info, s.fresh') && CountsExact(s)
    && s.w.key != NULL_HASH
  }

  lemma Partition(m: InfoMap)
    ensures |m| == |TriedIds(m)| + |NewIds(m)|
  {
    assert m.Keys == TriedIds(m) + NewIds(m) && TriedIds(m) !! NewIds(m);
  }

  lemma PassesIff(s: State)
    requires Shaped(s)
    ensures Passes(s) <==> Consistent(s)
  {
    if Consistent(s) {
      ConsistentPasses(s);
    }
    if Passes(s) {
      PassedConsistent(s);
    }
  }

  lemma ConsistentPasses(s: State)
    requires Shaped(s) && Consistent(s)
    ensures Passes(s)
  {
    hide NewIds, TriedIds, Places.NewPlaced, Places.TriedPlaced, Places.Slots;
    Partition(s.info);
    assert CountsExact(s) && AllFine(s) by {
      forall id | id in s.info ensures s.w.RefOk(s.fresh', {}, id, s.info[id]) {}
    }
    PositionsCover(s.info, s.random);
  }

  lemma PassedConsistent(s: State)
    requires Shaped(s) && Passes(s)
    ensures Consistent(s)
  {
    Partition(s.info);
    forall id | id in s.info
      ensures 0 <= s.info[id].nRandomPos < |s.random| && s.random[s.info[id].nRandomPos] == id
    {
      assert EntryFine(s, id);
    }
    PositionsCover(s.info, s.random);
    PassedEntries(s);
  }

  lemma PassedEntries(s: State)
    requires Shaped(s) && AllFine(s) && CountsExact(s)
    ensures AddrIndex(s.info, s.addr) && s.w.RefsOk(s.info, s.fresh', {}) && TimesOk(s.info)
  {
    forall id | id in s.info
      ensures s.w.RefOk(s.fresh', {}, id, s.info[id]) && s.addr[s.info[id].Addr()] == id
      ensures s.info[id].nLastTry >= 0 && s.info[id].nLastSuccess >= 0 && (s.info[id].fInTried ==> s.info[id].nLastSuccess != 0)
    {
      assert EntryFine(s, id);
    }
  }

  method SelfCheck(s: State) returns (err: int)
    requires Shaped(s)
    ensures err == 0 <==> Consistent(s)
  {
    hide Consistent, TriedIds, Places.NewPlaced, Places.TriedPlaced, CountsExact;
    PassesIff(s);
    if |s.random| != s.nTried + s.nNew {
      return -7;
    }
    var setTried, mapNew;
    err, setTried, mapNew := CheckEntries(s);
    if err != 0 {
      return;
    }
    RefsKeys(s);
    if |setTried| != s.nTried {
      return -9;
    }
    if |mapNew| != s.nNew {
      return -10;
    }
    err, setTried := CheckTried(s, setTried);
    if err != 0 {
      return;
    }
    err, mapNew := CheckNew(s, mapNew);
    if err != 0 {
      return;
    }
    if setTried != {} {
      return -13;
    }
    if mapNew != map[] {
      return -15;
    }
    err := if s.w.key == NULL_HASH then -16 else 0;
  }

  lemma RefsKeys(s: State)
    requires Shaped(s) && AllFine(s)
    ensures |NewRefs(s.info, s.info.Keys)| == |NewIds(s.info)|
    ensures forall id :: id in NewRefs(s.info, s.info.Keys) ==> NewRefs(s.info, s.info.Keys)[id] > 0
  {
    assert NewRefs(s.info, s.info.Keys).Keys == NewIds(s.info);
    forall id | id in NewRefs(s.info, s.info.Keys) ensures s.info[id].nRefCount > 0 { assert EntryFine(s, id); }
  }

  lemma InvIsShaped(s: State)
    requires Inv(s, {}, 0)
    ensures Shaped(s)
  {
  }
}
