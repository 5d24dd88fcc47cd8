/** The slots of a block that is being rebuilt: prefilling them, mapping short ids to them, matching known transactions. */
module CompactSlots {
  import opened Common

  datatype Tx = Tx(hash: nat, witnessHash: nat, isNull: bool)

  type ShortIds = nat -> nat

  // --- Slots ---

  type Slots = seq<Option<Tx>>

  function Filled(s: Slots): (n: nat)
    ensures n <= |s|
  {
    if s == [] then 0 else Filled(s[..|s| - 1]) + if s[|s| - 1].Some? then 1 else 0
  }

  lemma FilledNext(s: Slots, k: nat)
    requires k < |s|
    ensures Filled(s[..k + 1]) == Filled(s[..k]) + if s[k].Some? then 1 else 0
  {
    assert s[..k + 1][..k] == s[..k];
  }

  lemma {:induction false} FilledUpdate(s: Slots, k: nat, x: Option<Tx>)
    requires k < |s|
    ensures Filled(s[k := x]) == Filled(s) - (if s[k].Some? then 1 else 0) + (if x.Some? then 1 else 0)
  {
    var n := |s| - 1;
    if k == n {
      assert s[k := x][..n] == s[..n];
    } else {
      assert s[k := x][..n] == s[..n][k := x];
      FilledUpdate(s[..n], k, x);
    }
  }

  lemma {:induction false} FilledNone(s: Slots)
    requires forall p :: 0 <= p < |s| ==> s[p].None?
    ensures Filled(s) == 0
  {
    if s != [] {
      FilledNone(s[..|s| - 1]);
    }
  }

  // How many empty slots come before p.
  function Rank(s: Slots, p: nat): int
    requires p <= |s|
  {
    p - Filled(s[..p])
  }

  lemma {:induction false} RankMonotone(s: Slots, p: nat, q: nat)
    requires p <= q <= |s|
    ensures Rank(s, p) <= Rank(s, q) && (p < q && s[p].None? ==> Rank(s, p) < Rank(s, q))
  {
    if p < q {
      RankMonotone(s, p, q - 1);
      FilledNext(s, q - 1);
      if p == q - 1 {
        FilledNext(s, p);
      }
    }
  }

  // --- The announcement ---

  datatype Prefilled = Prefilled(index: nat, tx: Tx)

  datatype CompactBlock = CompactBlock(headerNull: bool, shorttxids: seq<nat>, prefilledtxn: seq<Prefilled>)

  function TxCount(c: CompactBlock): nat { |c.shorttxids| + |c.prefilledtxn| }

  // The place of the i-th prefilled transaction: indexes count from the one before.
  function Position(p: seq<Prefilled>, i: int): int
    requires i < |p|
    decreases i + 1
  {
    if i < 0 then -1 else Position(p, i - 1) + p[i].index + 1
  }

  lemma {:induction false} PositionsRise(p: seq<Prefilled>, i: int, j: int)
    requires -1 <= i < j < |p|
    ensures Position(p, i) < Position(p, j) && Position(p, j) >= 0
  {
    PositionFloor(p, i);
    if i + 1 < j {
      PositionsRise(p, i, j - 1);
    }
  }

  lemma {:induction false} PositionFloor(p: seq<Prefilled>, i: int)
    requires -1 <= i < |p|
    ensures Position(p, i) >= -1
  {
    if i >= 0 {
      PositionFloor(p, i - 1);
    }
  }

  predicate PlaceOk(c: CompactBlock, i: nat)
    requires i < |c.prefilledtxn|
  {
    !c.prefilledtxn[i].tx.isNull && Position(c.prefilledtxn, i) <= MAX_UINT16 && Position(c.prefilledtxn, i) <= |c.shorttxids| + i
  }

  // The first k prefilled transactions are in their places and the other slots are empty.
  ghost predicate Placed(c: CompactBlock, s: Slots, k: nat) {
    && k <= |c.prefilledtxn| && |s| == TxCount(c) && Filled(s) == k
    && (forall i :: 0 <= i < k ==> PlaceOk(c, i) && 0 <= Position(c.prefilledtxn, i) < |s| && s[Position(c.prefilledtxn, i)] == Some(c.prefilledtxn[i].tx))
    && forall p :: 0 <= p < |s| && s[p].Some? ==> exists i :: 0 <= i < k && Position(c.prefilledtxn, i) == p
  }

  lemma PlaceNext(c: CompactBlock, s: Slots, k: nat)
    requires Placed(c, s, k) && k < |c.prefilledtxn| && PlaceOk(c, k)
    ensures 0 <= Position(c.prefilledtxn, k) < |s|
    ensures Placed(c, s[Position(c.prefilledtxn, k) := Some(c.prefilledtxn[k].tx)], k + 1)
  {
    var at := Position(c.prefilledtxn, k);
    PositionsRise(c.prefilledtxn, -1, k);
    forall i | 0 <= i < k ensures Position(c.prefilledtxn, i) < at {
      PositionsRise(c.prefilledtxn, i, k);
    }
    hide Position;
    assert s[at].None?;
    FilledUpdate(s, at, Some(c.prefilledtxn[k].tx));
  }

  method PlacePrefilled(c: CompactBlock) returns (ok: bool, s: Slots)
    ensures ok <==> forall i :: 0 <= i < |c.prefilledtxn| ==> PlaceOk(c, i)
    ensures ok ==> Placed(c, s, |c.prefilledtxn|)
  {
    hide Filled;
    s := seq(TxCount(c), i => None);
    FilledNone(s);
    var lastprefilledindex := -1;
    for i := 0 to |c.prefilledtxn|
      invariant lastprefilledindex == Position(c.prefilledtxn, i - 1) && Placed(c, s, i)
    {
      if c.prefilledtxn[i].tx.isNull {
        assert !PlaceOk(c, i);
        return false, s;
      }
      lastprefilledindex := lastprefilledindex + c.prefilledtxn[i].index + 1;
      if lastprefilledindex > MAX_UINT16 {
        assert !PlaceOk(c, i);
        return false, s;
      }
      if lastprefilledindex > |c.shorttxids| + i {
        assert !PlaceOk(c, i);
        return false, s;
      }
      PlaceNext(c, s, i);
      s := s[lastprefilledindex := Some(c.prefilledtxn[i].tx)];
    }
    return true, s;
  }

  // Prefilled transactions sit in the first 65536 slots; as many as that fill all of them.
  lemma PrefilledLow(c: CompactBlock, s: Slots)
    requires Placed(c, s, |c.prefilledtxn|)
    ensures forall p :: MAX_UINT16 < p < |s| ==> s[p].None?
    ensures |c.prefilledtxn| <= 0x1_0000
    ensures |c.prefilledtxn| == 0x1_0000 ==> |s| >= 0x1_0000 && forall p :: 0 <= p < 0x1_0000 ==> s[p].Some?
  {
    hide Filled, Position;
    if |s| > 0x1_0000 {
      var low := s[..0x1_0000];
      FilledLow(s, 0x1_0000);
      if Filled(low) == 0x1_0000 {
        FilledFull(low);
        assert forall p :: 0 <= p < 0x1_0000 ==> s[p] == low[p];
      }
    } else if Filled(s) == 0x1_0000 {
      FilledFull(s);
    }
  }

  lemma {:induction false} FilledLow(s: Slots, k: nat)
    requires k <= |s| && forall p :: k <= p < |s| ==> s[p].None?
    ensures Filled(s) == Filled(s[..k])
  {
    if k == |s| {
      assert s[..k] == s;
    } else {
      var n := |s| - 1;
      FilledLow(s[..n], k);
      assert s[..n][..k] == s[..k];
    }
  }

  lemma {:induction false} FilledFull(s: Slots)
    requires Filled(s) == |s|
    ensures forall p :: 0 <= p < |s| ==> s[p].Some?
  {
    if s != [] {
      FilledFull(s[..|s| - 1]);
      assert forall p :: 0 <= p < |s| - 1 ==> s[p] == s[..|s| - 1][p];
    }
  }

  // --- Finding the slots of the short ids ---

  // A 16-bit offset after k increments.
  function Bumped(offset: nat, k: nat): nat { (offset + k) % 0x1_0000 }

  // Within one cycle the offset leads to a free slot.
  predicate FreeWithin(s: Slots, i: nat, offset: nat) {
    exists k :: 0 <= k < 0x1_0000 && i + Bumped(offset, k) < |s| && s[i + Bumped(offset, k)].None?
  }

  /** If one cycle of the offset leads to no free slot, no number of steps does: the search does not end. */
  lemma NeverFree(s: Slots, i: nat, offset: nat, k: nat)
    requires !FreeWithin(s, i, offset)
    ensures i + Bumped(offset, k) < |s| ==> s[i + Bumped(offset, k)].Some?
  {
    assert Bumped(offset, k) == Bumped(offset, k % 0x1_0000);
  }

  // The next empty slot from p on, where i empty slots come before.
  lemma {:induction false} NextEmpty(s: Slots, p: nat, i: nat) returns (q: nat)
    requires p <= |s| && Rank(s, p) == i < |s| - Filled(s)
    ensures p <= q < |s| && s[q].None? && Rank(s, q) == i && forall j :: p <= j < q ==> s[j].Some?
    decreases |s| - p
  {
    hide Filled;
    EmptyLeft(s, p, i);
    if s[p].None? {
      q := p;
    } else {
      FilledNext(s, p);
      q := NextEmpty(s, p + 1, i);
    }
  }

  lemma EmptyLeft(s: Slots, p: nat, i: nat)
    requires p <= |s| && Rank(s, p) == i < |s| - Filled(s)
    ensures p < |s|
  {
    assert s[..|s|] == s;
  }

  // With fewer than 65536 prefilled transactions the offset reaches the next empty slot q before it wraps.
  lemma SearchEnds(s: Slots, i: nat, offset: nat, q: nat)
    requires Filled(s) <= MAX_UINT16 && i + offset <= q < |s| && s[q].None? && Rank(s, q) == i
    ensures q - i <= MAX_UINT16 && FreeWithin(s, i, offset)
  {
    FilledPrefix(s, q);
    assert Bumped(offset, q - i - offset) == q - i;
  }

  lemma {:induction false} FilledPrefix(s: Slots, k: nat)
    requires k <= |s|
    ensures Filled(s[..k]) <= Filled(s)
  {
    if k == |s| {
      assert s[..k] == s;
    } else {
      var n := |s| - 1;
      FilledPrefix(s[..n], k);
      assert s[..n][..k] == s[..k];
    }
  }

  // With 65536 of them it comes round to where it started.
  lemma SearchFails(c: CompactBlock, s: Slots)
    requires Placed(c, s, |c.prefilledtxn|) && |c.prefilledtxn| == 0x1_0000
    ensures !FreeWithin(s, 0, 0)
  {
    hide Placed;
    PrefilledLow(c, s);
  }

  // x is recorded with the 16-bit slot of the first, second, ... k-th empty slot.
  ghost predicate RecordedAt(c: CompactBlock, s: Slots, k: nat, x: nat, at: nat, q: nat) {
    q < |s| && s[q].None? && 0 <= Rank(s, q) < k && k <= |c.shorttxids| && c.shorttxids[Rank(s, q)] == x && at == q % 0x1_0000
  }

  // What the map holds after k short ids. Slots are 16 bits wide.
  ghost predicate Recorded(c: CompactBlock, s: Slots, m: map<nat, nat>, k: nat) {
    && k <= |c.shorttxids|
    && (forall x :: x in m ==> exists q :: RecordedAt(c, s, k, x, m[x], q))
    && forall i :: 0 <= i < k ==> c.shorttxids[i] in m
  }

  lemma RecordNext(c: CompactBlock, s: Slots, m: map<nat, nat>, k: nat, p: nat)
    requires Recorded(c, s, m, k) && k < |c.shorttxids| && p < |s| && s[p].None? && Rank(s, p) == k
    ensures Recorded(c, s, m[c.shorttxids[k] := p % 0x1_0000], k + 1)
  {
    hide Rank;
    var m', k' := m[c.shorttxids[k] := p % 0x1_0000], k + 1;
    assert RecordedAt(c, s, k + 1, c.shorttxids[k], p % 0x1_0000, p);
    forall x | x in m' ensures exists q :: RecordedAt(c, s, k', x, m'[x], q) {
      if x != c.shorttxids[k] {
        var q :| RecordedAt(c, s, k, x, m[x], q);
        assert RecordedAt(c, s, k', x, m'[x], q);
      }
    }
  }

  lemma RecordStart(c: CompactBlock, s: Slots)
    ensures Recorded(c, s, map[], 0)
  {
  }

  lemma RecordSize(c: CompactBlock, s: Slots, m: map<nat, nat>)
    requires Recorded(c, s, m, |c.shorttxids|)
    ensures |m| == |c.shorttxids| <==> Distinct(c.shorttxids)
  {
    hide Rank;
    ElementsBound(c.shorttxids);
    forall x | x in m ensures x in c.shorttxids {
      var q :| RecordedAt(c, s, |c.shorttxids|, x, m[x], q);
    }
    assert m.Keys == Elements(c.shorttxids);
  }

  // Whatever is recorded is the number of some slot among the first 65536.
  lemma RecordedInside(c: CompactBlock, s: Slots, m: map<nat, nat>, k: nat)
    requires Recorded(c, s, m, k)
    ensures forall x :: x in m ==> m[x] < |s| && m[x] <= MAX_UINT16
  {
    hide Rank;
    forall x | x in m ensures m[x] < |s| && m[x] <= MAX_UINT16 {
      var q :| RecordedAt(c, s, k, x, m[x], q);
    }
  }

  // m sends every short id to the empty slot it was announced for.
  ghost predicate Mapped(c: CompactBlock, s: Slots, m: map<nat, nat>) {
    && (forall x :: x in m ==> MapsTo(c, s, x, m[x]))
    && forall i :: 0 <= i < |c.shorttxids| ==> c.shorttxids[i] in m
  }

  ghost predicate MapsTo(c: CompactBlock, s: Slots, x: nat, at: nat) {
    at < |s| && s[at].None? && 0 <= Rank(s, at) < |c.shorttxids| && c.shorttxids[Rank(s, at)] == x
  }

  /** The recorded slots are the right ones exactly when there are at most 65536 transactions. */
  lemma RecordedRightIff(c: CompactBlock, s: Slots, m: map<nat, nat>)
    requires Placed(c, s, |c.prefilledtxn|) && Recorded(c, s, m, |c.shorttxids|) && Distinct(c.shorttxids)
    ensures Mapped(c, s, m) <==> TxCount(c) <= 0x1_0000
  {
    hide Placed, Rank, Distinct;
    PlacedFacts(c, s);
    if TxCount(c) <= 0x1_0000 {
      forall x | x in m ensures MapsTo(c, s, x, m[x]) {
        var q :| RecordedAt(c, s, |c.shorttxids|, x, m[x], q);
        assert q % 0x1_0000 == q;
      }
    } else {
      LastWrapped(c, s, m);
      RecordedInside(c, s, m, |c.shorttxids|);
      LastEmpty(c, s);
      if Mapped(c, s, m) {
        var x := c.shorttxids[|c.shorttxids| - 1];
        assert MapsTo(c, s, x, m[x]);
        SameRank(c, s, m[x], TxCount(c) - 1);
      }
    }
  }

  // Past 65536 transactions the last slot is empty, and it is the last short id's.
  lemma LastEmpty(c: CompactBlock, s: Slots)
    requires Placed(c, s, |c.prefilledtxn|) && TxCount(c) > 0x1_0000
    ensures |s| == TxCount(c) && c.shorttxids != [] && s[|s| - 1].None? && Rank(s, |s| - 1) == |c.shorttxids| - 1
  {
    hide Position;
    PrefilledLow(c, s);
    FilledNext(s, |s| - 1);
    assert s[..|s|] == s;
  }

  lemma SameRank(c: CompactBlock, s: Slots, p: nat, q: nat)
    requires Distinct(c.shorttxids) && p < |s| && q < |s| && s[p].None? && s[q].None?
    requires 0 <= Rank(s, p) < |c.shorttxids| && 0 <= Rank(s, q) < |c.shorttxids| && c.shorttxids[Rank(s, p)] == c.shorttxids[Rank(s, q)]
    ensures p == q
  {
    if p < q {
      RankMonotone(s, p, q);
    } else if q < p {
      RankMonotone(s, q, p);
    }
  }

  /** Past 65536 transactions the last short id is recorded with a slot that is not its own. */
  lemma LastWrapped(c: CompactBlock, s: Slots, m: map<nat, nat>)
    requires Placed(c, s, |c.prefilledtxn|) && Recorded(c, s, m, |c.shorttxids|) && Distinct(c.shorttxids) && TxCount(c) > 0x1_0000
    ensures c.shorttxids != [] && c.shorttxids[|c.shorttxids| - 1] in m
    ensures m[c.shorttxids[|c.shorttxids| - 1]] == (TxCount(c) - 1) % 0x1_0000 < TxCount(c) - 1
  {
    hide Placed, Rank, Distinct;
    LastEmpty(c, s);
    var x := c.shorttxids[|c.shorttxids| - 1];
    var q :| RecordedAt(c, s, |c.shorttxids|, x, m[x], q);
    SameRank(c, s, q, |s| - 1);
  }

  datatype MapOutcome = Done | Refused | Endless

  predicate Spacious(c: CompactBlock, crowded: nat -> bool) {
    forall i :: 0 <= i < |c.shorttxids| ==> !crowded(i)
  }

  // 65536 prefilled transactions and at least one short id.
  predicate Overfull(c: CompactBlock) { |c.prefilledtxn| == 0x1_0000 && c.shorttxids != [] }

  /**
   * The slots of the short ids, with a 16-bit offset. `crowded` says after which insertion the hash table reports an
   * overfull bucket, and Endless stands for a search that goes round for ever. That happens exactly when there are
   * 65536 prefilled transactions and a short id.
   */
  method MapShortIds(c: CompactBlock, s: Slots, crowded: nat -> bool) returns (r: MapOutcome, m: map<nat, nat>)
    requires Placed(c, s, |c.prefilledtxn|)
    ensures r == Endless <==> Overfull(c)
    ensures r == Done <==> !Overfull(c) && Distinct(c.shorttxids) && Spacious(c, crowded)
    ensures r == Done ==> Recorded(c, s, m, |c.shorttxids|)
  {
    hide Filled, Recorded, Distinct, Placed, FreeWithin;
    PlacedFacts(c, s);
    PrefilledLow(c, s);
    m := map[];
    var indexOffset: nat := 0;
    StartRank(s);
    RecordStart(c, s);
    for i := 0 to |c.shorttxids|
      invariant Recorded(c, s, m, i) && i + indexOffset <= |s| && Rank(s, i + indexOffset) == i && (i > 0 ==> !Overfull(c))
      invariant forall k :: 0 <= k < i ==> !crowded(k)
      invariant i == 0 ==> indexOffset == 0
    {
      ghost var q := NextEmpty(s, i + indexOffset, i);
      if Overfull(c) {
        SearchFails(c, s);
      } else {
        SearchEnds(s, i, indexOffset, q);
      }
      if !FreeWithin(s, i, indexOffset) {
        return Endless, m;
      }
      while s[i + indexOffset].Some?
        invariant i + indexOffset <= q && forall j :: i + indexOffset <= j < q ==> s[j].Some?
        decreases q - indexOffset
      {
        indexOffset := Bumped(indexOffset, 1);
      }
      RecordNext(c, s, m, i, q);
      m := m[c.shorttxids[i] := (i + indexOffset) % 0x1_0000];
      FilledNext(s, q);
      if crowded(i) {
        return Refused, m;
      }
    }
    RecordSize(c, s, m);
    return if |m| != |c.shorttxids| then Refused else Done, m;
  }

  lemma StartRank(s: Slots)
    ensures Rank(s, 0) == 0
  {
  }

  lemma PlacedFacts(c: CompactBlock, s: Slots)
    requires Placed(c, s, |c.prefilledtxn|)
    ensures |s| == TxCount(c) && Filled(s) == |c.prefilledtxn|
  {
  }

  // --- Filling slots from the mempool and the extra transactions ---

  datatype Known = Known(hash: nat, tx: Tx)

  // x is offered for slot p.
  ghost predicate Hits(sid: ShortIds, m: map<nat, nat>, x: Known, p: nat) {
    sid(x.hash) in m && m[sid(x.hash)] == p
  }

  ghost predicate SeenAt(sid: ShortIds, m: map<nat, nat>, known: seq<Known>, p: nat) {
    exists k :: 0 <= k < |known| && Hits(sid, m, known[k], p)
  }

  ghost predicate TwiceAt(sid: ShortIds, m: map<nat, nat>, known: seq<Known>, p: nat) {
    exists j, k :: 0 <= j < k < |known| && Hits(sid, m, known[j], p) && Hits(sid, m, known[k], p)
  }

  ghost predicate Offered(sid: ShortIds, m: map<nat, nat>, known: seq<Known>, p: nat, tx: Tx) {
    exists k :: 0 <= k < |known| && known[k].tx == tx && Hits(sid, m, known[k], p)
  }

  /**
   * A slot nobody is offered for is as it was. Any other holds something offered for it, or is empty because two are
   * offered.
   */
  ghost predicate Matched(sid: ShortIds, m: map<nat, nat>, s0: Slots, s: Slots, have: seq<bool>, known: seq<Known>) {
    && |s| == |s0| == |have|
    && forall p :: 0 <= p < |s| ==> SlotMatched(sid, m, s0[p], s[p], have[p], known, p)
  }

  ghost predicate SlotMatched(sid: ShortIds, m: map<nat, nat>, was: Option<Tx>, now: Option<Tx>, had: bool, known: seq<Known>, p: nat) {
    && (had <==> SeenAt(sid, m, known, p))
    && if !had then now == was
       else if now.Some? then Offered(sid, m, known, p, now.value)
       else TwiceAt(sid, m, known, p)
  }

  // One more known transaction, as one slot sees it.
  lemma SeenMore(sid: ShortIds, m: map<nat, nat>, known: seq<Known>, x: Known, p: nat)
    ensures SeenAt(sid, m, known + [x], p) <==> SeenAt(sid, m, known, p) || Hits(sid, m, x, p)
    ensures TwiceAt(sid, m, known, p) || (SeenAt(sid, m, known, p) && Hits(sid, m, x, p)) ==> TwiceAt(sid, m, known + [x], p)
    ensures Hits(sid, m, x, p) ==> Offered(sid, m, known + [x], p, x.tx)
    ensures forall tx :: Offered(sid, m, known, p, tx) ==> Offered(sid, m, known + [x], p, tx)
  {
    hide Hits;
    var more := known + [x];
    assert more[|known|] == x;
    assert forall k :: 0 <= k < |known| ==> more[k] == known[k];
    if SeenAt(sid, m, known, p) {
      var k :| 0 <= k < |known| && Hits(sid, m, known[k], p);
      assert Hits(sid, m, more[k], p);
      if Hits(sid, m, x, p) {
        assert Hits(sid, m, more[|known|], p);
      }
    }
    if TwiceAt(sid, m, known, p) {
      var j, k :| 0 <= j < k < |known| && Hits(sid, m, known[j], p) && Hits(sid, m, known[k], p);
      assert Hits(sid, m, more[j], p) && Hits(sid, m, more[k], p);
    }
    forall tx | Offered(sid, m, known, p, tx) ensures Offered(sid, m, more, p, tx) {
      var k :| 0 <= k < |known| && known[k].tx == tx && Hits(sid, m, known[k], p);
      assert more[k].tx == tx;
    }
  }

  // A first match is taken, and a second one may empty the slot.
  lemma MatchNext(sid: ShortIds, m: map<nat, nat>, s0: Slots, s: Slots, have: seq<bool>, known: seq<Known>, x: Known, clear: bool)
    requires Matched(sid, m, s0, s, have, known) && (sid(x.hash) in m ==> m[sid(x.hash)] < |s|)
    ensures |s| == |have|
    ensures var shortid := sid(x.hash);
            if shortid !in m then Matched(sid, m, s0, s, have, known + [x])
            else
              var at := m[shortid];
              if !have[at] then Matched(sid, m, s0, s[at := Some(x.tx)], have[at := true], known + [x])
              else Matched(sid, m, s0, if clear then s[at := None] else s, have, known + [x])
  {
    hide SeenAt, TwiceAt, Offered;
    forall p | 0 <= p < |s|
      ensures SeenAt(sid, m, known + [x], p) <==> SeenAt(sid, m, known, p) || Hits(sid, m, x, p)
      ensures TwiceAt(sid, m, known, p) || (SeenAt(sid, m, known, p) && Hits(sid, m, x, p)) ==> TwiceAt(sid, m, known + [x], p)
      ensures Hits(sid, m, x, p) ==> Offered(sid, m, known + [x], p, x.tx)
      ensures forall tx :: Offered(sid, m, known, p, tx) ==> Offered(sid, m, known + [x], p, tx)
    {
      SeenMore(sid, m, known, x, p);
    }
  }

  // How many slots hold a known transaction.
  function Held(s: Slots, have: seq<bool>): (n: nat)
    requires |s| == |have|
  {
    if s == [] then 0 else Held(s[..|s| - 1], have[..|s| - 1]) + if have[|s| - 1] && s[|s| - 1].Some? then 1 else 0
  }

  lemma {:induction false} HeldUpdate(s: Slots, have: seq<bool>, at: nat, x: Option<Tx>, h: bool)
    requires |s| == |have| && at < |s|
    ensures Held(s[at := x], have[at := h])
            == Held(s, have) - (if have[at] && s[at].Some? then 1 else 0) + if h && x.Some? then 1 else 0
    ensures have[at] && s[at].Some? ==> Held(s, have) >= 1
  {
    var n := |s| - 1;
    if at == n {
      assert s[at := x][..n] == s[..n] && have[at := h][..n] == have[..n];
    } else {
      assert s[at := x][..n] == s[..n][at := x] && have[at := h][..n] == have[..n][at := h];
      HeldUpdate(s[..n], have[..n], at, x, h);
    }
  }

  lemma {:induction false} HeldNone(s: Slots, have: seq<bool>)
    requires |s| == |have| && forall p :: 0 <= p < |have| ==> !have[p]
    ensures Held(s, have) == 0
  {
    if s != [] {
      HeldNone(s[..|s| - 1], have[..|s| - 1]);
    }
  }

  // Taking over empty slots only, the filled slots are the prefilled ones and the held ones.
  lemma {:induction false} HeldAndFilled(s0: Slots, s: Slots, have: seq<bool>)
    requires |s0| == |s| == |have| && forall p :: 0 <= p < |s| ==> if have[p] then s0[p].None? else s[p] == s0[p]
    ensures Filled(s) == Filled(s0) + Held(s, have)
  {
    if s != [] {
      var n := |s| - 1;
      HeldAndFilled(s0[..n], s[..n], have[..n]);
    }
  }

  ghost function HeldKeys(m: map<nat, nat>, s: Slots, have: seq<bool>, k: nat): set<nat>
    requires |s| == |have|
  {
    set x | x in m && m[x] < k && m[x] < |s| && have[m[x]] && s[m[x]].Some?
  }

  lemma {:induction false} HeldWithin(sid: ShortIds, m: map<nat, nat>, s0: Slots, s: Slots, have: seq<bool>, known: seq<Known>, k: nat)
    requires Matched(sid, m, s0, s, have, known) && k <= |s|
    ensures Held(s[..k], have[..k]) <= |HeldKeys(m, s, have, k)|
  {
    hide Offered, TwiceAt;
    if k > 0 {
      HeldWithin(sid, m, s0, s, have, known, k - 1);
      assert s[..k][..k - 1] == s[..k - 1] && have[..k][..k - 1] == have[..k - 1];
      var a, b := HeldKeys(m, s, have, k - 1), HeldKeys(m, s, have, k);
      assert a <= b;
      if have[k - 1] && s[k - 1].Some? {
        assert SlotMatched(sid, m, s0[k - 1], s[k - 1], have[k - 1], known, k - 1);
        var i :| 0 <= i < |known| && Hits(sid, m, known[i], k - 1);
        assert sid(known[i].hash) in b && sid(known[i].hash) !in a;
        Proper(a, b);
      } else {
        NotLarger(a, b);
      }
    }
  }

  lemma Proper(a: set<nat>, b: set<nat>)
    requires a <= b && a != b
    ensures |a| < |b|
  {
    var x :| x in b && x !in a;
    Smaller(a, b, x);
  }

  // As many slots held as there are short ids: all of them are.
  lemma AllHeld(sid: ShortIds, m: map<nat, nat>, s0: Slots, s: Slots, have: seq<bool>, known: seq<Known>)
    requires Matched(sid, m, s0, s, have, known) && Held(s, have) == |m|
    ensures forall x :: x in m ==> m[x] < |s| && have[m[x]] && s[m[x]].Some?
  {
    hide Held, SlotMatched;
    HeldWithin(sid, m, s0, s, have, known, |s|);
    assert s[..|s|] == s && have[..|s|] == have;
    var g := HeldKeys(m, s, have, |s|);
    if g != m.Keys {
      Proper(g, m.Keys);
    }
  }

  // From then on nothing that is known later matters.
  lemma MatchedLater(sid: ShortIds, m: map<nat, nat>, s0: Slots, s: Slots, have: seq<bool>, known: seq<Known>, later: seq<Known>)
    requires Matched(sid, m, s0, s, have, known) && forall x :: x in m ==> m[x] < |s| && have[m[x]] && s[m[x]].Some?
    ensures Matched(sid, m, s0, s, have, known + later)
  {
    forall p | 0 <= p < |s| ensures SlotMatched(sid, m, s0[p], s[p], have[p], known + later, p) {
      assert SlotMatched(sid, m, s0[p], s[p], have[p], known, p);
      assert forall k :: 0 <= k < |known| ==> (known + later)[k] == known[k];
      if have[p] {
        var k :| 0 <= k < |known| && Hits(sid, m, known[k], p);
        assert Hits(sid, m, (known + later)[k], p);
        var j :| 0 <= j < |known| && known[j].tx == s[p].value && Hits(sid, m, known[j], p);
        assert (known + later)[j].tx == s[p].value;
      }
    }
  }

  /** Match one list. In the first list a second match empties the slot; later only a different witness does. */
  method MatchAll(sid: ShortIds, m: map<nat, nat>, ghost s0: Slots, slots: Slots, haveTxn: seq<bool>, mempoolCount: nat,
                  ghost before: seq<Known>, known: seq<Known>, sameIsFine: bool)
      returns (s: Slots, have: seq<bool>, count: nat)
    requires forall x :: x in m ==> m[x] < |slots|
    requires Matched(sid, m, s0, slots, haveTxn, before) && mempoolCount == Held(slots, haveTxn)
    ensures Matched(sid, m, s0, s, have, before + known) && count == Held(s, have)
  {
    hide Held, SlotMatched;
    s, have, count := slots, haveTxn, mempoolCount;
    assert before + known[..0] == before;
    for i := 0 to |known|
      invariant Matched(sid, m, s0, s, have, before + known[..i]) && count == Held(s, have)
    {
      var x := known[i];
      assert before + known[..i + 1] == (before + known[..i]) + [x];
      MatchNext(sid, m, s0, s, have, before + known[..i], x, true);
      MatchNext(sid, m, s0, s, have, before + known[..i], x, false);
      var shortid := sid(x.hash);
      if shortid in m {
        var at := m[shortid];
        if !have[at] {
          HeldUpdate(s, have, at, Some(x.tx), true);
          s := s[at := Some(x.tx)];
          have := have[at := true];
          count := count + 1;
        } else if s[at].Some? && (!sameIsFine || s[at].value.witnessHash != x.tx.witnessHash) {
          HeldUpdate(s, have, at, None, true);
          assert have[at := true] == have;
          s := s[at := None];
          count := count - 1;
        }
      }
      if count == |m| {
        AllHeld(sid, m, s0, s, have, before + known[..i + 1]);
        MatchedLater(sid, m, s0, s, have, before + known[..i + 1], known[i + 1..]);
        assert before + known[..i + 1] + known[i + 1..] == before + known;
        return;
      }
    }
    assert known[..|known|] == known;
  }

  lemma MatchStart(sid: ShortIds, m: map<nat, nat>, s: Slots, have: seq<bool>)
    requires |have| == |s| && forall p :: 0 <= p < |have| ==> !have[p]
    ensures Matched(sid, m, s, s, have, []) && Held(s, have) == 0
  {
    HeldNone(s, have);
  }
}
