/** Compact blocks: announcing a block, reading an announcement and rebuilding the block. */
module BlockEncodings {
  import opened Common
  import opened CompactSlots

  // --- The partially downloaded block ---

  // NoReturn stands for a call that does not come back.
  datatype ReadStatus = Ok | Invalid | Failed | CheckBlockFailed | NoReturn

  // What validating the rebuilt block says.
  datatype Verdict = Passes | Corrupt | Fails

  // MAX_BLOCK_BASE_SIZE over the ten bytes of the smallest transaction.
  const MAX_TX_COUNT: nat := 100000

  // The announcement has a header, between one and 100000 transactions, and places for the prefilled ones.
  predicate Accepted(c: CompactBlock) {
    && !c.headerNull && 1 <= TxCount(c) <= MAX_TX_COUNT
    && forall i :: 0 <= i < |c.prefilledtxn| ==> PlaceOk(c, i)
  }

  // The slots after an announcement was read, from the prefilled slots s0 and the recorded map m.
  ghost predicate InitializedWith(sid: ShortIds, c: CompactBlock, known: seq<Known>, s: Slots, s0: Slots, m: map<nat, nat>, have: seq<bool>) {
    && Placed(c, s0, |c.prefilledtxn|) && Recorded(c, s0, m, |c.shorttxids|) && Distinct(c.shorttxids)
    && Matched(sid, m, s0, s, have, known)
  }

  ghost predicate Initialized(sid: ShortIds, c: CompactBlock, known: seq<Known>, s: Slots) {
    exists s0, m, have :: InitializedWith(sid, c, known, s, s0, m, have)
  }

  // The first q slots emptied.
  function Cleared(s: Slots, q: nat): (r: Slots)
    ensures |r| == |s|
  {
    seq(|s|, p requires 0 <= p < |s| => if p < q then None else s[p])
  }

  // q is the first empty slot that the missing transactions do not reach.
  predicate RunsOut(s: Slots, missing: seq<Tx>, q: nat) {
    q < |s| && s[q].None? && Rank(s, q) == |missing|
  }

  class PartiallyDownloadedBlock {
    var headerNull: bool
    var txnAvailable: Slots
    var prefilledCount: nat
    var mempoolCount: nat

    constructor ()
      ensures headerNull && txnAvailable == [] && prefilledCount == 0 && mempoolCount == 0
    {
      headerNull, txnAvailable, prefilledCount, mempoolCount := true, [], 0, 0;
    }

    method InitData(sid: ShortIds, c: CompactBlock, pool: seq<Known>, extraTxn: seq<Known>, crowded: nat -> bool) returns (status: ReadStatus)
      requires headerNull && txnAvailable == [] && mempoolCount == 0
      modifies this
      ensures status == Invalid <==> !Accepted(c)
      ensures status == NoReturn <==> Accepted(c) && Overfull(c)
      ensures status == Ok <==> Accepted(c) && !Overfull(c) && Distinct(c.shorttxids) && Spacious(c, crowded)
      ensures status != CheckBlockFailed
      ensures status == Ok ==> !headerNull && |txnAvailable| == TxCount(c) && Initialized(sid, c, pool + extraTxn, txnAvailable)
      ensures status == Ok ==> prefilledCount == |c.prefilledtxn|
      ensures status == Ok && TxCount(c) <= 0x1_0000 ==> prefilledCount + mempoolCount == Filled(txnAvailable)
    {
      if c.headerNull || (c.shorttxids == [] && c.prefilledtxn == []) {
        return Invalid;
      }
      if TxCount(c) > MAX_TX_COUNT {
        return Invalid;
      }
      hide Filled, Placed, Recorded, Matched, PlaceOk, Distinct, Spacious, Initialized;
      headerNull := false;
      var ok, slots := PlacePrefilled(c);
      txnAvailable := slots;
      if !ok {
        return Invalid;
      }
      PlacedFacts(c, slots);
      prefilledCount := |c.prefilledtxn|;
      var r;
      r, txnAvailable, mempoolCount := FillKnown(sid, c, slots, pool, extraTxn, crowded);
      return match r { case Done => Ok case Refused => Failed case Endless => NoReturn };
    }

    function IsTxAvailable(index: nat): bool
      requires !headerNull && index < |txnAvailable|
      reads this
    {
      txnAvailable[index].Some?
    }

    /**
     * Put the missing transactions into the empty slots, in order. When they run out, the slots before have already been
     * emptied; when some are left over, the object is used up.
     */
    method FillBlock(missing: seq<Tx>, check: seq<Tx> -> Verdict) returns (status: ReadStatus, vtx: seq<Tx>)
      requires !headerNull
      modifies this
      ensures status == Invalid <==> |missing| != |old(txnAvailable)| - Filled(old(txnAvailable))
      ensures status != Invalid ==> vtx == Merged(old(txnAvailable), missing)
      ensures status != Invalid ==> status == StatusOf(check(vtx))
      ensures |missing| >= |old(txnAvailable)| - Filled(old(txnAvailable)) ==> headerNull && txnAvailable == []
      ensures |missing| < |old(txnAvailable)| - Filled(old(txnAvailable)) ==>
                !headerNull && exists q :: RunsOut(old(txnAvailable), missing, q) && txnAvailable == Cleared(old(txnAvailable), q)
    {
      hide Filled, Merged;
      ghost var s := txnAvailable;
      vtx := [];
      var txMissingOffset := 0;
      StartMerge(s, missing);
      assert Cleared(s, 0) == s;
      for i := 0 to |txnAvailable|
        invariant txnAvailable == Cleared(s, i) && txMissingOffset == Rank(s, i) <= |missing|
        invariant !headerNull && |vtx| == i && vtx == Merged(s[..i], missing[..txMissingOffset])
      {
        MergeNext(s, missing, i, txMissingOffset);
        if txnAvailable[i].None? {
          if |missing| <= txMissingOffset {
            TooFew(s, i, |missing|);
            assert RunsOut(s, missing, i);
            return Invalid, vtx;
          }
          vtx := vtx + [missing[txMissingOffset]];
          txMissingOffset := txMissingOffset + 1;
        } else {
          vtx := vtx + [txnAvailable[i].value];
          txnAvailable := txnAvailable[i := None];
        }
        assert txnAvailable == Cleared(s, i + 1);
      }
      headerNull := true;
      txnAvailable := [];
      assert s[..|s|] == s;
      if |missing| != txMissingOffset {
        return Invalid, vtx;
      }
      assert missing[..|missing|] == missing;
      return StatusOf(check(vtx)), vtx;
    }
  }

  // Map the short ids and match the mempool, then the extra transactions.
  method FillKnown(sid: ShortIds, c: CompactBlock, s0: Slots, pool: seq<Known>, extraTxn: seq<Known>, crowded: nat -> bool)
      returns (r: MapOutcome, slots: Slots, mempoolCount: nat)
    requires Placed(c, s0, |c.prefilledtxn|)
    ensures r == Endless <==> Overfull(c)
    ensures r == Done <==> !Overfull(c) && Distinct(c.shorttxids) && Spacious(c, crowded)
    ensures r == Done ==> |slots| == TxCount(c) && Initialized(sid, c, pool + extraTxn, slots)
    ensures r == Done && TxCount(c) <= 0x1_0000 ==> |c.prefilledtxn| + mempoolCount == Filled(slots)
  {
    hide Filled, Placed, Recorded, Held, SlotMatched, Distinct, Spacious, InitializedWith;
    PlacedFacts(c, s0);
    slots, mempoolCount := s0, 0;
    var shorttxids;
    r, shorttxids := MapShortIds(c, slots, crowded);
    if r != Done {
      return;
    }
    RecordedInside(c, s0, shorttxids, |c.shorttxids|);
    var haveTxn := seq(|slots|, i => false);
    MatchStart(sid, shorttxids, s0, haveTxn);
    slots, haveTxn, mempoolCount := MatchAll(sid, shorttxids, s0, slots, haveTxn, mempoolCount, [], pool, false);
    assert [] + pool == pool;
    slots, haveTxn, mempoolCount := MatchAll(sid, shorttxids, s0, slots, haveTxn, mempoolCount, pool, extraTxn, true);
    Assembled(sid, c, pool + extraTxn, slots, s0, shorttxids, haveTxn);
    if TxCount(c) <= 0x1_0000 {
      CountsAdd(sid, c, pool + extraTxn, slots, s0, shorttxids, haveTxn);
    }
  }

  lemma Assembled(sid: ShortIds, c: CompactBlock, known: seq<Known>, s: Slots, s0: Slots, m: map<nat, nat>, have: seq<bool>)
    requires Placed(c, s0, |c.prefilledtxn|) && Recorded(c, s0, m, |c.shorttxids|) && Distinct(c.shorttxids)
    requires Matched(sid, m, s0, s, have, known)
    ensures InitializedWith(sid, c, known, s, s0, m, have)
  {
  }

  // Up to 65536 transactions a match only ever takes an empty slot that it was announced for.
  lemma TakesEmpty(sid: ShortIds, c: CompactBlock, known: seq<Known>, s: Slots, s0: Slots, m: map<nat, nat>, have: seq<bool>, p: nat)
    requires InitializedWith(sid, c, known, s, s0, m, have) && TxCount(c) <= 0x1_0000 && p < |s|
    ensures |s| == |s0| == |have| && Mapped(c, s0, m) && (if have[p] then s0[p].None? else s[p] == s0[p])
  {
    hide Placed, Recorded, Distinct, TwiceAt, Offered, Rank;
    RecordedRightIff(c, s0, m);
    assert SlotMatched(sid, m, s0[p], s[p], have[p], known, p);
    if have[p] {
      var k :| 0 <= k < |known| && Hits(sid, m, known[k], p);
      assert MapsTo(c, s0, sid(known[k].hash), p);
    }
  }

  lemma CountsAdd(sid: ShortIds, c: CompactBlock, known: seq<Known>, s: Slots, s0: Slots, m: map<nat, nat>, have: seq<bool>)
    requires InitializedWith(sid, c, known, s, s0, m, have) && TxCount(c) <= 0x1_0000
    ensures |s| == |have| && |c.prefilledtxn| + Held(s, have) == Filled(s)
  {
    hide Filled, Held, Recorded, Mapped, SlotMatched, Distinct;
    forall p | 0 <= p < |s| ensures if have[p] then s0[p].None? else s[p] == s0[p] {
      TakesEmpty(sid, c, known, s, s0, m, have, p);
    }
    HeldAndFilled(s0, s, have);
  }

  function Merged(s: Slots, missing: seq<Tx>): (r: seq<Tx>)
    requires |missing| == |s| - Filled(s)
    ensures |r| == |s|
  {
    if s == [] then []
    else
      var n := |s| - 1;
      assert s[..n + 1] == s;
      if s[n].Some? then Merged(s[..n], missing) + [s[n].value]
      else Merged(s[..n], missing[..|missing| - 1]) + [missing[|missing| - 1]]
  }

  lemma StartMerge(s: Slots, missing: seq<Tx>)
    ensures Rank(s, 0) == 0 && s[..0] == [] && missing[..0] == [] && Merged([], []) == []
  {
  }

  lemma MergeNext(s: Slots, missing: seq<Tx>, i: nat, k: nat)
    requires i < |s| && k <= |missing| && k == Rank(s, i)
    ensures Rank(s, i + 1) == if s[i].Some? then k else k + 1
    ensures s[i].Some? ==> Merged(s[..i + 1], missing[..k]) == Merged(s[..i], missing[..k]) + [s[i].value]
    ensures s[i].None? && k < |missing| ==> Merged(s[..i + 1], missing[..k + 1]) == Merged(s[..i], missing[..k]) + [missing[k]]
  {
    FilledNext(s, i);
    assert s[..i + 1][..i] == s[..i];
    if k < |missing| {
      assert missing[..k + 1][..k] == missing[..k];
    }
  }

  lemma TooFew(s: Slots, i: nat, k: nat)
    requires i < |s| && s[i].None? && Rank(s, i) == k
    ensures k < |s| - Filled(s)
  {
    RankMonotone(s, i, |s|);
    assert s[..|s|] == s;
  }

  // --- Rebuilding ---

  // c announces vtx: prefilled transactions are in place, and the others have their short ids, in order.
  ghost predicate Announces(sid: ShortIds, key: Tx -> nat, c: CompactBlock, vtx: seq<Tx>) {
    && |vtx| == TxCount(c)
    && (forall i :: 0 <= i < |c.prefilledtxn| ==> 0 <= Position(c.prefilledtxn, i) < |vtx| && vtx[Position(c.prefilledtxn, i)] == c.prefilledtxn[i].tx)
    && forall s0: Slots, p :: Placed(c, s0, |c.prefilledtxn|) && 0 <= p < |s0| && s0[p].None? && 0 <= Rank(s0, p) < |c.shorttxids| ==>
         c.shorttxids[Rank(s0, p)] == sid(key(vtx[p]))
  }

  // Among the known transactions a short id of the block means the transaction of the block.
  ghost predicate Unambiguous(sid: ShortIds, key: Tx -> nat, known: seq<Known>, vtx: seq<Tx>) {
    forall k, p :: 0 <= k < |known| && 0 <= p < |vtx| && sid(known[k].hash) == sid(key(vtx[p])) ==> known[k].tx == vtx[p]
  }

  // One slot, with the prefilled slots s0 and the map m at hand.
  lemma SlotRight(sid: ShortIds, key: Tx -> nat, c: CompactBlock, known: seq<Known>, s: Slots, s0: Slots, m: map<nat, nat>, have: seq<bool>,
                  vtx: seq<Tx>, p: nat)
    requires InitializedWith(sid, c, known, s, s0, m, have) && TxCount(c) <= 0x1_0000
    requires Announces(sid, key, c, vtx) && Unambiguous(sid, key, known, vtx) && p < |s|
    ensures |s| == |vtx| && (s[p].None? || s[p] == Some(vtx[p]))
  {
    hide Filled, PlaceOk, Rank, Recorded, Distinct, TwiceAt, Position;
    TakesEmpty(sid, c, known, s, s0, m, have, p);
    assert SlotMatched(sid, m, s0[p], s[p], have[p], known, p);
    if s[p].Some? {
      if have[p] {
        var k :| 0 <= k < |known| && known[k].tx == s[p].value && Hits(sid, m, known[k], p);
        assert MapsTo(c, s0, sid(known[k].hash), p);
      } else {
        var i :| 0 <= i < |c.prefilledtxn| && Position(c.prefilledtxn, i) == p;
      }
    }
  }

  /** Up to 65536 transactions every slot is empty or holds the transaction of the block. */
  lemma SlotsRight(sid: ShortIds, key: Tx -> nat, c: CompactBlock, known: seq<Known>, s: Slots, vtx: seq<Tx>, p: nat)
    requires Initialized(sid, c, known, s) && TxCount(c) <= 0x1_0000
    requires Announces(sid, key, c, vtx) && Unambiguous(sid, key, known, vtx) && p < |s|
    ensures |s| == |vtx| && (s[p].None? || s[p] == Some(vtx[p]))
  {
    hide InitializedWith, Announces, Unambiguous;
    var s0, m, have :| InitializedWith(sid, c, known, s, s0, m, have);
    SlotRight(sid, key, c, known, s, s0, m, have, vtx, p);
  }

  /** The slots past the first 65536 stay empty, whatever is known. */
  lemma HighSlotsEmpty(sid: ShortIds, c: CompactBlock, known: seq<Known>, s: Slots, p: nat)
    requires Initialized(sid, c, known, s) && MAX_UINT16 < p < |s|
    ensures s[p].None?
  {
    hide Placed, Recorded, Distinct, TwiceAt, Offered, Rank;
    var s0, m, have :| InitializedWith(sid, c, known, s, s0, m, have);
    PrefilledLow(c, s0);
    RecordedInside(c, s0, m, |c.shorttxids|);
    assert SlotMatched(sid, m, s0[p], s[p], have[p], known, p);
  }

  /** Past 65536 transactions a match for the last one is put into another slot. */
  lemma LastMisplaced(sid: ShortIds, c: CompactBlock, x: Known, s: Slots)
    requires Initialized(sid, c, [x], s) && TxCount(c) > 0x1_0000 && sid(x.hash) == c.shorttxids[|c.shorttxids| - 1]
    ensures |s| == TxCount(c) && s[TxCount(c) - 1].None? && s[(TxCount(c) - 1) % 0x1_0000] == Some(x.tx)
  {
    hide Placed, Recorded, Distinct, Rank;
    var s0, m, have :| InitializedWith(sid, c, [x], s, s0, m, have);
    PlacedFacts(c, s0);
    HighSlotsEmpty(sid, c, [x], s, TxCount(c) - 1);
    LastWrapped(c, s0, m);
    var at := (TxCount(c) - 1) % 0x1_0000;
    assert Hits(sid, m, [x][0], at);
    assert SlotMatched(sid, m, s0[at], s[at], have[at], [x], at);
  }

  // The short id announced for an empty slot is mapped to it.
  lemma MappedTo(c: CompactBlock, s0: Slots, m: map<nat, nat>, p: nat)
    requires Placed(c, s0, |c.prefilledtxn|) && Mapped(c, s0, m) && Distinct(c.shorttxids) && p < |s0| && s0[p].None?
    ensures 0 <= Rank(s0, p) < |c.shorttxids| && c.shorttxids[Rank(s0, p)] in m && m[c.shorttxids[Rank(s0, p)]] == p
  {
    PlacedFacts(c, s0);
    StartRank(s0);
    assert s0[..|s0|] == s0;
    hide Filled, Placed, Distinct;
    RankMonotone(s0, 0, p);
    RankMonotone(s0, p, |s0|);
    var x := c.shorttxids[Rank(s0, p)];
    assert MapsTo(c, s0, x, m[x]);
    SameRank(c, s0, m[x], p);
  }

  // A known transaction has the short id x; two of them have it.
  ghost predicate Seen(sid: ShortIds, known: seq<Known>, x: nat) {
    exists k :: 0 <= k < |known| && sid(known[k].hash) == x
  }

  ghost predicate SeenTwice(sid: ShortIds, known: seq<Known>, x: nat) {
    exists j, k :: 0 <= j < k < |known| && sid(known[j].hash) == x && sid(known[k].hash) == x
  }

  /** Up to 65536 transactions a slot is left empty only if no known transaction has its short id, or two have it. */
  lemma OnlyUnknownLeft(sid: ShortIds, key: Tx -> nat, c: CompactBlock, known: seq<Known>, s: Slots, vtx: seq<Tx>, p: nat)
    requires Initialized(sid, c, known, s) && TxCount(c) <= 0x1_0000 && Announces(sid, key, c, vtx) && p < |s| && s[p].None?
    ensures |s| == |vtx| && (!Seen(sid, known, sid(key(vtx[p]))) || SeenTwice(sid, known, sid(key(vtx[p]))))
  {
    hide InitializedWith, Announces;
    var s0, m, have :| InitializedWith(sid, c, known, s, s0, m, have);
    TakesEmpty(sid, c, known, s, s0, m, have, p);
    EmptyFacts(sid, c, known, s, s0, m, have, p);
    MappedTo(c, s0, m, p);
    AnnouncedId(sid, key, c, vtx, s0, p);
  }

  lemma AnnouncedId(sid: ShortIds, key: Tx -> nat, c: CompactBlock, vtx: seq<Tx>, s0: Slots, p: nat)
    requires Announces(sid, key, c, vtx) && Placed(c, s0, |c.prefilledtxn|) && p < |s0| && s0[p].None? && 0 <= Rank(s0, p) < |c.shorttxids|
    ensures |s0| == |vtx| && c.shorttxids[Rank(s0, p)] == sid(key(vtx[p]))
  {
    hide Rank, Filled, PlaceOk;
  }

  lemma EmptyFacts(sid: ShortIds, c: CompactBlock, known: seq<Known>, s: Slots, s0: Slots, m: map<nat, nat>, have: seq<bool>, p: nat)
    requires InitializedWith(sid, c, known, s, s0, m, have) && Mapped(c, s0, m) && p < |s| && s[p].None?
    ensures Placed(c, s0, |c.prefilledtxn|) && Distinct(c.shorttxids) && |s| == |s0| == |have|
    ensures !have[p] || s0[p].None?
    ensures forall x :: x in m && m[x] == p ==> !Seen(sid, known, x) || SeenTwice(sid, known, x)
  {
    hide Placed, Recorded, Distinct, Rank;
    assert SlotMatched(sid, m, s0[p], s[p], have[p], known, p);
    forall x | x in m && m[x] == p && Seen(sid, known, x) ensures SeenTwice(sid, known, x) {
      var k :| 0 <= k < |known| && sid(known[k].hash) == x;
      assert Hits(sid, m, known[k], p);
      var i, j :| 0 <= i < j < |known| && Hits(sid, m, known[i], p) && Hits(sid, m, known[j], p);
      assert MapsTo(c, s0, sid(known[i].hash), p) && MapsTo(c, s0, sid(known[j].hash), p) && MapsTo(c, s0, x, p);
    }
    if have[p] {
      var i :| 0 <= i < |known| && Hits(sid, m, known[i], p);
      assert MapsTo(c, s0, sid(known[i].hash), p);
    }
  }

  // The transactions of the block whose slots are empty.
  function Wanted(s: Slots, vtx: seq<Tx>): (r: seq<Tx>)
    requires |s| == |vtx|
    ensures |r| == |s| - Filled(s)
  {
    if s == [] then []
    else
      var n := |s| - 1;
      Wanted(s[..n], vtx[..n]) + if s[n].None? then [vtx[n]] else []
  }

  lemma {:induction false} MergedIsBlock(s: Slots, vtx: seq<Tx>)
    requires |s| == |vtx| && forall p :: 0 <= p < |s| ==> s[p].None? || s[p] == Some(vtx[p])
    ensures Merged(s, Wanted(s, vtx)) == vtx
  {
    if s != [] {
      var n := |s| - 1;
      MergedIsBlock(s[..n], vtx[..n]);
      assert vtx == vtx[..n] + [vtx[n]];
      hide Filled;
      var w := Wanted(s, vtx);
      if s[n].None? {
        assert w[..|w| - 1] == Wanted(s[..n], vtx[..n]);
      } else {
        assert w == Wanted(s[..n], vtx[..n]);
      }
    }
  }

  // --- Announcing ---

  function Announcement(sid: ShortIds, key: Tx -> nat, vtx: seq<Tx>): CompactBlock
    requires vtx != []
  {
    CompactBlock(false, seq(|vtx| - 1, i requires 0 <= i < |vtx| - 1 => sid(key(vtx[i + 1]))), [Prefilled(0, vtx[0])])
  }

  method Announce(sid: ShortIds, key: Tx -> nat, vtx: seq<Tx>) returns (c: CompactBlock)
    requires vtx != []
    ensures c == Announcement(sid, key, vtx) && Announces(sid, key, c, vtx)
  {
    var shorttxids: seq<nat> := [];
    for i := 1 to |vtx|
      invariant |shorttxids| == i - 1 && forall k :: 0 <= k < i - 1 ==> shorttxids[k] == sid(key(vtx[k + 1]))
    {
      shorttxids := shorttxids + [sid(key(vtx[i]))];
    }
    c := CompactBlock(false, shorttxids, [Prefilled(0, vtx[0])]);
    assert shorttxids == Announcement(sid, key, vtx).shorttxids;
    AnnouncesRight(sid, key, vtx);
  }

  lemma AnnouncesRight(sid: ShortIds, key: Tx -> nat, vtx: seq<Tx>)
    requires vtx != []
    ensures Announces(sid, key, Announcement(sid, key, vtx), vtx)
  {
    var c := Announcement(sid, key, vtx);
    OnlyFirst(c.prefilledtxn);
    forall s0: Slots, p | Placed(c, s0, 1) && 0 <= p < |s0| && s0[p].None? && 0 <= Rank(s0, p) < |c.shorttxids|
      ensures c.shorttxids[Rank(s0, p)] == sid(key(vtx[p]))
    {
      CoinbaseFirst(c, s0, p);
    }
  }

  lemma OnlyFirst(p: seq<Prefilled>)
    requires |p| == 1 && p[0].index == 0
    ensures Position(p, 0) == 0
  {
    assert Position(p, -1) == -1;
  }

  // With only the first slot filled, the empty slots before p are all but the first.
  lemma CoinbaseFirst(c: CompactBlock, s: Slots, p: nat)
    requires |c.prefilledtxn| == 1 && c.prefilledtxn[0].index == 0 && Placed(c, s, 1) && p < |s| && s[p].None?
    ensures p >= 1 && Rank(s, p) == p - 1
  {
    OnlyFirst(c.prefilledtxn);
    assert s[Position(c.prefilledtxn, 0)].Some?;
    forall q | 0 <= q < |s| && s[q].Some? ensures q == 0 {
      var i :| 0 <= i < 1 && Position(c.prefilledtxn, i) == q;
    }
    OneFilled(s, p);
  }

  lemma {:induction false} OneFilled(s: Slots, p: nat)
    requires 1 <= p <= |s| && s[0].Some? && forall q :: 1 <= q < |s| ==> s[q].None?
    ensures Filled(s[..p]) == 1
  {
    FilledNext(s, p - 1);
    if p > 1 {
      OneFilled(s, p - 1);
    }
  }

  // The short ids of all but the first transaction differ.
  predicate DistinctIds(sid: ShortIds, key: Tx -> nat, vtx: seq<Tx>) {
    forall i, j :: 1 <= i < j < |vtx| ==> sid(key(vtx[i])) != sid(key(vtx[j]))
  }

  lemma DistinctAnnounced(sid: ShortIds, key: Tx -> nat, vtx: seq<Tx>)
    requires vtx != []
    ensures Distinct(Announcement(sid, key, vtx).shorttxids) <==> DistinctIds(sid, key, vtx)
  {
    var ids := Announcement(sid, key, vtx).shorttxids;
    if Distinct(ids) {
      forall i, j | 1 <= i < j < |vtx| ensures sid(key(vtx[i])) != sid(key(vtx[j])) {
        assert ids[i - 1] != ids[j - 1];
      }
    }
  }

  // --- Past 65536 transactions ---

  // The known transaction k has the short id of transaction j of the block.
  ghost predicate Hit(sid: ShortIds, key: Tx -> nat, known: seq<Known>, vtx: seq<Tx>, k: int, j: int) {
    0 <= k < |known| && 1 <= j < |vtx| && sid(known[k].hash) == sid(key(vtx[j]))
  }

  /** Every known transaction past place 65535 is the same as the one whose slot it is put into. */
  ghost predicate Harmless(sid: ShortIds, key: Tx -> nat, known: seq<Known>, vtx: seq<Tx>) {
    forall k, j :: Hit(sid, key, known, vtx, k, j) ==> vtx[j % 0x1_0000] == vtx[j]
  }

  // No two known transactions are put into one slot.
  ghost predicate Uncontested(sid: ShortIds, key: Tx -> nat, known: seq<Known>, vtx: seq<Tx>) {
    forall k, k', j, j' :: Hit(sid, key, known, vtx, k, j) && Hit(sid, key, known, vtx, k', j') && j % 0x1_0000 == j' % 0x1_0000 ==> k == k'
  }

  // Up to 65536 there is nothing to be confused with.
  lemma SmallIsHarmless(sid: ShortIds, key: Tx -> nat, known: seq<Known>, vtx: seq<Tx>)
    requires |vtx| <= 0x1_0000
    ensures Harmless(sid, key, known, vtx)
  {
  }

  lemma AnnouncedAt(sid: ShortIds, key: Tx -> nat, vtx: seq<Tx>, s0: Slots, q: nat)
    requires vtx != [] && Placed(Announcement(sid, key, vtx), s0, 1) && q < |s0| && s0[q].None?
    ensures |s0| == |vtx| && q >= 1 && Rank(s0, q) == q - 1 && Announcement(sid, key, vtx).shorttxids[q - 1] == sid(key(vtx[q]))
  {
    var c := Announcement(sid, key, vtx);
    PlacedFacts(c, s0);
    CoinbaseFirst(c, s0, q);
  }

  // What the map says about a short id: some transaction of the block with that id, at its 16-bit slot.
  lemma RecordedFor(sid: ShortIds, key: Tx -> nat, vtx: seq<Tx>, s0: Slots, m: map<nat, nat>, x: nat) returns (q: nat)
    requires vtx != [] && x in m
    requires var c := Announcement(sid, key, vtx); Placed(c, s0, 1) && Recorded(c, s0, m, |c.shorttxids|)
    ensures 1 <= q < |vtx| && x == sid(key(vtx[q])) && m[x] == q % 0x1_0000
  {
    hide Placed, Rank;
    var c := Announcement(sid, key, vtx);
    q :| RecordedAt(c, s0, |c.shorttxids|, x, m[x], q);
    AnnouncedAt(sid, key, vtx, s0, q);
  }

  lemma RecordedOf(sid: ShortIds, key: Tx -> nat, vtx: seq<Tx>, s0: Slots, m: map<nat, nat>, j: nat)
    requires 1 <= j < |vtx| && DistinctIds(sid, key, vtx)
    requires var c := Announcement(sid, key, vtx); Placed(c, s0, 1) && Recorded(c, s0, m, |c.shorttxids|)
    ensures sid(key(vtx[j])) in m && m[sid(key(vtx[j]))] == j % 0x1_0000
  {
    var c := Announcement(sid, key, vtx);
    assert c.shorttxids[j - 1] == sid(key(vtx[j]));
    hide Placed, RecordedAt;
    var q := RecordedFor(sid, key, vtx, s0, m, sid(key(vtx[j])));
  }

  // A slot holds the transaction of the block, or one that is 65536 places further on.
  lemma SlotHolds(sid: ShortIds, key: Tx -> nat, vtx: seq<Tx>, known: seq<Known>, s: Slots, s0: Slots, m: map<nat, nat>, have: seq<bool>, p: nat)
    requires vtx != [] && InitializedWith(sid, Announcement(sid, key, vtx), known, s, s0, m, have) && p < |s| && s[p].Some?
    requires Unambiguous(sid, key, known, vtx)
    ensures |s| == |vtx|
    ensures s[p] == Some(vtx[p]) || exists k, j :: Hit(sid, key, known, vtx, k, j) && j % 0x1_0000 == p && s[p] == Some(vtx[j])
  {
    hide Recorded, Distinct, TwiceAt, Rank, Announcement;
    var c := Announcement(sid, key, vtx);
    OnePrefilled(sid, key, vtx);
    PlacedFacts(c, s0);
    assert SlotMatched(sid, m, s0[p], s[p], have[p], known, p);
    if have[p] {
      var k :| 0 <= k < |known| && known[k].tx == s[p].value && Hits(sid, m, known[k], p);
      hide Placed;
      var q := RecordedFor(sid, key, vtx, s0, m, sid(known[k].hash));
      assert Hit(sid, key, known, vtx, k, q);
    } else {
      var i :| 0 <= i < |c.prefilledtxn| && Position(c.prefilledtxn, i) == p;
      OnlyFirst(c.prefilledtxn);
    }
  }

  lemma OnePrefilled(sid: ShortIds, key: Tx -> nat, vtx: seq<Tx>)
    requires vtx != []
    ensures var c := Announcement(sid, key, vtx); c.prefilledtxn == [Prefilled(0, vtx[0])] && TxCount(c) == |vtx|
  {
  }

  lemma HarmlessSlots(sid: ShortIds, key: Tx -> nat, vtx: seq<Tx>, known: seq<Known>, s: Slots)
    requires vtx != [] && Initialized(sid, Announcement(sid, key, vtx), known, s)
    requires Unambiguous(sid, key, known, vtx) && Harmless(sid, key, known, vtx)
    ensures forall p :: 0 <= p < |s| && s[p].Some? ==> |s| == |vtx| && s[p] == Some(vtx[p])
  {
    hide InitializedWith, Unambiguous;
    var s0, m, have :| InitializedWith(sid, Announcement(sid, key, vtx), known, s, s0, m, have);
    forall p | 0 <= p < |s| && s[p].Some? ensures |s| == |vtx| && s[p] == Some(vtx[p]) {
      SlotHolds(sid, key, vtx, known, s, s0, m, have, p);
    }
  }

  // Without contention a harmful match ends up in its wrong slot.
  lemma HarmfulSlot(sid: ShortIds, key: Tx -> nat, vtx: seq<Tx>, known: seq<Known>, s: Slots, k: nat, j: nat)
    requires vtx != [] && Initialized(sid, Announcement(sid, key, vtx), known, s) && DistinctIds(sid, key, vtx)
    requires Unambiguous(sid, key, known, vtx) && Uncontested(sid, key, known, vtx) && Hit(sid, key, known, vtx, k, j)
    ensures |s| == |vtx| && s[j % 0x1_0000] == Some(vtx[j])
  {
    hide Recorded, Distinct, Rank, Announcement, DistinctIds, Placed;
    var s0, m, have :| InitializedWith(sid, Announcement(sid, key, vtx), known, s, s0, m, have);
    var p := j % 0x1_0000;
    OnePrefilled(sid, key, vtx);
    PlacedFacts(Announcement(sid, key, vtx), s0);
    RecordedOf(sid, key, vtx, s0, m, j);
    assert Hits(sid, m, known[k], p);
    assert SlotMatched(sid, m, s0[p], s[p], have[p], known, p);
    forall i | 0 <= i < |known| && Hits(sid, m, known[i], p) ensures i == k {
      var q := RecordedFor(sid, key, vtx, s0, m, sid(known[i].hash));
      assert Hit(sid, key, known, vtx, i, q);
    }
  }

  // Filling an empty slot never changes a filled one.
  lemma {:induction false} MergedKeeps(s: Slots, missing: seq<Tx>, p: nat)
    requires |missing| == |s| - Filled(s) && p < |s| && s[p].Some?
    ensures Merged(s, missing)[p] == s[p].value
  {
    var n := |s| - 1;
    if p < n {
      MergedKeeps(s[..n], if s[n].None? then missing[..|missing| - 1] else missing, p);
    }
  }

  lemma RebuiltIff(sid: ShortIds, key: Tx -> nat, vtx: seq<Tx>, known: seq<Known>, s: Slots)
    requires vtx != [] && |s| == |vtx| && Initialized(sid, Announcement(sid, key, vtx), known, s) && DistinctIds(sid, key, vtx)
    requires Unambiguous(sid, key, known, vtx)
    ensures Harmless(sid, key, known, vtx) ==> Merged(s, Wanted(s, vtx)) == vtx
    ensures Uncontested(sid, key, known, vtx) && Merged(s, Wanted(s, vtx)) == vtx ==> Harmless(sid, key, known, vtx)
  {
    hide Initialized, Merged, Wanted, Filled, DistinctIds, Unambiguous, Uncontested;
    if Harmless(sid, key, known, vtx) {
      HarmlessSlots(sid, key, vtx, known, s);
      MergedIsBlock(s, vtx);
    }
    if Uncontested(sid, key, known, vtx) && Merged(s, Wanted(s, vtx)) == vtx {
      forall k, j | Hit(sid, key, known, vtx, k, j) ensures vtx[j % 0x1_0000] == vtx[j] {
        HarmfulSlot(sid, key, vtx, known, s, k, j);
        MergedKeeps(s, Wanted(s, vtx), j % 0x1_0000);
      }
    }
  }

  function StatusOf(v: Verdict): ReadStatus {
    match v
    case Passes => Ok
    case Corrupt => Failed
    case Fails => CheckBlockFailed
  }

  // The block can be announced and read: not too large, no short id twice, no bucket overfull.
  ghost predicate Readable(sid: ShortIds, key: Tx -> nat, vtx: seq<Tx>, crowded: nat -> bool) {
    |vtx| <= MAX_TX_COUNT && DistinctIds(sid, key, vtx) && forall i :: 0 <= i < |vtx| - 1 ==> !crowded(i)
  }

  /**
   * Announce, read, fill with what is missing and validate. The block comes back exactly if no known transaction is put
   * into the slot of a different one. That cannot happen up to 65536 transactions; past that it does, unless two matches
   * for one slot cancel out.
   */
  method Relay(sid: ShortIds, key: Tx -> nat, vtx: seq<Tx>, pool: seq<Known>, extraTxn: seq<Known>, crowded: nat -> bool,
               check: seq<Tx> -> Verdict)
      returns (status: ReadStatus, rebuilt: seq<Tx>)
    requires vtx != [] && !vtx[0].isNull && Unambiguous(sid, key, pool + extraTxn, vtx) && check(vtx) == Passes
    ensures !Readable(sid, key, vtx, crowded) ==> status == if |vtx| > MAX_TX_COUNT then Invalid else Failed
    ensures Readable(sid, key, vtx, crowded) ==> status == StatusOf(check(rebuilt))
    ensures Readable(sid, key, vtx, crowded) && |vtx| <= 0x1_0000 ==> status == Ok && rebuilt == vtx
    ensures Readable(sid, key, vtx, crowded) && Harmless(sid, key, pool + extraTxn, vtx) ==> status == Ok && rebuilt == vtx
    ensures Readable(sid, key, vtx, crowded) && Uncontested(sid, key, pool + extraTxn, vtx) && rebuilt == vtx ==>
              Harmless(sid, key, pool + extraTxn, vtx)
  {
    hide Filled, Announces, Unambiguous, Initialized, Merged, Wanted, Distinct, DistinctIds, Harmless, Uncontested;
    var c := Announce(sid, key, vtx);
    DistinctAnnounced(sid, key, vtx);
    FirstFits(c);
    var b := new PartiallyDownloadedBlock();
    rebuilt := [];
    status := b.InitData(sid, c, pool, extraTxn, crowded);
    if status == Ok {
      ghost var s := b.txnAvailable;
      RebuiltIff(sid, key, vtx, pool + extraTxn, s);
      if |vtx| <= 0x1_0000 {
        SmallIsHarmless(sid, key, pool + extraTxn, vtx);
      }
      var missing := Missing(b, vtx);
      WantedSize(s, vtx);
      status, rebuilt := b.FillBlock(missing, check);
    }
  }

  lemma WantedSize(s: Slots, vtx: seq<Tx>)
    requires |s| == |vtx|
    ensures |Wanted(s, vtx)| == |s| - Filled(s)
  {
  }

  lemma FirstFits(c: CompactBlock)
    requires |c.prefilledtxn| == 1 && c.prefilledtxn[0].index == 0 && !c.prefilledtxn[0].tx.isNull
    ensures forall i :: 0 <= i < |c.prefilledtxn| ==> PlaceOk(c, i)
  {
    OnlyFirst(c.prefilledtxn);
  }

  // What is asked for: the transactions whose slots are empty.
  method Missing(b: PartiallyDownloadedBlock, vtx: seq<Tx>) returns (r: seq<Tx>)
    requires !b.headerNull && |b.txnAvailable| == |vtx|
    ensures r == Wanted(b.txnAvailable, vtx)
  {
    ghost var s := b.txnAvailable;
    r := [];
    for i := 0 to |vtx|
      invariant r == Wanted(s[..i], vtx[..i])
    {
      assert s[..i + 1][..i] == s[..i] && vtx[..i + 1][..i] == vtx[..i];
      if !b.IsTxAvailable(i) {
        r := r + [vtx[i]];
      }
    }
    assert s[..|s|] == s && vtx[..|vtx|] == vtx;
  }

  // --- Announcements that go wrong ---

  const SOME_TX := Tx(1, 1, false)

  lemma {:induction false} InRow(p: seq<Prefilled>, i: int)
    requires -1 <= i < |p| && forall k :: 0 <= k < |p| ==> p[k].index == 0
    ensures Position(p, i) == i
  {
    if i >= 0 {
      InRow(p, i - 1);
    }
  }

  /** 65536 prefilled transactions in a row and one short id: accepted, and every slot the offset can lead to is taken. */
  lemma EndlessAnnouncement(s: Slots, k: nat)
    ensures var c := CompactBlock(false, [7], seq(0x1_0000, _ => Prefilled(0, SOME_TX)));
            && Accepted(c) && TxCount(c) == 0x1_0001 && Overfull(c)
            && (Placed(c, s, |c.prefilledtxn|) ==> Bumped(0, k) < |s| && s[Bumped(0, k)].Some?)
  {
    var c := CompactBlock(false, [7], seq(0x1_0000, _ => Prefilled(0, SOME_TX)));
    forall i | 0 <= i < |c.prefilledtxn| ensures PlaceOk(c, i) {
      InRow(c.prefilledtxn, i);
    }
    if Placed(c, s, |c.prefilledtxn|) {
      hide Placed;
      PrefilledLow(c, s);
    }
  }

  /** A coinbase and 65536 short ids: accepted, and a match for the last transaction takes the slot of the coinbase. */
  lemma MisplacingAnnouncement(sid: ShortIds, x: Known, s: Slots)
    requires sid(x.hash) == 0xffff && x.tx != SOME_TX
    ensures var c := CompactBlock(false, seq(0x1_0000, i => i), [Prefilled(0, SOME_TX)]);
            && Accepted(c) && TxCount(c) == 0x1_0001 && !Overfull(c) && Distinct(c.shorttxids)
            && (Initialized(sid, c, [x], s) ==> |s| == TxCount(c) && s[0] == Some(x.tx) != Some(SOME_TX) && s[0x1_0000].None?)
  {
    var c := CompactBlock(false, seq(0x1_0000, i => i), [Prefilled(0, SOME_TX)]);
    FirstFits(c);
    assert c.shorttxids[0xffff] == 0xffff;
    if Initialized(sid, c, [x], s) {
      LastMisplaced(sid, c, x, s);
    }
  }
}
