/** The signature cache: a cuckoo table with lazily collected entries and epochs. */
module CuckooCache {
  import opened ByteBits
  import opened Common
  import opened Powers

  // --- Packed flags ---

  // The flags of the first n entries.
  function Flags(mem: seq<bv8>, n: nat): (r: seq<bool>)
    requires n <= 8 * |mem|
    ensures |r| == n
  {
    seq(n, i requires 0 <= i < n => BitAt(mem, i))
  }

  function BitSet(mem: seq<bv8>, s: nat): (r: seq<bv8>)
    requires s < 8 * |mem|
    ensures |r| == |mem| && forall n :: s < n <= 8 * |mem| ==> Flags(r, n) == Flags(mem, n)[s := true]
  {
    var r := mem[s / 8 := WithBit(mem[s / 8], s % 8)];
    SetOne(mem, s);
    r
  }

  lemma SetOne(mem: seq<bv8>, s: nat)
    requires s < 8 * |mem|
    ensures var r := mem[s / 8 := WithBit(mem[s / 8], s % 8)];
            forall n :: s < n <= 8 * |mem| ==> Flags(r, n) == Flags(mem, n)[s := true]
  {
    var r := mem[s / 8 := WithBit(mem[s / 8], s % 8)];
    hide BitAt;
    forall i | 0 <= i < 8 * |mem| ensures BitAt(r, i) == (i == s || BitAt(mem, i)) {
      SetAt(mem, s, i);
    }
  }

  lemma SetAt(mem: seq<bv8>, s: nat, i: nat)
    requires s < 8 * |mem| && i < 8 * |mem|
    ensures BitAt(mem[s / 8 := WithBit(mem[s / 8], s % 8)], i) == (i == s || BitAt(mem, i))
  {
    hide Bit, WithBit, WithoutBit;
    SameBit(i, s);
    OneBit(mem[s / 8], s % 8, i % 8);
  }

  function BitUnset(mem: seq<bv8>, s: nat): (r: seq<bv8>)
    requires s < 8 * |mem|
    ensures |r| == |mem| && forall n :: s < n <= 8 * |mem| ==> Flags(r, n) == Flags(mem, n)[s := false]
  {
    var r := mem[s / 8 := WithoutBit(mem[s / 8], s % 8)];
    UnsetOne(mem, s);
    r
  }

  lemma UnsetOne(mem: seq<bv8>, s: nat)
    requires s < 8 * |mem|
    ensures var r := mem[s / 8 := WithoutBit(mem[s / 8], s % 8)];
            forall n :: s < n <= 8 * |mem| ==> Flags(r, n) == Flags(mem, n)[s := false]
  {
    var r := mem[s / 8 := WithoutBit(mem[s / 8], s % 8)];
    hide BitAt;
    forall i | 0 <= i < 8 * |mem| ensures BitAt(r, i) == (i != s && BitAt(mem, i)) {
      UnsetAt(mem, s, i);
    }
  }

  lemma UnsetAt(mem: seq<bv8>, s: nat, i: nat)
    requires s < 8 * |mem| && i < 8 * |mem|
    ensures BitAt(mem[s / 8 := WithoutBit(mem[s / 8], s % 8)], i) == (i != s && BitAt(mem, i))
  {
    hide Bit, WithBit, WithoutBit;
    SameBit(i, s);
    OneBit(mem[s / 8], s % 8, i % 8);
  }

  // All entries are collectable after setup.
  function AllSet(n: nat): (r: seq<bv8>)
    ensures n <= 8 * |r| && forall i :: 0 <= i < n ==> Flags(r, n)[i]
  {
    var r := seq((n + 7) / 8, i => 0xff as bv8);
    assert forall i :: 0 <= i < n ==> BitAt(r, i) by {
      forall i | 0 <= i < n ensures BitAt(r, i) {
        OneBit(0, 0, i % 8);
      }
    }
    r
  }

  // --- The table ---

  type Element = nat

  // What a slot holds before anything is inserted.
  const DEFAULT: Element := 0

  // The eight masked hashes of an element.
  type Hashing = Element -> seq<nat>

  ghost predicate HashesInto(hs: Hashing, size: nat) {
    forall e :: |hs(e)| == 8 && forall k :: 0 <= k < 8 ==> hs(e)[k] < size
  }

  datatype State = State(table: seq<Element>, garbage: seq<bool>, recent: seq<bool>, counter: nat)

  ghost predicate Shaped(s: State) {
    |s.garbage| == |s.table| && |s.recent| == |s.table|
  }

  // Every element is at one of its slots, and no element but the default one is there twice.
  ghost predicate Placed(hs: Hashing, table: seq<Element>) {
    forall i :: 0 <= i < |table| && table[i] != DEFAULT ==> i in hs(table[i])
  }

  ghost predicate Unique(table: seq<Element>) {
    forall i, j :: 0 <= i < j < |table| && table[i] != DEFAULT ==> table[i] != table[j]
  }

  // The elements in slots that may not be overwritten.
  ghost function Kept(table: seq<Element>, garbage: seq<bool>): multiset<Element>
    requires |garbage| == |table|
  {
    if table == [] then multiset{}
    else
      var n := |table| - 1;
      Kept(table[..n], garbage[..n]) + if garbage[n] then multiset{} else multiset{table[n]}
  }

  // The number of un-erased entries of the newest epoch.
  function Newest(recent: seq<bool>, garbage: seq<bool>): (c: nat)
    requires |garbage| == |recent|
    ensures c <= |recent|
  {
    if recent == [] then 0
    else
      var n := |recent| - 1;
      Newest(recent[..n], garbage[..n]) + if recent[n] && !garbage[n] then 1 else 0
  }

  function One(b: bool): nat { if b then 1 else 0 }

  lemma {:induction false} NewestUpdate(recent: seq<bool>, garbage: seq<bool>, i: nat, r: bool, g: bool)
    requires |garbage| == |recent| && i < |recent|
    ensures Newest(recent[i := r], garbage[i := g]) == Newest(recent, garbage) - One(recent[i] && !garbage[i]) + One(r && !g)
  {
    var n := |recent| - 1;
    if i == n {
      assert recent[i := r][..n] == recent[..n] && garbage[i := g][..n] == garbage[..n];
    } else {
      assert recent[i := r][..n] == recent[..n][i := r] && garbage[i := g][..n] == garbage[..n][i := g];
      NewestUpdate(recent[..n], garbage[..n], i, r, g);
    }
  }

  lemma NewestSame(recent: seq<bool>, garbage: seq<bool>, i: nat, r: bool)
    requires |garbage| == |recent| && i < |recent| && !garbage[i]
    ensures Newest(recent[i := r], garbage) == Newest(recent, garbage) - One(recent[i]) + One(r)
  {
    NewestUpdate(recent, garbage, i, r, false);
    assert garbage[i := false] == garbage;
  }

  lemma {:induction false} NewestNone(recent: seq<bool>, garbage: seq<bool>)
    requires |garbage| == |recent| && forall i :: 0 <= i < |recent| ==> !recent[i] || garbage[i]
    ensures Newest(recent, garbage) == 0
  {
    if recent != [] {
      NewestNone(recent[..|recent| - 1], garbage[..|recent| - 1]);
    }
  }

  function Keep(x: Element, g: bool): multiset<Element> { if g then multiset{} else multiset{x} }

  lemma KeptLast(table: seq<Element>, garbage: seq<bool>)
    requires |garbage| == |table| > 0
    ensures var n := |table| - 1; Kept(table, garbage) == Kept(table[..n], garbage[..n]) + Keep(table[n], garbage[n])
  {
  }

  lemma Swap3<T>(a: multiset<T>, b: multiset<T>, c: multiset<T>, d: multiset<T>, e: multiset<T>)
    requires a + b == c + d
    ensures (a + e) + b == (c + e) + d
  {
    Comm(a, e, b);
    Comm(c, e, d);
  }

  lemma Comm<T>(a: multiset<T>, b: multiset<T>, c: multiset<T>)
    ensures (a + b) + c == (a + c) + b
  {
  }

  // Replacing one slot.
  lemma {:induction false} KeptUpdate(table: seq<Element>, garbage: seq<bool>, i: nat, x: Element, g: bool)
    requires |garbage| == |table| && i < |table|
    ensures Kept(table[i := x], garbage[i := g]) + Keep(table[i], garbage[i]) == Kept(table, garbage) + Keep(x, g)
  {
    hide Kept, Keep;
    var n := |table| - 1;
    KeptLast(table, garbage);
    KeptLast(table[i := x], garbage[i := g]);
    if i == n {
      assert table[i := x][..n] == table[..n] && garbage[i := g][..n] == garbage[..n];
      Comm(Kept(table[..n], garbage[..n]), Keep(x, g), Keep(table[n], garbage[n]));
    } else {
      assert table[i := x][..n] == table[..n][i := x] && garbage[i := g][..n] == garbage[..n][i := g];
      KeptUpdate(table[..n], garbage[..n], i, x, g);
      Swap3(Kept(table[..n][i := x], garbage[..n][i := g]), Keep(table[i], garbage[i]), Kept(table[..n], garbage[..n]), Keep(x, g),
            Keep(table[n], garbage[n]));
    }
  }

  lemma Exchanged(table: seq<Element>, i: nat, x: Element)
    requires i < |table|
    ensures multiset(table[i := x]) + multiset{table[i]} == multiset(table) + multiset{x}
  {
    var a, b := table[..i], table[i + 1..];
    assert table == a + [table[i]] + b && table[i := x] == a + [x] + b;
  }

  lemma UniqueIsCount(table: seq<Element>)
    ensures Unique(table) <==> forall x :: x != DEFAULT ==> multiset(table)[x] <= 1
  {
    if Unique(table) {
      forall x | x != DEFAULT ensures multiset(table)[x] <= 1 {
        AtMostOnce(table, x);
      }
    } else {
      var i, j :| 0 <= i < j < |table| && table[i] != DEFAULT && table[i] == table[j];
      TwiceCounts(table, i, j);
    }
  }

  lemma {:induction false} AtMostOnce(table: seq<Element>, x: Element)
    requires Unique(table) && x != DEFAULT
    ensures multiset(table)[x] <= 1
  {
    if table != [] {
      var n := |table| - 1;
      AtMostOnce(table[..n], x);
      assert table == table[..n] + [table[n]];
      if table[n] == x {
        assert x !in table[..n];
        assert x !in multiset(table[..n]);
      }
    }
  }

  lemma TwiceCounts(table: seq<Element>, i: nat, j: nat)
    requires i < j < |table| && table[i] == table[j]
    ensures multiset(table)[table[i]] >= 2
  {
    var x := table[i];
    assert table == table[..j] + [table[j]] + table[j + 1..];
    assert x in multiset(table[..j]);
  }

  // --- Epochs ---

  datatype Params = Params(size: nat, epochSize: nat, depthLimit: nat, hs: Hashing)

  ghost predicate Good(p: Params) {
    p.size >= 1 && p.epochSize >= 1 && HashesInto(p.hs, p.size)
  }

  // The most un-erased entries the newest epoch can reach.
  function Ceiling(p: Params): nat { p.epochSize + p.epochSize / 16 + 1 }

  // Even if every insert until the next scan adds an entry, the ceiling is not passed.
  ghost predicate Bounded(p: Params, s: State)
    requires Shaped(s)
  {
    Newest(s.recent, s.garbage) + s.counter <= Ceiling(p)
  }

  ghost predicate Inv(p: Params, s: State) {
    Good(p) && |s.table| == p.size && Shaped(s) && Placed(p.hs, s.table) && Unique(s.table) && Bounded(p, s)
  }

  // The living become the dying, and the dying collectable.
  function Aged(p: Params, s: State): State
    requires Shaped(s)
  {
    s.(garbage := seq(|s.table|, i requires 0 <= i < |s.table| => s.garbage[i] || !s.recent[i]),
       recent := seq(|s.table|, i => false), counter := p.epochSize)
  }

  function Checked(p: Params, s: State): State
    requires Shaped(s)
  {
    if s.counter != 0 then s.(counter := s.counter - 1)
    else
      var count := Newest(s.recent, s.garbage);
      if count >= p.epochSize then Aged(p, s)
      else s.(counter := Max(1, Max(p.epochSize / 16, p.epochSize - count)))
  }

  // After the check there is room for one more.
  lemma CheckedRoom(p: Params, s: State)
    requires Inv(p, s)
    ensures Shaped(Checked(p, s)) && Newest(Checked(p, s).recent, Checked(p, s).garbage) + Checked(p, s).counter < Ceiling(p)
  {
    if s.counter == 0 && Newest(s.recent, s.garbage) >= p.epochSize {
      NewestNone(Aged(p, s).recent, Aged(p, s).garbage);
    }
  }

  /**
   * Epochs age only when a scan finds a whole epoch of un-erased entries. Then exactly the newest entries stay kept, and
   * after a second time nothing does. The next scan is at least a sixteenth of an epoch away.
   */
  lemma EpochRule(p: Params, s: State)
    requires Shaped(s)
    ensures var t := Checked(p, s);
            && t.table == s.table && |t.garbage| == |s.garbage| && |t.recent| == |s.recent|
            && if s.counter == 0 && Newest(s.recent, s.garbage) >= p.epochSize then
                 forall i :: 0 <= i < |s.table| ==> !t.recent[i] && (t.garbage[i] <==> !(s.recent[i] && !s.garbage[i]))
               else t.garbage == s.garbage && t.recent == s.recent
    ensures s.counter > 0 ==> Checked(p, s).counter == s.counter - 1
    ensures s.counter == 0 ==> Checked(p, s).counter >= p.epochSize / 16 && (p.epochSize >= 1 ==> Checked(p, s).counter >= 1)
    ensures forall i :: 0 <= i < |s.table| ==> Aged(p, Aged(p, s)).garbage[i]
  {
    hide Newest;
  }

  // --- What an insertion does ---

  // The state t after inserting e into s, which had been checked. Either e was there and is kept; or it is stored, and
  // exactly one element leaves the table: a collectable one if `open`, and otherwise the one dropped for want of room.
  ghost predicate Stored(p: Params, s: State, t: State, e: Element, open: bool, gone: Element)
    requires Shaped(s) && Shaped(t)
  {
    && |t.table| == |s.table| && t.counter == s.counter
    && multiset(t.table) + multiset{gone} == multiset(s.table) + multiset{e}
    && (open ==> Kept(t.table, t.garbage) == Kept(s.table, s.garbage) + multiset{e})
    && (open ==> exists i :: 0 <= i < |s.table| && s.garbage[i] && t.garbage == s.garbage[i := false])
    && (!open ==> Kept(t.table, t.garbage) + multiset{gone} == Kept(s.table, s.garbage) + multiset{e} && t.garbage == s.garbage)
    && Newest(t.recent, t.garbage) <= Newest(s.recent, s.garbage) + 1
  }

  ghost predicate Refreshed(s: State, t: State, e: Element)
    requires Shaped(s)
  {
    exists i :: 0 <= i < |s.table| && s.table[i] == e && t == s.(garbage := s.garbage[i := false], recent := s.recent[i := true])
  }

  // The hand holds an element on its way through the table.
  ghost predicate Moving(p: Params, s: State, t: State, e: Element, hand: Element, epoch: bool)
    requires Shaped(s) && Shaped(t)
  {
    && |t.table| == |s.table| && t.garbage == s.garbage && t.counter == s.counter
    && multiset(t.table) + multiset{hand} == multiset(s.table) + multiset{e}
    && Kept(t.table, t.garbage) + multiset{hand} == Kept(s.table, s.garbage) + multiset{e}
    && Newest(t.recent, t.garbage) + One(epoch) == Newest(s.recent, s.garbage) + 1
    && Placed(p.hs, t.table)
  }

  // The hand swaps with a kept slot of its own.
  function Swapped(t: State, i: nat, hand: Element, epoch: bool): State
    requires Shaped(t) && i < |t.table|
  {
    t.(table := t.table[i := hand], recent := t.recent[i := epoch])
  }

  lemma SwapMoves(p: Params, s: State, t: State, e: Element, hand: Element, epoch: bool, i: nat)
    requires Shaped(s) && Shaped(t) && Moving(p, s, t, e, hand, epoch) && i < |t.table| && !t.garbage[i] && i in p.hs(hand)
    ensures Shaped(Swapped(t, i, hand, epoch)) && Moving(p, s, Swapped(t, i, hand, epoch), e, t.table[i], t.recent[i])
  {
    hide Kept, Newest;
    Exchanged(t.table, i, hand);
    KeptUpdate(t.table, t.garbage, i, hand, false);
    assert t.garbage[i := false] == t.garbage;
    NewestSame(t.recent, t.garbage, i, epoch);
  }

  // The hand lands in a collectable slot of its own.
  function Landed(t: State, i: nat, hand: Element, epoch: bool): State
    requires Shaped(t) && i < |t.table|
  {
    t.(table := t.table[i := hand], garbage := t.garbage[i := false], recent := t.recent[i := epoch])
  }

  lemma LandStores(p: Params, s: State, t: State, e: Element, hand: Element, epoch: bool, i: nat)
    requires Shaped(s) && Shaped(t) && Moving(p, s, t, e, hand, epoch) && i < |t.table| && t.garbage[i] && i in p.hs(hand)
    ensures Shaped(Landed(t, i, hand, epoch)) && Stored(p, s, Landed(t, i, hand, epoch), e, true, t.table[i])
    ensures Placed(p.hs, Landed(t, i, hand, epoch).table)
  {
    hide Kept, Newest;
    Exchanged(t.table, i, hand);
    KeptUpdate(t.table, t.garbage, i, hand, false);
    NewestUpdate(t.recent, t.garbage, i, epoch, false);
    Unit(Kept(Landed(t, i, hand, epoch).table, Landed(t, i, hand, epoch).garbage));
  }

  lemma DropStores(p: Params, s: State, t: State, e: Element, hand: Element, epoch: bool)
    requires Shaped(s) && Shaped(t) && Moving(p, s, t, e, hand, epoch)
    ensures Stored(p, s, t, e, false, hand)
  {
    hide Kept, Newest;
  }

  // --- The trail of an insertion ---

  // What is in the hand, with its epoch, and the table it was taken from.
  datatype Carry = Carry(state: State, hand: Element, epoch: bool)

  ghost predicate Inside(s: State, path: seq<nat>) { forall k :: 0 <= k < |path| ==> path[k] < |s.table| }

  // The hand goes along the path and swaps with each slot on it.
  ghost function After(s: State, e: Element, path: seq<nat>): (c: Carry)
    requires Shaped(s) && Inside(s, path)
    ensures Shaped(c.state) && |c.state.table| == |s.table| && c.state.garbage == s.garbage && c.state.counter == s.counter
  {
    if path == [] then Carry(s, e, true)
    else
      var n := |path| - 1;
      var c, i := After(s, e, path[..n]), path[n];
      Carry(Swapped(c.state, i, c.hand, c.epoch), c.state.table[i], c.state.recent[i])
  }

  // Slot k of the element is its first collectable one.
  ghost predicate FirstOpen(p: Params, s: State, e: Element, k: nat)
    requires Shaped(s) && Good(p) && |s.table| == p.size
  {
    k < 8 && s.garbage[p.hs(e)[k]] && forall j :: 0 <= j < k ==> !s.garbage[p.hs(e)[j]]
  }

  ghost predicate Crowded(p: Params, s: State, e: Element)
    requires Shaped(s) && Good(p) && |s.table| == p.size
  {
    forall j :: 0 <= j < 8 ==> !s.garbage[p.hs(e)[j]]
  }

  // Step k of the path: nothing of the hand's was collectable, and it went to one of its slots, not straight back.
  ghost predicate Turn(p: Params, s: State, e: Element, path: seq<nat>, k: nat)
    requires Shaped(s) && Good(p) && |s.table| == p.size && Inside(s, path) && k < |path|
  {
    var hand := After(s, e, path[..k]).hand;
    && path[k] in p.hs(hand) && Crowded(p, s, hand)
    && (if k == 0 then path[0] == p.hs(e)[1] else Distinct(p.hs(hand)) ==> path[k] != path[k - 1])
  }

  /** The insertion went along the path, and then into the first collectable slot of the hand or out of the table. */
  ghost predicate Inserted(p: Params, s: State, t: State, e: Element, path: seq<nat>, open: bool, gone: Element)
    requires Shaped(s) && Good(p) && |s.table| == p.size
  {
    && Inside(s, path) && (forall k :: 0 <= k < |path| ==> Turn(p, s, e, path, k))
    && var c := After(s, e, path);
       if open then
         |path| < p.depthLimit && LandedFirst(p, s, t, gone, c)
       else |path| == p.depthLimit && t == c.state && gone == c.hand
  }

  ghost predicate LandedFirst(p: Params, s: State, t: State, gone: Element, c: Carry)
    requires Shaped(s) && Good(p) && |s.table| == p.size && Shaped(c.state) && |c.state.table| == p.size
  {
    exists k: nat :: FirstOpen(p, s, c.hand, k) && Outcome(t, gone, c, p.hs(c.hand)[k])
  }

  ghost predicate Outcome(t: State, gone: Element, c: Carry, i: nat)
    requires Shaped(c.state) && i < |c.state.table|
  {
    t == Landed(c.state, i, c.hand, c.epoch) && gone == c.state.table[i]
  }

  lemma TrailCrowded(p: Params, s: State, e: Element, path: seq<nat>)
    requires Shaped(s) && Good(p) && |s.table| == p.size && Inside(s, path) && forall k :: 0 <= k < |path| ==> Turn(p, s, e, path, k)
    ensures path != [] ==> Crowded(p, s, e)
  {
    hide Good, Crowded;
    if path != [] {
      assert Turn(p, s, e, path, 0);
      assert path[..0] == [];
    }
  }

  /** With a collectable slot of its own, an element is stored there in the newest epoch, and what leaves was collectable. */
  lemma RoomStores(p: Params, s: State, t: State, e: Element, path: seq<nat>, open: bool, gone: Element)
    requires Shaped(s) && Good(p) && |s.table| == p.size && Inserted(p, s, t, e, path, open, gone)
    requires p.depthLimit >= 1 && !Crowded(p, s, e)
    ensures open && LandedFirst(p, s, t, gone, Carry(s, e, true))
  {
    hide Good, LandedFirst, Crowded, Turn;
    TrailCrowded(p, s, e, path);
  }

  /** All that an insertion into the checked state s does. */
  ghost predicate InsertStep(p: Params, s: State, t: State, e: Element, known: bool, open: bool, gone: Element) {
    && Shaped(s) && Good(p) && |s.table| == p.size && (known <==> Present(p, s, e))
    && (known ==> Refreshed(s, t, e))
    && (!known ==> exists path :: Inserted(p, s, t, e, path, open, gone))
    && (!known && p.depthLimit >= 1 && !Crowded(p, s, e) ==> open && LandedFirst(p, s, t, gone, Carry(s, e, true)))
  }

  lemma StepOf(p: Params, s: State, t: State, e: Element, known: bool, open: bool, gone: Element)
    requires Shaped(s) && Good(p) && |s.table| == p.size && (known <==> Present(p, s, e))
    requires (known ==> Refreshed(s, t, e)) && (!known ==> exists path :: Inserted(p, s, t, e, path, open, gone))
    ensures InsertStep(p, s, t, e, known, open, gone)
  {
    hide Good, LandedFirst, Crowded, Inserted, Refreshed, Present;
    if !known && p.depthLimit >= 1 && !Crowded(p, s, e) {
      var path :| Inserted(p, s, t, e, path, open, gone);
      RoomStores(p, s, t, e, path, open, gone);
    }
  }

  // Along the path, with the state t, the hand and its epoch, and the slot visited last.
  ghost predicate OnTrail(p: Params, s: State, e: Element, path: seq<nat>, t: State, hand: Element, epoch: bool, last: nat) {
    && Shaped(s) && Good(p) && |s.table| == p.size && Inside(s, path) && After(s, e, path) == Carry(t, hand, epoch)
    && (forall k :: 0 <= k < |path| ==> Turn(p, s, e, path, k))
    && last == if path == [] then p.size else path[|path| - 1]
  }

  lemma TrailStart(p: Params, s: State, e: Element)
    requires Shaped(s) && Good(p) && |s.table| == p.size
    ensures OnTrail(p, s, e, [], s, e, true, p.size)
  {
  }

  lemma TrailOn(p: Params, s: State, e: Element, path: seq<nat>, t: State, hand: Element, epoch: bool, last: nat, i: nat)
    requires OnTrail(p, s, e, path, t, hand, epoch, last) && Shaped(t) && |t.table| == p.size
    requires i == p.hs(hand)[(1 + IndexOf(p.hs(hand), last)) % 8] && forall j :: 0 <= j < 8 ==> !t.garbage[p.hs(hand)[j]]
    ensures i < p.size && !t.garbage[i] && i in p.hs(hand)
    ensures OnTrail(p, s, e, path + [i], Swapped(t, i, hand, epoch), t.table[i], t.recent[i], i)
  {
    hide Turn, Swapped, Distinct;
    NextSlot(p.hs(hand), last, i);
    TrailNext(p, s, e, path, i);
  }

  lemma TrailLands(p: Params, s: State, e: Element, path: seq<nat>, t: State, hand: Element, epoch: bool, last: nat, k: nat)
    requires OnTrail(p, s, e, path, t, hand, epoch, last) && Shaped(t) && |t.table| == p.size && |path| < p.depthLimit
    requires k < 8 && t.garbage[p.hs(hand)[k]] && forall j :: 0 <= j < k ==> !t.garbage[p.hs(hand)[j]]
    ensures p.hs(hand)[k] < p.size && Inserted(p, s, Landed(t, p.hs(hand)[k], hand, epoch), e, path, true, t.table[p.hs(hand)[k]])
  {
    hide Turn, Landed, After;
    assert FirstOpen(p, s, hand, k);
    assert Outcome(Landed(t, p.hs(hand)[k], hand, epoch), t.table[p.hs(hand)[k]], Carry(t, hand, epoch), p.hs(hand)[k]);
  }

  lemma TrailDrops(p: Params, s: State, e: Element, path: seq<nat>, t: State, hand: Element, epoch: bool, last: nat)
    requires OnTrail(p, s, e, path, t, hand, epoch, last) && |path| == p.depthLimit
    ensures Inserted(p, s, t, e, path, false, hand)
  {
    hide Turn, After, Good;
  }

  lemma TrailNext(p: Params, s: State, e: Element, path: seq<nat>, i: nat)
    requires Shaped(s) && Good(p) && |s.table| == p.size && Inside(s, path) && i < p.size
    requires forall k :: 0 <= k < |path| ==> Turn(p, s, e, path, k)
    requires var hand := After(s, e, path).hand;
             && i in p.hs(hand) && Crowded(p, s, hand)
             && (if path == [] then i == p.hs(e)[1] else Distinct(p.hs(hand)) ==> i != path[|path| - 1])
    ensures var path' := path + [i];
            && Inside(s, path') && (forall k :: 0 <= k < |path'| ==> Turn(p, s, e, path', k))
            && var c := After(s, e, path); After(s, e, path') == Carry(Swapped(c.state, i, c.hand, c.epoch), c.state.table[i], c.state.recent[i])
  {
    hide Good, Crowded, Distinct, Swapped;
    var path' := path + [i];
    assert path'[..|path|] == path;
    forall k | 0 <= k < |path'| ensures Turn(p, s, e, path', k) {
      if k < |path| {
        assert path'[..k] == path[..k];
        assert Turn(p, s, e, path, k);
      } else {
        assert path'[..k] == path;
      }
    }
  }

  // The slot after the last one visited, or the second one at the start.
  lemma NextSlot(locs: seq<nat>, last: nat, i: nat)
    requires |locs| == 8 && i == locs[(1 + IndexOf(locs, last)) % 8]
    ensures i in locs && (last !in locs ==> i == locs[1]) && (Distinct(locs) ==> i != last)
  {
    var j := IndexOf(locs, last);
    if j < 8 {
      assert locs[j] == last && (1 + j) % 8 != j;
    }
  }

  // An element in the table is found at its slots.
  lemma AbsentElsewhere(p: Params, table: seq<Element>, e: Element)
    requires Good(p) && |table| == p.size && Placed(p.hs, table) && e != DEFAULT && forall k :: 0 <= k < 8 ==> table[p.hs(e)[k]] != e
    ensures multiset(table)[e] == 0
  {
    assert forall i :: i in p.hs(e) ==> 0 <= i < |table| && table[i] != e;
    assert e !in table;
  }

  lemma StoredInv(p: Params, s: State, t: State, e: Element, open: bool, gone: Element)
    requires Good(p) && |s.table| == p.size && Shaped(s) && Shaped(t) && Unique(s.table) && (e != DEFAULT ==> multiset(s.table)[e] == 0)
    requires Newest(s.recent, s.garbage) + s.counter < Ceiling(p)
    requires Stored(p, s, t, e, open, gone) && Placed(p.hs, t.table)
    ensures Inv(p, t)
  {
    hide Kept, Newest, Unique, Good;
    UniqueIsCount(s.table);
    UniqueIsCount(t.table);
    forall x | x != DEFAULT ensures multiset(t.table)[x] <= 1 {
      assert (multiset(t.table) + multiset{gone})[x] == (multiset(s.table) + multiset{e})[x];
    }
  }

  // --- The cache ---

  // 45% of the size, computed in 32 bits, and at least one.
  function EpochSize(size: nat): (n: nat)
    ensures n >= 1
  {
    Max(1, (45 * size % 0x1_0000_0000) / 100)
  }

  /** The epoch is 45% of the size, in whole entries, exactly while that percentage does not pass 32 bits. */
  lemma EpochSizeIff(size: nat)
    requires 3 <= size < 0x1_0000_0000
    ensures 100 * EpochSize(size) <= 45 * size < 100 * EpochSize(size) + 100 <==> 45 * size < 0x1_0000_0000
  {
  }

  /** The largest cache that can be asked for has 2^29 entries; its epoch is 5% of that. */
  lemma EpochWraps()
    ensures EpochSize(0x2000_0000) == 0x2000_0000 * 5 / 100
  {
  }

  class Cache {
    const p: Params
    var table: seq<Element>
    var collectionFlags: seq<bv8>
    var epochFlags: seq<bool>
    var epochHeuristicCounter: nat
    ghost var inserted: set<Element>

    ghost predicate Sized()
      reads this
    {
      p.size <= 8 * |collectionFlags| && |table| == p.size && |epochFlags| == p.size
    }

    ghost function Current(): (s: State)
      requires Sized()
      reads this
      ensures Shaped(s)
    {
      State(table, Flags(collectionFlags, p.size), epochFlags, epochHeuristicCounter)
    }

    ghost predicate Valid()
      reads this
    {
      Sized() && Inv(p, Current()) && Known(table, inserted)
    }

    constructor (depthLimit: nat, hs: Hashing)
      requires HashesInto(hs, Pow2(depthLimit))
      ensures p == Params(Pow2(depthLimit), EpochSize(Pow2(depthLimit)), depthLimit, hs)
      ensures Valid() && inserted == {} && forall i :: 0 <= i < |table| ==> table[i] == DEFAULT && Current().garbage[i] && !epochFlags[i]
      ensures epochHeuristicCounter == p.epochSize
    {
      var size := Pow2(depthLimit);
      p := Params(size, EpochSize(size), depthLimit, hs);
      table := seq(size, i => DEFAULT);
      collectionFlags := AllSet(size);
      epochFlags := seq(size, i => false);
      epochHeuristicCounter := EpochSize(size);
      inserted := {};
      new;
      NewestNone(epochFlags, Flags(collectionFlags, p.size));
    }

    method AllowErase(n: nat)
      requires Sized() && n < p.size
      modifies this`collectionFlags
      ensures Sized() && Current() == old(Current()).(garbage := old(Current()).garbage[n := true])
    {
      collectionFlags := BitSet(collectionFlags, n);
    }

    method PleaseKeep(n: nat)
      requires Sized() && n < p.size
      modifies this`collectionFlags
      ensures Sized() && Current() == old(Current()).(garbage := old(Current()).garbage[n := false])
    {
      collectionFlags := BitUnset(collectionFlags, n);
    }

    method EpochCheck()
      requires Sized()
      modifies this`collectionFlags, this`epochFlags, this`epochHeuristicCounter
      ensures Sized() && Current() == Checked(p, old(Current()))
    {
      if epochHeuristicCounter != 0 {
        epochHeuristicCounter := epochHeuristicCounter - 1;
        return;
      }
      var epochUnusedCount := CountNewest();
      if epochUnusedCount >= p.epochSize {
        Age();
        epochHeuristicCounter := p.epochSize;
      } else {
        epochHeuristicCounter := Max(1, Max(p.epochSize / 16, p.epochSize - epochUnusedCount));
      }
    }

    method CountNewest() returns (n: nat)
      requires Sized()
      ensures n == Newest(Current().recent, Current().garbage)
    {
      n := 0;
      for i := 0 to p.size
        invariant n == Newest(Current().recent[..i], Current().garbage[..i])
      {
        CountOne(Current().recent, Current().garbage, i);
        if epochFlags[i] && !BitAt(collectionFlags, i) {
          n := n + 1;
        }
      }
      assert Current().recent[..p.size] == Current().recent && Current().garbage[..p.size] == Current().garbage;
    }

    method Age()
      requires Sized()
      modifies this`collectionFlags, this`epochFlags
      ensures Sized() && Current() == Aged(p, old(Current())).(counter := old(epochHeuristicCounter))
    {
      ghost var s := Current();
      hide BitAt;
      for i := 0 to p.size
        invariant Sized() && table == s.table && epochHeuristicCounter == s.counter
        invariant forall j :: 0 <= j < p.size ==> epochFlags[j] == (j >= i && s.recent[j])
        invariant forall j :: 0 <= j < p.size ==> Current().garbage[j] == (s.garbage[j] || (j < i && !s.recent[j]))
      {
        if epochFlags[i] {
          epochFlags := epochFlags[i := false];
        } else {
          AllowErase(i);
        }
      }
      assert epochFlags == Aged(p, s).recent;
      assert Current().garbage == Aged(p, s).garbage;
    }

    method Find(locs: seq<nat>, e: Element) returns (k: nat)
      requires Sized() && |locs| == 8 && forall j :: 0 <= j < 8 ==> locs[j] < p.size
      ensures k <= 8 && (k < 8 ==> table[locs[k]] == e) && forall j :: 0 <= j < k ==> table[locs[j]] != e
    {
      k := 0;
      while k < 8 && table[locs[k]] != e
        invariant k <= 8 && forall j :: 0 <= j < k ==> table[locs[j]] != e
      {
        k := k + 1;
      }
    }

    method FindOpen(locs: seq<nat>) returns (k: nat)
      requires Sized() && |locs| == 8 && forall j :: 0 <= j < 8 ==> locs[j] < p.size
      ensures k <= 8 && (k < 8 ==> Current().garbage[locs[k]]) && forall j :: 0 <= j < k ==> !Current().garbage[locs[j]]
    {
      k := 0;
      while k < 8 && !BitAt(collectionFlags, locs[k])
        invariant k <= 8 && forall j :: 0 <= j < k ==> !Current().garbage[locs[j]]
      {
        k := k + 1;
      }
    }

    method Insert(e0: Element) returns (ghost known: bool, ghost open: bool, ghost gone: Element)
      requires Valid()
      modifies this
      ensures Valid() && inserted == old(inserted) + {e0}
      ensures var s := Checked(p, old(Current()));
              && Shaped(s)
              && if known then Refreshed(s, Current(), e0) else Stored(p, s, Current(), e0, open, gone)
      ensures InsertStep(p, Checked(p, old(Current())), Current(), e0, known, open, gone)
    {
      hide Kept, Newest, Stored, Placed, Unique, Inserted, LandedFirst, Crowded, InsertStep, Present, Inv;
      ghost var s0 := Current();
      EpochCheck();
      ghost var s := Current();
      CheckedInv(p, s0);
      ghost var known0 := inserted;
      inserted := inserted + {e0};
      known, open, gone := Place(e0);
      if known {
        RefreshedInv(p, s, Current(), e0);
      } else {
        StoredTable(p, s, Current(), e0, open, gone);
        KnownAfter(s.table, table, e0, gone, known0);
      }
      StepOf(p, s, Current(), e0, known, open, gone);
    }

    method Land(loc: nat, e: Element, epoch: bool)
      requires Sized() && loc < p.size
      modifies this`table, this`collectionFlags, this`epochFlags
      ensures Sized() && Current() == Landed(old(Current()), loc, e, epoch)
    {
      table := table[loc := e];
      PleaseKeep(loc);
      epochFlags := epochFlags[loc := epoch];
    }

    method Evict(loc: nat, e: Element, epoch: bool) returns (evicted: Element, lastEpoch: bool)
      requires Sized() && loc < p.size
      modifies this`table, this`epochFlags
      ensures Sized() && Current() == Swapped(old(Current()), loc, e, epoch)
      ensures evicted == old(table[loc]) && lastEpoch == old(epochFlags[loc])
    {
      evicted := table[loc];
      table := table[loc := e];
      lastEpoch := epochFlags[loc];
      epochFlags := epochFlags[loc := epoch];
    }

    method Place(e0: Element) returns (ghost known: bool, ghost open: bool, ghost gone: Element)
      requires Sized() && Roomy(p, Current())
      modifies this`table, this`collectionFlags, this`epochFlags
      ensures Sized() && (!known ==> Inv(p, Current()))
      ensures if known then Refreshed(old(Current()), Current(), e0) else Stored(p, old(Current()), Current(), e0, open, gone)
      ensures known <==> Present(p, old(Current()), e0)
      ensures !known ==> exists path :: Inserted(p, old(Current()), Current(), e0, path, open, gone)
    {
      ghost var s := Current();
      hide Kept, Newest, Moving, Stored, Placed, Unique, Landed, Swapped, Flags, OnTrail, Inserted, Present, Refreshed, Inv, Good;
      known, open, gone := false, false, DEFAULT;
      var e, lastEpoch := e0, true;
      var locs := p.hs(e);
      var found := Find(locs, e);
      if found < 8 {
        PleaseKeep(locs[found]);
        epochFlags := epochFlags[locs[found] := lastEpoch];
        known := true;
        return;
      }
      NotThere(p, s, e);
      StartMoving(p, s, e);
      var depth := 0;
      // No slot was looked at yet.
      var lastLoc := p.size;
      ghost var path: seq<nat> := [];
      TrailStart(p, s, e0);
      while depth < p.depthLimit
        invariant Sized() && locs == p.hs(e) && Moving(p, s, Current(), e0, e, lastEpoch)
        invariant depth == |path| <= p.depthLimit && OnTrail(p, s, e0, path, Current(), e, lastEpoch, lastLoc)
      {
        var at := FindOpen(locs);
        if at < 8 {
          ghost var t := Current();
          LandStores(p, s, t, e0, e, lastEpoch, locs[at]);
          TrailLands(p, s, e0, path, t, e, lastEpoch, lastLoc, at);
          open, gone := true, table[locs[at]];
          Land(locs[at], e, lastEpoch);
          StoredInv(p, s, Current(), e0, open, gone);
          return;
        }
        ghost var last := lastLoc;
        lastLoc := locs[(1 + IndexOf(locs, lastLoc)) % 8];
        TrailOn(p, s, e0, path, Current(), e, lastEpoch, last, lastLoc);
        SwapMoves(p, s, Current(), e0, e, lastEpoch, lastLoc);
        path := path + [lastLoc];
        e, lastEpoch := Evict(lastLoc, e, lastEpoch);
        locs := p.hs(e);
        depth := depth + 1;
      }
      gone := e;
      TrailDrops(p, s, e0, path, Current(), e, lastEpoch, lastLoc);
      DropStores(p, s, Current(), e0, e, lastEpoch);
      DroppedPlaced(p, s, Current(), e0, e, lastEpoch);
      StoredInv(p, s, Current(), e0, open, gone);
    }

    // Looking up an element finds it only if it was inserted before, and leaves the table as it is.
    method Contains(e: Element, erase: bool) returns (found: bool)
      requires Valid()
      modifies this`collectionFlags
      ensures Valid() && (found ==> e in table && (e == DEFAULT || e in inserted)) && (e != DEFAULT && e in table ==> found)
      ensures found <==> exists loc :: loc in p.hs(e) && loc < p.size && table[loc] == e
      ensures !(found && erase) ==> Current() == old(Current())
      ensures found && erase ==> exists i :: 0 <= i < p.size && table[i] == e
                                             && Current() == old(Current()).(garbage := old(Current()).garbage[i := true])
    {
      var locs := p.hs(e);
      var k := Find(locs, e);
      if k < 8 {
        if erase {
          EraseInv(p, Current(), locs[k]);
          AllowErase(locs[k]);
        }
        return true;
      }
      DefaultOrElsewhere(p, Current(), e);
      return false;
    }

    /** Garbage is still found: after an insertion, what is found and erased is found again. */
    method InsertEraseFind(e: Element) returns (always: bool)
      requires Valid()
      modifies this
      ensures Valid() && always
    {
      hide Inv, Stored, Refreshed, Checked;
      ghost var known, open, gone := Insert(e);
      always := Contains(e, true);
      if always {
        always := Contains(e, false);
      } else {
        always := true;
      }
    }
  }

  // The element is at one of its slots.
  ghost predicate Present(p: Params, s: State, e: Element)
    requires Good(p) && |s.table| == p.size
  {
    exists j :: 0 <= j < 8 && s.table[p.hs(e)[j]] == e
  }

  lemma StoredTable(p: Params, s: State, t: State, e: Element, open: bool, gone: Element)
    requires Shaped(s) && Shaped(t) && Stored(p, s, t, e, open, gone)
    ensures multiset(t.table) + multiset{gone} == multiset(s.table) + multiset{e}
  {
  }

  // The first place of x, or the length.
  function IndexOf(s: seq<nat>, x: nat): (i: nat)
    ensures i <= |s| && (i < |s| ==> s[i] == x) && (i == |s| ==> x !in s)
  {
    if s == [] then 0 else if s[0] == x then 0 else 1 + IndexOf(s[1..], x)
  }

  // Checked, with room for one more.
  ghost predicate Roomy(p: Params, s: State) {
    && Good(p) && |s.table| == p.size && Shaped(s) && Placed(p.hs, s.table) && Unique(s.table)
    && Newest(s.recent, s.garbage) + s.counter < Ceiling(p)
  }

  lemma CheckedInv(p: Params, s: State)
    requires Inv(p, s)
    ensures Shaped(Checked(p, s)) && Roomy(p, Checked(p, s)) && Checked(p, s).table == s.table
  {
    CheckedRoom(p, s);
  }

  lemma NotThere(p: Params, s: State, e: Element)
    requires Roomy(p, s) && forall k :: 0 <= k < 8 ==> s.table[p.hs(e)[k]] != e
    ensures e != DEFAULT ==> multiset(s.table)[e] == 0
  {
    if e != DEFAULT {
      AbsentElsewhere(p, s.table, e);
    }
  }

  lemma StartMoving(p: Params, s: State, e: Element)
    requires Roomy(p, s)
    ensures Moving(p, s, s, e, e, true)
  {
  }

  lemma DroppedPlaced(p: Params, s: State, t: State, e: Element, hand: Element, epoch: bool)
    requires Shaped(s) && Shaped(t) && Moving(p, s, t, e, hand, epoch)
    ensures Placed(p.hs, t.table)
  {
  }

  lemma KnownAfter(table: seq<Element>, table': seq<Element>, e: Element, gone: Element, inserted: set<Element>)
    requires Known(table, inserted) && multiset(table') + multiset{gone} == multiset(table) + multiset{e}
    ensures Known(table', inserted + {e})
  {
    forall i | 0 <= i < |table'| && table'[i] != DEFAULT ensures table'[i] in inserted + {e} {
      assert table'[i] in multiset(table') + multiset{gone};
      assert table'[i] == e || table'[i] in multiset(table);
    }
  }

  lemma RefreshedInv(p: Params, s: State, t: State, e: Element)
    requires Roomy(p, s) && Refreshed(s, t, e)
    ensures Inv(p, t)
  {
    var i :| 0 <= i < |s.table| && s.table[i] == e && t == s.(garbage := s.garbage[i := false], recent := s.recent[i := true]);
    NewestUpdate(s.recent, s.garbage, i, true, false);
  }

  lemma EraseInv(p: Params, s: State, i: nat)
    requires Inv(p, s) && i < p.size
    ensures Inv(p, s.(garbage := s.garbage[i := true]))
  {
    NewestUpdate(s.recent, s.garbage, i, s.recent[i], true);
    assert s.recent[i := s.recent[i]] == s.recent;
  }

  lemma DefaultOrElsewhere(p: Params, s: State, e: Element)
    requires Inv(p, s) && forall k :: 0 <= k < 8 ==> s.table[p.hs(e)[k]] != e
    ensures e != DEFAULT ==> e !in s.table
  {
    if e != DEFAULT {
      AbsentElsewhere(p, s.table, e);
      assert forall i :: 0 <= i < |s.table| ==> s.table[i] in multiset(s.table);
    }
  }

  ghost predicate Known(table: seq<Element>, inserted: set<Element>) {
    forall i :: 0 <= i < |table| && table[i] != DEFAULT ==> table[i] in inserted
  }

  lemma CountOne(recent: seq<bool>, garbage: seq<bool>, i: nat)
    requires |recent| == |garbage| && i < |recent|
    ensures Newest(recent[..i + 1], garbage[..i + 1]) == Newest(recent[..i], garbage[..i]) + One(recent[i] && !garbage[i])
  {
    assert recent[..i + 1][..i] == recent[..i] && garbage[..i + 1][..i] == garbage[..i];
  }

  /** The un-erased entries of the newest epoch never pass the ceiling. */
  lemma NewestWithin(p: Params, s: State)
    requires Inv(p, s)
    ensures Newest(s.recent, s.garbage) <= p.epochSize + p.epochSize / 16 + 1
  {
  }

  // --- Whole runs ---

  datatype Op = Put(e: Element) | Ask(e: Element, erase: bool)

  ghost predicate PutBefore(ops: seq<Op>, n: nat, e: Element) {
    exists j :: 0 <= j < n && j < |ops| && ops[j] == Put(e)
  }

  // A positive answer is about the default element or one that was put before.
  ghost predicate Answered(ops: seq<Op>, answers: seq<bool>) {
    forall k :: 0 <= k < |answers| && k < |ops| && ops[k].Ask? && answers[k] ==> ops[k].e == DEFAULT || PutBefore(ops, k, ops[k].e)
  }

  ghost predicate AllPut(ops: seq<Op>, n: nat, inserted: set<Element>) {
    forall x :: x in inserted ==> PutBefore(ops, n, x)
  }

  lemma NothingAsked(ops: seq<Op>)
    ensures Answered(ops, []) && AllPut(ops, 0, {})
  {
  }

  lemma AnsweredNext(ops: seq<Op>, answers: seq<bool>, n: nat, found: bool, inserted: set<Element>)
    requires n == |answers| < |ops| && Answered(ops, answers) && AllPut(ops, n, inserted)
    requires ops[n].Ask? && found ==> ops[n].e == DEFAULT || ops[n].e in inserted
    ensures Answered(ops, answers + [found]) && AllPut(ops, n + 1, if ops[n].Put? then inserted + {ops[n].e} else inserted)
  {
  }

  // One operation takes s to t. An insertion checks the epochs first.
  ghost predicate Ran(p: Params, s: State, op: Op, answer: bool, t: State) {
    && Good(p) && Shaped(s) && Shaped(t) && |s.table| == p.size && |t.table| == p.size
    && match op
       case Put(e) => exists known, open, gone :: InsertStep(p, Checked(p, s), t, e, known, open, gone)
       case Ask(e, erase) =>
         && (answer <==> Present(p, s, e))
         && (!(answer && erase) ==> t == s)
         && (answer && erase ==> exists i :: 0 <= i < p.size && s.table[i] == e && t == s.(garbage := s.garbage[i := true]))
  }

  ghost predicate RanAll(p: Params, ops: seq<Op>, answers: seq<bool>, states: seq<State>) {
    |answers| <= |ops| && |states| == |answers| + 1 && forall k :: 0 <= k < |answers| ==> Ran(p, states[k], ops[k], answers[k], states[k + 1])
  }

  lemma RanNext(p: Params, ops: seq<Op>, answers: seq<bool>, states: seq<State>, answer: bool, t: State)
    requires RanAll(p, ops, answers, states) && |answers| < |ops| && Ran(p, states[|answers|], ops[|answers|], answer, t)
    ensures RanAll(p, ops, answers + [answer], states + [t])
  {
    hide Ran;
  }

  /** What was there, or found a collectable slot of its own, is found by the next question. */
  lemma FoundAfterPut(p: Params, ops: seq<Op>, answers: seq<bool>, states: seq<State>, k: nat)
    requires RanAll(p, ops, answers, states) && k + 1 < |answers| && ops[k].Put? && ops[k + 1].Ask? && ops[k + 1].e == ops[k].e
    requires Ran(p, states[k], ops[k], answers[k], states[k + 1])
    requires var s := Checked(p, states[k]); Present(p, s, ops[k].e) || (p.depthLimit >= 1 && !Crowded(p, s, ops[k].e))
    ensures answers[k + 1]
  {
    hide Inserted, Crowded, Checked;
    var e, s, t := ops[k].e, Checked(p, states[k]), states[k + 1];
    var known, open, gone :| InsertStep(p, s, t, e, known, open, gone);
    StepPresent(p, s, t, e, known, open, gone);
    assert Ran(p, states[k + 1], ops[k + 1], answers[k + 1], states[k + 2]);
  }

  lemma StepPresent(p: Params, s: State, t: State, e: Element, known: bool, open: bool, gone: Element)
    requires InsertStep(p, s, t, e, known, open, gone) && Shaped(t) && |t.table| == p.size
    requires Present(p, s, e) || (p.depthLimit >= 1 && !Crowded(p, s, e))
    ensures Present(p, t, e)
  {
    hide Inserted, Crowded;
    if known {
      var j :| 0 <= j < 8 && s.table[p.hs(e)[j]] == e;
      assert t.table[p.hs(e)[j]] == e;
    } else {
      var k: nat :| FirstOpen(p, s, e, k) && Outcome(t, gone, Carry(s, e, true), p.hs(e)[k]);
      assert t.table[p.hs(e)[k]] == e;
    }
  }

  // The slots that may not be overwritten.
  ghost function KeptSlots(s: State): set<nat> { set i: nat | i < |s.garbage| && !s.garbage[i] }

  lemma CheckedKept(p: Params, s: State)
    requires Shaped(s)
    ensures KeptSlots(Checked(p, s)) <= KeptSlots(s)
  {
  }

  lemma OneKept(s: State, i: nat)
    requires i < |s.garbage|
    ensures |KeptSlots(s.(garbage := s.garbage[i := false]))| <= |KeptSlots(s)| + 1
  {
    NotLarger(KeptSlots(s.(garbage := s.garbage[i := false])), KeptSlots(s) + {i});
  }

  lemma RanKept(p: Params, s: State, op: Op, answer: bool, t: State)
    requires Ran(p, s, op, answer, t)
    ensures |KeptSlots(t)| <= |KeptSlots(s)| + 1
  {
    hide KeptSlots, Checked, Turn, Crowded, Present;
    match op {
      case Put(e) =>
        var u := Checked(p, s);
        CheckedKept(p, s);
        NotLarger(KeptSlots(u), KeptSlots(s));
        var known, open, gone :| InsertStep(p, u, t, e, known, open, gone);
        StepKept(p, u, t, e, known, open, gone);
      case Ask(e, erase) =>
        AskKept(s, t);
    }
  }

  lemma AskKept(s: State, t: State)
    requires |t.garbage| == |s.garbage| && forall i :: 0 <= i < |s.garbage| && s.garbage[i] ==> t.garbage[i]
    ensures |KeptSlots(t)| <= |KeptSlots(s)|
  {
    NotLarger(KeptSlots(t), KeptSlots(s));
  }

  lemma SameKept(s: State, t: State)
    requires s.garbage == t.garbage
    ensures KeptSlots(s) == KeptSlots(t)
  {
  }

  lemma StepKept(p: Params, s: State, t: State, e: Element, known: bool, open: bool, gone: Element)
    requires InsertStep(p, s, t, e, known, open, gone)
    ensures |KeptSlots(t)| <= |KeptSlots(s)| + 1
  {
    hide KeptSlots, Turn, Crowded, Present, After;
    if known {
      var i :| 0 <= i < |s.table| && s.table[i] == e && t == s.(garbage := s.garbage[i := false], recent := s.recent[i := true]);
      OneKept(s, i);
      SameKept(s.(garbage := s.garbage[i := false]), t);
    } else {
      var path :| Inserted(p, s, t, e, path, open, gone);
      var c := After(s, e, path);
      SameKept(s, c.state);
      if open {
        var k: nat :| FirstOpen(p, s, c.hand, k) && Outcome(t, gone, c, p.hs(c.hand)[k]);
        OneKept(c.state, p.hs(c.hand)[k]);
        SameKept(c.state.(garbage := c.state.garbage[p.hs(c.hand)[k] := false]), t);
      }
    }
  }

  lemma FewKept(p: Params, s: State, e: Element)
    requires Shaped(s) && Good(p) && |s.table| == p.size && |KeptSlots(s)| < |Elements(p.hs(e))|
    ensures !Crowded(p, s, e)
  {
    if Crowded(p, s, e) {
      assert forall x :: x in p.hs(e) ==> x in KeptSlots(s);
      NotLarger(Elements(p.hs(e)), KeptSlots(s));
    }
  }

  // Fewer operations than the element has slots cannot have filled them all.
  ghost predicate EarlyFound(p: Params, ops: seq<Op>, answers: seq<bool>) {
    forall k, e {:trigger ops[k], Elements(p.hs(e))} ::
      (&& 0 <= k && k + 1 < |answers| <= |ops| && ops[k] == Put(e) && ops[k + 1].Ask? && ops[k + 1].e == e
       && p.depthLimit >= 1 && k < |Elements(p.hs(e))|) ==> answers[k + 1]
  }

  lemma EarlyPuts(p: Params, ops: seq<Op>, answers: seq<bool>, states: seq<State>)
    requires RanAll(p, ops, answers, states) && forall k :: 0 <= k < |states| ==> |KeptSlots(states[k])| <= k
    ensures EarlyFound(p, ops, answers)
  {
    hide Ran, KeptSlots, Crowded, Checked, Present, Elements;
    forall k, e | 0 <= k && k + 1 < |answers| <= |ops| && ops[k] == Put(e) && ops[k + 1].Ask? && ops[k + 1].e == e
                  && p.depthLimit >= 1 && k < |Elements(p.hs(e))|
      ensures answers[k + 1]
    {
      EarlyPut(p, ops, answers, states, k);
    }
  }

  lemma EarlyPut(p: Params, ops: seq<Op>, answers: seq<bool>, states: seq<State>, k: nat)
    requires RanAll(p, ops, answers, states) && k + 1 < |answers| && ops[k].Put? && ops[k + 1].Ask? && ops[k + 1].e == ops[k].e
    requires p.depthLimit >= 1 && |KeptSlots(states[k])| <= k < |Elements(p.hs(ops[k].e))|
    ensures answers[k + 1]
  {
    hide KeptSlots, Crowded, Checked, Present, Elements, InsertStep;
    assert Ran(p, states[k], ops[k], answers[k], states[k + 1]);
    CheckedKept(p, states[k]);
    NotLarger(KeptSlots(Checked(p, states[k])), KeptSlots(states[k]));
    CheckedShape(p, states[k]);
    FewKept(p, Checked(p, states[k]), ops[k].e);
    FoundAfterPut(p, ops, answers, states, k);
  }

  lemma CheckedShape(p: Params, s: State)
    requires Shaped(s)
    ensures Shaped(Checked(p, s)) && |Checked(p, s).table| == |s.table|
  {
  }

  lemma StartRan(p: Params, ops: seq<Op>, s: State)
    requires forall i :: 0 <= i < |s.garbage| ==> s.garbage[i]
    ensures RanAll(p, ops, [], [s]) && |KeptSlots(s)| == 0
  {
    assert KeptSlots(s) == {};
  }

  /**
   * In every run from an empty cache the invariant holds throughout, every step is as specified, only what was put in is
   * ever found, and what is put in early is found by the next question.
   */
  method Run(depthLimit: nat, hs: Hashing, ops: seq<Op>) returns (answers: seq<bool>, newest: nat, ghost states: seq<State>)
    requires HashesInto(hs, Pow2(depthLimit))
    ensures |answers| == |ops|
    ensures Answered(ops, answers)
    ensures var p := Params(Pow2(depthLimit), EpochSize(Pow2(depthLimit)), depthLimit, hs);
            RanAll(p, ops, answers, states) && EarlyFound(p, ops, answers)
    ensures states != [] && forall i :: 0 <= i < |states[0].garbage| ==> states[0].garbage[i]
    ensures var es := EpochSize(Pow2(depthLimit)); newest <= es + es / 16 + 1
  {
    hide Inv, Stored, Refreshed, Pow2, EpochSize, Checked, Answered, AllPut, HashesInto, RanAll, InsertStep, EarlyFound, KeptSlots, Flags, Present, Good;
    var cache := new Cache(depthLimit, hs);
    NothingAsked(ops);
    answers := [];
    states := [cache.Current()];
    StartRan(cache.p, ops, cache.Current());
    for n := 0 to |ops|
      invariant cache.Valid() && |answers| == n && fresh(cache)
      invariant AllPut(ops, n, cache.inserted) && Answered(ops, answers)
      invariant |states| == n + 1 && states[n] == cache.Current() && RanAll(cache.p, ops, answers, states)
      invariant forall i :: 0 <= i < |states[0].garbage| ==> states[0].garbage[i]
      invariant forall k :: 0 <= k <= n ==> |KeptSlots(states[k])| <= k
    {
      var found := false;
      ghost var before := cache.inserted;
      InvGood(cache.p, cache.Current());
      match ops[n] {
        case Put(e) =>
          ghost var known, open, gone := cache.Insert(e);
        case Ask(e, erase) =>
          found := cache.Contains(e, erase);
          FoundIsPresent(cache.p, states[n], e, found);
      }
      InvGood(cache.p, cache.Current());
      assert Ran(cache.p, states[n], ops[n], found, cache.Current());
      RanKept(cache.p, states[n], ops[n], found, cache.Current());
      RanNext(cache.p, ops, answers, states, found, cache.Current());
      AnsweredNext(ops, answers, n, found, before);
      answers := answers + [found];
      states := states + [cache.Current()];
    }
    EarlyPuts(cache.p, ops, answers, states);
    newest := cache.CountNewest();
    NewestWithin(cache.p, cache.Current());
  }

  lemma InvGood(p: Params, s: State)
    requires Inv(p, s)
    ensures Good(p) && Shaped(s) && |s.table| == p.size
  {
  }

  lemma FoundIsPresent(p: Params, s: State, e: Element, found: bool)
    requires Good(p) && |s.table| == p.size && (found <==> exists loc :: loc in p.hs(e) && loc < p.size && s.table[loc] == e)
    ensures found <==> Present(p, s, e)
  {
    if found {
      var loc :| loc in p.hs(e) && loc < p.size && s.table[loc] == e;
      var j :| 0 <= j < |p.hs(e)| && p.hs(e)[j] == loc;
    }
  }
}
