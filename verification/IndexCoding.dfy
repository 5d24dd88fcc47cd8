/** Differential coding of the transaction indexes in a request for missing transactions. */
module IndexCoding {
  import opened Common

  predicate Increasing(s: seq<nat>) {
    forall i, j :: 0 <= i < j < |s| ==> s[i] < s[j]
  }

  predicate Words(s: seq<nat>) { forall i :: 0 <= i < |s| ==> s[i] <= MAX_UINT16 }

  // Each index as its distance past the one before, in 64-bit arithmetic.
  function Deltas(indexes: seq<nat>): (d: seq<nat>)
    ensures |d| == |indexes|
  {
    seq(|indexes|, i requires 0 <= i < |indexes| => Delta(indexes, i))
  }

  function Delta(indexes: seq<nat>, i: nat): nat
    requires i < |indexes|
  {
    var index: int := indexes[i];
    (index - if i == 0 then 0 else indexes[i - 1] + 1) % 0x1_0000_0000_0000_0000
  }

  // The 16-bit offset wraps after index 65535.
  function Offset(indexes: seq<nat>, j: nat): nat
    requires j <= |indexes|
  {
    if j == 0 then 0 else (indexes[j - 1] + 1) % 0x1_0000
  }

  // The first j indexes are decoded.
  ghost predicate DecodedTo(indexes: seq<nat>, deltas: seq<nat>, j: nat) {
    j <= |indexes| == |deltas| && Words(indexes)
    && (forall i :: 0 <= i < j ==> indexes[i] == deltas[i] + Offset(indexes, i))
    && forall i :: j <= i < |deltas| ==> indexes[i] == deltas[i]
  }

  method WriteIndexes(indexes: seq<nat>) returns (deltas: seq<nat>)
    ensures deltas == Deltas(indexes)
  {
    deltas := [];
    for i := 0 to |indexes|
      invariant |deltas| == i && forall k :: 0 <= k < i ==> deltas[k] == Deltas(indexes)[k]
    {
      deltas := deltas + [Delta(indexes, i)];
    }
  }

  // None is the exception for an index that does not fit 16 bits.
  method ReadIndexes(deltas: seq<nat>) returns (r: Option<seq<nat>>)
    ensures r.Some? ==> DecodedTo(r.value, deltas, |deltas|)
    ensures r.None? ==> !exists indexes :: DecodedTo(indexes, deltas, |deltas|)
  {
    var indexes: seq<nat> := [];
    for i := 0 to |deltas|
      invariant indexes == deltas[..i] && Words(indexes)
    {
      if deltas[i] > MAX_UINT16 {
        TooLarge(deltas, i);
        return None;
      }
      indexes := indexes + [deltas[i]];
    }
    assert indexes == deltas;
    var offset := 0;
    for j := 0 to |indexes|
      invariant |indexes| == |deltas| && DecodedTo(indexes, deltas, j) && offset == Offset(indexes, j)
    {
      if indexes[j] + offset > MAX_UINT16 {
        Stuck(indexes, deltas, j);
        return None;
      }
      ghost var before := indexes;
      indexes := indexes[j := indexes[j] + offset];
      assert forall i :: 0 <= i <= j ==> Offset(indexes, i) == Offset(before, i);
      offset := (indexes[j] + 1) % 0x1_0000;
    }
    return Some(indexes);
  }

  lemma TooLarge(deltas: seq<nat>, i: nat)
    requires i < |deltas| && deltas[i] > MAX_UINT16
    ensures !exists indexes :: DecodedTo(indexes, deltas, |deltas|)
  {
    forall indexes | |indexes| == |deltas| && Words(indexes) ensures !DecodedTo(indexes, deltas, |deltas|) {
      assert indexes[i] <= MAX_UINT16;
    }
  }

  // Decoding is determined from the left, so an index that does not fit cannot be avoided.
  lemma {:induction false} SamePrefix(a: seq<nat>, b: seq<nat>, deltas: seq<nat>, m: nat, j: nat)
    requires DecodedTo(a, deltas, m) && DecodedTo(b, deltas, |deltas|) && j <= m
    ensures |a| == |b| == |deltas| && forall i :: 0 <= i < j ==> a[i] == b[i]
  {
    if j > 0 {
      SamePrefix(a, b, deltas, m, j - 1);
      assert Offset(a, j - 1) == Offset(b, j - 1);
      assert a[j - 1] == deltas[j - 1] + Offset(a, j - 1);
    }
  }

  lemma Stuck(a: seq<nat>, deltas: seq<nat>, j: nat)
    requires DecodedTo(a, deltas, j) && j < |deltas| && deltas[j] + Offset(a, j) > MAX_UINT16
    ensures !exists indexes :: DecodedTo(indexes, deltas, |deltas|)
  {
    forall b | DecodedTo(b, deltas, |deltas|) ensures Offset(b, j) == Offset(a, j) {
      SamePrefix(a, b, deltas, j, j);
    }
  }

  /** A list of 16-bit indexes comes back from its differences if it is strictly increasing; otherwise reading fails. */
  lemma IndexRoundTripIff(indexes: seq<nat>)
    requires Words(indexes)
    ensures var deltas := Deltas(indexes);
            if Increasing(indexes) then
              && DecodedTo(indexes, deltas, |deltas|)
              && forall other :: DecodedTo(other, deltas, |deltas|) ==> other == indexes
            else !exists other :: DecodedTo(other, deltas, |deltas|)
  {
    var deltas := Deltas(indexes);
    if Increasing(indexes) {
      RoundTrip(indexes);
      forall other | DecodedTo(other, deltas, |deltas|) ensures other == indexes {
        SamePrefix(indexes, other, deltas, |deltas|, |deltas|);
      }
    } else {
      var i := FirstFall(indexes);
      var index: int := indexes[i];
      assert deltas[i] == index - (indexes[i - 1] + 1) + 0x1_0000_0000_0000_0000;
      TooLarge(deltas, i);
    }
  }

  lemma RoundTrip(indexes: seq<nat>)
    requires Increasing(indexes) && Words(indexes)
    ensures DecodedTo(indexes, Deltas(indexes), |indexes|)
  {
    forall i | 0 <= i < |indexes| ensures indexes[i] == Deltas(indexes)[i] + Offset(indexes, i) {
      if i > 0 {
        assert indexes[i - 1] < indexes[i];
      }
    }
  }

  lemma FirstFall(s: seq<nat>) returns (i: nat)
    requires !Increasing(s)
    ensures 1 <= i < |s| && s[i] <= s[i - 1]
  {
    if forall k :: 1 <= k < |s| ==> s[k - 1] < s[k] {
      forall a, b | 0 <= a < b < |s| ensures s[a] < s[b] {
        Climbs(s, a, b);
      }
      assert false;
    }
    i :| 1 <= i < |s| && s[i] <= s[i - 1];
  }

  lemma {:induction false} Climbs(s: seq<nat>, a: nat, b: nat)
    requires a < b < |s| && forall k :: 1 <= k < |s| ==> s[k - 1] < s[k]
    ensures s[a] < s[b]
  {
    assert s[b - 1] < s[b];
    if a + 1 < b {
      Climbs(s, a, b - 1);
    }
  }

  // How far the first n differences reach: the sum of each plus one.
  function Reach(deltas: seq<nat>, n: nat): nat
    requires n <= |deltas|
  {
    if n == 0 then 0 else Reach(deltas, n - 1) + deltas[n - 1] + 1
  }

  lemma {:induction false} ReachRises(deltas: seq<nat>, m: nat, n: nat)
    requires m < n <= |deltas|
    ensures Reach(deltas, m) < Reach(deltas, n)
  {
    if m + 1 < n {
      ReachRises(deltas, m, n - 1);
    }
  }

  // Until the offset wraps, an index is the reach less one.
  lemma {:induction false} IndexIsReach(indexes: seq<nat>, deltas: seq<nat>, n: nat)
    requires DecodedTo(indexes, deltas, |deltas|) && 1 <= n <= |deltas| && forall k :: 1 <= k < n ==> Reach(deltas, k) != 0x1_0000
    ensures indexes[n - 1] + 1 == Reach(deltas, n)
  {
    assert indexes[n - 1] == deltas[n - 1] + Offset(indexes, n - 1);
    if n > 1 {
      IndexIsReach(indexes, deltas, n - 1);
      assert Reach(deltas, n - 1) != 0x1_0000;
    }
  }

  /** What is decoded is strictly increasing exactly when no proper prefix of the differences reaches 65536. */
  lemma DecodedIncreasingIff(indexes: seq<nat>, deltas: seq<nat>)
    requires DecodedTo(indexes, deltas, |deltas|)
    ensures Increasing(indexes) <==> forall n :: 1 <= n < |deltas| ==> Reach(deltas, n) != 0x1_0000
  {
    hide DecodedTo, Reach;
    DecodedSize(indexes, deltas);
    if forall n :: 1 <= n < |deltas| ==> Reach(deltas, n) != 0x1_0000 {
      forall i, j | 0 <= i < j < |indexes| ensures indexes[i] < indexes[j] {
        IndexIsReach(indexes, deltas, i + 1);
        IndexIsReach(indexes, deltas, j + 1);
        ReachRises(deltas, i + 1, j + 1);
      }
    } else {
      var n :| 1 <= n < |deltas| && Reach(deltas, n) == 0x1_0000;
      NoRise(indexes, deltas, n);
    }
  }

  lemma DecodedSize(indexes: seq<nat>, deltas: seq<nat>)
    requires DecodedTo(indexes, deltas, |deltas|)
    ensures |indexes| == |deltas| && Words(indexes)
  {
  }

  lemma NoRise(indexes: seq<nat>, deltas: seq<nat>, n: nat)
    requires DecodedTo(indexes, deltas, |deltas|) && 1 <= n < |deltas| && Reach(deltas, n) == 0x1_0000
    ensures |indexes| == |deltas| && indexes[n] <= indexes[n - 1]
  {
    hide Reach;
    forall k | 1 <= k < n ensures Reach(deltas, k) != 0x1_0000 {
      ReachRises(deltas, k, n);
    }
    IndexIsReach(indexes, deltas, n);
  }

  /** The differences 65535, 0 decode to a list that goes down. */
  lemma WrappedIndexes()
    ensures DecodedTo([65535, 0], [65535, 0], 2) && !Increasing([65535, 0])
  {
    assert [65535, 0][0] == 65535 && [65535, 0][1] == 0;
  }
}
