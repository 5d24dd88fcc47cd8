/** Vocabulary shared by the modules. */
module Common {
  datatype Option<+T> = None | Some(value: T)

  // A 256-bit hash as a number. Zero is the null hash.
  type Hash256 = n: nat | n < 0x1_0000000000000000_0000000000000000_0000000000000000_0000000000000000

  const NULL_HASH: Hash256 := 0

  const MAX_UINT16: nat := 0xffff

  function Max(a: int, b: int): int { if a < b then b else a }

  function Min(a: int, b: int): int { if a < b then a else b }

  ghost predicate Distinct<T>(s: seq<T>) {
    forall i, j :: 0 <= i < j < |s| ==> s[i] != s[j]
  }

  ghost function Elements<T>(s: seq<T>): set<T> { set x | x in s }

  lemma {:induction false} ElementsBound<T>(s: seq<T>)
    ensures |Elements(s)| <= |s| && (|Elements(s)| == |s| <==> Distinct(s))
  {
    if s != [] {
      var r, x := s[..|s| - 1], s[|s| - 1];
      ElementsBound(r);
      assert s == r + [x];
      assert Elements(s) == Elements(r) + {x};
      if x in r {
        var i :| 0 <= i < |r| && r[i] == x;
        assert Elements(s) == Elements(r);
        assert s[i] == s[|s| - 1];
      } else {
        assert forall i :: 0 <= i < |r| ==> s[i] == r[i] != x;
      }
    }
  }

  lemma NotLarger<T>(a: set<T>, b: set<T>)
    requires a <= b
    ensures |a| <= |b|
  {
    assert b == a + (b - a);
  }

  lemma Smaller<T>(a: set<T>, b: set<T>, x: T)
    requires a <= b && x in b && x !in a
    ensures |a| < |b|
  {
    NotLarger(a, b - {x});
  }

  lemma Unit<T>(a: multiset<T>)
    ensures a + multiset{} == a
  {
  }
}
