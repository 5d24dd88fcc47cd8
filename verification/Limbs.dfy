/** Numbers as sequences of 32-bit limbs, least significant first. */
module Limbs {
  import opened Arithmetic
  import opened Powers

  const BASE: nat := 0x1_0000_0000

  // The weight of a limb.
  function Weight(k: nat): (r: nat)
    ensures r >= 1
  {
    if k == 0 then 1 else Weight(k - 1) * BASE
  }

  predicate IsLimbs(s: seq<nat>) {
    forall i :: 0 <= i < |s| ==> s[i] < BASE
  }

  function Val(s: seq<nat>): nat {
    if s == [] then 0 else Val(s[..|s| - 1]) + s[|s| - 1] * Weight(|s| - 1)
  }

  lemma {:induction false} WeightSum(a: nat, b: nat)
    ensures Weight(a + b) == Weight(a) * Weight(b)
  {
    if b > 0 {
      WeightSum(a, b - 1);
      Assoc(Weight(a), Weight(b - 1), BASE);
    }
  }

  lemma Pow32()
    ensures Pow2(32) == BASE
  {
    assert Pow2(8) == 256;
    PowSum(8, 8);
    PowSum(16, 16);
  }

  // A limb holds 32 bits.
  lemma {:induction false} WeightIsPow(k: nat)
    ensures Weight(k) == Pow2(32 * k)
  {
    if k > 0 {
      WeightIsPow(k - 1);
      Pow32();
      PowSum(32 * (k - 1), 32);
    }
  }

  // --- Values ---

  lemma ValLast(s: seq<nat>, k: nat)
    requires k < |s|
    ensures Val(s[..k + 1]) == Val(s[..k]) + s[k] * Weight(k)
  {
    assert s[..k + 1][..k] == s[..k];
  }

  lemma ValWhole(s: seq<nat>)
    ensures Val(s[..|s|]) == Val(s) && Val([]) == 0 && Weight(0) == 1
  {
    assert s[..|s|] == s;
  }

  lemma {:induction false} ValBound(s: seq<nat>)
    requires IsLimbs(s)
    ensures Val(s) < Weight(|s|)
  {
    if s != [] {
      var n := |s| - 1;
      ValBound(s[..n]);
      Bound(Val(s[..n]), s[n], Weight(n), BASE);
    }
  }

  lemma Bound(x: nat, d: nat, w: nat, base: nat)
    requires x < w && d < base
    ensures x + d * w < w * base
  {
    MulMono(d + 1, base, w);
    Dist(d, 1, w);
    Comm(w, base);
  }

  // Splitting a number at a limb.
  lemma {:induction false} ValSplit(s: seq<nat>, k: nat)
    requires k <= |s|
    ensures Val(s) == Val(s[..k]) + Val(s[k..]) * Weight(k)
  {
    hide Val, Weight;
    var n := |s| - 1;
    if k == |s| {
      ValWhole(s);
      assert s[..k] == s && s[k..] == [];
    } else {
      ValSplit(s[..n], k);
      assert s[..n][..k] == s[..k] && s[..n][k..] == s[k..][..n - k];
      ValLast(s, n);
      assert s[..n + 1] == s;
      ValLast(s[k..], n - k);
      assert s[k..][..n - k + 1] == s[k..];
      WeightSum(n - k, k);
      Dist(Val(s[k..][..n - k]), s[n] * Weight(n - k), Weight(k));
      Assoc(s[n], Weight(n - k), Weight(k));
    }
  }

  lemma {:induction false} ValZero(s: seq<nat>)
    requires forall i :: 0 <= i < |s| ==> s[i] == 0
    ensures Val(s) == 0
  {
    if s != [] {
      ValZero(s[..|s| - 1]);
    }
  }

  // Changing one limb.
  lemma {:induction false} ValUpdate(s: seq<nat>, k: nat, d: nat)
    requires k < |s|
    ensures Val(s[k := d]) == Val(s) + (d - s[k]) * Weight(k)
  {
    var n := |s| - 1;
    if k == n {
      assert s[k := d][..n] == s[..n];
      Dist(d, s[k], Weight(k));
    } else {
      assert s[k := d][..n] == s[..n][k := d];
      ValUpdate(s[..n], k, d);
    }
  }

  lemma {:induction false} ValInjective(s: seq<nat>, t: seq<nat>)
    requires |s| == |t| && IsLimbs(s) && IsLimbs(t) && Val(s) == Val(t)
    ensures s == t
  {
    if s != [] {
      var n := |s| - 1;
      ValBound(s[..n]);
      ValBound(t[..n]);
      DivUnique(Val(s), Weight(n), s[n], Val(s[..n]));
      DivUnique(Val(t), Weight(n), t[n], Val(t[..n]));
      ValInjective(s[..n], t[..n]);
      assert s == s[..n] + [s[n]] && t == t[..n] + [t[n]];
    }
  }

  // --- Bitwise or ---

  function Or(a: nat, b: nat): nat {
    if a == 0 then b else if b == 0 then a
    else 2 * Or(a / 2, b / 2) + (if a % 2 == 1 || b % 2 == 1 then 1 else 0)
  }

  // Where the bits do not overlap, or is addition.
  lemma {:induction false} OrDisjoint(a: nat, b: nat, e: nat)
    requires a % Pow2(e) == 0 && b < Pow2(e)
    ensures Or(a, b) == a + b
  {
    if e > 0 && a != 0 && b != 0 {
      var q := a / Pow2(e);
      assert a == q * Pow2(e);
      Assoc(q, 2, Pow2(e - 1));
      var a' := q * Pow2(e - 1);
      assert a == 2 * a';
      DivUnique(a', Pow2(e - 1), q, 0);
      OrDisjoint(a / 2, b / 2, e - 1);
    }
  }

  lemma OrComm(a: nat, b: nat)
    ensures Or(a, b) == Or(b, a)
  {
  }
}
