/** The fixed-width integers, limb by limb and in place. */
module ArithUint {
  import opened Arithmetic
  import opened Common
  import opened Limbs
  import opened Powers

  ghost predicate Limbed(pn: array<nat>)
    reads pn
  {
    IsLimbs(pn[..])
  }

  // --- Addition, complement, increment, subtraction ---

  // One limb of a carry chain: what is written and what is carried make up the total.
  lemma CarryStep(x: nat, n: nat, carry: nat, total: int, d: int, k: nat)
    requires x + carry * Weight(k) == total && n == carry + d
    ensures x + (n % BASE) * Weight(k) + (n / BASE) * Weight(k + 1) == total + d * Weight(k)
  {
    var w := Weight(k);
    assert n == n / BASE * BASE + n % BASE;
    Dist(n / BASE * BASE, n % BASE, w);
    Assoc(n / BASE, BASE, w);
    Comm(BASE, w);
    Dist(carry, d, w);
  }

  lemma Prefixes(s: seq<nat>, s0: seq<nat>, i: nat, v: nat)
    requires i < |s| && |s| == |s0| && s == s0[i := v]
    ensures s[..i] == s0[..i] && Val(s[..i + 1]) == Val(s0[..i]) + v * Weight(i)
  {
    ValLast(s, i);
    assert s[..i] == s0[..i];
  }

  // pn += b; the two may be the same array.
  method AddAssign(pn: array<nat>, b: array<nat>)
    requires pn.Length == b.Length && Limbed(pn) && Limbed(b)
    modifies pn
    ensures Limbed(pn) && Val(pn[..]) == (Val(old(pn[..])) + Val(old(b[..]))) % Weight(pn.Length)
  {
    hide Val, Weight;
    ghost var s, t := pn[..], b[..];
    ValWhole(s);
    ValWhole(t);
    var carry := 0;
    for i := 0 to pn.Length
      invariant Limbed(pn) && 0 <= carry <= 1
      invariant pn[i..] == s[i..] && (b != pn ==> b[..] == t) && (b == pn ==> s == t)
      invariant Val(pn[..i]) + carry * Weight(i) == Val(s[..i]) + Val(t[..i])
    {
      ghost var before := pn[..];
      assert pn[i] == pn[i..][0] == s[i] && b[i] == t[i];
      var n: nat := carry + pn[i] + b[i];
      CarryStep(Val(pn[..i]), n, carry, Val(s[..i]) + Val(t[..i]), s[i] + t[i], i);
      ValLast(s, i);
      ValLast(t, i);
      Dist(s[i], t[i], Weight(i));
      pn[i] := n % BASE;
      Prefixes(pn[..], before, i, n % BASE);
      assert pn[i + 1..] == before[i + 1..] == s[i + 1..] && before[..i] == pn[..i] && pn[..][..i + 1] == pn[..i + 1];
      carry := n / BASE;
    }
    assert pn[..pn.Length] == pn[..] && s[..|s|] == s && t[..|t|] == t;
    ValBound(pn[..]);
    Wrapped(Val(pn[..]), carry, Weight(pn.Length), Val(s) + Val(t));
  }

  // ~b
  method Complement(b: array<nat>) returns (ret: array<nat>)
    requires Limbed(b)
    ensures fresh(ret) && ret.Length == b.Length && Limbed(ret) && Val(ret[..]) == Weight(b.Length) - 1 - Val(b[..])
  {
    hide Val;
    ret := new nat[b.Length](i => 0);
    ghost var t := b[..];
    ValWhole(t);
    for i := 0 to b.Length
      invariant Limbed(ret) && Val(ret[..i]) + Val(t[..i]) == Weight(i) - 1
    {
      ghost var before := ret[..];
      ret[i] := BASE - 1 - b[i];
      Prefixes(ret[..], before, i, BASE - 1 - b[i]);
      assert ret[..][..i + 1] == ret[..i + 1] && before[..i] == ret[..i];
      ValLast(t, i);
      Dist(BASE - 1 - t[i], t[i], Weight(i));
      Dist(BASE, 1, Weight(i));
      Comm(BASE, Weight(i));
    }
    assert ret[..ret.Length] == ret[..] && t[..|t|] == t;
  }

  // ++pn
  method Increment(pn: array<nat>)
    requires pn.Length >= 1 && Limbed(pn)
    modifies pn
    ensures Limbed(pn) && Val(pn[..]) == (Val(old(pn[..])) + 1) % Weight(pn.Length)
  {
    hide Val, Weight;
    ghost var s := pn[..];
    var i := 0;
    ValWhole(s);
    Bump(pn, 0);
    ValUpdate(s, 0, pn[0]);
    while pn[i] == 0 && i < pn.Length - 1
      invariant i < pn.Length && Limbed(pn) && (forall j :: 0 <= j < i ==> pn[j] == 0)
      invariant Val(pn[..]) + (if pn[i] == 0 then Weight(i + 1) else 0) == Val(s) + 1
      decreases pn.Length - i
    {
      i := i + 1;
      ghost var before := pn[..];
      Bump(pn, i);
      ValUpdate(before, i, pn[i]);
    }
    ValBound(pn[..]);
    if pn[i] == 0 {
      Wrapped(Val(pn[..]), 1, Weight(pn.Length), Val(s) + 1);
    } else {
      Wrapped(Val(pn[..]), 0, Weight(pn.Length), Val(s) + 1);
    }
  }

  // ++ of one 32-bit limb.
  method Bump(pn: array<nat>, i: nat)
    requires i < pn.Length && Limbed(pn)
    modifies pn
    ensures Limbed(pn) && pn[..] == old(pn[..])[i := (old(pn[i]) + 1) % BASE]
    ensures (pn[i] - old(pn[i])) * Weight(i) + (if pn[i] == 0 then Weight(i + 1) else 0) == Weight(i)
  {
    var d: nat := (pn[i] + 1) % BASE;
    if d == 0 {
      Comm(BASE, Weight(i));
      Dist(0, BASE - 1, Weight(i));
      Dist(BASE, 1, Weight(i));
    }
    pn[i] := d;
  }

  // -b
  method Negate(b: array<nat>) returns (ret: array<nat>)
    requires b.Length >= 1 && Limbed(b)
    ensures fresh(ret) && ret.Length == b.Length && Limbed(ret) && Val(ret[..]) == (0 - Val(b[..])) % Weight(b.Length)
  {
    hide Val, Weight;
    ret := Complement(b);
    Increment(ret);
    ModAdd(0 - Val(b[..]), 1, Weight(b.Length));
  }

  // pn -= b
  method SubAssign(pn: array<nat>, b: array<nat>)
    requires pn.Length == b.Length >= 1 && Limbed(pn) && Limbed(b)
    modifies pn
    ensures Limbed(pn) && Val(pn[..]) == (Val(old(pn[..])) - Val(old(b[..]))) % Weight(pn.Length)
  {
    hide Val, Weight;
    ghost var x, y := Val(pn[..]), Val(b[..]);
    var neg := Negate(b);
    AddAssign(pn, neg);
    AddNegated(x, y, Weight(pn.Length));
  }

  lemma AddNegated(x: int, y: int, w: nat)
    requires w >= 1
    ensures (x + (0 - y) % w) % w == (x - y) % w
  {
    var q := (0 - y) / w;
    assert (0 - y) % w == 0 - y - q * w;
    ModAdd(x - y, -q, w);
    Dist(0, q, w);
  }

  // --- Multiplication ---

  // A product of limbs with two limbs added fits 64 bits, and its carry is a limb.
  lemma WideEnough(carry: nat, x: nat, a: nat, b: nat)
    requires carry < BASE && x < BASE && a < BASE && b < BASE
    ensures carry + x + a * b < BASE * BASE && (carry + x + a * b) / BASE < BASE
  {
    MulMono(a, BASE - 1, b);
    MulMono(b, BASE - 1, BASE - 1);
    Comm(BASE - 1, b);
  }

  lemma SmallStep(p: seq<nat>, s: seq<nat>, carry: nat, b: nat, i: nat)
    requires i < |s| == |p| && Val(p[..i]) + carry * Weight(i) == Val(s[..i]) * b
    ensures var m := carry + b * s[i]; Val(p[..i]) + (m % BASE) * Weight(i) + (m / BASE) * Weight(i + 1) == Val(s[..i + 1]) * b
  {
    hide Val, Weight;
    CarryStep(Val(p[..i]), carry + b * s[i], carry, Val(s[..i]) * b, b * s[i], i);
    ValLast(s, i);
    Dist(Val(s[..i]), s[i] * Weight(i), b);
    Assoc(b, s[i], Weight(i));
    Comm(b, s[i] * Weight(i));
  }

  // pn *= b32
  method MulSmallAssign(pn: array<nat>, b32: nat)
    requires b32 < BASE && Limbed(pn)
    modifies pn
    ensures Limbed(pn) && Val(pn[..]) == (Val(old(pn[..])) * b32) % Weight(pn.Length)
  {
    hide Val, Weight;
    ghost var s := pn[..];
    ValWhole(s);
    var carry := 0;
    for i := 0 to pn.Length
      invariant Limbed(pn) && 0 <= carry < BASE && pn[i..] == s[i..]
      invariant Val(pn[..i]) + carry * Weight(i) == Val(s[..i]) * b32
    {
      ghost var before := pn[..];
      assert pn[i] == pn[i..][0] == s[i];
      WideEnough(carry, 0, b32, pn[i]);
      var n: nat := carry + b32 * pn[i];
      SmallStep(before, s, carry, b32, i);
      pn[i] := n % BASE;
      Prefixes(pn[..], before, i, n % BASE);
      assert pn[i + 1..] == before[i + 1..] == s[i + 1..] && before[..i] == pn[..i] && pn[..][..i + 1] == pn[..i + 1];
      carry := n / BASE;
    }
    assert pn[..pn.Length] == pn[..] && s[..|s|] == s;
    ValBound(pn[..]);
    Wrapped(Val(pn[..]), carry, Weight(pn.Length), Val(s) * b32);
  }

  predicate AllZero(s: seq<nat>) { forall i :: 0 <= i < |s| ==> s[i] == 0 }

  // pn += aj * b, shifted up j limbs; a number that has been cleared may be added to itself.
  method AddRow(pn: array<nat>, aj: nat, b: array<nat>, j: nat)
    requires pn.Length == b.Length && j < pn.Length && aj < BASE && Limbed(pn) && Limbed(b) && (pn == b ==> AllZero(pn[..]))
    modifies pn
    ensures Limbed(pn)
    ensures pn != b ==> Val(pn[..]) == (Val(old(pn[..])) + Val(b[..]) * aj * Weight(j)) % Weight(pn.Length)
    ensures pn == b ==> AllZero(pn[..])
  {
    hide Val, Weight, Rowing, IsLimbs;
    ghost var s, t := pn[..], b[..];
    var n := pn.Length;
    var carry := 0;
    RowStart(s, t, aj, j);
    for i := 0 to n - j
      invariant b[..] == t && 0 <= carry < BASE && Rowing(pn[..], s, t, carry, aj, i, j)
      invariant pn == b ==> carry == 0
    {
      ghost var before := pn[..];
      RowFacts(before, s, t, carry, aj, i, j);
      var m: nat := carry + pn[i + j] + aj * b[i];
      RowNext(before, s, t, carry, aj, i, j);
      if pn == b {
        assert b[i] == t[i] == 0 && s[i + j] == 0;
        assert m == 0;
      }
      var digit: nat := m % BASE;
      pn[i + j] := digit;
      assert pn[..] == before[i + j := digit];
      assert pn == b ==> pn[..] == before;
      carry := m / BASE;
    }
    RowDone(pn[..], s, t, carry, aj, j);
  }

  // The limbs below i + j are done; with the carry they hold the sum so far.
  ghost predicate Rowing(p: seq<nat>, s: seq<nat>, t: seq<nat>, carry: nat, aj: nat, i: nat, j: nat) {
    && |p| == |s| == |t| && i + j <= |s| && IsLimbs(p) && IsLimbs(t) && (forall k :: i + j <= k < |s| ==> p[k] == s[k])
    && Val(p[..i + j]) + carry * Weight(i + j) == Val(s[..i + j]) + Val(t[..i]) * aj * Weight(j)
  }

  lemma RowStart(s: seq<nat>, t: seq<nat>, aj: nat, j: nat)
    requires |s| == |t| && j <= |s| && IsLimbs(s) && IsLimbs(t)
    ensures Rowing(s, s, t, 0, aj, 0, j)
  {
    ValWhole(t);
  }

  lemma RowFacts(p: seq<nat>, s: seq<nat>, t: seq<nat>, carry: nat, aj: nat, i: nat, j: nat)
    requires Rowing(p, s, t, carry, aj, i, j) && i + j < |s| && carry < BASE && aj < BASE
    ensures |p| == |s| == |t| && p[i + j] == s[i + j] && (carry + s[i + j] + aj * t[i]) / BASE < BASE
  {
    hide Val, Weight;
    WideEnough(carry, p[i + j], aj, t[i]);
  }

  lemma RowNext(p: seq<nat>, s: seq<nat>, t: seq<nat>, carry: nat, aj: nat, i: nat, j: nat)
    requires Rowing(p, s, t, carry, aj, i, j) && i + j < |s|
    ensures var m: nat := carry + s[i + j] + aj * t[i]; Rowing(p[i + j := m % BASE], s, t, m / BASE, aj, i + 1, j)
  {
    hide Val, Weight;
    var m: nat := carry + s[i + j] + aj * t[i];
    RowStep(p, s, t, carry, aj, i, j);
    Prefixes(p[i + j := m % BASE], p, i + j, m % BASE);
  }

  lemma RowStep(p: seq<nat>, s: seq<nat>, t: seq<nat>, carry: nat, aj: nat, i: nat, j: nat)
    requires |p| == |s| == |t| && i + j < |s|
    requires Val(p[..i + j]) + carry * Weight(i + j) == Val(s[..i + j]) + Val(t[..i]) * aj * Weight(j)
    ensures var m := carry + s[i + j] + aj * t[i];
            Val(p[..i + j]) + (m % BASE) * Weight(i + j) + (m / BASE) * Weight(i + j + 1)
            == Val(s[..i + j + 1]) + Val(t[..i + 1]) * aj * Weight(j)
  {
    hide Val, Weight;
    var w := Weight(i + j);
    var m := carry + s[i + j] + aj * t[i];
    CarryStep(Val(p[..i + j]), m, carry, Val(s[..i + j]) + Val(t[..i]) * aj * Weight(j), s[i + j] + aj * t[i], i + j);
    ValLast(s, i + j);
    ValLast(t, i);
    Dist(s[i + j], aj * t[i], w);
    RowProduct(Val(t[..i]), t[i], Weight(i), aj, Weight(j));
    WeightSum(i, j);
  }

  lemma RowProduct(v: nat, d: nat, wi: nat, a: nat, wj: nat)
    ensures (v + d * wi) * a * wj == v * a * wj + (a * d) * (wi * wj)
  {
    Dist(v, d * wi, a);
    Dist(v * a, d * wi * a, wj);
    Assoc(d, wi, a);
    Comm(d, a);
    Assoc(a * d, wi, wj);
  }

  lemma RowDone(p: seq<nat>, s: seq<nat>, t: seq<nat>, carry: nat, aj: nat, j: nat)
    requires j < |t| && Rowing(p, s, t, carry, aj, |t| - j, j)
    ensures IsLimbs(p) && Val(p) == (Val(s) + Val(t) * aj * Weight(j)) % Weight(|t|)
  {
    hide Val, Weight, Rowing, IsLimbs;
    RowEnd(p, s, t, carry, aj, |t| - j, j);
    ValBound(p);
    RowTotal(Val(p), carry, Val(s), t, aj, j);
  }

  lemma RowEnd(p: seq<nat>, s: seq<nat>, t: seq<nat>, carry: nat, aj: nat, i: nat, j: nat)
    requires Rowing(p, s, t, carry, aj, i, j) && i + j == |t|
    ensures |p| == |t| && IsLimbs(p) && Val(p) + carry * Weight(|t|) == Val(s) + Val(t[..i]) * aj * Weight(j)
  {
    hide Val, Weight;
    assert p[..|t|] == p && s[..|t|] == s;
  }

  lemma RowTotal(x: nat, carry: nat, v: nat, t: seq<nat>, aj: nat, j: nat)
    requires j < |t| && x < Weight(|t|)
    requires x + carry * Weight(|t|) == v + Val(t[..|t| - j]) * aj * Weight(j)
    ensures x == (v + Val(t) * aj * Weight(j)) % Weight(|t|)
  {
    hide Val, Weight;
    var k := |t| - j;
    ValSplit(t, k);
    WeightSum(k, j);
    TopLost(x, carry, v, Val(t[..k]), Val(t[k..]), Weight(k), Weight(j), aj, Weight(|t|));
  }

  // pn *= b. The multiplicand is copied and then cleared, so multiplying a number by itself clears both factors.
  method MulAssign(pn: array<nat>, b: array<nat>)
    requires pn.Length == b.Length && Limbed(pn) && Limbed(b)
    modifies pn
    ensures Limbed(pn)
    ensures pn != b ==> Val(pn[..]) == (Val(old(pn[..])) * Val(b[..])) % Weight(pn.Length)
    ensures pn == b ==> Val(pn[..]) == 0
  {
    hide Val, Weight;
    ghost var s, t := pn[..], b[..];
    var n := pn.Length;
    var a := new nat[n](i requires 0 <= i < n reads pn => pn[i]);
    assert a[..] == s;
    Clear(pn);
    ValZero(pn[..]);
    ValWhole(s);
    for j := 0 to n
      invariant Limbed(pn) && a[..] == s
      invariant pn == b ==> AllZero(pn[..])
      invariant pn != b ==> b[..] == t && Val(pn[..]) == (Val(s[..j]) * Val(t)) % Weight(n)
    {
      if pn != b {
        NextRow(s, Val(t), Val(pn[..]), j);
      }
      AddRow(pn, a[j], b, j);
    }
    assert s[..n] == s;
    if pn == b {
      ValZero(pn[..]);
    }
  }

  lemma NextRow(s: seq<nat>, v: nat, x: nat, j: nat)
    requires j < |s| && x == (Val(s[..j]) * v) % Weight(|s|)
    ensures (x + v * s[j] * Weight(j)) % Weight(|s|) == (Val(s[..j + 1]) * v) % Weight(|s|)
  {
    hide Val, Weight;
    ValLast(s, j);
    Dist(Val(s[..j]), s[j] * Weight(j), v);
    Comm(s[j] * Weight(j), v);
    Assoc(v, s[j], Weight(j));
    ModFold(x, Val(s[..j]) * v, v * s[j] * Weight(j), Weight(|s|));
  }

  lemma ModFold(x: nat, y: nat, z: nat, w: nat)
    requires w >= 1 && x == y % w
    ensures (x + z) % w == (y + z) % w
  {
    var q := y / w;
    assert y == q * w + x;
    ModAdd(x + z, q, w);
  }

  method Clear(pn: array<nat>)
    modifies pn
    ensures forall i :: 0 <= i < pn.Length ==> pn[i] == 0
  {
    for i := 0 to pn.Length
      invariant forall k :: 0 <= k < i ==> pn[k] == 0
    {
      pn[i] := 0;
    }
  }

  // A square is a multiple of 2^2k exactly when its root is a multiple of 2^k.
  lemma {:induction false} SquareMultipleIff(x: nat, k: nat)
    ensures (x * x) % Pow2(2 * k) == 0 <==> x % Pow2(k) == 0
  {
    if k > 0 {
      if x % 2 == 0 {
        var y := x / 2;
        SquareMultipleIff(y, k - 1);
        HalfMultiple(y, x, Pow2(k - 1));
        assert x * x == 2 * (2 * (y * y));
        HalfMultiple(y * y, 2 * (y * y), Pow2(2 * k - 2));
        HalfMultiple(2 * (y * y), x * x, Pow2(2 * k - 1));
      } else {
        OddSquare(x);
        OddNotMultiple(x, Pow2(k - 1));
        OddNotMultiple(x * x, Pow2(2 * k - 1));
      }
    }
  }

  lemma HalfMultiple(y: nat, x: nat, p: nat)
    requires p >= 1 && x == 2 * y
    ensures x % (2 * p) == 0 <==> y % p == 0
  {
    var q, r := y / p, y % p;
    assert y == q * p + r;
    assert x == q * (2 * p) + 2 * r;
    DivUnique(x, 2 * p, q, 2 * r);
  }

  lemma OddSquare(x: nat)
    requires x % 2 == 1
    ensures (x * x) % 2 == 1
  {
    var h := x / 2;
    assert x == 2 * h + 1;
    assert x * x == 2 * (h * x) + x;
  }

  lemma OddNotMultiple(x: nat, p: nat)
    requires p >= 1 && x % 2 == 1
    ensures x % (2 * p) != 0
  {
    var q, r := x / (2 * p), x % (2 * p);
    assert x == q * (2 * p) + r;
    assert q * (2 * p) == 2 * (q * p);
  }

  /**
   * A number multiplied by itself in place is cleared before it is read. The result is zero, which is the square exactly
   * when the number is a multiple of the square root of the modulus.
   */
  method SquareAssign(pn: array<nat>)
    requires Limbed(pn)
    modifies pn
    ensures Val(pn[..]) == 0
    ensures Val(pn[..]) == (Val(old(pn[..])) * Val(old(pn[..]))) % Weight(pn.Length) <==> Val(old(pn[..])) % Pow2(16 * pn.Length) == 0
  {
    hide Val, Weight, Pow2;
    ghost var x := Val(pn[..]);
    MulAssign(pn, pn);
    SquareMultipleIff(x, 16 * pn.Length);
    WeightIsPow(pn.Length);
  }

  /** One, multiplied by itself in place, becomes zero. */
  method SquareOfOne() returns (pn: array<nat>)
    ensures pn.Length == 8 && Val(pn[..]) == 0 != (1 * 1) % Weight(8)
  {
    pn := new nat[8];
    Clear(pn);
    pn[0] := 1;
    ValOne(1);
    ghost var s := pn[..];
    assert s[1..] == [0, 0, 0, 0, 0, 0, 0] && s[..1] == [1];
    ValSplit(s, 1);
    ValZero(s[1..]);
    assert Val(s) == 1;
    MulAssign(pn, pn);
    WeightNext(7);
    assert 1 % Weight(8) == 1;
  }

  // --- Shifts ---

  lemma PowSplit(e: nat)
    requires e <= 32
    ensures Pow2(e) * Pow2(32 - e) == BASE
  {
    Pow32();
    PowSum(e, 32 - e);
  }

  // x << e and x >> e on a 32-bit limb.
  function Up(x: nat, e: nat): (r: nat)
    ensures r < BASE
  {
    var y: nat := x * Pow2(e);
    y % BASE
  }

  function Down(x: nat, e: nat): (r: nat)
    ensures r <= x
  {
    Quotient(x, Pow2(e));
    x / Pow2(e)
  }

  // A limb shifted up e bits, in 64 bits: what stays in the limb and what leaves it.
  lemma ShiftParts(x: nat, e: nat)
    requires e <= 32 && x < BASE
    ensures x * Pow2(e) == Down(x, 32 - e) * BASE + Up(x, e)
    ensures Up(x, e) == (x % Pow2(32 - e)) * Pow2(e) && Down(x, 32 - e) < Pow2(e)
  {
    PowSplit(e);
    Regroup(x, Pow2(e), Pow2(32 - e));
  }

  lemma Regroup(x: nat, a: nat, c: nat)
    requires a >= 1 && c >= 1 && a * c == BASE && x < BASE
    ensures x * a == (x / c) * BASE + (x % c) * a && (x * a) % BASE == (x % c) * a && 0 <= x / c < a
  {
    var q, r := x / c, x % c;
    assert x == q * c + r;
    Dist(q * c, r, a);
    Assoc(q, c, a);
    Comm(a, c);
    MulMono(r + 1, c, a);
    Dist(r, 1, a);
    DivUnique(x * a, BASE, q, r * a);
    QuotientSmall(q, a, c);
  }

  lemma QuotientSmall(q: int, a: int, c: nat)
    requires c >= 1 && q * c < a * c
    ensures q < a
  {
    if a <= q {
      MulMono(a, q, c);
    }
  }

  lemma MultipleOf(q: nat, p: nat)
    requires p >= 1
    ensures (q * p) % p == 0
  {
    DivUnique(q * p, p, q, 0);
  }

  // The limb that is left behind and the bits that come in from below do not overlap.
  lemma OrShifted(x: nat, e: nat, low: nat)
    requires e <= 32 && x < BASE && low < Pow2(e)
    ensures Or(low, Up(x, e)) == low + Up(x, e) < BASE
  {
    var a, c := Pow2(e), Pow2(32 - e);
    ShiftParts(x, e);
    PowSplit(e);
    var r := x % c;
    MultipleOf(r, a);
    OrDisjoint(r * a, low, e);
    OrComm(low, r * a);
    MulMono(r + 1, c, a);
    Dist(r, 1, a);
    Comm(a, c);
  }

  // The bits that limb i - 1 sends up to limb i.
  function Sent(a: seq<nat>, i: nat, e: nat): nat
    requires i <= |a| && e < 32
  {
    if i == 0 then 0 else Down(a[i - 1], 32 - e)
  }

  // The result of a left shift by k limbs and e bits, as far as limb i of the source.
  ghost predicate ShiftedUp(pn: seq<nat>, a: seq<nat>, k: nat, e: nat, i: nat)
    requires |pn| == |a| && i <= |a| && e < 32
  {
    && IsLimbs(pn)
    && (forall j :: i + k < j < |a| ==> pn[j] == 0)
    && (i + k < |a| ==> pn[i + k] == Sent(a, i, e))
    && (k <= |a| ==> var m: nat := Min(i, |a| - k);
                     Val(pn[..m + k]) + Sent(a, m, e) * Weight(m + k) == Val(a[..m]) * Pow2(e) * Weight(k))
    && (k > |a| ==> AllZero(pn))
  }

  lemma UpStart(pn: seq<nat>, a: seq<nat>, k: nat, e: nat)
    requires |pn| == |a| && e < 32 && AllZero(pn)
    ensures ShiftedUp(pn, a, k, e, 0)
  {
    if k <= |a| {
      ValZero(pn[..k]);
    }
  }

  // What one round of the loop does.
  function UpRound(pn: seq<nat>, a: seq<nat>, k: nat, e: nat, i: nat): (r: seq<nat>)
    requires |pn| == |a| && i < |a| && e < 32
    ensures |r| == |pn|
  {
    var p1 := if i + k + 1 < |a| && e != 0 then pn[i + k + 1 := Or(pn[i + k + 1], Down(a[i], 32 - e))] else pn;
    if i + k < |a| then p1[i + k := Or(p1[i + k], Up(a[i], e))] else p1
  }

  lemma UpNext(pn: seq<nat>, a: seq<nat>, k: nat, e: nat, i: nat)
    requires |pn| == |a| && i < |a| && e < 32 && IsLimbs(a) && ShiftedUp(pn, a, k, e, i)
    ensures ShiftedUp(UpRound(pn, a, k, e, i), a, k, e, i + 1)
  {
    if i + k < |a| {
      UpInside(pn, a, k, e, i);
    } else {
      hide Val, Weight;
      assert UpRound(pn, a, k, e, i) == pn;
    }
  }

  lemma UpInside(pn: seq<nat>, a: seq<nat>, k: nat, e: nat, i: nat)
    requires |pn| == |a| && i + k < |a| && e < 32 && IsLimbs(a) && ShiftedUp(pn, a, k, e, i)
    ensures ShiftedUp(UpRound(pn, a, k, e, i), a, k, e, i + 1)
  {
    hide Val, Weight, Or, Up, Down, Sent, UpRound, Pow2;
    var r := UpRound(pn, a, k, e, i);
    UpLimbs(pn, a, k, e, i);
    assert r[..i + k] == pn[..i + k];
    UpValue(Val(pn[..i + k]), a, k, e, i);
    ValLast(r, i + k);
  }

  lemma UpLimbs(pn: seq<nat>, a: seq<nat>, k: nat, e: nat, i: nat)
    requires |pn| == |a| && i + k < |a| && e < 32 && IsLimbs(a) && ShiftedUp(pn, a, k, e, i)
    ensures var r := UpRound(pn, a, k, e, i);
            && IsLimbs(r) && r[i + k] == Sent(a, i, e) + Up(a[i], e)
            && (i + k + 1 < |a| ==> r[i + k + 1] == Sent(a, i + 1, e))
            && forall j :: 0 <= j < |a| && j != i + k && j != i + k + 1 ==> r[j] == pn[j]
  {
    hide Val, Weight;
    ShiftParts(a[i], e);
    if i > 0 {
      ShiftParts(a[i - 1], e);
    }
    OrShifted(a[i], e, Sent(a, i, e));
    if e == 0 {
      Pow32();
      NoneSent(a[i]);
    }
  }

  lemma NoneSent(x: nat)
    requires x < BASE
    ensures Down(x, 32) == 0
  {
    Pow32();
    DivUnique(x, BASE, 0, x);
  }

  lemma UpValue(x: nat, a: seq<nat>, k: nat, e: nat, i: nat)
    requires i < |a| && e < 32 && IsLimbs(a) && x + Sent(a, i, e) * Weight(i + k) == Val(a[..i]) * Pow2(e) * Weight(k)
    ensures x + (Sent(a, i, e) + Up(a[i], e)) * Weight(i + k) + Sent(a, i + 1, e) * Weight(i + k + 1)
            == Val(a[..i + 1]) * Pow2(e) * Weight(k)
  {
    hide Val, Weight, Up, Down, Pow2;
    ShiftParts(a[i], e);
    ValLast(a, i);
    WeightSum(i, k);
    RowProduct(Val(a[..i]), a[i], Weight(i), Pow2(e), Weight(k));
    Comm(a[i], Pow2(e));
    Recombine(x, Sent(a, i, e), Up(a[i], e), Down(a[i], 32 - e), Weight(i + k));
    WeightNext(i + k);
  }

  lemma WeightNext(k: nat)
    ensures Weight(k + 1) == BASE * Weight(k)
  {
  }

  lemma Recombine(x: nat, c: nat, lo: nat, hi: nat, w: nat)
    ensures x + (c + lo) * w + hi * (BASE * w) == x + c * w + (hi * BASE + lo) * w
  {
    Dist(c, lo, w);
    Dist(hi * BASE, lo, w);
    Assoc(hi, BASE, w);
  }

  lemma UpDone(pn: seq<nat>, a: seq<nat>, k: nat, e: nat)
    requires |pn| == |a| && e < 32 && IsLimbs(a) && ShiftedUp(pn, a, k, e, |a|)
    ensures IsLimbs(pn) && Val(pn) == (Val(a) * Pow2(32 * k + e)) % Weight(|a|)
  {
    hide Val, Weight, Sent, Pow2;
    WeightIsPow(k);
    PowSum(32 * k, e);
    Comm(Weight(k), Pow2(e));
    Assoc(Val(a), Pow2(e), Weight(k));
    ValBound(pn);
    if k <= |a| {
      var m := |a| - k;
      assert pn[..|a|] == pn;
      UpTop(Val(pn), Sent(a, m, e), a, k, e);
    } else {
      ValZero(pn);
      WeightSum(k - |a|, |a|);
      Assoc(Val(a) * Pow2(e), Weight(k - |a|), Weight(|a|));
      MultipleOf(Val(a) * Pow2(e) * Weight(k - |a|), Weight(|a|));
    }
  }

  lemma UpTop(x: nat, c: nat, a: seq<nat>, k: nat, e: nat)
    requires k <= |a| && x < Weight(|a|) && x + c * Weight(|a|) == Val(a[..|a| - k]) * Pow2(e) * Weight(k)
    ensures x == (Val(a) * Pow2(e) * Weight(k)) % Weight(|a|)
  {
    hide Val, Weight, Pow2;
    var m := |a| - k;
    ValSplit(a, m);
    WeightSum(m, k);
    TopLost(x, c, 0, Val(a[..m]), Val(a[m..]), Weight(m), Weight(k), Pow2(e), Weight(|a|));
  }

  // What goes past the top is a multiple of the modulus.
  lemma TopLost(x: nat, c: nat, v: nat, low: nat, high: nat, wm: nat, wk: nat, p: nat, w: nat)
    requires w == wm * wk && x < w && x + c * w == v + low * p * wk
    ensures x == (v + (low + high * wm) * p * wk) % w
  {
    RowProduct(low, high, wm, p, wk);
    Dist(c, p * high, w);
    Wrapped(x, c + p * high, w, v + (low + high * wm) * p * wk);
  }

  method ShiftLeftAssign(pn: array<nat>, shift: nat)
    requires Limbed(pn)
    modifies pn
    ensures Limbed(pn) && Val(pn[..]) == (Val(old(pn[..])) * Pow2(shift)) % Weight(pn.Length)
  {
    hide Val, Weight, ShiftedUp, UpRound, Or, Pow2, Up, Down;
    ghost var a := pn[..];
    var copy := Copied(pn);
    Clear(pn);
    var k, e := shift / 32, shift % 32;
    UpStart(pn[..], a, k, e);
    for i := 0 to pn.Length
      invariant copy[..] == a && ShiftedUp(pn[..], a, k, e, i)
    {
      UpNext(pn[..], a, k, e, i);
      UpRoundIs(pn[..], a, k, e, i);
      ghost var before := pn[..];
      if i + k + 1 < pn.Length && e != 0 {
        pn[i + k + 1] := Or(pn[i + k + 1], Down(copy[i], 32 - e));
      }
      if i + k < pn.Length {
        pn[i + k] := Or(pn[i + k], Up(copy[i], e));
      }
      assert pn[..] == UpRound(before, a, k, e, i);
    }
    UpDone(pn[..], a, k, e);
  }

  lemma UpRoundIs(pn: seq<nat>, a: seq<nat>, k: nat, e: nat, i: nat)
    requires |pn| == |a| && i < |a| && e < 32
    ensures var p1 := if i + k + 1 < |a| && e != 0 then pn[i + k + 1 := Or(pn[i + k + 1], Down(a[i], 32 - e))] else pn;
            UpRound(pn, a, k, e, i) == if i + k < |a| then p1[i + k := Or(p1[i + k], Up(a[i], e))] else p1
  {
  }

  method Copied(pn: array<nat>) returns (a: array<nat>)
    ensures fresh(a) && a[..] == pn[..]
  {
    a := new nat[pn.Length](i => 0);
    for i := 0 to pn.Length
      invariant a[..i] == pn[..i]
    {
      a[i] := pn[i];
    }
    assert a[..] == a[..pn.Length] && pn[..] == pn[..pn.Length];
  }

  // The result of a right shift by k limbs and e bits, as far as limb i of the source.
  ghost predicate ShiftedDown(pn: seq<nat>, a: seq<nat>, k: nat, e: nat, i: nat)
    requires |pn| == |a| && i <= |a| && e < 32
  {
    && IsLimbs(pn) && (forall j :: 0 <= j < |a| && j >= i - k ==> pn[j] == 0)
    && (i > k ==> pn[i - k - 1] == Down(a[i - 1], e) && Val(pn[..i - k]) * Pow2(e) + a[k] % Pow2(e) == Val(a[k..i]))
  }

  function DownRound(pn: seq<nat>, a: seq<nat>, k: nat, e: nat, i: nat): (r: seq<nat>)
    requires |pn| == |a| && i < |a| && e < 32
    ensures |r| == |pn|
  {
    var p1 := if i - k - 1 >= 0 && e != 0 then pn[i - k - 1 := Or(pn[i - k - 1], Up(a[i], 32 - e))] else pn;
    if i - k >= 0 then p1[i - k := Or(p1[i - k], Down(a[i], e))] else p1
  }

  lemma DownParts(x: nat, e: nat, low: nat)
    requires e < 32 && x < BASE && low < BASE
    ensures Or(Down(low, e), Up(x, 32 - e)) == Down(low, e) + Up(x, 32 - e) < BASE
    ensures Up(x, 32 - e) * Pow2(e) == (x % Pow2(e)) * BASE && x == Down(x, e) * Pow2(e) + x % Pow2(e)
    ensures e == 0 ==> Up(x, 32) == 0
  {
    hide Up, Down, Or, Pow2;
    ShiftParts(low, 32 - e);
    OrShifted(x, 32 - e, Down(low, e));
    UpByDown(x, e);
    DownMod(x, e);
  }

  lemma UpByDown(x: nat, e: nat)
    requires e < 32 && x < BASE
    ensures Up(x, 32 - e) * Pow2(e) == (x % Pow2(e)) * BASE
    ensures e == 0 ==> Up(x, 32) == 0
  {
    hide Up, Down;
    ShiftParts(x, 32 - e);
    PowSplit(e);
    Assoc(x % Pow2(e), Pow2(32 - e), Pow2(e));
    Comm(Pow2(32 - e), Pow2(e));
  }

  lemma DownMod(x: nat, e: nat)
    ensures x == Down(x, e) * Pow2(e) + x % Pow2(e)
  {
  }

  lemma DownFirst(pn: seq<nat>, a: seq<nat>, k: nat, e: nat)
    requires |pn| == |a| && k < |a| && e < 32 && IsLimbs(a) && ShiftedDown(pn, a, k, e, k)
    ensures ShiftedDown(DownRound(pn, a, k, e, k), a, k, e, k + 1)
  {
    var r := DownRound(pn, a, k, e, k);
    DownParts(a[k], e, 0);
    assert r[..1] == [r[0]] && a[k..k + 1] == [a[k]];
    ValOne(r[0]);
    ValOne(a[k]);
  }

  lemma ValOne(d: nat)
    ensures Val([d]) == d
  {
  }

  lemma DownNext(pn: seq<nat>, a: seq<nat>, k: nat, e: nat, i: nat)
    requires |pn| == |a| && k < i < |a| && e < 32 && IsLimbs(a) && ShiftedDown(pn, a, k, e, i)
    ensures ShiftedDown(DownRound(pn, a, k, e, i), a, k, e, i + 1)
  {
    hide Val, Weight, Up, Down, Pow2;
    var r := DownRound(pn, a, k, e, i);
    var m := i - k;
    DownParts(a[i], e, a[i - 1]);
    DownLimbs(pn, a, k, e, i);
    DownPrefix(pn, r, m, Up(a[i], 32 - e), Down(a[i], e));
    ValLast(a[k..], m);
    assert a[k..][..m] == a[k..i] && a[k..][..m + 1] == a[k..i + 1];
    DownValue(Val(pn[..m]), Val(r[..m + 1]), Up(a[i], 32 - e), Down(a[i], e), a[i], Pow2(e), m);
  }

  lemma DownLimbs(pn: seq<nat>, a: seq<nat>, k: nat, e: nat, i: nat)
    requires |pn| == |a| && k < i < |a| && e < 32 && IsLimbs(a) && ShiftedDown(pn, a, k, e, i)
    ensures var r := DownRound(pn, a, k, e, i);
            && IsLimbs(r) && r[i - k - 1] == pn[i - k - 1] + Up(a[i], 32 - e) && r[i - k] == Down(a[i], e)
            && forall j :: 0 <= j < |a| && j != i - k - 1 && j != i - k ==> r[j] == pn[j]
  {
    hide Val, Weight, Up, Down, Pow2;
    DownParts(a[i], e, a[i - 1]);
    assert Or(0, Down(a[i], e)) == Down(a[i], e);
  }

  // Adding u to limb m - 1 and appending limb d.
  lemma DownPrefix(pn: seq<nat>, r: seq<nat>, m: nat, u: nat, d: nat)
    requires 1 <= m < |pn| == |r| && r[m - 1] == pn[m - 1] + u && r[m] == d && r[..m - 1] == pn[..m - 1]
    ensures Val(r[..m + 1]) == Val(pn[..m]) + u * Weight(m - 1) + d * Weight(m)
  {
    hide Val, Weight;
    ValLast(r, m);
    ValLast(r, m - 1);
    ValLast(pn, m - 1);
    Dist(pn[m - 1], u, Weight(m - 1));
  }

  lemma DownValue(v: nat, v': nat, u: nat, d: nat, x: nat, p: nat, m: nat)
    requires m >= 1 && p >= 1 && v' == v + u * Weight(m - 1) + d * Weight(m) && u * p == (x % p) * BASE && x == d * p + x % p
    ensures v' * p == v * p + x * Weight(m)
  {
    var w := Weight(m - 1);
    WeightNext(m - 1);
    Dist(v + u * w, d * Weight(m), p);
    Dist(v, u * w, p);
    Assoc(u, w, p);
    Assoc(x % p, BASE, w);
    Assoc(d, Weight(m), p);
    Dist(d * p, x % p, Weight(m));
  }

  lemma DivDiv(x: nat, a: nat, b: nat)
    requires a >= 1 && b >= 1
    ensures x / a / b == x / (a * b) && a * b >= 1
  {
    var q, r := x / a, x % a;
    var q', r' := q / b, q % b;
    TwoQuotients(x, a, b, q, r, q', r');
    DivUnique(x, a * b, q', r' * a + r);
  }

  lemma TwoQuotients(x: int, a: nat, b: nat, q: int, r: int, q': int, r': int)
    requires x == q * a + r && q == q' * b + r' && 0 <= r < a && 0 <= r' < b
    ensures x == q' * (a * b) + (r' * a + r) && 0 <= r' * a + r < a * b && a * b >= 1
  {
    Dist(q' * b, r', a);
    Assoc(q', b, a);
    Comm(a, b);
    MulMono(0, r', a);
    MulMono(r' + 1, b, a);
    Dist(r', 1, a);
  }

  lemma DownDone(pn: seq<nat>, a: seq<nat>, k: nat, e: nat)
    requires |pn| == |a| && e < 32 && IsLimbs(a) && ShiftedDown(pn, a, k, e, |a|)
    ensures IsLimbs(pn) && Val(pn) == Val(a) / Pow2(32 * k + e)
  {
    hide Val, Weight, Down, Pow2;
    WeightIsPow(k);
    PowSum(32 * k, e);
    DivDiv(Val(a), Weight(k), Pow2(e));
    ValBound(a);
    if k < |a| {
      var m := |a| - k;
      ValSplit(a, k);
      ValBound(a[..k]);
      DivUnique(Val(a), Weight(k), Val(a[k..]), Val(a[..k]));
      assert a[k..|a|] == a[k..];
      ValSplit(pn, m);
      ValZero(pn[m..]);
      DivUnique(Val(a[k..]), Pow2(e), Val(pn[..m]), a[k] % Pow2(e));
    } else {
      ValZero(pn);
      WeightMono(|a|, k);
      DivUnique(Val(a), Weight(k), 0, Val(a));
      DivUnique(0, Pow2(e), 0, 0);
    }
  }

  lemma {:induction false} WeightMono(a: nat, b: nat)
    requires a <= b
    ensures Weight(a) <= Weight(b)
  {
    if a < b {
      WeightMono(a, b - 1);
      MulMono(1, BASE, Weight(b - 1));
    }
  }

  // pn >>= shift
  method ShiftRightAssign(pn: array<nat>, shift: nat)
    requires Limbed(pn)
    modifies pn
    ensures Limbed(pn) && Val(pn[..]) == Val(old(pn[..])) / Pow2(shift)
  {
    hide Val, Weight, ShiftedDown, DownRound, Or, Pow2, Up, Down;
    ghost var a := pn[..];
    var copy := Copied(pn);
    Clear(pn);
    var k, e := shift / 32, shift % 32;
    DownStart(pn[..], a, k, e);
    for i := 0 to pn.Length
      invariant copy[..] == a && ShiftedDown(pn[..], a, k, e, i)
    {
      DownStep(pn[..], a, k, e, i);
      DownRoundIs(pn[..], a, k, e, i);
      ghost var before := pn[..];
      if i - k - 1 >= 0 && e != 0 {
        pn[i - k - 1] := Or(pn[i - k - 1], Up(copy[i], 32 - e));
      }
      if i - k >= 0 {
        pn[i - k] := Or(pn[i - k], Down(copy[i], e));
      }
      assert pn[..] == DownRound(before, a, k, e, i);
    }
    DownDone(pn[..], a, k, e);
  }

  lemma DownStart(pn: seq<nat>, a: seq<nat>, k: nat, e: nat)
    requires |pn| == |a| && e < 32 && AllZero(pn)
    ensures ShiftedDown(pn, a, k, e, 0)
  {
  }

  lemma DownStep(pn: seq<nat>, a: seq<nat>, k: nat, e: nat, i: nat)
    requires |pn| == |a| && i < |a| && e < 32 && IsLimbs(a) && ShiftedDown(pn, a, k, e, i)
    ensures ShiftedDown(DownRound(pn, a, k, e, i), a, k, e, i + 1)
  {
    if i == k {
      DownFirst(pn, a, k, e);
    } else if i > k {
      DownNext(pn, a, k, e, i);
    }
  }

  lemma DownRoundIs(pn: seq<nat>, a: seq<nat>, k: nat, e: nat, i: nat)
    requires |pn| == |a| && i < |a| && e < 32
    ensures var p1 := if i - k - 1 >= 0 && e != 0 then pn[i - k - 1 := Or(pn[i - k - 1], Up(a[i], 32 - e))] else pn;
            DownRound(pn, a, k, e, i) == if i - k >= 0 then p1[i - k := Or(p1[i - k], Down(a[i], e))] else p1
  {
  }
}
