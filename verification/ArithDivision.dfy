/** Comparison, bit length and shift-subtract division of the fixed-width integers. */
module ArithDivision {
  import opened Arithmetic
  import opened Limbs
  import opened ArithUint
  import opened Powers

  // --- Comparison ---

  // The highest limb that differs decides.
  lemma HighestDecides(a: seq<nat>, b: seq<nat>, i: nat)
    requires |a| == |b| && i < |a| && IsLimbs(a) && IsLimbs(b) && (forall j :: i < j < |a| ==> a[j] == b[j]) && a[i] < b[i]
    ensures Val(a) < Val(b)
  {
    hide Val, Weight;
    assert a[i + 1..] == b[i + 1..];
    ValSplit(a, i + 1);
    ValSplit(b, i + 1);
    ValLast(a, i);
    ValLast(b, i);
    ValBound(a[..i]);
    MulMono(a[i] + 1, b[i], Weight(i));
    Dist(a[i], 1, Weight(i));
  }

  method CompareTo(a: array<nat>, b: array<nat>) returns (c: int)
    requires a.Length == b.Length && Limbed(a) && Limbed(b)
    ensures c == if Val(a[..]) < Val(b[..]) then -1 else if Val(a[..]) > Val(b[..]) then 1 else 0
  {
    hide Val;
    ghost var s, t := a[..], b[..];
    var i := a.Length - 1;
    while i >= 0
      invariant -1 <= i < a.Length && forall j :: i < j < a.Length ==> s[j] == t[j]
    {
      if a[i] < b[i] {
        HighestDecides(s, t, i);
        return -1;
      }
      if a[i] > b[i] {
        HighestDecides(t, s, i);
        return 1;
      }
      i := i - 1;
    }
    assert s == t;
    return 0;
  }

  // --- Bit length ---

  // The position of the highest bit set plus one, or zero.
  ghost predicate IsBits(x: nat, r: nat) {
    if r == 0 then x == 0 else Pow2(r - 1) <= x < Pow2(r)
  }

  method LimbBits(d: nat) returns (r: nat)
    requires 0 < d < BASE
    ensures 1 <= r <= 32 && IsBits(d, r)
  {
    Pow32();
    var bits := 31;
    while bits > 0
      invariant 0 <= bits <= 31 && d < Pow2(bits + 1)
    {
      TopBit(d, bits);
      if Down(d, bits) % 2 == 1 {
        return bits + 1;
      }
      bits := bits - 1;
    }
    return 1;
  }

  // Below 2^(k+1), bit k is set exactly from 2^k on.
  lemma TopBit(d: nat, k: nat)
    requires d < Pow2(k + 1)
    ensures Down(d, k) % 2 == 1 <==> Pow2(k) <= d
  {
    var p := Pow2(k);
    if d < p {
      DivUnique(d, p, 0, d);
    } else {
      DivUnique(d, p, 1, d - p);
    }
  }

  lemma TopLimbBits(s: seq<nat>, pos: nat, r: nat)
    requires pos < |s| && IsLimbs(s) && (forall j :: pos < j < |s| ==> s[j] == 0) && IsBits(s[pos], r) && 1 <= r
    ensures IsBits(Val(s), 32 * pos + r)
  {
    hide Val, Weight, Pow2;
    ValSplit(s, pos + 1);
    ValZero(s[pos + 1..]);
    ValLast(s, pos);
    ValBound(s[..pos]);
    var w := Weight(pos);
    WeightIsPow(pos);
    PowSum(32 * pos, r);
    PowSum(32 * pos, r - 1);
    MulMono(Pow2(r - 1), s[pos], w);
    MulMono(s[pos] + 1, Pow2(r), w);
    Dist(s[pos], 1, w);
    Comm(w, Pow2(r));
    Comm(w, Pow2(r - 1));
  }

  method Bits(pn: array<nat>) returns (r: nat)
    requires Limbed(pn)
    ensures IsBits(Val(pn[..]), r) && r <= 32 * pn.Length
  {
    hide Val, IsBits;
    var pos := pn.Length - 1;
    while pos >= 0
      invariant -1 <= pos < pn.Length && forall j :: pos < j < pn.Length ==> pn[j] == 0
    {
      if pn[pos] != 0 {
        var b := LimbBits(pn[pos]);
        TopLimbBits(pn[..], pos, b);
        return 32 * pos + b;
      }
      pos := pos - 1;
    }
    ValZero(pn[..]);
    NoBits();
    return 0;
  }

  lemma NoBits()
    ensures IsBits(0, 0)
  {
  }

  // --- Division ---

  // The state of the loop: what has been taken off is a multiple of the divisor, and what is left is below twice the
  // divisor shifted up by `shift`.
  ghost predicate Dividing(N: nat, D: nat, num: nat, div: nat, q: nat, shift: int) {
    && shift >= -1 && N == num + q * D && num < D * Pow2(shift + 1)
    && (shift >= 0 ==> div == D * Pow2(shift))
  }

  lemma AlignFits(N: nat, D: nat, nb: nat, db: nat)
    requires IsBits(N, nb) && IsBits(D, db) && 1 <= db <= nb
    ensures D * Pow2(nb - db) < Pow2(nb) && N < D * Pow2(nb - db + 1)
  {
    hide Pow2;
    PowSum(db, nb - db);
    StrictMono(D, Pow2(db), Pow2(nb - db));
    PowSum(db - 1, nb - db + 1);
    MulMono(Pow2(db - 1), D, Pow2(nb - db + 1));
  }

  lemma DivideStep(N: nat, D: nat, num: nat, div: nat, q: nat, shift: nat)
    requires Dividing(N, D, num, div, q, shift)
    ensures num >= div ==> Dividing(N, D, num - div, div / 2, q + Pow2(shift), shift - 1)
    ensures num < div ==> Dividing(N, D, num, div / 2, q, shift - 1)
  {
    Assoc(D, 2, Pow2(shift));
    Dist(q, Pow2(shift), D);
    Comm(Pow2(shift), D);
    if shift >= 1 {
      Assoc(D, 2, Pow2(shift - 1));
    }
  }

  lemma DivideDone(N: nat, D: nat, num: nat, div: nat, q: nat)
    requires D >= 1 && Dividing(N, D, num, div, q, -1)
    ensures q == N / D && num == N % D
  {
    DivUnique(N, D, q, num);
  }

  // The bits of the quotient at and below a position are not set yet.
  ghost predicate ClearBelow(s: seq<nat>, pos: nat) {
    && (forall j :: 0 <= j < |s| && j < pos / 32 ==> s[j] == 0)
    && (pos / 32 < |s| ==> s[pos / 32] % Pow2(pos % 32) == 0)
  }

  lemma SetOneBit(s: seq<nat>, pos: nat)
    requires IsLimbs(s) && pos < 32 * |s| && ClearBelow(s, pos + 1)
    ensures var k := pos / 32;
            var d := Or(s[k], Pow2(pos % 32));
            && d < BASE && IsLimbs(s[k := d]) && Val(s[k := d]) == Val(s) + Pow2(pos) && ClearBelow(s[k := d], pos)
  {
    hide Val, Weight, Or, Pow2;
    var k, e := pos / 32, pos % 32;
    var x := s[k];
    LowClear(s, pos);
    PowNext(e);
    OrDisjoint(x, Pow2(e), e + 1);
    ValUpdate(s, k, x + Pow2(e));
    WeightIsPow(k);
    PowSum(32 * k, e);
    Comm(Weight(k), Pow2(e));
    AddOnce(x, Pow2(e));
  }

  lemma PowNext(e: nat)
    ensures Pow2(e) < Pow2(e + 1)
  {
  }

  lemma AddOnce(x: nat, p: nat)
    requires p >= 1 && x % p == 0
    ensures (x + p) % p == 0
  {
    ModAdd(x, 1, p);
  }

  lemma LowClear(s: seq<nat>, pos: nat)
    requires IsLimbs(s) && pos < 32 * |s| && ClearBelow(s, pos + 1)
    ensures var x, e := s[pos / 32], pos % 32; x % Pow2(e + 1) == 0 && x % Pow2(e) == 0 && x + Pow2(e) < BASE
  {
    var x, e := s[pos / 32], pos % 32;
    if e == 31 {
      assert (pos + 1) / 32 == pos / 32 + 1;
      assert x == 0;
      Pow32();
      DivUnique(0, Pow2(32), 0, 0);
      DivUnique(0, Pow2(31), 0, 0);
    } else {
      assert (pos + 1) / 32 == pos / 32 && (pos + 1) % 32 == e + 1;
      RoomAbove(x, e);
    }
  }

  // A multiple of 2^(e+1) below 2^32 leaves room for 2^e.
  lemma RoomAbove(x: nat, e: nat)
    requires e < 31 && x < BASE && x % Pow2(e + 1) == 0
    ensures x % Pow2(e) == 0 && x + Pow2(e) < BASE
  {
    var p := Pow2(e + 1);
    var q := x / p;
    assert x == q * p;
    PowSplit(e + 1);
    var c := Pow2(32 - (e + 1));
    Comm(c, p);
    QuotientSmall(q, c, p);
    MulMono(q + 1, c, p);
    Dist(q, 1, p);
    Assoc(q, 2, Pow2(e));
    MultipleOf(q * 2, Pow2(e));
  }

  lemma ClearAll(s: seq<nat>, pos: nat)
    requires AllZero(s)
    ensures ClearBelow(s, pos)
  {
    if pos / 32 < |s| {
      DivUnique(0, Pow2(pos % 32), 0, 0);
    }
  }

  lemma ClearLower(s: seq<nat>, pos: nat)
    requires IsLimbs(s) && pos < 32 * |s| && ClearBelow(s, pos + 1)
    ensures ClearBelow(s, pos)
  {
    LowClear(s, pos);
  }

  // pn /= b. A zero divisor is an error, raised after pn was cleared.
  method DivAssign(pn: array<nat>, b: array<nat>) returns (ok: bool)
    requires pn.Length == b.Length >= 1 && Limbed(pn) && Limbed(b)
    modifies pn
    ensures Limbed(pn) && (ok <==> Val(old(b[..])) != 0)
    ensures Val(pn[..]) == if ok then Val(old(pn[..])) / Val(old(b[..])) else 0
  {
    hide Val, Weight, Pow2, Dividing, ClearBelow, Or;
    ghost var N, D := Val(pn[..]), Val(b[..]);
    var div := Copied(b);
    var num := Copied(pn);
    var w := pn.Length;
    ValBound(num[..]);
    Clear(pn);
    ValZero(pn[..]);
    var numBits := Bits(num);
    var divBits := Bits(div);
    if divBits == 0 {
      return false;
    }
    BitsPositive(D, divBits);
    if divBits > numBits {
      TooSmall(N, D, numBits, divBits);
      return true;
    }
    var shift: int := numBits - divBits;
    AlignStart(N, D, numBits, divBits, w);
    ShiftLeftAssign(div, shift);
    ClearAll(pn[..], shift + 1);
    while shift >= 0
      invariant Limbed(pn) && Limbed(num) && Limbed(div) && -1 <= shift < 32 * w
      invariant Dividing(N, D, Val(num[..]), Val(div[..]), Val(pn[..]), shift) && ClearBelow(pn[..], shift + 1)
      decreases shift
    {
      DivideStep(N, D, Val(num[..]), Val(div[..]), Val(pn[..]), shift);
      Subtract(pn, num, div, shift);
      ShiftRightAssign(div, 1);
      HalfShift();
      shift := shift - 1;
    }
    DivideDone(N, D, Val(num[..]), Val(div[..]), Val(pn[..]));
    return true;
  }

  // Take the shifted divisor off if it fits, and set the bit of the quotient.
  method Subtract(pn: array<nat>, num: array<nat>, div: array<nat>, shift: nat)
    requires pn != num && pn != div && num != div && pn.Length == num.Length == div.Length && shift < 32 * pn.Length
    requires Limbed(pn) && Limbed(num) && Limbed(div) && ClearBelow(pn[..], shift + 1)
    modifies pn, num
    ensures Limbed(pn) && Limbed(num) && ClearBelow(pn[..], shift)
    ensures var fits := Val(old(num[..])) >= Val(div[..]);
            && Val(num[..]) == Val(old(num[..])) - (if fits then Val(div[..]) else 0)
            && Val(pn[..]) == Val(old(pn[..])) + if fits then Pow2(shift) else 0
  {
    hide Val, Weight, Pow2, ClearBelow, Or;
    ghost var s := pn[..];
    var c := CompareTo(num, div);
    if c >= 0 {
      Reduce(num, div);
      SetOneBit(s, shift);
      pn[shift / 32] := Or(pn[shift / 32], Pow2(shift % 32));
      assert pn[..] == s[shift / 32 := Or(s[shift / 32], Pow2(shift % 32))];
    } else {
      ClearLower(s, shift);
    }
  }

  lemma HalfShift()
    ensures Pow2(1) == 2
  {
  }

  // Subtracting something no larger does not wrap.
  method Reduce(num: array<nat>, div: array<nat>)
    requires num != div && num.Length == div.Length >= 1 && Limbed(num) && Limbed(div) && Val(div[..]) <= Val(num[..])
    modifies num
    ensures Limbed(num) && Val(num[..]) == Val(old(num[..])) - Val(div[..])
  {
    hide Val, Weight;
    ValBound(num[..]);
    ghost var d: nat := Val(num[..]) - Val(div[..]);
    SubAssign(num, div);
    DivUnique(d, Weight(num.Length), 0, d);
  }

  lemma BitsPositive(x: nat, r: nat)
    requires IsBits(x, r) && r >= 1
    ensures x >= 1
  {
  }

  lemma TooSmall(N: nat, D: nat, nb: nat, db: nat)
    requires IsBits(N, nb) && IsBits(D, db) && nb < db
    ensures D >= 1 && N / D == 0
  {
    PowMono(nb, db - 1);
    DivUnique(N, D, 0, N);
  }

  lemma AlignStart(N: nat, D: nat, nb: nat, db: nat, w: nat)
    requires IsBits(N, nb) && IsBits(D, db) && 1 <= db <= nb <= 32 * w
    ensures D * Pow2(nb - db) < Weight(w) && (D * Pow2(nb - db)) % Weight(w) == D * Pow2(nb - db)
    ensures Dividing(N, D, N, D * Pow2(nb - db), 0, nb - db)
  {
    AlignFits(N, D, nb, db);
    WeightIsPow(w);
    PowMono(nb, 32 * w);
    DivUnique(D * Pow2(nb - db), Weight(w), 0, D * Pow2(nb - db));
  }
}
