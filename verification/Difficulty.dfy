/** Compact targets, block proofs and the difficulty retarget, on 256-bit integers. */
module Difficulty {
  import opened ArithDivision
  import opened ArithUint
  import opened Arithmetic
  import opened Common
  import opened Limbs
  import opened Powers

  const WIDTH := 8

  // 2^256.
  function Modulus(): nat { Pow2(256) }

  lemma ModulusIs()
    ensures Weight(WIDTH) == Modulus()
  {
    WeightIsPow(WIDTH);
  }

  method FromWord(b: nat) returns (pn: array<nat>)
    requires b < BASE * BASE
    ensures fresh(pn) && pn.Length == WIDTH && Limbed(pn) && Val(pn[..]) == b
  {
    pn := new nat[WIDTH](i => 0);
    ValZero(pn[..]);
    ghost var s := pn[..];
    Halves(b);
    var lo: nat, hi: nat := b % BASE, b / BASE;
    pn[0] := lo;
    ghost var s1 := pn[..];
    assert s1 == s[0 := lo];
    pn[1] := hi;
    assert pn[..] == s1[1 := hi];
    ValUpdate(s, 0, lo);
    ValUpdate(s1, 1, hi);
    assert Weight(0) == 1 && Weight(1) == BASE;
  }

  lemma Halves(b: nat)
    requires b < BASE * BASE
    ensures 0 <= b / BASE < BASE && b == b % BASE + b / BASE * BASE
  {
  }

  // The low 64 bits of a number that has no more.
  method GetLow64(pn: array<nat>) returns (x: nat)
    requires pn.Length == WIDTH && Limbed(pn) && Val(pn[..]) < BASE * BASE
    ensures x == Val(pn[..])
  {
    x := pn[0] + pn[1] * BASE;
    ghost var s := pn[..];
    ValSplit(s, 2);
    assert s[..2] == [s[0], s[1]];
    LowTwo(s[0], s[1]);
    ValBound(s[..2]);
    assert Weight(2) == BASE * BASE;
    if Val(s[2..]) > 0 {
      MulMono(1, Val(s[2..]), Weight(2));
    }
  }

  lemma LowTwo(a: nat, b: nat)
    ensures Val([a, b]) == a + b * BASE
  {
    assert [a, b][..1] == [a];
    ValOne(a);
    assert Weight(1) == BASE;
  }

  // --- Decoding ---

  function Size(nCompact: nat): nat { nCompact / 0x100_0000 }

  // The 23 bits of the mantissa.
  function Mantissa(nCompact: nat): nat { nCompact % 0x80_0000 }

  // Mantissa times 256^(size - 3), rounded down.
  function Exact(nCompact: nat): (r: nat) {
    var size := Size(nCompact);
    if size <= 3 then Down(Mantissa(nCompact), 8 * (3 - size)) else Mantissa(nCompact) * Pow2(8 * (size - 3))
  }

  lemma ScaleLess(m: nat, a: nat, b: nat)
    ensures m * Pow2(a) >= Pow2(a + b) <==> m >= Pow2(b)
  {
    PowSum(a, b);
    Comm(Pow2(a), Pow2(b));
    if m >= Pow2(b) {
      MulMono(Pow2(b), m, Pow2(a));
    } else {
      StrictMono(m, Pow2(b), Pow2(a));
    }
  }

  // The value of nWord the flags are computed from.
  function Word(nCompact: nat): nat {
    if Size(nCompact) <= 3 then Down(Mantissa(nCompact), 8 * (3 - Size(nCompact))) else Mantissa(nCompact)
  }

  predicate Overflows(nCompact: nat) {
    var nWord, nSize := Word(nCompact), Size(nCompact);
    nWord != 0 && (nSize > 34 || (nWord > 0xff && nSize > 33) || (nWord > 0xffff && nSize > 32))
  }

  lemma WordZero(nCompact: nat)
    ensures Word(nCompact) != 0 <==> Exact(nCompact) != 0
  {
    hide Pow2, Down;
    if Size(nCompact) > 3 && Mantissa(nCompact) != 0 {
      MulMono(1, Mantissa(nCompact), Pow2(8 * (Size(nCompact) - 3)));
    }
  }

  lemma SmallPowers()
    ensures Pow2(8) == 0x100 && Pow2(16) == 0x1_0000 && Pow2(23) == 0x80_0000 && Pow2(24) == 0x100_0000 && Pow2(15) == 0x8000
  {
    assert Pow2(8) == 256;
    PowSum(8, 8);
    PowSum(16, 8);
    assert Pow2(7) == 128;
    PowSum(16, 7);
    PowSum(8, 7);
  }

  /** The overflow flag is set exactly when the exact value does not fit 256 bits. */
  lemma OverflowIff(nCompact: nat)
    ensures Overflows(nCompact) <==> Exact(nCompact) >= Modulus()
  {
    hide Pow2, Down;
    var m, size := Mantissa(nCompact), Size(nCompact);
    SmallPowers();
    if size <= 3 {
      PowMono(23, 256);
    } else if size <= 32 {
      ScaleLess(m, 8 * (size - 3), 256 - 8 * (size - 3));
      PowMono(24, 256 - 8 * (size - 3));
    } else if size == 33 {
      ScaleLess(m, 240, 16);
    } else if size == 34 {
      ScaleLess(m, 248, 8);
    } else {
      LargeSize(m, 8 * (size - 3));
    }
  }

  lemma LargeSize(m: nat, a: nat)
    requires a >= 256
    ensures m * Pow2(a) >= Modulus() <==> m != 0
  {
    PowMono(256, a);
    if m != 0 {
      MulMono(1, m, Pow2(a));
    }
  }

  method SetCompact(nCompact: nat) returns (pn: array<nat>, fNegative: bool, fOverflow: bool)
    requires nCompact < BASE
    ensures fresh(pn) && pn.Length == WIDTH && Limbed(pn) && Val(pn[..]) == Exact(nCompact) % Modulus()
    ensures fOverflow <==> Exact(nCompact) >= Modulus()
    ensures fNegative <==> Exact(nCompact) != 0 && (nCompact / 0x80_0000) % 2 == 1
  {
    hide Val, Weight, Pow2, Down;
    WordZero(nCompact);
    var nSize := Size(nCompact);
    var nWord := Mantissa(nCompact);
    ModulusIs();
    OverflowIff(nCompact);
    if nSize <= 3 {
      nWord := Down(nWord, 8 * (3 - nSize));
      pn := FromWord(nWord);
      ValBound(pn[..]);
      DivUnique(nWord, Modulus(), 0, nWord);
    } else {
      pn := FromWord(nWord);
      ShiftLeftAssign(pn, 8 * (nSize - 3));
    }
    fNegative := nWord != 0 && (nCompact / 0x80_0000) % 2 == 1;
    fOverflow := nWord != 0 && (nSize > 34 || (nWord > 0xff && nSize > 33) || (nWord > 0xffff && nSize > 32));
  }

  // --- Encoding ---

  // The three leading bytes of x, which has `size` bytes.
  function Top(x: nat, size: nat): nat {
    if size <= 3 then x * Pow2(8 * (3 - size)) else Down(x, 8 * (size - 3))
  }

  datatype Scaled = Scaled(size: nat, word: nat)

  // The sign bit must stay free, so a large leading byte costs a byte of precision.
  function Scale(x: nat, size: nat): Scaled {
    var m := Top(x, size);
    if m >= 0x80_0000 then Scaled(size + 1, m / 0x100) else Scaled(size, m)
  }

  function Pack(s: Scaled, fNegative: bool): nat {
    s.word + s.size * 0x100_0000 + if fNegative && s.word != 0 then 0x80_0000 else 0
  }

  lemma SizeBounds(x: nat, bits: nat, size: nat)
    requires IsBits(x, bits) && size == (bits + 7) / 8
    ensures x < Pow2(8 * size) && (size >= 1 ==> x >= Pow2(8 * (size - 1)))
  {
    PowMono(bits, 8 * size);
    if size >= 1 {
      PowMono(8 * (size - 1), bits - 1);
    }
  }

  // The three leading bytes are below 2^24, and at least 2^16 when x has more than three.
  lemma TopBounds(x: nat, size: nat)
    requires x < Pow2(8 * size) && (size >= 1 ==> x >= Pow2(8 * (size - 1)))
    ensures Top(x, size) < 0x100_0000 && (size >= 1 ==> Top(x, size) >= 0x1_0000)
  {
    SmallPowers();
    if size <= 3 {
      var k := 8 * (3 - size);
      PowSum(8 * size, k);
      StrictMono(x, Pow2(8 * size), Pow2(k));
      if size >= 1 {
        PowSum(8 * (size - 1), k);
        MulMono(Pow2(8 * (size - 1)), x, Pow2(k));
      }
    } else {
      TopOfLong(x, size);
    }
  }

  lemma TopOfLong(x: nat, size: nat)
    requires size >= 4 && Pow2(8 * (size - 1)) <= x < Pow2(8 * size)
    ensures 0x1_0000 <= Down(x, 8 * (size - 3)) < 0x100_0000
  {
    hide Pow2, Down;
    var k := 8 * (size - 3);
    SmallPowers();
    DownMod(x, k);
    PowSum(24, k);
    PowSum(16, k);
    var d, p := Down(x, k), Pow2(k);
    ModBelow(x, p);
    QuotientSmall(d, Pow2(24), p);
    Dist(d, 1, p);
    QuotientSmall(Pow2(16), d + 1, p);
  }

  lemma ModBelow(x: nat, p: nat)
    requires p >= 1
    ensures 0 <= x % p < p
  {
  }

  lemma ScaleBounds(x: nat, size: nat)
    requires x < Pow2(8 * size) && (size >= 1 ==> x >= Pow2(8 * (size - 1))) && size <= 32
    ensures Scale(x, size).word < 0x80_0000 && Scale(x, size).size <= 33
  {
    hide Top;
    TopBounds(x, size);
  }

  // The three leading bytes.
  method Leading(pn: array<nat>, nSize: nat) returns (word: nat)
    requires pn.Length == WIDTH && Limbed(pn) && Val(pn[..]) < Pow2(8 * nSize) && (nSize >= 1 ==> Val(pn[..]) >= Pow2(8 * (nSize - 1)))
    ensures word == Top(Val(pn[..]), nSize)
  {
    hide Val, Weight, Pow2, Down, IsBits;
    ghost var x := Val(pn[..]);
    TopBounds(x, nSize);
    SmallPowers();
    if nSize <= 3 {
      PowMono(8 * nSize, 24);
      word := GetLow64(pn);
      word := word * Pow2(8 * (3 - nSize));
    } else {
      var bn := Copied(pn);
      ShiftRightAssign(bn, 8 * (nSize - 3));
      DownIs(x, 8 * (nSize - 3));
      word := GetLow64(bn);
    }
  }

  method GetCompact(pn: array<nat>, fNegative: bool) returns (nCompact: nat, ghost size: nat)
    requires pn.Length == WIDTH && Limbed(pn)
    ensures Val(pn[..]) < Pow2(8 * size) && (size >= 1 ==> Val(pn[..]) >= Pow2(8 * (size - 1))) && size <= 32
    ensures nCompact == Pack(Scale(Val(pn[..]), size), fNegative) < BASE
  {
    hide Val, Weight, Pow2, Top, IsBits;
    ghost var x := Val(pn[..]);
    var bits := Bits(pn);
    var nSize := (bits + 7) / 8;
    size := nSize;
    SizeBounds(x, bits, nSize);
    TopBounds(x, nSize);
    ScaleBounds(x, nSize);
    nCompact := Leading(pn, nSize);
    // The sign bit is set: give up a byte of precision.
    if nCompact / 0x80_0000 % 2 == 1 {
      nCompact := nCompact / 0x100;
      nSize := nSize + 1;
    }
    assert nCompact < 0x80_0000;
    assert nSize < 256;
    nCompact := nCompact + nSize * 0x100_0000 + if fNegative && nCompact != 0 then 0x80_0000 else 0;
  }

  lemma DownIs(x: nat, e: nat)
    ensures x / Pow2(e) == Down(x, e)
  {
  }

  // --- Round trip ---

  lemma PackParts(s: Scaled, fNegative: bool)
    requires s.word < 0x80_0000
    ensures Size(Pack(s, fNegative)) == s.size && Mantissa(Pack(s, fNegative)) == s.word
  {
    var sign := if fNegative && s.word != 0 then 1 else 0;
    var n := Pack(s, fNegative);
    DivUnique(n, 0x100_0000, s.size, s.word + sign * 0x80_0000);
    DivUnique(n, 0x80_0000, 2 * s.size + sign, s.word);
  }

  // Decoding gives x rounded down to a multiple of a power of 256.
  ghost predicate RoundsDown(x: nat, r: nat, p: nat) {
    p >= 1 && r <= x < r + p && (r == x || p * 0x8000 <= r)
  }

  lemma Rounding(x: nat, k: nat)
    requires Down(x, k) >= 0x8000
    ensures RoundsDown(x, Down(x, k) * Pow2(k), Pow2(k))
  {
    hide Pow2, Down;
    DownMod(x, k);
    ModBelow(x, Pow2(k));
    MulMono(0x8000, Down(x, k), Pow2(k));
    Comm(0x8000, Pow2(k));
  }

  lemma ShortExact(x: nat, size: nat)
    requires size <= 3 && x < Pow2(8 * size)
    ensures Down(x * Pow2(8 * (3 - size)), 8 * (3 - size)) == x
  {
    DivUnique(x * Pow2(8 * (3 - size)), Pow2(8 * (3 - size)), x, 0);
  }

  lemma ShortShifted(x: nat, size: nat)
    requires 1 <= size <= 2
    ensures x * Pow2(8 * (3 - size)) / 0x100 == x * Pow2(8 * (2 - size))
    ensures Down(x * Pow2(8 * (2 - size)), 8 * (2 - size)) == x
  {
    SmallPowers();
    PowSum(8, 8 * (2 - size));
    Assoc(x, 0x100, Pow2(8 * (2 - size)));
    Comm(0x100, Pow2(8 * (2 - size)));
    DivUnique(x * Pow2(8 * (3 - size)), 0x100, x * Pow2(8 * (2 - size)), 0);
    DivUnique(x * Pow2(8 * (2 - size)), Pow2(8 * (2 - size)), x, 0);
  }

  lemma DownTwice(x: nat, k: nat)
    ensures Down(x, k) / 0x100 == Down(x, k + 8)
  {
    SmallPowers();
    PowSum(k, 8);
    DivDiv(x, Pow2(k), 0x100);
  }

  /** Decoding an encoded number gives it back rounded down, with a relative error below 2^-15. */
  lemma DecodeEncode(x: nat, size: nat, fNegative: bool)
    requires x < Pow2(8 * size) && (size >= 1 ==> x >= Pow2(8 * (size - 1))) && size <= 32
    ensures var r := Exact(Pack(Scale(x, size), fNegative)); r <= x && (x - r) * 0x8000 <= x && (x > 0 ==> (x - r) * 0x8000 < x)
  {
    hide Pow2, Down, Pack, Size, Mantissa;
    var s := Scale(x, size);
    var r := Exact(Pack(s, fNegative));
    ScaleBounds(x, size);
    PackParts(s, fNegative);
    TopBounds(x, size);
    if size <= 3 {
      if Top(x, size) < 0x80_0000 {
        ShortExact(x, size);
      } else if size == 3 {
        DownTwice(x, 0);
        DownZero(x);
        SmallPowers();
        PowZero();
        Rounding(x, 8);
        ErrorSmall(x, r, Pow2(8));
      } else {
        NotEmpty(x, size);
        ShortShifted(x, size);
      }
    } else {
      if Top(x, size) < 0x80_0000 {
        Rounding(x, 8 * (size - 3));
        ErrorSmall(x, r, Pow2(8 * (size - 3)));
      } else {
        DownTwice(x, 8 * (size - 3));
        Rounding(x, 8 * (size - 2));
        ErrorSmall(x, r, Pow2(8 * (size - 2)));
      }
    }
  }

  lemma DownZero(x: nat)
    ensures Down(x, 0) == x
  {
  }

  lemma PowZero()
    ensures Pow2(0) == 1
  {
  }

  lemma NotEmpty(x: nat, size: nat)
    requires size <= 3 && Top(x, size) >= 0x80_0000 && x < Pow2(8 * size)
    ensures size >= 1
  {
  }

  lemma ErrorSmall(x: nat, r: nat, p: nat)
    requires RoundsDown(x, r, p)
    ensures r <= x && (x - r) * 0x8000 <= x && (x > 0 ==> (x - r) * 0x8000 < x)
  {
  }

  // --- Block proof ---

  lemma ProofQuotient(m: nat, t: nat)
    requires t < m
    ensures (m - 1 - t) / (t + 1) + 1 == m / (t + 1)
  {
    var d := t + 1;
    var q, r := m / d, m % d;
    assert m == q * d + r;
    Dist(q, 1, d);
    DivUnique(m - d, d, q - 1, r);
  }

  lemma ProofFits(m: nat, t: nat)
    requires 1 <= t < m
    ensures 0 <= m / (t + 1) < m
  {
    var d := t + 1;
    var q := m / d;
    assert m == q * d + m % d;
    MulMono(2, d, q);
    Comm(q, d);
  }

  // A target that fits 256 bits is not all ones: its low bits are zero, or it is short.
  lemma TargetNotMax(nCompact: nat)
    requires Exact(nCompact) < Modulus()
    ensures Exact(nCompact) + 1 < Modulus()
  {
    hide Pow2, Down;
    var m, size := Mantissa(nCompact), Size(nCompact);
    SmallPowers();
    if size <= 3 {
      PowMono(24, 256);
    } else {
      var k := 8 * (size - 3);
      PowMono(8, k);
      if k < 256 {
        PowSum(k, 256 - k);
        Comm(Pow2(k), Pow2(256 - k));
        QuotientSmall(m, Pow2(256 - k), Pow2(k));
        MulMono(m + 1, Pow2(256 - k), Pow2(k));
        Dist(m, 1, Pow2(k));
      } else {
        LargeSize(m, k);
        PowMono(24, 256);
      }
    }
  }

  /** The work of a block is 2^256 / (target + 1), rounded down; no valid target divides by zero. */
  method GetBlockProof(nBits: nat) returns (r: array<nat>, valid: bool)
    requires nBits < BASE
    ensures r.Length == WIDTH && Limbed(r)
    ensures valid <==> (nBits / 0x80_0000) % 2 == 0 && 0 < Exact(nBits) < Modulus()
    ensures Val(r[..]) == if valid then Modulus() / (Exact(nBits) + 1) else 0
  {
    hide Val, Weight, Pow2, Down, Exact, Word;
    ModulusIs();
    var bnTarget, fNegative, fOverflow := SetCompact(nBits);
    var zero := IsZero(bnTarget);
    ghost var t := Val(bnTarget[..]);
    if Exact(nBits) < Modulus() {
      DivUnique(Exact(nBits), Modulus(), 0, Exact(nBits));
    }
    if fNegative || fOverflow || zero {
      r := FromWord(0);
      return r, false;
    }
    TargetNotMax(nBits);
    r := Complement(bnTarget);
    var one := FromWord(1);
    var next := Copied(bnTarget);
    AddAssign(next, one);
    DivUnique(t + 1, Modulus(), 0, t + 1);
    var ok := DivAssign(r, next);
    ProofQuotient(Modulus(), t);
    ProofFits(Modulus(), t);
    AddAssign(r, one);
    DivUnique(Modulus() / (t + 1), Modulus(), 0, Modulus() / (t + 1));
    return r, true;
  }

  method IsZero(pn: array<nat>) returns (z: bool)
    requires pn.Length == WIDTH && Limbed(pn)
    ensures z <==> Val(pn[..]) == 0
  {
    var none := FromWord(0);
    var c := CompareTo(pn, none);
    z := c == 0;
  }

  // --- Retarget ---

  // The measured timespan, held between bounds that depend on the protocol and the height.
  function Clamped(fNew: bool, timespan: int, actual: int, nHeight: int): int {
    var lo := if fNew then timespan - timespan / 4 else timespan / 4;
    var hi := if fNew then timespan + timespan / 4 else timespan * 4;
    if nHeight > 10000 then Max(lo, Min(actual, hi))
    else if nHeight > 5000 then Max(lo / 2, Min(actual, hi))
    else Max(lo / 4, Min(actual, hi))
  }

  lemma ClampedRange(fNew: bool, timespan: int, actual: int, nHeight: int)
    requires timespan >= 1
    ensures 0 <= Clamped(fNew, timespan, actual, nHeight) <= 4 * timespan
  {
  }

  // How far the timespan may shrink: to N/D of the target.
  function Shrinks(fNew: bool): nat { if fNew then 3 else 1 }
  function Divides(nHeight: int): nat { if nHeight > 10000 then 4 else if nHeight > 5000 then 8 else 16 }

  // The bounds, by what they are rather than by how they are computed: the lower one is N/D of the target timespan and the
  // upper one 4 or 5/4 times it, in whole seconds.
  predicate Bounds(fNew: bool, timespan: int, nHeight: int, lo: int, hi: int) {
    var d := Divides(nHeight);
    && (if fNew then d * lo - 4 < 3 * timespan <= d * lo + d - 4 else d * lo <= timespan < d * lo + d)
    && (if fNew then 4 * hi <= 5 * timespan < 4 * hi + 4 else hi == 4 * timespan)
  }

  function Nearest(x: int, lo: int, hi: int): int { if x < lo then lo else if x > hi then hi else x }

  lemma ClampedNearest(fNew: bool, timespan: int, actual: int, nHeight: int, lo: int, hi: int)
    requires timespan >= 1 && Bounds(fNew, timespan, nHeight, lo, hi)
    ensures Clamped(fNew, timespan, actual, nHeight) == Nearest(actual, lo, hi)
  {
  }

  lemma BoundsOf(fNew: bool, timespan: int, nHeight: int) returns (lo: int, hi: int)
    requires timespan >= 1
    ensures Bounds(fNew, timespan, nHeight, lo, hi)
    ensures timespan % Divides(nHeight) == 0 ==> Divides(nHeight) * lo == Shrinks(fNew) * timespan
    ensures fNew && timespan % 4 == 0 ==> 4 * hi == 5 * timespan
  {
    var q, r := timespan / 4, timespan % 4;
    hi := if fNew then 5 * q + r else 4 * timespan;
    if nHeight > 10000 {
      lo := if fNew then 3 * q + r else q;
    } else if nHeight > 5000 {
      lo := LowerBound(fNew, timespan, q, r, 2);
    } else {
      lo := LowerBound(fNew, timespan, q, r, 4);
    }
  }

  // A part of three quarters, or of one, in whole seconds.
  lemma LowerBound(fNew: bool, timespan: int, q: int, r: int, n: int) returns (lo: int)
    requires timespan == 4 * q + r && 0 <= r < 4 && (n == 2 || n == 4)
    ensures if fNew then 4 * n * lo - 4 < 3 * timespan <= 4 * n * lo + 4 * n - 4 else 4 * n * lo <= timespan < 4 * n * lo + 4 * n
    ensures timespan % (4 * n) == 0 ==> 4 * n * lo == (if fNew then 3 else 1) * timespan
  {
    var whole := if fNew then 3 * q + r else q;
    lo := whole / n;
    Part(whole, n, lo);
    if timespan % (4 * n) == 0 {
      var k := timespan / (4 * n);
      WholePart(timespan, q, r, n, k);
      DivUnique(whole, n, if fNew then 3 * k else k, 0);
    }
  }

  lemma Part(whole: int, n: int, lo: int)
    requires (n == 2 || n == 4) && lo == whole / n
    ensures n * lo <= whole < n * lo + n
  {
  }

  lemma WholePart(timespan: int, q: int, r: int, n: int, k: int)
    requires timespan == 4 * q + r && 0 <= r < 4 && (n == 2 || n == 4) && timespan % (4 * n) == 0 && k == timespan / (4 * n)
    ensures q == n * k && r == 0 && timespan == 4 * n * k
  {
    assert timespan == 4 * n * k;
    DivUnique(timespan, 4, q, r);
    DivUnique(timespan, 4, n * k, 0);
  }

  lemma WithinBounds(fNew: bool, timespan: int, actual: int, nHeight: int, lo: int, hi: int)
    requires timespan >= 1 && Bounds(fNew, timespan, nHeight, lo, hi)
    requires timespan % Divides(nHeight) == 0 ==> Divides(nHeight) * lo == Shrinks(fNew) * timespan
    requires fNew && timespan % 4 == 0 ==> 4 * hi == 5 * timespan
    ensures var c, d, n := Nearest(actual, lo, hi), Divides(nHeight), Shrinks(fNew);
            && n * timespan <= d * c + (if fNew then d - 4 else d - 1) && (if fNew then 4 * c <= 5 * timespan else c <= 4 * timespan)
            && (timespan % d == 0 && d * actual <= n * timespan ==> d * c == n * timespan)
            && (fNew && timespan % 4 == 0 && 4 * actual >= 5 * timespan ==> 4 * c == 5 * timespan)
            && (!fNew && actual >= 4 * timespan ==> c == 4 * timespan)
  {
    if fNew {
      if nHeight > 10000 {
      } else if nHeight > 5000 {
      } else {
      }
    } else {
      if nHeight > 10000 {
      } else if nHeight > 5000 {
      } else {
      }
    }
  }

  lemma ClampedWithin(fNew: bool, timespan: int, actual: int, nHeight: int)
    requires timespan >= 1
    ensures var c, d, n := Clamped(fNew, timespan, actual, nHeight), Divides(nHeight), Shrinks(fNew);
            && n * timespan <= d * c + (if fNew then d - 4 else d - 1) && (if fNew then 4 * c <= 5 * timespan else c <= 4 * timespan)
            && (timespan % d == 0 && d * actual <= n * timespan ==> d * c == n * timespan)
            && (fNew && timespan % 4 == 0 && 4 * actual >= 5 * timespan ==> 4 * c == 5 * timespan)
            && (!fNew && actual >= 4 * timespan ==> c == 4 * timespan)
  {
    hide Clamped;
    var lo, hi := BoundsOf(fNew, timespan, nHeight);
    ClampedNearest(fNew, timespan, actual, nHeight, lo, hi);
    WithinBounds(fNew, timespan, actual, nHeight, lo, hi);
  }

  lemma TimesLess(a: nat, c: nat, d: nat, t: nat, slack: int, n: nat)
    requires t >= 1 && n * t <= d * c + slack && d >= 1
    ensures a * (n * t - slack) < d * (t * (a * c / t + 1))
  {
    var q := a * c / t;
    assert a * c == t * q + a * c % t;
    MulMono(n * t - slack, d * c, a);
    Comm(a, n * t - slack);
    Assoc(d, c, a);
    Comm(c, a);
    Assoc(d, a, c);
    Dist(q, 1, t);
    Comm(t, q + 1);
    Comm(t, q);
    StrictMono(a * c, t * (q + 1), d);
    Comm(d, a * c);
    Comm(d, t * (q + 1));
  }

  // A multiple of the timespan is that multiple of the target.
  lemma TimesExact(a: nat, c: nat, d: nat, t: nat, n: nat)
    requires t >= 1 && d >= 1 && d * c == n * t
    ensures a * c / t == n * a / d
  {
    var q, r := n * a / d, n * a % d;
    assert n * a == q * d + r;
    var s := a * c - q * t;
    assert d * s == t * r by {
      Dist(a * c, q * t, d);
      Comm(d, s);
      Assoc(d, c, a);
      Comm(c, a);
      Comm(d, a * c);
      Assoc(n, t, a);
      Comm(t, n * a);
      Dist(q * d, r, t);
      Assoc(q, d, t);
      Assoc(q, t, d);
      Comm(d, t);
      Comm(t, r);
      Comm(a * c, d);
    }
    Within(d, s, t, r);
    DivUnique(a * c, t, q, s);
  }

  lemma Within(d: nat, s: int, t: nat, r: nat)
    requires d >= 1 && t >= 1 && r < d && d * s == t * r
    ensures 0 <= s < t
  {
    Comm(t, r);
    Comm(d, s);
    Comm(d, t);
    if s < 0 {
      MulMono(s, -1, d);
    } else if s >= t {
      MulMono(t, s, d);
      StrictMono(r, d, t);
    }
  }

  lemma TimesAtMost(a: nat, c: nat, d: nat, t: nat, n: nat)
    requires t >= 1 && d >= 1 && d * c <= n * t
    ensures d * (a * c / t) <= n * a
  {
    var q := a * c / t;
    assert t * q <= a * c;
    if d * q > n * a {
      StrictMono(n * a, d * q, t);
      Assoc(d, q, t);
      Comm(q, t);
      Comm(t, q);
      MulMono(t * q, a * c, d);
      MulMono(d * c, n * t, a);
      Comm(d, t * q);
      Comm(d, a * c);
      Assoc(d, c, a);
      Comm(c, a);
      Assoc(n, t, a);
      Assoc(n, a, t);
      Comm(t, a);
    }
  }

  /**
   * How far one retarget moves the target, before the cap and the rounding of the compact form: up to four times, or 5/4
   * times under the newer rule; down to a quarter, an eighth or a sixteenth by height, or three times that under the
   * newer rule; up to a whole number. Both ends are reached.
   */
  lemma RetargetFactors(fNew: bool, timespan: nat, actual: int, nHeight: int, target: nat)
    requires timespan >= 1
    ensures var c, d, n := Clamped(fNew, timespan, actual, nHeight), Divides(nHeight), Shrinks(fNew);
            && c >= 0
            && var next := target * c / timespan;
               && target * (n * timespan - if fNew then d - 4 else d - 1) < d * (timespan * (next + 1))
               && (if fNew then 4 * next <= 5 * target else next <= 4 * target)
               && (timespan % d == 0 && d * actual <= n * timespan ==> next == n * target / d)
               && (!fNew && actual >= 4 * timespan ==> next == 4 * target)
               && (fNew && timespan % 4 == 0 && 4 * actual >= 5 * timespan ==> next == 5 * target / 4)
  {
    hide Clamped;
    ClampedRange(fNew, timespan, actual, nHeight);
    ClampedWithin(fNew, timespan, actual, nHeight);
    var c, d, n := Clamped(fNew, timespan, actual, nHeight), Divides(nHeight), Shrinks(fNew);
    TimesLess(target, c, d, timespan, if fNew then d - 4 else d - 1, n);
    if fNew {
      TimesAtMost(target, c, 4, timespan, 5);
      if timespan % 4 == 0 && 4 * actual >= 5 * timespan {
        TimesExact(target, c, 4, timespan, 5);
      }
    } else {
      TimesAtMost(target, c, 1, timespan, 4);
      if actual >= 4 * timespan {
        TimesExact(target, c, 1, timespan, 4);
      }
    }
    if timespan % d == 0 && d * actual <= n * timespan {
      TimesExact(target, c, d, timespan, n);
    }
  }

  // The multiplication takes the timespan modulo 2^32 and the product modulo 2^256.
  function Retargeted(target: nat, clamped: nat, timespan: nat, powLimit: nat): nat
    requires timespan >= 1
  {
    var product: nat := (target * (clamped % BASE)) % Modulus();
    Quotient(product, timespan);
    Min(product / timespan, powLimit)
  }

  lemma RetargetRounds(target: nat, clamped: nat, timespan: nat, powLimit: nat, nCompact: nat, size: nat)
    requires timespan >= 1 && clamped <= 4 * timespan
    requires var x := Retargeted(target % Modulus(), clamped, timespan, powLimit);
             && x < Pow2(8 * size) && (size >= 1 ==> x >= Pow2(8 * (size - 1))) && size <= 32
             && nCompact == Pack(Scale(x, size), false)
    ensures 4 * timespan < Pow2(20) && target <= powLimit < Pow2(236) ==>
              RoundsToCompact(Min(target * clamped / timespan, powLimit), nCompact)
  {
    hide Pow2, Exact, Pack, Scale, Retargeted, Modulus;
    if 4 * timespan < Pow2(20) && target <= powLimit < Pow2(236) {
      BelowModulus(target);
      RetargetExact(target, clamped, timespan, powLimit);
      DecodeEncode(Retargeted(target, clamped, timespan, powLimit), size, false);
    }
  }

  // nCompact is the rounded target for the measured timespan, held between the bounds.
  ghost predicate RetargetedTo(fNew: bool, timespan: int, nHeight: int, actual: int, target: nat, powLimit: nat, nCompact: nat)
    requires timespan >= 1
  {
    forall lo, hi :: Bounds(fNew, timespan, nHeight, lo, hi) ==>
      RoundsToCompact(Min(target * Nearest(actual, lo, hi) / timespan, powLimit), nCompact)
  }

  lemma ClampedTo(fNew: bool, timespan: int, nHeight: int, actual: int, target: nat, powLimit: nat, nCompact: nat)
    requires timespan >= 1
    requires RoundsToCompact(Min(target * Clamped(fNew, timespan, actual, nHeight) / timespan, powLimit), nCompact)
    ensures RetargetedTo(fNew, timespan, nHeight, actual, target, powLimit, nCompact)
  {
    hide Clamped, RoundsToCompact, Bounds, Nearest;
    forall lo, hi | Bounds(fNew, timespan, nHeight, lo, hi)
      ensures RoundsToCompact(Min(target * Nearest(actual, lo, hi) / timespan, powLimit), nCompact)
    {
      ClampedNearest(fNew, timespan, actual, nHeight, lo, hi);
    }
  }

  method CalculateNextWorkRequired(fNew: bool, timespan: nat, lastHeight: int, lastTime: int, firstTime: int, nBits: nat, powLimit: array<nat>)
      returns (nCompact: nat, ghost size: nat)
    requires 1 <= timespan < BASE * BASE && nBits < BASE && powLimit.Length == WIDTH && Limbed(powLimit)
    ensures var x := Retargeted(Exact(nBits) % Modulus(), Max(0, Clamped(fNew, timespan, lastTime - firstTime, lastHeight + 1)), timespan, Val(powLimit[..]));
            && x < Pow2(8 * size) && (size >= 1 ==> x >= Pow2(8 * (size - 1))) && size <= 32
            && nCompact == Pack(Scale(x, size), false)
    ensures 4 * timespan < Pow2(20) && Exact(nBits) <= Val(powLimit[..]) < Pow2(236) ==>
              RetargetedTo(fNew, timespan, lastHeight + 1, lastTime - firstTime, Exact(nBits), Val(powLimit[..]), nCompact)
  {
    hide Val, Weight, Pow2, Exact, Pack, Scale, RoundsToCompact, RetargetedTo, Clamped;
    ModulusIs();
    var nHeight := lastHeight + 1;
    ClampedRange(fNew, timespan, lastTime - firstTime, nHeight);
    var nActualTimespan := Clamped(fNew, timespan, lastTime - firstTime, nHeight);
    var bnNew, fNegative, fOverflow := SetCompact(nBits);
    MulSmallAssign(bnNew, nActualTimespan % BASE);
    var divisor := FromWord(timespan);
    var ok := DivAssign(bnNew, divisor);
    var c := CompareTo(bnNew, powLimit);
    if c > 0 {
      nCompact, size := GetCompact(powLimit, false);
    } else {
      nCompact, size := GetCompact(bnNew, false);
    }
    RetargetRounds(Exact(nBits), nActualTimespan, timespan, Val(powLimit[..]), nCompact, size);
    if 4 * timespan < Pow2(20) && Exact(nBits) <= Val(powLimit[..]) < Pow2(236) {
      ClampedTo(fNew, timespan, nHeight, lastTime - firstTime, Exact(nBits), Val(powLimit[..]), nCompact);
    }
  }

  // The compact number decodes to x rounded down, with relative error below 2^-15.
  predicate RoundsToCompact(x: int, nCompact: nat) {
    var r := Exact(nCompact);
    r <= x && (x - r) * 0x8000 <= x && (x > 0 ==> (x - r) * 0x8000 < x)
  }

  lemma BelowModulus(x: nat)
    requires x < Pow2(236)
    ensures x % Modulus() == x
  {
    hide Pow2;
    PowMono(236, 256);
    DivUnique(x, Modulus(), 0, x);
  }

  /** Within the limits of the network nothing wraps: the retarget is the plain product and quotient. */
  lemma RetargetExact(target: nat, clamped: nat, timespan: nat, powLimit: nat)
    requires timespan >= 1 && 4 * timespan < Pow2(20) && clamped <= 4 * timespan
    requires target <= powLimit < Pow2(236)
    ensures Retargeted(target, clamped, timespan, powLimit) == Min(target * clamped / timespan, powLimit)
  {
    hide Pow2;
    PowMono(20, 32);
    Pow32();
    PowSum(236, 20);
    DivUnique(clamped, BASE, 0, clamped);
    StrictMono(target, Pow2(236), Pow2(20));
    MulMono(clamped, Pow2(20), target);
    Comm(clamped, target);
    Comm(Pow2(20), target);
    DivUnique(target * clamped, Modulus(), 0, target * clamped);
  }
}
