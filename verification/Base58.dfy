/** Base58: byte vectors as strings over a 58-letter alphabet. */
module Base58 {
  import opened Arithmetic

  // --- Numbers in a base, most significant digit first ---

  function Pow(b: nat, e: nat): nat {
    if e == 0 then 1 else b * Pow(b, e - 1)
  }

  predicate Digits(s: seq<nat>, base: nat) {
    forall i :: 0 <= i < |s| ==> s[i] < base
  }

  function Num(s: seq<nat>, base: nat): nat {
    if s == [] then 0 else Num(s[..|s| - 1], base) * base + s[|s| - 1]
  }

  lemma {:induction false} PowPositive(b: nat, e: nat)
    requires b >= 1
    ensures Pow(b, e) >= 1
  {
    if e > 0 {
      PowPositive(b, e - 1);
      Product(b, Pow(b, e - 1));
    }
  }

  lemma Product(a: nat, b: nat)
    requires a >= 1 && b >= 1
    ensures a * b >= 1
  {
  }

  lemma ProductMono(a: nat, b: nat, c: nat, d: nat)
    requires a <= b && c <= d
    ensures a * c <= b * d
  {
    assert a * c <= a * d;
    assert a * d <= b * d;
  }

  lemma Mul3(a: nat, b: nat, c: nat)
    ensures a * (b * c) == (a * b) * c == (a * c) * b
  {
  }

  lemma {:induction false} PowSum(b: nat, e: nat, f: nat)
    ensures Pow(b, e + f) == Pow(b, e) * Pow(b, f)
  {
    if f > 0 {
      PowSum(b, e, f - 1);
      Mul3(Pow(b, e), b, Pow(b, f - 1));
      Mul3(b, Pow(b, e), Pow(b, f - 1));
    }
  }

  lemma {:induction false} PowTimes(b: nat, e: nat, f: nat)
    ensures Pow(b, e * f) == Pow(Pow(b, e), f)
  {
    if f > 0 {
      PowTimes(b, e, f - 1);
      PowSum(b, e, e * (f - 1));
      assert e * f == e + e * (f - 1);
    }
  }

  lemma {:induction false} PowMonoExponent(b: nat, e: nat, f: nat)
    requires b >= 1 && e <= f
    ensures Pow(b, e) <= Pow(b, f)
    decreases f
  {
    if e < f {
      PowMonoExponent(b, e, f - 1);
      ProductMono(1, b, Pow(b, f - 1), Pow(b, f - 1));
    }
  }

  lemma {:induction false} PowMonoBase(a: nat, b: nat, e: nat)
    requires a <= b
    ensures Pow(a, e) <= Pow(b, e)
  {
    if e > 0 {
      PowMonoBase(a, b, e - 1);
      ProductMono(a, b, Pow(a, e - 1), Pow(b, e - 1));
    }
  }

  lemma {:induction false} PowStrictBase(a: nat, b: nat, e: nat)
    requires a < b && e >= 1
    ensures Pow(a, e) < Pow(b, e)
  {
    if e == 1 {
      PowOne(a);
      PowOne(b);
    } else {
      PowStrictBase(a, b, e - 1);
      ProductMono(a, b, Pow(a, e - 1), Pow(a, e - 1));
      StrictMul(b, Pow(a, e - 1), Pow(b, e - 1));
    }
  }

  lemma PowOne(a: nat)
    ensures Pow(a, 1) == a
  {
    assert Pow(a, 0) == 1;
    assert Pow(a, 1) == a * Pow(a, 0);
  }

  lemma StrictMul(b: nat, x: nat, y: nat)
    requires b >= 1 && x < y
    ensures b * x < b * y
  {
  }

  lemma SquarePow(b: nat, e: nat, v: nat)
    requires Pow(b, e) == v
    ensures Pow(b, 2 * e) == v * v
  {
    PowSum(b, e, e);
  }

  // 256^8 <= 58^11 and 58^71 <= 256^52: how many digits of one base a number of digits of the other needs.
  lemma BytesToLetters()
    ensures Pow(256, 8) <= Pow(58, 11)
  {
    assert Pow(256, 1) == 256;
    SquarePow(256, 1, 256);
    assert Pow(256, 2) == 65536;
    SquarePow(256, 2, 65536);
    assert Pow(256, 4) == 4294967296;
    SquarePow(256, 4, 4294967296);
    assert Pow(256, 8) == 18446744073709551616;
    assert Pow(58, 1) == 58;
    SquarePow(58, 1, 58);
    assert Pow(58, 2) == 3364;
    SquarePow(58, 2, 3364);
    assert Pow(58, 4) == 11316496;
    SquarePow(58, 4, 11316496);
    assert Pow(58, 8) == 128063081718016;
    PowSum(58, 8, 2);
    PowSum(58, 10, 1);
    assert Pow(58, 11) == 24986644000165537792;
  }

  lemma LettersToBytes()
    ensures Pow(58, 71) <= Pow(256, 52)
  {
    Letters64();
    Letters7();
    PowSum(58, 64, 7);
    Bytes52();
    assert Pow(58, 71) == 72342179355466901471258927612150153907721848234316445933056526044582001260898145151856420451025374266490194231296 * 2207984167552;
  }

  lemma Letters64()
    ensures Pow(58, 64) == 72342179355466901471258927612150153907721848234316445933056526044582001260898145151856420451025374266490194231296
  {
    assert Pow(58, 1) == 58;
    SquarePow(58, 1, 58);
    assert Pow(58, 2) == 3364;
    SquarePow(58, 2, 3364);
    assert Pow(58, 4) == 11316496;
    SquarePow(58, 4, 11316496);
    assert Pow(58, 8) == 128063081718016;
    SquarePow(58, 8, 128063081718016);
    assert Pow(58, 16) == 16400152899115243850138976256;
    SquarePow(58, 16, 16400152899115243850138976256);
    assert Pow(58, 32) == 268965015114358137726910587140455987105619365599731777536;
    SquarePow(58, 32, 268965015114358137726910587140455987105619365599731777536);
    assert Pow(58, 64) == 72342179355466901471258927612150153907721848234316445933056526044582001260898145151856420451025374266490194231296;
  }

  lemma Letters7()
    ensures Pow(58, 7) == 2207984167552
  {
    assert Pow(58, 3) == 195112;
    SquarePow(58, 3, 195112);
    PowSum(58, 6, 1);
    assert Pow(58, 1) == 58;
  }

  lemma Bytes52()
    ensures Pow(256, 52) == 169230328010303641331690318856389386196071598838855992136870091590247882556495704531248437872567112920983350278405979725889536
  {
    assert Pow(256, 1) == 256;
    SquarePow(256, 1, 256);
    assert Pow(256, 2) == 65536;
    SquarePow(256, 2, 65536);
    assert Pow(256, 4) == 4294967296;
    SquarePow(256, 4, 4294967296);
    assert Pow(256, 8) == 18446744073709551616;
    SquarePow(256, 8, 18446744073709551616);
    assert Pow(256, 16) == 340282366920938463463374607431768211456;
    SquarePow(256, 16, 340282366920938463463374607431768211456);
    assert Pow(256, 32) == 115792089237316195423570985008687907853269984665640564039457584007913129639936;
    PowSum(256, 32, 16);
    PowSum(256, 48, 4);
  }

  // If a^q <= b^p then a^n fits in b^m whenever q*m >= p*n.
  lemma Fits(a: nat, b: nat, p: nat, q: nat, n: nat, m: nat)
    requires b >= 1 && q >= 1 && Pow(a, q) <= Pow(b, p) && p * n <= q * m
    ensures Pow(a, n) <= Pow(b, m)
  {
    hide Pow;
    Raised(a, b, p, q, n);
    PowMonoExponent(b, p * n, q * m);
    Swapped(a, n, q);
    Swapped(b, m, q);
    RootMono(Pow(a, n), Pow(b, m), q);
  }

  lemma Raised(a: nat, b: nat, p: nat, q: nat, n: nat)
    requires Pow(a, q) <= Pow(b, p)
    ensures Pow(a, q * n) <= Pow(b, p * n)
  {
    hide Pow;
    PowTimes(a, q, n);
    PowTimes(b, p, n);
    PowMonoBase(Pow(a, q), Pow(b, p), n);
  }

  lemma Swapped(a: nat, n: nat, q: nat)
    ensures Pow(Pow(a, n), q) == Pow(a, q * n)
  {
    hide Pow;
    PowTimes(a, n, q);
    Comm(n, q);
  }

  lemma RootMono(x: nat, y: nat, q: nat)
    requires q >= 1 && Pow(x, q) <= Pow(y, q)
    ensures x <= y
  {
    hide Pow;
    if y < x {
      PowStrictBase(y, x, q);
    }
  }

  /** The two buffers are large enough for every length. */
  lemma BuffersSuffice(n: nat)
    ensures Pow(256, n) <= Pow(58, n * 138 / 100 + 1)
    ensures Pow(58, n) <= Pow(256, n * 733 / 1000 + 1)
  {
    BytesToLetters();
    LettersToBytes();
    Fits(256, 58, 11, 8, n, n * 138 / 100 + 1);
    Fits(58, 256, 52, 71, n, n * 733 / 1000 + 1);
  }

  lemma NumLast(s: seq<nat>, base: nat, d: nat)
    ensures Num(s + [d], base) == Num(s, base) * base + d
  {
    assert (s + [d])[..|s|] == s;
  }

  lemma {:induction false} NumFirst(d: nat, s: seq<nat>, base: nat)
    ensures Num([d] + s, base) == d * Pow(base, |s|) + Num(s, base)
  {
    var n := |s|;
    if n == 0 {
      assert [d] + s == [] + [d];
      NumLast([], base, d);
      assert Pow(base, 0) == 1;
    } else {
      var t := s[..n - 1];
      NumFirst(d, t, base);
      assert [d] + s == ([d] + t) + [s[n - 1]] && s == t + [s[n - 1]];
      hide Num, Pow;
      NumLast([d] + t, base, s[n - 1]);
      NumLast(t, base, s[n - 1]);
      PowNext(base, n);
      FirstStep(d, Pow(base, n - 1), Num(t, base), base);
    }
  }

  lemma PowNext(base: nat, n: nat)
    requires n >= 1
    ensures Pow(base, n) == base * Pow(base, n - 1)
  {
  }

  lemma FirstStep(d: nat, p: nat, x: nat, base: nat)
    ensures (d * p + x) * base == d * (base * p) + x * base
  {
    Mul3(d, base, p);
  }

  lemma {:induction false} NumBound(s: seq<nat>, base: nat)
    requires Digits(s, base) && base >= 1
    ensures Num(s, base) < Pow(base, |s|)
  {
    if s != [] {
      var n := |s| - 1;
      NumBound(s[..n], base);
      BoundStep(Num(s[..n], base), Pow(base, n), base, s[n]);
    }
  }

  lemma BoundStep(x: nat, p: nat, base: nat, d: nat)
    requires x < p && d < base
    ensures x * base + d < base * p
  {
    ProductMono(x + 1, p, base, base);
    assert (x + 1) * base == x * base + base;
    Comm(p, base);
  }

  // --- One representation for every number ---

  predicate NoLead(s: seq<nat>) { s == [] || s[0] != 0 }

  lemma {:induction false} NumPositive(s: seq<nat>, base: nat)
    requires NoLead(s) && s != [] && base >= 1
    ensures Num(s, base) > 0
  {
    var n := |s| - 1;
    if n > 0 {
      NumPositive(s[..n], base);
      Product(Num(s[..n], base), base);
    }
  }

  lemma {:induction false} NumInjective(a: seq<nat>, b: seq<nat>, base: nat)
    requires base >= 1 && Digits(a, base) && Digits(b, base) && NoLead(a) && NoLead(b) && Num(a, base) == Num(b, base)
    ensures a == b
  {
    if a == [] || b == [] {
      if a != [] {
        NumPositive(a, base);
      }
      if b != [] {
        NumPositive(b, base);
      }
    } else {
      var i, j := |a| - 1, |b| - 1;
      LastDigit(Num(a[..i], base), a[i], Num(b[..j], base), b[j], base);
      NumInjective(a[..i], b[..j], base);
      assert a == a[..i] + [a[i]] && b == b[..j] + [b[j]];
    }
  }

  lemma LastDigit(x: nat, d: nat, y: nat, e: nat, base: nat)
    requires d < base && e < base && x * base + d == y * base + e
    ensures x == y && d == e
  {
    OneMore(x, base);
    OneMore(y, base);
    if x < y {
      ProductMono(x + 1, y, base, base);
    } else if y < x {
      ProductMono(y + 1, x, base, base);
    }
  }

  lemma OneMore(x: nat, base: nat)
    ensures (x + 1) * base == x * base + base
  {
  }

  // --- Letters ---

  const ALPHABET: string := "123456789" + "ABCDEFGH" + "JKLMN" + "PQRSTUVWXYZ" + "abcdefghijk" + "mnopqrstuvwxyz"

  // The place of a letter in the alphabet.
  function Rank(c: char): int {
    if '1' <= c <= '9' then c as int - '1' as int
    else if 'A' <= c <= 'H' then c as int - 'A' as int + 9
    else if 'J' <= c <= 'N' then c as int - 'J' as int + 17
    else if 'P' <= c <= 'Z' then c as int - 'P' as int + 22
    else if 'a' <= c <= 'k' then c as int - 'a' as int + 33
    else if 'm' <= c <= 'z' then c as int - 'm' as int + 44
    else -1
  }

  function Letter(d: nat): char
    requires d < 58
  {
    assert |ALPHABET| == 58;
    ALPHABET[d]
  }

  lemma Piece1(d: nat)
    requires 0 <= d < 9
    ensures Rank(Letter(d)) == d
  {
    assert ALPHABET[0] == '1';
    assert ALPHABET[1] == '2';
    assert ALPHABET[2] == '3';
    assert ALPHABET[3] == '4';
    assert ALPHABET[4] == '5';
    assert ALPHABET[5] == '6';
    assert ALPHABET[6] == '7';
    assert ALPHABET[7] == '8';
    assert ALPHABET[8] == '9';
  }

  lemma Piece2(d: nat)
    requires 9 <= d < 17
    ensures Rank(Letter(d)) == d
  {
    assert ALPHABET[9] == 'A';
    assert ALPHABET[10] == 'B';
    assert ALPHABET[11] == 'C';
    assert ALPHABET[12] == 'D';
    assert ALPHABET[13] == 'E';
    assert ALPHABET[14] == 'F';
    assert ALPHABET[15] == 'G';
    assert ALPHABET[16] == 'H';
  }

  lemma Piece3(d: nat)
    requires 17 <= d < 22
    ensures Rank(Letter(d)) == d
  {
    assert ALPHABET[17] == 'J';
    assert ALPHABET[18] == 'K';
    assert ALPHABET[19] == 'L';
    assert ALPHABET[20] == 'M';
    assert ALPHABET[21] == 'N';
  }

  lemma Piece4(d: nat)
    requires 22 <= d < 33
    ensures Rank(Letter(d)) == d
  {
    assert ALPHABET[22] == 'P';
    assert ALPHABET[23] == 'Q';
    assert ALPHABET[24] == 'R';
    assert ALPHABET[25] == 'S';
    assert ALPHABET[26] == 'T';
    assert ALPHABET[27] == 'U';
    assert ALPHABET[28] == 'V';
    assert ALPHABET[29] == 'W';
    assert ALPHABET[30] == 'X';
    assert ALPHABET[31] == 'Y';
    assert ALPHABET[32] == 'Z';
  }

  lemma Piece5(d: nat)
    requires 33 <= d < 44
    ensures Rank(Letter(d)) == d
  {
    assert ALPHABET[33] == 'a';
    assert ALPHABET[34] == 'b';
    assert ALPHABET[35] == 'c';
    assert ALPHABET[36] == 'd';
    assert ALPHABET[37] == 'e';
    assert ALPHABET[38] == 'f';
    assert ALPHABET[39] == 'g';
    assert ALPHABET[40] == 'h';
    assert ALPHABET[41] == 'i';
    assert ALPHABET[42] == 'j';
    assert ALPHABET[43] == 'k';
  }

  lemma Piece6(d: nat)
    requires 44 <= d < 58
    ensures Rank(Letter(d)) == d
  {
    assert ALPHABET[44] == 'm';
    assert ALPHABET[45] == 'n';
    assert ALPHABET[46] == 'o';
    assert ALPHABET[47] == 'p';
    assert ALPHABET[48] == 'q';
    assert ALPHABET[49] == 'r';
    assert ALPHABET[50] == 's';
    assert ALPHABET[51] == 't';
    assert ALPHABET[52] == 'u';
    assert ALPHABET[53] == 'v';
    assert ALPHABET[54] == 'w';
    assert ALPHABET[55] == 'x';
    assert ALPHABET[56] == 'y';
    assert ALPHABET[57] == 'z';
  }

  lemma RankOfLetter(d: nat)
    requires d < 58
    ensures Rank(Letter(d)) == d
  {
    hide Rank, Letter;
    if d < 9 {
      Piece1(d);
    } else if d < 17 {
      Piece2(d);
    } else if d < 22 {
      Piece3(d);
    } else if d < 33 {
      Piece4(d);
    } else if d < 44 {
      Piece5(d);
    } else {
      Piece6(d);
    }
  }

  predicate IsLetter(c: char) { Rank(c) >= 0 }

  lemma LetterOfRank(c: char)
    requires IsLetter(c)
    ensures Rank(c) < 58 && Letter(Rank(c)) == c
  {
    RankSmall(c);
    hide Rank, Letter;
    RankOfLetter(Rank(c));
    SameRank(c, Letter(Rank(c)));
  }

  lemma RankSmall(c: char)
    ensures -1 <= Rank(c) < 58
  {
  }

  lemma SameRank(c: char, d: char)
    requires IsLetter(c) && Rank(c) == Rank(d)
    ensures c == d
  {
  }

  // Find a letter, as strchr does; -1 if it is not there.
  method Strchr(c: char) returns (d: int)
    ensures d == Rank(c)
  {
    hide Rank, Letter;
    d := 0;
    while d < 58
      invariant 0 <= d <= 58 && forall k :: 0 <= k < d ==> Letter(k) != c
    {
      RankOfLetter(d);
      if Letter(d) == c {
        return;
      }
      d := d + 1;
    }
    d := -1;
    RankSmall(c);
    if IsLetter(c) {
      LetterOfRank(c);
    }
  }

  predicate Letters(t: string) {
    forall i :: 0 <= i < |t| ==> IsLetter(t[i])
  }

  function Values(t: string): (r: seq<nat>)
    requires Letters(t)
    ensures |r| == |t| && Digits(r, 58)
  {
    seq(|t|, i requires 0 <= i < |t| => Rank(t[i]))
  }

  lemma ValuesInjective(t: string, u: string)
    requires Letters(t) && Letters(u) && Values(t) == Values(u)
    ensures t == u
  {
    hide Rank;
    forall i | 0 <= i < |t| ensures t[i] == u[i] {
      assert Values(t)[i] == Values(u)[i];
      SameRank(t[i], u[i]);
    }
  }

  // --- The correspondence ---

  function Repeat<T>(x: T, n: nat): (r: seq<T>)
    ensures |r| == n && forall i :: 0 <= i < n ==> r[i] == x
  {
    seq(n, i => x)
  }

  // Leading zero bytes are leading ones, and the rest is one number in two bases.
  ghost predicate Parts(v: seq<nat>, t: string, z: nat, r: seq<nat>, d: string) {
    && v == Repeat(0, z) + r && t == Repeat('1', z) + d
    && NoLead(r) && Digits(r, 256) && Letters(d) && NoLead(Values(d))
    && Num(r, 256) == Num(Values(d), 58)
  }

  ghost predicate Same(v: seq<nat>, t: string) {
    exists z, r, d :: Parts(v, t, z, r, d)
  }

  // A longer run of x would reach into the rest.
  lemma RunReaches<T>(x: T, v: seq<T>, z: nat, r: seq<T>, z': nat, r': seq<T>)
    requires v == Repeat(x, z) + r && v == Repeat(x, z') + r'
    ensures z < z' ==> r != [] && r[0] == x
    ensures z == z' ==> r == r'
  {
    assert r == v[z..] && r' == v[z'..];
    if z < z' {
      assert v[z] == Repeat(x, z')[z];
    }
  }

  lemma LeadUnique(v: seq<nat>, z: nat, r: seq<nat>, z': nat, r': seq<nat>)
    requires v == Repeat(0, z) + r && v == Repeat(0, z') + r' && NoLead(r) && NoLead(r')
    ensures z == z' && r == r'
  {
    hide Repeat;
    RunReaches(0, v, z, r, z', r');
    RunReaches(0, v, z', r', z, r);
  }

  lemma OnesUnique(t: string, z: nat, d: string, z': nat, d': string)
    requires t == Repeat('1', z) + d && t == Repeat('1', z') + d' && Letters(d) && Letters(d') && NoLead(Values(d)) && NoLead(Values(d'))
    ensures z == z' && d == d'
  {
    hide Repeat;
    RunReaches('1', t, z, d, z', d');
    RunReaches('1', t, z', d', z, d);
  }

  /** Every byte vector has at most one string. */
  lemma OneString(v: seq<nat>, t: string, t': string)
    requires Same(v, t) && Same(v, t')
    ensures t == t'
  {
    hide Num, Letters, NoLead;
    var z, r, d :| Parts(v, t, z, r, d);
    var z', r', d' :| Parts(v, t', z', r', d');
    LeadUnique(v, z, r, z', r');
    NumInjective(Values(d), Values(d'), 58);
    ValuesInjective(d, d');
  }

  /** Every string has at most one byte vector. */
  lemma OneVector(v: seq<nat>, v': seq<nat>, t: string)
    requires Same(v, t) && Same(v', t)
    ensures v == v'
  {
    hide Num, Letters, NoLead;
    var z, r, d :| Parts(v, t, z, r, d);
    var z', r', d' :| Parts(v', t, z', r', d');
    OnesUnique(t, z, d, z', d');
    NumInjective(r, r', 256);
  }

  // --- The buffers ---

  // The digits before the last `length` are zero.
  ghost predicate Used(s: seq<nat>, length: nat) {
    length <= |s| && forall i :: 0 <= i < |s| - length ==> s[i] == 0
  }

  lemma {:induction false} NumZeros(s: seq<nat>, base: nat, k: nat)
    requires k <= |s| && forall i :: 0 <= i < k ==> s[i] == 0
    ensures Num(s, base) == Num(s[k..], base)
    decreases k
  {
    if k > 0 {
      assert s == [s[0]] + s[1..];
      NumFirst(s[0], s[1..], base);
      NumZeros(s[1..], base, k - 1);
      assert s[1..][k - 1..] == s[k..];
    }
  }

  // One digit of the carry loop.
  lemma CarryStep(x: nat, x': nat, d: nat, carry: nat, p: nat, base: nat, mult: nat, add: nat)
    requires base >= 1 && x' + carry * p == mult * x + add
    ensures var c := carry + mult * d; (c % base) * p + x' + (c / base) * (base * p) == mult * (d * p + x) + add
  {
    var c := carry + mult * d;
    assert c == (c / base) * base + c % base;
    Expand(c / base, base, c % base, p);
    Expand2(carry, mult, d, p);
    Expand3(mult, d * p, x);
    Mul3(mult, d, p);
  }

  lemma Expand(q: nat, base: nat, r: nat, p: nat)
    ensures (q * base + r) * p == q * (base * p) + r * p
  {
    Mul3(q, base, p);
  }

  lemma Expand2(carry: nat, mult: nat, d: nat, p: nat)
    ensures (carry + mult * d) * p == carry * p + (mult * d) * p
  {
  }

  lemma Expand3(m: nat, a: nat, b: nat)
    ensures m * (a + b) == m * a + m * b
  {
  }

  // What is left of the carry once every digit has been visited is zero, because the result fits.
  lemma NoCarryLeft(x: nat, carry: nat, p: nat, total: nat)
    requires x + carry * p == total < p
    ensures carry == 0
  {
    if carry >= 1 {
      ProductMono(1, carry, p, p);
    }
  }

  // "b = b * mult + add", from the last digit up; stops early when nothing is carried past the digits in use.
  method MulAdd(b: array<nat>, base: nat, mult: nat, add: nat, length: nat) returns (i: nat)
    requires base >= 2 && Digits(b[..], base) && Used(b[..], length)
    requires mult * Num(b[..], base) + add < Pow(base, b.Length)
    modifies b
    ensures Digits(b[..], base) && Used(b[..], i) && Num(b[..], base) == mult * Num(old(b[..]), base) + add
  {
    hide Num, Pow, Carrying, Digits, Used;
    var carry: nat := add;
    i := 0;
    ghost var s := b[..];
    var n := b.Length;
    CarryStart(s, base, mult, add);
    while (carry != 0 || i < length) && i < n
      invariant i <= n && Carrying(b[..], s, i, carry, base, mult, add)
      decreases n - i
    {
      Advance(b[..], s, i, carry, base, mult, add);
      carry := carry + mult * b[n - 1 - i];
      ghost var before := b[..];
      var digit: nat := carry % base;
      b[n - 1 - i] := digit;
      assert b[..] == before[n - 1 - i := digit];
      carry := carry / base;
      i := i + 1;
    }
    CarryDone(b[..], s, i, carry, base, mult, add, length);
    assert carry == 0;
  }

  // The last i digits are done: with the carry they make up the new value of the old ones; the others are as before.
  ghost predicate Carrying(b: seq<nat>, s: seq<nat>, i: nat, carry: nat, base: nat, mult: nat, add: nat) {
    && |b| == |s| && i <= |s| && b[..|s| - i] == s[..|s| - i] && Digits(b, base)
    && Num(b[|s| - i..], base) + carry * Pow(base, i) == mult * Num(s[|s| - i..], base) + add
  }

  lemma CarryStart(s: seq<nat>, base: nat, mult: nat, add: nat)
    requires Digits(s, base)
    ensures Carrying(s, s, 0, add, base, mult, add)
  {
    NumEmpty(base);
    assert s[|s|..] == [];
    hide Num, Pow;
  }

  lemma CarryDone(b: seq<nat>, s: seq<nat>, i: nat, carry: nat, base: nat, mult: nat, add: nat, length: nat)
    requires Carrying(b, s, i, carry, base, mult, add) && Used(s, length) && mult * Num(s, base) + add < Pow(base, |s|)
    requires i == |s| || (carry == 0 && i >= length)
    ensures carry == 0 && Digits(b, base) && Used(b, i) && Num(b, base) == mult * Num(s, base) + add
  {
    hide Num, Pow, Digits, Carrying;
    if i == |s| {
      CarriedThrough(b, s, carry, base, mult, add);
    } else {
      CarriedOut(b, s, i, base, mult, add, length);
    }
  }

  lemma CarriedThrough(b: seq<nat>, s: seq<nat>, carry: nat, base: nat, mult: nat, add: nat)
    requires Carrying(b, s, |s|, carry, base, mult, add) && mult * Num(s, base) + add < Pow(base, |s|)
    ensures carry == 0 && Digits(b, base) && Used(b, |s|) && Num(b, base) == mult * Num(s, base) + add
  {
    hide Num, Pow, Digits;
    assert b[0..] == b && s[0..] == s;
    NoCarryLeft(Num(b, base), carry, Pow(base, |s|), mult * Num(s, base) + add);
  }

  lemma CarriedOut(b: seq<nat>, s: seq<nat>, i: nat, base: nat, mult: nat, add: nat, length: nat)
    requires Carrying(b, s, i, 0, base, mult, add) && Used(s, length) && i >= length
    ensures Digits(b, base) && Used(b, i) && Num(b, base) == mult * Num(s, base) + add
  {
    hide Num, Pow, Digits;
    ZeroFront(b, s, i, base);
    NoCarry(Num(b, base), 0, Pow(base, i), mult * Num(s, base) + add);
  }

  lemma NoCarry(x: nat, carry: nat, p: nat, total: nat)
    requires carry == 0 && x + carry * p == total
    ensures x == total
  {
  }

  lemma NumEmpty(base: nat)
    ensures Num([], base) == 0 && Pow(base, 0) == 1
  {
  }

  lemma Advance(b: seq<nat>, s: seq<nat>, i: nat, carry: nat, base: nat, mult: nat, add: nat)
    requires base >= 2 && i < |s| && Carrying(b, s, i, carry, base, mult, add)
    ensures |b| == |s| && var j := |s| - 1 - i;
            var c: nat := carry + mult * b[j];
            var digit: nat := c % base;
            var b' := b[j := digit];
            var next: nat := c / base;
            Carrying(b', s, i + 1, next, base, mult, add)
  {
    var j := |s| - 1 - i;
    var c: nat := carry + mult * b[j];
    var digit: nat := c % base;
    var b' := b[j := digit];
    assert b[j] == b[..|s| - i][j] == s[j];
    assert s[j..] == [s[j]] + s[j + 1..] && b'[j..] == [c % base] + b[j + 1..];
    NumFirst(s[j], s[j + 1..], base);
    NumFirst(c % base, b[j + 1..], base);
    CarryStep(Num(s[j + 1..], base), Num(b[j + 1..], base), s[j], carry, Pow(base, i), base, mult, add);
    assert b'[..j] == b[..|s| - i][..j] == s[..j];
    hide Num;
  }

  lemma ZeroFront(b: seq<nat>, s: seq<nat>, i: nat, base: nat)
    requires |b| == |s| && i <= |s| && b[..|s| - i] == s[..|s| - i] && Used(s, i)
    ensures Used(b, i) && Num(b, base) == Num(b[|s| - i..], base) && Num(s, base) == Num(s[|s| - i..], base)
  {
    hide Num;
    var k := |s| - i;
    forall j | 0 <= j < k ensures b[j] == 0 {
      assert b[j] == b[..k][j] == s[j];
    }
    NumZeros(s, base, k);
    NumZeros(b, base, k);
  }

  // --- Encoding ---

  // The next digit of the input can be added: the result still fits the buffer.
  lemma Room(s: seq<nat>, k: nat, from: nat, to: nat, size: nat)
    requires from >= 2 && k < |s| && Digits(s, from) && Pow(from, |s|) <= Pow(to, size)
    ensures Num(s[..k + 1], from) == from * Num(s[..k], from) + s[k] < Pow(to, size)
  {
    assert s[..k + 1] == s[..k] + [s[k]];
    NumLast(s[..k], from, s[k]);
    Comm(Num(s[..k], from), from);
    NumBound(s[..k + 1], from);
    PowMonoExponent(from, k + 1, |s|);
  }

  method Zeroed(size: nat, base: nat) returns (b: array<nat>)
    requires base >= 1
    ensures fresh(b) && b.Length == size && Digits(b[..], base) && Used(b[..], 0) && Num(b[..], base) == 0
  {
    b := new nat[size](i => 0);
    NumZeros(b[..], base, size);
    assert b[..][size..] == [];
  }

  // Read digits of one base into a buffer of digits of the other.
  method Convert(s: seq<nat>, from: nat, b: array<nat>, to: nat) returns (length: nat)
    requires from >= 2 && to >= 2 && Digits(s, from) && Pow(from, |s|) <= Pow(to, b.Length)
    requires Digits(b[..], to) && Used(b[..], 0) && Num(b[..], to) == 0
    modifies b
    ensures Digits(b[..], to) && Used(b[..], length) && Num(b[..], to) == Num(s, from)
  {
    hide Num, Pow;
    NumEmpty(from);
    length := 0;
    assert s[..0] == [];
    for k := 0 to |s|
      invariant Digits(b[..], to) && Used(b[..], length) && Num(b[..], to) == Num(s[..k], from)
    {
      Room(s, k, from, to, b.Length);
      length := MulAdd(b, to, from, s[k], length);
    }
    assert s[..|s|] == s;
  }

  // The digits without the leading zeros.
  method Stripped(b: array<nat>, length: nat, base: nat) returns (r: seq<nat>)
    requires base >= 1 && Digits(b[..], base) && Used(b[..], length)
    ensures NoLead(r) && Digits(r, base) && Num(r, base) == Num(b[..], base)
  {
    var it := b.Length - length;
    while it < b.Length && b[it] == 0
      invariant it <= b.Length && forall i :: 0 <= i < it ==> b[i] == 0
    {
      it := it + 1;
    }
    NumZeros(b[..], base, it);
    r := b[it..];
    assert b[..][it..] == r;
  }

  method LeadingZeroes(v: seq<nat>) returns (z: nat)
    ensures z <= |v| && v == Repeat(0, z) + v[z..] && NoLead(v[z..])
  {
    z := 0;
    while z < |v| && v[z] == 0
      invariant z <= |v| && forall i :: 0 <= i < z ==> v[i] == 0
    {
      z := z + 1;
    }
    assert v[..z] == Repeat(0, z);
  }

  method Encode(v: seq<nat>) returns (str: string)
    requires Digits(v, 256)
    ensures Same(v, str)
  {
    hide Num, Pow, Rank, Letter;
    var zeroes := LeadingZeroes(v);
    var rest := v[zeroes..];
    var size := |rest| * 138 / 100 + 1;
    var b58 := Zeroed(size, 58);
    BuffersSuffice(|rest|);
    var length := Convert(rest, 256, b58, 58);
    var digits := Stripped(b58, length, 58);
    var text := Translate(digits);
    str := Repeat('1', zeroes) + text;
    assert Parts(v, str, zeroes, rest, text);
  }

  method Translate(digits: seq<nat>) returns (text: string)
    requires Digits(digits, 58)
    ensures Letters(text) && Values(text) == digits
  {
    hide Rank, Letter;
    text := "";
    for i := 0 to |digits|
      invariant |text| == i && forall k :: 0 <= k < i ==> Rank(text[k]) == digits[k]
    {
      RankOfLetter(digits[i]);
      text := text + [Letter(digits[i])];
    }
  }

  // --- Decoding ---

  predicate IsSpace(c: char) { c == ' ' || '\t' <= c <= '\r' }

  // Space, tab, line feed, vertical tab, form feed and carriage return.
  lemma SpaceIff(c: char)
    ensures IsSpace(c) <==> c as int in {32, 9, 10, 11, 12, 13}
  {
  }

  predicate AllSpaces(s: string) { forall i :: 0 <= i < |s| ==> IsSpace(s[i]) }

  // t is s without surrounding whitespace, and has none inside.
  ghost predicate Trims(s: string, t: string) {
    exists a, b :: s == a + t + b && AllSpaces(a) && AllSpaces(b) && forall i :: 0 <= i < |t| ==> !IsSpace(t[i])
  }

  lemma LettersNoSpaces(t: string)
    requires Letters(t)
    ensures forall i :: 0 <= i < |t| ==> !IsSpace(t[i])
  {
  }

  method SkipSpaces(s: string, start: nat) returns (i: nat)
    requires start <= |s|
    ensures start <= i <= |s| && AllSpaces(s[start..i]) && (i < |s| ==> !IsSpace(s[i]))
  {
    i := start;
    while i < |s| && IsSpace(s[i])
      invariant start <= i <= |s| && forall k :: start <= k < i ==> IsSpace(s[k])
    {
      i := i + 1;
    }
  }

  // Read the letters of s from `start` to the first space into the buffer.
  method ReadLetters(s: string, start: nat, b: array<nat>) returns (ok: bool, i: nat, length: nat)
    requires start <= |s| && Pow(58, |s| - start) <= Pow(256, b.Length)
    requires Digits(b[..], 256) && Used(b[..], 0) && Num(b[..], 256) == 0
    modifies b
    ensures start <= i <= |s| && (forall k :: start <= k < i ==> !IsSpace(s[k]))
    ensures !ok ==> i < |s| && !IsSpace(s[i]) && !IsLetter(s[i])
    ensures ok ==> (i < |s| ==> IsSpace(s[i])) && Letters(s[start..i])
    ensures ok ==> Digits(b[..], 256) && Used(b[..], length) && Num(b[..], 256) == Num(Values(s[start..i]), 58)
  {
    hide Num, Pow, Rank;
    ok, i, length := true, start, 0;
    NumEmpty(58);
    assert s[start..start] == "" && Values("") == [];
    while i < |s| && !IsSpace(s[i])
      invariant start <= i <= |s| && (forall k :: start <= k < i ==> !IsSpace(s[k])) && Letters(s[start..i])
      invariant Digits(b[..], 256) && Used(b[..], length) && Num(b[..], 256) == Num(Values(s[start..i]), 58)
    {
      var ch := Strchr(s[i]);
      if ch < 0 {
        return false, i, length;
      }
      NextLetter(s, start, i, b.Length);
      length := MulAdd(b, 256, 58, ch, length);
      i := i + 1;
    }
  }

  lemma NextLetter(s: string, start: nat, i: nat, size: nat)
    requires start <= i < |s| && Letters(s[start..i]) && IsLetter(s[i]) && Pow(58, |s| - start) <= Pow(256, size)
    ensures Letters(s[start..i + 1])
    ensures Num(Values(s[start..i + 1]), 58) == 58 * Num(Values(s[start..i]), 58) + Rank(s[i]) < Pow(256, size)
  {
    hide Num, Pow, Rank;
    var t, u := s[start..i], s[start..i + 1];
    assert u == t + [s[i]];
    assert Values(u) == Values(t) + [Rank(s[i])];
    PowMonoExponent(58, i + 1 - start, |s| - start);
    Room(Values(u), i - start, 58, 256, size);
    assert Values(u)[..i - start] == Values(t) && Values(u)[..i + 1 - start] == Values(u);
  }

  // A C string ends at its first NUL.
  function CString(s: string): string {
    if s == "" || s[0] == '\0' then "" else [s[0]] + CString(s[1..])
  }

  method Decode(text: string) returns (ok: bool, vch: seq<nat>, ghost t: string)
    ensures ok <==> exists u :: Trims(CString(text), u) && Letters(u)
    ensures ok ==> Trims(CString(text), t) && Same(vch, t) && Digits(vch, 256)
  {
    hide Num, Pow, Rank, CString, Letters, Trims, Same, Values, NoLead, Digits, Repeat, Used;
    var s := CString(text);
    vch, t := [], "";
    var i := SkipSpaces(s, 0);
    ghost var first := i;
    var zeroes := 0;
    while i < |s| && s[i] == '1'
      invariant first <= i <= |s| && i == first + zeroes && forall k :: first <= k < i ==> s[k] == '1'
    {
      zeroes, i := zeroes + 1, i + 1;
    }
    var start := i;
    var size := (|s| - i) * 733 / 1000 + 1;
    var b256 := Zeroed(size, 256);
    BuffersSuffice(|s| - i);
    var length;
    ok, i, length := ReadLetters(s, start, b256);
    if !ok {
      BadLetter(s, i);
      return;
    }
    var end := i;
    i := SkipSpaces(s, i);
    t := s[first..end];
    Ones(s, first, start, end);
    if i != |s| {
      BadTail(s, first, end, i);
      return false, vch, t;
    }
    assert s[end..] == s[end..i] && s[..first] == s[0..first];
    Outside(s, first, end);
    var rest := Stripped(b256, length, 256);
    vch := Repeat(0, zeroes) + rest;
    WholeResult(vch, t, zeroes, rest, s[start..end]);
  }

  lemma WholeResult(v: seq<nat>, t: string, z: nat, r: seq<nat>, d: string)
    requires v == Repeat(0, z) + r && t == Repeat('1', z) + d && NoLead(r) && Digits(r, 256) && Letters(d) && NoLead(Values(d))
    requires Num(r, 256) == Num(Values(d), 58)
    ensures Same(v, t) && Digits(v, 256)
  {
    hide Num, Letters, Values, NoLead;
    assert Parts(v, t, z, r, d);
  }

  lemma InsideTrim(s: string, u: string, a: string, b: string, i: nat)
    requires s == a + u + b && AllSpaces(a) && AllSpaces(b) && i < |s| && !IsSpace(s[i])
    ensures |a| <= i < |a| + |u| && s[i] == u[i - |a|]
  {
    WhichPart(a, u, b, i);
  }

  lemma WhichPart(a: string, u: string, b: string, i: nat)
    requires i < |a + u + b|
    ensures (a + u + b)[i] == if i < |a| then a[i] else if i < |a| + |u| then u[i - |a|] else b[i - |a| - |u|]
  {
  }

  lemma BadLetter(s: string, i: nat)
    requires i < |s| && !IsSpace(s[i]) && !IsLetter(s[i])
    ensures !exists u :: Trims(s, u) && Letters(u)
  {
    hide Rank;
    forall u | Trims(s, u) ensures !Letters(u) {
      var a, b :| s == a + u + b && AllSpaces(a) && AllSpaces(b) && forall k :: 0 <= k < |u| ==> !IsSpace(u[k]);
      InsideTrim(s, u, a, b, i);
    }
  }

  lemma BadTail(s: string, p: nat, q: nat, r: nat)
    requires p < q < r < |s| && !IsSpace(s[p]) && IsSpace(s[q]) && !IsSpace(s[r])
    ensures !exists u :: Trims(s, u) && Letters(u)
  {
    hide Rank;
    forall u | Letters(u) ensures !Trims(s, u) {
      forall a, b | s == a + u + b && AllSpaces(a) && AllSpaces(b) ensures exists k :: 0 <= k < |u| && IsSpace(u[k]) {
        InsideTrim(s, u, a, b, p);
        InsideTrim(s, u, a, b, r);
        assert u[q - |a|] == s[q];
      }
    }
  }

  lemma Outside(s: string, first: nat, end: nat)
    requires first <= end <= |s| && AllSpaces(s[..first]) && AllSpaces(s[end..]) && Letters(s[first..end])
    ensures Trims(s, s[first..end])
  {
    hide Letters;
    LettersNoSpaces(s[first..end]);
    assert s == s[..first] + s[first..end] + s[end..];
  }

  lemma Ones(s: string, first: nat, start: nat, end: nat)
    requires first <= start <= end <= |s| && (forall k :: first <= k < start ==> s[k] == '1') && Letters(s[start..end])
    requires start < |s| ==> s[start] != '1'
    ensures s[first..end] == Repeat('1', start - first) + s[start..end] && Letters(s[first..end]) && NoLead(Values(s[start..end]))
  {
    assert IsLetter('1');
    assert s[first..start] == Repeat('1', start - first);
    assert s[first..end] == s[first..start] + s[start..end];
    if start < end {
      NotOne(s[start]);
    }
  }

  lemma NotOne(c: char)
    requires c != '1'
    ensures Rank(c) != 0
  {
  }

  // --- The bijection ---

  /** Decoding an encoded vector gives it back. */
  method EncodeThenDecode(v: seq<nat>) returns (ok: bool, v': seq<nat>)
    requires Digits(v, 256)
    ensures ok && v' == v
  {
    hide Same, Letters;
    var str := Encode(v);
    EncodedIsPlain(v, str);
    ghost var t;
    ok, v', t := Decode(str);
    TrimsSelf(str, t);
    OneVector(v, v', str);
  }

  /** Encoding what was decoded gives the text without the surrounding whitespace. */
  method DecodeThenEncode(text: string) returns (ok: bool, str: string)
    ensures ok <==> exists u :: Trims(CString(text), u) && Letters(u)
    ensures ok ==> Trims(CString(text), str)
  {
    hide Same, Letters, Trims;
    var v;
    ghost var t;
    ok, v, t := Decode(text);
    str := "";
    if ok {
      str := Encode(v);
      OneString(v, str, t);
    }
  }

  lemma EncodedIsPlain(v: seq<nat>, str: string)
    requires Same(v, str)
    ensures Letters(str) && CString(str) == str && Trims(str, str)
  {
    var z, r, d :| Parts(v, str, z, r, d);
    assert Letters(str) by {
      assert IsLetter('1');
    }
    LettersNoNul(str);
    LettersNoSpaces(str);
    TrimsPlain(str);
  }

  lemma TrimsPlain(t: string)
    requires forall i :: 0 <= i < |t| ==> !IsSpace(t[i])
    ensures Trims(t, t)
  {
    var none := "";
    assert t == none + t + none && AllSpaces(none);
  }

  lemma {:induction false} LettersNoNul(t: string)
    requires Letters(t)
    ensures CString(t) == t
  {
    if t != "" {
      assert IsLetter(t[0]);
      LettersNoNul(t[1..]);
    }
  }

  lemma TrimsSelf(s: string, t: string)
    requires Letters(s) && Trims(s, t)
    ensures s == t
  {
    LettersNoSpaces(s);
    hide Letters;
    var a, b :| s == a + t + b && AllSpaces(a) && AllSpaces(b) && forall i :: 0 <= i < |t| ==> !IsSpace(t[i]);
    if s != "" {
      WhichPart(a, t, b, 0);
      WhichPart(a, t, b, |s| - 1);
    }
  }
}
