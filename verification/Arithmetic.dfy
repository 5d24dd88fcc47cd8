/** Facts of multiplication and division. */
module Arithmetic {
  lemma MulMono(a: int, b: int, c: nat)
    requires a <= b
    ensures a * c <= b * c
  {
  }

  lemma Dist(a: int, b: int, c: int)
    ensures (a + b) * c == a * c + b * c && (a - b) * c == a * c - b * c
  {
  }

  lemma Assoc(a: int, b: int, c: int)
    ensures a * (b * c) == (a * b) * c == (a * c) * b
  {
  }

  lemma Comm(a: int, b: int)
    ensures a * b == b * a
  {
  }

  lemma DivUnique(x: int, d: nat, q: int, r: int)
    requires d >= 1 && 0 <= r < d && x == q * d + r
    ensures x / d == q && x % d == r
  {
    var q', r' := x / d, x % d;
    Dist(q', q, d);
    if q' > q {
      MulMono(1, q' - q, d);
    } else if q' < q {
      MulMono(1, q - q', d);
      Dist(q, q', d);
    }
  }

  // A number below p that differs from t by a multiple of p is t modulo p.
  lemma Wrapped(x: nat, c: int, p: nat, t: int)
    requires x < p && x + c * p == t
    ensures x == t % p
  {
    DivUnique(t, p, c, x);
  }

  lemma ModAdd(x: int, c: int, p: nat)
    requires p >= 1
    ensures (x + c * p) % p == x % p
  {
    var q, r := x / p, x % p;
    Dist(q, c, p);
    DivUnique(x + c * p, p, q + c, r);
  }

  lemma StrictMono(a: int, b: int, c: nat)
    requires a < b && c >= 1
    ensures a * c < b * c
  {
    MulMono(a + 1, b, c);
    Dist(a, 1, c);
  }

  lemma Quotient(x: nat, d: nat)
    requires d >= 1
    ensures 0 <= x / d <= x
  {
    MulMono(1, d, x / d);
  }

  lemma Doubled(a: nat, b: nat)
    ensures 2 * (a * b) == (2 * a) * b == a * (2 * b)
  {
  }
}
