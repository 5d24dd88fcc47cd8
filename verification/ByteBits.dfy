/** Single bits of bytes and of byte strings. */
module ByteBits {
  function Mask(k: nat): bv8
    requires k < 8
  {
    if k == 0 then 1 else if k == 1 then 2 else if k == 2 then 4 else if k == 3 then 8
    else if k == 4 then 16 else if k == 5 then 32 else if k == 6 then 64 else 128
  }

  function And(a: bv8, b: bv8): bv8 { a & b }

  function Or(a: bv8, b: bv8): bv8 { a | b }

  function Except(a: bv8, b: bv8): bv8 { a & (0xff ^ b) }

  predicate Bit(b: bv8, k: nat)
    requires k < 8
  {
    And(b, Mask(k)) != 0
  }

  function WithBit(b: bv8, k: nat): bv8
    requires k < 8
  {
    Or(b, Mask(k))
  }

  function WithoutBit(b: bv8, k: nat): bv8
    requires k < 8
  {
    Except(b, Mask(k))
  }

  lemma MasksMeet(j: nat, k: nat)
    requires j < 8 && k < 8
    ensures And(Mask(j), Mask(k)) == if j == k then Mask(k) else 0
    ensures Mask(k) != 0
  {
  }

  lemma OrLaw(a: bv8, x: bv8, y: bv8)
    ensures And(Or(a, x), y) == Or(And(a, y), And(x, y))
  {
  }

  lemma ExceptLaw(a: bv8, x: bv8, y: bv8)
    ensures And(x, y) == 0 ==> And(Except(a, x), y) == And(a, y)
    ensures And(Except(a, x), x) == 0
  {
  }

  lemma UnitLaw(a: bv8, x: bv8)
    ensures And(0xff, a) == a && Or(a, 0) == a && (x != 0 ==> Or(a, x) != 0)
  {
  }

  lemma OneBit(b: bv8, j: nat, k: nat)
    requires j < 8 && k < 8
    ensures Bit(WithBit(b, j), k) <==> k == j || Bit(b, k)
    ensures Bit(WithoutBit(b, j), k) <==> k != j && Bit(b, k)
    ensures Bit(0xff, k)
  {
    hide Mask, And, Or, Except;
    MasksMeet(j, k);
    OrLaw(b, Mask(j), Mask(k));
    ExceptLaw(b, Mask(j), Mask(k));
    UnitLaw(Mask(k), 0);
    UnitLaw(And(b, Mask(k)), Mask(k));
  }

  // Bit p of a byte string, least significant bit first.
  predicate BitAt(bytes: seq<bv8>, p: nat)
    requires p < 8 * |bytes|
  {
    Bit(bytes[p / 8], p % 8)
  }

  lemma SameBit(p: nat, q: nat)
    ensures p == q <==> p / 8 == q / 8 && p % 8 == q % 8
  {
  }
}
