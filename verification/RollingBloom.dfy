/** The rolling bloom filter: a bloom filter that forgets, a generation at a time. */
module RollingBloom {
  import opened Arithmetic

  type Key = seq<nat>

  // --- Words ---

  predicate Bit(w: bv64, b: bv6) { (w >> b) & 1 == 1 }

  function And(a: bv64, b: bv64): bv64 { a & b }

  function Or(a: bv64, b: bv64): bv64 { a | b }

  function Xor(a: bv64, b: bv64): bv64 { a ^ b }

  // The value v at bit b.
  function Only(b: bv6, v: bool): bv64 { (if v then 1 as bv64 else 0) << b }

  // Everything but bit b.
  function AllBut(b: bv6): bv64 { !((1 as bv64) << b) }

  // All ones or all zeros.
  function Spread(v: bool): bv64 { 0 - (if v then 1 as bv64 else 0) }

  lemma AndBit(a: bv64, b: bv64, k: bv6)
    ensures Bit(And(a, b), k) <==> Bit(a, k) && Bit(b, k)
  {
  }

  function Not(a: bv64): bv64 { !a }

  lemma NotBit(a: bv64, k: bv6)
    ensures Bit(Not(a), k) <==> !Bit(a, k)
  {
  }

  lemma ByAndNot(a: bv64, b: bv64)
    ensures Or(a, b) == Not(And(Not(a), Not(b)))
    ensures Xor(a, b) == And(Not(And(a, b)), Not(And(Not(a), Not(b))))
  {
  }

  lemma OrBit(a: bv64, b: bv64, k: bv6)
    ensures Bit(Or(a, b), k) <==> Bit(a, k) || Bit(b, k)
  {
    hide Bit, And, Or, Not;
    ByAndNot(a, b);
    NotBit(a, k);
    NotBit(b, k);
    AndBit(Not(a), Not(b), k);
    NotBit(And(Not(a), Not(b)), k);
  }

  lemma XorBit(a: bv64, b: bv64, k: bv6)
    ensures Bit(Xor(a, b), k) <==> Bit(a, k) != Bit(b, k)
  {
    hide Bit, And, Or, Not, Xor;
    ByAndNot(a, b);
    OrBit(a, b, k);
    AndBit(a, b, k);
    NotBit(And(a, b), k);
    AndBit(Not(And(a, b)), Not(And(Not(a), Not(b))), k);
  }

  lemma OnlyBit(b: bv6, v: bool, k: bv6)
    ensures Bit(Only(b, v), k) <==> v && k == b
    ensures Bit(AllBut(b), k) <==> k != b
  {
  }

  lemma SpreadBit(v: bool, k: bv6)
    ensures Bit(Spread(v), k) == v
  {
  }

  // Bit b of w replaced by v.
  function Put(w: bv64, b: bv6, v: bool): bv64 {
    Or(And(w, AllBut(b)), Only(b, v))
  }

  lemma PutBit(w: bv64, b: bv6, v: bool, k: bv6)
    ensures Bit(Put(w, b, v), k) <==> if k == b then v else Bit(w, k)
  {
    hide Bit, And, Or, AllBut, Only;
    OnlyBit(b, v, k);
    AndBit(w, AllBut(b), k);
    OrBit(And(w, AllBut(b)), Only(b, v), k);
  }

  function WipeMask(p1: bv64, p2: bv64, g1: bool, g2: bool): bv64 {
    Or(Xor(p1, Spread(g1)), Xor(p2, Spread(g2)))
  }

  lemma WipeBit(p1: bv64, p2: bv64, g1: bool, g2: bool, k: bv6)
    ensures var keep := !(Bit(p1, k) == g1 && Bit(p2, k) == g2);
            var mask := WipeMask(p1, p2, g1, g2);
            (Bit(And(p1, mask), k) <==> Bit(p1, k) && keep) && (Bit(And(p2, mask), k) <==> Bit(p2, k) && keep)
  {
    hide Bit, And, Or, Xor, Spread;
    SpreadBit(g1, k);
    SpreadBit(g2, k);
    XorBit(p1, Spread(g1), k);
    XorBit(p2, Spread(g2), k);
    OrBit(Xor(p1, Spread(g1)), Xor(p2, Spread(g2)), k);
    AndBit(p1, WipeMask(p1, p2, g1, g2), k);
    AndBit(p2, WipeMask(p1, p2, g1, g2), k);
  }

  // --- Cells ---

  // Two bits, in two neighbouring words, make a cell.
  datatype Cell = Cell(word: nat, bit: bv6)

  predicate Even(data: seq<bv64>) { |data| % 2 == 0 && |data| > 0 }

  predicate InData(data: seq<bv64>, c: Cell) { 2 * c.word + 1 < |data| }

  // The generation a cell was set in, or zero.
  function Value(data: seq<bv64>, c: Cell): (v: nat)
    requires InData(data, c)
    ensures v <= 3
  {
    (if Bit(data[2 * c.word], c.bit) then 1 else 0) + (if Bit(data[2 * c.word + 1], c.bit) then 2 else 0)
  }

  function CellOf(h: bv32, size: nat): (c: Cell)
    requires size > 0 && size % 2 == 0
    ensures 2 * c.word + 1 < size
  {
    var pos := ((h >> 6) as nat) % size;
    Cell(pos / 2, (h & 0x3f) as bv6)
  }

  // Generation numbers go round from 1 to 3.
  function Code(g: nat): nat {
    if g == 0 then 0 else (g - 1) % 3 + 1
  }

  lemma CodeOnce(a: nat, g: nat)
    requires 1 <= a <= g <= a + 3
    ensures Code(a) == Code(g) <==> a == g || a + 3 == g
    ensures 1 <= Code(a) <= 3
    ensures Code(g + 1) == if Code(g) + 1 == 4 then 1 else Code(g) + 1
  {
  }

  // The generations, counted without wrapping, behind the cells. Anything older than the last three is gone.
  type When = map<Cell, nat>

  function At(when: When, c: Cell): nat { if c in when then when[c] else 0 }

  ghost predicate Tracks(data: seq<bv64>, when: When, g: nat) {
    forall c :: InData(data, c) ==> Value(data, c) == Code(At(when, c)) && (At(when, c) == 0 || g <= At(when, c) + 2) && At(when, c) <= g
  }

  // --- Wiping ---

  ghost predicate Wiped(data: seq<bv64>, data': seq<bv64>, n: nat) {
    && |data'| == |data|
    && forall c :: InData(data, c) ==> Value(data', c) == if Value(data, c) == n then 0 else Value(data, c)
  }

  function WipedPair(p1: bv64, p2: bv64, n: nat): (bv64, bv64) {
    var mask := WipeMask(p1, p2, n % 2 == 1, n / 2 == 1);
    (And(p1, mask), And(p2, mask))
  }

  ghost predicate WipedUpto(data: seq<bv64>, data': seq<bv64>, n: nat, p: nat) {
    && |data'| == |data|
    && (forall i :: p <= i < |data| ==> data'[i] == data[i])
    && forall c :: InData(data, c) && 2 * c.word < p ==> Value(data', c) == if Value(data, c) == n then 0 else Value(data, c)
  }

  lemma WipeNext(data: seq<bv64>, data': seq<bv64>, n: nat, p: nat)
    requires 1 <= n <= 3 && WipedUpto(data, data', n, p) && p % 2 == 0 && p + 1 < |data|
    ensures var pair := WipedPair(data'[p], data'[p + 1], n);
            WipedUpto(data, data'[p := pair.0][p + 1 := pair.1], n, p + 2)
  {
    hide Bit, WipeMask, And;
    var pair := WipedPair(data'[p], data'[p + 1], n);
    var data'' := data'[p := pair.0][p + 1 := pair.1];
    forall c | InData(data, c) && 2 * c.word < p + 2
      ensures Value(data'', c) == if Value(data, c) == n then 0 else Value(data, c)
    {
      if 2 * c.word == p {
        WipeBit(data[p], data[p + 1], n % 2 == 1, n / 2 == 1, c.bit);
      } else {
        assert Value(data'', c) == Value(data', c);
      }
    }
  }

  method Wipe(data: seq<bv64>, n: nat) returns (data': seq<bv64>)
    requires Even(data) && 1 <= n <= 3
    ensures Wiped(data, data', n)
  {
    hide WipedPair, Value;
    data' := data;
    var p := 0;
    while p < |data|
      invariant p <= |data| && p % 2 == 0 && WipedUpto(data, data', n, p)
    {
      WipeNext(data, data', n, p);
      var (a, b) := WipedPair(data'[p], data'[p + 1], n);
      data' := data'[p := a][p + 1 := b];
      p := p + 2;
    }
  }

  // Forget the cells of generation g.
  ghost function Without(when: When, g: int): When {
    map c | c in when && when[c] != g :: when[c]
  }

  // Starting generation g + 1 forgets exactly generation g - 2.
  lemma WipeTracks(data: seq<bv64>, data': seq<bv64>, when: When, g: nat)
    requires g >= 1 && Tracks(data, when, g) && Wiped(data, data', Code(g + 1))
    ensures Tracks(data', Without(when, g - 2), g + 1)
  {
    hide Value, Code;
    forall c | InData(data', c)
      ensures Value(data', c) == Code(At(Without(when, g - 2), c))
      ensures (At(Without(when, g - 2), c) == 0 || g <= At(Without(when, g - 2), c) + 1) && At(Without(when, g - 2), c) <= g + 1
    {
      WipeOne(data, data', when, g, c);
    }
  }

  lemma WipeOne(data: seq<bv64>, data': seq<bv64>, when: When, g: nat, c: Cell)
    requires g >= 1 && Tracks(data, when, g) && Wiped(data, data', Code(g + 1)) && InData(data, c)
    ensures var a := At(Without(when, g - 2), c); Value(data', c) == Code(a) && (a == 0 || g <= a + 1) && a <= g + 1
  {
    hide Value;
    var a := At(when, c);
    if a != 0 {
      CodeOnce(a, g + 1);
    }
  }

  // --- Setting a cell ---

  function Mark(data: seq<bv64>, c: Cell, n: nat): (r: seq<bv64>)
    requires InData(data, c)
    ensures |r| == |data|
  {
    var w := 2 * c.word;
    data[w := Put(data[w], c.bit, n % 2 == 1)][w + 1 := Put(data[w + 1], c.bit, n / 2 == 1)]
  }

  lemma MarkOne(data: seq<bv64>, c: Cell, n: nat, d: Cell)
    requires InData(data, c) && InData(data, d) && 1 <= n <= 3
    ensures Value(Mark(data, c, n), d) == if d == c then n else Value(data, d)
  {
    hide Bit, Put;
    if d.word == c.word {
      PutBit(data[2 * c.word], c.bit, n % 2 == 1, d.bit);
      PutBit(data[2 * c.word + 1], c.bit, n / 2 == 1, d.bit);
    }
  }

  lemma MarkTracks(data: seq<bv64>, when: When, g: nat, c: Cell)
    requires g >= 1 && Tracks(data, when, g) && InData(data, c)
    ensures Tracks(Mark(data, c, Code(g)), when[c := g], g)
  {
    hide Value, Mark, Code;
    CodeOnce(g, g);
    var data', when' := Mark(data, c, Code(g)), when[c := g];
    forall d | InData(data', d)
      ensures Value(data', d) == Code(At(when', d)) && (At(when', d) == 0 || g <= At(when', d) + 2) && At(when', d) <= g
    {
      MarkOne(data, c, Code(g), d);
      assert InData(data, d);
    }
  }

  // --- Keys ---

  // The filter's fixed parameters: half the elements to remember, rounded up, and the cell of each hash of a key.
  datatype Params = Params(perGeneration: nat, nHashFuncs: nat, size: nat, murmur: (nat, nat, Key) -> bv32, nTweak: nat)

  predicate Good(p: Params) { p.perGeneration >= 1 && p.size > 0 && p.size % 2 == 0 }

  function CellFor(p: Params, key: Key, n: nat): (c: Cell)
    requires Good(p)
    ensures 2 * c.word + 1 < p.size
  {
    CellOf(p.murmur(n, p.nTweak, key), p.size)
  }

  // The generation the j-th key was inserted in.
  function Born(p: Params, j: nat): nat
    requires Good(p)
  {
    j / p.perGeneration + 1
  }

  // The cells of a key of the last three generations are at least as recent as the key.
  ghost predicate Remembered(p: Params, when: When, keys: seq<Key>, g: nat)
    requires Good(p)
  {
    forall j, n :: 0 <= j < |keys| && 0 <= n < p.nHashFuncs && Born(p, j) + 2 >= g ==>
      At(when, CellFor(p, keys[j], n)) >= Born(p, j)
  }

  // The cell belongs to a key inserted in that generation.
  ghost predicate OwnedBy(p: Params, keys: seq<Key>, c: Cell, born: nat)
    requires Good(p)
  {
    exists j, n :: 0 <= j < |keys| && 0 <= n < p.nHashFuncs && CellFor(p, keys[j], n) == c && Born(p, j) == born
  }

  ghost predicate Owned(p: Params, when: When, keys: seq<Key>)
    requires Good(p)
  {
    forall c :: c in when && when[c] > 0 ==> OwnedBy(p, keys, c, when[c])
  }

  lemma OwnedMore(p: Params, when: When, keys: seq<Key>, key: Key)
    requires Good(p) && Owned(p, when, keys)
    ensures Owned(p, when, keys + [key])
  {
    hide CellFor, Born;
    forall c | c in when && when[c] > 0 ensures OwnedBy(p, keys + [key], c, when[c]) {
      assert OwnedBy(p, keys, c, when[c]);
      var j, n :| 0 <= j < |keys| && 0 <= n < p.nHashFuncs && CellFor(p, keys[j], n) == c && Born(p, j) == when[c];
      assert (keys + [key])[j] == keys[j];
    }
  }

  lemma OwnedMark(p: Params, when: When, keys: seq<Key>, key: Key, n: nat, g: nat)
    requires Good(p) && Owned(p, when, keys + [key]) && n < p.nHashFuncs && Born(p, |keys|) == g
    ensures Owned(p, when[CellFor(p, key, n) := g], keys + [key])
  {
    hide CellFor, Born;
    assert (keys + [key])[|keys|] == key;
    assert OwnedBy(p, keys + [key], CellFor(p, key, n), g);
  }

  lemma OwnedLess(p: Params, when: When, keys: seq<Key>, g: int)
    requires Good(p) && Owned(p, when, keys)
    ensures Owned(p, Without(when, g), keys)
  {
    hide OwnedBy;
  }

  datatype State = State(data: seq<bv64>, nGeneration: nat, nEntries: nat)

  ghost predicate Inv(p: Params, s: State, when: When, keys: seq<Key>, g: nat) {
    && Good(p) && |s.data| == p.size && g >= 1 && s.nGeneration == Code(g) && s.nEntries <= p.perGeneration
    && |keys| == (g - 1) * p.perGeneration + s.nEntries
    && Tracks(s.data, when, g) && Remembered(p, when, keys, g) && Owned(p, when, keys)
  }

  lemma BornNow(p: Params, j: nat, g: nat, entries: nat)
    requires Good(p) && g >= 1 && j == (g - 1) * p.perGeneration + entries && entries < p.perGeneration
    ensures Born(p, j) == g
  {
    DivUnique(j, p.perGeneration, g - 1, entries);
  }

  lemma BornLate(p: Params, j: nat, g: int)
    requires Good(p) && (g - 3) * p.perGeneration <= j
    ensures Born(p, j) + 2 >= g
  {
    var q, r := j / p.perGeneration, j % p.perGeneration;
    assert j == q * p.perGeneration + r;
    if q + 1 <= g - 3 {
      MulMono(q + 1, g - 3, p.perGeneration);
      Dist(q, 1, p.perGeneration);
    }
  }

  // The next generation starts.
  lemma NextGeneration(p: Params, s: State, data': seq<bv64>, when: When, keys: seq<Key>, g: nat)
    requires Inv(p, s, when, keys, g) && s.nEntries == p.perGeneration && Wiped(s.data, data', Code(g + 1))
    ensures Inv(p, State(data', Code(g + 1), 0), Without(when, g - 2), keys, g + 1)
  {
    hide Code, Tracks, Wiped, CellFor, Born, Owned;
    OwnedLess(p, when, keys, g - 2);
    WipeTracks(s.data, data', when, g);
    assert g * p.perGeneration == (g - 1) * p.perGeneration + p.perGeneration;
    WipeLength(s.data, data', Code(g + 1));
    forall j, n | 0 <= j < |keys| && 0 <= n < p.nHashFuncs && Born(p, j) + 2 >= g + 1
      ensures At(Without(when, g - 2), CellFor(p, keys[j], n)) >= Born(p, j)
    {
      assert At(when, CellFor(p, keys[j], n)) >= Born(p, j);
    }
  }

  lemma WipeLength(data: seq<bv64>, data': seq<bv64>, n: nat)
    requires Wiped(data, data', n)
    ensures |data'| == |data|
  {
  }

  // While the new key's cells are being marked.
  ghost predicate Marking(p: Params, s: State, when: When, keys: seq<Key>, g: nat, key: Key, n: nat) {
    && Good(p) && |s.data| == p.size && g >= 1 && s.nGeneration == Code(g) && s.nEntries <= p.perGeneration
    && Tracks(s.data, when, g) && Remembered(p, when, keys, g)
    && Owned(p, when, keys + [key]) && Born(p, |keys|) == g
    && forall i :: 0 <= i < n ==> At(when, CellFor(p, key, i)) == g
  }

  lemma MarkNext(p: Params, s: State, when: When, keys: seq<Key>, g: nat, key: Key, n: nat)
    requires Marking(p, s, when, keys, g, key, n) && n < p.nHashFuncs
    ensures var c := CellFor(p, key, n);
            Marking(p, s.(data := Mark(s.data, c, s.nGeneration)), when[c := g], keys, g, key, n + 1)
  {
    hide Tracks, Code, Mark, CellFor, Born, Owned;
    OwnedMark(p, when, keys, key, n, g);
    var c := CellFor(p, key, n);
    MarkTracks(s.data, when, g, c);
    forall j, i | 0 <= j < |keys| && 0 <= i < p.nHashFuncs && Born(p, j) + 2 >= g
      ensures At(when[c := g], CellFor(p, keys[j], i)) >= Born(p, j)
    {
      NotLater(p, s.data, when, g, CellFor(p, keys[j], i));
    }
  }

  lemma NotLater(p: Params, data: seq<bv64>, when: When, g: nat, c: Cell)
    requires Tracks(data, when, g) && InData(data, c)
    ensures At(when, c) <= g
  {
  }

  lemma Inserted(p: Params, s: State, when: When, keys: seq<Key>, g: nat, key: Key, entries: nat)
    requires Marking(p, s, when, keys, g, key, p.nHashFuncs) && s.nEntries == entries + 1
    requires |keys| == (g - 1) * p.perGeneration + entries
    ensures Inv(p, s, when, keys + [key], g)
  {
    hide Tracks, Code, CellFor, Born, Owned;
    BornNow(p, |keys|, g, entries);
  }

  /** Every key of the last two generations and the current one is still there. */
  lemma StillThere(p: Params, s: State, when: When, keys: seq<Key>, g: nat, j: nat, n: nat)
    requires Inv(p, s, when, keys, g) && j < |keys| && |keys| <= j + 2 * p.perGeneration + s.nEntries && n < p.nHashFuncs
    ensures Value(s.data, CellFor(p, keys[j], n)) != 0
  {
    hide Value, CellFor;
    assert (g - 3) * p.perGeneration == (g - 1) * p.perGeneration - 2 * p.perGeneration;
    BornLate(p, j, g);
    assert At(when, CellFor(p, keys[j], n)) >= Born(p, j);
  }

  // The cell belongs to one of the keys of the last two generations and the current one.
  ghost predicate Recent(p: Params, keys: seq<Key>, entries: nat, c: Cell)
    requires Good(p)
  {
    exists j, n :: 0 <= j < |keys| && |keys| <= j + 2 * p.perGeneration + entries && 0 <= n < p.nHashFuncs && CellFor(p, keys[j], n) == c
  }

  /** Everything else is forgotten: a cell is set exactly if it belongs to one of those keys. */
  lemma SetIffRecent(p: Params, s: State, when: When, keys: seq<Key>, g: nat, c: Cell)
    requires Inv(p, s, when, keys, g) && InData(s.data, c)
    ensures Value(s.data, c) != 0 <==> Recent(p, keys, s.nEntries, c)
  {
    hide Value, CellFor, Born, Remembered;
    if Recent(p, keys, s.nEntries, c) {
      var j, n :| 0 <= j < |keys| && |keys| <= j + 2 * p.perGeneration + s.nEntries && 0 <= n < p.nHashFuncs && CellFor(p, keys[j], n) == c;
      StillThere(p, s, when, keys, g, j, n);
    }
    if Value(s.data, c) != 0 {
      assert c in when && when[c] > 0 && OwnedBy(p, keys, c, when[c]);
      var j, n :| 0 <= j < |keys| && 0 <= n < p.nHashFuncs && CellFor(p, keys[j], n) == c && Born(p, j) == when[c];
      BornSince(p, j, g);
      assert (g - 3) * p.perGeneration == (g - 1) * p.perGeneration - 2 * p.perGeneration;
    }
  }

  lemma BornSince(p: Params, j: nat, g: int)
    requires Good(p) && Born(p, j) + 2 >= g
    ensures (g - 3) * p.perGeneration <= j
  {
    var q, r := j / p.perGeneration, j % p.perGeneration;
    assert j == q * p.perGeneration + r;
    MulMono(g - 3, q, p.perGeneration);
  }

  // --- The filter ---

  class RollingBloomFilter {
    const nElements: nat
    const size: nat
    const nHashFuncs: nat
    const murmur: (nat, nat, Key) -> bv32
    var nTweak: nat
    var data: seq<bv64>
    var nGeneration: nat
    var nEntriesThisGeneration: nat
    // Everything inserted since the last reset.
    ghost var keys: seq<Key>
    ghost var when: When
    ghost var generation: nat

    ghost function P(): Params
      reads this
    {
      Params((nElements + 1) / 2, nHashFuncs, size, murmur, nTweak)
    }

    ghost function Current(): State
      reads this
    {
      State(data, nGeneration, nEntriesThisGeneration)
    }

    ghost predicate Valid()
      reads this
    {
      Inv(P(), Current(), when, keys, generation)
    }

    constructor (elements: nat, words: nat, hashFuncs: nat, hash: (nat, nat, Key) -> bv32, tweak: nat)
      requires elements >= 1 && words >= 1
      ensures Valid() && keys == [] && nElements == elements
    {
      nElements, size, nHashFuncs, murmur := elements, 2 * words, hashFuncs, hash;
      nTweak, data, nGeneration, nEntriesThisGeneration := tweak, seq(2 * words, i => 0 as bv64), 1, 0;
      keys, when, generation := [], map[], 1;
      new;
      Blank(data);
    }

    method Reset(tweak: nat)
      requires Valid()
      modifies this
      ensures Valid() && keys == []
    {
      nTweak, nEntriesThisGeneration, nGeneration := tweak, 0, 1;
      data := seq(|data|, i => 0 as bv64);
      keys, when, generation := [], map[], 1;
      Blank(data);
    }

    method Insert(vKey: Key)
      requires Valid()
      modifies this
      ensures Valid() && keys == old(keys) + [vKey] && nTweak == old(nTweak)
    {
      hide Inv, Marking;
      InvFacts(P(), Current(), when, keys, generation);
      if nEntriesThisGeneration == (nElements + 1) / 2 {
        StartGeneration();
      }
      MarkAll(vKey);
    }

    // Count the generation up and wipe what used its number before.
    method StartGeneration()
      requires Valid() && nEntriesThisGeneration == (nElements + 1) / 2
      modifies this`nEntriesThisGeneration, this`nGeneration, this`data, this`when, this`generation
      ensures Valid() && nEntriesThisGeneration == 0
    {
      hide Inv, Wiped;
      InvFacts(P(), Current(), when, keys, generation);
      ghost var s := Current();
      nEntriesThisGeneration := 0;
      CodeOnce(generation, generation);
      nGeneration := if nGeneration + 1 == 4 then 1 else nGeneration + 1;
      var data' := Wipe(data, nGeneration);
      NextGeneration(P(), s, data', when, keys, generation);
      data := data';
      when, generation := Without(when, generation - 2), generation + 1;
    }

    method MarkAll(vKey: Key)
      requires Valid() && nEntriesThisGeneration < (nElements + 1) / 2
      modifies this`nEntriesThisGeneration, this`data, this`when, this`keys
      ensures Valid() && keys == old(keys) + [vKey]
    {
      hide Inv, Marking, Mark, CellFor;
      InvFacts(P(), Current(), when, keys, generation);
      ghost var p := P();
      ghost var g := generation;
      ghost var entries := nEntriesThisGeneration;
      StartMarking(p, Current(), when, keys, g, vKey);
      nEntriesThisGeneration := nEntriesThisGeneration + 1;
      for n := 0 to nHashFuncs
        invariant Marking(p, Current(), when, keys, g, vKey, n)
        invariant keys == old(keys) && nEntriesThisGeneration == entries + 1
      {
        MarkNext(p, Current(), when, keys, g, vKey, n);
        MarkingFacts(p, Current(), when, keys, g, vKey, n);
        CellIs(p, vKey, n);
        var c := CellOf(murmur(n, nTweak, vKey), size);
        data := Mark(data, c, nGeneration);
        when := when[c := g];
      }
      Inserted(p, Current(), when, keys, g, vKey, entries);
      keys := keys + [vKey];
    }

    // Whatever else it answers, the filter contains the last nElements keys, and more.
    method Contains(vKey: Key) returns (found: bool)
      requires Valid()
      ensures forall j :: 0 <= j < |keys| && |keys| <= j + nElements + nEntriesThisGeneration && keys[j] == vKey ==> found
      ensures Good(P()) && (found <==> forall n :: 0 <= n < nHashFuncs ==> Recent(P(), keys, nEntriesThisGeneration, CellFor(P(), vKey, n)))
    {
      hide Inv, CellFor, Value, Bit, Or, Recent;
      InvFacts(P(), Current(), when, keys, generation);
      ghost var p := P();
      found := true;
      var n := 0;
      while n < nHashFuncs && found
        invariant n <= nHashFuncs
        invariant found <==> forall k :: 0 <= k < n ==> Value(data, CellFor(p, vKey, k)) != 0
        decreases nHashFuncs - n
      {
        CellIs(p, vKey, n);
        var c := CellOf(murmur(n, nTweak, vKey), size);
        EitherBit(data, c);
        if !Bit(Or(data[2 * c.word], data[2 * c.word + 1]), c.bit) {
          found := false;
        }
        n := n + 1;
      }
      forall j, k | 0 <= j < |keys| && |keys| <= j + nElements + nEntriesThisGeneration && keys[j] == vKey && 0 <= k < nHashFuncs
        ensures Value(data, CellFor(p, vKey, k)) != 0
      {
        StillThere(p, Current(), when, keys, generation, j, k);
      }
      forall k | 0 <= k < nHashFuncs
        ensures Value(data, CellFor(p, vKey, k)) != 0 <==> Recent(p, keys, nEntriesThisGeneration, CellFor(p, vKey, k))
      {
        SetIffRecent(p, Current(), when, keys, generation, CellFor(p, vKey, k));
      }
    }
  }

  lemma CellIs(p: Params, key: Key, n: nat)
    requires Good(p)
    ensures CellFor(p, key, n) == CellOf(p.murmur(n, p.nTweak, key), p.size)
  {
  }

  lemma Blank(data: seq<bv64>)
    requires forall i :: 0 <= i < |data| ==> data[i] == 0
    ensures Tracks(data, map[], 1)
  {
    forall c | InData(data, c) ensures Value(data, c) == 0 {
      ZeroBit(c.bit);
    }
  }

  lemma ZeroBit(b: bv6)
    ensures !Bit(0, b)
  {
  }

  lemma EitherBit(data: seq<bv64>, c: Cell)
    requires InData(data, c)
    ensures Bit(Or(data[2 * c.word], data[2 * c.word + 1]), c.bit) <==> Value(data, c) != 0
  {
    hide Bit, Or;
    OrBit(data[2 * c.word], data[2 * c.word + 1], c.bit);
  }

  lemma InvFacts(p: Params, s: State, when: When, keys: seq<Key>, g: nat)
    requires Inv(p, s, when, keys, g)
    ensures Good(p) && |s.data| == p.size && g >= 1 && s.nGeneration == Code(g) && s.nEntries <= p.perGeneration
    ensures |keys| == (g - 1) * p.perGeneration + s.nEntries
  {
  }

  lemma StartMarking(p: Params, s: State, when: When, keys: seq<Key>, g: nat, key: Key)
    requires Inv(p, s, when, keys, g) && s.nEntries < p.perGeneration
    ensures Marking(p, s.(nEntries := s.nEntries + 1), when, keys, g, key, 0)
  {
    hide Tracks, Code, CellFor, Born, Owned, Remembered;
    OwnedMore(p, when, keys, key);
    BornNow(p, |keys|, g, s.nEntries);
  }

  lemma MarkingFacts(p: Params, s: State, when: When, keys: seq<Key>, g: nat, key: Key, n: nat)
    requires Marking(p, s, when, keys, g, key, n)
    ensures Good(p) && |s.data| == p.size
  {
  }

  /** Insert any keys into a fresh filter: each of the last nElements of them is contained. */
  method InsertAll(nElements: nat, words: nat, nHashFuncs: nat, murmur: (nat, nat, Key) -> bv32, nTweak: nat, vKeys: seq<Key>, j: nat)
      returns (found: bool)
    requires nElements >= 1 && words >= 1 && j < |vKeys| <= j + nElements
    ensures found
  {
    var filter := new RollingBloomFilter(nElements, words, nHashFuncs, murmur, nTweak);
    hide Inv;
    for i := 0 to |vKeys|
      invariant filter.Valid() && filter.keys == vKeys[..i] && filter.nElements == nElements && fresh(filter)
    {
      filter.Insert(vKeys[i]);
    }
    found := filter.Contains(vKeys[j]);
  }
}
