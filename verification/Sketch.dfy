/**
 The invertible Bloom lookup table of the drift sync (core/src/drift/sketch.rs).

 Message ids are 16 bytes and a key check is a u32; both are held as bits, so XOR is
 bitwise and the low four bytes of a key are its first 32 bits. blake3 is an arbitrary function `h` from a key
 and a hash number to a natural; the table reduces it modulo the cell count.
 */
module Sketch {
  import opened Sequences

  /** A byte string as its bits, the least significant bit of each byte first. */
  type Bits = seq<bool>

  function Zeros(n: nat): (r: Bits)
    ensures |r| == n && forall i :: 0 <= i < n ==> !r[i]
  {
    if n == 0 then [] else Zeros(n - 1) + [false]
  }

  type Key = k: Bits | |k| == 128 witness Zeros(128)
  type Check = k: Bits | |k| == 32 witness Zeros(32)
  type Hash = (Key, nat) -> nat

  const HASH_COUNT: nat := 3
  const CELLS_PER_DIFF: nat := 3

  const ZERO_KEY: Key := Zeros(128)
  const ZERO_CHECK: Check := Zeros(32)

  datatype Cell = Cell(count: int, keySum: Key, keyCheck: Check)

  const EMPTY_CELL: Cell := Cell(0, ZERO_KEY, ZERO_CHECK)

  type Table = seq<Cell>

  function Xor(a: Bits, b: Bits): (r: Bits)
    requires |a| == |b|
    ensures |r| == |a|
    ensures forall i :: 0 <= i < |a| ==> r[i] == (a[i] != b[i])
  {
    seq(|a|, i requires 0 <= i < |a| => a[i] != b[i])
  }

  // --------------------------------------------- cells form an abelian group

  function Plus(a: Cell, b: Cell): Cell {
    Cell(a.count + b.count, Xor(a.keySum, b.keySum), Xor(a.keyCheck, b.keyCheck))
  }

  function Neg(a: Cell): Cell {
    Cell(-a.count, a.keySum, a.keyCheck)
  }

  lemma XorLaws(a: Bits, b: Bits, c: Bits)
    requires |a| == |b| == |c|
    ensures Xor(a, b) == Xor(b, a)
    ensures Xor(Xor(a, b), c) == Xor(a, Xor(b, c))
  {
  }

  lemma XorSelf(a: Bits, zero: Bits)
    requires |a| == |zero| && forall i :: 0 <= i < |zero| ==> !zero[i]
    ensures Xor(a, a) == zero && Xor(a, zero) == a && Xor(zero, a) == a
  {
  }

  lemma PlusCommutes(a: Cell, b: Cell)
    ensures Plus(a, b) == Plus(b, a)
  {
    XorLaws(a.keySum, b.keySum, b.keySum);
    XorLaws(a.keyCheck, b.keyCheck, b.keyCheck);
  }

  lemma PlusAssociates(a: Cell, b: Cell, c: Cell)
    ensures Plus(Plus(a, b), c) == Plus(a, Plus(b, c))
  {
    XorLaws(a.keySum, b.keySum, c.keySum);
    XorLaws(a.keyCheck, b.keyCheck, c.keyCheck);
  }

  lemma PlusEmpty(a: Cell)
    ensures Plus(a, EMPTY_CELL) == a && Plus(EMPTY_CELL, a) == a
  {
    XorSelf(a.keySum, ZERO_KEY);
    XorSelf(a.keyCheck, ZERO_CHECK);
  }

  lemma PlusNeg(a: Cell)
    ensures Plus(a, Neg(a)) == EMPTY_CELL
  {
    XorSelf(a.keySum, ZERO_KEY);
    XorSelf(a.keyCheck, ZERO_CHECK);
  }

  lemma NegPlus(a: Cell, b: Cell)
    ensures Neg(Plus(a, b)) == Plus(Neg(a), Neg(b))
  {
  }

  // ------------------------------------------------------- keys in a table

  function CellOf(h: Hash, n: nat, k: Key, i: nat): (c: nat)
    requires n > 0
    ensures c < n
  {
    h(k, i) % n
  }

  /** How many of the three hash functions send `k` to cell `c`. */
  function Hits(h: Hash, n: nat, k: Key, c: nat): (r: nat)
    requires n > 0
    ensures r <= 3
  {
    (if CellOf(h, n, k, 0) == c then 1 else 0) +
    (if CellOf(h, n, k, 1) == c then 1 else 0) +
    (if CellOf(h, n, k, 2) == c then 1 else 0)
  }

  /** One key on its own, counted with `sign`. */
  function Single(k: Key, sign: int): Cell {
    Cell(sign, k, k[..32])
  }

  /** What `hits` hash hits of `k` add to a cell: the XORs cancel in pairs. */
  function Contribution(k: Key, hits: nat, sign: int): Cell {
    if hits % 2 == 1 then Cell(sign * hits, k, k[..32]) else Cell(sign * hits, ZERO_KEY, ZERO_CHECK)
  }

  function Bump(t: Table, c: nat, k: Key, sign: int): Table
    requires c < |t|
  {
    t[c := Plus(t[c], Single(k, sign))]
  }

  /** Count `k` with `sign` at its first `m` hash cells. */
  function ToggleFirst(h: Hash, t: Table, k: Key, sign: int, m: nat): (r: Table)
    requires |t| > 0
    ensures |r| == |t|
  {
    if m == 0 then t
    else
      var r := ToggleFirst(h, t, k, sign, m - 1);
      Bump(r, CellOf(h, |t|, k, m - 1), k, sign)
  }

  function Toggle(h: Hash, t: Table, k: Key, sign: int): (r: Table)
    requires |t| > 0
    ensures |r| == |t|
  {
    ToggleFirst(h, t, k, sign, HASH_COUNT)
  }

  function HitsFirst(h: Hash, n: nat, k: Key, c: nat, m: nat): nat
    requires n > 0
  {
    if m == 0 then 0
    else HitsFirst(h, n, k, c, m - 1) + if CellOf(h, n, k, m - 1) == c then 1 else 0
  }

  lemma ContributionStep(k: Key, hits: nat, sign: int)
    ensures Plus(Contribution(k, hits, sign), Single(k, sign)) == Contribution(k, hits + 1, sign)
  {
    CountStep(hits, sign);
    XorSelf(k, ZERO_KEY);
    XorSelf(k[..32], ZERO_CHECK);
    hide Xor;
    if hits % 2 == 1 {
      assert (hits + 1) % 2 == 0;
    } else {
      assert (hits + 1) % 2 == 1;
    }
  }

  lemma CountStep(hits: nat, sign: int)
    ensures sign * (hits + 1) == sign * hits + sign
  {
  }

  lemma {:induction false} ToggleFirstCell(h: Hash, t: Table, k: Key, sign: int, m: nat, c: nat)
    requires c < |t|
    ensures ToggleFirst(h, t, k, sign, m)[c] == Plus(t[c], Contribution(k, HitsFirst(h, |t|, k, c, m), sign))
  {
    if m == 0 {
      NoHitsNoContribution(k, sign);
      PlusEmpty(t[c]);
    } else {
      ToggleFirstCell(h, t, k, sign, m - 1, c);
      var hits := HitsFirst(h, |t|, k, c, m - 1);
      var r := ToggleFirst(h, t, k, sign, m - 1);
      if CellOf(h, |t|, k, m - 1) == c {
        assert ToggleFirst(h, t, k, sign, m)[c] == Plus(r[c], Single(k, sign));
        PlusAssociates(t[c], Contribution(k, hits, sign), Single(k, sign));
        ContributionStep(k, hits, sign);
      } else {
        assert ToggleFirst(h, t, k, sign, m)[c] == r[c];
      }
    }
  }

  lemma ToggleCell(h: Hash, t: Table, k: Key, sign: int, c: nat)
    requires c < |t|
    ensures Toggle(h, t, k, sign)[c] == Plus(t[c], Contribution(k, Hits(h, |t|, k, c), sign))
  {
    ToggleFirstCell(h, t, k, sign, 3, c);
    assert HitsFirst(h, |t|, k, c, 1) == if CellOf(h, |t|, k, 0) == c then 1 else 0;
    assert HitsFirst(h, |t|, k, c, 2) == HitsFirst(h, |t|, k, c, 1) + if CellOf(h, |t|, k, 1) == c then 1 else 0;
  }

  // ------------------------------------------- the table of a set of keys

  function Sign(side: set<Key>, k: Key): int {
    if k in side then 1 else -1
  }

  /** Cell `c` of the table holding the keys of `d`, positive on `side` and negative off it. */
  ghost function Content(h: Hash, n: nat, side: set<Key>, d: set<Key>, c: nat): Cell
    requires n > 0
  {
    if d == {} then EMPTY_CELL
    else
      var k :| k in d;
      Plus(Contribution(k, Hits(h, n, k, c), Sign(side, k)), Content(h, n, side, d - {k}, c))
  }

  /** How many hash hits the keys of `d` make on cell `c`. */
  ghost function Load(h: Hash, n: nat, d: set<Key>, c: nat): nat
    requires n > 0
  {
    if d == {} then 0
    else
      var k :| k in d;
      Hits(h, n, k, c) + Load(h, n, d - {k}, c)
  }

  lemma {:induction false} ContentRemove(h: Hash, n: nat, side: set<Key>, d: set<Key>, c: nat, k: Key)
    requires n > 0 && k in d
    ensures Content(h, n, side, d, c) ==
            Plus(Contribution(k, Hits(h, n, k, c), Sign(side, k)), Content(h, n, side, d - {k}, c))
    decreases d
  {
    var j :| j in d &&
             Content(h, n, side, d, c) ==
             Plus(Contribution(j, Hits(h, n, j, c), Sign(side, j)), Content(h, n, side, d - {j}, c));
    if j != k {
      var cj := Contribution(j, Hits(h, n, j, c), Sign(side, j));
      var ck := Contribution(k, Hits(h, n, k, c), Sign(side, k));
      var rest := Content(h, n, side, d - {j} - {k}, c);
      ContentRemove(h, n, side, d - {j}, c, k);
      ContentRemove(h, n, side, d - {k}, c, j);
      assert d - {k} - {j} == d - {j} - {k};
      PlusAssociates(cj, ck, rest);
      PlusAssociates(ck, cj, rest);
      PlusCommutes(cj, ck);
    }
  }

  lemma {:induction false} LoadRemove(h: Hash, n: nat, d: set<Key>, c: nat, k: Key)
    requires n > 0 && k in d
    ensures Load(h, n, d, c) == Hits(h, n, k, c) + Load(h, n, d - {k}, c)
    decreases d
  {
    var j :| j in d && Load(h, n, d, c) == Hits(h, n, j, c) + Load(h, n, d - {j}, c);
    if j != k {
      LoadRemove(h, n, d - {j}, c, k);
      LoadRemove(h, n, d - {k}, c, j);
      assert d - {k} - {j} == d - {j} - {k};
    }
  }

  // --------------------------------------------------------- load lemmas

  lemma HitsSomewhere(h: Hash, n: nat, k: Key)
    requires n > 0
    ensures exists c :: 0 <= c < n && Hits(h, n, k, c) > 0
  {
    assert Hits(h, n, k, CellOf(h, n, k, 0)) > 0;
  }

  lemma {:induction false} LoadSubset(h: Hash, n: nat, s: set<Key>, d: set<Key>, c: nat)
    requires n > 0 && s <= d
    ensures Load(h, n, s, c) <= Load(h, n, d, c)
    decreases d
  {
    if s < d {
      var k :| k in d && k !in s;
      LoadRemove(h, n, d, c, k);
      LoadSubset(h, n, s, d - {k}, c);
    } else {
      assert s == d;
    }
  }

  lemma LoadMember(h: Hash, n: nat, d: set<Key>, c: nat, k: Key)
    requires n > 0 && k in d
    ensures Hits(h, n, k, c) <= Load(h, n, d, c)
  {
    LoadRemove(h, n, d, c, k);
  }

  /** A loaded cell is hit by some key. */
  lemma {:induction false} LoadWitness(h: Hash, n: nat, d: set<Key>, c: nat) returns (k: Key)
    requires n > 0 && Load(h, n, d, c) > 0
    ensures k in d && Hits(h, n, k, c) > 0
    decreases d
  {
    k :| k in d;
    LoadRemove(h, n, d, c, k);
    if Hits(h, n, k, c) == 0 {
      k := LoadWitness(h, n, d - {k}, c);
    }
  }

  lemma NoHitsNoContribution(k: Key, sign: int)
    ensures Contribution(k, 0, sign) == EMPTY_CELL
  {
  }

  /** A cell that no key hits is empty. */
  lemma {:induction false} UnloadedIsEmpty(h: Hash, n: nat, side: set<Key>, d: set<Key>, c: nat)
    requires n > 0 && Load(h, n, d, c) == 0
    ensures Content(h, n, side, d, c) == EMPTY_CELL
    decreases d
  {
    hide Contribution, Plus, Hits;
    if d != {} {
      var k :| k in d;
      LoadRemove(h, n, d, c, k);
      ContentRemove(h, n, side, d, c, k);
      UnloadedIsEmpty(h, n, side, d - {k}, c);
      NoHitsNoContribution(k, Sign(side, k));
      PlusEmpty(EMPTY_CELL);
    }
  }

  lemma ContributionCount(k: Key, hits: nat, sign: int)
    ensures sign == 1 ==> Contribution(k, hits, sign).count == hits
    ensures sign == -1 ==> Contribution(k, hits, sign).count == 0 - hits
    ensures hits == 0 ==> Contribution(k, hits, sign).count == 0
  {
  }

  /** If every key that hits a cell is counted with one sign, the count is the signed load. */
  lemma {:induction false} OneSidedCount(h: Hash, n: nat, side: set<Key>, d: set<Key>, c: nat, positive: bool)
    requires n > 0
    requires forall k :: k in d && Hits(h, n, k, c) > 0 ==> (k in side <==> positive)
    ensures Content(h, n, side, d, c).count == if positive then Load(h, n, d, c) else 0 - Load(h, n, d, c)
    decreases d
  {
    if d != {} {
      var k :| k in d;
      LoadRemove(h, n, d, c, k);
      ContentRemove(h, n, side, d, c, k);
      OneSidedCount(h, n, side, d - {k}, c, positive);
      ContributionCount(k, Hits(h, n, k, c), Sign(side, k));
    }
  }

  /** The key check of an honest table repeats the key sum, so it can never expose a mixed cell. */
  lemma {:induction false} KeyCheckRepeatsKeySum(h: Hash, n: nat, side: set<Key>, d: set<Key>, c: nat)
    requires n > 0
    ensures Content(h, n, side, d, c).keyCheck == Content(h, n, side, d, c).keySum[..32]
    decreases d
  {
    if d != {} {
      var k :| k in d;
      ContentRemove(h, n, side, d, c, k);
      KeyCheckRepeatsKeySum(h, n, side, d - {k}, c);
      var x, y := Contribution(k, Hits(h, n, k, c), Sign(side, k)), Content(h, n, side, d - {k}, c);
      assert x.keyCheck == x.keySum[..32];
      assert Xor(x.keySum, y.keySum)[..32] == Xor(x.keySum[..32], y.keySum[..32]);
    }
  }

  // ------------------------------------------------------ set difference

  lemma {:induction false} ContentSameSide(h: Hash, n: nat, s1: set<Key>, s2: set<Key>, d: set<Key>, c: nat)
    requires n > 0
    requires forall k :: k in d ==> Sign(s1, k) == Sign(s2, k)
    ensures Content(h, n, s1, d, c) == Content(h, n, s2, d, c)
    decreases d
  {
    if d != {} {
      var k :| k in d;
      ContentRemove(h, n, s1, d, c, k);
      ContentRemove(h, n, s2, d, c, k);
      ContentSameSide(h, n, s1, s2, d - {k}, c);
    }
  }

  /** Keys counted positively on one side are counted negatively from the other. */
  lemma {:induction false} ContentNegated(h: Hash, n: nat, neg: set<Key>, pos: set<Key>, d: set<Key>, c: nat)
    requires n > 0
    requires forall k :: k in d ==> (k in neg <==> k !in pos)
    ensures Content(h, n, neg, d, c) == Neg(Content(h, n, pos, d, c))
    decreases d
  {
    if d != {} {
      var k :| k in d;
      ContentRemove(h, n, neg, d, c, k);
      ContentRemove(h, n, pos, d, c, k);
      ContentNegated(h, n, neg, pos, d - {k}, c);
      ContributionNegated(k, Hits(h, n, k, c), Sign(pos, k));
      NegPlus(Contribution(k, Hits(h, n, k, c), Sign(pos, k)), Content(h, n, pos, d - {k}, c));
    }
  }

  lemma ContributionNegated(k: Key, hits: nat, sign: int)
    ensures Contribution(k, hits, -sign) == Neg(Contribution(k, hits, sign))
  {
    assert (-sign) * hits == -(sign * hits);
  }

  lemma {:induction false} ContentUnion(h: Hash, n: nat, side: set<Key>, d: set<Key>, e: set<Key>, c: nat)
    requires n > 0 && d !! e
    ensures Content(h, n, side, d + e, c) == Plus(Content(h, n, side, d, c), Content(h, n, side, e, c))
    decreases d
  {
    if d == {} {
      assert d + e == e;
      PlusEmpty(Content(h, n, side, e, c));
    } else {
      var k :| k in d;
      ContentRemove(h, n, side, d, c, k);
      ContentRemove(h, n, side, d + e, c, k);
      assert d + e - {k} == (d - {k}) + e;
      ContentUnion(h, n, side, d - {k}, e, c);
      PlusAssociates(Contribution(k, Hits(h, n, k, c), Sign(side, k)),
                     Content(h, n, side, d - {k}, c), Content(h, n, side, e, c));
    }
  }

  function Differences(a: set<Key>, b: set<Key>): set<Key> {
    (a - b) + (b - a)
  }

  /** Subtracting the table of `b` from the table of `a` leaves the table of their signed difference. */
  lemma SubtractionIsDifference(h: Hash, n: nat, a: set<Key>, b: set<Key>, c: nat)
    requires n > 0
    ensures Plus(Content(h, n, a, a, c), Neg(Content(h, n, b, b, c))) == Content(h, n, a, Differences(a, b), c)
  {
    var both := a * b;
    assert a == (a - b) + both && b == (b - a) + both;
    ContentUnion(h, n, a, a - b, both, c);
    ContentUnion(h, n, b, b - a, both, c);
    ContentSameSide(h, n, a, b, both, c);
    ContentNegated(h, n, a, b, b - a, c);
    ContentUnion(h, n, a, a - b, b - a, c);
    var x, y, z := Content(h, n, a, a - b, c), Content(h, n, a, b - a, c), Content(h, n, a, both, c);
    assert Neg(Content(h, n, b, b - a, c)) == y;
    NegPlus(Content(h, n, b, b - a, c), z);
    CancelCommon(x, y, z);
  }

  lemma CancelCommon(x: Cell, y: Cell, z: Cell)
    ensures Plus(Plus(x, z), Plus(y, Neg(z))) == Plus(x, y)
  {
    PlusCommutes(y, Neg(z));
    PlusAssociates(x, z, Plus(Neg(z), y));
    PlusAssociates(z, Neg(z), y);
    PlusNeg(z);
    PlusEmpty(y);
  }

  // ------------------------------------------------------- building tables

  /** `t` is the table of the keys in `d`, signed by `side`. */
  ghost predicate Holds(h: Hash, t: Table, side: set<Key>, d: set<Key>) {
    |t| > 0 && forall c :: 0 <= c < |t| ==> t[c] == Content(h, |t|, side, d, c)
  }

  function EmptyTable(n: nat): (t: Table)
    ensures |t| == n && forall i :: 0 <= i < n ==> t[i] == EMPTY_CELL
  {
    if n == 0 then [] else EmptyTable(n - 1) + [EMPTY_CELL]
  }

  lemma EmptyHolds(h: Hash, n: nat, side: set<Key>)
    requires n > 0
    ensures Holds(h, EmptyTable(n), side, {})
  {
  }

  /** Inserting a new id turns the table of a set into the table of the larger set. */
  lemma InsertHolds(h: Hash, t: Table, side: set<Key>, d: set<Key>, k: Key)
    requires Holds(h, t, side, d) && k in side && k !in d
    ensures Holds(h, Toggle(h, t, k, 1), side, d + {k})
  {
    assert d + {k} - {k} == d;
    forall c | 0 <= c < |t|
      ensures Toggle(h, t, k, 1)[c] == Content(h, |t|, side, d + {k}, c)
    {
      ToggleCell(h, t, k, 1, c);
      ContentRemove(h, |t|, side, d + {k}, c, k);
      PlusCommutes(t[c], Contribution(k, Hits(h, |t|, k, c), 1));
    }
  }

  function Minus(a: Table, b: Table): (r: Table)
    requires |a| == |b|
    ensures |r| == |a|
    ensures forall i :: 0 <= i < |a| ==> r[i] == Plus(a[i], Neg(b[i]))
  {
    if a == [] then [] else [Plus(a[0], Neg(b[0]))] + Minus(a[1..], b[1..])
  }

  lemma MinusHolds(h: Hash, t: Table, u: Table, a: set<Key>, b: set<Key>)
    requires Holds(h, t, a, a) && Holds(h, u, b, b) && |t| == |u|
    ensures Holds(h, Minus(t, u), a, Differences(a, b))
  {
    forall c | 0 <= c < |t|
      ensures Minus(t, u)[c] == Content(h, |t|, a, Differences(a, b), c)
    {
      SubtractionIsDifference(h, |t|, a, b, c);
    }
  }

  /** The per-hash loop behind inserting (`sign` 1) and taking out (`sign` -1) a key. */
  method ToggleKey(h: Hash, t: Table, key: Key, sign: int) returns (r: Table)
    requires |t| > 0
    ensures r == Toggle(h, t, key, sign)
  {
    r := t;
    for i := 0 to HASH_COUNT
      invariant r == ToggleFirst(h, t, key, sign, i)
    {
      var c := CellOf(h, |t|, key, i);
      r := r[c := Plus(r[c], Single(key, sign))];
    }
  }
}
