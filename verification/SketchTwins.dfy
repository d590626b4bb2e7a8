/**
 Keys a sketch cannot tell apart: whatever the hash, some two ids share all three cells.
 */
module SketchTwins {
  import opened Sequences
  import opened Sketch
  import opened SketchDecode
  import opened SketchWire

  /** More than `n` pigeons in `n` holes: two share one. */
  lemma Pigeonhole(f: nat -> nat, n: nat) returns (i: nat, j: nat)
    requires forall k: nat :: k <= n ==> f(k) < n
    ensures i < j <= n && f(i) == f(j)
  {
    var used: set<nat> := {};
    j := 0;
    while true
      invariant j <= n + 1 && |used| == j && used <= Below(n)
      invariant forall x: nat :: x in used ==> exists k: nat :: k < j && f(k) == x
      invariant forall k: nat :: k < j ==> f(k) in used
      decreases n + 1 - j
    {
      BelowSize(n);
      if j == n + 1 {
        SubsetSmaller(used, Below(n));
        assert false;
      }
      if f(j) in used {
        i :| i < j && f(i) == f(j);
        return;
      }
      used := used + {f(j)};
      j := j + 1;
    }
  }

  lemma SubsetSmaller(a: set<nat>, b: set<nat>)
    requires a <= b
    ensures |a| <= |b|
  {
    if a != b {
      ProperSubsetSmaller(a, b);
    }
  }

  lemma MulStep(n: nat, q: nat, r: nat)
    ensures q < r ==> n * q + n <= n * r
  {
    if q < r {
      assert n * (q + 1) <= n * r;
    }
  }

  lemma SplitUnique(n: nat, a: nat, q: nat, b: nat, r: nat)
    requires a < n && b < n && a + n * q == b + n * r
    ensures a == b && q == r
  {
    MulStep(n, q, r);
    MulStep(n, r, q);
  }

  lemma SplitBound(n: nat, a: nat, q: nat, m: nat)
    requires a < n && q < m
    ensures a + n * q < n * m
  {
    assert n * (q + 1) <= n * m;
  }

  /** The three cells of a key as one number. */
  function Cells(h: Hash, n: nat, k: Key): nat
    requires n > 0
  {
    CellOf(h, n, k, 0) + n * (CellOf(h, n, k, 1) + n * CellOf(h, n, k, 2))
  }

  lemma CellsBound(h: Hash, n: nat, k: Key)
    requires n > 0
    ensures Cells(h, n, k) < n * (n * n)
  {
    SplitBound(n, CellOf(h, n, k, 1), CellOf(h, n, k, 2), n);
    SplitBound(n, CellOf(h, n, k, 0), CellOf(h, n, k, 1) + n * CellOf(h, n, k, 2), n * n);
  }

  lemma SameCells(h: Hash, n: nat, x: Key, y: Key, c: nat)
    requires n > 0 && Cells(h, n, x) == Cells(h, n, y)
    ensures Hits(h, n, x, c) == Hits(h, n, y, c)
  {
    SplitUnique(n, CellOf(h, n, x, 0), CellOf(h, n, x, 1) + n * CellOf(h, n, x, 2),
                CellOf(h, n, y, 0), CellOf(h, n, y, 1) + n * CellOf(h, n, y, 2));
    SplitUnique(n, CellOf(h, n, x, 1), CellOf(h, n, x, 2), CellOf(h, n, y, 1), CellOf(h, n, y, 2));
  }

  function Numbered(j: nat): Key {
    Encode(j, 128)
  }

  /** For every hash, and every table a u16 can size, two different ids hit exactly the same cells. */
  lemma TwinKeysForEveryHash(h: Hash, n: nat) returns (x: Key, y: Key)
    requires 0 < n <= 65535
    ensures x != y && forall c :: 0 <= c < n ==> Hits(h, n, x, c) == Hits(h, n, y, c)
  {
    var total := n * (n * n);
    CubeFits(n);
    forall k: nat
      ensures Cells(h, n, Numbered(k)) < total
    {
      CellsBound(h, n, Numbered(k));
    }
    var i, j := Pigeonhole((k: nat) => Cells(h, n, Numbered(k)), total);
    x, y := Numbered(i), Numbered(j);
    NumberRoundTrip(i, 128);
    NumberRoundTrip(j, 128);
    forall c | 0 <= c < n
      ensures Hits(h, n, x, c) == Hits(h, n, y, c)
    {
      SameCells(h, n, x, y, c);
    }
  }

  lemma ProductBelow(a: nat, b: nat, x: nat, y: nat)
    requires a < x && b < y
    ensures a * b < x * y
  {
    assert a * b <= a * y;
    assert a * y < x * y;
  }

  lemma CubeFits(n: nat)
    requires n <= 65535
    ensures n * (n * n) < Pow2(128)
  {
    WidthBounds();
    hide Pow2;
    ProductBelow(n, n, Pow2(16), Pow2(16));
    Pow2Adds(16, 16);
    ProductBelow(n, n * n, Pow2(16), Pow2(32));
    Pow2Adds(16, 32);
    Pow2Grow(48, 128);
  }

  lemma {:induction false} Pow2Adds(a: nat, b: nat)
    ensures Pow2(a + b) == Pow2(a) * Pow2(b)
  {
    if a > 0 {
      Pow2Adds(a - 1, b);
      assert Pow2(a + b) == 2 * Pow2(a - 1 + b);
    }
  }

  lemma {:induction false} Pow2Grow(a: nat, b: nat)
    requires a <= b
    ensures Pow2(a) <= Pow2(b)
  {
    if a < b {
      Pow2Grow(a, b - 1);
    }
  }
}
