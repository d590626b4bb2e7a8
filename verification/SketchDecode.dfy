/**
 Decoding a difference table by peeling (core/src/drift/sketch.rs, `decode`).
 */
module SketchDecode {
  import opened Sequences
  import opened Sketch

  predicate IsPure(cell: Cell) {
    cell.count == 1 || cell.count == -1
  }

  function FirstPure(t: Table): (r: Option<nat>)
    ensures r.Some? ==> r.value < |t| && IsPure(t[r.value]) && forall i :: 0 <= i < r.value ==> !IsPure(t[i])
    ensures r.None? ==> forall i :: 0 <= i < |t| ==> !IsPure(t[i])
  {
    FirstPureFrom(t, 0)
  }

  function FirstPureFrom(t: Table, i: nat): (r: Option<nat>)
    requires i <= |t|
    ensures r.Some? ==> i <= r.value < |t| && IsPure(t[r.value]) && forall j :: i <= j < r.value ==> !IsPure(t[j])
    ensures r.None? ==> forall j :: i <= j < |t| ==> !IsPure(t[j])
    decreases |t| - i
  {
    if i == |t| then None
    else if IsPure(t[i]) then Some(i)
    else FirstPureFrom(t, i + 1)
  }

  predicate AllEmpty(t: Table) {
    forall i :: 0 <= i < |t| ==> t[i].count == 0
  }

  datatype Decoded =
    | Differ(aliceOnly: seq<Key>, bobOnly: seq<Key>)
    | IterationLimit
    | KeyCheckMismatch
    | Unpeelable

  /** Record the key of pure cell `idx`, take it out of its hash cells, then clear that cell. */
  function PeelCell(h: Hash, t: Table, idx: nat): (r: Table)
    requires idx < |t|
    ensures |r| == |t|
  {
    Toggle(h, t, t[idx].keySum, -t[idx].count)[idx := EMPTY_CELL]
  }

  function Prepend(alice: seq<Key>, bob: seq<Key>, r: Decoded): Decoded {
    match r
    case Differ(a, b) => Differ(alice + a, bob + b)
    case _ => r
  }

  /** The decode loop with `budget` iterations left. */
  function Peel(h: Hash, t: Table, budget: nat): Decoded
    decreases budget
  {
    if budget == 0 then IterationLimit
    else
      match FirstPure(t)
      case None => if AllEmpty(t) then Differ([], []) else Unpeelable
      case Some(idx) =>
        if t[idx].keyCheck != t[idx].keySum[..32] then KeyCheckMismatch
        else
          var key, rest := t[idx].keySum, Peel(h, PeelCell(h, t, idx), budget - 1);
          if t[idx].count == 1 then Prepend([key], [], rest) else Prepend([], [key], rest)
  }

  function MaxIterations(t: Table): nat {
    |t| * 10
  }

  /** Every cell the loop peels is hit exactly once by what is left of `d` at that moment. */
  ghost predicate PeelsGenuinely(h: Hash, t: Table, d: set<Key>, budget: nat)
    decreases budget
  {
    budget > 0 && FirstPure(t).Some? ==>
      var idx := FirstPure(t).value;
      Load(h, |t|, d, idx) == 1 && PeelsGenuinely(h, PeelCell(h, t, idx), d - {t[idx].keySum}, budget - 1)
  }

  /** Some cell is hit exactly once by `s`. */
  ghost predicate HasSingleton(h: Hash, n: nat, s: set<Key>)
    requires n > 0
  {
    exists c :: 0 <= c < n && Load(h, n, s, c) == 1
  }

  /** Every nonempty subset of `d` has a cell of its own: there is no tangle to get stuck on. */
  ghost predicate Peelable(h: Hash, n: nat, d: set<Key>)
    requires n > 0
  {
    forall s: set<Key> :: s <= d && s != {} ==> HasSingleton(h, n, s)
  }

  ghost predicate Enumerates(s: seq<Key>, d: set<Key>) {
    Distinct(s) && (forall k :: k in s <==> k in d)
  }

  lemma HitOnce(k: Key, sign: int)
    ensures Contribution(k, 1, sign) == Single(k, sign)
  {
  }

  /** A cell hit once holds that key with its sign and nothing else. */
  lemma OnceHitCell(h: Hash, n: nat, side: set<Key>, d: set<Key>, c: nat) returns (k: Key)
    requires n > 0 && Load(h, n, d, c) == 1
    ensures k in d && Hits(h, n, k, c) == 1 && Load(h, n, d - {k}, c) == 0
    ensures Content(h, n, side, d, c) == Single(k, Sign(side, k))
  {
    hide Load, Content, Plus, Hits, Contribution;
    k := LoadWitness(h, n, d, c);
    LoadRemove(h, n, d, c, k);
    ContentRemove(h, n, side, d, c, k);
    UnloadedIsEmpty(h, n, side, d - {k}, c);
    PlusEmpty(Contribution(k, 1, Sign(side, k)));
    HitOnce(k, Sign(side, k));
  }

  /** A cell hit once looks pure and names its key, once, with the key's own sign. */
  lemma PureCellIsGenuine(h: Hash, t: Table, side: set<Key>, d: set<Key>, idx: nat)
    requires Holds(h, t, side, d) && idx < |t| && Load(h, |t|, d, idx) == 1
    ensures IsPure(t[idx]) && t[idx].keySum in d && t[idx].count == Sign(side, t[idx].keySum)
    ensures t[idx].keyCheck == t[idx].keySum[..32]
    ensures Hits(h, |t|, t[idx].keySum, idx) == 1 && Load(h, |t|, d - {t[idx].keySum}, idx) == 0
  {
    hide Load, Content;
    var k := OnceHitCell(h, |t|, side, d, idx);
  }

  /** Peeling a once-hit cell leaves the table of the remaining difference. */
  lemma PeelKeepsHolds(h: Hash, t: Table, side: set<Key>, d: set<Key>, idx: nat)
    requires Holds(h, t, side, d) && idx < |t| && Load(h, |t|, d, idx) == 1
    ensures Holds(h, PeelCell(h, t, idx), side, d - {t[idx].keySum})
  {
    var n, k := |t|, t[idx].keySum;
    PureCellIsGenuine(h, t, side, d, idx);
    var sign := Sign(side, k);
    forall c | 0 <= c < n
      ensures PeelCell(h, t, idx)[c] == Content(h, n, side, d - {k}, c)
    {
      if c == idx {
        UnloadedIsEmpty(h, n, side, d - {k}, idx);
      } else {
        ToggleCell(h, t, k, -sign, c);
        ContentRemove(h, n, side, d, c, k);
        ContributionNegated(k, Hits(h, n, k, c), sign);
        Uncover(Contribution(k, Hits(h, n, k, c), sign), Content(h, n, side, d - {k}, c));
      }
    }
  }

  lemma Uncover(x: Cell, rest: Cell)
    ensures Plus(Plus(x, rest), Neg(x)) == rest
  {
    PlusCommutes(x, rest);
    PlusAssociates(rest, x, Neg(x));
    PlusNeg(x);
    PlusEmpty(rest);
  }

  /** Cells that some key of `d` hits. */
  ghost function Active(h: Hash, n: nat, d: set<Key>): set<nat>
    requires n > 0
  {
    set c | 0 <= c < n && Load(h, n, d, c) > 0
  }

  lemma ActiveShrinks(h: Hash, n: nat, d: set<Key>, k: Key, idx: nat)
    requires n > 0 && k in d && idx < n
    requires Load(h, n, d, idx) > 0 && Load(h, n, d - {k}, idx) == 0
    ensures |Active(h, n, d - {k})| < |Active(h, n, d)|
  {
    var a, b := Active(h, n, d - {k}), Active(h, n, d);
    forall c | c in a
      ensures c in b
    {
      LoadSubset(h, n, d - {k}, d, c);
    }
    assert idx in b && idx !in a;
    ProperSubsetSmaller(a, b);
  }

  lemma ProperSubsetSmaller(a: set<nat>, b: set<nat>)
    requires a < b
    ensures |a| < |b|
  {
    assert b == a + (b - a);
    assert b - a != {};
  }

  ghost function Below(n: nat): set<nat> {
    if n == 0 then {} else Below(n - 1) + {n - 1}
  }

  lemma BelowSize(n: nat)
    ensures |Below(n)| == n && forall c: nat :: c in Below(n) <==> c < n
  {
  }

  lemma ActiveBound(h: Hash, n: nat, d: set<Key>)
    requires n > 0
    ensures |Active(h, n, d)| <= n
  {
    BelowSize(n);
    if Active(h, n, d) != Below(n) {
      assert Active(h, n, d) < Below(n);
      ProperSubsetSmaller(Active(h, n, d), Below(n));
    }
  }

  // ------------------------------------------------------------ the tangle

  ghost predicate Entangled(h: Hash, n: nat, d: set<Key>, k: Key)
    requires n > 0
  {
    exists s: set<Key> :: s <= d && k in s && !HasSingleton(h, n, s)
  }

  /** The part of `d` no peeling can reach: every key in some subset without a once-hit cell. */
  ghost function Tangle(h: Hash, n: nat, d: set<Key>): set<Key>
    requires n > 0
  {
    set k | k in d && Entangled(h, n, d, k)
  }

  /** All counts of the table of `s` cancel, so that it looks empty. */
  ghost predicate Balanced(h: Hash, n: nat, side: set<Key>, s: set<Key>)
    requires n > 0
  {
    forall c :: 0 <= c < n ==> Content(h, n, side, s, c).count == 0
  }

  lemma PeelableMeansNoTangle(h: Hash, n: nat, d: set<Key>)
    requires n > 0
    ensures Peelable(h, n, d) <==> Tangle(h, n, d) == {}
  {
    if Tangle(h, n, d) == {} {
      forall s: set<Key> | s <= d && s != {}
        ensures HasSingleton(h, n, s)
      {
        var k :| k in s;
        assert k !in Tangle(h, n, d);
      }
    }
  }

  /** Removing the key of a once-hit cell leaves the tangle as it is. */
  lemma TangleStep(h: Hash, n: nat, d: set<Key>, k: Key, idx: nat)
    requires n > 0 && k in d && idx < n
    requires Hits(h, n, k, idx) == 1 && Load(h, n, d - {k}, idx) == 0
    ensures Tangle(h, n, d) == Tangle(h, n, d - {k})
  {
    forall s: set<Key> | s <= d && k in s
      ensures HasSingleton(h, n, s)
    {
      LoadRemove(h, n, s, idx, k);
      LoadSubset(h, n, s - {k}, d - {k}, idx);
      assert Load(h, n, s, idx) == 1;
    }
    forall x
      ensures x in Tangle(h, n, d) <==> x in Tangle(h, n, d - {k})
    {
      if x in Tangle(h, n, d) {
        var s: set<Key> :| s <= d && x in s && !HasSingleton(h, n, s);
        assert s <= d - {k};
      }
      if x in Tangle(h, n, d - {k}) {
        var s: set<Key> :| s <= d - {k} && x in s && !HasSingleton(h, n, s);
        assert s <= d;
      }
    }
  }

  /** Without a pure cell everything left is tangled. */
  lemma StuckMeansTangled(h: Hash, t: Table, side: set<Key>, d: set<Key>)
    requires Holds(h, t, side, d) && FirstPure(t).None?
    ensures Tangle(h, |t|, d) == d
    ensures AllEmpty(t) <==> Balanced(h, |t|, side, d)
  {
    var n := |t|;
    forall c | 0 <= c < n
      ensures Load(h, n, d, c) != 1
    {
      if Load(h, n, d, c) == 1 {
        var k := OnceHitCell(h, n, side, d, c);
        assert IsPure(t[c]);
      }
    }
    assert !HasSingleton(h, n, d);
  }

  /** `r` lists the difference: each key once, on its own side. */
  ghost predicate Lists(r: Decoded, side: set<Key>, d: set<Key>) {
    r.Differ? && Enumerates(r.aliceOnly, d * side) && Enumerates(r.bobOnly, d - side)
  }

  /** What decoding yields: all but the tangle if its counts cancel, and an error otherwise. */
  ghost predicate Exact(h: Hash, n: nat, side: set<Key>, d: set<Key>, r: Decoded)
    requires n > 0
  {
    if Balanced(h, n, side, Tangle(h, n, d)) then Lists(r, side, d - Tangle(h, n, d)) else r == Unpeelable
  }

  lemma EnumeratesCons(k: Key, s: seq<Key>, d: set<Key>)
    requires Enumerates(s, d) && k !in d
    ensures Enumerates([k] + s, d + {k})
  {
  }

  lemma ListsStep(side: set<Key>, d: set<Key>, k: Key, r: Decoded)
    requires k in d && Lists(r, side, d - {k})
    ensures Lists(if k in side then Prepend([k], [], r) else Prepend([], [k], r), side, d)
  {
    if k in side {
      EnumeratesCons(k, r.aliceOnly, (d - {k}) * side);
      assert (d - {k}) * side + {k} == d * side && d - {k} - side == d - side;
      assert [] + r.bobOnly == r.bobOnly;
    } else {
      EnumeratesCons(k, r.bobOnly, d - {k} - side);
      assert d - {k} - side + {k} == d - side && (d - {k}) * side == d * side;
      assert [] + r.aliceOnly == r.aliceOnly;
    }
  }

  lemma ExactStep(h: Hash, n: nat, side: set<Key>, d: set<Key>, k: Key, r: Decoded)
    requires n > 0 && k in d
    requires Tangle(h, n, d) == Tangle(h, n, d - {k})
    requires Exact(h, n, side, d - {k}, r)
    ensures Exact(h, n, side, d, if k in side then Prepend([k], [], r) else Prepend([], [k], r))
  {
    hide Lists;
    var tangle := Tangle(h, n, d);
    assert k !in tangle && tangle <= d - {k} by { TangleInside(h, n, d - {k}); }
    if Balanced(h, n, side, tangle) {
      assert d - {k} - tangle == d - tangle - {k};
      ListsStep(side, d - tangle, k, r);
    }
  }

  lemma TangleInside(h: Hash, n: nat, d: set<Key>)
    requires n > 0
    ensures Tangle(h, n, d) <= d
  {
  }

  lemma ExactStuck(h: Hash, t: Table, side: set<Key>, d: set<Key>)
    requires Holds(h, t, side, d) && FirstPure(t).None?
    ensures Exact(h, |t|, side, d, if AllEmpty(t) then Differ([], []) else Unpeelable)
  {
    StuckMeansTangled(h, t, side, d);
    assert d - Tangle(h, |t|, d) == {};
  }

  lemma {:induction false} PeelIsExact(h: Hash, t: Table, side: set<Key>, d: set<Key>, budget: nat)
    requires Holds(h, t, side, d) && PeelsGenuinely(h, t, d, budget)
    requires budget > |Active(h, |t|, d)|
    ensures Exact(h, |t|, side, d, Peel(h, t, budget))
    decreases budget
  {
    hide Exact, Holds, Load, Content, PeelCell, IsPure, Tangle;
    match FirstPure(t)
    case None =>
      ExactStuck(h, t, side, d);
    case Some(idx) =>
      var n, k := |t|, t[idx].keySum;
      PureCellIsGenuine(h, t, side, d, idx);
      PeelKeepsHolds(h, t, side, d, idx);
      ActiveShrinks(h, n, d, k, idx);
      TangleStep(h, n, d, k, idx);
      PeelIsExact(h, PeelCell(h, t, idx), side, d - {k}, budget - 1);
      ExactStep(h, n, side, d, k, Peel(h, PeelCell(h, t, idx), budget - 1));
  }

  /**
   When the cells the loop peels are hit once, decoding lists everything outside the tangle if the
   tangle's counts cancel and reports it unpeelable otherwise, never reaching the iteration limit.
   So the whole difference is listed, each key once, exactly when it is peelable.
   */
  lemma DecodeIsExact(h: Hash, t: Table, side: set<Key>, d: set<Key>)
    requires Holds(h, t, side, d) && PeelsGenuinely(h, t, d, MaxIterations(t))
    ensures Exact(h, |t|, side, d, Peel(h, t, MaxIterations(t)))
    ensures Lists(Peel(h, t, MaxIterations(t)), side, d) <==> Peelable(h, |t|, d)
  {
    hide Peel, PeelsGenuinely, Peelable, Content;
    ActiveBound(h, |t|, d);
    PeelIsExact(h, t, side, d, MaxIterations(t));
    PeelableMeansNoTangle(h, |t|, d);
    ListsAllExactlyWhen(h, |t|, side, d, Peel(h, t, MaxIterations(t)));
  }

  lemma ListsAllExactlyWhen(h: Hash, n: nat, side: set<Key>, d: set<Key>, r: Decoded)
    requires n > 0 && Exact(h, n, side, d, r)
    ensures Lists(r, side, d) <==> Tangle(h, n, d) == {}
  {
    hide Entangled;
    var tangle := Tangle(h, n, d);
    if tangle == {} {
      assert d - tangle == d;
    } else if Balanced(h, n, side, tangle) {
      var k :| k in tangle;
      assert k in d * side || k in d - side;
      assert k !in (d - tangle) * side && k !in d - tangle - side;
    }
  }

  // ---------------------------------------------------------------- capacity

  /** A key that hits one cell exactly once hits another one too. */
  lemma TwoCells(h: Hash, n: nat, k: Key, c: nat)
    requires n > 0 && c < n && Hits(h, n, k, c) == 1
    ensures |Active(h, n, {k})| >= 2
  {
    var other := if CellOf(h, n, k, 0) != c then CellOf(h, n, k, 0) else CellOf(h, n, k, 1);
    LoadMember(h, n, {k}, c, k);
    LoadMember(h, n, {k}, other, k);
    assert {c, other} <= Active(h, n, {k});
    if {c, other} != Active(h, n, {k}) {
      ProperSubsetSmaller({c, other}, Active(h, n, {k}));
    }
  }

  /** Each peel frees a cell, and the last key needs two. */
  lemma {:induction false} PeelableFits(h: Hash, n: nat, d: set<Key>)
    requires n > 0 && Peelable(h, n, d) && d != {}
    ensures |d| < |Active(h, n, d)|
    decreases |d|
  {
    hide Load, Content, Active, Hits;
    assert HasSingleton(h, n, d);
    var c :| 0 <= c < n && Load(h, n, d, c) == 1;
    var k := OnceHitCell(h, n, {}, d, c);
    if d == {k} {
      TwoCells(h, n, k, c);
    } else {
      assert d - {k} != {};
      PeelableFits(h, n, d - {k});
      ActiveShrinks(h, n, d, k, c);
    }
  }

  function Position(order: seq<Key>, k: Key): (r: nat)
    ensures r <= |order|
    ensures k in order ==> r < |order| && order[r] == k
  {
    if order == [] || order[0] == k then 0 else 1 + Position(order[1..], k)
  }

  /** A hash that gives each listed key a cell of its own and sends everything else to cell 0. */
  ghost function SpreadOut(order: seq<Key>): Hash {
    (k: Key, i: nat) => if i == 0 then 1 + Position(order, k) else 0
  }

  lemma OnlyOwnHit(order: seq<Key>, n: nat, k: Key, x: Key)
    requires |order| < n && k in order && x in order
    ensures Hits(SpreadOut(order), n, x, 1 + Position(order, k)) == if x == k then 1 else 0
  {
    hide Position, CellOf;
    var h := SpreadOut(order);
    assert h(x, 0) == 1 + Position(order, x) && h(x, 1) == 0 && h(x, 2) == 0;
    CellOfSmall(h, n, x, 0);
    CellOfSmall(h, n, x, 1);
    CellOfSmall(h, n, x, 2);
  }

  lemma CellOfSmall(h: Hash, n: nat, k: Key, i: nat)
    requires h(k, i) < n
    ensures CellOf(h, n, k, i) == h(k, i)
  {
  }

  lemma OwnCell(order: seq<Key>, n: nat, s: set<Key>, k: Key)
    requires |order| < n && k in s && forall x :: x in s ==> x in order
    ensures HasSingleton(SpreadOut(order), n, s)
  {
    hide Load, Hits, Position, SpreadOut;
    var h, c := SpreadOut(order), 1 + Position(order, k);
    OnlyOwnHit(order, n, k, k);
    LoadRemove(h, n, s, c, k);
    if Load(h, n, s - {k}, c) > 0 {
      var x := LoadWitness(h, n, s - {k}, c);
      OnlyOwnHit(order, n, k, x);
    }
  }

  lemma {:induction false} OrderOf(d: set<Key>) returns (order: seq<Key>)
    ensures |order| == |d| && forall k :: k in order <==> k in d
  {
    order := [];
    if d != {} {
      var k :| k in d;
      var rest := OrderOf(d - {k});
      order := [k] + rest;
    }
  }

  /** Some hash makes a difference peelable exactly when it is smaller than the table. */
  lemma CapacityExactlyWhen(n: nat, d: set<Key>)
    requires n > 0
    ensures (exists h: Hash :: Peelable(h, n, d)) <==> |d| < n
  {
    hide Peelable, Active;
    if h: Hash :| Peelable(h, n, d) && d != {} {
      PeelableFits(h, n, d);
      ActiveBound(h, n, d);
    }
    if |d| < n {
      var order := OrderOf(d);
      AllSpreadOut(order, n, d);
    }
  }

  lemma AllSpreadOut(order: seq<Key>, n: nat, d: set<Key>)
    requires |order| < n && forall k :: k in d ==> k in order
    ensures Peelable(SpreadOut(order), n, d)
  {
    hide HasSingleton;
    forall s: set<Key> | s <= d && s != {}
      ensures HasSingleton(SpreadOut(order), n, s)
    {
      var k :| k in s;
      OwnCell(order, n, s, k);
    }
  }

  // ---------------------------------------------------- the decode, step by step

  /** The table after `k` peels, as far as there is a cell to peel. */
  function After(h: Hash, t: Table, k: nat): Table
    decreases k
  {
    if k == 0 || FirstPure(t).None? then t else After(h, PeelCell(h, t, FirstPure(t).value), k - 1)
  }

  /** The cell to peel next has a check that is not the start of its key. */
  predicate Damaged(t: Table) {
    FirstPure(t).Some? && t[FirstPure(t).value].keyCheck != t[FirstPure(t).value].keySum[..32]
  }

  /** `k` is the first moment at which there is nothing left to peel or the next cell is damaged. */
  ghost predicate StopsAt(h: Hash, t: Table, k: nat) {
    && (FirstPure(After(h, t, k)).None? || Damaged(After(h, t, k)))
    && forall j :: 0 <= j < k ==> FirstPure(After(h, t, j)).Some? && !Damaged(After(h, t, j))
  }

  lemma StopsOneLater(h: Hash, t: Table, k: nat)
    requires FirstPure(t).Some? && !Damaged(t)
    ensures StopsAt(h, t, k + 1) <==> StopsAt(h, PeelCell(h, t, FirstPure(t).value), k)
  {
    hide PeelCell, FirstPure, Damaged;
    var u := PeelCell(h, t, FirstPure(t).value);
    assert forall j: nat :: After(h, t, j + 1) == After(h, u, j);
    if StopsAt(h, t, k + 1) {
      forall j | 0 <= j < k
        ensures FirstPure(After(h, u, j)).Some? && !Damaged(After(h, u, j))
      {
        assert After(h, t, j + 1) == After(h, u, j);
      }
    }
    if StopsAt(h, u, k) {
      forall j | 0 <= j < k + 1
        ensures FirstPure(After(h, t, j)).Some? && !Damaged(After(h, t, j))
      {
        if j > 0 {
          assert After(h, t, j) == After(h, u, j - 1);
        }
      }
    }
  }

  /**
   On any table, a stop within the budget decides: a damaged cell is reported as such, a table whose counts
   are all zero as a difference of one key per peel, any other as unpeelable. Without a stop the
   iteration limit is reported.
   */
  lemma {:induction false} DecodeStops(h: Hash, t: Table, budget: nat, k: nat)
    requires StopsAt(h, t, k)
    ensures var r, end := Peel(h, t, budget), After(h, t, k);
            if k >= budget then r == IterationLimit
            else if Damaged(end) then r == KeyCheckMismatch
            else if AllEmpty(end) then r.Differ? && |r.aliceOnly| + |r.bobOnly| == k
            else r == Unpeelable
    decreases budget
  {
    hide PeelCell, AllEmpty, StopsAt;
    if budget > 0 {
      StopsFirst(h, t, k);
      if k > 0 {
        StopsOneLater(h, t, k - 1);
        DecodeStops(h, PeelCell(h, t, FirstPure(t).value), budget - 1, k - 1);
      }
    }
  }

  lemma StopsFirst(h: Hash, t: Table, k: nat)
    requires StopsAt(h, t, k)
    ensures k == 0 <==> FirstPure(t).None? || Damaged(t)
  {
    assert After(h, t, 0) == t;
  }

  /** A decode that never stops runs into its iteration limit. */
  lemma {:induction false} EndlessDecode(h: Hash, t: Table, budget: nat)
    requires forall k :: 0 <= k < budget ==> FirstPure(After(h, t, k)).Some? && !Damaged(After(h, t, k))
    ensures Peel(h, t, budget) == IterationLimit
    decreases budget
  {
    hide PeelCell;
    if budget > 0 {
      assert After(h, t, 0) == t;
      var u := PeelCell(h, t, FirstPure(t).value);
      forall k | 0 <= k < budget - 1
        ensures FirstPure(After(h, u, k)).Some? && !Damaged(After(h, u, k))
      {
        assert After(h, t, k + 1) == After(h, u, k);
      }
      EndlessDecode(h, u, budget - 1);
    }
  }

  // ------------------------------------------------------ when it goes wrong

  /** Sooner or later a cell that looks pure names a key not left in the difference, or on the wrong side. */
  ghost predicate GoesAstray(h: Hash, t: Table, side: set<Key>, d: set<Key>, budget: nat)
    decreases budget
  {
    budget > 0 && FirstPure(t).Some? &&
    var idx := FirstPure(t).value;
    var cell := t[idx];
    || cell.keySum !in d || cell.count != Sign(side, cell.keySum)
    || GoesAstray(h, PeelCell(h, t, idx), side, d - {cell.keySum}, budget - 1)
  }

  /** Then the answer is wrong, at whatever point of the decode it happens. */
  lemma {:induction false} AstrayIsNeverRight(h: Hash, t: Table, side: set<Key>, d: set<Key>, budget: nat)
    requires GoesAstray(h, t, side, d, budget)
    ensures !Lists(Peel(h, t, budget), side, d)
    decreases budget
  {
    var idx := FirstPure(t).value;
    var cell, rest := t[idx], Peel(h, PeelCell(h, t, idx), budget - 1);
    if cell.keySum in d && cell.count == Sign(side, cell.keySum) {
      AstrayIsNeverRight(h, PeelCell(h, t, idx), side, d - {cell.keySum}, budget - 1);
      if cell.keyCheck == cell.keySum[..32] {
        PrependLists(side, d, cell.keySum, rest);
      }
    } else if rest.Differ? {
      assert cell.keySum in [cell.keySum] + rest.aliceOnly && cell.keySum in [cell.keySum] + rest.bobOnly;
    }
  }

  /** A right answer that starts with a key goes on with a right answer for the rest. */
  lemma PrependLists(side: set<Key>, d: set<Key>, k: Key, r: Decoded)
    requires k in d
    ensures Lists(if k in side then Prepend([k], [], r) else Prepend([], [k], r), side, d) ==> Lists(r, side, d - {k})
  {
    if r.Differ? {
      var a, b := r.aliceOnly, r.bobOnly;
      if k in side {
        EnumeratesTail(k, a, d * side);
        assert d * side - {k} == (d - {k}) * side && d - side == d - {k} - side;
        assert [] + b == b;
      } else {
        EnumeratesTail(k, b, d - side);
        assert d - side - {k} == d - {k} - side && d * side == (d - {k}) * side;
        assert [] + a == a;
      }
    }
  }

  lemma EnumeratesTail(k: Key, s: seq<Key>, d: set<Key>)
    ensures Enumerates([k] + s, d) ==> Enumerates(s, d - {k})
  {
    var r := [k] + s;
    if Enumerates(r, d) {
      assert forall i :: 0 <= i < |s| ==> s[i] == r[i + 1];
      forall x
        ensures x in s <==> x in d - {k}
      {
        assert x in r <==> x == k || x in s;
        if x in s {
          var i :| 0 <= i < |s| && s[i] == x;
          assert r[0] != r[i + 1];
        }
      }
    }
  }

  // ----------------------------------------- conditions visible beforehand

  /** Whatever part of the difference is left, a cell that looks pure is hit exactly once. */
  ghost predicate Honest(h: Hash, n: nat, side: set<Key>, d: set<Key>)
    requires n > 0
  {
    forall s: set<Key>, c :: s <= d && 0 <= c < n && IsPure(Content(h, n, side, s, c)) ==> Load(h, n, s, c) == 1
  }

  lemma HonestInstance(h: Hash, t: Table, side: set<Key>, d: set<Key>, idx: nat)
    requires Holds(h, t, side, d) && Honest(h, |t|, side, d) && idx < |t| && IsPure(t[idx])
    ensures Load(h, |t|, d, idx) == 1
  {
    assert t[idx] == Content(h, |t|, side, d, idx);
  }

  lemma HonestPart(h: Hash, n: nat, side: set<Key>, d: set<Key>, k: Key)
    requires n > 0 && Honest(h, n, side, d)
    ensures Honest(h, n, side, d - {k})
  {
  }

  /** On an honest table every peel is genuine, in whatever order cells come up. */
  lemma {:induction false} HonestPeelsGenuinely(h: Hash, t: Table, side: set<Key>, d: set<Key>, budget: nat)
    requires Holds(h, t, side, d) && Honest(h, |t|, side, d)
    ensures PeelsGenuinely(h, t, d, budget)
    decreases budget
  {
    hide Holds, Honest, Load, Content, PeelCell, IsPure;
    if budget > 0 && FirstPure(t).Some? {
      var idx := FirstPure(t).value;
      HonestInstance(h, t, side, d, idx);
      PeelKeepsHolds(h, t, side, d, idx);
      HonestPart(h, |t|, side, d, t[idx].keySum);
      HonestPeelsGenuinely(h, PeelCell(h, t, idx), side, d - {t[idx].keySum}, budget - 1);
    }
  }

  /** No cell is hit from both sides of the difference. */
  ghost predicate Unmixed(h: Hash, n: nat, side: set<Key>, d: set<Key>)
    requires n > 0
  {
    forall c, x, y :: 0 <= c < n && x in d && y in d && Hits(h, n, x, c) > 0 && Hits(h, n, y, c) > 0 ==>
      (x in side <==> y in side)
  }

  /** Without mixed cells a count is the signed number of hits. */
  lemma UnmixedCount(h: Hash, n: nat, side: set<Key>, d: set<Key>, s: set<Key>, c: nat)
    requires n > 0 && Unmixed(h, n, side, d) && s <= d && c < n
    ensures Content(h, n, side, s, c).count == Load(h, n, s, c) ||
            Content(h, n, side, s, c).count == 0 - Load(h, n, s, c)
  {
    if Load(h, n, s, c) == 0 {
      UnloadedIsEmpty(h, n, side, s, c);
    } else {
      var k := LoadWitness(h, n, s, c);
      OneSidedCount(h, n, side, s, c, k in side);
    }
  }

  lemma UnmixedIsHonest(h: Hash, n: nat, side: set<Key>, d: set<Key>)
    requires n > 0 && Unmixed(h, n, side, d)
    ensures Honest(h, n, side, d)
  {
    hide Unmixed;
    forall s: set<Key>, c | s <= d && 0 <= c < n && IsPure(Content(h, n, side, s, c))
      ensures Load(h, n, s, c) == 1
    {
      UnmixedCount(h, n, side, d, s, c);
    }
  }

  /** When no cell is hit from both sides, decoding succeeds exactly on peelable differences. */
  lemma UnmixedDecodes(h: Hash, t: Table, side: set<Key>, d: set<Key>)
    requires Holds(h, t, side, d) && Unmixed(h, |t|, side, d)
    ensures Peel(h, t, MaxIterations(t)).Differ? <==> Peelable(h, |t|, d)
    ensures Peelable(h, |t|, d) ==> Lists(Peel(h, t, MaxIterations(t)), side, d)
  {
    hide Unmixed, Peel, Honest, PeelsGenuinely, Peelable, Content;
    var n := |t|;
    UnmixedIsHonest(h, n, side, d);
    HonestPeelsGenuinely(h, t, side, d, MaxIterations(t));
    DecodeIsExact(h, t, side, d);
    PeelableMeansNoTangle(h, n, d);
    var tangle := Tangle(h, n, d);
    if k :| k in tangle {
      HitsSomewhere(h, n, k);
      var c :| 0 <= c < n && Hits(h, n, k, c) > 0;
      LoadMember(h, n, tangle, c, k);
      UnmixedCount(h, n, side, d, tangle, c);
      assert !Balanced(h, n, side, tangle);
    }
  }

  // ------------------------------------------------------------ key checks

  /** Every check field repeats the first 32 bits of its key sum. */
  ghost predicate Checked(t: Table) {
    forall c :: 0 <= c < |t| ==> t[c].keyCheck == t[c].keySum[..32]
  }

  lemma PlusChecked(x: Cell, y: Cell)
    requires x.keyCheck == x.keySum[..32] && y.keyCheck == y.keySum[..32]
    ensures Plus(x, y).keyCheck == Plus(x, y).keySum[..32]
  {
  }

  lemma PeelKeepsChecked(h: Hash, t: Table, idx: nat)
    requires Checked(t) && idx < |t|
    ensures Checked(PeelCell(h, t, idx))
  {
    var k, sign := t[idx].keySum, -t[idx].count;
    forall c | 0 <= c < |t|
      ensures PeelCell(h, t, idx)[c].keyCheck == PeelCell(h, t, idx)[c].keySum[..32]
    {
      ToggleCell(h, t, k, sign, c);
      PlusChecked(t[c], Contribution(k, Hits(h, |t|, k, c), sign));
    }
  }

  /** The key check never stops a decode, whatever mixed cells are peeled. */
  lemma {:induction false} KeyCheckNeverFires(h: Hash, t: Table, budget: nat)
    requires Checked(t)
    ensures Peel(h, t, budget) != KeyCheckMismatch
    decreases budget
  {
    if budget > 0 && FirstPure(t).Some? {
      PeelKeepsChecked(h, t, FirstPure(t).value);
      KeyCheckNeverFires(h, PeelCell(h, t, FirstPure(t).value), budget - 1);
    }
  }

  lemma HeldTablesAreChecked(h: Hash, t: Table, side: set<Key>, d: set<Key>)
    requires Holds(h, t, side, d)
    ensures Checked(t)
  {
    forall c | 0 <= c < |t|
      ensures t[c].keyCheck == t[c].keySum[..32]
    {
      KeyCheckRepeatsKeySum(h, |t|, side, d, c);
    }
  }

  /** So no table that holds a set, and no difference of two, can fail the key check. */
  lemma BuiltTablesPassTheCheck(h: Hash, t: Table, side: set<Key>, d: set<Key>)
    requires Holds(h, t, side, d)
    ensures Peel(h, t, MaxIterations(t)) != KeyCheckMismatch
  {
    HeldTablesAreChecked(h, t, side, d);
    KeyCheckNeverFires(h, t, MaxIterations(t));
  }

  // ------------------------------------------------------------- twin keys

  lemma TwinCountsCancel(h: Hash, n: nat, x: Key, y: Key, c: nat)
    requires n > 0 && x != y && Hits(h, n, x, c) == Hits(h, n, y, c)
    ensures Content(h, n, {x}, {x, y}, c).count == 0
  {
    ContentRemove(h, n, {x}, {x, y}, c, x);
    assert {x, y} - {x} == {y};
    ContentRemove(h, n, {x}, {y}, c, y);
    assert {y} - {y} == {};
  }

  /**
   A tangle can go unnoticed: two different keys on opposite sides that hash to the same
   cells cancel in every count, and decoding reports no difference at all.
   */
  lemma TwinKeysVanish(h: Hash, t: Table, x: Key, y: Key)
    requires x != y && Holds(h, t, {x}, {x, y})
    requires forall c :: 0 <= c < |t| ==> Hits(h, |t|, x, c) == Hits(h, |t|, y, c)
    ensures Peel(h, t, MaxIterations(t)) == Differ([], [])
    ensures !Lists(Differ([], []), {x}, {x, y})
  {
    forall c | 0 <= c < |t|
      ensures t[c].count == 0
    {
      TwinCountsCancel(h, |t|, x, y, c);
    }
    assert x in {x, y} * {x};
  }

  /** The decode loop of the source. */
  method Decode(h: Hash, table: Table) returns (r: Decoded)
    ensures r == Peel(h, table, MaxIterations(table))
    ensures MaxIterations(table) == 10 * |table|
  {
    hide Toggle, FirstPure, IsPure, AllEmpty;
    var cells := table;
    var aliceOnly: seq<Key>, bobOnly: seq<Key> := [], [];
    var maxIterations := |table| * 10;
    var iteration := 0;
    while true
      invariant |cells| == |table| && iteration <= maxIterations
      invariant Peel(h, table, maxIterations) == Prepend(aliceOnly, bobOnly, Peel(h, cells, maxIterations - iteration))
      decreases maxIterations - iteration
    {
      iteration := iteration + 1;
      if iteration > maxIterations {
        return IterationLimit;
      }
      var pure := FirstPure(cells);
      if pure.None? {
        if AllEmpty(cells) {
          return Differ(aliceOnly, bobOnly);
        }
        return Unpeelable;
      }
      var idx := pure.value;
      var key, count := cells[idx].keySum, cells[idx].count;
      if cells[idx].keyCheck != key[..32] {
        return KeyCheckMismatch;
      }
      ghost var rest := Peel(h, PeelCell(h, cells, idx), maxIterations - iteration);
      if count == 1 {
        PrependTwice(aliceOnly, bobOnly, [key], [], rest);
        aliceOnly := aliceOnly + [key];
      } else {
        PrependTwice(aliceOnly, bobOnly, [], [key], rest);
        bobOnly := bobOnly + [key];
      }
      var target := ToggleKey(h, cells, key, -count);
      cells := target[idx := EMPTY_CELL];
    }
  }

  lemma PrependTwice(a: seq<Key>, b: seq<Key>, c: seq<Key>, d: seq<Key>, r: Decoded)
    ensures Prepend(a, b, Prepend(c, d, r)) == Prepend(a + c, b + d, r)
    ensures c == [] ==> a + c == a
    ensures d == [] ==> b + d == b
  {
    match r
    case Differ(x, y) =>
      assert a + (c + x) == (a + c) + x && b + (d + y) == (b + d) + y;
    case _ =>
  }
}
