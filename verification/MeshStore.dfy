/**
 The drift message store (core/src/drift/store.rs): a grow-only map from message id
 to envelope, cut back to its capacity by evicting the lowest priority score.

 A score depends on the clock; `score` stands for its value at the moment of the call.
 */
module MeshStore {
  import opened Sequences
  import opened Sketch

  datatype StoredEnvelope = StoredEnvelope(
    envelopeData: Bits,
    messageId: Key,
    recipientHint: Bits,
    createdAt: nat,
    ttlExpiry: nat,
    hopCount: nat,
    priority: nat,
    receivedAt: nat)

  type Score = StoredEnvelope -> real
  type Envelopes = map<Key, StoredEnvelope>

  ghost predicate WellIndexed(m: Envelopes) {
    forall id :: id in m ==> m[id].messageId == id
  }

  // --------------------------------------------------- the bounded store

  ghost function Above(score: Score, s: set<StoredEnvelope>, e: StoredEnvelope): set<StoredEnvelope> {
    set x | x in s && score(x) > score(e)
  }

  /** The envelopes of `s` outranked by fewer than `k` others. */
  ghost function Kept(score: Score, s: set<StoredEnvelope>, k: nat): set<StoredEnvelope> {
    set e | e in s && |Above(score, s, e)| < k
  }

  ghost predicate DistinctScores(score: Score, s: set<StoredEnvelope>) {
    forall x, y :: x in s && y in s && score(x) == score(y) ==> x == y
  }

  lemma SubsetSize(a: set<StoredEnvelope>, b: set<StoredEnvelope>)
    requires a <= b
    ensures |a| <= |b|
    ensures a != b ==> |a| < |b|
  {
    assert b == a + (b - a);
    if a != b {
      assert b - a != {};
    }
  }

  lemma AboveMonotone(score: Score, s: set<StoredEnvelope>, t: set<StoredEnvelope>, e: StoredEnvelope)
    requires s <= t
    ensures Above(score, s, e) <= Above(score, t, e)
    ensures |Above(score, s, e)| <= |Above(score, t, e)|
  {
    SubsetSize(Above(score, s, e), Above(score, t, e));
  }

  lemma AllKeptBelowCapacity(score: Score, s: set<StoredEnvelope>, k: nat)
    requires |s| <= k
    ensures Kept(score, s, k) == s
  {
    forall e | e in s
      ensures |Above(score, s, e)| < k
    {
      assert e !in Above(score, s, e);
      SubsetSize(Above(score, s, e), s);
    }
  }

  /** Evicting the lowest score from an over-full store does not change what is kept. */
  lemma EvictLowest(score: Score, s: set<StoredEnvelope>, k: nat, low: StoredEnvelope)
    requires DistinctScores(score, s) && |s| > k && low in s
    requires forall x :: x in s ==> score(low) <= score(x)
    ensures Kept(score, s - {low}, k) == Kept(score, s, k)
  {
    assert Above(score, s, low) == s - {low};
    forall e | e in s - {low}
      ensures Above(score, s - {low}, e) == Above(score, s, e)
    {
    }
    assert low !in Kept(score, s, k);
  }

  lemma LowestExists(score: Score, s: set<StoredEnvelope>) returns (low: StoredEnvelope)
    requires s != {}
    ensures low in s && forall x :: x in s ==> score(low) <= score(x)
  {
    low :| low in s;
    var rest := s - {low};
    while rest != {}
      invariant rest <= s && low in s
      invariant forall x :: x in s - rest ==> score(low) <= score(x)
    {
      var x :| x in rest;
      rest := rest - {x};
      if score(x) < score(low) {
        low := x;
      }
    }
  }

  /** A bounded store keeps exactly as many envelopes as fit. */
  lemma {:induction false} KeptSize(score: Score, s: set<StoredEnvelope>, k: nat)
    requires DistinctScores(score, s)
    ensures |Kept(score, s, k)| == Min(|s|, k)
    decreases |s|
  {
    if |s| <= k {
      AllKeptBelowCapacity(score, s, k);
    } else {
      var low := LowestExists(score, s);
      EvictLowest(score, s, k, low);
      KeptSize(score, s - {low}, k);
    }
  }

  /** Nothing kept is outranked by anything dropped. */
  lemma KeptOutranksDropped(score: Score, s: set<StoredEnvelope>, k: nat, y: StoredEnvelope, x: StoredEnvelope)
    requires DistinctScores(score, s)
    requires y in Kept(score, s, k) && x in s - Kept(score, s, k)
    ensures score(y) > score(x)
  {
    if score(y) <= score(x) {
      assert score(y) < score(x);
      assert Above(score, s, x) <= Above(score, s, y);
      SubsetSize(Above(score, s, x), Above(score, s, y));
    }
  }

  /** Cutting one operand early does not change the result: bounded merging is associative. */
  lemma KeptAbsorbs(score: Score, s: set<StoredEnvelope>, t: set<StoredEnvelope>, k: nat)
    requires DistinctScores(score, s + t)
    ensures Kept(score, Kept(score, s, k) + t, k) == Kept(score, s + t, k)
  {
    var u, v := s + t, Kept(score, s, k) + t;
    forall e
      ensures e in Kept(score, u, k) <==> e in Kept(score, v, k)
    {
      AboveMonotone(score, v, u, e);
      if e in Kept(score, u, k) {
        AboveMonotone(score, s, u, e);
      } else if e in Kept(score, v, k) {
        DroppedStayOutranked(score, s, t, k, e);
      }
    }
  }

  lemma DroppedStayOutranked(score: Score, s: set<StoredEnvelope>, t: set<StoredEnvelope>, k: nat, e: StoredEnvelope)
    requires DistinctScores(score, s + t)
    requires e in s + t && |Above(score, s + t, e)| >= k
    ensures |Above(score, Kept(score, s, k) + t, e)| >= k
  {
    var kept := Kept(score, s, k);
    var u, v := s + t, kept + t;
    if x :| x in Above(score, u, e) && x !in v {
      forall y | y in kept
        ensures y in Above(score, v, e)
      {
        KeptOutranksDropped(score, s, k, y, x);
      }
      KeptSize(score, s, k);
      assert |Above(score, s, x)| >= k && x !in Above(score, s, x);
      SubsetSize(Above(score, s, x), s);
      SubsetSize(kept, Above(score, v, e));
    } else {
      assert Above(score, u, e) == Above(score, v, e);
    }
  }

  // ----------------------------------------------------------- the store

  lemma ValuesWithout(m: Envelopes, id: Key)
    requires WellIndexed(m) && id in m
    ensures (m - {id}).Values == m.Values - {m[id]}
  {
    var r := m - {id};
    forall e
      ensures e in r.Values <==> e in m.Values - {m[id]}
    {
      if e in r.Values {
        var k :| k in r && r[k] == e;
        assert m[k] == e;
      }
      if e in m.Values - {m[id]} {
        var k :| k in m && m[k] == e;
        assert r[k] == e;
      }
    }
  }

  lemma ValuesSize(m: Envelopes)
    requires WellIndexed(m)
    ensures |m.Values| == |m|
  {
    if m != map[] {
      var id :| id in m;
      ValuesWithout(m, id);
      assert m[id] in m.Values;
      ValuesSize(m - {id});
    }
  }

  ghost predicate SubStore(m: Envelopes, all: Envelopes) {
    m.Keys <= all.Keys && forall id :: id in m ==> m[id] == all[id]
  }

  ghost predicate Lowest(score: Score, m: Envelopes, id: Key) {
    id in m && forall x :: x in m ==> score(m[id]) <= score(m[x])
  }

  /** Every envelope of `all` missing from `m` scores no higher than any in `m`. */
  ghost predicate Outranks(score: Score, m: Envelopes, all: Envelopes)
    requires SubStore(m, all)
  {
    forall x, y :: x in m && y in all && y !in m ==> score(all[y]) <= score(all[x])
  }

  /** `m` is `all` after some evictions of lowest scores, none of them beyond the capacity. */
  ghost predicate Trimmed(score: Score, all: Envelopes, m: Envelopes, max: nat) {
    && SubStore(m, all) && WellIndexed(m) && Outranks(score, m, all)
    && Min(|all|, max) <= |m|
    && (DistinctScores(score, all.Values) ==> Kept(score, m.Values, max) == Kept(score, all.Values, max))
  }

  lemma SubStoreValues(m: Envelopes, all: Envelopes)
    requires SubStore(m, all)
    ensures m.Values <= all.Values
  {
    forall e | e in m.Values
      ensures e in all.Values
    {
      var id :| id in m && m[id] == e;
      assert all[id] == e;
    }
  }

  lemma TrimStep(score: Score, all: Envelopes, m: Envelopes, max: nat, id: Key)
    requires Trimmed(score, all, m, max) && |m| > max && Lowest(score, m, id)
    ensures Trimmed(score, all, m - {id}, max) && |m - {id}| == |m| - 1
  {
    ValuesWithout(m, id);
    ValuesSize(m);
    SubStoreValues(m, all);
    assert m[id] in m.Values;
    assert (m - {id}).Keys == m.Keys - {id};
    if DistinctScores(score, all.Values) {
      EvictLowest(score, m.Values, max, m[id]);
    }
  }

  lemma TrimDone(score: Score, all: Envelopes, m: Envelopes, max: nat)
    requires Trimmed(score, all, m, max) && |m| <= max
    requires |m| <= |all|
    ensures |m| == Min(|all|, max)
    ensures DistinctScores(score, all.Values) ==> m.Values == Kept(score, all.Values, max)
  {
    ValuesSize(m);
    AllKeptBelowCapacity(score, m.Values, max);
  }

  lemma LowestIdExists(score: Score, m: Envelopes)
    requires WellIndexed(m) && m != map[]
    ensures exists id :: Lowest(score, m, id)
  {
    var id :| id in m;
    assert m[id] in m.Values;
    var low := LowestExists(score, m.Values);
    assert m[low.messageId] == low;
    assert Lowest(score, m, low.messageId);
  }

  // -------------------------------------------------- merging keyed stores

  /** The entries of `m` that survive eviction down to `k`. */
  ghost function KeptMap(score: Score, m: Envelopes, k: nat): Envelopes {
    map id | id in m && m[id] in Kept(score, m.Values, k) :: m[id]
  }

  /** `mine` merged with `other`: own entries win, then eviction. */
  ghost function Merged(score: Score, mine: Envelopes, other: Envelopes, k: nat): Envelopes {
    KeptMap(score, other + mine, k)
  }

  /** Ids held on both sides hold the same envelope. */
  ghost predicate Agree(a: Envelopes, b: Envelopes) {
    forall id :: id in a && id in b ==> a[id] == b[id]
  }

  lemma KeptMapFacts(score: Score, m: Envelopes, k: nat)
    requires WellIndexed(m)
    ensures SubStore(KeptMap(score, m, k), m) && WellIndexed(KeptMap(score, m, k))
    ensures KeptMap(score, m, k).Values == Kept(score, m.Values, k)
  {
    var r := KeptMap(score, m, k);
    SubStoreValues(r, m);
    forall e
      ensures e in r.Values <==> e in Kept(score, m.Values, k)
    {
      if e in r.Values {
        var id :| id in r && r[id] == e;
      }
      if e in Kept(score, m.Values, k) {
        var id :| id in m && m[id] == e;
        assert r[id] == e;
      }
    }
  }

  /** Parts of one store are determined by their envelopes. */
  lemma SubStoreByValues(x: Envelopes, y: Envelopes, all: Envelopes)
    requires WellIndexed(all) && SubStore(x, all) && SubStore(y, all) && x.Values == y.Values
    ensures x == y
  {
    forall id
      ensures id in x <==> id in y
    {
      if id in x {
        assert x[id] in y.Values;
        var j :| j in y && y[j] == x[id];
      }
      if id in y {
        assert y[id] in x.Values;
        var j :| j in x && x[j] == y[id];
      }
    }
  }

  lemma UnionOfParts(x: Envelopes, y: Envelopes, all: Envelopes)
    requires WellIndexed(all) && SubStore(x, all) && SubStore(y, all)
    ensures SubStore(x + y, all) && WellIndexed(x + y) && (x + y).Values == x.Values + y.Values
  {
    forall e
      ensures e in (x + y).Values <==> e in x.Values + y.Values
    {
      if e in (x + y).Values {
        var id :| id in x + y && (x + y)[id] == e;
        assert id in x ==> x[id] == e;
        assert id in y ==> y[id] == e;
      }
      if e in x.Values {
        var id :| id in x && x[id] == e;
        assert (x + y)[id] == e;
      }
      if e in y.Values {
        var id :| id in y && y[id] == e;
        assert (x + y)[id] == e;
      }
    }
  }

  lemma SubStoreTransitive(x: Envelopes, y: Envelopes, all: Envelopes)
    requires SubStore(x, y) && SubStore(y, all)
    ensures SubStore(x, all)
  {
  }

  /** A merge of parts of one store keeps exactly the top envelopes of both. */
  lemma MergedParts(score: Score, x: Envelopes, y: Envelopes, all: Envelopes, k: nat)
    requires WellIndexed(all) && SubStore(x, all) && SubStore(y, all)
    ensures SubStore(Merged(score, x, y, k), all)
    ensures Merged(score, x, y, k).Values == Kept(score, x.Values + y.Values, k)
  {
    hide SubStore, WellIndexed, Kept;
    UnionOfParts(y, x, all);
    KeptMapFacts(score, y + x, k);
    SubStoreTransitive(Merged(score, x, y, k), y + x, all);
    assert y.Values + x.Values == x.Values + y.Values;
  }

  lemma AgreeingParts(a: Envelopes, b: Envelopes, c: Envelopes)
    requires WellIndexed(a) && WellIndexed(b) && WellIndexed(c)
    requires Agree(a, b) && Agree(a, c) && Agree(b, c)
    ensures WellIndexed(a + b + c)
    ensures SubStore(a, a + b + c) && SubStore(b, a + b + c) && SubStore(c, a + b + c)
  {
  }

  /**
   With one capacity, distinct scores and equal envelopes under equal ids, merging is a
   semilattice even though it evicts: commutative, associative and idempotent on stores that fit.
   */
  lemma BoundedMergeIsSemilattice(score: Score, a: Envelopes, b: Envelopes, c: Envelopes, k: nat)
    requires WellIndexed(a) && WellIndexed(b) && WellIndexed(c)
    requires Agree(a, b) && Agree(a, c) && Agree(b, c)
    requires DistinctScores(score, (a + b + c).Values) && |a| <= k
    ensures Merged(score, a, b, k) == Merged(score, b, a, k)
    ensures Merged(score, Merged(score, a, b, k), c, k) == Merged(score, a, Merged(score, b, c, k), k)
    ensures Merged(score, a, a, k) == a
  {
    hide SubStore, WellIndexed, Agree, Kept, Merged, DistinctScores;
    var all := a + b + c;
    AgreeingParts(a, b, c);
    MergedParts(score, a, b, all, k);
    MergedParts(score, b, a, all, k);
    assert a.Values + b.Values == b.Values + a.Values;
    SubStoreByValues(Merged(score, a, b, k), Merged(score, b, a, k), all);
    MergedParts(score, b, c, all, k);
    MergedParts(score, Merged(score, a, b, k), c, all, k);
    MergedParts(score, a, Merged(score, b, c, k), all, k);
    KeptAssociates(score, a, b, c, k);
    SubStoreByValues(Merged(score, Merged(score, a, b, k), c, k), Merged(score, a, Merged(score, b, c, k), k), all);
    MergedParts(score, a, a, all, k);
    KeptSelf(score, a, k);
    SubStoreByValues(Merged(score, a, a, k), a, all);
  }

  lemma KeptSelf(score: Score, a: Envelopes, k: nat)
    requires WellIndexed(a) && |a| <= k
    ensures Kept(score, a.Values + a.Values, k) == a.Values
  {
    assert a.Values + a.Values == a.Values;
    ValuesSize(a);
    AllKeptBelowCapacity(score, a.Values, k);
  }

  lemma KeptAssociates(score: Score, a: Envelopes, b: Envelopes, c: Envelopes, k: nat)
    requires WellIndexed(a) && WellIndexed(b) && WellIndexed(c)
    requires Agree(a, b) && Agree(a, c) && Agree(b, c)
    requires DistinctScores(score, (a + b + c).Values)
    ensures Kept(score, Kept(score, a.Values + b.Values, k) + c.Values, k) ==
            Kept(score, a.Values + Kept(score, b.Values + c.Values, k), k)
  {
    hide Kept, SubStore, WellIndexed, Agree, DistinctScores;
    var x, y, z := a.Values, b.Values, c.Values;
    AgreeingParts(a, b, c);
    UnionOfParts(a, b, a + b + c);
    UnionOfParts(a + b, c, a + b + c);
    assert x + y + z == (y + z) + x;
    KeptAbsorbs(score, x + y, z, k);
    KeptAbsorbs(score, y + z, x, k);
    assert Kept(score, y + z, k) + x == x + Kept(score, y + z, k);
  }

  lemma UnionsAgreeExactlyWhen(a: Envelopes, b: Envelopes)
    ensures a + b == b + a <==> Agree(a, b)
    ensures |a + b| == |b + a|
  {
    assert (a + b).Keys == (b + a).Keys;
    assert |(a + b).Keys| == |(b + a).Keys|;
    if a + b == b + a {
      forall id | id in a && id in b
        ensures a[id] == b[id]
      {
        assert (a + b)[id] == b[id] && (b + a)[id] == a[id];
      }
    }
  }

  /** Every id on which the two disagree is evicted in both merge orders. */
  ghost predicate ConflictsEvicted(score: Score, a: Envelopes, b: Envelopes, k: nat) {
    forall id :: id in a && id in b && a[id] != b[id] ==>
      a[id] !in Kept(score, (b + a).Values, k) && b[id] !in Kept(score, (a + b).Values, k)
  }

  /** What one order keeps the other order holds too, when no conflict survives. */
  lemma SurvivorsAreShared(score: Score, a: Envelopes, b: Envelopes, k: nat, e: StoredEnvelope)
    requires ConflictsEvicted(score, a, b, k) && e in Kept(score, (b + a).Values, k)
    ensures e in (a + b).Values
  {
    var id :| id in b + a && (b + a)[id] == e;
    assert (a + b)[id] == e;
  }

  /** Two sets of one size that each hold the other's top envelopes have the same ones. */
  lemma SameTop(score: Score, u: set<StoredEnvelope>, v: set<StoredEnvelope>, k: nat)
    requires DistinctScores(score, u) && DistinctScores(score, v) && |u| == |v|
    requires Kept(score, u, k) <= v && Kept(score, v, k) <= u
    ensures Kept(score, u, k) == Kept(score, v, k)
  {
    hide Kept, DistinctScores;
    var x, y := Kept(score, u, k), Kept(score, v, k);
    KeptSize(score, u, k);
    KeptSize(score, v, k);
    if e :| e in x && e !in y {
      if y <= x {
        SubsetSize(y, x);
        assert false;
      }
      var f :| f in y && f !in x;
      KeptOutranksDropped(score, u, k, e, f);
      KeptOutranksDropped(score, v, k, f, e);
    } else if x != y {
      SubsetSize(x, y);
    }
  }

  lemma UnionValuesSize(a: Envelopes, b: Envelopes)
    requires WellIndexed(a) && WellIndexed(b)
    ensures WellIndexed(a + b) && WellIndexed(b + a) && |(a + b).Values| == |(b + a).Values|
  {
    UnionsAgreeExactlyWhen(a, b);
    ValuesSize(a + b);
    ValuesSize(b + a);
  }

  /** Well indexed stores are determined by their envelopes. */
  lemma IndexedByValues(x: Envelopes, y: Envelopes)
    requires WellIndexed(x) && WellIndexed(y) && x.Values == y.Values
    ensures x == y
  {
    forall id
      ensures id in x ==> id in y && y[id] == x[id]
      ensures id in y ==> id in x && x[id] == y[id]
    {
      if id in x {
        assert x[id] in y.Values;
        var j :| j in y && y[j] == x[id];
      }
      if id in y {
        assert y[id] in x.Values;
        var j :| j in x && x[j] == y[id];
      }
    }
  }

  lemma ConflictsEvictedCommutes(score: Score, a: Envelopes, b: Envelopes, k: nat)
    requires WellIndexed(a) && WellIndexed(b) && ConflictsEvicted(score, a, b, k)
    requires DistinctScores(score, (a + b).Values) && DistinctScores(score, (b + a).Values)
    ensures Merged(score, a, b, k) == Merged(score, b, a, k)
  {
    hide Kept, DistinctScores, KeptMap, WellIndexed, ConflictsEvicted;
    UnionValuesSize(a, b);
    var u, v := (b + a).Values, (a + b).Values;
    forall e | e in Kept(score, u, k)
      ensures e in v
    {
      SurvivorsAreShared(score, a, b, k, e);
    }
    ConflictsFlip(score, a, b, k);
    forall e | e in Kept(score, v, k)
      ensures e in u
    {
      SurvivorsAreShared(score, b, a, k, e);
    }
    SameTop(score, u, v, k);
    KeptMapFacts(score, b + a, k);
    KeptMapFacts(score, a + b, k);
    IndexedByValues(KeptMap(score, b + a, k), KeptMap(score, a + b, k));
  }

  lemma ConflictsFlip(score: Score, a: Envelopes, b: Envelopes, k: nat)
    requires ConflictsEvicted(score, a, b, k)
    ensures ConflictsEvicted(score, b, a, k)
  {
    hide Kept;
  }

  lemma KeptMapAt(score: Score, m: Envelopes, k: nat, id: Key)
    ensures id in KeptMap(score, m, k) <==> id in m && m[id] in Kept(score, m.Values, k)
    ensures id in KeptMap(score, m, k) ==> KeptMap(score, m, k)[id] == m[id]
  {
  }

  lemma CommutingEvictsConflicts(score: Score, a: Envelopes, b: Envelopes, k: nat)
    requires Merged(score, a, b, k) == Merged(score, b, a, k)
    ensures ConflictsEvicted(score, a, b, k)
  {
    hide Kept, KeptMap;
    forall id | id in a && id in b && a[id] != b[id]
      ensures a[id] !in Kept(score, (b + a).Values, k) && b[id] !in Kept(score, (a + b).Values, k)
    {
      KeptMapAt(score, b + a, k, id);
      KeptMapAt(score, a + b, k, id);
    }
  }

  /**
   At any capacity, with distinct scores, the two merge orders agree exactly when every id held
   under two envelopes is evicted in both.
   */
  lemma MergeCommutesExactlyWhen(score: Score, a: Envelopes, b: Envelopes, k: nat)
    requires WellIndexed(a) && WellIndexed(b)
    requires DistinctScores(score, (a + b).Values) && DistinctScores(score, (b + a).Values)
    ensures Merged(score, a, b, k) == Merged(score, b, a, k) <==> ConflictsEvicted(score, a, b, k)
  {
    hide Kept, DistinctScores, Merged, ConflictsEvicted, WellIndexed;
    if ConflictsEvicted(score, a, b, k) {
      ConflictsEvictedCommutes(score, a, b, k);
    }
    if Merged(score, a, b, k) == Merged(score, b, a, k) {
      CommutingEvictsConflicts(score, a, b, k);
    }
  }

  /** While everything fits, whatever the scores, that is when shared ids hold equal envelopes. */
  lemma FittingMergeCommutesExactlyWhen(score: Score, a: Envelopes, b: Envelopes, k: nat)
    requires WellIndexed(a) && WellIndexed(b) && |a + b| <= k
    ensures Merged(score, a, b, k) == b + a && Merged(score, b, a, k) == a + b
    ensures Merged(score, a, b, k) == Merged(score, b, a, k) <==> Agree(a, b)
  {
    hide KeptMap, Agree;
    UnionsAgreeExactlyWhen(a, b);
    NothingEvicted(score, a + b, k);
    NothingEvicted(score, b + a, k);
  }

  /** Inserting into a store that already evicted gives what a single eviction at the end would. */
  lemma InsertAbsorbs(score: Score, m: Envelopes, e: StoredEnvelope, k: nat)
    requires WellIndexed(m) && (e.messageId in m ==> m[e.messageId] == e)
    requires DistinctScores(score, m[e.messageId := e].Values)
    ensures KeptMap(score, KeptMap(score, m, k)[e.messageId := e], k) == KeptMap(score, m[e.messageId := e], k)
  {
    hide Kept, DistinctScores, KeptMap;
    var all, one, x := m[e.messageId := e], map[e.messageId := e], KeptMap(score, m, k);
    KeptMapFacts(score, m, k);
    UnionOfParts(m, one, all);
    UnionOfParts(x, one, all);
    assert m + one == all && x + one == x[e.messageId := e];
    KeptAbsorbs(score, m.Values, one.Values, k);
    KeptMapFacts(score, x + one, k);
    KeptMapFacts(score, all, k);
    SubStoreTransitive(KeptMap(score, x + one, k), x + one, all);
    SubStoreByValues(KeptMap(score, x + one, k), KeptMap(score, all, k), all);
  }

  lemma NothingEvicted(score: Score, m: Envelopes, k: nat)
    requires WellIndexed(m) && |m| <= k
    ensures KeptMap(score, m, k) == m
  {
    ValuesSize(m);
    AllKeptBelowCapacity(score, m.Values, k);
    assert forall id :: id in m ==> m[id] in m.Values;
  }

  /** One message that arrived over different hops is enough for the merge orders to differ. */
  lemma HopCountsBreakCommutation(score: Score, x: StoredEnvelope, k: nat)
    requires k > 0
    ensures var a, b := map[x.messageId := x], map[x.messageId := x.(hopCount := x.hopCount + 1)];
            Merged(score, a, b, k) != Merged(score, b, a, k)
  {
    var a, b := map[x.messageId := x], map[x.messageId := x.(hopCount := x.hopCount + 1)];
    assert (a + b).Keys == {x.messageId};
    assert |(a + b).Keys| == 1;
    FittingMergeCommutesExactlyWhen(score, a, b, k);
    assert a[x.messageId] != b[x.messageId];
  }

  /** An expiry of 0 means never. */
  function Unexpired(m: Envelopes, now: nat): Envelopes {
    map id | id in m && (m[id].ttlExpiry == 0 || m[id].ttlExpiry > now) :: m[id]
  }

  /** The store after sweeps at each of `times`. */
  function Swept(m: Envelopes, times: seq<nat>): Envelopes {
    if times == [] then m else Unexpired(Swept(m, times[..|times| - 1]), times[|times| - 1])
  }

  /** An envelope survives any number of sweeps exactly when it has no expiry or none came that late. */
  lemma {:induction false} SurvivesSweepsExactlyWhen(m: Envelopes, times: seq<nat>, id: Key)
    ensures id in Swept(m, times) <==>
            id in m && (m[id].ttlExpiry == 0 || forall i :: 0 <= i < |times| ==> times[i] < m[id].ttlExpiry)
    ensures id in Swept(m, times) ==> Swept(m, times)[id] == m[id]
  {
    if times != [] {
      SurvivesSweepsExactlyWhen(m, times[..|times| - 1], id);
      assert forall i :: 0 <= i < |times| - 1 ==> times[i] == times[..|times| - 1][i];
    }
  }

  class Store {
    var messages: Envelopes
    const maxMessages: nat

    ghost predicate Valid()
      reads this
    {
      WellIndexed(messages) && |messages| <= maxMessages
    }

    constructor (max: nat)
      ensures Valid() && messages == map[] && maxMessages == max
    {
      messages := map[];
      maxMessages := max;
    }

    /** Which of several equally low envelopes goes is up to the hash map's iteration order. */
    method EvictIfOverBudget(score: Score)
      requires WellIndexed(messages)
      modifies this`messages
      ensures Valid()
      ensures Trimmed(score, old(messages), messages, maxMessages)
      ensures |messages| == Min(|old(messages)|, maxMessages)
      ensures DistinctScores(score, old(messages).Values) ==> messages == KeptMap(score, old(messages), maxMessages)
    {
      ghost var all := messages;
      while |messages| > maxMessages
        invariant Trimmed(score, all, messages, maxMessages) && |messages| <= |all|
        decreases |messages|
      {
        LowestIdExists(score, messages);
        var id := LowestId(score);
        TrimStep(score, all, messages, maxMessages, id);
        messages := messages - {id};
      }
      TrimDone(score, all, messages, maxMessages);
      if DistinctScores(score, all.Values) {
        KeptMapFacts(score, all, maxMessages);
        SubStoreByValues(messages, KeptMap(score, all, maxMessages), all);
      }
    }

    method LowestId(score: Score) returns (id: Key)
      requires WellIndexed(messages) && messages != map[]
      ensures Lowest(score, messages, id)
    {
      LowestIdExists(score, messages);
      id :| id in messages && forall x :: x in messages ==> score(messages[id]) <= score(messages[x]);
    }

    /** A duplicate id is ignored; `true` means the id was new, even if eviction then drops it. */
    method Insert(score: Score, envelope: StoredEnvelope) returns (isNew: bool)
      requires Valid()
      modifies this`messages
      ensures Valid()
      ensures isNew == (envelope.messageId !in old(messages))
      ensures !isNew ==> messages == old(messages)
      ensures isNew ==> Trimmed(score, old(messages)[envelope.messageId := envelope], messages, maxMessages)
      ensures |messages| == Min(|old(messages)| + (if isNew then 1 else 0), maxMessages)
      ensures isNew && |old(messages)| < maxMessages ==> messages == old(messages)[envelope.messageId := envelope]
      ensures isNew && DistinctScores(score, old(messages)[envelope.messageId := envelope].Values) ==>
                messages == KeptMap(score, old(messages)[envelope.messageId := envelope], maxMessages)
    {
      if envelope.messageId in messages {
        return false;
      }
      ghost var all := messages[envelope.messageId := envelope];
      messages := messages[envelope.messageId := envelope];
      assert |all| == |old(messages)| + 1;
      EvictIfOverBudget(score);
      if |all| <= maxMessages {
        SubStoreFull(messages, all);
      }
      return true;
    }

    /** Union of two stores, then eviction back to this store's capacity. */
    method Merge(score: Score, other: Store)
      requires Valid() && other.Valid() && other != this
      modifies this`messages
      ensures Valid()
      ensures Trimmed(score, other.messages + old(messages), messages, maxMessages)
      ensures |other.messages + old(messages)| <= maxMessages ==> messages == other.messages + old(messages)
      ensures DistinctScores(score, (other.messages + old(messages)).Values) ==>
                messages == Merged(score, old(messages), other.messages, maxMessages)
    {
      ghost var all := other.messages + messages;
      Absorb(other.messages);
      EvictIfOverBudget(score);
      if |all| <= maxMessages {
        SubStoreFull(messages, all);
      }
    }

    /** The insertion loop of a merge: ids already held keep their envelope. */
    method Absorb(incoming: Envelopes)
      requires WellIndexed(messages) && WellIndexed(incoming)
      modifies this`messages
      ensures messages == incoming + old(messages) && WellIndexed(messages)
    {
      ghost var mine := messages;
      var pending := incoming.Keys;
      while pending != {}
        invariant pending <= incoming.Keys
        invariant messages.Keys == mine.Keys + (incoming.Keys - pending)
        invariant forall id :: id in messages ==> messages[id] == if id in mine then mine[id] else incoming[id]
        decreases pending
      {
        var id :| id in pending;
        pending := pending - {id};
        if id !in messages {
          messages := messages[id := incoming[id]];
        }
      }
      assert messages.Keys == (incoming + mine).Keys;
    }

    method Remove(id: Key) returns (present: bool)
      requires Valid()
      modifies this`messages
      ensures Valid() && present == (id in old(messages)) && messages == old(messages) - {id}
    {
      present := id in messages;
      assert present ==> |messages - {id}| == |messages| - 1;
      assert !present ==> messages - {id} == messages;
      messages := messages - {id};
    }

    method RemoveExpired(now: nat) returns (removed: nat)
      requires Valid()
      modifies this`messages
      ensures Valid()
      ensures messages == Unexpired(old(messages), now)
      ensures forall id :: id in messages <==>
                id in old(messages) && (old(messages)[id].ttlExpiry == 0 || now < old(messages)[id].ttlExpiry)
      ensures removed == |old(messages)| - |messages|
    {
      var kept := Unexpired(messages, now);
      KeySubsetSize(kept.Keys, messages.Keys);
      removed := |messages| - |kept|;
      messages := kept;
    }
  }

  lemma KeySubsetSize(a: set<Key>, b: set<Key>)
    requires a <= b
    ensures |a| <= |b|
    ensures |a| == |b| ==> a == b
  {
    assert b == a + (b - a);
  }

  lemma SubStoreFull(m: Envelopes, all: Envelopes)
    requires SubStore(m, all) && |m| == |all|
    ensures m == all
  {
    KeySubsetSize(m.Keys, all.Keys);
  }
}
