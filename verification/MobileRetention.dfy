/**
 Retention and age pruning of the mobile history (core/src/mobile_bridge.rs,
 `enforce_retention` and `prune_before`), and what they leave for the queries.
 */
module MobileRetention {
  import opened Sequences
  import opened SledTree
  import opened MobileHistory
  import Lex

  function IsBefore(r: MessageRecord): MessageRecord -> bool {
    x => Before(x, r)
  }

  /** How many records of `v` are retained in preference to `r`. */
  function Rank(v: seq<MessageRecord>, r: MessageRecord): nat {
    |Filter(IsBefore(r), v)|
  }

  function RankBelow(v: seq<MessageRecord>, n: nat): MessageRecord -> bool {
    r => Rank(v, r) < n
  }

  function NotOlder(cutoff: nat): MessageRecord -> bool {
    (r: MessageRecord) => r.timestamp >= cutoff
  }

  /** Apply a test to the record an entry holds, as queries see it. */
  function OnRecord(p: MessageRecord -> bool): Entry<MessageRecord> -> bool {
    e => p(AdjustedValue(e))
  }

  function Select(p: MessageRecord -> bool, t: Store): Store {
    Filter(OnRecord(p), t)
  }

  /** The store cut back to its `n` newest records. */
  function Retained(t: Store, n: nat): Store {
    Select(RankBelow(View(t), n), t)
  }

  /** The store without the records older than `cutoff`. */
  function Pruned(t: Store, cutoff: nat): Store {
    Select(NotOlder(cutoff), t)
  }

  lemma SelectView(p: MessageRecord -> bool, t: Store)
    ensures View(Select(p, t)) == Filter(p, View(t))
  {
    MapFilter(AdjustedValue, OnRecord(p), p, t);
  }

  lemma ViewMember(t: Store, e: Entry<MessageRecord>)
    requires e in t
    ensures AdjustedValue(e) in View(t)
  {
    MapMember(AdjustedValue, t, AdjustedValue(e));
  }

  lemma SelectTwice(p: MessageRecord -> bool, q: MessageRecord -> bool, both: MessageRecord -> bool, t: Store)
    requires forall r :: r in View(t) ==> both(r) == (q(r) && p(r))
    ensures Select(p, Select(q, t)) == Select(both, t)
  {
    forall e | e in t
      ensures OnRecord(both)(e) == (OnRecord(q)(e) && OnRecord(p)(e))
    {
      ViewMember(t, e);
    }
    FilterTwice(OnRecord(p), OnRecord(q), OnRecord(both), t);
  }

  lemma RankPermutation(v: seq<MessageRecord>, w: seq<MessageRecord>, r: MessageRecord)
    requires multiset(v) == multiset(w)
    ensures Rank(v, r) == Rank(w, r)
  {
    FilterPermutation(IsBefore(r), v, w);
    assert |multiset(Filter(IsBefore(r), v))| == |multiset(Filter(IsBefore(r), w))|;
  }

  /** A filter that keeps everything ranked before `r` does not change the rank of `r`. */
  lemma RankStable(v: seq<MessageRecord>, keep: MessageRecord -> bool, r: MessageRecord)
    requires forall x :: x in v && Before(x, r) ==> keep(x)
    ensures Rank(Filter(keep, v), r) == Rank(v, r)
  {
    FilterTwice(IsBefore(r), keep, IsBefore(r), v);
  }

  lemma RankMonotone(v: seq<MessageRecord>, a: MessageRecord, b: MessageRecord)
    requires Before(a, b)
    ensures Rank(v, a) <= Rank(v, b)
    ensures a in v ==> Rank(v, a) < Rank(v, b)
  {
    if v != [] {
      BeforeIsStrict(v[0], a, b);
      BeforeIsStrict(a, b, b);
      RankMonotone(v[1..], a, b);
      assert v == [v[0]] + v[1..];
    }
  }

  lemma RankWithinCut(v: seq<MessageRecord>, m: nat, r: MessageRecord)
    requires Rank(v, r) < m
    ensures Rank(Filter(RankBelow(v, m), v), r) == Rank(v, r)
  {
    forall x | x in v && Before(x, r)
      ensures RankBelow(v, m)(x)
    {
      RankMonotone(v, x, r);
    }
    RankStable(v, RankBelow(v, m), r);
  }

  /** Cutting to m and then to n is cutting to the smaller. */
  lemma RetentionComposes(t: Store, m: nat, n: nat)
    ensures Retained(Retained(t, m), n) == Retained(t, Min(m, n))
  {
    var v, u := View(t), Retained(t, m);
    SelectView(RankBelow(v, m), t);
    forall r | r in v
      ensures RankBelow(v, Min(m, n))(r) == (RankBelow(v, m)(r) && RankBelow(View(u), n)(r))
    {
      if Rank(v, r) < m {
        RankWithinCut(v, m, r);
      }
    }
    SelectTwice(RankBelow(View(u), n), RankBelow(v, m), RankBelow(v, Min(m, n)), t);
  }

  /** Retention and age pruning commute. */
  lemma RetentionCommutesWithPruning(t: Store, n: nat, cutoff: nat)
    ensures Pruned(Retained(t, n), cutoff) == Retained(Pruned(t, cutoff), n)
  {
    var v, u := View(t), Pruned(t, cutoff);
    SelectView(NotOlder(cutoff), t);
    var both := (r: MessageRecord) => Rank(v, r) < n && r.timestamp >= cutoff;
    forall r | r in v
      ensures both(r) == (NotOlder(cutoff)(r) && RankBelow(View(u), n)(r))
    {
      if r.timestamp >= cutoff {
        RankStable(v, NotOlder(cutoff), r);
      }
    }
    SelectTwice(NotOlder(cutoff), RankBelow(v, n), both, t);
    SelectTwice(RankBelow(View(u), n), NotOlder(cutoff), both, t);
  }

  // -------------------------------------------------------- the kept prefix

  /** All records in retention order. */
  function Shelf(t: Store): seq<MessageRecord> {
    Sort(RetentionOrder, View(t))
  }

  lemma ShelfFacts(t: Store)
    requires WellKeyed(t)
    ensures multiset(Shelf(t)) == multiset(View(t)) && |Shelf(t)| == |t|
    ensures forall i, j :: 0 <= i < j < |Shelf(t)| ==> Before(Shelf(t)[i], Shelf(t)[j])
  {
    var s := Shelf(t);
    ViewDistinct(t);
    DistinctIdsNoTies(View(t));
    OrdersAreRankings();
    SortMultiset(RetentionOrder, View(t));
    SortIsSorted(RetentionOrder, View(t));
    SortedDistinct(RetentionOrder, View(t));
    forall i, j | 0 <= i < j < |s|
      ensures Before(s[i], s[j])
    {
      assert RetentionOrder(s[i], s[j]);
      assert s[i].id != s[j].id;
    }
  }

  lemma SortedDistinct(le: (MessageRecord, MessageRecord) -> bool, v: seq<MessageRecord>)
    requires DistinctIds(v)
    ensures DistinctIds(Sort(le, v))
  {
    if v != [] {
      SortedDistinct(le, v[1..]);
      var r := Sort(le, v[1..]);
      forall i | 0 <= i < |r|
        ensures r[i].id != v[0].id
      {
        SortMember(le, v[1..], r[i]);
      }
      InsertDistinct(le, v[0], r);
    }
  }

  lemma InsertDistinct(le: (MessageRecord, MessageRecord) -> bool, x: MessageRecord, s: seq<MessageRecord>)
    requires DistinctIds(s) && forall i :: 0 <= i < |s| ==> s[i].id != x.id
    ensures DistinctIds(InsertSorted(le, x, s))
  {
    if s != [] && !le(x, s[0]) {
      InsertDistinct(le, x, s[1..]);
      var r := InsertSorted(le, x, s[1..]);
      forall i | 0 <= i < |r|
        ensures r[i].id != s[0].id
      {
        InsertMultiset(le, x, s[1..]);
        SameMember(r, [x] + s[1..], r[i]);
      }
    }
  }

  /** In retention order, position is rank. */
  lemma ShelfRank(t: Store, i: nat)
    requires WellKeyed(t) && i < |t|
    ensures |Shelf(t)| == |t| && Rank(View(t), Shelf(t)[i]) == i
  {
    var s := Shelf(t);
    ShelfFacts(t);
    forall j | 0 <= j < |s|
      ensures Before(s[j], s[i]) <==> j < i
    {
      BeforeIsStrict(s[i], s[j], s[i]);
    }
    FilterPrefix(IsBefore(s[i]), s, i);
    RankPermutation(View(t), s, s[i]);
  }

  lemma SelectSorted(t: Store, le: (MessageRecord, MessageRecord) -> bool, p: MessageRecord -> bool)
    requires WellKeyed(t) && (le == QueryOrder || le == RetentionOrder)
    ensures Sort(le, View(Select(p, t))) == Filter(p, Sort(le, View(t)))
  {
    hide WellKeyed, DistinctIds, NoTies, Ranking;
    SelectView(p, t);
    ViewDistinct(t);
    DistinctIdsNoTies(View(t));
    OrdersAreRankings();
    SortFilterCommute(le, p, View(t));
  }

  /** Retention keeps a prefix of the shelf: exactly min(total, n) records. */
  lemma RetentionKeepsPrefix(t: Store, n: nat)
    requires WellKeyed(t)
    ensures WellKeyed(Retained(t, n))
    ensures Shelf(Retained(t, n)) == Take(Shelf(t), n)
    ensures |Retained(t, n)| == Min(|t|, n)
  {
    hide WellKeyed;
    var p := RankBelow(View(t), n);
    SelectWellKeyed(p, t);
    SelectSorted(t, RetentionOrder, p);
    ShelfFacts(t);
    ShelfFacts(Retained(t, n));
    forall i | 0 <= i < |t|
      ensures p(Shelf(t)[i]) <==> i < Min(|t|, n)
    {
      ShelfRank(t, i);
    }
    FilterPrefix(p, Shelf(t), Min(|t|, n));
  }

  lemma SelectWellKeyed(p: MessageRecord -> bool, t: Store)
    requires WellKeyed(t)
    ensures WellKeyed(Select(p, t))
  {
    FilterAscending(OnRecord(p), t);
    forall i | 0 <= i < |Select(p, t)|
      ensures Select(p, t)[i].key == Select(p, t)[i].value.id
    {
      FilterMember(OnRecord(p), t, Select(p, t)[i]);
    }
  }

  /** No dropped record is newer than a kept one. */
  lemma NothingNewerIsDropped(t: Store, n: nat, kept: Entry<MessageRecord>, dropped: Entry<MessageRecord>)
    requires WellKeyed(t) && kept in Retained(t, n) && dropped in t && dropped !in Retained(t, n)
    ensures kept.value.timestamp >= dropped.value.timestamp
  {
    var p := OnRecord(RankBelow(View(t), n));
    FilterMember(p, t, kept);
    FilterMember(p, t, dropped);
    ViewMember(t, dropped);
    if Before(AdjustedValue(dropped), AdjustedValue(kept)) {
      RankMonotone(View(t), AdjustedValue(dropped), AdjustedValue(kept));
    }
  }

  // ------------------------------------------------- retention and queries

  ghost predicate NewestFirst(s: seq<MessageRecord>) {
    forall i, j :: 0 <= i < j < |s| ==> s[i].timestamp >= s[j].timestamp
  }

  lemma TimestampByCount(s: seq<MessageRecord>, x: nat, i: nat)
    requires NewestFirst(s) && i < |s|
    ensures s[i].timestamp >= x <==> i < |Filter(NotOlder(x), s)|
  {
    if s[0].timestamp >= x {
      if i > 0 {
        TimestampByCount(s[1..], x, i - 1);
      }
    } else {
      FilterNone(NotOlder(x), s);
    }
  }

  /** Two newest-first arrangements of the same records show the same timestamps. */
  lemma SameTimestamps(a: seq<MessageRecord>, b: seq<MessageRecord>, i: nat)
    requires multiset(a) == multiset(b) && NewestFirst(a) && NewestFirst(b) && i < |a|
    ensures |a| == |b| && a[i].timestamp == b[i].timestamp
  {
    assert |multiset(a)| == |multiset(b)|;
    SameCount(a, b, a[i].timestamp);
    SameCount(a, b, b[i].timestamp);
    TimestampByCount(a, a[i].timestamp, i);
    TimestampByCount(b, a[i].timestamp, i);
    TimestampByCount(a, b[i].timestamp, i);
    TimestampByCount(b, b[i].timestamp, i);
  }

  lemma SameCount(a: seq<MessageRecord>, b: seq<MessageRecord>, x: nat)
    requires multiset(a) == multiset(b)
    ensures |Filter(NotOlder(x), a)| == |Filter(NotOlder(x), b)|
  {
    FilterPermutation(NotOlder(x), a, b);
    assert |multiset(Filter(NotOlder(x), a))| == |multiset(Filter(NotOlder(x), b))|;
  }

  /** All records in query order. */
  function Listing(t: Store): seq<MessageRecord> {
    Sort(QueryOrder, View(t))
  }

  lemma ListingFacts(t: Store)
    requires WellKeyed(t)
    ensures multiset(Listing(t)) == multiset(View(t)) && |Listing(t)| == |t|
    ensures NewestFirst(Listing(t)) && NewestFirst(Shelf(t))
    ensures multiset(Shelf(t)) == multiset(Listing(t))
  {
    OrdersAreRankings();
    SortMultiset(QueryOrder, View(t));
    SortIsSorted(QueryOrder, View(t));
    SortMultiset(RetentionOrder, View(t));
    SortIsSorted(RetentionOrder, View(t));
    forall i, j | 0 <= i < j < |Listing(t)|
      ensures Listing(t)[i].timestamp >= Listing(t)[j].timestamp
    {
      assert QueryOrder(Listing(t)[i], Listing(t)[j]);
    }
    forall i, j | 0 <= i < j < |Shelf(t)|
      ensures Shelf(t)[i].timestamp >= Shelf(t)[j].timestamp
    {
      assert RetentionOrder(Shelf(t)[i], Shelf(t)[j]);
    }
  }

  lemma EverythingListed(t: Store, limit: nat)
    ensures RecentIncludingHidden(t, None, limit) == Take(Listing(t), limit)
  {
    FilterAll(Everything(), View(t));
  }

  /** Ties or not, retention to n leaves the timestamps of the k <= n newest records as they were. */
  lemma RetentionKeepsRecentTimestamps(t: Store, n: nat, k: nat, i: nat)
    requires WellKeyed(t) && k <= n
    requires i < |RecentIncludingHidden(t, None, k)|
    ensures |RecentIncludingHidden(Retained(t, n), None, k)| == |RecentIncludingHidden(t, None, k)|
    ensures RecentIncludingHidden(Retained(t, n), None, k)[i].timestamp ==
            RecentIncludingHidden(t, None, k)[i].timestamp
  {
    var u := Retained(t, n);
    RetentionKeepsPrefix(t, n);
    EverythingListed(t, k);
    EverythingListed(u, k);
    ListingFacts(t);
    ListingFacts(u);
    SameTimestamps(Listing(t), Shelf(t), i);
    SameTimestamps(Listing(u), Shelf(u), i);
  }

  /** The cut falls between two records of one timestamp. */
  ghost predicate TieAtCut(t: Store, n: nat) {
    0 < n < |Shelf(t)| && Shelf(t)[n - 1].timestamp == Shelf(t)[n].timestamp
  }

  /** Without a tie at the cut, retention is an age cut. */
  lemma CleanCutIsPrune(t: Store, n: nat)
    requires WellKeyed(t) && 0 < n < |t| && !TieAtCut(t, n)
    ensures |Shelf(t)| == |t| && Retained(t, n) == Pruned(t, Shelf(t)[n].timestamp + 1)
  {
    hide Filter;
    var s := Shelf(t);
    ShelfFacts(t);
    ListingFacts(t);
    var cutoff := s[n].timestamp + 1;
    forall e | e in t
      ensures OnRecord(RankBelow(View(t), n))(e) == OnRecord(NotOlder(cutoff))(e)
    {
      ViewMember(t, e);
      SameMember(s, View(t), AdjustedValue(e));
      var i :| 0 <= i < |s| && s[i] == AdjustedValue(e);
      ShelfRank(t, i);
    }
    FilterCongruence(OnRecord(RankBelow(View(t), n)), OnRecord(NotOlder(cutoff)), t);
  }

  lemma AgeCutOfListing(t: Store, n: nat, cutoff: nat)
    requires WellKeyed(t) && n <= |t| && |Shelf(t)| == |t|
    requires forall i :: 0 <= i < |t| ==> (Shelf(t)[i].timestamp >= cutoff <==> i < n)
    ensures Listing(Pruned(t, cutoff)) == Take(Listing(t), n)
  {
    ListingFacts(t);
    SelectSorted(t, QueryOrder, NotOlder(cutoff));
    forall i | 0 <= i < |Listing(t)|
      ensures NotOlder(cutoff)(Listing(t)[i]) <==> i < n
    {
      SameTimestamps(Listing(t), Shelf(t), i);
    }
    FilterPrefix(NotOlder(cutoff), Listing(t), n);
  }

  lemma CleanCutKeepsListing(t: Store, n: nat)
    requires WellKeyed(t) && !TieAtCut(t, n)
    ensures Listing(Retained(t, n)) == Take(Listing(t), n)
  {
    hide WellKeyed;
    ListingFacts(t);
    ShelfFacts(t);
    if n == 0 {
      RetentionKeepsPrefix(t, n);
      ListingFacts(Retained(t, n));
    } else if n >= |t| {
      KeepAll(t, n);
    } else {
      CleanCutIsPrune(t, n);
      AgeCutOfListing(t, n, Shelf(t)[n].timestamp + 1);
    }
  }

  lemma KeepAll(t: Store, n: nat)
    requires WellKeyed(t) && n >= |t|
    ensures Retained(t, n) == t
  {
    forall e | e in t
      ensures OnRecord(RankBelow(View(t), n))(e)
    {
      ViewMember(t, e);
      ShelfFacts(t);
      SameMember(Shelf(t), View(t), AdjustedValue(e));
      var i :| 0 <= i < |t| && Shelf(t)[i] == AdjustedValue(e);
      ShelfRank(t, i);
    }
    FilterAll(OnRecord(RankBelow(View(t), n)), t);
  }

  /** How many records are strictly newer than the last one retained. */
  function NewerThanCut(t: Store, n: nat): nat {
    if 0 < n <= |Shelf(t)| then |Filter(NotOlder(Shelf(t)[n - 1].timestamp + 1), View(t))| else 0
  }

  /** The records strictly newer than the last one retained come first in every order. */
  lemma NewerComeFirst(t: Store, n: nat, i: nat)
    requires WellKeyed(t) && 0 < n <= |t| && i < |t|
    ensures |Shelf(t)| == |t| && |Listing(t)| == |t| && NewerThanCut(t, n) < n
    ensures Shelf(t)[i].timestamp > Shelf(t)[n - 1].timestamp <==> i < NewerThanCut(t, n)
    ensures Listing(t)[i].timestamp == Shelf(t)[i].timestamp
  {
    hide Filter;
    ShelfFacts(t);
    ListingFacts(t);
    var x := Shelf(t)[n - 1].timestamp + 1;
    SameCount(Shelf(t), View(t), x);
    TimestampByCount(Shelf(t), x, i);
    TimestampByCount(Shelf(t), x, n - 1);
    SameTimestamps(Listing(t), Shelf(t), i);
  }

  lemma NewerUnaffected(t: Store, n: nat)
    requires WellKeyed(t) && 0 < n <= |t|
    ensures Take(Listing(Retained(t, n)), NewerThanCut(t, n)) == Take(Listing(t), NewerThanCut(t, n))
  {
    hide Filter, WellKeyed, Retained, Pruned, NewerThanCut, Listing;
    ShelfFacts(t);
    var u, m, x := Retained(t, n), NewerThanCut(t, n), Shelf(t)[n - 1].timestamp + 1;
    RetentionKeepsPrefix(t, n);
    ShelfFacts(u);
    forall i | 0 <= i < |t|
      ensures Shelf(t)[i].timestamp >= x <==> i < m
    {
      NewerComeFirst(t, n, i);
    }
    NewerComeFirst(t, n, 0);
    AgeCutOfListing(t, m, x);
    assert Shelf(u) == Take(Shelf(t), n);
    AgeCutOfListing(u, m, x);
    RetentionCommutesWithPruning(t, n, x);
    PrunedFits(t, m, n, x);
  }

  lemma PrunedFits(t: Store, m: nat, n: nat, x: nat)
    requires WellKeyed(t) && m <= n && Listing(Pruned(t, x)) == Take(Listing(t), m)
    ensures Retained(Pruned(t, x), n) == Pruned(t, x)
  {
    SelectWellKeyed(NotOlder(x), t);
    ListingFacts(Pruned(t, x));
    KeepAll(Pruned(t, x), n);
  }

  /** Within one timestamp the query lists records in the reverse of the retention order. */
  lemma OrdersOppose(t: Store, j: nat, n: nat, a: nat, b: nat)
    requires WellKeyed(t) && |Listing(t)| == |t| && |Shelf(t)| == |t|
    requires j < n < |t| && Shelf(t)[j].timestamp == Shelf(t)[n].timestamp
    requires a < |t| && Listing(t)[a] == Shelf(t)[j] && b < |t| && Listing(t)[b] == Shelf(t)[n]
    ensures b < a
  {
    var z, y := Shelf(t)[j], Shelf(t)[n];
    OrdersAreRankings();
    SortIsSorted(QueryOrder, View(t));
    ShelfFacts(t);
    assert Before(z, y);
    BeforeIsStrict(z, y, y);
    Lex.Asymmetric(z.id, y.id);
    assert !QueryOrder(z, y);
  }

  /** On a tie at the cut the first listed record of that timestamp changes. */
  lemma TieChangesListing(t: Store, n: nat)
    requires WellKeyed(t) && TieAtCut(t, n)
    ensures var m := NewerThanCut(t, n);
            m < n && |Listing(Retained(t, n))| == n < |Listing(t)| && Listing(Retained(t, n))[m] != Listing(t)[m]
  {
    hide WellKeyed, Retained, Listing, Shelf, NewerThanCut, Filter;
    var u, m, y := Retained(t, n), NewerThanCut(t, n), Shelf(t)[n];
    RetentionKeepsPrefix(t, n);
    ListingFacts(t);
    ListingFacts(u);
    ShelfFacts(t);
    NewerComeFirst(t, n, n);
    NewerComeFirst(t, n, m);
    var z := Listing(t)[m];
    assert z.timestamp == y.timestamp;
    if Listing(u)[m] == z {
      SameMember(Listing(u), Shelf(u), z);
      var j :| 0 <= j < n && Shelf(t)[j] == z;
      SameMember(Shelf(t), Listing(t), y);
      var i :| 0 <= i < |t| && Listing(t)[i] == y;
      NewerComeFirst(t, n, i);
      OrdersOppose(t, j, n, m, i);
      assert false;
    }
  }

  /**
   For k <= n the k newest records are the same before and after retention to n exactly when no
   timestamp straddles the cut or all k are newer than it: on a tie retention keeps the smaller
   ids and the query lists the larger ones first.
   */
  lemma RetentionKeepsRecentExactlyWhen(t: Store, n: nat, k: nat)
    requires WellKeyed(t) && k <= n
    ensures RecentIncludingHidden(Retained(t, n), None, k) == RecentIncludingHidden(t, None, k) <==>
            (!TieAtCut(t, n) || k <= NewerThanCut(t, n))
  {
    hide WellKeyed, Retained, Listing, Shelf, NewerThanCut, Filter, RecentIncludingHidden;
    var u, m := Retained(t, n), NewerThanCut(t, n);
    EverythingListed(t, k);
    EverythingListed(u, k);
    RetentionKeepsPrefix(t, n);
    ListingFacts(t);
    ListingFacts(u);
    ShelfFacts(t);
    if !TieAtCut(t, n) {
      CleanCutKeepsListing(t, n);
      assert Take(Take(Listing(t), n), k) == Take(Listing(t), k);
    } else {
      TieChangesListing(t, n);
      NewerUnaffected(t, n);
      if k <= m {
        assert Take(Listing(u), k) == Take(Take(Listing(u), m), k);
        assert Take(Listing(t), k) == Take(Take(Listing(t), m), k);
      } else {
        assert Take(Listing(u), k)[m] != Take(Listing(t), k)[m];
      }
    }
  }

  // -------------------------------------------- what filtered queries show

  /** The cut parts two listed records of one timestamp. */
  ghost predicate SplitsTie(t: Store, n: nat, keep: MessageRecord -> bool) {
    exists x, y :: x in View(t) && y in View(t) && keep(x) && keep(y) && x.timestamp == y.timestamp &&
      RankBelow(View(t), n)(x) && !RankBelow(View(t), n)(y)
  }

  /** Listed records strictly newer than the last one retained. */
  function ListedNewer(t: Store, n: nat, keep: MessageRecord -> bool): nat {
    if 0 < n <= |Shelf(t)|
    then |Filter(NotOlder(Shelf(t)[n - 1].timestamp + 1), Filter(keep, Sort(QueryOrder, View(t))))| else 0
  }

  /** A query after retention shows the retained part of the listing it showed before. */
  lemma QueryAfterRetention(t: Store, n: nat, keep: MessageRecord -> bool, k: nat)
    requires WellKeyed(t)
    ensures Newest(View(t), keep, k) == Take(Filter(keep, Listing(t)), k)
    ensures Newest(View(Retained(t, n)), keep, k) ==
            Take(Filter(RankBelow(View(t), n), Filter(keep, Listing(t))), k)
  {
    hide Filter, WellKeyed, RankBelow, Sort;
    var u, p := Retained(t, n), RankBelow(View(t), n);
    RetentionKeepsPrefix(t, n);
    ViewDistinct(t);
    ViewDistinct(u);
    NewestFromListing(View(t), keep, k);
    NewestFromListing(View(u), keep, k);
    SelectSorted(t, QueryOrder, p);
    var both := (r: MessageRecord) => keep(r) && p(r);
    FilterTwice(keep, p, both, Listing(t));
    FilterTwice(p, keep, both, Listing(t));
  }

  /** Of two records, the retained one is newer, or of the same time with the smaller id. */
  lemma RetainedIsBefore(v: seq<MessageRecord>, n: nat, x: MessageRecord, y: MessageRecord)
    requires DistinctIds(v) && x in v && y in v && RankBelow(v, n)(x) && !RankBelow(v, n)(y)
    ensures Before(x, y)
  {
    var i :| 0 <= i < |v| && v[i] == x;
    var j :| 0 <= j < |v| && v[j] == y;
    assert x.id != y.id;
    BeforeIsStrict(x, y, y);
    if Before(y, x) {
      RankMonotone(v, y, x);
    }
  }

  /** When all of `f` that passes `p` comes first, filtering is cutting. */
  lemma {:induction false} FilterOfPrefix(p: MessageRecord -> bool, f: seq<MessageRecord>)
    requires forall i, j :: 0 <= i < j < |f| && p(f[j]) ==> p(f[i])
    ensures Filter(p, f) <= f
  {
    if f != [] {
      if p(f[0]) {
        FilterOfPrefix(p, f[1..]);
      } else {
        FilterNone(p, f);
      }
    }
  }

  /** Facts about the listing of a query: newest first, larger ids first within a timestamp. */
  lemma ListedFacts(t: Store, keep: MessageRecord -> bool)
    requires WellKeyed(t)
    ensures var f := Filter(keep, Listing(t));
            && SortedBy(QueryOrder, f) && NewestFirst(f)
            && forall x :: x in f <==> x in View(t) && keep(x)
  {
    var f := Filter(keep, Listing(t));
    OrdersAreRankings();
    SortIsSorted(QueryOrder, View(t));
    FilterIsSorted(QueryOrder, keep, Listing(t));
    forall i, j | 0 <= i < j < |f|
      ensures f[i].timestamp >= f[j].timestamp
    {
      assert QueryOrder(f[i], f[j]);
    }
    forall x
      ensures x in f <==> x in View(t) && keep(x)
    {
      FilterMember(keep, Listing(t), x);
      SortMember(QueryOrder, View(t), x);
    }
  }

  lemma NoSplitMeansPrefix(t: Store, n: nat, keep: MessageRecord -> bool)
    requires WellKeyed(t) && !SplitsTie(t, n, keep)
    ensures Filter(RankBelow(View(t), n), Filter(keep, Listing(t))) <= Filter(keep, Listing(t))
  {
    hide Filter, Listing, RankBelow;
    var f, p := Filter(keep, Listing(t)), RankBelow(View(t), n);
    ListedFacts(t, keep);
    ViewDistinct(t);
    forall i, j | 0 <= i < j < |f| && p(f[j])
      ensures p(f[i])
    {
      assert f[i] in f && f[j] in f;
      if !p(f[i]) {
        RetainedIsBefore(View(t), n, f[j], f[i]);
        assert false;
      }
    }
    FilterOfPrefix(p, f);
  }

  /** Everything newer than the cut is retained, and a split tie is at the cut. */
  lemma CutTimestamp(t: Store, n: nat, x: MessageRecord)
    requires WellKeyed(t) && 0 < n <= |t| && x in View(t)
    ensures |Shelf(t)| == |t|
    ensures x.timestamp > Shelf(t)[n - 1].timestamp ==> RankBelow(View(t), n)(x)
    ensures x.timestamp < Shelf(t)[n - 1].timestamp ==> !RankBelow(View(t), n)(x)
  {
    ShelfFacts(t);
    SameMember(Shelf(t), View(t), x);
    var i :| 0 <= i < |t| && Shelf(t)[i] == x;
    ShelfRank(t, i);
    if i < n - 1 {
      assert Before(Shelf(t)[i], Shelf(t)[n - 1]);
    } else if i > n - 1 {
      assert Before(Shelf(t)[n - 1], Shelf(t)[i]);
    }
  }

  lemma SplitIsAtCut(t: Store, n: nat, x: MessageRecord, y: MessageRecord)
    requires WellKeyed(t) && x in View(t) && y in View(t) && x.timestamp == y.timestamp
    requires RankBelow(View(t), n)(x) && !RankBelow(View(t), n)(y)
    ensures 0 < n <= |t| && |Shelf(t)| == |t| && x.timestamp == Shelf(t)[n - 1].timestamp
  {
    ShelfFacts(t);
    SameMember(Shelf(t), View(t), y);
    var j :| 0 <= j < |t| && Shelf(t)[j] == y;
    ShelfRank(t, j);
    CutTimestamp(t, n, x);
    CutTimestamp(t, n, y);
  }

  lemma {:induction false} FilterStartsWith(p: MessageRecord -> bool, f: seq<MessageRecord>, j: nat)
    requires j <= |f| && forall i :: 0 <= i < j ==> p(f[i])
    ensures |Filter(p, f)| >= j && Filter(p, f)[..j] == f[..j]
  {
    if j > 0 {
      FilterStartsWith(p, f[1..], j - 1);
    }
  }

  /** The listed records newer than the cut come first and are all retained. */
  lemma NewerListedStay(t: Store, n: nat, keep: MessageRecord -> bool)
    requires WellKeyed(t) && 0 < n <= |t|
    ensures |Shelf(t)| == |t|
    ensures var f, j := Filter(keep, Listing(t)), ListedNewer(t, n, keep);
            var g := Filter(RankBelow(View(t), n), f);
            && j <= |f| && j <= |g| && g[..j] == f[..j]
            && forall i :: 0 <= i < |f| ==> (f[i].timestamp > Shelf(t)[n - 1].timestamp <==> i < j)
  {
    ShelfFacts(t);
    hide Filter, Listing, RankBelow, Shelf, WellKeyed, ListedNewer;
    var f, p := Filter(keep, Listing(t)), RankBelow(View(t), n);
    ListedFacts(t, keep);
    var cut, j := Shelf(t)[n - 1].timestamp, ListedNewer(t, n, keep);
    ListedNewerCount(t, n, keep);
    ListedNewerFirst(f, cut);
    FilterLength(NotOlder(cut + 1), f);
    forall i | 0 <= i < j
      ensures p(f[i])
    {
      assert f[i] in f;
      CutTimestamp(t, n, f[i]);
    }
    FilterStartsWith(p, f, j);
  }

  /** On a split tie the listing first differs right after the records newer than the cut. */
  lemma SplitMovesListing(t: Store, n: nat, keep: MessageRecord -> bool)
    requires WellKeyed(t) && SplitsTie(t, n, keep)
    ensures var f, j := Filter(keep, Listing(t)), ListedNewer(t, n, keep);
            var g := Filter(RankBelow(View(t), n), f);
            j < |f| && j < |g| && g[..j] == f[..j] && g[j] != f[j]
  {
    hide Filter, Listing, RankBelow, Shelf, WellKeyed, ListedNewer;
    var p := RankBelow(View(t), n);
    var x, y :| x in View(t) && y in View(t) && keep(x) && keep(y) && x.timestamp == y.timestamp && p(x) && !p(y);
    SplitMovesAt(t, n, keep, x, y);
  }

  lemma SplitMovesAt(t: Store, n: nat, keep: MessageRecord -> bool, x: MessageRecord, y: MessageRecord)
    requires WellKeyed(t) && x in View(t) && y in View(t) && keep(x) && keep(y) && x.timestamp == y.timestamp
    requires RankBelow(View(t), n)(x) && !RankBelow(View(t), n)(y)
    ensures var f, j := Filter(keep, Listing(t)), ListedNewer(t, n, keep);
            var g := Filter(RankBelow(View(t), n), f);
            j < |f| && j < |g| && g[..j] == f[..j] && g[j] != f[j]
  {
    hide Filter, Listing, RankBelow, Shelf, WellKeyed, ListedNewer, NewestFirst, SortedBy, View;
    var f, p, j := Filter(keep, Listing(t)), RankBelow(View(t), n), ListedNewer(t, n, keep);
    SplitIsAtCut(t, n, x, y);
    NewerListedStay(t, n, keep);
    ListedFacts(t, keep);
    var a := TiePosition(f, y, j, Shelf(t)[n - 1].timestamp);
    TopOfTieIsDropped(t, n, keep, j, a, y);
    assert x !in f[..j];
    KeptGoesOn(p, f, j, x);
  }

  lemma TiePosition(f: seq<MessageRecord>, y: MessageRecord, j: nat, cut: nat) returns (a: nat)
    requires NewestFirst(f) && y in f && y.timestamp == cut
    requires forall i :: 0 <= i < |f| ==> (f[i].timestamp > cut <==> i < j)
    ensures j <= a < |f| && f[a] == y && f[j].timestamp == cut
  {
    a :| 0 <= a < |f| && f[a] == y;
  }

  /** A kept record beyond the agreeing part makes the kept listing longer than it, and different there. */
  lemma KeptGoesOn(p: MessageRecord -> bool, f: seq<MessageRecord>, j: nat, x: MessageRecord)
    requires j < |f| && !p(f[j]) && p(x) && x in f && x !in f[..j]
    requires |Filter(p, f)| >= j && Filter(p, f)[..j] == f[..j]
    ensures j < |Filter(p, f)| && Filter(p, f)[j] != f[j]
  {
    hide Filter;
    var g := Filter(p, f);
    FilterMember(p, f, x);
    assert x in g && x !in g[..j];
    FilterMember(p, f, g[j]);
  }

  lemma ListedNewerCount(t: Store, n: nat, keep: MessageRecord -> bool)
    requires 0 < n <= |Shelf(t)|
    ensures ListedNewer(t, n, keep) == |Filter(NotOlder(Shelf(t)[n - 1].timestamp + 1), Filter(keep, Listing(t)))|
  {
  }

  lemma ListedNewerFirst(f: seq<MessageRecord>, cut: nat)
    requires NewestFirst(f)
    ensures forall i :: 0 <= i < |f| ==> (f[i].timestamp > cut <==> i < |Filter(NotOlder(cut + 1), f)|)
  {
    forall i | 0 <= i < |f|
      ensures f[i].timestamp > cut <==> i < |Filter(NotOlder(cut + 1), f)|
    {
      TimestampByCount(f, cut + 1, i);
    }
  }

  /** The first listed record of the split timestamp has the largest id, so it is dropped. */
  lemma TopOfTieIsDropped(t: Store, n: nat, keep: MessageRecord -> bool, j: nat, a: nat, y: MessageRecord)
    requires WellKeyed(t)
    requires var f := Filter(keep, Listing(t)); j <= a < |f| && f[a] == y && f[j].timestamp == y.timestamp
    requires !RankBelow(View(t), n)(y)
    ensures !RankBelow(View(t), n)(Filter(keep, Listing(t))[j])
  {
    hide Filter, Listing, RankBelow;
    var f := Filter(keep, Listing(t));
    ListedFacts(t, keep);
    ViewDistinct(t);
    assert f[j] in f && f[a] in f;
    if RankBelow(View(t), n)(f[j]) && j < a {
      RetainedIsBefore(View(t), n, f[j], y);
      assert QueryOrder(f[j], y);
      Lex.Asymmetric(f[j].id, y.id);
    }
  }

  /**
   What a query shows after retention is a prefix of what it showed before exactly when the cut
   parts no two listed records of one timestamp, or the query stops before reaching them.
   */
  lemma RetentionShortensRecent(t: Store, n: nat, peerFilter: Option<string>, includeHidden: bool, k: nat)
    requires WellKeyed(t)
    ensures var keep := Listed(peerFilter, includeHidden);
            Newest(View(Retained(t, n)), keep, k) <= Newest(View(t), keep, k) <==>
            (!SplitsTie(t, n, keep) || k <= ListedNewer(t, n, keep))
  {
    hide Filter, Listing, RankBelow, WellKeyed, Newest, Retained, ListedNewer, SplitsTie;
    var keep := Listed(peerFilter, includeHidden);
    var f := Filter(keep, Listing(t));
    var g := Filter(RankBelow(View(t), n), f);
    QueryAfterRetention(t, n, keep, k);
    if !SplitsTie(t, n, keep) {
      NoSplitMeansPrefix(t, n, keep);
      TakePrefix(g, f, k);
    } else {
      SplitMovesListing(t, n, keep);
      var j := ListedNewer(t, n, keep);
      if k <= j {
        assert Take(g, k) == g[..j][..k] && Take(f, k) == f[..j][..k];
      } else {
        assert Take(g, k)[j] == g[j] && Take(f, k)[j] == f[j];
      }
    }
  }

  lemma TakePrefix(g: seq<MessageRecord>, f: seq<MessageRecord>, k: nat)
    requires g <= f
    ensures Take(g, k) <= Take(f, k)
  {
  }
}
