/**
 The mobile message history (core/src/mobile_bridge.rs, `HistoryManager`): records in
 a sled tree under their message id, queried by an explicit newest-first sort.
 */
module MobileHistory {
  import opened Sequences
  import opened SledTree
  import Lex

  datatype Direction = Sent | Received
  datatype Status = Queued | InCustody | StatusSent | Delivered

  datatype MessageRecord = MessageRecord(
    id: string,
    direction: Direction,
    peerId: string,
    content: string,
    timestamp: nat,
    senderTimestamp: nat,
    delivered: bool,
    status: Status,
    hidden: bool)

  type Store = Tree<MessageRecord>

  ghost predicate WellKeyed(t: Store) {
    Ascending(t) && forall i :: 0 <= i < |t| ==> t[i].key == t[i].value.id
  }

  /** Records written before sender timestamps existed fall back to the receive time. */
  function Adjusted(r: MessageRecord): MessageRecord {
    if r.senderTimestamp == 0 then r.(senderTimestamp := r.timestamp) else r
  }

  function AdjustedValue(e: Entry<MessageRecord>): MessageRecord {
    Adjusted(e.value)
  }

  /** The records as queries see them, in key order. */
  function View(t: Store): seq<MessageRecord> {
    Map(AdjustedValue, t)
  }

  lemma ViewAppend(t: Store, i: nat)
    requires i < |t|
    ensures View(t[..i + 1]) == View(t[..i]) + [AdjustedValue(t[i])]
  {
    assert t[..i + 1] == t[..i] + [t[i]];
  }

  // --------------------------------------------------------------- orders

  /** Query order: newest first, larger id first among equal timestamps. */
  predicate QueryOrder(a: MessageRecord, b: MessageRecord) {
    a.timestamp > b.timestamp || (a.timestamp == b.timestamp && Lex.AtMost(b.id, a.id))
  }

  /** Retention order: newest first, smaller id first among equal timestamps. */
  predicate RetentionOrder(a: MessageRecord, b: MessageRecord) {
    a.timestamp > b.timestamp || (a.timestamp == b.timestamp && Lex.AtMost(a.id, b.id))
  }

  predicate Before(a: MessageRecord, b: MessageRecord) {
    a.timestamp > b.timestamp || (a.timestamp == b.timestamp && Lex.Less(a.id, b.id))
  }

  ghost predicate DistinctIds(v: seq<MessageRecord>) {
    forall i, j :: 0 <= i < j < |v| ==> v[i].id != v[j].id
  }

  lemma OrdersAreRankings()
    ensures Ranking(QueryOrder) && Ranking(RetentionOrder)
  {
    forall x: MessageRecord, y: MessageRecord
      ensures QueryOrder(x, y) || QueryOrder(y, x)
      ensures RetentionOrder(x, y) || RetentionOrder(y, x)
    {
      Lex.Trichotomy(x.id, y.id);
    }
    forall x: MessageRecord, y: MessageRecord, z: MessageRecord | QueryOrder(x, y) && QueryOrder(y, z)
      ensures QueryOrder(x, z)
    {
      if x.timestamp == z.timestamp && x.id != y.id && y.id != z.id {
        Lex.Transitive(z.id, y.id, x.id);
      }
    }
    forall x: MessageRecord, y: MessageRecord, z: MessageRecord | RetentionOrder(x, y) && RetentionOrder(y, z)
      ensures RetentionOrder(x, z)
    {
      if x.timestamp == z.timestamp && x.id != y.id && y.id != z.id {
        Lex.Transitive(x.id, y.id, z.id);
      }
    }
  }

  lemma DistinctIdsNoTies(v: seq<MessageRecord>)
    requires DistinctIds(v)
    ensures NoTies(QueryOrder, v) && NoTies(RetentionOrder, v)
  {
    forall i, j | 0 <= i < |v| && 0 <= j < |v| && i != j
      ensures !(QueryOrder(v[i], v[j]) && QueryOrder(v[j], v[i]))
      ensures !(RetentionOrder(v[i], v[j]) && RetentionOrder(v[j], v[i]))
    {
      assert v[i].id != v[j].id;
      if Lex.Less(v[i].id, v[j].id) {
        Lex.Asymmetric(v[i].id, v[j].id);
      } else if Lex.Less(v[j].id, v[i].id) {
        Lex.Asymmetric(v[j].id, v[i].id);
      }
    }
  }

  lemma ViewDistinct(t: Store)
    requires WellKeyed(t)
    ensures DistinctIds(View(t))
  {
    forall i, j | 0 <= i < j < |t|
      ensures View(t)[i].id != View(t)[j].id
    {
      Lex.Asymmetric(t[i].key, t[j].key);
    }
  }

  lemma BeforeIsStrict(a: MessageRecord, b: MessageRecord, c: MessageRecord)
    ensures !Before(a, a)
    ensures Before(a, b) && Before(b, c) ==> Before(a, c)
    ensures Before(a, b) ==> !Before(b, a)
    ensures a.id != b.id ==> Before(a, b) || Before(b, a)
  {
    Lex.Irreflexive(a.id);
    Lex.Trichotomy(a.id, b.id);
    if Lex.Less(a.id, b.id) {
      Lex.Asymmetric(a.id, b.id);
      if Lex.Less(b.id, c.id) {
        Lex.Transitive(a.id, b.id, c.id);
      }
    }
  }

  // -------------------------------------------------------------- queries

  predicate EqualIgnoringCase(a: string, b: string) {
    AsciiLower(a) == AsciiLower(b)
  }

  function AsciiLower(s: string): string {
    Map((c: char) => if 'A' <= c <= 'Z' then (c as int + 32) as char else c, s)
  }

  /** The same text up to the case of the letters A to Z. */
  lemma CaseIgnoredExactlyWhen(a: string, b: string)
    ensures EqualIgnoringCase(a, b) <==>
            && |a| == |b|
            && forall i :: 0 <= i < |a| ==>
                 || a[i] == b[i]
                 || ('A' <= a[i] <= 'Z' && b[i] as int == a[i] as int + 32)
                 || ('A' <= b[i] <= 'Z' && a[i] as int == b[i] as int + 32)
  {
    var x, y := AsciiLower(a), AsciiLower(b);
    if EqualIgnoringCase(a, b) {
      forall i | 0 <= i < |a|
        ensures || a[i] == b[i]
                || ('A' <= a[i] <= 'Z' && b[i] as int == a[i] as int + 32)
                || ('A' <= b[i] <= 'Z' && a[i] as int == b[i] as int + 32)
      {
        assert x[i] == y[i];
      }
    }
  }

  /** The records a query may return. */
  function Listed(peerFilter: Option<string>, includeHidden: bool): MessageRecord -> bool {
    (r: MessageRecord) => (!r.hidden || includeHidden) && (peerFilter.None? || r.peerId == peerFilter.value)
  }

  function Everything(): MessageRecord -> bool {
    Listed(None, true)
  }

  /** The `limit` newest records that pass `keep`, newest first. */
  function Newest(v: seq<MessageRecord>, keep: MessageRecord -> bool, limit: nat): seq<MessageRecord> {
    Take(Sort(QueryOrder, Filter(keep, v)), limit)
  }

  function Recent(t: Store, peerFilter: Option<string>, limit: nat): seq<MessageRecord> {
    Newest(View(t), Listed(peerFilter, false), limit)
  }

  function RecentIncludingHidden(t: Store, peerFilter: Option<string>, limit: nat): seq<MessageRecord> {
    Newest(View(t), Listed(peerFilter, true), limit)
  }

  /** Visible records whose content passes `matches`. */
  function Matching(matches: string -> bool): MessageRecord -> bool {
    (r: MessageRecord) => !r.hidden && matches(r.content)
  }

  /** A search stops at its limit while walking in id order; it does not sort by time. */
  function Found(t: Store, matches: string -> bool, limit: nat): seq<MessageRecord> {
    Take(Filter(Matching(matches), View(t)), limit)
  }

  /** A query reads a filtered prefix of one listing of the whole store. */
  lemma NewestFromListing(v: seq<MessageRecord>, keep: MessageRecord -> bool, limit: nat)
    requires DistinctIds(v)
    ensures Newest(v, keep, limit) == Take(Filter(keep, Sort(QueryOrder, v)), limit)
  {
    OrdersAreRankings();
    DistinctIdsNoTies(v);
    SortFilterCommute(QueryOrder, keep, v);
  }

  // ------------------------------------------------ what a caller is promised

  /** `r` is the stored record `x`, with the receive time standing in for a missing sender time. */
  ghost predicate ShownFor(x: MessageRecord, r: MessageRecord) {
    && r == x.(senderTimestamp := r.senderTimestamp)
    && r.senderTimestamp == if x.senderTimestamp == 0 then x.timestamp else x.senderTimestamp
  }

  /** `a` was received after `b`, or together with it under a larger id. */
  ghost predicate LaterThan(a: MessageRecord, b: MessageRecord) {
    a.timestamp > b.timestamp || (a.timestamp == b.timestamp && Lex.Less(b.id, a.id))
  }

  /**
   `q` answers a recent query: stored records of the asked peer, hidden ones only if asked for, latest
   first; a record that is missing is earlier than all those returned, and the limit is used up.
   */
  ghost predicate Answers(
    t: Store, peerFilter: Option<string>, includeHidden: bool, limit: nat, q: seq<MessageRecord>)
  {
    && |q| <= limit
    && (forall i, j :: 0 <= i < j < |q| ==> LaterThan(q[i], q[j]))
    && (forall r :: r in q ==>
          && (peerFilter.Some? ==> r.peerId == peerFilter.value) && (r.hidden ==> includeHidden)
          && exists i :: 0 <= i < |t| && ShownFor(t[i].value, r))
    && (forall i, r :: 0 <= i < |t| && ShownFor(t[i].value, r) && r !in q
                       && (peerFilter.None? || r.peerId == peerFilter.value) && (includeHidden || !r.hidden) ==>
          |q| == limit && forall x :: x in q ==> LaterThan(x, r))
  }

  /** `q` answers a search: the first visible matches in id order, up to the limit. */
  ghost predicate SearchAnswers(t: Store, matches: string -> bool, limit: nat, q: seq<MessageRecord>) {
    && |q| <= limit
    && (forall i, j :: 0 <= i < j < |q| ==> Lex.Less(q[i].id, q[j].id))
    && (forall r :: r in q ==>
          !r.hidden && matches(r.content) && exists i :: 0 <= i < |t| && ShownFor(t[i].value, r))
    && (forall i, r :: 0 <= i < |t| && ShownFor(t[i].value, r) && r !in q && !r.hidden && matches(r.content) ==>
          |q| == limit && forall x :: x in q ==> Lex.Less(x.id, r.id))
  }

  lemma ViewShows(t: Store, r: MessageRecord)
    ensures r in View(t) <==> exists i :: 0 <= i < |t| && ShownFor(t[i].value, r)
  {
    if r in View(t) {
      var i :| 0 <= i < |t| && View(t)[i] == r;
      assert ShownFor(t[i].value, r);
    }
    if i :| 0 <= i < |t| && ShownFor(t[i].value, r) {
      assert View(t)[i] == r;
    }
  }

  lemma QueryOrderIsLater(v: seq<MessageRecord>, a: MessageRecord, b: MessageRecord)
    requires DistinctIds(v) && a in v && b in v && a != b && QueryOrder(a, b)
    ensures LaterThan(a, b)
  {
    var i :| 0 <= i < |v| && v[i] == a;
    var j :| 0 <= j < |v| && v[j] == b;
    assert a.id != b.id;
  }

  lemma ListedMember(v: seq<MessageRecord>, keep: MessageRecord -> bool, r: MessageRecord)
    ensures r in Sort(QueryOrder, Filter(keep, v)) <==> r in v && keep(r)
  {
    SortMember(QueryOrder, Filter(keep, v), r);
    FilterMember(keep, v, r);
  }

  /** The sorted listing holds no record twice, and later ones come first. */
  lemma ListingIsStrict(v: seq<MessageRecord>, keep: MessageRecord -> bool, i: nat, j: nat)
    requires DistinctIds(v) && i < j < |Sort(QueryOrder, Filter(keep, v))|
    ensures LaterThan(Sort(QueryOrder, Filter(keep, v))[i], Sort(QueryOrder, Filter(keep, v))[j])
  {
    hide Sort, Filter, QueryOrder, LaterThan;
    var s := Sort(QueryOrder, Filter(keep, v));
    OrdersAreRankings();
    SortIsSorted(QueryOrder, Filter(keep, v));
    ListedMember(v, keep, s[i]);
    ListedMember(v, keep, s[j]);
    ListingHasNoTwins(v, keep, i, j);
    QueryOrderIsLater(v, s[i], s[j]);
  }

  lemma ListingHasNoTwins(v: seq<MessageRecord>, keep: MessageRecord -> bool, i: nat, j: nat)
    requires DistinctIds(v) && i < j < |Sort(QueryOrder, Filter(keep, v))|
    ensures Sort(QueryOrder, Filter(keep, v))[i] != Sort(QueryOrder, Filter(keep, v))[j]
  {
    hide Sort, Filter, QueryOrder;
    var s := Sort(QueryOrder, Filter(keep, v));
    if s[i] == s[j] {
      assert s == s[..j] + [s[j]] + s[j + 1..] && s[i] in s[..j];
      assert multiset(s)[s[i]] >= 2;
      SortMultiset(QueryOrder, Filter(keep, v));
      FilterCount(keep, v, s[i]);
      CountsOnce(v, s[i]);
    }
  }

  lemma {:induction false} CountsOnce(v: seq<MessageRecord>, r: MessageRecord)
    requires DistinctIds(v)
    ensures multiset(v)[r] <= 1
  {
    if v != [] {
      assert v == [v[0]] + v[1..];
      CountsOnce(v[1..], r);
    }
  }

  /** Cutting the listing leaves out only what comes after everything returned. */
  lemma NewestLeavesOutOlder(v: seq<MessageRecord>, keep: MessageRecord -> bool, limit: nat, r: MessageRecord)
    requires DistinctIds(v) && r in v && keep(r) && r !in Newest(v, keep, limit)
    ensures |Newest(v, keep, limit)| == limit
    ensures forall x :: x in Newest(v, keep, limit) ==> LaterThan(x, r)
  {
    hide Sort, Filter, QueryOrder, LaterThan;
    var s, q := Sort(QueryOrder, Filter(keep, v)), Newest(v, keep, limit);
    ListedMember(v, keep, r);
    var j :| 0 <= j < |s| && s[j] == r;
    assert j >= |q|;
    forall x | x in q
      ensures LaterThan(x, r)
    {
      var i :| 0 <= i < |q| && q[i] == x;
      ListingIsStrict(v, keep, i, j);
    }
  }

  /** A recent query returns exactly what its caller is promised. */
  lemma NewestAnswers(t: Store, peerFilter: Option<string>, includeHidden: bool, limit: nat)
    requires WellKeyed(t)
    ensures Answers(t, peerFilter, includeHidden, limit, Newest(View(t), Listed(peerFilter, includeHidden), limit))
  {
    hide Sort, Filter, QueryOrder, LaterThan, View, ShownFor, WellKeyed, DistinctIds;
    var v, keep := View(t), Listed(peerFilter, includeHidden);
    var s, q := Sort(QueryOrder, Filter(keep, v)), Newest(v, keep, limit);
    ViewDistinct(t);
    forall i, j | 0 <= i < j < |q|
      ensures LaterThan(q[i], q[j])
    {
      ListingIsStrict(v, keep, i, j);
    }
    forall r | r in q
      ensures r in v && keep(r) && exists i :: 0 <= i < |t| && ShownFor(t[i].value, r)
    {
      ListedMember(v, keep, r);
      ViewShows(t, r);
    }
    forall i, r | 0 <= i < |t| && ShownFor(t[i].value, r) && r !in q && keep(r)
      ensures |q| == limit && forall x :: x in q ==> LaterThan(x, r)
    {
      ViewShows(t, r);
      NewestLeavesOutOlder(v, keep, limit, r);
    }
  }

  /** With room for everything, a query lists a record exactly when it is the asked peer's and visible. */
  lemma RoomyQueryListsAll(t: Store, peerFilter: Option<string>, limit: nat, r: MessageRecord)
    requires |t| <= limit
    ensures r in Recent(t, peerFilter, limit) <==>
            r in View(t) && !r.hidden && (peerFilter.Some? ==> r.peerId == peerFilter.value)
    ensures r in RecentIncludingHidden(t, peerFilter, limit) <==>
            r in View(t) && (peerFilter.Some? ==> r.peerId == peerFilter.value)
  {
    hide Sort, Filter, QueryOrder, View;
    assert |View(t)| == |t| by { ViewLength(t); }
    RoomyNewest(View(t), Listed(peerFilter, false), limit, r);
    RoomyNewest(View(t), Listed(peerFilter, true), limit, r);
  }

  lemma ViewLength(t: Store)
    ensures |View(t)| == |t|
  {
  }

  lemma RoomyNewest(v: seq<MessageRecord>, keep: MessageRecord -> bool, limit: nat, r: MessageRecord)
    requires |v| <= limit
    ensures r in Newest(v, keep, limit) <==> r in v && keep(r)
  {
    hide Sort, Filter, QueryOrder;
    FilterLength(keep, v);
    SortMultiset(QueryOrder, Filter(keep, v));
    ListedMember(v, keep, r);
  }

  lemma {:induction false} FilterKeepsIdOrder(v: seq<MessageRecord>, keep: MessageRecord -> bool)
    requires forall i, j :: 0 <= i < j < |v| ==> Lex.Less(v[i].id, v[j].id)
    ensures forall i, j :: 0 <= i < j < |Filter(keep, v)| ==> Lex.Less(Filter(keep, v)[i].id, Filter(keep, v)[j].id)
  {
    if v != [] {
      FilterKeepsIdOrder(v[1..], keep);
      var r := Filter(keep, v[1..]);
      forall j | 0 <= j < |r|
        ensures Lex.Less(v[0].id, r[j].id)
      {
        FilterMember(keep, v[1..], r[j]);
        var k :| 0 <= k < |v[1..]| && v[1..][k] == r[j];
        assert v[k + 1] == r[j];
      }
    }
  }

  lemma ViewInIdOrder(t: Store, i: nat, j: nat)
    requires WellKeyed(t) && i < j < |t|
    ensures |View(t)| == |t| && Lex.Less(View(t)[i].id, View(t)[j].id)
  {
  }

  /** A cut in id order leaves out only larger ids. */
  lemma FoundLeavesOutLarger(m: seq<MessageRecord>, limit: nat, r: MessageRecord)
    requires forall i, j :: 0 <= i < j < |m| ==> Lex.Less(m[i].id, m[j].id)
    requires r in m && r !in Take(m, limit)
    ensures |Take(m, limit)| == limit && forall x :: x in Take(m, limit) ==> Lex.Less(x.id, r.id)
  {
    var q := Take(m, limit);
    var j :| 0 <= j < |m| && m[j] == r;
    assert j >= |q|;
    forall x | x in q
      ensures Lex.Less(x.id, r.id)
    {
      var i :| 0 <= i < |q| && q[i] == x;
      assert m[i] == x;
    }
  }

  /** A search returns exactly what its caller is promised. */
  lemma FoundAnswers(t: Store, matches: string -> bool, limit: nat)
    requires WellKeyed(t)
    ensures SearchAnswers(t, matches, limit, Found(t, matches, limit))
  {
    hide Filter, ShownFor, View, WellKeyed, Lex.Less;
    var v, q := View(t), Found(t, matches, limit);
    var m := Filter(Matching(matches), v);
    ViewLength(t);
    forall i, j | 0 <= i < j < |v|
      ensures Lex.Less(v[i].id, v[j].id)
    {
      ViewInIdOrder(t, i, j);
    }
    FilterKeepsIdOrder(v, Matching(matches));
    forall r | r in q
      ensures Matching(matches)(r) && exists i :: 0 <= i < |t| && ShownFor(t[i].value, r)
    {
      FilterMember(Matching(matches), v, r);
      ViewShows(t, r);
    }
    forall i, r | 0 <= i < |t| && ShownFor(t[i].value, r) && r !in q && !r.hidden && matches(r.content)
      ensures |q| == limit && forall x :: x in q ==> Lex.Less(x.id, r.id)
    {
      ViewShows(t, r);
      FilterMember(Matching(matches), v, r);
      FoundLeavesOutLarger(m, limit, r);
    }
  }
}
