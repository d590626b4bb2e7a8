/**
 Hiding a blocked peer's messages and marking delivery in the mobile history
 (core/src/mobile_bridge.rs): in-place rewrites and what the queries see of them.
 */
module MobileVisibility {
  import opened Sequences
  import opened SledTree
  import opened MobileHistory
  import Lex

  // --------------------------------------------------------------- hiding

  function Rehidden(peer: string, flag: bool): MessageRecord -> MessageRecord {
    (r: MessageRecord) => if EqualIgnoringCase(r.peerId, peer) then r.(hidden := flag) else r
  }

  function OnValue(f: MessageRecord -> MessageRecord): Entry<MessageRecord> -> Entry<MessageRecord> {
    (e: Entry<MessageRecord>) => e.(value := f(e.value))
  }

  /** Every record of `peer`, in any letter case, hidden or shown. */
  function SetHidden(t: Store, peer: string, flag: bool): Store {
    Map(OnValue(Rehidden(peer, flag)), t)
  }

  /** The records a call to hide or unhide rewrites, and so counts. */
  function NeedsChange(peer: string, flag: bool): Entry<MessageRecord> -> bool {
    (e: Entry<MessageRecord>) => e.value.hidden != flag && EqualIgnoringCase(e.value.peerId, peer)
  }

  /** Hiding again changes and counts nothing, and unhiding undoes hiding completely. */
  lemma HideLaws(t: Store, peer: string, first: bool, second: bool)
    ensures SetHidden(SetHidden(t, peer, first), peer, second) == SetHidden(t, peer, second)
    ensures Filter(NeedsChange(peer, first), SetHidden(t, peer, first)) == []
  {
    var u := SetHidden(t, peer, first);
    assert forall i :: 0 <= i < |t| ==> SetHidden(u, peer, second)[i] == SetHidden(t, peer, second)[i];
    FilterNone(NeedsChange(peer, first), u);
  }

  lemma HiddenView(t: Store, peer: string, flag: bool)
    ensures View(SetHidden(t, peer, flag)) == Map(Rehidden(peer, flag), View(t))
  {
  }

  /** A hidden peer's messages are never listed, whatever the filter, limit or letter case. */
  lemma HiddenPeerIsNotListed(t: Store, peer: string, peerFilter: Option<string>, limit: nat, r: MessageRecord)
    requires r in Recent(SetHidden(t, peer, true), peerFilter, limit)
    ensures !EqualIgnoringCase(r.peerId, peer)
  {
    var v, keep := View(SetHidden(t, peer, true)), Listed(peerFilter, false);
    HiddenView(t, peer, true);
    SortMember(QueryOrder, Filter(keep, v), r);
    FilterMember(keep, v, r);
    MapMember(Rehidden(peer, true), View(t), r);
  }

  lemma HiddenPeerIsNotFound(t: Store, peer: string, matches: string -> bool, limit: nat, r: MessageRecord)
    requires r in Found(SetHidden(t, peer, true), matches, limit)
    ensures !EqualIgnoringCase(r.peerId, peer)
  {
    var v := View(SetHidden(t, peer, true));
    HiddenView(t, peer, true);
    FilterMember(Matching(matches), v, r);
    MapMember(Rehidden(peer, true), View(t), r);
  }

  // --------------------------------------------------------------- search

  /** With room for every match, a search returns what the newest-first query would, in id order. */
  lemma SearchFindsNewestWhenAllFit(t: Store, matches: string -> bool, limit: nat)
    requires |Filter(Matching(matches), View(t))| <= limit
    ensures Sort(QueryOrder, Found(t, matches, limit)) == Newest(View(t), Matching(matches), limit)
    ensures multiset(Found(t, matches, limit)) == multiset(Newest(View(t), Matching(matches), limit))
  {
    hide Filter, Sort, View;
    SortMultiset(QueryOrder, Filter(Matching(matches), View(t)));
  }

  /** Every record up to the cut comes before every later one in query order. */
  ghost predicate NewestUpFront(m: seq<MessageRecord>, cut: nat) {
    forall i, j :: 0 <= i < cut <= j < |m| ==> QueryOrder(m[i], m[j])
  }

  /** Sorted parts, all of one before all of the other, are sorted together. */
  lemma PartsAreSorted(a: seq<MessageRecord>, b: seq<MessageRecord>)
    requires forall p, q :: 0 <= p < |a| && 0 <= q < |b| ==> QueryOrder(a[p], b[q])
    ensures SortedBy(QueryOrder, Sort(QueryOrder, a) + Sort(QueryOrder, b))
  {
    hide Sort, QueryOrder;
    var x, y := Sort(QueryOrder, a), Sort(QueryOrder, b);
    OrdersAreRankings();
    SortIsSorted(QueryOrder, a);
    SortIsSorted(QueryOrder, b);
    forall i, j | 0 <= i < |x| && 0 <= j < |y|
      ensures QueryOrder(x[i], y[j])
    {
      SortMember(QueryOrder, a, x[i]);
      SortMember(QueryOrder, b, y[j]);
    }
  }

  lemma PartsMultiset(m: seq<MessageRecord>, cut: nat)
    requires cut <= |m|
    ensures multiset(Sort(QueryOrder, m)) ==
            multiset(Sort(QueryOrder, m[..cut]) + Sort(QueryOrder, m[cut..]))
  {
    hide Sort, QueryOrder;
    assert m == m[..cut] + m[cut..];
    SortMultiset(QueryOrder, m);
    SortMultiset(QueryOrder, m[..cut]);
    SortMultiset(QueryOrder, m[cut..]);
  }

  lemma SortHasNoTies(m: seq<MessageRecord>)
    requires DistinctIds(m)
    ensures NoTies(QueryOrder, Sort(QueryOrder, m))
  {
    hide Sort, QueryOrder, NoTies;
    DistinctIdsNoTies(m);
    forall r | r in Sort(QueryOrder, m)
      ensures r in m
    {
      SortMember(QueryOrder, m, r);
    }
    NoTiesTransfer(QueryOrder, m, Sort(QueryOrder, m));
  }

  lemma SortInTwo(m: seq<MessageRecord>, cut: nat)
    requires DistinctIds(m) && cut <= |m| && NewestUpFront(m, cut)
    ensures Sort(QueryOrder, m) == Sort(QueryOrder, m[..cut]) + Sort(QueryOrder, m[cut..])
  {
    hide Sort, QueryOrder, DistinctIds, SortedBy, NoTies;
    var a, b := m[..cut], m[cut..];
    assert forall p, q :: 0 <= p < |a| && 0 <= q < |b| ==> QueryOrder(a[p], b[q]) by {
      assert forall q :: 0 <= q < |b| ==> b[q] == m[cut + q];
    }
    PartsAreSorted(a, b);
    PartsMultiset(m, cut);
    SortHasNoTies(m);
    OrdersAreRankings();
    SortIsSorted(QueryOrder, m);
    SortedUnique(QueryOrder, Sort(QueryOrder, m), Sort(QueryOrder, a) + Sort(QueryOrder, b));
  }

  /** A record among the first of the sorted listing comes before one that is not. */
  lemma ListedBefore(m: seq<MessageRecord>, cut: nat, x: MessageRecord, y: MessageRecord)
    requires x in Take(Sort(QueryOrder, m), cut) && y in m && y !in Take(Sort(QueryOrder, m), cut)
    ensures QueryOrder(x, y)
  {
    hide Sort, QueryOrder;
    var z := Sort(QueryOrder, m);
    OrdersAreRankings();
    SortIsSorted(QueryOrder, m);
    SortMember(QueryOrder, m, y);
    var i :| 0 <= i < |Take(z, cut)| && z[i] == x;
    var j :| 0 <= j < |z| && z[j] == y;
    assert forall k :: 0 <= k < |Take(z, cut)| ==> Take(z, cut)[k] == z[k];
    assert j >= |Take(z, cut)|;
  }

  /**
   A search returns the records of the newest-first query exactly when the matches up to its limit,
   in id order, are newer than all the others.
   */
  lemma SearchFindsNewestExactlyWhen(t: Store, matches: string -> bool, limit: nat)
    requires WellKeyed(t)
    ensures multiset(Found(t, matches, limit)) == multiset(Newest(View(t), Matching(matches), limit)) <==>
            NewestUpFront(Filter(Matching(matches), View(t)), limit)
  {
    hide Sort, QueryOrder, Filter, WellKeyed;
    var m := Filter(Matching(matches), View(t));
    ViewDistinct(t);
    FilterDistinct(View(t), Matching(matches));
    if |m| <= limit {
      SearchFindsNewestWhenAllFit(t, matches, limit);
    } else {
      SearchAtCut(m, limit);
    }
  }

  lemma FilterDistinct(v: seq<MessageRecord>, keep: MessageRecord -> bool)
    requires DistinctIds(v)
    ensures DistinctIds(Filter(keep, v))
  {
    if v != [] {
      FilterDistinct(v[1..], keep);
      if keep(v[0]) {
        var r := Filter(keep, v[1..]);
        forall j | 0 <= j < |r|
          ensures r[j].id != v[0].id
        {
          FilterMember(keep, v[1..], r[j]);
        }
      }
    }
  }

  lemma SearchAtCut(m: seq<MessageRecord>, limit: nat)
    requires DistinctIds(m) && limit < |m|
    ensures multiset(Take(m, limit)) == multiset(Take(Sort(QueryOrder, m), limit)) <==> NewestUpFront(m, limit)
  {
    hide Sort, QueryOrder;
    var front, top := m[..limit], Take(Sort(QueryOrder, m), limit);
    SortMultiset(QueryOrder, m);
    if NewestUpFront(m, limit) {
      SortInTwo(m, limit);
      SortMultiset(QueryOrder, front);
      assert top == Sort(QueryOrder, front);
    }
    if multiset(front) == multiset(top) {
      forall i, j | 0 <= i < limit <= j < |m|
        ensures QueryOrder(m[i], m[j])
      {
        assert front[i] == m[i] && m[j] !in front by { NotInFront(m, limit, j); }
        SameMember(front, top, m[i]);
        SameMember(front, top, m[j]);
        ListedBefore(m, limit, m[i], m[j]);
      }
    }
  }

  lemma NotInFront(m: seq<MessageRecord>, cut: nat, j: nat)
    requires DistinctIds(m) && cut <= j < |m|
    ensures m[j] !in m[..cut]
  {
    forall i | 0 <= i < cut
      ensures m[..cut][i] != m[j]
    {
      assert m[i].id != m[j].id;
    }
  }

  /** Otherwise it can miss newer matches: of two, the one with the smaller id is found. */
  lemma SearchCanMissNewer(older: MessageRecord, newer: MessageRecord, matches: string -> bool)
    requires Lex.Less(older.id, newer.id) && older.timestamp < newer.timestamp
    requires Matching(matches)(older) && Matching(matches)(newer)
    ensures var t := Put(Put([], newer.id, newer), older.id, older);
            && WellKeyed(t) && Found(t, matches, 1) == [Adjusted(older)]
            && Newest(View(t), Matching(matches), 1) == [Adjusted(newer)]
  {
    var a, b := Adjusted(older), Adjusted(newer);
    var t := Put(Put([], newer.id, newer), older.id, older);
    assert t == [Entry(older.id, older), Entry(newer.id, newer)];
    assert View(t) == [a, b];
    FilterAll(Matching(matches), [a, b]);
    assert [a, b][1..] == [b] && [b][1..] == [];
    assert Sort(QueryOrder, [b]) == [b];
    assert !QueryOrder(a, b);
    assert InsertSorted(QueryOrder, a, [b]) == [b] + InsertSorted(QueryOrder, a, []);
    assert Sort(QueryOrder, [a, b]) == [b, a];
  }

  lemma FilterUnaffected(f: MessageRecord -> MessageRecord, keep: MessageRecord -> bool, v: seq<MessageRecord>)
    requires forall r :: r in v ==> f(r) == r || (!keep(r) && !keep(f(r)))
    ensures Filter(keep, Map(f, v)) == Filter(keep, v)
  {
    if v != [] {
      FilterUnaffected(f, keep, v[1..]);
      assert Map(f, v) == [f(v[0])] + Map(f, v[1..]);
    }
  }

  /** Conversations with other peers read as before. */
  lemma OtherPeersUnaffected(t: Store, peer: string, flag: bool, other: string, limit: nat)
    requires !EqualIgnoringCase(other, peer)
    ensures Recent(SetHidden(t, peer, flag), Some(other), limit) == Recent(t, Some(other), limit)
  {
    HiddenView(t, peer, flag);
    FilterUnaffected(Rehidden(peer, flag), Listed(Some(other), false), View(t));
  }

  // ---------------------------------------------------------------- stats

  datatype Stats = Stats(total: nat, sent: nat, received: nat, undelivered: nat)

  function IsSent(): MessageRecord -> bool {
    (r: MessageRecord) => r.direction == Sent
  }

  function IsReceived(): MessageRecord -> bool {
    (r: MessageRecord) => r.direction == Received
  }

  function IsUndelivered(): MessageRecord -> bool {
    (r: MessageRecord) => !r.delivered
  }

  function StatsOf(v: seq<MessageRecord>): Stats {
    Stats(|v|, |Filter(IsSent(), v)|, |Filter(IsReceived(), v)|, |Filter(IsUndelivered(), v)|)
  }

  /** Hiding and unhiding leave the statistics alone, and they always add up. */
  lemma StatsIgnoreHiding(t: Store, peer: string, flag: bool)
    ensures StatsOf(View(SetHidden(t, peer, flag))) == StatsOf(View(t))
    ensures StatsOf(View(t)).sent + StatsOf(View(t)).received == StatsOf(View(t)).total
  {
    var v, f := View(t), Rehidden(peer, flag);
    HiddenView(t, peer, flag);
    FilterOfMap(f, IsSent(), v);
    FilterOfMap(f, IsReceived(), v);
    FilterOfMap(f, IsUndelivered(), v);
    FilterLength(IsSent(), v);
    FilterCongruence((r: MessageRecord) => !IsSent()(r), IsReceived(), v);
    SentOrReceived(v);
  }

  lemma SentOrReceived(v: seq<MessageRecord>)
    ensures |Filter(IsSent(), v)| + |Filter(IsReceived(), v)| == |v|
  {
    if v != [] {
      SentOrReceived(v[1..]);
    }
  }

  // ------------------------------------------------------------- delivery

  /** Reads a record with its legacy timestamp filled in, sets the flag and writes that back. */
  function MarkedDelivered(t: Store, id: string): Store {
    match Get(t, id)
    case None => t
    case Some(r) => Put(t, id, Adjusted(r).(delivered := true))
  }

  function MarkRecord(id: string): MessageRecord -> MessageRecord {
    (r: MessageRecord) => if r.id == id then r.(delivered := true) else r
  }

  /** Overwriting a stored id replaces exactly that entry. */
  lemma RewriteEntry(t: Store, id: string, d: MessageRecord, i: nat)
    requires WellKeyed(t) && HasKey(t, id) && d.id == id && i < |t|
    ensures |Put(t, id, d)| == |t|
    ensures Put(t, id, d)[i] == if t[i].key == id then Entry(id, d) else t[i]
  {
    PutExisting(t, id, d);
  }

  lemma RewriteWellKeyed(t: Store, id: string, d: MessageRecord)
    requires WellKeyed(t) && HasKey(t, id) && d.id == id
    ensures WellKeyed(Put(t, id, d)) && |Put(t, id, d)| == |t|
  {
    PutAscending(t, id, d);
    PutExisting(t, id, d);
    forall i | 0 <= i < |t|
      ensures Put(t, id, d)[i].key == Put(t, id, d)[i].value.id
    {
      RewriteEntry(t, id, d, i);
    }
  }

  lemma StoredUnder(t: Store, id: string, i: nat)
    requires WellKeyed(t) && i < |t| && t[i].key == id
    ensures Get(t, id) == Some(t[i].value)
  {
    GetMember(t, t[i]);
  }

  lemma MarkedEntry(t: Store, id: string, i: nat)
    requires WellKeyed(t) && i < |t|
    ensures |MarkedDelivered(t, id)| == |t|
    ensures AdjustedValue(MarkedDelivered(t, id)[i]) == MarkRecord(id)(AdjustedValue(t[i]))
  {
    if Get(t, id).Some? {
      var d := Adjusted(Get(t, id).value).(delivered := true);
      var j :| 0 <= j < |t| && t[j].key == id;
      StoredUnder(t, id, j);
      RewriteEntry(t, id, d, i);
      if t[i].key == id {
        StoredUnder(t, id, i);
      }
    } else {
      assert t[i].key != id;
    }
  }

  lemma MarkedWellKeyed(t: Store, id: string)
    requires WellKeyed(t)
    ensures WellKeyed(MarkedDelivered(t, id)) && |MarkedDelivered(t, id)| == |t|
  {
    if Get(t, id).Some? {
      var j :| 0 <= j < |t| && t[j].key == id;
      StoredUnder(t, id, j);
      RewriteWellKeyed(t, id, Adjusted(Get(t, id).value).(delivered := true));
    }
  }

  /** In the queries' view only the one record's delivered flag changes: the persisted migration is invisible. */
  lemma MarkDeliveredView(t: Store, id: string)
    requires WellKeyed(t)
    ensures WellKeyed(MarkedDelivered(t, id))
    ensures View(MarkedDelivered(t, id)) == Map(MarkRecord(id), View(t))
  {
    hide WellKeyed, MarkedDelivered, MarkRecord, AdjustedValue;
    var u := MarkedDelivered(t, id);
    MarkedWellKeyed(t, id);
    forall i | 0 <= i < |t|
      ensures View(u)[i] == MarkRecord(id)(View(t)[i])
    {
      MarkedEntry(t, id, i);
    }
  }

  lemma NewestOfMarked(v: seq<MessageRecord>, id: string, keep: MessageRecord -> bool, limit: nat)
    requires forall r :: r in v ==> keep(MarkRecord(id)(r)) == keep(r)
    ensures Newest(Map(MarkRecord(id), v), keep, limit) == Map(MarkRecord(id), Newest(v, keep, limit))
  {
    var f := MarkRecord(id);
    FilterOfMap(f, keep, v);
    MapSort(f, QueryOrder, QueryOrder, Filter(keep, v));
  }

  /** Marking delivered shows in recent queries only as that record's flag, in the same rows and order. */
  lemma MarkDeliveredInRecent(t: Store, id: string, peerFilter: Option<string>, limit: nat)
    requires WellKeyed(t)
    ensures Recent(MarkedDelivered(t, id), peerFilter, limit) == Map(MarkRecord(id), Recent(t, peerFilter, limit))
    ensures RecentIncludingHidden(MarkedDelivered(t, id), peerFilter, limit) ==
            Map(MarkRecord(id), RecentIncludingHidden(t, peerFilter, limit))
  {
    MarkDeliveredView(t, id);
    NewestOfMarked(View(t), id, Listed(peerFilter, false), limit);
    NewestOfMarked(View(t), id, Listed(peerFilter, true), limit);
  }

  /** A search finds the same rows, with only that record's flag changed. */
  lemma MarkDeliveredInSearch(t: Store, id: string, matches: string -> bool, limit: nat)
    requires WellKeyed(t)
    ensures Found(MarkedDelivered(t, id), matches, limit) == Map(MarkRecord(id), Found(t, matches, limit))
  {
    hide MarkedDelivered, WellKeyed;
    MarkDeliveredView(t, id);
    FilterOfMap(MarkRecord(id), Matching(matches), View(t));
  }

  /** A record as `get` returns it. */
  function Fetched(t: Store, id: string): Option<MessageRecord> {
    match Get(t, id) case None => None case Some(r) => Some(Adjusted(r))
  }

  /** A stored record is what its id reads back, whole, and no other id is affected. */
  lemma StoredThenFetched(t: Store, r: MessageRecord, k: string)
    requires WellKeyed(t)
    ensures Fetched(Put(t, r.id, r), k) == if k == r.id then Some(Adjusted(r)) else Fetched(t, k)
  {
    GetPut(t, r.id, r, k);
  }

  /** Reading any id back gives what it gave before, but for the marked record's flag. */
  lemma MarkDeliveredInGet(t: Store, id: string, k: string)
    requires WellKeyed(t)
    ensures Fetched(MarkedDelivered(t, id), k) ==
            if k == id && Fetched(t, id).Some? then Some(Fetched(t, id).value.(delivered := true)) else Fetched(t, k)
  {
    if Get(t, id).Some? {
      GetPut(t, id, Adjusted(Get(t, id).value).(delivered := true), k);
    }
  }

  lemma MarkElsewhere(s: seq<MessageRecord>, id: string)
    requires forall i :: 0 <= i < |s| ==> s[i].id != id
    ensures Map(MarkRecord(id), s) == s
  {
  }

  lemma {:induction false} UndeliveredAfterMark(v: seq<MessageRecord>, id: string, j: nat)
    requires DistinctIds(v) && j < |v| && v[j].id == id
    ensures |Filter(IsUndelivered(), Map(MarkRecord(id), v))| ==
            |Filter(IsUndelivered(), v)| - if v[j].delivered then 0 else 1
  {
    var rest := v[1..];
    var f := MarkRecord(id);
    assert Map(f, v) == [f(v[0])] + Map(f, rest);
    assert ([f(v[0])] + Map(f, rest))[1..] == Map(f, rest);
    if j == 0 {
      assert forall i :: 0 <= i < |rest| ==> rest[i] == v[i + 1];
      MarkElsewhere(rest, id);
    } else {
      assert v[0].id != v[j].id;
      UndeliveredAfterMark(rest, id, j - 1);
    }
  }

  /** The undelivered count drops by one exactly when a stored record was undelivered. */
  lemma MarkDeliveredStats(t: Store, id: string)
    requires WellKeyed(t)
    ensures StatsOf(View(MarkedDelivered(t, id))).undelivered ==
            StatsOf(View(t)).undelivered - (if Get(t, id).Some? && !Get(t, id).value.delivered then 1 else 0)
    ensures StatsOf(View(MarkedDelivered(t, id))).total == StatsOf(View(t)).total
  {
    hide MarkedDelivered, WellKeyed, Filter, MarkRecord;
    MarkDeliveredView(t, id);
    ViewDistinct(t);
    if Get(t, id).Some? {
      var j :| 0 <= j < |t| && t[j] == Entry(id, Get(t, id).value);
      assert View(t)[j] == Adjusted(Get(t, id).value);
      assert View(t)[j].id == id by { KeyedUnderId(t, j); }
      UndeliveredAfterMark(View(t), id, j);
    } else {
      NothingMarked(t, id);
    }
  }

  lemma KeyedUnderId(t: Store, j: nat)
    requires WellKeyed(t) && j < |t|
    ensures t[j].key == t[j].value.id
  {
  }

  lemma NothingMarked(t: Store, id: string)
    requires Get(t, id).None?
    ensures MarkedDelivered(t, id) == t
  {
  }
}
