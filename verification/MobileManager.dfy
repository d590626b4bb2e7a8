/**
 The mobile history manager itself (core/src/mobile_bridge.rs, `HistoryManager`):
 each operation scans the tree and rewrites it entry by entry.
 */
module MobileManager {
  import opened Sequences
  import opened SledTree
  import opened Text
  import opened MobileHistory
  import opened MobileRetention
  import opened MobileVisibility
  import Lex

  /** What `enforce_retention` sorts by: timestamp only, keeping key order among equals. */
  predicate NotOlderEntry(a: Entry<MessageRecord>, b: Entry<MessageRecord>) {
    a.value.timestamp >= b.value.timestamp
  }

  /** A stable sort of the tree by timestamp is the retention order. */
  lemma StableSortIsShelf(t: Store)
    requires WellKeyed(t)
    ensures Map(AdjustedValue, Sort(NotOlderEntry, t)) == Shelf(t)
  {
    forall i, j | 0 <= i < j < |t|
      ensures NotOlderEntry(t[i], t[j]) == RetentionOrder(AdjustedValue(t[i]), AdjustedValue(t[j]))
    {
      assert Lex.Less(t[i].key, t[j].key);
    }
    MapSort(AdjustedValue, NotOlderEntry, RetentionOrder, t);
  }

  /** Dropping the tail of the sorted entries is retention. */
  lemma DropTailIsRetention(t: Store, n: nat)
    requires WellKeyed(t) && n <= |t|
    ensures var s := Sort(NotOlderEntry, t);
            |s| == |t| && Filter(KeyNotIn(Keys(s[n..])), t) == Retained(t, n)
  {
    var s := Sort(NotOlderEntry, t);
    SortMultiset(NotOlderEntry, t);
    StableSortIsShelf(t);
    var keep := OnRecord(RankBelow(View(t), n));
    forall i | 0 <= i < |s|
      ensures keep(s[i]) <==> i < n
    {
      ShelfRank(t, i);
      assert Shelf(t)[i] == AdjustedValue(s[i]);
    }
    forall e | e in s[n..]
      ensures e in t
    {
      SameMember(s, t, e);
    }
    forall e | e in t
      ensures keep(e) <==> e !in s[n..]
    {
      SameMember(s, t, e);
      var i :| 0 <= i < |s| && s[i] == e;
      if i >= n {
        assert s[n..][i - n] == e;
      }
    }
    RemoveVictims(t, s[n..], keep);
  }

  function IsStale(cutoff: nat): Entry<MessageRecord> -> bool {
    (e: Entry<MessageRecord>) => e.value.timestamp < cutoff
  }

  lemma PruneByKeys(t: Store, cutoff: nat)
    requires WellKeyed(t)
    ensures Filter(KeyNotIn(Keys(Filter(IsStale(cutoff), t))), t) == Pruned(t, cutoff)
    ensures |Filter(IsStale(cutoff), t)| + |Pruned(t, cutoff)| == |t|
  {
    var stale, keep := Filter(IsStale(cutoff), t), OnRecord(NotOlder(cutoff));
    forall e
      ensures e in stale <==> e in t && !keep(e)
    {
      FilterMember(IsStale(cutoff), t, e);
      StaleOrKept(e, cutoff);
    }
    RemoveVictims(t, stale, keep);
    SplitLength(t, cutoff);
  }

  lemma PrunedMembers(t: Store, cutoff: nat)
    ensures forall e :: e in Pruned(t, cutoff) <==> e in t && e.value.timestamp >= cutoff
  {
    forall e
      ensures e in Pruned(t, cutoff) <==> e in t && e.value.timestamp >= cutoff
    {
      FilterMember(OnRecord(NotOlder(cutoff)), t, e);
      assert AdjustedValue(e).timestamp == e.value.timestamp;
    }
  }

  lemma NoStats()
    ensures StatsOf(View([])) == Stats(0, 0, 0, 0)
  {
  }

  lemma StatsNext(v: seq<MessageRecord>, r: MessageRecord)
    ensures var s := StatsOf(v);
            StatsOf(v + [r]) ==
            Stats(s.total + 1,
                  s.sent + (if r.direction == Sent then 1 else 0),
                  s.received + (if r.direction == Received then 1 else 0),
                  s.undelivered + (if r.delivered then 0 else 1))
  {
    hide Filter;
    FilterAppend(IsSent(), v, r);
    FilterAppend(IsReceived(), v, r);
    FilterAppend(IsUndelivered(), v, r);
  }

  lemma CountBy(t: Store, p: MessageRecord -> bool, q: Entry<MessageRecord> -> bool)
    requires forall e :: e in t ==> p(AdjustedValue(e)) == q(e)
    ensures |Filter(p, View(t))| == |Places(q, t)|
  {
    hide Filter, AdjustedValue;
    FilterPlaces(p, View(t));
    assert Places(p, View(t)) == Places(q, t);
  }

  /** The statistics count the stored records by their fields. */
  lemma StatsCount(t: Store)
    ensures var stats := StatsOf(View(t));
            && stats.total == |t|
            && stats.sent == |set i | 0 <= i < |t| && t[i].value.direction == Sent|
            && stats.received == |set i | 0 <= i < |t| && t[i].value.direction == Received|
            && stats.undelivered == |set i | 0 <= i < |t| && !t[i].value.delivered|
  {
    hide Filter, View;
    ViewLength(t);
    var sent := (e: Entry<MessageRecord>) => e.value.direction == Sent;
    var received := (e: Entry<MessageRecord>) => e.value.direction == Received;
    var undelivered := (e: Entry<MessageRecord>) => !e.value.delivered;
    CountBy(t, IsSent(), sent);
    CountBy(t, IsReceived(), received);
    CountBy(t, IsUndelivered(), undelivered);
    assert Places(sent, t) == set i | 0 <= i < |t| && t[i].value.direction == Sent;
    assert Places(received, t) == set i | 0 <= i < |t| && t[i].value.direction == Received;
    assert Places(undelivered, t) == set i | 0 <= i < |t| && !t[i].value.delivered;
  }

  lemma SplitLength(t: Store, cutoff: nat)
    ensures |Filter(IsStale(cutoff), t)| + |Pruned(t, cutoff)| == |t|
  {
    if t != [] {
      SplitLength(t[1..], cutoff);
      StaleOrKept(t[0], cutoff);
    }
  }

  lemma StaleOrKept(e: Entry<MessageRecord>, cutoff: nat)
    ensures IsStale(cutoff)(e) <==> !OnRecord(NotOlder(cutoff))(e)
  {
    assert AdjustedValue(e).timestamp == e.value.timestamp;
  }

  function WithHidden(e: Entry<MessageRecord>, flag: bool): Entry<MessageRecord> {
    e.(value := e.value.(hidden := flag))
  }

  /** `u` is `t` with the listed entries rewritten. */
  ghost predicate Rewritten(t: Store, u: Store, done: seq<Entry<MessageRecord>>, flag: bool) {
    && |u| == |t| && WellKeyed(u)
    && forall k :: 0 <= k < |t| ==> u[k] == if t[k] in done then WithHidden(t[k], flag) else t[k]
  }

  lemma RewriteOne(t: Store, u: Store, done: seq<Entry<MessageRecord>>, e: Entry<MessageRecord>, flag: bool)
    requires WellKeyed(t) && Rewritten(t, u, done, flag) && e in t
    ensures Rewritten(t, Put(u, e.key, WithHidden(e, flag).value), done + [e], flag)
  {
    var v := WithHidden(e, flag).value;
    var j :| 0 <= j < |t| && t[j] == e;
    assert u[j].key == e.key;
    RewriteWellKeyed(u, e.key, v);
    forall k | 0 <= k < |t|
      ensures Put(u, e.key, v)[k] == if t[k] in done + [e] then WithHidden(t[k], flag) else t[k]
    {
      RewriteEntry(u, e.key, v, k);
      if t[k].key == e.key {
        AscendingDistinct(t, k, j);
      }
    }
  }

  lemma AllRewritten(t: Store, u: Store, peer: string, flag: bool)
    requires Rewritten(t, u, Filter(NeedsChange(peer, flag), t), flag)
    ensures u == SetHidden(t, peer, flag)
  {
    forall k | 0 <= k < |t|
      ensures u[k] == SetHidden(t, peer, flag)[k]
    {
      FilterMember(NeedsChange(peer, flag), t, t[k]);
    }
  }

  lemma NothingListed(keep: MessageRecord -> bool)
    ensures Filter(keep, View([])) == []
  {
  }

  lemma SearchPrefix(t: Store, i: nat, keep: MessageRecord -> bool)
    requires i <= |t|
    ensures Filter(keep, View(t[..i])) <= Filter(keep, View(t))
  {
    assert View(t) == View(t[..i]) + View(t[i..]);
    FilterConcat(keep, View(t[..i]), View(t[i..]));
  }

  class HistoryManager {
    var db: Store

    ghost predicate Valid()
      reads this
    {
      WellKeyed(db)
    }

    constructor ()
      ensures Valid() && db == []
    {
      db := [];
    }

    method Add(record: MessageRecord)
      requires Valid()
      modifies this
      ensures Valid() && db == Put(old(db), record.id, record)
    {
      PutAscending(db, record.id, record);
      forall e | e in Put(db, record.id, record)
        ensures e.key == e.value.id
      {
        PutMember(db, record.id, record, e);
      }
      db := Put(db, record.id, record);
    }

    method Fetch(id: string) returns (r: Option<MessageRecord>)
      ensures r == Fetched(db, id)
    {
      var found := Get(db, id);
      if found.None? {
        return None;
      }
      return Some(Adjusted(found.value));
    }

    method RecentInternal(peerFilter: Option<string>, limit: nat, includeHidden: bool)
      returns (records: seq<MessageRecord>)
      ensures records == Newest(View(db), Listed(peerFilter, includeHidden), limit)
      ensures WellKeyed(db) ==> Answers(db, peerFilter, includeHidden, limit, records)
    {
      hide Answers, WellKeyed, View, Filter, Sort, Adjusted;
      if WellKeyed(db) {
        NewestAnswers(db, peerFilter, includeHidden, limit);
      }
      NothingListed(Listed(peerFilter, includeHidden));
      assert db[..0] == [];
      ghost var keep := Listed(peerFilter, includeHidden);
      records := [];
      for i := 0 to |db|
        invariant records == Filter(keep, View(db[..i]))
      {
        var record := Adjusted(db[i].value);
        ViewAppend(db, i);
        FilterAppend(keep, View(db[..i]), record);
        if record.hidden && !includeHidden {
          continue;
        }
        if peerFilter.Some? {
          if record.peerId == peerFilter.value {
            records := records + [record];
          }
        } else {
          records := records + [record];
        }
      }
      assert db[..|db|] == db;
      records := Sort(QueryOrder, records);
      if |records| > limit {
        records := records[..limit];
      }
    }

    method Search(lower: string -> string, query: string, limit: nat) returns (results: seq<MessageRecord>)
      ensures results == Found(db, (s: string) => Contains(lower(s), lower(query)), limit)
      ensures WellKeyed(db) ==> SearchAnswers(db, (s: string) => Contains(lower(s), lower(query)), limit, results)
    {
      hide SearchAnswers, WellKeyed, View, Filter, Adjusted;
      NothingListed(Matching((s: string) => Contains(lower(s), lower(query))));
      assert db[..0] == [];
      if WellKeyed(db) {
        FoundAnswers(db, (s: string) => Contains(lower(s), lower(query)), limit);
      }
      var queryLower := lower(query);
      ghost var keep := Matching((s: string) => Contains(lower(s), lower(query)));
      results := [];
      for i := 0 to |db|
        invariant results == Filter(keep, View(db[..i])) && |results| <= limit
      {
        if |results| >= limit {
          SearchPrefix(db, i, keep);
          return;
        }
        var record := Adjusted(db[i].value);
        ViewAppend(db, i);
        FilterAppend(keep, View(db[..i]), record);
        if record.hidden {
          continue;
        }
        if Contains(lower(record.content), queryLower) {
          results := results + [record];
        }
      }
      assert db[..|db|] == db;
    }

    method RewriteHidden(peer: string, flag: bool) returns (count: nat)
      requires Valid()
      modifies this
      ensures Valid() && db == SetHidden(old(db), peer, flag)
      ensures count == |Filter(NeedsChange(peer, flag), old(db))|
    {
      ghost var t := db;
      var updates := Collect(db, NeedsChange(peer, flag));
      count := |updates|;
      for i := 0 to |updates|
        invariant Rewritten(t, db, updates[..i], flag)
      {
        FilterMember(NeedsChange(peer, flag), t, updates[i]);
        RewriteOne(t, db, updates[..i], updates[i], flag);
        assert updates[..i + 1] == updates[..i] + [updates[i]];
        db := Put(db, updates[i].key, updates[i].value.(hidden := flag));
      }
      assert updates[..|updates|] == updates;
      AllRewritten(t, db, peer, flag);
    }

    method MarkDelivered(id: string)
      requires Valid()
      modifies this
      ensures Valid() && db == MarkedDelivered(old(db), id)
    {
      var found := Fetch(id);
      if found.Some? {
        ghost var j :| 0 <= j < |db| && db[j].key == id;
        GetMember(db, db[j]);
        Add(found.value.(delivered := true));
      }
    }

    method Statistics() returns (stats: Stats)
      ensures stats == StatsOf(View(db))
      ensures stats.total == |db|
      ensures stats.sent == |set i | 0 <= i < |db| && db[i].value.direction == Sent|
      ensures stats.received == |set i | 0 <= i < |db| && db[i].value.direction == Received|
      ensures stats.undelivered == |set i | 0 <= i < |db| && !db[i].value.delivered|
    {
      hide Filter, View, Adjusted, IsSent, IsReceived, IsUndelivered;
      NoStats();
      assert db[..0] == [];
      stats := Stats(0, 0, 0, 0);
      for i := 0 to |db|
        invariant stats == StatsOf(View(db[..i]))
      {
        var record := Adjusted(db[i].value);
        ViewAppend(db, i);
        StatsNext(View(db[..i]), record);
        stats := stats.(total := stats.total + 1);
        match record.direction {
          case Sent => stats := stats.(sent := stats.sent + 1);
          case Received => stats := stats.(received := stats.received + 1);
        }
        if !record.delivered {
          stats := stats.(undelivered := stats.undelivered + 1);
        }
      }
      assert db[..|db|] == db;
      StatsCount(db);
    }

    method EnforceRetention(maxMessages: nat) returns (pruned: nat)
      requires Valid()
      modifies this
      ensures Valid() && db == Retained(old(db), maxMessages)
      ensures pruned == |old(db)| - |db| && |db| == Min(|old(db)|, maxMessages)
    {
      RetentionKeepsPrefix(db, maxMessages);
      if |db| <= maxMessages {
        KeepAll(db, maxMessages);
        return 0;
      }
      DropTailIsRetention(db, maxMessages);
      var entries := Sort(NotOlderEntry, db);
      var victims := Keys(entries[maxMessages..]);
      pruned := |victims|;
      var r := RemoveAll(db, victims);
      db := r;
    }

    method PruneBefore(cutoff: nat) returns (pruned: nat)
      requires Valid()
      modifies this
      ensures Valid() && db == Pruned(old(db), cutoff)
      ensures forall e :: e in db <==> e in old(db) && e.value.timestamp >= cutoff
      ensures pruned == |old(db)| - |db|
    {
      var stale := Collect(db, IsStale(cutoff));
      PruneByKeys(db, cutoff);
      PrunedMembers(db, cutoff);
      SelectWellKeyed(NotOlder(cutoff), db);
      pruned := |stale|;
      var r := RemoveAll(db, Keys(stale));
      db := r;
    }
  }
}
