/**
 The persistent outbox backend (core/src/store/outbox.rs): messages live in a sled
 tree under "outbox_<recipient>_<id>" and a peer's queue is a key-prefix scan.
 */
module PersistentOutbox {
  import opened Sequences
  import opened SledTree
  import opened Text
  import opened Outbox
  import Lex

  type Store = Tree<QueuedMessage>

  function Prefix(peer: string): string {
    "outbox_" + peer + "_"
  }

  function KeyFor(peer: string, id: string): string {
    Prefix(peer) + id
  }

  function KeyOf(m: QueuedMessage): string {
    KeyFor(m.recipientId, m.messageId)
  }

  ghost predicate WellKeyed(t: Store) {
    Ascending(t) && forall i :: 0 <= i < |t| ==> t[i].key == KeyOf(t[i].value)
  }

  function Scanned(peer: string): Entry<QueuedMessage> -> bool {
    (e: Entry<QueuedMessage>) => StartsWith(e.key, Prefix(peer))
  }

  // ---------------------------------------------------------- prefix scans

  /** Another recipient or message id spells out `peer`'s prefix across the separators. */
  predicate Collides(peer: string, recipient: string, id: string) {
    || StartsWith(recipient, peer + "_")
    || (StartsWith(peer, recipient + "_") && StartsWith(id, peer[|recipient| + 1..] + "_"))
  }

  lemma SeparatedPrefix(peer: string, recipient: string, id: string)
    ensures StartsWith(recipient + "_" + id, peer + "_") <==> recipient == peer || Collides(peer, recipient, id)
  {
    var s, p := recipient + "_" + id, peer + "_";
    if |peer| < |recipient| {
      assert s[..|p|] == recipient[..|p|];
    } else if |peer| == |recipient| {
      if |p| <= |s| {
        assert s[..|p|] == recipient + "_";
        assert (recipient + "_")[..|peer|] == recipient && p[..|peer|] == peer;
      }
      assert !StartsWith(recipient, p);
    } else {
      var n := |recipient| + 1;
      assert !StartsWith(recipient, p);
      assert s[n..] == id && s[..n] == recipient + "_";
      assert p == peer[..n] + (peer[n..] + "_");
      if StartsWith(s, p) {
        assert s[..|p|][..n] == s[..n] && s[..|p|][n..] == id[..|p| - n];
        assert p[..n] == peer[..n] && p[n..] == peer[n..] + "_";
      }
      if Collides(peer, recipient, id) {
        assert s[..|p|] == s[..n] + id[..|p| - n];
      }
    }
  }

  /** A prefix scan for `peer` hits its own messages and the colliding ones, no others. */
  lemma ScanHits(peer: string, m: QueuedMessage)
    ensures StartsWith(KeyOf(m), Prefix(peer)) <==>
            m.recipientId == peer || Collides(peer, m.recipientId, m.messageId)
  {
    var s := m.recipientId + "_" + m.messageId;
    assert KeyOf(m) == "outbox_" + s;
    assert Prefix(peer) == "outbox_" + (peer + "_");
    assert StartsWith(KeyOf(m), Prefix(peer)) <==> StartsWith(s, peer + "_") by {
      if |peer + "_"| <= |s| {
        assert KeyOf(m)[..|Prefix(peer)|] == "outbox_" + s[..|peer + "_"|];
        assert ("outbox_" + s[..|peer + "_"|])[7..] == s[..|peer + "_"|];
        assert Prefix(peer)[7..] == peer + "_";
      }
    }
    SeparatedPrefix(peer, m.recipientId, m.messageId);
  }

  /** Draining a peer takes exactly the messages addressed to it iff no stored message collides with it. */
  lemma DrainIsExactlyWhen(t: Store, peer: string)
    requires WellKeyed(t)
    ensures (forall i :: 0 <= i < |t| ==> (Scanned(peer)(t[i]) <==> t[i].value.recipientId == peer)) <==>
            (forall i :: 0 <= i < |t| ==>
               t[i].value.recipientId == peer || !Collides(peer, t[i].value.recipientId, t[i].value.messageId))
  {
    forall i | 0 <= i < |t|
      ensures Scanned(peer)(t[i]) <==>
              t[i].value.recipientId == peer || Collides(peer, t[i].value.recipientId, t[i].value.messageId)
    {
      ScanHits(peer, t[i].value);
    }
  }

  lemma NoSeparator(s: string, p: string)
    requires '_' !in s
    ensures !StartsWith(s, p + "_")
  {
    assert (p + "_")[|p|] == '_';
    if |p| < |s| {
      assert s[..|p + "_"|][|p|] == s[|p|];
    }
  }

  /** Without underscores in peer and message ids, as in base58 peer ids and UUIDs, nothing collides. */
  lemma PlainIdsNeverCollide(peer: string, recipient: string, id: string)
    requires '_' !in recipient && '_' !in id
    ensures !Collides(peer, recipient, id)
  {
    NoSeparator(recipient, peer);
    if StartsWith(peer, recipient + "_") {
      NoSeparator(id, peer[|recipient| + 1..]);
    }
  }

  /** Concretely, a queue for "a" also drains mail for a peer called "a_b". */
  lemma CollisionExample(m: QueuedMessage)
    requires m.recipientId == "a_b"
    ensures StartsWith(KeyOf(m), Prefix("a"))
  {
    assert m.recipientId[..2] == "a" + "_";
    ScanHits("a", m);
  }

  // ----------------------------------------------------------------- flush

  predicate Plain(m: QueuedMessage) {
    '_' !in m.recipientId && '_' !in m.messageId
  }

  ghost predicate PlainIds(t: Store) {
    forall i :: 0 <= i < |t| ==> Plain(t[i].value)
  }

  ghost predicate StoreWithinLimits(t: Store) {
    |t| <= MAX_TOTAL_QUEUED && forall peer :: |Filter(Scanned(peer), t)| <= MAX_QUEUE_PER_PEER
  }

  predicate StoreAccepts(t: Store, msg: QueuedMessage) {
    |t| < MAX_TOTAL_QUEUED && |Filter(Scanned(msg.recipientId), t)| < MAX_QUEUE_PER_PEER
  }

  function Delivered(delivers: QueuedMessage -> bool): Entry<QueuedMessage> -> bool {
    (e: Entry<QueuedMessage>) => delivers(e.value)
  }

  /** What stays after a flush: everything but the peer's messages that were sent. */
  function Unsent(peer: string, delivers: QueuedMessage -> bool): Entry<QueuedMessage> -> bool {
    (e: Entry<QueuedMessage>) => !(Scanned(peer)(e) && delivers(e.value))
  }

  function NotScanned(peer: string): Entry<QueuedMessage> -> bool {
    (e: Entry<QueuedMessage>) => !Scanned(peer)(e)
  }

  /** Entries outside the scan, and those of `done` that failed. */
  function KeptSoFar(
    peer: string, delivers: QueuedMessage -> bool, done: seq<Entry<QueuedMessage>>): Entry<QueuedMessage> -> bool
  {
    (e: Entry<QueuedMessage>) => !Scanned(peer)(e) || (e in done && !delivers(e.value))
  }

  /** Putting an entry of a tree back among a selection of that tree just adds it to the selection. */
  lemma PutBack(t: Store, p: Entry<QueuedMessage> -> bool, q: Entry<QueuedMessage> -> bool, e: Entry<QueuedMessage>)
    requires Ascending(t) && e in t
    requires forall x :: x in t ==> (q(x) <==> p(x) || x == e)
    ensures Put(Filter(p, t), e.key, e.value) == Filter(q, t)
  {
    var a, b := Put(Filter(p, t), e.key, e.value), Filter(q, t);
    FilterAscending(p, t);
    FilterAscending(q, t);
    PutAscending(Filter(p, t), e.key, e.value);
    forall k
      ensures Get(a, k) == Get(b, k)
    {
      GetPut(Filter(p, t), e.key, e.value, k);
      GetFilter(p, t, k);
      GetFilter(q, t, k);
      GetMember(t, e);
    }
    Extensional(a, b);
  }

  lemma RoomForOne(
    t: Store, p: Entry<QueuedMessage> -> bool, scan: Entry<QueuedMessage> -> bool, e: Entry<QueuedMessage>)
    requires e in t && scan(e) && !p(e)
    ensures |Filter(p, t)| < |t|
    ensures |Filter(scan, Filter(p, t))| < |Filter(scan, t)|
  {
    var i :| 0 <= i < |t| && t[i] == e;
    assert t == t[..i] + ([e] + t[i + 1..]);
    FilterConcat(p, t[..i], [e] + t[i + 1..]);
    FilterConcat(scan, t[..i], [e] + t[i + 1..]);
    FilterLength(p, t[..i]);
    FilterLength(p, t[i + 1..]);
    FilterConcat(scan, Filter(p, t[..i]), Filter(p, t[i + 1..]));
    FilterShrinks(scan, p, t[..i]);
    FilterShrinks(scan, p, t[i + 1..]);
  }

  lemma FilterShrinks(scan: Entry<QueuedMessage> -> bool, p: Entry<QueuedMessage> -> bool, t: Store)
    ensures |Filter(scan, Filter(p, t))| <= |Filter(scan, t)|
  {
    if t != [] {
      FilterShrinks(scan, p, t[1..]);
    }
  }

  // ---------------------------------------------------- keeping the limits

  lemma {:induction false} PutNewCount(t: Store, peer: string, k: string, v: QueuedMessage)
    requires !HasKey(t, k)
    ensures |Put(t, k, v)| == |t| + 1
    ensures |Filter(Scanned(peer), Put(t, k, v))| ==
            |Filter(Scanned(peer), t)| + if StartsWith(k, Prefix(peer)) then 1 else 0
  {
    if t != [] && !Lex.Less(k, t[0].key) {
      assert !HasKey(t[1..], k);
      PutNewCount(t[1..], peer, k, v);
    }
  }

  /** Overwriting a key changes no prefix count. */
  lemma {:induction false} PutOldCount(t: Store, peer: string, k: string, v: QueuedMessage)
    requires Ascending(t) && HasKey(t, k)
    ensures |Put(t, k, v)| == |t|
    ensures |Filter(Scanned(peer), Put(t, k, v))| == |Filter(Scanned(peer), t)|
  {
    var i :| 0 <= i < |t| && t[i].key == k;
    if i == 0 {
      Lex.Irreflexive(k);
    } else {
      Lex.Asymmetric(t[0].key, k);
      assert t[1..][i - 1].key == k;
      PutOldCount(t[1..], peer, k, v);
    }
  }

  /** No peer that `msg` collides with has a full queue. */
  ghost predicate NoFullNeighbour(t: Store, msg: QueuedMessage) {
    forall peer :: peer != msg.recipientId && Collides(peer, msg.recipientId, msg.messageId) ==>
      |Filter(Scanned(peer), t)| < MAX_QUEUE_PER_PEER
  }

  /**
   An accepted message keeps every peer's limit exactly when it replaces a stored one or collides
   with no peer whose queue is full: its own recipient is the only one checked.
   */
  lemma LimitsKeptExactlyWhen(t: Store, msg: QueuedMessage)
    requires WellKeyed(t) && StoreWithinLimits(t) && StoreAccepts(t, msg)
    ensures StoreWithinLimits(Put(t, KeyOf(msg), msg)) <==> HasKey(t, KeyOf(msg)) || NoFullNeighbour(t, msg)
  {
    hide Filter, Put, Collides, StartsWith, HasKey;
    var k := KeyOf(msg);
    var r := Put(t, k, msg);
    if HasKey(t, k) {
      forall peer
        ensures |Filter(Scanned(peer), r)| <= MAX_QUEUE_PER_PEER && |r| == |t|
      {
        PutOldCount(t, peer, k, msg);
      }
      PutOldCount(t, "", k, msg);
    } else {
      PutNewCount(t, "", k, msg);
      forall peer
        ensures |Filter(Scanned(peer), r)| <= MAX_QUEUE_PER_PEER <==>
                (peer != msg.recipientId && Collides(peer, msg.recipientId, msg.messageId) ==>
                   |Filter(Scanned(peer), t)| < MAX_QUEUE_PER_PEER)
      {
        PutNewCount(t, peer, k, msg);
        ScanHits(peer, msg);
      }
    }
  }

  /** A message with plain ids collides with nobody. */
  lemma PlainHasNoNeighbour(t: Store, msg: QueuedMessage)
    requires Plain(msg)
    ensures NoFullNeighbour(t, msg)
  {
    hide Collides;
    forall peer
      ensures !Collides(peer, msg.recipientId, msg.messageId)
    {
      PlainIdsNeverCollide(peer, msg.recipientId, msg.messageId);
    }
  }

  /** A colliding recipient takes a full peer's prefix count over its limit. */
  lemma CollisionBreaksLimit(t: Store, peer: string, msg: QueuedMessage)
    requires WellKeyed(t) && StoreWithinLimits(t) && StoreAccepts(t, msg) && !HasKey(t, KeyOf(msg))
    requires msg.recipientId != peer && Collides(peer, msg.recipientId, msg.messageId)
    requires |Filter(Scanned(peer), t)| == MAX_QUEUE_PER_PEER
    ensures !StoreWithinLimits(Put(t, KeyOf(msg), msg))
    ensures |Filter(Scanned(peer), Put(t, KeyOf(msg), msg))| == MAX_QUEUE_PER_PEER + 1
  {
    hide Filter, Put, Collides, StartsWith, HasKey, StoreWithinLimits;
    LimitsKeptExactlyWhen(t, msg);
    ScanHits(peer, msg);
    PutNewCount(t, peer, KeyOf(msg), msg);
  }

  lemma PutKeepsKeys(t: Store, msg: QueuedMessage)
    requires WellKeyed(t)
    ensures WellKeyed(Put(t, KeyOf(msg), msg))
    ensures PlainIds(t) && Plain(msg) ==> PlainIds(Put(t, KeyOf(msg), msg))
  {
    hide Put;
    var r := Put(t, KeyOf(msg), msg);
    PutAscending(t, KeyOf(msg), msg);
    forall i | 0 <= i < |r|
      ensures r[i] == Entry(KeyOf(msg), msg) || r[i] in t
    {
      PutMember(t, KeyOf(msg), msg, r[i]);
    }
  }

  /** Dropping entries keeps everything in order. */
  lemma FilterKeeps(t: Store, p: Entry<QueuedMessage> -> bool)
    ensures WellKeyed(t) ==> WellKeyed(Filter(p, t))
    ensures PlainIds(t) ==> PlainIds(Filter(p, t))
    ensures StoreWithinLimits(t) ==> StoreWithinLimits(Filter(p, t))
  {
    hide Filter;
    var r := Filter(p, t);
    if WellKeyed(t) {
      FilterAscending(p, t);
    }
    forall i | 0 <= i < |r|
      ensures r[i] in t
    {
      FilterMember(p, t, r[i]);
    }
    FilterLength(p, t);
    forall peer
      ensures |Filter(Scanned(peer), r)| <= |Filter(Scanned(peer), t)|
    {
      FilterShrinks(Scanned(peer), p, t);
    }
  }

  class SledOutbox {
    var db: Store

    ghost predicate Valid()
      reads this
    {
      WellKeyed(db) && StoreWithinLimits(db)
    }

    constructor ()
      ensures Valid() && db == []
    {
      db := [];
    }

    /** The limits are checked by prefix counts, for the message's own recipient only. */
    method Enqueue(msg: QueuedMessage) returns (ok: bool)
      modifies this
      ensures ok == StoreAccepts(old(db), msg)
      ensures ok <==> |old(db)| < 10_000 && |Filter(Scanned(msg.recipientId), old(db))| < 1000
      ensures db == if ok then Put(old(db), KeyOf(msg), msg) else old(db)
      ensures old(WellKeyed(db)) ==> WellKeyed(db)
      ensures old(Valid()) ==> (Valid() <==> !ok || HasKey(old(db), KeyOf(msg)) || NoFullNeighbour(old(db), msg))
      ensures old(Valid()) && Plain(msg) ==> Valid()
      ensures old(WellKeyed(db) && PlainIds(db)) && Plain(msg) ==> PlainIds(db)
    {
      hide StoreWithinLimits, Put, Filter, PlainIds, WellKeyed, HasKey, NoFullNeighbour;
      if WellKeyed(db) {
        PutKeepsKeys(db, msg);
        if StoreWithinLimits(db) && StoreAccepts(db, msg) {
          LimitsKeptExactlyWhen(db, msg);
        }
      }
      if Plain(msg) {
        PlainHasNoNeighbour(db, msg);
      }
      if |db| >= MAX_TOTAL_QUEUED {
        return false;
      }
      if |Filter(Scanned(msg.recipientId), db)| >= MAX_QUEUE_PER_PEER {
        return false;
      }
      db := Put(db, KeyOf(msg), msg);
      return true;
    }

    method DrainForPeer(peer: string) returns (drained: seq<Entry<QueuedMessage>>)
      requires WellKeyed(db)
      modifies this
      ensures drained == Filter(Scanned(peer), old(db)) && db == Filter(NotScanned(peer), old(db))
      ensures old(Valid()) ==> Valid()
      ensures old(PlainIds(db)) ==> PlainIds(db)
    {
      FilterKeeps(db, NotScanned(peer));
      drained := Collect(db, Scanned(peer));
      ghost var t := db;
      forall e
        ensures e in drained <==> e in t && Scanned(peer)(e)
      {
        FilterMember(Scanned(peer), t, e);
      }
      RemoveVictims(db, drained, NotScanned(peer));
      var r := RemoveAll(db, Keys(drained));
      db := r;
    }

    /**
     Drain, send, re-enqueue the failures. On a store within its limits every failure fits again, so
     exactly the delivered messages go.
     */
    method Flush(peer: string, delivers: QueuedMessage -> bool) returns (sent: seq<Entry<QueuedMessage>>)
      requires WellKeyed(db)
      modifies this
      ensures WellKeyed(db)
      ensures sent == Filter(Delivered(delivers), Filter(Scanned(peer), old(db)))
      ensures db == Refilled(old(db), peer, delivers, Filter(Scanned(peer), old(db)))
      ensures old(Valid()) ==> Valid() && db == Filter(Unsent(peer, delivers), old(db))
      ensures forall e :: e in sent <==> e in old(db) && StartsWith(e.key, Prefix(peer)) && delivers(e.value)
      ensures old(Valid()) ==>
                forall e :: e in db <==> e in old(db) && !(StartsWith(e.key, Prefix(peer)) && delivers(e.value))
      ensures old(PlainIds(db)) ==>
                PlainIds(db) && forall i :: 0 <= i < |sent| ==> sent[i].value.recipientId == peer
    {
      hide Filter, StoreWithinLimits, WellKeyed, PlainIds, Put, KeptSoFar, StartsWith, StoreAccepts;
      ghost var t := db;
      ghost var wasSent := Delivered(delivers);
      var drained := DrainForPeer(peer);
      assert drained[..0] == [];
      FlushStarts(t, peer, delivers);
      sent := [];
      for i := 0 to |drained|
        invariant db == Refilled(t, peer, delivers, drained[..i])
        invariant sent == Filter(wasSent, drained[..i])
      {
        var e := drained[i];
        assert drained[..i + 1] == drained[..i] + [e];
        FilterAppend(wasSent, drained[..i], e);
        RefilledNext(t, peer, delivers, drained[..i], e);
        if delivers(e.value) {
          sent := sent + [e];
        } else {
          var ok := Enqueue(e.value);
        }
      }
      assert drained[..|drained|] == drained;
      FlushMembers(t, peer, delivers);
      RefilledKeys(t, peer, delivers, drained, |drained|);
      if StoreWithinLimits(t) {
        FlushWithinLimits(t, peer, delivers);
        FilterKeeps(t, Unsent(peer, delivers));
      }
      if PlainIds(t) {
        SentAreTheirs(t, peer, delivers);
      }
    }
  }

  // ------------------------------------------------------- flushing exactly

  lemma FlushMembers(t: Store, peer: string, delivers: QueuedMessage -> bool)
    ensures forall e :: e in Filter(Delivered(delivers), Filter(Scanned(peer), t)) <==>
              e in t && StartsWith(e.key, Prefix(peer)) && delivers(e.value)
    ensures forall e :: e in Filter(Unsent(peer, delivers), t) <==>
              e in t && !(StartsWith(e.key, Prefix(peer)) && delivers(e.value))
  {
    hide Filter, StartsWith;
    forall e
      ensures e in Filter(Delivered(delivers), Filter(Scanned(peer), t)) <==>
              e in t && StartsWith(e.key, Prefix(peer)) && delivers(e.value)
      ensures e in Filter(Unsent(peer, delivers), t) <==>
              e in t && !(StartsWith(e.key, Prefix(peer)) && delivers(e.value))
    {
      FilterMember(Scanned(peer), t, e);
      FilterMember(Delivered(delivers), Filter(Scanned(peer), t), e);
      FilterMember(Unsent(peer, delivers), t, e);
    }
  }

  /** The tree after draining `peer` and re-enqueuing the failures of `drained`, refused ones left out. */
  function Refilled(
    t: Store, peer: string, delivers: QueuedMessage -> bool, drained: seq<Entry<QueuedMessage>>): Store
  {
    if drained == [] then Filter(NotScanned(peer), t)
    else
      var r, e := Refilled(t, peer, delivers, drained[..|drained| - 1]), drained[|drained| - 1];
      if !delivers(e.value) && StoreAccepts(r, e.value) then Put(r, KeyOf(e.value), e.value) else r
  }

  lemma RefilledNext(
    t: Store, peer: string, delivers: QueuedMessage -> bool, done: seq<Entry<QueuedMessage>>, e: Entry<QueuedMessage>)
    ensures var r := Refilled(t, peer, delivers, done);
            Refilled(t, peer, delivers, done + [e]) ==
            if !delivers(e.value) && StoreAccepts(r, e.value) then Put(r, KeyOf(e.value), e.value) else r
  {
    assert (done + [e])[..|done|] == done;
  }

  lemma FlushStarts(t: Store, peer: string, delivers: QueuedMessage -> bool)
    ensures Filter(NotScanned(peer), t) == Filter(KeptSoFar(peer, delivers, []), t)
    ensures Filter(Delivered(delivers), []) == []
  {
    FilterCongruence(NotScanned(peer), KeptSoFar(peer, delivers, []), t);
  }

  lemma DrainedEntry(t: Store, peer: string, drained: seq<Entry<QueuedMessage>>, i: nat)
    requires WellKeyed(t) && drained == Filter(Scanned(peer), t) && i < |drained|
    ensures drained[i] in t && Scanned(peer)(drained[i]) && drained[i].key == KeyOf(drained[i].value)
    ensures forall j :: 0 <= j < |drained| && drained[j] == drained[i] ==> j == i
  {
    var e := drained[i];
    FilterMember(Scanned(peer), t, e);
    var k :| 0 <= k < |t| && t[k] == e;
    FilterAscending(Scanned(peer), t);
    forall j | 0 <= j < |drained| && drained[j] == e
      ensures j == i
    {
      AscendingDistinct(drained, j, i);
    }
  }

  lemma SentAreTheirs(t: Store, peer: string, delivers: QueuedMessage -> bool)
    requires WellKeyed(t) && PlainIds(t)
    ensures forall e :: e in Filter(Delivered(delivers), Filter(Scanned(peer), t)) ==> e.value.recipientId == peer
  {
    hide Filter, Collides, StartsWith;
    forall e | e in Filter(Delivered(delivers), Filter(Scanned(peer), t))
      ensures e.value.recipientId == peer
    {
      FilterMember(Delivered(delivers), Filter(Scanned(peer), t), e);
      FilterMember(Scanned(peer), t, e);
      var k :| 0 <= k < |t| && t[k] == e;
      ScanHits(peer, e.value);
      PlainIdsNeverCollide(peer, e.value.recipientId, e.value.messageId);
    }
  }

  /** Whatever is refused, the tree stays keyed and holds only what it held. */
  lemma {:induction false} RefilledKeys(
    t: Store, peer: string, delivers: QueuedMessage -> bool, drained: seq<Entry<QueuedMessage>>, n: nat)
    requires WellKeyed(t) && drained == Filter(Scanned(peer), t) && n <= |drained|
    ensures var r := Refilled(t, peer, delivers, drained[..n]);
            WellKeyed(r) && (forall x :: x in r ==> x in t) && (PlainIds(t) ==> PlainIds(r))
  {
    hide Filter, Put, StoreAccepts, Scanned;
    if n == 0 {
      FilterKeeps(t, NotScanned(peer));
      forall x | x in Filter(NotScanned(peer), t)
        ensures x in t
      {
        FilterMember(NotScanned(peer), t, x);
      }
    } else {
      var e, r := drained[n - 1], Refilled(t, peer, delivers, drained[..n - 1]);
      RefilledKeys(t, peer, delivers, drained, n - 1);
      DrainedEntry(t, peer, drained, n - 1);
      assert drained[..n] == drained[..n - 1] + [e];
      RefilledNext(t, peer, delivers, drained[..n - 1], e);
      hide Refilled;
      PutKeepsKeys(r, e.value);
      forall x | x in Put(r, KeyOf(e.value), e.value)
        ensures x in t
      {
        PutMember(r, KeyOf(e.value), e.value, x);
      }
      assert forall i :: 0 <= i < |t| ==> t[i] in t;
      assert PlainIds(t) ==> Plain(e.value);
    }
  }

  /** There was room for the `i`-th failure, given that all before it came back. */
  ghost predicate RoomAt(
    t: Store, peer: string, delivers: QueuedMessage -> bool, drained: seq<Entry<QueuedMessage>>, i: nat)
    requires i < |drained|
  {
    delivers(drained[i].value) ||
    StoreAccepts(Filter(KeptSoFar(peer, delivers, drained[..i]), t), drained[i].value)
  }

  /** While there is room, what is stored is everything but what was delivered. */
  lemma {:induction false} RefilledWithRoom(
    t: Store, peer: string, delivers: QueuedMessage -> bool, drained: seq<Entry<QueuedMessage>>, n: nat)
    requires WellKeyed(t) && drained == Filter(Scanned(peer), t) && n <= |drained|
    requires forall i :: 0 <= i < n ==> RoomAt(t, peer, delivers, drained, i)
    ensures Refilled(t, peer, delivers, drained[..n]) == Filter(KeptSoFar(peer, delivers, drained[..n]), t)
  {
    hide Filter, Put, StoreAccepts, KeptSoFar, Scanned;
    if n == 0 {
      FlushStarts(t, peer, delivers);
    } else {
      var e := drained[n - 1];
      RefilledWithRoom(t, peer, delivers, drained, n - 1);
      assert RoomAt(t, peer, delivers, drained, n - 1);
      assert drained[..n] == drained[..n - 1] + [e];
      RefilledNext(t, peer, delivers, drained[..n - 1], e);
      hide Refilled;
      KeptNext(t, peer, delivers, drained, n - 1);
    }
  }

  lemma KeptNext(t: Store, peer: string, delivers: QueuedMessage -> bool, drained: seq<Entry<QueuedMessage>>, i: nat)
    requires WellKeyed(t) && drained == Filter(Scanned(peer), t) && i < |drained|
    ensures var e, kept := drained[i], Filter(KeptSoFar(peer, delivers, drained[..i]), t);
            Filter(KeptSoFar(peer, delivers, drained[..i + 1]), t) ==
            if delivers(e.value) then kept else Put(kept, KeyOf(e.value), e.value)
  {
    hide Filter, Put;
    var e := drained[i];
    assert drained[..i + 1] == drained[..i] + [e];
    DrainedEntry(t, peer, drained, i);
    if delivers(e.value) {
      FilterCongruence(KeptSoFar(peer, delivers, drained[..i]), KeptSoFar(peer, delivers, drained[..i + 1]), t);
    } else {
      PutBack(t, KeptSoFar(peer, delivers, drained[..i]), KeptSoFar(peer, delivers, drained[..i + 1]), e);
    }
  }

  lemma KeptIsUnsent(t: Store, peer: string, delivers: QueuedMessage -> bool)
    ensures Filter(KeptSoFar(peer, delivers, Filter(Scanned(peer), t)), t) == Filter(Unsent(peer, delivers), t)
  {
    hide Filter;
    var drained := Filter(Scanned(peer), t);
    forall e | e in t
      ensures KeptSoFar(peer, delivers, drained)(e) == Unsent(peer, delivers)(e)
    {
      FilterMember(Scanned(peer), t, e);
    }
    FilterCongruence(KeptSoFar(peer, delivers, drained), Unsent(peer, delivers), t);
  }

  lemma RefusedIsDropped(
    t: Store, peer: string, delivers: QueuedMessage -> bool, drained: seq<Entry<QueuedMessage>>, j: nat)
    requires WellKeyed(t) && drained == Filter(Scanned(peer), t) && j < |drained|
    requires forall i :: 0 <= i < j ==> RoomAt(t, peer, delivers, drained, i)
    requires !RoomAt(t, peer, delivers, drained, j)
    ensures drained[j] !in Refilled(t, peer, delivers, drained[..j + 1])
  {
    hide Filter, Put, StoreAccepts, Scanned, Refilled;
    assert drained[..j + 1] == drained[..j] + [drained[j]];
    RefilledNext(t, peer, delivers, drained[..j], drained[j]);
    DrainedEntry(t, peer, drained, j);
    RefilledWithRoom(t, peer, delivers, drained, j);
    FilterMember(KeptSoFar(peer, delivers, drained[..j]), t, drained[j]);
  }

  /** A failure that finds no room is gone for good. */
  lemma {:induction false} RefusedIsLost(
    t: Store, peer: string, delivers: QueuedMessage -> bool, drained: seq<Entry<QueuedMessage>>, j: nat, n: nat)
    requires WellKeyed(t) && drained == Filter(Scanned(peer), t) && j < n <= |drained|
    requires forall i :: 0 <= i < j ==> RoomAt(t, peer, delivers, drained, i)
    requires !RoomAt(t, peer, delivers, drained, j)
    ensures drained[j] !in Refilled(t, peer, delivers, drained[..n])
  {
    hide Filter, Put, StoreAccepts, Scanned, Refilled, RoomAt;
    if n == j + 1 {
      RefusedIsDropped(t, peer, delivers, drained, j);
    } else {
      var e, r := drained[n - 1], Refilled(t, peer, delivers, drained[..n - 1]);
      assert drained[..n] == drained[..n - 1] + [e];
      RefilledNext(t, peer, delivers, drained[..n - 1], e);
      RefusedIsLost(t, peer, delivers, drained, j, n - 1);
      RefilledKeys(t, peer, delivers, drained, n - 1);
      DrainedEntry(t, peer, drained, j);
      DrainedEntry(t, peer, drained, n - 1);
      PutMember(r, KeyOf(e.value), e.value, drained[j]);
    }
  }

  /** Either there was room throughout or there is a first refusal. */
  lemma {:induction false} FirstRefusal(
    t: Store, peer: string, delivers: QueuedMessage -> bool, drained: seq<Entry<QueuedMessage>>, n: nat)
    returns (j: nat)
    requires n <= |drained|
    ensures j <= n && forall i :: 0 <= i < j ==> RoomAt(t, peer, delivers, drained, i)
    ensures j < n ==> !RoomAt(t, peer, delivers, drained, j)
  {
    hide RoomAt;
    j := 0;
    while j < n && RoomAt(t, peer, delivers, drained, j)
      invariant j <= n && forall i :: 0 <= i < j ==> RoomAt(t, peer, delivers, drained, i)
    {
      j := j + 1;
    }
  }

  /** On any stored outbox, a flush loses nothing exactly when every failure found room in its turn. */
  lemma FlushLosesNothingExactlyWhen(t: Store, peer: string, delivers: QueuedMessage -> bool)
    requires WellKeyed(t)
    ensures var drained := Filter(Scanned(peer), t);
            Refilled(t, peer, delivers, drained) == Filter(Unsent(peer, delivers), t) <==>
            forall i :: 0 <= i < |drained| ==> RoomAt(t, peer, delivers, drained, i)
  {
    hide Filter, Refilled, RoomAt, Scanned;
    var drained := Filter(Scanned(peer), t);
    var n := |drained|;
    assert drained[..n] == drained;
    KeptIsUnsent(t, peer, delivers);
    var j := FirstRefusal(t, peer, delivers, drained, n);
    if j == n {
      RefilledWithRoom(t, peer, delivers, drained, n);
    } else {
      RefusedIsLost(t, peer, delivers, drained, j, n);
      DrainedEntry(t, peer, drained, j);
      assert !delivers(drained[j].value) by { RefusedFailed(t, peer, delivers, drained, j); }
      FilterMember(Unsent(peer, delivers), t, drained[j]);
    }
  }

  lemma RefusedFailed(
    t: Store, peer: string, delivers: QueuedMessage -> bool, drained: seq<Entry<QueuedMessage>>, j: nat)
    requires j < |drained| && !RoomAt(t, peer, delivers, drained, j)
    ensures !delivers(drained[j].value)
  {
  }

  /** Within the limits there is always room: a failure takes back the place its drain freed. */
  lemma FlushWithinLimits(t: Store, peer: string, delivers: QueuedMessage -> bool)
    requires WellKeyed(t) && StoreWithinLimits(t)
    ensures Refilled(t, peer, delivers, Filter(Scanned(peer), t)) == Filter(Unsent(peer, delivers), t)
  {
    hide Filter, Refilled;
    var drained := Filter(Scanned(peer), t);
    forall i | 0 <= i < |drained|
      ensures RoomAt(t, peer, delivers, drained, i)
    {
      var e := drained[i];
      DrainedEntry(t, peer, drained, i);
      OwnPrefix(e.value);
      RoomForOne(t, KeptSoFar(peer, delivers, drained[..i]), Scanned(e.value.recipientId), e);
    }
    FlushLosesNothingExactlyWhen(t, peer, delivers);
  }

  lemma OwnPrefix(m: QueuedMessage)
    ensures StartsWith(KeyOf(m), Prefix(m.recipientId))
  {
  }
}
