/**
 Whole runs of the daemon over its persistent outbox (cli/src/main.rs): messages are queued,
 peers come and go, and a peer's queue is flushed when it is discovered.
 */
module OutboxRuns {
  import opened Sequences
  import opened SledTree
  import opened Text
  import opened Outbox
  import opened PersistentOutbox
  import Lex

  /** The stored outbox, the connected peers, what was ever accepted, in order, and what was sent. */
  datatype SledDaemon = SledDaemon(
    db: Store,
    peers: set<string>,
    accepted: seq<QueuedMessage>,
    sent: multiset<QueuedMessage>)

  datatype SledEvent =
    | Enqueued(msg: QueuedMessage)
    | Discovered(peer: string, delivers: QueuedMessage -> bool)
    | Disconnected(peer: string)

  function SentTo(t: Store, peer: string, delivers: QueuedMessage -> bool): seq<QueuedMessage> {
    Values(Filter(Delivered(delivers), Filter(Scanned(peer), t)))
  }

  /** The effects of the outbox methods on the tree. */
  function SledStep(d: SledDaemon, e: SledEvent): SledDaemon {
    match e
    case Enqueued(msg) =>
      if StoreAccepts(d.db, msg) then d.(db := Put(d.db, KeyOf(msg), msg), accepted := d.accepted + [msg]) else d
    case Discovered(p, delivers) =>
      if p in d.peers then d
      else
        d.(peers := d.peers + {p},
           db := Filter(Unsent(p, delivers), d.db),
           sent := d.sent + multiset(SentTo(d.db, p, delivers)))
    case Disconnected(p) => d.(peers := d.peers - {p})
  }

  function SledRun(events: seq<SledEvent>): SledDaemon {
    if events == [] then SledDaemon([], {}, [], multiset{})
    else SledStep(SledRun(events[..|events| - 1]), events[|events| - 1])
  }

  /** Queued messages carry new ids, and no underscores. */
  ghost predicate FreshPlain(events: seq<SledEvent>) {
    && (forall i :: 0 <= i < |events| && events[i].Enqueued? ==> Plain(events[i].msg))
    && (forall i, j :: 0 <= i < j < |events| && events[i].Enqueued? && events[j].Enqueued? ==>
          events[i].msg.messageId != events[j].msg.messageId)
  }

  // ---------------------------------------------------------- conservation

  /** With plain ids, a key names one recipient and one message id. */
  lemma PlainKeysAreInjective(a: QueuedMessage, b: QueuedMessage)
    requires Plain(a) && Plain(b) && KeyOf(a) == KeyOf(b)
    ensures a.recipientId == b.recipientId && a.messageId == b.messageId
  {
    hide Collides;
    var r := a.recipientId;
    assert KeyOf(a)[..|Prefix(r)|] == Prefix(r);
    ScanHits(r, b);
    PlainIdsNeverCollide(r, b.recipientId, b.messageId);
    assert KeyOf(a)[|Prefix(r)|..] == a.messageId && KeyOf(b)[|Prefix(r)|..] == b.messageId;
  }

  lemma ValuesCons(e: Entry<QueuedMessage>, t: Store)
    ensures Values([e] + t) == [e.value] + Values(t)
  {
  }

  lemma {:induction false} PutNewValues(t: Store, k: string, v: QueuedMessage)
    requires !HasKey(t, k)
    ensures multiset(Values(Put(t, k, v))) == multiset(Values(t)) + multiset{v}
  {
    if t == [] || Lex.Less(k, t[0].key) {
      ValuesCons(Entry(k, v), t);
    } else {
      assert !HasKey(t[1..], k);
      PutNewValues(t[1..], k, v);
      ValuesCons(t[0], Put(t[1..], k, v));
      ValuesCons(t[0], t[1..]);
      assert t == [t[0]] + t[1..];
    }
  }

  /** Enqueuing adds one message and keeps all others exactly when its key is not stored yet. */
  lemma EnqueueConservesExactlyWhen(t: Store, msg: QueuedMessage)
    requires WellKeyed(t)
    ensures multiset(Values(Put(t, KeyOf(msg), msg))) == multiset(Values(t)) + multiset{msg} <==> !HasKey(t, KeyOf(msg))
  {
    hide Values;
    var k := KeyOf(msg);
    if HasKey(t, k) {
      PutOldCount(t, "", k, msg);
      ValuesLength(t);
      ValuesLength(Put(t, k, msg));
      assert |multiset(Values(t)) + multiset{msg}| == |t| + 1;
    } else {
      PutNewValues(t, k, msg);
    }
  }

  lemma ValuesLength(t: Store)
    ensures |multiset(Values(t))| == |t|
  {
  }

  /** Different recipients can share a key, so a message can be replaced by one for somebody else. */
  lemma KeysCanClash(x: QueuedMessage, y: QueuedMessage)
    requires x.recipientId == "a_b" && x.messageId == "c" && y.recipientId == "a" && y.messageId == "b_c"
    ensures KeyOf(x) == KeyOf(y) && Put(Put([], KeyOf(x), x), KeyOf(y), y) == [Entry(KeyOf(y), y)]
  {
    assert KeyOf(x) == "outbox_a_b_c" && KeyOf(y) == "outbox_a_b_c";
    Lex.Irreflexive(KeyOf(x));
  }

  lemma ValuesMultiset(e: Entry<QueuedMessage>, t: Store)
    ensures multiset(Values([e] + t)) == multiset{e.value} + multiset(Values(t))
  {
    ValuesCons(e, t);
  }

  lemma {:induction false} Partition(p: Entry<QueuedMessage> -> bool, q: Entry<QueuedMessage> -> bool, t: Store)
    requires forall e :: e in t ==> q(e) == !p(e)
    ensures multiset(Values(t)) == multiset(Values(Filter(p, t))) + multiset(Values(Filter(q, t)))
  {
    if t != [] {
      var e, rest := t[0], t[1..];
      assert t == [e] + rest;
      Partition(p, q, rest);
      assert Filter(p, t) == if p(e) then [e] + Filter(p, rest) else Filter(p, rest);
      assert Filter(q, t) == if q(e) then [e] + Filter(q, rest) else Filter(q, rest);
      hide Filter, Values;
      ValuesMultiset(e, rest);
      ValuesMultiset(e, Filter(p, rest));
      ValuesMultiset(e, Filter(q, rest));
    }
  }

  /** A flush parts the stored messages into those sent and those kept. */
  lemma FlushSplits(t: Store, peer: string, delivers: QueuedMessage -> bool)
    ensures multiset(Values(t)) ==
            multiset(Values(Filter(Unsent(peer, delivers), t))) + multiset(SentTo(t, peer, delivers))
  {
    hide Values, Filter, Scanned;
    var q := (e: Entry<QueuedMessage>) => Scanned(peer)(e) && delivers(e.value);
    FilterTwice(Delivered(delivers), Scanned(peer), q, t);
    Partition(Unsent(peer, delivers), q, t);
  }

  ghost predicate StoredAreAccepted(d: SledDaemon) {
    forall e :: e in d.db ==> e.value in d.accepted
  }

  ghost predicate Sound(d: SledDaemon) {
    WellKeyed(d.db) && StoreWithinLimits(d.db) && PlainIds(d.db) && StoredAreAccepted(d)
  }

  ghost predicate Conserved(d: SledDaemon) {
    multiset(d.accepted) == d.sent + multiset(Values(d.db))
  }

  /** A message with an id not accepted before has no entry. */
  lemma NewIdIsAbsent(d: SledDaemon, msg: QueuedMessage)
    requires Sound(d) && Plain(msg) && forall m :: m in d.accepted ==> m.messageId != msg.messageId
    ensures !HasKey(d.db, KeyOf(msg))
  {
    forall i | 0 <= i < |d.db|
      ensures d.db[i].key != KeyOf(msg)
    {
      assert d.db[i] in d.db && Plain(d.db[i].value);
      if d.db[i].key == KeyOf(msg) {
        PlainKeysAreInjective(d.db[i].value, msg);
        assert false;
      }
    }
  }

  lemma EnqueueStep(d: SledDaemon, msg: QueuedMessage)
    requires Sound(d) && Conserved(d) && Plain(msg) && forall m :: m in d.accepted ==> m.messageId != msg.messageId
    ensures Sound(SledStep(d, Enqueued(msg))) && Conserved(SledStep(d, Enqueued(msg)))
  {
    hide WellKeyed, StoreWithinLimits, PlainIds, Put, Plain, StoreAccepts, NoFullNeighbour, HasKey;
    if StoreAccepts(d.db, msg) {
      NewIdIsAbsent(d, msg);
      PutKeepsKeys(d.db, msg);
      PlainHasNoNeighbour(d.db, msg);
      LimitsKeptExactlyWhen(d.db, msg);
      PutNewValues(d.db, KeyOf(msg), msg);
      forall e | e in Put(d.db, KeyOf(msg), msg)
        ensures e.value in d.accepted + [msg]
      {
        KeyedIsAscending(d.db);
        PutMember(d.db, KeyOf(msg), msg, e);
      }
    }
  }

  lemma KeyedIsAscending(t: Store)
    requires WellKeyed(t)
    ensures Ascending(t)
  {
  }

  lemma DiscoverStep(d: SledDaemon, peer: string, delivers: QueuedMessage -> bool)
    requires Sound(d) && Conserved(d)
    ensures Sound(SledStep(d, Discovered(peer, delivers))) && Conserved(SledStep(d, Discovered(peer, delivers)))
  {
    hide WellKeyed, StoreWithinLimits, PlainIds, Filter, SentTo, Values;
    FilterKeeps(d.db, Unsent(peer, delivers));
    FlushSplits(d.db, peer, delivers);
    forall e | e in Filter(Unsent(peer, delivers), d.db)
      ensures e.value in d.accepted
    {
      FilterMember(Unsent(peer, delivers), d.db, e);
    }
  }

  /** What was accepted came from a queueing event. */
  lemma {:induction false} AcceptedWereQueued(events: seq<SledEvent>, m: QueuedMessage)
    requires m in SledRun(events).accepted
    ensures exists i :: 0 <= i < |events| && events[i] == Enqueued(m)
  {
    if events != [] {
      var front := events[..|events| - 1];
      if m in SledRun(front).accepted {
        AcceptedWereQueued(front, m);
        var i :| 0 <= i < |front| && front[i] == Enqueued(m);
        assert events[i] == Enqueued(m);
      } else {
        assert events[|events| - 1] == Enqueued(m);
      }
    }
  }

  lemma FreshPrefix(events: seq<SledEvent>)
    requires FreshPlain(events) && events != []
    ensures FreshPlain(events[..|events| - 1])
    ensures var last := events[|events| - 1];
            var front := events[..|events| - 1];
            last.Enqueued? ==>
              Plain(last.msg) && forall m :: m in SledRun(front).accepted ==> m.messageId != last.msg.messageId
  {
    var front, last := events[..|events| - 1], events[|events| - 1];
    if last.Enqueued? {
      forall m | m in SledRun(front).accepted
        ensures m.messageId != last.msg.messageId
      {
        AcceptedWereQueued(front, m);
        var i :| 0 <= i < |front| && front[i] == Enqueued(m);
        assert events[i] == Enqueued(m);
      }
    }
  }

  /**
   In every run with fresh plain ids the stored outbox stays keyed and within its limits, and every
   message accepted was sent successfully once or is still stored.
   */
  lemma {:induction false} NothingIsLostOnDisk(events: seq<SledEvent>)
    requires FreshPlain(events)
    ensures Sound(SledRun(events)) && Conserved(SledRun(events))
  {
    if events == [] {
      NothingStored();
    } else {
      hide Sound, Conserved, SledStep, FreshPlain;
      var front, last := events[..|events| - 1], events[|events| - 1];
      FreshPrefix(events);
      NothingIsLostOnDisk(front);
      match last
      case Enqueued(msg) => EnqueueStep(SledRun(front), msg);
      case Discovered(p, delivers) => DiscoverStep(SledRun(front), p, delivers);
      case Disconnected(p) => DisconnectStep(SledRun(front), p);
    }
  }

  lemma NothingStored()
    ensures Sound(SledRun([])) && Conserved(SledRun([]))
  {
  }

  lemma DisconnectStep(d: SledDaemon, peer: string)
    requires Sound(d) && Conserved(d)
    ensures Sound(SledStep(d, Disconnected(peer))) && Conserved(SledStep(d, Disconnected(peer)))
  {
  }

  // ----------------------------------------------------------------- order

  /** A peer's queue as a drain returns it. */
  function PeerQueue(t: Store, peer: string): seq<QueuedMessage> {
    Values(Filter(Scanned(peer), t))
  }

  /** The messages for `peer` still stored, in the order they were accepted. */
  function StillHeld(t: Store, peer: string): QueuedMessage -> bool {
    (m: QueuedMessage) => m.recipientId == peer && Entry(KeyOf(m), m) in t
  }

  function AcceptanceOrder(d: SledDaemon, peer: string): seq<QueuedMessage> {
    Filter(StillHeld(d.db, peer), d.accepted)
  }

  ghost predicate ById(s: seq<QueuedMessage>) {
    forall i, j :: 0 <= i < j < |s| ==> Lex.Less(s[i].messageId, s[j].messageId)
  }

  function Fails(delivers: QueuedMessage -> bool): QueuedMessage -> bool {
    (m: QueuedMessage) => !delivers(m)
  }

  function OnMessage(p: QueuedMessage -> bool): Entry<QueuedMessage> -> bool {
    (e: Entry<QueuedMessage>) => p(e.value)
  }

  lemma ValuesFilter(p: QueuedMessage -> bool, t: Store)
    ensures Values(Filter(OnMessage(p), t)) == Filter(p, Values(t))
  {
    MapFilter((e: Entry<QueuedMessage>) => e.value, OnMessage(p), p, t);
  }

  lemma QueueAfterFlush(t: Store, peer: string, delivers: QueuedMessage -> bool)
    ensures PeerQueue(Filter(Unsent(peer, delivers), t), peer) == Filter(Fails(delivers), PeerQueue(t, peer))
    ensures SentTo(t, peer, delivers) == Filter(delivers, PeerQueue(t, peer))
  {
    hide Filter, Values, StartsWith;
    var both := (e: Entry<QueuedMessage>) => Scanned(peer)(e) && !delivers(e.value);
    FilterTwice(Scanned(peer), Unsent(peer, delivers), both, t);
    FilterTwice(OnMessage(Fails(delivers)), Scanned(peer), both, t);
    ValuesFilter(Fails(delivers), Filter(Scanned(peer), t));
    FilterCongruence(Delivered(delivers), OnMessage(delivers), Filter(Scanned(peer), t));
    ValuesFilter(delivers, Filter(Scanned(peer), t));
  }

  /** A flush does not touch another peer's queue. */
  lemma OtherQueueAfterFlush(t: Store, peer: string, delivers: QueuedMessage -> bool, other: string)
    requires WellKeyed(t) && PlainIds(t) && other != peer
    ensures PeerQueue(Filter(Unsent(peer, delivers), t), other) == PeerQueue(t, other)
  {
    hide Filter, Values, StartsWith, WellKeyed, PlainIds;
    forall e | e in t
      ensures Scanned(other)(e) ==> Unsent(peer, delivers)(e)
    {
      QueueEntry(t, peer, e);
      QueueEntry(t, other, e);
      FilterMember(Scanned(peer), t, e);
      FilterMember(Scanned(other), t, e);
    }
    FilterTwice(Scanned(other), Unsent(peer, delivers), Scanned(other), t);
  }

  /**
   In every run, a newly discovered peer is sent its stored messages that go through and keeps the
   others, in order; for one already connected nothing happens, and no other queue changes.
   */
  lemma DiscoveryDelivers(events: seq<SledEvent>, peer: string, delivers: QueuedMessage -> bool, other: string)
    requires FreshPlain(events) && other != peer
    ensures var d := SledRun(events);
            var e := SledStep(d, Discovered(peer, delivers));
            && peer in e.peers && e.accepted == d.accepted && PeerQueue(e.db, other) == PeerQueue(d.db, other)
            && (peer in d.peers ==> e == d)
            && (peer !in d.peers ==>
                  && PeerQueue(e.db, peer) == Filter(Fails(delivers), PeerQueue(d.db, peer))
                  && e.sent == d.sent + multiset(Filter(delivers, PeerQueue(d.db, peer))))
  {
    hide Filter, PeerQueue, SentTo, FreshPlain, Conserved, WellKeyed, PlainIds, StoreWithinLimits;
    NothingIsLostOnDisk(events);
    var d := SledRun(events);
    QueueAfterFlush(d.db, peer, delivers);
    OtherQueueAfterFlush(d.db, peer, delivers, other);
  }

  lemma QueueEntry(t: Store, peer: string, e: Entry<QueuedMessage>)
    requires WellKeyed(t) && PlainIds(t)
    ensures e in Filter(Scanned(peer), t) <==> e in t && e.value.recipientId == peer
    ensures e in t ==> e.key == KeyOf(e.value)
  {
    hide Collides, StartsWith, Filter;
    FilterMember(Scanned(peer), t, e);
    if e in t {
      var i :| 0 <= i < |t| && t[i] == e;
      ScanHits(peer, e.value);
      PlainIdsNeverCollide(peer, e.value.recipientId, e.value.messageId);
    }
  }

  lemma QueueMember(t: Store, peer: string, m: QueuedMessage)
    requires WellKeyed(t) && PlainIds(t)
    ensures m in PeerQueue(t, peer) <==> StillHeld(t, peer)(m)
  {
    hide Filter;
    var f := Filter(Scanned(peer), t);
    if m in PeerQueue(t, peer) {
      var i :| 0 <= i < |f| && f[i].value == m;
      assert f[i] in f;
      QueueEntry(t, peer, f[i]);
    }
    if StillHeld(t, peer)(m) {
      QueueEntry(t, peer, Entry(KeyOf(m), m));
      var i :| 0 <= i < |f| && f[i] == Entry(KeyOf(m), m);
      assert PeerQueue(t, peer)[i] == m;
    }
  }

  /** A drain lists a peer's messages by id. */
  lemma QueueIsById(t: Store, peer: string)
    requires WellKeyed(t) && PlainIds(t)
    ensures ById(PeerQueue(t, peer))
  {
    hide Filter;
    var f := Filter(Scanned(peer), t);
    FilterAscending(Scanned(peer), t);
    forall i, j | 0 <= i < j < |f|
      ensures Lex.Less(f[i].value.messageId, f[j].value.messageId)
    {
      assert f[i] in f && f[j] in f;
      QueueEntry(t, peer, f[i]);
      QueueEntry(t, peer, f[j]);
      assert Lex.Less(f[i].key, f[j].key);
      Lex.CommonPrefix(Prefix(peer), f[i].value.messageId, f[j].value.messageId);
    }
  }

  function Indexed(s: seq<QueuedMessage>): Store {
    Map((m: QueuedMessage) => Entry(m.messageId, m), s)
  }

  lemma IndexedMember(s: seq<QueuedMessage>, m: QueuedMessage)
    ensures m in s <==> Entry(m.messageId, m) in Indexed(s)
  {
    if m in s {
      var i :| 0 <= i < |s| && s[i] == m;
      assert Indexed(s)[i] == Entry(m.messageId, m);
    }
    if Entry(m.messageId, m) in Indexed(s) {
      var i :| 0 <= i < |s| && Indexed(s)[i] == Entry(m.messageId, m);
    }
  }

  /** Only one arrangement of given messages is by id. */
  lemma ByIdIsUnique(a: seq<QueuedMessage>, b: seq<QueuedMessage>)
    requires ById(a) && ById(b) && forall m :: m in a <==> m in b
    ensures a == b
  {
    var x, y := Indexed(a), Indexed(b);
    forall k
      ensures Get(x, k) == Get(y, k)
    {
      SameLookup(a, b, k);
      SameLookup(b, a, k);
    }
    Extensional(x, y);
    forall i | 0 <= i < |a|
      ensures |b| == |a| && a[i] == b[i]
    {
      assert x[i].value == y[i].value;
    }
  }

  lemma SameLookup(a: seq<QueuedMessage>, b: seq<QueuedMessage>, k: string)
    requires ById(a) && ById(b) && forall m :: m in a <==> m in b
    ensures Ascending(Indexed(a))
    ensures Get(Indexed(a), k).Some? ==> Get(Indexed(b), k) == Get(Indexed(a), k)
  {
    assert Ascending(Indexed(b));
    if Get(Indexed(a), k).Some? {
      var m := Get(Indexed(a), k).value;
      var i :| 0 <= i < |a| && Indexed(a)[i] == Entry(k, m);
      IndexedMember(a, m);
      IndexedMember(b, m);
      GetMember(Indexed(b), Entry(m.messageId, m));
    }
  }

  /**
   In every such run a drain returns a peer's messages in the order they were accepted exactly
   when they were accepted in ascending order of their ids.
   */
  lemma DrainKeepsOrderExactlyWhen(events: seq<SledEvent>, peer: string)
    requires FreshPlain(events)
    ensures var d := SledRun(events);
            PeerQueue(d.db, peer) == AcceptanceOrder(d, peer) <==> ById(AcceptanceOrder(d, peer))
    ensures var d := SledRun(events);
            forall m :: m in PeerQueue(d.db, peer) <==> m in AcceptanceOrder(d, peer)
  {
    hide SledRun, Filter, FreshPlain, StoreWithinLimits, WellKeyed, PlainIds, PeerQueue;
    NothingIsLostOnDisk(events);
    var d := SledRun(events);
    QueueIsById(d.db, peer);
    forall m
      ensures m in PeerQueue(d.db, peer) <==> m in AcceptanceOrder(d, peer)
    {
      QueueMember(d.db, peer, m);
      FilterMember(StillHeld(d.db, peer), d.accepted, m);
      assert Entry(KeyOf(m), m) in d.db ==> m in d.accepted;
    }
    if ById(AcceptanceOrder(d, peer)) {
      ByIdIsUnique(PeerQueue(d.db, peer), AcceptanceOrder(d, peer));
    }
  }

  /** So of two messages queued for one peer, the later comes out first if its id is smaller. */
  lemma SmallerIdOvertakes(x: QueuedMessage, y: QueuedMessage)
    requires Plain(x) && Plain(y) && x.recipientId == y.recipientId && Lex.Less(y.messageId, x.messageId)
    ensures PeerQueue(SledRun([Enqueued(x), Enqueued(y)]).db, x.recipientId) == [y, x]
  {
    hide SledStep, FreshPlain, Collides;
    var events, peer := [Enqueued(x), Enqueued(y)], x.recipientId;
    Lex.Irreflexive(x.messageId);
    assert events[..1] == [Enqueued(x)] && [Enqueued(x)][..0] == [];
    assert SledRun(events) == SledStep(SledStep(SledRun([]), Enqueued(x)), Enqueued(y));
    TwoEntries(x, y);
    ScanHits(peer, x);
    ScanHits(peer, y);
    FilterAll(Scanned(peer), [Entry(KeyOf(y), y), Entry(KeyOf(x), x)]);
  }

  lemma TwoEntries(x: QueuedMessage, y: QueuedMessage)
    requires x.recipientId == y.recipientId && Lex.Less(y.messageId, x.messageId)
    ensures SledStep(SledStep(SledRun([]), Enqueued(x)), Enqueued(y)).db == [Entry(KeyOf(y), y), Entry(KeyOf(x), x)]
  {
    var one := SledStep(SledRun([]), Enqueued(x));
    assert one.db == [Entry(KeyOf(x), x)];
    FilterLength(Scanned(y.recipientId), one.db);
    Lex.CommonPrefix(Prefix(x.recipientId), y.messageId, x.messageId);
  }

  // ------------------------------------------------------------ the object

  class OutboxDaemon {
    const outbox: SledOutbox
    var peers: set<string>
    ghost var accepted: seq<QueuedMessage>
    ghost var sent: multiset<QueuedMessage>

    ghost function State(): SledDaemon
      reads this, outbox
    {
      SledDaemon(outbox.db, peers, accepted, sent)
    }

    ghost predicate Valid()
      reads this, outbox
    {
      outbox.Valid() && PlainIds(outbox.db)
    }

    constructor ()
      ensures Valid() && State() == SledRun([]) && fresh(outbox)
    {
      outbox := new SledOutbox();
      peers := {};
      accepted := [];
      sent := multiset{};
    }

    method QueueMessage(msg: QueuedMessage) returns (ok: bool)
      requires Valid()
      modifies this, outbox
      ensures State() == SledStep(old(State()), Enqueued(msg)) && ok == StoreAccepts(old(outbox.db), msg)
      ensures Plain(msg) ==> Valid()
    {
      ok := outbox.Enqueue(msg);
      if ok {
        accepted := accepted + [msg];
      }
    }

    /** Only a peer not already connected is flushed. */
    method PeerDiscovered(peer: string, delivers: QueuedMessage -> bool)
      requires Valid()
      modifies this, outbox
      ensures Valid() && State() == SledStep(old(State()), Discovered(peer, delivers))
    {
      if peer in peers {
        return;
      }
      peers := peers + {peer};
      var delivered := outbox.Flush(peer, delivers);
      sent := sent + multiset(Values(delivered));
    }

    method PeerDisconnected(peer: string)
      requires Valid()
      modifies this
      ensures Valid() && State() == SledStep(old(State()), Disconnected(peer))
    {
      peers := peers - {peer};
    }
  }
}
