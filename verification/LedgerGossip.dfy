/**
 What a gossip merge computes, whatever the order of the received entries, and the
 agreement two ledgers reach by exchanging snapshots (cli/src/ledger.rs).
 */
module LedgerGossip {
  import opened Sequences
  import opened Multiaddr
  import opened Text
  import opened LedgerEntry
  import opened Ledger

  function Addresses(shared: seq<SharedPeerEntry>): set<string> {
    set i | 0 <= i < |shared| :: Strip(shared[i].multiaddr)
  }

  predicate About(s: SharedPeerEntry, k: string) {
    Strip(s.multiaddr) == k
  }

  /** `r` has, for address `k`, the latest sighting among the ledger's and all gossiped ones. */
  ghost predicate LatestSeen(m: Entries, shared: seq<SharedPeerEntry>, k: string, seen: nat) {
    && (k in m ==> m[k].lastSeen <= seen)
    && (forall s :: s in shared && About(s, k) ==> s.lastSeen <= seen)
    && ((k in m && m[k].lastSeen == seen) || exists s :: s in shared && About(s, k) && s.lastSeen == seen)
  }

  /** `topics` holds exactly the topics the ledger or some gossiped entry has for `k`. */
  ghost predicate AllTopics(m: Entries, shared: seq<SharedPeerEntry>, k: string, topics: seq<string>) {
    forall t :: t in topics <==>
      (k in m && t in m[k].knownTopics) || exists s :: s in shared && About(s, k) && t in s.knownTopics
  }

  /** A peer id already known is kept; otherwise one of those offered is taken. */
  ghost predicate SomeId(m: Entries, shared: seq<SharedPeerEntry>, k: string, id: Option<string>) {
    && (k in m && m[k].lastPeerId.Some? ==> id == m[k].lastPeerId)
    && (id.None? ==> forall s :: s in shared && About(s, k) ==> s.lastPeerId.None?)
    && (id.Some? ==>
          (k in m && m[k].lastPeerId == id) || exists s :: s in shared && About(s, k) && s.lastPeerId == id)
  }

  /** The order-free description of a merge. */
  ghost predicate Join(m: Entries, shared: seq<SharedPeerEntry>, r: Entries) {
    && r.Keys == m.Keys + Addresses(shared)
    && forall k :: k in r ==>
         && LatestSeen(m, shared, k, r[k].lastSeen)
         && AllTopics(m, shared, k, r[k].knownTopics)
         && SomeId(m, shared, k, r[k].lastPeerId)
  }

  lemma PushAllMember(s: seq<string>, xs: seq<string>, t: string)
    ensures t in PushAll(s, xs) <==> t in s || t in xs
  {
    if xs != [] {
      PushAllMember(s, xs[..|xs| - 1], t);
      assert xs == xs[..|xs| - 1] + [xs[|xs| - 1]];
    }
  }

  lemma AddressesNext(shared: seq<SharedPeerEntry>, s: SharedPeerEntry)
    ensures Addresses(shared + [s]) == Addresses(shared) + {Strip(s.multiaddr)}
  {
    forall a
      ensures a in Addresses(shared + [s]) <==> a in Addresses(shared) || a == Strip(s.multiaddr)
    {
      if a in Addresses(shared) {
        var i :| 0 <= i < |shared| && Strip(shared[i].multiaddr) == a;
        assert Strip((shared + [s])[i].multiaddr) == a;
      }
      if a == Strip(s.multiaddr) {
        assert Strip((shared + [s])[|shared|].multiaddr) == a;
      }
    }
  }

  lemma NotAbout(shared: seq<SharedPeerEntry>, k: string, x: SharedPeerEntry)
    requires k !in Addresses(shared) && x in shared
    ensures !About(x, k)
  {
    var i :| 0 <= i < |shared| && shared[i] == x;
    assert Strip(shared[i].multiaddr) in Addresses(shared);
  }

  lemma LatestSeenStep(m: Entries, shared: seq<SharedPeerEntry>, k: string, seen: nat, s: SharedPeerEntry)
    requires LatestSeen(m, shared, k, seen)
    ensures LatestSeen(m, shared + [s], k, if About(s, k) then Max(seen, s.lastSeen) else seen)
  {
    var all := shared + [s];
    assert s in all && forall x :: x in shared ==> x in all;
  }

  lemma LatestSeenFirst(m: Entries, shared: seq<SharedPeerEntry>, k: string, s: SharedPeerEntry)
    requires k !in m && k !in Addresses(shared) && About(s, k)
    ensures LatestSeen(m, shared + [s], k, s.lastSeen)
  {
    assert s in shared + [s];
    forall x | x in shared + [s] && About(x, k)
      ensures x == s
    {
      if x in shared {
        NotAbout(shared, k, x);
      }
    }
  }

  lemma AllTopicsStep(m: Entries, shared: seq<SharedPeerEntry>, k: string, topics: seq<string>, s: SharedPeerEntry)
    requires AllTopics(m, shared, k, topics)
    ensures AllTopics(m, shared + [s], k, if About(s, k) then PushAll(topics, s.knownTopics) else topics)
  {
    var all := shared + [s];
    assert s in all && forall x :: x in shared ==> x in all;
    forall t
      ensures t in PushAll(topics, s.knownTopics) <==> t in topics || t in s.knownTopics
    {
      PushAllMember(topics, s.knownTopics, t);
    }
  }

  lemma AllTopicsFirst(m: Entries, shared: seq<SharedPeerEntry>, k: string, s: SharedPeerEntry)
    requires k !in m && k !in Addresses(shared) && About(s, k)
    ensures AllTopics(m, shared + [s], k, s.knownTopics)
  {
    assert s in shared + [s];
    forall x | x in shared + [s] && About(x, k)
      ensures x == s
    {
      if x in shared {
        NotAbout(shared, k, x);
      }
    }
  }

  lemma SomeIdStep(m: Entries, shared: seq<SharedPeerEntry>, k: string, id: Option<string>, s: SharedPeerEntry)
    requires SomeId(m, shared, k, id)
    ensures SomeId(m, shared + [s], k, if About(s, k) && id.None? then s.lastPeerId else id)
  {
  }

  lemma SomeIdFirst(m: Entries, shared: seq<SharedPeerEntry>, k: string, s: SharedPeerEntry)
    requires k !in m && k !in Addresses(shared) && About(s, k)
    ensures SomeId(m, shared + [s], k, s.lastPeerId)
  {
    forall x | x in shared + [s] && About(x, k)
      ensures x == s
    {
      if x in shared {
        NotAbout(shared, k, x);
      }
    }
  }

  lemma JoinStep(m: Entries, shared: seq<SharedPeerEntry>, r: Entries, s: SharedPeerEntry, now: nat)
    requires Join(m, shared, r)
    ensures Join(m, shared + [s], MergeOne(r, s, now))
  {
    hide LatestSeen, AllTopics, SomeId, PushAll, Strip, Addresses;
    var r' := MergeOne(r, s, now);
    AddressesNext(shared, s);
    forall k | k in r'
      ensures LatestSeen(m, shared + [s], k, r'[k].lastSeen)
      ensures AllTopics(m, shared + [s], k, r'[k].knownTopics)
      ensures SomeId(m, shared + [s], k, r'[k].lastPeerId)
    {
      if k in r {
        LatestSeenStep(m, shared, k, r[k].lastSeen, s);
        AllTopicsStep(m, shared, k, r[k].knownTopics, s);
        SomeIdStep(m, shared, k, r[k].lastPeerId, s);
      } else {
        LatestSeenFirst(m, shared, k, s);
        AllTopicsFirst(m, shared, k, s);
        SomeIdFirst(m, shared, k, s);
      }
    }
  }

  lemma JoinNothing(m: Entries)
    ensures Join(m, [], m)
  {
  }

  /** The merge loop computes the join: union of addresses, latest sightings, union of topics. */
  lemma {:induction false} MergeIsJoin(m: Entries, shared: seq<SharedPeerEntry>, now: nat)
    ensures Join(m, shared, MergeAll(m, shared, now))
  {
    hide Join;
    if shared == [] {
      JoinNothing(m);
    } else {
      var front, s := shared[..|shared| - 1], shared[|shared| - 1];
      MergeIsJoin(m, front, now);
      JoinStep(m, front, MergeAll(m, front, now), s, now);
      assert front + [s] == shared;
    }
  }

  lemma AddressGossiped(shared: seq<SharedPeerEntry>, s: SharedPeerEntry)
    requires s in shared
    ensures Strip(s.multiaddr) in Addresses(shared)
  {
    var i :| 0 <= i < |shared| && shared[i] == s;
  }

  lemma AddressesSame(a: seq<SharedPeerEntry>, b: seq<SharedPeerEntry>)
    requires forall s :: s in a ==> s in b
    ensures Addresses(a) <= Addresses(b)
  {
    forall x | x in Addresses(a)
      ensures x in Addresses(b)
    {
      var i :| 0 <= i < |a| && Strip(a[i].multiaddr) == x;
      AddressGossiped(b, a[i]);
    }
  }

  lemma LatestUnique(m: Entries, a: seq<SharedPeerEntry>, b: seq<SharedPeerEntry>, k: string, x: nat, y: nat)
    requires LatestSeen(m, a, k, x) && LatestSeen(m, b, k, y)
    requires forall s :: s in a ==> s in b
    ensures x <= y
  {
  }

  lemma TopicsUnique(
    m: Entries, a: seq<SharedPeerEntry>, b: seq<SharedPeerEntry>, k: string, x: seq<string>, y: seq<string>, t: string)
    requires AllTopics(m, a, k, x) && AllTopics(m, b, k, y)
    requires forall s :: s in a ==> s in b
    ensures t in x ==> t in y
  {
  }

  /** Two joins of the same entries agree on addresses, sightings and topics. */
  lemma JoinUnique(m: Entries, a: seq<SharedPeerEntry>, b: seq<SharedPeerEntry>, ra: Entries, rb: Entries)
    requires Join(m, a, ra) && Join(m, b, rb)
    requires forall s :: s in a <==> s in b
    ensures ra.Keys == rb.Keys
    ensures forall k :: k in ra ==> ra[k].lastSeen == rb[k].lastSeen
    ensures forall k, t :: k in ra ==> (t in ra[k].knownTopics <==> t in rb[k].knownTopics)
  {
    hide LatestSeen, AllTopics, SomeId, Addresses;
    AddressesSame(a, b);
    AddressesSame(b, a);
    forall k | k in ra
      ensures ra[k].lastSeen == rb[k].lastSeen
    {
      LatestUnique(m, a, b, k, ra[k].lastSeen, rb[k].lastSeen);
      LatestUnique(m, b, a, k, rb[k].lastSeen, ra[k].lastSeen);
    }
    forall k, t | k in ra
      ensures t in ra[k].knownTopics <==> t in rb[k].knownTopics
    {
      TopicsUnique(m, a, b, k, ra[k].knownTopics, rb[k].knownTopics, t);
      TopicsUnique(m, b, a, k, rb[k].knownTopics, ra[k].knownTopics, t);
    }
  }

  /** The order and multiplicity of the received entries, and the clock, do not matter. */
  lemma MergeOrderIrrelevant(m: Entries, a: seq<SharedPeerEntry>, b: seq<SharedPeerEntry>, t1: nat, t2: nat)
    requires forall s :: s in a <==> s in b
    ensures MergeAll(m, a, t1).Keys == MergeAll(m, b, t2).Keys
    ensures forall k :: k in MergeAll(m, a, t1) ==> MergeAll(m, a, t1)[k].lastSeen == MergeAll(m, b, t2)[k].lastSeen
    ensures forall k, t :: k in MergeAll(m, a, t1) ==>
              (t in MergeAll(m, a, t1)[k].knownTopics <==> t in MergeAll(m, b, t2)[k].knownTopics)
  {
    hide Join;
    MergeIsJoin(m, a, t1);
    MergeIsJoin(m, b, t2);
    JoinUnique(m, a, b, MergeAll(m, a, t1), MergeAll(m, b, t2));
  }

  lemma PushAllKnown(s: seq<string>, xs: seq<string>)
    requires forall x :: x in xs ==> x in s
    ensures PushAll(s, xs) == s
  {
    if xs != [] {
      assert xs[|xs| - 1] in xs && forall x :: x in xs[..|xs| - 1] ==> x in xs;
      PushAllKnown(s, xs[..|xs| - 1]);
    }
  }

  lemma RefreshAbsorbed(m: Entries, shared: seq<SharedPeerEntry>, k: string, e: LedgerEntry, s: SharedPeerEntry)
    requires s in shared && About(s, k)
    requires LatestSeen(m, shared, k, e.lastSeen) && AllTopics(m, shared, k, e.knownTopics)
    requires SomeId(m, shared, k, e.lastPeerId)
    ensures Refresh(e, s) == e
  {
    PushAllKnown(e.knownTopics, s.knownTopics);
  }

  /** Gossip that a join already contains changes nothing. */
  lemma JoinAbsorbs(m: Entries, shared: seq<SharedPeerEntry>, r: Entries, s: SharedPeerEntry, now: nat)
    requires Join(m, shared, r) && s in shared
    ensures MergeOne(r, s, now) == r
  {
    hide LatestSeen, AllTopics, SomeId, Refresh;
    var k := Strip(s.multiaddr);
    AddressGossiped(shared, s);
    RefreshAbsorbed(m, shared, k, r[k], s);
  }

  lemma {:induction false} JoinAbsorbsAll(
    m: Entries, shared: seq<SharedPeerEntry>, r: Entries, again: seq<SharedPeerEntry>, now: nat)
    requires Join(m, shared, r) && forall s :: s in again ==> s in shared
    ensures MergeAll(r, again, now) == r
  {
    hide Join;
    if again != [] {
      var front, s := again[..|again| - 1], again[|again| - 1];
      assert s in again && forall x :: x in front ==> x in again;
      JoinAbsorbsAll(m, shared, r, front, now);
      JoinAbsorbs(m, shared, r, s, now);
    }
  }

  /** Merging the same batch again changes nothing at all. */
  lemma MergeIdempotent(m: Entries, shared: seq<SharedPeerEntry>, t1: nat, t2: nat)
    ensures MergeAll(MergeAll(m, shared, t1), shared, t2) == MergeAll(m, shared, t1)
  {
    hide Join;
    MergeIsJoin(m, shared, t1);
    JoinAbsorbsAll(m, shared, MergeAll(m, shared, t1), shared, t2);
  }

  /** Gossip leaves a known entry's private state alone: failures, backoff, next attempt, role, first sighting. */
  lemma {:induction false} GossipKeepsPrivateState(m: Entries, shared: seq<SharedPeerEntry>, now: nat, k: string)
    requires k in m
    ensures k in MergeAll(m, shared, now)
    ensures MergeAll(m, shared, now)[k] ==
            m[k].(lastSeen := MergeAll(m, shared, now)[k].lastSeen,
                  lastPeerId := MergeAll(m, shared, now)[k].lastPeerId,
                  knownTopics := MergeAll(m, shared, now)[k].knownTopics)
  {
    if shared != [] {
      GossipKeepsPrivateState(m, shared[..|shared| - 1], now, k);
    }
  }

  // -------------------------------------------------------------- exchange

  /** `shared` lists exactly the entries `m` shares at `now`, in some order. */
  ghost predicate Snapshot(m: Entries, now: nat, shared: seq<SharedPeerEntry>) {
    forall s :: s in shared <==> exists k :: k in m && Shareable(m[k], now) && s == ToShared(m[k])
  }

  lemma SnapshotOf(m: Entries, now: nat, shared: seq<SharedPeerEntry>, k: string, s: SharedPeerEntry)
    requires Good(m) && Snapshot(m, now, shared)
    ensures s in shared && About(s, k) <==> k in m && Shareable(m[k], now) && s == ToShared(m[k])
  {
    if s in shared && About(s, k) {
      var j :| j in m && Shareable(m[j], now) && s == ToShared(m[j]);
      assert GoodEntry(j, m[j]);
    }
    if k in m {
      assert GoodEntry(k, m[k]);
    }
  }

  ghost predicate FreshIn(m: Entries, k: string, now: nat) {
    k in m && m[k].lastSeen >= Max(now - SEVEN_DAYS, 0)
  }

  function SeenIn(m: Entries, k: string): int {
    if k in m then m[k].lastSeen else -1
  }

  /** One side of an exchange ends with the later of the two sightings. */
  lemma ReceiverSeesLatest(
    mine: Entries, theirs: Entries, now: nat, shared: seq<SharedPeerEntry>, t: nat, k: string)
    requires Good(mine) && Good(theirs) && Snapshot(theirs, now, shared)
    requires FreshIn(mine, k, now) || FreshIn(theirs, k, now)
    ensures k in MergeAll(mine, shared, t)
    ensures MergeAll(mine, shared, t)[k].lastSeen == Max(SeenIn(mine, k), SeenIn(theirs, k))
  {
    var r := MergeAll(mine, shared, t);
    MergeIsJoin(mine, shared, t);
    if k in theirs && Shareable(theirs[k], now) {
      var s := ToShared(theirs[k]);
      SnapshotOf(theirs, now, shared, k, s);
      AddressGossiped(shared, s);
    }
    assert k in r && LatestSeen(mine, shared, k, r[k].lastSeen);
    forall s | s in shared && About(s, k)
      ensures k in theirs && s.lastSeen == theirs[k].lastSeen
    {
      SnapshotOf(theirs, now, shared, k, s);
    }
  }

  /** `m` passes `k` on at `now`: marked as bootstrap, or seen within the last 604800 seconds. */
  ghost predicate PassesOn(m: Entries, k: string, now: nat) {
    k in m && (m[k].isBootstrap || m[k].lastSeen + 604800 >= now)
  }

  /** What `m` knows of `k`'s topics. */
  ghost predicate KnowsTopic(m: Entries, k: string, topic: string) {
    k in m && topic in m[k].knownTopics
  }

  lemma SnapshotPasses(m: Entries, now: nat, shared: seq<SharedPeerEntry>, k: string)
    requires Good(m) && Snapshot(m, now, shared)
    ensures k in Addresses(shared) <==> PassesOn(m, k, now)
    ensures forall s :: s in shared && About(s, k) ==> PassesOn(m, k, now) && s == ToShared(m[k])
    ensures PassesOn(m, k, now) ==> ToShared(m[k]) in shared && About(ToShared(m[k]), k)
  {
    hide Snapshot, Good, ToShared, About, Strip;
    forall s
      ensures s in shared && About(s, k) <==> PassesOn(m, k, now) && s == ToShared(m[k])
    {
      SnapshotOf(m, now, shared, k, s);
    }
    if PassesOn(m, k, now) {
      AddressGossiped(shared, ToShared(m[k]));
      assert About(ToShared(m[k]), k);
      assert k == Strip(ToShared(m[k]).multiaddr) by { AboutIsAddress(ToShared(m[k]), k); }
    }
    if k in Addresses(shared) {
      var i :| 0 <= i < |shared| && Strip(shared[i].multiaddr) == k;
      AboutIsAddress(shared[i], k);
      assert shared[i] in shared;
    }
  }

  lemma AboutIsAddress(s: SharedPeerEntry, k: string)
    ensures About(s, k) <==> k == Strip(s.multiaddr)
  {
  }

  /**
   Merging a snapshot teaches exactly what the sender passes on: addresses, topics, and a peer id
   where none was known.
   */
  lemma ReceiverLearns(
    mine: Entries, theirs: Entries, now: nat, shared: seq<SharedPeerEntry>, t: nat, k: string)
    requires Good(theirs) && Snapshot(theirs, now, shared)
    ensures k in MergeAll(mine, shared, t) <==> k in mine || PassesOn(theirs, k, now)
    ensures forall topic :: KnowsTopic(MergeAll(mine, shared, t), k, topic) <==>
              KnowsTopic(mine, k, topic) || (PassesOn(theirs, k, now) && KnowsTopic(theirs, k, topic))
    ensures k in MergeAll(mine, shared, t) ==>
              MergeAll(mine, shared, t)[k].lastPeerId ==
              if k in mine && mine[k].lastPeerId.Some? then mine[k].lastPeerId
              else if PassesOn(theirs, k, now) then theirs[k].lastPeerId else None
  {
    hide MergeAll, Good, Snapshot, Addresses, PassesOn, LatestSeen;
    var r := MergeAll(mine, shared, t);
    MergeIsJoin(mine, shared, t);
    SnapshotPasses(theirs, now, shared, k);
    if k in r {
      assert AllTopics(mine, shared, k, r[k].knownTopics) && SomeId(mine, shared, k, r[k].lastPeerId);
      PassedIn(theirs, k, now);
    }
  }

  lemma PassedIn(m: Entries, k: string, now: nat)
    ensures PassesOn(m, k, now) ==> k in m
  {
  }

  /**
   Two ledgers with any histories that exchange snapshots taken at one moment agree afterwards on
   every address either had seen within seven days: both hold it with the later sighting, and with
   every topic either had for it if both pass it on.
   */
  lemma ExchangeConverges(
    historyA: seq<(Event, nat)>, historyB: seq<(Event, nat)>, now: nat,
    sharedA: seq<SharedPeerEntry>, sharedB: seq<SharedPeerEntry>, tA: nat, tB: nat, k: string)
    requires Snapshot(History(historyA), now, sharedA) && Snapshot(History(historyB), now, sharedB)
    requires FreshIn(History(historyA), k, now) || FreshIn(History(historyB), k, now)
    ensures var a := MergeAll(History(historyA), sharedB, tA);
            var b := MergeAll(History(historyB), sharedA, tB);
            k in a && k in b && a[k].lastSeen == b[k].lastSeen ==
              Max(SeenIn(History(historyA), k), SeenIn(History(historyB), k))
    ensures PassesOn(History(historyA), k, now) && PassesOn(History(historyB), k, now) ==>
              forall topic ::
                && (KnowsTopic(MergeAll(History(historyA), sharedB, tA), k, topic) <==>
                    KnowsTopic(History(historyA), k, topic) || KnowsTopic(History(historyB), k, topic))
                && (KnowsTopic(MergeAll(History(historyB), sharedA, tB), k, topic) <==>
                    KnowsTopic(History(historyA), k, topic) || KnowsTopic(History(historyB), k, topic))
  {
    hide PassesOn, KnowsTopic, MergeAll, Good, Snapshot, History, FreshIn;
    EveryHistoryIsGood(historyA);
    EveryHistoryIsGood(historyB);
    ReceiverSeesLatest(History(historyA), History(historyB), now, sharedB, tA, k);
    ReceiverSeesLatest(History(historyB), History(historyA), now, sharedA, tB, k);
    ReceiverLearns(History(historyA), History(historyB), now, sharedB, tA, k);
    ReceiverLearns(History(historyB), History(historyA), now, sharedA, tB, k);
  }

  /** Nothing `m` holds back about `k` is news to `other`. */
  ghost predicate HoldsNoNewsBack(m: Entries, other: Entries, k: string, now: nat) {
    PassesOn(m, k, now) || forall topic :: KnowsTopic(m, k, topic) ==> KnowsTopic(other, k, topic)
  }

  /**
   After the exchange both sides know the same topics of an address exactly when neither side held
   back a topic the other did not have: a stale entry is not shared, and its topics stay behind.
   */
  lemma TopicsAgreeExactlyWhen(
    a: Entries, b: Entries, now: nat, sharedA: seq<SharedPeerEntry>, sharedB: seq<SharedPeerEntry>,
    tA: nat, tB: nat, k: string)
    requires Good(a) && Good(b) && Snapshot(a, now, sharedA) && Snapshot(b, now, sharedB)
    ensures (forall topic :: KnowsTopic(MergeAll(a, sharedB, tA), k, topic) <==>
                             KnowsTopic(MergeAll(b, sharedA, tB), k, topic)) <==>
            HoldsNoNewsBack(a, b, k, now) && HoldsNoNewsBack(b, a, k, now)
  {
    hide PassesOn, KnowsTopic, MergeAll, Good, Snapshot;
    ReceiverLearns(a, b, now, sharedB, tA, k);
    ReceiverLearns(b, a, now, sharedA, tB, k);
  }

  lemma HistoryEnds(history: seq<(Event, nat)>, e: Event, now: nat)
    ensures History(history + [(e, now)]) == Apply(History(history), e, now)
  {
    var events := history + [(e, now)];
    assert events[..|events| - 1] == history;
  }

  /**
   A topic seen at an address is passed on with it: a ledger merging a later snapshot knows the topic
   exactly when it did before or the sender knew the address and passes it on.
   */
  lemma TopicPropagates(
    history: seq<(Event, nat)>, addr: string, topic: string, now: nat,
    later: nat, shared: seq<SharedPeerEntry>, mine: Entries, t: nat)
    requires Snapshot(History(history + [(TopicSeen(addr, topic), now)]), later, shared)
    ensures KnowsTopic(MergeAll(mine, shared, t), Strip(addr), topic) <==>
            KnowsTopic(mine, Strip(addr), topic) || PassesOn(History(history), Strip(addr), later)
  {
    hide MergeAll, Good, Snapshot, Strip, History;
    var events := history + [(TopicSeen(addr, topic), now)];
    HistoryEnds(history, TopicSeen(addr, topic), now);
    EveryHistoryIsGood(events);
    ReceiverLearns(mine, History(events), later, shared, t, Strip(addr));
  }

  lemma BootstrapSticks(m: Entries, e: Event, now: nat, k: string)
    requires k in m && m[k].isBootstrap
    ensures k in Apply(m, e, now) && Apply(m, e, now)[k].isBootstrap
  {
    hide MergeAll, Strip;
    if e.Gossip? {
      GossipKeepsPrivateState(m, e.shared, now, k);
    }
  }

  lemma {:induction false} BootstrapLasts(before: seq<(Event, nat)>, log: seq<(Event, nat)>, k: string)
    requires k in History(before) && History(before)[k].isBootstrap
    ensures k in History(before + log) && History(before + log)[k].isBootstrap
  {
    hide Apply;
    if log == [] {
      assert before + log == before;
    } else {
      var front, last := log[..|log| - 1], log[|log| - 1];
      BootstrapLasts(before, front, k);
      BootstrapSticks(History(before + front), last.0, last.1, k);
      assert before + log == before + front + [last];
      HistoryEnds(before + front, last.0, last.1);
    }
  }

  /** For instance: a topic seen at an address more than seven days ago stays with the ledger that saw it. */
  lemma StaleTopicStaysBehind(
    addr: string, id: string, topic: string, now: nat,
    sharedA: seq<SharedPeerEntry>, sharedB: seq<SharedPeerEntry>, tA: nat, tB: nat)
    requires now > 604800
    requires Snapshot(History([(Connected(addr, id), now)]), now, sharedA)
    requires Snapshot(History([(Connected(addr, id), 0), (TopicSeen(addr, topic), 0)]), now, sharedB)
    ensures !KnowsTopic(MergeAll(History([(Connected(addr, id), now)]), sharedB, tA), Strip(addr), topic)
    ensures var b := History([(Connected(addr, id), 0), (TopicSeen(addr, topic), 0)]);
            KnowsTopic(MergeAll(b, sharedA, tB), Strip(addr), topic)
  {
    hide MergeAll, Good, Snapshot, Strip, History;
    var earlier: seq<(Event, nat)> := [(Connected(addr, id), 0)];
    assert [] + [(Connected(addr, id), now)] == [(Connected(addr, id), now)];
    assert [] + [(Connected(addr, id), 0)] == earlier;
    assert earlier + [(TopicSeen(addr, topic), 0)] == [(Connected(addr, id), 0), (TopicSeen(addr, topic), 0)];
    NoHistory();
    HistoryEnds([], Connected(addr, id), now);
    HistoryEnds([], Connected(addr, id), 0);
    HistoryEnds(earlier, TopicSeen(addr, topic), 0);
    EveryHistoryIsGood([(Connected(addr, id), now)]);
    EveryHistoryIsGood(earlier + [(TopicSeen(addr, topic), 0)]);
    var a, b := History([(Connected(addr, id), now)]), History(earlier + [(TopicSeen(addr, topic), 0)]);
    ReceiverLearns(a, b, now, sharedB, tA, Strip(addr));
    ReceiverLearns(b, a, now, sharedA, tB, Strip(addr));
  }

  lemma NoHistory()
    ensures History([]) == map[]
  {
  }

  /** An address once marked as bootstrap is passed on for ever, however long ago it was seen. */
  lemma BootstrapPropagates(
    history: seq<(Event, nat)>, addr: string, localId: Option<string>, now: nat, log: seq<(Event, nat)>,
    later: nat, shared: seq<SharedPeerEntry>, mine: Entries, t: nat)
    requires localId.Some? ==> !Contains(addr, localId.value)
    requires Snapshot(History(history + [(Bootstrapped(addr, localId), now)] + log), later, shared)
    ensures Strip(addr) in MergeAll(mine, shared, t)
  {
    hide MergeAll, Good, Snapshot, Strip, History, Contains;
    var events := history + [(Bootstrapped(addr, localId), now)];
    HistoryEnds(history, Bootstrapped(addr, localId), now);
    BootstrapLasts(events, log, Strip(addr));
    EveryHistoryIsGood(events + log);
    ReceiverLearns(mine, History(events + log), later, shared, t, Strip(addr));
  }

  /**
   A connection is passed on: any ledger merging a snapshot taken within seven days knows the
   address, sees it no earlier than the connection, and has its peer id unless it had another.
   */
  lemma ConnectionPropagates(
    history: seq<(Event, nat)>, addr: string, peerId: string, now: nat,
    later: nat, shared: seq<SharedPeerEntry>, receiver: seq<(Event, nat)>, t: nat)
    requires now <= later <= now + SEVEN_DAYS
    requires Snapshot(History(history + [(Connected(addr, peerId), now)]), later, shared)
    ensures var mine := History(receiver);
            var r := MergeAll(mine, shared, t);
            && Strip(addr) in r && r[Strip(addr)].lastSeen >= now
            && r[Strip(addr)].lastPeerId ==
               if Strip(addr) in mine && mine[Strip(addr)].lastPeerId.Some?
               then mine[Strip(addr)].lastPeerId else Some(peerId)
  {
    hide Strip, MergeAll, Good, LatestSeen, AllTopics;
    var events := history + [(Connected(addr, peerId), now)];
    assert events[..|events| - 1] == history;
    var theirs, k := History(events), Strip(addr);
    assert theirs[k].lastSeen == now && theirs[k].lastPeerId == Some(peerId);
    EveryHistoryIsGood(events);
    EveryHistoryIsGood(receiver);
    ReceiverSeesLatest(History(receiver), theirs, later, shared, t, k);
    MergeIsJoin(History(receiver), shared, t);
    forall s
      ensures s in shared && About(s, k) <==> s == ToShared(theirs[k])
    {
      SnapshotOf(theirs, later, shared, k, s);
    }
    assert ToShared(theirs[k]) in shared;
    assert SomeId(History(receiver), shared, k, MergeAll(History(receiver), shared, t)[k].lastPeerId);
  }

  // ------------------------------------------------------------ the ledger

  /** The in-place update of a known entry. */
  method RefreshEntry(e: LedgerEntry, s: SharedPeerEntry) returns (existing: LedgerEntry)
    ensures existing == Refresh(e, s)
  {
    existing := e;
    if s.lastSeen > existing.lastSeen {
      existing := existing.(lastSeen := s.lastSeen);
    }
    if existing.lastPeerId.None? {
      existing := existing.(lastPeerId := s.lastPeerId);
    }
    ghost var base := existing;
    for j := 0 to |s.knownTopics|
      invariant existing == base.(knownTopics := PushAll(e.knownTopics, s.knownTopics[..j]))
    {
      assert s.knownTopics[..j + 1][..j] == s.knownTopics[..j];
      existing := existing.(knownTopics := PushNew(existing.knownTopics, s.knownTopics[j]));
    }
    assert s.knownTopics[..|s.knownTopics|] == s.knownTopics;
  }

  class ConnectionLedger {
    var entries: Entries

    constructor ()
      ensures entries == map[]
    {
      entries := map[];
    }

    /** Applies one local event. */
    method Record(e: Event, now: nat)
      requires !e.Gossip?
      modifies this
      ensures entries == Apply(old(entries), e, now)
    {
      match e
      case Bootstrapped(addr, localId) =>
        if localId.Some? && Contains(addr, localId.value) {
          return;
        }
        var k := Strip(addr);
        var number := |entries| + 1;
        if k in entries {
          entries := entries[k := entries[k].(isBootstrap := true)];
        } else {
          entries := entries[k := NewEntry(k, true, now).(displayLabel := Some(BootstrapLabel(number)))];
        }
      case Connected(addr, peerId) =>
        var k := Strip(addr);
        var entry := if k in entries then entries[k] else NewEntry(k, false, now);
        entries := entries[k := RecordSuccess(entry, peerId, now)];
      case TopicSeen(addr, topic) =>
        var k := Strip(addr);
        if k in entries {
          entries := entries[k := entries[k].(knownTopics := PushNew(entries[k].knownTopics, topic))];
        }
      case Failed(addr) =>
        var k := Strip(addr);
        if k in entries {
          entries := entries[k := RecordFailure(entries[k], now)];
        }
    }

    /** Returns how many addresses were new. */
    method MergeSharedEntries(shared: seq<SharedPeerEntry>, now: nat) returns (newCount: nat)
      modifies this
      ensures entries == MergeAll(old(entries), shared, now)
      ensures newCount == |entries| - |old(entries)|
    {
      newCount := 0;
      ghost var before := entries;
      for i := 0 to |shared|
        invariant entries == MergeAll(before, shared[..i], now)
        invariant newCount == |entries| - |before|
      {
        var s := shared[i];
        assert shared[..i + 1][..i] == shared[..i];
        var k := Strip(s.multiaddr);
        if k in entries {
          var existing := RefreshEntry(entries[k], s);
          entries := entries[k := existing];
        } else {
          entries := entries[k := Learn(k, s, now)];
          newCount := newCount + 1;
        }
      }
      assert shared[..|shared|] == shared;
    }

    /** The entries worth advertising, in hash-map order. */
    method ToSharedEntries(now: nat) returns (shared: seq<SharedPeerEntry>)
      ensures Snapshot(entries, now, shared)
    {
      shared := [];
      var pending := entries.Keys;
      while pending != {}
        invariant pending <= entries.Keys
        invariant forall s :: s in shared <==>
                    exists k :: k in entries.Keys - pending && Shareable(entries[k], now) && s == ToShared(entries[k])
        decreases pending
      {
        var k :| k in pending;
        pending := pending - {k};
        if Shareable(entries[k], now) {
          shared := shared + [ToShared(entries[k])];
        }
      }
    }
  }
}
