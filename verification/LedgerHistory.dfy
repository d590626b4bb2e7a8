/**
 What a connection ledger knows after any history of events (cli/src/ledger.rs), each field
 told from the events alone.
 */
module LedgerHistory {
  import opened Sequences
  import opened Multiaddr
  import opened Text
  import opened LedgerEntry
  import opened Ledger
  import opened LedgerGossip

  type Log = seq<(Event, nat)>

  /** `e` marks `k` as bootstrap: an address naming the own peer id does not count. */
  ghost predicate MarksBootstrap(e: Event, k: string) {
    e.Bootstrapped? && Strip(e.addr) == k && (e.localPeerId.Some? ==> !Contains(e.addr, e.localPeerId.value))
  }

  /** `e` tells the ledger of address `k`. */
  ghost predicate Introduces(e: Event, k: string) {
    || MarksBootstrap(e, k)
    || (e.Connected? && Strip(e.addr) == k)
    || (e.Gossip? && exists s :: s in e.shared && About(s, k))
  }

  /** `id` comes with the first entry about `k`. */
  ghost predicate FirstOffer(shared: seq<SharedPeerEntry>, k: string, id: string) {
    exists j ::
      && 0 <= j < |shared| && About(shared[j], k) && shared[j].lastPeerId == Some(id)
      && forall l :: 0 <= l < j ==> !About(shared[l], k)
  }

  /** `e`, told to a ledger that knew `k` already or not, shows `id` at `k`. */
  ghost predicate ShowsId(e: Event, k: string, known: bool, id: string) {
    || (e.Connected? && Strip(e.addr) == k && e.peerId == id)
    || (e.Gossip? && !known && FirstOffer(e.shared, k, id))
  }

  /** `e`, told to a ledger that knew `k` already or not, shows `topic` at `k`. */
  ghost predicate ShowsTopic(e: Event, k: string, known: bool, topic: string) {
    || (e.TopicSeen? && known && Strip(e.addr) == k && e.topic == topic)
    || (e.Gossip? && exists s :: s in e.shared && About(s, k) && topic in s.knownTopics)
  }

  ghost predicate Observed(m: Entries, k: string, id: string) {
    k in m && id in m[k].observedPeerIds
  }

  // ----------------------------------------------------------- one event

  lemma MergeKnows(m: Entries, shared: seq<SharedPeerEntry>, now: nat, k: string)
    ensures k in MergeAll(m, shared, now) <==> k in m || exists s :: s in shared && About(s, k)
  {
    hide MergeAll, Strip, LatestSeen, AllTopics, SomeId;
    MergeIsJoin(m, shared, now);
    if k in Addresses(shared) {
      var i :| 0 <= i < |shared| && Strip(shared[i].multiaddr) == k;
      assert shared[i] in shared && About(shared[i], k);
    }
    if s :| s in shared && About(s, k) {
      AddressGossiped(shared, s);
    }
  }

  lemma ApplyKnows(m: Entries, e: Event, now: nat, k: string)
    ensures k in Apply(m, e, now) <==> k in m || Introduces(e, k)
  {
    hide MergeAll, Strip, Contains;
    if e.Gossip? {
      MergeKnows(m, e.shared, now, k);
    }
  }

  lemma {:induction false} LearnedFresh(m: Entries, shared: seq<SharedPeerEntry>, now: nat, k: string)
    requires k !in m && k in MergeAll(m, shared, now)
    ensures var e := MergeAll(m, shared, now)[k];
            !e.isBootstrap && e.firstSeen == now && e.consecutiveFailures == 0 && e.nextAttemptAfter == 0
  {
    hide Strip, PushAll;
    if shared != [] && k in MergeAll(m, shared[..|shared| - 1], now) {
      LearnedFresh(m, shared[..|shared| - 1], now, k);
    }
  }

  lemma ApplyFirstSeen(m: Entries, e: Event, now: nat, k: string)
    requires k in Apply(m, e, now)
    ensures Apply(m, e, now)[k].firstSeen == if k in m then m[k].firstSeen else now
    ensures Apply(m, e, now)[k].isBootstrap <==> (k in m && m[k].isBootstrap) || MarksBootstrap(e, k)
    ensures k !in m ==> ShouldAttempt(Apply(m, e, now)[k], now) && Apply(m, e, now)[k].consecutiveFailures == 0
  {
    hide MergeAll, Strip, Contains;
    if e.Gossip? {
      if k in m {
        GossipKeepsPrivateState(m, e.shared, now, k);
      } else {
        LearnedFresh(m, e.shared, now, k);
      }
    }
  }

  lemma FirstOfferNext(shared: seq<SharedPeerEntry>, s: SharedPeerEntry, k: string, id: string)
    ensures FirstOffer(shared + [s], k, id) <==>
            || FirstOffer(shared, k, id)
            || (About(s, k) && s.lastPeerId == Some(id) && forall x :: x in shared ==> !About(x, k))
  {
    var all := shared + [s];
    if j :| && 0 <= j < |all| && About(all[j], k) && all[j].lastPeerId == Some(id)
            && forall l :: 0 <= l < j ==> !About(all[l], k) {
      if j < |shared| {
        assert all[j] == shared[j] && forall l :: 0 <= l < j ==> all[l] == shared[l];
      } else {
        assert forall l :: 0 <= l < j ==> all[l] == shared[l];
      }
    }
    if j :| && 0 <= j < |shared| && About(shared[j], k) && shared[j].lastPeerId == Some(id)
            && forall l :: 0 <= l < j ==> !About(shared[l], k) {
      assert all[j] == shared[j] && forall l :: 0 <= l < j ==> all[l] == shared[l];
    }
    if About(s, k) && s.lastPeerId == Some(id) && forall x :: x in shared ==> !About(x, k) {
      assert all[|shared|] == s && forall l :: 0 <= l < |shared| ==> all[l] == shared[l];
    }
  }

  lemma {:induction false} MergeObserves(m: Entries, shared: seq<SharedPeerEntry>, now: nat, k: string, id: string)
    ensures Observed(MergeAll(m, shared, now), k, id) <==>
            Observed(m, k, id) || (k !in m && FirstOffer(shared, k, id))
  {
    if shared != [] {
      hide Strip, PushAll, FirstOffer;
      var front, s := shared[..|shared| - 1], shared[|shared| - 1];
      assert front + [s] == shared;
      MergeObserves(m, front, now, k, id);
      FirstOfferNext(front, s, k, id);
      MergeKnows(m, front, now, k);
      if About(s, k) && k !in MergeAll(m, front, now) {
        assert Observed(MergeAll(m, shared, now), k, id) <==> s.lastPeerId == Some(id);
        NoFirstOffer(front, k, id);
      }
      if FirstOffer(front, k, id) {
        OfferIsAbout(front, k, id);
      }
    }
  }

  lemma NoFirstOffer(shared: seq<SharedPeerEntry>, k: string, id: string)
    requires forall s :: s in shared ==> !About(s, k)
    ensures !FirstOffer(shared, k, id)
  {
  }

  lemma OfferIsAbout(shared: seq<SharedPeerEntry>, k: string, id: string)
    requires FirstOffer(shared, k, id)
    ensures exists s :: s in shared && About(s, k)
  {
    var j :| 0 <= j < |shared| && About(shared[j], k) && shared[j].lastPeerId == Some(id);
    assert shared[j] in shared;
  }

  lemma ApplyObserves(m: Entries, e: Event, now: nat, k: string, id: string)
    ensures Observed(Apply(m, e, now), k, id) <==> Observed(m, k, id) || ShowsId(e, k, k in m, id)
  {
    hide MergeAll, Strip, Contains, FirstOffer;
    if e.Gossip? {
      MergeObserves(m, e.shared, now, k, id);
    }
  }

  lemma ApplyTopic(m: Entries, e: Event, now: nat, k: string, topic: string)
    ensures KnowsTopic(Apply(m, e, now), k, topic) <==> KnowsTopic(m, k, topic) || ShowsTopic(e, k, k in m, topic)
  {
    hide MergeAll, Strip, Contains, LatestSeen, SomeId;
    if e.Gossip? {
      MergeIsJoin(m, e.shared, now);
      MergeKnows(m, e.shared, now, k);
      var r := MergeAll(m, e.shared, now);
      if k in r {
        assert AllTopics(m, e.shared, k, r[k].knownTopics);
      }
    }
  }

  // ---------------------------------------------------------- any history

  /** An address is known exactly when some event introduced it. */
  lemma {:induction false} KnownExactlyWhen(log: Log, k: string)
    ensures k in History(log) <==> exists i :: 0 <= i < |log| && Introduces(log[i].0, k)
  {
    hide Apply, Introduces;
    if log != [] {
      var front, last := log[..|log| - 1], log[|log| - 1];
      KnownExactlyWhen(front, k);
      ApplyKnows(History(front), last.0, last.1, k);
      assert forall i :: 0 <= i < |front| ==> front[i] == log[i];
    }
  }

  /** It was first seen when it was first introduced. */
  lemma {:induction false} FirstSeenIsIntroduction(log: Log, k: string) returns (i: nat)
    requires k in History(log)
    ensures i < |log| && Introduces(log[i].0, k) && History(log)[k].firstSeen == log[i].1
    ensures forall j :: 0 <= j < i ==> !Introduces(log[j].0, k)
  {
    hide Apply, Introduces;
    var front, last := log[..|log| - 1], log[|log| - 1];
    ApplyKnows(History(front), last.0, last.1, k);
    ApplyFirstSeen(History(front), last.0, last.1, k);
    assert forall j :: 0 <= j < |front| ==> front[j] == log[j];
    if k in History(front) {
      i := FirstSeenIsIntroduction(front, k);
    } else {
      i := |front|;
      KnownExactlyWhen(front, k);
    }
  }

  /** It is a bootstrap address exactly when some event marked it, and stays one. */
  lemma {:induction false} BootstrapExactlyWhen(log: Log, k: string)
    ensures k in History(log) && History(log)[k].isBootstrap <==>
            exists i :: 0 <= i < |log| && MarksBootstrap(log[i].0, k)
  {
    hide Apply, MarksBootstrap;
    if log != [] {
      var front, last := log[..|log| - 1], log[|log| - 1];
      BootstrapExactlyWhen(front, k);
      ApplyKnows(History(front), last.0, last.1, k);
      if k in History(log) {
        ApplyFirstSeen(History(front), last.0, last.1, k);
      }
      assert forall i :: 0 <= i < |front| ==> front[i] == log[i];
    }
  }

  /** Some event of `log` showed `id` at `k`. */
  ghost predicate IdShown(log: Log, k: string, id: string) {
    exists i :: 0 <= i < |log| && ShowsId(log[i].0, k, k in History(log[..i]), id)
  }

  lemma IdShownNext(log: Log, k: string, id: string)
    requires log != []
    ensures var front, last := log[..|log| - 1], log[|log| - 1];
            IdShown(log, k, id) <==> IdShown(front, k, id) || ShowsId(last.0, k, k in History(front), id)
  {
    hide ShowsId, History;
    var front := log[..|log| - 1];
    assert forall i :: 0 <= i < |front| ==> front[i] == log[i] && front[..i] == log[..i];
    assert log[..|front|] == front;
  }

  /** The peer ids observed at an address are those connected to, and the one it was first gossiped with. */
  lemma {:induction false} ObservedExactlyWhen(log: Log, k: string, id: string)
    ensures Observed(History(log), k, id) <==> IdShown(log, k, id)
  {
    if log != [] {
      hide Apply, ShowsId, IdShown, Observed;
      var front, last := log[..|log| - 1], log[|log| - 1];
      ObservedExactlyWhen(front, k, id);
      ApplyObserves(History(front), last.0, last.1, k, id);
      IdShownNext(log, k, id);
    }
  }

  /** Some event of `log` showed `topic` at `k`. */
  ghost predicate TopicShown(log: Log, k: string, topic: string) {
    exists i :: 0 <= i < |log| && ShowsTopic(log[i].0, k, k in History(log[..i]), topic)
  }

  lemma TopicShownNext(log: Log, k: string, topic: string)
    requires log != []
    ensures var front, last := log[..|log| - 1], log[|log| - 1];
            TopicShown(log, k, topic) <==>
            TopicShown(front, k, topic) || ShowsTopic(last.0, k, k in History(front), topic)
  {
    hide ShowsTopic, History;
    var front := log[..|log| - 1];
    assert forall i :: 0 <= i < |front| ==> front[i] == log[i] && front[..i] == log[..i];
    assert log[..|front|] == front;
  }

  /** The topics of an address are those seen there while it was known, and those it was gossiped with. */
  lemma {:induction false} TopicExactlyWhen(log: Log, k: string, topic: string)
    ensures KnowsTopic(History(log), k, topic) <==> TopicShown(log, k, topic)
  {
    if log != [] {
      hide Apply, ShowsTopic, TopicShown, KnowsTopic;
      var front, last := log[..|log| - 1], log[|log| - 1];
      TopicExactlyWhen(front, k, topic);
      ApplyTopic(History(front), last.0, last.1, k, topic);
      TopicShownNext(log, k, topic);
    }
  }

  // -------------------------------------------------------- last sighting

  /** `e` at `now`, told to a ledger that knew `k` already or not, is or reports a sighting of `k` at `seen`. */
  ghost predicate Sights(e: Event, now: nat, k: string, known: bool, seen: nat) {
    || (e.Connected? && Strip(e.addr) == k && seen == now)
    || (MarksBootstrap(e, k) && !known && seen == now)
    || (e.Gossip? && exists s :: s in e.shared && About(s, k) && s.lastSeen == seen)
  }

  ghost predicate Sighted(log: Log, k: string, seen: nat) {
    exists i :: 0 <= i < |log| && Sights(log[i].0, log[i].1, k, k in History(log[..i]), seen)
  }

  lemma ApplySeen(m: Entries, e: Event, now: nat, k: string)
    requires k in Apply(m, e, now)
    ensures var seen := Apply(m, e, now)[k].lastSeen;
            && ((k in m && seen == m[k].lastSeen) || Sights(e, now, k, k in m, seen))
            && ((e.Connected? && Strip(e.addr) == k) || (k in m ==> seen >= m[k].lastSeen))
            && (forall t: nat :: Sights(e, now, k, k in m, t) ==> t <= seen)
  {
    hide MergeAll, Strip, Contains, AllTopics, SomeId;
    if e.Gossip? {
      MergeIsJoin(m, e.shared, now);
      var r := MergeAll(m, e.shared, now);
      assert LatestSeen(m, e.shared, k, r[k].lastSeen);
    }
  }

  lemma SightedNext(log: Log, k: string, seen: nat)
    requires log != []
    ensures var front, last := log[..|log| - 1], log[|log| - 1];
            Sighted(log, k, seen) <==> Sighted(front, k, seen) || Sights(last.0, last.1, k, k in History(front), seen)
  {
    hide Sights, History;
    var front, last := log[..|log| - 1], log[|log| - 1];
    assert forall i :: 0 <= i < |front| ==> front[i] == log[i] && front[..i] == log[..i];
    if Sights(last.0, last.1, k, k in History(front), seen) {
      assert log[|front|] == last && log[..|front|] == front;
    }
    if i :| 0 <= i < |log| && Sights(log[i].0, log[i].1, k, k in History(log[..i]), seen) && i < |front| {
      assert front[i] == log[i] && front[..i] == log[..i];
    }
  }

  /** The last sighting of an address is one that happened or was reported. */
  lemma {:induction false} LastSeenHasCause(log: Log, k: string)
    requires k in History(log)
    ensures Sighted(log, k, History(log)[k].lastSeen)
  {
    hide Apply, Sights, Sighted;
    var front, last := log[..|log| - 1], log[|log| - 1];
    ApplySeen(History(front), last.0, last.1, k);
    SightedNext(log, k, History(log)[k].lastSeen);
    if k in History(front) {
      LastSeenHasCause(front, k);
    }
  }

  /** The clock does not run backwards, and nobody reports a sighting that is yet to come. */
  ghost predicate HonestClock(log: Log) {
    && (forall i, j :: 0 <= i < j < |log| ==> log[i].1 <= log[j].1)
    && (forall i, s :: 0 <= i < |log| && log[i].0.Gossip? && s in log[i].0.shared ==> s.lastSeen <= log[i].1)
  }

  lemma SightsInThePast(log: Log, i: nat, k: string, known: bool, seen: nat)
    requires HonestClock(log) && i < |log| && Sights(log[i].0, log[i].1, k, known, seen)
    ensures seen <= log[i].1
  {
  }

  /** With honest clocks it is the latest of all sightings that happened or were reported. */
  lemma {:induction false} LastSeenIsLatest(log: Log, k: string, seen: nat)
    requires HonestClock(log) && Sighted(log, k, seen)
    ensures k in History(log) && seen <= History(log)[k].lastSeen
  {
    if log != [] {
      hide Apply, Sights, Sighted, HonestClock;
      var front, last := log[..|log| - 1], log[|log| - 1];
      var m := History(front);
      SightedNext(log, k, seen);
      HonestFront(log);
      if Sights(last.0, last.1, k, k in m, seen) {
        SightsIntroduces(last.0, last.1, k, k in m, seen);
        ApplyKnows(m, last.0, last.1, k);
        ApplySeen(m, last.0, last.1, k);
      } else {
        LastSeenIsLatest(front, k, seen);
        ApplyKnows(m, last.0, last.1, k);
        ApplySeen(m, last.0, last.1, k);
        LastSeenHasCause(front, k);
        SeenBefore(log, k, m[k].lastSeen);
        if last.0.Connected? && Strip(last.0.addr) == k {
          assert Sights(last.0, last.1, k, true, last.1) by { ConnectionSights(last.0, last.1, k); }
        }
      }
    }
  }

  lemma ConnectionSights(e: Event, now: nat, k: string)
    requires e.Connected? && Strip(e.addr) == k
    ensures Sights(e, now, k, true, now)
  {
  }

  lemma SightsIntroduces(e: Event, now: nat, k: string, known: bool, seen: nat)
    requires Sights(e, now, k, known, seen)
    ensures Introduces(e, k)
  {
  }

  lemma HonestFront(log: Log)
    requires HonestClock(log) && log != []
    ensures HonestClock(log[..|log| - 1])
  {
  }

  /** A sighting from before the last event is no later than that event. */
  lemma SeenBefore(log: Log, k: string, seen: nat)
    requires HonestClock(log) && log != [] && Sighted(log[..|log| - 1], k, seen)
    ensures seen <= log[|log| - 1].1
  {
    hide Sights, History;
    var front := log[..|log| - 1];
    var i :| 0 <= i < |front| && Sights(front[i].0, front[i].1, k, k in History(front[..i]), seen);
    HonestFront(log);
    SightsInThePast(front, i, k, k in History(front[..i]), seen);
  }
}
