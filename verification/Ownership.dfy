/**
 Who holds a prepared message (core/src/iron_core.rs): the outbox, or the drift store when
 routing says store-and-carry. Neither store looks at the other; that a message has a
 single owner is a property of whole runs.

 `parse` is the UUID parser. It may accept several spellings of one id.
 */
module Ownership {
  import opened Sequences
  import opened Sketch
  import opened Outbox
  import opened MeshStore

  type Parser = string -> Option<Key>

  /** `issued` is every id ever generated. */
  datatype Custody = Custody(queues: Queues, drift: Envelopes, issued: set<Key>)

  ghost predicate InOutbox(s: Custody, id: string) {
    HoldsId(s.queues, id)
  }

  predicate InDrift(parse: Parser, s: Custody, id: string) {
    parse(id).Some? && parse(id).value in s.drift
  }

  datatype Event =
    | Prepare(msg: QueuedMessage, envelope: StoredEnvelope, storeAndCarry: bool, score: Score)
    | MarkSent(id: string)
    | Flush(peer: string, outcome: nat -> bool)
    | DrainPeer(peer: string)
    | ExpireOutbox(now: nat, maxAge: nat)
    | ExpireDrift(now: nat)

  // ----------------------------------------------------------- transitions

  /** One generated id names both forms of the message. */
  ghost predicate FreshId(parse: Parser, s: Custody, msg: QueuedMessage, envelope: StoredEnvelope) {
    parse(msg.messageId) == Some(envelope.messageId) && envelope.messageId !in s.issued
  }

  /** Enqueue errors are ignored, and a full drift store evicts its lowest score. */
  ghost predicate Prepared(s: Custody, e: Event, max: nat, t: Custody)
    requires e.Prepare?
  {
    var all := s.drift[e.envelope.messageId := e.envelope];
    && t.issued == s.issued + {e.envelope.messageId}
    && (if e.storeAndCarry then
          t.queues == s.queues && Trimmed(e.score, all, t.drift, max) && |t.drift| == Min(|all|, max)
        else
          t.drift == s.drift && t.queues == if Accepts(s.queues, e.msg) then Push(s.queues, e.msg) else s.queues)
  }

  /** Any first match may be taken from the outbox; the drift store is keyed by the parsed id. */
  ghost predicate Marked(parse: Parser, s: Custody, id: string, t: Custody) {
    && t.issued == s.issued
    && t.drift == (if parse(id).Some? then s.drift - {parse(id).value} else s.drift)
    && Removed(s.queues, id, t.queues)
  }

  ghost predicate Next(parse: Parser, max: nat, s: Custody, e: Event, t: Custody) {
    match e
    case Prepare(msg, envelope, _, _) => FreshId(parse, s, msg, envelope) && Prepared(s, e, max, t)
    case MarkSent(id) => Marked(parse, s, id, t)
    case Flush(peer, outcome) => t == s.(queues := Flushed(s.queues, peer, outcome))
    case DrainPeer(peer) => t == s.(queues := s.queues - {peer})
    case ExpireOutbox(now, maxAge) => t == s.(queues := Pruned(s.queues, Outbox.Unexpired(now, maxAge)))
    case ExpireDrift(now) => t == s.(drift := MeshStore.Unexpired(s.drift, now))
  }

  // ------------------------------------------------------------- invariant

  /** Each held message occurs once and is the only one with its id. */
  ghost predicate OneEach(parse: Parser, held: multiset<QueuedMessage>) {
    && (forall m :: held[m] <= 1)
    && forall m, n :: m in held && n in held && parse(m.messageId) == parse(n.messageId) ==> m == n
  }

  ghost predicate Issued(parse: Parser, s: Custody, m: QueuedMessage) {
    parse(m.messageId).Some? && parse(m.messageId).value in s.issued && parse(m.messageId).value !in s.drift
  }

  ghost predicate SingleOwner(parse: Parser, max: nat, s: Custody) {
    && WellRouted(s.queues) && WithinLimits(s.queues) && OneEach(parse, Held(s.queues))
    && WellIndexed(s.drift) && |s.drift| <= max && s.drift.Keys <= s.issued
    && forall m :: m in Held(s.queues) ==> Issued(parse, s, m)
  }

  lemma {:induction false} HeldMember(q: Queues, m: QueuedMessage)
    ensures m in Held(q) <==> exists p, i :: Queued(q, p, i) && q[p][i] == m
    decreases |q|
  {
    if q != map[] {
      var k :| k in q;
      HeldRemove(q, k);
      HeldMember(q - {k}, m);
      if m in Held(q) {
        if m in multiset(q[k]) {
          var i :| 0 <= i < |q[k]| && q[k][i] == m;
          assert Queued(q, k, i);
        } else {
          var p, i :| Queued(q - {k}, p, i) && (q - {k})[p][i] == m;
          assert Queued(q, p, i);
        }
      }
      if p, i :| Queued(q, p, i) && q[p][i] == m && p != k {
        assert Queued(q - {k}, p, i);
      }
    }
  }

  lemma HoldsIdMember(q: Queues, id: string)
    ensures HoldsId(q, id) <==> exists m :: m in Held(q) && m.messageId == id
  {
    if p, i :| Queued(q, p, i) && q[p][i].messageId == id {
      HeldMember(q, q[p][i]);
    }
    if m :| m in Held(q) && m.messageId == id {
      HeldMember(q, m);
    }
  }

  lemma SumMonotone(
    a: multiset<QueuedMessage>, b: multiset<QueuedMessage>, c: multiset<QueuedMessage>, d: multiset<QueuedMessage>)
    requires a <= b && c <= d
    ensures a + c <= b + d
  {
  }

  lemma PrunedWithout(q: Queues, keep: QueuedMessage -> bool, k: string)
    requires k in q
    ensures Pruned(q, keep) - {k} == Pruned(q - {k}, keep)
    ensures QueueOf(Pruned(q, keep), k) == Filter(keep, q[k])
  {
    hide Filter;
  }

  lemma {:induction false} PrunedHeld(q: Queues, keep: QueuedMessage -> bool)
    ensures Held(Pruned(q, keep)) <= Held(q)
    decreases |q|
  {
    if q == map[] {
      assert Pruned(q, keep) == map[];
    } else {
      hide Held, Filter, Pruned;
      var k :| k in q;
      PrunedWithout(q, keep, k);
      HeldUpdate(q, k, []);
      HeldUpdate(Pruned(q, keep), k, []);
      PrunedHeld(q - {k}, keep);
      FilterSubMultiset(keep, q[k]);
      SumMonotone(Held(Pruned(q - {k}, keep)), Held(q - {k}), multiset(Filter(keep, q[k])), multiset(q[k]));
    }
  }

  lemma {:induction false} FilterSubMultiset(keep: QueuedMessage -> bool, s: seq<QueuedMessage>)
    ensures multiset(Filter(keep, s)) <= multiset(s)
  {
    if s != [] {
      FilterSubMultiset(keep, s[1..]);
      assert s == [s[0]] + s[1..];
    }
  }

  lemma {:induction false} PrunedValid(q: Queues, keep: QueuedMessage -> bool)
    requires WellRouted(q) && WithinLimits(q)
    ensures WellRouted(Pruned(q, keep)) && WithinLimits(Pruned(q, keep))
  {
    PrunedHeld(q, keep);
    HeldMonotone(Held(Pruned(q, keep)), Held(q));
    forall p | p in Pruned(q, keep)
      ensures AllFor(Pruned(q, keep)[p], p) && |Pruned(q, keep)[p]| <= MAX_QUEUE_PER_PEER
    {
      FilterAllFor(keep, q[p], p);
      FilterLength(keep, q[p]);
    }
  }

  lemma HeldMonotone(a: multiset<QueuedMessage>, b: multiset<QueuedMessage>)
    requires a <= b
    ensures |a| <= |b|
  {
    assert b == a + (b - a);
  }

  /** Whatever only takes messages away keeps single ownership. */
  lemma TakingAwayKeeps(parse: Parser, max: nat, s: Custody, t: Custody)
    requires SingleOwner(parse, max, s) && t.issued == s.issued
    requires WellRouted(t.queues) && WithinLimits(t.queues) && Held(t.queues) <= Held(s.queues)
    requires SubStore(t.drift, s.drift)
    ensures SingleOwner(parse, max, t)
  {
    hide WellRouted, WithinLimits, Held;
    KeySubsetSize(t.drift.Keys, s.drift.Keys);
    forall m | m in Held(t.queues)
      ensures Issued(parse, t, m)
    {
      assert m in Held(s.queues);
    }
  }

  lemma PrepareKeeps(parse: Parser, max: nat, s: Custody, e: Event, t: Custody)
    requires SingleOwner(parse, max, s) && e.Prepare? && FreshId(parse, s, e.msg, e.envelope) && Prepared(s, e, max, t)
    ensures SingleOwner(parse, max, t)
  {
    hide WellRouted, WithinLimits, Held, Trimmed;
    if e.storeAndCarry {
      assert SubStore(t.drift, s.drift[e.envelope.messageId := e.envelope]) && WellIndexed(t.drift) by {
        TrimmedIsSub(e.score, s.drift[e.envelope.messageId := e.envelope], t.drift, max);
      }
      assert forall m :: m in Held(s.queues) ==> Issued(parse, s, m);
    } else if Accepts(s.queues, e.msg) {
      PushValid(s.queues, e.msg);
      forall m | m in Held(t.queues)
        ensures Issued(parse, t, m)
      {
        assert m == e.msg || m in Held(s.queues);
      }
      assert e.msg !in Held(s.queues);
    }
  }

  lemma TrimmedIsSub(score: Score, all: Envelopes, m: Envelopes, max: nat)
    requires Trimmed(score, all, m, max)
    ensures SubStore(m, all) && WellIndexed(m)
  {
  }

  lemma MarkedTakesAway(parse: Parser, s: Custody, id: string, t: Custody)
    requires WellRouted(s.queues) && WithinLimits(s.queues) && Marked(parse, s, id, t)
    ensures WellRouted(t.queues) && WithinLimits(t.queues) && Held(t.queues) <= Held(s.queues)
    ensures SubStore(t.drift, s.drift)
    ensures InOutbox(s, id) ==>
              exists m: QueuedMessage :: m.messageId == id && Held(s.queues) == Held(t.queues) + multiset{m}
  {
    hide WellRouted, WithinLimits, Held;
    if InOutbox(s, id) {
      var p, i :| FirstWithId(s.queues, p, i, id) && t.queues == Without(s.queues, p, i);
      WithoutValid(s.queues, p, i);
    }
  }

  lemma StepKeepsOwner(parse: Parser, max: nat, s: Custody, e: Event, t: Custody)
    requires SingleOwner(parse, max, s) && Next(parse, max, s, e, t)
    ensures SingleOwner(parse, max, t)
  {
    hide SingleOwner, WellRouted, WithinLimits, Held, Flushed, Pruned, Outbox.Unexpired;
    hide Prepared, Marked, OneEach, Subsequence;
    assert WellRouted(s.queues) && WithinLimits(s.queues) by { OwnerValid(parse, max, s); }
    if e.Prepare? {
      PrepareKeeps(parse, max, s, e, t);
    } else {
      if e.MarkSent? {
        MarkedTakesAway(parse, s, e.id, t);
        assert t.issued == s.issued by { MarkedIssued(parse, s, e.id, t); }
      } else if e.Flush? {
        FlushConserves(s.queues, e.peer, e.outcome);
      } else if e.DrainPeer? {
        DrainedValid(s.queues, e.peer);
      } else if e.ExpireOutbox? {
        PrunedValid(s.queues, Outbox.Unexpired(e.now, e.maxAge));
        PrunedHeld(s.queues, Outbox.Unexpired(e.now, e.maxAge));
      }
      TakingAwayKeeps(parse, max, s, t);
    }
  }

  lemma OwnerValid(parse: Parser, max: nat, s: Custody)
    requires SingleOwner(parse, max, s)
    ensures WellRouted(s.queues) && WithinLimits(s.queues)
  {
  }

  lemma MarkedIssued(parse: Parser, s: Custody, id: string, t: Custody)
    requires Marked(parse, s, id, t)
    ensures t.issued == s.issued
  {
  }

  lemma DrainedValid(q: Queues, peer: string)
    requires WellRouted(q) && WithinLimits(q)
    ensures WellRouted(q - {peer}) && WithinLimits(q - {peer}) && Held(q - {peer}) <= Held(q)
  {
    HeldUpdate(q, peer, []);
    HeldMonotone(Held(q - {peer}), Held(q));
  }

  // ------------------------------------------------------------------ runs

  ghost predicate Run(parse: Parser, max: nat, states: seq<Custody>, events: seq<Event>) {
    && |states| == |events| + 1 && states[0] == Custody(map[], map[], {})
    && forall i :: 0 <= i < |events| ==> Next(parse, max, states[i], events[i], states[i + 1])
  }

  lemma NothingOwned(parse: Parser, max: nat)
    ensures SingleOwner(parse, max, Custody(map[], map[], {}))
  {
  }

  lemma {:induction false} RunKeepsOwner(parse: Parser, max: nat, states: seq<Custody>, events: seq<Event>, n: nat)
    requires Run(parse, max, states, events) && n < |states|
    ensures SingleOwner(parse, max, states[n])
  {
    if n == 0 {
      NothingOwned(parse, max);
    } else {
      hide SingleOwner, Next;
      RunKeepsOwner(parse, max, states, events, n - 1);
      StepKeepsOwner(parse, max, states[n - 1], events[n - 1], states[n]);
    }
  }

  /** At no point of any run is an id, however spelled, in both the outbox and drift custody. */
  lemma NeverInBoth(parse: Parser, max: nat, states: seq<Custody>, events: seq<Event>, n: nat, id: string)
    requires Run(parse, max, states, events) && n < |states|
    ensures !(InOutbox(states[n], id) && InDrift(parse, states[n], id))
  {
    hide WellRouted, WithinLimits, Held, Next, HoldsId;
    RunKeepsOwner(parse, max, states, events, n);
    HoldsIdMember(states[n].queues, id);
    if m :| m in Held(states[n].queues) && m.messageId == id {
      assert Issued(parse, states[n], m);
    }
  }

  /** A prepared message is owned by the store it was routed to, unless that one refused or evicted it. */
  lemma PreparedHasOneOwner(parse: Parser, max: nat, s: Custody, e: Event, t: Custody)
    requires SingleOwner(parse, max, s) && e.Prepare? && FreshId(parse, s, e.msg, e.envelope) && Prepared(s, e, max, t)
    ensures InOutbox(t, e.msg.messageId) <==> !e.storeAndCarry && Accepts(s.queues, e.msg)
    ensures InDrift(parse, t, e.msg.messageId) ==> e.storeAndCarry
    ensures e.storeAndCarry && |s.drift| < max ==>
              InDrift(parse, t, e.msg.messageId) && t.drift == s.drift[e.envelope.messageId := e.envelope]
  {
    hide WellRouted, WithinLimits, Held, HoldsId, Accepts, Push;
    NotHeldBefore(parse, max, s, e.msg, e.envelope);
    PushedIsHeld(s.queues, e.msg);
    FreshInDrift(parse, max, s, e.msg, e.envelope);
    if e.storeAndCarry && |s.drift| < max {
      SubStoreFull(t.drift, s.drift[e.envelope.messageId := e.envelope]);
    }
  }

  // ------------------------------------------------------------- mark sent

  /** Marking leaves the id in neither store and touches no other id. */
  lemma MarkedIsGone(parse: Parser, max: nat, s: Custody, id: string, t: Custody)
    requires SingleOwner(parse, max, s) && Marked(parse, s, id, t)
    ensures !InOutbox(t, id) && !InDrift(parse, t, id)
    ensures forall other :: parse(other) != parse(id) ==>
              (InOutbox(t, other) <==> InOutbox(s, other)) && (InDrift(parse, t, other) <==> InDrift(parse, s, other))
  {
    hide WellRouted, WithinLimits, Held, HoldsId;
    assert !InOutbox(s, id) ==> t.queues == s.queues;
    MarkedTakesAway(parse, s, id, t);
    HoldsIdMember(s.queues, id);
    HoldsIdMember(t.queues, id);
    assert forall m :: m in Held(t.queues) ==> m in Held(s.queues);
    forall other | parse(other) != parse(id)
      ensures InOutbox(t, other) <==> InOutbox(s, other)
    {
      HoldsIdMember(s.queues, other);
      HoldsIdMember(t.queues, other);
    }
  }

  // ---------------------------------------------------------- status report

  /**
   Preparing and at once marking sent through the outbox: every queue is as before, and only
   a recipient with no queue of its own is left with an empty one.
   */
  lemma StatusViaOutbox(parse: Parser, max: nat, s: Custody, e: Event, t: Custody, u: Custody)
    requires SingleOwner(parse, max, s) && e.Prepare? && !e.storeAndCarry
    requires FreshId(parse, s, e.msg, e.envelope) && Prepared(s, e, max, t) && Marked(parse, t, e.msg.messageId, u)
    ensures u.drift == s.drift
    ensures forall p :: QueueOf(u.queues, p) == QueueOf(s.queues, p)
    ensures u.queues == s.queues <==> (e.msg.recipientId in s.queues || !Accepts(s.queues, e.msg))
  {
    hide WellRouted, WithinLimits, Held, Accepts, OneEach, HoldsId, Push, Removed, Trimmed;
    NotHeldBefore(parse, max, s, e.msg, e.envelope);
    FreshInDrift(parse, max, s, e.msg, e.envelope);
    assert u.drift == s.drift;
    PushThenRemove(s.queues, e.msg, u.queues);
    if !Accepts(s.queues, e.msg) {
      RemoveAbsent(s.queues, e.msg.messageId, u.queues);
    }
  }

  lemma RemoveAbsent(q: Queues, id: string, r: Queues)
    requires !HoldsId(q, id) && Removed(q, id, r)
    ensures r == q
  {
  }

  /** Removing what was just pushed restores every queue, and the map itself if the recipient had one. */
  lemma PushThenRemove(q: Queues, msg: QueuedMessage, r: Queues)
    requires !HoldsId(q, msg.messageId)
    ensures Removed(Push(q, msg), msg.messageId, r) ==>
              && (forall p :: QueueOf(r, p) == QueueOf(q, p))
              && (r == q <==> msg.recipientId in q)
  {
    hide HoldsId, Push, Without;
    if Removed(Push(q, msg), msg.messageId, r) {
      PushedIsHeld(q, msg);
      var p, i :| FirstWithId(Push(q, msg), p, i, msg.messageId) && r == Without(Push(q, msg), p, i);
      PushThenWithout(q, msg, p, i);
    }
  }

  lemma PushedIsHeld(q: Queues, msg: QueuedMessage)
    ensures HoldsId(Push(q, msg), msg.messageId)
  {
    assert Queued(Push(q, msg), msg.recipientId, |QueueOf(q, msg.recipientId)|);
  }

  /** Taking the pushed message out again leaves its recipient's queue as it was, even if empty. */
  lemma PushThenWithout(q: Queues, msg: QueuedMessage, p: string, i: int)
    requires !HoldsId(q, msg.messageId) && FirstWithId(Push(q, msg), p, i, msg.messageId)
    ensures Without(Push(q, msg), p, i) == q[msg.recipientId := QueueOf(q, msg.recipientId)]
  {
    OnlyPlace(q, msg, p, i);
    var s := QueueOf(q, p);
    assert (s + [msg])[..i] + (s + [msg])[i + 1..] == s;
  }

  lemma NotHeldBefore(parse: Parser, max: nat, s: Custody, msg: QueuedMessage, envelope: StoredEnvelope)
    requires SingleOwner(parse, max, s) && FreshId(parse, s, msg, envelope)
    ensures !InOutbox(s, msg.messageId)
  {
    hide WellRouted, WithinLimits, Held;
    HoldsIdMember(s.queues, msg.messageId);
    assert forall m :: m in Held(s.queues) ==> Issued(parse, s, m);
  }

  lemma OnlyPlace(q: Queues, msg: QueuedMessage, p: string, i: int)
    requires !HoldsId(q, msg.messageId) && FirstWithId(Push(q, msg), p, i, msg.messageId)
    ensures p == msg.recipientId && i == |QueueOf(q, p)|
  {
    assert !Queued(q, p, i);
  }

  /**
   Through drift custody both stores are restored exactly when there was room or the new
   envelope evicted itself; otherwise another message is lost.
   */
  lemma StatusViaDrift(parse: Parser, max: nat, s: Custody, e: Event, t: Custody, u: Custody)
    requires SingleOwner(parse, max, s) && e.Prepare? && e.storeAndCarry
    requires FreshId(parse, s, e.msg, e.envelope) && Prepared(s, e, max, t) && Marked(parse, t, e.msg.messageId, u)
    ensures u.queues == s.queues
    ensures u.drift == s.drift <==> (|s.drift| < max || e.envelope.messageId !in t.drift)
    ensures DistinctScores(e.score, s.drift[e.envelope.messageId := e.envelope].Values) ==>
              (u.drift == s.drift <==>
               (|s.drift| < max || forall x :: x in s.drift ==> e.score(e.envelope) < e.score(s.drift[x])))
  {
    hide WellRouted, WithinLimits, Held, OneEach, HoldsId, Trimmed, DistinctScores;
    NotHeldBefore(parse, max, s, e.msg, e.envelope);
    FreshInDrift(parse, max, s, e.msg, e.envelope);
    assert u.queues == s.queues;
    assert u.drift == t.drift - {e.envelope.messageId};
    InsertThenRemove(e.score, s.drift, e.envelope, t.drift, max);
  }

  lemma InsertThenRemove(score: Score, drift: Envelopes, envelope: StoredEnvelope, after: Envelopes, max: nat)
    requires |drift| <= max && envelope.messageId !in drift
    requires Trimmed(score, drift[envelope.messageId := envelope], after, max)
    requires |after| == Min(|drift[envelope.messageId := envelope]|, max)
    ensures after - {envelope.messageId} == drift <==> (|drift| < max || envelope.messageId !in after)
    ensures DistinctScores(score, drift[envelope.messageId := envelope].Values) ==>
              (after - {envelope.messageId} == drift <==>
               (|drift| < max || forall x :: x in drift ==> score(envelope) < score(drift[x])))
  {
    hide DistinctScores, Outranks, Kept;
    var k := envelope.messageId;
    var all := drift[k := envelope];
    if |drift| < max {
      SubStoreFull(after, all);
      assert after - {k} == drift;
    } else {
      FullStoreKeepsRank(score, drift, envelope, after, max);
      if k in after {
        assert |after - {k}| == |after| - 1;
      } else {
        assert after - {k} == after;
      }
    }
  }

  lemma FullStoreKeepsRank(score: Score, drift: Envelopes, envelope: StoredEnvelope, after: Envelopes, max: nat)
    requires |drift| == max && envelope.messageId !in drift
    requires Trimmed(score, drift[envelope.messageId := envelope], after, max) && |after| == max
    ensures envelope.messageId !in after ==> after == drift
    ensures DistinctScores(score, drift[envelope.messageId := envelope].Values) ==>
              (envelope.messageId !in after <==> forall x :: x in drift ==> score(envelope) < score(drift[x]))
  {
    var k := envelope.messageId;
    var all := drift[k := envelope];
    if k !in after {
      SubStoreFull(after, drift);
      forall x | x in drift && DistinctScores(score, all.Values)
        ensures score(envelope) < score(drift[x])
      {
        assert all[k] in all.Values && all[x] in all.Values;
        assert envelope.messageId == k;
        assert score(all[k]) <= score(all[x]);
        assert drift[x] != envelope by {
          assert after[x].messageId == x;
        }
      }
    } else if DistinctScores(score, all.Values) {
      assert exists y :: y in drift && y !in after by {
        if drift.Keys <= after.Keys {
          KeySubsetSize(drift.Keys, after.Keys);
        }
      }
      var y :| y in drift && y !in after;
      assert score(all[y]) <= score(all[k]);
    }
  }

  // ------------------------------------------------------------ expiry units

  /** A sweep takes nothing exactly when no held message is expired. */
  lemma SweepTakesNothingExactlyWhen(q: Queues, keep: QueuedMessage -> bool)
    ensures Held(Pruned(q, keep)) == Held(q) <==> forall m :: m in Held(q) ==> keep(m)
  {
    hide Held, Pruned;
    if forall m :: m in Held(q) ==> keep(m) {
      AllKept(q, keep);
    } else {
      var m :| m in Held(q) && !keep(m);
      if m in Held(Pruned(q, keep)) {
        HeldMember(Pruned(q, keep), m);
        var p, i :| Queued(Pruned(q, keep), p, i) && Pruned(q, keep)[p][i] == m;
        PrunedIsKept(q, keep, p, i);
        assert false;
      }
    }
  }

  lemma PrunedIsKept(q: Queues, keep: QueuedMessage -> bool, p: string, i: int)
    requires Queued(Pruned(q, keep), p, i)
    ensures keep(Pruned(q, keep)[p][i])
  {
    FilterMember(keep, q[p], Filter(keep, q[p])[i]);
  }

  lemma AllKept(q: Queues, keep: QueuedMessage -> bool)
    requires forall m :: m in Held(q) ==> keep(m)
    ensures Held(Pruned(q, keep)) == Held(q)
  {
    hide Held;
    forall p | p in q
      ensures Filter(keep, q[p]) == q[p]
    {
      forall m | m in q[p]
        ensures keep(m)
      {
        var i :| 0 <= i < |q[p]| && q[p][i] == m;
        assert Queued(q, p, i);
        HeldMember(q, m);
      }
      FilterAll(keep, q[p]);
    }
    assert Pruned(q, keep) == DropEmpty(q);
    DropEmptyHeld(q);
  }

  /** Only preparing adds to the outbox, and only its own message. */
  lemma StepHeld(parse: Parser, max: nat, s: Custody, e: Event, t: Custody)
    requires SingleOwner(parse, max, s) && Next(parse, max, s, e, t)
    ensures Held(t.queues) <= Held(s.queues) + if e.Prepare? then multiset{e.msg} else multiset{}
  {
    hide SingleOwner, WellRouted, WithinLimits, Held, Flushed, Pruned, Outbox.Unexpired;
    hide Marked, OneEach, Subsequence, Trimmed;
    assert WellRouted(s.queues) && WithinLimits(s.queues) by { OwnerValid(parse, max, s); }
    if e.Prepare? {
      PushHeld(s.queues, e.msg);
    } else if e.MarkSent? {
      MarkedTakesAway(parse, s, e.id, t);
    } else if e.Flush? {
      FlushConserves(s.queues, e.peer, e.outcome);
    } else if e.DrainPeer? {
      DrainedValid(s.queues, e.peer);
    } else if e.ExpireOutbox? {
      PrunedHeld(s.queues, Outbox.Unexpired(e.now, e.maxAge));
    }
  }

  /** Every message is stamped, in milliseconds, no earlier than second `since`. */
  ghost predicate StampedSince(events: seq<Event>, since: nat) {
    forall i :: 0 <= i < |events| && events[i].Prepare? ==> events[i].msg.queuedAt >= 1000 * since
  }

  lemma {:induction false} HeldAreStamped(
    parse: Parser, max: nat, states: seq<Custody>, events: seq<Event>, since: nat, n: nat, m: QueuedMessage)
    requires Run(parse, max, states, events) && StampedSince(events, since)
    requires n < |states| && m in Held(states[n].queues)
    ensures m.queuedAt >= 1000 * since
  {
    hide Held, Next;
    if n == 0 {
      NothingHeld();
    } else {
      RunKeepsOwner(parse, max, states, events, n - 1);
      StepHeld(parse, max, states[n - 1], events[n - 1], states[n]);
      if m in Held(states[n - 1].queues) {
        HeldAreStamped(parse, max, states, events, since, n - 1, m);
      }
    }
  }

  lemma NothingHeld()
    ensures Held(map[]) == multiset{}
  {
  }

  /**
   Messages are stamped in milliseconds but aged in seconds: in every run whose messages were
   stamped from second `since` on, the seven-day sweep takes nothing before the clock shows a
   thousand times that second.
   */
  lemma SweepNeverReachesPrepared(
    parse: Parser, max: nat, states: seq<Custody>, events: seq<Event>, since: nat, n: nat)
    requires Run(parse, max, states, events) && StampedSince(events, since) && n < |events|
    requires events[n].ExpireOutbox? && events[n].maxAge == 604_800 && events[n].now < 1000 * since + 604_800
    ensures Held(states[n + 1].queues) == Held(states[n].queues)
  {
    hide Held, Pruned;
    var keep := Outbox.Unexpired(events[n].now, 604_800);
    assert Next(parse, max, states[n], events[n], states[n + 1]);
    forall m | m in Held(states[n].queues)
      ensures keep(m)
    {
      HeldAreStamped(parse, max, states, events, since, n, m);
    }
    SweepTakesNothingExactlyWhen(states[n].queues, keep);
  }

  // -------------------------------------------------------------- the object

  class IronCore {
    const outbox: MemoryOutbox
    const driftStore: Store
    ghost var issued: set<Key>
    const parse: Parser

    ghost function State(): Custody
      reads this, outbox, driftStore
    {
      Custody(outbox.queues, driftStore.messages, issued)
    }

    ghost predicate Valid()
      reads this, outbox, driftStore
    {
      outbox.Valid() && driftStore.Valid() && SingleOwner(parse, driftStore.maxMessages, State())
    }

    constructor (parse: Parser, max: nat)
      ensures Valid() && State() == Custody(map[], map[], {}) && this.parse == parse && driftStore.maxMessages == max
      ensures fresh(outbox) && fresh(driftStore)
    {
      this.parse := parse;
      outbox := new MemoryOutbox();
      driftStore := new Store(max);
      issued := {};
    }

    /** `msg` and `envelope` are the two forms of the message just encrypted under a new id. */
    method PrepareMessage(msg: QueuedMessage, envelope: StoredEnvelope, storeAndCarry: bool, score: Score)
      requires Valid() && FreshId(parse, State(), msg, envelope)
      modifies this, outbox, driftStore
      ensures Valid()
      ensures Next(parse, driftStore.maxMessages, old(State()), Prepare(msg, envelope, storeAndCarry, score), State())
    {
      hide SingleOwner, Trimmed, MemoryOutbox.Valid;
      ghost var s := State();
      ghost var e := Prepare(msg, envelope, storeAndCarry, score);
      issued := issued + {envelope.messageId};
      if storeAndCarry {
        FreshInDrift(parse, driftStore.maxMessages, s, msg, envelope);
        var isNew := driftStore.Insert(score, envelope);
      } else {
        var ok := outbox.Enqueue(msg);
      }
      assert Next(parse, driftStore.maxMessages, s, e, State());
      StepKeepsOwner(parse, driftStore.maxMessages, s, e, State());
    }

    method MarkMessageSent(id: string) returns (ok: bool)
      requires Valid()
      modifies outbox, driftStore
      ensures Valid()
      ensures Next(parse, driftStore.maxMessages, old(State()), MarkSent(id), State())
      ensures ok == (InOutbox(old(State()), id) || InDrift(parse, old(State()), id))
      ensures !InOutbox(State(), id) && !InDrift(parse, State(), id)
    {
      hide SingleOwner, MemoryOutbox.Valid, HoldsId, Removed, Held, WellRouted, WithinLimits, Flushed, Pruned, Trimmed;
      ghost var s := State();
      var outboxRemoved := outbox.Remove(id);
      var driftRemoved := false;
      if parse(id).Some? {
        driftRemoved := driftStore.Remove(parse(id).value);
      }
      assert Marked(parse, s, id, State());
      StepKeepsOwner(parse, driftStore.maxMessages, s, MarkSent(id), State());
      MarkedIsGone(parse, driftStore.maxMessages, s, id, State());
      return outboxRemoved || driftRemoved;
    }

    /** Prepare, then mark sent at once: nothing is left behind unless a full drift store had to evict. */
    method SendMessageStatus(msg: QueuedMessage, envelope: StoredEnvelope, storeAndCarry: bool, score: Score)
      requires Valid() && FreshId(parse, State(), msg, envelope)
      modifies this, outbox, driftStore
      ensures Valid()
      ensures forall p :: QueueOf(outbox.queues, p) == QueueOf(old(outbox.queues), p)
      ensures !storeAndCarry || |old(driftStore.messages)| < driftStore.maxMessages ==>
                driftStore.messages == old(driftStore.messages)
    {
      hide SingleOwner, Trimmed, MemoryOutbox.Valid, HoldsId, Accepts;
      ghost var s := State();
      ghost var e := Prepare(msg, envelope, storeAndCarry, score);
      PrepareMessage(msg, envelope, storeAndCarry, score);
      ghost var t := State();
      var ok := MarkMessageSent(msg.messageId);
      if storeAndCarry {
        StatusViaDrift(parse, driftStore.maxMessages, s, e, t, State());
      } else {
        StatusViaOutbox(parse, driftStore.maxMessages, s, e, t, State());
      }
    }

    /** The core half of blocking and deleting a peer, and of flushing to it. */
    method DrainForPeer(peer: string) returns (drained: seq<QueuedMessage>)
      requires Valid()
      modifies outbox
      ensures Valid()
      ensures Next(parse, driftStore.maxMessages, old(State()), DrainPeer(peer), State())
      ensures drained == QueueOf(old(outbox.queues), peer)
    {
      hide SingleOwner, MemoryOutbox.Valid;
      ghost var s := State();
      drained := outbox.DrainForPeer(peer);
      StepKeepsOwner(parse, driftStore.maxMessages, s, DrainPeer(peer), State());
    }

    method PerformMaintenance(now: nat) returns (removed: nat)
      requires Valid()
      modifies outbox
      ensures Valid()
      ensures Next(parse, driftStore.maxMessages, old(State()), ExpireOutbox(now, 604_800), State())
    {
      hide SingleOwner, MemoryOutbox.Valid;
      ghost var s := State();
      removed := outbox.RemoveExpired(now, 604_800);
      StepKeepsOwner(parse, driftStore.maxMessages, s, ExpireOutbox(now, 604_800), State());
    }
  }

  lemma FreshInDrift(parse: Parser, max: nat, s: Custody, msg: QueuedMessage, envelope: StoredEnvelope)
    requires SingleOwner(parse, max, s) && FreshId(parse, s, msg, envelope)
    ensures envelope.messageId !in s.drift
  {
  }
}
