/**
 The in-memory outbox (core/src/store/outbox.rs) and the flush that delivers a
 newly connected peer's queue (cli/src/main.rs): drain, send, re-enqueue failures.
 */
module Outbox {
  import opened Sequences

  const MAX_QUEUE_PER_PEER: nat := 1000
  const MAX_TOTAL_QUEUED: nat := 10_000

  datatype QueuedMessage = QueuedMessage(
    messageId: string,
    recipientId: string,
    envelopeData: seq<int>,
    queuedAt: nat,
    attempts: nat)

  type Queues = map<string, seq<QueuedMessage>>

  function QueueOf(q: Queues, peer: string): seq<QueuedMessage> {
    if peer in q then q[peer] else []
  }

  /** Everything held, over all peers. */
  ghost function Held(q: Queues): multiset<QueuedMessage> {
    if q == map[] then multiset{}
    else
      var k :| k in q;
      multiset(q[k]) + Held(q - {k})
  }

  lemma {:induction false} HeldRemove(q: Queues, k: string)
    requires k in q
    ensures Held(q) == multiset(q[k]) + Held(q - {k})
    decreases |q|
  {
    var j :| j in q && Held(q) == multiset(q[j]) + Held(q - {j});
    if j != k {
      HeldRemove(q - {j}, k);
      HeldRemove(q - {k}, j);
      assert q - {j} - {k} == q - {k} - {j};
    }
  }

  /** Replacing one peer's queue changes what is held by exactly that. */
  lemma HeldUpdate(q: Queues, peer: string, s: seq<QueuedMessage>)
    ensures Held(q[peer := s]) == Held(q - {peer}) + multiset(s)
    ensures Held(q) == Held(q - {peer}) + multiset(QueueOf(q, peer))
  {
    HeldRemove(q[peer := s], peer);
    assert q[peer := s] - {peer} == q - {peer};
    if peer in q {
      HeldRemove(q, peer);
    } else {
      assert q - {peer} == q;
    }
  }

  ghost predicate AllFor(s: seq<QueuedMessage>, peer: string) {
    forall i :: 0 <= i < |s| ==> s[i].recipientId == peer
  }

  ghost predicate WellRouted(q: Queues) {
    forall p :: p in q ==> AllFor(q[p], p)
  }

  ghost predicate WithinLimits(q: Queues) {
    |Held(q)| <= MAX_TOTAL_QUEUED && forall p :: p in q ==> |q[p]| <= MAX_QUEUE_PER_PEER
  }

  ghost predicate Accepts(q: Queues, msg: QueuedMessage) {
    |Held(q)| < MAX_TOTAL_QUEUED && |QueueOf(q, msg.recipientId)| < MAX_QUEUE_PER_PEER
  }

  function Push(q: Queues, msg: QueuedMessage): Queues {
    q[msg.recipientId := QueueOf(q, msg.recipientId) + [msg]]
  }

  lemma PushHeld(q: Queues, msg: QueuedMessage)
    ensures Held(Push(q, msg)) == Held(q) + multiset{msg}
  {
    HeldUpdate(q, msg.recipientId, QueueOf(q, msg.recipientId) + [msg]);
  }

  lemma PushValid(q: Queues, msg: QueuedMessage)
    requires WellRouted(q) && WithinLimits(q) && Accepts(q, msg)
    ensures WellRouted(Push(q, msg)) && WithinLimits(Push(q, msg))
    ensures Held(Push(q, msg)) == Held(q) + multiset{msg}
  {
    hide Held, AllFor;
    PushHeld(q, msg);
    AllForAppend(QueueOf(q, msg.recipientId), msg);
    assert |Held(q) + multiset{msg}| == |Held(q)| + 1;
  }

  lemma AllForAppend(s: seq<QueuedMessage>, msg: QueuedMessage)
    ensures AllFor(s, msg.recipientId) ==> AllFor(s + [msg], msg.recipientId)
    ensures s == [] ==> AllFor(s, msg.recipientId)
  {
  }

  // ----------------------------------------------------------------- flush

  /** The messages whose send attempt, in order, did or did not succeed. */
  function Attempted(s: seq<QueuedMessage>, outcome: nat -> bool, wanted: bool): seq<QueuedMessage> {
    if s == [] then []
    else
      var n := |s| - 1;
      Attempted(s[..n], outcome, wanted) + if outcome(n) == wanted then [s[n]] else []
  }

  lemma AttemptedNext(s: seq<QueuedMessage>, i: nat, outcome: nat -> bool, wanted: bool)
    requires i < |s|
    ensures Attempted(s[..i + 1], outcome, wanted) ==
            if outcome(i) == wanted
            then Attempted(s[..i], outcome, wanted) + [s[i]] else Attempted(s[..i], outcome, wanted)
  {
    assert s[..i + 1][..i] == s[..i];
  }

  lemma AttemptedLast(front: seq<QueuedMessage>, last: QueuedMessage, outcome: nat -> bool, wanted: bool)
    ensures Attempted(front + [last], outcome, wanted) ==
            Attempted(front, outcome, wanted) + if outcome(|front|) == wanted then [last] else []
  {
    assert (front + [last])[..|front|] == front;
  }

  lemma PartitionStep(
    a: seq<QueuedMessage>, b: seq<QueuedMessage>, front: seq<QueuedMessage>, last: QueuedMessage, took: bool)
    requires multiset(a) + multiset(b) == multiset(front)
    ensures multiset(a + (if took then [last] else [])) + multiset(b + (if took then [] else [last])) ==
            multiset(front + [last])
  {
    var m := multiset{last};
    assert multiset(front + [last]) == multiset(front) + m;
    assert a + [] == a && b + [] == b;
    if took {
      assert multiset(a + [last]) == multiset(a) + m;
    } else {
      assert multiset(b + [last]) == multiset(b) + m;
    }
  }

  ghost predicate Parted(s: seq<QueuedMessage>, outcome: nat -> bool) {
    && multiset(Attempted(s, outcome, true)) + multiset(Attempted(s, outcome, false)) == multiset(s)
    && |Attempted(s, outcome, true)| + |Attempted(s, outcome, false)| == |s|
  }

  lemma PartedLast(front: seq<QueuedMessage>, last: QueuedMessage, outcome: nat -> bool)
    requires Parted(front, outcome)
    ensures Parted(front + [last], outcome)
  {
    hide Attempted;
    AttemptedLast(front, last, outcome, true);
    AttemptedLast(front, last, outcome, false);
    PartitionStep(Attempted(front, outcome, true), Attempted(front, outcome, false), front, last, outcome(|front|));
  }

  /** Successes and failures split the queue. */
  lemma AttemptedPartition(s: seq<QueuedMessage>, outcome: nat -> bool)
    ensures multiset(Attempted(s, outcome, true)) + multiset(Attempted(s, outcome, false)) == multiset(s)
    ensures |Attempted(s, outcome, true)| + |Attempted(s, outcome, false)| == |s|
  {
    hide Attempted;
    AlwaysParted(s, outcome);
  }

  lemma {:induction false} AlwaysParted(s: seq<QueuedMessage>, outcome: nat -> bool)
    ensures Parted(s, outcome)
  {
    if s != [] {
      hide Parted;
      var front, last := s[..|s| - 1], s[|s| - 1];
      AlwaysParted(front, outcome);
      PartedLast(front, last, outcome);
      assert s == front + [last];
    }
  }

  lemma AttemptedMember(s: seq<QueuedMessage>, outcome: nat -> bool, wanted: bool, x: QueuedMessage)
    requires x in Attempted(s, outcome, wanted)
    ensures x in s
  {
    if s != [] && x in Attempted(s[..|s| - 1], outcome, wanted) {
      AttemptedMember(s[..|s| - 1], outcome, wanted, x);
    }
  }

  /** Where an attempt went as wanted. */
  ghost function Wanted(n: nat, outcome: nat -> bool, wanted: bool): set<nat> {
    set i | 0 <= i < n && outcome(i) == wanted
  }

  /** `r` holds the messages of `s` whose sending went as wanted, one per attempt and in turn. */
  ghost predicate Selects(s: seq<QueuedMessage>, outcome: nat -> bool, wanted: bool, r: seq<QueuedMessage>) {
    && |r| == |Wanted(|s|, outcome, wanted)|
    && forall i :: 0 <= i < |s| && outcome(i) == wanted ==>
         |Wanted(i, outcome, wanted)| < |r| && r[|Wanted(i, outcome, wanted)|] == s[i]
  }

  lemma WantedNext(n: nat, outcome: nat -> bool, wanted: bool)
    ensures |Wanted(n + 1, outcome, wanted)| ==
            |Wanted(n, outcome, wanted)| + if outcome(n) == wanted then 1 else 0
  {
    var before := Wanted(n, outcome, wanted);
    assert n !in before;
    assert Wanted(n + 1, outcome, wanted) == if outcome(n) == wanted then before + {n} else before;
  }

  lemma SelectsNext(
    front: seq<QueuedMessage>, last: QueuedMessage, outcome: nat -> bool, wanted: bool, r: seq<QueuedMessage>)
    requires Selects(front, outcome, wanted, r)
    ensures Selects(front + [last], outcome, wanted, r + if outcome(|front|) == wanted then [last] else [])
  {
    hide Wanted;
    WantedNext(|front|, outcome, wanted);
  }

  lemma {:induction false} AttemptedSelects(s: seq<QueuedMessage>, outcome: nat -> bool, wanted: bool)
    ensures Selects(s, outcome, wanted, Attempted(s, outcome, wanted))
  {
    if s == [] {
      assert Wanted(0, outcome, wanted) == {};
    } else {
      hide Selects, Wanted;
      var front, last := s[..|s| - 1], s[|s| - 1];
      AttemptedSelects(front, outcome, wanted);
      SelectsNext(front, last, outcome, wanted, Attempted(front, outcome, wanted));
      assert front + [last] == s;
    }
  }

  lemma {:induction false} AttemptedInOrder(s: seq<QueuedMessage>, outcome: nat -> bool, wanted: bool)
    ensures Subsequence(Attempted(s, outcome, wanted), s)
  {
    if s != [] {
      var front := s[..|s| - 1];
      AttemptedInOrder(front, outcome, wanted);
      var r := Attempted(s, outcome, wanted);
      if outcome(|s| - 1) == wanted {
        assert r[..|r| - 1] == Attempted(front, outcome, wanted);
      } else {
        assert r == Attempted(front, outcome, wanted);
      }
    }
  }

  /** The queues with one peer's replaced; an empty queue is dropped. */
  function Requeued(q: Queues, peer: string, failed: seq<QueuedMessage>): Queues {
    if failed == [] then q - {peer} else q[peer := failed]
  }

  /** The queues after a flush: the peer keeps exactly its failed messages. */
  function Flushed(q: Queues, peer: string, outcome: nat -> bool): Queues {
    Requeued(q, peer, Attempted(QueueOf(q, peer), outcome, false))
  }

  lemma RequeuedHeld(q: Queues, peer: string, failed: seq<QueuedMessage>)
    ensures Held(Requeued(q, peer, failed)) == Held(q - {peer}) + multiset(failed)
    ensures Held(q) == Held(q - {peer}) + multiset(QueueOf(q, peer))
    ensures QueueOf(Requeued(q, peer, failed), peer) == failed
  {
    HeldUpdate(q, peer, failed);
  }

  lemma RequeuedValid(q: Queues, peer: string, failed: seq<QueuedMessage>)
    requires WellRouted(q) && WithinLimits(q)
    requires |failed| <= |QueueOf(q, peer)| && forall x :: x in failed ==> x in QueueOf(q, peer)
    ensures WellRouted(Requeued(q, peer, failed)) && WithinLimits(Requeued(q, peer, failed))
  {
    RequeuedHeld(q, peer, failed);
    assert |multiset(failed)| <= |multiset(QueueOf(q, peer))|;
    assert AllFor(QueueOf(q, peer), peer);
    forall i | 0 <= i < |failed|
      ensures failed[i].recipientId == peer
    {
      assert failed[i] in QueueOf(q, peer);
    }
    assert AllFor(failed, peer);
  }

  /**
   A flush conserves messages, touches no other peer's queue and keeps the failed ones in order.
   */
  lemma FlushConserves(q: Queues, peer: string, outcome: nat -> bool)
    requires WellRouted(q) && WithinLimits(q)
    ensures Held(q) == Held(Flushed(q, peer, outcome)) + multiset(Attempted(QueueOf(q, peer), outcome, true))
    ensures forall p :: p != peer ==> QueueOf(Flushed(q, peer, outcome), p) == QueueOf(q, p)
    ensures Subsequence(QueueOf(Flushed(q, peer, outcome), peer), QueueOf(q, peer))
    ensures WellRouted(Flushed(q, peer, outcome)) && WithinLimits(Flushed(q, peer, outcome))
  {
    hide WellRouted, WithinLimits, Held, Subsequence, Attempted;
    var s := QueueOf(q, peer);
    var failed := Attempted(s, outcome, false);
    AttemptedPartition(s, outcome);
    AttemptedInOrder(s, outcome, false);
    RequeuedHeld(q, peer, failed);
    forall x | x in failed
      ensures x in s
    {
      AttemptedMember(s, outcome, false, x);
    }
    RequeuedValid(q, peer, failed);
  }

  // ------------------------------------------------------------------ runs

  /** The daemon's view: queues, connected peers, what was ever accepted, in order, and what was sent. */
  datatype Daemon = Daemon(
    queues: Queues,
    peers: set<string>,
    accepted: seq<QueuedMessage>,
    sent: multiset<QueuedMessage>)

  datatype Event =
    | Queue(msg: QueuedMessage)
    | PeerDiscovered(peer: string, outcome: nat -> bool)
    | PeerDisconnected(peer: string)

  ghost function Step(d: Daemon, e: Event): Daemon {
    match e
    case Queue(msg) =>
      if Accepts(d.queues, msg) then d.(queues := Push(d.queues, msg), accepted := d.accepted + [msg]) else d
    case PeerDiscovered(p, outcome) =>
      if p in d.peers then d
      else
        d.(peers := d.peers + {p},
           queues := Flushed(d.queues, p, outcome),
           sent := d.sent + multiset(Attempted(QueueOf(d.queues, p), outcome, true)))
    case PeerDisconnected(p) => d.(peers := d.peers - {p})
  }

  ghost function Run(events: seq<Event>): Daemon {
    if events == [] then Daemon(map[], {}, [], multiset{})
    else Step(Run(events[..|events| - 1]), events[|events| - 1])
  }

  ghost predicate Conserved(d: Daemon) {
    WellRouted(d.queues) && WithinLimits(d.queues) && multiset(d.accepted) == d.sent + Held(d.queues)
  }

  lemma StepConserves(d: Daemon, e: Event)
    requires Conserved(d)
    ensures Conserved(Step(d, e))
  {
    hide Held, Flushed, Attempted, Subsequence, Push, WellRouted, WithinLimits;
    match e
    case Queue(msg) =>
      if Accepts(d.queues, msg) {
        PushValid(d.queues, msg);
      }
    case PeerDiscovered(p, outcome) => FlushConserves(d.queues, p, outcome);
    case PeerDisconnected(p) =>
  }

  /** In every run, every message accepted was sent successfully once or is still held. */
  lemma {:induction false} NoMessageIsLost(events: seq<Event>)
    ensures Conserved(Run(events))
  {
    hide Conserved, Step;
    if events == [] {
      NothingQueued();
    } else {
      NoMessageIsLost(events[..|events| - 1]);
      StepConserves(Run(events[..|events| - 1]), events[|events| - 1]);
    }
  }

  lemma NothingQueued()
    ensures Conserved(Daemon(map[], {}, [], multiset{}))
  {
  }

  function AddressedTo(peer: string): QueuedMessage -> bool {
    (m: QueuedMessage) => m.recipientId == peer
  }

  /** Each queue lists its messages in the order they were accepted. */
  ghost predicate InAcceptanceOrder(d: Daemon) {
    forall p :: Subsequence(QueueOf(d.queues, p), Filter(AddressedTo(p), d.accepted))
  }

  lemma StepKeepsOrder(d: Daemon, e: Event)
    requires Conserved(d) && InAcceptanceOrder(d)
    ensures InAcceptanceOrder(Step(d, e))
  {
    hide Held, Flushed, Attempted, Subsequence, WellRouted, WithinLimits, Accepts, Filter;
    forall p
      ensures Subsequence(QueueOf(Step(d, e).queues, p), Filter(AddressedTo(p), Step(d, e).accepted))
    {
      var kept, log := QueueOf(d.queues, p), Filter(AddressedTo(p), d.accepted);
      assert Subsequence(kept, log);
      if e.Queue? {
        FilterAppend(AddressedTo(p), d.accepted, e.msg);
        SubsequenceGrows(kept, log, e.msg);
      } else if e.PeerDiscovered? {
        FlushConserves(d.queues, e.peer, e.outcome);
        if p == e.peer {
          SubsequenceTransitive(QueueOf(Flushed(d.queues, p, e.outcome), p), kept, log);
        }
      }
    }
  }

  /** Failed sends and re-enqueues never reorder a peer's messages. */
  lemma {:induction false} OrderIsKept(events: seq<Event>)
    ensures InAcceptanceOrder(Run(events))
  {
    if events != [] {
      hide Conserved, InAcceptanceOrder, Step;
      NoMessageIsLost(events[..|events| - 1]);
      OrderIsKept(events[..|events| - 1]);
      StepKeepsOrder(Run(events[..|events| - 1]), events[|events| - 1]);
    }
  }

  /**
   A newly discovered peer is left with exactly the messages whose sending failed and was sent the
   others; for one already connected nothing happens.
   */
  lemma DiscoveryDelivers(d: Daemon, peer: string, outcome: nat -> bool)
    ensures var e, queue := Step(d, PeerDiscovered(peer, outcome)), QueueOf(d.queues, peer);
            && peer in e.peers && e.accepted == d.accepted
            && (peer in d.peers ==> e == d)
            && (peer !in d.peers ==>
                  && Selects(queue, outcome, false, QueueOf(e.queues, peer))
                  && exists sent :: Selects(queue, outcome, true, sent) && e.sent == d.sent + multiset(sent))
  {
    hide Attempted, Selects;
    var queue := QueueOf(d.queues, peer);
    AttemptedSelects(queue, outcome, true);
    AttemptedSelects(queue, outcome, false);
  }

  // ---------------------------------------------------- removal and expiry

  ghost predicate Queued(q: Queues, peer: string, i: int) {
    peer in q && 0 <= i < |q[peer]|
  }

  ghost predicate HoldsId(q: Queues, id: string) {
    exists p, i :: Queued(q, p, i) && q[p][i].messageId == id
  }

  /** The first message called `id` in `peer`'s queue. */
  ghost predicate FirstWithId(q: Queues, peer: string, i: int, id: string) {
    Queued(q, peer, i) && q[peer][i].messageId == id && forall j :: 0 <= j < i ==> q[peer][j].messageId != id
  }

  /** One message taken out; its queue stays behind even when empty. */
  function Without(q: Queues, peer: string, i: int): Queues
    requires peer in q && 0 <= i < |q[peer]|
  {
    q[peer := q[peer][..i] + q[peer][i + 1..]]
  }

  /** One first match of `id` taken out of `q`, if it holds one. */
  ghost predicate Removed(q: Queues, id: string, r: Queues) {
    if HoldsId(q, id) then exists p, i :: FirstWithId(q, p, i, id) && r == Without(q, p, i) else r == q
  }

  lemma TakeOut(s: seq<QueuedMessage>, i: nat, peer: string)
    requires i < |s|
    ensures multiset(s) == multiset(s[..i] + s[i + 1..]) + multiset{s[i]}
    ensures AllFor(s, peer) ==> AllFor(s[..i] + s[i + 1..], peer)
  {
    assert s == s[..i] + [s[i]] + s[i + 1..];
  }

  lemma WithoutValid(q: Queues, peer: string, i: int)
    requires Queued(q, peer, i) && WellRouted(q) && WithinLimits(q)
    ensures Held(q) == Held(Without(q, peer, i)) + multiset{q[peer][i]}
    ensures WellRouted(Without(q, peer, i)) && WithinLimits(Without(q, peer, i))
  {
    hide AllFor, Held;
    HeldUpdate(q, peer, q[peer][..i] + q[peer][i + 1..]);
    TakeOut(q[peer], i, peer);
  }

  /** Ages are saturating differences: a message from the future is age 0. */
  function Unexpired(now: nat, maxAge: nat): QueuedMessage -> bool {
    (m: QueuedMessage) => (if m.queuedAt < now then now - m.queuedAt else 0) < maxAge
  }

  function Pruned(q: Queues, keep: QueuedMessage -> bool): Queues {
    map p | p in q && Filter(keep, q[p]) != [] :: Filter(keep, q[p])
  }

  /** `r` holds the messages of `q` that are younger than `maxAge` at `now`, each still under its peer. */
  ghost predicate YoungOnly(q: Queues, now: nat, maxAge: nat, r: Queues) {
    forall p, m :: p in r && m in r[p] <==> p in q && m in q[p] && now < m.queuedAt + maxAge && maxAge > 0
  }

  lemma PrunedAreYoung(q: Queues, now: nat, maxAge: nat)
    ensures YoungOnly(q, now, maxAge, Pruned(q, Unexpired(now, maxAge)))
  {
    hide Filter;
    var keep := Unexpired(now, maxAge);
    forall p, m
      ensures p in Pruned(q, keep) && m in Pruned(q, keep)[p] <==>
              p in q && m in q[p] && now < m.queuedAt + maxAge && maxAge > 0
    {
      if p in q {
        FilterMember(keep, q[p], m);
        assert m in Filter(keep, q[p]) ==> Filter(keep, q[p]) != [];
      }
    }
  }

  lemma FilterAllFor(keep: QueuedMessage -> bool, s: seq<QueuedMessage>, peer: string)
    requires AllFor(s, peer)
    ensures AllFor(Filter(keep, s), peer)
  {
    var r := Filter(keep, s);
    forall i | 0 <= i < |r|
      ensures r[i].recipientId == peer
    {
      FilterMember(keep, s, r[i]);
      assert r[i] in s;
    }
  }

  /** Some queues pruned, none dropped yet. */
  ghost predicate PrunedOn(q: Queues, keep: QueuedMessage -> bool, done: set<string>, r: Queues) {
    r.Keys == q.Keys && forall p :: p in q ==> r[p] == if p in done then Filter(keep, q[p]) else q[p]
  }

  // ------------------------------------------------------------ the object

  class MemoryOutbox {
    var queues: Queues
    var total: nat

    ghost predicate Valid()
      reads this
    {
      WellRouted(queues) && WithinLimits(queues) && total == |Held(queues)|
    }

    constructor ()
      ensures Valid() && queues == map[]
    {
      queues := map[];
      total := 0;
    }

    method Enqueue(msg: QueuedMessage) returns (ok: bool)
      requires Valid()
      modifies this
      ensures Valid()
      ensures ok == Accepts(old(queues), msg)
      ensures ok <==> |Held(old(queues))| < 10_000 && |QueueOf(old(queues), msg.recipientId)| < 1000
      ensures queues == if ok then Push(old(queues), msg) else old(queues)
    {
      if total >= MAX_TOTAL_QUEUED {
        return false;
      }
      var queue := QueueOf(queues, msg.recipientId);
      if |queue| >= MAX_QUEUE_PER_PEER {
        return false;
      }
      PushValid(queues, msg);
      queues := queues[msg.recipientId := queue + [msg]];
      total := total + 1;
      return true;
    }

    method DrainForPeer(peer: string) returns (drained: seq<QueuedMessage>)
      requires Valid()
      modifies this
      ensures Valid()
      ensures drained == QueueOf(old(queues), peer) && queues == old(queues) - {peer}
    {
      HeldUpdate(queues, peer, []);
      if peer in queues {
        drained := queues[peer];
        queues := queues - {peer};
        total := total - |drained|;
      } else {
        drained := [];
        assert queues - {peer} == queues;
      }
    }

    /** Queues are visited in any order; the first match of the first queue holding one goes. */
    method Remove(id: string) returns (ok: bool)
      requires Valid()
      modifies this
      ensures Valid()
      ensures ok == HoldsId(old(queues), id)
      ensures Removed(old(queues), id, queues)
    {
      var pending := queues.Keys;
      while pending != {}
        invariant pending <= queues.Keys && queues == old(queues) && total == old(total)
        invariant forall p, j :: p !in pending && Queued(queues, p, j) ==> queues[p][j].messageId != id
        decreases pending
      {
        var p :| p in pending;
        pending := pending - {p};
        var i := 0;
        while i < |queues[p]| && queues[p][i].messageId != id
          invariant i <= |queues[p]| && forall j :: 0 <= j < i ==> queues[p][j].messageId != id
        {
          i := i + 1;
        }
        if i < |queues[p]| {
          assert FirstWithId(queues, p, i, id);
          WithoutValid(queues, p, i);
          queues := Without(queues, p, i);
          total := total - 1;
          return true;
        }
      }
      return false;
    }

    method RemoveExpired(now: nat, maxAge: nat) returns (removed: nat)
      requires Valid()
      modifies this
      ensures Valid()
      ensures queues == Pruned(old(queues), Unexpired(now, maxAge))
      ensures YoungOnly(old(queues), now, maxAge, queues)
      ensures removed == |Held(old(queues))| - |Held(queues)|
    {
      hide Held, WellRouted, WithinLimits, Unexpired, Filter, YoungOnly;
      ghost var q := queues;
      var keep := Unexpired(now, maxAge);
      var pending := queues.Keys;
      removed := 0;
      while pending != {}
        invariant pending <= q.Keys && PrunedOn(q, keep, q.Keys - pending, queues)
        invariant WellRouted(queues) && WithinLimits(queues)
        invariant |Held(queues)| + removed == |Held(q)| && total == |Held(q)|
        decreases pending
      {
        var p :| p in pending;
        pending := pending - {p};
        var kept := Filter(keep, queues[p]);
        PruneStep(queues, p, keep);
        removed := removed + (|queues[p]| - |kept|);
        queues := queues[p := kept];
      }
      total := total - removed;
      DropEmptyValid(queues);
      queues := DropEmpty(queues);
      assert queues == Pruned(q, keep);
      PrunedAreYoung(q, now, maxAge);
    }

    /** Every re-enqueue fits, because its place was freed by the drain. */
    method Flush(peer: string, outcome: nat -> bool) returns (sent: seq<QueuedMessage>)
      requires Valid()
      modifies this
      ensures Valid()
      ensures queues == Flushed(old(queues), peer, outcome)
      ensures sent == Attempted(QueueOf(old(queues), peer), outcome, true)
      ensures Selects(QueueOf(old(queues), peer), outcome, true, sent)
      ensures Selects(QueueOf(old(queues), peer), outcome, false, QueueOf(queues, peer))
    {
      AttemptedSelects(QueueOf(queues, peer), outcome, true);
      AttemptedSelects(QueueOf(queues, peer), outcome, false);
      hide Selects;
      ghost var q := queues;
      var drained := DrainForPeer(peer);
      sent := [];
      for i := 0 to |drained|
        invariant Valid() && sent == Attempted(drained[..i], outcome, true)
        invariant queues == Requeued(q, peer, Attempted(drained[..i], outcome, false))
      {
        AttemptedNext(drained, i, outcome, true);
        AttemptedNext(drained, i, outcome, false);
        if outcome(i) {
          sent := sent + [drained[i]];
        } else {
          AttemptedPartition(drained[..i], outcome);
          RequeueFits(q, peer, Attempted(drained[..i], outcome, false), drained[i]);
          var ok := Enqueue(drained[i]);
        }
      }
      assert drained[..|drained|] == drained;
    }
  }

  lemma PruneStep(q: Queues, peer: string, keep: QueuedMessage -> bool)
    requires peer in q && WellRouted(q) && WithinLimits(q)
    ensures |Filter(keep, q[peer])| <= |q[peer]|
    ensures WellRouted(q[peer := Filter(keep, q[peer])]) && WithinLimits(q[peer := Filter(keep, q[peer])])
    ensures |Held(q[peer := Filter(keep, q[peer])])| + |q[peer]| == |Held(q)| + |Filter(keep, q[peer])|
  {
    hide AllFor, Held;
    FilterLength(keep, q[peer]);
    FilterAllFor(keep, q[peer], peer);
    HeldUpdate(q, peer, Filter(keep, q[peer]));
  }

  function DropEmpty(q: Queues): Queues {
    map p | p in q && q[p] != [] :: q[p]
  }

  lemma {:induction false} DropEmptyHeld(q: Queues)
    ensures Held(DropEmpty(q)) == Held(q)
    decreases |q|
  {
    if p :| p in q && q[p] == [] {
      HeldRemove(q, p);
      DropEmptyHeld(q - {p});
      assert DropEmpty(q) == DropEmpty(q - {p});
    } else {
      assert DropEmpty(q) == q;
    }
  }

  /** Dropping empty queues drops no message. */
  lemma DropEmptyValid(q: Queues)
    requires WellRouted(q) && WithinLimits(q)
    ensures WellRouted(DropEmpty(q)) && WithinLimits(DropEmpty(q)) && Held(DropEmpty(q)) == Held(q)
  {
    DropEmptyHeld(q);
  }

  /** The place freed by draining is there when a failed message comes back. */
  lemma RequeueFits(q: Queues, peer: string, failed: seq<QueuedMessage>, msg: QueuedMessage)
    requires WithinLimits(q) && msg.recipientId == peer && |failed| < |QueueOf(q, peer)|
    ensures Accepts(Requeued(q, peer, failed), msg)
    ensures Push(Requeued(q, peer, failed), msg) == Requeued(q, peer, failed + [msg])
  {
    RequeuedHeld(q, peer, failed);
    assert |multiset(failed)| < |multiset(QueueOf(q, peer))|;
  }
}
