/**
 The connection ledger (cli/src/ledger.rs, `ConnectionLedger`): entries keyed by
 stripped multiaddress, fed by local events and by gossip from other nodes.
 */
module Ledger {
  import opened Sequences
  import opened Multiaddr
  import opened Text
  import opened LedgerEntry

  type Entries = map<string, LedgerEntry>

  datatype SharedPeerEntry = SharedPeerEntry(
    multiaddr: string,
    lastPeerId: Option<string>,
    lastSeen: nat,
    knownTopics: seq<string>)

  const SEVEN_DAYS: nat := 7 * 24 * 3600

  // ------------------------------------------------------------ operations

  function AddBootstrap(m: Entries, addr: string, localPeerId: Option<string>, now: nat): Entries {
    if localPeerId.Some? && Contains(addr, localPeerId.value) then m
    else
      var k := Strip(addr);
      if k in m then m[k := m[k].(isBootstrap := true)]
      else m[k := NewEntry(k, true, now).(displayLabel := Some(BootstrapLabel(|m| + 1)))]
  }

  function RecordConnection(m: Entries, addr: string, peerId: string, now: nat): Entries {
    var k := Strip(addr);
    m[k := RecordSuccess(if k in m then m[k] else NewEntry(k, false, now), peerId, now)]
  }

  function RecordTopic(m: Entries, addr: string, topic: string): Entries {
    var k := Strip(addr);
    if k in m then m[k := m[k].(knownTopics := PushNew(m[k].knownTopics, topic))] else m
  }

  function RecordFailureAt(m: Entries, addr: string, now: nat): Entries {
    var k := Strip(addr);
    if k in m then m[k := RecordFailure(m[k], now)] else m
  }

  function PushAll(s: seq<string>, xs: seq<string>): seq<string> {
    if xs == [] then s else PushNew(PushAll(s, xs[..|xs| - 1]), xs[|xs| - 1])
  }

  /** What gossip does to an entry already known. */
  function Refresh(e: LedgerEntry, s: SharedPeerEntry): LedgerEntry {
    e.(lastSeen := Max(e.lastSeen, s.lastSeen),
       lastPeerId := if e.lastPeerId.None? then s.lastPeerId else e.lastPeerId,
       knownTopics := PushAll(e.knownTopics, s.knownTopics))
  }

  /** What gossip makes of an unknown address. */
  function Learn(k: string, s: SharedPeerEntry, now: nat): LedgerEntry {
    NewEntry(k, false, now).(
      lastPeerId := s.lastPeerId,
      lastSeen := s.lastSeen,
      knownTopics := s.knownTopics,
      observedPeerIds := if s.lastPeerId.Some? then [s.lastPeerId.value] else [],
      displayLabel := Some(DiscoveredViaPeer))
  }

  function MergeOne(m: Entries, s: SharedPeerEntry, now: nat): Entries {
    var k := Strip(s.multiaddr);
    m[k := if k in m then Refresh(m[k], s) else Learn(k, s, now)]
  }

  function MergeAll(m: Entries, shared: seq<SharedPeerEntry>, now: nat): Entries {
    if shared == [] then m else MergeOne(MergeAll(m, shared[..|shared| - 1], now), shared[|shared| - 1], now)
  }

  predicate Shareable(e: LedgerEntry, now: nat) {
    e.lastSeen >= Max(now - SEVEN_DAYS, 0) || e.isBootstrap
  }

  function ToShared(e: LedgerEntry): SharedPeerEntry {
    SharedPeerEntry(e.multiaddr, e.lastPeerId, e.lastSeen, e.knownTopics)
  }

  // ------------------------------------------------------------------ runs

  datatype Event =
    | Bootstrapped(addr: string, localPeerId: Option<string>)
    | Connected(addr: string, peerId: string)
    | TopicSeen(addr: string, topic: string)
    | Failed(addr: string)
    | Gossip(shared: seq<SharedPeerEntry>)

  function Apply(m: Entries, e: Event, now: nat): Entries {
    match e
    case Bootstrapped(addr, localId) => AddBootstrap(m, addr, localId, now)
    case Connected(addr, peerId) => RecordConnection(m, addr, peerId, now)
    case TopicSeen(addr, topic) => RecordTopic(m, addr, topic)
    case Failed(addr) => RecordFailureAt(m, addr, now)
    case Gossip(shared) => MergeAll(m, shared, now)
  }

  /** The ledger after a history of events, each with the time it happened. */
  function History(events: seq<(Event, nat)>): Entries {
    if events == [] then map[]
    else
      var (e, now) := events[|events| - 1];
      Apply(History(events[..|events| - 1]), e, now)
  }

  ghost predicate GoodEntry(k: string, e: LedgerEntry) {
    Strip(k) == k && e.multiaddr == k && BackoffIsIdeal(e)
  }

  ghost predicate Good(m: Entries) {
    forall k :: k in m ==> GoodEntry(k, m[k])
  }

  lemma PutGood(m: Entries, k: string, e: LedgerEntry)
    requires Good(m) && GoodEntry(k, e)
    ensures Good(m[k := e])
  {
  }

  lemma MergeOneGood(m: Entries, s: SharedPeerEntry, now: nat)
    requires Good(m)
    ensures Good(MergeOne(m, s, now))
  {
    StripIdempotent(s.multiaddr);
    var k := Strip(s.multiaddr);
    PutGood(m, k, if k in m then Refresh(m[k], s) else Learn(k, s, now));
  }

  lemma MergeAllGood(m: Entries, shared: seq<SharedPeerEntry>, now: nat)
    requires Good(m)
    ensures Good(MergeAll(m, shared, now))
  {
    hide Good;
    if shared != [] {
      MergeAllGood(m, shared[..|shared| - 1], now);
      MergeOneGood(MergeAll(m, shared[..|shared| - 1], now), shared[|shared| - 1], now);
    }
  }

  lemma ApplyGood(m: Entries, e: Event, now: nat)
    requires Good(m)
    ensures Good(Apply(m, e, now))
  {
    match e
    case Bootstrapped(addr, _) => StripIdempotent(addr);
    case Connected(addr, _) => StripIdempotent(addr);
    case TopicSeen(addr, _) =>
    case Failed(addr) =>
      if Strip(addr) in m {
        FailureKeepsIdeal(m[Strip(addr)], now);
      }
    case Gossip(shared) => MergeAllGood(m, shared, now);
  }

  /**
   Over every history: each key is a stripped address equal to its entry's multiaddr, and each
   entry's backoff is 0 exactly when it has no failures, else the ideal min(5*2^(n-1), 300).
   */
  lemma {:induction false} EveryHistoryIsGood(events: seq<(Event, nat)>)
    ensures Good(History(events))
    ensures forall k :: k in History(events) ==>
              (History(events)[k].backoffSeconds == 0 <==> History(events)[k].consecutiveFailures == 0)
  {
    if events != [] {
      EveryHistoryIsGood(events[..|events| - 1]);
      var (e, now) := events[|events| - 1];
      ApplyGood(History(events[..|events| - 1]), e, now);
    }
    forall k | k in History(events)
      ensures History(events)[k].backoffSeconds == 0 <==> History(events)[k].consecutiveFailures == 0
    {
      var n := History(events)[k].consecutiveFailures;
      assert GoodEntry(k, History(events)[k]);
      if n > 0 {
        ClampIsInvisible(n);
      }
    }
  }
}
