/**
 How often an address is tried (cli/src/ledger.rs): the spacing of its failures in a whole ledger
 history, with gossip, topics, bootstrap marks and other addresses' events in between.
 */
module LedgerPacing {
  import opened Sequences
  import opened Multiaddr
  import opened LedgerEntry
  import opened Ledger
  import opened LedgerGossip

  type Log = seq<(Event, nat)>

  predicate FailsAt(e: Event, k: string) {
    e.Failed? && Strip(e.addr) == k
  }

  predicate ConnectsTo(e: Event, k: string) {
    e.Connected? && Strip(e.addr) == k
  }

  /** When `k` failed, in order. */
  function FailTimes(log: Log, k: string): seq<nat> {
    if log == [] then []
    else
      var (e, now) := log[|log| - 1];
      FailTimes(log[..|log| - 1], k) + if FailsAt(e, k) then [now] else []
  }

  /** `log` is a streak for `k`: no connection to it, and it fails only when an attempt is due. */
  ghost predicate Streak(before: Log, log: Log, k: string) {
    log != [] ==>
      var front, last := log[..|log| - 1], log[|log| - 1];
      && Streak(before, front, k) && !ConnectsTo(last.0, k)
      && (FailsAt(last.0, k) ==>
            k in History(before + front) && ShouldAttempt(History(before + front)[k], last.1))
  }

  /** The fields that decide when to try again. */
  function Pace(e: LedgerEntry): (nat, nat) {
    (e.consecutiveFailures, e.nextAttemptAfter)
  }

  /** An event that is neither a failure of `k` nor a connection to it leaves its pace alone. */
  lemma OtherEventsKeepPace(m: Entries, e: Event, now: nat, k: string)
    requires k in m && !FailsAt(e, k) && !ConnectsTo(e, k)
    ensures k in Apply(m, e, now) && Pace(Apply(m, e, now)[k]) == Pace(m[k])
  {
    hide Strip, MergeAll;
    if e.Gossip? {
      GossipKeepsPrivateState(m, e.shared, now, k);
    }
  }

  lemma FailureSetsPace(a: LedgerEntry, b: LedgerEntry, now: nat)
    requires Pace(a) == Pace(b)
    ensures Pace(RecordFailure(a, now)) == Pace(RecordFailure(b, now))
  {
  }

  lemma HistoryNext(before: Log, log: Log)
    requires log != []
    ensures var front, last := log[..|log| - 1], log[|log| - 1];
            History(before + log) == Apply(History(before + front), last.0, last.1)
  {
    var all := before + log;
    assert all[..|all| - 1] == before + log[..|log| - 1];
  }

  /** Through a streak the pace is that of the bare failures. */
  lemma {:induction false} PaceOfStreak(before: Log, log: Log, k: string)
    requires k in History(before) && Streak(before, log, k)
    ensures k in History(before + log)
    ensures Pace(History(before + log)[k]) == Pace(FailAt(History(before)[k], FailTimes(log, k)))
  {
    if log == [] {
      assert before + log == before;
    } else {
      hide Strip, Apply, RecordFailure, Pace, ShouldAttempt;
      var front, last := log[..|log| - 1], log[|log| - 1];
      PaceOfStreak(before, front, k);
      HistoryNext(before, log);
      var m, times := History(before + front), FailTimes(front, k);
      if FailsAt(last.0, k) {
        FailureSetsPace(m[k], FailAt(History(before)[k], times), last.1);
        assert (times + [last.1])[..|times|] == times;
        ApplyFailure(m, last.0, last.1, k);
      } else {
        assert times + [] == times;
        OtherEventsKeepPace(m, last.0, last.1, k);
      }
    }
  }

  lemma ApplyFailure(m: Entries, e: Event, now: nat, k: string)
    requires k in m && FailsAt(e, k)
    ensures k in Apply(m, e, now) && Apply(m, e, now)[k] == RecordFailure(m[k], now)
  {
    hide Strip;
  }

  lemma SamePaceSameAttempt(a: LedgerEntry, b: LedgerEntry, now: nat)
    requires Pace(a) == Pace(b)
    ensures ShouldAttempt(a, now) <==> ShouldAttempt(b, now)
  {
  }

  lemma {:induction false} StreakIsPaced(before: Log, log: Log, k: string)
    requires k in History(before) && Streak(before, log, k)
    ensures Paced(History(before)[k], FailTimes(log, k))
  {
    if log != [] {
      hide Strip, Apply, ShouldAttempt, Pace, History;
      var front, last := log[..|log| - 1], log[|log| - 1];
      StreakIsPaced(before, front, k);
      var e, times := History(before)[k], FailTimes(front, k);
      if FailsAt(last.0, k) {
        PaceOfStreak(before, front, k);
        SamePaceSameAttempt(History(before + front)[k], FailAt(e, times), last.1);
        assert (times + [last.1])[..|times|] == times;
      } else {
        assert times + [] == times;
      }
    }
  }

  /**
   In any ledger history, from a moment when an address has no failures on record until it is next
   reached, its n-th failure comes at least 5*(2^(n-1)-1) seconds after the first, and 315+300*(n-7)
   from the seventh on, whatever else the ledger hears in between.
   */
  lemma FailuresArePacedInHistory(before: Log, log: Log, k: string)
    requires k in History(before) && History(before)[k].consecutiveFailures == 0 && Streak(before, log, k)
    requires var times := FailTimes(log, k);
             times != [] && forall i :: 0 <= i < |times| - 1 ==> times[i] + MAX_BACKOFF <= U64_MAX
    ensures var times := FailTimes(log, k);
            times[|times| - 1] >= times[0] + LeastSpan(|times|)
  {
    StreakIsPaced(before, log, k);
    FailuresArePaced(History(before)[k], FailTimes(log, k));
  }

  /** A connection starts every streak anew: afterwards the address is due at once and on record as seen. */
  lemma ConnectionEndsStreak(before: Log, addr: string, peerId: string, now: nat)
    ensures var m, k := History(before + [(Connected(addr, peerId), now)]), Strip(addr);
            k in m && m[k].consecutiveFailures == 0 && ShouldAttempt(m[k], now) && m[k].lastSeen == now
  {
    hide Strip;
    var log := [(Connected(addr, peerId), now)];
    HistoryNext(before, log);
    assert before + log[..0] == before;
  }
}
