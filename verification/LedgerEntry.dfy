/**
 One entry of the connection ledger and its dial backoff (cli/src/ledger.rs,
 `LedgerEntry`). Clocks are parameters; u32 and u64 saturation is written out.
 */
module LedgerEntry {
  import opened Sequences

  const U32_MAX: nat := 0xFFFF_FFFF
  const U64_MAX: nat := 0xFFFF_FFFF_FFFF_FFFF
  const MAX_BACKOFF: nat := 300

  datatype Label = BootstrapLabel(number: nat) | DiscoveredViaPeer

  datatype LedgerEntry = LedgerEntry(
    multiaddr: string,
    lastPeerId: Option<string>,
    observedPeerIds: seq<string>,
    lastSeen: nat,
    firstSeen: nat,
    consecutiveFailures: nat,
    backoffSeconds: nat,
    nextAttemptAfter: nat,
    isBootstrap: bool,
    knownTopics: seq<string>,
    displayLabel: Option<Label>)

  function PushNew(s: seq<string>, x: string): seq<string> {
    if x in s then s else s + [x]
  }

  function NewEntry(multiaddr: string, isBootstrap: bool, now: nat): LedgerEntry {
    LedgerEntry(multiaddr, None, [], now, now, 0, 0, 0, isBootstrap, [], None)
  }

  function RecordSuccess(e: LedgerEntry, peerId: string, now: nat): LedgerEntry {
    e.(lastPeerId := Some(peerId),
       observedPeerIds := PushNew(e.observedPeerIds, peerId),
       lastSeen := now,
       consecutiveFailures := 0,
       backoffSeconds := 0,
       nextAttemptAfter := 0)
  }

  function RecordFailure(e: LedgerEntry, now: nat): LedgerEntry {
    var failures := Min(e.consecutiveFailures + 1, U32_MAX);
    var exponent := Min(failures - 1, 6);
    var backoff := Min(Min(5 * Pow2(exponent), U64_MAX), MAX_BACKOFF);
    e.(consecutiveFailures := failures,
       backoffSeconds := backoff,
       nextAttemptAfter := Min(now + backoff, U64_MAX))
  }

  predicate ShouldAttempt(e: LedgerEntry, now: nat) {
    now >= e.nextAttemptAfter
  }

  // --------------------------------------------------------------- backoff

  /** The documented schedule: 5 s doubling per consecutive failure, capped at 5 minutes. */
  function IdealBackoff(failures: nat): nat {
    if failures == 0 then 0 else Min(5 * Pow2(failures - 1), MAX_BACKOFF)
  }

  ghost predicate BackoffIsIdeal(e: LedgerEntry) {
    && e.consecutiveFailures <= U32_MAX
    && e.backoffSeconds == IdealBackoff(e.consecutiveFailures)
    && (e.consecutiveFailures == 0 ==> e.nextAttemptAfter == 0)
  }

  lemma Pow2Grows(n: nat)
    requires n >= 6
    ensures Pow2(n) >= 64
  {
    if n == 6 {
      assert Pow2(3) == 8;
    } else {
      Pow2Grows(n - 1);
    }
  }

  /** Clamping the exponent at 6 and saturating the counter never change the capped schedule. */
  lemma ClampIsInvisible(failures: nat)
    requires 1 <= failures
    ensures Min(Min(5 * Pow2(Min(failures - 1, 6)), U64_MAX), MAX_BACKOFF) == IdealBackoff(failures)
    ensures 5 <= IdealBackoff(failures) <= MAX_BACKOFF
  {
    Pow2Grows(6);
    if failures - 1 > 6 {
      Pow2Grows(failures - 1);
    } else {
      SmallPowers();
    }
  }

  lemma SmallPowers()
    ensures Pow2(0) == 1 && Pow2(1) == 2 && Pow2(2) == 4 && Pow2(3) == 8
    ensures Pow2(4) == 16 && Pow2(5) == 32 && Pow2(6) == 64
  {
  }

  lemma FailureKeepsIdeal(e: LedgerEntry, now: nat)
    requires BackoffIsIdeal(e)
    ensures BackoffIsIdeal(RecordFailure(e, now))
    ensures RecordFailure(e, now).backoffSeconds > 0
    ensures forall later: nat :: ShouldAttempt(RecordFailure(e, now), later) <==>
              later >= Min(now + IdealBackoff(Min(e.consecutiveFailures + 1, U32_MAX)), U64_MAX)
  {
    ClampIsInvisible(RecordFailure(e, now).consecutiveFailures);
  }

  // ---------------------------------------------------------------- pacing

  /** The entry after failing at each of `times` in turn. */
  function FailAt(e: LedgerEntry, times: seq<nat>): LedgerEntry {
    if times == [] then e else RecordFailure(FailAt(e, times[..|times| - 1]), times[|times| - 1])
  }

  /** Every failure happened at a moment when an attempt was allowed. */
  ghost predicate Paced(e: LedgerEntry, times: seq<nat>) {
    times != [] ==>
      && Paced(e, times[..|times| - 1])
      && ShouldAttempt(FailAt(e, times[..|times| - 1]), times[|times| - 1])
  }

  /** The least time from the first to the n-th consecutive failure. */
  function LeastSpan(n: nat): int
    requires n >= 1
  {
    if n <= 7 then 5 * (Pow2(n - 1) - 1) else 315 + 300 * (n - 7)
  }

  lemma FailuresCounted(e: LedgerEntry, times: seq<nat>)
    requires e.consecutiveFailures == 0
    ensures FailAt(e, times).consecutiveFailures == Min(|times|, U32_MAX)
  {
  }

  /** A saturated counter still means the full five minutes. */
  lemma SaturationIsInvisible(n: nat)
    ensures IdealBackoff(Min(n, U32_MAX)) == IdealBackoff(n)
  {
    if n > U32_MAX {
      Pow2Grows(n - 1);
      Pow2Grows(U32_MAX - 1);
    }
  }

  lemma SpanStep(n: nat)
    requires n >= 1
    ensures LeastSpan(n + 1) == LeastSpan(n) + IdealBackoff(n)
  {
    SmallPowers();
    if n >= 7 {
      Pow2Grows(n - 1);
      assert Pow2(n - 1) >= 64;
    }
  }

  /**
   If attempts respect the backoff, the n-th consecutive failure comes at least
   5*(2^(n-1)-1) seconds after the first for n <= 7 and 315+300*(n-7) after that.
   */
  lemma {:induction false} FailuresArePaced(e: LedgerEntry, times: seq<nat>)
    requires e.consecutiveFailures == 0 && 1 <= |times|
    requires Paced(e, times)
    requires forall i :: 0 <= i < |times| - 1 ==> times[i] + MAX_BACKOFF <= U64_MAX
    ensures times[|times| - 1] >= times[0] + LeastSpan(|times|)
  {
    var n := |times|;
    if n == 1 {
      SmallPowers();
    } else {
      var front := times[..n - 1];
      FailuresArePaced(e, front);
      BackoffAfter(e, front);
      SpanStep(n - 1);
    }
  }

  lemma BackoffAfter(e: LedgerEntry, times: seq<nat>)
    requires e.consecutiveFailures == 0 && times != []
    ensures FailAt(e, times).nextAttemptAfter == Min(times[|times| - 1] + IdealBackoff(|times|), U64_MAX)
    ensures IdealBackoff(|times|) <= MAX_BACKOFF
  {
    var last := FailAt(e, times);
    FailuresCounted(e, times);
    ClampIsInvisible(last.consecutiveFailures);
    SaturationIsInvisible(|times|);
  }

  /** The clock bound is needed: at the end of the u64 range the retry time saturates and pacing stops. */
  lemma PacingEndsWithTheClock(e: LedgerEntry)
    requires e.consecutiveFailures == 0 && e.nextAttemptAfter == 0
    ensures Paced(e, [U64_MAX, U64_MAX]) && LeastSpan(2) == 5
  {
    var times: seq<nat> := [U64_MAX, U64_MAX];
    assert times[..1] == [U64_MAX] && [U64_MAX][..0] == [];
    SmallPowers();
  }
}
