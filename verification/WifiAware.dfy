/**
 The WiFi Aware data-path handshake (core/src/mobile_bridge.rs,
 `PlatformWifiAwareBridge`): any number of `create_data_path` futures share one
 pending map with the platform's confirmation callback.

 Each critical section is one atomic step. A request owns a oneshot channel; the
 map holds at most one sender per peer, and removing or overwriting a map entry
 drops its sender. Futures are polled to completion, never cancelled.
 */
module WifiAware {
  import opened Sequences

  type IpAddr = string
  datatype SocketAddr = SocketAddr(ip: IpAddr, port: nat)

  datatype Channel =
    | Open
    | Delivered(addr: SocketAddr, confirmation: nat)
    | Dropped

  datatype Outcome = Address(addr: SocketAddr) | Rejected | TimedOut | SenderDropped

  /** Where a `create_data_path` future stands. */
  datatype Stage =
    | Calling              // sender inserted, platform call not yet answered
    | Rejecting            // platform said no, map entry not yet removed
    | Waiting              // awaiting the channel under the 30 s timer
    | Expiring             // timer elapsed, map entry not yet removed
    | Ended(outcome: Outcome)

  datatype Request = Request(peer: string, born: nat, channel: Channel, stage: Stage)

  datatype Confirmation = Confirmation(peer: string, addr: SocketAddr)

  /** `log` lists the parseable confirmations handled so far; `born` counts those before an insertion. */
  datatype State = State(pending: map<string, nat>, requests: seq<Request>, log: seq<Confirmation>)

  const INITIAL: State := State(map[], [], [])

  datatype Action =
    | Insert(peer: string)
    | PlatformAnswer(request: nat, accepted: bool)
    | RejectCleanup(request: nat)
    | Confirm(peer: string, ip: Option<IpAddr>, port: nat)
    | Receive(request: nat)
    | Expire(request: nat)
    | TimeoutCleanup(request: nat)

  predicate At(s: State, r: nat, stage: Stage) {
    r < |s.requests| && s.requests[r].stage == stage
  }

  predicate InFlight(s: State, r: nat) {
    r < |s.requests| && !s.requests[r].stage.Ended?
  }

  predicate Enabled(s: State, a: Action) {
    match a
    case Insert(_) => true
    case PlatformAnswer(r, _) => At(s, r, Calling)
    case RejectCleanup(r) => At(s, r, Rejecting)
    case Confirm(_, _, _) => true
    // A timeout polls the channel before the timer.
    case Receive(r) => At(s, r, Waiting) && s.requests[r].channel != Open
    case Expire(r) => At(s, r, Waiting) && s.requests[r].channel == Open
    case TimeoutCleanup(r) => At(s, r, Expiring)
  }

  function SetStage(s: State, r: nat, stage: Stage): State
    requires r < |s.requests|
  {
    s.(requests := s.requests[r := s.requests[r].(stage := stage)])
  }

  /** Take `peer`'s sender out of the map and leave its channel as given. */
  function TakeSender(s: State, peer: string, left: Channel): State {
    if peer in s.pending && s.pending[peer] < |s.requests| then
      var q := s.pending[peer];
      s.(pending := s.pending - {peer}, requests := s.requests[q := s.requests[q].(channel := left)])
    else s
  }

  function Step(s: State, a: Action): State {
    if !Enabled(s, a) then s
    else
      match a
      case Insert(p) =>
        var t := TakeSender(s, p, Dropped);
        t.(pending := t.pending[p := |t.requests|],
           requests := t.requests + [Request(p, |t.log|, Open, Calling)])
      case PlatformAnswer(r, accepted) => SetStage(s, r, if accepted then Waiting else Rejecting)
      case RejectCleanup(r) => SetStage(TakeSender(s, s.requests[r].peer, Dropped), r, Ended(Rejected))
      case Confirm(p, None, _) => s
      case Confirm(p, Some(ip), port) =>
        var addr := SocketAddr(ip, port);
        TakeSender(s, p, Delivered(addr, |s.log|)).(log := s.log + [Confirmation(p, addr)])
      case Receive(r) =>
        SetStage(s, r, Ended(match s.requests[r].channel
                             case Delivered(addr, _) => Address(addr)
                             case _ => SenderDropped))
      case Expire(r) => SetStage(s, r, Expiring)
      case TimeoutCleanup(r) => SetStage(TakeSender(s, s.requests[r].peer, Dropped), r, Ended(TimedOut))
  }

  function Run(s: State, actions: seq<Action>): State
    decreases |actions|
  {
    if actions == [] then s else Run(Step(s, actions[0]), actions[1..])
  }

  // ---------------------------------------------------------------- safety

  /** A delivered address came from a confirmation for the same peer, handled after the insertion. */
  ghost predicate Genuine(s: State, q: Request) {
    q.channel.Delivered? ==>
      && q.born <= q.channel.confirmation < |s.log|
      && s.log[q.channel.confirmation] == Confirmation(q.peer, q.channel.addr)
  }

  ghost predicate Settled(q: Request) {
    match q.stage
    case Ended(Address(a)) => q.channel.Delivered? && q.channel.addr == a
    case Ended(SenderDropped) => q.channel == Dropped
    case Ended(_) => q.channel != Open
    case _ => true
  }

  ghost predicate DifferentConfirmations(a: Request, b: Request) {
    a.channel.Delivered? && b.channel.Delivered? ==> a.channel.confirmation != b.channel.confirmation
  }

  /** Every map entry is the live sender of a request in flight, and every live sender is in the map. */
  ghost predicate Linked(s: State) {
    && (forall p :: p in s.pending ==> s.pending[p] < |s.requests|)
    && (forall p :: p in s.pending ==>
          var q := s.requests[s.pending[p]]; q.peer == p && q.channel == Open && !q.stage.Ended?)
    && (forall r :: 0 <= r < |s.requests| && s.requests[r].channel == Open ==>
          s.requests[r].peer in s.pending && s.pending[s.requests[r].peer] == r)
  }

  /** Channels and outcomes tell what happened. */
  ghost predicate Truthful(s: State) {
    && (forall r :: 0 <= r < |s.requests| ==> Genuine(s, s.requests[r]) && Settled(s.requests[r]))
    && (forall r :: 0 <= r < |s.requests| ==> s.requests[r].born <= |s.log|)
  }

  /** No confirmation is delivered twice. */
  ghost predicate UsedOnce(s: State) {
    forall r, q :: 0 <= r < q < |s.requests| ==> DifferentConfirmations(s.requests[r], s.requests[q])
  }

  ghost predicate Safe(s: State) {
    Linked(s) && Truthful(s) && UsedOnce(s)
  }

  lemma TakeSenderSafe(s: State, peer: string)
    requires Safe(s)
    ensures Safe(TakeSender(s, peer, Dropped)) && peer !in TakeSender(s, peer, Dropped).pending
  {
  }

  lemma ConfirmLinked(s: State, p: string, ip: IpAddr, port: nat)
    requires Linked(s)
    ensures Linked(Step(s, Confirm(p, Some(ip), port)))
  {
  }

  lemma ConfirmTruthful(s: State, p: string, ip: IpAddr, port: nat)
    requires Linked(s) && Truthful(s)
    ensures Truthful(Step(s, Confirm(p, Some(ip), port)))
  {
  }

  /** The new confirmation's number is beyond all those delivered before. */
  lemma ConfirmUsedOnce(s: State, p: string, ip: IpAddr, port: nat)
    requires Truthful(s) && UsedOnce(s)
    ensures UsedOnce(Step(s, Confirm(p, Some(ip), port)))
  {
    var t := Step(s, Confirm(p, Some(ip), port));
    forall r, q | 0 <= r < q < |t.requests|
      ensures DifferentConfirmations(t.requests[r], t.requests[q])
    {
      assert Genuine(s, s.requests[r]) && Genuine(s, s.requests[q]);
    }
  }

  lemma ConfirmSafe(s: State, p: string, ip: IpAddr, port: nat)
    requires Safe(s)
    ensures Safe(Step(s, Confirm(p, Some(ip), port)))
  {
    hide Linked, Truthful, UsedOnce, Step;
    ConfirmLinked(s, p, ip, port);
    ConfirmTruthful(s, p, ip, port);
    ConfirmUsedOnce(s, p, ip, port);
  }

  lemma InsertSafe(s: State, p: string)
    requires Safe(s)
    ensures Safe(Step(s, Insert(p)))
  {
    TakeSenderSafe(s, p);
    var t := TakeSender(s, p, Dropped);
    InsertFreshSafe(t, p);
  }

  lemma InsertFreshSafe(t: State, p: string)
    requires Safe(t) && p !in t.pending
    ensures Safe(t.(pending := t.pending[p := |t.requests|],
                    requests := t.requests + [Request(p, |t.log|, Open, Calling)]))
  {
  }

  lemma SetStageSafe(s: State, r: nat, stage: Stage)
    requires Safe(s) && r < |s.requests|
    requires stage.Ended? ==> s.requests[r].channel != Open && Settled(s.requests[r].(stage := stage))
    ensures Safe(SetStage(s, r, stage))
  {
  }

  lemma CleanupSafe(s: State, r: nat, outcome: Outcome)
    requires Safe(s) && r < |s.requests| && (outcome == Rejected || outcome == TimedOut)
    ensures Safe(SetStage(TakeSender(s, s.requests[r].peer, Dropped), r, Ended(outcome)))
  {
    TakeSenderSafe(s, s.requests[r].peer);
    SetStageSafe(TakeSender(s, s.requests[r].peer, Dropped), r, Ended(outcome));
  }

  lemma StepSafe(s: State, a: Action)
    requires Safe(s)
    ensures Safe(Step(s, a))
  {
    hide Safe;
    if Enabled(s, a) {
      match a
      case Insert(p) => InsertSafe(s, p);
      case PlatformAnswer(r, accepted) => SetStageSafe(s, r, if accepted then Waiting else Rejecting);
      case RejectCleanup(r) => CleanupSafe(s, r, Rejected);
      case TimeoutCleanup(r) => CleanupSafe(s, r, TimedOut);
      case Confirm(p, None, _) =>
      case Confirm(p, Some(ip), port) => ConfirmSafe(s, p, ip, port);
      case Expire(r) => SetStageSafe(s, r, Expiring);
      case Receive(r) => SetStageSafe(s, r, Step(s, a).requests[r].stage);
    }
  }

  lemma RunSafe(s: State, actions: seq<Action>)
    requires Safe(s)
    ensures Safe(Run(s, actions))
    decreases |actions|
  {
    hide Safe;
    if actions != [] {
      StepSafe(s, actions[0]);
      RunSafe(Step(s, actions[0]), actions[1..]);
    }
  }

  /**
   In every interleaving: a map entry is the sender of a request in flight for that peer, so an
   idle bridge has an empty map; an address a request ends with was confirmed for its own peer after
   the request was inserted; and no two requests end on the same confirmation.
   */
  lemma HandshakeSafety(actions: seq<Action>)
    ensures var s := Run(INITIAL, actions);
            && Safe(s)
            && ((forall r :: 0 <= r < |s.requests| ==> !InFlight(s, r)) ==> s.pending == map[])
            && (forall r ::
                  0 <= r < |s.requests| && s.requests[r].stage.Ended? && s.requests[r].stage.outcome.Address? ==>
                  Genuine(s, s.requests[r]) && s.requests[r].channel.Delivered? &&
                  s.requests[r].channel.addr == s.requests[r].stage.outcome.addr)
  {
    RunSafe(INITIAL, actions);
    var s := Run(INITIAL, actions);
    if s.pending != map[] {
      var p :| p in s.pending;
      assert InFlight(s, s.pending[p]);
    }
    assert forall r :: 0 <= r < |s.requests| ==> Settled(s.requests[r]);
  }

  /** A request ends at most once: an outcome never changes afterwards. */
  lemma OutcomeIsFinal(s: State, actions: seq<Action>, r: nat, outcome: Outcome)
    requires At(s, r, Ended(outcome))
    ensures At(Run(s, actions), r, Ended(outcome))
    decreases |actions|
  {
    if actions != [] {
      OutcomeIsFinal(Step(s, actions[0]), actions[1..], r, outcome);
    }
  }

  /** Stages reachable from `from`. */
  predicate Follows(from: Stage, stage: Stage) {
    match from
    case Calling => true
    case Rejecting => stage == Rejecting || stage == Ended(Rejected)
    case Waiting => stage != Calling && stage != Rejecting && stage != Ended(Rejected)
    case Expiring => stage == Expiring || stage == Ended(TimedOut)
    case Ended(_) => stage == from
  }

  lemma StepFollows(s: State, a: Action, r: nat)
    requires r < |s.requests|
    ensures r < |Step(s, a).requests| && Follows(s.requests[r].stage, Step(s, a).requests[r].stage)
    ensures a == TimeoutCleanup(r) && At(s, r, Expiring) ==> At(Step(s, a), r, Ended(TimedOut))
    ensures a == RejectCleanup(r) && At(s, r, Rejecting) ==> At(Step(s, a), r, Ended(Rejected))
  {
  }

  /**
   A failure tells its cause, whatever is interleaved: a refused request ends as rejected and no other way,
   an accepted one never as rejected, and one whose timer elapsed as timed out.
   */
  lemma {:induction false} FailureTellsItsCause(s: State, actions: seq<Action>, r: nat)
    requires r < |s.requests|
    ensures r < |Run(s, actions).requests| && Follows(s.requests[r].stage, Run(s, actions).requests[r].stage)
    ensures At(s, r, Expiring) && TimeoutCleanup(r) in actions ==> At(Run(s, actions), r, Ended(TimedOut))
    ensures At(s, r, Rejecting) && RejectCleanup(r) in actions ==> At(Run(s, actions), r, Ended(Rejected))
    decreases |actions|
  {
    hide Step;
    if actions != [] {
      var a, rest := actions[0], actions[1..];
      assert actions == [a] + rest;
      StepFollows(s, a, r);
      FailureTellsItsCause(Step(s, a), rest, r);
    }
  }

  /** What must have happened to a request for it to be where it is. */
  ghost predicate Explained(actions: seq<Action>, r: nat, stage: Stage) {
    match stage
    case Calling => true
    case Rejecting => PlatformAnswer(r, false) in actions
    case Waiting => PlatformAnswer(r, true) in actions
    case Expiring => PlatformAnswer(r, true) in actions && Expire(r) in actions
    case Ended(Rejected) => PlatformAnswer(r, false) in actions && RejectCleanup(r) in actions
    case Ended(TimedOut) =>
      PlatformAnswer(r, true) in actions && Expire(r) in actions && TimeoutCleanup(r) in actions
    case Ended(_) => PlatformAnswer(r, true) in actions && Receive(r) in actions
  }

  ghost predicate AllExplained(actions: seq<Action>, s: State) {
    forall r :: 0 <= r < |s.requests| ==> Explained(actions, r, s.requests[r].stage)
  }

  lemma RunNext(s: State, actions: seq<Action>, a: Action)
    ensures Run(s, actions + [a]) == Step(Run(s, actions), a)
    decreases |actions|
  {
    hide Step;
    if actions == [] {
      FirstStep(s, a, []);
      assert [a] + [] == [a] && actions + [a] == [a];
      assert Run(Step(s, a), []) == Step(s, a);
    } else {
      var rest := actions[1..];
      RunNext(Step(s, actions[0]), rest, a);
      assert (actions + [a])[1..] == rest + [a];
    }
  }

  /** What can happen to request `r` in one step. */
  lemma StageChange(s: State, a: Action, r: nat)
    requires r < |s.requests|
    ensures r < |Step(s, a).requests|
    ensures var from, to := s.requests[r].stage, Step(s, a).requests[r].stage;
            || to == from
            || (from == Calling && exists ok :: a == PlatformAnswer(r, ok) && to == if ok then Waiting else Rejecting)
            || (from == Rejecting && a == RejectCleanup(r) && to == Ended(Rejected))
            || (from == Waiting && a == Expire(r) && to == Expiring)
            || (from == Waiting && a == Receive(r) && to.Ended? && to.outcome != Rejected && to.outcome != TimedOut)
            || (from == Expiring && a == TimeoutCleanup(r) && to == Ended(TimedOut))
  {
  }

  lemma ExplainedStep(s: State, actions: seq<Action>, a: Action)
    requires AllExplained(actions, s)
    ensures AllExplained(actions + [a], Step(s, a))
  {
    hide Step;
    var t := Step(s, a);
    assert a in actions + [a] && forall b :: b in actions ==> b in actions + [a];
    NewestIsCalling(s, a);
    forall r | 0 <= r < |t.requests|
      ensures Explained(actions + [a], r, t.requests[r].stage)
    {
      if r < |s.requests| {
        StageChange(s, a, r);
      }
    }
  }

  lemma NewestIsCalling(s: State, a: Action)
    ensures forall r :: |s.requests| <= r < |Step(s, a).requests| ==> Step(s, a).requests[r].stage == Calling
  {
  }

  /** No request ends without the platform's answer and the event its outcome names. */
  lemma {:induction false} OutcomesAreExplained(actions: seq<Action>)
    ensures AllExplained(actions, Run(INITIAL, actions))
  {
    hide Step, AllExplained;
    if actions == [] {
      NothingToExplain();
    } else {
      var front, last := actions[..|actions| - 1], actions[|actions| - 1];
      OutcomesAreExplained(front);
      ExplainedStep(Run(INITIAL, front), front, last);
      RunNext(INITIAL, front, last);
      assert front + [last] == actions;
    }
  }

  lemma NothingToExplain()
    ensures AllExplained([], Run(INITIAL, []))
  {
  }

  /** How many requests a run makes. */
  function Inserts(actions: seq<Action>): nat {
    if actions == [] then 0 else Inserts(actions[..|actions| - 1]) + if actions[|actions| - 1].Insert? then 1 else 0
  }

  /** Action `i` makes request number `r`, for `peer`. */
  ghost predicate Makes(actions: seq<Action>, i: int, r: int, peer: string) {
    0 <= i < |actions| && actions[i] == Insert(peer) && Inserts(actions[..i]) == r
  }

  /** Action `j` confirms `addr` for `peer`. */
  ghost predicate Confirms(actions: seq<Action>, j: int, peer: string, addr: SocketAddr) {
    0 <= j < |actions| && actions[j] == Confirm(peer, Some(addr.ip), addr.port)
  }

  ghost predicate Traced(actions: seq<Action>, r: int, q: Request) {
    exists i ::
      && Makes(actions, i, r, q.peer)
      && (q.channel.Delivered? ==> exists j :: i < j && Confirms(actions, j, q.peer, q.channel.addr))
  }

  ghost predicate AllTraced(actions: seq<Action>, s: State) {
    && |s.requests| == Inserts(actions)
    && forall r :: 0 <= r < |s.requests| ==> Traced(actions, r, s.requests[r])
  }

  lemma TraceGrows(actions: seq<Action>, a: Action, r: int, q: Request, t: Request)
    requires Traced(actions, r, q) && t.peer == q.peer
    requires || t.channel == q.channel || !t.channel.Delivered?
             || a == Confirm(q.peer, Some(t.channel.addr.ip), t.channel.addr.port)
    ensures Traced(actions + [a], r, t)
  {
    var all := actions + [a];
    var i :| && Makes(actions, i, r, q.peer)
             && (q.channel.Delivered? ==> exists j :: i < j && Confirms(actions, j, q.peer, q.channel.addr));
    assert all[..i] == actions[..i] && Makes(all, i, r, t.peer);
    if t.channel.Delivered? {
      if t.channel == q.channel {
        var j :| i < j && Confirms(actions, j, q.peer, q.channel.addr);
        assert Confirms(all, j, t.peer, t.channel.addr);
      } else {
        assert Confirms(all, |actions|, t.peer, t.channel.addr);
      }
    }
  }

  /** A step changes a request's channel only by dropping its sender or by a confirmation for its peer. */
  lemma StepDelivers(s: State, a: Action, r: nat)
    requires Safe(s) && r < |s.requests|
    ensures r < |Step(s, a).requests|
    ensures var q, t := s.requests[r], Step(s, a).requests[r];
            && t.peer == q.peer
            && (|| t.channel == q.channel || t.channel == Dropped
                || (t.channel.Delivered? && a == Confirm(q.peer, Some(t.channel.addr.ip), t.channel.addr.port)))
  {
  }

  lemma StepMakes(s: State, a: Action)
    requires Safe(s)
    ensures |Step(s, a).requests| == |s.requests| + if a.Insert? then 1 else 0
    ensures a.Insert? ==>
              var q := Step(s, a).requests[|s.requests|];
              q.peer == a.peer && q.channel == Open && q.born == |s.log|
  {
  }

  lemma TracedStep(s: State, actions: seq<Action>, a: Action)
    requires Safe(s) && AllTraced(actions, s)
    ensures AllTraced(actions + [a], Step(s, a))
  {
    hide Step, Safe, Traced;
    var all, t := actions + [a], Step(s, a);
    assert all[..|actions|] == actions;
    StepMakes(s, a);
    forall r | 0 <= r < |t.requests|
      ensures Traced(all, r, t.requests[r])
    {
      if r < |s.requests| {
        StepDelivers(s, a, r);
        TraceGrows(actions, a, r, s.requests[r], t.requests[r]);
      } else {
        NewlyTraced(actions, a, r, t.requests[r]);
      }
    }
  }

  lemma NewlyTraced(actions: seq<Action>, a: Action, r: nat, q: Request)
    requires a == Insert(q.peer) && r == Inserts(actions) && q.channel == Open
    ensures Traced(actions + [a], r, q)
  {
    var all := actions + [a];
    assert all[..|actions|] == actions && Makes(all, |actions|, r, q.peer);
  }

  lemma {:induction false} RunTraced(actions: seq<Action>)
    ensures AllTraced(actions, Run(INITIAL, actions))
  {
    if actions != [] {
      hide Step, AllTraced, Safe;
      var front, last := actions[..|actions| - 1], actions[|actions| - 1];
      RunTraced(front);
      SafeRun(front);
      TracedStep(Run(INITIAL, front), front, last);
      RunNext(INITIAL, front, last);
      assert front + [last] == actions;
    }
  }

  lemma SafeRun(actions: seq<Action>)
    ensures Safe(Run(INITIAL, actions))
  {
    assert Safe(INITIAL);
    RunSafe(INITIAL, actions);
  }

  /** An address a request ends with was confirmed for its own peer after the request was made. */
  lemma AddressWasConfirmed(actions: seq<Action>, r: nat, addr: SocketAddr) returns (i: nat, j: nat)
    requires At(Run(INITIAL, actions), r, Ended(Address(addr)))
    ensures Makes(actions, i, r, Run(INITIAL, actions).requests[r].peer)
    ensures i < j && Confirms(actions, j, Run(INITIAL, actions).requests[r].peer, addr)
  {
    hide Run, Step;
    RunTraced(actions);
    SafeRun(actions);
    var q := Run(INITIAL, actions).requests[r];
    assert Settled(q) && Traced(actions, r, q);
    i :| && Makes(actions, i, r, q.peer)
         && (q.channel.Delivered? ==> exists j :: i < j && Confirms(actions, j, q.peer, q.channel.addr));
    j :| i < j && Confirms(actions, j, q.peer, q.channel.addr);
  }

  /** A confirmation resolves the pending request of its peer, that one only, and the request then returns it. */
  lemma ConfirmationResolves(s: State, p: string, ip: IpAddr, port: nat)
    requires Safe(s) && p in s.pending
    ensures var t, r := Step(s, Confirm(p, Some(ip), port)), s.pending[p];
            && p !in t.pending && |t.requests| == |s.requests|
            && t.requests[r] == s.requests[r].(channel := Delivered(SocketAddr(ip, port), |s.log|))
            && (forall q :: 0 <= q < |s.requests| && q != r ==> t.requests[q] == s.requests[q])
            && (At(s, r, Waiting) ==> At(Step(t, Receive(r)), r, Ended(Address(SocketAddr(ip, port)))))
  {
  }

  function Parseable(): Action -> bool {
    (a: Action) => !(a.Confirm? && a.ip.None?)
  }

  /** Confirmations whose IP does not parse might as well not have been made, anywhere in a run. */
  lemma {:induction false} UnparseableIrrelevant(s: State, actions: seq<Action>)
    ensures Run(s, actions) == Run(s, Filter(Parseable(), actions))
    decreases |actions|
  {
    if actions != [] {
      var a, rest := actions[0], actions[1..];
      UnparseableIrrelevant(Step(s, a), rest);
      if Parseable()(a) {
        FirstStep(s, a, Filter(Parseable(), rest));
      }
    }
  }

  /** Once delivered to a waiting request an address is never lost to the timer. */
  lemma WaitingDeliverySticks(s: State, actions: seq<Action>, r: nat)
    requires Safe(s) && At(s, r, Waiting) && s.requests[r].channel.Delivered?
    ensures var t := Run(s, actions);
            && r < |t.requests| && t.requests[r].channel == s.requests[r].channel
            && (t.requests[r].stage == Waiting || t.requests[r].stage == Ended(Address(s.requests[r].channel.addr)))
    decreases |actions|
  {
    if actions != [] {
      var t := Step(s, actions[0]);
      StepSafe(s, actions[0]);
      DeliveredUntouched(s, actions[0], r);
      if t.requests[r].stage == Waiting {
        WaitingDeliverySticks(t, actions[1..], r);
      } else {
        EndedUntouched(t, actions[1..], r);
      }
    }
  }

  lemma DeliveredUntouched(s: State, a: Action, r: nat)
    requires Safe(s) && r < |s.requests| && s.requests[r].channel != Open
    ensures r < |Step(s, a).requests| && Step(s, a).requests[r].channel == s.requests[r].channel
    ensures s.requests[r].stage == Waiting && Step(s, a).requests[r].stage != Waiting ==> a == Receive(r)
  {
  }

  lemma EndedStep(s: State, a: Action, r: nat)
    requires Safe(s) && r < |s.requests| && s.requests[r].stage.Ended?
    ensures r < |Step(s, a).requests| && Step(s, a).requests[r] == s.requests[r]
  {
    DeliveredUntouched(s, a, r);
  }

  lemma EndedUntouched(s: State, actions: seq<Action>, r: nat)
    requires Safe(s) && r < |s.requests| && s.requests[r].stage.Ended?
    ensures r < |Run(s, actions).requests| && Run(s, actions).requests[r] == s.requests[r]
    decreases |actions|
  {
    hide Safe, Step;
    if actions != [] {
      StepSafe(s, actions[0]);
      EndedStep(s, actions[0], r);
      EndedUntouched(Step(s, actions[0]), actions[1..], r);
    }
  }

  // ---------------------------------------------------------- interference

  /** The cleanup a request runs after a rejection or a timeout. */
  ghost predicate IsCleanup(s: State, a: Action) {
    (a.RejectCleanup? || a.TimeoutCleanup?) && Enabled(s, a)
  }

  /**
   Cleanup removes whatever sender its peer has in the map. It drops another request's live
   sender exactly when its own is already gone and the peer has been requested again.
   */
  lemma CleanupStealsExactlyWhen(s: State, a: Action)
    requires Safe(s) && IsCleanup(s, a)
    ensures (exists q :: 0 <= q < |s.requests| && q != a.request &&
               s.requests[q].channel == Open && Step(s, a).requests[q].channel == Dropped) <==>
            s.requests[a.request].channel != Open && s.requests[a.request].peer in s.pending
  {
    var r := a.request;
    var p := s.requests[r].peer;
    if s.requests[r].channel != Open && p in s.pending {
      var q := s.pending[p];
      assert q != r && s.requests[q].channel == Open;
      assert Step(s, a).requests[q].channel == Dropped;
    }
  }

  lemma FirstStep(s: State, a: Action, rest: seq<Action>)
    ensures Run(s, [a] + rest) == Run(Step(s, a), rest)
  {
    hide Step;
    assert ([a] + rest)[1..] == rest;
  }

  lemma SixSteps(s: State, a: Action, b: Action, c: Action, d: Action, e: Action, f: Action)
    ensures Run(s, [a, b, c, d, e, f]) == Step(Step(Step(Step(Step(Step(s, a), b), c), d), e), f)
  {
    hide Step;
    var s1 := Step(s, a);
    var s2 := Step(s1, b);
    var s3 := Step(s2, c);
    var s4 := Step(s3, d);
    var s5 := Step(s4, e);
    assert Run(Step(s5, f), []) == Step(s5, f);
    hide Run;
    FirstStep(s, a, [b, c, d, e, f]);
    FirstStep(s1, b, [c, d, e, f]);
    FirstStep(s2, c, [d, e, f]);
    FirstStep(s3, d, [e, f]);
    FirstStep(s4, e, [f]);
    FirstStep(s5, f, []);
    assert [a] + [b, c, d, e, f] == [a, b, c, d, e, f];
    assert [b] + [c, d, e, f] == [b, c, d, e, f];
    assert [c] + [d, e, f] == [c, d, e, f];
    assert [d] + [e, f] == [d, e, f];
    assert [e] + [f] == [e, f];
    assert [f] + [] == [f];
  }

  /** So a request nobody replaced can still lose its sender: here to an earlier request's rejection. */
  lemma StolenSender(p: string)
    ensures var s := Run(INITIAL, [Insert(p), Insert(p), PlatformAnswer(0, false), RejectCleanup(0),
                                   PlatformAnswer(1, true), Receive(1)]);
            At(s, 0, Ended(Rejected)) && At(s, 1, Ended(SenderDropped))
  {
    hide Run;
    SixSteps(INITIAL, Insert(p), Insert(p), PlatformAnswer(0, false), RejectCleanup(0),
             PlatformAnswer(1, true), Receive(1));
    var s1 := Step(INITIAL, Insert(p));
    var s2 := Step(s1, Insert(p));
    var s4 := Step(Step(s2, PlatformAnswer(0, false)), RejectCleanup(0));
    assert s1.requests == [Request(p, 0, Open, Calling)];
    assert s2.requests == [Request(p, 0, Dropped, Calling), Request(p, 0, Open, Calling)];
    assert s4.requests == [Request(p, 0, Dropped, Ended(Rejected)), Request(p, 0, Dropped, Calling)];
  }

  ghost predicate Idle(s: State, p: string) {
    forall r: nat :: InFlight(s, r) ==> s.requests[r].peer != p
  }

  /** Runs in which a peer is only requested again after its previous request ended. */
  ghost predicate Serial(s: State, actions: seq<Action>)
    decreases |actions|
  {
    actions != [] ==>
      && (actions[0].Insert? ==> Idle(s, actions[0].peer))
      && Serial(Step(s, actions[0]), actions[1..])
  }

  ghost predicate OnePerPeer(s: State) {
    && (forall r: nat, q: nat ::
          InFlight(s, r) && InFlight(s, q) && s.requests[r].peer == s.requests[q].peer ==> r == q)
    && (forall r: nat :: InFlight(s, r) ==> s.requests[r].channel != Dropped)
    && (forall r :: 0 <= r < |s.requests| ==> s.requests[r].stage != Ended(SenderDropped))
  }

  lemma SerialInsert(s: State, p: string)
    requires Safe(s) && OnePerPeer(s) && Idle(s, p)
    ensures OnePerPeer(Step(s, Insert(p)))
  {
    assert p in s.pending ==> InFlight(s, s.pending[p]);
    assert TakeSender(s, p, Dropped) == s;
    var t := Step(s, Insert(p));
    assert forall r: nat :: r < |s.requests| ==> t.requests[r] == s.requests[r];
  }

  lemma SerialStage(s: State, r: nat, stage: Stage)
    requires OnePerPeer(s) && InFlight(s, r) && stage != Ended(SenderDropped)
    ensures OnePerPeer(SetStage(s, r, stage))
  {
    var t := SetStage(s, r, stage);
    assert forall q: nat :: InFlight(t, q) ==> InFlight(s, q) && t.requests[q].channel == s.requests[q].channel;
  }

  lemma SerialCleanup(s: State, r: nat, outcome: Outcome)
    requires Safe(s) && OnePerPeer(s) && InFlight(s, r) && outcome != SenderDropped
    ensures OnePerPeer(SetStage(TakeSender(s, s.requests[r].peer, Dropped), r, Ended(outcome)))
  {
    OwnSenderOnly(s, r);
    var t := SetStage(TakeSender(s, s.requests[r].peer, Dropped), r, Ended(outcome));
    assert forall q: nat :: InFlight(t, q) ==> q != r && InFlight(s, q) && t.requests[q] == s.requests[q];
  }

  lemma SerialConfirm(s: State, p: string, ip: IpAddr, port: nat)
    requires Safe(s) && OnePerPeer(s)
    ensures OnePerPeer(Step(s, Confirm(p, Some(ip), port)))
  {
    var t := Step(s, Confirm(p, Some(ip), port));
    assert forall q: nat :: InFlight(t, q) ==> InFlight(s, q) && t.requests[q].peer == s.requests[q].peer;
  }

  lemma SerialStep(s: State, a: Action)
    requires Safe(s) && OnePerPeer(s) && (a.Insert? ==> Idle(s, a.peer))
    ensures OnePerPeer(Step(s, a))
  {
    if Enabled(s, a) {
      if a.Receive? {
        assert InFlight(s, a.request);
      }
      hide Safe, OnePerPeer;
      match a
      case Insert(p) => SerialInsert(s, p);
      case PlatformAnswer(r, accepted) => SerialStage(s, r, if accepted then Waiting else Rejecting);
      case RejectCleanup(r) => SerialCleanup(s, r, Rejected);
      case TimeoutCleanup(r) => SerialCleanup(s, r, TimedOut);
      case Confirm(p, None, _) =>
      case Confirm(p, Some(ip), port) => SerialConfirm(s, p, ip, port);
      case Receive(r) => SerialStage(s, r, Step(s, a).requests[r].stage);
      case Expire(r) => SerialStage(s, r, Expiring);
    }
  }

  lemma OwnSenderOnly(s: State, r: nat)
    requires Safe(s) && OnePerPeer(s) && InFlight(s, r)
    ensures s.requests[r].peer in s.pending ==> s.pending[s.requests[r].peer] == r
  {
    var p := s.requests[r].peer;
    if p in s.pending {
      assert InFlight(s, s.pending[p]);
    }
  }

  lemma SerialRun(s: State, actions: seq<Action>)
    requires Safe(s) && OnePerPeer(s) && Serial(s, actions)
    ensures OnePerPeer(Run(s, actions))
    decreases |actions|
  {
    hide Safe, OnePerPeer;
    if actions != [] {
      StepSafe(s, actions[0]);
      SerialStep(s, actions[0]);
      SerialRun(Step(s, actions[0]), actions[1..]);
    }
  }

  /** Requests for one peer that never overlap end with an address, a rejection or a timeout. */
  lemma SerialNeverLosesSender(actions: seq<Action>, r: nat)
    requires Serial(INITIAL, actions) && r < |Run(INITIAL, actions).requests|
    ensures Run(INITIAL, actions).requests[r].stage != Ended(SenderDropped)
  {
    SerialRun(INITIAL, actions);
  }

  // -------------------------------------------------------------- the bridge

  /** The shared object: every method is one critical section. */
  class PlatformWifiAwareBridge {
    var dataPathResults: map<string, nat>
    var requests: seq<Request>
    var handled: nat
    ghost var log: seq<Confirmation>

    ghost predicate Valid()
      reads this
    {
      handled == |log| && Safe(Now())
    }

    ghost function Now(): State
      reads this
    {
      State(dataPathResults, requests, log)
    }

    constructor ()
      ensures Now() == INITIAL && Valid()
    {
      dataPathResults, requests, log, handled := map[], [], [], 0;
    }

    /** Dropping a removed sender closes its channel. */
    method RemoveSender(peer: string)
      requires Valid()
      modifies this
      ensures Now() == TakeSender(old(Now()), peer, Dropped) && handled == old(handled)
    {
      if peer in dataPathResults {
        var q := dataPathResults[peer];
        dataPathResults := dataPathResults - {peer};
        requests := requests[q := requests[q].(channel := Dropped)];
      }
    }

    method InsertSender(peer: string) returns (r: nat)
      requires Valid()
      modifies this
      ensures Now() == Step(old(Now()), Insert(peer)) && r == |old(requests)|
      ensures Valid()
    {
      ghost var before := Now();
      StepSafe(before, Insert(peer));
      RemoveSender(peer);
      r := |requests|;
      requests := requests + [Request(peer, handled, Open, Calling)];
      dataPathResults := dataPathResults[peer := r];
    }

    method HandleDataPathConfirmed(peer: string, ip: Option<IpAddr>, port: nat)
      requires Valid()
      modifies this
      ensures Now() == Step(old(Now()), Confirm(peer, ip, port))
      ensures Valid()
    {
      StepSafe(Now(), Confirm(peer, ip, port));
      if ip.Some? {
        var addr := SocketAddr(ip.value, port);
        if peer in dataPathResults {
          var q := dataPathResults[peer];
          dataPathResults := dataPathResults - {peer};
          requests := requests[q := requests[q].(channel := Delivered(addr, handled))];
        }
        handled := handled + 1;
        log := log + [Confirmation(peer, addr)];
      }
    }

    method CleanupAfterFailure(r: nat)
      requires Valid() && (At(Now(), r, Rejecting) || At(Now(), r, Expiring))
      modifies this
      ensures Now() == Step(old(Now()),
                            if old(requests)[r].stage == Rejecting then RejectCleanup(r) else TimeoutCleanup(r))
      ensures Valid()
    {
      var stage := requests[r].stage;
      StepSafe(Now(), if stage == Rejecting then RejectCleanup(r) else TimeoutCleanup(r));
      RemoveSender(requests[r].peer);
      requests := requests[r := requests[r].(stage := Ended(if stage == Rejecting then Rejected else TimedOut))];
    }
  }
}
