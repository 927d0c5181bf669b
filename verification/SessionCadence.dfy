/**
  The failed-scan cadence: while a volume's retry waits for its deadline no scan start is sent for
  it, and no transfer or merge moves the deadline earlier.
 */
module SessionCadence {
  import opened SessionSteps
  import opened SessionOwnership

  ghost predicate Pending(m: Manager, v: Volume) {
    v in m.floors || exists e :: Tracks(m, e, v) && e in m.queued
  }

  predicate QuietUntil(m: Manager, e: Ephemeral, d: Instant)
    requires e in m.sessions
  {
    !m.sessions[e].inProgress && (e in m.queued ==> m.queued[e].due >= d)
  }

  /** `v` waits for a retry: no attempt runs, the scheduler holds nothing, and neither the queued retry
      nor the floor is due before `d`. */
  ghost predicate Resting(m: Manager, v: Volume, d: Instant) {
    && Pending(m, v)
    && v !in m.dispatching
    && (v in m.floors ==> m.floors[v].due >= d)
    && (forall e :: Tracks(m, e, v) ==> QuietUntil(m, e, d))
  }

  /** The step sends a scan-start request for `v`. */
  predicate SendsFor(st: State, step: Step, v: Volume) {
    || (step.DoStart? && step.v == v && StartSends(st.mgr, step.e, v, step.sawComplete, step.barrier))
    || (step.DoTrigger? && step.v == v && TriggerSends(st.mgr, step.e, v, Paused(st, step.e)))
  }

  lemma RestingSendsNothing(st: State, step: Step, v: Volume, d: Instant)
    requires Linked(st.mgr) && Resting(st.mgr, v, d)
    ensures !SendsFor(st, step, v)
  {
  }

  /** The scheduler takes the due retry of `v`. */
  predicate TakesRetryOf(st: State, step: Step, v: Volume) {
    step.DoTake? && Tracks(st.mgr, step.e, v)
  }

  /** The slots and the attempt of `v` are as they were. */
  ghost predicate SameFor(m: Manager, n: Manager, v: Volume) {
    && (v in n.floors <==> v in m.floors) && (v in m.floors ==> n.floors[v] == m.floors[v])
    && (v in n.dispatching <==> v in m.dispatching)
    && (forall e :: Tracks(n, e, v) <==> Tracks(m, e, v))
    && (forall e :: Tracks(m, e, v) ==> SameSession(m, n, e))
  }

  predicate SameSession(m: Manager, n: Manager, e: Ephemeral)
    requires e in m.sessions && e in n.sessions
  {
    && n.sessions[e].inProgress == m.sessions[e].inProgress
    && (e in n.queued <==> e in m.queued) && (e in m.queued ==> n.queued[e].due >= m.queued[e].due)
  }

  lemma SameRests(m: Manager, n: Manager, v: Volume, d: Instant)
    requires Resting(m, v, d) && SameFor(m, n, v)
    ensures Resting(n, v, d)
  {
    if v !in m.floors {
      var e :| Tracks(m, e, v) && e in m.queued;
      assert SameSession(m, n, e) && Tracks(n, e, v);
    }
    forall e | Tracks(n, e, v) ensures QuietUntil(n, e, d) {
      assert QuietUntil(m, e, d) && SameSession(m, n, e);
    }
  }

  /** A queued retry of the only session, due no earlier than `d`, and no earlier floor. */
  lemma QueuedRests(n: Manager, e: Ephemeral, v: Volume, d: Instant)
    requires DistinctVolumes(n) && Tracks(n, e, v) && QuietUntil(n, e, d) && e in n.queued
    requires v !in n.dispatching && (v in n.floors ==> n.floors[v].due >= d)
    ensures Resting(n, v, d)
  {
  }

  /** Another volume's session changes, or this one's flags do while no attempt starts. */
  lemma SessionRests(m: Manager, e: Ephemeral, s: Session, v: Volume, d: Instant)
    requires Resting(m, v, d) && Tracks(m, e, s.volume) && (s.volume == v ==> !s.inProgress)
    ensures Resting(m.(sessions := m.sessions[e := s]), v, d)
  {
    assert m.sessions[e].volume == v ==> QuietUntil(m, e, d);
    SameRests(m, m.(sessions := m.sessions[e := s]), v, d);
  }

  lemma ClaimRests(m: Manager, e: Ephemeral, claimed: Session, v: Volume, d: Instant)
    requires Resting(m, v, d) && Tracks(m, e, claimed.volume) && claimed.volume != v
    ensures Resting(Claim(m, e, claimed), v, d)
  {
    SameRests(m, Claim(m, e, claimed), v, d);
  }

  lemma FloorToQueueRests(m: Manager, e: Ephemeral, w: Volume, v: Volume, d: Instant)
    requires Linked(m) && Tracks(m, e, w) && w in m.floors && Resting(m, v, d)
    ensures Resting(FloorToQueue(m, e, w), v, d)
  {
    var n := FloorToQueue(m, e, w);
    if v == w {
      assert QuietUntil(m, e, d);
      QueuedRests(n, e, v, d);
    } else {
      SameRests(m, n, v, d);
    }
  }

  lemma StartRests(m: Manager, e: Ephemeral, w: Volume, sawComplete: bool, barrier: bool, v: Volume, d: Instant)
    requires Linked(m) && Resting(m, v, d) && !(w == v && StartSends(m, e, v, sawComplete, barrier))
    ensures Resting(Start(m, e, w, sawComplete, barrier), v, d)
  {
    var n := Start(m, e, w, sawComplete, barrier);
    if n != m {
      if w in m.floors {
        FloorToQueueRests(m, e, w, v, d);
      } else {
        var s := m.sessions[e];
        ClaimRests(m, e, s.(reconciliation := false, awaiting := Ambiguous(s),
                            batchFailed := s.batchFailed && Ambiguous(s)), v, d);
      }
    }
  }

  lemma TriggerRests(m: Manager, e: Ephemeral, w: Volume, paused: bool, v: Volume, d: Instant)
    requires Linked(m) && Resting(m, v, d) && !(w == v && TriggerSends(m, e, v, paused))
    ensures Resting(Trigger(m, e, w, paused), v, d)
  {
    if Tracks(m, e, w) && !paused {
      var s := m.sessions[e];
      if s.inProgress {
        assert !Tracks(m, e, v);
        SessionRests(m, e, s.(deferred := true), v, d);
      } else if w in m.floors {
        FloorToQueueRests(m, e, w, v, d);
      } else if TriggerSends(m, e, w, paused) {
        ClaimRests(m, e, s.(reconciliation := true), v, d);
      }
    }
  }

  lemma RemoveRests(m: Manager, e: Ephemeral, now: Instant, v: Volume, d: Instant)
    requires Linked(m) && e in m.sessions && Resting(m, v, d)
    ensures Resting(RemoveSession(m, e, now), v, d)
  {
    var n := RemoveSession(m, e, now);
    if m.sessions[e].volume == v {
      assert QuietUntil(m, e, d);
      assert v in n.floors && n.floors[v].due >= d;
    } else {
      SameRests(m, n, v, d);
    }
  }

  /** A retry installed for the full delay is due no earlier than any set before. */
  lemma InstallRests(m: Manager, e: Ephemeral, w: Volume, r: Retry, v: Volume, d: Instant)
    requires Linked(m) && Tracks(m, e, w) && Resting(m, v, d) && (w == v ==> r.due >= d)
    ensures Resting(Install(m, e, w, r), v, d)
  {
    var n := Install(m, e, w, r);
    if w != v {
      SameRests(m, n, v, d);
    } else {
      assert QuietUntil(m, e, d);
      if m.active { QueuedRests(n, e, v, d); }
    }
  }

  lemma RearmRests(m: Manager, e: Ephemeral, w: Volume, now: Instant, v: Volume, d: Instant)
    requires Linked(m) && Resting(m, v, d) && d <= now + RETRY_DELAY
    ensures Resting(Rearm(m, e, w, now), v, d)
  {
    if Tracks(m, e, w) {
      var quiet := m.(sessions := m.sessions[e := m.sessions[e].(inProgress := false, reconciliation := false)]);
      SessionRests(m, e, quiet.sessions[e], v, d);
      InstallRests(quiet, e, w, Retry(now + RETRY_DELAY, true), v, d);
    }
  }

  lemma CloseRests(m: Manager, e: Ephemeral, s: Session, r: Retry, v: Volume, d: Instant)
    requires Linked(m) && Resting(m, v, d) && Tracks(m, e, s.volume) && s.volume != v
    ensures var closed := m.(sessions := m.sessions[e := s]);
            && Resting(closed, v, d) && Resting(Install(closed, e, s.volume, r), v, d)
            && Resting(ClearOwner(closed, e, s.volume), v, d)
  {
    var closed := m.(sessions := m.sessions[e := s]);
    SessionRests(m, e, s, v, d);
    InstallRests(closed, e, s.volume, r, v, d);
    SameRests(closed, ClearOwner(closed, e, s.volume), v, d);
  }

  lemma TerminalRests(m: Manager, e: Ephemeral, now: Instant, durable: bool, v: Volume, d: Instant)
    requires Linked(m) && Attributable(m, e) && Resting(m, v, d)
    ensures Resting(CompleteWithAuthority(m, e, now, durable), v, d)
    ensures Resting(CompleteWithoutAuthority(m, e, now), v, d) && Resting(Fail(m, e, now), v, d)
  {
    var s := m.sessions[e];
    assert !Tracks(m, e, v);
    CloseRests(m, e, Close(s), Retry(now + RETRY_DELAY, s.reconciliation), v, d);
    CloseRests(m, e, Close(s).(deferred := false), Retry(now + RETRY_DELAY, s.reconciliation || s.deferred), v, d);
  }

  lemma AddRests(m: Manager, e: Ephemeral, s: Session, v: Volume, d: Instant)
    requires Linked(m) && e !in m.sessions && !s.inProgress && Resting(m, v, d)
    ensures Resting(m.(sessions := m.sessions[e := s]), v, d)
  {
    var n := m.(sessions := m.sessions[e := s]);
    if v !in m.floors {
      var o :| Tracks(m, o, v) && o in m.queued;
      assert Tracks(n, o, v);
    }
    forall o | Tracks(n, o, v) ensures QuietUntil(n, o, d) {
      if o != e { assert QuietUntil(m, o, d); }
    }
  }

  lemma RequeueRests(m: Manager, w: Volume, now: Instant, v: Volume, d: Instant)
    requires Linked(m) && w in m.dispatching && Resting(m, v, d)
    ensures Resting(Requeue(m, w, now), v, d) && Resting(FloorDispatch(m, w), v, d) && Resting(Settle(m, w, now), v, d)
  {
    SameRests(m, Requeue(m, w, now), v, d);
    SameRests(m, FloorDispatch(m, w), v, d);
    SameRests(m, m.(dispatching := m.dispatching - {w}), v, d);
  }

  lemma SchedulerRests(st: State, step: Step, v: Volume, d: Instant)
    requires step.DoTake? || step.DoRequeue? || step.DoSettle? || step.DoFlush? || step.DoPostpone?
    requires Linked(st.mgr) && Enabled(st, step) && Resting(st.mgr, v, d) && !TakesRetryOf(st, step, v)
    ensures Resting(Apply(st, step).mgr, v, d)
  {
    var m := st.mgr;
    if step.DoTake? {
      SameRests(m, TakeDue(m, step.e), v, d);
    } else if step.DoPostpone? {
      SameRests(m, Postpone(m, step.now), v, d);
    } else if step.v in m.dispatching {
      RequeueRests(m, step.v, if step.DoFlush? then 0 else step.now, v, d);
    }
  }

  lemma StreamRests(st: State, step: Step, v: Volume, d: Instant)
    requires step.DoBatch? || step.DoBarrier? || step.DoJournal?
    requires Linked(st.mgr) && Enabled(st, step) && Resting(st.mgr, v, d)
    ensures Resting(Apply(st, step).mgr, v, d)
  {
    var m, e := st.mgr, step.e;
    if e in m.sessions {
      var s := m.sessions[e];
      assert s.volume == v ==> QuietUntil(m, e, d);
      SessionRests(m, e, s.(batchFailed := true), v, d);
      SessionRests(m, e, s.(awaiting := false, batchFailed := false), v, d);
    }
  }

  lemma EndRests(st: State, step: Step, v: Volume, d: Instant)
    requires step.DoComplete? || step.DoFail?
    requires Linked(st.mgr) && Enabled(st, step) && Resting(st.mgr, v, d)
    ensures Resting(Apply(st, step).mgr, v, d)
  {
    if Attributable(st.mgr, step.e) {
      TerminalRests(st.mgr, step.e, step.now, step.DoComplete? && Durable(st, step.e, step.fin), v, d);
    }
  }

  lemma StartsRest(st: State, step: Step, v: Volume, d: Instant)
    requires step.DoStart? || step.DoTrigger? || step.DoRearm?
    requires Linked(st.mgr) && Resting(st.mgr, v, d) && (step.DoRearm? ==> d <= step.now + RETRY_DELAY)
    ensures Resting(Apply(st, step).mgr, v, d)
  {
    RestingSendsNothing(st, step, v, d);
    if step.DoStart? {
      StartRests(st.mgr, step.e, step.v, step.sawComplete, step.barrier, v, d);
    } else if step.DoTrigger? {
      TriggerRests(st.mgr, step.e, step.v, Paused(st, step.e), v, d);
    } else {
      RearmRests(st.mgr, step.e, step.v, step.now, v, d);
    }
  }

  /** Neither a transfer nor a merge nor a re-arm moves a deadline earlier: for every bound `d` the
      volume keeps waiting at least until `d` until the scheduler takes its due retry or the engine stops. */
  lemma WaitingKept(st: State, step: Step, v: Volume, d: Instant)
    requires Linked(st.mgr) && Enabled(st, step) && Resting(st.mgr, v, d)
    requires !step.Stop? && !TakesRetryOf(st, step, v)
    requires step.DoRearm? ==> d <= step.now + RETRY_DELAY
    ensures Resting(Apply(st, step).mgr, v, d)
  {
    if step.DoStart? || step.DoTrigger? || step.DoRearm? {
      StartsRest(st, step, v, d);
    } else if step.DoRemove? {
      RemoveRests(st.mgr, step.e, step.now, v, d);
    } else if step.DoComplete? || step.DoFail? {
      EndRests(st, step, v, d);
    } else if step.DoBatch? || step.DoBarrier? || step.DoJournal? {
      StreamRests(st, step, v, d);
    } else if step.DoAdd? {
      AddRests(st.mgr, step.e, Session(step.v, step.letter, false, false, false, false, false), v, d);
    } else if step.DoTake? || step.DoRequeue? || step.DoSettle? || step.DoFlush? || step.DoPostpone? {
      SchedulerRests(st, step, v, d);
    } else {
      SameRests(st.mgr, Apply(st, step).mgr, v, d);
    }
  }

  /** While the connection is down a pass of the scheduler leaves every queued retry, of its kind, due no
      sooner than in five seconds and no later than that or than it was. */
  lemma PostponedForDelay(m: Manager, now: Instant, e: Ephemeral)
    requires e in m.queued
    ensures var n := Postpone(m, now);
            && n == m.(queued := n.queued) && n.queued.Keys == m.queued.Keys
            && n.queued[e].reconciliation == m.queued[e].reconciliation && n.queued[e].due >= now + 5
            && (n.queued[e].due == now + 5 || n.queued[e].due == m.queued[e].due)
            && n.queued[e].due >= m.queued[e].due
  {
    assert Postpone(m, now).queued.Keys == m.queued.Keys;
  }

  // ---- whole runs under a monotonic clock ----

  function TimeOf(step: Step, otherwise: Instant): Instant {
    if step.DoRemove? || step.DoStart? || step.DoTrigger? || step.DoRearm? || step.DoComplete? || step.DoFail?
       || step.DoTake? || step.DoRequeue? || step.DoSettle? || step.DoPostpone?
    then step.now else otherwise
  }

  /** The clock readings of the run never go back, starting from `t`. */
  predicate Clocked(steps: seq<Step>, t: Instant)
    decreases |steps|
  {
    steps == [] || (TimeOf(steps[0], t) >= t && Clocked(steps[1..], TimeOf(steps[0], t)))
  }

  /** Every deadline lies within the retry delay of the clock. */
  ghost predicate Timely(m: Manager, t: Instant) {
    && (forall e :: e in m.queued ==> m.queued[e].due <= t + RETRY_DELAY)
    && (forall v :: v in m.dispatching ==> m.dispatching[v].due <= t + RETRY_DELAY)
    && (forall v :: v in m.floors ==> m.floors[v].due <= t + RETRY_DELAY)
  }

  lemma InstallTimely(m: Manager, e: Ephemeral, v: Volume, r: Retry, t: Instant)
    requires Timely(m, t) && r.due <= t + RETRY_DELAY
    ensures Timely(Install(m, e, v, r), t)
  {
  }

  lemma RemoveTimely(m: Manager, e: Ephemeral, t: Instant)
    requires Timely(m, t) && e in m.sessions
    ensures Timely(RemoveSession(m, e, t), t)
  {
    var owed := OwedBySession(m, e, t);
    assert owed.Owed? ==> owed.retry.due <= t + RETRY_DELAY;
  }

  lemma CompletionTimely(m: Manager, e: Ephemeral, t: Instant, durable: bool)
    requires Timely(m, t) && e in m.sessions
    ensures Timely(CompleteWithAuthority(m, e, t, durable), t) && Timely(CompleteWithoutAuthority(m, e, t), t)
  {
    var s := m.sessions[e];
    var closed, kept := m.(sessions := m.sessions[e := Close(s)]), m.(sessions := m.sessions[e := Close(s).(deferred := false)]);
    InstallTimely(closed, e, s.volume, Retry(t + RETRY_DELAY, s.reconciliation), t);
    InstallTimely(kept, e, s.volume, Retry(t + RETRY_DELAY, s.reconciliation || s.deferred), t);
  }

  lemma RearmTimely(m: Manager, e: Ephemeral, v: Volume, t: Instant)
    requires Timely(m, t)
    ensures Timely(Rearm(m, e, v, t), t)
  {
    if Tracks(m, e, v) {
      var s := m.sessions[e].(inProgress := false, reconciliation := false);
      InstallTimely(m.(sessions := m.sessions[e := s]), e, v, Retry(t + RETRY_DELAY, true), t);
    }
  }

  lemma TerminalTimely(st: State, step: Step, t: Instant)
    requires step.DoComplete? || step.DoFail? || step.DoRearm? || step.DoRemove?
    requires Enabled(st, step) && Timely(st.mgr, t) && step.now >= t
    ensures Timely(Apply(st, step).mgr, step.now)
  {
    var m, e := st.mgr, step.e;
    assert Timely(m, step.now);
    if step.DoRearm? {
      RearmTimely(m, e, step.v, step.now);
    } else if step.DoRemove? {
      RemoveTimely(m, e, step.now);
    } else if Attributable(m, e) {
      if step.DoComplete? {
        CompletionTimely(m, e, step.now, Durable(st, e, step.fin));
      } else {
        var s := m.sessions[e];
        InstallTimely(m.(sessions := m.sessions[e := Close(s)]), e, s.volume,
                      Retry(step.now + RETRY_DELAY, s.reconciliation), step.now);
      }
    }
  }

  lemma StartTimely(st: State, step: Step, t: Instant)
    requires (step.DoStart? || step.DoTrigger?) && Timely(st.mgr, t) && step.now >= t
    ensures Timely(Apply(st, step).mgr, step.now)
  {
  }

  lemma SchedulerTimely(st: State, step: Step, t: Instant)
    requires step.DoTake? || step.DoRequeue? || step.DoSettle? || step.DoFlush? || step.DoPostpone?
    requires Enabled(st, step) && Timely(st.mgr, t) && TimeOf(step, t) >= t
    ensures Timely(Apply(st, step).mgr, TimeOf(step, t))
  {
  }

  lemma StepTimely(st: State, step: Step, t: Instant)
    requires Enabled(st, step) && Timely(st.mgr, t) && TimeOf(step, t) >= t
    ensures Timely(Apply(st, step).mgr, TimeOf(step, t))
  {
    if step.DoComplete? || step.DoFail? || step.DoRearm? || step.DoRemove? {
      TerminalTimely(st, step, t);
    } else if step.DoStart? || step.DoTrigger? {
      StartTimely(st, step, t);
    } else if step.DoTake? || step.DoRequeue? || step.DoSettle? || step.DoFlush? || step.DoPostpone? {
      SchedulerTimely(st, step, t);
    } else {
      var m, n := st.mgr, Apply(st, step).mgr;
      assert step.Stop? || (n.queued == m.queued && n.dispatching == m.dispatching && n.floors == m.floors);
    }
  }

  lemma RestingIsTimely(m: Manager, v: Volume, d: Instant, t: Instant)
    requires Resting(m, v, d) && Timely(m, t)
    ensures d <= t + RETRY_DELAY
  {
  }

  /** No step of the run sends a scan start for `v` before `d`. */
  predicate NoStartBefore(st: State, steps: seq<Step>, v: Volume, d: Instant)
    requires Legal(st, steps)
    decreases |steps|
  {
    steps == []
    || ((SendsFor(st, steps[0], v) ==> steps[0].now >= d) && NoStartBefore(Apply(st, steps[0]), steps[1..], v, d))
  }

  lemma {:induction false} PastDeadline(st: State, steps: seq<Step>, v: Volume, d: Instant, t: Instant)
    requires Legal(st, steps) && Clocked(steps, t) && t >= d
    ensures NoStartBefore(st, steps, v, d)
    decreases |steps|
  {
    if steps != [] {
      PastDeadline(Apply(st, steps[0]), steps[1..], v, d, TimeOf(steps[0], t));
    }
  }

  /** The run is one of the clock from `t` on in which the engine is not shut down. */
  predicate Continues(st: State, steps: seq<Step>, t: Instant) {
    Legal(st, steps) && Clocked(steps, t) && forall i :: 0 <= i < |steps| ==> !steps[i].Stop?
  }

  lemma {:induction false} CadenceFrom(st: State, steps: seq<Step>, v: Volume, d: Instant, t: Instant)
    requires Linked(st.mgr) && Continues(st, steps, t)
    requires Resting(st.mgr, v, d) && d <= t + RETRY_DELAY
    ensures NoStartBefore(st, steps, v, d)
    decreases |steps|
  {
    if steps != [] {
      var step, rest := steps[0], steps[1..];
      var next := Apply(st, step);
      RestingSendsNothing(st, step, v, d);
      if TakesRetryOf(st, step, v) {
        assert QuietUntil(st.mgr, step.e, d);
        PastDeadline(next, rest, v, d, step.now);
      } else {
        StepOwns(st, step);
        WaitingKept(st, step, v, d);
        CadenceFrom(next, rest, v, d, TimeOf(step, t));
      }
    }
  }

  /** A delivered scan failure or the loss of the session ends the attempt of `v` at `step.now`. */
  predicate EndsAttempt(st: State, step: Step, v: Volume) {
    || (step.DoFail? && Attributable(st.mgr, step.e) && Tracks(st.mgr, step.e, v))
    || (step.DoRemove? && Tracks(st.mgr, step.e, v) && st.mgr.sessions[step.e].inProgress)
  }

  lemma FailureRests(st: State, step: Step, v: Volume)
    requires Linked(st.mgr) && Enabled(st, step) && EndsAttempt(st, step, v) && OwnersOf(st.mgr, v) <= {Attempt}
    ensures Resting(Apply(st, step).mgr, v, step.now + RETRY_DELAY)
  {
    var m, n := st.mgr, Apply(st, step).mgr;
    assert QueuedRetry !in OwnersOf(m, v) && Dispatch !in OwnersOf(m, v) && Floor !in OwnersOf(m, v);
    if step.DoFail? && m.active {
      QueuedRests(n, step.e, v, step.now + RETRY_DELAY);
    }
  }

  function EndTime(steps: seq<Step>, t: Instant): Instant
    decreases |steps|
  {
    if steps == [] then t else EndTime(steps[1..], TimeOf(steps[0], t))
  }

  lemma {:induction false} ReachableTimely(st: State, steps: seq<Step>, t: Instant)
    requires Timely(st.mgr, t) && Legal(st, steps) && Clocked(steps, t)
    ensures Timely(After(st, steps).mgr, EndTime(steps, t))
    decreases |steps|
  {
    if steps != [] {
      StepTimely(st, steps[0], t);
      ReachableTimely(Apply(st, steps[0]), steps[1..], TimeOf(steps[0], t));
    }
  }

  /** Over every run, on every path (resume, reconnect, journal gap, periodic sweep, retry, late
      re-arm), a volume whose retry waits until `d` is not started before `d`. */
  lemma RetryCadence(before: seq<Step>, rest: seq<Step>, v: Volume, d: Instant, t: Instant)
    requires Legal(INITIAL, before) && Clocked(before, t)
    requires Resting(After(INITIAL, before).mgr, v, d)
    requires Continues(After(INITIAL, before), rest, EndTime(before, t))
    ensures NoStartBefore(After(INITIAL, before), rest, v, d)
  {
    LinkedThroughout(INITIAL, before);
    ReachableTimely(INITIAL, before, t);
    RestingIsTimely(After(INITIAL, before).mgr, v, d, EndTime(before, t));
    CadenceFrom(After(INITIAL, before), rest, v, d, EndTime(before, t));
  }

  /** After a failed or lost attempt, if it was the volume's only owner, no run restarts the volume
      within the retry delay. */
  lemma NoRestartWithinDelay(before: seq<Step>, step: Step, rest: seq<Step>, v: Volume)
    requires Legal(INITIAL, before)
    requires var st := After(INITIAL, before);
             && Enabled(st, step) && EndsAttempt(st, step, v) && OwnersOf(st.mgr, v) <= {Attempt}
             && Continues(Apply(st, step), rest, step.now)
    ensures NoStartBefore(Apply(After(INITIAL, before), step), rest, v, step.now + RETRY_DELAY)
  {
    var st := After(INITIAL, before);
    LinkedThroughout(INITIAL, before);
    StepOwns(st, step);
    FailureRests(st, step, v);
    CadenceFrom(Apply(st, step), rest, v, step.now + RETRY_DELAY, step.now);
  }

  // ---- when a re-armed retry is kept waiting ----

  /** A run that starts `v` before `d`, at once or later. */
  lemma StartsEarly(st: State, step: Step, rest: seq<Step>, v: Volume, d: Instant, t: Instant)
    requires Enabled(st, step) && !step.Stop? && TimeOf(step, t) >= t && Continues(Apply(st, step), rest, TimeOf(step, t))
    requires (SendsFor(st, step, v) && step.now < d) || !NoStartBefore(Apply(st, step), rest, v, d)
    ensures Continues(st, [step] + rest, t) && !NoStartBefore(st, [step] + rest, v, d)
  {
    var steps := [step] + rest;
    assert steps[1..] == rest;
    forall i | 0 <= i < |steps| ensures !steps[i].Stop? {
      if i > 0 { assert steps[i] == rest[i - 1]; }
    }
  }

  /** Only a queued retry that is due, of an idle session. */
  ghost predicate DueAlone(st: State, e: Ephemeral, v: Volume, t: Instant) {
    && Linked(st.mgr) && Tracks(st.mgr, e, v) && !st.mgr.sessions[e].inProgress
    && e in st.mgr.queued && st.mgr.queued[e].due <= t
    && v !in st.mgr.floors && v !in st.mgr.dispatching
    && !st.pausedAll && st.pausedLetters == {}
  }

  /** A fresh session with a due retry: it is taken and the scan started. */
  lemma FreshStartsEarly(st: State, e: Ephemeral, v: Volume, t: Instant, d: Instant) returns (steps: seq<Step>)
    requires DueAlone(st, e, v, t) && !st.mgr.sessions[e].batchFailed && t < d
    ensures Continues(st, steps, t) && !NoStartBefore(st, steps, v, d)
  {
    var take, trigger := DoTake(e, t), DoTrigger(e, v, t);
    var taken := Apply(st, take);
    assert SendsFor(taken, trigger, v);
    StartsEarly(taken, trigger, [], v, d, t);
    StartsEarly(st, take, [trigger] + [], v, d, t);
    steps := [take] + ([trigger] + []);
  }

  /** Any session with a due retry: the connection is lost and comes back. */
  lemma DueStartsEarly(st: State, e: Ephemeral, v: Volume, t: Instant, d: Instant) returns (steps: seq<Step>)
    requires DueAlone(st, e, v, t) && t < d
    ensures Continues(st, steps, t) && !NoStartBefore(st, steps, v, d)
  {
    var lost, add, trigger := DoRemove(e, t), DoAdd(e, v, 'C'), DoTrigger(e, v, t);
    var s1 := Apply(st, lost);
    StepOwns(st, lost);
    assert s1.mgr.floors[v] == st.mgr.queued[e] && v !in s1.mgr.dispatching && e !in s1.mgr.queued;
    var s2 := Apply(s1, add);
    StepOwns(s1, add);
    var s3 := Apply(s2, trigger);
    StepOwns(s2, trigger);
    assert s3.mgr == FloorToQueue(s2.mgr, e, v);
    var rest := FreshStartsEarly(s3, e, v, t, d);
    StartsEarly(s2, trigger, rest, v, d, t);
    StartsEarly(s1, add, [trigger] + rest, v, d, t);
    StartsEarly(st, lost, [add] + ([trigger] + rest), v, d, t);
    steps := [lost] + ([add] + ([trigger] + rest));
  }

  /** The slot a re-arm does not write holds no retry that is due before the re-armed one. */
  predicate NothingSooner(m: Manager, e: Ephemeral, v: Volume, d: Instant) {
    if m.active then v in m.floors ==> m.floors[v].due >= d else e in m.queued ==> m.queued[e].due >= d
  }

  /** In any linked state: after a re-arm no continuation starts the volume before the re-armed deadline
      if and only if the slot it does not write holds nothing sooner. */
  lemma RearmCadenceIff(st: State, e: Ephemeral, v: Volume, now: Instant)
    requires Linked(st.mgr) && Tracks(st.mgr, e, v)
    ensures var next, d := Apply(st, DoRearm(e, v, now)), now + RETRY_DELAY;
            (forall steps :: Continues(next, steps, now) ==> NoStartBefore(next, steps, v, d))
            <==> NothingSooner(st.mgr, e, v, d)
  {
    var next, d := Apply(st, DoRearm(e, v, now)), now + RETRY_DELAY;
    StepOwns(st, DoRearm(e, v, now));
    if NothingSooner(st.mgr, e, v, d) {
      RearmedRests(st.mgr, e, v, now);
      forall steps | Continues(next, steps, now) ensures NoStartBefore(next, steps, v, d) {
        CadenceFrom(next, steps, v, d, now);
      }
    } else {
      var steps := RearmStartsEarly(st, e, v, now);
      assert Continues(next, steps, now) && !NoStartBefore(next, steps, v, d);
    }
  }

  lemma RearmedRests(m: Manager, e: Ephemeral, v: Volume, now: Instant)
    requires Linked(m) && Tracks(m, e, v) && NothingSooner(m, e, v, now + RETRY_DELAY)
    ensures Resting(Rearm(m, e, v, now), v, now + RETRY_DELAY)
  {
    var n := Rearm(m, e, v, now);
    if m.active {
      QueuedRests(n, e, v, now + RETRY_DELAY);
    }
  }

  lemma RearmStartsEarly(st: State, e: Ephemeral, v: Volume, now: Instant) returns (steps: seq<Step>)
    requires Linked(st.mgr) && Tracks(st.mgr, e, v) && !NothingSooner(st.mgr, e, v, now + RETRY_DELAY)
    ensures var next := Apply(st, DoRearm(e, v, now));
            Continues(next, steps, now) && !NoStartBefore(next, steps, v, now + RETRY_DELAY)
  {
    var next, d := Apply(st, DoRearm(e, v, now)), now + RETRY_DELAY;
    StepOwns(st, DoRearm(e, v, now));
    var resume := SetPause(false, {});
    var s := Apply(next, resume);
    var rest: seq<Step>;
    if st.mgr.active {
      rest := FloorStartsEarly(s, e, v, now, d);
    } else {
      rest := QueueStartsEarly(s, e, v, now, d);
    }
    StartsEarly(next, resume, rest, v, d, now);
    steps := [resume] + rest;
  }

  /** While connected: the sooner floor replaces the queued retry. */
  lemma FloorStartsEarly(st: State, e: Ephemeral, v: Volume, now: Instant, d: Instant) returns (steps: seq<Step>)
    requires Linked(st.mgr) && Tracks(st.mgr, e, v) && !st.mgr.sessions[e].inProgress && v !in st.mgr.dispatching
    requires v in st.mgr.floors && st.mgr.floors[v].due < d && now < d && !st.pausedAll && st.pausedLetters == {}
    ensures Continues(st, steps, now) && !NoStartBefore(st, steps, v, d)
  {
    var t := Later(now, st.mgr.floors[v].due);
    var trigger := DoTrigger(e, v, t);
    var s := Apply(st, trigger);
    StepOwns(st, trigger);
    assert s.mgr == FloorToQueue(st.mgr, e, v);
    var rest := DueStartsEarly(s, e, v, t, d);
    StartsEarly(st, trigger, rest, v, d, now);
    steps := [trigger] + rest;
  }

  /** While not: the sooner queued retry is taken, the floor moves to the queue, and the retry in hand
      goes to the floor. */
  lemma QueueStartsEarly(st: State, e: Ephemeral, v: Volume, now: Instant, d: Instant) returns (steps: seq<Step>)
    requires Linked(st.mgr) && Tracks(st.mgr, e, v) && !st.mgr.sessions[e].inProgress && v !in st.mgr.dispatching
    requires v in st.mgr.floors && e in st.mgr.queued && st.mgr.queued[e].due < d && now < d
    requires !st.pausedAll && st.pausedLetters == {}
    ensures Continues(st, steps, now) && !NoStartBefore(st, steps, v, d)
  {
    var t := Later(now, st.mgr.queued[e].due);
    var take := DoTake(e, t);
    StepOwns(st, take);
    var rest := InHandStartsEarly(Apply(st, take), e, v, t, d);
    StartsEarly(st, take, rest, v, d, now);
    steps := [take] + rest;
  }

  lemma InHandStartsEarly(st: State, e: Ephemeral, v: Volume, t: Instant, d: Instant) returns (steps: seq<Step>)
    requires Linked(st.mgr) && Tracks(st.mgr, e, v) && !st.mgr.sessions[e].inProgress && v in st.mgr.dispatching
    requires v in st.mgr.floors && st.mgr.dispatching[v].due <= t < d
    requires !st.pausedAll && st.pausedLetters == {}
    ensures Continues(st, steps, t) && !NoStartBefore(st, steps, v, d)
  {
    var trigger, flush := DoTrigger(e, v, t), DoFlush(v);
    var s := Apply(st, trigger);
    StepOwns(st, trigger);
    assert s.mgr == FloorToQueue(st.mgr, e, v);
    StepOwns(s, flush);
    var rest := FloorStartsEarly(Apply(s, flush), e, v, t, d);
    StartsEarly(s, flush, rest, v, d, t);
    StartsEarly(st, trigger, [flush] + rest, v, d, t);
    steps := [trigger] + ([flush] + rest);
  }

  /** A run that ends with such a re-arm: the start request timed out after five seconds, while the
      connection was lost and came back.  The queued retry is due at 10; a scan is started at 5, and the
      loss of the connection on the way to it is the reset that follows the re-arm. */
  lemma LateRearmStartsEarly() returns (before: seq<Step>, rest: seq<Step>)
    ensures Legal(INITIAL, before) && Continues(After(INITIAL, before), rest, 5)
    ensures var m := After(INITIAL, before).mgr;
            Tracks(m, 1, 7) && 1 in m.queued && m.queued[1].due == 10 && !m.sessions[1].inProgress
    ensures !NoStartBefore(After(INITIAL, before), rest, 7, 6)
  {
    before := LateRearm();
    var st, resume := After(INITIAL, before), SetPause(false, {});
    rest := FloorStartsEarly(Apply(st, resume), 1, 7, 5, 6);
    StartsEarly(st, resume, rest, 7, 6, 5);
    rest := [resume] + rest;
  }

  lemma LateRearm() returns (steps: seq<Step>)
    ensures Legal(INITIAL, steps) && Linked(After(INITIAL, steps).mgr)
    ensures var m := After(INITIAL, steps).mgr;
            && Tracks(m, 1, 7) && !m.sessions[1].inProgress && 1 in m.queued && m.queued[1].due == 10
            && m.floors == map[7 := Retry(5, true)] && 7 !in m.dispatching
  {
    steps := LateRearmDoublesOwner(5);
    LinkedThroughout(INITIAL, steps);
    StepOwns(After(INITIAL, steps), DoRearm(1, 7, 5));
    Append(INITIAL, steps, DoRearm(1, 7, 5));
    steps := steps + [DoRearm(1, 7, 5)];
  }
}
