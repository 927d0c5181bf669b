/**
  Every durable volume has at most one retry owner, and a step never loses the owner except where
  the intent is satisfied or the engine stops.
 */
module SessionOwnership {
  import opened SessionSteps

  datatype Owner = Attempt | QueuedRetry | Dispatch | Floor

  /** The owners of one durable volume's retry intent, read directly off the state. */
  ghost function OwnersOf(m: Manager, v: Volume): set<Owner> {
    (if exists e :: Tracks(m, e, v) && m.sessions[e].inProgress then {Attempt} else {})
    + (if exists e :: Tracks(m, e, v) && e in m.queued then {QueuedRetry} else {})
    + (if v in m.dispatching then {Dispatch} else {})
    + (if v in m.floors then {Floor} else {})
  }

  ghost predicate Owned(m: Manager, v: Volume) {
    OwnersOf(m, v) != {}
  }

  // ---- the invariant ----

  /** The four slots of one session's volume exclude each other, and what the scheduler holds for
      the volume belongs to this session. */
  predicate Exclusive(m: Manager, e: Ephemeral, v: Volume) {
    && (e in m.sessions ==>
          && m.sessions[e].volume == v
          && (m.sessions[e].inProgress ==> e !in m.queued && v !in m.dispatching && v !in m.floors))
    && (e in m.queued ==> e in m.sessions && v !in m.dispatching && v !in m.floors)
    && (v in m.dispatching ==> v !in m.floors && v in m.inHand && m.inHand[v] == e && e in m.sessions)
  }

  ghost predicate DistinctVolumes(m: Manager) {
    forall e, o :: e in m.sessions && o in m.sessions && m.sessions[e].volume == m.sessions[o].volume ==> e == o
  }

  /** What every run keeps: one session per volume, and no retry slot without its session. */
  ghost predicate Linked(m: Manager) {
    && DistinctVolumes(m)
    && (forall e :: e in m.queued ==> e in m.sessions)
    && (forall v :: v in m.dispatching ==> v in m.inHand && Tracks(m, m.inHand[v], v))
  }

  ghost predicate Inv(m: Manager) {
    && Linked(m)
    && (forall e :: e in m.sessions ==> Exclusive(m, e, m.sessions[e].volume))
  }

  lemma InvGivesSingleOwner(m: Manager, v: Volume)
    requires Inv(m)
    ensures |OwnersOf(m, v)| <= 1
  {
    forall e | Tracks(m, e, v) ensures Exclusive(m, e, v) { }
    var s := OwnersOf(m, v);
    assert s == {} || s == {Attempt} || s == {QueuedRetry} || s == {Dispatch} || s == {Floor};
  }

  // ---- every step touches one session and one volume ----

  ghost predicate SameOutside<K(!new), V(!new)>(a: map<K, V>, b: map<K, V>, k: K) {
    forall o :: o != k ==> ((o in a <==> o in b) && (o in a ==> b[o] == a[o]))
  }

  /** `n` differs from `m` at most in session `e` and the durable slots of volume `v`. */
  ghost predicate SameElsewhere(m: Manager, n: Manager, e: Ephemeral, v: Volume) {
    && SameOutside(m.sessions, n.sessions, e)
    && SameOutside(m.queued, n.queued, e)
    && SameOutside(m.dispatching, n.dispatching, v)
    && SameOutside(m.floors, n.floors, v)
    && SameOutside(m.inHand, n.inHand, v)
  }

  /** No session other than `e` is tracked for `v`, before or after. */
  ghost predicate Alone(m: Manager, e: Ephemeral, v: Volume) {
    && (e in m.sessions ==> m.sessions[e].volume == v)
    && (forall o :: o in m.sessions && m.sessions[o].volume == v ==> o == e)
  }

  /** The links of session `e` and volume `v` hold. */
  predicate Tied(m: Manager, e: Ephemeral, v: Volume) {
    && (e in m.sessions ==> m.sessions[e].volume == v)
    && (e in m.queued ==> e in m.sessions)
    && (v in m.dispatching ==> v in m.inHand && Tracks(m, m.inHand[v], v))
  }

  lemma LocalLinked(m: Manager, n: Manager, e: Ephemeral, v: Volume)
    requires Linked(m) && SameElsewhere(m, n, e, v) && Alone(m, e, v) && Tied(n, e, v)
    ensures Linked(n)
  {
    forall w | w in n.dispatching && w != v ensures w in n.inHand && Tracks(n, n.inHand[w], w) {
      assert Tracks(m, m.inHand[w], w);
    }
  }

  lemma LocalInv(m: Manager, n: Manager, e: Ephemeral, v: Volume)
    requires Inv(m) && SameElsewhere(m, n, e, v) && Alone(m, e, v)
    requires Exclusive(n, e, v)
    ensures Inv(n)
  {
    LocalLinked(m, n, e, v);
    forall o | o in n.sessions ensures Exclusive(n, o, n.sessions[o].volume) {
      if o != e {
        assert Exclusive(m, o, m.sessions[o].volume);
      }
    }
  }

  /** The owners of `v` when only session `e` can be tracked for it. */
  function OwnersHere(m: Manager, e: Ephemeral, v: Volume): set<Owner> {
    (if Tracks(m, e, v) && m.sessions[e].inProgress then {Attempt} else {})
    + (if Tracks(m, e, v) && e in m.queued then {QueuedRetry} else {})
    + (if v in m.dispatching then {Dispatch} else {})
    + (if v in m.floors then {Floor} else {})
  }

  lemma OwnersAlone(m: Manager, e: Ephemeral, v: Volume)
    requires Alone(m, e, v)
    ensures OwnersOf(m, v) == OwnersHere(m, e, v)
  {
    assert Tracks(m, e, v) || forall o :: !Tracks(m, o, v);
  }

  lemma OwnersElsewhere(m: Manager, n: Manager, e: Ephemeral, v: Volume, w: Volume)
    requires SameElsewhere(m, n, e, v) && w != v
    requires e in m.sessions ==> m.sessions[e].volume == v
    requires e in n.sessions ==> n.sessions[e].volume == v
    ensures OwnersOf(n, w) == OwnersOf(m, w)
  {
    assert forall o :: Tracks(m, o, w) <==> Tracks(n, o, w);
  }

  /** A change local to `e` and `v` whose result is exclusive: the invariant is kept, the owners of
      every other volume are untouched, and `v` has the owners its own slots show. */
  lemma Local(m: Manager, n: Manager, e: Ephemeral, v: Volume)
    requires Inv(m) && SameElsewhere(m, n, e, v) && Alone(m, e, v)
    requires Exclusive(n, e, v)
    ensures Inv(n)
    ensures forall w :: w != v ==> OwnersOf(n, w) == OwnersOf(m, w)
    ensures OwnersOf(m, v) == OwnersHere(m, e, v)
    ensures OwnersOf(n, v) == OwnersHere(n, e, v)
  {
    LocalInv(m, n, e, v);
    OwnersAlone(m, e, v);
    OwnersAlone(n, e, v);
    forall w | w != v ensures OwnersOf(n, w) == OwnersOf(m, w) {
      OwnersElsewhere(m, n, e, v, w);
    }
  }

  // ---- the transitions between owners ----

  /** From `m` to `n` only volume `v` changes owner, and `owners` are its owners afterwards. */
  ghost predicate MovesTo(m: Manager, n: Manager, v: Volume, owners: set<Owner>) {
    && Inv(n)
    && (forall w :: w != v ==> OwnersOf(n, w) == OwnersOf(m, w))
    && OwnersOf(n, v) == owners
  }

  lemma RemoveMoves(m: Manager, e: Ephemeral, now: Instant)
    requires Inv(m) && e in m.sessions
    ensures var v := m.sessions[e].volume;
            MovesTo(m, RemoveSession(m, e, now), v, if Owned(m, v) then {Floor} else {})
  {
    Local(m, RemoveSession(m, e, now), e, m.sessions[e].volume);
  }

  lemma FloorToQueueMoves(m: Manager, e: Ephemeral, v: Volume)
    requires Inv(m) && Tracks(m, e, v) && v in m.floors
    ensures MovesTo(m, FloorToQueue(m, e, v), v, {QueuedRetry})
  {
    Local(m, FloorToQueue(m, e, v), e, v);
  }

  lemma ClaimMoves(m: Manager, e: Ephemeral, claimed: Session)
    requires Inv(m) && Tracks(m, e, claimed.volume)
    requires claimed.volume !in m.floors
    ensures MovesTo(m, Claim(m, e, claimed), claimed.volume, {Attempt})
  {
    Local(m, Claim(m, e, claimed), e, claimed.volume);
  }

  /** Flags that leave the attempt in flight, or not, as it was. */
  lemma FlagMoves(m: Manager, e: Ephemeral, s: Session)
    requires Inv(m) && Tracks(m, e, s.volume) && s.inProgress == m.sessions[e].inProgress
    ensures MovesTo(m, m.(sessions := m.sessions[e := s]), s.volume, OwnersOf(m, s.volume))
  {
    Local(m, m.(sessions := m.sessions[e := s]), e, s.volume);
  }

  ghost function RetrySlot(m: Manager): set<Owner> {
    if m.active then {QueuedRetry} else {Floor}
  }

  lemma FailMoves(m: Manager, e: Ephemeral, now: Instant)
    requires Inv(m) && Attributable(m, e)
    ensures MovesTo(m, Fail(m, e, now), m.sessions[e].volume, RetrySlot(m))
  {
    Local(m, Fail(m, e, now), e, m.sessions[e].volume);
  }

  /** The slot a re-arm does not write is empty: the floor while connected, the queue while not. */
  predicate RearmFree(m: Manager, e: Ephemeral, v: Volume) {
    if m.active then v !in m.floors else e !in m.queued
  }

  lemma RearmMoves(m: Manager, e: Ephemeral, v: Volume, now: Instant)
    requires Inv(m) && Tracks(m, e, v) && RearmFree(m, e, v)
    ensures MovesTo(m, Rearm(m, e, v, now), v, RetrySlot(m))
  {
    Local(m, Rearm(m, e, v, now), e, v);
  }

  lemma CloseMoves(m: Manager, e: Ephemeral, s: Session)
    requires Inv(m) && Attributable(m, e) && s.volume == m.sessions[e].volume && !s.inProgress
    ensures MovesTo(m, m.(sessions := m.sessions[e := s]), s.volume, {})
  {
    Local(m, m.(sessions := m.sessions[e := s]), e, s.volume);
  }

  lemma CompleteWithoutAuthorityMoves(m: Manager, e: Ephemeral, now: Instant)
    requires Inv(m) && Attributable(m, e)
    ensures MovesTo(m, CompleteWithoutAuthority(m, e, now), m.sessions[e].volume,
                    if m.sessions[e].batchFailed then RetrySlot(m) else {})
  {
    if m.sessions[e].batchFailed {
      FailMoves(m, e, now);
    } else {
      CloseMoves(m, e, Close(m.sessions[e]));
    }
  }

  lemma CompleteWithAuthorityMoves(m: Manager, e: Ephemeral, now: Instant, durable: bool)
    requires Inv(m) && Attributable(m, e)
    ensures MovesTo(m, CompleteWithAuthority(m, e, now, durable), m.sessions[e].volume,
                    if durable then {} else RetrySlot(m))
  {
    Local(m, CompleteWithAuthority(m, e, now, durable), e, m.sessions[e].volume);
  }

  lemma RequeueMoves(m: Manager, v: Volume, now: Instant)
    requires Inv(m) && v in m.dispatching
    ensures MovesTo(m, Requeue(m, v, now), v, {QueuedRetry})
  {
    Local(m, Requeue(m, v, now), m.inHand[v], v);
  }

  lemma FlushMoves(m: Manager, v: Volume)
    requires Inv(m) && v in m.dispatching
    ensures MovesTo(m, FloorDispatch(m, v), v, {Floor})
  {
    Local(m, FloorDispatch(m, v), m.inHand[v], v);
  }

  lemma TakeMoves(m: Manager, e: Ephemeral)
    requires Inv(m) && e in m.queued
    ensures MovesTo(m, TakeDue(m, e), m.sessions[e].volume, {Dispatch})
  {
    Local(m, TakeDue(m, e), e, m.sessions[e].volume);
  }

  lemma AddMoves(m: Manager, e: Ephemeral, s: Session)
    requires Inv(m) && e !in m.sessions && !s.inProgress
    requires forall o :: o in m.sessions ==> m.sessions[o].volume != s.volume
    ensures MovesTo(m, m.(sessions := m.sessions[e := s]), s.volume, OwnersOf(m, s.volume))
  {
    Local(m, m.(sessions := m.sessions[e := s]), e, s.volume);
  }

  /** Steps that leave the retry slots alone, or only raise deadlines. */
  lemma QuietMoves(m: Manager, n: Manager)
    requires Inv(m)
    requires n.sessions == m.sessions && n.queued.Keys == m.queued.Keys
    requires n.dispatching == m.dispatching && n.floors == m.floors
    requires forall v :: v in m.dispatching ==> v in n.inHand && n.inHand[v] == m.inHand[v]
    ensures Inv(n)
    ensures forall v :: OwnersOf(n, v) == OwnersOf(m, v)
  {
    forall v ensures OwnersOf(n, v) == OwnersOf(m, v) {
      assert forall e :: Tracks(n, e, v) <==> Tracks(m, e, v);
      assert forall e :: e in n.queued <==> e in m.queued;
    }
    assert forall e :: e in n.queued <==> e in m.queued;
  }

  // ---- one owner ----

  /** A re-arm that finds its volume tracked finds the slot it does not write empty. */
  predicate Tidy(st: State, step: Step) {
    step.DoRearm? && Tracks(st.mgr, step.e, step.v) ==> RearmFree(st.mgr, step.e, step.v)
  }

  lemma StartKeeps(st: State, step: Step)
    requires step.DoStart? && Inv(st.mgr)
    ensures Inv(Apply(st, step).mgr)
  {
    var m, e, v := st.mgr, step.e, step.v;
    if Tracks(m, e, v) && !m.sessions[e].awaiting {
      var s := m.sessions[e];
      if v in m.floors {
        FloorToQueueMoves(m, e, v);
      } else if StartSends(m, e, v, step.sawComplete, step.barrier) {
        ClaimMoves(m, e, s.(reconciliation := false, awaiting := Ambiguous(s),
                            batchFailed := s.batchFailed && Ambiguous(s)));
      }
    }
  }

  lemma TriggerKeeps(st: State, step: Step)
    requires step.DoTrigger? && Inv(st.mgr)
    ensures Inv(Apply(st, step).mgr)
  {
    var m, e, v := st.mgr, step.e, step.v;
    if Tracks(m, e, v) && !Paused(st, e) {
      var s := m.sessions[e];
      if s.inProgress {
        FlagMoves(m, e, s.(deferred := true));
      } else if v in m.floors {
        FloorToQueueMoves(m, e, v);
      } else if TriggerSends(m, e, v, Paused(st, e)) {
        ClaimMoves(m, e, s.(reconciliation := true));
      }
    }
  }

  lemma TerminalKeeps(st: State, step: Step)
    requires (step.DoComplete? || step.DoFail?) && Inv(st.mgr) && Enabled(st, step)
    ensures Inv(Apply(st, step).mgr)
  {
    var m, e := st.mgr, step.e;
    if Attributable(m, e) {
      if step.DoFail? {
        FailMoves(m, e, step.now);
      } else if Authoritative(st, e) {
        CompleteWithAuthorityMoves(m, e, step.now, Durable(st, e, step.fin));
      } else {
        CompleteWithoutAuthorityMoves(m, e, step.now);
      }
    }
  }

  lemma SchedulerKeeps(st: State, step: Step)
    requires step.DoTake? || step.DoRequeue? || step.DoSettle? || step.DoFlush?
    requires Inv(st.mgr) && Enabled(st, step)
    ensures Inv(Apply(st, step).mgr)
  {
    match step
    case DoTake(e, _) => TakeMoves(st.mgr, e);
    case DoRequeue(v, now) => RequeueMoves(st.mgr, v, now);
    case DoSettle(v, now) =>
      if v in st.mgr.dispatching {
        RequeueMoves(st.mgr, v, now);
      }
    case DoFlush(v) => FlushMoves(st.mgr, v);
  }

  lemma SessionKeeps(st: State, step: Step)
    requires step.DoAdd? || step.DoRemove? || step.DoRearm? || step.DoBatch? || step.DoBarrier?
    requires Inv(st.mgr) && Enabled(st, step) && Tidy(st, step)
    ensures Inv(Apply(st, step).mgr)
  {
    var m := st.mgr;
    match step
    case DoAdd(e, v, letter) => AddMoves(m, e, Session(v, letter, false, false, false, false, false));
    case DoRemove(e, now) => RemoveMoves(m, e, now);
    case DoRearm(e, v, now) =>
      if Tracks(m, e, v) {
        RearmMoves(m, e, v, now);
      }
    case DoBatch(e, _, _, _) =>
      if e in m.sessions {
        FlagMoves(m, e, m.sessions[e].(batchFailed := true));
      }
    case DoBarrier(e) =>
      if e in m.sessions {
        FlagMoves(m, e, m.sessions[e].(awaiting := false, batchFailed := false));
      }
  }

  lemma StepKeeps(st: State, step: Step)
    requires Inv(st.mgr) && Enabled(st, step) && Tidy(st, step)
    ensures Inv(Apply(st, step).mgr)
  {
    if step.DoStart? {
      StartKeeps(st, step);
    } else if step.DoTrigger? {
      TriggerKeeps(st, step);
    } else if step.DoComplete? || step.DoFail? {
      TerminalKeeps(st, step);
    } else if step.DoTake? || step.DoRequeue? || step.DoSettle? || step.DoFlush? {
      SchedulerKeeps(st, step);
    } else if step.DoAdd? || step.DoRemove? || step.DoRearm? || step.DoBatch? || step.DoBarrier? {
      SessionKeeps(st, step);
    } else if !step.Stop? {
      QuietMoves(st.mgr, Apply(st, step).mgr);
    }
  }

  /** Every re-arm of the run is tidy. */
  predicate AllTidy(st: State, steps: seq<Step>)
    requires Legal(st, steps)
    decreases |steps|
  {
    steps == [] || (Tidy(st, steps[0]) && AllTidy(Apply(st, steps[0]), steps[1..]))
  }

  lemma {:induction false} ReachableInv(st: State, steps: seq<Step>)
    requires Inv(st.mgr) && Legal(st, steps) && AllTidy(st, steps)
    ensures Inv(After(st, steps).mgr)
    decreases |steps|
  {
    if steps != [] {
      StepKeeps(st, steps[0]);
      ReachableInv(Apply(st, steps[0]), steps[1..]);
    }
  }

  ghost predicate SingleOwners(m: Manager) {
    forall v :: |OwnersOf(m, v)| <= 1
  }

  /** No state of the run gives a volume two owners. */
  ghost predicate SingleThroughout(st: State, steps: seq<Step>)
    requires Legal(st, steps)
    decreases |steps|
  {
    SingleOwners(st.mgr) && (steps == [] || SingleThroughout(Apply(st, steps[0]), steps[1..]))
  }

  lemma {:induction false} SingleThroughoutFrom(st: State, steps: seq<Step>)
    requires Inv(st.mgr) && Legal(st, steps)
    ensures SingleThroughout(st, steps) <==> AllTidy(st, steps)
    decreases |steps|
  {
    forall v ensures |OwnersOf(st.mgr, v)| <= 1 {
      InvGivesSingleOwner(st.mgr, v);
    }
    if steps != [] {
      var step, next := steps[0], Apply(st, steps[0]);
      if Tidy(st, step) {
        StepKeeps(st, step);
        SingleThroughoutFrom(next, steps[1..]);
      } else {
        RearmKeepsSingleOwnerIff(st.mgr, step.e, step.v, step.now);
        assert OwnersOf(next.mgr, step.v) != {};
        assert !SingleOwners(next.mgr) by { assert |OwnersOf(next.mgr, step.v)| > 1; }
        assert !SingleThroughout(next, steps[1..]);
      }
    }
  }

  /** Over every run: each durable volume always has at most one retry owner if and only if every
      re-arm of the run finds the slot it does not write empty. */
  lemma SingleRetryOwnerIff(steps: seq<Step>)
    requires Legal(INITIAL, steps)
    ensures SingleThroughout(INITIAL, steps) <==> AllTidy(INITIAL, steps)
  {
    SingleThroughoutFrom(INITIAL, steps);
  }

  // ---- never lost ----

  /** The steps that may end an intent: shutdown, a completion made durable, and a completion that
      arrives while the volume is paused with no batch lost. */
  predicate Releases(st: State, step: Step, v: Volume) {
    || step.Stop?
    || (step.DoComplete? && Attributable(st.mgr, step.e) && st.mgr.sessions[step.e].volume == v
        && !st.mgr.sessions[step.e].batchFailed
        && (Paused(st, step.e) || Durable(st, step.e, step.fin)))
  }

  /** The links are kept, and every owned volume stays owned, `v` if `kept`. */
  ghost predicate Keeping(m: Manager, n: Manager, v: Volume, kept: bool) {
    && Linked(n)
    && (forall w :: w != v && Owned(m, w) ==> Owned(n, w))
    && (kept && Owned(m, v) ==> Owned(n, v))
  }

  /** A change local to `e` and `v` that leaves `v` an owner if it had one. */
  lemma KeptLocally(m: Manager, n: Manager, e: Ephemeral, v: Volume, kept: bool)
    requires Linked(m) && SameElsewhere(m, n, e, v) && Alone(m, e, v) && Tied(n, e, v)
    requires kept ==> OwnersHere(m, e, v) == {} || OwnersHere(n, e, v) != {}
    ensures Keeping(m, n, v, kept)
  {
    LocalLinked(m, n, e, v);
    OwnersAlone(m, e, v);
    OwnersAlone(n, e, v);
    forall w | w != v ensures OwnersOf(n, w) == OwnersOf(m, w) {
      OwnersElsewhere(m, n, e, v, w);
    }
  }

  /** The links are kept, and an owned volume stays owned unless the step may end its intent. */
  ghost predicate KeepsOwners(st: State, step: Step)
    requires Enabled(st, step)
  {
    && Linked(Apply(st, step).mgr)
    && forall v :: Owned(st.mgr, v) && !Releases(st, step, v) ==> Owned(Apply(st, step).mgr, v)
  }

  lemma FloorToQueueOwns(m: Manager, e: Ephemeral, v: Volume)
    requires Linked(m) && Tracks(m, e, v) && v in m.floors
    ensures Keeping(m, FloorToQueue(m, e, v), v, true)
  {
    KeptLocally(m, FloorToQueue(m, e, v), e, v, true);
  }

  lemma ClaimOwns(m: Manager, e: Ephemeral, claimed: Session)
    requires Linked(m) && Tracks(m, e, claimed.volume)
    ensures Keeping(m, Claim(m, e, claimed), claimed.volume, true)
  {
    KeptLocally(m, Claim(m, e, claimed), e, claimed.volume, true);
  }

  lemma FlagOwns(m: Manager, e: Ephemeral, s: Session)
    requires Linked(m) && Tracks(m, e, s.volume) && s.inProgress == m.sessions[e].inProgress
    ensures Keeping(m, m.(sessions := m.sessions[e := s]), s.volume, true)
  {
    KeptLocally(m, m.(sessions := m.sessions[e := s]), e, s.volume, true);
  }

  lemma RemoveOwns(m: Manager, e: Ephemeral, now: Instant)
    requires Linked(m) && e in m.sessions
    ensures Keeping(m, RemoveSession(m, e, now), m.sessions[e].volume, true)
  {
    KeptLocally(m, RemoveSession(m, e, now), e, m.sessions[e].volume, true);
  }

  lemma StartOwns(st: State, step: Step)
    requires step.DoStart? && Linked(st.mgr)
    ensures KeepsOwners(st, step)
  {
    var m, e, v := st.mgr, step.e, step.v;
    if Tracks(m, e, v) && !m.sessions[e].awaiting {
      var s := m.sessions[e];
      if v in m.floors {
        FloorToQueueOwns(m, e, v);
      } else if StartSends(m, e, v, step.sawComplete, step.barrier) {
        ClaimOwns(m, e, s.(reconciliation := false, awaiting := Ambiguous(s),
                           batchFailed := s.batchFailed && Ambiguous(s)));
      }
    }
  }

  lemma TriggerOwns(st: State, step: Step)
    requires step.DoTrigger? && Linked(st.mgr)
    ensures KeepsOwners(st, step)
  {
    var m, e, v := st.mgr, step.e, step.v;
    if Tracks(m, e, v) && !Paused(st, e) {
      var s := m.sessions[e];
      if s.inProgress {
        FlagOwns(m, e, s.(deferred := true));
      } else if v in m.floors {
        FloorToQueueOwns(m, e, v);
      } else if TriggerSends(m, e, v, Paused(st, e)) {
        ClaimOwns(m, e, s.(reconciliation := true));
      }
    }
  }

  lemma CompleteOwns(st: State, step: Step)
    requires step.DoComplete? && Linked(st.mgr) && Enabled(st, step)
    ensures KeepsOwners(st, step)
  {
    var m, e := st.mgr, step.e;
    if Attributable(m, e) {
      if Authoritative(st, e) {
        AuthorityOwns(m, e, step.now, Durable(st, e, step.fin));
      } else {
        WithoutAuthorityOwns(m, e, step.now);
      }
    }
  }

  lemma WithoutAuthorityOwns(m: Manager, e: Ephemeral, now: Instant)
    requires Linked(m) && e in m.sessions
    ensures Keeping(m, CompleteWithoutAuthority(m, e, now), m.sessions[e].volume, m.sessions[e].batchFailed)
  {
    KeptLocally(m, CompleteWithoutAuthority(m, e, now), e, m.sessions[e].volume, m.sessions[e].batchFailed);
  }

  lemma AuthorityOwns(m: Manager, e: Ephemeral, now: Instant, durable: bool)
    requires Linked(m) && e in m.sessions
    ensures Keeping(m, CompleteWithAuthority(m, e, now, durable), m.sessions[e].volume, !durable)
  {
    KeptLocally(m, CompleteWithAuthority(m, e, now, durable), e, m.sessions[e].volume, !durable);
  }

  lemma FailKeeps(m: Manager, e: Ephemeral, now: Instant)
    requires Linked(m) && e in m.sessions
    ensures Keeping(m, Fail(m, e, now), m.sessions[e].volume, true)
  {
    KeptLocally(m, Fail(m, e, now), e, m.sessions[e].volume, true);
  }

  lemma FailOwns(st: State, step: Step)
    requires step.DoFail? && Linked(st.mgr)
    ensures KeepsOwners(st, step)
  {
    if Attributable(st.mgr, step.e) {
      FailKeeps(st.mgr, step.e, step.now);
    }
  }

  lemma RearmKeeps(m: Manager, e: Ephemeral, v: Volume, now: Instant)
    requires Linked(m) && Tracks(m, e, v)
    ensures Keeping(m, Rearm(m, e, v, now), v, true)
  {
    KeptLocally(m, Rearm(m, e, v, now), e, v, true);
  }

  lemma RearmOwns(st: State, step: Step)
    requires step.DoRearm? && Linked(st.mgr)
    ensures KeepsOwners(st, step)
  {
    if Tracks(st.mgr, step.e, step.v) {
      RearmKeeps(st.mgr, step.e, step.v, step.now);
    }
  }

  lemma TakeOwns(m: Manager, e: Ephemeral)
    requires Linked(m) && e in m.queued
    ensures Keeping(m, TakeDue(m, e), m.sessions[e].volume, true)
  {
    KeptLocally(m, TakeDue(m, e), e, m.sessions[e].volume, true);
  }

  lemma RequeueOwns(m: Manager, v: Volume, now: Instant)
    requires Linked(m) && v in m.dispatching
    ensures Keeping(m, Requeue(m, v, now), v, true)
  {
    KeptLocally(m, Requeue(m, v, now), m.inHand[v], v, true);
  }

  lemma FlushOwns(m: Manager, v: Volume)
    requires Linked(m) && v in m.dispatching
    ensures Keeping(m, FloorDispatch(m, v), v, true)
  {
    KeptLocally(m, FloorDispatch(m, v), m.inHand[v], v, true);
  }

  lemma SettleOwns(m: Manager, v: Volume, now: Instant)
    requires Linked(m) && v in m.dispatching
    ensures Keeping(m, Settle(m, v, now), v, true)
  {
    if m.sessions[m.inHand[v]].inProgress {
      KeptLocally(m, m.(dispatching := m.dispatching - {v}), m.inHand[v], v, true);
    } else {
      RequeueOwns(m, v, now);
    }
  }

  lemma SchedulerOwns(st: State, step: Step)
    requires step.DoTake? || step.DoRequeue? || step.DoSettle? || step.DoFlush?
    requires Linked(st.mgr) && Enabled(st, step)
    ensures KeepsOwners(st, step)
  {
    match step
    case DoTake(e, _) => TakeOwns(st.mgr, e);
    case DoRequeue(v, now) => RequeueOwns(st.mgr, v, now);
    case DoSettle(v, now) =>
      if v in st.mgr.dispatching {
        SettleOwns(st.mgr, v, now);
      }
    case DoFlush(v) => FlushOwns(st.mgr, v);
  }

  lemma SessionOwns(st: State, step: Step)
    requires step.DoAdd? || step.DoRemove? || step.DoBatch? || step.DoBarrier?
    requires Linked(st.mgr) && Enabled(st, step)
    ensures KeepsOwners(st, step)
  {
    var m, e := st.mgr, step.e;
    if step.DoAdd? {
      KeptLocally(m, Apply(st, step).mgr, e, step.v, true);
    } else if e in m.sessions {
      if step.DoRemove? {
        RemoveOwns(m, e, step.now);
      } else if step.DoBatch? {
        FlagOwns(m, e, m.sessions[e].(batchFailed := true));
      } else {
        FlagOwns(m, e, m.sessions[e].(awaiting := false, batchFailed := false));
      }
    }
  }

  lemma QuietOwns(m: Manager, n: Manager)
    requires Linked(m)
    requires n.sessions == m.sessions && n.queued.Keys == m.queued.Keys
    requires n.dispatching == m.dispatching && n.floors == m.floors
    requires forall v :: v in m.dispatching ==> v in n.inHand && n.inHand[v] == m.inHand[v]
    ensures Linked(n)
    ensures forall v :: OwnersOf(n, v) == OwnersOf(m, v)
  {
    assert forall e :: e in n.queued <==> e in m.queued;
    forall v ensures OwnersOf(n, v) == OwnersOf(m, v) {
      assert forall e :: Tracks(n, e, v) <==> Tracks(m, e, v);
    }
  }

  lemma StepOwns(st: State, step: Step)
    requires Linked(st.mgr) && Enabled(st, step)
    ensures KeepsOwners(st, step)
  {
    if step.DoStart? {
      StartOwns(st, step);
    } else if step.DoTrigger? {
      TriggerOwns(st, step);
    } else if step.DoComplete? {
      CompleteOwns(st, step);
    } else if step.DoFail? {
      FailOwns(st, step);
    } else if step.DoRearm? {
      RearmOwns(st, step);
    } else if step.DoTake? || step.DoRequeue? || step.DoSettle? || step.DoFlush? {
      SchedulerOwns(st, step);
    } else if step.DoAdd? || step.DoRemove? || step.DoBatch? || step.DoBarrier? {
      SessionOwns(st, step);
    } else if !step.Stop? {
      QuietOwns(st.mgr, Apply(st, step).mgr);
    }
  }

  /** No step of the run may end the intent of `v`. */
  predicate NeverReleased(st: State, steps: seq<Step>, v: Volume)
    requires Legal(st, steps)
    decreases |steps|
  {
    steps == [] || (!Releases(st, steps[0], v) && NeverReleased(Apply(st, steps[0]), steps[1..], v))
  }

  /** A retry intent survives every run, with re-arms at any time, that neither satisfies it nor
      shuts the engine down. */
  lemma {:induction false} RetryNeverLost(st: State, steps: seq<Step>, v: Volume)
    requires Linked(st.mgr) && Legal(st, steps) && NeverReleased(st, steps, v)
    requires Owned(st.mgr, v)
    ensures Linked(After(st, steps).mgr) && Owned(After(st, steps).mgr, v)
    decreases |steps|
  {
    if steps != [] {
      StepOwns(st, steps[0]);
      RetryNeverLost(Apply(st, steps[0]), steps[1..], v);
    }
  }

  lemma {:induction false} LinkedThroughout(st: State, steps: seq<Step>)
    requires Linked(st.mgr) && Legal(st, steps)
    ensures Linked(After(st, steps).mgr)
    decreases |steps|
  {
    if steps != [] {
      StepOwns(st, steps[0]);
      LinkedThroughout(Apply(st, steps[0]), steps[1..]);
    }
  }

  /** The scheduler's two defensive branches: over every run whatever it still holds belongs to a tracked
      session, and if every re-arm was tidy that session has no attempt in flight. */
  lemma DefensiveBranchesUnreachable(steps: seq<Step>, v: Volume)
    requires Legal(INITIAL, steps) && v in After(INITIAL, steps).mgr.dispatching
    ensures var m := After(INITIAL, steps).mgr;
            && v in m.inHand && Tracks(m, m.inHand[v], v)
            && (AllTidy(INITIAL, steps) ==> !m.sessions[m.inHand[v]].inProgress)
  {
    LinkedThroughout(INITIAL, steps);
    if AllTidy(INITIAL, steps) {
      ReachableInv(INITIAL, steps);
    }
  }

  // ---- the late re-arm ----

  lemma RearmOwners(m: Manager, e: Ephemeral, v: Volume, now: Instant)
    requires Alone(m, e, v) && Exclusive(m, e, v) && e in m.sessions
    ensures m.active ==> OwnersOf(Rearm(m, e, v, now), v) == {QueuedRetry} + if v in m.floors then {Floor} else {}
    ensures !m.active ==> OwnersOf(Rearm(m, e, v, now), v) == {Floor} + if e in m.queued then {QueuedRetry} else {}
  {
    OwnersAlone(Rearm(m, e, v, now), e, v);
  }

  /** A re-arm that runs after its claim was taken over leaves one owner exactly when the slot it
      does not write is empty: the floor while connected, the queue while not. */
  lemma RearmKeepsSingleOwnerIff(m: Manager, e: Ephemeral, v: Volume, now: Instant)
    requires Inv(m) && Tracks(m, e, v)
    ensures OwnersOf(Rearm(m, e, v, now), v) != {}
    ensures |OwnersOf(Rearm(m, e, v, now), v)| == 1 <==> RearmFree(m, e, v)
  {
    RearmOwners(m, e, v, now);
    var both: set<Owner> := {QueuedRetry, Floor};
    assert |both| == 2;
  }

  /** The failing family is reachable: the start request fails, the connection is lost and comes
      back with the same ids, and only then does the re-arm run. */
  lemma LateRearmDoublesOwner(now: Instant) returns (steps: seq<Step>)
    ensures Legal(INITIAL, steps)
    ensures var m := After(INITIAL, steps).mgr;
            && m.active && Tracks(m, 1, 7) && !m.sessions[1].inProgress
            && m.floors == map[7 := Retry(5, true)] && m.dispatching == map[]
    ensures |OwnersOf(Rearm(After(INITIAL, steps).mgr, 1, 7, now), 7)| == 2
  {
    var add, trigger, lost := DoAdd(1, 7, 'C'), DoTrigger(1, 7, 0), DoRemove(1, 0);
    steps := [SetActive(true)];
    Append(INITIAL, [], SetActive(true));
    assert [] + [SetActive(true)] == steps;
    Append(INITIAL, steps, add);
    steps := steps + [add];
    Append(INITIAL, steps, trigger);
    steps := steps + [trigger];
    Append(INITIAL, steps, lost);
    steps := steps + [lost];
    assert After(INITIAL, steps).mgr == Manager(true, map[], map[], map[], map[7 := Retry(5, true)], map[]);
    Append(INITIAL, steps, add);
    steps := steps + [add];
    RearmOwners(After(INITIAL, steps).mgr, 1, 7, now);
  }
}
