/**
  The kind of scan a retry owes.  A reconciliation that failed, was lost or could not be started is
  retried as a reconciliation, through every slot the retry passes until one completes.
 */
module SessionKinds {
  import opened SessionSteps
  import opened SessionOwnership

  /** What this session runs and what waits for it is a reconciliation. */
  predicate Reconciles(m: Manager, e: Ephemeral)
    requires e in m.sessions
  {
    && (m.sessions[e].inProgress ==> m.sessions[e].reconciliation)
    && (e in m.queued ==> m.queued[e].reconciliation)
  }

  /** Every slot that owns `v` is for a reconciliation. */
  ghost predicate AllReconcile(m: Manager, v: Volume) {
    && (v in m.floors ==> m.floors[v].reconciliation)
    && (v in m.dispatching ==> m.dispatching[v].reconciliation)
    && (forall e :: Tracks(m, e, v) ==> Reconciles(m, e))
  }

  /** The same when only session `e` can be tracked for `v`. */
  predicate ReconcilesHere(m: Manager, e: Ephemeral, v: Volume) {
    && (v in m.floors ==> m.floors[v].reconciliation)
    && (v in m.dispatching ==> m.dispatching[v].reconciliation)
    && (Tracks(m, e, v) ==> Reconciles(m, e))
  }

  // ---- an attempt in flight is the only owner, even after a late re-arm ----

  predicate LoneAt(m: Manager, e: Ephemeral, v: Volume) {
    Tracks(m, e, v) && m.sessions[e].inProgress ==> e !in m.queued && v !in m.dispatching && v !in m.floors
  }

  ghost predicate Lone(m: Manager) {
    forall e :: e in m.sessions ==> LoneAt(m, e, m.sessions[e].volume)
  }

  /** A change local to `e` and `w`. */
  ghost predicate IsLocal(m: Manager, n: Manager, e: Ephemeral, w: Volume) {
    SameElsewhere(m, n, e, w) && Alone(m, e, w) && Alone(n, e, w) && LoneAt(n, e, w)
  }

  lemma LocalKinds(m: Manager, n: Manager, e: Ephemeral, w: Volume, v: Volume)
    requires Lone(m) && IsLocal(m, n, e, w)
    ensures Lone(n)
    ensures if v != w then AllReconcile(n, v) <==> AllReconcile(m, v)
            else (AllReconcile(m, w) <==> ReconcilesHere(m, e, w)) && (AllReconcile(n, w) <==> ReconcilesHere(n, e, w))
  {
    forall o | o in n.sessions ensures LoneAt(n, o, n.sessions[o].volume) {
      if o != e {
        assert LoneAt(m, o, m.sessions[o].volume);
      }
    }
    forall o | v != w ensures Tracks(m, o, v) <==> Tracks(n, o, v) { }
    forall o | v != w && Tracks(m, o, v) ensures Reconciles(m, o) <==> Reconciles(n, o) { }
  }

  // ---- the debt ----

  /** The step leaves a reconciliation of `v` undone: it failed, was lost with its session, could not be
      started, or was not made durable. */
  predicate Incurs(st: State, step: Step, v: Volume) {
    var m := st.mgr;
    match step
    case DoFail(e, _) => Tracks(m, e, v) && Attributable(m, e) && m.sessions[e].reconciliation
    case DoRemove(e, _) => Tracks(m, e, v) && m.sessions[e].inProgress && m.sessions[e].reconciliation
    case DoRearm(e, w, _) => w == v && Tracks(m, e, v)
    case DoComplete(e, _, _, _) =>
      && Tracks(m, e, v) && Attributable(m, e) && !Releases(st, step, v)
      && (m.sessions[e].reconciliation || (Authoritative(st, e) && m.sessions[e].deferred))
    case _ => false
  }

  /** Whether a reconciliation of `v` is owed after the step. */
  predicate Owes(st: State, step: Step, v: Volume, owed: bool) {
    Incurs(st, step, v) || (owed && !Releases(st, step, v))
  }

  /** The slot the re-arm does not write is empty or for a reconciliation. */
  predicate RearmFits(m: Manager, e: Ephemeral, v: Volume) {
    if m.active then v in m.floors ==> m.floors[v].reconciliation else e in m.queued ==> m.queued[e].reconciliation
  }

  /** No initial scan is started for a volume that owes a reconciliation, and a re-arm finds no retry of an
      initial scan in the slot it does not write. */
  predicate Fits(st: State, step: Step, v: Volume, owed: bool) {
    && (step.DoStart? && step.v == v && StartSends(st.mgr, step.e, v, step.sawComplete, step.barrier) ==> !owed)
    && (step.DoRearm? && step.v == v && Tracks(st.mgr, step.e, v) ==> RearmFits(st.mgr, step.e, v))
  }

  /** From this state the step keeps attempts alone and, exactly if it fits, the kind of what is owed. */
  ghost predicate KeepsKind(st: State, step: Step, v: Volume, owed: bool)
    requires Enabled(st, step)
  {
    && Lone(Apply(st, step).mgr)
    && ((Owes(st, step, v, owed) ==> AllReconcile(Apply(st, step).mgr, v)) <==> Fits(st, step, v, owed))
  }

  ghost predicate Sane(st: State, v: Volume, owed: bool) {
    Linked(st.mgr) && Lone(st.mgr) && (owed ==> AllReconcile(st.mgr, v))
  }

  lemma FloorToQueueKind(m: Manager, e: Ephemeral, w: Volume, v: Volume)
    requires Linked(m) && Lone(m) && Tracks(m, e, w) && w in m.floors
    ensures Lone(FloorToQueue(m, e, w)) && (AllReconcile(m, v) ==> AllReconcile(FloorToQueue(m, e, w), v))
  {
    assert LoneAt(m, e, w);
    LocalKinds(m, FloorToQueue(m, e, w), e, w, v);
  }

  /** A claimed attempt is the only owner, of the kind it was claimed with. */
  lemma ClaimKind(m: Manager, e: Ephemeral, claimed: Session, v: Volume)
    requires Linked(m) && Lone(m) && Tracks(m, e, claimed.volume) && claimed.volume !in m.floors
    ensures Lone(Claim(m, e, claimed))
    ensures AllReconcile(Claim(m, e, claimed), v) <==> if v == claimed.volume then claimed.reconciliation else AllReconcile(m, v)
  {
    LocalKinds(m, Claim(m, e, claimed), e, claimed.volume, v);
  }

  lemma FlagKind(m: Manager, e: Ephemeral, s: Session, v: Volume)
    requires Linked(m) && Lone(m) && Tracks(m, e, s.volume)
    requires s.inProgress == m.sessions[e].inProgress && s.reconciliation == m.sessions[e].reconciliation
    ensures var n := m.(sessions := m.sessions[e := s]);
            Lone(n) && (AllReconcile(n, v) <==> AllReconcile(m, v))
  {
    assert LoneAt(m, e, s.volume);
    LocalKinds(m, m.(sessions := m.sessions[e := s]), e, s.volume, v);
  }

  lemma StartKind(st: State, step: Step, v: Volume, owed: bool)
    requires step.DoStart? && Sane(st, v, owed)
    ensures KeepsKind(st, step, v, owed)
  {
    var m, e, w := st.mgr, step.e, step.v;
    if Tracks(m, e, w) && !m.sessions[e].awaiting {
      var s := m.sessions[e];
      if w in m.floors {
        FloorToQueueKind(m, e, w, v);
      } else if StartSends(m, e, w, step.sawComplete, step.barrier) {
        ClaimKind(m, e, s.(reconciliation := false, awaiting := Ambiguous(s),
                           batchFailed := s.batchFailed && Ambiguous(s)), v);
      }
    }
  }

  lemma TriggerKind(st: State, step: Step, v: Volume, owed: bool)
    requires step.DoTrigger? && Sane(st, v, owed)
    ensures KeepsKind(st, step, v, owed)
  {
    var m, e, w := st.mgr, step.e, step.v;
    if Tracks(m, e, w) && !Paused(st, e) {
      var s := m.sessions[e];
      if s.inProgress {
        FlagKind(m, e, s.(deferred := true), v);
      } else if w in m.floors {
        FloorToQueueKind(m, e, w, v);
      } else if TriggerSends(m, e, w, Paused(st, e)) {
        ClaimKind(m, e, s.(reconciliation := true), v);
      }
    }
  }

  lemma RearmKind(st: State, step: Step, v: Volume, owed: bool)
    requires step.DoRearm? && Sane(st, v, owed)
    ensures KeepsKind(st, step, v, owed)
  {
    var m, e, w := st.mgr, step.e, step.v;
    if Tracks(m, e, w) {
      LocalKinds(m, Apply(st, step).mgr, e, w, v);
    }
  }

  /** The retry of an attempt that is over is the only owner. */
  lemma RetryKind(m: Manager, e: Ephemeral, closed: Session, r: Retry, v: Volume)
    requires Linked(m) && Lone(m) && Attributable(m, e) && closed.volume == m.sessions[e].volume && !closed.inProgress
    ensures var n := Install(m.(sessions := m.sessions[e := closed]), e, closed.volume, r);
            Lone(n) && (AllReconcile(n, v) <==> if v == closed.volume then r.reconciliation else AllReconcile(m, v))
  {
    assert LoneAt(m, e, closed.volume);
    LocalKinds(m, Install(m.(sessions := m.sessions[e := closed]), e, closed.volume, r), e, closed.volume, v);
  }

  /** An attempt that is over and leaves no retry leaves no owner. */
  lemma CloseKind(m: Manager, e: Ephemeral, closed: Session, v: Volume)
    requires Linked(m) && Lone(m) && Attributable(m, e) && closed.volume == m.sessions[e].volume && !closed.inProgress
    ensures var n := m.(sessions := m.sessions[e := closed]);
            Lone(n) && (AllReconcile(n, v) <==> v == closed.volume || AllReconcile(m, v))
  {
    assert LoneAt(m, e, closed.volume);
    LocalKinds(m, m.(sessions := m.sessions[e := closed]), e, closed.volume, v);
  }

  lemma ClearKind(m: Manager, e: Ephemeral, closed: Session, v: Volume)
    requires Linked(m) && Lone(m) && Attributable(m, e) && closed.volume == m.sessions[e].volume && !closed.inProgress
    ensures var n := ClearOwner(m.(sessions := m.sessions[e := closed]), e, closed.volume);
            Lone(n) && (AllReconcile(n, v) <==> v == closed.volume || AllReconcile(m, v))
  {
    LocalKinds(m, ClearOwner(m.(sessions := m.sessions[e := closed]), e, closed.volume), e, closed.volume, v);
  }

  lemma AuthorityKind(st: State, step: Step, v: Volume, owed: bool)
    requires step.DoComplete? && Sane(st, v, owed) && Enabled(st, step) && Authoritative(st, step.e)
    ensures KeepsKind(st, step, v, owed)
  {
    var m, e := st.mgr, step.e;
    var s := m.sessions[e];
    assert owed && Tracks(m, e, v) ==> Reconciles(m, e);
    RetryKind(m, e, Close(s).(deferred := false), Retry(step.now + RETRY_DELAY, s.reconciliation || s.deferred), v);
    ClearKind(m, e, Close(s).(deferred := false), v);
  }

  lemma CompleteKind(st: State, step: Step, v: Volume, owed: bool)
    requires step.DoComplete? && Sane(st, v, owed) && Enabled(st, step)
    ensures KeepsKind(st, step, v, owed)
  {
    var m, e := st.mgr, step.e;
    if Authoritative(st, e) {
      AuthorityKind(st, step, v, owed);
    } else if Attributable(m, e) {
      var s := m.sessions[e];
      assert owed && Tracks(m, e, v) ==> Reconciles(m, e);
      RetryKind(m, e, Close(s), Retry(step.now + RETRY_DELAY, s.reconciliation), v);
      CloseKind(m, e, Close(s), v);
    }
  }

  lemma FailKind(st: State, step: Step, v: Volume, owed: bool)
    requires step.DoFail? && Sane(st, v, owed)
    ensures KeepsKind(st, step, v, owed)
  {
    var m, e := st.mgr, step.e;
    if Attributable(m, e) {
      assert owed && Tracks(m, e, v) ==> Reconciles(m, e);
      RetryKind(m, e, Close(m.sessions[e]), Retry(step.now + RETRY_DELAY, m.sessions[e].reconciliation), v);
    }
  }

  lemma RemoveKind(st: State, step: Step, v: Volume, owed: bool)
    requires step.DoRemove? && Sane(st, v, owed) && Enabled(st, step)
    ensures KeepsKind(st, step, v, owed)
  {
    var m, e := st.mgr, step.e;
    assert LoneAt(m, e, m.sessions[e].volume);
    LocalKinds(m, Apply(st, step).mgr, e, m.sessions[e].volume, v);
  }

  lemma AddKind(st: State, step: Step, v: Volume, owed: bool)
    requires step.DoAdd? && Sane(st, v, owed) && Enabled(st, step)
    ensures KeepsKind(st, step, v, owed)
  {
    LocalKinds(st.mgr, Apply(st, step).mgr, step.e, step.v, v);
  }

  lemma StreamKind(st: State, step: Step, v: Volume, owed: bool)
    requires step.DoBatch? || step.DoBarrier?
    requires Sane(st, v, owed) && Enabled(st, step)
    ensures KeepsKind(st, step, v, owed)
  {
    var m, e := st.mgr, step.e;
    if e in m.sessions {
      FlagKind(m, e, m.sessions[e].(batchFailed := true), v);
      FlagKind(m, e, m.sessions[e].(awaiting := false, batchFailed := false), v);
    }
  }

  lemma SchedulerKind(st: State, step: Step, v: Volume, owed: bool)
    requires step.DoTake? || step.DoRequeue? || step.DoSettle? || step.DoFlush?
    requires Sane(st, v, owed) && Enabled(st, step)
    ensures KeepsKind(st, step, v, owed)
  {
    var m := st.mgr;
    if step.DoTake? {
      assert LoneAt(m, step.e, m.sessions[step.e].volume);
      LocalKinds(m, Apply(st, step).mgr, step.e, m.sessions[step.e].volume, v);
    } else if step.v in m.dispatching {
      assert LoneAt(m, m.inHand[step.v], step.v);
      LocalKinds(m, Apply(st, step).mgr, m.inHand[step.v], step.v, v);
    }
  }

  lemma QuietKind(m: Manager, n: Manager, v: Volume)
    requires Lone(m) && n.sessions == m.sessions && n.queued.Keys == m.queued.Keys
    requires n.dispatching == m.dispatching && n.floors == m.floors
    requires forall e :: e in m.queued ==> n.queued[e].reconciliation == m.queued[e].reconciliation
    ensures Lone(n) && (AllReconcile(n, v) <==> AllReconcile(m, v))
  {
    assert forall e :: e in n.queued <==> e in m.queued;
    forall e | e in n.sessions ensures LoneAt(n, e, n.sessions[e].volume) {
      assert LoneAt(m, e, m.sessions[e].volume);
    }
    forall e | Tracks(m, e, v) ensures Tracks(n, e, v) && (Reconciles(m, e) <==> Reconciles(n, e)) { }
    forall e | Tracks(n, e, v) ensures Tracks(m, e, v) { }
  }

  lemma StepKind(st: State, step: Step, v: Volume, owed: bool)
    requires Sane(st, v, owed) && Enabled(st, step)
    ensures KeepsKind(st, step, v, owed)
  {
    if step.DoStart? {
      StartKind(st, step, v, owed);
    } else if step.DoTrigger? {
      TriggerKind(st, step, v, owed);
    } else if step.DoRearm? {
      RearmKind(st, step, v, owed);
    } else if step.DoComplete? {
      CompleteKind(st, step, v, owed);
    } else if step.DoFail? {
      FailKind(st, step, v, owed);
    } else if step.DoRemove? {
      RemoveKind(st, step, v, owed);
    } else if step.DoAdd? {
      AddKind(st, step, v, owed);
    } else if step.DoBatch? || step.DoBarrier? {
      StreamKind(st, step, v, owed);
    } else if step.DoTake? || step.DoRequeue? || step.DoSettle? || step.DoFlush? {
      SchedulerKind(st, step, v, owed);
    } else if !step.Stop? {
      QuietKind(st.mgr, Apply(st, step).mgr, v);
    }
  }

  // ---- whole runs ----

  /** In every state of the run in which a reconciliation of `v` is owed, every slot that owns `v` is for one. */
  ghost predicate KindThroughout(st: State, steps: seq<Step>, v: Volume, owed: bool)
    requires Legal(st, steps)
    decreases |steps|
  {
    && (owed ==> AllReconcile(st.mgr, v))
    && (steps == [] || KindThroughout(Apply(st, steps[0]), steps[1..], v, Owes(st, steps[0], v, owed)))
  }

  predicate AllFit(st: State, steps: seq<Step>, v: Volume, owed: bool)
    requires Legal(st, steps)
    decreases |steps|
  {
    steps == [] || (Fits(st, steps[0], v, owed) && AllFit(Apply(st, steps[0]), steps[1..], v, Owes(st, steps[0], v, owed)))
  }

  lemma {:induction false} KindThroughoutFrom(st: State, steps: seq<Step>, v: Volume, owed: bool)
    requires Sane(st, v, owed) && Legal(st, steps)
    ensures KindThroughout(st, steps, v, owed) <==> AllFit(st, steps, v, owed)
    decreases |steps|
  {
    if steps != [] {
      var step, next := steps[0], Apply(st, steps[0]);
      StepKind(st, step, v, owed);
      StepOwns(st, step);
      if Fits(st, step, v, owed) {
        KindThroughoutFrom(next, steps[1..], v, Owes(st, step, v, owed));
      } else {
        assert Owes(st, step, v, owed) && !AllReconcile(next.mgr, v);
      }
    }
  }

  /** Over every run: what owns a volume that owes a reconciliation is always for a reconciliation, if and
      only if no initial scan is started for it meanwhile and no re-arm finds the retry of one. */
  lemma OwedKindIff(steps: seq<Step>, v: Volume)
    requires Legal(INITIAL, steps)
    ensures KindThroughout(INITIAL, steps, v, false) <==> AllFit(INITIAL, steps, v, false)
  {
    KindThroughoutFrom(INITIAL, steps, v, false);
  }

  lemma Before(st: State, step: Step, rest: seq<Step>, v: Volume, owed: bool) returns (steps: seq<Step>)
    requires Enabled(st, step) && Legal(Apply(st, step), rest)
    requires !AllFit(Apply(st, step), rest, v, Owes(st, step, v, owed))
    ensures Legal(st, steps) && !AllFit(st, steps, v, owed)
  {
    steps := [step] + rest;
    assert steps[1..] == rest;
  }

  /** The failing family is reachable: a reconciliation fails, its retry is due and in the scheduler's hand,
      and an initial scan of the volume is started. */
  lemma StartDropsReconciliation() returns (steps: seq<Step>)
    ensures Legal(INITIAL, steps) && !AllFit(INITIAL, steps, 7, false) && !KindThroughout(INITIAL, steps, 7, false)
  {
    var online := Apply(INITIAL, SetActive(true));
    var idle := Apply(online, DoAdd(1, 7, 'C'));
    var running := Apply(idle, DoTrigger(1, 7, 0));
    assert running.mgr.sessions[1] == Session(7, 'C', true, false, true, false, false);
    var failed := Apply(running, DoFail(1, 0));
    assert failed.mgr.queued[1] == Retry(5, true) && failed.mgr.floors == map[];
    var taken, start := Apply(failed, DoTake(1, 5)), DoStart(1, 7, false, false, 5);
    assert !Fits(taken, start, 7, true);
    steps := [start];
    steps := Before(failed, DoTake(1, 5), steps, 7, true);
    steps := Before(running, DoFail(1, 0), steps, 7, false);
    steps := Before(idle, DoTrigger(1, 7, 0), steps, 7, false);
    steps := Before(online, DoAdd(1, 7, 'C'), steps, 7, false);
    steps := Before(INITIAL, SetActive(true), steps, 7, false);
    OwedKindIff(steps, 7);
  }
}
