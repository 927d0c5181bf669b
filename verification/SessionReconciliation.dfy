/**
  Finishing a reconciliation pass never deletes what the pass was to keep.  A history, computed from
  the events of the run alone, records what arrived for each volume since its pass began.
 */
module SessionReconciliation {
  import opened SessionSteps
  import opened SessionOwnership

  /** Per volume, since its last reconciliation scan was started: the ids delivered in scan batches or
      applied journal upserts that the rules include (`wanted`), those in batches dropped while the
      session waited for a marker (`unread`), whether a batch of the attempt was dropped or failed or
      the attempt failed or lost its session (`spoiled`), and whether the scan was started on a session
      that was still waiting (`blind`). */
  datatype History = History(wanted: map<Volume, set<FileRef>>,
                             unread: map<Volume, set<FileRef>>,
                             spoiled: set<Volume>,
                             blind: set<Volume>)

  const NO_HISTORY := History(map[], map[], {}, {})

  function At(m: map<Volume, set<FileRef>>, v: Volume): set<FileRef> {
    if v in m then m[v] else {}
  }

  function Deliver(h: History, v: Volume, ids: set<FileRef>, included: set<FileRef>, ok: bool): History {
    h.(wanted := h.wanted[v := At(h.wanted, v) + ids * included], spoiled := if ok then h.spoiled else h.spoiled + {v})
  }

  function Spoil(h: History, v: Volume): History {
    h.(spoiled := h.spoiled + {v})
  }

  function RecordTrigger(h: History, st: State, e: Ephemeral, v: Volume): History {
    if !TriggerSends(st.mgr, e, v, Paused(st, e)) then h
    else History(h.wanted[v := {}], h.unread[v := {}], h.spoiled - {v},
                 if st.mgr.sessions[e].awaiting then h.blind + {v} else h.blind - {v})
  }

  function RecordBatch(h: History, st: State, e: Ephemeral, ids: set<FileRef>, included: set<FileRef>,
                       outcome: BatchOutcome): History
  {
    if e !in st.mgr.sessions then h
    else
      var v := st.mgr.sessions[e].volume;
      if st.mgr.sessions[e].awaiting then h.(unread := h.unread[v := At(h.unread, v) + ids])
      else Deliver(h, v, ids, included, !Paused(st, e) && outcome == Applied)
  }

  function Record(h: History, st: State, step: Step): History {
    var m := st.mgr;
    match step
    case DoTrigger(e, v, _) => RecordTrigger(h, st, e, v)
    case DoBatch(e, ids, included, outcome) => RecordBatch(h, st, e, ids, included, outcome)
    case DoJournal(e, upserts, included, _, outcome) =>
      if e !in m.sessions || Paused(st, e) || outcome == Refused then h
      else Deliver(h, m.sessions[e].volume, upserts, included, true)
    case DoFail(e, _) => if Attributable(m, e) then Spoil(h, m.sessions[e].volume) else h
    case DoRemove(e, _) => if e in m.sessions then Spoil(h, m.sessions[e].volume) else h
    case _ => h
  }

  function HistoryOf(st: State, h: History, steps: seq<Step>): History
    requires Legal(st, steps)
    decreases |steps|
  {
    if steps == [] then h
    else HistoryOf(Apply(st, steps[0]), Record(h, st, steps[0]), steps[1..])
  }

  // ---- the invariant ----

  /** What holds of volume `v` while a clean reconciliation scan of it runs. */
  predicate Clean(ix: Index, h: History, v: Volume, awaiting: bool) {
    v in ix.passes ==>
      && At(h.wanted, v) <= ix.passes[v]
      && v !in h.spoiled
      && (awaiting || At(h.unread, v) != {} ==> v in h.blind)
  }

  /** While a reconciliation scan of session `s` runs and no batch of it failed, everything wanted was
      seen; a reconciliation that waits for a marker has no failed batch. */
  predicate CoveredSession(ix: Index, h: History, s: Session) {
    && (s.inProgress && s.reconciliation && !s.batchFailed ==> Clean(ix, h, s.volume, s.awaiting))
    && (s.awaiting && s.reconciliation ==> !s.batchFailed)
  }

  predicate Covered(st: State, h: History, e: Ephemeral)
    requires e in st.mgr.sessions
  {
    CoveredSession(st.index, h, st.mgr.sessions[e])
  }

  ghost predicate RecInv(st: State, h: History) {
    Linked(st.mgr) && forall e :: e in st.mgr.sessions ==> Covered(st, h, e)
  }

  /** The two agree on all that is recorded of `v`. */
  predicate SameRecord(ix: Index, h: History, jx: Index, k: History, v: Volume) {
    && (v in jx.passes ==> v in ix.passes && jx.passes[v] == ix.passes[v])
    && At(k.wanted, v) == At(h.wanted, v) && At(k.unread, v) == At(h.unread, v)
    && (v in k.spoiled <==> v in h.spoiled) && (v in k.blind <==> v in h.blind)
  }

  lemma StillCovered(ix: Index, h: History, jx: Index, k: History, s: Session)
    requires CoveredSession(ix, h, s) && SameRecord(ix, h, jx, k, s.volume)
    ensures CoveredSession(jx, k, s)
  {
  }

  lemma OwnTrigger(st: State, h: History, e: Ephemeral, v: Volume)
    requires e in st.mgr.sessions && Covered(st, h, e)
    ensures Covered(TriggerStep(st, e, v), RecordTrigger(h, st, e, v), e)
  {
    if TriggerSends(st.mgr, e, v, Paused(st, e)) {
      assert TriggerStep(st, e, v).mgr.sessions[e] == st.mgr.sessions[e].(reconciliation := true, inProgress := true);
    } else {
      IdleCovered(st.index, h, st.mgr.sessions[e], TriggerStep(st, e, v).mgr.sessions[e]);
    }
  }

  lemma OwnBatch(st: State, h: History, e: Ephemeral, ids: set<FileRef>, included: set<FileRef>, outcome: BatchOutcome)
    requires e in st.mgr.sessions && Covered(st, h, e)
    ensures Covered(BatchStep(st, e, ids, included, outcome), RecordBatch(h, st, e, ids, included, outcome), e)
  {
    if !st.mgr.sessions[e].awaiting && (Paused(st, e) || outcome != Applied) {
      assert BatchStep(st, e, ids, included, outcome).mgr.sessions[e].batchFailed;
    }
  }

  lemma OwnJournal(st: State, h: History, step: Step)
    requires step.DoJournal? && step.e in st.mgr.sessions && Covered(st, h, step.e)
    ensures step.e in Apply(st, step).mgr.sessions && Covered(Apply(st, step), Record(h, st, step), step.e)
  {
  }

  lemma ClosedSession(m: Manager, e: Ephemeral, now: Instant, durable: bool)
    requires e in m.sessions
    ensures e in CompleteWithAuthority(m, e, now, durable).sessions && e in CompleteWithoutAuthority(m, e, now).sessions
    ensures CompleteWithAuthority(m, e, now, durable).sessions == m.sessions[e := Close(m.sessions[e]).(deferred := false)]
    ensures CompleteWithoutAuthority(m, e, now).sessions == m.sessions[e := Close(m.sessions[e])]
    ensures Fail(m, e, now).sessions == m.sessions[e := Close(m.sessions[e])]
  {
  }

  lemma OwnTerminal(st: State, h: History, step: Step)
    requires step.DoComplete? || step.DoFail?
    requires Enabled(st, step) && step.e in st.mgr.sessions && Covered(st, h, step.e)
    ensures step.e in Apply(st, step).mgr.sessions && Covered(Apply(st, step), Record(h, st, step), step.e)
  {
    if Attributable(st.mgr, step.e) {
      ClosedSession(st.mgr, step.e, step.now, step.DoComplete? && Durable(st, step.e, step.fin));
    }
  }

  lemma OwnBarrier(st: State, h: History, e: Ephemeral)
    requires e in st.mgr.sessions && Covered(st, h, e)
    ensures e in AcceptBarrier(st.mgr, e).sessions && CoveredSession(st.index, h, AcceptBarrier(st.mgr, e).sessions[e])
  {
  }

  /** What a step leaves of a session: gone, untouched, or changed without becoming a clean scan. */
  predicate Idle(s: Session, n: Session) {
    && n.volume == s.volume && n.awaiting == s.awaiting
    && (n == s.(deferred := n.deferred) || (!n.reconciliation))
  }

  lemma IdleCovered(ix: Index, h: History, s: Session, n: Session)
    requires CoveredSession(ix, h, s) && Idle(s, n)
    ensures CoveredSession(ix, h, n)
  {
  }

  /** The steps that write neither a pass nor the history. */
  predicate Silent(step: Step) {
    && !step.DoTrigger? && !step.DoBatch? && !step.DoJournal? && !step.DoRemove?
    && !step.DoComplete? && !step.DoFail? && !step.DoBarrier?
  }

  lemma StartCovers(ix: Index, h: History, m: Manager, e: Ephemeral, v: Volume, sawComplete: bool, barrier: bool,
                    o: Ephemeral)
    requires o in m.sessions && CoveredSession(ix, h, m.sessions[o])
    ensures o in Start(m, e, v, sawComplete, barrier).sessions
    ensures CoveredSession(ix, h, Start(m, e, v, sawComplete, barrier).sessions[o])
  {
  }

  lemma SilentCovers(st: State, h: History, step: Step, o: Ephemeral)
    requires Silent(step) && Enabled(st, step) && o in Apply(st, step).mgr.sessions
    requires o in st.mgr.sessions ==> Covered(st, h, o)
    ensures Covered(Apply(st, step), Record(h, st, step), o)
  {
    if step.DoStart? {
      StartCovers(st.index, h, st.mgr, step.e, step.v, step.sawComplete, step.barrier, o);
    } else if o in st.mgr.sessions {
      IdleCovered(st.index, h, st.mgr.sessions[o], Apply(st, step).mgr.sessions[o]);
      StillCovered(st.index, h, Apply(st, step).index, h, Apply(st, step).mgr.sessions[o]);
    }
  }

  /** Session `o` is as it was, and so is what is recorded of its volume. */
  predicate Untouched(st: State, h: History, n: State, k: History, o: Ephemeral)
    requires o in st.mgr.sessions
  {
    && o in n.mgr.sessions && n.mgr.sessions[o] == st.mgr.sessions[o]
    && SameRecord(st.index, h, n.index, k, st.mgr.sessions[o].volume)
  }

  lemma OthersByTrigger(st: State, h: History, e: Ephemeral, v: Volume, o: Ephemeral)
    requires o in st.mgr.sessions && o != e
    requires e in st.mgr.sessions ==> st.mgr.sessions[e].volume != st.mgr.sessions[o].volume
    ensures Untouched(st, h, TriggerStep(st, e, v), RecordTrigger(h, st, e, v), o)
  {
  }

  lemma OthersByBatch(st: State, h: History, e: Ephemeral, ids: set<FileRef>, included: set<FileRef>,
                      outcome: BatchOutcome, o: Ephemeral)
    requires o in st.mgr.sessions && o != e
    requires e in st.mgr.sessions ==> st.mgr.sessions[e].volume != st.mgr.sessions[o].volume
    ensures Untouched(st, h, BatchStep(st, e, ids, included, outcome), RecordBatch(h, st, e, ids, included, outcome), o)
  {
  }

  lemma OthersByTerminal(st: State, h: History, step: Step, o: Ephemeral)
    requires (step.DoComplete? || step.DoFail?) && Enabled(st, step)
    requires o in st.mgr.sessions && o != step.e
    requires step.e in st.mgr.sessions ==> st.mgr.sessions[step.e].volume != st.mgr.sessions[o].volume
    ensures Untouched(st, h, Apply(st, step), Record(h, st, step), o)
  {
    if Attributable(st.mgr, step.e) {
      ClosedSession(st.mgr, step.e, step.now, step.DoComplete? && Durable(st, step.e, step.fin));
    }
  }

  lemma OthersByRest(st: State, h: History, step: Step, o: Ephemeral)
    requires (step.DoJournal? || step.DoRemove? || step.DoBarrier?) && Enabled(st, step)
    requires o in st.mgr.sessions && o != step.e
    requires step.e in st.mgr.sessions ==> st.mgr.sessions[step.e].volume != st.mgr.sessions[o].volume
    ensures Untouched(st, h, Apply(st, step), Record(h, st, step), o)
  {
  }

  /** A step of one session leaves the sessions of other volumes, and what is recorded of them. */
  lemma OthersUntouched(st: State, h: History, step: Step, o: Ephemeral)
    requires !Silent(step) && Enabled(st, step)
    requires o in st.mgr.sessions && o != step.e
    requires step.e in st.mgr.sessions ==> st.mgr.sessions[step.e].volume != st.mgr.sessions[o].volume
    ensures Untouched(st, h, Apply(st, step), Record(h, st, step), o)
  {
    if step.DoTrigger? {
      OthersByTrigger(st, h, step.e, step.v, o);
    } else if step.DoBatch? {
      OthersByBatch(st, h, step.e, step.ids, step.included, step.outcome, o);
    } else if step.DoComplete? || step.DoFail? {
      OthersByTerminal(st, h, step, o);
    } else {
      OthersByRest(st, h, step, o);
    }
  }

  lemma OwnCovers(st: State, h: History, step: Step)
    requires !Silent(step) && Enabled(st, step) && step.e in st.mgr.sessions && Covered(st, h, step.e)
    requires step.e in Apply(st, step).mgr.sessions
    ensures Covered(Apply(st, step), Record(h, st, step), step.e)
  {
    if step.DoTrigger? {
      OwnTrigger(st, h, step.e, step.v);
    } else if step.DoBatch? {
      OwnBatch(st, h, step.e, step.ids, step.included, step.outcome);
    } else if step.DoJournal? {
      OwnJournal(st, h, step);
    } else if step.DoBarrier? {
      OwnBarrier(st, h, step.e);
    } else if !step.DoRemove? {
      OwnTerminal(st, h, step);
    }
  }

  /** Only a new session was not there before. */
  lemma WasThere(st: State, step: Step, o: Ephemeral)
    requires !Silent(step) && Enabled(st, step) && o in Apply(st, step).mgr.sessions
    ensures o in st.mgr.sessions
  {
    if (step.DoComplete? || step.DoFail?) && Attributable(st.mgr, step.e) {
      ClosedSession(st.mgr, step.e, step.now, step.DoComplete? && Durable(st, step.e, step.fin));
    }
  }

  lemma StepCoversAt(st: State, h: History, step: Step, o: Ephemeral)
    requires !Silent(step) && Enabled(st, step) && o in st.mgr.sessions && o in Apply(st, step).mgr.sessions
    requires Covered(st, h, o)
    requires o != step.e && step.e in st.mgr.sessions ==> st.mgr.sessions[step.e].volume != st.mgr.sessions[o].volume
    ensures Covered(Apply(st, step), Record(h, st, step), o)
  {
    if o == step.e {
      OwnCovers(st, h, step);
    } else {
      OthersUntouched(st, h, step, o);
      StillCovered(st.index, h, Apply(st, step).index, Record(h, st, step), st.mgr.sessions[o]);
    }
  }

  lemma StepCovers(st: State, h: History, step: Step)
    requires RecInv(st, h) && Enabled(st, step)
    ensures RecInv(Apply(st, step), Record(h, st, step))
  {
    StepOwns(st, step);
    forall o | o in Apply(st, step).mgr.sessions ensures Covered(Apply(st, step), Record(h, st, step), o) {
      if Silent(step) {
        SilentCovers(st, h, step, o);
      } else {
        WasThere(st, step, o);
        StepCoversAt(st, h, step, o);
      }
    }
  }

  lemma {:induction false} ReachableRecInv(st: State, h: History, steps: seq<Step>)
    requires RecInv(st, h) && Legal(st, steps)
    ensures RecInv(After(st, steps), HistoryOf(st, h, steps))
    decreases |steps|
  {
    if steps != [] {
      StepCovers(st, h, steps[0]);
      ReachableRecInv(Apply(st, steps[0]), Record(h, st, steps[0]), steps[1..]);
    }
  }

  // ---- main results ----

  /** Over every run: a finishing pass removes a row that was delivered and included only if the
      rules exclude it at the end, leaves every other volume's rows alone, and is never the pass of an
      attempt with a dropped or failed batch, a reported failure or a lost session.  Batches dropped
      before the marker are the only ones it can have missed, and only if the scan was started on a
      session that was still waiting for one. */
  lemma FinishSparesWhatItSaw(steps: seq<Step>, e: Ephemeral, now: Instant, excluded: set<FileRef>, fin: Finalization)
    requires Legal(INITIAL, steps)
    requires var st := After(INITIAL, steps);
             Enabled(st, DoComplete(e, now, excluded, fin)) && Finalizes(st, e)
    ensures var st := After(INITIAL, steps);
            var h := HistoryOf(INITIAL, NO_HISTORY, steps);
            var v := st.mgr.sessions[e].volume;
            var next := Apply(st, DoComplete(e, now, excluded, fin));
            var removed := RowsOf(st.index, v) - RowsOf(next.index, v);
            && removed * At(h.wanted, v) <= excluded
            && v !in h.spoiled && !Paused(st, e)
            && (v !in h.blind ==> At(h.unread, v) == {})
            && forall w :: w != v ==> RowsOf(next.index, w) == RowsOf(st.index, w)
  {
    ReachableRecInv(INITIAL, NO_HISTORY, steps);
    assert Covered(After(INITIAL, steps), HistoryOf(INITIAL, NO_HISTORY, steps), e);
  }

  /** Apart from batches, only the completion that finalizes a pass changes any row. */
  lemma OnlyFinalizationRemoves(st: State, step: Step, v: Volume)
    requires Enabled(st, step) && !step.DoBatch? && !step.DoJournal?
    requires RowsOf(Apply(st, step).index, v) != RowsOf(st.index, v)
    ensures step.DoComplete? && Finalizes(st, step.e) && st.mgr.sessions[step.e].volume == v
  {
  }

  /** A terminal without authority (a failure, a batch that was not applied, a paused volume) ends the pass
      and removes nothing.  One with authority keeps the pass exactly if its marks were not written and, if it
      is the pass's own scan, not all removals committed.  Other volumes' passes go on. */
  lemma TerminalEndsPass(st: State, step: Step)
    requires (step.DoComplete? || step.DoFail?) && Enabled(st, step) && Attributable(st.mgr, step.e)
    ensures var s, n := st.mgr.sessions[step.e], Apply(st, step).index;
            var paused := st.pausedAll || s.letter in st.pausedLetters;
            && (step.DoFail? || s.batchFailed || paused ==> s.volume !in n.passes && n.rows == st.index.rows)
            && (step.DoComplete? && !s.batchFailed && !paused && s.volume in st.index.passes ==>
                  (s.volume in n.passes <==> if s.reconciliation then !step.fin.allCommitted else !step.fin.marked))
            && (forall w :: w != s.volume ==> (w in n.passes <==> w in st.index.passes)
                                              && (w in st.index.passes ==> n.passes[w] == st.index.passes[w]))
  {
  }

  // ---- the exception is real ----

  /** Session 1 of volume 7 with its retry slots. */
  function OneVolume(s: Session, queued: map<Ephemeral, Retry>, dispatching: map<Volume, Retry>,
                     inHand: map<Volume, Ephemeral>, index: Index): State
  {
    State(Manager(true, map[1 := s], queued, dispatching, map[], inHand), false, {}, index)
  }

  /** The state in which a reconciliation of volume 7 runs on a session that waits for a marker. */
  function Waiting(): State {
    OneVolume(Session(7, 'C', true, false, true, false, true), map[], map[], map[7 := 1], Index(map[7 := {}], map[7 := {1}]))
  }

  lemma TriggeredIsReachable() returns (steps: seq<Step>)
    ensures Legal(INITIAL, steps) && After(INITIAL, steps) == RECONCILING
  {
    var add, trigger, journal := DoAdd(1, 7, 'C'), DoTrigger(1, 7, 0), DoJournal(1, {1}, {1}, {}, Applied);
    steps := [SetActive(true)];
    Append(INITIAL, [], SetActive(true));
    assert [] + [SetActive(true)] == steps;
    Append(INITIAL, steps, add);
    steps := steps + [add];
    Append(INITIAL, steps, trigger);
    steps := steps + [trigger];
    assert After(INITIAL, steps).index == Index(map[7 := {}], map[]);
    Append(INITIAL, steps, journal);
    steps := steps + [journal];
    assert After(INITIAL, steps).index.rows[7] == {1} && After(INITIAL, steps).index.passes[7] == {1};
    assert After(INITIAL, steps).index == Index(map[7 := {1}], map[7 := {1}]);
  }

  const BOTH_SEEN := Index(map[7 := {1}], map[7 := {1}])
  const RECONCILING := OneVolume(Session(7, 'C', true, false, true, false, false), map[], map[], map[], BOTH_SEEN)
  const RESUMED := OneVolume(Session(7, 'C', true, false, false, false, true), map[], map[], map[], BOTH_SEEN)
  const REARMED :=
    OneVolume(Session(7, 'C', false, false, false, false, true), map[1 := Retry(5, true)], map[], map[], BOTH_SEEN)
  const TAKEN :=
    OneVolume(Session(7, 'C', false, false, false, false, true), map[], map[7 := Retry(5, true)], map[7 := 1], BOTH_SEEN)

  lemma ResumeAndRearm()
    ensures Apply(RECONCILING, DoStart(1, 7, false, true, 0)) == RESUMED
    ensures Apply(RESUMED, DoRearm(1, 7, 0)) == REARMED
  {
  }

  lemma TakeAndTrigger()
    ensures Enabled(REARMED, DoTake(1, 5)) && Apply(REARMED, DoTake(1, 5)) == TAKEN
    ensures Apply(TAKEN, DoTrigger(1, 7, 5)) == Waiting()
  {
  }

  /** A start request for a reconciliation fails; before its re-arm runs, a resume replaces the attempt
      and waits for the marker; the re-armed reconciliation is then started on the waiting session. */
  lemma WaitingIsReachable() returns (steps: seq<Step>)
    ensures Legal(INITIAL, steps) && After(INITIAL, steps) == Waiting()
  {
    ResumeAndRearm();
    TakeAndTrigger();
    steps := TriggeredIsReachable();
    Append(INITIAL, steps, DoStart(1, 7, false, true, 0));
    steps := steps + [DoStart(1, 7, false, true, 0)];
    Append(INITIAL, steps, DoRearm(1, 7, 0));
    steps := steps + [DoRearm(1, 7, 0)];
    Append(INITIAL, steps, DoTake(1, 5));
    steps := steps + [DoTake(1, 5)];
    Append(INITIAL, steps, DoTrigger(1, 7, 5));
    steps := steps + [DoTrigger(1, 7, 5)];
  }

  /** From there a batch is dropped, a marker read, and the completion removes the row of that batch. */
  lemma BlindFinishRemovesUnread()
    ensures var batch, fin := DoBatch(1, {1}, {1}, Applied), Finalization({1}, true, true);
            var st := Waiting();
            var read := Apply(Apply(st, batch), DoBarrier(1));
            && Apply(st, batch) == st
            && Finalizes(read, 1) && Enabled(read, DoComplete(1, 6, {}, fin))
            && RowsOf(read.index, 7) == {1} && RowsOf(Apply(read, DoComplete(1, 6, {}, fin)).index, 7) == {}
  {
    var fin := Finalization({1}, true, true);
    var st := Waiting();
    var read := Apply(st, DoBarrier(1));
    assert StaleRows(read.index, 7, {}) == {1};
    assert Finalizes(read, 1);
  }

  /** The condition can be told when the reconciliation is started, in any state: of a scan that delivers
      `ids` and completes, exactly `ids` is left if and only if the session is not waiting for a marker
      (or nothing is delivered). */
  lemma RescanIsReadIff(st: State, e: Ephemeral, v: Volume, ids: set<FileRef>, now: Instant)
    requires TriggerSends(st.mgr, e, v, Paused(st, e))
    ensures var sent := Apply(st, DoTrigger(e, v, now));
            var read := Apply(Apply(sent, DoBatch(e, ids, ids, Applied)), DoBarrier(e));
            && Finalizes(read, e)
            && var done := DoComplete(e, now, {}, Finalization(StaleRows(read.index, v, {}), true, true));
               && Enabled(read, done)
               && (RowsOf(Apply(read, done).index, v) == ids <==> !st.mgr.sessions[e].awaiting || ids == {})
  {
    var sent := Apply(st, DoTrigger(e, v, now));
    assert sent.index.passes[v] == {} && sent.index.rows == st.index.rows;
    var batch := Apply(sent, DoBatch(e, ids, ids, Applied));
    if st.mgr.sessions[e].awaiting {
      assert batch == sent;
    } else {
      assert batch.index.passes[v] == ids && RowsOf(batch.index, v) == (RowsOf(st.index, v) - {} - ids) + ids;
    }
  }
}
