/**
  The completion handler between its critical sections.  It closes the attempt under the lock pair,
  finishes the pass and writes the durable marks with no manager lock held, and only then settles
  the retry owner.  The scheduler, the control plane and a disconnect run in between; the frames of
  the connection do not, since their reader is the thread that runs the handler.
 */
module SessionFinalization {
  import opened SessionSteps
  import opened SessionOwnership
  import opened SessionReconciliation
  import Cadence = SessionCadence

  /** What the handler remembers of the attempt it closed. */
  datatype Closing = Closing(e: Ephemeral, v: Volume, reconciliation: bool, deferred: bool)

  function ClosingOf(m: Manager, e: Ephemeral): Closing
    requires e in m.sessions
  {
    var s := m.sessions[e];
    Closing(e, s.volume, s.reconciliation, s.deferred)
  }

  // ---- the three sections ----

  function CloseAttempt(st: State, e: Ephemeral): State
    requires Authoritative(st, e)
  {
    var m := st.mgr;
    st.(mgr := m.(sessions := m.sessions[e := Close(m.sessions[e]).(deferred := false)]))
  }

  predicate FinishesPass(ix: Index, c: Closing) {
    c.reconciliation && c.v in ix.passes
  }

  /** What the store may report of a finalization. */
  predicate CanFinish(ix: Index, c: Closing, excluded: set<FileRef>, fin: Finalization) {
    FinishesPass(ix, c) ==>
      var stale := StaleRows(ix, c.v, excluded);
      fin.committed <= stale && (fin.allCommitted ==> fin.committed == stale)
  }

  predicate Satisfied(ix: Index, c: Closing, fin: Finalization) {
    fin.marked && (FinishesPass(ix, c) ==> fin.allCommitted)
  }

  function FinishPass(ix: Index, c: Closing, fin: Finalization): Index {
    if !FinishesPass(ix, c) then ix
    else Index(if fin.allCommitted then ix.passes - {c.v} else ix.passes,
               ix.rows[c.v := RowsOf(ix, c.v) - fin.committed])
  }

  /** A finalization that failed is owed again: on the session if it is still there, else on the floor. */
  function RetryFinalization(m: Manager, c: Closing, now: Instant): Manager {
    var owed := Retry(now + RETRY_DELAY, c.reconciliation || c.deferred);
    if Tracks(m, c.e, c.v) then Install(m, c.e, c.v, owed) else m.(floors := MergeFloor(m.floors, c.v, owed))
  }

  function SettleOwner(st: State, c: Closing, satisfied: bool, now: Instant): State {
    if !satisfied then st.(mgr := RetryFinalization(st.mgr, c, now))
    else
      var cleared := st.(mgr := ClearOwner(st.mgr, c.e, c.v));
      if c.reconciliation then cleared else cleared.(index := st.index.(passes := st.index.passes - {c.v}))
  }

  /** With nothing in between, the three sections are the completion step of the joined machine. */
  lemma SectionsMakeComplete(st: State, e: Ephemeral, now: Instant, excluded: set<FileRef>, fin: Finalization)
    requires Authoritative(st, e) && Enabled(st, DoComplete(e, now, excluded, fin))
    ensures var c := ClosingOf(st.mgr, e);
            var closed := CloseAttempt(st, e);
            && CanFinish(closed.index, c, excluded, fin)
            && SettleOwner(closed.(index := FinishPass(closed.index, c, fin)), c, Satisfied(closed.index, c, fin), now)
               == Apply(st, DoComplete(e, now, excluded, fin))
  {
    var c := ClosingOf(st.mgr, e);
    var closed := CloseAttempt(st, e);
    assert closed.index == st.index && Tracks(closed.mgr, e, c.v);
    assert Satisfied(closed.index, c, fin) == Durable(st, e, fin);
    assert SettleOwner(closed.(index := FinishPass(closed.index, c, fin)), c, Durable(st, e, fin), now).index
        == CompleteIndex(st, e, fin);
  }

  // ---- runs ----

  datatype Gap = NoGap | Closed(c: Closing) | Finished(c: Closing, satisfied: bool)

  datatype Wide = Wide(st: State, gap: Gap)

  datatype Event =
    | Ordinary(step: Step)
    | CloseOf(e: Ephemeral)
    | FinishOf(excluded: set<FileRef>, fin: Finalization)
    | SettleOf(now: Instant)

  /** The steps the connection's reader thread runs. */
  predicate OfReader(step: Step) {
    step.DoBatch? || step.DoJournal? || step.DoComplete? || step.DoFail? || step.DoBarrier?
  }

  predicate Possible(w: Wide, ev: Event) {
    match ev
    case Ordinary(step) =>
      && Enabled(w.st, step)
      && (w.gap != NoGap ==> !OfReader(step))
      && (step.DoComplete? ==> !Authoritative(w.st, step.e))
    case CloseOf(e) => w.gap == NoGap && Authoritative(w.st, e)
    case FinishOf(excluded, fin) => w.gap.Closed? && CanFinish(w.st.index, w.gap.c, excluded, fin)
    case SettleOf(_) => w.gap.Finished?
  }

  function Next(w: Wide, ev: Event): Wide
    requires Possible(w, ev)
  {
    match ev
    case Ordinary(step) => w.(st := Apply(w.st, step))
    case CloseOf(e) => Wide(CloseAttempt(w.st, e), Closed(ClosingOf(w.st.mgr, e)))
    case FinishOf(_, fin) => Wide(w.st.(index := FinishPass(w.st.index, w.gap.c, fin)),
                                  Finished(w.gap.c, Satisfied(w.st.index, w.gap.c, fin)))
    case SettleOf(now) => Wide(SettleOwner(w.st, w.gap.c, w.gap.satisfied, now), NoGap)
  }

  /** Where a failed finalization may install its retry without a second owner: the session has no
      new attempt and the slot not written is empty; without the session, only the floor may owe. */
  ghost predicate Free(m: Manager, c: Closing) {
    if Tracks(m, c.e, c.v)
    then !m.sessions[c.e].inProgress && (if m.active then c.v !in m.floors else c.e !in m.queued)
    else OwnersOf(m, c.v) <= {Floor}
  }

  /** No re-arm and no failed finalization writes beside another owner. */
  ghost predicate Smooth(w: Wide, ev: Event) {
    && (ev.Ordinary? ==> Tidy(w.st, ev.step))
    && (ev.SettleOf? && w.gap.Finished? && !w.gap.satisfied ==> Free(w.st.mgr, w.gap.c))
  }

  predicate Run(w: Wide, events: seq<Event>)
    decreases |events|
  {
    events == [] || (Possible(w, events[0]) && Run(Next(w, events[0]), events[1..]))
  }

  function EndOf(w: Wide, events: seq<Event>): Wide
    requires Run(w, events)
    decreases |events|
  {
    if events == [] then w else EndOf(Next(w, events[0]), events[1..])
  }

  ghost predicate AllSmooth(w: Wide, events: seq<Event>)
    requires Run(w, events)
    decreases |events|
  {
    events == [] || (Smooth(w, events[0]) && AllSmooth(Next(w, events[0]), events[1..]))
  }

  const START := Wide(INITIAL, NoGap)

  // ---- owners ----

  lemma ClosedOwners(st: State, e: Ephemeral)
    requires Linked(st.mgr) && Authoritative(st, e)
    ensures Keeping(st.mgr, CloseAttempt(st, e).mgr, st.mgr.sessions[e].volume, false)
  {
    KeptLocally(st.mgr, CloseAttempt(st, e).mgr, e, st.mgr.sessions[e].volume, false);
  }

  lemma TrackedRetryOwners(m: Manager, c: Closing, now: Instant)
    requires Linked(m) && Tracks(m, c.e, c.v)
    ensures OwnersOf(RetryFinalization(m, c, now), c.v)
         == (if m.sessions[c.e].inProgress then {Attempt} else {})
            + (if m.active || c.e in m.queued then {QueuedRetry} else {})
            + (if !m.active || c.v in m.floors then {Floor} else {})
  {
    OwnersAlone(RetryFinalization(m, c, now), c.e, c.v);
  }

  lemma UntrackedRetryOwners(m: Manager, c: Closing, now: Instant)
    requires !Tracks(m, c.e, c.v)
    ensures OwnersOf(RetryFinalization(m, c, now), c.v) == OwnersOf(m, c.v) + {Floor}
  {
    var n := RetryFinalization(m, c, now);
    assert forall o :: Tracks(n, o, c.v) <==> Tracks(m, o, c.v);
  }

  lemma TwoOwners(owners: set<Owner>, a: Owner, b: Owner)
    requires a in owners && b in owners && a != b
    ensures |owners| != 1
  {
    var rest := owners - {a};
    assert b in rest && |owners| == |rest| + 1;
  }

  /** A failed finalization leaves the volume exactly one owner if and only if its slot was free. */
  lemma LateRetrySingleOwnerIff(m: Manager, c: Closing, now: Instant)
    requires Inv(m)
    ensures OwnersOf(RetryFinalization(m, c, now), c.v) != {}
    ensures |OwnersOf(RetryFinalization(m, c, now), c.v)| == 1 <==> Free(m, c)
  {
    var owners := OwnersOf(RetryFinalization(m, c, now), c.v);
    if Tracks(m, c.e, c.v) {
      TrackedRetryOwners(m, c, now);
      if Free(m, c) {
        assert owners == if m.active then {QueuedRetry} else {Floor};
      } else if m.sessions[c.e].inProgress {
        TwoOwners(owners, Attempt, if m.active then QueuedRetry else Floor);
      } else {
        TwoOwners(owners, QueuedRetry, Floor);
      }
    } else {
      UntrackedRetryOwners(m, c, now);
      if Free(m, c) {
        assert owners == {Floor};
      } else {
        var other :| other in OwnersOf(m, c.v) && other != Floor;
        TwoOwners(owners, other, Floor);
      }
    }
  }

  lemma TrackedRetryKeeps(m: Manager, c: Closing, now: Instant)
    requires Inv(m) && Free(m, c) && Tracks(m, c.e, c.v)
    ensures MovesTo(m, RetryFinalization(m, c, now), c.v, RetrySlot(m))
  {
    Local(m, RetryFinalization(m, c, now), c.e, c.v);
  }

  lemma UntrackedRetryKeeps(m: Manager, c: Closing, now: Instant)
    requires Inv(m) && Free(m, c) && !Tracks(m, c.e, c.v)
    ensures MovesTo(m, RetryFinalization(m, c, now), c.v, {Floor})
  {
    var n := RetryFinalization(m, c, now);
    UntrackedRetryOwners(m, c, now);
    assert Attempt !in OwnersOf(m, c.v) && QueuedRetry !in OwnersOf(m, c.v) && Dispatch !in OwnersOf(m, c.v);
    forall o | o in n.sessions ensures Exclusive(n, o, n.sessions[o].volume) {
      assert Exclusive(m, o, m.sessions[o].volume);
      assert n.sessions[o].volume == c.v ==> Tracks(m, o, c.v);
    }
    forall u | u != c.v ensures OwnersOf(n, u) == OwnersOf(m, u) {
      assert forall o :: Tracks(n, o, u) <==> Tracks(m, o, u);
    }
  }

  /** What makes a satisfied completion take away the last owner of `u`: of its own volume anything but
      a newer attempt or a retry under another id, of another volume a lone queued retry under the
      connection-scoped id it still uses. */
  ghost predicate Clears(m: Manager, c: Closing, u: Volume) {
    && (forall o :: Tracks(m, o, u) ==> !m.sessions[o].inProgress && (o in m.queued ==> o == c.e))
    && (u != c.v ==> u !in m.dispatching && u !in m.floors)
  }

  lemma ClearKeepsInv(m: Manager, c: Closing)
    requires Inv(m)
    ensures Inv(ClearOwner(m, c.e, c.v))
  {
    var n := ClearOwner(m, c.e, c.v);
    forall o | o in n.sessions ensures Exclusive(n, o, n.sessions[o].volume) {
      assert Exclusive(m, o, m.sessions[o].volume);
    }
  }

  lemma ClearLinked(m: Manager, c: Closing)
    requires Linked(m)
    ensures Linked(ClearOwner(m, c.e, c.v))
  {
  }

  /** A satisfied completion leaves an owned volume without an owner exactly if it clears it. */
  lemma LateClearLosesIff(m: Manager, c: Closing, u: Volume)
    requires Owned(m, u)
    ensures !Owned(ClearOwner(m, c.e, c.v), u) <==> Clears(m, c, u)
  {
    var n := ClearOwner(m, c.e, c.v);
    assert forall o :: Tracks(n, o, u) <==> Tracks(m, o, u);
    assert forall o :: o in n.queued <==> o in m.queued && o != c.e;
    if !Clears(m, c, u) {
      if o :| Tracks(m, o, u) && (m.sessions[o].inProgress || (o in m.queued && o != c.e)) {
        assert Tracks(n, o, u);
      }
    }
  }

  // ---- owners over whole runs ----

  lemma SettleKeeps(w: Wide, now: Instant)
    requires Inv(w.st.mgr) && w.gap.Finished? && Smooth(w, SettleOf(now))
    ensures Inv(Next(w, SettleOf(now)).st.mgr)
  {
    var m, c := w.st.mgr, w.gap.c;
    if w.gap.satisfied {
      ClearKeepsInv(m, c);
    } else if Tracks(m, c.e, c.v) {
      TrackedRetryKeeps(m, c, now);
    } else {
      UntrackedRetryKeeps(m, c, now);
    }
  }

  lemma EventKeeps(w: Wide, ev: Event)
    requires Inv(w.st.mgr) && Possible(w, ev) && Smooth(w, ev)
    ensures Inv(Next(w, ev).st.mgr)
  {
    match ev
    case Ordinary(step) => StepKeeps(w.st, step);
    case CloseOf(e) => CloseMoves(w.st.mgr, e, Close(w.st.mgr.sessions[e]).(deferred := false));
    case FinishOf(_, _) =>
    case SettleOf(now) => SettleKeeps(w, now);
  }

  ghost predicate SingleInEvery(w: Wide, events: seq<Event>)
    requires Run(w, events)
    decreases |events|
  {
    SingleOwners(w.st.mgr) && (events == [] || SingleInEvery(Next(w, events[0]), events[1..]))
  }

  lemma RoughDoubles(w: Wide, ev: Event)
    requires Inv(w.st.mgr) && Possible(w, ev) && !Smooth(w, ev)
    ensures !SingleOwners(Next(w, ev).st.mgr)
  {
    var n := Next(w, ev).st.mgr;
    if ev.Ordinary? {
      RearmKeepsSingleOwnerIff(w.st.mgr, ev.step.e, ev.step.v, ev.step.now);
      assert |OwnersOf(n, ev.step.v)| > 1;
    } else {
      LateRetrySingleOwnerIff(w.st.mgr, w.gap.c, ev.now);
      assert |OwnersOf(n, w.gap.c.v)| > 1;
    }
  }

  lemma {:induction false} SingleInEveryFrom(w: Wide, events: seq<Event>)
    requires Inv(w.st.mgr) && Run(w, events)
    ensures SingleInEvery(w, events) <==> AllSmooth(w, events)
    decreases |events|
  {
    forall v ensures |OwnersOf(w.st.mgr, v)| <= 1 {
      InvGivesSingleOwner(w.st.mgr, v);
    }
    if events != [] {
      if Smooth(w, events[0]) {
        EventKeeps(w, events[0]);
        SingleInEveryFrom(Next(w, events[0]), events[1..]);
      } else {
        RoughDoubles(w, events[0]);
      }
    }
  }

  /** Over every run, also while completions are being finalized: there is always at most one owner per
      durable volume if and only if every re-arm and every failed finalization finds its slot free. */
  lemma WideSingleOwnerIff(events: seq<Event>)
    requires Run(START, events)
    ensures SingleInEvery(START, events) <==> AllSmooth(START, events)
  {
    SingleInEveryFrom(START, events);
  }

  /** Someone still answers for `v`: a retry owner, or the handler that is finalizing it. */
  ghost predicate Held(w: Wide, v: Volume) {
    Owned(w.st.mgr, v) || (w.gap != NoGap && w.gap.c.v == v)
  }

  ghost predicate Ends(w: Wide, ev: Event, v: Volume) {
    match ev
    case Ordinary(step) => Releases(w.st, step, v)
    case SettleOf(_) => w.gap.Finished? && w.gap.satisfied && Clears(w.st.mgr, w.gap.c, v)
    case _ => false
  }

  lemma RetryOwns(m: Manager, c: Closing, now: Instant)
    requires Linked(m)
    ensures Keeping(m, RetryFinalization(m, c, now), c.v, true) && Owned(RetryFinalization(m, c, now), c.v)
  {
    var n := RetryFinalization(m, c, now);
    if Tracks(m, c.e, c.v) {
      KeptLocally(m, n, c.e, c.v, true);
      TrackedRetryOwners(m, c, now);
    } else {
      UntrackedRetryOwners(m, c, now);
      forall u ensures Owned(m, u) ==> Owned(n, u) {
        assert forall o :: Tracks(n, o, u) <==> Tracks(m, o, u);
      }
    }
  }

  lemma SettleHolds(w: Wide, now: Instant)
    requires Linked(w.st.mgr) && w.gap.Finished?
    ensures Linked(Next(w, SettleOf(now)).st.mgr)
    ensures forall v :: Held(w, v) && !Ends(w, SettleOf(now), v) ==> Held(Next(w, SettleOf(now)), v)
  {
    var m, c := w.st.mgr, w.gap.c;
    if w.gap.satisfied {
      ClearLinked(m, c);
      forall v | Held(w, v) && !Clears(m, c, v) ensures Owned(ClearOwner(m, c.e, c.v), v) {
        ClearsUnlessKept(m, c, v);
      }
    } else {
      RetryOwns(m, c, now);
    }
  }

  /** Of its own volume a settle that does not clear finds a newer attempt or retry. */
  lemma ClearsUnlessKept(m: Manager, c: Closing, v: Volume)
    requires (Owned(m, v) || c.v == v) && !Clears(m, c, v)
    ensures Owned(ClearOwner(m, c.e, c.v), v)
  {
    assert Owned(m, v);
    LateClearLosesIff(m, c, v);
  }

  lemma EventHolds(w: Wide, ev: Event)
    requires Linked(w.st.mgr) && Possible(w, ev)
    ensures Linked(Next(w, ev).st.mgr)
    ensures forall v :: Held(w, v) && !Ends(w, ev, v) ==> Held(Next(w, ev), v)
  {
    match ev
    case Ordinary(step) => StepOwns(w.st, step);
    case CloseOf(e) => ClosedOwners(w.st, e);
    case FinishOf(_, _) =>
    case SettleOf(now) => SettleHolds(w, now);
  }

  ghost predicate NeverEnded(w: Wide, events: seq<Event>, v: Volume)
    requires Run(w, events)
    decreases |events|
  {
    events == [] || (!Ends(w, events[0], v) && NeverEnded(Next(w, events[0]), events[1..], v))
  }

  /** Over every run an intent survives, in a retry slot or in the handler's hands, until an event
      ends it. */
  lemma {:induction false} WideNeverLost(w: Wide, events: seq<Event>, v: Volume)
    requires Linked(w.st.mgr) && Run(w, events) && NeverEnded(w, events, v) && Held(w, v)
    ensures Held(EndOf(w, events), v)
    decreases |events|
  {
    if events != [] {
      EventHolds(w, events[0]);
      WideNeverLost(Next(w, events[0]), events[1..], v);
    }
  }

  // ---- the cadence over whole runs ----

  function TimeOf(ev: Event, t: Instant): Instant {
    match ev
    case Ordinary(step) => Cadence.TimeOf(step, t)
    case SettleOf(now) => now
    case _ => t
  }

  predicate Clocked(events: seq<Event>, t: Instant)
    decreases |events|
  {
    events == [] || (TimeOf(events[0], t) >= t && Clocked(events[1..], TimeOf(events[0], t)))
  }

  function EndTime(events: seq<Event>, t: Instant): Instant
    decreases |events|
  {
    if events == [] then t else EndTime(events[1..], TimeOf(events[0], t))
  }

  predicate SendsFor(w: Wide, ev: Event, v: Volume) {
    ev.Ordinary? && Cadence.SendsFor(w.st, ev.step, v)
  }

  predicate NoStartBefore(w: Wide, events: seq<Event>, v: Volume, d: Instant)
    requires Run(w, events)
    decreases |events|
  {
    events == []
    || ((SendsFor(w, events[0], v) ==> events[0].step.now >= d) && NoStartBefore(Next(w, events[0]), events[1..], v, d))
  }

  lemma ClosingRests(st: State, e: Ephemeral, v: Volume, d: Instant)
    requires Authoritative(st, e) && Cadence.Resting(st.mgr, v, d)
    ensures Cadence.Resting(CloseAttempt(st, e).mgr, v, d)
  {
    Cadence.SessionRests(st.mgr, e, Close(st.mgr.sessions[e]).(deferred := false), v, d);
  }

  lemma ClearRests(m: Manager, c: Closing, v: Volume, d: Instant)
    requires Linked(m) && Cadence.Resting(m, v, d) && !Clears(m, c, v)
    ensures Cadence.Resting(ClearOwner(m, c.e, c.v), v, d)
  {
    var n := ClearOwner(m, c.e, c.v);
    forall e | Tracks(n, e, v) ensures Cadence.QuietUntil(n, e, d) {
      assert Cadence.QuietUntil(m, e, d);
    }
    if o :| Tracks(m, o, v) && o in m.queued && o != c.e {
      assert Tracks(n, o, v) && o in n.queued;
    }
  }

  lemma RetryRests(m: Manager, c: Closing, now: Instant, v: Volume, d: Instant)
    requires Linked(m) && Cadence.Resting(m, v, d) && d <= now + RETRY_DELAY
    ensures Cadence.Resting(RetryFinalization(m, c, now), v, d)
  {
    var owed := Retry(now + RETRY_DELAY, c.reconciliation || c.deferred);
    if Tracks(m, c.e, c.v) {
      Cadence.InstallRests(m, c.e, c.v, owed, v, d);
    } else {
      var n := RetryFinalization(m, c, now);
      forall e | Tracks(n, e, v) ensures Cadence.QuietUntil(n, e, d) {
        assert Cadence.QuietUntil(m, e, d);
      }
      if o :| Tracks(m, o, v) && o in m.queued {
        assert Tracks(n, o, v);
      }
    }
  }

  lemma EventRests(w: Wide, ev: Event, v: Volume, d: Instant, t: Instant)
    requires Linked(w.st.mgr) && Possible(w, ev) && Cadence.Resting(w.st.mgr, v, d)
    requires TimeOf(ev, t) >= t && d <= t + RETRY_DELAY
    requires !Ends(w, ev, v) && !(ev.Ordinary? && Cadence.TakesRetryOf(w.st, ev.step, v))
    ensures Cadence.Resting(Next(w, ev).st.mgr, v, d)
  {
    match ev
    case Ordinary(step) => Cadence.WaitingKept(w.st, step, v, d);
    case CloseOf(e) => ClosingRests(w.st, e, v, d);
    case FinishOf(_, _) =>
    case SettleOf(now) =>
      if w.gap.satisfied {
        ClearRests(w.st.mgr, w.gap.c, v, d);
      } else {
        RetryRests(w.st.mgr, w.gap.c, now, v, d);
      }
  }

  lemma {:induction false} PastDeadline(w: Wide, events: seq<Event>, v: Volume, d: Instant, t: Instant)
    requires Run(w, events) && Clocked(events, t) && t >= d
    ensures NoStartBefore(w, events, v, d)
    decreases |events|
  {
    if events != [] {
      PastDeadline(Next(w, events[0]), events[1..], v, d, TimeOf(events[0], t));
    }
  }

  lemma {:induction false} WideCadenceFrom(w: Wide, events: seq<Event>, v: Volume, d: Instant, t: Instant)
    requires Linked(w.st.mgr) && Run(w, events) && Clocked(events, t)
    requires NeverEnded(w, events, v) && Cadence.Resting(w.st.mgr, v, d) && d <= t + RETRY_DELAY
    ensures NoStartBefore(w, events, v, d)
    decreases |events|
  {
    if events != [] {
      var ev, rest := events[0], events[1..];
      if ev.Ordinary? {
        Cadence.RestingSendsNothing(w.st, ev.step, v, d);
      }
      if ev.Ordinary? && Cadence.TakesRetryOf(w.st, ev.step, v) {
        assert Cadence.QuietUntil(w.st.mgr, ev.step.e, d);
        PastDeadline(Next(w, ev), rest, v, d, ev.step.now);
      } else {
        EventHolds(w, ev);
        EventRests(w, ev, v, d, t);
        WideCadenceFrom(Next(w, ev), rest, v, d, TimeOf(ev, t));
      }
    }
  }

  lemma SettleTimely(st: State, c: Closing, satisfied: bool, now: Instant)
    requires Cadence.Timely(st.mgr, now)
    ensures Cadence.Timely(SettleOwner(st, c, satisfied, now).mgr, now)
  {
    Cadence.InstallTimely(st.mgr, c.e, c.v, Retry(now + RETRY_DELAY, c.reconciliation || c.deferred), now);
  }

  lemma {:induction false} RunTimely(w: Wide, events: seq<Event>, t: Instant)
    requires Cadence.Timely(w.st.mgr, t) && Run(w, events) && Clocked(events, t)
    ensures Cadence.Timely(EndOf(w, events).st.mgr, EndTime(events, t))
    decreases |events|
  {
    if events != [] {
      if events[0].Ordinary? {
        Cadence.StepTimely(w.st, events[0].step, t);
      } else if events[0].SettleOf? {
        assert Cadence.Timely(w.st.mgr, events[0].now);
        SettleTimely(w.st, w.gap.c, w.gap.satisfied, events[0].now);
      }
      RunTimely(Next(w, events[0]), events[1..], TimeOf(events[0], t));
    }
  }

  lemma {:induction false} RunKeepsLinks(w: Wide, events: seq<Event>)
    requires Linked(w.st.mgr) && Run(w, events)
    ensures Linked(EndOf(w, events).st.mgr)
    decreases |events|
  {
    if events != [] {
      EventHolds(w, events[0]);
      RunKeepsLinks(Next(w, events[0]), events[1..]);
    }
  }

  /** Over every run, completions being finalized and late re-arms included: until an event ends its
      intent, a volume whose retry waits until `d` is not started before `d`. */
  lemma WideCadence(before: seq<Event>, rest: seq<Event>, v: Volume, d: Instant, t: Instant)
    requires Run(START, before) && Clocked(before, t)
    requires var w := EndOf(START, before);
             && Cadence.Resting(w.st.mgr, v, d)
             && Run(w, rest) && NeverEnded(w, rest, v) && Clocked(rest, EndTime(before, t))
    ensures NoStartBefore(EndOf(START, before), rest, v, d)
  {
    var w := EndOf(START, before);
    RunKeepsLinks(START, before);
    RunTimely(START, before, t);
    Cadence.RestingIsTimely(w.st.mgr, v, d, EndTime(before, t));
    WideCadenceFrom(w, rest, v, d, EndTime(before, t));
  }

  // ---- what a late finish removes ----

  function Recorded(h: History, w: Wide, ev: Event): History {
    if ev.Ordinary? then Record(h, w.st, ev.step) else h
  }

  function RunHistory(w: Wide, h: History, events: seq<Event>): History
    requires Run(w, events)
    decreases |events|
  {
    if events == [] then h else RunHistory(Next(w, events[0]), Recorded(h, w, events[0]), events[1..])
  }

  lemma CloseCovers(st: State, h: History, e: Ephemeral)
    requires RecInv(st, h) && Authoritative(st, e)
    ensures RecInv(CloseAttempt(st, e), h)
  {
    ClosedOwners(st, e);
    var n := CloseAttempt(st, e);
    forall o | o in n.mgr.sessions ensures Covered(n, h, o) {
      assert Covered(st, h, o);
    }
  }

  lemma FinishCovers(st: State, h: History, c: Closing, fin: Finalization)
    requires RecInv(st, h)
    ensures RecInv(st.(index := FinishPass(st.index, c, fin)), h)
  {
    var n := st.(index := FinishPass(st.index, c, fin));
    forall o | o in n.mgr.sessions ensures Covered(n, h, o) {
      assert Covered(st, h, o);
    }
  }

  lemma SettledSessions(st: State, c: Closing, satisfied: bool, now: Instant)
    ensures var n := SettleOwner(st, c, satisfied, now);
            n.mgr.sessions == st.mgr.sessions && n.index.passes.Keys <= st.index.passes.Keys
    ensures var n := SettleOwner(st, c, satisfied, now);
            forall v :: v in n.index.passes ==> n.index.passes[v] == st.index.passes[v]
  {
  }

  lemma SettleCovers(w: Wide, h: History, now: Instant)
    requires RecInv(w.st, h) && w.gap.Finished?
    ensures RecInv(Next(w, SettleOf(now)).st, h)
  {
    SettleHolds(w, now);
    SettledSessions(w.st, w.gap.c, w.gap.satisfied, now);
    var n := Next(w, SettleOf(now)).st;
    forall o | o in n.mgr.sessions ensures Covered(n, h, o) {
      StillCovered(w.st.index, h, n.index, h, n.mgr.sessions[o]);
    }
  }

  lemma {:induction false} RunCovers(w: Wide, h: History, events: seq<Event>)
    requires RecInv(w.st, h) && Run(w, events)
    ensures RecInv(EndOf(w, events).st, RunHistory(w, h, events))
    decreases |events|
  {
    if events != [] {
      match events[0] {
        case Ordinary(step) => StepCovers(w.st, h, step);
        case CloseOf(e) => CloseCovers(w.st, h, e);
        case FinishOf(_, fin) => FinishCovers(w.st, h, w.gap.c, fin);
        case SettleOf(now) => SettleCovers(w, h, now);
      }
      RunCovers(Next(w, events[0]), Recorded(h, w, events[0]), events[1..]);
    }
  }

  /** The steps that can run in a gap. */
  predicate Between(st: State, steps: seq<Step>)
    decreases |steps|
  {
    steps == [] || (!OfReader(steps[0]) && Enabled(st, steps[0]) && Between(Apply(st, steps[0]), steps[1..]))
  }

  predicate BeginsPass(st: State, step: Step, v: Volume) {
    step.DoTrigger? && step.v == v && TriggerSends(st.mgr, step.e, v, Paused(st, step.e))
  }

  predicate Begun(st: State, steps: seq<Step>, v: Volume)
    requires Between(st, steps)
    decreases |steps|
  {
    steps != [] && (BeginsPass(st, steps[0], v) || Begun(Apply(st, steps[0]), steps[1..], v))
  }

  function AfterGap(st: State, steps: seq<Step>): State
    requires Between(st, steps)
    decreases |steps|
  {
    if steps == [] then st else AfterGap(Apply(st, steps[0]), steps[1..])
  }

  /** Whatever runs in the gap, rows stay; a pass that is there is the old one, or new and empty. */
  lemma {:induction false} GapKeeps(st: State, steps: seq<Step>, v: Volume)
    requires Between(st, steps)
    ensures RowsOf(AfterGap(st, steps).index, v) == RowsOf(st.index, v)
    ensures v in AfterGap(st, steps).index.passes ==>
              if Begun(st, steps, v) then AfterGap(st, steps).index.passes[v] == {}
              else v in st.index.passes && AfterGap(st, steps).index.passes[v] == st.index.passes[v]
    decreases |steps|
  {
    if steps != [] {
      GapKeeps(Apply(st, steps[0]), steps[1..], v);
    }
  }

  lemma StaleAfterGap(st: State, steps: seq<Step>, c: Closing, excluded: set<FileRef>, fin: Finalization)
    requires Between(st, steps) && c.reconciliation && c.v in AfterGap(st, steps).index.passes
    requires CanFinish(AfterGap(st, steps).index, c, excluded, fin)
    ensures var rows := RowsOf(st.index, c.v);
            && RowsOf(FinishPass(AfterGap(st, steps).index, c, fin), c.v) == rows - fin.committed
            && (Begun(st, steps, c.v) && fin.allCommitted ==> fin.committed == rows)
            && (!Begun(st, steps, c.v) ==>
                  c.v in st.index.passes && fin.committed <= (rows - st.index.passes[c.v]) + excluded)
  {
    GapKeeps(st, steps, c.v);
  }

  /** Over every run: whether finishing a closed reconciliation spares the included rows its scan
      delivered.  It does if no pass of the volume began in the gap.  If one did, a finish that commits removes every
      row of the volume, and so spares what was delivered only if nothing of it was to be kept. */
  lemma LateFinishSparesIff(events: seq<Event>, e: Ephemeral, between: seq<Step>, excluded: set<FileRef>,
                            fin: Finalization)
    requires Run(START, events)
    requires var w := EndOf(START, events);
             && w.gap == NoGap && Authoritative(w.st, e) && w.st.mgr.sessions[e].reconciliation
             && Between(CloseAttempt(w.st, e), between)
             && w.st.mgr.sessions[e].volume in AfterGap(CloseAttempt(w.st, e), between).index.passes
             && CanFinish(AfterGap(CloseAttempt(w.st, e), between).index, ClosingOf(w.st.mgr, e), excluded, fin)
    ensures var st := EndOf(START, events).st;
            var v := st.mgr.sessions[e].volume;
            var h := RunHistory(START, NO_HISTORY, events);
            var kept := At(h.wanted, v) - excluded;
            var rows := RowsOf(st.index, v);
            var left := RowsOf(FinishPass(AfterGap(CloseAttempt(st, e), between).index, ClosingOf(st.mgr, e), fin), v);
            var begun := Begun(CloseAttempt(st, e), between, v);
            && (!begun ==> rows * kept <= left && v !in h.spoiled && (v !in h.blind ==> At(h.unread, v) == {}))
            && (begun && fin.allCommitted ==> left == {})
            && (fin.allCommitted ==> (rows * kept <= left <==> !begun || rows * kept == {}))
  {
    RunCovers(START, NO_HISTORY, events);
    var st := EndOf(START, events).st;
    assert Covered(st, RunHistory(START, NO_HISTORY, events), e);
    StaleAfterGap(CloseAttempt(st, e), between, ClosingOf(st.mgr, e), excluded, fin);
  }

  // ---- runs that show both failures ----

  /** A reconciliation of volume 7 has delivered file 1 and is complete; the scheduler, which still
      finds the volume due, starts the next one before the handler goes on. */
  ghost function Scanned(): State {
    State(Manager(true, map[1 := Session(7, 'C', true, false, true, false, false)], map[], map[], map[], map[]),
          false, {}, Index(map[7 := {1}], map[7 := {1}]))
  }

  lemma Reaches(w: Wide, ev: Event, rest: seq<Event>)
    requires Possible(w, ev) && Run(Next(w, ev), rest)
    ensures Run(w, [ev] + rest) && EndOf(w, [ev] + rest) == EndOf(Next(w, ev), rest)
  {
    assert ([ev] + rest)[1..] == rest;
  }

  lemma ScannedIsReachable() returns (events: seq<Event>)
    ensures Run(START, events) && EndOf(START, events) == Wide(Scanned(), NoGap)
  {
    var add, trigger, batch := DoAdd(1, 7, 'C'), DoTrigger(1, 7, 0), DoBatch(1, {1}, {1}, Applied);
    var w1 := Next(START, Ordinary(SetActive(true)));
    var w2 := Next(w1, Ordinary(add));
    assert w2.st.mgr == Manager(true, map[1 := Session(7, 'C', false, false, false, false, false)],
                                map[], map[], map[], map[]);
    var w3 := Next(w2, Ordinary(trigger));
    assert w3.st.index == Index(map[7 := {}], map[]);
    assert w3.st.mgr == Scanned().mgr;
    var w4 := Next(w3, Ordinary(batch));
    assert w4.st.index.passes[7] == {1} && w4.st.index.rows[7] == {1};
    assert w4.st.index == Scanned().index;
    events := [];
    assert w4 == Wide(Scanned(), NoGap);
    Reaches(w3, Ordinary(batch), events);
    events := [Ordinary(batch)] + events;
    Reaches(w2, Ordinary(trigger), events);
    events := [Ordinary(trigger)] + events;
    Reaches(w1, Ordinary(add), events);
    events := [Ordinary(add)] + events;
    Reaches(START, Ordinary(SetActive(true)), events);
    events := [Ordinary(SetActive(true))] + events;
  }

  /** The state the handler finds when the next reconciliation began in its gap. */
  function Overtaken(): State {
    State(Manager(true, map[1 := Session(7, 'C', true, false, true, false, false)], map[], map[], map[], map[]),
          false, {}, Index(map[7 := {}], map[7 := {1}]))
  }

  /** The row the completed scan delivered is removed. */
  lemma LateFinishRemovesSeenRow() returns (events: seq<Event>)
    ensures Run(START, events) && EndOf(START, events) == Wide(Overtaken(), Closed(Closing(1, 7, true, false)))
    ensures var ix := EndOf(START, events).st.index;
            var fin := Finalization({1}, true, true);
            && CanFinish(ix, Closing(1, 7, true, false), {}, fin)
            && RowsOf(ix, 7) == {1} && RowsOf(FinishPass(ix, Closing(1, 7, true, false), fin), 7) == {}
  {
    events := ScannedIsReachable();
    var w := Wide(Scanned(), NoGap);
    var trigger := Ordinary(DoTrigger(1, 7, 0));
    var closed := Next(w, CloseOf(1));
    assert Next(closed, trigger) == Wide(Overtaken(), Closed(Closing(1, 7, true, false)));
    Reaches(closed, trigger, []);
    Reaches(w, CloseOf(1), [trigger] + []);
    Joined(START, events, [CloseOf(1)] + ([trigger] + []));
    events := events + ([CloseOf(1)] + ([trigger] + []));
  }

  lemma {:induction false} Joined(w: Wide, first: seq<Event>, second: seq<Event>)
    requires Run(w, first) && Run(EndOf(w, first), second)
    ensures Run(w, first + second) && EndOf(w, first + second) == EndOf(EndOf(w, first), second)
    decreases |first|
  {
    if first == [] {
      assert first + second == second;
    } else {
      Joined(Next(w, first[0]), first[1..], second);
      Reaches(w, first[0], first[1..] + second);
      assert [first[0]] + (first[1..] + second) == first + second;
    }
  }

  /** In a continuation of the same run, marks that cannot be written give the volume two owners. */
  lemma LateRetryDoublesOwner(now: Instant) returns (events: seq<Event>)
    ensures Run(START, events) && |OwnersOf(EndOf(START, events).st.mgr, 7)| == 2
  {
    var c, finish := Closing(1, 7, true, false), FinishOf({}, Finalization({1}, true, false));
    events := LateFinishRemovesSeenRow();
    var w := EndOf(START, events);
    var finished := Next(w, finish);
    Reaches(finished, SettleOf(now), []);
    Reaches(w, finish, [SettleOf(now)] + []);
    Joined(START, events, [finish] + ([SettleOf(now)] + []));
    events := events + ([finish] + ([SettleOf(now)] + []));
    TrackedRetryOwners(Overtaken().mgr, c, now);
    assert OwnersOf(RetryFinalization(Overtaken().mgr, c, now), 7) == {Attempt, QueuedRetry};
  }
}
