/**
  The scan-authority and retry-ownership machine of the volume session manager, as a step
  function over values.  One step is one critical section of the manager (or one handler whose
  sections the model joins); a run is any interleaving of steps, so the scheduler thread, the
  reader thread and the control plane may be at any point of their handlers between two steps.
 */
module SessionSteps {

  type Ephemeral = nat        // connection-scoped volume id
  type Volume = int           // durable volume row id
  type Instant = int          // monotonic clock, in seconds
  type FileRef = int          // identity of a row within its volume

  const RETRY_DELAY: Instant := 5

  /** A bounded retry deadline and the kind of scan that is owed. */
  datatype Retry = Retry(due: Instant, reconciliation: bool)

  datatype Session = Session(
    volume: Volume,
    letter: char,
    inProgress: bool,
    batchFailed: bool,
    reconciliation: bool,
    deferred: bool,
    awaiting: bool)

  /** What the manager keeps under its lock pair; `inHand` is the scheduler's local list of the due
      retries it took, with the session each came from. */
  datatype Manager = Manager(
    active: bool,
    sessions: map<Ephemeral, Session>,
    queued: map<Ephemeral, Retry>,
    dispatching: map<Volume, Retry>,
    floors: map<Volume, Retry>,
    inHand: map<Volume, Ephemeral>)

  /** The part of the pipeline the manager drives: the seen-sets of the active reconciliation
      passes and the durable rows. */
  datatype Index = Index(passes: map<Volume, set<FileRef>>, rows: map<Volume, set<FileRef>>)

  datatype State = State(mgr: Manager, pausedAll: bool, pausedLetters: set<char>, index: Index)

  const INITIAL: State :=
    State(Manager(false, map[], map[], map[], map[], map[]), false, {}, Index(map[], map[]))

  predicate Tracks(m: Manager, e: Ephemeral, v: Volume) {
    e in m.sessions && m.sessions[e].volume == v
  }

  function Later(a: Instant, b: Instant): Instant {
    if a < b then b else a
  }

  // ---- retry-owner helpers, each run with both locks held ----

  function MergeFloor(floors: map<Volume, Retry>, v: Volume, r: Retry): map<Volume, Retry> {
    if v in floors
    then floors[v := Retry(Later(floors[v].due, r.due), floors[v].reconciliation || r.reconciliation)]
    else floors[v := r]
  }

  /** The floor becomes the retry slot of this connection, deadline and kind unchanged. */
  function FloorToQueue(m: Manager, e: Ephemeral, v: Volume): Manager
    requires v in m.floors
  {
    m.(queued := m.queued[e := m.floors[v]], floors := m.floors - {v})
  }

  function Install(m: Manager, e: Ephemeral, v: Volume, r: Retry): Manager {
    if m.active
    then m.(dispatching := m.dispatching - {v}, queued := m.queued[e := r])
    else m.(dispatching := m.dispatching - {v}, floors := MergeFloor(m.floors, v, r))
  }

  function Claim(m: Manager, e: Ephemeral, claimed: Session): Manager
    requires e in m.sessions
  {
    m.(dispatching := m.dispatching - {claimed.volume},
       queued := m.queued - {e},
       sessions := m.sessions[e := claimed.(inProgress := true)])
  }

  function ClearOwner(m: Manager, e: Ephemeral, v: Volume): Manager {
    m.(queued := m.queued - {e}, dispatching := m.dispatching - {v}, floors := m.floors - {v})
  }

  datatype Pending = NoRetry | Owed(retry: Retry)

  /** The retry a vanishing session owes: the later of the queued deadline, the attempt's own
      five-second bound and an in-hand dispatch. */
  function OwedBySession(m: Manager, e: Ephemeral, now: Instant): Pending
    requires e in m.sessions
  {
    var s := m.sessions[e];
    var fromQueue := if e in m.queued then Owed(m.queued[e]) else NoRetry;
    var withAttempt :=
      if !s.inProgress then fromQueue
      else
        var bound := now + RETRY_DELAY;
        Owed(Retry(if fromQueue.Owed? then Later(fromQueue.retry.due, bound) else bound, s.reconciliation));
    if s.volume !in m.dispatching then withAttempt
    else if withAttempt.Owed?
    then Owed(withAttempt.retry.(due := Later(withAttempt.retry.due, m.dispatching[s.volume].due)))
    else Owed(m.dispatching[s.volume])
  }

  /** A session leaves (disconnect, disappearance, disabled volume): what it owes moves to the floor. */
  function RemoveSession(m: Manager, e: Ephemeral, now: Instant): Manager
    requires e in m.sessions
  {
    var v := m.sessions[e].volume;
    var owed := OwedBySession(m, e, now);
    m.(floors := if owed.Owed? then MergeFloor(m.floors, v, owed.retry) else m.floors,
       dispatching := m.dispatching - {v},
       queued := m.queued - {e},
       sessions := m.sessions - {e})
  }

  // ---- starting scans ----

  /** True when a start would leave the stream ambiguous: an attempt is in flight or left a hole. */
  predicate Ambiguous(s: Session) {
    s.batchFailed || s.inProgress
  }

  predicate StartSends(m: Manager, e: Ephemeral, v: Volume, sawComplete: bool, barrier: bool) {
    && Tracks(m, e, v) && !m.sessions[e].awaiting
    && v !in m.floors && e !in m.queued && !sawComplete
    && (Ambiguous(m.sessions[e]) ==> barrier)
  }

  function Start(m: Manager, e: Ephemeral, v: Volume, sawComplete: bool, barrier: bool): Manager {
    if !Tracks(m, e, v) || m.sessions[e].awaiting then m
    else if v in m.floors then FloorToQueue(m, e, v)
    else if !StartSends(m, e, v, sawComplete, barrier) then m
    else
      var s := m.sessions[e];
      Claim(m, e, s.(reconciliation := false,
                     awaiting := Ambiguous(s),
                     batchFailed := s.batchFailed && Ambiguous(s)))
  }

  predicate TriggerSends(m: Manager, e: Ephemeral, v: Volume, paused: bool) {
    && Tracks(m, e, v) && !paused
    && !Ambiguous(m.sessions[e])
    && v !in m.floors && e !in m.queued
  }

  function Trigger(m: Manager, e: Ephemeral, v: Volume, paused: bool): Manager {
    if !Tracks(m, e, v) || paused then m
    else if m.sessions[e].inProgress then
      m.(sessions := m.sessions[e := m.sessions[e].(deferred := true)])
    else if v in m.floors then FloorToQueue(m, e, v)
    else if !TriggerSends(m, e, v, paused) then m
    else Claim(m, e, m.sessions[e].(reconciliation := true))
  }

  /** A reconciliation whose start request could not be sent gets its retry slot back. */
  function Rearm(m: Manager, e: Ephemeral, v: Volume, now: Instant): Manager {
    if !Tracks(m, e, v) then m
    else
      var s := m.sessions[e].(inProgress := false, reconciliation := false);
      Install(m.(sessions := m.sessions[e := s]), e, v, Retry(now + RETRY_DELAY, true))
  }

  // ---- the scan stream ----

  /** A frame is attributable to the attempt in flight once its barrier has been consumed. */
  predicate Attributable(m: Manager, e: Ephemeral) {
    e in m.sessions && !m.sessions[e].awaiting && m.sessions[e].inProgress
  }

  function MarkBatchFailed(m: Manager, e: Ephemeral): Manager
    requires e in m.sessions
  {
    m.(sessions := m.sessions[e := m.sessions[e].(batchFailed := true)])
  }

  function Close(s: Session): Session {
    s.(inProgress := false, reconciliation := false, batchFailed := false)
  }

  /** A completion without authority: paused, or some batch of the attempt was not applied. */
  function CompleteWithoutAuthority(m: Manager, e: Ephemeral, now: Instant): Manager
    requires e in m.sessions
  {
    var s := m.sessions[e];
    var closed := m.(sessions := m.sessions[e := Close(s)]);
    if s.batchFailed then Install(closed, e, s.volume, Retry(now + RETRY_DELAY, s.reconciliation)) else closed
  }

  /** A completion with authority: durable finalization satisfies the intent, a failed one is retried. */
  function CompleteWithAuthority(m: Manager, e: Ephemeral, now: Instant, durable: bool): Manager
    requires e in m.sessions
  {
    var s := m.sessions[e];
    var closed := m.(sessions := m.sessions[e := Close(s).(deferred := false)]);
    if durable then ClearOwner(closed, e, s.volume)
    else Install(closed, e, s.volume, Retry(now + RETRY_DELAY, s.reconciliation || s.deferred))
  }

  function Fail(m: Manager, e: Ephemeral, now: Instant): Manager
    requires e in m.sessions
  {
    var s := m.sessions[e];
    Install(m.(sessions := m.sessions[e := Close(s)]), e, s.volume, Retry(now + RETRY_DELAY, s.reconciliation))
  }

  function AcceptBarrier(m: Manager, e: Ephemeral): Manager {
    if e in m.sessions && m.sessions[e].inProgress && m.sessions[e].awaiting
    then m.(sessions := m.sessions[e := m.sessions[e].(awaiting := false, batchFailed := false)])
    else m
  }

  // ---- the scheduler ----

  function TakeDue(m: Manager, e: Ephemeral): Manager
    requires e in m.queued && e in m.sessions
  {
    var v := m.sessions[e].volume;
    m.(dispatching := m.dispatching[v := m.queued[e]], inHand := m.inHand[v := e], queued := m.queued - {e})
  }

  function Requeue(m: Manager, v: Volume, now: Instant): Manager
    requires v in m.dispatching && v in m.inHand
  {
    m.(queued := m.queued[m.inHand[v] := Retry(now + RETRY_DELAY, m.dispatching[v].reconciliation)],
       dispatching := m.dispatching - {v})
  }

  function FloorDispatch(m: Manager, v: Volume): Manager
    requires v in m.dispatching
  {
    m.(floors := MergeFloor(m.floors, v, m.dispatching[v]), dispatching := m.dispatching - {v})
  }

  /** Cleanup after an admission: what is still in hand is owned by the attempt, requeued, or, when
      the session is gone, put on the floor. */
  function Settle(m: Manager, v: Volume, now: Instant): Manager
    requires v in m.inHand
  {
    if v !in m.dispatching then m
    else if !Tracks(m, m.inHand[v], v) then FloorDispatch(m, v)
    else if m.sessions[m.inHand[v]].inProgress then m.(dispatching := m.dispatching - {v})
    else Requeue(m, v, now)
  }

  function Postponed(r: Retry, now: Instant): Retry {
    if r.due <= now + RETRY_DELAY then r.(due := now + RETRY_DELAY) else r
  }

  function Postpone(m: Manager, now: Instant): Manager {
    m.(queued := map e | e in m.queued :: Postponed(m.queued[e], now))
  }

  // ---- the index ----

  /** How the pipeline answered one batch: applied, refused by the store, or applied but with the
      follow-up removal of rule-excluded rows refused. */
  datatype BatchOutcome = Applied | Refused | PruneFailed

  function RowsOf(ix: Index, v: Volume): set<FileRef> {
    if v in ix.rows then ix.rows[v] else {}
  }

  function See(ix: Index, v: Volume, ids: set<FileRef>): map<Volume, set<FileRef>> {
    if v in ix.passes then ix.passes[v := ix.passes[v] + ids] else ix.passes
  }

  /** `included` are the ids no configured rule excludes; only they are recorded as seen.  `deletes` are the
      ids whose last change in the batch removes them. */
  function ApplyBatch(ix: Index, v: Volume, upserts: set<FileRef>, included: set<FileRef>,
                      deletes: set<FileRef>, outcome: BatchOutcome): Index
  {
    match outcome
    case Refused => ix
    case Applied => Index(See(ix, v, included * upserts),
                          ix.rows[v := (RowsOf(ix, v) - deletes - upserts) + (included * upserts - deletes)])
    case PruneFailed => Index(See(ix, v, included * upserts),
                              ix.rows[v := (RowsOf(ix, v) - deletes) + (upserts - deletes)])
  }

  /** The rows a finishing pass sets out to remove. */
  function StaleRows(ix: Index, v: Volume, excluded: set<FileRef>): set<FileRef>
    requires v in ix.passes
  {
    (RowsOf(ix, v) - ix.passes[v]) + (RowsOf(ix, v) * excluded)
  }

  /** What the store did while an accepted completion was finalized: the rows the removal chunks
      committed, whether all of them committed, and whether the durable marks were written. */
  datatype Finalization = Finalization(committed: set<FileRef>, allCommitted: bool, marked: bool)

  // ---- steps ----

  datatype Step =
    | SetActive(active: bool)
    | SetPause(all: bool, letters: set<char>)
    | DoAdd(e: Ephemeral, v: Volume, letter: char)
    | DoRemove(e: Ephemeral, now: Instant)
    | DoFlush(v: Volume)
    | DoStart(e: Ephemeral, v: Volume, sawComplete: bool, barrier: bool, now: Instant)
    | DoTrigger(e: Ephemeral, v: Volume, now: Instant)
    | DoRearm(e: Ephemeral, v: Volume, now: Instant)
    | DoBatch(e: Ephemeral, ids: set<FileRef>, included: set<FileRef>, outcome: BatchOutcome)
    | DoJournal(e: Ephemeral, upserts: set<FileRef>, included: set<FileRef>, deletes: set<FileRef>,
                outcome: BatchOutcome)
    | DoComplete(e: Ephemeral, now: Instant, excluded: set<FileRef>, fin: Finalization)
    | DoFail(e: Ephemeral, now: Instant)
    | DoBarrier(e: Ephemeral)
    | DoTake(e: Ephemeral, now: Instant)
    | DoRequeue(v: Volume, now: Instant)
    | DoSettle(v: Volume, now: Instant)
    | DoForget(v: Volume)
    | DoPostpone(now: Instant)
    | DoAbort(v: Volume)
    | Stop

  predicate Paused(st: State, e: Ephemeral) {
    e in st.mgr.sessions && (st.pausedAll || st.mgr.sessions[e].letter in st.pausedLetters)
  }

  /** The completion handler gives authority only to a terminal of a scan in flight, whose barrier
      has been consumed, with every batch applied and the volume not paused. */
  predicate Authoritative(st: State, e: Ephemeral) {
    Attributable(st.mgr, e) && !st.mgr.sessions[e].batchFailed && !Paused(st, e)
  }

  /** A completion finalizes a reconciliation pass exactly when its own scan is a reconciliation. */
  predicate Finalizes(st: State, e: Ephemeral) {
    && Authoritative(st, e)
    && st.mgr.sessions[e].reconciliation && st.mgr.sessions[e].volume in st.index.passes
  }

  predicate Durable(st: State, e: Ephemeral, fin: Finalization) {
    fin.marked && (Finalizes(st, e) ==> fin.allCommitted)
  }

  function CompleteIndex(st: State, e: Ephemeral, fin: Finalization): Index
    requires Attributable(st.mgr, e)
  {
    var v := st.mgr.sessions[e].volume;
    if !Authoritative(st, e) then st.index.(passes := st.index.passes - {v})
    else
      var removed := if Finalizes(st, e) then st.index.(rows := st.index.rows[v := RowsOf(st.index, v) - fin.committed])
                     else st.index;
      if Durable(st, e, fin) || (Finalizes(st, e) && fin.allCommitted)
      then removed.(passes := removed.passes - {v}) else removed
  }

  function CompleteManager(st: State, e: Ephemeral, now: Instant, fin: Finalization): Manager
    requires Attributable(st.mgr, e)
  {
    if Authoritative(st, e) then CompleteWithAuthority(st.mgr, e, now, Durable(st, e, fin))
    else CompleteWithoutAuthority(st.mgr, e, now)
  }

  function BatchStep(st: State, e: Ephemeral, ids: set<FileRef>, included: set<FileRef>, outcome: BatchOutcome): State
  {
    if e !in st.mgr.sessions || st.mgr.sessions[e].awaiting then st
    else if Paused(st, e) then st.(mgr := MarkBatchFailed(st.mgr, e))
    else
      var ix := ApplyBatch(st.index, st.mgr.sessions[e].volume, ids, included, {}, outcome);
      if outcome == Applied then st.(index := ix) else st.(index := ix, mgr := MarkBatchFailed(st.mgr, e))
  }

  function JournalStep(st: State, e: Ephemeral, upserts: set<FileRef>, included: set<FileRef>,
                       deletes: set<FileRef>, outcome: BatchOutcome): State
  {
    if e !in st.mgr.sessions || Paused(st, e) then st
    else st.(index := ApplyBatch(st.index, st.mgr.sessions[e].volume, upserts, included, deletes, outcome))
  }

  function TriggerStep(st: State, e: Ephemeral, v: Volume): State {
    var ix := if TriggerSends(st.mgr, e, v, Paused(st, e)) then st.index.(passes := st.index.passes[v := {}])
              else st.index;
    st.(mgr := Trigger(st.mgr, e, v, Paused(st, e)), index := ix)
  }

  /** What the code can do next.  A session is added only for a durable volume that no tracked
      session has; a re-arm may come at any time after its failed admission. */
  predicate Enabled(st: State, step: Step) {
    var m := st.mgr;
    match step
    case DoAdd(e, v, _) => e !in m.sessions && forall o :: o in m.sessions ==> m.sessions[o].volume != v
    case DoRemove(e, _) => e in m.sessions
    case DoFlush(v) => v in m.dispatching
    case DoComplete(e, _, excluded, fin) =>
      Finalizes(st, e) ==>
        var stale := StaleRows(st.index, m.sessions[e].volume, excluded);
        fin.committed <= stale && (fin.allCommitted ==> fin.committed == stale)
    case DoTake(e, now) => e in m.queued && e in m.sessions && m.queued[e].due <= now
    case DoRequeue(v, _) => v in m.inHand && v in m.dispatching
    case DoSettle(v, _) => v in m.inHand
    case DoForget(v) => v !in m.dispatching
    case _ => true
  }

  function Apply(st: State, step: Step): State
    requires Enabled(st, step)
  {
    var m := st.mgr;
    match step
    case SetActive(active) => st.(mgr := m.(active := active))
    case SetPause(all, letters) => st.(pausedAll := all, pausedLetters := letters)
    case DoAdd(e, v, letter) =>
      st.(mgr := m.(sessions := m.sessions[e := Session(v, letter, false, false, false, false, false)]))
    case DoRemove(e, now) => st.(mgr := RemoveSession(m, e, now))
    case DoFlush(v) => st.(mgr := FloorDispatch(m, v))
    case DoStart(e, v, sawComplete, barrier, _) => st.(mgr := Start(m, e, v, sawComplete, barrier))
    case DoTrigger(e, v, _) => TriggerStep(st, e, v)
    case DoRearm(e, v, now) => st.(mgr := Rearm(m, e, v, now))
    case DoBatch(e, ids, included, outcome) => BatchStep(st, e, ids, included, outcome)
    case DoJournal(e, upserts, included, deletes, outcome) => JournalStep(st, e, upserts, included, deletes, outcome)
    case DoComplete(e, now, excluded, fin) =>
      if !Attributable(m, e) then st
      else st.(mgr := CompleteManager(st, e, now, fin), index := CompleteIndex(st, e, fin))
    case DoFail(e, now) =>
      if !Attributable(m, e) then st
      else st.(mgr := Fail(m, e, now), index := st.index.(passes := st.index.passes - {m.sessions[e].volume}))
    case DoBarrier(e) => st.(mgr := AcceptBarrier(m, e))
    case DoTake(e, _) => st.(mgr := TakeDue(m, e))
    case DoRequeue(v, now) => st.(mgr := Requeue(m, v, now))
    case DoSettle(v, now) => st.(mgr := Settle(m, v, now))
    case DoForget(v) => st.(mgr := m.(inHand := m.inHand - {v}))
    case DoPostpone(now) => st.(mgr := Postpone(m, now))
    case DoAbort(v) => st.(index := st.index.(passes := st.index.passes - {v}))
    case Stop => st.(mgr := m.(queued := map[], dispatching := map[], floors := map[]))
  }

  // ---- runs ----

  predicate Legal(st: State, steps: seq<Step>)
    decreases |steps|
  {
    steps == [] || (Enabled(st, steps[0]) && Legal(Apply(st, steps[0]), steps[1..]))
  }

  function After(st: State, steps: seq<Step>): State
    requires Legal(st, steps)
    decreases |steps|
  {
    if steps == [] then st else After(Apply(st, steps[0]), steps[1..])
  }

  lemma {:induction false} Append(st: State, steps: seq<Step>, step: Step)
    requires Legal(st, steps) && Enabled(After(st, steps), step)
    ensures Legal(st, steps + [step])
    ensures After(st, steps + [step]) == Apply(After(st, steps), step)
    decreases |steps|
  {
    if steps == [] {
      assert steps + [step] == [step] && [step][1..] == [];
    } else {
      Append(Apply(st, steps[0]), steps[1..], step);
      assert (steps + [step])[1..] == steps[1..] + [step];
    }
  }
}
