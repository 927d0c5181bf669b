/**
  The stop/join/barrier protocol of one volume on one connection: the engine sends scan starts over
  one FIFO, the service answers over another.  Starts carry a ghost attempt number that neither
  process sees; the wire frames carry only the volume id.
 */
module ScanBarrier {

  type Attempt = nat

  datatype Frame = Marker(n: Attempt) | Batch(n: Attempt) | Terminal(n: Attempt)

  datatype Worker = NoWorker | Running(n: Attempt)

  /** Engine: the session flags and the number of starts sent so far (`attempt`).
      Service: the running worker, and whether it gave up the connection.  `consumed` counts the
      markers the engine has read. */
  datatype State = State(
    inProgress: bool,
    awaiting: bool,
    batchFailed: bool,
    attempt: Attempt,
    consumed: Attempt,
    requests: seq<Attempt>,
    worker: Worker,
    closed: bool,
    stream: seq<Frame>)

  const CONNECTED := State(false, false, false, 0, 0, [], NoWorker, false, [])

  datatype Decision = Proceed | TearDown

  /** The service's decision after it joined the superseded worker and tried to write the marker. */
  function BarrierDecision(supportsBarrier: bool, markerWritten: bool): Decision {
    if !supportsBarrier then Proceed else if markerWritten then Proceed else TearDown
  }

  datatype Step =
    | SendInitial                 // start or resume the initial scan
    | SendReconciliation          // start a reconciliation scan
    | ServiceStart(written: bool) // join the old worker, try to write the marker, start the new worker
    | EmitBatch                   // the running worker writes a batch
    | EmitTerminal                // the running worker writes its terminal and ends
    | Consume(applied: bool)      // the engine handles the next frame

  predicate Ambiguous(s: State) {
    s.batchFailed || s.inProgress
  }

  predicate Enabled(s: State, step: Step) {
    match step
    case SendInitial => !s.awaiting
    case SendReconciliation => !Ambiguous(s) && !s.awaiting
    case ServiceStart(_) => s.requests != [] && !s.closed
    case EmitBatch => s.worker.Running?
    case EmitTerminal => s.worker.Running?
    case Consume(_) => s.stream != []
  }

  function Send(s: State, wait: bool): State {
    s.(inProgress := true, awaiting := wait, batchFailed := s.batchFailed && wait,
       attempt := s.attempt + 1, requests := s.requests + [s.attempt + 1])
  }

  /** Any frame before the marker is dropped while the engine waits; the marker releases the wait. */
  function Handle(s: State, f: Frame, applied: bool): State {
    match f
    case Marker(_) =>
      if s.inProgress && s.awaiting then s.(awaiting := false, batchFailed := false, consumed := s.consumed + 1)
      else s.(consumed := s.consumed + 1)
    case Batch(_) => if s.awaiting || applied then s else s.(batchFailed := true)
    case Terminal(_) => if s.awaiting || !s.inProgress then s else s.(inProgress := false, batchFailed := false)
  }

  function Apply(s: State, step: Step): State
    requires Enabled(s, step)
  {
    match step
    case SendInitial => Send(s, Ambiguous(s))
    case SendReconciliation => Send(s, false)
    case ServiceStart(written) =>
      if BarrierDecision(true, written) == TearDown then s.(worker := NoWorker, closed := true)
      else s.(requests := s.requests[1..], worker := Running(s.requests[0]),
              stream := s.stream + [Marker(s.requests[0])])
    case EmitBatch => s.(stream := s.stream + [Batch(s.worker.n)])
    case EmitTerminal => s.(stream := s.stream + [Terminal(s.worker.n)], worker := NoWorker)
    case Consume(applied) => Handle(s.(stream := s.stream[1..]), s.stream[0], applied)
  }

  /** The step uses its frame: a batch goes to the index, or a terminal ends the attempt. */
  predicate Uses(s: State, step: Step) {
    && step.Consume? && s.stream != [] && !s.awaiting
    && (s.stream[0].Batch? || (s.stream[0].Terminal? && s.inProgress))
  }

  /** A replacement is sent only after the replaced attempt's own marker has been read. */
  predicate Prompt(s: State, step: Step) {
    step.SendInitial? && Ambiguous(s) ==> s.consumed == s.attempt
  }

  // ---- the invariant ----

  /** Every frame comes from the attempt whose marker precedes it, markers come in order, and
      nothing follows a terminal but the next marker; `live` tells whether attempt `n` can still write. */
  predicate Segmented(stream: seq<Frame>, n: Attempt, live: bool) {
    stream == [] ||
    match stream[0]
    case Marker(k) => k == n + 1 && Segmented(stream[1..], k, true)
    case Batch(k) => k == n && live && Segmented(stream[1..], n, true)
    case Terminal(k) => k == n && live && Segmented(stream[1..], n, false)
  }

  /** The number of the last marker written, and whether its worker can still write. */
  function LastMarker(stream: seq<Frame>, n: Attempt): Attempt {
    if stream == [] then n else LastMarker(stream[1..], if stream[0].Marker? then stream[0].n else n)
  }

  function StillLive(stream: seq<Frame>, live: bool): bool {
    if stream == [] then live else StillLive(stream[1..], if stream[0].Batch? then live else stream[0].Marker?)
  }

  predicate Consecutive(requests: seq<Attempt>, from: Attempt) {
    forall i :: 0 <= i < |requests| ==> requests[i] == from + 1 + i
  }

  /** `live`: the attempt of the last marker read can still have frames under way.  A worker runs
      exactly while the stream ends open, unless the connection was given up. */
  predicate Ordered(s: State, live: bool) {
    && Segmented(s.stream, s.consumed, live)
    && Consecutive(s.requests, LastMarker(s.stream, s.consumed))
    && s.attempt == LastMarker(s.stream, s.consumed) + |s.requests|
    && (s.worker.Running? ==> s.worker.n == LastMarker(s.stream, s.consumed))
    && (s.worker.Running? <==> StillLive(s.stream, live) && !s.closed)
    && (s.awaiting ==> s.inProgress)
  }

  /** Without a pending wait the engine is caught up with its attempt, or the attempt before it has
      nothing left to say; with one, only the replacement's own marker is outstanding. */
  predicate Inv(s: State, live: bool) {
    && Ordered(s, live)
    && (s.awaiting ==> s.consumed + 1 == s.attempt)
    && (!s.awaiting ==> s.consumed == s.attempt || (s.consumed + 1 == s.attempt && !live))
    && (!Ambiguous(s) ==> s.consumed == s.attempt && !live)
    && (s.batchFailed ==> s.inProgress)
  }

  /** Writing one more frame at the end of the stream. */
  lemma {:induction false} AppendFrame(stream: seq<Frame>, n: Attempt, live: bool, f: Frame)
    requires Segmented(stream, n, live)
    requires f.Marker? ==> f.n == LastMarker(stream, n) + 1
    requires !f.Marker? ==> f.n == LastMarker(stream, n) && StillLive(stream, live)
    ensures Segmented(stream + [f], n, live)
    ensures LastMarker(stream + [f], n) == f.n
    ensures StillLive(stream + [f], live) == !f.Terminal?
    decreases |stream|
  {
    if stream == [] {
      assert stream + [f] == [f];
    } else {
      var rest := stream[1..];
      assert (stream + [f])[1..] == rest + [f];
      var g := stream[0];
      AppendFrame(rest, if g.Marker? then g.n else n, if g.Batch? then live else g.Marker?, f);
    }
  }

  lemma LastMarkerGrows(stream: seq<Frame>, n: Attempt, live: bool)
    requires Segmented(stream, n, live)
    ensures LastMarker(stream, n) >= n
    decreases |stream|
  {
  }

  /** Whether the attempt of the last marker read can still have frames under way after the step. */
  predicate NextLive(s: State, step: Step, live: bool) {
    if step.Consume? && s.stream != [] then (if s.stream[0].Batch? then live else s.stream[0].Marker?) else live
  }

  lemma ServiceOrdered(s: State, step: Step, live: bool)
    requires Ordered(s, live) && Enabled(s, step)
    requires step.ServiceStart? || step.EmitBatch? || step.EmitTerminal?
    ensures Ordered(Apply(s, step), live)
  {
    match step
    case ServiceStart(_) => AppendFrame(s.stream, s.consumed, live, Marker(s.requests[0]));
    case EmitBatch => AppendFrame(s.stream, s.consumed, live, Batch(s.worker.n));
    case EmitTerminal => AppendFrame(s.stream, s.consumed, live, Terminal(s.worker.n));
  }

  /** The order of the frames needs no condition on when the engine sends. */
  lemma StepOrdered(s: State, step: Step, live: bool)
    requires Ordered(s, live) && Enabled(s, step)
    ensures Ordered(Apply(s, step), NextLive(s, step, live))
  {
    if step.ServiceStart? || step.EmitBatch? || step.EmitTerminal? {
      ServiceOrdered(s, step, live);
    }
  }

  lemma StepInv(s: State, step: Step, live: bool)
    requires Inv(s, live) && Enabled(s, step) && Prompt(s, step)
    ensures Inv(Apply(s, step), NextLive(s, step, live))
  {
    StepOrdered(s, step, live);
    if step.Consume? {
      LastMarkerGrows(s.stream, s.consumed, live);
      LastMarkerGrows(s.stream[1..], if s.stream[0].Marker? then s.stream[0].n else s.consumed, NextLive(s, step, live));
    }
  }

  // ---- whole runs ----

  predicate Legal(s: State, steps: seq<Step>)
    decreases |steps|
  {
    steps == [] || (Enabled(s, steps[0]) && Legal(Apply(s, steps[0]), steps[1..]))
  }

  function After(s: State, steps: seq<Step>): State
    requires Legal(s, steps)
    decreases |steps|
  {
    if steps == [] then s else After(Apply(s, steps[0]), steps[1..])
  }

  predicate AllPrompt(s: State, steps: seq<Step>)
    requires Legal(s, steps)
    decreases |steps|
  {
    steps == [] || (Prompt(s, steps[0]) && AllPrompt(Apply(s, steps[0]), steps[1..]))
  }

  /** Every frame the run uses was emitted by the worker of the attempt in flight. */
  predicate UsesOwnFrames(s: State, steps: seq<Step>)
    requires Legal(s, steps)
    decreases |steps|
  {
    steps == []
    || ((Uses(s, steps[0]) ==> s.stream[0].n == s.attempt) && UsesOwnFrames(Apply(s, steps[0]), steps[1..]))
  }

  lemma {:induction false} BarrierFrom(s: State, steps: seq<Step>, live: bool)
    requires Inv(s, live) && Legal(s, steps) && AllPrompt(s, steps)
    ensures UsesOwnFrames(s, steps)
    decreases |steps|
  {
    if steps != [] {
      StepInv(s, steps[0], live);
      BarrierFrom(Apply(s, steps[0]), steps[1..], NextLive(s, steps[0], live));
    }
  }

  /** Over every interleaving of engine, service and worker in which a replacement waits for the
      replaced attempt's marker: each batch applied and each terminal accepted is the current
      attempt's own. */
  lemma BarrierProtocol(steps: seq<Step>)
    requires Legal(CONNECTED, steps) && AllPrompt(CONNECTED, steps)
    ensures UsesOwnFrames(CONNECTED, steps)
  {
    BarrierFrom(CONNECTED, steps, false);
  }

  lemma {:induction false} ReachedInv(s: State, steps: seq<Step>, live: bool) returns (now: bool)
    requires Inv(s, live) && Legal(s, steps) && AllPrompt(s, steps)
    ensures Inv(After(s, steps), now)
    decreases |steps|
  {
    if steps == [] {
      now := live;
    } else {
      StepInv(s, steps[0], live);
      now := ReachedInv(Apply(s, steps[0]), steps[1..], NextLive(s, steps[0], live));
    }
  }

  /** In every state a prompt run reaches: the next frame is used exactly if it is the current attempt's
      own.  Its own failed batch taints the attempt, its own terminal ends it, its marker, which is the only
      one to come, ends the wait; any other frame changes nothing. */
  lemma FrameUsedIffOwn(before: seq<Step>, applied: bool)
    requires Legal(CONNECTED, before) && AllPrompt(CONNECTED, before) && After(CONNECTED, before).stream != []
    ensures var s := After(CONNECTED, before);
            var f, t, own := s.stream[0], Apply(s, Consume(applied)), s.stream[0].n == s.attempt;
            && (Uses(s, Consume(applied)) <==> own && !f.Marker?)
            && (f.Marker? ==> own)
            && t == s.(stream := s.stream[1..], consumed := if f.Marker? then s.attempt else s.consumed,
                       awaiting := s.awaiting && !f.Marker?, inProgress := s.inProgress && !(own && f.Terminal?),
                       batchFailed := if f.Marker? then s.batchFailed && !s.awaiting
                                      else if !own then s.batchFailed
                                      else f.Batch? && (s.batchFailed || !applied))
  {
    var s := After(CONNECTED, before);
    var live := ReachedInv(CONNECTED, before, false);
    var f := s.stream[0];
    LastMarkerGrows(s.stream[1..], if f.Marker? then f.n else s.consumed, if f.Batch? then live else f.Marker?);
  }

  lemma {:induction false} ReachedOrdered(s: State, steps: seq<Step>, live: bool) returns (now: bool)
    requires Ordered(s, live) && Legal(s, steps)
    ensures Ordered(After(s, steps), now)
    decreases |steps|
  {
    if steps == [] {
      now := live;
    } else {
      StepOrdered(s, steps[0], live);
      now := ReachedOrdered(Apply(s, steps[0]), steps[1..], NextLive(s, steps[0], live));
    }
  }

  /** Over every interleaving, prompt or not: a worker runs only after its own marker was written, no
      other marker follows it, and once a marker could not be written no worker runs. */
  lemma NoUnacknowledgedWorker(steps: seq<Step>)
    requires Legal(CONNECTED, steps)
    ensures var s := After(CONNECTED, steps);
            && (s.worker.Running? ==> s.worker.n == LastMarker(s.stream, s.consumed) && !s.closed)
            && (s.closed ==> s.worker == NoWorker)
  {
    var _ := ReachedOrdered(CONNECTED, steps, false);
  }

  /** A marker that could not be written ends the service's part for good: no worker runs, then or after any
      continuation.  One that was written starts the worker of the oldest request behind it. */
  lemma FailedMarkerEndsService(s: State, rest: seq<Step>)
    requires Enabled(s, ServiceStart(false)) && Legal(Apply(s, ServiceStart(false)), rest)
    ensures var t := After(Apply(s, ServiceStart(false)), rest); t.closed && t.worker == NoWorker
    ensures Apply(s, ServiceStart(false)).stream == s.stream
    ensures var t := Apply(s, ServiceStart(true));
            && t.stream == s.stream + [Marker(s.requests[0])] && t.worker == Running(s.requests[0])
            && t.requests == s.requests[1..] && !t.closed
  {
    StaysClosed(Apply(s, ServiceStart(false)), rest);
  }

  lemma {:induction false} StaysClosed(s: State, steps: seq<Step>)
    requires s.closed && s.worker == NoWorker && Legal(s, steps)
    ensures After(s, steps).closed && After(s, steps).worker == NoWorker
    decreases |steps|
  {
    if steps != [] {
      StaysClosed(Apply(s, steps[0]), steps[1..]);
    }
  }

  // ---- what the side condition is worth ----

  /** Every prompt continuation uses only the frames of the attempt in flight. */
  ghost predicate AlwaysOwn(s: State) {
    forall rest :: Legal(s, rest) && AllPrompt(s, rest) ==> UsesOwnFrames(s, rest)
  }

  lemma Precede(s: State, step: Step, rest: seq<Step>)
    requires Enabled(s, step) && Legal(Apply(s, step), rest)
    ensures Legal(s, [step] + rest)
    ensures Prompt(s, step) && AllPrompt(Apply(s, step), rest) ==> AllPrompt(s, [step] + rest)
    ensures UsesOwnFrames(s, [step] + rest) ==> UsesOwnFrames(Apply(s, step), rest)
    ensures Uses(s, step) && UsesOwnFrames(s, [step] + rest) ==> s.stream[0].n == s.attempt
  {
    assert ([step] + rest)[1..] == rest;
  }

  lemma BadNext(s: State, step: Step)
    requires Enabled(s, step) && Prompt(s, step) && !AlwaysOwn(Apply(s, step))
    ensures !AlwaysOwn(s)
  {
    var next := Apply(s, step);
    var rest :| Legal(next, rest) && AllPrompt(next, rest) && !UsesOwnFrames(next, rest);
    Precede(s, step, rest);
    assert !UsesOwnFrames(s, [step] + rest);
  }

  lemma BadNow(s: State, step: Step)
    requires Enabled(s, step) && Uses(s, step) && s.stream[0].n != s.attempt
    ensures !AlwaysOwn(s)
  {
    Precede(s, step, []);
    assert Legal(s, [step] + []) && AllPrompt(s, [step] + []) && !UsesOwnFrames(s, [step] + []);
  }

  /** The engine waits for attempt `a + 1` while the marker of `a` is next and a frame follows it. */
  lemma OldMarkerReleases(s: State, a: Attempt)
    requires s.inProgress && s.awaiting && s.attempt == a + 1
    requires |s.stream| >= 2 && s.stream[0] == Marker(a) && !s.stream[1].Marker? && s.stream[1].n == a
    ensures !AlwaysOwn(s)
  {
    var next := Apply(s, Consume(true));
    assert next.stream[0] == s.stream[1] && !next.awaiting && next.inProgress;
    BadNow(next, Consume(true));
    BadNext(s, Consume(true));
  }

  /** While the service is there, the outstanding marker is followed by something of its attempt. */
  lemma OutstandingMarkerMisleads(s: State)
    requires Inv(s, false) && !s.awaiting && s.consumed + 1 == s.attempt && Ambiguous(s)
    requires !s.closed || |s.stream| >= 2
    ensures !AlwaysOwn(Apply(s, SendInitial))
  {
    var a, t := s.attempt, Apply(s, SendInitial);
    LastMarkerGrows(s.stream, s.consumed, false);
    if s.stream == [] {
      var u := Apply(t, ServiceStart(true));
      assert t.requests[0] == a && u.stream == [Marker(a)];
      var w := Apply(u, EmitTerminal);
      assert w.stream == [Marker(a), Terminal(a)];
      OldMarkerReleases(w, a);
      BadNext(u, EmitTerminal);
      BadNext(t, ServiceStart(true));
    } else {
      assert s.stream[0] == Marker(a);
      LastMarkerGrows(s.stream[1..], a, true);
      if |s.stream| == 1 {
        assert s.stream[1..] == [] && StillLive(s.stream, false) && LastMarker(s.stream, s.consumed) == a;
        var w := Apply(t, EmitTerminal);
        assert w.stream == [Marker(a), Terminal(a)];
        OldMarkerReleases(w, a);
        BadNext(t, EmitTerminal);
      } else {
        var rest := s.stream[1..];
        assert rest[0] == s.stream[1] && LastMarker(s.stream, s.consumed) == LastMarker(rest, a);
        LastMarkerGrows(rest[1..], if rest[0].Marker? then rest[0].n else a, !rest[0].Terminal?);
        OldMarkerReleases(t, a);
      }
    }
  }

  /** In every state reached by a prompt run in which the engine may send a replacement: whatever
      follows uses only the replacement's own frames if and only if the replaced attempt's marker has
      been read, or the service has given up the connection with nothing but that marker under way. */
  lemma ReplacementSafeIff(before: seq<Step>)
    requires Legal(CONNECTED, before) && AllPrompt(CONNECTED, before)
    requires var s := After(CONNECTED, before); Enabled(s, SendInitial) && Ambiguous(s)
    ensures var s := After(CONNECTED, before);
            AlwaysOwn(Apply(s, SendInitial)) <==> s.consumed == s.attempt || (s.closed && |s.stream| <= 1)
  {
    var s := After(CONNECTED, before);
    var live := ReachedInv(CONNECTED, before, false);
    var t := Apply(s, SendInitial);
    if s.consumed == s.attempt {
      StepInv(s, SendInitial, live);
      forall rest | Legal(t, rest) && AllPrompt(t, rest) ensures UsesOwnFrames(t, rest) {
        BarrierFrom(t, rest, live);
      }
    } else if s.closed && |s.stream| <= 1 {
      forall rest | Legal(t, rest) && AllPrompt(t, rest) ensures UsesOwnFrames(t, rest) {
        NothingToUse(t, rest);
      }
    } else {
      OutstandingMarkerMisleads(s);
    }
  }

  /** With the connection given up, a stream without batches and terminals has nothing to use. */
  lemma {:induction false} NothingToUse(s: State, steps: seq<Step>)
    requires s.closed && s.worker == NoWorker && Legal(s, steps)
    requires forall i :: 0 <= i < |s.stream| ==> s.stream[i].Marker?
    ensures UsesOwnFrames(s, steps)
    decreases |steps|
  {
    if steps != [] {
      NothingToUse(Apply(s, steps[0]), steps[1..]);
    }
  }

  /** Without the side condition the protocol fails: a volume resumed twice before its first marker
      is read takes the first worker's terminal for the second attempt's. */
  lemma EarlyReplacementTakesOldTerminal() returns (steps: seq<Step>)
    ensures Legal(CONNECTED, steps) && !UsesOwnFrames(CONNECTED, steps)
  {
    var start := ServiceStart(true);
    var s1 := Apply(CONNECTED, SendInitial);
    var s2 := Apply(s1, SendInitial);
    var s3 := Apply(s2, start);
    var s4 := Apply(s3, EmitTerminal);
    var s5 := Apply(s4, Consume(true));
    assert s5.stream == [Terminal(1)] && s5.attempt == 2 && Uses(s5, Consume(true));
    Precede(s5, Consume(true), []);
    steps := [Consume(true)] + [];
    Precede(s4, Consume(true), steps);
    steps := [Consume(true)] + steps;
    Precede(s3, EmitTerminal, steps);
    steps := [EmitTerminal] + steps;
    Precede(s2, start, steps);
    steps := [start] + steps;
    Precede(s1, SendInitial, steps);
    steps := [SendInitial] + steps;
    Precede(CONNECTED, SendInitial, steps);
    steps := [SendInitial] + steps;
  }
}
