/**
  The idle monitor and the activity calls that race with it.  The monitor runs maintenance and the
  drop outside the lock; activity may come from any thread at any point between locked sections.
 */
module IdleManager {

  datatype Action = Drop | Reconnect

  /** Where the monitor thread is between its locked sections. */
  datatype Monitor =
    | Waiting
    | Maintaining(epoch: nat)
    | Dropping(performed: bool)
    | Reconnecting

  const GENERATIONS := 0x1_0000_0000_0000_0000

  /** `outstanding` counts the activity calls that left the lock owing a reconnect. */
  datatype State = State(
    running: bool, dropped: bool, dropInFlight: bool, pending: bool, generation: nat,
    monitor: Monitor, outstanding: nat, last: Action)

  const INITIAL := State(true, false, false, false, 0, Waiting, 0, Reconnect)

  datatype Step =
    | Activity
    | ActivityReconnects
    | Wakes(idle: bool)
    | MaintenanceReturns
    | DropLands
    | DropReturns
    | MonitorReconnects
    | Stop

  predicate Enabled(s: State, e: Step) {
    match e
    case Activity => true
    case ActivityReconnects => s.outstanding > 0
    case Wakes(_) => s.running && s.monitor.Waiting?
    case MaintenanceReturns => s.monitor.Maintaining?
    case DropLands => s.monitor == Dropping(false)
    case DropReturns => s.monitor == Dropping(true)
    case MonitorReconnects => s.monitor.Reconnecting?
    case Stop => true
  }

  function AfterActivity(s: State): State {
    var t := s.(generation := (s.generation + 1) % GENERATIONS);
    if !s.dropped then t
    else if s.dropInFlight then t.(pending := true)
    else t.(dropped := false, outstanding := s.outstanding + 1)
  }

  function Apply(s: State, e: Step): State
    requires Enabled(s, e)
  {
    match e
    case Activity => AfterActivity(s)
    case ActivityReconnects => s.(outstanding := s.outstanding - 1, last := Reconnect)
    case Wakes(idle) =>
      if idle && !s.dropped then s.(dropped := true, monitor := Maintaining(s.generation)) else s
    case MaintenanceReturns =>
      if s.generation == s.monitor.epoch && s.dropped
      then s.(dropInFlight := true, monitor := Dropping(false))
      else s.(monitor := Waiting)
    case DropLands => s.(monitor := Dropping(true), last := Drop)
    case DropReturns =>
      if s.pending
      then s.(dropInFlight := false, pending := false, dropped := false, monitor := Reconnecting)
      else s.(dropInFlight := false, monitor := Waiting)
    case MonitorReconnects => s.(monitor := Waiting, last := Reconnect)
    case Stop => s.(running := false)
  }

  ghost predicate Legal(run: seq<Step>)
    decreases |run|, 0
  {
    run == [] || (Legal(run[..|run| - 1]) && Enabled(Reached(run[..|run| - 1]), run[|run| - 1]))
  }

  ghost function Reached(run: seq<Step>): State
    requires Legal(run)
    decreases |run|, 1
  {
    if run == [] then INITIAL else Apply(Reached(run[..|run| - 1]), run[|run| - 1])
  }

  // ---- what a run remembers ----

  /** Some activity (the start counts) came after the monitor's latest decision that the engine is
      idle. */
  ghost predicate ActiveSinceIdle(run: seq<Step>)
    requires Legal(run)
  {
    if run == [] then true
    else
      var before, e := run[..|run| - 1], run[|run| - 1];
      if e.Activity? then true
      else if Reached(run).monitor.Maintaining? && !Reached(before).monitor.Maintaining? then false
      else ActiveSinceIdle(before)
  }

  /** Some activity (the start counts) came after the monitor last set out to drop. */
  ghost predicate ActiveSinceDrop(run: seq<Step>)
    requires Legal(run)
  {
    if run == [] then true
    else
      var before, e := run[..|run| - 1], run[|run| - 1];
      if e.Activity? then true
      else if Reached(run).dropInFlight && !Reached(before).dropInFlight then false
      else ActiveSinceDrop(before)
  }

  ghost predicate Inv(s: State, sinceIdle: bool, sinceDrop: bool) {
    && (s.dropInFlight <==> s.monitor.Dropping?)
    && (s.dropInFlight ==> s.dropped)
    && (s.pending ==> s.dropInFlight)
    && (s.monitor.Maintaining? ==> (s.dropped <==> !sinceIdle))
    && (s.monitor.Maintaining? && !sinceIdle ==> s.generation == s.monitor.epoch)
    && (s.last == Drop ==> s.dropped || s.outstanding > 0 || s.monitor.Reconnecting?)
    && (s.monitor.Dropping? ==> (s.pending <==> sinceDrop))
    && (s.last == Drop && sinceDrop ==> s.pending || s.outstanding > 0 || s.monitor.Reconnecting?)
  }

  lemma {:induction false} Invariant(run: seq<Step>)
    requires Legal(run)
    ensures Inv(Reached(run), ActiveSinceIdle(run), ActiveSinceDrop(run))
    decreases |run|
  {
    if run != [] {
      Invariant(run[..|run| - 1]);
    }
  }

  lemma Extend(run: seq<Step>, e: Step)
    requires Legal(run) && Enabled(Reached(run), e)
    ensures Legal(run + [e]) && Reached(run + [e]) == Apply(Reached(run), e)
  {
    assert (run + [e])[..|run|] == run;
  }

  // ---- the race ----

  /** When maintenance returns, the drop goes ahead exactly if no activity came since the idle
      decision.  The generation counter may have wrapped: the dropped flag alone settles it. */
  lemma MaintenanceDropsIffUndisturbed(run: seq<Step>)
    requires Legal(run) && Reached(run).monitor.Maintaining?
    ensures Legal(run + [MaintenanceReturns])
    ensures Reached(run + [MaintenanceReturns]).monitor.Dropping? <==> !ActiveSinceIdle(run)
    ensures Reached(run).dropped ==> Reached(run).generation == Reached(run).monitor.epoch
  {
    Invariant(run);
    Extend(run, MaintenanceReturns);
  }

  /** After a drop the engine is disconnected only while the flag says so or a reconnect is on its
      way: no reconnect is overtaken by the drop it answers. */
  lemma DropIsNeverForgotten(run: seq<Step>)
    requires Legal(run) && Reached(run).last == Drop
    ensures var s := Reached(run); s.dropped || s.outstanding > 0 || s.monitor.Reconnecting?
    ensures var s := Reached(run);
            ActiveSinceDrop(run) ==> s.pending || s.outstanding > 0 || s.monitor.Reconnecting?
  {
    Invariant(run);
  }

  /** Once every thread has finished what it owed, activity after the drop has reconnected. */
  lemma QuietMeansReconnected(run: seq<Step>)
    requires Legal(run) && Reached(run).monitor.Waiting? && Reached(run).outstanding == 0
    requires ActiveSinceDrop(run)
    ensures Reached(run).last == Reconnect
  {
    Invariant(run);
  }

  // ---- the idle pass ----

  /** Whenever the monitor waits, the engine runs and nothing is dropped, waking up idle starts maintenance
      with the flag set; waking up otherwise changes nothing. */
  lemma WakingStartsMaintenanceIff(run: seq<Step>, idle: bool)
    requires Legal(run) && Reached(run).monitor.Waiting? && Reached(run).running
    ensures Legal(run + [Wakes(idle)])
    ensures var s, t := Reached(run), Reached(run + [Wakes(idle)]);
            if idle && !s.dropped then t == s.(dropped := true, monitor := Maintaining(s.generation)) else t == s
    ensures Reached(run + [Wakes(idle)]).monitor.Maintaining? <==> idle && !Reached(run).dropped
  {
    Extend(run, Wakes(idle));
  }

  const IDLE_PASS := [Wakes(true), MaintenanceReturns, DropLands, DropReturns]

  /** Left alone, an idle engine is dropped, and nothing is owed afterwards. */
  lemma UndisturbedIdleDrops(run: seq<Step>)
    requires Legal(run) && Reached(run).monitor.Waiting? && Reached(run).running && !Reached(run).dropped
    ensures Legal(run + IDLE_PASS)
    ensures Reached(run + IDLE_PASS) == Reached(run).(dropped := true, last := Drop)
  {
    Invariant(run);
    WakingStartsMaintenanceIff(run, true);
    Extend(run + [Wakes(true)], MaintenanceReturns);
    Extend(run + [Wakes(true)] + [MaintenanceReturns], DropLands);
    Extend(run + [Wakes(true)] + [MaintenanceReturns] + [DropLands], DropReturns);
    assert run + [Wakes(true)] + [MaintenanceReturns] + [DropLands] + [DropReturns] == run + IDLE_PASS;
  }

  /** Since `from` only the monitor has taken steps. */
  ghost predicate Undisturbed(run: seq<Step>, from: nat) {
    forall k :: from <= k < |run| ==> run[k].Wakes? || run[k].MaintenanceReturns? || run[k].DropLands? || run[k].DropReturns?
                                      || run[k].MonitorReconnects?
  }

  lemma OthersDisturb(run: seq<Step>, more: seq<Step>, from: nat)
    requires from <= |run| && (more == run || more == run + [Activity] || more == run + [Stop] || more == run + [ActivityReconnects])
    ensures more == run || !Undisturbed(more, from)
    ensures !Undisturbed(run, from) ==> !Undisturbed(more, from)
  {
    if more != run {
      assert !(more[|run|].Wakes? || more[|run|].MaintenanceReturns?);
    }
  }

  lemma DisturbedStays(run: seq<Step>, more: seq<Step>, from: nat)
    requires run <= more && Undisturbed(more, from)
    ensures Undisturbed(run, from)
  {
    assert forall k :: from <= k < |run| ==> run[k] == more[k];
  }

  // ---- the manager ----

  /** `trace` is the interleaving so far; every method keeps the fields in the state it reaches. */
  class IdleManager {
    var running: bool
    var droppedForIdle: bool
    var dropInFlight: bool
    var reconnectPending: bool
    var activityGeneration: nat
    ghost var trace: seq<Step>
    ghost var monitor: Monitor
    ghost var outstanding: nat
    ghost var last: Action

    ghost function Abs(): State
      reads this
    {
      State(running, droppedForIdle, dropInFlight, reconnectPending, activityGeneration, monitor, outstanding, last)
    }

    ghost predicate Valid()
      reads this
    {
      Legal(trace) && Reached(trace) == Abs()
    }

    constructor ()
      ensures Valid() && trace == []
    {
      running, droppedForIdle, dropInFlight, reconnectPending, activityGeneration := true, false, false, false, 0;
      trace, monitor, outstanding, last := [], Waiting, 0, Reconnect;
    }

    /** The locked section; the caller performs the reconnect it returns. */
    method NotifyActivity() returns (shouldReconnect: bool)
      requires Valid()
      modifies this
      ensures Valid() && trace == old(trace) + [Activity] && monitor == old(monitor)
      ensures outstanding == old(outstanding) + if shouldReconnect then 1 else 0
      ensures activityGeneration == (old(activityGeneration) + 1) % GENERATIONS
      ensures shouldReconnect <==> old(droppedForIdle) && !old(dropInFlight)
      ensures droppedForIdle <==> old(droppedForIdle) && old(dropInFlight)
      ensures reconnectPending <==> old(reconnectPending) || (old(droppedForIdle) && old(dropInFlight))
      ensures dropInFlight == old(dropInFlight) && running == old(running) && last == old(last)
    {
      ghost var before := Abs();
      Extend(trace, Activity);
      shouldReconnect := false;
      activityGeneration := (activityGeneration + 1) % GENERATIONS;
      if droppedForIdle {
        if dropInFlight {
          reconnectPending := true;
        } else {
          droppedForIdle := false;
          shouldReconnect := true;
          outstanding := outstanding + 1;
        }
      }
      assert Abs() == Apply(before, Activity);
      trace := trace + [Activity];
    }

    method RequestStop()
      requires Valid()
      modifies this
      ensures Valid() && trace == old(trace) + [Stop] && monitor == old(monitor)
    {
      running := false;
      Extend(trace, Stop);
      trace := trace + [Stop];
    }

    /** Any number of steps of the other threads while the monitor is outside the lock. */
    method Others()
      requires Valid()
      modifies this
      ensures Valid() && old(trace) <= trace && monitor == old(monitor)
      ensures Undisturbed(trace, |old(trace)|) ==> Abs() == old(Abs())
    {
      var n: nat := *;
      while n > 0
        invariant Valid() && old(trace) <= trace && monitor == old(monitor)
        invariant (trace == old(trace) && Abs() == old(Abs())) || !Undisturbed(trace, |old(trace)|)
      {
        ghost var before := trace;
        if {
          case true =>
            var _ := NotifyActivity();
          case true =>
            RequestStop();
          case true =>
            if outstanding > 0 {
              Extend(trace, ActivityReconnects);
              trace, outstanding, last := trace + [ActivityReconnects], outstanding - 1, Reconnect;
            }
        }
        OthersDisturb(before, trace, |old(trace)|);
        n := n - 1;
      }
    }

    /** One pass of the monitor loop, with the callbacks performed in the open: unless stopped it
        wakes once, and what follows is the run the step relation prescribes. */
    method MonitorPass(idle: bool)
      requires Valid() && monitor.Waiting?
      modifies this
      ensures Valid() && old(trace) <= trace && monitor.Waiting?
      ensures !running || exists k :: |old(trace)| <= k < |trace| && trace[k] == Wakes(idle)
      ensures Undisturbed(trace, |old(trace)|) && old(running) && !old(droppedForIdle) && idle ==>
                Abs() == old(Abs()).(dropped := true, last := Drop)
      ensures Undisturbed(trace, |old(trace)|) && (old(droppedForIdle) || !idle) ==> Abs() == old(Abs())
    {
      ghost var from := |trace|;
      Invariant(trace);
      Others();
      if !running {
        return;
      }
      ghost var before := trace;
      Extend(trace, Wakes(idle));
      trace := trace + [Wakes(idle)];
      assert trace[|trace| - 1] == Wakes(idle);
      if droppedForIdle || !idle {
        return;
      }
      droppedForIdle := true;
      monitor := Maintaining(activityGeneration);
      Maintain(activityGeneration);
      if Undisturbed(trace, from) {
        DisturbedStays(before, trace, from);
      }
    }

    /** The maintenance callback, and the drop unless something happened meanwhile. */
    method Maintain(epoch: nat)
      requires Valid() && monitor == Maintaining(epoch)
      modifies this
      ensures Valid() && old(trace) <= trace && monitor.Waiting?
      ensures Undisturbed(trace, |old(trace)|) && old(activityGeneration) == epoch && old(droppedForIdle) && !old(reconnectPending) ==>
                Abs() == old(Abs()).(monitor := Waiting, dropInFlight := false, last := Drop)
    {
      ghost var from := |trace|;
      Others();
      ghost var before := trace;
      Extend(trace, MaintenanceReturns);
      trace := trace + [MaintenanceReturns];
      if activityGeneration != epoch || !droppedForIdle {
        monitor := Waiting;
        return;
      }
      dropInFlight, monitor := true, Dropping(false);
      PerformDrop();
      if Undisturbed(trace, from) {
        DisturbedStays(before, trace, from);
      }
    }

    method PerformDrop()
      requires Valid() && monitor == Dropping(false)
      modifies this
      ensures Valid() && old(trace) <= trace && monitor.Waiting?
      ensures Undisturbed(trace, |old(trace)|) && !old(reconnectPending) ==>
                Abs() == old(Abs()).(monitor := Waiting, dropInFlight := false, last := Drop)
    {
      ghost var from := |trace|;
      Others();
      ghost var first := trace;
      Extend(trace, DropLands);
      trace, monitor, last := trace + [DropLands], Dropping(true), Drop;
      Others();
      ghost var second := trace;
      FinishDrop();
      if Undisturbed(trace, from) {
        DisturbedStays(first, trace, from);
        DisturbedStays(second, trace, from);
      }
    }

    method FinishDrop()
      requires Valid() && monitor == Dropping(true)
      modifies this
      ensures Valid() && old(trace) <= trace && monitor.Waiting?
      ensures !old(reconnectPending) ==> Abs() == old(Abs()).(monitor := Waiting, dropInFlight := false)
    {
      Extend(trace, DropReturns);
      trace, dropInFlight := trace + [DropReturns], false;
      if !reconnectPending {
        monitor := Waiting;
        return;
      }
      reconnectPending, droppedForIdle, monitor := false, false, Reconnecting;
      Others();
      Extend(trace, MonitorReconnects);
      trace, monitor, last := trace + [MonitorReconnects], Waiting, Reconnect;
    }
  }
}
