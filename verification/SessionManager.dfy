/**
  The volume session manager's own fields and critical sections.  Each method is proved against the
  step function of the same name, so that every result about runs of steps is a result about the
  handlers; the handlers that loop over the tables state their whole effect per volume.
 */
module SessionManager {
  import opened SessionSteps
  import opened SessionOwnership

  /** The durable identity of a listed volume, if it is configured, enabled and can be resolved. */
  datatype Identity = Unresolved | Durable(v: Volume)

  datatype VolumeInfo = VolumeInfo(e: Ephemeral, letter: char, identity: Identity)

  // ---- what a handler leaves, field by field ----

  /** The session is tracked and no retry of the volume waits for its deadline. */
  predicate CanClaim(m: Manager, e: Ephemeral, v: Volume) {
    e in m.sessions && m.sessions[e].volume == v && v !in m.floors && e !in m.queued
  }

  /** An attempt took over the volume: what the scheduler held is gone, everything else is as it was. */
  predicate Claims(m: Manager, n: Manager, e: Ephemeral, v: Volume) {
    && e in m.sessions && e in n.sessions && n.sessions[e].inProgress && n.sessions[e].volume == v
    && n.sessions[e].letter == m.sessions[e].letter && n.sessions[e].deferred == m.sessions[e].deferred
    && n.sessions[e].batchFailed == m.sessions[e].batchFailed
    && n == m.(sessions := m.sessions[e := n.sessions[e]], dispatching := m.dispatching - {v})
  }

  /** The floor became the retry of this connection, deadline and kind unchanged. */
  predicate Surfaces(m: Manager, n: Manager, e: Ephemeral, v: Volume) {
    v in m.floors && n == m.(queued := m.queued[e := m.floors[v]], floors := m.floors - {v})
  }

  /** The attempt is over and left nothing in its session. */
  predicate Over(was: Session, sessions: map<Ephemeral, Session>, e: Ephemeral) {
    && e in sessions && !sessions[e].inProgress && !sessions[e].batchFailed && !sessions[e].reconciliation
    && sessions[e].volume == was.volume && sessions[e].letter == was.letter && sessions[e].awaiting == was.awaiting
  }

  /** The one retry of the volume is this one: in the queue while connected, on the floor while not. */
  predicate Waits(m: Manager, e: Ephemeral, v: Volume, r: Retry) {
    && v !in m.dispatching
    && (if m.active then e in m.queued && m.queued[e] == r && v !in m.floors
        else v in m.floors && m.floors[v] == r && e !in m.queued)
  }

  /** Whether a session that leaves owes a reconciliation: its attempt decides, else the queued retry, else
      the dispatch in hand. */
  predicate OwedKind(m: Manager, e: Ephemeral)
    requires e in m.sessions
  {
    var s := m.sessions[e];
    if s.inProgress then s.reconciliation
    else if e in m.queued then m.queued[e].reconciliation
    else s.volume in m.dispatching && m.dispatching[s.volume].reconciliation
  }

  class VolumeSessionManager {
    var active: bool
    var sessions: map<Ephemeral, Session>
    var queued: map<Ephemeral, Retry>
    var dispatching: map<Volume, Retry>
    var floors: map<Volume, Retry>
    var inHand: map<Volume, Ephemeral>

    function M(): Manager
      reads this
    {
      Manager(active, sessions, queued, dispatching, floors, inHand)
    }

    ghost predicate Valid()
      reads this
    {
      Inv(M())
    }

    constructor ()
      ensures Valid() && M() == INITIAL.mgr
    {
      active, sessions, queued, dispatching, floors, inHand := false, map[], map[], map[], map[], map[];
    }

    // ---- retry-owner helpers ----

    /** The floor keeps the later of both deadlines and owes the stronger of both scans. */
    method MergeDurableFloor(v: Volume, r: Retry)
      modifies this`floors
      ensures v in floors && SameOutside(old(floors), floors, v)
      ensures floors[v].due >= r.due && (v in old(floors) ==> floors[v].due >= old(floors)[v].due)
      ensures floors[v].due == r.due || (v in old(floors) && floors[v].due == old(floors)[v].due)
      ensures floors[v].reconciliation <==> r.reconciliation || (v in old(floors) && old(floors)[v].reconciliation)
      ensures floors == MergeFloor(old(floors), v, r)
    {
      if v !in floors {
        floors := floors[v := r];
      } else {
        var due := if floors[v].due < r.due then r.due else floors[v].due;
        floors := floors[v := Retry(due, floors[v].reconciliation || r.reconciliation)];
      }
    }

    /** Exactly one slot is written, the queue of this connection or the durable floor, and no dispatch
        in hand survives; an idle volume whose other slot is empty then has this one owner. */
    method InstallNonAuthoritativeRetry(e: Ephemeral, v: Volume, due: Instant, reconciliation: bool)
      modifies this
      ensures v !in dispatching && SameOutside(old(dispatching), dispatching, v)
      ensures old(active) ==> floors == old(floors) && queued == old(queued)[e := Retry(due, reconciliation)]
      ensures !old(active) ==> queued == old(queued) && v in floors && floors[v].due >= due
      ensures old(Linked(M()) && Tracks(M(), e, v)) ==> Owned(M(), v)
      ensures old(Inv(M()) && Tracks(M(), e, v) && !sessions[e].inProgress && RearmFree(M(), e, v)) ==>
                Valid() && OwnersOf(M(), v) == RetrySlot(M())
      ensures M() == Install(old(M()), e, v, Retry(due, reconciliation))
    {
      ghost var before := M();
      Installed(before, e, v, Retry(due, reconciliation));
      dispatching := dispatching - {v};
      if active {
        queued := queued[e := Retry(due, reconciliation)];
        return;
      }
      MergeDurableFloor(v, Retry(due, reconciliation));
    }

    /** A reconciliation whose start request could not be sent: the volume is owned again, and by one
        owner exactly if the slot that is not written was empty. */
    method RearmFailedAdmission(e: Ephemeral, v: Volume, now: Instant)
      requires Valid()
      modifies this
      ensures M() == Rearm(old(M()), e, v, now) && Linked(M())
      ensures !old(Tracks(M(), e, v)) ==> M() == old(M())
      ensures old(Tracks(M(), e, v)) ==>
                && sessions == old(sessions)[e := old(sessions)[e].(inProgress := false, reconciliation := false)]
                && (if active then floors == old(floors) && queued == old(queued)[e := Retry(now + 5, true)]
                    else queued == old(queued) && v in floors && floors[v].due >= now + 5 && floors[v].reconciliation)
      ensures old(Tracks(M(), e, v)) ==> Owned(M(), v)
      ensures Valid() <==> old(Tracks(M(), e, v) ==> RearmFree(M(), e, v))
    {
      ghost var before := M();
      if e !in sessions || sessions[e].volume != v {
        return;
      }
      RearmedValid(before, e, v, now);
      sessions := sessions[e := sessions[e].(inProgress := false, reconciliation := false)];
      InstallNonAuthoritativeRetry(e, v, now + RETRY_DELAY, true);
    }

    /** Moves what session `e` owes onto the durable floor; the session itself is erased by the caller. */
    method TransferSessionRetryToFloor(e: Ephemeral, now: Instant)
      requires e in sessions
      modifies this`floors, this`dispatching, this`queued
      ensures var v := sessions[e].volume;
              && e !in queued && v !in dispatching && SameOutside(old(floors), floors, v)
              && (v in floors <==> e in old(queued) || sessions[e].inProgress || v in old(dispatching) || v in old(floors))
      ensures var v := sessions[e].volume;
              && (e in old(queued) ==> floors[v].due >= old(queued)[e].due)
              && (sessions[e].inProgress ==> floors[v].due >= now + RETRY_DELAY)
              && (v in old(dispatching) ==> floors[v].due >= old(dispatching)[v].due)
              && (v in old(floors) ==> floors[v].due >= old(floors)[v].due)
              && (v in floors ==> (floors[v].reconciliation <==>
                    (v in old(floors) && old(floors)[v].reconciliation) || OwedKind(old(M()), e)))
              && (v in floors ==>
                    || (e in old(queued) && floors[v].due == old(queued)[e].due)
                    || (sessions[e].inProgress && floors[v].due == now + 5)
                    || (v in old(dispatching) && floors[v].due == old(dispatching)[v].due)
                    || (v in old(floors) && floors[v].due == old(floors)[v].due))
      ensures var moved := RemoveSession(old(M()), e, now);
              floors == moved.floors && dispatching == moved.dispatching && queued == moved.queued
    {
      Transferred(M(), e, now);
      var s := sessions[e];
      var owed := NoRetry;
      if e in queued {
        owed := Owed(queued[e]);
      }
      if s.inProgress {
        var attempt := Retry(now + RETRY_DELAY, s.reconciliation);
        if owed.Owed? {
          attempt := attempt.(due := Later(owed.retry.due, attempt.due));
        }
        owed := Owed(attempt);
      }
      if s.volume in dispatching {
        if owed.Owed? {
          owed := Owed(owed.retry.(due := Later(owed.retry.due, dispatching[s.volume].due)));
        } else {
          owed := Owed(dispatching[s.volume]);
        }
        dispatching := dispatching - {s.volume};
      }
      if owed.Owed? {
        MergeDurableFloor(s.volume, owed.retry);
      }
      queued := queued - {e};
    }

    // ---- starting scans ----

    /** Returns whether a scan start was sent.  `reset` asks for the connection to be discarded: a start
        would have been sent if the service could mark the replacement. */
    method StartOrResumeVolume(e: Ephemeral, v: Volume, sawComplete: bool, barrier: bool)
      returns (sent: bool, reset: bool)
      requires Valid()
      modifies this
      ensures Valid() && M() == Start(old(M()), e, v, sawComplete, barrier)
      ensures sent <==> old(CanClaim(M(), e, v) && !sessions[e].awaiting) && !sawComplete
                        && (old(sessions[e].batchFailed || sessions[e].inProgress) ==> barrier)
      ensures sent ==> OwnersOf(M(), v) == {Attempt}
      ensures sent ==> Claims(old(M()), M(), e, v) && !sessions[e].reconciliation
                       && sessions[e].awaiting == old(sessions[e].batchFailed || sessions[e].inProgress)
      ensures reset <==> !sent && StartSends(old(M()), e, v, sawComplete, true)
      ensures old(Tracks(M(), e, v) && !sessions[e].awaiting && v in floors) ==> Surfaces(old(M()), M(), e, v)
      ensures !sent && !old(Tracks(M(), e, v) && !sessions[e].awaiting && v in floors) ==> M() == old(M())
    {
      sent, reset := false, false;
      if e !in sessions || sessions[e].volume != v {
        return;
      }
      var s := sessions[e];
      if s.awaiting {
        return;
      }
      ghost var before := M();
      if v in floors {
        FloorToQueueMoves(before, e, v);
        var floor := floors[v];
        floors := floors - {v};
        queued := queued[e := floor];
      } else if e !in queued && !sawComplete {
        var ambiguous := s.batchFailed || s.inProgress;
        if ambiguous && !barrier {
          reset := true;
        } else {
          var claimed := s.(reconciliation := false, awaiting := ambiguous, batchFailed := s.batchFailed && ambiguous);
          ClaimMoves(before, e, claimed);
          dispatching := dispatching - {v};
          queued := queued - {e};
          sessions := sessions[e := claimed.(inProgress := true)];
          sent := true;
        }
      }
    }

    /** Here `reset` says that a batch failed and no attempt, floor or pause stands in the way. */
    method TriggerReconciliation(e: Ephemeral, v: Volume, paused: bool)
      returns (sent: bool, reset: bool)
      requires Valid()
      modifies this
      ensures Valid() && M() == Trigger(old(M()), e, v, paused)
      ensures sent <==> old(CanClaim(M(), e, v) && !sessions[e].batchFailed && !sessions[e].inProgress) && !paused
      ensures sent ==> OwnersOf(M(), v) == {Attempt}
      ensures sent ==> Claims(old(M()), M(), e, v) && sessions[e].reconciliation
      ensures old(Tracks(M(), e, v) && sessions[e].inProgress) && !paused ==>
                M() == old(M()).(sessions := old(sessions)[e := old(sessions)[e].(deferred := true)])
      ensures old(Tracks(M(), e, v) && !sessions[e].inProgress && v in floors) && !paused ==> Surfaces(old(M()), M(), e, v)
      ensures reset <==>
              old(Tracks(M(), e, v) && !paused && sessions[e].batchFailed && OwnersOf(M(), v) <= {QueuedRetry, Dispatch})
      ensures reset ==> M() == old(M())
      ensures !sent && (paused || !old(Tracks(M(), e, v) && (sessions[e].inProgress || v in floors))) ==> M() == old(M())
    {
      sent, reset := false, false;
      if e !in sessions || sessions[e].volume != v || paused {
        return;
      }
      var s := sessions[e];
      ghost var before := M();
      if s.inProgress {
        FlagMoves(before, e, s.(deferred := true));
        sessions := sessions[e := s.(deferred := true)];
      } else if v in floors {
        FloorToQueueMoves(before, e, v);
        var floor := floors[v];
        floors := floors - {v};
        queued := queued[e := floor];
      } else if s.batchFailed {
        reset := true;
      } else if e !in queued {
        ClaimMoves(before, e, s.(reconciliation := true));
        dispatching := dispatching - {v};
        queued := queued - {e};
        sessions := sessions[e := s.(reconciliation := true, inProgress := true)];
        sent := true;
      }
    }

    // ---- terminals ----

    /** Closes the attempt of an attributable completion.  `finalized` is what the pipeline reports
        when the completion has authority. */
    method OnScanComplete(e: Ephemeral, now: Instant, paused: bool, finalized: bool) returns (accepted: bool)
      requires Valid()
      modifies this
      ensures Valid() && (accepted <==> old(e in sessions && !sessions[e].awaiting && sessions[e].inProgress))
      ensures !accepted ==> M() == old(M())
      ensures accepted ==>
                M() == if paused || old(sessions)[e].batchFailed then CompleteWithoutAuthority(old(M()), e, now)
                       else CompleteWithAuthority(old(M()), e, now, finalized)
      ensures accepted ==> Over(old(sessions)[e], sessions, e)
      ensures accepted && old(sessions)[e].batchFailed ==>
                Waits(M(), e, old(sessions)[e].volume, Retry(now + 5, old(sessions)[e].reconciliation))
      ensures accepted && !old(sessions)[e].batchFailed && !paused && !finalized ==>
                Waits(M(), e, old(sessions)[e].volume,
                      Retry(now + 5, old(sessions)[e].reconciliation || old(sessions)[e].deferred))
      ensures accepted && !old(sessions)[e].batchFailed && (paused || finalized) ==> !Owned(M(), old(sessions)[e].volume)
      ensures accepted ==> (sessions[e].deferred <==> old(sessions)[e].deferred && (paused || old(sessions)[e].batchFailed))
    {
      accepted := e in sessions && !sessions[e].awaiting && sessions[e].inProgress;
      if !accepted {
        return;
      }
      var s := sessions[e];
      ghost var before := M();
      if paused || s.batchFailed {
        CompleteWithoutAuthorityMoves(before, e, now);
        sessions := sessions[e := Close(s)];
        if s.batchFailed {
          InstallNonAuthoritativeRetry(e, s.volume, now + RETRY_DELAY, s.reconciliation);
        }
        return;
      }
      CompleteWithAuthorityMoves(before, e, now, finalized);
      sessions := sessions[e := Close(s).(deferred := false)];
      if finalized {
        queued := queued - {e};
        dispatching := dispatching - {s.volume};
        floors := floors - {s.volume};
      } else {
        InstallNonAuthoritativeRetry(e, s.volume, now + RETRY_DELAY, s.reconciliation || s.deferred);
      }
    }

    method OnScanFailed(e: Ephemeral, now: Instant)
      requires Valid()
      modifies this
      ensures Valid()
      ensures M() == if Attributable(old(M()), e) then Fail(old(M()), e, now) else old(M())
      ensures old(e in sessions && !sessions[e].awaiting && sessions[e].inProgress) ==>
                && Over(old(sessions)[e], sessions, e) && sessions[e].deferred == old(sessions)[e].deferred
                && Waits(M(), e, old(sessions)[e].volume, Retry(now + 5, old(sessions)[e].reconciliation))
    {
      if e !in sessions || sessions[e].awaiting || !sessions[e].inProgress {
        return;
      }
      var s := sessions[e];
      FailMoves(M(), e, now);
      sessions := sessions[e := Close(s)];
      InstallNonAuthoritativeRetry(e, s.volume, now + RETRY_DELAY, s.reconciliation);
    }

    // ---- handlers that walk the tables ----

    method Store(m: Manager)
      modifies this
      ensures M() == m
    {
      active, sessions, queued, dispatching, floors, inHand :=
        m.active, m.sessions, m.queued, m.dispatching, m.floors, m.inHand;
    }

    /** Losing the connection: every owned volume ends up on its floor with the retry its one owner
        carried, and nothing connection-scoped survives. */
    method OnConnectionLost(now: Instant)
      requires Valid()
      modifies this
      ensures Valid() && !active
      ensures sessions == map[] && queued == map[] && dispatching == map[]
      ensures forall v :: v in floors <==> Owned(old(M()), v)
      ensures forall v :: v in old(floors) ==> SameAt(old(floors), floors, v)
      ensures forall e :: e in old(sessions) ==> LeavesExactly(old(M()), M(), e, {e}, now)
    {
      var m := M().(active := false);
      var n;
      ghost var order;
      n, order := RemoveSessions(m, sessions.Keys, now);
      AllGone(M(), m, order, now);
      Store(n);
      // A dispatch in hand whose session vanished earlier would be merged here; there is none.
      queued, dispatching := map[], map[];
    }

    /** A volume list: new volumes get a session, tracked ids that are absent leave.  A volume may
        come back under another id. */
    method OnVolumeList(listed: seq<VolumeInfo>, now: Instant)
      requires Valid() && Listable(M(), listed)
      modifies this
      ensures Valid()
      ensures forall v :: Owned(M(), v) <==> Owned(old(M()), v)
      ensures forall e :: Stays(old(sessions), sessions, listed, e)
      ensures forall e :: e in old(sessions) && e !in sessions ==> LeavesExactly(old(M()), M(), e, {e}, now)
    {
      ghost var before := M();
      var all := sessions;
      for i := 0 to |listed|
        invariant all == Joining(before.sessions, listed[..i])
      {
        assert listed[..i + 1][..i] == listed[..i];
        if listed[i].e !in all && listed[i].identity.Durable? {
          all := all[listed[i].e := NewSession(listed[i])];
        }
      }
      assert listed[..|listed|] == listed;
      var gone := all.Keys - Named(listed);
      var n;
      ghost var order;
      n, order := RemoveSessions(M().(sessions := all), gone, now);
      ListHandled(before, listed, order, now);
      Store(n);
    }

    /** Moves every due retry from the queue into the scheduler's hand. */
    method TakeDueRetries(now: Instant) returns (due: seq<Volume>)
      requires Valid()
      modifies this
      ensures Valid()
      ensures forall v :: Owned(M(), v) <==> Owned(old(M()), v)
      ensures queued == map e | e in old(queued) && old(queued)[e].due > now :: old(queued)[e]
      ensures forall v :: v in due <==> exists e :: DueFor(old(M()), e, v, now)
      ensures forall v :: v in due ==> InHandAs(old(M()), M(), v)
    {
      var m;
      m, due := TakeAllDue(M(), now);
      Store(m);
    }
  }

  // ---- the loops ----

  function WithSessions(m: Manager, extra: map<Ephemeral, Session>): Manager {
    m.(sessions := m.sessions + extra)
  }

  /** The sessions leave one after the other. */
  function RemoveAll(m: Manager, order: seq<Ephemeral>, now: Instant): Manager {
    if order == [] then m
    else
      var n, e := RemoveAll(m, order[..|order| - 1], now), order[|order| - 1];
      if e in n.sessions then SessionSteps.RemoveSession(n, e, now) else n
  }

  function Elements(order: seq<Ephemeral>): set<Ephemeral> {
    set e | e in order
  }

  /** Sessions that leave: each one's retry moves to the durable floor before it is erased. */
  method RemoveSessions(before: Manager, gone: set<Ephemeral>, now: Instant)
    returns (m: Manager, ghost order: seq<Ephemeral>)
    ensures m == RemoveAll(before, order, now) && Elements(order) == gone * before.sessions.Keys
    ensures forall i, j :: 0 <= i < j < |order| ==> order[i] != order[j]
  {
    m, order := before, [];
    var leaving := gone * before.sessions.Keys;
    var todo := leaving;
    while todo != {}
      invariant todo <= leaving && Elements(order) == leaving - todo && m == RemoveAll(before, order, now)
      invariant forall i, j :: 0 <= i < j < |order| ==> order[i] != order[j]
      decreases |todo|
    {
      var e :| e in todo;
      OneMoreLeaves(before, order, e, now);
      order := order + [e];
      if e in m.sessions {
        m := SessionSteps.RemoveSession(m, e, now);
      }
      todo := todo - {e};
    }
  }

  lemma OneMoreLeaves(before: Manager, order: seq<Ephemeral>, e: Ephemeral, now: Instant)
    requires e !in Elements(order) && forall i, j :: 0 <= i < j < |order| ==> order[i] != order[j]
    ensures var m, more := RemoveAll(before, order, now), order + [e];
            && Elements(more) == Elements(order) + {e}
            && (forall i, j :: 0 <= i < j < |more| ==> more[i] != more[j])
            && RemoveAll(before, more, now) == if e in m.sessions then SessionSteps.RemoveSession(m, e, now) else m
  {
    assert (order + [e])[..|order|] == order;
  }

  lemma OneRemovalSpares(m: Manager, extra: map<Ephemeral, Session>, e: Ephemeral, now: Instant)
    requires e in m.sessions && e !in extra
    ensures e in WithSessions(m, extra).sessions
    ensures RemoveSession(WithSessions(m, extra), e, now) == WithSessions(RemoveSession(m, e, now), extra)
  {
    assert (m.sessions + extra) - {e} == (m.sessions - {e}) + extra;
  }

  /** The sessions that just arrived do not matter to those that leave. */
  lemma {:induction false} RemovalSparesNewcomers(m: Manager, extra: map<Ephemeral, Session>, order: seq<Ephemeral>,
                                                  now: Instant)
    requires forall e :: e in order ==> e !in extra
    ensures RemoveAll(WithSessions(m, extra), order, now) == WithSessions(RemoveAll(m, order, now), extra)
    decreases |order|
  {
    if order != [] {
      var n, e := RemoveAll(m, order[..|order| - 1], now), order[|order| - 1];
      assert forall o :: o in order[..|order| - 1] ==> o in order;
      RemovalSparesNewcomers(m, extra, order[..|order| - 1], now);
      if e in n.sessions {
        OneRemovalSpares(n, extra, e, now);
      }
    }
  }

  lemma {:induction false} RemovingAll(before: Manager, order: seq<Ephemeral>, now: Instant)
    requires Inv(before) && forall e :: e in order ==> e in before.sessions
    requires forall i, j :: 0 <= i < j < |order| ==> order[i] != order[j]
    ensures var m := RemoveAll(before, order, now);
            Removing(before, m, Elements(order), now) && m.inHand == before.inHand && m.active == before.active
    decreases |order|
  {
    if order == [] {
      NothingRemoved(before, now);
    } else {
      var n := |order| - 1;
      assert forall e :: e in order[..n] ==> e in order;
      RemovingAll(before, order[..n], now);
      LastApart(order);
      RemovingOne(before, RemoveAll(before, order[..n], now), Elements(order[..n]), order[n], now);
    }
  }

  lemma LastApart(order: seq<Ephemeral>)
    requires order != [] && forall i, j :: 0 <= i < j < |order| ==> order[i] != order[j]
    ensures var n := |order| - 1;
            order[n] !in Elements(order[..n]) && Elements(order) == Elements(order[..n]) + {order[n]}
  {
    var n := |order| - 1;
    assert order == order[..n] + [order[n]];
  }

  lemma NothingRemoved(m: Manager, now: Instant)
    requires Inv(m)
    ensures Removing(m, m, {}, now) && Elements([]) == {}
  {
    assert m.sessions - {} == m.sessions;
  }

  lemma RemovedAll(before: Manager, extra: map<Ephemeral, Session>, order: seq<Ephemeral>, gone: set<Ephemeral>,
                   now: Instant)
    requires Inv(before) && extra.Keys !! before.sessions.Keys && extra.Keys !! gone
    requires Elements(order) == gone * WithSessions(before, extra).sessions.Keys
    requires forall i, j :: 0 <= i < j < |order| ==> order[i] != order[j]
    ensures RemoveAll(WithSessions(before, extra), order, now) == WithSessions(RemoveAll(before, order, now), extra)
    ensures Removed(before, RemoveAll(before, order, now), gone, now)
  {
    assert Elements(order) == gone * before.sessions.Keys;
    forall e | e in order ensures e in before.sessions && e !in extra {
      assert e in Elements(order);
    }
    RemovalSparesNewcomers(before, extra, order, now);
    RemovingAll(before, order, now);
    RemovedOwners(before, RemoveAll(before, order, now), Elements(order), gone, now);
  }

  /** The sessions in `gone` have left: every volume is owned as before, and each session's slots are
      untouched or moved to the floor. */
  ghost predicate Removed(before: Manager, m: Manager, gone: set<Ephemeral>, now: Instant) {
    && Inv(m) && m.sessions == before.sessions - gone && m.active == before.active
    && (forall v :: Owned(m, v) <==> Owned(before, v))
    && (forall e :: e in before.sessions ==> LeavesExactly(before, m, e, gone, now))
    && (forall v :: v in before.floors ==> SameAt(before.floors, m.floors, v))
  }

  function NewSession(info: VolumeInfo): Session
    requires info.identity.Durable?
  {
    Session(info.identity.v, info.letter, false, false, false, false, false)
  }

  function Named(listed: seq<VolumeInfo>): set<Ephemeral> {
    set i | 0 <= i < |listed| :: listed[i].e
  }

  /** The sessions after the list was read and before anyone leaves. */
  function Joining(sessions: map<Ephemeral, Session>, listed: seq<VolumeInfo>): map<Ephemeral, Session> {
    if listed == [] then sessions
    else
      var s, info := Joining(sessions, listed[..|listed| - 1]), listed[|listed| - 1];
      if info.e in s || info.identity.Unresolved? then s else s[info.e := NewSession(info)]
  }

  predicate Brings(listed: seq<VolumeInfo>, i: int, e: Ephemeral) {
    0 <= i < |listed| && listed[i].e == e && listed[i].identity.Durable?
  }

  /** An idle session for a volume the list gives under this id. */
  ghost predicate IsNew(listed: seq<VolumeInfo>, e: Ephemeral, s: Session) {
    exists i :: Brings(listed, i, e) && s == Session(listed[i].identity.v, listed[i].letter, false, false, false, false, false)
  }

  /** The volumes that stay are distinct, whatever ids they had before. */
  ghost predicate Listable(m: Manager, listed: seq<VolumeInfo>) {
    var s := Joining(m.sessions, listed);
    forall e, o :: e in s && o in s && e in Named(listed) && o in Named(listed) && s[e].volume == s[o].volume ==> e == o
  }

  lemma {:induction false} Joined(sessions: map<Ephemeral, Session>, listed: seq<VolumeInfo>)
    ensures var s := Joining(sessions, listed);
            && (forall e :: e in s <==> e in sessions || exists i :: Brings(listed, i, e))
            && (forall e :: e in sessions ==> s[e] == sessions[e])
            && (forall e :: e in s && e !in sessions ==> e in Named(listed) && IsNew(listed, e, s[e]))
    decreases |listed|
  {
    if listed != [] {
      var n := |listed| - 1;
      Joined(sessions, listed[..n]);
      var s, p := Joining(sessions, listed), Joining(sessions, listed[..n]);
      forall e ensures e in s <==> e in sessions || exists i :: Brings(listed, i, e) {
        if i :| Brings(listed, i, e) {
          assert i == n || Brings(listed[..n], i, e);
        }
        if i :| Brings(listed[..n], i, e) {
          assert Brings(listed, i, e);
        }
        assert e == listed[n].e && listed[n].identity.Durable? ==> Brings(listed, n, e);
      }
      forall e | e in s && e !in sessions ensures e in Named(listed) && IsNew(listed, e, s[e]) {
        if e in p {
          var i :| Brings(listed[..n], i, e) && s[e] == NewSession(listed[..n][i]);
          assert Brings(listed, i, e);
        } else {
          assert Brings(listed, n, e);
        }
      }
    }
  }

  lemma NewcomerTracks(m: Manager, extra: map<Ephemeral, Session>, v: Volume, e: Ephemeral)
    requires Linked(m) && extra.Keys !! m.sessions.Keys
    requires forall o :: o in extra ==> !extra[o].inProgress
    ensures var n := WithSessions(m, extra);
            && (Tracks(n, e, v) && n.sessions[e].inProgress <==> Tracks(m, e, v) && m.sessions[e].inProgress)
            && (Tracks(n, e, v) && e in n.queued <==> Tracks(m, e, v) && e in m.queued)
  {
  }

  lemma NewcomerOwners(m: Manager, extra: map<Ephemeral, Session>, v: Volume)
    requires Linked(m) && extra.Keys !! m.sessions.Keys
    requires forall e :: e in extra ==> !extra[e].inProgress
    ensures OwnersOf(WithSessions(m, extra), v) == OwnersOf(m, v)
  {
    var n := WithSessions(m, extra);
    forall e ensures (Tracks(n, e, v) && n.sessions[e].inProgress <==> Tracks(m, e, v) && m.sessions[e].inProgress)
             ensures (Tracks(n, e, v) && e in n.queued <==> Tracks(m, e, v) && e in m.queued) {
      NewcomerTracks(m, extra, v, e);
    }
  }

  lemma NewcomerExclusive(m: Manager, extra: map<Ephemeral, Session>, e: Ephemeral)
    requires Inv(m) && extra.Keys !! m.sessions.Keys
    requires forall o :: o in extra ==> !extra[o].inProgress
    requires DistinctVolumes(WithSessions(m, extra)) && e in WithSessions(m, extra).sessions
    ensures Exclusive(WithSessions(m, extra), e, WithSessions(m, extra).sessions[e].volume)
  {
    var n := WithSessions(m, extra);
    var v := n.sessions[e].volume;
    if e in extra {
      assert v in m.dispatching ==> Tracks(m, m.inHand[v], v) && Tracks(n, m.inHand[v], v);
    } else {
      assert Exclusive(m, e, v);
    }
  }

  /** Idle sessions of volumes nobody else tracks change no owner. */
  lemma NewcomersJoin(m: Manager, extra: map<Ephemeral, Session>)
    requires Inv(m) && extra.Keys !! m.sessions.Keys
    requires forall e :: e in extra ==> !extra[e].inProgress
    requires DistinctVolumes(WithSessions(m, extra))
    ensures Inv(WithSessions(m, extra))
    ensures forall v :: Owned(WithSessions(m, extra), v) <==> Owned(m, v)
  {
    var n := WithSessions(m, extra);
    forall e | e in n.sessions ensures Exclusive(n, e, n.sessions[e].volume) {
      NewcomerExclusive(m, extra, e);
    }
    forall v ensures Owned(n, v) <==> Owned(m, v) {
      NewcomerOwners(m, extra, v);
    }
    forall v | v in n.dispatching ensures Tracks(n, n.inHand[v], v) {
      assert Tracks(m, m.inHand[v], v);
    }
  }

  lemma ListedLeave(before: Manager, rest: Manager, extra: map<Ephemeral, Session>, gone: set<Ephemeral>, now: Instant)
    requires Removed(before, rest, gone, now) && extra.Keys !! before.sessions.Keys
    ensures var n := WithSessions(rest, extra);
            forall e :: e in before.sessions && e !in n.sessions ==> LeavesExactly(before, n, e, {e}, now)
  {
    var n := WithSessions(rest, extra);
    forall e | e in before.sessions && e !in n.sessions ensures LeavesExactly(before, n, e, {e}, now) {
      assert LeavesExactly(before, rest, e, gone, now);
    }
  }

  /** What the volume list leaves of a session that was there or joined. */
  ghost predicate Stays(before: map<Ephemeral, Session>, n: map<Ephemeral, Session>, listed: seq<VolumeInfo>,
                        e: Ephemeral) {
    && (e in n <==> e in Named(listed) && (e in before || exists i :: Brings(listed, i, e)))
    && (e in n && e in before ==> n[e] == before[e])
    && (e in n && e !in before ==> IsNew(listed, e, n[e]))
  }

  lemma ListStays(before: map<Ephemeral, Session>, listed: seq<VolumeInfo>, n: map<Ephemeral, Session>)
    requires n == Joining(before, listed) - (Joining(before, listed).Keys - Named(listed))
    ensures forall e :: Stays(before, n, listed, e)
  {
    Joined(before, listed);
  }

  lemma ListHandled(before: Manager, listed: seq<VolumeInfo>, order: seq<Ephemeral>, now: Instant)
    requires Inv(before) && Listable(before, listed)
    requires var all := Joining(before.sessions, listed); Elements(order) == (all.Keys - Named(listed)) * all.Keys
    requires forall i, j :: 0 <= i < j < |order| ==> order[i] != order[j]
    ensures var n := RemoveAll(before.(sessions := Joining(before.sessions, listed)), order, now);
            && Inv(n)
            && (forall v :: Owned(n, v) <==> Owned(before, v))
            && (forall e :: Stays(before.sessions, n.sessions, listed, e))
            && (forall e :: e in before.sessions && e !in n.sessions ==> LeavesExactly(before, n, e, {e}, now))
  {
    var all := Joining(before.sessions, listed);
    var extra, gone := all - before.sessions.Keys, all.Keys - Named(listed);
    ListSplits(before.sessions, listed);
    RemovedAll(before, extra, order, gone, now);
    ListSettles(before, RemoveAll(before, order, now), listed, now);
  }

  /** The newcomers are idle, none of them leaves, and they complete the sessions there were. */
  lemma ListSplits(before: map<Ephemeral, Session>, listed: seq<VolumeInfo>)
    ensures var all := Joining(before, listed);
            var extra := all - before.Keys;
            && before + extra == all && extra.Keys !! before.Keys && extra.Keys !! (all.Keys - Named(listed))
            && forall e :: e in extra ==> !extra[e].inProgress
  {
    Joined(before, listed);
  }

  lemma ListSettles(before: Manager, rest: Manager, listed: seq<VolumeInfo>, now: Instant)
    requires Listable(before, listed)
    requires Removed(before, rest, Joining(before.sessions, listed).Keys - Named(listed), now)
    ensures var n := WithSessions(rest, Joining(before.sessions, listed) - before.sessions.Keys);
            && Inv(n)
            && (forall v :: Owned(n, v) <==> Owned(before, v))
            && (forall e :: Stays(before.sessions, n.sessions, listed, e))
            && (forall e :: e in before.sessions && e !in n.sessions ==> LeavesExactly(before, n, e, {e}, now))
  {
    var all := Joining(before.sessions, listed);
    var extra, gone := all - before.sessions.Keys, all.Keys - Named(listed);
    ListSplits(before.sessions, listed);
    assert rest.sessions + extra == all - gone;
    ListStays(before.sessions, listed, all - gone);
    NewcomersJoin(rest, extra);
    ListedLeave(before, rest, extra, gone, now);
  }

  /** What removing a session leaves on its volume's floor. */
  lemma Transferred(m: Manager, e: Ephemeral, now: Instant)
    requires e in m.sessions
    ensures var s, floors := m.sessions[e], RemoveSession(m, e, now).floors;
            var v := s.volume;
            && SameOutside(m.floors, floors, v)
            && (v in floors <==> e in m.queued || s.inProgress || v in m.dispatching || v in m.floors)
            && (v in floors ==> (floors[v].reconciliation <==> (v in m.floors && m.floors[v].reconciliation) || OwedKind(m, e)))
            && (v in floors ==>
                  || (e in m.queued && floors[v].due == m.queued[e].due)
                  || (s.inProgress && floors[v].due == now + 5)
                  || (v in m.dispatching && floors[v].due == m.dispatching[v].due)
                  || (v in m.floors && floors[v].due == m.floors[v].due))
    ensures var s, floors := m.sessions[e], RemoveSession(m, e, now).floors;
            var v := s.volume;
            && (e in m.queued ==> floors[v].due >= m.queued[e].due)
            && (s.inProgress ==> floors[v].due >= now + 5)
            && (v in m.dispatching ==> floors[v].due >= m.dispatching[v].due)
            && (v in m.floors ==> floors[v].due >= m.floors[v].due)
  {
  }

  lemma Installed(m: Manager, e: Ephemeral, v: Volume, r: Retry)
    ensures Linked(m) && Tracks(m, e, v) ==> Owned(Install(m, e, v, r), v)
    ensures Inv(m) && Tracks(m, e, v) && !m.sessions[e].inProgress && RearmFree(m, e, v) ==>
              MovesTo(m, Install(m, e, v, r), v, RetrySlot(m))
  {
    var n := Install(m, e, v, r);
    if Tracks(m, e, v) {
      assert Tracks(n, e, v);
      if Inv(m) && !m.sessions[e].inProgress && RearmFree(m, e, v) {
        Local(m, n, e, v);
      }
    }
  }

  lemma RearmedValid(m: Manager, e: Ephemeral, v: Volume, now: Instant)
    requires Inv(m) && Tracks(m, e, v)
    ensures Linked(Rearm(m, e, v, now)) && Owned(Rearm(m, e, v, now), v)
    ensures Inv(Rearm(m, e, v, now)) <==> RearmFree(m, e, v)
  {
    var n := Rearm(m, e, v, now);
    KeptLocally(m, n, e, v, true);
    RearmKeepsSingleOwnerIff(m, e, v, now);
    if RearmFree(m, e, v) {
      RearmMoves(m, e, v, now);
    } else if Inv(n) {
      InvGivesSingleOwner(n, v);
      assert false;
    }
  }

  method TakeAllDue(before: Manager, now: Instant) returns (m: Manager, due: seq<Volume>)
    requires Inv(before)
    ensures Inv(m)
    ensures m == before.(queued := m.queued, dispatching := m.dispatching, inHand := m.inHand)
    ensures forall v :: Owned(m, v) <==> Owned(before, v)
    ensures m.queued == map e | e in before.queued && before.queued[e].due > now :: before.queued[e]
    ensures forall v :: v in due <==> exists e :: DueFor(before, e, v, now)
    ensures forall v :: v in due ==> InHandAs(before, m, v)
  {
    m, due := before, [];
    var todo := before.queued.Keys;
    while todo != {}
      invariant m == before.(queued := m.queued, dispatching := m.dispatching, inHand := m.inHand)
      invariant Taking(before, m, todo, due, now)
      decreases |todo|
    {
      var e :| e in todo;
      if m.queued[e].due <= now {
        TakingDue(before, m, todo, due, e, now);
        due := due + [m.sessions[e].volume];
        m := SessionSteps.TakeDue(m, e);
      } else {
        TakingLater(before, m, todo, due, e, now);
      }
      todo := todo - {e};
    }
    TakenOwners(before, m, due, now);
  }

  /** What the scheduler does with one due retry in its hand: start the owed scan, or, if the volume is
      paused or the start is refused, queue it again for the retry delay. */
  function Issue(m: Manager, v: Volume, paused: bool, sawComplete: bool, barrier: bool, now: Instant): Manager
    requires v in m.dispatching && v in m.inHand
  {
    var e := m.inHand[v];
    if paused then Requeue(m, v, now)
    else Settle(if m.dispatching[v].reconciliation then Trigger(m, e, v, false)
                else Start(m, e, v, sawComplete, barrier), v, now)
  }

  function Claimed(s: Session, reconciliation: bool): Session {
    if reconciliation then s.(reconciliation := true)
    else s.(reconciliation := false, awaiting := Ambiguous(s), batchFailed := s.batchFailed && Ambiguous(s))
  }

  /** Under the invariant the cleanup after an admission has nothing to do. */
  lemma IssueIs(m: Manager, v: Volume, paused: bool, sawComplete: bool, barrier: bool, now: Instant)
    requires Inv(m) && v in m.dispatching
    ensures v in m.inHand && Tracks(m, m.inHand[v], v) && !m.sessions[m.inHand[v]].inProgress && v !in m.floors
    ensures Issue(m, v, paused, sawComplete, barrier, now)
         == if CanIssue(m, v, paused, sawComplete, barrier)
            then Claim(m, m.inHand[v], Claimed(m.sessions[m.inHand[v]], m.dispatching[v].reconciliation))
            else Requeue(m, v, now)
  {
    assert Exclusive(m, m.inHand[v], v);
  }

  lemma IssueMoves(m: Manager, v: Volume, paused: bool, sawComplete: bool, barrier: bool, now: Instant)
    requires Inv(m) && v in m.dispatching
    ensures v in m.inHand && Tracks(m, m.inHand[v], v)
    ensures var n := Issue(m, v, paused, sawComplete, barrier, now);
            && MovesTo(m, n, v, if CanIssue(m, v, paused, sawComplete, barrier) then {Attempt} else {QueuedRetry})
            && n.dispatching == m.dispatching - {v}
  {
    IssueIs(m, v, paused, sawComplete, barrier, now);
    if CanIssue(m, v, paused, sawComplete, barrier) {
      ClaimMoves(m, m.inHand[v], Claimed(m.sessions[m.inHand[v]], m.dispatching[v].reconciliation));
    } else {
      RequeueMoves(m, v, now);
    }
  }

  /** The scheduler's second loop: every retry it took is started or queued again, and none is left
      in its hand. */
  method IssueDue(before: Manager, due: seq<Volume>, paused: set<Volume>, complete: set<Volume>, barrier: bool,
                  now: Instant)
    returns (m: Manager)
    requires Inv(before)
    ensures Inv(m)
    ensures forall v :: v in m.dispatching <==> v in before.dispatching && v !in due
    ensures forall v :: v in due && v in before.dispatching ==> Issued(before, m, v, v in paused, v in complete, barrier, now)
    ensures forall v :: v !in due || v !in before.dispatching ==> OwnersOf(m, v) == OwnersOf(before, v)
  {
    m := before;
    forall v | v in before.dispatching ensures StillInHand(before, before, v) {
      assert Tracks(before, before.inHand[v], v);
    }
    for i := 0 to |due|
      invariant Issuing(before, m, due[..i], paused, complete, barrier, now)
    {
      var v := due[i];
      assert due[..i + 1] == due[..i] + [v];
      if v in m.dispatching {
        IssuingOne(before, m, due[..i], v, paused, complete, barrier, now);
        m := Issue(m, v, v in paused, v in complete, barrier, now);
      }
    }
    assert due[..|due|] == due;
  }

  /** The scan that the retry in hand owes can be sent: a reconciliation unless a batch failed, an initial
      scan unless it is complete, a barrier is awaited, or a batch failed and no barrier can be asked for. */
  predicate CanIssue(m: Manager, v: Volume, paused: bool, sawComplete: bool, barrier: bool)
    requires v in m.dispatching && v in m.inHand && m.inHand[v] in m.sessions
  {
    var s := m.sessions[m.inHand[v]];
    !paused && if m.dispatching[v].reconciliation then !s.batchFailed
               else !s.awaiting && !sawComplete && (s.batchFailed ==> barrier)
  }

  /** The retry ended as an attempt of its kind, or, if it could not be sent, in the queue for five seconds. */
  ghost predicate Issued(before: Manager, m: Manager, v: Volume, paused: bool, sawComplete: bool, barrier: bool,
                         now: Instant)
    requires v in before.dispatching
  {
    && v in before.inHand && Tracks(before, before.inHand[v], v) && Tracks(m, before.inHand[v], v)
    && var e, owed := before.inHand[v], before.dispatching[v].reconciliation;
       if CanIssue(before, v, paused, sawComplete, barrier)
       then OwnersOf(m, v) == {Attempt} && m.sessions[e].inProgress && m.sessions[e].reconciliation == owed
       else OwnersOf(m, v) == {QueuedRetry} && e in m.queued && m.queued[e] == Retry(now + 5, owed)
            && m.sessions[e] == before.sessions[e]
  }

  lemma IssuedOne(m: Manager, v: Volume, paused: bool, sawComplete: bool, barrier: bool, now: Instant)
    requires Inv(m) && v in m.dispatching
    ensures v in m.inHand
    ensures var n := Issue(m, v, paused, sawComplete, barrier, now);
            && SameElsewhere(m, n, m.inHand[v], v) && n.inHand == m.inHand
            && Issued(m, n, v, paused, sawComplete, barrier, now)
  {
    IssueIs(m, v, paused, sawComplete, barrier, now);
    IssueMoves(m, v, paused, sawComplete, barrier, now);
  }

  /** The retries of `done` have been issued, the others are still in hand. */
  ghost predicate Issuing(before: Manager, m: Manager, done: seq<Volume>, paused: set<Volume>, complete: set<Volume>,
                          barrier: bool, now: Instant)
  {
    && Inv(m) && m.inHand == before.inHand
    && (forall v :: v in m.dispatching <==> v in before.dispatching && v !in done)
    && (forall v :: v in m.dispatching ==> StillInHand(before, m, v))
    && (forall v :: v in done && v in before.dispatching ==> Issued(before, m, v, v in paused, v in complete, barrier, now))
    && (forall v :: v !in done || v !in before.dispatching ==> OwnersOf(m, v) == OwnersOf(before, v))
  }

  predicate StillInHand(before: Manager, m: Manager, v: Volume)
    requires v in m.dispatching
  {
    && v in before.dispatching && v in before.inHand && m.dispatching[v] == before.dispatching[v]
    && before.inHand[v] in before.sessions && before.inHand[v] in m.sessions
    && m.sessions[before.inHand[v]] == before.sessions[before.inHand[v]]
  }

  /** Issuing one retry leaves what became of another. */
  lemma IssuedStays(before: Manager, m: Manager, n: Manager, e: Ephemeral, v: Volume, w: Volume, paused: bool,
                    sawComplete: bool, barrier: bool, now: Instant)
    requires w in before.dispatching && Issued(before, m, w, paused, sawComplete, barrier, now)
    requires SameElsewhere(m, n, e, v) && Tracks(m, e, v) && v != w && OwnersOf(n, w) == OwnersOf(m, w)
    ensures Issued(before, n, w, paused, sawComplete, barrier, now)
  {
  }

  lemma IssuedFrom(before: Manager, m: Manager, n: Manager, v: Volume, paused: bool, sawComplete: bool, barrier: bool,
                   now: Instant)
    requires v in m.dispatching && m.inHand == before.inHand && StillInHand(before, m, v)
    requires Issued(m, n, v, paused, sawComplete, barrier, now)
    ensures Issued(before, n, v, paused, sawComplete, barrier, now)
  {
  }

  lemma StillStays(before: Manager, m: Manager, n: Manager, e: Ephemeral, v: Volume, w: Volume)
    requires Linked(m) && m.inHand == before.inHand && w in m.dispatching && StillInHand(before, m, w)
    requires SameElsewhere(m, n, e, v) && Tracks(m, e, v) && v != w
    ensures w in n.dispatching && StillInHand(before, n, w)
  {
    assert Tracks(m, m.inHand[w], w);
  }

  lemma IssuingOne(before: Manager, m: Manager, done: seq<Volume>, v: Volume,
                   paused: set<Volume>, complete: set<Volume>, barrier: bool, now: Instant)
    requires Issuing(before, m, done, paused, complete, barrier, now) && v in m.dispatching
    ensures v in m.inHand
    ensures Issuing(before, Issue(m, v, v in paused, v in complete, barrier, now), done + [v], paused, complete, barrier, now)
  {
    IssueMoves(m, v, v in paused, v in complete, barrier, now);
    IssuedOne(m, v, v in paused, v in complete, barrier, now);
    var e, n := m.inHand[v], Issue(m, v, v in paused, v in complete, barrier, now);
    forall w | w in n.dispatching ensures StillInHand(before, n, w) {
      StillStays(before, m, n, e, v, w);
    }
    forall w | w in done + [v] && w in before.dispatching
      ensures Issued(before, n, w, w in paused, w in complete, barrier, now)
    {
      if w == v {
        IssuedFrom(before, m, n, v, v in paused, v in complete, barrier, now);
      } else {
        IssuedStays(before, m, n, e, v, w, w in paused, w in complete, barrier, now);
      }
    }
  }

  // ---- what removing one session does to the slots of another ----

  predicate SameAt<K, V(==)>(a: map<K, V>, b: map<K, V>, k: K) {
    (k in a <==> k in b) && (k in a ==> b[k] == a[k])
  }

  /** From `before` to `m` the slots of session `e` are untouched, or, if it is one of those gone, its
      volume's floor holds exactly what it owed. */
  predicate LeavesExactly(before: Manager, m: Manager, e: Ephemeral, gone: set<Ephemeral>, now: Instant)
    requires e in before.sessions
  {
    var v := before.sessions[e].volume;
    if e in gone then
      && e !in m.queued && v !in m.dispatching
      && (v in before.floors ==> SameAt(before.floors, m.floors, v))
      && (OwedBySession(before, e, now).Owed? ==>
            v in m.floors && m.floors[v] == OwedBySession(before, e, now).retry)
      && (v in m.floors ==> v in before.floors || OwedBySession(before, e, now).Owed?)
    else
      SameAt(before.queued, m.queued, e) && SameAt(before.dispatching, m.dispatching, v)
      && SameAt(before.floors, m.floors, v)
  }

  lemma LeaveOne(before: Manager, m: Manager, e: Ephemeral, o: Ephemeral, done: set<Ephemeral>, now: Instant)
    requires Inv(before) && o in before.sessions && LeavesExactly(before, m, o, done, now)
    requires e in before.sessions && e in m.sessions && m.sessions[e] == before.sessions[e]
    requires e !in done
    ensures LeavesExactly(before, RemoveSession(m, e, now), o, done + {e}, now)
  {
    assert Exclusive(before, o, before.sessions[o].volume);
    assert e != o ==> before.sessions[e].volume != before.sessions[o].volume;
  }

  /** The slots that belong to no tracked session. */
  ghost predicate OthersUntouched(before: Manager, m: Manager) {
    && (forall e :: e !in before.sessions ==> SameAt(before.queued, m.queued, e))
    && (forall v :: (forall e :: !Tracks(before, e, v)) ==>
          SameAt(before.dispatching, m.dispatching, v) && SameAt(before.floors, m.floors, v))
  }

  /** The removal loop, with the sessions in `done` gone. */
  ghost predicate Removing(before: Manager, m: Manager, done: set<Ephemeral>, now: Instant) {
    && m.sessions == before.sessions - done
    && (forall e :: e in before.sessions ==> LeavesExactly(before, m, e, done, now))
    && OthersUntouched(before, m)
  }

  lemma RemovingOne(before: Manager, m: Manager, done: set<Ephemeral>, e: Ephemeral, now: Instant)
    requires Inv(before) && Removing(before, m, done, now) && e in before.sessions && e !in done
    ensures e in m.sessions && Removing(before, RemoveSession(m, e, now), done + {e}, now)
  {
    var n := RemoveSession(m, e, now);
    forall o | o in before.sessions ensures LeavesExactly(before, n, o, done + {e}, now) {
      LeaveOne(before, m, e, o, done, now);
    }
    assert n.sessions == before.sessions - (done + {e});
    forall v | forall o :: !Tracks(before, o, v)
      ensures SameAt(before.dispatching, n.dispatching, v) && SameAt(before.floors, n.floors, v)
    {
      assert !Tracks(before, e, v);
      assert SameAt(before.dispatching, m.dispatching, v) && SameAt(before.floors, m.floors, v);
    }
  }

  /** Moving the sessions' retries to their floors keeps the invariant and every owner. */
  lemma RemovedInv(before: Manager, m: Manager, done: set<Ephemeral>, now: Instant)
    requires Inv(before) && Removing(before, m, done, now) && m.inHand == before.inHand
    ensures Inv(m)
  {
    forall e | e in m.sessions ensures Exclusive(m, e, m.sessions[e].volume) {
      assert Exclusive(before, e, m.sessions[e].volume) && LeavesExactly(before, m, e, done, now);
    }
    forall e | e in m.queued ensures e in m.sessions {
      assert e in before.sessions ==> LeavesExactly(before, m, e, done, now);
    }
    forall v | v in m.dispatching ensures v in m.inHand && Tracks(m, m.inHand[v], v) {
      assert v in before.dispatching || !SameAt(before.dispatching, m.dispatching, v);
      var e :| Tracks(before, e, v);
      assert LeavesExactly(before, m, e, done, now);
    }
  }

  lemma RemovedOwners(before: Manager, m: Manager, done: set<Ephemeral>, gone: set<Ephemeral>, now: Instant)
    requires Inv(before) && Removing(before, m, done, now) && m.inHand == before.inHand && m.active == before.active
    requires done == gone * before.sessions.Keys
    ensures Removed(before, m, gone, now)
  {
    RemovedInv(before, m, done, now);
    forall v ensures Owned(m, v) <==> Owned(before, v)
             ensures v in before.floors ==> SameAt(before.floors, m.floors, v) {
      RemovedOwner(before, m, done, v, now);
    }
    forall e | e in before.sessions ensures LeavesExactly(before, m, e, gone, now) {
      assert LeavesExactly(before, m, e, done, now);
    }
    assert before.sessions - done == before.sessions - gone;
  }

  lemma RemovedOwner(before: Manager, m: Manager, done: set<Ephemeral>, v: Volume, now: Instant)
    requires Inv(before) && Removing(before, m, done, now)
    ensures Owned(m, v) <==> Owned(before, v)
    ensures v in before.floors ==> SameAt(before.floors, m.floors, v)
  {
    if e :| Tracks(before, e, v) {
      assert LeavesExactly(before, m, e, done, now);
      OwnersAlone(before, e, v);
      OwnersAlone(m, e, v);
    } else {
      forall e ensures !Tracks(m, e, v) {
        assert !Tracks(before, e, v);
      }
      assert SameAt(before.dispatching, m.dispatching, v) && SameAt(before.floors, m.floors, v);
    }
  }

  lemma AllGone(before: Manager, m: Manager, order: seq<Ephemeral>, now: Instant)
    requires Inv(before) && m == before.(active := false) && Elements(order) == before.sessions.Keys * m.sessions.Keys
    requires forall i, j :: 0 <= i < j < |order| ==> order[i] != order[j]
    ensures var n := RemoveAll(m, order, now);
            && Inv(n) && !n.active && n.sessions == map[] && n.queued == map[] && n.dispatching == map[]
            && (forall v :: v in n.floors <==> Owned(before, v))
            && (forall v :: v in before.floors ==> SameAt(before.floors, n.floors, v))
            && (forall e :: e in before.sessions ==> LeavesExactly(before, n, e, {e}, now))
  {
    QuietMoves(before, m);
    assert m.sessions + map[] == m.sessions;
    RemovedAll(m, map[], order, before.sessions.Keys, now);
    NoneLeft(before, m, RemoveAll(m, order, now), now);
  }

  lemma NoneLeft(before: Manager, m: Manager, n: Manager, now: Instant)
    requires m == before.(active := false) && Removed(m, n, before.sessions.Keys, now)
    requires forall v :: OwnersOf(m, v) == OwnersOf(before, v)
    ensures Inv(n) && !n.active && n.sessions == map[] && n.queued == map[] && n.dispatching == map[]
    ensures forall v :: v in n.floors <==> Owned(before, v)
    ensures forall v :: v in before.floors ==> SameAt(before.floors, n.floors, v)
    ensures forall e :: e in before.sessions ==> LeavesExactly(before, n, e, {e}, now)
  {
    NoSessionsOwnFloors(n);
    forall e | e in before.sessions ensures LeavesExactly(before, n, e, {e}, now) {
      LeftAlone(before, m, n, e, now);
    }
  }

  lemma LeftAlone(before: Manager, m: Manager, n: Manager, e: Ephemeral, now: Instant)
    requires m == before.(active := false) && e in before.sessions && LeavesExactly(m, n, e, before.sessions.Keys, now)
    ensures LeavesExactly(before, n, e, {e}, now)
  {
  }

  lemma HeldBySession(m: Manager, v: Volume)
    requires Linked(m) && v in m.dispatching
    ensures m.sessions.Keys != {}
  {
    assert Tracks(m, m.inHand[v], v);
  }

  lemma NoSessionsOwnFloors(m: Manager)
    requires Inv(m) && m.sessions == map[]
    ensures m.queued == map[] && m.dispatching == map[]
    ensures forall v :: Owned(m, v) <==> v in m.floors
  {
    forall v ensures Owned(m, v) <==> v in m.floors {
      assert forall e :: !Tracks(m, e, v);
    }
    forall v ensures v !in m.dispatching {
      if v in m.dispatching {
        HeldBySession(m, v);
        assert false;
      }
    }
  }

  predicate DueFor(before: Manager, e: Ephemeral, v: Volume, now: Instant) {
    Tracks(before, e, v) && e in before.queued && before.queued[e].due <= now
  }

  /** The scheduler holds the retry that was queued for the session it took it from. */
  predicate InHandAs(before: Manager, m: Manager, v: Volume) {
    && v in m.dispatching && v in m.inHand && m.inHand[v] in before.queued
    && m.dispatching[v] == before.queued[m.inHand[v]]
  }

  /** The scheduler's first loop, with the queue entries in `todo` still to be looked at. */
  ghost predicate Taking(before: Manager, m: Manager, todo: set<Ephemeral>, due: seq<Volume>, now: Instant) {
    && (forall e :: e in todo ==> e in m.queued)
    && (forall e :: e in m.queued <==> e in before.queued && (e in todo || before.queued[e].due > now))
    && (forall e :: e in m.queued ==> m.queued[e] == before.queued[e])
    && (forall e, v :: e !in todo && DueFor(before, e, v, now) ==> v in due)
    && (forall v :: v !in due ==> SameAt(before.dispatching, m.dispatching, v) && SameAt(before.inHand, m.inHand, v))
    && (forall v :: v in due ==> TakenFor(before, m, todo, v, now))
  }

  predicate TakenFor(before: Manager, m: Manager, todo: set<Ephemeral>, v: Volume, now: Instant) {
    InHandAs(before, m, v) && m.inHand[v] !in todo && DueFor(before, m.inHand[v], v, now)
  }

  lemma TakingDue(before: Manager, m: Manager, todo: set<Ephemeral>, due: seq<Volume>, e: Ephemeral, now: Instant)
    requires Inv(before) && Taking(before, m, todo, due, now) && m.sessions == before.sessions
    requires e in todo && m.queued[e].due <= now
    ensures e in m.sessions
    ensures Taking(before, SessionSteps.TakeDue(m, e), todo - {e}, due + [m.sessions[e].volume], now)
  {
    TakingQueue(before, m, todo, due, e, now);
    var v := m.sessions[e].volume;
    var n := SessionSteps.TakeDue(m, e);
    assert DueFor(before, e, v, now);
    forall w | w in due + [v] ensures TakenFor(before, n, todo - {e}, w, now) {
      if w != v { assert TakenFor(before, m, todo, w, now); }
    }
  }

  lemma TakingQueue(before: Manager, m: Manager, todo: set<Ephemeral>, due: seq<Volume>, e: Ephemeral, now: Instant)
    requires Taking(before, m, todo, due, now) && e in todo && e in m.sessions && m.queued[e].due <= now
    ensures var n, left := SessionSteps.TakeDue(m, e), todo - {e};
            && (forall o :: o in left ==> o in n.queued)
            && (forall o :: o in n.queued <==> o in before.queued && (o in left || before.queued[o].due > now))
            && (forall o :: o in n.queued ==> n.queued[o] == before.queued[o])
  {
  }

  lemma TakingLater(before: Manager, m: Manager, todo: set<Ephemeral>, due: seq<Volume>, e: Ephemeral, now: Instant)
    requires Taking(before, m, todo, due, now) && e in todo && m.queued[e].due > now
    ensures Taking(before, m, todo - {e}, due, now)
  {
    forall w | w in due ensures TakenFor(before, m, todo - {e}, w, now) {
      assert TakenFor(before, m, todo, w, now);
    }
  }

  lemma TakenOwners(before: Manager, m: Manager, due: seq<Volume>, now: Instant)
    requires Inv(before) && Taking(before, m, {}, due, now)
    requires m == before.(queued := m.queued, dispatching := m.dispatching, inHand := m.inHand)
    ensures Inv(m)
    ensures forall v :: Owned(m, v) <==> Owned(before, v)
    ensures m.queued == map e | e in before.queued && before.queued[e].due > now :: before.queued[e]
    ensures forall v :: v in due <==> exists e :: DueFor(before, e, v, now)
    ensures forall v :: v in due ==> InHandAs(before, m, v)
  {
    TakenInv(before, m, due, now);
    forall v ensures Owned(m, v) <==> Owned(before, v) {
      TakenOwner(before, m, due, v, now);
    }
    forall v | v in due ensures InHandAs(before, m, v) && exists e :: DueFor(before, e, v, now) {
      assert TakenFor(before, m, {}, v, now);
    }
  }

  lemma TakenOwner(before: Manager, m: Manager, due: seq<Volume>, v: Volume, now: Instant)
    requires Inv(before) && Taking(before, m, {}, due, now)
    requires m == before.(queued := m.queued, dispatching := m.dispatching, inHand := m.inHand)
    ensures Owned(m, v) <==> Owned(before, v)
  {
    assert forall e :: Tracks(m, e, v) <==> Tracks(before, e, v);
    if e :| Tracks(before, e, v) {
      OwnersAlone(before, e, v);
      OwnersAlone(m, e, v);
      assert v in due ==> TakenFor(before, m, {}, v, now);
      assert v in due <==> DueFor(before, e, v, now);
    } else {
      assert v in due ==> TakenFor(before, m, {}, v, now);
      assert SameAt(before.dispatching, m.dispatching, v);
    }
  }

  lemma TakenInv(before: Manager, m: Manager, due: seq<Volume>, now: Instant)
    requires Inv(before) && Taking(before, m, {}, due, now)
    requires m == before.(queued := m.queued, dispatching := m.dispatching, inHand := m.inHand)
    ensures Inv(m)
  {
    forall e | e in m.sessions ensures Exclusive(m, e, m.sessions[e].volume) {
      var v := m.sessions[e].volume;
      assert Exclusive(before, e, v);
      assert v in due ==> TakenFor(before, m, {}, v, now);
    }
    forall v | v in m.dispatching ensures v in m.inHand && Tracks(m, m.inHand[v], v) {
      assert v in due ==> TakenFor(before, m, {}, v, now);
    }
  }
}
