/** What each call of the job manager does to the job it is about, and when waiters and old jobs go. */
module JobEffects {
  import opened Text
  import opened Jobs
  import opened JobInvariants

  // ---- Moves ----

  /** The life cycle: a queued job runs or is cancelled, a running one ends or is being cancelled, and that ends in cancelled. */
  predicate Follows(from: JobState, to: JobState) {
    (from, to) in {(Queued, Running), (Queued, Cancelled), (Running, Completed), (Running, Failed), (Running, Cancelling),
                   (Cancelling, Cancelled)}
  }

  /** A move along the life cycle is made and announced; any other is a fault and changes no job. */
  lemma {:induction false} MoveIsChecked(m: Manager, id: Id, next: JobState, now: int)
    requires id in m.entries
    ensures var n := Move(m, id, next, now);
      if Follows(m.entries[id].state, next) then
        && n.faults == m.faults && n.events == m.events + [Event(id, next)]
        && n.entries[id].state == next && (next in {Completed, Failed, Cancelled} ==> n.entries[id].endedAt == Some(now))
      else n == m.(faults := m.faults + 1) && n.faults > m.faults
  {}

  // ---- Filling the workers ----

  lemma {:induction false} FillKeeps(m: Manager, now: int, id: Id)
    ensures var n := Fill(m, now);
      && n.entries.Keys == m.entries.Keys && n.waiters == m.waiters && n.disposed == m.disposed && n.concurrency == m.concurrency
      && n.running >= m.running
      && (id in m.entries && m.entries[id].state != Queued ==> n.entries[id] == m.entries[id])
      && (id in m.entries && m.entries[id].state == Queued ==>
            n.entries[id] == m.entries[id] || n.entries[id] == m.entries[id].(state := Running))
    decreases |m.queue|
  {
    if m.running < m.concurrency && m.queue != [] {
      var head, rest := m.queue[0], m.(queue := m.queue[1..]);
      if head in m.entries && m.entries[head].state == Queued {
        var next := Begin(rest, head, now);
        assert next.entries.Keys == m.entries.Keys;
        FillKeeps(next, now, id);
      } else {
        FillKeeps(rest, now, id);
      }
    }
  }

  lemma {:induction false} PumpKeeps(m: Manager, now: int, id: Id)
    ensures var n := Pump(m, now);
      && n.entries.Keys == m.entries.Keys && n.disposed == m.disposed
      && (id in m.entries && m.entries[id].state != Queued ==> n.entries[id] == m.entries[id])
      && (id in m.entries && m.entries[id].state == Queued ==>
            n.entries[id] == m.entries[id] || n.entries[id] == m.entries[id].(state := Running))
      && (n.waiters == m.waiters || (n.waiters == 0 && !n.disposed && n.queue == [] && n.running == 0))
  {
    FillKeeps(m, now, id);
    hide Fill;
  }

  // ---- Submitting ----

  /** A submitted job runs at once if a worker is free, and waits in the queue otherwise. */
  lemma {:induction false} SubmitExactly(m: Manager, id: Id, cancellable: bool, now: int)
    requires Invariant(m) && !m.disposed && id !in m.submitted && m.concurrency >= 1
    ensures var n := Apply(m, DoSubmit(id, cancellable, now));
      && id in n.entries && n.entries[id].cancellable == cancellable && !n.entries[id].settled && !n.entries[id].aborted
      && n.entries[id].state == (if m.running < m.concurrency then Running else Queued)
      && (m.running < m.concurrency ==> n.running == m.running + 1 && id in n.executions && n.executions[id] == Pending)
      && (m.running == m.concurrency ==> n.queue == m.queue + [id] && n.running == m.running)
  {
    var q := m.(entries := m.entries[id := Entry(Queued, cancellable, false, false, None)], queue := m.queue + [id],
                events := m.events + [Event(id, Queued)], submitted := m.submitted + [id]);
    if m.running < m.concurrency {
      assert m.queue == [] && q.queue == [id];
      var b := Begin(q.(queue := q.queue[1..]), id, now);
      assert b.queue == [] && Fill(b, now) == b;
      assert Fill(q, now) == b;
    } else {
      CoreCounts(m);
      assert m.running == m.concurrency;
      assert Fill(q, now) == q;
    }
    hide Invariant, Core;
  }

  lemma {:induction false} StartIsReady(concurrency: nat)
    ensures var m := Start(concurrency); !m.disposed && m.concurrency == concurrency && m.running == 0 && m.queue == [] && m.entries == map[]
  {}

  // ---- Cancelling ----

  /**
   * A cancellation is refused for an unknown job, one that cannot be cancelled and one that has ended by
   * itself; it changes nothing when the job is already cancelled or being cancelled, or its executor is
   * done. A queued job is cancelled at once, a running one gets the abort signal and is being cancelled.
   */
  lemma {:induction false} CancelExactly(m: Manager, id: Id, now: int)
    ensures var n, reply := Apply(m, DoCancel(id, now)), CancelReply(m, id, now);
      if id !in m.entries then n == m && reply == NotFound
      else
        var e := m.entries[id];
        if !e.cancellable then n == m && reply == NotCancellable
        else if e.state == Completed || e.state == Failed then n == m && reply == AlreadyFinished
        else if e.settled || e.state == Cancelled || e.state == Cancelling then n == m && reply == Reply.Ok(e.state)
        else
          && id in n.entries
          && n.entries[id] == (if e.state == Queued then e.(state := Cancelled, aborted := true, endedAt := Some(now))
                               else e.(state := Cancelling, aborted := true))
          && reply == Reply.Ok(n.entries[id].state)
  {
    if id in m.entries && m.entries[id].state == Queued {
      PumpKeeps(Abort(Move(m, id, Cancelled, now), id), now, id);
      hide Pump;
    }
  }

  // ---- Ending ----

  /**
   * When an execution goes on after its promise, its job ends: as cancelled when it was being cancelled,
   * as failed when the promise failed, and as completed otherwise; its worker is free again.
   */
  lemma {:induction false} FinalizeExactly(m: Manager, id: Id, now: int)
    requires Invariant(m) && !m.disposed && Enabled(m, DoFinalize(id, now)) && id in m.entries
    ensures var n := Apply(m, DoFinalize(id, now));
      && id in n.entries && n.entries[id].endedAt == Some(now)
      && n.entries[id].state == (if m.entries[id].state == Cancelling then Cancelled
                                 else if m.executions[id].ok then Completed else Failed)
      && id !in n.executions
  {
    RunsWhileExecuting(m, id);
    hide Invariant;
    Released(m, id, now);
    var released := Release(Conclude(m, id, m.executions[id].ok, now), id);
    hide Move, Conclude, Release;
    PumpKeeps(released, now, id);
    PumpExecutions(released, now, id);
    hide Pump;
  }

  lemma {:induction false} Released(m: Manager, id: Id, now: int)
    requires id in m.executions && m.executions[id].Settled? && id in m.entries && !m.disposed
    requires m.entries[id].state == Running || m.entries[id].state == Cancelling
    ensures var r := Release(Conclude(m, id, m.executions[id].ok, now), id);
      && Finalize(m, id, now) == Pump(r, now) && id !in r.executions && id in r.entries && r.entries[id].endedAt == Some(now)
      && r.entries[id].state == (if m.entries[id].state == Cancelling then Cancelled
                                 else if m.executions[id].ok then Completed else Failed)
  {
    hide Pump;
  }

  lemma {:induction false} RunsWhileExecuting(m: Manager, id: Id)
    requires Invariant(m) && !m.disposed && id in m.executions && id in m.entries
    ensures m.entries[id].state == Running || m.entries[id].state == Cancelling
  {}

  lemma {:induction false} PumpExecutions(m: Manager, now: int, id: Id)
    requires id !in m.executions && id in m.entries && m.entries[id].state != Queued
    ensures id !in Pump(m, now).executions
  {
    FillExecutions(m, now, id);
    hide Fill;
  }

  lemma {:induction false} FillExecutions(m: Manager, now: int, id: Id)
    requires id !in m.executions && id in m.entries && m.entries[id].state != Queued
    ensures id !in Fill(m, now).executions
    decreases |m.queue|
  {
    if m.running < m.concurrency && m.queue != [] {
      var head, rest := m.queue[0], m.(queue := m.queue[1..]);
      if head in m.entries && m.entries[head].state == Queued {
        FillExecutions(Begin(rest, head, now), now, id);
      } else {
        FillExecutions(rest, now, id);
      }
    }
  }

  // ---- Old jobs and waiters ----

  /** A clean-up keeps every job that has not ended, and every other until the retention has passed since it ended. */
  lemma {:induction false} CleanupExactly(m: Manager, now: int, retentionMs: nat)
    requires forall id | id in m.entries && m.entries[id].state in {Completed, Failed, Cancelled} :: m.entries[id].endedAt.Some?
    ensures var n := Apply(m, DoCleanup(now - retentionMs));
      && n == m.(entries := n.entries)
      && forall id :: id in n.entries <==>
           && id in m.entries
           && (m.entries[id].state in {Completed, Failed, Cancelled} ==> now - m.entries[id].endedAt.value < retentionMs)
    ensures forall id | id in Apply(m, DoCleanup(now - retentionMs)).entries ::
      Apply(m, DoCleanup(now - retentionMs)).entries[id] == m.entries[id]
  {}

  /** Whoever waits for an idle manager waits while a job is queued or running, and only then. */
  lemma {:induction false} WaitsWhileBusy(m: Manager)
    ensures var n := Apply(m, DoWhenIdle);
      n == m.(waiters := n.waiters) && n.waiters == if !m.disposed && (m.queue != [] || m.running > 0) then m.waiters + 1 else m.waiters
  {}

  /** Waiters are released only when nothing is queued and nothing runs, or by disposal. */
  lemma {:induction false} ReleasedWhenIdle(m: Manager, a: Action)
    requires Enabled(m, a)
    ensures var n := Apply(m, a); n.waiters < m.waiters ==> n.disposed || (n.queue == [] && n.running == 0)
  {
    match a
    case DoSubmit(id, cancellable, now) =>
      if !m.disposed {
        var q := m.(entries := m.entries[id := Entry(Queued, cancellable, false, false, None)], queue := m.queue + [id],
                    events := m.events + [Event(id, Queued)], submitted := m.submitted + [id]);
        PumpKeeps(q, now, id);
      }
      hide Pump;
    case DoCancel(id, now) =>
      if id in m.entries && m.entries[id].state == Queued {
        PumpKeeps(Abort(Move(m, id, Cancelled, now), id), now, id);
      }
      hide Pump;
    case DoFinalize(id, now) =>
      var ended := if !m.disposed && id in m.entries then Conclude(m, id, m.executions[id].ok, now) else m;
      PumpKeeps(ended.(running := if ended.running > 0 then ended.running - 1 else 0, executions := ended.executions - {id}), now, id);
      hide Pump;
    case _ =>
  }

  lemma {:induction false} DisposeEmpties(m: Manager)
    requires Invariant(m)
    ensures var n := Apply(m, DoDispose); n.disposed && n.queue == [] && n.entries == map[] && n.waiters == 0
    ensures m.disposed ==> Apply(m, DoDispose) == m
  {}
}
