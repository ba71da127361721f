/** The promises of the job queue over whole runs. */
module JobProperties {
  import opened Jobs
  import opened Sets
  import opened JobInvariants

  // ---- The scheduler at every moment ----

  /** `id` stands in the queue at exactly one place. */
  ghost predicate QueuedOnce(m: Manager, id: Id) {
    exists i | 0 <= i < |m.queue| :: m.queue[i] == id && forall j | 0 <= j < |m.queue| && m.queue[j] == id :: j == i
  }

  /**
   * In every reachable state that is not disposed: the workers are the unreleased executions and
   * never more than allowed, a queued job is in the queue exactly once, the queue is non-empty only
   * if all workers are busy, waiters are pending only while there is work, and no internal step
   * asked for an illegal transition.
   */
  lemma SchedulerAlwaysConsistent(concurrency: nat, actions: seq<Action>)
    requires concurrency >= 1 && IsRun(Start(concurrency), actions)
    ensures var m := Run(Start(concurrency), actions);
      m.faults == 0 && (!m.disposed ==>
        && m.running == |m.executions| <= m.concurrency
        && (forall id | id in m.entries && m.entries[id].state == Queued :: QueuedOnce(m, id))
        && (m.queue != [] ==> m.running == m.concurrency > 0)
        && (m.waiters > 0 ==> m.running > 0))
  {
    hide Run, History;
    StartInvariant(concurrency);
    RunInvariant(Start(concurrency), actions);
    var m := Run(Start(concurrency), actions);
    if !m.disposed {
      forall id | id in m.entries && m.entries[id].state == Queued
        ensures QueuedOnce(m, id)
      {
        QueuedOnceIn(m, id);
      }
    }
  }

  lemma QueuedOnceIn(m: Manager, id: Id)
    requires Ordered(m) && id in m.entries && m.entries[id].state == Queued
    ensures QueuedOnce(m, id)
  {
    var i :| 0 <= i < |m.queue| && m.queue[i] == id;
    forall j | 0 <= j < |m.queue| && m.queue[j] == id
      ensures j == i
    {
      assert m.submitted[Taken(m) + i] == m.submitted[Taken(m) + j];
    }
  }

  lemma UntakenInQueue(m: Manager, j: nat)
    requires Ordered(m) && Taken(m) <= j < |m.submitted|
    ensures m.submitted[j] in m.queue
  {
    assert m.queue[j - Taken(m)] == m.submitted[j];
  }

  /** No overtaking: before a job starts, every earlier one has started or was cancelled. */
  lemma FirstComeFirstServed(concurrency: nat, actions: seq<Action>, i: nat, j: nat)
    requires concurrency >= 1 && IsRun(Start(concurrency), actions)
    requires var m := Run(Start(concurrency), actions);
      !m.disposed && i < j < |m.submitted| && Running in History(m.events, m.submitted[j])
    ensures var m := Run(Start(concurrency), actions);
      Running in History(m.events, m.submitted[i]) || Cancelled in History(m.events, m.submitted[i])
  {
    hide Run, History;
    StartInvariant(concurrency);
    RunInvariant(Start(concurrency), actions);
    var m := Run(Start(concurrency), actions);
    if j >= Taken(m) {
      UntakenInQueue(m, j);
      assert false;
    }
    PathShape(History(m.events, m.submitted[i]));
  }

  // ---- Histories and the cancellation race ----

  /** The seven histories a job can have. */
  lemma PathShape(h: seq<JobState>)
    requires IsPath(h)
    ensures |h| <= 4 && h[0] == Queued
    ensures |h| > 1 ==> h[1] == Running || (h[1] == Cancelled && |h| == 2)
    ensures |h| > 2 ==> h[2] == Cancelling || ((h[2] == Completed || h[2] == Failed) && |h| == 3)
    ensures |h| > 3 ==> h[2] == Cancelling && h[3] == Cancelled
  {
    assert |h| > 1 ==> CanTransition(h[0], h[1]);
    assert |h| > 2 ==> CanTransition(h[1], h[2]);
    assert |h| > 3 ==> CanTransition(h[2], h[3]);
    assert |h| <= 4 || CanTransition(h[3], h[4]);
  }

  /**
   * Every job's announced states are a path from `Queued`; what comes after `Cancelling` is
   * `Cancelled` and nothing else; the abort signal is set exactly in those two states.
   */
  lemma HistoriesArePaths(concurrency: nat, actions: seq<Action>, id: Id)
    requires concurrency >= 1 && IsRun(Start(concurrency), actions)
    requires var m := Run(Start(concurrency), actions);
      !m.disposed && id in m.submitted
    ensures var m := Run(Start(concurrency), actions);
      var h := History(m.events, id);
      && IsPath(h)
      && (forall i | 0 <= i < |h| && h[i] == Cancelling ::
            i + 1 == |h| || (i + 2 == |h| && h[i + 1] == Cancelled))
      && (id in m.entries ==>
            && m.entries[id].state == h[|h| - 1]
            && (m.entries[id].aborted <==> m.entries[id].state in {Cancelling, Cancelled}))
  {
    hide Run, History;
    StartInvariant(concurrency);
    RunInvariant(Start(concurrency), actions);
    hide CanTransition;
    PathShape(History(Run(Start(concurrency), actions).events, id));
  }

  /** The executor settled before any cancellation: the job is past being cancelled. */
  ghost predicate PastCancelling(m: Manager, id: Id) {
    && id in m.submitted
    && Cancelling !in History(m.events, id) && Cancelled !in History(m.events, id)
    && (id in m.entries ==>
          || m.entries[id].state == Completed || m.entries[id].state == Failed
          || (m.entries[id].state == Running && m.entries[id].settled))
  }

  /** Moving another job, or this one to an end that is not cancelled, changes nothing here. */
  lemma MovePast(m: Manager, n: Manager, id: Id, x: Id, s: JobState)
    requires PastCancelling(m, id) && n.events == m.events + [Event(x, s)] && n.submitted == m.submitted
    requires x == id ==> s == Completed || s == Failed
    requires id in n.entries ==> id in m.entries
    requires id in n.entries && x == id ==> n.entries[id].state == s
    requires id in n.entries && x != id ==>
      n.entries[id].state == m.entries[id].state && n.entries[id].settled == m.entries[id].settled
    ensures PastCancelling(n, id)
  {
    hide History;
    HistoryAppend(m.events, Event(x, s), id);
  }

  lemma {:induction false} FillPast(m: Manager, id: Id, now: int)
    requires PastCancelling(m, id)
    ensures PastCancelling(Fill(m, now), id)
    decreases |m.queue|
  {
    hide History;
    if m.running < m.concurrency && m.queue != [] {
      var x, rest := m.queue[0], m.(queue := m.queue[1..]);
      if x in m.entries && m.entries[x].state == Queued {
        MovePast(m, Begin(rest, x, now), id, x, Running);
        FillPast(Begin(rest, x, now), id, now);
      } else {
        FillPast(rest, id, now);
      }
    }
  }

  lemma PumpPast(m: Manager, id: Id, now: int)
    requires PastCancelling(m, id)
    ensures PastCancelling(Pump(m, now), id)
  {
    hide History, Fill;
    FillPast(m, id, now);
  }

  lemma ActionPast(m: Manager, id: Id, a: Action)
    requires Invariant(m) && PastCancelling(m, id) && Enabled(m, a)
    ensures PastCancelling(Apply(m, a), id)
  {
    hide History, Pump, Core;
    match a
    case DoSubmit(x, cancellable, now) =>
      if !m.disposed {
        var n := Enqueue(m, x, cancellable);
        HistoryAppend(m.events, Event(x, Queued), id);
        PumpPast(n, id, now);
      }
    case DoCancel(x, now) =>
      if x in m.entries && !m.entries[x].settled && m.entries[x].state == Queued {
        var n := Abort(Move(m, x, Cancelled, now), x);
        MovePast(m, n, id, x, Cancelled);
        PumpPast(n, id, now);
      } else if x in m.entries && !m.entries[x].settled && m.entries[x].state == Running {
        MovePast(m, Abort(Move(m, x, Cancelling, now), x), id, x, Cancelling);
      }
    case DoSettle(_, _) =>
    case DoFinalize(x, now) =>
      if !m.disposed {
        assert Counted(m) by { CoreParts(m); }
        var ok := m.executions[x].ok;
        ConcludeMoves(m, x, ok, now);
        var n := Release(Conclude(m, x, ok, now), x);
        MovePast(m, n, id, x, Ending(m.entries[x].state, ok));
        PumpPast(n, id, now);
      } else {
        PumpPast(Release(m, x), id, now);
      }
    case DoCleanup(_) =>
    case DoWhenIdle =>
    case DoDispose =>
  }

  lemma CoreParts(m: Manager)
    requires Core(m)
    ensures Counted(m) && Ordered(m) && Told(m)
  {}

  lemma {:induction false} RunPast(m: Manager, id: Id, actions: seq<Action>)
    requires Invariant(m) && PastCancelling(m, id) && IsRun(m, actions)
    ensures PastCancelling(Run(m, actions), id)
    decreases |actions|
  {
    hide Invariant, PastCancelling, Apply, Enabled;
    if actions != [] {
      ActionInvariant(m, actions[0]);
      ActionPast(m, id, actions[0]);
      RunPast(Apply(m, actions[0]), id, actions[1..]);
    }
  }

  /** A completion that won the race: whatever happens later, the job is never cancelled. */
  lemma SettledJobIsNeverCancelled(concurrency: nat, before: seq<Action>, after: seq<Action>, id: Id)
    requires concurrency >= 1 && IsRun(Start(concurrency), before)
    requires var m := Run(Start(concurrency), before);
      && !m.disposed && id in m.entries && m.entries[id].state == Running && m.entries[id].settled
      && IsRun(m, after)
    ensures var h := History(Run(Run(Start(concurrency), before), after).events, id);
      Cancelling !in h && Cancelled !in h
  {
    hide Run, History, IsRun;
    StartInvariant(concurrency);
    RunInvariant(Start(concurrency), before);
    var m := Run(Start(concurrency), before);
    CoreParts(m);
    RunningPath(History(m.events, id));
    RunPast(m, id, after);
  }

  lemma RunningPath(h: seq<JobState>)
    requires IsPath(h) && Last(h) == Running
    ensures Cancelling !in h && Cancelled !in h
  {
    PathShape(h);
  }

  // ---- Progress ----

  /** The jobs that have not ended. */
  ghost function Live(m: Manager): set<Id> {
    set id | id in m.entries && !IsTerminal(m.entries[id].state)
  }

  function Finalizations(actions: seq<Action>): nat {
    if actions == [] then 0 else (if actions[0].DoFinalize? then 1 else 0) + Finalizations(actions[1..])
  }

  /** While any job has not ended, some execution is active. */
  lemma LiveMeansActive(m: Manager)
    requires Invariant(m) && !m.disposed && Live(m) != {}
    ensures m.executions != map[] && m.running > 0
  {
    var id :| id in Live(m);
    CoreParts(m);
    if id in m.executions {
      assert m.executions.Keys != {};
    } else {
      assert m.entries[id].state == Queued;
      assert m.queue != [];
    }
  }

  lemma {:induction false} FillLive(m: Manager, now: int)
    ensures Live(Fill(m, now)) == Live(m)
    decreases |m.queue|
  {
    if m.running < m.concurrency && m.queue != [] {
      var x, rest := m.queue[0], m.(queue := m.queue[1..]);
      if x in m.entries && m.entries[x].state == Queued {
        assert Live(Begin(rest, x, now)) == Live(m);
        FillLive(Begin(rest, x, now), now);
      } else {
        assert Live(rest) == Live(m);
        FillLive(rest, now);
      }
    }
  }

  lemma PumpLive(m: Manager, now: int)
    ensures Live(Pump(m, now)) == Live(m)
  {
    hide Fill;
    FillLive(m, now);
  }

  lemma CancelLive(m: Manager, x: Id, now: int)
    requires !m.disposed
    ensures !Cancel(m, x, now).disposed && Live(Cancel(m, x, now)) <= Live(m)
  {
    hide Pump;
    if x in m.entries && !m.entries[x].settled && m.entries[x].state == Queued {
      var n := Abort(Move(m, x, Cancelled, now), x);
      PumpLive(n, now);
      PumpAlive(n, now);
      assert Live(n) <= Live(m);
    } else {
      assert Live(Cancel(m, x, now)) <= Live(m);
    }
  }

  lemma EndLive(m: Manager, x: Id, next: JobState, now: int)
    requires x in m.entries && CanTransition(m.entries[x].state, next) && IsTerminal(next)
    ensures x in Live(m) && Live(Release(Move(m, x, next, now), x)) == Live(m) - {x}
    ensures Release(Move(m, x, next, now), x).disposed == m.disposed
  {}

  lemma FinalizeLive(m: Manager, x: Id, now: int)
    requires Core(m) && !m.disposed && x in m.executions && m.executions[x].Settled?
    ensures !Finalize(m, x, now).disposed && x in Live(m) && Live(Finalize(m, x, now)) == Live(m) - {x}
  {
    hide Pump, Core, Conclude, Move, Counted, Ordered, Told, Live, CanTransition;
    CoreParts(m);
    var ok := m.executions[x].ok;
    ConcludeMoves(m, x, ok, now);
    var next := Ending(m.entries[x].state, ok);
    var n := Release(Move(m, x, next, now), x);
    EndLive(m, x, next, now);
    PumpLive(n, now);
    PumpAlive(n, now);
  }

  /** Nothing but a submission adds work, and each finalization ends one job. */
  lemma ActionLive(m: Manager, a: Action)
    requires Invariant(m) && !m.disposed && Enabled(m, a) && !a.DoSubmit? && !a.DoDispose?
    ensures !Apply(m, a).disposed
    ensures |Live(Apply(m, a))| + (if a.DoFinalize? then 1 else 0) <= |Live(m)|
  {
    hide Core, Cancel, Finalize;
    if a.DoCancel? {
      CancelLive(m, a.id, a.now);
    } else if a.DoFinalize? {
      FinalizeLive(m, a.id, a.now);
    } else {
      assert Live(Apply(m, a)) <= Live(m);
    }
    SubsetSize(Live(Apply(m, a)), Live(m));
  }

  lemma PumpAlive(m: Manager, now: int)
    requires !m.disposed
    ensures !Pump(m, now).disposed
  {
    hide Fill;
    FillAlive(m, now);
  }

  lemma {:induction false} FillAlive(m: Manager, now: int)
    ensures Fill(m, now).disposed == m.disposed
    decreases |m.queue|
  {
    if m.running < m.concurrency && m.queue != [] {
      var x, rest := m.queue[0], m.(queue := m.queue[1..]);
      if x in m.entries && m.entries[x].state == Queued {
        FillAlive(Begin(rest, x, now), now);
      } else {
        FillAlive(rest, now);
      }
    }
  }

  lemma {:induction false} RunLive(m: Manager, actions: seq<Action>)
    requires Invariant(m) && !m.disposed && IsRun(m, actions)
    requires forall a | a in actions :: !a.DoSubmit? && !a.DoDispose?
    ensures !Run(m, actions).disposed
    ensures |Live(Run(m, actions))| + Finalizations(actions) <= |Live(m)|
    decreases |actions|
  {
    hide Invariant, Apply, Enabled, Live;
    if actions != [] {
      ActionInvariant(m, actions[0]);
      ActionLive(m, actions[0]);
      RunLive(Apply(m, actions[0]), actions[1..]);
    }
  }

  /**
   * Without new submissions, as many finalizations as there are live jobs end them all, and then
   * nobody waits any more; until then some execution is always active.
   */
  lemma FinalizationsEndAllJobs(m: Manager, actions: seq<Action>)
    requires Invariant(m) && !m.disposed && IsRun(m, actions)
    requires forall a | a in actions :: !a.DoSubmit? && !a.DoDispose?
    ensures var n := Run(m, actions);
      && Finalizations(actions) <= |Live(m)|
      && (Live(n) != {} ==> n.running > 0)
      && (Finalizations(actions) == |Live(m)| ==> Live(n) == {} && n.running == 0 && n.queue == [] && n.waiters == 0)
  {
    hide Run, IsRun;
    RunInvariant(m, actions);
    RunLive(m, actions);
    var n := Run(m, actions);
    if Live(n) != {} {
      LiveMeansActive(n);
    } else {
      NothingLive(n);
    }
  }

  lemma NothingLive(m: Manager)
    requires Invariant(m) && !m.disposed && Live(m) == {}
    ensures m.running == 0 && m.queue == [] && m.waiters == 0
  {
    CoreParts(m);
    assert m.executions.Keys == {} by {
      if id :| id in m.executions {
        assert id in Live(m);
      }
    }
    assert |m.executions| == 0;
  }
}
