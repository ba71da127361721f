/** What every reachable state of the job queue keeps, and what follows for whole runs. */
module JobInvariants {
  import opened Text
  import opened Jobs

  // ---- The invariant ----

  predicate IsActive(s: JobState) { s == Running || s == Cancelling }

  /** The workers are exactly the unreleased executions, and no transition was illegal. */
  ghost predicate Counted(m: Manager) {
    && m.faults == 0
    && m.running == |m.executions| <= m.concurrency
    && (forall id | id in m.executions ::
          id in m.entries && IsActive(m.entries[id].state) && (m.entries[id].settled <==> m.executions[id].Settled?))
    && (forall id | id in m.entries && IsActive(m.entries[id].state) :: id in m.executions)
    && (forall id | id in m.entries && m.entries[id].state == Queued :: !m.entries[id].settled)
  }

  ghost predicate Signalled(m: Manager) {
    forall id | id in m.entries ::
      && (m.entries[id].aborted <==> m.entries[id].state == Cancelling || m.entries[id].state == Cancelled)
      && (IsTerminal(m.entries[id].state) <==> m.entries[id].endedAt.Some?)
  }

  /** How many submitted jobs have left the queue. */
  function Taken(m: Manager): int { |m.submitted| - |m.queue| }

  /** The queue is the untaken end of the submissions, stale ids included. */
  ghost predicate Ordered(m: Manager) {
    && (forall i, j | 0 <= i < j < |m.submitted| :: m.submitted[i] != m.submitted[j])
    && 0 <= Taken(m) && m.queue == m.submitted[Taken(m)..]
    && (forall id | id in m.entries :: id in m.submitted)
    && (forall id | id in m.entries && m.entries[id].state == Queued :: id in m.queue)
  }

  /** The states announced for one job. */
  function History(events: seq<Event>, id: Id): seq<JobState> {
    if events == [] then []
    else
      History(events[..|events| - 1], id)
      + (if events[|events| - 1].id == id then [events[|events| - 1].state] else [])
  }

  /** A path of the transition table that starts at `Queued`. */
  ghost predicate IsPath(h: seq<JobState>) {
    h != [] && h[0] == Queued && forall i | 0 < i < |h| :: CanTransition(h[i - 1], h[i])
  }

  function Last(h: seq<JobState>): JobState
    requires h != []
  {
    h[|h| - 1]
  }

  ghost predicate Told(m: Manager) {
    && (forall id | id in m.submitted :: IsPath(History(m.events, id)))
    && (forall id | id !in m.submitted :: History(m.events, id) == [])
    && (forall id | id in m.entries && id in m.submitted :: Last(History(m.events, id)) == m.entries[id].state)
    && (forall id | id in m.submitted && id !in m.entries :: IsTerminal(Last(History(m.events, id))))
    && (forall i | 0 <= i < Taken(m) <= |m.submitted| :: |History(m.events, m.submitted[i])| >= 2)
    && (forall id | id in m.queue :: Running !in History(m.events, id))
  }

  ghost predicate Core(m: Manager) {
    !m.disposed && m.concurrency >= 1 && Counted(m) && Signalled(m) && Ordered(m) && Told(m)
  }

  /** A disposed manager has dropped its jobs and its waiters. */
  ghost predicate Invariant(m: Manager) {
    if m.disposed then m.queue == [] && m.entries == map[] && m.waiters == 0 && m.running == |m.executions| && m.faults == 0
    else
      && Core(m)
      && (m.queue != [] ==> m.running == m.concurrency)
      && (m.waiters > 0 ==> m.queue != [] || m.running > 0)
  }

  // ---- Histories ----

  lemma HistoryAppend(events: seq<Event>, e: Event, id: Id)
    ensures History(events + [e], id) == History(events, id) + (if e.id == id then [e.state] else [])
  {
    var all := events + [e];
    assert all[..|all| - 1] == events;
  }

  lemma HistoriesAppend(events: seq<Event>, e: Event)
    ensures forall id ::
      History(events + [e], id) == if e.id == id then History(events, id) + [e.state] else History(events, id)
  {
    hide History;
    forall id
      ensures History(events + [e], id) == if e.id == id then History(events, id) + [e.state] else History(events, id)
    {
      HistoryAppend(events, e, id);
      assert History(events, id) + [] == History(events, id);
    }
  }

  lemma PathStep(h: seq<JobState>, s: JobState)
    requires IsPath(h) && CanTransition(Last(h), s)
    ensures IsPath(h + [s]) && Last(h + [s]) == s && |h + [s]| >= 2
    ensures s != Running && Running !in h ==> Running !in h + [s]
  {}

  // ---- Small steps ----

  /** The submitted job joins the queue. */
  function Enqueue(m: Manager, id: Id, cancellable: bool): Manager {
    m.(entries := m.entries[id := Entry(Queued, cancellable, false, false, None)],
       queue := m.queue + [id],
       events := m.events + [Event(id, Queued)],
       submitted := m.submitted + [id])
  }

  lemma EnqueueCore(m: Manager, id: Id, cancellable: bool)
    requires Core(m) && id !in m.submitted
    ensures Core(Enqueue(m, id, cancellable))
  {
    hide Counted, Signalled, Ordered, Told;
    EnqueueCounted(m, id, cancellable);
    EnqueueOrdered(m, id, cancellable);
    EnqueueTold(m, id, cancellable);
  }

  lemma EnqueueCounted(m: Manager, id: Id, cancellable: bool)
    requires Counted(m) && Signalled(m) && Ordered(m) && id !in m.submitted
    ensures Counted(Enqueue(m, id, cancellable)) && Signalled(Enqueue(m, id, cancellable))
  {}

  lemma EnqueueOrdered(m: Manager, id: Id, cancellable: bool)
    requires Ordered(m) && id !in m.submitted
    ensures Ordered(Enqueue(m, id, cancellable))
  {
    var n := Enqueue(m, id, cancellable);
    assert n.submitted[Taken(n)..] == m.submitted[Taken(m)..] + [id];
  }

  lemma EnqueueTold(m: Manager, id: Id, cancellable: bool)
    requires Told(m) && Ordered(m) && id !in m.submitted
    ensures Told(Enqueue(m, id, cancellable))
  {
    hide History, IsPath, Ordered, Told;
    EnqueueTaken(m, id, cancellable);
    ToldNew(m, Enqueue(m, id, cancellable), id);
  }

  lemma ToldNew(m: Manager, n: Manager, id: Id)
    requires Told(m) && id !in m.submitted && id !in m.queue && id !in m.entries
    requires n.events == m.events + [Event(id, Queued)] && forall x :: x in n.submitted <==> x == id || x in m.submitted
    requires n.entries.Keys == m.entries.Keys + {id} && n.entries[id].state == Queued
    requires forall x | x in m.entries :: n.entries[x] == m.entries[x]
    requires Taken(n) == Taken(m) <= |m.submitted| <= |n.submitted|
    requires forall i | 0 <= i < Taken(n) :: n.submitted[i] == m.submitted[i] != id
    requires forall x | x in n.queue :: x == id || x in m.queue
    ensures Told(n)
  {
    hide History, IsPath, Taken;
    HistoriesAppend(m.events, Event(id, Queued));
    PathOne();
    assert History(n.events, id) == [Queued];
    assert forall x | x != id :: History(n.events, x) == History(m.events, x);
  }

  lemma PathOne()
    ensures IsPath([Queued])
  {}

  lemma EnqueueTaken(m: Manager, id: Id, cancellable: bool)
    requires Ordered(m) && id !in m.submitted
    ensures var n := Enqueue(m, id, cancellable);
      && Taken(n) == Taken(m) <= |m.submitted|
      && (forall i | 0 <= i < Taken(n) :: n.submitted[i] == m.submitted[i] != id)
      && (forall x | x in n.queue :: x == id || (x in m.queue && x in m.submitted))
      && (forall x :: x in n.submitted <==> x == id || x in m.submitted)
      && id !in m.entries && id !in m.queue
  {}

  /** The queue stays, or loses its head. */
  ghost predicate QueueStep(m: Manager, n: Manager, id: Id) {
    n.submitted == m.submitted && (n.queue == m.queue || (m.queue != [] && m.queue[0] == id && n.queue == m.queue[1..]))
  }

  lemma OrderedStep(m: Manager, n: Manager, id: Id)
    requires Ordered(m) && QueueStep(m, n, id) && n.entries.Keys <= m.entries.Keys
    requires forall x | x in n.entries && n.entries[x].state == Queued ::
      m.entries[x].state == Queued && (x != id || n.queue == m.queue)
    ensures Ordered(n)
  {
    if n.queue != m.queue {
      assert n.queue == m.submitted[Taken(m) + 1..];
      assert forall x | x in m.queue :: x == id || x in n.queue;
    }
  }

  /** Ids in the shorter queue differ from its old head, which is the next job taken. */
  lemma TakenStep(m: Manager, n: Manager, id: Id)
    requires Ordered(m) && QueueStep(m, n, id)
    ensures forall i | 0 <= i < Taken(n) <= |n.submitted| :: i < Taken(m) || n.submitted[i] == id
    ensures forall x | x in n.queue :: x in m.queue && (x == id ==> n.queue == m.queue)
  {
    if n.queue != m.queue {
      assert m.submitted[Taken(m)] == id;
      forall x | x in n.queue
        ensures x in m.queue && x != id
      {
        var j :| 0 <= j < |n.queue| && n.queue[j] == x;
        assert m.submitted[Taken(m) + 1 + j] == x;
      }
    }
  }

  /** One announced transition of one job. */
  lemma ToldMove(m: Manager, n: Manager, id: Id, s: JobState)
    requires Told(m) && Ordered(m) && QueueStep(m, n, id)
    requires id in m.entries && CanTransition(m.entries[id].state, s)
    requires n.events == m.events + [Event(id, s)] && n.entries.Keys == m.entries.Keys && n.entries[id].state == s
    requires forall x | x in m.entries && x != id :: n.entries[x].state == m.entries[x].state
    requires s == Running ==> n.queue != m.queue
    ensures Told(n)
  {
    hide History, CanTransition, IsPath, Ordered, QueueStep;
    HistoriesAppend(m.events, Event(id, s));
    assert id in m.submitted && n.submitted == m.submitted by { OrderedKeys(m, n, id); }
    var h := History(m.events, id);
    PathStep(h, s);
    TakenStep(m, n, id);
    assert |History(n.events, id)| >= 2;
    assert forall i | 0 <= i < Taken(n) <= |n.submitted| :: |History(n.events, n.submitted[i])| >= 2;
    assert forall x | x in n.queue :: Running !in History(n.events, x);
  }

  lemma OrderedKeys(m: Manager, n: Manager, id: Id)
    requires Ordered(m) && QueueStep(m, n, id) && id in m.entries
    ensures id in m.submitted && n.submitted == m.submitted
  {}

  lemma SkipCore(m: Manager)
    requires Core(m) && m.queue != []
    requires m.queue[0] !in m.entries || m.entries[m.queue[0]].state != Queued
    ensures Core(m.(queue := m.queue[1..]))
  {
    hide Ordered, Told;
    var n, id := m.(queue := m.queue[1..]), m.queue[0];
    OrderedStep(m, n, id);
    SkipTold(m, n, id);
  }

  lemma SkipTold(m: Manager, n: Manager, id: Id)
    requires Told(m) && Ordered(m) && m.queue != [] && m.queue[0] == id && n == m.(queue := m.queue[1..])
    requires id !in m.entries || m.entries[id].state != Queued
    ensures Told(n)
  {
    hide History, CanTransition;
    TakenStep(m, n, id);
    assert id in m.submitted;
    var h := History(m.events, id);
    assert Last(h) != Queued;
    assert |h| >= 2;
  }

  lemma BeginCore(m: Manager, now: int)
    requires Core(m) && m.queue != [] && m.running < m.concurrency
    requires m.queue[0] in m.entries && m.entries[m.queue[0]].state == Queued
    ensures Core(Begin(m.(queue := m.queue[1..]), m.queue[0], now))
  {
    hide Counted, Signalled, Ordered, Told;
    var id := m.queue[0];
    var n := Begin(m.(queue := m.queue[1..]), id, now);
    BeginCounted(m, id, now, n);
    OrderedStep(m, n, id);
    ToldMove(m, n, id, Running);
  }

  lemma BeginCounted(m: Manager, id: Id, now: int, n: Manager)
    requires Counted(m) && Signalled(m) && m.running < m.concurrency && m.queue != []
    requires id in m.entries && m.entries[id].state == Queued && n == Begin(m.(queue := m.queue[1..]), id, now)
    ensures Counted(n) && Signalled(n)
  {
    assert id !in m.executions;
    assert |n.executions| == |m.executions| + 1;
  }

  lemma {:induction false} FillCore(m: Manager, now: int)
    requires Core(m)
    ensures var n := Fill(m, now);
      && Core(n) && (n.queue == [] || n.running == n.concurrency) && n.waiters == m.waiters
    decreases |m.queue|
  {
    hide Counted, Signalled, Ordered, Told;
    if m.running < m.concurrency && m.queue != [] {
      var id, rest := m.queue[0], m.(queue := m.queue[1..]);
      if id in m.entries && m.entries[id].state == Queued {
        BeginCore(m, now);
        FillCore(Begin(rest, id, now), now);
      } else {
        SkipCore(m);
        FillCore(rest, now);
      }
    } else {
      assert m.running <= m.concurrency by { CountedBound(m); }
    }
  }

  lemma CountedBound(m: Manager)
    requires Core(m)
    ensures m.running <= m.concurrency
  {}

  lemma PumpInvariant(m: Manager, now: int)
    requires Core(m)
    ensures Invariant(Pump(m, now))
  {
    hide Counted, Signalled, Ordered, Told;
    FillCore(m, now);
    WaitersCore(Fill(m, now), 0);
  }

  lemma CancelCore(m: Manager, id: Id, now: int)
    requires Core(m) && id in m.entries && (m.entries[id].state == Queued || m.entries[id].state == Running)
    ensures var next := if m.entries[id].state == Queued then Cancelled else Cancelling;
      Core(Abort(Move(m, id, next, now), id))
  {
    hide Counted, Signalled, Ordered, Told;
    var next := if m.entries[id].state == Queued then Cancelled else Cancelling;
    var n := Abort(Move(m, id, next, now), id);
    CancelCounted(m, id, next, now, n);
    OrderedStep(m, n, id);
    ToldMove(m, n, id, next);
  }

  lemma CancelCounted(m: Manager, id: Id, next: JobState, now: int, n: Manager)
    requires Counted(m) && Signalled(m) && id in m.entries && CanTransition(m.entries[id].state, next)
    requires next == Cancelling || (next == Cancelled && m.entries[id].state == Queued)
    requires n == Abort(Move(m, id, next, now), id)
    ensures Counted(n) && Signalled(n)
  {}

  lemma SettleCore(m: Manager, id: Id, ok: bool)
    requires Core(m) && id in m.executions
    ensures Core(Settle(m, id, ok))
  {
    hide Signalled, Ordered, Told, Counted;
    var n := Settle(m, id, ok);
    SettleCounted(m, id, ok, n);
    OrderedStep(m, n, id);
    SameStatesTold(m, n);
  }

  lemma SettleCounted(m: Manager, id: Id, ok: bool, n: Manager)
    requires Counted(m) && Signalled(m) && id in m.executions && n == Settle(m, id, ok)
    ensures Counted(n) && Signalled(n) && n.entries.Keys == m.entries.Keys
  {
    assert n.executions.Keys == m.executions.Keys;
    assert |n.executions| == |m.executions|;
  }

  lemma SameStatesTold(m: Manager, n: Manager)
    requires Told(m) && n.events == m.events && n.submitted == m.submitted && n.queue == m.queue
    requires n.entries.Keys == m.entries.Keys && forall x | x in m.entries :: n.entries[x].state == m.entries[x].state
    ensures Told(n)
  {
    hide History, IsPath;
  }

  /** The worker's slot is given back. */
  function Release(m: Manager, id: Id): Manager {
    m.(running := if m.running > 0 then m.running - 1 else 0, executions := m.executions - {id})
  }

  /** What a settled execution makes of its job. */
  function Ending(s: JobState, ok: bool): JobState {
    if s == Cancelling then Cancelled else if ok then Completed else Failed
  }

  lemma ConcludeMoves(m: Manager, id: Id, ok: bool, now: int)
    requires Counted(m) && id in m.executions
    ensures id in m.entries && IsActive(m.entries[id].state)
    ensures Conclude(m, id, ok, now) == Move(m, id, Ending(m.entries[id].state, ok), now)
    ensures CanTransition(m.entries[id].state, Ending(m.entries[id].state, ok))
  {}

  lemma ConcludeCore(m: Manager, id: Id, ok: bool, now: int)
    requires Core(m) && id in m.executions
    ensures id in m.entries && Core(Release(Conclude(m, id, ok, now), id))
  {
    hide Signalled, Ordered, Told, Counted, Conclude, CanTransition;
    ConcludeMoves(m, id, ok, now);
    var next := Ending(m.entries[id].state, ok);
    var n := Release(Move(m, id, next, now), id);
    ConcludeCounted(m, id, next, now, n);
    OrderedStep(m, n, id);
    ToldMove(m, n, id, next);
  }

  lemma ConcludeCounted(m: Manager, id: Id, next: JobState, now: int, n: Manager)
    requires Counted(m) && Signalled(m) && id in m.executions && CanTransition(m.entries[id].state, next) && IsTerminal(next)
    requires next == Cancelled <==> m.entries[id].state == Cancelling
    requires n == Release(Move(m, id, next, now), id)
    ensures Counted(n) && Signalled(n)
  {
    assert n.executions.Keys == m.executions.Keys - {id};
    assert |n.executions| == |m.executions| - 1;
  }

  lemma CleanupCore(m: Manager, cutoff: int)
    requires Core(m)
    ensures Core(Cleanup(m, cutoff))
  {
    hide History, IsPath, Ordered, Told;
    var n := Cleanup(m, cutoff);
    OrderedStep(m, n, 0);
    hide Counted, Signalled;
    CleanupTold(m, n, cutoff);
  }

  lemma CleanupTold(m: Manager, n: Manager, cutoff: int)
    requires Told(m) && Ordered(m) && n == Cleanup(m, cutoff)
    ensures Told(n)
  {
    hide History, CanTransition, Ordered;
    assert forall id | id in m.entries :: id in m.submitted by { OrderedEntries(m); }
    forall id | id in m.submitted && id !in n.entries
      ensures IsTerminal(Last(History(n.events, id)))
    {
      assert id in m.entries ==> Last(History(m.events, id)) == m.entries[id].state;
    }
  }

  lemma OrderedEntries(m: Manager)
    requires Ordered(m)
    ensures forall id | id in m.entries :: id in m.submitted
  {}

  // ---- Every action of every run ----

  lemma WaitersCore(m: Manager, waiters: nat)
    requires Core(m)
    ensures Core(m.(waiters := waiters))
  {}

  lemma SubmitInvariant(m: Manager, id: Id, cancellable: bool, now: int)
    requires Invariant(m) && id !in m.submitted
    ensures Invariant(Submit(m, id, cancellable, now))
  {
    hide Core, Pump;
    if !m.disposed {
      EnqueueCore(m, id, cancellable);
      PumpInvariant(Enqueue(m, id, cancellable), now);
    }
  }

  lemma CancelInvariant(m: Manager, id: Id, now: int)
    requires Invariant(m)
    ensures Invariant(Cancel(m, id, now))
  {
    hide Core, Pump;
    if !m.disposed && id in m.entries && (m.entries[id].state == Queued || m.entries[id].state == Running) {
      CancelCore(m, id, now);
      if m.entries[id].state == Queued {
        PumpInvariant(Abort(Move(m, id, Cancelled, now), id), now);
      } else {
        MoveFrame(m, id, Cancelling, now);
      }
    }
  }

  lemma MoveFrame(m: Manager, id: Id, next: JobState, now: int)
    requires id in m.entries
    ensures var n := Abort(Move(m, id, next, now), id);
      && n.queue == m.queue && n.running == m.running && n.waiters == m.waiters && n.disposed == m.disposed
      && n.concurrency == m.concurrency
  {}

  lemma FinalizeInvariant(m: Manager, id: Id, now: int)
    requires Invariant(m) && id in m.executions && m.executions[id].Settled?
    ensures Invariant(Finalize(m, id, now))
  {
    hide Core, Pump;
    if m.disposed {
      var n := Release(m, id);
      assert Finalize(m, id, now) == Pump(n, now);
      assert |n.executions| == |m.executions| - 1 by {
        assert n.executions.Keys == m.executions.Keys - {id};
      }
      DisposedPump(n, now);
    } else {
      var ok := m.executions[id].ok;
      ConcludeCore(m, id, ok, now);
      PumpInvariant(Release(Conclude(m, id, ok, now), id), now);
    }
  }

  lemma DisposedPump(m: Manager, now: int)
    requires m.disposed
    ensures Pump(m, now) == m
  {}

  /** Every action keeps the invariant. */
  lemma ActionInvariant(m: Manager, a: Action)
    requires Invariant(m) && Enabled(m, a)
    ensures Invariant(Apply(m, a))
  {
    hide Core, Submit, Cancel, Finalize;
    match a
    case DoSubmit(id, cancellable, now) => SubmitInvariant(m, id, cancellable, now);
    case DoCancel(id, now) => CancelInvariant(m, id, now);
    case DoSettle(id, ok) =>
      if m.disposed {
        assert Settle(m, id, ok).executions.Keys == m.executions.Keys;
      } else {
        SettleCore(m, id, ok);
      }
    case DoFinalize(id, now) => FinalizeInvariant(m, id, now);
    case DoCleanup(cutoff) =>
      if !m.disposed {
        CleanupCore(m, cutoff);
      } else {
        assert Cleanup(m, cutoff).entries == map[];
      }
    case DoWhenIdle =>
      if !m.disposed {
        WaitersCore(m, m.waiters + 1);
      }
    case DoDispose =>
      if !m.disposed {
        CoreCounts(m);
      }
  }

  lemma CoreCounts(m: Manager)
    requires Core(m)
    ensures m.running == |m.executions| && m.faults == 0
  {}

  lemma StartInvariant(concurrency: nat)
    requires concurrency >= 1
    ensures Invariant(Start(concurrency))
  {}

  /** Every reachable state keeps the invariant. */
  lemma {:induction false} RunInvariant(m: Manager, actions: seq<Action>)
    requires Invariant(m) && IsRun(m, actions)
    ensures Invariant(Run(m, actions))
    decreases |actions|
  {
    hide Invariant, Apply, Enabled;
    if actions != [] {
      ActionInvariant(m, actions[0]);
      RunInvariant(Apply(m, actions[0]), actions[1..]);
    }
  }
}
