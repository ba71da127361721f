/**
 * The in-memory job queue. `Manager` is its state as a value, with the emitted state events and the
 * promises of running executors; each public call is one `Apply`. The class below keeps the same
 * state in fields and updates them the way the code does.
 */
module Jobs {
  import opened Text

  type Id = nat

  datatype JobState = Queued | Running | Completed | Failed | Cancelling | Cancelled

  predicate CanTransition(from: JobState, to: JobState) {
    match from
    case Queued => to == Running || to == Cancelled
    case Running => to == Completed || to == Failed || to == Cancelling
    case Cancelling => to == Cancelled
    case _ => false
  }

  predicate IsTerminal(s: JobState) { s == Completed || s == Failed || s == Cancelled }

  /** `settled` is `executionSettled`; `aborted` is the state of the abort signal. */
  datatype Entry = Entry(state: JobState, cancellable: bool, settled: bool, aborted: bool, endedAt: Option<int>)

  /** The promise of an execution that has not been released. */
  datatype Execution = Pending | Settled(ok: bool)

  datatype Event = Event(id: Id, state: JobState)

  datatype Manager = Manager(
    concurrency: nat,
    entries: map<Id, Entry>,
    queue: seq<Id>,
    running: nat,
    waiters: nat,
    disposed: bool,
    executions: map<Id, Execution>,
    events: seq<Event>,
    submitted: seq<Id>,
    faults: nat)

  datatype Reply = Ok(state: JobState) | NotFound | NotCancellable | AlreadyFinished | Disposed

  function Start(concurrency: nat): Manager {
    Manager(concurrency, map[], [], 0, 0, false, map[], [], [], 0)
  }

  /** `transition`: an illegal move raises, counted in `faults`. */
  function Move(m: Manager, id: Id, next: JobState, now: int): Manager
    requires id in m.entries
  {
    var e := m.entries[id];
    if !CanTransition(e.state, next) then m.(faults := m.faults + 1)
    else
      m.(entries := m.entries[id := e.(state := next, endedAt := if IsTerminal(next) then Some(now) else e.endedAt)],
         events := m.events + [Event(id, next)])
  }

  function Abort(m: Manager, id: Id): Manager
    requires id in m.entries
  {
    m.(entries := m.entries[id := m.entries[id].(aborted := true)])
  }

  function ResolveIdle(m: Manager): Manager {
    if !m.disposed && (m.queue != [] || m.running > 0) then m else m.(waiters := 0)
  }

  /** Starts the job at the head of the queue. */
  function Begin(m: Manager, id: Id, now: int): Manager
    requires id in m.entries
  {
    Move(m.(running := m.running + 1), id, Running, now).(executions := m.executions[id := Pending])
  }

  function Fill(m: Manager, now: int): Manager
    decreases |m.queue|
  {
    if m.running < m.concurrency && m.queue != [] then
      var id, rest := m.queue[0], m.(queue := m.queue[1..]);
      if id in m.entries && m.entries[id].state == Queued then Fill(Begin(rest, id, now), now) else Fill(rest, now)
    else m
  }

  function Pump(m: Manager, now: int): Manager {
    if m.disposed then m else ResolveIdle(Fill(m, now))
  }

  function Submit(m: Manager, id: Id, cancellable: bool, now: int): Manager {
    if m.disposed then m
    else
      Pump(m.(entries := m.entries[id := Entry(Queued, cancellable, false, false, None)],
              queue := m.queue + [id],
              events := m.events + [Event(id, Queued)],
              submitted := m.submitted + [id]), now)
  }

  function Cancel(m: Manager, id: Id, now: int): Manager {
    if id !in m.entries || !m.entries[id].cancellable || m.entries[id].settled then m
    else match m.entries[id].state
      case Queued => Pump(Abort(Move(m, id, Cancelled, now), id), now)
      case Running => Abort(Move(m, id, Cancelling, now), id)
      case _ => m
  }

  function CancelReply(m: Manager, id: Id, now: int): Reply {
    if id !in m.entries then NotFound
    else if !m.entries[id].cancellable then NotCancellable
    else if m.entries[id].state == Completed || m.entries[id].state == Failed then AlreadyFinished
    else if id in Cancel(m, id, now).entries then Ok(Cancel(m, id, now).entries[id].state)
    else NotFound
  }

  /** The executor's promise settles. */
  function Settle(m: Manager, id: Id, ok: bool): Manager {
    m.(executions := m.executions[id := Execution.Settled(ok)],
       entries := if id in m.entries then m.entries[id := m.entries[id].(settled := true)] else m.entries)
  }

  /** How a settled execution ends its job. */
  function Conclude(m: Manager, id: Id, ok: bool, now: int): Manager
    requires id in m.entries
  {
    if m.entries[id].state == Cancelling then Move(m, id, Cancelled, now)
    else if !ok then Move(m, id, Failed, now)
    else if m.entries[id].state == Running then Move(m, id, Completed, now)
    else m
  }

  /** `execute` goes on after its promise: the job ends, the worker is released, the queue is pumped. */
  function Finalize(m: Manager, id: Id, now: int): Manager
    requires id in m.executions && m.executions[id].Settled?
  {
    var ended := if !m.disposed && id in m.entries then Conclude(m, id, m.executions[id].ok, now) else m;
    Pump(ended.(running := if ended.running > 0 then ended.running - 1 else 0, executions := ended.executions - {id}), now)
  }

  predicate Expired(e: Entry, cutoff: int) { IsTerminal(e.state) && e.endedAt.Some? && e.endedAt.value <= cutoff }

  function Cleanup(m: Manager, cutoff: int): Manager {
    m.(entries := map id | id in m.entries && !Expired(m.entries[id], cutoff) :: m.entries[id])
  }

  function WhenIdle(m: Manager): Manager {
    if m.disposed || (m.queue == [] && m.running == 0) then m else m.(waiters := m.waiters + 1)
  }

  function Dispose(m: Manager): Manager {
    if m.disposed then m else m.(disposed := true, queue := [], entries := map[], waiters := 0)
  }

  datatype Action =
    | DoSubmit(id: Id, cancellable: bool, now: int)
    | DoCancel(id: Id, now: int)
    | DoSettle(id: Id, ok: bool)
    | DoFinalize(id: Id, now: int)
    | DoCleanup(cutoff: int)
    | DoWhenIdle
    | DoDispose

  /** Ids are fresh, and promises settle and go on once. */
  predicate Enabled(m: Manager, a: Action) {
    match a
    case DoSubmit(id, _, _) => id !in m.submitted
    case DoSettle(id, _) => id in m.executions && m.executions[id].Pending?
    case DoFinalize(id, _) => id in m.executions && m.executions[id].Settled?
    case _ => true
  }

  function Apply(m: Manager, a: Action): Manager
    requires Enabled(m, a)
  {
    match a
    case DoSubmit(id, cancellable, now) => Submit(m, id, cancellable, now)
    case DoCancel(id, now) => Cancel(m, id, now)
    case DoSettle(id, ok) => Settle(m, id, ok)
    case DoFinalize(id, now) => Finalize(m, id, now)
    case DoCleanup(cutoff) => Cleanup(m, cutoff)
    case DoWhenIdle => WhenIdle(m)
    case DoDispose => Dispose(m)
  }

  ghost predicate IsRun(m: Manager, actions: seq<Action>)
    decreases |actions|
  {
    actions == [] || (Enabled(m, actions[0]) && IsRun(Apply(m, actions[0]), actions[1..]))
  }

  ghost function Run(m: Manager, actions: seq<Action>): Manager
    requires IsRun(m, actions)
    decreases |actions|
  {
    if actions == [] then m else Run(Apply(m, actions[0]), actions[1..])
  }

  // ---- The class ----

  class JobManager {
    const concurrency: nat
    var entries: map<Id, Entry>
    var queue: seq<Id>
    var runningCount: nat
    var idleWaiters: nat
    var disposed: bool
    ghost var executions: map<Id, Execution>
    ghost var events: seq<Event>
    ghost var submitted: seq<Id>
    ghost var faults: nat

    ghost function View(): Manager
      reads this
    {
      Manager(concurrency, entries, queue, runningCount, idleWaiters, disposed, executions, events, submitted, faults)
    }

    constructor (concurrency: nat)
      requires concurrency >= 1
      ensures View() == Start(concurrency)
    {
      this.concurrency := concurrency;
      entries, queue, runningCount, idleWaiters, disposed := map[], [], 0, 0, false;
      executions, events, submitted, faults := map[], [], [], 0;
    }

    method Transition(id: Id, next: JobState, now: int)
      requires id in entries
      modifies this
      ensures View() == Move(old(View()), id, next, now)
    {
      var entry := entries[id];
      if CanTransition(entry.state, next) {
        entry := entry.(state := next);
        if IsTerminal(next) {
          entry := entry.(endedAt := Some(now));
        }
        entries := entries[id := entry];
        events := events + [Event(id, next)];
      } else {
        faults := faults + 1;
      }
    }

    method SignalAbort(id: Id)
      requires id in entries
      modifies this
      ensures View() == Abort(old(View()), id)
    {
      entries := entries[id := entries[id].(aborted := true)];
    }

    method ResolveIdleWaiters()
      modifies this
      ensures View() == ResolveIdle(old(View()))
    {
      if !disposed && (|queue| > 0 || runningCount > 0) {
        return;
      }
      idleWaiters := 0;
    }

    method PumpQueue(now: int)
      modifies this
      ensures View() == Pump(old(View()), now)
    {
      if disposed {
        return;
      }
      while runningCount < concurrency && |queue| > 0
        invariant !disposed
        invariant Fill(View(), now) == Fill(old(View()), now)
        decreases |queue|
      {
        var id := queue[0];
        queue := queue[1..];
        if id in entries && entries[id].state == Queued {
          ghost var before := View();
          runningCount := runningCount + 1;
          Transition(id, Running, now);
          executions := executions[id := Pending];
          assert View() == Begin(before, id, now);
        }
      }
      ResolveIdleWaiters();
    }

    method SubmitJob(id: Id, cancellable: bool, now: int) returns (accepted: bool)
      requires id !in submitted
      modifies this
      ensures accepted <==> !old(disposed)
      ensures View() == Apply(old(View()), DoSubmit(id, cancellable, now))
    {
      if disposed {
        return false;
      }
      entries := entries[id := Entry(Queued, cancellable, false, false, None)];
      queue := queue + [id];
      events := events + [Event(id, Queued)];
      submitted := submitted + [id];
      PumpQueue(now);
      return true;
    }

    method CancelJob(id: Id, now: int) returns (reply: Reply)
      modifies this
      ensures View() == Apply(old(View()), DoCancel(id, now))
      ensures reply == CancelReply(old(View()), id, now)
    {
      if id !in entries {
        return NotFound;
      }
      var entry := entries[id];
      if !entry.cancellable {
        return NotCancellable;
      }
      if entry.state == Cancelled {
        return Ok(Cancelled);
      }
      if entry.state == Completed || entry.state == Failed {
        return AlreadyFinished;
      }
      if entry.settled {
        return Ok(entry.state);
      }
      if entry.state == Queued {
        Transition(id, Cancelled, now);
        SignalAbort(id);
        PumpKeeps(View(), now);
        PumpQueue(now);
        return Ok(entries[id].state);
      }
      if entry.state == Running {
        Transition(id, Cancelling, now);
        SignalAbort(id);
      }
      return Ok(entries[id].state);
    }

    method SettleExecution(id: Id, ok: bool)
      requires id in executions && executions[id].Pending?
      modifies this
      ensures View() == Apply(old(View()), DoSettle(id, ok))
    {
      executions := executions[id := Execution.Settled(ok)];
      if id in entries {
        entries := entries[id := entries[id].(settled := true)];
      }
    }

    method FinalizeExecution(id: Id, ok: bool, now: int)
      requires id in executions && executions[id] == Execution.Settled(ok)
      modifies this
      ensures View() == Apply(old(View()), DoFinalize(id, now))
    {
      if !disposed && id in entries {
        if entries[id].state == Cancelling {
          Transition(id, Cancelled, now);
        } else if !ok {
          Transition(id, Failed, now);
        } else if entries[id].state == Running {
          Transition(id, Completed, now);
        }
      }
      runningCount := if runningCount > 0 then runningCount - 1 else 0;
      executions := executions - {id};
      PumpQueue(now);
    }

    method CleanupJobs(now: int, retentionMs: nat) returns (removed: nat)
      modifies this
      ensures View() == Apply(old(View()), DoCleanup(now - retentionMs))
      ensures removed == |old(entries)| - |entries|
    {
      var cutoff := now - retentionMs;
      removed := 0;
      var rest := entries.Keys;
      while rest != {}
        invariant View().(entries := old(entries)) == old(View())
        invariant rest <= old(entries).Keys
        invariant forall id | id in rest :: id in entries
        invariant forall id | id in entries :: id in old(entries) && entries[id] == old(entries)[id]
        invariant forall id | id in old(entries) && id !in rest :: id in entries <==> !Expired(old(entries)[id], cutoff)
        invariant removed == |old(entries)| - |entries|
        decreases rest
      {
        var id :| id in rest;
        rest := rest - {id};
        if Expired(entries[id], cutoff) {
          assert (entries - {id}).Keys == entries.Keys - {id};
          entries := entries - {id};
          removed := removed + 1;
        }
      }
    }

    method AwaitIdle() returns (immediate: bool)
      modifies this
      ensures View() == Apply(old(View()), DoWhenIdle)
      ensures immediate <==> old(disposed || (queue == [] && runningCount == 0))
    {
      if disposed || (|queue| == 0 && runningCount == 0) {
        return true;
      }
      idleWaiters := idleWaiters + 1;
      return false;
    }

    method DisposeAll()
      modifies this
      ensures View() == Apply(old(View()), DoDispose)
    {
      if disposed {
        return;
      }
      disposed := true;
      queue := [];
      entries := map[];
      ResolveIdleWaiters();
    }
  }

  /** Pumping keeps every entry. */
  lemma {:induction false} PumpKeeps(m: Manager, now: int)
    ensures Fill(m, now).entries.Keys == m.entries.Keys && Pump(m, now).entries.Keys == m.entries.Keys
    decreases |m.queue|
  {
    if m.running < m.concurrency && m.queue != [] {
      var id, rest := m.queue[0], m.(queue := m.queue[1..]);
      if id in m.entries && m.entries[id].state == Queued {
        PumpKeeps(Begin(rest, id, now), now);
      } else {
        PumpKeeps(rest, now);
      }
    }
  }
}
