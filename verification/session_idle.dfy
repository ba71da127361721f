/** What keeps a session alive: use within the idle timeout, and nothing that ends it. */
module SessionIdle {
  import opened Text
  import opened Sessions
  import opened SessionProtocol

  /** `k` holds `h` and was used at `since` or later. */
  ghost predicate AliveSince(s: System, h: Handle, k: Key, since: int) {
    HeldBy(s, h, k) && s.registry.states[k].lastActivityAt >= since
  }

  /** The step leaves a session used at `since` or later alone. */
  predicate Spares(step: Step, k: Key, since: int) {
    match step
    case UserDisconnect(x, _) => x != k
    case Reconnect(x, _) => x != k
    case SessionError(x) => x != k
    case Close(scope, _) => !InScope(k, scope)
    case Sweep(at, threshold) => at - since < threshold
    case Activity(x, now) => x == k ==> now >= since
    case _ => true
  }

  lemma {:induction false} DropKeysSpare(s: System, ks: seq<Key>, reason: Reason, at: int, k: Key)
    requires (forall x | x in ks :: x in s.registry.states) && k in s.registry.states && k !in ks
    ensures var n := DropKeys(s, ks, reason, at);
      k in n.registry.states && n.registry.states[k] == s.registry.states[k]
    decreases |ks|
  {
    if ks != [] {
      assert ks[0] in ks;
      assert forall x | x in ks[1..] :: x in ks;
      DropKeysSpare(DropKey(s, ks[0], reason, at), ks[1..], reason, at, k);
    }
  }

  predicate DropsKeys(step: Step) { step.UserDisconnect? || step.Reconnect? || step.Sweep? || step.Close? }

  lemma {:induction false} DropsAlive(s: System, step: Step, h: Handle, k: Key, since: int)
    requires Invariant(s) && DropsKeys(step) && AliveSince(s, h, k, since) && Spares(step, k, since)
    ensures AliveSince(Apply(s, step), h, k, since)
  {
    hide FlightsMatch, HoldsMatch, ClosesMatch, Distinct, DropKeys;
    match step
    case UserDisconnect(x, at) => DropKeysSpare(s, Known(s, [x]), NoReason, at, k);
    case Reconnect(x, at) => DropKeysSpare(s, Known(s, [x]), NoReason, at, k);
    case Sweep(at, threshold) =>
      DropKeysSpare(s, IdleKeys(s.registry, Known(s, s.registry.order), at, threshold), IdleClosed, at, k);
    case Close(scope, at) => DropKeysSpare(s, ScopeKeys(Known(s, s.registry.order), scope), NoReason, at, k);
  }

  lemma {:induction false} StepAlive(s: System, step: Step, h: Handle, k: Key, since: int)
    requires Invariant(s) && Enabled(s, step) && AliveSince(s, h, k, since) && Spares(step, k, since)
    ensures AliveSince(Apply(s, step), h, k, since)
  {
    hide FlightsMatch, HoldsMatch, ClosesMatch, Distinct, DropKeys;
    if DropsKeys(step) {
      hide Apply, AliveSince;
      DropsAlive(s, step, h, k, since);
    }
  }

  lemma {:induction false} RunAlive(s: System, steps: seq<Step>, h: Handle, k: Key, since: int)
    requires Invariant(s) && IsRun(s, steps) && AliveSince(s, h, k, since)
    requires forall step | step in steps :: Spares(step, k, since)
    ensures AliveSince(Run(s, steps), h, k, since)
    decreases |steps|
  {
    hide Invariant, Apply, Enabled, AliveSince, Spares;
    if steps != [] {
      StepInvariant(s, steps[0]);
      StepAlive(s, steps[0], h, k, since);
      RunAlive(Apply(s, steps[0]), steps[1..], h, k, since);
    }
  }

  lemma {:induction false} UsedAlive(s: System, h: Handle, k: Key, now: int)
    requires Invariant(s) && HeldBy(s, h, k)
    ensures AliveSince(Apply(s, Activity(k, now)), h, k, now)
  {
    hide Tokens, FlightsMatch, HoldsMatch, ClosesMatch;
  }

  /**
   * A session that was used at `now` keeps its handle through any other steps, as long as its key is not
   * disconnected, reconnected, failed or closed and no sweep comes a whole timeout after `now`.
   */
  lemma {:induction false} UsedSessionStays(before: seq<Step>, now: int, after: seq<Step>, h: Handle, k: Key)
    requires IsRun(INITIAL, before) && HeldBy(Run(INITIAL, before), h, k)
    requires IsRun(Apply(Run(INITIAL, before), Activity(k, now)), after) && forall step | step in after :: Spares(step, k, now)
    ensures HeldBy(Run(Apply(Run(INITIAL, before), Activity(k, now)), after), h, k)
  {
    InitialInvariant();
    RunInvariant(INITIAL, before);
    var s := Run(INITIAL, before);
    UsedAlive(s, h, k, now);
    StepInvariant(s, Activity(k, now));
    RunAlive(Apply(s, Activity(k, now)), after, h, k, now);
    hide Run, IsRun, Apply;
  }

  /** The first sweep a whole timeout after the last use closes the session, and says why. */
  lemma {:induction false} IdleSessionIsSwept(before: seq<Step>, now: int, at: int, threshold: int, h: Handle, k: Key)
    requires IsRun(INITIAL, before) && HeldBy(Run(INITIAL, before), h, k)
    ensures var used := Apply(Run(INITIAL, before), Activity(k, now));
      var swept := Apply(used, Sweep(at, threshold));
      if at - now < threshold then HeldBy(swept, h, k)
      else
        && k in swept.registry.states && swept.registry.states[k].status == Disconnected
        && swept.registry.states[k].reason == IdleClosed && swept.registry.states[k].session == None
        && h in swept.places && swept.places[h] == Closed
  {
    InitialInvariant();
    RunInvariant(INITIAL, before);
    var s := Run(INITIAL, before);
    hide Run, IsRun;
    UsedAlive(s, h, k, now);
    StepInvariant(s, Activity(k, now));
    var used := Apply(s, Activity(k, now));
    hide Invariant;
    if at - now < threshold {
      StepAlive(used, Sweep(at, threshold), h, k, now);
    } else {
      SweptIdle(used, at, threshold, h, k);
      UsedAt(s, h, k, now);
    }
  }

  lemma {:induction false} UsedAt(s: System, h: Handle, k: Key, now: int)
    requires Invariant(s) && HeldBy(s, h, k)
    ensures var used := Apply(s, Activity(k, now));
      && k in used.registry.states && used.registry.states[k].status == Connected && used.registry.states[k].lastActivityAt == now
      && HeldBy(used, h, k)
  {
    hide Tokens, FlightsMatch, HoldsMatch, ClosesMatch;
  }

  lemma {:induction false} SweptIdle(s: System, at: int, threshold: int, h: Handle, k: Key)
    requires Invariant(s) && HeldBy(s, h, k)
    ensures var n := Apply(s, Sweep(at, threshold));
      s.registry.states[k].status == Connected && at - s.registry.states[k].lastActivityAt >= threshold ==>
        && k in n.registry.states && n.registry.states[k].status == Disconnected
        && n.registry.states[k].reason == IdleClosed && n.registry.states[k].session == None
        && h in n.places && n.places[h] == Closed
  {
    var idle := IdleKeys(s.registry, Known(s, s.registry.order), at, threshold);
    if k in idle {
      DropsKey(s, idle, IdleClosed, at, h, k);
    }
    hide FlightsMatch, HoldsMatch, ClosesMatch, DropKeys;
  }

  lemma {:induction false} DropsKey(s: System, ks: seq<Key>, reason: Reason, at: int, h: Handle, k: Key)
    requires (forall x | x in ks :: x in s.registry.states) && k in ks && HeldBy(s, h, k) && HoldsMatch(s) && FlightsMatch(s)
    ensures var n := DropKeys(s, ks, reason, at);
      && k in n.registry.states && n.registry.states[k].status == Disconnected && n.registry.states[k].reason == reason
      && n.registry.states[k].session == None && h in n.places && n.places[h] == Closed
    decreases |ks|
  {
    var next := DropKey(s, ks[0], reason, at);
    DropKeyPlaces(s, ks[0], reason, at);
    assert forall x | x in ks[1..] :: x in ks;
    if ks[0] == k {
      DropKeysDropped(next, ks[1..], reason, at, h, k);
    } else {
      assert k in ks[1..];
      DropsKey(next, ks[1..], reason, at, h, k);
    }
  }

  lemma {:induction false} DropKeysDropped(s: System, ks: seq<Key>, reason: Reason, at: int, h: Handle, k: Key)
    requires (forall x | x in ks :: x in s.registry.states) && k in s.registry.states && h in s.places && s.places[h] == Closed
    requires s.registry.states[k].status == Disconnected && s.registry.states[k].reason == reason && s.registry.states[k].session == None
    ensures var n := DropKeys(s, ks, reason, at);
      && k in n.registry.states && n.registry.states[k].status == Disconnected && n.registry.states[k].reason == reason
      && n.registry.states[k].session == None && h in n.places && n.places[h] == Closed
    decreases |ks|
  {
    if ks != [] {
      assert ks[0] in ks;
      assert forall x | x in ks[1..] :: x in ks;
      DropKeysDropped(DropKey(s, ks[0], reason, at), ks[1..], reason, at, h, k);
    }
  }
}
