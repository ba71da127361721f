/** What each step does to the key it is about, as its owner sees it. */
module SessionEffects {
  import opened Text
  import opened Sessions
  import opened SessionProtocol
  import opened SessionIdle

  /** All keys but `k` are as they were. */
  ghost predicate OthersSame(s: System, n: System, k: Key) {
    forall x | x != k :: (x in n.registry.states <==> x in s.registry.states)
                         && (x in s.registry.states ==> n.registry.states[x] == s.registry.states[x])
  }

  predicate IsBusy(s: System, k: Key) {
    k in s.registry.states && (s.registry.states[k].status == Connected || s.registry.states[k].status == Connecting)
  }

  // ---- Connecting ----

  /** A key that is connected or connecting cannot be connected again; any other gets one new attempt. */
  lemma {:induction false} ConnectExactly(s: System, k: Key, now: int)
    ensures var n := Apply(s, Connect(k, now));
      if IsBusy(s, k) then n == s
      else
        && k in n.registry.states
        && n.registry.states[k] == State(Connecting, None, s.registry.nextToken, now, NoReason)
        && n.attempts == s.attempts[s.registry.nextToken := Attempt(k, Opening)]
        && n.registry.nextToken > s.registry.nextToken && n.places == s.places && OthersSame(s, n, k)
  {}

  /** A delivered session that is installed counts as used when it is installed. */
  lemma {:induction false} InstalledIsUsed(s: System, t: nat, now: int)
    requires t in s.attempts && s.attempts[t].phase.Opened? && Stands(s.registry, s.attempts[t].key, t)
    ensures var k, h, n := s.attempts[t].key, s.attempts[t].phase.handle, Apply(s, Deliver(t, now, false));
      && AliveSince(n, h, k, now) && n.registry.states[k].status == Connected && n.registry.states[k].reason == NoReason
      && n.registry.states[k].lastActivityAt == now && t !in n.attempts && OthersSame(s, n, k)
  {}

  /** A provider that breaks leaves its attempt to fail, and closes what it had opened. */
  lemma {:induction false} BreakingFails(s: System, t: nat)
    requires Enabled(s, ProviderBreaks(t))
    ensures var n := Apply(s, ProviderBreaks(t));
      && t in n.attempts && n.attempts[t] == Attempt(s.attempts[t].key, Failing) && n.registry.states == s.registry.states
      && (forall u | u != t :: (u in n.attempts <==> u in s.attempts) && (u in s.attempts ==> n.attempts[u] == s.attempts[u]))
      && match s.attempts[t].phase
         case Opened(h) => h in n.places && n.places[h] == Closed && n.registry.closed == s.registry.closed + [h]
         case _ => n.places == s.places && n.registry.closed == s.registry.closed
  {}

  /** A failed attempt is over; its key shows the error if and only if the attempt was still its own. */
  lemma {:induction false} FailedAttemptEnds(s: System, t: nat)
    requires Invariant(s) && Enabled(s, AttemptFails(t))
    ensures var k, n := s.attempts[t].key, Apply(s, AttemptFails(t));
      && t !in n.attempts && n.places == s.places && OthersSame(s, n, k) && k in s.registry.states && k in n.registry.states
      && (if s.registry.states[k].token == t then n.registry.states[k] == s.registry.states[k].(status := Error, session := None, reason := NoReason)
          else n.registry.states[k] == s.registry.states[k])
  {
    FailDropsNothing(s, t);
    hide HoldsMatch, FlightsMatch, ClosesMatch, Distinct;
  }

  // ---- Reconnecting and closing ----

  /** A reconnect ends a connected session, like a disconnect, and does nothing to any other key. */
  lemma {:induction false} ReconnectExactly(s: System, k: Key, at: int)
    ensures Apply(s, Reconnect(k, at))
         == if k in s.registry.states && s.registry.states[k].status == Connected then Apply(s, UserDisconnect(k, at)) else s
  {}

  lemma {:induction false} DropKeysState(s: System, ks: seq<Key>, reason: Reason, at: int, k: Key)
    requires (forall x | x in ks :: x in s.registry.states) && k in s.registry.states
    ensures var n := DropKeys(s, ks, reason, at);
      && k in n.registry.states
      && (k !in ks ==> n.registry.states[k] == s.registry.states[k])
      && (k in ks ==> n.registry.states[k].status == Disconnected && n.registry.states[k].session == None
                      && n.registry.states[k].reason == reason && n.registry.states[k].lastActivityAt == at)
    decreases |ks|
  {
    if ks != [] {
      assert ks[0] in ks;
      assert forall x :: x in ks <==> x == ks[0] || x in ks[1..];
      DropKeysState(DropKey(s, ks[0], reason, at), ks[1..], reason, at, k);
    }
  }

  /** The keys a bulk close is about. */
  predicate IsMeant(k: Key, scope: Scope) {
    scope == ForUser(k.user) || scope == ForConnection(k.connection) || scope == Everything
  }

  /** A bulk close disconnects every key of its user or connection, and no other. */
  lemma {:induction false} CloseExactly(s: System, scope: Scope, at: int, k: Key)
    requires Invariant(s) && k in s.registry.states
    ensures var n := Apply(s, Close(scope, at));
      && k in n.registry.states
      && (if IsMeant(k, scope) then n.registry.states[k].status == Disconnected && n.registry.states[k].session == None
          else n.registry.states[k] == s.registry.states[k])
  {
    DropKeysState(s, ScopeKeys(Known(s, s.registry.order), scope), NoReason, at, k);
    hide HoldsMatch, FlightsMatch, ClosesMatch, DropKeys, Distinct;
  }

  // ---- Reasons ----

  /** Only a key that a sweep disconnected shows that it was closed for being idle. */
  ghost predicate ReasonsFit(s: System) {
    forall k | k in s.registry.states :: s.registry.states[k].reason == IdleClosed ==> s.registry.states[k].status == Disconnected
  }

  lemma {:induction false} DropKeysReasons(s: System, ks: seq<Key>, reason: Reason, at: int)
    requires (forall x | x in ks :: x in s.registry.states) && ReasonsFit(s)
    ensures ReasonsFit(DropKeys(s, ks, reason, at))
    decreases |ks|
  {
    if ks != [] {
      assert forall x | x in ks[1..] :: x in ks;
      DropKeysReasons(DropKey(s, ks[0], reason, at), ks[1..], reason, at);
    }
  }

  lemma {:induction false} StepReasons(s: System, step: Step)
    requires Enabled(s, step) && ReasonsFit(s)
    ensures ReasonsFit(Apply(s, step))
  {
    hide DropKeys;
    match step
    case UserDisconnect(x, at) => DropKeysReasons(s, Known(s, [x]), NoReason, at);
    case Reconnect(x, at) => DropKeysReasons(s, Known(s, [x]), NoReason, at);
    case Sweep(at, threshold) =>
      DropKeysReasons(s, IdleKeys(s.registry, Known(s, s.registry.order), at, threshold), IdleClosed, at);
    case Close(scope, at) => DropKeysReasons(s, ScopeKeys(Known(s, s.registry.order), scope), NoReason, at);
    case _ =>
  }

  lemma {:induction false} RunReasons(s: System, steps: seq<Step>)
    requires IsRun(s, steps) && ReasonsFit(s)
    ensures ReasonsFit(Run(s, steps))
    decreases |steps|
  {
    hide Apply, Enabled, ReasonsFit;
    if steps != [] {
      StepReasons(s, steps[0]);
      RunReasons(Apply(s, steps[0]), steps[1..]);
    }
  }

  /** In every run, a key that shows an idle close is disconnected. */
  lemma {:induction false} IdleReasonsFit(steps: seq<Step>)
    requires IsRun(INITIAL, steps)
    ensures ReasonsFit(Run(INITIAL, steps))
  {
    RunReasons(INITIAL, steps);
  }
}
