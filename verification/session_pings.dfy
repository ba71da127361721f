/**
 * Status requests ping the session of a key and mark the key as failed when the ping fails, without
 * saying which session they pinged. What a failure ends that arrives late.
 */
module SessionPings {
  import opened Sessions
  import opened SessionProtocol

  ghost predicate HeldOrClosed(s: System, h: Handle, k: Key) {
    h in s.places && (s.places[h] == Held(k) || s.places[h] == Closed)
  }

  lemma {:induction false} DropKeysHeldOrClosed(s: System, ks: seq<Key>, reason: Reason, at: int, h: Handle, k: Key)
    requires HoldsMatch(s) && FlightsMatch(s) && HeldOrClosed(s, h, k) && forall x | x in ks :: x in s.registry.states
    ensures HeldOrClosed(DropKeys(s, ks, reason, at), h, k)
    decreases |ks|
  {
    if ks != [] {
      DropKeyPlaces(s, ks[0], reason, at);
      DropKeysHeldOrClosed(DropKey(s, ks[0], reason, at), ks[1..], reason, at, h, k);
    }
  }

  /** A held handle stays with its key until it is closed, and a closed one stays closed. */
  lemma StepHeldOrClosed(s: System, step: Step, h: Handle, k: Key)
    requires Invariant(s) && Enabled(s, step) && HeldOrClosed(s, h, k)
    ensures HeldOrClosed(Apply(s, step), h, k)
  {
    hide Tokens, Sessioned, ClosesMatch, DropKeys;
    match step
    case UserDisconnect(x, at) => DropKeysHeldOrClosed(s, Known(s, [x]), NoReason, at, h, k);
    case Reconnect(x, at) => DropKeysHeldOrClosed(s, Known(s, [x]), NoReason, at, h, k);
    case Sweep(at, threshold) =>
      DropKeysHeldOrClosed(s, IdleKeys(s.registry, Known(s, s.registry.order), at, threshold), IdleClosed, at, h, k);
    case Close(scope, at) => DropKeysHeldOrClosed(s, ScopeKeys(Known(s, s.registry.order), scope), NoReason, at, h, k);
    case AttemptFails(t) => FailDropsNothing(s, t);
    case Deliver(t, _, _) => FlightOf(s, t);
    case _ =>
  }

  lemma {:induction false} RunHeldOrClosed(s: System, steps: seq<Step>, h: Handle, k: Key)
    requires Invariant(s) && IsRun(s, steps) && HeldOrClosed(s, h, k)
    ensures Invariant(Run(s, steps)) && HeldOrClosed(Run(s, steps), h, k)
    decreases |steps|
  {
    hide Invariant, Apply, Enabled, HeldOrClosed;
    if steps != [] {
      StepInvariant(s, steps[0]);
      StepHeldOrClosed(s, steps[0], h, k);
      RunHeldOrClosed(Apply(s, steps[0]), steps[1..], h, k);
    }
  }

  /** The session of `k` is another one than `h`, and the failure closes it. */
  ghost predicate ClosesAnother(n: System, h: Handle, k: Key) {
    exists g :: g != h && HeldBy(n, g, k) && g in Apply(n, SessionError(k)).places && Apply(n, SessionError(k)).places[g] == Closed
  }

  /** A running attempt for `k` could still be installed, and no longer can after the failure. */
  ghost predicate EndsAttempt(n: System, k: Key) {
    exists t :: Current(n, t, k) && !Current(Apply(n, SessionError(k)), t, k)
  }

  lemma FailureEnds(n: System, k: Key, h: Handle)
    requires Invariant(n) && HeldOrClosed(n, h, k)
    ensures HeldBy(n, h, k) <==> n.places[h] != Closed
    ensures ClosesAnother(n, h, k) <==> !HeldBy(n, h, k) && IsConnected(n, k)
    ensures EndsAttempt(n, k) <==> k in n.registry.states && n.registry.states[k].status == Connecting
  {
    hide Distinct;
    if k in n.registry.states {
      var state := n.registry.states[k];
      if state.session.Some? {
        var g := state.session.value;
        assert HeldBy(n, g, k);
        assert Apply(n, SessionError(k)).places[g] == Closed;
      }
      if state.status == Connecting {
        assert Current(n, state.token, k);
        assert !Current(Apply(n, SessionError(k)), state.token, k);
      }
    }
  }

  /**
   * A ping of `h` begins while `h` is the session of `k`, and fails after any other steps. By then `h`
   * is still the session of `k`, or it is closed. In the first case the failure closes `h` and ends
   * nothing else; it closes a session that was never pinged, or ends an attempt to connect, if and only
   * if `h` is closed and the key is connected or connecting again. No other handle changes its place.
   */
  lemma LatePingFailure(before: seq<Step>, during: seq<Step>, k: Key, h: Handle)
    requires IsRun(INITIAL, before) && HeldBy(Run(INITIAL, before), h, k) && IsRun(Run(INITIAL, before), during)
    ensures var n := Run(Run(INITIAL, before), during);
      var d := Apply(n, SessionError(k));
      && h in n.places && (HeldBy(n, h, k) <==> n.places[h] != Closed)
      && h in d.places && d.places[h] == Closed
      && (ClosesAnother(n, h, k) <==> n.places[h] == Closed && k in n.registry.states && n.registry.states[k].status == Connected)
      && (EndsAttempt(n, k) <==> n.places[h] == Closed && k in n.registry.states && n.registry.states[k].status == Connecting)
      && (forall g | g in n.places && !HeldBy(n, g, k) :: g in d.places && d.places[g] == n.places[g])
  {
    hide Run, IsRun;
    InitialInvariant();
    RunInvariant(INITIAL, before);
    var s := Run(INITIAL, before);
    assert HeldOrClosed(s, h, k) by { hide Tokens; }
    RunHeldOrClosed(s, during, h, k);
    var n := Run(s, during);
    FailureEnds(n, k, h);
    hide Tokens, FlightsMatch, ClosesMatch, ClosesAnother, EndsAttempt;
  }

  /** Connect, ping, reconnect; the ping of the closed session then fails and closes the new session. */
  lemma OldPingClosesNewSession(k: Key, g: Handle, h: Handle)
    requires g != h
    ensures var before := [Connect(k, 0), ProviderOpens(1, h), Deliver(1, 0, false)];
      var during := [Reconnect(k, 0), Connect(k, 0), ProviderOpens(3, g), Deliver(3, 0, false)];
      && IsRun(INITIAL, before) && HeldBy(Run(INITIAL, before), h, k)
      && IsRun(Run(INITIAL, before), during)
      && var n := Run(Run(INITIAL, before), during);
      HeldBy(n, g, k) && IsConnected(n, k) && Apply(n, SessionError(k)).places == map[h := Closed, g := Closed]
  {
    var before := [Connect(k, 0), ProviderOpens(1, h), Deliver(1, 0, false)];
    assert before[1..][1..][1..] == [];
    var s1 := Apply(INITIAL, before[0]);
    var s2 := Apply(s1, before[1]);
    assert Stands(s2.registry, k, 1);
    var s3 := Apply(s2, before[2]);
    Three(INITIAL, before);
    assert HeldBy(s3, h, k) && s3.places == map[h := Held(k)] && s3.registry.nextToken == 2;
    Replaced(s3, k, g, h);
  }

  lemma Three(s: System, steps: seq<Step>)
    requires |steps| == 3 && Enabled(s, steps[0]) && Enabled(Apply(s, steps[0]), steps[1])
    requires Enabled(Apply(Apply(s, steps[0]), steps[1]), steps[2])
    ensures IsRun(s, steps) && Run(s, steps) == Apply(Apply(Apply(s, steps[0]), steps[1]), steps[2])
  {
    hide Apply, Enabled;
    var s1 := Apply(s, steps[0]);
    var s2 := Apply(s1, steps[1]);
    var s3 := Apply(s2, steps[2]);
    assert steps[1..][1..][1..] == [];
    assert IsRun(s3, []) && Run(s3, []) == s3;
    assert IsRun(s2, steps[1..][1..]) && Run(s2, steps[1..][1..]) == s3;
    assert IsRun(s1, steps[1..]) && Run(s1, steps[1..]) == s3;
  }

  lemma DropKeysOne(s: System, k: Key, reason: Reason, at: int)
    requires k in s.registry.states
    ensures DropKeys(s, [k], reason, at) == DropKey(s, k, reason, at)
  {
    assert [k][1..] == [];
  }

  /** A new session in a state where nothing is held or running. */
  lemma Renewed(s: System, k: Key, g: Handle, h: Handle)
    requires g != h && s.places == map[h := Closed] && s.attempts == map[] && s.registry.nextToken == 3
    requires k in s.registry.states && s.registry.states[k].status == Disconnected
    ensures var steps := [Connect(k, 0), ProviderOpens(3, g), Deliver(3, 0, false)];
      && IsRun(s, steps)
      && var n := Run(s, steps);
      HeldBy(n, g, k) && IsConnected(n, k) && Apply(n, SessionError(k)).places == map[h := Closed, g := Closed]
  {
    var steps := [Connect(k, 0), ProviderOpens(3, g), Deliver(3, 0, false)];
    var s2 := Apply(Apply(s, steps[0]), steps[1]);
    assert Stands(s2.registry, k, 3);
    Three(s, steps);
  }

  lemma Replaced(s: System, k: Key, g: Handle, h: Handle)
    requires g != h && HeldBy(s, h, k) && IsConnected(s, k)
    requires s.places == map[h := Held(k)] && s.attempts == map[] && s.registry.nextToken == 2
    ensures var during := [Reconnect(k, 0), Connect(k, 0), ProviderOpens(3, g), Deliver(3, 0, false)];
      && IsRun(s, during)
      && var n := Run(s, during);
      HeldBy(n, g, k) && IsConnected(n, k) && Apply(n, SessionError(k)).places == map[h := Closed, g := Closed]
  {
    var during := [Reconnect(k, 0), Connect(k, 0), ProviderOpens(3, g), Deliver(3, 0, false)];
    assert during[1..] == [Connect(k, 0), ProviderOpens(3, g), Deliver(3, 0, false)];
    KnownOne(s, k);
    var s1 := Apply(s, during[0]);
    assert s1 == DropKey(s, k, NoReason, 0) by {
      DropKeysOne(s, k, NoReason, 0);
    }
    Renewed(s1, k, g, h);
  }
}
