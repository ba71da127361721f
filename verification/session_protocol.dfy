/**
 * Connect, disconnect and reconnect as interleaved steps over the registry. An attempt is named by
 * the token of its reservation; `places` says where each opened database handle is.
 */
module SessionProtocol {
  import opened Text
  import opened Sessions

  /** `Opened` waits for `complete`, `Failing` for `fail`. */
  datatype Phase = Opening | Opened(handle: Handle) | Failing

  datatype Attempt = Attempt(key: Key, phase: Phase)

  /** `Lost` handles are neither held nor closed by anyone. */
  datatype Place = InFlight(token: nat) | Held(key: Key) | Closed | Lost

  datatype System = System(registry: Registry, attempts: map<nat, Attempt>, places: map<Handle, Place>)

  const INITIAL := System(EMPTY, map[], map[])

  datatype Step =
    | Connect(key: Key, now: int)
    | ProviderOpens(token: nat, handle: Handle)
    | ProviderBreaks(token: nat)
    | AttemptFails(token: nat)
    | Deliver(token: nat, now: int, auditThrows: bool)
    | UserDisconnect(key: Key, at: int)
    | Reconnect(key: Key, at: int)
    | SessionError(key: Key)
    | Activity(key: Key, now: int)
    | Sweep(at: int, threshold: int)
    | Close(scope: Scope, at: int)

  predicate Enabled(s: System, step: Step) {
    match step
    case ProviderOpens(t, h) => t in s.attempts && s.attempts[t].phase.Opening? && h !in s.places
    case ProviderBreaks(t) => t in s.attempts && !s.attempts[t].phase.Failing?
    case AttemptFails(t) => t in s.attempts && s.attempts[t].phase.Failing?
    case Deliver(t, _, _) => t in s.attempts && s.attempts[t].phase.Opened?
    case _ => true
  }

  /** Drops one key; its handle is closed. */
  function DropKey(s: System, k: Key, reason: Reason, at: int): System
    requires k in s.registry.states
  {
    s.(registry := Drop(s.registry, k, reason, at),
       places := match s.registry.states[k].session case Some(h) => s.places[h := Closed] case None => s.places)
  }

  function DropKeys(s: System, ks: seq<Key>, reason: Reason, at: int): System
    requires forall k | k in ks :: k in s.registry.states
    decreases |ks|
  {
    if ks == [] then s else DropKeys(DropKey(s, ks[0], reason, at), ks[1..], reason, at)
  }

  /** The keys of a list that the registry knows. */
  function Known(s: System, ks: seq<Key>): seq<Key>
    ensures forall k :: k in Known(s, ks) <==> k in ks && k in s.registry.states
  {
    if ks == [] then [] else (if ks[0] in s.registry.states then [ks[0]] else []) + Known(s, ks[1..])
  }

  /** The end of `connect` once the provider has opened. */
  function Delivered(s: System, t: nat, now: int, auditThrows: bool): System
    requires t in s.attempts && s.attempts[t].phase.Opened?
  {
    var k, h := s.attempts[t].key, s.attempts[t].phase.handle;
    var r := Complete(s.registry, k, t, h, now);
    var rest := s.attempts - {t};
    if !Stands(s.registry, k, t) then System(r.(closed := r.closed + [h]), rest, s.places[h := Closed])
    else if auditThrows then System(Fail(r, k, t), rest, s.places[h := Lost])
    else System(r, rest, s.places[h := Held(k)])
  }

  function Apply(s: System, step: Step): System
    requires Enabled(s, step)
  {
    match step
    case Connect(k, now) =>
      match ReserveResult(s.registry, k) {
        case Reserved(t) => System(Reserve(s.registry, k, now), s.attempts[t := Attempt(k, Opening)], s.places)
        case _ => s
      }
    case ProviderOpens(t, h) =>
      s.(attempts := s.attempts[t := s.attempts[t].(phase := Opened(h))], places := s.places[h := InFlight(t)])
    case ProviderBreaks(t) =>
      var failing := s.attempts[t := s.attempts[t].(phase := Failing)];
      match s.attempts[t].phase {
        case Opened(h) =>
          System(s.registry.(closed := s.registry.closed + [h]), failing, s.places[h := Closed])
        case _ => s.(attempts := failing)
      }
    case AttemptFails(t) =>
      s.(registry := Fail(s.registry, s.attempts[t].key, t), attempts := s.attempts - {t},
         places := match HandleIn(s.registry, s.attempts[t].key, t) case Some(h) => s.places[h := Lost] case None => s.places)
    case Deliver(t, now, auditThrows) => Delivered(s, t, now, auditThrows)
    case UserDisconnect(k, at) => DropKeys(s, Known(s, [k]), NoReason, at)
    case Reconnect(k, at) =>
      if k in s.registry.states && s.registry.states[k].status == Connected then DropKeys(s, Known(s, [k]), NoReason, at) else s
    case SessionError(k) =>
      s.(registry := MarkError(s.registry, k),
         places := if k in s.registry.states && s.registry.states[k].session.Some?
                   then s.places[s.registry.states[k].session.value := Closed] else s.places)
    case Activity(k, now) => s.(registry := Touch(s.registry, k, now))
    case Sweep(at, threshold) =>
      DropKeys(s, IdleKeys(s.registry, Known(s, s.registry.order), at, threshold), IdleClosed, at)
    case Close(scope, at) => DropKeys(s, ScopeKeys(Known(s, s.registry.order), scope), NoReason, at)
  }

  /** The handle that `fail` with this token would drop. */
  function HandleIn(r: Registry, k: Key, t: nat): Option<Handle> {
    if k in r.states && r.states[k].token == t then r.states[k].session else None
  }

  ghost predicate IsRun(s: System, steps: seq<Step>)
    decreases |steps|
  {
    steps == [] || (Enabled(s, steps[0]) && IsRun(Apply(s, steps[0]), steps[1..]))
  }

  ghost function Run(s: System, steps: seq<Step>): System
    requires IsRun(s, steps)
    decreases |steps|
  {
    if steps == [] then s else Run(Apply(s, steps[0]), steps[1..])
  }

  // ---- The invariant ----

  /** Tokens are fresh, and a key is connecting only for an attempt that is still running. */
  ghost predicate Tokens(s: System) {
    var r := s.registry;
    && WellKept(r)
    && (forall t | t in s.attempts :: t < r.nextToken && s.attempts[t].key in r.states)
    && (forall k | k in r.states :: r.states[k].token < r.nextToken)
    && (forall k | k in r.states && r.states[k].status == Connecting ::
          r.states[k].token in s.attempts && s.attempts[r.states[k].token].key == k)
    && (forall t | t in s.attempts :: r.states[s.attempts[t].key].token == t ==>
          r.states[s.attempts[t].key].status != Connected)
  }

  /** A session is held exactly while connected. */
  ghost predicate Sessioned(r: Registry) {
    forall k | k in r.states :: r.states[k].status == Connected <==> r.states[k].session.Some?
  }

  ghost predicate FlightsMatch(s: System) {
    && (forall t | t in s.attempts && s.attempts[t].phase.Opened? ::
          s.attempts[t].phase.handle in s.places && s.places[s.attempts[t].phase.handle] == InFlight(t))
    && (forall h | h in s.places && s.places[h].InFlight? ::
          s.places[h].token in s.attempts && s.attempts[s.places[h].token].phase == Opened(h))
  }

  ghost predicate HoldsMatch(s: System) {
    && (forall k | k in s.registry.states && s.registry.states[k].session.Some? ::
          s.registry.states[k].session.value in s.places && s.places[s.registry.states[k].session.value] == Held(k))
    && (forall h | h in s.places && s.places[h].Held? ::
          s.places[h].key in s.registry.states && s.registry.states[s.places[h].key].session == Some(h))
  }

  /** The close calls are the closed handles, each once. */
  ghost predicate ClosesMatch(s: System) {
    && (forall h :: h in s.registry.closed <==> h in s.places && s.places[h] == Closed)
    && (forall i, j | 0 <= i < j < |s.registry.closed| :: s.registry.closed[i] != s.registry.closed[j])
  }

  ghost predicate Invariant(s: System) {
    Tokens(s) && Sessioned(s.registry) && FlightsMatch(s) && HoldsMatch(s) && ClosesMatch(s)
  }

  lemma InitialInvariant()
    ensures Invariant(INITIAL)
  {}

  lemma DropKeyInvariant(s: System, k: Key, reason: Reason, at: int)
    requires Invariant(s) && k in s.registry.states
    ensures Invariant(DropKey(s, k, reason, at))
    ensures DropKey(s, k, reason, at).registry.states.Keys == s.registry.states.Keys
  {
    var n := DropKey(s, k, reason, at);
    hide HoldsMatch, FlightsMatch;
    DropKeyPlaces(s, k, reason, at);
    assert ClosesMatch(n) by {
      hide Sessioned, Tokens;
      DropKeyCloses(s, k, reason, at);
    }
  }

  lemma DropKeyPlaces(s: System, k: Key, reason: Reason, at: int)
    requires FlightsMatch(s) && HoldsMatch(s) && k in s.registry.states
    ensures FlightsMatch(DropKey(s, k, reason, at)) && HoldsMatch(DropKey(s, k, reason, at))
  {}

  lemma DropKeyCloses(s: System, k: Key, reason: Reason, at: int)
    requires ClosesMatch(s) && HoldsMatch(s) && k in s.registry.states
    ensures ClosesMatch(DropKey(s, k, reason, at))
  {}

  lemma {:induction false} DropKeysInvariant(s: System, ks: seq<Key>, reason: Reason, at: int)
    requires Invariant(s) && forall k | k in ks :: k in s.registry.states
    ensures Invariant(DropKeys(s, ks, reason, at))
    decreases |ks|
  {
    hide Invariant, DropKey;
    if ks != [] {
      DropKeyInvariant(s, ks[0], reason, at);
      DropKeysInvariant(DropKey(s, ks[0], reason, at), ks[1..], reason, at);
    }
  }

  lemma ConnectInvariant(s: System, k: Key, now: int)
    requires Invariant(s)
    ensures Invariant(Apply(s, Connect(k, now)))
  {
    hide Tokens, Sessioned, HoldsMatch, FlightsMatch, ClosesMatch;
    if ReserveResult(s.registry, k).Reserved? {
      var n := Apply(s, Connect(k, now));
      ConnectTokens(s, k, now, n);
      ConnectPlaces(s, k, now, n);
    }
  }

  lemma ConnectTokens(s: System, k: Key, now: int, n: System)
    requires Tokens(s) && Sessioned(s.registry)
    requires ReserveResult(s.registry, k).Reserved? && n == Apply(s, Connect(k, now))
    ensures Tokens(n) && Sessioned(n.registry)
  {
    OrderGrows(s.registry.order, k, s.registry);
    hide Distinct;
  }

  lemma OrderGrows(order: seq<Key>, k: Key, r: Registry)
    requires Distinct(order)
    ensures k !in order ==> Distinct(order + [k])
  {}

  lemma ConnectPlaces(s: System, k: Key, now: int, n: System)
    requires Tokens(s) && Sessioned(s.registry) && FlightsMatch(s) && HoldsMatch(s) && ClosesMatch(s)
    requires ReserveResult(s.registry, k).Reserved? && n == Apply(s, Connect(k, now))
    ensures FlightsMatch(n) && HoldsMatch(n) && ClosesMatch(n)
  {}

  lemma OpenInvariant(s: System, t: nat, h: Handle)
    requires Invariant(s) && Enabled(s, ProviderOpens(t, h))
    ensures Invariant(Apply(s, ProviderOpens(t, h)))
  {
    hide Distinct;
    var n := Apply(s, ProviderOpens(t, h));
    assert Tokens(n);
    assert FlightsMatch(n);
    assert HoldsMatch(n);
    assert ClosesMatch(n);
  }

  lemma ClosesOneMore(s: System, n: System, h: Handle)
    requires ClosesMatch(s) && h in s.places && s.places[h] != Closed
    requires n.registry.closed == s.registry.closed + [h] && n.places == s.places[h := Closed]
    ensures ClosesMatch(n)
  {}

  lemma BreakInvariant(s: System, t: nat)
    requires Invariant(s) && Enabled(s, ProviderBreaks(t))
    ensures Invariant(Apply(s, ProviderBreaks(t)))
  {
    hide Tokens, Sessioned, ClosesMatch, FlightsMatch, HoldsMatch;
    var n := Apply(s, ProviderBreaks(t));
    BreakTokens(s, t);
    BreakPlaces(s, t);
    if s.attempts[t].phase.Opened? {
      FlightOf(s, t);
      ClosesOneMore(s, n, s.attempts[t].phase.handle);
    } else {
      SameCloses(s, n);
    }
  }

  lemma BreakTokens(s: System, t: nat)
    requires Tokens(s) && Sessioned(s.registry) && Enabled(s, ProviderBreaks(t))
    ensures Tokens(Apply(s, ProviderBreaks(t))) && Sessioned(Apply(s, ProviderBreaks(t)).registry)
  {
    hide Distinct;
  }

  lemma BreakPlaces(s: System, t: nat)
    requires FlightsMatch(s) && HoldsMatch(s) && Enabled(s, ProviderBreaks(t))
    ensures FlightsMatch(Apply(s, ProviderBreaks(t))) && HoldsMatch(Apply(s, ProviderBreaks(t)))
  {}

  lemma SameCloses(s: System, n: System)
    requires ClosesMatch(s) && n.registry.closed == s.registry.closed
    requires forall h :: (h in n.places && n.places[h] == Closed) <==> (h in s.places && s.places[h] == Closed)
    ensures ClosesMatch(n)
  {}

  /** `fail` never drops a session: its own token is never that of a connected state. */
  lemma FailDropsNothing(s: System, t: nat)
    requires Invariant(s) && t in s.attempts
    ensures HandleIn(s.registry, s.attempts[t].key, t) == None
  {}

  lemma FailInvariant(s: System, t: nat)
    requires Invariant(s) && Enabled(s, AttemptFails(t))
    ensures Invariant(Apply(s, AttemptFails(t)))
  {
    FailDropsNothing(s, t);
    hide Tokens, Sessioned, HoldsMatch, FlightsMatch, ClosesMatch;
    var n := Apply(s, AttemptFails(t));
    FailTokens(s, t, n);
    FailPlaces(s, t, n);
    SameCloses(s, n);
  }

  lemma FailTokens(s: System, t: nat, n: System)
    requires Tokens(s) && Sessioned(s.registry) && Enabled(s, AttemptFails(t)) && n == Apply(s, AttemptFails(t))
    ensures Tokens(n) && Sessioned(n.registry)
  {
    hide Distinct;
  }

  lemma FailPlaces(s: System, t: nat, n: System)
    requires FlightsMatch(s) && HoldsMatch(s) && Enabled(s, AttemptFails(t)) && n == Apply(s, AttemptFails(t))
    requires HandleIn(s.registry, s.attempts[t].key, t) == None
    ensures FlightsMatch(n) && HoldsMatch(n)
  {}

  lemma DeliverInvariant(s: System, t: nat, now: int, auditThrows: bool)
    requires Invariant(s) && t in s.attempts && s.attempts[t].phase.Opened?
    ensures Invariant(Delivered(s, t, now, auditThrows))
  {
    hide Tokens, Sessioned, ClosesMatch, FlightsMatch, HoldsMatch;
    var n := Delivered(s, t, now, auditThrows);
    DeliverTokens(s, t, now, auditThrows);
    DeliverPlaces(s, t, now, auditThrows);
    assert s.attempts[t].phase.handle in s.places && s.places[s.attempts[t].phase.handle].InFlight? by {
      FlightOf(s, t);
    }
    if Stands(s.registry, s.attempts[t].key, t) {
      SameCloses(s, n);
    } else {
      ClosesOneMore(s, n, s.attempts[t].phase.handle);
    }
  }

  lemma FlightOf(s: System, t: nat)
    requires FlightsMatch(s) && t in s.attempts && s.attempts[t].phase.Opened?
    ensures var h := s.attempts[t].phase.handle;
      h in s.places && s.places[h] == InFlight(t)
  {}

  lemma DeliverTokens(s: System, t: nat, now: int, auditThrows: bool)
    requires Tokens(s) && Sessioned(s.registry) && t in s.attempts && s.attempts[t].phase.Opened?
    ensures Tokens(Delivered(s, t, now, auditThrows)) && Sessioned(Delivered(s, t, now, auditThrows).registry)
  {
    hide Distinct;
    if Stands(s.registry, s.attempts[t].key, t) {
      assert Tokens(Delivered(s, t, now, auditThrows));
    } else {
      assert Tokens(Delivered(s, t, now, auditThrows));
    }
  }

  lemma DeliverPlaces(s: System, t: nat, now: int, auditThrows: bool)
    requires Sessioned(s.registry) && FlightsMatch(s) && HoldsMatch(s)
    requires t in s.attempts && s.attempts[t].phase.Opened?
    ensures FlightsMatch(Delivered(s, t, now, auditThrows)) && HoldsMatch(Delivered(s, t, now, auditThrows))
  {}

  lemma ErrorInvariant(s: System, k: Key)
    requires Invariant(s)
    ensures Invariant(Apply(s, SessionError(k)))
  {
    hide Tokens, Sessioned, ClosesMatch, FlightsMatch, HoldsMatch;
    var n := Apply(s, SessionError(k));
    if k in s.registry.states {
      ErrorTokens(s, k);
      ErrorPlaces(s, k);
      if s.registry.states[k].session.Some? {
        ClosesOneMore(s, n, s.registry.states[k].session.value);
      } else {
        assert n.registry.closed == s.registry.closed + [] == s.registry.closed;
        SameCloses(s, n);
      }
    }
  }

  lemma ErrorTokens(s: System, k: Key)
    requires Tokens(s) && Sessioned(s.registry) && k in s.registry.states
    ensures Tokens(Apply(s, SessionError(k))) && Sessioned(Apply(s, SessionError(k)).registry)
  {
    hide Distinct;
  }

  lemma ErrorPlaces(s: System, k: Key)
    requires FlightsMatch(s) && HoldsMatch(s) && k in s.registry.states
    ensures FlightsMatch(Apply(s, SessionError(k))) && HoldsMatch(Apply(s, SessionError(k)))
    ensures var held := s.registry.states[k].session;
      held.Some? ==> held.value in s.places && s.places[held.value] == Held(k)
  {}

  lemma ActivityInvariant(s: System, k: Key, now: int)
    requires Invariant(s)
    ensures Invariant(Apply(s, Activity(k, now)))
  {
    hide Distinct;
    var n := Apply(s, Activity(k, now));
    assert Tokens(n);
    assert FlightsMatch(n);
    assert HoldsMatch(n);
  }

  /** Every step keeps the invariant. */
  lemma StepInvariant(s: System, step: Step)
    requires Invariant(s) && Enabled(s, step)
    ensures Invariant(Apply(s, step))
  {
    hide Invariant, DropKeys, Delivered;
    match step
    case Connect(k, now) => ConnectInvariant(s, k, now);
    case ProviderOpens(t, h) => OpenInvariant(s, t, h);
    case ProviderBreaks(t) => BreakInvariant(s, t);
    case AttemptFails(t) => FailInvariant(s, t);
    case Deliver(t, now, auditThrows) => DeliverInvariant(s, t, now, auditThrows);
    case UserDisconnect(k, at) => DropKeysInvariant(s, Known(s, [k]), NoReason, at);
    case Reconnect(k, at) => DropKeysInvariant(s, Known(s, [k]), NoReason, at);
    case SessionError(k) => ErrorInvariant(s, k);
    case Activity(k, now) => ActivityInvariant(s, k, now);
    case Sweep(at, threshold) =>
      DropKeysInvariant(s, IdleKeys(s.registry, Known(s, s.registry.order), at, threshold), IdleClosed, at);
    case Close(scope, at) =>
      DropKeysInvariant(s, ScopeKeys(Known(s, s.registry.order), scope), NoReason, at);
  }

  lemma {:induction false} RunInvariant(s: System, steps: seq<Step>)
    requires Invariant(s) && IsRun(s, steps)
    ensures Invariant(Run(s, steps))
    decreases |steps|
  {
    hide Invariant, Apply, Enabled;
    if steps != [] {
      StepInvariant(s, steps[0]);
      RunInvariant(Apply(s, steps[0]), steps[1..]);
    }
  }

  // ---- The steps are the registry's own operations ----

  lemma {:induction false} DropKeysRegistry(s: System, ks: seq<Key>, reason: Reason, at: int)
    requires forall k | k in ks :: k in s.registry.states
    ensures DropKeys(s, ks, reason, at).registry == DropAll(s.registry, ks, reason, at)
    decreases |ks|
  {
    if ks != [] {
      DropKeysRegistry(DropKey(s, ks[0], reason, at), ks[1..], reason, at);
    }
  }

  lemma {:induction false} AllKnown(s: System, ks: seq<Key>)
    requires forall k | k in ks :: k in s.registry.states
    ensures Known(s, ks) == ks
  {
    if ks != [] {
      AllKnown(s, ks[1..]);
    }
  }

  /** Disconnects, sweeps and bulk closes change the registry as its methods do. */
  lemma DisconnectFollowsRegistry(s: System, k: Key, at: int)
    ensures Apply(s, UserDisconnect(k, at)).registry == Disconnect(s.registry, k, at)
  {
    hide DropAll, DropKeys, Drop, Known;
    KnownOne(s, k);
    DropKeysRegistry(s, Known(s, [k]), NoReason, at);
    DropOne(s.registry, k, at);
  }

  lemma BulkFollowsRegistry(s: System, at: int, threshold: int, scope: Scope)
    requires WellKept(s.registry)
    ensures Apply(s, Sweep(at, threshold)).registry == SweepIdle(s.registry, at, threshold)
    ensures Apply(s, Close(scope, at)).registry == CloseFor(s.registry, scope, at)
  {
    hide DropAll, DropKeys, Drop, Known;
    var r := s.registry;
    AllKnown(s, r.order);
    DropKeysRegistry(s, IdleKeys(r, r.order, at, threshold), IdleClosed, at);
    DropKeysRegistry(s, ScopeKeys(r.order, scope), NoReason, at);
  }

  lemma KnownOne(s: System, k: Key)
    ensures Known(s, [k]) == if k in s.registry.states then [k] else []
  {
    assert [k][1..] == [];
  }

  lemma DropOne(r: Registry, k: Key, at: int)
    ensures DropAll(r, [], NoReason, at) == r
    ensures k in r.states ==> DropAll(r, [k], NoReason, at) == Drop(r, k, NoReason, at)
  {
    assert [k][1..] == [];
  }

  // ---- Every handle is accounted for ----

  /** A delivery that installs `h` as its session and whose audit write then throws. */
  ghost predicate Losing(s: System, step: Step, h: Handle) {
    && step.Deliver? && step.auditThrows && step.token in s.attempts && s.attempts[step.token].phase == Opened(h)
    && Stands(s.registry, s.attempts[step.token].key, step.token)
  }

  /** Some step of the run loses `h`. */
  ghost predicate AnyLosing(s: System, steps: seq<Step>, h: Handle)
    requires IsRun(s, steps)
    decreases |steps|
  {
    steps != [] && (Losing(s, steps[0], h) || AnyLosing(Apply(s, steps[0]), steps[1..], h))
  }

  ghost predicate IsLost(s: System, h: Handle) { h in s.places && s.places[h] == Lost }

  lemma {:induction false} DropKeysLost(s: System, ks: seq<Key>, reason: Reason, at: int, h: Handle)
    requires HoldsMatch(s) && FlightsMatch(s) && forall k | k in ks :: k in s.registry.states
    ensures IsLost(DropKeys(s, ks, reason, at), h) <==> IsLost(s, h)
    decreases |ks|
  {
    if ks != [] {
      DropKeyPlaces(s, ks[0], reason, at);
      DropKeysLost(DropKey(s, ks[0], reason, at), ks[1..], reason, at, h);
    }
  }

  /** A handle gets lost by its own losing delivery only, and stays lost. */
  lemma StepLost(s: System, step: Step, h: Handle)
    requires Invariant(s) && Enabled(s, step)
    ensures IsLost(Apply(s, step), h) <==> IsLost(s, h) || Losing(s, step, h)
  {
    hide Tokens, Sessioned, ClosesMatch, DropKeys;
    match step
    case UserDisconnect(k, at) => DropKeysLost(s, Known(s, [k]), NoReason, at, h);
    case Reconnect(k, at) => DropKeysLost(s, Known(s, [k]), NoReason, at, h);
    case Sweep(at, threshold) =>
      DropKeysLost(s, IdleKeys(s.registry, Known(s, s.registry.order), at, threshold), IdleClosed, at, h);
    case Close(scope, at) => DropKeysLost(s, ScopeKeys(Known(s, s.registry.order), scope), NoReason, at, h);
    case AttemptFails(t) => FailDropsNothing(s, t);
    case Deliver(t, _, _) => FlightOf(s, t);
    case _ =>
  }

  lemma {:induction false} RunLost(s: System, steps: seq<Step>, h: Handle)
    requires Invariant(s) && IsRun(s, steps)
    ensures IsLost(Run(s, steps), h) <==> IsLost(s, h) || AnyLosing(s, steps, h)
    decreases |steps|
  {
    hide Invariant, Apply, Enabled, IsLost, Losing;
    if steps != [] {
      StepInvariant(s, steps[0]);
      StepLost(s, steps[0], h);
      RunLost(Apply(s, steps[0]), steps[1..], h);
    }
  }

  function Calls(closed: seq<Handle>, h: Handle): nat { multiset(closed)[h] }

  lemma {:induction false} CallsOnce(closed: seq<Handle>, h: Handle)
    requires forall i, j | 0 <= i < j < |closed| :: closed[i] != closed[j]
    ensures Calls(closed, h) == if h in closed then 1 else 0
  {
    if closed != [] {
      var n := |closed| - 1;
      assert closed == closed[..n] + [closed[n]];
      CallsOnce(closed[..n], h);
    }
  }

  ghost predicate Flying(s: System, h: Handle) { exists t :: t in s.attempts && s.attempts[t].phase == Opened(h) }

  ghost predicate HeldBy(s: System, h: Handle, k: Key) { k in s.registry.states && s.registry.states[k].session == Some(h) }

  /**
   * After any interleaving, a handle that was opened is in flight, or held by exactly one key, or
   * closed by exactly one call, and only one of these; it is none of them exactly if an audit write
   * threw right after it was installed. A key is connected if and only if it holds a session.
   */
  lemma EveryHandleAccountedFor(steps: seq<Step>, h: Handle)
    requires IsRun(INITIAL, steps) && h in Run(INITIAL, steps).places
    ensures var s := Run(INITIAL, steps);
      && (Flying(s, h) <==> s.places[h].InFlight?)
      && ((exists k :: HeldBy(s, h, k)) <==> s.places[h].Held?)
      && (forall k, l | HeldBy(s, h, k) && HeldBy(s, h, l) :: k == l)
      && Calls(s.registry.closed, h) == (if s.places[h] == Closed then 1 else 0)
      && (s.places[h] == Lost <==> AnyLosing(INITIAL, steps, h))
      && (forall k | k in s.registry.states :: s.registry.states[k].status == Connected <==> s.registry.states[k].session.Some?)
  {
    hide Run, IsRun, Tokens;
    InitialInvariant();
    RunInvariant(INITIAL, steps);
    RunLost(INITIAL, steps, h);
    var s := Run(INITIAL, steps);
    assert !IsLost(INITIAL, h);
    CallsOnce(s.registry.closed, h);
    if s.places[h].InFlight? {
      assert s.places[h].token in s.attempts;
    }
    if s.places[h].Held? {
      assert HeldBy(s, h, s.places[h].key);
    }
  }

  // ---- Reservations that no longer stand ----

  /** The reservation of this attempt has been overtaken. */
  ghost predicate Stale(s: System, t: nat) { t in s.attempts && !Stands(s.registry, s.attempts[t].key, t) }

  predicate IsConnected(s: System, k: Key) { k in s.registry.states && s.registry.states[k].status == Connected }

  /** Everything that ends what a key was doing. */
  predicate Overtakes(s: System, step: Step, k: Key) {
    match step
    case UserDisconnect(x, _) => x == k
    case SessionError(x) => x == k
    case Close(scope, _) => InScope(k, scope)
    case Reconnect(x, _) => x == k && IsConnected(s, k)
    case Sweep(at, threshold) => IsConnected(s, k) && at - s.registry.states[k].lastActivityAt >= threshold
    case _ => false
  }

  lemma {:induction false} DropKeysStale(s: System, ks: seq<Key>, reason: Reason, at: int, t: nat)
    requires Tokens(s) && t in s.attempts && forall k | k in ks :: k in s.registry.states
    requires Stale(s, t) || s.attempts[t].key in ks
    ensures Stale(DropKeys(s, ks, reason, at), t)
    ensures DropKeys(s, ks, reason, at).attempts == s.attempts
    decreases |ks|
  {
    if ks != [] {
      var n := DropKey(s, ks[0], reason, at);
      DropKeyTokens(s, ks[0], reason, at);
      DropKeysStale(n, ks[1..], reason, at, t);
    } else {
      assert DropKeys(s, ks, reason, at) == s;
    }
  }

  lemma DropKeyTokens(s: System, k: Key, reason: Reason, at: int)
    requires Tokens(s) && k in s.registry.states
    ensures Tokens(DropKey(s, k, reason, at)) && DropKey(s, k, reason, at).attempts == s.attempts
    ensures DropKey(s, k, reason, at).registry.states.Keys == s.registry.states.Keys
  {
    hide Distinct;
  }

  ghost predicate IsBulk(step: Step) { step.UserDisconnect? || step.Reconnect? || step.Sweep? || step.Close? }

  lemma BulkStale(s: System, step: Step, t: nat)
    requires Invariant(s) && Enabled(s, step) && Stale(s, t) && IsBulk(step)
    ensures t in Apply(s, step).attempts ==> Stale(Apply(s, step), t) && Apply(s, step).attempts[t].key == s.attempts[t].key
  {
    hide Sessioned, FlightsMatch, HoldsMatch, ClosesMatch, Distinct, DropKeys, IdleKeys, ScopeKeys;
    match step
    case UserDisconnect(k, at) => DropKeysStale(s, Known(s, [k]), NoReason, at, t);
    case Reconnect(k, at) => DropKeysStale(s, Known(s, [k]), NoReason, at, t);
    case Sweep(at, threshold) =>
      DropKeysStale(s, IdleKeys(s.registry, Known(s, s.registry.order), at, threshold), IdleClosed, at, t);
    case Close(scope, at) => DropKeysStale(s, ScopeKeys(Known(s, s.registry.order), scope), NoReason, at, t);
  }

  /** A stale attempt stays stale for as long as it runs, whatever the other steps are. */
  lemma StepStale(s: System, step: Step, t: nat)
    requires Invariant(s) && Enabled(s, step) && Stale(s, t)
    ensures t in Apply(s, step).attempts ==> Stale(Apply(s, step), t) && Apply(s, step).attempts[t].key == s.attempts[t].key
  {
    hide Sessioned, FlightsMatch, HoldsMatch, ClosesMatch, Distinct, DropKeys, IdleKeys, ScopeKeys, Known;
    if IsBulk(step) {
      BulkStale(s, step, t);
    }
  }

  /** A disconnect, an error, a close, an idle sweep or a reconnect of its key makes an attempt stale. */
  lemma OvertakenStale(s: System, step: Step, t: nat)
    requires Invariant(s) && Enabled(s, step) && t in s.attempts && Overtakes(s, step, s.attempts[t].key)
    ensures t in Apply(s, step).attempts && Stale(Apply(s, step), t)
  {
    hide Sessioned, FlightsMatch, HoldsMatch, ClosesMatch, Distinct, DropKeys;
    match step
    case UserDisconnect(k, at) => DropKeysStale(s, Known(s, [k]), NoReason, at, t);
    case Reconnect(k, at) => DropKeysStale(s, Known(s, [k]), NoReason, at, t);
    case Sweep(at, threshold) =>
      DropKeysStale(s, IdleKeys(s.registry, Known(s, s.registry.order), at, threshold), IdleClosed, at, t);
    case Close(scope, at) => DropKeysStale(s, ScopeKeys(Known(s, s.registry.order), scope), NoReason, at, t);
    case SessionError(k) =>
  }

  /** A finished attempt: its token is spent. */
  ghost predicate Gone(s: System, t: nat) { t < s.registry.nextToken && t !in s.attempts }

  lemma {:induction false} DropKeysNext(s: System, ks: seq<Key>, reason: Reason, at: int)
    requires forall k | k in ks :: k in s.registry.states
    ensures DropKeys(s, ks, reason, at).registry.nextToken == s.registry.nextToken + |ks|
    ensures DropKeys(s, ks, reason, at).attempts == s.attempts
    decreases |ks|
  {
    if ks != [] {
      DropKeysNext(DropKey(s, ks[0], reason, at), ks[1..], reason, at);
    }
  }

  /** Tokens only grow, and a new attempt gets a token never used before. */
  lemma StepTokens(s: System, step: Step)
    requires Enabled(s, step)
    ensures s.registry.nextToken <= Apply(s, step).registry.nextToken
    ensures forall t | t in Apply(s, step).attempts && t !in s.attempts :: t == s.registry.nextToken
  {
    hide DropKeys;
    match step
    case UserDisconnect(k, at) => DropKeysNext(s, Known(s, [k]), NoReason, at);
    case Reconnect(k, at) => DropKeysNext(s, Known(s, [k]), NoReason, at);
    case Sweep(at, threshold) =>
      DropKeysNext(s, IdleKeys(s.registry, Known(s, s.registry.order), at, threshold), IdleClosed, at);
    case Close(scope, at) => DropKeysNext(s, ScopeKeys(Known(s, s.registry.order), scope), NoReason, at);
    case _ =>
  }

  lemma {:induction false} RunGone(s: System, steps: seq<Step>, t: nat)
    requires IsRun(s, steps) && Gone(s, t)
    ensures Gone(Run(s, steps), t)
    decreases |steps|
  {
    hide Apply, Enabled;
    if steps != [] {
      StepTokens(s, steps[0]);
      RunGone(Apply(s, steps[0]), steps[1..], t);
    }
  }

  /** A token spent by a finished attempt is never reserved again in any continuation. */
  lemma SpentTokensStaySpent(before: seq<Step>, after: seq<Step>, t: nat, k: Key)
    requires IsRun(INITIAL, before) && IsRun(Run(INITIAL, before), after) && Gone(Run(INITIAL, before), t)
    ensures var s := Run(Run(INITIAL, before), after);
      t !in s.attempts && !Stands(s.registry, k, t) && ReserveResult(s.registry, k) != Reserved(t)
  {
    hide Run, IsRun;
    InitialInvariant();
    RunInvariant(INITIAL, before);
    RunInvariant(Run(INITIAL, before), after);
    RunGone(Run(INITIAL, before), after, t);
  }

  lemma {:induction false} RunStale(s: System, steps: seq<Step>, t: nat)
    requires Invariant(s) && IsRun(s, steps) && (Stale(s, t) || Gone(s, t))
    ensures Invariant(Run(s, steps)) && (Stale(Run(s, steps), t) || Gone(Run(s, steps), t))
    decreases |steps|
  {
    hide Invariant, Apply, Enabled;
    if steps != [] {
      var n := Apply(s, steps[0]);
      StepInvariant(s, steps[0]);
      StepTokens(s, steps[0]);
      TokenBound(s);
      if Stale(s, t) {
        StepStale(s, steps[0], t);
      }
      RunStale(n, steps[1..], t);
    }
  }

  lemma TokenBound(s: System)
    requires Invariant(s)
    ensures forall t | t in s.attempts :: t < s.registry.nextToken
  {}

  /**
   * A reservation overtaken by a disconnect, an error, a close, an idle sweep or a reconnect of its key
   * never installs a session: whenever its provider opening is delivered later, `complete` is refused, no state
   * changes, and the handle is closed.
   */
  lemma OvertakenNeverInstalls(before: seq<Step>, step: Step, after: seq<Step>, t: nat, now: int, auditThrows: bool)
    requires IsRun(INITIAL, before)
    requires var s := Run(INITIAL, before);
      && Enabled(s, step) && t in s.attempts && Overtakes(s, step, s.attempts[t].key)
      && IsRun(Apply(s, step), after)
      && Enabled(Run(Apply(s, step), after), Deliver(t, now, auditThrows))
    ensures var n := Run(Apply(Run(INITIAL, before), step), after);
      var d := Apply(n, Deliver(t, now, auditThrows));
      && !Stands(n.registry, n.attempts[t].key, t)
      && d.registry.states == n.registry.states
      && d.registry.closed == n.registry.closed + [n.attempts[t].phase.handle]
      && d.places[n.attempts[t].phase.handle] == Closed
  {
    hide Run, IsRun, Invariant, Overtakes, Stands;
    InitialInvariant();
    RunInvariant(INITIAL, before);
    var s := Run(INITIAL, before);
    StepInvariant(s, step);
    OvertakenStale(s, step, t);
    RunStale(Apply(s, step), after, t);
  }

  /** An attempt of the key whose reservation still stands. */
  ghost predicate Current(s: System, t: nat, k: Key) { t in s.attempts && s.attempts[t].key == k && !Stale(s, t) }

  /** A key is connecting exactly while one attempt, and only one, can still be installed for it. */
  lemma ConnectingIsOneAttempt(steps: seq<Step>, k: Key)
    requires IsRun(INITIAL, steps) && k in Run(INITIAL, steps).registry.states
    ensures var s := Run(INITIAL, steps);
      && (s.registry.states[k].status == Connecting <==> exists t :: Current(s, t, k))
      && (forall t, u | Current(s, t, k) && Current(s, u, k) :: t == u)
  {
    hide Run, IsRun;
    InitialInvariant();
    RunInvariant(INITIAL, steps);
    var s := Run(INITIAL, steps);
    if s.registry.states[k].status == Connecting {
      assert Current(s, s.registry.states[k].token, k);
    }
  }

  /** An audit write that throws after the session was installed leaves its handle open for good. */
  lemma AuditFailureLosesHandle(k: Key, h: Handle)
    ensures var steps := [Connect(k, 0), ProviderOpens(1, h), Deliver(1, 0, true)];
      && IsRun(INITIAL, steps)
      && var s := Run(INITIAL, steps);
      h in s.places && s.places[h] == Lost && !Flying(s, h) && Calls(s.registry.closed, h) == 0
      && forall x :: !HeldBy(s, h, x)
  {
    var a, b, c := Connect(k, 0), ProviderOpens(1, h), Deliver(1, 0, true);
    var steps := [a, b, c];
    assert steps[1..] == [b, c] && [b, c][1..] == [c] && [c][1..] == [];
    var s1 := Apply(INITIAL, a);
    var s2 := Apply(s1, b);
    assert s1.attempts == map[1 := Attempt(k, Opening)];
    assert Stands(s2.registry, k, 1);
    var s3 := Apply(s2, c);
    assert IsRun(s3, []) && IsRun(s2, [c]) && IsRun(s1, [b, c]) && Enabled(INITIAL, a);
    assert Run(s3, []) == s3 && Run(s2, [c]) == s3 && Run(s1, [b, c]) == s3;
  }
}
