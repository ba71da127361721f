/**
 * The registry of connection lifecycles. `Registry` is its state as a value, with the close calls
 * it has issued; the class keeps the same state in fields, as the code does.
 */
module Sessions {
  import opened Text

  type Handle = nat

  datatype Key = Key(user: nat, connection: nat)
  datatype Status = Disconnected | Connecting | Connected | Error
  datatype Reason = NoReason | IdleClosed

  datatype State = State(status: Status, session: Option<Handle>, token: nat, lastActivityAt: int, reason: Reason)

  /** `order` is the insertion order of the keys of `states`. */
  datatype Registry = Registry(states: map<Key, State>, order: seq<Key>, nextToken: nat, closed: seq<Handle>)

  datatype Reservation = Reserved(token: nat) | AlreadyConnected | AlreadyConnecting

  const EMPTY := Registry(map[], [], 1, [])

  function Put(r: Registry, k: Key, s: State): Registry {
    r.(states := r.states[k := s], order := if k in r.states then r.order else r.order + [k])
  }

  function HandleOf(s: State): seq<Handle> {
    match s.session
    case Some(h) => [h]
    case None => []
  }

  function ReserveResult(r: Registry, k: Key): Reservation {
    if k in r.states && r.states[k].status == Connected then AlreadyConnected
    else if k in r.states && r.states[k].status == Connecting then AlreadyConnecting
    else Reserved(r.nextToken)
  }

  /** A reservation takes the next token. */
  function Reserve(r: Registry, k: Key, now: int): Registry {
    if !ReserveResult(r, k).Reserved? then r
    else Put(r.(nextToken := r.nextToken + 1), k, State(Connecting, None, r.nextToken, now, NoReason))
  }

  /** The reservation still stands. */
  predicate Stands(r: Registry, k: Key, token: nat) {
    k in r.states && r.states[k].token == token && r.states[k].status == Connecting
  }

  function Complete(r: Registry, k: Key, token: nat, h: Handle, now: int): Registry {
    if !Stands(r, k, token) then r
    else Put(r, k, r.states[k].(status := Connected, session := Some(h), lastActivityAt := now, reason := NoReason))
  }

  function Fail(r: Registry, k: Key, token: nat): Registry {
    if k !in r.states || r.states[k].token != token then r
    else Put(r, k, r.states[k].(status := Error, session := None, reason := NoReason))
  }

  function Touch(r: Registry, k: Key, now: int): Registry {
    if k !in r.states || r.states[k].status != Connected then r
    else Put(r, k, r.states[k].(lastActivityAt := now))
  }

  /** `markDisconnected`: a fresh token outdates every reservation of the key. */
  function Mark(r: Registry, k: Key, reason: Reason, at: int): Registry
    requires k in r.states
  {
    Put(r.(nextToken := r.nextToken + 1), k, State(Disconnected, None, r.nextToken, at, reason))
  }

  /** Marks a key disconnected and closes what it held. */
  function Drop(r: Registry, k: Key, reason: Reason, at: int): Registry
    requires k in r.states
  {
    Mark(r, k, reason, at).(closed := r.closed + HandleOf(r.states[k]))
  }

  function Disconnect(r: Registry, k: Key, at: int): Registry {
    if k in r.states then Drop(r, k, NoReason, at) else r
  }

  function MarkError(r: Registry, k: Key): Registry {
    if k !in r.states then r
    else
      Put(r, k, r.states[k].(status := Error, session := None, reason := NoReason))
        .(closed := r.closed + HandleOf(r.states[k]))
  }

  /** Drops the keys of `ks` one after the other. */
  function DropAll(r: Registry, ks: seq<Key>, reason: Reason, at: int): Registry
    requires forall k | k in ks :: k in r.states
    decreases |ks|
  {
    if ks == [] then r else DropAll(Drop(r, ks[0], reason, at), ks[1..], reason, at)
  }

  function IdleKeys(r: Registry, ks: seq<Key>, at: int, threshold: int): seq<Key>
    requires forall k | k in ks :: k in r.states
    ensures forall k :: k in IdleKeys(r, ks, at, threshold) <==>
      (k in ks && r.states[k].status == Connected && at - r.states[k].lastActivityAt >= threshold)
  {
    if ks == [] then []
    else
      (if r.states[ks[0]].status == Connected && at - r.states[ks[0]].lastActivityAt >= threshold then [ks[0]] else [])
      + IdleKeys(r, ks[1..], at, threshold)
  }

  /** Which keys a bulk close is about. */
  datatype Scope = ForUser(user: nat) | ForConnection(connection: nat) | Everything

  predicate InScope(k: Key, scope: Scope) {
    match scope
    case ForUser(user) => k.user == user
    case ForConnection(connection) => k.connection == connection
    case Everything => true
  }

  function ScopeKeys(ks: seq<Key>, scope: Scope): seq<Key>
    ensures forall k :: k in ScopeKeys(ks, scope) <==> k in ks && InScope(k, scope)
  {
    if ks == [] then [] else (if InScope(ks[0], scope) then [ks[0]] else []) + ScopeKeys(ks[1..], scope)
  }

  ghost predicate Distinct(ks: seq<Key>) {
    forall i, j | 0 <= i < j < |ks| :: ks[i] != ks[j]
  }

  /** The insertion order lists every key once. */
  ghost predicate WellKept(r: Registry) {
    && Distinct(r.order)
    && (forall k :: k in r.order <==> k in r.states)
  }

  function SweepIdle(r: Registry, at: int, threshold: int): Registry
    requires WellKept(r)
  {
    DropAll(r, IdleKeys(r, r.order, at, threshold), IdleClosed, at)
  }

  function CloseFor(r: Registry, scope: Scope, at: int): Registry
    requires WellKept(r)
  {
    DropAll(r, ScopeKeys(r.order, scope), NoReason, at)
  }

  // ---- The class ----

  class ConnectionSessionRegistry {
    const idleTimeoutMinutes: nat
    var states: map<Key, State>
    var order: seq<Key>
    var nextToken: nat
    /** The close calls issued to providers. */
    var closed: seq<Handle>

    ghost function View(): Registry
      reads this
    {
      Registry(states, order, nextToken, closed)
    }

    constructor (idleTimeoutMinutes: nat)
      requires idleTimeoutMinutes >= 1
      ensures View() == EMPTY
    {
      this.idleTimeoutMinutes := idleTimeoutMinutes;
      states, order, nextToken, closed := map[], [], 1, [];
    }

    method SetState(k: Key, s: State)
      modifies this`states, this`order
      ensures View() == Put(old(View()), k, s)
    {
      if k !in states {
        order := order + [k];
      }
      states := states[k := s];
    }

    method ReserveKey(k: Key, now: int) returns (result: Reservation)
      modifies this
      ensures View() == Reserve(old(View()), k, now)
      ensures result == ReserveResult(old(View()), k)
    {
      if k in states && states[k].status == Connected {
        return AlreadyConnected;
      }
      if k in states && states[k].status == Connecting {
        return AlreadyConnecting;
      }
      var token := nextToken;
      nextToken := nextToken + 1;
      SetState(k, State(Connecting, None, token, now, NoReason));
      return Reserved(token);
    }

    method CompleteReservation(k: Key, token: nat, h: Handle, now: int) returns (installed: bool)
      modifies this
      ensures View() == Complete(old(View()), k, token, h, now)
      ensures installed <==> old(Stands(View(), k, token))
    {
      if k !in states || states[k].token != token || states[k].status != Connecting {
        return false;
      }
      SetState(k, states[k].(status := Connected, session := Some(h), lastActivityAt := now, reason := NoReason));
      return true;
    }

    method FailReservation(k: Key, token: nat)
      modifies this
      ensures View() == Fail(old(View()), k, token)
    {
      if k !in states || states[k].token != token {
        return;
      }
      SetState(k, states[k].(status := Error, session := None, reason := NoReason));
    }

    method TouchSession(k: Key, now: int)
      modifies this
      ensures View() == Touch(old(View()), k, now)
    {
      if k !in states || states[k].status != Connected {
        return;
      }
      SetState(k, states[k].(lastActivityAt := now));
    }

    method MarkDisconnected(k: Key, reason: Reason, at: int)
      requires k in states
      modifies this
      ensures View() == Mark(old(View()), k, reason, at)
    {
      var token := nextToken;
      nextToken := nextToken + 1;
      SetState(k, State(Disconnected, None, token, at, reason));
    }

    method CloseHandle(h: Handle)
      modifies this`closed
      ensures closed == old(closed) + [h]
    {
      closed := closed + [h];
    }

    method DisconnectKey(k: Key, at: int)
      modifies this
      ensures View() == Disconnect(old(View()), k, at)
    {
      if k !in states {
        return;
      }
      var state := states[k];
      MarkDisconnected(k, NoReason, at);
      if state.session.Some? {
        CloseHandle(state.session.value);
      }
    }

    method MarkKeyError(k: Key)
      modifies this
      ensures View() == MarkError(old(View()), k)
    {
      if k !in states {
        return;
      }
      var state := states[k];
      SetState(k, state.(status := Error, session := None, reason := NoReason));
      if state.session.Some? {
        CloseHandle(state.session.value);
      }
    }

    /** Marks all the given keys first, then closes what they held. */
    method DropKeys(ks: seq<Key>, reason: Reason, at: int)
      requires forall k | k in ks :: k in states
      requires Distinct(ks)
      modifies this
      ensures View() == DropAll(old(View()), ks, reason, at)
    {
      ghost var before := View();
      var held: seq<State> := seq(|ks|, i requires 0 <= i < |ks| reads this requires ks[i] in states => states[ks[i]]);
      for i := 0 to |ks|
        invariant View() == MarkAll(before, ks[..i], reason, at)
        invariant forall k | k in ks :: k in states
      {
        MarkDisconnected(ks[i], reason, at);
        MarkAllNext(before, ks, i, reason, at);
      }
      assert ks[..|ks|] == ks;
      ghost var marked := View();
      for i := 0 to |ks|
        invariant View() == marked.(closed := before.closed + Handles(held[..i]))
      {
        if held[i].session.Some? {
          CloseHandle(held[i].session.value);
        }
        HandlesNext(held, i);
        Assoc(before.closed, Handles(held[..i]), HandleOf(held[i]));
      }
      assert held[..|ks|] == held;
      DropAllIsMarkThenClose(before, ks, reason, at, held);
    }

    method SweepIdleSessions(at: int) returns (swept: nat)
      requires WellKept(View())
      modifies this
      ensures View() == SweepIdle(old(View()), at, idleTimeoutMinutes * 60_000)
    {
      var idle := IdleKeys(Registry(states, order, nextToken, closed), order, at, idleTimeoutMinutes * 60_000);
      IdleKeysDistinct(View(), order, at, idleTimeoutMinutes * 60_000);
      DropKeys(idle, IdleClosed, at);
      return |idle|;
    }

    method CloseScope(scope: Scope, at: int)
      requires WellKept(View())
      modifies this
      ensures View() == CloseFor(old(View()), scope, at)
    {
      var ks := ScopeKeys(order, scope);
      ScopeKeysDistinct(order, scope);
      DropKeys(ks, NoReason, at);
    }
  }

  // ---- Marking and closing ----

  function MarkAll(r: Registry, ks: seq<Key>, reason: Reason, at: int): Registry
    requires forall k | k in ks :: k in r.states
    ensures MarkAll(r, ks, reason, at).states.Keys == r.states.Keys
    ensures MarkAll(r, ks, reason, at).closed == r.closed
    decreases |ks|
  {
    if ks == [] then r
    else
      assert ks == ks[..|ks| - 1] + [ks[|ks| - 1]];
      Mark(MarkAll(r, ks[..|ks| - 1], reason, at), ks[|ks| - 1], reason, at)
  }

  lemma MarkAllNext(r: Registry, ks: seq<Key>, i: nat, reason: Reason, at: int)
    requires i < |ks| && forall k | k in ks :: k in r.states
    ensures MarkAll(r, ks[..i + 1], reason, at) == Mark(MarkAll(r, ks[..i], reason, at), ks[i], reason, at)
  {
    assert ks[..i + 1][..i] == ks[..i];
  }

  function Handles(states: seq<State>): seq<Handle> {
    if states == [] then [] else Handles(states[..|states| - 1]) + HandleOf(states[|states| - 1])
  }

  lemma HandlesNext(states: seq<State>, i: nat)
    requires i < |states|
    ensures Handles(states[..i + 1]) == Handles(states[..i]) + HandleOf(states[i])
  {
    assert states[..i + 1][..i] == states[..i];
  }

  lemma {:induction false} DropAllAppend(r: Registry, xs: seq<Key>, k: Key, reason: Reason, at: int)
    requires (forall x | x in xs :: x in r.states) && k in r.states
    ensures var d := DropAll(r, xs, reason, at);
      k in d.states && DropAll(r, xs + [k], reason, at) == Drop(d, k, reason, at)
    decreases |xs|
  {
    if xs == [] {
      assert xs + [k] == [k] && [k][1..] == [];
    } else {
      assert (xs + [k])[0] == xs[0] && (xs + [k])[1..] == xs[1..] + [k];
      DropAllAppend(Drop(r, xs[0], reason, at), xs[1..], k, reason, at);
    }
  }

  /** Closing after all keys are marked issues the same calls as closing each key at once. */
  lemma {:induction false} DropAllIsMarkThenClose(r: Registry, ks: seq<Key>, reason: Reason, at: int, held: seq<State>)
    requires forall k | k in ks :: k in r.states
    requires Distinct(ks)
    requires |held| == |ks| && forall i | 0 <= i < |ks| :: held[i] == r.states[ks[i]]
    ensures DropAll(r, ks, reason, at) == MarkAll(r, ks, reason, at).(closed := r.closed + Handles(held))
    ensures forall k | k in r.states && k !in ks :: MarkAll(r, ks, reason, at).states[k] == r.states[k]
    decreases |ks|
  {
    if ks == [] {
      assert r.closed + [] == r.closed;
    } else {
      var n := |ks| - 1;
      var xs, k := ks[..n], ks[n];
      assert ks == xs + [k];
      DropAllIsMarkThenClose(r, xs, reason, at, held[..n]);
      DropAllAppend(r, xs, k, reason, at);
      assert held[..n + 1] == held;
      HandlesNext(held, n);
      Assoc(r.closed, Handles(held[..n]), HandleOf(held[n]));
      assert MarkAll(r, xs, reason, at).states[k] == r.states[k];
    }
  }

  lemma {:induction false} IdleKeysDistinct(r: Registry, ks: seq<Key>, at: int, threshold: int)
    requires forall k | k in ks :: k in r.states
    requires Distinct(ks)
    ensures Distinct(IdleKeys(r, ks, at, threshold))
  {
    if ks != [] {
      assert ks[0] !in ks[1..];
      IdleKeysDistinct(r, ks[1..], at, threshold);
      assert ks[0] !in IdleKeys(r, ks[1..], at, threshold);
    }
  }

  lemma {:induction false} ScopeKeysDistinct(ks: seq<Key>, scope: Scope)
    requires Distinct(ks)
    ensures Distinct(ScopeKeys(ks, scope))
  {
    if ks != [] {
      assert ks[0] !in ks[1..];
      ScopeKeysDistinct(ks[1..], scope);
      assert ks[0] !in ScopeKeys(ks[1..], scope);
    }
  }
}
