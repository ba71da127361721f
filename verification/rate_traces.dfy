/** What the rate limiter guarantees over whole traces of calls, without resets. */
module RateTraces {
  import opened Text
  import opened RateLimiter

  datatype Call = Call(key: string, at: Timestamp)

  type Buckets = map<string, Bucket>

  datatype Policy = Policy(limit: nat, windowMs: nat)

  ghost predicate ValidPolicy(p: Policy) { p.limit >= 1 && p.windowMs >= 1 }

  function Find(b: Buckets, key: string): Option<Bucket> { if key in b then Some(b[key]) else None }

  function Answer(p: Policy, b: Buckets, c: Call): Result
    requires p.limit >= 1
  {
    Consumed(Find(b, c.key), p.limit, p.windowMs, c.at).1
  }

  /** The buckets after a trace: one `consume` a call. */
  function After(p: Policy, calls: seq<Call>): Buckets
    requires p.limit >= 1
  {
    if calls == [] then map[]
    else
      var b, c := After(p, calls[..|calls| - 1]), calls[|calls| - 1];
      b[c.key := Consumed(Find(b, c.key), p.limit, p.windowMs, c.at).0]
  }

  /** The clock does not run backwards. */
  ghost predicate Monotone(calls: seq<Call>) {
    forall i, j | 0 <= i < j < |calls| :: calls[i].at <= calls[j].at
  }

  /** Allowed calls of `key` in the half-open interval. */
  function AllowedIn(p: Policy, calls: seq<Call>, key: string, from: nat, to: nat): nat
    requires p.limit >= 1
  {
    if calls == [] then 0
    else
      var c, before := calls[|calls| - 1], calls[..|calls| - 1];
      AllowedIn(p, before, key, from, to)
      + if c.key == key && from <= c.at < to && Answer(p, After(p, before), c).allowed then 1 else 0
  }

  // ---- The bound ----

  /** The window began at a time already passed, and holds at most `limit` allowed calls. */
  ghost predicate Sound(p: Policy, b: Bucket, last: nat) {
    b.count <= p.limit && p.windowMs <= b.resetAt <= last + p.windowMs
  }

  /** `q` whole windows fit between `from` and the start of the present one. */
  ghost predicate Bounded(p: Policy, b: Bucket, from: nat, q: nat, allowed: nat) {
    var start := b.resetAt - p.windowMs;
    if start < from then allowed <= b.count else from + q * p.windowMs <= start && allowed <= p.limit * (1 + q) + b.count
  }

  ghost predicate CountInvariant(p: Policy, calls: seq<Call>, key: string, from: nat, k: nat, q: nat)
    requires p.limit >= 1
  {
    var a := AllowedIn(p, calls, key, from, from + k * p.windowMs);
    && a <= (k + 1) * p.limit
    && (a > 0 ==> calls != [] && from <= calls[|calls| - 1].at)
    && match Find(After(p, calls), key)
       case None => a == 0
       case Some(b) => calls != [] && Sound(p, b, calls[|calls| - 1].at) && Bounded(p, b, from, q, a)
  }

  lemma MulLess(q: nat, k: nat, w: nat)
    requires w >= 1 && q * w < k * w
    ensures q < k
  {
    if q >= k {
      MulMono(k, q, w);
    }
  }

  lemma MulMono(x: nat, y: nat, m: nat)
    requires x <= y
    ensures m * x <= m * y
  {
    assert m * y == m * x + m * (y - x);
  }

  /** A new window: everything counted so far fits into the windows before it. */
  lemma NewWindow(p: Policy, b: Bucket, from: nat, q: nat, allowed: nat, now: nat) returns (q': nat)
    requires ValidPolicy(p) && b.count <= p.limit && p.windowMs <= b.resetAt <= now
    requires Bounded(p, b, from, q, allowed) && (allowed > 0 ==> from <= now)
    ensures Bounded(p, Bucket(0, now + p.windowMs, b.blockedUntil, b.blocks), from, q', allowed)
  {
    var start := b.resetAt - p.windowMs;
    if start < from {
      q' := 0;
    } else {
      q' := q + 1;
      assert (q + 1) * p.windowMs == q * p.windowMs + p.windowMs;
      assert p.limit * (2 + q) == p.limit * (1 + q) + p.limit;
    }
  }

  /** One more allowed call in the interval. */
  lemma OneMore(p: Policy, b: Bucket, from: nat, k: nat, q: nat, allowed: nat, now: nat)
    requires ValidPolicy(p) && b.count < p.limit && p.windowMs <= b.resetAt <= now + p.windowMs
    requires Bounded(p, b, from, q, allowed) && from <= now < from + k * p.windowMs
    ensures Bounded(p, b.(count := b.count + 1), from, q, allowed + 1)
    ensures allowed + 1 <= (k + 1) * p.limit
  {
    if b.resetAt - p.windowMs < from {
      MulMono(1, k + 1, p.limit);
    } else {
      MulLess(q, k, p.windowMs);
      MulMono(2 + q, k + 1, p.limit);
      assert p.limit * (2 + q) == p.limit * (1 + q) + p.limit;
    }
  }

  lemma {:induction false} CountsBounded(p: Policy, calls: seq<Call>, key: string, from: nat, k: nat) returns (q: nat)
    requires ValidPolicy(p) && Monotone(calls)
    ensures CountInvariant(p, calls, key, from, k, q)
    decreases |calls|
  {
    q := 0;
    if calls == [] {
      return;
    }
    var before, c := calls[..|calls| - 1], calls[|calls| - 1];
    q := CountsBounded(p, before, key, from, k);
    if c.key == key {
      q := OwnCall(p, before, c, from, k, q);
    }
    assert before + [c] == calls;
    if c.key != key {
      OtherCall(p, before, c, key, from, k, q);
    }
  }

  lemma Extend(p: Policy, before: seq<Call>, c: Call, key: string, from: nat, to: nat)
    requires p.limit >= 1
    ensures var b := After(p, before);
      && After(p, before + [c]) == b[c.key := Consumed(Find(b, c.key), p.limit, p.windowMs, c.at).0]
      && AllowedIn(p, before + [c], key, from, to) == AllowedIn(p, before, key, from, to)
         + if c.key == key && from <= c.at < to && Answer(p, b, c).allowed then 1 else 0
  {
    assert (before + [c])[..|before|] == before;
  }

  lemma OtherCall(p: Policy, before: seq<Call>, c: Call, key: string, from: nat, k: nat, q: nat)
    requires ValidPolicy(p) && Monotone(before + [c]) && c.key != key && CountInvariant(p, before, key, from, k, q)
    ensures CountInvariant(p, before + [c], key, from, k, q)
  {
    hide Consumed, Bounded;
    Extend(p, before, c, key, from, from + k * p.windowMs);
    assert before != [] ==> (before + [c])[|before| - 1].at <= c.at;
  }

  /** The buckets before a call of the key, with `a` calls counted so far. */
  ghost predicate Ready(p: Policy, o: Option<Bucket>, from: nat, q: nat, a: nat, now: nat) {
    match o
    case None => a == 0
    case Some(b) => Sound(p, b, now) && Bounded(p, b, from, q, a)
  }

  lemma CurrentReady(p: Policy, o: Option<Bucket>, from: nat, q: nat, a: nat, now: nat) returns (q': nat)
    requires ValidPolicy(p) && Ready(p, o, from, q, a, now) && (a > 0 ==> from <= now)
    ensures var b := Current(o, p.windowMs, now);
      Sound(p, b, now) && Bounded(p, b, from, q', a)
  {
    q' := q;
    match o {
      case None => q' := StartWindow(p, from, now);
      case Some(b) =>
        if now >= b.resetAt {
          q' := NewWindow(p, b, from, q, a, now);
        }
    }
  }

  lemma CallStep(p: Policy, o: Option<Bucket>, from: nat, k: nat, q: nat, a: nat, now: nat) returns (q': nat)
    requires ValidPolicy(p) && Ready(p, o, from, q, a, now) && (a > 0 ==> from <= now) && a <= (k + 1) * p.limit
    ensures var (b, answer) := Consumed(o, p.limit, p.windowMs, now);
      var a' := a + if from <= now < from + k * p.windowMs && answer.allowed then 1 else 0;
      Sound(p, b, now) && Bounded(p, b, from, q', a') && a' <= (k + 1) * p.limit
  {
    q' := CurrentReady(p, o, from, q, a, now);
    hide Pow2, Min, Current;
    var b := Current(o, p.windowMs, now);
    if now >= b.blockedUntil && b.count < p.limit {
      if from <= now < from + k * p.windowMs {
        OneMore(p, b, from, k, q', a, now);
      } else {
        CountMore(p, b, from, q', a);
      }
    }
  }

  lemma ReadyBefore(p: Policy, before: seq<Call>, c: Call, from: nat, k: nat, q: nat)
    requires ValidPolicy(p) && Monotone(before + [c]) && CountInvariant(p, before, c.key, from, k, q)
    ensures var a := AllowedIn(p, before, c.key, from, from + k * p.windowMs);
      && Ready(p, Find(After(p, before), c.key), from, q, a, c.at)
      && (a > 0 ==> from <= c.at)
      && a <= (k + 1) * p.limit
  {
    hide Bounded, AllowedIn, After;
    assert before != [] ==> (before + [c])[|before| - 1].at <= (before + [c])[|before|].at;
  }

  /** The call's own bucket and count, one call later. */
  lemma CountsOn(p: Policy, before: seq<Call>, c: Call, from: nat, k: nat, q: nat) returns (q': nat)
    requires ValidPolicy(p) && Monotone(before + [c]) && CountInvariant(p, before, c.key, from, k, q)
    ensures var b := Consumed(Find(After(p, before), c.key), p.limit, p.windowMs, c.at).0;
      var to := from + k * p.windowMs;
      var a := AllowedIn(p, before, c.key, from, to) + if from <= c.at < to && Answer(p, After(p, before), c).allowed then 1 else 0;
      Sound(p, b, c.at) && Bounded(p, b, from, q', a) && a <= (k + 1) * p.limit && (a > 0 ==> from <= c.at)
  {
    ReadyBefore(p, before, c, from, k, q);
    hide *;
    q' := CallStep(p, Find(After(p, before), c.key), from, k, q,
                   AllowedIn(p, before, c.key, from, from + k * p.windowMs), c.at);
  }

  lemma OwnCall(p: Policy, before: seq<Call>, c: Call, from: nat, k: nat, q: nat) returns (q': nat)
    requires ValidPolicy(p) && Monotone(before + [c]) && CountInvariant(p, before, c.key, from, k, q)
    ensures CountInvariant(p, before + [c], c.key, from, k, q')
  {
    q' := CountsOn(p, before, c, from, k, q);
    hide Consumed, Bounded, Sound, AllowedIn, After, Monotone, Answer;
    Extend(p, before, c, c.key, from, from + k * p.windowMs);
  }

  lemma StartWindow(p: Policy, from: nat, now: nat) returns (q: nat)
    requires ValidPolicy(p)
    ensures Bounded(p, Bucket(0, now + p.windowMs, 0, 0), from, q, 0)
  {
    q := 0;
  }

  lemma CountMore(p: Policy, b: Bucket, from: nat, q: nat, allowed: nat)
    requires Bounded(p, b, from, q, allowed)
    ensures Bounded(p, b.(count := b.count + 1), from, q, allowed)
  {}

  /** Any interval of `k` windows holds at most `(k + 1) * limit` allowed calls of a key. */
  lemma RateBound(p: Policy, calls: seq<Call>, key: string, from: nat, k: nat)
    requires ValidPolicy(p) && Monotone(calls)
    ensures AllowedIn(p, calls, key, from, from + k * p.windowMs) <= (k + 1) * p.limit
  {
    var q := CountsBounded(p, calls, key, from, k);
  }

  // ---- Blocks ----

  lemma {:induction false} Pow2Mono(m: nat, n: nat)
    requires m <= n
    ensures Pow2(m) <= Pow2(n)
  {
    if m < n {
      Pow2Mono(m, n - 1);
    }
  }

  lemma BlockMsMono(w: nat, m: nat, n: nat)
    requires 1 <= m <= n
    ensures BlockMs(w, m) <= BlockMs(w, n) <= MAX_BLOCK_MS
  {
    Pow2Mono(m - 1, n - 1);
    MulMono(Pow2(m - 1), Pow2(n - 1), w);
  }

  /** How many blocks the key has had. */
  function Blocks(p: Policy, calls: seq<Call>, key: string): nat
    requires p.limit >= 1
  {
    match Find(After(p, calls), key)
    case None => 0
    case Some(b) => b.blocks
  }

  /** The call at `i` starts a block of its key. */
  ghost predicate StartsBlock(p: Policy, calls: seq<Call>, i: nat)
    requires p.limit >= 1 && i < |calls|
  {
    Blocks(p, calls[..i + 1], calls[i].key) > Blocks(p, calls[..i], calls[i].key)
  }

  /** How long the block started by the call at `i` lasts. */
  function BlockLength(p: Policy, calls: seq<Call>, i: nat): int
    requires p.limit >= 1 && i < |calls|
  {
    match Find(After(p, calls[..i + 1]), calls[i].key)
    case None => 0
    case Some(b) => b.blockedUntil - calls[i].at
  }

  lemma Prefix(calls: seq<Call>, i: nat)
    requires i < |calls|
    ensures calls[..i + 1] == calls[..i] + [calls[i]]
  {}

  lemma BlockStart(p: Policy, calls: seq<Call>, i: nat)
    requires p.limit >= 1 && i < |calls| && StartsBlock(p, calls, i)
    ensures Blocks(p, calls[..i + 1], calls[i].key) == Blocks(p, calls[..i], calls[i].key) + 1
    ensures BlockLength(p, calls, i) == BlockMs(p.windowMs, Blocks(p, calls[..i + 1], calls[i].key))
  {
    hide AllowedIn, BlockMs, After;
    Prefix(calls, i);
    Extend(p, calls[..i], calls[i], calls[i].key, 0, 0);
  }

  lemma {:induction false} BlocksGrow(p: Policy, calls: seq<Call>, key: string, i: nat, j: nat)
    requires p.limit >= 1 && i <= j <= |calls|
    ensures Blocks(p, calls[..i], key) <= Blocks(p, calls[..j], key)
    decreases j
  {
    if i < j {
      BlocksGrow(p, calls, key, i, j - 1);
      Prefix(calls, j - 1);
      Extend(p, calls[..j - 1], calls[j - 1], key, 0, 0);
      hide After, AllowedIn, BlockMs;
      assert Blocks(p, calls[..j - 1], key) <= Blocks(p, calls[..j - 1] + [calls[j - 1]], key);
    }
  }

  /** Along a trace the blocks of a key never get shorter, and never exceed fifteen minutes. */
  lemma BlocksNeverShrink(p: Policy, calls: seq<Call>, i: nat, j: nat)
    requires ValidPolicy(p) && i <= j < |calls| && calls[i].key == calls[j].key
    requires StartsBlock(p, calls, i) && StartsBlock(p, calls, j)
    ensures 1 <= BlockLength(p, calls, i) <= BlockLength(p, calls, j) <= MAX_BLOCK_MS
  {
    hide Blocks, BlockMs;
    BlockStart(p, calls, i);
    BlockStart(p, calls, j);
    BlocksGrow(p, calls, calls[i].key, i + 1, j + 1);
    BlockMsMono(p.windowMs, Blocks(p, calls[..i + 1], calls[i].key), Blocks(p, calls[..j + 1], calls[j].key));
    BlockMsPositive(p.windowMs, Blocks(p, calls[..i + 1], calls[i].key));
  }

  lemma BlockMsPositive(w: nat, n: nat)
    requires w >= 1 && n >= 1
    ensures Min(w, MAX_BLOCK_MS) <= BlockMs(w, n) && 1 <= BlockMs(w, n)
  {
    MulMono(1, Pow2(n - 1), w);
  }

  /** Each block of a key is twice as long as the one before, up to fifteen minutes. */
  lemma {:induction false} BlocksDouble(p: Policy, calls: seq<Call>, i: nat, j: nat)
    requires ValidPolicy(p) && i < j < |calls| && calls[i].key == calls[j].key
    requires StartsBlock(p, calls, i) && StartsBlock(p, calls, j)
    requires forall k | i < k < j && calls[k].key == calls[i].key :: !StartsBlock(p, calls, k)
    ensures BlockLength(p, calls, j) == if 2 * BlockLength(p, calls, i) < 15 * 60_000 then 2 * BlockLength(p, calls, i) else 15 * 60_000
  {
    hide Blocks, BlockMs;
    BlockStart(p, calls, i);
    BlockStart(p, calls, j);
    SameBlocks(p, calls, calls[i].key, i + 1, j);
    BlockMsDoubles(p.windowMs, Blocks(p, calls[..i + 1], calls[i].key));
  }

  /** The first block of a key lasts as long as the window, up to fifteen minutes. */
  lemma {:induction false} FirstBlock(p: Policy, calls: seq<Call>, i: nat)
    requires ValidPolicy(p) && i < |calls| && StartsBlock(p, calls, i)
    requires forall k | 0 <= k < i && calls[k].key == calls[i].key :: !StartsBlock(p, calls, k)
    ensures BlockLength(p, calls, i) == if p.windowMs < 15 * 60_000 then p.windowMs else 15 * 60_000
  {
    BlockStart(p, calls, i);
    SameBlocks(p, calls, calls[i].key, 0, i);
    assert calls[..0] == [];
    assert Blocks(p, [], calls[i].key) == 0;
    assert Pow2(0) == 1;
  }

  lemma {:induction false} BlockMsDoubles(w: nat, n: nat)
    requires n >= 1
    ensures BlockMs(w, n + 1) == if 2 * BlockMs(w, n) < 15 * 60_000 then 2 * BlockMs(w, n) else 15 * 60_000
  {
    assert Pow2(n) == 2 * Pow2(n - 1);
    assert w * Pow2(n) == 2 * (w * Pow2(n - 1));
  }

  lemma {:induction false} SameBlocks(p: Policy, calls: seq<Call>, key: string, i: nat, j: nat)
    requires p.limit >= 1 && i <= j <= |calls|
    requires forall k | i <= k < j && calls[k].key == key :: !StartsBlock(p, calls, k)
    ensures Blocks(p, calls[..i], key) == Blocks(p, calls[..j], key)
    decreases j
  {
    if i < j {
      SameBlocks(p, calls, key, i, j - 1);
      BlocksGrow(p, calls, key, j - 1, j);
      Prefix(calls, j - 1);
      Extend(p, calls[..j - 1], calls[j - 1], key, 0, 0);
      hide AllowedIn, BlockMs, After;
    }
  }

  /** The announced delay is the time left in whole seconds, rounded up, and at least one. */
  lemma {:induction false} RetryIsCeiling(ms: nat)
    ensures RetrySeconds(ms) >= 1 && 1000 * RetrySeconds(ms) >= ms
    ensures RetrySeconds(ms) > 1 ==> 1000 * (RetrySeconds(ms) - 1) < ms
  {}

  // ---- After a block ----

  /**
   * The `i`-th call, of `key`, was refused; other keys may have called since, and the next call of
   * this key, at `at`, waited as it was told.
   */
  ghost predicate WaitedOut(p: Policy, calls: seq<Call>, key: string, i: nat, at: nat)
    requires p.limit >= 1
  {
    && i < |calls| && Monotone(calls + [Call(key, at)])
    && calls[i].key == key && (forall j | i < j < |calls| :: calls[j].key != key)
    && var answer := Answer(p, After(p, calls[..i]), calls[i]);
      !answer.allowed && at >= calls[i].at + 1000 * answer.retryAfterSeconds
  }

  /** Calls of other keys leave the bucket of a key alone. */
  lemma {:induction false} OthersLeave(p: Policy, calls: seq<Call>, key: string, n: nat)
    requires p.limit >= 1 && n <= |calls| && forall j | n <= j < |calls| :: calls[j].key != key
    ensures Find(After(p, calls), key) == Find(After(p, calls[..n]), key)
    decreases |calls|
  {
    if n == |calls| {
      assert calls[..n] == calls;
    } else {
      hide Consumed;
      var before := calls[..|calls| - 1];
      OthersLeave(p, before, key, n);
      assert before[..n] == calls[..n];
    }
  }

  /** While a key is blocked its window is new, or ends no later than the block. */
  ghost predicate Released(b: Bucket, last: nat) {
    b.blockedUntil > last ==> b.count == 0 || b.resetAt <= b.blockedUntil
  }

  lemma ReleasedStep(p: Policy, o: Option<Bucket>, last: nat, now: nat)
    requires ValidPolicy(p) && p.windowMs <= MAX_BLOCK_MS && last <= now
    requires o.Some? ==> Sound(p, o.value, last) && Released(o.value, last)
    ensures var (b, answer) := Consumed(o, p.limit, p.windowMs, now);
      Sound(p, b, now) && Released(b, now)
  {
    hide BlockMs;
    var b := Current(o, p.windowMs, now);
    BlockMsPositive(p.windowMs, b.blocks + 1);
  }

  lemma {:induction false} AlwaysReleased(p: Policy, calls: seq<Call>, key: string)
    requires ValidPolicy(p) && p.windowMs <= MAX_BLOCK_MS && Monotone(calls)
    ensures match Find(After(p, calls), key)
      case None => true
      case Some(b) => calls != [] && Sound(p, b, calls[|calls| - 1].at) && Released(b, calls[|calls| - 1].at)
    decreases |calls|
  {
    if calls != [] {
      var before, c := calls[..|calls| - 1], calls[|calls| - 1];
      AlwaysReleased(p, before, key);
      hide Consumed;
      var last := if before == [] then 0 else before[|before| - 1].at;
      var o := Find(After(p, before), key);
      assert last <= c.at;
      if c.key == key {
        ReleasedStep(p, o, last, c.at);
      }
    }
  }

  lemma RefusedIsBlocked(p: Policy, o: Option<Bucket>, now: nat)
    requires ValidPolicy(p) && !Consumed(o, p.limit, p.windowMs, now).1.allowed
    ensures var (b, answer) := Consumed(o, p.limit, p.windowMs, now);
      b.blockedUntil > now && now + 1000 * answer.retryAfterSeconds >= b.blockedUntil
  {
    hide BlockMs;
    var b := Current(o, p.windowMs, now);
    BlockMsPositive(p.windowMs, b.blocks + 1);
  }

  lemma ShortWindowAllows(p: Policy, calls: seq<Call>, key: string, i: nat, at: nat)
    requires ValidPolicy(p) && p.windowMs <= MAX_BLOCK_MS && WaitedOut(p, calls, key, i, at)
    ensures Answer(p, After(p, calls), Call(key, at)).allowed
  {
    OthersLeave(p, calls, key, i + 1);
    var upTo, before, c := calls[..i + 1], calls[..i], calls[i];
    assert upTo == before + [c];
    forall j, k | 0 <= j < k < |upTo|
      ensures upTo[j].at <= upTo[k].at
    {
      var all := calls + [Call(key, at)];
      assert upTo[j] == all[j] && upTo[k] == all[k];
    }
    AlwaysReleased(p, upTo, key);
    hide After;
    Extend(p, before, c, key, 0, 0);
    hide AllowedIn;
    var o := Find(After(p, before), key);
    RefusedIsBlocked(p, o, c.at);
    var b := Consumed(o, p.limit, p.windowMs, c.at).0;
    assert Find(After(p, upTo), key) == Some(b);
    assert Sound(p, b, c.at) && b.blockedUntil > c.at;
    hide BlockMs;
    assert at >= b.blockedUntil;
  }

  /** `n` calls at time 0. */
  function Burst(n: nat): seq<Call> { seq(n, _ => Call("k", 0)) }

  lemma {:induction false} BurstFills(p: Policy, n: nat)
    requires ValidPolicy(p) && n <= p.limit
    ensures Find(After(p, Burst(n)), "k") == if n == 0 then None else Some(Bucket(n, p.windowMs, 0, 0))
  {
    if n > 0 {
      BurstFills(p, n - 1);
      assert Burst(n)[..n - 1] == Burst(n - 1);
    }
  }

  lemma LongWindowRefuses(p: Policy)
    requires ValidPolicy(p) && p.windowMs > MAX_BLOCK_MS
    ensures WaitedOut(p, Burst(p.limit + 1), "k", p.limit, MAX_BLOCK_MS)
    ensures !Answer(p, After(p, Burst(p.limit + 1)), Call("k", MAX_BLOCK_MS)).allowed
  {
    var calls := Burst(p.limit + 1);
    BurstFills(p, p.limit);
    assert calls[..p.limit] == Burst(p.limit);
    assert BlockMs(p.windowMs, 1) == MAX_BLOCK_MS by {
      assert Pow2(0) == 1;
    }
    assert Find(After(p, calls), "k") == Some(Bucket(p.limit, p.windowMs, MAX_BLOCK_MS, 1));
  }

  /**
   * Waiting as told after a refusal always gets the next call of the key through, whatever other keys
   * do meanwhile, if and only if the window is no longer than the longest block.
   */
  lemma WaitingIsEnough(p: Policy)
    requires ValidPolicy(p)
    ensures (forall calls: seq<Call>, key: string, i: nat, at: nat | WaitedOut(p, calls, key, i, at) ::
               Answer(p, After(p, calls), Call(key, at)).allowed)
            <==> p.windowMs <= MAX_BLOCK_MS
  {
    hide After, Answer;
    if p.windowMs <= MAX_BLOCK_MS {
      forall calls: seq<Call>, key: string, i: nat, at: nat | WaitedOut(p, calls, key, i, at)
        ensures Answer(p, After(p, calls), Call(key, at)).allowed
      {
        ShortWindowAllows(p, calls, key, i, at);
      }
    } else {
      LongWindowRefuses(p);
    }
  }

  // ---- Remaining calls ----

  /** `n` repetitions of a call. */
  function Again(c: Call, n: nat): seq<Call> { seq(n, _ => c) }

  lemma AgainNext(p: Policy, calls: seq<Call>, c: Call, n: nat)
    requires p.limit >= 1
    ensures var b := After(p, calls + Again(c, n));
      After(p, calls + Again(c, n + 1)) == b[c.key := Consumed(Find(b, c.key), p.limit, p.windowMs, c.at).0]
  {
    var all := calls + Again(c, n + 1);
    assert all[..|all| - 1] == calls + Again(c, n) && all[|all| - 1] == c;
  }

  /** The bucket of a key after an allowed call repeated at once `n` times more. */
  lemma {:induction false} AgainBucket(p: Policy, calls: seq<Call>, c: Call, n: nat)
    requires ValidPolicy(p) && Answer(p, After(p, calls), c).allowed
    ensures var left := Answer(p, After(p, calls), c).remaining;
      match Find(After(p, calls + Again(c, n + 1)), c.key)
      case None => false
      case Some(b) =>
        && c.at < b.resetAt
        && (if n <= left then b.blockedUntil <= c.at && b.count + left == p.limit + n else c.at < b.blockedUntil)
  {
    if n == 0 {
      assert calls + Again(c, 0) == calls;
      AgainNext(p, calls, c, 0);
    } else {
      AgainBucket(p, calls, c, n - 1);
      AgainNext(p, calls, c, n);
      hide After;
      var b := Find(After(p, calls + Again(c, n)), c.key).value;
      BlockMsPositive(p.windowMs, b.blocks + 1);
    }
  }

  /** An allowed call's `remaining` is exact: as many further calls at once are allowed, and no more. */
  lemma RemainingIsExact(p: Policy, calls: seq<Call>, c: Call, n: nat)
    requires ValidPolicy(p) && Answer(p, After(p, calls), c).allowed
    ensures Answer(p, After(p, calls + Again(c, n + 1)), c).allowed <==> n < Answer(p, After(p, calls), c).remaining
  {
    AgainBucket(p, calls, c, n);
  }
}
