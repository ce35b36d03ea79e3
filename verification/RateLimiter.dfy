/** The fixed-window limiter of internal/server/middleware/ratelimit.go: an INCR/EXPIRE script over
    Redis counters and the serve/reject decision around it. */
module RateLimiter {
  import opened Histories
  import opened Options

  /** A Redis counter with its expiry time. */
  datatype Counter = Counter(count: nat, deadline: int)

  /** `redisUp` is false when the script call fails; the middleware then serves the request. */
  datatype Request = Request(key: string, now: int, limit: int, window: int, redisUp: bool)

  type Keys = map<string, Counter>

  /** Whether a key whose deadline is the current instant is already gone depends on the Redis
      version; every result below holds for both answers. */
  predicate Live(gone: bool, c: Counter, now: int) {
    now < c.deadline || (now == c.deadline && !gone)
  }

  function Get(keys: Keys, k: string): Option<Counter> {
    if k in keys then Some(keys[k]) else None
  }

  function Put(keys: Keys, k: string, c: Option<Counter>): Keys {
    match c
    case Some(counter) => keys[k := counter]
    case None => keys - {k}
  }

  /** One run of the script on its key: the new counter, and the value INCR returned. EXPIRE with
      a non-positive window deletes the key. */
  function Script(gone: bool, c: Option<Counter>, now: int, window: int): (Option<Counter>, nat) {
    if c.Some? && Live(gone, c.value, now) then (Some(Counter(c.value.count + 1, c.value.deadline)), c.value.count + 1)
    else if window <= 0 then (None, 1)
    else (Some(Counter(1, now + window)), 1)
  }

  /** The middleware on one request: the new counters, and whether the request is served. */
  function Step(gone: bool, keys: Keys, r: Request): (Keys, bool) {
    if !r.redisUp then (keys, true)
    else
      var (c, current) := Script(gone, Get(keys, r.key), r.now, r.window);
      (Put(keys, r.key, c), current <= r.limit)
  }

  class RateLimitMiddleware {
    var keys: Keys
    const goneAtDeadline: bool

    /** A stored counter has counted at least the request that created it. */
    ghost predicate Valid()
      reads this
    {
      forall k :: k in keys ==> keys[k].count >= 1
    }

    constructor (goneAtDeadline: bool)
      ensures Valid() && keys == map[] && this.goneAtDeadline == goneAtDeadline
    {
      keys := map[];
      this.goneAtDeadline := goneAtDeadline;
    }

    /** INCR: an expired key counts from nothing. */
    method Incr(key: string, now: int) returns (current: nat)
      modifies this
      ensures if key in old(keys) && Live(goneAtDeadline, old(keys)[key], now)
              then current == old(keys)[key].count + 1 &&
                   keys == old(keys)[key := Counter(current, old(keys)[key].deadline)]
              else current == 1 && keys == old(keys)[key := Counter(1, now)]
    {
      if key in keys && Live(goneAtDeadline, keys[key], now) {
        current := keys[key].count + 1;
        keys := keys[key := Counter(current, keys[key].deadline)];
      } else {
        current := 1;
        keys := keys[key := Counter(1, now)];
      }
    }

    method Execute(r: Request) returns (served: bool)
      requires Valid()
      modifies this
      ensures Valid() && (keys, served) == Step(goneAtDeadline, old(keys), r)
    {
      if !r.redisUp {
        return true;
      }
      var current := Incr(r.key, r.now);
      if current == 1 {
        if r.window <= 0 {
          keys := keys - {r.key};
          assert keys == old(keys) - {r.key};
        } else {
          keys := keys[r.key := keys[r.key].(deadline := r.now + r.window)];
          assert keys == old(keys)[r.key := Counter(1, r.now + r.window)];
        }
      }
      served := current <= r.limit;
    }
  }

  // ---------- Runs ----------

  type History = Run<(), Request>

  function After(gone: bool, run: History): Keys {
    match run
    case Start(_) => map[]
    case Then(before, r) => Step(gone, After(gone, before), r).0
  }

  predicate Within(r: Request, k: string, from: int, to: int) {
    r.key == k && from <= r.now < to
  }

  /** Requests on `k` served at times in [from, to). */
  function Served(gone: bool, run: History, k: string, from: int, to: int): nat {
    match run
    case Start(_) => 0
    case Then(before, r) =>
      Served(gone, before, k, from, to) +
      if Within(r, k, from, to) && Step(gone, After(gone, before), r).1 then 1 else 0
  }

  /** Requests on `k` at times in [from, to) that the script could not be run for. */
  function FailedOpen(run: History, k: string, from: int, to: int): nat {
    match run
    case Start(_) => 0
    case Then(before, r) => FailedOpen(before, k, from, to) + if Within(r, k, from, to) && !r.redisUp then 1 else 0
  }

  /** Requests on `k` admitted by the counter that expires at `deadline`. */
  function ServedByCounter(gone: bool, run: History, k: string, deadline: int): nat {
    match run
    case Start(_) => 0
    case Then(before, r) =>
      var (keys, ok) := Step(gone, After(gone, before), r);
      ServedByCounter(gone, before, k, deadline) +
      if r.key == k && r.redisUp && ok && k in keys && keys[k].deadline == deadline then 1 else 0
  }

  /** Time never runs backwards, and `k` always has the same limit and window. */
  predicate Regular(run: History, k: string, limit: int, window: int) {
    match run
    case Start(_) => true
    case Then(before, r) =>
      Regular(before, k, limit, window) && (before.Then? ==> before.step.now <= r.now) &&
      (r.key == k ==> r.limit == limit && r.window == window)
  }

  function Max(a: int, b: int): int { if a < b then b else a }
  function Min(a: int, b: int): int { if a < b then a else b }

  /** A request touches the counter of its own key only. */
  lemma {:induction false} StepAt(gone: bool, keys: Keys, r: Request, k: string)
    ensures Get(Step(gone, keys, r).0, k) ==
            if r.key == k && r.redisUp then Script(gone, Get(keys, k), r.now, r.window).0 else Get(keys, k)
  {}

  // ---------- At most `limit` per counter ----------

  ghost predicate QuotaInvariant(c: Option<Counter>, limit: int, d: int, served: int) {
    served <= Max(limit, 0) &&
    (c.Some? ==> c.value.count >= 1) &&
    (c.Some? && c.value.deadline == d ==> served == Min(c.value.count, Max(limit, 0))) &&
    (c.None? || c.value.deadline < d ==> served == 0)
  }

  lemma {:induction false} QuotaInvariantHolds(gone: bool, run: History, k: string, limit: int, window: int, d: int)
    requires Regular(run, k, limit, window) && window >= 1
    ensures QuotaInvariant(Get(After(gone, run), k), limit, d, ServedByCounter(gone, run, k, d))
    ensures run.Then? ==> StartedBy(Get(After(gone, run), k), window, run.step.now)
  {
    if run.Then? {
      QuotaInvariantHolds(gone, run.before, k, limit, window, d);
      StepAt(gone, After(gone, run.before), run.step, k);
    }
  }

  /** Between the creation of a counter and its expiry at most `limit` requests are admitted. */
  lemma {:induction false} AtMostLimitPerCounter(gone: bool, run: History, k: string, limit: int, window: int, d: int)
    requires Regular(run, k, limit, window) && window >= 1
    ensures ServedByCounter(gone, run, k, d) <= Max(limit, 0)
  {
    QuotaInvariantHolds(gone, run, k, limit, window, d);
  }

  // ---------- Any interval of one window's length ----------

  /** What the counter of a key says about the requests admitted so far in [a, a + w). */
  ghost predicate WindowInvariant(c: Option<Counter>, limit: int, w: int, a: int, served: int) {
    match c
    case None => served <= 0
    case Some(c) =>
      var start := c.deadline - w;
      c.count >= 1 &&
      if start < a then served <= Max(0, Min(c.count, limit) - 1)
      else if start < a + w then served <= Max(0, limit - 1) + Min(c.count, Max(limit, 0))
      else served <= Max(0, 2 * limit - 1)
  }

  ghost predicate StartedBy(c: Option<Counter>, w: int, now: int) {
    c.Some? ==> c.value.deadline - w <= now
  }

  /** One more run of the script keeps it; nothing was admitted in the interval before it began. */
  lemma {:induction false} WindowInvariantStep(
    gone: bool, c: Option<Counter>, now: int, limit: int, w: int, a: int, served: int
  )
    requires w >= 1 && WindowInvariant(c, limit, w, a, served) && StartedBy(c, w, now)
    requires now < a ==> served == 0
    ensures var (c', current) := Script(gone, c, now, w);
            WindowInvariant(c', limit, w, a, served + if a <= now < a + w && current <= limit then 1 else 0) &&
            StartedBy(c', w, now)
  {}

  lemma {:induction false} WindowInvariantHolds(gone: bool, run: History, k: string, limit: int, w: int, a: int)
    requires Regular(run, k, limit, w) && w >= 1
    ensures var served := Served(gone, run, k, a, a + w) - FailedOpen(run, k, a, a + w);
            WindowInvariant(Get(After(gone, run), k), limit, w, a, served) &&
            (run.Then? ==> (run.step.now < a ==> served == 0) && StartedBy(Get(After(gone, run), k), w, run.step.now))
  {
    match run {
      case Start(_) =>
      case Then(before, r) =>
        WindowInvariantHolds(gone, before, k, limit, w, a);
        StepAt(gone, After(gone, before), r, k);
        if r.key == k && r.redisUp {
          WindowInvariantStep(gone, Get(After(gone, before), k), r.now, limit, w, a,
                              Served(gone, before, k, a, a + w) - FailedOpen(before, k, a, a + w));
        }
    }
  }

  /** Over every run, whatever other keys do, any interval as long as the window holds at most
      2 * limit - 1 requests on a key (none if the limit is not positive), beyond those served
      because Redis was down. */
  lemma {:induction false} AtMostTwiceLimitPerWindowLength(
    gone: bool, run: History, k: string, limit: int, w: int, a: int
  )
    requires Regular(run, k, limit, w) && w >= 1
    ensures Served(gone, run, k, a, a + w) <= Max(0, 2 * limit - 1) + FailedOpen(run, k, a, a + w)
  {
    WindowInvariantHolds(gone, run, k, limit, w, a);
  }

  // ---------- Intervals that include both ends ----------

  /** The same for [a, a + w] with both ends. Two counters can then start inside, at `a` and at
      `a + w`, but none admitted anything in the interval before one that starts at `a`. */
  ghost predicate ClosedInvariant(gone: bool, c: Option<Counter>, limit: int, w: int, a: int, served: int) {
    var quota := Max(limit, 0);
    match c
    case None => served <= 0
    case Some(c) =>
      var start := c.deadline - w;
      c.count >= 1 &&
      if start < a then served <= Min(c.count, quota) && (served > 0 ==> Live(gone, c, a))
      else if start == a then served <= Min(c.count, quota)
      else if start <= a + w then served <= quota + Min(c.count, quota)
      else served <= 2 * quota
  }

  lemma {:induction false} ClosedInvariantStep(
    gone: bool, c: Option<Counter>, now: int, limit: int, w: int, a: int, served: int
  )
    requires w >= 1 && ClosedInvariant(gone, c, limit, w, a, served) && StartedBy(c, w, now)
    requires now < a ==> served == 0
    ensures var (c', current) := Script(gone, c, now, w);
            ClosedInvariant(gone, c', limit, w, a, served + if a <= now <= a + w && current <= limit then 1 else 0) &&
            StartedBy(c', w, now)
  {}

  lemma {:induction false} ClosedInvariantHolds(gone: bool, run: History, k: string, limit: int, w: int, a: int)
    requires Regular(run, k, limit, w) && w >= 1
    ensures var served := Served(gone, run, k, a, a + w + 1) - FailedOpen(run, k, a, a + w + 1);
            ClosedInvariant(gone, Get(After(gone, run), k), limit, w, a, served) &&
            (run.Then? ==> (run.step.now < a ==> served == 0) && StartedBy(Get(After(gone, run), k), w, run.step.now))
  {
    match run {
      case Start(_) =>
      case Then(before, r) =>
        ClosedInvariantHolds(gone, before, k, limit, w, a);
        StepAt(gone, After(gone, before), r, k);
        if r.key == k && r.redisUp {
          ClosedInvariantStep(gone, Get(After(gone, before), k), r.now, limit, w, a,
                              Served(gone, before, k, a, a + w + 1) - FailedOpen(before, k, a, a + w + 1));
        }
    }
  }

  /** An interval [a, a + w] that includes both ends holds at most 2 * limit requests on a key,
      beyond those served because Redis was down. */
  lemma {:induction false} AtMostTwiceLimitBothEnds(gone: bool, run: History, k: string, limit: int, w: int, a: int)
    requires Regular(run, k, limit, w) && w >= 1
    ensures Served(gone, run, k, a, a + w + 1) <= 2 * Max(limit, 0) + FailedOpen(run, k, a, a + w + 1)
  {
    ClosedInvariantHolds(gone, run, k, limit, w, a);
  }

  // ---------- The bound is reached ----------

  function Burst(run: History, r: Request, n: nat): History {
    if n == 0 then run else Then(Burst(run, r, n - 1), r)
  }

  lemma {:induction false} BurstRegular(run: History, r: Request, n: nat)
    requires Regular(run, r.key, r.limit, r.window) && (run.Then? ==> run.step.now <= r.now)
    ensures Regular(Burst(run, r, n), r.key, r.limit, r.window)
    ensures Burst(run, r, n).Then? ==> Burst(run, r, n).step.now <= r.now
  {
    if n > 0 { BurstRegular(run, r, n - 1); }
  }

  /** A burst that fits the live counter is served entirely. */
  lemma {:induction false} BurstOnLiveCounter(gone: bool, run: History, r: Request, c: Counter, n: nat, a: int, b: int)
    requires r.redisUp && Get(After(gone, run), r.key) == Some(c) && Live(gone, c, r.now)
    requires c.count + n <= r.limit && a <= r.now < b
    ensures var all := Burst(run, r, n);
            Get(After(gone, all), r.key) == Some(Counter(c.count + n, c.deadline)) &&
            Served(gone, all, r.key, a, b) == Served(gone, run, r.key, a, b) + n
  {
    if n > 0 {
      BurstOnLiveCounter(gone, run, r, c, n - 1, a, b);
      StepAt(gone, After(gone, Burst(run, r, n - 1)), r, r.key);
    }
  }

  /** The run that reaches it: one request opens a window at time 0, the rest of its quota is used
      near its end, and a full quota follows as soon as it has expired. */
  function WorstCase(gone: bool, k: string, limit: int, w: int): History
    requires limit >= 1
  {
    var next := if gone then w else w + 1;
    var r := Request(k, 0, limit, w, true);
    Burst(Then(Burst(Then(Start(()), r), r.(now := next - 1), limit - 1), r.(now := next)), r.(now := next), limit - 1)
  }

  /** The first window: its opening request comes before the interval, the others in it. */
  lemma {:induction false} FirstBurst(gone: bool, k: string, limit: int, w: int, next: int, a: int)
    requires limit >= 1 && w >= 2 && next == (if gone then w else w + 1) && a == next - w + 1
    ensures var r := Request(k, 0, limit, w, true);
            var run := Burst(Then(Start(()), r), r.(now := next - 1), limit - 1);
            Regular(run, k, limit, w) && run.Then? && run.step.now <= next &&
            Get(After(gone, run), k) == Some(Counter(limit, w)) && Served(gone, run, k, a, a + w) == limit - 1
  {
    var r := Request(k, 0, limit, w, true);
    var opening := Then(Start(()), r);
    StepAt(gone, After(gone, Start(())), r, k);
    assert Get(After(gone, opening), k) == Some(Counter(1, w)) && Served(gone, opening, k, a, a + w) == 0;
    BurstOnLiveCounter(gone, opening, r.(now := next - 1), Counter(1, w), limit - 1, a, a + w);
    BurstRegular(opening, r.(now := next - 1), limit - 1);
  }

  lemma {:induction false} BoundIsReached(gone: bool, k: string, limit: int, w: int)
    requires limit >= 1 && w >= 2
    ensures var run, a := WorstCase(gone, k, limit, w), if gone then 1 else 2;
            Regular(run, k, limit, w) && Served(gone, run, k, a, a + w) == 2 * limit - 1
  {
    var next, a := if gone then w else w + 1, if gone then 1 else 2;
    var r := Request(k, 0, limit, w, true);
    var first := Burst(Then(Start(()), r), r.(now := next - 1), limit - 1);
    FirstBurst(gone, k, limit, w, next, a);
    var second := Then(first, r.(now := next));
    StepAt(gone, After(gone, first), r.(now := next), k);
    BurstOnLiveCounter(gone, second, r.(now := next), Counter(1, next + w), limit - 1, a, a + w);
    BurstRegular(second, r.(now := next), limit - 1);
  }

  /** With a window that is not positive the counter never survives to count: every request is
      served when the limit is at least one, and otherwise none that reaches Redis. */
  lemma {:induction false} NoWindowNoLimit(gone: bool, run: History, k: string, limit: int, w: int)
    requires Regular(run, k, limit, w) && w <= 0
    ensures k !in After(gone, run)
    ensures run.Then? && run.step.key == k ==>
              (Step(gone, After(gone, run.before), run.step).1 <==> limit >= 1 || !run.step.redisUp)
  {
    if run.Then? {
      NoWindowNoLimit(gone, run.before, k, limit, w);
    }
  }
}
