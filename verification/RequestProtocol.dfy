/** Any number of concurrent requests sharing one semaphore, one token bucket and one breaker, as a
    transition system: each step is what one request, or the clock, does between two awaits. */
module RequestProtocol {
  import opened Options
  import Buckets = TokenBucket
  import Machines = RateLimitMachine

  datatype Config = Config(limit: nat, capacity: int, rate: real, attempts: nat, retryDelay: real, machine: Machines.Config)

  ghost predicate Sensible(c: Config) {
    c.limit > 0 && c.capacity > 0 && c.rate > 0.0
  }

  const TOO_MANY_REQUESTS := 429

  /** Where a request is. */
  datatype Phase =
    | Checking                            // asking should_make_request
    | Denied                              // told no, reading the state
    | Delaying                            // asking for the retry delay
    | PreSleep(until: real)
    | Waiting                             // at the semaphore
    | Metering                            // holding a slot, asking for a token
    | Calling(attempt: nat)
    | Limited(attempt: nat)               // after a 429, asking for the retry delay
    | LimitSleep(attempt: nat, until: real)
    | Refilling(attempt: nat)             // about to reset the bucket
    | Retrying(attempt: nat)              // after a failed attempt
    | Backoff(attempt: nat, until: real)
    | Leaving(ok: bool)                   // about to release the slot
    | Done(ok: bool)

  /** A request and what it has done so far: slots entered and released, tokens taken, API calls made,
      breaker events fed, calls ended by other exceptions, backoffs begun and their total length. */
  datatype Request = Request(phase: Phase, entered: nat, released: nat, tokens: nat, calls: nat,
                             fed: nat, other: nat, backoffs: nat, slept: real)

  const NEW_REQUEST := Request(Checking, 0, 0, 0, 0, 0, 0, 0, 0.0)

  /** One handler call on the breaker: whose, which event, and the status passed to handle_error. */
  datatype Feed = Feed(caller: Option<nat>, event: Machines.Event, status: int)

  datatype World = World(
    clock: real,
    free: int,
    bucket: Buckets.Bucket,
    machine: Machines.State,
    requests: map<nat, Request>,
    log: seq<Feed>,
    uses: seq<Buckets.Use>,
    calls: multiset<nat>,
    grants: set<nat>)

  function Pow2(k: nat): nat {
    if k == 0 then 1 else 2 * Pow2(k - 1)
  }

  /** The length of the k-th backoff, and of the first k together. */
  function BackoffLength(c: Config, k: nat): real {
    c.retryDelay * Pow2(k) as real
  }

  function SleptAfter(c: Config, k: nat): real {
    if k == 0 then 0.0 else SleptAfter(c, k - 1) + BackoffLength(c, k - 1)
  }

  /** Whether a request in this phase holds a slot. */
  predicate Inside(p: Phase) {
    p.Metering? || p.Calling? || p.Limited? || p.LimitSleep? || p.Refilling? || p.Retrying? || p.Backoff? || p.Leaving?
  }

  // ---------- Steps ----------

  datatype Step =
    | Tick(dt: real)
    | Arrive(r: nat)
    | Check(r: nat)
    | ReadState(r: nat)
    | ReadDelay(r: nat)
    | Wake(r: nat)
    | Enter(r: nat)
    | TimeOut(r: nat)
    | Meter(r: nat)
    | Succeed(r: nat, cleaning: real)
    | Fail(r: nat, cleaning: real, response: Option<int>, retryAfter: Option<real>)
    | Crash(r: nat)
    | Refill(r: nat)
    | Retry(r: nat)
    | Cancel(r: nat)
    | Leave(r: nat)
    | ResetBucket
    | ResetMachine

  function Moved(w: World, r: nat, q: Request): World {
    w.(requests := w.requests[r := q])
  }

  function Later(t: real, dt: real): real {
    t + dt
  }

  /** An event fed to the breaker at the current reading, cleaning `cleaning` later. */
  function Fed(c: Config, w: World, caller: Option<nat>, event: Machines.Event, status: int): World {
    w.(clock := event.clean, machine := Machines.After(w.machine, c.machine, event), log := w.log + [Feed(caller, event, status)])
  }

  function BucketReset(c: Config, w: World): World {
    w.(bucket := Buckets.Bucket(c.capacity as real, w.clock), uses := w.uses + [Buckets.Reset(w.clock)])
  }

  /** The state after a step, if the step is possible. */
  function Next(c: Config, w: World, step: Step): Option<World> {
    match step
    case Tick(dt) => if dt >= 0.0 then Some(w.(clock := Later(w.clock, dt))) else None
    case Arrive(r) => if r in w.requests then None else Some(Moved(w, r, NEW_REQUEST))
    case ResetBucket => Some(BucketReset(c, w))
    case ResetMachine => Some(Fed(c, w, None, Machines.OnReset(w.clock, w.clock), 0))
    case _ => if step.r in w.requests then OfRequest(c, w, step, step.r, w.requests[step.r]) else None
  }

  function OfRequest(c: Config, w: World, step: Step, r: nat, q: Request): Option<World>
    requires !step.Tick? && !step.Arrive? && !step.ResetBucket? && !step.ResetMachine?
  {
    match step
    case Check(_) =>
      if !q.phase.Checking? then None
      else Some(Moved(w, r, q.(phase := if Machines.MayRequest(w.machine, w.clock) then Waiting else Denied)))
    case ReadState(_) =>
      if !q.phase.Denied? then None
      else Some(Moved(w, r, q.(phase := if w.machine.mode == Machines.CacheOnly then Done(false) else Delaying)))
    case ReadDelay(_) =>
      var d := Machines.RetryDelay(w.machine, w.clock);
      if q.phase.Delaying? then
        Some(Moved(w, r, q.(phase := if d > 0.0 then PreSleep(Later(w.clock, d)) else Waiting)))
      else if q.phase.Limited? then
        Some(Moved(w, r, q.(phase := if d > 0.0 then LimitSleep(q.phase.attempt, Later(w.clock, d)) else Refilling(q.phase.attempt))))
      else None
    case Wake(_) =>
      if q.phase.PreSleep? && w.clock >= q.phase.until then Some(Moved(w, r, q.(phase := Waiting)))
      else if q.phase.LimitSleep? && w.clock >= q.phase.until then Some(Moved(w, r, q.(phase := Refilling(q.phase.attempt))))
      else if q.phase.Backoff? && w.clock >= q.phase.until then Some(Moved(w, r, q.(phase := Calling(q.phase.attempt + 1))))
      else None
    case Enter(_) =>
      if q.phase.Waiting? && w.free > 0 then
        Some(Moved(w.(free := w.free - 1), r, q.(phase := Metering, entered := q.entered + 1)))
      else None
    case TimeOut(_) =>
      if q.phase.Waiting? then Some(Moved(w, r, q.(phase := Done(false)))) else None
    case Meter(_) =>
      if q.phase.Metering? then Some(Metered(c, w, r, q)) else None
    case Succeed(_, cleaning) =>
      if q.phase.Calling? && cleaning >= 0.0 then
        Some(Moved(Fed(c, Called(w, r), Some(r), Machines.OnSuccess(w.clock, Later(w.clock, cleaning)), 0), r,
                   q.(phase := Leaving(true), calls := q.calls + 1, fed := q.fed + 1)))
      else None
    case Fail(_, cleaning, response, retryAfter) =>
      if q.phase.Calling? && cleaning >= 0.0 then
        var limited := response == Some(TOO_MANY_REQUESTS);
        var event := if limited then Machines.On429(w.clock, Later(w.clock, cleaning), retryAfter)
                     else Machines.OnError(w.clock, Later(w.clock, cleaning));
        var status := if response.Some? then response.value else 0;
        Some(Moved(Fed(c, Called(w, r), Some(r), event, status), r,
                   q.(phase := if limited then Limited(q.phase.attempt) else Retrying(q.phase.attempt),
                      calls := q.calls + 1, fed := q.fed + 1)))
      else None
    case Crash(_) =>
      if q.phase.Calling? then Some(Moved(Called(w, r), r, q.(phase := Leaving(false), calls := q.calls + 1, other := q.other + 1)))
      else None
    case Refill(_) =>
      if q.phase.Refilling? then Some(Moved(BucketReset(c, w), r, q.(phase := Retrying(q.phase.attempt)))) else None
    case Retry(_) =>
      if !q.phase.Retrying? then None
      else if q.phase.attempt < c.attempts then
        var d := BackoffLength(c, q.phase.attempt);
        Some(Moved(w, r, q.(phase := Backoff(q.phase.attempt, Later(w.clock, d)), backoffs := q.backoffs + 1, slept := q.slept + d)))
      else Some(Moved(w, r, q.(phase := Leaving(false))))
    case Cancel(_) =>
      if q.phase.PreSleep? then Some(Moved(w, r, q.(phase := Done(false))))
      else if q.phase.Metering? || q.phase.LimitSleep? || q.phase.Backoff? then Some(Moved(w, r, q.(phase := Leaving(false))))
      else None
    case Leave(_) =>
      if q.phase.Leaving? then
        Some(Moved(w.(free := w.free + 1), r, q.(phase := Done(q.phase.ok), released := q.released + 1)))
      else None
  }

  function Called(w: World, r: nat): World {
    w.(calls := w.calls + multiset{r})
  }

  function Metered(c: Config, w: World, r: nat, q: Request): World {
    var (bucket, answer) := Buckets.Taken(w.bucket, c.capacity, c.rate, 1, w.clock);
    var w' := w.(bucket := bucket, uses := w.uses + [Buckets.Acquire(1, w.clock)]);
    if answer == Buckets.Granted then
      Moved(w'.(grants := w.grants + {r}), r, q.(phase := Calling(0), tokens := q.tokens + 1))
    else w'
  }

  /** Nothing has happened yet; the clock reads `start`. */
  function Initial(c: Config, start: real): World {
    World(start, c.limit, Buckets.Bucket(c.capacity as real, start), Machines.INITIAL, map[], [], [], multiset{}, {})
  }

  /** The state after a sequence of steps, if all are possible. */
  ghost function Run(c: Config, start: real, steps: seq<Step>): Option<World> {
    if steps == [] then Some(Initial(c, start))
    else
      var before := Run(c, start, steps[..|steps| - 1]);
      if before.Some? then Next(c, before.value, steps[|steps| - 1]) else None
  }
}
