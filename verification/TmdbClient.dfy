/** One request of the client, written as the code is, over the breaker, the bucket and the semaphore.
    Everything it does is recorded as steps of the request protocol, so that what holds of every run
    of the protocol holds of it. No other request runs in between; RequestProtocol has those runs. */
module TmdbClients {
  import opened Options
  import Buckets = TokenBucket
  import Machines = RateLimitMachine
  import opened RequestProtocol

  /** How a call to the API ends, how long it takes, and how long the breaker then takes to clean. */
  datatype Ending = Responded | ApiError(response: Option<int>, retryAfter: Option<real>) | OtherError
  datatype Answer = Answer(duration: real, cleaning: real, ending: Ending)

  datatype Result = Returned | Unavailable | NoSlot | Exhausted | Raised

  /** The pause between two attempts to take a token. */
  const PAUSE := 0.1

  ghost predicate Timed(answers: seq<Answer>) {
    forall i :: 0 <= i < |answers| ==> answers[i].duration >= 0.0 && answers[i].cleaning >= 0.0
  }

  /** What the calls from the i-th on come to. */
  ghost function Verdict(answers: seq<Answer>, i: nat): Result
    decreases |answers| - i
  {
    if i >= |answers| then Exhausted
    else if answers[i].ending.Responded? then Returned
    else if answers[i].ending.OtherError? then Raised
    else Verdict(answers, i + 1)
  }

  /** How many calls are made from the i-th on. */
  ghost function CallsFrom(answers: seq<Answer>, i: nat): nat
    decreases |answers| - i
  {
    if i >= |answers| then 0
    else if answers[i].ending.ApiError? then 1 + CallsFrom(answers, i + 1)
    else 1
  }

  /** After `before`, only request r is different, and it is now q. */
  ghost predicate OnlyMoved(before: map<nat, Request>, after: map<nat, Request>, r: nat, q: Request) {
    after == before[r := q]
  }

  /** The calls are all made, and all fail, exactly when the verdict is that the retries are exhausted. */
  lemma {:induction false} ExhaustionTakesEveryCall(answers: seq<Answer>, i: nat)
    requires i <= |answers|
    ensures Verdict(answers, i) == Exhausted <==> forall k :: i <= k < |answers| ==> answers[k].ending.ApiError?
    ensures Verdict(answers, i) == Exhausted ==> CallsFrom(answers, i) == |answers| - i
    ensures CallsFrom(answers, i) <= |answers| - i && (i < |answers| ==> CallsFrom(answers, i) >= 1)
    ensures Verdict(answers, i) != Unavailable && Verdict(answers, i) != NoSlot
    decreases |answers| - i
  {
    if i < |answers| {
      ExhaustionTakesEveryCall(answers, i + 1);
    }
  }

  /** Only the calls up to the k-th are made, and it is the first not to end in an API error. */
  ghost predicate EndsAt(answers: seq<Answer>, k: nat) {
    k < |answers| && !answers[k].ending.ApiError? && forall j :: 0 <= j < k ==> answers[j].ending.ApiError?
  }

  /** The first call not to end in an API error is the last one made, and decides: its response is returned,
      its other error raised. */
  lemma {:induction false} FirstOtherAnswerDecides(answers: seq<Answer>, i: nat, k: nat)
    requires i <= k && EndsAt(answers, k)
    ensures CallsFrom(answers, i) == k + 1 - i
    ensures Verdict(answers, i) == Returned <==> answers[k].ending.Responded?
    ensures Verdict(answers, i) == Raised <==> answers[k].ending.OtherError?
    decreases k - i
  {
    if i < k {
      FirstOtherAnswerDecides(answers, i + 1, k);
    }
  }

  // ---------- Waiting for a token ----------

  /** How many pauses short of a token the bucket is. */
  ghost function PausesShort(b: Buckets.Bucket, capacity: int, rate: real, now: real): real
    requires rate > 0.0
  {
    (1.0 - Buckets.Effective(b, capacity, rate, now)) / (rate * PAUSE)
  }

  /** A refusal means that less than a token is there, and leaves what is there as it was. */
  lemma RefusalKeepsTokens(b: Buckets.Bucket, capacity: int, rate: real, now: real)
    requires capacity > 0 && rate > 0.0 && Buckets.InRange(b, capacity) && b.lastRefill <= now
    requires Buckets.Taken(b, capacity, rate, 1, now).1 != Buckets.Granted
    ensures var b' := Buckets.Taken(b, capacity, rate, 1, now).0;
            && Buckets.Effective(b', capacity, rate, now) == Buckets.Effective(b, capacity, rate, now) < 1.0
            && b'.lastRefill <= now && Buckets.InRange(b', capacity)
  {
    Buckets.EarnedAdds(rate, b.lastRefill, now, now);
    assert Buckets.Earned(rate, now, now) == 0.0;
  }

  /** A grant takes one token of what is there. */
  lemma GrantTakesOne(b: Buckets.Bucket, capacity: int, rate: real, now: real)
    requires capacity > 0 && rate > 0.0 && Buckets.InRange(b, capacity) && b.lastRefill <= now
    requires Buckets.Taken(b, capacity, rate, 1, now).1 == Buckets.Granted
    ensures var b' := Buckets.Taken(b, capacity, rate, 1, now).0;
            Buckets.Effective(b', capacity, rate, now) == Buckets.Effective(b, capacity, rate, now) - 1.0 >= 0.0
  {
    Buckets.EarnedAdds(rate, b.lastRefill, now, now);
    assert Buckets.Earned(rate, now, now) == 0.0;
  }

  /** After a pause the bucket holds a token or is at least one pause nearer to it. */
  lemma PausingHelps(b: Buckets.Bucket, capacity: int, rate: real, now: real)
    requires capacity > 0 && rate > 0.0 && Buckets.InRange(b, capacity) && b.lastRefill <= now
    requires Buckets.Effective(b, capacity, rate, now) < 1.0
    ensures PausesShort(b, capacity, rate, now) > 0.0
    ensures Buckets.Effective(b, capacity, rate, Later(now, PAUSE)) >= 1.0
         || PausesShort(b, capacity, rate, Later(now, PAUSE)) <= PausesShort(b, capacity, rate, now) - 1.0
  {
    var later, step := Later(now, PAUSE), rate * PAUSE;
    Buckets.EarnedAdds(rate, b.lastRefill, now, later);
    Buckets.EarnedAdds(rate, b.lastRefill, now, now);
    assert Buckets.Earned(rate, now, now) == 0.0;
    assert Buckets.Earned(rate, now, later) == step > 0.0;
    var e, e' := Buckets.Effective(b, capacity, rate, now), Buckets.Effective(b, capacity, rate, later);
    assert e' >= 1.0 || e' >= e + step;
    Nearer(e, e', step);
  }

  lemma Nearer(e: real, e': real, step: real)
    requires step > 0.0 && e < 1.0
    ensures (1.0 - e) / step > 0.0
    ensures e' >= e + step ==> (1.0 - e') / step <= (1.0 - e) / step - 1.0
  {
    var x, y := (1.0 - e) / step, (1.0 - e') / step;
    assert x * step == 1.0 - e && y * step == 1.0 - e';
    var z := x - y - 1.0;
    assert z * step == e' - e - step;
    assert z < 0.0 ==> z * step < 0.0;
  }

  // ---------- The client ----------

  ghost predicate Stepped(c: Config, trace: seq<Step>, history: seq<World>, i: nat)
    requires i < |trace| && i + 1 < |history|
  {
    Next(c, history[i], trace[i]) == Some(history[i + 1])
  }

  /** The steps lead from the initial state through the given states to the last of them. */
  ghost predicate Passed(c: Config, start: real, trace: seq<Step>, history: seq<World>, world: World) {
    && |history| == |trace| + 1 && history[0] == Initial(c, start) && history[|trace|] == world
    && forall i {:trigger Stepped(c, trace, history, i)} :: 0 <= i < |trace| ==> Stepped(c, trace, history, i)
  }

  lemma PassingOn(c: Config, start: real, trace: seq<Step>, history: seq<World>, world: World, step: Step, w: World)
    requires Passed(c, start, trace, history, world) && Next(c, world, step) == Some(w)
    ensures Passed(c, start, trace + [step], history + [w], w)
  {
    forall i | 0 <= i < |trace| + 1 ensures Stepped(c, trace + [step], history + [w], i) {
      assert i < |trace| ==> Stepped(c, trace, history, i);
    }
  }

  lemma PassedBefore(c: Config, start: real, trace: seq<Step>, history: seq<World>, n: nat)
    requires n <= |trace| && |history| == |trace| + 1 && Passed(c, start, trace, history, history[|trace|])
    ensures Passed(c, start, trace[..n], history[..n + 1], history[n])
  {
    var t, h := trace[..n], history[..n + 1];
    forall i | 0 <= i < n ensures Stepped(c, t, h, i) {
      assert Stepped(c, trace, history, i);
    }
  }

  /** What a client does is a run of the request protocol, so that all its promises hold of it. */
  lemma {:induction false} ClientsRunTheProtocol(c: Config, start: real, trace: seq<Step>, history: seq<World>, world: World)
    requires Passed(c, start, trace, history, world)
    ensures Run(c, start, trace) == Some(world)
    decreases |trace|
  {
    if trace != [] {
      var n := |trace| - 1;
      PassedBefore(c, start, trace, history, n);
      ClientsRunTheProtocol(c, start, trace[..n], history[..n + 1], history[n]);
      assert Stepped(c, trace, history, n);
    }
  }

  /** Request q, about to make its first call, after k calls that ended in API errors. */
  ghost function AfterFailures(c: Config, q: Request, k: nat): Request {
    var backoffs := if k <= c.attempts then k else c.attempts;
    q.(phase := if k <= c.attempts then Calling(k) else Leaving(false), calls := k, fed := k,
       backoffs := backoffs, slept := SleptAfter(c, backoffs))
  }

  /** What a failed call other than a 429 does. */
  lemma ErrorStep(c: Config, w: World, r: nat, q: Request, cleaning: real, response: Option<int>, retryAfter: Option<real>)
    requires r in w.requests && w.requests[r] == q && q.phase.Calling? && cleaning >= 0.0 && response != Some(TOO_MANY_REQUESTS)
    ensures var w' := Next(c, w, Fail(r, cleaning, response, retryAfter));
            && w'.Some? && w'.value.clock == Later(w.clock, cleaning) && w'.value.free == w.free && w'.value.bucket == w.bucket
            && w'.value.machine == Machines.AfterError(w.machine, c.machine, w.clock, Later(w.clock, cleaning))
            && w'.value.requests == w.requests[r := q.(phase := Retrying(q.phase.attempt), calls := q.calls + 1, fed := q.fed + 1)]
  {
  }

  /** How long the wait after a 429 is, counted from its arrival, the cleaning included. */
  lemma WaitingOutThe429(s: Machines.State, c: Machines.Config, now: real, cleaning: real, retryAfter: Option<real>)
    requires cleaning >= 0.0
    ensures var cleaned := Later(now, cleaning);
            var s' := Machines.After429(s, c, now, cleaned, retryAfter);
            var after := Later(cleaned, Machines.RetryDelay(s', cleaned));
            && s'.mode == Machines.Throttle && Machines.MayRequest(s', after)
            && (retryAfter.Some? ==> after - now >= retryAfter.value || after - now >= c.maxRetryAfter)
            && (retryAfter.Some? && cleaning <= retryAfter.value <= c.maxRetryAfter ==> after - now == retryAfter.value)
  {
  }

  /** Request q after its loop: what the calls came to, and all that was done on the way. */
  ghost predicate Finished(c: Config, q: Request, answers: seq<Answer>, result: Result) {
    var calls := CallsFrom(answers, 0);
    && calls >= 1 && result == Verdict(answers, 0)
    && q.phase == Leaving(result == Returned) && q.tokens == 1
    && q.calls == calls && q.fed == calls - q.other && q.other == (if result == Raised then 1 else 0)
    && q.slept == SleptAfter(c, calls - 1)
  }

  /** The same once the slot has been given back. */
  ghost predicate Over(c: Config, q: Request, answers: seq<Answer>, result: Result) {
    && Finished(c, q.(phase := Leaving(result == Returned)), answers, result)
    && q.phase == Done(result == Returned) && q.entered == q.released == 1
  }

  lemma AllFailed(c: Config, q: Request, answers: seq<Answer>)
    requires q.tokens == 1 && q.other == 0 && |answers| == c.attempts + 1
    requires Verdict(answers, 0) == Verdict(answers, |answers|) && CallsFrom(answers, 0) == |answers| + CallsFrom(answers, |answers|)
    ensures Finished(c, AfterFailures(c, q, |answers|), answers, Exhausted)
  {
  }

  /** Request q once call `answer` has ended its loop. */
  ghost function Concluded(q: Request, answer: Answer): Request {
    if answer.ending.Responded? then q.(phase := Leaving(true), calls := q.calls + 1, fed := q.fed + 1)
    else q.(phase := Leaving(false), calls := q.calls + 1, other := q.other + 1)
  }

  lemma OneConcluded(c: Config, q: Request, answers: seq<Answer>, k: nat)
    requires q.tokens == 1 && q.other == 0 && k <= c.attempts && k < |answers| && !answers[k].ending.ApiError?
    requires Verdict(answers, 0) == Verdict(answers, k) && CallsFrom(answers, 0) == k + CallsFrom(answers, k)
    ensures Finished(c, Concluded(AfterFailures(c, q, k), answers[k]), answers, Verdict(answers, k))
  {
  }

  class TmdbClient {
    const config: Config
    const start: real
    const machine: Machines.RateLimitStateMachine
    const limiter: Buckets.TokenBucketRateLimiter
    var clock: real
    var free: int
    // The steps taken so far, the states they passed through, and the last of these.
    ghost var trace: seq<Step>
    ghost var history: seq<World>
    ghost var world: World

    /** The parts agree with the state that the recorded steps lead to. */
    ghost predicate Valid()
      reads this, machine, limiter
    {
      && Sensible(config) && machine.config == config.machine
      && limiter.capacity == config.capacity && limiter.refillRate == config.rate && limiter.Valid()
      && world.clock == clock && world.free == free
      && world.machine == machine.Value() && world.bucket == limiter.State() && limiter.lastRefill <= clock
      && Passed(config, start, trace, history, world)
    }

    constructor (config: Config, now: real)
      requires Sensible(config)
      ensures Valid() && trace == [] && this.config == config && fresh(machine) && fresh(limiter)
    {
      this.config, start, clock, free := config, now, now, config.limit;
      machine := new Machines.RateLimitStateMachine(config.machine);
      limiter := new Buckets.TokenBucketRateLimiter(config.capacity, config.rate, now);
      trace, history, world := [], [Initial(config, now)], Initial(config, now);
    }

    ghost method Record(step: Step)
      requires Passed(config, start, trace, history, world) && Next(config, world, step).Some?
      modifies `trace, `history, `world
      ensures Some(world) == Next(config, old(world), step)
      ensures Passed(config, start, trace, history, world)
    {
      ghost var w := Next(config, world, step).value;
      PassingOn(config, start, trace, history, world, step, w);
      trace, history, world := trace + [step], history + [w], w;
    }

    ghost predicate At(r: nat, q: Request)
      reads this
    {
      r in world.requests && world.requests[r] == q
    }

    method Pass(dt: real)
      requires Valid() && dt >= 0.0
      modifies `clock, `trace, `history, `world
      ensures Valid() && clock == Later(old(clock), dt) && world == old(world).(clock := clock)
    {
      clock := Later(clock, dt);
      Record(Tick(dt));
    }

    /** Turned away in cache-only mode alone; otherwise the breaker's delay is waited out, and then the
        breaker allows the request. */
    method CheckRequestPermissibility(r: nat, ghost q: Request) returns (ok: bool)
      requires Valid() && At(r, q) && q.phase == Checking
      modifies `clock, `trace, `history, `world
      ensures Valid()
      ensures OnlyMoved(old(world.requests), world.requests, r, q.(phase := if ok then Waiting else Done(false)))
      ensures !ok <==> machine.mode == Machines.CacheOnly
      ensures clock == Later(old(clock), Machines.RetryDelay(machine.Value(), old(clock)))
      ensures ok ==> Machines.MayRequest(machine.Value(), clock)
    {
      var may := machine.ShouldMakeRequest(clock);
      Record(Check(r));
      if may {
        return true;
      }
      Record(ReadState(r));
      if machine.mode == Machines.CacheOnly {
        return false;
      }
      WaitOutDelay(r, q.(phase := Delaying));
      return true;
    }

    method WaitOutDelay(r: nat, ghost q: Request)
      requires Valid() && At(r, q) && q.phase == Delaying
      modifies `clock, `trace, `history, `world
      ensures Valid() && OnlyMoved(old(world.requests), world.requests, r, q.(phase := Waiting))
      ensures clock == Later(old(clock), Machines.RetryDelay(machine.Value(), old(clock)))
    {
      var delay := machine.GetRetryDelay(clock);
      Record(ReadDelay(r));
      if delay > 0.0 {
        Pass(delay);
        Record(Wake(r));
      }
    }

    /** What is there to take at this moment. */
    ghost function Tokens(): real
      reads this, limiter
    {
      Buckets.Effective(limiter.State(), config.capacity, config.rate, clock)
    }

    ghost function Shortage(): real
      requires config.rate > 0.0
      reads this, limiter
    {
      PausesShort(limiter.State(), config.capacity, config.rate, clock)
    }

    method TryToken(r: nat, ghost q: Request) returns (granted: bool)
      requires Valid() && At(r, q) && q.phase == Metering
      modifies this`trace, this`history, this`world, limiter
      ensures Valid()
      ensures granted ==> OnlyMoved(old(world.requests), world.requests, r, q.(phase := Calling(0), tokens := q.tokens + 1))
      ensures granted ==> Tokens() == old(Tokens()) - 1.0 >= 0.0
      ensures !granted ==> world.requests == old(world.requests) && Tokens() == old(Tokens()) < 1.0
    {
      ghost var b := limiter.State();
      var answer := limiter.TryAcquire(1, clock);
      granted := answer == Buckets.Granted;
      if granted {
        GrantTakesOne(b, config.capacity, config.rate, clock);
      } else {
        RefusalKeepsTokens(b, config.capacity, config.rate, clock);
      }
      Record(Meter(r));
    }

    /** A pause brings a token, or comes nearer to it by one pause. */
    method PauseForToken()
      requires Valid() && Tokens() < 1.0
      modifies this`clock, this`trace, this`history, this`world
      ensures Valid() && world.requests == old(world.requests)
      ensures old(Shortage()) > 0.0 && (Tokens() >= 1.0 || Shortage() <= old(Shortage()) - 1.0)
    {
      PausingHelps(limiter.State(), config.capacity, config.rate, clock);
      Pass(PAUSE);
    }

    /** Waits for a token; with no other request about, one comes. */
    method ApplyRateLimiting(r: nat, ghost q: Request)
      requires Valid() && At(r, q) && q.phase == Metering
      modifies this`clock, this`trace, this`history, this`world, limiter
      ensures Valid()
      ensures OnlyMoved(old(world.requests), world.requests, r, q.(phase := Calling(0), tokens := q.tokens + 1))
    {
      var granted := TryToken(r, q);
      while !granted
        invariant Valid()
        invariant granted ==> OnlyMoved(old(world.requests), world.requests, r, q.(phase := Calling(0), tokens := q.tokens + 1))
        invariant !granted ==> world.requests == old(world.requests) && Tokens() < 1.0
        decreases if granted then -1.0 else Shortage()
      {
        PauseForToken();
        ghost var nearer := Shortage();
        granted := TryToken(r, q);
      }
    }

    /** The breaker has recorded a 429 that came at `before`, the delay it then asked for has been waited
        out, and the bucket is full. */
    ghost predicate LimitedBy(machineBefore: Machines.State, before: real, cleaning: real, retryAfter: Option<real>)
      reads this, machine, limiter
    {
      var cleaned := Later(before, cleaning);
      && machine.Value() == Machines.After429(machineBefore, config.machine, before, cleaned, retryAfter)
      && clock == Later(cleaned, Machines.RetryDelay(machine.Value(), cleaned))
      && limiter.State() == Buckets.Bucket(config.capacity as real, clock)
    }

    /** The breaker has recorded any other failure that came at `before`, without a wait. */
    ghost predicate ErredBy(machineBefore: Machines.State, before: real, cleaning: real)
      reads this, machine
    {
      && clock == Later(before, cleaning)
      && machine.Value() == Machines.AfterError(machineBefore, config.machine, before, clock)
    }

    /** Status 429 throttles, waits and refills the bucket; anything else goes to handle_error, which
        therefore never blocks. After a 429 with Retry-After the client goes on no sooner than it says, up
        to the cap, and the breaker then allows the next call. */
    method ProcessErrorResponse(r: nat, ghost q: Request, response: Option<int>, retryAfter: Option<real>, cleaning: real)
      requires Valid() && At(r, q) && q.phase.Calling? && cleaning >= 0.0
      modifies this`clock, this`trace, this`history, this`world, machine, limiter
      ensures Valid()
      ensures OnlyMoved(old(world.requests), world.requests, r,
                        q.(phase := Retrying(q.phase.attempt), calls := q.calls + 1, fed := q.fed + 1))
      ensures response == Some(TOO_MANY_REQUESTS) ==> LimitedBy(old(machine.Value()), old(clock), cleaning, retryAfter)
      ensures response != Some(TOO_MANY_REQUESTS) ==>
                ErredBy(old(machine.Value()), old(clock), cleaning) && limiter.State() == old(limiter.State())
      ensures response == Some(TOO_MANY_REQUESTS) ==> machine.mode == Machines.Throttle && Machines.MayRequest(machine.Value(), clock)
      ensures response == Some(TOO_MANY_REQUESTS) && retryAfter.Some? ==>
                clock - old(clock) >= retryAfter.value || clock - old(clock) >= config.machine.maxRetryAfter
      ensures response == Some(TOO_MANY_REQUESTS) && retryAfter.Some? && cleaning <= retryAfter.value <= config.machine.maxRetryAfter ==>
                clock - old(clock) == retryAfter.value
    {
      if response == Some(TOO_MANY_REQUESTS) {
        WaitingOutThe429(machine.Value(), config.machine, clock, cleaning, retryAfter);
        ProcessTooManyRequests(r, q, retryAfter, cleaning);
      } else if response.Some? {
        ProcessError(r, q, response, response.value, retryAfter, cleaning);
      } else {
        ProcessError(r, q, response, 0, retryAfter, cleaning);
      }
    }

    method ProcessError(r: nat, ghost q: Request, ghost response: Option<int>, status: int, ghost retryAfter: Option<real>, cleaning: real)
      requires Valid() && At(r, q) && q.phase.Calling? && cleaning >= 0.0
      requires response != Some(TOO_MANY_REQUESTS) && status == if response.Some? then response.value else 0
      modifies this`clock, this`trace, this`history, this`world, machine
      ensures Valid()
      ensures OnlyMoved(old(world.requests), world.requests, r,
                        q.(phase := Retrying(q.phase.attempt), calls := q.calls + 1, fed := q.fed + 1))
      ensures ErredBy(old(machine.Value()), old(clock), cleaning)
    {
      ErrorStep(config, world, r, q, cleaning, response, retryAfter);
      var blocked := machine.HandleError(clock, Later(clock, cleaning), status);
      assert !blocked;
      clock := Later(clock, cleaning);
      Record(Fail(r, cleaning, response, retryAfter));
    }

    method ProcessTooManyRequests(r: nat, ghost q: Request, retryAfter: Option<real>, cleaning: real)
      requires Valid() && At(r, q) && q.phase.Calling? && cleaning >= 0.0
      modifies this`clock, this`trace, this`history, this`world, machine, limiter
      ensures Valid()
      ensures OnlyMoved(old(world.requests), world.requests, r,
                        q.(phase := Retrying(q.phase.attempt), calls := q.calls + 1, fed := q.fed + 1))
      ensures LimitedBy(old(machine.Value()), old(clock), cleaning, retryAfter)
    {
      machine.Handle429(clock, Later(clock, cleaning), retryAfter);
      clock := Later(clock, cleaning);
      Record(Fail(r, cleaning, Some(TOO_MANY_REQUESTS), retryAfter));
      WaitAndRefill(r, q.(phase := Limited(q.phase.attempt), calls := q.calls + 1, fed := q.fed + 1));
    }

    method WaitAndRefill(r: nat, ghost q: Request)
      requires Valid() && At(r, q) && q.phase.Limited?
      modifies this`clock, this`trace, this`history, this`world, limiter
      ensures Valid()
      ensures OnlyMoved(old(world.requests), world.requests, r, q.(phase := Retrying(q.phase.attempt)))
      ensures clock == Later(old(clock), Machines.RetryDelay(machine.Value(), old(clock)))
      ensures limiter.State() == Buckets.Bucket(config.capacity as real, clock)
    {
      WaitAfter429(r, q);
      limiter.Reset(clock);
      Record(Refill(r));
    }

    method WaitAfter429(r: nat, ghost q: Request)
      requires Valid() && At(r, q) && q.phase.Limited?
      modifies this`clock, this`trace, this`history, this`world
      ensures Valid()
      ensures OnlyMoved(old(world.requests), world.requests, r, q.(phase := Refilling(q.phase.attempt)))
      ensures clock == Later(old(clock), Machines.RetryDelay(machine.Value(), old(clock)))
    {
      var delay := machine.GetRetryDelay(clock);
      Record(ReadDelay(r));
      if delay > 0.0 {
        Sleep(r, q.(phase := LimitSleep(q.phase.attempt, Later(clock, delay))), delay);
      }
    }

    /** asyncio.sleep: a length that is not positive is no wait at all. */
    method Sleep(r: nat, ghost q: Request, length: real)
      requires Valid() && At(r, q) && (q.phase.LimitSleep? || q.phase.Backoff?) && q.phase.until == Later(clock, length)
      modifies this`clock, this`trace, this`history, this`world
      ensures Valid()
      ensures OnlyMoved(old(world.requests), world.requests, r,
                        q.(phase := if q.phase.Backoff? then Calling(q.phase.attempt + 1) else Refilling(q.phase.attempt)))
      ensures clock == if length > 0.0 then Later(old(clock), length) else old(clock)
    {
      if length > 0.0 {
        Pass(length);
      }
      Record(Wake(r));
    }

    method BackOff(r: nat, ghost q: Request, attempt: nat)
      requires Valid() && At(r, q) && q.phase == Retrying(attempt)
      modifies this`clock, this`trace, this`history, this`world
      ensures Valid()
      ensures OnlyMoved(old(world.requests), world.requests, r,
                        if attempt < config.attempts
                        then q.(phase := Calling(attempt + 1), backoffs := q.backoffs + 1, slept := Later(q.slept, BackoffLength(config, attempt)))
                        else q.(phase := Leaving(false)))
    {
      Record(Retry(r));
      if attempt < config.attempts {
        var delay := BackoffLength(config, attempt);
        Sleep(r, world.requests[r], delay);
      }
    }

    method HandleTmdbException(r: nat, ghost q: Request, attempt: nat, response: Option<int>, retryAfter: Option<real>, cleaning: real)
      requires Valid() && At(r, AfterFailures(config, q, attempt)) && attempt <= config.attempts && cleaning >= 0.0
      modifies this`clock, this`trace, this`history, this`world, machine, limiter
      ensures Valid()
      ensures OnlyMoved(old(world.requests), world.requests, r, AfterFailures(config, q, attempt + 1))
    {
      ghost var p := AfterFailures(config, q, attempt);
      ProcessErrorResponse(r, p, response, retryAfter, cleaning);
      BackOff(r, p.(phase := Retrying(attempt), calls := p.calls + 1, fed := p.fed + 1), attempt);
    }

    /** The call that ends the loop: a success or an exception of another kind. */
    method Conclude(r: nat, ghost q: Request, answer: Answer) returns (result: Result)
      requires Valid() && At(r, q) && q.phase.Calling? && answer.cleaning >= 0.0 && !answer.ending.ApiError?
      modifies this`clock, this`trace, this`history, this`world, machine
      ensures Valid() && result == (if answer.ending.Responded? then Returned else Raised)
      ensures OnlyMoved(old(world.requests), world.requests, r, Concluded(q, answer))
      ensures answer.ending.Responded? ==>
                && clock == Later(old(clock), answer.cleaning)
                && machine.Value() == Machines.AfterSuccess(old(machine.Value()), config.machine, old(clock), clock)
      ensures !answer.ending.Responded? ==> clock == old(clock) && machine.Value() == old(machine.Value())
    {
      if answer.ending.Responded? {
        machine.HandleSuccess(clock, Later(clock, answer.cleaning));
        clock := Later(clock, answer.cleaning);
        Record(Succeed(r, answer.cleaning));
        return Returned;
      }
      Record(Crash(r));
      return Raised;
    }

    method ExecuteWithRetry(r: nat, ghost q: Request, answers: seq<Answer>) returns (result: Result)
      requires Valid() && At(r, q) && q == AfterFailures(config, q, 0) && q.tokens == 1 && q.other == 0
      requires |answers| == config.attempts + 1 && Timed(answers)
      modifies this`clock, this`trace, this`history, this`world, machine, limiter
      ensures Valid() && r in world.requests && Finished(config, world.requests[r], answers, result)
      ensures OnlyMoved(old(world.requests), world.requests, r, world.requests[r])
      ensures world.requests[r].entered == q.entered && world.requests[r].released == q.released
    {
      for attempt := 0 to config.attempts + 1
        invariant Valid() && OnlyMoved(old(world.requests), world.requests, r, AfterFailures(config, q, attempt))
        invariant Verdict(answers, attempt) == Verdict(answers, 0)
        invariant CallsFrom(answers, 0) == attempt + CallsFrom(answers, attempt)
      {
        ghost var p := AfterFailures(config, q, attempt);
        var answer := answers[attempt];
        Pass(answer.duration);
        if answer.ending.ApiError? {
          HandleTmdbException(r, q, attempt, answer.ending.response, answer.ending.retryAfter, answer.cleaning);
        } else {
          OneConcluded(config, q, answers, attempt);
          result := Conclude(r, p, answer);
          return;
        }
      }
      AllFailed(config, q, answers);
      return Exhausted;
    }

    method EnterSlot(r: nat, ghost q: Request)
      requires Valid() && At(r, q) && q.phase == Waiting && free > 0
      modifies this`free, this`trace, this`history, this`world
      ensures Valid() && free == old(free) - 1
      ensures OnlyMoved(old(world.requests), world.requests, r, q.(phase := Metering, entered := q.entered + 1))
    {
      free := free - 1;
      Record(Enter(r));
    }

    method LeaveSlot(r: nat, ghost q: Request)
      requires Valid() && At(r, q) && q.phase.Leaving?
      modifies this`free, this`trace, this`history, this`world
      ensures Valid() && free == old(free) + 1
      ensures OnlyMoved(old(world.requests), world.requests, r, q.(phase := Done(q.phase.ok), released := q.released + 1))
    {
      free := free + 1;
      Record(Leave(r));
    }

    /** The body of the async with: the slot is taken before the wait for a token and given back
        however the calls end. */
    method WithSlot(r: nat, ghost q: Request, answers: seq<Answer>) returns (result: Result)
      requires Valid() && At(r, q) && q == NEW_REQUEST.(phase := Waiting) && free > 0
      requires |answers| == config.attempts + 1 && Timed(answers)
      modifies this`clock, this`free, this`trace, this`history, this`world, machine, limiter
      ensures Valid() && free == old(free) && result != Unavailable && result != NoSlot
      ensures r in world.requests && OnlyMoved(old(world.requests), world.requests, r, world.requests[r])
      ensures Over(config, world.requests[r], answers, result)
    {
      ExhaustionTakesEveryCall(answers, 0);
      EnterSlot(r, q);
      ApplyRateLimiting(r, q.(phase := Metering, entered := 1));
      result := ExecuteWithRetry(r, q.(phase := Calling(0), entered := 1, tokens := 1), answers);
      LeaveSlot(r, world.requests[r]);
    }

    method Arrival(r: nat)
      requires Valid() && r !in world.requests
      modifies this`trace, this`history, this`world
      ensures Valid() && OnlyMoved(old(world.requests), world.requests, r, NEW_REQUEST)
    {
      Record(Arrive(r));
    }

    /** A request arrives and is turned away, or goes on to wait for a slot. */
    method Admit(r: nat) returns (ok: bool)
      requires Valid() && r !in world.requests
      modifies this`clock, this`trace, this`history, this`world
      ensures Valid() && (!ok <==> machine.mode == Machines.CacheOnly)
      ensures OnlyMoved(old(world.requests), world.requests, r, NEW_REQUEST.(phase := if ok then Waiting else Done(false)))
    {
      Arrival(r);
      ok := CheckRequestPermissibility(r, NEW_REQUEST);
    }

    method GiveUpWaiting(r: nat, ghost q: Request)
      requires Valid() && At(r, q) && q.phase == Waiting
      modifies this`trace, this`history, this`world
      ensures Valid() && OnlyMoved(old(world.requests), world.requests, r, q.(phase := Done(false)))
    {
      Record(TimeOut(r));
    }

    /** A whole request. It is turned away in cache-only mode, and when no slot comes free; otherwise
        its result is what the answers come to. The slot it takes is given back. */
    method MakeRequest(r: nat, answers: seq<Answer>) returns (result: Result)
      requires Valid() && r !in world.requests && free >= 0
      requires |answers| == config.attempts + 1 && Timed(answers)
      modifies this`clock, this`free, this`trace, this`history, this`world, machine, limiter
      ensures Valid() && free == old(free)
      ensures r in world.requests && OnlyMoved(old(world.requests), world.requests, r, world.requests[r])
      ensures result == Unavailable <==> old(machine.mode) == Machines.CacheOnly
      ensures result == NoSlot <==> old(machine.mode) != Machines.CacheOnly && old(free) == 0
      ensures result == Unavailable || result == NoSlot ==> world.requests[r] == NEW_REQUEST.(phase := Done(false))
      ensures result != Unavailable && result != NoSlot ==> Over(config, world.requests[r], answers, result)
    {
      var ok := Admit(r);
      if !ok {
        return Unavailable;
      }
      if free <= 0 {
        GiveUpWaiting(r, NEW_REQUEST.(phase := Waiting));
        return NoSlot;
      }
      result := WithSlot(r, NEW_REQUEST.(phase := Waiting), answers);
    }
  }
}
