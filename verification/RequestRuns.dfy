/** The promises of the request protocol over whole runs: any number of requests, any interleaving, any
    answers from the API. */
module RequestRuns {
  import opened Options
  import Buckets = TokenBucket
  import Machines = RateLimitMachine
  import opened RequestProtocol
  import opened RequestSafety

  ghost predicate Inv(c: Config, start: real, w: World) {
    RequestsOk(c, w.requests) && SlotsOk(c, w) && BreakerOk(c, w) && BucketOk(c, start, w) && LedgerOk(w)
  }

  lemma InitialIsOk(c: Config, start: real)
    ensures Inv(c, start, Initial(c, start))
  {
    assert Holders(Initial(c, start).requests) == {};
  }

  lemma RequestStepKeepsRequests(c: Config, w: World, step: Step, r: nat, q: Request)
    requires OfOneRequest(step) && r in w.requests && w.requests[r] == q && OfRequest(c, w, step, r, q).Some?
    requires RequestsOk(c, w.requests)
    ensures RequestsOk(c, OfRequest(c, w, step, r, q).value.requests)
  {
    StepTouchesOne(c, w, step, r, q);
    StepKeepsRequest(c, w, step, r, q);
  }

  lemma RequestStepKeepsInv(c: Config, start: real, w: World, step: Step)
    requires Sensible(c) && Inv(c, start, w) && OfOneRequest(step) && Next(c, w, step).Some?
    ensures Inv(c, start, Next(c, w, step).value)
  {
    var r, q := step.r, w.requests[step.r];
    assert RequestOk(c, q) && Tallied(w, r);
    MeteringHasNoToken(c, w, step, r, q);
    RequestStepKeepsRequests(c, w, step, r, q);
    StepKeepsSlots(c, w, step, r, q);
    StepKeepsBreaker(c, w, step, r, q);
    StepKeepsBucket(c, start, w, step, r, q);
    StepKeepsLedger(c, w, step);
  }

  lemma ArrivalKeepsInv(c: Config, start: real, w: World, r: nat)
    requires Inv(c, start, w) && r !in w.requests
    ensures Inv(c, start, Moved(w, r, NEW_REQUEST))
  {
    var w' := Moved(w, r, NEW_REQUEST);
    HoldersChange(w.requests, r, NEW_REQUEST);
    forall x ensures Tallied(w', x) {
      assert Tallied(w, x);
    }
  }

  lemma SameBooks(w: World, w': World)
    requires LedgerOk(w) && w'.log == w.log && w'.calls == w.calls && w'.grants == w.grants && w'.requests == w.requests
    ensures LedgerOk(w')
  {
    forall x ensures Tallied(w', x) {
      assert Tallied(w, x);
    }
  }

  lemma TickKeepsInv(c: Config, start: real, w: World, dt: real)
    requires Inv(c, start, w) && dt >= 0.0
    ensures Inv(c, start, w.(clock := Later(w.clock, dt)))
  {
    LaterBreaker(c, w.machine, w.log, w.clock, Later(w.clock, dt));
    LaterBucket(c, start, w.bucket, w.uses, |w.grants|, w.clock, Later(w.clock, dt));
    SameBooks(w, w.(clock := Later(w.clock, dt)));
  }

  lemma BucketResetKeepsInv(c: Config, start: real, w: World)
    requires Inv(c, start, w)
    ensures Inv(c, start, BucketReset(c, w))
  {
    ResettingKeepsBucket(c, start, w);
    SameBooks(w, BucketReset(c, w));
  }

  lemma MachineResetKeepsInv(c: Config, start: real, w: World)
    requires Inv(c, start, w)
    ensures Inv(c, start, Next(c, w, ResetMachine).value)
  {
    var w', f := Next(c, w, ResetMachine).value, Feed(None, Machines.OnReset(w.clock, w.clock), 0);
    FeedingKeepsBreaker(c, w.machine, w.log, w.clock, f);
    forall x ensures Tallied(w', x) {
      assert Tallied(w, x);
      FedByOneMore(w.log, f, x);
    }
  }

  lemma StepKeepsInv(c: Config, start: real, w: World, step: Step)
    requires Sensible(c) && Inv(c, start, w) && Next(c, w, step).Some?
    ensures Inv(c, start, Next(c, w, step).value)
  {
    if OfOneRequest(step) {
      RequestStepKeepsInv(c, start, w, step);
    } else if step.Arrive? {
      ArrivalKeepsInv(c, start, w, step.r);
    } else if step.ResetMachine? {
      MachineResetKeepsInv(c, start, w);
    } else if step.Tick? {
      TickKeepsInv(c, start, w, step.dt);
    } else {
      BucketResetKeepsInv(c, start, w);
    }
  }

  lemma {:induction false} RunsKeepInv(c: Config, start: real, steps: seq<Step>)
    requires Sensible(c) && Run(c, start, steps).Some?
    ensures Inv(c, start, Run(c, start, steps).value)
  {
    if steps == [] {
      InitialIsOk(c, start);
    } else {
      var rest := steps[..|steps| - 1];
      RunsKeepInv(c, start, rest);
      StepKeepsInv(c, start, Run(c, start, rest).value, steps[|steps| - 1]);
    }
  }

  // ---------- The promises ----------

  /** Free slots plus requests inside make up the limit; a request enters at most once, has released iff
      it entered and is over, and one that timed out never releases. */
  lemma SlotsAreConserved(c: Config, start: real, steps: seq<Step>)
    requires Sensible(c) && Run(c, start, steps).Some?
    ensures var w := Run(c, start, steps).value;
            && 0 <= w.free <= c.limit && w.free + |Holders(w.requests)| == c.limit
            && (forall r {:trigger w.requests[r]} :: r in w.requests ==>
                 && w.requests[r].released <= w.requests[r].entered <= 1
                 && (r in Holders(w.requests) <==> w.requests[r].entered > w.requests[r].released)
                 && (w.requests[r].phase.Done? ==> w.requests[r].released == w.requests[r].entered))
            && ((forall r {:trigger w.requests[r]} :: r in w.requests ==> w.requests[r].phase.Done?) ==> w.free == c.limit)
  {
    RunsKeepInv(c, start, steps);
    var w := Run(c, start, steps).value;
    if forall r {:trigger w.requests[r]} :: r in w.requests ==> w.requests[r].phase.Done? {
      assert Holders(w.requests) == {};
    }
  }

  lemma SubsetIsNoLarger(small: set<nat>, large: set<nat>)
    requires small <= large
    ensures |small| <= |large|
  {
    assert large == small + (large - small);
  }

  ghost function UnderWay(requests: map<nat, Request>): set<nat> {
    set r | r in requests && requests[r].phase.Calling?
  }

  /** No more calls are under way at once than the semaphore has slots. */
  lemma ConcurrentCallsAreLimited(c: Config, start: real, steps: seq<Step>)
    requires Sensible(c) && Run(c, start, steps).Some?
    ensures var w := Run(c, start, steps).value;
            |UnderWay(w.requests)| <= c.limit
  {
    RunsKeepInv(c, start, steps);
    var w := Run(c, start, steps).value;
    SubsetIsNoLarger(UnderWay(w.requests), Holders(w.requests));
  }

  /** One token and at most attempts + 1 calls for each request; the breaker was told once of each of
      its calls that succeeded or ended in an API error, and of nothing else in its name. */
  lemma RequestsAreMetered(c: Config, start: real, steps: seq<Step>, r: nat)
    requires Sensible(c) && Run(c, start, steps).Some? && r in Run(c, start, steps).value.requests
    ensures var w := Run(c, start, steps).value; var q := w.requests[r];
            && q.tokens <= 1 && (r in w.grants <==> q.tokens == 1) && (w.calls[r] > 0 ==> q.tokens == 1)
            && w.calls[r] == q.calls <= c.attempts + 1
            && FedBy(w.log, r) == w.calls[r] - q.other && q.other <= 1
  {
    RunsKeepInv(c, start, steps);
    assert Tallied(Run(c, start, steps).value, r);
  }

  /** The breaker is in the state that its log of events gives, and handle_error, which would wait for a
      lock it holds, is never called with status 429. */
  lemma HandleErrorNeverSees429(c: Config, start: real, steps: seq<Step>)
    requires Sensible(c) && Run(c, start, steps).Some?
    ensures var w := Run(c, start, steps).value;
            && w.machine == Machines.AfterAll(c.machine, History(w.log)) && Machines.Timely(History(w.log))
            && Never429(w.log)
  {
    RunsKeepInv(c, start, steps);
  }

  /** retry_delay * (2^k - 1). */
  ghost function Doublings(c: Config, k: nat): real {
    c.retryDelay * (Pow2(k) - 1) as real
  }

  /** The first k backoffs together. */
  lemma {:induction false} BackoffsDouble(c: Config, k: nat)
    ensures SleptAfter(c, k) == Doublings(c, k)
  {
    if k > 0 {
      BackoffsDouble(c, k - 1);
      assert c.retryDelay * (Pow2(k - 1) - 1) as real + c.retryDelay * Pow2(k - 1) as real
          == c.retryDelay * (Pow2(k) - 1) as real;
    }
  }

  /** A request backs off for retry_delay * (2^k - 1) in its first k backoffs; one that made every
      allowed call has backed off exactly `attempts` times. */
  lemma BackoffIsExponential(c: Config, start: real, steps: seq<Step>, r: nat)
    requires Sensible(c) && Run(c, start, steps).Some? && r in Run(c, start, steps).value.requests
    ensures var q := Run(c, start, steps).value.requests[r];
            && q.slept == Doublings(c, q.backoffs)
            && (q.calls == c.attempts + 1 ==> q.backoffs == c.attempts)
  {
    RunsKeepInv(c, start, steps);
    var q := Run(c, start, steps).value.requests[r];
    assert RequestOk(c, q);
    BackoffsDouble(c, q.backoffs);
  }

  // ---------- Backing off takes time ----------

  /** Before `now` a request has had the time for the backoffs it has completed, unless it was cancelled. */
  ghost predicate HadTime(q: Request, start: real, now: real) {
    match q.phase
    case Backoff(_, until) => q.slept <= until - start
    case Leaving(ok) => ok ==> q.slept <= now - start
    case Done(ok) => ok ==> q.slept <= now - start
    case _ => q.slept <= now - start
  }

  ghost predicate AllHadTime(w: World, start: real) {
    start <= w.clock && forall r {:trigger w.requests[r]} :: r in w.requests ==> HadTime(w.requests[r], start, w.clock)
  }

  lemma LaterIsEnough(q: Request, start: real, now: real, later: real)
    requires HadTime(q, start, now) && now <= later
    ensures HadTime(q, start, later)
  {
  }

  lemma OwnStepTakesTime(c: Config, w: World, step: Step, r: nat, q: Request, start: real)
    requires OfOneRequest(step) && r in w.requests && w.requests[r] == q && OfRequest(c, w, step, r, q).Some?
    requires HadTime(q, start, w.clock) && start <= w.clock
    ensures var w' := OfRequest(c, w, step, r, q).value;
            w.clock <= w'.clock && (r in w'.requests && w'.requests[r] != q ==> HadTime(w'.requests[r], start, w'.clock))
  {
  }

  lemma StepTakesTime(c: Config, w: World, step: Step, start: real)
    requires AllHadTime(w, start) && Next(c, w, step).Some?
    ensures AllHadTime(Next(c, w, step).value, start)
  {
    var w' := Next(c, w, step).value;
    if OfOneRequest(step) {
      var r := step.r;
      StepTouchesOne(c, w, step, r, w.requests[r]);
      OwnStepTakesTime(c, w, step, r, w.requests[r], start);
    }
    forall x | x in w'.requests ensures HadTime(w'.requests[x], start, w'.clock) {
      if x in w.requests && w'.requests[x] == w.requests[x] {
        LaterIsEnough(w.requests[x], start, w.clock, w'.clock);
      }
    }
  }

  lemma {:induction false} RunsTakeTime(c: Config, start: real, steps: seq<Step>)
    requires Run(c, start, steps).Some?
    ensures AllHadTime(Run(c, start, steps).value, start)
  {
    if steps != [] {
      var rest := steps[..|steps| - 1];
      RunsTakeTime(c, start, rest);
      StepTakesTime(c, Run(c, start, rest).value, steps[|steps| - 1], start);
    }
  }

  /** However requests interleave, the k-th retry of a request begins no sooner than retry_delay * (2^k - 1)
      after the start. */
  lemma RetriesTakeTime(c: Config, start: real, steps: seq<Step>, r: nat, k: nat)
    requires Sensible(c) && Run(c, start, steps).Some? && r in Run(c, start, steps).value.requests
    requires Run(c, start, steps).value.requests[r].phase == Calling(k)
    ensures Run(c, start, steps).value.clock - start >= Doublings(c, k)
  {
    RunsKeepInv(c, start, steps);
    RunsTakeTime(c, start, steps);
    var q := Run(c, start, steps).value.requests[r];
    assert RequestOk(c, q) && HadTime(q, start, Run(c, start, steps).value.clock);
    BackoffsDouble(c, k);
  }

  // ---------- Sleeping ----------

  predicate Sleeping(p: Phase) {
    p.PreSleep? || p.LimitSleep? || p.Backoff?
  }

  /** Who has asked for the delay sleeps until the first moment at which the breaker, as it then is, allows
      a request. */
  lemma SleepEndsWhenAllowed(c: Config, w: World, r: nat)
    requires r in w.requests && Next(c, w, ReadDelay(r)).Some? && Sleeping(Next(c, w, ReadDelay(r)).value.requests[r].phase)
    ensures var until := Next(c, w, ReadDelay(r)).value.requests[r].phase.until;
            forall t {:trigger Machines.MayRequest(w.machine, t)} :: Machines.MayRequest(w.machine, t) <==> t >= until
  {
  }

  /** Nobody goes on before the sleep is over, but a sleeping request may be cancelled. */
  lemma NobodyWakesEarly(c: Config, w: World, step: Step, r: nat)
    requires r in w.requests && Sleeping(w.requests[r].phase) && Next(c, w, step).Some?
    ensures r in Next(c, w, step).value.requests
    ensures var q := Next(c, w, step).value.requests[r];
            q == w.requests[r] || step == Cancel(r) || (step == Wake(r) && w.clock >= w.requests[r].phase.until)
  {
    if OfOneRequest(step) {
      StepTouchesOne(c, w, step, step.r, w.requests[step.r]);
    }
  }

  lemma {:induction false} MultisetWithin(m: multiset<nat>, s: set<nat>, k: nat)
    requires forall x :: x in m ==> x in s && m[x] <= k
    ensures |m| <= k * |s|
  {
    if s == {} {
      assert m == multiset{};
    } else {
      var x :| x in s;
      var m', s' := m[x := 0], s - {x};
      MultisetWithin(m', s', k);
      assert |m| == |m'| + m[x];
      assert k * |s| == k * |s'| + k;
    }
  }

  lemma CallsWithinTokens(c: Config, start: real, w: World)
    requires Inv(c, start, w)
    ensures |w.calls| <= (c.attempts + 1) * |w.grants|
  {
    forall r | r in w.calls ensures r in w.grants && w.calls[r] <= c.attempts + 1 {
      assert Tallied(w, r);
    }
    MultisetWithin(w.calls, w.grants, c.attempts + 1);
  }

  /** (1 + resets) * capacity + rate * elapsed time. */
  ghost function Allowance(c: Config, resets: nat, from: real, to: real): real {
    Buckets.Refunds(c.capacity, 1 + resets) + Buckets.Earned(c.rate, from, to)
  }

  lemma TokensWithinAllowance(c: Config, start: real, w: World)
    requires Sensible(c) && BucketOk(c, start, w)
    ensures |w.grants| as real <= Allowance(c, Buckets.Resets(w.uses), start, w.clock)
  {
    var last := Buckets.LastReading(start, w.uses);
    Buckets.GrantsAreBoundedWithResets(Buckets.Bucket(c.capacity as real, start), c.capacity, c.rate, w.uses, start);
    Buckets.EarnedAdds(c.rate, start, last, w.clock);
    Buckets.EarnedAdds(c.rate, last, w.clock, w.clock);
    assert last < w.clock || Buckets.Earned(c.rate, last, w.clock) == 0.0;
  }

  /** The calls that reach the API over a whole run are bounded by the bucket: attempts + 1 for each
      token, and tokens at most (1 + resets) * capacity + rate * elapsed time. */
  lemma ApiCallsAreBounded(c: Config, start: real, steps: seq<Step>)
    requires Sensible(c) && Run(c, start, steps).Some?
    ensures var w := Run(c, start, steps).value;
            && |w.calls| <= (c.attempts + 1) * |w.grants|
            && |w.grants| as real <= Allowance(c, Buckets.Resets(w.uses), start, w.clock)
  {
    RunsKeepInv(c, start, steps);
    CallsWithinTokens(c, start, Run(c, start, steps).value);
    TokensWithinAllowance(c, start, Run(c, start, steps).value);
  }
}
