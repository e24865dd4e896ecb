/** What every run of the request protocol keeps, for any number of requests and any interleaving. */
module RequestSafety {
  import opened Options
  import opened Sequences
  import Buckets = TokenBucket
  import Machines = RateLimitMachine
  import opened RequestProtocol

  // ---------- One request ----------

  predicate BeforeEntry(p: Phase) {
    p.Checking? || p.Denied? || p.Delaying? || p.PreSleep? || p.Waiting?
  }

  /** The bookkeeping of a request agrees with where it is. */
  ghost predicate RequestOk(c: Config, q: Request) {
    && q.released <= q.entered <= 1 && q.tokens <= q.entered
    && (q.entered == 1 && q.released == 0 <==> Inside(q.phase))
    && (BeforeEntry(q.phase) ==> q.entered == 0)
    && q.fed + q.other == q.calls <= c.attempts + 1 && q.other <= 1
    && (q.calls > 0 ==> q.tokens == 1)
    && q.backoffs <= q.calls <= q.backoffs + 1 && q.backoffs <= c.attempts
    && q.slept == SleptAfter(c, q.backoffs)
    && PhaseOk(c, q)
  }

  ghost predicate PhaseOk(c: Config, q: Request) {
    match q.phase
    case Metering => q.tokens == 0
    case Calling(a) => q.tokens == 1 && q.other == 0 && a == q.calls == q.backoffs
    case Limited(a) => q.other == 0 && a + 1 == q.calls && a == q.backoffs
    case LimitSleep(a, _) => q.other == 0 && a + 1 == q.calls && a == q.backoffs
    case Refilling(a) => q.other == 0 && a + 1 == q.calls && a == q.backoffs
    case Retrying(a) => q.other == 0 && a + 1 == q.calls && a == q.backoffs
    case Backoff(a, _) => q.other == 0 && a + 1 == q.calls == q.backoffs
    case _ => true
  }

  ghost predicate RequestsOk(c: Config, requests: map<nat, Request>) {
    forall r {:trigger requests[r]} :: r in requests ==> RequestOk(c, requests[r])
  }

  predicate OfOneRequest(step: Step) {
    !step.Tick? && !step.Arrive? && !step.ResetBucket? && !step.ResetMachine?
  }

  /** A step of a request touches no other request. */
  lemma StepTouchesOne(c: Config, w: World, step: Step, r: nat, q: Request)
    requires OfOneRequest(step) && r in w.requests && w.requests[r] == q && OfRequest(c, w, step, r, q).Some?
    ensures var w' := OfRequest(c, w, step, r, q).value;
            r in w'.requests && w'.requests == w.requests[r := w'.requests[r]]
  {
  }

  /** The request is still in order after its step. */
  ghost predicate KeptBy(c: Config, w: World, step: Step, r: nat, q: Request)
    requires OfOneRequest(step) && OfRequest(c, w, step, r, q).Some?
  {
    var w' := OfRequest(c, w, step, r, q).value;
    r in w'.requests && RequestOk(c, w'.requests[r])
  }

  lemma AskingKeepsRequest(c: Config, w: World, step: Step, r: nat, q: Request)
    requires step.Check? || step.ReadState? || step.TimeOut?
    requires r in w.requests && w.requests[r] == q && RequestOk(c, q) && OfRequest(c, w, step, r, q).Some?
    ensures KeptBy(c, w, step, r, q)
  {
  }

  lemma DelayKeepsRequest(c: Config, w: World, step: Step, r: nat, q: Request)
    requires step.ReadDelay?
    requires r in w.requests && w.requests[r] == q && RequestOk(c, q) && OfRequest(c, w, step, r, q).Some?
    ensures KeptBy(c, w, step, r, q)
  {
  }

  lemma WakingKeepsRequest(c: Config, w: World, step: Step, r: nat, q: Request)
    requires step.Wake? || step.Cancel?
    requires r in w.requests && w.requests[r] == q && RequestOk(c, q) && OfRequest(c, w, step, r, q).Some?
    ensures KeptBy(c, w, step, r, q)
  {
  }

  lemma SlotsKeepRequest(c: Config, w: World, step: Step, r: nat, q: Request)
    requires step.Enter? || step.Leave?
    requires r in w.requests && w.requests[r] == q && RequestOk(c, q) && OfRequest(c, w, step, r, q).Some?
    ensures KeptBy(c, w, step, r, q)
  {
  }

  lemma MeteringKeepsRequest(c: Config, w: World, step: Step, r: nat, q: Request)
    requires step.Meter? || step.Refill?
    requires r in w.requests && w.requests[r] == q && RequestOk(c, q) && OfRequest(c, w, step, r, q).Some?
    ensures KeptBy(c, w, step, r, q)
  {
  }

  lemma CallingKeepsRequest(c: Config, w: World, step: Step, r: nat, q: Request)
    requires step.Succeed? || step.Crash?
    requires r in w.requests && w.requests[r] == q && RequestOk(c, q) && OfRequest(c, w, step, r, q).Some?
    ensures KeptBy(c, w, step, r, q)
  {
  }

  lemma FailingKeepsRequest(c: Config, w: World, step: Step, r: nat, q: Request)
    requires step.Fail?
    requires r in w.requests && w.requests[r] == q && RequestOk(c, q) && OfRequest(c, w, step, r, q).Some?
    ensures KeptBy(c, w, step, r, q)
  {
  }

  lemma RetryKeepsRequest(c: Config, w: World, step: Step, r: nat, q: Request)
    requires step.Retry?
    requires r in w.requests && w.requests[r] == q && RequestOk(c, q) && OfRequest(c, w, step, r, q).Some?
    ensures KeptBy(c, w, step, r, q)
  {
    assert SleptAfter(c, q.backoffs + 1) == SleptAfter(c, q.backoffs) + BackoffLength(c, q.backoffs);
  }

  /** Every step of a request keeps its bookkeeping right. */
  lemma StepKeepsRequest(c: Config, w: World, step: Step, r: nat, q: Request)
    requires OfOneRequest(step) && r in w.requests && w.requests[r] == q && RequestOk(c, q)
    requires OfRequest(c, w, step, r, q).Some?
    ensures KeptBy(c, w, step, r, q)
  {
    match step
    case Check(_) => AskingKeepsRequest(c, w, step, r, q);
    case ReadState(_) => AskingKeepsRequest(c, w, step, r, q);
    case TimeOut(_) => AskingKeepsRequest(c, w, step, r, q);
    case ReadDelay(_) => DelayKeepsRequest(c, w, step, r, q);
    case Wake(_) => WakingKeepsRequest(c, w, step, r, q);
    case Cancel(_) => WakingKeepsRequest(c, w, step, r, q);
    case Enter(_) => SlotsKeepRequest(c, w, step, r, q);
    case Leave(_) => SlotsKeepRequest(c, w, step, r, q);
    case Meter(_) => MeteringKeepsRequest(c, w, step, r, q);
    case Refill(_) => MeteringKeepsRequest(c, w, step, r, q);
    case Succeed(_, _) => CallingKeepsRequest(c, w, step, r, q);
    case Crash(_) => CallingKeepsRequest(c, w, step, r, q);
    case Fail(_, _, _, _) => FailingKeepsRequest(c, w, step, r, q);
    case Retry(_) => RetryKeepsRequest(c, w, step, r, q);
  }

  // ---------- Slots ----------

  ghost function Holders(requests: map<nat, Request>): set<nat> {
    set r | r in requests && Inside(requests[r].phase)
  }

  /** Free slots and requests inside make up the limit. */
  ghost predicate SlotsOk(c: Config, w: World) {
    w.free >= 0 && w.free + |Holders(w.requests)| == c.limit
  }

  lemma HoldersChange(requests: map<nat, Request>, r: nat, q: Request)
    ensures var before, after := r in requests && Inside(requests[r].phase), Inside(q.phase);
            |Holders(requests[r := q])| == |Holders(requests)| + (if after then 1 else 0) - (if before then 1 else 0)
  {
    var h, h' := Holders(requests), Holders(requests[r := q]);
    if Inside(q.phase) {
      assert h' == h + {r};
    } else {
      assert h' == h - {r};
    }
  }

  lemma StepKeepsSlots(c: Config, w: World, step: Step, r: nat, q: Request)
    requires OfOneRequest(step) && r in w.requests && w.requests[r] == q && OfRequest(c, w, step, r, q).Some?
    requires SlotsOk(c, w)
    ensures SlotsOk(c, OfRequest(c, w, step, r, q).value)
  {
    var w' := OfRequest(c, w, step, r, q).value;
    StepTouchesOne(c, w, step, r, q);
    HoldersChange(w.requests, r, w'.requests[r]);
  }

  // ---------- The breaker ----------

  ghost function History(log: seq<Feed>): seq<Machines.Event> {
    if log == [] then [] else History(log[..|log| - 1]) + [log[|log| - 1].event]
  }

  ghost predicate Never429(log: seq<Feed>) {
    forall f :: f in log && f.event.OnError? ==> f.status != TOO_MANY_REQUESTS
  }

  /** The breaker has seen exactly the logged events, at readings that never go back, and handle_error
      was never called with 429. */
  ghost predicate BreakerAt(c: Config, machine: Machines.State, log: seq<Feed>, clock: real) {
    && machine == Machines.AfterAll(c.machine, History(log)) && Never429(log)
    && Machines.Timely(History(log)) && (log != [] ==> Machines.Clock(History(log)) <= clock)
  }

  ghost predicate BreakerOk(c: Config, w: World) {
    BreakerAt(c, w.machine, w.log, w.clock)
  }

  /** An event that may be fed at a reading. */
  predicate Feedable(f: Feed, clock: real) {
    clock == f.event.now <= f.event.clean && (f.event.OnError? ==> f.status != TOO_MANY_REQUESTS)
  }

  lemma HistoryOneMore(log: seq<Feed>, f: Feed)
    ensures History(log + [f]) == History(log) + [f.event] && (log == [] <==> History(log) == [])
  {
    assert (log + [f])[..|log|] == log;
  }

  lemma FeedingKeepsBreaker(c: Config, machine: Machines.State, log: seq<Feed>, clock: real, f: Feed)
    requires BreakerAt(c, machine, log, clock) && Feedable(f, clock)
    ensures BreakerAt(c, Machines.After(machine, c.machine, f.event), log + [f], f.event.clean)
  {
    HistoryOneMore(log, f);
    Machines.AfterOneMore(c.machine, History(log), f.event);
    Machines.TimelyOneMore(History(log), f.event);
  }

  lemma LaterBreaker(c: Config, machine: Machines.State, log: seq<Feed>, clock: real, later: real)
    requires BreakerAt(c, machine, log, clock) && clock <= later
    ensures BreakerAt(c, machine, log, later)
  {
  }

  /** What a step that answers a call feeds, counts and leaves alone. */
  ghost predicate Feeds(c: Config, w: World, w': World, r: nat, f: Feed) {
    && f.caller == Some(r) && Feedable(f, w.clock)
    && w'.log == w.log + [f] && w'.clock == f.event.clean && w'.machine == Machines.After(w.machine, c.machine, f.event)
    && w'.calls == w.calls + multiset{r} && w'.grants == w.grants
  }

  lemma SucceedingFeeds(c: Config, w: World, step: Step, r: nat, q: Request) returns (f: Feed)
    requires step.Succeed? && OfRequest(c, w, step, r, q).Some?
    ensures Feeds(c, w, OfRequest(c, w, step, r, q).value, r, f)
  {
    f := Feed(Some(r), Machines.OnSuccess(w.clock, Later(w.clock, step.cleaning)), 0);
  }

  lemma FailingFeeds(c: Config, w: World, step: Step, r: nat, q: Request) returns (f: Feed)
    requires step.Fail? && OfRequest(c, w, step, r, q).Some?
    ensures Feeds(c, w, OfRequest(c, w, step, r, q).value, r, f)
  {
    var limited := step.response == Some(TOO_MANY_REQUESTS);
    f := Feed(Some(r),
              if limited then Machines.On429(w.clock, Later(w.clock, step.cleaning), step.retryAfter)
              else Machines.OnError(w.clock, Later(w.clock, step.cleaning)),
              if step.response.Some? then step.response.value else 0);
  }

  lemma AnsweringFeeds(c: Config, w: World, step: Step, r: nat, q: Request) returns (f: Feed)
    requires (step.Succeed? || step.Fail?) && OfRequest(c, w, step, r, q).Some?
    ensures Feeds(c, w, OfRequest(c, w, step, r, q).value, r, f)
  {
    if step.Succeed? {
      f := SucceedingFeeds(c, w, step, r, q);
    } else {
      f := FailingFeeds(c, w, step, r, q);
    }
  }

  /** Only an answered call feeds the breaker. */
  lemma OtherStepsFeedNothing(c: Config, w: World, step: Step, r: nat, q: Request)
    requires OfOneRequest(step) && !step.Succeed? && !step.Fail? && OfRequest(c, w, step, r, q).Some?
    ensures var w' := OfRequest(c, w, step, r, q).value;
            w'.machine == w.machine && w'.log == w.log && w'.clock == w.clock
  {
  }

  lemma StepKeepsBreaker(c: Config, w: World, step: Step, r: nat, q: Request)
    requires OfOneRequest(step) && BreakerOk(c, w) && OfRequest(c, w, step, r, q).Some?
    ensures BreakerOk(c, OfRequest(c, w, step, r, q).value)
  {
    if step.Succeed? || step.Fail? {
      var f := AnsweringFeeds(c, w, step, r, q);
      FeedingKeepsBreaker(c, w.machine, w.log, w.clock, f);
    } else {
      OtherStepsFeedNothing(c, w, step, r, q);
    }
  }

  // ---------- The bucket ----------

  /** The bucket has served exactly the recorded uses, and handed out the given number of tokens. */
  ghost predicate BucketAt(c: Config, start: real, bucket: Buckets.Bucket, uses: seq<Buckets.Use>, granted: nat, clock: real) {
    var b := Buckets.Bucket(c.capacity as real, start);
    && bucket == Buckets.AfterAll(b, c.capacity, c.rate, uses)
    && Buckets.ClockFrom(start, uses) && Buckets.LastReading(start, uses) <= clock
    && Buckets.TotalGranted(b, c.capacity, c.rate, uses) == granted
  }

  /** One token per granted request. */
  ghost predicate BucketOk(c: Config, start: real, w: World) {
    BucketAt(c, start, w.bucket, w.uses, |w.grants|, w.clock)
  }

  lemma UsingKeepsBucket(c: Config, start: real, bucket: Buckets.Bucket, uses: seq<Buckets.Use>, granted: nat, use: Buckets.Use, more: nat)
    requires BucketAt(c, start, bucket, uses, granted, use.now) && more == Buckets.GrantedBy(bucket, c.capacity, c.rate, use)
    ensures BucketAt(c, start, Buckets.After(bucket, c.capacity, c.rate, use), uses + [use], granted + more, use.now)
  {
    assert (uses + [use])[..|uses|] == uses;
  }

  lemma LaterBucket(c: Config, start: real, bucket: Buckets.Bucket, uses: seq<Buckets.Use>, granted: nat, clock: real, later: real)
    requires BucketAt(c, start, bucket, uses, granted, clock) && clock <= later
    ensures BucketAt(c, start, bucket, uses, granted, later)
  {
  }

  lemma OtherStepsUseNothing(c: Config, w: World, step: Step, r: nat, q: Request)
    requires OfOneRequest(step) && !step.Meter? && !step.Refill? && OfRequest(c, w, step, r, q).Some?
    ensures var w' := OfRequest(c, w, step, r, q).value;
            w'.bucket == w.bucket && w'.uses == w.uses && w'.grants == w.grants && w.clock <= w'.clock
  {
  }

  lemma OtherStepsKeepBucket(c: Config, start: real, w: World, step: Step, r: nat, q: Request)
    requires OfOneRequest(step) && !step.Meter? && !step.Refill? && OfRequest(c, w, step, r, q).Some? && BucketOk(c, start, w)
    ensures BucketOk(c, start, OfRequest(c, w, step, r, q).value)
  {
    OtherStepsUseNothing(c, w, step, r, q);
    LaterBucket(c, start, w.bucket, w.uses, |w.grants|, w.clock, OfRequest(c, w, step, r, q).value.clock);
  }

  /** A token granted is one more request granted; a refusal changes no count. */
  lemma MeteringUses(c: Config, w: World, r: nat, q: Request)
    requires Sensible(c) && r !in w.grants
    ensures var w', use := Metered(c, w, r, q), Buckets.Acquire(1, w.clock);
            && w'.bucket == Buckets.After(w.bucket, c.capacity, c.rate, use) && w'.uses == w.uses + [use] && w'.clock == w.clock
            && |w'.grants| == |w.grants| + Buckets.GrantedBy(w.bucket, c.capacity, c.rate, use)
  {
  }

  lemma MeteringKeepsBucket(c: Config, start: real, w: World, step: Step, r: nat, q: Request)
    requires Sensible(c) && BucketOk(c, start, w) && r !in w.grants && step.Meter? && OfRequest(c, w, step, r, q).Some?
    ensures BucketOk(c, start, OfRequest(c, w, step, r, q).value)
  {
    var use := Buckets.Acquire(1, w.clock);
    assert OfRequest(c, w, step, r, q).value == Metered(c, w, r, q);
    MeteringUses(c, w, r, q);
    UsingKeepsBucket(c, start, w.bucket, w.uses, |w.grants|, use, Buckets.GrantedBy(w.bucket, c.capacity, c.rate, use));
  }

  lemma ResettingKeepsBucket(c: Config, start: real, w: World)
    requires BucketOk(c, start, w)
    ensures BucketOk(c, start, BucketReset(c, w))
  {
    UsingKeepsBucket(c, start, w.bucket, w.uses, |w.grants|, Buckets.Reset(w.clock), 0);
  }

  lemma RefillingKeepsBucket(c: Config, start: real, w: World, step: Step, r: nat, q: Request)
    requires BucketOk(c, start, w) && step.Refill? && OfRequest(c, w, step, r, q).Some?
    ensures BucketOk(c, start, OfRequest(c, w, step, r, q).value)
  {
    assert OfRequest(c, w, step, r, q).value == Moved(BucketReset(c, w), r, q.(phase := Retrying(q.phase.attempt)));
    ResettingKeepsBucket(c, start, w);
  }

  lemma StepKeepsBucket(c: Config, start: real, w: World, step: Step, r: nat, q: Request)
    requires Sensible(c) && OfOneRequest(step) && BucketOk(c, start, w) && OfRequest(c, w, step, r, q).Some?
    requires step.Meter? ==> r !in w.grants
    ensures BucketOk(c, start, OfRequest(c, w, step, r, q).value)
  {
    if step.Meter? {
      MeteringKeepsBucket(c, start, w, step, r, q);
    } else if step.Refill? {
      RefillingKeepsBucket(c, start, w, step, r, q);
    } else {
      OtherStepsKeepBucket(c, start, w, step, r, q);
    }
  }

  // ---------- Who did what ----------

  ghost function FedBy(log: seq<Feed>, r: nat): nat {
    if log == [] then 0 else FedBy(log[..|log| - 1], r) + (if log[|log| - 1].caller == Some(r) then 1 else 0)
  }

  ghost function Of(requests: map<nat, Request>, r: nat): Request {
    if r in requests then requests[r] else NEW_REQUEST
  }

  /** The shared records attribute to r exactly what request q has done. */
  ghost predicate Agrees(log: seq<Feed>, calls: multiset<nat>, grants: set<nat>, r: nat, q: Request) {
    FedBy(log, r) == q.fed && calls[r] == q.calls && (r in grants <==> q.tokens == 1)
  }

  ghost predicate Tallied(w: World, r: nat) {
    Agrees(w.log, w.calls, w.grants, r, Of(w.requests, r))
  }

  ghost predicate LedgerOk(w: World) {
    forall r {:trigger Tallied(w, r)} :: Tallied(w, r)
  }

  lemma FedByOneMore(log: seq<Feed>, f: Feed, r: nat)
    ensures FedBy(log + [f], r) == FedBy(log, r) + (if f.caller == Some(r) then 1 else 0)
  {
    assert (log + [f])[..|log|] == log;
  }

  /** What a step of a request adds to its own books: calls, events fed and tokens. */
  ghost predicate Books(q: Request, q': Request, calls: nat, fed: nat, tokens: nat) {
    q'.calls == q.calls + calls && q'.fed == q.fed + fed && q'.tokens == q.tokens + tokens
  }

  lemma AnsweringBooks(c: Config, w: World, step: Step, r: nat, q: Request)
    requires (step.Succeed? || step.Fail?) && r in w.requests && w.requests[r] == q && OfRequest(c, w, step, r, q).Some?
    ensures var w' := OfRequest(c, w, step, r, q).value; r in w'.requests && Books(q, w'.requests[r], 1, 1, 0)
  {
  }

  lemma CrashingBooks(c: Config, w: World, step: Step, r: nat, q: Request)
    requires step.Crash? && r in w.requests && w.requests[r] == q && OfRequest(c, w, step, r, q).Some?
    ensures var w' := OfRequest(c, w, step, r, q).value;
            && r in w'.requests && Books(q, w'.requests[r], 1, 0, 0)
            && w'.log == w.log && w'.calls == w.calls + multiset{r} && w'.grants == w.grants
  {
  }

  lemma MeteringBooks(c: Config, w: World, step: Step, r: nat, q: Request)
    requires step.Meter? && r in w.requests && w.requests[r] == q && OfRequest(c, w, step, r, q).Some? && q.tokens == 0
    ensures var w' := OfRequest(c, w, step, r, q).value;
            && r in w'.requests && w'.log == w.log && w'.calls == w.calls
            && (if w'.requests[r].tokens == 1 then Books(q, w'.requests[r], 0, 0, 1) && w'.grants == w.grants + {r}
                else Books(q, w'.requests[r], 0, 0, 0) && w'.grants == w.grants)
  {
  }

  lemma OtherBooks(c: Config, w: World, step: Step, r: nat, q: Request)
    requires OfOneRequest(step) && !step.Succeed? && !step.Fail? && !step.Crash? && !step.Meter?
    requires r in w.requests && w.requests[r] == q && OfRequest(c, w, step, r, q).Some?
    ensures var w' := OfRequest(c, w, step, r, q).value;
            && r in w'.requests && Books(q, w'.requests[r], 0, 0, 0)
            && w'.log == w.log && w'.calls == w.calls && w'.grants == w.grants
  {
  }

  /** Answering keeps the books of every request x, given what has become of x itself. */
  lemma AnswerKeepsTally(log: seq<Feed>, calls: multiset<nat>, grants: set<nat>, r: nat, f: Feed, x: nat, q: Request, q': Request)
    requires Agrees(log, calls, grants, x, q) && f.caller == Some(r)
    requires if x == r then Books(q, q', 1, 1, 0) else q' == q
    ensures Agrees(log + [f], calls + multiset{r}, grants, x, q')
  {
    FedByOneMore(log, f, x);
  }

  lemma StepKeepsTally(c: Config, w: World, step: Step, r: nat, q: Request, x: nat)
    requires OfOneRequest(step) && r in w.requests && w.requests[r] == q && OfRequest(c, w, step, r, q).Some?
    requires Tallied(w, x) && (step.Meter? ==> q.tokens == 0)
    ensures Tallied(OfRequest(c, w, step, r, q).value, x)
  {
    var w' := OfRequest(c, w, step, r, q).value;
    StepTouchesOne(c, w, step, r, q);
    if step.Succeed? || step.Fail? {
      var f := AnsweringFeeds(c, w, step, r, q);
      AnsweringBooks(c, w, step, r, q);
      AnswerKeepsTally(w.log, w.calls, w.grants, r, f, x, Of(w.requests, x), Of(w'.requests, x));
    } else if step.Crash? {
      CrashingBooks(c, w, step, r, q);
    } else if step.Meter? {
      MeteringBooks(c, w, step, r, q);
    } else {
      OtherBooks(c, w, step, r, q);
    }
  }

  lemma StepKeepsLedger(c: Config, w: World, step: Step)
    requires OfOneRequest(step) && LedgerOk(w) && RequestsOk(c, w.requests) && Next(c, w, step).Some?
    ensures LedgerOk(Next(c, w, step).value)
  {
    var w', r := Next(c, w, step).value, step.r;
    assert RequestOk(c, w.requests[r]);
    MeteringHasNoToken(c, w, step, r, w.requests[r]);
    forall x ensures Tallied(w', x) {
      assert Tallied(w, x);
      StepKeepsTally(c, w, step, r, w.requests[r], x);
    }
  }

  lemma MeteringHasNoToken(c: Config, w: World, step: Step, r: nat, q: Request)
    requires OfOneRequest(step) && RequestOk(c, q) && OfRequest(c, w, step, r, q).Some?
    ensures step.Meter? ==> q.tokens == 0
  {
  }
}
