/** The token bucket that meters requests, with the clock reading passed in. */
module TokenBucket {

  datatype Bucket = Bucket(tokens: real, lastRefill: real)

  datatype Error = NotPositive | ExceedsCapacity
  datatype Answer = Granted | Refused | Rejected(error: Error)

  function Min(a: real, b: real): real {
    if a <= b then a else b
  }

  /** What accrues over a stretch of time; nothing when the clock has not advanced. */
  function Earned(rate: real, from: real, to: real): real {
    rate * (to - from)
  }

  function Refilled(b: Bucket, capacity: int, rate: real, now: real): Bucket {
    var more := Earned(rate, b.lastRefill, now);
    if more > 0.0 then Bucket(Min(capacity as real, b.tokens + more), now) else b
  }

  function Taken(b: Bucket, capacity: int, rate: real, n: int, now: real): (Bucket, Answer) {
    if n <= 0 then (b, Rejected(NotPositive))
    else if n > capacity then (b, Rejected(ExceedsCapacity))
    else
      var full := Refilled(b, capacity, rate, now);
      if full.tokens >= n as real then (full.(tokens := full.tokens - n as real), Granted) else (full, Refused)
  }

  class TokenBucketRateLimiter {
    const capacity: int
    const refillRate: real
    var tokens: real
    var lastRefill: real

    ghost predicate Valid()
      reads this
    {
      capacity > 0 && refillRate > 0.0 && 0.0 <= tokens <= capacity as real
    }

    ghost function State(): Bucket
      reads this
    {
      Bucket(tokens, lastRefill)
    }

    constructor (capacity: int, refillRate: real, now: real)
      requires capacity > 0 && refillRate > 0.0
      ensures Valid() && State() == Bucket(capacity as real, now)
      ensures this.capacity == capacity && this.refillRate == refillRate
    {
      this.capacity, this.refillRate := capacity, refillRate;
      tokens, lastRefill := capacity as real, now;
    }

    method Refill(now: real)
      requires Valid()
      modifies this
      ensures Valid() && State() == Refilled(old(State()), capacity, refillRate, now)
    {
      var elapsed := now - lastRefill;
      var tokensToAdd := refillRate * elapsed;
      if tokensToAdd > 0.0 {
        tokens := Min(capacity as real, tokens + tokensToAdd);
        lastRefill := now;
      }
    }

    /** Tokens are granted exactly if that many are there or have accrued, and then exactly that many go. */
    method TryAcquire(n: int, now: real) returns (answer: Answer)
      requires Valid()
      modifies this
      ensures Valid() && (State(), answer) == Taken(old(State()), capacity, refillRate, n, now)
      ensures State() == After(old(State()), capacity, refillRate, Use.Acquire(n, now))
      ensures answer == Rejected(NotPositive) <==> n <= 0
      ensures answer == Rejected(ExceedsCapacity) <==> n > capacity
      ensures answer == Granted <==>
                1 <= n <= capacity && (n as real <= old(tokens) || n as real <= old(tokens) + Earned(refillRate, old(lastRefill), now))
      ensures answer.Rejected? ==> State() == old(State())
      ensures !answer.Rejected? && now <= old(lastRefill) ==>
                lastRefill == old(lastRefill) && tokens == old(tokens) - (if answer == Granted then n as real else 0.0)
      ensures !answer.Rejected? && now > old(lastRefill) ==>
                && lastRefill == now
                && tokens == Min(capacity as real, old(tokens) + Earned(refillRate, old(lastRefill), now))
                             - (if answer == Granted then n as real else 0.0)
    {
      TakingExactly(State(), capacity, refillRate, n, now);
      if n <= 0 {
        return Rejected(NotPositive);
      }
      if n > capacity {
        return Rejected(ExceedsCapacity);
      }
      Refill(now);
      if tokens >= n as real {
        tokens := tokens - n as real;
        return Granted;
      }
      return Refused;
    }

    method GetTokensAvailable(now: real) returns (n: int)
      requires Valid()
      modifies this
      ensures Valid() && State() == Refilled(old(State()), capacity, refillRate, now)
      ensures State() == After(old(State()), capacity, refillRate, Use.Observe(now))
      ensures 0 <= n <= capacity && n as real <= tokens < n as real + 1.0
    {
      Refill(now);
      n := tokens.Floor;
    }

    method Reset(now: real)
      requires Valid()
      modifies this
      ensures Valid() && State() == Bucket(capacity as real, now)
      ensures State() == After(old(State()), capacity, refillRate, Use.Reset(now))
    {
      tokens, lastRefill := capacity as real, now;
    }
  }

  /** What acquiring comes to, in terms of the tokens that are there or have accrued. */
  lemma TakingExactly(b: Bucket, capacity: int, rate: real, n: int, now: real)
    requires capacity > 0 && rate > 0.0 && b.tokens <= capacity as real
    ensures var (b', answer) := Taken(b, capacity, rate, n, now);
            && (answer == Granted <==>
                  1 <= n <= capacity && (n as real <= b.tokens || n as real <= b.tokens + Earned(rate, b.lastRefill, now)))
            && (!answer.Rejected? && now <= b.lastRefill ==>
                  b' == Bucket(b.tokens - (if answer == Granted then n as real else 0.0), b.lastRefill))
            && (!answer.Rejected? && now > b.lastRefill ==>
                  b' == Bucket(Min(capacity as real, b.tokens + Earned(rate, b.lastRefill, now))
                               - (if answer == Granted then n as real else 0.0), now))
  {
    EarnedAdds(rate, b.lastRefill, now, now);
  }

  // ---------- Runs ----------

  datatype Use = Acquire(n: int, now: real) | Observe(now: real) | Reset(now: real)

  ghost function After(b: Bucket, capacity: int, rate: real, use: Use): Bucket {
    match use
    case Acquire(n, now) => Taken(b, capacity, rate, n, now).0
    case Observe(now) => Refilled(b, capacity, rate, now)
    case Reset(now) => Bucket(capacity as real, now)
  }

  /** Tokens that one use hands out. */
  ghost function GrantedBy(b: Bucket, capacity: int, rate: real, use: Use): int {
    if use.Acquire? && Taken(b, capacity, rate, use.n, use.now).1 == Granted then use.n else 0
  }

  ghost function AfterAll(b: Bucket, capacity: int, rate: real, uses: seq<Use>): Bucket {
    if uses == [] then b
    else After(AfterAll(b, capacity, rate, uses[..|uses| - 1]), capacity, rate, uses[|uses| - 1])
  }

  ghost function TotalGranted(b: Bucket, capacity: int, rate: real, uses: seq<Use>): int {
    if uses == [] then 0
    else
      var rest := uses[..|uses| - 1];
      TotalGranted(b, capacity, rate, rest) + GrantedBy(AfterAll(b, capacity, rate, rest), capacity, rate, uses[|uses| - 1])
  }

  ghost predicate InRange(b: Bucket, capacity: int) {
    0.0 <= b.tokens <= capacity as real
  }

  lemma EarnedAdds(rate: real, a: real, b: real, c: real)
    ensures Earned(rate, a, c) == Earned(rate, a, b) + Earned(rate, b, c)
    ensures rate > 0.0 ==> (Earned(rate, a, b) > 0.0 <==> b > a)
  {
    assert rate * (c - a) == rate * (b - a) + rate * (c - b);
  }

  /** Whatever the clock does, a use keeps the tokens in range, never moves the refill time back, and
      hands out no more than was there plus what accrued up to the new refill time. */
  lemma UseIsBounded(b: Bucket, capacity: int, rate: real, use: Use)
    requires capacity > 0 && rate > 0.0 && InRange(b, capacity) && !use.Reset?
    ensures var b' := After(b, capacity, rate, use);
            && InRange(b', capacity) && b.lastRefill <= b'.lastRefill
            && GrantedBy(b, capacity, rate, use) as real + b'.tokens <= b.tokens + Earned(rate, b.lastRefill, b'.lastRefill)
  {
    EarnedAdds(rate, b.lastRefill, use.now, use.now);
    assert Earned(rate, b.lastRefill, b.lastRefill) == 0.0;
  }

  /** A use hands out what it asks for exactly if it asks for 1 to capacity tokens, and that many are there
      or have accrued since the last refill. */
  lemma GrantedExactly(b: Bucket, capacity: int, rate: real, use: Use)
    requires capacity > 0 && rate > 0.0 && InRange(b, capacity)
    ensures GrantedBy(b, capacity, rate, use) != 0 <==>
              use.Acquire? && 1 <= use.n <= capacity
              && (use.n as real <= b.tokens || use.n as real <= b.tokens + rate * (use.now - b.lastRefill))
    ensures GrantedBy(b, capacity, rate, use) != 0 ==> GrantedBy(b, capacity, rate, use) == use.n
  {
    EarnedAdds(rate, b.lastRefill, use.now, use.now);
  }

  /** A refill at `now` would be cut off by the capacity. */
  ghost predicate CutOff(b: Bucket, capacity: int, rate: real, now: real) {
    now > b.lastRefill && b.tokens + rate * (now - b.lastRefill) > capacity as real
  }

  ghost predicate NeverCutOff(b: Bucket, capacity: int, rate: real, uses: seq<Use>) {
    forall i :: 0 <= i < |uses| ==> !uses[i].Reset? && !CutOff(AfterAll(b, capacity, rate, uses[..i]), capacity, rate, uses[i].now)
  }

  lemma UseConserves(b: Bucket, capacity: int, rate: real, use: Use)
    requires capacity > 0 && rate > 0.0 && InRange(b, capacity) && !use.Reset? && !CutOff(b, capacity, rate, use.now)
    ensures var b' := After(b, capacity, rate, use);
            && InRange(b', capacity)
            && GrantedBy(b, capacity, rate, use) as real + b'.tokens == b.tokens + Earned(rate, b.lastRefill, b'.lastRefill)
  {
    EarnedAdds(rate, b.lastRefill, use.now, use.now);
    assert Earned(rate, b.lastRefill, b.lastRefill) == 0.0;
  }

  lemma {:induction false} RunConserves(b: Bucket, capacity: int, rate: real, uses: seq<Use>)
    requires capacity > 0 && rate > 0.0 && InRange(b, capacity) && NeverCutOff(b, capacity, rate, uses)
    ensures var b' := AfterAll(b, capacity, rate, uses);
            && InRange(b', capacity)
            && TotalGranted(b, capacity, rate, uses) as real + b'.tokens == b.tokens + Earned(rate, b.lastRefill, b'.lastRefill)
  {
    if uses == [] {
      assert Earned(rate, b.lastRefill, b.lastRefill) == 0.0;
    } else {
      var rest := uses[..|uses| - 1];
      assert forall i :: 0 <= i < |rest| ==> rest[i] == uses[i] && rest[..i] == uses[..i];
      RunConserves(b, capacity, rate, rest);
      var middle := AfterAll(b, capacity, rate, rest);
      UseConserves(middle, capacity, rate, uses[|uses| - 1]);
      EarnedAdds(rate, b.lastRefill, middle.lastRefill, AfterAll(b, capacity, rate, uses).lastRefill);
    }
  }

  /** While no refill is cut off by the capacity no token is lost: those granted and those left are those
      at the start and those that accrued. */
  lemma TokensAreConserved(b: Bucket, capacity: int, rate: real, uses: seq<Use>)
    requires capacity > 0 && rate > 0.0 && InRange(b, capacity) && NeverCutOff(b, capacity, rate, uses)
    ensures var b' := AfterAll(b, capacity, rate, uses);
            TotalGranted(b, capacity, rate, uses) as real + b'.tokens == b.tokens + rate * (b'.lastRefill - b.lastRefill)
  {
    RunConserves(b, capacity, rate, uses);
  }

  /** n requests for one token each, all at one reading. */
  function Burst(n: nat, now: real): seq<Use> {
    if n == 0 then [] else Burst(n - 1, now) + [Acquire(1, now)]
  }

  /** A full bucket hands out a token, and does not refill again at that reading. */
  lemma FirstOfABurst(capacity: int, rate: real, refilled: real, now: real)
    requires capacity > 0 && rate > 0.0
    ensures var b := Bucket(capacity as real, refilled);
            var b' := After(b, capacity, rate, Acquire(1, now));
            GrantedBy(b, capacity, rate, Acquire(1, now)) == 1 && b'.tokens == (capacity - 1) as real && now <= b'.lastRefill
  {
    TakingExactly(Bucket(capacity as real, refilled), capacity, rate, 1, now);
    EarnedAdds(rate, refilled, now, now);
  }

  /** A bucket of k tokens that does not refill hands out one, unless there is none. */
  lemma NextOfABurst(b: Bucket, capacity: int, rate: real, k: nat, now: real)
    requires capacity > 0 && rate > 0.0 && k <= capacity && b.tokens == k as real && now <= b.lastRefill
    ensures GrantedBy(b, capacity, rate, Acquire(1, now)) == (if k > 0 then 1 else 0)
    ensures After(b, capacity, rate, Acquire(1, now)) == Bucket((if k > 0 then k - 1 else 0) as real, b.lastRefill)
  {
    EarnedAdds(rate, b.lastRefill, now, now);
  }

  lemma RunOneMore(b: Bucket, capacity: int, rate: real, uses: seq<Use>, use: Use)
    ensures AfterAll(b, capacity, rate, uses + [use]) == After(AfterAll(b, capacity, rate, uses), capacity, rate, use)
    ensures TotalGranted(b, capacity, rate, uses + [use])
         == TotalGranted(b, capacity, rate, uses) + GrantedBy(AfterAll(b, capacity, rate, uses), capacity, rate, use)
  {
    assert (uses + [use])[..|uses|] == uses;
  }

  /** What is left of a full bucket after n requests, and what has been granted. */
  ghost predicate Drained(left: Bucket, granted: int, capacity: int, n: nat, now: real) {
    && granted == (if n <= capacity then n else capacity) && left.tokens == (capacity - granted) as real
    && now <= left.lastRefill
  }

  lemma DrainingGoesOn(left: Bucket, granted: int, capacity: int, rate: real, n: nat, now: real)
    requires capacity > 0 && rate > 0.0 && Drained(left, granted, capacity, n, now)
    ensures Drained(After(left, capacity, rate, Acquire(1, now)), granted + GrantedBy(left, capacity, rate, Acquire(1, now)), capacity, n + 1, now)
  {
    NextOfABurst(left, capacity, rate, capacity - granted, now);
  }

  lemma {:induction false} BurstDrains(capacity: int, rate: real, refilled: real, n: nat, now: real)
    requires capacity > 0 && rate > 0.0 && n > 0
    ensures var b := Bucket(capacity as real, refilled);
            Drained(AfterAll(b, capacity, rate, Burst(n, now)), TotalGranted(b, capacity, rate, Burst(n, now)), capacity, n, now)
  {
    var b := Bucket(capacity as real, refilled);
    RunOneMore(b, capacity, rate, Burst(n - 1, now), Acquire(1, now));
    if n == 1 {
      FirstOfABurst(capacity, rate, refilled, now);
    } else {
      BurstDrains(capacity, rate, refilled, n - 1, now);
      DrainingGoesOn(AfterAll(b, capacity, rate, Burst(n - 1, now)), TotalGranted(b, capacity, rate, Burst(n - 1, now)), capacity, rate, n - 1, now);
    }
  }

  /** A full bucket grants a burst one request after the other up to its capacity, and no more. */
  lemma BurstsAreGrantedUpToCapacity(capacity: int, rate: real, refilled: real, n: nat, now: real)
    requires capacity > 0 && rate > 0.0
    ensures var b, uses := Bucket(capacity as real, refilled), Burst(n, now);
            && TotalGranted(b, capacity, rate, uses) == (if n <= capacity then n else capacity)
            && AfterAll(b, capacity, rate, uses).tokens == (if n <= capacity then capacity - n else 0) as real
  {
    if n > 0 {
      BurstDrains(capacity, rate, refilled, n, now);
    }
  }

  lemma {:induction false} BalanceOfRun(b: Bucket, capacity: int, rate: real, uses: seq<Use>)
    requires capacity > 0 && rate > 0.0 && InRange(b, capacity)
    requires forall i :: 0 <= i < |uses| ==> !uses[i].Reset?
    ensures var b' := AfterAll(b, capacity, rate, uses);
            && InRange(b', capacity) && b.lastRefill <= b'.lastRefill
            && TotalGranted(b, capacity, rate, uses) as real + b'.tokens <= b.tokens + Earned(rate, b.lastRefill, b'.lastRefill)
  {
    if uses == [] {
      assert Earned(rate, b.lastRefill, b.lastRefill) == 0.0;
    } else {
      var rest := uses[..|uses| - 1];
      BalanceOfRun(b, capacity, rate, rest);
      var middle := AfterAll(b, capacity, rate, rest);
      UseIsBounded(middle, capacity, rate, uses[|uses| - 1]);
      EarnedAdds(rate, b.lastRefill, middle.lastRefill, AfterAll(b, capacity, rate, uses).lastRefill);
    }
  }

  /** Between any two points of a run without resets, under any clock readings at all, the tokens granted
      are at most the capacity plus the refill rate times the advance of the refill time. */
  lemma GrantsAreBoundedUnderAnyClock(b: Bucket, capacity: int, rate: real, uses: seq<Use>)
    requires capacity > 0 && rate > 0.0 && InRange(b, capacity)
    requires forall i :: 0 <= i < |uses| ==> !uses[i].Reset?
    ensures InRange(AfterAll(b, capacity, rate, uses), capacity)
    ensures TotalGranted(b, capacity, rate, uses) as real
         <= capacity as real + Earned(rate, b.lastRefill, AfterAll(b, capacity, rate, uses).lastRefill)
  {
    BalanceOfRun(b, capacity, rate, uses);
  }

  // ---------- Runs with resets, under a clock that does not go back ----------

  /** The readings follow each other, starting no earlier than `from`. */
  ghost predicate ClockFrom(from: real, uses: seq<Use>) {
    uses == [] ||
    (ClockFrom(from, uses[..|uses| - 1]) && LastReading(from, uses[..|uses| - 1]) <= uses[|uses| - 1].now)
  }

  ghost function LastReading(from: real, uses: seq<Use>): real {
    if uses == [] then from else uses[|uses| - 1].now
  }

  ghost function Resets(uses: seq<Use>): nat {
    if uses == [] then 0 else Resets(uses[..|uses| - 1]) + (if uses[|uses| - 1].Reset? then 1 else 0)
  }

  /** What could be taken at the reading `now`. */
  ghost function Effective(b: Bucket, capacity: int, rate: real, now: real): real {
    Refilled(b, capacity, rate, now).tokens
  }

  lemma EffectiveGrows(b: Bucket, capacity: int, rate: real, t: real, now: real)
    requires capacity > 0 && rate > 0.0 && InRange(b, capacity) && b.lastRefill <= t <= now
    ensures 0.0 <= Effective(b, capacity, rate, t) <= capacity as real
    ensures Effective(b, capacity, rate, now) <= Effective(b, capacity, rate, t) + Earned(rate, t, now)
  {
    EarnedAdds(rate, b.lastRefill, t, now);
    EarnedAdds(rate, b.lastRefill, t, t);
    EarnedAdds(rate, t, now, now);
    assert Earned(rate, t, t) == 0.0;
  }

  /** One use at a reading no earlier than the last refill. */
  lemma TimedUseIsBounded(b: Bucket, capacity: int, rate: real, use: Use)
    requires capacity > 0 && rate > 0.0 && InRange(b, capacity) && b.lastRefill <= use.now
    ensures var b' := After(b, capacity, rate, use);
            && InRange(b', capacity) && b'.lastRefill <= use.now
            && GrantedBy(b, capacity, rate, use) as real + Effective(b', capacity, rate, use.now)
            <= Effective(b, capacity, rate, use.now) + (if use.Reset? then capacity as real else 0.0)
  {
    EarnedAdds(rate, b.lastRefill, use.now, use.now);
    assert Earned(rate, use.now, use.now) == 0.0;
  }

  /** What k resets can add. */
  ghost function Refunds(capacity: int, k: nat): real {
    (k * capacity) as real
  }

  lemma RefundsAdd(capacity: int, k: nat)
    ensures Refunds(capacity, 0) == 0.0 && Refunds(capacity, k + 1) == Refunds(capacity, k) + capacity as real
  {
    assert (k + 1) * capacity == k * capacity + capacity;
  }

  /** What has been granted and what could still be taken, against what was there, accrued and refunded. */
  ghost predicate InBalance(b: Bucket, capacity: int, rate: real, uses: seq<Use>, from: real) {
    var b', now := AfterAll(b, capacity, rate, uses), LastReading(from, uses);
    && InRange(b', capacity) && b'.lastRefill <= now && from <= now
    && TotalGranted(b, capacity, rate, uses) as real + Effective(b', capacity, rate, now)
    <= Effective(b, capacity, rate, from) + Earned(rate, from, now) + Refunds(capacity, Resets(uses))
  }

  lemma BalanceOfUse(b: Bucket, capacity: int, rate: real, rest: seq<Use>, use: Use, from: real)
    requires capacity > 0 && rate > 0.0 && InBalance(b, capacity, rate, rest, from) && LastReading(from, rest) <= use.now
    ensures InBalance(b, capacity, rate, rest + [use], from)
  {
    var uses, middle, t := rest + [use], AfterAll(b, capacity, rate, rest), LastReading(from, rest);
    assert uses[..|rest|] == rest;
    EffectiveGrows(middle, capacity, rate, t, use.now);
    TimedUseIsBounded(middle, capacity, rate, use);
    EarnedAdds(rate, from, t, use.now);
    RefundsAdd(capacity, Resets(rest));
  }

  lemma {:induction false} TimedBalance(b: Bucket, capacity: int, rate: real, uses: seq<Use>, from: real)
    requires capacity > 0 && rate > 0.0 && InRange(b, capacity) && b.lastRefill <= from && ClockFrom(from, uses)
    ensures InBalance(b, capacity, rate, uses, from)
  {
    if uses == [] {
      assert Earned(rate, from, from) == 0.0;
      RefundsAdd(capacity, 0);
    } else {
      var rest, last := uses[..|uses| - 1], uses[|uses| - 1];
      TimedBalance(b, capacity, rate, rest, from);
      BalanceOfUse(b, capacity, rate, rest, last, from);
      assert rest + [last] == uses;
    }
  }

  /** With k resets the tokens granted over a stretch of time are at most (1 + k) * capacity plus the
      refill rate times the time elapsed. */
  lemma GrantsAreBoundedWithResets(b: Bucket, capacity: int, rate: real, uses: seq<Use>, from: real)
    requires capacity > 0 && rate > 0.0 && InRange(b, capacity) && b.lastRefill <= from && ClockFrom(from, uses)
    ensures TotalGranted(b, capacity, rate, uses) as real
         <= Refunds(capacity, 1 + Resets(uses)) + Earned(rate, from, LastReading(from, uses))
  {
    RefundsAdd(capacity, Resets(uses));
    TimedBalance(b, capacity, rate, uses, from);
    EffectiveGrows(b, capacity, rate, from, from);
    EffectiveGrows(AfterAll(b, capacity, rate, uses), capacity, rate, LastReading(from, uses), LastReading(from, uses));
  }
}
