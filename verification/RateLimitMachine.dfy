/** The circuit breaker that turns API responses into a request policy. Each handler reads the clock
    twice, once for the event and once more when it cleans its queues; both readings are passed in. */
module RateLimitMachine {
  import opened Options
  import opened Sequences

  datatype Mode = Normal | Throttle | SleepThenResume | CacheOnly

  /** The settings of a machine: error threshold in percent, window and longest honoured delay in seconds. */
  datatype Config = Config(threshold: real, window: real, maxRetryAfter: real)

  datatype State = State(mode: Mode, errors: seq<real>, successes: seq<real>, last429: real, delay: real)

  datatype Stats = Stats(mode: Mode, recentErrors: nat, recentSuccesses: nat, errorRate: real, retryDelay: real,
                         last429: real)

  const INITIAL := State(Normal, [], [], 0.0, 0.0)

  function Min(a: real, b: real): real {
    if a <= b then a else b
  }

  function Max(a: real, b: real): real {
    if a >= b then a else b
  }

  /** The start of the window ending now. */
  function Cutoff(c: Config, now: real): real {
    now - c.window
  }

  /** A queue after its old entries have been popped from the front. */
  function Popped(times: seq<real>, cutoff: real): seq<real> {
    if times != [] && times[0] < cutoff then Popped(times[1..], cutoff) else times
  }

  function Cleaned(s: State, c: Config, now: real): State {
    s.(errors := Popped(s.errors, Cutoff(c, now)), successes := Popped(s.successes, Cutoff(c, now)))
  }

  /** Enough events in the queues, and a large enough share of them errors. */
  predicate Trips(errors: nat, successes: nat, threshold: real) {
    errors > 0 && errors + successes >= 10 && (errors as real / (errors + successes) as real) * 100.0 >= threshold
  }

  /** 429 is Too Many Requests, section 4 of RFC 6585; the delay comes from Retry-After, section 10.2.3
      of RFC 9110. Without it the last delay doubles, so that a delay of zero stays zero. */
  function After429(s: State, c: Config, now: real, clean: real, retryAfter: Option<real>): State {
    var delay := if retryAfter.Some? then Min(retryAfter.value, c.maxRetryAfter) else Min(60.0, s.delay * 2.0);
    Cleaned(State(Throttle, s.errors + [now], s.successes, now, delay), c, clean)
  }

  function AfterSuccess(s: State, c: Config, now: real, clean: real): State {
    var t := Cleaned(s.(successes := s.successes + [now]), c, clean);
    if t.mode == Throttle && now - t.last429 >= t.delay then t.(mode := Normal, delay := 0.0)
    else if t.mode == SleepThenResume then t.(mode := Normal)
    else t
  }

  function AfterError(s: State, c: Config, now: real, clean: real): State {
    var t := Cleaned(s.(errors := s.errors + [now]), c, clean);
    if Trips(|t.errors|, |t.successes|, c.threshold) then t.(mode := CacheOnly) else t
  }

  function MayRequest(s: State, now: real): bool {
    match s.mode
    case CacheOnly => false
    case Throttle => now - s.last429 >= s.delay
    case _ => true
  }

  function RetryDelay(s: State, now: real): real {
    if s.mode == Throttle then Max(0.0, s.delay - (now - s.last429)) else 0.0
  }

  class RateLimitStateMachine {
    const config: Config
    var mode: Mode
    var errors: seq<real>
    var successes: seq<real>
    var last429: real
    var delay: real

    ghost function Value(): State
      reads this
    {
      State(mode, errors, successes, last429, delay)
    }

    constructor (config: Config)
      ensures this.config == config && Value() == INITIAL
    {
      this.config := config;
      mode, errors, successes, last429, delay := Normal, [], [], 0.0, 0.0;
    }

    method CleanOldTimestamps(now: real)
      modifies this`errors, this`successes
      ensures Value() == Cleaned(old(Value()), config, now)
    {
      var cutoff := Cutoff(config, now);
      while errors != [] && errors[0] < cutoff
        invariant Popped(errors, cutoff) == Popped(old(errors), cutoff) && successes == old(successes)
        decreases |errors|
      {
        errors := errors[1..];
      }
      while successes != [] && successes[0] < cutoff
        invariant Popped(successes, cutoff) == Popped(old(successes), cutoff)
        invariant errors == Popped(old(errors), cutoff)
        decreases |successes|
      {
        successes := successes[1..];
      }
    }

    method ShouldTrip() returns (b: bool)
      ensures b == Trips(|errors|, |successes|, config.threshold)
    {
      if errors == [] {
        return false;
      }
      var total := |errors| + |successes|;
      if total < 10 {
        return false;
      }
      var rate := (|errors| as real / total as real) * 100.0;
      return rate >= config.threshold;
    }

    method Handle429(now: real, clean: real, retryAfter: Option<real>)
      modifies this
      ensures Value() == After429(old(Value()), config, now, clean, retryAfter)
    {
      last429 := now;
      errors := errors + [now];
      if retryAfter.Some? {
        delay := Min(retryAfter.value, config.maxRetryAfter);
      } else {
        delay := Min(60.0, delay * 2.0);
      }
      mode := Throttle;
      CleanOldTimestamps(clean);
    }

    method HandleSuccess(now: real, clean: real)
      modifies this
      ensures Value() == AfterSuccess(old(Value()), config, now, clean)
    {
      successes := successes + [now];
      CleanOldTimestamps(clean);
      if mode == Throttle {
        if now - last429 >= delay {
          mode, delay := Normal, 0.0;
        }
      } else if mode == SleepThenResume {
        mode := Normal;
      }
    }

    /** The lock is not reentrant: status 429, unless the breaker trips first, blocks for good. */
    method HandleError(now: real, clean: real, status: int) returns (blocked: bool)
      modifies this
      ensures Value() == AfterError(old(Value()), config, now, clean)
      ensures blocked <==> status == 429 && !Trips(|errors|, |successes|, config.threshold)
    {
      errors := errors + [now];
      CleanOldTimestamps(clean);
      var trips := ShouldTrip();
      if trips {
        mode := CacheOnly;
      }
      blocked := !trips && status == 429;
    }

    method ShouldMakeRequest(now: real) returns (b: bool)
      ensures b == MayRequest(Value(), now)
    {
      if mode == CacheOnly {
        return false;
      }
      if mode == Throttle {
        return now - last429 >= delay;
      }
      return true;
    }

    method GetRetryDelay(now: real) returns (d: real)
      ensures d == RetryDelay(Value(), now)
    {
      if mode == Throttle {
        return Max(0.0, delay - (now - last429));
      }
      return 0.0;
    }

    method Reset()
      modifies this
      ensures Value() == INITIAL
    {
      mode, errors, successes, last429, delay := Normal, [], [], 0.0, 0.0;
    }

    /** How many recorded errors and successes lie in the window ending now, what share the errors have,
        and how long to wait. The reported share is the one that decides whether the breaker trips. */
    method GetStats(now: real) returns (stats: Stats)
      ensures stats.recentErrors == |Recent(errors, Cutoff(config, now))|
      ensures stats.recentSuccesses == |Recent(successes, Cutoff(config, now))|
      ensures stats.errorRate * (stats.recentErrors + stats.recentSuccesses) as real == stats.recentErrors as real * 100.0
      ensures stats.recentErrors == 0 ==> stats.errorRate == 0.0
      ensures Trips(stats.recentErrors, stats.recentSuccesses, config.threshold) <==>
                stats.recentErrors > 0 && stats.recentErrors + stats.recentSuccesses >= 10 && stats.errorRate >= config.threshold
      ensures stats.mode == mode && stats.last429 == last429 && stats.retryDelay == RetryDelay(Value(), now)
    {
      var recentErrors := CountSince(errors, Cutoff(config, now));
      var recentSuccesses := CountSince(successes, Cutoff(config, now));
      var total := recentErrors + recentSuccesses;
      var errorRate := if total > 0 then recentErrors as real / total as real * 100.0 else 0.0;
      var retryDelay := if mode == Throttle then Max(0.0, delay - (now - last429)) else 0.0;
      stats := Stats(mode, recentErrors, recentSuccesses, errorRate, retryDelay, last429);
    }
  }

  method CountSince(times: seq<real>, cutoff: real) returns (n: nat)
    ensures n == |Recent(times, cutoff)|
  {
    n := 0;
    for i := 0 to |times|
      invariant n == |Recent(times[..i], cutoff)|
    {
      assert times[..i + 1][..i] == times[..i];
      if times[i] >= cutoff {
        n := n + 1;
      }
    }
    TakeAll(times);
  }

  // ---------- Histories ----------

  datatype Event =
    | On429(now: real, clean: real, retryAfter: Option<real>)
    | OnSuccess(now: real, clean: real)
    | OnError(now: real, clean: real)
    | OnReset(now: real, clean: real)

  function After(s: State, c: Config, e: Event): State {
    match e
    case On429(now, clean, retryAfter) => After429(s, c, now, clean, retryAfter)
    case OnSuccess(now, clean) => AfterSuccess(s, c, now, clean)
    case OnError(now, clean) => AfterError(s, c, now, clean)
    case OnReset(_, _) => INITIAL
  }

  ghost function AfterAll(c: Config, h: seq<Event>): State {
    if h == [] then INITIAL else After(AfterAll(c, h[..|h| - 1]), c, h[|h| - 1])
  }

  /** The times no earlier than a cutoff. */
  ghost function Recent(times: seq<real>, cutoff: real): seq<real> {
    if times == [] then []
    else Recent(times[..|times| - 1], cutoff) + (if times[|times| - 1] >= cutoff then [times[|times| - 1]] else [])
  }

  /** The time an event adds to the errors, or to the successes. */
  ghost function NewErrors(e: Event): seq<real> {
    if e.On429? || e.OnError? then [e.now] else []
  }

  ghost function NewSuccesses(e: Event): seq<real> {
    if e.OnSuccess? then [e.now] else []
  }

  /** The times of all errors, or successes, since the last reset. */
  ghost function ErrorTimes(h: seq<Event>): seq<real> {
    if h == [] || h[|h| - 1].OnReset? then [] else ErrorTimes(h[..|h| - 1]) + NewErrors(h[|h| - 1])
  }

  ghost function SuccessTimes(h: seq<Event>): seq<real> {
    if h == [] || h[|h| - 1].OnReset? then [] else SuccessTimes(h[..|h| - 1]) + NewSuccesses(h[|h| - 1])
  }

  /** No reset comes after the i-th event. */
  ghost predicate SinceReset(h: seq<Event>, i: nat) {
    forall j :: i < j < |h| ==> !h[j].OnReset?
  }

  /** The errors are the 429s and the other errors since the last reset, and the successes the successes. */
  lemma {:induction false} TimesAreOfEvents(h: seq<Event>, t: real)
    ensures t in ErrorTimes(h) <==> exists i :: 0 <= i < |h| && SinceReset(h, i) && (h[i].On429? || h[i].OnError?) && h[i].now == t
    ensures t in SuccessTimes(h) <==> exists i :: 0 <= i < |h| && SinceReset(h, i) && h[i].OnSuccess? && h[i].now == t
  {
    if h != [] {
      var rest, last := h[..|h| - 1], h[|h| - 1];
      TimesAreOfEvents(rest, t);
      assert SinceReset(h, |rest|) && h[|rest|] == last;
      forall i: nat | i < |rest| ensures h[i] == rest[i] && (SinceReset(h, i) <==> SinceReset(rest, i) && !last.OnReset?) {
        assert forall j :: i < j < |rest| ==> h[j] == rest[j];
      }
    }
  }

  ghost function Clock(h: seq<Event>): real {
    if h == [] then 0.0 else h[|h| - 1].clean
  }

  /** The clock never goes back: not between an event's two readings, nor from one event to the next. */
  ghost predicate Timely(h: seq<Event>) {
    h != [] ==>
      && Timely(h[..|h| - 1]) && h[|h| - 1].now <= h[|h| - 1].clean
      && (|h| > 1 ==> Clock(h[..|h| - 1]) <= h[|h| - 1].now)
  }

  lemma AfterOneMore(c: Config, h: seq<Event>, e: Event)
    ensures AfterAll(c, h + [e]) == After(AfterAll(c, h), c, e)
  {
    assert (h + [e])[..|h|] == h;
  }

  lemma TimelyOneMore(h: seq<Event>, e: Event)
    requires Timely(h) && e.now <= e.clean && (h != [] ==> Clock(h) <= e.now)
    ensures Timely(h + [e]) && Clock(h + [e]) == e.clean
  {
    assert (h + [e])[..|h|] == h;
  }

  ghost predicate Ascending(times: seq<real>) {
    forall i, j :: 0 <= i < j < |times| ==> times[i] <= times[j]
  }

  lemma {:induction false} RecentOfConcat(a: seq<real>, b: seq<real>, cutoff: real)
    ensures Recent(a + b, cutoff) == Recent(a, cutoff) + Recent(b, cutoff)
  {
    if b == [] {
      assert a + b == a;
    } else {
      assert (a + b)[..|a + b| - 1] == a + b[..|b| - 1];
      RecentOfConcat(a, b[..|b| - 1], cutoff);
    }
  }

  lemma {:induction false} RecentIsAll(times: seq<real>, cutoff: real)
    requires forall i :: 0 <= i < |times| ==> times[i] >= cutoff
    ensures Recent(times, cutoff) == times
  {
    if times != [] {
      RecentIsAll(times[..|times| - 1], cutoff);
    }
  }

  /** Popping from the front of an ascending queue is filtering it. */
  lemma {:induction false} PoppingIsFiltering(times: seq<real>, cutoff: real)
    requires Ascending(times)
    ensures Popped(times, cutoff) == Recent(times, cutoff)
  {
    if times != [] && times[0] < cutoff {
      PoppingIsFiltering(times[1..], cutoff);
      assert times == [times[0]] + times[1..];
      RecentOfConcat([times[0]], times[1..], cutoff);
      assert [times[0]][..0] == [];
    } else {
      RecentIsAll(times, cutoff);
    }
  }

  /** Filtering again by a later cutoff forgets the earlier one. */
  lemma {:induction false} LaterCutoffWins(times: seq<real>, early: real, late: real)
    requires early <= late
    ensures Recent(Recent(times, early), late) == Recent(times, late)
  {
    if times != [] {
      var rest, last := times[..|times| - 1], times[|times| - 1];
      LaterCutoffWins(rest, early, late);
      RecentOfConcat(Recent(rest, early), if last >= early then [last] else [], late);
      assert [last][..0] == [];
    }
  }

  lemma {:induction false} RecentKeepsOrder(times: seq<real>, cutoff: real)
    requires Ascending(times)
    ensures Ascending(Recent(times, cutoff))
    ensures forall t :: t in Recent(times, cutoff) ==> t in times
  {
    if times != [] {
      var rest, last := times[..|times| - 1], times[|times| - 1];
      RecentKeepsOrder(rest, cutoff);
      assert times == rest + [last];
      forall k | 0 <= k < |Recent(rest, cutoff)| ensures Recent(rest, cutoff)[k] <= last {
        assert Recent(rest, cutoff)[k] in Recent(rest, cutoff);
        var i :| 0 <= i < |rest| && rest[i] == Recent(rest, cutoff)[k];
        assert times[i] <= times[|rest|];
      }
    }
  }

  lemma AscendsOneMore(times: seq<real>, more: seq<real>, now: real)
    requires Ascending(times) && (forall t :: t in times ==> t <= now) && (more == [] || more == [now])
    ensures Ascending(times + more) && forall t :: t in times + more ==> t <= now
  {
    forall i | 0 <= i < |times| ensures times[i] <= now {
      assert times[i] in times;
    }
  }

  lemma {:induction false} TimesAscend(h: seq<Event>)
    requires Timely(h)
    ensures Ascending(ErrorTimes(h)) && Ascending(SuccessTimes(h))
    ensures forall t :: t in ErrorTimes(h) || t in SuccessTimes(h) ==> t <= Clock(h)
  {
    if h != [] {
      var rest, e := h[..|h| - 1], h[|h| - 1];
      TimesAscend(rest);
      assert rest == [] ==> ErrorTimes(rest) == [] && SuccessTimes(rest) == [];
      AscendsOneMore(ErrorTimes(rest), NewErrors(e), e.now);
      AscendsOneMore(SuccessTimes(rest), NewSuccesses(e), e.now);
    }
  }

  /** Adding a time, or none, and popping is filtering the longer history by the later cutoff. */
  lemma CleaningFilters(times: seq<real>, more: seq<real>, early: real, late: real)
    requires Ascending(times + more) && |more| <= 1 && (times != [] ==> early <= late)
    ensures Popped(Recent(times, early) + more, late) == Recent(times + more, late)
  {
    assert forall i :: 0 <= i < |times| ==> (times + more)[i] == times[i];
    RecentKeepsOrder(times, early);
    var queue := Recent(times, early) + more;
    forall i, j | 0 <= i < j < |queue| ensures queue[i] <= queue[j] {
      if j == |Recent(times, early)| {
        assert Recent(times, early)[i] in Recent(times, early);
        var k :| 0 <= k < |times| && times[k] == queue[i];
        assert (times + more)[k] <= (times + more)[|times|];
      }
    }
    PoppingIsFiltering(queue, late);
    RecentOfConcat(Recent(times, early), more, late);
    RecentOfConcat(times, more, late);
    if times != [] {
      LaterCutoffWins(times, early, late);
    }
  }

  /** Every handler appends at most one time to one queue and then cleans both. */
  lemma HandlersAppendAndClean(s: State, c: Config, e: Event)
    requires !e.OnReset?
    ensures After(s, c, e).errors == Popped(s.errors + NewErrors(e), Cutoff(c, e.clean))
    ensures After(s, c, e).successes == Popped(s.successes + NewSuccesses(e), Cutoff(c, e.clean))
  {
    assert s.errors + [] == s.errors && s.successes + [] == s.successes;
  }

  /** The queues hold exactly the events since the last reset that the last cleaning left in the window. */
  lemma {:induction false} QueuesAreWindowed(c: Config, h: seq<Event>)
    requires Timely(h)
    ensures AfterAll(c, h).errors == Recent(ErrorTimes(h), Cutoff(c, Clock(h)))
    ensures AfterAll(c, h).successes == Recent(SuccessTimes(h), Cutoff(c, Clock(h)))
  {
    if h == [] || h[|h| - 1].OnReset? {
      assert AfterAll(c, h) == INITIAL && ErrorTimes(h) == [] && SuccessTimes(h) == [];
    } else {
      var rest, e := h[..|h| - 1], h[|h| - 1];
      var s, early, late := AfterAll(c, rest), Cutoff(c, Clock(rest)), Cutoff(c, e.clean);
      QueuesAreWindowed(c, rest);
      TimesAscend(h);
      assert AfterAll(c, h) == After(s, c, e);
      HandlersAppendAndClean(s, c, e);
      assert ErrorTimes(h) == ErrorTimes(rest) + NewErrors(e);
      CleaningFilters(ErrorTimes(rest), NewErrors(e), early, late);
      assert SuccessTimes(h) == SuccessTimes(rest) + NewSuccesses(e);
      CleaningFilters(SuccessTimes(rest), NewSuccesses(e), early, late);
    }
  }

  /** The counts that get_stats reports are those of the whole history filtered by the window. */
  lemma StatsCountTheHistory(c: Config, h: seq<Event>, now: real)
    requires Timely(h) && (h != [] ==> Clock(h) <= now)
    ensures Recent(AfterAll(c, h).errors, Cutoff(c, now)) == Recent(ErrorTimes(h), Cutoff(c, now))
    ensures Recent(AfterAll(c, h).successes, Cutoff(c, now)) == Recent(SuccessTimes(h), Cutoff(c, now))
  {
    QueuesAreWindowed(c, h);
    if h != [] {
      LaterCutoffWins(ErrorTimes(h), Cutoff(c, Clock(h)), Cutoff(c, now));
      LaterCutoffWins(SuccessTimes(h), Cutoff(c, Clock(h)), Cutoff(c, now));
    }
  }

  /** After an error the mode is settled by what the cleaned queues hold. */
  lemma QueuesDecideMode(s: State, c: Config, e: Event)
    requires e.OnError?
    ensures var t := After(s, c, e); t.mode == if Trips(|t.errors|, |t.successes|, c.threshold) then CacheOnly else s.mode
  {
  }

  /** An error trips the breaker exactly when the window of the full history, this error included, holds
      ten events or more with the error share at the threshold; otherwise the mode stays as it was. */
  lemma BreakerTripsExactly(c: Config, h: seq<Event>, e: Event)
    requires Timely(h + [e]) && e.OnError?
    ensures var tripped := Trips(|Recent(ErrorTimes(h + [e]), Cutoff(c, e.clean))|,
                                 |Recent(SuccessTimes(h + [e]), Cutoff(c, e.clean))|, c.threshold);
            AfterAll(c, h + [e]).mode == if tripped then CacheOnly else AfterAll(c, h).mode
  {
    AfterOneMore(c, h, e);
    QueuesDecideMode(AfterAll(c, h), c, e);
    QueuesAreWindowed(c, h + [e]);
    assert Clock(h + [e]) == e.clean;
  }

  // ---------- Modes and delays ----------

  ghost predicate Sensible(c: Config) {
    c.maxRetryAfter >= 0.0
  }

  /** Retry-After, where given, is not negative. */
  ghost predicate NonNegativeDelays(h: seq<Event>) {
    forall i :: 0 <= i < |h| && h[i].On429? && h[i].retryAfter.Some? ==> h[i].retryAfter.value >= 0.0
  }

  /** The sleeping mode is never entered, and the delay stays within bounds. */
  lemma {:induction false} ModesAndDelaysStayInBounds(c: Config, h: seq<Event>)
    requires Sensible(c) && NonNegativeDelays(h)
    ensures AfterAll(c, h).mode != SleepThenResume
    ensures 0.0 <= AfterAll(c, h).delay <= Max(60.0, c.maxRetryAfter)
  {
    if h != [] {
      var rest := h[..|h| - 1];
      assert forall i :: 0 <= i < |rest| ==> rest[i] == h[i];
      ModesAndDelaysStayInBounds(c, rest);
    }
  }

  /** What each change of mode can only be due to, in any state at all. */
  lemma ModeChangesAreDueTo(s: State, c: Config, e: Event)
    ensures var t := After(s, c, e);
            && (s.mode == CacheOnly && t.mode != CacheOnly ==> e.On429? || e.OnReset?)
            && (s.mode == Throttle && t.mode == Normal ==> e.OnReset? || (e.OnSuccess? && e.now - s.last429 >= s.delay))
            && (s.mode != Throttle && t.mode == Throttle ==> e.On429?)
            && (s.mode != CacheOnly && t.mode == CacheOnly ==> e.OnError?)
  {
  }

  /** h[i] is the last 429 since the last reset. */
  ghost predicate IsLast429(h: seq<Event>, i: nat) {
    i < |h| && h[i].On429? && forall j :: i < j < |h| ==> !h[j].On429? && !h[j].OnReset?
  }

  /** The delay that the 429 at i asks for, capped, or twice the delay before it. */
  ghost function AskedDelay(c: Config, h: seq<Event>, i: nat): real
    requires i < |h| && h[i].On429?
  {
    if h[i].retryAfter.Some? then Min(h[i].retryAfter.value, c.maxRetryAfter)
    else Min(60.0, AfterAll(c, h[..i]).delay * 2.0)
  }

  lemma {:induction false} ThrottlingHasA429(c: Config, h: seq<Event>) returns (i: nat)
    requires AfterAll(c, h).mode == Throttle
    ensures IsLast429(h, i)
  {
    if h[|h| - 1].On429? {
      i := |h| - 1;
    } else {
      i := ThrottlingHasA429(c, h[..|h| - 1]);
    }
  }

  /** The machine remembers the time of the last 429, and while throttled the delay it asked for. */
  lemma {:induction false} TheLast429IsRemembered(c: Config, h: seq<Event>, i: nat)
    requires IsLast429(h, i)
    ensures AfterAll(c, h).last429 == h[i].now
    ensures AfterAll(c, h).mode == Throttle ==> AfterAll(c, h).delay == AskedDelay(c, h, i)
  {
    if i < |h| - 1 {
      var rest := h[..|h| - 1];
      assert rest[..i] == h[..i];
      TheLast429IsRemembered(c, rest, i);
    }
  }

  /** Throttling ends with a reset, or with a success no earlier than the delay that the last 429 of the
      history asked for, and with nothing else. */
  lemma ThrottlingEndsExactly(c: Config, h: seq<Event>, e: Event) returns (i: nat)
    requires AfterAll(c, h).mode == Throttle
    ensures IsLast429(h, i)
    ensures AfterAll(c, h + [e]).mode == Normal <==>
              e.OnReset? || (e.OnSuccess? && e.now - h[i].now >= AskedDelay(c, h, i))
  {
    AfterOneMore(c, h, e);
    i := ThrottlingHasA429(c, h);
    TheLast429IsRemembered(c, h, i);
  }

  /** After any history a 429 throttles, cache-only mode or not. */
  lemma Every429Throttles(c: Config, h: seq<Event>, e: Event)
    requires e.On429?
    ensures AfterAll(c, h + [e]).mode == Throttle
  {
    AfterOneMore(c, h, e);
  }

  /** The j-th event is an error upon which the window of the history holds enough errors to trip. */
  ghost predicate TripsAt(c: Config, h: seq<Event>, j: nat)
    requires j < |h|
  {
    && h[j].OnError?
    && Trips(|Recent(ErrorTimes(h[..j + 1]), Cutoff(c, h[j].clean))|, |Recent(SuccessTimes(h[..j + 1]), Cutoff(c, h[j].clean))|, c.threshold)
  }

  /** The j-th event is a success no earlier after the 429 at i than the delay that one asked for. */
  ghost predicate RecoversAt(c: Config, h: seq<Event>, i: nat, j: nat)
    requires i < |h| && j < |h| && h[i].On429?
  {
    h[j].OnSuccess? && h[j].now - h[i].now >= AskedDelay(c, h, i)
  }

  /** Nothing since the 429 at i has tripped the breaker or ended the throttling. */
  ghost predicate ThrottledSince(c: Config, h: seq<Event>, i: nat) {
    IsLast429(h, i) && forall j :: i < j < |h| ==> !TripsAt(c, h, j) && !RecoversAt(c, h, i, j)
  }

  /** The breaker has tripped at j, and since then there has been neither a 429 nor a reset. */
  ghost predicate TrippedSince(c: Config, h: seq<Event>, j: nat) {
    j < |h| && TripsAt(c, h, j) && forall k :: j < k < |h| ==> !h[k].On429? && !h[k].OnReset?
  }

  lemma PrefixOfPrefix(h: seq<Event>, j: nat)
    requires j < |h| - 1
    ensures h[..|h| - 1][..j] == h[..j] && h[..|h| - 1][..j + 1] == h[..j + 1] && h[..|h| - 1][j] == h[j]
  {
  }

  lemma ThrottledSinceOneMore(c: Config, h: seq<Event>, i: nat)
    requires i < |h| - 1
    ensures ThrottledSince(c, h, i) <==>
              ThrottledSince(c, h[..|h| - 1], i) && IsLast429(h, i) && !TripsAt(c, h, |h| - 1) && !RecoversAt(c, h, i, |h| - 1)
  {
    var rest := h[..|h| - 1];
    PrefixOfPrefix(h, i);
    if h[i].On429? {
      forall j | i < j < |rest|
        ensures (TripsAt(c, h, j) <==> TripsAt(c, rest, j)) && (RecoversAt(c, h, i, j) <==> RecoversAt(c, rest, i, j)) {
        PrefixOfPrefix(h, j);
      }
    }
  }

  lemma TrippedSinceOneMore(c: Config, h: seq<Event>, j: nat)
    requires j < |h| - 1
    ensures TrippedSince(c, h, j) <==> TrippedSince(c, h[..|h| - 1], j) && !h[|h| - 1].On429? && !h[|h| - 1].OnReset?
  {
    PrefixOfPrefix(h, j);
  }

  lemma LastTrips(c: Config, h: seq<Event>)
    requires Timely(h) && h != [] && h[|h| - 1].OnError?
    ensures AfterAll(c, h).mode == if TripsAt(c, h, |h| - 1) then CacheOnly else AfterAll(c, h[..|h| - 1]).mode
  {
    assert h[..|h| - 1] + [h[|h| - 1]] == h && h[..|h|] == h;
    BreakerTripsExactly(c, h[..|h| - 1], h[|h| - 1]);
  }

  lemma {:induction false} ThrottledSinceIsThrottled(c: Config, h: seq<Event>, i: nat)
    requires Timely(h) && IsLast429(h, i)
    ensures AfterAll(c, h).mode == Throttle <==> ThrottledSince(c, h, i)
  {
    if i < |h| - 1 {
      var rest, e := h[..|h| - 1], h[|h| - 1];
      PrefixOfPrefix(h, i);
      ThrottledSinceIsThrottled(c, rest, i);
      ThrottledSinceOneMore(c, h, i);
      TheLast429IsRemembered(c, rest, i);
      if e.OnError? {
        LastTrips(c, h);
      }
    }
  }

  /** The machine throttles if and only if there has been a 429 since the last reset, and since the last of
      them neither an error that trips the breaker nor a success that came after the delay it asked for. */
  lemma ThrottledExactly(c: Config, h: seq<Event>)
    requires Timely(h)
    ensures AfterAll(c, h).mode == Throttle <==> exists i :: ThrottledSince(c, h, i)
  {
    if AfterAll(c, h).mode == Throttle {
      var i := ThrottlingHasA429(c, h);
      ThrottledSinceIsThrottled(c, h, i);
    } else if i: nat :| ThrottledSince(c, h, i) {
      ThrottledSinceIsThrottled(c, h, i);
    }
  }

  lemma {:induction false} CacheOnlyHasTripped(c: Config, h: seq<Event>) returns (j: nat)
    requires Timely(h) && AfterAll(c, h).mode == CacheOnly
    ensures TrippedSince(c, h, j)
  {
    j := |h| - 1;
    if h[j].OnError? {
      LastTrips(c, h);
    }
    if !h[j].OnError? || !TripsAt(c, h, j) {
      j := CacheOnlyHasTripped(c, h[..|h| - 1]);
      TrippedSinceOneMore(c, h, j);
    }
  }

  lemma {:induction false} TrippedStaysCacheOnly(c: Config, h: seq<Event>, j: nat)
    requires Timely(h) && TrippedSince(c, h, j)
    ensures AfterAll(c, h).mode == CacheOnly
  {
    if h[|h| - 1].OnError? {
      LastTrips(c, h);
    }
    if j < |h| - 1 {
      TrippedSinceOneMore(c, h, j);
      TrippedStaysCacheOnly(c, h[..|h| - 1], j);
    }
  }

  /** The machine is in cache-only mode if and only if an error has tripped the breaker, with neither a 429
      nor a reset since. */
  lemma CacheOnlyExactly(c: Config, h: seq<Event>)
    requires Timely(h)
    ensures AfterAll(c, h).mode == CacheOnly <==> exists j :: TrippedSince(c, h, j)
  {
    if AfterAll(c, h).mode == CacheOnly {
      var j := CacheOnlyHasTripped(c, h);
    } else if j: nat :| TrippedSince(c, h, j) {
      TrippedStaysCacheOnly(c, h, j);
    }
  }

  /** While the machine throttles, a request has to wait for the delay that the last 429 asked for, counted
      from that 429, and for no longer. */
  lemma RequestsWaitOutThe429(c: Config, h: seq<Event>, i: nat, now: real)
    requires Timely(h) && ThrottledSince(c, h, i)
    ensures MayRequest(AfterAll(c, h), now) <==> now - h[i].now >= AskedDelay(c, h, i)
    ensures RetryDelay(AfterAll(c, h), now)
         == if now - h[i].now >= AskedDelay(c, h, i) then 0.0 else AskedDelay(c, h, i) - (now - h[i].now)
  {
    ThrottledSinceIsThrottled(c, h, i);
    TheLast429IsRemembered(c, h, i);
  }

  /** Requests are allowed unless the breaker has tripped or a 429 still has its delay running. */
  lemma RequestsAreAllowedExactly(c: Config, h: seq<Event>, now: real)
    requires Timely(h)
    ensures MayRequest(AfterAll(c, h), now) <==>
              && !(exists j :: TrippedSince(c, h, j))
              && forall i: nat :: ThrottledSince(c, h, i) ==> now - h[i].now >= AskedDelay(c, h, i)
  {
    CacheOnlyExactly(c, h);
    ThrottledExactly(c, h);
    forall i: nat | ThrottledSince(c, h, i) ensures MayRequest(AfterAll(c, h), now) <==> now - h[i].now >= AskedDelay(c, h, i) {
      RequestsWaitOutThe429(c, h, i, now);
    }
  }

  /** A 429 with Retry-After 60 at 1000 seconds, the first event of all: requests wait until 1060. */
  lemma AMinuteAfterThe429(now: real)
    ensures var s := AfterAll(Config(60.0, 300.0, 300.0), [On429(1000.0, 1000.0, Some(60.0))]);
            s.mode == Throttle && (MayRequest(s, now) <==> now >= 1060.0) && RetryDelay(s, 1000.0) == 60.0
  {
    var e := On429(1000.0, 1000.0, Some(60.0));
    assert [e][..0] == [];
  }

  /** A time counts for the window ending at `now` exactly if it is no older than the window is long. */
  lemma {:induction false} RecentIsTheWindow(c: Config, times: seq<real>, now: real)
    ensures forall t :: t in Recent(times, Cutoff(c, now)) <==> t in times && now - t <= c.window
  {
    if times != [] {
      RecentIsTheWindow(c, times[..|times| - 1], now);
      assert times == times[..|times| - 1] + [times[|times| - 1]];
    }
  }

  /** A 429 whose Retry-After, capped, is positive. */
  ghost predicate StartsDelay(c: Config, e: Event) {
    e.On429? && e.retryAfter.Some? && Min(e.retryAfter.value, c.maxRetryAfter) > 0.0
  }

  /** A reset, a 429 whose Retry-After is not positive, or a success that ends throttling. */
  ghost predicate EndsDelay(c: Config, h: seq<Event>, j: nat)
    requires j < |h|
  {
    || h[j].OnReset?
    || (h[j].On429? && h[j].retryAfter.Some? && !StartsDelay(c, h[j]))
    || (h[j].OnSuccess? && AfterAll(c, h[..j]).mode == Throttle && AfterAll(c, h[..j + 1]).mode == Normal)
  }

  ghost predicate DelayedSince(c: Config, h: seq<Event>, i: nat) {
    i < |h| && StartsDelay(c, h[i]) && forall j :: i < j < |h| ==> !EndsDelay(c, h, j)
  }

  lemma DelayedSinceOneMore(c: Config, h: seq<Event>, i: nat)
    requires h != [] && i < |h| - 1
    ensures DelayedSince(c, h, i) <==> DelayedSince(c, h[..|h| - 1], i) && !EndsDelay(c, h, |h| - 1)
  {
    var rest := h[..|h| - 1];
    forall j | 0 <= j < |rest| ensures EndsDelay(c, h, j) <==> EndsDelay(c, rest, j) {
      assert rest[..j] == h[..j] && rest[..j + 1] == h[..j + 1];
    }
  }

  lemma {:induction false} DelayStarted(c: Config, h: seq<Event>) returns (i: nat)
    requires AfterAll(c, h).delay > 0.0
    ensures DelayedSince(c, h, i)
  {
    if StartsDelay(c, h[|h| - 1]) {
      i := |h| - 1;
    } else {
      assert h[..|h|] == h;
      i := DelayStarted(c, h[..|h| - 1]);
      DelayedSinceOneMore(c, h, i);
    }
  }

  lemma {:induction false} DelayLasts(c: Config, h: seq<Event>, i: nat)
    requires DelayedSince(c, h, i)
    ensures AfterAll(c, h).delay > 0.0
  {
    if i < |h| - 1 {
      DelayedSinceOneMore(c, h, i);
      assert h[..|h|] == h;
      DelayLasts(c, h[..|h| - 1], i);
    }
  }

  /** There is a delay if and only if some 429 brought a positive Retry-After and since then there has been
      no reset, no 429 with a Retry-After that is not positive and no success that ended throttling. */
  lemma DelaysAreDueToRetryAfter(c: Config, h: seq<Event>)
    ensures AfterAll(c, h).delay > 0.0 <==> exists i :: DelayedSince(c, h, i)
  {
    if AfterAll(c, h).delay > 0.0 {
      var i := DelayStarted(c, h);
    } else if i: nat :| DelayedSince(c, h, i) {
      DelayLasts(c, h, i);
    }
  }

  /** At one clock reading a request may be made exactly when the machine is not in cache-only mode and
      recommends no delay. */
  lemma RequestsAreAllowedExactlyWithoutDelay(s: State, now: real)
    ensures MayRequest(s, now) <==> s.mode != CacheOnly && RetryDelay(s, now) == 0.0
  {
  }

  /** If no 429 carries Retry-After the delay never leaves zero, so that outside cache-only mode a
      request may always be made at once: the doubling has nothing to double. */
  lemma {:induction false} WithoutRetryAfterNothingIsDelayed(c: Config, h: seq<Event>, now: real)
    requires Timely(h) && (h != [] ==> Clock(h) <= now)
    requires forall i :: 0 <= i < |h| && h[i].On429? ==> h[i].retryAfter == None
    ensures AfterAll(c, h).delay == 0.0
    ensures AfterAll(c, h).mode == Throttle ==> AfterAll(c, h).last429 <= now
    ensures AfterAll(c, h).mode != CacheOnly ==> MayRequest(AfterAll(c, h), now)
  {
    if h != [] {
      var rest, e := h[..|h| - 1], h[|h| - 1];
      assert forall i :: 0 <= i < |rest| ==> rest[i] == h[i];
      WithoutRetryAfterNothingIsDelayed(c, rest, e.now);
    }
  }
}
