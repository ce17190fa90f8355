/** The fixed-window rate limiter: one counter per identity, set to expire by its first request. */
module RateLimiter {
  import opened Wrappers

  /** A Redis counter, with its expiry time if it has one. */
  datatype Counter = Counter(count: int, expiresAt: Option<int>)

  datatype Decision = Admitted | Refused(retryAfter: int)

  /** What is left of a key at a time: nothing, once its expiry has come. */
  function Live(key: Option<Counter>, now: int): (r: Option<Counter>) {
    if key.Some? && key.value.expiresAt.Some? && key.value.expiresAt.value <= now then None else key
  }

  /** INCR. */
  function Incremented(key: Option<Counter>): (r: Counter) {
    match key
    case None => Counter(1, None)
    case Some(c) => c.(count := c.count + 1)
  }

  /** PEXPIRE: a window that is not positive deletes the key at once. */
  function Expiring(c: Counter, window: int, now: int): (r: Option<Counter>) {
    if window <= 0 then None else Some(c.(expiresAt := Some(now + window)))
  }

  /** PTTL: -2 for no key, -1 for no expiry. */
  function TimeToLive(key: Option<Counter>, now: int): (r: int) {
    if key == None then -2 else if key.value.expiresAt == None then -1 else key.value.expiresAt.value - now
  }

  /** The script: the key afterwards, the count, and the time to live. */
  function Script(key: Option<Counter>, window: int, now: int): (r: (Option<Counter>, int, int)) {
    var c := Incremented(Live(key, now));
    var after := if c.count == 1 then Expiring(c, window, now) else Some(c);
    (after, c.count, TimeToLive(after, now))
  }

  function Decide(count: int, ttl: int, maximum: int): (r: Decision) {
    if count > maximum then
      var seconds := (ttl + 999) / 1000;
      Refused(if seconds < 1 then 1 else seconds)
    else Admitted
  }

  function Limit(key: Option<Counter>, maximum: int, window: int, now: int): (r: (Option<Counter>, Decision)) {
    var (after, count, ttl) := Script(key, window, now);
    (after, Decide(count, ttl, maximum))
  }

  class Limiter {
    var counters: map<string, Counter>

    function Key(identity: string): (r: Option<Counter>)
      reads this
    {
      Lookup(counters, identity)
    }

    constructor ()
      ensures counters == map[]
    {
      counters := map[];
    }

    /** One request: run the script on the identity's counter, then admit or refuse. */
    method Request(identity: string, maximum: int, window: int, now: int) returns (decision: Decision)
      modifies this
      ensures (Key(identity), decision) == Limit(old(Key(identity)), maximum, window, now)
      ensures counters == Store(old(counters), identity, Limit(old(Key(identity)), maximum, window, now).0)
    {
      var count, ttl := RunScript(identity, window, now);
      if count > maximum {
        var retryAfter := (ttl + 999) / 1000;
        if retryAfter < 1 {
          retryAfter := 1;
        }
        return Refused(retryAfter);
      }
      return Admitted;
    }

    method RunScript(identity: string, window: int, now: int) returns (count: int, ttl: int)
      modifies this
      ensures (Key(identity), count, ttl) == Script(old(Key(identity)), window, now)
      ensures counters == Store(old(counters), identity, Script(old(Key(identity)), window, now).0)
    {
      if identity in counters && counters[identity].expiresAt.Some? && counters[identity].expiresAt.value <= now {
        counters := counters - {identity};
      }
      if identity in counters {
        counters := counters[identity := counters[identity].(count := counters[identity].count + 1)];
      } else {
        counters := counters[identity := Counter(1, None)];
      }
      count := counters[identity].count;
      if count == 1 {
        if window <= 0 {
          counters := counters - {identity};
        } else {
          counters := counters[identity := counters[identity].(expiresAt := Some(now + window))];
        }
      }
      ttl := TimeToLive(Key(identity), now);
    }
  }

  // ---------- runs of one identity ----------

  predicate Ordered(times: seq<int>) {
    forall i, j :: 0 <= i < j < |times| ==> times[i] <= times[j]
  }

  /** The key after serving requests at the given times. */
  function After(times: seq<int>, maximum: int, window: int): (r: Option<Counter>) {
    if times == [] then None
    else Limit(After(times[..|times| - 1], maximum, window), maximum, window, times[|times| - 1]).0
  }

  predicate IsAdmitted(times: seq<int>, i: nat, maximum: int, window: int)
    requires i < |times|
  {
    Limit(After(times[..i], maximum, window), maximum, window, times[i]).1.Admitted?
  }

  /** How many of the first n requests fell into [from, to) and were admitted. */
  function AdmittedIn(times: seq<int>, n: nat, maximum: int, window: int, from: int, to: int): (r: nat)
    requires n <= |times|
  {
    if n == 0 then 0
    else AdmittedIn(times, n - 1, maximum, window, from, to)
         + if from <= times[n - 1] < to && IsAdmitted(times, n - 1, maximum, window) then 1 else 0
  }

  function Max(x: int, y: int): (r: int) {
    if x < y then y else x
  }

  function Min(x: int, y: int): (r: int) {
    if x < y then x else y
  }

  /** Intervals that end before the first counted time, or hold no request, count nothing. */
  lemma {:induction false} NoneOutside(times: seq<int>, n: nat, maximum: int, window: int, from: int, to: int)
    requires n <= |times| && forall i :: 0 <= i < n ==> times[i] < from || to <= times[i]
    ensures AdmittedIn(times, n, maximum, window, from, to) == 0
  {
    if n > 0 { NoneOutside(times, n - 1, maximum, window, from, to); }
  }

  lemma {:induction false} SplitAt(times: seq<int>, n: nat, maximum: int, window: int, from: int, mid: int, to: int)
    requires n <= |times| && from <= mid <= to
    ensures AdmittedIn(times, n, maximum, window, from, to)
            == AdmittedIn(times, n, maximum, window, from, mid) + AdmittedIn(times, n, maximum, window, mid, to)
  {
    if n > 0 { SplitAt(times, n - 1, maximum, window, from, mid, to); }
  }

  /** The key always has an expiry and a positive count, and was created no later than the last request. */
  lemma {:induction false} KeyShape(times: seq<int>, maximum: int, window: int)
    requires window > 0 && Ordered(times) && times != []
    ensures var key, last := After(times, maximum, window), times[|times| - 1];
            key.Some? && key.value.expiresAt.Some? && key.value.count >= 1
            && key.value.expiresAt.value - window <= last < key.value.expiresAt.value
  {
    if |times| > 1 { KeyShape(times[..|times| - 1], maximum, window); }
  }

  /** When the counter now in force was created. */
  function Created(times: seq<int>, n: nat, maximum: int, window: int): (r: int)
    requires n <= |times|
  {
    var key := After(times[..n], maximum, window);
    if key.Some? && key.value.expiresAt.Some? then key.value.expiresAt.value - window else 0
  }

  function Counted(times: seq<int>, n: nat, maximum: int, window: int): (r: int)
    requires n <= |times|
  {
    var key := After(times[..n], maximum, window);
    if key.Some? then key.value.count else 0
  }

  /** Request n-1 either joined the counter in force or, that one having expired, created the next. */
  lemma Joins(times: seq<int>, n: nat, maximum: int, window: int)
    requires window > 0 && Ordered(times) && 0 < n <= |times|
    ensures var s, s' := Created(times, n - 1, maximum, window), Created(times, n, maximum, window);
            var c, c' := Counted(times, n - 1, maximum, window), Counted(times, n, maximum, window);
            && (IsAdmitted(times, n - 1, maximum, window) <==> c' <= maximum)
            && if n > 1 && times[n - 1] < s + window then s' == s && c' == c + 1 && c >= 1
               else s' == times[n - 1] && c' == 1
    ensures Created(times, n, maximum, window) <= times[n - 1] < Created(times, n, maximum, window) + window
  {
    KeyShape(times[..n], maximum, window);
    assert times[..n][..n - 1] == times[..n - 1];
    if n > 1 { KeyShape(times[..n - 1], maximum, window); }
  }

  /** Admitted since the counter in force was created: at most one per count, and none beyond the maximum. */
  ghost predicate CurrentBounded(times: seq<int>, n: nat, maximum: int, window: int)
    requires n <= |times|
  {
    var s, c := Created(times, n, maximum, window), Counted(times, n, maximum, window);
    && (forall to :: s <= to ==> AdmittedIn(times, n, maximum, window, s, to) <= Max(0, Min(c, maximum)))
    && (forall from, to :: s < from <= to ==> AdmittedIn(times, n, maximum, window, from, to) <= Max(0, Min(c, maximum) - 1))
  }

  /**
   * Admitted less than a window before the counter in force: one fewer than the maximum, for the request
   * that opened that window came earlier.
   */
  ghost predicate PreviousBounded(times: seq<int>, n: nat, maximum: int, window: int)
    requires n <= |times|
  {
    var s := Created(times, n, maximum, window);
    forall from :: s - window < from <= s ==> AdmittedIn(times, n, maximum, window, from, s) <= Max(0, maximum - 1)
  }

  lemma OneMore(times: seq<int>, n: nat, maximum: int, window: int, from: int, to: int)
    requires 0 < n <= |times|
    ensures AdmittedIn(times, n, maximum, window, from, to)
            == AdmittedIn(times, n - 1, maximum, window, from, to)
               + if from <= times[n - 1] < to && IsAdmitted(times, n - 1, maximum, window) then 1 else 0
  {}

  lemma EarlierTimes(times: seq<int>, n: nat, maximum: int, window: int)
    requires window > 0 && Ordered(times) && 0 < n <= |times|
    ensures forall i :: 0 <= i < n ==> times[i] <= times[n - 1] < Created(times, n, maximum, window) + window
  {
    Joins(times, n, maximum, window);
  }

  lemma CurrentStep(times: seq<int>, n: nat, maximum: int, window: int)
    requires window > 0 && Ordered(times) && 0 < n <= |times| && CurrentBounded(times, n - 1, maximum, window)
    ensures CurrentBounded(times, n, maximum, window)
  {
    Joins(times, n, maximum, window);
    if n > 1 { EarlierTimes(times, n - 1, maximum, window); }
    hide AdmittedIn, IsAdmitted, Created, Counted;
    var s := Created(times, n, maximum, window);
    forall from, to | s <= from <= to
      ensures AdmittedIn(times, n, maximum, window, from, to)
              <= Max(0, Min(Counted(times, n, maximum, window), maximum) - if s < from then 1 else 0)
    {
      OneMore(times, n, maximum, window, from, to);
      if s == times[n - 1] && (n == 1 || times[n - 1] >= Created(times, n - 1, maximum, window) + window) {
        NoneOutside(times, n - 1, maximum, window, from, to);
      }
    }
  }

  lemma PreviousStep(times: seq<int>, n: nat, maximum: int, window: int)
    requires window > 0 && Ordered(times) && 0 < n <= |times|
    requires CurrentBounded(times, n - 1, maximum, window) && PreviousBounded(times, n - 1, maximum, window)
    ensures PreviousBounded(times, n, maximum, window)
  {
    Joins(times, n, maximum, window);
    hide AdmittedIn, IsAdmitted, Created, Counted;
    var s := Created(times, n, maximum, window);
    forall from | s - window < from <= s ensures AdmittedIn(times, n, maximum, window, from, s) <= Max(0, maximum - 1) {
      OneMore(times, n, maximum, window, from, s);
      if n == 1 { NoneOutside(times, 0, maximum, window, from, s); }
    }
  }

  lemma {:induction false} RunBounded(times: seq<int>, n: nat, maximum: int, window: int)
    requires window > 0 && Ordered(times) && n <= |times|
    ensures CurrentBounded(times, n, maximum, window) && PreviousBounded(times, n, maximum, window)
  {
    if n > 0 {
      hide AdmittedIn, Created, Counted, CurrentBounded, PreviousBounded;
      RunBounded(times, n - 1, maximum, window);
      CurrentStep(times, n, maximum, window);
      PreviousStep(times, n, maximum, window);
    }
  }

  /** From the creation of a counter until it expires, at most the maximum is admitted. */
  lemma LifetimeBound(times: seq<int>, n: nat, maximum: int, window: int)
    requires window > 0 && Ordered(times) && n <= |times|
    ensures var s := Created(times, n, maximum, window);
            AdmittedIn(times, n, maximum, window, s, s + window) <= Max(0, maximum)
  {
    RunBounded(times, n, maximum, window);
  }

  /**
   * In any half-open interval of the window's length, at most 2*maximum - 1 requests of one identity are admitted:
   * two counters can meet in it, but not the request that created the first.
   */
  lemma {:induction false} SlidingBound(times: seq<int>, n: nat, maximum: int, window: int, from: int)
    requires window > 0 && Ordered(times) && n <= |times|
    ensures AdmittedIn(times, n, maximum, window, from, from + window) <= Max(0, 2 * maximum - 1)
  {
    if n > 0 {
      var s, to := Created(times, n, maximum, window), from + window;
      RunBounded(times, n, maximum, window);
      Joins(times, n, maximum, window);
      SlidingBound(times, n - 1, maximum, window, from);
      hide AdmittedIn, IsAdmitted, Created, Counted;
      if s < from {
      } else if s - window < from {
        SplitAt(times, n, maximum, window, from, s, to);
      } else {
        OneMore(times, n, maximum, window, from, to);
      }
    }
  }

  /** A request, the rest of its counter's admissions just before it expires, and as many as the next one admits at once. */
  function Burst(maximum: int, window: int): (times: seq<int>)
    requires maximum >= 1
    ensures |times| == 2 * maximum
  {
    seq(2 * maximum, i => if i == 0 then 0 else if i < maximum then window - 1 else window)
  }

  lemma {:induction false} BurstKey(maximum: int, window: int, n: nat)
    requires maximum >= 1 && window >= 2 && 0 < n <= 2 * maximum
    ensures After(Burst(maximum, window)[..n], maximum, window)
            == Some(if n <= maximum then Counter(n, Some(window)) else Counter(n - maximum, Some(2 * window)))
  {
    var times := Burst(maximum, window);
    assert times[..n] == times[..n - 1] + [times[n - 1]];
    AfterOneMore(times[..n - 1], times[n - 1], maximum, window);
    if n > 1 { BurstKey(maximum, window, n - 1); }
  }

  lemma BurstAdmitted(maximum: int, window: int, i: nat)
    requires maximum >= 1 && window >= 2 && i < 2 * maximum
    ensures IsAdmitted(Burst(maximum, window), i, maximum, window)
  {
    if i > 0 { BurstKey(maximum, window, i); }
  }

  lemma {:induction false} BurstCount(maximum: int, window: int, n: nat)
    requires maximum >= 1 && window >= 2 && 0 < n <= 2 * maximum
    ensures AdmittedIn(Burst(maximum, window), n, maximum, window, 1, 1 + window) == n - 1
  {
    hide IsAdmitted;
    BurstAdmitted(maximum, window, n - 1);
    if n > 1 { BurstCount(maximum, window, n - 1); }
  }

  /** For every maximum, and every window of at least two milliseconds, there is a run that reaches the bound. */
  lemma SlidingBoundIsReached(maximum: int, window: int)
    requires maximum >= 1 && window >= 2
    ensures var times := Burst(maximum, window);
            Ordered(times) && AdmittedIn(times, |times|, maximum, window, 1, 1 + window) == 2 * maximum - 1
  {
    BurstCount(maximum, window, 2 * maximum);
  }

  /** A window of one millisecond is different: a counter lives for a single instant, and no two meet in an interval. */
  lemma {:induction false} InstantBound(times: seq<int>, n: nat, maximum: int, from: int)
    requires Ordered(times) && n <= |times|
    ensures AdmittedIn(times, n, maximum, 1, from, from + 1) <= Max(0, maximum)
  {
    if n > 0 {
      var s := Created(times, n, maximum, 1);
      RunBounded(times, n, maximum, 1);
      Joins(times, n, maximum, 1);
      InstantBound(times, n - 1, maximum, from);
      hide AdmittedIn, IsAdmitted, Created, Counted;
      if from < s { OneMore(times, n, maximum, 1, from, from + 1); }
    }
  }

  /**
   * A refused client is told the least number of whole seconds, at least one, after which its counter has
   * expired; a request then, with none in between, is admitted.
   */
  lemma RetryAfterIsExact(times: seq<int>, i: nat, maximum: int, window: int, seconds: int)
    requires window > 0 && Ordered(times) && i < |times| && seconds >= 1
    requires !IsAdmitted(times, i, maximum, window)
    ensures var (key, decision) := Limit(After(times[..i], maximum, window), maximum, window, times[i]);
            var later := times[i] + 1000 * seconds;
            && (Live(key, later) == None <==> decision.retryAfter <= seconds)
            && (maximum >= 1 && decision.retryAfter <= seconds ==> Limit(key, maximum, window, later).1 == Admitted)
  {
    KeyShape(times[..i + 1], maximum, window);
    assert times[..i + 1][..i] == times[..i];
  }

  /** Retry-After is the time to live in whole seconds, rounded up, and at least one. */
  lemma RetryAfterRoundsUp(count: int, ttl: int, maximum: int)
    ensures Decide(count, ttl, maximum) == Admitted <==> count <= maximum
    ensures count > maximum ==>
              var s := Decide(count, ttl, maximum).retryAfter;
              s >= 1 && ttl <= 1000 * s && (s > 1 ==> 1000 * (s - 1) < ttl)
  {}

  /** A window that is not positive keeps no counter: each request is the first one of its identity. */
  lemma {:induction false} NoWindowKeepsNothing(times: seq<int>, maximum: int, window: int)
    requires window <= 0
    ensures After(times, maximum, window) == None
    ensures forall i :: 0 <= i < |times| ==> (IsAdmitted(times, i, maximum, window) <==> maximum >= 1)
  {
    hide Decide;
    RetryAfterRoundsUp(1, -2, maximum);
    if times != [] {
      NoWindowKeepsNothing(times[..|times| - 1], maximum, window);
      forall i | 0 <= i < |times| ensures IsAdmitted(times, i, maximum, window) <==> maximum >= 1 {
        if i < |times| - 1 {
          assert times[..|times| - 1][..i] == times[..i];
          assert IsAdmitted(times[..|times| - 1], i, maximum, window) <==> maximum >= 1;
        }
      }
    }
  }

  // ---------- many identities ----------

  datatype Event = Event(identity: string, at: int)

  function TimesOf(events: seq<Event>, identity: string): (r: seq<int>) {
    if events == [] then []
    else
      var e := events[|events| - 1];
      TimesOf(events[..|events| - 1], identity) + if e.identity == identity then [e.at] else []
  }

  /** Reading and writing the limiter's map: a key that is gone has no entry. */
  function Lookup(counters: map<string, Counter>, identity: string): (r: Option<Counter>) {
    if identity in counters then Some(counters[identity]) else None
  }

  function Store(counters: map<string, Counter>, identity: string, key: Option<Counter>): (r: map<string, Counter>) {
    match key
    case None => counters - {identity}
    case Some(c) => counters[identity := c]
  }

  /** The counters of the limiter after requests of any identities. */
  function CountersAfter(events: seq<Event>, maximum: int, window: int): (r: map<string, Counter>) {
    if events == [] then map[]
    else
      var before, e := CountersAfter(events[..|events| - 1], maximum, window), events[|events| - 1];
      Store(before, e.identity, Limit(Lookup(before, e.identity), maximum, window, e.at).0)
  }

  lemma LookupStored(counters: map<string, Counter>, identity: string, key: Option<Counter>, other: string)
    ensures Lookup(Store(counters, identity, key), other) == if other == identity then key else Lookup(counters, other)
  {}

  lemma AfterOneMore(times: seq<int>, at: int, maximum: int, window: int)
    ensures After(times + [at], maximum, window) == Limit(After(times, maximum, window), maximum, window, at).0
  {
    assert (times + [at])[..|times|] == times;
  }

  /** Each identity's counter is what its own requests alone make of it. */
  lemma {:induction false} IdentitiesAreIndependent(events: seq<Event>, maximum: int, window: int, identity: string)
    ensures Lookup(CountersAfter(events, maximum, window), identity) == After(TimesOf(events, identity), maximum, window)
  {
    hide Limit, Lookup, Store, After;
    if events == [] {
      NoRequestsYet(maximum, window, identity);
    } else {
      var front, e := events[..|events| - 1], events[|events| - 1];
      var before, ts := CountersAfter(front, maximum, window), TimesOf(front, identity);
      IdentitiesAreIndependent(front, maximum, window, identity);
      LookupStored(before, e.identity, Limit(Lookup(before, e.identity), maximum, window, e.at).0, identity);
      if e.identity == identity {
        AfterOneMore(ts, e.at, maximum, window);
      } else {
        assert ts + [] == ts;
      }
    }
  }

  lemma NoRequestsYet(maximum: int, window: int, identity: string)
    ensures Lookup(map[], identity) == After([], maximum, window)
  {}
}
