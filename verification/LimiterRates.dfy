/** Rate bounds over runs of the limiter: for the server as a whole, and for one client across evictions. */
module LimiterRates {
  import opened Words
  import opened Addresses
  import opened TokenBuckets
  import opened RateLimiters
  import opened LimiterRuns

  // ---------------------------------------------------------------------
  // The global layer
  // ---------------------------------------------------------------------

  function RequestTimes(events: seq<Event>): seq<int>
    decreases |events|
  {
    if events == [] then []
    else (if events[0].Request? then [events[0].now] else []) + RequestTimes(events[1..])
  }

  /** Requests not answered LimitedGlobal. */
  function PassedGlobal(s: Settings, l: Limiter, events: seq<Event>): nat
    decreases |events|
  {
    if events == [] then 0
    else
      (if events[0].Request? && !Check(s, l, events[0].source, events[0].now).1.LimitedGlobal? then 1 else 0)
      + PassedGlobal(s, Next(s, l, events[0]), events[1..])
  }

  lemma GlobalStep(s: Settings, l: Limiter, source: IpAddr, now: int)
    requires s.enabled && s.globalRate > 0
    ensures var (l', d) := Check(s, l, source, now);
      l'.global == Take(l.global, s.globalRate, s.globalBurst, now).0
      && (!d.LimitedGlobal? <==> Take(l.global, s.globalRate, s.globalBurst, now).1)
  {
  }

  /** The global layer is one bucket that every request takes from, whoever sends it. */
  lemma {:induction false} GlobalLayerIsOneBucket(s: Settings, l: Limiter, events: seq<Event>)
    requires s.enabled && s.globalRate > 0
    ensures PassedGlobal(s, l, events) == TakesIn(l.global, s.globalRate, s.globalBurst, RequestTimes(events))
    decreases |events|
  {
    if events != [] {
      var e := events[0];
      GlobalLayerIsOneBucket(s, Next(s, l, e), events[1..]);
      if e.Request? {
        GlobalStep(s, l, e.source, e.now);
        assert RequestTimes(events)[1..] == RequestTimes(events[1..]);
      } else {
        assert RequestTimes(events) == RequestTimes(events[1..]);
      }
    }
  }

  lemma MulMonotone(k: nat, a: int, b: int)
    requires a <= b
    ensures k * a <= k * b
  {
  }

  /** A window that ends by `end` and goes back by at most `backward` is worth no more than that. */
  lemma WorthWithin(rate: u32, burst: u32, start: int, times: seq<int>, end: int, backward: nat)
    requires LastTime(start, times) <= end && BackwardTime(start, times) <= backward
    ensures WindowWorth(rate, burst, start, times) <= burst * NANOS_PER_SECOND + rate * (end - start + backward)
  {
    MulMonotone(rate, LastTime(start, times) - start + BackwardTime(start, times), end - start + backward);
  }

  /** In any window, from whatever state it opens in and in whatever order its times come, at most
      globalBurst + globalRate * (length + backward movement) requests pass the global layer. */
  lemma GlobalRateBound(s: Settings, l: Limiter, start: int, events: seq<Event>)
    requires s.enabled && s.globalRate > 0
    ensures NANOS_PER_SECOND * PassedGlobal(s, l, events)
         <= WindowWorth(s.globalRate, s.globalBurst, start, RequestTimes(events))
  {
    var times := RequestTimes(events);
    GlobalLayerIsOneBucket(s, l, events);
    ForwardIsNetPlusBackward(start, times);
    if times == [] {
      assert s.globalRate * ForwardTime(start, times) >= 0;
    } else {
      TakesBoundedInWindow(l.global, s.globalRate, s.globalBurst, times);
      ForwardIsNetPlusBackward(times[0], times[1..]);
      MulMonotone(s.globalRate, ForwardTime(times[0], times[1..]), ForwardTime(start, times));
    }
  }

  function RequestsAt(c: IpAddr, times: seq<int>): seq<Event> {
    seq(|times|, i requires 0 <= i < |times| => Request(c, times[i]))
  }

  lemma {:induction false} TimesOfRequests(c: IpAddr, times: seq<int>)
    ensures RequestTimes(RequestsAt(c, times)) == times
    decreases |times|
  {
    if times != [] {
      TimesOfRequests(c, times[1..]);
      assert RequestsAt(c, times)[1..] == RequestsAt(c, times[1..]);
      assert times == [times[0]] + times[1..];
    }
  }

  /** The bound is attained: one client whose requests come with times that go back and forth n times
      within one token's worth of time gets the whole global burst and n more. */
  lemma GlobalRateBoundIsTight(s: Settings, c: IpAddr, d: nat, n: nat)
    requires s.enabled && s.globalBurst >= 1 && s.globalRate * d == NANOS_PER_SECOND
    ensures var times := Repeat(0, s.globalBurst) + Saw(d, n);
      NANOS_PER_SECOND * PassedGlobal(s, NewLimiter(s, 0), RequestsAt(c, times))
      == WindowWorth(s.globalRate, s.globalBurst, 0, times)
  {
    var times := Repeat(0, s.globalBurst) + Saw(d, n);
    WindowBoundIsTight(s.globalRate, s.globalBurst, d, n);
    PassedAtTimes(s, c, times);
  }

  lemma PassedAtTimes(s: Settings, c: IpAddr, times: seq<int>)
    requires s.enabled && s.globalRate > 0
    ensures PassedGlobal(s, NewLimiter(s, 0), RequestsAt(c, times))
         == TakesIn(FullBucket(s.globalBurst, 0), s.globalRate, s.globalBurst, times)
  {
    TimesOfRequests(c, times);
    GlobalLayerIsOneBucket(s, NewLimiter(s, 0), RequestsAt(c, times));
  }

  lemma {:induction false} RequestTimesAreOrdered(start: int, events: seq<Event>, end: int)
    requires Chronological(start, events, end)
    ensures Ordered(start, RequestTimes(events))
    ensures LastTime(start, RequestTimes(events)) <= end
    decreases |events|
  {
    if events != [] {
      var rest := RequestTimes(events[1..]);
      RequestTimesAreOrdered(events[0].now, events[1..], end);
      if events[0].Request? {
        assert RequestTimes(events)[1..] == rest;
      } else {
        assert RequestTimes(events) == rest;
        EventsEndBy(events[0].now, events[1..], end);
      }
    }
  }

  lemma {:induction false} EventsEndBy(start: int, events: seq<Event>, end: int)
    requires Chronological(start, events, end)
    ensures start <= end
    decreases |events|
  {
    if events != [] {
      EventsEndBy(events[0].now, events[1..], end);
    }
  }

  /** For ordered times that is globalBurst + globalRate * (end - start) in every window [start, end]. */
  lemma GlobalRateBoundOrdered(s: Settings, l: Limiter, start: int, events: seq<Event>, end: int)
    requires s.enabled && s.globalRate > 0 && Chronological(start, events, end)
    ensures NANOS_PER_SECOND * PassedGlobal(s, l, events)
         <= s.globalBurst * NANOS_PER_SECOND + s.globalRate * (end - start)
  {
    var times := RequestTimes(events);
    GlobalRateBound(s, l, start, events);
    RequestTimesAreOrdered(start, events, end);
    OrderedNeverBackward(start, times);
    WorthWithin(s.globalRate, s.globalBurst, start, times, end, 0);
  }

  // ---------------------------------------------------------------------
  // One client
  // ---------------------------------------------------------------------

  /** The entry was last seen when its bucket was last refilled. */
  predicate SeenWhenRefilled(entry: Option<Entry>) {
    entry.Some? ==> entry.value.lastSeen == entry.value.bucket.lastRefill
  }

  lemma {:induction false} StaysSeenWhenRefilled(s: Settings, l: Limiter, c: IpAddr, events: seq<Event>)
    requires s.enabled && SeenWhenRefilled(Tracked(l, c))
    ensures SeenWhenRefilled(Tracked(Final(s, l, events), c))
    decreases |events|
  {
    if events != [] {
      ClientStep(s, l, events[0], c);
      StaysSeenWhenRefilled(s, Next(s, l, events[0]), c, events[1..]);
    }
  }

  /** An idle client is evicted only once its bucket would be full again anyway. */
  predicate TtlCoversBurst(s: Settings) {
    s.ttl * s.rate >= s.burst * NANOS_PER_SECOND
  }

  /** Billionths of a token that the client can draw on when time has moved forward by `gained`
      since it was last served. */
  function Potential(s: Settings, entry: Option<Entry>, gained: nat): nat {
    if entry.None? then s.burst * NANOS_PER_SECOND
    else Min(s.burst * NANOS_PER_SECOND, 1000 * entry.value.bucket.micro + s.rate * gained)
  }

  /** At time `now` the entry is no older than the forward movement since it was last served. */
  predicate Lags(entry: Option<Entry>, now: int, gained: nat) {
    SeenWhenRefilled(entry) && (entry.Some? ==> now - entry.value.lastSeen <= gained)
  }

  lemma TimePasses(s: Settings, entry: Option<Entry>, gained: nat, step: nat)
    ensures Potential(s, entry, gained + step) <= Potential(s, entry, gained) + s.rate * step
  {
    assert s.rate * (gained + step) == s.rate * gained + s.rate * step;
  }

  lemma ServingSpendsPotential(s: Settings, entry: Option<Entry>, now: int, gained: nat)
    requires s.burst >= 1 && Lags(entry, now, gained)
    ensures var (e, d) := AdmittedStep(s, entry, now);
      Potential(s, Some(e), 0) + (if d.Allowed? then NANOS_PER_SECOND else 0) <= Potential(s, entry, gained)
  {
    var bucket := if entry.None? then FullBucket(s.burst, now) else entry.value.bucket;
    TakeConserves(bucket, s.rate, s.burst, now);
    MulMonotone(s.rate, Elapsed(bucket.lastRefill, now), if entry.None? then 0 else gained);
  }

  lemma EvictionGainsNothing(s: Settings, entry: Entry, now: int, gained: nat)
    requires TtlCoversBurst(s) && Lags(Some(entry), now, gained) && Elapsed(entry.lastSeen, now) >= s.ttl
    ensures Potential(s, Some(entry), gained) == Potential(s, None, 0)
  {
    MulMonotone(s.rate, s.ttl, gained);
  }

  /** One event at any time: `c` is served, evicted or left alone, and its potential pays for it. */
  lemma ClientSpendsPotential(s: Settings, l: Limiter, e: Event, c: IpAddr, now: int,
                              gained: nat) returns (gained': nat)
    requires ValidSettings(s) && TtlCoversBurst(s) && Lags(Tracked(l, c), now, gained)
    ensures Lags(Tracked(Next(s, l, e), c), e.now, gained')
    ensures Potential(s, Tracked(Next(s, l, e), c), gained')
      + (if Admits(s, l, e, c) && Check(s, l, c, e.now).1.Allowed? then NANOS_PER_SECOND else 0)
      <= Potential(s, Tracked(l, c), gained) + s.rate * Elapsed(now, e.now)
  {
    var step := Elapsed(now, e.now);
    ClientStep(s, l, e, c);
    TimePasses(s, Tracked(l, c), gained, step);
    gained' := gained + step;
    if Admits(s, l, e, c) {
      ServingSpendsPotential(s, Tracked(l, c), e.now, gained');
      gained' := 0;
    } else if Tracked(Next(s, l, e), c) != Tracked(l, c) {
      EvictionGainsNothing(s, Tracked(l, c).value, e.now, gained');
    }
  }

  function EventTimes(events: seq<Event>): seq<int>
    decreases |events|
  {
    if events == [] then [] else [events[0].now] + EventTimes(events[1..])
  }

  lemma {:induction false} AllowedWithinPotential(s: Settings, l: Limiter, c: IpAddr, now: int, gained: nat,
                                                  events: seq<Event>)
    requires ValidSettings(s) && TtlCoversBurst(s) && Lags(Tracked(l, c), now, gained)
    ensures NANOS_PER_SECOND * AllowedIn(Log(s, l, events, c))
         <= Potential(s, Tracked(l, c), gained) + ForwardCredit(s.rate, now, EventTimes(events))
    decreases |events|
  {
    if events != [] {
      var e := events[0];
      var gained' := ClientSpendsPotential(s, l, e, c, now, gained);
      AllowedWithinPotential(s, Next(s, l, e), c, e.now, gained', events[1..]);
      assert EventTimes(events)[1..] == EventTimes(events[1..]);
      var v := if Admits(s, l, e, c) then [Verdict(e.now, Check(s, l, c, e.now).1)] else [];
      CountsOfFront(v, Log(s, Next(s, l, e), events[1..], c));
    }
  }

  /** Rate bound on every window, in whatever order its times come: after any earlier history, a client
      is allowed at most burst + rate * (length + backward movement) requests in a window that opens
      at `start`, evictions included. */
  lemma ClientRateBound(s: Settings, c: IpAddr, created: int, history: seq<Event>, start: int, window: seq<Event>)
    requires ValidSettings(s) && TtlCoversBurst(s)
    ensures WithinRate(s, c, created, history, start, window)
  {
    var l := Final(s, NewLimiter(s, created), history);
    StaysSeenWhenRefilled(s, NewLimiter(s, created), c, history);
    var gained := if Tracked(l, c).None? then 0 else Elapsed(Tracked(l, c).value.lastSeen, start);
    AllowedWithinPotential(s, l, c, start, gained, window);
    CreditIsRateTimesForwardTime(s.rate, start, EventTimes(window));
    ForwardIsNetPlusBackward(start, EventTimes(window));
  }

  predicate WithinRate(s: Settings, c: IpAddr, created: int, history: seq<Event>, start: int, window: seq<Event>) {
    NANOS_PER_SECOND * AllowedIn(Log(s, Final(s, NewLimiter(s, created), history), window, c))
    <= WindowWorth(s.rate, s.burst, start, EventTimes(window))
  }

  lemma {:induction false} ChronologicalNeverBackward(start: int, events: seq<Event>, end: int)
    requires Chronological(start, events, end)
    ensures BackwardTime(start, EventTimes(events)) == 0 && LastTime(start, EventTimes(events)) <= end
    decreases |events|
  {
    if events != [] {
      ChronologicalNeverBackward(events[0].now, events[1..], end);
      assert EventTimes(events)[1..] == EventTimes(events[1..]);
    }
  }

  /** For ordered times that is burst + rate * (end - start) in every window [start, end]. */
  lemma ClientRateBoundOrdered(s: Settings, c: IpAddr, created: int, history: seq<Event>, start: int,
                               window: seq<Event>, end: int)
    requires ValidSettings(s) && TtlCoversBurst(s) && Chronological(start, window, end)
    ensures var l := Final(s, NewLimiter(s, created), history);
      NANOS_PER_SECOND * AllowedIn(Log(s, l, window, c)) <= s.burst * NANOS_PER_SECOND + s.rate * (end - start)
  {
    ClientRateBound(s, c, created, history, start, window);
    ChronologicalNeverBackward(start, window, end);
    WorthWithin(s.rate, s.burst, start, EventTimes(window), end, 0);
  }

  // ---------------------------------------------------------------------
  // Well-behaved clients
  // ---------------------------------------------------------------------

  /** Each verdict whose request came at least 10^9/rate ns after the previous admitted one is Allowed,
      unless the refill of just that interval is lost to the cast to 64 bits. */
  predicate SpacedAreAllowed(s: Settings, last: Option<int>, log: seq<Verdict>)
    decreases |log|
  {
    log == [] ||
    (&& (|| last.None?
         || (&& s.rate * Elapsed(last.value, log[0].at) >= NANOS_PER_SECOND
             && !LosesRefill(Elapsed(last.value, log[0].at), s.rate, s.burst))
         ==> log[0].decision.Allowed?)
     && SpacedAreAllowed(s, Some(log[0].at), log[1..]))
  }

  lemma {:induction false} SpacedFrom(s: Settings, l: Limiter, c: IpAddr, last: Option<int>, events: seq<Event>)
    requires ValidSettings(s) && SeenWhenRefilled(Tracked(l, c))
    requires Tracked(l, c).Some? ==> last == Some(Tracked(l, c).value.lastSeen)
    ensures SpacedAreAllowed(s, last, Log(s, l, events, c))
    decreases |events|
  {
    if events != [] {
      var e := events[0];
      var l' := Next(s, l, e);
      var rest := Log(s, l', events[1..], c);
      ClientStep(s, l, e, c);
      if Admits(s, l, e, c) {
        if Tracked(l, c).Some? && s.rate * Elapsed(last.value, e.now) >= NANOS_PER_SECOND
           && !LosesRefill(Elapsed(last.value, e.now), s.rate, s.burst) {
          SpacedTakeSucceeds(Tracked(l, c).value.bucket, s.rate, s.burst, e.now);
        }
        SpacedFrom(s, l', c, Some(e.now), events[1..]);
        assert ([Verdict(e.now, Check(s, l, c, e.now).1)] + rest)[1..] == rest;
      } else {
        SpacedFrom(s, l', c, last, events[1..]);
        assert [] + rest == rest;
      }
    }
  }

  /** A request spaced at least 10^9/rate ns from the client's previous one is never limited, whatever
      that client and all others did before, however long ago the limiter was created and in whatever
      order the other times came. */
  lemma SpacedClientNeverLimited(s: Settings, c: IpAddr, created: int, events: seq<Event>)
    requires ValidSettings(s)
    ensures SpacedAreAllowed(s, None, Log(s, NewLimiter(s, created), events, c))
  {
    SpacedFrom(s, NewLimiter(s, created), c, None, events);
  }
}
