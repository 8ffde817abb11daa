/** The plain window bound in the limiter: for the global layer and for one client, it holds exactly for
    ordered times. */
module LimiterOrder {
  import opened Words
  import opened Addresses
  import opened TokenBuckets
  import opened BucketOrder
  import opened RateLimiters
  import opened LimiterRuns
  import opened LimiterRates
  import opened LimiterEviction
  import opened LimiterHorizon

  // ---------------------------------------------------------------------
  // The global layer
  // ---------------------------------------------------------------------

  /** In every window with request times out of order by at most `skew`, from any state, at most
      globalBurst + globalRate * length requests pass the global layer. */
  ghost predicate GlobalOrderedBound(s: Settings, skew: nat) {
    forall l: Limiter, start: int, events: seq<Event> :: SkewedTimes(start, RequestTimes(events), skew) ==>
      NANOS_PER_SECOND * PassedGlobal(s, l, events)
      <= OrderedWorth(s.globalRate, s.globalBurst, start, RequestTimes(events))
  }

  /** One client whose times step back by a nanosecond breaks the bound. */
  lemma DisorderBreaksGlobalBound(s: Settings, c: IpAddr)
    requires s.enabled && s.globalRate > 0 && s.globalBurst > 0
    ensures var times := DisorderProbe(s.globalRate, s.globalBurst);
      && SkewedTimes(0, times, 1)
      && NANOS_PER_SECOND * PassedGlobal(s, NewLimiter(s, 0), RequestsAt(c, times))
         > OrderedWorth(s.globalRate, s.globalBurst, 0, times)
  {
    DisorderBreaksBound(s.globalRate, s.globalBurst);
    PassedAtTimes(s, c, DisorderProbe(s.globalRate, s.globalBurst));
  }

  /** The global layer keeps the plain bound if and only if its times are ordered, or it has no burst and
      lets nobody pass. */
  lemma GlobalOrderExactly(s: Settings, skew: nat)
    requires s.enabled && s.globalRate > 0
    ensures GlobalOrderedBound(s, skew) <==> skew == 0 || s.globalBurst == 0
  {
    if skew == 0 || s.globalBurst == 0 {
      forall l: Limiter, start: int, events: seq<Event> | SkewedTimes(start, RequestTimes(events), skew)
        ensures NANOS_PER_SECOND * PassedGlobal(s, l, events)
             <= OrderedWorth(s.globalRate, s.globalBurst, start, RequestTimes(events))
      {
        GlobalLayerIsOneBucket(s, l, events);
        HoldsWithoutGain(l.global, s.globalRate, s.globalBurst, skew, start, RequestTimes(events));
      }
    } else {
      var c, times := V4(0), DisorderProbe(s.globalRate, s.globalBurst);
      DisorderBreaksGlobalBound(s, c);
      TimesOfRequests(c, times);
      WiderSkew(0, times, 1, skew);
    }
  }

  // ---------------------------------------------------------------------
  // One client
  // ---------------------------------------------------------------------

  predicate WithinOrdered(s: Settings, c: IpAddr, created: int, history: seq<Event>, start: int, window: seq<Event>) {
    NANOS_PER_SECOND * AllowedIn(Log(s, Final(s, NewLimiter(s, created), history), window, c))
    <= OrderedWorth(s.rate, s.burst, start, EventTimes(window))
  }

  /** After any history, in every window with times out of order by at most `skew`, a client is allowed at
      most burst + rate * length requests. */
  ghost predicate ClientOrderedBound(s: Settings, skew: nat) {
    forall c, created, history, start, window :: SkewedTimes(start, EventTimes(window), skew) ==>
      WithinOrdered(s, c, created, history, start, window)
  }

  lemma {:induction false} EventTimesOfRequests(c: IpAddr, times: seq<int>)
    ensures EventTimes(RequestsAt(c, times)) == times
    decreases |times|
  {
    if times != [] {
      EventTimesOfRequests(c, times[1..]);
      assert RequestsAt(c, times)[1..] == RequestsAt(c, times[1..]);
      assert times == [times[0]] + times[1..];
    }
  }

  lemma FullStaysFull(burst: u32, rate: u32, earlier: int, now: int)
    ensures Take(FullBucket(burst, earlier), rate, burst, now) == Take(FullBucket(burst, now), rate, burst, now)
  {
  }

  /** A client on its own, all of whose requests pass the global layer, is one bucket: it is never
      evicted while it is the one to ask. */
  lemma {:induction false} ClientIsOneBucket(s: Settings, l: Limiter, c: IpAddr, b: Bucket, times: seq<int>)
    requires ValidSettings(s) && Alone(l, c) && AllPass(s, l.global, times)
    requires match Tracked(l, c) case Some(e) => b == e.bucket case None => b == FullBucket(s.burst, b.lastRefill)
    ensures AllowedIn(Log(s, l, RequestsAt(c, times), c)) == TakesIn(b, s.rate, s.burst, times)
    decreases |times|
  {
    if times != [] {
      var e, rest := Request(c, times[0]), RequestsAt(c, times[1..]);
      var d := Check(s, l, c, e.now).1;
      AloneIsAdmitted(s, l, c, e);
      ClientStep(s, l, e, c);
      if Tracked(l, c).None? {
        FullStaysFull(s.burst, s.rate, b.lastRefill, e.now);
        NewEntryTokens(s, e.now);
      }
      assert RequestsAt(c, times)[1..] == rest;
      ClientIsOneBucket(s, Next(s, l, e), c, Take(b, s.rate, s.burst, e.now).0, times[1..]);
      CountsOfFront([Verdict(e.now, d)], Log(s, Next(s, l, e), rest, c));
      assert [Verdict(e.now, d)][1..] == [];
    }
  }

  // The probe passes the global layer if that is off, or has room for all of it, or earns two tokens
  // while the client earns one.

  predicate GlobalAdmitsTeeth(s: Settings) {
    || s.globalRate == 0
    || s.globalBurst >= s.burst + 2 * (s.rate + 1)
    || (s.globalBurst >= s.burst && s.globalBurst >= 2 && s.globalRate >= 2 * s.rate)
  }

  lemma StoredPasses(s: Settings, b: Bucket, now: int)
    requires s.globalRate > 0 && MICRO <= b.micro <= Capacity(s.globalBurst)
    ensures var (b', passed) := CheckGlobal(s, b, now);
      passed && b.micro - MICRO <= b'.micro <= Capacity(s.globalBurst) && b'.lastRefill == now
  {
    assert b.micro <= Refilled(b, s.globalRate, s.globalBurst, now);
  }

  lemma ToothPasses(s: Settings, b: Bucket, p: int, g: nat, n: nat)
    requires n > 0
    requires var (up, first) := CheckGlobal(s, b, p + g);
      var (down, second) := CheckGlobal(s, up, p + g - 1);
      first && second && AllPass(s, down, Teeth(p + g - 1, g, n - 1))
    ensures AllPass(s, b, Teeth(p, g, n))
  {
    var up := CheckGlobal(s, b, p + g).0;
    TeethFirst(p, g, n);
    ConsPass(s, up, p + g - 1, Teeth(p + g - 1, g, n - 1));
    ConsPass(s, b, p + g, [p + g - 1] + Teeth(p + g - 1, g, n - 1));
  }

  lemma {:induction false} StoredTeethPass(s: Settings, b: Bucket, p: int, g: nat, n: nat)
    requires s.globalRate > 0 && 2 * n * MICRO <= b.micro <= Capacity(s.globalBurst)
    ensures AllPass(s, b, Teeth(p, g, n))
    decreases n
  {
    if n > 0 {
      var up := CheckGlobal(s, b, p + g).0;
      StoredPasses(s, b, p + g);
      StoredPasses(s, up, p + g - 1);
      StoredTeethPass(s, CheckGlobal(s, up, p + g - 1).0, p + g - 1, g, n - 1);
      ToothPasses(s, b, p, g, n);
    }
  }

  lemma EarnedPasses(s: Settings, b: Bucket, now: int, g: nat)
    requires s.globalBurst >= 2 && 2 * NANOS_PER_SECOND <= s.globalRate * g && g <= NANOS_PER_SECOND
    requires Elapsed(b.lastRefill, now) == g
    ensures var (b', passed) := CheckGlobal(s, b, now);
      passed && MICRO <= b'.micro <= Capacity(s.globalBurst) && b'.lastRefill == now
  {
    var product := g * s.globalRate;
    MulMonotone(s.globalRate, g, NANOS_PER_SECOND);
    assert product <= NANOS_PER_SECOND * (U32_RANGE - 1);
    assert Refill(g, s.globalRate) == product / 1000 >= 2 * MICRO;
  }

  lemma {:induction false} EarnedTeethPass(s: Settings, b: Bucket, p: int, g: nat, n: nat)
    requires s.globalBurst >= 2 && 2 * NANOS_PER_SECOND <= s.globalRate * g && g <= NANOS_PER_SECOND
    requires b.lastRefill == p
    ensures AllPass(s, b, Teeth(p, g, n))
    decreases n
  {
    if n > 0 {
      var up := CheckGlobal(s, b, p + g).0;
      EarnedPasses(s, b, p + g, g);
      StoredPasses(s, up, p + g - 1);
      EarnedTeethPass(s, CheckGlobal(s, up, p + g - 1).0, p + g - 1, g, n - 1);
      ToothPasses(s, b, p, g, n);
    }
  }

  lemma TeethPass(s: Settings)
    requires ValidSettings(s) && GlobalAdmitsTeeth(s)
    ensures AllPass(s, FullBucket(s.globalBurst, 0), DisorderProbe(s.rate, s.burst))
  {
    var g, n := TokenTime(s.rate), s.rate + 1;
    TokenTimeProduct(s.rate);
    if s.globalRate == 0 {
      OffPasses(s, FullBucket(s.globalBurst, 0), DisorderProbe(s.rate, s.burst));
    } else {
      var left := Bucket((s.globalBurst - s.burst) * MICRO, 0);
      if s.globalBurst >= s.burst + 2 * n {
        StoredTeethPass(s, left, 0, g, n);
      } else {
        TwiceTheRate(s.rate, s.globalRate, g);
        EarnedTeethPass(s, left, 0, g, n);
      }
      BurstPasses(s, Capacity(s.globalBurst), 0, s.burst, Teeth(0, g, n));
    }
  }

  lemma TwiceTheRate(rate: nat, globalRate: nat, g: nat)
    requires globalRate >= 2 * rate && rate * g >= NANOS_PER_SECOND
    ensures globalRate * g >= 2 * NANOS_PER_SECOND
  {
    assert globalRate * g >= 2 * rate * g;
  }

  lemma DisorderBreaksClientBound(s: Settings, c: IpAddr)
    requires ValidSettings(s) && GlobalAdmitsTeeth(s)
    ensures var window := RequestsAt(c, DisorderProbe(s.rate, s.burst));
      SkewedTimes(0, EventTimes(window), 1) && !WithinOrdered(s, c, 0, [], 0, window)
  {
    var times := DisorderProbe(s.rate, s.burst);
    DisorderBreaksBound(s.rate, s.burst);
    EventTimesOfRequests(c, times);
    TeethPass(s);
    ClientIsOneBucket(s, NewLimiter(s, 0), c, FullBucket(s.burst, 0), times);
  }

  lemma {:induction false} ChronologicalTimes(start: int, events: seq<Event>, end: int)
    requires Chronological(start, events, end)
    ensures SkewedTimes(start, EventTimes(events), 0)
    decreases |events|
  {
    if events != [] {
      ChronologicalTimes(events[0].now, events[1..], end);
      assert EventTimes(events)[1..] == EventTimes(events[1..]);
    }
  }

  lemma WorthOfOrdered(rate: u32, burst: u32, start: int, times: seq<int>)
    requires SkewedTimes(start, times, 0)
    ensures WindowWorth(rate, burst, start, times) == OrderedWorth(rate, burst, start, times)
  {
    UnskewedIsOrdered(start, times);
    OrderedNeverBackward(start, times);
  }

  lemma ExpiryBreaksClientBound(s: Settings, c: IpAddr)
    requires ValidSettings(s) && !TtlCoversBurst(s) && GlobalAdmitsProbes(s, LastUnfilled(s))
    ensures var window := EvictionProbe(s, c, LastUnfilled(s));
      SkewedTimes(0, EventTimes(window), 0) && !WithinOrdered(s, c, 0, [], 0, window)
  {
    var t := LastUnfilled(s);
    ShortTtlLeavesTime(s, 0);
    ShortTtlExceedsRate(s, c, t);
    ProbeIsChronological(s, c, t);
    ChronologicalTimes(0, EvictionProbe(s, c, t), t);
    WorthOfOrdered(s.rate, s.burst, 0, EventTimes(EvictionProbe(s, c, t)));
  }

  /** Every client keeps the plain bound in every window if and only if times are ordered and the ttl
      covers the burst. */
  lemma ClientOrderExactly(s: Settings, skew: nat)
    requires ValidSettings(s) && GlobalAdmitsTeeth(s) && GlobalAdmitsProbes(s, LastUnfilled(s))
    ensures ClientOrderedBound(s, skew) <==> skew == 0 && TtlCoversBurst(s)
  {
    var c := V4(0);
    if !TtlCoversBurst(s) {
      ExpiryBreaksClientBound(s, c);
      WiderSkew(0, EventTimes(EvictionProbe(s, c, LastUnfilled(s))), 0, skew);
    } else if skew > 0 {
      DisorderBreaksClientBound(s, c);
      WiderSkew(0, EventTimes(RequestsAt(c, DisorderProbe(s.rate, s.burst))), 1, skew);
    } else {
      forall c, created, history, start, window | SkewedTimes(start, EventTimes(window), 0)
        ensures WithinOrdered(s, c, created, history, start, window)
      {
        ClientRateBound(s, c, created, history, start, window);
        WorthOfOrdered(s.rate, s.burst, start, EventTimes(window));
      }
    }
  }
}
