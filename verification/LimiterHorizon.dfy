/** How long eviction and the 64-bit refill stay invisible in ordered runs: the exact condition. */
module LimiterHorizon {
  import opened Words
  import opened Addresses
  import opened TokenBuckets
  import opened RateLimiters
  import opened LimiterRuns
  import opened LimiterRates
  import opened LimiterEviction

  /** The first request of a burst: what is left, and what is allowed. */
  lemma HitSpends(s: Settings, l: Limiter, c: IpAddr, now: int, n: nat)
    requires ValidSettings(s) && Tracked(l, c).Some? && n > 0 && AllPass(s, l.global, Repeat(now, n))
    ensures var bucket, l1 := Tracked(l, c).value.bucket, Next(s, l, Request(c, now));
      && AllPass(s, l1.global, Repeat(now, n - 1))
      && Tracked(l1, c).Some? && Tracked(l1, c).value.bucket.lastRefill == now
      && Tracked(l1, c).value.bucket.micro
         + (AllowedIn(Log(s, l, BurstOf(c, now, n), c)) - AllowedIn(Log(s, l1, BurstOf(c, now, n - 1), c))) * MICRO
         <= bucket.micro + Refill(Elapsed(bucket.lastRefill, now), s.rate)
  {
    ConsPass(s, l.global, now, Repeat(now, n - 1));
    var l1, d := Next(s, l, Request(c, now)), Check(s, l, c, now).1;
    assert BurstOf(c, now, n)[1..] == BurstOf(c, now, n - 1);
    CountsOfFront([Verdict(now, d)], Log(s, l1, BurstOf(c, now, n - 1), c));
    assert [Verdict(now, d)][1..] == [];
  }

  /** At one time, a client is allowed no more than the tokens it has. */
  lemma {:induction false} AllowedAtOnce(s: Settings, l: Limiter, c: IpAddr, now: int, n: nat)
    requires ValidSettings(s) && Tracked(l, c).Some? && AllPass(s, l.global, Repeat(now, n))
    requires Tracked(l, c).value.bucket.lastRefill == now
    ensures AllowedIn(Log(s, l, BurstOf(c, now, n), c)) * MICRO <= Tracked(l, c).value.bucket.micro
    decreases n
  {
    if n > 0 {
      var l1 := Next(s, l, Request(c, now));
      HitSpends(s, l, c, now, n);
      AllowedAtOnce(s, l1, c, now, n - 1);
      NothingInNoTime(now, s.rate);
      SpentAtOnce(AllowedIn(Log(s, l, BurstOf(c, now, n), c)), AllowedIn(Log(s, l1, BurstOf(c, now, n - 1), c)),
                  Tracked(l1, c).value.bucket.micro, Tracked(l, c).value.bucket.micro);
    }
  }

  lemma NothingInNoTime(now: int, rate: u32)
    ensures Refill(Elapsed(now, now), rate) == 0
  {
    assert Elapsed(now, now) * rate == 0;
  }

  lemma SpentAtOnce(all: nat, rest: nat, left: nat, micro: nat)
    requires rest * MICRO <= left && left + (all - rest) * MICRO <= micro
    ensures all * MICRO <= micro
  {
  }

  /** The ideal limiter serves at one time as many requests as it has tokens for. */
  lemma {:induction false} IdealServesAtOnce(s: Settings, client: Option<Ideal>, now: int, n: nat,
                                             rest: seq<int>) returns (after: Option<Ideal>)
    requires IdealTokens(s, client, now) >= n * MICRO
    ensures AllowedIn(IdealLog(s, client, Repeat(now, n) + rest)) == n + AllowedIn(IdealLog(s, after, rest))
    ensures n == 0 ==> after == client
    ensures n > 0 ==> after.Some? && after.value.last == now
    decreases n
  {
    var times := Repeat(now, n) + rest;
    if n == 0 {
      assert times == rest;
      after := client;
    } else {
      var (client', d) := IdealStep(s, client, now);
      assert Elapsed(now, now) * s.rate / 1000 == 0;
      assert times[1..] == Repeat(now, n - 1) + rest;
      after := IdealServesAtOnce(s, Some(client'), now, n - 1, rest);
      if n == 1 {
        assert Repeat(now, 0) + rest == rest;
      }
      CountsOfFront([Verdict(now, d)], IdealLog(s, Some(client'), times[1..]));
      assert [Verdict(now, d)][1..] == [];
    }
  }

  /** The whole burst, silence, the whole burst again; nobody is evicted. */
  function SilenceProbe(s: Settings, c: IpAddr, silence: nat): seq<Event> {
    BurstOf(c, 0, s.burst) + BurstOf(c, silence, s.burst)
  }

  lemma {:induction false} BurstIsChronological(c: IpAddr, start: int, now: int, n: nat, rest: seq<Event>, end: int)
    requires start <= now && Chronological(now, rest, end)
    ensures Chronological(start, BurstOf(c, now, n) + rest, end)
    decreases n
  {
    if n > 0 {
      BurstIsChronological(c, now, now, n - 1, rest, end);
      assert (BurstOf(c, now, n) + rest)[1..] == BurstOf(c, now, n - 1) + rest;
    } else {
      assert BurstOf(c, now, n) + rest == rest;
      if rest != [] {
        assert start <= rest[0].now;
      }
    }
  }

  lemma SilenceProbeTimes(s: Settings, c: IpAddr, silence: nat)
    requires ValidSettings(s) && GlobalAdmitsProbes(s, silence)
    ensures AdmissionTimes(Log(s, NewLimiter(s, 0), SilenceProbe(s, c, silence), c))
         == Repeat(0, s.burst) + Repeat(silence, s.burst)
    ensures Chronological(0, SilenceProbe(s, c, silence), silence)
  {
    var second := BurstOf(c, silence, s.burst);
    TimesOfBurst(c, silence, s.burst, []);
    BurstIsOnlyFrom(c, silence, s.burst, []);
    assert second + [] == second && Repeat(silence, s.burst) + [] == Repeat(silence, s.burst);
    TimesOfBurst(c, 0, s.burst, second);
    BurstIsOnlyFrom(c, 0, s.burst, second);
    ProbesPass(s, silence);
    AllAdmitted(s, NewLimiter(s, 0), c, SilenceProbe(s, c, silence));
    BurstIsChronological(c, 0, silence, s.burst, [], silence);
    BurstIsChronological(c, 0, 0, s.burst, second, silence);
  }

  lemma RealAfterSilence(s: Settings, c: IpAddr, silence: nat)
    requires ValidSettings(s) && GlobalAdmitsProbes(s, silence) && LosesRefill(silence, s.rate, s.burst)
    ensures AllowedIn(Log(s, NewLimiter(s, 0), SilenceProbe(s, c, silence), c)) < 2 * s.burst
  {
    var l0 := NewLimiter(s, 0);
    var drained := Final(s, l0, BurstOf(c, 0, s.burst));
    ProbesPass(s, silence);
    BurstAllAllowed(s, l0, c, s.burst, 0, Repeat(silence, s.burst), BurstOf(c, silence, s.burst));
    SecondBurst(s, drained, c, silence);
  }

  lemma SecondBurst(s: Settings, drained: Limiter, c: IpAddr, silence: nat)
    requires ValidSettings(s) && AllPass(s, drained.global, Repeat(silence, s.burst))
    requires OnlyClient(s, drained, c, 0, 0) && LosesRefill(silence, s.rate, s.burst)
    ensures AllowedIn(Log(s, drained, BurstOf(c, silence, s.burst), c)) < s.burst
  {
    var l1 := Next(s, drained, Request(c, silence));
    HitSpends(s, drained, c, silence, s.burst);
    AllowedAtOnce(s, l1, c, silence, s.burst - 1);
    assert Tracked(drained, c).value.bucket == Bucket(0, 0) && Elapsed(0, silence) == silence;
    FewerThanBurst(AllowedIn(Log(s, drained, BurstOf(c, silence, s.burst), c)),
                   AllowedIn(Log(s, l1, BurstOf(c, silence, s.burst - 1), c)),
                   Tracked(l1, c).value.bucket.micro, Refill(silence, s.rate), s.burst);
  }

  lemma FewerThanBurst(all: nat, rest: nat, micro: nat, refill: nat, burst: nat)
    requires rest * MICRO <= micro && micro + (all - rest) * MICRO <= refill < burst * MICRO
    ensures all < burst
  {
  }

  lemma IdealAfterSilence(s: Settings, silence: nat)
    requires silence * s.rate / 1000 >= Capacity(s.burst)
    ensures AllowedIn(IdealLog(s, None, Repeat(0, s.burst) + Repeat(silence, s.burst))) == 2 * s.burst
  {
    var second := Repeat(silence, s.burst);
    var mid := IdealServesAtOnce(s, None, 0, s.burst, second);
    var _ := IdealServesAtOnce(s, mid, silence, s.burst, []);
    assert second + [] == second;
  }

  /** Every silence whose refill is cut off below the burst shows. */
  lemma LostRefillIsObservable(s: Settings, c: IpAddr, silence: nat)
    requires ValidSettings(s) && GlobalAdmitsProbes(s, silence) && LosesRefill(silence, s.rate, s.burst)
    ensures Chronological(0, SilenceProbe(s, c, silence), silence)
    ensures !EvictionUnseen(s, 0, SilenceProbe(s, c, silence), c)
  {
    SilenceProbeTimes(s, c, silence);
    RealAfterSilence(s, c, silence);
    IdealAfterSilence(s, silence);
  }

  ghost predicate UnseenWithin(s: Settings, horizon: nat) {
    forall created, events, end, c ::
      Chronological(created, events, end) && end - created <= horizon ==> EvictionUnseen(s, created, events, c)
  }

  /** No silence this long loses its refill. */
  ghost predicate NothingLostWithin(s: Settings, horizon: nat) {
    forall d :: 0 <= d <= horizon ==> !LosesRefill(d, s.rate, s.burst)
  }

  lemma {:induction false} ChronologicalIsUnskewed(start: int, events: seq<Event>, end: int)
    requires Chronological(start, events, end)
    ensures Skewed(start, events, 0) && (forall e :: e in events ==> start <= e.now <= end)
    decreases |events|
  {
    if events != [] {
      ChronologicalIsUnskewed(events[0].now, events[1..], end);
      EventsEndBy(events[0].now, events[1..], end);
      assert forall e :: e in events ==> e == events[0] || e in events[1..];
    }
  }

  /** In a run no longer than the horizon, no refill spans more than the horizon. */
  lemma {:induction false} RefillsFitWithin(s: Settings, l: Limiter, c: IpAddr, created: int, start: int,
                                            events: seq<Event>, end: int, horizon: nat)
    requires s.enabled && Chronological(start, events, end) && created <= start && end - created <= horizon
    requires NothingLostWithin(s, horizon) && SeenWhenRefilled(Tracked(l, c))
    requires Tracked(l, c).Some? ==> created <= Tracked(l, c).value.lastSeen
    ensures RefillsFit(s, l, events, c)
    decreases |events|
  {
    if events != [] {
      ClientStep(s, l, events[0], c);
      EventsEndBy(events[0].now, events[1..], end);
      RefillsFitWithin(s, Next(s, l, events[0]), c, created, events[0].now, events[1..], end, horizon);
    }
  }

  lemma UnseenInShortRun(s: Settings, created: int, events: seq<Event>, end: int, c: IpAddr, horizon: nat)
    requires ValidSettings(s) && (TtlCoversBurst(s) || horizon < s.ttl) && NothingLostWithin(s, horizon)
    requires Chronological(created, events, end) && end - created <= horizon
    ensures EvictionUnseen(s, created, events, c)
  {
    var l := NewLimiter(s, created);
    ChronologicalIsUnskewed(created, events, end);
    RefillsFitWithin(s, l, c, created, created, events, end, horizon);
    LogIsIdeal(s, l, c, None, created, created, events, 0);
  }

  /** The global layer lets the probes of this length through. */
  ghost predicate GlobalAdmitsProbesWithin(s: Settings, horizon: nat)
    requires ValidSettings(s)
  {
    && GlobalAdmitsProbes(s, Min(LastUnfilled(s), horizon))
    && forall d: nat :: d <= horizon && LosesRefill(d, s.rate, s.burst) ==> GlobalAdmitsProbes(s, d)
  }

  /** Eviction and truncation are invisible in all ordered runs of up to the given length if and only if
      no silence in them can lose its refill, and nobody can expire in them unless the ttl covers the
      burst. */
  lemma HorizonConditionIsExact(s: Settings, horizon: nat)
    requires ValidSettings(s) && GlobalAdmitsProbesWithin(s, horizon)
    ensures UnseenWithin(s, horizon) <==>
      NothingLostWithin(s, horizon) && (TtlCoversBurst(s) || horizon < s.ttl)
  {
    if !NothingLostWithin(s, horizon) {
      var silence: nat :| silence <= horizon && LosesRefill(silence, s.rate, s.burst);
      LostRefillIsObservable(s, V4(0), silence);
      assert silence - 0 <= horizon;
    } else if !TtlCoversBurst(s) && s.ttl <= horizon {
      ExpiryIsObservable(s, V4(0), horizon);
    } else {
      forall created, events, end, c | Chronological(created, events, end) && end - created <= horizon
        ensures EvictionUnseen(s, created, events, c)
      {
        UnseenInShortRun(s, created, events, end, c, horizon);
      }
    }
  }

  lemma ExpiryIsObservable(s: Settings, c: IpAddr, horizon: nat)
    requires ValidSettings(s) && !TtlCoversBurst(s) && s.ttl <= horizon
    requires GlobalAdmitsProbes(s, Min(LastUnfilled(s), horizon))
    ensures !UnseenWithin(s, horizon)
  {
    var t := Min(LastUnfilled(s), horizon);
    ShortTtlLeavesTime(s, 0);
    LastUnfilledExactly(s, t);
    ShortTtlIsObservable(s, c, t, 0);
    ProbeIsChronological(s, c, t);
    assert t - 0 <= horizon;
  }

  lemma ProbeIsChronological(s: Settings, c: IpAddr, t: nat)
    requires s.ttl <= t
    ensures Chronological(0, EvictionProbe(s, c, t), t)
  {
    var second := BurstOf(c, t, s.burst);
    var rest := [Housekeeping(s.ttl)] + second;
    BurstIsChronological(c, s.ttl, t, s.burst, [], t);
    assert second + [] == second && rest[1..] == second;
    BurstIsChronological(c, 0, 0, s.burst, rest, t);
  }

  // ---------------------------------------------------------------------
  // The condition on the refill in closed form
  // ---------------------------------------------------------------------

  /** The shortest silence whose refill does not fit 64 bits, rounded up. */
  function FirstTruncated(rate: u32): nat
    requires rate >= 1
  {
    (U64_RANGE * 1000 + rate - 1) / rate
  }

  lemma FirstTruncatedProduct(rate: u32)
    requires rate >= 1
    ensures U64_RANGE * 1000 <= FirstTruncated(rate) * rate < U64_RANGE * 1000 + rate
  {
    var x: nat := U64_RANGE * 1000 + rate - 1;
    assert x == x / rate * rate + x % rate;
  }

  lemma FirstTruncatedLosesRefill(s: Settings)
    requires ValidSettings(s) && s.rate < s.burst * NANOS_PER_SECOND
    ensures LosesRefill(FirstTruncated(s.rate), s.rate, s.burst)
  {
    FirstTruncatedProduct(s.rate);
    var product := FirstTruncated(s.rate) * s.rate;
    var over := product / 1000 - U64_RANGE;
    assert 0 <= over <= s.rate / 1000;
    assert product / 1000 % U64_RANGE == over;
  }

  lemma TruncatedHorizonReaches(rate: u32, horizon: nat)
    requires rate >= 1 && !Untruncated(horizon, rate)
    ensures FirstTruncated(rate) <= horizon
  {
    FirstTruncatedProduct(rate);
    var first := FirstTruncated(rate);
    assert rate * (first - 1) == rate * first - rate;
    if first > horizon {
      MulMonotone(rate, horizon, first - 1);
    }
  }

  lemma ShorterLosesNothing(s: Settings, d: nat, horizon: nat)
    requires d <= horizon && Untruncated(horizon, s.rate)
    ensures !LosesRefill(d, s.rate, s.burst)
  {
    MulMonotone(s.rate, d, horizon);
    TruncationExactly(d, s.rate);
  }

  /** Nothing is lost as long as the refill of the longest silence fits 64 bits, 2^64 * 1000 / rate
      nanoseconds; and no longer, unless the rate refills a whole burst within a nanosecond. */
  lemma NothingLostExactly(s: Settings, horizon: nat)
    requires ValidSettings(s)
    ensures Untruncated(horizon, s.rate) ==> NothingLostWithin(s, horizon)
    ensures s.rate < s.burst * NANOS_PER_SECOND && NothingLostWithin(s, horizon) ==> Untruncated(horizon, s.rate)
  {
    if Untruncated(horizon, s.rate) {
      forall d | 0 <= d <= horizon
        ensures !LosesRefill(d, s.rate, s.burst)
      {
        ShorterLosesNothing(s, d, horizon);
      }
    } else if s.rate < s.burst * NANOS_PER_SECOND {
      FirstTruncatedLosesRefill(s);
      TruncatedHorizonReaches(s.rate, horizon);
    }
  }

  /** For such a rate what is left of the first refill cut off can still fill the bucket. */
  lemma FastRatesLoseLater(s: Settings)
    requires s.rate == 4_000_000_000 && s.burst == 1
    ensures !Untruncated(FirstTruncated(s.rate), s.rate) && NothingLostWithin(s, FirstTruncated(s.rate))
  {
    var first := FirstTruncated(s.rate);
    assert first == 4_611_686_018_428;
    forall d | 0 <= d <= first
      ensures !LosesRefill(d, s.rate, s.burst)
    {
      if d < first {
        ShorterLosesNothing(s, d, first - 1);
      }
    }
  }
}
