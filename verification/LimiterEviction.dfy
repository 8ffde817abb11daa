/** Eviction saves memory and should not be seen by anyone: the limiter next to an ideal one that
    keeps every client for ever, in unbounded integers. */
module LimiterEviction {
  import opened Words
  import opened Addresses
  import opened TokenBuckets
  import opened RateLimiters
  import opened LimiterRuns
  import opened LimiterRates

  // ---------------------------------------------------------------------
  // The ideal limiter, seen by one client
  // ---------------------------------------------------------------------

  datatype Ideal = Ideal(micro: nat, last: int, limited: nat)

  function IdealTokens(s: Settings, client: Option<Ideal>, now: int): nat {
    if client.None? then s.burst * MICRO
    else Min(client.value.micro + Elapsed(client.value.last, now) * s.rate / 1000, s.burst * MICRO)
  }

  function IdealStep(s: Settings, client: Option<Ideal>, now: int): (Ideal, Decision) {
    var micro := IdealTokens(s, client, now);
    var limited := if client.None? then 0 else client.value.limited;
    if micro >= MICRO then (Ideal(micro - MICRO, now, 0), Allowed)
    else (Ideal(micro, now, limited + 1), LimitedPerClient(limited % 8 == 0))
  }

  /** What the ideal limiter answers to requests at these times: it depends on nothing else. */
  function IdealLog(s: Settings, client: Option<Ideal>, times: seq<int>): seq<Verdict>
    decreases |times|
  {
    if times == [] then []
    else
      var (client', decision) := IdealStep(s, client, times[0]);
      [Verdict(times[0], decision)] + IdealLog(s, Some(client'), times[1..])
  }

  function AdmissionTimes(log: seq<Verdict>): seq<int>
    decreases |log|
  {
    if log == [] then [] else [log[0].at] + AdmissionTimes(log[1..])
  }

  // ---------------------------------------------------------------------
  // Runs
  // ---------------------------------------------------------------------

  /** No time lies more than `skew` before the latest one so far. Times are read before the limiter is
      locked, so a server delivers such runs; a skew of zero means that times never decrease. */
  predicate Skewed(peak: int, events: seq<Event>, skew: nat)
    decreases |events|
  {
    events == [] || (peak - skew <= events[0].now && Skewed(Max(peak, events[0].now), events[1..], skew))
  }

  /** No refill that the limiter makes for `c` is lost to the cast to 64 bits. */
  predicate RefillsFit(s: Settings, l: Limiter, events: seq<Event>, c: IpAddr)
    decreases |events|
  {
    events == [] ||
    (&& (Admits(s, l, events[0], c) && Tracked(l, c).Some? ==>
           !LosesRefill(Elapsed(Tracked(l, c).value.bucket.lastRefill, events[0].now), s.rate, s.burst))
     && RefillsFit(s, Next(s, l, events[0]), events[1..], c))
  }

  /** An idle client is evicted only once its bucket would be full again anyway, even at a time that
      is `skew` early. */
  predicate TtlCoversSkew(s: Settings, skew: nat) {
    (s.ttl - skew) * s.rate >= s.burst * NANOS_PER_SECOND
  }

  // ---------------------------------------------------------------------
  // Simulation
  // ---------------------------------------------------------------------

  /** The tracked entry is the ideal one, or it was dropped after `ttl` of silence. */
  predicate Simulates(s: Settings, entry: Option<Entry>, ideal: Option<Ideal>, peak: int) {
    match (entry, ideal)
    case (Some(e), Some(i)) =>
      e.bucket == Bucket(e.bucket.micro, e.lastSeen) && e.bucket.micro == i.micro && e.lastSeen == i.last
      && e.limitedCount == i.limited % U32_RANGE
    case (None, None) => true
    case (None, Some(i)) => i.last + s.ttl <= peak
    case (Some(_), None) => false
  }

  lemma IdealTokensOfEvicted(s: Settings, i: Ideal, now: int, skew: nat)
    requires TtlCoversSkew(s, skew) && i.last + s.ttl - skew <= now
    ensures IdealTokens(s, Some(i), now) == s.burst * MICRO
  {
    var elapsed := Elapsed(i.last, now);
    MulMonotone(s.rate, s.ttl - skew, elapsed);
    assert elapsed * s.rate >= 1000 * (s.burst * MICRO);
    assert elapsed * s.rate / 1000 >= s.burst * MICRO;
  }

  /** A fresh bucket always has a token for the first request. */
  lemma NewEntryTokens(s: Settings, now: int)
    requires s.burst >= 1
    ensures Take(FullBucket(s.burst, now), s.rate, s.burst, now).1
    ensures NewEntry(s, now) == Entry(Bucket((s.burst - 1) * MICRO, now), now, 0)
  {
    TakeAtOnce(s.burst, s.rate, s.burst, now);
  }

  lemma StepSimulates(s: Settings, entry: Option<Entry>, ideal: Option<Ideal>, peak: int, now: int, skew: nat)
    requires ValidSettings(s) && Simulates(s, entry, ideal, peak) && peak - skew <= now
    requires entry.None? && ideal.Some? ==> TtlCoversSkew(s, skew)
    requires entry.Some? ==> !LosesRefill(Elapsed(entry.value.bucket.lastRefill, now), s.rate, s.burst)
    ensures var ((e, d), (i, d')) := (AdmittedStep(s, entry, now), IdealStep(s, ideal, now));
      d == d' && Simulates(s, Some(e), Some(i), peak) && i.last == now
  {
    match (entry, ideal)
    case (Some(e), Some(i)) =>
      RefilledExactly(e.bucket, s.rate, s.burst, now);
      HitCadence(s, e, now, i.limited);
    case (None, None) =>
      NewEntryTokens(s, now);
    case (None, Some(i)) =>
      NewEntryTokens(s, now);
      IdealTokensOfEvicted(s, i, now, skew);
  }

  /** Too little time passes for `ttl` of silence. */
  predicate NeverExpires(s: Settings, entry: Option<Entry>, ideal: Option<Ideal>, created: int, events: seq<Event>) {
    && (forall e :: e in events ==> created <= e.now < created + s.ttl)
    && (if entry.None? then ideal.None? else ideal.Some? && created <= ideal.value.last)
  }

  lemma {:induction false} LogIsIdeal(s: Settings, l: Limiter, c: IpAddr, ideal: Option<Ideal>, created: int,
                                      peak: int, events: seq<Event>, skew: nat)
    requires ValidSettings(s) && (TtlCoversSkew(s, skew) || NeverExpires(s, Tracked(l, c), ideal, created, events))
    requires Skewed(peak, events, skew) && RefillsFit(s, l, events, c)
    requires Simulates(s, Tracked(l, c), ideal, peak)
    ensures Log(s, l, events, c) == IdealLog(s, ideal, AdmissionTimes(Log(s, l, events, c)))
    decreases |events|
  {
    if events != [] {
      var e := events[0];
      var l', peak' := Next(s, l, e), Max(peak, e.now);
      var rest := Log(s, l', events[1..], c);
      ClientStep(s, l, e, c);
      assert e in events;
      if Admits(s, l, e, c) {
        StepSimulates(s, Tracked(l, c), ideal, peak, e.now, skew);
        var (i, d) := IdealStep(s, ideal, e.now);
        LogIsIdeal(s, l', c, Some(i), created, peak', events[1..], skew);
        ConsIdealLog(s, ideal, e.now, AdmissionTimes(rest));
        assert ([Verdict(e.now, d)] + rest)[1..] == rest;
      } else {
        LogIsIdeal(s, l', c, ideal, created, peak', events[1..], skew);
        assert [] + rest == rest;
      }
    }
  }

  lemma ConsIdealLog(s: Settings, ideal: Option<Ideal>, now: int, times: seq<int>)
    ensures IdealLog(s, ideal, [now] + times)
         == [Verdict(now, IdealStep(s, ideal, now).1)] + IdealLog(s, Some(IdealStep(s, ideal, now).0), times)
  {
  }

  /** In this run, eviction makes no difference to `c`. */
  predicate EvictionUnseen(s: Settings, created: int, events: seq<Event>, c: IpAddr) {
    var log := Log(s, NewLimiter(s, created), events, c);
    log == IdealLog(s, None, AdmissionTimes(log))
  }

  /** For every interleaving of requests from any clients with sweeps, however long, whose times are out
      of order by no more than the ttl leaves room for, the verdicts a client gets, Kiss-o'-Death flags
      included, are those of the ideal limiter. They depend on the times of its own admitted requests
      and on nothing any other client does. */
  lemma EvictionIsUnobservable(s: Settings, created: int, events: seq<Event>, skew: nat, c: IpAddr)
    requires ValidSettings(s) && TtlCoversSkew(s, skew)
    requires Skewed(created, events, skew) && RefillsFit(s, NewLimiter(s, created), events, c)
    ensures EvictionUnseen(s, created, events, c)
  {
    LogIsIdeal(s, NewLimiter(s, created), c, None, created, created, events, skew);
  }

  // ---------------------------------------------------------------------
  // One client on its own
  // ---------------------------------------------------------------------

  /** n requests of `c` at the same time. */
  function BurstOf(c: IpAddr, now: int, n: nat): seq<Event> {
    if n == 0 then [] else [Request(c, now)] + BurstOf(c, now, n - 1)
  }

  /** Requests at these times all pass the global layer. */
  predicate AllPass(s: Settings, global: Bucket, times: seq<int>)
    decreases |times|
  {
    times == [] ||
    (CheckGlobal(s, global, times[0]).1 && AllPass(s, CheckGlobal(s, global, times[0]).0, times[1..]))
  }

  lemma ConsPass(s: Settings, global: Bucket, now: int, times: seq<int>)
    ensures AllPass(s, global, [now] + times)
       <==> CheckGlobal(s, global, now).1 && AllPass(s, CheckGlobal(s, global, now).0, times)
  {
    assert ([now] + times)[1..] == times;
  }

  /** The limiter tracks nobody else. */
  predicate Alone(l: Limiter, c: IpAddr) {
    l.clients.Keys <= {c}
  }

  lemma AloneIsAdmitted(s: Settings, l: Limiter, c: IpAddr, e: Event)
    requires ValidSettings(s) && Alone(l, c)
    requires e.Request? ==> e.source == c && CheckGlobal(s, l.global, e.now).1
    ensures Alone(Next(s, l, e), c) && (Admits(s, l, e, c) <==> e.Request?)
    ensures Next(s, l, e).global == if e.Request? then CheckGlobal(s, l.global, e.now).0 else l.global
  {
    if e.Request? && c !in l.clients {
      assert l.clients.Keys == {};
    }
  }

  predicate OnlyFrom(c: IpAddr, events: seq<Event>) {
    forall e :: e in events && e.Request? ==> e.source == c
  }

  /** A client on its own has all its requests admitted. */
  lemma {:induction false} AllAdmitted(s: Settings, l: Limiter, c: IpAddr, events: seq<Event>)
    requires ValidSettings(s) && Alone(l, c) && OnlyFrom(c, events) && AllPass(s, l.global, RequestTimes(events))
    ensures AdmissionTimes(Log(s, l, events, c)) == RequestTimes(events)
    decreases |events|
  {
    if events != [] {
      var e := events[0];
      assert e in events;
      if e.Request? {
        ConsPass(s, l.global, e.now, RequestTimes(events[1..]));
      } else {
        assert RequestTimes(events) == RequestTimes(events[1..]);
      }
      AloneIsAdmitted(s, l, c, e);
      AllAdmitted(s, Next(s, l, e), c, events[1..]);
      var rest := Log(s, Next(s, l, e), events[1..], c);
      if e.Request? {
        OneMoreAdmission(Verdict(e.now, Check(s, l, c, e.now).1), rest);
      } else {
        assert [] + rest == rest;
      }
    }
  }

  lemma OneMoreAdmission(v: Verdict, log: seq<Verdict>)
    ensures AdmissionTimes([v] + log) == [v.at] + AdmissionTimes(log)
  {
    assert ([v] + log)[1..] == log;
  }

  lemma ConsTimes(e: Event, rest: seq<Event>)
    ensures EventTimes([e] + rest) == [e.now] + EventTimes(rest)
    ensures RequestTimes([e] + rest) == (if e.Request? then [e.now] else []) + RequestTimes(rest)
  {
    assert ([e] + rest)[1..] == rest;
  }

  lemma {:induction false} BurstIsOnlyFrom(c: IpAddr, now: int, n: nat, rest: seq<Event>)
    requires OnlyFrom(c, rest)
    ensures OnlyFrom(c, BurstOf(c, now, n) + rest)
    decreases n
  {
    if n == 0 {
      assert BurstOf(c, now, n) + rest == rest;
    } else {
      BurstIsOnlyFrom(c, now, n - 1, rest);
      assert BurstOf(c, now, n) + rest == [Request(c, now)] + (BurstOf(c, now, n - 1) + rest);
    }
  }

  lemma {:induction false} TimesOfBurst(c: IpAddr, now: int, n: nat, rest: seq<Event>)
    ensures RequestTimes(BurstOf(c, now, n) + rest) == Repeat(now, n) + RequestTimes(rest)
    ensures EventTimes(BurstOf(c, now, n) + rest) == Repeat(now, n) + EventTimes(rest)
    decreases n
  {
    if n == 0 {
      assert BurstOf(c, now, n) + rest == rest;
    } else {
      var fewer := BurstOf(c, now, n - 1) + rest;
      TimesOfBurst(c, now, n - 1, rest);
      BurstFirst(c, now, n, rest);
      ConsTimes(Request(c, now), fewer);
      RepeatFirst(now, n, RequestTimes(rest));
      RepeatFirst(now, n, EventTimes(rest));
    }
  }

  lemma BurstFirst(c: IpAddr, now: int, n: nat, rest: seq<Event>)
    requires n > 0
    ensures BurstOf(c, now, n) + rest == [Request(c, now)] + (BurstOf(c, now, n - 1) + rest)
  {
  }

  /** The only client, with this many whole tokens at `now`. */
  predicate OnlyClient(s: Settings, l: Limiter, c: IpAddr, tokens: nat, now: int) {
    tokens <= s.burst && l.clients == map[c := Entry(Bucket(tokens * MICRO, now), now, 0)]
  }

  lemma OneMoreToken(s: Settings, l: Limiter, c: IpAddr, tokens: nat, now: int)
    requires ValidSettings(s) && tokens > 0 && CheckGlobal(s, l.global, now).1
    requires OnlyClient(s, l, c, tokens, now) || (l.clients == map[] && tokens == s.burst)
    ensures var (l', d) := Check(s, l, c, now);
      d == Allowed && OnlyClient(s, l', c, tokens - 1, now) && l'.global == CheckGlobal(s, l.global, now).0
    ensures Tracked(l, c).Some? ==> !LosesRefill(Elapsed(Tracked(l, c).value.bucket.lastRefill, now), s.rate, s.burst)
  {
    TakeAtOnce(tokens, s.rate, s.burst, now);
    assert Elapsed(now, now) * s.rate == 0;
  }

  /** What one more request in front does to a run. */
  lemma FirstRequest(s: Settings, l: Limiter, c: IpAddr, now: int, rest: seq<Event>)
    requires Check(s, l, c, now).1 == Allowed
    requires Tracked(l, c).Some? ==> !LosesRefill(Elapsed(Tracked(l, c).value.bucket.lastRefill, now), s.rate, s.burst)
    ensures var events, l1 := [Request(c, now)] + rest, Check(s, l, c, now).0;
      && Final(s, l, events) == Final(s, l1, rest)
      && AllowedIn(Log(s, l, events, c)) == 1 + AllowedIn(Log(s, l1, rest, c))
      && (RefillsFit(s, l1, rest, c) ==> RefillsFit(s, l, events, c))
  {
    assert ([Request(c, now)] + rest)[1..] == rest;
    CountsOfFront([Verdict(now, Allowed)], Log(s, Check(s, l, c, now).0, rest, c));
    assert AllowedIn([Verdict(now, Allowed)]) == 1;
  }

  /** A whole burst at one time is allowed, and its refills of nothing fit. */
  lemma {:induction false} BurstAllAllowed(s: Settings, l: Limiter, c: IpAddr, tokens: nat, now: int,
                                           after: seq<int>, rest: seq<Event>)
    requires ValidSettings(s) && AllPass(s, l.global, Repeat(now, tokens) + after)
    requires OnlyClient(s, l, c, tokens, now) || (l.clients == map[] && tokens == s.burst)
    ensures var l' := Final(s, l, BurstOf(c, now, tokens));
      && OnlyClient(s, l', c, 0, now) && AllPass(s, l'.global, after)
      && AllowedIn(Log(s, l, BurstOf(c, now, tokens) + rest, c)) == tokens + AllowedIn(Log(s, l', rest, c))
      && (RefillsFit(s, l', rest, c) ==> RefillsFit(s, l, BurstOf(c, now, tokens) + rest, c))
    decreases tokens
  {
    if tokens == 0 {
      assert BurstOf(c, now, tokens) + rest == rest && Repeat(now, tokens) + after == after;
    } else {
      RepeatFirst(now, tokens, after);
      ConsPass(s, l.global, now, Repeat(now, tokens - 1) + after);
      OneMoreToken(s, l, c, tokens, now);
      BurstAllAllowed(s, Check(s, l, c, now).0, c, tokens - 1, now, after, rest);
      BurstFirst(c, now, tokens, rest);
      FirstRequest(s, l, c, now, BurstOf(c, now, tokens - 1) + rest);
      FirstRequest(s, l, c, now, BurstOf(c, now, tokens - 1));
    }
  }

  lemma {:induction false} BurstIsSkewed(peak: int, c: IpAddr, now: int, n: nat, rest: seq<Event>, skew: nat)
    requires peak - skew <= now && Skewed(peak, rest, skew) && Skewed(Max(peak, now), rest, skew)
    ensures Skewed(peak, BurstOf(c, now, n) + rest, skew)
    decreases n
  {
    var events := BurstOf(c, now, n) + rest;
    if n == 0 {
      assert events == rest;
    } else {
      BurstIsSkewed(Max(peak, now), c, now, n - 1, rest, skew);
      assert events[1..] == BurstOf(c, now, n - 1) + rest;
    }
  }

  /** The ideal limiter keeps to its rate, whatever the order of the times. */
  lemma {:induction false} IdealRateBound(s: Settings, client: Ideal, times: seq<int>)
    ensures NANOS_PER_SECOND * AllowedIn(IdealLog(s, Some(client), times))
         <= 1000 * client.micro + ForwardCredit(s.rate, client.last, times)
    decreases |times|
  {
    if times != [] {
      var (client', d) := IdealStep(s, Some(client), times[0]);
      IdealRateBound(s, client', times[1..]);
      CountsOfFront([Verdict(times[0], d)], IdealLog(s, Some(client'), times[1..]));
      assert [Verdict(times[0], d)][1..] == [];
    }
  }

  /** A client not seen yet is as good as one with a full bucket. */
  lemma LateStartIsFull(s: Settings, times: seq<int>)
    ensures IdealLog(s, None, times) == IdealLog(s, Some(Ideal(s.burst * MICRO, 0, 0)), times)
  {
    if times != [] {
      assert Elapsed(0, times[0]) * s.rate >= 0;
    }
  }

  lemma IdealWithinWorth(s: Settings, times: seq<int>)
    ensures NANOS_PER_SECOND * AllowedIn(IdealLog(s, None, times)) <= WindowWorth(s.rate, s.burst, 0, times)
  {
    LateStartIsFull(s, times);
    IdealRateBound(s, Ideal(s.burst * MICRO, 0, 0), times);
    CreditIsRateTimesForwardTime(s.rate, 0, times);
    ForwardIsNetPlusBackward(0, times);
  }

  // ---------------------------------------------------------------------
  // Two bursts through the global layer
  // ---------------------------------------------------------------------

  /** A whole burst of one client at 0 and another one at t both pass the global layer: it is off, or
      what it has left after the first and earns until t covers the second. */
  predicate GlobalAdmitsProbes(s: Settings, t: nat) {
    || s.globalRate == 0
    || (&& s.globalBurst >= s.burst
        && (s.globalBurst - s.burst) * MICRO + Refill(t, s.globalRate) >= s.burst * MICRO)
  }

  lemma {:induction false} OffPasses(s: Settings, global: Bucket, times: seq<int>)
    requires s.globalRate == 0
    ensures AllPass(s, global, times)
    decreases |times|
  {
    if times != [] {
      OffPasses(s, global, times[1..]);
    }
  }

  lemma OnePasses(s: Settings, micro: u64, now: int)
    requires s.globalRate > 0 && MICRO <= micro <= Capacity(s.globalBurst)
    ensures CheckGlobal(s, Bucket(micro, now), now) == (Bucket(micro - MICRO, now), true)
  {
    assert Elapsed(now, now) * s.globalRate == 0;
  }

  lemma {:induction false} BurstPasses(s: Settings, micro: u64, now: int, n: nat, rest: seq<int>)
    requires s.globalRate > 0 && n * MICRO <= micro <= Capacity(s.globalBurst)
    requires AllPass(s, Bucket(micro - n * MICRO, now), rest)
    ensures AllPass(s, Bucket(micro, now), Repeat(now, n) + rest)
    decreases n
  {
    if n == 0 {
      assert Repeat(now, n) + rest == rest;
    } else {
      OnePasses(s, micro, now);
      BurstPasses(s, micro - MICRO, now, n - 1, rest);
      RepeatFirst(now, n, rest);
      ConsPass(s, Bucket(micro, now), now, Repeat(now, n - 1) + rest);
    }
  }

  lemma LaterBurstPasses(s: Settings, global: Bucket, t: int, n: nat)
    requires s.globalRate > 0 && n * MICRO <= Refilled(global, s.globalRate, s.globalBurst, t)
    ensures AllPass(s, global, Repeat(t, n))
  {
    if n > 0 {
      var micro := Refilled(global, s.globalRate, s.globalBurst, t);
      BurstPasses(s, micro - MICRO, t, n - 1, []);
      assert Repeat(t, n - 1) + [] == Repeat(t, n - 1);
      ConsPass(s, global, t, Repeat(t, n - 1));
    }
  }

  lemma ProbesPass(s: Settings, t: nat)
    requires GlobalAdmitsProbes(s, t)
    ensures AllPass(s, FullBucket(s.globalBurst, 0), Repeat(0, s.burst) + Repeat(t, s.burst))
  {
    if s.globalRate == 0 {
      OffPasses(s, FullBucket(s.globalBurst, 0), Repeat(0, s.burst) + Repeat(t, s.burst));
    } else {
      LaterBurstPasses(s, Bucket((s.globalBurst - s.burst) * MICRO, 0), t, s.burst);
      BurstPasses(s, Capacity(s.globalBurst), 0, s.burst, Repeat(t, s.burst));
    }
  }

  // ---------------------------------------------------------------------
  // The condition on the ttl is exact
  // ---------------------------------------------------------------------

  /** The longest silence that does not refill an empty bucket. */
  function LastUnfilled(s: Settings): nat
    requires ValidSettings(s)
  {
    (s.burst * NANOS_PER_SECOND - 1) / s.rate
  }

  predicate Unfilled(s: Settings, t: nat) {
    s.rate * t < s.burst * NANOS_PER_SECOND
  }

  lemma LastUnfilledExactly(s: Settings, t: nat)
    requires ValidSettings(s)
    ensures Unfilled(s, t) <==> t <= LastUnfilled(s)
  {
    var x: nat, last := s.burst * NANOS_PER_SECOND - 1, LastUnfilled(s);
    assert x == s.rate * last + x % s.rate;
    if t <= last {
      MulMonotone(s.rate, t, last);
    } else {
      MulMonotone(s.rate, last + 1, t);
      assert s.rate * (last + 1) == s.rate * last + s.rate;
    }
  }

  /** The whole burst, a sweep once the entry has expired, the whole burst again. */
  function EvictionProbe(s: Settings, c: IpAddr, t: nat): seq<Event> {
    BurstOf(c, 0, s.burst) + ([Housekeeping(s.ttl)] + BurstOf(c, t, s.burst))
  }

  lemma ProbeIsSkewed(s: Settings, c: IpAddr, t: nat, skew: nat)
    requires s.ttl - skew <= t
    ensures Skewed(0, EvictionProbe(s, c, t), skew)
  {
    var second := BurstOf(c, t, s.burst);
    var rest := [Housekeeping(s.ttl)] + second;
    BurstIsSkewed(s.ttl, c, t, s.burst, [], skew);
    assert second + [] == second && rest[1..] == second;
    BurstIsSkewed(0, c, 0, s.burst, rest, skew);
  }

  lemma ProbeAllowsTwoBursts(s: Settings, c: IpAddr, t: nat)
    requires ValidSettings(s) && GlobalAdmitsProbes(s, t)
    ensures AllowedIn(Log(s, NewLimiter(s, 0), EvictionProbe(s, c, t), c)) == 2 * s.burst
    ensures RefillsFit(s, NewLimiter(s, 0), EvictionProbe(s, c, t), c)
  {
    var second := BurstOf(c, t, s.burst);
    var rest := [Housekeeping(s.ttl)] + second;
    ProbesPass(s, t);
    BurstAllAllowed(s, NewLimiter(s, 0), c, s.burst, 0, Repeat(t, s.burst), rest);
    var drained := Final(s, NewLimiter(s, 0), BurstOf(c, 0, s.burst));
    var swept := Next(s, drained, Housekeeping(s.ttl));
    assert swept.clients == map[];
    assert rest[1..] == second;
    assert Log(s, drained, rest, c) == Log(s, swept, second, c);
    assert Repeat(t, s.burst) + [] == Repeat(t, s.burst) && second + [] == second;
    BurstAllAllowed(s, swept, c, s.burst, t, [], []);
  }

  lemma ProbeTimes(s: Settings, c: IpAddr, t: nat)
    requires ValidSettings(s) && GlobalAdmitsProbes(s, t)
    ensures AdmissionTimes(Log(s, NewLimiter(s, 0), EvictionProbe(s, c, t), c))
         == Repeat(0, s.burst) + Repeat(t, s.burst)
    ensures EventTimes(EvictionProbe(s, c, t)) == Repeat(0, s.burst) + ([s.ttl] + Repeat(t, s.burst))
  {
    var n, second := s.burst, BurstOf(c, t, s.burst);
    TimesOfBurst(c, t, n, []);
    BurstIsOnlyFrom(c, t, n, []);
    assert second + [] == second && Repeat(t, n) + [] == Repeat(t, n);
    ConsTimes(Housekeeping(s.ttl), second);
    assert [] + RequestTimes(second) == RequestTimes(second);
    TimesOfBurst(c, 0, n, [Housekeeping(s.ttl)] + second);
    BurstIsOnlyFrom(c, 0, n, [Housekeeping(s.ttl)] + second);
    ProbesPass(s, t);
    AllAdmitted(s, NewLimiter(s, 0), c, EvictionProbe(s, c, t));
  }

  /** Two bursts at 0 and t are worth one burst and the time between them. */
  lemma WorthOfTwoBursts(rate: u32, burst: u32, t: nat)
    requires burst >= 1
    ensures WindowWorth(rate, burst, 0, Repeat(0, burst) + Repeat(t, burst)) == burst * NANOS_PER_SECOND + rate * t
  {
    var second := Repeat(t, burst);
    RepeatThenMovement(0, burst, second);
    MovementOfRepeat(0, t, burst);
  }

  lemma MovementOfRepeat(start: int, t: int, n: nat)
    requires start <= t && n >= 1
    ensures LastTime(start, Repeat(t, n)) == t && BackwardTime(start, Repeat(t, n)) == 0
  {
    RepeatThenMovement(t, n - 1, []);
    assert Repeat(t, n - 1) + [] == Repeat(t, n - 1) == Repeat(t, n)[1..];
  }

  lemma WorthOfProbe(rate: u32, burst: u32, ttl: nat, t: nat)
    requires burst >= 1 && ttl <= t
    ensures WindowWorth(rate, burst, 0, Repeat(0, burst) + ([ttl] + Repeat(t, burst)))
         == burst * NANOS_PER_SECOND + rate * t
  {
    var rest := [ttl] + Repeat(t, burst);
    RepeatThenMovement(0, burst, rest);
    MovementOfRepeat(ttl, t, burst);
    assert rest[1..] == Repeat(t, burst);
  }

  /** A client that comes back after it was evicted, but before its bucket would be full again, is given
      twice its burst, which the ideal limiter would not. */
  lemma ShortTtlIsObservable(s: Settings, c: IpAddr, t: nat, skew: nat)
    requires ValidSettings(s) && s.ttl - skew <= t && Unfilled(s, t) && GlobalAdmitsProbes(s, t)
    ensures Skewed(0, EvictionProbe(s, c, t), skew)
    ensures RefillsFit(s, NewLimiter(s, 0), EvictionProbe(s, c, t), c)
    ensures !EvictionUnseen(s, 0, EvictionProbe(s, c, t), c)
  {
    ProbeIsSkewed(s, c, t, skew);
    ProbeAllowsTwoBursts(s, c, t);
    ProbeTimes(s, c, t);
    IdealWithinWorth(s, Repeat(0, s.burst) + Repeat(t, s.burst));
    WorthOfTwoBursts(s.rate, s.burst, t);
  }

  ghost predicate AlwaysUnseen(s: Settings, skew: nat) {
    forall created, events, c ::
      Skewed(created, events, skew) && RefillsFit(s, NewLimiter(s, created), events, c)
      ==> EvictionUnseen(s, created, events, c)
  }

  lemma ShortTtlLeavesTime(s: Settings, skew: nat)
    requires ValidSettings(s) && !TtlCoversSkew(s, skew)
    ensures s.ttl - skew <= LastUnfilled(s) && Unfilled(s, LastUnfilled(s))
  {
    LastUnfilledExactly(s, LastUnfilled(s));
    if s.ttl - skew > 0 {
      LastUnfilledExactly(s, s.ttl - skew);
    }
  }

  /** Eviction is invisible in all runs whose times are out of order by at most `skew`, exactly for the
      settings whose ttl lasts that much longer than refilling an empty bucket. */
  lemma SkewConditionIsExact(s: Settings, skew: nat)
    requires ValidSettings(s) && GlobalAdmitsProbes(s, LastUnfilled(s))
    ensures AlwaysUnseen(s, skew) <==> TtlCoversSkew(s, skew)
  {
    if TtlCoversSkew(s, skew) {
      forall created, events, c
        | Skewed(created, events, skew) && RefillsFit(s, NewLimiter(s, created), events, c)
        ensures EvictionUnseen(s, created, events, c)
      {
        EvictionIsUnobservable(s, created, events, skew, c);
      }
    } else {
      ShortTtlLeavesTime(s, skew);
      ShortTtlIsObservable(s, V4(0), LastUnfilled(s), skew);
    }
  }

  ghost predicate AlwaysWithinRate(s: Settings) {
    forall c, created, history, start, window :: WithinRate(s, c, created, history, start, window)
  }

  lemma ShortTtlExceedsRate(s: Settings, c: IpAddr, t: nat)
    requires ValidSettings(s) && s.ttl <= t && Unfilled(s, t) && GlobalAdmitsProbes(s, t)
    ensures !WithinRate(s, c, 0, [], 0, EvictionProbe(s, c, t))
  {
    ProbeAllowsTwoBursts(s, c, t);
    ProbeTimes(s, c, t);
    WorthOfProbe(s.rate, s.burst, s.ttl, t);
    assert Final(s, NewLimiter(s, 0), []) == NewLimiter(s, 0);
  }

  /** Every client stays within its rate in every window of every run, whatever the order of the times,
      exactly for the settings whose ttl lasts as long as refilling an empty bucket. For ordered times
      the same settings are the ones under which eviction is invisible. */
  lemma TtlConditionIsExact(s: Settings)
    requires ValidSettings(s) && GlobalAdmitsProbes(s, LastUnfilled(s))
    ensures AlwaysWithinRate(s) <==> TtlCoversBurst(s)
    ensures AlwaysUnseen(s, 0) <==> TtlCoversBurst(s)
  {
    SkewConditionIsExact(s, 0);
    if TtlCoversBurst(s) {
      forall c, created, history, start, window
        ensures WithinRate(s, c, created, history, start, window)
      {
        ClientRateBound(s, c, created, history, start, window);
      }
    } else {
      ShortTtlLeavesTime(s, 0);
      ShortTtlExceedsRate(s, V4(0), LastUnfilled(s));
    }
  }
}
