/** Whole runs of the rate limiter: any interleaving of requests from any clients with sweeps. */
module LimiterRuns {
  import opened Words
  import opened Addresses
  import opened TokenBuckets
  import opened RateLimiters

  datatype Event =
    | Request(source: IpAddr, now: int)
    | Housekeeping(now: int)

  function Next(s: Settings, l: Limiter, e: Event): Limiter {
    match e
    case Request(source, now) => Check(s, l, source, now).0
    case Housekeeping(now) => Sweep(s, l, now)
  }

  function Final(s: Settings, l: Limiter, events: seq<Event>): Limiter
    decreases |events|
  {
    if events == [] then l else Final(s, Next(s, l, events[0]), events[1..])
  }

  /** Event times never decrease and stay between `start` and `end`. */
  predicate Chronological(start: int, events: seq<Event>, end: int)
    decreases |events|
  {
    if events == [] then start <= end
    else start <= events[0].now && Chronological(events[0].now, events[1..], end)
  }

  // ---------------------------------------------------------------------
  // What one client sees
  // ---------------------------------------------------------------------

  datatype Verdict = Verdict(at: int, decision: Decision)

  function Tracked(l: Limiter, c: IpAddr): Option<Entry> {
    if c in l.clients then Some(l.clients[c]) else None
  }

  /** A request of `c` that neither the global layer nor the table bound turned away. */
  predicate Admits(s: Settings, l: Limiter, e: Event, c: IpAddr) {
    e.Request? && e.source == c && !Check(s, l, c, e.now).1.LimitedGlobal? && !Check(s, l, c, e.now).1.TableFull?
  }

  /** The verdicts on the admitted requests of `c`, in order. */
  function Log(s: Settings, l: Limiter, events: seq<Event>, c: IpAddr): seq<Verdict>
    decreases |events|
  {
    if events == [] then []
    else
      (if Admits(s, l, events[0], c) then [Verdict(events[0].now, Check(s, l, c, events[0].now).1)] else [])
      + Log(s, Next(s, l, events[0]), events[1..], c)
  }

  /** The per-client layer alone. */
  function AdmittedStep(s: Settings, entry: Option<Entry>, now: int): (Entry, Decision) {
    match entry
    case None => (NewEntry(s, now), Allowed)
    case Some(e) => Hit(s, e, now)
  }

  /** An event either serves `c`, or leaves its entry alone, or evicts it after `ttl` of silence. */
  lemma ClientStep(s: Settings, l: Limiter, e: Event, c: IpAddr)
    requires s.enabled
    ensures var l' := Next(s, l, e);
      if Admits(s, l, e, c) then
        && Tracked(l', c) == Some(AdmittedStep(s, Tracked(l, c), e.now).0)
        && Check(s, l, c, e.now).1 == AdmittedStep(s, Tracked(l, c), e.now).1
      else
        || Tracked(l', c) == Tracked(l, c)
        || (Tracked(l', c) == None && Tracked(l, c).Some? && Elapsed(Tracked(l, c).value.lastSeen, e.now) >= s.ttl)
  {
  }

  // ---------------------------------------------------------------------
  // Counting verdicts
  // ---------------------------------------------------------------------

  function AllowedIn(log: seq<Verdict>): nat {
    if log == [] then 0 else (if log[0].decision.Allowed? then 1 else 0) + AllowedIn(log[1..])
  }

  function LimitedIn(log: seq<Verdict>): nat {
    if log == [] then 0 else (if log[0].decision.LimitedPerClient? then 1 else 0) + LimitedIn(log[1..])
  }

  function FlaggedIn(log: seq<Verdict>): nat {
    if log == [] then 0 else (if log[0].decision == LimitedPerClient(true) then 1 else 0) + FlaggedIn(log[1..])
  }

  lemma CountsOfFront(v: seq<Verdict>, rest: seq<Verdict>)
    requires |v| <= 1
    ensures AllowedIn(v + rest) == AllowedIn(v) + AllowedIn(rest)
    ensures LimitedIn(v + rest) == LimitedIn(v) + LimitedIn(rest)
    ensures FlaggedIn(v + rest) == FlaggedIn(v) + FlaggedIn(rest)
  {
    if v == [] {
      assert v + rest == rest;
    } else {
      assert (v + rest)[1..] == rest && v[1..] == [];
    }
  }

  // ---------------------------------------------------------------------
  // Kiss-o'-Death throttle
  // ---------------------------------------------------------------------

  /** What the current streak of limited requests has left of its allowance of seven. */
  function Slack(entry: Option<Entry>): nat {
    if entry.None? then 0
    else if entry.value.limitedCount % 8 == 0 then 7
    else entry.value.limitedCount % 8 - 1
  }

  lemma HitSlack(s: Settings, e: Entry, now: int)
    ensures var (e', d) := Hit(s, e, now);
      && (d.Allowed? ==> Slack(Some(e')) == 7)
      && (d == LimitedPerClient(true) ==> 7 + Slack(Some(e')) == Slack(Some(e)))
      && (d == LimitedPerClient(false) ==> Slack(Some(e')) == 1 + Slack(Some(e)))
  {
    assert U32_RANGE % 8 == 0;
  }

  /** Over a whole run, from any state and for any times, eight times the suggested Kiss-o'-Deaths
      of a client stay within its limited requests plus seven for each allowed one. Evictions and
      the wrap-around of the 32-bit count do not help. */
  lemma {:induction false} KodThrottle(s: Settings, l: Limiter, events: seq<Event>, c: IpAddr)
    requires s.enabled
    ensures var log := Log(s, l, events, c);
      8 * FlaggedIn(log) <= LimitedIn(log) + 7 * AllowedIn(log) + Slack(Tracked(l, c))
    decreases |events|
  {
    if events != [] {
      var e := events[0];
      var l' := Next(s, l, e);
      ClientStep(s, l, e, c);
      KodThrottle(s, l', events[1..], c);
      var v := if Admits(s, l, e, c) then [Verdict(e.now, Check(s, l, c, e.now).1)] else [];
      CountsOfFront(v, Log(s, l', events[1..], c));
      if Admits(s, l, e, c) && Tracked(l, c).Some? {
        HitSlack(s, Tracked(l, c).value, e.now);
      }
    }
  }

  /** The flags of a log follow the cadence, when `earlier` limited requests directly precede it. */
  predicate Cadent(log: seq<Verdict>, earlier: nat)
    decreases |log|
  {
    log == [] ||
    if log[0].decision.LimitedPerClient?
    then (log[0].decision.sendKod <==> earlier % 8 == 0) && Cadent(log[1..], earlier + 1)
    else Cadent(log[1..], 0)
  }

  lemma HitCadence(s: Settings, e: Entry, now: int, earlier: nat)
    requires e.limitedCount == earlier % U32_RANGE
    ensures var (e', d) := Hit(s, e, now);
      && (d.Allowed? ==> e'.limitedCount == 0)
      && (d.LimitedPerClient? ==>
            && (d.sendKod <==> earlier % 8 == 0)
            && e'.limitedCount == (earlier + 1) % U32_RANGE)
  {
    assert U32_RANGE % 8 == 0;
  }

  lemma {:induction false} LogIsCadent(s: Settings, l: Limiter, events: seq<Event>, c: IpAddr, earlier: nat)
    requires s.enabled
    requires Tracked(l, c).Some? ==> Tracked(l, c).value.limitedCount == earlier % U32_RANGE
    ensures Cadent(Log(s, l, events, c), earlier)
    ensures Tracked(l, c).None? && Log(s, l, events, c) != [] ==> Log(s, l, events, c)[0].decision.Allowed?
    decreases |events|
  {
    if events != [] {
      var e := events[0];
      var l' := Next(s, l, e);
      var rest := Log(s, l', events[1..], c);
      ClientStep(s, l, e, c);
      if Admits(s, l, e, c) {
        var d := Check(s, l, c, e.now).1;
        if Tracked(l, c).Some? {
          HitCadence(s, Tracked(l, c).value, e.now, earlier);
        }
        LogIsCadent(s, l', events[1..], c, if d.LimitedPerClient? then earlier + 1 else 0);
        assert ([Verdict(e.now, d)] + rest)[1..] == rest;
      } else {
        LogIsCadent(s, l', events[1..], c, earlier);
        assert [] + rest == rest;
      }
    }
  }

  /** A limited request carries the Kiss-o'-Death flag exactly when a multiple of eight limited
      requests of the same client came directly before it: across evictions, whatever the times. */
  lemma KodCadence(s: Settings, start: int, events: seq<Event>, c: IpAddr)
    requires s.enabled
    ensures Cadent(Log(s, NewLimiter(s, start), events, c), 0)
  {
    LogIsCadent(s, NewLimiter(s, start), events, c, 0);
  }

  lemma {:induction false} FlaggedInCadentStreak(log: seq<Verdict>, n: nat, earlier: nat)
    requires Cadent(log, earlier) && n <= |log|
    requires forall i :: 0 <= i < n ==> log[i].decision.LimitedPerClient?
    ensures FlaggedIn(log[..n]) == (earlier + n + 7) / 8 - (earlier + 7) / 8
    decreases n
  {
    if n > 0 {
      FlaggedInCadentStreak(log[1..], n - 1, earlier + 1);
      assert log[..n][1..] == log[1..][..n - 1];
    }
  }

  lemma {:induction false} CadentAfterAllowed(log: seq<Verdict>, i: nat, earlier: nat)
    requires Cadent(log, earlier) && i < |log| && log[i].decision.Allowed?
    ensures Cadent(log[i + 1..], 0)
    decreases i
  {
    if i > 0 {
      var earlier' := if log[0].decision.LimitedPerClient? then earlier + 1 else 0;
      CadentAfterAllowed(log[1..], i - 1, earlier');
      assert log[1..][i..] == log[i + 1..];
    }
  }

  /** Of n limited requests of one client in a row, starting right after an allowed one, exactly
      ceil(n/8) suggest a Kiss-o'-Death. */
  lemma KodsInStreak(s: Settings, start: int, events: seq<Event>, c: IpAddr, i: nat, n: nat)
    requires s.enabled
    requires i + 1 + n <= |Log(s, NewLimiter(s, start), events, c)|
    requires Log(s, NewLimiter(s, start), events, c)[i].decision.Allowed?
    requires forall j :: i < j <= i + n ==> Log(s, NewLimiter(s, start), events, c)[j].decision.LimitedPerClient?
    ensures FlaggedIn(Log(s, NewLimiter(s, start), events, c)[i + 1..i + 1 + n]) == (n + 7) / 8
  {
    var log := Log(s, NewLimiter(s, start), events, c);
    KodCadence(s, start, events, c);
    CadentAfterAllowed(log, i, 0);
    FlaggedInCadentStreak(log[i + 1..], n, 0);
    assert log[i + 1..][..n] == log[i + 1..i + 1 + n];
  }

  // ---------------------------------------------------------------------
  // Bounded table, throttled scans
  // ---------------------------------------------------------------------

  lemma RetainedIsSmaller(clients: map<IpAddr, Entry>, ttl: nat, now: int)
    ensures |Retained(clients, ttl, now)| <= |clients|
  {
    var kept := Retained(clients, ttl, now).Keys;
    SubsetIsSmaller(kept, clients.Keys);
  }

  lemma SubsetIsSmaller(a: set<IpAddr>, b: set<IpAddr>)
    requires a <= b
    ensures |a| <= |b|
  {
    assert b == a + (b - a);
  }

  lemma TableStaysBounded(s: Settings, l: Limiter, e: Event)
    requires |l.clients| <= s.maxEntries
    ensures |Next(s, l, e).clients| <= s.maxEntries
  {
    RetainedIsSmaller(l.clients, s.ttl, e.now);
    if e.Request? && e.source in l.clients {
      var updated := l.clients[e.source := Hit(s, l.clients[e.source], e.now).0];
      assert updated.Keys == l.clients.Keys;
      assert |updated| == |updated.Keys| == |l.clients|;
    }
  }

  /** In every state of every run, whatever the times, the table respects its bound. */
  lemma {:induction false} TableBounded(s: Settings, l: Limiter, events: seq<Event>)
    requires |l.clients| <= s.maxEntries
    ensures |Final(s, l, events).clients| <= s.maxEntries
    decreases |events|
  {
    if events != [] {
      TableStaysBounded(s, l, events[0]);
      TableBounded(s, Next(s, l, events[0]), events[1..]);
    }
  }

  /** The event makes the limiter scan its table on the request path. */
  predicate Scans(s: Settings, l: Limiter, e: Event) {
    && e.Request? && s.enabled && CheckGlobal(s, l.global, e.now).1
    && e.source !in l.clients && ForcesSweep(s, l, e.now)
  }

  function ForcedScans(s: Settings, l: Limiter, events: seq<Event>): nat
    decreases |events|
  {
    if events == [] then 0
    else (if Scans(s, l, events[0]) then 1 else 0) + ForcedScans(s, Next(s, l, events[0]), events[1..])
  }

  lemma ScanStep(s: Settings, l: Limiter, e: Event)
    ensures if Scans(s, l, e)
      then Next(s, l, e).lastForcedSweep == e.now >= l.lastForcedSweep + FORCED_SWEEP_INTERVAL
      else Next(s, l, e).lastForcedSweep == l.lastForcedSweep
  {
  }

  /** Forced scans are at least a second apart, whatever the times of the requests. */
  lemma {:induction false} ScansAreSpaced(s: Settings, l: Limiter, events: seq<Event>)
    ensures ForcedScans(s, l, events) * FORCED_SWEEP_INTERVAL
         <= Final(s, l, events).lastForcedSweep - l.lastForcedSweep
    decreases |events|
  {
    if events != [] {
      ScanStep(s, l, events[0]);
      ScansAreSpaced(s, Next(s, l, events[0]), events[1..]);
    }
  }

  lemma {:induction false} LastScanIsPast(s: Settings, l: Limiter, start: int, events: seq<Event>, end: int)
    requires Chronological(start, events, end) && l.lastForcedSweep <= start
    ensures Final(s, l, events).lastForcedSweep <= end
    decreases |events|
  {
    if events != [] {
      ScanStep(s, l, events[0]);
      LastScanIsPast(s, Next(s, l, events[0]), events[0].now, events[1..], end);
    }
  }

  /** A limiter created at `start` has made at most one forced scan per second by `end`. */
  lemma ForcedScansThrottled(s: Settings, start: int, events: seq<Event>, end: int)
    requires Chronological(start, events, end)
    ensures ForcedScans(s, NewLimiter(s, start), events) <= (end - start) / FORCED_SWEEP_INTERVAL
  {
    ScansAreSpaced(s, NewLimiter(s, start), events);
    LastScanIsPast(s, NewLimiter(s, start), start, events, end);
  }

  // ---------------------------------------------------------------------
  // One check, in full
  // ---------------------------------------------------------------------

  /** The bucket holds a token by now. */
  predicate HasToken(b: Bucket, rate: u32, burst: u32, now: int) {
    Refilled(b, rate, burst, now) >= 1_000_000
  }

  /** The global layer is off, or its bucket holds a token. */
  predicate PassesGlobal(s: Settings, l: Limiter, now: int) {
    s.globalRate == 0 || HasToken(l.global, s.globalRate, s.globalBurst, now)
  }

  /** Seen less than `ttl` ago. */
  predicate Fresh(s: Settings, e: Entry, now: int) {
    now - e.lastSeen < s.ttl
  }

  /** A full table is scanned for a newcomer, if the last scan was at least a second ago. */
  predicate ScansFor(s: Settings, l: Limiter, source: IpAddr, now: int) {
    && s.enabled && PassesGlobal(s, l, now) && source !in l.clients
    && |l.clients| >= s.maxEntries && now - l.lastForcedSweep >= 1_000_000_000
  }

  /** There is an entry to spare for a newcomer, or a scan makes one. */
  ghost predicate HasRoom(s: Settings, l: Limiter, source: IpAddr, now: int) {
    || |l.clients| < s.maxEntries
    || (ScansFor(s, l, source, now) && exists a :: a in l.clients && !Fresh(s, l.clients[a], now))
  }

  lemma RetainedSize(s: Settings, l: Limiter, now: int)
    requires s.ttl >= 1
    ensures |Retained(l.clients, s.ttl, now)| < |l.clients| <==>
      exists a :: a in l.clients && !Fresh(s, l.clients[a], now)
    ensures |Retained(l.clients, s.ttl, now)| <= |l.clients|
  {
    var kept := Retained(l.clients, s.ttl, now);
    RetainedIsSmaller(l.clients, s.ttl, now);
    if a :| a in l.clients && !Fresh(s, l.clients[a], now) {
      SubsetIsSmaller(kept.Keys, l.clients.Keys - {a});
      assert |kept| == |kept.Keys| <= |l.clients.Keys - {a}| == |l.clients.Keys| - 1;
    } else {
      assert kept == l.clients;
    }
  }

  /** What a check decides, for all settings: a disabled limiter allows everything; otherwise the global
      layer has the first word, a known client's bucket the second, and the table bound the last. */
  lemma DecisionsExactly(s: Settings, l: Limiter, source: IpAddr, now: int)
    requires |l.clients| <= s.maxEntries && s.ttl >= 1
    ensures var d := Check(s, l, source, now).1;
      var passes, known := PassesGlobal(s, l, now), source in l.clients;
      && (d == LimitedGlobal <==> s.enabled && !passes)
      && (d.LimitedPerClient? <==>
            s.enabled && passes && known && !HasToken(l.clients[source].bucket, s.rate, s.burst, now))
      && (d.LimitedPerClient? ==> (d.sendKod <==> l.clients[source].limitedCount % 8 == 0))
      && (d == TableFull <==> s.enabled && passes && !known && !HasRoom(s, l, source, now))
      && (d == Allowed <==>
            || !s.enabled
            || (passes && known && HasToken(l.clients[source].bucket, s.rate, s.burst, now))
            || (passes && !known && HasRoom(s, l, source, now)))
  {
    RetainedSize(s, l, now);
  }

  /** What a check for another source leaves of an entry. */
  function AfterScan(s: Settings, l: Limiter, source: IpAddr, now: int, a: IpAddr): Option<Entry> {
    if ScansFor(s, l, source, now) && a in l.clients && !Fresh(s, l.clients[a], now) then None else Tracked(l, a)
  }

  /** What a check leaves behind, for all settings. A disabled limiter stays as it is. Otherwise the global
      bucket is refilled and, if it can, spends a token; the other clients stay, except that a scan forgets
      exactly those silent for `ttl`; and the client itself is served from its bucket, or starts with all
      but one token of a burst, or stays as it is. */
  lemma StateExactly(s: Settings, l: Limiter, source: IpAddr, now: int)
    requires |l.clients| <= s.maxEntries && s.ttl >= 1 && s.burst >= 1
    ensures var (l', d) := Check(s, l, source, now);
      && (!s.enabled ==> l' == l)
      && l'.lastForcedSweep == (if ScansFor(s, l, source, now) then now else l.lastForcedSweep)
      && l'.global == (if s.enabled && s.globalRate > 0 then Served(l.global, s.globalRate, s.globalBurst, now)
                       else l.global)
      && (forall a :: a != source ==> Tracked(l', a) == AfterScan(s, l, source, now, a))
      && Tracked(l', source) ==
           if !s.enabled || d == LimitedGlobal || d == TableFull then Tracked(l, source)
           else if source in l.clients then
             Some(Entry(Served(l.clients[source].bucket, s.rate, s.burst, now), now,
                        if d == Allowed then 0 else (l.clients[source].limitedCount + 1) % 0x1_0000_0000))
           else Some(Entry(Bucket((s.burst - 1) * 1_000_000, now), now, 0))
  {
    RetainedSize(s, l, now);
    TakeAtOnce(s.burst, s.rate, s.burst, now);
  }

  /** A sweep forgets exactly the clients silent for `ttl` and leaves all else alone. */
  lemma SweepExactly(s: Settings, l: Limiter, now: int, a: IpAddr)
    requires s.ttl >= 1
    ensures var l' := Sweep(s, l, now);
      && l'.global == l.global && l'.lastForcedSweep == l.lastForcedSweep
      && Tracked(l', a) == if a in l.clients && !Fresh(s, l.clients[a], now) then None else Tracked(l, a)
  {
  }

  /** A bucket after a request: refilled, less a token if it holds one. */
  function Served(b: Bucket, rate: u32, burst: u32, now: int): Bucket {
    var micro := Refilled(b, rate, burst, now);
    Bucket(if micro >= 1_000_000 then micro - 1_000_000 else micro, now)
  }

  /** Fail closed, and only then: a request is refused for want of room if and only if its source is
      not tracked and the table holds its maximum of entries that could not be scanned yet, or that
      were all seen less than `ttl` ago. */
  lemma TableFullExactly(s: Settings, l: Limiter, source: IpAddr, now: int)
    requires ValidSettings(s) && |l.clients| <= s.maxEntries
    ensures Check(s, l, source, now).1 == TableFull <==>
      && CheckGlobal(s, l.global, now).1
      && source !in l.clients
      && |l.clients| == s.maxEntries
      && (|| Elapsed(l.lastForcedSweep, now) < FORCED_SWEEP_INTERVAL
          || forall a :: a in l.clients ==> Elapsed(l.clients[a].lastSeen, now) < s.ttl)
  {
    var kept := Retained(l.clients, s.ttl, now);
    if forall a :: a in l.clients ==> Elapsed(l.clients[a].lastSeen, now) < s.ttl {
      assert kept == l.clients;
    } else {
      var a :| a in l.clients && Elapsed(l.clients[a].lastSeen, now) >= s.ttl;
      SubsetIsSmaller(kept.Keys, l.clients.Keys - {a});
      assert |kept| == |kept.Keys| <= |l.clients.Keys - {a}| == |l.clients.Keys| - 1;
    }
  }
}
