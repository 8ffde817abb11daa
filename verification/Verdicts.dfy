/** What the loops were told is what the limiter decided: the decisions recorded with the datagrams
    against the limiter's log, and what follows for every client of the server. */
module Verdicts {
  import opened Words
  import opened Addresses
  import opened Timestamps
  import opened RateLimiters
  import opened LimiterRuns
  import opened LimiterEviction
  import opened Clocks
  import opened Servers
  import opened Service
  import opened Ledger
  import opened Timing
  import opened Quotas

  /** The decisions of the per-client layer. */
  predicate OfClient(d: Decision) {
    d.Allowed? || d.LimitedPerClient?
  }

  function VerdictsIn(log: seq<Verdict>, d: Decision): nat {
    if log == [] then 0 else (if log[0].decision == d then 1 else 0) + VerdictsIn(log[1..], d)
  }

  /** One for a datagram of c that met with this decision. */
  function Met(c: IpAddr, d: Decision): Trail -> nat {
    (t: Trail) => if t.origin.Datagram? && t.origin.job.source == c && t.decision == Some(d) then 1 else 0
  }

  /** As many datagrams of each client have met with each decision as there are in the limiter's log. */
  ghost predicate DecisionsAgree(cfg: Config, created: int, s: System) {
    forall c: IpAddr, d: Decision :: OfClient(d) ==>
      Total(s, Met(c, d)) == VerdictsIn(ServerLog(cfg, created, s, c), d)
  }

  // ---------------------------------------------------------------------
  // One more decision
  // ---------------------------------------------------------------------

  lemma {:induction false} VerdictsSplit(a: seq<Verdict>, b: seq<Verdict>, d: Decision)
    ensures VerdictsIn(a + b, d) == VerdictsIn(a, d) + VerdictsIn(b, d)
    decreases |a|
  {
    if a == [] {
      assert a + b == b;
    } else {
      assert (a + b)[1..] == a[1..] + b;
      VerdictsSplit(a[1..], b, d);
    }
  }

  lemma OneVerdict(s: Settings, l: Limiter, e: Event, c: IpAddr, d: Decision)
    requires OfClient(d)
    ensures VerdictsIn(Log(s, l, [e], c), d) == if e == Request(c, e.now) && Check(s, l, c, e.now).1 == d then 1 else 0
  {
    assert [e][1..] == [];
  }

  lemma OneMoreVerdict(s: Settings, l: Limiter, events: seq<Event>, e: Event, c: IpAddr, d: Decision)
    requires OfClient(d)
    ensures VerdictsIn(Log(s, l, events + [e], c), d) == VerdictsIn(Log(s, l, events, c), d)
      + if e == Request(c, e.now) && Check(s, Final(s, l, events), c, e.now).1 == d then 1 else 0
  {
    EventsSplit(s, l, events, [e], c);
    VerdictsSplit(Log(s, l, events, c), Log(s, Final(s, l, events), [e], c), d);
    OneVerdict(s, Final(s, l, events), e, c, d);
  }

  /** What the trail of a loop gains at its step. */
  lemma TrailMeets(cfg: Config, t: Trail, decision: Decision, pc: Pc, reading: Option<NtpTimestamp>, sendOk: bool,
                   c: IpAddr, d: Decision)
    requires ValidConfig(cfg) && pc.Busy? && PcTells(cfg, t, pc)
    ensures Met(c, d)(NextTrail(t, decision, pc, reading, sendOk)) == Met(c, d)(t)
      + if AtRateCheck(pc) && pc.next.job.source == c && decision == d then 1 else 0
  {
  }

  lemma AdvanceAgrees(cfg: Config, created: int, s: System, a: Action, c: IpAddr, d: Decision)
    requires ValidConfig(cfg) && a.Advance? && Enabled(s, a) && OfClient(d)
    requires LoopsTell(cfg, s) && LimiterIsRecorded(cfg, created, s)
    requires Total(s, Met(c, d)) == VerdictsIn(ServerLog(cfg, created, s, c), d)
    ensures var s' := Step(cfg, s, a);
      Total(s', Met(c, d)) == VerdictsIn(ServerLog(cfg, created, s', c), d)
  {
    var i, pc := a.loop, s.loops[a.loop];
    var s', t, decision := Step(cfg, s, a), s.trails[i], Decide(cfg, s, pc);
    assert PcTells(cfg, t, pc);
    AdvanceTrails(cfg, s, i, a.now, a.reading, a.sendOk);
    TrailMoves(s, s', i, NextTrail(t, decision, pc, a.reading, a.sendOk), Finishes(pc), Met(c, d));
    TrailMeets(cfg, t, decision, pc, a.reading, a.sendOk, c, d);
    AdvanceTimes(cfg, s, a);
    if AtRateCheck(pc) {
      var e := Request(pc.next.job.source, pc.next.now);
      OneMoreVerdict(cfg.limits, NewLimiter(cfg.limits, created), s.limiterEvents, e, c, d);
    }
  }

  lemma WakingAgrees(s: System, s': System, i: nat, origin: Origin, c: IpAddr, d: Decision)
    requires i < |s.trails| && s.trails[i] == BLANK
    requires s'.trails == s.trails[i := BLANK.(origin := origin)] && s'.finished == s.finished
    ensures Total(s', Met(c, d)) == Total(s, Met(c, d))
  {
    TrailMoves(s, s', i, BLANK.(origin := origin), false, Met(c, d));
  }

  lemma OtherAgrees(cfg: Config, created: int, s: System, a: Action, c: IpAddr, d: Decision)
    requires ValidConfig(cfg) && !a.Advance? && Enabled(s, a) && OfClient(d)
    requires LoopsTell(cfg, s) && LimiterIsRecorded(cfg, created, s)
    requires Total(s, Met(c, d)) == VerdictsIn(ServerLog(cfg, created, s, c), d)
    ensures var s' := Step(cfg, s, a);
      Total(s', Met(c, d)) == VerdictsIn(ServerLog(cfg, created, s', c), d)
  {
    var s' := Step(cfg, s, a);
    if a.Receive? || a.ReceiveError? {
      assert PcTells(cfg, s.trails[a.loop], s.loops[a.loop]);
      assert s'.limiterEvents == s.limiterEvents;
      WakingAgrees(s, s', a.loop, s'.trails[a.loop].origin, c, d);
    } else if a.SweepLimiter? {
      OneMoreVerdict(cfg.limits, NewLimiter(cfg.limits, created), s.limiterEvents,
                     Housekeeping(s.sweepTime.value), c, d);
    }
  }

  lemma StepAgrees(cfg: Config, created: int, s: System, a: Action)
    requires ValidConfig(cfg) && Enabled(s, a) && LoopsTell(cfg, s) && LimiterIsRecorded(cfg, created, s)
    requires DecisionsAgree(cfg, created, s)
    ensures DecisionsAgree(cfg, created, Step(cfg, s, a))
  {
    var s' := Step(cfg, s, a);
    forall c: IpAddr, d: Decision | OfClient(d)
      ensures Total(s', Met(c, d)) == VerdictsIn(ServerLog(cfg, created, s', c), d)
    {
      if a.Advance? {
        AdvanceAgrees(cfg, created, s, a, c, d);
      } else {
        OtherAgrees(cfg, created, s, a, c, d);
      }
    }
  }

  lemma {:induction false} RunAgrees(cfg: Config, created: int, s: System, actions: seq<Action>)
    requires ValidConfig(cfg) && Runs(cfg, s, actions) && AnswersRequests(cfg, s)
    requires LoopsTell(cfg, s) && BooksTally(s) && LimiterIsRecorded(cfg, created, s) && DecisionsAgree(cfg, created, s)
    ensures DecisionsAgree(cfg, created, After(cfg, s, actions))
    decreases |actions|
  {
    if actions != [] {
      StepAgrees(cfg, created, s, actions[0]);
      StepTells(cfg, s, actions[0]);
      StepAnswersRequests(cfg, s, actions[0]);
      StepKeepsQuota(Overall, cfg, created, s, actions[0]);
      RunAgrees(cfg, created, Step(cfg, s, actions[0]), actions[1..]);
    }
  }

  lemma StartAgrees(cfg: Config, sockets: nat, created: int, reading: Reading)
    requires ValidConfig(cfg) && reading.wall >= 0
    ensures DecisionsAgree(cfg, created, Start(cfg, sockets, created, reading))
  {
    var s := Start(cfg, sockets, created, reading);
    forall c: IpAddr, d: Decision | OfClient(d)
      ensures Total(s, Met(c, d)) == VerdictsIn(ServerLog(cfg, created, s, c), d)
    {
      BlankTrails(s.trails, Met(c, d));
    }
  }

  // ---------------------------------------------------------------------
  // Theorems
  // ---------------------------------------------------------------------

  /** In every state of every interleaving, the limiter is where its recorded events have brought it, and
      the decisions with which the datagrams of a client have met, whether they are finished or not, are
      those in the limiter's log for that client. */
  lemma LoopsObeyLimiter(cfg: Config, sockets: nat, created: int, reading: Reading, actions: seq<Action>)
    requires ValidConfig(cfg) && reading.wall >= 0 && Runs(cfg, Start(cfg, sockets, created, reading), actions)
    ensures var s := After(cfg, Start(cfg, sockets, created, reading), actions);
      LimiterIsRecorded(cfg, created, s) && DecisionsAgree(cfg, created, s)
  {
    var s0 := Start(cfg, sockets, created, reading);
    StartHolds(cfg, sockets, created, reading);
    StartTells(cfg, sockets, created, reading);
    StartAgrees(cfg, sockets, created, reading);
    RunAgrees(cfg, created, s0, actions);
    RunKeepsQuota(Overall, cfg, created, s0, actions);
  }

  lemma {:induction false} CountsAreVerdicts(log: seq<Verdict>)
    ensures AllowedIn(log) == VerdictsIn(log, Allowed)
    ensures LimitedIn(log) == VerdictsIn(log, LimitedPerClient(true)) + VerdictsIn(log, LimitedPerClient(false))
    decreases |log|
  {
    if log != [] {
      CountsAreVerdicts(log[1..]);
    }
  }

  /** The datagrams of c that the limiter has allowed, and limited by its per-client layer. */
  function AllowedOf(s: System, c: IpAddr): nat {
    Total(s, Met(c, Allowed))
  }

  function LimitedOf(s: System, c: IpAddr): nat {
    Total(s, Met(c, LimitedPerClient(true))) + Total(s, Met(c, LimitedPerClient(false)))
  }

  /** The replies a permitted client can draw besides the time are RATE Kiss-o'-Deaths: in every
      interleaving, one for each eight of its limited datagrams and not even one more for each allowed
      one. So all its replies together stay within its limited datagrams and fifteen for each allowed
      one, by eight. */
  lemma ServerThrottlesKisses(cfg: Config, sockets: nat, created: int, reading: Reading, actions: seq<Action>,
                              c: IpAddr)
    requires ValidConfig(cfg) && reading.wall >= 0 && Runs(cfg, Start(cfg, sockets, created, reading), actions)
    requires cfg.limits.enabled
    ensures var s := After(cfg, Start(cfg, sockets, created, reading), actions);
      && UsedBy(PerClient(c), s.sent) <= AllowedOf(s, c)
      && 8 * UsedBy(RateKisses(c), s.sent) <= LimitedOf(s, c) + 7 * AllowedOf(s, c)
      && 8 * (UsedBy(PerClient(c), s.sent) + UsedBy(RateKisses(c), s.sent)) <= LimitedOf(s, c) + 15 * AllowedOf(s, c)
  {
    var s := After(cfg, Start(cfg, sockets, created, reading), actions);
    LoopsObeyLimiter(cfg, sockets, created, reading, actions);
    CountsAreVerdicts(ServerLog(cfg, created, s, c));
    QuotasHold(PerClient(c), cfg, sockets, created, reading, actions, []);
    QuotasHold(RateKisses(c), cfg, sockets, created, reading, actions, []);
    KodThrottle(cfg.limits, NewLimiter(cfg.limits, created), s.limiterEvents, c);
  }

  /** Eviction stays invisible in the whole server, as long as no reading of the clock is held so long that
      the ttl no longer covers it: the datagrams of a client meet with the decisions of the ideal limiter
      for the times of its admitted requests. */
  lemma ServerEvictsUnseen(cfg: Config, sockets: nat, created: int, reading: Reading, actions: seq<Action>, c: IpAddr)
    requires ValidConfig(cfg) && reading.wall >= 0 && Runs(cfg, Start(cfg, sockets, created, reading), actions)
    requires var s := After(cfg, Start(cfg, sockets, created, reading), actions);
      ValidSettings(cfg.limits) && TtlCoversSkew(cfg.limits, s.longestHeld)
      && RefillsFit(cfg.limits, NewLimiter(cfg.limits, created), s.limiterEvents, c)
    ensures var s := After(cfg, Start(cfg, sockets, created, reading), actions);
      var ideal := IdealLog(cfg.limits, None, AdmissionTimes(ServerLog(cfg, created, s, c)));
      && LimiterIsRecorded(cfg, created, s) && ServerLog(cfg, created, s, c) == ideal
      && forall d: Decision :: OfClient(d) ==> Total(s, Met(c, d)) == VerdictsIn(ideal, d)
  {
    var s0 := Start(cfg, sockets, created, reading);
    var s := After(cfg, s0, actions);
    LoopsObeyLimiter(cfg, sockets, created, reading, actions);
    DisorderIsHeldTime(cfg, sockets, created, reading, [], actions);
    assert Since(s0, s) == s.limiterEvents;
    EvictionIsUnobservable(cfg.limits, created, s.limiterEvents, s.longestHeld, c);
  }
}
