/** The server with rate limiting switched off. */
module Unlimited {
  import opened Words
  import opened Timestamps
  import opened Responses
  import opened RateLimiters
  import opened Clocks
  import opened Servers
  import opened Ledger

  /** Nothing in the hands of a loop is due to the limiter. */
  predicate Unbothered(pc: Pc) {
    pc.Busy? ==>
      && RateLimitedTotal !in pc.pending
      && (pc.next.ParseForKiss? ==> pc.next.code != Rate)
      && (pc.next.Stamp? || pc.next.Send? ==> pc.next.side != Kiss(Rate))
  }

  predicate NotLimited(t: Trail) {
    t.decision.None? || t.decision == Some(Allowed)
  }

  /** The limiter is as it was made, and has had no consequences. */
  predicate LimiterIdle(cfg: Config, created: int, s: System) {
    && s.limiter == NewLimiter(cfg.limits, created) && s.metrics.rateLimited == 0
    && (forall i :: 0 <= i < |s.loops| ==> Unbothered(s.loops[i]))
    && (forall r :: r in s.sent ==> r.side != Kiss(Rate))
    && (forall t :: t in s.trails ==> NotLimited(t)) && (forall t :: t in s.finished ==> NotLimited(t))
  }

  lemma AllowedStaysUnbothered(cfg: Config, clock: ClockState, pc: Pc, now: int, reading: Option<NtpTimestamp>,
                               sendOk: bool)
    requires ValidConfig(cfg) && pc.Busy? && Unbothered(pc)
    ensures Unbothered(NextPc(cfg, clock, Allowed, pc, now, reading, sendOk))
  {
  }

  lemma DisabledDecides(cfg: Config, s: System, pc: Pc)
    requires !cfg.limits.enabled
    ensures Decide(cfg, s, pc) == Allowed
    ensures AtRateCheck(pc) ==> Check(cfg.limits, s.limiter, pc.next.job.source, pc.next.now).0 == s.limiter
  {
  }

  lemma AdvanceStaysIdle(cfg: Config, created: int, s: System, i: nat, now: int, reading: Option<NtpTimestamp>,
                         sendOk: bool)
    requires ValidConfig(cfg) && !cfg.limits.enabled && LimiterIdle(cfg, created, s)
    requires i < |s.loops| == |s.trails| && s.loops[i].Busy?
    ensures LimiterIdle(cfg, created, StepAdvance(cfg, s, i, now, reading, sendOk))
  {
    var pc, s' := s.loops[i], StepAdvance(cfg, s, i, now, reading, sendOk);
    assert Unbothered(pc) && NotLimited(s.trails[i]);
    DisabledDecides(cfg, s, pc);
    AllowedStaysUnbothered(cfg, s.clock, pc, now, reading, sendOk);
    AdvanceReplies(cfg, s, i, now, reading, sendOk);
    AdvanceTrails(cfg, s, i, now, reading, sendOk);
    IdleEffects(cfg, s, pc, sendOk);
    assert s'.limiter == Effects(cfg, s, pc, sendOk).limiter;
    assert NotLimited(NextTrail(s.trails[i], Allowed, pc, reading, sendOk));
  }

  lemma IdleEffects(cfg: Config, s: System, pc: Pc, sendOk: bool)
    requires !cfg.limits.enabled && pc.Busy? && Unbothered(pc)
    ensures Effects(cfg, s, pc, sendOk).limiter == s.limiter
    ensures Bumped(s.metrics, pc).rateLimited == s.metrics.rateLimited
  {
    if AtRateCheck(pc) {
      DisabledDecides(cfg, s, pc);
    } else if pc.pending != [] {
      assert pc.pending[0] in pc.pending;
    }
  }

  lemma StepStaysIdle(cfg: Config, created: int, s: System, a: Action)
    requires ValidConfig(cfg) && Enabled(s, a) && !cfg.limits.enabled && LimiterIdle(cfg, created, s)
    requires |s.loops| == |s.trails|
    ensures LimiterIdle(cfg, created, Step(cfg, s, a))
  {
    if a.Advance? {
      AdvanceStaysIdle(cfg, created, s, a.loop, a.now, a.reading, a.sendOk);
    } else {
      OthersStayIdle(cfg, created, s, a);
    }
  }

  lemma OthersStayIdle(cfg: Config, created: int, s: System, a: Action)
    requires ValidConfig(cfg) && Enabled(s, a) && LimiterIdle(cfg, created, s) && !a.Advance?
    ensures LimiterIdle(cfg, created, Step(cfg, s, a))
  {
    match a
    case Receive(i, datagram, source, t2) => WokenStaysIdle(cfg, created, s, Step(cfg, s, a), i);
    case ReceiveError(i) => WokenStaysIdle(cfg, created, s, Step(cfg, s, a), i);
    case SweepLimiter => assert Retained(map[], cfg.limits.ttl, s.sweepTime.value) == map[];
    case _ =>
  }

  lemma WokenStaysIdle(cfg: Config, created: int, s: System, s': System, i: nat)
    requires LimiterIdle(cfg, created, s) && i < |s.loops| == |s'.loops|
    requires s'.limiter == s.limiter && s'.metrics == s.metrics && s'.sent == s.sent && s'.finished == s.finished
    requires s'.loops == s.loops[i := s'.loops[i]] && Unbothered(s'.loops[i])
    requires s'.trails == s.trails || (i < |s.trails| == |s'.trails| && s'.trails == s.trails[i := s'.trails[i]]
               && NotLimited(s'.trails[i]))
    ensures LimiterIdle(cfg, created, s')
  {
  }

  lemma {:induction false} RunStaysIdle(cfg: Config, created: int, s: System, actions: seq<Action>)
    requires ValidConfig(cfg) && Runs(cfg, s, actions) && !cfg.limits.enabled && LimiterIdle(cfg, created, s)
    requires LoopsTell(cfg, s) && BooksTally(s)
    ensures LimiterIdle(cfg, created, After(cfg, s, actions))
    decreases |actions|
  {
    if actions != [] {
      StepStaysIdle(cfg, created, s, actions[0]);
      StepTells(cfg, s, actions[0]);
      RunStaysIdle(cfg, created, Step(cfg, s, actions[0]), actions[1..]);
    }
  }

  /** With rate limiting switched off, in every state of every interleaving: the limiter is as it was made
      and tracks nobody, nothing has been counted as rate limited, no RATE Kiss-o'-Death was sent, and every
      datagram that fits and is permitted was allowed. */
  lemma DisabledLimitsNothing(cfg: Config, sockets: nat, created: int, reading: Reading, actions: seq<Action>)
    requires ValidConfig(cfg) && reading.wall >= 0 && Runs(cfg, Start(cfg, sockets, created, reading), actions)
    requires !cfg.limits.enabled
    ensures var s := After(cfg, Start(cfg, sockets, created, reading), actions);
      && s.limiter == NewLimiter(cfg.limits, created) && s.limiter.clients == map[]
      && s.metrics.rateLimited == 0
      && (forall r :: r in s.sent ==> r.side != Kiss(Rate))
      && (forall t :: t in s.finished && t.origin.Datagram? && Fits(cfg, t.origin.job) && Permits(cfg, t.origin.job) ==>
            t.decision == Some(Allowed))
  {
    var s0 := Start(cfg, sockets, created, reading);
    StartTells(cfg, sockets, created, reading);
    RunTells(cfg, s0, actions);
    RunStaysIdle(cfg, created, s0, actions);
    var s := After(cfg, s0, actions);
    forall t | t in s.finished && t.origin.Datagram? && Fits(cfg, t.origin.job) && Permits(cfg, t.origin.job)
      ensures t.decision == Some(Allowed)
    {
      assert Asked(cfg, t) && NotLimited(t);
    }
  }
}
