/** Which servers let requests reach their limiter out of order, and what that costs: exactly those with
    two loops that can take turns. */
module Disorder {
  import opened Words
  import opened Addresses
  import opened TokenBuckets
  import opened BucketOrder
  import opened Timestamps
  import opened Access
  import opened RateLimiters
  import opened LimiterRuns
  import opened LimiterRates
  import opened LimiterOrder
  import opened Clocks
  import opened Servers
  import opened Handling
  import opened Service
  import opened Timing
  import opened Quotas

  // ---------------------------------------------------------------------
  // Runs, piece by piece
  // ---------------------------------------------------------------------

  /** The actions lead from s to a state with these loops, limiter events and clock. */
  predicate Reaches(cfg: Config, s: System, actions: seq<Action>, loops: seq<Pc>, events: seq<Event>, latest: int)
    requires ValidConfig(cfg)
  {
    && Runs(cfg, s, actions)
    && After(cfg, s, actions).loops == loops && After(cfg, s, actions).limiterEvents == events
    && After(cfg, s, actions).latest == latest
  }

  /** Runs one after the other. */
  lemma Joined(cfg: Config, s: System, a: seq<Action>, b: seq<Action>, loops: seq<Pc>, events: seq<Event>, latest: int)
    requires ValidConfig(cfg) && Runs(cfg, s, a) && Reaches(cfg, After(cfg, s, a), b, loops, events, latest)
    ensures Reaches(cfg, s, a + b, loops, events, latest)
  {
    Appended(cfg, s, a, b, After(cfg, After(cfg, s, a), b));
  }

  lemma SingleAction(cfg: Config, s: System, a: Action)
    requires ValidConfig(cfg) && Enabled(s, a)
    ensures Runs(cfg, s, [a]) && After(cfg, s, [a]) == Step(cfg, s, a)
  {
    assert [a][1..] == [];
  }

  /** A step of loop i, with nothing to read from the clock and nothing sent. */
  function Own(i: nat, now: int): Action {
    Advance(i, now, None, false)
  }

  lemma OwnStep(cfg: Config, s: System, i: nat, now: int)
    requires ValidConfig(cfg) && i < |s.loops| && s.loops[i].Busy? && s.latest <= now
    ensures var pc := s.loops[i];
      && Enabled(s, Own(i, now))
      && Reaches(cfg, s, [Own(i, now)],
                 s.loops[i := NextPc(cfg, s.clock, Decide(cfg, s, pc), pc, now, None, false)],
                 s.limiterEvents + (if AtRateCheck(pc) then [Request(pc.next.job.source, pc.next.now)] else []),
                 if AtSampling(pc) then now else s.latest)
  {
    SingleAction(cfg, s, Own(i, now));
    AdvanceTimes(cfg, s, Own(i, now));
    AdvanceReplies(cfg, s, i, now, None, false);
  }

  // ---------------------------------------------------------------------
  // One datagram
  // ---------------------------------------------------------------------

  predicate PastCheck(pc: Pc) {
    !pc.Returned? && (pc.Busy? ==> !pc.next.Screen? && !pc.next.SampleTime? && !pc.next.CheckRate?)
  }

  lemma StaysPastCheck(cfg: Config, clock: ClockState, decision: Decision, pc: Pc, now: int)
    requires ValidConfig(cfg) && pc.Busy? && (PastCheck(pc) || AtRateCheck(pc))
    ensures PastCheck(NextPc(cfg, clock, decision, pc, now, None, false))
  {
  }

  /** A loop that is past the rate check can be left to finish. */
  lemma {:induction false} Finish(cfg: Config, s: System, i: nat) returns (actions: seq<Action>)
    requires ValidConfig(cfg) && i < |s.loops| && PastCheck(s.loops[i])
    ensures Reaches(cfg, s, actions, s.loops[i := Waiting], s.limiterEvents, s.latest)
    decreases Rank(s.loops[i])
  {
    if s.loops[i].Waiting? {
      actions := [];
      assert s.loops[i := Waiting] == s.loops;
    } else {
      var pc, a := s.loops[i], Own(i, s.latest);
      OwnStep(cfg, s, i, s.latest);
      StaysPastCheck(cfg, s.clock, Decide(cfg, s, pc), pc, s.latest);
      RankDecreases(cfg, s.clock, Decide(cfg, s, pc), pc, s.latest, None, false);
      var s' := After(cfg, s, [a]);
      var rest := Finish(cfg, s', i);
      assert s'.loops[i := Waiting] == s.loops[i := Waiting] && s.limiterEvents + [] == s.limiterEvents;
      Joined(cfg, s, [a], rest, s.loops[i := Waiting], s.limiterEvents, s.latest);
      actions := [a] + rest;
    }
  }

  /** The check of a datagram whose loop holds a reading, and the rest of its handling. */
  lemma CheckAndFinish(cfg: Config, s: System, i: nat, c: IpAddr, t: int) returns (actions: seq<Action>)
    requires ValidConfig(cfg) && i < |s.loops| && Holds(s.loops[i], c, t)
    ensures Reaches(cfg, s, actions, s.loops[i := Waiting], s.limiterEvents + [Request(c, t)], s.latest)
  {
    var pc, a := s.loops[i], Own(i, s.latest);
    OwnStep(cfg, s, i, s.latest);
    StaysPastCheck(cfg, s.clock, Decide(cfg, s, pc), pc, s.latest);
    var s' := After(cfg, s, [a]);
    var rest := Finish(cfg, s', i);
    assert s'.loops[i := Waiting] == s.loops[i := Waiting];
    Joined(cfg, s, [a], rest, s.loops[i := Waiting], s.limiterEvents + [Request(c, t)], s.latest);
    actions := [a] + rest;
  }

  /** The loop is about to ask the limiter about c with the reading t. */
  predicate Holds(pc: Pc, c: IpAddr, t: int) {
    AtRateCheck(pc) && pc.next.job.source == c && pc.next.now == t
  }

  lemma ScreenedPc(cfg: Config, clock: ClockState, decision: Decision, job: Job, now: int)
    requires ValidConfig(cfg) && job.data == [] && Evaluate(cfg.access, job.source) == Permitted
    ensures NextPc(cfg, clock, decision, Busy([RequestsTotal], Screen(job)), now, None, false) == Busy([], Screen(job))
    ensures NextPc(cfg, clock, decision, Busy([], Screen(job)), now, None, false) == Busy([], SampleTime(job))
    ensures NextPc(cfg, clock, decision, Busy([], SampleTime(job)), now, None, false) == Busy([], CheckRate(job, now))
  {
  }

  /** Three steps take a new datagram to its reading of the clock. */
  lemma Screened(cfg: Config, s: System, i: nat, pc: Pc, job: Job, t: int) returns (actions: seq<Action>)
    requires ValidConfig(cfg) && i < |s.loops| && s.loops[i] == pc && s.latest <= t
    requires pc == Busy([RequestsTotal], Screen(job)) || pc == Busy([], Screen(job)) || pc == Busy([], SampleTime(job))
    requires job.data == [] && Evaluate(cfg.access, job.source) == Permitted
    ensures Reaches(cfg, s, actions, s.loops[i := Busy([], CheckRate(job, t))], s.limiterEvents, t)
    decreases Rank(pc)
  {
    var a, at := Own(i, t), Busy([], CheckRate(job, t));
    ScreenedPc(cfg, s.clock, Decide(cfg, s, pc), job, t);
    OwnStep(cfg, s, i, t);
    assert s.limiterEvents + [] == s.limiterEvents;
    if pc.next.SampleTime? {
      actions := [a];
    } else {
      var s' := After(cfg, s, [a]);
      var rest := Screened(cfg, s', i, s'.loops[i], job, t);
      assert s'.loops[i := at] == s.loops[i := at];
      Joined(cfg, s, [a], rest, s.loops[i := at], s.limiterEvents, t);
      actions := [a] + rest;
    }
  }

  /** A waiting loop takes an empty datagram of c and reads the clock. */
  lemma TakeDatagram(cfg: Config, s: System, i: nat, c: IpAddr, t: int) returns (actions: seq<Action>, pc: Pc)
    requires ValidConfig(cfg) && i < |s.loops| && s.loops[i].Waiting? && s.latest <= t
    requires Evaluate(cfg.access, c) == Permitted
    ensures Holds(pc, c, t) && Reaches(cfg, s, actions, s.loops[i := pc], s.limiterEvents, t)
  {
    var a := Receive(i, [], c, Some(ZERO_TIMESTAMP));
    var job := Job(s.received, [], c, ZERO_TIMESTAMP, s.clock.synchronised);
    var s1 := Step(cfg, s, a);
    SingleAction(cfg, s, a);
    assert s1.loops == s.loops[i := Busy([RequestsTotal], Screen(job))];
    var rest := Screened(cfg, s1, i, s1.loops[i], job, t);
    actions, pc := [a] + rest, Busy([], CheckRate(job, t));
    assert s1.loops[i := pc] == s.loops[i := pc];
    Joined(cfg, s, [a], rest, s.loops[i := pc], s.limiterEvents, t);
  }

  lemma Deliver(cfg: Config, s: System, i: nat, c: IpAddr, t: int) returns (actions: seq<Action>)
    requires ValidConfig(cfg) && i < |s.loops| && s.loops[i].Waiting? && s.latest <= t
    requires Evaluate(cfg.access, c) == Permitted
    ensures Reaches(cfg, s, actions, s.loops, s.limiterEvents + [Request(c, t)], t)
  {
    var first, pc := TakeDatagram(cfg, s, i, c, t);
    var rest := CheckAndFinish(cfg, After(cfg, s, first), i, c, t);
    assert s.loops[i := pc][i := Waiting] == s.loops;
    Joined(cfg, s, first, rest, s.loops, s.limiterEvents + [Request(c, t)], t);
    actions := first + rest;
  }

  lemma TakeBoth(cfg: Config, s: System, c: IpAddr, t: int, u: int) returns (actions: seq<Action>, pcs: seq<Pc>)
    requires ValidConfig(cfg) && |s.loops| >= 2 && s.loops[0].Waiting? && s.loops[1].Waiting? && s.latest <= t <= u
    requires Evaluate(cfg.access, c) == Permitted
    ensures |pcs| == 2 && Holds(pcs[0], c, t) && Holds(pcs[1], c, u)
    ensures Reaches(cfg, s, actions, s.loops[0 := pcs[0]][1 := pcs[1]], s.limiterEvents, u)
  {
    var first, pc0 := TakeDatagram(cfg, s, 0, c, t);
    var second, pc1 := TakeDatagram(cfg, After(cfg, s, first), 1, c, u);
    Joined(cfg, s, first, second, s.loops[0 := pc0][1 := pc1], s.limiterEvents, u);
    actions, pcs := first + second, [pc0, pc1];
  }

  lemma CheckSwapped(cfg: Config, s: System, c: IpAddr, t: int, u: int) returns (actions: seq<Action>)
    requires ValidConfig(cfg) && |s.loops| >= 2 && Holds(s.loops[0], c, t) && Holds(s.loops[1], c, u)
    ensures Reaches(cfg, s, actions, s.loops[1 := Waiting][0 := Waiting],
                    s.limiterEvents + [Request(c, u)] + [Request(c, t)], s.latest)
  {
    var first := CheckAndFinish(cfg, s, 1, c, u);
    var second := CheckAndFinish(cfg, After(cfg, s, first), 0, c, t);
    Joined(cfg, s, first, second, s.loops[1 := Waiting][0 := Waiting],
           s.limiterEvents + [Request(c, u)] + [Request(c, t)], s.latest);
    actions := first + second;
  }

  /** Two loops read the clock one after the other, and are checked in the opposite order. */
  lemma DeliverSwapped(cfg: Config, s: System, c: IpAddr, t: int, u: int) returns (actions: seq<Action>)
    requires ValidConfig(cfg) && |s.loops| >= 2 && s.loops[0].Waiting? && s.loops[1].Waiting? && s.latest <= t <= u
    requires Evaluate(cfg.access, c) == Permitted
    ensures Reaches(cfg, s, actions, s.loops, s.limiterEvents + [Request(c, u)] + [Request(c, t)], u)
  {
    var first, pcs := TakeBoth(cfg, s, c, t, u);
    var second := CheckSwapped(cfg, After(cfg, s, first), c, t, u);
    assert s.loops[0 := pcs[0]][1 := pcs[1]][1 := Waiting][0 := Waiting] == s.loops;
    Joined(cfg, s, first, second, s.loops, s.limiterEvents + [Request(c, u)] + [Request(c, t)], u);
    actions := first + second;
  }

  // ---------------------------------------------------------------------
  // Whole probes
  // ---------------------------------------------------------------------

  predicate AllWait(s: System) {
    forall i :: 0 <= i < |s.loops| ==> s.loops[i].Waiting?
  }

  lemma RequestsFirst(c: IpAddr, t: int, times: seq<int>)
    ensures RequestsAt(c, [t] + times) == [Request(c, t)] + RequestsAt(c, times)
  {
  }

  lemma {:induction false} DeliverBurst(cfg: Config, s: System, c: IpAddr, n: nat) returns (actions: seq<Action>)
    requires ValidConfig(cfg) && |s.loops| >= 1 && AllWait(s) && Evaluate(cfg.access, c) == Permitted
    ensures Reaches(cfg, s, actions, s.loops, s.limiterEvents + RequestsAt(c, Repeat(s.latest, n)), s.latest)
    decreases n
  {
    if n == 0 {
      actions := [];
      assert s.limiterEvents + RequestsAt(c, []) == s.limiterEvents;
    } else {
      var t := s.latest;
      var first := Deliver(cfg, s, 0, c, t);
      var rest := DeliverBurst(cfg, After(cfg, s, first), c, n - 1);
      RequestsFirst(c, t, Repeat(t, n - 1));
      assert s.limiterEvents + [Request(c, t)] + RequestsAt(c, Repeat(t, n - 1))
          == s.limiterEvents + ([Request(c, t)] + RequestsAt(c, Repeat(t, n - 1)));
      Joined(cfg, s, first, rest, s.loops, s.limiterEvents + RequestsAt(c, Repeat(t, n)), t);
      actions := first + rest;
    }
  }

  lemma TeethRequests(c: IpAddr, p: int, g: nat, n: nat, events: seq<Event>)
    requires n > 0
    ensures events + [Request(c, p + g)] + [Request(c, p + g - 1)] + RequestsAt(c, Teeth(p + g - 1, g, n - 1))
         == events + RequestsAt(c, Teeth(p, g, n))
  {
    TeethFirst(p, g, n);
    RequestsFirst(c, p + g, [p + g - 1] + Teeth(p + g - 1, g, n - 1));
    RequestsFirst(c, p + g - 1, Teeth(p + g - 1, g, n - 1));
  }

  lemma ToothThen(cfg: Config, s: System, first: seq<Action>, rest: seq<Action>, c: IpAddr, p: int, g: nat, n: nat)
    requires ValidConfig(cfg) && n > 0 && g >= 1 && s.latest <= p + 1
    requires Reaches(cfg, s, first, s.loops, s.limiterEvents + [Request(c, p + g)] + [Request(c, p + g - 1)], p + g)
    requires var s1, teeth := After(cfg, s, first), Teeth(p + g - 1, g, n - 1);
      Reaches(cfg, s1, rest, s1.loops, s1.limiterEvents + RequestsAt(c, teeth), PeakTime(s1.latest, teeth))
    ensures Reaches(cfg, s, first + rest, s.loops, s.limiterEvents + RequestsAt(c, Teeth(p, g, n)),
                    PeakTime(s.latest, Teeth(p, g, n)))
  {
    TeethRequests(c, p, g, n, s.limiterEvents);
    PeakOfTooth(s.latest, p, g, n);
    Joined(cfg, s, first, rest, s.loops, s.limiterEvents + RequestsAt(c, Teeth(p, g, n)),
           PeakTime(s.latest, Teeth(p, g, n)));
  }

  lemma {:induction false} DeliverTeeth(cfg: Config, s: System, c: IpAddr, p: int, g: nat, n: nat)
    returns (actions: seq<Action>)
    requires ValidConfig(cfg) && |s.loops| >= 2 && AllWait(s) && Evaluate(cfg.access, c) == Permitted
    requires g >= 2 && p <= s.latest <= p + 1
    ensures Reaches(cfg, s, actions, s.loops, s.limiterEvents + RequestsAt(c, Teeth(p, g, n)),
                    PeakTime(s.latest, Teeth(p, g, n)))
    decreases n
  {
    if n == 0 {
      actions := [];
      assert s.limiterEvents + RequestsAt(c, []) == s.limiterEvents;
    } else {
      var first := DeliverSwapped(cfg, s, c, p + g - 1, p + g);
      var rest := DeliverTeeth(cfg, After(cfg, s, first), c, p + g - 1, g, n - 1);
      ToothThen(cfg, s, first, rest, c, p, g, n);
      actions := first + rest;
    }
  }

  lemma PeakOfTooth(latest: int, p: int, g: nat, n: nat)
    requires n > 0 && g >= 1 && latest <= p + 1
    ensures PeakTime(latest, Teeth(p, g, n)) == PeakTime(p + g, Teeth(p + g - 1, g, n - 1))
  {
    TeethFirst(p, g, n);
  }

  lemma DeliverProbe(cfg: Config, sockets: nat, reading: Reading, c: IpAddr) returns (actions: seq<Action>)
    requires ValidConfig(cfg) && reading.wall >= 0 && sockets >= 2 && Evaluate(cfg.access, c) == Permitted
    requires 0 < cfg.limits.globalRate < NANOS_PER_SECOND
    ensures var probe := DisorderProbe(cfg.limits.globalRate, cfg.limits.globalBurst);
      var s0 := Start(cfg, sockets, 0, reading);
      Reaches(cfg, s0, actions, s0.loops, RequestsAt(c, probe), PeakTime(0, probe))
  {
    var s0, rate, burst := Start(cfg, sockets, 0, reading), cfg.limits.globalRate, cfg.limits.globalBurst;
    var g := TokenTime(rate);
    TokenTimeProduct(rate);
    var first := DeliverBurst(cfg, s0, c, burst);
    var rest := DeliverTeeth(cfg, After(cfg, s0, first), c, 0, g, rate + 1);
    actions := first + rest;
    ProbeRequests(c, rate, burst);
    ProbePeak(rate, burst);
    var probe := DisorderProbe(rate, burst);
    Joined(cfg, s0, first, rest, s0.loops, RequestsAt(c, probe), PeakTime(0, probe));
  }

  lemma ProbeRequests(c: IpAddr, rate: u32, burst: u32)
    requires rate >= 1
    ensures [] + RequestsAt(c, Repeat(0, burst)) + RequestsAt(c, Teeth(0, TokenTime(rate), rate + 1))
         == RequestsAt(c, DisorderProbe(rate, burst))
  {
  }

  lemma ProbePeak(rate: u32, burst: u32)
    requires rate >= 1
    ensures PeakTime(0, DisorderProbe(rate, burst)) == PeakTime(0, Teeth(0, TokenTime(rate), rate + 1))
  {
    TokenTimeProduct(rate);
    TeethTimes(0, 0, TokenTime(rate), rate + 1);
    RepeatThenSkewed(0, burst, Teeth(0, TokenTime(rate), rate + 1), 1);
  }

  // ---------------------------------------------------------------------
  // Who is asked about
  // ---------------------------------------------------------------------

  /** Whatever the limiter was asked about is a permitted source. */
  predicate AskedPermitted(cfg: Config, events: seq<Event>)
    requires ValidConfig(cfg)
  {
    forall e :: e in events && e.Request? ==> Evaluate(cfg.access, e.source) == Permitted
  }

  lemma StepAsksPermitted(cfg: Config, s: System, a: Action)
    requires ValidConfig(cfg) && Enabled(s, a) && AnswersRequests(cfg, s) && AskedPermitted(cfg, s.limiterEvents)
    ensures AskedPermitted(cfg, Step(cfg, s, a).limiterEvents)
  {
    if a.Advance? {
      AdvanceTimes(cfg, s, a);
      if AtRateCheck(s.loops[a.loop]) {
        assert StageHolds(cfg, s.clock.synchronised, s.loops[a.loop].next);
      }
    }
  }

  lemma {:induction false} RunAsksPermitted(cfg: Config, s: System, actions: seq<Action>)
    requires ValidConfig(cfg) && Runs(cfg, s, actions)
    requires AnswersRequests(cfg, s) && AskedPermitted(cfg, s.limiterEvents)
    ensures AskedPermitted(cfg, After(cfg, s, actions).limiterEvents)
    decreases |actions|
  {
    if actions != [] {
      StepAsksPermitted(cfg, s, actions[0]);
      StepAnswersRequests(cfg, s, actions[0]);
      RunAsksPermitted(cfg, Step(cfg, s, actions[0]), actions[1..]);
    }
  }

  ghost predicate NobodyPermitted(cfg: Config)
    requires ValidConfig(cfg)
  {
    forall c :: Evaluate(cfg.access, c) == Denied
  }

  lemma {:induction false} NoRequests(events: seq<Event>)
    requires forall e :: e in events ==> !e.Request?
    ensures RequestTimes(events) == []
    decreases |events|
  {
    if events != [] {
      assert events[0] in events;
      NoRequests(events[1..]);
    }
  }

  lemma NobodyAsked(cfg: Config, sockets: nat, created: int, reading: Reading, actions: seq<Action>)
    requires ValidConfig(cfg) && reading.wall >= 0 && Runs(cfg, Start(cfg, sockets, created, reading), actions)
    requires NobodyPermitted(cfg)
    ensures RequestTimes(After(cfg, Start(cfg, sockets, created, reading), actions).limiterEvents) == []
  {
    StartHolds(cfg, sockets, created, reading);
    RunAsksPermitted(cfg, Start(cfg, sockets, created, reading), actions);
    NoRequests(After(cfg, Start(cfg, sockets, created, reading), actions).limiterEvents);
  }

  // ---------------------------------------------------------------------
  // The exact conditions
  // ---------------------------------------------------------------------

  /** In every run the requests that the limiter sees come in the order of their times. */
  ghost predicate AlwaysInOrder(cfg: Config, sockets: nat)
    requires ValidConfig(cfg)
  {
    forall created: int, reading: Reading, actions: seq<Action> ::
      reading.wall >= 0 && Runs(cfg, Start(cfg, sockets, created, reading), actions) ==>
        Ordered(created, RequestTimes(After(cfg, Start(cfg, sockets, created, reading), actions).limiterEvents))
  }

  lemma WholeSince(s0: System, s: System)
    requires s0.limiterEvents == []
    ensures s0.limiterEvents <= s.limiterEvents && Since(s0, s) == s.limiterEvents
  {
  }

  lemma SingleLoopInOrder(cfg: Config, sockets: nat, created: int, reading: Reading, actions: seq<Action>)
    requires ValidConfig(cfg) && reading.wall >= 0 && Runs(cfg, Start(cfg, sockets, created, reading), actions)
    requires sockets <= 1
    ensures Ordered(created, RequestTimes(After(cfg, Start(cfg, sockets, created, reading), actions).limiterEvents))
  {
    var s0 := Start(cfg, sockets, created, reading);
    SingleLoopIsOrdered(cfg, sockets, created, reading, [], actions);
    WholeSince(s0, After(cfg, s0, actions));
  }

  lemma TwoLoopsOutOfOrder(cfg: Config, sockets: nat, reading: Reading, c: IpAddr) returns (actions: seq<Action>)
    requires ValidConfig(cfg) && reading.wall >= 0 && sockets >= 2 && Evaluate(cfg.access, c) == Permitted
    ensures Runs(cfg, Start(cfg, sockets, 0, reading), actions)
    ensures RequestTimes(After(cfg, Start(cfg, sockets, 0, reading), actions).limiterEvents) == [1, 0]
    ensures !Ordered(0, RequestTimes(After(cfg, Start(cfg, sockets, 0, reading), actions).limiterEvents))
  {
    var s0 := Start(cfg, sockets, 0, reading);
    actions := DeliverSwapped(cfg, s0, c, 0, 1);
    assert [] + [Request(c, 1)] + [Request(c, 0)] == RequestsAt(c, [1, 0]);
    TimesOfRequests(c, [1, 0]);
    assert !Ordered(1, [1, 0][1..]);
  }

  /** Requests reach the limiter in order in all runs if and only if there is at most one socket, or
      nobody is let through to the limiter. */
  lemma OrderExactly(cfg: Config, sockets: nat)
    requires ValidConfig(cfg)
    ensures AlwaysInOrder(cfg, sockets) <==> sockets <= 1 || NobodyPermitted(cfg)
  {
    if sockets <= 1 || NobodyPermitted(cfg) {
      forall created: int, reading: Reading, actions: seq<Action>
        | reading.wall >= 0 && Runs(cfg, Start(cfg, sockets, created, reading), actions)
        ensures Ordered(created, RequestTimes(After(cfg, Start(cfg, sockets, created, reading), actions).limiterEvents))
      {
        if sockets <= 1 {
          SingleLoopInOrder(cfg, sockets, created, reading, actions);
        } else {
          NobodyAsked(cfg, sockets, created, reading, actions);
        }
      }
    } else {
      var c :| Evaluate(cfg.access, c) != Denied;
      var actions := TwoLoopsOutOfOrder(cfg, sockets, Reading(0, 0), c);
    }
  }

  /** Up to this state, the global layer has let through no more than its burst and its rate over the time
      since the start. */
  predicate PassesInOrder(cfg: Config, created: int, s: System) {
    NANOS_PER_SECOND * PassedGlobal(cfg.limits, NewLimiter(cfg.limits, created), s.limiterEvents)
    <= NANOS_PER_SECOND * cfg.limits.globalBurst + cfg.limits.globalRate * (s.latest - created)
  }

  ghost predicate ServerOrderedBound(cfg: Config, sockets: nat)
    requires ValidConfig(cfg)
  {
    forall created: int, reading: Reading, actions: seq<Action> ::
      reading.wall >= 0 && Runs(cfg, Start(cfg, sockets, created, reading), actions) ==>
        PassesInOrder(cfg, created, After(cfg, Start(cfg, sockets, created, reading), actions))
  }

  lemma {:induction false} PeakOfIsLater(peak: int, events: seq<Event>)
    ensures peak <= PeakOf(peak, events)
    decreases |events|
  {
    if events != [] {
      PeakOfIsLater(Max(peak, events[0].now), events[1..]);
    }
  }

  lemma ClockMovesOn(cfg: Config, sockets: nat, created: int, reading: Reading, actions: seq<Action>)
    requires ValidConfig(cfg) && reading.wall >= 0 && Runs(cfg, Start(cfg, sockets, created, reading), actions)
    ensures created <= After(cfg, Start(cfg, sockets, created, reading), actions).latest
  {
    var s0 := Start(cfg, sockets, created, reading);
    DisorderIsHeldTime(cfg, sockets, created, reading, [], actions);
    PeakOfIsLater(created, Since(s0, After(cfg, s0, actions)));
  }

  lemma NothingPasses(cfg: Config, created: int, s: System)
    requires cfg.limits.enabled && cfg.limits.globalRate > 0 && created <= s.latest
    requires cfg.limits.globalBurst == 0 || RequestTimes(s.limiterEvents) == []
    ensures PassesInOrder(cfg, created, s)
  {
    GlobalLayerIsOneBucket(cfg.limits, NewLimiter(cfg.limits, created), s.limiterEvents);
    NoBurstNoTakes(FullBucket(0, created), cfg.limits.globalRate, RequestTimes(s.limiterEvents));
    MulMonotone(cfg.limits.globalRate, 0, s.latest - created);
  }

  lemma SingleLoopPasses(cfg: Config, sockets: nat, created: int, reading: Reading, actions: seq<Action>)
    requires ValidConfig(cfg) && reading.wall >= 0 && Runs(cfg, Start(cfg, sockets, created, reading), actions)
    requires cfg.limits.enabled && cfg.limits.globalRate > 0 && sockets <= 1
    ensures PassesInOrder(cfg, created, After(cfg, Start(cfg, sockets, created, reading), actions))
  {
    var s0 := Start(cfg, sockets, created, reading);
    SingleLoopKeepsGlobalRate(cfg, sockets, created, reading, [], actions);
    WholeSince(s0, After(cfg, s0, actions));
  }

  /** For every server with two loops, a run in which more requests pass than the plain bound allows. */
  lemma TwoLoopsBreakBound(cfg: Config, sockets: nat, reading: Reading, c: IpAddr) returns (actions: seq<Action>)
    requires ValidConfig(cfg) && reading.wall >= 0 && sockets >= 2 && Evaluate(cfg.access, c) == Permitted
    requires cfg.limits.enabled && 0 < cfg.limits.globalRate < NANOS_PER_SECOND && cfg.limits.globalBurst > 0
    ensures Runs(cfg, Start(cfg, sockets, 0, reading), actions)
    ensures !PassesInOrder(cfg, 0, After(cfg, Start(cfg, sockets, 0, reading), actions))
  {
    actions := DeliverProbe(cfg, sockets, reading, c);
    DisorderBreaksGlobalBound(cfg.limits, c);
  }

  /** The requests that pass the global layer of a server stay within globalBurst + globalRate * time since
      the start, in all its runs, if and only if it has at most one socket, or nobody gets that far, or
      nobody passes. */
  lemma ServerOrderExactly(cfg: Config, sockets: nat)
    requires ValidConfig(cfg) && cfg.limits.enabled && 0 < cfg.limits.globalRate < NANOS_PER_SECOND
    ensures ServerOrderedBound(cfg, sockets) <==> sockets <= 1 || NobodyPermitted(cfg) || cfg.limits.globalBurst == 0
  {
    if sockets <= 1 || NobodyPermitted(cfg) || cfg.limits.globalBurst == 0 {
      forall created: int, reading: Reading, actions: seq<Action>
        | reading.wall >= 0 && Runs(cfg, Start(cfg, sockets, created, reading), actions)
        ensures PassesInOrder(cfg, created, After(cfg, Start(cfg, sockets, created, reading), actions))
      {
        if sockets <= 1 {
          SingleLoopPasses(cfg, sockets, created, reading, actions);
        } else {
          ClockMovesOn(cfg, sockets, created, reading, actions);
          if NobodyPermitted(cfg) {
            NobodyAsked(cfg, sockets, created, reading, actions);
          }
          NothingPasses(cfg, created, After(cfg, Start(cfg, sockets, created, reading), actions));
        }
      }
    } else {
      var c :| Evaluate(cfg.access, c) != Denied;
      var actions := TwoLoopsBreakBound(cfg, sockets, Reading(0, 0), c);
    }
  }
}
