/** The times that the server's limiter sees. They are read before the limiter's lock is taken, so they
    arrive out of order; how far is bounded by how long each was held. */
module Timing {
  import opened Words
  import opened TokenBuckets
  import opened Timestamps
  import opened RateLimiters
  import opened LimiterRuns
  import opened LimiterRates
  import opened LimiterEviction
  import opened Clocks
  import opened Servers

  /** The latest time among the events and `peak`. */
  function PeakOf(peak: int, events: seq<Event>): int
    decreases |events|
  {
    if events == [] then peak else PeakOf(Max(peak, events[0].now), events[1..])
  }

  /** The limiter has seen no time that the monotonic clock had not shown yet, and these go backwards
      only by as much as they were held. */
  predicate Covered(created: int, events: seq<Event>, latest: int, held: nat, longest: nat) {
    && PeakOf(created, events) <= latest
    && LastTime(created, EventTimes(events)) <= latest && BackwardTime(created, EventTimes(events)) <= held
    && LastTime(created, RequestTimes(events)) <= latest && BackwardTime(created, RequestTimes(events)) <= held
    && Skewed(created, events, longest)
  }

  /** Nor does a loop or housekeeping hold such a time. */
  predicate Past(pc: Pc, latest: int) {
    pc.Busy? && pc.next.CheckRate? ==> pc.next.now <= latest
  }

  predicate ReadingsArePast(s: System) {
    && (forall i :: 0 <= i < |s.loops| ==> Past(s.loops[i], s.latest))
    && (s.sweepTime.Some? ==> s.sweepTime.value <= s.latest)
  }

  /** What the limiter was asked since `base`. */
  function Since(base: System, s: System): seq<Event>
    requires base.limiterEvents <= s.limiterEvents
  {
    s.limiterEvents[|base.limiterEvents|..]
  }

  predicate CoveredSince(base: System, s: System) {
    && base.limiterEvents <= s.limiterEvents && base.held <= s.held
    && Covered(base.latest, Since(base, s), s.latest, s.held - base.held, s.longestHeld)
  }

  // ---------------------------------------------------------------------
  // One more event
  // ---------------------------------------------------------------------

  lemma {:induction false} OneMoreTime(start: int, times: seq<int>, t: int)
    ensures LastTime(start, times + [t]) == t
    ensures BackwardTime(start, times + [t]) == BackwardTime(start, times) + Elapsed(t, LastTime(start, times))
    decreases |times|
  {
    var more := times + [t];
    if times == [] {
      assert more == [t] && more[1..] == [];
    } else {
      OneMoreTime(times[0], times[1..], t);
      assert more[1..] == times[1..] + [t];
    }
  }

  lemma {:induction false} TimesOfOneMore(events: seq<Event>, e: Event)
    ensures EventTimes(events + [e]) == EventTimes(events) + [e.now]
    ensures RequestTimes(events + [e]) == RequestTimes(events) + (if e.Request? then [e.now] else [])
    decreases |events|
  {
    var more := events + [e];
    if events == [] {
      assert more == [e] && more[1..] == [];
    } else {
      TimesOfOneMore(events[1..], e);
      ConsTimes(events[0], events[1..]);
      ConsTimes(events[0], events[1..] + [e]);
      assert events == [events[0]] + events[1..] && more == [events[0]] + (events[1..] + [e]);
    }
  }

  lemma {:induction false} OneMoreSkewed(peak: int, events: seq<Event>, e: Event, skew: nat, wider: nat)
    requires Skewed(peak, events, skew) && skew <= wider && PeakOf(peak, events) - wider <= e.now
    ensures Skewed(peak, events + [e], wider)
    ensures PeakOf(peak, events + [e]) == Max(PeakOf(peak, events), e.now)
    decreases |events|
  {
    var more := events + [e];
    if events == [] {
      assert more == [e] && more[1..] == [];
    } else {
      OneMoreSkewed(Max(peak, events[0].now), events[1..], e, skew, wider);
      assert more[1..] == events[1..] + [e];
    }
  }

  /** The limiter acts on a time that was read in the past. */
  lemma ActingIsCovered(created: int, events: seq<Event>, latest: int, held: nat, longest: nat, e: Event)
    requires Covered(created, events, latest, held, longest) && e.now <= latest
    ensures Covered(created, events + [e], latest, held + Elapsed(e.now, latest), Max(longest, Elapsed(e.now, latest)))
  {
    TimesOfOneMore(events, e);
    OneMoreTime(created, EventTimes(events), e.now);
    OneMoreSkewed(created, events, e, longest, Max(longest, Elapsed(e.now, latest)));
    if e.Request? {
      OneMoreTime(created, RequestTimes(events), e.now);
    } else {
      assert RequestTimes(events) + [] == RequestTimes(events);
    }
  }

  lemma StaysCovered(created: int, events: seq<Event>, latest: int, later: int, held: nat, longest: nat)
    requires Covered(created, events, latest, held, longest) && latest <= later
    ensures Covered(created, events, later, held, longest)
  {
  }

  // ---------------------------------------------------------------------
  // Every state of every interleaving
  // ---------------------------------------------------------------------

  /** What a step of a loop does to the times. */
  lemma AdvanceTimes(cfg: Config, s: System, a: Action)
    requires ValidConfig(cfg) && a.Advance? && Enabled(s, a)
    ensures var s', pc := Step(cfg, s, a), s.loops[a.loop];
      && s'.sweepTime == s.sweepTime && s'.latest == (if AtSampling(pc) then a.now else s.latest)
      && (if AtRateCheck(pc) then
            var e := Request(pc.next.job.source, pc.next.now);
            && s'.limiterEvents == s.limiterEvents + [e] && s'.held == s.held + Elapsed(e.now, s.latest)
            && s'.longestHeld == Max(s.longestHeld, Elapsed(e.now, s.latest))
          else s'.limiterEvents == s.limiterEvents && s'.held == s.held && s'.longestHeld == s.longestHeld)
  {
  }

  /** A loop comes to hold a reading only by taking it. */
  lemma NextPcReading(cfg: Config, clock: ClockState, decision: Decision, pc: Pc, now: int,
                      reading: Option<NtpTimestamp>, sendOk: bool)
    requires ValidConfig(cfg) && pc.Busy?
    ensures var pc' := NextPc(cfg, clock, decision, pc, now, reading, sendOk);
      pc'.Busy? && pc'.next.CheckRate? ==>
        if AtSampling(pc) then pc'.next.now == now else pc.pending != [] && pc'.next == pc.next
  {
  }

  lemma AdvancePc(cfg: Config, s: System, a: Action)
    requires ValidConfig(cfg) && a.Advance? && Enabled(s, a) && Past(s.loops[a.loop], s.latest)
    ensures var s', pc := Step(cfg, s, a), s.loops[a.loop];
      && s'.loops == s.loops[a.loop := s'.loops[a.loop]] && Past(s'.loops[a.loop], s'.latest)
      && s.latest <= s'.latest
      && (s'.loops[a.loop].Busy? && s'.loops[a.loop].next.CheckRate? ==>
            if AtSampling(pc) then s'.loops[a.loop].next.now == s'.latest else s'.loops[a.loop].next == pc.next)
  {
    var pc := s.loops[a.loop];
    AdvanceTimes(cfg, s, a);
    AdvanceReplies(cfg, s, a.loop, a.now, a.reading, a.sendOk);
    NextPcReading(cfg, s.clock, Decide(cfg, s, pc), pc, a.now, a.reading, a.sendOk);
  }

  lemma ActingSince(base: System, s: System, s': System, e: Event)
    requires CoveredSince(base, s) && e.now <= s.latest == s'.latest
    requires s'.limiterEvents == s.limiterEvents + [e] && s'.held == s.held + Elapsed(e.now, s.latest)
    requires s'.longestHeld == Max(s.longestHeld, Elapsed(e.now, s.latest))
    ensures CoveredSince(base, s') && Since(base, s') == Since(base, s) + [e]
  {
    ActingIsCovered(base.latest, Since(base, s), s.latest, s.held - base.held, s.longestHeld, e);
    assert Since(base, s') == Since(base, s) + [e];
  }

  lemma WaitingSince(base: System, s: System, s': System)
    requires CoveredSince(base, s) && s.latest <= s'.latest
    requires s'.limiterEvents == s.limiterEvents && s'.held == s.held && s'.longestHeld == s.longestHeld
    ensures CoveredSince(base, s') && Since(base, s') == Since(base, s)
  {
    StaysCovered(base.latest, Since(base, s), s.latest, s'.latest, s.held - base.held, s.longestHeld);
  }

  lemma AdvanceIsCovered(cfg: Config, base: System, s: System, a: Action)
    requires ValidConfig(cfg) && a.Advance? && Enabled(s, a) && CoveredSince(base, s) && ReadingsArePast(s)
    ensures CoveredSince(base, Step(cfg, s, a)) && ReadingsArePast(Step(cfg, s, a))
  {
    var pc, s' := s.loops[a.loop], Step(cfg, s, a);
    assert Past(pc, s.latest);
    AdvanceTimes(cfg, s, a);
    AdvancePc(cfg, s, a);
    if AtRateCheck(pc) {
      ActingSince(base, s, s', Request(pc.next.job.source, pc.next.now));
    } else {
      WaitingSince(base, s, s');
    }
  }

  /** What the other actions do to them. */
  lemma OtherTimes(cfg: Config, s: System, a: Action)
    requires ValidConfig(cfg) && !a.Advance? && !a.SweepLimiter? && Enabled(s, a) && ReadingsArePast(s)
    ensures var s' := Step(cfg, s, a);
      && ReadingsArePast(s') && s.latest <= s'.latest
      && s'.limiterEvents == s.limiterEvents && s'.held == s.held && s'.longestHeld == s.longestHeld
  {
  }

  lemma StepIsCovered(cfg: Config, base: System, s: System, a: Action)
    requires ValidConfig(cfg) && Enabled(s, a) && CoveredSince(base, s) && ReadingsArePast(s)
    ensures CoveredSince(base, Step(cfg, s, a)) && ReadingsArePast(Step(cfg, s, a))
  {
    if a.Advance? {
      AdvanceIsCovered(cfg, base, s, a);
    } else if a.SweepLimiter? {
      ActingSince(base, s, Step(cfg, s, a), Housekeeping(s.sweepTime.value));
    } else {
      OtherTimes(cfg, s, a);
      WaitingSince(base, s, Step(cfg, s, a));
    }
  }

  lemma {:induction false} RunIsCovered(cfg: Config, base: System, s: System, actions: seq<Action>)
    requires ValidConfig(cfg) && Runs(cfg, s, actions) && CoveredSince(base, s) && ReadingsArePast(s)
    ensures CoveredSince(base, After(cfg, s, actions)) && ReadingsArePast(After(cfg, s, actions))
    decreases |actions|
  {
    if actions != [] {
      StepIsCovered(cfg, base, s, actions[0]);
      RunIsCovered(cfg, base, Step(cfg, s, actions[0]), actions[1..]);
    }
  }

  lemma NothingSince(s: System)
    ensures CoveredSince(s, s) && Since(s, s) == []
  {
  }

  /** Between any two states of every interleaving, the times that the limiter sees go back, in sum, by no
      more than the sum of how long readings were held, and never lie further behind the latest one than
      the longest of these. */
  lemma DisorderIsHeldTime(cfg: Config, sockets: nat, created: int, reading: Reading,
                           before: seq<Action>, later: seq<Action>)
    requires ValidConfig(cfg) && reading.wall >= 0 && Runs(cfg, Start(cfg, sockets, created, reading), before)
    requires Runs(cfg, After(cfg, Start(cfg, sockets, created, reading), before), later)
    ensures var mid := After(cfg, Start(cfg, sockets, created, reading), before);
      CoveredSince(mid, After(cfg, mid, later))
  {
    var s0 := Start(cfg, sockets, created, reading);
    NothingSince(s0);
    RunIsCovered(cfg, s0, s0, before);
    NothingSince(After(cfg, s0, before));
    RunIsCovered(cfg, After(cfg, s0, before), After(cfg, s0, before), later);
  }

  // ---------------------------------------------------------------------
  // A single loop
  // ---------------------------------------------------------------------

  /** The earliest time that the next request can carry: the reading that the loop holds, or else one
      still to be taken. */
  function Floor(s: System): int {
    if |s.loops| == 1 && s.loops[0].Busy? && s.loops[0].next.CheckRate? then s.loops[0].next.now else s.latest
  }

  /** The requests since `base` come in order. */
  predicate SoleOrdered(base: System, s: System) {
    && |s.loops| <= 1 && base.limiterEvents <= s.limiterEvents
    && Ordered(Floor(base), RequestTimes(Since(base, s)))
    && LastTime(Floor(base), RequestTimes(Since(base, s))) <= Floor(s)
  }

  lemma {:induction false} OneMoreOrdered(start: int, times: seq<int>, t: int)
    requires Ordered(start, times) && LastTime(start, times) <= t
    ensures Ordered(start, times + [t]) && LastTime(start, times + [t]) == t
    decreases |times|
  {
    var more := times + [t];
    if times == [] {
      assert more == [t] && more[1..] == [];
    } else {
      OneMoreOrdered(times[0], times[1..], t);
      assert more[1..] == times[1..] + [t];
    }
  }

  lemma SoleAdvance(cfg: Config, base: System, s: System, a: Action)
    requires ValidConfig(cfg) && a.Advance? && Enabled(s, a) && ReadingsArePast(s)
    requires CoveredSince(base, s) && SoleOrdered(base, s)
    ensures SoleOrdered(base, Step(cfg, s, a))
  {
    var pc, s' := s.loops[a.loop], Step(cfg, s, a);
    assert a.loop == 0 && Past(pc, s.latest);
    AdvanceTimes(cfg, s, a);
    AdvancePc(cfg, s, a);
    SoleFloor(cfg, s, a);
    if AtRateCheck(pc) {
      var e := Request(pc.next.job.source, pc.next.now);
      ActingSince(base, s, s', e);
      TimesOfOneMore(Since(base, s), e);
      OneMoreOrdered(Floor(base), RequestTimes(Since(base, s)), e.now);
    } else {
      WaitingSince(base, s, s');
    }
  }

  lemma SoleFloor(cfg: Config, s: System, a: Action)
    requires ValidConfig(cfg) && a.Advance? && Enabled(s, a) && ReadingsArePast(s) && |s.loops| == 1
    ensures var s' := Step(cfg, s, a);
      |s'.loops| == 1 && Floor(s) <= Floor(s') && (AtRateCheck(s.loops[0]) ==> Floor(s) == s.loops[0].next.now)
  {
    assert Past(s.loops[0], s.latest);
    AdvancePc(cfg, s, a);
  }

  lemma SoleOthers(cfg: Config, s: System, a: Action)
    requires ValidConfig(cfg) && !a.Advance? && Enabled(s, a) && ReadingsArePast(s) && |s.loops| <= 1
    ensures var s' := Step(cfg, s, a);
      |s'.loops| == |s.loops| && Floor(s) <= Floor(s')
  {
  }

  lemma SoleStep(cfg: Config, base: System, s: System, a: Action)
    requires ValidConfig(cfg) && Enabled(s, a) && ReadingsArePast(s)
    requires CoveredSince(base, s) && SoleOrdered(base, s)
    ensures SoleOrdered(base, Step(cfg, s, a))
  {
    var s' := Step(cfg, s, a);
    if a.Advance? {
      SoleAdvance(cfg, base, s, a);
    } else {
      SoleOthers(cfg, s, a);
      if a.SweepLimiter? {
        var e := Housekeeping(s.sweepTime.value);
        ActingSince(base, s, s', e);
        TimesOfOneMore(Since(base, s), e);
        assert RequestTimes(Since(base, s)) + [] == RequestTimes(Since(base, s));
      } else {
        OtherTimes(cfg, s, a);
        WaitingSince(base, s, s');
      }
    }
  }

  lemma {:induction false} SoleRun(cfg: Config, base: System, s: System, actions: seq<Action>)
    requires ValidConfig(cfg) && Runs(cfg, s, actions) && ReadingsArePast(s)
    requires CoveredSince(base, s) && SoleOrdered(base, s)
    ensures SoleOrdered(base, After(cfg, s, actions))
    ensures Floor(After(cfg, s, actions)) <= After(cfg, s, actions).latest
    decreases |actions|
  {
    if actions != [] {
      SoleStep(cfg, base, s, actions[0]);
      StepIsCovered(cfg, base, s, actions[0]);
      SoleRun(cfg, base, Step(cfg, s, actions[0]), actions[1..]);
    } else if |s.loops| == 1 {
      assert Past(s.loops[0], s.latest);
    }
  }

  /** With at most one socket the requests that the limiter sees come in order, between any two states of
      every run. */
  lemma SingleLoopIsOrdered(cfg: Config, sockets: nat, created: int, reading: Reading,
                            before: seq<Action>, later: seq<Action>)
    requires ValidConfig(cfg) && reading.wall >= 0 && Runs(cfg, Start(cfg, sockets, created, reading), before)
    requires Runs(cfg, After(cfg, Start(cfg, sockets, created, reading), before), later)
    requires sockets <= 1
    ensures var mid := After(cfg, Start(cfg, sockets, created, reading), before);
      var end := After(cfg, mid, later);
      && SoleOrdered(mid, end) && Floor(mid) <= mid.latest && Floor(end) <= end.latest
  {
    var s0 := Start(cfg, sockets, created, reading);
    NothingSince(s0);
    RunIsCovered(cfg, s0, s0, before);
    SoleRun(cfg, s0, s0, before);
    var mid := After(cfg, s0, before);
    NothingSince(mid);
    SoleRun(cfg, mid, mid, later);
  }
}
