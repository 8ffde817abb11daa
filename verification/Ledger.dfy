/** What becomes of every datagram, and that the counters say exactly that: in every run, each counter
    is the number of datagrams, failed receives and failed readings of T2 that it is meant to count. */
module Ledger {
  import opened Words
  import opened Addresses
  import opened Timestamps
  import opened Responses
  import opened Access
  import opened RateLimiters
  import opened Clocks
  import opened Servers

  // ---------------------------------------------------------------------
  // What each counter is meant to count
  // ---------------------------------------------------------------------

  /** What the policy objects to, read off the bytes, in the order in which it objects. */
  function Objection(policy: Policy, data: seq<u8>): Option<Counter> {
    if |data| < 48 then Some(MalformedTotal)
    else if |data| > 48 && !policy.allowTrailing then Some(MalformedTotal)
    else if data[0] % 8 != 3 then Some(UnsupportedModeTotal)
    else if data[0] / 8 % 8 !in policy.supportedVersions then Some(UnsupportedVersionTotal)
    else if policy.requireNonzeroTransmit && (forall k :: 40 <= k < 48 ==> data[k] == 0) then Some(MalformedTotal)
    else None
  }

  predicate Fits(cfg: Config, job: Job) {
    |job.data| <= cfg.maxPacketSize
  }

  predicate Permits(cfg: Config, job: Job)
    requires ValidConfig(cfg)
  {
    Evaluate(cfg.access, job.source) == Permitted
  }

  predicate Sound(cfg: Config, job: Job) {
    Objection(cfg.policy, job.data).None?
  }

  /** Let through by size, access control and limiter. */
  predicate Admitted(cfg: Config, t: Trail, job: Job)
    requires ValidConfig(cfg)
  {
    Fits(cfg, job) && Permits(cfg, job) && t.decision == Some(Allowed)
  }

  /** Meant to be answered with the time. */
  predicate Answerable(cfg: Config, t: Trail, job: Job)
    requires ValidConfig(cfg)
  {
    Admitted(cfg, t, job) && Sound(cfg, job)
  }

  /** Meant to be answered with a Kiss-o'-Death. */
  predicate Kissable(cfg: Config, t: Trail, job: Job)
    requires ValidConfig(cfg)
  {
    && Fits(cfg, job) && Sound(cfg, job)
    && (if Permits(cfg, job) then cfg.kodOnRateLimit && t.decision == Some(LimitedPerClient(true))
        else cfg.kodOnPolicyDeny)
  }

  /** A reply was handed to the socket. */
  predicate Replied(cfg: Config, t: Trail, job: Job)
    requires ValidConfig(cfg)
  {
    Kissable(cfg, t, job) || (Answerable(cfg, t, job) && t.stamp.Some?)
  }

  /** The counter counts this datagram. */
  predicate CountsDatagram(cfg: Config, t: Trail, job: Job, c: Counter)
    requires ValidConfig(cfg)
  {
    match c
    case RequestsTotal => true
    case ResponsesTotal => Replied(cfg, t, job) && t.sendOk
    case SocketErrorsTotal => Replied(cfg, t, job) && !t.sendOk
    case DroppedTotal => !Replied(cfg, t, job)
    case KodSentTotal => Kissable(cfg, t, job) && t.sendOk
    case AccessDeniedTotal => Fits(cfg, job) && !Permits(cfg, job)
    case RateLimitedTotal => Fits(cfg, job) && Permits(cfg, job) && t.decision != Some(Allowed)
    case MalformedTotal => !Fits(cfg, job) || (Admitted(cfg, t, job) && Objection(cfg.policy, job.data) == Some(c))
    case UnsupportedVersionTotal => Admitted(cfg, t, job) && Objection(cfg.policy, job.data) == Some(c)
    case UnsupportedModeTotal => Admitted(cfg, t, job) && Objection(cfg.policy, job.data) == Some(c)
    case ClockErrorsTotal => Answerable(cfg, t, job) && t.stamp.None?
  }

  predicate Counts(cfg: Config, t: Trail, c: Counter)
    requires ValidConfig(cfg)
  {
    match t.origin
    case Nothing => false
    case FailedReceive => c.SocketErrorsTotal?
    case FailedReceiveTime => c.ClockErrorsTotal? || c.RequestsTotal? || c.DroppedTotal?
    case Datagram(job) => CountsDatagram(cfg, t, job, c)
  }

  function Get(m: Metrics, c: Counter): nat {
    match c
    case RequestsTotal => m.requests
    case ResponsesTotal => m.responses
    case DroppedTotal => m.dropped
    case MalformedTotal => m.malformed
    case UnsupportedVersionTotal => m.unsupportedVersion
    case UnsupportedModeTotal => m.unsupportedMode
    case RateLimitedTotal => m.rateLimited
    case AccessDeniedTotal => m.accessDenied
    case KodSentTotal => m.kodSent
    case SocketErrorsTotal => m.socketErrors
    case ClockErrorsTotal => m.clockErrors
  }

  // ---------------------------------------------------------------------
  // One datagram
  // ---------------------------------------------------------------------

  function Times(c: Counter, bumps: seq<Counter>): nat {
    if bumps == [] then 0 else (if bumps[0] == c then 1 else 0) + Times(c, bumps[1..])
  }

  /** These bumps are the ones that the trail calls for, each once. */
  ghost predicate Tells(cfg: Config, t: Trail, bumps: seq<Counter>)
    requires ValidConfig(cfg)
  {
    forall c: Counter :: Times(c, bumps) == if Counts(cfg, t, c) then 1 else 0
  }

  /** The limiter is asked about exactly the datagrams that fit and are permitted. */
  predicate Asked(cfg: Config, t: Trail)
    requires ValidConfig(cfg)
  {
    t.decision.Some? <==> t.origin.Datagram? && Fits(cfg, t.origin.job) && Permits(cfg, t.origin.job)
  }

  /** The reason a Kiss-o'-Death is considered for. */
  predicate Reason(cfg: Config, t: Trail, job: Job, code: KissCode, bumps: seq<Counter>)
    requires ValidConfig(cfg)
  {
    && Fits(cfg, job) && Asked(cfg, t)
    && match code
       case Deny => bumps == [RequestsTotal, AccessDeniedTotal] && !Permits(cfg, job) && cfg.kodOnPolicyDeny
       case Rate =>
         && bumps == [RequestsTotal, RateLimitedTotal] && Permits(cfg, job) && cfg.kodOnRateLimit
         && t.decision == Some(LimitedPerClient(true))
       case Restrict => false
  }

  predicate SideTells(cfg: Config, t: Trail, job: Job, side: ServerSide, bumps: seq<Counter>)
    requires ValidConfig(cfg)
  {
    match side
    case Kiss(code) => Reason(cfg, t, job, code, bumps) && Sound(cfg, job)
    case Normal(_, _, _) => Answerable(cfg, t, job) && bumps == [RequestsTotal]
  }

  /** What a loop's position tells about its trail, given the bumps made for it and pending. */
  ghost predicate StageTells(cfg: Config, t: Trail, stage: Stage, bumps: seq<Counter>)
    requires ValidConfig(cfg)
  {
    if stage.Done? then Tells(cfg, t, bumps) && Asked(cfg, t)
    else
      t.origin == Datagram(stage.job)
      && match stage
         case Screen(_) => bumps == [RequestsTotal] && t.decision.None?
         case SampleTime(job) => bumps == [RequestsTotal] && t.decision.None? && Fits(cfg, job) && Permits(cfg, job)
         case CheckRate(job, _) => bumps == [RequestsTotal] && t.decision.None? && Fits(cfg, job) && Permits(cfg, job)
         case ParseRequest(job) => bumps == [RequestsTotal] && Admitted(cfg, t, job)
         case ReadStatus(job) => bumps == [RequestsTotal] && Answerable(cfg, t, job)
         case ReadReference(job, _) => bumps == [RequestsTotal] && Answerable(cfg, t, job)
         case ParseForKiss(job, code) => Reason(cfg, t, job, code, bumps)
         case Stamp(job, side) => SideTells(cfg, t, job, side, bumps)
         case Send(job, side, _) => SideTells(cfg, t, job, side, bumps) && (side.Normal? ==> t.stamp.Some?)
  }

  ghost predicate PcTells(cfg: Config, t: Trail, pc: Pc)
    requires ValidConfig(cfg)
  {
    if pc.Busy? then StageTells(cfg, t, pc.next, t.bumped + pc.pending) else t == BLANK
  }

  /** The policy accepts exactly the datagrams to which there is no objection, and otherwise gives
      the first one. */
  lemma ObjectionsExactly(cfg: Config, job: Job)
    ensures IsRequest(cfg.policy, job.data) <==> Objection(cfg.policy, job.data).None?
    ensures AfterParse(cfg, job) ==
      match Objection(cfg.policy, job.data)
      case None => Busy([], ReadStatus(job))
      case Some(c) => Busy([c, DroppedTotal], Done)
  {
  }

  predicate NoDuplicates(bumps: seq<Counter>) {
    forall i, j :: 0 <= i < j < |bumps| ==> bumps[i] != bumps[j]
  }

  lemma {:induction false} TimesOfDistinct(c: Counter, bumps: seq<Counter>)
    requires NoDuplicates(bumps)
    ensures Times(c, bumps) == if c in bumps then 1 else 0
    decreases |bumps|
  {
    if bumps != [] {
      TimesOfDistinct(c, bumps[1..]);
      assert c in bumps <==> c == bumps[0] || c in bumps[1..];
    }
  }

  lemma DistinctTells(cfg: Config, t: Trail, bumps: seq<Counter>)
    requires ValidConfig(cfg) && NoDuplicates(bumps)
    requires forall c: Counter :: Counts(cfg, t, c) <==> c in bumps
    ensures Tells(cfg, t, bumps)
  {
    forall c: Counter ensures Times(c, bumps) == if Counts(cfg, t, c) then 1 else 0 {
      TimesOfDistinct(c, bumps);
    }
  }

  lemma ThreeTell(cfg: Config, t: Trail, bumps: seq<Counter>, x: Counter, y: Counter, z: Counter)
    requires ValidConfig(cfg) && bumps == [x, y, z] && x != y && x != z && y != z
    requires forall c: Counter :: Counts(cfg, t, c) <==> c == x || c == y || c == z
    ensures Tells(cfg, t, bumps)
  {
    assert bumps[0] == x && bumps[1] == y && bumps[2] == z;
    DistinctTells(cfg, t, bumps);
  }

  lemma ScreenTells(cfg: Config, t: Trail, job: Job)
    requires ValidConfig(cfg) && StageTells(cfg, t, Screen(job), t.bumped)
    ensures PcTells(cfg, t, AfterScreen(cfg, job))
  {
    var pc := AfterScreen(cfg, job);
    if pc.next.Done? {
      ThreeTell(cfg, t, t.bumped + pc.pending, RequestsTotal, pc.pending[0], DroppedTotal);
    }
  }

  lemma RateTells(cfg: Config, t: Trail, job: Job, now: int, decision: Decision)
    requires ValidConfig(cfg) && StageTells(cfg, t, CheckRate(job, now), t.bumped)
    ensures PcTells(cfg, t.(decision := Some(decision)), AfterRate(cfg, job, decision))
  {
    var pc, t' := AfterRate(cfg, job, decision), t.(decision := Some(decision));
    if pc.next.Done? {
      ThreeTell(cfg, t', t.bumped + pc.pending, RequestsTotal, RateLimitedTotal, DroppedTotal);
    }
  }

  lemma ParseTells(cfg: Config, t: Trail, job: Job)
    requires ValidConfig(cfg) && StageTells(cfg, t, ParseRequest(job), t.bumped)
    ensures PcTells(cfg, t, AfterParse(cfg, job))
  {
    ObjectionsExactly(cfg, job);
    var pc := AfterParse(cfg, job);
    if pc.next.Done? {
      ThreeTell(cfg, t, t.bumped + pc.pending, RequestsTotal, pc.pending[0], DroppedTotal);
    }
  }

  lemma ParseForKissTells(cfg: Config, t: Trail, job: Job, code: KissCode)
    requires ValidConfig(cfg) && StageTells(cfg, t, ParseForKiss(job, code), t.bumped)
    ensures PcTells(cfg, t, AfterParseForKiss(cfg, job, code))
  {
    ObjectionsExactly(cfg, job);
    var pc := AfterParseForKiss(cfg, job, code);
    if pc.next.Done? {
      ThreeTell(cfg, t, t.bumped + pc.pending, RequestsTotal, t.bumped[1], DroppedTotal);
    }
  }

  lemma StampTells(cfg: Config, t: Trail, job: Job, side: ServerSide, reading: Option<NtpTimestamp>)
    requires ValidConfig(cfg) && StageTells(cfg, t, Stamp(job, side), t.bumped)
    ensures PcTells(cfg, t.(stamp := reading), AfterStamp(job, side, reading))
  {
    var pc, t' := AfterStamp(job, side, reading), t.(stamp := reading);
    if pc.next.Done? {
      ThreeTell(cfg, t', t.bumped + pc.pending, RequestsTotal, ClockErrorsTotal, DroppedTotal);
    }
  }

  lemma SendTells(cfg: Config, t: Trail, job: Job, side: ServerSide, transmit: NtpTimestamp, ok: bool)
    requires ValidConfig(cfg) && StageTells(cfg, t, Send(job, side, transmit), t.bumped)
    ensures PcTells(cfg, t.(sendOk := ok), AfterSend(side, ok))
  {
    var t' := t.(sendOk := ok);
    if side.Normal? {
      var last := if ok then ResponsesTotal else SocketErrorsTotal;
      assert t.bumped + AfterSend(side, ok).pending == [RequestsTotal, last];
      DistinctTells(cfg, t', t.bumped + AfterSend(side, ok).pending);
    } else {
      KissSendTells(cfg, t, job, side.code, ok);
    }
  }

  lemma KissSendTells(cfg: Config, t: Trail, job: Job, code: KissCode, ok: bool)
    requires ValidConfig(cfg) && t.origin == Datagram(job) && SideTells(cfg, t, job, Kiss(code), t.bumped)
    ensures PcTells(cfg, t.(sendOk := ok), AfterSend(Kiss(code), ok))
  {
    var t', bumps := t.(sendOk := ok), t.bumped + AfterSend(Kiss(code), ok).pending;
    if ok {
      assert bumps == [RequestsTotal, t.bumped[1], KodSentTotal, ResponsesTotal];
      DistinctTells(cfg, t', bumps);
    } else {
      ThreeTell(cfg, t', bumps, RequestsTotal, t.bumped[1], SocketErrorsTotal);
    }
  }

  lemma NextStageTells(cfg: Config, clock: ClockState, decision: Decision, t: Trail, stage: Stage, now: int,
                       reading: Option<NtpTimestamp>, sendOk: bool)
    requires ValidConfig(cfg) && !stage.Done? && StageTells(cfg, t, stage, t.bumped)
    ensures PcTells(cfg, NextTrail(t, decision, Busy([], stage), reading, sendOk),
                    NextPc(cfg, clock, decision, Busy([], stage), now, reading, sendOk))
  {
    assert t.bumped + [] == t.bumped;
    match stage
    case Screen(job) => ScreenTells(cfg, t, job);
    case CheckRate(job, sampled) => RateTells(cfg, t, job, sampled, decision);
    case ParseRequest(job) => ParseTells(cfg, t, job);
    case ParseForKiss(job, code) => ParseForKissTells(cfg, t, job, code);
    case Stamp(job, side) => StampTells(cfg, t, job, side, reading);
    case Send(job, side, transmit) => SendTells(cfg, t, job, side, transmit, sendOk);
    case _ =>
  }

  lemma BumpTells(cfg: Config, t: Trail, pc: Pc)
    requires ValidConfig(cfg) && pc.Busy? && pc.pending != [] && PcTells(cfg, t, pc)
    ensures PcTells(cfg, t.(bumped := t.bumped + [pc.pending[0]]), Busy(pc.pending[1..], pc.next))
  {
    var t' := t.(bumped := t.bumped + [pc.pending[0]]);
    assert t'.bumped + pc.pending[1..] == t.bumped + pc.pending;
    if pc.next.Done? {
      forall c: Counter ensures Counts(cfg, t', c) == Counts(cfg, t, c) {
      }
    }
  }

  /** A step of a busy loop leaves its new position and its new trail in agreement. */
  lemma NextPcTells(cfg: Config, clock: ClockState, decision: Decision, t: Trail, pc: Pc, now: int,
                    reading: Option<NtpTimestamp>, sendOk: bool)
    requires ValidConfig(cfg) && pc.Busy? && !(pc.pending == [] && pc.next.Done?) && PcTells(cfg, t, pc)
    ensures PcTells(cfg, NextTrail(t, decision, pc, reading, sendOk),
                    NextPc(cfg, clock, decision, pc, now, reading, sendOk))
  {
    if pc.pending != [] {
      BumpTells(cfg, t, pc);
    } else {
      assert t.bumped + [] == t.bumped && pc == Busy([], pc.next);
      NextStageTells(cfg, clock, decision, t, pc.next, now, reading, sendOk);
    }
  }

  // ---------------------------------------------------------------------
  // All of them
  // ---------------------------------------------------------------------

  function Sum(trails: seq<Trail>, f: Trail -> nat): nat {
    if trails == [] then 0 else f(trails[0]) + Sum(trails[1..], f)
  }

  lemma {:induction false} SumMoves(trails: seq<Trail>, i: nat, t: Trail, f: Trail -> nat)
    requires i < |trails|
    ensures Sum(trails[i := t], f) == Sum(trails, f) - f(trails[i]) + f(t)
    decreases |trails|
  {
    if i > 0 {
      SumMoves(trails[1..], i - 1, t, f);
      assert trails[i := t][1..] == trails[1..][i - 1 := t];
    } else {
      assert trails[i := t][1..] == trails[1..];
    }
  }

  lemma {:induction false} OneMoreTrail(trails: seq<Trail>, t: Trail, f: Trail -> nat)
    ensures Sum(trails + [t], f) == Sum(trails, f) + f(t)
    decreases |trails|
  {
    var more := trails + [t];
    if trails == [] {
      assert more == [t] && more[1..] == [];
    } else {
      OneMoreTrail(trails[1..], t, f);
      assert more[1..] == trails[1..] + [t];
    }
  }

  lemma {:induction false} BlankTrails(trails: seq<Trail>, f: Trail -> nat)
    requires f(BLANK) == 0 && forall i :: 0 <= i < |trails| ==> trails[i] == BLANK
    ensures Sum(trails, f) == 0
    decreases |trails|
  {
    if trails != [] {
      BlankTrails(trails[1..], f);
    }
  }

  /** Over all trails, finished or not. */
  function Total(s: System, f: Trail -> nat): nat {
    Sum(s.finished, f) + Sum(s.trails, f)
  }

  function BumpsOf(c: Counter): Trail -> nat {
    (t: Trail) => Times(c, t.bumped)
  }

  function Errors(): Trail -> nat {
    (t: Trail) => if t.origin.FailedReceive? then 1 else 0
  }

  function Datagrams(): Trail -> nat {
    (t: Trail) => if t.origin.Datagram? || t.origin.FailedReceiveTime? then 1 else 0
  }

  ghost predicate LoopsTell(cfg: Config, s: System)
    requires ValidConfig(cfg)
  {
    && |s.trails| == |s.loops|
    && (forall i :: 0 <= i < |s.loops| ==> PcTells(cfg, s.trails[i], s.loops[i]))
    && (forall t :: t in s.finished ==> Tells(cfg, t, t.bumped) && Asked(cfg, t))
  }

  ghost predicate BooksTally(s: System) {
    && (forall c: Counter :: Get(s.metrics, c) == Total(s, BumpsOf(c)))
    && Total(s, Errors()) == s.receiveErrors && Total(s, Datagrams()) == s.received
  }

  predicate Finishes(pc: Pc) {
    pc.Busy? && pc.pending == [] && pc.next.Done?
  }

  lemma FinishesExactly(cfg: Config, clock: ClockState, decision: Decision, pc: Pc, now: int,
                        reading: Option<NtpTimestamp>, sendOk: bool)
    requires ValidConfig(cfg) && pc.Busy?
    ensures NextPc(cfg, clock, decision, pc, now, reading, sendOk).Waiting? <==> Finishes(pc)
  {
  }

  /** What the step of a loop does to the trails. */
  lemma AdvanceTrails(cfg: Config, s: System, i: nat, now: int, reading: Option<NtpTimestamp>, sendOk: bool)
    requires ValidConfig(cfg) && i < |s.loops| == |s.trails| && s.loops[i].Busy?
    ensures var s', pc := StepAdvance(cfg, s, i, now, reading, sendOk), s.loops[i];
      var t' := NextTrail(s.trails[i], Decide(cfg, s, pc), pc, reading, sendOk);
      && (if Finishes(pc) then s'.trails == s.trails[i := BLANK] && s'.finished == s.finished + [t']
          else s'.trails == s.trails[i := t'] && s'.finished == s.finished)
      && s'.metrics == Bumped(s.metrics, pc)
      && s'.receiveErrors == s.receiveErrors && s'.received == s.received
  {
    FinishesExactly(cfg, s.clock, Decide(cfg, s, s.loops[i]), s.loops[i], now, reading, sendOk);
  }

  lemma TrailMoves(s: System, s': System, i: nat, t: Trail, finishes: bool, f: Trail -> nat)
    requires i < |s.trails| && f(BLANK) == 0
    requires if finishes then s'.trails == s.trails[i := BLANK] && s'.finished == s.finished + [t]
             else s'.trails == s.trails[i := t] && s'.finished == s.finished
    ensures Total(s', f) == Total(s, f) - f(s.trails[i]) + f(t)
  {
    SumMoves(s.trails, i, if finishes then BLANK else t, f);
    OneMoreTrail(s.finished, t, f);
  }

  lemma BumpCountsOne(m: Metrics, x: Counter, c: Counter)
    ensures Get(Bump(m, x), c) == Get(m, c) + if x == c then 1 else 0
  {
  }

  function Bumped(m: Metrics, pc: Pc): Metrics
    requires pc.Busy?
  {
    if pc.pending != [] then Bump(m, pc.pending[0]) else m
  }

  lemma TrailTallies(t: Trail, decision: Decision, pc: Pc, reading: Option<NtpTimestamp>, sendOk: bool, m: Metrics,
                     c: Counter)
    requires pc.Busy?
    ensures BumpsOf(c)(NextTrail(t, decision, pc, reading, sendOk)) - BumpsOf(c)(t) == Get(Bumped(m, pc), c) - Get(m, c)
  {
    if pc.pending != [] {
      OneMoreBump(c, t.bumped, pc.pending[0]);
      BumpCountsOne(m, pc.pending[0], c);
    }
  }

  lemma TrailKeepsOrigin(t: Trail, decision: Decision, pc: Pc, reading: Option<NtpTimestamp>, sendOk: bool)
    requires pc.Busy?
    ensures NextTrail(t, decision, pc, reading, sendOk).origin == t.origin
  {
  }

  lemma {:induction false} OneMoreBump(c: Counter, bumps: seq<Counter>, x: Counter)
    ensures Times(c, bumps + [x]) == Times(c, bumps) + if x == c then 1 else 0
    decreases |bumps|
  {
    var more := bumps + [x];
    if bumps == [] {
      assert more == [x] && more[1..] == [];
    } else {
      OneMoreBump(c, bumps[1..], x);
      assert more[1..] == bumps[1..] + [x];
    }
  }

  lemma AdvanceTallies(cfg: Config, s: System, i: nat, now: int, reading: Option<NtpTimestamp>, sendOk: bool)
    requires ValidConfig(cfg) && i < |s.loops| == |s.trails| && s.loops[i].Busy? && BooksTally(s)
    ensures BooksTally(StepAdvance(cfg, s, i, now, reading, sendOk))
  {
    var s', pc, decision := StepAdvance(cfg, s, i, now, reading, sendOk), s.loops[i], Decide(cfg, s, s.loops[i]);
    var t' := NextTrail(s.trails[i], decision, pc, reading, sendOk);
    AdvanceTrails(cfg, s, i, now, reading, sendOk);
    TrailKeepsOrigin(s.trails[i], decision, pc, reading, sendOk);
    TrailMoves(s, s', i, t', Finishes(pc), Errors());
    TrailMoves(s, s', i, t', Finishes(pc), Datagrams());
    forall c: Counter ensures Get(s'.metrics, c) == Total(s', BumpsOf(c)) {
      TrailMoves(s, s', i, t', Finishes(pc), BumpsOf(c));
      TrailTallies(s.trails[i], decision, pc, reading, sendOk, s.metrics, c);
    }
  }

  lemma AdvanceTells(cfg: Config, s: System, i: nat, now: int, reading: Option<NtpTimestamp>, sendOk: bool)
    requires ValidConfig(cfg) && i < |s.loops| && s.loops[i].Busy? && LoopsTell(cfg, s)
    ensures LoopsTell(cfg, StepAdvance(cfg, s, i, now, reading, sendOk))
  {
    var pc, decision := s.loops[i], Decide(cfg, s, s.loops[i]);
    AdvanceTrails(cfg, s, i, now, reading, sendOk);
    AdvanceReplies(cfg, s, i, now, reading, sendOk);
    FinishesExactly(cfg, s.clock, decision, pc, now, reading, sendOk);
    assert PcTells(cfg, s.trails[i], pc);
    if Finishes(pc) {
      assert s.trails[i].bumped + [] == s.trails[i].bumped;
    } else {
      NextPcTells(cfg, s.clock, decision, s.trails[i], pc, now, reading, sendOk);
    }
  }

  // A loop that waits is woken.

  lemma FailedReceiveTells(cfg: Config)
    requires ValidConfig(cfg)
    ensures PcTells(cfg, BLANK.(origin := FailedReceive), Busy([SocketErrorsTotal], Done))
  {
    var t, bumps := BLANK.(origin := FailedReceive), [SocketErrorsTotal];
    assert t.bumped + bumps == bumps;
    DistinctTells(cfg, t, bumps);
  }

  lemma FailedReceiveTimeTells(cfg: Config)
    requires ValidConfig(cfg)
    ensures PcTells(cfg, BLANK.(origin := FailedReceiveTime),
                    Busy([ClockErrorsTotal, RequestsTotal, DroppedTotal], Done))
  {
    var t, bumps := BLANK.(origin := FailedReceiveTime), [ClockErrorsTotal, RequestsTotal, DroppedTotal];
    assert t.bumped + bumps == bumps;
    ThreeTell(cfg, t, bumps, ClockErrorsTotal, RequestsTotal, DroppedTotal);
  }

  lemma DatagramTells(cfg: Config, job: Job)
    requires ValidConfig(cfg)
    ensures PcTells(cfg, BLANK.(origin := Datagram(job)), Busy([RequestsTotal], Screen(job)))
  {
    assert [] + [RequestsTotal] == [RequestsTotal];
  }

  lemma WakingTallies(s: System, s': System, i: nat, origin: Origin)
    requires i < |s.trails| && s.trails[i] == BLANK && BooksTally(s)
    requires s'.trails == s.trails[i := BLANK.(origin := origin)]
    requires s'.finished == s.finished && s'.metrics == s.metrics
    requires s'.receiveErrors == s.receiveErrors + Errors()(BLANK.(origin := origin))
    requires s'.received == s.received + Datagrams()(BLANK.(origin := origin))
    ensures BooksTally(s')
  {
    var t := BLANK.(origin := origin);
    TrailMoves(s, s', i, t, false, Errors());
    TrailMoves(s, s', i, t, false, Datagrams());
    forall c: Counter ensures Get(s'.metrics, c) == Total(s', BumpsOf(c)) {
      TrailMoves(s, s', i, t, false, BumpsOf(c));
    }
  }

  lemma LoopTells(cfg: Config, s: System, s': System, i: nat)
    requires ValidConfig(cfg) && LoopsTell(cfg, s) && i < |s.loops| == |s'.loops| == |s'.trails|
    requires s'.loops == s.loops[i := s'.loops[i]]
    requires s'.trails == s.trails[i := s'.trails[i]] && s'.finished == s.finished
    requires PcTells(cfg, s'.trails[i], s'.loops[i])
    ensures LoopsTell(cfg, s')
  {
  }

  lemma ReceiveTells(cfg: Config, s: System, i: nat, datagram: seq<u8>, source: IpAddr, t2: Option<NtpTimestamp>)
    requires ValidConfig(cfg) && i < |s.loops| && s.loops[i].Waiting? && LoopsTell(cfg, s) && BooksTally(s)
    ensures var s' := StepReceive(cfg, s, i, datagram, source, t2);
      LoopsTell(cfg, s') && BooksTally(s')
  {
    var s' := StepReceive(cfg, s, i, datagram, source, t2);
    assert PcTells(cfg, s.trails[i], s.loops[i]);
    if t2.None? {
      FailedReceiveTimeTells(cfg);
    } else {
      DatagramTells(cfg, s'.trails[i].origin.job);
    }
    LoopTells(cfg, s, s', i);
    WakingTallies(s, s', i, s'.trails[i].origin);
  }

  lemma ReceiveErrorTells(cfg: Config, s: System, i: nat)
    requires ValidConfig(cfg) && i < |s.loops| && s.loops[i].Waiting? && LoopsTell(cfg, s) && BooksTally(s)
    ensures LoopsTell(cfg, StepReceiveError(s, i)) && BooksTally(StepReceiveError(s, i))
  {
    var s' := StepReceiveError(s, i);
    assert PcTells(cfg, s.trails[i], s.loops[i]);
    FailedReceiveTells(cfg);
    LoopTells(cfg, s, s', i);
    WakingTallies(s, s', i, FailedReceive);
  }

  lemma StepTells(cfg: Config, s: System, a: Action)
    requires ValidConfig(cfg) && Enabled(s, a) && LoopsTell(cfg, s) && BooksTally(s)
    ensures LoopsTell(cfg, Step(cfg, s, a)) && BooksTally(Step(cfg, s, a))
  {
    match a
    case Receive(i, datagram, source, t2) => ReceiveTells(cfg, s, i, datagram, source, t2);
    case ReceiveError(i) => ReceiveErrorTells(cfg, s, i);
    case Advance(i, now, reading, sendOk) =>
      AdvanceTells(cfg, s, i, now, reading, sendOk);
      AdvanceTallies(cfg, s, i, now, reading, sendOk);
    case _ => OthersTell(cfg, s, a);
  }

  lemma OthersTell(cfg: Config, s: System, a: Action)
    requires ValidConfig(cfg) && Enabled(s, a) && LoopsTell(cfg, s) && BooksTally(s)
    requires !a.Advance? && !a.Receive? && !a.ReceiveError?
    ensures LoopsTell(cfg, Step(cfg, s, a)) && BooksTally(Step(cfg, s, a))
  {
    var s' := Step(cfg, s, a);
    assert s'.trails == s.trails && s'.finished == s.finished && s'.metrics == s.metrics;
    forall i | 0 <= i < |s'.loops| ensures PcTells(cfg, s'.trails[i], s'.loops[i]) {
      assert PcTells(cfg, s.trails[i], s.loops[i]);
    }
    forall c: Counter ensures Get(s'.metrics, c) == Total(s', BumpsOf(c)) {
      assert Get(s.metrics, c) == Total(s, BumpsOf(c));
    }
  }

  lemma {:induction false} RunTells(cfg: Config, s: System, actions: seq<Action>)
    requires ValidConfig(cfg) && Runs(cfg, s, actions) && LoopsTell(cfg, s) && BooksTally(s)
    ensures LoopsTell(cfg, After(cfg, s, actions)) && BooksTally(After(cfg, s, actions))
    decreases |actions|
  {
    if actions != [] {
      StepTells(cfg, s, actions[0]);
      RunTells(cfg, Step(cfg, s, actions[0]), actions[1..]);
    }
  }

  /** How many of these the counter is meant to count. */
  function CountedIn(cfg: Config, trails: seq<Trail>, c: Counter): nat
    requires ValidConfig(cfg)
  {
    if trails == [] then 0 else (if Counts(cfg, trails[0], c) then 1 else 0) + CountedIn(cfg, trails[1..], c)
  }

  lemma {:induction false} ToldTrails(cfg: Config, trails: seq<Trail>, c: Counter)
    requires ValidConfig(cfg) && forall t :: t in trails ==> Tells(cfg, t, t.bumped)
    ensures Sum(trails, BumpsOf(c)) == CountedIn(cfg, trails, c)
    decreases |trails|
  {
    if trails != [] {
      assert trails[0] in trails && forall t :: t in trails[1..] ==> t in trails;
      ToldTrails(cfg, trails[1..], c);
    }
  }

  lemma StartTells(cfg: Config, sockets: nat, now: int, reading: Reading)
    requires ValidConfig(cfg) && reading.wall >= 0
    ensures LoopsTell(cfg, Start(cfg, sockets, now, reading)) && BooksTally(Start(cfg, sockets, now, reading))
  {
    var s := Start(cfg, sockets, now, reading);
    BlankTrails(s.trails, Errors());
    BlankTrails(s.trails, Datagrams());
    forall c: Counter ensures Get(s.metrics, c) == Total(s, BumpsOf(c)) {
      BlankTrails(s.trails, BumpsOf(c));
    }
  }

  predicate Idle(s: System) {
    forall i :: 0 <= i < |s.loops| ==> !s.loops[i].Busy?
  }

  /** In every run, once no loop is busy, each counter is exactly the number of datagrams whose bytes,
      source, limiter decision, T3 reading and send result call for it, of failed receives, and of
      datagrams without a T2. As many are on file as were received, and the limiter was asked about
      exactly the datagrams that fit and are permitted. */
  lemma CountersTellFates(cfg: Config, sockets: nat, now: int, reading: Reading, actions: seq<Action>, c: Counter)
    requires ValidConfig(cfg) && reading.wall >= 0 && Runs(cfg, Start(cfg, sockets, now, reading), actions)
    requires Idle(After(cfg, Start(cfg, sockets, now, reading), actions))
    ensures var s := After(cfg, Start(cfg, sockets, now, reading), actions);
      && Get(s.metrics, c) == CountedIn(cfg, s.finished, c)
      && Sum(s.finished, Datagrams()) == s.received && Sum(s.finished, Errors()) == s.receiveErrors
      && (forall t :: t in s.finished ==> Asked(cfg, t))
  {
    var s := After(cfg, Start(cfg, sockets, now, reading), actions);
    StartTells(cfg, sockets, now, reading);
    RunTells(cfg, Start(cfg, sockets, now, reading), actions);
    IdleBooksClose(cfg, s, c);
  }

  lemma IdleBooksClose(cfg: Config, s: System, c: Counter)
    requires ValidConfig(cfg) && LoopsTell(cfg, s) && BooksTally(s)
    requires Idle(s)
    ensures Get(s.metrics, c) == CountedIn(cfg, s.finished, c)
    ensures Sum(s.finished, Datagrams()) == s.received && Sum(s.finished, Errors()) == s.receiveErrors
  {
    forall i | 0 <= i < |s.trails| ensures s.trails[i] == BLANK {
      assert PcTells(cfg, s.trails[i], s.loops[i]);
    }
    BlankTrails(s.trails, BumpsOf(c));
    BlankTrails(s.trails, Errors());
    BlankTrails(s.trails, Datagrams());
    ToldTrails(cfg, s.finished, c);
  }
}
