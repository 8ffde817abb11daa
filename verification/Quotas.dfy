/** What the whole server gives out, against what its limiter and its clients put in. */
module Quotas {
  import opened Words
  import opened Addresses
  import opened TokenBuckets
  import opened Timestamps
  import opened Packets
  import opened Responses
  import opened RateLimiters
  import opened LimiterRuns
  import opened LimiterRates
  import opened Clocks
  import opened Servers
  import opened Service
  import opened Timing

  /** Overall: replies that passed the limiter, against passes of its global layer.
      PerClient: normal replies to one address, against that address's Allowed verdicts.
      RateKisses: RATE Kiss-o'-Deaths to one address, against its verdicts that suggest one.
      Bandwidth: bytes sent, against bytes received. */
  datatype Quota = Overall | PerClient(client: IpAddr) | RateKisses(client: IpAddr) | Bandwidth

  /** A reply draws on the quota. Only the DENY Kiss-o'-Death bypasses the limiter. */
  function Used(q: Quota, job: Job, side: ServerSide): nat {
    match q
    case Overall => if side == Kiss(Deny) then 0 else 1
    case PerClient(c) => if side.Normal? && job.source == c then 1 else 0
    case RateKisses(c) => if side == Kiss(Rate) && job.source == c then 1 else 0
    case Bandwidth => PACKET_SIZE
  }

  function UsedBy(q: Quota, sent: seq<Reply>): nat {
    if sent == [] then 0
    else UsedBy(q, sent[..|sent| - 1]) + Used(q, sent[|sent| - 1].job, sent[|sent| - 1].side)
  }

  /** A datagram that the limiter has let through may still draw this much. */
  function Reserved(q: Quota, job: Job): nat {
    match q
    case Overall => 1
    case PerClient(c) => if job.source == c then 1 else 0
    case RateKisses(_) => 0
    case Bandwidth => |job.data|
  }

  /** What a loop holds for the reply it may still send. */
  function HeldInStage(q: Quota, stage: Stage): nat {
    if stage.Done? then 0
    else if q.Bandwidth? then |stage.job.data|
    else
      match stage
      case ParseRequest(job) => Reserved(q, job)
      case ReadStatus(job) => Reserved(q, job)
      case ReadReference(job, _) => Reserved(q, job)
      case ParseForKiss(job, code) => Used(q, job, Kiss(code))
      case Stamp(job, side) => Used(q, job, side)
      case Send(job, side, _) => Used(q, job, side)
      case _ => 0
  }

  function Held(q: Quota, pc: Pc): nat {
    if pc.Busy? then HeldInStage(q, pc.next) else 0
  }

  function HeldByLoops(q: Quota, loops: seq<Pc>): nat {
    if loops == [] then 0 else Held(q, loops[0]) + HeldByLoops(q, loops[1..])
  }

  /** The verdicts that the server's limiter has given to `c`. */
  function ServerLog(cfg: Config, created: int, s: System, c: IpAddr): seq<Verdict> {
    Log(cfg.limits, NewLimiter(cfg.limits, created), s.limiterEvents, c)
  }

  function Granted(q: Quota, cfg: Config, created: int, s: System): nat {
    match q
    case Overall => PassedGlobal(cfg.limits, NewLimiter(cfg.limits, created), s.limiterEvents)
    case PerClient(c) => AllowedIn(ServerLog(cfg, created, s, c))
    case RateKisses(c) => FlaggedIn(ServerLog(cfg, created, s, c))
    case Bandwidth => s.bytesReceived
  }

  /** The limiter is in the state to which the recorded events have brought it. */
  predicate LimiterIsRecorded(cfg: Config, created: int, s: System) {
    s.limiter == Final(cfg.limits, NewLimiter(cfg.limits, created), s.limiterEvents)
  }

  /** What is used or held in excess of what was granted. */
  function Excess(q: Quota, cfg: Config, created: int, s: System): int {
    UsedBy(q, s.sent) + HeldByLoops(q, s.loops) - Granted(q, cfg, created, s)
  }

  /** From s to s', nothing is used that is not granted. */
  predicate KeepsQuota(q: Quota, cfg: Config, created: int, s: System, s': System) {
    LimiterIsRecorded(cfg, created, s') && Excess(q, cfg, created, s') <= Excess(q, cfg, created, s)
  }

  function ClientOf(q: Quota): IpAddr {
    if q.PerClient? || q.RateKisses? then q.client else V4(0)
  }

  // ---------------------------------------------------------------------
  // Sums
  // ---------------------------------------------------------------------

  lemma {:induction false} HeldMoves(q: Quota, loops: seq<Pc>, i: nat, pc: Pc)
    requires i < |loops|
    ensures HeldByLoops(q, loops[i := pc]) == HeldByLoops(q, loops) - Held(q, loops[i]) + Held(q, pc)
    decreases |loops|
  {
    if i > 0 {
      HeldMoves(q, loops[1..], i - 1, pc);
      assert loops[i := pc][1..] == loops[1..][i - 1 := pc];
    } else {
      assert loops[i := pc][1..] == loops[1..];
    }
  }

  lemma OneMoreReply(q: Quota, sent: seq<Reply>, r: Reply)
    ensures UsedBy(q, sent + [r]) == UsedBy(q, sent) + Used(q, r.job, r.side)
  {
  }

  /** A run split in two. */
  lemma {:induction false} EventsSplit(s: Settings, l: Limiter, a: seq<Event>, b: seq<Event>, c: IpAddr)
    ensures var l' := Final(s, l, a);
      && Final(s, l, a + b) == Final(s, l', b)
      && PassedGlobal(s, l, a + b) == PassedGlobal(s, l, a) + PassedGlobal(s, l', b)
      && Log(s, l, a + b, c) == Log(s, l, a, c) + Log(s, l', b, c)
    decreases |a|
  {
    if a == [] {
      assert a + b == b;
    } else {
      assert (a + b)[1..] == a[1..] + b;
      EventsSplit(s, Next(s, l, a[0]), a[1..], b, c);
    }
  }

  lemma {:induction false} CountsSplit(a: seq<Verdict>, b: seq<Verdict>)
    ensures AllowedIn(a + b) == AllowedIn(a) + AllowedIn(b)
    ensures FlaggedIn(a + b) == FlaggedIn(a) + FlaggedIn(b)
    decreases |a|
  {
    if a == [] {
      assert a + b == b;
    } else {
      assert (a + b)[1..] == a[1..] + b;
      CountsSplit(a[1..], b);
    }
  }

  lemma OneMoreEvent(s: Settings, l: Limiter, events: seq<Event>, e: Event, c: IpAddr)
    ensures var l' := Final(s, l, events);
      && Final(s, l, events + [e]) == Next(s, l', e)
      && PassedGlobal(s, l, events + [e]) == PassedGlobal(s, l, events) +
           (if e.Request? && !Check(s, l', e.source, e.now).1.LimitedGlobal? then 1 else 0)
      && AllowedIn(Log(s, l, events + [e], c)) == AllowedIn(Log(s, l, events, c)) +
           (if e == Request(c, e.now) && Check(s, l', c, e.now).1.Allowed? then 1 else 0)
      && FlaggedIn(Log(s, l, events + [e], c)) == FlaggedIn(Log(s, l, events, c)) +
           (if e == Request(c, e.now) && Check(s, l', c, e.now).1 == LimitedPerClient(true) then 1 else 0)
  {
    var l' := Final(s, l, events);
    EventsSplit(s, l, events, [e], c);
    CountsSplit(Log(s, l, events, c), Log(s, l', [e], c));
    OneEvent(s, l', e, c);
  }

  lemma OneEvent(s: Settings, l: Limiter, e: Event, c: IpAddr)
    ensures Final(s, l, [e]) == Next(s, l, e)
    ensures PassedGlobal(s, l, [e]) == if e.Request? && !Check(s, l, e.source, e.now).1.LimitedGlobal? then 1 else 0
    ensures AllowedIn(Log(s, l, [e], c)) == if e == Request(c, e.now) && Check(s, l, c, e.now).1.Allowed? then 1 else 0
    ensures FlaggedIn(Log(s, l, [e], c)) ==
      if e == Request(c, e.now) && Check(s, l, c, e.now).1 == LimitedPerClient(true) then 1 else 0
  {
  }

  // ---------------------------------------------------------------------
  // Steps
  // ---------------------------------------------------------------------

  /** What the limiter's decision grants to a loop at the rate check. */
  function GrantedBy(q: Quota, pc: Pc, decision: Decision): nat {
    if !AtRateCheck(pc) then 0
    else
      match q
      case Overall => if decision.LimitedGlobal? then 0 else 1
      case PerClient(c) => if decision.Allowed? && pc.next.job.source == c then 1 else 0
      case RateKisses(c) => if decision == LimitedPerClient(true) && pc.next.job.source == c then 1 else 0
      case Bandwidth => 0
  }

  function Drawn(q: Quota, pc: Pc, sendOk: bool): nat {
    if pc.Busy? && pc.pending == [] && pc.next.Send? && sendOk then Used(q, pc.next.job, pc.next.side) else 0
  }

  lemma ParsingHoldsNoMore(q: Quota, cfg: Config, job: Job, code: KissCode)
    ensures Held(q, AfterParse(cfg, job)) <= HeldInStage(q, ParseRequest(job))
    ensures Held(q, AfterParseForKiss(cfg, job, code)) <= HeldInStage(q, ParseForKiss(job, code))
  {
  }

  lemma ScreeningHoldsNoMore(q: Quota, cfg: Config, job: Job, decision: Decision, now: int)
    requires ValidConfig(cfg)
    ensures Held(q, AfterScreen(cfg, job)) <= HeldInStage(q, Screen(job))
    ensures Held(q, AfterRate(cfg, job, decision)) <= HeldInStage(q, CheckRate(job, now))
         + GrantedBy(q, Busy([], CheckRate(job, now)), decision)
  {
  }

  lemma SendingHoldsNoMore(q: Quota, cfg: Config, job: Job, side: ServerSide, transmit: NtpTimestamp,
                           reading: Option<NtpTimestamp>, ok: bool)
    requires IsRequest(cfg.policy, job.data)
    ensures Held(q, AfterStamp(job, side, reading)) <= HeldInStage(q, Stamp(job, side))
    ensures Held(q, AfterSend(side, ok)) + Used(q, job, side) <= HeldInStage(q, Send(job, side, transmit))
  {
  }

  /** No stage holds more than the one before it, except for what the limiter grants. */
  lemma NextPcHolds(q: Quota, cfg: Config, clock: ClockState, decision: Decision, pc: Pc, now: int,
                    reading: Option<NtpTimestamp>, sendOk: bool)
    requires ValidConfig(cfg) && pc.Busy? && StageHolds(cfg, clock.synchronised, pc.next)
    ensures Held(q, NextPc(cfg, clock, decision, pc, now, reading, sendOk)) + Drawn(q, pc, sendOk)
         <= Held(q, pc) + GrantedBy(q, pc, decision)
  {
    if pc.pending == [] {
      StageHoldsNoMore(q, cfg, clock, decision, pc, now, reading, sendOk);
    }
  }

  lemma StageHoldsNoMore(q: Quota, cfg: Config, clock: ClockState, decision: Decision, pc: Pc, now: int,
                         reading: Option<NtpTimestamp>, sendOk: bool)
    requires ValidConfig(cfg) && pc.Busy? && pc.pending == [] && StageHolds(cfg, clock.synchronised, pc.next)
    ensures Held(q, NextPc(cfg, clock, decision, pc, now, reading, sendOk)) + Drawn(q, pc, sendOk)
         <= Held(q, pc) + GrantedBy(q, pc, decision)
  {
    match pc.next
    case Screen(job) => ScreeningHoldsNoMore(q, cfg, job, decision, now);
    case CheckRate(job, sampled) => ScreeningHoldsNoMore(q, cfg, job, decision, sampled);
    case ParseRequest(job) => ParsingHoldsNoMore(q, cfg, job, Rate);
    case ParseForKiss(job, code) => ParsingHoldsNoMore(q, cfg, job, code);
    case Stamp(job, side) => SendingHoldsNoMore(q, cfg, job, side, ZERO_TIMESTAMP, reading, sendOk);
    case Send(job, side, transmit) => SendingHoldsNoMore(q, cfg, job, side, transmit, reading, sendOk);
    case _ =>
  }

  /** The step's effects draw on the quota, and add to it, as far as the loop's position says. */
  predicate EffectsMatch(q: Quota, cfg: Config, created: int, s: System, s': System, pc: Pc, decision: Decision,
                         sendOk: bool) {
    && LimiterIsRecorded(cfg, created, s') && s'.loops == s.loops
    && UsedBy(q, s'.sent) == UsedBy(q, s.sent) + Drawn(q, pc, sendOk)
    && Granted(q, cfg, created, s') == Granted(q, cfg, created, s) + GrantedBy(q, pc, decision)
  }

  lemma RateCheckGrants(q: Quota, cfg: Config, created: int, s: System, pc: Pc, sendOk: bool)
    requires AtRateCheck(pc) && LimiterIsRecorded(cfg, created, s)
    ensures EffectsMatch(q, cfg, created, s, Effects(cfg, s, pc, sendOk), pc, Decide(cfg, s, pc), sendOk)
  {
    var c := ClientOf(q);
    var e := Request(pc.next.job.source, pc.next.now);
    OneMoreEvent(cfg.limits, NewLimiter(cfg.limits, created), s.limiterEvents, e, c);
  }

  lemma EffectsElsewhere(cfg: Config, s: System, pc: Pc, sendOk: bool)
    requires pc.Busy? && !AtRateCheck(pc)
    ensures var s' := Effects(cfg, s, pc, sendOk);
      && s'.limiter == s.limiter && s'.limiterEvents == s.limiterEvents && s'.bytesReceived == s.bytesReceived
      && s'.loops == s.loops
      && s'.sent == if pc.pending == [] && pc.next.Send? && sendOk
                    then s.sent + [Reply(pc.next.job, pc.next.side, pc.next.transmit)] else s.sent
  {
  }

  lemma UnchangedGrants(q: Quota, cfg: Config, created: int, s: System, s': System)
    requires s'.limiterEvents == s.limiterEvents && s'.bytesReceived == s.bytesReceived
    ensures Granted(q, cfg, created, s') == Granted(q, cfg, created, s)
  {
  }

  lemma OthersGrantNothing(q: Quota, cfg: Config, created: int, s: System, pc: Pc, decision: Decision, sendOk: bool)
    requires pc.Busy? && !AtRateCheck(pc)
    requires LimiterIsRecorded(cfg, created, s)
    ensures EffectsMatch(q, cfg, created, s, Effects(cfg, s, pc, sendOk), pc, decision, sendOk)
  {
    EffectsElsewhere(cfg, s, pc, sendOk);
    UnchangedGrants(q, cfg, created, s, Effects(cfg, s, pc, sendOk));
    if pc.pending == [] && pc.next.Send? && sendOk {
      OneMoreReply(q, s.sent, Reply(pc.next.job, pc.next.side, pc.next.transmit));
    }
  }

  lemma EffectsGrant(q: Quota, cfg: Config, created: int, s: System, pc: Pc, sendOk: bool)
    requires pc.Busy? && LimiterIsRecorded(cfg, created, s)
    ensures EffectsMatch(q, cfg, created, s, Effects(cfg, s, pc, sendOk), pc, Decide(cfg, s, pc), sendOk)
  {
    if AtRateCheck(pc) {
      RateCheckGrants(q, cfg, created, s, pc, sendOk);
    } else {
      OthersGrantNothing(q, cfg, created, s, pc, Decide(cfg, s, pc), sendOk);
    }
  }

  lemma AdvanceKeepsQuota(q: Quota, cfg: Config, created: int, s: System, i: nat, now: int,
                          reading: Option<NtpTimestamp>, sendOk: bool)
    requires ValidConfig(cfg) && i < |s.loops| && s.loops[i].Busy?
    requires AnswersRequests(cfg, s) && LimiterIsRecorded(cfg, created, s)
    ensures KeepsQuota(q, cfg, created, s, StepAdvance(cfg, s, i, now, reading, sendOk))
  {
    var pc, decision := s.loops[i], Decide(cfg, s, s.loops[i]);
    NextPcHolds(q, cfg, s.clock, decision, pc, now, reading, sendOk);
    EffectsGrant(q, cfg, created, s, pc, sendOk);
    HeldMoves(q, s.loops, i, NextPc(cfg, s.clock, decision, pc, now, reading, sendOk));
  }

  lemma ReceiveKeepsQuota(q: Quota, cfg: Config, created: int, s: System, i: nat,
                          datagram: seq<u8>, source: IpAddr, t2: Option<NtpTimestamp>)
    requires i < |s.loops| && s.loops[i].Waiting? && LimiterIsRecorded(cfg, created, s)
    ensures KeepsQuota(q, cfg, created, s, StepReceive(cfg, s, i, datagram, source, t2))
  {
    HeldMoves(q, s.loops, i, StepReceive(cfg, s, i, datagram, source, t2).loops[i]);
  }

  lemma StepKeepsQuota(q: Quota, cfg: Config, created: int, s: System, a: Action)
    requires ValidConfig(cfg) && Enabled(s, a) && AnswersRequests(cfg, s) && LimiterIsRecorded(cfg, created, s)
    ensures KeepsQuota(q, cfg, created, s, Step(cfg, s, a))
  {
    match a
    case Receive(i, datagram, source, t2) => ReceiveKeepsQuota(q, cfg, created, s, i, datagram, source, t2);
    case ReceiveError(i) => HeldMoves(q, s.loops, i, Busy([SocketErrorsTotal], Done));
    case Advance(i, now, reading, sendOk) => AdvanceKeepsQuota(q, cfg, created, s, i, now, reading, sendOk);
    case Return(i) => HeldMoves(q, s.loops, i, Returned);
    case SweepLimiter =>
      OneMoreEvent(cfg.limits, NewLimiter(cfg.limits, created), s.limiterEvents,
                   Housekeeping(s.sweepTime.value), ClientOf(q));
    case _ =>
  }

  lemma {:induction false} RunKeepsQuota(q: Quota, cfg: Config, created: int, s: System, actions: seq<Action>)
    requires ValidConfig(cfg) && Runs(cfg, s, actions) && AnswersRequests(cfg, s) && LimiterIsRecorded(cfg, created, s)
    ensures KeepsQuota(q, cfg, created, s, After(cfg, s, actions)) && AnswersRequests(cfg, After(cfg, s, actions))
    decreases |actions|
  {
    if actions != [] {
      StepKeepsQuota(q, cfg, created, s, actions[0]);
      StepAnswersRequests(cfg, s, actions[0]);
      RunKeepsQuota(q, cfg, created, Step(cfg, s, actions[0]), actions[1..]);
    }
  }

  lemma {:induction false} IdleLoopsHoldNothing(q: Quota, loops: seq<Pc>)
    requires forall i :: 0 <= i < |loops| ==> !loops[i].Busy?
    ensures HeldByLoops(q, loops) == 0
    decreases |loops|
  {
    if loops != [] {
      IdleLoopsHoldNothing(q, loops[1..]);
    }
  }

  /** In every state of every interleaving, each quota covers what was sent under it; between any two
      states, what was sent is covered by what the loops held at first and what was granted since. */
  lemma QuotasHold(q: Quota, cfg: Config, sockets: nat, created: int, reading: Reading,
                   before: seq<Action>, later: seq<Action>)
    requires ValidConfig(cfg) && reading.wall >= 0 && Runs(cfg, Start(cfg, sockets, created, reading), before)
    requires Runs(cfg, After(cfg, Start(cfg, sockets, created, reading), before), later)
    ensures var mid := After(cfg, Start(cfg, sockets, created, reading), before);
      var end := After(cfg, mid, later);
      && LimiterIsRecorded(cfg, created, mid) && LimiterIsRecorded(cfg, created, end)
      && UsedBy(q, mid.sent) <= Granted(q, cfg, created, mid)
      && UsedBy(q, end.sent) - UsedBy(q, mid.sent)
         <= HeldByLoops(q, mid.loops) + Granted(q, cfg, created, end) - Granted(q, cfg, created, mid)
  {
    var s0 := Start(cfg, sockets, created, reading);
    StartHolds(cfg, sockets, created, reading);
    IdleLoopsHoldNothing(q, s0.loops);
    RunKeepsQuota(q, cfg, created, s0, before);
    RunKeepsQuota(q, cfg, created, After(cfg, s0, before), later);
  }

  /** Each loop holds at most one reply. */
  lemma {:induction false} LoopsHoldOneEach(q: Quota, loops: seq<Pc>)
    requires !q.Bandwidth?
    ensures HeldByLoops(q, loops) <= |loops|
    decreases |loops|
  {
    if loops != [] {
      LoopsHoldOneEach(q, loops[1..]);
    }
  }

  lemma {:induction false} LoopsStay(cfg: Config, s: System, actions: seq<Action>)
    requires ValidConfig(cfg) && Runs(cfg, s, actions)
    ensures |After(cfg, s, actions).loops| == |s.loops|
    decreases |actions|
  {
    if actions != [] {
      if actions[0].Advance? {
        AdvanceReplies(cfg, s, actions[0].loop, actions[0].now, actions[0].reading, actions[0].sendOk);
      }
      LoopsStay(cfg, Step(cfg, s, actions[0]), actions[1..]);
    }
  }

  // ---------------------------------------------------------------------
  // Theorems
  // ---------------------------------------------------------------------

  lemma {:induction false} BandwidthIsReplyBytes(sent: seq<Reply>)
    ensures UsedBy(Bandwidth, sent) == PACKET_SIZE * |sent|
    decreases |sent|
  {
    if sent != [] {
      BandwidthIsReplyBytes(sent[..|sent| - 1]);
    }
  }

  /** No amplification: however the loops interleave, the server has never sent more bytes than it
      has received. */
  lemma NoAmplification(cfg: Config, sockets: nat, created: int, reading: Reading, actions: seq<Action>)
    requires ValidConfig(cfg) && reading.wall >= 0 && Runs(cfg, Start(cfg, sockets, created, reading), actions)
    ensures var s := After(cfg, Start(cfg, sockets, created, reading), actions);
      PACKET_SIZE * |s.sent| <= s.bytesReceived
  {
    QuotasHold(Bandwidth, cfg, sockets, created, reading, actions, []);
    BandwidthIsReplyBytes(After(cfg, Start(cfg, sockets, created, reading), actions).sent);
  }

  /** What is granted in a window is what the limiter grants from the state in which it opens. */
  lemma GrantedSince(cfg: Config, created: int, mid: System, end: System, c: IpAddr)
    requires LimiterIsRecorded(cfg, created, mid) && mid.limiterEvents <= end.limiterEvents
    ensures Granted(Overall, cfg, created, end) - Granted(Overall, cfg, created, mid)
         == PassedGlobal(cfg.limits, mid.limiter, Since(mid, end))
    ensures Granted(PerClient(c), cfg, created, end) - Granted(PerClient(c), cfg, created, mid)
         == AllowedIn(Log(cfg.limits, mid.limiter, Since(mid, end), c))
  {
    assert end.limiterEvents == mid.limiterEvents + Since(mid, end);
    EventsSplit(cfg.limits, NewLimiter(cfg.limits, created), mid.limiterEvents, Since(mid, end), c);
    CountsSplit(ServerLog(cfg, created, mid, c), Log(cfg.limits, mid.limiter, Since(mid, end), c));
  }

  /** The server as a whole keeps to its global rate: between any two states, the replies sent, except DENY
      Kiss-o'-Deaths, are at most those already granted to loops, one for each at most, and the burst, and
      the rate over the time between plus the time for which loops held a reading of the clock before they
      got the limiter's lock. */
  lemma ServerKeepsGlobalRate(cfg: Config, sockets: nat, created: int, reading: Reading,
                              before: seq<Action>, later: seq<Action>)
    requires ValidConfig(cfg) && reading.wall >= 0 && Runs(cfg, Start(cfg, sockets, created, reading), before)
    requires Runs(cfg, After(cfg, Start(cfg, sockets, created, reading), before), later)
    requires cfg.limits.enabled && cfg.limits.globalRate > 0
    ensures var mid := After(cfg, Start(cfg, sockets, created, reading), before);
      var end := After(cfg, mid, later);
      && NANOS_PER_SECOND * (UsedBy(Overall, end.sent) - UsedBy(Overall, mid.sent))
         <= NANOS_PER_SECOND * (HeldByLoops(Overall, mid.loops) + cfg.limits.globalBurst)
            + cfg.limits.globalRate * (end.latest - mid.latest + end.held - mid.held)
      && HeldByLoops(Overall, mid.loops) <= sockets
      && (before == [] ==> HeldByLoops(Overall, mid.loops) == 0)
  {
    var s0 := Start(cfg, sockets, created, reading);
    var mid := After(cfg, s0, before);
    var end := After(cfg, mid, later);
    QuotasHold(Overall, cfg, sockets, created, reading, before, later);
    DisorderIsHeldTime(cfg, sockets, created, reading, before, later);
    LoopsPass(cfg, mid, end);
    RepliesWithin(cfg, created, mid, end, end.latest - mid.latest + end.held - mid.held);
    LoopsHold(Overall, cfg, s0, before);
  }

  /** A bound on the requests that pass the global layer is one on the replies. */
  lemma RepliesWithin(cfg: Config, created: int, mid: System, end: System, time: int)
    requires LimiterIsRecorded(cfg, created, mid) && mid.limiterEvents <= end.limiterEvents
    requires UsedBy(Overall, end.sent) - UsedBy(Overall, mid.sent)
          <= HeldByLoops(Overall, mid.loops) + Granted(Overall, cfg, created, end) - Granted(Overall, cfg, created, mid)
    requires NANOS_PER_SECOND * PassedGlobal(cfg.limits, mid.limiter, Since(mid, end))
          <= NANOS_PER_SECOND * cfg.limits.globalBurst + cfg.limits.globalRate * time
    ensures NANOS_PER_SECOND * (UsedBy(Overall, end.sent) - UsedBy(Overall, mid.sent))
         <= NANOS_PER_SECOND * (HeldByLoops(Overall, mid.loops) + cfg.limits.globalBurst)
            + cfg.limits.globalRate * time
  {
    GrantedSince(cfg, created, mid, end, V4(0));
  }

  lemma LoopsPass(cfg: Config, mid: System, end: System)
    requires cfg.limits.enabled && cfg.limits.globalRate > 0 && CoveredSince(mid, end)
    ensures NANOS_PER_SECOND * PassedGlobal(cfg.limits, mid.limiter, Since(mid, end))
         <= NANOS_PER_SECOND * cfg.limits.globalBurst
            + cfg.limits.globalRate * (end.latest - mid.latest + end.held - mid.held)
  {
    GlobalRateBound(cfg.limits, mid.limiter, mid.latest, Since(mid, end));
    WorthWithin(cfg.limits.globalRate, cfg.limits.globalBurst, mid.latest, RequestTimes(Since(mid, end)),
                end.latest, end.held - mid.held);
  }

  lemma LoopsHold(q: Quota, cfg: Config, s0: System, before: seq<Action>)
    requires ValidConfig(cfg) && Runs(cfg, s0, before) && !q.Bandwidth?
    requires forall i :: 0 <= i < |s0.loops| ==> s0.loops[i].Waiting?
    ensures HeldByLoops(q, After(cfg, s0, before).loops) <= |s0.loops|
    ensures before == [] ==> HeldByLoops(q, After(cfg, s0, before).loops) == 0
  {
    LoopsStay(cfg, s0, before);
    LoopsHoldOneEach(q, After(cfg, s0, before).loops);
    IdleLoopsHoldNothing(q, s0.loops);
  }

  /** With at most one socket, times are in order, and nothing is held against the rate. */
  lemma SingleLoopKeepsGlobalRate(cfg: Config, sockets: nat, created: int, reading: Reading,
                                  before: seq<Action>, later: seq<Action>)
    requires ValidConfig(cfg) && reading.wall >= 0 && Runs(cfg, Start(cfg, sockets, created, reading), before)
    requires Runs(cfg, After(cfg, Start(cfg, sockets, created, reading), before), later)
    requires cfg.limits.enabled && cfg.limits.globalRate > 0 && sockets <= 1
    ensures var mid := After(cfg, Start(cfg, sockets, created, reading), before);
      var end := After(cfg, mid, later);
      && mid.limiterEvents <= end.limiterEvents
      && NANOS_PER_SECOND * PassedGlobal(cfg.limits, mid.limiter, Since(mid, end))
         <= NANOS_PER_SECOND * cfg.limits.globalBurst + cfg.limits.globalRate * (end.latest - Floor(mid))
      && NANOS_PER_SECOND * (UsedBy(Overall, end.sent) - UsedBy(Overall, mid.sent))
         <= NANOS_PER_SECOND * (HeldByLoops(Overall, mid.loops) + cfg.limits.globalBurst)
            + cfg.limits.globalRate * (end.latest - Floor(mid))
      && (before == [] ==> HeldByLoops(Overall, mid.loops) == 0 && Floor(mid) == created)
  {
    var s0 := Start(cfg, sockets, created, reading);
    var mid := After(cfg, s0, before);
    var end := After(cfg, mid, later);
    QuotasHold(Overall, cfg, sockets, created, reading, before, later);
    SingleLoopIsOrdered(cfg, sockets, created, reading, before, later);
    SoleLoopPasses(cfg, mid, end);
    RepliesWithin(cfg, created, mid, end, end.latest - Floor(mid));
    LoopsHold(Overall, cfg, s0, before);
  }

  lemma SoleLoopPasses(cfg: Config, mid: System, end: System)
    requires cfg.limits.enabled && cfg.limits.globalRate > 0
    requires SoleOrdered(mid, end) && Floor(end) <= end.latest
    ensures NANOS_PER_SECOND * PassedGlobal(cfg.limits, mid.limiter, Since(mid, end))
         <= NANOS_PER_SECOND * cfg.limits.globalBurst + cfg.limits.globalRate * (end.latest - Floor(mid))
  {
    var times := RequestTimes(Since(mid, end));
    GlobalRateBound(cfg.limits, mid.limiter, Floor(mid), Since(mid, end));
    OrderedNeverBackward(Floor(mid), times);
    WorthWithin(cfg.limits.globalRate, cfg.limits.globalBurst, Floor(mid), times, end.latest, 0);
  }

  /** Nor is any client given the time above its own rate, between any two states. */
  lemma ServerKeepsClientRate(cfg: Config, sockets: nat, created: int, reading: Reading,
                              before: seq<Action>, later: seq<Action>, c: IpAddr)
    requires ValidConfig(cfg) && reading.wall >= 0 && Runs(cfg, Start(cfg, sockets, created, reading), before)
    requires Runs(cfg, After(cfg, Start(cfg, sockets, created, reading), before), later)
    requires ValidSettings(cfg.limits) && TtlCoversBurst(cfg.limits)
    ensures var mid := After(cfg, Start(cfg, sockets, created, reading), before);
      var end := After(cfg, mid, later);
      && NANOS_PER_SECOND * (UsedBy(PerClient(c), end.sent) - UsedBy(PerClient(c), mid.sent))
         <= NANOS_PER_SECOND * (HeldByLoops(PerClient(c), mid.loops) + cfg.limits.burst)
            + cfg.limits.rate * (end.latest - mid.latest + end.held - mid.held)
      && HeldByLoops(PerClient(c), mid.loops) <= sockets
      && (before == [] ==> HeldByLoops(PerClient(c), mid.loops) == 0)
  {
    var s0 := Start(cfg, sockets, created, reading);
    var mid := After(cfg, s0, before);
    var end := After(cfg, mid, later);
    QuotasHold(PerClient(c), cfg, sockets, created, reading, before, later);
    DisorderIsHeldTime(cfg, sockets, created, reading, before, later);
    GrantedSince(cfg, created, mid, end, c);
    ClientRateBound(cfg.limits, c, created, mid.limiterEvents, mid.latest, Since(mid, end));
    WorthWithin(cfg.limits.rate, cfg.limits.burst, mid.latest, EventTimes(Since(mid, end)),
                end.latest, end.held - mid.held);
    LoopsHold(PerClient(c), cfg, s0, before);
  }
}
