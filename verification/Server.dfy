/** The datagram pipeline as a step machine: several receive loops interleave over shared counters,
    one limiter and one clock. Each atomic operation of the handler is a step of its own. */
module Servers {
  import opened Words
  import opened Addresses
  import opened Timestamps
  import opened Packets
  import opened Responses
  import opened Access
  import opened RateLimiters
  import opened LimiterRuns
  import opened Clocks

  datatype Config = Config(
    identity: ServerIdentity, policy: Policy, access: AccessControl, limits: Settings, jumps: JumpPolicy,
    maxPacketSize: nat, kodOnRateLimit: bool, kodOnPolicyDeny: bool)

  predicate ValidConfig(cfg: Config) {
    ValidTable(cfg.access) && cfg.maxPacketSize >= PACKET_SIZE
  }

  // ---------------------------------------------------------------------
  // Counters
  // ---------------------------------------------------------------------

  datatype Counter =
    | RequestsTotal | ResponsesTotal | DroppedTotal | MalformedTotal | UnsupportedVersionTotal
    | UnsupportedModeTotal | RateLimitedTotal | AccessDeniedTotal | KodSentTotal
    | SocketErrorsTotal | ClockErrorsTotal

  datatype Metrics = Metrics(
    requests: nat, responses: nat, dropped: nat, malformed: nat, unsupportedVersion: nat, unsupportedMode: nat,
    rateLimited: nat, accessDenied: nat, kodSent: nat, socketErrors: nat, clockErrors: nat)

  /** One `fetch_add(1)`. */
  function Bump(m: Metrics, c: Counter): Metrics {
    match c
    case RequestsTotal => m.(requests := m.requests + 1)
    case ResponsesTotal => m.(responses := m.responses + 1)
    case DroppedTotal => m.(dropped := m.dropped + 1)
    case MalformedTotal => m.(malformed := m.malformed + 1)
    case UnsupportedVersionTotal => m.(unsupportedVersion := m.unsupportedVersion + 1)
    case UnsupportedModeTotal => m.(unsupportedMode := m.unsupportedMode + 1)
    case RateLimitedTotal => m.(rateLimited := m.rateLimited + 1)
    case AccessDeniedTotal => m.(accessDenied := m.accessDenied + 1)
    case KodSentTotal => m.(kodSent := m.kodSent + 1)
    case SocketErrorsTotal => m.(socketErrors := m.socketErrors + 1)
    case ClockErrorsTotal => m.(clockErrors := m.clockErrors + 1)
  }

  // ---------------------------------------------------------------------
  // Receive loops
  // ---------------------------------------------------------------------

  /** A datagram in the hands of a loop: the bytes as received, its source, T2, and, for the record,
      its number and whether the clock was still synchronised on arrival. */
  datatype Job = Job(id: nat, data: seq<u8>, source: IpAddr, receive: NtpTimestamp, arrivedSynchronised: bool)

  /** What the loop does once its pending counters are bumped. */
  datatype Stage =
    | Screen(job: Job)                                       // size and access
    | SampleTime(job: Job)                                   // Instant::now(), before the lock
    | CheckRate(job: Job, now: int)                          // limiter.check, under the lock
    | ParseRequest(job: Job)
    | ReadStatus(job: Job)
    | ReadReference(job: Job, status: ClockStatus)
    | ParseForKiss(job: Job, code: KissCode)
    | Stamp(job: Job, side: ServerSide)                      // T3
    | Send(job: Job, side: ServerSide, transmit: NtpTimestamp)
    | Done

  datatype Pc = Waiting | Returned | Busy(pending: seq<Counter>, next: Stage)

  datatype Reply = Reply(job: Job, side: ServerSide, transmit: NtpTimestamp)

  /** What a loop was woken by. */
  datatype Origin = Nothing | FailedReceive | FailedReceiveTime | Datagram(job: Job)

  /** What happened to it: the counters bumped for it, in order, what the limiter said, what the clock
      gave for T3, and whether the send succeeded. */
  datatype Trail = Trail(
    origin: Origin, bumped: seq<Counter>, decision: Option<Decision>, stamp: Option<NtpTimestamp>, sendOk: bool)

  const BLANK: Trail := Trail(Nothing, [], None, None, false)

  /** `latest` is the monotonic clock, as last read by anyone; `sweepTime` is what housekeeping has read
      for its next sweep. Everything after `sweepTime` is history, which the server does not keep:
      `held` and `longestHeld` are for how long, in sum and at most, the times used by the limiter were
      held between the reading and the lock; `trails` are those of the loops, `finished` those of the
      past. */
  datatype System = System(
    loops: seq<Pc>, metrics: Metrics, limiter: Limiter, clock: ClockState, stopping: bool,
    latest: int, sweepTime: Option<int>,
    sent: seq<Reply>, failedReplies: nat, failedKisses: nat, receiveErrors: nat,
    received: nat, bytesReceived: nat, limiterEvents: seq<Event>, held: nat, longestHeld: nat,
    trails: seq<Trail>, finished: seq<Trail>)

  function Start(cfg: Config, sockets: nat, now: int, reading: Reading): System
    requires reading.wall >= 0
  {
    System(seq(sockets, _ => Waiting), Metrics(0, 0, 0, 0, 0, 0, 0, 0, 0, 0, 0), NewLimiter(cfg.limits, now),
           StartClock(reading), false, now, None, [], 0, 0, 0, 0, 0, [], 0, 0, seq(sockets, _ => BLANK), [])
  }

  // ---------------------------------------------------------------------
  // The handler, stage by stage
  // ---------------------------------------------------------------------

  /** What `recv_from` leaves in a buffer one byte longer than the largest accepted datagram. */
  function Received(cfg: Config, datagram: seq<u8>): seq<u8> {
    if |datagram| <= cfg.maxPacketSize then datagram else datagram[..cfg.maxPacketSize + 1]
  }

  function AfterScreen(cfg: Config, job: Job): Pc
    requires ValidConfig(cfg)
  {
    if |job.data| > cfg.maxPacketSize then Busy([MalformedTotal, DroppedTotal], Done)
    else if Evaluate(cfg.access, job.source) == Denied then
      if cfg.kodOnPolicyDeny then Busy([AccessDeniedTotal], ParseForKiss(job, Deny))
      else Busy([AccessDeniedTotal, DroppedTotal], Done)
    else Busy([], SampleTime(job))
  }

  function AfterRate(cfg: Config, job: Job, decision: Decision): Pc {
    match decision
    case Allowed => Busy([], ParseRequest(job))
    case LimitedPerClient(sendKod) =>
      if sendKod && cfg.kodOnRateLimit then Busy([RateLimitedTotal], ParseForKiss(job, Rate))
      else Busy([RateLimitedTotal, DroppedTotal], Done)
    case _ => Busy([RateLimitedTotal, DroppedTotal], Done)
  }

  function AfterParse(cfg: Config, job: Job): Pc {
    match Parse(job.data)
    case TooShort(_) => Busy([MalformedTotal, DroppedTotal], Done)
    case Parsed(packet, trailing) =>
      match Validate(cfg.policy, packet, trailing)
      case Rejected(UnsupportedVersion(_)) => Busy([UnsupportedVersionTotal, DroppedTotal], Done)
      case Rejected(UnsupportedMode(_)) => Busy([UnsupportedModeTotal, DroppedTotal], Done)
      case Rejected(_) => Busy([MalformedTotal, DroppedTotal], Done)
      case Accepted => Busy([], ReadStatus(job))
  }

  function AfterParseForKiss(cfg: Config, job: Job, code: KissCode): Pc {
    if IsRequest(cfg.policy, job.data) then Busy([], Stamp(job, Kiss(code))) else Busy([DroppedTotal], Done)
  }

  function ReferenceOrZero(reference: Option<NtpTimestamp>): NtpTimestamp {
    if reference.Some? then reference.value else ZERO_TIMESTAMP
  }

  /** A normal reply is dropped when the clock cannot be read; a Kiss-o'-Death goes out with T3 zero. */
  function AfterStamp(job: Job, side: ServerSide, reading: Option<NtpTimestamp>): Pc {
    match reading
    case Some(t3) => Busy([], Send(job, side, t3))
    case None =>
      if side.Kiss? then Busy([], Send(job, side, ZERO_TIMESTAMP))
      else Busy([ClockErrorsTotal, DroppedTotal], Done)
  }

  function AfterSend(side: ServerSide, ok: bool): Pc {
    if !ok then Busy([SocketErrorsTotal], Done)
    else if side.Kiss? then Busy([KodSentTotal, ResponsesTotal], Done)
    else Busy([ResponsesTotal], Done)
  }

  // ---------------------------------------------------------------------
  // Steps
  // ---------------------------------------------------------------------

  /** Socket results, clock readings and monotonic times are chosen by the environment. */
  datatype Action =
    | Receive(loop: nat, datagram: seq<u8>, source: IpAddr, t2: Option<NtpTimestamp>)
    | ReceiveError(loop: nat)
    | Advance(loop: nat, now: int, reading: Option<NtpTimestamp>, sendOk: bool)
    | Return(loop: nat)
    | Shutdown
    | CheckClock(r: Reading)
    | SampleSweepTime(at: int)
    | SweepLimiter

  predicate AtSampling(pc: Pc) {
    pc.Busy? && pc.pending == [] && pc.next.SampleTime?
  }

  /** Readings of the monotonic clock never decrease, whoever takes them. */
  predicate Enabled(s: System, a: Action) {
    match a
    case Receive(i, _, _, _) => i < |s.loops| && s.loops[i].Waiting?
    case ReceiveError(i) => i < |s.loops| && s.loops[i].Waiting?
    case Advance(i, now, _, _) => i < |s.loops| && s.loops[i].Busy? && (AtSampling(s.loops[i]) ==> s.latest <= now)
    case Return(i) => i < |s.loops| && s.loops[i].Waiting? && s.stopping
    case Shutdown => true
    case CheckClock(_) => true
    case SampleSweepTime(at) => s.sweepTime.None? && s.latest <= at
    case SweepLimiter => s.sweepTime.Some?
  }

  function Moved(s: System, i: nat, pc: Pc): System
    requires i < |s.loops|
  {
    s.(loops := s.loops[i := pc])
  }

  /** The trail of loop i. */
  function TrailAt(trails: seq<Trail>, i: nat): Trail {
    if i < |trails| then trails[i] else BLANK
  }

  function WithTrail(trails: seq<Trail>, i: nat, trail: Trail): seq<Trail> {
    if i < |trails| then trails[i := trail] else trails
  }

  function Begun(s: System, i: nat, origin: Origin): System {
    s.(trails := WithTrail(s.trails, i, BLANK.(origin := origin)))
  }

  function StepReceive(cfg: Config, s: System, i: nat, datagram: seq<u8>, source: IpAddr,
                       t2: Option<NtpTimestamp>): System
    requires i < |s.loops|
  {
    var s1 := s.(received := s.received + 1, bytesReceived := s.bytesReceived + |datagram|);
    match t2
    case None =>
      Begun(Moved(s1, i, Busy([ClockErrorsTotal, RequestsTotal, DroppedTotal], Done)), i, FailedReceiveTime)
    case Some(t) =>
      var job := Job(s.received, Received(cfg, datagram), source, t, s.clock.synchronised);
      Begun(Moved(s1, i, Busy([RequestsTotal], Screen(job))), i, Datagram(job))
  }

  function StepReceiveError(s: System, i: nat): System
    requires i < |s.loops|
  {
    Begun(Moved(s.(receiveErrors := s.receiveErrors + 1), i, Busy([SocketErrorsTotal], Done)), i, FailedReceive)
  }

  /** Where a busy loop goes next, given the shared clock, the limiter's decision if it is at the
      rate check, and what the environment answers. */
  function NextPc(cfg: Config, clock: ClockState, decision: Decision, pc: Pc, now: int, reading: Option<NtpTimestamp>,
                  sendOk: bool): Pc
    requires ValidConfig(cfg) && pc.Busy?
  {
    if pc.pending != [] then Busy(pc.pending[1..], pc.next)
    else
      match pc.next
      case Screen(job) => AfterScreen(cfg, job)
      case SampleTime(job) => Busy([], CheckRate(job, now))
      case CheckRate(job, _) => AfterRate(cfg, job, decision)
      case ParseRequest(job) => AfterParse(cfg, job)
      case ReadStatus(job) => Busy([], ReadReference(job, Status(clock)))
      case ReadReference(job, status) =>
        Busy([], Stamp(job, Normal(cfg.identity, status, ReferenceOrZero(clock.reference))))
      case ParseForKiss(job, code) => AfterParseForKiss(cfg, job, code)
      case Stamp(job, side) => AfterStamp(job, side, reading)
      case Send(_, side, _) => AfterSend(side, sendOk)
      case Done => Waiting
  }

  predicate AtRateCheck(pc: Pc) {
    pc.Busy? && pc.pending == [] && pc.next.CheckRate?
  }

  function Decide(cfg: Config, s: System, pc: Pc): Decision {
    if AtRateCheck(pc) then Check(cfg.limits, s.limiter, pc.next.job.source, pc.next.now).1 else Allowed
  }

  /** The limiter acts on a time that was read when the monotonic clock showed it. */
  function Acted(s: System, limiter: Limiter, e: Event): System {
    s.(limiter := limiter, limiterEvents := s.limiterEvents + [e],
       held := s.held + Elapsed(e.now, s.latest), longestHeld := Max(s.longestHeld, Elapsed(e.now, s.latest)))
  }

  /** What the step of a busy loop does to the shared state. */
  function Effects(cfg: Config, s: System, pc: Pc, sendOk: bool): System
    requires pc.Busy?
  {
    if pc.pending != [] then s.(metrics := Bump(s.metrics, pc.pending[0]))
    else
      match pc.next
      case CheckRate(job, now) =>
        Acted(s, Check(cfg.limits, s.limiter, job.source, now).0, Request(job.source, now))
      case Send(job, side, transmit) =>
        if sendOk then s.(sent := s.sent + [Reply(job, side, transmit)])
        else if side.Kiss? then s.(failedKisses := s.failedKisses + 1)
        else s.(failedReplies := s.failedReplies + 1)
      case _ => s
  }

  function NextTrail(trail: Trail, decision: Decision, pc: Pc, reading: Option<NtpTimestamp>, sendOk: bool): Trail
    requires pc.Busy?
  {
    if pc.pending != [] then trail.(bumped := trail.bumped + [pc.pending[0]])
    else
      match pc.next
      case CheckRate(_, _) => trail.(decision := Some(decision))
      case Stamp(_, _) => trail.(stamp := reading)
      case Send(_, _, _) => trail.(sendOk := sendOk)
      case _ => trail
  }

  /** The trail goes on, or is put on file once the loop waits again. */
  function Traced(s: System, i: nat, trail: Trail, rests: bool): System {
    if rests then s.(trails := WithTrail(s.trails, i, BLANK), finished := s.finished + [trail])
    else s.(trails := WithTrail(s.trails, i, trail))
  }

  function StepAdvance(cfg: Config, s: System, i: nat, now: int, reading: Option<NtpTimestamp>, sendOk: bool): System
    requires ValidConfig(cfg) && i < |s.loops| && s.loops[i].Busy?
  {
    var pc, decision := s.loops[i], Decide(cfg, s, s.loops[i]);
    var pc' := NextPc(cfg, s.clock, decision, pc, now, reading, sendOk);
    var s' := Moved(Effects(cfg, s, pc, sendOk), i, pc').(latest := if AtSampling(pc) then now else s.latest);
    Traced(s', i, NextTrail(TrailAt(s.trails, i), decision, pc, reading, sendOk), pc'.Waiting?)
  }

  predicate AtSend(pc: Pc) {
    pc.Busy? && pc.pending == [] && pc.next.Send?
  }

  /** What the step of a loop does to the replies sent, and what it leaves alone. */
  lemma AdvanceReplies(cfg: Config, s: System, i: nat, now: int, reading: Option<NtpTimestamp>, sendOk: bool)
    requires ValidConfig(cfg) && i < |s.loops| && s.loops[i].Busy?
    ensures var s', pc := StepAdvance(cfg, s, i, now, reading, sendOk), s.loops[i];
      && s'.loops == s.loops[i := NextPc(cfg, s.clock, Decide(cfg, s, pc), pc, now, reading, sendOk)]
      && s'.clock == s.clock && s'.received == s.received
      && s'.sent == (if AtSend(pc) && sendOk then s.sent + [Reply(pc.next.job, pc.next.side, pc.next.transmit)]
                    else s.sent)
  {
  }

  function Step(cfg: Config, s: System, a: Action): System
    requires ValidConfig(cfg) && Enabled(s, a)
  {
    match a
    case Receive(i, datagram, source, t2) => StepReceive(cfg, s, i, datagram, source, t2)
    case ReceiveError(i) => StepReceiveError(s, i)
    case Advance(i, now, reading, sendOk) => StepAdvance(cfg, s, i, now, reading, sendOk)
    case Return(i) => Moved(s, i, Returned)
    case Shutdown => s.(stopping := true)
    case CheckClock(r) => s.(clock := CheckJump(cfg.jumps, s.clock, r).0)
    case SampleSweepTime(at) => s.(sweepTime := Some(at), latest := at)
    case SweepLimiter =>
      Acted(s, Sweep(cfg.limits, s.limiter, s.sweepTime.value), Housekeeping(s.sweepTime.value)).(sweepTime := None)
  }

  /** Every action is enabled when its turn comes. */
  predicate Runs(cfg: Config, s: System, actions: seq<Action>)
    requires ValidConfig(cfg)
    decreases |actions|
  {
    actions == [] || (Enabled(s, actions[0]) && Runs(cfg, Step(cfg, s, actions[0]), actions[1..]))
  }

  function After(cfg: Config, s: System, actions: seq<Action>): System
    requires ValidConfig(cfg) && Runs(cfg, s, actions)
    decreases |actions|
  {
    if actions == [] then s else After(cfg, Step(cfg, s, actions[0]), actions[1..])
  }

  predicate Leads(cfg: Config, s: System, actions: seq<Action>, end: System)
    requires ValidConfig(cfg)
  {
    Runs(cfg, s, actions) && After(cfg, s, actions) == end
  }

  /** Runs one after the other. */
  lemma {:induction false} Appended(cfg: Config, s: System, a: seq<Action>, b: seq<Action>, end: System)
    requires ValidConfig(cfg) && Runs(cfg, s, a) && Leads(cfg, After(cfg, s, a), b, end)
    ensures Leads(cfg, s, a + b, end)
    decreases |a|
  {
    if a == [] {
      assert a + b == b;
    } else {
      Appended(cfg, Step(cfg, s, a[0]), a[1..], b, end);
      assert (a + b)[1..] == a[1..] + b;
    }
  }
}
