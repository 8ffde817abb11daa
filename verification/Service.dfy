/** What the server as a whole guarantees, in every state of every interleaving. */
module Service {
  import opened Words
  import opened Addresses
  import opened Timestamps
  import opened Packets
  import opened Responses
  import opened Access
  import opened RateLimiters
  import opened Clocks
  import opened Servers

  // ---------------------------------------------------------------------
  // Replies answer requests
  // ---------------------------------------------------------------------

  /** A Kiss-o'-Death says why, and is sent only where it is configured. */
  predicate KissHolds(cfg: Config, job: Job, code: KissCode)
    requires ValidConfig(cfg)
  {
    match code
    case Deny => Evaluate(cfg.access, job.source) == Denied && cfg.kodOnPolicyDeny
    case Rate => Evaluate(cfg.access, job.source) == Permitted && cfg.kodOnRateLimit
    case Restrict => false
  }

  /** Only permitted sources get the time, signed by the server's own identity; and a datagram that
      arrived after the clock was marked unsynchronised is never answered as if it had not been. */
  predicate SideHolds(cfg: Config, job: Job, side: ServerSide)
    requires ValidConfig(cfg)
  {
    match side
    case Kiss(code) => KissHolds(cfg, job, code)
    case Normal(identity, status, _) =>
      && identity == cfg.identity && Evaluate(cfg.access, job.source) == Permitted
      && (job.arrivedSynchronised || status.Unsynchronised?)
  }

  predicate StageHolds(cfg: Config, synchronised: bool, stage: Stage)
    requires ValidConfig(cfg)
  {
    stage.Done? ||
    (&& (stage.job.arrivedSynchronised || !synchronised)
     && match stage
        case Screen(_) => true
        case SampleTime(job) => Evaluate(cfg.access, job.source) == Permitted
        case CheckRate(job, _) => Evaluate(cfg.access, job.source) == Permitted
        case ParseRequest(job) => Evaluate(cfg.access, job.source) == Permitted
        case ReadStatus(job) => IsRequest(cfg.policy, job.data) && Evaluate(cfg.access, job.source) == Permitted
        case ReadReference(job, status) =>
          && IsRequest(cfg.policy, job.data) && Evaluate(cfg.access, job.source) == Permitted
          && (job.arrivedSynchronised || status.Unsynchronised?)
        case ParseForKiss(job, code) => KissHolds(cfg, job, code)
        case Stamp(job, side) => IsRequest(cfg.policy, job.data) && SideHolds(cfg, job, side)
        case Send(job, side, _) => IsRequest(cfg.policy, job.data) && SideHolds(cfg, job, side))
  }

  predicate ReplyHolds(cfg: Config, r: Reply)
    requires ValidConfig(cfg)
  {
    IsRequest(cfg.policy, r.job.data) && SideHolds(cfg, r.job, r.side)
  }

  predicate AnswersRequests(cfg: Config, s: System)
    requires ValidConfig(cfg)
  {
    && (forall i :: 0 <= i < |s.loops| && s.loops[i].Busy? ==> StageHolds(cfg, s.clock.synchronised, s.loops[i].next))
    && (forall r :: r in s.sent ==> ReplyHolds(cfg, r))
  }

  lemma ParseLetsRequestsThrough(cfg: Config, synchronised: bool, job: Job, code: KissCode)
    requires ValidConfig(cfg)
    ensures StageHolds(cfg, synchronised, ParseRequest(job)) ==>
      StageHolds(cfg, synchronised, AfterParse(cfg, job).next)
    ensures StageHolds(cfg, synchronised, ParseForKiss(job, code)) ==>
      StageHolds(cfg, synchronised, AfterParseForKiss(cfg, job, code).next)
  {
  }

  lemma NextStageHolds(cfg: Config, clock: ClockState, decision: Decision, pc: Pc, now: int,
                       reading: Option<NtpTimestamp>, sendOk: bool)
    requires ValidConfig(cfg) && pc.Busy? && StageHolds(cfg, clock.synchronised, pc.next)
    ensures var pc' := NextPc(cfg, clock, decision, pc, now, reading, sendOk);
      pc'.Busy? ==> StageHolds(cfg, clock.synchronised, pc'.next)
  {
    if pc.next.ParseRequest? || pc.next.ParseForKiss? {
      var code := if pc.next.ParseForKiss? then pc.next.code else Rate;
      ParseLetsRequestsThrough(cfg, clock.synchronised, pc.next.job, code);
    }
  }

  lemma LoopAnswersRequests(cfg: Config, s: System, s': System, i: nat, pc: Pc)
    requires ValidConfig(cfg) && AnswersRequests(cfg, s) && i < |s.loops| && s.loops[i].Busy?
    requires s'.loops == s.loops[i := pc] && s'.clock == s.clock
    requires pc.Busy? ==> StageHolds(cfg, s.clock.synchronised, pc.next)
    requires s'.sent == s.sent || (AtSend(s.loops[i])
               && s'.sent == s.sent + [Reply(s.loops[i].next.job, s.loops[i].next.side, s.loops[i].next.transmit)])
    ensures AnswersRequests(cfg, s')
  {
  }

  lemma StepAnswersRequests(cfg: Config, s: System, a: Action)
    requires ValidConfig(cfg) && Enabled(s, a) && AnswersRequests(cfg, s)
    ensures AnswersRequests(cfg, Step(cfg, s, a))
  {
    if a.Advance? {
      var pc := s.loops[a.loop];
      NextStageHolds(cfg, s.clock, Decide(cfg, s, pc), pc, a.now, a.reading, a.sendOk);
      AdvanceReplies(cfg, s, a.loop, a.now, a.reading, a.sendOk);
      LoopAnswersRequests(cfg, s, Step(cfg, s, a), a.loop, Step(cfg, s, a).loops[a.loop]);
    }
  }

  lemma {:induction false} RunAnswersRequests(cfg: Config, s: System, actions: seq<Action>)
    requires ValidConfig(cfg) && Runs(cfg, s, actions) && AnswersRequests(cfg, s)
    ensures AnswersRequests(cfg, After(cfg, s, actions))
    decreases |actions|
  {
    if actions != [] {
      StepAnswersRequests(cfg, s, actions[0]);
      RunAnswersRequests(cfg, Step(cfg, s, actions[0]), actions[1..]);
    }
  }

  // ---------------------------------------------------------------------
  // At most one reply for each datagram
  // ---------------------------------------------------------------------

  predicate Active(pc: Pc) {
    pc.Busy? && !pc.next.Done?
  }

  /** Numbers of answered datagrams, and of those still handled, are all different and all given out. */
  predicate Distinct(s: System) {
    && (forall j :: 0 <= j < |s.sent| ==> s.sent[j].job.id < s.received)
    && (forall j, k :: 0 <= j < k < |s.sent| ==> s.sent[j].job.id != s.sent[k].job.id)
    && (forall i :: 0 <= i < |s.loops| && Active(s.loops[i]) ==> s.loops[i].next.job.id < s.received)
    && (forall i, j :: 0 <= i < |s.loops| && Active(s.loops[i]) && 0 <= j < |s.sent| ==>
          s.loops[i].next.job.id != s.sent[j].job.id)
    && (forall i, j :: 0 <= i < j < |s.loops| && Active(s.loops[i]) && Active(s.loops[j]) ==>
          s.loops[i].next.job.id != s.loops[j].next.job.id)
  }

  /** A loop keeps its datagram until it is done with it, and is done once it has tried to send. */
  lemma NextPcKeepsJob(cfg: Config, clock: ClockState, decision: Decision, pc: Pc, now: int,
                       reading: Option<NtpTimestamp>, sendOk: bool)
    requires ValidConfig(cfg) && pc.Busy?
    ensures var pc' := NextPc(cfg, clock, decision, pc, now, reading, sendOk);
      Active(pc') ==> Active(pc) && pc'.next.job == pc.next.job && !AtSend(pc)
  {
  }

  lemma AdvanceStaysDistinct(s: System, s': System, i: nat, pc: Pc)
    requires Distinct(s) && i < |s.loops| && s'.loops == s.loops[i := pc] && s'.received == s.received
    requires Active(pc) ==> Active(s.loops[i]) && pc.next.job == s.loops[i].next.job
    requires s'.sent == s.sent || (Active(s.loops[i]) && !Active(pc) && |s'.sent| == |s.sent| + 1
               && s'.sent[..|s.sent|] == s.sent && s'.sent[|s.sent|].job == s.loops[i].next.job)
    ensures Distinct(s')
  {
    if s'.sent != s.sent {
      assert forall j :: 0 <= j < |s.sent| ==> s'.sent[j] == s'.sent[..|s.sent|][j] == s.sent[j];
    }
  }

  lemma ReceiveStaysDistinct(cfg: Config, s: System, i: nat, datagram: seq<u8>, source: IpAddr,
                             t2: Option<NtpTimestamp>)
    requires Distinct(s) && i < |s.loops| && s.loops[i].Waiting?
    ensures Distinct(StepReceive(cfg, s, i, datagram, source, t2))
  {
  }

  lemma LoopAdvanceStaysDistinct(cfg: Config, s: System, i: nat, now: int, reading: Option<NtpTimestamp>, sendOk: bool)
    requires ValidConfig(cfg) && Distinct(s) && i < |s.loops| && s.loops[i].Busy?
    ensures Distinct(StepAdvance(cfg, s, i, now, reading, sendOk))
  {
    var pc, decision := s.loops[i], Decide(cfg, s, s.loops[i]);
    NextPcKeepsJob(cfg, s.clock, decision, pc, now, reading, sendOk);
    AdvanceReplies(cfg, s, i, now, reading, sendOk);
    var s' := StepAdvance(cfg, s, i, now, reading, sendOk);
    AdvanceStaysDistinct(s, s', i, s'.loops[i]);
  }

  lemma StepStaysDistinct(cfg: Config, s: System, a: Action)
    requires ValidConfig(cfg) && Enabled(s, a) && Distinct(s)
    ensures Distinct(Step(cfg, s, a))
  {
    match a
    case Receive(i, datagram, source, t2) => ReceiveStaysDistinct(cfg, s, i, datagram, source, t2);
    case Advance(i, now, reading, sendOk) => LoopAdvanceStaysDistinct(cfg, s, i, now, reading, sendOk);
    case _ => OthersStayDistinct(cfg, s, a);
  }

  lemma OthersStayDistinct(cfg: Config, s: System, a: Action)
    requires ValidConfig(cfg) && Enabled(s, a) && Distinct(s) && !a.Receive? && !a.Advance?
    ensures Distinct(Step(cfg, s, a))
  {
    var s' := Step(cfg, s, a);
    assert s'.sent == s.sent && s'.received == s.received && |s'.loops| == |s.loops|;
    assert forall i :: 0 <= i < |s.loops| && Active(s'.loops[i]) ==> s'.loops[i] == s.loops[i];
  }

  lemma {:induction false} RunStaysDistinct(cfg: Config, s: System, actions: seq<Action>)
    requires ValidConfig(cfg) && Runs(cfg, s, actions) && Distinct(s)
    ensures Distinct(After(cfg, s, actions))
    decreases |actions|
  {
    if actions != [] {
      StepStaysDistinct(cfg, s, actions[0]);
      RunStaysDistinct(cfg, Step(cfg, s, actions[0]), actions[1..]);
    }
  }

  // ---------------------------------------------------------------------
  // Datagrams that arrive on an unsynchronised clock
  // ---------------------------------------------------------------------

  /** A normal reply carries the reference time that the clock had when it was latched. */
  predicate Frozen(side: ServerSide, reference: Option<NtpTimestamp>) {
    side.Normal? ==> side.reference == ReferenceOrZero(reference)
  }

  predicate LateStage(stage: Stage, reference: Option<NtpTimestamp>) {
    !stage.Done? && !stage.job.arrivedSynchronised && (stage.Stamp? || stage.Send? ==> Frozen(stage.side, reference))
  }

  /** The clock is latched unsynchronised, and every datagram numbered n or later arrived after that. */
  predicate LateJobs(s: System, n: nat, reference: Option<NtpTimestamp>) {
    && !s.clock.synchronised && s.clock.reference == reference && n <= s.received
    && (forall r :: r in s.sent && r.job.id >= n ==> !r.job.arrivedSynchronised && Frozen(r.side, reference))
    && (forall i :: 0 <= i < |s.loops| && Active(s.loops[i]) && s.loops[i].next.job.id >= n ==>
          LateStage(s.loops[i].next, reference))
  }

  lemma NextStageIsLate(cfg: Config, clock: ClockState, decision: Decision, pc: Pc, now: int,
                        reading: Option<NtpTimestamp>, sendOk: bool)
    requires ValidConfig(cfg) && Active(pc) && LateStage(pc.next, clock.reference)
    ensures var pc' := NextPc(cfg, clock, decision, pc, now, reading, sendOk);
      Active(pc') ==> LateStage(pc'.next, clock.reference)
  {
  }

  lemma LoopIsLate(s: System, s': System, i: nat, pc: Pc, n: nat, reference: Option<NtpTimestamp>)
    requires LateJobs(s, n, reference) && i < |s.loops| && s'.loops == s.loops[i := pc]
    requires s'.clock == s.clock && s'.received == s.received
    requires Active(pc) ==> Active(s.loops[i]) && pc.next.job == s.loops[i].next.job
    requires Active(pc) && pc.next.job.id >= n ==> LateStage(pc.next, reference)
    requires s'.sent == s.sent || (AtSend(s.loops[i])
               && s'.sent == s.sent + [Reply(s.loops[i].next.job, s.loops[i].next.side, s.loops[i].next.transmit)])
    ensures LateJobs(s', n, reference)
  {
  }

  lemma LoopKeepsLateJobs(cfg: Config, s: System, i: nat, now: int, reading: Option<NtpTimestamp>, sendOk: bool, n: nat)
    requires ValidConfig(cfg) && LateJobs(s, n, s.clock.reference) && i < |s.loops| && s.loops[i].Busy?
    ensures LateJobs(StepAdvance(cfg, s, i, now, reading, sendOk), n, s.clock.reference)
  {
    var pc, decision := s.loops[i], Decide(cfg, s, s.loops[i]);
    NextPcKeepsJob(cfg, s.clock, decision, pc, now, reading, sendOk);
    if Active(pc) && pc.next.job.id >= n {
      NextStageIsLate(cfg, s.clock, decision, pc, now, reading, sendOk);
    }
    AdvanceReplies(cfg, s, i, now, reading, sendOk);
    var s' := StepAdvance(cfg, s, i, now, reading, sendOk);
    LoopIsLate(s, s', i, s'.loops[i], n, s.clock.reference);
  }

  lemma StepKeepsLateJobs(cfg: Config, s: System, a: Action, n: nat)
    requires ValidConfig(cfg) && Enabled(s, a) && LateJobs(s, n, s.clock.reference)
    ensures LateJobs(Step(cfg, s, a), n, s.clock.reference)
  {
    if a.Advance? {
      LoopKeepsLateJobs(cfg, s, a.loop, a.now, a.reading, a.sendOk, n);
    }
  }

  lemma {:induction false} RunKeepsLateJobs(cfg: Config, s: System, actions: seq<Action>, n: nat)
    requires ValidConfig(cfg) && Runs(cfg, s, actions) && LateJobs(s, n, s.clock.reference)
    ensures LateJobs(After(cfg, s, actions), n, s.clock.reference)
    decreases |actions|
  {
    if actions != [] {
      StepKeepsLateJobs(cfg, s, actions[0], n);
      RunKeepsLateJobs(cfg, Step(cfg, s, actions[0]), actions[1..], n);
    }
  }

  // ---------------------------------------------------------------------
  // Theorems
  // ---------------------------------------------------------------------

  lemma StartHolds(cfg: Config, sockets: nat, now: int, reading: Reading)
    requires ValidConfig(cfg) && reading.wall >= 0
    ensures AnswersRequests(cfg, Start(cfg, sockets, now, reading)) && Distinct(Start(cfg, sockets, now, reading))
  {
  }

  function PacketOf(r: Reply): NtpPacket
    requires Parse(r.job.data).Parsed?
  {
    ReplyPacket(r.job.data, r.side, r.job.receive, r.transmit)
  }

  /** In every interleaving a datagram draws at most one reply; every reply answers a valid client
      request, returns that very request's transmit timestamp as its origin, and is no longer than it. */
  lemma OneReplyPerRequest(cfg: Config, sockets: nat, now: int, reading: Reading, actions: seq<Action>)
    requires ValidConfig(cfg) && reading.wall >= 0 && Runs(cfg, Start(cfg, sockets, now, reading), actions)
    ensures var sent := After(cfg, Start(cfg, sockets, now, reading), actions).sent;
      && (forall j, k :: 0 <= j < k < |sent| ==> sent[j].job.id != sent[k].job.id)
      && (forall r :: r in sent ==>
            && IsRequest(cfg.policy, r.job.data)
            && PacketOf(r).originTimestamp == Parse(r.job.data).packet.transmitTimestamp
            && PacketOf(r).version == Parse(r.job.data).packet.version
            && PacketOf(r).mode == Server
            && |Encode(PacketOf(r))| <= |r.job.data|)
  {
    var s0 := Start(cfg, sockets, now, reading);
    StartHolds(cfg, sockets, now, reading);
    RunAnswersRequests(cfg, s0, actions);
    RunStaysDistinct(cfg, s0, actions);
    var sent := After(cfg, s0, actions).sent;
    forall r | r in sent
      ensures IsRequest(cfg.policy, r.job.data) && |Encode(PacketOf(r))| <= |r.job.data|
    {
      assert ReplyHolds(cfg, r);
    }
  }

  /** Access control and configuration are enforced on everything that is sent: the time goes to
      permitted sources only, and a Kiss-o'-Death only where it is switched on, DENY to denied
      sources and RATE to permitted ones. */
  lemma AccessIsEnforced(cfg: Config, sockets: nat, now: int, reading: Reading, actions: seq<Action>, r: Reply)
    requires ValidConfig(cfg) && reading.wall >= 0 && Runs(cfg, Start(cfg, sockets, now, reading), actions)
    requires r in After(cfg, Start(cfg, sockets, now, reading), actions).sent
    ensures r.side.Normal? ==> Evaluate(cfg.access, r.job.source) == Permitted && r.side.identity == cfg.identity
    ensures r.side.Kiss? ==>
      || (r.side.code == Deny && cfg.kodOnPolicyDeny && Evaluate(cfg.access, r.job.source) == Denied)
      || (r.side.code == Rate && cfg.kodOnRateLimit && Evaluate(cfg.access, r.job.source) == Permitted)
  {
    StartHolds(cfg, sockets, now, reading);
    RunAnswersRequests(cfg, Start(cfg, sockets, now, reading), actions);
    assert ReplyHolds(cfg, r);
  }

  ghost predicate Reachable(cfg: Config, s: System)
    requires ValidConfig(cfg)
  {
    exists sockets: nat, now: int, reading: Reading, actions: seq<Action> ::
      reading.wall >= 0 && Runs(cfg, Start(cfg, sockets, now, reading), actions)
      && s == After(cfg, Start(cfg, sockets, now, reading), actions)
  }

  lemma ReachableAnswersRequests(cfg: Config, s: System)
    requires ValidConfig(cfg) && Reachable(cfg, s)
    ensures AnswersRequests(cfg, s)
  {
    var sockets: nat, now: int, reading: Reading, actions: seq<Action> :|
      reading.wall >= 0 && Runs(cfg, Start(cfg, sockets, now, reading), actions)
      && s == After(cfg, Start(cfg, sockets, now, reading), actions);
    StartHolds(cfg, sockets, now, reading);
    RunAnswersRequests(cfg, Start(cfg, sockets, now, reading), actions);
  }

  /** No reply loops: whatever one server sends in any of its runs, no server, under any
      configuration, clock, limiter or load, ever answers a datagram that begins with it. */
  lemma NoReplyLoops(a: Config, sa: System, ra: Reply, b: Config, sb: System, rb: Reply)
    requires ValidConfig(a) && Reachable(a, sa) && ra in sa.sent
    requires ValidConfig(b) && Reachable(b, sb) && rb in sb.sent
    ensures Parse(ra.job.data).Parsed?
    ensures |rb.job.data| >= PACKET_SIZE && rb.job.data[..PACKET_SIZE] != Encode(PacketOf(ra))
  {
    ReachableAnswersRequests(a, sa);
    ReachableAnswersRequests(b, sb);
    assert ReplyHolds(a, ra) && ReplyHolds(b, rb);
    if rb.job.data[..PACKET_SIZE] == Encode(PacketOf(ra)) {
      ReplyIsNeverARequest(PacketOf(ra), b.policy, rb.job.data);
    }
  }

  /** Desynchronisation latches: once a run has reached an unsynchronised clock, its reference time stays
      as it is, and every reply to a datagram received later carries leap 3 and stratum 16, or stratum 0
      for a Kiss-o'-Death; a normal one also carries that reference time. */
  lemma UnsynchronisedRepliesSaySo(cfg: Config, sockets: nat, now: int, reading: Reading, before: seq<Action>,
                                   later: seq<Action>)
    requires ValidConfig(cfg) && reading.wall >= 0 && Runs(cfg, Start(cfg, sockets, now, reading), before)
    requires Runs(cfg, After(cfg, Start(cfg, sockets, now, reading), before), later)
    requires !After(cfg, Start(cfg, sockets, now, reading), before).clock.synchronised
    ensures var mid := After(cfg, Start(cfg, sockets, now, reading), before);
      var end := After(cfg, mid, later);
      && !end.clock.synchronised && end.clock.reference == mid.clock.reference
      && forall r :: r in end.sent && r.job.id >= mid.received ==>
           && Parse(r.job.data).Parsed?
           && PacketOf(r).leap == UnsynchronisedLeap
           && PacketOf(r).stratum == (if r.side.Kiss? then STRATUM_KISS_OF_DEATH else STRATUM_UNSYNCHRONISED)
           && (r.side.Normal? ==> PacketOf(r).referenceTimestamp == ReferenceOrZero(mid.clock.reference))
  {
    var s0 := Start(cfg, sockets, now, reading);
    StartHolds(cfg, sockets, now, reading);
    RunAnswersRequests(cfg, s0, before);
    RunStaysDistinct(cfg, s0, before);
    var mid := After(cfg, s0, before);
    RunAnswersRequests(cfg, mid, later);
    RunKeepsLateJobs(cfg, mid, later, mid.received);
    var end := After(cfg, mid, later);
    forall r | r in end.sent && r.job.id >= mid.received
      ensures Parse(r.job.data).Parsed? && PacketOf(r).leap == UnsynchronisedLeap
      ensures PacketOf(r).stratum == (if r.side.Kiss? then STRATUM_KISS_OF_DEATH else STRATUM_UNSYNCHRONISED)
      ensures r.side.Normal? ==> PacketOf(r).referenceTimestamp == ReferenceOrZero(mid.clock.reference)
    {
      assert ReplyHolds(cfg, r) && Frozen(r.side, mid.clock.reference);
    }
  }
}
