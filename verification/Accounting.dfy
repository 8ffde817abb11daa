/** Conservation laws of the counters, in every state of every interleaving. */
module Accounting {
  import opened Words
  import opened Addresses
  import opened Timestamps
  import opened Responses
  import opened RateLimiters
  import opened Clocks
  import opened Servers

  /** Three ways to balance the books.
      Settlement: each request is answered, dropped, lost in sending, or in flight.
      Classification: each request has exactly one reason counter, or was answered normally.
      SocketFailures: each socket error is a failed receive or a failed send. */
  datatype Law = Settlement | Classification | SocketFailures

  function CounterWeight(law: Law, c: Counter): int {
    match law
    case Settlement => if c.RequestsTotal? then -1 else if c.ResponsesTotal? || c.DroppedTotal? then 1 else 0
    case Classification =>
      if c.RequestsTotal? || c.KodSentTotal? then -1
      else if c.DroppedTotal? || c.SocketErrorsTotal? then 0
      else 1
    case SocketFailures => if c.SocketErrorsTotal? then 1 else 0
  }

  function StageWeight(law: Law, stage: Stage): int {
    match law
    case Settlement => if stage.Done? then 0 else 1
    case Classification =>
      if stage.Done? || stage.ParseForKiss? || ((stage.Stamp? || stage.Send?) && stage.side.Kiss?) then 0 else 1
    case SocketFailures => 0
  }

  function PendingWeight(law: Law, pending: seq<Counter>): int {
    if pending == [] then 0 else CounterWeight(law, pending[0]) + PendingWeight(law, pending[1..])
  }

  function PcWeight(law: Law, pc: Pc): int {
    if pc.Busy? then PendingWeight(law, pc.pending) + StageWeight(law, pc.next) else 0
  }

  function LoopsWeight(law: Law, loops: seq<Pc>): int {
    if loops == [] then 0 else PcWeight(law, loops[0]) + LoopsWeight(law, loops[1..])
  }

  /** What the counters say. */
  function Booked(law: Law, m: Metrics): int {
    match law
    case Settlement => m.responses + m.dropped - m.requests
    case Classification =>
      m.malformed + m.unsupportedVersion + m.unsupportedMode + m.rateLimited + m.accessDenied + m.clockErrors
      + m.responses - m.kodSent - m.requests
    case SocketFailures => m.socketErrors
  }

  /** What the counters do not say: replies lost in sending, failed receives. */
  function Unbooked(law: Law, s: System): int {
    match law
    case Settlement => s.failedReplies + s.failedKisses
    case Classification => s.failedReplies
    case SocketFailures => -(s.receiveErrors + s.failedReplies + s.failedKisses)
  }

  predicate Balanced(law: Law, s: System) {
    Booked(law, s.metrics) + Unbooked(law, s) + LoopsWeight(law, s.loops) == 0
  }

  lemma {:induction false} LoopMoves(law: Law, loops: seq<Pc>, i: nat, pc: Pc)
    requires i < |loops|
    ensures LoopsWeight(law, loops[i := pc]) == LoopsWeight(law, loops) - PcWeight(law, loops[i]) + PcWeight(law, pc)
    decreases |loops|
  {
    if i > 0 {
      LoopMoves(law, loops[1..], i - 1, pc);
      assert loops[i := pc][1..] == loops[1..][i - 1 := pc];
    } else {
      assert loops[i := pc][1..] == loops[1..];
    }
  }

  lemma WeightOfOne(law: Law, a: Counter)
    ensures PendingWeight(law, [a]) == CounterWeight(law, a)
  {
  }

  lemma WeightOfTwo(law: Law, a: Counter, b: Counter)
    ensures PendingWeight(law, [a, b]) == CounterWeight(law, a) + CounterWeight(law, b)
  {
    assert [a, b][1..] == [b];
    WeightOfOne(law, b);
  }

  lemma BumpBooks(law: Law, m: Metrics, c: Counter)
    ensures Booked(law, Bump(m, c)) == Booked(law, m) + CounterWeight(law, c)
  {
  }

  // A stage hands over to the next with its weight intact, whatever branch it takes.

  lemma ScreenConserves(law: Law, cfg: Config, job: Job)
    requires ValidConfig(cfg)
    ensures PcWeight(law, AfterScreen(cfg, job)) == StageWeight(law, Screen(job))
  {
  }

  lemma RateConserves(law: Law, cfg: Config, job: Job, now: int, decision: Decision)
    ensures PcWeight(law, AfterRate(cfg, job, decision)) == StageWeight(law, CheckRate(job, now))
  {
  }

  lemma ParseConserves(law: Law, cfg: Config, job: Job)
    ensures PcWeight(law, AfterParse(cfg, job)) == StageWeight(law, ParseRequest(job))
  {
    WeightOfTwo(law, MalformedTotal, DroppedTotal);
    WeightOfTwo(law, UnsupportedVersionTotal, DroppedTotal);
    WeightOfTwo(law, UnsupportedModeTotal, DroppedTotal);
  }

  lemma KissConserves(law: Law, cfg: Config, job: Job, code: KissCode)
    ensures PcWeight(law, AfterParseForKiss(cfg, job, code)) == StageWeight(law, ParseForKiss(job, code))
  {
  }

  lemma StampConserves(law: Law, job: Job, side: ServerSide, reading: Option<NtpTimestamp>)
    ensures PcWeight(law, AfterStamp(job, side, reading)) == StageWeight(law, Stamp(job, side))
  {
  }

  lemma SendConserves(law: Law, job: Job, side: ServerSide, transmit: NtpTimestamp, ok: bool)
    ensures PcWeight(law, AfterSend(side, ok))
         == StageWeight(law, Send(job, side, transmit)) - FailureWeight(law, side, ok)
  {
  }

  lemma ReceiveConserves(law: Law, cfg: Config, s: System, i: nat, datagram: seq<u8>, source: IpAddr,
                         t2: Option<NtpTimestamp>)
    requires i < |s.loops| && s.loops[i].Waiting? && Balanced(law, s)
    ensures Balanced(law, StepReceive(cfg, s, i, datagram, source, t2))
  {
    WeightOfOne(law, RequestsTotal);
    WeightOfTwo(law, RequestsTotal, DroppedTotal);
    var failed := [ClockErrorsTotal, RequestsTotal, DroppedTotal];
    assert failed[1..] == [RequestsTotal, DroppedTotal];
    LoopMoves(law, s.loops, i, StepReceive(cfg, s, i, datagram, source, t2).loops[i]);
  }

  /** What a failed send puts outside the counters. */
  function FailureWeight(law: Law, side: ServerSide, ok: bool): int {
    if ok then 0
    else
      match law
      case Settlement => 1
      case Classification => if side.Kiss? then 0 else 1
      case SocketFailures => -1
  }

  /** What a step of the loop takes over into the counters or out of them. */
  function Handed(law: Law, pc: Pc, sendOk: bool): int
    requires pc.Busy?
  {
    if pc.pending != [] then CounterWeight(law, pc.pending[0])
    else if pc.next.Send? then FailureWeight(law, pc.next.side, sendOk)
    else 0
  }

  lemma NextPcConserves(law: Law, cfg: Config, clock: ClockState, decision: Decision, pc: Pc, now: int,
                        reading: Option<NtpTimestamp>, sendOk: bool)
    requires ValidConfig(cfg) && pc.Busy?
    ensures PcWeight(law, NextPc(cfg, clock, decision, pc, now, reading, sendOk))
         == PcWeight(law, pc) - Handed(law, pc, sendOk)
  {
    if pc.pending == [] {
      match pc.next
      case Screen(job) => ScreenConserves(law, cfg, job);
      case CheckRate(job, sampled) => RateConserves(law, cfg, job, sampled, decision);
      case ParseRequest(job) => ParseConserves(law, cfg, job);
      case ParseForKiss(job, code) => KissConserves(law, cfg, job, code);
      case Stamp(job, side) => StampConserves(law, job, side, reading);
      case Send(job, side, transmit) => SendConserves(law, job, side, transmit, sendOk);
      case _ =>
    }
  }

  lemma EffectsConserve(law: Law, cfg: Config, s: System, pc: Pc, sendOk: bool)
    requires pc.Busy?
    ensures var s' := Effects(cfg, s, pc, sendOk);
      && s'.loops == s.loops
      && Booked(law, s'.metrics) + Unbooked(law, s')
         == Booked(law, s.metrics) + Unbooked(law, s) + Handed(law, pc, sendOk)
  {
    if pc.pending != [] {
      BumpBooks(law, s.metrics, pc.pending[0]);
    }
  }

  lemma AdvanceConserves(law: Law, cfg: Config, s: System, i: nat, now: int, reading: Option<NtpTimestamp>,
                         sendOk: bool)
    requires ValidConfig(cfg) && i < |s.loops| && s.loops[i].Busy? && Balanced(law, s)
    ensures Balanced(law, StepAdvance(cfg, s, i, now, reading, sendOk))
  {
    var pc, decision := s.loops[i], Decide(cfg, s, s.loops[i]);
    NextPcConserves(law, cfg, s.clock, decision, pc, now, reading, sendOk);
    EffectsConserve(law, cfg, s, pc, sendOk);
    LoopMoves(law, s.loops, i, NextPc(cfg, s.clock, decision, pc, now, reading, sendOk));
  }

  lemma StepConserves(law: Law, cfg: Config, s: System, a: Action)
    requires ValidConfig(cfg) && Enabled(s, a) && Balanced(law, s)
    ensures Balanced(law, Step(cfg, s, a))
  {
    match a
    case Receive(i, datagram, source, t2) => ReceiveConserves(law, cfg, s, i, datagram, source, t2);
    case ReceiveError(i) =>
      WeightOfOne(law, SocketErrorsTotal);
      LoopMoves(law, s.loops, i, Busy([SocketErrorsTotal], Done));
    case Advance(i, now, reading, sendOk) => AdvanceConserves(law, cfg, s, i, now, reading, sendOk);
    case Return(i) => LoopMoves(law, s.loops, i, Returned);
    case _ =>
  }

  lemma {:induction false} RunConserves(law: Law, cfg: Config, s: System, actions: seq<Action>)
    requires ValidConfig(cfg) && Runs(cfg, s, actions) && Balanced(law, s)
    ensures Balanced(law, After(cfg, s, actions))
    decreases |actions|
  {
    if actions != [] {
      StepConserves(law, cfg, s, actions[0]);
      RunConserves(law, cfg, Step(cfg, s, actions[0]), actions[1..]);
    }
  }

  // ---------------------------------------------------------------------
  // Datagrams in flight
  // ---------------------------------------------------------------------

  /** At every point of bumping `pending`, the loop has at most one counted, unsettled datagram. */
  predicate Light(pending: seq<Counter>, base: int) {
    0 <= PendingWeight(Settlement, pending) + base <= 1 && (pending == [] || Light(pending[1..], base))
  }

  predicate Shaped(pc: Pc) {
    pc.Busy? ==> Light(pc.pending, StageWeight(Settlement, pc.next))
  }

  predicate AllShaped(loops: seq<Pc>) {
    forall i :: 0 <= i < |loops| ==> Shaped(loops[i])
  }

  lemma ShapesOfLoops()
    ensures Light([], 0) && Light([], 1)
    ensures Light([RequestsTotal], 1) && Light([ClockErrorsTotal, RequestsTotal, DroppedTotal], 0)
    ensures Light([AccessDeniedTotal], 1) && Light([RateLimitedTotal], 1)
    ensures Light([DroppedTotal], 0) && Light([ResponsesTotal], 0) && Light([SocketErrorsTotal], 0)
    ensures Light([KodSentTotal, ResponsesTotal], 0)
    ensures forall c: Counter :: CounterWeight(Settlement, c) == 0 ==> Light([c, DroppedTotal], 0)
  {
  }

  lemma ScreenShapes(cfg: Config, job: Job)
    requires ValidConfig(cfg)
    ensures Shaped(AfterScreen(cfg, job))
  {
  }

  lemma RateShapes(cfg: Config, job: Job, decision: Decision)
    ensures Shaped(AfterRate(cfg, job, decision))
  {
  }

  lemma ParseShapes(cfg: Config, job: Job, code: KissCode)
    ensures Shaped(AfterParse(cfg, job)) && Shaped(AfterParseForKiss(cfg, job, code))
  {
    ShapesOfLoops();
  }

  lemma SendShapes(job: Job, side: ServerSide, reading: Option<NtpTimestamp>, ok: bool)
    ensures Shaped(AfterStamp(job, side, reading)) && Shaped(AfterSend(side, ok))
  {
    ShapesOfLoops();
  }

  lemma NextPcShapes(cfg: Config, clock: ClockState, decision: Decision, pc: Pc, now: int,
                     reading: Option<NtpTimestamp>, sendOk: bool)
    requires ValidConfig(cfg) && pc.Busy? && Shaped(pc)
    ensures Shaped(NextPc(cfg, clock, decision, pc, now, reading, sendOk))
  {
    if pc.pending == [] {
      NextStageShapes(cfg, clock, decision, pc.next, now, reading, sendOk);
    }
  }

  lemma NextStageShapes(cfg: Config, clock: ClockState, decision: Decision, stage: Stage, now: int,
                        reading: Option<NtpTimestamp>, sendOk: bool)
    requires ValidConfig(cfg)
    ensures Shaped(NextPc(cfg, clock, decision, Busy([], stage), now, reading, sendOk))
  {
    match stage
    case Screen(job) => ScreenShapes(cfg, job);
    case CheckRate(job, sampled) => RateShapes(cfg, job, decision);
    case ParseRequest(job) => ParseShapes(cfg, job, Rate);
    case ParseForKiss(job, code) => ParseShapes(cfg, job, code);
    case Stamp(job, side) => SendShapes(job, side, reading, sendOk);
    case Send(job, side, transmit) => SendShapes(job, side, reading, sendOk);
    case _ =>
  }

  lemma StepShapes(cfg: Config, s: System, a: Action)
    requires ValidConfig(cfg) && Enabled(s, a) && AllShaped(s.loops)
    ensures AllShaped(Step(cfg, s, a).loops) && |Step(cfg, s, a).loops| == |s.loops|
  {
    if a.Advance? {
      var pc := s.loops[a.loop];
      NextPcShapes(cfg, s.clock, Decide(cfg, s, pc), pc, a.now, a.reading, a.sendOk);
      AdvanceReplies(cfg, s, a.loop, a.now, a.reading, a.sendOk);
    } else {
      OthersShape(cfg, s, a);
    }
  }

  lemma OthersShape(cfg: Config, s: System, a: Action)
    requires ValidConfig(cfg) && Enabled(s, a) && AllShaped(s.loops) && !a.Advance?
    ensures AllShaped(Step(cfg, s, a).loops) && |Step(cfg, s, a).loops| == |s.loops|
  {
    var loops := Step(cfg, s, a).loops;
    if a.Receive? || a.ReceiveError? {
      WokenIsShaped(cfg, s, a);
      assert forall i :: 0 <= i < |loops| && i != a.loop ==> loops[i] == s.loops[i];
    } else {
      assert forall i :: 0 <= i < |loops| ==> loops[i] == s.loops[i] || loops[i].Returned?;
    }
  }

  lemma WokenIsShaped(cfg: Config, s: System, a: Action)
    requires ValidConfig(cfg) && (a.Receive? || a.ReceiveError?) && Enabled(s, a)
    ensures Shaped(Step(cfg, s, a).loops[a.loop])
  {
    ShapesOfLoops();
  }

  lemma {:induction false} RunShapes(cfg: Config, s: System, actions: seq<Action>)
    requires ValidConfig(cfg) && Runs(cfg, s, actions) && AllShaped(s.loops)
    ensures AllShaped(After(cfg, s, actions).loops) && |After(cfg, s, actions).loops| == |s.loops|
    decreases |actions|
  {
    if actions != [] {
      StepShapes(cfg, s, actions[0]);
      RunShapes(cfg, Step(cfg, s, actions[0]), actions[1..]);
    }
  }

  /** Datagrams counted in requests_total and not yet answered, dropped or lost. */
  function InFlight(s: System): int {
    LoopsWeight(Settlement, s.loops)
  }

  lemma {:induction false} ShapedLoopsWeigh(loops: seq<Pc>)
    requires AllShaped(loops)
    ensures 0 <= LoopsWeight(Settlement, loops) <= |loops|
    decreases |loops|
  {
    if loops != [] {
      ShapedLoopsWeigh(loops[1..]);
      assert Shaped(loops[0]);
    }
  }

  lemma {:induction false} IdleLoopsWeighNothing(law: Law, loops: seq<Pc>)
    requires forall i :: 0 <= i < |loops| ==> !loops[i].Busy?
    ensures LoopsWeight(law, loops) == 0
    decreases |loops|
  {
    if loops != [] {
      IdleLoopsWeighNothing(law, loops[1..]);
    }
  }

  lemma StartBalanced(law: Law, cfg: Config, sockets: nat, now: int, reading: Reading)
    requires reading.wall >= 0
    ensures Balanced(law, Start(cfg, sockets, now, reading))
  {
    IdleLoopsWeighNothing(law, Start(cfg, sockets, now, reading).loops);
  }

  /** In every state of every interleaving, each counted request is answered, dropped, lost in
      sending or in flight; never more are in flight than there are sockets; and once every loop has
      returned none is, so the books balance to the last datagram, in all three ways. */
  lemma CountersBalance(cfg: Config, sockets: nat, now: int, reading: Reading, actions: seq<Action>)
    requires ValidConfig(cfg) && reading.wall >= 0 && Runs(cfg, Start(cfg, sockets, now, reading), actions)
    ensures var s := After(cfg, Start(cfg, sockets, now, reading), actions);
      var m := s.metrics;
      && m.requests == m.responses + m.dropped + s.failedReplies + s.failedKisses + InFlight(s)
      && 0 <= InFlight(s) <= sockets
      && ((forall i :: 0 <= i < |s.loops| ==> s.loops[i].Returned?) ==>
            && m.requests == m.responses + m.dropped + s.failedReplies + s.failedKisses
            && m.requests == m.malformed + m.unsupportedVersion + m.unsupportedMode + m.rateLimited + m.accessDenied
                             + m.clockErrors + (m.responses - m.kodSent) + s.failedReplies
            && m.socketErrors == s.receiveErrors + s.failedReplies + s.failedKisses)
  {
    var s0 := Start(cfg, sockets, now, reading);
    StartBalanced(Settlement, cfg, sockets, now, reading);
    StartBalanced(Classification, cfg, sockets, now, reading);
    StartBalanced(SocketFailures, cfg, sockets, now, reading);
    RunConserves(Settlement, cfg, s0, actions);
    RunConserves(Classification, cfg, s0, actions);
    RunConserves(SocketFailures, cfg, s0, actions);
    RunShapes(cfg, s0, actions);
    BooksClose(cfg, After(cfg, s0, actions));
  }

  lemma BooksClose(cfg: Config, s: System)
    requires AllShaped(s.loops)
    ensures 0 <= InFlight(s) <= |s.loops|
    ensures (forall i :: 0 <= i < |s.loops| ==> s.loops[i].Returned?) ==>
      forall law: Law :: LoopsWeight(law, s.loops) == 0
  {
    ShapedLoopsWeigh(s.loops);
    if forall i :: 0 <= i < |s.loops| ==> s.loops[i].Returned? {
      forall law: Law ensures LoopsWeight(law, s.loops) == 0 {
        IdleLoopsWeighNothing(law, s.loops);
      }
    }
  }
}
