/** Where everything in a reply comes from: the datagram it answers, the clock readings stamped into it, and
    the state of the clock that it tells. */
module Provenance {
  import opened Words
  import opened Timestamps
  import opened Responses
  import opened RateLimiters
  import opened Clocks
  import opened Servers
  import opened Service
  import opened Ledger

  // ---------------------------------------------------------------------
  // States along a run
  // ---------------------------------------------------------------------

  lemma {:induction false} RunSplit(cfg: Config, s: System, actions: seq<Action>, n: nat)
    requires ValidConfig(cfg) && Runs(cfg, s, actions) && n <= |actions|
    ensures Runs(cfg, s, actions[..n])
    ensures n < |actions| ==>
      && Enabled(After(cfg, s, actions[..n]), actions[n]) && Runs(cfg, s, actions[..n + 1])
      && After(cfg, s, actions[..n + 1]) == Step(cfg, After(cfg, s, actions[..n]), actions[n])
    decreases n
  {
    if n > 0 {
      RunSplit(cfg, Step(cfg, s, actions[0]), actions[1..], n - 1);
      assert actions[..n][1..] == actions[1..][..n - 1];
      if n < |actions| {
        assert actions[..n + 1][1..] == actions[1..][..n];
      }
    } else if |actions| > 0 {
      assert actions[..1] == [actions[0]] && actions[..1][1..] == [];
    }
  }

  /** The state before action n, or after the last one. */
  ghost function StateAt(cfg: Config, s: System, actions: seq<Action>, n: nat): System
    requires ValidConfig(cfg) && Runs(cfg, s, actions) && n <= |actions|
  {
    RunSplit(cfg, s, actions, n);
    After(cfg, s, actions[..n])
  }

  lemma NextState(cfg: Config, s: System, actions: seq<Action>, n: nat)
    requires ValidConfig(cfg) && Runs(cfg, s, actions) && n < |actions|
    ensures Enabled(StateAt(cfg, s, actions, n), actions[n])
    ensures StateAt(cfg, s, actions, n + 1) == Step(cfg, StateAt(cfg, s, actions, n), actions[n])
  {
    RunSplit(cfg, s, actions, n);
  }

  lemma LastState(cfg: Config, s: System, actions: seq<Action>)
    requires ValidConfig(cfg) && Runs(cfg, s, actions)
    ensures StateAt(cfg, s, actions, |actions|) == After(cfg, s, actions)
  {
    assert actions[..|actions|] == actions;
  }

  // ---------------------------------------------------------------------
  // The clock
  // ---------------------------------------------------------------------

  /** The readings of the clock checks, in order. */
  function ChecksIn(actions: seq<Action>): seq<Reading> {
    if actions == [] then []
    else
      ChecksIn(actions[..|actions| - 1])
      + if actions[|actions| - 1].CheckClock? then [actions[|actions| - 1].r] else []
  }

  lemma ClockStep(cfg: Config, s: System, a: Action)
    requires ValidConfig(cfg) && Enabled(s, a)
    ensures Step(cfg, s, a).clock == if a.CheckClock? then CheckJump(cfg.jumps, s.clock, a.r).0 else s.clock
  {
    if a.Advance? {
      AdvanceReplies(cfg, s, a.loop, a.now, a.reading, a.sendOk);
    }
  }

  /** In every state of every interleaving, the clock is what its checks so far have made of it, one after
      the other: the loops do not touch it. */
  lemma {:induction false} ClockFollowsChecks(cfg: Config, sockets: nat, now: int, reading: Reading,
                                              actions: seq<Action>, n: nat)
    requires ValidConfig(cfg) && reading.wall >= 0 && Runs(cfg, Start(cfg, sockets, now, reading), actions)
    requires n <= |actions|
    ensures StateAt(cfg, Start(cfg, sockets, now, reading), actions, n).clock
         == RunClock(cfg.jumps, StartClock(reading), ChecksIn(actions[..n]))
    decreases n
  {
    var s0 := Start(cfg, sockets, now, reading);
    if n > 0 {
      ClockFollowsChecks(cfg, sockets, now, reading, actions, n - 1);
      NextState(cfg, s0, actions, n - 1);
      ClockStep(cfg, StateAt(cfg, s0, actions, n - 1), actions[n - 1]);
      OneMoreCheck(cfg, reading, actions, n - 1);
    }
  }

  lemma OneMoreCheck(cfg: Config, reading: Reading, actions: seq<Action>, n: nat)
    requires reading.wall >= 0 && n < |actions|
    ensures var c := RunClock(cfg.jumps, StartClock(reading), ChecksIn(actions[..n]));
      RunClock(cfg.jumps, StartClock(reading), ChecksIn(actions[..n + 1]))
      == if actions[n].CheckClock? then CheckJump(cfg.jumps, c, actions[n].r).0 else c
  {
    var checks := ChecksIn(actions[..n]);
    assert actions[..n + 1][..n] == actions[..n];
    if actions[n].CheckClock? {
      assert (checks + [actions[n].r])[..|checks|] == checks;
    } else {
      assert checks + [] == checks;
    }
  }

  // ---------------------------------------------------------------------
  // The datagram
  // ---------------------------------------------------------------------

  /** The datagrams received, in order. */
  function ReceivesIn(actions: seq<Action>): (r: seq<Action>)
    ensures forall i :: 0 <= i < |r| ==> r[i].Receive?
  {
    if actions == [] then []
    else
      ReceivesIn(actions[..|actions| - 1])
      + if actions[|actions| - 1].Receive? then [actions[|actions| - 1]] else []
  }

  /** The job is this datagram, cut off one byte beyond the largest accepted size, with its source and T2. */
  predicate IsJobOf(cfg: Config, job: Job, a: Action)
    requires a.Receive?
  {
    && job.source == a.source && a.t2 == Some(job.receive)
    && |job.data| == Min(|a.datagram|, cfg.maxPacketSize + 1) && job.data == a.datagram[..|job.data|]
  }

  predicate Numbered(cfg: Config, receives: seq<Action>, job: Job)
    requires forall i :: 0 <= i < |receives| ==> receives[i].Receive?
  {
    job.id < |receives| && IsJobOf(cfg, job, receives[job.id])
  }

  predicate JobsAreNumbered(cfg: Config, receives: seq<Action>, s: System)
    requires forall i :: 0 <= i < |receives| ==> receives[i].Receive?
  {
    && s.received == |receives|
    && (forall i :: 0 <= i < |s.loops| && Active(s.loops[i]) ==> Numbered(cfg, receives, s.loops[i].next.job))
    && (forall r :: r in s.sent ==> Numbered(cfg, receives, r.job))
    && (forall t :: t in s.trails && t.origin.Datagram? ==> Numbered(cfg, receives, t.origin.job))
    && (forall t :: t in s.finished && t.origin.Datagram? ==> Numbered(cfg, receives, t.origin.job))
  }

  lemma MoreReceives(cfg: Config, receives: seq<Action>, more: seq<Action>, job: Job)
    requires forall i :: 0 <= i < |receives| ==> receives[i].Receive?
    requires forall i :: 0 <= i < |more| ==> more[i].Receive?
    requires receives <= more && Numbered(cfg, receives, job)
    ensures Numbered(cfg, more, job)
  {
  }

  lemma AdvanceKeepsNumbers(cfg: Config, receives: seq<Action>, s: System, a: Action)
    requires ValidConfig(cfg) && a.Advance? && Enabled(s, a) && |s.trails| == |s.loops|
    requires (forall i :: 0 <= i < |receives| ==> receives[i].Receive?) && JobsAreNumbered(cfg, receives, s)
    ensures JobsAreNumbered(cfg, receives, Step(cfg, s, a))
  {
    var i, pc := a.loop, s.loops[a.loop];
    NextPcKeepsJob(cfg, s.clock, Decide(cfg, s, pc), pc, a.now, a.reading, a.sendOk);
    AdvanceReplies(cfg, s, i, a.now, a.reading, a.sendOk);
    AdvanceTrails(cfg, s, i, a.now, a.reading, a.sendOk);
    TrailKeepsOrigin(s.trails[i], Decide(cfg, s, pc), pc, a.reading, a.sendOk);
    assert s.trails[i] in s.trails;
  }

  lemma ReceiveNumbers(cfg: Config, receives: seq<Action>, s: System, a: Action)
    requires ValidConfig(cfg) && a.Receive? && Enabled(s, a) && |s.trails| == |s.loops|
    requires (forall i :: 0 <= i < |receives| ==> receives[i].Receive?) && JobsAreNumbered(cfg, receives, s)
    ensures JobsAreNumbered(cfg, receives + [a], Step(cfg, s, a))
  {
    var s', more := Step(cfg, s, a), receives + [a];
    if a.t2.Some? {
      assert Numbered(cfg, more, s'.loops[a.loop].next.job);
    }
    forall i | 0 <= i < |s'.loops| && Active(s'.loops[i])
      ensures Numbered(cfg, more, s'.loops[i].next.job)
    {
      if i != a.loop {
        MoreReceives(cfg, receives, more, s.loops[i].next.job);
      }
    }
    forall t | t in s'.trails && t.origin.Datagram?
      ensures Numbered(cfg, more, t.origin.job)
    {
      if t in s.trails {
        MoreReceives(cfg, receives, more, t.origin.job);
      }
    }
  }

  lemma OthersKeepNumbers(cfg: Config, receives: seq<Action>, s: System, a: Action)
    requires ValidConfig(cfg) && !a.Receive? && !a.Advance? && Enabled(s, a) && |s.trails| == |s.loops|
    requires (forall i :: 0 <= i < |receives| ==> receives[i].Receive?) && JobsAreNumbered(cfg, receives, s)
    ensures JobsAreNumbered(cfg, receives, Step(cfg, s, a))
  {
  }

  lemma StepNumbers(cfg: Config, receives: seq<Action>, s: System, a: Action)
    requires ValidConfig(cfg) && Enabled(s, a) && |s.trails| == |s.loops|
    requires (forall i :: 0 <= i < |receives| ==> receives[i].Receive?) && JobsAreNumbered(cfg, receives, s)
    ensures var s' := Step(cfg, s, a);
      && |s'.trails| == |s'.loops|
      && if a.Receive? then JobsAreNumbered(cfg, receives + [a], s') else JobsAreNumbered(cfg, receives, s')
  {
    if a.Receive? {
      ReceiveNumbers(cfg, receives, s, a);
    } else if a.Advance? {
      AdvanceKeepsNumbers(cfg, receives, s, a);
      AdvanceReplies(cfg, s, a.loop, a.now, a.reading, a.sendOk);
      AdvanceTrails(cfg, s, a.loop, a.now, a.reading, a.sendOk);
    } else {
      OthersKeepNumbers(cfg, receives, s, a);
    }
  }

  lemma OneMoreReceive(actions: seq<Action>, n: nat)
    requires n < |actions|
    ensures ReceivesIn(actions[..n + 1]) ==
      if actions[n].Receive? then ReceivesIn(actions[..n]) + [actions[n]] else ReceivesIn(actions[..n])
  {
    assert actions[..n + 1][..n] == actions[..n];
    assert ReceivesIn(actions[..n]) + [] == ReceivesIn(actions[..n]);
  }

  lemma {:induction false} NumbersAt(cfg: Config, sockets: nat, now: int, reading: Reading, actions: seq<Action>,
                                     n: nat)
    requires ValidConfig(cfg) && reading.wall >= 0 && Runs(cfg, Start(cfg, sockets, now, reading), actions)
    requires n <= |actions|
    ensures var s := StateAt(cfg, Start(cfg, sockets, now, reading), actions, n);
      JobsAreNumbered(cfg, ReceivesIn(actions[..n]), s) && |s.trails| == |s.loops|
    decreases n
  {
    if n > 0 {
      var s0 := Start(cfg, sockets, now, reading);
      NumbersAt(cfg, sockets, now, reading, actions, n - 1);
      NextState(cfg, s0, actions, n - 1);
      OneMoreReceive(actions, n - 1);
      StepNumbers(cfg, ReceivesIn(actions[..n - 1]), StateAt(cfg, s0, actions, n - 1), actions[n - 1]);
    }
  }

  function BytesOf(receives: seq<Action>): nat
    requires forall i :: 0 <= i < |receives| ==> receives[i].Receive?
  {
    if receives == [] then 0
    else BytesOf(receives[..|receives| - 1]) + |receives[|receives| - 1].datagram|
  }

  lemma BytesStep(cfg: Config, s: System, a: Action)
    requires ValidConfig(cfg) && Enabled(s, a)
    ensures Step(cfg, s, a).bytesReceived == s.bytesReceived + if a.Receive? then |a.datagram| else 0
  {
  }

  /** The bytes that the server's output is measured against are those of the datagrams received. */
  lemma {:induction false} BytesAreReceived(cfg: Config, sockets: nat, now: int, reading: Reading,
                                            actions: seq<Action>, n: nat)
    requires ValidConfig(cfg) && reading.wall >= 0 && Runs(cfg, Start(cfg, sockets, now, reading), actions)
    requires n <= |actions|
    ensures StateAt(cfg, Start(cfg, sockets, now, reading), actions, n).bytesReceived
         == BytesOf(ReceivesIn(actions[..n]))
    decreases n
  {
    var s0 := Start(cfg, sockets, now, reading);
    if n > 0 {
      BytesAreReceived(cfg, sockets, now, reading, actions, n - 1);
      NextState(cfg, s0, actions, n - 1);
      BytesStep(cfg, StateAt(cfg, s0, actions, n - 1), actions[n - 1]);
      OneMoreReceive(actions, n - 1);
      var receives := ReceivesIn(actions[..n - 1]);
      assert (receives + [actions[n - 1]])[..|receives|] == receives;
    }
  }

  // ---------------------------------------------------------------------
  // T3
  // ---------------------------------------------------------------------

  /** The transmit timestamp is the reading recorded for T3; only a Kiss-o'-Death goes without one. */
  predicate CarriesStamp(t: Trail, side: ServerSide, transmit: NtpTimestamp) {
    match t.stamp
    case Some(t3) => transmit == t3
    case None => side.Kiss? && transmit == NtpTimestamp(0, 0)
  }

  /** The trail is that of the datagram which the reply answers. */
  predicate RecordsReply(t: Trail, r: Reply) {
    t.origin == Datagram(r.job) && t.sendOk && CarriesStamp(t, r.side, r.transmit)
  }

  predicate AboutToSend(pc: Pc, t: Trail) {
    pc.Busy? && pc.next.Send? ==> t.origin == Datagram(pc.next.job) && CarriesStamp(t, pc.next.side, pc.next.transmit)
  }

  predicate Finishing(pc: Pc) {
    pc.Busy? && pc.next.Done?
  }

  ghost predicate OnFile(s: System, r: Reply) {
    || (exists t :: t in s.finished && RecordsReply(t, r))
    || (exists i :: 0 <= i < |s.loops| && i < |s.trails| && Finishing(s.loops[i]) && RecordsReply(s.trails[i], r))
  }

  ghost predicate StampsAreSent(s: System) {
    && |s.trails| == |s.loops|
    && (forall i :: 0 <= i < |s.loops| ==> AboutToSend(s.loops[i], s.trails[i]))
    && (forall r :: r in s.sent ==> OnFile(s, r))
  }

  /** What a loop about to send newly holds. */
  lemma NextPcStamps(cfg: Config, clock: ClockState, decision: Decision, pc: Pc, now: int,
                     reading: Option<NtpTimestamp>, sendOk: bool)
    requires ValidConfig(cfg) && pc.Busy?
    ensures var pc' := NextPc(cfg, clock, decision, pc, now, reading, sendOk);
      pc'.Busy? && pc'.next.Send? ==>
        || (pc'.next == pc.next && pc.pending != [])
        || (&& pc == Busy([], Stamp(pc'.next.job, pc'.next.side))
            && match reading
               case Some(t3) => pc'.next.transmit == t3
               case None => pc'.next.side.Kiss? && pc'.next.transmit == NtpTimestamp(0, 0))
  {
  }

  lemma StampThenSend(cfg: Config, clock: ClockState, decision: Decision, t: Trail, pc: Pc, now: int,
                      reading: Option<NtpTimestamp>, sendOk: bool)
    requires ValidConfig(cfg) && pc.Busy? && AboutToSend(pc, t) && PcTells(cfg, t, pc)
    ensures AboutToSend(NextPc(cfg, clock, decision, pc, now, reading, sendOk),
                        NextTrail(t, decision, pc, reading, sendOk))
  {
    NextPcStamps(cfg, clock, decision, pc, now, reading, sendOk);
  }

  lemma FinishingStays(cfg: Config, clock: ClockState, decision: Decision, t: Trail, pc: Pc, now: int,
                       reading: Option<NtpTimestamp>, sendOk: bool, r: Reply)
    requires ValidConfig(cfg) && Finishing(pc) && RecordsReply(t, r)
    ensures RecordsReply(NextTrail(t, decision, pc, reading, sendOk), r)
    ensures !Finishes(pc) ==> Finishing(NextPc(cfg, clock, decision, pc, now, reading, sendOk))
  {
  }

  lemma SendIsRecorded(cfg: Config, clock: ClockState, decision: Decision, t: Trail, pc: Pc, now: int,
                       reading: Option<NtpTimestamp>)
    requires ValidConfig(cfg) && AtSend(pc) && AboutToSend(pc, t)
    ensures RecordsReply(NextTrail(t, decision, pc, reading, true), Reply(pc.next.job, pc.next.side, pc.next.transmit))
    ensures Finishing(NextPc(cfg, clock, decision, pc, now, reading, true)) && !Finishes(pc)
  {
  }

  lemma ReplyStaysOnFile(cfg: Config, s: System, a: Action, r: Reply)
    requires ValidConfig(cfg) && a.Advance? && Enabled(s, a) && StampsAreSent(s)
    requires r in Step(cfg, s, a).sent
    ensures OnFile(Step(cfg, s, a), r)
  {
    var i, pc, s' := a.loop, s.loops[a.loop], Step(cfg, s, a);
    var decision := Decide(cfg, s, pc);
    AdvanceReplies(cfg, s, i, a.now, a.reading, a.sendOk);
    AdvanceTrails(cfg, s, i, a.now, a.reading, a.sendOk);
    if r !in s.sent {
      SendIsRecorded(cfg, s.clock, decision, s.trails[i], pc, a.now, a.reading);
      assert Finishing(s'.loops[i]) && RecordsReply(s'.trails[i], r);
    } else {
      assert OnFile(s, r);
      OldReplyStays(cfg, s, a, r);
    }
  }

  lemma OldReplyStays(cfg: Config, s: System, a: Action, r: Reply)
    requires ValidConfig(cfg) && a.Advance? && Enabled(s, a) && |s.trails| == |s.loops| && OnFile(s, r)
    ensures OnFile(Step(cfg, s, a), r)
  {
    var i, pc, s' := a.loop, s.loops[a.loop], Step(cfg, s, a);
    var decision := Decide(cfg, s, pc);
    AdvanceReplies(cfg, s, i, a.now, a.reading, a.sendOk);
    AdvanceTrails(cfg, s, i, a.now, a.reading, a.sendOk);
    if t :| t in s.finished && RecordsReply(t, r) {
      assert t in s'.finished;
    } else {
      var j :| 0 <= j < |s.loops| && Finishing(s.loops[j]) && RecordsReply(s.trails[j], r);
      if j == i {
        FinishingStays(cfg, s.clock, decision, s.trails[i], pc, a.now, a.reading, a.sendOk, r);
        if Finishes(pc) {
          assert NextTrail(s.trails[i], decision, pc, a.reading, a.sendOk) in s'.finished;
        }
      }
      assert (j == i && Finishes(pc)) || (Finishing(s'.loops[j]) && RecordsReply(s'.trails[j], r));
    }
  }

  lemma AdvanceSendsStamps(cfg: Config, s: System, a: Action)
    requires ValidConfig(cfg) && a.Advance? && Enabled(s, a) && StampsAreSent(s) && LoopsTell(cfg, s)
    ensures StampsAreSent(Step(cfg, s, a))
  {
    var i, pc, s' := a.loop, s.loops[a.loop], Step(cfg, s, a);
    assert PcTells(cfg, s.trails[i], pc) && AboutToSend(pc, s.trails[i]);
    StampThenSend(cfg, s.clock, Decide(cfg, s, pc), s.trails[i], pc, a.now, a.reading, a.sendOk);
    FinishesExactly(cfg, s.clock, Decide(cfg, s, pc), pc, a.now, a.reading, a.sendOk);
    AdvanceReplies(cfg, s, i, a.now, a.reading, a.sendOk);
    AdvanceTrails(cfg, s, i, a.now, a.reading, a.sendOk);
    forall r | r in s'.sent ensures OnFile(s', r) {
      ReplyStaysOnFile(cfg, s, a, r);
    }
  }

  lemma OthersSendNothing(cfg: Config, s: System, a: Action)
    requires ValidConfig(cfg) && !a.Advance? && Enabled(s, a) && StampsAreSent(s)
    ensures StampsAreSent(Step(cfg, s, a))
  {
    var s' := Step(cfg, s, a);
    assert s'.sent == s.sent && s'.finished == s.finished && |s'.loops| == |s.loops|;
    forall r | r in s'.sent ensures OnFile(s', r) {
      if t :| t in s.finished && RecordsReply(t, r) {
        assert t in s'.finished;
      } else {
        var j :| 0 <= j < |s.loops| && Finishing(s.loops[j]) && RecordsReply(s.trails[j], r);
        assert Finishing(s'.loops[j]) && RecordsReply(s'.trails[j], r);
      }
    }
  }

  lemma {:induction false} RunSendsStamps(cfg: Config, s: System, actions: seq<Action>)
    requires ValidConfig(cfg) && Runs(cfg, s, actions) && StampsAreSent(s) && LoopsTell(cfg, s) && BooksTally(s)
    ensures StampsAreSent(After(cfg, s, actions))
    decreases |actions|
  {
    if actions != [] {
      if actions[0].Advance? {
        AdvanceSendsStamps(cfg, s, actions[0]);
      } else {
        OthersSendNothing(cfg, s, actions[0]);
      }
      StepTells(cfg, s, actions[0]);
      RunSendsStamps(cfg, Step(cfg, s, actions[0]), actions[1..]);
    }
  }

  // ---------------------------------------------------------------------
  // Status and reference time
  // ---------------------------------------------------------------------

  /** Action j is the step at which the loop in charge of the job reads the status of the clock. */
  ghost predicate StatusReadAt(cfg: Config, s: System, actions: seq<Action>, j: nat, job: Job, status: ClockStatus)
    requires ValidConfig(cfg) && Runs(cfg, s, actions)
  {
    j < |actions| &&
    var (at, a) := (StateAt(cfg, s, actions, j), actions[j]);
    && a.Advance? && a.loop < |at.loops| && at.loops[a.loop] == Busy([], ReadStatus(job))
    && (status == Synchronised <==> at.clock.synchronised)
  }

  /** Action k is the step at which it reads the reference time. */
  ghost predicate ReferenceReadAt(cfg: Config, s: System, actions: seq<Action>, k: nat, job: Job,
                                  reference: NtpTimestamp)
    requires ValidConfig(cfg) && Runs(cfg, s, actions)
  {
    k < |actions| &&
    var (at, a) := (StateAt(cfg, s, actions, k), actions[k]);
    && a.Advance? && a.loop < |at.loops| && at.loops[a.loop].Busy? && at.loops[a.loop].pending == []
    && at.loops[a.loop].next.ReadReference? && at.loops[a.loop].next.job == job
    && (match at.clock.reference case Some(t) => reference == t case None => reference == NtpTimestamp(0, 0))
  }

  /** Action m is the step at which it reads the clock for T3; a Kiss-o'-Death may go without. */
  ghost predicate StampReadAt(cfg: Config, s: System, actions: seq<Action>, m: nat, job: Job, side: ServerSide,
                              transmit: NtpTimestamp)
    requires ValidConfig(cfg) && Runs(cfg, s, actions)
  {
    m < |actions| &&
    var (at, a) := (StateAt(cfg, s, actions, m), actions[m]);
    && a.Advance? && a.loop < |at.loops| && at.loops[a.loop] == Busy([], Stamp(job, side))
    && (match a.reading case Some(t3) => transmit == t3 case None => side.Kiss? && transmit == NtpTimestamp(0, 0))
  }

  ghost predicate StampRead(cfg: Config, s: System, actions: seq<Action>, n: nat, job: Job, side: ServerSide,
                            transmit: NtpTimestamp)
    requires ValidConfig(cfg) && Runs(cfg, s, actions)
  {
    exists m: nat :: m < n && StampReadAt(cfg, s, actions, m, job, side, transmit)
  }

  ghost predicate StatusRead(cfg: Config, s: System, actions: seq<Action>, n: nat, job: Job, status: ClockStatus)
    requires ValidConfig(cfg) && Runs(cfg, s, actions)
  {
    exists j: nat :: j < n && StatusReadAt(cfg, s, actions, j, job, status)
  }

  /** Before action n, first the status and then the reference time of the reply were read. */
  ghost predicate SideRead(cfg: Config, s: System, actions: seq<Action>, n: nat, job: Job, side: ServerSide)
    requires ValidConfig(cfg) && Runs(cfg, s, actions)
  {
    side.Normal? ==>
      exists j: nat, k: nat :: j < k < n
        && StatusReadAt(cfg, s, actions, j, job, side.status)
        && ReferenceReadAt(cfg, s, actions, k, job, side.reference)
  }

  ghost predicate PcRead(cfg: Config, s: System, actions: seq<Action>, n: nat, pc: Pc)
    requires ValidConfig(cfg) && Runs(cfg, s, actions)
  {
    pc.Busy? ==>
      && (pc.next.ReadReference? ==> StatusRead(cfg, s, actions, n, pc.next.job, pc.next.status))
      && (pc.next.Stamp? || pc.next.Send? ==> SideRead(cfg, s, actions, n, pc.next.job, pc.next.side))
      && (pc.next.Send? ==> StampRead(cfg, s, actions, n, pc.next.job, pc.next.side, pc.next.transmit))
  }

  ghost predicate AllRead(cfg: Config, s: System, actions: seq<Action>, n: nat, at: System)
    requires ValidConfig(cfg) && Runs(cfg, s, actions)
  {
    && (forall i :: 0 <= i < |at.loops| ==> PcRead(cfg, s, actions, n, at.loops[i]))
    && (forall r :: r in at.sent ==> ReplyRead(cfg, s, actions, n, r))
  }

  /** What the reply tells was read before action n. */
  ghost predicate ReplyRead(cfg: Config, s: System, actions: seq<Action>, n: nat, r: Reply)
    requires ValidConfig(cfg) && Runs(cfg, s, actions)
  {
    SideRead(cfg, s, actions, n, r.job, r.side) && StampRead(cfg, s, actions, n, r.job, r.side, r.transmit)
  }

  lemma LaterRead(cfg: Config, s: System, actions: seq<Action>, n: nat, job: Job, status: ClockStatus, side: ServerSide)
    requires ValidConfig(cfg) && Runs(cfg, s, actions)
    ensures StatusRead(cfg, s, actions, n, job, status) ==> StatusRead(cfg, s, actions, n + 1, job, status)
    ensures SideRead(cfg, s, actions, n, job, side) ==> SideRead(cfg, s, actions, n + 1, job, side)
  {
  }

  lemma LaterReplyRead(cfg: Config, s: System, actions: seq<Action>, n: nat, r: Reply)
    requires ValidConfig(cfg) && Runs(cfg, s, actions) && ReplyRead(cfg, s, actions, n, r)
    ensures ReplyRead(cfg, s, actions, n + 1, r)
  {
    LaterRead(cfg, s, actions, n, r.job, Synchronised, r.side);
  }

  lemma LaterPcRead(cfg: Config, s: System, actions: seq<Action>, n: nat, pc: Pc)
    requires ValidConfig(cfg) && Runs(cfg, s, actions) && PcRead(cfg, s, actions, n, pc)
    ensures PcRead(cfg, s, actions, n + 1, pc)
  {
    if pc.Busy? && pc.next.ReadReference? {
      LaterRead(cfg, s, actions, n, pc.next.job, pc.next.status, Kiss(Rate));
    } else if pc.Busy? && (pc.next.Stamp? || pc.next.Send?) {
      LaterRead(cfg, s, actions, n, pc.next.job, Synchronised, pc.next.side);
    }
  }

  /** What a loop newly holds after its step, by the stage it was in. */
  lemma NextPcReads(cfg: Config, clock: ClockState, decision: Decision, pc: Pc, now: int,
                    reading: Option<NtpTimestamp>, sendOk: bool)
    requires ValidConfig(cfg) && pc.Busy?
    ensures var pc' := NextPc(cfg, clock, decision, pc, now, reading, sendOk);
      && (pc'.Busy? && pc'.next.ReadReference? ==>
            || pc'.next == pc.next
            || (pc == Busy([], ReadStatus(pc'.next.job)) && (pc'.next.status == Synchronised <==> clock.synchronised)))
      && (pc'.Busy? && (pc'.next.Stamp? || pc'.next.Send?) && pc'.next.side.Normal? ==>
            || ((pc.next.Stamp? || pc.next.Send?) && pc.next.job == pc'.next.job && pc.next.side == pc'.next.side)
            || (&& pc.pending == [] && pc.next.ReadReference? && pc.next.job == pc'.next.job
                && pc.next.status == pc'.next.side.status
                && (match clock.reference
                    case Some(t) => pc'.next.side.reference == t
                    case None => pc'.next.side.reference == NtpTimestamp(0, 0))))
  {
  }

  lemma PcReadsOn(cfg: Config, s: System, actions: seq<Action>, n: nat, i: nat)
    requires ValidConfig(cfg) && Runs(cfg, s, actions) && n < |actions| && actions[n].Advance? && actions[n].loop == i
    requires AllRead(cfg, s, actions, n, StateAt(cfg, s, actions, n))
    requires Enabled(StateAt(cfg, s, actions, n), actions[n])
    ensures var at, a := StateAt(cfg, s, actions, n), actions[n];
      PcRead(cfg, s, actions, n + 1,
             NextPc(cfg, at.clock, Decide(cfg, at, at.loops[i]), at.loops[i], a.now, a.reading, a.sendOk))
  {
    var at, a := StateAt(cfg, s, actions, n), actions[n];
    var pc := at.loops[i];
    assert PcRead(cfg, s, actions, n, pc);
    LaterPcRead(cfg, s, actions, n, pc);
    var pc' := NextPc(cfg, at.clock, Decide(cfg, at, pc), pc, a.now, a.reading, a.sendOk);
    NextPcReads(cfg, at.clock, Decide(cfg, at, pc), pc, a.now, a.reading, a.sendOk);
    NextPcStamps(cfg, at.clock, Decide(cfg, at, pc), pc, a.now, a.reading, a.sendOk);
    if pc'.Busy? && pc'.next.Send? && pc'.next != pc.next {
      assert StampReadAt(cfg, s, actions, n, pc'.next.job, pc'.next.side, pc'.next.transmit);
    }
    if pc'.Busy? && pc'.next.ReadReference? && pc'.next != pc.next {
      assert StatusReadAt(cfg, s, actions, n, pc'.next.job, pc'.next.status);
    }
    if pc'.Busy? && (pc'.next.Stamp? || pc'.next.Send?) && pc'.next.side.Normal? && pc.next.ReadReference? {
      assert StatusRead(cfg, s, actions, n, pc.next.job, pc.next.status);
      assert ReferenceReadAt(cfg, s, actions, n, pc'.next.job, pc'.next.side.reference);
    }
  }

  lemma AdvanceReads(cfg: Config, s: System, actions: seq<Action>, n: nat)
    requires ValidConfig(cfg) && Runs(cfg, s, actions) && n < |actions| && actions[n].Advance?
    requires AllRead(cfg, s, actions, n, StateAt(cfg, s, actions, n))
    ensures AllRead(cfg, s, actions, n + 1, StateAt(cfg, s, actions, n + 1))
  {
    var at, a := StateAt(cfg, s, actions, n), actions[n];
    NextState(cfg, s, actions, n);
    AdvanceReplies(cfg, at, a.loop, a.now, a.reading, a.sendOk);
    PcReadsOn(cfg, s, actions, n, a.loop);
    var next := StateAt(cfg, s, actions, n + 1);
    forall i | 0 <= i < |next.loops| ensures PcRead(cfg, s, actions, n + 1, next.loops[i]) {
      if i != a.loop {
        LaterPcRead(cfg, s, actions, n, at.loops[i]);
      }
    }
    forall r | r in next.sent ensures ReplyRead(cfg, s, actions, n + 1, r) {
      if r !in at.sent {
        assert PcRead(cfg, s, actions, n, at.loops[a.loop]);
      }
      LaterReplyRead(cfg, s, actions, n, r);
    }
  }

  lemma OthersRead(cfg: Config, s: System, actions: seq<Action>, n: nat)
    requires ValidConfig(cfg) && Runs(cfg, s, actions) && n < |actions| && !actions[n].Advance?
    requires AllRead(cfg, s, actions, n, StateAt(cfg, s, actions, n))
    ensures AllRead(cfg, s, actions, n + 1, StateAt(cfg, s, actions, n + 1))
  {
    var at := StateAt(cfg, s, actions, n);
    NextState(cfg, s, actions, n);
    var next := StateAt(cfg, s, actions, n + 1);
    assert next.sent == at.sent && |next.loops| == |at.loops|;
    forall i | 0 <= i < |next.loops| ensures PcRead(cfg, s, actions, n + 1, next.loops[i]) {
      LaterPcRead(cfg, s, actions, n, at.loops[i]);
    }
    forall r | r in next.sent ensures ReplyRead(cfg, s, actions, n + 1, r) {
      LaterReplyRead(cfg, s, actions, n, r);
    }
  }

  lemma {:induction false} ReadAt(cfg: Config, s: System, actions: seq<Action>, n: nat)
    requires ValidConfig(cfg) && Runs(cfg, s, actions) && n <= |actions|
    requires s.sent == [] && forall i :: 0 <= i < |s.loops| ==> s.loops[i].Waiting?
    ensures AllRead(cfg, s, actions, n, StateAt(cfg, s, actions, n))
    decreases n
  {
    if n > 0 {
      ReadAt(cfg, s, actions, n - 1);
      if actions[n - 1].Advance? {
        AdvanceReads(cfg, s, actions, n - 1);
      } else {
        OthersRead(cfg, s, actions, n - 1);
      }
    }
  }

  // ---------------------------------------------------------------------
  // Theorems
  // ---------------------------------------------------------------------

  /** In every interleaving: reply to the datagram numbered n is reply to the n-th datagram received, with its
      source and its T2; its T3 is the reading that was taken for it, and zero only for a Kiss-o'-Death whose
      reading failed; and a normal one carries the status and the reference time that the clock had at the
      steps at which its own loop read them, in this order. */
  lemma RepliesTellTheTruth(cfg: Config, sockets: nat, now: int, reading: Reading, actions: seq<Action>, r: Reply)
    requires ValidConfig(cfg) && reading.wall >= 0 && Runs(cfg, Start(cfg, sockets, now, reading), actions)
    requires r in After(cfg, Start(cfg, sockets, now, reading), actions).sent
    ensures var s0 := Start(cfg, sockets, now, reading);
      && Numbered(cfg, ReceivesIn(actions), r.job)
      && OnFile(After(cfg, s0, actions), r)
      && ReplyRead(cfg, s0, actions, |actions|, r)
  {
    var s0 := Start(cfg, sockets, now, reading);
    LastState(cfg, s0, actions);
    assert actions[..|actions|] == actions;
    NumbersAt(cfg, sockets, now, reading, actions, |actions|);
    StartTells(cfg, sockets, now, reading);
    RunSendsStamps(cfg, s0, actions);
    ReadAt(cfg, s0, actions, |actions|);
  }

  /** Likewise everything on file is about the datagram that its number says. */
  lemma FilesTellTheTruth(cfg: Config, sockets: nat, now: int, reading: Reading, actions: seq<Action>, t: Trail)
    requires ValidConfig(cfg) && reading.wall >= 0 && Runs(cfg, Start(cfg, sockets, now, reading), actions)
    requires t in After(cfg, Start(cfg, sockets, now, reading), actions).finished && t.origin.Datagram?
    ensures Numbered(cfg, ReceivesIn(actions), t.origin.job)
  {
    LastState(cfg, Start(cfg, sockets, now, reading), actions);
    assert actions[..|actions|] == actions;
    NumbersAt(cfg, sockets, now, reading, actions, |actions|);
  }
}
