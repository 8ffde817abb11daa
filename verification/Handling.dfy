/** Progress: a loop is always done with a datagram after a bounded number of its own steps, whatever
    the other loops, the clock and the housekeeping do in between. */
module Handling {
  import opened Words
  import opened Timestamps
  import opened Responses
  import opened RateLimiters
  import opened Clocks
  import opened Servers

  function StageRank(stage: Stage): nat {
    match stage
    case Done => 1
    case Send(_, _, _) => 4
    case Stamp(_, _) => 5
    case ParseForKiss(_, _) => 6
    case ReadReference(_, _) => 6
    case ReadStatus(_) => 7
    case ParseRequest(_) => 8
    case CheckRate(_, _) => 9
    case SampleTime(_) => 10
    case Screen(_) => 11
  }

  function Rank(pc: Pc): nat {
    if pc.Busy? then |pc.pending| + StageRank(pc.next) else 0
  }

  lemma ScreeningRanks(cfg: Config, job: Job, decision: Decision)
    requires ValidConfig(cfg)
    ensures Rank(AfterScreen(cfg, job)) < 11 && AfterScreen(cfg, job).Busy?
    ensures Rank(AfterRate(cfg, job, decision)) < 9 && AfterRate(cfg, job, decision).Busy?
  {
  }

  lemma ParsingRanks(cfg: Config, job: Job, code: KissCode)
    ensures Rank(AfterParse(cfg, job)) < 8 && AfterParse(cfg, job).Busy?
    ensures Rank(AfterParseForKiss(cfg, job, code)) < 6 && AfterParseForKiss(cfg, job, code).Busy?
  {
  }

  lemma SendingRanks(job: Job, side: ServerSide, reading: Option<NtpTimestamp>, ok: bool)
    ensures Rank(AfterStamp(job, side, reading)) < 5 && AfterStamp(job, side, reading).Busy?
    ensures Rank(AfterSend(side, ok)) < 4 && AfterSend(side, ok).Busy?
  {
  }

  /** Every step of a busy loop brings it nearer to waiting again, whatever the environment answers. */
  lemma RankDecreases(cfg: Config, clock: ClockState, decision: Decision, pc: Pc, now: int,
                      reading: Option<NtpTimestamp>, sendOk: bool)
    requires ValidConfig(cfg) && pc.Busy?
    ensures var pc' := NextPc(cfg, clock, decision, pc, now, reading, sendOk);
      Rank(pc') < Rank(pc) && !pc'.Returned?
  {
    if pc.pending == [] {
      match pc.next
      case Screen(job) => ScreeningRanks(cfg, job, decision);
      case CheckRate(job, _) => ScreeningRanks(cfg, job, decision);
      case ParseRequest(job) => ParsingRanks(cfg, job, Rate);
      case ParseForKiss(job, code) => ParsingRanks(cfg, job, code);
      case Stamp(job, side) => SendingRanks(job, side, reading, sendOk);
      case Send(job, side, _) => SendingRanks(job, side, reading, sendOk);
      case _ =>
    }
  }

  /** The steps that loop i takes in a run. */
  function Turns(i: nat, actions: seq<Action>): nat
    decreases |actions|
  {
    if actions == [] then 0
    else (if actions[0].Advance? && actions[0].loop == i then 1 else 0) + Turns(i, actions[1..])
  }

  /** A busy loop is moved by its own steps only. */
  lemma OthersLeaveLoopAlone(cfg: Config, s: System, a: Action, i: nat)
    requires ValidConfig(cfg) && Enabled(s, a) && i < |s.loops| && s.loops[i].Busy?
    ensures var s' := Step(cfg, s, a);
      && i < |s'.loops|
      && (if a.Advance? && a.loop == i then Rank(s'.loops[i]) < Rank(s.loops[i]) && !s'.loops[i].Returned?
          else s'.loops[i] == s.loops[i])
  {
    if a.Advance? {
      var pc := s.loops[a.loop];
      AdvanceReplies(cfg, s, a.loop, a.now, a.reading, a.sendOk);
      RankDecreases(cfg, s.clock, Decide(cfg, s, pc), pc, a.now, a.reading, a.sendOk);
    }
  }

  lemma PrefixRuns(cfg: Config, s: System, actions: seq<Action>, k: nat)
    requires ValidConfig(cfg) && actions != [] && Enabled(s, actions[0]) && k < |actions|
    requires Runs(cfg, Step(cfg, s, actions[0]), actions[1..][..k])
    ensures Runs(cfg, s, actions[..k + 1])
    ensures After(cfg, s, actions[..k + 1]) == After(cfg, Step(cfg, s, actions[0]), actions[1..][..k])
  {
    assert actions[..k + 1][1..] == actions[1..][..k];
  }

  /** In every run that gives a busy loop as many steps as its rank, in whatever interleaving and with
      whatever answers, the loop waits again at some point: none is ever stuck in a handler. */
  lemma {:induction false} LoopComesToRest(cfg: Config, s: System, i: nat, actions: seq<Action>) returns (k: nat)
    requires ValidConfig(cfg) && Runs(cfg, s, actions)
    requires i < |s.loops| && s.loops[i].Busy? && Rank(s.loops[i]) <= Turns(i, actions)
    ensures k <= |actions| && Runs(cfg, s, actions[..k])
    ensures i < |After(cfg, s, actions[..k]).loops| && After(cfg, s, actions[..k]).loops[i] == Waiting
    decreases |actions|
  {
    var a := actions[0];
    var s' := Step(cfg, s, a);
    OthersLeaveLoopAlone(cfg, s, a, i);
    if s'.loops[i].Waiting? {
      k := 0;
      assert actions[1..][..0] == [];
    } else {
      k := LoopComesToRest(cfg, s', i, actions[1..]);
    }
    PrefixRuns(cfg, s, actions, k);
    k := k + 1;
  }
}
