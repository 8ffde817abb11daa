/** Shutdown: loops return only after it, for good, and can always all be brought to return. */
module Stopping {
  import opened Words
  import opened Clocks
  import opened Servers
  import opened Handling
  import opened Accounting

  // ---------------------------------------------------------------------
  // Returning
  // ---------------------------------------------------------------------

  predicate ReturnedAfterShutdown(s: System) {
    forall i :: 0 <= i < |s.loops| && s.loops[i].Returned? ==> s.stopping
  }

  lemma StepReturns(cfg: Config, s: System, a: Action)
    requires ValidConfig(cfg) && Enabled(s, a)
    ensures var s' := Step(cfg, s, a);
      && |s'.loops| == |s.loops| && (s'.stopping <==> s.stopping || a.Shutdown?)
      && (forall i :: 0 <= i < |s.loops| && s.loops[i].Returned? ==> s'.loops[i].Returned?)
      && (forall i :: 0 <= i < |s.loops| && s'.loops[i].Returned? && !s.loops[i].Returned? ==>
            a == Return(i) && s.stopping)
  {
    if a.Advance? {
      var pc := s.loops[a.loop];
      AdvanceReplies(cfg, s, a.loop, a.now, a.reading, a.sendOk);
      RankDecreases(cfg, s.clock, Decide(cfg, s, pc), pc, a.now, a.reading, a.sendOk);
    }
  }

  /** A loop that has returned stays so, and before the shutdown none has. */
  lemma {:induction false} ReturningIsFinal(cfg: Config, s: System, actions: seq<Action>)
    requires ValidConfig(cfg) && Runs(cfg, s, actions) && ReturnedAfterShutdown(s)
    ensures var s' := After(cfg, s, actions);
      && |s'.loops| == |s.loops| && ReturnedAfterShutdown(s')
      && (forall i :: 0 <= i < |s.loops| && s.loops[i].Returned? ==> s'.loops[i].Returned?)
      && (s'.stopping <==> s.stopping || exists a :: a in actions && a.Shutdown?)
    decreases |actions|
  {
    if actions != [] {
      StepReturns(cfg, s, actions[0]);
      ReturningIsFinal(cfg, Step(cfg, s, actions[0]), actions[1..]);
      assert forall a :: a in actions <==> a == actions[0] || a in actions[1..];
    }
  }

  // ---------------------------------------------------------------------
  // Draining
  // ---------------------------------------------------------------------

  predicate OnlyFinishes(actions: seq<Action>) {
    forall a :: a in actions ==> a.Advance? || a.Return?
  }

  /** The actions bring loop i to return and leave the others where they are. */
  predicate BringsBack(cfg: Config, s: System, actions: seq<Action>, i: nat)
    requires ValidConfig(cfg) && i < |s.loops|
  {
    && OnlyFinishes(actions) && Runs(cfg, s, actions)
    && After(cfg, s, actions).loops == s.loops[i := Returned] && After(cfg, s, actions).stopping
  }

  lemma OneStepBefore(cfg: Config, s: System, a: Action, rest: seq<Action>, i: nat)
    requires ValidConfig(cfg) && i < |s.loops| && Enabled(s, a) && (a.Advance? || a.Return?)
    requires |Step(cfg, s, a).loops| == |s.loops| && Step(cfg, s, a).loops[i := Returned] == s.loops[i := Returned]
    requires BringsBack(cfg, Step(cfg, s, a), rest, i)
    ensures BringsBack(cfg, s, [a] + rest, i)
  {
    assert ([a] + rest)[1..] == rest;
  }

  lemma {:induction false} Drain(cfg: Config, s: System, i: nat) returns (actions: seq<Action>)
    requires ValidConfig(cfg) && i < |s.loops| && s.stopping
    ensures BringsBack(cfg, s, actions, i)
    decreases !s.loops[i].Returned?, Rank(s.loops[i])
  {
    if s.loops[i].Returned? {
      actions := [];
      assert s.loops[i := Returned] == s.loops;
    } else {
      var a := if s.loops[i].Waiting? then Return(i) else Advance(i, s.latest, None, false);
      StepReturns(cfg, s, a);
      if a.Advance? {
        var pc := s.loops[i];
        AdvanceReplies(cfg, s, i, a.now, a.reading, a.sendOk);
        RankDecreases(cfg, s.clock, Decide(cfg, s, pc), pc, a.now, a.reading, a.sendOk);
      }
      assert Step(cfg, s, a).loops[i := Returned] == s.loops[i := Returned];
      var rest := Drain(cfg, Step(cfg, s, a), i);
      OneStepBefore(cfg, s, a, rest, i);
      actions := [a] + rest;
    }
  }

  predicate AllReturned(loops: seq<Pc>) {
    forall i :: 0 <= i < |loops| ==> loops[i].Returned?
  }

  lemma {:induction false} DrainFrom(cfg: Config, s: System, k: nat) returns (actions: seq<Action>)
    requires ValidConfig(cfg) && s.stopping && k <= |s.loops| && forall i :: 0 <= i < k ==> s.loops[i].Returned?
    ensures OnlyFinishes(actions) && Runs(cfg, s, actions) && AllReturned(After(cfg, s, actions).loops)
    decreases |s.loops| - k
  {
    if k == |s.loops| {
      actions := [];
    } else {
      var first := Drain(cfg, s, k);
      var rest := DrainFrom(cfg, After(cfg, s, first), k + 1);
      Appended(cfg, s, first, rest, After(cfg, After(cfg, s, first), rest));
      actions := first + rest;
    }
  }

  /** Graceful shutdown. Every run can be continued by a shutdown after which the loops only finish what they
      have in hand and return, until all have; and then the books balance to the last datagram. */
  lemma EveryRunCanStop(cfg: Config, sockets: nat, now: int, reading: Reading, actions: seq<Action>)
    returns (rest: seq<Action>)
    requires ValidConfig(cfg) && reading.wall >= 0 && Runs(cfg, Start(cfg, sockets, now, reading), actions)
    ensures OnlyFinishes(rest)
    ensures Runs(cfg, Start(cfg, sockets, now, reading), actions + ([Shutdown] + rest))
    ensures var s := After(cfg, Start(cfg, sockets, now, reading), actions + ([Shutdown] + rest));
      && AllReturned(s.loops)
      && s.metrics.requests == s.metrics.responses + s.metrics.dropped + s.failedReplies + s.failedKisses
  {
    var s0 := Start(cfg, sockets, now, reading);
    var mid := After(cfg, s0, actions);
    var stopped := Step(cfg, mid, Shutdown);
    rest := DrainFrom(cfg, stopped, 0);
    assert ([Shutdown] + rest)[1..] == rest;
    assert Runs(cfg, mid, [Shutdown] + rest);
    Appended(cfg, s0, actions, [Shutdown] + rest, After(cfg, stopped, rest));
    CountersBalance(cfg, sockets, now, reading, actions + ([Shutdown] + rest));
  }
}
