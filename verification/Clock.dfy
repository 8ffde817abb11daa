/** The system clock source: jump detection against the monotonic clock, and the latch it drives. */
module Clocks {
  import opened Words
  import opened Timestamps
  import opened Responses

  /** Thresholds in nanoseconds. */
  datatype JumpPolicy = JumpPolicy(maxBackward: nat, maxForward: nat, markOnJump: bool)

  /** A simultaneous reading of the wall clock and the monotonic clock. */
  datatype Reading = Reading(wall: NtpInstant, mono: int)

  datatype ClockJump = ClockJump(driftNanos: int, markedUnsynchronised: bool)

  datatype ClockState = ClockState(synchronised: bool, reference: Option<NtpTimestamp>, last: Reading)

  function Status(c: ClockState): ClockStatus {
    if c.synchronised then Synchronised else Unsynchronised
  }

  /** Wall-clock movement minus monotonic movement. */
  function Drift(before: Reading, after: Reading): int {
    after.wall - before.wall - Elapsed(before.mono, after.mono)
  }

  predicate Jumps(policy: JumpPolicy, before: Reading, after: Reading) {
    Drift(before, after) < -(policy.maxBackward as int) || Drift(before, after) > policy.maxForward
  }

  /** Specification of `check_jump`. */
  function CheckJump(policy: JumpPolicy, c: ClockState, r: Reading): (ClockState, Option<ClockJump>) {
    if Jumps(policy, c.last, r) then
      (c.(last := r, synchronised := c.synchronised && !policy.markOnJump),
       Some(ClockJump(Drift(c.last, r), policy.markOnJump)))
    else if c.synchronised && r.wall >= 0 then
      (c.(last := r, reference := Some(ToTimestamp(r.wall).timestamp)), None)
    else
      (c.(last := r), None)
  }

  class SystemClockSource {
    const policy: JumpPolicy
    var synchronised: bool
    var reference: Option<NtpTimestamp>
    var lastWall: NtpInstant
    var lastMono: int

    function View(): ClockState
      reads this
    {
      ClockState(synchronised, reference, Reading(lastWall, lastMono))
    }

    constructor (policy: JumpPolicy, reference: NtpTimestamp, now: Reading)
      ensures this.policy == policy
      ensures View() == ClockState(true, Some(reference), now)
    {
      this.policy := policy;
      synchronised := true;
      this.reference := Some(reference);
      lastWall := now.wall;
      lastMono := now.mono;
    }

    /** `SystemClockSource::new`: an error exactly for a wall clock before the NTP epoch. */
    static method Open(policy: JumpPolicy, now: Reading) returns (r: Option<SystemClockSource>)
      ensures r.None? <==> now.wall < 0
      ensures r.Some? ==> fresh(r.value) && r.value.policy == policy && r.value.View() == StartClock(now)
    {
      var ts := ToTimestamp(now.wall);
      match ts
      case BeforeNtpEpoch => r := None;
      case Encoded(reference) =>
        var source := new SystemClockSource(policy, reference, now);
        r := Some(source);
    }

    method CheckForJump(now: Reading) returns (jump: Option<ClockJump>)
      modifies this
      ensures (View(), jump) == CheckJump(policy, old(View()), now)
    {
      var monoElapsed := Elapsed(lastMono, now.mono);
      var wallElapsed := now.wall - lastWall;
      lastWall := now.wall;
      lastMono := now.mono;
      var drift := wallElapsed - monoElapsed;
      var jumped := drift < -(policy.maxBackward as int) || drift > policy.maxForward;
      if jumped {
        var marked := policy.markOnJump;
        if marked {
          synchronised := false;
        }
        jump := Some(ClockJump(drift, marked));
      } else {
        if synchronised {
          var ts := ToTimestamp(now.wall);
          if ts.Encoded? {
            reference := Some(ts.timestamp);
          }
        }
        jump := None;
      }
    }
  }

  // ---------------------------------------------------------------------
  // One check
  // ---------------------------------------------------------------------

  /** By how much the wall clock has moved on more than the monotonic one, which does not run backwards. */
  function Gain(before: Reading, after: Reading): int {
    if after.mono >= before.mono then (after.wall - before.wall) - (after.mono - before.mono)
    else after.wall - before.wall
  }

  /** The gain is within the thresholds. */
  predicate Plausible(policy: JumpPolicy, before: Reading, after: Reading) {
    -(policy.maxBackward as int) <= Gain(before, after) <= policy.maxForward
  }

  /** A check reports a jump if and only if the gain since the last one is not plausible, and reports that
      gain. Only a report can end the synchronisation, and only if the policy says so; only a synchronised
      check without a report, of a wall clock that can be encoded, refreshes the reference. */
  lemma CheckExactly(policy: JumpPolicy, c: ClockState, r: Reading)
    ensures var (c', jump) := CheckJump(policy, c, r);
      && (jump.None? <==> Plausible(policy, c.last, r))
      && (jump.Some? ==> jump.value == ClockJump(Gain(c.last, r), policy.markOnJump))
      && c'.last == r
      && (Status(c') == Synchronised <==> Status(c) == Synchronised && (jump.None? || !policy.markOnJump))
      && (Status(c) == Synchronised && jump.None? && r.wall >= 0 ==>
            c'.reference == Some(ToTimestamp(r.wall).timestamp))
      && (Status(c) == Unsynchronised || jump.Some? || r.wall < 0 ==> c'.reference == c.reference)
      && (Status(c') == Synchronised <==> c'.synchronised)
  {
  }

  // ---------------------------------------------------------------------
  // Runs: one check per reading
  // ---------------------------------------------------------------------

  function StartClock(start: Reading): ClockState
    requires start.wall >= 0
  {
    ClockState(true, Some(ToTimestamp(start.wall).timestamp), start)
  }

  function RunClock(policy: JumpPolicy, c: ClockState, readings: seq<Reading>): ClockState
    decreases |readings|
  {
    if readings == [] then c
    else CheckJump(policy, RunClock(policy, c, readings[..|readings| - 1]), readings[|readings| - 1]).0
  }

  /** The reading before check j. */
  function Previous(start: Reading, readings: seq<Reading>, j: nat): Reading
    requires j < |readings|
  {
    if j == 0 then start else readings[j - 1]
  }

  predicate JumpsAt(policy: JumpPolicy, start: Reading, readings: seq<Reading>, j: nat)
    requires j < |readings|
  {
    !Plausible(policy, Previous(start, readings, j), readings[j])
  }

  /** Some check among the first n marks the source unsynchronised. */
  predicate MarkedWithin(policy: JumpPolicy, start: Reading, readings: seq<Reading>, n: nat)
    requires n <= |readings|
  {
    policy.markOnJump && exists j :: 0 <= j < n && JumpsAt(policy, start, readings, j)
  }

  /** Check j confirms the source and can be encoded. */
  predicate Confirms(policy: JumpPolicy, start: Reading, readings: seq<Reading>, j: nat)
    requires j < |readings|
  {
    !JumpsAt(policy, start, readings, j) && readings[j].wall >= 0 && !MarkedWithin(policy, start, readings, j)
  }

  /** The wall reading at construction, or at the last check that confirmed the source. */
  function LastConfirmedWall(policy: JumpPolicy, start: Reading, readings: seq<Reading>, n: nat): NtpInstant
    requires n <= |readings|
  {
    if n == 0 then start.wall
    else if Confirms(policy, start, readings, n - 1) then readings[n - 1].wall
    else LastConfirmedWall(policy, start, readings, n - 1)
  }

  lemma MarkedStep(policy: JumpPolicy, start: Reading, readings: seq<Reading>, n: nat)
    requires n < |readings|
    ensures MarkedWithin(policy, start, readings, n + 1)
       <==> MarkedWithin(policy, start, readings, n) || (policy.markOnJump && JumpsAt(policy, start, readings, n))
  {
  }

  lemma {:induction false} LastConfirmedIsEncodable(policy: JumpPolicy, start: Reading, readings: seq<Reading>, n: nat)
    requires n <= |readings| && start.wall >= 0
    ensures LastConfirmedWall(policy, start, readings, n) >= 0
  {
    if n > 0 {
      LastConfirmedIsEncodable(policy, start, readings, n - 1);
    }
  }

  /** The whole state after any run. It is unsynchronised exactly if some check so far marked it,
      so it never comes back; and its reference timestamp encodes the wall reading at construction
      or at the last check, before any mark, that found no jump. */
  lemma {:induction false} ClockRunExactly(policy: JumpPolicy, start: Reading, readings: seq<Reading>, n: nat)
    requires n <= |readings| && start.wall >= 0
    ensures LastConfirmedWall(policy, start, readings, n) >= 0
    ensures RunClock(policy, StartClock(start), readings[..n]) ==
      ClockState(!MarkedWithin(policy, start, readings, n),
                 Some(ToTimestamp(LastConfirmedWall(policy, start, readings, n)).timestamp),
                 if n == 0 then start else readings[n - 1])
  {
    LastConfirmedIsEncodable(policy, start, readings, n);
    if n > 0 {
      ClockRunExactly(policy, start, readings, n - 1);
      assert readings[..n][..n - 1] == readings[..n - 1];
      MarkedStep(policy, start, readings, n - 1);
      CheckExactly(policy, RunClock(policy, StartClock(start), readings[..n - 1]), readings[n - 1]);
    }
  }

  /** The latch: from a marked jump on, the status stays Unsynchronised and the reference stands still. */
  lemma {:induction false} DesynchronisationLatches(policy: JumpPolicy, c: ClockState, readings: seq<Reading>)
    requires !c.synchronised
    ensures var c' := RunClock(policy, c, readings);
      Status(c') == Unsynchronised && c'.reference == c.reference
    decreases |readings|
  {
    if readings != [] {
      DesynchronisationLatches(policy, c, readings[..|readings| - 1]);
    }
  }

  // ---------------------------------------------------------------------
  // Drift
  // ---------------------------------------------------------------------

  function TotalDrift(start: Reading, readings: seq<Reading>): int
    decreases |readings|
  {
    if readings == [] then 0 else Drift(start, readings[0]) + TotalDrift(readings[0], readings[1..])
  }

  predicate MonotonicFrom(start: Reading, readings: seq<Reading>)
    decreases |readings|
  {
    readings == [] || (start.mono <= readings[0].mono && MonotonicFrom(readings[0], readings[1..]))
  }

  function LastReading(start: Reading, readings: seq<Reading>): Reading {
    if readings == [] then start else readings[|readings| - 1]
  }

  /** The per-check drifts add up to the wall movement minus the monotonic movement of the whole run. */
  lemma {:induction false} DriftTelescopes(start: Reading, readings: seq<Reading>)
    requires MonotonicFrom(start, readings)
    ensures var end := LastReading(start, readings);
      TotalDrift(start, readings) == (end.wall - start.wall) - (end.mono - start.mono)
    decreases |readings|
  {
    if readings != [] {
      DriftTelescopes(readings[0], readings[1..]);
    }
  }

  /** No check of the run reports a jump. */
  predicate NoneReported(policy: JumpPolicy, c: ClockState, readings: seq<Reading>)
    decreases |readings|
  {
    readings == [] ||
    var (c', jump) := CheckJump(policy, c, readings[0]);
    jump.None? && NoneReported(policy, c', readings[1..])
  }

  /** n quiet checks in a row, in whatever state they start, bound the accumulated drift by n times
      the thresholds: a slow walk is not detected, but it is bounded. */
  lemma {:induction false} QuietChecksBoundDrift(policy: JumpPolicy, c: ClockState, readings: seq<Reading>)
    requires NoneReported(policy, c, readings) && MonotonicFrom(c.last, readings)
    ensures var end := LastReading(c.last, readings);
      var drift := (end.wall - c.last.wall) - (end.mono - c.last.mono);
      -(|readings| * policy.maxBackward) <= drift <= |readings| * policy.maxForward
    decreases |readings|
  {
    if readings != [] {
      QuietChecksBoundDrift(policy, CheckJump(policy, c, readings[0]).0, readings[1..]);
      var n := |readings|;
      assert n * policy.maxForward == (n - 1) * policy.maxForward + policy.maxForward;
      assert n * policy.maxBackward == (n - 1) * policy.maxBackward + policy.maxBackward;
    }
  }

  // ---------------------------------------------------------------------
  // Steady clocks
  // ---------------------------------------------------------------------

  /** From each reading to the next, the gain is plausible. */
  predicate Steady(policy: JumpPolicy, last: Reading, readings: seq<Reading>)
    decreases |readings|
  {
    readings == [] || (Plausible(policy, last, readings[0]) && Steady(policy, readings[0], readings[1..]))
  }

  /** Checks are silent, in whatever state they start, exactly for steady clocks. */
  lemma {:induction false} SilentExactly(policy: JumpPolicy, c: ClockState, readings: seq<Reading>)
    ensures NoneReported(policy, c, readings) <==> Steady(policy, c.last, readings)
    decreases |readings|
  {
    if readings != [] {
      CheckExactly(policy, c, readings[0]);
      SilentExactly(policy, CheckJump(policy, c, readings[0]).0, readings[1..]);
    }
  }

  lemma {:induction false} SteadyAt(policy: JumpPolicy, start: Reading, readings: seq<Reading>, j: nat)
    requires Steady(policy, start, readings) && j < |readings|
    ensures !JumpsAt(policy, start, readings, j)
    decreases |readings|
  {
    if j > 0 {
      SteadyAt(policy, readings[0], readings[1..], j - 1);
      assert Previous(readings[0], readings[1..], j - 1) == Previous(start, readings, j);
    }
  }

  /** The last wall reading that can be encoded. */
  function LastEncodable(start: Reading, readings: seq<Reading>, n: nat): NtpInstant
    requires n <= |readings|
  {
    if n == 0 then start.wall
    else if readings[n - 1].wall >= 0 then readings[n - 1].wall
    else LastEncodable(start, readings, n - 1)
  }

  lemma {:induction false} SteadyConfirms(policy: JumpPolicy, start: Reading, readings: seq<Reading>, n: nat)
    requires Steady(policy, start, readings) && n <= |readings|
    ensures !MarkedWithin(policy, start, readings, n)
    ensures LastConfirmedWall(policy, start, readings, n) == LastEncodable(start, readings, n)
    decreases n
  {
    if n > 0 {
      SteadyConfirms(policy, start, readings, n - 1);
      SteadyAt(policy, start, readings, n - 1);
      MarkedStep(policy, start, readings, n - 1);
    }
  }

  /** A steady clock is never reported and stays synchronised, with the last encodable reading for its
      reference. */
  lemma SteadyClockIsTrusted(policy: JumpPolicy, start: Reading, readings: seq<Reading>)
    requires start.wall >= 0 && Steady(policy, start, readings)
    ensures NoneReported(policy, StartClock(start), readings)
    ensures LastEncodable(start, readings, |readings|) >= 0
    ensures var c := RunClock(policy, StartClock(start), readings);
      && Status(c) == Synchronised
      && c.reference == Some(ToTimestamp(LastEncodable(start, readings, |readings|)).timestamp)
  {
    SilentExactly(policy, StartClock(start), readings);
    SteadyConfirms(policy, start, readings, |readings|);
    ClockRunExactly(policy, start, readings, |readings|);
    assert readings[..|readings|] == readings;
  }
}
