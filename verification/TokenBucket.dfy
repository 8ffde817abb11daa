/** The integer token bucket that both layers of the rate limiter are made of.
    Times are nanoseconds on the monotonic clock. */
module TokenBuckets {
  import opened Words

  /** One request costs this many micro-tokens. */
  const MICRO: nat := 1_000_000
  const NANOS_PER_SECOND: nat := 1_000_000_000

  datatype Bucket = Bucket(micro: u64, lastRefill: int)

  function Capacity(burst: u32): u64 {
    burst * MICRO
  }

  function FullBucket(burst: u32, now: int): Bucket {
    Bucket(Capacity(burst), now)
  }

  /** Micro-tokens credited for `elapsed` nanoseconds, after the cast to u64. */
  function Refill(elapsed: nat, rate: u32): u64 {
    AsU64(elapsed * rate / 1000)
  }

  /** The refill of this interval survives the cast to u64. */
  predicate Untruncated(elapsed: nat, rate: u32) {
    elapsed * rate / 1000 < U64_RANGE
  }

  function Refilled(b: Bucket, rate: u32, burst: u32, now: int): u64 {
    Min(SaturatingAdd(b.micro, Refill(Elapsed(b.lastRefill, now), rate)), Capacity(burst))
  }

  /** The refill of this interval would fill the bucket, but what the cast to u64 leaves does not. */
  predicate LosesRefill(elapsed: nat, rate: u32, burst: u32) {
    Refill(elapsed, rate) < Capacity(burst) <= elapsed * rate / 1000
  }

  /** Specification of one `try_take`: the new bucket and whether a token was spent. */
  function Take(b: Bucket, rate: u32, burst: u32, now: int): (Bucket, bool) {
    var micro := Refilled(b, rate, burst, now);
    if micro >= MICRO then (Bucket(micro - MICRO, now), true) else (Bucket(micro, now), false)
  }

  class TokenBucket {
    var microTokens: u64
    var lastRefill: int

    function View(): Bucket
      reads this
    {
      Bucket(microTokens, lastRefill)
    }

    constructor (burst: u32, now: int)
      ensures View() == FullBucket(burst, now)
    {
      microTokens := burst * MICRO;
      lastRefill := now;
    }

    method TryTake(rate: u32, burst: u32, now: int) returns (taken: bool)
      modifies this
      ensures (View(), taken) == Take(old(View()), rate, burst, now)
    {
      var elapsed := Elapsed(lastRefill, now);
      lastRefill := now;
      var refill := AsU64(elapsed * rate / 1000);
      microTokens := Min(SaturatingAdd(microTokens, refill), burst * MICRO);
      if microTokens >= MICRO {
        microTokens := microTokens - MICRO;
        taken := true;
      } else {
        taken := false;
      }
    }
  }

  // ---------------------------------------------------------------------
  // Runs of one bucket over an arbitrary sequence of times
  // ---------------------------------------------------------------------

  function TakesIn(b: Bucket, rate: u32, burst: u32, nows: seq<int>): nat
    decreases |nows|
  {
    if nows == [] then 0 else
      var (b', taken) := Take(b, rate, burst, nows[0]);
      (if taken then 1 else 0) + TakesIn(b', rate, burst, nows[1..])
  }

  function BucketAfter(b: Bucket, rate: u32, burst: u32, nows: seq<int>): Bucket
    decreases |nows|
  {
    if nows == [] then b else BucketAfter(Take(b, rate, burst, nows[0]).0, rate, burst, nows[1..])
  }

  /** Sum of the forward steps between consecutive times; backward steps count nothing. */
  function ForwardTime(start: int, nows: seq<int>): nat
    decreases |nows|
  {
    if nows == [] then 0 else Elapsed(start, nows[0]) + ForwardTime(nows[0], nows[1..])
  }

  /** Times never decrease, starting no earlier than `start`. */
  predicate Ordered(start: int, nows: seq<int>)
    decreases |nows|
  {
    nows == [] || (start <= nows[0] && Ordered(nows[0], nows[1..]))
  }

  function LastTime(start: int, nows: seq<int>): int {
    if nows == [] then start else nows[|nows| - 1]
  }

  /** A step never creates tokens out of nothing: what is left plus what was spent is at most
      what was there plus the credit for the elapsed time. This holds with truncation too. */
  lemma TakeConserves(b: Bucket, rate: u32, burst: u32, now: int)
    ensures var (b', taken) := Take(b, rate, burst, now);
      && b'.micro <= Capacity(burst)
      && 1000 * b'.micro + (if taken then NANOS_PER_SECOND else 0)
         <= 1000 * b.micro + rate * Elapsed(b.lastRefill, now)
      && 1000 * b'.micro + (if taken then NANOS_PER_SECOND else 0) <= burst * NANOS_PER_SECOND
      && b'.lastRefill == now
  {
    var product := Elapsed(b.lastRefill, now) * rate;
    assert 1000 * Refill(Elapsed(b.lastRefill, now), rate) <= product;
  }

  /** The credit of each forward step, summed. */
  ghost function ForwardCredit(rate: u32, start: int, nows: seq<int>): nat
    decreases |nows|
  {
    if nows == [] then 0 else rate * Elapsed(start, nows[0]) + ForwardCredit(rate, nows[0], nows[1..])
  }

  lemma {:induction false} CreditIsRateTimesForwardTime(rate: u32, start: int, nows: seq<int>)
    ensures ForwardCredit(rate, start, nows) == rate * ForwardTime(start, nows)
    decreases |nows|
  {
    if nows != [] {
      CreditIsRateTimesForwardTime(rate, nows[0], nows[1..]);
      var step, rest := Elapsed(start, nows[0]), ForwardTime(nows[0], nows[1..]);
      assert rate * (step + rest) == rate * step + rate * rest;
    }
  }

  lemma {:induction false} TakesBoundedByCredit(b: Bucket, rate: u32, burst: u32, nows: seq<int>)
    ensures NANOS_PER_SECOND * TakesIn(b, rate, burst, nows) + 1000 * BucketAfter(b, rate, burst, nows).micro
         <= 1000 * b.micro + ForwardCredit(rate, b.lastRefill, nows)
    decreases |nows|
  {
    if nows != [] {
      TakeConserves(b, rate, burst, nows[0]);
      TakesBoundedByCredit(Take(b, rate, burst, nows[0]).0, rate, burst, nows[1..]);
    }
  }

  /** Out-of-order times: whatever the sequence of `now` values, even a decreasing one, the takes
      of a bucket are bounded by its content plus the rate over the forward movement alone. */
  lemma TakesBoundedByForwardTime(b: Bucket, rate: u32, burst: u32, nows: seq<int>)
    ensures NANOS_PER_SECOND * TakesIn(b, rate, burst, nows) + 1000 * BucketAfter(b, rate, burst, nows).micro
         <= 1000 * b.micro + rate * ForwardTime(b.lastRefill, nows)
  {
    TakesBoundedByCredit(b, rate, burst, nows);
    CreditIsRateTimesForwardTime(rate, b.lastRefill, nows);
  }

  /** The cast to u64 is where a bucket can lose credit: it keeps the exact refill if and only if
      that refill fits, and otherwise loses a multiple of 2^64. */
  lemma TruncationExactly(elapsed: nat, rate: u32)
    ensures Refill(elapsed, rate) == elapsed * rate / 1000 <==> Untruncated(elapsed, rate)
    ensures exists k: nat :: elapsed * rate / 1000 == k * U64_RANGE + Refill(elapsed, rate)
  {
    var exact := elapsed * rate / 1000;
    assert exact == exact / U64_RANGE * U64_RANGE + Refill(elapsed, rate);
    if Untruncated(elapsed, rate) {
      assert exact % U64_RANGE == exact;
    }
  }

  /** Unless the cast loses it, the refill is the one in unbounded integers. */
  lemma RefilledExactly(b: Bucket, rate: u32, burst: u32, now: int)
    requires !LosesRefill(Elapsed(b.lastRefill, now), rate, burst)
    ensures Refilled(b, rate, burst, now)
         == Min(b.micro + Elapsed(b.lastRefill, now) * rate / 1000, burst * MICRO)
  {
    var exact := Elapsed(b.lastRefill, now) * rate / 1000;
    if exact < Capacity(burst) {
      TruncationExactly(Elapsed(b.lastRefill, now), rate);
    }
  }

  // ---------------------------------------------------------------------
  // Windows, and times that run backwards
  // ---------------------------------------------------------------------

  /** Sum of the backward steps between consecutive times. */
  function BackwardTime(start: int, nows: seq<int>): nat
    decreases |nows|
  {
    if nows == [] then 0 else Elapsed(nows[0], start) + BackwardTime(nows[0], nows[1..])
  }

  /** Every step back is made good by a step forward. */
  lemma {:induction false} ForwardIsNetPlusBackward(start: int, nows: seq<int>)
    ensures ForwardTime(start, nows) == LastTime(start, nows) - start + BackwardTime(start, nows)
    decreases |nows|
  {
    if nows != [] {
      ForwardIsNetPlusBackward(nows[0], nows[1..]);
    }
  }

  lemma {:induction false} OrderedNeverBackward(start: int, nows: seq<int>)
    requires Ordered(start, nows)
    ensures BackwardTime(start, nows) == 0 && start <= LastTime(start, nows)
    decreases |nows|
  {
    if nows != [] {
      OrderedNeverBackward(nows[0], nows[1..]);
    }
  }

  /** What a window that opens at `start` is worth, in billionths of a token: the burst, and the rate
      over its length plus the backward movement in it. */
  function WindowWorth(rate: u32, burst: u32, start: int, nows: seq<int>): int {
    burst * NANOS_PER_SECOND + rate * (LastTime(start, nows) - start + BackwardTime(start, nows))
  }

  /** Rate bound on every window, in whatever order its times come: from whatever state a bucket is in
      when the window opens, at most burst + rate * (length + backward movement) requests pass in it. */
  lemma TakesBoundedInWindow(b: Bucket, rate: u32, burst: u32, window: seq<int>)
    requires window != []
    ensures NANOS_PER_SECOND * TakesIn(b, rate, burst, window) <= WindowWorth(rate, burst, window[0], window[1..])
  {
    TakeConserves(b, rate, burst, window[0]);
    TakesBoundedByForwardTime(Take(b, rate, burst, window[0]).0, rate, burst, window[1..]);
    ForwardIsNetPlusBackward(window[0], window[1..]);
  }

  /** Forward by d and back to 0, n times over. */
  function Saw(d: nat, n: nat): seq<int> {
    if n == 0 then [] else [d, 0] + Saw(d, n - 1)
  }

  lemma {:induction false} SawTimes(d: nat, n: nat)
    ensures |Saw(d, n)| == 2 * n && (forall i :: 0 <= i < |Saw(d, n)| ==> 0 <= Saw(d, n)[i] <= d)
    ensures LastTime(0, Saw(d, n)) == 0 && BackwardTime(0, Saw(d, n)) == n * d
    decreases n
  {
    if n > 0 {
      SawTimes(d, n - 1);
      assert Saw(d, n)[1..] == [0] + Saw(d, n - 1) && ([0] + Saw(d, n - 1))[1..] == Saw(d, n - 1);
      assert n * d == d + (n - 1) * d;
    }
  }

  /** One tooth: a token is earned and spent on the way up, and the way down costs nothing. */
  lemma Tooth(b: Bucket, rate: u32, burst: u32, d: nat)
    requires burst >= 1 && b.lastRefill == 0
    requires rate * d >= NANOS_PER_SECOND && !LosesRefill(d, rate, burst)
    ensures var (up, taken) := Take(b, rate, burst, d);
      && taken
      && (rate * d == NANOS_PER_SECOND && b.micro == 0 ==>
            up.micro == 0 && Take(up, rate, burst, 0) == (Bucket(0, 0), false))
  {
    RefilledExactly(b, rate, burst, d);
    assert d * rate == rate * d;
    assert Elapsed(d, 0) * rate == 0;
  }

  lemma ConsTakes(b: Bucket, rate: u32, burst: u32, now: int, nows: seq<int>)
    ensures TakesIn(b, rate, burst, [now] + nows)
         == (if Take(b, rate, burst, now).1 then 1 else 0) + TakesIn(Take(b, rate, burst, now).0, rate, burst, nows)
  {
    assert ([now] + nows)[1..] == nows;
  }

  /** The bound without the backward movement is lost without limit: within the same [0, d], with d just
      long enough to earn a token, a bucket whose times go back and forth n times gives n tokens. The
      bound with it is reached: an empty bucket that earns exactly a token each time gives no more. */
  lemma {:induction false} DisorderEarnsTokens(b: Bucket, rate: u32, burst: u32, d: nat, n: nat)
    requires burst >= 1 && b.lastRefill == 0
    requires rate * d >= NANOS_PER_SECOND && !LosesRefill(d, rate, burst)
    ensures TakesIn(b, rate, burst, Saw(d, n)) >= n
    ensures rate * d == NANOS_PER_SECOND && b.micro == 0 ==> TakesIn(b, rate, burst, Saw(d, n)) == n
    decreases n
  {
    if n > 0 {
      var up := Take(b, rate, burst, d).0;
      var down := Take(up, rate, burst, 0).0;
      Tooth(b, rate, burst, d);
      DisorderEarnsTokens(down, rate, burst, d, n - 1);
      ConsTakes(up, rate, burst, 0, Saw(d, n - 1));
      ConsTakes(b, rate, burst, d, [0] + Saw(d, n - 1));
      assert Saw(d, n) == [d] + ([0] + Saw(d, n - 1));
    }
  }

  function Repeat(now: int, n: nat): seq<int> {
    if n == 0 then [] else [now] + Repeat(now, n - 1)
  }

  lemma RepeatFirst(now: int, n: nat, rest: seq<int>)
    requires n > 0
    ensures Repeat(now, n) + rest == [now] + (Repeat(now, n - 1) + rest)
  {
  }

  lemma TakeAtOnce(tokens: nat, rate: u32, burst: u32, now: int)
    requires 0 < tokens <= burst
    ensures Take(Bucket(tokens * MICRO, now), rate, burst, now) == (Bucket((tokens - 1) * MICRO, now), true)
  {
    assert Elapsed(now, now) * rate == 0;
  }

  lemma {:induction false} BurstThen(tokens: nat, rate: u32, burst: u32, now: int, rest: seq<int>)
    requires tokens <= burst
    ensures TakesIn(Bucket(tokens * MICRO, now), rate, burst, Repeat(now, tokens) + rest)
         == tokens + TakesIn(Bucket(0, now), rate, burst, rest)
    decreases tokens
  {
    if tokens == 0 {
      assert Repeat(now, tokens) + rest == rest;
    } else {
      TakeAtOnce(tokens, rate, burst, now);
      BurstThen(tokens - 1, rate, burst, now, rest);
      ConsTakes(Bucket(tokens * MICRO, now), rate, burst, now, Repeat(now, tokens - 1) + rest);
      RepeatFirst(now, tokens, rest);
    }
  }

  lemma {:induction false} RepeatThenMovement(now: int, n: nat, rest: seq<int>)
    ensures LastTime(now, Repeat(now, n) + rest) == LastTime(now, rest)
    ensures BackwardTime(now, Repeat(now, n) + rest) == BackwardTime(now, rest)
    decreases n
  {
    var times := Repeat(now, n) + rest;
    if n == 0 {
      assert times == rest;
    } else {
      RepeatThenMovement(now, n - 1, rest);
      assert times == [now] + (Repeat(now, n - 1) + rest);
      assert times[1..] == Repeat(now, n - 1) + rest;
    }
  }

  lemma OneTokenIsNotLost(rate: u32, burst: u32, d: nat)
    requires rate * d == NANOS_PER_SECOND
    ensures !LosesRefill(d, rate, burst)
  {
    assert d * rate == rate * d;
    assert Refill(d, rate) == d * rate / 1000;
  }

  lemma WholeTeeth(rate: nat, d: nat, n: nat)
    requires rate * d == NANOS_PER_SECOND
    ensures rate * (n * d) == NANOS_PER_SECOND * n
  {
    assert rate * (n * d) == n * (rate * d);
  }

  /** For every burst, every rate that divides a second and every amount of backward movement in steps
      of one token, the window bound is attained. */
  lemma WindowBoundIsTight(rate: u32, burst: u32, d: nat, n: nat)
    requires burst >= 1 && rate * d == NANOS_PER_SECOND
    ensures var times := Repeat(0, burst) + Saw(d, n);
      NANOS_PER_SECOND * TakesIn(FullBucket(burst, 0), rate, burst, times) == WindowWorth(rate, burst, 0, times)
  {
    var saw := Saw(d, n);
    OneTokenIsNotLost(rate, burst, d);
    DisorderEarnsTokens(Bucket(0, 0), rate, burst, d, n);
    BurstThen(burst, rate, burst, 0, saw);
    RepeatThenMovement(0, burst, saw);
    SawTimes(d, n);
    WholeTeeth(rate, d, n);
  }

  // ---------------------------------------------------------------------
  // Fairness of the refill
  // ---------------------------------------------------------------------

  /** Splitting an interval never gains micro-tokens and loses at most one. */
  lemma SplitRefill(a: nat, b: nat, rate: u32)
    requires Untruncated(a + b, rate)
    ensures Refill(a, rate) + Refill(b, rate) <= Refill(a + b, rate) <= Refill(a, rate) + Refill(b, rate) + 1
  {
    var x, y := a * rate, b * rate;
    assert (a + b) * rate == x + y;
    DivideSum(x, y);
    TruncationExactly(a + b, rate);
    TruncationExactly(a, rate);
    TruncationExactly(b, rate);
  }

  lemma DivideSum(x: nat, y: nat)
    ensures x / 1000 + y / 1000 <= (x + y) / 1000 <= x / 1000 + y / 1000 + 1
  {
  }

  predicate EachUntruncated(start: int, rate: u32, nows: seq<int>)
    decreases |nows|
  {
    nows == [] || (Untruncated(Elapsed(start, nows[0]), rate) && EachUntruncated(nows[0], rate, nows[1..]))
  }

  /** No refill in the run is cut off at the capacity. */
  predicate NeverCapped(b: Bucket, rate: u32, burst: u32, nows: seq<int>)
    decreases |nows|
  {
    nows == [] ||
    (b.micro + Refill(Elapsed(b.lastRefill, nows[0]), rate) <= Capacity(burst)
     && NeverCapped(Take(b, rate, burst, nows[0]).0, rate, burst, nows[1..]))
  }

  lemma UncappedTake(b: Bucket, rate: u32, burst: u32, now: int)
    requires Untruncated(Elapsed(b.lastRefill, now), rate)
    requires b.micro + Refill(Elapsed(b.lastRefill, now), rate) <= Capacity(burst)
    ensures var (b', taken) := Take(b, rate, burst, now);
      1000 * b'.micro + (if taken then NANOS_PER_SECOND else 0)
      >= 1000 * b.micro + rate * Elapsed(b.lastRefill, now) - 999
  {
    var product := Elapsed(b.lastRefill, now) * rate;
    assert 1000 * Refill(Elapsed(b.lastRefill, now), rate) >= product - 999;
  }

  lemma {:induction false} UncappedTakesKeepCredit(b: Bucket, rate: u32, burst: u32, nows: seq<int>)
    requires EachUntruncated(b.lastRefill, rate, nows)
    requires NeverCapped(b, rate, burst, nows)
    ensures 1000 * BucketAfter(b, rate, burst, nows).micro + NANOS_PER_SECOND * TakesIn(b, rate, burst, nows)
         >= 1000 * b.micro + ForwardCredit(rate, b.lastRefill, nows) - 999 * |nows|
    decreases |nows|
  {
    if nows != [] {
      UncappedTake(b, rate, burst, nows[0]);
      UncappedTakesKeepCredit(Take(b, rate, burst, nows[0]).0, rate, burst, nows[1..]);
    }
  }

  /** An uncapped bucket polled n times holds more than its start plus the exact credit for the
      time covered, minus one micro-token for each poll and the tokens spent. */
  lemma PollingLosesUnderOneMicroTokenEach(b: Bucket, rate: u32, burst: u32, nows: seq<int>)
    requires EachUntruncated(b.lastRefill, rate, nows)
    requires NeverCapped(b, rate, burst, nows)
    ensures 1000 * BucketAfter(b, rate, burst, nows).micro + NANOS_PER_SECOND * TakesIn(b, rate, burst, nows)
         >= 1000 * b.micro + rate * ForwardTime(b.lastRefill, nows) - 999 * |nows|
  {
    UncappedTakesKeepCredit(b, rate, burst, nows);
    CreditIsRateTimesForwardTime(rate, b.lastRefill, nows);
  }

  /** A request at least 10^9/rate ns after the previous poll always finds a token, unless the cast
      loses it. */
  lemma SpacedTakeSucceeds(b: Bucket, rate: u32, burst: u32, now: int)
    requires burst >= 1
    requires rate * Elapsed(b.lastRefill, now) >= NANOS_PER_SECOND
    requires !LosesRefill(Elapsed(b.lastRefill, now), rate, burst)
    ensures Take(b, rate, burst, now).1
  {
    RefilledExactly(b, rate, burst, now);
    var product := Elapsed(b.lastRefill, now) * rate;
    assert product / 1000 >= MICRO;
  }
}
