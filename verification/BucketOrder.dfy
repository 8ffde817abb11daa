/** The plain window bound, burst + rate * length, for times out of order: it holds exactly if they are
    not. */
module BucketOrder {
  import opened Words
  import opened TokenBuckets

  /** No time lies more than `skew` before the latest one so far. */
  predicate SkewedTimes(peak: int, times: seq<int>, skew: nat)
    decreases |times|
  {
    times == [] || (peak - skew <= times[0] && SkewedTimes(Max(peak, times[0]), times[1..], skew))
  }

  /** The latest of `start` and the times. */
  function PeakTime(start: int, times: seq<int>): int
    decreases |times|
  {
    if times == [] then start else PeakTime(Max(start, times[0]), times[1..])
  }

  /** Burst and rate over the window from `start` to its latest time. */
  function OrderedWorth(rate: u32, burst: u32, start: int, times: seq<int>): int {
    burst * NANOS_PER_SECOND + rate * (PeakTime(start, times) - start)
  }

  /** Every window with times out of order by at most `skew`, from any state, keeps the plain bound. */
  ghost predicate OrderedBoundHolds(rate: u32, burst: u32, skew: nat) {
    forall b: Bucket, start: int, times: seq<int> :: SkewedTimes(start, times, skew) ==>
      NANOS_PER_SECOND * TakesIn(b, rate, burst, times) <= OrderedWorth(rate, burst, start, times)
  }

  // ---------------------------------------------------------------------
  // Where it holds
  // ---------------------------------------------------------------------

  lemma {:induction false} UnskewedIsOrdered(start: int, times: seq<int>)
    requires SkewedTimes(start, times, 0)
    ensures Ordered(start, times) && PeakTime(start, times) == LastTime(start, times)
    decreases |times|
  {
    if times != [] {
      UnskewedIsOrdered(times[0], times[1..]);
    }
  }

  lemma {:induction false} PeakIsLater(start: int, times: seq<int>)
    ensures start <= PeakTime(start, times)
    decreases |times|
  {
    if times != [] {
      PeakIsLater(Max(start, times[0]), times[1..]);
    }
  }

  lemma WorthOfWindow(rate: u32, burst: u32, start: int, times: seq<int>)
    requires times != [] && SkewedTimes(start, times, 0)
    ensures WindowWorth(rate, burst, times[0], times[1..]) <= OrderedWorth(rate, burst, start, times)
  {
    UnskewedIsOrdered(start, times);
    OrderedNeverBackward(times[0], times[1..]);
    var last := LastTime(start, times);
    assert rate * (last - times[0]) + rate * (times[0] - start) == rate * (last - start);
  }

  lemma OrderedTakes(b: Bucket, rate: u32, burst: u32, start: int, times: seq<int>)
    requires SkewedTimes(start, times, 0)
    ensures NANOS_PER_SECOND * TakesIn(b, rate, burst, times) <= OrderedWorth(rate, burst, start, times)
  {
    if times != [] {
      TakesBoundedInWindow(b, rate, burst, times);
      WorthOfWindow(rate, burst, start, times);
    }
  }

  /** Without a burst nothing is ever taken. */
  lemma {:induction false} NoBurstNoTakes(b: Bucket, rate: u32, times: seq<int>)
    ensures TakesIn(b, rate, 0, times) == 0
    decreases |times|
  {
    if times != [] {
      NoBurstNoTakes(Take(b, rate, 0, times[0]).0, rate, times[1..]);
    }
  }

  /** Nor is there anything to gain in time without a rate. */
  lemma NoRateNoGain(b: Bucket, burst: u32, times: seq<int>)
    ensures NANOS_PER_SECOND * TakesIn(b, 0, burst, times) <= burst * NANOS_PER_SECOND
  {
    if times != [] {
      TakesBoundedInWindow(b, 0, burst, times);
    }
  }

  // ---------------------------------------------------------------------
  // Where it fails
  // ---------------------------------------------------------------------

  /** From p, forward by g and back by a single nanosecond, n times over. */
  function Teeth(p: int, g: nat, n: nat): seq<int>
    decreases n
  {
    if n == 0 then [] else [p + g, p + g - 1] + Teeth(p + g - 1, g, n - 1)
  }

  lemma TeethFirst(p: int, g: nat, n: nat)
    requires n > 0
    ensures Teeth(p, g, n) == [p + g] + ([p + g - 1] + Teeth(p + g - 1, g, n - 1))
    ensures Teeth(p, g, n)[1..] == [p + g - 1] + Teeth(p + g - 1, g, n - 1)
    ensures Teeth(p, g, n)[1..][1..] == Teeth(p + g - 1, g, n - 1)
  {
  }

  lemma {:induction false} TeethTimes(p: int, peak: int, g: nat, n: nat)
    requires p <= peak <= p + 1 && g >= 1
    ensures SkewedTimes(peak, Teeth(p, g, n), 1)
    ensures PeakTime(peak, Teeth(p, g, n)) == if n == 0 then peak else p + n * (g - 1) + 1
    decreases n
  {
    if n > 0 {
      TeethFirst(p, g, n);
      TeethTimes(p + g - 1, p + g, g, n - 1);
      assert n * (g - 1) == (g - 1) + (n - 1) * (g - 1);
    }
  }

  /** Each way up earns a token. */
  lemma {:induction false} TeethTakes(b: Bucket, rate: u32, burst: u32, p: int, g: nat, n: nat)
    requires burst >= 1 && b.lastRefill == p && rate * g >= NANOS_PER_SECOND && !LosesRefill(g, rate, burst)
    ensures TakesIn(b, rate, burst, Teeth(p, g, n)) >= n
    decreases n
  {
    if n > 0 {
      var up := Take(b, rate, burst, p + g).0;
      var down := Take(up, rate, burst, p + g - 1).0;
      assert Elapsed(p, p + g) == g;
      SpacedTakeSucceeds(b, rate, burst, p + g);
      TeethTakes(down, rate, burst, p + g - 1, g, n - 1);
      TeethFirst(p, g, n);
      ConsTakes(up, rate, burst, p + g - 1, Teeth(p + g - 1, g, n - 1));
      ConsTakes(b, rate, burst, p + g, [p + g - 1] + Teeth(p + g - 1, g, n - 1));
    }
  }

  /** The time in which one token is earned, rounded up. */
  function TokenTime(rate: u32): nat
    requires rate >= 1
  {
    (NANOS_PER_SECOND + rate - 1) / rate
  }

  lemma TokenTimeProduct(rate: u32)
    requires rate >= 1
    ensures 1 <= TokenTime(rate) <= NANOS_PER_SECOND
    ensures NANOS_PER_SECOND <= rate * TokenTime(rate) < NANOS_PER_SECOND + rate
  {
    var x: nat, g := NANOS_PER_SECOND + rate - 1, TokenTime(rate);
    assert x == rate * g + x % rate;
    RoundedUp(rate, g);
  }

  lemma RoundedUp(rate: nat, g: nat)
    requires rate >= 1 && NANOS_PER_SECOND <= rate * g < NANOS_PER_SECOND + rate
    ensures 1 <= g <= NANOS_PER_SECOND
  {
    assert g >= 1;
    assert rate * (g - 1) == rate * g - rate;
    assert 1 * (g - 1) <= rate * (g - 1);
  }

  lemma TokenTimeFits(rate: u32, burst: u32)
    requires rate >= 1
    ensures !LosesRefill(TokenTime(rate), rate, burst)
  {
    TokenTimeProduct(rate);
    var product := TokenTime(rate) * rate;
    assert product / 1000 < U64_RANGE;
    assert Refill(TokenTime(rate), rate) == product / 1000;
  }

  /** The whole burst at 0, then rate + 1 teeth. */
  function DisorderProbe(rate: u32, burst: u32): seq<int>
    requires rate >= 1
  {
    Repeat(0, burst) + Teeth(0, TokenTime(rate), rate + 1)
  }

  lemma {:induction false} RepeatThenSkewed(now: int, n: nat, rest: seq<int>, skew: nat)
    requires SkewedTimes(now, rest, skew)
    ensures SkewedTimes(now, Repeat(now, n) + rest, skew)
    ensures PeakTime(now, Repeat(now, n) + rest) == PeakTime(now, rest)
    decreases n
  {
    var times := Repeat(now, n) + rest;
    if n == 0 {
      assert times == rest;
    } else {
      RepeatThenSkewed(now, n - 1, rest, skew);
      assert times[1..] == Repeat(now, n - 1) + rest;
    }
  }

  lemma {:induction false} WiderSkew(peak: int, times: seq<int>, skew: nat, wider: nat)
    requires SkewedTimes(peak, times, skew) && skew <= wider
    ensures SkewedTimes(peak, times, wider)
    decreases |times|
  {
    if times != [] {
      WiderSkew(Max(peak, times[0]), times[1..], skew, wider);
    }
  }

  lemma ProbeTimesAreSkewed(rate: u32, burst: u32)
    requires rate >= 1
    ensures SkewedTimes(0, DisorderProbe(rate, burst), 1)
    ensures PeakTime(0, DisorderProbe(rate, burst)) == (rate + 1) * (TokenTime(rate) - 1) + 1
  {
    TokenTimeProduct(rate);
    TeethTimes(0, 0, TokenTime(rate), rate + 1);
    RepeatThenSkewed(0, burst, Teeth(0, TokenTime(rate), rate + 1), 1);
  }

  lemma ProbeTakes(rate: u32, burst: u32)
    requires rate >= 1 && burst >= 1
    ensures TakesIn(FullBucket(burst, 0), rate, burst, DisorderProbe(rate, burst)) >= burst + rate + 1
  {
    var teeth := Teeth(0, TokenTime(rate), rate + 1);
    TokenTimeProduct(rate);
    TokenTimeFits(rate, burst);
    TeethTakes(Bucket(0, 0), rate, burst, 0, TokenTime(rate), rate + 1);
    BurstThen(burst, rate, burst, 0, teeth);
  }

  /** n teeth gain n tokens, but last less than the time in which n tokens are earned. */
  lemma ProbeIsShort(rate: nat, g: nat)
    requires rate >= 1 && g >= 1 && rate * g < NANOS_PER_SECOND + rate
    ensures rate * ((rate + 1) * (g - 1) + 1) < NANOS_PER_SECOND * (rate + 1)
  {
    var step := rate * (g - 1);
    assert step == rate * g - rate;
    assert rate * ((rate + 1) * (g - 1) + 1) == (rate + 1) * step + rate;
    assert (rate + 1) * step <= (rate + 1) * (NANOS_PER_SECOND - 1);
  }

  /** One nanosecond of disorder, again and again, is enough. */
  lemma DisorderBreaksBound(rate: u32, burst: u32)
    requires rate >= 1 && burst >= 1
    ensures SkewedTimes(0, DisorderProbe(rate, burst), 1)
    ensures NANOS_PER_SECOND * TakesIn(FullBucket(burst, 0), rate, burst, DisorderProbe(rate, burst))
          > OrderedWorth(rate, burst, 0, DisorderProbe(rate, burst))
  {
    ProbeTimesAreSkewed(rate, burst);
    ProbeTakes(rate, burst);
    TokenTimeProduct(rate);
    ProbeIsShort(rate, TokenTime(rate));
  }

  /** The plain window bound survives disorder of up to `skew` if and only if there is none, or nothing
      that disorder could gain: no rate or no burst. */
  lemma OrderedBoundExactly(rate: u32, burst: u32, skew: nat)
    ensures OrderedBoundHolds(rate, burst, skew) <==> skew == 0 || rate == 0 || burst == 0
  {
    if skew == 0 || rate == 0 || burst == 0 {
      forall b: Bucket, start: int, times: seq<int> | SkewedTimes(start, times, skew)
        ensures NANOS_PER_SECOND * TakesIn(b, rate, burst, times) <= OrderedWorth(rate, burst, start, times)
      {
        HoldsWithoutGain(b, rate, burst, skew, start, times);
      }
    } else {
      DisorderBreaksBound(rate, burst);
      WiderSkew(0, DisorderProbe(rate, burst), 1, skew);
    }
  }

  lemma HoldsWithoutGain(b: Bucket, rate: u32, burst: u32, skew: nat, start: int, times: seq<int>)
    requires (skew == 0 || rate == 0 || burst == 0) && SkewedTimes(start, times, skew)
    ensures NANOS_PER_SECOND * TakesIn(b, rate, burst, times) <= OrderedWorth(rate, burst, start, times)
  {
    WorthIsBurst(rate, burst, start, times);
    if skew == 0 {
      OrderedTakes(b, rate, burst, start, times);
    } else if burst == 0 {
      NoBurstNoTakes(b, rate, times);
    } else {
      NoRateNoGain(b, burst, times);
    }
  }

  lemma WorthIsBurst(rate: u32, burst: u32, start: int, times: seq<int>)
    ensures OrderedWorth(rate, burst, start, times) >= burst * NANOS_PER_SECOND
  {
    PeakIsLater(start, times);
  }
}
