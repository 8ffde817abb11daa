/** NTP timestamps: 2^-32 s fractions, eras, and the way back from the wire to an absolute instant. */
module Timestamps {
  import opened Words

  const BILLION: nat := 1_000_000_000
  /** 5^9: the part of 10^9 that is not a power of two. */
  const FIVE_POW_9: nat := 1_953_125

  /** Wire format: low 32 bits of the seconds since 1900, and a fraction in units of 2^-32 s. */
  datatype NtpTimestamp = NtpTimestamp(seconds: u32, fraction: u32)

  const ZERO_TIMESTAMP := NtpTimestamp(0, 0)

  /** Signed nanoseconds since 1900-01-01. */
  type NtpInstant = int

  function FractionFromNanos(nanos: u32): (f: u32) {
    var sub := nanos % BILLION;
    sub * U32_RANGE / BILLION
  }

  function FractionToNanos(fraction: u32): (n: u32)
    ensures n < BILLION
  {
    fraction * BILLION / U32_RANGE
  }

  datatype TimestampResult = Encoded(timestamp: NtpTimestamp) | BeforeNtpEpoch

  function ToTimestamp(i: NtpInstant): TimestampResult {
    if i < 0 then BeforeNtpEpoch
    else Encoded(NtpTimestamp(i / BILLION % U32_RANGE, FractionFromNanos(i % BILLION)))
  }

  /** Resolves a timestamp in the era nearest to `pivot`. */
  function Unfold(t: NtpTimestamp, pivot: NtpInstant): NtpInstant {
    var era := (pivot / BILLION - t.seconds + U32_RANGE / 2) / U32_RANGE;
    (t.seconds + era * U32_RANGE) * BILLION + FractionToNanos(t.fraction)
  }

  // ---------------------------------------------------------------------
  // Fractions
  // ---------------------------------------------------------------------

  /** 5^9 and 2^23 have no common factor. */
  lemma FivesNeedFives(n: nat)
    ensures n * U32_RANGE % BILLION == 0 <==> n % FIVE_POW_9 == 0
  {
    var q := n / FIVE_POW_9;
    if n % FIVE_POW_9 == 0 {
      assert n * U32_RANGE == BILLION * (q * 0x80_0000);
      ZeroRemainder(n * U32_RANGE, BILLION, q * 0x80_0000);
    }
    if n * U32_RANGE % BILLION == 0 {
      var k := n * U32_RANGE / BILLION;
      assert n * 0x80_0000 == FIVE_POW_9 * k;
      Bezout(n, k);
    }
  }

  lemma ZeroRemainder(x: int, m: nat, k: int)
    requires m > 0 && x == m * k
    ensures x % m == 0
  {
    var q, r := x / m, x % m;
    assert m * (k - q) == r;
    assert k - q >= 1 ==> m * (k - q) >= m;
    assert k - q <= -1 ==> m * (k - q) <= 0;
  }

  lemma Bezout(n: nat, k: nat)
    requires n * 0x80_0000 == FIVE_POW_9 * k
    ensures n % FIVE_POW_9 == 0
  {
    // 2^23 * u - 5^9 * v == 1
    var u, v := 1241897, 5333907;
    assert n == FIVE_POW_9 * (k * u - n * v);
    ZeroRemainder(n, FIVE_POW_9, k * u - n * v);
  }

  /** One trip to the wire and back keeps a multiple of 5^9 ns and takes exactly 1 ns from any other
      sub-second count; whole seconds are folded away first. */
  lemma FractionRoundTrip(nanos: u32)
    ensures var n := nanos % BILLION;
      FractionToNanos(FractionFromNanos(nanos)) == if n % FIVE_POW_9 == 0 then n else n - 1
  {
    var n := nanos % BILLION;
    var f := FractionFromNanos(nanos);
    var r := n * U32_RANGE % BILLION;
    assert f * BILLION == n * U32_RANGE - r;
    FivesNeedFives(n);
    if r == 0 {
      assert f * BILLION / U32_RANGE == n;
    } else {
      assert f * BILLION == (n - 1) * U32_RANGE + (U32_RANGE - r);
      assert f * BILLION / U32_RANGE == n - 1;
    }
  }

  function RoundTrips(n: u32, k: nat): u32
    requires n < BILLION
    ensures RoundTrips(n, k) < BILLION
  {
    if k == 0 then n else FractionToNanos(FractionFromNanos(RoundTrips(n, k - 1)))
  }

  lemma OneTripDown(n: nat, k: nat, m: nat)
    requires k > 0 && m == Max(n - (k - 1), n / FIVE_POW_9 * FIVE_POW_9) && m < BILLION
    ensures m % BILLION == m
    ensures (if m % FIVE_POW_9 == 0 then m else m - 1) == Max(n - k, n / FIVE_POW_9 * FIVE_POW_9)
  {
  }

  /** Repeated trips wear a value down 1 ns at a time, but never past the multiple of 5^9 below it. */
  lemma {:induction false} RepeatedRoundTrips(n: u32, k: nat)
    requires n < BILLION
    ensures RoundTrips(n, k) == Max(n - k, n / FIVE_POW_9 * FIVE_POW_9)
  {
    if k > 0 {
      RepeatedRoundTrips(n, k - 1);
      FractionRoundTrip(RoundTrips(n, k - 1));
      OneTripDown(n, k, RoundTrips(n, k - 1));
    }
  }

  /** The other way round at most five units of 2^-32 s are lost, and none gained. */
  lemma FractionRoundTripBack(f: u32)
    ensures f - 5 <= FractionFromNanos(FractionToNanos(f)) <= f
  {
  }

  /** Encoding is injective and keeps the order within a second. */
  lemma FractionIsIncreasing(m: u32, n: u32)
    requires m < n < BILLION
    ensures FractionFromNanos(m) < FractionFromNanos(n)
  {
  }

  // ---------------------------------------------------------------------
  // Eras
  // ---------------------------------------------------------------------

  /** Whole-second distance from the pivot: ties go to the future. */
  predicate NearPivot(i: NtpInstant, pivot: NtpInstant) {
    -0x8000_0000 < i / BILLION - pivot / BILLION <= 0x8000_0000
  }

  lemma UnfoldSeconds(t: NtpTimestamp, pivot: NtpInstant)
    ensures var i := Unfold(t, pivot);
      i % BILLION == FractionToNanos(t.fraction) && i / BILLION % U32_RANGE == t.seconds && NearPivot(i, pivot)
  {
    var era := (pivot / BILLION - t.seconds + U32_RANGE / 2) / U32_RANGE;
    var seconds := t.seconds + era * U32_RANGE;
    var i := Unfold(t, pivot);
    RemainderOf(i, BILLION, seconds, FractionToNanos(t.fraction));
    RemainderOf(seconds, U32_RANGE, era, t.seconds);
  }

  /** `Unfold` gives the one instant near the pivot that carries the wire seconds and fraction. */
  lemma UnfoldIsTheNearest(t: NtpTimestamp, pivot: NtpInstant, i: NtpInstant)
    ensures i == Unfold(t, pivot) <==>
      i % BILLION == FractionToNanos(t.fraction) && i / BILLION % U32_RANGE == t.seconds && NearPivot(i, pivot)
  {
  }

  /** What the fraction costs: nothing, or one nanosecond. */
  function WireLoss(i: NtpInstant): nat {
    if i % BILLION % FIVE_POW_9 == 0 then 0 else 1
  }

  /** From an instant to the wire and back: exact up to the wire loss if the instant is near the
      pivot, and off by a nonzero number of whole eras if it is not. */
  lemma UnfoldInvertsEncode(i: NtpInstant, pivot: NtpInstant)
    requires i >= 0
    ensures ToTimestamp(i).Encoded?
    ensures var back := Unfold(ToTimestamp(i).timestamp, pivot);
      && (NearPivot(i, pivot) <==> back == i - WireLoss(i))
      && (back - (i - WireLoss(i))) % (U32_RANGE * BILLION) == 0
  {
    var t := ToTimestamp(i).timestamp;
    var back := Unfold(t, pivot);
    UnfoldSeconds(t, pivot);
    FractionRoundTrip(i % BILLION);
    var a, b := i / BILLION, back / BILLION;
    assert a % U32_RANGE == b % U32_RANGE;
    var eras := b / U32_RANGE - a / U32_RANGE;
    assert b - a == eras * U32_RANGE;
    assert back - (i - WireLoss(i)) == U32_RANGE * BILLION * eras;
    ZeroRemainder(back - (i - WireLoss(i)), U32_RANGE * BILLION, eras);
    assert back == i - WireLoss(i) <==> eras == 0;
    if NearPivot(i, pivot) {
      assert eras == 0;
    }
  }

  /** Moving the pivot by a whole number of eras moves the result with it. */
  lemma UnfoldFollowsEras(t: NtpTimestamp, pivot: NtpInstant, eras: int)
    ensures Unfold(t, pivot + eras * U32_RANGE * BILLION) == Unfold(t, pivot) + eras * U32_RANGE * BILLION
  {
  }

  /** Within one era, later instants have later timestamps. */
  lemma EncodingKeepsOrder(i: NtpInstant, j: NtpInstant)
    requires 0 <= i < j && i / BILLION / U32_RANGE == j / BILLION / U32_RANGE
    ensures var (s, t) := (ToTimestamp(i).timestamp, ToTimestamp(j).timestamp);
      s.seconds < t.seconds || (s.seconds == t.seconds && s.fraction < t.fraction)
  {
  }
}
