/** The diagnostic client: one exchange with a server, and what its offset and delay are worth. */
module ClientQuery {
  import opened Words
  import opened Timestamps
  import opened Packets
  import opened Responses

  datatype Report = Report(delayNanos: int, offsetNanos: int, originMatched: bool)

  datatype QueryResult = Measured(report: Report) | Malformed(actual: nat) | UnexpectedMode(mode: Mode)

  /** The request sent at T1. */
  function QueryRequest(version: NtpVersion, t1Wire: NtpTimestamp): NtpPacket {
    NtpPacket(NoWarning, version, Client, 0, 6, -20, 0, 0, ReferenceId(0, 0, 0, 0),
              ZERO_TIMESTAMP, ZERO_TIMESTAMP, ZERO_TIMESTAMP, t1Wire)
  }

  /** What the client makes of the datagram received at T4. */
  function Evaluate(t1: NtpInstant, t1Wire: NtpTimestamp, t4: NtpInstant, data: seq<u8>): QueryResult {
    var parsed := Parse(data);
    if parsed.TooShort? then Malformed(parsed.actual)
    else if parsed.packet.mode != Server then UnexpectedMode(parsed.packet.mode)
    else
      var response := parsed.packet;
      var t2 := Unfold(response.receiveTimestamp, t1);
      var t3 := Unfold(response.transmitTimestamp, t1);
      Measured(Report((t4 - t1) - (t3 - t2), TruncatingHalf((t2 - t1) + (t3 - t4)),
                      response.originTimestamp == t1Wire))
  }

  /** One exchange: the client sends at T1, the server receives at T2 and answers at T3 on its own
      clock, and the client receives at T4. */
  function Measurement(version: NtpVersion, side: ServerSide, t1: NtpInstant, t2: NtpInstant, t3: NtpInstant,
                       t4: NtpInstant): QueryResult
    requires t1 >= 0 && t2 >= 0 && t3 >= 0
  {
    var t1Wire := ToTimestamp(t1).timestamp;
    var request := Encode(QueryRequest(version, t1Wire));
    ParseInvertsEncode(QueryRequest(version, t1Wire));
    Evaluate(t1, t1Wire, t4, ReplyBytes(request, side, ToTimestamp(t2).timestamp, ToTimestamp(t3).timestamp))
  }

  /** An instant encoded by one side and unfolded by the other. */
  function OverTheWire(i: NtpInstant, pivot: NtpInstant): NtpInstant
    requires i >= 0
  {
    Unfold(ToTimestamp(i).timestamp, pivot)
  }

  /** The report for server times as seen by the client: the delay exactly; the offset as half the sum of
      both differences, rounded toward zero. */
  predicate Reports(report: Report, t1: int, seen2: int, seen3: int, t4: int) {
    var sum := (seen2 - t1) + (seen3 - t4);
    && report.delayNanos == (t4 - t1) - (seen3 - seen2)
    && Abs(2 * report.offsetNanos - sum) <= 1 && Abs(2 * report.offsetNanos) <= Abs(sum)
  }

  lemma HalvedTowardZero(x: int)
    ensures Abs(2 * TruncatingHalf(x) - x) <= 1 && Abs(2 * TruncatingHalf(x)) <= Abs(x)
  {
  }

  /** What the client makes of any datagram, read off its bytes: it is too short, or not from a server, or
      it is measured by the timestamps at bytes 32 and 40, and matched by the one at byte 24. */
  lemma EvaluateExactly(t1: NtpInstant, t1Wire: NtpTimestamp, t4: NtpInstant, data: seq<u8>)
    ensures var result := Evaluate(t1, t1Wire, t4, data);
      && (result.Malformed? <==> |data| < 48) && (result.Malformed? ==> result.actual == |data|)
      && (result.UnexpectedMode? <==> |data| >= 48 && data[0] % 8 != 4)
      && (result.UnexpectedMode? ==> ModeToBits(result.mode) == data[0] % 8)
      && (result.Measured? ==>
            && Reports(result.report, t1, Unfold(ReadTimestamp(data, 32), t1), Unfold(ReadTimestamp(data, 40), t1), t4)
            && (result.report.originMatched <==> data[24..32] == TimestampBytes(t1Wire)))
  {
    if |data| >= 48 {
      TimestampRoundTripBack(data, 24);
      var t2, t3 := Unfold(ReadTimestamp(data, 32), t1), Unfold(ReadTimestamp(data, 40), t1);
      HalvedTowardZero((t2 - t1) + (t3 - t4));
      if data[24..32] == TimestampBytes(t1Wire) {
        ReadTimestampIn(data, 24, t1Wire);
      }
    }
  }

  /** The request on the wire: a client's, with nothing but T1 in it. */
  lemma RequestOnTheWire(version: NtpVersion, t1Wire: NtpTimestamp)
    ensures var e := Encode(QueryRequest(version, t1Wire));
      && e[0] == 8 * version + 3 && e[1] == 0 && e[2] == 6 && e[3] == 0x100 - 20
      && (forall i :: 4 <= i < 40 ==> e[i] == 0)
      && e[40..48] == TimestampBytes(t1Wire)
  {
    var e := Encode(QueryRequest(version, t1Wire));
    WireLayout(QueryRequest(version, t1Wire));
    assert WordBytes(0) == [0, 0, 0, 0] && TimestampBytes(ZERO_TIMESTAMP) == [0, 0, 0, 0, 0, 0, 0, 0];
    assert ReferenceIdBytes(ReferenceId(0, 0, 0, 0)) == [0, 0, 0, 0];
    assert forall i :: 4 <= i < 8 ==> e[i] == e[4..8][i - 4];
    assert forall i :: 8 <= i < 12 ==> e[i] == e[8..12][i - 8];
    assert forall i :: 12 <= i < 16 ==> e[i] == e[12..16][i - 12];
    assert forall i :: 16 <= i < 24 ==> e[i] == e[16..24][i - 16];
    assert forall i :: 24 <= i < 32 ==> e[i] == e[24..32][i - 24];
    assert forall i :: 32 <= i < 40 ==> e[i] == e[32..40][i - 32];
  }

  /** The client's own request comes back matched, with both server times as the wire leaves them. */
  predicate Seen(result: QueryResult, t1: int, seen2: int, seen3: int, t4: int) {
    result.Measured? && result.report.originMatched && Reports(result.report, t1, seen2, seen3, t4)
  }

  lemma WireExchange(version: NtpVersion, side: ServerSide, t1: NtpInstant, t1Wire: NtpTimestamp,
                     t2Wire: NtpTimestamp, t3Wire: NtpTimestamp, t4: NtpInstant)
    ensures Parse(Encode(QueryRequest(version, t1Wire))).Parsed?
    ensures Seen(Evaluate(t1, t1Wire, t4, ReplyBytes(Encode(QueryRequest(version, t1Wire)), side, t2Wire, t3Wire)),
                 t1, Unfold(t2Wire, t1), Unfold(t3Wire, t1), t4)
  {
    var query := Encode(QueryRequest(version, t1Wire));
    RequestOnTheWire(version, t1Wire);
    ReplyOnTheWire(query, side, t2Wire, t3Wire);
    var reply := ReplyBytes(query, side, t2Wire, t3Wire);
    EvaluateExactly(t1, t1Wire, t4, reply);
    ReadTimestampIn(reply, 32, t2Wire);
    ReadTimestampIn(reply, 40, t3Wire);
  }

  lemma Exchange(version: NtpVersion, side: ServerSide, t1: NtpInstant, t2: NtpInstant, t3: NtpInstant, t4: NtpInstant)
    requires t1 >= 0 && t2 >= 0 && t3 >= 0
    ensures Seen(Measurement(version, side, t1, t2, t3, t4), t1, OverTheWire(t2, t1), OverTheWire(t3, t1), t4)
  {
    var t1Wire, t2Wire, t3Wire := ToTimestamp(t1).timestamp, ToTimestamp(t2).timestamp, ToTimestamp(t3).timestamp;
    WireExchange(version, side, t1, t1Wire, t2Wire, t3Wire, t4);
  }

  /** The report is as good as a measurement at one nanosecond resolution over this path can be. */
  predicate Accurate(result: QueryResult, theta: int, pathDelay: nat) {
    && result.Measured? && result.report.originMatched
    && Abs(result.report.delayNanos - pathDelay) <= 1
    && 2 * Abs(result.report.offsetNanos - theta) <= result.report.delayNanos + 3
  }

  const ERA_NANOS: nat := U32_RANGE * BILLION

  lemma ErasOff(i: NtpInstant, pivot: NtpInstant) returns (eras: int)
    requires i >= 0
    ensures OverTheWire(i, pivot) == i - WireLoss(i) + ERA_NANOS * eras
    ensures eras == 0 <==> NearPivot(i, pivot)
  {
    UnfoldInvertsEncode(i, pivot);
    eras := (OverTheWire(i, pivot) - (i - WireLoss(i))) / ERA_NANOS;
  }

  /** The true times of an exchange: the server's clock runs ahead of the client's by `theta`, the
      request takes `out` and the reply `back`. */
  predicate TrueTimes(t1: int, t2: int, t3: int, t4: int, theta: int, out: nat, back: nat) {
    t2 == t1 + theta + out && t4 == t3 - theta + back
  }

  /** The arithmetic of the report, k2 and k3 being the eras by which T2 and T3 are misplaced. */
  lemma ReportArithmetic(result: QueryResult, t1: int, t2: int, t3: int, t4: int, theta: int, out: nat, back: nat,
                         loss2: nat, loss3: nat, k2: int, k3: int, seen2: int, seen3: int)
    requires Seen(result, t1, seen2, seen3, t4)
    requires TrueTimes(t1, t2, t3, t4, theta, out, back) && loss2 <= 1 && loss3 <= 1
    requires seen2 == t2 - loss2 + ERA_NANOS * k2 && seen3 == t3 - loss3 + ERA_NANOS * k3
    ensures k2 == 0 && k3 == 0 ==> Accurate(result, theta, out + back)
    ensures out + back < ERA_NANOS - 3 && Accurate(result, theta, out + back) ==> k2 == 0 && k3 == 0
  {
  }

  /** Accurate if both server times are near T1, and only if they are, for paths shorter than an era. */
  predicate AccurateWhen(near: bool, result: QueryResult, theta: int, pathDelay: nat) {
    && (near ==> Accurate(result, theta, pathDelay))
    && (pathDelay < ERA_NANOS - 3 && Accurate(result, theta, pathDelay) ==> near)
  }

  lemma SeenAccuracy(result: QueryResult, t1: int, t2: int, t3: int, t4: int, theta: int, out: nat, back: nat)
    requires t2 >= 0 && t3 >= 0 && TrueTimes(t1, t2, t3, t4, theta, out, back)
    requires Seen(result, t1, OverTheWire(t2, t1), OverTheWire(t3, t1), t4)
    ensures AccurateWhen(NearPivot(t2, t1) && NearPivot(t3, t1), result, theta, out + back)
  {
    var k2 := ErasOff(t2, t1);
    var k3 := ErasOff(t3, t1);
    ReportArithmetic(result, t1, t2, t3, t4, theta, out, back, WireLoss(t2), WireLoss(t3), k2, k3,
                     OverTheWire(t2, t1), OverTheWire(t3, t1));
  }

  /** End-to-end measurement. Through encoding, wire, parsing and era unfolding, the reported delay
      is within 1 ns of the path delay and the reported offset wrong by at most half the reported
      delay plus 1.5 ns, if both server times lie within half an era of the client's T1; and only
      then, for paths that take less than an era. */
  lemma MeasurementIsAccurate(version: NtpVersion, side: ServerSide, t1: NtpInstant, t2: NtpInstant, t3: NtpInstant,
                              t4: NtpInstant,
                              theta: int, out: nat, back: nat)
    requires t1 >= 0 && t2 >= 0 && t3 >= 0 && TrueTimes(t1, t2, t3, t4, theta, out, back)
    ensures AccurateWhen(NearPivot(t2, t1) && NearPivot(t3, t1),
                         Measurement(version, side, t1, t2, t3, t4), theta, out + back)
  {
    Exchange(version, side, t1, t2, t3, t4);
    SeenAccuracy(Measurement(version, side, t1, t2, t3, t4), t1, t2, t3, t4, theta, out, back);
  }

  /** The bound is attained, for an offset of 1 ns and no path delay, whenever T2 loses a nanosecond
      on the wire and T3 does not: no constant below 3 would do. */
  lemma AccuracyBoundIsTight(version: NtpVersion, side: ServerSide, t1: NtpInstant, t3: NtpInstant)
    requires t1 >= 0 && t3 >= 0 && NearPivot(t1 + 1, t1) && NearPivot(t3, t1)
    requires WireLoss(t1 + 1) == 1 && WireLoss(t3) == 0
    ensures var result := Measurement(version, side, t1, t1 + 1, t3, t3 - 1);
      result.Measured? && 2 * Abs(result.report.offsetNanos - 1) == result.report.delayNanos + 3
  {
    Exchange(version, side, t1, t1 + 1, t3, t3 - 1);
    UnfoldInvertsEncode(t1 + 1, t1);
    UnfoldInvertsEncode(t3, t1);
  }
}
