/** Which requests are answered, and with what. */
module Responses {
  import opened Words
  import opened Timestamps
  import opened Packets

  // ---------------------------------------------------------------------
  // Validation
  // ---------------------------------------------------------------------

  datatype Policy = Policy(supportedVersions: seq<nat>, requireNonzeroTransmit: bool, allowTrailing: bool)

  datatype Rejection = TrailingData(trailing: nat) | UnsupportedMode(mode: Mode) | UnsupportedVersion(version: nat)
                     | ZeroTransmitTimestamp

  datatype Validation = Accepted | Rejected(reason: Rejection)

  function Validate(policy: Policy, packet: NtpPacket, trailing: nat): Validation {
    if trailing > 0 && !policy.allowTrailing then Rejected(TrailingData(trailing))
    else if packet.mode != Client then Rejected(UnsupportedMode(packet.mode))
    else if packet.version !in policy.supportedVersions then Rejected(UnsupportedVersion(packet.version))
    else if policy.requireNonzeroTransmit && packet.transmitTimestamp == ZERO_TIMESTAMP then
      Rejected(ZeroTransmitTimestamp)
    else Accepted
  }

  /** The datagram is a client request that the policy lets through. */
  predicate IsRequest(policy: Policy, data: seq<u8>) {
    var r := Parse(data);
    r.Parsed? && Validate(policy, r.packet, r.trailing) == Accepted
  }

  /** The verdict on a datagram of at least 48 bytes, read off its bytes: what follows them, its mode, its
      version and its transmit timestamp are looked at in this order, and the first objection is given
      with what gave rise to it. */
  lemma ValidationExactly(policy: Policy, data: seq<u8>)
    requires |data| >= PACKET_SIZE
    ensures var packet := Parse(data).packet;
      var verdict := Validate(policy, packet, Parse(data).trailing);
      var (mode, version) := (data[0] % 8, data[0] / 8 % 8);
      && (verdict == Rejected(TrailingData(|data| - 48)) <==> |data| > 48 && !policy.allowTrailing)
      && (verdict.Rejected? && verdict.reason.TrailingData? ==> verdict.reason.trailing == |data| - 48)
      && (|data| == 48 || policy.allowTrailing ==>
            && (verdict == Rejected(UnsupportedMode(packet.mode)) <==> mode != 3)
            && (verdict == Rejected(UnsupportedVersion(version)) <==>
                  mode == 3 && version !in policy.supportedVersions)
            && (verdict == Rejected(ZeroTransmitTimestamp) <==>
                  && mode == 3 && version in policy.supportedVersions && policy.requireNonzeroTransmit
                  && forall k :: 40 <= k < 48 ==> data[k] == 0)
            && (verdict == Accepted <==>
                  && mode == 3 && version in policy.supportedVersions
                  && !(policy.requireNonzeroTransmit && forall k :: 40 <= k < 48 ==> data[k] == 0)))
  {
  }

  // ---------------------------------------------------------------------
  // Replies
  // ---------------------------------------------------------------------

  datatype ClockStatus = Synchronised | Unsynchronised

  datatype KissCode = Rate | Deny | Restrict

  datatype ServerIdentity = ServerIdentity(
    stratum: u8, referenceId: ReferenceId, precision: i8, rootDelay: i32, rootDispersion: u32,
    defaultPoll: i8, leap: LeapIndicator)

  const MIN_POLL: i8 := 4
  const MAX_POLL: i8 := 17
  const STRATUM_KISS_OF_DEATH: u8 := 0
  const STRATUM_UNSYNCHRONISED: u8 := 16

  function EchoPoll(clientPoll: i8, defaultPoll: i8): i8 {
    if MIN_POLL <= clientPoll <= MAX_POLL then clientPoll
    else if defaultPoll < MIN_POLL then MIN_POLL
    else if defaultPoll > MAX_POLL then MAX_POLL
    else defaultPoll
  }

  function KissReferenceId(code: KissCode): ReferenceId {
    match code
    case Rate => ReferenceId(0x52, 0x41, 0x54, 0x45)
    case Deny => ReferenceId(0x44, 0x45, 0x4E, 0x59)
    case Restrict => ReferenceId(0x52, 0x53, 0x54, 0x52)
  }

  function BuildResponse(request: NtpPacket, identity: ServerIdentity, status: ClockStatus,
                         reference: NtpTimestamp, receive: NtpTimestamp): NtpPacket {
    NtpPacket(
      if status.Synchronised? then identity.leap else UnsynchronisedLeap,
      request.version, Server,
      if status.Synchronised? then identity.stratum else STRATUM_UNSYNCHRONISED,
      EchoPoll(request.poll, identity.defaultPoll),
      identity.precision, identity.rootDelay, identity.rootDispersion, identity.referenceId,
      reference, request.transmitTimestamp, receive, ZERO_TIMESTAMP)
  }

  function BuildKissOfDeath(request: NtpPacket, code: KissCode, receive: NtpTimestamp): NtpPacket {
    NtpPacket(
      UnsynchronisedLeap, request.version, Server, STRATUM_KISS_OF_DEATH,
      EchoPoll(request.poll, MIN_POLL), 0, 0, 0, KissReferenceId(code),
      ZERO_TIMESTAMP, request.transmitTimestamp, receive, ZERO_TIMESTAMP)
  }

  /** Stamps T3. */
  function Finalized(response: NtpPacket, transmit: NtpTimestamp): NtpPacket {
    response.(transmitTimestamp := transmit)
  }

  // ---------------------------------------------------------------------
  // Properties
  // ---------------------------------------------------------------------

  /** The server's own contribution to a reply. */
  datatype ServerSide =
    | Normal(identity: ServerIdentity, status: ClockStatus, reference: NtpTimestamp)
    | Kiss(code: KissCode)

  /** The reply to a datagram that parses as a packet. */
  function ReplyPacket(data: seq<u8>, side: ServerSide, receive: NtpTimestamp, transmit: NtpTimestamp): NtpPacket
    requires Parse(data).Parsed?
  {
    var request := Parse(data).packet;
    Finalized(
      match side
      case Normal(identity, status, reference) => BuildResponse(request, identity, status, reference, receive)
      case Kiss(code) => BuildKissOfDeath(request, code, receive),
      transmit)
  }

  function ReplyBytes(data: seq<u8>, side: ServerSide, receive: NtpTimestamp, transmit: NtpTimestamp): seq<u8>
    requires Parse(data).Parsed?
  {
    Encode(ReplyPacket(data, side, receive, transmit))
  }

  /** No reply loops: a reply is never a request, under any policy, even with bytes appended to it. */
  lemma ReplyIsNeverARequest(p: NtpPacket, policy: Policy, data: seq<u8>)
    requires p.mode == Server
    requires |data| >= PACKET_SIZE && data[..PACKET_SIZE] == Encode(p)
    ensures !IsRequest(policy, data)
  {
    ParseInvertsEncode(p);
    PacketIsFirst48Bytes(data, Encode(p));
    assert Encode(p)[..PACKET_SIZE] == Encode(p);
  }

  /** A normal reply has the identity and reference of the server, and says so if its clock is not
      synchronised; a Kiss-o'-Death has the alarm leap, stratum 0, its code in ASCII as the reference
      identifier, and nothing else of the server's. */
  predicate SideOnTheWire(reply: seq<u8>, side: ServerSide)
    requires |reply| == PACKET_SIZE
  {
    match side
    case Normal(identity, status, reference) =>
      && reply[0] / 64 == (if status.Synchronised? then LeapToBits(identity.leap) else 3)
      && reply[1] == (if status.Synchronised? then identity.stratum else 16)
      && reply[3] == UnsignedByte(identity.precision)
      && reply[4..8] == WordBytes(UnsignedWord(identity.rootDelay))
      && reply[8..12] == WordBytes(identity.rootDispersion)
      && reply[12..16] == ReferenceIdBytes(identity.referenceId)
      && reply[16..24] == TimestampBytes(reference)
    case Kiss(code) =>
      && reply[0] / 64 == 3 && reply[1] == 0
      && (forall i :: 3 <= i < 24 && (i < 12 || 16 <= i) ==> reply[i] == 0)
      && reply[12..16] == (match code
                           case Rate => [0x52, 0x41, 0x54, 0x45]
                           case Deny => [0x44, 0x45, 0x4E, 0x59]
                           case Restrict => [0x52, 0x53, 0x54, 0x52])
  }

  /** What is asked for when the client's own poll is out of range: the server's default, or the least. */
  function WantedPoll(side: ServerSide): i8 {
    if side.Normal? then side.identity.defaultPoll else 4
  }

  function Distance(a: int, b: int): nat {
    Abs(a - b)
  }

  /** Of 4 to 17, no poll is nearer to the wanted one. */
  predicate NearestPoll(poll: int, wanted: int) {
    4 <= poll <= 17 && forall q :: 4 <= q <= 17 ==> Distance(poll, wanted) <= Distance(q, wanted)
  }

  lemma EchoedPoll(clientPoll: u8, side: ServerSide)
    ensures var poll := EchoPoll(SignedByte(clientPoll), WantedPoll(side));
      if 4 <= clientPoll <= 17 then UnsignedByte(poll) == clientPoll
      else NearestPoll(UnsignedByte(poll), WantedPoll(side))
  {
  }

  /** A reply on the wire, byte by byte (section 7.3 of RFC 5905): 48 bytes, mode 4, the request's
      version, the request's own poll if it is between 4 and 17 and otherwise the nearest to the wanted
      one, and the request's transmit timestamp, T2 and T3 in their places. */
  lemma ReplyOnTheWire(data: seq<u8>, side: ServerSide, receive: NtpTimestamp, transmit: NtpTimestamp)
    requires |data| >= PACKET_SIZE
    ensures var reply := ReplyBytes(data, side, receive, transmit);
      && |reply| == PACKET_SIZE
      && reply[0] % 8 == 4 && reply[0] / 8 % 8 == data[0] / 8 % 8
      && (if 4 <= data[2] <= 17 then reply[2] == data[2] else NearestPoll(reply[2], WantedPoll(side)))
      && reply[24..32] == data[40..48]
      && reply[32..40] == TimestampBytes(receive)
      && reply[40..48] == TimestampBytes(transmit)
      && SideOnTheWire(reply, side)
  {
    WireLayout(ReplyPacket(data, side, receive, transmit));
    TimestampRoundTripBack(data, 40);
    EchoedPoll(data[2], side);
    if side.Kiss? {
      ZeroBytes(ReplyBytes(data, side, receive, transmit));
    }
  }

  lemma ZeroBytes(reply: seq<u8>)
    requires |reply| == PACKET_SIZE && reply[3] == UnsignedByte(0)
    requires reply[4..8] == WordBytes(UnsignedWord(0)) && reply[8..12] == WordBytes(0)
    requires reply[16..24] == TimestampBytes(ZERO_TIMESTAMP)
    ensures forall i :: 3 <= i < 24 && (i < 12 || 16 <= i) ==> reply[i] == 0
  {
    assert WordBytes(0) == [0, 0, 0, 0];
    assert forall i :: 4 <= i < 8 ==> reply[i] == reply[4..8][i - 4];
    assert forall i :: 8 <= i < 12 ==> reply[i] == reply[8..12][i - 8];
    assert forall i :: 16 <= i < 24 ==> reply[i] == reply[16..24][i - 16];
  }

  /** Minimal echo: of the request, a reply depends on the version bits, the poll byte and the
      transmit timestamp only. Requests that agree on those get the same bytes. */
  lemma MinimalEcho(a: seq<u8>, b: seq<u8>, side: ServerSide, receive: NtpTimestamp, transmit: NtpTimestamp)
    requires |a| >= PACKET_SIZE && |b| >= PACKET_SIZE
    requires a[0] / 8 % 8 == b[0] / 8 % 8 && a[2] == b[2] && a[40..48] == b[40..48]
    ensures ReplyBytes(a, side, receive, transmit) == ReplyBytes(b, side, receive, transmit)
  {
    ReadTimestampIn(a, 40, ReadTimestamp(b, 40)) by {
      TimestampRoundTripBack(b, 40);
    }
  }

  /** And it does depend on the transmit timestamp: the client finds its own in the origin field,
      so replies to requests that differ in it differ too. */
  lemma OriginTellsRequestsApart(a: seq<u8>, b: seq<u8>, sideA: ServerSide, sideB: ServerSide,
                                 r: NtpTimestamp, s: NtpTimestamp, t: NtpTimestamp, u: NtpTimestamp)
    requires Parse(a).Parsed? && Parse(b).Parsed?
    requires ReplyBytes(a, sideA, r, t) == ReplyBytes(b, sideB, s, u)
    ensures Parse(a).packet.transmitTimestamp == Parse(b).packet.transmitTimestamp
    ensures r == s && t == u
  {
    ParseInvertsEncode(ReplyPacket(a, sideA, r, t));
    ParseInvertsEncode(ReplyPacket(b, sideB, s, u));
  }
}
