/** The 48-byte base packet: fields, bytes, and the bijection between them. */
module Packets {
  import opened Words
  import opened Timestamps

  const PACKET_SIZE: nat := 48

  datatype LeapIndicator = NoWarning | LastMinute61 | LastMinute59 | UnsynchronisedLeap
  datatype Mode = Reserved | SymmetricActive | SymmetricPassive | Client | Server | Broadcast | Control | Private

  /** The three version bits. */
  type NtpVersion = v: nat | v < 8

  datatype ReferenceId = ReferenceId(b0: u8, b1: u8, b2: u8, b3: u8)

  /** Root delay and dispersion are held as their raw 16.16 fixed-point bits. */
  datatype NtpPacket = NtpPacket(
    leap: LeapIndicator, version: NtpVersion, mode: Mode, stratum: u8, poll: i8, precision: i8,
    rootDelay: i32, rootDispersion: u32, referenceId: ReferenceId,
    referenceTimestamp: NtpTimestamp, originTimestamp: NtpTimestamp,
    receiveTimestamp: NtpTimestamp, transmitTimestamp: NtpTimestamp)

  datatype ParseResult = Parsed(packet: NtpPacket, trailing: nat) | TooShort(actual: nat)

  // ---------------------------------------------------------------------
  // Bit fields and words
  // ---------------------------------------------------------------------

  function LeapFromBits(bits: nat): LeapIndicator {
    match bits % 4
    case 0 => NoWarning
    case 1 => LastMinute61
    case 2 => LastMinute59
    case _ => UnsynchronisedLeap
  }

  function LeapToBits(leap: LeapIndicator): nat {
    match leap
    case NoWarning => 0
    case LastMinute61 => 1
    case LastMinute59 => 2
    case UnsynchronisedLeap => 3
  }

  function ModeFromBits(bits: nat): Mode {
    match bits % 8
    case 0 => Reserved
    case 1 => SymmetricActive
    case 2 => SymmetricPassive
    case 3 => Client
    case 4 => Server
    case 5 => Broadcast
    case 6 => Control
    case _ => Private
  }

  function ModeToBits(mode: Mode): nat {
    match mode
    case Reserved => 0
    case SymmetricActive => 1
    case SymmetricPassive => 2
    case Client => 3
    case Server => 4
    case Broadcast => 5
    case Control => 6
    case Private => 7
  }

  /** `(leap << 6) | (version << 3) | mode`: the three fields do not overlap. */
  function FlagsByte(p: NtpPacket): u8 {
    LeapToBits(p.leap) * 64 + p.version * 8 + ModeToBits(p.mode)
  }

  /** The same packing in bit-vector terms. */
  lemma FlagsByteIsBitwise(leap: bv8, version: bv8, mode: bv8)
    requires leap < 4 && version < 8 && mode < 8
    ensures (leap << 6) | (version << 3) | mode == leap * 64 + version * 8 + mode
    ensures var flags := (leap << 6) | (version << 3) | mode;
      ((flags >> 6) & 3) == leap && ((flags >> 3) & 7) == version && (flags & 7) == mode
  {
  }

  function SignedByte(b: u8): i8 {
    if b < 0x80 then b else b - 0x100
  }

  function UnsignedByte(x: i8): u8 {
    if x >= 0 then x else x + 0x100
  }

  function SignedWord(w: u32): i32 {
    if w < 0x8000_0000 then w else w - U32_RANGE
  }

  function UnsignedWord(x: i32): u32 {
    if x >= 0 then x else x + U32_RANGE
  }

  function ReadWord(data: seq<u8>, offset: nat): u32
    requires offset + 4 <= |data|
  {
    var a: int, b: int, c: int, d: int := data[offset], data[offset + 1], data[offset + 2], data[offset + 3];
    a * 0x100_0000 + b * 0x1_0000 + c * 0x100 + d
  }

  function WordBytes(w: u32): (b: seq<u8>)
    ensures |b| == 4
  {
    [w / 0x100_0000, w / 0x1_0000 % 0x100, w / 0x100 % 0x100, w % 0x100]
  }

  function ReadTimestamp(data: seq<u8>, offset: nat): NtpTimestamp
    requires offset + 8 <= |data|
  {
    NtpTimestamp(ReadWord(data, offset), ReadWord(data, offset + 4))
  }

  function TimestampBytes(t: NtpTimestamp): (b: seq<u8>)
    ensures |b| == 8
  {
    WordBytes(t.seconds) + WordBytes(t.fraction)
  }

  // ---------------------------------------------------------------------
  // Parse and encode
  // ---------------------------------------------------------------------

  function Parse(data: seq<u8>): ParseResult {
    if |data| < PACKET_SIZE then TooShort(|data|)
    else Parsed(ParseBase(data), |data| - PACKET_SIZE)
  }

  function ParseBase(data: seq<u8>): NtpPacket
    requires |data| >= PACKET_SIZE
  {
    NtpPacket(
      LeapFromBits(data[0] / 64), data[0] / 8 % 8, ModeFromBits(data[0]),
      data[1], SignedByte(data[2]), SignedByte(data[3]),
      SignedWord(ReadWord(data, 4)), ReadWord(data, 8),
      ReferenceId(data[12], data[13], data[14], data[15]),
      ReadTimestamp(data, 16), ReadTimestamp(data, 24), ReadTimestamp(data, 32), ReadTimestamp(data, 40))
  }

  function HeaderBytes(p: NtpPacket): (b: seq<u8>)
    ensures |b| == 4
  {
    [FlagsByte(p), p.stratum, UnsignedByte(p.poll), UnsignedByte(p.precision)]
  }

  function ReferenceIdBytes(r: ReferenceId): (b: seq<u8>)
    ensures |b| == 4
  {
    [r.b0, r.b1, r.b2, r.b3]
  }

  function Encode(p: NtpPacket): (b: seq<u8>)
    ensures |b| == PACKET_SIZE
  {
    HeaderBytes(p) + WordBytes(UnsignedWord(p.rootDelay)) + WordBytes(p.rootDispersion)
    + ReferenceIdBytes(p.referenceId)
    + TimestampBytes(p.referenceTimestamp) + TimestampBytes(p.originTimestamp)
    + TimestampBytes(p.receiveTimestamp) + TimestampBytes(p.transmitTimestamp)
  }

  /** `copy_from_slice` into a window of the packet buffer. */
  method Write(out: array<u8>, offset: nat, bytes: seq<u8>)
    requires offset + |bytes| <= out.Length
    modifies out
    ensures out[..offset + |bytes|] == old(out[..offset]) + bytes
    ensures out[offset + |bytes|..] == old(out[offset + |bytes|..])
  {
    var i := 0;
    while i < |bytes|
      invariant 0 <= i <= |bytes|
      invariant out[..offset] == old(out[..offset])
      invariant out[offset..offset + i] == bytes[..i]
      invariant out[offset + |bytes|..] == old(out[offset + |bytes|..])
    {
      out[offset + i] := bytes[i];
      i := i + 1;
    }
    assert out[..offset + |bytes|] == out[..offset] + out[offset..offset + |bytes|];
  }

  method WriteHead(out: array<u8>, p: NtpPacket)
    requires out.Length == PACKET_SIZE
    modifies out
    ensures out[..16] == HeaderBytes(p) + WordBytes(UnsignedWord(p.rootDelay)) + WordBytes(p.rootDispersion)
                         + ReferenceIdBytes(p.referenceId)
  {
    Write(out, 0, HeaderBytes(p));
    Write(out, 4, WordBytes(UnsignedWord(p.rootDelay)));
    Write(out, 8, WordBytes(p.rootDispersion));
    Write(out, 12, ReferenceIdBytes(p.referenceId));
  }

  method WriteTimestamps(out: array<u8>, p: NtpPacket)
    requires out.Length == PACKET_SIZE
    modifies out
    ensures out[..48] == old(out[..16]) + TimestampBytes(p.referenceTimestamp) + TimestampBytes(p.originTimestamp)
                         + TimestampBytes(p.receiveTimestamp) + TimestampBytes(p.transmitTimestamp)
  {
    Write(out, 16, TimestampBytes(p.referenceTimestamp));
    Write(out, 24, TimestampBytes(p.originTimestamp));
    Write(out, 32, TimestampBytes(p.receiveTimestamp));
    Write(out, 40, TimestampBytes(p.transmitTimestamp));
  }

  /** Fills a zeroed buffer field by field at the named offsets. */
  method EncodePacket(p: NtpPacket) returns (out: array<u8>)
    ensures fresh(out) && out[..] == Encode(p)
  {
    out := new u8[PACKET_SIZE](_ => 0);
    WriteHead(out, p);
    WriteTimestamps(out, p);
    assert out[..48] == out[..];
  }

  // ---------------------------------------------------------------------
  // The wire bijection
  // ---------------------------------------------------------------------

  /** Byte by byte: each quotient by 256 is 256 times the next plus a remainder. */
  lemma WordOfBytes(w: int)
    ensures w / 0x100_0000 * 0x100_0000 + w / 0x1_0000 % 0x100 * 0x1_0000 + w / 0x100 % 0x100 * 0x100 + w % 0x100 == w
  {
    var w1, w2, w3 := w / 0x100, w / 0x1_0000, w / 0x100_0000;
    assert w1 / 0x100 == w2 && w2 / 0x100 == w3;
    assert w2 == 0x100 * w3 + w2 % 0x100;
    assert w1 == 0x100 * w2 + w1 % 0x100;
    assert w == 0x100 * w1 + w % 0x100;
  }

  lemma WordRoundTrip(w: u32)
    ensures ReadWord(WordBytes(w), 0) == w
  {
    WordOfBytes(w);
  }

  lemma BytesOfWord(a: int, b: int, c: int, d: int)
    requires 0 <= a < 0x100 && 0 <= b < 0x100 && 0 <= c < 0x100 && 0 <= d < 0x100
    ensures var w := a * 0x100_0000 + b * 0x1_0000 + c * 0x100 + d;
      w / 0x100_0000 == a && w / 0x1_0000 % 0x100 == b && w / 0x100 % 0x100 == c && w % 0x100 == d
  {
    var w := a * 0x100_0000 + b * 0x1_0000 + c * 0x100 + d;
    assert w == 0x100 * (a * 0x1_0000 + b * 0x100 + c) + d;
    assert w / 0x100 == a * 0x1_0000 + b * 0x100 + c;
    assert w / 0x1_0000 == a * 0x100 + b;
  }

  lemma WordRoundTripBack(data: seq<u8>, offset: nat)
    requires offset + 4 <= |data|
    ensures WordBytes(ReadWord(data, offset)) == data[offset..offset + 4]
  {
    var a: int, b: int, c: int, d: int := data[offset], data[offset + 1], data[offset + 2], data[offset + 3];
    var w := ReadWord(data, offset);
    BytesOfWord(a, b, c, d);
    assert WordBytes(w) == [a, b, c, d];
  }

  lemma ReadWordIn(data: seq<u8>, offset: nat, w: u32)
    requires offset + 4 <= |data| && data[offset..offset + 4] == WordBytes(w)
    ensures ReadWord(data, offset) == w
  {
    WordRoundTrip(w);
    var b := data[offset..offset + 4];
    assert b[0] == data[offset] && b[1] == data[offset + 1] && b[2] == data[offset + 2] && b[3] == data[offset + 3];
  }

  lemma ReadTimestampIn(data: seq<u8>, offset: nat, t: NtpTimestamp)
    requires offset + 8 <= |data| && data[offset..offset + 8] == TimestampBytes(t)
    ensures ReadTimestamp(data, offset) == t
  {
    var b := data[offset..offset + 8];
    assert data[offset..offset + 4] == b[..4] == WordBytes(t.seconds);
    assert data[offset + 4..offset + 8] == b[4..] == WordBytes(t.fraction);
    ReadWordIn(data, offset, t.seconds);
    ReadWordIn(data, offset + 4, t.fraction);
  }

  lemma TimestampRoundTripBack(data: seq<u8>, offset: nat)
    requires offset + 8 <= |data|
    ensures TimestampBytes(ReadTimestamp(data, offset)) == data[offset..offset + 8]
  {
    WordRoundTripBack(data, offset);
    WordRoundTripBack(data, offset + 4);
  }

  lemma FlagsRoundTrip(p: NtpPacket)
    ensures var flags := FlagsByte(p);
      LeapFromBits(flags / 64) == p.leap && flags / 8 % 8 == p.version && ModeFromBits(flags) == p.mode
  {
    var l, m := LeapToBits(p.leap), ModeToBits(p.mode);
    var flags := FlagsByte(p);
    assert flags / 64 == l && flags / 8 == 8 * l + p.version && flags % 8 == m;
  }

  lemma FlagsRoundTripBack(data: seq<u8>)
    requires |data| >= PACKET_SIZE
    ensures HeaderBytes(ParseBase(data)) == data[..4]
  {
    var flags := data[0];
    assert flags == flags / 64 * 64 + flags / 8 % 8 * 8 + flags % 8;
    assert LeapToBits(LeapFromBits(flags / 64)) == flags / 64 % 4 == flags / 64;
    assert ModeToBits(ModeFromBits(flags)) == flags % 8;
  }

  /** Every field of the encoding stands at its offset (section 7.3 of RFC 5905). */
  lemma WireLayout(p: NtpPacket)
    ensures var e := Encode(p);
      && e[0] / 64 == LeapToBits(p.leap) && e[0] / 8 % 8 == p.version && e[0] % 8 == ModeToBits(p.mode)
      && e[1] == p.stratum && e[2] == UnsignedByte(p.poll) && e[3] == UnsignedByte(p.precision)
      && e[4..8] == WordBytes(UnsignedWord(p.rootDelay)) && e[8..12] == WordBytes(p.rootDispersion)
      && e[12..16] == ReferenceIdBytes(p.referenceId)
      && e[16..24] == TimestampBytes(p.referenceTimestamp) && e[24..32] == TimestampBytes(p.originTimestamp)
      && e[32..40] == TimestampBytes(p.receiveTimestamp) && e[40..48] == TimestampBytes(p.transmitTimestamp)
  {
    assert Encode(p)[..4] == HeaderBytes(p);
    var l, m := LeapToBits(p.leap), ModeToBits(p.mode);
    var flags := FlagsByte(p);
    assert flags / 64 == l && flags / 8 == 8 * l + p.version && flags % 8 == m;
  }

  // ---------------------------------------------------------------------
  // Network byte order
  // ---------------------------------------------------------------------

  /** The number that these bytes denote, the most significant one first. */
  function BigEndian(bytes: seq<u8>): nat {
    if bytes == [] then 0 else BigEndian(bytes[..|bytes| - 1]) * 0x100 + bytes[|bytes| - 1]
  }

  lemma BigEndianOfFour(b: seq<u8>)
    requires |b| == 4
    ensures BigEndian(b) == ReadWord(b, 0)
  {
    var a0: int, a1: int, a2: int := b[0], b[1], b[2];
    assert b[..3][..2] == b[..2] && b[..2][..1] == b[..1] && b[..1][..0] == [];
    assert BigEndian(b[..1]) == a0;
    assert BigEndian(b[..2]) == a0 * 0x100 + a1;
    assert BigEndian(b[..3]) == a0 * 0x1_0000 + a1 * 0x100 + a2;
  }

  lemma WordIsBigEndian(w: u32)
    ensures BigEndian(WordBytes(w)) == w
  {
    BigEndianOfFour(WordBytes(w));
    WordRoundTrip(w);
  }

  predicate TimestampAt(bytes: seq<u8>, offset: nat, t: NtpTimestamp)
    requires offset + 8 <= |bytes|
  {
    BigEndian(bytes[offset..offset + 4]) == t.seconds && BigEndian(bytes[offset + 4..offset + 8]) == t.fraction
  }

  lemma TimestampIsBigEndian(bytes: seq<u8>, offset: nat, t: NtpTimestamp)
    requires offset + 8 <= |bytes| && bytes[offset..offset + 8] == TimestampBytes(t)
    ensures TimestampAt(bytes, offset, t)
  {
    var b := bytes[offset..offset + 8];
    assert bytes[offset..offset + 4] == b[..4] == WordBytes(t.seconds);
    assert bytes[offset + 4..offset + 8] == b[4..] == WordBytes(t.fraction);
    WordIsBigEndian(t.seconds);
    WordIsBigEndian(t.fraction);
  }

  /** The numbers of figures 9 and 10 of RFC 5905. */
  predicate FlagsAssigned(flags: u8, p: NtpPacket) {
    && (p.leap == NoWarning <==> flags / 64 == 0) && (p.leap == LastMinute61 <==> flags / 64 == 1)
    && (p.leap == LastMinute59 <==> flags / 64 == 2) && (p.leap == UnsynchronisedLeap <==> flags / 64 == 3)
    && flags / 8 % 8 == p.version
    && (p.mode == Reserved <==> flags % 8 == 0) && (p.mode == SymmetricActive <==> flags % 8 == 1)
    && (p.mode == SymmetricPassive <==> flags % 8 == 2) && (p.mode == Client <==> flags % 8 == 3)
    && (p.mode == Server <==> flags % 8 == 4) && (p.mode == Broadcast <==> flags % 8 == 5)
    && (p.mode == Control <==> flags % 8 == 6) && (p.mode == Private <==> flags % 8 == 7)
  }

  lemma FlagsAreAssigned(p: NtpPacket)
    ensures FlagsAssigned(FlagsByte(p), p)
  {
    var l, m, flags := LeapToBits(p.leap), ModeToBits(p.mode), FlagsByte(p);
    assert flags / 64 == l && flags / 8 == 8 * l + p.version && flags % 8 == m;
  }

  /** The fixed-size fields at the head of a packet: signed ones in two's complement. */
  predicate HeadAssigned(e: seq<u8>, p: NtpPacket)
    requires |e| == PACKET_SIZE
  {
    && FlagsAssigned(e[0], p) && e[1] == p.stratum
    && (e[2] - p.poll) % 0x100 == 0 && (e[3] - p.precision) % 0x100 == 0
    && (BigEndian(e[4..8]) - p.rootDelay) % U32_RANGE == 0 && BigEndian(e[8..12]) == p.rootDispersion
    && e[12..16] == [p.referenceId.b0, p.referenceId.b1, p.referenceId.b2, p.referenceId.b3]
  }

  lemma TwosComplement(x: i8, w: i32)
    ensures (UnsignedByte(x) - x) % 0x100 == 0 && (UnsignedWord(w) - w) % U32_RANGE == 0
  {
  }

  lemma HeadIsAssigned(p: NtpPacket)
    ensures HeadAssigned(Encode(p), p)
  {
    WireLayout(p);
    FlagsAreAssigned(p);
    assert Encode(p)[..4] == HeaderBytes(p);
    WordIsBigEndian(UnsignedWord(p.rootDelay));
    WordIsBigEndian(p.rootDispersion);
    TwosComplement(p.poll, p.rootDelay);
    TwosComplement(p.precision, p.rootDelay);
  }

  /** The packet on the wire as section 7.3 of RFC 5905 has it: every field at its offset in network byte
      order, signed ones in two's complement, leap indicator and mode by their assigned numbers. */
  lemma NetworkByteOrder(p: NtpPacket)
    ensures HeadAssigned(Encode(p), p)
    ensures TimestampAt(Encode(p), 16, p.referenceTimestamp) && TimestampAt(Encode(p), 24, p.originTimestamp)
    ensures TimestampAt(Encode(p), 32, p.receiveTimestamp) && TimestampAt(Encode(p), 40, p.transmitTimestamp)
  {
    var e := Encode(p);
    HeadIsAssigned(p);
    WireLayout(p);
    TimestampIsBigEndian(e, 16, p.referenceTimestamp);
    TimestampIsBigEndian(e, 24, p.originTimestamp);
    TimestampIsBigEndian(e, 32, p.receiveTimestamp);
    TimestampIsBigEndian(e, 40, p.transmitTimestamp);
  }

  /** For every packet, parsing its encoding gives the packet back, with nothing trailing. */
  lemma ParseInvertsEncode(p: NtpPacket)
    ensures Parse(Encode(p)) == Parsed(p, 0)
  {
    var e := Encode(p);
    assert e[..4] == HeaderBytes(p);
    FlagsRoundTrip(p);
    assert e[4..8] == WordBytes(UnsignedWord(p.rootDelay));
    ReadWordIn(e, 4, UnsignedWord(p.rootDelay));
    assert e[8..12] == WordBytes(p.rootDispersion);
    ReadWordIn(e, 8, p.rootDispersion);
    assert e[12..16] == ReferenceIdBytes(p.referenceId);
    ReadTimestampIn(e, 16, p.referenceTimestamp);
    ReadTimestampIn(e, 24, p.originTimestamp);
    ReadTimestampIn(e, 32, p.receiveTimestamp);
    ReadTimestampIn(e, 40, p.transmitTimestamp);
  }

  /** For every datagram of at least 48 bytes, encoding what was parsed gives its first 48 bytes
      back: every bit of the base packet is kept, and no bit pattern is invalid. */
  lemma EncodeInvertsParse(data: seq<u8>)
    ensures Parse(data).Parsed? <==> |data| >= PACKET_SIZE
    ensures Parse(data).Parsed? ==>
      Encode(Parse(data).packet) == data[..PACKET_SIZE] && Parse(data).trailing == |data| - PACKET_SIZE
    ensures Parse(data).TooShort? ==> Parse(data).actual == |data|
  {
    if |data| >= PACKET_SIZE {
      var p := ParseBase(data);
      FlagsRoundTripBack(data);
      assert UnsignedWord(p.rootDelay) == ReadWord(data, 4);
      WordRoundTripBack(data, 4);
      WordRoundTripBack(data, 8);
      assert ReferenceIdBytes(p.referenceId) == data[12..16];
      TimestampRoundTripBack(data, 16);
      TimestampRoundTripBack(data, 24);
      TimestampRoundTripBack(data, 32);
      TimestampRoundTripBack(data, 40);
      assert data[..48] == data[..4] + data[4..8] + data[8..12] + data[12..16]
                         + data[16..24] + data[24..32] + data[32..40] + data[40..48];
    }
  }

  /** Two datagrams have the same packet exactly when their first 48 bytes agree: trailing bytes
      are counted and have no other influence. */
  lemma PacketIsFirst48Bytes(a: seq<u8>, b: seq<u8>)
    requires |a| >= PACKET_SIZE && |b| >= PACKET_SIZE
    ensures Parse(a).packet == Parse(b).packet <==> a[..PACKET_SIZE] == b[..PACKET_SIZE]
  {
    EncodeInvertsParse(a);
    EncodeInvertsParse(b);
    if a[..PACKET_SIZE] == b[..PACKET_SIZE] {
      ParseInvertsEncode(Parse(a).packet);
      ParseInvertsEncode(Parse(b).packet);
    }
  }
}
