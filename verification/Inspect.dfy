/** Packet inspection: the fields of a formatted instant, and the hex decoder. */
module Inspect {
  import opened Words
  import opened Calendar

  const NANOS_PER_SECOND: nat := 1_000_000_000
  const SECONDS_PER_DAY: nat := 86_400
  const I64_HALF: nat := 0x8000_0000_0000_0000

  // ---------------------------------------------------------------------
  // format_instant
  // ---------------------------------------------------------------------

  /** `x as i64`, and the result of wrapping 64-bit arithmetic. */
  function AsI64(x: int): int {
    (x + I64_HALF) % U64_RANGE - I64_HALF
  }

  datatype Fields = Fields(date: Date, hour: nat, minute: nat, second: nat, nanos: nat)

  function DaysOf(unixNanos: int): int {
    unixNanos / NANOS_PER_SECOND / SECONDS_PER_DAY
  }

  /** The day number that reaches the calendar formula: narrowed to 64 bits, then shifted in 64 bits. */
  function NarrowedDays(days: int): int {
    AsI64(AsI64(days) + 719_468) - 719_468
  }

  /** The fields that `format_instant` prints. */
  function FormatInstant(unixNanos: int): Fields {
    WithTimeOfDay(CivilFromDays(NarrowedDays(DaysOf(unixNanos))), unixNanos)
  }

  function WithTimeOfDay(date: Date, unixNanos: int): Fields {
    var secsOfDay := unixNanos / NANOS_PER_SECOND % SECONDS_PER_DAY;
    Fields(date, secsOfDay / 3600, secsOfDay % 3600 / 60, secsOfDay % 60, unixNanos % NANOS_PER_SECOND)
  }

  /** The instant that the fields denote. */
  function Recombined(f: Fields): int
    requires 1 <= f.date.month <= 12
  {
    FromDay(DaysFromCivil(f.date), f)
  }

  function FromDay(days: int, f: Fields): int {
    (((days * 24 + f.hour) * 60 + f.minute) * 60 + f.second) * NANOS_PER_SECOND + f.nanos
  }

  /** Hours, minutes and seconds make up the second of the day. */
  lemma ClockFace(secsOfDay: int)
    requires 0 <= secsOfDay < SECONDS_PER_DAY
    ensures secsOfDay / 3600 <= 23 && secsOfDay % 3600 / 60 <= 59
    ensures (secsOfDay / 3600 * 60 + secsOfDay % 3600 / 60) * 60 + secsOfDay % 60 == secsOfDay
  {
    var rest := secsOfDay % 3600;
    assert secsOfDay == 60 * (60 * (secsOfDay / 3600)) + rest;
    assert rest == 60 * (rest / 60) + rest % 60;
    assert secsOfDay % 60 == rest % 60;
  }

  lemma TimeOfDay(date: Date, unixNanos: int, days: int)
    ensures var f := WithTimeOfDay(date, unixNanos);
      && f.hour <= 23 && f.minute <= 59 && f.second <= 59 && f.nanos < NANOS_PER_SECOND
      && FromDay(days, f) == unixNanos + (days - DaysOf(unixNanos)) * SECONDS_PER_DAY * NANOS_PER_SECOND
  {
    var seconds := unixNanos / NANOS_PER_SECOND;
    var secsOfDay := seconds % SECONDS_PER_DAY;
    ClockFace(secsOfDay);
    assert seconds == DaysOf(unixNanos) * SECONDS_PER_DAY + secsOfDay;
  }

  lemma NarrowingExactly(days: int)
    ensures NarrowedDays(days) == days <==> 0 - I64_HALF <= days + 719_468 < I64_HALF
    ensures (NarrowedDays(days) - days) % U64_RANGE == 0
    ensures 0 - I64_HALF <= NarrowedDays(days) + 719_468 < I64_HALF
  {
    var once := AsI64(days) + 719_468;
    assert (AsI64(days) - days) % U64_RANGE == 0;
    assert (AsI64(once) - once) % U64_RANGE == 0;
  }

  /** The fields form a date and a time of day, and they give back exactly the original nanosecond
      count if and only if the shifted day count fits 64 bits; otherwise the date is the one a multiple of
      2^64 days away for which it does. */
  lemma FormatInstantRecombines(unixNanos: int)
    ensures var f := FormatInstant(unixNanos);
      && IsDate(f.date) && f.hour <= 23 && f.minute <= 59 && f.second <= 59 && f.nanos < NANOS_PER_SECOND
      && (Recombined(f) == unixNanos <==> 0 - I64_HALF <= DaysOf(unixNanos) + 719_468 < I64_HALF)
      && (DaysFromCivil(f.date) - DaysOf(unixNanos)) % U64_RANGE == 0
      && 0 - I64_HALF <= DaysFromCivil(f.date) + 719_468 < I64_HALF
  {
    var days := DaysOf(unixNanos);
    var narrowed := NarrowedDays(days);
    NarrowingExactly(days);
    var date := CivilFromDays(narrowed);
    assert IsDate(date) && DaysFromCivil(date) == narrowed by {
      CivilIsBijection(Date(1970, 1, 1), narrowed);
    }
    TimeOfDay(date, unixNanos, narrowed);
  }

  // ---------------------------------------------------------------------
  // decode_hex
  // ---------------------------------------------------------------------

  datatype HexResult = Bytes(bytes: seq<u8>) | OddLength | InvalidHex(position: nat)

  /** `char::to_digit(16)`. */
  function ToDigit(c: char): Option<u8> {
    if '0' <= c <= '9' then Some(c as int - '0' as int)
    else if 'a' <= c <= 'f' then Some(c as int - 'a' as int + 10)
    else if 'A' <= c <= 'F' then Some(c as int - 'A' as int + 10)
    else None
  }

  /** The digit stands for this number, in lower or upper case. */
  predicate Spells(c: char, d: nat) {
    match d
    case 0 => c == '0'
    case 1 => c == '1'
    case 2 => c == '2'
    case 3 => c == '3'
    case 4 => c == '4'
    case 5 => c == '5'
    case 6 => c == '6'
    case 7 => c == '7'
    case 8 => c == '8'
    case 9 => c == '9'
    case 10 => c == 'a' || c == 'A'
    case 11 => c == 'b' || c == 'B'
    case 12 => c == 'c' || c == 'C'
    case 13 => c == 'd' || c == 'D'
    case 14 => c == 'e' || c == 'E'
    case 15 => c == 'f' || c == 'F'
    case _ => false
  }

  lemma ToDigitExactly(c: char, d: u8)
    ensures ToDigit(c) == Some(d) <==> Spells(c, d)
    ensures ToDigit(c).Some? ==> ToDigit(c).value < 16
  {
  }

  /** Length of a character in UTF-8: the parity test counts bytes, the loop counts characters. */
  function Utf8Length(c: char): nat {
    if c as int < 0x80 then 1 else if c as int < 0x800 then 2 else if c as int < 0x1_0000 then 3 else 4
  }

  /** How many characters n bytes of UTF-8 can tell apart: 7 bits in one byte, and 5n + 1 in n. */
  function Utf8Capacity(n: nat): nat {
    if n == 0 then 0 else if n == 1 then 128 else if n == 2 then 2048 else 32 * Utf8Capacity(n - 1)
  }

  /** A character takes the least number of bytes that can hold it. */
  lemma Utf8LengthIsLeast(c: char)
    ensures var n := Utf8Length(c);
      1 <= n <= 4 && Utf8Capacity(n - 1) <= c as int < Utf8Capacity(n)
  {
  }

  function ByteLength(s: string): nat {
    if s == [] then 0 else Utf8Length(s[0]) + ByteLength(s[1..])
  }

  /** The bytes of a string are those of its parts, down to its characters, each of which takes the least
      number of bytes that can hold it. */
  lemma {:induction false} ByteLengthAdds(a: string, b: string, c: char)
    ensures ByteLength(a + b) == ByteLength(a) + ByteLength(b)
    ensures var n := ByteLength([c]);
      1 <= n <= 4 && Utf8Capacity(n - 1) <= c as int < Utf8Capacity(n)
    decreases |a|
  {
    assert [c][1..] == [];
    Utf8LengthIsLeast(c);
    if a == [] {
      assert a + b == b;
    } else {
      ByteLengthAdds(a[1..], b, c);
      assert (a + b)[1..] == a[1..] + b;
    }
  }

  predicate AllDigits(s: string) {
    forall i :: 0 <= i < |s| ==> ToDigit(s[i]).Some?
  }

  lemma {:induction false} DigitsAreOneByte(s: string)
    requires AllDigits(s)
    ensures ByteLength(s) == |s|
  {
    if s != [] {
      DigitsAreOneByte(s[1..]);
    }
  }

  /** The value of a string of digits, two to the byte. */
  function PairsValue(s: string): seq<u8>
    requires AllDigits(s) && |s| % 2 == 0
    decreases |s|
  {
    if s == [] then [] else [ToDigit(s[0]).value * 16 + ToDigit(s[1]).value] + PairsValue(s[2..])
  }

  lemma {:induction false} PairsValueOfBack(s: string, hi: char, lo: char)
    requires AllDigits(s) && |s| % 2 == 0 && ToDigit(hi).Some? && ToDigit(lo).Some?
    ensures AllDigits(s + [hi, lo])
    ensures PairsValue(s + [hi, lo]) == PairsValue(s) + [ToDigit(hi).value * 16 + ToDigit(lo).value]
    decreases |s|
  {
    if s == [] {
      assert s + [hi, lo] == [hi, lo] && [hi, lo][2..] == [];
    } else {
      PairsValueOfBack(s[2..], hi, lo);
      assert (s + [hi, lo])[2..] == s[2..] + [hi, lo];
    }
  }

  /** The string writes the bytes in hexadecimal, high digit first, each digit in either case. */
  predicate Writes(s: string, bytes: seq<u8>) {
    && |s| == 2 * |bytes|
    && forall k :: 0 <= k < |bytes| ==> Spells(s[2 * k], bytes[k] / 16) && Spells(s[2 * k + 1], bytes[k] % 16)
  }

  lemma WritesFirst(s: string, bytes: seq<u8>)
    requires bytes != [] && |s| == 2 * |bytes|
    ensures Writes(s, bytes) <==>
      Spells(s[0], bytes[0] / 16) && Spells(s[1], bytes[0] % 16) && Writes(s[2..], bytes[1..])
  {
    if Writes(s[2..], bytes[1..]) {
      forall k | 1 <= k < |bytes|
        ensures Spells(s[2 * k], bytes[k] / 16) && Spells(s[2 * k + 1], bytes[k] % 16)
      {
        assert s[2 * k] == s[2..][2 * (k - 1)] && s[2 * k + 1] == s[2..][2 * (k - 1) + 1];
        assert bytes[k] == bytes[1..][k - 1];
      }
    }
    if Writes(s, bytes) {
      forall k | 0 <= k < |bytes[1..]|
        ensures Spells(s[2..][2 * k], bytes[1..][k] / 16) && Spells(s[2..][2 * k + 1], bytes[1..][k] % 16)
      {
        assert s[2..][2 * k] == s[2 * (k + 1)] && s[2..][2 * k + 1] == s[2 * (k + 1) + 1];
        assert bytes[1..][k] == bytes[k + 1];
      }
    }
  }

  lemma DigitPair(hi: char, lo: char, byte: u8)
    ensures Spells(hi, byte / 16) && Spells(lo, byte % 16)
       <==> ToDigit(hi).Some? && ToDigit(lo).Some? && ToDigit(hi).value * 16 + ToDigit(lo).value == byte
  {
    ToDigitExactly(hi, byte / 16);
    ToDigitExactly(lo, byte % 16);
    TwoDigits(ToDigit(hi), ToDigit(lo), byte);
  }

  lemma TwoDigits(hi: Option<u8>, lo: Option<u8>, byte: u8)
    requires (hi.Some? ==> hi.value < 16) && (lo.Some? ==> lo.value < 16)
    ensures hi == Some(byte / 16) && lo == Some(byte % 16)
       <==> hi.Some? && lo.Some? && hi.value * 16 + lo.value == byte
  {
    if hi.Some? && lo.Some? {
      var h: int, l: int := hi.value, lo.value;
      assert (h * 16 + l) / 16 == h && (h * 16 + l) % 16 == l;
    }
  }

  predicate Decodes(s: string, bytes: seq<u8>) {
    AllDigits(s) && |s| % 2 == 0 && PairsValue(s) == bytes
  }

  /** The value of a string of digits is what it writes, and nothing else: bytes written in either case
      decode to themselves, and every string that decodes to them writes them. */
  lemma {:induction false} HexRoundTrip(s: string, bytes: seq<u8>)
    ensures Writes(s, bytes) <==> Decodes(s, bytes)
    decreases |bytes|
  {
    if Decodes(s, bytes) {
      ValueLength(s);
    }
    if |s| == 2 * |bytes| && bytes != [] {
      HexRoundTrip(s[2..], bytes[1..]);
      DigitPair(s[0], s[1], bytes[0]);
      WritesFirst(s, bytes);
      DecodesFirst(s, bytes);
    }
  }

  lemma {:induction false} ValueLength(s: string)
    requires AllDigits(s) && |s| % 2 == 0
    ensures |s| == 2 * |PairsValue(s)|
    decreases |s|
  {
    if s != [] {
      ValueLength(s[2..]);
    }
  }

  lemma DecodesFirst(s: string, bytes: seq<u8>)
    requires |s| == 2 * |bytes| && bytes != []
    ensures Decodes(s, bytes) <==>
      && ToDigit(s[0]).Some? && ToDigit(s[1]).Some? && ToDigit(s[0]).value * 16 + ToDigit(s[1]).value == bytes[0]
      && Decodes(s[2..], bytes[1..])
  {
    assert s == [s[0], s[1]] + s[2..] && bytes == [bytes[0]] + bytes[1..];
  }

  lemma PairIsWhole(digits: string, i: nat)
    requires 2 * i < |digits| && AllDigits(digits[..2 * i]) && ToDigit(digits[2 * i]).Some?
    requires ByteLength(digits) % 2 == 0
    ensures 2 * i + 1 < |digits|
  {
    if 2 * i + 1 == |digits| {
      assert digits == digits[..2 * i] + [digits[2 * i]];
      DigitsAreOneByte(digits);
    }
  }

  /** Decodes digits from which prefix and whitespace are already removed. The parity test is on
      UTF-8 bytes and the loop runs over pairs of characters, yet no pair is ever read beyond its
      end: a lone last character is never a digit. Success, parity error and the position of the
      first character that is not a digit are told apart exactly. */
  method DecodeDigits(digits: string) returns (r: HexResult)
    ensures r.OddLength? <==> ByteLength(digits) % 2 != 0
    ensures r.Bytes? <==> AllDigits(digits) && |digits| % 2 == 0
    ensures r.Bytes? ==> Writes(digits, r.bytes)
    ensures r.InvalidHex? ==>
      r.position < |digits| && ToDigit(digits[r.position]).None? && AllDigits(digits[..r.position])
  {
    if AllDigits(digits) {
      DigitsAreOneByte(digits);
    }
    if ByteLength(digits) % 2 != 0 {
      return OddLength;
    }
    var bytes: seq<u8> := [];
    var i := 0;
    while 2 * i < |digits|
      invariant 0 <= 2 * i <= |digits|
      invariant AllDigits(digits[..2 * i]) && bytes == PairsValue(digits[..2 * i])
      decreases |digits| - 2 * i
    {
      var hi := ToDigit(digits[2 * i]);
      if hi.None? {
        return InvalidHex(2 * i);
      }
      PairIsWhole(digits, i);
      var lo := ToDigit(digits[2 * i + 1]);
      if lo.None? {
        return InvalidHex(2 * i + 1);
      }
      PairsValueOfBack(digits[..2 * i], digits[2 * i], digits[2 * i + 1]);
      assert digits[..2 * i] + [digits[2 * i], digits[2 * i + 1]] == digits[..2 * (i + 1)];
      bytes := bytes + [hi.value * 16 + lo.value];
      i := i + 1;
    }
    assert digits[..2 * i] == digits;
    HexRoundTrip(digits, bytes);
    r := Bytes(bytes);
  }
}
