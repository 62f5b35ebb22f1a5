/**
 The deterministic CBOR subset of the token payloads (section 4.2.1 of RFC 8949):
 minimal-width heads, unsigned integers and 16-byte strings. The reading functions
 consume a prefix of the input and return what is left.
 */
module Cbor {
  import opened Common

  type bytes = seq<byte>

  const MAJOR_UINT: nat := 0
  const MAJOR_BSTR: nat := 2
  const MAJOR_MAP: nat := 5

  datatype WireError =
    | BufferTooSmall
    | Truncated
    | WrongMajor
    | NonMinimal
    | ReservedLength
    | WrongMapSize
    | UnexpectedKey
    | TooLarge
    | WrongLength
    | UnknownVersion
    | TrailingBytes
    | VersionKeyMismatch
    | BadSignature

  // ---------------------------------------------------------------------------
  // Big-endian integers
  // ---------------------------------------------------------------------------

  function BigEndian(value: nat, width: nat): (s: bytes)
    ensures |s| == width
  {
    if width == 0 then [] else BigEndian(value / 256, width - 1) + [value % 256]
  }

  function Value(s: bytes): nat {
    if s == [] then 0 else Value(s[..|s| - 1]) * 256 + s[|s| - 1]
  }

  function Pow256(width: nat): nat {
    if width == 0 then 1 else 256 * Pow256(width - 1)
  }

  lemma {:induction false} ValueOfBigEndian(value: nat, width: nat)
    requires value < Pow256(width)
    ensures Value(BigEndian(value, width)) == value
  {
    if width > 0 {
      ValueOfBigEndian(value / 256, width - 1);
      var s := BigEndian(value, width);
      assert s[..width - 1] == BigEndian(value / 256, width - 1);
    }
  }

  lemma {:induction false} BigEndianOfValue(s: bytes)
    ensures BigEndian(Value(s), |s|) == s
    ensures Value(s) < Pow256(|s|)
  {
    if s != [] {
      var front, last := s[..|s| - 1], s[|s| - 1];
      BigEndianOfValue(front);
      assert Value(s) / 256 == Value(front) && Value(s) % 256 == last;
      assert s == front + [last];
    }
  }

  // ---------------------------------------------------------------------------
  // Heads
  // ---------------------------------------------------------------------------

  /** How many bytes follow the initial byte for a value. */
  function Width(value: nat): nat {
    if value < 24 then 0
    else if value <= 0xff then 1
    else if value <= 0xffff then 2
    else if value <= 0xffff_ffff then 4
    else 8
  }

  /** The low five bits of the initial byte. */
  function Info(value: nat): nat {
    match Width(value)
    case 0 => value
    case 1 => 24
    case 2 => 25
    case 4 => 26
    case _ => 27
  }

  /** The encoding of a major type and its argument. */
  function Head(major: nat, value: u64): (s: bytes)
    requires major < 8
  {
    [major * 32 + Info(value)] + BigEndian(value, Width(value))
  }

  /** A 32-bit value as four bytes. */
  function Quarter(value: u32): bytes {
    [value / 0x100_0000, value / 0x1_0000 % 0x100, value / 0x100 % 0x100, value % 0x100]
  }

  /** Every unsigned integer, byte by byte: the shortest of the five forms, most significant byte first. */
  lemma HeadBytes(value: u64)
    ensures value < 24 ==> Head(MAJOR_UINT, value) == [value]
    ensures 24 <= value <= 0xff ==> Head(MAJOR_UINT, value) == [0x18, value]
    ensures 0xff < value <= 0xffff ==> Head(MAJOR_UINT, value) == [0x19, value / 0x100, value % 0x100]
    ensures 0xffff < value <= 0xffff_ffff ==> Head(MAJOR_UINT, value) == [0x1a] + Quarter(value)
    ensures 0xffff_ffff < value ==>
              Head(MAJOR_UINT, value) == [0x1b] + Quarter(value / U32_LIMIT) + Quarter(value % U32_LIMIT)
  {
    hide BigEndian, Quarter;
    if value > 0xffff_ffff {
      LastFour(value, 4);
      FourBytes(value / U32_LIMIT);
    } else if value > 0xffff {
      FourBytes(value);
    } else if value > 0xff {
      LastByte(value, 2);
      OneByte(value / 0x100);
    } else {
      OneByte(value);
    }
  }

  lemma LastByte(value: nat, width: nat)
    requires width > 0
    ensures BigEndian(value, width) == BigEndian(value / 0x100, width - 1) + [value % 0x100]
  {
  }

  lemma OneByte(value: byte)
    ensures BigEndian(value, 1) == [value] && BigEndian(value, 0) == []
  {
    hide BigEndian;
    LastByte(value, 1);
    NoBytes(value);
    NoBytes(value / 0x100);
  }

  lemma NoBytes(value: nat)
    ensures BigEndian(value, 0) == []
  {
  }

  lemma FourBytes(value: u32)
    ensures BigEndian(value, 4) == Quarter(value)
  {
    hide Quarter, BigEndian;
    LastFour(value, 0);
    NoBytes(0);
  }

  lemma LastFour(value: nat, width: nat)
    ensures BigEndian(value, width + 4) == BigEndian(value / U32_LIMIT, width) + Quarter(value % U32_LIMIT)
  {
    hide BigEndian;
    var a := value / 0x100;
    var b := a / 0x100;
    var c := b / 0x100;
    LastByte(value, width + 4);
    LastByte(a, width + 3);
    LastByte(b, width + 2);
    LastByte(c, width + 1);
    DigitsOf(value);
  }

  lemma DigitsOf(value: nat)
    ensures value / 0x100 / 0x100 / 0x100 / 0x100 == value / U32_LIMIT
    ensures value / 0x100 / 0x100 / 0x100 % 0x100 == value % U32_LIMIT / 0x100_0000
    ensures value / 0x100 / 0x100 % 0x100 == value % U32_LIMIT / 0x1_0000 % 0x100
    ensures value / 0x100 % 0x100 == value % U32_LIMIT / 0x100 % 0x100
    ensures value % 0x100 == value % U32_LIMIT % 0x100
  {
    var d, first := value % 0x100, value / 0x100;
    var c, second := first % 0x100, first / 0x100;
    var b, third := second % 0x100, second / 0x100;
    var a, q := third % 0x100, third / 0x100;
    var r := 0x100_0000 * a + 0x1_0000 * b + 0x100 * c + d;
    assert value == U32_LIMIT * q + r;
    assert value / U32_LIMIT == q && value % U32_LIMIT == r;
    QuarterDigits(a, b, c, d);
  }

  lemma QuarterDigits(a: byte, b: byte, c: byte, d: byte)
    ensures var r := 0x100_0000 * a + 0x1_0000 * b + 0x100 * c + d;
            && r / 0x100_0000 == a && r / 0x1_0000 % 0x100 == b
            && r / 0x100 % 0x100 == c && r % 0x100 == d
  {
    var r := 0x100_0000 * a + 0x1_0000 * b + 0x100 * c + d;
    assert r / 0x1_0000 == 0x100 * a + b;
    OneDigit(0x100 * a + b, a, b);
    OneDigit(r, 0x1_0000 * a + 0x100 * b + c, d);
    OneDigit(0x1_0000 * a + 0x100 * b + c, 0x100 * a + b, c);
  }

  lemma OneDigit(value: nat, rest: nat, digit: nat)
    requires digit < 0x100 && value == 0x100 * rest + digit
    ensures value / 0x100 == rest && value % 0x100 == digit
  {
  }

  /** The bytes that follow an initial byte whose low five bits are `info`. */
  function InfoWidth(info: nat): nat
    requires info < 28
  {
    if info < 24 then 0 else if info == 24 then 1 else if info == 25 then 2 else if info == 26 then 4 else 8
  }

  /** The largest value that a narrower head would carry. */
  function Below(info: nat): nat
    requires 24 <= info < 28
  {
    if info == 24 then 23 else if info == 25 then 0xff else if info == 26 then 0xffff else 0xffff_ffff
  }

  lemma Pow256Values()
    ensures Pow256(1) == 0x100 && Pow256(2) == 0x1_0000
    ensures Pow256(4) == U32_LIMIT && Pow256(8) == U64_LIMIT
  {
    assert Pow256(2) == 256 * Pow256(1);
    assert Pow256(3) == 256 * Pow256(2);
    assert Pow256(4) == 256 * Pow256(3);
    assert Pow256(5) == 256 * Pow256(4);
    assert Pow256(6) == 256 * Pow256(5);
    assert Pow256(7) == 256 * Pow256(6);
  }

  /** Reads a head of the expected major type, refusing a non-minimal argument. */
  function ReadHead(s: bytes, major: nat): Result<(u64, bytes), WireError> {
    if s == [] then Err(Truncated)
    else if s[0] / 32 != major then Err(WrongMajor)
    else
      var info := s[0] % 32;
      if info < 24 then Ok((info, s[1..]))
      else if info > 27 then Err(ReservedLength)
      else if |s| < 1 + InfoWidth(info) then Err(Truncated)
      else
        var v := Value(s[1..1 + InfoWidth(info)]);
        if v <= Below(info) then Err(NonMinimal)
        else
          BigEndianOfValue(s[1..1 + InfoWidth(info)]);
          Pow256Values();
          Ok((v, s[1 + InfoWidth(info)..]))
  }

  lemma HeadRoundTrip(major: nat, value: u64, rest: bytes)
    requires major < 8
    ensures ReadHead(Head(major, value) + rest, major) == Ok((value, rest))
  {
    hide BigEndian, Value;
    var s := Head(major, value) + rest;
    var width := Width(value);
    assert s[0] == major * 32 + Info(value) && s[0] / 32 == major && s[0] % 32 == Info(value);
    assert s[1 + width..] == rest;
    if width > 0 {
      assert s[1..1 + width] == BigEndian(value, width);
      Pow256Values();
      ValueOfBigEndian(value, width);
    }
  }

  lemma InfoDecides(info: nat, value: nat)
    requires 24 <= info < 28 && Below(info) < value < Pow256(InfoWidth(info))
    ensures Width(value) == InfoWidth(info) && Info(value) == info
  {
    Pow256Values();
  }

  /** An accepted head is the one the writer produces: no other spelling is read. */
  lemma HeadCanonical(s: bytes, major: nat)
    requires ReadHead(s, major).Ok?
    ensures major < 8
    ensures s == Head(major, ReadHead(s, major).value.0) + ReadHead(s, major).value.1
  {
    hide BigEndian, Value, Pow256;
    var info := s[0] % 32;
    assert s[0] == major * 32 + info;
    if info < 24 {
      assert s == [s[0]] + s[1..];
    } else {
      var tail := s[1..1 + InfoWidth(info)];
      BigEndianOfValue(tail);
      InfoDecides(info, Value(tail));
      assert s == [s[0]] + tail + s[1 + InfoWidth(info)..];
    }
  }

  // ---------------------------------------------------------------------------
  // Map entries
  // ---------------------------------------------------------------------------

  function MapHead(entries: u64): bytes {
    Head(MAJOR_MAP, entries)
  }

  function UintEntry(key: u64, value: u64): bytes {
    Head(MAJOR_UINT, key) + Head(MAJOR_UINT, value)
  }

  function BstrEntry(key: u64, value: bytes): bytes
    requires |value| < U64_LIMIT
  {
    Head(MAJOR_UINT, key) + Head(MAJOR_BSTR, |value|) + value
  }

  function ReadMap(s: bytes, entries: u64): Result<bytes, WireError> {
    var (n, rest) :- ReadHead(s, MAJOR_MAP);
    if n != entries then Err(WrongMapSize) else Ok(rest)
  }

  function ReadKey(s: bytes, key: u64): Result<bytes, WireError> {
    var (k, rest) :- ReadHead(s, MAJOR_UINT);
    if k != key then Err(UnexpectedKey) else Ok(rest)
  }

  function ReadUint(s: bytes, key: u64): Result<(u64, bytes), WireError> {
    var rest :- ReadKey(s, key);
    ReadHead(rest, MAJOR_UINT)
  }

  function ReadUint32(s: bytes, key: u64): Result<(u32, bytes), WireError> {
    var (v, rest) :- ReadUint(s, key);
    if v >= U32_LIMIT then Err(TooLarge) else Ok((v, rest))
  }

  type Id16 = s: bytes | |s| == 16 witness [0, 0, 0, 0, 0, 0, 0, 0, 0, 0, 0, 0, 0, 0, 0, 0]

  function ReadBstr16(s: bytes, key: u64): Result<(Id16, bytes), WireError> {
    var body :- ReadKey(s, key);
    var (len, rest) :- ReadHead(body, MAJOR_BSTR);
    if len != 16 then Err(WrongLength)
    else if |rest| < 16 then Err(Truncated)
    else Ok((rest[..16], rest[16..]))
  }

  lemma MapRoundTrip(entries: u64, rest: bytes)
    ensures ReadMap(MapHead(entries) + rest, entries) == Ok(rest)
  {
    hide Head, ReadHead;
    HeadRoundTrip(MAJOR_MAP, entries, rest);
  }

  lemma MapCanonical(s: bytes, entries: u64)
    requires ReadMap(s, entries).Ok?
    ensures s == MapHead(entries) + ReadMap(s, entries).value
  {
    hide Head, ReadHead;
    HeadCanonical(s, MAJOR_MAP);
  }

  lemma UintRoundTrip(key: u64, value: u64, rest: bytes)
    ensures ReadUint(UintEntry(key, value) + rest, key) == Ok((value, rest))
  {
    hide Head, ReadHead;
    assert UintEntry(key, value) + rest == Head(MAJOR_UINT, key) + (Head(MAJOR_UINT, value) + rest);
    HeadRoundTrip(MAJOR_UINT, key, Head(MAJOR_UINT, value) + rest);
    HeadRoundTrip(MAJOR_UINT, value, rest);
  }

  lemma UintCanonical(s: bytes, key: u64)
    requires ReadUint(s, key).Ok?
    ensures s == UintEntry(key, ReadUint(s, key).value.0) + ReadUint(s, key).value.1
  {
    hide Head, ReadHead;
    HeadCanonical(s, MAJOR_UINT);
    var body := ReadKey(s, key).value;
    HeadCanonical(body, MAJOR_UINT);
    var (value, rest) := ReadUint(s, key).value;
    assert s == Head(MAJOR_UINT, key) + (Head(MAJOR_UINT, value) + rest);
  }

  lemma BstrRoundTrip(key: u64, value: Id16, rest: bytes)
    ensures ReadBstr16(BstrEntry(key, value) + rest, key) == Ok((value, rest))
  {
    hide Head, ReadHead;
    var body := Head(MAJOR_BSTR, 16) + (value + rest);
    assert BstrEntry(key, value) + rest == Head(MAJOR_UINT, key) + body;
    HeadRoundTrip(MAJOR_UINT, key, body);
    HeadRoundTrip(MAJOR_BSTR, 16, value + rest);
    assert (value + rest)[..16] == value && (value + rest)[16..] == rest;
  }

  lemma BstrCanonical(s: bytes, key: u64)
    requires ReadBstr16(s, key).Ok?
    ensures s == BstrEntry(key, ReadBstr16(s, key).value.0) + ReadBstr16(s, key).value.1
  {
    hide Head, ReadHead;
    var k := Head(MAJOR_UINT, key);
    var body := ReadKey(s, key).value;
    var tail := ReadHead(body, MAJOR_BSTR).value.1;
    HeadCanonical(s, MAJOR_UINT);
    HeadCanonical(body, MAJOR_BSTR);
    Regroup(k, Head(MAJOR_BSTR, 16), tail[..16], tail[16..]);
  }

  lemma Regroup(a: bytes, b: bytes, c: bytes, d: bytes)
    ensures a + (b + (c + d)) == a + b + c + d
  {
  }
}
