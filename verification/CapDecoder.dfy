/**
 The secure-element firmware's own decoder of capability payloads, written
 independently with numeric refusal codes, and its agreement with the token decoder.
 */
module CapDecoder {
  import opened Common
  import opened Cbor
  import opened Token

  /** What a reading step returns: a code (zero is success), a value, and the unread bytes. */
  datatype Read<T> = Read(rc: nat, value: T, rest: bytes)

  function RdHead(s: bytes, major: nat): Read<u64> {
    if s == [] then Read(1, 0, s)
    else if s[0] / 32 != major then Read(3, 0, s)
    else
      var info := s[0] % 32;
      if info < 24 then Read(0, info, s[1..])
      else if info > 27 then Read(1, 0, s)
      else
        var width := if info == 24 then 1 else if info == 25 then 2 else if info == 26 then 4 else 8;
        if |s| < 1 + width then Read(1, 0, s)
        else
          var v := Value(s[1..1 + width]);
          BigEndianOfValue(s[1..1 + width]);
          Pow256Values();
          if || (width == 1 && v < 24) || (width == 2 && v <= 0xff)
             || (width == 4 && v <= 0xffff) || (width == 8 && v <= 0xffff_ffff)
          then Read(2, 0, s)
          else Read(0, v, s[1 + width..])
  }

  function RdUintEntry(s: bytes, key: u64): Read<u64> {
    var k := RdHead(s, 0);
    if k.rc != 0 then k
    else if k.value != key then Read(3, 0, s)
    else RdHead(k.rest, 0)
  }

  function RdBstr16Entry(s: bytes, key: u64): Read<bytes> {
    var k := RdHead(s, 0);
    if k.rc != 0 then Read(k.rc, [], s)
    else if k.value != key then Read(3, [], s)
    else
      var len := RdHead(k.rest, 2);
      if len.rc != 0 then Read(len.rc, [], s)
      else if len.value != 16 then Read(4, [], s)
      else if |len.rest| < 16 then Read(1, [], s)
      else Read(0, len.rest[..16], len.rest[16..])
  }

  function RdTail(s: bytes): (nat, u32, u32, u64) {
    var capability := RdUintEntry(s, 3);
    if capability.rc != 0 then (capability.rc, 0, 0, 0)
    else if capability.value > 0xffff_ffff then (7, 0, 0, 0)
    else
      var ttl := RdUintEntry(capability.rest, 4);
      if ttl.rc != 0 then (ttl.rc, 0, 0, 0)
      else if ttl.value > 0xffff_ffff then (7, 0, 0, 0)
      else
        var n := RdUintEntry(ttl.rest, 5);
        if n.rc != 0 then (n.rc, 0, 0, 0)
        else if n.rest != [] then (6, 0, 0, 0)
        else (0, capability.value, ttl.value, n.value)
  }

  /** Everything after the version. */
  function RdBody(s: bytes): (nat, Option<Capability>) {
    var deviceId := RdBstr16Entry(s, 1);
    if deviceId.rc != 0 then (deviceId.rc, None)
    else
      var nonce := RdBstr16Entry(deviceId.rest, 2);
      if nonce.rc != 0 then (nonce.rc, None)
      else
        var tail := RdTail(nonce.rest);
        if tail.0 != 0 then (tail.0, None)
        else (0, Some(Capability(2, deviceId.value, nonce.value, tail.1, tail.2, tail.3)))
  }

  /** The whole decoder: a refusal code, and the capability when the code is zero. */
  function CDecode(s: bytes): (nat, Option<Capability>) {
    var size := RdHead(s, 5);
    if size.rc != 0 then (size.rc, None)
    else if size.value != 6 then (3, None)
    else
      var ver := RdUintEntry(size.rest, 0);
      if ver.rc != 0 then (ver.rc, None)
      else if ver.value != 2 then (5, None)
      else RdBody(ver.rest)
  }

  // ---------------------------------------------------------------------------
  // Agreement
  // ---------------------------------------------------------------------------

  /** The refusal code that stands for each reading error. */
  function Code(e: WireError): nat {
    match e
    case Truncated => 1
    case ReservedLength => 1
    case NonMinimal => 2
    case WrongMajor => 3
    case WrongMapSize => 3
    case UnexpectedKey => 3
    case WrongLength => 4
    case UnknownVersion => 5
    case TrailingBytes => 6
    case TooLarge => 7
    case _ => 0
  }

  ghost predicate Same<T>(c: Read<T>, r: Result<(T, bytes), WireError>) {
    match r
    case Ok((v, rest)) => c == Read(0, v, rest)
    case Err(e) => c.rc == Code(e) != 0
  }

  lemma HeadsAgree(s: bytes, major: nat)
    ensures Same(RdHead(s, major), ReadHead(s, major))
  {
  }

  lemma UintsAgree(s: bytes, key: u64)
    ensures Same(RdUintEntry(s, key), ReadUint(s, key))
  {
    hide RdHead, ReadHead;
    HeadsAgree(s, 0);
    if ReadKey(s, key).Ok? {
      HeadsAgree(ReadKey(s, key).value, 0);
    }
  }

  lemma BstrsAgree(s: bytes, key: u64)
    ensures match ReadBstr16(s, key)
            case Ok((v, rest)) => var c := RdBstr16Entry(s, key); c.rc == 0 && c.value == v && c.rest == rest
            case Err(e) => RdBstr16Entry(s, key).rc == Code(e) != 0
  {
    hide RdHead, ReadHead;
    HeadsAgree(s, 0);
    if ReadKey(s, key).Ok? {
      HeadsAgree(ReadKey(s, key).value, 2);
    }
  }

  lemma TailsAgree(i: Ids, s: bytes)
    ensures match DecodeCapTail(i, s)
            case Ok(c) => RdTail(s) == (0, c.capability, c.ttlSecs, c.issuedSeq) && CapIds(c) == i
            case Err(e) => RdTail(s).0 == Code(e) != 0
  {
    hide RdUintEntry, ReadUint;
    UintsAgree(s, 3);
    if ReadUint32(s, 3).Ok? {
      var s4 := ReadUint32(s, 3).value.1;
      UintsAgree(s4, 4);
      if ReadUint32(s4, 4).Ok? {
        UintsAgree(ReadUint32(s4, 4).value.1, 5);
      }
    }
  }

  /** The payload is well formed up to its version, which is the one this tier cannot verify. */
  predicate IsVersion1(s: bytes) {
    ReadMap(s, 6).Ok? && ReadUint(ReadMap(s, 6).value, 0).Ok? && ReadUint(ReadMap(s, 6).value, 0).value.0 == VER_ED25519
  }

  /**
   For every byte string the two decoders agree, down to the refusal: version 1 is
   code 5 here, and otherwise the fields or the error are the same.
   */
  lemma DecodersAgree(s: bytes)
    ensures CDecode(s) ==
            if IsVersion1(s) then (5, None)
            else match DecodeCap(s)
              case Ok(c) => (0, Some(c))
              case Err(e) => (Code(e), None)
    ensures DecodeCap(s).Err? && !IsVersion1(s) ==> Code(DecodeCap(s).error) != 0
    ensures DecodeCap(s).Ok? ==> (IsVersion1(s) <==> DecodeCap(s).value.ver == VER_ED25519)
  {
    hide RdHead, ReadHead, RdUintEntry, ReadUint, RdBstr16Entry, ReadBstr16, RdTail, DecodeCapTail;
    HeadsAgree(s, 5);
    if ReadMap(s, 6).Ok? {
      var s1 := ReadMap(s, 6).value;
      UintsAgree(s1, 0);
      if ReadVersion(s1).Ok? {
        var s2 := ReadVersion(s1).value.1;
        BstrsAgree(s2, 1);
        if ReadBstr16(s2, 1).Ok? {
          BstrsAgree(ReadBstr16(s2, 1).value.1, 2);
          if ReadIds(s, 6).Ok? {
            TailsAgree(ReadIds(s, 6).value.0, ReadIds(s, 6).value.1);
          }
        }
      }
    }
  }

  // ---------------------------------------------------------------------------
  // The reader struct with its moving position, and fields written through `out`
  // ---------------------------------------------------------------------------

  class Reader {
    const buf: bytes
    var pos: nat

    ghost predicate Valid()
      reads this
    {
      pos <= |buf|
    }

    ghost function Rest(): bytes
      reads this
      requires Valid()
    {
      buf[pos..]
    }

    constructor (payload: bytes)
      ensures Valid() && Rest() == payload && buf == payload
    {
      buf, pos := payload, 0;
    }

    method Byte() returns (rc: nat, out: byte)
      requires Valid()
      modifies this
      ensures Valid()
      ensures rc == if old(Rest()) == [] then 1 else 0
      ensures rc == 0 ==> out == old(Rest())[0] && Rest() == old(Rest())[1..]
    {
      if pos >= |buf| {
        return 1, 0;
      }
      out := buf[pos];
      pos := pos + 1;
      rc := 0;
    }

    /** Shifts `width` bytes into a 64-bit accumulator. */
    method Accumulate(width: nat) returns (rc: nat, v: u64)
      requires Valid() && width <= 8
      modifies this
      ensures Valid()
      ensures rc == if |old(Rest())| < width then 1 else 0
      ensures rc == 0 ==> v == Value(old(Rest())[..width]) && Rest() == old(Rest())[width..]
    {
      ghost var whole := Rest();
      var b;
      v := 0;
      for i := 0 to width
        invariant Valid() && pos == old(pos) + i
        invariant v == Value(whole[..i])
      {
        rc, b := Byte();
        if rc != 0 { return 1, 0; }
        ShiftIn(whole[..i], b);
        assert whole[..i] + [b] == whole[..i + 1];
        v := v * 256 % U64_LIMIT + b;
      }
      rc := 0;
    }

    method Head(major: nat) returns (rc: nat, value: u64)
      requires Valid()
      modifies this
      ensures Valid()
      ensures rc == RdHead(old(Rest()), major).rc
      ensures rc == 0 ==> value == RdHead(old(Rest()), major).value && Rest() == RdHead(old(Rest()), major).rest
    {
      hide Value, BigEndian, Pow256;
      ghost var whole := Rest();
      value := 0;
      var initial;
      rc, initial := Byte();
      if rc != 0 { return; }
      if initial / 32 != major { return 3, 0; }
      var info := initial % 32;
      if info < 24 { return 0, info; }
      var width := 0;
      if info == 24 {
        width := 1;
      } else if info == 25 {
        width := 2;
      } else if info == 26 {
        width := 4;
      } else if info == 27 {
        width := 8;
      } else {
        return 1, 0;
      }
      var v;
      rc, v := Accumulate(width);
      if rc != 0 { return 1, 0; }
      assert whole[1..][..width] == whole[1..1 + width] && whole[1..][width..] == whole[1 + width..];
      if || (width == 1 && v < 24) || (width == 2 && v <= 0xff)
         || (width == 4 && v <= 0xffff) || (width == 8 && v <= 0xffff_ffff) {
        return 2, 0;
      }
      return 0, v;
    }

    method UintEntry(key: u64) returns (rc: nat, value: u64)
      requires Valid()
      modifies this
      ensures Valid()
      ensures rc == RdUintEntry(old(Rest()), key).rc
      ensures rc == 0 ==> value == RdUintEntry(old(Rest()), key).value && Rest() == RdUintEntry(old(Rest()), key).rest
    {
      rc, value := Head(0);
      if rc != 0 { return; }
      if value != key { return 3, 0; }
      rc, value := Head(0);
    }

    method Bstr16Entry(key: u64, out: array<byte>) returns (rc: nat)
      requires Valid() && out.Length == 16
      modifies this, out
      ensures Valid()
      ensures rc == RdBstr16Entry(old(Rest()), key).rc
      ensures rc == 0 ==> out[..] == RdBstr16Entry(old(Rest()), key).value
      ensures rc == 0 ==> Rest() == RdBstr16Entry(old(Rest()), key).rest
    {
      var k, len, b;
      rc, k := Head(0);
      if rc != 0 { return; }
      if k != key { return 3; }
      rc, len := Head(2);
      if rc != 0 { return; }
      if len != 16 { return 4; }
      ghost var body := Rest();
      ghost var at := pos;
      for i := 0 to 16
        invariant Valid() && pos == at + i && i <= |body|
        invariant out[..i] == body[..i]
      {
        rc, b := Byte();
        if rc != 0 { return 1; }
        out[i] := b;
      }
      assert out[..] == out[..16];
      rc := 0;
    }
  }

  /** A shift by eight bits loses nothing while fewer than eight bytes are in. */
  lemma ShiftIn(front: bytes, b: byte)
    requires |front| < 8
    ensures Value(front) * 256 < U64_LIMIT && Value(front) * 256 + b < U64_LIMIT
    ensures Value(front + [b]) == Value(front) * 256 + b
  {
    var s := front + [b];
    assert s[..|front|] == front;
    BigEndianOfValue(s);
    Pow256Grows(|s|);
  }

  lemma {:induction false} Pow256Grows(n: nat)
    requires n <= 8
    ensures Pow256(n) <= U64_LIMIT
    decreases 8 - n
  {
    Pow256Values();
    if n < 8 {
      Pow256Grows(n + 1);
    }
  }

  class LgCapability {
    var ver: byte
    const deviceId: array<byte>
    const grantNonce: array<byte>
    var capability: u32
    var ttlSecs: u32
    var issuedSeq: u64

    ghost predicate Valid()
      reads this
    {
      deviceId.Length == 16 && grantNonce.Length == 16 && deviceId != grantNonce
    }

    /** The decoded fields as one value. */
    ghost function Fields(): Capability
      reads this, deviceId, grantNonce
      requires Valid()
    {
      Capability(ver, deviceId[..], grantNonce[..], capability, ttlSecs, issuedSeq)
    }

    constructor ()
      ensures Valid() && fresh(deviceId) && fresh(grantNonce)
    {
      ver, capability, ttlSecs, issuedSeq := 0, 0, 0, 0;
      deviceId := new byte[16](_ => 0);
      grantNonce := new byte[16](_ => 0);
    }
  }

  /** The integer fields and the end of input. */
  method LgCapDecodeTail(r: Reader, out: LgCapability) returns (rc: nat)
    requires r.Valid()
    modifies r, out`capability, out`ttlSecs, out`issuedSeq
    ensures rc == RdTail(old(r.Rest())).0
    ensures rc == 0 ==> (0, out.capability, out.ttlSecs, out.issuedSeq) == RdTail(old(r.Rest()))
  {
    hide RdUintEntry;
    var v;
    rc, v := r.UintEntry(3);
    if rc != 0 { return; }
    if v > 0xffff_ffff { return 7; }
    out.capability := v;
    rc, v := r.UintEntry(4);
    if rc != 0 { return; }
    if v > 0xffff_ffff { return 7; }
    out.ttlSecs := v;
    rc, v := r.UintEntry(5);
    if rc != 0 { return; }
    out.issuedSeq := v;
    if r.pos != |r.buf| { return 6; }
    rc := 0;
  }

  /** The two identifiers, then the integers. */
  method LgCapDecodeBody(r: Reader, out: LgCapability) returns (rc: nat)
    requires r.Valid() && out.Valid() && out.ver == 2
    modifies r, out`capability, out`ttlSecs, out`issuedSeq, out.deviceId, out.grantNonce
    ensures out.Valid()
    ensures rc == RdBody(old(r.Rest())).0
    ensures rc == 0 ==> Some(out.Fields()) == RdBody(old(r.Rest())).1
  {
    hide RdBstr16Entry, RdTail;
    rc := r.Bstr16Entry(1, out.deviceId);
    if rc != 0 { return; }
    rc := r.Bstr16Entry(2, out.grantNonce);
    if rc != 0 { return; }
    rc := LgCapDecodeTail(r, out);
  }

  method LgCapDecode(payload: bytes, out: LgCapability) returns (rc: nat)
    requires out.Valid()
    modifies out, out.deviceId, out.grantNonce
    ensures out.Valid()
    ensures rc == CDecode(payload).0
    ensures rc == 0 ==> Some(out.Fields()) == CDecode(payload).1
  {
    hide RdHead, RdUintEntry, RdBody, Reader.Rest;
    var r := new Reader(payload);
    var size, v;
    rc, size := r.Head(5);
    if rc == 0 {
      if size != 6 {
        rc := 3;
      } else {
        rc, v := r.UintEntry(0);
        if rc == 0 {
          if v != 2 {
            rc := 5; // the one version this decoder takes
          } else {
            out.ver := v;
            rc := LgCapDecodeBody(r, out);
          }
        }
      }
    }
  }
}
