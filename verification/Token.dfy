/**
 Capability and revocation payloads: the codec, its canonicity, the size bounds
 the fixed buffers rely on, and what an accepted signature means.
 */
module Token {
  import opened Common
  import opened Cbor
  import opened CborStream

  const VER_ED25519: byte := 1
  const VER_P256: byte := 2

  const SIG_LEN: nat := 64
  const MAX_PAYLOAD_LEN: nat := 61
  const MAX_TOKEN_LEN: nat := 6 + 82 + 1 + 86

  datatype Capability = Capability(
    ver: byte, deviceId: Id16, nonce: Id16, capability: u32, ttlSecs: u32, issuedSeq: u64)

  datatype Revocation = Revocation(ver: byte, deviceId: Id16, nonce: Id16, issuedSeq: u64)

  predicate KnownVersion(ver: byte) {
    ver == VER_ED25519 || ver == VER_P256
  }

  // ---------------------------------------------------------------------------
  // What both payloads start with: the map size, the version, the two identifiers
  // ---------------------------------------------------------------------------

  datatype Ids = Ids(ver: byte, deviceId: Id16, nonce: Id16)

  function VersionPart(entries: u64, ver: byte): bytes {
    MapHead(entries) + UintEntry(0, ver)
  }

  function IdPart(deviceId: Id16, nonce: Id16): bytes {
    BstrEntry(1, deviceId) + BstrEntry(2, nonce)
  }

  function IdsPayload(entries: u64, i: Ids): bytes {
    VersionPart(entries, i.ver) + IdPart(i.deviceId, i.nonce)
  }

  function ReadVersion(s: bytes): Result<(byte, bytes), WireError> {
    var (v, rest) :- ReadUint(s, 0);
    if v == VER_ED25519 || v == VER_P256 then Ok((v, rest)) else Err(UnknownVersion)
  }

  function ReadIds(s: bytes, entries: u64): Result<(Ids, bytes), WireError> {
    var s :- ReadMap(s, entries);
    var (ver, s) :- ReadVersion(s);
    var (deviceId, s) :- ReadBstr16(s, 1);
    var (nonce, s) :- ReadBstr16(s, 2);
    Ok((Ids(ver, deviceId, nonce), s))
  }

  lemma IdsRoundTrip(entries: u64, i: Ids, rest: bytes)
    ensures ReadIds(IdsPayload(entries, i) + rest, entries)
         == if KnownVersion(i.ver) then Ok((i, rest)) else Err(UnknownVersion)
  {
    hide ReadUint, UintEntry, ReadBstr16, BstrEntry, ReadMap, MapHead;
    var s3 := BstrEntry(2, i.nonce) + rest;
    var s2 := BstrEntry(1, i.deviceId) + s3;
    var s1 := UintEntry(0, i.ver) + s2;
    assert IdsPayload(entries, i) + rest == MapHead(entries) + s1 by {
      Nest(MapHead(entries), UintEntry(0, i.ver), BstrEntry(1, i.deviceId), BstrEntry(2, i.nonce), rest);
    }
    MapRoundTrip(entries, s1);
    UintRoundTrip(0, i.ver, s2);
    BstrRoundTrip(1, i.deviceId, s3);
    BstrRoundTrip(2, i.nonce, rest);
  }

  lemma IdsCanonical(s: bytes, entries: u64)
    requires ReadIds(s, entries).Ok?
    ensures KnownVersion(ReadIds(s, entries).value.0.ver)
    ensures s == IdsPayload(entries, ReadIds(s, entries).value.0) + ReadIds(s, entries).value.1
  {
    hide ReadUint, UintEntry, ReadBstr16, BstrEntry, ReadMap, MapHead;
    var (i, rest) := ReadIds(s, entries).value;
    var s1 := ReadMap(s, entries).value;
    var s2 := ReadVersion(s1).value.1;
    var s3 := ReadBstr16(s2, 1).value.1;
    MapCanonical(s, entries);
    UintCanonical(s1, 0);
    BstrCanonical(s2, 1);
    BstrCanonical(s3, 2);
    Nest(MapHead(entries), UintEntry(0, i.ver), BstrEntry(1, i.deviceId), BstrEntry(2, i.nonce), rest);
  }

  lemma Nest(a: bytes, b: bytes, c: bytes, d: bytes, e: bytes)
    ensures (a + b) + (c + d) + e == a + (b + (c + (d + e)))
  {
  }

  method PushVersion(w: Writer, entries: u64, ver: byte) returns (r: Result<(), WireError>)
    requires w.Valid()
    modifies w, w.buf
    ensures w.Appends(VersionPart(entries, ver), r)
  {
    r := w.Map(entries);
    if r.Ok? {
      r := w.PushUint(0, ver);
    }
  }

  method PushIdPart(w: Writer, deviceId: Id16, nonce: Id16) returns (r: Result<(), WireError>)
    requires w.Valid()
    modifies w, w.buf
    ensures w.Appends(IdPart(deviceId, nonce), r)
  {
    r := w.PushBstr(1, deviceId);
    if r.Ok? {
      r := w.PushBstr(2, nonce);
    }
  }

  method PushIds(w: Writer, entries: u64, i: Ids) returns (r: Result<(), WireError>)
    requires w.Valid()
    modifies w, w.buf
    ensures w.Appends(IdsPayload(entries, i), r)
  {
    hide VersionPart, IdPart;
    r := PushVersion(w, entries, i.ver);
    if r.Ok? {
      r := PushIdPart(w, i.deviceId, i.nonce);
    }
  }

  method PullIds(rd: Reader, entries: u64) returns (r: Result<Ids, WireError>)
    requires rd.Valid()
    modifies rd
    ensures rd.Valid()
    ensures match ReadIds(old(rd.Rest()), entries)
            case Ok((i, rest)) => r == Ok(i) && rd.Rest() == rest
            case Err(e) => r == Err(e)
  {
    var size := rd.MapOf(entries);
    if size.Err? { return Err(size.error); }
    var ver := rd.Uint(0);
    if ver.Err? { return Err(ver.error); }
    if ver.value != VER_ED25519 && ver.value != VER_P256 { return Err(UnknownVersion); }
    var deviceId := rd.Bstr16(1);
    if deviceId.Err? { return Err(deviceId.error); }
    var nonce := rd.Bstr16(2);
    if nonce.Err? { return Err(nonce.error); }
    r := Ok(Ids(ver.value, deviceId.value, nonce.value));
  }

  // ---------------------------------------------------------------------------
  // The payload of a capability
  // ---------------------------------------------------------------------------

  function CapIds(c: Capability): Ids {
    Ids(c.ver, c.deviceId, c.nonce)
  }

  function LimitPart(ttlSecs: u32, issuedSeq: u64): bytes {
    UintEntry(4, ttlSecs) + UintEntry(5, issuedSeq)
  }

  function CapTail(c: Capability): bytes {
    UintEntry(3, c.capability) + LimitPart(c.ttlSecs, c.issuedSeq)
  }

  function CapPayload(c: Capability): bytes {
    IdsPayload(6, CapIds(c)) + CapTail(c)
  }

  /** The bytes of a capability: a map of six entries keyed 0 to 5 in order, the identifiers as 16-byte strings. */
  lemma CapLayout(c: Capability)
    requires KnownVersion(c.ver)
    ensures CapPayload(c)
         == [0xa6, 0x00, c.ver, 0x01, 0x50] + c.deviceId + [0x02, 0x50] + c.nonce
            + ([0x03] + Head(MAJOR_UINT, c.capability)) + ([0x04] + Head(MAJOR_UINT, c.ttlSecs))
            + ([0x05] + Head(MAJOR_UINT, c.issuedSeq))
  {
    hide Head;
    FixedHeads();
    HeadBytes(c.ver);
    IdsLayout(6, CapIds(c), 0xa6);
  }

  lemma FixedHeads()
    ensures MapHead(6) == [0xa6] && MapHead(4) == [0xa4] && Head(MAJOR_BSTR, 16) == [0x50]
    ensures Head(MAJOR_UINT, 0) == [0] && Head(MAJOR_UINT, 1) == [1] && Head(MAJOR_UINT, 2) == [2]
    ensures Head(MAJOR_UINT, 3) == [3] && Head(MAJOR_UINT, 4) == [4] && Head(MAJOR_UINT, 5) == [5]
  {
  }

  lemma IdsLayout(entries: u64, i: Ids, first: byte)
    requires MapHead(entries) == [first] && KnownVersion(i.ver)
    ensures IdsPayload(entries, i) == [first, 0x00, i.ver, 0x01, 0x50] + i.deviceId + [0x02, 0x50] + i.nonce
  {
    hide Head;
    FixedHeads();
    HeadBytes(i.ver);
    assert VersionPart(entries, i.ver) == [first, 0x00, i.ver];
    assert IdPart(i.deviceId, i.nonce) == [0x01, 0x50] + i.deviceId + [0x02, 0x50] + i.nonce;
  }

  function DecodeCapTail(i: Ids, s: bytes): Result<Capability, WireError> {
    var (capability, s) :- ReadUint32(s, 3);
    var (ttlSecs, s) :- ReadUint32(s, 4);
    var (issuedSeq, s) :- ReadUint(s, 5);
    if s != [] then Err(TrailingBytes)
    else Ok(Capability(i.ver, i.deviceId, i.nonce, capability, ttlSecs, issuedSeq))
  }

  function DecodeCap(s: bytes): Result<Capability, WireError> {
    var (ids, s) :- ReadIds(s, 6);
    DecodeCapTail(ids, s)
  }

  lemma CapTailRoundTrip(c: Capability)
    ensures DecodeCapTail(CapIds(c), CapTail(c)) == Ok(c)
  {
    hide ReadUint, UintEntry;
    UintRoundTrip(3, c.capability, LimitPart(c.ttlSecs, c.issuedSeq));
    UintRoundTrip(4, c.ttlSecs, UintEntry(5, c.issuedSeq));
    UintRoundTrip(5, c.issuedSeq, []);
    assert UintEntry(5, c.issuedSeq) + [] == UintEntry(5, c.issuedSeq);
  }

  /** Decoding inverts encoding for the known versions and refuses every other version. */
  lemma CapRoundTrip(c: Capability)
    ensures DecodeCap(CapPayload(c)) == if KnownVersion(c.ver) then Ok(c) else Err(UnknownVersion)
  {
    hide ReadIds, IdsPayload, DecodeCapTail, CapTail;
    IdsRoundTrip(6, CapIds(c), CapTail(c));
    CapTailRoundTrip(c);
  }

  lemma CapTailCanonical(i: Ids, s: bytes)
    requires DecodeCapTail(i, s).Ok?
    ensures s == CapTail(DecodeCapTail(i, s).value) && CapIds(DecodeCapTail(i, s).value) == i
  {
    hide ReadUint, UintEntry;
    var s4 := ReadUint32(s, 3).value.1;
    var s5 := ReadUint32(s4, 4).value.1;
    UintCanonical(s, 3);
    UintCanonical(s4, 4);
    UintCanonical(s5, 5);
    assert s5 == UintEntry(5, ReadUint(s5, 5).value.0);
  }

  /** An accepted payload is the encoding of what it decodes to, so no payload has two spellings. */
  lemma CapCanonical(s: bytes)
    requires DecodeCap(s).Ok?
    ensures KnownVersion(DecodeCap(s).value.ver)
    ensures s == CapPayload(DecodeCap(s).value)
  {
    hide ReadIds, IdsPayload, DecodeCapTail, CapTail;
    IdsCanonical(s, 6);
    CapTailCanonical(ReadIds(s, 6).value.0, ReadIds(s, 6).value.1);
  }

  lemma IdsLength(entries: u64, i: Ids)
    requires entries < 24
    ensures |IdsPayload(entries, i)| == if i.ver < 24 then 39 else 40
  {
    assert |MapHead(entries)| == 1 && |UintEntry(0, i.ver)| == if i.ver < 24 then 2 else 3;
    assert |BstrEntry(1, i.deviceId)| == 18 && |BstrEntry(2, i.nonce)| == 18;
  }

  /** An unknown version at the widest: one byte more than the buffers hold. */
  lemma UnknownVersionOverflows(deviceId: Id16, nonce: Id16)
    ensures |CapPayload(Capability(24, deviceId, nonce, 0x1_0000, 0x1_0000, 0x1_0000_0000))| == MAX_PAYLOAD_LEN + 1
  {
    CapFits(Capability(24, deviceId, nonce, 0x1_0000, 0x1_0000, 0x1_0000_0000));
  }

  lemma UintLength(key: u64, value: u64)
    requires key < 24
    ensures |UintEntry(key, value)| == 2 + Width(value)
  {
  }

  /** Every integer of a capability takes its widest form. */
  predicate AllWide(c: Capability) {
    c.capability > 0xffff && c.ttlSecs > 0xffff && c.issuedSeq > 0xffff_ffff
  }

  /** The bound is safe for every known version, and attained when the integers are at full width. */
  lemma CapFits(c: Capability)
    ensures |CapPayload(c)| <= MAX_PAYLOAD_LEN <==> c.ver < 24 || !AllWide(c)
    ensures AllWide(c) ==> |CapPayload(c)| == if c.ver < 24 then MAX_PAYLOAD_LEN else MAX_PAYLOAD_LEN + 1
  {
    hide IdsPayload, UintEntry;
    IdsLength(6, CapIds(c));
    UintLength(3, c.capability);
    UintLength(4, c.ttlSecs);
    UintLength(5, c.issuedSeq);
  }

  method PushLimits(w: Writer, ttlSecs: u32, issuedSeq: u64) returns (r: Result<(), WireError>)
    requires w.Valid()
    modifies w, w.buf
    ensures w.Appends(LimitPart(ttlSecs, issuedSeq), r)
  {
    r := w.PushUint(4, ttlSecs);
    if r.Ok? {
      r := w.PushUint(5, issuedSeq);
    }
  }

  method PushCapTail(w: Writer, c: Capability) returns (r: Result<(), WireError>)
    requires w.Valid()
    modifies w, w.buf
    ensures w.Appends(CapTail(c), r)
  {
    hide UintEntry, LimitPart;
    r := w.PushUint(3, c.capability);
    if r.Ok? {
      r := PushLimits(w, c.ttlSecs, c.issuedSeq);
    }
  }

  method EncodeCapability(c: Capability, out: array<byte>) returns (r: Result<nat, WireError>)
    modifies out
    ensures r.Ok? <==> |CapPayload(c)| <= out.Length
    ensures r.Ok? ==> r.value == |CapPayload(c)| && out[..r.value] == CapPayload(c)
    ensures r.Err? ==> r.error == BufferTooSmall
  {
    hide IdsPayload, CapTail;
    var w := new Writer(out);
    var step := PushIds(w, 6, CapIds(c));
    if step.Err? { return Err(step.error); }
    step := PushCapTail(w, c);
    if step.Err? { return Err(step.error); }
    r := Ok(w.len);
  }

  method DecodeCapability(payload: bytes) returns (r: Result<Capability, WireError>)
    ensures r == DecodeCap(payload)
  {
    var rd := new Reader(payload);
    var ids := PullIds(rd, 6);
    if ids.Err? { return Err(ids.error); }
    var capability := rd.Uint32(3);
    if capability.Err? { return Err(capability.error); }
    var ttlSecs := rd.Uint32(4);
    if ttlSecs.Err? { return Err(ttlSecs.error); }
    var issuedSeq := rd.Uint(5);
    if issuedSeq.Err? { return Err(issuedSeq.error); }
    var end := rd.End();
    if end.Err? { return Err(end.error); }
    var i := ids.value;
    r := Ok(Capability(i.ver, i.deviceId, i.nonce, capability.value, ttlSecs.value, issuedSeq.value));
  }

  // ---------------------------------------------------------------------------
  // The payload of a revocation
  // ---------------------------------------------------------------------------

  function RvkIds(v: Revocation): Ids {
    Ids(v.ver, v.deviceId, v.nonce)
  }

  function RvkPayload(v: Revocation): bytes {
    IdsPayload(4, RvkIds(v)) + UintEntry(3, v.issuedSeq)
  }

  /** The bytes of a revocation: a map of four entries keyed 0 to 3 in order. */
  lemma RvkLayout(v: Revocation)
    requires KnownVersion(v.ver)
    ensures RvkPayload(v)
         == [0xa4, 0x00, v.ver, 0x01, 0x50] + v.deviceId + [0x02, 0x50] + v.nonce
            + ([0x03] + Head(MAJOR_UINT, v.issuedSeq))
  {
    hide Head;
    FixedHeads();
    IdsLayout(4, RvkIds(v), 0xa4);
  }

  function DecodeRvk(s: bytes): Result<Revocation, WireError> {
    var (ids, s) :- ReadIds(s, 4);
    var (issuedSeq, s) :- ReadUint(s, 3);
    if s != [] then Err(TrailingBytes) else Ok(Revocation(ids.ver, ids.deviceId, ids.nonce, issuedSeq))
  }

  lemma RvkRoundTrip(v: Revocation)
    ensures DecodeRvk(RvkPayload(v)) == if KnownVersion(v.ver) then Ok(v) else Err(UnknownVersion)
  {
    hide ReadIds, IdsPayload, ReadUint, UintEntry;
    IdsRoundTrip(4, RvkIds(v), UintEntry(3, v.issuedSeq));
    UintRoundTrip(3, v.issuedSeq, []);
    assert UintEntry(3, v.issuedSeq) + [] == UintEntry(3, v.issuedSeq);
  }

  lemma RvkCanonical(s: bytes)
    requires DecodeRvk(s).Ok?
    ensures KnownVersion(DecodeRvk(s).value.ver)
    ensures s == RvkPayload(DecodeRvk(s).value)
  {
    hide ReadIds, IdsPayload, ReadUint, UintEntry;
    var tail := ReadIds(s, 4).value.1;
    IdsCanonical(s, 4);
    UintCanonical(tail, 3);
    assert tail == UintEntry(3, DecodeRvk(s).value.issuedSeq);
  }

  lemma RvkFits(v: Revocation)
    ensures |RvkPayload(v)| <= MAX_PAYLOAD_LEN
  {
    IdsLength(4, RvkIds(v));
    UintLength(3, v.issuedSeq);
  }

  method EncodeRevocation(v: Revocation, out: array<byte>) returns (r: Result<nat, WireError>)
    modifies out
    ensures r.Ok? <==> |RvkPayload(v)| <= out.Length
    ensures r.Ok? ==> r.value == |RvkPayload(v)| && out[..r.value] == RvkPayload(v)
    ensures r.Err? ==> r.error == BufferTooSmall
  {
    hide IdsPayload, UintEntry;
    var w := new Writer(out);
    var step := PushIds(w, 4, RvkIds(v));
    if step.Err? { return Err(step.error); }
    step := w.PushUint(3, v.issuedSeq);
    if step.Err? { return Err(step.error); }
    r := Ok(w.len);
  }

  method DecodeRevocation(payload: bytes) returns (r: Result<Revocation, WireError>)
    ensures r == DecodeRvk(payload)
  {
    var rd := new Reader(payload);
    var ids := PullIds(rd, 4);
    if ids.Err? { return Err(ids.error); }
    var issuedSeq := rd.Uint(3);
    if issuedSeq.Err? { return Err(issuedSeq.error); }
    var end := rd.End();
    if end.Err? { return Err(end.error); }
    r := Ok(Revocation(ids.value.ver, ids.value.deviceId, ids.value.nonce, issuedSeq.value));
  }

  // ---------------------------------------------------------------------------
  // Signed messages
  // ---------------------------------------------------------------------------

  /** "lgcap." and "lgrvk." in ASCII. */
  const CAP_PREFIX: bytes := [108, 103, 99, 97, 112, 46]
  const RVK_PREFIX: bytes := [108, 103, 114, 118, 107, 46]

  /** The bytes a signature covers, written into a fixed buffer. */
  method SignedMessage(prefix: bytes, payload: bytes, buf: array<byte>) returns (len: nat)
    requires |prefix| + |payload| <= buf.Length
    modifies buf
    ensures len == |prefix| + |payload| && buf[..len] == prefix + payload
  {
    for i := 0 to |prefix|
      invariant buf[..i] == prefix[..i]
    {
      buf[i] := prefix[i];
    }
    for i := 0 to |payload|
      invariant buf[..|prefix| + i] == prefix + payload[..i]
    {
      buf[|prefix| + i] := payload[i];
    }
    len := |prefix| + |payload|;
  }

  /** Length of unpadded base64. */
  function Base64Len(n: nat): nat {
    (n * 8 + 5) / 6
  }

  /** prefix, payload, dot, signature. */
  function TokenLen(payload: bytes): nat {
    |CAP_PREFIX| + Base64Len(|payload|) + 1 + Base64Len(SIG_LEN)
  }

  lemma TokensFit(c: Capability, v: Revocation)
    ensures TokenLen(CapPayload(c)) <= MAX_TOKEN_LEN <==> |CapPayload(c)| <= MAX_PAYLOAD_LEN
    ensures KnownVersion(c.ver) ==> TokenLen(CapPayload(c)) <= MAX_TOKEN_LEN
    ensures TokenLen(RvkPayload(v)) <= MAX_TOKEN_LEN
  {
    CapFits(c);
    RvkFits(v);
  }

  const DOT: byte := 46

  /** What a base64 encoder without padding is relied on for. */
  ghost predicate EncodesBase64(encode: bytes -> bytes) {
    forall s :: |encode(s)| == Base64Len(|s|) && DOT !in encode(s)
  }

  function TokenText(prefix: bytes, payload64: bytes, sig64: bytes): bytes {
    prefix + payload64 + [DOT] + sig64
  }

  method PutAt(data: bytes, buf: array<byte>, at: nat)
    requires at + |data| <= buf.Length
    modifies buf
    ensures buf[..at + |data|] == old(buf[..at]) + data
  {
    for i := 0 to |data|
      invariant buf[..at + i] == old(buf[..at]) + data[..i]
    {
      buf[at + i] := data[i];
    }
  }

  lemma EncodedLength(encode: bytes -> bytes, data: bytes)
    requires EncodesBase64(encode)
    ensures |encode(data)| == Base64Len(|data|)
  {
  }

  /** Writes a token's text in place, piece by piece, exactly when it fits. */
  method Assemble(prefix: bytes, encode: bytes -> bytes, payload: bytes, sig: bytes, buf: array<byte>)
    returns (r: Result<nat, WireError>)
    requires EncodesBase64(encode) && |sig| == SIG_LEN
    modifies buf
    ensures r.Ok? <==> |prefix| + Base64Len(|payload|) + 1 + Base64Len(SIG_LEN) <= buf.Length
    ensures r.Ok? ==> r.value <= buf.Length && buf[..r.value] == TokenText(prefix, encode(payload), encode(sig))
    ensures r.Err? ==> r.error == BufferTooSmall
  {
    hide Base64Len, EncodesBase64;
    var payload64, sig64 := encode(payload), encode(sig);
    EncodedLength(encode, payload);
    EncodedLength(encode, sig);
    var n := |prefix| + |payload64|;
    var total := n + 1 + |sig64|;
    if total > buf.Length {
      return Err(BufferTooSmall);
    }
    PutAt(prefix, buf, 0);
    assert buf[..|prefix|] == prefix;
    PutAt(payload64, buf, |prefix|);
    assert buf[..n] == prefix + payload64;
    PutAt([DOT], buf, n);
    assert buf[..n + 1] == prefix + payload64 + [DOT];
    PutAt(sig64, buf, n + 1);
    return Ok(total);
  }

  function FirstDot(s: bytes): (i: nat)
    ensures i <= |s| && DOT !in s[..i] && (i < |s| ==> s[i] == DOT)
  {
    if s == [] || s[0] == DOT then 0
    else
      var i := FirstDot(s[1..]) + 1;
      assert s[..i] == [s[0]] + s[1..][..i - 1];
      i
  }

  /** The two base64 parts of a token of the given kind. */
  function SplitToken(prefix: bytes, token: bytes): Option<(bytes, bytes)> {
    if !(prefix <= token) then None
    else
      var rest := token[|prefix|..];
      var i := FirstDot(rest);
      if i == |rest| then None else Some((rest[..i], rest[i + 1..]))
  }

  /** A receiver takes an assembled token apart into what was put together. */
  lemma SplitAssembled(prefix: bytes, encode: bytes -> bytes, payload: bytes, sig: bytes)
    requires EncodesBase64(encode)
    ensures SplitToken(prefix, TokenText(prefix, encode(payload), encode(sig))) == Some((encode(payload), encode(sig)))
  {
    hide FirstDot;
    var a, b := encode(payload), encode(sig);
    var rest := a + [DOT] + b;
    assert TokenText(prefix, a, b) == prefix + rest;
    assert (prefix + rest)[|prefix|..] == rest;
    DotAfter(a, b);
    assert rest[..|a|] == a && rest[|a| + 1..] == b;
  }

  lemma {:induction false} DotAfter(a: bytes, b: bytes)
    requires DOT !in a
    ensures FirstDot(a + [DOT] + b) == |a|
  {
    var s := a + [DOT] + b;
    if a != [] {
      assert s[1..] == a[1..] + [DOT] + b;
      DotAfter(a[1..], b);
    }
  }

  /** Everything a signing key has signed. */
  datatype Issued = Issued(caps: set<Capability>, rvks: set<Revocation>)

  ghost predicate WasSigned(issued: Issued, message: bytes) {
    || (exists c :: c in issued.caps && KnownVersion(c.ver) && message == CAP_PREFIX + CapPayload(c))
    || (exists v :: v in issued.rvks && KnownVersion(v.ver) && message == RVK_PREFIX + RvkPayload(v))
  }

  /** The receiving side of a capability token, once base64 is undone; `keyVer` is the key's scheme. */
  function OpenCapability(keyVer: byte, payload: bytes, signatureOk: bool): Result<Capability, WireError> {
    if !signatureOk then Err(BadSignature)
    else
      var c :- DecodeCap(payload);
      if c.ver != keyVer then Err(VersionKeyMismatch) else Ok(c)
  }

  function OpenRevocation(keyVer: byte, payload: bytes, signatureOk: bool): Result<Revocation, WireError> {
    if !signatureOk then Err(BadSignature)
    else
      var v :- DecodeRvk(payload);
      if v.ver != keyVer then Err(VersionKeyMismatch) else Ok(v)
  }

  lemma PrefixesSeparate(p: bytes, q: bytes)
    ensures CAP_PREFIX + p != RVK_PREFIX + q
    ensures CAP_PREFIX + p == CAP_PREFIX + q ==> p == q
    ensures RVK_PREFIX + p == RVK_PREFIX + q ==> p == q
  {
    assert (CAP_PREFIX + p)[2] != (RVK_PREFIX + q)[2];
    assert (CAP_PREFIX + p)[6..] == p && (CAP_PREFIX + q)[6..] == q;
    assert (RVK_PREFIX + p)[6..] == p && (RVK_PREFIX + q)[6..] == q;
  }

  lemma SignedCap(issued: Issued, payload: bytes) returns (c: Capability)
    requires WasSigned(issued, CAP_PREFIX + payload)
    ensures c in issued.caps && KnownVersion(c.ver) && payload == CapPayload(c)
  {
    forall v | v in issued.rvks ensures CAP_PREFIX + payload != RVK_PREFIX + RvkPayload(v) {
      PrefixesSeparate(payload, RvkPayload(v));
    }
    c :| c in issued.caps && KnownVersion(c.ver) && CAP_PREFIX + payload == CAP_PREFIX + CapPayload(c);
    PrefixesSeparate(payload, CapPayload(c));
  }

  lemma SignedRvk(issued: Issued, payload: bytes) returns (v: Revocation)
    requires WasSigned(issued, RVK_PREFIX + payload)
    ensures v in issued.rvks && KnownVersion(v.ver) && payload == RvkPayload(v)
  {
    forall c | c in issued.caps ensures RVK_PREFIX + payload != CAP_PREFIX + CapPayload(c) {
      PrefixesSeparate(CapPayload(c), payload);
    }
    v :| v in issued.rvks && KnownVersion(v.ver) && RVK_PREFIX + payload == RVK_PREFIX + RvkPayload(v);
    PrefixesSeparate(payload, RvkPayload(v));
  }

  /**
   With an unforgeable signature, an accepted capability is one that was issued as a
   capability, field for field; a signed revocation never passes as one.
   */
  lemma AcceptedCapWasIssued(issued: Issued, keyVer: byte, payload: bytes, signatureOk: bool)
    requires signatureOk ==> WasSigned(issued, CAP_PREFIX + payload)
    requires OpenCapability(keyVer, payload, signatureOk).Ok?
    ensures OpenCapability(keyVer, payload, signatureOk).value in issued.caps
  {
    hide DecodeCap, CapPayload;
    var c := SignedCap(issued, payload);
    CapRoundTrip(c);
  }

  lemma AcceptedRvkWasIssued(issued: Issued, keyVer: byte, payload: bytes, signatureOk: bool)
    requires signatureOk ==> WasSigned(issued, RVK_PREFIX + payload)
    requires OpenRevocation(keyVer, payload, signatureOk).Ok?
    ensures OpenRevocation(keyVer, payload, signatureOk).value in issued.rvks
  {
    hide DecodeRvk, RvkPayload;
    var v := SignedRvk(issued, payload);
    RvkRoundTrip(v);
  }
}
