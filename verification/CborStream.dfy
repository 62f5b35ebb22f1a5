/** The buffer writer and reader, each proved against the encoding functions. */
module CborStream {
  import opened Common
  import opened Cbor

  class Writer {
    const buf: array<byte>
    var len: nat

    ghost predicate Valid()
      reads this
    {
      len <= buf.Length
    }

    ghost function Written(): bytes
      reads this, buf
      requires Valid()
    {
      buf[..len]
    }

    constructor (buf: array<byte>)
      ensures Valid() && this.buf == buf && Written() == []
    {
      this.buf, len := buf, 0;
    }

    /** `piece` is appended whole when it fits, and an error is reported exactly when it does not. */
    twostate predicate Appends(piece: bytes, new r: Result<(), WireError>)
      requires old(Valid())
      reads this, buf
    {
      && Valid()
      && (r.Ok? <==> old(len) + |piece| <= buf.Length)
      && (r.Ok? ==> Written() == old(Written()) + piece)
      && (r.Err? ==> r.error == BufferTooSmall)
    }

    method Push(b: byte) returns (r: Result<(), WireError>)
      requires Valid()
      modifies this, buf
      ensures Appends([b], r)
    {
      if len >= buf.Length {
        return Err(BufferTooSmall);
      }
      buf[len] := b;
      len := len + 1;
      r := Ok(());
    }

    method PushAll(s: bytes) returns (r: Result<(), WireError>)
      requires Valid()
      modifies this, buf
      ensures Appends(s, r)
    {
      for i := 0 to |s|
        invariant Valid() && len == old(len) + i
        invariant Written() == old(Written()) + s[..i]
      {
        var pushed := Push(s[i]);
        if pushed.Err? {
          return pushed;
        }
      }
      r := Ok(());
    }

    /** Writes a head in its minimal width, byte by byte. */
    method PushHead(major: nat, value: u64) returns (r: Result<(), WireError>)
      requires Valid() && major < 8
      modifies this, buf
      ensures Appends(Head(major, value), r)
    {
      var m := major * 32;
      if value < 24 {
        r := Push(m + value);
        return;
      }
      var info, width := 27, 8;
      if value <= 0xff {
        info, width := 24, 1;
      } else if value <= 0xffff {
        info, width := 25, 2;
      } else if value <= 0xffff_ffff {
        info, width := 26, 4;
      }
      r := Push(m + info);
      if r.Ok? {
        r := PushAll(BigEndian(value, width));
      }
    }

    method Map(entries: u64) returns (r: Result<(), WireError>)
      requires Valid()
      modifies this, buf
      ensures Appends(MapHead(entries), r)
    {
      r := PushHead(MAJOR_MAP, entries);
    }

    method PushUint(key: u64, value: u64) returns (r: Result<(), WireError>)
      requires Valid()
      modifies this, buf
      ensures Appends(UintEntry(key, value), r)
    {
      r := PushHead(MAJOR_UINT, key);
      if r.Ok? {
        r := PushHead(MAJOR_UINT, value);
      }
    }

    method PushBstr(key: u64, value: bytes) returns (r: Result<(), WireError>)
      requires Valid() && |value| < U64_LIMIT
      modifies this, buf
      ensures Appends(BstrEntry(key, value), r)
    {
      r := PushHead(MAJOR_UINT, key);
      if r.Ok? {
        r := PushHead(MAJOR_BSTR, |value|);
        if r.Ok? {
          r := PushAll(value);
        }
      }
    }
  }

  class Reader {
    const buf: bytes
    var pos: nat

    ghost predicate Valid()
      reads this
    {
      pos <= |buf|
    }

    /** What has not been read yet. */
    ghost function Rest(): bytes
      reads this
      requires Valid()
    {
      buf[pos..]
    }

    constructor (buf: bytes)
      ensures Valid() && Rest() == buf && this.buf == buf
    {
      this.buf, pos := buf, 0;
    }

    method Byte() returns (r: Result<byte, WireError>)
      requires Valid()
      modifies this
      ensures Valid()
      ensures r == if old(Rest()) == [] then Err(Truncated) else Ok(old(Rest())[0])
      ensures r.Ok? ==> Rest() == old(Rest())[1..]
    {
      if pos >= |buf| {
        return Err(Truncated);
      }
      pos := pos + 1;
      r := Ok(buf[pos - 1]);
    }

    /** Reads a big-endian integer of the given width. */
    method Integer(width: nat) returns (r: Result<nat, WireError>)
      requires Valid()
      modifies this
      ensures Valid()
      ensures r.Ok? <==> |old(Rest())| >= width
      ensures r.Ok? ==> r.value == Value(old(Rest())[..width]) && Rest() == old(Rest())[width..]
      ensures r.Err? ==> r.error == Truncated
    {
      var v: nat := 0;
      for i := 0 to width
        invariant Valid() && pos == old(pos) + i
        invariant v == Value(old(Rest())[..i])
      {
        var b := Byte();
        if b.Err? {
          return Err(b.error);
        }
        assert old(Rest())[..i + 1][..i] == old(Rest())[..i];
        v := v * 256 + b.value;
      }
      r := Ok(v);
    }

    method ReadHeadOf(major: nat) returns (r: Result<u64, WireError>)
      requires Valid()
      modifies this
      ensures Valid()
      ensures match ReadHead(old(Rest()), major)
              case Ok((v, rest)) => r == Ok(v) && Rest() == rest
              case Err(e) => r == Err(e)
    {
      var initial := Byte();
      if initial.Err? { return Err(initial.error); }
      if initial.value / 32 != major { return Err(WrongMajor); }
      var info := initial.value % 32;
      if info < 24 { return Ok(info); }
      if info > 27 { return Err(ReservedLength); }
      ghost var whole, width := old(Rest()), InfoWidth(info);
      var v := Integer(InfoWidth(info));
      if v.Err? { return Err(v.error); }
      assert whole[1..][..width] == whole[1..1 + width] && whole[1..][width..] == whole[1 + width..];
      if v.value <= Below(info) { return Err(NonMinimal); }
      BigEndianOfValue(old(Rest())[1..1 + InfoWidth(info)]);
      Pow256Values();
      r := Ok(v.value);
    }

    method MapOf(entries: u64) returns (r: Result<(), WireError>)
      requires Valid()
      modifies this
      ensures Valid()
      ensures match ReadMap(old(Rest()), entries)
              case Ok(rest) => r == Ok(()) && Rest() == rest
              case Err(e) => r == Err(e)
    {
      var n := ReadHeadOf(MAJOR_MAP);
      if n.Err? { return Err(n.error); }
      if n.value != entries { return Err(WrongMapSize); }
      r := Ok(());
    }

    method Key(key: u64) returns (r: Result<(), WireError>)
      requires Valid()
      modifies this
      ensures Valid()
      ensures match ReadKey(old(Rest()), key)
              case Ok(rest) => r == Ok(()) && Rest() == rest
              case Err(e) => r == Err(e)
    {
      var k := ReadHeadOf(MAJOR_UINT);
      if k.Err? { return Err(k.error); }
      if k.value != key { return Err(UnexpectedKey); }
      r := Ok(());
    }

    method Uint(key: u64) returns (r: Result<u64, WireError>)
      requires Valid()
      modifies this
      ensures Valid()
      ensures match ReadUint(old(Rest()), key)
              case Ok((v, rest)) => r == Ok(v) && Rest() == rest
              case Err(e) => r == Err(e)
    {
      var k := Key(key);
      if k.Err? { return Err(k.error); }
      r := ReadHeadOf(MAJOR_UINT);
    }

    method Uint32(key: u64) returns (r: Result<u32, WireError>)
      requires Valid()
      modifies this
      ensures Valid()
      ensures match ReadUint32(old(Rest()), key)
              case Ok((v, rest)) => r == Ok(v) && Rest() == rest
              case Err(e) => r == Err(e)
    {
      var v := Uint(key);
      if v.Err? { return Err(v.error); }
      if v.value >= U32_LIMIT { return Err(TooLarge); }
      r := Ok(v.value);
    }

    method Bstr16(key: u64) returns (r: Result<Id16, WireError>)
      requires Valid()
      modifies this
      ensures Valid()
      ensures match ReadBstr16(old(Rest()), key)
              case Ok((v, rest)) => r == Ok(v) && Rest() == rest
              case Err(e) => r == Err(e)
    {
      hide ReadHead, ReadKey;
      var k := Key(key);
      if k.Err? { return Err(k.error); }
      var len := ReadHeadOf(MAJOR_BSTR);
      if len.Err? { return Err(len.error); }
      if len.value != 16 { return Err(WrongLength); }
      ghost var body := Rest();
      ghost var at := pos;
      var out: bytes := [];
      for i := 0 to 16
        invariant Valid() && pos == at + i
        invariant out == body[..i]
      {
        var b := Byte();
        if b.Err? { return Err(b.error); }
        out := out + [b.value];
      }
      r := Ok(out);
    }

    method End() returns (r: Result<(), WireError>)
      requires Valid()
      ensures r == if Rest() == [] then Ok(()) else Err(TrailingBytes)
    {
      if pos != |buf| {
        return Err(TrailingBytes);
      }
      r := Ok(());
    }
  }
}
