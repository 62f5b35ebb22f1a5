/**
 Streaming SHA-256 (sections 5.1.1 and 6.2 of FIPS 180-4) with the compression
 function as a parameter: buffering, padding and the length field.
 */
module Sha256 {
  import opened Common
  import opened Cbor
  import Token

  type Words = s: seq<u32> | |s| == 8 witness [0, 0, 0, 0, 0, 0, 0, 0]

  type Compress = (Words, bytes) -> Words

  const IV: Words := [0x6a09e667, 0xbb67ae85, 0x3c6ef372, 0xa54ff53a, 0x510e527f, 0x9b05688c, 0x1f83d9ab, 0x5be0cd19]

  // ---------------------------------------------------------------------------
  // The standard's definition
  // ---------------------------------------------------------------------------

  /** The compression function applied to the 64-byte blocks of `s` in turn. */
  ghost function Fold(compress: Compress, s: bytes): Words
    requires |s| % 64 == 0
  {
    if s == [] then IV else compress(Fold(compress, s[..|s| - 64]), s[|s| - 64..])
  }

  function Zeros(n: nat): (s: bytes)
    ensures |s| == n
  {
    if n == 0 then [] else Zeros(n - 1) + [0]
  }

  /** How many zero bytes the padding of an `n`-byte message holds. */
  function ZeroCount(n: nat): nat {
    (119 - n % 64) % 64
  }

  /** With `k` zero bytes the last block has room for exactly the length field. */
  predicate LeavesLengthRoom(n: nat, k: nat) {
    (n + 1 + k) % 64 == 56
  }

  /** It is the least count that leaves that room. */
  lemma ZeroCountIsLeast(n: nat)
    ensures LeavesLengthRoom(n, ZeroCount(n))
    ensures forall k: nat :: k < ZeroCount(n) ==> !LeavesLengthRoom(n, k)
  {
    hide LeavesLengthRoom;
    forall k: nat | k <= ZeroCount(n) ensures LeavesLengthRoom(n, k) <==> k == ZeroCount(n) {
      RoomDependsOnRemainder(n, k);
    }
  }

  lemma RoomDependsOnRemainder(n: nat, k: nat)
    requires k < 64
    ensures LeavesLengthRoom(n, k) <==> n % 64 + 1 + k == 56 || n % 64 + 1 + k == 120
  {
    var r := n % 64;
    var total := r + 1 + k;
    assert n + 1 + k == 64 * (n / 64) + total;
    Shifted(n / 64, total);
  }

  lemma Shifted(q: nat, total: nat)
    requires total < 128
    ensures (64 * q + total) % 64 == if total < 64 then total else total - 64
  {
  }

  lemma PadAligned(n: nat)
    ensures (n + 1 + ZeroCount(n) + 8) % 64 == 0
  {
    ZeroCountIsLeast(n);
  }

  /** The message, a one bit, zero bits, and the length in bits. */
  function Pad(message: bytes): (s: bytes)
    ensures |s| % 64 == 0
  {
    PadAligned(|message|);
    message + [0x80] + Zeros(ZeroCount(|message|)) + BigEndian(8 * |message| % U64_LIMIT, 8)
  }

  function Serialize(words: seq<u32>): (s: bytes)
    ensures |s| == 4 * |words|
  {
    if words == [] then [] else Serialize(words[..|words| - 1]) + BigEndian(words[|words| - 1], 4)
  }

  ghost function Digest(compress: Compress, message: bytes): bytes {
    Serialize(Fold(compress, Pad(message)))
  }

  function Flatten(chunks: seq<bytes>): bytes {
    if chunks == [] then [] else Flatten(chunks[..|chunks| - 1]) + chunks[|chunks| - 1]
  }

  // ---------------------------------------------------------------------------
  // The streaming invariant, on values
  // ---------------------------------------------------------------------------

  /** The whole blocks of `absorbed` are folded into the state; what is left is held. */
  ghost predicate Streams(compress: Compress, absorbed: bytes, state: Words, held: bytes) {
    && |held| <= |absorbed|
    && (|absorbed| - |held|) % 64 == 0
    && held == absorbed[|absorbed| - |held|..]
    && state == Fold(compress, absorbed[..|absorbed| - |held|])
  }

  lemma StreamsStart(compress: Compress)
    ensures Streams(compress, [], IV, [])
  {
  }

  lemma StreamsFill(compress: Compress, absorbed: bytes, state: Words, held: bytes, data: bytes)
    requires Streams(compress, absorbed, state, held)
    ensures Streams(compress, absorbed + data, state, held + data)
  {
    hide Fold;
    var cut := |absorbed| - |held|;
    assert (absorbed + data)[..cut] == absorbed[..cut];
    assert (absorbed + data)[cut..] == absorbed[cut..] + data;
  }

  lemma StreamsFlush(compress: Compress, absorbed: bytes, state: Words, held: bytes)
    requires Streams(compress, absorbed, state, held) && |held| == 64
    ensures Streams(compress, absorbed, compress(state, held), [])
  {
    assert absorbed[..|absorbed| - 0] == absorbed;
    assert absorbed[|absorbed| - 0..] == [];
  }

  lemma StreamsDone(compress: Compress, absorbed: bytes, state: Words)
    requires Streams(compress, absorbed, state, [])
    ensures |absorbed| % 64 == 0 && state == Fold(compress, absorbed)
  {
    hide Fold;
    assert absorbed[..|absorbed| - 0] == absorbed;
  }

  /** How many bytes are held while `k` zero bytes of padding are in. */
  lemma HeldCount(n: nat, k: nat, held: nat)
    requires held < 64 && (n + 1 + k - held) % 64 == 0 && k <= ZeroCount(n)
    ensures held == 56 <==> k == ZeroCount(n)
  {
    ZeroCountIsLeast(n);
    assert LeavesLengthRoom(n, k) <==> k == ZeroCount(n);
    SameRemainder(n + 1 + k, held);
  }

  lemma SameRemainder(total: nat, held: nat)
    requires held < 64 && (total - held) % 64 == 0
    ensures total % 64 == held
  {
  }

  // ---------------------------------------------------------------------------
  // The streaming context
  // ---------------------------------------------------------------------------

  class Context {
    const compress: Compress
    var state: Words
    var lengthBits: u64
    const buffer: array<byte>
    var buffered: nat
    /** Everything taken in so far. */
    ghost var absorbed: bytes

    ghost predicate Valid()
      reads this, buffer
    {
      && buffer.Length == 64
      && buffered < 64
      && Streams(compress, absorbed, state, buffer[..buffered])
    }

    /** The length counter is right: nothing but message bytes was counted. */
    ghost predicate Tracks()
      reads this
    {
      lengthBits == 8 * |absorbed| % U64_LIMIT
    }

    constructor (compress: Compress)
      ensures Valid() && Tracks() && absorbed == [] && this.compress == compress && fresh(buffer)
    {
      this.compress := compress;
      state, lengthBits, buffered, absorbed := IV, 0, 0, [];
      buffer := new byte[64](_ => 0);
      new;
      StreamsStart(compress);
      assert buffer[..0] == [];
    }

    /** Copies bytes into the free end of the buffer. */
    method Fill(data: bytes)
      requires buffer.Length == 64 && buffered + |data| <= 64
      modifies this`buffered, buffer
      ensures buffered == old(buffered) + |data|
      ensures buffer[..buffered] == old(buffer[..buffered]) + data
    {
      for j := 0 to |data|
        invariant buffered == old(buffered)
        invariant buffer[..buffered + j] == old(buffer[..buffered]) + data[..j]
      {
        buffer[buffered + j] := data[j];
      }
      buffered := buffered + |data|;
    }

    /** One turn of the update loop: take what fits, and fold a full buffer into the state. */
    method Absorb(data: bytes)
      requires Valid() && buffered + |data| <= 64
      modifies this`state, this`buffered, this`absorbed, buffer
      ensures Valid() && absorbed == old(absorbed) + data
    {
      hide Streams;
      StreamsFill(compress, absorbed, state, buffer[..buffered], data);
      Fill(data);
      absorbed := absorbed + data;
      if buffered == 64 {
        assert buffer[..64] == buffer[..];
        StreamsFlush(compress, absorbed, state, buffer[..]);
        state := compress(state, buffer[..]);
        buffered := 0;
        assert buffer[..0] == [];
      }
    }

    method Update(data: bytes)
      requires Valid()
      modifies this, buffer
      ensures Valid()
      ensures absorbed == old(absorbed) + data
      ensures lengthBits == (old(lengthBits) + 8 * |data|) % U64_LIMIT
    {
      hide Streams;
      lengthBits := (lengthBits + 8 * |data|) % U64_LIMIT;
      ghost var counted := lengthBits;
      assert old(absorbed) + data[..0] == old(absorbed);
      var i := 0;
      while i < |data|
        invariant Valid() && i <= |data| && lengthBits == counted
        invariant absorbed == old(absorbed) + data[..i]
      {
        var take := 64 - buffered;
        if take > |data| - i {
          take := |data| - i;
        }
        AppendSlice(old(absorbed), data, i, i + take);
        Absorb(data[i..i + take]);
        i := i + take;
      }
      assert data[..i] == data;
    }

    /** Appends the padding and the length field. */
    method Finish()
      requires Valid() && Tracks()
      modifies this, buffer
      ensures state == Fold(compress, Pad(old(absorbed)))
    {
      hide Streams, Fold, BigEndian, Zeros, Pad, ZeroCount;
      ghost var message := absorbed;
      var bits := lengthBits;
      Update([0x80]);
      lengthBits := (lengthBits + U64_LIMIT - 8) % U64_LIMIT; // give back what the update counted
      ghost var k := 0;
      NoZeros(message + [0x80]);
      while buffered != 56
        invariant Valid() && k <= ZeroCount(|message|)
        invariant absorbed == message + [0x80] + Zeros(k)
        decreases ZeroCount(|message|) - k
      {
        BufferedCount(message, k);
        MoreZeros(message + [0x80], k);
        Update([0]);
        lengthBits := (lengthBits + U64_LIMIT - 8) % U64_LIMIT;
        k := k + 1;
      }
      BufferedCount(message, k);
      Update(BigEndian(bits, 8));
      PadIs(message, bits);
      AllFolded();
    }

    /** A context that took in whole blocks has folded everything. */
    lemma AllFolded()
      requires Valid() && |absorbed| % 64 == 0
      ensures state == Fold(compress, absorbed)
    {
      hide Fold;
      SameRemainder(|absorbed|, buffered);
      assert buffer[..0] == [];
      StreamsDone(compress, absorbed, state);
    }

    lemma BufferedCount(message: bytes, k: nat)
      requires Valid() && absorbed == message + [0x80] + Zeros(k) && k <= ZeroCount(|message|)
      ensures buffered == 56 <==> k == ZeroCount(|message|)
    {
      hide Fold, Zeros;
      assert |absorbed| == |message| + 1 + k;
      HeldCount(|message|, k, buffered);
    }

    /** Pads, appends the message length and serializes the state. */
    method Final() returns (out: bytes)
      requires Valid() && Tracks()
      modifies this, buffer
      ensures out == Digest(compress, old(absorbed))
    {
      hide Fold, Pad, BigEndian;
      Finish();
      out := [];
      for w := 0 to 8
        invariant out == Serialize(state[..w])
      {
        assert state[..w + 1][..w] == state[..w];
        out := out + BigEndian(state[w], 4);
      }
      assert state[..8] == state;
    }
  }

  lemma AppendSlice(front: bytes, data: bytes, i: nat, j: nat)
    requires i <= j <= |data|
    ensures front + data[..i] + data[i..j] == front + data[..j]
  {
    assert data[..i] + data[i..j] == data[..j];
  }

  lemma PadIs(message: bytes, bits: nat)
    requires bits == 8 * |message| % U64_LIMIT
    ensures message + [0x80] + Zeros(ZeroCount(|message|)) + BigEndian(bits, 8) == Pad(message)
  {
  }

  lemma NoZeros(front: bytes)
    ensures front + Zeros(0) == front
  {
  }

  lemma MoreZeros(front: bytes, k: nat)
    ensures front + Zeros(k) + [0] == front + Zeros(k + 1)
  {
  }

  /** However a message is split into updates, the digest is the standard's digest of the whole. */
  method HashChunks(compress: Compress, chunks: seq<bytes>) returns (out: bytes)
    ensures out == Digest(compress, Flatten(chunks))
  {
    hide Streams, Digest;
    var ctx := new Context(compress);
    for i := 0 to |chunks|
      invariant ctx.Valid() && ctx.Tracks() && ctx.compress == compress
      invariant fresh(ctx) && fresh(ctx.buffer)
      invariant ctx.absorbed == Flatten(chunks[..i])
    {
      CountAdds(|ctx.absorbed|, |chunks[i]|);
      ctx.Update(chunks[i]);
      assert chunks[..i + 1][..i] == chunks[..i];
    }
    assert chunks[..|chunks|] == chunks;
    out := ctx.Final();
  }

  /** The digest handed to the secure element covers exactly the signed message of a capability. */
  method CapSignedDigest(compress: Compress, payload: bytes) returns (out: bytes)
    ensures out == Digest(compress, Token.CAP_PREFIX + payload)
  {
    hide Streams, Digest;
    var ctx := new Context(compress);
    CountAdds(0, |Token.CAP_PREFIX|);
    ctx.Update(Token.CAP_PREFIX);
    CountAdds(|Token.CAP_PREFIX|, |payload|);
    ctx.Update(payload);
    assert ctx.absorbed == Token.CAP_PREFIX + payload;
    out := ctx.Final();
  }

  /** Below 2^61 bytes the length field is the exact length in bits, as the standard requires. */
  lemma PadIsStandard(message: bytes)
    requires |message| < 0x2000_0000_0000_0000
    ensures Pad(message) == message + [0x80] + Zeros(ZeroCount(|message|)) + BigEndian(8 * |message|, 8)
    ensures Value(BigEndian(8 * |message|, 8)) == 8 * |message|
  {
    hide BigEndian, Value, Zeros, Pow256, ZeroCount;
    FitsInU64(8 * |message|);
    Pow256Values();
    ValueOfBigEndian(8 * |message|, 8);
  }

  /** The first 32 bits after the point of a square root whose whole part is `whole`. */
  predicate RootBits(n: nat, whole: nat, bits: u32) {
    var scaled := whole * U32_LIMIT + bits;
    scaled * scaled <= n * U32_LIMIT * U32_LIMIT < (scaled + 1) * (scaled + 1)
  }

  /** The starting state is read off the square roots of the first eight primes (section 5.3.3 of FIPS 180-4). */
  lemma StartIsStandard()
    ensures RootBits(2, 1, IV[0]) && RootBits(3, 1, IV[1]) && RootBits(5, 2, IV[2]) && RootBits(7, 2, IV[3])
    ensures RootBits(11, 3, IV[4]) && RootBits(13, 3, IV[5]) && RootBits(17, 4, IV[6]) && RootBits(19, 4, IV[7])
  {
  }

  /** Each word of the digest comes out most significant byte first, in its place. */
  lemma {:induction false} SerializedWord(words: seq<u32>, i: nat)
    requires i < |words|
    ensures Value(Serialize(words)[4 * i..4 * i + 4]) == words[i]
  {
    hide BigEndian, Value;
    var n := |words| - 1;
    var front, last := Serialize(words[..n]), BigEndian(words[n], 4);
    assert Serialize(words) == front + last;
    if i < n {
      SerializedWord(words[..n], i);
      assert (front + last)[4 * i..4 * i + 4] == front[4 * i..4 * i + 4];
    } else {
      assert (front + last)[4 * n..4 * n + 4] == last;
      Pow256Values();
      ValueOfBigEndian(words[n], 4);
    }
  }

  lemma FitsInU64(n: nat)
    requires n < U64_LIMIT
    ensures n % U64_LIMIT == n
  {
  }

  lemma CountAdds(a: nat, b: nat)
    ensures (8 * a % U64_LIMIT + 8 * b) % U64_LIMIT == 8 * (a + b) % U64_LIMIT
  {
  }
}
