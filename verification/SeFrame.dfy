/**
 Secure-element packet framing: a bit-serial CRC-16 and the frames it guards.
 */
module SeFrame {
  import opened Common

  type octets = seq<bv8>

  // ---------------------------------------------------------------------------
  // The shift register
  // ---------------------------------------------------------------------------

  /** A count as one octet. */
  function Octet(n: nat): (b: bv8)
    requires n < 256
    ensures b as int == n
  {
    if n == 0 then 0
    else
      Increment(Octet(n - 1));
      Octet(n - 1) + 1
  }

  lemma Increment(b: bv8)
    requires b as int < 255
    ensures (b + 1) as int == b as int + 1
  {
  }

  /** One data bit through the register. */
  function Step(crc: bv16, bit: bool): bv16 {
    var shifted := crc << 1;
    if bit != (crc & 0x8000 != 0) then shifted ^ 0x8005 else shifted
  }

  function Bit(b: bv8, k: nat): bool
    requires k < 8
  {
    (b >> k) & 1 != 0
  }

  /** The bits of a message in the order the register takes them, low bit of each byte first. */
  function Bits(data: octets): (s: seq<bool>)
    ensures |s| == 8 * |data|
  {
    seq(8 * |data|, i requires 0 <= i < 8 * |data| => Bit(data[i / 8], i % 8))
  }

  function Feed(crc: bv16, bits: seq<bool>): bv16 {
    if bits == [] then crc else Step(Feed(crc, bits[..|bits| - 1]), bits[|bits| - 1])
  }

  /** The checksum of a message. */
  function Crc(data: octets): bv16 {
    Feed(0, Bits(data))
  }

  lemma FeedNext(crc: bv16, bits: seq<bool>, i: nat)
    requires i < |bits|
    ensures Feed(crc, bits[..i + 1]) == Step(Feed(crc, bits[..i]), bits[i])
  {
    assert bits[..i + 1][..i] == bits[..i];
  }

  lemma StepIs(crc: bv16, dataBit: bool, crcBit: bool)
    requires crcBit <==> (crc >> 15) & 1 != 0
    ensures Step(crc, dataBit) == if dataBit != crcBit then (crc << 1) ^ 0x8005 else crc << 1
  {
  }

  lemma BitAt(data: octets, i: nat, k: nat)
    requires i < |data| && k < 8
    ensures Bits(data)[8 * i + k] == Bit(data[i], k)
  {
    assert (8 * i + k) / 8 == i && (8 * i + k) % 8 == k;
  }

  /** One more octet is its eight bits through the register, the lowest first. */
  lemma CrcNext(data: octets, b: bv8)
    ensures Crc(data + [b])
         == Step(Step(Step(Step(Step(Step(Step(Step(
              Crc(data), b & 1 != 0), b & 2 != 0), b & 4 != 0), b & 8 != 0), b & 16 != 0), b & 32 != 0),
              b & 64 != 0), b & 128 != 0)
  {
    hide Feed, Bits, Bit, Step;
    var all, bits, n := data + [b], Bits(data + [b]), 8 * |data|;
    assert bits[..n] == Bits(data) by {
      FrontBits(data, b);
    }
    EachBit(b);
    BitAt(all, |data|, 0);
    FeedNext(0, bits, n);
    BitAt(all, |data|, 1);
    FeedNext(0, bits, n + 1);
    BitAt(all, |data|, 2);
    FeedNext(0, bits, n + 2);
    BitAt(all, |data|, 3);
    FeedNext(0, bits, n + 3);
    BitAt(all, |data|, 4);
    FeedNext(0, bits, n + 4);
    BitAt(all, |data|, 5);
    FeedNext(0, bits, n + 5);
    BitAt(all, |data|, 6);
    FeedNext(0, bits, n + 6);
    BitAt(all, |data|, 7);
    FeedNext(0, bits, n + 7);
    assert bits[..n + 8] == bits;
  }

  lemma FrontBits(data: octets, b: bv8)
    ensures Bits(data + [b])[..8 * |data|] == Bits(data)
  {
    hide Bit;
    forall i | 0 <= i < 8 * |data| ensures Bits(data + [b])[i] == Bits(data)[i] {
      assert (data + [b])[i / 8] == data[i / 8];
    }
  }

  lemma EachBit(b: bv8)
    ensures Bit(b, 0) == (b & 1 != 0) && Bit(b, 1) == (b & 2 != 0) && Bit(b, 2) == (b & 4 != 0)
    ensures Bit(b, 3) == (b & 8 != 0) && Bit(b, 4) == (b & 16 != 0) && Bit(b, 5) == (b & 32 != 0)
    ensures Bit(b, 6) == (b & 64 != 0) && Bit(b, 7) == (b & 128 != 0)
  {
  }

  lemma CrcOfNothing()
    ensures Crc([]) == 0
  {
  }

  /** The nested byte and bit loops compute the checksum. */
  method Crc16(data: octets) returns (crc: bv16)
    ensures crc == Crc(data)
  {
    hide Feed, Bits, Bit, Step;
    crc := 0;
    ghost var bits := Bits(data);
    assert Feed(0, bits[..0]) == 0 by { FeedNothing(0, bits); }
    for i := 0 to |data|
      invariant crc == Feed(0, bits[..8 * i])
    {
      for k := 0 to 8
        invariant crc == Feed(0, bits[..8 * i + k])
      {
        BitAt(data, i, k);
        FeedNext(0, bits, 8 * i + k);
        var dataBit := Bit(data[i], k);
        var crcBit := (crc >> 15) & 1 != 0;
        StepIs(crc, dataBit, crcBit);
        crc := crc << 1;
        if dataBit != crcBit {
          crc := crc ^ 0x8005;
        }
      }
    }
    assert bits[..8 * |data|] == bits;
  }

  lemma FeedNothing(crc: bv16, bits: seq<bool>)
    ensures Feed(crc, bits[..0]) == crc
  {
  }

  // ---------------------------------------------------------------------------
  // Error detection
  // ---------------------------------------------------------------------------

  /** What feeds back: the data bit against the register's top bit. */
  predicate Feedback(crc: bv16, bit: bool) {
    bit != (crc & 0x8000 != 0)
  }

  lemma StepByFeedback(c: bv16, x: bool)
    ensures Step(c, x) == if Feedback(c, x) then (c << 1) ^ 0x8005 else c << 1
  {
  }

  lemma StepSame(c: bv16, d: bv16, x: bool, y: bool)
    requires Feedback(c, x) == Feedback(d, y)
    ensures Step(c, x) ^ Step(d, y) == (c ^ d) << 1
  {
    hide Step, Feedback;
    StepByFeedback(c, x);
    StepByFeedback(d, y);
    if Feedback(c, x) {
      FedXor(c, d);
    } else {
      ShiftXor(c, d);
    }
  }

  lemma ShiftXor(c: bv16, d: bv16)
    ensures (c << 1) ^ (d << 1) == (c ^ d) << 1
  {
  }

  lemma FedXor(c: bv16, d: bv16)
    ensures ((c << 1) ^ 0x8005) ^ ((d << 1) ^ 0x8005) == (c ^ d) << 1
  {
  }

  lemma StepDiffers(c: bv16, d: bv16, x: bool, y: bool)
    requires Feedback(c, x) != Feedback(d, y)
    ensures (Step(c, x) ^ Step(d, y)) & 1 != 0
  {
  }

  lemma NotEqual(c: bv16, d: bv16, mask: bv16)
    requires (c ^ d) & mask != 0
    ensures c != d
  {
  }

  /** The register never loses a difference while the bits fed to both sides are equal. */
  lemma StepKeepsDifference(c: bv16, d: bv16, bit: bool)
    requires c != d
    ensures Step(c, bit) != Step(d, bit)
  {
    hide Step;
    if Feedback(c, bit) != Feedback(d, bit) {
      StepDiffers(c, d, bit, bit);
      NotEqual(Step(c, bit), Step(d, bit), 1);
    } else {
      StepSame(c, d, bit, bit);
      ShiftKeeps(c, d);
      NonzeroXor(Step(c, bit), Step(d, bit));
    }
  }

  lemma NonzeroXor(c: bv16, d: bv16)
    requires c ^ d != 0
    ensures c != d
  {
  }

  lemma ShiftKeeps(c: bv16, d: bv16)
    requires c != d && (c & 0x8000 != 0) == (d & 0x8000 != 0)
    ensures (c ^ d) << 1 != 0
  {
  }

  /** Masks of the low bits: entry `n` covers the lowest `n`. */
  const LOW: seq<bv16> := [
    0x0000, 0x0001, 0x0003, 0x0007, 0x000f, 0x001f, 0x003f, 0x007f, 0x00ff,
    0x01ff, 0x03ff, 0x07ff, 0x0fff, 0x1fff, 0x3fff, 0x7fff, 0xffff]

  lemma LowGrows(n: nat)
    requires 0 < n < 16
    ensures LOW[n] & 0x8000 == 0 && LOW[n + 1] == (LOW[n] << 1) | 1
  {
  }

  lemma MaskMoves(e: bv16, mask: bv16)
    requires mask & 0x8000 == 0
    ensures e & mask != 0 ==> (e << 1) & ((mask << 1) | 1) != 0
    ensures e & 1 != 0 ==> e & ((mask << 1) | 1) != 0
  {
  }

  /** The registers differ somewhere in their low `n` bits. */
  predicate DifferLow(c: bv16, d: bv16, n: nat)
    requires n <= 16
  {
    (c ^ d) & LOW[n] != 0
  }

  lemma DifferLowest(c: bv16, d: bv16)
    ensures DifferLow(c, d, 1) <==> (c ^ d) & 1 != 0
  {
  }

  lemma DifferentIfLow(c: bv16, d: bv16, n: nat)
    requires n <= 16 && DifferLow(c, d, n)
    ensures c != d
  {
    NotEqual(c, d, LOW[n]);
  }

  /** A difference in the low `n` bits moves up by at most one place a step, whatever is fed. */
  lemma StepMovesDifference(c: bv16, d: bv16, n: nat, x: bool, y: bool)
    requires 0 < n < 16 && DifferLow(c, d, n)
    ensures DifferLow(Step(c, x), Step(d, y), n + 1)
  {
    hide Step, Feedback;
    LowGrows(n);
    if Feedback(c, x) == Feedback(d, y) {
      StepSame(c, d, x, y);
      MaskMoves(c ^ d, LOW[n]);
    } else {
      StepDiffers(c, d, x, y);
      MaskMoves(Step(c, x) ^ Step(d, y), LOW[n]);
    }
  }

  /** Streams that part at their first bit still differ after up to 16 bits. */
  lemma {:induction false} BurstShows(c: bv16, x: seq<bool>, y: seq<bool>, n: nat)
    requires 0 < n <= 16 && n <= |x| == |y| && x[0] != y[0]
    ensures DifferLow(Feed(c, x[..n]), Feed(c, y[..n]), n)
  {
    hide Step, Feed, DifferLow;
    FeedNext(c, x, n - 1);
    FeedNext(c, y, n - 1);
    if n == 1 {
      FeedNothing(c, x);
      FeedNothing(c, y);
      FirstBitShows(c, x[0], y[0]);
    } else {
      BurstShows(c, x, y, n - 1);
      StepMovesDifference(Feed(c, x[..n - 1]), Feed(c, y[..n - 1]), n - 1, x[n - 1], y[n - 1]);
    }
  }

  lemma FirstBitShows(c: bv16, x: bool, y: bool)
    requires x != y
    ensures DifferLow(Step(c, x), Step(c, y), 1)
  {
    hide Step, DifferLow;
    StepDiffers(c, c, x, y);
    DifferLowest(Step(c, x), Step(c, y));
  }

  lemma {:induction false} SuffixKeepsDifference(c: bv16, d: bv16, bits: seq<bool>)
    requires c != d
    ensures Feed(c, bits) != Feed(d, bits)
  {
    if bits != [] {
      SuffixKeepsDifference(c, d, bits[..|bits| - 1]);
      StepKeepsDifference(Feed(c, bits[..|bits| - 1]), Feed(d, bits[..|bits| - 1]), bits[|bits| - 1]);
    }
  }

  lemma {:induction false} FeedSplit(c: bv16, a: seq<bool>, b: seq<bool>)
    ensures Feed(c, a + b) == Feed(Feed(c, a), b)
  {
    hide Step;
    if b == [] {
      assert a + b == a;
    } else {
      assert (a + b)[..|a + b| - 1] == a + b[..|b| - 1];
      FeedSplit(c, a, b[..|b| - 1]);
    }
  }

  /** Bit streams that differ only inside one window of at most 16 bits have different checksums. */
  lemma BurstDetected(x: seq<bool>, y: seq<bool>, lo: nat, hi: nat)
    requires |x| == |y| && lo < hi <= |x| && hi - lo <= 16
    requires x[lo] != y[lo]
    requires x[..lo] == y[..lo] && x[hi..] == y[hi..]
    ensures Feed(0, x) != Feed(0, y)
  {
    hide Feed;
    var u, v := x[lo..hi], y[lo..hi];
    var c := Feed(0, x[..lo]);
    WindowShows(c, u, v);
    SuffixKeepsDifference(Feed(c, u), Feed(c, v), x[hi..]);
    FeedWindow(x, lo, hi);
    FeedWindow(y, lo, hi);
  }

  lemma WindowShows(c: bv16, u: seq<bool>, v: seq<bool>)
    requires 0 < |u| == |v| <= 16 && u[0] != v[0]
    ensures Feed(c, u) != Feed(c, v)
  {
    hide Feed, DifferLow;
    assert u[..|u|] == u && v[..|v|] == v;
    BurstShows(c, u, v, |u|);
    DifferentIfLow(Feed(c, u), Feed(c, v), |u|);
  }

  lemma FeedWindow(x: seq<bool>, lo: nat, hi: nat)
    requires lo <= hi <= |x|
    ensures Feed(0, x) == Feed(Feed(Feed(0, x[..lo]), x[lo..hi]), x[hi..])
  {
    hide Feed;
    FeedSplit(0, x[..lo], x[lo..hi]);
    FeedSplit(0, x[..lo] + x[lo..hi], x[hi..]);
    assert x == x[..lo] + x[lo..hi] + x[hi..];
  }

  lemma SameBits(a: bv8, b: bv8)
    requires Bit(a, 0) == Bit(b, 0) && Bit(a, 1) == Bit(b, 1) && Bit(a, 2) == Bit(b, 2) && Bit(a, 3) == Bit(b, 3)
    requires Bit(a, 4) == Bit(b, 4) && Bit(a, 5) == Bit(b, 5) && Bit(a, 6) == Bit(b, 6) && Bit(a, 7) == Bit(b, 7)
    ensures a == b
  {
  }

  lemma SameByte(x: octets, y: octets, i: nat)
    requires i < |x| == |y| && Bits(x)[8 * i..8 * i + 8] == Bits(y)[8 * i..8 * i + 8]
    ensures x[i] == y[i]
  {
    hide Bits, Bit;
    forall k: nat | k < 8 ensures Bit(x[i], k) == Bit(y[i], k) {
      BitAt(x, i, k);
      BitAt(y, i, k);
      assert Bits(x)[8 * i..8 * i + 8][k] == Bits(y)[8 * i..8 * i + 8][k];
    }
    SameBits(x[i], y[i]);
  }

  lemma {:induction false} FirstDifference(x: seq<bool>, y: seq<bool>, n: nat) returns (lo: nat)
    requires n <= |x| == |y| && x[..n] != y[..n]
    ensures lo < n && x[lo] != y[lo] && x[..lo] == y[..lo]
  {
    if x[..n - 1] == y[..n - 1] {
      lo := n - 1;
      assert x[..n] == x[..n - 1] + [x[n - 1]] && y[..n] == y[..n - 1] + [y[n - 1]];
    } else {
      lo := FirstDifference(x, y, n - 1);
    }
  }

  /** The messages agree except, possibly, in bytes `i` and `i + 1`. */
  ghost predicate DifferAt(x: octets, y: octets, i: nat) {
    |x| == |y| && forall j :: 0 <= j < |x| && j != i && j != i + 1 ==> x[j] == y[j]
  }

  lemma EqualAwayFrom(x: octets, y: octets, i: nat, k: nat)
    requires DifferAt(x, y, i) && k < 8 * |x| && (k < 8 * i || k >= 8 * i + 16)
    ensures Bits(x)[k] == Bits(y)[k]
  {
    hide Bit;
    assert k / 8 != i && k / 8 != i + 1;
  }

  /** Any corruption of one byte, or of two neighbouring bytes, changes the checksum of a message of any length. */
  lemma CorruptionChangesCrc(x: octets, y: octets, i: nat)
    requires DifferAt(x, y, i) && x != y
    ensures Crc(x) != Crc(y)
  {
    hide Bits, Feed;
    var xs, ys := Bits(x), Bits(y);
    var hi := if 8 * i + 16 <= |xs| then 8 * i + 16 else |xs|;
    var at :| 0 <= at < |x| && x[at] != y[at];
    if xs == ys {
      SameByte(x, y, at);
    }
    assert xs[..|xs|] == xs && ys[..|xs|] == ys;
    var lo := FirstDifference(xs, ys, |xs|);
    forall k | hi <= k < |xs| ensures xs[k] == ys[k] {
      EqualAwayFrom(x, y, i, k);
    }
    if lo < 8 * i || lo >= hi {
      EqualAwayFrom(x, y, i, lo);
    }
    assert xs[hi..] == ys[hi..];
    BurstDetected(xs, ys, lo, hi);
  }

  // ---------------------------------------------------------------------------
  // Frames
  // ---------------------------------------------------------------------------

  function LowByte(crc: bv16): bv8 {
    (crc & 0xff) as bv8
  }

  function HighByte(crc: bv16): bv8 {
    (crc >> 8) as bv8
  }

  function Join(low: bv8, high: bv8): bv16 {
    (low as bv16) | ((high as bv16) << 8)
  }

  lemma JoinSplit(crc: bv16)
    ensures Join(LowByte(crc), HighByte(crc)) == crc
  {
  }

  lemma JoinInjective(a: bv8, b: bv8, c: bv8, d: bv8)
    requires Join(a, b) == Join(c, d)
    ensures a == c && b == d
  {
  }

  /** count, opcode, two parameters (the second little-endian), data, checksum (little-endian). */
  function Frame(opcode: bv8, param1: bv8, param2: bv16, data: octets): octets
    requires |data| + 7 < 256
  {
    Sealed(FrameHead(Octet(|data| + 7), opcode, param1, param2) + data)
  }

  function FrameHead(count: bv8, opcode: bv8, param1: bv8, param2: bv16): (head: octets)
    ensures |head| == 5
  {
    [count, opcode, param1, LowByte(param2), HighByte(param2)]
  }

  function Sealed(body: octets): octets {
    body + [LowByte(Crc(body)), HighByte(Crc(body))]
  }

  /** What a receiver takes out of a frame: everything between the count and the checksum. */
  function Parse(frame: octets): Option<octets> {
    if |frame| < 4 then None
    else
      var count := frame[0] as int;
      if count < 4 || count > |frame| then None
      else if Crc(frame[..count - 2]) != Join(frame[count - 2], frame[count - 1]) then None
      else Some(frame[1..count - 2])
  }

  method CopyIn(data: octets, out: array<bv8>, at: nat)
    requires at + |data| <= out.Length
    modifies out
    ensures out[..at + |data|] == old(out[..at]) + data
  {
    for i := 0 to |data|
      invariant out[..at + i] == old(out[..at]) + data[..i]
    {
      out[at + i] := data[i];
    }
  }

  /** Writes the checksum of the first `n` bytes behind them. */
  method Seal(out: array<bv8>, n: nat)
    requires n + 2 <= out.Length
    modifies out
    ensures out[..n + 2] == Sealed(old(out[..n]))
  {
    hide Crc, LowByte, HighByte;
    var crc := Crc16(out[..n]);
    out[n] := LowByte(crc);
    out[n + 1] := HighByte(crc);
    assert out[..n + 2] == out[..n] + [out[n], out[n + 1]];
    assert out[..n] == old(out[..n]);
  }

  method PutHead(out: array<bv8>, count: bv8, opcode: bv8, param1: bv8, param2: bv16)
    requires out.Length >= 5
    modifies out
    ensures out[..5] == FrameHead(count, opcode, param1, param2)
  {
    hide LowByte, HighByte;
    out[0], out[1], out[2] := count, opcode, param1;
    out[3], out[4] := LowByte(param2), HighByte(param2);
  }

  method BuildCommand(opcode: bv8, param1: bv8, param2: bv16, data: octets, out: array<bv8>) returns (count: nat)
    modifies out
    ensures count == if |data| + 7 > out.Length || |data| + 7 > 255 then 0 else |data| + 7
    ensures count > 0 ==> out[..count] == Frame(opcode, param1, param2, data)
  {
    hide FrameHead, Octet, Sealed;
    count := 1 + 1 + 1 + 2 + |data| + 2;
    if count > out.Length || count > 255 {
      return 0;
    }
    PutHead(out, Octet(count), opcode, param1, param2);
    CopyIn(data, out, 5);
    Seal(out, count - 2);
  }

  method ParseResponse(frame: octets) returns (payload: octets, len: nat)
    ensures match Parse(frame)
            case Some(p) => payload == p && len == |p|
            case None => len == 0
  {
    payload, len := [], 0;
    if |frame| < 4 {
      return;
    }
    var count := frame[0] as int;
    if count < 4 || count > |frame| {
      return;
    }
    var crc := Crc16(frame[..count - 2]);
    if crc != Join(frame[count - 2], frame[count - 1]) {
      return;
    }
    payload, len := frame[1..count - 2], count - 3;
  }

  /** A body that starts with its own frame's length, once sealed, is parsed back whatever follows it. */
  lemma SealedParses(body: octets, rest: octets)
    requires |body| >= 2 && body[0] as int == |body| + 2
    ensures Parse(Sealed(body) + rest) == Some(body[1..])
  {
    hide Crc, LowByte, HighByte, Join;
    var whole := Sealed(body) + rest;
    var n := |body|;
    assert whole[..n] == body;
    assert whole[n] == LowByte(Crc(body)) && whole[n + 1] == HighByte(Crc(body));
    JoinSplit(Crc(body));
    assert whole[1..n] == body[1..];
  }

  /** A built frame, whatever follows it on the wire, is parsed back to its exact body. */
  lemma BuiltFrameParses(opcode: bv8, param1: bv8, param2: bv16, data: octets, rest: octets)
    requires |data| + 7 < 256
    ensures Parse(Frame(opcode, param1, param2, data) + rest)
         == Some([opcode, param1, LowByte(param2), HighByte(param2)] + data)
  {
    hide Parse, Sealed, LowByte, HighByte, Octet;
    var countByte := Octet(|data| + 7);
    var body := FrameHead(countByte, opcode, param1, param2) + data;
    SealedParses(body, rest);
    assert body[1..] == [opcode, param1, LowByte(param2), HighByte(param2)] + data;
  }

  /** The count byte survives, and the damage is in payload bytes `i`, `i + 1`, or in the checksum. */
  ghost predicate Corrupts(frame: octets, frame': octets, i: nat)
    requires Parse(frame).Some?
  {
    var count := frame[0] as int;
    && |frame'| == |frame| && frame'[0] == frame[0]
    && frame'[..count] != frame[..count]
    && (|| frame[..count - 2] == frame'[..count - 2]
        || (DifferAt(frame[..count - 2], frame'[..count - 2], i) && frame[count - 2..] == frame'[count - 2..]))
  }

  /**
   A frame that parses, with one byte or two neighbouring bytes of its payload
   corrupted, or its checksum bytes corrupted, is refused.
   */
  lemma CorruptFrameRefused(frame: octets, frame': octets, i: nat)
    requires Parse(frame).Some?
    requires Corrupts(frame, frame', i)
    ensures Parse(frame') == None
  {
    var count := frame[0] as int;
    if frame[..count - 2] == frame'[..count - 2] {
      ChecksumDamageRefused(frame, frame', count);
    } else {
      PayloadDamageRefused(frame, frame', count, i);
    }
  }

  lemma PayloadDamageRefused(frame: octets, frame': octets, count: nat, i: nat)
    requires Parse(frame).Some? && count == frame[0] as int
    requires |frame'| == |frame| && frame'[0] == frame[0]
    requires frame[..count - 2] != frame'[..count - 2] && frame[count - 2..] == frame'[count - 2..]
    requires DifferAt(frame[..count - 2], frame'[..count - 2], i)
    ensures Parse(frame') == None
  {
    hide Crc, Join, DifferAt;
    CorruptionChangesCrc(frame[..count - 2], frame'[..count - 2], i);
    assert frame[count - 2] == frame[count - 2..][0] && frame[count - 1] == frame[count - 2..][1];
    assert frame'[count - 2] == frame'[count - 2..][0] && frame'[count - 1] == frame'[count - 2..][1];
  }

  lemma ChecksumDamageRefused(frame: octets, frame': octets, count: nat)
    requires Parse(frame).Some? && count == frame[0] as int
    requires |frame'| == |frame| && frame'[0] == frame[0]
    requires frame[..count - 2] == frame'[..count - 2] && frame'[..count] != frame[..count]
    ensures Parse(frame') == None
  {
    hide Crc, Join;
    assert frame[..count] == frame[..count - 2] + [frame[count - 2], frame[count - 1]];
    assert frame'[..count] == frame'[..count - 2] + [frame'[count - 2], frame'[count - 1]];
    if Join(frame[count - 2], frame[count - 1]) == Join(frame'[count - 2], frame'[count - 1]) {
      JoinInjective(frame[count - 2], frame[count - 1], frame'[count - 2], frame'[count - 1]);
    }
  }
}
