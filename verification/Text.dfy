/** Decimal and hexadecimal text, and words separated by spaces. A `string` stands for its bytes. */
module Text {
  import opened Common
  import opened Cbor

  // ---------------------------------------------------------------------------
  // Decimal
  // ---------------------------------------------------------------------------

  function Digit(n: nat): (c: char)
    requires n < 10
    ensures '0' <= c <= '9' && IsDigit(c) && DigitValue(c) == n
  {
    '0' + n as char
  }

  predicate IsDigit(c: char) {
    '0' <= c <= '9'
  }

  function DigitValue(c: char): (n: nat)
    requires IsDigit(c)
    ensures n < 10
  {
    (c - '0') as nat
  }

  ghost predicate AllDigits(s: string) {
    forall i :: 0 <= i < |s| ==> IsDigit(s[i])
  }

  function Decimal(n: nat): (s: string)
    ensures |s| > 0 && AllDigits(s)
  {
    if n < 10 then [Digit(n)] else Decimal(n / 10) + [Digit(n % 10)]
  }

  function DecimalValue(s: string): nat
    requires AllDigits(s)
  {
    if s == [] then 0 else DecimalValue(s[..|s| - 1]) * 10 + DigitValue(s[|s| - 1])
  }

  lemma {:induction false} DecimalRoundTrip(n: nat)
    ensures DecimalValue(Decimal(n)) == n
  {
    var s := Decimal(n);
    if n < 10 {
      assert s[..0] == [];
    } else {
      assert s[..|s| - 1] == Decimal(n / 10);
      DecimalRoundTrip(n / 10);
    }
  }

  function Pow10(k: nat): nat {
    if k == 0 then 1 else 10 * Pow10(k - 1)
  }

  lemma {:induction false} DecimalLength(n: nat, k: nat)
    requires k > 0 && n < Pow10(k)
    ensures |Decimal(n)| <= k
  {
    if n >= 10 {
      DecimalLength(n / 10, k - 1);
    }
  }

  lemma U64Digits(n: u64)
    ensures |Decimal(n)| <= 20
  {
    assert Pow10(5) == 100_000;
    assert Pow10(10) == 100_000 * 100_000 by { Pow10Adds(5, 5); }
    assert Pow10(20) == Pow10(10) * Pow10(10) by { Pow10Adds(10, 10); }
    DecimalLength(n, 20);
  }

  lemma {:induction false} Pow10Adds(a: nat, b: nat)
    ensures Pow10(a + b) == Pow10(a) * Pow10(b)
  {
    if a > 0 {
      Pow10Adds(a - 1, b);
      assert Pow10(a + b) == 10 * Pow10(a - 1 + b);
    }
  }

  /** Digits are produced from the right into a 20-place buffer, which no 64-bit value overruns. */
  method DecimalDigits(value: u64) returns (s: string)
    ensures s == Decimal(value)
  {
    var digits := new char[20](_ => '0');
    var i := 20;
    var n: nat := value;
    U64Digits(value);
    assert Decimal(value) == Decimal(n) + digits[i..];
    while true
      invariant 0 < i <= 20
      invariant Decimal(value) == Decimal(n) + digits[i..]
      decreases i
    {
      i := i - 1;
      ghost var tail := digits[i + 1..];
      digits[i] := Digit(n % 10);
      assert digits[i..] == [Digit(n % 10)] + tail;
      assert Decimal(n) == (if n < 10 then [] else Decimal(n / 10)) + [Digit(n % 10)];
      n := n / 10;
      if n == 0 {
        break;
      }
      assert Decimal(n) + digits[i..] == Decimal(value);
      assert |Decimal(n)| > 0;
    }
    s := digits[i..];
  }

  // ---------------------------------------------------------------------------
  // Hexadecimal
  // ---------------------------------------------------------------------------

  function HexDigit(n: nat): char
    requires n < 16
  {
    if n < 10 then '0' + n as char else 'a' + (n - 10) as char
  }

  /** Either case is read. */
  function HexValue(c: char): Option<nat> {
    if '0' <= c <= '9' then Some((c - '0') as nat)
    else if 'a' <= c <= 'f' then Some((c - 'a') as nat + 10)
    else if 'A' <= c <= 'F' then Some((c - 'A') as nat + 10)
    else None
  }

  lemma HexDigitRoundTrip(n: nat)
    requires n < 16
    ensures HexValue(HexDigit(n)) == Some(n)
    ensures HexDigit(n) != ' ' && HexDigit(n) != '=' && HexDigit(n) != '\r' && HexDigit(n) != '\n'
  {
  }

  function Hex(s: bytes): (h: string)
    ensures |h| == 2 * |s|
  {
    if s == [] then []
    else
      var front := Hex(s[..|s| - 1]);
      var b: int := s[|s| - 1];
      front + [HexDigit(b / 16), HexDigit(b % 16)]
  }

  function UnhexPair(front: Option<bytes>, a: char, b: char): Option<bytes> {
    var hi, lo := HexValue(a), HexValue(b);
    if front.None? || hi.None? || lo.None? || hi.value >= 16 || lo.value >= 16 then None
    else Some(front.value + [hi.value * 16 + lo.value])
  }

  function Unhex(h: string): Option<bytes>
    requires |h| % 2 == 0
  {
    if h == [] then Some([]) else UnhexPair(Unhex(h[..|h| - 2]), h[|h| - 2], h[|h| - 1])
  }

  lemma {:induction false} HexRoundTrip(s: bytes)
    ensures Unhex(Hex(s)) == Some(s)
  {
    hide HexDigit, HexValue, Hex, Unhex;
    if s == [] {
      HexNothing();
    } else {
      var front, b: int := s[..|s| - 1], s[|s| - 1];
      HexRoundTrip(front);
      HexDigitRoundTrip(b / 16);
      HexDigitRoundTrip(b % 16);
      HexNext(front, s[|s| - 1]);
      UnhexNext(Hex(front), HexDigit(b / 16), HexDigit(b % 16), b / 16, b % 16);
      assert s == front + [s[|s| - 1]];
    }
  }

  lemma HexNothing()
    ensures Hex([]) == [] && Unhex([]) == Some([])
  {
  }

  lemma HexNext(front: bytes, b: byte)
    ensures Hex(front + [b]) == Hex(front) + [HexDigit(b / 16), HexDigit(b % 16)]
  {
    hide HexDigit;
    assert (front + [b])[..|front|] == front;
  }

  lemma {:induction false} HexConcat(a: bytes, b: bytes)
    ensures Hex(a + b) == Hex(a) + Hex(b)
  {
    hide Hex;
    if b == [] {
      HexNothing();
      assert a + b == a;
    } else {
      var front, last := b[..|b| - 1], b[|b| - 1];
      assert a + b == (a + front) + [last] && b == front + [last];
      HexConcat(a, front);
      HexNext(a + front, last);
      HexNext(front, last);
    }
  }

  lemma LowerDigit(c: char)
    requires HexValue(c).Some? && !('A' <= c <= 'F')
    ensures HexValue(c).value < 16 && HexDigit(HexValue(c).value) == c
  {
  }

  lemma UnhexNext(front: string, a: char, b: char, hi: nat, lo: nat)
    requires |front| % 2 == 0 && Unhex(front).Some? && hi < 16 && lo < 16
    requires HexValue(a) == Some(hi) && HexValue(b) == Some(lo)
    ensures Unhex(front + [a, b]) == Some(Unhex(front).value + [hi * 16 + lo])
  {
    hide HexValue, Unhex;
    UnhexSplit(front, a, b);
  }

  lemma UnhexSplit(front: string, a: char, b: char)
    requires |front| % 2 == 0
    ensures Unhex(front + [a, b]) == UnhexPair(Unhex(front), a, b)
  {
    hide UnhexPair;
    var h := front + [a, b];
    assert h[..|h| - 2] == front && h[|h| - 2] == a && h[|h| - 1] == b;
  }

  /** Lower-case text that is read is the text that is written. */
  lemma {:induction false} UnhexCanonical(h: string)
    requires |h| % 2 == 0 && Unhex(h).Some? && forall i :: 0 <= i < |h| ==> !('A' <= h[i] <= 'F')
    ensures Hex(Unhex(h).value) == h
  {
    hide Hex, Unhex;
    if h == [] {
      HexNothing();
      assert Unhex([]) == Some([]) by {
        UnhexNothing();
      }
    } else {
      var n := |h| - 2;
      var front, a, b := h[..n], h[n], h[n + 1];
      assert h == front + [a, b];
      UnhexSplit(front, a, b);
      UnhexCanonical(front);
      PairCanonical(Unhex(front).value, a, b);
    }
  }

  lemma UnhexNothing()
    ensures Unhex([]) == Some([])
  {
  }

  lemma PairCanonical(front: bytes, a: char, b: char)
    requires UnhexPair(Some(front), a, b).Some? && !('A' <= a <= 'F') && !('A' <= b <= 'F')
    ensures Hex(UnhexPair(Some(front), a, b).value) == Hex(front) + [a, b]
  {
    hide Hex, HexValue, HexDigit;
    LowerDigit(a);
    LowerDigit(b);
    var hi, lo := HexValue(a).value, HexValue(b).value;
    Nibbles(hi, lo);
    HexNext(front, hi * 16 + lo);
    assert [HexDigit(hi), HexDigit(lo)] == [a, b];
  }

  lemma Nibbles(hi: nat, lo: nat)
    requires hi < 16 && lo < 16
    ensures hi * 16 + lo < 256 && (hi * 16 + lo) / 16 == hi && (hi * 16 + lo) % 16 == lo
  {
  }

  lemma {:induction false} HexIsWord(s: bytes)
    ensures forall c :: c in Hex(s) ==> c != ' ' && c != '=' && c != '\r' && c != '\n'
  {
    if s != [] {
      HexIsWord(s[..|s| - 1]);
      var b: int := s[|s| - 1];
      HexDigitRoundTrip(b / 16);
      HexDigitRoundTrip(b % 16);
    }
  }

  // ---------------------------------------------------------------------------
  // Words
  // ---------------------------------------------------------------------------

  /** The first place `c` occurs, or the length. */
  function Find(s: string, c: char): (i: nat)
    ensures i <= |s| && c !in s[..i]
    ensures i < |s| ==> s[i] == c
  {
    if s == [] || s[0] == c then 0
    else
      var i := Find(s[1..], c) + 1;
      assert s[..i] == [s[0]] + s[1..][..i - 1];
      i
  }

  lemma {:induction false} FindAfter(w: string, c: char, rest: string)
    requires c !in w
    ensures Find(w + [c] + rest, c) == |w|
  {
    if w != [] {
      assert (w + [c] + rest)[1..] == w[1..] + [c] + rest;
      FindAfter(w[1..], c, rest);
    }
  }

  lemma {:induction false} FindNowhere(w: string, c: char)
    requires c !in w
    ensures Find(w, c) == |w|
  {
    if w != [] {
      FindNowhere(w[1..], c);
    }
  }

  /** The nonempty pieces between spaces. */
  function Words(s: string): seq<string>
    decreases |s|
  {
    var i := Find(s, ' ');
    (if i == 0 then [] else [s[..i]]) + if i < |s| then Words(s[i + 1..]) else []
  }

  function JoinWords(ws: seq<string>): string
  {
    if ws == [] then [] else if |ws| == 1 then ws[0] else ws[0] + " " + JoinWords(ws[1..])
  }

  predicate IsWord(w: string) {
    w != [] && ' ' !in w
  }

  lemma {:induction false} WordsOfJoin(ws: seq<string>)
    requires forall i :: 0 <= i < |ws| ==> IsWord(ws[i])
    ensures Words(JoinWords(ws)) == ws
  {
    if |ws| == 1 {
      FindNowhere(ws[0], ' ');
      assert ws[0][..|ws[0]|] == ws[0];
    } else if |ws| > 1 {
      var s := JoinWords(ws);
      var rest := JoinWords(ws[1..]);
      assert s == ws[0] + [' '] + rest;
      FindAfter(ws[0], ' ', rest);
      assert s[..|ws[0]|] == ws[0] && s[|ws[0]| + 1..] == rest;
      assert IsWord(ws[0]);
      WordsOfJoin(ws[1..]);
    }
  }

  /** Appending a word appends a space and the word. */
  lemma {:induction false} JoinAppend(ws: seq<string>, w: string)
    requires ws != []
    ensures JoinWords(ws + [w]) == JoinWords(ws) + " " + w
  {
    if |ws| == 1 {
      assert (ws + [w])[1..] == [w];
    } else {
      assert (ws + [w])[1..] == ws[1..] + [w];
      JoinAppend(ws[1..], w);
    }
  }
}
