/** The fixed-buffer line writer and the trailer loop, proved against the protocol's text. */
module LineStream {
  import opened Common
  import opened Cbor
  import opened Text
  import opened Line

  class Writer {
    const buf: array<char>
    var len: nat

    ghost predicate Valid()
      reads this
    {
      len <= buf.Length
    }

    ghost function Written(): string
      reads this, buf
      requires Valid()
    {
      buf[..len]
    }

    constructor (buf: array<char>)
      ensures Valid() && this.buf == buf && Written() == []
    {
      this.buf, len := buf, 0;
    }

    /** The text is appended whole exactly when it fits. */
    twostate predicate Appends(text: string, new r: Result<(), LineError>)
      requires old(Valid())
      reads this, buf
    {
      && Valid()
      && (r.Ok? <==> old(len) + |text| <= buf.Length)
      && (r.Ok? ==> Written() == old(Written()) + text)
      && (r.Err? ==> r.error == LineError.BufferTooSmall)
    }

    method Push(s: string) returns (r: Result<(), LineError>)
      requires Valid()
      modifies this, buf
      ensures Appends(s, r)
    {
      if len + |s| > buf.Length {
        return Err(LineError.BufferTooSmall);
      }
      for i := 0 to |s|
        invariant len == old(len)
        invariant buf[..len + i] == old(Written()) + s[..i]
      {
        buf[len + i] := s[i];
      }
      len := len + |s|;
      r := Ok(());
    }

    method PushTwo(a: string, b: string) returns (r: Result<(), LineError>)
      requires Valid()
      modifies this, buf
      ensures Appends(a + b, r)
    {
      r := Push(a);
      if r.Ok? {
        r := Push(b);
      }
    }

    method PushU64(n: u64) returns (r: Result<(), LineError>)
      requires Valid()
      modifies this, buf
      ensures Appends(Decimal(n), r)
    {
      var digits := DecimalDigits(n);
      r := Push(digits);
    }

    /** A nonce in hex, a space, and a count. */
    method PushGrant(nonce: Id16, remaining: u64) returns (r: Result<(), LineError>)
      requires Valid()
      modifies this, buf
      ensures Appends(GrantText(nonce, remaining), r)
    {
      hide Hex, Decimal;
      r := PushTwo(Hex(nonce), " ");
      if r.Ok? {
        r := PushU64(remaining);
      }
    }

    method PushTagged(tag: string, nonce: Id16, remaining: u64) returns (r: Result<(), LineError>)
      requires Valid()
      modifies this, buf
      ensures Appends(tag + GrantText(nonce, remaining), r)
    {
      hide GrantText;
      r := Push(tag);
      if r.Ok? {
        r := PushGrant(nonce, remaining);
      }
    }

    method PushOpen(report: Report) returns (r: Result<(), LineError>)
      requires Valid()
      modifies this, buf
      ensures Appends(OpenText(report), r)
    {
      hide Hex, Decimal;
      match report.open {
        case Some((nonce, remaining)) =>
          r := Push("open ");
          if r.Ok? {
            r := PushGrant(nonce, remaining);
          }
        case None =>
          r := Push("closed");
      }
    }

    method PushSeq(n: u64) returns (r: Result<(), LineError>)
      requires Valid()
      modifies this, buf
      ensures Appends(" seq=" + Decimal(n), r)
    {
      hide Decimal;
      r := Push(" seq=");
      if r.Ok? {
        r := PushU64(n);
      }
    }

    /** The optional trailers, each with its leading space. */
    method PushExtras(report: Report) returns (r: Result<(), LineError>)
      requires Valid()
      modifies this, buf
      ensures Appends(Extra(LoadWords(report)) + Extra(FailWords(report)) + Extra(ReasonWords(report)), r)
    {
      hide Extra, LoadWords, FailWords, ReasonWords;
      r := Push(Extra(LoadWords(report)));
      if r.Ok? {
        r := PushTwo(Extra(FailWords(report)), Extra(ReasonWords(report)));
        Assoc(Extra(LoadWords(report)), Extra(FailWords(report)), Extra(ReasonWords(report)));
      }
    }

    method PushReport(report: Report) returns (r: Result<(), LineError>)
      requires Valid()
      modifies this, buf
      ensures Appends(ReportText(report), r)
    {
      hide Extra, LoadWords, FailWords, ReasonWords, OpenText, ReportText, Decimal;
      ReportPieces(report);
      r := PushOpen(report);
      if r.Ok? {
        r := PushSeq(report.seqNo);
        if r.Ok? {
          r := PushExtras(report);
        }
      }
    }
  }

  lemma Assoc(a: string, b: string, c: string)
    ensures a + (b + c) == a + b + c
  {
  }

  /** The words of an optional trailer as they are written: nothing, or a space and the word. */
  function Extra(ws: seq<string>): string {
    if ws == [] then "" else " " + ws[0]
  }

  function GrantText(nonce: Id16, remaining: u64): string {
    Hex(nonce) + " " + Decimal(remaining)
  }

  function OpenText(r: Report): string {
    match r.open
    case Some((nonce, remaining)) => "open " + GrantText(nonce, remaining)
    case None => "closed"
  }

  lemma OpenTextIsJoin(r: Report)
    ensures OpenText(r) == JoinWords(OpenWords(r))
  {
    hide Hex, Decimal;
    if r.open.Some? {
      var words := OpenWords(r);
      assert words[1..] == [Hex(r.open.value.0), Decimal(r.open.value.1)];
      assert words[1..][1..] == [Decimal(r.open.value.1)];
      assert JoinWords(words[1..]) == Hex(r.open.value.0) + " " + Decimal(r.open.value.1);
    }
  }

  lemma ExtraIsJoin(ws: seq<string>, extra: seq<string>)
    requires ws != [] && |extra| <= 1
    ensures JoinWords(ws + extra) == JoinWords(ws) + Extra(extra)
  {
    hide JoinWords;
    if extra == [] {
      assert ws + extra == ws;
    } else {
      assert extra == [extra[0]];
      JoinAppend(ws, extra[0]);
    }
  }

  /** A report's text, cut as it is written. */
  lemma AckTextIs(nonce: Id16, remaining: u64)
    ensures ReplyText(AckOpen(nonce, remaining)) == "ACK " + GrantText(nonce, remaining)
  {
    hide Hex, Decimal;
    Assoc("ACK ", Hex(nonce), " ");
    Assoc("ACK ", Hex(nonce) + " ", Decimal(remaining));
  }

  lemma JoinPieces(open: seq<string>, seqWord: string, load: seq<string>, fail: seq<string>, reason: seq<string>)
    requires open != [] && |load| <= 1 && |fail| <= 1 && |reason| <= 1
    ensures JoinWords(open + ([seqWord] + load + fail + reason))
         == JoinWords(open) + (" " + seqWord) + (Extra(load) + Extra(fail) + Extra(reason))
  {
    hide JoinWords, Extra;
    var w1 := open + [seqWord];
    var w2 := w1 + load;
    var w3 := w2 + fail;
    JoinAppend(open, seqWord);
    ExtraIsJoin(w1, load);
    ExtraIsJoin(w2, fail);
    ExtraIsJoin(w3, reason);
    RegroupWords(open, [seqWord], load, fail, reason);
    Regroup(JoinWords(open), " ", seqWord, Extra(load), Extra(fail), Extra(reason));
  }

  lemma RegroupWords(a: seq<string>, b: seq<string>, c: seq<string>, d: seq<string>, e: seq<string>)
    ensures a + (b + c + d + e) == a + b + c + d + e
  {
  }

  lemma Regroup(a: string, b: string, c: string, d: string, e: string, f: string)
    ensures a + b + c + d + e + f == a + (b + c) + (d + e + f)
  {
    Assoc(a, b, c);
    Assoc(a + (b + c), d, e);
    Assoc(a + (b + c), d + e, f);
  }

  lemma WordCounts(r: Report)
    ensures OpenWords(r) != [] && |LoadWords(r)| <= 1 && |FailWords(r)| <= 1 && |ReasonWords(r)| <= 1
  {
  }

  lemma ReportPieces(r: Report)
    ensures ReportText(r) == OpenText(r) + (" seq=" + Decimal(r.seqNo))
                             + (Extra(LoadWords(r)) + Extra(FailWords(r)) + Extra(ReasonWords(r)))
  {
    hide JoinWords, OpenText, Decimal, Extra, OpenWords, LoadWords, FailWords, ReasonWords;
    WordCounts(r);
    OpenTextIsJoin(r);
    JoinPieces(OpenWords(r), "seq=" + Decimal(r.seqNo), LoadWords(r), FailWords(r), ReasonWords(r));
    assert " " + ("seq=" + Decimal(r.seqNo)) == " seq=" + Decimal(r.seqNo);
  }

  method RenderCommand(c: Command, buf: array<char>) returns (r: Result<string, LineError>)
    modifies buf
    ensures r.Ok? <==> |CommandText(c)| <= buf.Length
    ensures r.Ok? ==> r.value == CommandText(c)
  {
    var line := new Writer(buf);
    var step;
    match c {
      case Token(t) => step := line.PushTwo("TOK ", t);
      case Revoke(t) => step := line.PushTwo("RVK ", t);
      case Status => step := line.Push("STAT");
      case SePubkey => step := line.Push("SE-PUBKEY?");
      case SeSign(t) => step := line.PushTwo("SE-SIGN ", t);
    }
    if step.Err? { return Err(step.error); }
    r := Ok(buf[..line.len]);
  }

  method RenderReply(reply: Reply, buf: array<char>) returns (r: Result<string, LineError>)
    modifies buf
    ensures r.Ok? <==> |ReplyText(reply)| <= buf.Length
    ensures r.Ok? ==> r.value == ReplyText(reply)
  {
    hide GrantText, ReportText;
    var line := new Writer(buf);
    var step;
    match reply {
      case AckOpen(nonce, remaining) =>
        step := line.PushTagged("ACK ", nonce, remaining);
        AckTextIs(nonce, remaining);
      case AckClosed => step := line.Push("ACK closed");
      case Nak(why) => step := line.PushTwo("NAK ", why);
      case State(report) =>
        step := line.Push("STATE ");
        if step.Ok? {
          step := line.PushReport(report);
        }
      case Pubkey(hex) => step := line.PushTwo("PUBKEY ", hex);
      case Sig(token) => step := line.PushTwo("SIG ", token);
    }
    if step.Err? { return Err(step.error); }
    r := Ok(buf[..line.len]);
  }

  /** Replies without free text fit any line; a refusal fits exactly when its reason does. */
  lemma ReplyFits(r: Reply)
    ensures r.AckOpen? || r.AckClosed? || r.State? ==> |ReplyText(r)| <= MAX_LINE_LEN
    ensures r.Nak? ==> (|ReplyText(r)| <= MAX_LINE_LEN <==> |r.why| <= MAX_LINE_LEN - 4)
  {
    hide Hex, Decimal, ReportText;
    match r {
      case AckOpen(_, remaining) => U64Digits(remaining);
      case State(report) => ReportFits(report);
      case _ =>
    }
  }

  lemma ReportFits(r: Report)
    ensures |ReportText(r)| <= 124
  {
    hide Hex, Decimal, ReportText, LoadWords, FailWords, ReasonWords, Extra;
    ReportPieces(r);
    ExtrasAreShort(r);
    U64Digits(r.seqNo);
    if r.open.Some? {
      U64Digits(r.open.value.1);
    }
  }

  lemma ExtrasAreShort(r: Report)
    ensures |Extra(LoadWords(r))| <= 9 && |Extra(FailWords(r))| <= 18 && |Extra(ReasonWords(r))| <= 14
  {
  }

  /** Folds the trailer words into the report one by one. */
  method ParseStateLine(text: string) returns (r: Result<Report, LineError>)
    ensures r == ParseState(text)
  {
    hide Words, ParseOpen, ParseTrailer;
    var open := ParseOpen(Words(text));
    if open.Err? {
      return Err(open.error);
    }
    var words := open.value.1;
    var report := EmptyReport(open.value.0);
    var sawSeq := false;
    ghost var whole := ParseTrailers(words, report, sawSeq);
    assert words[0..] == words;
    for i := 0 to |words|
      invariant ParseTrailers(words[i..], report, sawSeq) == whole
    {
      assert words[i..][0] == words[i] && words[i..][1..] == words[i + 1..];
      var step := ParseTrailer(words[i], report, sawSeq);
      if step.Err? {
        return Err(step.error);
      }
      report, sawSeq := step.value.0, step.value.1;
    }
    if !sawSeq {
      return Err(Malformed);
    }
    r := Ok(report);
  }
}
