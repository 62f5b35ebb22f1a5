/**
 The device line protocol: one renderer and one parser for commands and replies,
 shared by the daemon and the device.
 */
module Line {
  import opened Common
  import opened Cbor
  import opened Text
  import Token

  const MAX_LINE_LEN: nat := 4 + Token.MAX_TOKEN_LEN + 16

  datatype Command =
    | Token(token: string)
    | Revoke(token: string)
    | Status
    | SePubkey
    | SeSign(challenge: string)

  datatype CloseReason = Revert | Expiry | Boot

  datatype FailState = Energized | DeEnergized

  /** A state report; `open` carries the grant's nonce and remaining seconds. */
  datatype Report = Report(
    open: Option<(Id16, u64)>, seqNo: u64, load: Option<bool>, fail: Option<FailState>, reason: Option<CloseReason>)

  datatype Reply =
    | AckOpen(nonce: Id16, remainingSecs: u64)
    | AckClosed
    | Nak(why: string)
    | State(report: Report)
    | Pubkey(hex: string)
    | Sig(token: string)

  datatype LineError = BufferTooSmall | Malformed

  // ---------------------------------------------------------------------------
  // What is rendered
  // ---------------------------------------------------------------------------

  function CommandText(c: Command): string {
    match c
    case Token(t) => "TOK " + t
    case Revoke(t) => "RVK " + t
    case Status => "STAT"
    case SePubkey => "SE-PUBKEY?"
    case SeSign(t) => "SE-SIGN " + t
  }

  function LoadWord(on: bool): string {
    if on then "load=on" else "load=off"
  }

  function FailWord(f: FailState): string {
    match f
    case Energized => "fail=energized"
    case DeEnergized => "fail=de-energized"
  }

  function ReasonWord(r: CloseReason): string {
    match r
    case Revert => "reason=revert"
    case Expiry => "reason=expiry"
    case Boot => "reason=boot"
  }

  /** The words of a state report, in the order they are sent. */
  function OpenWords(r: Report): seq<string> {
    match r.open
    case Some((nonce, remaining)) => ["open", Hex(nonce), Decimal(remaining)]
    case None => ["closed"]
  }

  function LoadWords(r: Report): seq<string> {
    match r.load case Some(on) => [LoadWord(on)] case None => []
  }

  function FailWords(r: Report): seq<string> {
    match r.fail case Some(f) => [FailWord(f)] case None => []
  }

  function ReasonWords(r: Report): seq<string> {
    match r.reason case Some(why) => [ReasonWord(why)] case None => []
  }

  function Trailers(r: Report): seq<string> {
    ["seq=" + Decimal(r.seqNo)] + LoadWords(r) + FailWords(r) + ReasonWords(r)
  }

  function ReportText(r: Report): string {
    JoinWords(OpenWords(r) + Trailers(r))
  }

  function ReplyText(r: Reply): string {
    match r
    case AckOpen(nonce, remaining) => "ACK " + Hex(nonce) + " " + Decimal(remaining)
    case AckClosed => "ACK closed"
    case Nak(why) => "NAK " + why
    case State(report) => "STATE " + ReportText(report)
    case Pubkey(hex) => "PUBKEY " + hex
    case Sig(token) => "SIG " + token
  }

  // ---------------------------------------------------------------------------
  // What is parsed
  // ---------------------------------------------------------------------------

  predicate IsEol(c: char) {
    c == '\r' || c == '\n'
  }

  function TrimEnd(s: string): string {
    if s != [] && IsEol(s[|s| - 1]) then TrimEnd(s[..|s| - 1]) else s
  }

  function StripPrefix(s: string, prefix: string): Option<string> {
    if prefix <= s then Some(s[|prefix|..]) else None
  }

  function ParseCommand(input: string): Result<Command, LineError> {
    var line := TrimEnd(input);
    if line == "STAT" then Ok(Status)
    else if line == "SE-PUBKEY?" then Ok(SePubkey)
    else if StripPrefix(line, "TOK ").Some? then Ok(Token(StripPrefix(line, "TOK ").value))
    else if StripPrefix(line, "RVK ").Some? then Ok(Revoke(StripPrefix(line, "RVK ").value))
    else if StripPrefix(line, "SE-SIGN ").Some? then Ok(SeSign(StripPrefix(line, "SE-SIGN ").value))
    else Err(Malformed)
  }

  function ParseU64(s: string): Result<u64, LineError> {
    if s == [] || !(forall i :: 0 <= i < |s| ==> IsDigit(s[i])) then Err(Malformed)
    else if DecimalValue(s) >= U64_LIMIT then Err(Malformed)
    else Ok(DecimalValue(s))
  }

  function ParseNonce(s: string): Result<Id16, LineError> {
    if |s| != 32 then Err(Malformed)
    else match Unhex(s)
      case Some(b) => if |b| == 16 then Ok(b) else Err(Malformed)
      case None => Err(Malformed)
  }

  /** One trailer word folded into the report; the flag says whether a sequence number was seen. */
  function ParseTrailer(word: string, r: Report, sawSeq: bool): Result<(Report, bool), LineError> {
    var at := Find(word, '=');
    if at == |word| then Err(Malformed)
    else
      var key, value := word[..at], word[at + 1..];
      if key == "seq" then
        var n :- ParseU64(value);
        Ok((r.(seqNo := n), true))
      else if key == "load" then
        if value == "on" then Ok((r.(load := Some(true)), sawSeq))
        else if value == "off" then Ok((r.(load := Some(false)), sawSeq))
        else Err(Malformed)
      else if key == "fail" then
        if value == "energized" then Ok((r.(fail := Some(Energized)), sawSeq))
        else if value == "de-energized" then Ok((r.(fail := Some(DeEnergized)), sawSeq))
        else Err(Malformed)
      else if key == "reason" then
        if value == "revert" then Ok((r.(reason := Some(Revert)), sawSeq))
        else if value == "expiry" then Ok((r.(reason := Some(Expiry)), sawSeq))
        else if value == "boot" then Ok((r.(reason := Some(Boot)), sawSeq))
        else Err(Malformed)
      else Err(Malformed)
  }

  function ParseTrailers(words: seq<string>, r: Report, sawSeq: bool): Result<(Report, bool), LineError>
    decreases |words|
  {
    if words == [] then Ok((r, sawSeq))
    else
      var (r', saw') :- ParseTrailer(words[0], r, sawSeq);
      ParseTrailers(words[1..], r', saw')
  }

  function EmptyReport(open: Option<(Id16, u64)>): Report {
    Report(open, 0, None, None, None)
  }

  /** The leading words: open with its nonce and seconds, or closed; and the words after them. */
  function ParseOpen(words: seq<string>): Result<(Option<(Id16, u64)>, seq<string>), LineError> {
    if words == [] then Err(Malformed)
    else if words[0] == "open" then
      if |words| < 3 then Err(Malformed)
      else
        var nonce :- ParseNonce(words[1]);
        var remaining :- ParseU64(words[2]);
        Ok((Some((nonce, remaining)), words[3..]))
    else if words[0] == "closed" then Ok((None, words[1..]))
    else Err(Malformed)
  }

  function ParseState(text: string): Result<Report, LineError> {
    var (open, rest) :- ParseOpen(Words(text));
    var (r, sawSeq) :- ParseTrailers(rest, EmptyReport(open), false);
    if sawSeq then Ok(r) else Err(Malformed)
  }

  function ParseAck(rest: string): Result<Reply, LineError> {
    var at := Find(rest, ' ');
    if at == |rest| then Err(Malformed)
    else
      var nonce :- ParseNonce(rest[..at]);
      var remaining :- ParseU64(rest[at + 1..]);
      Ok(AckOpen(nonce, remaining))
  }

  function ParseReply(input: string): Result<Reply, LineError> {
    var line := TrimEnd(input);
    if line == "ACK closed" then Ok(AckClosed)
    else if StripPrefix(line, "ACK ").Some? then ParseAck(StripPrefix(line, "ACK ").value)
    else if StripPrefix(line, "NAK ").Some? then Ok(Nak(StripPrefix(line, "NAK ").value))
    else if StripPrefix(line, "STATE ").Some? then
      var r :- ParseState(StripPrefix(line, "STATE ").value);
      Ok(State(r))
    else if StripPrefix(line, "PUBKEY ").Some? then Ok(Pubkey(StripPrefix(line, "PUBKEY ").value))
    else if StripPrefix(line, "SIG ").Some? then Ok(Sig(StripPrefix(line, "SIG ").value))
    else Err(Malformed)
  }

  // ---------------------------------------------------------------------------
  // Round trips
  // ---------------------------------------------------------------------------

  lemma {:induction false} TrimPrefixed(prefix: string, text: string)
    requires prefix != [] && !IsEol(prefix[|prefix| - 1])
    ensures TrimEnd(prefix + text) == prefix + TrimEnd(text)
  {
    var s := prefix + text;
    if text == [] {
      assert s == prefix;
    } else if IsEol(text[|text| - 1]) {
      assert s[..|s| - 1] == prefix + text[..|text| - 1];
      TrimPrefixed(prefix, text[..|text| - 1]);
    }
  }

  lemma TrimFixed(text: string)
    ensures TrimEnd(text) == text <==> text == [] || !IsEol(text[|text| - 1])
  {
    TrimShrinks(text);
  }

  lemma {:induction false} TrimShrinks(text: string)
    ensures |TrimEnd(text)| <= |text|
    ensures text != [] && IsEol(text[|text| - 1]) ==> |TrimEnd(text)| < |text|
  {
    if text != [] && IsEol(text[|text| - 1]) {
      TrimShrinks(text[..|text| - 1]);
    }
  }

  lemma StripOwn(prefix: string, text: string)
    ensures StripPrefix(prefix + text, prefix) == Some(text)
  {
    assert (prefix + text)[|prefix|..] == text;
  }

  /** A prefix of another kind does not match. */
  lemma StripOther(prefix: string, text: string, other: string, k: nat)
    requires k < |prefix| && k < |other| && prefix[k] != other[k]
    ensures StripPrefix(prefix + text, other) == None && prefix + text != other
  {
    assert (prefix + text)[k] == prefix[k];
  }

  /** The free text of a command. */
  function Payload(c: Command): string {
    match c
    case Token(t) => t
    case Revoke(t) => t
    case Status => ""
    case SePubkey => ""
    case SeSign(t) => t
  }

  predicate EndsInEol(text: string) {
    text != [] && IsEol(text[|text| - 1])
  }

  lemma ParseTok(t: string)
    ensures ParseCommand("TOK " + t) == Ok(Token(TrimEnd(t)))
  {
    hide TrimEnd, StripPrefix;
    TrimPrefixed("TOK ", t);
    StripOther("TOK ", TrimEnd(t), "STAT", 0);
    StripOther("TOK ", TrimEnd(t), "SE-PUBKEY?", 0);
    StripOwn("TOK ", TrimEnd(t));
  }

  lemma ParseRvk(t: string)
    ensures ParseCommand("RVK " + t) == Ok(Revoke(TrimEnd(t)))
  {
    hide TrimEnd, StripPrefix;
    TrimPrefixed("RVK ", t);
    StripOther("RVK ", TrimEnd(t), "STAT", 0);
    StripOther("RVK ", TrimEnd(t), "SE-PUBKEY?", 0);
    StripOther("RVK ", TrimEnd(t), "TOK ", 0);
    StripOwn("RVK ", TrimEnd(t));
  }

  lemma ParseSign(t: string)
    ensures ParseCommand("SE-SIGN " + t) == Ok(SeSign(TrimEnd(t)))
  {
    hide TrimEnd, StripPrefix;
    TrimPrefixed("SE-SIGN ", t);
    StripOther("SE-SIGN ", TrimEnd(t), "STAT", 1);
    StripOther("SE-SIGN ", TrimEnd(t), "SE-PUBKEY?", 3);
    StripOther("SE-SIGN ", TrimEnd(t), "TOK ", 0);
    StripOther("SE-SIGN ", TrimEnd(t), "RVK ", 0);
    StripOwn("SE-SIGN ", TrimEnd(t));
  }

  /** Parsing inverts rendering exactly for the commands whose text does not end in a line break. */
  lemma CommandRoundTrip(c: Command)
    ensures ParseCommand(CommandText(c)) == Ok(c) <==> !EndsInEol(Payload(c))
  {
    hide ParseCommand;
    TrimFixed(Payload(c));
    match c {
      case Token(t) => ParseTok(t);
      case Revoke(t) => ParseRvk(t);
      case SeSign(t) => ParseSign(t);
      case Status => ParseFixed();
      case SePubkey => ParseFixed();
    }
  }

  lemma ParseFixed()
    ensures ParseCommand("STAT") == Ok(Status)
    ensures ParseCommand("SE-PUBKEY?") == Ok(SePubkey)
  {
    TrimFixed("STAT");
    TrimFixed("SE-PUBKEY?");
  }

  lemma ParseU64RoundTrip(n: u64)
    ensures ParseU64(Decimal(n)) == Ok(n)
  {
    hide Decimal, DecimalValue;
    DecimalRoundTrip(n);
  }

  lemma ParseNonceRoundTrip(nonce: Id16)
    ensures ParseNonce(Hex(nonce)) == Ok(nonce)
  {
    hide Hex, Unhex;
    HexRoundTrip(nonce);
  }

  // The words of a report

  /** A word that survives splitting and trimming. */
  ghost predicate Clean(w: string) {
    IsWord(w) && '\r' !in w && '\n' !in w
  }

  ghost predicate AllClean(ws: seq<string>) {
    forall i :: 0 <= i < |ws| ==> Clean(ws[i])
  }

  lemma DecimalIsClean(n: nat)
    ensures Clean(Decimal(n)) && '=' !in Decimal(n)
  {
    hide Decimal;
    var s := Decimal(n);
    assert forall i :: 0 <= i < |s| ==> IsDigit(s[i]);
  }

  lemma HexIsClean(nonce: Id16)
    ensures Clean(Hex(nonce))
  {
    hide Hex;
    HexIsWord(nonce);
  }

  lemma CleanConcat(a: string, b: string)
    requires Clean(a) && Clean(b)
    ensures Clean(a + b)
  {
  }

  lemma FixedWordsAreClean(r: Report)
    ensures AllClean(LoadWords(r)) && AllClean(FailWords(r)) && AllClean(ReasonWords(r))
    ensures Clean("open") && Clean("closed") && Clean("seq=")
  {
    LoadWordIsClean(true);
    LoadWordIsClean(false);
    FailWordIsClean(Energized);
    FailWordIsClean(DeEnergized);
    ReasonWordIsClean(Revert);
    ReasonWordIsClean(Expiry);
    ReasonWordIsClean(Boot);
  }

  lemma LoadWordIsClean(on: bool)
    ensures Clean(LoadWord(on))
  {
  }

  lemma FailWordIsClean(f: FailState)
    ensures Clean(FailWord(f))
  {
  }

  lemma ReasonWordIsClean(why: CloseReason)
    ensures Clean(ReasonWord(why))
  {
  }

  lemma AllCleanConcat(a: seq<string>, b: seq<string>)
    requires AllClean(a) && AllClean(b)
    ensures AllClean(a + b)
  {
    hide Clean;
  }

  lemma OneClean(w: string)
    requires Clean(w)
    ensures AllClean([w])
  {
  }

  lemma TrailersAreClean(r: Report)
    ensures AllClean(Trailers(r))
  {
    hide Clean, Decimal, LoadWords, FailWords, ReasonWords;
    FixedWordsAreClean(r);
    DecimalIsClean(r.seqNo);
    CleanConcat("seq=", Decimal(r.seqNo));
    OneClean("seq=" + Decimal(r.seqNo));
    AllCleanConcat(["seq=" + Decimal(r.seqNo)], LoadWords(r));
    AllCleanConcat(["seq=" + Decimal(r.seqNo)] + LoadWords(r), FailWords(r));
    AllCleanConcat(["seq=" + Decimal(r.seqNo)] + LoadWords(r) + FailWords(r), ReasonWords(r));
  }

  lemma OpenWordsAreClean(r: Report)
    ensures AllClean(OpenWords(r))
  {
    hide Clean, Decimal, Hex;
    FixedWordsAreClean(r);
    if r.open.Some? {
      HexIsClean(r.open.value.0);
      DecimalIsClean(r.open.value.1);
    }
  }

  lemma {:induction false} JoinHasNoEol(ws: seq<string>)
    requires AllClean(ws)
    ensures '\r' !in JoinWords(ws) && '\n' !in JoinWords(ws)
  {
    if ws != [] {
      assert Clean(ws[0]);
      JoinHasNoEol(ws[1..]);
    }
  }

  lemma SplitTrailer(key: string, value: string)
    requires '=' !in key
    ensures var word := key + "=" + value;
            Find(word, '=') == |key| && |key| < |word| && word[..|key|] == key && word[|key| + 1..] == value
  {
    hide Find;
    FindAfter(key, '=', value);
  }

  lemma ParseSeqTrailer(n: u64, r: Report, sawSeq: bool)
    ensures ParseTrailer("seq=" + Decimal(n), r, sawSeq) == Ok((r.(seqNo := n), true))
  {
    hide Find, Decimal, ParseU64;
    assert "seq=" + Decimal(n) == "seq" + "=" + Decimal(n);
    SplitTrailer("seq", Decimal(n));
    ParseU64RoundTrip(n);
  }

  lemma ParseLoadTrailer(on: bool, r: Report, sawSeq: bool)
    ensures ParseTrailer(LoadWord(on), r, sawSeq) == Ok((r.(load := Some(on)), sawSeq))
  {
    hide Find, ParseU64;
    var value := if on then "on" else "off";
    assert LoadWord(on) == "load" + "=" + value;
    SplitTrailer("load", value);
  }

  lemma ParseFailTrailer(f: FailState, r: Report, sawSeq: bool)
    ensures ParseTrailer(FailWord(f), r, sawSeq) == Ok((r.(fail := Some(f)), sawSeq))
  {
    hide Find, ParseU64;
    var value := match f case Energized => "energized" case DeEnergized => "de-energized";
    assert FailWord(f) == "fail" + "=" + value;
    SplitTrailer("fail", value);
  }

  lemma ParseReasonTrailer(why: CloseReason, r: Report, sawSeq: bool)
    ensures ParseTrailer(ReasonWord(why), r, sawSeq) == Ok((r.(reason := Some(why)), sawSeq))
  {
    hide Find, ParseU64;
    var value := match why case Revert => "revert" case Expiry => "expiry" case Boot => "boot";
    assert ReasonWord(why) == "reason" + "=" + value;
    SplitTrailer("reason", value);
  }

  lemma TrailerStep(w: string, rest: seq<string>, r: Report, sawSeq: bool)
    requires ParseTrailer(w, r, sawSeq).Ok?
    ensures ParseTrailers([w] + rest, r, sawSeq)
         == ParseTrailers(rest, ParseTrailer(w, r, sawSeq).value.0, ParseTrailer(w, r, sawSeq).value.1)
  {
    hide ParseTrailer;
    assert ([w] + rest)[1..] == rest;
  }

  lemma ParseOptionalTrailers(r: Report, start: Report)
    requires start == Report(r.open, r.seqNo, None, None, None)
    ensures ParseTrailers(LoadWords(r) + (FailWords(r) + ReasonWords(r)), start, true) == Ok((r, true))
  {
    hide ParseTrailer, ParseTrailers, LoadWord, FailWord, ReasonWord;
    var r1 := start.(load := r.load);
    var r2 := r1.(fail := r.fail);
    if r.load.Some? {
      ParseLoadTrailer(r.load.value, start, true);
      TrailerStep(LoadWord(r.load.value), FailWords(r) + ReasonWords(r), start, true);
    } else {
      assert LoadWords(r) + (FailWords(r) + ReasonWords(r)) == FailWords(r) + ReasonWords(r);
    }
    if r.fail.Some? {
      ParseFailTrailer(r.fail.value, r1, true);
      TrailerStep(FailWord(r.fail.value), ReasonWords(r), r1, true);
    } else {
      assert FailWords(r) + ReasonWords(r) == ReasonWords(r);
    }
    if r.reason.Some? {
      ParseReasonTrailer(r.reason.value, r2, true);
      TrailerStep(ReasonWord(r.reason.value), [], r2, true);
      assert ReasonWords(r) + [] == ReasonWords(r);
    }
    NoTrailers(r);
  }

  lemma NoTrailers(r: Report)
    ensures ParseTrailers([], r, true) == Ok((r, true))
  {
  }

  lemma ParseAllTrailers(r: Report)
    ensures ParseTrailers(Trailers(r), EmptyReport(r.open), false) == Ok((r, true))
  {
    hide ParseTrailer, ParseTrailers, Decimal, LoadWords, FailWords, ReasonWords;
    var rest := LoadWords(r) + (FailWords(r) + ReasonWords(r));
    assert Trailers(r) == ["seq=" + Decimal(r.seqNo)] + rest;
    ParseSeqTrailer(r.seqNo, EmptyReport(r.open), false);
    TrailerStep("seq=" + Decimal(r.seqNo), rest, EmptyReport(r.open), false);
    ParseOptionalTrailers(r, EmptyReport(r.open).(seqNo := r.seqNo));
  }

  lemma ParseOpenWords(r: Report, rest: seq<string>)
    ensures ParseOpen(OpenWords(r) + rest) == Ok((r.open, rest))
  {
    hide ParseNonce, ParseU64, Hex, Decimal;
    var words := OpenWords(r) + rest;
    if r.open.Some? {
      ParseNonceRoundTrip(r.open.value.0);
      ParseU64RoundTrip(r.open.value.1);
      assert words[3..] == rest;
    } else {
      assert words[1..] == rest;
    }
  }

  lemma ReportRoundTrip(r: Report)
    ensures ParseState(ReportText(r)) == Ok(r)
    ensures !EndsInEol(ReportText(r))
  {
    hide ParseOpen, ParseTrailers, OpenWords, Trailers, Words, JoinWords;
    var words := OpenWords(r) + Trailers(r);
    OpenWordsAreClean(r);
    TrailersAreClean(r);
    AllCleanConcat(OpenWords(r), Trailers(r));
    assert forall i :: 0 <= i < |words| ==> Clean(words[i]);
    WordsOfJoin(words);
    JoinHasNoEol(words);
    ParseOpenWords(r, Trailers(r));
    ParseAllTrailers(r);
  }

  // Replies

  lemma ParseAckText(nonce: Id16, remaining: u64)
    ensures ParseAck(Hex(nonce) + " " + Decimal(remaining)) == Ok(AckOpen(nonce, remaining))
    ensures !EndsInEol(Hex(nonce) + " " + Decimal(remaining))
    ensures Hex(nonce) + " " + Decimal(remaining) != "closed"
  {
    hide Find, Hex, Decimal, ParseNonce, ParseU64;
    var rest := Hex(nonce) + " " + Decimal(remaining);
    HexIsClean(nonce);
    DecimalIsClean(remaining);
    FindAfter(Hex(nonce), ' ', Decimal(remaining));
    assert rest[..32] == Hex(nonce) && rest[33..] == Decimal(remaining);
    ParseNonceRoundTrip(nonce);
    ParseU64RoundTrip(remaining);
    assert rest[|rest| - 1] == Decimal(remaining)[|Decimal(remaining)| - 1];
  }

  /** What a reply says after its first word. */
  function Body(r: Reply): string {
    match r
    case AckOpen(nonce, remaining) => Hex(nonce) + " " + Decimal(remaining)
    case AckClosed => "closed"
    case Nak(why) => why
    case State(report) => ReportText(report)
    case Pubkey(hex) => hex
    case Sig(token) => token
  }

  lemma ParseAckReply(body: string)
    requires !EndsInEol(body) && body != "closed"
    ensures ParseReply("ACK " + body) == ParseAck(body)
  {
    hide TrimEnd, StripPrefix, ParseAck;
    TrimPrefixed("ACK ", body);
    TrimFixed(body);
    StripOwn("ACK ", body);
    assert ("ACK " + body)[4..] == body && "ACK closed"[4..] == "closed";
  }

  lemma ParseAckClosed()
    ensures ParseReply("ACK closed") == Ok(AckClosed)
  {
    TrimFixed("ACK closed");
  }

  lemma ParseNak(why: string)
    ensures ParseReply("NAK " + why) == Ok(Nak(TrimEnd(why)))
  {
    hide TrimEnd, StripPrefix;
    TrimPrefixed("NAK ", why);
    StripOther("NAK ", TrimEnd(why), "ACK closed", 0);
    StripOther("NAK ", TrimEnd(why), "ACK ", 0);
    StripOwn("NAK ", TrimEnd(why));
  }

  lemma ParseStateReply(body: string)
    requires !EndsInEol(body) && ParseState(body).Ok?
    ensures ParseReply("STATE " + body) == Ok(State(ParseState(body).value))
  {
    hide TrimEnd, StripPrefix, ParseState;
    TrimPrefixed("STATE ", body);
    TrimFixed(body);
    StripOther("STATE ", body, "ACK closed", 0);
    StripOther("STATE ", body, "ACK ", 0);
    StripOther("STATE ", body, "NAK ", 0);
    StripOwn("STATE ", body);
  }

  lemma ParsePubkey(hex: string)
    ensures ParseReply("PUBKEY " + hex) == Ok(Pubkey(TrimEnd(hex)))
  {
    hide TrimEnd, StripPrefix, ParseState;
    TrimPrefixed("PUBKEY ", hex);
    StripOther("PUBKEY ", TrimEnd(hex), "ACK closed", 0);
    StripOther("PUBKEY ", TrimEnd(hex), "ACK ", 0);
    StripOther("PUBKEY ", TrimEnd(hex), "NAK ", 0);
    StripOther("PUBKEY ", TrimEnd(hex), "STATE ", 0);
    StripOwn("PUBKEY ", TrimEnd(hex));
  }

  lemma ParseSig(token: string)
    ensures ParseReply("SIG " + token) == Ok(Sig(TrimEnd(token)))
  {
    hide TrimEnd, StripPrefix, ParseState;
    TrimPrefixed("SIG ", token);
    StripOther("SIG ", TrimEnd(token), "ACK closed", 0);
    StripOther("SIG ", TrimEnd(token), "ACK ", 0);
    StripOther("SIG ", TrimEnd(token), "NAK ", 0);
    StripOther("SIG ", TrimEnd(token), "STATE ", 1);
    StripOther("SIG ", TrimEnd(token), "PUBKEY ", 0);
    StripOwn("SIG ", TrimEnd(token));
  }

  /** Parsing inverts rendering exactly for the replies whose text does not end in a line break. */
  lemma ReplyRoundTrip(r: Reply)
    ensures ParseReply(ReplyText(r)) == Ok(r) <==> !EndsInEol(Body(r))
  {
    hide ParseReply, ReportText, Hex, Decimal, ParseAck, ParseState;
    match r {
      case AckOpen(nonce, remaining) =>
        ParseAckText(nonce, remaining);
        assert "ACK " + Hex(nonce) + " " + Decimal(remaining) == "ACK " + Body(r);
        ParseAckReply(Body(r));
      case AckClosed => ParseAckClosed();
      case Nak(why) => ParseNak(why); TrimFixed(why);
      case State(report) =>
        ReportRoundTrip(report);
        ParseStateReply(ReportText(report));
      case Pubkey(hex) => ParsePubkey(hex); TrimFixed(hex);
      case Sig(token) => ParseSig(token); TrimFixed(token);
    }
  }
}
