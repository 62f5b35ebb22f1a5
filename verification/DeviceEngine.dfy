/**
 The device-side grant engine: a grant in volatile memory on an uptime clock, a
 persisted anti-replay mark, and the gate it drives.
 */
module DeviceEngine {
  import opened Common
  import opened Cbor
  import Token
  import Line
  import LineStream

  const MAX_U64: u64 := U64_LIMIT - 1

  datatype Held = Held(nonce: Id16, expiresAtMs: u64)

  /** The whole device: only `mark` survives a reboot. */
  datatype Device = Device(
    id: Id16, mark: u64, grant: Option<Held>, gateOpen: bool, lastClose: Option<Line.CloseReason>)

  /** What a persistent write reports: done, failed untouched, or failed after it landed. */
  datatype Write = Stored | Lost | Torn

  /** How the store behaves while one line is handled. */
  datatype Io = Io(loads: bool, write: Write)

  /** The verdict on a token: its content, a scheme mismatch, or anything else. */
  datatype Verdict<T> = Genuine(value: T) | WrongAlg | Bad

  // ---------------------------------------------------------------------------
  // Each handler as a function of the state
  // ---------------------------------------------------------------------------

  function Booted(d: Device): Device {
    d.(grant := None, gateOpen := false, lastClose := Some(Line.Boot))
  }

  function Closed(d: Device, why: Line.CloseReason): Device {
    d.(grant := None, gateOpen := false, lastClose := Some(why))
  }

  function Ticked(d: Device, now: u64): Device {
    if d.grant.Some? && now >= d.grant.value.expiresAtMs then Closed(d, Line.Expiry) else d
  }

  function Saturated(n: nat): u64 {
    if n < U64_LIMIT then n else MAX_U64
  }

  /** Seconds left, rounded up. */
  function Remaining(g: Held, now: u64): u64 {
    ((if g.expiresAtMs > now then g.expiresAtMs - now else 0) + 999) / 1000
  }

  function Ack(g: Held, now: u64): Line.Reply {
    Line.AckOpen(g.nonce, Remaining(g, now))
  }

  /** The mark after an attempted write, and whether the write was reported done. */
  function MarkAfter(d: Device, n: u64, write: Write): Device {
    if write == Lost then d else d.(mark := n)
  }

  function TokenHandled(d: Device, v: Verdict<Token.Capability>, now: u64, io: Io): (Device, Line.Reply) {
    match v
    case WrongAlg => (d, Line.Nak("wrong-alg"))
    case Bad => (d, Line.Nak("bad-token"))
    case Genuine(cap) =>
      if cap.deviceId != d.id then (d, Line.Nak("wrong-device"))
      else if !io.loads then (d, Line.Nak("store-failed"))
      else if d.grant.Some? && d.grant.value.nonce == cap.nonce && cap.issuedSeq == d.mark then
        (d, Ack(d.grant.value, now))
      else if d.grant.Some? && d.grant.value.nonce != cap.nonce then (d, Line.Nak("busy"))
      else if cap.issuedSeq <= d.mark then (d, Line.Nak("replay"))
      else if cap.ttlSecs > MAX_TTL_SECS then (d, Line.Nak("ttl"))
      else
        var d' := MarkAfter(d, cap.issuedSeq, io.write);
        if io.write != Stored then (d', Line.Nak("store-failed"))
        else
          var g := Held(cap.nonce, Saturated(now + cap.ttlSecs * 1000));
          (d'.(grant := Some(g), gateOpen := true, lastClose := None), Ack(g, now))
  }

  function RevocationHandled(d: Device, v: Verdict<Token.Revocation>, io: Io): (Device, Line.Reply) {
    match v
    case WrongAlg => (d, Line.Nak("wrong-alg"))
    case Bad => (d, Line.Nak("bad-token"))
    case Genuine(rvk) =>
      if rvk.deviceId != d.id then (d, Line.Nak("wrong-device"))
      else if !io.loads then (d, Line.Nak("store-failed"))
      else if rvk.issuedSeq <= d.mark then (d, Line.Nak("replay"))
      else
        var d' := MarkAfter(d, rvk.issuedSeq, io.write);
        if io.write != Stored then (d', Line.Nak("store-failed"))
        else if d.grant.None? then (d', Line.AckClosed)
        else if d.grant.value.nonce == rvk.nonce then (Closed(d', Line.Revert), Line.AckClosed)
        else (d', Line.Nak("wrong-grant"))
  }

  /** Seconds left are counted up to the next whole one. */
  lemma RemainingRoundsUp(g: Held, now: u64)
    ensures now < g.expiresAtMs ==>
              1000 * (Remaining(g, now) - 1) < g.expiresAtMs - now <= 1000 * Remaining(g, now)
    ensures g.expiresAtMs <= now ==> Remaining(g, now) == 0
  {
  }

  /** An acknowledgement tells of the very token, now held and its number kept; a refusal changes no grant. */
  lemma TokenReplyIsTrue(d: Device, v: Verdict<Token.Capability>, now: u64, io: Io)
    ensures var (d', reply) := TokenHandled(d, v, now, io);
            && (reply.AckOpen? || reply.Nak?)
            && (reply.AckOpen? ==>
                  && v.Genuine? && v.value.deviceId == d.id && d'.mark == v.value.issuedSeq
                  && d'.grant.Some? && d'.grant.value.nonce == v.value.nonce
                  && reply == Line.AckOpen(v.value.nonce, Remaining(d'.grant.value, now)))
            && (reply.Nak? ==> d'.grant == d.grant && d'.gateOpen == d.gateOpen)
  {
  }

  /** Each refusal of a capability names a cause that holds. */
  lemma TokenRefusalIsTrue(d: Device, v: Verdict<Token.Capability>, now: u64, io: Io)
    requires TokenHandled(d, v, now, io).1.Nak?
    ensures var why := TokenHandled(d, v, now, io).1.why;
            || (why == "wrong-alg" && v.WrongAlg?)
            || (why == "bad-token" && v.Bad?)
            || (why == "wrong-device" && v.Genuine? && v.value.deviceId != d.id)
            || (why == "store-failed" && v.Genuine? && (!io.loads || io.write != Stored))
            || (why == "busy" && v.Genuine? && d.grant.Some? && d.grant.value.nonce != v.value.nonce)
            || (why == "replay" && v.Genuine? && v.value.issuedSeq <= d.mark)
            || (why == "ttl" && v.Genuine? && v.value.ttlSecs > MAX_TTL_SECS)
  {
  }

  /** A revocation is acknowledged exactly when it was taken and nothing is held after it. */
  lemma RevocationReplyIsTrue(d: Device, v: Verdict<Token.Revocation>, io: Io)
    ensures var (d', reply) := RevocationHandled(d, v, io);
            && (reply.AckClosed? || reply.Nak?)
            && (reply.AckClosed? <==>
                  && v.Genuine? && v.value.deviceId == d.id && io == Io(true, Stored) && d.mark < v.value.issuedSeq
                  && d'.grant.None?)
            && (reply.Nak? ==> d'.grant == d.grant && d'.gateOpen == d.gateOpen)
  {
  }

  lemma RevocationRefusalIsTrue(d: Device, v: Verdict<Token.Revocation>, io: Io)
    requires RevocationHandled(d, v, io).1.Nak?
    ensures var why := RevocationHandled(d, v, io).1.why;
            || (why == "wrong-alg" && v.WrongAlg?)
            || (why == "bad-token" && v.Bad?)
            || (why == "wrong-device" && v.Genuine? && v.value.deviceId != d.id)
            || (why == "store-failed" && v.Genuine? && (!io.loads || io.write != Stored))
            || (why == "replay" && v.Genuine? && v.value.issuedSeq <= d.mark)
            || (why == "wrong-grant" && v.Genuine? && d.grant.Some? && d.grant.value.nonce != v.value.nonce)
  {
  }

  /** What the sensors say. */
  datatype Sensors = Sensors(load: Option<bool>, fail: Option<Line.FailState>)

  function ReportOf(d: Device, now: u64, io: Io, sensors: Sensors): Line.Report {
    Line.Report(
      match d.grant case Some(g) => Some((g.nonce, Remaining(g, now))) case None => None,
      if io.loads then d.mark else 0,
      sensors.load,
      sensors.fail,
      if d.grant.None? then d.lastClose else None)
  }

  /** How tokens are verified: the crypto and codec behind two functions. */
  datatype Verifier = Verifier(
      capability: string -> Verdict<Token.Capability>, revocation: string -> Verdict<Token.Revocation>)

  /** One line: the clock is read at `tickAt` on entry and at `now` while it is handled. */
  function LineHandled(
      d: Device, input: string, v: Verifier, tickAt: u64, now: u64, io: Io, sensors: Sensors): (Device, Line.Reply) {
    var d := Ticked(d, tickAt);
    match Line.ParseCommand(input)
    case Ok(Token(t)) => TokenHandled(d, v.capability(t), now, io)
    case Ok(Revoke(t)) => RevocationHandled(d, v.revocation(t), io)
    case Ok(Status) => (d, Line.State(ReportOf(d, now, io, sensors)))
    case Ok(SePubkey) => (d, Line.Nak("unsupported"))
    case Ok(SeSign(_)) => (d, Line.Nak("unsupported"))
    case Err(_) => (d, Line.Nak("bad-command"))
  }

  /** A status line shows what is held at the instant it is read, and never changes what a tick would not. */
  lemma StatusIsTrue(d: Device, input: string, v: Verifier, tickAt: u64, now: u64, io: Io, sensors: Sensors)
    requires Line.ParseCommand(input) == Ok(Line.Status)
    ensures var (d', reply) := LineHandled(d, input, v, tickAt, now, io, sensors);
            && reply.State? && d'.mark == d.mark
            && d'.grant == (if d.grant.Some? && tickAt < d.grant.value.expiresAtMs then d.grant else None)
            && (reply.report.open.Some? <==> d'.grant.Some?)
            && (d'.grant.Some? ==>
                  reply.report.open == Some((d'.grant.value.nonce, Remaining(d'.grant.value, now))))
            && reply.report.seqNo == (if io.loads then d.mark else 0)
            && reply.report.load == sensors.load && reply.report.fail == sensors.fail
            && (d'.grant.Some? ==> reply.report.reason == None)
            && (d.grant.Some? && d'.grant.None? ==> reply.report.reason == Some(Line.Expiry))
            && (d.grant.None? ==> reply.report.reason == d.lastClose)
  {
    hide Line.ParseCommand;
  }

  /** Every reply the engine builds fits the line buffer. */
  lemma EngineRepliesFit(d: Device, input: string, v: Verifier, tickAt: u64, now: u64, io: Io, sensors: Sensors)
    ensures |Line.ReplyText(LineHandled(d, input, v, tickAt, now, io, sensors).1)| <= Line.MAX_LINE_LEN
  {
    hide Line.ReplyText, Line.ParseCommand;
    LineStream.ReplyFits(LineHandled(d, input, v, tickAt, now, io, sensors).1);
  }

  // ---------------------------------------------------------------------------
  // The engine, with its fields updated in place
  // ---------------------------------------------------------------------------

  class Engine {
    const id: Id16
    const verifier: Verifier
    var mark: u64
    var grant: Option<Held>
    var gateOpen: bool
    var lastClose: Option<Line.CloseReason>

    ghost function State(): Device
      reads this
    {
      Device(id, mark, grant, gateOpen, lastClose)
    }

    /** Boot drives the gate closed whatever it was; the persisted mark is kept. */
    constructor (id: Id16, verifier: Verifier, mark: u64)
      ensures State() == Device(id, mark, None, false, Some(Line.Boot)) && this.verifier == verifier
    {
      this.id, this.verifier, this.mark := id, verifier, mark;
      gateOpen := false;
      grant, lastClose := None, Some(Line.Boot);
    }

    method Close(why: Line.CloseReason)
      modifies this
      ensures State() == Closed(old(State()), why)
    {
      grant := None;
      gateOpen := false;
      lastClose := Some(why);
    }

    method Tick(now: u64)
      modifies this
      ensures State() == Ticked(old(State()), now)
    {
      if grant.Some? && now >= grant.value.expiresAtMs {
        Close(Line.Expiry);
      }
    }

    /** Persists the mark; a reported failure may or may not have landed. */
    method StoreMark(n: u64, write: Write) returns (ok: bool)
      modifies this`mark
      ensures State() == MarkAfter(old(State()), n, write) && ok == (write == Stored)
    {
      if write != Lost {
        mark := n;
      }
      ok := write == Stored;
    }

    method AcceptToken(v: Verdict<Token.Capability>, now: u64, io: Io) returns (reply: Line.Reply)
      modifies this
      ensures (State(), reply) == TokenHandled(old(State()), v, now, io)
    {
      match v {
        case WrongAlg => return Line.Nak("wrong-alg");
        case Bad => return Line.Nak("bad-token");
        case Genuine(cap) =>
          if cap.deviceId != id { return Line.Nak("wrong-device"); }
          if !io.loads { return Line.Nak("store-failed"); }
          var stored := mark;
          if grant.Some? {
            // The same token is acknowledged again without moving the deadline.
            if grant.value.nonce == cap.nonce && cap.issuedSeq == stored { return Ack(grant.value, now); }
            if grant.value.nonce != cap.nonce { return Line.Nak("busy"); }
          }
          if cap.issuedSeq <= stored { return Line.Nak("replay"); }
          if cap.ttlSecs > MAX_TTL_SECS { return Line.Nak("ttl"); }
          // Retire the number first: a grant whose number might be used again is not given.
          var ok := StoreMark(cap.issuedSeq, io.write);
          if !ok { return Line.Nak("store-failed"); }
          var g := Held(cap.nonce, Saturated(now + cap.ttlSecs * 1000));
          grant := Some(g);
          lastClose := None;
          gateOpen := true;
          return Ack(g, now);
      }
    }

    method AcceptRevocation(v: Verdict<Token.Revocation>, io: Io) returns (reply: Line.Reply)
      modifies this
      ensures (State(), reply) == RevocationHandled(old(State()), v, io)
    {
      match v {
        case WrongAlg => return Line.Nak("wrong-alg");
        case Bad => return Line.Nak("bad-token");
        case Genuine(rvk) =>
          if rvk.deviceId != id { return Line.Nak("wrong-device"); }
          if !io.loads { return Line.Nak("store-failed"); }
          if rvk.issuedSeq <= mark { return Line.Nak("replay"); }
          var ok := StoreMark(rvk.issuedSeq, io.write);
          if !ok { return Line.Nak("store-failed"); }
          if grant.None? { return Line.AckClosed; }
          if grant.value.nonce == rvk.nonce {
            Close(Line.Revert);
            return Line.AckClosed;
          }
          return Line.Nak("wrong-grant");
      }
    }

    /** Handles one protocol line; rendering the reply cannot fail. */
    method HandleLine(
        input: string, tickAt: u64, now: u64, io: Io, sensors: Sensors, buf: array<char>) returns (text: string)
      requires buf.Length == Line.MAX_LINE_LEN
      modifies this, buf
      ensures State() == LineHandled(old(State()), input, verifier, tickAt, now, io, sensors).0
      ensures text == Line.ReplyText(LineHandled(old(State()), input, verifier, tickAt, now, io, sensors).1)
    {
      hide Line.ReplyText, Line.ParseCommand, TokenHandled, RevocationHandled;
      EngineRepliesFit(State(), input, verifier, tickAt, now, io, sensors);
      Tick(tickAt);
      var reply;
      match Line.ParseCommand(input) {
        case Ok(Token(t)) => reply := AcceptToken(verifier.capability(t), now, io);
        case Ok(Revoke(t)) => reply := AcceptRevocation(verifier.revocation(t), io);
        case Ok(Status) => reply := Line.State(Report(now, io, sensors));
        case Ok(SePubkey) => reply := Line.Nak("unsupported");
        case Ok(SeSign(_)) => reply := Line.Nak("unsupported");
        case Err(_) => reply := Line.Nak("bad-command");
      }
      var rendered := LineStream.RenderReply(reply, buf);
      assert rendered.Ok?;
      text := rendered.value;
    }

    /** The state report; a failed read of the mark shows zero. */
    function Report(now: u64, io: Io, sensors: Sensors): (r: Line.Report)
      reads this
      ensures r == ReportOf(State(), now, io, sensors)
    {
      Line.Report(
        if grant.Some? then Some((grant.value.nonce, Remaining(grant.value, now))) else None,
        if io.loads then mark else 0,
        sensors.load,
        sensors.fail,
        if grant.None? then lastClose else None)
    }
  }
}
