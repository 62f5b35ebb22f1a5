/**
 The daemon, an arbitrary network and one device: every token ever issued can be
 delivered at any time, any number of times, in any order, through reboots and
 store failures on both sides.
 */
module DeviceProtocol {
  import opened Common
  import opened Cbor
  import opened DeviceEngine
  import opened DeviceLedger
  import Line
  import Token

  /** A deadline set by a capability: which one, when on the uptime clock, in which boot. */
  datatype Anchor = Anchor(cap: Token.Capability, at: u64, boot: nat)

  datatype World = World(
    ledger: Ledger,
    log: seq<(Id16, u64)>, // every number handed out, in order
    issued: Token.Issued, // every token the network holds
    device: Device,
    uptime: u64,
    boots: nat,
    anchors: seq<Anchor>, // every deadline ever set
    revoked: set<Id16> // nonces whose revocation was accepted since the last anchor
  )

  datatype Event =
    | Issue(ver: byte, deviceId: Id16, nonce: Id16, capability: u32, ttlSecs: u32, daemonWrite: Write)
    | IssueRevocation(ver: byte, deviceId: Id16, nonce: Id16, daemonWrite: Write)
    | Deliver(cap: Token.Capability, lag: nat, io: Io)
    | DeliverRevocation(rvk: Token.Revocation, io: Io)
    | OtherLine
    | Tick
    | Advance(ms: nat)
    | Reboot

  predicate Enabled(w: World, e: Event) {
    match e
    case Deliver(cap, lag, _) => cap in w.issued.caps && w.uptime + lag < U64_LIMIT
    case DeliverRevocation(rvk, _) => rvk in w.issued.rvks
    case Advance(ms) => w.uptime + ms < U64_LIMIT
    case _ => true
  }

  function Delivered(w: World, cap: Token.Capability, lag: nat, io: Io): World
    requires w.uptime + lag < U64_LIMIT
  {
    var d := Ticked(w.device, w.uptime);
    var now := w.uptime + lag;
    var (d', reply) := TokenHandled(d, Genuine(cap), now, io);
    var w' := w.(device := d', uptime := now);
    if reply.AckOpen? && d'.mark != d.mark then
      w'.(anchors := w.anchors + [Anchor(cap, now, w.boots)], revoked := {})
    else w'
  }

  function Next(w: World, e: Event): World
    requires Enabled(w, e)
  {
    match e
    case Issue(ver, deviceId, nonce, capability, ttlSecs, write) =>
      var (ledger, n) := Reserved(w.ledger, deviceId, write);
      if n.None? then w.(ledger := ledger)
      else
        var cap := Token.Capability(ver, deviceId, nonce, capability, ttlSecs, n.value);
        w.(ledger := ledger, log := w.log + [(deviceId, n.value)], issued := w.issued.(caps := w.issued.caps + {cap}))
    case IssueRevocation(ver, deviceId, nonce, write) =>
      var (ledger, n) := Reserved(w.ledger, deviceId, write);
      if n.None? then w.(ledger := ledger)
      else
        var rvk := Token.Revocation(ver, deviceId, nonce, n.value);
        w.(ledger := ledger, log := w.log + [(deviceId, n.value)], issued := w.issued.(rvks := w.issued.rvks + {rvk}))
    case Deliver(cap, lag, io) => Delivered(w, cap, lag, io)
    case DeliverRevocation(rvk, io) =>
      var (d', reply) := RevocationHandled(Ticked(w.device, w.uptime), Genuine(rvk), io);
      w.(device := d', revoked := if reply.AckClosed? then w.revoked + {rvk.nonce} else w.revoked)
    case OtherLine => w.(device := Ticked(w.device, w.uptime))
    case Tick => w.(device := Ticked(w.device, w.uptime))
    case Advance(ms) => w.(uptime := w.uptime + ms)
    case Reboot => w.(device := Booted(w.device), uptime := 0, boots := w.boots + 1)
  }

  /** The world before anything happened, for a device whose gate may power up open. */
  predicate Initial(w: World) {
    && w.ledger == map[] && w.log == [] && w.issued == Token.Issued({}, {})
    && w.device == Booted(w.device) && w.device.mark == 0
    && w.anchors == [] && w.revoked == {}
  }

  /** A run: worlds linked by enabled events. */
  ghost predicate Run(worlds: seq<World>, events: seq<Event>) {
    && |worlds| == |events| + 1
    && Initial(worlds[0])
    && forall i :: 0 <= i < |events| ==> Enabled(worlds[i], events[i]) && worlds[i + 1] == Next(worlds[i], events[i])
  }

  // ---------------------------------------------------------------------------
  // What every step keeps
  // ---------------------------------------------------------------------------

  type Log = seq<(Id16, u64)>

  /** Numbers handed out never repeat and never pass the ledger. */
  ghost predicate LedgerInv(ledger: Ledger, log: Log) {
    && (forall i :: 0 <= i < |log| ==> 0 < log[i].1 <= LastSeq(ledger, log[i].0))
    && (forall i, j :: 0 <= i < j < |log| && log[i].0 == log[j].0 ==> log[i].1 < log[j].1)
  }

  /** A token's number was handed out, and no other token of the device carries it. */
  ghost predicate IssuedInv(log: Log, issued: Token.Issued) {
    && (forall c :: c in issued.caps ==> (c.deviceId, c.issuedSeq) in log)
    && (forall v :: v in issued.rvks ==> (v.deviceId, v.issuedSeq) in log)
    && (forall c, c' :: c in issued.caps && c' in issued.caps && SameNumber(c, c') ==> c == c')
    && (forall c, v :: c in issued.caps && v in issued.rvks && c.deviceId == v.deviceId ==> c.issuedSeq != v.issuedSeq)
  }

  predicate SameNumber(c: Token.Capability, c': Token.Capability) {
    c.deviceId == c'.deviceId && c.issuedSeq == c'.issuedSeq
  }

  /** Deadlines were set by issued capabilities of this device, in strictly rising order, none above the mark. */
  ghost predicate AnchorInv(anchors: seq<Anchor>, caps: set<Token.Capability>, id: Id16, mark: u64) {
    && (forall i :: 0 <= i < |anchors| ==> AnchorOk(anchors[i], caps, id, mark))
    && (forall i, j :: 0 <= i < j < |anchors| ==> anchors[i].cap.issuedSeq < anchors[j].cap.issuedSeq)
  }

  ghost predicate AnchorOk(a: Anchor, caps: set<Token.Capability>, id: Id16, mark: u64) {
    a.cap in caps && a.cap.deviceId == id && a.cap.issuedSeq <= mark && a.cap.ttlSecs <= MAX_TTL_SECS
  }

  function Deadline(a: Anchor): nat {
    a.at + a.cap.ttlSecs * 1000
  }

  /** The grant held is the last anchor's, set in this boot, and not revoked since. */
  ghost predicate Backed(w: World) {
    && w.device.grant.Some?
    && |w.anchors| > 0
    && Backs(w.anchors[|w.anchors| - 1], w.device.grant.value, w.boots, w.uptime)
    && w.device.grant.value.nonce !in w.revoked
  }

  ghost predicate Backs(a: Anchor, g: Held, boots: nat, uptime: u64) {
    a.boot == boots && a.at <= uptime && a.cap.nonce == g.nonce && g.expiresAtMs <= Deadline(a)
  }

  /** The gate is open exactly while a grant is held, and a grant held is backed. */
  ghost predicate GateInv(w: World) {
    && (w.device.gateOpen <==> w.device.grant.Some?)
    && (w.device.grant.Some? ==> Backed(w))
  }

  ghost predicate Inv(w: World) {
    && LedgerInv(w.ledger, w.log)
    && IssuedInv(w.log, w.issued)
    && AnchorInv(w.anchors, w.issued.caps, w.device.id, w.device.mark)
    && GateInv(w)
  }

  lemma ReservedIsNew(ledger: Ledger, log: Log, id: Id16, write: Write)
    requires LedgerInv(ledger, log)
    ensures var (ledger', n) := Reserved(ledger, id, write);
            && LedgerInv(ledger', if n.Some? then log + [(id, n.value)] else log)
            && (n.Some? ==> (id, n.value) !in log)
  {
    var (ledger', n) := Reserved(ledger, id, write);
    assert forall d :: LastSeq(ledger', d) >= LastSeq(ledger, d);
    if n.Some? {
      forall i | 0 <= i < |log| && log[i].0 == id ensures log[i].1 < n.value {
        assert log[i].1 <= LastSeq(ledger, id);
      }
    }
  }

  lemma IssueKeepsCap(log: Log, issued: Token.Issued, cap: Token.Capability)
    requires IssuedInv(log, issued) && (cap.deviceId, cap.issuedSeq) !in log
    ensures IssuedInv(log + [(cap.deviceId, cap.issuedSeq)], issued.(caps := issued.caps + {cap}))
  {
  }

  lemma IssueKeepsRvk(log: Log, issued: Token.Issued, rvk: Token.Revocation)
    requires IssuedInv(log, issued) && (rvk.deviceId, rvk.issuedSeq) !in log
    ensures IssuedInv(log + [(rvk.deviceId, rvk.issuedSeq)], issued.(rvks := issued.rvks + {rvk}))
  {
  }

  lemma AnchorsStay(
      anchors: seq<Anchor>, caps: set<Token.Capability>, caps': set<Token.Capability>, id: Id16, mark: u64, mark': u64)
    requires AnchorInv(anchors, caps, id, mark) && caps <= caps' && mark <= mark'
    ensures AnchorInv(anchors, caps', id, mark')
  {
    assert forall i :: 0 <= i < |anchors| && AnchorOk(anchors[i], caps, id, mark) ==>
                         AnchorOk(anchors[i], caps', id, mark');
  }

  lemma AnchorAdded(anchors: seq<Anchor>, caps: set<Token.Capability>, id: Id16, mark: u64, a: Anchor)
    requires AnchorInv(anchors, caps, id, mark)
    requires mark < a.cap.issuedSeq && AnchorOk(a, caps, id, a.cap.issuedSeq)
    ensures AnchorInv(anchors + [a], caps, id, a.cap.issuedSeq)
  {
    AnchorsStay(anchors, caps, caps, id, mark, a.cap.issuedSeq);
  }

  lemma IssueKeeps(w: World, e: Event)
    requires Inv(w) && (e.Issue? || e.IssueRevocation?)
    ensures Inv(Next(w, e))
  {
    hide Reserved, LedgerInv, IssuedInv, AnchorInv, Backs;
    var (ledger, n) := Reserved(w.ledger, e.deviceId, e.daemonWrite);
    ReservedIsNew(w.ledger, w.log, e.deviceId, e.daemonWrite);
    if n.Some? {
      if e.Issue? {
        var cap := Token.Capability(e.ver, e.deviceId, e.nonce, e.capability, e.ttlSecs, n.value);
        IssueKeepsCap(w.log, w.issued, cap);
        AnchorsStay(w.anchors, w.issued.caps, w.issued.caps + {cap}, w.device.id, w.device.mark, w.device.mark);
      } else {
        IssueKeepsRvk(w.log, w.issued, Token.Revocation(e.ver, e.deviceId, e.nonce, n.value));
      }
    }
  }

  lemma DeliverKeeps(w: World, e: Event)
    requires Inv(w) && e.Deliver? && Enabled(w, e)
    ensures Inv(Next(w, e))
  {
    hide LedgerInv, IssuedInv, AnchorInv;
    var now := w.uptime + e.lag;
    var d := Ticked(w.device, w.uptime);
    var (d', reply) := TokenHandled(d, Genuine(e.cap), now, e.io);
    AnchorsStay(w.anchors, w.issued.caps, w.issued.caps, w.device.id, w.device.mark, d'.mark);
    if reply.AckOpen? && d'.mark != d.mark {
      AnchorAdded(w.anchors, w.issued.caps, w.device.id, w.device.mark, Anchor(e.cap, now, w.boots));
    }
  }

  lemma RevocationKeeps(w: World, e: Event)
    requires Inv(w) && e.DeliverRevocation? && Enabled(w, e)
    ensures Inv(Next(w, e))
  {
    hide LedgerInv, IssuedInv, AnchorInv, Backs;
    var d' := RevocationHandled(Ticked(w.device, w.uptime), Genuine(e.rvk), e.io).0;
    AnchorsStay(w.anchors, w.issued.caps, w.issued.caps, w.device.id, w.device.mark, d'.mark);
  }

  lemma LocalKeeps(w: World, e: Event)
    requires Inv(w) && Enabled(w, e)
    requires e.OtherLine? || e.Tick? || e.Advance? || e.Reboot?
    ensures Inv(Next(w, e))
  {
    hide LedgerInv, IssuedInv, AnchorInv;
  }

  lemma StepKeeps(w: World, e: Event)
    requires Inv(w) && Enabled(w, e)
    ensures Inv(Next(w, e))
  {
    hide Inv, Next;
    match e {
      case Issue(_, _, _, _, _, _) => IssueKeeps(w, e);
      case IssueRevocation(_, _, _, _) => IssueKeeps(w, e);
      case Deliver(_, _, _) => DeliverKeeps(w, e);
      case DeliverRevocation(_, _) => RevocationKeeps(w, e);
      case _ => LocalKeeps(w, e);
    }
  }

  /** The invariant holds in every world of every run. */
  lemma {:induction false} RunKeeps(worlds: seq<World>, events: seq<Event>, n: nat)
    requires Run(worlds, events) && n < |worlds|
    ensures Inv(worlds[n])
  {
    hide Next;
    if n > 0 {
      RunKeeps(worlds, events, n - 1);
      StepKeeps(worlds[n - 1], events[n - 1]);
    }
  }

  // ---------------------------------------------------------------------------
  // What the device promises
  // ---------------------------------------------------------------------------

  /**
   In every world of every run the gate is open exactly while a grant is held; and
   right after a tick a grant held is before the deadline of the last capability
   anchored, in this boot, for at most a day, and not revoked since.
   */
  lemma DeviceSafety(worlds: seq<World>, events: seq<Event>, n: nat)
    requires Run(worlds, events) && n < |events| && (events[n].Tick? || events[n].OtherLine?)
    ensures var w := worlds[n + 1];
            && (w.device.gateOpen <==> w.device.grant.Some?)
            && (w.device.grant.Some? ==>
                  && |w.anchors| > 0
                  && w.anchors[|w.anchors| - 1].boot == w.boots
                  && w.anchors[|w.anchors| - 1].cap.nonce == w.device.grant.value.nonce
                  && w.anchors[|w.anchors| - 1].cap.ttlSecs <= 86400
                  && w.uptime < Deadline(w.anchors[|w.anchors| - 1])
                  && w.device.grant.value.nonce !in w.revoked)
  {
    hide LedgerInv, IssuedInv;
    RunKeeps(worlds, events, n + 1);
    var w := worlds[n + 1];
    assert w == Next(worlds[n], events[n]);
    if w.device.grant.Some? {
      assert AnchorOk(w.anchors[|w.anchors| - 1], w.issued.caps, w.device.id, w.device.mark);
    }
  }

  lemma StepRaisesMark(w: World, e: Event)
    requires Enabled(w, e)
    ensures w.device.mark <= Next(w, e).device.mark && Next(w, e).device.id == w.device.id
  {
  }

  /** The mark never goes down, not across reboots or failed writes. */
  lemma {:induction false} MarkNeverFalls(worlds: seq<World>, events: seq<Event>, i: nat, j: nat)
    requires Run(worlds, events) && i <= j < |worlds|
    ensures worlds[i].device.mark <= worlds[j].device.mark && worlds[i].device.id == worlds[j].device.id
  {
    hide Next;
    if i < j {
      MarkNeverFalls(worlds, events, i, j - 1);
      StepRaisesMark(worlds[j - 1], events[j - 1]);
    }
  }

  /** No number is handed out twice for a device, whatever crashes and failed writes came between. */
  lemma NumbersAreFresh(worlds: seq<World>, events: seq<Event>, n: nat, i: nat, j: nat)
    requires Run(worlds, events) && n < |worlds| && i < j < |worlds[n].log|
    ensures worlds[n].log[i] != worlds[n].log[j]
  {
    hide Next, IssuedInv, AnchorInv, GateInv;
    RunKeeps(worlds, events, n);
  }

  /** Every issued capability sets a deadline at most once, over the whole run. */
  lemma AnchorsOnce(worlds: seq<World>, events: seq<Event>, n: nat, i: nat, j: nat)
    requires Run(worlds, events) && n < |worlds| && i < j < |worlds[n].anchors|
    ensures worlds[n].anchors[i].cap != worlds[n].anchors[j].cap
    ensures worlds[n].anchors[i].cap in worlds[n].issued.caps
  {
    hide Next, IssuedInv, LedgerInv, GateInv;
    RunKeeps(worlds, events, n);
    assert AnchorOk(worlds[n].anchors[i], worlds[n].issued.caps, worlds[n].device.id, worlds[n].device.mark);
  }

  /** A deadline appears or moves only in a step that strictly raises the mark. */
  lemma DeadlineNeedsFreshMark(w: World, e: Event)
    requires Enabled(w, e)
    requires Next(w, e).device.grant.Some? && Next(w, e).device.grant != w.device.grant
    ensures e.Deliver? && w.device.mark < Next(w, e).device.mark == e.cap.issuedSeq
    ensures Next(w, e).anchors == w.anchors + [Anchor(e.cap, Next(w, e).uptime, w.boots)]
  {
  }

  /** Delivering a capability at or below the mark changes nothing that a tick would not. */
  lemma StaleIsInert(w: World, e: Event)
    requires Enabled(w, e) && e.Deliver? && e.cap.issuedSeq <= w.device.mark
    ensures Next(w, e).device == Ticked(w.device, w.uptime)
    ensures Next(w, e).anchors == w.anchors
  {
  }

  /** Once superseded, a capability is dead in every later world, across reboots too. */
  lemma DeadForever(worlds: seq<World>, events: seq<Event>, i: nat, j: nat)
    requires Run(worlds, events) && i <= j < |events|
    requires events[j].Deliver? && events[j].cap.issuedSeq <= worlds[i].device.mark
    ensures worlds[j + 1].device == Ticked(worlds[j].device, worlds[j].uptime)
    ensures worlds[j + 1].device.gateOpen ==> worlds[j].device.gateOpen
  {
    hide Next;
    MarkNeverFalls(worlds, events, i, j);
    StaleIsInert(worlds[j], events[j]);
  }

  /** After a reboot, the capability that was open cannot open the gate again. */
  lemma RebootKillsTheGrant(worlds: seq<World>, events: seq<Event>, i: nat, k: nat, j: nat)
    requires Run(worlds, events) && i <= j < |events|
    requires k < |worlds[i].anchors|
    requires events[j].Deliver? && events[j].cap == worlds[i].anchors[k].cap
    ensures worlds[j + 1].device.gateOpen ==> worlds[j].device.gateOpen
  {
    hide Next, LedgerInv, IssuedInv, GateInv;
    RunKeeps(worlds, events, i);
    assert AnchorOk(worlds[i].anchors[k], worlds[i].issued.caps, worlds[i].device.id, worlds[i].device.mark);
    DeadForever(worlds, events, i, j);
  }

  // ---------------------------------------------------------------------------
  // Each event's effect, in the device's own fields
  // ---------------------------------------------------------------------------

  /** The grant a device still holds once it has looked at its clock. */
  function Standing(w: World): Option<Held> {
    if w.device.grant.Some? && w.uptime < w.device.grant.value.expiresAtMs then w.device.grant else None
  }

  /** A capability that takes effect: ours, fresh, for at most a day, no other grant in the way, and its number kept. */
  predicate TakesEffect(w: World, cap: Token.Capability, io: Io) {
    && cap.deviceId == w.device.id && io == Io(true, Stored)
    && w.device.mark < cap.issuedSeq && cap.ttlSecs <= MAX_TTL_SECS
    && (Standing(w).Some? ==> Standing(w).value.nonce == cap.nonce)
  }

  predicate RevocationTakesEffect(w: World, rvk: Token.Revocation, io: Io) {
    rvk.deviceId == w.device.id && io == Io(true, Stored) && w.device.mark < rvk.issuedSeq
  }

  /** What the device holds after each event, by the numbers alone. */
  lemma HoldsExactly(w: World, e: Event)
    requires Enabled(w, e)
    ensures Next(w, e).device.grant
         == match e
            case Issue(_, _, _, _, _, _) => w.device.grant
            case IssueRevocation(_, _, _, _) => w.device.grant
            case Advance(_) => w.device.grant
            case Reboot => None
            case OtherLine => Standing(w)
            case Tick => Standing(w)
            case Deliver(cap, lag, io) =>
              if TakesEffect(w, cap, io) then Some(Held(cap.nonce, Capped(w.uptime + lag + 1000 * cap.ttlSecs)))
              else Standing(w)
            case DeliverRevocation(rvk, io) =>
              if RevocationTakesEffect(w, rvk, io) && Standing(w).Some? && Standing(w).value.nonce == rvk.nonce
              then None else Standing(w)
  {
  }

  /** No deadline is past the end of the uptime clock. */
  function Capped(n: nat): nat {
    if n <= MAX_U64 then n else MAX_U64
  }

  /** The mark rises to a token's number when it is fresh and ours and the write lands, and by nothing else. */
  lemma MarkExactly(w: World, e: Event)
    requires Enabled(w, e)
    ensures Next(w, e).device.mark != w.device.mark ==> e.Deliver? || e.DeliverRevocation?
    ensures e.Deliver? ==>
              (Next(w, e).device.mark == e.cap.issuedSeq != w.device.mark
               <==> && e.cap.deviceId == w.device.id && e.io.loads && e.io.write != Lost
                    && w.device.mark < e.cap.issuedSeq && e.cap.ttlSecs <= MAX_TTL_SECS
                    && (Standing(w).Some? ==> Standing(w).value.nonce == e.cap.nonce))
    ensures e.DeliverRevocation? ==>
              (Next(w, e).device.mark == e.rvk.issuedSeq != w.device.mark
               <==> && e.rvk.deviceId == w.device.id && e.io.loads && e.io.write != Lost
                    && w.device.mark < e.rvk.issuedSeq)
  {
  }

  /**
   In any run, a revocation that takes effect leaves no grant of its nonce held and the gate open only for another;
   and an unexpired grant of another nonce stays held with its deadline.
   */
  lemma RevocationCloses(worlds: seq<World>, events: seq<Event>, n: nat)
    requires Run(worlds, events) && n < |events| && events[n].DeliverRevocation?
    requires RevocationTakesEffect(worlds[n], events[n].rvk, events[n].io)
    ensures var before, after, nonce := worlds[n], worlds[n + 1].device, events[n].rvk.nonce;
            && after.mark == events[n].rvk.issuedSeq
            && (after.grant.Some? ==> after.grant.value.nonce != nonce)
            && (after.gateOpen ==> after.grant.Some? && after.grant.value.nonce != nonce)
            && (before.device.grant.Some? && before.device.grant.value.nonce != nonce
                && before.uptime < before.device.grant.value.expiresAtMs ==>
                  after.grant == before.device.grant && after.gateOpen)
  {
    hide Next, LedgerInv, IssuedInv, AnchorInv;
    HoldsExactly(worlds[n], events[n]);
    MarkExactly(worlds[n], events[n]);
    RunKeeps(worlds, events, n + 1);
  }

  /** In any run, a capability that takes effect opens the gate until exactly its life from now. */
  lemma CapabilityOpens(worlds: seq<World>, events: seq<Event>, n: nat)
    requires Run(worlds, events) && n < |events| && events[n].Deliver?
    requires TakesEffect(worlds[n], events[n].cap, events[n].io)
    ensures var after, cap, now := worlds[n + 1].device, events[n].cap, worlds[n].uptime + events[n].lag;
            && after.gateOpen && after.mark == cap.issuedSeq && after.lastClose == None
            && after.grant == Some(Held(cap.nonce, Capped(now + 1000 * cap.ttlSecs)))
  {
  }

  /** In any run, a grant is given up only at its deadline, by its own revocation, by its own renewal or by a reboot. */
  lemma GrantStands(worlds: seq<World>, events: seq<Event>, n: nat)
    requires Run(worlds, events) && n < |events|
    requires worlds[n].device.grant.Some? && worlds[n + 1].device.grant != worlds[n].device.grant
    ensures var held := worlds[n].device.grant.value;
            || held.expiresAtMs <= worlds[n].uptime
            || events[n].Reboot?
            || (events[n].Deliver? && events[n].cap.nonce == held.nonce
                && worlds[n].device.mark < events[n].cap.issuedSeq)
            || (events[n].DeliverRevocation? && events[n].rvk.nonce == held.nonce
                && worlds[n].device.mark < events[n].rvk.issuedSeq)
  {
    hide Next;
    HoldsExactly(worlds[n], events[n]);
  }

  // ---------------------------------------------------------------------------
  // Lines as events
  // ---------------------------------------------------------------------------

  /** A received token once its text is taken apart: the payload, and whether the signature over it is good. */
  datatype Unpacked = Unpacked(payload: bytes, signatureOk: bool)

  /** The device's verifier, over some way of taking token texts apart. */
  function VerifierOf(keyVer: byte, caps: string -> Option<Unpacked>, rvks: string -> Option<Unpacked>): Verifier {
    Verifier(
      t => match caps(t)
        case Some(u) => VerdictOf(Token.OpenCapability(keyVer, u.payload, u.signatureOk))
        case None => Bad,
      t => match rvks(t)
        case Some(u) => VerdictOf(Token.OpenRevocation(keyVer, u.payload, u.signatureOk))
        case None => Bad)
  }

  function VerdictOf<T>(r: Result<T, WireError>): Verdict<T> {
    match r
    case Ok(v) => Genuine(v)
    case Err(e) => if e == VersionKeyMismatch then WrongAlg else Bad
  }

  /** Only issued tokens are found genuine. */
  ghost predicate Honest(v: Verifier, issued: Token.Issued) {
    && (forall t :: v.capability(t).Genuine? ==> v.capability(t).value in issued.caps)
    && (forall t :: v.revocation(t).Genuine? ==> v.revocation(t).value in issued.rvks)
  }

  /** If good signatures stand on issued messages only, the device's verifier is honest. */
  lemma SignaturesMakeHonest(
      keyVer: byte, caps: string -> Option<Unpacked>, rvks: string -> Option<Unpacked>, issued: Token.Issued)
    requires forall t :: caps(t).Some? && caps(t).value.signatureOk ==>
               Token.WasSigned(issued, Token.CAP_PREFIX + caps(t).value.payload)
    requires forall t :: rvks(t).Some? && rvks(t).value.signatureOk ==>
               Token.WasSigned(issued, Token.RVK_PREFIX + rvks(t).value.payload)
    ensures Honest(VerifierOf(keyVer, caps, rvks), issued)
  {
    hide Token.WasSigned, Token.OpenCapability, Token.OpenRevocation;
    var v := VerifierOf(keyVer, caps, rvks);
    forall t | v.capability(t).Genuine? ensures v.capability(t).value in issued.caps {
      Token.AcceptedCapWasIssued(issued, keyVer, caps(t).value.payload, caps(t).value.signatureOk);
    }
    forall t | v.revocation(t).Genuine? ensures v.revocation(t).value in issued.rvks {
      Token.AcceptedRvkWasIssued(issued, keyVer, rvks(t).value.payload, rvks(t).value.signatureOk);
    }
  }

  /** The event that a line is to an honest device. */
  function EventOf(input: string, v: Verifier, lag: nat, io: Io): Event {
    match Line.ParseCommand(input)
    case Ok(Token(t)) => (match v.capability(t) case Genuine(cap) => Deliver(cap, lag, io) case _ => OtherLine)
    case Ok(Revoke(t)) => (match v.revocation(t) case Genuine(rvk) => DeliverRevocation(rvk, io) case _ => OtherLine)
    case _ => OtherLine
  }

  /** Whatever arrives on the line, the engine does what an enabled event of the protocol does. */
  lemma EveryLineIsAnEvent(w: World, input: string, v: Verifier, lag: nat, io: Io, sensors: Sensors)
    requires Honest(v, w.issued) && w.uptime + lag < U64_LIMIT
    ensures Enabled(w, EventOf(input, v, lag, io))
    ensures Next(w, EventOf(input, v, lag, io)).device
         == LineHandled(w.device, input, v, w.uptime, w.uptime + lag, io, sensors).0
  {
    hide Line.ParseCommand;
  }
}
