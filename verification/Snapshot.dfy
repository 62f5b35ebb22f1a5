/** The stored shape of the registry, its hand-written validation, and exactly when it reloads. */
module Snapshot {
  import opened Common
  import opened Cbor
  import opened Text
  import opened GrantMachine
  import opened Registry

  /** One grant on disk: flat, with the state named and every field optional. */
  datatype GrantRecord = GrantRecord(
    state: string,
    openedAt: Option<nat>, expiresAt: Option<nat>, since: Option<nat>,
    channels: seq<Channel>,
    requestedAt: Option<nat>, approvalDeadline: Option<nat>, ttlSecs: Option<nat>,
    nonce: Option<string>, profile: Option<string>, satisfied: Option<set<string>>)

  datatype SnapshotError =
    | UnknownHosts
    | ExpiryNotAfterOpening
    | ExceedsCap(secs: nat)
    | ApprovalDeadlineNotAfterRequest
    | ApprovalWindowExceedsCap(secs: nat)
    | BadRecord(message: string)

  const BLANK: GrantRecord := GrantRecord("", None, None, None, [], None, None, None, None, None, None)

  /** A closed grant is recorded by its absence. */
  function RecordOf(g: Grant): Option<GrantRecord> {
    match g
    case Closed => None
    case Pending(requestedAt, deadline, ttl, nonce, profile, satisfied) =>
      Some(BLANK.(state := "pending", requestedAt := Some(requestedAt), approvalDeadline := Some(deadline),
                  ttlSecs := Some(ttl), nonce := Some(Hex(nonce)),
                  profile := Some(profile), satisfied := Some(satisfied)))
    case Opening(openedAt, expiresAt, channels) =>
      Some(BLANK.(state := "opening", openedAt := Some(openedAt), expiresAt := Some(expiresAt), channels := channels))
    case Open(openedAt, expiresAt, channels) =>
      Some(BLANK.(state := "open", openedAt := Some(openedAt), expiresAt := Some(expiresAt), channels := channels))
    case NeedsRevert(channels, since) =>
      Some(BLANK.(state := "needs-revert", since := Some(since), channels := channels))
  }

  predicate HasPendingFields(r: GrantRecord) {
    || r.requestedAt.Some? || r.approvalDeadline.Some? || r.ttlSecs.Some?
    || r.nonce.Some? || r.profile.Some? || r.satisfied.Some?
  }

  /** The open interval of an opening or open record. */
  function Interval(r: GrantRecord): Result<(nat, nat), SnapshotError> {
    if HasPendingFields(r) then Err(BadRecord("pending fields belong to pending only"))
    else if r.openedAt.None? then Err(BadRecord("missing opened_at"))
    else if r.expiresAt.None? then Err(BadRecord("missing expires_at"))
    else if r.since.Some? then Err(BadRecord("since belongs to needs-revert only"))
    else if r.expiresAt.value <= r.openedAt.value then Err(ExpiryNotAfterOpening)
    else if r.expiresAt.value - r.openedAt.value > MAX_TTL_SECS then
      Err(ExceedsCap(r.expiresAt.value - r.openedAt.value))
    else Ok((r.openedAt.value, r.expiresAt.value))
  }

  /** Lower-case hex of 32 bytes. */
  function ReadNonce(h: string): Result<Nonce, SnapshotError> {
    if |h| % 2 != 0 || (exists i :: 0 <= i < |h| && 'A' <= h[i] <= 'F') then Err(BadRecord("nonce is not valid hex"))
    else match Unhex(h)
      case None => Err(BadRecord("nonce is not valid hex"))
      case Some(b) => if |b| == 32 then Ok(b) else Err(BadRecord("nonce is not 32 bytes"))
  }

  function ReadTtl(secs: nat): Result<Ttl, SnapshotError> {
    if secs > MAX_TTL_SECS then Err(ExceedsCap(secs))
    else if secs == 0 then Err(BadRecord("ttl_secs is zero"))
    else Ok(secs)
  }

  function ReadPending(r: GrantRecord): Result<Grant, SnapshotError> {
    if r.openedAt.Some? || r.expiresAt.Some? || r.since.Some? then Err(BadRecord("pending holds no interval"))
    else if r.channels != [] then Err(BadRecord("a pending request has no applied channels"))
    else if r.requestedAt.None? then Err(BadRecord("missing requested_at"))
    else if r.approvalDeadline.None? then Err(BadRecord("missing approval_deadline"))
    else if r.ttlSecs.None? then Err(BadRecord("missing ttl_secs"))
    else
      var ttl :- ReadTtl(r.ttlSecs.value);
      var requestedAt, deadline := r.requestedAt.value, r.approvalDeadline.value;
      if deadline <= requestedAt then Err(ApprovalDeadlineNotAfterRequest)
      else if deadline - requestedAt > MAX_APPROVAL_WINDOW_SECS then
        Err(ApprovalWindowExceedsCap(deadline - requestedAt))
      else if r.nonce.None? then Err(BadRecord("missing nonce"))
      else
        var nonce :- ReadNonce(r.nonce.value);
        var profile := if r.profile.Some? then r.profile.value else "";
        var satisfied := if r.satisfied.Some? then r.satisfied.value else {};
        Ok(Pending(requestedAt, deadline, ttl, nonce, profile, satisfied))
  }

  function PartsOf(r: GrantRecord): Result<Grant, SnapshotError> {
    if r.state == "pending" then ReadPending(r)
    else if r.state == "opening" then
      var (openedAt, expiresAt) :- Interval(r);
      Ok(Opening(openedAt, expiresAt, r.channels))
    else if r.state == "open" then
      var (openedAt, expiresAt) :- Interval(r);
      Ok(Open(openedAt, expiresAt, r.channels))
    else if r.state == "needs-revert" then
      if HasPendingFields(r) then Err(BadRecord("pending fields belong to pending only"))
      else if r.openedAt.Some? || r.expiresAt.Some? then Err(BadRecord("needs-revert carries only since and channels"))
      else if r.since.None? then Err(BadRecord("missing since"))
      else Ok(NeedsRevert(r.channels, r.since.value))
    else Err(BadRecord("unknown state"))
  }

  /** What is on disk for each state, field by field; the rest is absent. */
  lemma RecordFields(g: Grant)
    ensures RecordOf(g) == None <==> g.Closed?
    ensures g.Open? ==>
              RecordOf(g)
              == Some(GrantRecord("open", Some(g.openedAt), Some(g.expiresAt), None, g.channels,
                                  None, None, None, None, None, None))
    ensures g.Opening? ==>
              RecordOf(g)
              == Some(GrantRecord("opening", Some(g.openedAt), Some(g.expiresAt), None, g.channels,
                                  None, None, None, None, None, None))
    ensures g.NeedsRevert? ==>
              RecordOf(g)
              == Some(GrantRecord("needs-revert", None, None, Some(g.since), g.channels,
                                  None, None, None, None, None, None))
    ensures g.Pending? ==>
              RecordOf(g)
              == Some(GrantRecord("pending", None, None, None, [],
                                  Some(g.requestedAt), Some(g.approvalDeadline), Some(g.ttl), Some(Hex(g.nonce)),
                                  Some(g.profile), Some(g.satisfied)))
  {
  }

  /** A record with the two fields that older pending records lack filled in. */
  function Completed(r: GrantRecord): GrantRecord {
    if r.state != "pending" then r
    else r.(profile := Some(if r.profile.Some? then r.profile.value else ""),
            satisfied := Some(if r.satisfied.Some? then r.satisfied.value else {}))
  }

  /** Whatever is read would be written back as it stands, so nothing in a record is ignored or invented. */
  lemma ReadIsWrittenBack(r: GrantRecord)
    requires PartsOf(r).Ok?
    ensures RecordOf(PartsOf(r).value) == Some(Completed(r))
  {
    hide Hex, Unhex;
    if r.state == "pending" {
      UnhexCanonical(r.nonce.value);
    }
  }

  // ---------------------------------------------------------------------------
  // The whole document
  // ---------------------------------------------------------------------------

  type Doc = map<string, GrantRecord>

  function SnapshotOf(grants: Grants): Doc {
    map h | h in grants && !grants[h].Closed? :: RecordOf(grants[h]).value
  }

  /** The registry a valid document describes. */
  ghost function Restored(inventory: set<string>, doc: Doc): Grants
    requires forall h :: h in doc ==> PartsOf(doc[h]).Ok?
  {
    map h | h in inventory :: if h in doc then PartsOf(doc[h]).value else Closed
  }

  /** Restores host by host into a fresh registry; the first bad record refuses the whole document. */
  method FromParts(inventory: set<string>, doc: Doc) returns (r: Result<Grants, SnapshotError>)
    ensures r.Ok? <==> doc.Keys <= inventory && forall h :: h in doc ==> PartsOf(doc[h]).Ok?
    ensures r.Ok? ==> r.value == Restored(inventory, doc)
    ensures r.Err? ==>
              || (r.error == UnknownHosts && !(doc.Keys <= inventory))
              || exists h :: h in doc && PartsOf(doc[h]) == Err(r.error)
  {
    hide PartsOf;
    if !(doc.Keys <= inventory) {
      return Err(UnknownHosts);
    }
    var grants: Grants := map h | h in inventory :: Closed;
    var todo := doc.Keys;
    while todo != {}
      invariant todo <= doc.Keys
      invariant grants.Keys == inventory
      invariant forall h :: h in doc && h !in todo ==> PartsOf(doc[h]).Ok? && grants[h] == PartsOf(doc[h]).value
      invariant forall h :: h in inventory && (h !in doc || h in todo) ==> grants[h] == Closed
      decreases todo
    {
      var h :| h in todo;
      todo := todo - {h};
      var parts := PartsOf(doc[h]);
      if parts.Err? {
        return Err(parts.error);
      }
      grants := grants[h := parts.value];
    }
    r := Ok(grants);
  }

  // ---------------------------------------------------------------------------
  // Exactly when a snapshot reloads
  // ---------------------------------------------------------------------------

  /** The interval of a stored grant is positive and at most a day. */
  predicate Reloadable(g: Grant) {
    match g
    case Pending(requestedAt, deadline, _, _, _, _) => requestedAt < deadline <= requestedAt + 86400
    case Opening(openedAt, expiresAt, _) => openedAt < expiresAt <= openedAt + 86400
    case Open(openedAt, expiresAt, _) => openedAt < expiresAt <= openedAt + 86400
    case _ => true
  }

  lemma {:induction false} HexIsLower(s: bytes)
    ensures forall i :: 0 <= i < |Hex(s)| ==> !('A' <= Hex(s)[i] <= 'F')
  {
    if s != [] {
      HexIsLower(s[..|s| - 1]);
    }
  }

  lemma NonceRoundTrip(nonce: Nonce)
    ensures ReadNonce(Hex(nonce)) == Ok(nonce)
  {
    hide Hex, Unhex;
    HexIsLower(nonce);
    HexRoundTrip(nonce);
  }

  /** A record reloads to the grant it was written from exactly when its interval is in range. */
  lemma RecordReloads(g: Grant)
    requires !g.Closed?
    ensures PartsOf(RecordOf(g).value) == Ok(g) <==> Reloadable(g)
    ensures !Reloadable(g) ==> PartsOf(RecordOf(g).value).Err?
  {
    hide Hex, ReadNonce;
    if g.Pending? {
      NonceRoundTrip(g.nonce);
    }
  }

  /** The registry survives a restart exactly when every stored interval is in range. */
  lemma RegistryReloads(grants: Grants)
    ensures (forall h :: h in SnapshotOf(grants) ==> PartsOf(SnapshotOf(grants)[h]).Ok?)
       <==> (forall h :: h in grants ==> Reloadable(grants[h]))
    ensures (forall h :: h in grants ==> Reloadable(grants[h])) ==>
              (forall h :: h in SnapshotOf(grants) ==> PartsOf(SnapshotOf(grants)[h]).Ok?)
              && Restored(grants.Keys, SnapshotOf(grants)) == grants
  {
    hide PartsOf, RecordOf, Reloadable;
    forall h | h in grants && !grants[h].Closed?
      ensures PartsOf(SnapshotOf(grants)[h]).Ok? <==> Reloadable(grants[h])
      ensures Reloadable(grants[h]) ==> PartsOf(SnapshotOf(grants)[h]) == Ok(grants[h])
    {
      RecordReloads(grants[h]);
    }
    forall h | h in grants && grants[h].Closed? ensures Reloadable(grants[h]) {
      ClosedReloads();
    }
  }

  lemma ClosedReloads()
    ensures Reloadable(Closed)
  {
  }

  /** The configured approval window is positive and at most a day. */
  predicate WindowInRange(m: Move) {
    m.DoBeginPending? ==> m.now < m.deadline <= m.now + MAX_APPROVAL_WINDOW_SECS
  }

  /**
   Every transition but renewal keeps a grant reloadable; a renewal does exactly while the whole life fits the cap.
   */
  lemma ReloadabilityOfMoves(g: Grant, m: Move)
    requires Reloadable(g) && WindowInRange(m) && Attempt(g, m).Ok?
    ensures !m.DoRenew? ==> Reloadable(Attempt(g, m).value)
    ensures m.DoRenew? ==>
              (Reloadable(Attempt(g, m).value) <==> g.openedAt < m.now + m.ttl <= g.openedAt + MAX_TTL_SECS)
  {
  }

  /** A two-hour grant renewed for a day at its first hour no longer reloads. */
  lemma RenewalEscapes(nonce: Nonce, channels: seq<Channel>)
    ensures var moves := [
              DoBeginPending(0, 600, 7200, nonce, "ops"), DoApprove(10, channels), DoFinishOpen, DoRenew(3610, 86400)];
            After(moves, 3) == Open(10, 7210, channels) && Reloadable(After(moves, 3))
            && After(moves, 4) == Open(10, 90010, channels) && !Reloadable(After(moves, 4))
  {
    var moves := [
      DoBeginPending(0, 600, 7200, nonce, "ops"), DoApprove(10, channels), DoFinishOpen, DoRenew(3610, 86400)];
    assert After(moves, 1) == Pending(0, 600, 7200, nonce, "ops", {});
    assert After(moves, 2) == Opening(10, 7210, channels);
    assert After(moves, 3) == Open(10, 7210, channels);
  }
}
