/** What each daemon operation may do to the stored grants as a whole. */
module LifecycleSteps {
  import opened Common
  import opened Policy
  import opened Evaluation
  import opened GrantMachine
  import opened Registry
  import opened Snapshot
  import opened LifecycleState

  /** A drill's approval deadline; a window that overflows the clock is dropped. */
  function DrillDeadline(now: nat, window: nat): nat {
    if now + window <= CLOCK_MAX then now + window else now
  }

  /** A drill's request reloads exactly when its window does not overflow the clock. */
  lemma DrillReloads(now: nat, window: nat, nonce: Nonce)
    requires 0 < window <= MAX_APPROVAL_WINDOW_SECS
    ensures Reloadable(Pending(now, DrillDeadline(now, window), DRILL_TTL_SECS, nonce, DRILL_PROFILE, {}))
       <==> now <= CLOCK_MAX - window
    ensures !Reloadable(Pending(CLOCK_MAX, DrillDeadline(CLOCK_MAX, window), DRILL_TTL_SECS, nonce, DRILL_PROFILE, {}))
  {
  }

  /** At most one opening was logged, and it is this one. */
  ghost predicate OpenedAtMost(h: string, pending: Grant, now: nat, w: Warrant, before: Log, after: Log) {
    && after.proofs == before.proofs
    && (after.openings == before.openings
        || exists granted :: after.openings == before.openings + [Opened(h, pending, now, granted, w)])
  }

  function WithProof(g: Grant, id: string): Grant
    requires g.Pending?
  {
    g.(satisfied := g.satisfied + {id})
  }

  /** A pending request after the proofs of `ids`, in that order. */
  function WithProofs(g: Grant, ids: seq<string>): (r: Grant)
    requires g.Pending?
    ensures r.Pending?
  {
    if ids == [] then g else WithProof(WithProofs(g, ids[..|ids| - 1]), ids[|ids| - 1])
  }

  lemma {:induction false} ProofsAreASet(g: Grant, ids: seq<string>)
    requires g.Pending?
    ensures forall id :: id in WithProofs(g, ids).satisfied <==> id in g.satisfied || id in ids
    ensures WithProofs(g, ids) == g.(satisfied := WithProofs(g, ids).satisfied)
  {
    if ids != [] {
      ProofsAreASet(g, ids[..|ids| - 1]);
      assert ids == ids[..|ids| - 1] + [ids[|ids| - 1]];
    }
  }

  /** Neither the order of proofs nor a repeated proof changes the request, and so never the decision. */
  lemma ProofOrderIsIrrelevant(m: Model, cfg: HostCfg, g: Grant, ids: seq<string>, ids': seq<string>, now: nat)
    requires g.Pending? && forall id :: id in ids <==> id in ids'
    ensures WithProofs(g, ids) == WithProofs(g, ids')
    ensures MetAt(m, cfg, WithProofs(g, ids), now) <==> MetAt(m, cfg, WithProofs(g, ids'), now)
  {
    hide WithProofs, PolicyMet;
    ProofsAreASet(g, ids);
    ProofsAreASet(g, ids');
    assert WithProofs(g, ids).satisfied == WithProofs(g, ids').satisfied;
  }

  /** A met request stays met: later instants and further proofs only add weight. */
  lemma MetStaysMet(m: Model, cfg: HostCfg, g: Grant, ids: seq<string>, now: nat, later: nat)
    requires g.Pending? && now <= later && MetAt(m, cfg, g, now)
    ensures MetAt(m, cfg, WithProofs(g, ids), later)
  {
    hide WithProofs, Met, Validated, Governs;
    ProofsAreASet(g, ids);
    var a :| Governs(m, cfg, g.profile, a) && Met(m, a, g.satisfied, Elapsed(g, now));
    MetMonotone(m, a, g.satisfied, Elapsed(g, now), WithProofs(g, ids).satisfied, Elapsed(g, later));
  }

  /** Every channel of an open grant went in, and the dead-man it wants is set to its expiry. */
  ghost predicate InPlace(cfg: HostCfg, g: Grant, host: Host) {
    && g.Open? && (forall c :: c in g.channels ==> c in host.live)
    && (WantsDeadman(cfg, g.channels) ==> host.deadMan.Waiting? && host.deadMan.notice.deadline == g.expiresAt)
  }

  /** Nothing is left for a sweep to do: an open grant has not expired, and a request has not lapsed. */
  predicate Swept(g: Grant, now: nat) {
    (g.Open? ==> now < g.expiresAt) && (g.Pending? ==> now < g.approvalDeadline)
  }

  ghost predicate AllSwept(store: Grants, now: nat) {
    forall h :: h in store ==> Swept(store[h], now)
  }

  ghost predicate SweptFrom(before: Grants, after: Grants, now: nat) {
    after.Keys == before.Keys && forall h :: h in before ==> after[h] == Lapse(Reap(before[h], now), now)
  }

  /** Only hosts that needed a revert moved, to closed or still needing one. */
  ghost predicate RevertsOnly(before: Grants, after: Grants) {
    && after.Keys == before.Keys
    && forall h :: h in before ==>
         if before[h].NeedsRevert? then after[h].Closed? || after[h].NeedsRevert? else after[h] == before[h]
  }

  /** A revert was attempted on every channel that has a driver. */
  ghost predicate Attempted(h: string, channels: seq<Channel>, drivers: set<Channel>, calls: seq<Call>) {
    forall c :: c in channels && c in drivers ==> Revert(h, c, Yes) in calls || Revert(h, c, No) in calls
  }

  /** Something on this host did not come out when asked. */
  ghost predicate Resisted(h: string, calls: seq<Call>) {
    exists call :: call in calls && call.host == h && (call.Revert? || call.Disarm?) && call.answer != Yes
  }

  /** A revert was attempted, and the host is closed unless something resisted. */
  ghost predicate WorkedOn(h: string, channels: seq<Channel>, after: Grant, drivers: set<Channel>, calls: seq<Call>) {
    Attempted(h, channels, drivers, calls) && (after.Closed? || (after.NeedsRevert? && Resisted(h, calls)))
  }

  ghost predicate AllWorkedOn(
      first: Grants, store: Grants, todo: set<string>, drivers: set<Channel>, calls: seq<Call>)
  {
    forall h :: h in first && h !in todo && first[h].NeedsRevert? ==>
      h in store && WorkedOn(h, first[h].channels, store[h], drivers, calls)
  }

  /** Expired, or already needing a revert. */
  predicate Due(g: Grant, now: nat) {
    g.NeedsRevert? || (g.Open? && g.expiresAt <= now)
  }

  ghost predicate Retried(before: Grants, after: Grants, drivers: set<Channel>, now: nat, calls: seq<Call>) {
    forall h :: h in before && Due(before[h], now) ==>
      h in after && WorkedOn(h, before[h].channels, after[h], drivers, calls)
  }

  /**
   What a pass may do to each host: what is due ends closed or needing a revert, a lapsed request is closed, a
   request in time is left alone unless a wait has ripened it, and everything else stays as it is.
   */
  ghost predicate Spared(
      approval: Option<Model>, inventory: Inventory, before: Grants, after: Grants, now: nat)
  {
    && after.Keys == before.Keys
    && forall h :: h in before ==> SparedOne(approval, inventory, h, before[h], after[h], now)
  }

  ghost predicate SparedOne(
      approval: Option<Model>, inventory: Inventory, h: string, before: Grant, after: Grant, now: nat)
  {
    if before.NeedsRevert? || (before.Open? && before.expiresAt <= now) then after.Closed? || after.NeedsRevert?
    else if before.Pending? && before.approvalDeadline <= now then after == Closed
    else if before.Pending? then
      after == before || (approval.Some? && h in inventory && Ripe(approval.value, inventory[h], before, now))
    else after == before
  }

  /** Only requests that a wait has ripened moved. */
  ghost predicate OpensOnly(m: Model, inventory: Inventory, before: Grants, after: Grants, now: nat) {
    && after.Keys == before.Keys
    && forall h :: h in before ==>
         after[h] == before[h] || (h in inventory && Ripe(m, inventory[h], before[h], now))
  }

  ghost predicate NoneOpening(store: Grants) {
    forall h :: h in store ==> !store[h].Opening?
  }

  /** Only unexpired open grants moved, only to needs-revert with everything they hold, and only for lost access. */
  ghost predicate RetractsOnly(before: Grants, after: Grants, drivers: set<Channel>, calls: seq<Call>, now: nat) {
    && after.Keys == before.Keys
    && forall h :: h in before ==> after[h] == before[h] || RetractedOne(h, before[h], after[h], drivers, calls, now)
  }

  ghost predicate RetractedOne(
      h: string, before: Grant, after: Grant, drivers: set<Channel>, calls: seq<Call>, now: nat)
  {
    && before.Open? && now < before.expiresAt
    && after == NeedsRevert(before.channels, now) && LostAccess(h, before, drivers, calls)
  }

  /** Every channel of the grant has a driver that confirmed it open, and is. */
  ghost predicate Reconfirmed(h: string, g: Grant, live: set<Channel>, drivers: set<Channel>, calls: seq<Call>) {
    HoldsAccess(g) && forall c :: c in g.channels ==> c in live && c in drivers && Confirm(h, c, Yes) in calls
  }

  /** Some channel of the grant has no driver, or its driver did not confirm it. */
  ghost predicate LostAccess(h: string, g: Grant, drivers: set<Channel>, calls: seq<Call>) {
    HoldsAccess(g) && exists c :: c in g.channels && (c !in drivers || Confirm(h, c, No) in calls)
  }

  /** Every channel was asked to come back, once each, in order, whatever the others answered. */
  predicate ConfirmsInTurn(h: string, cs: seq<Channel>, drivers: set<Channel>, calls: seq<Call>) {
    |calls| == |cs| && forall i :: 0 <= i < |cs| ==> ConfirmOf(h, cs[i], drivers, calls[i])
  }

  predicate ConfirmOf(h: string, c: Channel, drivers: set<Channel>, call: Call) {
    call == Confirm(h, c, call.answer) && (call.answer == NoDriver <==> c !in drivers)
  }

  predicate AllYes(calls: seq<Call>) {
    forall i :: 0 <= i < |calls| ==> calls[i].answer == Yes
  }

  /** Every channel that was confirmed is live. */
  predicate YesIsLive(cs: seq<Channel>, calls: seq<Call>, live: set<Channel>) {
    |calls| <= |cs| && forall i :: 0 <= i < |calls| && calls[i].answer == Yes ==> cs[i] in live
  }

  lemma NoneConfirmed(h: string, cs: seq<Channel>, drivers: set<Channel>, live: set<Channel>)
    ensures ConfirmsInTurn(h, cs[..0], drivers, []) && AllYes([]) && YesIsLive(cs[..0], [], live)
  {
  }

  lemma ConfirmsNext(
      h: string, cs: seq<Channel>, drivers: set<Channel>, k: nat, calls: seq<Call>, answer: Answer,
      live: set<Channel>, live': set<Channel>)
    requires k < |cs| && ConfirmsInTurn(h, cs[..k], drivers, calls) && YesIsLive(cs[..k], calls, live)
    requires live <= live' && (answer == NoDriver <==> cs[k] !in drivers) && (answer == Yes ==> cs[k] in live')
    ensures var calls' := calls + [Confirm(h, cs[k], answer)];
            && ConfirmsInTurn(h, cs[..k + 1], drivers, calls') && YesIsLive(cs[..k + 1], calls', live')
            && (AllYes(calls') <==> AllYes(calls) && answer == Yes)
  {
    var calls' := calls + [Confirm(h, cs[k], answer)];
    assert calls'[k].answer == answer && calls'[..k] == calls;
    assert forall i :: 0 <= i < k ==> calls'[i] == calls[i];
  }

  lemma ConfirmedAll(h: string, g: Grant, live: set<Channel>, drivers: set<Channel>, calls: seq<Call>)
    requires HoldsAccess(g) && ConfirmsInTurn(h, g.channels, drivers, calls)
    requires YesIsLive(g.channels, calls, live)
    ensures if AllYes(calls) then Reconfirmed(h, g, live, drivers, calls) else LostAccess(h, g, drivers, calls)
  {
    if AllYes(calls) {
      forall c | c in g.channels ensures c in live && c in drivers && Confirm(h, c, Yes) in calls {
        var i :| 0 <= i < |g.channels| && g.channels[i] == c;
        assert ConfirmOf(h, g.channels[i], drivers, calls[i]);
      }
    } else {
      var i :| 0 <= i < |calls| && calls[i].answer != Yes;
      assert ConfirmOf(h, g.channels[i], drivers, calls[i]);
      assert calls[i] in calls && g.channels[i] in g.channels;
    }
  }

  /** Every grant observed open was reconfirmed: none claims access it does not have. */
  ghost predicate AllReconfirmed(
      store: Grants, hosts: map<string, Host>, drivers: set<Channel>, calls: seq<Call>, todo: set<string>, now: nat) {
    forall h :: h in store && h !in todo && store[h].Open? && now < store[h].expiresAt ==>
      h in hosts && Reconfirmed(h, store[h], hosts[h].live, drivers, calls)
  }

  /** A pending request that could be opened now, and only because time has passed. */
  ghost predicate Ripe(m: Model, cfg: HostCfg, g: Grant, now: nat) {
    && g.Pending? && now < g.approvalDeadline && now + g.ttl <= CLOCK_MAX
    && MetAt(m, cfg, g, now) && !PolicyMet(m, cfg, g, 0)
  }

  ghost predicate NoneRipe(m: Model, inventory: Inventory, store: Grants, todo: set<string>, now: nat) {
    forall h :: h in inventory && h in store && h !in todo ==> !Ripe(m, inventory[h], store[h], now)
  }

  /** Every new opening was ripened by a wait. */
  ghost predicate OnlyMatured(before: Log, after: Log) {
    && before.proofs == after.proofs && before.openings <= after.openings
    && forall i :: |before.openings| <= i < |after.openings| ==> after.openings[i].warrant == Matured
  }

  /** Everything but the entry of `h`. */
  ghost function But<T>(h: string, m: map<string, T>): map<string, T> {
    m - {h}
  }

  lemma ButSame<T>(h: string, before: map<string, T>, after: map<string, T>)
    requires But(h, before) == But(h, after)
    ensures forall k :: k != h ==> (k in before <==> k in after)
    ensures forall k :: k != h && k in before ==> before[k] == after[k]
  {
    forall k | k != h ensures (k in before <==> k in after) && (k in before ==> before[k] == after[k]) {
      assert k in before <==> k in But(h, before);
      assert k in after <==> k in But(h, after);
    }
  }

  /** These hosts still stand as they did. */
  ghost predicate Untouched(todo: set<string>, first: Grants, store: Grants) {
    forall h :: h in todo ==> h in first && h in store && store[h] == first[h]
  }

  lemma ButAll<T>(h: string, before: map<string, T>, after: map<string, T>)
    requires But(h, before) == But(h, after) && h in before && h in after && before[h] == after[h]
    ensures before == after
  {
    hide But;
    ButSame(h, before, after);
  }

  lemma UntouchedAt(todo: set<string>, first: Grants, store: Grants, h: string)
    requires Untouched(todo, first, store) && h in todo
    ensures h in first && h in store && store[h] == first[h]
  {
  }

  lemma UntouchedStep(todo: set<string>, first: Grants, before: Grants, after: Grants, h: string)
    requires Untouched(todo, first, before) && But(h, before) == But(h, after)
    ensures Untouched(todo - {h}, first, after)
  {
    hide But;
    ButSame(h, before, after);
  }

  lemma UntouchedAll(todo: set<string>, store: Grants)
    requires todo <= store.Keys
    ensures Untouched(todo, store, store)
  {
  }

  lemma SweepReloads(g: Grant, now: nat)
    ensures Reloadable(g) ==> Reloadable(Lapse(Reap(g, now), now)) && Reloadable(Demote(g, now))
  {
  }

  lemma SweepSettles(before: Grants, after: Grants, now: nat)
    requires SweptFrom(before, after, now)
    ensures AllSwept(after, now)
  {
  }

  lemma SweptAt(store: Grants, h: string, now: nat)
    requires AllSwept(store, now) && h in store
    ensures Swept(store[h], now)
  {
  }

  lemma SweptStep(before: Grants, after: Grants, h: string, now: nat)
    requires AllSwept(before, now) && h in after && But(h, before) == But(h, after) && Swept(after[h], now)
    ensures AllSwept(after, now)
  {
    hide But;
    ButSame(h, before, after);
    hide Swept;
  }

  lemma RevertsNone(store: Grants, drivers: set<Channel>)
    ensures RevertsOnly(store, store)
    ensures AllWorkedOn(store, store, (set h | h in store && store[h].NeedsRevert?), drivers, [])
  {
  }

  lemma AttemptsAll(
      h: string, cfg: HostCfg, cs: seq<Channel>, drivers: set<Channel>, calls: seq<Call>, left: Option<seq<Channel>>,
      after: Grant)
    requires RevertAttempt(h, cfg, cs, drivers, calls, left)
    requires after.Closed? || (after.NeedsRevert? && left.Some?)
    ensures WorkedOn(h, cs, after, drivers, calls)
  {
    hide Kept, Backwards, RevertAttempt;
    InTurnOfAttempt(h, cfg, cs, drivers, calls, left);
    forall c | c in cs && c in drivers ensures Revert(h, c, Yes) in calls || Revert(h, c, No) in calls {
      var i :| 0 <= i < |cs| && Backwards(cs)[i] == c;
      assert RevertOf(h, Backwards(cs)[i], drivers, calls[..|cs|][i]);
      assert calls[..|cs|][i] == calls[i] && calls[i] in calls;
    }
    if left.Some? {
      AttemptResisted(h, cfg, cs, drivers, calls, left);
    }
  }

  lemma InTurnOfAttempt(
      h: string, cfg: HostCfg, cs: seq<Channel>, drivers: set<Channel>, calls: seq<Call>, left: Option<seq<Channel>>)
    requires RevertAttempt(h, cfg, cs, drivers, calls, left)
    ensures |cs| <= |calls| && RevertsInTurn(h, Backwards(cs), drivers, calls[..|cs|])
  {
    hide Kept, Backwards, RevertsInTurn;
  }

  /** An attempt that leaves something was resisted. */
  lemma AttemptResisted(
      h: string, cfg: HostCfg, cs: seq<Channel>, drivers: set<Channel>, calls: seq<Call>, left: Option<seq<Channel>>)
    requires RevertAttempt(h, cfg, cs, drivers, calls, left) && left.Some?
    ensures Resisted(h, calls)
  {
    hide Kept, Backwards;
    var n := |cs|;
    var kept := Kept(calls[..n]);
    if kept != [] {
      KeptExactly(calls[..n], kept[0]);
      var i :| 0 <= i < n && calls[..n][i].Revert? && calls[..n][i].answer != Yes;
      assert RevertOf(h, Backwards(cs)[i], drivers, calls[..n][i]);
      assert calls[i] in calls;
    } else {
      assert calls[n..][0] == calls[n] && calls[n] in calls;
    }
  }

  lemma WorkStep(
      first: Grants, before: Grants, after: Grants, todo: set<string>, h: string, drivers: set<Channel>,
      begun: seq<Call>, calls: seq<Call>, calls': seq<Call>)
    requires begun <= calls <= calls' && h in first && first[h].NeedsRevert?
    requires h in after && But(h, before) == But(h, after)
    requires AllWorkedOn(first, before, todo, drivers, calls[|begun|..])
    requires WorkedOn(h, first[h].channels, after[h], drivers, calls'[|calls|..])
    ensures AllWorkedOn(first, after, todo - {h}, drivers, calls'[|begun|..])
  {
    hide But, WorkedOn;
    ButSame(h, before, after);
    assert calls'[|begun|..] == calls[|begun|..] + calls'[|calls|..];
    forall k | k in first && k !in todo - {h} && first[k].NeedsRevert?
      ensures k in after && WorkedOn(k, first[k].channels, after[k], drivers, calls'[|begun|..])
    {
      if k == h {
        WorkGrows(k, first[k].channels, after[k], drivers, calls[|begun|..], calls'[|calls|..], []);
        assert calls[|begun|..] + calls'[|calls|..] + [] == calls'[|begun|..];
      } else {
        WorkGrows(k, first[k].channels, after[k], drivers, [], calls[|begun|..], calls'[|calls|..]);
        assert [] + calls[|begun|..] + calls'[|calls|..] == calls'[|begun|..];
      }
    }
  }

  lemma WorkGrows(
      h: string, channels: seq<Channel>, after: Grant, drivers: set<Channel>,
      earlier: seq<Call>, calls: seq<Call>, later: seq<Call>)
    requires WorkedOn(h, channels, after, drivers, calls)
    ensures WorkedOn(h, channels, after, drivers, earlier + calls + later)
  {
    forall call | call in calls ensures call in earlier + calls + later {
    }
    if after.NeedsRevert? {
      var call :| call in calls && call.host == h && (call.Revert? || call.Disarm?) && call.answer != Yes;
      assert call in earlier + calls + later;
    }
  }

  lemma AllRetried(
      first: Grants, swept: Grants, reverted: Grants, drivers: set<Channel>, now: nat, calls: seq<Call>)
    requires SweptFrom(first, swept, now) && AllWorkedOn(swept, reverted, {}, drivers, calls)
    ensures Retried(first, reverted, drivers, now, calls)
  {
    hide WorkedOn;
    forall h | h in first && Due(first[h], now)
      ensures h in reverted && WorkedOn(h, first[h].channels, reverted[h], drivers, calls)
    {
      assert swept[h].NeedsRevert? && swept[h].channels == first[h].channels;
    }
  }

  lemma StaysRetried(
      m: Model, inventory: Inventory, first: Grants, reverted: Grants, last: Grants, drivers: set<Channel>, now: nat,
      begun: seq<Call>, calls: seq<Call>, calls': seq<Call>)
    requires begun <= calls <= calls' && OpensOnly(m, inventory, reverted, last, now)
    requires Retried(first, reverted, drivers, now, calls[|begun|..])
    ensures Retried(first, last, drivers, now, calls'[|begun|..])
  {
    hide Attempted, Resisted, Ripe;
    assert [] + calls[|begun|..] + calls'[|calls|..] == calls'[|begun|..];
    forall h | h in first && Due(first[h], now)
      ensures h in last && WorkedOn(h, first[h].channels, last[h], drivers, calls'[|begun|..])
    {
      RipeIsPending(m, inventory, reverted, last, now, h);
      WorkGrows(h, first[h].channels, reverted[h], drivers, [], calls[|begun|..], calls'[|calls|..]);
    }
  }

  lemma RipeIsPending(m: Model, inventory: Inventory, before: Grants, after: Grants, now: nat, h: string)
    requires OpensOnly(m, inventory, before, after, now) && h in before && !before[h].Pending?
    ensures h in after && after[h] == before[h]
  {
  }

  /** A sweep and its reverts touch nothing but what is due or has lapsed. */
  lemma SweepSpares(inventory: Inventory, first: Grants, swept: Grants, reverted: Grants, now: nat)
    requires SweptFrom(first, swept, now) && RevertsOnly(swept, reverted)
    ensures Spared(None, inventory, first, reverted, now)
  {
  }

  lemma StaysSpared(m: Model, inventory: Inventory, first: Grants, reverted: Grants, last: Grants, now: nat)
    requires Spared(None, inventory, first, reverted, now) && OpensOnly(m, inventory, reverted, last, now)
    ensures Spared(Some(m), inventory, first, last, now)
  {
    forall h | h in first ensures SparedOne(Some(m), inventory, h, first[h], last[h], now) {
      assert SparedOne(None, inventory, h, first[h], reverted[h], now);
      if !reverted[h].Pending? {
        RipeIsPending(m, inventory, reverted, last, now, h);
      }
    }
  }

  lemma RevertsStep(first: Grants, before: Grants, after: Grants, h: string)
    requires RevertsOnly(first, before) && h in before && But(h, before) == But(h, after) && h in after
    requires before[h].NeedsRevert? && (after[h].Closed? || after[h].NeedsRevert?)
    ensures RevertsOnly(first, after)
  {
    hide But;
    ButSame(h, before, after);
  }

  lemma OpensNone(m: Model, inventory: Inventory, store: Grants, log: Log, now: nat)
    ensures OpensOnly(m, inventory, store, store, now) && OnlyMatured(log, log)
  {
  }

  lemma NoneMatured(log: Log)
    ensures OnlyMatured(log, log)
  {
  }

  lemma RipeNone(m: Model, inventory: Inventory, store: Grants, now: nat)
    ensures NoneRipe(m, inventory, store, (set h | h in store && store[h].Pending?), now)
  {
  }

  lemma RipeStep(m: Model, inventory: Inventory, before: Grants, after: Grants, todo: set<string>, h: string, now: nat)
    requires NoneRipe(m, inventory, before, todo, now) && But(h, before) == But(h, after)
    requires h in inventory && h in after && !Ripe(m, inventory[h], after[h], now)
    ensures NoneRipe(m, inventory, after, todo - {h}, now)
  {
    hide But;
    ButSame(h, before, after);
    hide Ripe;
  }

  lemma RetractsNone(store: Grants, hosts: map<string, Host>, drivers: set<Channel>, now: nat)
    ensures RetractsOnly(store, store, drivers, [], now)
    ensures AllReconfirmed(
              store, hosts, drivers, [], (set h | h in store && store[h].Open? && now < store[h].expiresAt), now)
  {
    hide RetractedOne;
  }

  lemma RetractsStep(
      first: Grants, before: Grants, after: Grants, drivers: set<Channel>, answers: seq<Call>, more: seq<Call>,
      h: string, now: nat)
    requires RetractsOnly(first, before, drivers, answers, now) && NoneOpening(before)
    requires h in before && h in after && But(h, before) == But(h, after)
    requires h in first && before[h] == first[h]
    requires after[h] == before[h] || RetractedOne(h, before[h], after[h], drivers, more, now)
    ensures RetractsOnly(first, after, drivers, answers + more, now) && NoneOpening(after)
  {
    hide But, LostAccess;
    ButSame(h, before, after);
    forall k | k in first
      ensures after[k] == first[k] || RetractedOne(k, first[k], after[k], drivers, answers + more, now)
    {
      if after[k] != first[k] {
        LossStays(k, first[k], drivers, if k == h then more else answers, answers + more);
      }
    }
  }

  lemma LossStays(h: string, g: Grant, drivers: set<Channel>, calls: seq<Call>, all: seq<Call>)
    requires LostAccess(h, g, drivers, calls) && forall call :: call in calls ==> call in all
    ensures LostAccess(h, g, drivers, all)
  {
  }

  lemma ReconfirmedStep(
      before: Grants, after: Grants, hosts: map<string, Host>, hosts': map<string, Host>, drivers: set<Channel>,
      todo: set<string>, h: string, now: nat, answers: seq<Call>, more: seq<Call>)
    requires h in after && h in hosts'
    requires But(h, before) == But(h, after) && But(h, hosts) == But(h, hosts')
    requires AllReconfirmed(before, hosts, drivers, answers, todo, now)
    requires after[h].Open? ==> Reconfirmed(h, after[h], hosts'[h].live, drivers, more)
    ensures AllReconfirmed(after, hosts', drivers, answers + more, todo - {h}, now)
  {
    hide But, HoldsAccess;
    ButSame(h, before, after);
    ButSame(h, hosts, hosts');
  }

  /** Part of the way through re-establishing: `todo` is left of the open grants, the rest is settled. */
  ghost predicate Reestablishing(
      first: Grants, store: Grants, hosts: map<string, Host>, drivers: set<Channel>, answers: seq<Call>,
      todo: set<string>, now: nat) {
    && NoneOpening(store) && RetractsOnly(first, store, drivers, answers, now)
    && AllReconfirmed(store, hosts, drivers, answers, todo, now)
    && Untouched(todo, first, store)
    && (forall h :: h in todo ==> h in first && first[h].Open? && now < first[h].expiresAt)
  }

  lemma ReestablishingStarts(store: Grants, hosts: map<string, Host>, drivers: set<Channel>, now: nat)
    requires NoneOpening(store)
    ensures Reestablishing(
              store, store, hosts, drivers, [],
              (set h | h in store && store[h].Open? && now < store[h].expiresAt), now)
  {
    hide NoneOpening;
    RetractsNone(store, hosts, drivers, now);
  }

  lemma ObservedOpen(store: Grants, now: nat)
    ensures (set h | h in store && Observe(store[h], now).IsOpen?)
         == (set h | h in store && store[h].Open? && now < store[h].expiresAt)
  {
  }

  lemma ReestablishingAt(
      first: Grants, store: Grants, hosts: map<string, Host>, drivers: set<Channel>, answers: seq<Call>,
      todo: set<string>, now: nat, h: string)
    requires Reestablishing(first, store, hosts, drivers, answers, todo, now) && h in todo
    ensures h in store && store[h].Open? && now < store[h].expiresAt
  {
    hide NoneOpening, RetractsOnly, AllReconfirmed;
  }

  lemma ReestablishingStep(
      first: Grants, before: Grants, after: Grants, hosts: map<string, Host>, hosts': map<string, Host>,
      drivers: set<Channel>, answers: seq<Call>, more: seq<Call>, todo: set<string>, now: nat, h: string)
    requires Reestablishing(first, before, hosts, drivers, answers, todo, now) && h in todo
    requires h in before && h in after && h in hosts'
    requires But(h, before) == But(h, after) && But(h, hosts) == But(h, hosts')
    requires after[h] == before[h] || RetractedOne(h, before[h], after[h], drivers, more, now)
    requires after[h].Open? ==> Reconfirmed(h, after[h], hosts'[h].live, drivers, more)
    ensures Reestablishing(first, after, hosts', drivers, answers + more, todo - {h}, now)
  {
    hide But, NoneOpening, RetractsOnly, AllReconfirmed, Untouched, Reconfirmed, RetractedOne;
    UntouchedAt(todo, first, before, h);
    UntouchedStep(todo, first, before, after, h);
    RetractsStep(first, before, after, drivers, answers, more, h, now);
    ReconfirmedStep(before, after, hosts, hosts', drivers, todo, h, now, answers, more);
  }

  lemma RetractsAnyway(
      first: Grants, before: Grants, after: Grants, hosts: map<string, Host>, drivers: set<Channel>,
      answers: seq<Call>, more: seq<Call>, todo: set<string>, now: nat, h: string)
    requires Reestablishing(first, before, hosts, drivers, answers, todo, now) && h in todo
    requires h in before && h in after && But(h, before) == But(h, after)
    requires after[h] == before[h] || RetractedOne(h, before[h], after[h], drivers, more, now)
    ensures NoneOpening(after) && RetractsOnly(first, after, drivers, answers + more, now)
  {
    hide But, NoneOpening, RetractsOnly, AllReconfirmed, Untouched, RetractedOne;
    UntouchedAt(todo, first, before, h);
    RetractsStep(first, before, after, drivers, answers, more, h, now);
  }

  lemma ReestablishingEnds(
      first: Grants, store: Grants, hosts: map<string, Host>, drivers: set<Channel>, answers: seq<Call>,
      todo: set<string>, now: nat)
    requires Reestablishing(first, store, hosts, drivers, answers, todo, now)
    ensures NoneOpening(store) && RetractsOnly(first, store, drivers, answers, now)
    ensures todo == {} ==> AllReconfirmed(store, hosts, drivers, answers, {}, now)
  {
    hide NoneOpening, RetractsOnly, AllReconfirmed, Untouched;
  }

  lemma OpensStep(m: Model, inventory: Inventory, first: Grants, before: Grants, after: Grants, h: string, now: nat)
    requires OpensOnly(m, inventory, first, before, now) && h in first && h in inventory && h in before
    requires before[h] == first[h] && h in after && But(h, before) == But(h, after)
    requires after[h] == before[h] || Ripe(m, inventory[h], before[h], now)
    requires after.Keys == before.Keys
    ensures OpensOnly(m, inventory, first, after, now)
  {
    hide But, Ripe;
    ButSame(h, before, after);
  }

  lemma MaturedStep(first: Log, before: Log, after: Log)
    requires OnlyMatured(first, before) && OnlyMatured(before, after)
    ensures OnlyMatured(first, after)
  {
    forall i | |first.openings| <= i < |after.openings| ensures after.openings[i].warrant == Matured {
      if i < |before.openings| {
        assert after.openings[i] == before.openings[i];
      }
    }
  }
}
