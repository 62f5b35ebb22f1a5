/**
 The daemon's lifecycle operations over a persisted store, real hosts and a
 dead-man, with a crash possible at every store write, driver call and journal
 entry. Operations on a host do not overlap.
 */
module Lifecycle {
  import opened Common
  import opened Policy
  import opened Evaluation
  import opened GrantMachine
  import opened Registry
  import opened Snapshot
  import opened LifecycleState
  import opened LifecycleSteps
  import opened Backstop

  /** How a step ended: done, the process died, or it must stop on an I/O or validation failure. */
  datatype Outcome<+T> = Done(value: T) | Crashed | Fatal {
    predicate IsFailure() {
      !Done?
    }

    function PropagateFailure<U>(): Outcome<U>
      requires !Done?
    {
      if Crashed? then Crashed else Fatal
    }

    function Extract(): T
      requires Done?
    {
      value
    }
  }

  /** The persisted and the real state at one instant, and the openings so far. */
  datatype Moment = Moment(store: Grants, hosts: map<string, Host>, openings: seq<Opened>)

  /** In this instant every possibly-applied channel of every host is recorded, guarded and accounted for. */
  ghost predicate MomentSafe(inventory: Inventory, m: Moment) {
    && m.store.Keys == m.hosts.Keys == inventory.Keys
    && forall h :: h in inventory ==> HostSafe(h, inventory[h], m.store[h], m.hosts[h], m.openings)
  }

  ghost predicate HostSafe(h: string, cfg: HostCfg, g: Grant, host: Host, openings: seq<Opened>) {
    Covered(g, host.live) && Guarded(cfg, g, host) && Backed(h, g, openings)
  }

  /** From one instant to the next no waiting dead-man is lost but by its own firing. */
  ghost predicate Follows(inventory: Inventory, m: Moment, m': Moment) {
    forall h :: h in inventory && h in m.hosts && h in m'.hosts ==> HostFollows(m.hosts[h], m'.hosts[h])
  }

  ghost predicate AllSafe(inventory: Inventory, history: seq<Moment>, openings: seq<Opened>) {
    && (forall i :: 0 <= i < |history| ==> MomentSafe(inventory, history[i]) && history[i].openings <= openings)
    && (forall i :: 0 < i < |history| ==> Follows(inventory, history[i - 1], history[i]))
  }

  datatype ApplyOutcome = Applied | Failed(at: nat, stuck: seq<Channel>)

  datatype Response =
    | Granted(expiresAt: nat)
    | StillPending
    | Cancelled
    | ClosedNow
    | AlreadyClosed
    | Renewal(expiresAt: nat)
    | DrillPassed
    | Stuck(stuck: seq<Channel>)
    | Refused

  /** What closing answers, and leaves stored, for each kind of grant it finds. */
  predicate CloseAnswers(before: Grant, r: Response, after: Grant, now: nat) {
    match before
    case Closed => r == AlreadyClosed && after == Closed
    case Pending(_, _, _, _, _, _) => r == Cancelled && after == Closed
    case Opening(_, _, _) => r == Refused && after == before
    case Open(_, _, _) => (r == ClosedNow && after == Closed) || (r.Stuck? && after == NeedsRevert(r.stuck, now))
    case NeedsRevert(_, since) =>
      (r == ClosedNow && after == Closed) || (r.Stuck? && after == NeedsRevert(r.stuck, since))
  }

  /** How an opening that was claimed ends: in place, or given up with everything it tried taken back. */
  ghost predicate Drove(
      h: string, cfg: HostCfg, cs: seq<Channel>, expiresAt: nat, drivers: set<Channel>, now: nat, calls: seq<Call>,
      host: Host, after: Grant, r: Response)
  {
    if r.Granted? then
      && r.expiresAt == expiresAt && after == Open(now, expiresAt, cs) && InPlace(cfg, after, host)
      && calls == OpenCalls(h, cfg, cs, expiresAt)
    else r == Refused && GaveUp(h, cfg, cs, expiresAt, drivers, now, calls, after)
  }

  lemma DroveSomewhere(
      h: string, cfg: HostCfg, cs: seq<Channel>, expiresAt: nat, drivers: set<Channel>, now: nat, calls: seq<Call>,
      host: Host, after: Grant, r: Response)
    requires Drove(h, cfg, cs, expiresAt, drivers, now, calls, host, after, r)
    ensures (after.Open? && after.expiresAt == expiresAt) || after.Closed? || after.NeedsRevert?
  {
    hide OpenCalls, InPlace, RevertsInTurn, StopsShort, Kept;
  }

  /** A granted opening asked everything and was refused nothing; any other was refused something. */
  lemma HowItDrove(
      h: string, cfg: HostCfg, cs: seq<Channel>, expiresAt: nat, drivers: set<Channel>, now: nat, calls: seq<Call>,
      host: Host, after: Grant, r: Response)
    requires Drove(h, cfg, cs, expiresAt, drivers, now, calls, host, after, r)
    ensures r.Granted? ==> after == Open(now, expiresAt, cs) && calls == OpenCalls(h, cfg, cs, expiresAt)
    ensures r.Granted? || (r == Refused && !AllYes(calls))
  {
    hide OpenCalls, InPlace, RevertsInTurn, Kept, Backwards;
    if !r.Granted? {
      var k: nat :| GaveUpAt(h, cfg, cs, expiresAt, drivers, now, calls, after, k);
      assert calls[..k][k - 1] == calls[k - 1];
    }
  }

  lemma NotAllYes(h: string, calls: seq<Call>, more: seq<Call>)
    requires !AllYes(calls) || Resisted(h, more)
    ensures !AllYes(calls + more)
  {
    if !AllYes(calls) {
      var i :| 0 <= i < |calls| && calls[i].answer != Yes;
      assert (calls + more)[i].answer != Yes;
    } else {
      var call :| call in more && call.answer != Yes;
      var i :| 0 <= i < |more| && more[i] == call;
      assert (calls + more)[|calls| + i].answer != Yes;
    }
  }

  /** One opening of the drill's own request, every question of an opening and then of a close, all answered yes. */
  ghost predicate Drilled(
      h: string, cfg: HostCfg, pending: Grant, drivers: set<Channel>, now: nat,
      openings: seq<Opened>, openings': seq<Opened>, calls: seq<Call>)
    requires pending.Pending?
  {
    var cs, expiresAt := Drivable(drivers, cfg.channels), now + pending.ttl;
    && openings' == openings + [Opened(h, pending, now, Opening(now, expiresAt, cs), Drill)]
    && calls == OpenCalls(h, cfg, cs, expiresAt) + CloseCalls(h, cfg, cs)
  }

  /** A restart moves a half-open grant to needs-revert, and an unexpired open one only when its access is lost. */
  ghost predicate Rebooted(
      h: string, before: Grant, after: Grant, drivers: set<Channel>, calls: seq<Call>, now: nat)
  {
    if before.Opening? then after == NeedsRevert(before.channels, now)
    else after == before || RetractedOne(h, before, after, drivers, calls, now)
  }

  /** A request that may open at an instant was carried to opening once and driven; one that may not was left. */
  ghost predicate OpenedRight(
      h: string, cfg: HostCfg, pending: Grant, drivers: set<Channel>, now: nat, w: Warrant,
      openings: seq<Opened>, openings': seq<Opened>, calls: seq<Call>, host: Host, after: Grant, r: Response)
    requires pending.Pending?
  {
    var cs, expiresAt := Drivable(drivers, cfg.channels), now + pending.ttl;
    if CanClaim(pending, now) then
      && openings' == openings + [Opened(h, pending, now, Opening(now, expiresAt, cs), w)]
      && Drove(h, cfg, cs, expiresAt, drivers, now, calls, host, after, r)
    else r == Refused && after == pending && openings' == openings && calls == []
  }

  /** A request whose policy is met opens; one that is not stays; one that no authority governs is refused. */
  ghost predicate JudgedRight(
      m: Model, h: string, cfg: HostCfg, pending: Grant, drivers: set<Channel>, now: nat,
      openings: seq<Opened>, openings': seq<Opened>, calls: seq<Call>, host: Host, after: Grant, r: Response)
    requires pending.Pending?
  {
    if MetAt(m, cfg, pending, now) then
      OpenedRight(h, cfg, pending, drivers, now, Approved, openings, openings', calls, host, after, r)
    else
      && after == pending && openings' == openings && calls == []
      && r == if Ungoverned(m, cfg, pending.profile) then Refused else StillPending
  }

  /** What a revert attempt says is left to revert. */
  function LeftBy(r: Response): Option<seq<Channel>> {
    if r.Stuck? then Some(r.stuck) else None
  }

  /** What closing asks of a host that holds access, and that it asks nothing of any other. */
  ghost predicate CloseAsks(
      h: string, cfg: HostCfg, before: Grant, drivers: set<Channel>, calls: seq<Call>, r: Response)
  {
    if before.Open? || before.NeedsRevert? then
      RevertAttempt(h, cfg, before.channels, drivers, calls, LeftBy(r))
    else calls == []
  }

  /** What operators and the timer ask of a running daemon. */
  datatype Ask =
    | AskOpen(host: string, ttl: Ttl, profile: Option<string>, nonce: Nonce, now: nat)
    | AskApprove(host: string, verdict: Option<string>, now: nat)
    | AskRenew(host: string, ttl: Ttl, now: nat)
    | AskClose(host: string, now: nat)
    | AskDrill(host: string, nonce: Nonce, now: nat)
    | AskPass(now: nat)

  /** A dead-man fires only when its deadline has come. */
  predicate CanFire(host: Host, now: nat) {
    host.deadMan.Waiting? && host.deadMan.notice.deadline <= now
  }

  /** One event of a run: a question, a restart with some set of drivers, a dead-man firing, lost access. */
  datatype Op =
    | Asks(ask: Ask)
    | Restart(drivers: set<Channel>, now: nat)
    | Fires(host: string, now: nat, run: ScriptRun)
    | Loses(host: string, gone: set<Channel>)

  /** What serving a question leaves behind. */
  ghost predicate Answered(
      approval: Option<Model>, inventory: Inventory, ask: Ask, before: Grants, after: Grants, r: Option<Response>)
  {
    match ask
    case AskPass(now) => AllSwept(after, now) && Spared(approval, inventory, before, after, now)
    case AskOpen(h, ttl, _, nonce, now) =>
      r == Some(StillPending) <==>
        h in after && after[h].Pending? && after != before && after[h].ttl == ttl && after[h].nonce == nonce
    case AskApprove(h, verdict, now) =>
      r.Some? && (r.value.Granted? ==> h in after && after[h].Open? && after[h].openedAt == now)
    case AskRenew(h, ttl, now) =>
      r == Some(Refused) || (r == Some(Renewal(now + ttl)) && h in after && after[h].Open?
                             && after[h].expiresAt == now + ttl)
    case AskClose(h, now) =>
      r.Some? && (h in before && h in after ==> CloseAnswers(before[h], r.value, after[h], now))
    case AskDrill(h, _, _) => r == Some(Refused) || (r == Some(DrillPassed) && h in after && after[h].Closed?)
  }

  class Daemon {
    const inventory: Inventory
    const approval: Option<Model>
    const approvalWindow: nat
    var drivers: set<Channel>
    var store: Grants
    ghost var hosts: map<string, Host>
    ghost var log: Log
    ghost var calls: seq<Call>
    ghost var history: seq<Moment>

    /** What holds between any two steps, and so after any crash. */
    ghost predicate Valid()
      reads this`store, this`hosts, this`log, this`history
    {
      Shape() && Facts()
    }

    ghost predicate Shape()
      reads this`store, this`hosts
    {
      && store.Keys == inventory.Keys && hosts.Keys == inventory.Keys
      && 0 < approvalWindow <= MAX_APPROVAL_WINDOW_SECS
    }

    ghost predicate Facts()
      reads this`store, this`hosts, this`log, this`history
      requires Shape()
    {
      && Truths()
      && history != [] && history[|history| - 1] == Moment(store, hosts, log.openings)
    }

    ghost predicate Truths()
      reads this`store, this`hosts, this`log, this`history
      requires Shape()
    {
      && (approval.Some? ==> PoliciesLoaded(inventory, approval.value))
      && (forall h :: h in inventory ==> HostIsOk(h))
      && AllWarranted(inventory, approval, log)
      && AllSafe(inventory, history, log.openings)
    }

    lemma FactOf(h: string)
      requires Valid() && h in inventory
      ensures HostIsOk(h) && (Loads() ==> Reloadable(store[h]))
      ensures HoldsAccess(store[h]) ==> Within(hosts[h].live, store[h].channels)
      ensures !HoldsAccess(store[h]) ==> hosts[h].live == {}
      ensures Proven(h, store[h], log.proofs)
      ensures store[h].Open? && WantsDeadman(inventory[h], store[h].channels) ==>
                DoneItsDuty(hosts[h].deadMan) && SetFor(hosts[h].deadMan.notice, store[h])
    {
      hide AllWarranted, AllSafe, PoliciesLoaded;
      assert HostIsOk(h);
      OkMeans(h, inventory[h], store[h], hosts[h], log);
    }

    ghost predicate HostIsOk(h: string)
      reads this`store, this`hosts, this`log
      requires h in inventory && h in store && h in hosts
    {
      HostOk(h, inventory[h], store[h], hosts[h], log)
    }

    /** The stored document passes validation. */
    predicate Loads()
      reads this`store
    {
      forall h :: h in store ==> Reloadable(store[h])
    }

    /** Nothing is stored, logged, called or applied. */
    twostate predicate Still()
      reads this
    {
      store == old(store) && hosts == old(hosts) && log == old(log) && calls == old(calls)
    }

    constructor (inventory: Inventory, approval: Option<Model>, approvalWindow: nat, drivers: set<Channel>)
      requires 0 < approvalWindow <= MAX_APPROVAL_WINDOW_SECS
      requires approval.Some? ==> PoliciesLoaded(inventory, approval.value)
      ensures Valid() && Loads() && this.inventory == inventory && this.approval == approval
      ensures forall h :: h in inventory ==> store[h] == Closed
    {
      this.inventory, this.approval, this.approvalWindow, this.drivers := inventory, approval, approvalWindow, drivers;
      store := map h | h in inventory :: Closed;
      hosts := map h | h in inventory :: Host({}, Absent);
      log, calls := Log({}, []), [];
      history := [Moment(map h | h in inventory :: Closed, map h | h in inventory :: Host({}, Absent), [])];
    }

    // -------------------------------------------------------------------------
    // Atomic steps: the only code that changes the store or the hosts
    // -------------------------------------------------------------------------

    /** Reading the store: refused as a whole when the document does not validate. */
    method Read() returns (o: Outcome<()>)
      ensures !Loads() ==> o == Fatal
      ensures o != Crashed
    {
      if !Loads() {
        return Fatal;
      }
      if * {
        return Fatal;
      }
      return Done(());
    }

    /** One locked read-modify-write of a host's grant; a refusal writes nothing, a crash lands before or after. */
    method Commit(h: string, t: Result<Grant, GrantError>) returns (o: Outcome<Result<(), GrantError>>)
      requires Valid() && h in inventory
      requires t.Ok? ==> HostOk(h, inventory[h], t.value, hosts[h], log)
      modifies this`store, this`history
      ensures Valid()
      ensures o.Done? ==> o.value == (if t.Ok? then Ok(()) else Err(t.error))
      ensures But(h, store) == But(h, old(store))
      ensures store == old(store) || (t.Ok? && store[h] == t.value)
      ensures o.Done? ==> if t.Ok? then store[h] == t.value else store == old(store)
      ensures !old(Loads()) ==> o == Fatal && store == old(store)
      ensures old(Loads()) && (t.Ok? ==> Reloadable(t.value)) ==> Loads()
      ensures old(history) <= history
    {
      hide AllWarranted, PoliciesLoaded, AllSafe, HostOk;
      if !Loads() {
        return Fatal;
      }
      if * {
        return Crashed;
      }
      if * {
        return Fatal;
      }
      if t.Err? {
        return Done(Err(t.error));
      }
      store := store[h := t.value];
      assert forall k :: k in inventory && k != h ==> old(HostIsOk(k)) ==> HostIsOk(k);
      assert Follows(inventory, Moment(old(store), old(hosts), old(log).openings), Moment(store, hosts, log.openings));
      Record();
      if * {
        return Crashed;
      }
      return Done(Ok(()));
    }

    ghost method Record()
      requires Shape() && Truths()
      requires history != [] && Follows(inventory, history[|history| - 1], Moment(store, hosts, log.openings))
      modifies this`history
      ensures Valid()
      ensures history == old(history) + [Moment(store, hosts, log.openings)]
    {
      hide AllWarranted, PoliciesLoaded, Covered, Guarded, Proven, Backed, Follows;
      var now := Moment(store, hosts, log.openings);
      history := history + [now];
      assert forall h :: h in inventory ==>
                           old(HostIsOk(h)) ==> HostSafe(h, inventory[h], store[h], hosts[h], log.openings);
      OneMoreMoment(inventory, old(history), now, log.openings);
    }

    /** A journal or ledger write; failing one stops the daemon. */
    method Journal() returns (o: Outcome<()>) {
      if * {
        return Crashed;
      }
      if * {
        return Fatal;
      }
      return Done(());
    }

    /** What really happens on a host; nothing else touches one. */
    ghost method SetHost(h: string, host: Host)
      requires Valid() && h in inventory
      requires HostOk(h, inventory[h], store[h], host, log) && HostFollows(hosts[h], host)
      modifies this`hosts, this`history
      ensures Valid() && hosts == old(hosts)[h := host]
      ensures old(history) <= history
    {
      hide AllWarranted, PoliciesLoaded, AllSafe, HostOk;
      hosts := hosts[h := host];
      assert forall k :: k in inventory && k != h ==> old(HostIsOk(k)) ==> HostIsOk(k);
      Record();
    }

    /** A failed apply may be half applied. */
    method DriverApply(h: string, c: Channel) returns (o: Outcome<bool>)
      requires Valid() && h in inventory && c in drivers
      requires store[h].Opening? && c in store[h].channels
      modifies this`hosts, this`calls, this`history
      ensures Valid() && But(h, hosts) == But(h, old(hosts))
      ensures old(hosts[h]).live <= hosts[h].live <= old(hosts[h]).live + {c}
      ensures o == Done(true) ==> c in hosts[h].live
      ensures o.Done? ==> calls == old(calls) + [Apply(h, c, Said(o.value))]
      ensures old(calls) <= calls
      ensures hosts[h].deadMan == old(hosts[h]).deadMan
      ensures old(history) <= history
    {
      hide Facts, HostOk;
      var ok: bool := *;
      ghost var landed: bool := *;
      FactOf(h);
      calls := calls + [Apply(h, c, Said(ok))];
      if ok || landed {
        OkMoves(h, inventory[h], store[h], hosts[h], hosts[h].live + {c}, log);
        SetHost(h, hosts[h].(live := hosts[h].live + {c}));
      }
      if * {
        return Crashed;
      }
      return Done(ok);
    }

    /** A successful revert means the channel is closed; a failed one means nothing. */
    method DriverRevert(h: string, c: Channel) returns (o: Outcome<bool>)
      requires Valid() && h in inventory && c in drivers
      modifies this`hosts, this`calls, this`history
      ensures Valid() && But(h, hosts) == But(h, old(hosts))
      ensures hosts[h].live <= old(hosts[h]).live
      ensures o == Done(true) ==> c !in hosts[h].live
      ensures o.Done? ==> calls == old(calls) + [Revert(h, c, Said(o.value))]
      ensures old(calls) <= calls
      ensures hosts[h].deadMan == old(hosts[h]).deadMan
      ensures old(history) <= history
    {
      hide Facts, HostOk;
      var ok: bool := *;
      ghost var landed: bool := *;
      FactOf(h);
      calls := calls + [Revert(h, c, Said(ok))];
      if ok || landed {
        OkMoves(h, inventory[h], store[h], hosts[h], hosts[h].live - {c}, log);
        SetHost(h, hosts[h].(live := hosts[h].live - {c}));
      }
      if * {
        return Crashed;
      }
      return Done(ok);
    }

    /** Telling a channel of an open grant its new deadline; one that keeps its own may come up again. */
    method DriverExtend(h: string, c: Channel) returns (o: Outcome<bool>)
      requires Valid() && h in inventory && c in drivers
      requires store[h].Open? && c in store[h].channels
      modifies this`hosts, this`calls, this`history
      ensures Valid() && But(h, hosts) == But(h, old(hosts))
      ensures old(hosts[h]).live <= hosts[h].live <= old(hosts[h]).live + ({c} - SSH_BORNE)
      ensures o.Done? ==> calls == old(calls) + [Extend(h, c, Said(o.value))]
      ensures old(calls) <= calls
      ensures hosts[h].deadMan == old(hosts[h]).deadMan
      ensures old(history) <= history
    {
      hide Facts, HostOk;
      var ok: bool := *;
      ghost var landed: bool := *;
      FactOf(h);
      calls := calls + [Extend(h, c, Said(ok))];
      if landed && c !in SSH_BORNE {
        OkMoves(h, inventory[h], store[h], hosts[h], hosts[h].live + {c}, log);
        SetHost(h, hosts[h].(live := hosts[h].live + {c}));
      }
      if * {
        return Crashed;
      }
      return Done(ok);
    }

    /** Re-establishing a channel of an open grant; the answer is read from the host, so a confirmed channel is live. */
    method DriverReestablish(h: string, c: Channel) returns (o: Outcome<bool>)
      requires Valid() && h in inventory && c in drivers
      requires store[h].Open? && c in store[h].channels
      modifies this`hosts, this`calls, this`history
      ensures Valid() && But(h, hosts) == But(h, old(hosts))
      ensures old(hosts[h]).live <= hosts[h].live <= old(hosts[h]).live + {c}
      ensures o == Done(true) ==> c in hosts[h].live
      ensures o.Done? ==> calls == old(calls) + [Confirm(h, c, Said(o.value))]
      ensures old(calls) <= calls
      ensures hosts[h].deadMan == old(hosts[h]).deadMan
      ensures old(history) <= history
    {
      hide Facts, HostOk;
      var ok: bool := *;
      ghost var landed: bool := *;
      FactOf(h);
      calls := calls + [Confirm(h, c, Said(ok))];
      if ok || landed {
        OkMoves(h, inventory[h], store[h], hosts[h], hosts[h].live + {c}, log);
        SetHost(h, hosts[h].(live := hosts[h].live + {c}));
      }
      if * {
        return Crashed;
      }
      return Done(ok);
    }

    /** Puts the dead-man in at an opening's expiry, or moves it to a renewal's; a failed attempt may do so too. */
    method InstallDeadman(h: string, deadline: nat, now: nat) returns (o: Outcome<bool>)
      requires Valid() && h in inventory
      requires || (store[h].Opening? && deadline == store[h].expiresAt)
               || (store[h].Open? && Renewing(Notice(deadline, store[h].expiresAt, now)))
      modifies this`hosts, this`calls, this`history
      ensures Valid() && But(h, hosts) == But(h, old(hosts))
      ensures || hosts[h] == old(hosts[h])
              || hosts[h] == old(hosts[h]).(deadMan := Waiting(Notice(deadline, store[h].expiresAt, now)))
      ensures o == Done(true) ==> hosts[h].deadMan == Waiting(Notice(deadline, store[h].expiresAt, now))
      ensures o.Done? ==> calls == old(calls) + [Arm(h, deadline, Said(o.value))]
      ensures old(calls) <= calls
      ensures old(history) <= history
    {
      hide Facts, HostOk;
      var ok: bool := *;
      ghost var landed: bool := *;
      ghost var told := Waiting(Notice(deadline, store[h].expiresAt, now));
      FactOf(h);
      calls := calls + [Arm(h, deadline, Said(ok))];
      if ok || landed {
        OkDeadMan(h, inventory[h], store[h], hosts[h], told, log);
        SetHost(h, hosts[h].(deadMan := told));
      }
      if * {
        return Crashed;
      }
      return Done(ok);
    }

    /** Takes the dead-man out, once nothing it guards can be live. */
    method RemoveDeadman(h: string) returns (o: Outcome<bool>)
      requires Valid() && h in inventory && !store[h].Open? && hosts[h].live == {}
      modifies this`hosts, this`calls, this`history
      ensures Valid()
      ensures o == Done(true) ==> hosts[h].deadMan == Absent
      ensures But(h, hosts) == But(h, old(hosts))
      ensures hosts[h] == old(hosts[h]) || hosts[h] == old(hosts[h]).(deadMan := Absent)
      ensures o.Done? ==> calls == old(calls) + [Disarm(h, Said(o.value))]
      ensures old(calls) <= calls
      ensures old(history) <= history
    {
      hide Facts, HostOk;
      var ok: bool := *;
      ghost var landed: bool := *;
      FactOf(h);
      calls := calls + [Disarm(h, Said(ok))];
      if ok || landed {
        OkDeadMan(h, inventory[h], store[h], hosts[h], Absent, log);
        SetHost(h, hosts[h].(deadMan := Absent));
      }
      if * {
        return Crashed;
      }
      return Done(ok);
    }

    // -------------------------------------------------------------------------
    // What happens on a host without the daemon
    // -------------------------------------------------------------------------

    /** A dead-man past its deadline fires: what goes is what the script takes, and the dead-man goes in any case. */
    ghost method DeadmanFires(h: string, now: nat, run: ScriptRun)
      requires Valid() && h in inventory
      requires CanFire(hosts[h], now)
      modifies this`hosts, this`history
      ensures Valid() && hosts == old(hosts)[h := AfterFiring(old(hosts[h]), run, now)]
      ensures hosts[h].live * SSH_BORNE == {}
         <==> && (Ssh in old(hosts[h]).live ==> run.postureBack)
              && (AuthorizedKeys in old(hosts[h]).live ==> TakesKeys(run))
      ensures old(history) <= history
    {
      hide Facts, HostOk, TakesKeys, Taken;
      FactOf(h);
      var live, fired := hosts[h].live - Taken(run), Fired(hosts[h].deadMan.notice, now);
      OkMoves(h, inventory[h], store[h], hosts[h], live, log);
      OkDeadMan(h, inventory[h], store[h], hosts[h].(live := live), fired, log);
      LeftBehind(hosts[h].live, run);
      SetHost(h, AfterFiring(hosts[h], run, now));
    }

    /** Access that someone takes away behind the daemon's back. */
    ghost method Drift(h: string, gone: set<Channel>)
      requires Valid() && h in inventory
      modifies this`hosts, this`history
      ensures Valid() && hosts == old(hosts)[h := old(hosts[h]).(live := old(hosts[h]).live - gone)]
      ensures old(history) <= history
    {
      hide Facts, HostOk;
      FactOf(h);
      OkMoves(h, inventory[h], store[h], hosts[h], hosts[h].live - gone, log);
      SetHost(h, hosts[h].(live := hosts[h].live - gone));
    }

    // -------------------------------------------------------------------------
    // Channels
    // -------------------------------------------------------------------------

    /** Reverts in the given order, attempting every channel; returns exactly the ones that did not go, in order. */
    method RevertEach(h: string, order: seq<Channel>) returns (o: Outcome<seq<Channel>>)
      requires Valid() && h in inventory && Within(hosts[h].live, order)
      modifies this`hosts, this`calls, this`history
      ensures Valid() && But(h, hosts) == But(h, old(hosts)) && hosts[h].live <= old(hosts[h]).live
      ensures old(calls) <= calls
      ensures o.Done? ==> RevertsInTurn(h, order, drivers, calls[|old(calls)|..])
      ensures o.Done? ==> o.value == Kept(calls[|old(calls)|..])
      ensures o.Done? ==> Within(hosts[h].live, o.value)
      ensures o.Done? ==> forall c :: c in o.value ==> c in order
      ensures hosts[h].deadMan == old(hosts[h]).deadMan
      ensures old(history) <= history
    {
      hide HostOk, Facts, But, RevertsInTurn, Kept;
      var stuck: seq<Channel> := [];
      ghost var asked: seq<Call> := [];
      NothingAsked(h, order, drivers);
      for k := 0 to |order|
        invariant Valid() && But(h, hosts) == But(h, old(hosts)) && hosts[h].live <= old(hosts[h]).live
        invariant old(history) <= history
        invariant hosts[h].deadMan == old(hosts[h]).deadMan
        invariant Within(hosts[h].live, order[k..] + stuck)
        invariant calls == old(calls) + asked && stuck == Kept(asked)
        invariant RevertsInTurn(h, order[..k], drivers, asked)
      {
        var c := order[k];
        assert order[k..] == [c] + order[k + 1..];
        ghost var answer := NoDriver;
        if c in drivers {
          var ok :- DriverRevert(h, c);
          answer := Said(ok);
          if !ok {
            stuck := stuck + [c];
          }
        } else {
          calls := calls + [Revert(h, c, NoDriver)];
          stuck := stuck + [c];
        }
        InTurnNext(h, order, drivers, k, asked, Revert(h, c, answer));
        asked := asked + [Revert(h, c, answer)];
      }
      assert order[..|order|] == order && calls[|old(calls)|..] == asked;
      KeptNothing(h, order, drivers, asked);
      return Done(stuck);
    }

    /** Reverts a channel that refused and then the ones before it, newest first. */
    method TakeBack(
        h: string, channels: seq<Channel>, k: nat, ghost first: seq<Call>) returns (o: Outcome<ApplyOutcome>)
      requires Valid() && h in inventory && k < |channels| && Within(hosts[h].live, channels[..k + 1])
      requires calls == first + (Applies(h, channels[..k]) + [Apply(h, channels[k], No)])
      modifies this`hosts, this`calls, this`history
      ensures Valid() && But(h, hosts) == But(h, old(hosts))
      ensures first <= calls
      ensures o.Done? ==>
                && o.value.Failed? && o.value.at == k && Within(hosts[h].live, o.value.stuck)
                && FailedAt(h, channels, drivers, k, calls[|first|..], o.value.stuck)
                && (forall c :: c in o.value.stuck ==> c in channels)
      ensures hosts[h].deadMan == old(hosts[h]).deadMan
      ensures old(history) <= history
    {
      hide HostOk, Facts, But, RevertsInTurn, Applies, Kept, Backwards;
      ghost var asked := Applies(h, channels[..k]) + [Apply(h, channels[k], No)];
      NewestFirst(channels, k);
      AppliesLength(h, channels[..k]);
      var stuck :- RevertEach(h, [channels[k]] + Backwards(channels[..k]));
      assert calls[|first|..][..k + 1] == asked && calls[|first|..][k + 1..] == calls[|first| + k + 1..];
      return Done(Failed(k, stuck));
    }

    /** Applies in declaration order; on the first failure reverts that channel, then the applied prefix backwards. */
    method ApplyChannels(h: string, channels: seq<Channel>) returns (o: Outcome<ApplyOutcome>)
      requires Valid() && h in inventory
      requires store[h].Opening? && store[h].channels == channels && hosts[h].live == {}
      requires forall c :: c in channels ==> c in drivers
      modifies this`hosts, this`calls, this`history
      ensures Valid() && But(h, hosts) == But(h, old(hosts))
      ensures o == Done(Applied) ==> calls == old(calls) + Applies(h, channels)
      ensures o == Done(Applied) ==> forall c :: c in channels ==> c in hosts[h].live
      ensures old(calls) <= calls
      ensures o.Done? && o.value.Failed? ==>
                && Within(hosts[h].live, o.value.stuck)
                && (forall c :: c in o.value.stuck ==> c in channels)
                && FailedAt(h, channels, drivers, o.value.at, calls[|old(calls)|..], o.value.stuck)
      ensures hosts[h].deadMan == old(hosts[h]).deadMan
      ensures old(history) <= history
    {
      hide HostOk, Facts, But, Applies, FailedAt;
      assert old(calls) + Applies(h, []) == old(calls) by {
        AppliesLength(h, []);
      }
      for k := 0 to |channels|
        invariant Valid() && But(h, hosts) == But(h, old(hosts)) && hosts[h].deadMan == old(hosts[h]).deadMan
        invariant old(history) <= history
        invariant Within(hosts[h].live, channels[..k]) && forall c :: c in channels[..k] ==> c in hosts[h].live
        invariant calls == old(calls) + Applies(h, channels[..k])
      {
        assert channels[..k + 1] == channels[..k] + [channels[k]];
        PlansGrow(h, channels, k);
        var ok :- DriverApply(h, channels[k]);
        assert calls == old(calls) + (Applies(h, channels[..k]) + [Apply(h, channels[k], Said(ok))]);
        if !ok {
          o := TakeBack(h, channels, k, old(calls));
          return;
        }
      }
      assert channels[..|channels|] == channels;
      return Done(Applied);
    }

    // -------------------------------------------------------------------------
    // Opening
    // -------------------------------------------------------------------------

    /** Ends a failed open: closed when everything was unwound, else needs-revert naming what is stuck. */
    method SettleFailure(h: string, stuck: seq<Channel>, now: nat) returns (o: Outcome<()>)
      requires Valid() && h in inventory && store[h].Opening? && Within(hosts[h].live, stuck)
      requires forall c :: c in stuck ==> c in store[h].channels
      modifies this`store, this`history
      ensures Valid() && But(h, store) == But(h, old(store))
      ensures o.Done? ==> store[h] == if stuck == [] then Closed else NeedsRevert(stuck, now)
      ensures old(Loads()) ==> Loads()
      ensures !old(Loads()) ==> o == Fatal && store == old(store)
      ensures old(history) <= history
    {
      hide HostOk, Facts, But, Loads;
      FactOf(h);
      if stuck == [] {
        assert hosts[h].live == {};
        OkIdle(h, inventory[h], hosts[h], log);
        var done :- Commit(h, AbortOpen(store[h]));
        assert done.Ok?;
      } else {
        OkReverting(h, inventory[h], store[h], stuck, now, hosts[h], log);
        var done :- Commit(h, FailOpen(store[h], stuck, now));
        assert done.Ok?;
      }
      var logged :- Journal();
      return Done(());
    }

    /** Takes a fully applied opening back, newest channel first. */
    method Unwind(h: string, now: nat) returns (o: Outcome<()>)
      requires Valid() && h in inventory && store[h].Opening?
      modifies this`store, this`hosts, this`calls, this`history
      ensures Valid() && But(h, store) == But(h, old(store)) && But(h, hosts) == But(h, old(hosts))
      ensures old(calls) <= calls
      ensures o.Done? ==> RevertsInTurn(h, Backwards(old(store[h]).channels), drivers, calls[|old(calls)|..])
      ensures o.Done? ==> store[h] == AfterUndoing(calls[|old(calls)|..], now)
      ensures old(Loads()) ==> Loads()
      ensures old(history) <= history
    {
      hide HostOk, Facts, But, Loads, RevertsInTurn, Kept, Backwards;
      FactOf(h);
      var stuck :- RevertEach(h, Backwards(store[h].channels));
      o := SettleFailure(h, stuck, now);
    }

    /** Everything is applied: the dead-man goes in, then the grant is open. */
    method FinishApplied(h: string, toApply: seq<Channel>, now: nat) returns (o: Outcome<Response>)
      requires Valid() && h in inventory
      requires store[h].Opening? && store[h].channels == toApply
      modifies this`store, this`hosts, this`calls, this`history
      ensures Valid()
      ensures But(h, store) == But(h, old(store)) && But(h, hosts) == But(h, old(hosts))
      ensures old(calls) <= calls
      ensures o.Done? ==> o.value.Granted? || o.value.Refused?
      ensures o.Done? && o.value.Granted? ==>
                && store[h] == Open(old(store[h]).openedAt, old(store[h]).expiresAt, toApply)
                && o.value.expiresAt == store[h].expiresAt
                && hosts[h].live == old(hosts[h]).live
                && calls[|old(calls)|..]
                   == (if WantsDeadman(inventory[h], toApply) then [Arm(h, store[h].expiresAt, Yes)] else [])
                && (WantsDeadman(inventory[h], toApply) ==>
                      hosts[h].deadMan == Waiting(Notice(store[h].expiresAt, store[h].expiresAt, now)))
      ensures o.Done? && o.value.Refused? ==>
                var made := calls[|old(calls)|..];
                && WantsDeadman(inventory[h], toApply)
                && made != [] && made[0] == Arm(h, old(store[h]).expiresAt, No)
                && RevertsInTurn(h, Backwards(toApply), drivers, made[1..])
                && store[h] == AfterUndoing(made[1..], now)
      ensures old(Loads()) ==> Loads()
      ensures old(history) <= history
    {
      hide HostOk, Facts, But, Loads, RevertsInTurn, Kept, Backwards;
      FactOf(h);
      if WantsDeadman(inventory[h], toApply) {
        // No record is stored open while its dead-man is missing.
        var installed :- InstallDeadman(h, store[h].expiresAt, now);
        if !installed {
          var unwound :- Unwind(h, now);
          assert calls[|old(calls)|..][1..] == calls[|old(calls)| + 1..];
          return Done(Refused);
        }
      }
      FactOf(h);
      OkOpen(h, inventory[h], store[h], hosts[h], log);
      var expires := store[h].expiresAt;
      var done :- Commit(h, FinishOpen(store[h]));
      assert done.Ok?;
      var logged :- Journal();
      return Done(Granted(expires));
    }

    /**
     Drives a grant already committed to opening, installs its dead-man, and commits the end state; a refusal is
     always an answer from the host, and everything tried is taken back.
     */
    method DriveOpen(h: string, toApply: seq<Channel>, now: nat) returns (o: Outcome<Response>)
      requires Valid() && h in inventory && hosts[h].live == {}
      requires store[h].Opening? && store[h].channels == toApply
      requires forall c :: c in toApply ==> c in drivers
      modifies this`store, this`hosts, this`calls, this`history
      ensures Valid()
      ensures But(h, store) == But(h, old(store)) && But(h, hosts) == But(h, old(hosts))
      ensures old(calls) <= calls
      ensures o.Done? ==> o.value.Granted? || o.value.Refused?
      ensures o.Done? && o.value.Granted? ==>
                && store[h] == Open(old(store[h]).openedAt, old(store[h]).expiresAt, toApply)
                && o.value.expiresAt == store[h].expiresAt && InPlace(inventory[h], store[h], hosts[h])
                && calls[|old(calls)|..] == OpenCalls(h, inventory[h], toApply, store[h].expiresAt)
      ensures o.Done? && o.value.Refused? ==>
                GaveUp(h, inventory[h], toApply, old(store[h]).expiresAt, drivers, now, calls[|old(calls)|..], store[h])
      ensures old(Loads()) ==> Loads()
      ensures old(history) <= history
    {
      hide HostOk, Facts, But, Loads, Applies, RevertsInTurn, Kept, Backwards, GaveUp;
      ghost var expiresAt := store[h].expiresAt;
      var outcome :- ApplyChannels(h, toApply);
      match outcome {
        case Failed(at, stuck) =>
          ghost var made := calls[|old(calls)|..];
          var settled :- SettleFailure(h, stuck, now);
          FailedIsGivenUp(h, inventory[h], toApply, expiresAt, drivers, now, at, made, stuck);
          return Done(Refused);
        case Applied =>
          ghost var n := |calls|;
          o := FinishApplied(h, toApply, now);
          ghost var made, rest := calls[|old(calls)|..], calls[n..];
          assert made == Applies(h, toApply) + rest;
          if o.Done? && o.value.Refused? {
            GivesUpAtDeadMan(h, inventory[h], toApply, expiresAt, drivers, now, rest[1..]);
            assert rest == [rest[0]] + rest[1..];
            assert made == Applies(h, toApply) + [Arm(h, expiresAt, No)] + rest[1..];
          }
      }
    }

    // -------------------------------------------------------------------------
    // Reverting
    // -------------------------------------------------------------------------

    /** Everything is reverted: the dead-man comes out, and only then is the grant closed. */
    method FinishReverted(h: string) returns (o: Outcome<Response>)
      requires Valid() && h in inventory && store[h].NeedsRevert? && hosts[h].live == {}
      modifies this`store, this`hosts, this`calls, this`history
      ensures Valid() && But(h, store) == But(h, old(store))
      ensures store[h] == old(store[h]) || store[h] == Closed
      ensures old(calls) <= calls
      ensures o.Done? ==>
                var rest := calls[|old(calls)|..];
                if !inventory[h].hasSsh then rest == [] && o.value == ClosedNow
                else && |rest| == 1 && rest[0] == Disarm(h, rest[0].answer)
                     && o.value == if rest[0].answer == Yes then ClosedNow else Stuck(old(store[h]).channels)
      ensures o.Done? ==> store[h] == if o.value.ClosedNow? then Closed else old(store[h])
      ensures o.Done? && o.value.ClosedNow? && inventory[h].hasSsh ==> hosts[h].deadMan == Absent
      ensures old(Loads()) ==> Loads()
      ensures But(h, hosts) == But(h, old(hosts)) && hosts[h].live == {}
      ensures old(history) <= history
    {
      hide HostOk, Facts, But, Loads;
      FactOf(h);
      if inventory[h].hasSsh {
        var removed :- RemoveDeadman(h);
        if !removed {
          FactOf(h);
          var kept :- Commit(h, RetainStuck(store[h], store[h].channels));
          return Done(Stuck(store[h].channels));
        }
      }
      OkIdle(h, inventory[h], hosts[h], log);
      var done :- Commit(h, FinishRevert(store[h]));
      assert done.Ok?;
      var logged :- Journal();
      return Done(ClosedNow);
    }

    /**
     One revert attempt, newest channel first: closed exactly when every channel went and the dead-man came out, else
     what is left stays recorded.
     */
    method DriveOneRevert(h: string) returns (o: Outcome<Response>)
      requires Valid() && h in inventory && store[h].NeedsRevert?
      modifies this`store, this`hosts, this`calls, this`history
      ensures Valid() && But(h, store) == But(h, old(store)) && But(h, hosts) == But(h, old(hosts))
      ensures hosts[h].live <= old(hosts[h]).live
      ensures store[h].Closed? || store[h].NeedsRevert?
      ensures old(calls) <= calls
      ensures o.Done? ==> o.value.ClosedNow? || o.value.Stuck?
      ensures o.Done? ==>
                RevertAttempt(h, inventory[h], old(store[h]).channels, drivers, calls[|old(calls)|..], LeftBy(o.value))
      ensures o.Done? && o.value.ClosedNow? ==>
                store[h] == Closed && hosts[h].live == {} && (inventory[h].hasSsh ==> hosts[h].deadMan == Absent)
      ensures o.Done? && o.value.Stuck? ==> store[h] == NeedsRevert(o.value.stuck, old(store[h]).since)
      ensures hosts[h].live != {} ==> hosts[h].deadMan == old(hosts[h]).deadMan
      ensures old(Loads()) ==> Loads()
      ensures old(history) <= history
    {
      hide HostOk, Facts, But, Loads, RevertsInTurn, Kept, Backwards;
      FactOf(h);
      ghost var n := |store[h].channels|;
      var stuck :- RevertEach(h, Backwards(store[h].channels));
      ghost var asked := calls[|old(calls)|..];
      assert |asked| == n by {
        InTurnLength(h, Backwards(store[h].channels), drivers, asked);
      }
      if stuck == [] {
        assert hosts[h].live == {};
        o := FinishReverted(h);
      } else {
        FactOf(h);
        OkReverting(h, inventory[h], store[h], stuck, store[h].since, hosts[h], log);
        var kept :- Commit(h, RetainStuck(store[h], stuck));
        assert kept.Ok?;
        o := Done(Stuck(stuck));
      }
      assert calls[|old(calls)|..][..n] == asked && calls[|old(calls)|..][n..] == calls[|old(calls)| + n..];
    }

    method CancelRequest(h: string) returns (o: Outcome<()>)
      requires Valid() && h in inventory && store[h].Pending?
      modifies this`store, this`history
      ensures Valid() && But(h, store) == But(h, old(store))
      ensures o.Done? ==> store[h] == Closed
      ensures old(Loads()) ==> Loads()
      ensures old(history) <= history
    {
      hide HostOk, Facts, But, Loads;
      FactOf(h);
      OkIdle(h, inventory[h], hosts[h], log);
      var done :- Commit(h, CancelPending(store[h]));
      assert done.Ok?;
      o := Journal();
    }

    /** Moves an open grant to needs-revert and makes one attempt; a closed or half-open one is left alone. */
    method RetractGrant(h: string, now: nat) returns (o: Outcome<Response>)
      requires Valid() && h in inventory && !store[h].Pending?
      modifies this`store, this`hosts, this`calls, this`history
      ensures Valid() && But(h, store) == But(h, old(store)) && But(h, hosts) == But(h, old(hosts))
      ensures old(calls) <= calls
      ensures o.Done? ==> CloseAnswers(old(store)[h], o.value, store[h], now)
      ensures o.Done? ==> CloseAsks(h, inventory[h], old(store)[h], drivers, calls[|old(calls)|..], o.value)
      ensures o.Done? && o.value.ClosedNow? ==>
                hosts[h].live == {} && (inventory[h].hasSsh ==> hosts[h].deadMan == Absent)
      ensures old(Loads()) ==> Loads()
      ensures old(history) <= history
    {
      hide HostOk, Facts, But, Loads, RevertAttempt;
      FactOf(h);
      if store[h].Open? {
        OkReverting(h, inventory[h], store[h], store[h].channels, now, hosts[h], log);
      }
      var begun :- Commit(h, BeginRevert(store[h], now));
      if begun.Err? {
        return Done(if begun.error.NotOpen? then AlreadyClosed else Refused);
      }
      o := DriveOneRevert(h);
    }

    /** A pending request is cancelled, an open grant reverted; closing a closed host is harmless. */
    method Close(h: string, now: nat) returns (o: Outcome<Response>)
      requires Valid()
      modifies this`store, this`hosts, this`calls, this`history
      ensures Valid() && But(h, store) == But(h, old(store)) && But(h, hosts) == But(h, old(hosts))
      ensures old(calls) <= calls
      ensures o.Done? && h in inventory ==> CloseAnswers(old(store)[h], o.value, store[h], now)
      ensures o.Done? && h in inventory ==>
                CloseAsks(h, inventory[h], old(store)[h], drivers, calls[|old(calls)|..], o.value)
      ensures o.Done? && h !in inventory ==> o.value == Refused && calls == old(calls)
      ensures o.Done? && o.value.ClosedNow? ==>
                && h in inventory && store[h] == Closed
                && hosts[h].live == {} && (inventory[h].hasSsh ==> hosts[h].deadMan == Absent)
      ensures old(Loads()) ==> Loads()
      ensures old(history) <= history
      ensures !old(Loads()) ==> Still()
    {
      hide HostOk, Facts, But, Loads, RevertAttempt;
      var read :- Read();
      if h !in inventory {
        return Done(Refused);
      }
      if store[h].Pending? {
        var cancelled :- CancelRequest(h);
        return Done(Cancelled);
      }
      o := RetractGrant(h, now);
    }

    // -------------------------------------------------------------------------
    // Requests and approval
    // -------------------------------------------------------------------------

    /** A verified proof joins the log. */
    ghost method AddProof(p: Proof)
      requires Valid()
      modifies this`log
      ensures Valid() && log == old(log).(proofs := old(log).proofs + {p})
    {
      hide AllWarranted, AllSafe, PoliciesLoaded, HostOk;
      log := log.(proofs := log.proofs + {p});
      MoreProofs(inventory, approval, old(log), p);
      forall k | k in inventory ensures HostIsOk(k) {
        assert old(HostIsOk(k));
        OkGrows(k, inventory[k], store[k], hosts[k], old(log), log);
      }
    }

    /** The atomic claim of a pending request; the opening is logged exactly when it is stored. */
    method Claim(
        h: string, now: nat, toApply: seq<Channel>, ghost w: Warrant) returns (o: Outcome<Result<(), GrantError>>)
      requires Valid() && h in inventory && store[h].Pending?
      requires Vouches(approval, inventory[h], store[h], now, w)
      modifies this`store, this`log, this`history
      ensures Valid() && But(h, store) == But(h, old(store)) && log.proofs == old(log).proofs
      ensures o.Done? ==> (o.value.Ok? <==> store[h] != old(store[h]))
      ensures o.Done? ==> (o.value.Ok? <==> CanClaim(old(store[h]), now))
      ensures store[h] == old(store[h]) ==> log.openings == old(log).openings
      ensures store[h] != old(store[h]) ==>
                && CanClaim(old(store[h]), now) && store[h] == Opening(now, now + old(store[h]).ttl, toApply)
                && log.openings == old(log).openings + [Opened(h, old(store[h]), now, store[h], w)]
      ensures !old(Loads()) ==> o == Fatal && store == old(store)
      ensures old(Loads()) ==> Loads()
      ensures old(history) <= history
    {
      hide AllWarranted, AllSafe, PoliciesLoaded, HostOk, Vouches;
      var t := ApproveToOpening(store[h], now, toApply);
      if !Loads() {
        return Fatal;
      }
      if * {
        return Crashed;
      }
      if * {
        return Fatal;
      }
      if t.Err? {
        return Done(Err(t.error));
      }
      ghost var entry := Opened(h, store[h], now, t.value, w);
      FactOf(h);
      OneMoreOpening(inventory, approval, log, entry);
      store := store[h := t.value];
      log := log.(openings := log.openings + [entry]);
      forall k | k in inventory ensures HostIsOk(k) {
        if k == h {
          OkOpening(h, inventory[h], hosts[h], log);
        } else {
          assert old(HostIsOk(k));
          LatestAfter(k, old(log).openings, entry);
          OkGrows(k, inventory[k], store[k], hosts[k], old(log), log);
        }
      }
      SafeGrows(inventory, history, old(log).openings, log.openings);
      assert Follows(inventory, Moment(old(store), hosts, old(log).openings), Moment(store, hosts, log.openings));
      Record();
      if * {
        return Crashed;
      }
      return Done(Ok(()));
    }

    /**
     Carries a pending request to opening and drives it. It is refused for its own sake only when it came too late or
     its expiry is past the last instant; any other refusal is an answer from the host.
     */
    method OpenPendingNow(h: string, now: nat, ghost w: Warrant) returns (o: Outcome<Response>)
      requires Valid() && h in inventory && store[h].Pending?
      requires Vouches(approval, inventory[h], store[h], now, w)
      modifies this`store, this`hosts, this`log, this`calls, this`history
      ensures Valid() && But(h, store) == But(h, old(store)) && But(h, hosts) == But(h, old(hosts))
      ensures old(calls) <= calls
      ensures OpenedAtMost(h, old(store[h]), now, w, old(log), log)
      ensures store[h] != old(store[h]) ==> CanClaim(old(store[h]), now)
      ensures !CanClaim(old(store[h]), now) ==> log == old(log)
      ensures o.Done? && !CanClaim(old(store[h]), now) ==> o.value == Refused && store == old(store) && Still()
      ensures o.Done? && CanClaim(old(store[h]), now) ==>
                var cs, expiresAt := Drivable(drivers, inventory[h].channels), now + old(store[h]).ttl;
                && log.openings
                   == old(log).openings + [Opened(h, old(store[h]), now, Opening(now, expiresAt, cs), w)]
                && Drove(
                     h, inventory[h], cs, expiresAt, drivers, now, calls[|old(calls)|..], hosts[h], store[h], o.value)
      ensures old(Loads()) ==> Loads()
      ensures old(history) <= history
    {
      hide HostOk, Facts, But, Loads, Vouches, Drivable, InPlace, OpenCalls, GaveUp;
      FactOf(h);
      var toApply := Drivable(drivers, inventory[h].channels);
      var claimed :- Claim(h, now, toApply, w);
      if claimed.Err? {
        ButAll(h, old(store), store);
        return Done(Refused);
      }
      var logged :- Journal();
      o := DriveOpen(h, toApply, now);
    }

    /** Records a request under a chosen profile, exactly when the host is idle and the profile fits the window. */
    method RequestOpen(
        h: string, ttl: Ttl, profile: Option<string>, nonce: Nonce, now: nat) returns (o: Outcome<Response>)
      requires Valid()
      modifies this`store, this`history
      ensures Valid() && But(h, store) == But(h, old(store))
      ensures o.Done? ==> o.value == StillPending || o.value == Refused
      ensures o == Done(Refused) ==> store == old(store)
      ensures o == Done(Refused) ==>
                || h !in inventory || !old(store)[h].Closed? || now + approvalWindow > CLOCK_MAX
                || (approval.Some?
                    && forall p :: !Choosable(approval.value, inventory[h], approvalWindow, profile, p))
      ensures o == Done(StillPending) ==>
                && h in inventory && old(store)[h].Closed? && now + approvalWindow <= CLOCK_MAX
                && store[h].Pending? && store[h] == Pending(now, now + approvalWindow, ttl, nonce, store[h].profile, {})
                && (approval.Some? ==>
                      && Choosable(approval.value, inventory[h], approvalWindow, profile, store[h].profile)
                      && CanBeMet(approval.value, inventory[h], store[h].profile, approvalWindow))
      ensures old(Loads()) ==> Loads()
      ensures old(history) <= history
      ensures !old(Loads()) ==> Still()
    {
      hide HostOk, Facts, But, Loads, CanBeMet, Choosable;
      if h !in inventory {
        return Done(Refused);
      }
      var chosen := Some(DRY_RUN_PROFILE);
      if approval.Some? {
        chosen := ChooseProfile(h, profile);
      }
      if chosen.None? || now + approvalWindow > CLOCK_MAX {
        return Done(Refused);
      }
      FactOf(h);
      var t := BeginPending(store[h], now, now + approvalWindow, ttl, nonce, chosen.value);
      if t.Ok? {
        OkRequest(h, inventory[h], t.value, hosts[h], log);
      }
      var begun :- Commit(h, t);
      if begun.Err? {
        return Done(Refused);
      }
      var logged :- Journal();
      return Done(StillPending);
    }

    /** The named profile, or the only permitted one; refused exactly when there is none or its wait does not fit. */
    method ChooseProfile(h: string, profile: Option<string>) returns (chosen: Option<string>)
      requires Valid() && h in inventory && approval.Some?
      ensures chosen.Some? ==>
                && Choosable(approval.value, inventory[h], approvalWindow, profile, chosen.value)
                && CanBeMet(approval.value, inventory[h], chosen.value, approvalWindow)
      ensures chosen.None? ==> forall p :: !Choosable(approval.value, inventory[h], approvalWindow, profile, p)
    {
      hide HostOk, AllSafe, AllWarranted, Validated, WellBuilt, Resolves, LongestWait, ResolveAuthority, Governs, Met;
      var m := approval.value;
      chosen := profile;
      var permitted := Permitted(m, inventory[h]);
      if profile.None? {
        if |permitted| != 1 {
          return None;
        }
        var only :| only in permitted;
        OnlyMember(permitted, only);
        chosen := Some(only);
      }
      var authority := ResolveAuthority(m, inventory[h], chosen.value);
      if authority.None? {
        return None;
      }
      assert Governs(m, inventory[h], chosen.value, authority.value);
      assert LoadedAuthority(m, authority.value);
      var longest := MaxWait(m, authority.value);
      if longest >= approvalWindow {
        LongestIsOne(m.groups, authority.value.factors, longest);
        return None;
      }
      AcceptedPolicyOpens(m, authority.value, longest);
    }

    /** Persists an accepted proof's authenticator in the request it proved. */
    method AcceptProof(h: string, id: string, now: nat) returns (o: Outcome<()>)
      requires Valid() && h in inventory && store[h].Pending? && now < store[h].approvalDeadline
      modifies this`store, this`log, this`history
      ensures Valid() && But(h, store) == But(h, old(store)) && log.openings == old(log).openings
      ensures log.proofs == old(log).proofs + {Proof(RequestOf(h, old(store[h])), id)}
      ensures store[h] == old(store[h]) || store[h] == WithProof(old(store[h]), id)
      ensures o.Done? ==> store[h] == WithProof(old(store[h]), id)
      ensures old(Loads()) ==> Loads()
      ensures old(history) <= history
    {
      hide HostOk, Facts, But, Loads;
      var isNew := id !in store[h].satisfied;
      AddProof(Proof(RequestOf(h, store[h]), id));
      FactOf(h);
      OkSatisfied(h, inventory[h], store[h], hosts[h], log, id);
      var added :- Commit(h, AddSatisfied(store[h], now, id));
      assert added.Ok?;
      if isNew {
        var logged :- Journal();
      }
      return Done(());
    }

    /** Whether a pending request's authority is met, as the daemon evaluates it; none when no authority governs. */
    method EvaluateRequest(h: string, elapsed: nat) returns (met: Option<bool>)
      requires Valid() && h in inventory && store[h].Pending? && approval.Some?
      ensures met.Some? ==> (met.value <==> PolicyMet(approval.value, inventory[h], store[h], elapsed))
      ensures met.None? <==> Ungoverned(approval.value, inventory[h], store[h].profile)
      ensures met.None? ==> !PolicyMet(approval.value, inventory[h], store[h], elapsed)
    {
      hide HostOk, AllSafe, AllWarranted, Validated, Met, Weight, Lacking, ResolveAuthority, Governs;
      var authority := ResolveAuthority(approval.value, inventory[h], store[h].profile);
      if authority.None? {
        return None;
      }
      assert Governs(approval.value, inventory[h], store[h].profile, authority.value);
      PolicyIsTheAuthority(approval.value, inventory[h], store[h], authority.value, elapsed);
      var outcome := Evaluate(approval.value, authority.value, store[h].satisfied, elapsed);
      return Some(outcome.met);
    }

    /** Judges an accepted proof: the grant opens the moment the threshold is met, and not before. */
    method ApproveWith(h: string, id: string, now: nat) returns (o: Outcome<Response>)
      requires Valid() && h in inventory && approval.Some?
      requires store[h].Pending? && now < store[h].approvalDeadline
      modifies this`store, this`hosts, this`log, this`calls, this`history
      ensures Valid() && But(h, store) == But(h, old(store)) && But(h, hosts) == But(h, old(hosts))
      ensures old(calls) <= calls
      ensures var p := WithProof(old(store[h]), id);
              && (o.Done? ==> JudgedRight(
                    approval.value, h, inventory[h], p, drivers, now, old(log).openings, log.openings,
                    calls[|old(calls)|..], hosts[h], store[h], o.value))
              && (log.openings == old(log).openings || MetAt(approval.value, inventory[h], p, now))
      ensures log.proofs == old(log).proofs + {Proof(RequestOf(h, old(store[h])), id)}
      ensures old(Loads()) ==> Loads()
      ensures old(history) <= history
    {
      hide HostOk, Facts, But, Loads, MetAt, JudgedRight;
      var accepted :- AcceptProof(h, id, now);
      o := Judge(h, now);
    }

    /** Opens a pending request exactly when its authority is met. */
    method Judge(h: string, now: nat) returns (o: Outcome<Response>)
      requires Valid() && h in inventory && store[h].Pending? && approval.Some?
      modifies this`store, this`hosts, this`log, this`calls, this`history
      ensures Valid() && But(h, store) == But(h, old(store)) && But(h, hosts) == But(h, old(hosts))
      ensures old(calls) <= calls
      ensures o.Done? ==> JudgedRight(
                approval.value, h, inventory[h], old(store[h]), drivers, now, old(log).openings, log.openings,
                calls[|old(calls)|..], hosts[h], store[h], o.value)
      ensures log.openings == old(log).openings || MetAt(approval.value, inventory[h], old(store[h]), now)
      ensures log.proofs == old(log).proofs
      ensures old(Loads()) ==> Loads()
      ensures old(history) <= history
    {
      hide HostOk, Facts, But, Loads, PolicyMet, Drivable, ResolveAuthority, Drove, Ungoverned;
      var read :- Read();
      var met := EvaluateRequest(h, Elapsed(store[h], now));
      if met.None? {
        return Done(Refused);
      }
      if !met.value {
        return Done(StillPending);
      }
      o := OpenPendingNow(h, now, Approved);
    }

    /** One operator proof toward a pending request; `verdict` is the authenticator it verified as, if any. */
    method Approve(h: string, verdict: Option<string>, now: nat) returns (o: Outcome<Response>)
      requires Valid()
      modifies this`store, this`hosts, this`log, this`calls, this`history
      ensures Valid() && But(h, store) == But(h, old(store)) && But(h, hosts) == But(h, old(hosts))
      ensures old(calls) <= calls
      // Nothing comes of a proof that is late, unasked for or not verified.
      ensures || !(h in inventory && old(store)[h].Pending? && now < old(store)[h].approvalDeadline)
              || (approval.Some? && verdict.None?) ==>
                (o.Done? ==> o.value == Refused) && Still()
      // A verified proof is kept, and the request with it is judged.
      ensures && h in inventory && old(store)[h].Pending? && now < old(store)[h].approvalDeadline
              && approval.Some? && verdict.Some? ==>
                var p := WithProof(old(store)[h], verdict.value);
                && (o.Done? ==> JudgedRight(
                      approval.value, h, inventory[h], p, drivers, now, old(log).openings, log.openings,
                      calls[|old(calls)|..], hosts[h], store[h], o.value))
                && (log.openings == old(log).openings || MetAt(approval.value, inventory[h], p, now))
      // Without a policy the first approval opens.
      ensures && h in inventory && old(store)[h].Pending? && now < old(store)[h].approvalDeadline
              && approval.None? && o.Done? ==>
                OpenedRight(
                  h, inventory[h], old(store)[h], drivers, now, DryRun, old(log).openings, log.openings,
                  calls[|old(calls)|..], hosts[h], store[h], o.value)
      ensures || log.proofs == old(log).proofs
              || (h in inventory && old(store)[h].Pending? && verdict.Some?
                  && log.proofs == old(log).proofs + {Proof(RequestOf(h, old(store)[h]), verdict.value)})
      ensures old(Loads()) ==> Loads()
      ensures old(history) <= history
      ensures !old(Loads()) ==> Still()
    {
      hide HostOk, Facts, But, Loads, PolicyMet, Drivable, MetAt, Drove, JudgedRight;
      var read :- Read();
      if h !in inventory || !Observe(store[h], now).AwaitingApproval? {
        return Done(Refused);
      }
      if approval.None? {
        o := OpenPendingNow(h, now, DryRun);
      } else {
        // A code proof is first consumed in its own ledger; a denial is journalled.
        var ledger :- Journal();
        if verdict.None? {
          return Done(Refused);
        }
        o := ApproveWith(h, verdict.value, now);
      }
    }

    // -------------------------------------------------------------------------
    // Renewal
    // -------------------------------------------------------------------------

    /** Tells every channel of an open grant in order; stops at the first that has no driver or refuses. */
    method RenewChannels(h: string) returns (o: Outcome<bool>)
      requires Valid() && h in inventory && store[h].Open?
      modifies this`hosts, this`calls, this`history
      ensures Valid() && But(h, hosts) == But(h, old(hosts)) && old(calls) <= calls
      ensures o == Done(true) ==> calls[|old(calls)|..] == Extends(h, store[h].channels)
      ensures o == Done(true) ==> forall c :: c in store[h].channels ==> c in drivers
      ensures o == Done(false) ==> StopsShort(Extends(h, store[h].channels), calls[|old(calls)|..])
      ensures o.Done? ==> SkipsOnlyDriverless(drivers, calls[|old(calls)|..])
      ensures hosts[h].deadMan == old(hosts[h]).deadMan
      ensures old(history) <= history
    {
      hide HostOk, Facts, But, Extends, StopsShort, SkipsOnlyDriverless;
      var channels := store[h].channels;
      assert old(calls) + Extends(h, []) == old(calls) by {
        ExtendsLength(h, []);
      }
      for k := 0 to |channels|
        invariant Valid() && But(h, hosts) == But(h, old(hosts)) && hosts[h].deadMan == old(hosts[h]).deadMan
        invariant old(history) <= history
        invariant forall c :: c in channels[..k] ==> c in drivers
        invariant calls == old(calls) + Extends(h, channels[..k])
      {
        assert channels[..k + 1] == channels[..k] + [channels[k]];
        PlansGrow(h, channels, k);
        ghost var told := Extends(h, channels[..k]);
        if channels[k] !in drivers {
          calls := calls + [Extend(h, channels[k], NoDriver)];
          assert calls[|old(calls)|..] == told + [Extend(h, channels[k], NoDriver)];
          RenewalStops(h, channels, drivers, k, NoDriver);
          return Done(false);
        }
        var ok :- DriverExtend(h, channels[k]);
        assert calls == old(calls) + (told + [Extend(h, channels[k], Said(ok))]);
        if !ok {
          assert calls[|old(calls)|..] == told + [Extend(h, channels[k], No)];
          RenewalStops(h, channels, drivers, k, No);
          return Done(false);
        }
      }
      assert channels[..|channels|] == channels;
      assert calls[|old(calls)|..] == Extends(h, channels);
      RenewalAllTold(h, channels, drivers);
      return Done(true);
    }

    /** Tells the dead-man and then every channel the new deadline; the first refusal ends it. */
    method AnnounceRenewal(h: string, deadline: nat, now: nat) returns (o: Outcome<bool>)
      requires Valid() && h in inventory && store[h].Open?
      requires Renewing(Notice(deadline, store[h].expiresAt, now))
      modifies this`hosts, this`calls, this`history
      ensures Valid() && But(h, hosts) == But(h, old(hosts)) && old(calls) <= calls
      ensures o == Done(true) ==>
                calls[|old(calls)|..] == RenewCalls(h, inventory[h], store[h].channels, deadline)
      ensures o == Done(true) ==> forall c :: c in store[h].channels ==> c in drivers
      ensures o == Done(false) ==>
                StopsShort(RenewCalls(h, inventory[h], store[h].channels, deadline), calls[|old(calls)|..])
      ensures o.Done? ==> SkipsOnlyDriverless(drivers, calls[|old(calls)|..])
      ensures var told := Waiting(Notice(deadline, store[h].expiresAt, now));
              && (o == Done(true) && inventory[h].hasSsh ==> hosts[h].deadMan == told)
              && (hosts[h].deadMan == old(hosts[h]).deadMan || (inventory[h].hasSsh && hosts[h].deadMan == told))
      ensures old(history) <= history
    {
      hide HostOk, Facts, But, Extends, Renewing, StopsShort, SkipsOnlyDriverless, RenewCalls;
      if inventory[h].hasSsh {
        var moved :- InstallDeadman(h, deadline, now);
        assert calls[|old(calls)|..] == [Arm(h, deadline, Said(moved))];
        if !moved {
          DeadManStopsRenewal(h, inventory[h], store[h].channels, deadline, drivers);
          return Done(false);
        }
      }
      ghost var first, n := calls[|old(calls)|..], |calls|;
      o := RenewChannels(h);
      assert calls[|old(calls)|..] == first + calls[n..];
      RenewalGoesOn(h, inventory[h], store[h].channels, deadline, drivers, first, calls[n..]);
    }

    /** Stores a renewal that the dead-man already has. */
    method StoreRenewal(h: string, ttl: Ttl, now: nat) returns (o: Outcome<()>)
      requires Valid() && h in inventory && CanRenew(store[h], ttl, now)
      requires WantsDeadman(inventory[h], store[h].channels) ==>
                 hosts[h].deadMan.Waiting? && hosts[h].deadMan.notice.deadline == now + ttl
      modifies this`store, this`history
      ensures Valid() && But(h, store) == But(h, old(store))
      ensures var renewed := Open(old(store[h]).openedAt, now + ttl, old(store[h]).channels);
              && (store == old(store) || store[h] == renewed)
              && (o.Done? ==> store[h] == renewed)
      ensures o.Done? ==> old(Loads())
      ensures o.Done? ==> (Loads() <==> old(store[h]).openedAt < now + ttl <= old(store[h]).openedAt + MAX_TTL_SECS)
      ensures old(history) <= history
    {
      hide HostOk, Facts, But, Loads;
      FactOf(h);
      OkRenewed(h, inventory[h], store[h], hosts[h], log, now + ttl);
      var done :- Commit(h, Renewed(store[h], now, ttl));
      FactOf(h);
      o := Journal();
    }

    /** Extends an open grant; the backstop and the channels learn of it before it is stored. */
    method Renew(h: string, ttl: Ttl, now: nat) returns (o: Outcome<Response>)
      requires Valid()
      modifies this`store, this`hosts, this`calls, this`history
      ensures Valid() && But(h, store) == But(h, old(store)) && But(h, hosts) == But(h, old(hosts))
      ensures old(calls) <= calls
      ensures o.Done? ==> o.value == Refused || o.value == Renewal(now + ttl)
      ensures !(h in inventory && CanRenew(old(store)[h], ttl, now)) ==>
                (o.Done? ==> o.value == Refused) && Still()
      ensures || store == old(store)
              || (h in inventory && old(store)[h].Open?
                  && store[h] == Open(old(store)[h].openedAt, now + ttl, old(store)[h].channels))
      // A renewal that is refused, or dies, on the way may have moved the dead-man already.
      ensures h in inventory ==>
                || hosts[h].deadMan == old(hosts)[h].deadMan
                || (&& CanRenew(old(store)[h], ttl, now) && inventory[h].hasSsh
                    && hosts[h].deadMan == Waiting(Notice(now + ttl, old(store)[h].expiresAt, now)))
      // One that is allowed is refused only by the dead-man or a channel, and nothing is asked after that.
      ensures o == Done(Refused) && h in inventory && CanRenew(old(store)[h], ttl, now) ==>
                && store == old(store)
                && StopsShort(RenewCalls(h, inventory[h], store[h].channels, now + ttl), calls[|old(calls)|..])
                && SkipsOnlyDriverless(drivers, calls[|old(calls)|..])
      ensures o.Done? && o.value.Renewal? ==>
                && h in inventory && old(store)[h].Open?
                && store[h] == Open(old(store)[h].openedAt, now + ttl, old(store)[h].channels)
                && calls[|old(calls)|..] == RenewCalls(h, inventory[h], store[h].channels, now + ttl)
                && (forall c :: c in store[h].channels ==> c in drivers)
                && (inventory[h].hasSsh ==>
                      hosts[h].deadMan == Waiting(Notice(now + ttl, old(store)[h].expiresAt, now)))
                && (Loads() <==> old(store)[h].openedAt < now + ttl <= old(store)[h].openedAt + MAX_TTL_SECS)
      ensures old(history) <= history
      ensures !old(Loads()) ==> Still()
    {
      hide HostOk, Facts, But, Loads, StopsShort, SkipsOnlyDriverless, RenewCalls;
      var read :- Read();
      if h !in inventory || Renewed(store[h], now, ttl).Err? {
        return Done(Refused);
      }
      var told :- AnnounceRenewal(h, now + ttl, now);
      if !told {
        return Done(Refused);
      }
      var stored :- StoreRenewal(h, ttl, now);
      return Done(Renewal(now + ttl));
    }

    // -------------------------------------------------------------------------
    // The periodic pass
    // -------------------------------------------------------------------------

    /** One locked read-modify-write of the whole registry. */
    method CommitAll(grants: Grants) returns (o: Outcome<()>)
      requires Valid() && grants.Keys == inventory.Keys
      requires forall h :: h in inventory ==> HostOk(h, inventory[h], grants[h], hosts[h], log)
      modifies this`store, this`history
      ensures Valid()
      ensures store == old(store) || store == grants
      ensures o.Done? ==> store == grants
      ensures !old(Loads()) ==> o == Fatal && store == old(store)
      ensures old(history) <= history
    {
      hide AllWarranted, PoliciesLoaded, AllSafe, HostOk;
      if !Loads() {
        return Fatal;
      }
      if * {
        return Crashed;
      }
      if * {
        return Fatal;
      }
      store := grants;
      assert forall k :: k in inventory ==> HostIsOk(k);
      Record();
      if * {
        return Crashed;
      }
      return Done(());
    }

    /** Expired grants become needs-revert and lapsed requests are closed, in one write. */
    method Sweep(now: nat) returns (o: Outcome<()>)
      requires Valid()
      modifies this`store, this`history
      ensures Valid()
      ensures o.Done? ==> AllSwept(store, now) && SweptFrom(old(store), store, now)
      ensures old(Loads()) ==> Loads()
      ensures old(history) <= history
      ensures !old(Loads()) ==> o == Fatal && store == old(store)
    {
      hide HostOk, AllSafe, AllWarranted, PoliciesLoaded, Reap, Lapse;
      var registry := new GrantRegistry(store);
      var expired := registry.ReapToRevert(now);
      var lapsed := registry.ReapExpiredPending(now);
      var grants := registry.grants;
      forall h | h in inventory
        ensures grants[h] == Lapse(Reap(store[h], now), now)
        ensures HostOk(h, inventory[h], grants[h], hosts[h], log)
        ensures Reloadable(store[h]) ==> Reloadable(grants[h])
      {
        assert HostIsOk(h);
        OkSwept(h, inventory[h], store[h], hosts[h], log, now);
        SweepReloads(store[h], now);
      }
      assert SweptFrom(store, grants, now);
      SweepSettles(store, grants, now);
      var done :- CommitAll(grants);
      o := Journal();
    }

    /** One revert attempt for every host that needs one. */
    method RevertNeeding(now: nat) returns (o: Outcome<()>)
      requires Valid() && AllSwept(store, now)
      modifies this`store, this`hosts, this`calls, this`history
      ensures Valid() && AllSwept(store, now) && RevertsOnly(old(store), store)
      ensures old(Loads()) ==> Loads()
      ensures old(calls) <= calls && (o.Done? ==> AllWorkedOn(old(store), store, {}, drivers, calls[|old(calls)|..]))
      ensures old(history) <= history
    {
      hide HostOk, Facts, But, Untouched, Loads, AllSwept, RevertsOnly, WorkedOn, AllWorkedOn;
      var all := set h | h in store && store[h].NeedsRevert?;
      var todo := all;
      UntouchedAll(todo, store);
      RevertsNone(store, drivers);
      assert calls[|old(calls)|..] == [];
      while todo != {}
        invariant Valid() && (old(Loads()) ==> Loads())
        invariant old(history) <= history
        invariant todo <= all && Untouched(todo, old(store), store)
        invariant AllSwept(store, now) && RevertsOnly(old(store), store)
        invariant old(calls) <= calls && AllWorkedOn(old(store), store, todo, drivers, calls[|old(calls)|..])
        decreases todo
      {
        var h :| h in todo;
        UntouchedAt(todo, old(store), store, h);
        ghost var before, callsBefore, todoBefore := store, calls, todo;
        todo := todo - {h};
        o := RevertOnce(h);
        UntouchedStep(todoBefore, old(store), before, store, h);
        SweptStep(before, store, h, now);
        RevertsStep(old(store), before, store, h);
        if !o.Done? {
          return;
        }
        WorkStep(old(store), before, store, todoBefore, h, drivers, old(calls), callsBefore, calls);
      }
      return Done(());
    }

    method RevertOnce(h: string) returns (o: Outcome<()>)
      requires Valid() && h in inventory && store[h].NeedsRevert?
      modifies this`store, this`hosts, this`calls, this`history
      ensures Valid() && But(h, store) == But(h, old(store)) && But(h, hosts) == But(h, old(hosts))
      ensures store[h].Closed? || store[h].NeedsRevert?
      ensures old(Loads()) ==> Loads()
      ensures old(calls) <= calls
      ensures o.Done? ==> WorkedOn(h, old(store[h]).channels, store[h], drivers, calls[|old(calls)|..])
      ensures old(history) <= history
    {
      hide HostOk, Facts, But, Loads, RevertAttempt, WorkedOn;
      ghost var channels := store[h].channels;
      var done :- DriveOneRevert(h);
      AttemptsAll(h, inventory[h], channels, drivers, calls[|old(calls)|..], LeftBy(done), store[h]);
      return Done(());
    }

    /** Opens a pending request that a wait, and only a wait, has tipped over its threshold. */
    method OpenIfMatured(h: string, now: nat) returns (o: Outcome<()>)
      requires Valid() && h in inventory && store[h].Pending? && Swept(store[h], now) && approval.Some?
      modifies this`store, this`hosts, this`log, this`calls, this`history
      ensures Valid() && But(h, store) == But(h, old(store)) && But(h, hosts) == But(h, old(hosts))
      ensures o.Done? ==> Swept(store[h], now) && !Ripe(approval.value, inventory[h], store[h], now)
      ensures store[h] == old(store[h]) || Ripe(approval.value, inventory[h], old(store[h]), now)
      ensures OnlyMatured(old(log), log)
      ensures old(Loads()) ==> Loads()
      ensures old(calls) <= calls
      ensures old(history) <= history
    {
      hide HostOk, Facts, But, Loads, PolicyMet, Drivable, ResolveAuthority, Drove, Ungoverned;
      var read :- Read();
      var metNow := EvaluateRequest(h, Elapsed(store[h], now));
      var metWithoutTime := EvaluateRequest(h, 0);
      if metNow == Some(true) && metWithoutTime == Some(false) {
        var done :- OpenPendingNow(h, now, Matured);
        if CanClaim(old(store[h]), now) {
          DroveSomewhere(
            h, inventory[h], Drivable(drivers, inventory[h].channels), now + old(store[h]).ttl, drivers, now,
            calls[|old(calls)|..], hosts[h], store[h], done);
        }
      }
      return Done(());
    }

    method OpenMatured(now: nat) returns (o: Outcome<()>)
      requires Valid() && approval.Some? && AllSwept(store, now)
      modifies this`store, this`hosts, this`log, this`calls, this`history
      ensures Valid() && OnlyMatured(old(log), log)
      ensures OpensOnly(approval.value, inventory, old(store), store, now)
      ensures o.Done? ==> AllSwept(store, now) && NoneRipe(approval.value, inventory, store, {}, now)
      ensures old(Loads()) ==> Loads()
      ensures old(calls) <= calls
      ensures old(history) <= history
    {
      hide HostOk, Facts, But, Untouched, Loads, AllSwept, OpensOnly, OnlyMatured, Ripe, NoneRipe;
      var all := set h | h in store && store[h].Pending?;
      var todo := all;
      UntouchedAll(todo, store);
      OpensNone(approval.value, inventory, store, log, now);
      RipeNone(approval.value, inventory, store, now);
      while todo != {}
        invariant Valid() && (old(Loads()) ==> Loads()) && OnlyMatured(old(log), log)
        invariant old(history) <= history
        invariant todo <= all && Untouched(todo, old(store), store)
        invariant AllSwept(store, now) && old(calls) <= calls
        invariant OpensOnly(approval.value, inventory, old(store), store, now)
        invariant NoneRipe(approval.value, inventory, store, todo, now)
        decreases todo
      {
        var h :| h in todo;
        UntouchedAt(todo, old(store), store, h);
        ghost var before, logBefore, todoBefore := store, log, todo;
        todo := todo - {h};
        SweptAt(store, h, now);
        o := OpenIfMatured(h, now);
        UntouchedStep(todoBefore, old(store), before, store, h);
        OpensStep(approval.value, inventory, old(store), before, store, h, now);
        MaturedStep(old(log), logBefore, log);
        if !o.Done? {
          return;
        }
        SweptStep(before, store, h, now);
        RipeStep(approval.value, inventory, before, store, todoBefore, h, now);
      }
      return Done(());
    }

    /** Sweeps, then makes one revert attempt wherever one is needed. */
    method SweepAndRevert(now: nat) returns (o: Outcome<()>)
      requires Valid()
      modifies this`store, this`hosts, this`calls, this`history
      ensures Valid()
      ensures o.Done? ==> AllSwept(store, now) && Spared(None, inventory, old(store), store, now)
      ensures o.Done? ==> old(calls) <= calls && Retried(old(store), store, drivers, now, calls[|old(calls)|..])
      ensures old(Loads()) ==> Loads()
      ensures old(history) <= history
      ensures !old(Loads()) ==> Still()
      ensures !old(Loads()) ==> o == Fatal
    {
      hide HostOk, Facts, But, Loads, AllSwept, SweptFrom, RevertsOnly, AllWorkedOn, Spared, Retried;
      var swept :- Sweep(now);
      ghost var afterSweep := store;
      var read :- Read();
      var reverted :- RevertNeeding(now);
      SweepSpares(inventory, old(store), afterSweep, store, now);
      AllRetried(old(store), afterSweep, store, drivers, now, calls[|old(calls)|..]);
      return Done(());
    }

    /**
     One pass: sweep, revert what needs it, then open what has matured. No open grant outlives its expiry and no
     request its deadline; what is due has every drivable channel tried and is closed unless something resisted; and
     nothing else moves but what a wait has ripened.
     */
    method Pass(now: nat) returns (o: Outcome<()>)
      requires Valid()
      modifies this`store, this`hosts, this`log, this`calls, this`history
      ensures Valid() && OnlyMatured(old(log), log)
      ensures o.Done? ==> AllSwept(store, now)
      ensures o.Done? && approval.Some? ==> NoneRipe(approval.value, inventory, store, {}, now)
      ensures o.Done? ==> Spared(approval, inventory, old(store), store, now)
      ensures o.Done? ==> old(calls) <= calls && Retried(old(store), store, drivers, now, calls[|old(calls)|..])
      ensures old(Loads()) ==> Loads()
      ensures old(history) <= history
      ensures !old(Loads()) ==> Still()
    {
      hide HostOk, Facts, But, Loads, AllSwept, OnlyMatured, OpensOnly, NoneRipe, Spared, Retried;
      NoneMatured(log);
      var swept :- SweepAndRevert(now);
      ghost var before, callsBefore := store, calls;
      if approval.Some? {
        var again :- Read();
        var ripened :- OpenMatured(now);
        StaysSpared(approval.value, inventory, old(store), before, store, now);
        StaysRetried(
          approval.value, inventory, old(store), before, store, drivers, now, old(calls), callsBefore, calls);
      }
      return Done(());
    }

    // -------------------------------------------------------------------------
    // Boot
    // -------------------------------------------------------------------------

    /** Demotes every stored opening to needs-revert, naming its whole list. */
    method DemoteStored(now: nat) returns (o: Outcome<()>)
      requires Valid()
      modifies this`store, this`history
      ensures Valid()
      ensures o.Done? ==> forall h :: h in inventory ==> store[h] == Demote(old(store)[h], now)
      ensures old(Loads()) ==> Loads()
      ensures old(history) <= history
      ensures !old(Loads()) ==> o == Fatal && store == old(store)
    {
      hide HostOk, AllSafe, AllWarranted, PoliciesLoaded, Demote;
      var registry := new GrantRegistry(store);
      var demoted := registry.DemoteOpening(now);
      var grants := registry.grants;
      forall h | h in inventory
        ensures grants[h] == Demote(store[h], now)
        ensures HostOk(h, inventory[h], grants[h], hosts[h], log)
        ensures Reloadable(store[h]) ==> Reloadable(grants[h])
      {
        assert HostIsOk(h);
        OkSwept(h, inventory[h], store[h], hosts[h], log, now);
        SweepReloads(store[h], now);
      }
      var done :- CommitAll(grants);
      o := Journal();
    }

    /** Re-asserts every channel of an open grant; one that has no driver or does not come back is lost. */
    method ReestablishChannels(h: string) returns (o: Outcome<seq<Channel>>)
      requires Valid() && h in inventory && store[h].Open?
      modifies this`hosts, this`calls, this`history
      ensures Valid() && But(h, hosts) == But(h, old(hosts)) && old(calls) <= calls
      ensures o.Done? ==> ConfirmsInTurn(h, store[h].channels, drivers, calls[|old(calls)|..])
      ensures o.Done? && o.value == [] ==> Reconfirmed(h, store[h], hosts[h].live, drivers, calls[|old(calls)|..])
      ensures o.Done? && o.value != [] ==> LostAccess(h, store[h], drivers, calls[|old(calls)|..])
      ensures old(history) <= history
    {
      hide HostOk, Facts, But, Reconfirmed, LostAccess, ConfirmsInTurn, AllYes, YesIsLive;
      var channels := store[h].channels;
      var lost := [];
      ghost var asked: seq<Call> := [];
      NoneConfirmed(h, channels, drivers, hosts[h].live);
      for k := 0 to |channels|
        invariant Valid() && But(h, hosts) == But(h, old(hosts)) && calls == old(calls) + asked
        invariant old(history) <= history
        invariant ConfirmsInTurn(h, channels[..k], drivers, asked) && YesIsLive(channels[..k], asked, hosts[h].live)
        invariant lost == [] <==> AllYes(asked)
      {
        ghost var answer, live := NoDriver, hosts[h].live;
        if channels[k] !in drivers {
          calls := calls + [Confirm(h, channels[k], NoDriver)];
          lost := lost + [channels[k]];
        } else {
          var ok :- DriverReestablish(h, channels[k]);
          answer := Said(ok);
          if !ok {
            lost := lost + [channels[k]];
          }
        }
        ConfirmsNext(h, channels, drivers, k, asked, answer, live, hosts[h].live);
        asked := asked + [Confirm(h, channels[k], answer)];
      }
      assert channels[..|channels|] == channels && calls[|old(calls)|..] == asked;
      ConfirmedAll(h, store[h], hosts[h].live, drivers, asked);
      return Done(lost);
    }

    /** Access that cannot be restored after a restart is retracted, and no other. */
    method ReestablishOne(h: string, now: nat) returns (o: Outcome<()>)
      requires Valid() && h in inventory && store[h].Open? && now < store[h].expiresAt
      modifies this`store, this`hosts, this`calls, this`history
      ensures Valid() && But(h, store) == But(h, old(store)) && But(h, hosts) == But(h, old(hosts))
      ensures old(calls) <= calls
      ensures || store[h] == old(store)[h]
              || RetractedOne(h, old(store)[h], store[h], drivers, calls[|old(calls)|..], now)
      ensures o.Done? && store[h].Open? ==>
                Reconfirmed(h, store[h], hosts[h].live, drivers, calls[|old(calls)|..])
      ensures old(Loads()) ==> Loads()
      ensures old(history) <= history
    {
      hide HostOk, Facts, But, Loads, Reconfirmed, LostAccess, ConfirmsInTurn;
      var lost :- ReestablishChannels(h);
      if lost != [] {
        FactOf(h);
        OkReverting(h, inventory[h], store[h], store[h].channels, now, hosts[h], log);
        var done :- Commit(h, BeginRevert(store[h], now));
        assert done.Ok?;
      }
      o := Journal();
    }

    method ReestablishNext(h: string, now: nat, ghost first: Grants, ghost todo: set<string>, ghost answers: seq<Call>)
      returns (o: Outcome<()>, ghost more: seq<Call>)
      requires Valid() && h in inventory && store[h].Open? && now < store[h].expiresAt && h in todo
      requires Reestablishing(first, store, hosts, drivers, answers, todo, now)
      modifies this`store, this`hosts, this`calls, this`history
      ensures Valid() && old(history) <= history && (old(Loads()) ==> Loads())
      ensures calls == old(calls) + more
      ensures o.Done? ==> Reestablishing(first, store, hosts, drivers, answers + more, todo - {h}, now)
      ensures NoneOpening(store) && RetractsOnly(first, store, drivers, answers + more, now)
    {
      hide HostOk, Facts, But, Loads, NoneOpening, RetractsOnly, AllReconfirmed, Reconfirmed, RetractedOne;
      hide Reestablishing;
      ghost var before, hostsBefore := store, hosts;
      o := ReestablishOne(h, now);
      more := calls[|old(calls)|..];
      if o.Done? {
        ReestablishingStep(first, before, store, hostsBefore, hosts, drivers, answers, more, todo, now, h);
        ReestablishingEnds(first, store, hosts, drivers, answers + more, todo - {h}, now);
      } else {
        RetractsAnyway(first, before, store, hostsBefore, drivers, answers, more, todo, now, h);
      }
    }

    method ReestablishOpen(now: nat) returns (o: Outcome<()>)
      requires Valid() && NoneOpening(store)
      modifies this`store, this`hosts, this`calls, this`history
      ensures Valid() && NoneOpening(store) && old(calls) <= calls
      ensures RetractsOnly(old(store), store, drivers, calls[|old(calls)|..], now)
      ensures o.Done? ==> AllReconfirmed(store, hosts, drivers, calls[|old(calls)|..], {}, now)
      ensures old(Loads()) ==> Loads()
      ensures old(history) <= history
    {
      hide HostOk, Facts, But, Loads, NoneOpening, RetractsOnly, AllReconfirmed, Reconfirmed, LostAccess;
      hide Reestablishing, Observe;
      ReestablishingStarts(store, hosts, drivers, now);
      var todo := set h | h in store && Observe(store[h], now).IsOpen?;
      ObservedOpen(store, now);
      ReestablishingEnds(store, store, hosts, drivers, [], todo, now);
      assert calls[|old(calls)|..] == [];
      var read :- Read();
      ghost var answers: seq<Call> := [];
      while todo != {}
        invariant Valid() && old(history) <= history && (old(Loads()) ==> Loads())
        invariant calls == old(calls) + answers
        invariant Reestablishing(old(store), store, hosts, drivers, answers, todo, now)
        decreases todo
      {
        var h :| h in todo;
        ReestablishingAt(old(store), store, hosts, drivers, answers, todo, now, h);
        ghost var more;
        o, more := ReestablishNext(h, now, old(store), todo, answers);
        assert (old(calls) + answers) + more == old(calls) + (answers + more);
        assert calls[|old(calls)|..] == answers + more;
        if !o.Done? {
          return;
        }
        todo, answers := todo - {h}, answers + more;
      }
      ReestablishingEnds(old(store), store, hosts, drivers, answers, todo, now);
      assert calls[|old(calls)|..] == answers;
      return Done(());
    }

    /** A restarted daemon: interrupted openings are to be reverted, open grants are re-asserted or retracted. */
    method Boot(available: set<Channel>, now: nat) returns (o: Outcome<()>)
      requires Valid()
      modifies this`drivers, this`store, this`hosts, this`calls, this`history
      ensures Valid() && drivers == available && old(calls) <= calls
      ensures o.Done? ==> NoneOpening(store)
      ensures o.Done? ==> AllReconfirmed(store, hosts, available, calls[|old(calls)|..], {}, now)
      ensures o.Done? ==> forall h :: h in inventory ==>
                Rebooted(h, old(store)[h], store[h], available, calls[|old(calls)|..], now)
      ensures old(Loads()) ==> Loads()
      ensures old(history) <= history
      ensures !old(Loads()) ==> Still()
    {
      hide HostOk, Facts, But, Loads, AllReconfirmed, LostAccess;
      drivers := available;
      var demoted :- DemoteStored(now);
      o := ReestablishOpen(now);
    }

    // -------------------------------------------------------------------------
    // Drill
    // -------------------------------------------------------------------------

    /** Stores the drill's own pending request on an idle canary. */
    method BeginDrill(h: string, nonce: Nonce, now: nat) returns (o: Outcome<()>)
      requires Valid() && h in inventory && store[h].Closed?
      modifies this`store, this`history
      ensures Valid() && But(h, store) == But(h, old(store))
      ensures o.Done? ==>
                store[h] == Pending(now, DrillDeadline(now, approvalWindow), DRILL_TTL_SECS, nonce, DRILL_PROFILE, {})
      ensures old(Loads()) && now + approvalWindow <= CLOCK_MAX ==> Loads()
      ensures old(history) <= history
    {
      hide HostOk, Facts, But, Loads;
      FactOf(h);
      var t := BeginPending(store[h], now, DrillDeadline(now, approvalWindow), DRILL_TTL_SECS, nonce, DRILL_PROFILE);
      OkRequest(h, inventory[h], t.value, hosts[h], log);
      var begun :- Commit(h, t);
      assert begun.Ok?;
      return Done(());
    }

    /** Closes the canary again; a failed clean-up of a failed drill is not reported twice. */
    method EndDrill(h: string, granted: bool, now: nat) returns (o: Outcome<Response>)
      requires Valid() && h in inventory && (granted ==> store[h].Open?)
      modifies this`store, this`hosts, this`calls, this`history
      ensures Valid() && But(h, store) == But(h, old(store)) && But(h, hosts) == But(h, old(hosts))
      ensures old(calls) <= calls
      ensures o.Done? ==> o.value == DrillPassed || o.value == Refused
      ensures o == Done(DrillPassed) ==>
                && granted && store[h] == Closed && hosts[h].live == {}
                && calls[|old(calls)|..] == CloseCalls(h, inventory[h], old(store)[h].channels)
      ensures o == Done(Refused) && granted ==> Resisted(h, calls[|old(calls)|..])
      ensures old(Loads()) ==> Loads()
      ensures old(history) <= history
    {
      hide HostOk, Facts, But, Loads, RevertAttempt, CloseCalls, Resisted;
      ghost var before := store[h];
      var closed := Close(h, now);
      if closed.Crashed? || (granted && closed.Fatal?) {
        return closed;
      }
      if granted {
        AttemptSucceeds(h, inventory[h], before.channels, drivers, calls[|old(calls)|..], LeftBy(closed.value));
        if closed.value.Stuck? {
          AttemptResisted(h, inventory[h], before.channels, drivers, calls[|old(calls)|..], LeftBy(closed.value));
        }
      }
      var logged :- Journal();
      return Done(if granted && closed.value.ClosedNow? then DrillPassed else Refused);
    }

    /** Opens the drill's request without a proof and closes it again. */
    method OpenAndClose(h: string, now: nat) returns (o: Outcome<Response>)
      requires Valid() && h in inventory && store[h].Pending?
      requires Vouches(approval, inventory[h], store[h], now, Drill)
      modifies this`store, this`hosts, this`log, this`calls, this`history
      ensures Valid() && But(h, store) == But(h, old(store)) && But(h, hosts) == But(h, old(hosts))
      ensures old(calls) <= calls
      ensures o.Done? ==> o.value == DrillPassed || o.value == Refused
      ensures o == Done(DrillPassed) ==>
                && store[h] == Closed && hosts[h].live == {} && CanClaim(old(store[h]), now)
                && Drilled(h, inventory[h], old(store[h]), drivers, now, old(log).openings, log.openings,
                           calls[|old(calls)|..])
      ensures o == Done(Refused) && CanClaim(old(store[h]), now) ==> !AllYes(calls[|old(calls)|..])
      ensures OpenedAtMost(h, old(store[h]), now, Drill, old(log), log)
      ensures !CanClaim(old(store[h]), now) ==> log == old(log)
      ensures old(Loads()) ==> Loads()
      ensures old(history) <= history
    {
      hide HostOk, Facts, But, Loads, Drivable, OpenedAtMost, Drove, OpenCalls, CloseCalls, AllYes;
      ghost var pending := store[h];
      var granted :- OpenPendingNow(h, now, Drill);
      ghost var begun, n := calls[|old(calls)|..], |calls|;
      if CanClaim(pending, now) {
        HowItDrove(h, inventory[h], Drivable(drivers, inventory[h].channels), now + pending.ttl, drivers, now,
                   begun, hosts[h], store[h], granted);
      }
      o := EndDrill(h, granted.Granted?, now);
      assert calls[|old(calls)|..] == begun + calls[n..];
      if o == Done(Refused) && CanClaim(pending, now) {
        NotAllYes(h, begun, calls[n..]);
      }
    }

    /**
     Opens and closes an idle canary. Passing means that its own request was carried to opening, once, that every
     channel with a driver went in, in order, and the dead-man if it is wanted, and that all of it came out again,
     newest first; failing means that something did not, or that the clock ran out.
     */
    method RunDrill(h: string, nonce: Nonce, now: nat) returns (o: Outcome<Response>)
      requires Valid()
      modifies this`store, this`hosts, this`log, this`calls, this`history
      ensures Valid() && But(h, store) == But(h, old(store)) && But(h, hosts) == But(h, old(hosts))
      ensures old(calls) <= calls
      ensures !(h in inventory && inventory[h].drill && old(store)[h].Closed?) ==>
                (o.Done? ==> o.value == Refused) && Still()
      ensures o.Done? ==> o.value == DrillPassed || o.value == Refused
      ensures o == Done(DrillPassed) ==>
                && h in inventory && inventory[h].drill && store[h] == Closed && hosts[h].live == {}
                && Drilled(h, inventory[h],
                           Pending(now, now + approvalWindow, DRILL_TTL_SECS, nonce, DRILL_PROFILE, {}), drivers, now,
                           old(log).openings, log.openings, calls[|old(calls)|..])
      ensures o == Done(Refused) && h in inventory && inventory[h].drill && old(store)[h].Closed? ==>
                || now + approvalWindow > CLOCK_MAX || now + DRILL_TTL_SECS > CLOCK_MAX
                || !AllYes(calls[|old(calls)|..])
      ensures OpenedAtMost(h, Pending(now, now + approvalWindow, DRILL_TTL_SECS, nonce, DRILL_PROFILE, {}), now, Drill,
                           old(log), log)
      ensures old(Loads()) && now + approvalWindow <= CLOCK_MAX ==> Loads()
      ensures old(history) <= history
      ensures !old(Loads()) ==> Still()
    {
      hide HostOk, Facts, But, Loads, Drilled, AllYes;
      if h !in inventory || !inventory[h].drill {
        return Done(Refused);
      }
      var read :- Read();
      if !store[h].Closed? {
        return Done(Refused);
      }
      var begun :- BeginDrill(h, nonce, now);
      o := OpenAndClose(h, now);
    }

    // -------------------------------------------------------------------------
    // Every run
    // -------------------------------------------------------------------------

    /** One operation, restart or outside event; a daemon that crashed or stopped serves nothing until it restarts. */
    method Step(op: Op, up: bool) returns (up': bool)
      requires Valid()
      modifies this
      ensures Valid()
      ensures !up && !op.Restart? ==> !up' && store == old(store) && log == old(log) && calls == old(calls)
      ensures op.Restart? && up' ==>
                && drivers == op.drivers && NoneOpening(store) && old(calls) <= calls
                && AllReconfirmed(store, hosts, drivers, calls[|old(calls)|..], {}, op.now)
      ensures op.Fires? ==>
                store == old(store)
                && hosts == if op.host in inventory && CanFire(old(hosts)[op.host], op.now)
                            then old(hosts)[op.host := AfterFiring(old(hosts)[op.host], op.run, op.now)]
                            else old(hosts)
      ensures op.Loses? && op.host in inventory ==>
                store == old(store)
                && hosts == old(hosts)[op.host := Host(old(hosts)[op.host].live - op.gone, old(hosts)[op.host].deadMan)]
      ensures old(history) <= history
      ensures !old(Loads()) ==> store == old(store) && log == old(log) && calls == old(calls) && !Loads()
      ensures !old(Loads()) && !op.Fires? && !op.Loses? ==> hosts == old(hosts)
    {
      hide Facts, Loads, But, NoneOpening, AllReconfirmed, Rebooted, AfterFiring, Answered;
      match op {
        case Restart(drivers, now) =>
          var o := Boot(drivers, now);
          return o.Done?;
        case Fires(h, now, run) =>
          if h in inventory && CanFire(hosts[h], now) {
            DeadmanFires(h, now, run);
          }
          return up;
        case Loses(h, gone) =>
          if h in inventory {
            Drift(h, gone);
          }
          return up;
        case Asks(ask) =>
          if up {
            var answer;
            up', answer := Answer(ask);
          } else {
            return false;
          }
      }
    }

    /** Serves one question; the daemon stays up exactly when it could finish. */
    method Answer(ask: Ask) returns (up: bool, r: Option<Response>)
      requires Valid()
      modifies this`store, this`hosts, this`log, this`calls, this`history
      ensures Valid()
      ensures old(history) <= history
      ensures up ==> Answered(approval, inventory, ask, old(store), store, r)
      ensures !old(Loads()) ==> Still()
    {
      hide Facts, Loads, But, OpenedAtMost, MetAt, Swept, AllSwept, NoneRipe, OnlyMatured, CanBeMet, Choosable;
      hide CloseAsks, Spared, Retried, Drilled, AllYes, StopsShort, SkipsOnlyDriverless, RenewCalls, Drivable;
      hide OpenCalls, InPlace, GaveUp, PolicyMet, Ungoverned;
      var o: Outcome<Response>;
      match ask {
        case AskOpen(h, ttl, profile, nonce, now) => o := RequestOpen(h, ttl, profile, nonce, now);
        case AskApprove(h, verdict, now) => o := Approve(h, verdict, now);
        case AskRenew(h, ttl, now) => o := Renew(h, ttl, now);
        case AskClose(h, now) => o := Close(h, now);
        case AskDrill(h, nonce, now) => o := RunDrill(h, nonce, now);
        case AskPass(now) =>
          var passed := Pass(now);
          return passed.Done?, None;
      }
      return o.Done?, if o.Done? then Some(o.value) else None;
    }

    /** Any sequence of operations, crashes, restarts and outside events keeps the daemon safe. */
    method Serve(script: seq<Op>)
      requires Valid()
      modifies this
      ensures Valid()
      ensures old(history) <= history
      ensures !old(Loads()) ==> store == old(store) && log == old(log) && calls == old(calls) && !Loads()
    {
      hide Facts, Shape, Loads;
      var up := false;
      for k := 0 to |script|
        invariant Valid()
        invariant old(history) <= history
        invariant !old(Loads()) ==> store == old(store) && log == old(log) && calls == old(calls) && !Loads()
      {
        up := Step(script[k], up);
      }
    }

    /**
     At every instant of every run a channel that may be live is stored, guarded by a dead-man set for its grant, and
     was given by the latest opening of its host up to then, with a warrant.
     */
    lemma AccessIsAccountedFor(i: nat, h: string, c: Channel)
      requires Valid() && i < |history| && h in history[i].hosts && c in history[i].hosts[h].live
      ensures h in inventory && h in history[i].store
      ensures HoldsAccess(history[i].store[h]) && c in history[i].store[h].channels
      ensures history[i].store[h].Open? && inventory[h].hasSsh && (c == Ssh || c == AuthorizedKeys) ==>
                var dm, expiresAt := history[i].hosts[h].deadMan, history[i].store[h].expiresAt;
                && (dm.Waiting? || (dm.Fired? && dm.notice.deadline <= dm.firedAt))
                && (|| dm.notice.deadline == expiresAt
                    || (dm.notice.expiry == expiresAt && Renewing(dm.notice)))
      ensures LatestOf(h, history[i].openings).Some?
      ensures var o := LatestOf(h, history[i].openings).value;
              && StemsFrom(h, history[i].store[h], o) && c in o.granted.channels
              && Warranted(inventory, approval, log.proofs, o)
              && o.host == h && o.pending.Pending? && o.at < o.pending.approvalDeadline
              && o.granted == Opening(o.at, o.at + o.pending.ttl, o.granted.channels)
              && (forall id :: id in o.pending.satisfied ==>
                    Proof(Request(h, o.pending.nonce, o.pending.ttl, o.pending.requestedAt), id) in log.proofs)
              && (o.warrant.Approved? || o.warrant.Matured? ==>
                    approval.Some? && MetAt(approval.value, inventory[h], o.pending, o.at))
              && (o.warrant.DryRun? ==> approval.None?)
              && (o.warrant.Drill? ==> inventory[h].drill && o.pending.profile == DRILL_PROFILE)
    {
      hide HostOk, PoliciesLoaded, LatestOf, Follows, MetAt;
      var m := history[i];
      assert MomentSafe(inventory, m);
      assert HostSafe(h, inventory[h], m.store[h], m.hosts[h], m.openings);
      LatestIsLogged(h, m.openings);
      var k :| 0 <= k < |m.openings| && m.openings[k] == LatestOf(h, m.openings).value;
      assert log.openings[k] == m.openings[k];
    }

    /** At every instant, when the dead-man of an open grant is off the stored expiry, and by how much. */
    lemma DeadManIsNear(i: nat, h: string)
      requires Valid() && i < |history| && h in inventory && h in history[i].store && h in history[i].hosts
      requires history[i].store[h].Open? && WantsDeadman(inventory[h], history[i].store[h].channels)
      ensures var dm := history[i].hosts[h].deadMan;
              dm.Waiting? || (dm.Fired? && dm.notice.deadline <= dm.firedAt)
      ensures var n, g := history[i].hosts[h].deadMan.notice, history[i].store[h];
              && (n.deadline != g.expiresAt <==> Unstored(n, g)) && (Unstored(n, g) ==> Renewing(n))
              && g.expiresAt < n.deadline + 7200 && n.deadline < g.expiresAt + 86400
    {
      hide Warranted, HostOk, PoliciesLoaded, LatestOf, Follows, WantsDeadman;
      var m := history[i];
      assert MomentSafe(inventory, m);
      assert HostSafe(h, inventory[h], m.store[h], m.hosts[h], m.openings);
      DeadlineNearExpiry(inventory[h], m.store[h], m.hosts[h]);
    }

    /** From any instant to the next a waiting dead-man stays, fires past its deadline, or had nothing to guard. */
    lemma DeadManStays(i: nat, h: string)
      requires Valid() && 0 < i < |history| && h in inventory
      ensures h in history[i - 1].hosts && h in history[i].hosts
      ensures history[i - 1].hosts[h].deadMan.Waiting? && history[i - 1].hosts[h].live != {} ==>
                var before, after := history[i - 1].hosts[h].deadMan, history[i].hosts[h].deadMan;
                || after.Waiting?
                || (after.Fired? && after.notice == before.notice && after.notice.deadline <= after.firedAt)
    {
      hide AllWarranted, HostOk, PoliciesLoaded, HostSafe;
      assert MomentSafe(inventory, history[i - 1]) && MomentSafe(inventory, history[i]);
      assert Follows(inventory, history[i - 1], history[i]);
    }
  }

  lemma OneMoreMoment(inventory: Inventory, history: seq<Moment>, now: Moment, openings: seq<Opened>)
    requires AllSafe(inventory, history, openings) && MomentSafe(inventory, now) && now.openings <= openings
    requires history != [] && Follows(inventory, history[|history| - 1], now)
    ensures AllSafe(inventory, history + [now], openings)
  {
    hide MomentSafe, Follows;
  }

  lemma SafeGrows(inventory: Inventory, history: seq<Moment>, openings: seq<Opened>, openings': seq<Opened>)
    requires AllSafe(inventory, history, openings) && openings <= openings'
    ensures AllSafe(inventory, history, openings')
  {
    hide MomentSafe, Follows;
  }

}
