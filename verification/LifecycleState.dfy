/**
 What the daemon knows and what is really applied on the hosts: the cover relation
 between them, and when an opening is authorised.
 */
module LifecycleState {
  import opened Common
  import opened Policy
  import opened Evaluation
  import opened GrantMachine
  import opened Registry

  /** A host's configuration: what it declares, and which approval profiles it permits. */
  datatype HostCfg = HostCfg(
    channels: seq<Channel>, hasSsh: bool, drill: bool, profiles: Option<set<string>>, overrides: map<string, Authority>)

  type Inventory = map<string, HostCfg>

  const SSH_BORNE: set<Channel> := {Ssh, AuthorizedKeys}

  const DRY_RUN_PROFILE := "dry-run"
  const DRILL_PROFILE := "drill"
  const DRILL_TTL_SECS: Ttl := 5 * 60

  predicate WantsDeadman(cfg: HostCfg, applied: seq<Channel>) {
    cfg.hasSsh && (Ssh in applied || AuthorizedKeys in applied)
  }

  /** The profiles a host permits: those it lists, else every one there is. */
  function Permitted(m: Model, cfg: HostCfg): set<string> {
    if cfg.profiles.Some? then cfg.profiles.value else m.profiles.Keys
  }

  /** The authority behind a permitted profile: the host's own override of it, else the shared one. */
  ghost predicate Governs(m: Model, cfg: HostCfg, profile: string, a: Authority) {
    if cfg.profiles.Some? && profile in cfg.overrides then
      profile in cfg.profiles.value && a == cfg.overrides[profile]
    else
      && (cfg.profiles.Some? ==> profile in cfg.profiles.value)
      && profile in m.profiles && a == m.profiles[profile]
  }

  function ResolveAuthority(m: Model, cfg: HostCfg, profile: string): (r: Option<Authority>)
    ensures forall a :: r == Some(a) <==> Governs(m, cfg, profile, a)
  {
    if profile !in Permitted(m, cfg) then None
    else if cfg.profiles.Some? && profile in cfg.overrides then Some(cfg.overrides[profile])
    else if profile in m.profiles then Some(m.profiles[profile])
    else None
  }

  /** A host's own override of a profile it permits takes the place of the shared profile, and only there. */
  lemma OverrideWins(m: Model, cfg: HostCfg, profile: string, own: Authority, shared: Authority)
    requires cfg.profiles == Some({profile}) && profile in m.profiles && m.profiles[profile] == shared
    ensures ResolveAuthority(m, cfg.(overrides := map[profile := own]), profile) == Some(own)
    ensures ResolveAuthority(m, cfg.(overrides := map[]), profile) == Some(shared)
    ensures ResolveAuthority(m, cfg.(profiles := None, overrides := map[profile := own]), profile) == Some(shared)
    ensures ResolveAuthority(m, cfg.(profiles := Some({}), overrides := map[profile := own]), profile) == None
  {
    assert profile in {profile};
  }

  /** What an operator's proof is bound to. */
  datatype Request = Request(host: string, nonce: Nonce, ttl: Ttl, requestedAt: nat)

  function RequestOf(host: string, g: Grant): Request
    requires g.Pending?
  {
    Request(host, g.nonce, g.ttl, g.requestedAt)
  }

  /** An authenticator's proof that verified against a request. */
  datatype Proof = Proof(request: Request, authenticator: string)

  // ---------------------------------------------------------------------------
  // Cover
  // ---------------------------------------------------------------------------

  predicate Within(live: set<Channel>, cs: seq<Channel>) {
    forall c :: c in live ==> c in cs
  }

  /** Every channel that may be applied is named in the stored record; a closed or pending host has none. */
  predicate Covered(g: Grant, live: set<Channel>) {
    if HoldsAccess(g) then Within(live, g.channels) else live == {}
  }

  /** What a dead-man was last told: its deadline, the expiry that was stored then, and when. */
  datatype Notice = Notice(deadline: nat, expiry: nat, at: nat)

  /** The dead-man on a host: none, one waiting for its deadline, or one that has fired and taken itself out. */
  datatype DeadMan = Absent | Waiting(notice: Notice) | Fired(notice: Notice, firedAt: nat)

  /** What is really on a host: the channels that may be applied, and the dead-man. */
  datatype Host = Host(live: set<Channel>, deadMan: DeadMan)

  /** Waiting, or gone only because its deadline had come. */
  predicate DoneItsDuty(dm: DeadMan) {
    dm.Waiting? || (dm.Fired? && dm.notice.deadline <= dm.firedAt)
  }

  /** The notice of a renewal that was allowed when it was given. */
  predicate Renewing(n: Notice) {
    n.at < n.expiry <= n.at + RENEWAL_WINDOW_SECS && n.at < n.deadline <= n.at + MAX_TTL_SECS
  }

  /** The deadline is the stored expiry, or that of a renewal given against this very expiry. */
  predicate SetFor(n: Notice, g: Grant)
    requires g.Open?
  {
    n.deadline == g.expiresAt || (n.expiry == g.expiresAt && Renewing(n))
  }

  /** An open grant with ssh-borne access has a dead-man set for it, waiting or fired in its time. */
  predicate Guarded(cfg: HostCfg, g: Grant, host: Host) {
    g.Open? && WantsDeadman(cfg, g.channels) ==> DoneItsDuty(host.deadMan) && SetFor(host.deadMan.notice, g)
  }

  /** The last notice was a renewal that changed the deadline and is not stored. */
  predicate Unstored(n: Notice, g: Grant)
    requires g.Open?
  {
    n.expiry == g.expiresAt && n.deadline != n.expiry
  }

  /**
   How far a dead-man may be from the grant it guards: at the stored expiry exactly unless the last renewal it was
   told of was not stored, and then less than two hours before it or less than a day after.
   */
  lemma DeadlineNearExpiry(cfg: HostCfg, g: Grant, host: Host)
    requires Guarded(cfg, g, host) && g.Open? && WantsDeadman(cfg, g.channels)
    ensures var n := host.deadMan.notice;
            && (n.deadline == g.expiresAt <==> !Unstored(n, g))
            && g.expiresAt < n.deadline + RENEWAL_WINDOW_SECS
            && n.deadline < g.expiresAt + MAX_TTL_SECS
  {
  }

  /** A renewal that a channel refuses after the dead-man took it: a minute brings it forward, a day puts it off. */
  lemma RefusedRenewalMovesDeadMan(cfg: HostCfg, live: set<Channel>)
    requires cfg.hasSsh
    ensures var g := Open(0, 7200, [Ssh]);
            var short, long := Notice(3660, 7200, 3600), Notice(90000, 7200, 3600);
            && Renewed(g, 3600, 60) == Ok(Open(0, short.deadline, [Ssh]))
            && Renewed(g, 3600, 86400) == Ok(Open(0, long.deadline, [Ssh]))
            && Guarded(cfg, g, Host(live, Waiting(short))) && Guarded(cfg, g, Host(live, Waiting(long)))
            && short.deadline < g.expiresAt < long.deadline && Unstored(short, g) && Unstored(long, g)
  {
  }

  /** A waiting dead-man goes only by firing past its deadline, or when nothing can be live. */
  predicate HostFollows(before: Host, after: Host) {
    before.deadMan.Waiting? ==>
      || after.deadMan.Waiting?
      || before.live == {}
      || (after.deadMan.Fired? && after.deadMan.notice == before.deadMan.notice && DoneItsDuty(after.deadMan))
  }

  /** Why an opening was allowed. */
  datatype Warrant =
    | Approved  // the proofs meet the policy
    | Matured   // the proofs meet the policy only because a wait has passed
    | DryRun    // the daemon has no policy
    | Drill     // the host is a canary and the request is a drill's own

  /** One carrying of a pending request to opening. */
  datatype Opened = Opened(host: string, pending: Grant, at: nat, granted: Grant, warrant: Warrant)

  /** What has been proven and opened so far; both only grow. */
  datatype Log = Log(proofs: set<Proof>, openings: seq<Opened>)

  /** The latest opening of a host. */
  function LatestOf(h: string, openings: seq<Opened>): Option<Opened> {
    if openings == [] then None
    else
      var n := |openings| - 1;
      if openings[n].host == h then Some(openings[n]) else LatestOf(h, openings[..n])
  }

  lemma LatestAfter(h: string, openings: seq<Opened>, o: Opened)
    ensures LatestOf(h, openings + [o]) == if o.host == h then Some(o) else LatestOf(h, openings)
  {
    assert (openings + [o])[..|openings|] == openings;
  }

  /** The latest opening of a host is the logged one that no later entry for the host follows. */
  lemma {:induction false} LatestExactly(h: string, openings: seq<Opened>, i: nat)
    requires i < |openings| && openings[i].host == h
    requires forall j :: i < j < |openings| ==> openings[j].host != h
    ensures LatestOf(h, openings) == Some(openings[i])
  {
    var n := |openings| - 1;
    if i < n {
      LatestExactly(h, openings[..n], i);
    }
  }

  lemma {:induction false} LatestIsLogged(h: string, openings: seq<Opened>)
    requires LatestOf(h, openings).Some?
    ensures LatestOf(h, openings).value in openings
  {
    var n := |openings| - 1;
    if openings[n].host != h {
      LatestIsLogged(h, openings[..n]);
    }
  }

  /** Every satisfied authenticator of a pending request proved itself to that very request. */
  ghost predicate Proven(h: string, g: Grant, proofs: set<Proof>) {
    g.Pending? ==> forall id :: id in g.satisfied ==> Proof(RequestOf(h, g), id) in proofs
  }

  /** A grant that holds, or may still hold, what an opening gave. */
  ghost predicate StemsFrom(h: string, g: Grant, o: Opened) {
    && o.host == h && o.granted.Opening? && HoldsAccess(g)
    && (forall c :: c in g.channels ==> c in o.granted.channels)
    && (!g.NeedsRevert? ==> g.openedAt == o.granted.openedAt && g.channels == o.granted.channels)
  }

  /** No grant holds access unless the latest opening of its host gave it. */
  ghost predicate Backed(h: string, g: Grant, openings: seq<Opened>) {
    HoldsAccess(g) ==> LatestOf(h, openings).Some? && StemsFrom(h, g, LatestOf(h, openings).value)
  }

  ghost predicate HostOk(h: string, cfg: HostCfg, g: Grant, host: Host, log: Log) {
    Covered(g, host.live) && Guarded(cfg, g, host) && Proven(h, g, log.proofs) && Backed(h, g, log.openings)
  }

  lemma OkIdle(h: string, cfg: HostCfg, host: Host, log: Log)
    requires host.live == {}
    ensures HostOk(h, cfg, Closed, host, log)
  {
  }

  lemma OkRequest(h: string, cfg: HostCfg, g: Grant, host: Host, log: Log)
    requires g.Pending? && g.satisfied == {} && host.live == {}
    ensures HostOk(h, cfg, g, host, log)
  {
  }

  lemma OkOpening(h: string, cfg: HostCfg, host: Host, log: Log)
    requires log.openings != [] && host.live == {}
    requires var o := log.openings[|log.openings| - 1]; o.host == h && o.granted.Opening?
    ensures HostOk(h, cfg, log.openings[|log.openings| - 1].granted, host, log)
  {
    var n := |log.openings| - 1;
    assert log.openings == log.openings[..n] + [log.openings[n]];
    LatestAfter(h, log.openings[..n], log.openings[n]);
  }

  lemma OkOpen(h: string, cfg: HostCfg, g: Grant, host: Host, log: Log)
    requires HostOk(h, cfg, g, host, log) && g.Opening?
    requires WantsDeadman(cfg, g.channels) ==> host.deadMan.Waiting? && host.deadMan.notice.deadline == g.expiresAt
    ensures HostOk(h, cfg, Open(g.openedAt, g.expiresAt, g.channels), host, log)
  {
    hide LatestOf;
  }

  /** Falling back to needs-revert with any part of the record that still covers what may be live. */
  lemma OkReverting(h: string, cfg: HostCfg, g: Grant, stuck: seq<Channel>, since: nat, host: Host, log: Log)
    requires HostOk(h, cfg, g, host, log) && HoldsAccess(g)
    requires Within(host.live, stuck) && forall c :: c in stuck ==> c in g.channels
    ensures HostOk(h, cfg, NeedsRevert(stuck, since), host, log)
  {
    hide LatestOf;
  }

  /** Losing access keeps everything; so does gaining a recorded channel. */
  lemma OkMoves(h: string, cfg: HostCfg, g: Grant, host: Host, live: set<Channel>, log: Log)
    requires HostOk(h, cfg, g, host, log)
    requires live <= host.live || (HoldsAccess(g) && Within(live, g.channels))
    ensures HostOk(h, cfg, g, host.(live := live), log)
  {
    hide Proven, Backed, WantsDeadman, SetFor;
  }

  lemma OkDeadMan(h: string, cfg: HostCfg, g: Grant, host: Host, dm: DeadMan, log: Log)
    requires HostOk(h, cfg, g, host, log)
    requires g.Open? && WantsDeadman(cfg, g.channels) ==> DoneItsDuty(dm) && SetFor(dm.notice, g)
    ensures HostOk(h, cfg, g, host.(deadMan := dm), log)
  {
    hide Proven, Backed, WantsDeadman, SetFor;
  }

  lemma OkGrows(h: string, cfg: HostCfg, g: Grant, host: Host, log: Log, log': Log)
    requires HostOk(h, cfg, g, host, log)
    requires log.proofs <= log'.proofs && LatestOf(h, log'.openings) == LatestOf(h, log.openings)
    ensures HostOk(h, cfg, g, host, log')
  {
    hide LatestOf, StemsFrom;
  }

  /** Recording one more proven authenticator. */
  lemma OkSatisfied(h: string, cfg: HostCfg, g: Grant, host: Host, log: Log, id: string)
    requires HostOk(h, cfg, g, host, log) && g.Pending? && Proof(RequestOf(h, g), id) in log.proofs
    ensures HostOk(h, cfg, g.(satisfied := g.satisfied + {id}), host, log)
  {
  }

  lemma OkRenewed(h: string, cfg: HostCfg, g: Grant, host: Host, log: Log, expiresAt: nat)
    requires HostOk(h, cfg, g, host, log) && g.Open?
    requires WantsDeadman(cfg, g.channels) ==> host.deadMan.Waiting? && host.deadMan.notice.deadline == expiresAt
    ensures HostOk(h, cfg, Open(g.openedAt, expiresAt, g.channels), host, log)
  {
    hide LatestOf;
  }

  /** The sweeps keep every host as it must be. */
  lemma OkSwept(h: string, cfg: HostCfg, g: Grant, host: Host, log: Log, now: nat)
    requires HostOk(h, cfg, g, host, log)
    ensures HostOk(h, cfg, Lapse(Reap(g, now), now), host, log)
    ensures HostOk(h, cfg, Demote(g, now), host, log)
  {
    hide HostOk;
    OkMeans(h, cfg, g, host, log);
    if g.Opening? || g.Open? {
      OkReverting(h, cfg, g, g.channels, now, host, log);
    }
    if g.Pending? {
      OkIdle(h, cfg, host, log);
    }
  }

  /** What the invariant says of a host, by the kind of its record. */
  lemma OkMeans(h: string, cfg: HostCfg, g: Grant, host: Host, log: Log)
    requires HostOk(h, cfg, g, host, log)
    ensures HoldsAccess(g) ==> Within(host.live, g.channels)
    ensures !HoldsAccess(g) ==> host.live == {}
    ensures Proven(h, g, log.proofs)
    ensures g.Open? && WantsDeadman(cfg, g.channels) ==> DoneItsDuty(host.deadMan) && SetFor(host.deadMan.notice, g)
  {
  }

  // ---------------------------------------------------------------------------
  // Authorised openings
  // ---------------------------------------------------------------------------

  ghost predicate Anchored(o: Opened) {
    && o.pending.Pending? && o.granted.Opening?
    && o.at < o.pending.approvalDeadline
    && o.granted.openedAt == o.at && o.granted.expiresAt == o.at + o.pending.ttl
  }

  /** The authority behind the request's profile is met by its satisfied set after the given wait. */
  ghost predicate PolicyMet(m: Model, cfg: HostCfg, g: Grant, elapsed: nat) {
    && Validated(m) && g.Pending?
    && exists a :: Governs(m, cfg, g.profile, a) && Met(m, a, g.satisfied, elapsed)
  }

  /** The request's policy is met at an instant; a clock that went back has waited for nothing. */
  ghost predicate MetAt(m: Model, cfg: HostCfg, g: Grant, now: nat)
    requires g.Pending?
  {
    PolicyMet(m, cfg, g, if now < g.requestedAt then 0 else now - g.requestedAt)
  }

  function Elapsed(g: Grant, now: nat): nat
    requires g.Pending?
  {
    if now >= g.requestedAt then now - g.requestedAt else 0
  }

  /** Where one authority governs, the policy is met exactly when that authority is. */
  lemma PolicyIsTheAuthority(m: Model, cfg: HostCfg, g: Grant, a: Authority, elapsed: nat)
    requires Validated(m) && g.Pending? && Governs(m, cfg, g.profile, a)
    ensures PolicyMet(m, cfg, g, elapsed) <==> Met(m, a, g.satisfied, elapsed)
  {
    hide Met, Validated;
  }

  /** A profile that is one wait is met from the instant that long after its request, and no sooner. */
  lemma WaitIsMetInTime(m: Model, cfg: HostCfg, g: Grant, dur: nat, now: nat)
    requires Validated(m) && g.Pending? && dur > 0
    requires Governs(m, cfg, g.profile, Authority(1, [WeightedFactor(1, Wait(dur))]))
    ensures MetAt(m, cfg, g, now) <==> g.requestedAt + dur <= now
  {
    hide Met, Validated, Governs, PolicyMet;
    var a := Authority(1, [WeightedFactor(1, Wait(dur))]);
    var elapsed := if now < g.requestedAt then 0 else now - g.requestedAt;
    PolicyIsTheAuthority(m, cfg, g, a, elapsed);
    var marks := [dur <= elapsed];
    MetExactly(m, a, g.satisfied, elapsed, marks);
    assert Marked(a.factors, marks) == if dur <= elapsed then 1 else 0;
  }

  /** Every authority a host can resolve passed its load checks. */
  ghost predicate PoliciesLoaded(inventory: Inventory, m: Model) {
    && Validated(m)
    && forall h, profile, a :: h in inventory && Governs(m, inventory[h], profile, a) ==> LoadedAuthority(m, a)
  }

  ghost predicate LoadedAuthority(m: Model, a: Authority) {
    WellBuilt(a) && Resolves(m, a)
  }

  /** A named profile, or the only permitted one when none is named, whose longest wait ends inside the window. */
  ghost predicate Choosable(m: Model, cfg: HostCfg, window: nat, named: Option<string>, profile: string) {
    && (if named.Some? then named.value == profile else Permitted(m, cfg) == {profile})
    && exists a, longest: nat ::
         Governs(m, cfg, profile, a) && LongestWait(m.groups, a.factors, longest) && longest < window
  }

  /** The profile can be met strictly inside the window: everyone proves, and the longest wait passes. */
  ghost predicate CanBeMet(m: Model, cfg: HostCfg, profile: string, window: nat) {
    Validated(m) && exists a, longest: nat ::
      Governs(m, cfg, profile, a) && longest < window && Met(m, a, m.authenticators, longest)
  }

  lemma OnlyMember(s: set<string>, x: string)
    requires |s| == 1 && x in s
    ensures s == {x}
  {
    assert |s - {x}| == 0;
  }

  /** No authority stands behind the profile, or the host does not permit it. */
  ghost predicate Ungoverned(m: Model, cfg: HostCfg, profile: string) {
    forall a :: !Governs(m, cfg, profile, a)
  }

  /** A pending request may be carried to opening: its deadline has not come, and its expiry is an instant. */
  predicate CanClaim(g: Grant, now: nat)
    requires g.Pending?
  {
    now < g.approvalDeadline && now + g.ttl <= CLOCK_MAX
  }

  /** An open grant may be renewed: it has not expired, has at most two hours left, and the new expiry is an instant. */
  predicate CanRenew(g: Grant, ttl: Ttl, now: nat) {
    g.Open? && now < g.expiresAt <= now + 7200 && now + ttl <= CLOCK_MAX
  }

  /** What each warrant vouches for at the instant of opening. */
  ghost predicate Vouches(approval: Option<Model>, cfg: HostCfg, g: Grant, now: nat, w: Warrant)
    requires g.Pending?
  {
    match w
    case Approved => approval.Some? && MetAt(approval.value, cfg, g, now)
    case Matured => approval.Some? && MetAt(approval.value, cfg, g, now) && !PolicyMet(approval.value, cfg, g, 0)
    case DryRun => approval.None?
    case Drill => cfg.drill && g.profile == DRILL_PROFILE && g.ttl == DRILL_TTL_SECS && g.satisfied == {}
  }

  /** An opening whose request was in time, whose proofs are real, and whose warrant vouches for it. */
  ghost predicate Warranted(inventory: Inventory, approval: Option<Model>, proofs: set<Proof>, o: Opened) {
    && Anchored(o)
    && o.host in inventory
    && Proven(o.host, o.pending, proofs)
    && Vouches(approval, inventory[o.host], o.pending, o.at, o.warrant)
  }

  ghost predicate AllWarranted(inventory: Inventory, approval: Option<Model>, log: Log) {
    forall i :: 0 <= i < |log.openings| ==> Warranted(inventory, approval, log.proofs, log.openings[i])
  }

  lemma MoreProofs(inventory: Inventory, approval: Option<Model>, log: Log, p: Proof)
    requires AllWarranted(inventory, approval, log)
    ensures AllWarranted(inventory, approval, log.(proofs := log.proofs + {p}))
  {
    hide Vouches;
    forall i | 0 <= i < |log.openings| ensures Warranted(inventory, approval, log.proofs + {p}, log.openings[i]) {
      assert Warranted(inventory, approval, log.proofs, log.openings[i]);
    }
  }

  lemma OneMoreOpening(inventory: Inventory, approval: Option<Model>, log: Log, o: Opened)
    requires AllWarranted(inventory, approval, log) && Warranted(inventory, approval, log.proofs, o)
    ensures AllWarranted(inventory, approval, log.(openings := log.openings + [o]))
  {
    hide Warranted;
  }

  // ---------------------------------------------------------------------------
  // Channels in order
  // ---------------------------------------------------------------------------

  /** Newest first. */
  function Backwards(cs: seq<Channel>): (r: seq<Channel>)
    ensures |r| == |cs| && forall c :: c in r <==> c in cs
    ensures forall i :: 0 <= i < |cs| ==> r[i] == cs[|cs| - 1 - i]
  {
    if cs == [] then []
    else
      assert cs == cs[..|cs| - 1] + [cs[|cs| - 1]];
      [cs[|cs| - 1]] + Backwards(cs[..|cs| - 1])
  }

  function Drivable(drivers: set<Channel>, requested: seq<Channel>): (r: seq<Channel>)
    ensures forall c :: c in r <==> c in requested && c in drivers
  {
    if requested == [] then []
    else
      var front, last := requested[..|requested| - 1], requested[|requested| - 1];
      assert requested == front + [last];
      Drivable(drivers, front) + if last in drivers then [last] else []
  }

  /** What can be driven keeps its order. */
  lemma {:induction false} DrivableInOrder(drivers: set<Channel>, cs: seq<Channel>, more: seq<Channel>)
    ensures Drivable(drivers, cs + more) == Drivable(drivers, cs) + Drivable(drivers, more)
  {
    hide Drivable;
    if more == [] {
      assert cs + more == cs;
      assert Drivable(drivers, []) == [] by {
        DrivableAll(drivers, []);
      }
      assert Drivable(drivers, cs) + [] == Drivable(drivers, cs);
    } else {
      var front, last := more[..|more| - 1], more[|more| - 1];
      var kept := if last in drivers then [last] else [];
      assert cs + more == (cs + front) + [last] && more == front + [last];
      calc {
        Drivable(drivers, cs + more);
        { DrivableNext(drivers, cs + front, last); }
        Drivable(drivers, cs + front) + kept;
        { DrivableInOrder(drivers, cs, front); }
        (Drivable(drivers, cs) + Drivable(drivers, front)) + kept;
        Drivable(drivers, cs) + (Drivable(drivers, front) + kept);
        { DrivableNext(drivers, front, last); }
        Drivable(drivers, cs) + Drivable(drivers, more);
      }
    }
  }

  lemma DrivableNext(drivers: set<Channel>, cs: seq<Channel>, c: Channel)
    ensures Drivable(drivers, cs + [c]) == Drivable(drivers, cs) + if c in drivers then [c] else []
  {
    assert (cs + [c])[..|cs|] == cs;
  }

  /** Nothing that has a driver is lost. */
  lemma {:induction false} DrivableAll(drivers: set<Channel>, cs: seq<Channel>)
    requires forall c :: c in cs ==> c in drivers
    ensures Drivable(drivers, cs) == cs
  {
    if cs != [] {
      DrivableAll(drivers, cs[..|cs| - 1]);
      assert cs == cs[..|cs| - 1] + [cs[|cs| - 1]];
    }
  }

  // ---------------------------------------------------------------------------
  // What was asked of the hosts, in order, and what they answered
  // ---------------------------------------------------------------------------

  /** `NoDriver` stands for a channel nobody can ask. */
  datatype Answer = Yes | No | NoDriver

  function Said(ok: bool): Answer {
    if ok then Yes else No
  }

  /** A question to a channel's driver or to the dead-man of a host. */
  datatype Call =
    | Apply(host: string, channel: Channel, answer: Answer)
    | Revert(host: string, channel: Channel, answer: Answer)
    | Extend(host: string, channel: Channel, answer: Answer)
    | Confirm(host: string, channel: Channel, answer: Answer)
    | Arm(host: string, deadline: nat, answer: Answer)
    | Disarm(host: string, answer: Answer)

  function Applies(h: string, cs: seq<Channel>): seq<Call> {
    seq(|cs|, i requires 0 <= i < |cs| => Apply(h, cs[i], Yes))
  }

  function Reverts(h: string, cs: seq<Channel>): seq<Call> {
    seq(|cs|, i requires 0 <= i < |cs| => Revert(h, cs[i], Yes))
  }

  function Extends(h: string, cs: seq<Channel>): seq<Call> {
    seq(|cs|, i requires 0 <= i < |cs| => Extend(h, cs[i], Yes))
  }

  /** An opening that nothing refuses: the channels in order, then the dead-man if it is wanted. */
  function OpenCalls(h: string, cfg: HostCfg, cs: seq<Channel>, expiresAt: nat): seq<Call> {
    Applies(h, cs) + if WantsDeadman(cfg, cs) then [Arm(h, expiresAt, Yes)] else []
  }

  /** A renewal that nothing refuses: the dead-man if the host can have one, then the channels in order. */
  function RenewCalls(h: string, cfg: HostCfg, cs: seq<Channel>, expiresAt: nat): seq<Call> {
    (if cfg.hasSsh then [Arm(h, expiresAt, Yes)] else []) + Extends(h, cs)
  }

  /** A close that nothing refuses: the channels newest first, then the dead-man if the host can have one. */
  function CloseCalls(h: string, cfg: HostCfg, cs: seq<Channel>): seq<Call> {
    Reverts(h, Backwards(cs)) + if cfg.hasSsh then [Disarm(h, Yes)] else []
  }

  /** The planned question, not answered yes. */
  predicate Declined(planned: Call, c: Call) {
    && c.answer != Yes
    && match planned
       case Apply(h, ch, _) => c == Apply(h, ch, c.answer)
       case Revert(h, ch, _) => c == Revert(h, ch, c.answer)
       case Extend(h, ch, _) => c == Extend(h, ch, c.answer)
       case Confirm(h, ch, _) => c == Confirm(h, ch, c.answer)
       case Arm(h, deadline, _) => c == Arm(h, deadline, c.answer)
       case Disarm(h, _) => c == Disarm(h, c.answer)
  }

  /** The calls follow the plan and end at the first that is declined. */
  predicate StopsShort(plan: seq<Call>, calls: seq<Call>) {
    && 0 < |calls| <= |plan|
    && calls[..|calls| - 1] == plan[..|calls| - 1]
    && Declined(plan[|calls| - 1], calls[|calls| - 1])
  }

  predicate RevertOf(h: string, c: Channel, drivers: set<Channel>, call: Call) {
    call == Revert(h, c, call.answer) && (call.answer == NoDriver <==> c !in drivers)
  }

  /** Every channel was asked to revert, once each, in this order, whatever the others answered. */
  predicate RevertsInTurn(h: string, order: seq<Channel>, drivers: set<Channel>, calls: seq<Call>) {
    |calls| == |order| && forall i :: 0 <= i < |order| ==> RevertOf(h, order[i], drivers, calls[i])
  }

  /** The channels whose revert was not answered yes, in order. */
  function Kept(calls: seq<Call>): seq<Channel> {
    if calls == [] then []
    else
      var last := calls[|calls| - 1];
      Kept(calls[..|calls| - 1]) + if last.Revert? && last.answer != Yes then [last.channel] else []
  }

  lemma {:induction false} KeptExactly(calls: seq<Call>, c: Channel)
    ensures c in Kept(calls)
       <==> exists i :: 0 <= i < |calls| && calls[i].Revert? && calls[i].channel == c && calls[i].answer != Yes
  {
    if calls != [] {
      var front, last := calls[..|calls| - 1], calls[|calls| - 1];
      KeptExactly(front, c);
      if i :| 0 <= i < |calls| && calls[i].Revert? && calls[i].channel == c && calls[i].answer != Yes {
        if i < |front| {
          assert front[i] == calls[i];
        }
      }
      if i :| 0 <= i < |front| && front[i].Revert? && front[i].channel == c && front[i].answer != Yes {
        assert calls[i] == front[i];
      }
    }
  }

  /** What is kept keeps its order. */
  lemma {:induction false} KeptInOrder(calls: seq<Call>, more: seq<Call>)
    ensures Kept(calls + more) == Kept(calls) + Kept(more)
  {
    if more == [] {
      assert calls + more == calls;
    } else {
      var front := more[..|more| - 1];
      KeptInOrder(calls, front);
      assert (calls + more)[..|calls + more| - 1] == calls + front;
      var last := more[|more| - 1];
      var kept := if last.Revert? && last.answer != Yes then [last.channel] else [];
      assert Kept(calls) + (Kept(front) + kept) == (Kept(calls) + Kept(front)) + kept;
    }
  }

  /** Nothing is kept exactly when every revert went through. */
  lemma {:induction false} KeptNothing(h: string, order: seq<Channel>, drivers: set<Channel>, calls: seq<Call>)
    requires RevertsInTurn(h, order, drivers, calls)
    ensures Kept(calls) == [] <==> calls == Reverts(h, order)
    ensures forall c :: c in Kept(calls) ==> c in order
  {
    if order != [] {
      var n := |order| - 1;
      KeptNothing(h, order[..n], drivers, calls[..n]);
      assert RevertOf(h, order[n], drivers, calls[n]);
      assert calls == calls[..n] + [calls[n]];
      assert Reverts(h, order) == Reverts(h, order[..n]) + [Revert(h, order[n], Yes)];
    }
  }

  lemma InTurnNext(h: string, order: seq<Channel>, drivers: set<Channel>, k: nat, calls: seq<Call>, call: Call)
    requires k < |order| && RevertsInTurn(h, order[..k], drivers, calls) && RevertOf(h, order[k], drivers, call)
    ensures RevertsInTurn(h, order[..k + 1], drivers, calls + [call])
    ensures Kept(calls + [call]) == Kept(calls) + if call.answer == Yes then [] else [order[k]]
  {
    hide RevertOf;
    assert (calls + [call])[..|calls|] == calls;
    assert call == Revert(h, order[k], call.answer) by {
      RevertIsOf(h, order[k], drivers, call);
    }
  }

  lemma RevertIsOf(h: string, c: Channel, drivers: set<Channel>, call: Call)
    requires RevertOf(h, c, drivers, call)
    ensures call == Revert(h, c, call.answer)
  {
  }

  /** The record a failed opening ends with: closed when everything came out again, else what did not. */
  function AfterUndoing(calls: seq<Call>, now: nat): Grant {
    if Kept(calls) == [] then Closed else NeedsRevert(Kept(calls), now)
  }

  /** An opening given up: it stops short, and whatever it tried is reverted, newest first. */
  ghost predicate GaveUp(
      h: string, cfg: HostCfg, cs: seq<Channel>, expiresAt: nat, drivers: set<Channel>, now: nat, calls: seq<Call>,
      after: Grant)
  {
    exists k: nat :: GaveUpAt(h, cfg, cs, expiresAt, drivers, now, calls, after, k)
  }

  ghost predicate GaveUpAt(
      h: string, cfg: HostCfg, cs: seq<Channel>, expiresAt: nat, drivers: set<Channel>, now: nat, calls: seq<Call>,
      after: Grant, k: nat)
  {
    && k <= |calls|
    && StopsShort(OpenCalls(h, cfg, cs, expiresAt), calls[..k])
    && RevertsInTurn(h, Backwards(cs[..if k < |cs| then k else |cs|]), drivers, calls[k..])
    && after == AfterUndoing(calls[k..], now)
  }

  /**
   One revert attempt: every channel newest first, then, if none was kept, the dead-man; and what is left to revert,
   if anything.
   */
  ghost predicate RevertAttempt(
      h: string, cfg: HostCfg, cs: seq<Channel>, drivers: set<Channel>, calls: seq<Call>, left: Option<seq<Channel>>)
  {
    && |cs| <= |calls|
    && RevertsInTurn(h, Backwards(cs), drivers, calls[..|cs|])
    && var kept, rest := Kept(calls[..|cs|]), calls[|cs|..];
       if kept != [] then rest == [] && left == Some(kept)
       else if !cfg.hasSsh then rest == [] && left == None
       else
         && |rest| == 1 && rest[0] == Disarm(h, rest[0].answer)
         && left == if rest[0].answer == Yes then None else Some(cs)
  }

  /** An attempt leaves nothing exactly when nothing was refused. */
  lemma AttemptSucceeds(
      h: string, cfg: HostCfg, cs: seq<Channel>, drivers: set<Channel>, calls: seq<Call>, left: Option<seq<Channel>>)
    requires RevertAttempt(h, cfg, cs, drivers, calls, left)
    ensures left.None? <==> calls == CloseCalls(h, cfg, cs)
  {
    hide Kept, RevertsInTurn, Backwards, Reverts;
    var n := |cs|;
    KeptNothing(h, Backwards(cs), drivers, calls[..n]);
    assert calls == calls[..n] + calls[n..];
    assert |Reverts(h, Backwards(cs))| == n by {
      RevertsLength(h, Backwards(cs));
    }
    if calls == CloseCalls(h, cfg, cs) {
      assert calls[..n] == Reverts(h, Backwards(cs));
    }
  }

  lemma RevertsLength(h: string, cs: seq<Channel>)
    ensures |Reverts(h, cs)| == |cs|
  {
  }

  // ---------------------------------------------------------------------------
  // Putting calls together
  // ---------------------------------------------------------------------------

  lemma PlansGrow(h: string, cs: seq<Channel>, k: nat)
    requires k < |cs|
    ensures Applies(h, cs[..k + 1]) == Applies(h, cs[..k]) + [Apply(h, cs[k], Yes)]
    ensures Extends(h, cs[..k + 1]) == Extends(h, cs[..k]) + [Extend(h, cs[k], Yes)]
  {
  }

  /** A step that is declined after `k` that went through. */
  lemma StopsAt(plan: seq<Call>, k: nat, call: Call)
    requires k < |plan| && Declined(plan[k], call)
    ensures StopsShort(plan, plan[..k] + [call])
  {
    hide Declined;
    var calls := plan[..k] + [call];
    assert calls[..|calls| - 1] == plan[..k];
  }

  /** Stopping short of a plan is stopping short of a longer one. */
  lemma StopsShorter(plan: seq<Call>, more: seq<Call>, calls: seq<Call>)
    requires StopsShort(plan, calls)
    ensures StopsShort(plan + more, calls)
  {
    hide Declined;
    var n := |calls| - 1;
    assert (plan + more)[..n] == plan[..n];
  }

  lemma PlanAt(h: string, cs: seq<Channel>, k: nat)
    requires k < |cs|
    ensures |Applies(h, cs)| == |Extends(h, cs)| == |cs|
    ensures Applies(h, cs)[k] == Apply(h, cs[k], Yes) && Extends(h, cs)[k] == Extend(h, cs[k], Yes)
    ensures Applies(h, cs)[..k] == Applies(h, cs[..k]) && Extends(h, cs)[..k] == Extends(h, cs[..k])
  {
  }

  lemma NewestFirst(cs: seq<Channel>, k: nat)
    requires k < |cs|
    ensures Backwards(cs[..k + 1]) == [cs[k]] + Backwards(cs[..k])
  {
    assert cs[..k + 1][..k] == cs[..k];
  }

  /** Only a channel without a driver goes unasked. */
  predicate SkipsOnlyDriverless(drivers: set<Channel>, calls: seq<Call>) {
    forall i :: 0 <= i < |calls| && calls[i].answer == NoDriver ==> calls[i].Extend? && calls[i].channel !in drivers
  }

  lemma ExtendsLength(h: string, cs: seq<Channel>)
    ensures |Extends(h, cs)| == |cs|
  {
  }

  lemma RenewalAllTold(h: string, cs: seq<Channel>, drivers: set<Channel>)
    ensures SkipsOnlyDriverless(drivers, Extends(h, cs))
  {
  }

  lemma RenewalStops(h: string, cs: seq<Channel>, drivers: set<Channel>, k: nat, answer: Answer)
    requires k < |cs| && answer != Yes && (answer == NoDriver ==> cs[k] !in drivers)
    ensures var calls := Extends(h, cs[..k]) + [Extend(h, cs[k], answer)];
            StopsShort(Extends(h, cs), calls) && SkipsOnlyDriverless(drivers, calls)
  {
    hide StopsShort;
    PlanAt(h, cs, k);
    StopsAt(Extends(h, cs), k, Extend(h, cs[k], answer));
    RenewalAllTold(h, cs[..k], drivers);
  }

  lemma StopsLater(first: seq<Call>, plan: seq<Call>, calls: seq<Call>)
    requires StopsShort(plan, calls)
    ensures StopsShort(first + plan, first + calls)
  {
    hide Declined;
    var n := |calls| - 1;
    assert (first + calls)[..|first| + n] == first + calls[..n];
    assert (first + plan)[..|first| + n] == first + plan[..n];
  }

  lemma DeadManStopsRenewal(h: string, cfg: HostCfg, cs: seq<Channel>, deadline: nat, drivers: set<Channel>)
    requires cfg.hasSsh
    ensures StopsShort(RenewCalls(h, cfg, cs, deadline), [Arm(h, deadline, No)])
    ensures SkipsOnlyDriverless(drivers, [Arm(h, deadline, No)])
  {
    hide Extends, StopsShort;
    var plan := RenewCalls(h, cfg, cs, deadline);
    StopsAt(plan, 0, Arm(h, deadline, No));
    assert plan[..0] + [Arm(h, deadline, No)] == [Arm(h, deadline, No)];
  }

  lemma RenewalGoesOn(
      h: string, cfg: HostCfg, cs: seq<Channel>, deadline: nat, drivers: set<Channel>,
      first: seq<Call>, rest: seq<Call>)
    requires first == if cfg.hasSsh then [Arm(h, deadline, Yes)] else []
    ensures rest == Extends(h, cs) ==> first + rest == RenewCalls(h, cfg, cs, deadline)
    ensures StopsShort(Extends(h, cs), rest) ==> StopsShort(RenewCalls(h, cfg, cs, deadline), first + rest)
    ensures SkipsOnlyDriverless(drivers, rest) ==> SkipsOnlyDriverless(drivers, first + rest)
  {
    hide Extends, StopsShort;
    if StopsShort(Extends(h, cs), rest) {
      StopsLater(first, Extends(h, cs), rest);
    }
  }

  lemma NothingAsked(h: string, order: seq<Channel>, drivers: set<Channel>)
    ensures RevertsInTurn(h, order[..0], drivers, []) && Kept([]) == []
  {
  }

  lemma InTurnLength(h: string, order: seq<Channel>, drivers: set<Channel>, calls: seq<Call>)
    requires RevertsInTurn(h, order, drivers, calls)
    ensures |calls| == |order|
  {
  }

  /** A channel refused: the ones before it went in, and it and they are then reverted, newest first. */
  ghost predicate FailedAt(
      h: string, cs: seq<Channel>, drivers: set<Channel>, at: nat, calls: seq<Call>, stuck: seq<Channel>)
  {
    && at < |cs| && at + 1 <= |calls|
    && calls[..at + 1] == Applies(h, cs[..at]) + [Apply(h, cs[at], No)]
    && RevertsInTurn(h, Backwards(cs[..at + 1]), drivers, calls[at + 1..])
    && stuck == Kept(calls[at + 1..])
  }

  lemma FailedIsGivenUp(
      h: string, cfg: HostCfg, cs: seq<Channel>, expiresAt: nat, drivers: set<Channel>, now: nat,
      at: nat, calls: seq<Call>, stuck: seq<Channel>)
    requires FailedAt(h, cs, drivers, at, calls, stuck)
    ensures GaveUp(h, cfg, cs, expiresAt, drivers, now, calls, if stuck == [] then Closed else NeedsRevert(stuck, now))
  {
    hide RevertsInTurn, Kept, Backwards, Applies, GaveUp;
    GivesUpAtChannel(h, cfg, cs, expiresAt, drivers, now, at, calls[..at + 1], calls[at + 1..]);
    assert calls == calls[..at + 1] + calls[at + 1..];
  }

  /** A channel that is declined ends the opening there. */
  lemma GivesUpAtChannel(
      h: string, cfg: HostCfg, cs: seq<Channel>, expiresAt: nat, drivers: set<Channel>, now: nat,
      k: nat, asked: seq<Call>, undone: seq<Call>)
    requires k < |cs| && asked == Applies(h, cs[..k]) + [Apply(h, cs[k], No)]
    requires RevertsInTurn(h, Backwards(cs[..k + 1]), drivers, undone)
    ensures GaveUp(h, cfg, cs, expiresAt, drivers, now, asked + undone, AfterUndoing(undone, now))
  {
    hide RevertsInTurn, Kept, Backwards, Applies, StopsShort;
    PlanAt(h, cs, k);
    StopsAt(Applies(h, cs), k, Apply(h, cs[k], No));
    StopsShorter(Applies(h, cs), OpenCalls(h, cfg, cs, expiresAt)[|cs|..], asked);
    assert OpenCalls(h, cfg, cs, expiresAt) == Applies(h, cs) + OpenCalls(h, cfg, cs, expiresAt)[|cs|..];
    AppliesLength(h, cs[..k]);
    var calls := asked + undone;
    assert calls[..k + 1] == asked && calls[k + 1..] == undone;
    assert k + 1 == |cs| ==> cs[..|cs|] == cs[..k + 1];
    assert GaveUpAt(h, cfg, cs, expiresAt, drivers, now, calls, AfterUndoing(undone, now), k + 1);
  }

  lemma AppliesLength(h: string, cs: seq<Channel>)
    ensures |Applies(h, cs)| == |cs|
  {
  }

  /** A dead-man that does not go in ends an opening whose channels all went in. */
  lemma GivesUpAtDeadMan(
      h: string, cfg: HostCfg, cs: seq<Channel>, expiresAt: nat, drivers: set<Channel>, now: nat, undone: seq<Call>)
    requires WantsDeadman(cfg, cs) && RevertsInTurn(h, Backwards(cs), drivers, undone)
    ensures GaveUp(h, cfg, cs, expiresAt, drivers, now, Applies(h, cs) + [Arm(h, expiresAt, No)] + undone,
                   AfterUndoing(undone, now))
  {
    hide RevertsInTurn, Kept, Backwards, Applies, StopsShort, WantsDeadman;
    var n, plan := |cs|, OpenCalls(h, cfg, cs, expiresAt);
    AppliesLength(h, cs);
    StopsAt(plan, n, Arm(h, expiresAt, No));
    assert plan[..n] == Applies(h, cs);
    var asked := Applies(h, cs) + [Arm(h, expiresAt, No)];
    var calls := asked + undone;
    assert calls[..n + 1] == asked && calls[n + 1..] == undone && cs[..n] == cs;
    assert GaveUpAt(h, cfg, cs, expiresAt, drivers, now, calls, AfterUndoing(undone, now), n + 1);
  }
}
