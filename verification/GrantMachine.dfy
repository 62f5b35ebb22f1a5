/**
 The grant state machine of one host, with write-ahead intent: `Opening` is stored
 before a driver runs, and `NeedsRevert` is the only stored way back from `Open`.
 Times are whole seconds.
 */
module GrantMachine {
  import opened Common
  import opened Cbor

  datatype Channel = Ssh | AuthorizedKeys | Bmc | Vnc | Http | Mqtt | Serial | Device

  type Nonce = s: bytes | |s| == 32 witness seq(32, _ => 0)

  /** The last representable instant. */
  const CLOCK_MAX: nat := 0x7fff_ffff_ffff_ffff

  const MAX_APPROVAL_WINDOW_SECS: nat := MAX_TTL_SECS
  const RENEWAL_WINDOW_SECS: nat := 2 * 60 * 60

  datatype Grant =
    | Closed
    | Pending(requestedAt: nat, approvalDeadline: nat, ttl: Ttl, nonce: Nonce, profile: string, satisfied: set<string>)
    | Opening(openedAt: nat, expiresAt: nat, channels: seq<Channel>)
    | Open(openedAt: nat, expiresAt: nat, channels: seq<Channel>)
    | NeedsRevert(channels: seq<Channel>, since: nat)

  datatype Status =
    | IsClosed
    | AwaitingApproval(remaining: nat)
    | ApprovalExpired
    | IsOpening
    | IsOpen(remaining: nat)
    | Expired
    | MustRevert(stuck: seq<Channel>)

  datatype GrantError =
    | AlreadyOpen | NotOpen | MidOpen | AlreadyPending | NotPending | ApprovalWindowElapsed
    | TooEarly(remaining: nat) | ClockOverflow

  /** What an observer sees at `now`; the deadline instant itself is too late. */
  function Observe(g: Grant, now: nat): Status {
    match g
    case Closed => IsClosed
    case Pending(_, deadline, _, _, _, _) =>
      if now < deadline then AwaitingApproval(deadline - now) else ApprovalExpired
    case Opening(_, _, _) => IsOpening
    case Open(_, expiresAt, _) => if now < expiresAt then IsOpen(expiresAt - now) else Expired
    case NeedsRevert(channels, _) => MustRevert(channels)
  }

  /** Time left is time to the stored deadline, and is never zero. */
  lemma TimeLeft(g: Grant, now: nat, left: nat)
    ensures Observe(g, now) == IsOpen(left) <==> g.Open? && left > 0 && now + left == g.expiresAt
    ensures Observe(g, now) == AwaitingApproval(left) <==> g.Pending? && left > 0 && now + left == g.approvalDeadline
    ensures Observe(g, now).Expired? <==> g.Open? && g.expiresAt <= now
    ensures Observe(g, now).ApprovalExpired? <==> g.Pending? && g.approvalDeadline <= now
  {
  }

  // ---------------------------------------------------------------------------
  // Transitions
  // ---------------------------------------------------------------------------

  function BeginPending(
      g: Grant, now: nat, deadline: nat, ttl: Ttl, nonce: Nonce, profile: string): Result<Grant, GrantError> {
    match Observe(g, now)
    case IsClosed => Ok(Pending(now, deadline, ttl, nonce, profile, {}))
    case IsOpening => Err(MidOpen)
    case AwaitingApproval(_) => Err(AlreadyPending)
    case ApprovalExpired => Err(AlreadyPending)
    case _ => Err(AlreadyOpen)
  }

  function AddSatisfied(g: Grant, now: nat, id: string): Result<Grant, GrantError> {
    match Observe(g, now)
    case AwaitingApproval(_) => Ok(g.(satisfied := g.satisfied + {id}))
    case ApprovalExpired => Err(ApprovalWindowElapsed)
    case _ => Err(NotPending)
  }

  function ApproveToOpening(g: Grant, now: nat, channels: seq<Channel>): Result<Grant, GrantError> {
    match Observe(g, now)
    case AwaitingApproval(_) =>
      if now + g.ttl > CLOCK_MAX then Err(ClockOverflow) else Ok(Opening(now, now + g.ttl, channels))
    case ApprovalExpired => Err(ApprovalWindowElapsed)
    case _ => Err(NotPending)
  }

  function CancelPending(g: Grant): Result<Grant, GrantError> {
    if g.Pending? then Ok(Closed) else Err(NotPending)
  }

  function FinishOpen(g: Grant): Result<Grant, GrantError> {
    if g.Opening? then Ok(Open(g.openedAt, g.expiresAt, g.channels)) else Err(NotOpen)
  }

  function AbortOpen(g: Grant): Result<Grant, GrantError> {
    if g.Opening? then Ok(Closed) else Err(NotOpen)
  }

  function FailOpen(g: Grant, stuck: seq<Channel>, now: nat): Result<Grant, GrantError> {
    if g.Opening? then Ok(NeedsRevert(stuck, now)) else Err(NotOpen)
  }

  function BeginRevert(g: Grant, now: nat): Result<Grant, GrantError> {
    match g
    case Open(_, _, channels) => Ok(NeedsRevert(channels, now))
    case NeedsRevert(_, _) => Ok(g)
    case Opening(_, _, _) => Err(MidOpen)
    case Pending(_, _, _, _, _, _) => Err(NotPending)
    case Closed => Err(NotOpen)
  }

  function RetainStuck(g: Grant, stuck: seq<Channel>): Result<Grant, GrantError> {
    if g.NeedsRevert? then Ok(g.(channels := stuck)) else Err(NotOpen)
  }

  function FinishRevert(g: Grant): Result<Grant, GrantError> {
    if g.NeedsRevert? then Ok(Closed) else Err(NotOpen)
  }

  function Renewed(g: Grant, now: nat, ttl: Ttl): Result<Grant, GrantError> {
    match Observe(g, now)
    case IsOpen(remaining) =>
      if remaining > RENEWAL_WINDOW_SECS then Err(TooEarly(remaining))
      else if now + ttl > CLOCK_MAX then Err(ClockOverflow)
      else Ok(g.(expiresAt := now + ttl))
    case _ => Err(NotOpen)
  }

  // ---------------------------------------------------------------------------
  // Runs of store transactions on one host, from any number of actors
  // ---------------------------------------------------------------------------

  datatype Move =
    | DoBeginPending(now: nat, deadline: nat, ttl: Ttl, nonce: Nonce, profile: string)
    | DoAddSatisfied(now: nat, id: string)
    | DoApprove(now: nat, channels: seq<Channel>)
    | DoCancel
    | DoFinishOpen
    | DoAbortOpen
    | DoFailOpen(stuck: seq<Channel>, now: nat)
    | DoBeginRevert(now: nat)
    | DoRetainStuck(stuck: seq<Channel>)
    | DoFinishRevert
    | DoRenew(now: nat, ttl: Ttl)

  function Attempt(g: Grant, m: Move): Result<Grant, GrantError> {
    match m
    case DoBeginPending(now, deadline, ttl, nonce, profile) => BeginPending(g, now, deadline, ttl, nonce, profile)
    case DoAddSatisfied(now, id) => AddSatisfied(g, now, id)
    case DoApprove(now, channels) => ApproveToOpening(g, now, channels)
    case DoCancel => CancelPending(g)
    case DoFinishOpen => FinishOpen(g)
    case DoAbortOpen => AbortOpen(g)
    case DoFailOpen(stuck, now) => FailOpen(g, stuck, now)
    case DoBeginRevert(now) => BeginRevert(g, now)
    case DoRetainStuck(stuck) => RetainStuck(g, stuck)
    case DoFinishRevert => FinishRevert(g)
    case DoRenew(now, ttl) => Renewed(g, now, ttl)
  }

  /** The grant after the first `n` transactions; a refused one commits nothing. */
  function After(moves: seq<Move>, n: nat): Grant
    requires n <= |moves|
  {
    if n == 0 then Closed
    else
      var g := After(moves, n - 1);
      match Attempt(g, moves[n - 1]) case Ok(g') => g' case Err(_) => g
  }

  predicate Succeeds(moves: seq<Move>, i: nat)
    requires i < |moves|
  {
    Attempt(After(moves, i), moves[i]).Ok?
  }

  predicate Claims(moves: seq<Move>, i: nat)
    requires i < |moves|
  {
    moves[i].DoApprove? && Succeeds(moves, i)
  }

  /** The transaction that recorded the request pending at `n`. */
  function RequestAt(moves: seq<Move>, n: nat): (k: nat)
    requires n <= |moves| && After(moves, n).Pending?
    ensures k < n && moves[k].DoBeginPending? && Succeeds(moves, k)
    ensures forall i :: k < i < n ==> After(moves, i).Pending?
  {
    if moves[n - 1].DoBeginPending? && Succeeds(moves, n - 1) then n - 1 else RequestAt(moves, n - 1)
  }

  /** Under any interleaving, each pending request is carried to opening at most once. */
  lemma ClaimedOnce(moves: seq<Move>, i: nat, j: nat)
    requires i < j < |moves| && Claims(moves, i) && Claims(moves, j)
    ensures After(moves, i).Pending? && After(moves, j).Pending?
    ensures RequestAt(moves, i) < i < RequestAt(moves, j) < j
  {
    var k := RequestAt(moves, j);
    assert After(moves, i + 1).Opening?;
  }

  /** Which transactions commit, in the stored fields and the instant alone; each deadline is itself too late. */
  predicate Allowed(g: Grant, m: Move) {
    match m
    case DoBeginPending(_, _, _, _, _) => g.Closed?
    case DoAddSatisfied(now, _) => g.Pending? && now < g.approvalDeadline
    case DoApprove(now, _) => g.Pending? && now < g.approvalDeadline && now + g.ttl <= CLOCK_MAX
    case DoCancel => g.Pending?
    case DoFinishOpen => g.Opening?
    case DoAbortOpen => g.Opening?
    case DoFailOpen(_, _) => g.Opening?
    case DoBeginRevert(_) => g.Open? || g.NeedsRevert?
    case DoRetainStuck(_) => g.NeedsRevert?
    case DoFinishRevert => g.NeedsRevert?
    case DoRenew(now, ttl) =>
      g.Open? && now < g.expiresAt <= now + 7200 && now + ttl <= CLOCK_MAX
  }

  lemma CommitsWhenAllowed(g: Grant, m: Move)
    ensures Attempt(g, m).Ok? <==> Allowed(g, m)
  {
  }

  /** The authenticators proven by transactions `from..to`. */
  function ProvenBetween(moves: seq<Move>, from: nat, to: nat): set<string>
    requires from <= to <= |moves|
  {
    set i | from <= i < to && moves[i].DoAddSatisfied? && Succeeds(moves, i) :: moves[i].id
  }

  /** One more transaction adds the proof it accepts. */
  lemma ProvenNext(moves: seq<Move>, from: nat, n: nat)
    requires from < n <= |moves|
    ensures ProvenBetween(moves, from, n)
         == ProvenBetween(moves, from, n - 1)
            + if moves[n - 1].DoAddSatisfied? && Succeeds(moves, n - 1) then {moves[n - 1].id} else {}
  {
    hide Succeeds;
    var before, after := ProvenBetween(moves, from, n - 1), ProvenBetween(moves, from, n);
    if moves[n - 1].DoAddSatisfied? && Succeeds(moves, n - 1) {
      assert moves[n - 1].id in after;
    }
  }

  /** A pending grant is the request that was recorded, with exactly the proofs accepted since. */
  lemma {:induction false} PendingIsItsRequest(moves: seq<Move>, n: nat)
    requires n <= |moves| && After(moves, n).Pending?
    ensures var k := RequestAt(moves, n);
            var r := moves[k];
            After(moves, n) == Pending(r.now, r.deadline, r.ttl, r.nonce, r.profile, ProvenBetween(moves, k + 1, n))
  {
    hide Attempt, ProvenBetween;
    var k, m := RequestAt(moves, n), moves[n - 1];
    if k == n - 1 {
      BeginsPending(After(moves, k), m);
      ProvenByNone(moves, n);
    } else {
      PendingIsItsRequest(moves, n - 1);
      StaysPending(After(moves, n - 1), m);
      ProvenNext(moves, k + 1, n);
    }
  }

  lemma ProvenByNone(moves: seq<Move>, n: nat)
    requires n <= |moves|
    ensures ProvenBetween(moves, n, n) == {}
  {
  }

  lemma BeginsPending(g: Grant, m: Move)
    requires m.DoBeginPending? && Attempt(g, m).Ok?
    ensures Attempt(g, m) == Ok(Pending(m.now, m.deadline, m.ttl, m.nonce, m.profile, {}))
  {
  }

  /** A transaction that leaves a request pending adds the one proof it accepts, or nothing. */
  lemma StaysPending(g: Grant, m: Move)
    requires g.Pending? && (Attempt(g, m).Ok? ==> Attempt(g, m).value.Pending?)
    ensures Attempt(g, m).Ok? ==> m.DoAddSatisfied?
    ensures Attempt(g, m).Ok? ==>
              Attempt(g, m).value
              == Pending(g.requestedAt, g.approvalDeadline, g.ttl, g.nonce, g.profile, g.satisfied + {m.id})
  {
  }

  /**
   In any run, a claim comes before the deadline its request was recorded with, opens for that request's own ttl,
   and what it claims carries the proofs accepted since the request, each of them before the deadline too.
   */
  lemma ClaimIsOfItsRequest(moves: seq<Move>, i: nat)
    requires i < |moves| && Claims(moves, i)
    ensures After(moves, i).Pending?
    ensures var k := RequestAt(moves, i);
            && moves[i].now < moves[k].deadline
            && After(moves, i + 1) == Opening(moves[i].now, moves[i].now + moves[k].ttl, moves[i].channels)
            && After(moves, i).satisfied == ProvenBetween(moves, k + 1, i)
            && forall j :: k < j < i && moves[j].DoAddSatisfied? && Succeeds(moves, j) ==>
                 moves[j].now < moves[k].deadline
  {
    CommitsWhenAllowed(After(moves, i), moves[i]);
    PendingIsItsRequest(moves, i);
    var k := RequestAt(moves, i);
    forall j | k < j < i && moves[j].DoAddSatisfied? && Succeeds(moves, j) ensures moves[j].now < moves[k].deadline {
      CommitsWhenAllowed(After(moves, j), moves[j]);
      RequestStands(moves, j, i);
      PendingIsItsRequest(moves, j);
    }
  }

  /** While a request stays pending it is the same request. */
  lemma {:induction false} RequestStands(moves: seq<Move>, j: nat, n: nat)
    requires j <= n <= |moves| && After(moves, n).Pending? && RequestAt(moves, n) < j
    ensures After(moves, j).Pending? && RequestAt(moves, j) == RequestAt(moves, n)
  {
    if j < n {
      RequestStands(moves, j, n - 1);
    }
  }

  predicate HoldsAccess(g: Grant) {
    g.Opening? || g.Open? || g.NeedsRevert?
  }
}
