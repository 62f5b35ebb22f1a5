/**
 The tier-A device's grant on a 32-bit millisecond counter that wraps about every
 49 days, against a clock that never wraps.
 */
module UptimeGrant {
  import opened Common
  import opened Cbor

  const WRAP: nat := U32_LIMIT
  const HALF: nat := 0x8000_0000

  datatype Grant = Grant(open: bool, nonce: Id16, expiresAtMs: u32)

  const NO_NONCE: Id16 := [0, 0, 0, 0, 0, 0, 0, 0, 0, 0, 0, 0, 0, 0, 0, 0]

  /** Unsigned 32-bit arithmetic. */
  function Wrapped(n: int): u32 {
    n % WRAP
  }

  function Accepted(nonce: Id16, ttlSecs: u32, nowMs: u32): Grant {
    Grant(true, nonce, Wrapped(nowMs + Wrapped(ttlSecs * 1000)))
  }

  function Closed(g: Grant): Grant {
    g.(open := false, nonce := NO_NONCE)
  }

  /** The deadline test on the wrapping counter. */
  predicate Expired(expiresAtMs: u32, nowMs: u32) {
    Wrapped(expiresAtMs - nowMs) > HALF || expiresAtMs == nowMs
  }

  /** One poll: the answer, and the grant it leaves. */
  function Poll(g: Grant, nowMs: u32): (bool, Grant) {
    if !g.open then (false, g)
    else if Expired(g.expiresAtMs, nowMs) then (false, Closed(g))
    else (true, g)
  }

  class LgGrant {
    var open: bool
    var nonce: Id16
    var expiresAtMs: u32

    ghost function State(): Grant
      reads this
    {
      Grant(open, nonce, expiresAtMs)
    }

    constructor ()
      ensures State() == Grant(false, NO_NONCE, 0)
    {
      open, nonce, expiresAtMs := false, NO_NONCE, 0;
    }

    method Accept(nonce: Id16, ttlSecs: u32, nowMs: u32)
      modifies this
      ensures State() == Accepted(nonce, ttlSecs, nowMs)
      ensures open && this.nonce == nonce
    {
      this.nonce := nonce;
      expiresAtMs := (nowMs + ttlSecs * 1000 % WRAP) % WRAP;
      open := true;
    }

    method Active(nowMs: u32) returns (active: bool)
      modifies this
      ensures (active, State()) == Poll(old(State()), nowMs)
      ensures if active then State() == old(State()) else !open
    {
      if !open {
        return false;
      }
      if (expiresAtMs - nowMs) % WRAP > HALF || expiresAtMs == nowMs {
        Close();
        return false;
      }
      return true;
    }

    method Close()
      modifies this
      ensures State() == Closed(old(State()))
    {
      open := false;
      nonce := NO_NONCE;
    }
  }

  // ---------------------------------------------------------------------------
  // Against the true clock
  // ---------------------------------------------------------------------------

  /** Which distances between deadline and now the test reads as open. */
  lemma ReadAsOpen(deadline: nat, now: nat)
    ensures !Expired(Wrapped(deadline), Wrapped(now)) <==> 1 <= (deadline - now) % 0x1_0000_0000 <= 0x8000_0000
  {
    DifferenceWraps(deadline, now);
    SameResidue(deadline, now);
  }

  lemma DifferenceWraps(a: nat, b: nat)
    ensures (a % WRAP - b % WRAP) % WRAP == (a - b) % WRAP
  {
  }

  lemma SameResidue(a: nat, b: nat)
    ensures a % WRAP == b % WRAP <==> (a - b) % WRAP == 0
  {
  }

  /** Before the deadline the answer is right whenever the deadline is at most 2^31 ms away. */
  lemma RightBeforeDeadline(deadline: nat, now: nat)
    requires now < deadline <= now + HALF
    ensures !Expired(Wrapped(deadline), Wrapped(now))
  {
    ReadAsOpen(deadline, now);
  }

  /** After the deadline the answer is wrong exactly in the second half of each wrap. */
  lemma WrongAfterDeadline(deadline: nat, now: nat)
    requires deadline <= now
    ensures !Expired(Wrapped(deadline), Wrapped(now)) <==> (now - deadline) % WRAP >= HALF
  {
    ReadAsOpen(deadline, now);
    Negated(now - deadline);
  }

  lemma Negated(d: int)
    requires d >= 0
    ensures (0 - d) % WRAP == if d % WRAP == 0 then 0 else WRAP - d % WRAP
  {
  }

  /** The answers to polls at true times, on the wrapping counter. */
  function Answers(g: Grant, polls: seq<nat>): seq<bool>
    decreases |polls|
  {
    if polls == [] then []
    else
      var (answer, g') := Poll(g, Wrapped(polls[0]));
      [answer] + Answers(g', polls[1..])
  }

  /** Polls go forward, each less than 2^31 ms after the one before. */
  ghost predicate Spaced(from: nat, polls: seq<nat>)
    decreases |polls|
  {
    polls != [] ==> from <= polls[0] < from + HALF && Spaced(polls[0], polls[1..])
  }

  /** The grant stands for the true deadline, as last observed at `now`. */
  ghost predicate Mirrors(g: Grant, now: nat, deadline: nat) {
    if g.open then g.expiresAtMs == Wrapped(deadline) && now <= deadline <= now + HALF
    else deadline <= now
  }

  lemma {:induction false} AnswersAreTrue(g: Grant, now: nat, deadline: nat, polls: seq<nat>)
    requires Mirrors(g, now, deadline) && Spaced(now, polls)
    ensures |Answers(g, polls)| == |polls|
    ensures forall i :: 0 <= i < |polls| ==> (Answers(g, polls)[i] <==> polls[i] < deadline)
    decreases |polls|
  {
    if polls != [] {
      var t := polls[0];
      if g.open {
        if t < deadline {
          RightBeforeDeadline(deadline, t);
        } else {
          WrongAfterDeadline(deadline, t);
        }
      }
      var (answer, g') := Poll(g, Wrapped(t));
      AnswersAreTrue(g', t, deadline, polls[1..]);
    }
  }

  /**
   For every run of polls after an acceptance, through any number of wraps, the device
   answers open exactly while true uptime is before the deadline.
   */
  lemma WrapSafe(nonce: Id16, ttlSecs: u32, at: nat, polls: seq<nat>)
    requires ttlSecs <= MAX_TTL_SECS && Spaced(at, polls)
    ensures var answers := Answers(Accepted(nonce, ttlSecs, Wrapped(at)), polls);
            |answers| == |polls| && forall i :: 0 <= i < |polls| ==> (answers[i] <==> polls[i] < at + ttlSecs * 1000)
  {
    var deadline := at + ttlSecs * 1000;
    AcceptedMirrors(nonce, ttlSecs, at);
    AnswersAreTrue(Accepted(nonce, ttlSecs, Wrapped(at)), at, deadline, polls);
  }

  /** Polls go forward. */
  ghost predicate Forward(from: nat, polls: seq<nat>)
    decreases |polls|
  {
    polls != [] ==> from <= polls[0] && Forward(polls[0], polls[1..])
  }

  /** How many polls come before the deadline. */
  function Early(deadline: nat, polls: seq<nat>): (k: nat)
    ensures k <= |polls|
    ensures forall i :: 0 <= i < k ==> polls[i] < deadline
    ensures k < |polls| ==> polls[k] >= deadline
  {
    if polls == [] || polls[0] >= deadline then 0 else 1 + Early(deadline, polls[1..])
  }

  /** The first poll at or after the deadline, if any, does not fall in the second half of a wrap. */
  predicate ClosesInTime(deadline: nat, polls: seq<nat>) {
    var k := Early(deadline, polls);
    k < |polls| ==> (polls[k] - deadline) % WRAP < HALF
  }

  ghost predicate AllTrue(answers: seq<bool>, deadline: nat, polls: seq<nat>) {
    |answers| == |polls| && forall i :: 0 <= i < |polls| ==> (answers[i] <==> polls[i] < deadline)
  }

  lemma {:induction false} ClosedStaysClosed(g: Grant, deadline: nat, from: nat, polls: seq<nat>)
    requires !g.open && deadline <= from && Forward(from, polls)
    ensures AllTrue(Answers(g, polls), deadline, polls)
    decreases |polls|
  {
    if polls != [] {
      ClosedStaysClosed(g, deadline, polls[0], polls[1..]);
    }
  }

  /** On any forward run of polls every answer is the true one exactly when the first late poll comes in time. */
  lemma {:induction false} AnswersExactly(g: Grant, now: nat, deadline: nat, polls: seq<nat>)
    requires g.open && Mirrors(g, now, deadline) && Forward(now, polls)
    ensures AllTrue(Answers(g, polls), deadline, polls) <==> ClosesInTime(deadline, polls)
    decreases |polls|
  {
    hide Expired;
    if polls != [] {
      var t, rest := polls[0], polls[1..];
      if t < deadline {
        RightBeforeDeadline(deadline, t);
        AnswersExactly(g, t, deadline, rest);
        OneMore(true, Answers(g, rest), deadline, t, rest);
      } else {
        WrongAfterDeadline(deadline, t);
        if Expired(g.expiresAtMs, Wrapped(t)) {
          ClosedStaysClosed(Closed(g), deadline, t, rest);
          OneMore(false, Answers(Closed(g), rest), deadline, t, rest);
        } else {
          OneMore(true, Answers(g, rest), deadline, t, rest);
        }
      }
    }
  }

  lemma OneMore(answer: bool, answers: seq<bool>, deadline: nat, t: nat, polls: seq<nat>)
    ensures AllTrue([answer] + answers, deadline, [t] + polls)
       <==> (answer <==> t < deadline) && AllTrue(answers, deadline, polls)
  {
    var all, ts := [answer] + answers, [t] + polls;
    assert all[0] == answer && ts[0] == t;
    assert forall i :: 0 <= i < |answers| ==> all[i + 1] == answers[i];
    assert forall i :: 0 <= i < |polls| ==> ts[i + 1] == polls[i];
  }

  /** From any acceptance of at most a day, the device is right throughout a run exactly in that case. */
  lemma RightExactly(nonce: Id16, ttlSecs: u32, at: nat, polls: seq<nat>)
    requires ttlSecs <= MAX_TTL_SECS && Forward(at, polls)
    ensures AllTrue(Answers(Accepted(nonce, ttlSecs, Wrapped(at)), polls), at + ttlSecs * 1000, polls)
       <==> ClosesInTime(at + ttlSecs * 1000, polls)
  {
    AcceptedMirrors(nonce, ttlSecs, at);
    AnswersExactly(Accepted(nonce, ttlSecs, Wrapped(at)), at, at + ttlSecs * 1000, polls);
  }

  lemma AcceptedMirrors(nonce: Id16, ttlSecs: u32, at: nat)
    requires ttlSecs <= MAX_TTL_SECS
    ensures Mirrors(Accepted(nonce, ttlSecs, Wrapped(at)), at, at + ttlSecs * 1000)
  {
    SumWraps(at, ttlSecs * 1000);
  }

  lemma SumWraps(a: nat, b: nat)
    ensures (a % WRAP + b % WRAP) % WRAP == (a + b) % WRAP
  {
    var q, r := a / WRAP, b / WRAP;
    assert a + b == a % WRAP + b % WRAP + WRAP * (q + r);
    WholeWraps(a % WRAP + b % WRAP, q + r);
  }

  lemma {:induction false} WholeWraps(n: nat, q: nat)
    ensures (n + WRAP * q) % WRAP == n % WRAP
  {
    if q > 0 {
      WholeWraps(n, q - 1);
      assert n + WRAP * q == n + WRAP * (q - 1) + WRAP;
    }
  }

  /** A first poll 2^31 ms after the deadline is answered open, whatever the time to live. */
  lemma LatePollReopens(nonce: Id16, ttlSecs: u32, at: nat)
    requires ttlSecs <= MAX_TTL_SECS
    ensures Answers(Accepted(nonce, ttlSecs, Wrapped(at)), [at + ttlSecs * 1000 + HALF]) == [true]
  {
    AcceptedMirrors(nonce, ttlSecs, at);
    WrongAfterDeadline(at + ttlSecs * 1000, at + ttlSecs * 1000 + HALF);
    assert [at + ttlSecs * 1000 + HALF][1..] == [];
  }
}
