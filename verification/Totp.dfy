/**
 One-time codes (section 5.2 of RFC 6238): the window scan and the persisted ledger
 that makes a code spendable once although old entries are pruned.
 */
module Totp {
  import opened Common

  const STEP_SECS: nat := 30
  const DIGITS: nat := 6
  const SKEW_STEPS: nat := 1
  const RETAIN_SECS: nat := 600

  /** A secret, as the code it gives for each counter. */
  type Secret = nat -> string

  /** The number of whole half-minutes since the epoch. */
  function CounterAt(now: u64): (c: nat)
    ensures 30 * c <= now < 30 * c + 30
  {
    now / STEP_SECS
  }

  /** The counters a code may match at `now`. */
  predicate InWindow(counter: nat, now: u64, skew: nat) {
    CounterAt(now) <= counter + skew && counter <= CounterAt(now) + skew && counter < U64_LIMIT
  }

  /** A code is taken from half a minute before its own half-minute until half a minute after it. */
  lemma WindowInSeconds(counter: nat, now: u64)
    ensures InWindow(counter, now, SKEW_STEPS) <==> 30 * counter <= now + 30 && now < 30 * counter + 60
  {
  }

  predicate WellFormed(code: string) {
    |code| == DIGITS && forall i :: 0 <= i < |code| ==> '0' <= code[i] <= '9'
  }

  /** Scans the whole window and keeps the last counter that matches. */
  method Matches(secret: Secret, code: string, now: u64, skew: nat) returns (found: Option<nat>)
    ensures found.Some? ==> InWindow(found.value, now, skew) && WellFormed(code) && secret(found.value) == code
    ensures found.Some? ==> |code| == 6
    ensures found.Some? ==> forall c :: found.value < c && InWindow(c, now, skew) ==> secret(c) != code
    ensures found.None? && WellFormed(code) ==> forall c :: InWindow(c, now, skew) ==> secret(c) != code
  {
    found := None;
    if !WellFormed(code) {
      return;
    }
    var center := CounterAt(now);
    var lo := if center >= skew then center - skew else 0;
    var hi := if center + skew < U64_LIMIT then center + skew else U64_LIMIT - 1;
    for counter := lo to hi + 1
      invariant found.Some? ==> lo <= found.value < counter && secret(found.value) == code
      invariant forall c :: lo <= c < counter && (found.None? || found.value < c) ==> secret(c) != code
    {
      if secret(counter) == code {
        found := Some(counter);
      }
    }
  }

  // ---------------------------------------------------------------------------
  // The ledger
  // ---------------------------------------------------------------------------

  datatype Entry = Entry(authenticator: string, counter: nat, at: u64)

  predicate Young(e: Entry, now: u64) {
    (if now >= e.at then now - e.at else 0) <= RETAIN_SECS
  }

  /** The entries that pruning keeps, in order. */
  function Retained(consumed: seq<Entry>, now: u64): seq<Entry> {
    if consumed == [] then []
    else if Young(consumed[|consumed| - 1], now) then
      Retained(consumed[..|consumed| - 1], now) + [consumed[|consumed| - 1]]
    else Retained(consumed[..|consumed| - 1], now)
  }

  /** Pruning keeps exactly what was spent at most ten minutes ago. */
  lemma {:induction false} RetainedExactly(consumed: seq<Entry>, now: u64, e: Entry)
    ensures e in Retained(consumed, now) <==> e in consumed && now <= e.at + 600
  {
    if consumed != [] {
      var front, last := consumed[..|consumed| - 1], consumed[|consumed| - 1];
      RetainedExactly(front, now, e);
      assert consumed == front + [last];
    }
  }

  predicate Spent(consumed: seq<Entry>, authenticator: string, counter: nat) {
    exists i :: 0 <= i < |consumed| && consumed[i].authenticator == authenticator && consumed[i].counter == counter
  }

  /** The ledger and the verdict after one attempt to spend a counter. */
  function Spend(consumed: seq<Entry>, authenticator: string, counter: nat, now: u64): (seq<Entry>, bool) {
    var kept := Retained(consumed, now);
    if Spent(kept, authenticator, counter) then (kept, false)
    else (kept + [Entry(authenticator, counter, now)], true)
  }

  datatype ApprovalError = AlreadyUsed | UnknownApprover

  class TotpLedger {
    var consumed: seq<Entry>

    constructor ()
      ensures consumed == []
    {
      consumed := [];
    }

    /** Prunes, then records the counter unless it is already there. */
    method Consume(authenticator: string, counter: nat, now: u64) returns (unspent: bool)
      modifies this
      ensures (consumed, unspent) == Spend(old(consumed), authenticator, counter, now)
    {
      var kept: seq<Entry> := [];
      for i := 0 to |consumed|
        invariant consumed == old(consumed)
        invariant kept == Retained(consumed[..i], now)
      {
        assert consumed[..i + 1][..i] == consumed[..i];
        if Young(consumed[i], now) {
          kept := kept + [consumed[i]];
        }
      }
      assert consumed[..|consumed|] == consumed;
      consumed := kept;
      var already := false;
      for i := 0 to |kept|
        invariant already <==> Spent(kept[..i], authenticator, counter)
        invariant consumed == kept
      {
        SpentNext(kept, i, authenticator, counter);
        already := already || (kept[i].authenticator == authenticator && kept[i].counter == counter);
      }
      assert kept[..|kept|] == kept;
      if already {
        return false;
      }
      consumed := consumed + [Entry(authenticator, counter, now)];
      return true;
    }

    /** A code names no authenticator: the first secret it matches is spent, and its verdict stands. */
    method VerifyCode(secrets: seq<(string, Secret)>, code: string, now: u64) returns (r: Result<string, ApprovalError>)
      modifies this
      ensures r.Ok? ==>
                exists i: nat, counter: nat ::
                  && FirstMatch(secrets, code, now, i, counter)
                  && secrets[i].0 == r.value && (consumed, true) == Spend(old(consumed), r.value, counter, now)
      ensures r == Err(AlreadyUsed) ==>
                exists i: nat, counter: nat ::
                  && FirstMatch(secrets, code, now, i, counter)
                  && (consumed, false) == Spend(old(consumed), secrets[i].0, counter, now)
      ensures r == Err(UnknownApprover) ==> consumed == old(consumed) && NoneMatch(secrets, code, now)
    {
      for i := 0 to |secrets|
        invariant consumed == old(consumed) && NoneMatch(secrets[..i], code, now)
      {
        assert secrets[..i + 1] == secrets[..i] + [secrets[i]];
        var found := Matches(secrets[i].1, code, now, SKEW_STEPS);
        if found.Some? {
          var unspent := Consume(secrets[i].0, found.value, now);
          assert FirstMatch(secrets, code, now, i, found.value);
          assert (consumed, unspent) == Spend(old(consumed), secrets[i].0, found.value, now);
          return if unspent then Ok(secrets[i].0) else Err(AlreadyUsed);
        }
      }
      assert secrets[..|secrets|] == secrets;
      return Err(UnknownApprover);
    }
  }

  ghost predicate NoneMatch(secrets: seq<(string, Secret)>, code: string, now: u64) {
    WellFormed(code) ==> forall s, c :: s in secrets && InWindow(c, now, SKEW_STEPS) ==> s.1(c) != code
  }

  /** The first configured secret the code matches, at the last counter it matches in the window. */
  ghost predicate FirstMatch(secrets: seq<(string, Secret)>, code: string, now: u64, i: nat, counter: nat) {
    && i < |secrets| && NoneMatch(secrets[..i], code, now)
    && WellFormed(code) && InWindow(counter, now, SKEW_STEPS) && secrets[i].1(counter) == code
    && forall c :: counter < c && InWindow(c, now, SKEW_STEPS) ==> secrets[i].1(c) != code
  }

  lemma SpentNext(consumed: seq<Entry>, i: nat, authenticator: string, counter: nat)
    requires i < |consumed|
    ensures Spent(consumed[..i + 1], authenticator, counter)
       <==> Spent(consumed[..i], authenticator, counter)
            || (consumed[i].authenticator == authenticator && consumed[i].counter == counter)
  {
    var next, before := consumed[..i + 1], consumed[..i];
    assert next[i] == consumed[i];
    assert forall j :: 0 <= j < i ==> next[j] == before[j];
  }

  // ---------------------------------------------------------------------------
  // Single use over whole runs
  // ---------------------------------------------------------------------------

  /** How the ledger write of an attempt went; a failed write refuses the code but may have landed. */
  datatype Write = Done | Lost | Torn

  datatype Attempt = Attempt(authenticator: string, counter: nat, now: u64, write: Write)

  /** The ledger after the first `n` attempts, across any restarts between them. */
  function LedgerAfter(run: seq<Attempt>, n: nat): seq<Entry>
    requires n <= |run|
  {
    if n == 0 then []
    else
      var a := run[n - 1];
      var before := LedgerAfter(run, n - 1);
      if a.write == Lost then before else Spend(before, a.authenticator, a.counter, a.now).0
  }

  predicate Honoured(run: seq<Attempt>, i: nat)
    requires i < |run|
  {
    run[i].write == Done && Spend(LedgerAfter(run, i), run[i].authenticator, run[i].counter, run[i].now).1
  }

  /** The clock does not go back, and every counter came from the window scan. */
  ghost predicate Plausible(run: seq<Attempt>) {
    && (forall i, j :: 0 <= i < j < |run| ==> run[i].now <= run[j].now)
    && (forall i :: 0 <= i < |run| ==> InWindow(run[i].counter, run[i].now, SKEW_STEPS))
  }

  function EntryOf(a: Attempt): Entry {
    Entry(a.authenticator, a.counter, a.now)
  }

  /** An honoured entry survives every prune for as long as it is young enough. */
  lemma {:induction false} EntrySurvives(run: seq<Attempt>, i: nat, n: nat)
    requires Plausible(run) && i < n <= |run| && Honoured(run, i)
    requires run[n - 1].now - run[i].now <= RETAIN_SECS
    ensures EntryOf(run[i]) in LedgerAfter(run, n)
  {
    var e := EntryOf(run[i]);
    if n > i + 1 {
      assert run[n - 2].now <= run[n - 1].now;
      EntrySurvives(run, i, n - 1);
      assert run[i].now <= run[n - 1].now;
      RetainedExactly(LedgerAfter(run, n - 1), run[n - 1].now, e);
    }
  }

  /** A counter that is in the window at two instants is in it at most 90 seconds later. */
  lemma WindowIsShort(counter: nat, t: u64, t': u64)
    requires t <= t' && InWindow(counter, t, SKEW_STEPS) && InWindow(counter, t', SKEW_STEPS)
    ensures t' - t < 3 * STEP_SECS
  {
  }

  /** No counter of an authenticator is honoured twice: not after pruning, restarts, or failed writes. */
  lemma SingleUse(run: seq<Attempt>, i: nat, j: nat)
    requires Plausible(run) && i < j < |run|
    requires run[i].authenticator == run[j].authenticator && run[i].counter == run[j].counter
    ensures !(Honoured(run, i) && Honoured(run, j))
  {
    if Honoured(run, i) {
      var now := run[j].now;
      var e := EntryOf(run[i]);
      assert run[i].now <= run[j - 1].now <= now;
      WindowIsShort(run[i].counter, run[i].now, now);
      EntrySurvives(run, i, j);
      RetainedExactly(LedgerAfter(run, j), now, e);
      var kept := Retained(LedgerAfter(run, j), now);
      var k :| 0 <= k < |kept| && kept[k] == e;
      assert Spent(kept, run[j].authenticator, run[j].counter);
    }
  }

  predicate SamePair(a: Attempt, b: Attempt) {
    a.authenticator == b.authenticator && a.counter == b.counter
  }

  /** Whatever the ledger holds was put there by an attempt whose write landed. */
  lemma {:induction false} EntriesAreAttempts(run: seq<Attempt>, n: nat, e: Entry)
    requires n <= |run| && e in LedgerAfter(run, n)
    ensures exists k :: 0 <= k < n && run[k].write != Lost && EntryOf(run[k]) == e
  {
    if e in LedgerAfter(run, n - 1) {
      EntriesAreAttempts(run, n - 1, e);
    } else {
      RetainedExactly(LedgerAfter(run, n - 1), run[n - 1].now, e);
      assert EntryOf(run[n - 1]) == e;
    }
  }

  /** What landed once is still there whenever the same counter can be tried again. */
  lemma {:induction false} PairStays(run: seq<Attempt>, j: nat, n: nat, i: nat)
    requires Plausible(run) && j < n <= i < |run| && SamePair(run[j], run[i]) && run[j].write != Lost
    ensures Spent(LedgerAfter(run, n), run[i].authenticator, run[i].counter)
  {
    hide InWindow;
    var a, before := run[n - 1], LedgerAfter(run, n - 1);
    if n == j + 1 {
      var kept := Retained(before, a.now);
      if !Spent(kept, a.authenticator, a.counter) {
        var after := LedgerAfter(run, n);
        assert after[|after| - 1] == EntryOf(a);
      }
    } else {
      PairStays(run, j, n - 1, i);
      PairKept(run, n - 1, i);
    }
  }

  /** One more attempt does not prune an entry of a counter that is tried again later. */
  lemma PairKept(run: seq<Attempt>, n: nat, i: nat)
    requires Plausible(run) && n < i < |run|
    requires Spent(LedgerAfter(run, n), run[i].authenticator, run[i].counter)
    ensures Spent(LedgerAfter(run, n + 1), run[i].authenticator, run[i].counter)
  {
    var ledger := LedgerAfter(run, n);
    var k :| 0 <= k < |ledger|
             && ledger[k].authenticator == run[i].authenticator && ledger[k].counter == run[i].counter;
    EntryIsRecent(run, n, i, ledger[k]);
    assert run[n].now <= run[i].now;
    RetainedExactly(ledger, run[n].now, ledger[k]);
    var after := LedgerAfter(run, n + 1);
    assert ledger[k] in after;
    var m :| 0 <= m < |after| && after[m] == ledger[k];
  }

  lemma EntryIsRecent(run: seq<Attempt>, n: nat, i: nat, e: Entry)
    requires Plausible(run) && n <= i < |run| && e in LedgerAfter(run, n) && e.counter == run[i].counter
    ensures run[i].now <= e.at + 600
  {
    EntriesAreAttempts(run, n, e);
    var k :| 0 <= k < n && run[k].write != Lost && EntryOf(run[k]) == e;
    WindowIsShort(e.counter, run[k].now, run[i].now);
  }

  /** A code is honoured exactly when its write succeeds and no earlier try of the same counter landed. */
  lemma HonouredExactly(run: seq<Attempt>, i: nat)
    requires Plausible(run) && i < |run|
    ensures Honoured(run, i)
       <==> run[i].write == Done && forall j :: 0 <= j < i && SamePair(run[j], run[i]) ==> run[j].write == Lost
  {
    hide InWindow, Plausible;
    var a, ledger := run[i], LedgerAfter(run, i);
    if j :| 0 <= j < i && SamePair(run[j], run[i]) && run[j].write != Lost {
      PairStays(run, j, i, i);
      PairStillThere(run, i);
    } else if Spent(Retained(ledger, a.now), a.authenticator, a.counter) {
      var kept := Retained(ledger, a.now);
      var m :| 0 <= m < |kept| && kept[m].authenticator == a.authenticator && kept[m].counter == a.counter;
      RetainedExactly(ledger, a.now, kept[m]);
      EntriesAreAttempts(run, i, kept[m]);
    }
  }

  lemma PairStillThere(run: seq<Attempt>, i: nat)
    requires Plausible(run) && i < |run|
    requires Spent(LedgerAfter(run, i), run[i].authenticator, run[i].counter)
    ensures Spent(Retained(LedgerAfter(run, i), run[i].now), run[i].authenticator, run[i].counter)
  {
    var ledger := LedgerAfter(run, i);
    var k :| 0 <= k < |ledger|
             && ledger[k].authenticator == run[i].authenticator && ledger[k].counter == run[i].counter;
    EntryIsRecent(run, i, i, ledger[k]);
    RetainedExactly(ledger, run[i].now, ledger[k]);
    var kept := Retained(ledger, run[i].now);
    var m :| 0 <= m < |kept| && kept[m] == ledger[k];
  }
}
