/** One grant per inventory host, and the sweeps that run over all of them. */
module Registry {
  import opened Common
  import opened GrantMachine

  type Grants = map<string, Grant>

  /** An open grant whose expiry has come becomes needs-revert with the channels it holds. */
  function Reap(g: Grant, now: nat): Grant {
    if g.Open? && g.expiresAt <= now then NeedsRevert(g.channels, now) else g
  }

  /** A request whose approval deadline has come is closed. */
  function Lapse(g: Grant, now: nat): Grant {
    if g.Pending? && g.approvalDeadline <= now then Closed else g
  }

  /** A stored opening at boot may be applied anywhere up to its whole list. */
  function Demote(g: Grant, now: nat): Grant {
    if g.Opening? then NeedsRevert(g.channels, now) else g
  }

  ghost function Mapped(grants: Grants, f: Grant -> Grant): Grants {
    map h | h in grants :: f(grants[h])
  }

  class GrantRegistry {
    var grants: Grants

    constructor (grants: Grants)
      ensures this.grants == grants
    {
      this.grants := grants;
    }

    /** Every expired grant, each once, moved to needs-revert; nothing else touched. */
    method ReapToRevert(now: nat) returns (expired: set<string>)
      modifies this
      ensures grants == Mapped(old(grants), g => Reap(g, now))
      ensures expired == set h | h in old(grants) && old(grants)[h].Open? && old(grants)[h].expiresAt <= now
    {
      expired := {};
      var todo := grants.Keys;
      while todo != {}
        invariant todo <= old(grants).Keys == grants.Keys
        invariant forall h :: h in grants ==>
                                grants[h] == if h in todo then old(grants)[h] else Reap(old(grants)[h], now)
        invariant expired == set h | h in old(grants) && h !in todo && Observe(old(grants)[h], now).Expired?
        decreases todo
      {
        var h :| h in todo;
        todo := todo - {h};
        if Observe(grants[h], now).Expired? {
          var moved := BeginRevert(grants[h], now);
          assert moved.Ok?;
          grants := grants[h := moved.value];
          expired := expired + {h};
        }
      }
    }

    method ReapExpiredPending(now: nat) returns (expired: set<string>)
      modifies this
      ensures grants == Mapped(old(grants), g => Lapse(g, now))
      ensures expired == set h | h in old(grants) && old(grants)[h].Pending? && old(grants)[h].approvalDeadline <= now
    {
      expired := {};
      var todo := grants.Keys;
      while todo != {}
        invariant todo <= old(grants).Keys == grants.Keys
        invariant forall h :: h in grants ==>
                                grants[h] == if h in todo then old(grants)[h] else Lapse(old(grants)[h], now)
        invariant expired == set h | h in old(grants) && h !in todo && Observe(old(grants)[h], now).ApprovalExpired?
        decreases todo
      {
        var h :| h in todo;
        todo := todo - {h};
        if Observe(grants[h], now).ApprovalExpired? {
          var cancelled := CancelPending(grants[h]);
          assert cancelled.Ok?;
          grants := grants[h := cancelled.value];
          expired := expired + {h};
        }
      }
    }

    method DemoteOpening(now: nat) returns (demoted: set<string>)
      modifies this
      ensures grants == Mapped(old(grants), g => Demote(g, now))
      ensures demoted == set h | h in old(grants) && old(grants)[h].Opening?
    {
      demoted := {};
      var todo := grants.Keys;
      while todo != {}
        invariant todo <= old(grants).Keys == grants.Keys
        invariant forall h :: h in grants ==>
                                grants[h] == if h in todo then old(grants)[h] else Demote(old(grants)[h], now)
        invariant demoted == set h | h in old(grants) && h !in todo && old(grants)[h].Opening?
        decreases todo
      {
        var h :| h in todo;
        todo := todo - {h};
        if Observe(grants[h], now).IsOpening? {
          var failed := FailOpen(grants[h], grants[h].channels, now);
          assert failed.Ok?;
          grants := grants[h := failed.value];
          demoted := demoted + {h};
        }
      }
    }
  }
}
