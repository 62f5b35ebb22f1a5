/**
 Evaluation of weighted-threshold authorities over a validated model, the
 longest wait, and what load-time validation buys.
 */
module Evaluation {
  import opened Common
  import opened Policy

  /** The references of an authority resolve in the model. */
  ghost predicate Resolves(m: Model, a: Authority) {
    forall k :: 0 <= k < |a.factors| ==>
      match a.factors[k].factor
      case Authenticator(id) => id in m.authenticators
      case Group(id) => id in m.groups
      case Wait(_) => true
  }

  function Total(fs: seq<WeightedFactor>): nat {
    if fs == [] then 0 else fs[0].weight + Total(fs[1..])
  }

  /** What building one authority checks: no free, dead or unsatisfiable gate. */
  ghost predicate WellBuilt(a: Authority) {
    && 0 < a.threshold <= Total(a.factors)
    && forall k :: 0 <= k < |a.factors| ==>
         && a.factors[k].weight > 0
         && (a.factors[k].factor.Wait? ==> 0 < a.factors[k].factor.dur <= MAX_TTL_SECS)
  }

  /** A model as load-time validation leaves it. */
  ghost predicate Validated(m: Model) {
    && (forall id :: id in m.groups ==> WellBuilt(m.groups[id]) && Resolves(m, m.groups[id]))
    && (exists order :: Topological(m.groups, order))
  }

  /** A chosen children-first order of the groups. */
  ghost function Order(m: Model): (order: seq<string>)
    requires Validated(m)
    ensures Topological(m.groups, order)
  {
    var order :| Topological(m.groups, order);
    order
  }

  ghost function IndexIn(order: seq<string>, id: string): (j: nat)
    requires id in order
    ensures j < |order| && order[j] == id
  {
    var j :| 0 <= j < |order| && order[j] == id;
    j
  }

  /** One more than the highest position any group named in `fs` has in the order. */
  ghost function Level(m: Model, fs: seq<WeightedFactor>): nat
    requires Validated(m)
  {
    if fs == [] then 0
    else
      var rest := Level(m, fs[1..]);
      if fs[0].factor.Group? && fs[0].factor.id in m.groups
         && IndexIn(Order(m), fs[0].factor.id) >= rest
      then IndexIn(Order(m), fs[0].factor.id) + 1
      else rest
  }

  lemma {:induction false} LevelAbove(m: Model, fs: seq<WeightedFactor>, k: nat)
    requires Validated(m) && k < |fs|
    requires fs[k].factor.Group? && fs[k].factor.id in m.groups
    ensures IndexIn(Order(m), fs[k].factor.id) < Level(m, fs)
  {
    hide Validated, Settled;
    if k > 0 {
      LevelAbove(m, fs[1..], k - 1);
    }
  }

  lemma {:induction false} LevelBelow(m: Model, fs: seq<WeightedFactor>, bound: nat)
    requires Validated(m)
    requires forall k :: 0 <= k < |fs| && fs[k].factor.Group? && fs[k].factor.id in m.groups ==>
               IndexIn(Order(m), fs[k].factor.id) < bound
    ensures Level(m, fs) <= bound
  {
    if fs != [] {
      var rest := fs[1..];
      forall k | 0 <= k < |rest| && rest[k].factor.Group? && rest[k].factor.id in m.groups
        ensures IndexIn(Order(m), rest[k].factor.id) < bound
      {
        assert rest[k] == fs[k + 1];
      }
      LevelBelow(m, rest, bound);
    }
  }

  /** A group is evaluated at a strictly lower level than whatever names it. */
  lemma GroupIsLower(m: Model, fs: seq<WeightedFactor>, k: nat)
    requires Validated(m) && k < |fs|
    requires fs[k].factor.Group? && fs[k].factor.id in m.groups
    ensures Level(m, m.groups[fs[k].factor.id].factors) < Level(m, fs)
  {
    var id := fs[k].factor.id;
    var order := Order(m);
    var at := IndexIn(order, id);
    LevelAbove(m, fs, k);
    var inner := m.groups[id].factors;
    forall i | 0 <= i < |inner| && inner[i].factor.Group? && inner[i].factor.id in m.groups
      ensures IndexIn(order, inner[i].factor.id) < at
    {
      assert Edge(m.groups, order[at], inner[i].factor.id);
      assert inner[i].factor.id in order[..at];
    }
    LevelBelow(m, inner, at);
  }

  // ---------------------------------------------------------------------------
  // The meaning of a factor and of an authority
  // ---------------------------------------------------------------------------

  ghost predicate Holds(m: Model, fs: seq<WeightedFactor>, k: nat, satisfied: set<string>, elapsed: nat)
    requires Validated(m) && k < |fs|
    decreases Level(m, fs), 0
  {
    var f := fs[k].factor;
    if f.Authenticator? then f.id in satisfied
    else if f.Wait? then elapsed >= f.dur
    else f.id in m.groups && (GroupIsLower(m, fs, k); Met(m, m.groups[f.id], satisfied, elapsed))
  }

  /** The weight of the first `n` factors that hold. */
  ghost function Weight(m: Model, fs: seq<WeightedFactor>, n: nat, satisfied: set<string>, elapsed: nat): nat
    requires Validated(m) && n <= |fs|
    decreases Level(m, fs), 1, n
  {
    if n == 0 then 0
    else Weight(m, fs, n - 1, satisfied, elapsed)
         + if Holds(m, fs, n - 1, satisfied, elapsed) then fs[n - 1].weight else 0
  }

  ghost predicate Met(m: Model, a: Authority, satisfied: set<string>, elapsed: nat)
    requires Validated(m)
    decreases Level(m, a.factors), 2
  {
    Weight(m, a.factors, |a.factors|, satisfied, elapsed) >= a.threshold
  }

  /** The factors among the first `n` that do not hold, in order. */
  ghost function Lacking(
      m: Model, fs: seq<WeightedFactor>, n: nat, satisfied: set<string>, elapsed: nat): seq<WeightedFactor>
    requires Validated(m) && n <= |fs|
  {
    if n == 0 then []
    else Lacking(m, fs, n - 1, satisfied, elapsed)
         + if Holds(m, fs, n - 1, satisfied, elapsed) then [] else [fs[n - 1]]
  }

  /** What a factor still needs, as reported to the operator. */
  datatype Missing = MissingAuthenticator(id: string) | MissingGroup(id: string) | MissingWait(remaining: nat)

  function MissingOf(f: Factor, elapsed: nat): Missing {
    match f
    case Authenticator(id) => MissingAuthenticator(id)
    case Group(id) => MissingGroup(id)
    case Wait(dur) => MissingWait(if dur >= elapsed then dur - elapsed else 0)
  }

  datatype Outcome = Outcome(weight: nat, threshold: u32, met: bool, missing: seq<Missing>)

  /** The weight of the factors a report does not list. */
  function Unlisted(fs: seq<WeightedFactor>, missing: seq<Missing>, elapsed: nat): nat {
    if fs == [] then 0
    else Unlisted(fs[..|fs| - 1], missing, elapsed)
         + var last := fs[|fs| - 1];
           if MissingOf(last.factor, elapsed) in missing then 0 else last.weight
  }

  /** A report lists a proof, a wait or a group exactly when it is lacking, and a wait with the time it has left. */
  ghost predicate ListsExactly(
      m: Model, f: Factor, satisfied: set<string>, elapsed: nat, missing: seq<Missing>)
    requires Validated(m)
  {
    && (f.Authenticator? ==> (MissingAuthenticator(f.id) in missing <==> f.id !in satisfied))
    && (f.Wait? && elapsed < f.dur ==> MissingWait(f.dur - elapsed) in missing)
    && (f.Wait? && f.dur <= elapsed ==> MissingWait(0) !in missing)
    && (f.Group? ==>
          (MissingGroup(f.id) in missing <==> !(f.id in m.groups && Met(m, m.groups[f.id], satisfied, elapsed))))
  }

  /** Evaluates an authority by one pass over its factors, recursing into groups. */
  method Evaluate(m: Model, a: Authority, satisfied: set<string>, elapsed: nat) returns (o: Outcome)
    requires Validated(m)
    ensures o.threshold == a.threshold
    ensures o.met <==> o.weight >= o.threshold
    ensures o.met <==> Met(m, a, satisfied, elapsed)
    ensures o.weight == Unlisted(a.factors, o.missing, elapsed)
    ensures forall k :: 0 <= k < |a.factors| ==> ListsExactly(m, a.factors[k].factor, satisfied, elapsed, o.missing)
    ensures o.weight == Weight(m, a.factors, |a.factors|, satisfied, elapsed)
    ensures var lacking := Lacking(m, a.factors, |a.factors|, satisfied, elapsed);
            |o.missing| == |lacking|
            && forall i :: 0 <= i < |lacking| ==> o.missing[i] == MissingOf(lacking[i].factor, elapsed)
    decreases Level(m, a.factors)
  {
    var weight := 0;
    var missing := [];
    for k := 0 to |a.factors|
      invariant weight == Weight(m, a.factors, k, satisfied, elapsed)
      invariant |missing| == |Lacking(m, a.factors, k, satisfied, elapsed)|
      invariant forall i :: 0 <= i < |missing| ==>
                  missing[i] == MissingOf(Lacking(m, a.factors, k, satisfied, elapsed)[i].factor, elapsed)
    {
      var wf := a.factors[k];
      var ok;
      match wf.factor {
        case Authenticator(id) => ok := id in satisfied;
        case Group(id) =>
          if id in m.groups {
            GroupIsLower(m, a.factors, k);
            var inner := Evaluate(m, m.groups[id], satisfied, elapsed);
            ok := inner.met;
          } else {
            ok := false;
          }
        case Wait(dur) => ok := elapsed >= dur;
      }
      if ok {
        weight := weight + wf.weight;
      } else {
        missing := missing + [MissingOf(wf.factor, elapsed)];
      }
    }
    ReportIsExact(m, a.factors, satisfied, elapsed, missing);
    o := Outcome(weight, a.threshold, weight >= a.threshold, missing);
  }

  /** `missing` reports these lacking factors, in order. */
  ghost predicate Reports(lacking: seq<WeightedFactor>, elapsed: nat, missing: seq<Missing>) {
    |missing| == |lacking|
    && forall i :: 0 <= i < |lacking| ==> missing[i] == MissingOf(lacking[i].factor, elapsed)
  }

  /** A factor is among the lacking ones exactly when it does not hold. */
  lemma {:induction false} LackingExactly(
      m: Model, fs: seq<WeightedFactor>, n: nat, satisfied: set<string>, elapsed: nat)
    requires Validated(m) && n <= |fs|
    ensures forall k :: 0 <= k < n && !Holds(m, fs, k, satisfied, elapsed) ==>
              fs[k] in Lacking(m, fs, n, satisfied, elapsed)
    ensures forall wf :: wf in Lacking(m, fs, n, satisfied, elapsed) ==>
              exists k :: 0 <= k < n && fs[k] == wf && !Holds(m, fs, k, satisfied, elapsed)
  {
    hide Holds, Validated;
    if n > 0 {
      LackingExactly(m, fs, n - 1, satisfied, elapsed);
    }
  }

  /** A factor is marked exactly when its proof was given, its wait has passed or its group is met. */
  ghost predicate MarkedRight(m: Model, f: Factor, satisfied: set<string>, elapsed: nat, mark: bool)
    requires Validated(m)
  {
    && (f.Authenticator? ==> (mark <==> f.id in satisfied))
    && (f.Wait? ==> (mark <==> f.dur <= elapsed))
    && (f.Group? ==> (mark <==> f.id in m.groups && Met(m, m.groups[f.id], satisfied, elapsed)))
  }

  /** What a factor holds by depends on nothing but the factor. */
  lemma HoldsExactly(m: Model, fs: seq<WeightedFactor>, k: nat, satisfied: set<string>, elapsed: nat)
    requires Validated(m) && k < |fs|
    ensures MarkedRight(m, fs[k].factor, satisfied, elapsed, Holds(m, fs, k, satisfied, elapsed))
  {
    hide Met, Validated;
  }

  lemma ListedExactly(
      m: Model, fs: seq<WeightedFactor>, k: nat, satisfied: set<string>, elapsed: nat, missing: seq<Missing>)
    requires Validated(m) && k < |fs|
    requires Reports(Lacking(m, fs, |fs|, satisfied, elapsed), elapsed, missing)
    ensures ListsExactly(m, fs[k].factor, satisfied, elapsed, missing)
    ensures (MissingOf(fs[k].factor, elapsed) in missing) == !Holds(m, fs, k, satisfied, elapsed)
  {
    hide Met, Holds, Validated, Lacking;
    LackingExactly(m, fs, |fs|, satisfied, elapsed);
    HoldsExactly(m, fs, k, satisfied, elapsed);
    var lacking := Lacking(m, fs, |fs|, satisfied, elapsed);
    var what := MissingOf(fs[k].factor, elapsed);
    if !Holds(m, fs, k, satisfied, elapsed) {
      var i :| 0 <= i < |lacking| && lacking[i] == fs[k];
      assert missing[i] == what;
    }
    if what in missing {
      var i :| 0 <= i < |missing| && missing[i] == what;
      assert lacking[i] in lacking;
      var j :| 0 <= j < |fs| && fs[j] == lacking[i] && !Holds(m, fs, j, satisfied, elapsed);
      HoldsExactly(m, fs, j, satisfied, elapsed);
    }
  }

  lemma {:induction false} UnlistedIsHeld(
      m: Model, fs: seq<WeightedFactor>, n: nat, satisfied: set<string>, elapsed: nat, missing: seq<Missing>)
    requires Validated(m) && n <= |fs|
    requires forall k :: 0 <= k < |fs| ==>
               (MissingOf(fs[k].factor, elapsed) in missing) == !Holds(m, fs, k, satisfied, elapsed)
    ensures Unlisted(fs[..n], missing, elapsed) == Weight(m, fs, n, satisfied, elapsed)
  {
    hide Holds, Validated, MissingOf;
    if n > 0 {
      UnlistedIsHeld(m, fs, n - 1, satisfied, elapsed, missing);
      assert fs[..n][..n - 1] == fs[..n - 1];
      assert fs[..n][n - 1] == fs[n - 1];
    }
  }

  lemma ReportIsExact(
      m: Model, fs: seq<WeightedFactor>, satisfied: set<string>, elapsed: nat, missing: seq<Missing>)
    requires Validated(m) && Reports(Lacking(m, fs, |fs|, satisfied, elapsed), elapsed, missing)
    ensures forall k :: 0 <= k < |fs| ==> ListsExactly(m, fs[k].factor, satisfied, elapsed, missing)
    ensures Unlisted(fs, missing, elapsed) == Weight(m, fs, |fs|, satisfied, elapsed)
  {
    hide Holds, Validated, Met, MissingOf, ListsExactly, Reports;
    forall k | 0 <= k < |fs|
      ensures ListsExactly(m, fs[k].factor, satisfied, elapsed, missing)
      ensures (MissingOf(fs[k].factor, elapsed) in missing) == !Holds(m, fs, k, satisfied, elapsed)
    {
      ListedExactly(m, fs, k, satisfied, elapsed, missing);
    }
    UnlistedIsHeld(m, fs, |fs|, satisfied, elapsed, missing);
    assert fs[..|fs|] == fs;
  }

  // ---------------------------------------------------------------------------
  // The verdict from first principles, and what it depends on
  // ---------------------------------------------------------------------------

  /** The weight of the factors marked. */
  function Marked(fs: seq<WeightedFactor>, marks: seq<bool>): nat
    requires |marks| == |fs|
  {
    if fs == [] then 0
    else Marked(fs[..|fs| - 1], marks[..|fs| - 1]) + if marks[|fs| - 1] then fs[|fs| - 1].weight else 0
  }

  lemma {:induction false} MarkedIsWeight(
      m: Model, fs: seq<WeightedFactor>, n: nat, satisfied: set<string>, elapsed: nat, marks: seq<bool>)
    requires Validated(m) && n <= |fs| == |marks|
    requires forall k :: 0 <= k < |fs| ==> marks[k] == Holds(m, fs, k, satisfied, elapsed)
    ensures Marked(fs[..n], marks[..n]) == Weight(m, fs, n, satisfied, elapsed)
  {
    hide Holds, Validated;
    if n > 0 {
      MarkedIsWeight(m, fs, n - 1, satisfied, elapsed, marks);
      assert fs[..n][..n - 1] == fs[..n - 1] && marks[..n][..n - 1] == marks[..n - 1];
    }
  }

  /**
   Mark each proof that was given, each wait that has passed and each group that is met: the authority is met
   exactly when the marked weight reaches its threshold. Groups only name groups below them, so these equations
   have one solution.
   */
  lemma MetExactly(m: Model, a: Authority, satisfied: set<string>, elapsed: nat, marks: seq<bool>)
    requires Validated(m) && |marks| == |a.factors|
    requires forall k :: 0 <= k < |marks| ==> MarkedRight(m, a.factors[k].factor, satisfied, elapsed, marks[k])
    ensures Met(m, a, satisfied, elapsed) <==> a.threshold <= Marked(a.factors, marks)
  {
    hide Holds, Validated, Marked;
    forall k | 0 <= k < |marks| ensures marks[k] == Holds(m, a.factors, k, satisfied, elapsed) {
      HoldsExactly(m, a.factors, k, satisfied, elapsed);
    }
    MarkedIsWeight(m, a.factors, |marks|, satisfied, elapsed, marks);
    assert a.factors[..|marks|] == a.factors && marks[..|marks|] == marks;
  }

  /** Later time and more proofs never lose a factor, through any nesting of groups. */
  lemma {:induction false} WeightMonotone(
      m: Model, fs: seq<WeightedFactor>, n: nat,
      satisfied: set<string>, elapsed: nat, satisfied': set<string>, elapsed': nat)
    requires Validated(m) && n <= |fs|
    requires satisfied <= satisfied' && elapsed <= elapsed'
    ensures Weight(m, fs, n, satisfied, elapsed) <= Weight(m, fs, n, satisfied', elapsed')
    ensures forall k :: 0 <= k < n && Holds(m, fs, k, satisfied, elapsed) ==> Holds(m, fs, k, satisfied', elapsed')
    decreases Level(m, fs), n
  {
    hide Level, Order, IndexIn, Holds, Validated;
    if n > 0 {
      WeightMonotone(m, fs, n - 1, satisfied, elapsed, satisfied', elapsed');
      HoldsExactly(m, fs, n - 1, satisfied, elapsed);
      HoldsExactly(m, fs, n - 1, satisfied', elapsed');
      if fs[n - 1].factor.Group? && fs[n - 1].factor.id in m.groups {
        var inner := m.groups[fs[n - 1].factor.id].factors;
        GroupIsLower(m, fs, n - 1);
        WeightMonotone(m, inner, |inner|, satisfied, elapsed, satisfied', elapsed');
      }
    }
  }

  /** A met request stays met while it is pending. */
  lemma MetMonotone(
      m: Model, a: Authority, satisfied: set<string>, elapsed: nat, satisfied': set<string>, elapsed': nat)
    requires Validated(m)
    requires satisfied <= satisfied' && elapsed <= elapsed'
    requires Met(m, a, satisfied, elapsed)
    ensures Met(m, a, satisfied', elapsed')
  {
    WeightMonotone(m, a.factors, |a.factors|, satisfied, elapsed, satisfied', elapsed');
  }

  lemma {:induction false} TotalSplit(fs: seq<WeightedFactor>, gs: seq<WeightedFactor>)
    ensures Total(fs + gs) == Total(fs) + Total(gs)
  {
    if fs == [] {
      assert fs + gs == gs;
    } else {
      assert (fs + gs)[1..] == fs[1..] + gs;
      TotalSplit(fs[1..], gs);
    }
  }

  /** Nothing is counted twice or dropped: held weight plus lacking weight is the total. */
  lemma {:induction false} WeightConserved(
      m: Model, fs: seq<WeightedFactor>, n: nat, satisfied: set<string>, elapsed: nat)
    requires Validated(m) && n <= |fs|
    ensures Weight(m, fs, n, satisfied, elapsed) + Total(Lacking(m, fs, n, satisfied, elapsed)) == Total(fs[..n])
  {
    hide Level, Order, IndexIn, Holds, Validated;
    if n > 0 {
      WeightConserved(m, fs, n - 1, satisfied, elapsed);
      assert fs[..n] == fs[..n - 1] + [fs[n - 1]];
      TotalSplit(fs[..n - 1], [fs[n - 1]]);
      var lacking := Lacking(m, fs, n - 1, satisfied, elapsed);
      if Holds(m, fs, n - 1, satisfied, elapsed) {
        assert lacking + [] == lacking;
      } else {
        TotalSplit(lacking, [fs[n - 1]]);
      }
    }
  }

  // ---------------------------------------------------------------------------
  // Waits
  // ---------------------------------------------------------------------------

  predicate HasWait(fs: seq<WeightedFactor>, dur: nat) {
    exists k :: 0 <= k < |fs| && fs[k].factor == Wait(dur)
  }

  /** A chain of group references that starts at these factors and ends at `id`. */
  ghost predicate ReachPath(g: Groups, fs: seq<WeightedFactor>, p: seq<string>, id: string) {
    Path(g, p) && Names(fs, p[0]) && p[|p| - 1] == id
  }

  ghost predicate Reaches(g: Groups, fs: seq<WeightedFactor>, id: string) {
    exists p :: ReachPath(g, fs, p, id)
  }

  /** These factors, or those of a group they reach, wait `dur`. */
  ghost predicate ReachesWait(g: Groups, fs: seq<WeightedFactor>, dur: nat) {
    HasWait(fs, dur) || exists id :: id in g && HasWait(g[id].factors, dur) && Reaches(g, fs, id)
  }

  /** `w` is the longest wait reached, and zero when there is none. */
  ghost predicate LongestWait(g: Groups, fs: seq<WeightedFactor>, w: nat) {
    && (forall dur: nat :: ReachesWait(g, fs, dur) ==> dur <= w)
    && (w == 0 || ReachesWait(g, fs, w))
  }

  lemma LongestIsOne(g: Groups, fs: seq<WeightedFactor>, w: nat)
    requires LongestWait(g, fs, w)
    ensures forall w': nat :: LongestWait(g, fs, w') ==> w' == w
  {
    hide ReachesWait;
  }

  /** What a visit of `fs` promises: it saw everything named, and nothing unreachable. */
  ghost predicate Explored(g: Groups, fs: seq<WeightedFactor>, seen: set<string>, seen': set<string>) {
    && seen <= seen'
    && (forall id :: Names(fs, id) ==> id in seen')
    && (forall n, c :: n in seen' - seen && Edge(g, n, c) ==> c in seen')
    && (forall id :: id in seen' - seen ==> Reaches(g, fs, id))
  }

  ghost predicate WaitIn(g: Groups, fs: seq<WeightedFactor>, visited: set<string>, dur: nat) {
    HasWait(fs, dur) || exists id :: id in visited && id in g && HasWait(g[id].factors, dur)
  }

  ghost predicate LongestIn(g: Groups, fs: seq<WeightedFactor>, visited: set<string>, w: nat) {
    && (forall dur: nat :: WaitIn(g, fs, visited, dur) ==> dur <= w)
    && (w == 0 || WaitIn(g, fs, visited, w))
  }

  /** The recursive visit, with one visited set shared by all branches. */
  method MaxWaitInner(g: Groups, fs: seq<WeightedFactor>, seen: set<string>) returns (longest: nat, seen': set<string>)
    ensures Explored(g, fs, seen, seen')
    ensures LongestIn(g, fs, seen' - seen, longest)
    decreases g.Keys - seen
  {
    longest, seen' := 0, seen;
    for k := 0 to |fs|
      invariant Explored(g, fs[..k], seen, seen')
      invariant LongestIn(g, fs[..k], seen' - seen, longest)
    {
      ghost var before := seen';
      var w := 0;
      match fs[k].factor {
        case Wait(dur) => w := dur;
        case Group(id) =>
          if id !in seen' {
            seen' := seen' + {id};
            if id in g {
              w, seen' := MaxWaitInner(g, g[id].factors, seen');
            }
          }
        case Authenticator(_) =>
      }
      ExploreOne(g, fs, k, seen, before, seen');
      LongestOne(g, fs, k, seen, before, seen', longest, w);
      if w > longest {
        longest := w;
      }
    }
    assert fs[..|fs|] == fs;
  }

  /** What visiting factor `k` did to the visited set. */
  ghost predicate VisitedOne(g: Groups, f: Factor, before: set<string>, after: set<string>) {
    if f.Group? && f.id !in before then
      if f.id in g then Explored(g, g[f.id].factors, before + {f.id}, after)
      else after == before + {f.id}
    else after == before
  }

  lemma NamesPrefix(fs: seq<WeightedFactor>, k: nat)
    requires k < |fs|
    ensures forall id :: Names(fs[..k + 1], id) <==> Names(fs[..k], id) || fs[k].factor == Group(id)
    ensures forall dur: nat :: HasWait(fs[..k + 1], dur) <==> HasWait(fs[..k], dur) || fs[k].factor == Wait(dur)
  {
    var next := fs[..k + 1];
    assert next[k] == fs[k];
    assert forall i :: 0 <= i < k ==> next[i] == fs[..k][i];
  }

  lemma ReachesPrefix(g: Groups, fs: seq<WeightedFactor>, k: nat, id: string)
    requires k < |fs| && Reaches(g, fs[..k], id)
    ensures Reaches(g, fs[..k + 1], id)
  {
    NamesPrefix(fs, k);
    var p :| ReachPath(g, fs[..k], p, id);
    assert ReachPath(g, fs[..k + 1], p, id);
  }

  lemma ReachesThrough(g: Groups, fs: seq<WeightedFactor>, via: string, id: string)
    requires Names(fs, via) && via in g && Reaches(g, g[via].factors, id)
    ensures Reaches(g, fs, id)
  {
    var p :| ReachPath(g, g[via].factors, p, id);
    var q := [via] + p;
    forall i | 0 <= i < |q| - 1 ensures Edge(g, q[i], q[i + 1]) {
      if i > 0 {
        assert q[i] == p[i - 1] && q[i + 1] == p[i];
      }
    }
    assert ReachPath(g, fs, q, id);
  }

  lemma ExploreOne(
      g: Groups, fs: seq<WeightedFactor>, k: nat, seen: set<string>, before: set<string>, after: set<string>)
    requires k < |fs| && Explored(g, fs[..k], seen, before)
    requires VisitedOne(g, fs[k].factor, before, after)
    ensures Explored(g, fs[..k + 1], seen, after)
  {
    NamesPrefix(fs, k);
    forall id | id in after - seen ensures Reaches(g, fs[..k + 1], id) {
      if id in before {
        ReachesPrefix(g, fs, k, id);
      } else if id == fs[k].factor.id {
        assert ReachPath(g, fs[..k + 1], [id], id);
      } else {
        ReachesThrough(g, fs[..k + 1], fs[k].factor.id, id);
      }
    }
  }

  lemma LongestOne(
      g: Groups, fs: seq<WeightedFactor>, k: nat, seen: set<string>, before: set<string>, after: set<string>,
      longest: nat, w: nat)
    requires k < |fs| && seen <= before && VisitedOne(g, fs[k].factor, before, after)
    requires LongestIn(g, fs[..k], before - seen, longest)
    requires match fs[k].factor
             case Wait(dur) => w == dur
             case Group(id) =>
               if id !in before && id in g then LongestIn(g, g[id].factors, after - (before + {id}), w) else w == 0
             case Authenticator(_) => w == 0
    ensures LongestIn(g, fs[..k + 1], after - seen, if w > longest then w else longest)
  {
    NamesPrefix(fs, k);
    var most := if w > longest then w else longest;
    var next, visited := fs[..k + 1], after - seen;
    forall dur: nat | WaitIn(g, next, visited, dur) ensures dur <= most {
      if !HasWait(next, dur) {
        var id :| id in visited && id in g && HasWait(g[id].factors, dur);
        if id in before {
          assert WaitIn(g, fs[..k], before - seen, dur);
        } else {
          assert WaitIn(g, g[fs[k].factor.id].factors, after - (before + {fs[k].factor.id}), dur);
        }
      } else if HasWait(fs[..k], dur) {
        assert WaitIn(g, fs[..k], before - seen, dur);
      }
    }
  }

  lemma {:induction false} PathIsSeen(g: Groups, fs: seq<WeightedFactor>, seen: set<string>, p: seq<string>, i: nat)
    requires Explored(g, fs, {}, seen)
    requires Path(g, p) && Names(fs, p[0]) && i < |p|
    ensures p[i] in seen
  {
    if i > 0 {
      PathIsSeen(g, fs, seen, p, i - 1);
      assert Edge(g, p[i - 1], p[i]);
    }
  }

  /** The longest wait reachable from an authority, each group visited once. */
  method MaxWait(m: Model, a: Authority) returns (longest: nat)
    ensures LongestWait(m.groups, a.factors, longest)
  {
    hide Explored, ReachesWait, WaitIn;
    var seen;
    longest, seen := MaxWaitInner(m.groups, a.factors, {});
    assert seen - {} == seen;
    forall dur: nat ensures ReachesWait(m.groups, a.factors, dur) <==> WaitIn(m.groups, a.factors, seen, dur) {
      SeenIsReached(m.groups, a.factors, seen, dur);
    }
  }

  /** A completed search has seen exactly the waits that can be reached. */
  lemma SeenIsReached(g: Groups, fs: seq<WeightedFactor>, seen: set<string>, dur: nat)
    requires Explored(g, fs, {}, seen)
    ensures ReachesWait(g, fs, dur) <==> WaitIn(g, fs, seen, dur)
  {
    hide HasWait, ReachPath;
    if id :| id in g && HasWait(g[id].factors, dur) && Reaches(g, fs, id) {
      var p :| ReachPath(g, fs, p, id);
      ReachedIsSeen(g, fs, seen, p, id);
    }
    if id :| id in seen && id in g && HasWait(g[id].factors, dur) {
      assert id in seen - {};
    }
  }

  lemma ReachedIsSeen(g: Groups, fs: seq<WeightedFactor>, seen: set<string>, p: seq<string>, id: string)
    requires Explored(g, fs, {}, seen) && ReachPath(g, fs, p, id)
    ensures id in seen
  {
    hide Explored;
    PathIsSeen(g, fs, seen, p, |p| - 1);
  }

  predicate HasAuthenticator(fs: seq<WeightedFactor>, id: string) {
    exists k :: 0 <= k < |fs| && fs[k].factor == Authenticator(id)
  }

  /** These factors, or those of a group they reach, ask for this authenticator. */
  ghost predicate ReachesAuthenticator(g: Groups, fs: seq<WeightedFactor>, id: string) {
    HasAuthenticator(fs, id) || exists n :: n in g && HasAuthenticator(g[n].factors, id) && Reaches(g, fs, n)
  }

  /** Two situations agree on every proof and every wait these factors reach. */
  ghost predicate Agree(
      g: Groups, fs: seq<WeightedFactor>, satisfied: set<string>, elapsed: nat, satisfied': set<string>, elapsed': nat)
  {
    && (forall id :: ReachesAuthenticator(g, fs, id) ==> (id in satisfied <==> id in satisfied'))
    && (forall dur: nat :: ReachesWait(g, fs, dur) ==> (dur <= elapsed <==> dur <= elapsed'))
  }

  /** What a named group reaches, its namer reaches. */
  lemma AgreeInside(
      g: Groups, fs: seq<WeightedFactor>, k: nat,
      satisfied: set<string>, elapsed: nat, satisfied': set<string>, elapsed': nat)
    requires k < |fs| && fs[k].factor.Group? && fs[k].factor.id in g
    requires Agree(g, fs, satisfied, elapsed, satisfied', elapsed')
    ensures Agree(g, g[fs[k].factor.id].factors, satisfied, elapsed, satisfied', elapsed')
  {
    hide HasAuthenticator, HasWait, Path;
    var via := fs[k].factor.id;
    var inner := g[via].factors;
    assert Names(fs, via);
    assert Reaches(g, fs, via) by {
      OneStep(g, via);
      assert ReachPath(g, fs, [via], via);
    }
    forall n | Reaches(g, inner, n) ensures Reaches(g, fs, n) {
      ReachesThrough(g, fs, via, n);
    }
    forall id | ReachesAuthenticator(g, inner, id) ensures ReachesAuthenticator(g, fs, id) {
    }
    forall dur: nat | ReachesWait(g, inner, dur) ensures ReachesWait(g, fs, dur) {
    }
  }

  lemma OneStep(g: Groups, n: string)
    ensures Path(g, [n])
  {
  }

  lemma {:induction false} SameWeight(
      m: Model, fs: seq<WeightedFactor>, n: nat,
      satisfied: set<string>, elapsed: nat, satisfied': set<string>, elapsed': nat)
    requires Validated(m) && n <= |fs|
    requires Agree(m.groups, fs, satisfied, elapsed, satisfied', elapsed')
    ensures Weight(m, fs, n, satisfied, elapsed) == Weight(m, fs, n, satisfied', elapsed')
    decreases Level(m, fs), n
  {
    hide Level, Order, IndexIn, Agree, Validated;
    if n > 0 {
      SameWeight(m, fs, n - 1, satisfied, elapsed, satisfied', elapsed');
      HoldsExactly(m, fs, n - 1, satisfied, elapsed);
      HoldsExactly(m, fs, n - 1, satisfied', elapsed');
      if fs[n - 1].factor.Group? {
        if fs[n - 1].factor.id in m.groups {
          var inner := m.groups[fs[n - 1].factor.id].factors;
          GroupIsLower(m, fs, n - 1);
          AgreeInside(m.groups, fs, n - 1, satisfied, elapsed, satisfied', elapsed');
          SameWeight(m, inner, |inner|, satisfied, elapsed, satisfied', elapsed');
        }
      } else {
        AgreeHere(m.groups, fs, n - 1, satisfied, elapsed, satisfied', elapsed');
      }
    }
  }

  lemma AgreeHere(
      g: Groups, fs: seq<WeightedFactor>, k: nat,
      satisfied: set<string>, elapsed: nat, satisfied': set<string>, elapsed': nat)
    requires k < |fs| && Agree(g, fs, satisfied, elapsed, satisfied', elapsed')
    ensures fs[k].factor.Authenticator? ==> (fs[k].factor.id in satisfied <==> fs[k].factor.id in satisfied')
    ensures fs[k].factor.Wait? ==> (fs[k].factor.dur <= elapsed <==> fs[k].factor.dur <= elapsed')
  {
    match fs[k].factor {
      case Authenticator(id) =>
        assert HasAuthenticator(fs, id);
        assert ReachesAuthenticator(g, fs, id);
      case Wait(dur) =>
        assert HasWait(fs, dur);
        assert ReachesWait(g, fs, dur);
      case Group(_) =>
    }
  }

  /** Nothing but the proofs and the waits an authority reaches decides whether it is met. */
  lemma VerdictIsLocal(
      m: Model, a: Authority, satisfied: set<string>, elapsed: nat, satisfied': set<string>, elapsed': nat)
    requires Validated(m) && Agree(m.groups, a.factors, satisfied, elapsed, satisfied', elapsed')
    ensures Met(m, a, satisfied, elapsed) <==> Met(m, a, satisfied', elapsed')
  {
    SameWeight(m, a.factors, |a.factors|, satisfied, elapsed, satisfied', elapsed');
  }

  /** A proof by an authenticator the authority does not reach changes nothing. */
  lemma StrangerProvesNothing(m: Model, a: Authority, satisfied: set<string>, elapsed: nat, stranger: string)
    requires Validated(m) && !ReachesAuthenticator(m.groups, a.factors, stranger)
    ensures Met(m, a, satisfied + {stranger}, elapsed) <==> Met(m, a, satisfied, elapsed)
  {
    hide ReachesAuthenticator, ReachesWait;
    VerdictIsLocal(m, a, satisfied + {stranger}, elapsed, satisfied, elapsed);
  }

  // ---------------------------------------------------------------------------
  // Every accepted policy can open, and none opens for free
  // ---------------------------------------------------------------------------

  /** With every authenticator proven and every reachable wait elapsed, all weight is held. */
  lemma {:induction false} AllWeightHeld(
      m: Model, fs: seq<WeightedFactor>, n: nat, satisfied: set<string>, elapsed: nat)
    requires Validated(m) && n <= |fs|
    requires m.authenticators <= satisfied
    requires forall k :: 0 <= k < |fs| ==>
               match fs[k].factor
               case Authenticator(id) => id in m.authenticators
               case Group(id) => id in m.groups
               case Wait(_) => true
    requires forall dur: nat :: ReachesWait(m.groups, fs, dur) ==> dur <= elapsed
    ensures Weight(m, fs, n, satisfied, elapsed) == Total(fs[..n])
    decreases Level(m, fs), n
  {
    hide Level, Order, IndexIn;
    if n > 0 {
      AllWeightHeld(m, fs, n - 1, satisfied, elapsed);
      assert fs[..n] == fs[..n - 1] + [fs[n - 1]];
      TotalSplit(fs[..n - 1], [fs[n - 1]]);
      match fs[n - 1].factor {
        case Authenticator(_) =>
        case Wait(dur) =>
          assert HasWait(fs, dur);
          assert ReachesWait(m.groups, fs, dur);
        case Group(id) =>
          GroupHeld(m, fs, n - 1, satisfied, elapsed);
      }
      assert Holds(m, fs, n - 1, satisfied, elapsed);
    }
  }

  lemma {:induction false} GroupHeld(m: Model, fs: seq<WeightedFactor>, k: nat, satisfied: set<string>, elapsed: nat)
    requires Validated(m) && k < |fs| && fs[k].factor.Group? && fs[k].factor.id in m.groups
    requires m.authenticators <= satisfied
    requires forall dur: nat :: ReachesWait(m.groups, fs, dur) ==> dur <= elapsed
    ensures Met(m, m.groups[fs[k].factor.id], satisfied, elapsed)
    decreases Level(m, fs), 0
  {
    hide Level, Order, IndexIn;
    var id := fs[k].factor.id;
    var inner := m.groups[id].factors;
    GroupIsLower(m, fs, k);
    forall dur: nat | ReachesWait(m.groups, inner, dur) ensures dur <= elapsed {
      assert Names(fs, id);
      if HasWait(inner, dur) {
        assert ReachPath(m.groups, fs, [id], id);
        assert Reaches(m.groups, fs, id);
      } else {
        var deep :| deep in m.groups && HasWait(m.groups[deep].factors, dur) && Reaches(m.groups, inner, deep);
        ReachesThrough(m.groups, fs, id, deep);
      }
      assert ReachesWait(m.groups, fs, dur);
    }
    AllWeightHeld(m, inner, |inner|, satisfied, elapsed);
    assert inner[..|inner|] == inner;
  }

  /** A resolved, well-built authority is met by every authenticator at its longest wait. */
  lemma AcceptedPolicyOpens(m: Model, a: Authority, longest: nat)
    requires Validated(m) && WellBuilt(a) && Resolves(m, a)
    requires LongestWait(m.groups, a.factors, longest)
    ensures Met(m, a, m.authenticators, longest)
  {
    AllWeightHeld(m, a.factors, |a.factors|, m.authenticators, longest);
    assert a.factors[..|a.factors|] == a.factors;
  }

  lemma {:induction false} NothingHeldForFree(m: Model, a: Authority, n: nat)
    requires Validated(m) && WellBuilt(a) && n <= |a.factors|
    ensures Weight(m, a.factors, n, {}, 0) == 0
    decreases Level(m, a.factors), n
  {
    hide Level, Order, IndexIn, Total, Resolves;
    if n > 0 {
      NothingHeldForFree(m, a, n - 1);
      var f := a.factors[n - 1].factor;
      if f.Group? && f.id in m.groups {
        GroupIsLower(m, a.factors, n - 1);
        NothingHeldForFree(m, m.groups[f.id], |m.groups[f.id].factors|);
      }
      assert !Holds(m, a.factors, n - 1, {}, 0);
    }
  }

  /** With no proof and no time elapsed, no accepted policy is met. */
  lemma NothingOpensForFree(m: Model, a: Authority)
    requires Validated(m) && WellBuilt(a)
    ensures !Met(m, a, {}, 0)
  {
    NothingHeldForFree(m, a, |a.factors|);
  }
}
