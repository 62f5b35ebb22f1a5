/**
 The weighted-threshold policy: its data, the group graph it spans, and the
 three-colour depth-first search that refuses a cyclic group graph.
 */
module Policy {
  import opened Common

  datatype Factor =
    | Authenticator(id: string)
    | Group(id: string)
    | Wait(dur: nat)

  datatype WeightedFactor = WeightedFactor(weight: u32, factor: Factor)

  datatype Authority = Authority(threshold: u32, factors: seq<WeightedFactor>)

  type Groups = map<string, Authority>

  datatype Model = Model(authenticators: set<string>, groups: Groups, profiles: map<string, Authority>)

  /** `fs` has a factor that names group `id`. */
  predicate Names(fs: seq<WeightedFactor>, id: string) {
    exists k :: 0 <= k < |fs| && fs[k].factor == Group(id)
  }

  predicate Edge(g: Groups, from: string, to: string) {
    from in g && Names(g[from].factors, to)
  }

  ghost predicate Closed(g: Groups) {
    forall n, c :: Edge(g, n, c) ==> c in g
  }

  ghost predicate Path(g: Groups, p: seq<string>) {
    |p| > 0 && forall i :: 0 <= i < |p| - 1 ==> Edge(g, p[i], p[i + 1])
  }

  ghost predicate PathFromTo(g: Groups, p: seq<string>, from: string, to: string) {
    Path(g, p) && p[0] == from && p[|p| - 1] == to
  }

  ghost predicate Cycle(g: Groups, p: seq<string>) {
    Path(g, p) && |p| > 1 && p[0] == p[|p| - 1]
  }

  ghost predicate Acyclic(g: Groups) {
    forall p :: !Cycle(g, p)
  }

  /** Every node appears in `order`, after everything it refers to. */
  ghost predicate Topological(g: Groups, order: seq<string>) {
    && (forall n :: n in g ==> n in order)
    && Settled(g, order)
  }

  /** `order` lists each node once, children first. */
  ghost predicate Settled(g: Groups, order: seq<string>) {
    && (forall i, j :: 0 <= i < j < |order| ==> order[i] != order[j])
    && (forall j, c :: 0 <= j < |order| && Edge(g, order[j], c) ==> c in order[..j])
  }

  lemma {:induction false} PathDescends(g: Groups, order: seq<string>, p: seq<string>, j: nat)
    requires Settled(g, order)
    requires Path(g, p)
    requires j < |order| && order[j] == p[0]
    ensures |p| > 1 ==> p[|p| - 1] in order[..j]
    decreases |p|
  {
    if |p| > 1 {
      assert Edge(g, p[0], p[1]);
      var i :| 0 <= i < j && order[i] == p[1];
      if |p| > 2 {
        var q := p[1..];
        assert Path(g, q) by {
          forall k | 0 <= k < |q| - 1 ensures Edge(g, q[k], q[k + 1]) {
            assert q[k] == p[k + 1] && q[k + 1] == p[k + 2];
          }
        }
        PathDescends(g, order, q, i);
        assert order[..i] <= order[..j];
      }
    }
  }

  /** A topological order rules out every cycle. */
  lemma TopologicalIsAcyclic(g: Groups, order: seq<string>)
    requires Topological(g, order)
    ensures Acyclic(g)
  {
    forall p | Cycle(g, p) ensures false {
      assert Edge(g, p[0], p[1]);
      var j :| 0 <= j < |order| && order[j] == p[0];
      PathDescends(g, order, p, j);
    }
  }

  // ---------------------------------------------------------------------------
  // The iterative depth-first search
  // ---------------------------------------------------------------------------

  datatype Colour = White | Grey | Black

  /** A stack entry: `entering` marks the node grey, leaving marks it black. */
  datatype Frame = Frame(node: string, entering: bool)

  /** Entry `i` is the innermost node being visited below entry `j`. */
  ghost predicate ParentOf(stack: seq<Frame>, i: int, j: int) {
    && 0 <= i < j < |stack|
    && !stack[i].entering
    && forall k :: i < k < j ==> stack[k].entering
  }

  /** Every entry above the bottom was pushed by the innermost visited node below it. */
  ghost predicate Threaded(g: Groups, stack: seq<Frame>) {
    forall j :: 0 < j < |stack| ==> HasParent(g, stack, j)
  }

  ghost predicate HasParent(g: Groups, stack: seq<Frame>, j: nat)
    requires j < |stack|
  {
    exists i :: ParentOf(stack, i, j) && Edge(g, stack[i].node, stack[j].node)
  }

  /** A node being visited is not on the stack again above its own entry. */
  ghost predicate Nested(stack: seq<Frame>) {
    forall i, j :: 0 <= i < j < |stack| && !stack[i].entering ==> stack[i].node != stack[j].node
  }

  /** What a visited node still lacks is waiting above it; a finished node revisited is on top. */
  ghost predicate Pending(g: Groups, stack: seq<Frame>, done: seq<string>) {
    forall i :: 0 <= i < |stack| && !stack[i].entering ==>
      if stack[i].node in done then i == |stack| - 1
      else forall c :: Edge(g, stack[i].node, c) ==> c in done || Above(stack, i, c)
  }

  predicate Above(stack: seq<Frame>, i: int, n: string) {
    exists j :: 0 <= j < |stack| && i < j && stack[j].node == n
  }

  predicate OnPath(stack: seq<Frame>, n: string) {
    exists i :: 0 <= i < |stack| && stack[i] == Frame(n, false)
  }

  ghost predicate Coloured(g: Groups, colour: map<string, Colour>, stack: seq<Frame>, done: seq<string>) {
    && colour.Keys == g.Keys
    && forall n :: n in g ==>
         colour[n] == (if OnPath(stack, n) then Grey else if n in done then Black else White)
  }

  ghost predicate SearchState(g: Groups, colour: map<string, Colour>, stack: seq<Frame>, done: seq<string>) {
    && Settled(g, done)
    && (forall n :: n in done ==> n in g)
    && (forall j :: 0 <= j < |stack| ==> stack[j].node in g)
    && Threaded(g, stack)
    && Nested(stack)
    && Pending(g, stack, done)
    && Coloured(g, colour, stack, done)
  }

  /** Grey nodes form a path: each one below the top reaches the top. */
  lemma {:induction false} GreyPath(g: Groups, stack: seq<Frame>, i: nat, j: nat) returns (p: seq<string>)
    requires Threaded(g, stack)
    requires i <= j < |stack| && !stack[i].entering
    ensures PathFromTo(g, p, stack[i].node, stack[j].node)
    decreases j
  {
    if i == j {
      p := [stack[i].node];
    } else {
      assert HasParent(g, stack, j);
      var k :| ParentOf(stack, k, j) && Edge(g, stack[k].node, stack[j].node);
      assert i <= k;
      var q := GreyPath(g, stack, i, k);
      p := q + [stack[j].node];
    }
  }

  /** How much work the stack still holds: an entry costs its visit and its leaving. */
  ghost function Work(stack: seq<Frame>): nat {
    if stack == [] then 0
    else (if stack[|stack| - 1].entering then 2 else 1) + Work(stack[..|stack| - 1])
  }

  ghost function Whites(colour: map<string, Colour>): set<string> {
    set n | n in colour && colour[n] == White
  }

  lemma WorkAppend(stack: seq<Frame>, f: Frame)
    ensures Work(stack + [f]) == Work(stack) + (if f.entering then 2 else 1)
  {
    assert (stack + [f])[..|stack|] == stack;
  }

  // Each step of the search keeps SearchState; the lemmas below show it conjunct by conjunct.

  lemma OnPathOfConcat(base: seq<Frame>, top: seq<Frame>, m: string)
    ensures OnPath(base + top, m) <==> OnPath(base, m) || OnPath(top, m)
  {
    var stack := base + top;
    if OnPath(base, m) {
      var i :| 0 <= i < |base| && base[i] == Frame(m, false);
      assert stack[i] == Frame(m, false);
    }
    if OnPath(top, m) {
      var i :| 0 <= i < |top| && top[i] == Frame(m, false);
      assert stack[|base| + i] == Frame(m, false);
    }
    if OnPath(stack, m) {
      var i :| 0 <= i < |stack| && stack[i] == Frame(m, false);
      assert if i < |base| then base[i] == Frame(m, false) else top[i - |base|] == Frame(m, false);
    }
  }

  lemma ThreadedPrefix(g: Groups, base: seq<Frame>, top: seq<Frame>)
    requires Threaded(g, base + top)
    ensures Threaded(g, base)
  {
    var stack := base + top;
    assert forall j :: 0 <= j < |base| ==> base[j] == stack[j];
    forall j | 0 < j < |base| ensures HasParent(g, base, j) {
      assert HasParent(g, stack, j);
      var i :| ParentOf(stack, i, j) && Edge(g, stack[i].node, stack[j].node);
      assert ParentOf(base, i, j);
    }
  }

  /** The finish order stays children-first when the node on top is left for the first time. */
  lemma LeaveSettles(g: Groups, base: seq<Frame>, n: string, done: seq<string>)
    requires Settled(g, done) && n !in done
    requires Pending(g, base + [Frame(n, false)], done)
    ensures Settled(g, done + [n])
  {
    var stack := base + [Frame(n, false)];
    assert stack[|base|] == Frame(n, false);
    forall c | Edge(g, n, c) ensures c in done {
      assert !Above(stack, |base|, c);
    }
    var done' := done + [n];
    forall j, c | 0 <= j < |done'| && Edge(g, done'[j], c) ensures c in done'[..j] {
      assert done'[..j] == done[..j];
      assert j == |done| ==> done[..j] == done;
    }
  }

  lemma LeavePending(g: Groups, base: seq<Frame>, n: string, done: seq<string>, done': seq<string>)
    requires Nested(base + [Frame(n, false)])
    requires Pending(g, base + [Frame(n, false)], done)
    requires forall m :: m in done' <==> m in done || m == n
    ensures Pending(g, base, done')
  {
    var stack := base + [Frame(n, false)];
    forall i | 0 <= i < |base| && !base[i].entering
      ensures base[i].node !in done'
      ensures forall c :: Edge(g, base[i].node, c) ==> c in done' || Above(base, i, c)
    {
      assert stack[i] == base[i] && stack[|base|].node == n;
      forall c | Edge(g, base[i].node, c) && c !in done' ensures Above(base, i, c) {
        assert Above(stack, i, c);
        var j :| 0 <= j < |stack| && i < j && stack[j].node == c;
        assert base[j].node == c;
      }
    }
  }

  lemma NestedPrefix(base: seq<Frame>, top: seq<Frame>)
    requires Nested(base + top)
    ensures Nested(base)
  {
    var stack := base + top;
    assert forall j :: 0 <= j < |base| ==> base[j] == stack[j];
  }

  /** Leaving a node keeps the search state and finishes the node. */
  lemma LeaveKeeps(g: Groups, colour: map<string, Colour>, base: seq<Frame>, n: string, done: seq<string>)
    requires SearchState(g, colour, base + [Frame(n, false)], done)
    ensures SearchState(g, colour[n := Black], base, if n in done then done else done + [n])
  {
    hide Threaded, Pending, Nested, Settled, Coloured;
    var stack := base + [Frame(n, false)];
    var done' := if n in done then done else done + [n];
    assert stack[|base|] == Frame(n, false);
    assert forall j :: 0 <= j < |base| ==> base[j] == stack[j];
    if n !in done {
      LeaveSettles(g, base, n, done);
    }
    ThreadedPrefix(g, base, [Frame(n, false)]);
    NestedPrefix(base, [Frame(n, false)]);
    LeavePending(g, base, n, done, done');
    LeaveColours(g, colour, base, n, done, done');
  }

  lemma LeaveColours(
      g: Groups, colour: map<string, Colour>, base: seq<Frame>, n: string, done: seq<string>, done': seq<string>)
    requires n in g && Nested(base + [Frame(n, false)])
    requires Coloured(g, colour, base + [Frame(n, false)], done)
    requires forall m :: m in done' <==> m in done || m == n
    ensures Coloured(g, colour[n := Black], base, done')
  {
    var stack := base + [Frame(n, false)];
    assert !OnPath(base, n) by {
      assert stack[|base|].node == n;
      forall i | 0 <= i < |base| ensures base[i] != Frame(n, false) {
        assert stack[i] == base[i];
      }
    }
    forall m | m in g && m != n ensures OnPath(base, m) <==> OnPath(stack, m) {
      OnPathOfConcat(base, [Frame(n, false)], m);
    }
  }

  /** `top` is what entering `n` pushes: `n` itself, then entries for its unfinished children. */
  ghost predicate EntryOf(g: Groups, n: string, top: seq<Frame>, done: seq<string>) {
    && |top| > 0 && top[0] == Frame(n, false)
    && (forall k :: 0 < k < |top| ==> top[k].entering && Edge(g, n, top[k].node) && top[k].node !in done)
    && (forall c :: Edge(g, n, c) ==> c in done || Above(top, 0, c))
  }

  lemma EnterThreaded(g: Groups, base: seq<Frame>, n: string, top: seq<Frame>, done: seq<string>)
    requires Threaded(g, base + [Frame(n, true)])
    requires EntryOf(g, n, top, done)
    ensures Threaded(g, base + top)
  {
    var prior := base + [Frame(n, true)];
    var stack := base + top;
    forall j | 0 < j < |stack| ensures HasParent(g, stack, j) {
      if j <= |base| {
        assert HasParent(g, prior, j);
        var i :| ParentOf(prior, i, j) && Edge(g, prior[i].node, prior[j].node);
        assert forall k :: 0 <= k < j ==> stack[k] == prior[k];
        assert ParentOf(stack, i, j);
      } else {
        assert stack[|base|] == top[0] && stack[j] == top[j - |base|];
        assert ParentOf(stack, |base|, j);
      }
    }
  }

  lemma EnterNested(g: Groups, base: seq<Frame>, n: string, top: seq<Frame>, done: seq<string>)
    requires Nested(base + [Frame(n, true)])
    requires EntryOf(g, n, top, done)
    requires forall c :: Edge(g, n, c) ==> !OnPath(base, c) && c != n
    ensures Nested(base + top)
  {
    var prior := base + [Frame(n, true)];
    var stack := base + top;
    forall i, j | 0 <= i < j < |stack| && !stack[i].entering ensures stack[i].node != stack[j].node {
      if j <= |base| {
        assert stack[i] == prior[i] && stack[j].node == prior[j].node;
      } else {
        assert stack[j] == top[j - |base|] && Edge(g, n, stack[j].node);
        if i < |base| {
          assert base[i] == Frame(stack[i].node, false);
          assert OnPath(base, stack[i].node);
        }
      }
    }
  }

  lemma EnterPending(g: Groups, base: seq<Frame>, n: string, top: seq<Frame>, done: seq<string>)
    requires Settled(g, done)
    requires Pending(g, base + [Frame(n, true)], done)
    requires EntryOf(g, n, top, done)
    ensures Pending(g, base + top, done)
  {
    var prior := base + [Frame(n, true)];
    var stack := base + top;
    forall i | 0 <= i < |stack| && !stack[i].entering
      ensures if stack[i].node in done then i == |stack| - 1
              else forall c :: Edge(g, stack[i].node, c) ==> c in done || Above(stack, i, c)
    {
      if i < |base| {
        assert stack[i] == prior[i];
        forall c | Edge(g, stack[i].node, c) && c !in done ensures Above(stack, i, c) {
          var j :| 0 <= j < |prior| && i < j && prior[j].node == c;
          assert stack[j].node == c;
        }
      } else {
        assert stack[i] == top[i - |base|];
        forall c | Edge(g, n, c) && c !in done ensures Above(stack, i, c) {
          var j :| 0 <= j < |top| && 0 < j && top[j].node == c;
          assert stack[|base| + j].node == c;
        }
        if n in done && |top| > 1 {
          DoneIsClosed(g, done, n, top[1].node);
        }
      }
    }
  }

  lemma DoneIsClosed(g: Groups, done: seq<string>, n: string, c: string)
    requires Settled(g, done) && n in done && Edge(g, n, c)
    ensures c in done
  {
    var j :| 0 <= j < |done| && done[j] == n;
    assert c in done[..j];
  }

  /** Entering a node none of whose children is being visited keeps the search state. */
  lemma EnterKeeps(
      g: Groups, colour: map<string, Colour>, base: seq<Frame>, n: string, top: seq<Frame>, done: seq<string>)
    requires Closed(g)
    requires SearchState(g, colour, base + [Frame(n, true)], done)
    requires EntryOf(g, n, top, done)
    requires forall c :: Edge(g, n, c) ==> !OnPath(base, c) && c != n
    ensures SearchState(g, colour[n := Grey], base + top, done)
  {
    hide Threaded, Pending, Nested, Settled, Coloured;
    var prior := base + [Frame(n, true)];
    var stack := base + top;
    assert prior[|base|].node == n;
    EnterThreaded(g, base, n, top, done);
    EnterNested(g, base, n, top, done);
    EnterPending(g, base, n, top, done);
    EnterColours(g, colour, base, n, top, done);
    forall j | 0 <= j < |stack| ensures stack[j].node in g {
      assert if j < |base| then stack[j] == prior[j] else stack[j] == top[j - |base|];
    }
  }

  lemma EnterColours(
      g: Groups, colour: map<string, Colour>, base: seq<Frame>, n: string, top: seq<Frame>, done: seq<string>)
    requires n in g
    requires Coloured(g, colour, base + [Frame(n, true)], done)
    requires EntryOf(g, n, top, done)
    ensures Coloured(g, colour[n := Grey], base + top, done)
  {
    var prior := base + [Frame(n, true)];
    var stack := base + top;
    forall m | m in g ensures OnPath(stack, m) <==> OnPath(prior, m) || m == n {
      OnPathOfConcat(base, top, m);
      OnPathOfConcat(base, [Frame(n, true)], m);
      if m == n {
        assert top[0] == Frame(m, false);
      }
    }
  }

  /** A grey child closes a cycle through the node being entered. */
  lemma GreyChildIsCycle(g: Groups, base: seq<Frame>, n: string, c: string) returns (p: seq<string>)
    requires Threaded(g, base + [Frame(n, true)])
    requires Edge(g, n, c)
    requires c == n || OnPath(base, c)
    ensures Cycle(g, p) && p[0] == c
  {
    var stack := base + [Frame(n, true)];
    if c == n {
      p := [n, n];
    } else {
      var i :| 0 <= i < |base| && base[i] == Frame(c, false);
      assert stack[i] == base[i] && stack[|base|].node == n;
      var q := GreyPath(g, stack, i, |base|);
      p := q + [c];
      assert forall k :: 0 <= k < |q| ==> p[k] == q[k];
      forall k | 0 <= k < |p| - 1 ensures Edge(g, p[k], p[k + 1]) {
        assert k < |q| - 1 ==> Edge(g, q[k], q[k + 1]);
      }
    }
  }

  /** Scanning pushed entries only for white children of `n`, and found no grey one. */
  ghost predicate Scanned(g: Groups, colour: map<string, Colour>, base: seq<Frame>, n: string, stack: seq<Frame>) {
    && |base| < |stack| && stack[..|base|] == base && stack[|base|] == Frame(n, false)
    && (forall j :: |base| < j < |stack| ==>
                      stack[j].entering && Edge(g, n, stack[j].node) && Is(colour, stack[j].node, White))
    && (forall c :: Edge(g, n, c) ==> !Is(colour, c, Grey) && (Is(colour, c, White) ==> Above(stack, |base|, c)))
  }

  predicate Is(colour: map<string, Colour>, n: string, c: Colour) {
    n in colour && colour[n] == c
  }

  /** Pushes the node's own leaving entry, then an entry for every white child; stops at a grey one. */
  method Scan(g: Groups, colour: map<string, Colour>, node: string, base: seq<Frame>)
    returns (grey: Option<string>, stack: seq<Frame>)
    requires node in g && colour.Keys == g.Keys
    requires Closed(g)
    ensures grey.Some? ==> Edge(g, node, grey.value) && Is(colour, grey.value, Grey)
    ensures grey.None? ==> Scanned(g, colour, base, node, stack)
  {
    stack := base + [Frame(node, false)];
    var factors := g[node].factors;
    for k := 0 to |factors|
      invariant |base| < |stack| && stack[..|base|] == base && stack[|base|] == Frame(node, false)
      invariant forall j :: |base| < j < |stack| ==>
                  stack[j].entering && Edge(g, node, stack[j].node) && Is(colour, stack[j].node, White)
      invariant forall i :: 0 <= i < k && factors[i].factor.Group? ==>
                  && !Is(colour, factors[i].factor.id, Grey)
                  && (Is(colour, factors[i].factor.id, White) ==> Above(stack, |base|, factors[i].factor.id))
    {
      if factors[k].factor.Group? {
        var child := factors[k].factor.id;
        assert Edge(g, node, child);
        match colour[child] {
          case Grey =>
            return Some(child), stack;
          case White =>
            AbovePush(stack, |base|, Frame(child, true));
            stack := stack + [Frame(child, true)];
          case Black =>
        }
      }
    }
    grey := None;
  }

  lemma AbovePush(stack: seq<Frame>, i: int, f: Frame)
    requires i < |stack|
    ensures Above(stack + [f], i, f.node)
    ensures forall n :: Above(stack, i, n) ==> Above(stack + [f], i, n)
  {
    var stack' := stack + [f];
    assert stack'[|stack|].node == f.node;
    forall n | Above(stack, i, n) ensures Above(stack', i, n) {
      var j :| 0 <= j < |stack| && i < j && stack[j].node == n;
      assert stack'[j].node == n;
    }
  }

  lemma ScannedIsEntry(
      g: Groups, colour: map<string, Colour>, base: seq<Frame>, n: string, stack: seq<Frame>, done: seq<string>)
    requires Closed(g) && n in g
    requires Coloured(g, colour, base + [Frame(n, true)], done) && Settled(g, done)
    requires Scanned(g, colour[n := Grey], base, n, stack)
    ensures EntryOf(g, n, stack[|base|..], done)
    ensures forall c :: Edge(g, n, c) ==> !OnPath(base, c) && c != n
    ensures n in done ==> |stack| == |base| + 1
  {
    var top := stack[|base|..];
    forall c | Edge(g, n, c)
      ensures !OnPath(base, c) && c != n
      ensures c in done || Above(top, 0, c)
    {
      OnPathOfConcat(base, [Frame(n, true)], c);
      if c !in done {
        assert Is(colour[n := Grey], c, White);
        var j :| 0 <= j < |stack| && |base| < j && stack[j].node == c;
        assert top[j - |base|].node == c;
      }
    }
    forall k | 0 < k < |top| ensures top[k].entering && Edge(g, n, top[k].node) && top[k].node !in done {
      assert top[k] == stack[|base| + k];
      OnPathOfConcat(base, [Frame(n, true)], top[k].node);
    }
    if n in done && |top| > 1 {
      DoneIsClosed(g, done, n, top[1].node);
    }
  }

  /** Entering shrinks the white nodes, or (when the node was finished before) the work on the stack. */
  lemma EnterProgress(
      g: Groups, colour: map<string, Colour>, base: seq<Frame>, n: string, stack: seq<Frame>, done: seq<string>)
    requires Closed(g)
    requires SearchState(g, colour, base + [Frame(n, true)], done)
    requires Scanned(g, colour[n := Grey], base, n, stack)
    ensures SearchState(g, colour[n := Grey], stack, done)
    ensures Whites(colour[n := Grey]) < Whites(colour)
            || (Whites(colour[n := Grey]) == Whites(colour) && Work(stack) < Work(base + [Frame(n, true)]))
  {
    hide Threaded, Pending, Settled;
    assert (base + [Frame(n, true)])[|base|].node == n;
    ScannedIsEntry(g, colour, base, n, stack, done);
    EnterKeeps(g, colour, base, n, stack[|base|..], done);
    assert stack == base + stack[|base|..];
    OnPathOfConcat(base, [Frame(n, true)], n);
    EnteredNotOnPath(base, n);
    if n in done {
      assert stack == base + [Frame(n, false)];
      WorkAppend(base, Frame(n, false));
      WorkAppend(base, Frame(n, true));
      assert Whites(colour[n := Grey]) == Whites(colour);
    } else {
      assert n in Whites(colour) && n !in Whites(colour[n := Grey]);
    }
  }

  lemma EnteredNotOnPath(base: seq<Frame>, n: string)
    requires Nested(base + [Frame(n, true)])
    ensures !OnPath(base, n)
  {
    var stack := base + [Frame(n, true)];
    assert stack[|base|].node == n;
    forall i | 0 <= i < |base| ensures base[i] != Frame(n, false) {
      assert stack[i] == base[i];
    }
  }

  lemma LeaveProgress(g: Groups, colour: map<string, Colour>, base: seq<Frame>, n: string, done: seq<string>)
    requires SearchState(g, colour, base + [Frame(n, false)], done)
    ensures Whites(colour[n := Black]) == Whites(colour)
    ensures Work(base) < Work(base + [Frame(n, false)])
  {
    var stack := base + [Frame(n, false)];
    assert stack[|base|] == Frame(n, false);
    assert OnPath(stack, n);
    WorkAppend(base, Frame(n, false));
  }

  lemma TopIsKnown(g: Groups, colour: map<string, Colour>, base: seq<Frame>, f: Frame, done: seq<string>)
    requires SearchState(g, colour, base + [f], done)
    ensures f.node in g && colour.Keys == g.Keys
  {
    assert (base + [f])[|base|] == f;
  }

  /** A child found grey while scanning lies on a cycle. */
  lemma GreyHit(g: Groups, colour: map<string, Colour>, base: seq<Frame>, n: string, done: seq<string>, c: string)
    requires SearchState(g, colour, base + [Frame(n, true)], done)
    requires Edge(g, n, c) && c in g && Is(colour[n := Grey], c, Grey)
    ensures exists p :: Cycle(g, p) && p[0] == c
  {
    OnPathOfConcat(base, [Frame(n, true)], c);
    var p := GreyChildIsCycle(g, base, n, c);
  }

  /** The search from one white root: finishes it, or names a node on a cycle. */
  method SearchFrom(g: Groups, colour0: map<string, Colour>, start: string, ghost order0: seq<string>)
    returns (grey: Option<string>, colour: map<string, Colour>, ghost order: seq<string>)
    requires Closed(g) && start in g && start !in order0
    requires SearchState(g, colour0, [], order0)
    ensures grey.Some? ==> exists p :: Cycle(g, p) && p[0] == grey.value
    ensures grey.None? ==> SearchState(g, colour, [], order) && order0 <= order && start in order
  {
    hide SearchState, Whites, Work;
    colour, order := colour0, order0;
    var stack := [Frame(start, true)];
    RootState(g, colour0, start, order0);
    while stack != []
      invariant SearchState(g, colour, stack, order)
      invariant order0 <= order
      invariant start in order || (|stack| > 0 && stack[0].node == start)
      decreases Whites(colour), Work(stack)
    {
      var f := stack[|stack| - 1];
      var base := stack[..|stack| - 1];
      assert stack == base + [f];
      TopIsKnown(g, colour, base, f, order);
      if f.entering {
        var hit, pushed := Scan(g, colour[f.node := Grey], f.node, base);
        if hit.Some? {
          GreyHit(g, colour, base, f.node, order, hit.value);
          return hit, colour, order;
        }
        EnterProgress(g, colour, base, f.node, pushed, order);
        colour := colour[f.node := Grey];
        assert |base| > 0 ==> pushed[..|base|][0] == pushed[0];
        stack := pushed;
      } else {
        LeaveKeeps(g, colour, base, f.node, order);
        LeaveProgress(g, colour, base, f.node, order);
        colour := colour[f.node := Black];
        order := if f.node in order then order else order + [f.node];
        stack := base;
      }
    }
    grey := None;
  }

  lemma RootState(g: Groups, colour: map<string, Colour>, start: string, order: seq<string>)
    requires start in g && SearchState(g, colour, [], order)
    ensures SearchState(g, colour, [Frame(start, true)], order)
  {
  }

  /**
   Refuses a cyclic group graph. Roots may be taken in any order. `order` is the
   order in which nodes are first left.
   */
  method CheckGroupAcyclic(g: Groups) returns (r: Result<(), string>, ghost order: seq<string>)
    requires Closed(g)
    ensures r.Ok? <==> Acyclic(g)
    ensures r.Ok? ==> Topological(g, order)
    ensures r.Err? ==> exists p :: Cycle(g, p) && p[0] == r.error
  {
    var colour := map n | n in g :: White;
    order := [];
    var todo := g.Keys;
    while todo != {}
      invariant todo <= g.Keys
      invariant SearchState(g, colour, [], order)
      invariant forall n :: n in g ==> n in todo || n in order
      decreases todo
    {
      var start :| start in todo;
      todo := todo - {start};
      if colour[start] == White {
        var grey;
        grey, colour, order := SearchFrom(g, colour, start, order);
        if grey.Some? {
          return Err(grey.value), order;
        }
      }
    }
    TopologicalIsAcyclic(g, order);
    r := Ok(());
  }
}
