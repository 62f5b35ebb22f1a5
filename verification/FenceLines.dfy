/**
 A fence among lines: one begin marker, then one end marker. Lines may be of any
 type; `b` and `e` are the markers.
 */
module FenceLines {
  import opened Common

  function Positions<T(==)>(lines: seq<T>, marker: T): (s: seq<nat>)
    ensures forall i :: 0 <= i < |s| ==> s[i] < |lines| && lines[s[i]] == marker
  {
    if lines == [] then []
    else
      var n := |lines| - 1;
      Positions(lines[..n], marker) + if lines[n] == marker then [n] else []
  }

  /** Where the fence sits, if the markers are absent or well formed. */
  function LocateFence<T(==)>(lines: seq<T>, b: T, e: T): Option<Option<(nat, nat)>> {
    var begins := Positions(lines, b);
    var ends := Positions(lines, e);
    if |begins| == 0 && |ends| == 0 then Some(None)
    else if |begins| == 1 && |ends| == 1 && begins[0] < ends[0] then Some(Some((begins[0], ends[0])))
    else None
  }

  ghost predicate Plain<T>(lines: seq<T>, b: T, e: T) {
    b !in lines && e !in lines
  }

  function Block<T>(keys: seq<T>, b: T, e: T): seq<T> {
    [b] + keys + [e]
  }

  /** `lines` is `pre`, a fence around `mid`, and `post`, with no other marker. */
  ghost predicate Split<T>(lines: seq<T>, b: T, e: T, pre: seq<T>, mid: seq<T>, post: seq<T>) {
    && lines == pre + Block(mid, b, e) + post
    && Plain(pre, b, e) && Plain(mid, b, e) && Plain(post, b, e)
  }

  lemma {:induction false} PositionsNone<T>(lines: seq<T>, marker: T)
    ensures Positions(lines, marker) == [] <==> marker !in lines
  {
    if lines != [] {
      var n := |lines| - 1;
      PositionsNone(lines[..n], marker);
      assert lines == lines[..n] + [lines[n]];
    }
  }

  lemma {:induction false} PositionsOnly<T>(lines: seq<T>, marker: T, p: nat)
    requires Positions(lines, marker) == [p]
    ensures p < |lines| && marker !in lines[..p] && marker !in lines[p + 1..]
  {
    var n := |lines| - 1;
    var front := Positions(lines[..n], marker);
    if lines[n] == marker {
      assert |front + [n]| == 1 && (front + [n])[0] == n;
      PositionsNone(lines[..n], marker);
      assert lines[n + 1..] == [];
    } else {
      PositionsOnly(lines[..n], marker, p);
      assert lines[..p] == lines[..n][..p];
      assert lines[p + 1..] == lines[..n][p + 1..] + [lines[n]];
    }
  }

  lemma {:induction false} PositionsPlain<T>(a: seq<T>, rest: seq<T>, marker: T)
    requires marker !in rest
    ensures Positions(a + rest, marker) == Positions(a, marker)
  {
    if rest == [] {
      assert a + rest == a;
    } else {
      assert (a + rest)[..|a + rest| - 1] == a + rest[..|rest| - 1];
      PositionsPlain(a, rest[..|rest| - 1], marker);
    }
  }

  lemma PositionsOne<T>(pre: seq<T>, marker: T, post: seq<T>)
    requires marker !in pre && marker !in post
    ensures Positions(pre + [marker] + post, marker) == [|pre|]
  {
    PositionsNone(pre, marker);
    assert (pre + [marker])[..|pre|] == pre;
    PositionsPlain(pre + [marker], post, marker);
  }

  lemma LocateNone<T>(lines: seq<T>, b: T, e: T)
    ensures LocateFence(lines, b, e) == Some(None) <==> Plain(lines, b, e)
  {
    PositionsNone(lines, b);
    PositionsNone(lines, e);
  }

  /** A well-formed fence is located where it stands. */
  lemma LocateSplit<T>(lines: seq<T>, b: T, e: T, pre: seq<T>, mid: seq<T>, post: seq<T>)
    requires b != e && Split(lines, b, e, pre, mid, post)
    ensures LocateFence(lines, b, e) == Some(Some((|pre|, |pre| + 1 + |mid|)))
  {
    hide Positions;
    var back := mid + [e] + post;
    assert lines == pre + [b] + back;
    PositionsOne(pre, b, back);
    var front := pre + [b] + mid;
    assert lines == front + [e] + post;
    PositionsOne(front, e, post);
  }

  /** Any fence located is one, with exactly the lines around it. */
  lemma LocatedSplit<T>(lines: seq<T>, b: T, e: T, i: nat, j: nat)
    requires LocateFence(lines, b, e) == Some(Some((i, j)))
    ensures i < j < |lines| && Split(lines, b, e, lines[..i], lines[i + 1..j], lines[j + 1..])
  {
    hide Positions;
    assert Positions(lines, b) == [i] && Positions(lines, e) == [j];
    PositionsOnly(lines, b, i);
    PositionsOnly(lines, e, j);
    var pre, mid, post := lines[..i], lines[i + 1..j], lines[j + 1..];
    assert lines == pre + Block(mid, b, e) + post;
    assert pre <= lines[..j] && mid == lines[i + 1..][..j - i - 1] && post == lines[i + 1..][j - i..];
    assert mid == lines[..j][i + 1..];
  }

  /** Around a block the lines are well formed exactly when they hold no further marker. */
  lemma LocateBlock<T>(pre: seq<T>, keys: seq<T>, post: seq<T>, b: T, e: T)
    requires b != e && Plain(keys, b, e)
    ensures LocateFence(pre + Block(keys, b, e) + post, b, e).Some? <==> Plain(pre, b, e) && Plain(post, b, e)
    ensures Plain(pre, b, e) && Plain(post, b, e) ==>
              LocateFence(pre + Block(keys, b, e) + post, b, e) == Some(Some((|pre|, |pre| + 1 + |keys|)))
  {
    hide Positions, LocateFence;
    var whole := pre + Block(keys, b, e) + post;
    if Plain(pre, b, e) && Plain(post, b, e) {
      LocateSplit(whole, b, e, pre, keys, post);
    }
    if LocateFence(whole, b, e).Some? {
      LocateNone(whole, b, e);
      assert whole[|pre|] == b && whole[|pre| + 1 + |keys|] == e;
      var (i, j) := LocateFence(whole, b, e).value.value;
      LocatedSplit(whole, b, e, i, j);
      OnlyOneMarker(whole, b, e, i, j, |pre|, |pre| + 1 + |keys|);
      assert whole[..|pre|] == pre && whole[|pre| + |keys| + 2..] == post;
    }
  }

  lemma OnlyOneMarker<T>(lines: seq<T>, b: T, e: T, i: nat, j: nat, p: nat, q: nat)
    requires b != e && i < j < |lines| && Split(lines, b, e, lines[..i], lines[i + 1..j], lines[j + 1..])
    requires p < |lines| && q < |lines| && lines[p] == b && lines[q] == e
    ensures p == i && q == j
  {
    forall k | 0 <= k < |lines| && k != i && k != j ensures lines[k] != b && lines[k] != e {
      if k < i {
        assert lines[..i][k] == lines[k];
      } else if k < j {
        assert lines[i + 1..j][k - i - 1] == lines[k];
      } else {
        assert lines[j + 1..][k - j - 1] == lines[k];
      }
    }
    SplitMarkers(lines, b, e, lines[..i], lines[i + 1..j], lines[j + 1..]);
  }

  /** The lines before and after the fence; everything is before an absent fence. */
  function Around<T(==)>(lines: seq<T>, b: T, e: T): (seq<T>, seq<T>)
    requires LocateFence(lines, b, e).Some?
  {
    match LocateFence(lines, b, e).value
    case None => (lines, [])
    case Some((i, j)) => LocatedSplit(lines, b, e, i, j); (lines[..i], lines[j + 1..])
  }

  /** The lines outside the fence, in order. */
  function Outside<T(==)>(lines: seq<T>, b: T, e: T): seq<T>
    requires LocateFence(lines, b, e).Some?
  {
    Around(lines, b, e).0 + Around(lines, b, e).1
  }

  /** The lines with the fence appended, or replaced where it stands. */
  function Fenced<T(==)>(lines: seq<T>, keys: seq<T>, b: T, e: T): seq<T>
    requires LocateFence(lines, b, e).Some?
  {
    Around(lines, b, e).0 + Block(keys, b, e) + Around(lines, b, e).1
  }

  lemma AroundIsPlain<T>(lines: seq<T>, b: T, e: T)
    requires LocateFence(lines, b, e).Some?
    ensures Plain(Around(lines, b, e).0, b, e) && Plain(Around(lines, b, e).1, b, e)
  {
    hide Positions, LocateFence;
    LocateNone(lines, b, e);
    if LocateFence(lines, b, e).value.Some? {
      var (i, j) := LocateFence(lines, b, e).value.value;
      LocatedSplit(lines, b, e, i, j);
    }
  }

  lemma AroundIsPart<T>(lines: seq<T>, b: T, e: T)
    requires LocateFence(lines, b, e).Some?
    ensures forall l :: l in Around(lines, b, e).0 || l in Around(lines, b, e).1 ==> l in lines
  {
    hide Positions, LocateFence;
    if LocateFence(lines, b, e).value.Some? {
      var (i, j) := LocateFence(lines, b, e).value.value;
      LocatedSplit(lines, b, e, i, j);
    }
  }

  /** Inserting or replacing the fence leaves what is around it as it was. */
  lemma AroundFenced<T>(lines: seq<T>, keys: seq<T>, b: T, e: T)
    requires b != e && LocateFence(lines, b, e).Some? && Plain(keys, b, e)
    ensures LocateFence(Fenced(lines, keys, b, e), b, e).Some?
    ensures Around(Fenced(lines, keys, b, e), b, e) == Around(lines, b, e)
  {
    hide Positions, LocateFence;
    var (pre, post) := Around(lines, b, e);
    AroundIsPlain(lines, b, e);
    var whole := pre + Block(keys, b, e) + post;
    LocateSplit(whole, b, e, pre, keys, post);
    assert whole[..|pre|] == pre && whole[|pre| + 1 + |keys| + 1..] == post;
  }

  /** Removing what was just put in leaves exactly the lines that were outside. */
  lemma OutsideOfFenced<T>(lines: seq<T>, keys: seq<T>, b: T, e: T)
    requires b != e && LocateFence(lines, b, e).Some? && Plain(keys, b, e)
    ensures LocateFence(Fenced(lines, keys, b, e), b, e).Some?
    ensures Outside(Fenced(lines, keys, b, e), b, e) == Outside(lines, b, e)
  {
    hide Around, LocateFence;
    AroundFenced(lines, keys, b, e);
  }

  // ---------------------------------------------------------------------------
  // The dead-man's line machine
  // ---------------------------------------------------------------------------

  /** After the first `n` lines: whether output is suppressed, and what was printed. */
  function Printed<T(==)>(lines: seq<T>, b: T, e: T, n: nat): (bool, seq<T>)
    requires n <= |lines|
  {
    if n == 0 then (false, [])
    else
      var (skip, out) := Printed(lines, b, e, n - 1);
      var line := lines[n - 1];
      if line == b then (true, out)
      else if line == e then (false, out)
      else if skip then (skip, out)
      else (skip, out + [line])
  }

  method Awk<T(==)>(lines: seq<T>, b: T, e: T) returns (out: seq<T>)
    ensures out == Printed(lines, b, e, |lines|).1
  {
    var skip := false;
    out := [];
    for n := 0 to |lines|
      invariant (skip, out) == Printed(lines, b, e, n)
    {
      if lines[n] == b {
        skip := true;
      } else if lines[n] == e {
        skip := false;
      } else if !skip {
        out := out + [lines[n]];
      }
    }
  }

  /** A run of plain lines is printed, or suppressed, as a whole. */
  lemma {:induction false} PrintedRun<T>(lines: seq<T>, b: T, e: T, m: nat, n: nat)
    requires m <= n <= |lines| && Plain(lines[m..n], b, e)
    ensures Printed(lines, b, e, n).0 == Printed(lines, b, e, m).0
    ensures Printed(lines, b, e, n).1 ==
            if Printed(lines, b, e, m).0 then Printed(lines, b, e, m).1 else Printed(lines, b, e, m).1 + lines[m..n]
  {
    if m == n {
      assert lines[m..n] == [];
    } else {
      var run := lines[m..n];
      assert run == lines[m..n - 1] + [lines[n - 1]];
      PrintedRun(lines, b, e, m, n - 1);
    }
  }

  lemma PrintedThroughFence<T>(lines: seq<T>, b: T, e: T, i: nat, j: nat)
    requires b != e && i < j < |lines| && lines[i] == b && lines[j] == e
    requires Plain(lines[..i], b, e) && Plain(lines[i + 1..j], b, e) && Plain(lines[j + 1..], b, e)
    ensures Printed(lines, b, e, |lines|).1 == lines[..i] + lines[j + 1..]
  {
    hide Printed, Plain;
    PrintedToFence(lines, b, e, i);
    PrintedRun(lines, b, e, i + 1, j);
    PrintedMarker(lines, b, e, j);
    assert lines[j + 1..|lines|] == lines[j + 1..];
    PrintedRun(lines, b, e, j + 1, |lines|);
  }

  lemma PrintedToFence<T>(lines: seq<T>, b: T, e: T, i: nat)
    requires b != e && i < |lines| && lines[i] == b && Plain(lines[..i], b, e)
    ensures Printed(lines, b, e, i + 1) == (true, lines[..i])
  {
    hide Printed, Plain;
    PrintedNothing(lines, b, e);
    assert lines[0..i] == lines[..i];
    PrintedRun(lines, b, e, 0, i);
    assert [] + lines[..i] == lines[..i];
    PrintedMarker(lines, b, e, i);
  }

  lemma PrintedMarker<T>(lines: seq<T>, b: T, e: T, n: nat)
    requires b != e && n < |lines| && (lines[n] == b || lines[n] == e)
    ensures Printed(lines, b, e, n + 1) == (lines[n] == b, Printed(lines, b, e, n).1)
  {
  }

  /** On absent or well-formed fences the machine prints exactly the lines outside. */
  lemma AwkPrintsOutside<T>(lines: seq<T>, b: T, e: T)
    requires b != e && LocateFence(lines, b, e).Some?
    ensures Printed(lines, b, e, |lines|).1 == Outside(lines, b, e)
  {
    hide Positions, LocateFence, Printed;
    LocateNone(lines, b, e);
    match LocateFence(lines, b, e).value {
      case None =>
        assert lines[0..|lines|] == lines;
        PrintedRun(lines, b, e, 0, |lines|);
        PrintedNothing(lines, b, e);
      case Some((i, j)) =>
        LocatedSplit(lines, b, e, i, j);
        SplitMarkers(lines, b, e, lines[..i], lines[i + 1..j], lines[j + 1..]);
        PrintedThroughFence(lines, b, e, i, j);
    }
  }

  lemma PrintedNothing<T>(lines: seq<T>, b: T, e: T)
    ensures Printed(lines, b, e, 0) == (false, [])
  {
  }

  lemma SplitMarkers<T>(lines: seq<T>, b: T, e: T, pre: seq<T>, mid: seq<T>, post: seq<T>)
    requires Split(lines, b, e, pre, mid, post)
    ensures |pre| + |mid| + 2 <= |lines| && lines[|pre|] == b && lines[|pre| + 1 + |mid|] == e
  {
  }
}
