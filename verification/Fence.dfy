/**
 The fenced block lychgate owns in authorized_keys: inserting, replacing and removing
 it, and the line machine in the dead-man script that removes it without the daemon.
 */
module Fence {
  import opened Common
  import opened FenceLines
  import opened TextLines

  function FenceBegin(): string {
    "# --- " + Mark() + (" BEGIN break-glass " + "keys; do not edit " + "this block ---")
  }

  function FenceEnd(): string {
    "# --- " + Mark() + " END ---"
  }

  function Mark(): string {
    "LYCHGATE"
  }

  // ---------------------------------------------------------------------------
  // The fence
  // ---------------------------------------------------------------------------

  datatype FenceError = Malformed | BadKey(key: string)

  predicate HasAt(s: string, i: nat, part: string) {
    i + |part| <= |s| && s[i..i + |part|] == part
  }

  predicate Contains(s: string, part: string) {
    exists i: nat :: i <= |s| && HasAt(s, i, part)
  }

  predicate Blank(s: string) {
    forall i :: 0 <= i < |s| ==> s[i] == ' ' || s[i] == '\t' || s[i] == '\n' || s[i] == '\r'
  }

  /** A key line that cannot corrupt the file or the fence. */
  predicate ValidKey(key: string) {
    !Blank(key) && '\n' !in key && '\r' !in key && !Contains(key, Mark())
  }

  /** A key is taken exactly when it shows something, stays on its line and nowhere names the marks. */
  lemma TakenKeys(key: string)
    ensures ValidKey(key)
       <==> && (exists i :: 0 <= i < |key| && key[i] != ' ' && key[i] != '\t' && key[i] != '\r' && key[i] != '\n')
            && (forall i :: 0 <= i < |key| ==> key[i] != '\r' && key[i] != '\n')
            && (forall i, j :: 0 <= i <= j <= |key| ==> key[i..j] != Mark())
  {
    hide Mark;
    forall i, j | 0 <= i <= j <= |key| && key[i..j] == Mark() ensures HasAt(key, i, Mark()) {
      assert j == i + |Mark()|;
    }
    if Contains(key, Mark()) {
      var i: nat :| i <= |key| && HasAt(key, i, Mark());
      assert key[i..i + |Mark()|] == Mark();
    }
  }

  ghost predicate ValidKeys(keys: seq<string>) {
    forall i :: 0 <= i < |keys| ==> ValidKey(keys[i])
  }

  /** The fence in a file. */
  function Locate(lines: seq<string>): Option<Option<(nat, nat)>> {
    LocateFence(lines, FenceBegin(), FenceEnd())
  }

  function Upserted(existing: string, keys: seq<string>): Result<string, FenceError> {
    var lines := Lines(existing);
    if Locate(lines).None? then Err(Malformed)
    else Ok(Unlines(Fenced(lines, keys, FenceBegin(), FenceEnd())))
  }

  function Removed(existing: string): Result<string, FenceError> {
    var lines := Lines(existing);
    match Locate(lines)
    case None => Err(Malformed)
    case Some(None) => Ok(existing)
    case Some(Some(_)) => Ok(Unlines(Outside(lines, FenceBegin(), FenceEnd())))
  }

  /** Validates every key, then builds the output from the parts of the file around the block. */
  method FenceUpsert(existing: string, keys: seq<string>) returns (r: Result<string, FenceError>)
    ensures !ValidKeys(keys) ==> r.Err? && r.error.BadKey? && r.error.key in keys && !ValidKey(r.error.key)
    ensures ValidKeys(keys) ==> r == Upserted(existing, keys)
  {
    hide ValidKey, Lines, Unlines, LocateFence;
    for i := 0 to |keys|
      invariant ValidKeys(keys[..i])
    {
      if !ValidKey(keys[i]) {
        return Err(BadKey(keys[i]));
      }
    }
    assert keys[..|keys|] == keys;
    var lines := Lines(existing);
    var fence := Locate(lines);
    if fence.None? {
      return Err(Malformed);
    }
    var block := [FenceBegin()];
    block := block + keys;
    block := block + [FenceEnd()];
    var out: seq<string> := [];
    match fence.value {
      case Some((b, e)) =>
        LocatedSplit(lines, FenceBegin(), FenceEnd(), b, e);
        out := out + lines[..b];
        out := out + block;
        out := out + lines[e + 1..];
        assert out == lines[..b] + Block(keys, FenceBegin(), FenceEnd()) + lines[e + 1..];
      case None =>
        out := out + lines;
        out := out + block;
        assert out == lines + Block(keys, FenceBegin(), FenceEnd()) + [];
    }
    r := Ok(Unlines(out));
  }

  method FenceRemove(existing: string) returns (r: Result<string, FenceError>)
    ensures r == Removed(existing)
  {
    hide Lines, LocateFence;
    var lines := Lines(existing);
    var fence := Locate(lines);
    if fence.None? {
      return Err(Malformed);
    }
    match fence.value {
      case None => return Ok(existing);
      case Some((b, e)) =>
        LocatedSplit(lines, FenceBegin(), FenceEnd(), b, e);
        var out: seq<string> := [];
        out := out + lines[..b];
        out := out + lines[e + 1..];
        assert out == lines[..b] + lines[e + 1..];
        if out == [] {
          return Ok("");
        }
        return Ok(Unlines(out));
    }
  }

  ghost predicate Bare(ls: seq<string>) {
    forall l :: l in ls ==> BareLine(l)
  }

  ghost predicate BareLine(l: string) {
    '\n' !in l && '\r' !in l
  }

  // ---------------------------------------------------------------------------
  // Editing laws
  // ---------------------------------------------------------------------------

  lemma MarkersAreBare()
    ensures FenceBegin() != FenceEnd()
    ensures Bare([FenceBegin()]) && Bare([FenceEnd()])
  {
    hide Mark, BareLine;
    MarkIsBare();
    assert |FenceBegin()| != |FenceEnd()|;
    TextIsBare();
    BareLineConcat("# --- ", Mark());
    BareLineConcat("# --- " + Mark(), " BEGIN break-glass " + "keys; do not edit " + "this block ---");
    BareLineConcat("# --- " + Mark(), " END ---");
  }

  lemma MarkIsBare()
    ensures BareLine(Mark())
  {
  }

  lemma BeginTextIsBare()
    ensures BareLine(" BEGIN break-glass ") && BareLine("keys; do not edit ")
  {
  }

  lemma EndTextIsBare()
    ensures BareLine("this block ---") && BareLine("# --- ") && BareLine(" END ---")
  {
  }

  lemma TextIsBare()
    ensures BareLine("# --- ") && BareLine(" END ---")
    ensures BareLine(" BEGIN break-glass " + "keys; do not edit " + "this block ---")
  {
    BeginTextIsBare();
    EndTextIsBare();
    hide BareLine;
    BareLineConcat(" BEGIN break-glass ", "keys; do not edit ");
    BareLineConcat(" BEGIN break-glass " + "keys; do not edit ", "this block ---");
  }

  lemma BareLineConcat(a: string, b: string)
    requires BareLine(a) && BareLine(b)
    ensures BareLine(a + b)
  {
  }

  lemma MarkersAreMarked()
    ensures Contains(FenceBegin(), Mark()) && Contains(FenceEnd(), Mark())
  {
    hide Mark;
    assert HasAt(FenceBegin(), 6, Mark());
    assert HasAt(FenceEnd(), 6, Mark());
  }

  lemma KeysArePlain(keys: seq<string>)
    requires ValidKeys(keys)
    ensures Plain(keys, FenceBegin(), FenceEnd()) && Bare(keys)
  {
    hide FenceBegin, FenceEnd, Mark, Blank, Contains;
    MarkersAreMarked();
    forall i | 0 <= i < |keys| ensures keys[i] != FenceBegin() && keys[i] != FenceEnd() {
      assert ValidKey(keys[i]);
    }
  }

  /** No line is a marker with a carriage return behind it. */
  ghost predicate NoCrMarker(ls: seq<string>) {
    FenceBegin() + "\r" !in ls && FenceEnd() + "\r" !in ls
  }

  /** Losing a final carriage return makes a marker out of exactly such lines. */
  lemma ChompedPlain(ls: seq<string>)
    requires Plain(ls, FenceBegin(), FenceEnd())
    ensures Plain(Chomped(ls), FenceBegin(), FenceEnd()) <==> NoCrMarker(ls)
  {
    hide FenceBegin, FenceEnd, Chomp;
    forall i, m | 0 <= i < |ls| && m in {FenceBegin(), FenceEnd()} ensures Chomp(ls[i]) == m <==> ls[i] == m + "\r" {
      assert ls[i] in ls;
      ChompIs(ls[i]);
      ChompCr(m);
    }
    if !NoCrMarker(ls) {
      var m :| m in {FenceBegin(), FenceEnd()} && m + "\r" in ls;
      var i :| 0 <= i < |ls| && ls[i] == m + "\r";
      assert Chomped(ls)[i] == m;
    }
    if !Plain(Chomped(ls), FenceBegin(), FenceEnd()) {
      var i :| 0 <= i < |ls| && Chomped(ls)[i] in {FenceBegin(), FenceEnd()};
      assert ls[i] in ls;
    }
  }

  lemma NoCrMarkerConcat(a: seq<string>, b: seq<string>)
    ensures NoCrMarker(a + b) <==> NoCrMarker(a) && NoCrMarker(b)
  {
  }

  lemma BareIsUnbroken(ls: seq<string>)
    requires Bare(ls)
    ensures Unbroken(ls) && Steady(ls)
  {
    forall i | 0 <= i < |ls| ensures '\n' !in ls[i] && !EndsInCr(ls[i]) {
      assert ls[i] in ls;
    }
  }

  /** The block itself reads back as it was written. */
  lemma BlockIsSteady(keys: seq<string>)
    requires ValidKeys(keys)
    ensures var block := Block(keys, FenceBegin(), FenceEnd()); Unbroken(block) && Chomped(block) == block
  {
    hide FenceBegin, FenceEnd, ValidKeys;
    var block := Block(keys, FenceBegin(), FenceEnd());
    MarkersAreBare();
    KeysArePlain(keys);
    assert Bare(block);
    BareIsUnbroken(block);
    ChompedIsSame(block);
  }

  /** The two parts of a file around its fence, and the fence. */
  lemma PartsAreUnbroken(x: string)
    requires Locate(Lines(x)).Some?
    ensures var (pre, post) := Around(Lines(x), FenceBegin(), FenceEnd());
            && Unbroken(pre) && Unbroken(post)
            && Plain(pre, FenceBegin(), FenceEnd()) && Plain(post, FenceBegin(), FenceEnd())
  {
    hide FenceBegin, FenceEnd, LocateFence, Lines;
    LinesAndRecords(x);
    var lines := Lines(x);
    AroundIsPlain(lines, FenceBegin(), FenceEnd());
    AroundIsPart(lines, FenceBegin(), FenceEnd());
    assert forall l :: l in lines ==> '\n' !in l;
  }

  lemma UnbrokenConcat(a: seq<string>, b: seq<string>)
    requires Unbroken(a) && Unbroken(b)
    ensures Unbroken(a + b)
  {
  }

  lemma BlockIs(keys: seq<string>)
    ensures Block(keys, FenceBegin(), FenceEnd()) == [FenceBegin()] + keys + [FenceEnd()]
  {
  }

  /** The file after an upsert, line by line: each line outside the block loses one final carriage return. */
  lemma UpsertLines(x: string, keys: seq<string>)
    requires ValidKeys(keys) && Locate(Lines(x)).Some?
    ensures Upserted(x, keys).Ok?
    ensures var (pre, post) := Around(Lines(x), FenceBegin(), FenceEnd());
            Lines(Upserted(x, keys).value) == Chomped(pre) + ([FenceBegin()] + keys + [FenceEnd()]) + Chomped(post)
  {
    BlockIs(keys);
    hide FenceBegin, FenceEnd, LocateFence, Lines, Unlines, ValidKeys, Around, Block, Chomped;
    var (pre, post) := Around(Lines(x), FenceBegin(), FenceEnd());
    var block := Block(keys, FenceBegin(), FenceEnd());
    PartsAreUnbroken(x);
    BlockIsSteady(keys);
    UnbrokenConcat(pre, block);
    UnbrokenConcat(pre + block, post);
    RecordsOfUnlines(pre + block + post);
    ChompedConcat(pre, block);
    ChompedConcat(pre + block, post);
  }

  /** What stands outside the fence after an upsert, and when the fence can be found again. */
  lemma UpsertLocated(x: string, keys: seq<string>)
    requires ValidKeys(keys) && Locate(Lines(x)).Some?
    ensures var y := Upserted(x, keys).value;
            var (pre, post) := Around(Lines(x), FenceBegin(), FenceEnd());
            && (Locate(Lines(y)).Some? <==> NoCrMarker(Outside(Lines(x), FenceBegin(), FenceEnd())))
            && (Locate(Lines(y)).Some? ==>
                  && Locate(Lines(y)).value.Some?
                  && Around(Lines(y), FenceBegin(), FenceEnd()) == (Chomped(pre), Chomped(post)))
  {
    hide FenceBegin, FenceEnd, LocateFence, Lines, Unlines, ValidKeys, NoCrMarker, Upserted;
    var b, e := FenceBegin(), FenceEnd();
    var (pre, post) := Around(Lines(x), b, e);
    UpsertLines(x, keys);
    PartsAreUnbroken(x);
    KeysArePlain(keys);
    MarkersAreBare();
    ChompedPlain(pre);
    ChompedPlain(post);
    NoCrMarkerConcat(pre, post);
    BlockAround(Chomped(pre), keys, Chomped(post), b, e);
  }

  lemma BlockAround(pre: seq<string>, keys: seq<string>, post: seq<string>, b: string, e: string)
    requires b != e && Plain(keys, b, e)
    ensures var whole := pre + Block(keys, b, e) + post;
            && (LocateFence(whole, b, e).Some? <==> Plain(pre, b, e) && Plain(post, b, e))
            && (LocateFence(whole, b, e).Some? ==>
                  LocateFence(whole, b, e).value.Some? && Around(whole, b, e) == (pre, post))
  {
    hide LocateFence;
    LocateBlock(pre, keys, post, b, e);
    var whole := pre + Block(keys, b, e) + post;
    assert whole[..|pre|] == pre && whole[|pre| + |keys| + 2..] == post;
  }

  /**
   Removing after an upsert succeeds exactly when no line outside the original fence is a marker followed by a
   carriage return; it then leaves exactly those lines, in order, each without one final carriage return.
   */
  lemma RemoveAfterUpsert(x: string, keys: seq<string>)
    requires ValidKeys(keys) && Locate(Lines(x)).Some?
    ensures Upserted(x, keys).Ok?
    ensures var outside := Outside(Lines(x), FenceBegin(), FenceEnd());
            Removed(Upserted(x, keys).value) ==
            if NoCrMarker(outside) then Ok(Unlines(Chomped(outside))) else Err(Malformed)
  {
    hide FenceBegin, FenceEnd, LocateFence, Lines, Unlines, ValidKeys, NoCrMarker, Around, Chomped;
    var (pre, post) := Around(Lines(x), FenceBegin(), FenceEnd());
    UpsertLocated(x, keys);
    ChompedConcat(pre, post);
  }

  /**
   A file that takes the keys and then refuses to give them back: an unterminated END marker with a carriage return.
   */
  lemma UpsertThenStuck(keys: seq<string>)
    requires ValidKeys(keys)
    ensures var x := FenceEnd() + "\r";
            && Locate(Lines(x)) == Some(None)
            && Upserted(x, keys).Ok?
            && Removed(Upserted(x, keys).value) == Err(Malformed)
  {
    hide FenceBegin, FenceEnd, LocateFence, Lines, Removed, ValidKeys, Upserted;
    var b, e := FenceBegin(), FenceEnd();
    var x := e + "\r";
    MarkersAreBare();
    assert BareLine(b) && BareLine(e);
    OneLine(x);
    CrIsNoMarker(b, e);
    LocateNone([x], b, e);
    RemoveAfterUpsert(x, keys);
    assert [x] + [] == [x] && x in [x];
  }

  lemma OneLine(x: string)
    requires x != [] && '\n' !in x
    ensures Lines(x) == [x]
  {
    hide Lines;
    assert LineEnd(x) == |x|;
    LastLine(x);
  }

  lemma CrIsNoMarker(b: string, e: string)
    requires BareLine(b) && BareLine(e)
    ensures e + "\r" != b && e + "\r" != e && e + "\r" != [] && '\n' !in e + "\r"
  {
    assert (e + "\r")[|e|] == '\r';
    assert '\r' in e + "\r";
  }

  /** The second upsert wins, byte for byte, exactly when no line outside the fence ends in a carriage return. */
  lemma UpsertTwice(x: string, keys: seq<string>, keys': seq<string>)
    requires ValidKeys(keys) && ValidKeys(keys') && Locate(Lines(x)).Some?
    ensures Upserted(x, keys).Ok?
    ensures Upserted(Upserted(x, keys).value, keys') == Upserted(x, keys')
       <==> Steady(Outside(Lines(x), FenceBegin(), FenceEnd()))
  {
    hide FenceBegin, FenceEnd, LocateFence, Lines, Unlines, ValidKeys, NoCrMarker, Around, Chomped, Steady, Block;
    var (pre, post) := Around(Lines(x), FenceBegin(), FenceEnd());
    var block := Block(keys', FenceBegin(), FenceEnd());
    UpsertLocated(x, keys);
    PartsAreUnbroken(x);
    BlockIsSteady(keys');
    SteadyConcat(pre, post);
    ChompedIsSame(pre);
    ChompedIsSame(post);
    if Steady(pre + post) {
      SteadyHasNoCrMarker(pre + post);
    }
    ChompedUnbroken(pre);
    ChompedUnbroken(post);
    SameText(pre, post, Chomped(pre), Chomped(post), block);
  }

  lemma SteadyConcat(a: seq<string>, b: seq<string>)
    ensures Steady(a + b) <==> Steady(a) && Steady(b)
  {
    hide EndsInCr;
    assert forall i :: 0 <= i < |a| ==> (a + b)[i] == a[i];
    assert forall i :: 0 <= i < |b| ==> (a + b)[|a| + i] == b[i];
  }

  lemma SteadyHasNoCrMarker(ls: seq<string>)
    requires Steady(ls)
    ensures NoCrMarker(ls)
  {
    hide FenceBegin, FenceEnd;
    assert EndsInCr(FenceBegin() + "\r") && EndsInCr(FenceEnd() + "\r");
  }

  lemma ChompedUnbroken(ls: seq<string>)
    requires Unbroken(ls)
    ensures Unbroken(Chomped(ls))
  {
    hide Chomp;
    forall i | 0 <= i < |ls| ensures '\n' !in Chomped(ls)[i] {
      ChompUnbroken(ls[i]);
    }
  }

  /** Texts with the same block between parts of the same length are equal exactly when the parts are. */
  lemma SameText(pre: seq<string>, post: seq<string>, pre': seq<string>, post': seq<string>, block: seq<string>)
    requires Unbroken(pre) && Unbroken(post) && Unbroken(pre') && Unbroken(post') && Unbroken(block)
    requires |pre| == |pre'| && |post| == |post'|
    ensures Unlines(pre' + block + post') == Unlines(pre + block + post) <==> pre == pre' && post == post'
  {
    hide Unlines, Unbroken;
    UnbrokenConcat(pre, block);
    UnbrokenConcat(pre + block, post);
    UnbrokenConcat(pre', block);
    UnbrokenConcat(pre' + block, post');
    UnlinesInjective(pre' + block + post', pre + block + post);
    var u, v := pre + block + post, pre' + block + post';
    assert u[..|pre|] == pre && v[..|pre|] == pre';
    assert u[|pre| + |block|..] == post && v[|pre| + |block|..] == post';
  }

  /** A fence-free file is restored byte for byte exactly when it is empty or ends in a newline, and has no CRLF. */
  lemma RemoveUndoesUpsert(x: string, keys: seq<string>)
    requires ValidKeys(keys) && Locate(Lines(x)) == Some(None)
    ensures Upserted(x, keys).Ok?
    ensures Removed(Upserted(x, keys).value) == Ok(x) <==> EndsWell(x) && NoCrLf(x)
  {
    hide FenceBegin, FenceEnd, LocateFence, Lines, Unlines, Records, ValidKeys, NoCrMarker, Removed, Upserted;
    hide EndsWell, NoCrLf, Chomped;
    RemoveAfterUpsert(x, keys);
    assert Outside(Lines(x), FenceBegin(), FenceEnd()) == Lines(x) by { assert Lines(x) + [] == Lines(x); }
    ChompsBack(x);
    if EndsWell(x) && NoCrLf(x) {
      SteadyHasNoCrMarker(Lines(x));
    }
  }

  /** Two files that are not given back: a missing final newline is added, a carriage return before a newline lost. */
  lemma RemovalChangesBytes(keys: seq<string>)
    requires ValidKeys(keys)
    ensures Upserted("a", keys).Ok? && Removed(Upserted("a", keys).value) == Ok("a\n")
    ensures Upserted("a\r\n", keys).Ok? && Removed(Upserted("a\r\n", keys).value) == Ok("a\n")
  {
    hide FenceBegin, FenceEnd, LocateFence, Lines, Unlines, ValidKeys, NoCrMarker, Removed, Upserted, Chomped;
    OneLine("a");
    ReadCrLf();
    PlainLine("a");
    RemoveAfterUpsert("a", keys);
    RemoveAfterUpsert("a\r\n", keys);
    UnlinesOne("a");
    assert "a" + "\n" == "a\n";
  }

  lemma ReadCrLf()
    ensures Lines("a\r\n") == ["a"]
  {
    hide Lines;
    assert "a\r\n" == "a\r" + "\n" + "";
    ReadOne("a\r", "");
    ReadNothing();
    ChompCr("a");
    assert "a" + "\r" == "a\r";
  }

  lemma PlainLine(line: string)
    requires |line| == 1 && !EndsInCr(line)
    ensures Locate([line]) == Some(None)
    ensures Outside([line], FenceBegin(), FenceEnd()) == [line] && NoCrMarker([line]) && Chomped([line]) == [line]
  {
    hide LocateFence, Mark;
    assert |FenceBegin()| > 6 && |FenceEnd()| > 6;
    LocateNone([line], FenceBegin(), FenceEnd());
    ChompIs(line);
    assert [line] + [] == [line];
    assert |FenceBegin() + "\r"| > 1 && |FenceEnd() + "\r"| > 1;
    assert Chomped([line])[0] == line;
  }

  lemma UnlinesOne(line: string)
    ensures Unlines([line]) == line + "\n"
  {
    UnlinesCons(line, []);
    assert [line] + [] == [line];
    UnlinesNothing();
  }

  /** A text is its own lines, less final carriage returns, exactly in that case. */
  lemma ChompsBack(x: string)
    ensures Unlines(Chomped(Lines(x))) == x <==> EndsWell(x) && NoCrLf(x)
    ensures EndsWell(x) && NoCrLf(x) ==> Steady(Lines(x))
  {
    hide Unlines, Records, Lines, EndsWell, NoCrLf, Chomp;
    LinesAndRecords(x);
    ReadersAgree(x);
    UnlinesOfRecords(x);
    var lines := Lines(x);
    ChompedUnbroken(lines);
    UnlinesEndsWell(Chomped(lines));
    if EndsWell(x) {
      ChompedTwice(Records(x), lines);
      ChompedIsSame(lines);
      UnlinesInjective(Chomped(lines), Records(x));
    }
  }

  lemma ChompedTwice(records: seq<string>, lines: seq<string>)
    requires |lines| == |records| && forall i :: 0 <= i < |lines| ==> lines[i] == Chomp(records[i])
    ensures Chomped(lines) == records <==> lines == records
    ensures lines == records ==> Steady(lines)
  {
    hide Chomp, EndsInCr;
    forall i | 0 <= i < |lines| ensures Chomp(lines[i]) == records[i] <==> lines[i] == records[i]
                                ensures lines[i] == records[i] ==> !EndsInCr(lines[i]) {
      ChompIs(records[i]);
      ChompIs(lines[i]);
      ShorterIfCr(records[i]);
      ShorterIfCr(lines[i]);
    }
    if Chomped(lines) == records {
      assert forall i :: 0 <= i < |lines| ==> Chomp(lines[i]) == records[i];
      assert lines == records;
    }
  }

  lemma ShorterIfCr(l: string)
    ensures EndsInCr(l) ==> |Chomp(l)| < |l|
  {
  }

  // ---------------------------------------------------------------------------
  // The dead-man
  // ---------------------------------------------------------------------------

  /** What the dead-man's awk program prints for a file, line by line. */
  function DeadManLines(x: string): seq<string> {
    Printed(Records(x), FenceBegin(), FenceEnd(), |Records(x)|).1
  }

  /** The lines of a file outside the fence at `(i, j)`, as awk reads them. */
  function RecordsOutside(x: string, i: nat, j: nat): seq<string>
    requires i < j < |Records(x)|
  {
    Records(x)[..i] + Records(x)[j + 1..]
  }

  /** When the dead-man, without the daemon, leaves the lines that the daemon's removal leaves. */
  ghost predicate DeadManAgrees(x: string)
    requires Locate(Lines(x)).Some?
  {
    match Locate(Lines(x)).value
    case None => NoCrLf(x)
    case Some((i, j)) =>
      && i < j < |Records(x)|
      && Records(x)[i] == FenceBegin()
      && (Records(x)[j] == FenceEnd() || j == |Records(x)| - 1)
      && Steady(RecordsOutside(x, i, j))
  }

  /** A marker the daemon sees is one awk sees, or one with a carriage return; awk sees no other. */
  lemma MarkersAsRecords(x: string, i: nat, j: nat)
    requires Locate(Lines(x)) == Some(Some((i, j)))
    ensures i < j < |Records(x)| == |Lines(x)|
    ensures Records(x)[i] == FenceBegin() || Records(x)[i] == FenceBegin() + "\r"
    ensures Records(x)[j] == FenceEnd() || Records(x)[j] == FenceEnd() + "\r"
    ensures forall k :: 0 <= k < |Records(x)| && k != i && k != j ==>
              Records(x)[k] != FenceBegin() && Records(x)[k] != FenceEnd()
  {
    hide FenceBegin, FenceEnd, LocateFence, Lines, Records, EndsWell, Chomp;
    var b, e := FenceBegin(), FenceEnd();
    LinesAndRecords(x);
    var lines, records := Lines(x), Records(x);
    LocatedSplit(lines, b, e, i, j);
    SplitMarkers(lines, b, e, lines[..i], lines[i + 1..j], lines[j + 1..]);
    MarkersAreBare();
    assert BareLine(b) && BareLine(e);
    ChompIs(records[i]);
    ChompIs(records[j]);
    forall k | 0 <= k < |records| && k != i && k != j ensures records[k] != b && records[k] != e {
      BareChomp(b);
      BareChomp(e);
      if lines[k] == b || lines[k] == e {
        OnlyOneMarker(lines, b, e, i, j, if lines[k] == b then k else i, if lines[k] == e then k else j);
      }
    }
  }

  lemma BareChomp(l: string)
    requires BareLine(l)
    ensures Chomp(l) == l
  {
  }

  /**
   What the dead-man does to a fence that the daemon finds. A carriage return behind END makes it drop everything
   after BEGIN; one behind BEGIN makes it keep the fence, but for a bare END.
   */
  lemma DeadManPrints(x: string, i: nat, j: nat)
    requires Locate(Lines(x)) == Some(Some((i, j)))
    ensures i < j < |Records(x)|
    ensures DeadManLines(x) ==
            if Records(x)[i] == FenceBegin() then
              if Records(x)[j] == FenceEnd() then RecordsOutside(x, i, j) else Records(x)[..i]
            else
              if Records(x)[j] == FenceEnd() then Records(x)[..j] + Records(x)[j + 1..] else Records(x)
  {
    hide FenceBegin, FenceEnd, LocateFence, Lines, Records, Printed;
    var b, e := FenceBegin(), FenceEnd();
    var records := Records(x);
    MarkersAsRecords(x, i, j);
    MarkersAreBare();
    assert Plain(records[..i], b, e) && Plain(records[i + 1..j], b, e) && Plain(records[j + 1..], b, e);
    CrIsMarker(b, e);
    if records[i] == b && records[j] == e {
      PrintedThroughFence(records, b, e, i, j);
    } else if records[i] == b {
      assert Plain(records[i + 1..], b, e);
      PrintedToFence(records, b, e, i);
      assert records[i + 1..|records|] == records[i + 1..];
      PrintedRun(records, b, e, i + 1, |records|);
    } else if records[j] == e {
      PrintedBareEnd(records, b, e, j);
    } else {
      PrintedWithoutMarkers(records, b, e);
    }
  }

  lemma CrIsMarker(b: string, e: string)
    requires Bare([b]) && Bare([e])
    ensures b + "\r" != b && b + "\r" != e && e + "\r" != b && e + "\r" != e
  {
    assert BareLine(b) && BareLine(e);
    CrIsNoMarker(b, e);
    CrIsNoMarker(e, b);
  }

  /** An END without a BEGIN is dropped by itself. */
  lemma PrintedBareEnd(records: seq<string>, b: string, e: string, j: nat)
    requires b != e && j < |records| && records[j] == e
    requires Plain(records[..j], b, e) && Plain(records[j + 1..], b, e)
    ensures Printed(records, b, e, |records|).1 == records[..j] + records[j + 1..]
  {
    hide Printed;
    PrintedNothing(records, b, e);
    assert records[0..j] == records[..j];
    PrintedRun(records, b, e, 0, j);
    assert [] + records[..j] == records[..j];
    PrintedMarker(records, b, e, j);
    assert records[j + 1..|records|] == records[j + 1..];
    PrintedRun(records, b, e, j + 1, |records|);
  }

  /** The dead-man leaves the same lines as the daemon's removal exactly when the file is one of those. */
  lemma DeadManRemovesTheSame(x: string)
    requires Locate(Lines(x)).Some?
    ensures Removed(x).Ok?
    ensures DeadManLines(x) == Lines(Removed(x).value) <==> DeadManAgrees(x)
  {
    hide FenceBegin, FenceEnd, LocateFence, Lines, Records, DeadManLines, NoCrLf, Unlines;
    match Locate(Lines(x)).value {
      case None =>
        ReadersAgree(x);
        DeadManPassesBy(x);
      case Some((i, j)) =>
        DeadManPrints(x, i, j);
        DeadManAtFence(x, i, j);
    }
  }

  lemma DeadManPassesBy(x: string)
    requires Locate(Lines(x)) == Some(None)
    ensures DeadManLines(x) == Records(x)
  {
    hide FenceBegin, FenceEnd, LocateFence, Lines, Records, Printed, EndsWell, Chomp;
    var b, e := FenceBegin(), FenceEnd();
    LinesAndRecords(x);
    LocateNone(Lines(x), b, e);
    MarkersAreBare();
    assert BareLine(b) && BareLine(e);
    BareChomp(b);
    BareChomp(e);
    forall k | 0 <= k < |Records(x)| ensures Records(x)[k] != b && Records(x)[k] != e {
      assert Lines(x)[k] in Lines(x);
    }
    PrintedWithoutMarkers(Records(x), b, e);
  }

  /** The daemon's lines after removing a fence, against those around it as awk reads them. */
  lemma DaemonAtFence(x: string, i: nat, j: nat)
    requires Locate(Lines(x)) == Some(Some((i, j))) && i < j < |Records(x)|
    ensures Removed(x).Ok? && |Lines(Removed(x).value)| == |Records(x)| - (j - i + 1)
    ensures Lines(Removed(x).value) == RecordsOutside(x, i, j) <==> Steady(RecordsOutside(x, i, j))
  {
    hide FenceBegin, FenceEnd, LocateFence, Lines, Records, Unlines, EndsWell, Chomp;
    LinesAndRecords(x);
    var lines, records := Lines(x), Records(x);
    LocatedSplit(lines, FenceBegin(), FenceEnd(), i, j);
    var kept, raw := lines[..i] + lines[j + 1..], RecordsOutside(x, i, j);
    assert Unbroken(kept);
    RecordsOfUnlines(kept);
    forall k | 0 <= k < |kept| ensures kept[k] == raw[k] || kept[k] == Chomp(raw[k]) {
      assert kept[k] == lines[if k < i then k else k + (j - i + 1)];
      assert raw[k] == records[if k < i then k else k + (j - i + 1)];
    }
    ChompedTo(raw, kept);
  }

  lemma ChompedTo(raw: seq<string>, kept: seq<string>)
    requires |raw| == |kept| && forall k :: 0 <= k < |kept| ==> kept[k] == raw[k] || kept[k] == Chomp(raw[k])
    ensures Chomped(kept) == raw <==> Steady(raw)
  {
    hide Chomp, EndsInCr;
    forall k | 0 <= k < |kept| ensures Chomp(kept[k]) == raw[k] <==> !EndsInCr(raw[k]) {
      ChompIs(raw[k]);
      ChompIs(kept[k]);
      ShorterIfCr(raw[k]);
    }
  }

  lemma DeadManAtFence(x: string, i: nat, j: nat)
    requires Locate(Lines(x)) == Some(Some((i, j))) && i < j < |Records(x)|
    requires DeadManLines(x) ==
             if Records(x)[i] == FenceBegin() then
               if Records(x)[j] == FenceEnd() then RecordsOutside(x, i, j) else Records(x)[..i]
             else
               if Records(x)[j] == FenceEnd() then Records(x)[..j] + Records(x)[j + 1..] else Records(x)
    ensures Removed(x).Ok?
    ensures DeadManLines(x) == Lines(Removed(x).value) <==> DeadManAgrees(x)
  {
    hide FenceBegin, FenceEnd, LocateFence, Lines, Records, DeadManLines, Removed, Steady;
    DaemonAtFence(x, i, j);
    if j == |Records(x)| - 1 {
      assert RecordsOutside(x, i, j) == Records(x)[..i];
    }
  }

  /** From a file the daemon can locate, the dead-man drops the whole fence exactly when BEGIN stands bare. */
  lemma DeadManTakesFence(x: string, i: nat, j: nat)
    requires Locate(Lines(x)) == Some(Some((i, j)))
    ensures i < j < |Records(x)|
    ensures |DeadManLines(x)| <= |Records(x)| - (j - i + 1) <==> Records(x)[i] == FenceBegin()
  {
    hide FenceBegin, FenceEnd, LocateFence, Lines, Records, DeadManLines;
    DeadManPrints(x, i, j);
  }

  /**
   What the daemon wrote, the dead-man takes out: whatever the file held, exactly the lines outside the fence are
   left. No carriage return spoils it, not even where the daemon itself is stuck.
   */
  lemma DeadManUndoesUpsert(x: string, keys: seq<string>)
    requires ValidKeys(keys) && Locate(Lines(x)).Some?
    ensures Upserted(x, keys).Ok?
    ensures DeadManLines(Upserted(x, keys).value) == Outside(Lines(x), FenceBegin(), FenceEnd())
    ensures RecordsFenced(Upserted(x, keys).value)
  {
    hide FenceBegin, FenceEnd, LocateFence, Lines, Unlines, Records, ValidKeys, Printed, Around, Block;
    var b, e := FenceBegin(), FenceEnd();
    var (pre, post) := Around(Lines(x), b, e);
    var block := Block(keys, b, e);
    PartsAreUnbroken(x);
    BlockIsSteady(keys);
    UnbrokenConcat(pre, block);
    UnbrokenConcat(pre + block, post);
    RecordsOfUnlines(pre + block + post);
    KeysArePlain(keys);
    MarkersAreBare();
    OutsideOfFenced(Lines(x), keys, b, e);
    AwkPrintsOutside(pre + block + post, b, e);
    LocateBlock(pre, keys, post, b, e);
  }

  /** Both markers stand bare, once each and in order: the fence as awk reads it. */
  predicate RecordsFenced(x: string) {
    var found := LocateFence(Records(x), FenceBegin(), FenceEnd());
    found.Some? && found.value.Some?
  }

  /** A carriage return behind END alone: the dead-man deletes every line after the fence as well. */
  lemma DeadManCutsTail(x: string, i: nat, j: nat)
    requires Locate(Lines(x)) == Some(Some((i, j)))
    requires i < j < |Records(x)| - 1 && Records(x)[i] == FenceBegin() && Records(x)[j] == FenceEnd() + "\r"
    ensures DeadManLines(x) == Records(x)[..i]
    ensures Removed(x).Ok? && |Lines(Removed(x).value)| == i + (|Records(x)| - 1 - j) > |DeadManLines(x)|
  {
    hide FenceBegin, FenceEnd, LocateFence, Lines, Records, DeadManLines, Removed;
    DeadManPrints(x, i, j);
    DaemonAtFence(x, i, j);
    MarkersAreBare();
    CrIsMarker(FenceBegin(), FenceEnd());
  }

  /** With carriage returns before its newlines, a fenced file is emptied by the daemon but left whole by the script. */
  lemma DeadManMissesCrlf(key: string)
    requires ValidKey(key)
    ensures var lines := [FenceBegin() + "\r", key + "\r", FenceEnd() + "\r"];
            var x := Unlines(lines);
            && Removed(x) == Ok("")
            && DeadManLines(x) == lines
  {
    hide FenceBegin, FenceEnd, LocateFence, Lines, Records, Unlines, Printed, ValidKeys;
    var b, e := FenceBegin(), FenceEnd();
    var lines := [b + "\r", key + "\r", e + "\r"];
    MarkersAreBare();
    assert BareLine(b) && BareLine(e) && BareLine(key);
    CrlfLines(b, key, e);
    assert ValidKeys([key]) by { OneValidKey(key); }
    KeysArePlain([key]);
    assert [b, key, e] == [] + Block([key], b, e) + [];
    LocateSplit([b, key, e], b, e, [], [key], []);
    assert [b, key, e][..0] + [b, key, e][3..] == [];
    assert Unlines([]) == "" by { UnlinesNothing(); }
    PrintedWithoutMarkers(lines, b, e);
  }

  lemma CrlfLines(b: string, key: string, e: string)
    requires BareLine(b) && BareLine(key) && BareLine(e)
    ensures var lines := [b + "\r", key + "\r", e + "\r"];
            Records(Unlines(lines)) == lines && Lines(Unlines(lines)) == [b, key, e]
  {
    hide Lines, Records, Unlines, Chomp;
    var lines := [b + "\r", key + "\r", e + "\r"];
    RecordsOfUnlines(lines);
    ChompCr(b);
    ChompCr(key);
    ChompCr(e);
    assert Chomped(lines) == [b, key, e];
  }

  lemma OneValidKey(key: string)
    requires ValidKey(key)
    ensures ValidKeys([key])
  {
  }

  lemma UnlinesNothing()
    ensures Unlines([]) == ""
  {
  }

  lemma PrintedWithoutMarkers(lines: seq<string>, b: string, e: string)
    requires b !in lines && e !in lines
    ensures Printed(lines, b, e, |lines|).1 == lines
  {
    hide Printed;
    PrintedNothing(lines, b, e);
    assert lines[0..|lines|] == lines;
    PrintedRun(lines, b, e, 0, |lines|);
  }
}
