/**
 Text as lines, read in two ways: as awk reads records, and as the daemon reads
 lines, where a carriage return before a newline is part of the ending.
 */
module TextLines {
  /** Where the first line ends: at its newline, or at the end of the text. */
  function LineEnd(s: string): (i: nat)
    ensures i <= |s| && '\n' !in s[..i]
    ensures i < |s| ==> s[i] == '\n'
  {
    if s == [] || s[0] == '\n' then 0
    else
      var i := LineEnd(s[1..]) + 1;
      assert s[..i] == [s[0]] + s[1..][..i - 1];
      i
  }

  /** Newline-separated records, as awk reads them; a final newline ends the last record. */
  function Records(s: string): seq<string>
    decreases |s|
  {
    if s == [] then []
    else
      var i := LineEnd(s);
      [s[..i]] + if i < |s| then Records(s[i + 1..]) else []
  }

  function Chomp(line: string): string {
    if line != [] && line[|line| - 1] == '\r' then line[..|line| - 1] else line
  }

  /** Lines, as the daemon splits them: a carriage return before the newline is part of the ending. */
  function Lines(s: string): seq<string>
    decreases |s|
  {
    if s == [] then []
    else
      var i := LineEnd(s);
      if i < |s| then [Chomp(s[..i])] + Lines(s[i + 1..]) else [s]
  }

  /** Each line with its newline; what joining with newlines and ending with one gives. */
  function Unlines(ls: seq<string>): string {
    if ls == [] then [] else ls[0] + "\n" + Unlines(ls[1..])
  }

  predicate EndsInCr(line: string) {
    line != [] && line[|line| - 1] == '\r'
  }

  lemma ChompIs(line: string)
    ensures Chomp(line) == line <==> !EndsInCr(line)
    ensures EndsInCr(line) ==> line == Chomp(line) + "\r"
    ensures |Chomp(line)| <= |line|
  {
  }

  lemma ChompCr(line: string)
    ensures Chomp(line + "\r") == line
  {
    assert (line + "\r")[..|line|] == line;
  }

  /** No line holds a newline. */
  ghost predicate Unbroken(ls: seq<string>) {
    forall i :: 0 <= i < |ls| ==> '\n' !in ls[i]
  }

  /** No line ends in a carriage return. */
  ghost predicate Steady(ls: seq<string>) {
    forall i :: 0 <= i < |ls| ==> !EndsInCr(ls[i])
  }

  lemma LineEndOf(line: string, rest: string)
    requires '\n' !in line
    ensures LineEnd(line + "\n" + rest) == |line|
  {
    var s := line + "\n" + rest;
    if line != [] {
      assert s[1..] == line[1..] + "\n" + rest;
      LineEndOf(line[1..], rest);
    }
  }

  /** Reading the first line of a text off. */
  lemma ReadOne(line: string, rest: string)
    requires '\n' !in line
    ensures Records(line + "\n" + rest) == [line] + Records(rest)
    ensures Lines(line + "\n" + rest) == [Chomp(line)] + Lines(rest)
  {
    hide Chomp;
    var s := line + "\n" + rest;
    LineEndOf(line, rest);
    assert s[..|line|] == line && s[|line| + 1..] == rest;
  }

  function Chomped(ls: seq<string>): (r: seq<string>)
    ensures |r| == |ls| && forall i :: 0 <= i < |ls| ==> r[i] == Chomp(ls[i])
  {
    if ls == [] then [] else [Chomp(ls[0])] + Chomped(ls[1..])
  }

  lemma ChompedConcat(a: seq<string>, b: seq<string>)
    ensures Chomped(a + b) == Chomped(a) + Chomped(b)
  {
    hide Chomp;
  }

  lemma ChompedIsSame(ls: seq<string>)
    ensures Chomped(ls) == ls <==> Steady(ls)
  {
    hide Chomp, EndsInCr;
    forall i | 0 <= i < |ls| ensures Chomp(ls[i]) == ls[i] <==> !EndsInCr(ls[i]) {
      ChompIs(ls[i]);
    }
  }

  /** Reading back what was written: exactly for awk, less a final carriage return for the daemon. */
  lemma {:induction false} RecordsOfUnlines(ls: seq<string>)
    requires Unbroken(ls)
    ensures Records(Unlines(ls)) == ls
    ensures Lines(Unlines(ls)) == Chomped(ls)
  {
    hide Chomp, Records, Lines;
    if ls == [] {
      ReadNothing();
    } else {
      ReadOne(ls[0], Unlines(ls[1..]));
      RecordsOfUnlines(ls[1..]);
    }
  }

  lemma ReadNothing()
    ensures Records([]) == [] && Lines([]) == []
  {
  }

  /** Texts written from lines are told apart by those lines. */
  lemma UnlinesInjective(a: seq<string>, b: seq<string>)
    requires Unbroken(a) && Unbroken(b)
    ensures Unlines(a) == Unlines(b) <==> a == b
  {
    hide Unlines, Lines, Records;
    RecordsOfUnlines(a);
    RecordsOfUnlines(b);
  }

  /** How the two readings of a text differ: by the carriage returns that stand before a newline. */
  lemma {:induction false} LinesAndRecords(s: string)
    ensures |Lines(s)| == |Records(s)| && (Records(s) == [] <==> s == [])
    ensures Unbroken(Lines(s)) && Unbroken(Records(s))
    ensures forall i :: 0 <= i < |Records(s)| ==>
              Lines(s)[i] == if i == |Records(s)| - 1 && !EndsWell(s) then Records(s)[i] else Chomp(Records(s)[i])
    decreases |s|
  {
    hide Records, Lines, EndsWell, Chomp;
    if s == [] {
      ReadNothing();
    } else {
      var i := LineEnd(s);
      if i < |s| {
        var line, rest := s[..i], s[i + 1..];
        LinesAndRecords(rest);
        assert s == line + "\n" + rest;
        ReadOne(line, rest);
        TailEnd(line + "\n", rest);
        ChompUnbroken(line);
        if rest == [] {
          ReadNothing();
          EmptyText();
        }
      } else {
        LastLine(s);
      }
    }
  }

  lemma ChompUnbroken(line: string)
    requires '\n' !in line
    ensures '\n' !in Chomp(line)
  {
  }

  /** No carriage return stands directly before a newline. */
  predicate NoCrLf(s: string) {
    forall k :: 0 <= k < |s| - 1 && s[k] == '\r' ==> s[k + 1] != '\n'
  }

  lemma NoCrLfSplit(line: string, rest: string)
    requires '\n' !in line
    ensures NoCrLf(line + "\n" + rest) <==> !EndsInCr(line) && NoCrLf(rest)
  {
    var s := line + "\n" + rest;
    assert forall k :: 0 <= k < |rest| ==> s[|line| + 1 + k] == rest[k];
    assert forall k :: 0 <= k < |line| ==> s[k] == line[k];
    if NoCrLf(s) {
      forall k | 0 <= k < |rest| - 1 && rest[k] == '\r' ensures rest[k + 1] != '\n' {
        assert s[|line| + 1 + k] == '\r';
      }
      assert line != [] ==> s[|line| - 1] == line[|line| - 1] && s[(|line| - 1) + 1] == '\n';
    }
    if !EndsInCr(line) && NoCrLf(rest) {
      forall k | 0 <= k < |s| - 1 && s[k] == '\r' ensures s[k + 1] != '\n' {
        if k < |line| {
          if k + 1 < |line| {
            assert s[k + 1] in line;
          }
        } else {
          assert rest[k - |line| - 1] == '\r';
        }
      }
    }
  }

  /** The two readings agree exactly on texts without such a carriage return. */
  lemma {:induction false} ReadersAgree(s: string)
    ensures Lines(s) == Records(s) <==> NoCrLf(s)
    decreases |s|
  {
    hide Records, Lines, NoCrLf, Chomp, EndsInCr;
    if s == [] {
      ReadNothing();
      assert NoCrLf(s) by { NoNewline(s); }
    } else {
      var i := LineEnd(s);
      if i < |s| {
        var line, rest := s[..i], s[i + 1..];
        ReadersAgree(rest);
        assert s == line + "\n" + rest;
        ReadOne(line, rest);
        NoCrLfSplit(line, rest);
        ChompIs(line);
        SameHeads(Chomp(line), line, Lines(rest), Records(rest));
      } else {
        LastLine(s);
        assert s[..i] == s;
        NoNewline(s);
      }
    }
  }

  lemma NoNewline(s: string)
    requires '\n' !in s
    ensures NoCrLf(s)
  {
  }

  lemma SameHeads(a: string, b: string, as': seq<string>, bs: seq<string>)
    ensures [a] + as' == [b] + bs <==> a == b && as' == bs
  {
    assert ([a] + as')[1..] == as' && ([b] + bs)[1..] == bs;
    assert ([a] + as')[0] == a && ([b] + bs)[0] == b;
  }

  predicate EndsWell(s: string) {
    s == [] || s[|s| - 1] == '\n'
  }

  lemma TailEnd(front: string, rest: string)
    requires front != [] && front[|front| - 1] == '\n'
    ensures EndsWell(front + rest) <==> EndsWell(rest)
    ensures front + (rest + "\n") == front + rest + "\n"
  {
  }

  /** Rewriting a text from its lines changes nothing but a missing final newline. */
  lemma {:induction false} UnlinesOfRecords(s: string)
    ensures Unlines(Records(s)) == if EndsWell(s) then s else s + "\n"
    decreases |s|
  {
    hide Records, Unlines, EndsWell;
    if s == [] {
      EmptyText();
    } else {
      var i := LineEnd(s);
      if i < |s| {
        var rest := s[i + 1..];
        UnlinesOfRecords(rest);
        assert s == s[..i] + "\n" + rest;
        ReadOne(s[..i], rest);
        UnlinesCons(s[..i], Records(rest));
        TailEnd(s[..i] + "\n", rest);
      } else {
        LastLine(s);
      }
    }
  }

  lemma EmptyText()
    ensures Unlines(Records([])) == [] && EndsWell([])
  {
  }

  lemma UnlinesCons(line: string, ls: seq<string>)
    ensures Unlines([line] + ls) == line + "\n" + Unlines(ls)
  {
    assert ([line] + ls)[1..] == ls;
  }

  lemma LastLine(s: string)
    requires s != [] && LineEnd(s) == |s|
    ensures Records(s) == [s] && Lines(s) == [s] && '\n' !in s
    ensures Unlines(Records(s)) == s + "\n" && !EndsWell(s)
  {
    hide LineEnd;
    assert s[..|s|] == s;
    assert Records(s) == [s];
    UnlinesCons(s, []);
    assert s[|s| - 1] in s[..|s|];
  }

  /** A text written from lines ends well. */
  lemma UnlinesEndsWell(ls: seq<string>)
    requires Unbroken(ls)
    ensures EndsWell(Unlines(ls))
  {
    hide Unlines, EndsWell, Records;
    RecordsOfUnlines(ls);
    UnlinesOfRecords(Unlines(ls));
    assert |Unlines(ls) + "\n"| != |Unlines(ls)|;
  }
}
