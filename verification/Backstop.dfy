/**
 The dead-man script on a host: what it takes away when it fires, decided by whether its steps succeed and by the
 key file it finds.
 */
module Backstop {
  import opened Common
  import opened FenceLines
  import opened TextLines
  import opened Fence
  import opened GrantMachine
  import opened LifecycleState

  /** One run of the script: whether sshd took its old posture back, the key file, and whether it could be replaced. */
  datatype ScriptRun = ScriptRun(postureBack: bool, keyFile: Option<string>, replaced: bool)

  /** The script's awk program drops the fenced keys of this file. */
  predicate KeysGo(x: string) {
    || RecordsFenced(x)
    || match Locate(Lines(x))
       case None => false
       case Some(None) => true
       case Some(Some((i, _))) => i < |Records(x)| && Records(x)[i] == FenceBegin()
  }

  /** Whether the script ends access by the keys. */
  predicate TakesKeys(run: ScriptRun) {
    run.keyFile.None? || (run.replaced && KeysGo(run.keyFile.value))
  }

  function Taken(run: ScriptRun): set<Channel> {
    (if run.postureBack then {Ssh} else {}) + (if TakesKeys(run) then {AuthorizedKeys} else {})
  }

  /** The host after its dead-man fired; it takes itself out however its steps went. */
  function AfterFiring(host: Host, run: ScriptRun, now: nat): Host
    requires host.deadMan.Waiting?
  {
    Host(host.live - Taken(run), Fired(host.deadMan.notice, now))
  }

  /** On a file the daemon can locate, the keys go exactly when the whole fence is missing from what is printed. */
  lemma KeysGoExactly(x: string, i: nat, j: nat)
    requires Locate(Lines(x)) == Some(Some((i, j)))
    ensures i < j < |Records(x)|
    ensures KeysGo(x) <==> |DeadManLines(x)| <= |Records(x)| - (j - i + 1)
    ensures KeysGo(x) <==> Records(x)[i] == FenceBegin()
  {
    hide FenceBegin, FenceEnd, LocateFence, Lines, Records, DeadManLines;
    DeadManTakesFence(x, i, j);
    MarkersAsRecords(x, i, j);
    if RecordsFenced(x) {
      var b, e := FenceBegin(), FenceEnd();
      var (p, q) := LocateFence(Records(x), b, e).value.value;
      LocatedSplit(Records(x), b, e, p, q);
      SplitMarkers(Records(x), b, e, Records(x)[..p], Records(x)[p + 1..q], Records(x)[q + 1..]);
      MarkersAreBare();
      CrIsMarker(b, e);
    }
  }

  /** Ssh-borne access is left behind exactly by a step that failed, or by a key file that awk does not see through. */
  lemma LeftBehind(live: set<Channel>, run: ScriptRun)
    ensures (live - Taken(run)) * SSH_BORNE == {}
       <==> (Ssh in live ==> run.postureBack) && (AuthorizedKeys in live ==> TakesKeys(run))
  {
    hide TakesKeys;
    var left := (live - Taken(run)) * SSH_BORNE;
    assert Ssh in left <==> Ssh in live && !run.postureBack;
    assert AuthorizedKeys in left <==> AuthorizedKeys in live && !TakesKeys(run);
    assert forall c :: c in left ==> c == Ssh || c == AuthorizedKeys;
  }

  /** Where the key file is as the daemon wrote it and the steps succeed, the dead-man ends all ssh-borne access. */
  lemma BackstopWorks(x: string, keys: seq<string>, live: set<Channel>)
    requires ValidKeys(keys) && Locate(Lines(x)).Some?
    ensures Upserted(x, keys).Ok?
    ensures (live - Taken(ScriptRun(true, Some(Upserted(x, keys).value), true))) * SSH_BORNE == {}
  {
    hide Upserted, KeysGo;
    DeadManUndoesUpsert(x, keys);
    FencedGoes(Upserted(x, keys).value);
    LeftBehind(live, ScriptRun(true, Some(Upserted(x, keys).value), true));
  }

  lemma FencedGoes(x: string)
    requires RecordsFenced(x)
    ensures KeysGo(x)
  {
  }

  /**
   Every step succeeds and the access stays: an open grant whose key file was rewritten with carriage returns is left
   with its keys live and its dead-man gone.
   */
  lemma BackstopLeavesAccess(cfg: HostCfg, key: string, openedAt: nat, expiresAt: nat)
    requires ValidKey(key) && cfg.hasSsh
    ensures var g := Open(openedAt, expiresAt, [AuthorizedKeys]);
            var notice := Notice(expiresAt, expiresAt, openedAt);
            var host := Host({AuthorizedKeys}, Waiting(notice));
            var file := Unlines([FenceBegin() + "\r", key + "\r", FenceEnd() + "\r"]);
            var after := AfterFiring(host, ScriptRun(true, Some(file), true), expiresAt);
            && Covered(g, host.live) && Guarded(cfg, g, host)
            && after == Host({AuthorizedKeys}, Fired(notice, expiresAt)) && Guarded(cfg, g, after)
            && Removed(file) == Ok("")
  {
    hide FenceBegin, FenceEnd, Unlines, Records, Lines, Removed, DeadManLines, KeysGo, Guarded, LocateFence;
    var b, e := FenceBegin(), FenceEnd();
    var file := Unlines([b + "\r", key + "\r", e + "\r"]);
    var g := Open(openedAt, expiresAt, [AuthorizedKeys]);
    var notice := Notice(expiresAt, expiresAt, openedAt);
    DeadManMissesCrlf(key);
    CrlfStays(key);
    assert {AuthorizedKeys} - Taken(ScriptRun(true, Some(file), true)) == {AuthorizedKeys};
    GuardedAtExpiry(cfg, g, Host({AuthorizedKeys}, Waiting(notice)));
    GuardedAtExpiry(cfg, g, Host({AuthorizedKeys}, Fired(notice, expiresAt)));
  }

  lemma GuardedAtExpiry(cfg: HostCfg, g: Grant, host: Host)
    requires g.Open? && DoneItsDuty(host.deadMan) && host.deadMan.notice.deadline == g.expiresAt
    ensures Guarded(cfg, g, host)
  {
  }

  lemma CrlfStays(key: string)
    requires ValidKey(key)
    ensures !KeysGo(Unlines([FenceBegin() + "\r", key + "\r", FenceEnd() + "\r"]))
  {
    hide FenceBegin, FenceEnd, Unlines, Records, Lines, KeysGo, LocateFence, DeadManLines, ValidKeys;
    var b, e := FenceBegin(), FenceEnd();
    var lines := [b + "\r", key + "\r", e + "\r"];
    MarkersAreBare();
    assert BareLine(b) && BareLine(e) && BareLine(key);
    CrlfLines(b, key, e);
    assert ValidKeys([key]) by { OneValidKey(key); }
    KeysArePlain([key]);
    assert [b, key, e] == [] + Block([key], b, e) + [];
    LocateSplit([b, key, e], b, e, [], [key], []);
    KeysGoExactly(Unlines(lines), 0, 2);
    CrIsMarker(b, e);
  }
}
