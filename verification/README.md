# lychgate, verified

lychgate hands out temporary emergency access to hosts and devices and must always
be able to take it back. This Dafny project models the parts of it where that
promise is hard to keep, and proves the promise.

- **Grant lifecycle** (`GrantMachine`, `Registry`, `Snapshot`, `LifecycleState`,
  `LifecycleSteps`, `Backstop`, `Lifecycle`): the daemon as a class whose store, hosts and
  dead-man scripts change step by step. A crash may fall before or after any store
  write, driver call, dead-man call or journal entry; drivers may fail half way;
  hosts may lose access and dead-men may fire between operations; a restart may come
  back with other drivers. `Daemon.Serve` runs any script of operations and events,
  and `AccessIsAccountedFor` says what holds at every instant of every run. A ghost log
  keeps every question to a driver or a dead-man with its answer, so each operation says
  exactly what it asked, in which order, and that only an answer made it fail.
- **Approval policy** (`Policy`, `PolicyLoad`, `Evaluation`): loading a policy, the
  iterative three-colour cycle search, weighted evaluation through nested groups, and
  the longest wait.
- **Device protocol** (`DeviceEngine`, `DeviceLedger`, `DeviceProtocol`): the
  firmware engine against a network that may replay, reorder and drop every token
  ever issued, with reboots, failed stores and daemon crashes. `UptimeGrant` is the
  32-bit port of its deadline.
- **Wire formats** (`Cbor`, `CborStream`, `Token`, `CapDecoder`, `Text`, `Line`,
  `LineStream`, `Vectors`): the deterministic CBOR subset of section 4.2.1 of RFC 8949,
  the C decoder beside the Rust one, the line protocol, and the committed known answers.
- **Kernels** (`Sha256`, `SeFrame`, `Totp`): streaming SHA-256 (FIPS 180-4, sections
  5.1.1 and 6.2), CRC-16 framing, and single use of one-time codes (section 5.2 of
  RFC 6238).
- **Fence editing** (`TextLines`, `FenceLines`, `Fence`): the block lychgate owns in
  authorized_keys, edited by the daemon and removed by the dead-man's awk program.

`Common` holds the shared types. `dafny verify dfyconfig.toml` covers everything.

## What turned out not to hold

For each of these there is a lemma at an input where the promise fails, and the exact
condition under which it holds.

- A renewal keeps the instant of opening, so a renewed grant can outlive the 24-hour
  span that the stored document is checked against (`RenewalEscapes`,
  `ReloadabilityOfMoves`). From then on nothing is stored, logged or driven for any
  host, through every further run of operations and restarts (`Daemon.Serve`).
- The dead-man takes itself out however its steps went. With every step successful
  it can still leave the keys of an open grant live, when its awk program does not
  recognise the fence (`BackstopLeavesAccess`). The keys go exactly when BEGIN stands
  bare (`KeysGoExactly`), which it does in every file the daemon wrote
  (`DeadManUndoesUpsert`, `BackstopWorks`). At every instant a dead-man is waiting, or
  has fired at or after its deadline (`AccessIsAccountedFor`).
- The dead-man is told of a renewal before the renewal is stored, so one that is then
  refused leaves it off the stored expiry (`RefusedRenewalMovesDeadMan`). It is at the
  stored expiry exactly when the last renewal it was told of was stored; otherwise it
  is less than two hours early or less than a day late (`DeadManIsNear`).
- Removing the fence right after adding it gives a fence-free file back exactly when
  the file is empty or ends in a newline, and no carriage return stands before a
  newline (`RemoveUndoesUpsert`, failing at both in `RemovalChangesBytes`). The
  documentation speaks of preserving every byte outside the fence.
- An upsert can succeed on a file from which the same fence can then not be removed:
  an unterminated marker with a carriage return becomes a second marker
  (`UpsertThenStuck`). Removal succeeds exactly when no line outside the fence is a
  marker followed by a carriage return (`RemoveAfterUpsert`), and a second upsert is
  as good as the only one exactly when no line outside ends in a carriage return
  (`UpsertTwice`).
- The dead-man's awk program compares raw records. It leaves the lines that the
  daemon leaves exactly on the files of `DeadManAgrees`. A fence with carriage returns
  stays in place (`DeadManMissesCrlf`), and a carriage return behind END alone makes
  it delete every line after the fence (`DeadManCutsTail`).
- The 32-bit deadline is read rightly throughout a run exactly when the first poll at
  or after the deadline does not fall in the second half of a wrap (`RightExactly`);
  2^31 ms late it reads as open again (`LatePollReopens`).
- A drill on a clock at the end of its range stores a request with an empty window,
  which does not reload (`DrillReloads`, and the side condition of `Daemon.RunDrill`).
- A capability of an unknown version from 24 up can need 62 bytes (`CapFits`,
  `UnknownVersionOverflows`).

## Model

| member | source | states |
|---|---|---|
| `Lifecycle.Daemon.AccessIsAccountedFor` | daemon/src/lifecycle.rs:803-990 | at every recorded instant of a run, a channel that may be live on a host is named in that host's stored opening, open or needs-revert record; ssh-borne access under an open grant has a dead-man waiting or fired at or after its deadline, which is the stored expiry or that of an allowed renewal; and the latest opening of that host up to then gave the channel, before its request's deadline, for that request's time to live, with every counted proof verified against that very request, and with the policy met at that instant (or without a policy, or as a canary's own drill) |
| `Lifecycle.Daemon.DeadManIsNear` | daemon/src/lifecycle.rs:992-1075 | at every instant the dead-man of an open grant is off the stored expiry exactly when the last renewal it was told of is not stored; that renewal was allowed when told, so the dead-man is less than two hours early and less than a day late |
| `Lifecycle.Daemon.DeadManStays` | daemon/src/lifecycle.rs:1245-1263 | from any instant to the next, stuck reverts included, a waiting dead-man stays, or fires past its own deadline, or had nothing live to guard |
| `Lifecycle.Daemon.Serve` | daemon/src/lifecycle.rs:207-245 | any sequence of requests, proofs, renewals, closes, drills, passes, restarts, dead-man firings and lost access, with crashes inside any of them, keeps the daemon invariant and the whole history; once the document does not load, nothing is ever stored, logged or called again |
| `Lifecycle.Daemon.Step` | daemon/src/lifecycle.rs:207-245 | one event keeps the invariant and the history; a daemon that crashed or stopped stores, logs and asks nothing until it restarts; a restart that comes up has no half-open record and no unconfirmed open one; a firing takes what the script takes, exactly when its deadline has come; with a document that does not load, only a dead-man or lost access changes anything |
| `Lifecycle.Daemon.Answer` | daemon/src/lifecycle.rs:234-245 | each operator or timer operation keeps the invariant and the history however it ends, leaves behind what that operation promises when the daemon stays up, and does nothing at all when the document does not load |
| `Lifecycle.Daemon.constructor` | core/src/registry.rs:63-71 | a fresh daemon has every host closed, nothing live, and a loadable document |
| `Lifecycle.Daemon.Read` | daemon/src/lifecycle.rs:732-743 | a document that does not validate refuses every read |
| `Lifecycle.Daemon.Commit` | daemon/src/lifecycle.rs:177-192 | a transition is stored whole or not at all, a refusal writes nothing, a crash lands on one side of the write, and a document that does not validate refuses every write |
| `Lifecycle.Daemon.CommitAll` | daemon/src/lifecycle.rs:1325-1334 | the same for a write of every host at once |
| `Lifecycle.Daemon.DriverApply` | core/src/channel.rs:5-11 | an apply touches at most its own channel and is logged with its answer; a failed one may have landed, a successful one has |
| `Lifecycle.Daemon.DriverRevert` | core/src/channel.rs:5-11 | a revert only removes access and is logged with its answer; a successful one means the channel is closed |
| `Lifecycle.Daemon.DriverExtend` | core/src/channel.rs:59-66 | telling a channel its new deadline is logged with the driver's answer, touches no dead-man, and can bring up only a recorded channel that is not ssh-borne |
| `Lifecycle.Daemon.DriverReestablish` | core/src/channel.rs:75-83 | re-establishing a channel is logged with what was read back, touches no dead-man, and a channel read back open is live |
| `Lifecycle.Daemon.InstallDeadman` | daemon/src/drivers/deadman.rs:16-110 | a successful install or reschedule leaves the dead-man waiting for the given deadline, which is an opening's expiry or that of an allowed renewal; a failed one left it alone or did the same; both are logged |
| `Lifecycle.Daemon.RemoveDeadman` | daemon/src/drivers/deadman.rs:112-156 | only called with nothing live; success means it is gone; logged with its answer |
| `Lifecycle.Daemon.DeadmanFires` | core/src/deadman.rs:93-117 | only past its deadline; what goes is what the script's steps and the key file decide, and the dead-man is gone all the same; ssh-borne access is left exactly by a step that failed or a key file that awk does not see through |
| `Backstop.KeysGoExactly` | core/src/deadman.rs:100-112 | on a file the daemon can locate, the keys go exactly when the whole fence is missing from what is printed, exactly when BEGIN stands bare |
| `Backstop.BackstopWorks` | core/src/deadman.rs:93-117 | with the key file as the daemon wrote it, whatever else it holds, a run whose steps succeed ends all ssh-borne access |
| `Backstop.BackstopLeavesAccess` | core/src/deadman.rs:93-117 | an open grant whose key file carries carriage returns: every step succeeds, the keys stay live and the dead-man is gone |
| `Backstop.LeftBehind` | core/src/deadman.rs:93-117 | which failing step leaves which ssh-borne channel |
| `LifecycleState.RefusedRenewalMovesDeadMan` | daemon/src/lifecycle.rs:1011-1057 | an allowed one-minute and an allowed one-day renewal that a channel then refuses: the dead-man stands before, or after, the stored expiry |
| `Lifecycle.Daemon.RevertEach` | core/src/channel.rs:241-263 | every channel is asked once, in the given order, whatever the others answered; what is returned is exactly the channels that have no driver or whose driver refused, in that order |
| `Lifecycle.Daemon.ApplyChannels` | core/src/channel.rs:165-201 | success asked every channel in order and all are live; a failure at a channel means the ones before it answered yes and it answered no, and then it and they are asked to revert, newest first; the stuck list is exactly what did not go |
| `Lifecycle.Daemon.TakeBack` | core/src/channel.rs:178-198 | the failed channel and then the applied ones are reverted, newest first, and exactly those that did not go are stuck |
| `Lifecycle.Daemon.SettleFailure` | daemon/src/lifecycle.rs:958-988 | a failed open ends closed when everything was unwound, else needs-revert naming what is stuck; the store never refuses it |
| `Lifecycle.Daemon.Unwind` | daemon/src/lifecycle.rs:880-899 | an opening whose dead-man could not be installed has every channel asked to revert, newest first, and ends closed exactly when all went, else needs-revert naming the ones that did not |
| `Lifecycle.Daemon.FinishApplied` | daemon/src/lifecycle.rs:870-926 | no grant is stored open before its dead-man is set to its expiry; it is refused only by a dead-man that did not go in, and then everything is reverted |
| `Lifecycle.Daemon.DriveOpen` | daemon/src/lifecycle.rs:849-990 | granted means every channel and the wanted dead-man were asked in order and all answered yes; refused means one of them did not, nothing was asked after it but the reverts of what was tried, newest first, and the record says what is left |
| `Lifecycle.Daemon.Claim` | daemon/src/lifecycle.rs:816-830 | a claim succeeds exactly before the request's deadline and when its expiry is an instant; the opening is logged exactly when the stored record moves from pending to opening, only with a warrant that vouches for it |
| `Lifecycle.Daemon.OpenPendingNow` | daemon/src/lifecycle.rs:803-843 | a request that is late or would expire past the last instant is refused and nothing happens; any other is logged as opened once and driven to open until now plus its time to live with every drivable declared channel in place, or is given up because of an answer from the host |
| `Lifecycle.Daemon.RequestOpen` | daemon/src/lifecycle.rs:390-500 | accepted exactly on a closed known host whose chosen profile fits the window and whose deadline is an instant; it then stores exactly that request, opens nothing, and can be met strictly inside its window by the authenticators of the policy |
| `Lifecycle.Daemon.ChooseProfile` | daemon/src/lifecycle.rs:411-447 | the named profile, or without a name the only permitted one; refused exactly when there is none, no authority governs it, or its longest wait does not end inside the window |
| `Lifecycle.Daemon.AcceptProof` | daemon/src/lifecycle.rs:543-558 | an accepted proof is logged and stored in the request it was verified against, and never refused there |
| `Lifecycle.Daemon.EvaluateRequest` | daemon/src/lifecycle.rs:560-568 | the daemon's evaluation of a request is whether the authority behind its profile is met; there is no verdict exactly when no authority governs the profile |
| `Lifecycle.Daemon.Judge` | daemon/src/lifecycle.rs:560-577 | a pending request whose authority is met at this instant is carried to opening; one whose authority is not met stays as it is; it is refused only when no authority governs it, when it is too late, or by an answer from the host |
| `Lifecycle.Daemon.ApproveWith` | daemon/src/lifecycle.rs:543-577 | the proof is logged and kept, and the request with it is judged so |
| `Lifecycle.Daemon.Approve` | daemon/src/lifecycle.rs:507-577 | nothing comes of a proof that is late, unasked for or not verified; a verified one is kept and the request with it judged; without a policy the first approval opens |
| `Lifecycle.Daemon.AnnounceRenewal` | daemon/src/lifecycle.rs:1011-1057 | success means the dead-man has the new deadline and then every channel took the renewal, in order; otherwise it stopped at the first refusal; the dead-man is as it was or at the new deadline |
| `Lifecycle.Daemon.RenewChannels` | core/src/channel.rs:207-225 | success means every channel has a driver, was told once in order, and took the renewal; otherwise the telling stopped at the first that has no driver or refused |
| `Lifecycle.Daemon.Renew` | daemon/src/lifecycle.rs:992-1075 | allowed exactly for an unexpired grant with at most two hours left whose new expiry is an instant; an allowed renewal is refused only by the dead-man or a channel and then stores nothing; a granted one moves only the expiry, after the dead-man and then every channel took it, and the document still loads exactly while the whole life fits 24 hours |
| `Lifecycle.Daemon.StoreRenewal` | daemon/src/lifecycle.rs:1058-1074 | an allowed renewal that the dead-man already has is never refused by the store, and the document then loads exactly while the whole life fits 24 hours |
| `Lifecycle.Daemon.FinishReverted` | daemon/src/lifecycle.rs:1245-1294 | the dead-man is asked out before the grant is closed; closed exactly when it came out or the host can have none, else the grant stays needs-revert with all its channels |
| `Lifecycle.Daemon.DriveOneRevert` | daemon/src/lifecycle.rs:1233-1319 | every channel is asked once, newest first, then the dead-man if none was kept; closed exactly when all of them went, and then nothing is live; otherwise exactly what is left stays recorded with its old date, and a dead-man stays while anything is live |
| `Lifecycle.Daemon.RetractGrant` | daemon/src/lifecycle.rs:1209-1227 | what closing answers, asks and stores for each kind of grant |
| `Lifecycle.Daemon.Close` | daemon/src/lifecycle.rs:1178-1228 | cancels a pending request and asks nothing of the host, is harmless on a closed one, refuses a half-open one, and makes one revert attempt on any other, answering closed exactly when all of it went |
| `Lifecycle.Daemon.Sweep` | daemon/src/lifecycle.rs:1325-1334 | one write moves every open grant whose expiry has come to needs-revert and every request whose deadline has come to closed, and nothing else |
| `Lifecycle.Daemon.RevertNeeding` | daemon/src/lifecycle.rs:1360-1367 | every host needing a revert has every drivable channel attempted and is closed unless something resisted; no other host moves |
| `Lifecycle.Daemon.OpenIfMatured` | daemon/src/lifecycle.rs:1379-1409 | opens a request only when it is in time and time alone tipped it, and leaves none that it could have opened |
| `Lifecycle.Daemon.OpenMatured` | daemon/src/lifecycle.rs:1372-1409 | the same over all pending hosts; nothing but such requests moves |
| `Lifecycle.Daemon.Pass` | daemon/src/lifecycle.rs:1324-1412 | afterwards every open grant is before its expiry, every request before its deadline and none is ripe; every grant whose expiry had come or that needed a revert has had its drivable channels attempted and is closed unless something resisted; every unexpired open grant, idle host and request in time is as it was unless a wait ripened it; every new opening was ripened by a wait |
| `Lifecycle.Daemon.DemoteStored` | daemon/src/lifecycle.rs:1422-1428 | every stored opening becomes needs-revert with its whole channel list |
| `Lifecycle.Daemon.ReestablishChannels` | core/src/channel.rs:281-310 | every channel is asked once, in order; an empty report means every channel is live and has a driver that confirmed it; any other means some channel has none or was not confirmed |
| `Lifecycle.Daemon.ReestablishOne` | daemon/src/lifecycle.rs:1462-1504 | an unexpired open grant stays open only when every channel is live and was confirmed; it goes to needs-revert with all it holds only when some channel was lost |
| `Lifecycle.Daemon.ReestablishOpen` | daemon/src/lifecycle.rs:1454-1507 | only unexpired open grants move, only to needs-revert and only for lost access; every one still open is live and was confirmed channel by channel |
| `Lifecycle.Daemon.Boot` | daemon/src/lifecycle.rs:1421-1444 | after a restart no record is opening, an interrupted one needs reverting in full, an unexpired open one is retracted only for lost access, and no other claims access it does not have: every channel is live and was confirmed by the drivers at hand |
| `Lifecycle.Daemon.BeginDrill` | daemon/src/lifecycle.rs:1107-1127 | stores exactly the drill's own request on an idle canary: its profile, its five minutes, its deadline, no proofs |
| `Lifecycle.Daemon.EndDrill` | daemon/src/lifecycle.rs:1128-1149 | a drill passes only when its granted opening was closed with every question of a close answered yes; a granted one that fails was resisted |
| `Lifecycle.Daemon.OpenAndClose` | daemon/src/lifecycle.rs:1128-1149 | the drill passes only if its request was opened once and every question of an opening and then of a close was answered yes; it fails only if one was not, or the request could not be claimed |
| `Lifecycle.Daemon.RunDrill` | daemon/src/lifecycle.rs:1082-1158 | only an idle canary is touched; passing means its own request was carried to opening once, every drivable declared channel was applied in order and the wanted dead-man set, and all of it was taken out again, newest first; failing means some answer was no or the clock ran out |
| `LifecycleSteps.DrillReloads` | daemon/src/lifecycle.rs:1113-1127 | the drill's stored request reloads exactly when the approval window does not overflow the clock; at the last instant it never does |
| `LifecycleState.OkReverting` | daemon/src/lifecycle.rs:1295-1317 | falling back to needs-revert keeps the host invariant for any stuck list that covers what may be live |
| `LifecycleState.OkSwept` | core/src/registry.rs:245-300 | the expiry, lapse and boot sweeps keep the host invariant |
| `LifecycleSteps.ProofOrderIsIrrelevant` | core/src/grant.rs:382-392 | the order and repetition of proofs changes neither the stored request nor the decision |
| `LifecycleSteps.MetStaysMet` | core/src/authority.rs:716-752 | a request that is met stays met at every later instant and after every further proof |
| `LifecycleSteps.SweepSpares` | daemon/src/lifecycle.rs:1324-1367 | a sweep and its reverts touch nothing but expired or stuck grants and lapsed requests |
| `LifecycleSteps.AttemptResisted` | daemon/src/lifecycle.rs:1264-1317 | an attempt that leaves something has a channel or the dead-man that did not go |
| `LifecycleState.AttemptSucceeds` | daemon/src/lifecycle.rs:1245-1294 | an attempt leaves nothing exactly when every question of a close was answered yes |
| `LifecycleState.GivesUpAtChannel` | core/src/channel.rs:165-201 | a channel that refuses ends an opening there, with it and the ones before it reverted newest first |
| `LifecycleState.GivesUpAtDeadMan` | daemon/src/lifecycle.rs:874-916 | a dead-man that does not go in ends an opening whose channels all went in |
| `LifecycleState.KeptExactly` | core/src/channel.rs:241-263 | a channel is kept exactly when some revert of it was not answered yes |
| `LifecycleState.KeptInOrder` | core/src/channel.rs:241-263 | what is kept keeps its order |
| `LifecycleState.KeptNothing` | core/src/channel.rs:258-262 | nothing is kept exactly when every revert was answered yes |
| `LifecycleState.Backwards` | core/src/channel.rs:241-243 | the last channel comes first, position by position |
| `LifecycleState.DrivableInOrder` | core/src/channel.rs:127-133 | what can be driven keeps its order |
| `LifecycleState.ResolveAuthority` | daemon/src/lifecycle.rs:340-368 | it finds an authority exactly where one governs the profile |
| `LifecycleState.OverrideWins` | daemon/src/lifecycle.rs:355-368 | a host's own override takes the place of the shared profile, only for a profile it lists; one it does not permit has no authority |
| `LifecycleState.WaitIsMetInTime` | core/src/grant.rs:397-416 | a profile that is a single wait is met from the instant that long after its request and no sooner, also when the clock goes back |
| `LifecycleState.LatestExactly` | daemon/src/lifecycle.rs:816-836 | the latest opening of a host is the one no later opening of it follows |
| `GrantMachine.ClaimedOnce` | core/src/grant.rs:450-472 | under any interleaving of store transactions, two successful claims belong to two different requests |
| `GrantMachine.ClaimIsOfItsRequest` | core/src/grant.rs:450-472 | in any run a claim comes before the deadline its request was recorded with and opens for that request's time to live; it carries exactly the proofs accepted since the request, each before the deadline |
| `GrantMachine.PendingIsItsRequest` | core/src/grant.rs:351-392 | a pending grant is the request that was recorded, with exactly the proofs accepted since |
| `GrantMachine.CommitsWhenAllowed` | core/src/grant.rs:322-472 | which transition commits on which stored record at which instant; every deadline is itself too late |
| `GrantMachine.TimeLeft` | core/src/grant.rs:172-203 | the time left that is shown is the time to the stored deadline, and is never zero |
| `GrantMachine.RequestAt` | core/src/grant.rs:351-376 | every pending state traces back to the transaction that recorded the request, pending all the way |
| `Registry.GrantRegistry.ReapToRevert` | core/src/registry.rs:245-270 | exactly the open grants whose expiry has come move, each keeping its channels, and exactly those are reported |
| `Registry.GrantRegistry.ReapExpiredPending` | core/src/registry.rs:276-300 | exactly the requests whose deadline has come are closed and reported |
| `Registry.GrantRegistry.DemoteOpening` | core/src/registry.rs:337-353 | exactly the opening grants are demoted, with their whole list, and reported |
| `Snapshot.FromParts` | core/src/snapshot.rs:418-440 | a document is accepted exactly when it names known hosts only and each record validates; then it restores exactly that registry |
| `Snapshot.RecordReloads` | core/src/snapshot.rs:175-397 | a record reads back to its grant exactly when its span lies in (0, 24h], and is refused otherwise |
| `Snapshot.ReadIsWrittenBack` | core/src/snapshot.rs:175-397 | whatever is read would be written back as it stands, but for the two fields older pending records lack: nothing in a record is ignored or invented |
| `Snapshot.RecordFields` | core/src/snapshot.rs:175-239 | what is on disk for each state, field by field |
| `Snapshot.RegistryReloads` | core/src/snapshot.rs:401-440 | the registry survives a restart unchanged exactly when every stored span is in range |
| `Snapshot.ReloadabilityOfMoves` | core/src/grant.rs:322-346 | every transition but renewal keeps a grant reloadable; a renewal does exactly while the whole life fits |
| `Snapshot.RenewalEscapes` | core/src/grant.rs:322-346 | a run whose renewal leaves the reloadable range |
| `Policy.CheckGroupAcyclic` | core/src/authority.rs:602-645 | answers ok exactly when the group graph has no cycle, with the finishing order as a topological order; an error names a group on a cycle |
| `Policy.SearchFrom` | core/src/authority.rs:622-642 | one depth-first search either finds a cycle through the reported group or settles everything reachable; it terminates although nodes recur on the stack |
| `Policy.Scan` | core/src/authority.rs:628-638 | scanning a node's children finds a grey one, or pushes the node's own leaving and then its white children, all of them |
| `Policy.EnterKeeps` | core/src/authority.rs:625-638 | entering a node keeps the search invariant: grey nodes form the path, finished nodes are closed downwards |
| `Policy.LeaveKeeps` | core/src/authority.rs:639-641 | leaving a node keeps it, also when the node was finished before |
| `Policy.EnterProgress` | core/src/authority.rs:624-642 | entering lowers the number of white nodes, or keeps it and lowers the work on the stack |
| `Policy.LeaveProgress` | core/src/authority.rs:639-641 | leaving keeps the white nodes and lowers the work |
| `Policy.GreyPath` | core/src/authority.rs:602-645 | the grey frames of the stack form a path of the graph |
| `Policy.GreyChildIsCycle` | core/src/authority.rs:630-633 | a grey child closes a cycle |
| `Policy.TopologicalIsAcyclic` | core/src/authority.rs:602-645 | a topological order rules out every cycle |
| `PolicyLoad.BuildAuthority` | core/src/authority.rs:818-898 | accepted exactly when the description is acceptable; then it builds that authority with a reachable threshold, else the error names a real fault |
| `PolicyLoad.BuildNamespace` | core/src/authority.rs:382-565 | accepted exactly when names are distinct and each description is acceptable |
| `PolicyLoad.LoadAuthenticators` | core/src/authority.rs:382-565 | accepted exactly when every authenticator is, and then yields exactly their names |
| `PolicyLoad.CheckRefs` | core/src/authority.rs:581-600 | ok exactly when every reference resolves |
| `PolicyLoad.FromSpec` | core/src/authority.rs:382-565 | a model comes out exactly when the description builds, resolves and is acyclic; then it is that model, and every profile in it is sound |
| `PolicyLoad.ResolveOverride` | core/src/authority.rs:571-579 | an override is accepted exactly when it builds and resolves against the model |
| `PolicyLoad.DescribesUnique` | core/src/authority.rs:382-565 | a description determines its model |
| `Evaluation.GroupIsLower` | core/src/authority.rs:716-752 | a referenced group lies strictly lower in the order, which is why evaluation terminates |
| `Evaluation.Evaluate` | core/src/authority.rs:716-752 | each proof, wait and group is reported missing exactly when it is, a wait with the time it has left, in order; the weight is that of the factors not reported, and the authority is met exactly when it reaches the threshold |
| `Evaluation.MetExactly` | core/src/authority.rs:716-752 | mark each proof given, wait passed and group met: the authority is met exactly when the marked weight reaches its threshold |
| `Evaluation.VerdictIsLocal` | core/src/authority.rs:716-752 | nothing but the proofs and the waits reachable from an authority decides whether it is met |
| `Evaluation.StrangerProvesNothing` | core/src/authority.rs:716-752 | a proof by an authenticator the authority does not reach changes nothing |
| `Evaluation.WeightMonotone` | core/src/authority.rs:716-752 | more proofs or more time never lowers the weight, through nested groups |
| `Evaluation.MetMonotone` | core/src/authority.rs:716-752 | a met authority stays met |
| `Evaluation.WeightConserved` | core/src/authority.rs:716-752 | held weight plus the weight of the missing factors is the total |
| `Evaluation.MaxWaitInner` | core/src/authority.rs:762-778 | the shared visited set covers what is reachable and the longest wait among what it newly visited is returned |
| `Evaluation.MaxWait` | core/src/authority.rs:757-778 | the result is the largest wait reachable through groups |
| `Evaluation.AllWeightHeld` | core/src/authority.rs:716-752 | with everyone proven and all reachable waits passed, all weight is held |
| `Evaluation.AcceptedPolicyOpens` | core/src/authority.rs:716-778 | every loaded authority is met by all authenticators at its longest wait |
| `Evaluation.NothingOpensForFree` | core/src/authority.rs:818-898 | no loaded authority is met with no proofs at elapsed zero |
| `DeviceEngine.Engine.HandleLine` | embed/src/lib.rs:154-168 | a line ticks first, is dispatched once, and its reply always fits the line buffer |
| `DeviceEngine.Engine.AcceptToken` | embed/src/lib.rs:191-250 | the engine's fields and reply after a token are those of the protocol step, for every verdict and store outcome |
| `DeviceEngine.Engine.AcceptRevocation` | embed/src/lib.rs:252-283 | the same for a revocation |
| `DeviceEngine.TokenReplyIsTrue` | embed/src/lib.rs:191-250 | an acknowledgement tells of the very token, held and its number kept, with the seconds left; a refusal changes no grant |
| `DeviceEngine.TokenRefusalIsTrue` | embed/src/lib.rs:191-233 | each refusal of a capability names a cause that holds |
| `DeviceEngine.RevocationReplyIsTrue` | embed/src/lib.rs:252-283 | a revocation is acknowledged exactly when it was taken and nothing is held after it; a refusal changes no grant |
| `DeviceEngine.RevocationRefusalIsTrue` | embed/src/lib.rs:252-283 | each refusal of a revocation names a cause that holds |
| `DeviceEngine.RemainingRoundsUp` | embed/src/lib.rs:146-151 | seconds left are counted up to the next whole one |
| `DeviceEngine.StatusIsTrue` | embed/src/lib.rs:170-189 | a status report shows exactly what is held after the tick, the mark, the sensors and why it closed |
| `DeviceEngine.Engine.Tick` | embed/src/lib.rs:132-138 | the same for a tick |
| `DeviceEngine.Engine.constructor` | embed/src/lib.rs:117-128 | a device starts closed with the stored mark |
| `DeviceEngine.EngineRepliesFit` | embed/src/lib.rs:160-167 | no input whatever makes the engine build a reply that does not fit |
| `DeviceLedger.DeviceState.ReserveSeq` | daemon/src/device_state.rs:77-85 | the counter is stored before it is used, and a failed or torn write hands out nothing |
| `DeviceLedger.ReservedIsNext` | daemon/src/device_state.rs:77-85 | a number handed out is the next one and is stored; none is handed out exactly on a failed write or at the end of the range |
| `DeviceLedger.DeviceState.SetOpenNonce` | daemon/src/device_state.rs:88-93 | recording a nonce moves no counter |
| `DeviceLedger.DeviceState.ClearOpenNonce` | daemon/src/device_state.rs:96-104 | clearing a nonce moves no counter and no other device |
| `DeviceProtocol.StepKeeps` | embed/src/lib.rs:117-283 | every step of daemon, network, device, clock and reboot keeps the protocol invariant |
| `DeviceProtocol.RunKeeps` | embed/src/lib.rs:117-283 | so does every run |
| `DeviceProtocol.HoldsExactly` | embed/src/lib.rs:117-283 | what the device holds after each event, by numbers and instants alone |
| `DeviceProtocol.MarkExactly` | embed/src/lib.rs:200-264 | the mark rises exactly to the number of a fresh token of its own that no other grant blocks, when the write lands |
| `DeviceProtocol.RevocationCloses` | embed/src/lib.rs:264-282 | in any run, after a revocation that takes effect no grant of its nonce is held and the gate is open only for another; an unexpired grant of another nonce stays with its deadline |
| `DeviceProtocol.CapabilityOpens` | embed/src/lib.rs:224-250 | in any run, a capability that takes effect opens the gate until exactly its life from now |
| `DeviceProtocol.GrantStands` | embed/src/lib.rs:117-283 | in any run, a grant is given up only at its deadline, by its own fresh revocation or renewal, or by a reboot |
| `DeviceProtocol.DeviceSafety` | embed/src/lib.rs:132-168 | right after a tick the gate is open exactly when a grant is held; a held grant was anchored in this boot by an issued capability of at most a day, its deadline has not passed, and its nonce has not been revoked since |
| `DeviceProtocol.MarkNeverFalls` | embed/src/lib.rs:200-249 | the stored mark never decreases over a run |
| `DeviceProtocol.NumbersAreFresh` | daemon/src/device_state.rs:77-85 | no sequence number is issued twice to a device, whatever writes are lost or torn |
| `DeviceProtocol.AnchorsOnce` | embed/src/lib.rs:216-249 | each issued capability anchors a deadline at most once |
| `DeviceProtocol.DeadlineNeedsFreshMark` | embed/src/lib.rs:216-249 | a grant changes only by a delivered capability that strictly raises the mark to its number |
| `DeviceProtocol.DeadForever` | embed/src/lib.rs:216-249 | a token once at or below the mark can never open the gate again |
| `DeviceProtocol.RebootKillsTheGrant` | embed/src/lib.rs:117-128 | a capability that has anchored once never opens a closed gate again, across reboots |
| `DeviceProtocol.EveryLineIsAnEvent` | embed/src/lib.rs:154-168 | whatever line arrives, the engine's new state is that of an enabled event of the protocol |
| `DeviceProtocol.SignaturesMakeHonest` | wire/src/token.rs:221-266 | if good signatures stand on issued messages only, the device finds only issued tokens genuine |
| `UptimeGrant.LgGrant.Active` | avr/lychgate-se/lggrant.c:18-28 | a poll answers and closes as the modular test says |
| `UptimeGrant.LgGrant.Accept` | avr/lychgate-se/lggrant.c:10-16 | acceptance sets the wrapped deadline |
| `UptimeGrant.ReadAsOpen` | avr/lychgate-se/lggrant.c:18-28 | the test reads as open exactly when the deadline is 1 to 2^31 ms ahead modulo 2^32 |
| `UptimeGrant.RightBeforeDeadline` | avr/lychgate-se/lggrant.c:18-28 | it is right for every instant up to 2^31 ms before the true deadline |
| `UptimeGrant.WrongAfterDeadline` | avr/lychgate-se/lggrant.c:18-28 | after the true deadline it is wrong exactly in the upper half of each wrap |
| `UptimeGrant.AnswersAreTrue` | avr/lychgate-se/lggrant.c:10-34 | over any run of polls less than 2^31 ms apart every answer is the true one |
| `UptimeGrant.WrapSafe` | avr/lychgate-se/lggrant.c:10-34 | so from acceptance of any time up to a day, through every wrap of the counter |
| `UptimeGrant.RightExactly` | avr/lychgate-se/lggrant.c:10-34 | over any forward run of polls every answer is the true one exactly when the first poll at or after the deadline is not in the second half of a wrap |
| `UptimeGrant.LatePollReopens` | avr/lychgate-se/lggrant.c:18-28 | a first poll 2^31 ms after the deadline is answered open, for every time to live |
| `Cbor.HeadRoundTrip` | wire/src/cbor.rs:42-68 | reading a written head gives its value and the rest |
| `Cbor.HeadCanonical` | wire/src/cbor.rs:109-163 | an accepted head is the one that would be written: only the shortest form is taken |
| `Cbor.HeadBytes` | wire/src/cbor.rs:42-68 | every unsigned integer byte by byte: the shortest of five forms, most significant byte first |
| `Cbor.UintCanonical` | wire/src/cbor.rs:183-186 | the same for an integer entry |
| `Cbor.BstrCanonical` | wire/src/cbor.rs:193-204 | the same for a 16-byte entry |
| `CborStream.Writer.PushHead` | wire/src/cbor.rs:42-68 | the in-place writer appends exactly the head, or refuses when it does not fit |
| `CborStream.Writer.PushUint` | wire/src/cbor.rs:74-77 | the same for an integer entry |
| `CborStream.Writer.PushBstr` | wire/src/cbor.rs:79-86 | the same for a byte-string entry |
| `CborStream.Reader.ReadHeadOf` | wire/src/cbor.rs:109-163 | the moving reader takes the same head, value, rest and error as the value-level reader |
| `CborStream.Reader.Bstr16` | wire/src/cbor.rs:193-204 | the same for a 16-byte entry |
| `Token.CapRoundTrip` | wire/src/token.rs:101-152 | decoding an encoded capability gives it back for the known versions and is refused for any other |
| `Token.CapCanonical` | wire/src/token.rs:134-152 | a payload that decodes is the encoding of what it decodes to |
| `Token.CapLayout` | wire/src/token.rs:101-112 | the bytes of a capability: a map of six entries keyed 0 to 5 in order |
| `Token.CapFits` | wire/src/token.rs:29-35 | a capability encodes in 61 bytes exactly when its version is below 24 or some integer is short; both bounds are reached |
| `Token.UnknownVersionOverflows` | wire/src/token.rs:101-112 | an unknown version that takes 62 bytes |
| `Token.RvkRoundTrip` | wire/src/token.rs:114-169 | the round trip for revocations |
| `Token.RvkCanonical` | wire/src/token.rs:155-169 | canonicity for revocations |
| `Token.RvkLayout` | wire/src/token.rs:114-122 | the bytes of a revocation: a map of four entries keyed 0 to 3 in order |
| `Token.RvkFits` | wire/src/token.rs:29-35 | the bound for revocations |
| `Token.EncodeCapability` | wire/src/token.rs:101-112 | encodes into the buffer exactly when it fits |
| `Token.DecodeCapability` | wire/src/token.rs:134-152 | the reader-driven decoder is the value-level one, errors included |
| `Token.EncodeRevocation` | wire/src/token.rs:114-122 | encodes into the buffer exactly when it fits |
| `Token.DecodeRevocation` | wire/src/token.rs:155-169 | the reader-driven decoder is the value-level one, errors included |
| `Token.SignedMessage` | wire/src/token.rs:188-193 | the signed bytes are the prefix and then the payload |
| `Token.TokensFit` | wire/src/token.rs:29-35 | a token fits 175 bytes exactly when its payload fits 61, which holds for every known version |
| `Token.Assemble` | wire/src/token.rs:285-311 | a token is written in place exactly when it fits, as prefix, payload, dot and signature |
| `Token.SplitAssembled` | wire/src/token.rs:221-232 | a receiver splits an assembled token into the parts it was made of |
| `Token.AcceptedCapWasIssued` | wire/src/token.rs:247-256 | if only issued messages carry good signatures, an accepted capability was issued as such: a revocation cannot pass for it and no field can differ |
| `Token.AcceptedRvkWasIssued` | wire/src/token.rs:258-266 | the same for revocations |
| `CapDecoder.DecodersAgree` | avr/lychgate-se/lgcap.c:94-128 | on every byte string the C decoder gives the Rust decoder's fields or its corresponding error code; only version 1 is refused in addition |
| `CapDecoder.HeadsAgree` | avr/lychgate-se/lgcap.c:22-58 | the two head readers agree on value, rest and error |
| `CapDecoder.LgCapDecode` | avr/lychgate-se/lgcap.c:94-128 | the C decoder with its moving reader and out-fields computes that result |
| `CapDecoder.Reader.Head` | avr/lychgate-se/lgcap.c:22-58 | the in-place head reader computes that head |
| `CapDecoder.Reader.Bstr16Entry` | avr/lychgate-se/lgcap.c:72-92 | the in-place byte-string reader fills the caller's array with that entry |
| `Vectors.CapabilityVectors` | wire/vectors/lgcap_v1.kat:5-41 | the three committed capability payloads |
| `Vectors.RevocationVectors` | wire/vectors/lgrvk_v1.kat:5-35 | the three committed revocation payloads |
| `Vectors.WakeVector` | wire/vectors/atecc_frame.kat:5-7 | the wake response of the data sheet parses, with its checksum |
| `Vectors.InfoVector` | wire/vectors/atecc_frame.kat:9-10 | the committed information frame |
| `Vectors.AckVector` | wire/src/tests.rs:680-690 | the pinned acknowledgement, for every nonce |
| `Vectors.OpenStateVector` | wire/src/tests.rs:691-706 | the pinned open report, for every nonce |
| `Vectors.ClosedStateVector` | wire/src/tests.rs:707-721 | the pinned closed report |
| `Text.DecimalDigits` | wire/src/line.rs:136-149 | the backwards digit loop writes the decimal numeral |
| `Text.DecimalRoundTrip` | wire/src/line.rs:269-274 | a numeral reads back to its number |
| `Text.HexRoundTrip` | wire/src/line.rs:93-117 | hex digits read back to the bytes |
| `Text.UnhexCanonical` | core/src/snapshot.rs:175-397 | lower-case hex that is read is the text that is written |
| `Line.CommandRoundTrip` | wire/src/line.rs:157-267 | a rendered command parses back exactly when its payload does not end in a line ending |
| `Line.ReportRoundTrip` | wire/src/line.rs:276-343 | a rendered report parses back, for every number, nonce and combination of trailers |
| `Line.ReplyRoundTrip` | wire/src/line.rs:182-373 | a rendered reply parses back exactly when its free text does not end in a line ending |
| `LineStream.RenderCommand` | wire/src/line.rs:157-180 | the buffer writer renders the command exactly when it fits |
| `LineStream.RenderReply` | wire/src/line.rs:182-246 | the buffer writer renders the reply exactly when it fits |
| `LineStream.ReplyFits` | wire/src/line.rs:29-29 | every acknowledgement and report fits a line; a refusal does exactly when its text does |
| `LineStream.ParseStateLine` | wire/src/line.rs:276-343 | the trailer loop computes the report that parsing means |
| `Sha256.Context.Update` | avr/lychgate-se/sha256.c:64-80 | an update of any length absorbs exactly its bytes and counts their bits modulo 2^64 |
| `Sha256.Context.Finish` | avr/lychgate-se/sha256.c:82-98 | the padding loop terminates and the state is the fold of the compression over the padded whole message |
| `Sha256.Context.Final` | avr/lychgate-se/sha256.c:82-106 | the digest is that state, serialised |
| `Sha256.HashChunks` | avr/lychgate-se/sha256.c:54-106 | however a message is cut into updates, the digest is that of the whole |
| `Sha256.CapSignedDigest` | avr/lychgate-se/lgcap.c:130-137 | the capability digest is that of prefix and payload together |
| `Sha256.ZeroCountIsLeast` | avr/lychgate-se/sha256.c:90-95 | the padding uses the fewest zero bytes that leave room for the length |
| `Sha256.PadIsStandard` | avr/lychgate-se/sha256.c:82-98 | below 2^61 bytes the padding is the standard one, with the true length |
| `Sha256.StartIsStandard` | avr/lychgate-se/sha256.c:54-62 | the starting state is read off the square roots of the first eight primes |
| `Sha256.SerializedWord` | avr/lychgate-se/sha256.c:99-106 | each word of the digest comes out most significant byte first, in its place |
| `SeFrame.Crc16` | avr/lychgate-se/lgse.c:5-21 | the nested loops compute the shift-register checksum |
| `SeFrame.CrcNext` | avr/lychgate-se/lgse.c:5-21 | one more byte is its eight bits through the register, the lowest first |
| `SeFrame.BurstDetected` | avr/lychgate-se/lgse.c:5-21 | any burst of at most 16 bits, anywhere in a message of any length, changes the checksum |
| `SeFrame.CorruptionChangesCrc` | avr/lychgate-se/lgse.c:5-21 | any damage within two neighbouring bytes changes the checksum |
| `SeFrame.BuildCommand` | avr/lychgate-se/lgse.c:23-44 | the frame is built exactly when it fits the buffer and the count byte |
| `SeFrame.ParseResponse` | avr/lychgate-se/lgse.c:46-62 | parsing returns the payload of a well-formed frame and zero length otherwise |
| `SeFrame.BuiltFrameParses` | avr/lychgate-se/lgse.c:23-62 | a built frame parses to its body, whatever follows it |
| `SeFrame.CorruptFrameRefused` | avr/lychgate-se/lgse.c:46-62 | a good frame whose count byte is intact is refused when two neighbouring payload bytes, or the checksum, are damaged in any way |
| `Totp.Matches` | core/src/totp.rs:114-131 | the scan finds the last matching counter of the window, or there is none |
| `Totp.TotpLedger.Consume` | daemon/src/totp_ledger.rs:73-102 | pruning, checking and recording are the ledger step |
| `Totp.TotpLedger.VerifyCode` | daemon/src/lifecycle.rs:691-713 | the first matching secret decides: spent now, already used, or no secret matches and nothing is written |
| `Totp.RetainedExactly` | daemon/src/totp_ledger.rs:81-83 | pruning keeps exactly what was spent at most ten minutes ago |
| `Totp.EntrySurvives` | daemon/src/totp_ledger.rs:73-102 | an honoured entry survives every prune while it is young |
| `Totp.WindowIsShort` | core/src/totp.rs:86-131 | a counter stays in the window for less than 90 seconds |
| `Totp.WindowInSeconds` | core/src/totp.rs:86-131 | a counter is in the window from half a minute before its own half-minute until half a minute after it |
| `Totp.SingleUse` | daemon/src/totp_ledger.rs:73-102 | over every run with restarts and failed writes, no counter of an authenticator is honoured twice |
| `Totp.HonouredExactly` | daemon/src/totp_ledger.rs:73-102 | over every such run a code is honoured exactly when its write succeeds and no earlier try of the same counter landed |
| `TextLines.ReadersAgree` | core/src/ssh.rs:176-219 | the daemon's lines and awk's records of a text agree exactly when no carriage return stands before a newline |
| `TextLines.LinesAndRecords` | core/src/ssh.rs:176-219 | line by line, the daemon drops one carriage return before each newline and keeps an unterminated last line whole |
| `TextLines.UnlinesOfRecords` | core/src/ssh.rs:176-219 | rewriting a text from its records changes at most a missing final newline |
| `FenceLines.LocateSplit` | core/src/ssh.rs:153-172 | a file with one well-formed fence is located at it |
| `FenceLines.LocatedSplit` | core/src/ssh.rs:153-172 | a located fence splits the file into marker-free parts |
| `FenceLines.LocateBlock` | core/src/ssh.rs:153-172 | around a written block the file is well formed exactly when the rest holds no marker, and the fence is found where the block is |
| `FenceLines.OutsideOfFenced` | core/src/ssh.rs:176-219 | fencing leaves the lines outside untouched, in order |
| `FenceLines.Awk` | core/src/deadman.rs:103-109 | the line loop prints what the skip machine prints |
| `FenceLines.AwkPrintsOutside` | core/src/deadman.rs:103-109 | on a well-formed file that is exactly the lines outside the fence |
| `Fence.FenceUpsert` | core/src/ssh.rs:176-200 | a bad key is named and refused; otherwise the block replaces the fence or is appended |
| `Fence.TakenKeys` | core/src/ssh.rs:127-142 | a key is taken exactly when it shows something, stays on its line and nowhere names the marks |
| `Fence.UpsertLines` | core/src/ssh.rs:176-200 | the lines after an upsert: those before the fence, the marks around exactly the keys, those after it |
| `Fence.FenceRemove` | core/src/ssh.rs:204-219 | the fence is cut out, a file without one is unchanged, a malformed one is refused |
| `Fence.RemoveAfterUpsert` | core/src/ssh.rs:176-219 | after an upsert removal succeeds exactly when no line outside the old fence is a marker followed by a carriage return; it then leaves exactly those lines, in order, less one final carriage return each |
| `Fence.UpsertThenStuck` | core/src/ssh.rs:176-219 | a file that takes any keys and then refuses their removal |
| `Fence.UpsertTwice` | core/src/ssh.rs:176-200 | the second upsert wins byte for byte exactly when no line outside the fence ends in a carriage return |
| `Fence.RemoveUndoesUpsert` | core/src/ssh.rs:176-219 | a fence-free file is restored byte for byte exactly when it is empty or ends in a newline, and has no carriage return before a newline |
| `Fence.RemovalChangesBytes` | core/src/ssh.rs:176-219 | two files that are not given back: one without a final newline, one with a carriage return before it |
| `Fence.DeadManRemovesTheSame` | core/src/deadman.rs:103-109 | for every file the daemon can locate, the dead-man leaves the daemon's lines exactly when BEGIN is bare, END is bare or the last line, and no line outside ends in a carriage return; without a fence, exactly when no carriage return stands before a newline |
| `Fence.DeadManPrints` | core/src/deadman.rs:103-109 | what the dead-man prints for each of the four ways the markers can carry a carriage return |
| `Fence.DeadManTakesFence` | core/src/deadman.rs:103-109 | on every file the daemon can locate, the fence is gone from what is printed exactly when BEGIN stands bare |
| `Fence.DeadManUndoesUpsert` | core/src/deadman.rs:103-109 | what the daemon wrote the dead-man takes out: for every file and all valid keys exactly the lines outside the fence are left, also where the daemon's own removal is refused |
| `Fence.DeadManCutsTail` | core/src/deadman.rs:103-109 | with a carriage return behind END alone every line after the fence is deleted, while the daemon keeps them |
| `Fence.DeadManMissesCrlf` | core/src/deadman.rs:103-109 | a fence with carriage returns that the daemon removes and the dead-man keeps |

## Left out

- Signatures, HMAC, Argon2, SSHSIG, FIDO2, TPM, the SHA-256 rounds and the code function of one-time codes: parameters or the assumption that only issued messages carry good signatures.
- Proof kinds other than one-time codes: which authenticator a proof verified as is an input of `Daemon.Approve`.
- Operations in flight at the same time, on one host or on two: driver calls run outside the store lock, and commits carry no request identity, so the lifecycle runs one operation at a time over all hosts; what holds under every interleaving of store transactions is `ClaimedOnce`.
- A dead-man firing or access being lost inside an operation rather than between two.
- Several daemon processes, lock files, fsync and rename: a store or ledger write is atomic.
- Journal contents, response texts, narrowings, one-time secrets, and the gate for machine callers.
- `begin_open`, which no daemon operation uses.
- Sub-second times: the lifecycle counts whole seconds, the device milliseconds.
- DeviceLedger.DeviceState.ReserveSeq: the wrap-around of the device counter at 2^64 is modelled as a refusal.
- PolicyLoad.LoadAuthenticators: whether key material is well formed is a flag of the description.
- Parsing of durations; the time to live is a number of seconds in its allowed range.
- JSON, TOML and base64: documents and descriptions are values, and the base64 encoder is any with the right length and no dot.
- Unicode whitespace and encodings: text is ASCII characters.
- Host names are visited in any order rather than by name, and satisfied authenticators are a set where the stored list has an order.
- Real drivers and transports, the listener, the simulator and the command line.
- Duplicate names inside a host's list of permitted profiles: the list is a set.
- DeviceEngine.Engine.HandleLine: the firmware reads its clock twice while handling a line; the two readings are inputs.
- Sha256.PadIsStandard: stated below 2^61 bytes; beyond, the length field is the true bit count modulo 2^64.
