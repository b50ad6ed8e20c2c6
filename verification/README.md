# A verified model of UnCorded's stateful cores

UnCorded consists of Central (accounts and key authority), a runtime that hosts plugins, and a
desktop app that orchestrates servers. This project models the algorithms in them that keep state
and proves what they keep. `dafny verify dfyconfig.toml` checks all of it.

| modules | what they model |
|---|---|
| `SigningKeys`, `SigningKeyProtocol` | rotation of Central's signing keys, with clocks, signers and caches |
| `RateLimiter` | the token bucket, with and without eviction |
| `Sessions` | the sliding session window |
| `TopologicalSort`, `Resolver`, `BootRetry` | plugin resolution and the retry at boot |
| `Supervisor`, `SupervisorRuns`, `SupervisorStops` | plugin subprocesses: spawn, handshake, crash, respawn, stop |
| `FileTree`, `BackupCopy`, `RuntimeBackup`, `BackupRestore` | the pre-update snapshot and its restore on a file system whose calls fail |
| `BackupNames`, `BackupRotation` | the names of snapshots, listing and rotation |
| `DeployCopy`, `PluginDeploy`, `LifecycleLock`, `DeployRuns` | deploying a dev plugin, and runs of deploys |
| `Precedence`, `RuntimeReleases` | version precedence and the choice of a release |
| `Migrations`, `MigrationRuns` | the migration runner |
| `Usernames`, `UsernameBackfill` | user names and their backfill |
| `LiveSurfaces`, `SurfaceRuns` | which window owns a live native view |
| `Common`, `Decimal`, `Strings`, `Sorting` | shared definitions |

Code that changes state is a class or a method with the source's loops. A method's contract equates
the new state with a function of the old one; the theorems are about that function, over every run.
Asynchronous code is cut at its awaits: each stretch between two awaits is one method, the runs
interleave them freely. A file system or database call takes its failure from an arbitrary function
of the number of calls made, so a theorem holds for a failure at every step, and the methods say exactly
when they succeed.

## What the code does against its own words

Each of these is a lemma or a contract, with the exact condition or a concrete run.

- Signing keys: "can never return a set that omits a currently-valid signing key" holds for keys
  that entered through rotation, for rows read at most 60 s ago, and if no booting process expired
  the key before. `ensureSigningKey` looks at one active row and then expires all of them, so it can
  take a usable key, a key promoted meanwhile, or the key of a process that boots beside it, with
  their live tokens. The key made active at boot can be missing from caches for a minute, and an
  entry filled by a slow query can miss a rotated key. A pending key under an older secret, which the
  boot repair leaves alone, is promoted later and stops signing.
- Rate limits: the ten-minute eviction is invisible for the per-minute limits only. Every limit of n
  per hour is forgotten by it.
- Sessions: "idle_expires_at can't shrink" fails for two overlapping requests, exactly when a
  deadline is written that was computed before the one written last. From 6 days and 23 hours before
  the cap on every request writes the row.
- Boot retry: the single retry loads the greatest loadable set exactly when the first pass names every
  hopeless plugin, or all are hopeless; otherwise a healthy plugin is dropped with the others.
- Supervision: line 298 turns quarantined into stopped, and a quarantine lasts until the next stop
  exactly when no handshake and no stop of that record is still to end. `stop` on a crashed plugin
  leaves its respawn pending, and a handshake that completes during `stop` makes the exit count as a
  crash; these and a pending boot are all that `stop` leaves. Even so no slug is started after the
  fifth crash of a window.
- Restore: the rollback is exact for failures between the stash renames and the stash removals. A
  failed stash rename makes it remove live trees that were not stashed; a failed stash removal loses
  the backups. A stash name that is in use, other than by an empty directory, fails the restore, and
  the rollback then puts what has that name in place of the live tree. The branch for a missing config
  directory (lines 165-167) cannot be reached, because the backups directory inside it is made first.
- Deploy: "any failure restores the exact prior state" fails in three places. A failed removal of the
  backup (line 463) reports COPY_FAILED and leaves the new tree; so does a failed registration, which
  reports CONFIG_WRITE_FAILED. A death between lines 461 and 462, or a failure of both line 462 and
  line 467, leaves a registered slug without a folder, and the next deploy of any plugin sweeps the
  old tree away.
- Releases: the channel patterns in the file's header are narrower than the code, which puts
  `0.0.0-rc-test` on the test channel.
- Live surfaces: popping out a view that is popped out already leaves its first window open and
  empty.

## Model

| member | source | states |
|---|---|---|
| SigningKeys.Database.BumpSyncForKeyChange | apps/central/src/crypto.ts:177-186 | every server's sync version goes up by one and gets exactly one placeholder delta at its new version; older deltas stay |
| SigningKeys.Process.TryActive | apps/central/src/crypto.ts:121-144 | says whether no row is active, and otherwise whether some active row, any one, decrypts under the secret |
| SigningKeys.Process.ExpireActives | apps/central/src/crypto.ts:138-141 | every active row is expired, the usable ones too; no other row changes |
| SigningKeys.Process.InsertActive | apps/central/src/crypto.ts:146-168 | a new active row with its sync bump exactly when a secret is set; otherwise nothing changes |
| SigningKeys.Process.EnsureSigningKey | apps/central/src/crypto.ts:120-169 | when nothing comes between its steps: it succeeds exactly when a secret is set; then either nothing changes because an active key decrypts, or every active row is expired and one new active row is added with a sync bump; without a secret the active rows are expired all the same |
| SigningKeys.Process.RotateSigningKey | apps/central/src/crypto.ts:311-374 | all of a rotation or none of it: expiry of the retiring rows past their deadline, promotion, retirement of the prior actives only if something was promoted, one new pending row, the sync bump; who ends in which state and with which deadline is RotationStates, RotationDeadlines and RotationRows |
| SigningKeys.Process.GetActiveSigningKey | apps/central/src/crypto.ts:188-209 | the newest active row, or none exactly when no row is active; usable exactly when it is under the process's secret |
| SigningKeys.Process.GetPublicKeys | apps/central/src/crypto.ts:261-280 | a cache entry younger than 60 s is returned unread; otherwise the active, pending and retiring ids, cached under the time the query finished |
| SigningKeys.RotationStates | apps/central/src/crypto.ts:322-356 | who is active, pending and retiring after a rotation, told from the states and creation times before it |
| SigningKeys.RotationDeadlines | apps/central/src/crypto.ts:322-350 | the retiring and the expired rows after a rotation, as equalities over the states and deadlines before it: a retiring row goes exactly when its deadline is past |
| SigningKeys.RotationRows | apps/central/src/crypto.ts:322-364 | no row is lost; a row changes in its state alone, and in its deadline, ten minutes ahead, exactly when it retires |
| SigningKeys.RetiredForTenMinutes | apps/central/src/crypto.ts:322-350 | over every sequence of rotations a row retired at r is published until the first rotation after r + 600 s, and from then on expired and in no published set |
| SigningKeys.RotationsKeepAnActiveKey | apps/central/src/crypto.ts:303-309 | no sequence of rotations, at any times, leaves a table that had an active key without one |
| SigningKeys.SpacedRotationsKeepOneActiveKey | apps/central/src/crypto.ts:322-356 | from a steady state, rotations more than 60 s apart keep exactly one active and at most one pending key |
| SigningKeys.StartedEmpty | apps/central/src/crypto.ts:146-160 | the same for a table started empty by the boot key |
| SigningKeys.SignerAfterRotation | apps/central/src/crypto.ts:322-350 | the key picked after a rotation decrypts if and only if the newest of the promoted rows does, or the old pick does when none matured |
| SigningKeys.RotationsKeepSignerDecryptable | apps/central/src/crypto.ts:188-209 | with the active and pending rows under the current secret every sequence of rotations keeps the picked key decryptable |
| SigningKeys.OldPendingKeyBreaksSigning | apps/central/src/crypto.ts:120-144 | for any table whose one pending row is under an older secret: it survives the repair by ensureSigningKey, the next rotation promotes it, and then the key picked to sign cannot be decrypted |
| SigningKeyProtocol.StepKeepsInv | apps/central/src/crypto.ts:120-280 | each step of rotations, of booting processes cut at their awaits, of the clock, the selects, the caches and the signers keeps the invariant that ties creation, promotion, retirement, expiry and read times together |
| SigningKeyProtocol.RunKeepsInv | apps/central/src/crypto.ts:120-364 | so does every run |
| SigningKeyProtocol.WipedIff | apps/central/src/crypto.ts:138-141 | the rows a run counts as expired by a boot are exactly those that some expire-all step of it found active |
| SigningKeyProtocol.VerifiesIff | apps/central/src/crypto.ts:249-280 | in every run a live token's key is in a served key set if and only if the rows were read after the key's row was inserted and before any expire-all step that found it active |
| SigningKeyProtocol.TokenVerifiesIff | apps/central/src/crypto.ts:247-259 | for a key that waited its 60 s as pending and rows read at most 60 s ago: a live token verifies if and only if no expire-all step that found its key active precedes the read |
| SigningKeyProtocol.WipedAfterSigning | apps/central/src/crypto.ts:138-141 | such a step comes after the signing: no token is signed by a key that one has found active |
| SigningKeyProtocol.RetiredKeyIsReadIff | apps/central/src/crypto.ts:261-350 | in every run of the protocol the rows read after a rotation retired a key hold it if and only if no rotation later than ten minutes after that one came before the read |
| SigningKeyProtocol.StatesAreOneWay | apps/central/src/crypto.ts:289-310 | pending, active, retiring, expired: no run takes a row back |
| SigningKeyProtocol.BootKeyCanBeMissed | apps/central/src/crypto.ts:157-168 | a run in which a live token of the key inserted active at boot is missing from a key set read just before |
| SigningKeyProtocol.UsableKeyIsExpired | apps/central/src/crypto.ts:121-141 | a run in which the boot repair tries an unusable active row and expires the usable one with it, with live tokens |
| SigningKeyProtocol.PromotedKeyIsExpired | apps/central/src/crypto.ts:121-141 | a run in which a rotation between the try and the expiry promotes a key that waited its 60 s, and the expiry then takes it with live tokens |
| SigningKeyProtocol.BootsExpireEachOther | apps/central/src/crypto.ts:121-168 | a run in which the second of two booting processes expires the key that the first one made and signed with |
| SigningKeyProtocol.SlowQueryCanMissRotatedKey | apps/central/src/crypto.ts:268-279 | a run in which a cache entry younger than 60 s lacks a rotated key that signs, because its query was slow |
| RateLimiter.Limiter.Consume | apps/central/src/middleware.ts:262-288 | granted exactly when a token is there; on a grant and on a denial alike the bucket left was refilled now; the other buckets untouched |
| RateLimiter.Limiter.Evict | apps/central/src/middleware.ts:248-255 | exactly the buckets idle for more than ten minutes are dropped |
| RateLimiter.RetryAfterIsLeast | apps/central/src/middleware.ts:284-287 | after a denial a call n whole seconds later succeeds if and only if n is at least retryAfter (and the limit holds one token at all) |
| RateLimiter.GrantsWithinLevel | apps/central/src/middleware.ts:271-282 | over any history the grants of a key are at most its level at the start plus the refill |
| RateLimiter.RateBound | apps/central/src/middleware.ts:237-293 | in any interval of any history without eviction a key is granted at most maxTokens plus refillRate times its length |
| RateLimiter.CalledKeyKeepsBucket | apps/central/src/middleware.ts:242-288 | with the timer running, a key whose last call, granted or denied, is at most 600 s back has its bucket, last refilled at that call |
| RateLimiter.RateBoundInUse | apps/central/src/middleware.ts:237-293 | so a key whose calls are never more than 600 s apart is granted, timer running, at most maxTokens plus refillRate times the length in any interval |
| RateLimiter.EvictionInvisible | apps/central/src/middleware.ts:242-255 | when every limit refills within the idle threshold the evicting limiter answers every history as one that never evicts |
| RateLimiter.ProbeGrants | apps/central/src/middleware.ts:242-255 | for any other limit a history in which eviction grants more |
| RateLimiter.EvictionInvisibleIff | apps/central/src/middleware.ts:242-247 | eviction is invisible on all histories if and only if maxTokens is at most the refill of ten minutes and a millisecond |
| RateLimiter.HourlyLimitsAreForgotten | apps/central/src/middleware.ts:186-255 | a limit of n per hour, for every n, gets other answers from the evicting limiter in some history; a limit of n per minute in none |
| RateLimiter.LimitsOfTheSource | apps/central/src/middleware.ts:186-235 | each per-hour limit of the source fails the condition of EvictionInvisibleIff and each other limit meets it |
| Sessions.Session.constructor | apps/central/src/middleware.ts:131-138 | idle and absolute deadline of a new session |
| Sessions.Session.Authenticate | apps/central/src/middleware.ts:46-84 | accepted exactly when both deadlines lie ahead at the read; the row left behind |
| Sessions.DeadlinesOnlyGrow | apps/central/src/middleware.ts:20-30 | over any history the idle deadline never moves back or past the cap, and the cap never moves |
| Sessions.AcceptanceIsRecent | apps/central/src/middleware.ts:20-30 | acceptance is within 30 days of creation, and within 7 days of creation or of the end of an earlier accepted request |
| Sessions.ActiveSessionLives | apps/central/src/middleware.ts:63-84 | with bumps succeeding, gaps under 7 days less an hour never expire a session before the cap |
| Sessions.ActiveSessionNeverExpires | apps/central/src/middleware.ts:63-84 | the same from creation |
| Sessions.WritesAreAnHourApart | apps/central/src/middleware.ts:63-70 | two writes with none between are more than an hour apart while the cap does not cut the deadline |
| Sessions.EveryRequestWritesNearTheCap | apps/central/src/middleware.ts:69-79 | from 6 days 23 hours before the cap on every accepted request writes the row |
| Sessions.DeadlineIsLastWritten | apps/central/src/middleware.ts:46-84 | in every interleaving of overlapping requests, cut at the SELECT, the test, the new deadline and the UPDATE, the idle deadline is seven days past the one written last, or the cap |
| Sessions.OverlappingAcceptanceIsRecent | apps/central/src/middleware.ts:46-84 | in every such interleaving acceptance is within 30 days of creation, and within 7 days of creation or of the time at which an earlier accepted request computed its deadline |
| Sessions.WriteShrinksIff | apps/central/src/middleware.ts:63-79 | over every run, a step moves the deadline back if and only if it writes a deadline that was computed before the one written last and that the cap does not cut |
| Sessions.OverlapCanShrinkIdle | apps/central/src/middleware.ts:66-67 | an interleaving in which the idle deadline shrinks |
| TopologicalSort.CollectedCounts | runtime/src/resolver.ts:261-265 | the reverse edges list a slug as often as it lists the dependency |
| TopologicalSort.BuildReverse | runtime/src/resolver.ts:254-265 | the reverse map is the transpose of the edges, with multiplicity |
| TopologicalSort.InitialQueue | runtime/src/resolver.ts:256-273 | in-degrees count unplaced dependencies and the queue holds the nodes without any |
| TopologicalSort.Release | runtime/src/resolver.ts:281-288 | one pass over the dependents keeps the counts and the queue right for the enlarged order |
| TopologicalSort.PlaceAll | runtime/src/resolver.ts:275-289 | the queue loop terminates with an order that puts dependencies first and an empty queue |
| TopologicalSort.Placed | runtime/src/resolver.ts:277-289 | at the end a node is placed exactly when all its dependencies are |
| TopologicalSort.PlacedReachesNoCycle | runtime/src/resolver.ts:277-289 | no cycle is reachable from a placed node |
| TopologicalSort.LeftReachesCycle | runtime/src/resolver.ts:291-294 | a cycle is reachable from each node left over |
| TopologicalSort.AllPlacedIffAcyclic | runtime/src/resolver.ts:291-297 | all nodes are placed if and only if the graph has no cycle |
| TopologicalSort.ReportsCycle | runtime/src/resolver.ts:291-294 | the report is strictly increasing in map order and holds exactly the slugs from which a cycle is reachable |
| TopologicalSort.ReportStartsFirst | runtime/src/resolver.ts:291-294 | its first slug is the first in map order from which a cycle is reachable |
| TopologicalSort.Sort | runtime/src/resolver.ts:249-298 | success exactly for acyclic graphs, with a permutation that puts dependencies first; otherwise the slugs that reach a cycle, in map order |
| Resolver.CheckPlugins | runtime/src/resolver.ts:56-153 | the errors of step 1 in order, and the validated slugs when there is none |
| Resolver.CollectNeeds | runtime/src/resolver.ts:166-211 | the errors and the edges of one plugin |
| Resolver.BuildAdjacency | runtime/src/resolver.ts:160-215 | the errors of step 2, and the dependency map when there is none |
| Resolver.ResolvePlugins | runtime/src/resolver.ts:47-239 | resolves exactly when every slug is admissible, no need fails and no cycle is reachable, in dependency order; otherwise each error has the code of the first check that its slug fails, each failing slug or need has one, and a cycle is named by the first installed slug that reaches it |
| Resolver.FaultIsFirstFailure | runtime/src/resolver.ts:56-153 | the code of step 1 is that of the first check that fails, with the checks written out over the host: reserved name, manifest, its name, the API range, the services |
| Resolver.NeedsAre | runtime/src/resolver.ts:160-215 | the edges of a plugin are its dependencies and the base of an extension |
| Resolver.LoadableIff | runtime/src/resolver.ts:56-230 | a set is loadable if and only if each plugin passes the checks, no need of one fails and no cycle is reachable |
| Resolver.ErrsExplained | runtime/src/resolver.ts:56-231 | each error explained in those terms, and none missing |
| Resolver.FirstOfAll | runtime/src/resolver.ts:291-297 | the slug a cycle error names is the first of the installed list, repetitions included |
| Resolver.StepTwoNone | runtime/src/resolver.ts:166-215 | step 2 is free of errors exactly when every need of every plugin is met |
| BootRetry.NamedIsHopeless | runtime/src/main.ts:796-799 | a slug that a resolution error names is in no loadable subset of the installed slugs |
| BootRetry.CyclicIsHopeless | runtime/src/resolver.ts:219-230 | nor is a slug from which a dependency cycle is reachable |
| BootRetry.UnionLoadable | runtime/src/resolver.ts:166-230 | two loadable sets can be loaded together |
| BootRetry.GreatestIsSalvageable | runtime/src/main.ts:796-797 | a greatest loadable subset of the installed slugs exists: the installed slugs without the hopeless ones |
| BootRetry.StrippingLosesNothing | runtime/src/main.ts:798-803 | the stripped set holds everything loadable, and it is loadable if and only if the errors name every hopeless slug |
| BootRetry.ResolveAtBoot | runtime/src/main.ts:788-818 | resolve, strip, resolve once more: something is loaded exactly when the first pass names every hopeless slug, and then it is the greatest loadable subset, in dependency order |
| BootRetry.BootIsGreatestIff | runtime/src/main.ts:788-818 | boot loads the greatest loadable subset if and only if the first pass names every hopeless slug or all are hopeless |
| BootRetry.RetryDropsHealthyPlugin | runtime/src/main.ts:796-811 | three plugins of which one stands alone: stripping the broken one leaves a set that is not loadable, so nothing is loaded |
| Supervisor.SubprocessManager.Spawn | runtime/src/subprocess.ts:168-282 | a running slug is refused; a failed spawn leaves no record; otherwise a new starting record that shares the slug's tracker |
| Supervisor.SubprocessManager.EndHandshake | runtime/src/subprocess.ts:289-304 | the continuation sets the state of the record it holds, whatever that record became |
| Supervisor.SubprocessManager.HandleExit | runtime/src/subprocess.ts:437-489 | looked up by slug: ignored, quarantined at the fifth crash of the window, or stopped with a respawn timer after the next delay |
| Supervisor.RecentCounts | runtime/src/subprocess.ts:76-80 | the crashes that count are those less than ten minutes back |
| Supervisor.SubprocessManager.FireRespawn | runtime/src/subprocess.ts:484-501 | the timer entry goes; nothing more when shutting down, else a spawn |
| Supervisor.SubprocessManager.BeginStop | runtime/src/subprocess.ts:308-324 | ignored for a stopped or stopping record, else stopping, or stopped at once when the signal throws |
| Supervisor.SubprocessManager.EndStop | runtime/src/subprocess.ts:326-344 | the continuation marks its record stopped |
| Supervisor.SubprocessManager.BeginStopAll | runtime/src/subprocess.ts:347-356 | no timers, the flag set, a stop begun for each tracked slug |
| SupervisorRuns.RunKeepsInv | runtime/src/subprocess.ts:168-510 | in every interleaving a slug waits for boot, or has one subprocess whose exit is unhandled, or has one respawn pending, or nothing |
| SupervisorRuns.AtMostOneAlive | runtime/src/subprocess.ts:176-304 | so two subprocesses of a slug never run together |
| SupervisorRuns.DeadForever | runtime/src/subprocess.ts:437-510 | a slug with nothing left is never started again |
| SupervisorRuns.NoSpawnAfterQuarantine | runtime/src/subprocess.ts:449-462 | none is started after the fifth crash of a window, whatever the record says later |
| SupervisorRuns.NoRespawnAfterStopAll | runtime/src/subprocess.ts:347-356 | none is started or scheduled after stopAll, in every continuation of every run |
| SupervisorRuns.RespawnsAreRare | runtime/src/subprocess.ts:62-90 | at most four respawns of a slug are scheduled in any ten minutes, and the n-th is due after the n-th delay |
| SupervisorStops.EveryRunIsSound | runtime/src/subprocess.ts:168-510 | in every run the current record of a slug says nothing runs once its exit is handled, is stopped while a respawn is pending, and a quarantined one has nothing left |
| SupervisorStops.StartsLaterIff | runtime/src/subprocess.ts:168-510 | from every state of every run some continuation starts a subprocess of the slug if and only if boot has not spawned it, or a respawn is pending, or its unhandled subprocess is supervised or may still become so through its handshake |
| SupervisorStops.StopPreventsIff | runtime/src/subprocess.ts:308-344 | after stop some continuation starts the slug if and only if it is unbooted, or a respawn is pending, or its unhandled subprocess has a handshake pending that may still succeed, while not shutting down |
| SupervisorStops.QuarantineLastsIff | runtime/src/subprocess.ts:452-461 | over any continuation a quarantined slug still reports it at the end if and only if no step ends its handshake, ends a stop of it or stops it |
| SupervisorStops.StaysQuarantinedIff | runtime/src/subprocess.ts:298-342 | it reports it in every continuation without a new stop if and only if neither its handshake nor an earlier stop of it is still to end |
| SupervisorStops.StopDoesNotCancelRespawn | runtime/src/subprocess.ts:308-312 | a reachable state with a respawn pending, in which stop changes nothing and after which the slug is started |
| SupervisorStops.StopDuringHandshakeCanRespawn | runtime/src/subprocess.ts:303-314 | a reachable state whose handshake is pending: stop leaves the record stopping with no timer, and yet a continuation starts the slug |
| SupervisorStops.QuarantineIsOverwritten | runtime/src/subprocess.ts:298-298 | a reachable quarantined state that the end of the failed handshake turns into stopped, while the tracker still says quarantine |
| FileTree.Volume.Rename | apps/desktop/src/runtime-backup.ts:237-240 | moves a subtree, or fails and changes nothing |
| FileTree.Volume.Rm | apps/desktop/src/runtime-backup.ts:255-256 | removes a subtree; a failure may leave any part of it |
| BackupCopy.CopyDirExcluding | apps/desktop/src/runtime-backup.ts:92-121 | terminates, and succeeds exactly when no call fails, the source is a directory and nothing is in the way; then it has copied exactly the directories, files and links, less the excluded directory; the rest of the volume is untouched, also on failure |
| BackupCopy.ChildDisjoint | apps/desktop/src/runtime-backup.ts:99-106 | source and destination stay apart in each recursive call |
| FileTree.CopiedPaths | apps/desktop/src/runtime-backup.ts:92-121 | a path is in a copy if and only if it is in the original with no socket, fifo or device on the way, with the same file or link there |
| RuntimeBackup.SnapshotPaths | apps/desktop/src/runtime-backup.ts:141-167 | so for the paths of a snapshot below data and config outside of backups |
| RuntimeBackup.SnapshotHasNoBackups | apps/desktop/src/runtime-backup.ts:148-167 | and no path below config/backups is in one |
| RuntimeBackup.CreatePreUpdateBackup | apps/desktop/src/runtime-backup.ts:132-180 | succeeds exactly when no call fails, data is a directory if it is there, and neither the way to the backups nor the name is taken; then the new snapshot is the trees at the call and nothing else changed; on failure at most an empty config or backups directory and a partial folder are new, and that goes unless its removal fails |
| BackupRestore.StashLive | apps/desktop/src/runtime-backup.ts:237-239 | the two stash renames, when they succeed, and what each failure leaves |
| BackupRestore.Materialize | apps/desktop/src/runtime-backup.ts:241-245 | both copies out of the stash, when they succeed, and what each failure leaves |
| BackupRestore.MoveBackupsOver | apps/desktop/src/runtime-backup.ts:247-253 | the backups move into the new config, exactly when the rename does not fail and finds nothing in its way, or nothing changes |
| BackupRestore.DropStashes | apps/desktop/src/runtime-backup.ts:255-256 | both removals, and what each failure leaves |
| BackupRestore.RollBack | apps/desktop/src/runtime-backup.ts:257-266 | what the catch block makes of any state it starts from; it fails only with one of its calls |
| BackupRestore.RestorePreUpdateBackup | apps/desktop/src/runtime-backup.ts:198-276 | refused without a change; else restored exactly when no call fails, no stash name is taken, the snapshot holds two directories and its config has no backups of its own; else failed at a step with exactly that step's rollback, which is exact exactly for a failed copy or backups move with unused stash names |
| BackupRestore.RestoredTrees | apps/desktop/src/runtime-backup.ts:241-256 | what a restore leaves, for any snapshot: the copies of its data and config, the current backups in the latter, no stash, and everything beside them as it was |
| BackupRestore.RollbackIsExact | apps/desktop/src/runtime-backup.ts:257-266 | a failed copy or backups move is undone exactly |
| BackupRestore.RollbackAfterStashFailure | apps/desktop/src/runtime-backup.ts:237-265 | after a failed stash rename the catch block removes the trees not yet stashed, and what had the name of their stash, if anything, takes their place |
| BackupRestore.RollbackAfterDropFailure | apps/desktop/src/runtime-backup.ts:255-256 | a failed stash removal loses the backups and puts back what the removal left |
| BackupRestore.RollbackExactIff | apps/desktop/src/runtime-backup.ts:237-275 | with a backups directory the rollback is exact if and only if the failed step is a copy or the backups move and nothing had the name of a stash |
| BackupRestore.CreateThenRestore | apps/desktop/src/runtime-backup.ts:123-131 | a snapshot restored at any later state gives data and config as they were and keeps the whole current backups subtree |
| BackupRestore.SnapshotIsWhole | apps/desktop/src/runtime-backup.ts:99-120 | without sockets, fifos and devices the snapshot is the trees themselves; a missing data becomes empty |
| BackupRestore.CleanTwice | apps/desktop/src/runtime-backup.ts:99-120 | copying a copy changes nothing |
| BackupNames.NameRoundTrip | apps/desktop/src/runtime-backup.ts:58-74 | parsing the name of any millisecond of the years 0000 to 9999 gives it back |
| BackupNames.NameForm | apps/desktop/src/runtime-backup.ts:55-60 | the text of a name: the seven fields in decimal, each in its place, with hyphens between |
| BackupNames.TimeOfName | apps/desktop/src/runtime-backup.ts:55-60 | the fields are the date and the time of day of the millisecond |
| BackupNames.DaysFollow | apps/desktop/src/runtime-backup.ts:68-74 | dates are numbered from 1970-01-01, one day after the other through the months and years |
| BackupNames.NameOrderIsTimeOrder | apps/desktop/src/runtime-backup.ts:55-60 | names are in text order exactly as their times |
| BackupNames.PartialIsNoBackup | apps/desktop/src/runtime-backup.ts:63-63 | a partial folder's name never parses |
| BackupRotation.ListPreUpdateBackups | apps/desktop/src/runtime-backup.ts:282-315 | throws exactly when the backups directory is there and cannot be read; otherwise exactly the directories with a backup name, newest first |
| BackupRotation.RotateBackups | apps/desktop/src/runtime-backup.ts:322-345 | a negative keep is refused, an unreadable listing throws; otherwise the reported removals are those whose call did not fail, among the backups after the keep newest; the rest of the volume is as it was |
| BackupRotation.KeepsTheNewest | apps/desktop/src/runtime-backup.ts:333-343 | when every stale backup is reported exactly the keep newest are left |
| BackupRotation.QuietRotation | apps/desktop/src/runtime-backup.ts:336-344 | so whenever no removal fails |
| BackupRotation.ReportedAreGone | apps/desktop/src/runtime-backup.ts:335-344 | what is reported is gone, what is not is still there |
| DeployCopy.MeasureCopyBytes | apps/desktop/src/plugin-dev-deploy.ts:291-324 | terminates; over budget exactly when the shipped files, less those in directories that cannot be listed, total more than the budget, otherwise that total |
| DeployCopy.ScannedPaths | apps/desktop/src/plugin-dev-deploy.ts:294-311 | what the scan sees: the paths that ship with no directory on the way that cannot be listed |
| DeployCopy.ShippedPaths | apps/desktop/src/plugin-dev-deploy.ts:208-236 | a path ships if and only if no name on it is one of the five excluded or ends in .db, .db-wal or .db-shm and nothing on it below the root is a link; files ship unchanged |
| DeployCopy.FileAddsItsLength | apps/desktop/src/plugin-dev-deploy.ts:315-320 | a total moves with the length of each file |
| DeployCopy.NoFileNoBytes | apps/desktop/src/plugin-dev-deploy.ts:315-320 | and is zero where there is none |
| DeployCopy.TotalLess | apps/desktop/src/plugin-dev-deploy.ts:302-320 | a total is the same in every order of the entries |
| PluginDeploy.HostedServer.Sweep | apps/desktop/src/plugin-dev-deploy.ts:213-218 | stale scratch folders of every slug go, unless a removal fails; the plugin folders stay |
| PluginDeploy.HostedServer.Stage | apps/desktop/src/plugin-dev-deploy.ts:210-246 | the whole shipped tree staged as the only scratch folder, or no plugin folder changed; which of the two, read off the calls that fail |
| PluginDeploy.HostedServer.MakeRoom | apps/desktop/src/plugin-dev-deploy.ts:460-461 | the old folder is moved aside, or the step that failed and nothing changed |
| PluginDeploy.HostedServer.MoveNewIn | apps/desktop/src/plugin-dev-deploy.ts:462-463 | the new tree in place and the backup gone; or the rename failed and nothing changed; or only the removal failed and the new tree is in place |
| PluginDeploy.HostedServer.RestoreSwap | apps/desktop/src/plugin-dev-deploy.ts:464-473 | the catch block: the old folder is put back unless the new tree is in place or the compensating rename fails |
| PluginDeploy.HostedServer.Swap | apps/desktop/src/plugin-dev-deploy.ts:459-476 | the new tree in place, or the step that failed and whether the old folder was put back, read off the calls that fail, with the state each leaves |
| PluginDeploy.HostedServer.WriteServerJson | apps/desktop/src/plugin-dev-deploy.ts:183-203 | written whole or not at all |
| PluginDeploy.HostedServer.InstallFiles | apps/desktop/src/plugin-dev-deploy.ts:444-498 | the outcome with its failing step, read off the calls that fail, on any volume; the state it ends in, and the state after every call; no scratch folder stays behind unless a removal fails |
| PluginDeploy.HostedServer.Deploy | apps/desktop/src/plugin-dev-deploy.ts:351-499 | the same from the size check on, with the exact condition of each refusal; a success leaves the shipped tree in the folder of the slug, the slug registered and the other plugins as they were |
| PluginDeploy.ExactlyRestoredIff | apps/desktop/src/plugin-dev-deploy.ts:452-498 | a failed deploy leaves exactly what it found if and only if it failed before the new tree was in place and the compensating rename did not fail, or the new tree equals the old one |
| PluginDeploy.FailingRuns | apps/desktop/src/plugin-dev-deploy.ts:459-497 | for any server and plugin, a run for each of the three failures that do not restore: the removal of the backup, the registration, the compensating rename |
| PluginDeploy.HostedServer.Undeploy | apps/desktop/src/plugin-dev-deploy.ts:604-673 | the registration goes before the files; the outcome, read off the calls that fail; nothing changes when it cannot be written |
| PluginDeploy.UnregisteredSpec | apps/desktop/src/plugin-dev-deploy.ts:632-634 | the slug goes wherever it is registered and the others stay, in their order and as often |
| PluginDeploy.RegisteredSpec | apps/desktop/src/plugin-dev-deploy.ts:481-485 | those registered before and the slug, once each, in the order of their first occurrence |
| LifecycleLock.Lock.TryAcquire | apps/desktop/src/server-lifecycle-lock.ts:24-28 | succeeds exactly when the server is not held; held afterwards |
| LifecycleLock.Lock.Release | apps/desktop/src/server-lifecycle-lock.ts:30-32 | not held afterwards, the others as before |
| LifecycleLock.OneOperationPerServer | apps/desktop/src/server-lifecycle-lock.ts:36-46 | in every interleaving at most one operation runs for a server, and a server is held exactly while one does |
| DeployRuns.Perform | apps/desktop/src/plugin-dev-deploy.ts:351-499 | every call of a deploy or an undeploy is a step from its start, and the last one leaves the final state; there is a call exactly when no check turns the operation away |
| DeployRuns.PerformLocked | apps/desktop/src/plugin-dev-deploy.ts:330-349 | busy exactly when held, then nothing changes; the lock ends as it was |
| DeployRuns.HoleIffStrandingCall | apps/desktop/src/plugin-dev-deploy.ts:460-467 | the old folder is moved aside with nothing in its place exactly after the rename aside, a rename into place that failed, or a compensating rename that failed |
| DeployRuns.SafeIffNotStranded | apps/desktop/src/plugin-dev-deploy.ts:453-476 | after a call every registered dev slug has a whole folder if and only if the call is not one of those in a deploy of a registered slug |
| DeployRuns.RunIsSafe | apps/desktop/src/plugin-dev-deploy.ts:330-499 | over every run of deploys and undeploys with failures and deaths elsewhere, each container start finds every registered dev slug with a whole tree |
| DeployRuns.BackupIsGone | apps/desktop/src/plugin-dev-deploy.ts:213-218 | after each call from the copy on of a deploy that began where a slug was stranded, the old tree of that slug is neither in its folder nor in the backup |
| DeployRuns.DeployAfterStranding | apps/desktop/src/plugin-dev-deploy.ts:210-246 | so for the calls of an actual deploy, of any plugin, from a stranded state |
| RuntimeReleases.CompareNumericTriple | apps/desktop/src/runtime-releases.ts:70-79 | the loop is the comparison of the three parts, NaN included |
| RuntimeReleases.ComparePreRelease | apps/desktop/src/runtime-releases.ts:81-103 | the loop is the comparison of the identifiers |
| RuntimeReleases.CompareVersions | apps/desktop/src/runtime-releases.ts:52-62 | the comparison of main part and pre-release |
| RuntimeReleases.ComparisonIsPrecedence | apps/desktop/src/runtime-releases.ts:47-51 | on accepted versions the sign is the precedence of section 11 of Semantic Versioning 2.0.0 |
| RuntimeReleases.ComparisonIsTotalPreorder | apps/desktop/src/runtime-releases.ts:52-103 | antisymmetric, transitive, total and never NaN on accepted versions |
| RuntimeReleases.EqualUpToZeros | apps/desktop/src/runtime-releases.ts:70-103 | two accepted versions compare equal if and only if they differ in leading zeros of numeric identifiers only |
| RuntimeReleases.ChannelsAreLanes | apps/desktop/src/runtime-releases.ts:105-117 | no version is on two channels |
| RuntimeReleases.WellformedIff | apps/desktop/src/runtime-releases.ts:113-113 | a version is accepted if and only if it is three numbers and, behind a dash, a nonempty pre-release part |
| RuntimeReleases.MatchesIff | apps/desktop/src/runtime-releases.ts:109-117 | an accepted version is on a lane if and only if it ends in it, with or without a number behind; on stable if and only if it has no dash |
| RuntimeReleases.DocumentedIff | apps/desktop/src/runtime-releases.ts:18-22 | an admitted version fits the documented pattern if and only if its pre-release has no further dash |
| RuntimeReleases.DashedLane | apps/desktop/src/runtime-releases.ts:113-116 | an admitted version that does not fit it |
| RuntimeReleases.StripRuntimeTag | apps/desktop/src/runtime-releases.ts:122-127 | the version behind the prefix when it is accepted, else nothing |
| RuntimeReleases.CandidateIffOffered | apps/desktop/src/runtime-releases.ts:187-197 | the candidates are the versions published on the channel |
| RuntimeReleases.ResolveLatestVersion | apps/desktop/src/runtime-releases.ts:144-205 | an error exactly for a failed fetch, status, body or shape; otherwise a greatest published version of the channel unless it is at most the current one |
| RuntimeReleases.UpdateIffNewer | apps/desktop/src/runtime-releases.ts:199-204 | with an accepted current version something is returned if and only if something newer is published |
| Precedence.BelowConnected | apps/desktop/src/runtime-releases.ts:47-51 | the precedence orders any two different versions one way |
| Precedence.BelowTransitive | apps/desktop/src/runtime-releases.ts:47-51 | and is transitive |
| Migrations.AcceptedIff | runtime/src/migrations.ts:157-175 | sorting and checking by index accepts exactly the listings whose numbers are 1 to n |
| Migrations.DifferentNumbers | runtime/src/migrations.ts:160-175 | in an accepted listing different files have different numbers |
| Migrations.ParsesIffSpelled | runtime/src/migrations.ts:139-155 | a file name has number n if and only if it is a decimal of n, an underscore, a text and .sql |
| Migrations.CheckListing | runtime/src/migrations.ts:139-175 | accepted with its plan, or the first offending file in the order of the check |
| Migrations.Database.ApplyMigration | runtime/src/migrations.ts:185-193 | script and row together, exactly when the transaction does not fail and the number is new, or neither |
| Migrations.Database.ApplyPending | runtime/src/migrations.ts:195-226 | the files above the highest applied number in order, exactly when no call fails and each can be read; otherwise those before the one named |
| Migrations.Database.RunMigrations | runtime/src/migrations.ts:73-227 | success exactly when no call fails and the listing is absent, or accepted with its pending files readable; what each result says about the database |
| MigrationRuns.AttemptTracks | runtime/src/migrations.ts:111-227 | any attempt over a grown directory leaves the first m scripts of a plan applied |
| MigrationRuns.AppliedOnceInOrder | runtime/src/migrations.ts:157-226 | after any attempts the table is 1 to m, and exactly those scripts have run, once each and in order |
| MigrationRuns.FailuresThenSuccess | runtime/src/migrations.ts:177-226 | failures followed by a success leave what one clean run leaves |
| Usernames.CanonicalIff | apps/central/src/usernames.ts:99-124 | validation returns a name unchanged exactly for 3 to 20 characters of the charset that are not reserved |
| Usernames.AcceptedIsCanonical | apps/central/src/usernames.ts:99-124 | whatever validation returns it would return again |
| Usernames.ValidationIs | apps/central/src/usernames.ts:99-124 | surrounding white space and case do not matter; which answer is given in each case |
| Usernames.DeriveUsernameFromEmail | apps/central/src/usernames.ts:136-151 | a derived name is 3 to 20 characters of the charset and starts with no underscore |
| Usernames.DerivedIs | apps/central/src/usernames.ts:136-151 | it is the words of the lower-cased local part with one underscore between them, cut after 20 characters, and none when that is shorter than 3 |
| Usernames.EveryTextHasPieces | apps/central/src/usernames.ts:140-148 | every text is made of such words and of gaps |
| Usernames.Base | apps/central/migrations/001-username.ts:86-96 | the search starts at a name validation accepts |
| Usernames.BaseIs | apps/central/migrations/001-username.ts:86-96 | the derived name, with _1 when it is reserved, or user and the first eight digits of the UUID |
| Usernames.CandidateIs | apps/central/migrations/001-username.ts:107-110 | a candidate is the base and the number behind an underscore, the base cut where the whole would pass 20 |
| Usernames.CandidateIsCanonical | apps/central/migrations/001-username.ts:107-111 | so is every suffixed candidate |
| Usernames.CandidatesDiffer | apps/central/migrations/001-username.ts:107-110 | different suffix numbers give different candidates, also when the base is cut |
| Usernames.TakenIsLarge | apps/central/migrations/001-username.ts:107-116 | when all candidates up to a number are taken, that many names are |
| Usernames.Taken.PickUsername | apps/central/migrations/001-username.ts:86-117 | the first free candidate, reserved in the shared set; an error exactly when all are taken, and then at least 9,998 names are |
| UsernameBackfill.Accounts.Backfill | apps/central/migrations/001-username.ts:144-185 | row by row each account gets the first candidate that was free when its turn came, a name validation returns unchanged; no two names collide and existing ones stay; it stops only where an update fails or all candidates are taken, which cannot be while names and rows are at most 9,998 |
| LiveSurfaces.Desktop.RestackLiveSurfaces | apps/desktop/src/main.ts:1983-1996 | the loop of move-to-top steps |
| LiveSurfaces.Desktop.CapturePopup | apps/desktop/src/main.ts:883-896 | a new view on top of the main window, hidden |
| LiveSurfaces.Desktop.OpenFromLiveView | apps/desktop/src/main.ts:707-719 | a new view straight in a popout of its own |
| LiveSurfaces.Desktop.CreateLiveSurface | apps/desktop/src/main.ts:2006-2033 | a new view in the main window, restacked |
| LiveSurfaces.Desktop.CreateLiveSurfacePopout | apps/desktop/src/main.ts:2038-2115 | the view moves to a new mapped window and counts as visible in main no more |
| LiveSurfaces.Desktop.ClaimDockLiveSurface | apps/desktop/src/main.ts:2145-2167 | true exactly for a living view, which is then docked, hidden and restacked |
| LiveSurfaces.Desktop.SetBounds | apps/desktop/src/main.ts:2940-2958 | ignored while popped out; otherwise the view is on show, and counts as visible, as reported |
| LiveSurfaces.Desktop.Release | apps/desktop/src/main.ts:2995-3005 | ignored while popped out; otherwise the view is gone from main and the others stay |
| LiveSurfaces.Desktop.Reload | apps/desktop/src/main.ts:1236-1245 | all views that are not popped out go |
| LiveSurfaces.Desktop.Closed | apps/desktop/src/main.ts:2106-2115 | a window that is still mapped takes its view along, any other nothing |
| SurfaceRuns.RestackEstablishesOrder | apps/desktop/src/main.ts:1976-1996 | whatever the order was, the loop leaves the living docked views ascending by surfaceId on top and changes nothing else |
| SurfaceRuns.StepKeepsInv | apps/desktop/src/main.ts:1998-2167 | each step keeps one owner per living view, the visible set and the stacking order |
| SurfaceRuns.OwnersAndVisibility | apps/desktop/src/main.ts:140-157 | after any steps a living view is in exactly one window, its mapped popout or main; popped-out ones are shown there and never count as visible in main |
| SurfaceRuns.LastReportDecides | apps/desktop/src/main.ts:2940-2958 | over every run the last report or docking of a docked view decides: it is on show, and counts as visible, if and only if that was a report of visible |
| SurfaceRuns.ParkedIsHidden | apps/desktop/src/main.ts:2006-2033 | a new view is hidden until such a step |
| SurfaceRuns.StackedBySurfaceId | apps/desktop/src/main.ts:1976-1982 | after any steps the larger surfaceId is on top |
| SurfaceRuns.StaleWindowsAreEmpty | apps/desktop/src/main.ts:2106-2115 | a window holds a living view only while it is mapped to it, so closing it costs that view or none |
| SurfaceRuns.SecondPopoutOrphansTheFirst | apps/desktop/src/main.ts:2038-2042 | popping out a popped-out view leaves its first window open, empty and unmapped |

## Left out

- Cryptography, SQL, HTTP, Docker, Electron: a key decrypts under the secret it was made with, a
  statement changes the table at once, a window or a file call is one step that may fail.
- Floating point: tokens, rates and times are reals and integers; numbers above 2^53 in versions and
  file names are exact here.
- Text encodings: strings are sequences of characters; lower-casing is a parameter that leaves
  a-z, 0-9 and _ alone.
- Multiplicity of clocks: processes and database share one clock that never runs back.
- Signing: a token's ten minutes run from the moment its key was read, and the database's answers to
  `now()` inside one transaction are equal.
- Plugin manifests: `validateManifest`, version ranges and the service registry are parameters of the
  host.
- Subprocess messages, logs, unload callbacks and the wait for the exit after a signal; SIGKILL is
  an exit that happens at some time.
- Permissions, ownership, times and hard links of files; `fs.access` answers what is there and never
  fails for another reason; paths are lists of names, so `path.resolve` is the identity.
- A top-level `data` or `config` that is a link: the model's live trees are directories.
- Concurrent writers to a volume during a backup, a restore or a deploy.
- Health probe, container start and stop, manifest checks, progress reports and the removal of a
  plugin's data in deploy and undeploy: they do not touch the plugin folders or registrations.
- Other writers of server.json: the file read at the start of a deploy is still current when it is
  written.
- Single entries whose `lstat` fails in the size scan or the copy; directories that cannot be listed
  are passed over by the scan, as in the source.
- Pages of the release listing after the first hundred entries.
- Migration scripts that change the tracking table, and the failure of the query for the highest
  number, which the source lets escape.
- Stages 1, 2, 4 and 5 of the username migration: the backfill states what stages 4 and 5 need.
- Bounds, titles, URLs, crash reloads and the repaint kick of live surfaces, and the time after the
  main window is closed.
- Settle-once wrappers, provisioning, OAuth, screen share, templates and route handlers: a few
  branches each, so they would only add easy members.
- SigningKeyProtocol.TokenVerifiesIff: asks that the rows served were read at most 60 s ago, where
  the code counts from the end of the query, because SlowQueryCanMissRotatedKey shows that the claim
  is false otherwise; VerifiesIff says what holds for rows of any age.
- SigningKeys.Process.EnsureSigningKey: composes its steps with nothing between them; the runs of
  SigningKeyProtocol interleave the steps. The insert and its sync bump are one step.
- SigningKeyProtocol.RunKeepsInv: every process runs under the same secret, and none without one.
- RateLimiter.RateBound: is about the limiter without eviction, because an evicted per-hour bucket
  exceeds the bound; RateBoundInUse states it with eviction for keys that stay in use.
- SupervisorRuns.RunKeepsInv: no step has a deadline, where the source gives a handshake 30 s and a
  stop 5 s before SIGKILL, so the runs cover more than there are.
- SupervisorStops.StopPreventsIff: for the same reason counts a continuation in which the subprocess
  takes longer to exit after `stop` than SIGKILL would leave it.
- DeployCopy.MeasureCopyBytes: the whole folder is assumed to be a directory, as the caller resolves it.
- UsernameBackfill.Accounts.Backfill: distinct names are stated for ids that are UUIDs, which the
  column's type makes them.
- RuntimeReleases.UpdateIffNewer: asks for an accepted current version; for any other the contract of
  ResolveLatestVersion says what is returned, a comparison with NaN included.
