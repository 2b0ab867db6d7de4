# Resync engine: models and proofs

Dafny models of the decision-and-state core of the legacy-to-Postgres resync engine
(`apps/resync-worker`), of the one-shot member dedup that seeded it (`scripts/migrate-members.ts`), and
of the CSV journal and the CSV reader. SQL and ORM calls are reads and guarded updates of maps and
sequences. Code that works in place is a class or a method with loops, proved against a reference
definition; protocols with several actors are state machines over their steps, proved over every
behaviour.

| file | models |
|---|---|
| `Redirects.dfy` | redirect flattening over an arbitrary functional graph |
| `UnionFind.dfy`, `Dedup.dfy` | union-find with path halving, clusters, winners, phones |
| `Watermark.dfy`, `SyncProtocol.dfy`, `KeysetScan.dfy`, `ChunkedScan.dfy` | watermark fold, floors, no lost update over all runs of both kinds of scan, keyset paging, scans by id chunks |
| `WorkerPool.dfy`, `RunLock.dfy` | the worker pool and the TTL run-lock under any interleaving |
| `InviterRules.dfy`, `InviterGraph.dfy`, `InviterRounds.dfy`, `InviterProvenance.dfy` | inviter decisions, the cycle check, idempotent rounds, who may overwrite whom |
| `EnrollmentRules.dfy`, `Enrollments.dfy`, `EnrollmentTerms.dfy`, `EnrollmentAccess.dfy` | enrollment state machine against an entitlement statement: who is cancelled, which row holds a pair, until when |
| `EnrollmentRuns.dfy`, `EnrollmentOrder.dfy` | the same with rows interleaved |
| `IdentityRules.dfy`, `MemberTables.dfy`, `EnsureMember.dfy`, `EnsureRuns.dfy` | member identity, adoption, lazy creation while the app writes, and with calls interleaved |
| `Csv.dfy`, `ChangeLog.dfy` | CSV round trip (section 2 of RFC 4180), the buffered journal |
| `AffiliateCodes.dfy`, `Kyc.dfy` | affiliate-code namespace, KYC authority per cluster |

`dafny verify dfyconfig.toml` checks the whole project.

## Assumptions

- Dates are integer milliseconds on one monotone clock; legacy watermarks are non-null and after the epoch.
- A legacy change becomes visible within some `delay` of the watermark it carries. This is all that is assumed of the
  legacy side; it also covers whole-second timestamps. `SyncProtocol.SafeLag` says which delays `watermarkLagSec` covers.
- Primary keys are positive. `SyncProtocol.FreshTargetIsSafe` shows that an empty target meets the starting condition
  of the protocol, and `MemberTables.QuietDbExists` that the assumptions on the database can be met.
- One run at a time writes (what the run-lock is for); an operator's manual unlock is not part of the lock proofs.
- An inviter check and its write are one step, which is what a write concurrency of one gives. The
  provenance results do not need this: there reads and writes interleave freely.
- Primary keys and unique columns are unique; `course_enrollment.status` is 0 or 1.
- No process other than the running one sets `legacyId` while it runs; the app may change everything else.

## Where the code does not do what its comments promise

- `types.ts:66-67` says a checkpoint never crosses an unscanned `--since` gap. With no stored watermark
  `gapFloor` is null (`core.ts:176-177`), so a first run with `--since` checkpoints past rows it never
  scanned. `SyncProtocol.SafeStart` is the exact condition: `NoLostUpdate` proves it sufficient,
  `UnsafeStartLoses` builds a losing run for every violation of it.
- What the lag is for, and how much of it is enough (`util.ts:144-150`): the keyset loop, which includes its bound,
  loses nothing if and only if the delay is at most the lag; the scans with a plain `>` if and only if it is less
  (`NoLostUpdate`, `LateCommitLoses`). With `watermarkLagSec` 0 the latter lose a row that becomes visible in the
  very millisecond of the checkpoint.
- The lock is safe if and only if no statement stays under way longer than the TTL (`AtMostOneOwner`,
  `LateStatementBreaksLock`).
- A second tree-then-connect round changes a subject's inviter in exactly one case (`SecondRoundChangesIff`): an
  owned connect is undone, which hands the link back to the tree, and the tree would write somebody else than the
  parent put back. A third round never changes anything. The passes read the same rows by two queries without a
  tie-break; rows tying for the newest with different parents bring the case about (`TiedRowsUnsettle`), and without
  such ties it cannot arise, in whatever order and above whatever bound the rows are read (`ScannedRoundIdempotent`).
- `adopt-rules.ts:7` says an adopt never downgrades the member. The plan is made on the row as read and the update is
  unconditional (`ensure-member.ts:191`), so what the app fills in between is replaced (`AdoptCanReplaceName`).
  `TakenRowPreservedIff` is the exact condition.
- `adopt-rules.ts:53-54` says a verification only follows a key that matches. It is decided on the row as read as well:
  an email the app changes in between comes out verified (`RacedEmailIsVerified`). `TakenRowVerifiesOwnKeysIff` is the
  exact condition.
- With calls interleaved, two legacy ids that match one placeholder can both adopt it, the second replacing the first
  id on the row (`RivalAdoptsRestamp`, `RivalsExist`). This is the only way a row's legacy id changes
  (`StampsChangeByAdopt`); the run's other invariants and its answers survive (`PromisesSurvive`, `AnswersStand`).
- A placeholder two of whose columns are contested is not adopted: the retry drops only the reported one
  (`ensure-member.ts:212-234`), and the legacy id becomes unresolvable for the run (`AdoptOutcome`).
- `enrollment-rules.ts:42-46` says a live trial yields to a paid row. The code asks for a row without expiry, paid or
  not (`enrollment-rules.ts:64`); `EnrollmentTerms.Displaces` says what a pair gives way to.
- A refresh updates a pair's expiry but not the claim later rows are decided against (`enrollments.ts:233-237`). A
  trial that had run out and was prolonged in legacy can so lose its new expiry to another row that is over. A live
  pair ends on terms as good as any active row's, whatever the row order, exactly if its own row's change of terms is
  not overlooked (`GoodInAnyOrderIff`, `EnrollmentAccess.Overlooked`).
- Two writes that move one pair, under way at once, can land in the other order than they were decided in, and the
  buyer keeps the trial (`LateWriteKeepsTrial`). As long as writes of a pair do not overlap the terms are those of a
  scan, however else the rows interleave (`InterleavedTerms`). Who is cancelled never depends on it
  (`InterleavedScanEntitles`).
- Appended journal rows are read back exactly when the file's last row is finished (`AppendableIffFinished`); the
  journal itself does not look (`change-log.ts:120-124`).
- `commission` depth is four levels, so the cycle query lets a cycle of six through (`LongerCyclesPass`).

## Model

| member | source | states |
|---|---|---|
| Redirects.WalkFrom | apps/resync-worker/src/util.ts:36-54 | the inner walk ends, and the terminal it returns is what every node on its path stands for: the node without an outgoing edge, or the smallest node of the cycle reached |
| Redirects.FlattenRedirects | apps/resync-worker/src/util.ts:32-59 | for every graph, the keys are the raw keys that do not stand for themselves (cycle minima dropped) and each maps to its representative |
| Redirects.RepresentativeUnique | apps/resync-worker/src/util.ts:22-31 | a node has exactly one representative |
| Redirects.FlatteningUnique | apps/resync-worker/src/util.ts:32-59 | the result does not depend on the map's iteration order |
| Redirects.ResolveIdempotent | apps/resync-worker/src/core.ts:91-95 | no resolved id is a key of the table, so resolving twice is resolving once |
| Redirects.EdgeEndsAgree | apps/resync-worker/src/util.ts:22-31 | both ends of a raw edge resolve to the same id |
| Redirects.ResolveAlikeIffConnected | apps/resync-worker/src/util.ts:22-31 | two ids resolve alike exactly when some node is reachable from both |
| Redirects.FlattenTwice | apps/resync-worker/src/util.ts:32-59 | flattening a flat table changes nothing |
| UnionFind.DSU.Find | scripts/migrate-members.ts:234-240 | path halving ends at the root and changes nobody's representative |
| UnionFind.DSU.Union | scripts/migrate-members.ts:241-243 | exactly the two classes are merged |
| UnionFind.ChainEnds | scripts/migrate-members.ts:229-244 | representatives are those of the array: following parents arrives there and stays |
| Dedup.BetterIsLexicographic | scripts/migrate-members.ts:246-261 | the ranking is the lexicographic order of eight keys |
| Dedup.BetterIsStrictTotalOrder | scripts/migrate-members.ts:246-261 | irreflexive, asymmetric, transitive, total on distinct ids |
| Dedup.ClusterByEmail | scripts/migrate-members.ts:269-280 | after the loop two members share a class iff they are the same or have equal non-empty emails |
| Dedup.Dedup | scripts/migrate-members.ts:268-300 | the inserted members are exactly the settled winners of the set of members, each once, and exactly the losers are redirected, each to its cluster's winner |
| Dedup.AssignPhones | scripts/migrate-members.ts:306-321 | each winner keeps its phone iff no better-ranked winner shares it |
| Dedup.LosersRedirectToOwnWinner | scripts/migrate-members.ts:288-298 | an id is redirected iff it lost, and then to the winner of its own cluster |
| Dedup.WinnersPlusLosers | scripts/migrate-members.ts:268-300 | winners and losers add up to the input |
| Dedup.WinnersShareNothing | scripts/migrate-members.ts:302-305 | emails and phones are pairwise distinct among the inserted members |
| Dedup.PhoneKeptByBestHolder | scripts/migrate-members.ts:306-321 | no number is lost: the best-ranked winner having it keeps it |
| Dedup.InsertedWholeOrPhoneless | scripts/migrate-members.ts:306-321 | a winner is inserted without phone, code and phone verification if a better-ranked winner has its number, and unchanged otherwise |
| Dedup.OutcomeIgnoresOrder | scripts/migrate-members.ts:268-321 | winners and redirects depend on the set of members only |
| Watermark.WatermarkTracker.Failed | apps/resync-worker/src/util.ts:84-89 | a failure counts as seen and lowers the floor |
| Watermark.ResultIsGreatestAllowed | apps/resync-worker/src/util.ts:61-97 | the checkpoint is the greatest value not past the run start, at least a second below every failure and not past everything seen; absent iff nothing was scanned |
| Watermark.ResultIgnoresOrder | apps/resync-worker/src/util.ts:74-97 | rows may settle in any order |
| Watermark.SyncState.Checkpoint | apps/resync-worker/src/core.ts:174-219 | in a run that is not dry and owns the lock the value is stored, unless `--since` is past what was stored at the start and the value is too, or both are before it; then, and without lock, the row is unchanged |
| Watermark.GateMeaning | apps/resync-worker/src/core.ts:174-182 | the two floors hold back exactly those values |
| Watermark.FloorsHold | apps/resync-worker/src/core.ts:174-182 | over all checkpoints of a run, a newer `--since` never advances the stored watermark and an older one never rewinds it |
| Watermark.LastCheckpointStays | apps/resync-worker/src/core.ts:198-219 | after any checkpoints of a run the last one not held back is stored, or what was stored if all were |
| SyncProtocol.NoLostUpdate | apps/resync-worker/src/core.ts:171-219 | for paged and for chunked scans, over every sequence of runs, commits, deletes, failures, crashes, resets and safe `--since` starts, the next scan selects every unsettled version |
| SyncProtocol.UnsafeStartLoses | apps/resync-worker/src/core.ts:173-177 | whenever the start guard fails there is a fault-free run that loses a row |
| SyncProtocol.LateCommitLoses | apps/resync-worker/src/util.ts:144-153 | whenever the lag does not cover the delay there is a fault-free run that loses a row, for both kinds of scan |
| SyncProtocol.FreshTargetIsSafe | apps/resync-worker/src/util.ts:151-153 | an empty target is a state the protocol may start in |
| SyncProtocol.RowFolded | apps/resync-worker/src/syncers/enrollments.ts:133-137 | a row lifts the checkpoint to the greatest watermark it carries, its payments' included, and a failure holds it below its own |
| KeysetScan.RunSyncer | apps/resync-worker/src/syncers/commissions.ts:135-164 | visits each row at or above the bound exactly once in (watermark, id) order, ends despite ties, and checkpoints the fold so far after each page |
| KeysetScan.StoredMeaning | apps/resync-worker/src/core.ts:198-219 | what such a run leaves stored is the last of its checkpoints that is not held back; a dry run stores nothing |
| KeysetScan.CheckpointMeaning | apps/resync-worker/src/util.ts:61-97 | the checkpoint after a page is the greatest value not past the run start, a second below every failed row and not past all visited rows |
| KeysetScan.EnumerationUnique | apps/resync-worker/src/syncers/commissions.ts:140-148 | only one list of rows is that enumeration |
| KeysetScan.PageIsAscending | apps/resync-worker/src/syncers/commissions.ts:140-148 | a page is the ascending initial segment of the rows after the cursor |
| KeysetScan.PageIsLegalFetch | apps/resync-worker/src/syncers/commissions.ts:140-163 | each page of the loop is a fetch the protocol allows |
| KeysetScan.ScanReachesEveryUnsettled | apps/resync-worker/src/syncers/commissions.ts:132-164 | a run from the stored watermark on a table at rest visits every unsettled version, ties with the watermark included, also with lag 0 |
| ChunkedScan.RunChunked | apps/resync-worker/src/syncers/members.ts:62-163 | visits each listed row above the bound exactly once, whatever the chunk size and row order, and checkpoints once at the end |
| ChunkedScan.CheckpointMeaning | apps/resync-worker/src/util.ts:61-97 | the same for the checkpoint after the last chunk |
| ChunkedScan.ChunkIsLegalFetch | apps/resync-worker/src/syncers/tree.ts:139-148 | each chunk of the loop is a fetch the protocol allows |
| WorkerPool.InFlight | apps/resync-worker/src/util.ts:170-179 | at most `limit` indices in flight, no two with the same worker, in every interleaving |
| WorkerPool.EveryIndexOnce | apps/resync-worker/src/util.ts:170-179 | when all workers have returned each index was taken once and its callback settled |
| WorkerPool.NeverStuck | apps/resync-worker/src/util.ts:170-179 | until then some worker can move |
| WorkerPool.RunsEnd | apps/resync-worker/src/util.ts:165-180 | a behaviour has at most two steps per index and one per worker, the smaller of limit and items, and exactly so many when all workers have returned |
| RunLock.LockRow.AcquireLock | apps/resync-worker/src/core.ts:44-53 | takes a row that is free or whose stamp is older than the TTL, else leaves it |
| RunLock.LockRow.HeartbeatLock | apps/resync-worker/src/core.ts:68-75 | refreshes the stamp iff the row still carries it |
| RunLock.LockRow.ReleaseLock | apps/resync-worker/src/core.ts:55-61 | clears the row iff it still carries the stamp |
| RunLock.AtMostOneOwner | apps/resync-worker/src/core.ts:44-75 | in every interleaving with delayed statements the row carries at most one process's stamp |
| RunLock.TakenOverForGood | apps/resync-worker/src/core.ts:133-148 | a process that was taken over never owns the row again |
| RunLock.TakenOverWritesNothing | apps/resync-worker/src/core.ts:55-75 | and its heartbeats and its release leave the row as it is |
| RunLock.NoEarlyTakeover | apps/resync-worker/src/core.ts:46-51 | a takeover happens only after the TTL has passed since the last stamp |
| RunLock.OwnedUntilTtl | apps/resync-worker/src/core.ts:208-218 | until the TTL after a successful heartbeat nobody else owns the lock, whatever timer heartbeats are under way, so a checkpoint written by then is the owner's |
| RunLock.LateStatementBreaksLock | apps/resync-worker/src/core.ts:46-51 | if a statement may travel longer than the TTL, two processes can hold one stamp |
| InviterRules.PickInviter | apps/resync-worker/src/syncers/inviter-rules.ts:34-42 | the first ancestor within the bound that is not the subject |
| InviterRules.ResolveInviter | apps/resync-worker/src/syncers/tree.ts:88-107 | collecting ancestors and picking equals climbing past the subject's own nodes at most five times |
| InviterRules.ClimbMeaning | apps/resync-worker/src/syncers/inviter-rules.ts:30-42 | a found inviter is another member, at the stated height, above only the subject's own nodes |
| InviterRules.ClimbFinds | apps/resync-worker/src/syncers/tree.ts:88-107 | the first node of somebody else within five parents settles the climb: its member is found, at that height, or the climb is unresolved |
| InviterRules.ClimbIsSelf | apps/resync-worker/src/syncers/inviter-rules.ts:36-42 | the climb is given up exactly if there is no such node |
| InviterRules.ClimbsThePath | apps/resync-worker/src/syncers/tree.ts:88-107 | along a path of legacy parents, past at most five nodes whose member is the subject, the next node's migrated member is the inviter found |
| InviterGraph.Members.QueryChain | apps/resync-worker/src/syncers/tree.ts:111-118 | the recursive query's rows |
| InviterGraph.WouldCloseMeaning | apps/resync-worker/src/syncers/inviter-rules.ts:44-47 | the check answers yes iff the subject is one of the candidate's first four inviters |
| InviterGraph.CheckIgnoresOwnEdge | apps/resync-worker/src/syncers/tree.ts:110-123 | the check does not depend on the subject's own edge |
| InviterGraph.Members.SyncInviter | apps/resync-worker/src/syncers/tree.ts:193-237 | in a link without source or of LEGACY_PARENT a found inviter is written iff the subject is not among the first four above it; otherwise only a self-inviter is removed; all other links stay |
| InviterGraph.Members.SyncConnect | apps/resync-worker/src/syncers/connect.ts:198-259 | an active connect becomes the link iff it already is, or its edge is old or closes no cycle and the variant lets it; a removed one goes back to a usable parent or is cleared iff it is what it wrote; everything else stays; and the reason given |
| InviterGraph.Members.Correct | apps/resync-worker/src/repair-inviter.ts:129-162 | the link asked for is written unless it is the app's without opt-in, the subject itself, or a new edge within four of the subject; and the outcome reported |
| InviterGraph.CheckedEdgeSafe | apps/resync-worker/src/syncers/tree.ts:110-123 | a checked edge closes no cycle of up to five members |
| InviterGraph.NoShortCycleEver | apps/resync-worker/src/syncers/inviter-rules.ts:7-8 | no cycle of up to five members appears over any sequence of tree, connect and correction steps |
| InviterGraph.LongerCyclesPass | apps/resync-worker/src/syncers/inviter-rules.ts:22-23 | the bound is exact: a cycle of six can be written |
| InviterRounds.RoundIsLink | apps/resync-worker/src/syncers/connect.ts:3-5 | a round rewrites the subject's link only, by checks that ignore that link |
| InviterRounds.SecondRoundChangesIff | apps/resync-worker/src/syncers/connect-rules.ts:65-95 | for both variants and every table, a second round changes inviter or source exactly in the one named case |
| InviterRounds.ThirdRoundChangesNothing | apps/resync-worker/src/syncers/inviter-rules.ts:63-83 | nothing flaps: after two rounds the link is stable |
| InviterRounds.NewestRow | apps/resync-worker/src/syncers/tree.ts:42-55 | the row kept has the greatest watermark, and of those the last position |
| InviterRounds.NewestParent | apps/resync-worker/src/syncers/connect.ts:64-80 | the parent kept is that of the newest row having one |
| InviterRounds.NewestAt | apps/resync-worker/src/syncers/tree.ts:42-55 | the reference for the newest row has the greatest watermark, and of those the last position |
| InviterRounds.NewestSurvives | apps/resync-worker/src/syncers/connect.ts:63-80 | leaving rows out by having a parent or by a bound leaves the newest row, unless it is left out itself |
| InviterRounds.NewestIgnoresOrder | apps/resync-worker/src/syncers/tree.ts:42-55 | the parent found does not depend on the row order if rows tying for the newest agree on it |
| InviterRounds.ScannedRoundIdempotent | apps/resync-worker/src/syncers/tree.ts:139-157 | on the same legacy rows, read by each query in any order, the tree's above the same or a later bound, a second round is a no-op |
| InviterRounds.TiedRowsUnsettle | apps/resync-worker/src/syncers/connect.ts:63-80 | whenever two newest rows lead to different usable inviters there are row orders for which the second round changes the inviter |
| InviterProvenance.AppInviterSurvives | apps/resync-worker/src/syncers/tree.ts:219-230 | an APP inviter at write time is changed only by the app or an opted-in correction, however reads and writes interleave |
| InviterProvenance.TreeNeverNulls | apps/resync-worker/src/syncers/tree.ts:184-190 | the tree never turns an inviter other than the subject into null |
| InviterProvenance.ConnectClearsOnlyWhatItRead | apps/resync-worker/src/syncers/connect.ts:248-259 | a clear lands only on the inviter it was decided on, in an owned row |
| InviterProvenance.LandsIffStillFits | apps/resync-worker/src/syncers/tree.ts:219-230 | a guarded write puts its patch onto its subject iff the row still is what the guard asks, and otherwise changes nothing |
| Enrollments.InvertRedirect | apps/resync-worker/src/syncers/enrollments.ts:311-315 | exactly the losers of each winner |
| Enrollments.CountFindsOthers | apps/resync-worker/src/syncers/enrollments.ts:318-373 | the count over aliases is zero iff no other active row exists for the pair |
| Enrollments.EnrollmentsSyncer.GrantEnrollment | apps/resync-worker/src/syncers/enrollments.ts:180-281 | the effect of a granting row on row and claim of its pair, and none on other pairs |
| Enrollments.EnrollmentsSyncer.CancelEnrollment | apps/resync-worker/src/syncers/enrollments.ts:337-413 | the effect of a lost entitlement, guarded by the row itself |
| Enrollments.ScanKeepsInv | apps/resync-worker/src/syncers/enrollments.ts:132-303 | what any rows seen so far leave of a pair, by what held it at the start |
| Enrollments.ScanEntitles | apps/resync-worker/src/syncers/enrollment-rules.ts:35-91 | after all rows of a pair in any order it is cancelled iff the entitlement statement says so; a new pair exists iff some row is active; new-system rows are untouched |
| EnrollmentTerms.ScanSettles | apps/resync-worker/src/syncers/enrollments.ts:180-281 | a pair moves iff some active row displaces what held it at the start, and then carries id, expiry and progress of an active row with the best terms of these; otherwise only its own row's expiry and progress change; a new pair is the first active row |
| EnrollmentTerms.SettledMeans | apps/resync-worker/src/syncers/enrollment-rules.ts:42-48 | a pair carries the expiry of the active row it names; a trial ends without expiry if another active row has none; one that is over is held by an active row if there is one; a running one moves only to a row without expiry |
| EnrollmentTerms.SyncAll | apps/resync-worker/src/syncers/enrollments.ts:113-303 | entitlement and terms for the whole table of pairs in one run |
| EnrollmentAccess.GoodInAnyOrderIff | apps/resync-worker/src/syncers/enrollments.ts:193-236 | a live pair ends on terms as good as any active row's in every row order, exactly if its own row's change of terms is not overlooked |
| EnrollmentAccess.OverlookedIsBad | apps/resync-worker/src/syncers/enrollments.ts:233-237 | if it is, reading the own row first costs the pair its better terms |
| Enrollments.RefundLiftedOnlyByPurchase | apps/resync-worker/src/syncers/enrollment-rules.ts:65-68 | a refund cancel is lifted only by a paid row under another legacy id |
| EnrollmentRuns.AloneIsCellStep | apps/resync-worker/src/syncers/enrollments.ts:132-303 | a row nobody interrupts does what it does in the sequential scan |
| EnrollmentRuns.InterleavedScanEntitles | apps/resync-worker/src/syncers/enrollments.ts:132-413 | the entitlement statement holds however queries, claims and writes of the rows of a pair interleave |
| EnrollmentRuns.StepProjects | apps/resync-worker/src/syncers/enrollments.ts:193-236 | every step of the whole run is, for each pair, a step of that pair |
| EnrollmentRuns.InterleavedRunEntitles | apps/resync-worker/src/syncers/enrollments.ts:113-303 | the same for every pair of a whole run with its rows interleaved |
| EnrollmentOrder.InterleavedTerms | apps/resync-worker/src/syncers/enrollments.ts:132-281 | the terms of a scan, in every interleaving in which no two writes of the pair are under way at once |
| EnrollmentOrder.LateWriteKeepsTrial | apps/resync-worker/src/syncers/enrollments.ts:232-268 | without that a pair can end as the trial although a purchase was decided |
| IdentityRules.DecisionMeaning | apps/resync-worker/src/identity-rules.ts:49-60 | each of the five decisions holds in exactly one case of shared keys and legacy id |
| IdentityRules.PlanAdopt | apps/resync-worker/src/adopt-rules.ts:50-83 | the assignments build the field-by-field plan |
| IdentityRules.PlanMeaning | apps/resync-worker/src/adopt-rules.ts:9-16 | the plan turns the row it was made for into the reference: own values win, flags only raised, a verification only for its own key |
| IdentityRules.AdoptPreservesIff | apps/resync-worker/src/adopt-rules.ts:5-16 | a plan made on one version of a row and applied to another replaces nothing and lowers no flag exactly if no field it fills was filled differently meanwhile |
| IdentityRules.AdoptPreserves | apps/resync-worker/src/adopt-rules.ts:5-16 | in particular on the row as read, also after a contested field is dropped |
| IdentityRules.RacedNameIsReplaced | apps/resync-worker/src/ensure-member.ts:182-191 | a strong match whose name the app sets meanwhile loses that name |
| IdentityRules.AdoptIdempotent | apps/resync-worker/src/adopt-rules.ts:50-83 | adopting twice is adopting once, and plans nothing the second time |
| IdentityRules.VerifiesOwnKeysIff | apps/resync-worker/src/adopt-rules.ts:53-67 | a plan made on one version of a row and applied to another verifies only keys that match, exactly if no key it verifies without writing it was changed meanwhile |
| IdentityRules.UntouchedVerifiesOwnKeys | apps/resync-worker/src/adopt-rules.ts:53-67 | in particular on the row as read, also after a contested field is dropped |
| IdentityRules.RacedEmailIsVerified | apps/resync-worker/src/adopt-rules.ts:57-59 | an email the app changes between read and write comes out verified |
| MemberTables.QuietDbExists | apps/resync-worker/src/ensure-member.ts:131-140 | the assumptions on database and app can be met |
| MemberTables.BlankMemberFits | apps/resync-worker/src/ensure-member.ts:262-279 | null columns clash with nothing |
| MemberTables.InsertOutcome | apps/resync-worker/src/ensure-member.ts:262-300 | a row for a free legacy id without strong holder fits exactly if nobody holds its phone |
| EnsureMember.FoundRowDecides | apps/resync-worker/src/identity-rules.ts:49-60 | on a row the lookups found, the decision is redirect, adopt or separate, by strong evidence and the row's legacy id; the other two cannot happen |
| EnsureMember.Ensurer.TryInsert | apps/resync-worker/src/ensure-member.ts:262-279 | the row is inserted into the table the app left, or clashes there |
| EnsureMember.Ensurer.JoinStrongHolder | apps/resync-worker/src/ensure-member.ts:285-298 | after a clash: redirect to a strong holder with another legacy id, map to one without, nothing only if there is none |
| EnsureMember.Ensurer.InsertFresh | apps/resync-worker/src/ensure-member.ts:253-308 | insert, join a strong holder, or insert without the phone; on a quiet table without strong holder a new row, without the phone exactly if it is held |
| EnsureMember.Ensurer.TryAdopt | apps/resync-worker/src/ensure-member.ts:184-191 | the planned fields applied to the row at write time, exactly if the result fits |
| EnsureMember.Ensurer.AdoptPlaceholder | apps/resync-worker/src/ensure-member.ts:177-240 | adopted in full if that fits, without the only contested column, or not at all if two are contested |
| EnsureMember.DroppedFits | apps/resync-worker/src/ensure-member.ts:212-228 | the retry fits exactly if no other column is contested |
| EnsureMember.Ensurer.Create | apps/resync-worker/src/ensure-member.ts:104-251 | what was read, the table written to and the one effect; on a quiet table the outcome: strong holder first, then phone, then a row of its own |
| EnsureMember.Ensurer.EnsureMember | apps/resync-worker/src/ensure-member.ts:310-323 | known ids answer as known, unresolvable ones not at all, others by one effect; unique columns stay unique and resolved ids resolved |
| EnsureMember.Ensurer.EnsureAll | apps/resync-worker/src/ensure-member.ts:85-328 | over any sequence of calls every answer still holds at the end, and each call is one recorded effect on the run the call before left |
| EnsureMember.NewAnswersEarned | apps/resync-worker/src/identity-rules.ts:5-15 | whatever such a sequence newly resolves an id to is a row of its own, or a member that shared an email or provider subject with it when its call decided |
| EnsureMember.NewStampsEarned | apps/resync-worker/src/identity-rules.ts:5-15 | an existing member that newly carries a legacy id was adopted for it on such evidence |
| EnsureMember.CallKeeps | apps/resync-worker/src/ensure-member.ts:229-239 | any effect, on whatever table the app left, keeps the run's invariants and resolutions |
| EnsureMember.OneRowWritten | apps/resync-worker/src/ensure-member.ts:184-191 | only an adopt changes an existing row, and only the one it answers with |
| EnsureMember.NoSecondRowForAPerson | apps/resync-worker/src/ensure-member.ts:9-16 | whatever the app does meanwhile, a row is created only if at that moment nobody shares an email or provider subject, nor the phone written |
| EnsureMember.InsertedRow | apps/resync-worker/src/ensure-member.ts:243-308 | an inserted row is the legacy profile, or that without phone, phone code and phone verification; no flag without its key |
| EnsureMember.PhoneLeftOutIffHeld | apps/resync-worker/src/ensure-member.ts:243-308 | on a quiet table the phone is left out exactly if some row holds it |
| EnsureMember.TakenRowPreservedIff | apps/resync-worker/src/ensure-member.ts:182-191 | the adopted row keeps all it had at write time exactly if the app did not fill, differently, what the plan fills |
| EnsureMember.TakenRowVerifiesOwnKeysIff | apps/resync-worker/src/adopt-rules.ts:53-67 | an adopt verifies only keys legacy or the member vouched for, exactly if the app did not change such a key meanwhile |
| EnsureMember.AdoptedInFull | apps/resync-worker/src/adopt-rules.ts:9-16 | a row the app left alone becomes the field-by-field reference |
| EnsureMember.AdoptCanReplaceName | apps/resync-worker/src/ensure-member.ts:182-191 | a run in which the promise not to downgrade fails |
| EnsureRuns.PromisesSurvive | apps/resync-worker/src/ensure-member.ts:310-323 | over any interleaving of calls and app writes, unique columns stay unique, rows are found under their legacy id, redirects lead to members, and what an id stands for it stands for from then on |
| EnsureRuns.AnswersStand | apps/resync-worker/src/ensure-member.ts:166-240 | an answer stands from the moment it is given, and a merge was decided on a row sharing a strong key |
| EnsureRuns.QuietIsInv | apps/resync-worker/src/ensure-member.ts:316-322 | with no call under way the interleaved invariant is the sequential one |
| EnsureRuns.StampsChangeByAdopt | apps/resync-worker/src/ensure-member.ts:184-191 | a row's legacy id changes only when another adopt lands on it, and the first id still leads to it |
| EnsureRuns.RivalAdoptsRestamp | apps/resync-worker/src/ensure-member.ts:184-191 | two ids matching a placeholder, both read before either write, end with the second id on the row |
| EnsureRuns.RivalsExist | apps/resync-worker/src/ensure-member.ts:184-191 | such ids exist |
| Csv.ParseCsv | scripts/backfill-listening-sessions.ts:61-80 | the character loop with one character of lookahead computes the reference reading |
| Csv.LexCell | apps/resync-worker/src/change-log.ts:50-54 | a written cell is read back as one field whatever it contains |
| Csv.RoundTrip | apps/resync-worker/src/change-log.ts:50-82 | reading newline-terminated lines of cells gives back exactly the rows |
| Csv.LineEndsIgnored | scripts/backfill-listening-sessions.ts:73-78 | lines ending in carriage return and newline, or any mixture, read the same |
| Csv.QuotedIff | apps/resync-worker/src/change-log.ts:50-54 | a cell is written as it is exactly if it has no quote, comma, newline or carriage return |
| Csv.LexSplit | scripts/backfill-listening-sessions.ts:61-80 | reading may be cut anywhere, except between a closing quote and a quote |
| Csv.AppendedRows | apps/resync-worker/src/change-log.ts:120-124 | rows appended to a text whose last row is finished are read after its own rows |
| Csv.AppendableIffFinished | apps/resync-worker/src/change-log.ts:120-124 | for every text: whatever is appended is read back exactly if its last row is finished |
| Csv.WrittenIsFinished | apps/resync-worker/src/change-log.ts:108-124 | what was written is finished, so it may be appended to again |
| ChangeLog.ChangeLog.Record | apps/resync-worker/src/change-log.ts:108-118 | file plus buffer stay the original, the header iff the file was missing, and one line per record in order; the file is written exactly when 200 lines are pending |
| ChangeLog.ChangeLog.Close | apps/resync-worker/src/change-log.ts:120-128 | nothing is pending and the file holds everything journaled |
| ChangeLog.ClosedJournalReadsBack | apps/resync-worker/src/change-log.ts:92-129 | parsing the closed file gives the original rows, or the header if there was no file, and then exactly the recorded cells, and the file may be appended to again |
| ChangeLog.FreshJournalReadsBack | apps/resync-worker/src/change-log.ts:14-118 | in a new file each of the 15 columns has its own name, and in the row of each decision shows under that name the decision's field, the run id, syncer, mode or time |
| ChangeLog.HeaderNames | apps/resync-worker/src/change-log.ts:14-30 | the columns and their order |
| AffiliateCodes.CodeTables.SyncLegacyAffiliateCode | apps/resync-worker/src/affiliate-code-sync.ts:31-77 | same iff the code already leads to the member, collision iff to another; a code that leads to nobody is set on a member without one and aliased to a member with one; else nothing changes |
| AffiliateCodes.CodeTables.SyncCodeAliases | apps/resync-worker/src/code-aliases.ts:52-165 | afterwards the code of every eligible loser leads to somebody, and is warned about iff that is not its winner; planned codes are distinct, unheld, and exactly they are inserted |
| AffiliateCodes.CodesKeepResolving | apps/resync-worker/src/affiliate-code-sync.ts:1-14 | under any sequence of steps a resolving code keeps resolving to the one same member |
| AffiliateCodes.TablesStayDisjoint | apps/resync-worker/src/affiliate-code-sync.ts:12-13 | a code never gets into both tables |
| Kyc.ClusterMap | apps/resync-worker/src/syncers/kyc.ts:34-46 | each winner with its losers |
| Kyc.SelectDecisions | apps/resync-worker/src/syncers/kyc.ts:54-103 | for every affected migrated cluster the decision is the largest-id live decided row over winner and losers, for any chunk size and any order of the rows; other clusters get none when the redirect is flat |
| Kyc.AuthoritativeUnique | apps/resync-worker/src/syncers/kyc.ts:7-7 | there is one right answer |

## Left out

- EnrollmentTerms.SyncAll: failing writes, dry runs and the unique clash of a legacy id moved to another pair are not modelled; retries rest on the watermark result. The class processes rows one after another, `EnrollmentRuns` interleaves them.
- EnrollmentRuns.InterleavedRunEntitles: the app's own writes to enrollments during the run are not modelled, nor are paid orders that arrive during it.
- EnrollmentOrder.InterleavedTerms: for interleaved rows the terms are stated for pairs held by a legacy row with some active row.
- Enrollments.ScanEntitles: member resolution is one map for the whole scan; a member created on demand during the scan holds no pair before.
- EnsureMember.Ensurer.EnsureMember: the class makes calls one after another, `EnsureRuns` interleaves them; database errors other than a unique violation are not modelled. Which effect a call has is stated for a table the app leaves alone during the call; what any effect does and keeps is stated for all.
- EnsureRuns.PromisesSurvive: which of two concurrent effects wins, and that every call ends, is not stated; the map that shares a pending create appears as the rule of one call per id.
- SyncProtocol.NoLostUpdate: rows still being written by a process that lost the lock are not modelled.
- Watermark.SyncState.Checkpoint: the heartbeat's answer is an input; `RunLock.OwnedUntilTtl` says how long it can be relied on.
- WorkerPool.EveryIndexOnce: a rejecting callback, which aborts the pool, is not modelled; the sequential path for a limit of one is a plain loop.
- InviterGraph.NoShortCycleEver: says nothing for interleaved checks of a larger write concurrency, nor for what the app writes.
- InviterRounds.ScannedRoundIdempotent: the connect row is the same in both rounds; the choice among several rows of a subject and its aliases (`pickRowPerSubject`) is not modelled.
- Kyc.SelectDecisions: the guarded member update that applies a decision and the fill-if-null bank account are not modelled.
- SQL text, connectivity and reconnects, logging, statistics, journal snapshots as JSON, CLI parsing and the HTTP side.
- Program memberships (`syncAffiliatorsScoped`, `decideAffiliatorWrite`), affiliate mode, commissions' amounts, posts, reviews, programs and counters.
- Phone normalisation, e-mail clean-up, junk filtering and password detection: legacy profiles enter already normalised.
- `identity.ts` splits, the backfill pass, the trimming and header mapping that `parseCsv` does after tokenising.
