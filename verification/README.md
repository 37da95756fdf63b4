# Verified model of the experiments server

A Dafny model of the experiment-tracking server and of the scripts that fill and
archive it, with proofs of the properties its design rests on. `dafny verify
dfyconfig.toml` checks the whole project.

## What is modelled

**Run queue** (`RunRows`, `Packing`, `RunEvents`, `RunProtocol`, `ClaimsFit`,
`PatchRules`, `RunService`). `RunProtocol` is a state machine in which claim and
sweep transactions run statement by statement and row by row, interleaved with renewals, cancellations,
worker reports, free-form PATCHes, new runs, clock ticks and aborts. Row locks,
uncommitted row versions, statement snapshots and the recheck after `FOR UPDATE
SKIP LOCKED` are explicit; `now()` is fixed at the start of a transaction. The
committed table of every interleaving is proved equal to the serial replay of its
commit log, and the properties of whole runs are then proved on such logs
(`RunEvents`). Workers report completed, failed or killed for runs that are claimed
or running; every other PATCH of a status is free-form, and each result names the
free-form PATCHes it can bear. `PatchRules` gives exact conditions on them.
`RunService` has the same operations as methods of a table, run without
interruption; `ClaimAlone` and `SweepAlone` tie the two views together.

**Artifacts** (`Artifacts`, `ArtifactStore`). Lookups, Drive uploads, inserts,
retries and crashes interleave; the two partial unique indexes are explicit.
`ArtifactStore` has the routes as methods, with the batch loops.

**Users** (`Users`). Concurrent `revoke_user` transactions lock admin rows one at a
time and evaluate the predicate again after a wait.

**Results, ids, migration 002, queries** (`Results`, `Decimals`, `Refs`,
`Migration`, `Sql`, `Queries`). WHERE clauses are evaluated in three-valued logic
over numbered parameters.

**Scripts and strings** (`IndexParser`, `Slugs`, `FileTree`, `Archiver`,
`ArchiveRuns`, `DriveQuery`, `ExternalRefs`). `Archiver` has the script's own
methods; `ArchiveRuns` takes them apart into the steps between which the process
can be killed: lookup, folder, upload, truncation and write of the manifest file.

## Limits found

- A free-form PATCH to queued can hand a run out twice
  (`PatchRules.PatchBreaksExclusivity`); claims stay exclusive, and their number
  bounded, exactly when clients make none (`PatchRules.ExclusiveExactly`,
  `PatchRules.ClaimsBoundedExactly`). A PATCH out of completed can leave a claimed run
  with an unmet dependency (`PatchRules.DependenciesHoldExactly`), and other PATCHes
  break what the lease, order and progress results rest on
  (`PatchRules.StartsByClaimExactly`, `PatchRules.LeavesByClaimExactly`,
  `PatchRules.RisesByRequeueExactly`). The bound on claim_attempts survives any PATCH.
- A registered row with a name and a sha256 passes a drive_url of any kind on to later
  uploads of its content (`Artifacts.RegisteredUrlIsInherited`);
  `Artifacts.UploadsPinnedExactly` gives the exact condition.
- A crash while the manifest file is being rewritten blocks every rerun of the
  archiver (`ArchiveRuns.TornWriteBlocksReruns`); crashes anywhere else do not
  (`ArchiveRuns.ResumableExactly`).
- A negative estimate can make the packer leave out a run that fits
  (`Packing.NeverLeavesRoomExactly`).
- The packer stops once the budget is used up, so free candidates after that point
  are left out; `Packing.PackIsLexGreatest` gives the exact condition.
- `peek_queue` treats an empty backend as no filter, `claim_queue` does not
  (`RunService.EmptyBackendPeeksMore`); a claim packs what peek shows exactly for the
  named backends (`RunService.ClaimPacksPeekExactly`).
- Generated refs sort by number within a second exactly up to 99,999
  (`Refs.FiveDigitsExactly`); `Refs.RefsSortExactly` says which larger pairs do.
- Migration 002 calls a dangling dependency inert, yet dropping it makes a run that
  was blocked only by it ready (`Migration.ReadinessIsKept`).
- The lineage of content that no registration asked to produce is not exact
  (`Artifacts.LineageIsExactIfAsked`); an explicit `used` role on new content is how
  that comes about (`Artifacts.ExplicitUsedHasNoProducer`). Rows with an empty name or
  sha256 are outside it too (`Artifacts.LineageSelectsContent`).
- `mark_result_superseded` can form a cycle (`Results.MutualMarksHideResults`);
  `Results.MarkKeepsAcyclic` gives the exact condition.
- From 100,000 rows on migration 002 can give two rows one id, and later runs draw row
  numbers again; the exact conditions are `Migration.IdsCollideExactly` and
  `Migration.NumberIsReissuedExactly`.
- `parse_git_uri` also drops a `;` and what follows it from the repo name, because
  `urlparse` splits path parameters (`ExternalRefs.GitRoundTrip`); the dashboard's
  pattern keeps it, and a `.git` suffix as well (`ExternalRefs.DashboardAgreesOnGit`).

## Model

| member | source | states |
|---|---|---|
| RunRows.OrderBy | src/chuk_experiments_server/service/runs.py:252 | the ordered result lists exactly the selected ids, once each |
| RunRows.QueueOrder | src/chuk_experiments_server/service/runs.py:252 | a row comes before another exactly by higher priority, then by earlier creation time, then by one fixed order of ids |
| RunRows.OrderByFilter | src/chuk_experiments_server/service/runs.py:193-207 | narrowing the WHERE clause drops rows from the ordered result and reorders none |
| RunRows.TopIsBest | src/chuk_experiments_server/service/runs.py:202-210 | ORDER BY with LIMIT gives the selected rows up to the limit, highest priority and then oldest first, and no row left out has a higher priority than one returned, nor the same and an earlier creation |
| Packing.PackRunsBySessionBudget | src/chuk_experiments_server/service/runs.py:214-232 | the loop computes the specified greedy selection for every candidate list and budget |
| Packing.PackIsFeasible | src/chuk_experiments_server/service/runs.py:214-232 | the result is an in-order selection of the candidates, and for estimates of any sign every prefix of it fits the budget exactly when the budget is not negative |
| Packing.PackIsMaximal | src/chuk_experiments_server/service/runs.py:221-232 | for non-negative estimates no positive-cost candidate that fits the final remainder is left out |
| Packing.NeverLeavesRoomExactly | src/chuk_experiments_server/service/runs.py:221-232 | that holds of all lists and budgets if and only if the estimates in use have no negative value or no positive one |
| Packing.PackIsLexGreatest | src/chuk_experiments_server/service/runs.py:221-231 | for non-negative estimates and budget the selection is the lexicographically greatest feasible one if and only if no free candidate comes after the budget is used up |
| Packing.PositiveNeverStarves | src/chuk_experiments_server/service/runs.py:230-231 | with positive estimates no candidate is starved by the early stop, so the selection is always the lexicographically greatest |
| Packing.HopelessAreInvisible | src/chuk_experiments_server/service/runs.py:224-225 | removing candidates longer than the whole session never changes the selection |
| RunEvents.ClaimsAreSeparated | src/chuk_experiments_server/service/runs.py:235-278 | when no PATCH puts a run back into the queue, two claims of one run have a sweep requeue of it between them |
| RunEvents.ClaimsAreSeparatedDespitePatches | src/chuk_experiments_server/service/runs.py:98-122 | whatever PATCHes are made, two claims of one run have a sweep requeue of it or a PATCH of it to queued between them |
| RunEvents.SweepsAreSeparated | src/chuk_experiments_server/service/runs.py:305-337 | when no PATCH makes a run claimed or running again, two sweeps that take one run have a claim of it between them, and no sweep both requeues and loses it |
| RunEvents.UnclaimedStaysQueued | src/chuk_experiments_server/service/runs.py:173-182 | when no PATCH moves a waiting run on, a run enqueued as queued and never claimed is still queued, or cancelled |
| RunEvents.ClaimOrderExtendsDependencies | src/chuk_experiments_server/service/runs.py:173-182 | when no PATCH undoes a completion, at a claim every dependency exists and is completed; when besides no PATCH moves a waiting run on, one enqueued as queued was claimed earlier: first claims are a linear extension of depends_on |
| RunEvents.DependenciesStayCompleted | src/chuk_experiments_server/service/runs.py:173-182 | when no PATCH undoes a completion, dependencies met at a claim stay completed for the rest of the log |
| RunEvents.CyclesAreNeverClaimed | src/chuk_experiments_server/service/runs.py:173-182 | under both conditions no run of a set of queued runs that wait on each other, a self-loop included, is ever claimed |
| RunEvents.TerminalIsStable | src/chuk_experiments_server/service/runs.py:156-169 | when no PATCH changes how a run has ended, a finished, lost or cancelled row is never changed again |
| RunEvents.AttemptsCountRequeues | src/chuk_experiments_server/service/runs.py:313-325 | claim_attempts equals the number of sweep requeues of the run and stays at most max_attempts - 1, arbitrary PATCHes included |
| RunEvents.AttemptsNeverDecrease | src/chuk_experiments_server/service/runs.py:313-325 | claim_attempts never decreases, arbitrary PATCHes included |
| RunEvents.ClaimsBalanceRequeues | src/chuk_experiments_server/service/runs.py:235-278 | when no PATCH puts a run back into the queue, it has at most one more claim than requeues, and no more claims than requeues while it is queued |
| RunEvents.ClaimedAtMostMaxAttempts | src/chuk_experiments_server/service/runs.py:305-337 | and is claimed at most max_attempts times |
| RunEvents.MeasureFalls | src/chuk_experiments_server/service/runs.py:281-337 | when no PATCH takes a run back, the measure (attempts left, status rank) falls on every claim, first renewal, completion, cancel, requeue and loss of a run and on every PATCH that moves it on, and stays put on every other event |
| RunEvents.ProgressIsBounded | src/chuk_experiments_server/service/runs.py:281-337 | then a run sees at most 4 * max_attempts + 3 such events, so only enqueues, repeat heartbeats and idle PATCHes can go on for ever |
| RunEvents.QueuedIsClean | src/chuk_experiments_server/service/runs.py:313-318 | when no PATCH puts a run back into the queue, a queued row carries no claimed_by, claimed_at or lease |
| RunEvents.ColumnsKept | src/chuk_experiments_server/service/runs.py:264-337 | priority, creation time, dependencies, backend and estimate never change; holder and claim time change only by a claim or a requeue, the lease only by those and a renewal, attempts only by a requeue |
| RunEvents.HolderIsLastClaim | src/chuk_experiments_server/service/runs.py:264-271 | until the next claim or requeue a run shows the worker and the time of its latest claim, whatever happens to it |
| RunEvents.LeaseComesFromLastGrant | src/chuk_experiments_server/service/runs.py:264-271 | when no PATCH makes a run claimed or running again, a leasable row's lease is the deadline of its latest claim or renewal, and nothing has ended the run since |
| RunEvents.SweptLeaseWasNotKept | src/chuk_experiments_server/service/runs.py:313-337 | under the same condition a sweep that takes a run shows a grant whose holder neither renewed nor ended the run by its deadline |
| RunEvents.KeptLeaseIsNeverSwept | src/chuk_experiments_server/service/runs.py:281-337 | under the same condition a run whose holder acts by each deadline is never requeued or lost |
| RunProtocol.ClaimCommitIsAtomic | src/chuk_experiments_server/service/runs.py:262-276 | the claim's final UPDATE, which rechecks nothing, is an atomic claim of rows that are still queued, and still ready when no PATCH undoes a completion: the row locks carried the check |
| RunProtocol.SweepCommitIsAtomic | src/chuk_experiments_server/service/runs.py:312-336 | the two sweep UPDATEs commit as one split of rows expired at the sweep's start time, whatever ran in between |
| RunProtocol.StepKeepsInv | src/chuk_experiments_server/service/runs.py:235-337 | every step of every client keeps lock exclusion, the open transactions' facts, and the equality of the table with the replayed log |
| RunProtocol.EveryInterleavingIsSerial | src/chuk_experiments_server/service/runs.py:235-337 | every interleaving, claims that pass over rows any other statement happens to lock included, ends in the table obtained by replaying its commit log one atomic event at a time |
| RunProtocol.NoDoubleClaim | src/chuk_experiments_server/service/runs.py:241-244 | over every interleaving in which no PATCH puts a run back into the queue, concurrent workers never claim one run twice without a sweep requeue in between |
| RunProtocol.ClaimsFollowDependencies | src/chuk_experiments_server/service/runs.py:173-182 | over every interleaving in which no PATCH undoes a completion, every claimed run's dependencies exist and are completed |
| RunProtocol.FirstClaimsFollowDependencies | src/chuk_experiments_server/service/runs.py:173-182 | and when besides no PATCH moves a waiting run on, a dependency enqueued as queued was claimed before |
| RunProtocol.NoClaimOnCycle | src/chuk_experiments_server/service/runs.py:173-182 | over every such interleaving, no run on a dependency cycle of queued runs is claimed |
| RunProtocol.RetriesAreBounded | src/chuk_experiments_server/service/runs.py:305-337 | over every interleaving, attempts stay below the limit whatever PATCHes are made; claims are bounded when none puts a run back into the queue, progress events when none takes a run back |
| RunProtocol.SweepsRespectLeases | src/chuk_experiments_server/service/runs.py:281-337 | over every interleaving in which no PATCH makes a run claimed or running again, kept leases are never swept and one expiry is never counted twice |
| RunProtocol.DoubleClaimNeedsPutBack | src/chuk_experiments_server/service/runs.py:98-122 | over every interleaving, whatever PATCHes are made, two claims of one run have a sweep requeue of it or a PATCH of it to queued between them |
| PatchRules.PatchBreaksExclusivity | src/chuk_experiments_server/service/runs.py:98-122 | from every status but queued a PATCH to queued is enough: an interleaving whose only PATCH is that one, in which two workers claim the run and no sweep requeues it |
| PatchRules.ExclusiveExactly | src/chuk_experiments_server/service/runs.py:98-122 | for any PATCHes clients make, claims are exclusive over every interleaving if and only if none of them takes a run from another status to queued |
| PatchRules.ClaimsBoundedExactly | src/chuk_experiments_server/service/runs.py:98-122 | and runs are claimed at most max_attempts times, for every limit, if and only if the same holds |
| PatchRules.DependenciesHoldExactly | src/chuk_experiments_server/service/runs.py:98-122 | claimed runs' dependencies are and stay completed over every interleaving if and only if no PATCH takes a run out of completed |
| PatchRules.StartsByClaimExactly | src/chuk_experiments_server/service/runs.py:98-122 | a run becomes claimed or running only by a claim, over every interleaving, if and only if no PATCH makes it so: the condition of the lease results |
| PatchRules.LeavesByClaimExactly | src/chuk_experiments_server/service/runs.py:98-122 | a queued or cancelled run moves on only by a claim if and only if no PATCH moves it on: the condition of the claim order |
| PatchRules.RisesByRequeueExactly | src/chuk_experiments_server/service/runs.py:98-122 | a run goes back along queued, claimed, running, ended only by a sweep's requeue if and only if no PATCH takes it back: the condition of the progress bound |
| PatchRules.StaysEndedExactly | src/chuk_experiments_server/service/runs.py:98-122 | a run that has ended is not changed any more if and only if no PATCH changes how it ended |
| ClaimsFit.EveryClaimFits | src/chuk_experiments_server/service/runs.py:246-276 | over every interleaving, PATCHes included, every committed claim takes only runs its backend may run, none longer than its session, and all together within it, for estimates of any sign |
| RunProtocol.ClaimAlone | src/chuk_experiments_server/service/runs.py:235-278 | with no other transaction open the claim's statements amount to one atomic claim of exactly the packer's choice over the ordered ready rows |
| RunProtocol.ClaimBesides | src/chuk_experiments_server/service/runs.py:235-278 | whatever other transactions hold, a claim runs to its commit without waiting and claims exactly the packer's choice over the ordered ready rows that nobody has locked |
| RunProtocol.OnlyRowLocksBlock | src/chuk_experiments_server/service/runs.py:281-291 | a statement waits for nothing but a lock on its own row; otherwise each applies exactly from the statuses its WHERE clause names |
| RunProtocol.OneRowOfTheScan | src/chuk_experiments_server/service/runs.py:247-256 | a locked row is skipped; any other is locked, and is a candidate if its newest version is queued for this backend with the dependencies of the snapshot completed |
| RunProtocol.EndReleases | src/chuk_experiments_server/service/runs.py:247-275 | a transaction that commits or aborts lets go of its rows, and an aborted one leaves no other trace |
| RunProtocol.SweepAlone | src/chuk_experiments_server/service/runs.py:305-337 | with no other transaction open the two statements, row by row, amount to one atomic sweep of exactly the rows with a past lease |
| RunService.SweepTableIsFullSweep | src/chuk_experiments_server/service/runs.py:305-337 | that atomic sweep is what the uninterrupted sweep method computes |
| RunService.RunTable.EnqueueRun | src/chuk_experiments_server/service/runs.py:20-55 | an unknown experiment or a taken (experiment, slug) is refused with the table unchanged; otherwise exactly one fresh row is added |
| RunService.RunTable.UpdateRun | src/chuk_experiments_server/service/runs.py:98-122 | a PATCH sets the given status or keeps the old one and touches nothing else; an unknown id is refused |
| RunService.RunTable.CancelRun | src/chuk_experiments_server/service/runs.py:156-170 | succeeds exactly on queued or claimed runs and changes only the status |
| RunService.RunTable.RenewLease | src/chuk_experiments_server/service/runs.py:281-302 | succeeds exactly on claimed or running runs, sets status running and the lease from now, and changes no other column and no other row |
| RunService.RunTable.PeekQueue | src/chuk_experiments_server/service/runs.py:185-211 | returns distinct ids of queued runs whose dependencies are all there and completed and that pass the optional filters, highest priority and then oldest first; such a run is left out only when the limit is reached, and then comes after all of them; nothing changes |
| RunService.RunTable.ClaimQueue | src/chuk_experiments_server/service/runs.py:235-278 | claims exactly the packer's choice, ready runs the backend may take, highest priority and then oldest first, with worker, time and lease set, and leaves every other row and column alone |
| RunService.CandidatesInColumns | src/chuk_experiments_server/service/runs.py:247-256 | what the packer is given is every queued run whose dependencies are all there and completed and whose backend is NULL, any or the asked one, in queue order |
| RunService.RunTable.SweepExpiredLeases | src/chuk_experiments_server/service/runs.py:305-337 | the two UPDATEs change exactly the rows with an expired lease, each by its own rule, and the two counts add up to them |
| RunService.SweepSplits | src/chuk_experiments_server/service/runs.py:313-337 | requeued and lost rows are disjoint and together are exactly the claimed/running rows with a non-NULL past lease |
| RunService.SweepMoves | src/chuk_experiments_server/service/runs.py:313-337 | which runs are in each status after a sweep: the queue gains the requeued, the lost ones the lost, claimed and running runs lose the expired, and every other status keeps its runs |
| RunService.SweepConserves | src/chuk_experiments_server/service/runs.py:313-337 | over the whole table every expired lease turns up as exactly one newly queued or one newly lost run, and nothing else does |
| RunService.SweepIsIdempotent | src/chuk_experiments_server/service/runs.py:313-337 | a sweep leaves no expired lease behind and repeating it changes nothing |
| RunService.ClaimPacksPeek | src/chuk_experiments_server/service/runs.py:185-260 | for a named backend, what a claim takes is the packer applied to unlimited peek_queue(backend, session_seconds), for every session length |
| RunService.ClaimPacksPeekExactly | src/chuk_experiments_server/service/runs.py:185-260 | that holds of every table and session if and only if the backend is not empty |
| RunService.EmptyBackendPeeksMore | src/chuk_experiments_server/service/runs.py:193-197 | for the empty backend the two differ: on a ready run that asks for any named backend, peek shows it and claim does not take it |
| RunService.PeekQueryShowsPeek | src/chuk_experiments_server/service/runs.py:185-211 | any statement that means what the generated one means keeps, in three-valued logic, exactly the runs peek_queue is specified to show |
| Users.GuardHoldsAtCommit | src/chuk_experiments_server/service/users.py:77-94 | at the commit of a revoke of an active admin another active admin is still there, whoever committed since the count |
| Users.StepKeepsInv | src/chuk_experiments_server/service/users.py:70-98 | lock exclusion and the facts the guard rests on hold after every step |
| Users.OnceAnAdminAlwaysAnAdmin | src/chuk_experiments_server/service/users.py:62-98 | over every interleaving of revokes and creations, once there is an active admin there always is one |
| Users.RaceIsRefused | src/chuk_experiments_server/service/users.py:78-92 | the last two admins revoked at once, both having read before either locks: the second is refused and one admin stays |
| Users.EndReleases | src/chuk_experiments_server/service/users.py:68-92 | a revoke that ends lets go of the admin rows it locked, and an aborted one revokes no one |
| Users.RevokeAlone | src/chuk_experiments_server/service/users.py:62-98 | with no other transaction open the statements of a revoke, lock by lock, do what the uninterrupted call does: refuse an unknown or revoked user and the last active admin, and carry out every other revoke |
| Users.Team.RevokeUser | src/chuk_experiments_server/service/users.py:62-98 | refuses exactly unknown or revoked users and the last active admin; otherwise revokes the user and exactly that user's live keys |
| Users.Team.CreateUser | src/chuk_experiments_server/service/users.py:45-59 | refuses exactly a taken email and otherwise adds one active user |
| Artifacts.IndexesCoverContent | migrations/005_artifact_produced_unique.sql:18-20 | together with the index of migration 008 a collision means two produced rows of one content, and the two indexes never overlap |
| Artifacts.ViolationIsProducedContent | migrations/008_artifact_uri_dedup.sql:8-10 | an INSERT violates an index exactly when it would produce content that has a produced row |
| Artifacts.FindByNameShaFinds | src/chuk_experiments_server/service/artifacts.py:284-302 | the lookup hits exactly stored (name, sha256) pairs and prefers the produced row |
| Artifacts.OneProducedRowPerAskedContent | src/chuk_experiments_server/service/artifacts.py:101-112 | over every interleaving and any roles, a content has one produced row if some registration asked to produce it and none otherwise |
| Artifacts.TwoInsertsSuffice | src/chuk_experiments_server/service/artifacts.py:101-112 | over every interleaving a registration succeeds at its first INSERT or at its retry as used |
| Artifacts.ExactlyOneProduced | src/chuk_experiments_server/service/artifacts.py:83-112 | with default roles, over every interleaving, each content with a row has exactly one produced row |
| Artifacts.ExplicitUsedHasNoProducer | src/chuk_experiments_server/service/artifacts.py:102 | after any history, an explicit used role on content that nobody asked to produce leaves it with a row and without a produced one |
| Artifacts.DriveUrlIsPinned | src/chuk_experiments_server/rest/artifacts.py:100-135 | in every interleaving of uploads and registrations, whatever meta the uploaders pass, each uploaded row's drive_url is derived from its own gdrive uri, as long as rows registered with a name and a sha256 have theirs so |
| Artifacts.UploadsPinnedExactly | src/chuk_experiments_server/rest/artifacts.py:100-135 | for any set of rows that callers may register, uploads are pinned over every interleaving if and only if each of those with a name and a sha256 has the drive_url of its own uri |
| Artifacts.RegisteredUrlIsInherited | src/chuk_experiments_server/rest/artifacts.py:102-111 | the failing input: registering any such row and then uploading its content gives the upload that row's uri and drive_url |
| Artifacts.HitPinnedExactly | src/chuk_experiments_server/rest/artifacts.py:102-111 | a dedup hit is pinned exactly when the found row is, or that row has no drive_url and the caller's matches its uri |
| Artifacts.LineageSelectsContent | src/chuk_experiments_server/service/artifacts.py:315-331 | the lineage query selects exactly the artifact's own content if and only if its name and sha256 are not empty strings |
| Artifacts.LineageIsExactIfAsked | src/chuk_experiments_server/service/artifacts.py:305-334 | over every interleaving and any roles, produced_by and used_by together list the run of every row of a content with a non-empty address exactly once if and only if some registration asked to produce it |
| Artifacts.LineageAccountsForEveryRow | src/chuk_experiments_server/service/artifacts.py:305-334 | so with default roles the lineage of every such row is exact |
| Artifacts.LineageNamesTheProducer | src/chuk_experiments_server/service/artifacts.py:332-334 | over every interleaving and any roles, used_by are the owners of the content's used rows in order, and produced_by is the owner of its one produced row, or nobody when none was asked for |
| ArtifactStore.Store.RegisterArtifact | src/chuk_experiments_server/service/artifacts.py:55-112 | requires exactly one parent, a URI of a known scheme and an existing parent, then adds the row as given but for its role, which is produced exactly when that was asked for and the content has no produced row yet |
| ArtifactStore.RegisterKeepsIndexes | src/chuk_experiments_server/service/artifacts.py:101-112 | a registration never gives a content a second produced row, and gives it a first one exactly when it is the first to ask |
| ArtifactStore.RegisterAlone | src/chuk_experiments_server/service/artifacts.py:83-112 | with no other call in between, the interleaved steps of a registration add up to the uninterrupted one |
| ArtifactStore.Store.UploadOrDedup | src/chuk_experiments_server/rest/artifacts.py:84-135 | adds one row of the run with the caller's name, digest, filename and, but for drive_url, meta: stored content keeps the uri and drive_url of its produced or else oldest row and is used by default, new content is one new file with its own uri and drive_url and is produced by default |
| ArtifactStore.UploadAlone | src/chuk_experiments_server/rest/artifacts.py:100-135 | with no other call in between, the interleaved steps of an upload add up to the uninterrupted one |
| ArtifactStore.LookupFindsSource | src/chuk_experiments_server/service/artifacts.py:290-302 | the dedup lookup gives a produced row of the pair before any other, and the oldest among equals |
| ArtifactStore.Store.UploadBatch | src/chuk_experiments_server/rest/artifacts.py:178-220 | a batch with an undecodable item changes nothing and reports the first one; otherwise it equals its uploads one by one, in order |
| ArtifactStore.Store.DecodeAll | src/chuk_experiments_server/rest/artifacts.py:198-206 | decoding stops at the first undecodable item, and otherwise hands on every part of every item |
| ArtifactStore.Store.UploadEach | src/chuk_experiments_server/rest/artifacts.py:208-219 | each item is uploaded against the effect of all earlier ones |
| ArtifactStore.EachInColumns | src/chuk_experiments_server/rest/artifacts.py:208-219 | the tables a batch goes through: each item's row is the answer, column by column, to the table all earlier items left |
| ArtifactStore.RowForEach | src/chuk_experiments_server/rest/artifacts.py:208-219 | a batch adds one row per item, in order, each of its item's run, name and digest |
| ArtifactStore.UploadsAreDistinctPairs | src/chuk_experiments_server/rest/artifacts.py:94-99 | from an empty store any batches of uploads create as many Drive files as there are distinct (name, sha256) pairs, and one row per upload |
| Results.ResultTable.SubmitResult | src/chuk_experiments_server/service/results.py:10-36 | inserts one row with all that was submitted and links exactly the superseded one; a failing link still leaves the inserted row, and which error it reports |
| Results.ResultTable.MarkResultSuperseded | src/chuk_experiments_server/service/results.py:39-62 | links two distinct existing results and refuses everything else unchanged |
| Results.SubmissionsLinkForward | src/chuk_experiments_server/service/results.py:34-36 | in histories that link only through submit_result, superseded_by exceeds the row's own id |
| Results.MarkKeepsForward | src/chuk_experiments_server/service/results.py:39-62 | the standalone link keeps that property if and only if the correction is the newer row |
| Results.Current | src/chuk_experiments_server/service/results.py:39-62 | following corrections from any row ends at a current result |
| Results.MarkKeepsAcyclic | src/chuk_experiments_server/service/results.py:39-62 | the standalone link keeps every correction chain finite if and only if the corrected result is not already on the correction's own chain |
| Results.SubmissionKeepsAcyclic | src/chuk_experiments_server/service/results.py:34-36 | a submission never closes a loop, whatever links exist |
| Results.CarefulHistoriesEnd | src/chuk_experiments_server/service/results.py:10-62 | in every history of both calls whose standalone links meet that condition, every chain ends |
| Results.CompareRowsAreComplete | src/chuk_experiments_server/service/runs.py:125-153 | one row per distinct existing requested run, `found` exactly when it has a current result, and that result the newest current one |
| Results.FoundMeansAnyResult | src/chuk_experiments_server/service/runs.py:126-135 | when corrections stay within one run and metric, `found` holds exactly when the run has any result of that name |
| Results.FoundMeansSomeChainEnds | src/chuk_experiments_server/service/runs.py:126-147 | for links within one run and metric, made any way, `found` holds exactly when some result of that name has a chain that ends |
| Results.MutualMarksHideResults | src/chuk_experiments_server/service/results.py:39-62 | any two results can be marked as superseding each other; then neither chain ends, and if they were the run's only current results of the metric the run reports none |
| Refs.NumberedIsInjective | src/chuk_experiments_server/service/_shared.py:39-47 | a generated ref determines its sequence number, whatever text precedes it |
| Refs.RefExample | src/chuk_experiments_server/service/_shared.py:39-47 | the documented example RUN-20260718-160217-00397 is the ref of that second and number |
| Refs.RefsAreInjective | src/chuk_experiments_server/service/_shared.py:39-47 | refs of any prefixes and times are equal only if their sequence numbers are |
| Refs.RefSequence.GenerateRef | src/chuk_experiments_server/service/_shared.py:39-47 | draws the next number and formats it; the result differs from every ref made from the sequence before |
| Refs.RefsSortByTime | src/chuk_experiments_server/service/_shared.py:39-47 | for four-digit years and sequence numbers below 100000, string order on refs of one prefix is order on (second, sequence) |
| Refs.SixDigitsSortTooEarly | src/chuk_experiments_server/service/_shared.py:47 | 100000 sorts before 99999 within a second |
| Refs.FiveDigitsExactly | src/chuk_experiments_server/service/_shared.py:47 | all sequence numbers below a bound sort right within a second if and only if the bound is at most 100000 |
| Refs.RefsSortExactly | src/chuk_experiments_server/service/_shared.py:39-47 | for sequence numbers of any size a lower one sorts first within a second if and only if both have one printed width or it is no more than the leading digits of the higher one |
| Migration.IdMapIsInjective | migrations/002_string_ids.sql:46-72 | for at most 99,999 rows the id map is injective, so the duplicate check passes |
| Migration.IdMapKeepsOrder | migrations/002_string_ids.sql:43-53 | for creation times in four-digit years, sorting by new id is sorting by creation order |
| Migration.NewIdIsRef | migrations/002_string_ids.sql:43-53 | for at most 99,999 rows a new id is the ref of its creation second and of its place in the order of (created_at, id), counted from 1 |
| Migration.IdsCollideExactly | migrations/002_string_ids.sql:46-62 | for tables of any size two rows get one id if and only if their seconds print alike and their row numbers pad or cut to the same five characters |
| Migration.RowHundredThousandCollides | migrations/002_string_ids.sql:51 | row 100000 gets the padded text of row 10000, so the bound is tight |
| Migration.DepsAreMapped | migrations/002_string_ids.sql:105-117 | depends_on is mapped as a multiset minus exactly its dangling entries |
| Migration.JoinsCommute | migrations/002_string_ids.sql:125-156 | a child row belongs to the image of a parent exactly when it belonged to the parent |
| Migration.Rebuild | migrations/002_string_ids.sql:97-200 | filled while all keys are still numbers, checked for NULLs and swapped in, the new tables hold every row under its new id with every reference mapped, and no NOT NULL check fails |
| Migration.RebuildRuns | migrations/002_string_ids.sql:105-188 | the same for the run table: experiment and depends_on of each row are mapped, its other columns kept |
| Migration.RunInColumns | migrations/002_string_ids.sql:97-188 | a run keeps its status and creation time and refers to the image of its experiment and, as often as before, of each known dependency |
| Migration.ExperimentInColumns | migrations/002_string_ids.sql:119-131 | no experiment and no run is lost or merged, and each experiment keeps its values under its new id |
| Migration.ChildrenInColumns | migrations/002_string_ids.sql:133-156 | each writeup, result and artifact keeps its key and body and refers to its parent's new id |
| Migration.ReadinessIsKept | migrations/002_string_ids.sql:97-117 | readiness after the migration, and that it is unchanged exactly for runs with no dangling dependency or blocked some other way |
| Migration.DanglingDependencyIsForgotten | migrations/002_string_ids.sql:99-104 | every queued run blocked only by dangling dependencies becomes ready |
| Migration.ContinuedSequenceIsFresh | migrations/002_string_ids.sql:277-286 | for tables of any size, no ref generated after the migration is a migrated id, whatever its prefix and time |
| Migration.NumberIsReissuedExactly | migrations/002_string_ids.sql:277-286 | a row number is drawn again by the continued sequence if and only if it is above 99,999 |
| Migration.SequenceContinues | migrations/002_string_ids.sql:277-286 | each sequence continues after the number of rows of its table, after 99,999 when there are more, and stays where it is over an empty table |
| Migration.Schema.Migrate | migrations/002_string_ids.sql:26-288 | skips when applied, changes nothing when ids collide, else installs the remapped database and moves both sequences |
| Queries.QueryBuilder.Bind | src/chuk_experiments_server/service/_shared.py:26-36 | appends the value and returns a placeholder that evaluates to it |
| Sql.EvalStable | src/chuk_experiments_server/service/_shared.py:26-36 | parameters bound later never change what an earlier clause means |
| Queries.ApplyExperimentFilters | src/chuk_experiments_server/service/experiments.py:35-50 | the shared filters narrow a clause list by exactly the given programme, status and tags |
| Queries.ListQuery | src/chuk_experiments_server/service/experiments.py:53-104 | for every combination of filters the generated statement keeps exactly the rows the filters describe, and pages by the caller's limit and offset |
| Queries.SearchQuery | src/chuk_experiments_server/service/experiments.py:251-319 | the same for search, and the second placeholder of the rank expression denotes the search text too |
| Queries.PeekQuery | src/chuk_experiments_server/service/runs.py:185-211 | the same for peek's filters over nullable columns |
| Queries.IndexQueries | src/chuk_experiments_server/service/experiments.py:322-370 | the hand-numbered count and page queries both filter by the programme |
| Queries.IndexTotalCountsPages | src/chuk_experiments_server/service/experiments.py:335-346 | the total counts every row the pages are cut from |
| Queries.HealthCountsMatchLists | src/chuk_experiments_server/service/experiments.py:107-120 | the health counts are the unpaged lengths of the matching list_experiments calls |
| IndexParser.ParseIndex | scripts/migrate_chris_experiments.py:117-162 | the nested scan returns, in document order, exactly the experiment of each head line, read with its own block and the nearest heading above |
| IndexParser.ReadExactly | scripts/migrate_chris_experiments.py:131-151 | a line is read as an experiment exactly when it is an experiment head below some heading and its block has a Path bullet |
| IndexParser.ExperimentInColumns | scripts/migrate_chris_experiments.py:131-157 | its programme is that of the nearest heading above, and each other part comes from the last bullet of its name in the block |
| IndexParser.InDocumentOrder | scripts/migrate_chris_experiments.py:117-162 | the list has each experiment once, in the order of its lines |
| IndexParser.StripsBackticks | scripts/migrate_chris_experiments.py:152 | backticks are dropped from both ends of the path, all of them and nothing else |
| Slugs.SeenSlugs.BuildSlug | scripts/migrate_chris_experiments.py:165-173 | the search ends, returns the first candidate outside `seen`, and records it |
| Slugs.FirstFreeInFull | scripts/migrate_chris_experiments.py:165-173 | the slug is the base itself when that is free, else base-n for the least n from 2 on that is free |
| Slugs.FirstFreeIsUnique | scripts/migrate_chris_experiments.py:168-171 | that first free candidate is unique |
| Slugs.AllocatedAreDistinct | scripts/migrate_chris_experiments.py:165-173 | all slugs of an index are pairwise distinct |
| Slugs.AllocationIsReplayable | scripts/archive_chris_experiments_to_drive.py:61-67 | replaying the allocation over the same experiments gives the same slugs |
| Slugs.RunMigration | scripts/migrate_chris_experiments.py:221-260 | every experiment is given the next slug, whether or not the server accepts it, and `created` counts the accepted ones |
| Slugs.BuildPathToSlugs | scripts/archive_chris_experiments_to_drive.py:61-75 | the dict groups exactly the slugs of path-bearing experiments by path, in order |
| Slugs.SlugsInOrder | scripts/archive_chris_experiments_to_drive.py:69-75 | the list of a path has the slugs of exactly the experiments standing there, in document order |
| Slugs.StripsSlashes | scripts/archive_chris_experiments_to_drive.py:74 | rstrip drops all trailing slashes of a path and nothing else |
| Slugs.ReplayMatchesMigration | scripts/archive_chris_experiments_to_drive.py:61-75 | the archiver's dict holds exactly the migration's slugs: each path-bearing experiment's slug once under its own path and under no other, an experiment without a path nowhere |
| FileTree.SubtreeIsWalked | scripts/_drive_common.py:53-67 | whatever a walk of a subdirectory yields, the walk of the root yields |
| FileTree.WalkShape | scripts/_drive_common.py:53-67 | a walk yields only paths below its start, each once |
| FileTree.ArchivableExactly | scripts/_drive_common.py:43-67 | a path is walked exactly when its directory is there and lists its name, no directory on the way is .git or .claude, and the name is none of these nor .DS_Store |
| FileTree.WalkInOrder | scripts/_drive_common.py:59-67 | a walk is top down: a directory's own files come before everything below it, in the sorted order of its listing |
| Archiver.Archive.EnsureFolder | src/chuk_experiments_server/drive_storage.py:78-94 | returns the folder of that name and parent, creating it only when absent and then under an id never used before |
| Archiver.Archive.EnsureFolderPath | src/chuk_experiments_server/drive_storage.py:97-102 | the uncached chain returns the folder the path resolves to, and the one it resolved to before when there was one |
| Archiver.ResolveIsInjective | src/chuk_experiments_server/drive_storage.py:78-94 | two directories never share a Drive folder |
| Archiver.FolderPerDirectory | scripts/_drive_common.py:70-100 | the upload mirrors the tree: two files share a Drive folder if and only if they share a directory |
| Archiver.Archive.FolderForRelativePath | scripts/archive_chris_experiments_to_drive.py:204-220 | the cached component loop returns the folder the path resolves to |
| Archiver.Archive.FolderFor | scripts/_drive_common.py:81-87 | the cached climb returns the folder the path resolves to |
| Archiver.CachesAgree | scripts/archive_chris_experiments_to_drive.py:202-220 | both folder caches lead to the same Drive folder for a directory |
| Archiver.Archive.UploadDirectory | scripts/_drive_common.py:70-100 | a pass uploads exactly the unrecorded files, in order, each into its own directory's folder, records them, and counts files and bytes |
| Archiver.Archive.ArchivePath | scripts/archive_chris_experiments_to_drive.py:224-234 | one indexed path: its files when it is a directory, nothing otherwise |
| Archiver.Archive.RunArchive | scripts/archive_chris_experiments_to_drive.py:222-261 | the per-path passes followed by the catch-all add up to one pass over all of them |
| Archiver.UploadsAreTheMissing | scripts/_drive_common.py:89-98 | a pass uploads each file not recorded yet exactly once |
| Archiver.WorkIsTheTree | scripts/archive_chris_experiments_to_drive.py:251-259 | the per-path passes never leave the tree, so a run covers exactly the archivable files |
| Archiver.PathWorkInOrder | scripts/archive_chris_experiments_to_drive.py:224-235 | the indexed paths are gone through in their order, each contributing its walk, or nothing when it is not a directory |
| ArchiveRuns.CrashesCost | scripts/_drive_common.py:89-147 | killed at any steps and run again any number of times, in any listing order, the script uploads at most the files to archive plus the crashes, and at most what the manifest records plus the crashes plus the file in flight; every entry names a file on Drive of that path and size |
| ArchiveRuns.CrashesMayCost | scripts/_drive_common.py:89-98 | the bound on repeated uploads is tight: any number of crashes can leave that many copies on Drive and nothing recorded |
| ArchiveRuns.RunsToTheEnd | scripts/_drive_common.py:89-98 | left alone the script gets through all its work from any reachable state but that of a torn manifest file |
| ArchiveRuns.ResumableExactly | scripts/_drive_common.py:134-147 | the archive can still be finished if and only if no crash fell between the truncation of the manifest file and the end of its write |
| ArchiveRuns.TornWriteBlocksReruns | scripts/_drive_common.py:136-147 | the failing input: killed while the first of any files to archive is being recorded, the script does nothing on any rerun |
| ArchiveRuns.UninterruptedIsPass | scripts/_drive_common.py:89-98 | from a restart that can read its manifest to the end without a crash, the steps amount to the pass over that run's list that upload_directory and run_archive are specified to make |
| ArchiveRuns.ResumableArchive | scripts/_drive_common.py:128-147 | after any crashes and reruns, each over its own index and listing order, a run that gets to its end has every archivable file recorded, uploads number at most files plus crashes, verify_directory reports nothing missing with equal counts and bytes, and no later run uploads anything, wherever it is killed |
| ArchiveRuns.EveryIndexServes | scripts/archive_chris_experiments_to_drive.py:222-259 | whatever paths INDEX.md names, a run's per-path passes and catch-all are such a list |
| Archiver.CatchAllUploadsResidual | scripts/archive_chris_experiments_to_drive.py:90-106 | on a fresh manifest the catch-all pass uploads exactly compute_residual_files, in order |
| Archiver.Archive.VerifyDirectory | scripts/_drive_common.py:103-125 | counts and sums both sides and reports exactly the files on disk that the manifest does not hold |
| Archiver.ReportIsClean | scripts/_drive_common.py:103-125 | nothing is missing if and only if every archivable file is recorded; when exactly those are, both counts and both byte totals agree |
| Archiver.FullRunVerifiesClean | scripts/_drive_common.py:103-125 | after one uninterrupted run verify_directory reports the whole tree recorded, with equal counts and bytes |
| Archiver.RerunUploadsNothing | scripts/_drive_common.py:70-100 | any run after an uninterrupted one returns (0, 0) and creates no file |
| DriveQuery.EscapeIsPerCharacter | src/chuk_experiments_server/drive_storage.py:69-75 | the two whole-string replaces equal one left-to-right per-character map |
| DriveQuery.EscapeCharacters | src/chuk_experiments_server/drive_storage.py:69-75 | only backslash and single quote are escaped, by one backslash each |
| DriveQuery.LiteralRoundTrip | src/chuk_experiments_server/drive_storage.py:69-75 | lexing a quoted escaped value gives back the value and exactly the text after it |
| DriveQuery.FolderQueryRoundTrip | src/chuk_experiments_server/drive_storage.py:78-85 | the folder query reads back as its name and parent, for all strings |
| DriveQuery.FolderQueryText | src/chuk_experiments_server/drive_storage.py:78-85 | the query text sent to Drive, for every name and parent, an empty parent id counting as none |
| DriveQuery.FolderQueryIsInjective | src/chuk_experiments_server/drive_storage.py:78-85 | different lookups never share a query |
| ExternalRefs.HfRoundTrip | src/chuk_experiments_server/external_refs.py:54-73 | parse_hf_uri inverts build_hf_uri if and only if the repo id is not empty and the revision has no '@' |
| ExternalRefs.HfParsesExactly | src/chuk_experiments_server/external_refs.py:60-73 | parse_hf_uri gives a reference exactly for its built URI when the revision has no '@', and for a URI without any '@', whose revision is then main |
| ExternalRefs.GitRoundTrip | src/chuk_experiments_server/external_refs.py:35-51 | parse_git_uri inverts build_git_uri if and only if owner and repo are clean segments, the repo has no ';' and no .git suffix, and the commit is non-empty without '@' |
| ExternalRefs.BuiltTexts | src/chuk_experiments_server/external_refs.py:35-57 | the text each builder prints, an error for a repo type other than model and dataset |
| ExternalRefs.GitSuffixIsDropped | src/chuk_experiments_server/external_refs.py:50 | one .git suffix of the repo is dropped |
| ExternalRefs.GitIgnoresTheRest | src/chuk_experiments_server/external_refs.py:46-50 | path segments after the repo are ignored |
| ExternalRefs.PathSegmentsAreClean | src/chuk_experiments_server/external_refs.py:46-50 | what the path parser returns is always made of clean, non-empty segments |
| ExternalRefs.DashboardAgrees | src/chuk_experiments_server/static/app-core.js:31-34 | on every built hf:// URI the dashboard's pattern agrees with the parser if and only if repo id and revision are not empty, neither has an '@', and the revision has no line break |
| ExternalRefs.DashboardAgreesOnGit | src/chuk_experiments_server/static/app-core.js:27-30 | on every built git URI of clean segments the dashboard's pattern agrees with the parser if and only if the repo has no '@', no ';' and no .git suffix and the commit is one non-empty line without '@' |

## Left out

- HTTP routing, tool wrappers, the loopback client, settings, serialization and the dashboard's rendering: thin forwarding.
- Drive, R2, GitHub, Hugging Face and OAuth calls: only file creation and get-or-create of folders are kept, as abstract operations; the reference checks of `verify_artifact` are not part of this model.
- ArtifactStore.Store.RegisterArtifact: kind and byte size are not kept, because nothing that is proved depends on them.
- SHA-256 and base64 decoding: an item carries its digest, or none when it does not decode within the size limit.
- RunService.RunTable.ClaimQueue: returns the claimed ids; the rows re-read after the commit, which may have changed by then, are not part of the result. PeekQueue likewise.
- Full-text search, JSONB containment and the EXISTS subqueries of search: predicates of the row.
- Columns of `run` the queue never reads (config, URLs, cost, start and end times) and the COALESCE of a PATCH on them.
- Run ids are numbers in the queue; `Refs` shows that the generated strings determine them.
- Rows equal under ORDER BY are taken in one fixed order, and text is compared by character code.
- Deadlock detection and liveness of row locks: safety only; an aborted transaction changes nothing.
- An API key minted while `revoke_user` is in flight: the key cascade is stated for an uninterrupted call.
- Programme creation, write-ups, pins, key minting and token columns: single statements with easy contracts.
- Line patterns of INDEX.md (regular expressions, `slugify`): a line comes classified and an experiment's slug base is a function of it.
- Queries.ListQuery: the sort and order arguments and their allow-lists are not modelled; rows come in one given order.
- Queries.SearchQuery: a metric operator outside the enumeration, which the source rejects with an error, has no value in the model.
- Text assembly of SQL: a clause is a syntax tree, and " AND ".join is a conjunction of clauses that are parenthesised where they hold an OR.
- RunService.RunTable.EnqueueRun: assumes the new row carries the column defaults for claims and attempts, because no caller can set those columns.
- Symlinks and `..` in indexed paths: the tree is fixed. From its truncation to the end of the write the manifest file counts as unreadable, since no proper prefix of a JSON object is one.
- Linking archived folders to experiment records over HTTP.
- `git+http`, `git+ssh` and hosts other than github.com in `parse_git_uri`.
- used_by entries without a run: a row owned by an experiment appears in the model's lineage as an absent run, which the response type of the server does not admit.
