# Vault pipeline: a verified model

The pipeline keeps its shared state, the vault, in JSON and text files that several processes and machines
write at once. This project models the parts that keep that state right and proves what they promise, for all
inputs, all runs and all crash points. `dafny verify dfyconfig.toml` checks all of it.

## What is modelled

- **The claim register** (`ClaimRegister`, `Porcelain`, `ClaimGit`, `ClaimGitAnswers`, `ClaimLocal`,
  `ClaimLocalAnswers`). A write-once register per candidate. The git backend is a state machine over one ref: any number of claimants and releasers, pushes
  that land after their sender gave up, lost and garbled replies, a server that declines, reads that fail. The
  local backend is a state machine over inodes and names: lock-free links, locked removals, crashes anywhere.
  A run is any sequence of steps, and results are about every run.
- **The shard log with its derived cache** (`ShardLog`, `ShardStore`). A class whose methods change the disk one
  file operation at a time. `budget` is the number of operations the process lives to make, so each contract
  covers every crash point; `history` keeps every state the disk went through, which is what lock-free readers
  see.
- **Object-store sync** (`S3Sync`). Push and pull as methods that stop after any request, each proved to satisfy
  a relation, and runs of appends, edits, pushes and pulls on any number of nodes over those relations.
- **Scope and identities** (`Topo`, `IdAlloc`, `ScopeItem`, `ScopePlan`, `ScopeMint`, `ScopeCore`, `ScopeLedger`,
  `ScopeIds`, `ScopeFile`, `ScopeLaws`, `ScopeReferences`, `ScopeCycles`, `ScopeAddition`). The dependency ordering, the
  withhold fixpoint, the create-only mint, and the scope file with its retirement ledger, changed in place by `persist`,
  `revise` and `add-item` (which also mints) while a hand may set the stored counter to anything. `contract` stands for
  the outcome of the gates on an item's own fields, `unfit` for the items that the mint can make no record from.
- **Algorithmic cores**: union-find clustering (`UnionFind`, `FindingDedup`), compare-and-swap text writes
  (`VaultWrite`), the batched verifier (`Grounding`, `GroundingVerdicts`), the scaffolder and its gate
  (`BriefVariants`), the rollup counts (`Rollup`), the Markdown block machine (`MdToHtml`, `MdLines`). `Common`,
  `Text`, `Seqs` and `Decimal` are shared vocabulary.

## Where the code parts from its promises

Each point is a lemma with a concrete run or input, beside the exact condition under which the promise holds.

- A release can delete a re-created claim (`ClaimGit.SameCommitTwiceBreaksIt`). The comment at
  `scripts/lib/_claim_git.py:426-427` argues that a fresh token makes a fresh commit; a retry with the same token
  in the same second does not. The claim a release deletes has stood since it
  was read exactly when no push of the same commit landed in between (`ClaimGit.UnbrokenExactlyWhenNotPushedAgain`);
  one push per commit is enough for that (`ClaimGit.SolePushMeansNoAba`).
- "Nothing committed; retry is safe" (`scripts/lib/_claim_git.py:497-500`) is true at the probe only
  (`ClaimGit.LatePushLandsAfterNothingSeen`).
- A published record can be torn after all, in two ways. A crash between link and unlink leaves the scratch name as a
  second name of the live record, and a later create with the same process id and token truncates it
  (`ClaimLocal.RetryAfterACrashTearsTheHeld`); or two creators share a scratch name and one publishes what the other
  has just truncated (`ClaimLocal.SharedNameTearsTheHeld`). The record is whole at every moment of a run exactly when
  neither happens in it (`ClaimLocal.CompleteExactlyWhenNothingTears`).
- A local creator can be told CREATED for somebody else's record: its scratch name can be taken away and given to
  another file before it writes, and its link publishes what the name leads to (`ClaimLocal.CreatedForAnothersRecord`).
  It publishes its own body whenever no other create opens or writes that name from its open to its link
  (`ClaimLocal.CreatedShowsItsOwnBody`). Exactly which body a link publishes: `ClaimLocal.PublishesWhatWasLastWritten`.
  Mutual exclusion and EXISTS do not depend on the names
  (`ClaimLocal.TwoCreatedNeedARemoval`, `ClaimLocal.AnswersWereTrueDuringTheCall`).
- A reader that finds no cache and is overtaken by a reverse migration returns an empty list
  (`ShardStore.ReverseMigrationOvertakesAReader`; the exact condition is `ShardStore.ReadersSeeWhatWasAcknowledged`).
- The cache's other top-level keys are not refreshed on the constant-time path (`ShardStore.AppendOverAnOldTitle`);
  `ShardStore.Vault.AppendEntry` says which keys result on each path, and only `entries` is claimed to be current.
- A dependency that matches a batch-mate by label only is let through by the plan and then dropped at the mint
  (`ScopeMint.ALabelledDependencyIsLost`; exactly when: `ScopeMint.DroppedExactlyWhenNamedByLabel`). `persist` and
  `revise` store dependencies as ids, so this takes a scope file edited by hand; dependencies stored as ids are always
  carried.
- "A shared child is unrepresentable" (`scripts/lib/product_scope.py:1204`) is the reason given for not removing
  repetitions when a record's dependencies are listed. A candidate id used for two candidates is listed twice
  (`ScopeMint.SharedIdIsListedTwice`), and so is a batch-mate or a parent that is simply named twice, which no gate
  forbids (`ScopeMint.RepeatedReferenceIsListedTwice`). Exactly when nothing is listed twice:
  `ScopeMint.NoDependencyTwice`. In the scope file itself an item lists an id twice exactly when two of its references
  lead to the same item (`ScopeCycles.RepeatWrittenExactlyWhenNamed`).
- `_check_deps` promises that no reference is silently dropped (`scripts/lib/product_scope.py:657-665`). It strips a
  reference before looking it up, and the ordering and the rewriting do not: a reference with a blank around it passes
  the gate, is dropped, and its item becomes a false root (`ScopeReferences.PaddedIsAccepted`,
  `ScopeReferences.PaddedIsDropped`). For every payload a reference is kept exactly when it is a key or a label letter
  for letter (`ScopeReferences.KeptExactlyWhenSpelled`), so with distinct keys nothing is dropped if and only if every
  reference is trimmed (`ScopeReferences.NothingDroppedExactlyWhenTrimmed`).
- The identity check compares ids with ids and labels with labels, but the ordering keys an item by id or else
  label. A new item labelled with a live id makes two items share a key: the ids written are then never distinct,
  and a live item can disappear without a cut (`ScopeLaws.ClashIsAccepted`, `ScopeLaws.ClashLosesTheItem`). Exactly
  when: `ScopeLaws.DistinctExactlyWhenKeysAre`. In `add-item` the refusal for it comes after the write, as malformed
  (`ScopeLaws.OneIdExactlyWhenLabelIsFree`). No number is issued twice even then.
- The checks before an addition are there so that nothing is refused after a number is taken
  (`scripts/lib/product_scope.py:1541-1553`). They look at the new item before it has an id, so they cannot see a
  candidate that already names that id as its parent: the item is written and nothing is minted for it, the
  half-applied state (`ScopeAddition.ClaimedIdIsAccepted`; the whole run from an empty scope is
  `ScopeAddition.HalfAppliedAddition`). While the candidates stay as they were, this is the only way to get there, and
  it can be looked up before the call: exactly when a candidate claims the id that the stored counter and the file give
  next (`ScopeAddition.EndsExactly`, and the contract of `ScopeAddition.AddItem`).
- References by label to items that carry ids are no edges for the ordering, so a circle of them is accepted and
  written (`ScopeCycles.LoopIsAccepted`, `ScopeCycles.LoopIsWritten`). Exactly when, in terms of the payload alone:
  `ScopeCycles.CycleWrittenExactlyWhenNamed`.
- The audit of the scope counter is clean without hand edits only as long as no accepted batch has shared a key
  between two items: the clashing input is reported (`ScopeLaws.ClashIsReported`). Exactly when:
  `ScopeLaws.CleanInEveryReachableState`, `ScopeLaws.DuplicateExactlyWhenKeysCollide`.
- The ledger of revisions, replayed with its counts, gives the present ids only as long as that holds or the members
  stay the same: the clashing input breaks it (`ScopeLaws.ClashBreaksTheLedger`), and once broken it stays broken.
  Exactly when: `ScopeLaws.LedgerReplaysExactly`. As a set the ids come out right in every valid state.
- The scaffolder satisfies its gate under an exact condition only (`BriefVariants.GateAfterScaffold`): a row that
  names the criterion without being valid blocks the stub (`BriefVariants.UnknownStatusBlocksTheStub`), and a
  placeholder id gets a stub the gate rejects (`BriefVariants.PlaceholderNeverPasses`).
- Normalizing line endings is not idempotent (`VaultWrite.TwoCarriageReturns`; exactly when: `VaultWrite.NormalizeTwice`);
  the compare-and-swap does not need it.
- The renderer drops the second row of every table, whatever it says (`MdToHtml.MiddleRowIsDropped`; for every table:
  `MdToHtml.TablePuts`). A row whose first or last cell is empty loses that cell, and its other cells move to
  other columns (exactly when cells come back: `MdLines.CellsComeBackExactly`).

## Model

| member | source | states |
|---|---|---|
| Porcelain.LineNamesOnlyItsRef | scripts/lib/_claim_git.py:136-154 | a porcelain status line is read as a line about the ref it names and about no other ref, prefix ids such as SC-1 and SC-10 included |
| Porcelain.LineEndsDoNotMatter | scripts/lib/_claim_git.py:136-154 | carriage returns at the end of a line change neither the ref it names nor its flag |
| Porcelain.FlagIsWhatTheServerSaid | scripts/lib/_claim_git.py:136-154 | over any report, the flag found for a ref is exactly the one the server printed for it first, and none when it printed none |
| Porcelain.ClassifierTable | scripts/lib/_claim_git.py:157-182 | the verdict in terms of what the server said and the exit code: won only on a new ref, rejected on `!` and `=`, unverified without a status and with a failure, fail-closed on everything else |
| ClaimRegister.ClearedBetween | scripts/lib/_claim_coord.py:106-125 | in any write-once register a value that was there and later is not was cleared in between, at a moment when it was the value |
| ClaimGit.RunIsGrounded | scripts/lib/_claim_git.py:352-378 | by induction over every run: whatever a client has read, listed or been told goes back to a register state inside its own call |
| ClaimGit.AnswersWereTrueDuringTheCall | scripts/lib/_claim_git.py:443-512 | CREATED: the register held this very commit during the call; EXISTS: it held the body handed back; nothing committed: it was empty at the probe |
| ClaimGitAnswers.ClaimIsToldExactly | scripts/lib/_claim_git.py:443-512 | in every run, an answered claim is told CREATED if and only if the server's report said `*` or, after silence, the probe listed its own commit; EXISTS with a body if and only if its last permitted fetch named that body; "nothing committed" if and only if the probe after silence listed nothing; UNVERIFIABLE if and only if it is anonymous, the report said nothing of the ref, the probe failed, or no permitted fetch named anybody |
| ClaimGitAnswers.AStarIsCreated | scripts/lib/_claim_git.py:451-452 | a claim that has heard `*` for its ref has been told CREATED |
| ClaimGitAnswers.NobodyIsStuck | scripts/lib/_claim_git.py:403-512 | a claim or release that has not ended always has a step to take, whatever the server does |
| ClaimGit.RunIsSticky | scripts/lib/_claim_git.py:315-319 | every run of the protocol, late pushes and lost replies included, keeps the register write-once |
| ClaimGit.OnlyDeletesClear | scripts/lib/_claim_git.py:428-430 | the only step that takes a claim out of the register is a delete whose lease names that exact commit |
| ClaimGit.TwoWinnersNeedADelete | scripts/lib/_claim_git.py:443-512 | mutual exclusion: two different tokens both win only if one of them was removed in between by a compare-and-delete of its exact commit |
| ClaimGit.LaterClaimsAreToldTheDecision | scripts/lib/_claim_git.py:462-512 | agreement: while a held claim is not deleted, every claim that starts later is told that claim's body, never CREATED for itself and never "nothing there" |
| ClaimGit.ReleasesAreGrounded | scripts/lib/_claim_git.py:403-441 | by induction over every run: a release leases only a claim it read under its own address, and reports removal only after its delete took effect |
| ClaimGit.DeleteRemovesWhatWasRead | scripts/lib/_claim_git.py:411-430 | a delete that takes effect removes the claim its own release had read, held under the releaser's address: a stale release never removes a successor's different claim |
| ClaimGit.ReportedRemovalHappened | scripts/lib/_claim_git.py:431-434 | a release that answers true did remove the claim it had read |
| ClaimGitAnswers.ReleaseIsToldExactly | scripts/lib/_claim_git.py:403-438 | in every run, a release that has ended answers true if and only if it fetched a claim under its own address and the server's report said `-`; false if and only if it fetched nothing of its own, its delete was turned down, or no report came |
| ClaimGitAnswers.RemovedExactly | scripts/lib/_claim_git.py:428-438 | a release that has ended answers true if and only if its own delete took effect and the report on it arrived |
| ClaimGit.NoAnonymousClaim | scripts/lib/_claim_git.py:289-293 | no run ever puts a claim without an e-mail address on the register |
| ClaimGit.UnbrokenExactlyWhenNotPushedAgain | scripts/lib/_claim_git.py:426-430 | the claim a release deletes never left the register since its read if and only if no push of the same commit landed between the read and the delete |
| ClaimGit.SolePushMeansNoAba | scripts/lib/_claim_git.py:426-430 | when one claim only pushes a commit, the claim a release deletes never left the register between its read and its delete |
| ClaimGit.SameCommitTwiceBreaksIt | scripts/lib/_claim_git.py:298-313 | without that condition it fails, for every commit: a run in which a same-second retry of the same token re-creates the commit and a stale release deletes it |
| ClaimGit.LatePushLandsAfterNothingSeen | scripts/lib/_claim_git.py:495-501 | "nothing committed" holds at the probe only: a run in which the timed-out push lands afterwards |
| ClaimLocal.RunIsSticky | scripts/lib/_claim_coord.py:155-189 | every interleaving of lock-free creates and locked removes, crashes included, keeps the register write-once |
| ClaimLocal.StepTearsExactly | scripts/lib/_claim_coord.py:155-189 | one step tears a complete record exactly when it opens a second name of it, or links a scratch name that leads to an unfinished file; and either leaves it torn |
| ClaimLocal.CompleteExactlyWhenNothingTears | scripts/lib/_claim_coord.py:155-189 | over every run: the record is complete at every moment if and only if no such open and no such link occurs |
| ClaimLocal.SharedNameTearsTheHeld | scripts/lib/_claim_coord.py:160-168 | the second way happens: a run in which two creators share a scratch name and one publishes what the other has truncated |
| ClaimLocal.RetryAfterACrashTearsTheHeld | scripts/lib/_claim_coord.py:160-189 | that happens: a run in which a creator dies between link and unlink and a retry under the same scratch name truncates the live record |
| ClaimLocal.RemovalDeletesWhatItChecked | scripts/lib/_claim_coord.py:194-209 | a removal deletes exactly the record whose owner it compared, whatever creators do meanwhile |
| ClaimLocalAnswers.RemovalIsToldExactly | scripts/lib/_claim_coord.py:194-209 | in every run, a removal that has ended answers true if and only if its own delete took the HELD away, and false if and only if its check under the lock saw nothing or another address |
| ClaimLocal.FreeNamesNeverTear | scripts/lib/_claim_coord.py:155-168 | in a run in which no create opens a scratch name that is in use or leads to the visible record, no step tears it and nobody disturbs anybody's scratch file |
| ClaimLocal.AnswersWereTrueDuringTheCall | scripts/lib/_claim_coord.py:168-186 | in every run: CREATED means that this call's own link published a file under a free name, EXISTS that the body handed back was visible during the call |
| ClaimLocalAnswers.CreateIsToldExactly | scripts/lib/_claim_coord.py:155-189 | in every run, an answered create is told CREATED if and only if its first or second link found the name free, EXISTS with a body if and only if its last read saw that body, UNVERIFIABLE if and only if it met the name taken twice and saw nothing both times, and fails if and only if its scratch name was gone; the last thing it did was to unlink its scratch name |
| ClaimLocalAnswers.LockIsNeverLeftBehind | scripts/lib/_claim_coord.py:194-209 | in every run, a removal that has ended has given the lock back |
| ClaimLocalAnswers.NobodyIsStuck | scripts/lib/_claim_coord.py:155-209 | a create that has not ended has a step to take, and so has a removal once it can have the lock |
| ClaimLocal.CreatedShowsItsOwnBody | scripts/lib/_claim_coord.py:155-171 | a creator told CREATED had its own body visible during the call, in every run in which no other create opened or wrote its scratch name between its open and its link |
| ClaimLocal.CreatedForAnothersRecord | scripts/lib/_claim_coord.py:160-171 | that must hold from the open on: a run in which the name is re-used before the write, and write and link follow on each other, publishes another creator's record |
| ClaimLocal.PublishesWhatWasLastWritten | scripts/lib/_claim_coord.py:155-171 | in every run: after a link that publishes, the visible record is a given body if and only if the last to open or write the linked file had written that body |
| ClaimLocal.TwoCreatedNeedARemoval | scripts/lib/_claim_coord.py:155-189 | mutual exclusion in every run: two creators are both told CREATED only if, between their two links, a removal took out the very file the first one published |
| ClaimLocal.UnverifiableNeedsTwoRemovals | scripts/lib/_claim_coord.py:172-185 | in every run: UNVERIFIABLE is answered only if at least two removals took effect during that call, or the record was torn at a moment of it |
| ClaimLocal.UnverifiableWithoutTears | scripts/lib/_claim_coord.py:172-185 | so where no step of the run tears the record it means two removals during the call |
| ShardLog.NameRoundTrip | scripts/lib/_shard_store.py:96-111 | the shard name of a number parses back to that number, at any width |
| ShardLog.ReadsExactly | scripts/lib/_shard_store.py:103-111 | a name with the ending is a shard's if and only if digits and nothing else come before it, and then stands for their value |
| ShardLog.NextShardAppends | scripts/lib/_shard_store.py:126-132 | the next number extends a gapless log by one entry at the end |
| ShardLog.NextSeq | scripts/lib/_shard_store.py:126-132 | one past the highest number, and the number of shards when there is no gap |
| ShardLog.NumberedIsGapless | scripts/lib/_shard_store.py:472-475 | numbering a list from 0 gives a gapless directory whose log is that list |
| ShardLog.Derive | scripts/lib/_shard_store.py:177-203 | the fold fails exactly on a foreign name, a torn file or a repeated number; otherwise it returns every entry once, by ascending number whatever the name widths |
| ShardStore.EqualLengthMeansEqualContent | scripts/lib/_shard_store.py:312-315 | a cache that is a prefix of the log and as long as the log was before the append equals it, so the constant-time update equals a full projection |
| ShardStore.LogGrows | scripts/lib/_shard_store.py:325-363 | over any stretch of any run, crash points included, the log of record only grows |
| ShardStore.Vault.WriteExclusive | scripts/lib/_shard_store.py:135-174 | under any number: one shard published in one step, or a loud stop that changes nothing, exactly when the number is taken; the log stays gapless exactly when the number was the next one |
| ShardStore.Vault.RegenerateCacheLocked | scripts/lib/_shard_store.py:302-320 | on both paths the cache's entries become the whole log; a crash leaves everything as it was |
| ShardStore.Vault.AppendEntry | scripts/lib/_shard_store.py:325-363 | dying after any number of file operations leaves exactly the shards written so far appended and an older cache; returning means log and cache hold every entry, and the cache's other keys are the old cache's or the directory's as its length says |
| ShardStore.AppendOverAnOldTitle | scripts/lib/_shard_store.py:302-320 | one append over a cache whose title is older than the directory's: the new cache has the entry and still the old title |
| ShardStore.Vault.PullShards | scripts/lib/_vault_s3_sync.py:498-519 | a longer log copied shard by shard and the cache then dropped keeps the cache a prefix of the log at every crash point |
| ShardStore.Vault.Migrate | scripts/lib/_shard_store.py:446-489 | every outcome is characterised, refusals included, and so is the disk after each; the log of record is the same throughout, and at every crash point a reader gets the full list; on a vault sharded already the cache is refreshed to the whole log |
| ShardStore.Vault.MigrateReverse | scripts/lib/_shard_store.py:492-512 | publishes the flat file before the directory goes; every outcome and the disk after it are characterised, and at every crash point the log of record is the same and a reader gets the full list |
| ShardStore.MigrateAppendReverse | scripts/lib/_shard_store.py:419-512 | round trip: migrate, any appends, migrate back gives the original document with exactly those entries appended and every other key intact |
| ShardStore.ReadersSeeWhatWasAcknowledged | scripts/lib/_shard_store.py:217-286 | a lock-free read racing any run returns a prefix of the log, and one with every acknowledged entry if and only if the cache was servable, the directory was still there, or nothing was acknowledged |
| ShardStore.UndisturbedReadIsRight | scripts/lib/_shard_store.py:217-286 | with no writer between its two looks every read is a prefix with every acknowledged entry, and it fails only where there is no log |
| ShardStore.ReverseMigrationOvertakesAReader | scripts/lib/_shard_store.py:256-286 | the condition is needed: for every non-empty log a cache-less reader overtaken by a reverse migration returns the empty list |
| S3Sync.PushShards | scripts/lib/_vault_s3_sync.py:424-441 | the shard leg of a push copies an initial part of what the bucket lacks, stops at the first fork and overwrites nothing, at every interruption point |
| S3Sync.SyncPush | scripts/lib/_vault_s3_sync.py:405-462 | a push, stopped after any request, satisfies its relation: the log only gains an initial part, files are local contents, the baseline changes only at the end |
| S3Sync.PlanIsGapless | scripts/lib/_vault_s3_sync.py:367-380 | the check before the download accepts exactly when local and remote shards together have no gap |
| S3Sync.PullShards | scripts/lib/_vault_s3_sync.py:498-506 | the shard leg of a pull copies an initial part of what the node lacks and stops at the first fork |
| S3Sync.PullFiles | scripts/lib/_vault_s3_sync.py:521-557 | the three-way merge: a local file is replaced exactly when the remote one is another and has moved since the last sync, and the local one was unedited or force is given; it refuses only a real conflict |
| S3Sync.SyncPull | scripts/lib/_vault_s3_sync.py:472-560 | a pull, stopped after any request, satisfies its relation, refusals and the baseline included |
| S3Sync.LogIsGapless | scripts/lib/_vault_s3_sync.py:383-396 | the check after the download accepts exactly a gapless log |
| S3Sync.LogsAreAlwaysGapless | scripts/lib/_vault_s3_sync.py:383-396 | in every run of appends, edits, pushes and pulls on any number of nodes, every log is gapless from 0 at every moment |
| S3Sync.ShardsNeverChange | scripts/lib/_vault_s3_sync.py:424-441 | a shard once written, remotely or locally, keeps its content for the rest of the run |
| S3Sync.ForkRefusalWritesNoShard | scripts/lib/_vault_s3_sync.py:430-436 | a push or pull that refuses a fork has written no shard on either side |
| S3Sync.PullBringsTheWholeLog | scripts/lib/_vault_s3_sync.py:498-512 | after a successful pull the local log includes the whole remote log, and in a run no pull is ever refused for a gap |
| S3Sync.PushMakesTheLogsEqual | scripts/lib/_vault_s3_sync.py:412-441 | after a successful push the remote log is the local log |
| S3Sync.PullOnlyReplacesOldRemoteContent | scripts/lib/_vault_s3_sync.py:521-557 | over all runs, refused and broken-off pulls included, a pull without force replaces only local content that was that object's remote content at an earlier moment |
| S3Sync.PullKeepsWhatIsAhead | scripts/lib/_vault_s3_sync.py:541-543 | over all runs, with or without force and wherever the pull stops, a local file whose remote one has not moved since the last sync is left alone |
| S3Sync.PullReplacesExactly | scripts/lib/_vault_s3_sync.py:521-557 | over all runs, a pull that succeeds replaces a local file if and only if the remote one is another and has moved since the last sync; any pull replaces only such files, by the remote content, and without force only unedited ones |
| S3Sync.PullBringsNewFiles | scripts/lib/_vault_s3_sync.py:526-531 | a pull that succeeds brings every remote file that was not here, and no pull makes up others |
| Topo.Sort | scripts/lib/product_scope.py:855-873 | lists every item by depth in the dependency graph and then by input place, and refuses if and only if the known dependencies close a cycle |
| Topo.DepsFirst | scripts/lib/product_scope.py:855-873 | in that order every item comes after everything it depends on |
| Topo.DepthIsUnique | scripts/lib/product_scope.py:866-872 | the depth that orders the items is determined by the graph alone, so the order is |
| Topo.OrderingExcludesCycles | scripts/lib/product_scope.py:867-870 | no graph with an ordering has a closed walk of dependencies |
| Topo.FollowToACycle | scripts/lib/product_scope.py:867-870 | where every unplaced item waits for another unplaced one, following the waits closes a cycle |
| IdAlloc.ParseFmt | scripts/lib/id_allocator.py:83-94 | a formatted id parses back to its number at any width, also with a name appended |
| IdAlloc.FmtInjective | scripts/lib/id_allocator.py:83-86 | different numbers have different ids |
| IdAlloc.ScanMax | scripts/lib/id_allocator.py:97-104 | the largest number among the ids of a kind, 0 when there is none |
| ScopePlan.ChildrenByParent | scripts/lib/product_scope.py:316-364 | files every candidate id exactly once under each parent it claims, in the canonical order, and marks exactly the parents with a child of several |
| ScopePlan.RelationIsUnique | scripts/lib/product_scope.py:316-379 | two readings of the same candidates, in any order and however often each is met, give the same lists of children |
| ScopePlan.SeenTwiceIsSeenOnce | scripts/lib/product_scope.py:344-352 | the relation depends only on which candidates are seen: a candidate caught in both files mid-move changes nothing |
| ScopePlan.Classify | scripts/lib/product_scope.py:988-1049 | sorts the items, in order, into already materialized, refused and mintable by the relation, ambiguity before everything else |
| ScopePlan.FirstUnmet | scripts/lib/product_scope.py:1062-1072 | finds a dependency that is neither unambiguously materialized nor named in the batch exactly when there is one |
| ScopePlan.Sweep | scripts/lib/product_scope.py:1058-1078 | one pass over a snapshot drops only items no mintable batch contains, and a pass that drops nothing leaves every item's dependencies met |
| ScopePlan.Withhold | scripts/lib/product_scope.py:1051-1078 | terminates with the greatest batch of mintable items whose every dependency is unambiguously materialized or in the batch; each withheld row names a dependency that is unmet in the end and a root that is no mintable item |
| ScopePlan.MakePlan | scripts/lib/product_scope.py:954-1085 | the whole plan: the four outcomes of every item, the mint set being the greatest closed one |
| ScopePlan.WhoIsRefused | scripts/lib/product_scope.py:988-1048 | in terms of the candidates alone: an item is refused if and only if a child of it claims a second parent, or it has no child and an unowned candidate carries its non-empty title unacknowledged |
| ScopePlan.WhoIsMaterialized | scripts/lib/product_scope.py:1018-1028 | an item counts as materialized if and only if it has a child and none of its children claims a second parent |
| ScopePlan.WhoIsMintable | scripts/lib/product_scope.py:1029-1049 | an item is minted or withheld if and only if it has no child and no title that an unowned candidate carries unacknowledged |
| ScopePlan.PlanPartitions | scripts/lib/product_scope.py:988-1085 | every item has exactly one of the four outcomes |
| ScopePlan.Preview | scripts/lib/product_scope.py:1561-1596 | the checks before an addition pass exactly when nobody is refused, every mintable item can be minted with the others, and the only mintable item is the new one |
| ScopeMint.Backlog.MintIds | scripts/lib/product_scope.py:1174-1189 | mints consecutive numbers from the one after floor and counter on, and refuses exactly when an item of the batch has no id, shares one, or already has children |
| ScopeMint.Backlog.Materialize | scripts/lib/product_scope.py:1138-1219 | appends one record per planned item, numbered on from the counter and everything seen, or changes nothing; refuses if and only if a planned item has no identity or a repeated one, or its own fields make no record |
| ScopeMint.RecordSaysExactly | scripts/lib/product_scope.py:1191-1213 | each record has its item's title, that item as its one parent, and as dependencies exactly the new ids of the batch-mates it names and, for every other declared dependency, all the children that one has |
| ScopeMint.FanOutInOrder | scripts/lib/product_scope.py:1191-1210 | the dependencies are listed in declared order, one after the other |
| ScopeMint.FreshIds | scripts/lib/product_scope.py:1176-1189 | the new candidate ids are pairwise distinct and none of them is in the live or the archived file |
| ScopeMint.EveryDependencyIsCarried | scripts/lib/product_scope.py:1191-1213 | with dependencies stored as ids a new record depends on its batch-mate's new id or on all and only the children of that parent, never of one in doubt |
| ScopeMint.NoDependencyTwice | scripts/lib/product_scope.py:1198-1210 | the fan-out has no repetition if and only if no reference that contributes anything is made twice and no candidate id is claimed for two of the named parents |
| ScopeMint.RecordListsEachOnce | scripts/lib/product_scope.py:1174-1213 | the same for every record of a mint, whose new ids never interfere |
| ScopeMint.AgreeingIdsShareNoChild | scripts/lib/product_scope.py:316-340 | when candidates under one id agree on their parents, parents without doubt share no child |
| ScopeMint.RepeatedReferenceIsListedTwice | scripts/lib/product_scope.py:1205-1210 | a batch-mate named twice is listed twice, with nothing wrong in either file |
| ScopeMint.SharedIdIsListedTwice | scripts/lib/product_scope.py:1204-1210 | two rows under one id with one parent each are listed twice and nobody is in doubt |
| ScopeMint.DroppedExactlyWhenNamedByLabel | scripts/lib/product_scope.py:1205-1210 | a planned item's dependency leaves no trace in the record exactly when it is neither a batch-mate's id nor a parent; it was then let through on a label |
| ScopeMint.ALabelledDependencyIsLost | scripts/lib/product_scope.py:1069-1072 | such an input: two fresh items, the second waiting for the first by label, minted with no dependency |
| ScopeMint.SecondRunMintsNothing | scripts/lib/product_scope.py:460-476 | idempotence: planning again over the same candidates and the new ones, moved or seen twice, mints nothing |
| ScopeCore.PutKeepsTable | scripts/lib/product_scope.py:1373-1376 | the key table: a key stands for the last id given under it, a label that is no key for its item |
| ScopeCore.GivenDiffer | scripts/lib/product_scope.py:1372-1376 | kept ids and new numbers of a batch never coincide |
| ScopeCore.LastNumberIsKept | scripts/lib/product_scope.py:1373-1383 | the last number issued in a batch ends up on an item, also when keys collide |
| ScopeCore.KeptReferenceLeads | scripts/lib/product_scope.py:1371-1399 | with distinct keys a reference that is kept leads to the item keyed by it, or else labelled with it |
| ScopeCore.KeyedReferencesPointBack | scripts/lib/product_scope.py:1370-1399 | when no reference is by label to an item with an id, every written reference points at an earlier item |
| ScopeReferences.KeptExactlyWhenSpelled | scripts/lib/product_scope.py:1371-1399 | for every payload a reference is kept exactly when it is, letter for letter, a key or the label of an item that speaks for its key |
| ScopeReferences.NothingDroppedExactlyWhenTrimmed | scripts/lib/product_scope.py:656-676 | with distinct keys no accepted reference is lost if and only if every reference is written without blanks around it |
| ScopeReferences.PaddedIsAccepted | scripts/lib/product_scope.py:666-670 | an input with one blank in front of a reference passes every gate of the first decomposition |
| ScopeReferences.PaddedIsDropped | scripts/lib/product_scope.py:1304-1307 | and whatever is written for it has no dependency left |
| ScopeCycles.CycleWrittenExactlyWhenNamed | scripts/lib/product_scope.py:1371-1399 | an accepted batch with distinct keys leaves a circle of ids in the scope file if and only if the payload's references, each read as the key of the item it names, close one |
| ScopeCycles.RepeatWrittenExactlyWhenNamed | scripts/lib/product_scope.py:1399 | a written item lists an id twice exactly when two of its references lead to the same key |
| ScopeCycles.LoopIsAccepted | scripts/lib/product_scope.py:1371 | two live items that wait for each other by label pass every gate |
| ScopeCycles.LoopIsWritten | scripts/lib/product_scope.py:1371-1399 | and are written as a circle of ids, whatever the numbering |
| ScopeLedger.NothingForgotten | scripts/lib/product_scope.py:1426-1440 | an id leaves the live items only into the ledger |
| ScopeLedger.ReplayStep | scripts/lib/product_scope.py:1429-1440 | across every change: as a set, replaying the ledger over the first ids gives the present ids; with the recorded counts it does so if and only if it did before, and the change left distinct ids or no change of members |
| ScopeIds.FloorIsAboveIssued | scripts/lib/id_allocator.py:180-205 | the floor read from items and ledger is above every number ever issued |
| ScopeIds.StillCovered | scripts/lib/product_scope.py:1372-1440 | after any accepted batch, colliding keys included, every number ever issued is still covered by one on record |
| ScopeIds.KeptOrCut | scripts/lib/product_scope.py:575-653 | a live id stays exactly when it is restated and goes exactly when it is cut |
| ScopeIds.ReferencesExactly | scripts/lib/product_scope.py:666-670 | a list's references pass if and only if each of them, stripped, is the stripped id of an item that has one or the label of an item that has one |
| ScopeIds.StaysCanonical | scripts/lib/product_scope.py:1372-1440 | after any accepted batch, colliding keys included, every id on record is an issued number in its own spelling |
| ScopeIds.StaysExact | scripts/lib/product_scope.py:1425-1440 | with distinct keys every number issued stays on record exactly once and nothing else is on record |
| ScopeFile.Scope.Floor | scripts/lib/id_allocator.py:180-205 | the floor is the largest number in the live items and the ledger together, 0 when there is none |
| ScopeFile.Scope.Assign | scripts/lib/product_scope.py:1372-1376 | the numbering loop gives each item of the ordered batch its own id or the next number, and leaves the counter at the last one |
| ScopeFile.Scope.Persist | scripts/lib/product_scope.py:1245-1311 | accepted exactly on an empty scope with new, labelled and acyclic items whose references resolve once stripped; the written list is numbered in a row from the one after the counter and the floor, in dependency order with every reference that is kept pointing back |
| ScopeFile.Scope.Revise | scripts/lib/product_scope.py:1445-1521 | accepted exactly when every gate passes; a refusal changes nothing; every run keeps issued numbers rising and covered, the counter above them unless a hand has set it since, and the ledger exact as long as keys were distinct |
| ScopeFile.Scope.AddOnTop | scripts/lib/product_scope.py:1541-1663 | the in-lock half of an addition: accepted exactly when the gates pass and the plan would mint the new item and nothing else; a refusal changes nothing; adds by the core that a revision uses |
| ScopeLaws.RevisionSplitsExactly | scripts/lib/product_scope.py:575-653 | an accepted revision with distinct keys splits the old ids into restated and cut, adds only ids never on record, and keeps the number of items |
| ScopeLaws.RestatingIsAcceptedExactly | scripts/lib/product_scope.py:1445-1521 | in every valid state in which no accepted batch has shared a key, the live items handed in again unchanged pass every check, references by id included, if and only if they close no circle |
| ScopeLaws.DistinctExactlyWhenKeysAre | scripts/lib/product_scope.py:1371-1383 | an accepted batch leaves its written ids distinct if and only if no two of its items share a key |
| ScopeLaws.KeysCollideOnlyAcross | scripts/lib/product_scope.py:534-572 | given the identity check, keys collide exactly when a new item's label is another item's id |
| ScopeLaws.ClashIsAccepted | scripts/lib/product_scope.py:534-572 | an input with such a label passes every gate with nothing cut |
| ScopeLaws.ClashLosesTheItem | scripts/lib/product_scope.py:855-873 | and whatever is written for it no longer has the old item |
| ScopeLaws.ClashIsReported | scripts/lib/id_allocation_audit.py:140-170 | and the audit, clean before, reports a duplicate |
| ScopeLaws.LedgerReplaysExactly | scripts/lib/product_scope.py:1426-1440 | over every accepted batch the ledger replays afterwards if and only if it did before, and no two items shared a key or the members stayed the same |
| ScopeLaws.ClashBreaksTheLedger | scripts/lib/product_scope.py:1426-1440 | the clashing input: a ledger that replays before does not replay after, whatever is written |
| ScopeLaws.OneIdExactlyWhenLabelIsFree | scripts/lib/product_scope.py:1669-1675 | adding one item leaves exactly one new id if and only if its label is not the id of a live item |
| ScopeAddition.AddItem | scripts/lib/product_scope.py:1600-1706 | the whole verb, over the backlog as the mint finds it: refused exactly by the gates; malformed exactly when the label is a live id; otherwise done with one fresh record for the new id if and only if the plan then mints just that item, and half-applied if it does not; over the candidates of the preview the outcome is foretold by the file, the counter and the candidates before the call |
| ScopeAddition.CompletedExactlyWhenIdIsUnclaimed | scripts/lib/product_scope.py:1677-1704 | over the candidates of the preview, with the id acknowledged when the label was, the plan afterwards mints just the new item if and only if no candidate claims its id |
| ScopeAddition.EndsExactly | scripts/lib/product_scope.py:1541-1704 | over the candidates of the preview: malformed if and only if the label is a live id; otherwise the one new id is the number after the stored counter and everything on record before the call, and the addition is half-applied if and only if a candidate claims that id |
| ScopeAddition.ClaimedIdIsAccepted | scripts/lib/product_scope.py:1561-1596 | an addition whose next id is claimed by a candidate passes every gate before the write |
| ScopeAddition.ClaimedIdIsHalfApplied | scripts/lib/product_scope.py:1689-1704 | and, with the stored counter at most 1, is foretold to end half-applied under PS-002 |
| ScopeAddition.HalfAppliedAddition | scripts/lib/product_scope.py:1600-1706 | the run itself, from an empty scope: a first decomposition of one item, and the addition that ends half-applied |
| ScopeLaws.Audit | scripts/lib/id_allocation_audit.py:140-170 | reports a duplicate exactly when a number is on record twice and staleness exactly when the counter is below one |
| ScopeLaws.ReportsExactly | scripts/lib/id_allocation_audit.py:127-170 | for every scope file the verbs can leave behind, a duplicate is reported exactly when an id is on record twice, staleness exactly when the counter is below an issued number |
| ScopeLaws.CleanInEveryReachableState | scripts/lib/id_allocation_audit.py:127-170 | over all runs of the verbs and of hands on the counter: no duplicate while keys were distinct, and no staleness while no hand has set the counter since the last number was taken |
| ScopeLaws.DuplicateExactlyWhenKeysCollide | scripts/lib/id_allocation_audit.py:140-170 | from a clean file, an accepted batch leads to a duplicate if and only if two of its items share a key |
| ScopeFile.CounterClears | scripts/lib/id_allocator.py:107-124 | taking a number lifts the counter over everything issued, wherever a hand had left it |
| UnionFind.Forest.Find | scripts/lib/finding_dedup.py:147-151 | terminates, returns the root, and halves paths without changing any element's root |
| UnionFind.Forest.Union | scripts/lib/finding_dedup.py:153-156 | the second tree's elements get the first root, all others keep theirs |
| UnionFind.JoinKeepsRooted | scripts/lib/finding_dedup.py:153-156 | hanging one root under another keeps a measure that drops along every parent link |
| FindingDedup.LinkIsSymmetric | scripts/lib/finding_dedup.py:118-135 | two findings link in either order, the guard for wide findings included |
| FindingDedup.LinkExactly | scripts/lib/finding_dedup.py:114-135 | two findings link if and only if some location of each is in the same file, and their ranges overlap or are at most the gap apart, or one gives no range and neither finding is wide |
| FindingDedup.SeveritiesInOrder | scripts/lib/finding_dedup.py:177-178 | the severities rank strictly in the documented order, in any case, and any other word below them all |
| FindingDedup.RootsAreComponents | scripts/lib/finding_dedup.py:159-168 | with every pair seen, two findings have the same root if and only if a chain of links joins them |
| FindingDedup.Connect | scripts/lib/finding_dedup.py:159-168 | the pair loop: every union is justified by a chain of links and every link seen is honoured |
| FindingDedup.ClusterGroups | scripts/lib/finding_dedup.py:159-172 | the groups are exactly the connected components, each in input order, listed by first member, and their sizes add up to the input |
| FindingDedup.ClustersIgnoreOrder | scripts/lib/finding_dedup.py:159-172 | two findings share a cluster after any reshuffling of the input exactly when they did before |
| FindingDedup.EachClusterSurvivesShuffling | scripts/lib/finding_dedup.py:159-172 | each cluster of a reshuffled input is a cluster of the original |
| FindingDedup.InExactlyOne | scripts/lib/finding_dedup.py:239-262 | each finding ends up in exactly one output |
| FindingDedup.UnionEvidence | scripts/lib/finding_dedup.py:195-209 | every distinct piece of evidence of the group once, and nothing else |
| FindingDedup.MostSevere | scripts/lib/finding_dedup.py:223 | the first member of the highest severity rank |
| FindingDedup.Merge | scripts/lib/finding_dedup.py:212-236 | the merged severity is the group's maximum, evidence and ids are the members', a singleton is returned as it was |
| FindingDedup.Dedupe | scripts/lib/finding_dedup.py:239-262 | one output per connected component, no finding lost or repeated |
| VaultWrite.NormalizeUndoesExpand | scripts/lib/_vault_write.py:75-81 | normalizing undoes expanding on every byte string, lone CRs and CRLF pairs included |
| VaultWrite.ReapplyIsIdempotent | scripts/lib/_vault_write.py:290-294 | expand-after-normalize settles after one application |
| VaultWrite.NormalizeTwice | scripts/lib/_vault_write.py:75-81 | normalizing twice equals normalizing once if and only if the text has no CR CR LF |
| VaultWrite.TwoCarriageReturns | scripts/lib/_vault_write.py:75-81 | CR CR LF normalizes to CR LF and that to LF |
| VaultWrite.SavedReadsBack | scripts/lib/_vault_write.py:287-297 | whatever the target's line endings, what is saved reads back as the text |
| VaultWrite.SavedKeepsTheEndings | scripts/lib/_vault_write.py:84-90 | a target with a CRLF gets CRLF at every line, and any other target gets the text as it is |
| VaultWrite.EveryLfHasItsCr | scripts/lib/_vault_write.py:84-90 | on a CRLF target every LF written is preceded by its CR |
| VaultWrite.NoLostUpdate | scripts/lib/_vault_write.py:249-337 | over every run of mutators and compare-and-swap rewriters the final text is the committed edits applied in lock order, none dropped |
| VaultWrite.Target.Rewrite | scripts/lib/_vault_write.py:279-297 | writes exactly when the file is, up to line endings, what the caller read; otherwise touches nothing |
| VaultWrite.Target.Mutate | scripts/lib/_vault_write.py:322-337 | applies the change to the text read under the lock; a change that raises leaves the file alone |
| VaultWrite.RewriteThenRewrite | scripts/lib/_vault_write.py:279-297 | two rewrites in a row, the second from the text of the first: when the first goes through so does the second, and the file ends as its text |
| VaultWrite.Log.Append | scripts/lib/_vault_write.py:233-246 | the short-write loop ends with all the data appended exactly when the write calls get through it, and otherwise with a proper prefix and a failure |
| Grounding.GraphTokenVerified | scripts/lib/_crg_grounding_probe.py:145-157 | a graph token is verified if and only if exactly one file answers for its path and, with a symbol, that file has it |
| Grounding.NothingFromADeadGraph | scripts/lib/grounding_verify.py:310-318 | with the graph or the batch down no `crg:` token is verified |
| Grounding.ResolveBatch | scripts/lib/_crg_grounding_probe.py:160-185 | the graph is asked for each distinct path and for none twice, and every token gets the verdict of a lookup of its own |
| Grounding.SlotDocument | scripts/lib/grounding_verify.py:276-288 | phase A: what is deferred is what the token itself says, whatever repeats |
| Grounding.SlotMeansAlone | scripts/lib/grounding_verify.py:310-318 | a slot read against the batch gives the token's own verdict |
| Grounding.ReportSplits | scripts/lib/grounding_verify.py:320-330 | each token is on exactly one side of its document's report, with its own verdict, none lost and none invented |
| Grounding.Verify | scripts/lib/grounding_verify.py:269-330 | two phases, one answer: each document's report is what looking up its tokens one by one gives, in order |
| GroundingVerdicts.VaultTokenExactly | scripts/lib/grounding_verify.py:173-179 | a vault token is verified if and only if it has a plain path and no symbol, the vault is known and has the file; each other verdict exactly |
| GroundingVerdicts.FileTokenExactly | scripts/lib/grounding_verify.py:181-201 | a file token is verified if and only if its plain path leads to a file of the repository and its symbol, if any, stands there as a word of its own; each other verdict exactly |
| GroundingVerdicts.GraphTokenExactly | scripts/lib/_crg_grounding_probe.py:145-157 | a graph token, in terms of the entries the graph returned: verified if and only if graph and batch are up, exactly one file answers and the symbol, if any, is listed; each other verdict exactly |
| GroundingVerdicts.OtherTokensAreMalformed | scripts/lib/grounding_verify.py:161-211 | what is no text, has no colon or names another scheme is malformed |
| BriefVariants.Uncovered | scripts/lib/brief_variants_audit.py:311-318 | the gate lists exactly the declared labels that no valid row names |
| BriefVariants.OneLabel | scripts/lib/brief_variants_audit.py:173-179 | "AC" in any case, any dashes, underscores, hashes and blanks, and then a name: the label is that name |
| BriefVariants.NoLabel | scripts/lib/brief_variants_audit.py:173-179 | "AC" with nothing but separators behind it has the empty label |
| BriefVariants.OwnLabel | scripts/lib/brief_variants_audit.py:173-179 | a plain name without "ac" in front is its own label |
| BriefVariants.PlaceholdersExactly | scripts/lib/brief_variants_audit.py:159-160 | the cells that count as empty, whatever their case and the blanks around them |
| BriefVariants.ValidExactly | scripts/lib/brief_variants_audit.py:249-256 | the gate accepts a row if and only if it names something and its status is one of the three words, in any case |
| BriefVariants.DeclaredInOrder | scripts/lib/brief_variants_audit.py:296-308 | what a brief declares is what its criteria declare one by one, in order |
| BriefVariants.DeclaredByOne | scripts/lib/brief_variants_audit.py:304-307 | a criterion declares its id, or else its fallback label, unless that is blank |
| BriefVariants.Brief.Scaffold | scripts/lib/brief_variants_audit.py:321-389 | the plan becomes the old rows without the orphans followed by one stub per uncovered label; a disabled brief is left alone |
| BriefVariants.GateAfterScaffold | scripts/lib/brief_variants_audit.py:311-364 | after scaffolding a declared criterion passes the gate if and only if a valid row named it, or no row did and its first spelling is no placeholder |
| BriefVariants.UnknownStatusBlocksTheStub | scripts/lib/brief_variants_audit.py:311-364 | an "AC-1" named by a row of unknown status: the plan stays as it is and the gate rejects it |
| BriefVariants.PlaceholderNeverPasses | scripts/lib/brief_variants_audit.py:311-364 | a declared "n/a": it gets a row, and the gate does not accept it |
| BriefVariants.StubsHave | scripts/lib/brief_variants_audit.py:357-364 | a label gets a stub exactly when it is declared and was not covered, spelled as first declared |
| BriefVariants.ScaffoldTwice | scripts/lib/brief_variants_audit.py:321-389 | scaffolding twice is scaffolding once |
| BriefVariants.BuilderRowsSurvive | scripts/lib/brief_variants_audit.py:366-379 | every row that is not a scaffolder's orphan survives unchanged and in order |
| BriefVariants.StubIsPrunedExactly | scripts/lib/brief_variants_audit.py:366-376 | a stub the scaffolder wrote is pruned again if and only if its criterion is no longer declared |
| Rollup.AheadIsTotal | scripts/lib/product_rollup.py:185-192 | the area order is total on different names, antisymmetric and transitive |
| Rollup.AheadMeans | scripts/lib/product_rollup.py:178-188 | least complete first, compared crosswise without division, then the larger, then the smaller name |
| Rollup.BucketsExactly | scripts/lib/product_rollup.py:91-107 | each state in terms of the reported word and the composition: rejected-only if and only if all that is archived was rejected |
| Rollup.OrderAreas | scripts/lib/product_rollup.py:185-192 | the same areas, strictly ranked |
| Rollup.BreachExactly | scripts/lib/product_rollup.py:195-202 | the conservation check passes exactly when every state and the total of areas and rest add up to the whole, and the whole's states to its total |
| Rollup.Count | scripts/lib/product_rollup.py:267-280 | the counting loop: each area and the unassigned rest hold exactly the number of their capabilities per state, with their own totals and composition, and together they are the whole |
| Rollup.BuildEnvelope | scripts/lib/product_rollup.py:254-311 | refuses exactly when the two reads saw different items; every area is listed once with exact counts, total, composition and rank; the conservation-breach branch is never taken |
| MdToHtml.TablePuts | scripts/lib/assemble.py:394-416 | a flushed table is balanced and shows the cells of every row but the second, the first row's as heads and the others' in the body |
| MdToHtml.MiddleRowIsDropped | scripts/lib/assemble.py:394-416 | a table of three rows of data: the cells of the second are not on the page |
| MdToHtml.Renderer.Line | scripts/lib/assemble.py:423-489 | every line keeps at most one block open, a list exactly after a bullet, with exactly that block's tags open, and brings exactly what it should to the page: the paragraph it ends and its own text, inside its own tags |
| MdToHtml.Render | scripts/lib/assemble.py:362-496 | for every input the tags are balanced at the end, and on the page are exactly the wanted passages, in order and each inside its tags |
| MdLines.KindsExactly | scripts/lib/assemble.py:426-484 | every kind of line if and only if its characters are so; no line is of two kinds, so the order of the tests does not matter |
| MdLines.CellsComeBackExactly | scripts/lib/assemble.py:465 | a row of cells without bars in them reads as those cells, stripped, if and only if it is one empty cell or neither its first nor its last cell is empty |
| MdLines.BehindExactly | scripts/lib/assemble.py:443-478 | a heading or bullet says the text behind its marker and the blanks after it |

## Left out

- Real processes, sockets, credentials, retry loops and messages: only the effect of a call on refs, files and objects is kept.
- Hashes: modelled as injective; a git commit is its body and its time stamp, an object is compared by content. Remote objects without a content-hash header, where the code falls back on other comparisons, are not modelled.
- JSON text: documents are values; a file is readable or it is not.
- `redact`, remote detection, client version probing and the sweep of leaked read-back refs in `scripts/lib/_claim_git.py`: no part of the decision.
- `_read_signal` and `coordination_backend` in `scripts/lib/_claim_coord.py`: configuration.
- ShardStore.Vault.AppendEntry: assumes the vault is really sharded when the lock is taken, because the code creates the directory before taking it; duplicate suppression (`dedup_check`) is not modelled.
- ShardStore.Vault.MigrateReverse: removes the shard directory in one step; a crash in the middle of that removal is not modelled. The `.gitignore` edits beside a migration are not modelled either.
- ShardStore.ReadersSeeWhatWasAcknowledged: a reader's second look sees the directory at one moment, not file by file.
- ShardStore.Vault.PullShards: atomic with respect to local appends, because sync does not take the append lock.
- A forced git reset, which can shorten the log before the cache is dropped, and the rest of `scripts/lib/_vault_git_sync.py`.
- S3Sync.SyncPush: the objects of one push or pull are taken in some order, the shards by number; one push or pull has the bucket to itself, because the code documents its window between listing and writing; all nodes are already sharded, with canonical shard names, and keys outside the vault are not modelled.
- The rows of an ambiguity report.
- `iter_sources` and the shapes of a candidate's `source`: a candidate comes with its distinct parents.
- The fields of a scope item other than id, label, title and dependencies, and the gates on them, enter only through `contract` and, at the mint, through `unfit`.
- ScopeAddition.AddItem: no item is unfit at its mint, because the gate in the lock has just passed on the fields of every item it wrote.
- ScopeFile.Scope.Revise: the refusal before the lock is not modelled apart from the one inside it, which subsumes it; an item's id is absent or a non-empty text.
- ScopeReferences.NothingDroppedExactlyWhenTrimmed: references are texts; one of another JSON type passes the gate by its text and is dropped by the rewriting in the same way, and is not modelled.
- `materialize`'s report, `cmd_done`, areas, census and the torn-provenance check; identity kinds other than `ps` and `sc`.
- `add-item --dry-run`, which takes the same gates on a copy and reports what the plan would mint; the copy and the report are not modelled.
- A whole-file `vault_edit rewrite` of the scope, which bypasses the ledger by documented design.
- FindingDedup.Dedupe: evidence text is not parsed (locations are given), the final sort for display, the representative's prose and the `F-MRG-` ids are left out; those ids are not claimed to be unique.
- `safe_write_text`, lock acquisition and the retries around an atomic replace.
- VaultWrite.NoLostUpdate: a caller's edit is a function of the text with line endings normalized.
- Grounding.Verify: the public-surface leg, staleness of the graph and a grounding value that is no map are left out; path normalization and containment are given functions, and the batch answers every token it was asked.
- Other brief variants and the on-disk checks of the strict mode; cell values are text.
- Rollup.OrderAreas: ratios are exact fractions, where the code divides floats; names compare by character code.
- MdToHtml.Render: inline formatting, code-block classes and HTML escaping; the lines of a paragraph are kept apart where the code joins them with a space.
- `str.casefold` and `str.lower` act on ASCII letters only.
