# Verified model of git-warp's v18-to-v19 migration and Runtime concurrency

This project models two parts of git-warp in Dafny and proves what they guarantee.

**The one-shot migration (`scripts/v18-to-v19/`).** The command inventories the refs of one graph,
checks that every writer is one complete linear chain, rewrites the chains commit by commit in a
disposable repository, carries the retained checkpoint over, inventories again, archives the old refs
and promotes the new ones in a single compare-and-swap transaction, verifies, and rolls back on
failure. The ref store is a map changed by atomic transactions. Foreign processes may write between
any two steps: `Repository.Foreign` changes every ref outside a set `keep`, and every claim is made
for the names in `keep`. Commits are texts in a store that files each text under its hash; no
collision-freeness is assumed, a collision shows up as a failed write.

The main result is `MigrationCommand.Run`. For every name nobody else touched, the ending of a run
decides what is left: on a migration, a rollback that could not complete, or a cleanup failure that
masks one of these, each graph ref outside the archive is exactly what the migration wants of its old
value; on every other ending it is what it was. Whatever stood in the graph is in the archive as soon
as anything is. Wherever migrated refs are left, no history is lost: each kept writer ref ends one
complete rewritten chain that carries every patch of the chain it stood for, and a frontier of old heads
translates to the new ones. With nobody else writing, the contract says exactly how each run ends.

**The Runtime's concurrency and settlement layer (`src/application/`).** The promise-chain gate, the
activity tracker and the settlement protocol are transition systems whose steps are the code between
two awaits; the storage calls are oracles that may answer or change the world in any way. The gate is
shown to refine a lock with a queue, and the settlement system runs on that same gate, so its safety
is proved for every interleaving of lane writes, strand writes, forks, previews and settlements.
`RuntimeWork` composes it with the activity tracker: a settlement is admitted once, everything it does
then happens before local resources are released, and a close in between changes none of it.
The classes keep the fields the source keeps and are proved against the transition systems.

Module by module: `Text` and `Wrappers` (shared), `CommitCodec`, `PatchCommits` (commit text and patch
trailers), `WriterChain`, `WriterChainRewriter` (chains and their rewrite), `RefStore`, `Promotion`,
`Finalizer`, `MigrationPlan`, `MigrationScratch`, `ScratchRewrite`, `MigrationCommand` (refs),
`PatchTranslator`, `CheckpointSeed`, `BundleMembers` (content and checkpoint), `GitObjectReader`,
`CommitWriter`, `ProgressCoalescer`, `MutationGate`, `RuntimeActivity`, `RuntimeSettlement`, `RuntimeWork`,
`ObservationStream`, `OpaqueId`.

## Where the code does less than one might expect

Each of these is a lemma with a concrete input or an exact condition.

- A content register of a *current* patch that still names an object disagrees with a replay of the
  rewritten history (`CheckpointSeed.CurrentObjectReferencesDisagree`).
- Event ids contain the patch's commit name, so a replay of the rewritten history gives the seeded
  registers with other event ids, and a rename can change who holds a property. No holder changes exactly
  when every patch tied with a holder (same writer, Lamport time and property) has the lesser new name
  (`CheckpointSeed.WinnersStayExactly`), and the seed equals the replay exactly when, besides, every winning
  content register survives (`CheckpointSeed.SeedEqualsReplayExactly`). The commit map keeps patches apart,
  as both need (`CheckpointSeed.RewritesKeepPatchesApart`). The planner accepts a chain that reuses a
  Lamport time, and then a holder can change (`CheckpointSeed.ReusedLamportsFlipTheWinner`); with one
  Lamport time per patch none does (`CheckpointSeed.OneLamportPerPatchKeepsWinners`).
- Two progress deliveries of one stream run, with no flush between, come closer than the render interval
  exactly when the second ends the run and the next stream's first report arrives before the interval is
  over (`ProgressCoalescer.EarlyExactlyBeforeAChange`).
- A preview makes several separate admissions and can be refused midway exactly when a close falls between
  two of them (`RuntimeActivity.RefusedMidway`). A settlement makes one and cannot
  (`RuntimeWork.CloseChangesNothing`).
- A ref created in the graph between the second inventory and the transaction survives the migration
  (`Promotion.PromotionReplacesAnAreaExactly`).
- Parsing refuses a printed identity whose name holds a line separator the printer let through
  (`CommitCodec.ParseSerialized`).

One promise rests on the lanes: two plans made against one frontier of a target are accepted only if
something restores that frontier in between (`RuntimeSettlement.TwoOnOneBasisNeedARestore`), and a plan
of an unchanged draft is accepted exactly when its target stands at its frontier
(`RuntimeSettlement.AcceptedExactlyOnItsFrontier`). No append restores an old frontier, so writes through
lanes keep it; `RuntimeSettlement.ReusedFrontierAcceptsTwo` shows that the condition is needed, with a
mutation of a kind the lanes do not have. That a draft is accepted at most once is meant per handle, the
draft object that one Lane works on: a strand that is opened again gets a new handle.

## Model

| member | source | states |
|---|---|---|
| RefStore.ApplicableByName | scripts/v18-to-v19/V18MigrationFinalizer.ts:205-230 | A transaction is accepted exactly when every name, looked at alone, is named at most once and holds the expected value. |
| RefStore.AppliedByName | scripts/v18-to-v19/V18MigrationFinalizer.ts:205-230 | After a transaction each name has the value its own command gives it, whatever the other commands do. |
| RefStore.Repository.Transact | scripts/v18-to-v19/V18MigrationFinalizer.ts:227-229 | A transaction runs as a whole or changes nothing and reports failure. |
| RefStore.Repository.DeleteRef | scripts/v18-to-v19/V18MigrationFinalizer.ts:252-259 | Deletes one ref only at its expected value. |
| RefStore.Repository.MoveRef | scripts/v18-to-v19/V18WriterChainRewriter.ts:88-93 | Moves one ref only from its expected value. |
| Promotion.PromotionApplies | scripts/v18-to-v19/V18MigrationFinalizer.ts:205-230 | The promotion goes through exactly when every source ref has its expected value and no new or archive name is taken; it then leaves the old refs without the sources, plus the desired refs, plus the archive. |
| Promotion.RollbackApplies | scripts/v18-to-v19/V18MigrationFinalizer.ts:82-107 | The rollback goes through exactly when every promoted ref is unchanged and no retired ref reappeared; it then restores the sources. |
| Promotion.PromotionCommands | scripts/v18-to-v19/V18MigrationFinalizer.ts:205-226 | The lines sent create each archive ref, create or update each desired ref, and delete each source ref that is not desired, each name once. |
| Promotion.RollbackCommands | scripts/v18-to-v19/V18MigrationFinalizer.ts:86-101 | The lines sent revert or delete each promoted ref and revive each retired one. |
| Promotion.RollbackUndoesPromotion | scripts/v18-to-v19/V18MigrationFinalizer.ts:82-107 | After arbitrary foreign changes, rollback is possible exactly when no touched ref moved since the promotion; every touched ref then has its value from before, every other ref its current one. |
| Promotion.RollbackLeavesTheArchive | scripts/v18-to-v19/V18MigrationFinalizer.ts:82-107 | Promotion followed by rollback is the original store plus the archive. |
| Promotion.PromotionReplacesAnAreaExactly | scripts/v18-to-v19/V18MigrationFinalizer.ts:205-230 | Promotion leaves exactly the desired refs in an area if and only if every ref that stood there was planned. |
| Finalizer.ArchiveRefInjective | scripts/v18-to-v19/V18MigrationFinalizer.ts:152-154 | Different source refs are archived under different names. |
| Finalizer.ImportNameIsNotInGraph | scripts/v18-to-v19/V18MigrationFinalizer.ts:126-128 | No temporary import ref lies in any graph. |
| Finalizer.ImportRefSpelled | scripts/v18-to-v19/V18MigrationFinalizer.ts:126-128 | The temporary name of a ref is its own name below the import area of this recovery id. |
| Finalizer.SourceRefsFor | scripts/v18-to-v19/V18MigrationFinalizer.ts:109-118 | The loop collects derived, preserved and writer refs of the plan. |
| Finalizer.SourceRefsAreTheInventory | scripts/v18-to-v19/V18MigrationFinalizer.ts:109-118 | The transaction expects, for every listed ref outside the archive and no other, the value the inventory saw. |
| Finalizer.ImportPreparedRefs | scripts/v18-to-v19/V18MigrationFinalizer.ts:120-143 | Every prepared ref is fetched under its own temporary name at its expected value; other names are untouched; with no foreign writes it succeeds exactly when every fetch finds the expected value. |
| Finalizer.DeleteImportRefs | scripts/v18-to-v19/V18MigrationFinalizer.ts:252-259 | Removes the temporary refs one by one, touches nothing else, and fails exactly on a failing deletion when nobody interferes. |
| Finalizer.ArchiveUnique | scripts/v18-to-v19/V18MigrationFinalizer.ts:145-167 | Sources and retained payloads determine the archive. |
| Finalizer.BuildRecoveryRefs | scripts/v18-to-v19/V18MigrationFinalizer.ts:145-167 | Names the archive or fails exactly when a payload cannot be read or an archive name is taken. Every source ref is archived below `refs/`; if the state cache is a source ref, every payload root it names is archived under its own name with itself as value, and no other; without a state cache no payload name is. |
| Finalizer.ApplyRefTransaction | scripts/v18-to-v19/V18MigrationFinalizer.ts:205-230 | Promotes as a whole exactly when the store admits it. |
| Finalizer.RollbackMigration | scripts/v18-to-v19/V18MigrationFinalizer.ts:82-107 | Rolls back as a whole exactly when the store admits it. |
| Finalizer.VerifyPromotedRefs | scripts/v18-to-v19/V18MigrationFinalizer.ts:232-250 | Passes exactly when every desired ref has its value and every retired ref is gone. |
| Finalizer.PromoteArchived | scripts/v18-to-v19/V18MigrationFinalizer.ts:47-75 | Transaction, verification, rollback: what each ending leaves at every kept name; on a still store, which ending it is, from the store and the verification and rollback faults alone. |
| Finalizer.PromoteImported | scripts/v18-to-v19/V18MigrationFinalizer.ts:36-75 | The same with the archive built first: finalized, rolled back or stuck exactly as the faults say once the promotion goes through. |
| Finalizer.FinalizeMigration | scripts/v18-to-v19/V18MigrationFinalizer.ts:21-79 | For every kept name outside the import namespace, what each ending leaves; the reported finalization is the prepared refs and the full archive; import refs are gone unless importing or their deletion failed; with no foreign writes, exactly which ending a store and its faults give, and when a failed deletion of import refs hides it. The archive it reports holds every source ref and exactly the payload roots of the state cache, name by name. |
| Finalizer.RecoveryIdExactly | scripts/v18-to-v19/V18MigrationFinalizer.ts:275-279 | A recovery id is a letter or digit and at most 63 more letters, digits, dots, underscores or dashes. |
| Finalizer.PlansStayInGraph | scripts/v18-to-v19/V18MigrationPlan.ts:59-108 | Every planned ref lies in the graph and outside its archive. |
| Finalizer.ArchiveInGraph | scripts/v18-to-v19/V18MigrationFinalizer.ts:28-29 | Every archive ref lies below the graph's recovery area. |
| MigrationPlan.ClassifyIgnoresOrder | scripts/v18-to-v19/V18MigrationPlan.ts:88-108 | A ref's class does not depend on the order of the tests: at most one applies, except that the checkpoint head is also a checkpoint ref. |
| MigrationPlan.ClassifyRefs | scripts/v18-to-v19/V18MigrationPlan.ts:85-108 | Every listed ref is filed under exactly its class with its value, or an error names a ref that is unsupported, gone, or not a commit. |
| MigrationPlan.FilableExactly | scripts/v18-to-v19/V18MigrationPlan.ts:85-108 | By name, which listed refs can be filed: commits where commits are kept, derived heads as they are, writers and recovery refs always, nothing else. |
| MigrationPlan.PlanWriter | scripts/v18-to-v19/V18MigrationPlan.ts:142-220 | Accepts a writer exactly when its listed commits are all readable patches of that graph and writer, each on the one before, from a root to the head read, and no legacy one is encrypted without a passphrase; the counts of commits, current, legacy and encrypted patches are the numbers of such positions. |
| MigrationPlan.WriterIdExactly | src/domain/utils/RefLayout.ts:395-441 | A writer ref is `refs/warp/GRAPH/writers/` and a name of one to 64 letters, digits, dots, underscores or dashes without two dots in a row, which is the writer. |
| MigrationPlan.PlanMigration | scripts/v18-to-v19/V18MigrationPlan.ts:48-140 | When each status is reported, exactly, and what a plan that requires migration says about its inventory. |
| MigrationPlan.PlanByName | scripts/v18-to-v19/V18MigrationPlan.ts:66-139 | By name: derived are the checkpoints, the coverage head and the state cache, preserved the refs below the audit, intent, strand and trust areas, writers those below `writers/`, each at the value the inventory saw; the marker is `substrate-version`. |
| MigrationPlan.GraphNameExactly | src/domain/utils/RefLayout.ts:84-126 | A graph name is accepted exactly if it is not empty, has no `..`, semicolon, space or null character, and no segment between slashes is a word of the ref layout. |
| MigrationPlan.PlanPartitionsTheRefs | scripts/v18-to-v19/V18MigrationPlan.ts:85-108 | A plan puts every listed ref in exactly one of writer, derived, preserved or recovery. |
| MigrationPlan.PlannedWritersAreDistinct | scripts/v18-to-v19/V18MigrationPlan.ts:112-131 | Planned writers have different names and their chains share no commit. |
| MigrationPlan.SameHeadSameChain | scripts/v18-to-v19/V18MigrationPlan.ts:156-204 | Two inventories that saw the same head of a writer planned the same chain and counts. |
| MigrationPlan.WriterIdNamesTheRef | src/domain/utils/RefLayout.ts:395-420 | A writer name determines its ref. |
| MigrationScratch.FetchPlanRefs | scripts/v18-to-v19/V18MigrationScratch.ts:146-153 | Fetches exactly the planned refs at their current values, or fails if one is gone. |
| MigrationScratch.MoveWriters | scripts/v18-to-v19/V18WriterChainRewriter.ts:88-93 | Moves every writer ref to its rewritten head and no other ref. |
| MigrationScratch.DeleteDerivedRefs | scripts/v18-to-v19/V18MigrationScratch.ts:155-166 | Removes every derived ref at its planned value except the seeded checkpoint, exactly when all have those values. |
| MigrationScratch.BuildScratch | scripts/v18-to-v19/V18MigrationScratch.ts:59-110 | Given the rewritten heads, exactly when the steps go through, and what they leave: preserved refs as fetched, writers at their heads, the marker, the seeded checkpoint and no other derived ref, or what was published. |
| MigrationScratch.PrepareScratch | scripts/v18-to-v19/V18MigrationScratch.ts:33-129 | Succeeds exactly when its parts do; then preserved refs stand as they were fetched, writers at their rewritten heads, the marker is set, with a seed the checkpoint head is that seed and nothing else is left, without one the rest is exactly what was published. All of it lies in the graph and outside the archive. |
| MigrationScratch.PlansAreClassed | scripts/v18-to-v19/V18MigrationPlan.ts:85-108 | A plan's records hold refs of their class only, and its writers are distinct. |
| MigrationCommand.TakeInventory | scripts/v18-to-v19/V18MigrationPlan.ts:59-102 | Under foreign writes, every kept graph ref is listed exactly if it stands, with its value and the commits that value descends from; on a still store the inventory is the store. |
| MigrationCommand.ReadListed | scripts/v18-to-v19/V18MigrationPlan.ts:156-162 | Reads a ref and, a moment later, the commits it stands at: for a kept ref both are those of its value, for another one they may disagree. |
| MigrationCommand.PlanIsDetermined | scripts/v18-to-v19/V18MigrationPlan.ts:132-139 | An inventory has at most one plan. |
| MigrationCommand.PlanNow | scripts/v18-to-v19/V18MigrationPlan.ts:48-140 | Planning changes no ref; on a still store, exactly which stores are current, empty, or need the migration. |
| MigrationCommand.UnchangedPlansShareSources | scripts/v18-to-v19/V18MigrationCommand.ts:105-125 | Equal plan identities mean equal source refs, so the transaction's expected values are those of the second inventory. |
| MigrationCommand.UnchangedExactly | scripts/v18-to-v19/V18MigrationCommand.ts:105-125 | A second plan passes exactly if it requires the migration of the same derived, preserved and writer refs at the same values. |
| MigrationCommand.RunIsAccounted | scripts/v18-to-v19/V18MigrationCommand.ts:58-102 | From what a finalization says of single names: wanted values on promoting endings, old values on all others, a full archive as soon as there is one, and old archives and other graphs untouched. |
| MigrationCommand.RunByName | scripts/v18-to-v19/V18MigrationCommand.ts:25-103 | The same for every ending, told by the names of the refs alone. |
| MigrationCommand.WantedByName | scripts/v18-to-v19/V18MigrationScratch.ts:213-222 | What the migration wants of a ref is decided by its name: kept areas stay, writers move, the marker is set, derived refs are the seed or what was published, nothing else is left. |
| MigrationCommand.DesiredIsWanted | scripts/v18-to-v19/V18MigrationScratch.ts:213-222 | The prepared value of a ref is a function of its old value: writers move, preserved refs stay, the marker is set, derived refs go but for the checkpoint. |
| MigrationCommand.OnlyTheArchiveBlocks | scripts/v18-to-v19/V18MigrationFinalizer.ts:161-165 | On a still store a planned promotion can be blocked only by a name of its own archive. |
| MigrationCommand.PromoteAndVerify | scripts/v18-to-v19/V18MigrationCommand.ts:73-99 | Finalization, verification and rollback: what each ending leaves at every kept name, and on a still store exactly when each ending happens, by the verification, rollback and deletion faults. |
| MigrationCommand.Promote | scripts/v18-to-v19/V18MigrationCommand.ts:58-99 | Dry runs stop before any ref changes; other runs promote only after a second, unchanged plan; on a still store, exactly which ending follows. |
| MigrationCommand.Migrate | scripts/v18-to-v19/V18MigrationCommand.ts:52-102 | Fetches the planned refs, rewrites every writer and goes on with the heads that gives: what is promoted carries the history of every kept writer; on a still store every writer gets a head exactly when its chains can be rewritten together; if no foreign process writes the writers, a failed rewrite failed on content. |
| MigrationCommand.PrepareAndPromote | scripts/v18-to-v19/V18MigrationCommand.ts:52-102 | The same from the heads on: preparation, promotion and cleanup, and on a still store exactly how each run ends, hidden by the cleanup failure or not. |
| MigrationCommand.Run | scripts/v18-to-v19/V18MigrationCommand.ts:25-103 | One whole run against any foreign writes: what every ending leaves at every kept name outside the import namespace. Wherever migrated refs stand in the end, each kept writer ref is the last commit of the rewritten chain of its old head, every patch carried in order, and the commit map is that rewrite. If no foreign process writes the writers and the scratch repository reads commits as the planner did, a rewrite fails only on a translation, a write or a header order, never on the shape of a chain. With no foreign writes, exactly which runs migrate, rehearse, roll back, get stuck, fail in cleanup or find nothing to do, from the store, the objects and the faults; a migrated graph is current. By name, at every kept ref: on a migrated ending the audit, intent, strand and trust areas are as they were, the marker is set, writers stand at their heads, with a seed it is the only derived ref, without one the derived refs are exactly the published ones, and the graph holds nothing else; the archive has every old ref and exactly the payload roots of the old state cache; on the other endings the graph is as it was. |
| ScratchRewrite.RewriteHeads | scripts/v18-to-v19/V18MigrationScratch.ts:67-81 | Rewrites all planned writers or gives none a head, exactly when their chains can be rewritten together; each head is the last commit of its own rewritten chain; a failure is explained by the chain of one planned writer. |
| ScratchRewrite.PlannedRewritesFailOnContentOnly | scripts/v18-to-v19/V18WriterChainRewriter.ts:52-72 | A rewrite of chains that still stand as the planner saw them stops only at a commit that cannot be translated or written, or whose headers stand out of order; the checks of identity and linearity never fire. |
| ScratchRewrite.NothingIsLost | scripts/v18-to-v19/V18MigrationScratch.ts:67-81 | A ref whose head was carried stands at the image of its old head, at the end of one complete chain of its writer that carries every old patch in order. |
| ScratchRewrite.PlannedHeadIsCarried | scripts/v18-to-v19/V18MigrationScratch.ts:67-81 | A planned writer ref that still stands where the planner read it gets the head of the rewrite of its own chain. |
| ScratchRewrite.FrontierMovesToTheNewHeads | scripts/v18-to-v19/V18CheckpointSeed.ts:173-198 | A frontier of old heads translates to exactly the frontier of the promoted heads. |
| CommitCodec.ParseIdentityExact | scripts/v18-to-v19/V18PatchCommit.ts:143-154 | The identity pattern matches a header value in at most one way, and the parser finds it. |
| CommitCodec.IdentityExactly | scripts/v18-to-v19/V18PatchCommit.ts:143-154 | An identity is read exactly from a name without line ends, an email without angle brackets, digits, and a sign with four digits. |
| CommitCodec.FileHeaders | scripts/v18-to-v19/V18PatchCommit.ts:62-72 | The header map holds, for every name, its values in order; it fails exactly on a malformed header. |
| CommitCodec.ParseGitCommit | scripts/v18-to-v19/V18PatchCommit.ts:53-86 | The map-filling parser computes the parse function used in the round trips. |
| CommitCodec.ParseCommitExactly | scripts/v18-to-v19/V18PatchCommit.ts:53-86 | A text parses as a commit exactly if it spells headers, a blank line and the message, and the headers are tree, author and committer once each and at most one parent, in any order, and nothing else. |
| CommitCodec.SerializeExactly | scripts/v18-to-v19/V18MigrationGitCommitWriter.ts:143-177 | The printer accepts a record exactly if its object names are names and its identities hold no character that would end a field early, and then writes this text. |
| CommitCodec.ParseSerialized | scripts/v18-to-v19/V18MigrationGitCommitWriter.ts:143-171 | Parsing a printed record gives the record back, except for the exact identity error when a name holds a line separator. |
| CommitCodec.SerializeParsed | scripts/v18-to-v19/V18MigrationGitCommitWriter.ts:143-171 | Printing a parsed commit is accepted exactly for an object-id parent and printable identities, and gives the same text exactly when its headers stood in tree, parent, author, committer order. |
| PatchCommits.MigratedMessageReadsBack | scripts/v18-to-v19/V18PatchTranslator.ts:95-103 | The trailers written for a translated patch read back as the same patch in current storage. |
| PatchCommits.ParsedPatch | scripts/v18-to-v19/V18PatchCommit.ts:88-106 | Every parsed patch names a graph and a writer and has positive Lamport time and schema. |
| PatchCommits.StorageExactly | scripts/v18-to-v19/V18PatchCommit.ts:108-141 | From the trailers: a patch is encrypted exactly if `eg-encrypted` is there, which must be `true`; it lies behind a handle, behind a v17 object, or in a plain blob exactly with the trailers of that route; all else is refused. |
| PatchCommits.PatchExactly | scripts/v18-to-v19/V18PatchCommit.ts:88-106 | A message parses as a patch exactly if it is of that kind, names a graph and a writer, writes a positive Lamport time and schema without leading zeros, and has a storage route. |
| PatchCommits.ReadsExactly | scripts/v18-to-v19/V18PatchCommit.ts:40-51 | A commit reads as a patch exactly if its text parses and the trailers of its message do. |
| WriterChain.ChainDistinct | scripts/v18-to-v19/V18WriterChainRewriter.ts:118-123 | A linear chain meets no commit twice. |
| WriterChain.ChainDeterminedByHead | scripts/v18-to-v19/V18MigrationPlan.ts:157-204 | The head alone determines a writer's chain. |
| WriterChain.ChainsOfDistinctWritersAreDisjoint | scripts/v18-to-v19/V18WriterChainRewriter.ts:112-123 | Two writers' chains share no commit. |
| WriterChain.CarriedChain | scripts/v18-to-v19/V18WriterChainRewriter.ts:51-84 | The rewritten commits are again one complete linear chain of the same writer. |
| WriterChain.FixesExactlyTheCurrentPrefix | scripts/v18-to-v19/V18WriterChainRewriter.ts:51-84 | A commit keeps its name exactly when nothing up to and including it was legacy. |
| WriterChain.CommitMapInjective | scripts/v18-to-v19/V18WriterChainRewriter.ts:73-75 | No two old commits, of one writer or two, become the same new commit. |
| WriterChain.CommitMapCommutesWithParent | scripts/v18-to-v19/V18WriterChainRewriter.ts:62-75 | The parent of a commit's new name is the new name of its parent. |
| WriterChainRewriter.ReplacementReads | scripts/v18-to-v19/V18WriterChainRewriter.ts:51-69 | A rewritten commit reads back as the same patch, identities included, on the new parent; for a legacy patch it has the message and the tree that the translation gave. |
| WriterChainRewriter.RewriteCarries | scripts/v18-to-v19/V18WriterChainRewriter.ts:51-84 | A rewrite carries every patch of the chain, in order. |
| WriterChainRewriter.RecreatedByteIdentically | scripts/v18-to-v19/V18WriterChainRewriter.ts:70-72 | A current commit written again on its own parent is byte-identical exactly when its headers stood in Git's order; then it keeps its name. |
| WriterChainRewriter.Rewriter.WriteCommit | scripts/v18-to-v19/V18MigrationGitCommitWriter.ts:77-85 | Stores the printed record under its hash, or fails exactly when the record cannot be printed, the hash is no object id, or another text has it. |
| WriterChainRewriter.Rewriter.RewriteCommit | scripts/v18-to-v19/V18WriterChainRewriter.ts:52-72 | One commit is replaced as specified, or the error names exactly what was wrong with it; a failed write only for a record that cannot be printed, a hash that is no object id, or a collision. |
| WriterChainRewriter.Rewriter.RewriteChain | scripts/v18-to-v19/V18WriterChainRewriter.ts:39-101 | Succeeds exactly when some growth of the store holds the whole rewritten chain; map entries and translation count are exact; a failure is explained by the one commit at which the rewrite stopped. |
| WriterChainRewriter.Rewriter.RewriteWriters | scripts/v18-to-v19/V18MigrationScratch.ts:67-81 | Succeeds exactly when all chains can be rewritten together; every patch is carried, each commit keeps its name exactly if nothing up to it was legacy, and the commit map holds every rewritten commit and nothing else; a failure is explained by one writer's chain. Legacy patches become the message and tree of their translation. |
| WriterChainRewriter.MapsOneMore | scripts/v18-to-v19/V18WriterChainRewriter.ts:75 | Adding one writer's rewrite disturbs no other writer's entries. |
| PatchTranslator.ContentCacheKeyInjective | scripts/v18-to-v19/V18PatchTranslator.ts:258-260 | Different references or modes have different cache keys. |
| PatchTranslator.TranslatedContentHandle | scripts/v18-to-v19/V18PatchTranslator.ts:113-134 | Answers a handle exactly when both modes together hold one; none and ambiguous are told apart; handles answer themselves. |
| PatchTranslator.RewrittenExactly | scripts/v18-to-v19/V18PatchTranslator.ts:150-191 | An operation on `_content` refers to content in its textual value, any other blob value in its textual `oid`, no other operation does; rewriting replaces that field by the handle filed for it, and nothing otherwise. |
| PatchTranslator.AnswersAgreeWithPatches | scripts/v18-to-v19/V18PatchTranslator.ts:113-134 | If the translator answers for an object, every operation that mentioned it, in either mode, was rewritten to that handle. |
| PatchTranslator.TranslatedStays | scripts/v18-to-v19/V18PatchTranslator.ts:193-212 | A growing table changes no finished rewriting. |
| PatchTranslator.Translator.TranslateContentReference | scripts/v18-to-v19/V18PatchTranslator.ts:193-212 | A handle answers itself; a known object the entry for it and the mode; a new one what staging it in that mode gave, which becomes its entry. A failure adds none, no entry ever changes, and every entry was staged in its mode. |
| PatchTranslator.Translator.RewriteOperation | scripts/v18-to-v19/V18PatchTranslator.ts:170-191 | Only the content field changes, to the handle for its reference, which joins the attachments. |
| PatchTranslator.Translator.RewriteContentHandles | scripts/v18-to-v19/V18PatchTranslator.ts:150-168 | Every operation is rewritten in place and order; the attachments are exactly the handles that appear. |
| PatchTranslator.Translator.Translate | scripts/v18-to-v19/V18PatchTranslator.ts:69-78 | Current and passphrase-less encrypted patches are refused; a success joins the history of translated patches. |
| PatchTranslator.Translator.ContentHandle | scripts/v18-to-v19/V18PatchTranslator.ts:113-134 | An answer agrees with every patch the translator has translated so far. |
| CheckpointSeed.SameWinners | scripts/v18-to-v19/V18CheckpointSeed.ts:133-137 | Every property is held by the same write before and after the rewrite, for any reducer whose order of competing events the rewrite keeps. |
| CheckpointSeed.TranslateCheckpointState | scripts/v18-to-v19/V18CheckpointSeed.ts:134-170 | Exactly the content registers change, to their handles, and no event id does; fails exactly when one cannot be translated. |
| CheckpointSeed.ReductionCommutes | scripts/v18-to-v19/V18CheckpointSeed.ts:134-170 | For any reducer that looks at event ids alone and whose order of competing events the rewrite keeps: reducing the rewritten patches equals translating the reduced state exactly when every winning content register survives. |
| CheckpointSeed.SeedEqualsReplayExactly | scripts/v18-to-v19/V18CheckpointSeed.ts:134-170 | For the order of event ids, with nothing assumed of Lamport times: reducing the rewritten patches equals translating the reduced state, events renamed with their patches, exactly when every patch tied with a holder has the lesser new name and every winning content register survives. |
| CheckpointSeed.CurrentObjectReferencesDisagree | scripts/v18-to-v19/V18CheckpointSeed.ts:150-161 | A current patch that still names an object breaks that equality. |
| CheckpointSeed.RenamingKeepsOrder | src/domain/utils/EventId.ts:59-81 | Renaming patches keeps the order of all events that compete for a property exactly when it keeps the order of the names of patches of one writer and one Lamport time that write the same property. |
| CheckpointSeed.RewritesKeepPatchesApart | scripts/v18-to-v19/V18WriterChainRewriter.ts:73-75 | Under the commit map of a rewrite, different patches of the history keep different names, as that statement needs. |
| CheckpointSeed.CodeUnitOrderIsStrictAndTotal | src/domain/utils/EventId.ts:59-81 | The code-unit order of strings is a strict total order, as the comparison of event ids needs. |
| CheckpointSeed.WinnersLead | src/domain/utils/EventId.ts:59-81 | Every property written has a holder: the write whose event is greatest of all that write it, the first of them if one event wrote it more than once. |
| CheckpointSeed.ReducedExactly | src/domain/utils/EventId.ts:59-81 | The reduced state has a register for every property written and no other: event and value of the write with the greatest Lamport time, among those the greatest writer, then the greatest patch name, then the greatest operation index. |
| CheckpointSeed.WinnersStayExactly | src/domain/utils/EventId.ts:59-81 | Over a history of any length the rename changes the holder of no property exactly when every patch tied with a holder, by writer, Lamport time and property, has the lesser new name. |
| CheckpointSeed.OneLamportPerPatchKeepsWinners | src/domain/utils/EventId.ts:59-81 | If no writer uses a Lamport time in two patches, every property is held by the same write after the rename. |
| CheckpointSeed.ReusedLamportsFlipTheWinner | src/domain/utils/EventId.ts:59-81 | Two commits that reuse a Lamport time, the first legacy, are a chain like any other, and their rewrite is carried and mapped like any other; if it reverses the order of their object ids, the property both write changes its holder. |
| CheckpointSeed.TranslateCommits | scripts/v18-to-v19/V18CheckpointSeed.ts:182-198 | Parents are mapped one by one, or fail exactly when one lies outside the rewritten history. |
| CheckpointSeed.FrontierKeepsItsPositions | scripts/v18-to-v19/V18CheckpointSeed.ts:173-198 | A frontier translates exactly when each commit lies in a rewritten chain, and then stands at the same positions of the new chains. |
| BundleMembers.LessIsNumeric | scripts/v18-to-v19/V18PatchTranslator.ts:87 | Digit strings of one length are ordered as the numbers they write. |
| BundleMembers.PaddedIndex | scripts/v18-to-v19/V18PatchTranslator.ts:87 | Below a hundred million, a padded index is eight digits that write the index. |
| BundleMembers.NineDigitsComeFirst | scripts/v18-to-v19/V18PatchTranslator.ts:87 | The first nine-digit index sorts before the last eight-digit one. |
| BundleMembers.MembersInOrder | scripts/v18-to-v19/V18PatchTranslator.ts:85-91 | Member paths are strictly increasing exactly up to a hundred million attachments; the patch comes last and after every attachment. |
| GitObjectReader.ParseHeaderExact | scripts/v18-to-v19/V18MigrationGitObjectReader.ts:77-81 | The header parse is exactly a match of the pattern, and the match is unique. |
| GitObjectReader.ReadResponse | scripts/v18-to-v19/V18MigrationGitObjectReader.ts:65-98 | A read of a well-formed response gives its payload, or its missing or wrong-type error, and stops at the next response. |
| GitObjectReader.ReadSucceedsExactly | scripts/v18-to-v19/V18MigrationGitObjectReader.ts:65-98 | On any stream a read succeeds exactly if it starts with the header of that object and type, a size within the safe integers, that many bytes and a newline. |
| GitObjectReader.ReadAllResponses | scripts/v18-to-v19/V18MigrationGitObjectReader.ts:52-57 | Reads of consecutive responses give exactly their answers. |
| GitObjectReader.ObjectReader.ReadMore | scripts/v18-to-v19/V18MigrationGitObjectReader.ts:131-143 | Takes one chunk; the unread stream and the byte count stay right. |
| GitObjectReader.ObjectReader.Consume | scripts/v18-to-v19/V18MigrationGitObjectReader.ts:145-164 | Copies out exactly the next bytes across chunk borders and leaves exactly the rest buffered. |
| GitObjectReader.ObjectReader.NewlineOffset | scripts/v18-to-v19/V18MigrationGitObjectReader.ts:166-176 | Finds the first newline of the concatenated buffer. |
| GitObjectReader.ObjectReader.ReadLine | scripts/v18-to-v19/V18MigrationGitObjectReader.ts:112-122 | Reads the first line of the stream and its newline, or fails at its end with nothing lost. |
| GitObjectReader.ObjectReader.ReadBytes | scripts/v18-to-v19/V18MigrationGitObjectReader.ts:124-129 | Reads the next bytes of the stream, exactly when there are that many. |
| GitObjectReader.ObjectReader.ReadObject | scripts/v18-to-v19/V18MigrationGitObjectReader.ts:65-98 | The result and the unread rest are a function of the concatenated stream alone, however it is cut into chunks. |
| GitObjectReader.ObjectReader.ReadInTurn | scripts/v18-to-v19/V18MigrationGitObjectReader.ts:48-58 | Calls are served in call order, each starting where the one before stopped. |
| CommitWriter.EveryRecordGetsItsHash | scripts/v18-to-v19/V18MigrationGitCommitWriter.ts:60-85 | Writing records in turn gives each printable one its own hash, in order; a record the printer refuses takes no reply away from the others. |
| CommitWriter.WriteSucceedsExactly | scripts/v18-to-v19/V18MigrationGitCommitWriter.ts:77-85 | On any reply stream a write succeeds exactly if the record can be printed and the next line is an object name. |
| CommitWriter.Writer.ReadLine | scripts/v18-to-v19/V18MigrationGitCommitWriter.ts:99-118 | Reads the first line of the concatenated replies, however they are cut into chunks. |
| CommitWriter.Writer.WriteCommit | scripts/v18-to-v19/V18MigrationGitCommitWriter.ts:77-85 | Takes a reply line exactly when the record could be printed, and accepts only an object id. |
| CommitWriter.Writer.WriteInTurn | scripts/v18-to-v19/V18MigrationGitCommitWriter.ts:60-70 | Calls are served in call order. |
| ProgressCoalescer.RunsAreSound | scripts/v18-to-v19/V18MigrationProgressCoalescer.ts:35-102 | Over any run: deliveries are an in-order duplicate-free subsequence; the first and last report of every finished stream run is delivered, no later than the next report arrives; what is pending is the newest report and a timer is set; deliveries in a row are an interval apart unless a flush or the end of the run came between. |
| ProgressCoalescer.EarlyExactlyBeforeAChange | scripts/v18-to-v19/V18MigrationProgressCoalescer.ts:35-102 | Two deliveries in a row of one stream run, with no flush between, come closer than the interval exactly when the second ends the run and the next run's first report arrives before the interval is over. |
| ProgressCoalescer.UnflushedRunsAreSpaced | scripts/v18-to-v19/V18MigrationProgressCoalescer.ts:35-102 | In a run without any flush that holds of all deliveries in a row of one stream run. |
| ProgressCoalescer.OnlyFlushesCut | scripts/v18-to-v19/V18MigrationProgressCoalescer.ts:50-52 | A run without a flush has no delivery cut short by one. |
| ProgressCoalescer.LastOfARunComesEarly | scripts/v18-to-v19/V18MigrationProgressCoalescer.ts:35-38 | Such an early delivery happens, for any two streams. |
| ProgressCoalescer.Coalescer.Report | scripts/v18-to-v19/V18MigrationProgressCoalescer.ts:35-48 | The fields and the reporter's calls follow the transition system. |
| ProgressCoalescer.Coalescer.Flush | scripts/v18-to-v19/V18MigrationProgressCoalescer.ts:50-52 | The same; afterwards nothing is pending and no timer is set. |
| ProgressCoalescer.Coalescer.Fire | scripts/v18-to-v19/V18MigrationProgressCoalescer.ts:90-102 | The same when the timer rings. |
| MutationGate.RefinesMutex | src/application/RuntimeMutationGate.ts:13-26 | Every step of the gate is a step of a lock whose queue is served in call order; a throwing call leaves the lock like any other; starts happen in call order without gaps. |
| MutationGate.AtMostOneActive | src/application/RuntimeMutationGate.ts:13-26 | At most one operation is active in any reachable state. |
| MutationGate.NeverStuck | src/application/RuntimeMutationGate.ts:13-26 | While calls are not done, one is active or one can start. |
| MutationGate.EveryStepServesEveryone | src/application/RuntimeMutationGate.ts:13-26 | Each start or finish brings every unfinished call one step closer; arrivals do not push it back. |
| MutationGate.ServedAfterItsTurns | src/application/RuntimeMutationGate.ts:13-26 | Along any run a call is done exactly when the gate has made the steps it needed, however many calls arrived. |
| MutationGate.RuntimeMutationGate.Enter | src/application/RuntimeMutationGate.ts:14-20 | The tail becomes this call's turn, and the call waits for the tail it found. |
| MutationGate.RuntimeMutationGate.Start | src/application/RuntimeMutationGate.ts:20-22 | A call whose awaited turn is resolved begins, as the transition system says. |
| MutationGate.RuntimeMutationGate.Finish | src/application/RuntimeMutationGate.ts:23-25 | Returning or throwing releases exactly this call's turn. |
| RuntimeActivity.ReleaseWaitsForEverything | src/application/RuntimeActivity.ts:49-56 | The release can run exactly when closing has begun and everything admitted has settled; it runs once, and nothing is admitted afterwards. |
| RuntimeActivity.ReleaseOnceAfterEverything | src/application/RuntimeActivity.ts:14-73 | Over any run the release is called at most once, with everything settled at that moment, and an admission is refused exactly after a close. |
| RuntimeActivity.RefusedMidway | src/application/RuntimeStrandLaneBinding.ts:38-45 | A task that checks twice is refused midway exactly when a close falls between the checks. |
| RuntimeActivity.ForkIsAdmittedWhole | src/application/Runtime.ts:130-135 | A fork or strand opening, which takes a lease and then an admission in one step, is never refused midway. |
| RuntimeActivity.PreviewInterrupted | src/application/RuntimeSettlement.ts:139-171 | A preview whose capture was admitted can have its digest refused. |
| RuntimeActivity.ActivityTracker.Run | src/application/RuntimeActivity.ts:14-19 | Admits and tracks exactly while open. |
| RuntimeActivity.ActivityTracker.Acquire | src/application/RuntimeActivity.ts:21-38 | Admits and tracks a lease exactly while open. |
| RuntimeActivity.ActivityTracker.Close | src/application/RuntimeActivity.ts:40-56 | The first close stops admission and waits for exactly what is tracked; a later close does nothing. |
| RuntimeWork.RunsOfBoth | src/application/Runtime.ts:69-80 | Every run of the composed Runtime is a run of the settlement system and a run of the activity, so what is proved of either holds of it. |
| RuntimeWork.RunsAreLinked | src/application/RuntimeStrandLaneBinding.ts:34-46 | Over any run every job belongs to one admitted turn, which settles only when the gate is through with the job. |
| RuntimeWork.EveryRunWorksBeforeItsRelease | src/application/RuntimeActivity.ts:49-56 | Over any run every step of an admitted write, fork or settlement, every strand opening, and every read and digest of a preview happens while nothing has been released. |
| RuntimeWork.EveryPlanWasPreviewed | src/application/RuntimeSettlement.ts:139-207 | Over any run every plan says what one admitted capture saw and three admitted digests gave, and all four had settled before the plan was returned. |
| RuntimeWork.EveryPlanSawItsStrand | src/domain/api/DraftSettlementRuntime.ts:29-77 | Over any run, the source, target frontier, proposal and status of a plan stood at moments of the run, in this order. |
| RuntimeWork.CloseChangesNothing | src/application/RuntimeStrandLaneBinding.ts:25-46 | A close inserted anywhere into a run changes neither which steps what was admitted before can take nor the system, the tasks and the activity entries they lead to. |
| RuntimeWork.InnerStepsAskNothing | src/application/RuntimeStrandLaneBinding.ts:25-46 | The steps inside turns are those of the settlement system, whatever the state of the activity, which they leave as it is: none asks for admission. |
| RuntimeWork.CurrentPlanIsAcceptedWhileClosing | src/application/RuntimeStrandLaneBinding.ts:42-46 | An admitted settlement of a current plan is compared, promoted and accepted even if the Runtime has begun to close. |
| RuntimeWork.GatedSettlementsThrowAfterClose | src/application/RuntimeStrandLaneBinding.ts:37-46 | Over any run, a settlement that called its captures, digests and promotion through the methods that ask for admission would throw exactly if a close precedes one of those calls; the raw execution of the same run does not throw. |
| RuntimeWork.CallsAreRefused | src/application/RuntimeActivity.ts:66-73 | A call made after a close is refused and changes nothing. |
| RuntimeSettlement.PromotesExactlyOnTheBasis | src/application/RuntimeSettlement.ts:97-114 | At the comparison: promotion exactly if source frontier, proposal, status, target frontier, law and policy equal the plan's at that moment, the draft is ready, and the strand's base is the target's frontier; with them equal otherwise the plan's obstruction, a draft's status exactly if it is not ready; stale exactly if they are not equal. |
| RuntimeSettlement.NoMutationDuringRecapture | src/application/RuntimeSettlement.ts:252-265 | No gated mutation can happen between a settlement's first read and its comparison. |
| RuntimeSettlement.MatchingBasisSameOutcome | src/application/RuntimeSettlement.ts:229-280 | With a matching basis a fresh preview has the planned outcome exactly if the draft was not ready or the base still agrees with the target's frontier as it did for the plan; with the base fixed at the fork it always does. |
| RuntimeSettlement.JoinedOnceKept | src/application/RuntimeSettlement.ts:116-137 | Each draft handle, so each plan, is accepted at most once, whatever mutations do. |
| RuntimeSettlement.RecordKept | src/application/RuntimeSettlement.ts:97-137 | Exactly the accepted plans have a settlement that ended as accepted, and every job ends in a way of its kind. |
| RuntimeSettlement.SpentKept | src/application/RuntimeSettlement.ts:267-280 | The basis of an accepted plan stays spent over every step that does not bring its target back to the plan's frontier, nor accepts the plan with its target unmoved. |
| RuntimeSettlement.LaterPlansAreStale | src/application/RuntimeSettlement.ts:282-319 | Every other plan made on a spent basis is found stale. |
| RuntimeSettlement.EveryRunIsSafe | src/application/RuntimeSettlement.ts:86-137 | These invariants hold in every interleaving of writes, forks, previews and settlements through one Runtime, and a basis that no step restores stays spent. |
| RuntimeSettlement.AcceptedAtMostOnce | src/application/RuntimeSettlement.ts:86-137 | Over any run no plan and no draft handle is accepted twice, and no basis either unless some step restores it. |
| RuntimeSettlement.SpentExactlyWhileNeverRestored | src/application/RuntimeSettlement.ts:267-280 | Along a run, as long as no step restores the frontier of an accepted plan, its target keeps away from that frontier; a restoring step ends that. |
| RuntimeSettlement.TwoOnOneBasisNeedARestore | src/application/RuntimeSettlement.ts:267-280 | Two plans on one basis are accepted only if a step that comes after the first acceptance and before the second restores the basis. |
| RuntimeSettlement.AcceptedExactlyOnItsFrontier | src/application/RuntimeSettlement.ts:97-128 | Of an unchanged draft a derived plan is accepted in its turn exactly when its target stands at the plan's frontier, spent or not. |
| RuntimeSettlement.CurrentPlanIsAccepted | src/application/RuntimeSettlement.ts:97-128 | A settlement whose plan is current and derived promotes and is accepted when the join is. |
| RuntimeSettlement.ReusedFrontierAcceptsTwo | src/application/RuntimeSettlement.ts:267-280 | That condition is needed: a mutation that brings a frontier back lets two plans against it be accepted. |
| ObservationStream.AcceptedReadings | src/application/RuntimeLaneAdapter.ts:243-263 | Yields the decoded accepted prefix, and leaves in the way the expected ending needs. |
| ObservationStream.StreamReadings | src/application/RuntimeLaneAdapter.ts:220-296 | Whatever the ending, the receipt, the lease and the ending are as expected, and the lease is released at most once. |
| ObservationStream.GoodExactly | src/application/RuntimeLaneAdapter.ts:313-326 | A read is yielded exactly if it was accepted, decodes, and its evidence has ids and no tick of another lane. |
| ObservationStream.DrainedEnding | src/application/RuntimeLaneAdapter.ts:265-280 | A stream whose reads were all taken ends completed with the lane, the writer and the last read's evidence, or the tick's, or obstructed for want of a tick; rejected if its plans fail. |
| ObservationStream.ThrownEnding | src/application/RuntimeLaneAdapter.ts:227-241 | A failing read, a read that cannot be yielded, a status out of place and a throwing consumer reject the receipt with that very error. |
| ObservationStream.StoppedEnding | src/application/RuntimeLaneAdapter.ts:282-296 | A consumer that stops leaves the cancelled receipt with the tick's evidence, unless closing the plans fails. |
| ObservationStream.ReceiptSettlement.Resolve | src/application/RuntimeLaneAdapter.ts:298-311 | The first settlement stays. |
| ObservationStream.Lease.Release | src/application/RuntimeActivity.ts:28-36 | A second release does nothing. |
| ObservationStream.Construct | src/domain/api/ObservationReceipt.ts:46-104 | Accepts exactly completed receipts with evidence and no reason, and others with a reason, all ids and names non-empty. |
| ObservationStream.ConstructsExactly | src/domain/api/ObservationReceipt.ts:61-94 | Exactly which fields make a receipt, field by field. |
| ObservationStream.CancelledReceiptBuilds | src/application/RuntimeLaneAdapter.ts:345-360 | The receipt of a cancelled stream can always be built. |
| ObservationStream.EveryEndingSettles | src/application/RuntimeLaneAdapter.ts:227-241 | Every ending settles the receipt and releases the lease. |
| ObservationStream.CompletedExactlyWhenDrained | src/application/RuntimeLaneAdapter.ts:265-280 | The receipt is completed exactly when all reads were accepted and taken, the plans ended, and, with no plans, a tick was present. |
| ObservationStream.RefusedReadIsHandedOn | src/application/RuntimeLaneAdapter.ts:254-259 | A stream that stops at an obstructed or underdetermined read ends with exactly its status, reason, evidence and hints, even if closing the plans then fails. |
| OpaqueId.DecodeExact | src/application/ReceiptProvenanceRegistry.ts:51-59 | A string decodes to a part list exactly when it is that list's encoding. |
| OpaqueId.EncodedInARow | src/application/ReceiptProvenanceRegistry.ts:51-59 | A part is written as its type letter, its length, a colon and its text, and parts stand in a row. |
| OpaqueId.PayloadsDiffer | src/application/ReceiptProvenanceRegistry.ts:51-59 | Different namespaces or part lists never share a payload. |

## Left out

- Git subprocesses, the file system, git-cas, CBOR, crypto and the trailer text codec: oracles. A ref
  transaction is assumed atomic and truthfully reported; the codec enters as a parameter with the
  hypothesis `TranslatesFaithfully`, whose trailer half is `PatchCommits.MigratedMessageReadsBack`.
- Iteration orders (`localeCompare`, `sort`, insertion order of records): the ref loops take entries in
  any order, and the results do not depend on it. The order of `for-each-ref` is a parameter that is the
  same for the same set of names.
- Ref names that conflict as directory and file, reflogs, and the text of `update-ref` lines.
- UTF-8 decoding: texts are sequences of characters, and a byte of the object stream is a character.
- Lamport times above the safe integers of JavaScript, which the source reads as rounded numbers.
- The string comparison of plan identities as JSON: modelled as equality of the values.
- MigrationScratch.PrepareScratch: takes the rewritten heads, the checkpoint seed and the published
  checkpoint as parameters. `MigrationCommand.Migrate` passes the heads that the rewriter found; seeding
  and publishing need code that is not part of this model.
- MigrationScratch.BuildScratch: moves all writer refs after all rewrites, where the source moves each
  after its own rewrite; the scratch repository has no other user, so only its final refs are observable.
- MigrationCommand.Migrate: rewrites before it notices that a planned ref is gone, where the source fetches
  first; such a run stops in preparation either way, and what it wrote to the scratch store is dropped.
- Finalizer.ImportPreparedRefs: a mismatch leaves the refs imported before it behind, as the source does;
  the contract claims no cleanup on that path.
- WriterChainRewriter.Rewriter.WriteCommit: leaves out the `hash-object` process, which `CommitWriter`
  models on its own; the scratch file that carries each text is not part of this model.
- CheckpointSeed.ReductionCommutes: the reducer is abstract (winners by event id), and handles are assumed
  not to look like object ids.
- PatchTranslator.Translator.Translate: stops before hydrating, encoding and storing the rewritten patch,
  whose failures change neither the table nor any ref.
- ProgressCoalescer.Coalescer.Report: assumes a reporter that does not throw.
- GitObjectReader.ObjectReader.Close: leaves out the exit code of the process.
- RuntimeSettlement.EveryRunIsSafe: other processes that write the same repository are not covered by the
  gate and not by this model.
- RuntimeWork.RunsOfBoth: a lease of a fork or strand opening and the admission inside it are two tasks; what
  a digest gives is arbitrary, and that a preview makes its four calls one after the other is their order only.
- ObservationStream.Construct: leaves out retention evidence; names of lanes and writers, and ticks, are
  non-empty because their own constructors check them.
- ObservationStream.StreamReadings: begins at the first pull; a stream that is never pulled settles nothing.
- MutationGate.RefinesMutex: an operation that calls its own gate waits for itself, which the source
  forbids; operations are steps from outside here.
- Error message texts, progress messages, evidence payloads of receipts, and the receipt registry beside
  the payload encoding.
- The terminal interface, argument parsing, presenters, and lint, release and performance scripts.
- The CRDT reducer, tries, indexes, `RuntimeHost` and the ports.
