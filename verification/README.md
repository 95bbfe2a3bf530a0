# Documentation catalog, cache and gateway: a Dafny model

This project models the parts of the documentation server in which several tables, several
processes or several servers have to be kept in step, and proves what those parts are for.

* **The catalog** (`Catalog*.dfy`). Sources, documents, versions, sections and a full-text index live
  in one database. Tables are maps from row ids, SQL statements are set and map expressions, and a
  transaction either reaches its new tables or restores the old ones. Every transaction is described
  twice: as the statements the revision writer issues (`CatalogWriter`), which delete and insert the
  index rows of one document, and as a change of the base tables followed by a rebuild of the whole
  index (`CatalogTransactions`). The methods are proved to reach the tables of the second form, except for
  index rows that were wrong before and that they do not clear (`CatalogIndexing`, `CatalogRepair`). About
  that form it is then proved when the index agrees with a rebuild (`CatalogAgreement`), that pointers,
  flags and keys stay consistent (`CatalogHistory`), what each transaction stores (`CatalogEffects`), which
  sections a search shows and what it shows of them (`CatalogColumns`, `CatalogSearch`), what the
  integrity check means (`CatalogIntegrity`), what a purge leaves (`CatalogPurge`), that aliases, events
  and runs refer to rows that exist (`CatalogLedger`), and what whole histories of many stores keep
  (`CatalogRuns`).
* **The sync-run leases** (`SyncLeases`, `CatalogStores`, `SyncProtocol`, `SyncRecovery`). Any number of stores share
  the `sync_runs` rows; recovery reads a snapshot without a lock and applies its decision by
  compare-and-swap. The store is a class; the protocol is a state machine over the interleaved steps
  of all stores. `SyncRecovery` says which runs a recovery may end, and which it does.
* **Synchronisation** (`SyncResume`, `SyncService`, `SyncOutcomes`). Which configured documents a run selects, how the
  next run resumes, which catalog write each fetch outcome leads to, what it leaves in the tables, and
  which aliases are recorded.
* **robots.txt** (`Robots*.dfy`, `Texts`). From the text of the file to the decision about a path:
  lines, directives, groups, spelling of octets, wildcards, precedence (RFC 9309).
* **The gateway** (`GatewayDownloads`, `GatewayPermits`). Redirects, robots files and retries over one
  byte budget against arbitrary servers; and the semaphore with handoff. A download keeps three ghost
  records: every connection with the budget it found, every exchange with its attempts, and every fetch
  of a robots file with its exchanges. What is proved of a download is stated over them and over what
  the servers answered.
* **The cache** (`CacheRows`, `Cache`). Two tables under one count and byte budget, with expiry, stale
  retention and batched eviction.
* **Smaller protocols**: the search history and its pages (`SearchHistory`), the worker pool
  (`WorkerPool`), the file lease (`FileLease`), budgeted content selection (`ContentSelection`) and the
  chunking of long sections (`ContentChunks`).

Five laws do not hold of the code on every input. Each has a concrete counterexample and the exact
condition under which the law holds:

* The index agrees with a rebuild after a transaction exactly when the transaction does not
  (a) upsert a row whose key matches one document while its public id names another, changing text the
  index shows of the first, or (b) replace the sections of a version that is current already without
  reusing the ids of its searchable sections (`CatalogAgreement.StepAgreesExactly`, `CatalogLimits`). A
  row left over by (b) keeps out a new document exactly when one of its sections would get that row's id
  (`CatalogRepair.NewDocumentCollidesExactly`); rebuilding, or updating a source, makes the index agree
  again (`CatalogRepair.RebuildRestores`).
* The catalog stays complete (no active document without a version, no current version without
  sections) exactly when no upsert activates a document that has no current version
  (`CatalogRuns.StepCompleteExactly`).
* An anchored robots pattern is decided as section 2.2.3 of RFC 9309 says on all paths exactly when it has
  no `*`, ends in one, or can cover no path at all, because it starts with neither `/` nor `*` or has a
  character no URL has (`RobotsWildcards.AnchoredPatternsDecidedRight`).
* An escape in a robots rule or a path is kept apart from the character it stands for. Which escapes the
  standard reads as their characters is a parameter: `*` and `$` by section 2.2.3 (`SPECIALS`), and by the
  table of section 2.2.2, which has `https://` and `https%3A%2F%2F` match, the other reserved characters
  too (`RESERVED`). For any such set, a Disallow rule is applied as it is meant to every path without
  these escapes exactly when it can match no path, or has none of the escapes itself and, if it is
  anchored, no `*` before its end (`RobotsStandard.DisallowReadExactly`). A rule with one of the characters
  itself, such as a `$` before its end, misses a path in which that character is escaped
  (`RobotsStandard.CharacterMissesItsEscape`). Escapes outside the set are compared as they are spelled.
* Resuming synchronisation by cursor covers the configured documents exactly once exactly when no
  document but the last repeats an earlier key (`SyncResume.ResumingCoversExactly`).

Taken as given: a new row's id is one more than the largest in its table (SQLite's rule for
`INTEGER PRIMARY KEY` below its maximum), foreign keys and unique indexes are enforced, the full-text
index refuses a row id that it has already, and an owner token is never issued twice. Clock readings,
process probes, network answers, URL parsing and text decoding are parameters of the members that
depend on them.

## Model

| member | source | states |
|---|---|---|
| CatalogIndexing.RefreshIsRebuild | src/infrastructure/catalog/catalog-sql.ts:325-389 | if only one document's rows changed, deleting its index rows and inserting those of its current version gives the rebuilt index, and keeps as they are the rows that were astray elsewhere; while the index agrees no row id is inserted twice |
| CatalogIndexing.RefreshOfUnpointedDocument | src/infrastructure/catalog/sqlite-catalog-revision-writer.ts:175-182 | a document without a current version keeps no index rows |
| CatalogIndexing.ReplacingCurrentSections | src/infrastructure/catalog/sqlite-catalog-revision-writer.ts:255-277 | replacing the sections of the current version leaves the rebuilt index plus the rows of section ids that are gone; rows astray in other documents stay |
| CatalogIndexing.ReplacingOldSections | src/infrastructure/catalog/sqlite-catalog-revision-writer.ts:255-278 | replacing the sections of a version that is not current changes nothing of the rebuilt index, so no index statement is needed |
| CatalogIndexing.PendingPromotion | src/infrastructure/catalog/sqlite-catalog-revision-writer.ts:256-269 | promoting a pending version when its sections arrive gives the rebuilt index, but for rows astray in other documents |
| CatalogIndexing.ClashIsLeftOver | src/infrastructure/catalog/sqlite-catalog-revision-writer.ts:140-147 | an index row that is in the way of a revision's is one left over: its section is gone |
| CatalogColumns.RebuiltColumns | src/infrastructure/catalog/catalog-sql.ts:336-362 | a rebuilt index has a row for exactly the sections that are current, flagged, and of an active document of an enabled source, with each column as in the tables and an empty text for a missing heading |
| CatalogColumns.AgreesExactly | src/infrastructure/catalog/catalog-sql.ts:325-389 | an index agrees with a rebuild exactly if it has a row for exactly these sections and every column of every row is what the tables say |
| CatalogTransactions.NumberedRows | src/infrastructure/catalog/sqlite-catalog-revision-writer.ts:353-367 | the insert loop stores one row for each section, under consecutive ids |
| CatalogWriter.RevisionWriter.UpsertDocumentRow | src/infrastructure/catalog/sqlite-catalog-revision-writer.ts:287-314 | inserts or updates by (source, stable key), refuses clashes, and goes on with the row found by public id, else by key |
| CatalogWriter.RevisionWriter.UpsertDocumentVersionRow | src/infrastructure/catalog/sqlite-catalog-revision-writer.ts:316-342 | inserts or updates by (document, content hash) |
| CatalogWriter.RevisionWriter.ReplaceDocumentSectionRows | src/infrastructure/catalog/sqlite-catalog-revision-writer.ts:344-372 | replaces a version's sections row by row; refuses more than 1024 and repeated ordinals |
| CatalogWriter.RevisionWriter.InsertSections | src/infrastructure/catalog/sqlite-catalog-revision-writer.ts:353-367 | the loop succeeds exactly when all ordinals differ and then has stored all sections |
| CatalogWriter.RevisionWriter.Commit | src/infrastructure/catalog/sqlite-catalog-revision-writer.ts:125-167 | over any index: reaches the base tables of the simple form, and the rebuilt index but for rows astray that the document does not have; or rolls back completely with the same error, or because a row left over has the id of a new section; each section of an active document of an enabled source, found by key and public id alike, then has its index row with the source's key, the document's id, language and title, and the section's heading, heading path and text |
| CatalogWriter.RevisionWriter.UpsertDocument | src/infrastructure/catalog/sqlite-catalog-revision-writer.ts:169-187 | over any index: as the simple form, on success and on every error path, but for rows astray that the document does not have |
| CatalogWriter.RevisionWriter.TouchDocumentObservation | src/infrastructure/catalog/sqlite-catalog-revision-writer.ts:189-207 | over any index: last-seen time and observation as the simple form says, and no index row changed |
| CatalogWriter.RevisionWriter.RecordDocumentObservation | src/infrastructure/catalog/sqlite-catalog-revision-writer.ts:209-221 | over any index: the observation as the simple form says, and no index row changed |
| CatalogWriter.RevisionWriter.AddDocumentVersion | src/infrastructure/catalog/sqlite-catalog-revision-writer.ts:223-239 | over any index: a version that is current keeps its flag; any other waits as pending; no index row changes |
| CatalogWriter.RevisionWriter.ReplaceDocumentSections | src/infrastructure/catalog/sqlite-catalog-revision-writer.ts:241-281 | over any index: as the simple form on all four branches, including the rows left behind when the version was current, but for rows astray that the document does not have |
| CatalogFacade.CatalogRepository.AddSource | src/infrastructure/catalog/sqlite-catalog-source-store.ts:76-96 | over any index: a new source changes no index row, and needs to change none; a repeated key is refused |
| CatalogFacade.CatalogRepository.UpdateSourceRow | src/infrastructure/catalog/sqlite-catalog-source-store.ts:98-117 | updates the one row with the key, keeping key and creation time; an unknown key changes nothing |
| CatalogFacade.CatalogRepository.UpdateSource | src/infrastructure/catalog/sqlite-catalog-repository.ts:110-121 | update and rebuild in one transaction, over any index |
| CatalogFacade.CatalogRepository.RebuildSearchIndexNow | src/infrastructure/catalog/sqlite-catalog-repository.ts:292-297 | afterwards the index has a row for exactly the sections of flagged, pointed-to versions of active documents of enabled sources, each column being that of the section, document or source it is for; the rows are counted |
| CatalogHistory.StepKeepsBase | src/infrastructure/catalog/sqlite-catalog-revision-writer.ts:125-281 | whatever the operation and its input: references resolve, keys stay unique, each pointer names its document's one flagged version, and no flagged version is pending |
| CatalogLedger.StepKeepsLedger | catalog-migrations/C005__create_sync_tracking.sql:1-35 | whatever the operation and its input: no alias, staleness event or run comes to refer to a missing document, run or source |
| CatalogAgreement.StepAgreesExactly | src/infrastructure/catalog/sqlite-catalog-revision-writer.ts:125-281 | over every operation: the index agrees with a rebuild afterwards if and only if the operation failed or avoided the two branches that fall short |
| CatalogAgreement.UpsertAgreesExactly | src/infrastructure/catalog/sqlite-catalog-revision-writer.ts:169-187 | whatever the index was, a successful upsert leaves one that agrees, rows astray before aside, exactly unless it changes shown text of a row other than the one refreshed; a failed one changes nothing |
| CatalogAgreement.CommitAgreesExactly | src/infrastructure/catalog/sqlite-catalog-revision-writer.ts:125-167 | the same for a commit |
| CatalogAgreement.ReplaceSectionsAgreesExactly | src/infrastructure/catalog/sqlite-catalog-revision-writer.ts:241-281 | replacing sections keeps the agreement exactly unless a searchable section's id is not used again |
| CatalogRepair.StepRepairsExactly | src/infrastructure/catalog/sqlite-catalog-revision-writer.ts:125-281 | over every operation and any index: if it succeeds and does not fall short, the rows astray afterwards are exactly those astray before that it does not clear; it clears the refreshed document's, a purge those of its sections, a rebuild or source update all |
| CatalogRepair.ConsistentExecutes | src/infrastructure/catalog/sqlite-catalog-revision-writer.ts:125-281 | while the index agrees, the statements are the simple form |
| CatalogRepair.NewDocumentCollidesExactly | src/infrastructure/catalog/sqlite-catalog-revision-writer.ts:125-167 | a new document is refused exactly if it would be shown and one of its sections gets the id of a row left over in the index |
| CatalogRepair.ServiceHistoriesExecute | src/application/use-cases/sync-catalog-documents.ts:204-383 | any history of the services' calls, executed statement by statement, is the one of the simple form and leaves a catalog the integrity check finds nothing in |
| CatalogRepair.ExecutedKeepsBase | src/infrastructure/catalog/sqlite-catalog-revision-writer.ts:125-281 | over any history executed statement by statement, whatever the index comes to be, references, keys, pointers and flags stay consistent |
| CatalogRepair.RebuildRestores | src/infrastructure/catalog/sqlite-catalog-repository.ts:110-121 | a rebuild or a source update makes the index agree again, whatever it was |
| CatalogSearch.CommittedPagesAreShown | src/infrastructure/catalog/sqlite-catalog-revision-writer.ts:125-167 | whatever rows were left over: after the commit of an active document of an enabled source, found by key and by public id alike, each section has its one index row, whose columns are those of the revision |
| CatalogSearch.CommittedPagesHaveNoOtherRows | src/infrastructure/catalog/sqlite-catalog-revision-writer.ts:125-167 | while the index agrees, a committed document has exactly the index rows of its sections if it is active and its source enabled, and none otherwise |
| CatalogLimits.ReplacingCurrentSectionsStrandsRows | src/infrastructure/catalog/sqlite-catalog-revision-writer.ts:270-277 | a concrete catalog and call after which an index row belongs to no section, and the integrity check reports it |
| CatalogLimits.CrossedUpsertMissesARow | src/infrastructure/catalog/sqlite-catalog-revision-writer.ts:306-313 | a concrete catalog and call after which the index shows an old title |
| CatalogLimits.NewActiveDocumentIsReported | src/infrastructure/catalog/sqlite-catalog-revision-writer.ts:169-187 | registering a document as active before it has a version is an integrity issue |
| CatalogLimits.TwoSectionsArise | src/infrastructure/catalog/sqlite-catalog-revision-writer.ts:125-167 | an empty catalog is consistent and complete, and adding a source and committing one revision to it gives the catalog of the first of these examples |
| CatalogLimits.TwoDocumentsArise | src/infrastructure/catalog/sqlite-catalog-revision-writer.ts:125-167 | adding a source and committing two documents to an empty catalog gives the catalog of the second |
| CatalogLimits.StrandedRowBlocksCommit | src/infrastructure/catalog/sqlite-catalog-revision-writer.ts:139-147 | after the first of these examples the next document's commit is refused, its section's id being still in the index |
| CatalogEffects.CommitReadsBack | src/infrastructure/catalog/sqlite-catalog-revision-writer.ts:125-167 | after any successful commit: the row found by key has the input's fields, keeping its own public id and first-seen time; the row with the input's public id points to the one current version, with the revision's metadata and exactly its sections; the observation is recorded for that document; if the two rows differ each keeps everything else; no other row of documents, versions or sections changed |
| CatalogEffects.CommitOfNewDocument | src/infrastructure/catalog/sqlite-catalog-revision-writer.ts:125-167 | committing a document the catalog does not have yet always succeeds and adds exactly its row, its version and its sections, with the rebuilt index |
| CatalogEffects.UpsertReadsBack | src/infrastructure/catalog/sqlite-catalog-revision-writer.ts:169-187 | after any successful upsert: exactly one row changed, found by key or new; it has the input's fields and keeps its own public id, current version and first-seen time; the observation is recorded for the document with the input's public id, else for that row |
| CatalogEffects.AliasesAreRecorded | src/infrastructure/catalog/sqlite-catalog-sync-store.ts:87-94 | each alias gets the last type given and the time; known ones keep when they were first seen; no other alias changes |
| CatalogEffects.ValidatorsAreRefreshed | src/infrastructure/catalog/sqlite-catalog-sync-store.ts:102-108 | validators given with an observation replace those of the document's current version, which then counts as fetched; those not given stay, and so does every other version |
| CatalogEffects.AddSourceReadsBack | src/infrastructure/catalog/sqlite-catalog-source-store.ts:76-96 | a new source is refused exactly if its key is taken, and else stored as given |
| CatalogEffects.UpdateSourceReadsBack | src/infrastructure/catalog/sqlite-catalog-source-store.ts:98-117 | an update is refused exactly if no source has the key, and else changes that source's description, its enabled flag and its time, and no other row |
| CatalogEffects.AddVersionReadsBack | src/infrastructure/catalog/sqlite-catalog-revision-writer.ts:223-239 | adding a version needs its document; the one row written is that of the content hash, or new; it stays current if it was, and waits as pending if it is to be current and is not |
| CatalogEffects.ReplaceSectionsTakenExactly | src/infrastructure/catalog/sqlite-catalog-revision-writer.ts:241-262 | sections are replaced exactly unless the version is unknown, there are more than 1024, two have one ordinal, or none are given for a version that is or waits to be current; a refusal changes nothing |
| CatalogEffects.ReplaceSectionsReadsBack | src/infrastructure/catalog/sqlite-catalog-revision-writer.ts:241-281 | the version's sections are then exactly those given, other versions' stay, and a version that waited for them is its document's one current version |
| CatalogRuns.StaleWritersChangeNothing | src/infrastructure/catalog/sqlite-catalog-sync-store.ts:312-382 | a document write with an observation succeeds only while its run is RUNNING under the writer's token; a failed one changes no table; a lost lease drops the token |
| CatalogRuns.EndedRunsAreFenced | src/infrastructure/catalog/sqlite-catalog-sync-store.ts:361-382 | after any history, a run that has ended is as it was, and no document write on its behalf by any store changes any table |
| CatalogRuns.StepCompleteExactly | src/infrastructure/catalog/catalog-integrity.ts:60-146 | over every operation: a complete catalog stays complete if and only if the operation failed or activated no document without a version |
| CatalogRuns.HistoriesAgreeExactly | src/infrastructure/catalog/sqlite-catalog-revision-writer.ts:125-281 | along any history of many stores the index agrees with a rebuild throughout exactly when no successful step falls short |
| CatalogRuns.ServiceHistoriesStaySound | src/application/use-cases/sync-catalog-documents.ts:204-383 | from a consistent, complete catalog with derived public ids and no dangling aliases, events or runs, any history of the services' calls, source updates, purges and run steps ends in one: rebuilding changes nothing and the integrity check reports nothing |
| CatalogPurge.PurgeKeepsTheNewest | src/infrastructure/catalog/sqlite-catalog-version-purger.ts:30-55 | each document in scope keeps its current and pending versions and, of its n others, exactly the min(keep, n) fetched last, of those fetched at one time the ones with the larger ids; other documents keep everything |
| CatalogPurge.PurgeTakesSections | src/infrastructure/catalog/sqlite-catalog-version-purger.ts:86-115 | with the versions go exactly their sections |
| CatalogPurge.KeptCount | src/infrastructure/catalog/sqlite-catalog-version-purger.ts:41-53 | "fewer than keep are newer" selects exactly min(keep, n) versions |
| CatalogPurge.SecondPurgeRemovesNothing | src/infrastructure/catalog/sqlite-catalog-version-purger.ts:86-115 | purging again finds no candidate |
| CatalogPurge.PurgeKeepsIndex | src/infrastructure/catalog/sqlite-catalog-version-purger.ts:187-204 | purged sections have no index rows while the index agrees, so it stays as it was and stays the rebuilt one |
| CatalogPurge.NoPointerIsPurged | catalog-migrations/C007__harden_revision_integrity.sql:69-78 | the delete guard never fires: no document points to a purged version |
| CatalogPurge.VersionPurger.PurgeOldDocumentVersions | src/infrastructure/catalog/sqlite-catalog-version-purger.ts:86-115 | the batched deletes reach the tables without the candidates and their sections and report exact counts; an index that agrees is left alone, and of any other only rows of these sections go; a dry run only counts |
| CatalogPurge.VersionPurger.CountSectionsByVersionIds | src/infrastructure/catalog/sqlite-catalog-version-purger.ts:174-185 | the sum over 400-id batches is the number of sections of the versions |
| CatalogPurge.VersionPurger.DeleteSectionsByVersionIds | src/infrastructure/catalog/sqlite-catalog-version-purger.ts:187-204 | the batches delete exactly the sections of the versions and their index rows |
| CatalogPurge.VersionPurger.DeleteVersionsByIds | src/infrastructure/catalog/sqlite-catalog-version-purger.ts:206-215 | the batches delete exactly the versions |
| CatalogIntegrity.NothingReportedMeansSound | src/infrastructure/catalog/catalog-integrity.ts:60-194 | on any tables: nothing is reported exactly when all seven foreign keys resolve, pointers name exactly the flagged versions, nothing is missing, and the index has the rebuilt rows with the same terms |
| CatalogIntegrity.CodesMeanTheirFlaws | src/infrastructure/catalog/catalog-integrity.ts:60-194 | what each issue code is reported for, in terms of the rows: a missing pointer, one to a missing or foreign version, to one not flagged, to one without sections, a flag not pointed to, a section not indexed, an index row with other terms, an index row of no searchable section |
| CatalogIntegrity.ReportedExactly | src/infrastructure/catalog/catalog-integrity.ts:38-194 | an issue is reported exactly if it is one of SQLite's own, a foreign key that names no row, or a row with the flaw of its code |
| CatalogIntegrity.OrphansExactly | src/infrastructure/catalog/catalog-integrity.ts:166-194 | while references resolve, an index row is an orphan exactly if its section is not one a search shows |
| CatalogIntegrity.InstancesDetermineTerms | src/infrastructure/catalog/catalog-integrity.ts:262-306 | two rows have the same vocabulary instances exactly when every indexed column has the same sequence of terms |
| CatalogIntegrity.VerifyCatalogIntegrity | src/infrastructure/catalog/catalog-integrity.ts:38-226 | reports each flaw of the tables once, under its own code, and nothing else, dangling aliases, events and runs included, with exact counts on any tables; the report is empty exactly on a sound catalog |
| CatalogStores.SyncStore.SelectAbandoned | src/infrastructure/catalog/sqlite-catalog-sync-store.ts:274-286 | the unlocked snapshot: exactly the running rows the store does not hold whose owner was seen dead on this host, or was not seen alive and has been silent, since its heartbeat or else its start, for longer than the lease allows |
| CatalogStores.SyncStore.RecoverCandidates | src/infrastructure/catalog/sqlite-catalog-sync-store.ts:289-309 | the compare-and-swap loop ends exactly the candidates whose lease is still as in the snapshot, and counts them |
| CatalogStores.SyncStore.RecoverAbandonedRuns | src/infrastructure/catalog/sqlite-catalog-sync-store.ts:274-310 | undisturbed, both halves together end exactly those runs, leave every other row as it is, and count them |
| CatalogStores.SyncStore.Start | src/infrastructure/catalog/sqlite-catalog-sync-store.ts:197-223 | ends exactly the runs given up, then inserts a run under the token, heard of at its start, unless an execution left running overlaps its scope or the source is unknown |
| CatalogStores.SyncStore.Complete | src/infrastructure/catalog/sqlite-catalog-sync-store.ts:225-272 | succeeds exactly for a running row under the store's token and a time not before its start, and records what was given; else fails with the error of the first check violated; reconciles the token |
| CatalogStores.SyncStore.ReconcileCompletionOwnership | src/infrastructure/catalog/sqlite-catalog-sync-store.ts:343-359 | the token is kept exactly while the row still carries it |
| CatalogStores.SyncStore.RenewOwnedRun | src/infrastructure/catalog/sqlite-catalog-sync-store.ts:361-382 | succeeds exactly for the lease holder, changing nothing but the heartbeat; otherwise drops the token |
| CatalogStores.SyncStore.PersistObservation | src/infrastructure/catalog/sqlite-catalog-sync-store.ts:312-341 | fence, validators, aliases and events in that order, each error as in the code |
| SyncProtocol.TerminalForever | src/infrastructure/catalog/sqlite-catalog-sync-store.ts:33-86 | in every interleaving a run that has ended never changes |
| SyncProtocol.RunsEndAtMostOnce | src/infrastructure/catalog/sqlite-catalog-sync-store.ts:197-310 | in every interleaving a run goes from live to ended at most once |
| SyncProtocol.SwapAppliesExactlyToUnchangedRows | src/infrastructure/catalog/sqlite-catalog-sync-store.ts:274-310 | in every interleaving, a recovery decided on a snapshot ends the run if nothing touched its row at any moment in between, and leaves the row alone if anything did, whatever followed (a changed row never looks as before again) |
| SyncProtocol.ChangesAreNotUndone | src/infrastructure/catalog/sqlite-catalog-sync-store.ts:33-86 | a live row is at the end what it was at the beginning exactly if no step on the way changed it |
| SyncProtocol.LiveRowHistory | src/infrastructure/catalog/sqlite-catalog-sync-store.ts:59-86 | a live row can only become the same with a later heartbeat, or end |
| SyncProtocol.OnlyEntitledStepsChangeRow | src/infrastructure/catalog/sqlite-catalog-sync-store.ts:33-86 | a row changes only by its holder's renewal or completion or by a swap that still fits |
| SyncProtocol.ReachableWorldsAreSafe | src/infrastructure/catalog/sqlite-catalog-sync-store.ts:197-310 | in every reachable state: tokens belong to the starters of their runs, live runs of open stores are held by their starters, no pending recovery targets a run its own store holds, and live executions never overlap; two executions running at once are over two different sources |
| SyncProtocol.OnlyTheStarterWrites | src/infrastructure/catalog/sqlite-catalog-sync-store.ts:361-382 | only the store that inserted a run renews or completes it |
| SyncProtocol.OwnRecoverySparesHeldRuns | src/infrastructure/catalog/sqlite-catalog-sync-store.ts:282-285 | a store's recovery never ends a run it still holds |
| SyncProtocol.FencedForever | src/infrastructure/catalog/sqlite-catalog-sync-store.ts:361-382 | once a store's token no longer fits, no step of anyone changes that run |
| SyncProtocol.StepKeepsScopes | catalog-migrations/C014__guard_concurrent_sync_execution.sql:59-80 | no two live executions overlap in scope |
| SyncProtocol.CompletionSucceedsExactly | src/infrastructure/catalog/sqlite-catalog-sync-store.ts:225-272 | completion succeeds exactly for the lease holder at a time not before the start, records exactly what was given and touches no other run; a failed one writes nothing |
| SyncProtocol.CompletionInTwoSteps | src/infrastructure/catalog/sqlite-catalog-sync-store.ts:225-272 | a completion and the check of its token afterwards, between which other stores may act, are the one call of the store when none does |
| SyncProtocol.StartLeasesTheRun | src/infrastructure/catalog/sqlite-catalog-sync-store.ts:197-223 | a successful start leaves a live run the store holds, over a scope no live execution overlaps |
| SyncProtocol.LiveLocalOwnersAreSpared | src/infrastructure/catalog/sqlite-catalog-sync-store.ts:384-404 | along any run: while a process lives and the stores on its host can identify it, no recovery from that host ends its run, however long the lease is silent |
| SyncProtocol.DeadOwnersAreRecovered | src/infrastructure/catalog/sqlite-catalog-sync-store.ts:384-404 | along any run: the run of a process that is gone, or whose number another process has, is over once a store on its host has looked and swapped, whatever other stores do in between |
| SyncRecovery.RecoveriesAreJustified | src/infrastructure/catalog/sqlite-catalog-sync-store.ts:384-404 | along any run: a recovery ends a run only if the last thing its store did was to look at the table, and then the owner, by the columns the row still has, was seen dead on that host, or was not seen alive and had not been heard of, since its heartbeat or else its start, for longer than the lease allows |
| SyncRecovery.RunsHeardOfAreSpared | src/infrastructure/catalog/sqlite-catalog-sync-store.ts:384-404 | along any run: a run whose owner is heard of in time, or seen alive, whenever some store looks is ended by no recovery of any host |
| SyncRecovery.UndisturbedSwapEndsExactly | src/infrastructure/catalog/sqlite-catalog-sync-store.ts:274-310 | along any run: a store that looks at a run it does not hold and then swaps, the row being untouched in between, ends it exactly if it had to give the owner up when it looked |
| SyncRecovery.RemoteOwnersAreTimed | src/infrastructure/catalog/sqlite-catalog-sync-store.ts:384-404 | for an owner on another host, undisturbed, that is exactly when it has been silent for longer than the lease allows |
| SyncRecovery.SnapshotTakesExactly | src/infrastructure/catalog/sqlite-catalog-sync-store.ts:274-286 | the candidates of a snapshot are exactly the running rows the store does not hold whose owner it must give up |
| SyncResume.ResumingCoversExactly | src/application/use-cases/sync-catalog-documents.ts:462-599 | with an unchanged configuration and any positive limits, feeding each cursor back selects the configured documents exactly once and in order, ending within one run a document, if and only if no document but the last repeats an earlier key |
| SyncResume.ConfiguredAreEnabled | src/application/use-cases/sync-catalog-documents.ts:469-473 | a run is about exactly the enabled documents of the source asked for, in the order configured |
| SyncResume.PlansSelectEnabled | src/application/use-cases/sync-catalog-documents.ts:462-495 | a plan selects, in order, the next of these documents: from the first, or after the first one the cursor names, as many as the limit allows |
| SyncResume.PlanErrorsExactly | src/application/use-cases/sync-catalog-documents.ts:462-519 | there is no plan exactly for an unknown source, a fingerprint without a cursor, a cursor without one, one of another form or another configuration, or a cursor that names no enabled document, each with its own error |
| SyncResume.PageFrom | src/application/use-cases/sync-catalog-documents.ts:571-599 | what one run takes from a position and which position its cursor stands for |
| SyncResume.RepeatedKeyIsRevisited | src/application/use-cases/sync-catalog-documents.ts:576-583 | with a repeated key before the end, two runs select documents twice |
| SyncResume.ResumeNeedsSameConfiguration | src/application/use-cases/sync-catalog-documents.ts:499-519 | a cursor is accepted only with the fingerprint of the current configuration and only if a document has its key |
| SyncResume.ZeroLimitStartsOver | src/application/use-cases/sync-catalog-documents.ts:481-484 | a limit of zero selects nothing and leaves no cursor |
| SyncService.CollectAliases | src/application/use-cases/sync-catalog-documents.ts:803-821 | one alias for each URL named other than the canonical one: a redirect's if any candidate says so, else an old one's, else a canonical one's |
| SyncService.WritesAreServiceCalls | src/application/use-cases/sync-catalog-documents.ts:204-383 | whatever is fetched, the write uses derived public ids, activates nothing without a version, and carries the run's observation |
| SyncOutcomes.MissingPages | src/application/use-cases/sync-catalog-documents.ts:352-383 | after a 410 the document read is removed, after a 404 stale, with URL, title and language as read and every other row as it was; the write is taken exactly if the row still has the key and the URL is free, and the lease is held |
| SyncOutcomes.UnmodifiedPages | src/application/use-cases/sync-catalog-documents.ts:204-249 | a page not modified leaves its document redirected to the target of a permanent redirect exactly if URL or status differ from that, and otherwise changes its last-seen time only |
| SyncOutcomes.FetchedPages | src/application/use-cases/sync-catalog-documents.ts:251-316 | a fetched page is stored: its row with the URL and title fetched, redirected exactly if the redirect was permanent and active otherwise, one current version, and exactly its sections; taken exactly if the sections can be stored, the document named, the URL is free and the lease held |
| SyncOutcomes.UnreachablePages | src/application/use-cases/sync-catalog-documents.ts:336-341 | an unreachable source changes no document row; the observation is recorded exactly if the lease is held |
| SyncOutcomes.OtherPages | src/application/use-cases/sync-catalog-documents.ts:318-350 | any other failure, or an answer about a document or version the catalog did not have, changes nothing |
| SyncOutcomes.RefusedTurns | src/application/use-cases/sync-catalog-documents.ts:204-383 | a write that is refused leaves every table as it was |
| SyncService.SynchronisationKeepsCatalogSound | src/application/use-cases/sync-catalog-documents.ts:135-383 | any interleaving of synchronisation runs with other stores' calls leaves a catalog the integrity check finds nothing in |
| RobotsWildcards.RobotsWildcardMatches | src/infrastructure/fetch/secure-http-gateway.ts:607-628 | decides exactly: an open pattern, whether some choice for the stars covers a prefix; an anchored one ending in `*`, whether it covers the path; any other anchored one, whether it covers the path and no shorter prefix |
| RobotsWildcards.AnchoredPatternsDecidedRight | src/infrastructure/fetch/secure-http-gateway.ts:619-627 | an anchored pattern is decided as the standard says on every path if and only if it has no `*`, ends in one, or can cover no path |
| RobotsWildcards.RepeatedTailIsMissed | src/infrastructure/fetch/secure-http-gateway.ts:619-627 | for every other anchored pattern, a path it should match and does not |
| RobotsWildcards.PlaceLeftmost | src/infrastructure/fetch/secure-http-gateway.ts:619-625 | placing a segment at its leftmost occurrence loses no prefix that could still be covered |
| RobotsOctets.NormalizeRobotsOctets | src/infrastructure/fetch/secure-http-gateway.ts:638-684 | the loop writes the canonical spelling of what the string spells |
| RobotsOctets.Utf8ReadsBack | src/infrastructure/fetch/secure-http-gateway.ts:676-679 | the octets a character beyond ASCII is escaped to are well-formed UTF-8 and read back as that character |
| RobotsOctets.ReadBackExactly | src/infrastructure/fetch/secure-http-gateway.ts:638-684 | a normalized string spells the same units again exactly when no bare `%` runs into two hexadecimal digits |
| RobotsOctets.EquivalentSpellings | src/infrastructure/fetch/secure-http-gateway.ts:599-605 | two such strings normalize alike exactly when they spell the same units |
| RobotsOctets.BarePercentRunsIntoDigits | src/infrastructure/fetch/secure-http-gateway.ts:657-667 | normalizing twice can differ from normalizing once |
| RobotsOctets.WrittenReadsBack | src/infrastructure/fetch/secure-http-gateway.ts:638-684 | every canonical sequence of characters and escapes is what some string spells |
| RobotsRules.SpecificityCountsOctets | src/infrastructure/fetch/secure-http-gateway.ts:630-636 | specificity is the number of units other than `*`, exactly when none looks like an escape that is not one |
| RobotsRules.DecideByGroups | src/infrastructure/fetch/secure-http-gateway.ts:516-540 | the loop over groups and rules permits exactly when every matching Disallow is met by a matching Allow at least as specific |
| RobotsRules.MostSpecificRuleWins | src/infrastructure/fetch/secure-http-gateway.ts:525-539 | that is: no rule matches, or some matching Allow is at least as specific as every matching Disallow |
| RobotsRules.OrderDoesNotMatter | src/infrastructure/fetch/secure-http-gateway.ts:516-540 | the answer stays the same when groups are put in another order, and agents and rules in another order within them |
| RobotsGroups.ParseRobotsGroups | src/infrastructure/fetch/secure-http-gateway.ts:552-579 | the groups formed give every agent exactly the rules of lines between which and a line naming it no agent line follows a rule line |
| RobotsGroups.OneRuleFile | src/infrastructure/fetch/secure-http-gateway.ts:516-579 | a group of one rule binds the crawlers it names, all of them if it names `*`, and no others |
| RobotsGroups.OwnGroupWins | src/infrastructure/fetch/secure-http-gateway.ts:516-524 | a crawler with a group of its own is bound by that group alone, and all others by that of `*` |
| RobotsGroups.AllowedAgain | src/infrastructure/fetch/secure-http-gateway.ts:525-539 | a disallowed path is permitted exactly by a matching Allow at least as specific |
| RobotsFile.IsAllowedByRobots | src/infrastructure/fetch/secure-http-gateway.ts:516-579 | the decision on a file's text is the meaning of its directive lines for the crawler's product token, or for `*` when none names it |
| RobotsFile.LineReads | src/infrastructure/fetch/secure-http-gateway.ts:581-591 | white space, letter case of the field and a trailing comment make no difference to what a line says |
| RobotsFile.LinesReadBack | src/infrastructure/fetch/secure-http-gateway.ts:563 | splitting joined lines gives the lines back |
| RobotsFile.TokenInFrontOfVersion | src/infrastructure/fetch/secure-http-gateway.ts:518 | the product token is the name in front of the version, in lower case |
| RobotsStandard.DisallowReadExactly | src/infrastructure/fetch/secure-http-gateway.ts:599-684 | for any set of octets whose escapes are read as their characters: a Disallow rule alone is applied as it is meant to every path without these escapes if and only if it can match no path, or has none of them and, if it is anchored, no `*` before its end |
| RobotsStandard.CharacterMissesItsEscape | src/infrastructure/fetch/secure-http-gateway.ts:638-684 | a rule with one of these characters itself (a `$` before its end, say) misses a path in which it is escaped |
| RobotsStandard.EscapedStarIsMissed | src/infrastructure/fetch/secure-http-gateway.ts:638-684 | `/a%2Ab` is meant to match `/a*b` and does not |
| RobotsStandard.EscapedDollarIsMissed | src/infrastructure/fetch/secure-http-gateway.ts:638-684 | `/a%24` is meant to match `/a$` and does not |
| RobotsStandard.InnerDollarMissesEscape | src/infrastructure/fetch/secure-http-gateway.ts:599-684 | `/a$b` is meant to match `/a%24b` and does not |
| RobotsStandard.DecidedAsMeant | src/infrastructure/fetch/secure-http-gateway.ts:516-540 | if every rule is one that is applied right, every path without these escapes is decided as the rules are meant |
| RobotsStandard.FileDecidedAsMeant | src/infrastructure/fetch/secure-http-gateway.ts:516-579 | a file whose rules for the crawler are all applied right is decided as they are meant for every path without these escapes |
| GatewayDownloads.DownloadSession.Follow | src/infrastructure/fetch/secure-http-gateway.ts:136-201 | against any servers: each hop's URL is where the hop before was redirected to by its server, starting with the URL asked for; the returned status, body and final URL are those of the last hop's response and the chain is the redirects in order; an error is that of the last answer, too many redirects, an expired deadline, a policy refusal, or a robots refusal of the next URL; exchanges are bounded by (robots enforcement, redirects left) |
| GatewayDownloads.DownloadSession.PrepareHop | src/infrastructure/fetch/secure-http-gateway.ts:149-165 | goes on exactly with what the policy approved at the hop's turn, in time for the throttle, and, if robots are respected, for a page whose path is not `/robots.txt` only when a recorded robots answer permits it; else fails with the reason, nothing having been connected to for the page itself |
| GatewayDownloads.DownloadSession.AssertRobotsAllowed | src/infrastructure/fetch/secure-http-gateway.ts:203-246 | passes exactly with a recorded fetch of the origin's robots file whose answer permits the path, a 404 permitting all; refuses because that file forbids it or because the fetch failed; a known origin costs no exchange |
| GatewayDownloads.DownloadSession.FetchFile | src/infrastructure/fetch/secure-http-gateway.ts:203-246 | asks for an origin's robots file once, records the exchanges, and returns the decoded rules of the final answer, or the error that explains why there is none |
| GatewayDownloads.DownloadSession.RequestPinned | src/infrastructure/fetch/secure-http-gateway.ts:248-278 | connects to the approved addresses in turn, moving on exactly after failures without an HTTP status, and returns the first other result; every connection made is one of the attempts |
| GatewayDownloads.DownloadSession.RequestPinnedAtAddress | src/infrastructure/fetch/secure-http-gateway.ts:318-377 | one connection: its result for each kind of answer, declared length, body and ending, and exactly the bytes kept of its body charged to the budget, whatever becomes of it |
| GatewayDownloads.DownloadSession.ReadBody | src/infrastructure/fetch/secure-http-gateway.ts:351-361 | charges the leading chunks that fit, and keeps the body exactly when all of it does |
| GatewayDownloads.SecureHttpGateway.Download | src/infrastructure/fetch/secure-http-gateway.ts:106-134 | against any servers: the connections made are exactly the attempts of the exchanges, in order, each finding the budget less what all before it kept, failed ones included; at most (R+1)(R+2) exchanges, each of an approved URL; each page permitted by a recorded robots answer, each origin's robots file asked for at most once; the result is that of a redirect chain of at most R hops as the servers sent it; conditional headers go with the first page only; an error is explained by an answer; unsafe limits are refused; if robots are respected, every page whose path is not `/robots.txt` was asked for after a fetch of its origin's file that found none or one whose lines permit the path, and if they are not, no file is asked for |
| GatewayDownloads.BudgetIsShared | src/infrastructure/fetch/secure-http-gateway.ts:351-361 | the limit is what remains plus the sum of the bytes kept over all connections |
| GatewayPermits.RunsKeepSound | src/infrastructure/fetch/secure-http-gateway.ts:435-464 | in every interleaving `active` is the number of permit holders, at most the maximum, and nobody waits while a permit is free |
| GatewayPermits.TimeOutKeepsPermits | src/infrastructure/fetch/secure-http-gateway.ts:447-451 | a time-out neither gains nor loses a permit and keeps the order of the others |
| GatewayPermits.FirstComeFirstServed | src/infrastructure/fetch/secure-http-gateway.ts:453-462 | no download gets its permit while one queued before it still waits |
| GatewayPermits.ServedWithinItsPlace | src/infrastructure/fetch/secure-http-gateway.ts:457-464 | a waiter with p ahead of it has its permit by the (p+1)th release unless it times out |
| GatewayPermits.PermitGate.Acquire | src/infrastructure/fetch/secure-http-gateway.ts:435-455 | admits, refuses or queues as the protocol's step says |
| GatewayPermits.PermitGate.Release | src/infrastructure/fetch/secure-http-gateway.ts:457-464 | hands the permit to the first waiter, or gives it back |
| CacheRows.EvictDropsShortestPrefix | src/infrastructure/cache/sqlite-cache-repository.ts:372-407 | eviction removes the shortest prefix in eviction order whose removal brings both tables within the limits |
| CacheRows.EvictedComeFirst | src/infrastructure/cache/sqlite-cache-repository.ts:141-154 | every evicted row comes before every kept row in (last access, creation, kind, key) |
| CacheRows.OrderedAscends | src/infrastructure/cache/sqlite-cache-repository.ts:141-154 | the eviction order is strictly ascending over all rows of both tables |
| CacheRows.TextBeforeExactly | src/infrastructure/cache/sqlite-cache-repository.ts:141-154 | keys are compared by their first difference, a text coming before its continuations |
| Cache.CacheDatabase.Upsert | migrations/V005__harden_cache_validators_and_usage.sql:27-79 | the triggers keep the usage row the exact count and byte sum across an insert or a size change |
| Cache.CacheDatabase.Delete | migrations/V005__harden_cache_validators_and_usage.sql:36-70 | the triggers keep the usage row exact across a delete |
| Cache.CacheDatabase.EvictionCandidates | src/infrastructure/cache/sqlite-cache-repository.ts:138-154 | the query returns the first rows in eviction order |
| Cache.CacheRepository.EvictBatch | src/infrastructure/cache/sqlite-cache-repository.ts:390-407 | a batch takes eviction further without changing where it ends, and keeps the running totals exact |
| Cache.CacheRepository.EvictOverflow | src/infrastructure/cache/sqlite-cache-repository.ts:372-388 | batches of 256 end where one-at-a-time eviction ends, and the number removed is returned |
| Cache.CacheRepository.PruneSync | src/infrastructure/cache/sqlite-cache-repository.ts:345-360 | drops what is past retention, evicts to the limits, returns the number removed |
| Cache.CacheRepository.Set | src/infrastructure/cache/sqlite-cache-repository.ts:243-268 | upsert and pruning in one transaction; the limits hold afterwards |
| Cache.CacheRepository.Get | src/infrastructure/cache/sqlite-cache-repository.ts:201-241 | returns a record exactly if there is a row, fresh or wanted stale, within its retention, that the decoder accepts, and then changes nothing but that row's last access; removes a row it was free to return and could not; else changes nothing |
| Cache.CacheRepository.DeleteExpired | src/infrastructure/cache/sqlite-cache-repository.ts:193-195 | prunes and returns the number removed |
| Cache.ReadsReturnTheLatestSet | src/infrastructure/cache/sqlite-cache-repository.ts:201-268 | after any history a record returned is that of the last write to its kind and key, stale exactly from its expiry on, and never past the retention |
| Cache.PruningAgreesWithReading | src/infrastructure/cache/sqlite-cache-repository.ts:210-213 | pruning removes by age exactly the rows no read would return |
| Cache.LastAccessIsLastUse | src/infrastructure/cache/sqlite-cache-repository.ts:201-268 | after any history each row's last access is the time of the last write of its slot or read that was answered |
| Cache.LeastRecentlyUsedGoFirst | src/infrastructure/cache/sqlite-cache-repository.ts:141-154 | after any history: what a write or a pruning evicts was last used no later than anything it keeps |
| Cache.PruningDropsOldest | src/infrastructure/cache/sqlite-cache-repository.ts:141-154 | what is evicted has, against anything kept, the earlier last access, or else the earlier creation, or else is content and not search, or else has the smaller key |
| Cache.PruningDropsNoMoreThanNeeded | src/infrastructure/cache/sqlite-cache-repository.ts:345-407 | pruning drops what is past its retention and of the rest no more than it must: one of the rows it evicts would not fit beside those it keeps |
| Cache.BytesAreUtf8 | src/infrastructure/cache/sqlite-cache-repository.ts:259 | a row counts as many bytes as its value has in UTF-8 |
| Cache.WritesAreReadable | src/infrastructure/cache/sqlite-cache-repository.ts:243-268 | a write is readable at once, unless it was evicted with everything before it |
| Cache.LimitsAlwaysHold | src/infrastructure/cache/sqlite-cache-repository.ts:345-407 | after any history both tables together are within the limits |
| SearchHistory.SearchHistoryRepository.Append | src/infrastructure/history/sqlite-search-history-repository.ts:112-135 | insert and both deletes in one transaction; the new entry stays, and at most maxEntries do; a blank request id or query, or a request id that is stored already, is refused and changes nothing |
| SearchHistory.PruningKeepsTheNewest | src/infrastructure/history/sqlite-search-history-repository.ts:99-109 | of the entries young enough exactly the newest maxEntries are kept |
| SearchHistory.AppendedEvolves | src/infrastructure/history/sqlite-search-history-repository.ts:112-135 | ids are never handed out again, entries never change, and no request is stored twice |
| SearchHistory.SearchHistoryRepository.List | src/infrastructure/history/sqlite-search-history-repository.ts:137-166 | a page is the newest entries below the cursor that have the fields, times and text asked for and are within the retention days, with a next cursor exactly when more follow, and counts all of them |
| SearchHistory.MatchesExactly | src/infrastructure/history/sqlite-search-history-repository.ts:137-166 | an entry matches exactly if every field asked for is its own, its time is within the bounds, and its query contains the text in any letter case |
| SearchHistory.ReturnedDescends | src/infrastructure/history/sqlite-search-history-repository.ts:155-158 | along the pages ids strictly decrease, whatever is appended in between |
| SearchHistory.PagesReturnEachOnce | src/infrastructure/history/sqlite-search-history-repository.ts:112-166 | every entry matching at the first page and still at the last is returned exactly once, under any appends and prunings between pages |
| WorkerPool.RunsKeepSound | src/infrastructure/fetch/recovering-worker-pool.ts:61-107 | in every interleaving each produced worker is in exactly one slot or terminated, only failed workers are terminated, and a slot has at most one factory call under way |
| WorkerPool.HealthyWorkersStay | src/infrastructure/fetch/recovering-worker-pool.ts:61-87 | a worker that has not failed never leaves its slot |
| WorkerPool.RepairsBackOff | src/infrastructure/fetch/recovering-worker-pool.ts:89-107 | after a failed repair the slot's factory is not at work again before the retry delay has passed |
| WorkerPool.ScanFinds | src/infrastructure/fetch/recovering-worker-pool.ts:61-73 | a scan reserves a healthy accepting worker, or leaves every slot with a healthy worker, under repair or backing off |
| WorkerPool.RecoveringWorkerPool.TryReserve | src/infrastructure/fetch/recovering-worker-pool.ts:63-73 | the loop over the slots is the protocol's scan step |
| WorkerPool.RecoveringWorkerPool.ReportFailure | src/infrastructure/fetch/recovering-worker-pool.ts:81-87 | only a failed worker of the pool is discarded |
| FileLease.AtMostOneHolder | src/infrastructure/locking/file-lease-lock.ts:91-167 | with whole-method steps, truthful probes and process numbers used again, no two live processes hold the lock and a held lock is never taken away |
| FileLease.DeadOwnersAreReplaced | src/infrastructure/locking/file-lease-lock.ts:267-330 | a stale lock whose owner is gone can be taken on its host |
| FileLease.LocksAreTakenExactly | src/infrastructure/locking/file-lease-lock.ts:267-330 | a lock file is taken away exactly if its heartbeat, or its creation while there is none, is longer ago than allowed and its owner is seen to be gone on the taker's host, and then the taker holds the new one |
| FileLease.FileLeaseLock.Acquire | src/infrastructure/locking/file-lease-lock.ts:91-120 | creates the file with the first attempt's token and time, or recovers a stale one and creates it with the second attempt's, or changes nothing |
| FileLease.FileLeaseLock.RecoverStaleLock | src/infrastructure/locking/file-lease-lock.ts:267-330 | takes the file away exactly if it is stale, of this host, and its process is gone or another |
| ContentSelection.SelectRelevantContent | src/domain/services/content-selection.ts:29-90 | the output fits the budget, separators included; shows the best candidates in order, each in full if it fits what is left and else shortened to that; stops only when the budget or the section limit is used up; and is unmarked exactly when it is all candidates in full |
| ContentSelection.TruncateAtBoundary | src/domain/services/content-selection.ts:204-220 | at most the given length: the text up to the last blank not before the floating-point floor of 70 %, or as far as fits, without trailing space, plus an ellipsis |
| ContentSelection.MinimumBoundaryIsClose | src/domain/services/content-selection.ts:217 | the floor of the rounded product is the exact 70 % rounded down, or one less |
| ContentSelection.RankSorts | src/domain/services/content-selection.ts:38-45 | the ranking is the candidates, by score descending and place ascending |
| ContentSelection.RelevantExactly | src/domain/services/content-selection.ts:38-45 | with search terms the relevant candidates are those with a positive score, and without all are |
| ContentChunks.ChunkDocumentSections | src/infrastructure/catalog/sqlite-catalog-repository.ts:304-354 | chunks are at most 12000 characters and their ordinals never clash; each has the headings of its section and its whole text or, trimmed, a window of it; repeated input ordinals are refused, and sections that fit are left as they are |
| ContentChunks.WindowsCoverText | src/infrastructure/catalog/sqlite-catalog-repository.ts:321-343 | the chunks' windows, overlaps dropped, are the whole text |
| ContentChunks.WindowsOverlap | src/infrastructure/catalog/sqlite-catalog-repository.ts:321-343 | neighbouring windows share exactly 400 characters |

## Left out

- CatalogStores.SyncStore.Start: recovery and insertion are one method here; the protocol in `SyncProtocol` lets other stores act between them.
- FileLease.AtMostOneHolder: takes each method as one step, so interleavings inside the rename, re-read and rename-back sequence of a recovery are not covered.
- FileLease.FileLeaseLock.Acquire: failed file operations and their clean-up are not modelled, nor a lock file whose contents cannot be read.
- GatewayDownloads.SecureHttpGateway.Download: describes one download once it holds its permit; the permits are modelled apart in `GatewayPermits`.
- GatewayPermits.ServedWithinItsPlace: says nothing about how long a download keeps its permit.
- ContentSelection.SelectRelevantContent: scores are given real numbers; how relevance is computed and rounded is not part of this model.
- RobotsWildcards.AnchoredPatternsDecidedRight: a path is any string of URL characters that starts with `/`; that serialising a URL also removes dot segments, and escapes some characters in its path or in its query only, is not modelled.
- RobotsStandard.DisallowReadExactly: over paths without the escapes in question; of paths with them it is said which characters of a rule miss them, not which literals of a rule fall inside an escape.
- CatalogRuns.HistoriesAgreeExactly: histories are of the simple form, which `CatalogRepair.ServiceHistoriesExecute` ties to the statements; over an index that disagrees a commit can also be refused, as `CatalogRepair.NewDocumentCollidesExactly` says.
- RobotsFile.LineReads: lower case is that of ASCII letters only.
- Columns that no statement reads for a decision (base URL, MIME type, heading level, anchor, character and token counts, labels) and the cutting of over-long headings and labels.
- Per-origin throttle spacing, DNS, sockets, TLS and header handling of the gateway; deadlines appear as answers of the environment.
- Extraction, sanitising, Markdown splitting, tokenisation, ranking by BM25, hashing, URL and Unicode normalisation.
- JSON encoding of cached values and event details: values stand for themselves, and details carry whether they parse to an object.
- Row ids beyond SQLite's largest integer, corrupted database files and failed statements other than constraint violations.
- CatalogIntegrity.VerifyCatalogIntegrity: the failure of the vocabulary comparison itself, the order in which issues are listed, and the messages.
- Reading and paging of documents, versions and sections for display, which would add only easy members.
- Configured documents of a missing or disabled source: synchronisation skips them before anything is fetched, and they make no turn here.
- Migrations: the schema is taken as the last migration leaves it.
