# Verification of the skill registry

The registry keeps one authoritative log in PostgreSQL: immutable skill versions, their authored
selectors, observation runs and user stars. Everything else is derived from it and has to agree
with it at all times: co-usage pairs and graph edges, embeddings, search documents, checksums,
counters, the current default of a skill. This project models those tables and the operations on
them in Dafny 4.11 and proves what the derived structures promise.

A committed transaction is one atomic step. Times are integers (microseconds), scores of the
co-usage tables integers in millionths, ranking scores exact reals. SHA-256 is a free constructor:
equal digests mean equal texts. What the database decides outside the model (full-text scores,
semantic distances, generated ids, the clock) is a parameter.

`dafny verify dfyconfig.toml` checks the project.

## What is in it

Co-usage evidence. `CoUsage` says what the pair table and the graph edges are, as functions of the
accepted runs and the last policy; `CoUsageLaws` proves what holds over every sequence of imports;
`CoUsageStore` holds the tables and the statements of one import transaction and proves that they
compute the declared result. One result is a boundary of the code: an import of known, distinct
skills fails exactly when it leaves a pair whose lift rounds to ten thousand or more, which
NUMERIC(10, 6) cannot hold. `CoUsageExamples` has import histories that reach this boundary and
that leave evidence stale. `CoUsageMeaning` says the same results in counts of recent runs: what a
stored pair holds, which edges are active, how an import ends, what a boost is.

Embedding queue. `EmbeddingProtocol` is the queue as a state machine in which workers crash, write
late and write twice; `EmbeddingIndexer` and `EmbeddingWorker` are the repository methods and the
worker loop as classes, with exact effects and counts for draining the queue whoever else holds
leases. Rows and their single-row updates, shared by both, are in `Embeddings`.

Discovery. `LikePattern`, `SearchRanking` and `GroupRanking` cover the lexical query, `Fusion` and
`FusionLaws` the fused ranking, `SearchService` the service around them, `Normalization` the alias
expansion of documents and queries, `QueryExpansion` the rows it costs a query, `Governance` the
grants, the visibility rule and the filters pushed into SQL, `PushedFilters` what these filters do to
the page. `SearchOrder` says in scores and ranks which row comes first on a page and which is left
out. `VersionDefaults` relates the three endpoints that choose a current default, `CatalogueOrder`
says in columns how their rows are ordered.

Checksums. `Selectors` flattens, stores, sorts and regroups selectors; `CanonicalJson` is the
canonical text, a reader of it and the proof that reading undoes printing; `VersionChecksum` is what
the version digest covers, and `ChecksumText` spells out the hashed text of one version.

Catalogue. `Catalogue` says what each transaction does to the tables, `CatalogueLaws` what every run
keeps, `CatalogueHistory` what the tables say about the past, `CatalogueRequests` that governed
columns and search documents are functions of the request sequence alone, `CatalogueAdmission` when
a publish is accepted and with which code it is refused, and `CatalogueStore` is the repository
class. `LifecycleProtocol` is the status update with its separate read and write transactions,
`Stars` the star batches and their row locks, `Migration0013` the schema revision in both
directions, with what its preflight queries find in `MigrationQueries` and the history of edge rows
after it in `EdgeHistory`. `Collections`, `Orders` and `Hashing` are shared vocabulary.

## Where the code stops short

Each of these is stated exactly, with the condition under which the stronger statement holds.

- Publishing to an existing skill ignores the requested namespace but stores it in the search
  document (app/persistence/skill_registry_repository.py:1343-1347,
  app/persistence/skill_registry_repository_support.py:400). `CatalogueHistory.DocumentAgreesIff`
  says when a document is wrong and that moving the skill repairs it;
  `CatalogueHistory.ADocumentCanBeMisfiled` is such a run;
  `Migration0013.MisfiledDocumentsBlockTheUpgradeIff` is its consequence for the migration.
- `archived` is final under the default profile only if no admitted status call is still about to
  write: the service reads and writes in separate transactions
  (app/core/skills/registry.py:218-278). See `LifecycleProtocol.ArchivedIsAbsorbingIff` and
  `LifecycleProtocol.ArchivedCanBeLeft`.
- The trust tier enters the version checksum and can be changed later without a recomputation
  (app/core/skills/registry.py:597-598, app/persistence/skill_registry_repository.py:1242-1243).
  See `CatalogueHistory.ChecksumCanBeRecomputedIff` and `CatalogueRequests.AChecksumCanBeOutdated`.
- An edge that is already active does not refresh its confidence or evidence
  (app/persistence/skill_registry_repository.py:1676-1681). See
  `CoUsageLaws.EvidenceIsOfLastActivation` and `CoUsageExamples.EvidenceCanBeStale`.
- A pair of skills that rarely occurs but then together makes every import fail once the window has
  ten thousand times as many runs. See `CoUsage.ImportOverflowsIff` and
  `CoUsageExamples.TenThousandthImportIsRefused`.
- Pushing the review filter into SQL hides versions from a caller whose review grant is not backed
  by the review scope (`Governance.PushDownIsSafeIff`) and archived versions from an administrator
  who is filtered by namespace or channel (`Governance.ArchivedIsNeverHiddenIff`). The two column
  filters forget which channel goes with which namespace unless the grants are rectangular
  (`Governance.FiltersAreGrantsIff`).
- Search chooses one version per slug and cuts the page before it checks visibility, so a visible
  match can be lost. See `SearchService.SlugIsShownInAnyModeIff`, `SearchService.SlugIsShownIff` and
  `SearchService.AVisibleRowCanBeLost`.
- Expanding "doc" in a query requires the word "documentation" as well, which a document that has
  "doc" only as part of a hyphenated word lacks; the row is then lost unless the query occurs in its
  slug or name. See `QueryExpansion.ExpansionLosesTheRowIff`,
  `QueryExpansion.ExpansionNeverLosesTheRowIff` and `QueryExpansion.ARowCanBeLost`.
- In hybrid mode the filters in SQL can take a visible slug off the page, because invisible semantic
  rows no longer hold back others. See `PushedFilters.ShownSlugStaysIff` and
  `PushedFilters.AShownSlugCanFallOff`.
- The catalogue picks the default before it filters visibility, the version list after. See
  `VersionDefaults.CatalogOmitsIffDefaultHidden` and `VersionDefaults.AFlaggedVersionCanBeOmitted`.
- Evidence with a key that revision 0013 retires does not survive downgrade and upgrade
  (`Migration0013.UpgradeUndoesDowngradeIff`, `Migration0013.ARetiredKeyIsLost`), but in no run of
  imports after an upgrade does an edge carry one (`EdgeHistory.EdgesOfEveryRunRoundTrip`).

## Model

| member | source | states |
|---|---|---|
| CoUsageLaws.ImportsKeepDerivedTables | app/persistence/skill_registry_repository.py:889-971 | After any sequence of imports, accepted or refused, the pair table is the declared function of the accepted runs and the last accepted policy; the active edges are exactly the eligible unordered pairs; no edge repeats a pair, source is below target, and every score fits its column |
| CoUsageLaws.SameRunsSameTables | app/persistence/skill_registry_repository.py:1488-1689 | Two import histories with the same log and the same last policy derive the same pairs and the same active edges, however they got there |
| CoUsageLaws.AcceptedRunsAreTheLog | app/persistence/skill_registry_repository.py:922-956 | When every import of a sequence is accepted, the log is exactly the set of their runs and the policy that counts is the last one |
| CoUsageLaws.ReorderedImportsAgree | app/persistence/skill_registry_repository.py:889-971 | Any reordering of accepted imports that keeps the final policy derives the same pairs and active edges, and below ten thousand imports the reordering is itself accepted throughout |
| CoUsageLaws.SmallHistoriesAreAccepted | app/persistence/skill_registry_repository.py:889-971 | Below ten thousand imports acceptance does not depend on the order: imports of known, distinct skills with distinct source and digest are all accepted |
| CoUsageLaws.OldRunLeavesPairs | app/persistence/skill_registry_repository.py:889-971 | From any state that imports lead to, importing a run older than the window under the same policy is accepted: the run enters the log, and the stored pairs and the active edges stay as they are |
| CoUsageLaws.OldRunLeavesPairsOfTheWindow | app/persistence/skill_registry_repository.py:1493-1512 | Under another policy with the same window length the run enters the log and the stored pairs stay as well |
| CoUsageLaws.ReportedCountsAreExact | app/persistence/skill_registry_repository.py:1611-1689 | Activated counts the eligible pairs that were not active, deactivated the active ones no longer eligible, exactly; the active count moves by their difference, and the log grows by one run |
| CoUsageLaws.EvidenceIsCurrentIff | app/persistence/skill_registry_repository.py:1639-1684 | One step, said from the ledger and the request alone: an edge active after an accepted import carries the present row of its pair, confidence included, exactly when it was inactive before or already carried that row |
| CoUsageLaws.EvidenceIsOfLastActivation | app/persistence/skill_registry_repository.py:1639-1684 | Over every sequence of imports an active edge has the confidence and evidence of its pair's larger direction in the pair table of its last activation, and they are current exactly when that row is the same in the present table |
| CoUsageExamples.EvidenceCanBeStale | app/persistence/skill_registry_repository.py:1676-1681 | Three accepted imports after which an active edge still has confidence one while the rate of its pair is one half |
| CoUsageLaws.EvidenceIsFrozenWhileActive | app/persistence/skill_registry_repository.py:1676-1681 | As long as an edge stays active, over any imports, its confidence and evidence are those of its activation |
| CoUsageLaws.BoostsNeedNoClamp | app/persistence/skill_registry_repository.py:858-887 | Boosts read from a derived pair table are rate times cap and lie in [0, cap]: the clamp in SQL and the clamp in Python are both the identity |
| CoUsageMeaning.StoredPair | app/persistence/skill_registry_repository.py:1488-1581 | What is stored for an ordered pair, in counts of runs: a row exactly when a recent run has both skills; the number of such runs, their share of the anchor's runs and the lift, each the nearest millionth, the newest common instant and the window |
| CoUsageMeaning.ActiveAfterImportIff | app/persistence/skill_registry_repository.py:889-971 | After an accepted import its run is on record, and an edge is active exactly when its recent common runs are at least min_runs, one of the two rates reaches min_rate, and the lift exceeds min_lift |
| CoUsageMeaning.EligibleIff | app/persistence/skill_registry_repository.py:1589-1605 | In a symmetric table an unordered pair is eligible exactly when both directions are stored with min_runs common runs, one rate reaches min_rate and the lift exceeds min_lift |
| CoUsageMeaning.ActivatedEdge | app/persistence/skill_registry_repository.py:1639-1684 | An edge that an import activates carries the present figures of its pair, and its confidence is the larger of the two rates |
| CoUsageMeaning.ImportEnds | app/persistence/skill_registry_repository.py:889-971 | How an import ends, in the order of the checks: duplicate, unknown skills listed in order, a skill named twice, acceptance or overflow; a refused import changes nothing |
| CoUsageMeaning.BoostIsBestShare | app/persistence/skill_registry_repository.py:858-887 | The boost of a candidate is the cap times the largest share of a context skill's recent runs that also have the candidate, and there is none without such runs |
| CoUsage.ImportOverflowsIff | app/persistence/skill_registry_repository.py:889-971 | An import fails on the column type exactly when it is no duplicate, names known and distinct skills, and completes a window in which some pair has an unrounded lift of at least 9999.9999995 |
| CoUsage.OverflowsIff | alembic/versions/0005_semantic_discovery_signals.py:104-116 | The pair table of a log cannot be stored exactly when some pair of its window has such a lift; rates never overflow |
| CoUsageExamples.TenThousandthImportIsRefused | alembic/versions/0005_semantic_discovery_signals.py:104-116 | It happens: 9,999 accepted imports of one skill and then an import of two known new skills that passes the endpoint's checks and fails on the column type |
| CoUsage.ScoresOfAPair | app/persistence/skill_registry_repository.py:1502-1575 | For a pair in the window: count and lift are symmetric, 0 <= rate <= 1, lift is at least either rate and at most N / max(n_a, n_b), all after rounding to six decimals |
| CoUsage.RoundIsMonotone | app/persistence/skill_registry_repository.py:1568-1569 | Rounding two quotients to six decimals keeps their order |
| CoUsage.PairTableIsSymmetric | app/persistence/skill_registry_repository.py:1522-1575 | Both directions of every pair are in the table and differ in the rate only |
| CoUsage.EligibleIffLargerDirectionPasses | app/persistence/skill_registry_repository.py:1589-1605 | An unordered pair is eligible exactly when its larger-rate direction passes the thresholds |
| CoUsage.SmallWindowsFit | alembic/versions/0005_semantic_discovery_signals.py:104-116 | A window of fewer than ten thousand runs never overflows NUMERIC(10, 6) |
| CoUsage.InseparablePairOverflowsIff | alembic/versions/0005_semantic_discovery_signals.py:104-116 | Two skills that only ever occur together, in any number of runs, overflow exactly when the window has ten thousand times as many runs, up to rounding |
| CoUsageStore.RebuildIsDeclared | app/persistence/skill_registry_repository.py:1488-1581 | The rebuild over run and observation rows (joins, distinct counts, groups) computes the declared pair table, whatever ids the rows have |
| CoUsageStore.GroupMaximum | app/persistence/skill_registry_repository.py:1589-1605 | The per-column maxima of the passing rows of a group are one row: that of the larger-rate direction |
| CoUsageStore.EdgeStatementsAreSync | app/persistence/skill_registry_repository.py:1611-1689 | Deactivating and then upserting is the declared sync of the edges |
| CoUsageStore.SyncCoUsageGraphEdges | app/persistence/skill_registry_repository.py:1584-1689 | The two statements give the declared edges, and their row counts are the sizes of the two set differences |
| CoUsageStore.InsertedRun | app/persistence/skill_registry_repository.py:922-953 | Inserting the run row and its observation rows adds exactly that run to the log and keeps the constraints |
| CoUsageStore.ImportOnView | app/persistence/skill_registry_repository.py:889-971 | One transaction on its own view: duplicate, unknown, repeated and overflowing imports stage nothing; otherwise the staged tables and the reported counts are those of the ledger |
| CoUsageStore.Store.ImportObservationRun | app/persistence/skill_registry_repository.py:889-971 | The committed tables and the outcome are the ledger's import of the record; a refused import changes no field |
| EmbeddingProtocol.EveryIndexedRowIsSound | app/persistence/skill_registry_repository.py:591-856 | In every interleaving of publishes, backfills, claims, index and failure writes, stale marks and time, an indexed row has a timestamp and a 1536-dimensional vector that embeds a text whose digest is the row's own checksum |
| EmbeddingProtocol.ClaimsAreSpaced | app/persistence/skill_registry_repository.py:719-742 | Two claims of a row that stays in processing in between are at least the later claim's reclaim interval apart |
| EmbeddingProtocol.AbandonedRowIsReclaimableIff | app/persistence/skill_registry_repository.py:719-742 | In every run a row that was claimed and then neither finished nor claimed again can be taken back exactly when the worker's reclaim interval has passed since the claim: the lease of a crashed worker ends, and not early |
| EmbeddingProtocol.ClaimIsEnabledIff | app/persistence/skill_registry_repository.py:719-728 | A row can be claimed exactly when it is pending, stale, or in processing for at least the reclaim interval |
| EmbeddingProtocol.WhatAClaimDoes | app/persistence/skill_registry_repository.py:730-791 | A claim moves exactly the chosen rows to processing, stamps them and clears their error, keeps digest and vector, and hands out the present text or owes a stale mark |
| EmbeddingProtocol.ReportsAreEnabledIff | app/persistence/skill_registry_repository.py:730-791 | In every run a worker may report an item exactly when some earlier claim handed it out, with the present text of a row that had its digest, however long ago and however often it has reported before; an embedding must come from the provider and have 1,536 dimensions |
| EmbeddingProtocol.MarksAreEnabledIff | app/persistence/skill_registry_repository.py:730-791 | In every run a row may be put back to stale exactly when some earlier claim found another digest in it |
| EmbeddingProtocol.WhatAPublishDoes | app/persistence/skill_registry_repository.py:1692-1745 | Publishing a known version puts its row back to stale under the new digest and keeps the vector; a new version starts pending without one |
| EmbeddingProtocol.FinishedRowsAreRetriedOnlyWhenStale | app/persistence/skill_registry_repository.py:719-728 | Between an indexed or failed state and a later claim the row was stale at some point: failed rows are not retried by themselves |
| EmbeddingProtocol.IndexedRowsAreFresh | app/persistence/skill_registry_repository.py:693-829 | While every publish creates a new version, indexed rows embed the present text of their documents, writes by abandoned workers included |
| EmbeddingProtocol.LateWriteIsCurrentIff | app/persistence/skill_registry_repository.py:793-829 | A late write leaves its row current exactly when the worker's text is still the document's; otherwise the next backfill marks the row stale |
| EmbeddingProtocol.BackfillRestoresFreshness | app/persistence/skill_registry_repository.py:591-691 | Right after a backfill every indexed row of the model embeds the present text of its document, whatever happened before |
| Embeddings.BackfillMakesCurrent | app/persistence/skill_registry_repository.py:591-691 | After a backfill every document has a row of the model, and every row of the model carries its document's digest |
| Embeddings.BackfillIsIdempotent | app/persistence/skill_registry_repository.py:591-691 | A second backfill at the same or a later time changes nothing and finds nothing missing |
| Embeddings.WhatABackfillDoes | app/persistence/skill_registry_repository.py:591-691 | Column by column: a document without a row gets a pending one, a row with another digest goes back to stale and loses its vector, and every other row stays |
| EmbeddingIndexer.SelectionIsOldestFirst | app/persistence/skill_registry_repository.py:706-752 | A claim takes claimable rows only, as many as the limit and the queue allow, and none it leaves precedes one it takes |
| EmbeddingIndexer.SelectionInColumns | app/persistence/skill_registry_repository.py:706-728 | A claim considers exactly the pending, stale and expired rows of the model; of two of them, one taken and one left, the taken one was updated earlier or has the smaller version |
| EmbeddingIndexer.DoneInColumns | app/core/skills/embedding_indexing.py:61-98 | A finished item is indexed with the provider's vector exactly when its text is not empty and the answer has 1,536 dimensions, and failed without a vector otherwise |
| EmbeddingIndexer.BackfillLoopIsBackfilled | app/persistence/skill_registry_repository.py:611-690 | The loop over documents produces the declared rows and counts exactly the missing keys |
| EmbeddingIndexer.VisitDocuments | app/persistence/skill_registry_repository.py:611-690 | The backfill loop: rows as declared, count equal to the number of documents without a row |
| EmbeddingIndexer.BuildItems | app/persistence/skill_registry_repository.py:766-791 | The item loop of a claim: taken rows in version order, changed texts back to stale, one item for each unchanged text |
| EmbeddingIndexer.EmbeddingIndex.Backfill | app/persistence/skill_registry_repository.py:591-691 | Refuses any other dimension before writing; otherwise leaves the declared rows and returns the number inserted |
| EmbeddingIndexer.EmbeddingIndex.Claim | app/persistence/skill_registry_repository.py:693-791 | Takes the oldest claimable rows, moves them to processing or back to stale, and hands out their items in order |
| EmbeddingIndexer.EmbeddingIndex.Index | app/persistence/skill_registry_repository.py:793-826 | Whatever state the row was in, it becomes indexed with the item's digest and vector, both timestamps now and no error; every other row and the set of keys stay, so a row that has gone is not created again |
| EmbeddingIndexer.EmbeddingIndex.MarkFailed | app/persistence/skill_registry_repository.py:828-856 | The row becomes failed without vector and index time, keeps its digest, and stores the longest prefix of the error that has at most 500 characters; every other row and the set of keys stay |
| EmbeddingWorker.SemanticEmbeddingIndexer.ProcessItems | app/core/skills/embedding_indexing.py:61-98 | Every claimed item ends indexed or failed by its own attempt; no other row is touched; the counters add up and indexed counts the successes |
| EmbeddingWorker.SemanticEmbeddingIndexer.RunBatch | app/core/skills/embedding_indexing.py:45-104 | One batch: claimed = indexed + failed, exactly the selected rows of the backfilled table are brought to an end |
| EmbeddingWorker.SemanticEmbeddingIndexer.Drain | scripts/index_semantic_embeddings.py:42-56 | Whoever else holds leases: every claimed row is finished once by its own attempt and all others are untouched; unless all batches were full, every row claimable at the start is finished; without foreign leases exactly min(outstanding, batches x size) rows are finished, in the least number of productive batches that can hold them |
| EmbeddingWorker.OneBatch | app/core/skills/embedding_indexing.py:45-104 | Whoever else holds leases, a batch lowers the number of outstanding rows by what it claims, at most its size, and with room to spare leaves nothing that was claimable at the start of the drain |
| EmbeddingWorker.BatchTakesWhatItCan | app/persistence/skill_registry_repository.py:706-752 | With no lease held elsewhere, the selection is min(outstanding, batch size) of the outstanding rows |
| EmbeddingWorker.CurrentNeedsNoBackfill | app/persistence/skill_registry_repository.py:591-691 | With every row present and current, a backfill is the identity and inserts nothing |
| LikePattern.SequentialEscapeIsOnePass | app/persistence/skill_registry_repository_support.py:455-460 | Replacing backslash, percent and underscore one after the other equals one per-character escape |
| LikePattern.ContainsPatternMeansOccurs | app/persistence/skill_registry_repository_support.py:455-460 | Under LIKE with a backslash escape (ISO/IEC 9075-2, section 8.5) the pattern built for v matches s exactly when v occurs in s, for all strings |
| SearchRanking.TextClauseMeansOccurs | app/persistence/skill_registry_repository_support.py:126-143 | A row passes the text clause exactly when full text finds it or the text occurs in its slug or its name |
| SearchOrder.PageInKeys | app/persistence/skill_registry_repository_support.py:73-223 | The lexical page key by key: at most limit rows of distinct slugs, each the row of a document that meets every filter, each before the next by exact flags, then score, tags, installs, date, size, slug and version id; a wanted document is outranked by its slug's row, or by a full page |
| SearchOrder.SelectedIff | app/persistence/skill_registry_repository_support.py:124-167 | A document is selected exactly when its text is found, the tags are there or the text is its slug or name, and date, size, status, tier, namespace, channel and review filters admit it |
| GroupRanking.WinnersSortedAreFirstPerKey | app/persistence/skill_registry_repository_support.py:169-221 | For any strict order that separates the rows: rank 1 per group and then sort equals sort and then first of each group, whatever order the rows arrive in |
| GroupRanking.CutKeepsTheBest | app/persistence/skill_registry_repository_support.py:209-221 | A row of a group that missed the limit comes after every row that made it |
| GroupRanking.BestMakesTheCutIff | app/persistence/skill_registry_repository_support.py:169-221 | The best row of a group makes the cut exactly when fewer best rows than the limit precede it |
| SearchRanking.RankThenSortIsSortThenFirst | app/persistence/skill_registry_repository_support.py:169-221 | The lexical query equals: sort all filtered rows by the nine keys, keep the first of each slug, take a prefix |
| SearchRanking.PageIsBestOfEachSlug | app/persistence/skill_registry_repository_support.py:73-223 | One row per slug, each the best selected row of its slug, in order; an omitted slug means a full page of rows that precede its best row |
| SearchRanking.PageIgnoresScanOrder | app/persistence/skill_registry_repository_support.py:73-223 | The page is the same for every order in which the documents are read |
| SearchRanking.BestRowIsOnThePageIff | app/persistence/skill_registry_repository_support.py:169-221 | The best selected row of a slug is on the lexical page exactly when fewer slugs than the limit have a best row before it |
| Fusion.FuseDiscoveryCandidates | app/intelligence/discovery_signals.py:74-116 | The two loops, the dictionary and the sort compute the declared fusion: last lexical row, first semantic row, last semantic rank |
| SearchOrder.FusedPageInKeys | app/intelligence/discovery_signals.py:74-143 | The fused page key by key: each row stands for its slug, and any two rows are ordered by exact flags, then by the sum of 1/(rank + 60) over both lists and the bounded boost, then by the tie-breaking keys; a missing slug comes after a full page |
| SearchOrder.RanksDecide | app/intelligence/discovery_signals.py:119-143 | With equal exact flags and no boosts, a row of both lists comes before a row of one list exactly by the sum of its two reciprocal ranks |
| Fusion.RankLexical | app/intelligence/discovery_signals.py:83-94 | First loop: the dictionary holds the declared entry of every slug, in order of first appearance |
| Fusion.RankSemantic | app/intelligence/discovery_signals.py:95-113 | Second loop: a known slug gains only a semantic rank, an unknown one is appended |
| FusionLaws.RankingIsSortedUnion | app/intelligence/discovery_signals.py:74-143 | The ranking is the sorted list of one entry per slug of either list, distinct slugs |
| FusionLaws.FusionIgnoresDictionaryOrder | app/intelligence/discovery_signals.py:83-116 | Any list of the same entries, in any order, sorts to the same ranking: dictionary order does not matter |
| FusionLaws.FusedPageShape | app/intelligence/discovery_signals.py:74-143 | Distinct slugs, at most limit rows, exact slug matches before all others, every row from one of the lists |
| FusionLaws.NothingLostBeforeTheCut | app/intelligence/discovery_signals.py:114-116 | With room for everything, every slug of either list is on the page |
| FusionLaws.BoostsCannotReverse | app/intelligence/discovery_signals.py:119-143 | Two rows with equal exact flags whose unboosted scores differ by more than the cap keep their order under every boost |
| FusionLaws.RaisingABoostNeverDemotes | app/intelligence/discovery_signals.py:119-143 | Raising the boost of one slug alone never moves it later |
| FusionLaws.LexicalOrderIsKept | app/intelligence/discovery_signals.py:74-143 | Two rows known to the lexical list only and without boost keep their relative order for every semantic list and boost map |
| FusionLaws.FusionOfLexicalAlone | app/intelligence/discovery_signals.py:74-143 | Without semantic rows and boosts, fusion returns the lexical page unchanged, cut to the limit |
| FusionLaws.EntryIsOnTheFusedPageIff | app/intelligence/discovery_signals.py:74-143 | A row is on the fused page exactly when it is the row of its slug's entry and fewer entries than the limit come before that entry |
| SearchService.OffAndShadowReturnTheLexicalPage | app/core/skills/search.py:327-355 | In off and shadow mode without co-usage context, combining is the identity on the lexical page |
| SearchService.SignalsThatCount | app/core/skills/search.py:327-355 | Semantic rows count exactly in hybrid mode, boosts exactly when they are enabled and the caller names context skills |
| SearchService.SlugIsShownIff | app/core/skills/search.py:164-207 | In those modes a slug is shown exactly when its best selected row is visible and fewer slugs than the limit have a best row, visible or not, before it |
| SearchService.SlugIsShownInAnyModeIff | app/core/skills/search.py:164-207 | In every mode and with any boosts a slug is shown exactly when one of the two lists mentions it, fewer fused entries than the limit come before its own, and the row of its entry is visible |
| SearchService.AVisibleRowCanBeLost | app/core/skills/search.py:164-207 | A visible matching row is lost when a newer version of its slug is not visible, whatever the limit, and when invisible rows of other slugs fill the page |
| PushedFilters.PushDownKeepsShownSlugs | app/core/skills/search.py:146-207 | For callers whose review grants are backed, without semantic rows and boosts, every slug shown without the filters in SQL is also shown with them, whatever the limit cuts |
| PushedFilters.ShownSlugStaysIff | app/core/skills/search.py:146-207 | For such callers in every mode: a slug shown without the filters is still mentioned with them, and is shown exactly when fewer fused entries than the limit come before its own and the row of its entry is visible; that row can be another one only where the lexical page has gained the slug |
| PushedFilters.AShownSlugCanFallOff | app/persistence/skill_registry_repository.py:523-552 | It happens in hybrid mode: the filters hide an invisible semantic row, the next one moves up, and a visible lexical hit falls off the page |
| PushedFilters.PushDownLosesNoVisibleRow | app/core/skills/search.py:146-207 | For callers whose review grants are backed, of all matching rows the visible ones are the same, in the same order, with and without the namespace, channel and review filters in SQL |
| Normalization.ExpandLoop | app/core/skills/normalization.py:22-35 | The nested loops with `seen` produce every token and its aliases once, in order of first appearance |
| Normalization.ExpandTokensIsIdempotent | app/core/skills/normalization.py:22-35 | Expanding expanded tokens changes nothing, and no token repeats |
| QueryExpansion.AliasesAre | app/core/skills/normalization.py:7-10 | The words with an alias are doc and docs, and the alias is documentation |
| Normalization.ExpandIsIdempotent | app/core/skills/normalization.py:13-35 | On text: expanding an expanded text gives the same text, for every input including none and blank, whatever the tables of white space and letter case |
| Normalization.TokensOfJoin | app/core/skills/normalization.py:13-35 | Splitting undoes joining for tokens without white space |
| Normalization.SourceIsClosed | app/persistence/skill_registry_repository_support.py:417-426 | The words of a document's source text are closed under aliases, whatever its slug, name, description and tags |
| QueryExpansion.WordsAreOfTheFacts | app/persistence/skill_registry_repository_support.py:417-426 | The words of an indexed text are those of the slug, the name, the description and the tags, with the alias of doc and docs, and no others |
| Normalization.ExpandedQueryMatchesAsRaw | app/persistence/skill_registry_repository_support.py:417-426 | Requiring all words of the expanded query in a document source is the same as requiring all words of the query as typed |
| QueryExpansion.ExpansionLosesTheRowIff | app/persistence/skill_registry_repository_support.py:124-143 | The text clause loses a row because the query is expanded exactly when the typed words hit it, the query occurs neither in its slug nor in its name, and it lacks a lexeme of an alias of some word; it never gains one |
| QueryExpansion.ExpansionNeverLosesTheRowIff | app/persistence/skill_registry_repository_support.py:124-143 | Over all queries: the expansion never loses a row exactly when the row contains the lexemes of an alias whenever it contains those of the aliased word |
| QueryExpansion.SourceLexemesAreClosed | app/persistence/skill_registry_repository_support.py:417-426 | A document source meets that condition when the lexemes of an aliased word come from the word itself |
| QueryExpansion.ARowCanBeLost | app/persistence/skill_registry_repository_support.py:124-143 | A skill named tool and described as doc-string passes the text clause for the typed query doc and fails it for the expanded one |
| Governance.CollectAllowedChannels | app/core/governance.py:130-149 | The accumulating loop with its early return gives exactly the channels of the grants that carry the role, or no filter |
| Governance.VerdictIff | app/core/governance.py:328-385 | The verdict on one version in grants and columns, each refusal exactly when its own check is the first to fail: status, namespace, review state, channel, policy pack |
| Governance.VisibleIff | app/core/governance.py:387-409 | A list shows a version exactly when its status is readable, the grants admit namespace, review state and channel, and its policy pack admits token, namespace and publisher; or it is archived and the caller an administrator |
| Governance.DefaultVisibleIff | app/core/governance.py:541-558 | Under the default profile published and deprecated versions are shown to whom the grants, the review state and the policy pack admit, archived ones to administrators alone |
| Governance.PassesIff | app/core/governance.py:111-149 | What the filters of a caller let through, column by column, from its grants and scopes |
| Governance.DiscoveryStatusesAre | app/core/governance.py:411-431 | Under the default profile a search without statuses looks at published versions, and only an administrator may ask for archived ones |
| Governance.PushDownIsSafeIff | app/core/governance.py:331-409 | Over exact-read statuses the pushed-down filters never drop a version the list rule accepts if and only if the caller holds no review grant on a readable namespace without the review scope |
| Governance.FilterThenCheckIsCheck | app/core/skills/search.py:146-207 | For such callers filtering a whole catalogue and then checking each row equals checking every row |
| Governance.FiltersAreGrantsIff | app/core/governance.py:111-149 | The namespace filter and the channel filter together say what the read grants say, for every namespace and channel, exactly when the grants are rectangular: any namespace of one readable grant is readable on any channel of another |
| Governance.OneGrantLosesNothing | app/core/governance.py:111-149 | With at most one grant, whatever it is, the two column filters say exactly what the grants say |
| Governance.PairingIsLost | app/core/governance.py:111-149 | Two grants that are not rectangular, and a version that passes both filters and is invisible |
| Governance.ArchivedIsNeverHiddenIff | app/core/governance.py:377-383 | Where archived versions are not exact-read, the filters never hide one that the list rule shows exactly when the caller is no administrator or is filtered by neither namespace nor channel |
| Governance.ArchivedCanBeHidden | app/core/governance.py:377-383 | An administrator with one namespace grant, and an archived version it may read that the filters hide |
| Governance.DefaultGrantIsWrittenIff | app/core/settings.py:175-196 | A grant is written exactly for records with a scope that is a role, and never more than one |
| Governance.DefaultGrantsAgreeWithNoGrants | app/core/settings.py:175-196 | The grants written for a token configured without any answer all three caller queries as the fallback for empty grants does |
| VersionDefaults.SelectionFindsTheDefault | app/core/skills/version_ordering.py:33-60 | Selection returns v exactly when v is live and no live version precedes it, in any input order; nothing exactly when nothing is live |
| VersionDefaults.DefaultIsNewest | app/core/skills/version_ordering.py:25-60 | The default is published if any version is, never archived, and no version of its status is newer |
| CatalogueOrder.DefaultInKeys | app/core/skills/version_ordering.py:25-60 | The current default is the version, not archived, that is listed before all others not archived: published first, then newest, then by version text |
| CatalogueOrder.VersionListInKeys | app/core/skills/fetch.py:110-165 | The version list holds every visible version of the skill and nothing else, in that order, flagged exactly at the first that is not archived |
| CatalogueOrder.CatalogInKeys | app/persistence/skill_registry_repository.py:309-348 | The catalogue has one card a skill, most installed first, then the newest default, then by slug |
| VersionDefaults.SearchCatalog | app/core/skills/fetch.py:247-300 | The loop returns the visible defaults of the discovered slugs, cut at the limit |
| VersionDefaults.ArchivedRowsDoNotMatter | app/persistence/skill_registry_repository.py:309-348 | Dropping archived rows before choosing does not change the default of a skill |
| VersionDefaults.CatalogShowsVisibleDefaults | app/core/skills/fetch.py:191-210 | The catalogue shows a version exactly when it is the overall default of its skill and visible |
| VersionDefaults.CatalogAgreesWithVersionListAndSearch | app/core/skills/fetch.py:110-210 | If the catalogue shows slug@v, the version list flags v and only v as current default, and catalogue search can return no other version of the slug |
| VersionDefaults.ListFlags | app/core/skills/fetch.py:110-165 | The version list flags the default among the visible versions, and flags nothing else |
| VersionDefaults.CatalogOmitsIffDefaultHidden | app/core/skills/fetch.py:191-210 | A version flagged for a caller is missing from the catalogue exactly when the overall default is hidden from that caller |
| VersionDefaults.AFlaggedVersionCanBeOmitted | app/core/skills/fetch.py:110-210 | It happens: with the newest version pending review, a reader sees the older one flagged as current default and no card in the catalogue |
| Selectors.ToRelationshipRecordInputs | app/core/skills/registry.py:542-567 | The nested loops flatten the four lists into rows with an ordinal per edge type |
| Selectors.FlattenedAre | app/core/skills/registry.py:542-567 | The rows are the dependencies, then the extensions, conflicts and overlaps, each numbered from zero, and nothing else |
| Selectors.VersionChecksumRelationships | app/core/skills/registry.py:618-637 | The loop regroups rows by edge type in row order |
| Selectors.GroupAfterFlatten | app/core/skills/registry.py:542-567 | Grouping after flattening is the identity on all four lists |
| Selectors.GroupingForgetsInterleaving | app/core/skills/registry.py:618-637 | Two row lists group alike exactly when they agree type by type: how types interleave does not enter |
| Selectors.FlattenedPositionsAreUnique | app/persistence/models/skill_relationship_selector.py:32-37 | Flattening never repeats an (edge type, ordinal) position |
| Selectors.SortingRestoresPublication | app/persistence/skill_registry_repository_support.py:364-372 | Whatever order the stored rows come back in, sorting restores the published row list |
| Selectors.ResolvedDependenciesAreAuthored | app/persistence/skill_registry_repository_support.py:321-344 | Resolving returns the authored depends_on list exactly and in order, for every order of the stored rows |
| CanonicalJson.ReadPrinted | app/core/skills/registry.py:614-615 | A reader of the canonical text (sorted keys, no white space, escapes of section 7 of RFC 8259) returns the printed value and whatever follows it, for every value and every delimited continuation |
| CanonicalJson.ParseInvertsPrint | app/core/skills/registry.py:614-615 | Parsing the whole canonical text of a value gives that value |
| CanonicalJson.CanonicalTextIsInjective | app/core/skills/registry.py:614-615 | Two JSON values have the same canonical text exactly when they are equal |
| ChecksumText.SpelledOut | app/core/skills/registry.py:614-615 | How a value is spelled: items and members separated by commas without white space, members in ascending order of their keys, strings with the escapes of section 7 of RFC 8259 |
| VersionChecksum.ChecksumIdentifiesAuthoredFacts | app/core/skills/registry.py:574-615 | Two publish records have the same version checksum exactly when slug, version, content digest, metadata including presence of an assessment, trust tier, provenance and the four grouped lists are equal; nothing else enters |
| VersionChecksum.ChecksumPinsRelationships | app/core/skills/registry.py:542-637 | Between records built by publishing, equal checksums mean equal authored relationship lists |
| ChecksumText.HashedTextNames | app/core/skills/registry.py:574-637 | Reading the hashed text back gives one object with every authored fact under its name and nothing else, the four selector lists each under its own |
| VersionChecksum.DecimalIsInjective | app/core/skills/registry.py:589-606 | Different integers print differently |
| CatalogueLaws.RunsAreSound | app/persistence/skill_registry_repository.py:141-269 | Every run keeps the schema constraints, content rows that match digest and size, and one document and one selector list per version |
| CatalogueLaws.DocumentsAreCurrent | app/persistence/skill_registry_repository.py:1064-1106 | In every run each version has one search document that agrees with its version, skill, policy-pack and content rows in every column except possibly the namespace |
| CatalogueLaws.PublishAndItsDocument | app/persistence/skill_registry_repository.py:1338-1354 | A publish leaves a document that equals the projection exactly when the skill is new or lives in the requested namespace |
| CatalogueLaws.OwnershipAndDocuments | app/persistence/skill_registry_repository.py:1191-1220 | After an ownership update a document agrees exactly when its skill was moved or it agreed before |
| CatalogueLaws.GovernanceAndDocuments | app/persistence/skill_registry_repository.py:1222-1282 | A governance update keeps agreement of every document, whichever columns it changes |
| CatalogueLaws.StatusAndDocuments | app/persistence/skill_registry_repository.py:1064-1106 | A status update keeps agreement of every document |
| CatalogueLaws.RunsContinue | app/persistence/skill_registry_repository.py:141-269 | Over every run coordinates only grow; names, authored columns, checksums, selectors and content never change; install counters never fall |
| CatalogueHistory.DocumentAgreesIff | scripts/check_db_structure.py:254-277 | At any moment of any run a document equals its projection if and only if its version was not published under another namespace than its skill's, or the skill has been moved since |
| CatalogueHistory.IndexMirrorsSourcesIff | scripts/check_db_structure.py:254-277 | Documents mirror their sources at every moment of a run if and only if no accepted publish names another namespace than its existing skill's |
| CatalogueHistory.ADocumentCanBeMisfiled | app/persistence/skill_registry_repository_support.py:400-400 | A concrete run of four transactions that ends with a document contradicting its source |
| CatalogueHistory.PublishedForGood | app/persistence/skill_registry_repository.py:141-269 | At any later moment a version carries its published payload, coordinates, metadata, provenance, selectors and checksum, whichever versions share its content row |
| CatalogueHistory.ChecksumCanBeRecomputedIff | app/core/skills/registry.py:574-615 | Recomputing the checksum from the stored rows gives the stored checksum exactly when the trust tier is the one of the publication |
| CatalogueHistory.EqualPayloadsShareOneRow | app/persistence/skill_registry_repository.py:1357-1378 | Two stored versions have the same payload exactly when they share a content row |
| CatalogueHistory.InstallsAreCounted | app/persistence/skill_registry_repository.py:973-991 | A skill's install counter is the number of recorded installs of its versions |
| CatalogueAdmission.PublishEnds | app/persistence/skill_registry_repository.py:141-269 | How a publish ends, from the stored rows: its skill or namespace has to exist, then a pack it names, and its coordinate must be free; each answer exactly when its own check is the first to fail |
| CatalogueRequests.ColumnsFollowRequests | app/persistence/skill_registry_repository.py:1064-1282 | At any moment of any run the governed columns of a version are the fold of the requests: each status update sets the status, each governance update the columns it names, unless it names a policy pack nobody created |
| CatalogueRequests.DocumentFollowsRequests | app/persistence/skill_registry_repository.py:141-269 | At any moment the search document of a version is exactly the one its publish and the later status, governance and ownership requests ask for, a function of the request sequence alone |
| CatalogueRequests.NamesAreRequested | app/persistence/skill_registry_repository.py:1131-1189 | A namespace or policy pack is known exactly when an earlier request created it |
| CatalogueRequests.RulesFollowRequests | app/persistence/skill_registry_repository.py:1161-1189 | The rules of a policy pack are those of the last request for it |
| CatalogueAdmission.PublishFollowsRequests | app/persistence/skill_registry_repository.py:141-269 | In every run, how a publish ends is decided by the requests before it: namespaces and packs requested, skills and coordinates published |
| CatalogueAdmission.SkillLivesWhereRequested | app/persistence/skill_registry_repository.py:1191-1220 | In every run a skill lives in the namespace that the first accepted publish of its slug named, or the last later ownership request that names a requested namespace |
| CatalogueRequests.AChecksumCanBeOutdated | app/persistence/skill_registry_repository.py:1242-1243 | A run that publishes an untrusted version and then verifies it: recomputing gives another checksum than the stored one |
| CatalogueStore.StagePublish | app/persistence/skill_registry_repository.py:141-269 | Refusals in the order of the code (namespace of a new skill, policy pack, duplicate coordinate) stage nothing; an accepted publish stages the declared rows |
| CatalogueStore.GetOrCreateSkill | app/persistence/skill_registry_repository.py:1338-1354 | An existing skill is taken as it is; a new one needs a known namespace and takes it |
| CatalogueStore.GetOrCreateContent | app/persistence/skill_registry_repository.py:1357-1378 | Content is found by digest or inserted |
| CatalogueStore.CatalogRepository.CreateVersion | app/persistence/skill_registry_repository.py:141-269 | Leaves exactly the declared tables and verdict, and keeps the catalogue invariant |
| CatalogueStore.CatalogRepository.UpdateVersionStatus | app/persistence/skill_registry_repository.py:1064-1106 | Changes the status of one version and its document, nothing else, and keeps the invariant |
| CatalogueStore.CatalogRepository.UpdateSkillOwnership | app/persistence/skill_registry_repository.py:1191-1220 | Moves the skill and rewrites the namespace of all its documents, or changes nothing |
| CatalogueStore.CatalogRepository.UpdateVersionGovernance | app/persistence/skill_registry_repository.py:1222-1282 | Assigns the present columns, copies them to the document, and refuses an unknown policy pack without a change |
| CatalogueStore.CatalogRepository.RecordInstall | app/persistence/skill_registry_repository.py:973-991 | Adds one to the counter of the version's skill, and does nothing for an unknown version |
| CatalogueStore.CatalogRepository.CreateNamespace | app/persistence/skill_registry_repository.py:1131-1159 | Adds a namespace unless the name is taken |
| CatalogueStore.CatalogRepository.UpsertPolicyPack | app/persistence/skill_registry_repository.py:1161-1189 | Replaces the rules of a pack or adds it; the id and slug of a known pack stay |
| LifecycleProtocol.ArchivedIsAbsorbingIff | app/core/skills/registry.py:218-278 | With concurrent status calls, an archived version stays archived in every continuation if and only if no admitted call is still about to write another status |
| LifecycleProtocol.ArchivedStaysWithoutOverlap | app/core/governance.py:546-553 | Under the default profile, archived is absorbing once no call overlaps |
| LifecycleProtocol.RevivalNeedsAnOlderRead | app/core/skills/registry.py:218-278 | If a version is archived and later is not, some call had read it before, when it was not archived, and had still to write |
| LifecycleProtocol.ArchivedCanBeLeft | app/core/skills/registry.py:218-278 | A concrete interleaving of two calls that takes a version from archived to deprecated under the default profile |
| LifecycleProtocol.AdmittedIff | app/core/governance.py:546-553 | Under the default profile a status call is admitted exactly for moves between published and deprecated and from these to archived |
| LifecycleProtocol.MayWriteIff | app/core/skills/registry.py:218-278 | In every run a call may write, or end without writing, exactly when it was admitted and has not ended since, whatever others do in between |
| Stars.StarStore.ApplyUserStarEvents | app/persistence/skill_registry_repository.py:1003-1062 | Unknown slugs refuse the whole batch and are listed once each; otherwise the table is that after the events in order, with the count after each |
| Stars.UniqueSlugs | app/persistence/skill_registry_repository.py:1025-1034 | Each missing slug once, in order of first mention |
| Stars.RefusedSlugsAre | app/persistence/skill_registry_repository.py:1025-1034 | A refusal lists the slugs that are mentioned and not known, each once, in order of first mention |
| Stars.LastWriterWins | app/persistence/skill_registry_repository.py:1037-1062 | After a batch a user stars a skill exactly as the last event of its slug says; other users and unmentioned skills are untouched |
| Stars.BatchIsIdempotent | app/persistence/skill_registry_repository.py:1037-1062 | Sending the same batch again changes nothing |
| Stars.ReportedCountIsUsersAfter | app/persistence/models/skill.py:52-57 | The i-th reported count is the number of distinct users starring that slug after the first i events |
| Stars.LocksStayExclusive | app/persistence/skill_registry_repository.py:1013-1023 | In every run of locking transactions no row is held twice and locks are taken in id order |
| Stars.LockedRowsAreApart | app/persistence/skill_registry_repository.py:1013-1023 | In no run do two open transactions hold the same row, whichever of their locks it is |
| Stars.EveryBatchMayBegin | app/persistence/skill_registry_repository.py:1013-1023 | Whatever rows a batch is about, it can start to lock just these in id order, at any time |
| Stars.AcquireIsEnabledIff | app/persistence/skill_registry_repository.py:1013-1023 | A transaction gets its next row exactly when no open transaction has locked that row already |
| Stars.SomeoneCanMove | app/persistence/skill_registry_repository.py:1013-1023 | In every state with open transactions, one of them can take its next lock or commit |
| Stars.BatchesNeverDeadlock | app/persistence/skill_registry_repository.py:1013-1023 | Any number of concurrent batches, locking rows in increasing id order to the commit, never deadlock |
| Migration0013.ClearPreflightSuffices | alembic/versions/0013_db_structure_cleanup.py:498-692 | When every preflight query is empty, the upgraded tables meet every constraint the canonical schema adds |
| MigrationQueries.QueriesFind | alembic/versions/0013_db_structure_cleanup.py:498-692 | Each of the eleven preflight queries that the model can violate returns a row exactly when there is one of the kind it looks for, said in the columns it names |
| MigrationQueries.ScoresInBand | alembic/versions/0013_db_structure_cleanup.py:517-540 | Scores from zero to one, exponents included, are in the band; larger and negative ones are not |
| Migration0013.MetadataRowsAreABijection | alembic/versions/0013_db_structure_cleanup.py:408-443 | After a downgrade metadata rows are numbered 1 to n and belong to exactly one version each, in id order |
| Migration0013.EveryNumberIsUsed | alembic/versions/0013_db_structure_cleanup.py:408-443 | ROW_NUMBER over distinct ids leaves no gap |
| Migration0013.VersionsRoundTrip | alembic/versions/0013_db_structure_cleanup.py:38-71 | Joining the numbered versions with the inserted metadata rows gives back the version rows |
| Migration0013.JoinedViewSurvives | alembic/versions/0013_db_structure_cleanup.py:38-71 | Upgrading and downgrading again keeps every version's joined metadata view |
| Migration0013.UpgradeUndoesDowngradeIff | alembic/versions/0013_db_structure_cleanup.py:144-153 | Upgrade after downgrade is the identity on the canonical tables, edge evidence included, if and only if no co-usage evidence carries a retired key |
| Migration0013.EdgesRoundTripIff | alembic/versions/0013_db_structure_cleanup.py:267-322 | Adding the retired keys and stripping them is the identity on the edges exactly when none carried one before |
| Migration0013.SyncedEdgesRoundTrip | app/persistence/skill_registry_repository.py:1655-1667 | Evidence written by the co-usage sync or left by an upgrade never carries a retired key, so a canonical state with no other co-usage evidence survives downgrade and upgrade unchanged |
| Migration0013.ARetiredKeyIsLost | alembic/versions/0013_db_structure_cleanup.py:144-153 | A state the canonical schema admits, with a retired key in the evidence of one edge, that the round trip changes |
| EdgeHistory.EvidenceIsExplained | app/persistence/skill_registry_repository.py:1611-1689 | At any moment after an upgrade, over any imports and other transactions, each co-usage row is active as in the ledger, and its evidence is what the sync wrote for the ledger's edge or still what the upgrade left |
| EdgeHistory.ActivatedRowTells | app/persistence/skill_registry_repository.py:1629-1689 | A stored row that an accepted import makes active tells, key by key, the figures its pair has in the log by then; its confidence is the larger of the two rates |
| EdgeHistory.EdgesOfEveryRunRoundTrip | alembic/versions/0013_db_structure_cleanup.py:144-153 | The canonical tables at any such moment survive a downgrade and another upgrade unchanged |
| Migration0013.UpgradeIsPossibleAgainIff | alembic/versions/0013_db_structure_cleanup.py:498-692 | After a downgrade the preflight is clear exactly when documents mirror their sources and no selector is blank; every other query is empty by the canonical constraints |
| Migration0013.MisfiledDocumentsBlockTheUpgradeIff | alembic/versions/0013_db_structure_cleanup.py:559-593 | For tables produced by any run of transactions, the stale-document query blocks exactly when some version was published under another namespace and its skill has not been moved since |
| Migration0013.AssertUpgradePreconditions | alembic/versions/0013_db_structure_cleanup.py:498-692 | The queries run in order; the first that returns a row names the block, and no block means all are empty |
| Migration0013.Database.Upgrade | alembic/versions/0013_db_structure_cleanup.py:17-197 | A blocked upgrade changes nothing; any other lands in the declared canonical tables, which meet their constraints |
| Migration0013.Database.Downgrade | alembic/versions/0013_db_structure_cleanup.py:200-496 | Foreign keys hold; metadata rows are numbered 1 to n in version order, each joined by one version, which shows its metadata; counters and copies are those of the present rows; the next preflight is clear exactly when documents mirror and no selector is blank, and the next upgrade restores the tables exactly when no evidence carries a retired key |
| Migration0013.WhatADowngradeGives | alembic/versions/0013_db_structure_cleanup.py:200-496 | The same of the declared legacy tables, for every canonical state |
| Migration0013.DowngradedEdge | alembic/versions/0013_db_structure_cleanup.py:255-322 | A downgrade writes the larger run count and the larger rounded logarithm of the lift of the stored pair into the evidence of each co-usage edge, or what the evidence records where no pair is stored, and changes nothing else of any edge |
| Migration0013.DowngradedScores | alembic/versions/0013_db_structure_cleanup.py:253-267 | The derived columns of pairs are their run count and the logarithm of a positive lift; every embedding has 1,536 dimensions |
| Migration0013.UpgradedEdge | alembic/versions/0013_db_structure_cleanup.py:144-153 | An upgrade drops the two metrics from the evidence of co-usage edges and changes nothing else of any edge |

## Left out

- FastAPI routes, DTOs, middleware, logging, metrics, telemetry, token authentication and engine lifecycle: input and output.
- Audit events: written beside every transaction, read by nothing modelled here.
- Embedding providers: a function from text to an optional vector. Network errors are the absent answer, and the stored error text is a fixed one.
- A failing index write inside the worker loop: the loop also marks such an item failed; here the write itself does not fail.
- `ts_rank_cd`, `plainto_tsquery`, HNSW search and the semantic query: their scores and matches are given per row. In `QueryExpansion` the lexemes of a word are a parameter, taken word by word: markup that the text-search parser reads across white space is not covered.
- Text collation: ordering by slug is by code point.
- IEEE floating point in ranking and boosts: exact reals. Scores inside the checksum are the tokens they print as.
- PostgreSQL numeric division: the quotient is exact before ROUND(..., 6); the database first rounds it to at least sixteen significant digits.
- The SHA-256 function and the form of the digests it gives: only injectivity is used. For imported source digests the 64 hexadecimal characters are part of `CoUsage.PassesTheApi`.
- Tables of white space and letter case in normalization: a parameter that has to keep what `str.split` and `str.lower` promise; ASCII alone is shown to be one.
- SKIP LOCKED in a claim: the protocol lets a claim take any set of claimable rows, so it covers every set the lock leaves; the class takes the oldest ones, as without contention.
- A worker's claim reads the queue and the documents at one instant in the class; the protocol has the stale marks of a claim as separate later events.
- Organizations, trust evidence, authored graph edges and the graph listing, top-installed listing, exact reads and content download endpoints: no derived structure depends on them, apart from the payload, which `CatalogueHistory.PublishedForGood` covers.
- Publish intent, publish scopes and the normalization of governance input: the catalogue takes the record that the service hands to the repository.
- The reply of a status update (`is_current_default`) and of a governance update: the stored rows are stated, not the echoed columns.
- Normalized slug, name and tag columns and the text-search vector of a search document: pure functions of the columns compared here, never updated after the insert.
- The media type of content: uploads admit a single one (app/interface/validation/skill_bundle.py:49-50).
- `updated_at`, `created_at` and `lifecycle_changed_at` of catalogue rows.
- Bundle archives (tar and zstd), demo data, service-token scripts, benchmarks and all migrations other than 0013: no state that the modelled structures depend on.
- Migration 0013: indexes, constraint names, timeouts and sequences are not state of the model. Install counts and sizes are natural numbers in it, so the two preflight queries about negative values have no counterpart. `ROUND(LN(lift), 6)` and the casts of recorded evidence are parameters, and evidence numbers are kept in millionths.
- Policy-pack rules other than restriction, allowed tokens, allowed namespaces and verified publisher: only these four enter the visibility rule.
- Governance.FilterThenCheckIsCheck: restricted to catalogues of exact-read statuses, because for archived versions it holds only where `Governance.ArchivedIsNeverHiddenIff` says.
- Stars.BatchesNeverDeadlock: row locks on skills only; locks that PostgreSQL takes on inserted star rows follow from holding the skill row.
- The approximation of the HNSW index and its session setting: in `PushedFilters` the semantic query takes the first rows in exact order of distance.
