# Verified model of a retrieval knowledge base

A Dafny model of the parts of the system where a property spans many calls or every run: the
bounded relationship traversal and the corpus filters, the embedding planner and worker, the
versioned catalogue with its ingestion pipeline, the ranking pipeline from fusion to evidence, and
the text transforms of the extractors and the chunker. `dafny verify dfyconfig.toml` checks all of it.

How it is laid out:

- `Ordering`: string order, stable sorting, counting, folds. `Delimiters`: joining and splitting text.
- `LikePattern`, `SegmentRuns`, `VisitedText`, `Traversal`: the recursive query, row by row, against the
  set of simple bounded paths. Rows are the values the SQL derives; SQL LIKE is modelled with its
  wildcards and its escape character, so what the visited test means is stated, not assumed.
  `TraversalChains` says the result on the relationships themselves, `TraversalCompleteness` over which
  entities none is missed.
- `CorpusFilters`, `FilterClauses`: narrowing and active-index resolution as functions with exact
  acceptance, and the dictionary and the clause list the service grows step by step. `ChunkScopes` says the
  scopes field by field. `IndexScopes` sets the planner's reading of an index row beside retrieval's.
- `EmbeddingTables`, `EmbeddingRuns`, `EmbeddingPlanning`: one planner call and one worker pass as
  functions on the tables, and invariants over every interleaving. `PlanCounts` and `EmbeddingContents` read
  the rows and counts left by each off the columns. `EmbeddingSchedules`,
  `EmbeddingOverruns`, `EmbeddingConvergence`: passes and waits in any order after a plan, schedules built
  on purpose, and exactly when all of them end right; `EmbeddingMishap` is a run from nothing that does not, and
  `EmbeddingEndings` says what is left when one does not, and what any provider can leave.
  `EmbeddingSession` is the class that updates the tables in place, each method proved against them.
- `CatalogueTables`, `CatalogueRuns`, `CatalogueHistory`, `Incremental`: one run on the catalogue, the
  invariants, and what a history of runs adds up to. `IngestionPipeline` is the session with commits,
  rollback and run records, `IngestionRecords` what those say; `ChunkCatalogue` the same kind of machine for chunks.
- `Candidates`, `RelationshipPaths`, `Fusion`, `FusionLaws`, `Reranking`, `Evidence`, `EvidenceLaws`,
  `TruncationCount`, `Retrieval`: the path checks, the ranking steps, and the whole way from candidate
  lists to a bundle. `FusionEntries`, `FusionTies`, `RerankContents`, `BundleContents` and
  `RetrievalContents` say what comes out in terms of the lists, records and answers that went in.
- `JsonPointer`, `StructuredLocators`, `BlankText`, `Splitter`, `Headings`, `Paragraphs`,
  `ExtractorFallback`: the transforms.

What the code does that its names or comments do not say:

- The visited test renders as LIKE without escaping. A wildcard or a backslash in a type or id makes it
  inexact (`VisitedTestExactness` says exactly when among delimited entities), and a vertical bar, or a colon
  in the type, of the target or of a visited entity can make an unvisited entity look visited
  (`VisitedTestDecides` says exactly when). A path the test holds up is missing from the result
  (`CompleteOverIff` says over which entities that can happen).
- An empty trusted policy list lets a request choose freely, although narrowing is described as never
  expanding (`src/idp_brain/retrieval/corpus_filters.py:60-61`).
- To the embedding planner an empty source list of an index is no source
  (`src/idp_brain/embeddings/jobs.py:352`); to retrieval it is every source
  (`src/idp_brain/retrieval/corpus_filters.py:120-122`). What retrieval then searches is left unembedded
  (`IndexScopes`).
- The planner inserts a job without looking for a finished one of the same key. The collision is
  characterised exactly and, once there, lasts until the chunk changes.
- Cancelling a job whose hash is stale switches off every active vector of its chunk, model and index,
  also a correct one. All schedules that empty the queue therefore end right if and only if every such job
  is older than an open job that fits and due no later; one provider error and one edit suffice to lose a
  correct vector for good (`EmbeddingMishap`).
- An edge depth of `1.0` or `True` passes the service's comparison and fails the strict evidence contract.
- A new version label gets an id made from a content hash; a label whose id is taken makes the run fail.
- A chunk upsert without a source version clears the pointer but leaves the membership current.
- The evidence budget is charged for text whose candidate is then dropped for its path, and the
  truncation count includes candidates dropped because nothing was left (`TruncatedAreTheCutIff`).
- A fence without an info string makes Markdown extraction fail
  (`src/idp_brain/ingestion/extractors/markdown.py:71`).
- A chunk overlap of zero in a profile means the default of 120, and a blank window gives an empty part.

## Model

| member | source | states |
|---|---|---|
| LikePattern.LiteralContainsIsSubstring | src/idp_brain/retrieval/corpus_filters.py:533-539 | For a value without `%`, `_` or `\`, the rendered LIKE is exactly the substring test. |
| LikePattern.OccurrenceMatches | src/idp_brain/retrieval/corpus_filters.py:533-539 | A value without `\` always matches text it occurs in, wildcards or not. |
| VisitedText.VisitedAlwaysSkipped | src/idp_brain/retrieval/corpus_filters.py:504-510 | A visited entity without `\` in its type and id is always found again, so cycles are cut even with wildcards. |
| VisitedText.VisitedTestDecides | src/idp_brain/retrieval/corpus_filters.py:504-539 | On any visited list, whatever bars and colons its entities hold, the test passes an entity without `%`, `_` and `\` if and only if its parts between bars stand in a row among the parts of the list. |
| VisitedText.VisitedTestExact | src/idp_brain/retrieval/corpus_filters.py:504-539 | Where every visited entity is free of vertical bars (and of `:` in the type), for a target that is too and is literal, the text test is membership in the visited list. |
| VisitedText.VisitedTestExactness | src/idp_brain/retrieval/corpus_filters.py:533-539 | For a delimited entity the text test is membership on every list of delimited entities if and only if the entity holds no `%`, `_` or `\`. |
| VisitedText.VisitedFoundAgainIff | src/idp_brain/retrieval/corpus_filters.py:504-539 | A visited entity without wildcards is found again, and so its cycle cut, on every list it is on, if and only if it holds no `\`. |
| VisitedText.LiteralTestExactness | src/idp_brain/retrieval/corpus_filters.py:533-539 | For an entity without `%`, `_` and `\` the test is membership on every list of delimited entities if and only if the entity is delimited or some part of its token between bars holds no colon. |
| VisitedText.EveryEntityMisread | src/idp_brain/retrieval/corpus_filters.py:533-539 | On lists of any entities the test is membership for no entity: each is taken for visited on some list without it. |
| VisitedText.BarInIdentifierMisread | src/idp_brain/retrieval/corpus_filters.py:533-539 | A concrete id holding a vertical bar that the test takes for visited though it is not. |
| VisitedText.VisitedBarMisread | src/idp_brain/retrieval/corpus_filters.py:533-539 | A bar in a visited id hides a delimited entity that was not visited. |
| VisitedText.VisitedColonMisread | src/idp_brain/retrieval/corpus_filters.py:533-539 | A colon in a visited type does the same. |
| VisitedText.BareSegmentMisread | src/idp_brain/retrieval/corpus_filters.py:533-539 | A part without a colon does not protect an entity from visited ones that hold bars. |
| Traversal.OrientedEdges | src/idp_brain/retrieval/corpus_filters.py:436-467 | The edge relation: typed relationships, forwards, backwards or both, and nothing else. |
| Traversal.RowNumberInjective | src/idp_brain/retrieval/corpus_filters.py:468-476 | `row_number` numbers the edges of one source entity without repetition, in window order. |
| Traversal.FanoutBound | src/idp_brain/retrieval/corpus_filters.py:477-481 | At most `max_fanout_per_seed` edges leave an entity, and a kept edge's predecessors in window order are kept. |
| Traversal.FixpointAtMaxDepth | src/idp_brain/retrieval/corpus_filters.py:531-548 | On every edge relation, cyclic or not, no round after `max_depth` derives a row: the recursion ends. |
| Traversal.PrefixAdmissible | src/idp_brain/retrieval/corpus_filters.py:517-545 | Ordinals grow strictly along a path, so a prefix of an admissible path is admissible. |
| Traversal.DerivedRowsAreSound | src/idp_brain/retrieval/corpus_filters.py:503-548 | Every derived row is the row of a simple, contiguous, fanout-bounded path from a seed within the depth and candidate bounds. |
| Traversal.AdmissiblePathsAreDerived | src/idp_brain/retrieval/corpus_filters.py:503-548 | Such a path is derived, at the level of its length, if and only if the visited test holds up none of its steps. |
| Traversal.OrdinalInjective | src/idp_brain/retrieval/corpus_filters.py:518-522 | `n + parent*F + rank` gives two different admissible paths two different numbers. |
| Traversal.DerivedNumbered | src/idp_brain/retrieval/corpus_filters.py:518-548 | No ordinal occurs twice among all rows of a traversal, seeds included. |
| Traversal.CandidateBound | src/idp_brain/retrieval/corpus_filters.py:540-562 | At most max(0, cap - n) rows are reached from n seeds, so the final LIMIT never drops one. |
| Traversal.TraversalEnumeratesPaths | src/idp_brain/retrieval/corpus_filters.py:424-563 | On the oriented edges the query lists exactly the simple bounded paths the visited test leaves open, each once; with literal, delimited identifiers those are all. |
| TraversalChains.TraversalListsChains | src/idp_brain/retrieval/corpus_filters.py:424-563 | With an enabled profile, seeds and end points without `\`, the hits are the ends of exactly those chains from a seed whose every step is a relationship of a configured type, taken forwards only unless the direction is inbound and backwards only unless it is outbound, among the first `max_fanout_per_seed` from its entity, within depth and cap, through no entity twice, and that the visited test leaves alone; each once, by depth, relationship and id. |
| TraversalChains.TraversalRefuses | src/idp_brain/retrieval/corpus_filters.py:424-434 | A disabled profile or no seed gives an empty result; an enabled one with seeds fails if and only if it does not skip seen entities. |
| TraversalChains.FewLeave | src/idp_brain/retrieval/corpus_filters.py:468-481 | At most `max_fanout_per_seed` of the steps taken leave one entity. |
| TraversalCompleteness.CompleteOverIff | src/idp_brain/retrieval/corpus_filters.py:424-563 | Every query over a set of entities without `\` reports every chain within its bounds if and only if no repetition-free list of some of them passes the visited test for another. |
| TraversalCompleteness.LiteralCompleteOverIff | src/idp_brain/retrieval/corpus_filters.py:504-539 | Without wildcards: if and only if in no such list the parts of another entity stand in a row. |
| TraversalCompleteness.DelimitedUnambiguous | src/idp_brain/retrieval/corpus_filters.py:504-539 | Literal entities without bars, and without `:` in the type, are such a set. |
| TraversalCompleteness.PathMissed | src/idp_brain/retrieval/corpus_filters.py:504-539 | From an entity whose id ends in a bar and the text of another, the one relationship to that other is within the bounds and the query reports nothing. |
| CorpusFilters.Common | src/idp_brain/retrieval/corpus_filters.py:62 | The values both lists hold. |
| CorpusFilters.NarrowedSourcesExact | src/idp_brain/retrieval/corpus_filters.py:55-87 | A narrowed open list accepts exactly what both sides accept, plus the sentinel when they share nothing. |
| CorpusFilters.NarrowedPolicyExact | src/idp_brain/retrieval/corpus_filters.py:55-87 | The same for a closed policy list whose trusted side is not empty. |
| CorpusFilters.RequestsOnlyNarrowIff | src/idp_brain/retrieval/corpus_filters.py:58-61 | No request widens a policy list if and only if the trusted list is not empty. |
| CorpusFilters.NarrowIdempotent | src/idp_brain/retrieval/corpus_filters.py:65-87 | Narrowing twice by the same scope is narrowing once, on every filter set. |
| CorpusFilters.ResolvedSourcesExact | src/idp_brain/retrieval/corpus_filters.py:90-127 | Resolution accepts a source exactly when the filters and the active index do. |
| CorpusFilters.OwnProfileOpens | src/idp_brain/retrieval/corpus_filters.py:98-127 | An index meets a demand when it is active, of the kind asked for or a hybrid, and records the profile asked for under that very kind (vector, bm25 or exact); any other closes the scope, and nothing but the sources is changed. |
| CorpusFilters.MissingIndexCloses | src/idp_brain/retrieval/corpus_filters.py:98-118 | A named index that is not there, or none where one is required, closes the scope. |
| CorpusFilters.ResolveIdempotent | src/idp_brain/retrieval/corpus_filters.py:90-127 | Resolving twice is resolving once. |
| CorpusFilters.SourcesAcceptedByAllThree | src/idp_brain/retrieval/corpus_filters.py:65-127 | Narrow and resolve, in either order, accept exactly the sources trusted scope, request and index all accept. |
| CorpusFilters.RetrievalSourcesExact | src/idp_brain/retrieval/corpus_filters.py:90-136 | A retriever's demand on the index survives the later narrow and re-resolve: a closed scope stays closed. |
| CorpusFilters.ChunkAdmittedExact | src/idp_brain/retrieval/corpus_filters.py:130-194 | A chunk is in scope exactly when it is presentable, in range, and it and a citation of it are accepted by every authority. |
| CorpusFilters.ScopesCoverEachOther | src/idp_brain/retrieval/corpus_filters.py:197-245 | Every chunk in the chunk scope has a citation in the separately built citation scope, and every citation there a chunk. |
| ChunkScopes.ChunkInScopeIff | src/idp_brain/retrieval/corpus_filters.py:130-194 | The chunks in scope, field by field: stored with text, version and current membership; on each of the six policy dimensions trusted and, if the request names any, requested; of a source and type nobody excludes and the index has; within label and time ranges; with a citation that passes the same policy. |
| ChunkScopes.CitationInScopeIff | src/idp_brain/retrieval/corpus_filters.py:197-245 | The citations in scope are the allowlisted ones that pass the policy on every dimension and are of the id, source and version of a chunk in scope. |
| IndexScopes.ReadingsAgreeIff | src/idp_brain/embeddings/jobs.py:338-352 | The planner and retrieval accept the same sources of an index if and only if its source list is absent or not empty. |
| IndexScopes.EmptyListEmbedsNothing | src/idp_brain/retrieval/corpus_filters.py:120-122 | With an empty source list retrieval takes every source, while a plan inserts no job and leaves no vector of the index active. |
| FilterClauses.NarrowFilters | src/idp_brain/retrieval/corpus_filters.py:65-87 | The two passes over the dictionary of updates give the narrowed filters the lemmas speak of. |
| FilterClauses.ChunkFilterClauses | src/idp_brain/retrieval/corpus_filters.py:130-194 | The clauses appended one by one admit, together, exactly the chunks in scope. |
| EmbeddingSession.Session.DeactivateStaleVectors | src/idp_brain/embeddings/storage.py:94-131 | Switches off exactly the triple's active vectors except the hash to keep, counts them, and removes no row. |
| EmbeddingSession.Session.UpsertVector | src/idp_brain/embeddings/storage.py:36-92 | The vector becomes the only active one of its chunk, model and index; no row is removed. |
| EmbeddingSession.Session.DeactivateUnembeddable | src/idp_brain/embeddings/jobs.py:302-335 | The chunk-by-chunk sweep switches off exactly the active vectors whose chunk is gone, out of scope or not embeddable, and counts them. |
| EmbeddingSession.Session.SelectPlannable | src/idp_brain/embeddings/jobs.py:64-77 | Lists each chunk once for each of its current memberships, in id order. |
| EmbeddingSession.Session.FlushJobs | src/idp_brain/embeddings/jobs.py:143 | A flush inserts the pending jobs or stops at the first duplicate of the unique key. |
| EmbeddingSession.Session.PlanChunk | src/idp_brain/embeddings/jobs.py:89-142 | One round of the loop: skip and deactivate, leave alone, reset a failed job, or queue an insert. |
| EmbeddingSession.Session.CreateJobs | src/idp_brain/embeddings/jobs.py:55-148 | A whole planner call is the planning function on the tables, on an error the tables are as before; created counts the keys newly open, skipped the places read that may not be embedded, deactivated the vectors switched off. |
| PlanCounts.SummaryTells | src/idp_brain/embeddings/jobs.py:79-148 | The three counts of the answer, on the tables before and after: keys with an open job now and none or a failed one before, places read whose chunk may not be embedded, keys active before and not after. |
| PlanCounts.RowsTell | src/idp_brain/embeddings/jobs.py:100-143 | Every column of every job row after a plan: a new pending row exactly for a chunk read that may be embedded and has neither active vector nor job, a failed one reset, all others as they were. |
| PlanCounts.VectorsPlanned | src/idp_brain/embeddings/jobs.py:79-99 | Every vector row after a plan: of the model's vectors in the index those stay on whose chunk is in scope and may be embedded. |
| PlanCounts.PlanFailsIff | src/idp_brain/embeddings/jobs.py:89-143 | The call fails if and only if a chunk read that may be embedded has no active vector at its hash and a succeeded or cancelled job there, and names such a one. |
| PlanCounts.ListingTells | src/idp_brain/embeddings/jobs.py:64-77 | Chunks with a version and a source the index takes are listed in id order, once for each current membership; the first of them are read, as many as the limit allows. |
| EmbeddingSession.Session.ClaimJobs | src/idp_brain/embeddings/jobs.py:160-175 | Claims due jobs in queue order, up to the batch size, and leaves none that is older than a claimed one. |
| EmbeddingSession.Session.CancelJob | src/idp_brain/embeddings/jobs.py:470-476 | Cancels the job and clears its retry time, touching nothing else. |
| EmbeddingSession.Session.RecordJobError | src/idp_brain/embeddings/jobs.py:452-467 | Fails the job at the attempt limit and otherwise schedules a retry; a retry time is set exactly for `retrying`. |
| EmbeddingSession.Session.WorkJob | src/idp_brain/embeddings/jobs.py:178-249 | The loop body for one claimed job is the job step on the tables, with its counters. |
| EmbeddingSession.Session.RunOnce | src/idp_brain/embeddings/jobs.py:151-251 | A worker pass is the fold of the job step over a legal claim. |
| EmbeddingContents.ClaimTells | src/idp_brain/embeddings/jobs.py:160-175 | A pass takes up the oldest pending or retrying jobs whose time has come, chunk ids settling ties, as many as the batch allows. |
| EmbeddingContents.JobMeans | src/idp_brain/embeddings/jobs.py:178-249 | Every column of a job after its step: cancelled if its chunk, hash or model is gone, succeeded if the answer has the model's size, and otherwise failed at the attempt limit or retrying thirty seconds later. |
| EmbeddingContents.VectorMeans | src/idp_brain/embeddings/jobs.py:178-249 | Every column of every vector row after a job's step. |
| EmbeddingContents.RunsKeepVectorsFit | src/idp_brain/embeddings/storage.py:36-92 | Over every run from tables where it holds, as from empty ones, each stored vector is of a known model, for its key's hash, as long as it says and as the model asks, and in the model's metric. |
| EmbeddingContents.MisfitStoresNothing | src/idp_brain/embeddings/jobs.py:213-220 | A pass whose answer for a job is an error or of another size leaves the job's vector row unwritten and the job not succeeded. |
| EmbeddingContents.TallyMeans | src/idp_brain/embeddings/jobs.py:178-249 | A step adds one to the counter of the job's new status, and for a cancelled job the vectors it switched off. |
| EmbeddingContents.DeactivatedAccounts | src/idp_brain/embeddings/jobs.py:178-249 | The deactivated count of a pass is the number of vectors its cancelled jobs switched off. |
| EmbeddingRuns.RunJobKeeps | src/idp_brain/embeddings/jobs.py:178-249 | One job changes one job row and no other, keeps one active vector a triple, and uses up attempts. |
| EmbeddingRuns.RunsKeepInvariants | src/idp_brain/embeddings/storage.py:36-131 | After any interleaving of plans, passes, chunk edits and clock ticks: at most one active vector a triple, unique keys agree, no vector or job row removed, job statuses well formed, finished jobs never reopened. |
| EmbeddingRuns.PassAccounts | src/idp_brain/embeddings/jobs.py:160-251 | Claimed = succeeded + failed + retrying + cancelled, each counter equal to the rows with that status, and the sum of attempts left falls by at least the number claimed. |
| EmbeddingRuns.RunsKeepVectorJobs | src/idp_brain/embeddings/jobs.py:178-249 | Over every run from tables where it holds, as from empty ones, each vector keeps the succeeded job that wrote it. |
| EmbeddingPlanning.SweepLeavesNothing | src/idp_brain/embeddings/jobs.py:79-99 | After the opening sweep the loop has nothing left to deactivate for a chunk that is not embeddable. |
| EmbeddingPlanning.PlanCollidesIff | src/idp_brain/embeddings/jobs.py:89-143 | A plan fails if and only if a chunk it reads is eligible, lacks its current vector and has a succeeded or cancelled job at its current hash. |
| EmbeddingPlanning.ListingDistinct | src/idp_brain/embeddings/jobs.py:65-77 | With one current membership a chunk the planner reads each chunk once. |
| EmbeddingPlanning.ChunkReadTwiceCollides | src/idp_brain/embeddings/jobs.py:125-143 | Any listing in id order that repeats a chunk due for an insert makes the plan collide with itself. |
| EmbeddingPlanning.UnlimitedPlanCovers | src/idp_brain/embeddings/jobs.py:79-148 | After an unlimited plan every active vector of the index belongs to an eligible chunk in scope, and every such chunk has its current vector or an open current job; when it fails is exact. |
| EmbeddingPlanning.ClashPersists | src/idp_brain/embeddings/jobs.py:100-143 | A collision once there stays through any planning, working and waiting; only an edit of the chunk resolves it. |
| EmbeddingSchedules.RunJobSettles | src/idp_brain/embeddings/jobs.py:184-249 | A job worked by an answering provider leaves its hash active if it is still the chunk's, and nothing active otherwise; other triples keep what they have. |
| EmbeddingSchedules.ScheduleKeeps | src/idp_brain/embeddings/jobs.py:151-251 | Whatever every job that can be taken next keeps, and waiting keeps, holds after every schedule of passes and waits. |
| EmbeddingOverruns.EnoughPassesDrain | src/idp_brain/embeddings/jobs.py:151-251 | Passes, of any sizes and with any waits between, empty the queue once those after the last retry time have room for it. |
| EmbeddingOverruns.Overrun | src/idp_brain/embeddings/jobs.py:160-208 | For an open job that no rival of its triple is bound to follow, some schedule empties the queue and ends as that job settles. |
| EmbeddingConvergence.EveryScheduleConverges | src/idp_brain/embeddings/jobs.py:151-251 | If a right job has the last word for every chunk, every schedule that empties the queue leaves exactly the wanted vectors active. |
| EmbeddingConvergence.UncorrectedBreaks | src/idp_brain/embeddings/jobs.py:160-208 | A wrong open job that no right one is bound to follow has the last word in some schedule that empties the queue. |
| EmbeddingConvergence.ConvergesIff | src/idp_brain/embeddings/jobs.py:55-251 | After an unlimited plan every schedule that empties the queue leaves exactly the eligible chunks in scope active, one vector each at the current hash, if and only if each open stale job of such a chunk is older than, and due no later than, an open current one, and each open current job of an eligible chunk out of scope likewise precedes a stale one. |
| EmbeddingConvergence.OnlyWrongOnesNeverConverge | src/idp_brain/embeddings/jobs.py:200-208 | Where only wrong jobs are open for a chunk, no schedule that empties the queue ends right. |
| EmbeddingConvergence.StaleBesideCurrentVector | src/idp_brain/embeddings/jobs.py:200-208 | In particular a stale open job beside an already active current vector spoils every schedule. |
| EmbeddingConvergence.CurrentQueueConverges | src/idp_brain/embeddings/jobs.py:55-251 | When every open job of an eligible chunk is current and in scope and no finished job lacks its vector, the plan succeeds and every schedule long enough empties the queue and ends right, jobs waiting for their retry included. |
| EmbeddingEndings.UnwantedIsClash | src/idp_brain/embeddings/jobs.py:79-251 | Wherever a schedule that empties the queue leaves an eligible chunk in scope not as wanted, it leaves a collision there. |
| EmbeddingEndings.UnwantedStopsPlanning | src/idp_brain/embeddings/jobs.py:89-143 | So the next unlimited plan fails. |
| EmbeddingEndings.CurrentQueueExplained | src/idp_brain/embeddings/jobs.py:55-251 | From a current queue, whatever the provider does, once the queue is empty every chunk is as wanted or has a failed current job. |
| EmbeddingMishap.CorrectVectorLost | src/idp_brain/embeddings/jobs.py:200-208 | From tables without vectors and jobs, one provider error and one edit lead a run to where the correct vector is off, no job is open, and the next plan fails. |
| CatalogueRuns.UpsertVersionSwitches | src/idp_brain/repositories/source_versions.py:56-107 | The version upsert makes the resolved version the source's only current one and touches no other source; it fails exactly for a new label whose computed id is taken. |
| CatalogueTables.UpsertAllKeyByKey | src/idp_brain/ingestion/pipeline.py:167-176 | The upsert loop, with its repeated clearing of flags, comes to one direct rewrite of each row, the last candidate of a path winning. |
| CatalogueRuns.RunKeyByKey | src/idp_brain/ingestion/pipeline.py:157-188 | Every row of the three tables after a run, said outright from the rows before. |
| CatalogueRuns.RowsHoldSnapshot | src/idp_brain/repositories/artifacts.py:22-148 | After a run the row and current membership of each path hold what the last candidate with that path says, its label or else unknown, point to the version, and keep their lineage. |
| CatalogueRuns.OtherRowsTold | src/idp_brain/repositories/artifacts.py:98-192 | The rows a snapshot does not write: artifacts outside it lose their pointer, their current memberships end with a tombstone, older memberships of its artifacts end without one, other sources stay. |
| CatalogueRuns.RunKeepsSound | src/idp_brain/repositories/artifacts.py:98-192 | A run keeps: unique labels, one current version a source, version pointer v exactly when membership v is current, current rows without tombstone, no dangling reference. |
| CatalogueTables.SoundMeansOneMembership | src/idp_brain/repositories/artifacts.py:98-148 | In a sound catalogue an artifact has at most one current membership. |
| CatalogueRuns.CompletedRun | src/idp_brain/ingestion/pipeline.py:157-188 | After a completed run the current paths are exactly the snapshot's, all at the new version; other sources are untouched, no row is lost; when it fails is exact. |
| CatalogueRuns.RerunChangesNothing | src/idp_brain/ingestion/pipeline.py:157-188 | Running the same snapshot again changes no row. |
| CatalogueHistory.ReplaySound | src/idp_brain/ingestion/pipeline.py:157-226 | Every catalogue invariant holds after every history of runs, failed ones included. |
| CatalogueHistory.GivenIsFirst | src/idp_brain/repositories/source_versions.py:56-107 | A source's label has the version id of its first completed snapshot, and none without one. |
| CatalogueHistory.IngestionTells | src/idp_brain/ingestion/pipeline.py:157-188 | Whether a run completes after a history, and under which version, is a function of the snapshots. |
| CatalogueHistory.SecondLabelRefused | src/idp_brain/repositories/source_versions.py:56-107 | The same content under a second label fails with a duplicate version id. |
| CatalogueHistory.HistoryTells | src/idp_brain/repositories/artifacts.py:48-68 | Over any history the rows are read off the snapshots: first and last containing version are those of the first and latest completed snapshot with the path (empty for git sources), and a membership row exists exactly for each version that held it. |
| CatalogueHistory.ReplayKeepsHistory | src/idp_brain/repositories/artifacts.py:98-192 | Artifact, version and membership rows are never deleted over any further runs. |
| Incremental.LatestByPath | src/idp_brain/ingestion/incremental.py:87 | The last candidate of a path is the one planned with. |
| Incremental.PlanIncremental | src/idp_brain/ingestion/incremental.py:73-108 | Decisions for the snapshot's paths in order, then tombstones for the vanished current ones in order. |
| Incremental.DecisionMeaning | src/idp_brain/ingestion/incremental.py:111-137 | Added means no current membership; unchanged means one with the same checksum, profile and label; changed is the rest. |
| Incremental.PlanKeepsPaths | src/idp_brain/ingestion/incremental.py:59-64 | The keys handed to the retire step are exactly the snapshot's paths. |
| Incremental.TombstoneCountsAgree | src/idp_brain/ingestion/incremental.py:87-108 | The retire step after the upserts tombstones exactly as many artifacts as the plan made before them says, in every sound state. |
| Incremental.RerunPlansUnchanged | src/idp_brain/ingestion/incremental.py:87-137 | Planning the snapshot just ingested finds everything unchanged and nothing to tombstone. |
| Incremental.PlanComparesSnapshots | src/idp_brain/ingestion/incremental.py:73-137 | The plan after a run compares two snapshots: each path new, unchanged or changed by checksum, profile or label alone, with the checksum before, and each lost one a tombstone, in path order. |
| IngestionPipeline.Session.UpsertSourceVersion | src/idp_brain/repositories/source_versions.py:56-107 | Clears the source's flags, sets the one row, or reports the duplicate id. |
| IngestionPipeline.Session.UpsertArtifact | src/idp_brain/repositories/artifacts.py:22-96 | Writes one artifact row and no other, keeping the first containing version. |
| IngestionPipeline.Session.UpsertArtifactVersion | src/idp_brain/repositories/artifacts.py:98-148 | Makes one membership the artifact's only current one and clears its tombstone. |
| IngestionPipeline.Session.RetireArtifactsAbsentFromDiscovery | src/idp_brain/repositories/artifacts.py:150-192 | Tombstones exactly the current memberships outside the snapshot, clears their pointers and counts them. |
| IngestionPipeline.Session.CatalogueStep | src/idp_brain/ingestion/pipeline.py:154-188 | Plan, version, upserts and retirement together are one run on the catalogue, with the recorded counts. |
| IngestionPipeline.Session.IngestSource | src/idp_brain/ingestion/pipeline.py:108-248 | A source ends completed with its whole catalogue step or failed with the catalogue as it was and the last committed stage recorded; every commit holds one of the two catalogues. |
| IngestionRecords.RecordTells | src/idp_brain/ingestion/pipeline.py:108-248 | The record of a run, from fault and catalogue alone: completed with the current version and the numbers of paths new, edited, the same and lost, or failed at the stage the fault names, with the fetched count only once fetching was over. |
| IngestionPipeline.Session.RunIngestion | src/idp_brain/ingestion/pipeline.py:97-266 | Sources run in order up to the first failure; committed work of earlier sources stays, and every commit is sound. |
| ChunkCatalogue.RunKeeps | src/idp_brain/repositories/chunks.py:82-160 | Over every sequence of upserts and retirements a chunk has at most one current membership and no row is removed. |
| ChunkCatalogue.UpsertTells | src/idp_brain/repositories/chunks.py:20-119 | Every row after an upsert: the chunk's and its version's written, its other memberships only no longer current; it fails exactly for a key of another source. |
| ChunkCatalogue.RetireTells | src/idp_brain/repositories/chunks.py:121-160 | Every row after a retirement: a current membership outside the keys ends with a tombstone and its chunk loses the pointer. |
| ChunkCatalogue.UpsertKeepsPointersIff | src/idp_brain/repositories/chunks.py:39-119 | An upsert keeps version pointer and membership in step if and only if it brings a version or the chunk was not current. |
| ChunkCatalogue.DroppedVersionSplits | src/idp_brain/repositories/chunks.py:39-119 | A chunk ingested with a version and then without has no pointer and a current membership. |
| ChunkCatalogue.RetireKeepsPointers | src/idp_brain/repositories/chunks.py:121-160 | Retirement ends exactly the memberships outside the snapshot and keeps pointers in step. |
| ChunkCatalogue.PlannerSeesOneMembership | src/idp_brain/repositories/chunks.py:82-119 | Whatever was ingested, the embedding planner meets one current membership a chunk. |
| ChunkCatalogue.ChunkRepository.UpsertChunk | src/idp_brain/repositories/chunks.py:20-80 | Writes one chunk row, or fails where the key belongs to another source. |
| ChunkCatalogue.ChunkRepository.UpsertChunkVersion | src/idp_brain/repositories/chunks.py:82-119 | Without a version nothing changes; otherwise that membership becomes the only current one. |
| ChunkCatalogue.ChunkRepository.Upsert | src/idp_brain/repositories/chunks.py:20-119 | Both upserts together are one step of the chunk machine. |
| ChunkCatalogue.ChunkRepository.RetireChunksAbsentFromSnapshot | src/idp_brain/repositories/chunks.py:121-160 | The in-place retirement is the retirement function, and the count its memberships. |
| RelationshipPaths.EvidencePath | src/idp_brain/retrieval/evidence.py:464-505 | Accepts exactly the simple, numbered, contiguous paths of at most three cited edges to the chunk whose citations are all allowed. |
| RelationshipPaths.SameSizeIffDistinct | src/idp_brain/retrieval/service.py:243-245 | The set-size test finds every repetition. |
| RelationshipPaths.CheckPath | src/idp_brain/retrieval/service.py:194-249 | Passes only acceptable paths and adds exactly what their edges lead to; refuses for what is wrong with the candidate or because its edges overflow the shared fanout. |
| RelationshipPaths.FaultyNotServed | src/idp_brain/retrieval/service.py:194-249 | Each reason for a refusal is a fault of that kind in the first bad edge or the candidate, and no candidate with one is acceptable. |
| RelationshipPaths.FanoutCollected | src/idp_brain/retrieval/service.py:236-242 | The shared fanout holds, for every entity and depth, exactly what the edges read lead to. |
| RelationshipPaths.ServicePathsPassEvidence | src/idp_brain/retrieval/service.py:194-249 | A path the service accepts passes the evidence check if and only if its edges are strictly typed and its citations allowed. |
| RelationshipPaths.LooseEdgeRefused | src/idp_brain/retrieval/service.py:219-220 | An edge with a depth of 1.0 passes the service and never the evidence contract. |
| RelationshipPaths.FirstByChunkLists | src/idp_brain/retrieval/service.py:250-252 | Each chunk read is kept once, by its first candidate, ranked from one. |
| RelationshipPaths.FirstByChunkInOrder | src/idp_brain/retrieval/service.py:250-252 | The list is of exactly the first candidates for each chunk, in the order read. |
| RelationshipPaths.AcceptedEach | src/idp_brain/retrieval/service.py:194-254 | Every candidate read without refusal carries a simple path of enabled, cited, eligible hops from a seed to its chunk, within the depth. |
| RelationshipPaths.ValidateRelationshipCandidates | src/idp_brain/retrieval/service.py:183-255 | Reads up to the limit; each path read is acceptable and, for every entity and depth, the candidates read lead to at most `max_fanout_per_seed` entities; a refusal for width is where the next edges lead to more. |
| Fusion.BestByChunk | src/idp_brain/retrieval/fusion.py:33-37 | The dictionary of bests holds each chunk's best candidate and no other chunk. |
| Fusion.AddPath | src/idp_brain/retrieval/fusion.py:38-43 | Adding one path takes the running sums from the earlier paths' definition to this one's. |
| Fusion.Accumulate | src/idp_brain/retrieval/fusion.py:25-43 | The accumulated sums are the score, path and metadata definitions for every chunk seen; a negative weight stops it. |
| Fusion.Fuse | src/idp_brain/retrieval/fusion.py:13-63 | The fused list is the one the definition describes, in strict key order; errors are exact. |
| Fusion.KeyOrderTotal | src/idp_brain/retrieval/fusion.py:77-121 | The sort key is a strict total order. |
| FusionLaws.BestIsFirstBest | src/idp_brain/retrieval/fusion.py:32-37 | The best candidate is the first of the chunk's best-ranked ones. |
| FusionLaws.ScoresIgnoreListOrder | src/idp_brain/retrieval/fusion.py:28-43 | Scores and the chunks fused do not depend on the order inside any list. |
| FusionLaws.SameEntriesSameFusion | src/idp_brain/retrieval/fusion.py:45-63 | The definition of the entries determines the fused list. |
| FusionLaws.FusionIgnoresListOrder | src/idp_brain/retrieval/fusion.py:28-63 | Permuting the lists changes nothing at all when no list holds two different candidates at a chunk's best rank. |
| FusionLaws.OrderFreeIff | src/idp_brain/retrieval/fusion.py:28-63 | The fused list is the same for every permutation of the lists if and only if no list holds two different candidates at a chunk's best rank. |
| FusionLaws.FusedChunksDistinct | src/idp_brain/retrieval/fusion.py:45-63 | One entry a chunk, scores never rising. |
| FusionLaws.DominatingChunkComesFirst | src/idp_brain/retrieval/fusion.py:38-63 | A chunk no worse on any path and better on one of positive weight comes strictly earlier. |
| FusionLaws.EntryPathsExact | src/idp_brain/retrieval/fusion.py:42 | An entry's paths are exactly those that have the chunk, with its best candidate there. |
| FusionLaws.ExcerptIsTrusted | src/idp_brain/retrieval/fusion.py:66-74 | An entry's excerpt is a trusted one of its own candidates and is missing only when none has one. |
| FusionLaws.AuthorityIsLeast | src/idp_brain/retrieval/fusion.py:87-98 | The authority sorted by is attained and least among the entry's paths. |
| FusionLaws.FreshnessIsGreatest | src/idp_brain/retrieval/fusion.py:99-110 | The freshness sorted by is attained and greatest. |
| FusionEntries.EntriesTell | src/idp_brain/retrieval/fusion.py:13-74 | Each entry read off the lists: its score is the sum over the paths of weight over constant plus least rank, its candidates the first best-ranked ones, its label and trusted excerpt those of the first path by name that has one. |
| FusionEntries.EveryChunkFused | src/idp_brain/retrieval/fusion.py:28-45 | No chunk of any list is without an entry. |
| FusionTies.TiesBroken | src/idp_brain/retrieval/fusion.py:77-121 | With equal scores: better exact rank first, none last; then full text, then vector; then the smaller authority, unknown last; then the greater freshness, undated last; then the id. |
| Reranking.Prepare | src/idp_brain/reranking/providers.py:93-120 | Inputs carry the cut excerpt and the fused rank; the first candidate without trusted excerpt or eligible label decides the error. |
| Reranking.CheckReply | src/idp_brain/reranking/providers.py:129-142 | Accepts exactly replies that score every candidate once, nothing else, with finite numbers. |
| Reranking.Rerank | src/idp_brain/reranking/providers.py:74-157 | Each failure is reported in exactly its situation; otherwise the limited candidates come back permuted, in score order, ranked from one, with fused ranks and the truncation count. |
| Reranking.EveryCandidateReranked | src/idp_brain/reranking/providers.py:143-157 | Every fused rank occurs in the result. |
| Reranking.RerankingPermutes | src/idp_brain/reranking/providers.py:143-157 | With one entry a chunk each result is the very candidate at its fused rank, and scores with ids fall strictly. |
| Reranking.RerankingUnique | src/idp_brain/reranking/providers.py:142-157 | The scores alone decide the result, whatever order the provider lists them in. |
| RetrievalContents.ScoreOrderTells | src/idp_brain/reranking/providers.py:74-157 | A ranking by scores: the first candidates, as many as every limit allows, each with an excerpt and an allowed label, numbered, sent with the start of the excerpt, scored once each by a finite number, best first and then by id. |
| RetrievalContents.FusedOrderOnlyWhen | src/idp_brain/retrieval/service.py:107-125 | The fused order stands only when no reranker was asked for, or when a skippable one has no provider or got no usable answer for candidates that were all fit to be sent. |
| RerankContents.FailureTells | src/idp_brain/reranking/providers.py:74-142 | Each failure read off the candidates and the answer: the first unfit candidate and why, no answer, other candidates scored, or a score that is no finite number. |
| Evidence.Take | src/idp_brain/retrieval/evidence.py:223-254 | One turn of the loop: unusable, cut, exhausted, refused path, or kept. |
| Evidence.Assemble | src/idp_brain/retrieval/evidence.py:202-313 | The bundle holds exactly the kept candidates; citations are the sorted union of the items', conflicts those over kept items and citations, and the counts are exact; it fails exactly when a kept item's id is no candidate's. |
| EvidenceLaws.BundleFitsBudget | src/idp_brain/retrieval/evidence.py:218-311 | Estimated tokens never exceed the budget. |
| EvidenceLaws.ItemsInOrder | src/idp_brain/retrieval/evidence.py:229-254 | Items come in candidate order, each a non-empty start of its record's text with its citations, which all agree with the record, and with the edges of its candidate's relationship entry or none; only the last may be cut. |
| BundleContents.BundleTells | src/idp_brain/retrieval/evidence.py:223-254 | Exactly the candidates with evidence, budget left by the texts before them and a fitting path become items, each showing what is left of its text; dropped and truncated count the rest and the texts that did not fit. |
| EvidenceLaws.EstimateCovers | src/idp_brain/retrieval/evidence.py:265-311 | The tokens estimated are the fewest that cover the characters shown, four to a token. |
| EvidenceLaws.IdsSplitItems | src/idp_brain/retrieval/evidence.py:274-280 | The two id lists are the items' ids split by kind, in order. |
| EvidenceLaws.DroppedExactlyWhen | src/idp_brain/retrieval/evidence.py:225-240 | A candidate is kept exactly when it has usable evidence and an acceptable path and the usable text before it leaves budget, whether or not that text was kept. |
| EvidenceLaws.NothingTruncatedIff | src/idp_brain/retrieval/evidence.py:230 | Nothing counts as truncated if and only if the budget covers all usable text. |
| EvidenceLaws.LaterTruncationsAreDrops | src/idp_brain/retrieval/evidence.py:229-234 | Every truncation counted after the first is of a candidate that was dropped. |
| TruncationCount.TruncatedAreTheCutIff | src/idp_brain/retrieval/evidence.py:223-234 | The truncation count is the number of items cut if and only if the budget covers all usable text, or the first usable candidate with too much text is kept and no usable one follows it; it is never less. |
| TruncationCount.TwoCountedOneCut | src/idp_brain/retrieval/evidence.py:229-234 | A bundle that counts two truncations and cuts one item. |
| EvidenceLaws.LargerBudgetKeepsMore | src/idp_brain/retrieval/evidence.py:218-234 | A larger budget keeps every candidate a smaller one keeps and shows at least as much of it. |
| EvidenceLaws.CitationsAreTheItems | src/idp_brain/retrieval/evidence.py:241-257 | Citations are listed once, ascending, exactly the union of the items' citations, each about its item. |
| EvidenceLaws.ConflictsOverTheBundle | src/idp_brain/retrieval/evidence.py:258-264 | A conflict is shown if and only if all its items and citations are in the bundle, and conflicts come by ascending id. |
| Retrieval.FirstPerChunk | src/idp_brain/retrieval/service.py:176-181 | Keeps the first candidate of each chunk, in order, and nothing else. |
| Retrieval.RelationshipSeeds | src/idp_brain/retrieval/service.py:156-181 | Seeds are exactly the chunks the named sources put forward, each once, `fused` standing for every list. |
| Retrieval.LeastRankedIsLeast | src/idp_brain/retrieval/service.py:172-175 | A fused seed is a best-ranked candidate of its entry. |
| Retrieval.Rank | src/idp_brain/retrieval/service.py:107-125 | Reranks, falls back to the fused order only for an excusable failure with fallback allowed, or reports the failure. |
| Retrieval.RankingKeepsFused | src/idp_brain/retrieval/service.py:106-130 | Ranked candidates are fused ones, each chunk once, within the limits, whichever way ranking went. |
| Retrieval.FusedEntryFrom | src/idp_brain/retrieval/fusion.py:38-55 | A fused entry has exactly the paths whose list has the chunk, each with a best-ranked candidate of that list. |
| Retrieval.EvidenceFromLists | src/idp_brain/retrieval/service.py:94-154 | From given lists: a bundle over ranked candidates that come from the lists, each once, within the token budget. |
| Retrieval.Expand | src/idp_brain/retrieval/service.py:89-92 | Whatever the expander returns for the seeds, the relationship list is a validated one, or the failure is for its reason. |
| Retrieval.ExpandedIsValidated | src/idp_brain/retrieval/service.py:183-255 | Every candidate of the relationship list carries a path the service accepts. |
| Retrieval.ValidatedPathsReachEvidence | src/idp_brain/retrieval/service.py:184-255 | With a validated relationship list a ranked candidate is kept if and only if its record is usable, budget is left and its path's edges may be released. |
| Retrieval.RetrieveEvidence | src/idp_brain/retrieval/service.py:77-154 | End to end, for every expander, reranker and fetcher: seeds, expansion, validation, fusion, ranking and assembly give a bundle within budget that keeps exactly the ranked candidates with usable evidence, budget left and a releasable path. |
| RetrievalContents.ShownPathsServe | src/idp_brain/retrieval/service.py:77-255 | An item of a retrieved bundle shows a path if and only if its chunk was found over relationships; it is one the traversal allows, from a chunk a named source puts forward to that chunk, and the item cites all its hops cite. |
| JsonPointer.EscapeRoundTrip | src/idp_brain/ingestion/extractors/structured.py:63 | Unescaping as section 4 of RFC 6901 says undoes the two replacements, and an escaped part holds no slash. |
| JsonPointer.PointerRoundTrip | src/idp_brain/ingestion/extractors/structured.py:60-64 | The pointer written for a path parses back to the path. |
| JsonPointer.DecimalIsIndex | src/idp_brain/ingestion/extractors/structured.py:45 | `str(index)` is an array index of section 4 with that value. |
| JsonPointer.IndexIsDecimal | src/idp_brain/ingestion/extractors/structured.py:45 | Every array index of section 4 is `str` of its value. |
| StructuredLocators.LocatorRoundTrip | src/idp_brain/ingestion/extractors/structured.py:57-64 | A locator decodes to its path, for every prefix and path. |
| StructuredLocators.CandidatesList | src/idp_brain/ingestion/extractors/structured.py:10-54 | The candidates are exactly the nodes, each listed once under its own path. |
| StructuredLocators.LocatorsIdentifyNodes | src/idp_brain/ingestion/extractors/structured.py:10-64 | Locators of one document are pairwise distinct, decode to their paths, and evaluate under section 4 to the nodes they describe; no node is missing. |
| StructuredLocators.CandidatesSay | src/idp_brain/ingestion/extractors/structured.py:10-54 | A candidate says of its node what kind it is, and a scalar's text or an array's length. |
| BlankText.StripKeepsPlace | src/idp_brain/ingestion/chunking/base.py:265 | Stripping keeps every other character in its place. |
| BlankText.StripEmptyIff | src/idp_brain/ingestion/chunking/base.py:265 | Only blank text strips to nothing. |
| Splitter.FromProfile | src/idp_brain/ingestion/chunking/base.py:33-47 | The first enabled tool naming an option decides; absent and zero mean 1200 and 120; sizes are at least 1 and overlaps at least 0. |
| Splitter.SplitText | src/idp_brain/ingestion/chunking/base.py:264-276 | Short text is one part; otherwise the parts are the stripped windows of a covering. |
| Splitter.WindowsRebuildText | src/idp_brain/ingestion/chunking/base.py:269-276 | Windows overlap by the set amount, or by all but one character if it is larger, and put together give the text. |
| Splitter.NoTextLost | src/idp_brain/ingestion/chunking/base.py:272-273 | Every character that is not blank stands in the stripped part of a window. |
| Splitter.EmptyPartIff | src/idp_brain/ingestion/chunking/base.py:273 | A part is empty exactly when its window is blank, never the first or the last, and no part exceeds the size. |
| Splitter.EmptyPartShown | src/idp_brain/ingestion/chunking/base.py:269-276 | A text whose middle part is empty. |
| Splitter.WindowsUnique | src/idp_brain/ingestion/chunking/base.py:269-276 | Length and settings decide the windows. |
| Headings.StackIsEnclosing | src/idp_brain/ingestion/extractors/markdown.py:41-42 | The stack is exactly the headings whose every later heading is strictly deeper, in order. |
| Headings.PathLevelsGrow | src/idp_brain/ingestion/extractors/markdown.py:41-49 | Levels strictly grow along a heading path, which ends at the latest heading. |
| Headings.ExtractMarkdown | src/idp_brain/ingestion/extractors/markdown.py:34-84 | One candidate for each heading, paragraph, fence and table token, under its enclosing headings; it fails exactly when a fence has a blank info string. |
| Headings.FirstWordIs | src/idp_brain/ingestion/extractors/markdown.py:71 | The fence language is what stands between leading blanks and the next blank or the end. |
| Headings.ExtractHtml | src/idp_brain/ingestion/extractors/html.py:32-84 | One candidate for each element, under its enclosing headings. |
| ExtractorFallback.FirstToolDecides | src/idp_brain/ingestion/extractors/registry.py:48-51 | A profile decides by its first enabled tool that applies. |
| ExtractorFallback.OnlyEnabledDecides | src/idp_brain/ingestion/extractors/registry.py:47-51 | A disabled profile decides nothing, an enabled one exactly when an enabled tool applies. |
| ExtractorFallback.TablesAgree | src/idp_brain/ingestion/extractors/registry.py:61-123 | Tools and the choice without a profile tell kinds alike, but for the plain text tool and the suffix tools on an artifact with a role. |
| ExtractorFallback.SearchEnds | src/idp_brain/ingestion/extractors/registry.py:38-59 | On every profile table, cyclic or not, the search ends with the chain's first decision, at its end, or at its first repeated profile. |
| ExtractorFallback.CyclicIff | src/idp_brain/ingestion/extractors/registry.py:44-45 | A cycle is reported if and only if the chain never ends and nothing on it decides. |
| ExtractorFallback.FirstDecisionWins | src/idp_brain/ingestion/extractors/registry.py:47-55 | The first profile of the chain that decides has the last word. |
| ExtractorFallback.SelectFailsOnlyInChain | src/idp_brain/ingestion/extractors/registry.py:32-36 | With every extractor registered, selection fails only through a configured profile's chain. |
| Paragraphs.Group | src/idp_brain/ingestion/extractors/text.py:29-44 | Paragraphs are maximal runs of lines that are not blank, in order, with their line numbers, and cover every such line. |
| Paragraphs.EveryRunOnce | src/idp_brain/ingestion/extractors/text.py:29-44 | The paragraphs are exactly the maximal runs, each once. |

## Left out

- Git, the file system, subprocesses, the command line, logging and the Weaviate mirror: input and output. Their
  results (snapshots, candidate lists, provider replies, fetched records) are arbitrary parameters.
- Schema migrations and column declarations: only unique keys and row identities are used.
- Text search, vector distance and trigram scoring: each retriever gives an arbitrary ranked list.
- Redaction, license and query-intent patterns: labels are opaque strings.
- Hashes and derived row ids: the fields they are computed from stand for them, so the digests count as injective.
- Configuration validation: bounds it guarantees (fusion ranks from one, non-negative limits) are types or preconditions.
- Markdown, HTML, YAML, TOML, OpenAPI and source-code parsing: the models start from tokens, elements or trees.
- Claim, fact and relationship scopes (`src/idp_brain/retrieval/corpus_filters.py:248-410`): the same clause pattern as chunks.
- Source-change rows and columns copied verbatim between rows: no invariant depends on them.
- Diagnostics and locator strings of the Markdown, HTML and text extractors.
- Scores, authority and freshness are exact reals: rounding of floats is not modelled.
- Several workers at once: a pass sees no rows locked by another, and one clock reading serves a whole pass or plan.
- Non-string mapping keys in structured documents: two keys with one `str` would share a locator.
- The URI percent-encoding of section 6 of RFC 6901: the code writes none.
- Source lists of an index hold strings only: other entries the planner drops and retrieval keeps.
- A reranker passed as a plain callable instead of through the registry.
- Traversal.DerivedRowsAreSound: asks, like the other path lemmas and `TraversalListsChains`, for targets free of `\`, because one holding it is not recognised when it is met again (`VisitedText.VisitedFoundAgainIff`).
- EmbeddingConvergence.ConvergesIff: its schedules have a provider that gives every job a vector of the model's size, because any number of errors in a row makes the outcome the provider's, and no plan or edit falls between the passes.
- EmbeddingRuns.RunsKeepInvariants: `max_attempts` is the same for all passes of a run, because an error at a lowered limit would fail a job past it.
- CatalogueHistory.HistoryTells: a source is git or not for its whole history, because the two kinds fill the containing versions differently.
- Incremental.TombstoneCountsAgree: the retire step is stated right after the upserts of the same run, the only place it is called.
