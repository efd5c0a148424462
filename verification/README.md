# Verified model of the aggregation, ranking, retention and ingestion core

This project models the parts of the repository where several processes, crashes and
resumptions meet the same rows, and proves what those parts promise. Every committed
transaction is one step; between any two steps a process may die, another may run, and
the environment may misbehave as far as stated below.

Most components appear twice. A value-level machine (`System`, `Job`, `World`, ...) has
pure step functions, and its theorems quantify over all paths. A class with mutable fields
runs the operation as the code does, statement by statement, and its postconditions equate
the new fields with those step functions, so the theorems apply to it.

| files | what they cover |
|---|---|
| `Common`, `Keyset`, `Sorting`, `Codec`, `Text` | options, keyset pages, sorting by a comparator, hashing and compression, UTF-16 text, escaping, joined lists |
| `GroupBy`, `Aggregation`, `Matchups`, `RowMeaning` | the three set-based inserts, the resumable aggregation job, conservation laws of the matchup rows, and what each row counts |
| `PlayerCap`, `Signals`, `SignalMeaning`, `Tiers`, `Ranking`, `RankingJob` | per-player cap, a brawler's rates and what they mean, percentile tiers, finalize and the publish decision, the resumable ranking job |
| `Publication`, `PublicationRuns`, `RankingStore` | publication under interleaved workers, approvals and crashes, and two histories of it |
| `Workflow` | the lock, stale reclaim and runs under interleaved callers |
| `RawArchive`, `RawArchiveStore`, `ArchiveKey` | archiving and removing raw payloads |
| `RetentionArchive`, `Deletion`, `DeletionStore`, `Eligibility` | export, verification, archive-gated deletion and eligibility of run detail |
| `Graph`, `GraphStore`, `GraphArchive` | deletion and archives of multi-table families under foreign keys |
| `StableJson`, `JsonGrammar`, `BattleKey`, `Migration` | canonical JSON text and a reader of it, battle keys, composite-cursor paging |
| `RateBudget`, `Pool` | shared counters and the bounded query pool |

## Assumptions

- One clock; `NOW(3)` and `UTC_TIMESTAMP(3)` agree. A slice's transaction commits before
  its lock expires.
- Transactions are atomic and serializable, and row locks keep a sweep's decision and an
  archive mark of the same snapshot apart. SQL statements are table operations.
- The unique keys the code relies on hold: one active lock per definition, one snapshot
  per ranking run, one current flag, unique object keys (`ArchiveKey` shows the last one
  from the way keys are built).
- One deletion executor per run and table.
- One ranking job runs at a time (`Workflow.OneRunAndCompleteScopes`) where the record of a
  published run is concerned; the safety of publication does not rest on it.
- SHA-256 (also cut to 128 bits, as in the keys of graph archives) is injective, gzip has
  gunzip as a left inverse, and JSON text parses back to the document that was printed;
  each is a parameter with that property, never an axiom.
- Object storage writes atomically. It may lose or corrupt objects while the payload is
  still in the database, not while its removal is being decided and not afterwards.
- Identifiers are only compared for order and equality, so natural numbers stand for
  them. Stored ids are in lower case; only the anchors of a graph archive may be given in
  another letter case, which the id columns' collation ignores. Reals stand for floating
  point and DECIMAL columns.

## Where the code differs from what one might expect

- A publish worker that crashed after its publication and retries leaves the snapshots
  alone but rewrites its own run as unpublished with reason `no_significant_change`; if an
  operator approved another run in between, the retry can even mark the published run held
  (`PublicationRuns.RetryRewritesRecord`, `PublicationRuns.PublishedRunCanBeHeld`).
  `Publication.PublishedRecordStaysTruthfulIff` says exactly when the record stays true.
- Stale reclaim runs outside the lock and completing a run does not look at its status,
  so a run marked failed can still become successful (`Workflow.ReclaimedRunCanSucceed`).
  It is final exactly when no holder of an unexpired lock has decided to complete it
  (`Workflow.FailedIsFinalIff`), and once the lock is free.
- The workflow and fetch planners do not check every foreign key into their tables; a
  planned deletion is then refused by the database (`Graph.PlannedWorkflowIsHeld`,
  `Graph.PlannedFetchIsHeld`; exactly when is `Graph.WorkflowScopeIsClosed` and
  `Graph.FetchScopeIsClosed`).
- Exported rows fail verification when the live table has other columns than the
  verifier's fixed list, so adding a column breaks every export
  (`RetentionArchive.NarrowExportFails`, `RetentionArchive.AddedColumnBreaksExport`;
  `RetentionArchive.ExportThenVerify` gives the exact condition).
- A graph archive accepts anchor ids in any letter case, but verifies exactly when they
  were given as stored (`GraphArchive.OtherCaseIsRefused`, `GraphArchive.ArchiveThenVerify`).
- The priority reserve is only available in full when it does not exceed the ceiling
  (`RateBudget.ReserveIsKeptIffItFits`).
- An object that changes between a sweep's download and its commit is lost with the
  payload unless what is left still decompresses to it; `RawArchive.FaultIsHarmlessIff`
  and `RawArchive.FaultAllowedIsTheFrontier` say exactly what storage may do.
- A late mark can move `verified_at` past `payload_removed_at`, so the stored times no
  longer show the grace period that was kept (`RawArchive.LateMarkHidesGrace`); they keep
  showing it exactly when no worker could still mark the row at the removal
  (`RawArchive.TimesShowGraceIff`).
- Infinite numbers, to which a text like `1e999` parses, print as null
  (`StableJson.InfinityPrintsAsNull`).

## Model

| member | source | states |
|---|---|---|
| GroupBy.AggregateSplits | lib/aggregation/repository.ts:67-149 | The set-based insert over two disjoint brawler batches writes, together and without overlap, exactly the rows of one insert over both batches: the GROUP BY never mixes brawlers. |
| GroupBy.EveryRowReconciles | lib/aggregation/repository.ts:67-181 | Whatever the battle data, every row the three inserts produce satisfies wins + losses (+ draws) <= matches, the condition the reconciliation query counts violations of. |
| Keyset.PageIsPrefix | lib/aggregation/repository.ts:52-61 | A keyset page is strictly ascending and is exactly what lies ahead of the cursor up to the page's own last id: moving the cursor there skips nothing and repeats nothing. |
| Keyset.PageSize | lib/aggregation/repository.ts:52-61 | A page is full unless it exhausts what lies ahead. |
| Keyset.PageRemainder | lib/aggregation/repository.ts:52-61 | How many ids remain ahead after a non-empty page; the decreasing measure of every resumable loop. |
| Keyset.InOrderGrows | lib/ranking/repository.ts:171-193 | A scan's pages, concatenated, are the ids passed so far in ascending order. |
| Aggregation.BatchedEqualsMonolithic | lib/aggregation/sync.ts:187-211 | For fixed data, any sequence of batch sizes, rolled-back slices and resumes that reaches finalize leaves in each table the rows of the single GROUP BY over all active brawlers. |
| Aggregation.ExactlyOnce | lib/aggregation/sync.ts:187-211 | With the active set and the data changing between slices, no brawler is aggregated twice in a phase and every brawler active throughout a finished phase was aggregated. |
| Aggregation.AlwaysSucceeds | lib/aggregation/sync.ts:251-260 | Along every schedule the finalize step counts zero reconciliation warnings, so a completed job always ends "succeeded". |
| Aggregation.FreshJobIsMonolithic | lib/aggregation/sync.ts:174-211 | A fresh job over fixed data: at finalize every scope equals the monolithic aggregate, each active brawler was processed exactly once, and the status is "succeeded". |
| Aggregation.SliceProgress | lib/aggregation/sync.ts:187-211 | Each committed slice lowers the number of slices left by exactly one. |
| Aggregation.FreshStartSlices | lib/aggregation/sync.ts:220-249 | From a fresh start over n active brawlers the driver needs exactly 3 * (ceil(n / b) + 1) + 2 slices. |
| Common.CeilIsCeiling | lib/aggregation/sync.ts:399-433 | The page count used in the slice counts is the ceiling of n / b. |
| Aggregation.Orchestrator.FinalizeAggregation | lib/aggregation/sync.ts:251-282 | Completes the run with its status and leaves no run in flight. |
| Aggregation.Orchestrator.RunOneBatchOrAdvance | lib/aggregation/sync.ts:187-211 | One committed slice: rows and cursor of the next page, or the next phase when the page is empty. |
| Aggregation.Orchestrator.ExecuteNextSlice | lib/aggregation/sync.ts:220-249 | Claims, discards a run without cursor, finalizes or runs one batch, and reports which, with the phase the job then stands in. |
| Aggregation.Orchestrator.RunAggregation | lib/aggregation/sync.ts:399-433 | Converges exactly when the slices left fit the driver's cap; then the completed tables are the monolithic ones and the status is "succeeded" if the resumed job was a faithful prefix, as a fresh one always is. |
| Matchups.JoinIsSymmetric | lib/aggregation/repository.ts:117-149 | The self-join of participants pairs a with b under a mode and patch as often as b with a. |
| Matchups.MatchupRowsAreSymmetric | lib/aggregation/repository.ts:117-149 | A matchup row for (a, b, mode, patch) has a mirror row for (b, a, mode, patch) with the same number of matches, whichever batches wrote them. |
| Matchups.SumCountsItems | lib/aggregation/repository.ts:67-149 | Summing a measure over the group rows counts every joined item once. |
| Matchups.PoolingLosesNothing | lib/ranking/repository.ts:194-234 | Pooling matchup rows over mode and patch equals the direct count per ordered pair, for matches, wins and losses. |
| Matchups.ModesAccountForOverall | lib/aggregation/repository.ts:67-115 | Per brawler and patch, the per-mode totals equal the overall total minus the participations without a mode. |
| RowMeaning.MatchupRowsCount | lib/aggregation/repository.ts:117-149 | A matchup row for (a, b, mode, patch) exists exactly when a is in the batch and met b there, once; its matches, wins and losses are the numbers of ordered participant pairs in one battle, in different teams, of different brawlers, whose first side's own team has that result; its rate is the quotient and its time the newest. |
| RowMeaning.ModeRowsCount | lib/aggregation/repository.ts:67-90 | A mode row likewise counts the participations of one brawler in one mode and patch, by the result of the brawler's own team, draws included. |
| RowMeaning.OverallRowsCount | lib/aggregation/repository.ts:92-115 | An overall row counts the participations in one patch over all modes and none, and its coverage is the number of distinct modes among them. |
| RowMeaning.RowKeysFit | lib/aggregation/repository.ts:67-149 | No row has other key columns than its statement groups by, and no mode row is without a mode. |
| RowMeaning.PooledCountsMeetings | lib/ranking/repository.ts:194-234 | The pooled matches, wins and losses of (a, b) are the numbers of times a met b, and of those times a's team won or lost, counted on the battle tables. |
| Tiers.CountWithBreak | lib/ranking/formulas.ts:127-141 | Counting along the sorted copy and stopping at the first larger score gives the true number of scores at or below it. |
| Tiers.AssignPercentileTiers | lib/ranking/formulas.ts:127-141 | Each score gets, at its own position, the tier that the number of scores at or below it calls for. |
| Tiers.TierIsCounted | lib/ranking/formulas.ts:112-141 | A score is S exactly when at least 90% of the scores are at or below it, A when at least 70% are and fewer than 90%, B from 30%, C from 10%, D below. |
| Tiers.TierIgnoresOrder | lib/ranking/formulas.ts:127-141 | Tiers commute with permutation: the tier of a score depends on the multiset of scores only. |
| Tiers.TiersAreMonotone | lib/ranking/formulas.ts:112-141 | A higher score never gets a lower tier, and equal scores share one. |
| Tiers.MaximumIsS | lib/ranking/formulas.ts:112-141 | The maximum score is always S. |
| Tiers.LowTiersAreBounded | lib/ranking/formulas.ts:112-141 | For every non-empty input of n scores: ten times the number of D's is below n, of C's and D's below 3n, of B's and worse below 7n, and of all but S below 9n. |
| PlayerCap.ApplyPerPlayerCap | lib/ranking/formulas.ts:57-70 | Groups by player in order of first appearance, sorts each group newest first (stable) and concatenates the heads. |
| PlayerCap.CapKeepsTheNewest | lib/ranking/formulas.ts:56-70 | Of each player exactly min(cap, n) rows remain, all of them that player's, and no dropped row is newer than a kept one. |
| Ranking.FinalizeTiersExactlyThePublishable | lib/ranking/sync.ts:454-517 | After finalize a row carries a tier exactly when it is publishable, which is exactly when it meets the floor and has a win rate. |
| Ranking.FinalizeIsIdempotent | lib/ranking/sync.ts:454-517 | Finalizing finalized rows changes nothing: a repeated finalize slice is harmless. |
| Ranking.FinalizeTiersQualifyingModes | lib/ranking/sync.ts:487-503 | After finalize a mode row carries a tier, and a score, exactly when it meets its floor and has a win rate. |
| Ranking.ModesAreIndependent | lib/ranking/sync.ts:487-503 | Modes are ranked independently: a mode's rows come out as if no other mode existed. |
| RankingStore.FinalizeModes | lib/ranking/sync.ts:487-503 | Totals per mode, scores, tiers within each mode and stamps, as the grouped loops do it. |
| Signals.RecencyDecays | lib/ranking/formulas.ts:18-23 | A battle's weight stays between 0 and 1 and never grows with its age. |
| Signals.BlendIsBetween | lib/ranking/formulas.ts:36-45 | The blended win rate lies between the current patch's and the overall one. |
| Signals.ComputeForBrawler | lib/ranking/sync.ts:213-245 | Caps the rows per player, then computes the weighted, blended, high-rank and per-mode rates and the spread counts of their specification. |
| Signals.SignalsInUnit | lib/ranking/sync.ts:167-245 | Whatever a brawler's battles, each of its rates lies between 0 and 1. |
| Signals.ScoresInRange | lib/ranking/formulas.ts:89-104 | From rates between 0 and 1, every overall and mode score finalize stamps lies between 0 and 100. |
| SignalMeaning.RecencyLine | lib/ranking/formulas.ts:18-23 | The weight is whole up to 30 days, falls in a straight line to a half at 90 and to nothing at 180, and stays there. |
| SignalMeaning.WeightsAdd | lib/ranking/sync.ts:158-176 | The weights of wins and losses add up row by row, each row weighed by its age in days. |
| SignalMeaning.RateIsShareOfWins | lib/ranking/sync.ts:167-182 | A rate times the whole weight is the weight of the wins; there is none exactly without weight. |
| SignalMeaning.BlendFollowsWeight | lib/ranking/formulas.ts:36-45 | Weight one is the current patch, weight zero is all data, a missing side leaves the other, and more weight moves the blend towards the current patch. |
| SignalMeaning.BlendWeightGrows | lib/ranking/formulas.ts:26-28 | The weight is a percent per match of the current patch, up to the whole. |
| SignalMeaning.PatchDecides | lib/ranking/sync.ts:178-188 | From a hundred rows of the current patch on the rate is that of the patch alone; without any it is that of all rows. |
| SignalMeaning.SelectionsByPosition | lib/ranking/sync.ts:182-236 | The rows of a patch, a mode or a bracket are exactly the rows with that value, in order, and none without a patch. |
| SignalMeaning.HighestBracketDecides | lib/ranking/sync.ts:190-200 | The high-rank rate is that of the highest bracket with enough rows; there is none if no bracket has enough. |
| SignalMeaning.SignalReads | lib/ranking/sync.ts:213-245 | A brawler's signal read off its capped rows: matches, distinct regions and brackets, a battle within thirty days, and one figure per mode that occurs. |
| SignalMeaning.ConfidenceBands | lib/ranking/formulas.ts:155-171 | Insufficient below 100 matches (30 per mode), medium from 200 (60), high from 500 (150) only with a recent battle, two regions and two brackets. |
| SignalMeaning.CandidateReads | lib/ranking/sync.ts:337-409 | A candidate row and its mode rows, field by field: floors, rates, confidence, no score or tier yet. |
| SignalMeaning.MatchupReads | lib/ranking/formulas.ts:180-196 | A pair is labelled from twenty matches on if some were decided; the label goes by the share of wins at 35, 45, 55 and 65 percent, the confidence by twenty and forty matches. |
| SignalMeaning.CoverageIsShare | lib/ranking/sync.ts:411-452 | A brawler's coverage is the share of its opponents that get a label. |
| SignalMeaning.ScorePoints | lib/ranking/formulas.ts:89-104 | Fifty points for the win rate, twenty each for pick rate and high-rank rate, ten for coverage; an absent high-rank rate counts as the win rate and an absent coverage as half; a mode score has seventy and thirty. |
| SignalMeaning.FinalizedByCounts | lib/ranking/sync.ts:454-483 | Finalize row by row: a score exactly where floor and win rate are met, its points with the pick rate as share of all slots, the tier by how many scored rows score no higher, and nothing else changed. |
| SignalMeaning.FinalizedModesByCounts | lib/ranking/sync.ts:487-503 | A mode row gets a score exactly when it meets its floor with a win rate: seventy points for the rate and thirty for its share of the mode's slots; its tier goes by how many scored rows of the same mode score no higher, and nothing else changes. |
| Ranking.ComputeTierMoveRatio | lib/ranking/formulas.ts:203-211 | The share of ranked entries whose previous tier is known and different; zero for an empty ranking. |
| Ranking.HasSignificantChange | lib/ranking/formulas.ts:228-236 | True exactly on a first run or when some entry is new, moved tier, or moved more than one score point. |
| Ranking.ContentsByBrawler | lib/ranking/sync.ts:644-665 | Looking a publishable row's brawler up in the snapshot made from the rows finds that very row's item. |
| Ranking.OwnContentsAreUnchanged | lib/ranking/sync.ts:530-582 | Compared with a snapshot of its own contents a run has moved no tier and changed no entry. |
| Ranking.MovesAreCounted | lib/ranking/formulas.ts:203-211 | The moves are the ranked rows that the current items show with another tier, and the ranking is the rows with a tier. |
| Ranking.ContentsAt | lib/ranking/sync.ts:644-665 | The items are one for each row that meets its floor with score and tier, in row order, with the row's own values, and list exactly the qualifying mode rows of that brawler, in order. |
| Ranking.QualifyingAt | lib/ranking/repository.ts:490-511 | The pairs are exactly the matchup rows with a relationship, a win rate and probable or high confidence, in order. |
| Publication.DecisionMeans | lib/ranking/sync.ts:519-562 | Held exactly when four times the moved rows exceed the ranked rows, skipped exactly when otherwise every ranked row is shown with its tier and a score at most one point away. |
| RankingStore.ComparePrevious | lib/ranking/sync.ts:519-562 | Reads the current snapshot and decides to hold, skip or publish: without one it publishes; otherwise by the counts of moved and ranked rows, and by whether each ranked row is shown as it is. |
| RankingStore.FinalizeRows | lib/ranking/sync.ts:454-483 | Sums the slots, scores the eligible overall rows, tiers them together and stamps every row accordingly. |
| RankingStore.Store.FinalizePhase | lib/ranking/sync.ts:454-517 | Commits the stamped overall rows, the stamped mode rows and the move to the publish phase in one transaction. |
| RankingStore.Store.PublishFromCandidates | lib/ranking/sync.ts:622-691 | One transaction: every other snapshot stays and is superseded; the new one holds one item per publishable row, in order, with that row's values and exactly its brawler's qualifying mode tiers, and exactly the qualifying pairs; only the run's own record changes; with a snapshot of the run already there nothing changes. |
| RankingStore.Store.PublishPhase | lib/ranking/sync.ts:519-582 | Holds, skips or publishes as the counts call for, and leaves exactly the record of that outcome; a crash is possible between the outcome commit and the cursor commit. |
| RankingStore.Store.ApproveHeldRanking | lib/ranking/approval.ts:115-295 | Blank inputs are refused, then nine gates in their order, each refusal naming the first that fails; publishes together with its audit record exactly when all hold and it is not a dry run, and otherwise changes nothing. |
| RankingStore.Store.CheckHeldRun | lib/ranking/approval.ts:126-236 | The gates on the tables: each refusal is given exactly when its own gate is the first that fails. |
| RankingStore.MayApproveIsAllGates | lib/ranking/approval.ts:126-236 | The condition under which an interleaved approval commits is the conjunction of these gates. |
| Publication.SafeOnEveryPath | lib/ranking/sync.ts:519-691 | Over every interleaving of publish workers, approvals, stale reclaims and crashes: at most one snapshot per ranking run, exactly one current once any exists, each still holding exactly its run's publishable rows and qualifying pairs. |
| Publication.SafeFromTheStart | lib/ranking/repository.ts:523-553 | From an empty database on, every reachable state has at most one snapshot per run and exactly one current once any exists. |
| Publication.SnapshotsShowTheirRows | lib/ranking/sync.ts:622-691 | In every reachable state, read off the tables: each snapshot has one item per publishable row of its run with that row's values and its brawler's mode tiers, and its qualifying pairs; and whoever decides now decides by the counts. |
| Publication.ReentryIsNoChange | lib/ranking/sync.ts:530-582 | A worker re-entering publish while its own snapshot is current neither holds nor publishes: it takes the no-change branch with move ratio zero. |
| Publication.RetryAfterCommittedPublish | lib/ranking/sync.ts:547-582 | The crash between the publish commit and the cursor commit as four steps from any reachable state: the retry leaves the snapshots alone but rewrites the run's record as an unpublished no-change. |
| Publication.OutcomeOfPublishedRun | lib/ranking/sync.ts:547-582 | Whatever was decided for a run that meanwhile has its snapshot, committing it leaves the snapshots alone: a publication is refused whole, a hold or a no-change rewrites the record. |
| Publication.PublishedRecordStaysTruthfulIff | lib/ranking/sync.ts:519-582 | The record of a published run stays true on every path with one job at a time exactly when no process is about to mark it held or unchanged and, while its own job runs, a retry would be refused by the unique key, against the current snapshot and against every snapshot a pending publication or an approval can still bring. |
| PublicationRuns.RetryRewritesRecord | lib/ranking/sync.ts:547-582 | From an empty database: published with two brawlers on show, crashed, retried, and on record as an unpublished no-change. |
| PublicationRuns.PublishedRunCanBeHeld | lib/ranking/sync.ts:547-552 | From an empty database: a run publishes, its worker dies, an operator approves an older held run, and the retry marks the published run held. |
| Publication.ApprovalNeverRepublishes | lib/ranking/approval.ts:126-154 | Committing an approval of a run that meanwhile got its snapshot changes nothing. |
| Publication.NextKeeps | lib/ranking/sync.ts:519-691 | Every single step of workers, approvals, crashes and catalogue changes keeps the publication invariant. |
| RankingJob.BatchedEqualsOneShot | lib/ranking/sync.ts:337-452 | For any batch sizes, losses and resumes, candidate rows, mode rows and matchup rows, before and past finalize, are those of one unbatched computation over all active brawlers. |
| RankingJob.FinalizedRunIsComplete | lib/ranking/sync.ts:337-517 | A finished computation has exactly one row per active brawler and none besides, tiered exactly where it publishes: what the approval's completeness gate and publication rely on. |
| RankingJob.FinishedScoresInRange | lib/ranking/sync.ts:337-517 | Whatever was fought and however the job was sliced, every score and mode score of a finished computation lies between 0 and 100. |
| RankingJob.PublishedPairs | lib/ranking/repository.ts:490-511 | A matchup row is published exactly when its pair has at least forty matches, some of them decided. |
| RankingJob.Orchestrator.StartRankingJob | lib/ranking/sync.ts:286-329 | Workflow run, ranking run and cursor are three commits; a crash between them leaves a run without cursor for the next slice to discard. |
| RankingJob.NeverTwoRows | lib/ranking/sync.ts:337-409 | Even with the catalogue and the data changing between slices no brawler ever gets two candidate rows. |
| RankingJob.SliceProgress | lib/ranking/sync.ts:337-517 | Each committed slice lowers the number of slices left by exactly one. |
| RankingJob.FreshRunSlices | lib/ranking/sync.ts:251-284 | A ranking run whose prerequisites hold takes exactly 2 * (ceil(n / b) + 1) + 3 slices. |
| RankingJob.Orchestrator.BrawlersPhase | lib/ranking/sync.ts:337-409 | Computes each brawler of the page from its participation rows and appends its candidate row and mode rows, or moves to matchups. |
| RankingJob.Orchestrator.MatchupsPhase | lib/ranking/sync.ts:411-452 | Appends the matchup rows, classified and graded, and stamps the coverage of each brawler of the page, or moves to finalize. |
| RankingJob.Orchestrator.ExecuteNextSlice | lib/ranking/sync.ts:251-329 | Starts (or refuses to), discards a run without cursor, or runs one slice of the current phase; the last one decides to publish, hold or skip against the current snapshot. |
| RankingJob.Orchestrator.RunRankingRebuild | lib/ranking/sync.ts:757-791 | Converges exactly when the slices left fit the cap, in exactly that many slices, with the unbatched candidates and the decision they call for; a refused start stops it at once. |
| Workflow.OneRunAndCompleteScopes | lib/workflow.ts:51-282 | Over every interleaving of callers, crashes and stale reclaims from empty tables: at most one run is running, and any newest successful run the ranking job may read has all three scopes complete; once one exists, one always exists. |
| Workflow.NextKeeps | lib/workflow.ts:51-282 | Every step keeps: one running run, an unexpired holder owns the lock slot, successful runs have complete scopes. |
| Workflow.SuccessIsStable | lib/ranking/repository.ts:35-58 | A successful run stays successful with its scopes, so the two reads of the query need no common transaction. |
| Workflow.CursorIsNeverMissing | lib/aggregation/sync.ts:159-175 | Claiming writes run and cursor in one transaction, so the missing-cursor failure of the aggregation job is unreachable. |
| Workflow.ReclaimedRunCanSucceed | lib/workflow.ts:131-143 | A reachable interleaving in which a run already reclaimed as failed is turned into a successful one by a slow finalize. |
| Workflow.FailedIsFinalIff | lib/workflow.ts:131-143 | A failed run stays failed on every path exactly when no caller under an unexpired lock has already decided to complete it. |
| Workflow.FailedIsFinalOnceLockIsFree | lib/workflow.ts:51-80 | Once the definition's lock is free or expired, a failed run is final. |
| Workflow.ExpiredLockIsTaken | lib/workflow.ts:51-80 | An undisturbed caller takes the lock exactly when there is none or it has expired, for fifteen minutes, and otherwise leaves it as it is. |
| Workflow.Tables.AcquireWorkflowLock | lib/workflow.ts:51-80 | Succeeds exactly when there is no lock or its time is before now, and then holds it for the time asked; otherwise changes nothing. |
| Workflow.Tables.ReleaseWorkflowLock | lib/workflow.ts:82-95 | Releases the caller's own lock and nobody else's. |
| Workflow.Tables.ReconcileStaleWorkflowRuns | lib/workflow.ts:256-282 | Undisturbed, exactly the running runs without a heartbeat for more than fifteen minutes become failed and are reported. |
| RawArchive.NoPayloadIsEverLost | lib/retention/rawPayload.ts:386-465 | For any number of archive workers with expiring leases, late uploads and late marks, any sweeps, and an environment that may lose or corrupt objects while the payload is live: in every reachable state each payload is live and intact or its object decompresses to exactly it. |
| RawArchive.NothingIsLostFromTheStart | lib/retention/rawPayload.ts:386-465 | From an empty store on, every payload ever ingested is live and intact or recoverable from its object. |
| RawArchive.NextKeeps | lib/archive/service.ts:70-163 | Every single step of ingest, claim, upload, check, mark, crash, sweep and storage fault keeps the no-loss invariant. |
| RawArchive.GateProvesStored | lib/retention/rawPayload.ts:212-234 | Passing the sweep's re-verification proves that the stored object decompresses to the live payload. |
| RawArchive.UploadVerifiesExactly | lib/archive/service.ts:118-142 | With the download an upload verifies exactly when the very bytes are stored; without it, when as many are. |
| RawArchive.RefusedByFirstGate | lib/retention/rawPayload.ts:386-457 | A removal is decided by eight gates on the row, the object and the payload; each refusal names the first gate that fails. |
| RawArchive.RequestedGraceIsKept | lib/retention/rawPayload.ts:84-88 | On every path each removal goes back to a verification with no commit or abort in between, and the mark was then already at least seven days old and at least as old as that sweep was asked to wait. |
| RawArchive.RemovalRespectsGrace | lib/retention/rawPayload.ts:386-465 | On every path from an empty store a payload only ever disappears by a sweep's commit, the row then shows at least seven days between verification and removal, and a worker that had passed every check marked it verified at least 604 800 000 milliseconds before. |
| RawArchive.RowIsStableWhileSweeping | lib/retention/rawPayload.ts:386-465 | While a removal is being decided nothing else changes that snapshot's row or archive row. |
| RawArchive.FaultIsHarmlessIff | lib/retention/rawPayload.ts:429-457 | Whatever happens to an object, no continuation loses a payload exactly when each snapshot stored under its key still has its payload with no removal pending, or what is left still decompresses to it. |
| RawArchive.FaultAllowedIsTheFrontier | lib/retention/rawPayload.ts:212-234 | The assumption on storage is the weakest one: an object may be hit arbitrarily exactly where the model allows it. |
| RawArchive.TimesShowGraceIff | lib/archive/repository.ts:169-187 | On every path after a removal the stored times keep showing the seven days exactly when at the removal no worker of the snapshot was past reading the payload and able to mark it. |
| RawArchive.LateMarkHidesGrace | lib/archive/repository.ts:169-187 | A reachable schedule from an empty store, with two workers of which one pauses before its mark, after which the row shows a verification later than the removal. |
| RawArchive.BackoffIsCappedDoubling | lib/archive/service.ts:48-56 | The retry delay doubles from 60 seconds per attempt and never exceeds an hour. |
| RawArchiveStore.SweepOnlyMovesToStorage | lib/retention/rawPayload.ts:296-384 | A whole sweep keeps every payload readable, live or from storage, and touches nothing but the payload columns of removed snapshots. |
| RawArchiveStore.RemovedStaysRemoved | lib/retention/rawPayload.ts:386-465 | A removed payload is not touched again by any later sweep. |
| RawArchiveStore.SweptExactly | lib/retention/rawPayload.ts:296-384 | A sweep removes exactly the candidates that pass every gate at its start, stamps their rows with its time, and leaves everything else alone. |
| RawArchiveStore.SweepMeans | lib/retention/rawPayload.ts:296-384 | Of the planned rows exactly those go that did not fail and pass every gate, each with a mark as old as required. |
| RawArchiveStore.Tables.RemoveOnePayload | lib/retention/rawPayload.ts:386-465 | Removes one payload and stamps its row exactly when all eight gates pass; otherwise leaves everything as it was, with the reason of the first gate that fails. |
| RawArchiveStore.Tables.Sweep | lib/retention/rawPayload.ts:296-384 | Without the lock nothing happens, a dry run and a missing provider remove nothing; otherwise exactly the planned rows go that do not fail and pass every gate, each with a mark at least seven days old and at least as old as requested; every planned row is counted once, and the removed counter is the number of payloads that went. |
| RawArchiveStore.Tables.ClaimNextArchive | lib/archive/repository.ts:107-157 | Claims and leases the first row of the queue that is pending or failed with its retry due, or whose lease has expired; never a verified row or one under an unexpired lease; none exactly when every row must wait. |
| RawArchiveStore.Tables.ArchiveClaimed | lib/archive/service.ts:70-163 | Upload, HEAD, GET and mark of one claimed archive end in verified exactly when every check passes, otherwise in a failure with its retry time, named by the first failing check; a decompression mismatch cannot occur behind a matching checksum. |
| ArchiveKey.KeyIdentifiesSnapshot | lib/archive/keys.ts:81-104 | Keys built from valid parts are equal exactly when snapshot id, fetch run, category, day and lower-cased checksum are: one object key per snapshot. |
| ArchiveKey.KeyReads | lib/archive/keys.ts:81-104 | A key is built exactly for two UUIDs, 64 hexadecimal digits and a known category, else the first problem is named; and it reads raw/v1/year/month/day/category/fetch run/snapshot-checksum.json.gz with the checksum in lower case. |
| Deletion.DeletionConserves | lib/retention/deletion.ts:89-132 | In every committed state across batches, failures, crashes, resumes and foreign inserts: archived rows left plus completed rows_deleted equal the manifest's row count, only archived rows were deleted, and every archived row left lies above the last checkpoint. |
| Deletion.NextKeeps | lib/retention/deletion.ts:95-123 | Every step of the executor or of another session keeps the conservation invariant. |
| Deletion.BatchKeeps | lib/retention/deletion.ts:98-111 | A batch transaction, committed or refused, keeps the conservation invariant. |
| Deletion.CountCheckIsIdentity | lib/retention/deletion.ts:103-104 | When the count check passes, the rows there plus the rows gone are exactly the archived rows: equal numbers leave no room for a stranger. |
| Deletion.SuccessMeansExactlyTheArchive | lib/retention/deletion.ts:124-131 | With no row left, the deleted rows are exactly the archived ones and their count is the manifest's. |
| DeletionStore.Table.Checkpoint | lib/retention/repository.ts:256-272 | Reads the newest completed batch, its cursor and the sum of completed rows_deleted. |
| DeletionStore.Table.RunBatch | lib/retention/deletion.ts:95-123 | One iteration: a committed page with its checkpoint, or a failed-batch record that leaves the rows alone; every committed state conserves the rows. |
| DeletionStore.Table.DeleteRunChildRows | lib/retention/deletion.ts:53-132 | Goes ahead exactly when nine gates pass, on the request's fields and the rows left and gone, and a refusal names the first that fails; blocked and dry runs write nothing; every state the call commits conserves the rows; success is reported only when exactly the archived rows are gone, and is reached when no batch fails unless another session inserted rows after the last batch, which the final count finds. |
| DeletionStore.RefusedByFirstGate | lib/retention/deletion.ts:60-87 | The nine gates decide, in order, and each refusal names the first that fails. |
| Graph.DeleteKeepsIntegrity | lib/retention/graph.ts:875-889 | Deleting rows nobody points at keeps every foreign key intact. |
| Graph.NothingPointsHere | lib/retention/graph.ts:832-871 | The delete order at work: when nothing outside holds the scope, no batch of any table is ever pointed at. |
| Graph.FinishedRunIsExact | lib/retention/graph.ts:832-873 | A finished run leaves no row of the family keyed to an allowlisted anchor and every other row where it was. |
| Graph.CompletionNeedsClosure | lib/retention/graph.ts:832-873 | With children deleted first, a run can only finish if no outside row pointed into the scope. |
| Graph.FamiliesDeleteChildrenFirst | lib/retention/graph.ts:97-228 | Every family's delete order puts children before parents; the only exception is the self-reference of fetch runs. |
| Graph.BattleScopeIsClosed | migrations/0014_create_battle_tables.sql:63-144 | With participants in teams of their own battle, every foreign key into the battle graph comes from the same battle's rows, so battles are always deletable. |
| Graph.WorkflowScopeIsClosed | lib/retention/graph.ts:311-340 | A planned workflow deletion can complete exactly when no crawl batch, aggregation run or ranking run names one of the runs, which the planner does not check. |
| Graph.FetchScopeIsClosed | lib/retention/graph.ts:342-374 | A planned fetch-run deletion is unobstructed, and can only complete, exactly when no detected change, entity snapshot or patch names one of the runs, none of which the planner checks. |
| Graph.PlannedWorkflowIsHeld | lib/retention/graph.ts:311-340 | An intact database in which the planner's check passes and an aggregation run still names the planned workflow run: the deletion is refused. |
| Graph.PlannedFetchIsHeld | lib/retention/graph.ts:342-374 | The same for a planned fetch run named by a patch, or by a detected change. |
| Graph.CompletionNeedsOutsideFree | lib/retention/graph.ts:832-873 | In whatever order the tables are drained, a finished run had no row outside the family pointing into the scope. |
| Graph.TeamsFirstIsRefused | lib/retention/graph.ts:107-109 | Why the order matters: an intact battle whose teams cannot be deleted before its participants. |
| Graph.KeyIdentifiesAnchors | lib/retention/graph.ts:528-531 | A matching archive key proves the family and that the allowlist is exactly the archived anchor set. |
| GraphStore.Database.DeleteScopedBatch | lib/retention/graph.ts:875-889 | One page of the scope above the cursor, deleted and committed unless the connection fails or a row still points at it. |
| GraphStore.Database.DrainTable | lib/retention/graph.ts:833-871 | Drains one table from the front until a short page, counts its whole scope, and never fails when the scope is closed and no fault occurs. |
| GraphStore.Database.DrainTables | lib/retention/graph.ts:832-873 | Drains the tables in the delete order and counts each. |
| GraphStore.Database.DeleteGraphBatch | lib/retention/graph.ts:806-873 | Goes ahead exactly when nine gates pass, and a refusal names the first that fails; every committed state is referentially intact; a finished run removed exactly the rows of the family's tables keyed to the allowlist, with the right count per table; without faults it finishes if the scope is closed, and it only ever finishes when no outside row points into the scope. |
| GraphStore.RefusedByFirstGate | lib/retention/graph.ts:806-830 | The nine gates decide, in order, and each refusal names the first that fails. |
| GraphStore.DrainedIsExact | lib/retention/graph.ts:832-873 | Row by row: gone exactly when its table is deleted from and it is keyed to the anchors; every other row unchanged, none new, and each count the number of rows that went. |
| GraphArchive.ArchiveThenVerify | lib/retention/graph.ts:543-681 | Whatever the database holds, an archive that was written passes every check of the verifier against its own manifest exactly when its anchors were given in the letter case they are stored in; otherwise the anchor check refuses it. |
| GraphArchive.OtherCaseIsRefused | lib/retention/graph.ts:543-660 | A stored row whose id is given in another letter case: the archive is written, and its own verification refuses it. |
| GraphArchive.VerifiedBytesAreTheArchive | lib/retention/graph.ts:638-647 | Bytes that verify against an archive's manifest are that archive's bytes. |
| GraphArchive.VerifiedMeansClosed | lib/retention/graph.ts:638-681 | Passing bytes hold the manifest's counts, anchor rows that are exactly the anchor ids, and no child row that points outside them. |
| GraphArchive.VerifiedIsAllChecks | lib/retention/graph.ts:638-681 | Bytes pass exactly when size, both checksums, gzip, JSON, versions, identity, distinct anchors, every table count, the anchor rows and every foreign key are as the manifest says. |
| GraphArchive.RefusedByFirstCheck | lib/retention/graph.ts:638-681 | A refusal names the first of the twelve checks that fails, and of the counted or child tables the first at fault: missing, miscounted, or with a row that points at no archived anchor. |
| GraphArchive.ArchiveHoldsTheDeletionScope | lib/retention/graph.ts:543-585 | Every row a deletion of the same anchors would remove is in the archive, unchanged. |
| GraphArchive.DeletedTablesAreArchived | lib/retention/graph.ts:97-214 | The tables a family deletes from are the tables it archives. |
| RetentionArchive.ReadAllChildRows | lib/retention/archive.ts:64-75 | Paging until an empty or short page reads all of the run's rows in strictly ascending id order. |
| RetentionArchive.ExportThenVerify | lib/retention/archive.ts:87-187 | What was exported passes every check against its manifest exactly when the live columns are the ones the verifier lists and the table belongs to the run's kind (an empty run needs only the first). |
| RetentionArchive.AddedColumnBreaksExport | lib/retention/archive.ts:164-167 | A migration that adds a column leaves every later export of every run unverifiable, refused at the schema check. |
| RetentionArchive.NarrowExportFails | lib/retention/archive.ts:164-167 | A concrete table with one row of the run whose export is refused by its own verification. |
| RetentionArchive.VerifiedBytesAreTheExport | lib/retention/archive.ts:143-152 | Bytes that verify against an exported manifest are the exported bytes and decode to the exported document. |
| RetentionArchive.VerifiedMeansConsistent | lib/retention/archive.ts:143-187 | Whatever the manifest, passing bytes hold exactly row_count rows of the run with the listed columns, ids strictly ascending between min_id and max_id. |
| RetentionArchive.VerifiedIsAllChecks | lib/retention/archive.ts:143-187 | Bytes pass exactly when size, both checksums, gzip, JSON, versions, identity, columns, counts, schema, rows and bounds are all as the manifest and the verifier's list say. |
| RetentionArchive.RefusedByFirstCheck | lib/retention/archive.ts:143-187 | A refusal names the first of the twelve checks that fails; if it is the rows, it is the first bad row that decides: other columns, an id that is none or came before, or else a foreign run or a wrong order. |
| RetentionArchive.CheckRowsMeansGood | lib/retention/archive.ts:168-182 | The row loop passes exactly the row lists with these columns and this run in strictly ascending id order. |
| RetentionArchive.ManifestCountsTheRun | lib/retention/archive.ts:104-141 | The manifest's row count is the number of the run's rows, and the document holds all of them. |
| RetentionArchive.ExportIsWhereDeletionStarts | lib/retention/deletion.ts:73-75 | A run untouched since its export satisfies the invariant deletion starts from. |
| RetentionArchive.ArchiveStore.ExportRunToArchive | lib/retention/archive.ts:87-141 | Stores object and, if its size checks out, manifest; with a manifest there already, changes nothing and succeeds exactly when the stored object still verifies. |
| RetentionArchive.ArchiveStore.VerifyArchivedRun | lib/retention/archive.ts:202-219 | Verified exactly when both independent reads pass; each pass leaves its evidence with the first failing check, and the number of passing reads is recorded; without a manifest nothing happens. |
| Eligibility.IdentifyHotTriples | lib/retention/eligibility.ts:102-118 | Accumulating, filtering, sorting and cutting yields min(k, complete triples) complete triples such that whatever complete triple has a run started after every run of a hot one is hot, and of two whose last runs started together the smaller id. |
| Eligibility.HotTriplesAreTheNewest | lib/retention/eligibility.ts:102-118 | Hot triples number min(k, complete triples) and precede every other complete triple in the sort order. |
| Eligibility.HotByStarts | lib/retention/eligibility.ts:102-118 | Hot exactly when complete (each scope present, every run succeeded) with fewer than k complete triples newer by the start times of their runs. |
| Eligibility.AggregationEligibleMeans | lib/retention/eligibility.ts:148-173 | An aggregation run is eligible exactly when it succeeded, belongs to none of the k newest complete triples, is named by no ranking run, has no unfinished workflow and is not held. |
| Eligibility.AggregationReasonsMean | lib/retention/eligibility.ts:148-173 | Each of the six block reasons is given exactly when its own condition holds, and a run is eligible exactly without any. |
| Eligibility.RankingEligibleMeans | lib/retention/eligibility.ts:175-208 | A ranking run is eligible exactly when it succeeded, is unpublished and not the newest success, lies before the window, has no unfinished workflow and is not held. |
| Eligibility.RankingReasonsMean | lib/retention/eligibility.ts:175-208 | Each of the five block reasons is given exactly when its own condition holds, and a run is eligible exactly without any. |
| Eligibility.LineageIsProtected | lib/retention/eligibility.ts:120-208 | Nothing a published snapshot rests on, no run of a complete triple that fewer than k others match in start time, no newest successful ranking run and no run inside the window is ever eligible. |
| Eligibility.ProtectionIsMonotone | lib/retention/eligibility.ts:148-208 | Adding holds or published snapshots never makes a run eligible. |
| Eligibility.MoreHotProtectsMore | lib/retention/eligibility.ts:102-118 | Raising the number of hot triples only protects more. |
| Eligibility.NewestSuccessIsMaximal | lib/retention/eligibility.ts:183-185 | The reduction finds the latest start among the succeeded ranking runs. |
| StableJson.StableStringifyIsCanonical | lib/hash.ts:9-24 | Two parsed JSON values print equally exactly when they are equal up to object key order once infinite numbers are read as null; for values without infinite numbers, exactly when they are equal up to key order. |
| StableJson.PayloadHashesIdentify | lib/hash.ts:26-28 | Under a collision-free hash two payload hashes agree exactly when the payloads do up to key order, infinite numbers read as null. |
| StableJson.InfinityPrintsAsNull | lib/hash.ts:10-12 | A list holding 1e999 and a list holding null differ and print alike. |
| StableJson.StablePrintsCanon | lib/hash.ts:9-24 | The function prints the plain JSON text of the value with every object's members in ascending key order. |
| JsonGrammar.StableTextReadsBack | lib/hash.ts:9-24 | Read by the grammar of RFC 8259 the text is one value with nothing behind it, equal to the printed one up to key order (infinite numbers read as null), with the keys of every object ascending by code units. |
| JsonGrammar.PrintRead | lib/hash.ts:10-23 | Reading plain JSON text gives back the very value, whatever follows it inside a text. |
| JsonGrammar.EscapeRead | lib/hash.ts:11-21 | Reading an escaped string by section 7 of RFC 8259 gives back the very string. |
| JsonGrammar.NumberTextReads | lib/hash.ts:10-12 | Which texts stand for numbers: digits, signs, points and exponents with a digit or a minus in front. |
| StableJson.PrintIsPrefixFree | lib/hash.ts:10-23 | JSON text is uniquely decodable, even with a separator or closing bracket behind it. |
| StableJson.CanonIsEquivalence | lib/hash.ts:18-22 | Two values have one key-sorted form exactly when they are equal up to key order. |
| StableJson.StableTextIsWellFormed | lib/hash.ts:26-28 | In the text every high surrogate is followed by a low one and every low one follows a high one, so hashing its UTF-8 encoding loses nothing. |
| Text.EscapeIsPrefixFree | lib/hash.ts:11-21 | String escaping as in section 7 of RFC 8259 is uniquely decodable: nothing inside can be taken for the closing quote. |
| Sorting.SortForgetsOrder | lib/hash.ts:19 | Sorting by any total order forgets the order of its input and nothing else. |
| Text.SortForgetsOrder | lib/hash.ts:19 | Sorting keys by code units forgets their order and nothing else. |
| BattleKey.KeyIgnoresOrder | lib/ingestion/battleId.ts:42-53 | Neither the order of teams nor the order of tags inside a team changes the key, whoever observed the battle. |
| BattleKey.KeyReads | lib/ingestion/battleId.ts:42-53 | The key text is time, mode and the keys of the teams that have one, between bars; a team's key is its raised tags between commas; both lists ascend by code units and lose nothing. |
| BattleKey.KeyIdentifiesBattle | lib/ingestion/battleId.ts:42-53 | For tags, time and mode free of the separators, keys agree exactly when time and mode agree and the teams are the same up to order. |
| Migration.PagePredicateAgrees | scripts/dataset-migration/model.ts:108-115 | The SQL page predicate selects the same rows as comparing cursors. |
| Migration.AllIsExact | scripts/dataset-migration/simulation.ts:13-21 | What is in range, in cursor order: exactly the rows above the lower and up to the upper cursor, strictly ascending. |
| Migration.PagesCoverExactlyOnce | scripts/dataset-migration/simulation.ts:13-21 | The pages up to a fixed watermark, concatenated, are exactly the rows in range, each once, in cursor order. |
| Migration.PagesAdvance | scripts/dataset-migration/progress.ts:35-63 | Every non-empty page passes the strict cursor-progress check; the empty page is "done". |
| Migration.WatermarkIsGreatest | scripts/dataset-migration/simulation.ts:9-11 | The watermark is the cursor of some row and no row lies above it. |
| Migration.LaterRowsAreInvisible | scripts/dataset-migration/simulation.ts:9-21 | Rows arriving above the watermark while paging change no page. |
| Migration.Migrator.ApplySimulated | scripts/dataset-migration/simulation.ts:32-39 | Inserts, matches, overwrites or refuses one row: afterwards the target holds its id and content, every other row is as it was, and it is refused exactly when the table is immutable and holds another id or content for the key. |
| Migration.Migrator.ApplyRows | scripts/dataset-migration/simulation.ts:32-39 | After a prefix of a page every row of it is in the target, nothing already migrated is lost, and a refusal proves a conflict. |
| Migration.Migrator.Sync | scripts/dataset-migration/simulation.ts:23-49 | Whatever pages fail after applying some rows and however often it restarts with overlap, the loop ends with the same migrated target; a divergence is reported exactly when an immutable table already held other facts. |
| RateBudget.BudgetHolds | lib/ingestion/rateBudget.ts:56-99 | In every reachable state windows open at least one length apart, no window grants more than the ceiling, ordinary callers leave the reserve alone, and no half-open interval of one window length sees more than twice the ceiling. |
| RateBudget.ThreeWindowsSpanMore | lib/ingestion/rateBudget.ts:56-66 | Slots granted in three different windows lie at least one window length apart. |
| RateBudget.RefusalMeansReserveSpent | lib/ingestion/rateBudget.ts:79-99 | A refused priority caller finds min(reserve, ceiling) priority slots granted in this window. |
| RateBudget.ReserveIsKeptIffItFits | lib/ingestion/rateBudget.ts:73-99 | On every run the reserve is fully available to priority callers exactly when it does not exceed the ceiling. |
| RateBudget.UndisturbedCaller | lib/ingestion/rateBudget.ts:79-99 | Elapsed windows reopen: a caller whose statements nothing comes between is granted a slot, after the window's end whenever its share is positive and before it whenever its share is not used up. |
| RateBudget.Budget.ResetWindowIfExpired | lib/ingestion/rateBudget.ts:56-66 | Resets the window only if it has elapsed and the row still shows the start that was read. |
| RateBudget.Budget.IncrementBelow | lib/ingestion/rateBudget.ts:91-98 | Takes a slot exactly when fewer than the ceiling are used. |
| RateBudget.Budget.TryConsumeBudget | lib/ingestion/rateBudget.ts:79-99 | An undisturbed call is read, reset and conditional increment of the protocol: allowed exactly when its share is positive after the window's end, or not used up before it, and the row counts it. |
| Pool.RunQueriesBounded | lib/dbConcurrency.ts:39-61 | Under every completion order each task starts once, in order, and finishes once; never more than max(1, concurrency) are unfinished, and exactly so many whenever one finishes while another waits; result i is task i's value. |

## Left out

- DeletionStore.Table.DeleteRunChildRows: rows that other sessions insert between two batches are covered by `Deletion.DeletionConserves` only.
- GraphStore.Database.DeleteGraphBatch: inserts by other sessions during the call and the per-batch deletion records are not modelled, and a deletion is not resumed after some anchors are gone, because the eligibility re-check stops it.
- RankingStore.Store.PublishPhase: the patch label, calculation time and limitation texts copied into the snapshot, and the evidence hash of an approval, are not modelled.
- RankingJob.Orchestrator.RunRankingRebuild: the last slice ends the job with its decision; what committing that decision does is modelled in `Publication` and `RankingStore`.
- Aggregation.Orchestrator.RunAggregation: the lock it holds is modelled in `Workflow`.
- RetentionArchive.ArchiveStore.ExportRunToArchive: the min/max timestamps of the manifest are not modelled; rows of the run do not change while it is exported.
- StableJson.StableStringifyIsCanonical: finite numbers are identified with the text JavaScript prints for them, so -0 and 0 are one number; `undefined` is not a JSON value.
- ArchiveKey.KeyIdentifiesSnapshot: the date's year, month and day are given as their digits; an invalid date is not modelled.
- `archiveGraphBatch` with a manifest already there, which only re-verifies the stored object, and its natural keys, source references and time range.
- Staging re-import of archives: temporary tables and comparison only, no state of its own beyond a flag the gates read.
- `runGraphRetention`, the family planners' time windows and the archive plans: single-table queries feeding the modelled operations.
- `writeTrendSummaries`: an upsert per aggregate row; deletion sees only how many rows it wrote.
- A failing task in `runQueriesBounded`, and `assertTupleProgress` and the watchdog of the migration's progress tracker.
- Two deletion executors on one run and table, and "verified is terminal" for archive rows: nothing in the code guarantees them.
- Fair selection of players to crawl, retries of API calls, monitoring, inventory checks, credentials, network clients and the user interface.
