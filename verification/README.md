# Hippo brain: verified models

Hippo's brain is a set of small protocols over shared SQLite tables. Each SQL transaction is one atomic
step, and several workers, a capture daemon and operator commands interleave. These Dafny modules model the
tables as maps and sets, give every transaction twice (as a function on the tables and as a method that
changes fields statement by statement and is proved to compute that function), and prove what every run keeps.

| file | what it covers |
|---|---|
| `Classification*.dfy` | the topic-classification lease queue: enqueue, claim, publish, fail, retry, backfill |
| `Agentic*.dfy` | agentic enrichment: claims, the content-hash watermark, node replacement, failure |
| `AutoMemory*.dfy` | auto-memory documents, revisions and the single projection node of each |
| `IndexLink*.dfy` | the cycle search and the acyclic graph of resolved index links |
| `DedupEntities*.dfy`, `DedupNodes.dfy` | the two merge migrations under their constraints |
| `Evaluation.dfy`, `GradedMetrics.dfy` | ranking metrics: NDCG, recall, reciprocal rank |
| `EvalLinkage*.dfy` | attributing a vanished line to a commit over a commit graph |
| `Jev.dfy` | the tolerances for rounded probability answers |
| `Segments.dfy` | cutting a session's entry stream into task segments |
| `Worktrees.dfy`, `JsonEscapes.dfy` | two text scanners: worktree stripping and JSON escape repair |
| `Common.dfy` | optional values, `ORDER BY ... LIMIT`, lists, row ids, string order |

Lease tokens, UUIDs and placeholder canonicals are fresh values; hashes are collision-free and stand for the
text they digest. Row ids are what SQLite gives an `INTEGER PRIMARY KEY` without AUTOINCREMENT, the largest
present plus one, so the id of a deleted row comes back. In the run theorems the environment (node edits, the
daemon's overwrites, clocks, crashes between a commit and what follows it, results that arrive late or twice)
is a step like any other.

Where the code does not do what it is for, the model keeps the code and the exact condition is proved:

* Tombstoning an auto-memory document raises a foreign key error exactly if its projection has chunks and has
  been labelled since, because the node's entity rows are not deleted first.
* A revision with no chunks is projected to a node that cannot be found again; such nodes are the only strays.
* A path that a document was renamed away from cannot be ingested anew, because the old identity is still taken;
  content that moved from a vanished file onto another document's path is refused; and so is a MEMORY.md that links a
  target twice, whenever its links are due to be rebuilt. A file that was not touched on disk skips the first two, so
  one of two equal files is accepted after the other vanished. The exact condition covers every constraint error.
* A file with a repeated target that is renamed to MEMORY.md raises after the rename was committed. If the rows
  written before the repeat are committed later, the index stays cut short and no later poll complains.
* Replaying a committed backfill page is not idempotent: a node that was skipped is asked for again, under a new
  revision if it cannot be read, and as new work if a source entity held one of its topics.
* The cycle search also answers yes on a diamond; its no is exact, and its yes is right exactly if the source
  is reachable.
* NDCG can exceed one exactly if an id repeats inside the cutoff.
* "Already enriched" accepts any link to a segment, so one linked only by workflow outcomes is dropped unpublished.
* Worktree stripping stops early on nested `.claude` segments.

## Model

| member | source | states |
|---|---|---|
| ClassificationStore.Store.ReplaceMemberships | brain/src/hippo_brain/classification.py:346-366 | refuses a topic name a source entity owns before changing anything, and otherwise leaves exactly the given topics owned |
| ClassificationStore.Store.Enqueue | brain/src/hippo_brain/classification.py:394-481 | one call of `enqueue_node` on the whole tables: unchanged, restored, requeued under the next revision, or skipped with its reason |
| ClassificationCases.EnqueueAsks | brain/src/hippo_brain/classification.py:394-481 | in every reachable state, the whole effect of one enqueue on a node's row and labels: nothing if the row stands, its labels restored if its answer is current and their names are free, and otherwise the next revision asked for, field by field |
| ClassificationStore.Store.ClaimPending | brain/src/hippo_brain/classification.py:496-562 | exhausted rows fail first, then due rows in queue order are re-enqueued, checked and leased one by one |
| ClassificationClaims.ClaimServesTheFirstDue | brain/src/hippo_brain/classification.py:496-562 | row by row: exactly the first `limit` due rows in queue order are reached; each whose node still reads as it did is leased for a minute and its claim handed out in that order, each other is asked for anew; overdue rows without an attempt left fail; every other row stays as it is |
| ClassificationClaims.LiveLeaseIsKept | brain/src/hippo_brain/classification.py:513-521 | in every reachable state no claim takes away a lease that is not overdue |
| ClassificationStore.Store.Apply | brain/src/hippo_brain/classification.py:589-630 | publishes under the lease, revision, input and recipe checks, or answers false or raises and changes nothing |
| ClassificationCases.ApplyGoes | brain/src/hippo_brain/classification.py:565-630 | an answer is refused exactly if it is not a share for each topic of the recipe by its model, answered false exactly if the lease is not held, in time and for what the node still reads, refused exactly if a name is taken, and otherwise published, with the row and labels it leaves |
| Classification.AcceptedIsTheBest | brain/src/hippo_brain/classification.py:602-630 | the accepted topics are distinct, publishable, at or above threshold, at most the maximum, ascending in (margin, name), and no excluded eligible topic precedes one of them |
| ClassificationCases.KeepsTheFirstRanked | brain/src/hippo_brain/classification.py:602-613 | the accepted topics are the first `max_topics`, by surplus over their thresholds and then by name, of those that are answered, reach their own threshold or eight tenths, and may be published |
| ClassificationRuns.EveryReachableRowIsOk | brain/src/hippo_brain/classification.py:346-630 | over every history, re-enrichment's wiped links included: a lease token exactly while processing, ready exactly with an applied revision equal to the requested one, attempts in budget, owned links equal to the accepted list when ready and empty otherwise |
| ClassificationRuns.ReenrichedReadsTheSame | brain/src/hippo_brain/classification.py:427-433 | a node whose links are wiped while its evidence stays gets its labels back in the same transaction, exactly unless a source entity holds one of their names by then |
| ClassificationRuns.LostLeaseStaysLost | brain/src/hippo_brain/classification.py:565-630 | once a claim's token holds no row, no later state of any run lets it publish or fail anything |
| ClassificationRuns.EachClaimPublishesOnce | brain/src/hippo_brain/classification.py:589-630 | no two publications of a run come from the same claim, each from an issued one, and each spends its token |
| ClassificationRuns.OvertakenClaimIsDead | brain/src/hippo_brain/classification.py:496-562 | when the same node is claimed again, the older claim can neither publish nor fail |
| ClassificationRuns.RequeuedClaimIsDead | brain/src/hippo_brain/classification.py:394-481 | re-enqueuing changed work kills every claim issued for it before |
| ClassificationRuns.FailedClaimEnds | brain/src/hippo_brain/classification.py:773-802 | failing a dead claim changes nothing; failing a live one ends it, keeps the work its row asks for, and lets it wait again exactly if the failure is transient and an attempt is left or refunded, not before the backoff or the asked delay |
| ClassificationCases.FailGoes | brain/src/hippo_brain/classification.py:773-802 | the row a failed claim leaves, field by field: a delay of one, two or four seconds by attempt, or the longer one asked for |
| ClassificationRuns.PublishesExactlyWhenCurrent | brain/src/hippo_brain/classification.py:565-630 | a valid response is published if and only if the claim's lease is live and unexpired on its revision and the node still reads as claimed with its topic names free |
| ClassificationRuns.ShownTopicsAreEarned | brain/src/hippo_brain/classification.py:633-677 | whatever `current_topics` shows in any reachable state was published by some claim for the input and recipe the node has now |
| ClassificationRuns.CurrentRowsAreShown | brain/src/hippo_brain/classification.py:633-677 | conversely, a ready row for the node's present input and recipe is shown |
| ClassificationCases.ReaderShowsIff | brain/src/hippo_brain/classification.py:633-677 | on any tables, labels are shown exactly if the row answers for the node as it reads now and its stored data pass every check, and then with their probabilities |
| ClassificationRuns.PublishedResultReadsBack | brain/src/hippo_brain/classification.py:614-677 | what a publication stores is read back unchanged in the state it leaves |
| ClassificationService.DueWorkIsShown | brain/src/hippo_brain/classification.py:496-677 | from any reachable state: a node among the first due rows, unedited and answered for validly within the minute, ends with exactly the accepted topics and their probabilities shown to readers, unless one of the names is taken |
| ClassificationRuns.MergeKeepsOrderIff | brain/scripts/dedup-knowledge-nodes.py:240-256 | merging a node into another keeps every row in order exactly if the survivor had all of its labels; otherwise nothing is shown for the survivor, and its next enqueue repairs a ready row |
| ClassificationRetry.RetryFailed | brain/src/hippo_brain/classification_cli.py:237-304 | the paged loop over a moving key resets exactly the first retriable rows in (updated, id) order, up to the limit, each once |
| ClassificationRetry.RetriesFirstIsUnique | brain/src/hippo_brain/classification_cli.py:237-304 | that set of rows is determined by the tables alone, whatever the page size |
| ClassificationRetry.RetriesTheEarliest | brain/src/hippo_brain/classification_cli.py:252-271 | it is exactly the failed rows of the recipe with one of the reasons, never published and still asking for what their node says, that fewer than `limit` others were updated before |
| ClassificationService.RetriedRowIsDue | brain/src/hippo_brain/classification_cli.py:270-277 | a row that was asked for again is due from then on with all its attempts, behind everything queued before, for the same input under the same revision; no other row changes |
| ClassificationReplay.EnqueueTwice | brain/src/hippo_brain/classification.py:394-481 | asking twice leaves the tables as asking once exactly unless work was wanted and the content does not parse or a current result's topic name is taken; in the second case, and only then, the second call queues work |
| ClassificationReplay.UnreadableIsSkippedAgain | brain/src/hippo_brain/classification.py:416-440 | content that does not parse is skipped at every one of any number of calls, each time under a new revision, whatever row there was |
| ClassificationReplay.TakenTopicIsQueuedAgain | brain/src/hippo_brain/classification.py:427-440 | a current result whose topic name was taken is skipped by the first call and queued by the second |
| ClassificationBackfill.BackfillCommand.Page | brain/src/hippo_brain/classification_cli.py:186-234 | one backfill call on the whole tables: a cursor of another recipe or node refused, every node of the page enqueued and the queued ones counted, the cursor advanced, and left alone if the process stops before the cursor write |
| ClassificationBackfill.PageStaysBelowWatermark | brain/src/hippo_brain/classification.py:688-699 | the inner page, bounded only by a count, never scans past the watermark and takes every open node up to its last one |
| ClassificationBackfill.PageTakesTheNextFew | brain/src/hippo_brain/classification_cli.py:197-205 | a page is exactly the nodes up to the watermark that fewer than `limit` others still to be visited come before |
| ClassificationBackfill.CursorOnlyAdvances | brain/src/hippo_brain/classification_cli.py:193-226 | over every history of calls, crashes, inserts, deletes and other work, a cursor that is not thrown away never moves back or passes its watermark, and a non-empty page makes progress |
| ClassificationBackfill.CompleteMeansVisited | brain/src/hippo_brain/classification_cli.py:205-219 | when completeness is reported, every surviving node up to the watermark has been enqueued under the cursor's recipe |
| ClassificationBackfill.InterruptedPageIsReplayed | brain/src/hippo_brain/classification_cli.py:222-226 | a page cut short before the cursor write is replayed over the same nodes to the same cursor and report except the queued count, which is that of the readable nodes the first pass skipped; the tables come out as before exactly if it skipped none |
| Agentic.PickedIn | brain/src/hippo_brain/claude_sessions.py:528-552 | one group's claim takes distinct free segments of that directory, at most the limit, and stops short of it only when none is left |
| AgenticStore.Store.ClaimPending | brain/src/hippo_brain/claude_sessions.py:478-591 | the loop over directories with a shrinking budget equals claiming group after group |
| AgenticStore.ClaimsFitTheBudget | brain/src/hippo_brain/claude_sessions.py:519-555 | a whole claim takes each free segment at most once, never more than the cap, and misses one only if the cap is reached |
| AgenticOutcomes.GroupTakesTheEarliest | brain/src/hippo_brain/claude_sessions.py:508-541 | a claim in one directory takes exactly the free segments that fewer than `limit` others come before, in order of start and queue, locks their rows, and changes nothing else |
| AgenticStore.Store.DropAlreadyEnriched | brain/src/hippo_brain/claude_sessions.py:611-645 | the batch loop retires exactly the claims whose hash equals the watermark and whose segment has a link, and keeps the rest in order |
| AgenticOutcomes.DropKeepsTheOthers | brain/src/hippo_brain/claude_sessions.py:611-645 | exactly the claims are dropped whose content the watermark stands for and whose segment has a link; their rows end done, the others are kept in order, and nothing else changes |
| AgenticStore.Store.SkipNotEligible | brain/src/hippo_brain/claude_sessions.py:648-690 | ineligible claims are retired, and the watermark follows only where the row still holds the claimed hash |
| AgenticOutcomes.SkipKeepsTheEligible | brain/src/hippo_brain/claude_sessions.py:648-690 | exactly the eligible claims are kept, in order; rows of the others end skipped, their segments closed on the content they hold if that was judged, and nothing else changes |
| AgenticStore.Store.ReleaseChanged | brain/src/hippo_brain/claude_sessions.py:813-837 | answers whether any member changed, and if so returns the batch's processing rows to pending |
| AgenticStore.Store.ReplacePrior | brain/src/hippo_brain/claude_sessions.py:741-810 | deletes the observation nodes linked only within the batch with their links and vectors, or refuses when vectors cannot be deleted |
| AgenticStore.Store.WriteNode | brain/src/hippo_brain/claude_sessions.py:840-965 | the write transaction: released, refused and rolled back, or prior nodes replaced by a new one linked to every member |
| AgenticOutcomes.WriteGoes | brain/src/hippo_brain/claude_sessions.py:840-965 | a write is released exactly if a member changed, else refused exactly if it replaces a node whose vector it cannot delete or names a missing or repeated segment, else publishes |
| AgenticOutcomes.WriteFinishesTheBatch | brain/src/hippo_brain/claude_sessions.py:919-960 | a publication ends its members' queue rows and marks their segments enriched, and changes no other row |
| AgenticStore.Store.MarkQueueFailed | brain/src/hippo_brain/claude_sessions.py:968-1037 | charges each member in turn unless the batch changed |
| AgenticOutcomes.FailuresChargeTheBatch | brain/src/hippo_brain/claude_sessions.py:968-1037 | after any number of failures of an unchanged batch each queued member has been charged that often and is failed exactly from its last retry on, waiting before, with its watermark closed on its content exactly then; no other row changes |
| AgenticReplacement.WriteReplaces | brain/src/hippo_brain/claude_sessions.py:741-810 | after a write the observation nodes linked only within the batch are exactly the new one, every other node keeps its type, links, labels and vector, and nothing dangles |
| AgenticReplacement.WriteClosesCurrent | brain/src/hippo_brain/claude_sessions.py:840-965 | a publication moves the watermark of exactly its members that have content, to the content their rows hold at that moment; a write that publishes nothing moves none |
| AgenticReplacement.ChangedBatchIsReleased | brain/src/hippo_brain/claude_sessions.py:813-837 | a write returns nothing if and only if some member's content changed; write and failure then do the same, touch only processing rows of the batch and charge no retry |
| AgenticReplacement.OneNodePerSegment | brain/src/hippo_brain/claude_sessions.py:589-591 | with one-segment batches, over any run, a segment's observation node is the one its last publication minted, and there is no other |
| AgenticReplacement.OverlappingBatchesAccrete | brain/src/hippo_brain/claude_sessions.py:741-760 | a segment written first with another and then alone keeps both nodes |
| AgenticReplacement.DroppedIsProjectedIff | brain/src/hippo_brain/claude_sessions.py:594-645 | with one-segment batches, a claim that passes the guard lacks an observation node exactly if all its segment's links come from workflow outcomes; if no outcome links the segment the guard is right, and its links lead to one node, the last one published |
| AgenticReplacement.DroppedWithoutNode | brain/src/hippo_brain/claude_sessions.py:594-645 | a run after which a segment with only a workflow outcome linked is dropped without ever having had a node |
| AgenticRuns.WatermarksAreEarned | brain/src/hippo_brain/claude_sessions.py:648-690 | with content overwritten at any step, a watermark always stands for content some worker read and then published, skipped or gave up on; and no link, label or vector dangles |
| AgenticRuns.GiveUpClosesExactly | brain/src/hippo_brain/claude_sessions.py:1000-1034 | failing an unchanged batch advances the watermark of exactly the members whose retries ran out, to the attempted hash |
| AgenticRuns.DroppedWasHandled | brain/src/hippo_brain/claude_sessions.py:611-645 | a claim dropped while its row is as it was read had its content dealt with before |
| Segments.ExtractSegments | brain/src/hippo_brain/claude_sessions.py:224-345 | the loop with its running state yields exactly the segments of the groups: index, last named working directory, first and latest time, prompts, texts, tool calls, entry and token counts |
| Segments.GroupsAreGreedy | brain/src/hippo_brain/claude_sessions.py:271-300 | the groups are the relevant entries in order, cut at every entry that calls for a cut and nowhere else |
| Segments.NothingIsLost | brain/src/hippo_brain/claude_sessions.py:233-345 | the segments' prompts, texts and tool calls concatenate to those of the whole stream |
| Segments.EntryBrings | brain/src/hippo_brain/claude_sessions.py:310-337 | one more entry adds its prompt, cut to five hundred characters, or its answers and tool calls, or nothing, and the tokens of user and assistant entries only |
| Segments.SizeIsLength | brain/src/hippo_brain/claude_sessions.py:316-331 | the running size that the budget is compared with is the number of characters the group holds |
| Segments.SegmentsAreGroups | brain/src/hippo_brain/claude_sessions.py:281-298 | every segment is that of one group, has content, and is numbered by how many such groups come before it |
| Segments.EndIsLatest | brain/src/hippo_brain/claude_sessions.py:301-302 | a segment ends with the latest time of its entries, or where it starts if none is later |
| Segments.PromptsStayClose | brain/src/hippo_brain/claude_sessions.py:279-283 | consecutive timed user entries of one segment are at most the task gap apart |
| Segments.GroupsEndWhenDue | brain/src/hippo_brain/claude_sessions.py:279-300 | a timed prompt stays in its group exactly while it comes within five minutes of the last one and the group is within its budget; the next group begins with one that does not |
| AutoMemoryStore.FindDeletable | brain/src/hippo_brain/auto_memory_lifecycle.py:139-174 | the scan and the popping loop find exactly the revisions to prune |
| AutoMemoryStore.Store.TryResolveRename | brain/src/hippo_brain/auto_memory_lifecycle.py:80-136 | a rename happens only for the single live document with that content whose file is gone, and records a revision without moving the current pointer |
| AutoMemoryStore.FittingStops | brain/src/hippo_brain/auto_memory_categories.py:221-253 | inserting link rows one by one stops at the first target that repeats, and only there |
| AutoMemoryStore.Store.RebuildLinks | brain/src/hippo_brain/auto_memory_categories.py:320-358 | an index has its links rebuilt when its content changed or it has none; it raises exactly on a repeated target, with the rows before it written |
| AutoMemoryStore.Store.IngestFile | brain/src/hippo_brain/auto_memory_ingest.py:130-420 | skip an untouched file, else refuse, rename, touch, or add a revision with its queue row and current pointer, bring the index links up to date, then prune; what raises inside a transaction is rolled back, and what raises outside keeps what was committed |
| AutoMemoryRecords.IngestRecords | brain/src/hippo_brain/auto_memory_ingest.py:242-420 | in every reachable state, a successful ingest of new content makes it the current revision of the document here, numbered above all earlier ones, and queues it with the document pending, except for the probe, which is ready at once; no other document's pointers move, and any other ingest moves none |
| AutoMemoryRecords.CurrentContentIsQueued | brain/src/hippo_brain/auto_memory_ingest.py:366-383 | in every reachable state each document whose current revision holds content has a queue row for it, unless it is the probe's |
| AutoMemoryStore.Store.TombstoneDocument | brain/src/hippo_brain/auto_memory_lifecycle.py:242-309 | withdraws the projection found through chunk links and appends a removal revision, or raises |
| AutoMemoryOutcomes.TombstoneGoes | brain/src/hippo_brain/auto_memory_lifecycle.py:242-309 | everything a burial leaves: nothing for a buried document; refused if the node its chunk links lead to is labelled; else that node and its links gone and a removal numbered above all earlier revisions |
| AutoMemoryStore.Store.ReconcileMissingSource | brain/src/hippo_brain/auto_memory_lifecycle.py:312-339 | a missing source is marked, then tombstoned when confirmed |
| AutoMemoryIndex.LinkRowsNeverDangle | crates/hippo-core/src/schema/auto_memory_taxonomy.sql:19-34 | in every reachable state each link row names a document and a revision of it that is still there |
| AutoMemoryIndex.ExtendedRows | brain/src/hippo_brain/auto_memory_categories.py:207-254 | new content of an index leaves exactly its own targets as link rows of its document, all under the new revision; of any other row only those whose revision was pruned go |
| AutoMemoryIndex.UntouchedIff | brain/src/hippo_brain/auto_memory_ingest.py:152-172 | a file is taken for untouched exactly if the first active document with its path, time and size, in its repository if one is configured, was read from the same content |
| AutoMemoryTheorems.AbsenceIsConfirmed | brain/src/hippo_brain/auto_memory_lifecycle.py:312-339 | the first absence of a document only marks it unavailable if more than one is asked for; otherwise it is buried, with a removal as its new current revision, unless that raises; a buried one stays as it is |
| AutoMemoryStore.Store.PublishResult | brain/src/hippo_brain/auto_memory.py:270-399 | minting and linking before deleting the superseded node comes to the same tables as withdrawing first; an outdated result only retires its queue row |
| AutoMemoryOutcomes.PublishGoes | brain/src/hippo_brain/auto_memory.py:270-399 | which way a publication goes and everything it leaves: refused without its revision; only retired if its document has moved on; refused if the node it replaces can be found and vectors are out of reach; else one node for another, with its chunk links, its pointer and its queue row |
| AutoMemoryOutcomes.ClaimMarks | brain/src/hippo_brain/auto_memory.py:88-183 | claiming marks the rows it takes and the documents they are current for, and nothing else |
| AutoMemoryTheorems.FailuresKeepTheProjection | brain/src/hippo_brain/auto_memory.py:402-424 | however often enriching a revision fails, nodes, links, labels, revisions and pointers stay, its queue row is charged once each time and given up exactly from the fifth charge on, and only the document it is current for is marked, stale if it has a projection and failed if not |
| AutoMemoryTheorems.PruneKeepsTheNewest | brain/src/hippo_brain/auto_memory_lifecycle.py:153-182 | pruning spares current and active, removes all that is too old, drops young revisions lowest number first, only down to the bound, and exceeds the bound only with protected ones |
| AutoMemoryTheorems.CurrentNumberOnlyGrows | brain/src/hippo_brain/auto_memory_ingest.py:319-383 | over any run a document's current pointer never disappears, and when it moves its revision number strictly increases |
| AutoMemoryTheorems.ActiveNumberNeverGoesBack | brain/src/hippo_brain/auto_memory.py:270-395 | over any run the non-null active revision numbers never decrease |
| AutoMemoryTheorems.LateResultChangesNothing | brain/src/hippo_brain/auto_memory.py:270-299 | a result for a superseded, tombstoned or pruned revision, however late, changes no document, node, link or label |
| AutoMemoryTheorems.PublishesIffCurrent | brain/src/hippo_brain/auto_memory.py:270-356 | a claimed result is published if and only if it is for the current revision and the replaced node, if it can be found, can lose its vector |
| AutoMemoryTheorems.NodesAreActiveOrUnfindable | brain/src/hippo_brain/auto_memory.py:333-372 | in every reachable state the nodes are the active projections plus exactly the chunkless ones that were superseded or tombstoned, and chunk links are exactly those of active revisions |
| AutoMemoryTheorems.OneProjectionIffNoStray | brain/src/hippo_brain/auto_memory_lifecycle.py:242-255 | each document owns exactly its active revision's node if and only if every promotion without chunks is still active |
| AutoMemoryTheorems.BlankFileLeavesStray | brain/src/hippo_brain/auto_memory_lifecycle.py:242-255 | any file without chunks, ingested, enriched and removed, leaves its node behind |
| AutoMemoryTheorems.TombstoneRaisesIffLabelled | brain/src/hippo_brain/auto_memory_lifecycle.py:242-309 | tombstoning raises if and only if the active revision has chunks and its node is labelled; otherwise the projection is withdrawn and the number grows |
| AutoMemoryTheorems.LabelledFileStays | brain/src/hippo_brain/auto_memory_lifecycle.py:256-282 | any file with chunks, ingested, enriched and labelled, cannot be tombstoned |
| AutoMemoryRefusals.IngestRefusedIff | brain/src/hippo_brain/auto_memory_ingest.py:152-268 | in every reachable state an ingest raises exactly in these cases: an untouched index without link rows repeats a target; or a file that is read moved here from a vanished one while this path has a document, or did not move, finds no document, and the one created here has moved away; or it is an index that repeats a target and whose links are due |
| AutoMemoryRefusals.RaisedLeaves | brain/src/hippo_brain/auto_memory_ingest.py:204-240 | an ingest that raises leaves the tables as they were, except that a move onto a free path stays, and that link rows written outside a transaction stay if they are committed later |
| AutoMemoryPaths.IdentityIsBirthplace | brain/src/hippo_brain/auto_memory_ingest.py:199-201 | over any run a document keeps the identity of the path it was created under |
| AutoMemoryPaths.BornWhereItStands | brain/src/hippo_brain/auto_memory_ingest.py:253-268 | only an ingest creates a document, and its identity is then the path it stands at |
| AutoMemoryRefusals.RenameStrandsOldPath | brain/src/hippo_brain/auto_memory_lifecycle.py:104-108 | after a rename away from the path of creation, the old identity refuses whatever is read at that path exactly if it is not itself a rename from a vanished file |
| AutoMemoryPolls.OldPathIsRefused | brain/src/hippo_brain/auto_memory_lifecycle.py:98-108 | a run for any renamed file: at the old path new content is refused, and so is the old content while the renamed file exists |
| AutoMemoryPolls.SavedOverIsRefused | brain/src/hippo_brain/auto_memory_lifecycle.py:98-108 | a run for any two tracked files: the content of a vanished one saved over the other is refused |
| AutoMemoryPolls.TwinIsAcceptedIffUntouched | brain/src/hippo_brain/auto_memory_ingest.py:152-190 | a run for any two tracked files with the same content, the first of which vanishes: reading the second is accepted and changes nothing if it was not touched on disk, and refused otherwise |
| AutoMemoryPolls.FirstIngestIsRefusedIff | brain/src/hippo_brain/auto_memory_categories.py:225-253 | the first ingest of all is refused exactly for a MEMORY.md that links a target twice |
| AutoMemoryPolls.MoveOntoIndexStays | brain/src/hippo_brain/auto_memory_ingest.py:212-241 | a run for any file with a repeated target that is renamed to MEMORY.md: the ingest raises and the rename stays; the next poll passes with the links cut short if the rows were committed, and raises again if not |
| IndexLinks.WouldCreateCycle | brain/src/hippo_brain/auto_memory_categories.py:122-143 | on every finite graph the search terminates and answers yes exactly if the target reaches the source or is rejoined by two walks |
| IndexLinks.NoIsExact | brain/src/hippo_brain/auto_memory_categories.py:122-143 | when the answer is no, the source is unreachable from the target |
| IndexLinks.YesIsRightIffReachable | brain/src/hippo_brain/auto_memory_categories.py:122-143 | adding the edge closes a cycle exactly if the target reaches the source, so a yes is right only then |
| IndexLinks.DiamondIsRefused | brain/src/hippo_brain/auto_memory_categories.py:122-143 | a diamond that closes no cycle is refused |
| IndexLinks.NewEdgeKeepsAcyclic | brain/src/hippo_brain/auto_memory_categories.py:109-114 | an edge whose source the target does not reach keeps an acyclic graph acyclic |
| IndexLinkTable.ResolvedLinksNeverCycle | brain/src/hippo_brain/auto_memory_categories.py:210-301 | after any sequence of rebuilds and retries, with documents changing in between, the resolved links are acyclic |
| IndexLinkTable.LinkTable.ReconcileIndexLinks | brain/src/hippo_brain/auto_memory_categories.py:210-254 | rebuilding an index replaces its links by the classified ones in order, or raises on a repeated target |
| IndexLinkRows.RebuildClassifies | brain/src/hippo_brain/auto_memory_categories.py:78-119 | a rebuild keeps the rows of every other document and adds one per href: external exactly if it leads elsewhere, unresolved exactly if no active document answers, ambiguous exactly if several do, and else resolved exactly if the only one is not the source, does not reach it and is not rejoined by two walks, circular otherwise, against the graph of the rows before it |
| IndexLinkRows.OnlyTheIndexIsRebuilt | brain/src/hippo_brain/auto_memory_categories.py:207-254 | only MEMORY.md is rebuilt, and it raises, changing nothing, exactly if two hrefs have the same target |
| IndexLinkTable.LinkTable.RetryUnresolvedLinks | brain/src/hippo_brain/auto_memory_categories.py:258-301 | every unresolved link whose file is present is settled in turn against the graph as it then is |
| IndexLinkRows.RetrySettles | brain/src/hippo_brain/auto_memory_categories.py:258-301 | a retry leaves every row alone that is not due, and settles each due one in turn, in the same terms, against the graph as it then is |
| IndexLinkRows.NothingDueIsLeft | brain/src/hippo_brain/auto_memory_categories.py:270-301 | afterwards no unresolved row is left whose file is present and whose active document is unique |
| DedupEntities.DedupedIsCanonical | brain/scripts/dedup-entities.py:94-211 | afterwards every row stores the key the rules give it, no two rows share one, none is lost, and each node is linked to exactly the keys its old links stand for |
| DedupEntities.OldestStays | brain/scripts/dedup-entities.py:75-98 | the row that stays of a group is its oldest, by age and then by id; rows without a canonical do not clash |
| DedupEntities.SecondRunIsIdle | brain/scripts/dedup-entities.py:94-112 | a second run changes nothing exactly if displaying and canonicalizing each displayed name changes nothing |
| DedupEntitiesRun.GroupRows | brain/scripts/dedup-entities.py:94-98 | grouping puts every row in the group of its recomputed key, oldest first, each once |
| DedupEntitiesRun.Plan | brain/scripts/dedup-entities.py:100-112 | merges are the groups of several rows, rebrands the lone rows that no longer store what the rules give |
| DedupEntitiesRun.Tables.Merge | brain/scripts/dedup-entities.py:153-173 | deleting conflicting links first, re-pointing never violates the link key, and the row delete fails only if another table refers to it |
| DedupEntitiesRun.Tables.ParkAll | brain/scripts/dedup-entities.py:193-204 | parking updates each row once, and the unique constraint holds after every update |
| DedupEntitiesRun.Tables.SettleAll | brain/scripts/dedup-entities.py:206-212 | settling updates each row once, in whatever order, and the unique constraint holds after every update |
| DedupEntitiesRun.Tables.Run | brain/scripts/dedup-entities.py:149-218 | the whole transaction raises, and rolls back, exactly if another table refers to a duplicate, and otherwise computes the merged tables; the unique constraint holds after every statement |
| DedupEntitiesRun.OnePassCollides | brain/scripts/dedup-entities.py:139-147 | a single update pass would collide on tables whose final state has no collision |
| DedupNodes.NoChains | brain/scripts/dedup-knowledge-nodes.py:141-186 | no survivor is itself a loser |
| DedupNodes.DedupKeepsEveryLink | brain/scripts/dedup-knowledge-nodes.py:141-257 | identities end up pairwise distinct and none is lost, each table gives each identity the union of its nodes' keys, no vector is left without a node, and a second run is idle |
| DedupNodes.TheLeastStay | brain/scripts/dedup-knowledge-nodes.py:141-257 | exactly the least id of each identity stays, and a reachable vector table loses the vectors of the others and no more |
| DedupNodes.RefusedIff | brain/scripts/dedup-knowledge-nodes.py:219-258 | a run is refused, and changes nothing, exactly if there is something to merge and vectors cannot be deleted or a node link dangles |
| DedupNodes.Tables.Run | brain/scripts/dedup-knowledge-nodes.py:238-262 | the loop over the pairs, in whatever order, computes the merged tables |
| Evaluation.NdcgAtK | brain/src/hippo_brain/evaluation.py:66-84 | the computed metric is the ratio of discounted sums of the returned and the ideal order |
| Evaluation.PrefixDominates | brain/src/hippo_brain/evaluation.py:77-81 | the best order's first k grades sum to at least those of any k distinct ids |
| Evaluation.DominatedDcg | brain/src/hippo_brain/evaluation.py:77-81 | for any positive non-increasing discount, a prefix-dominated list has at most the best list's discounted sum |
| Evaluation.NdcgIsNormalized | brain/src/hippo_brain/evaluation.py:66-84 | with non-negative grades and distinct ids in the cutoff, NDCG lies between zero and one whenever it is defined |
| Evaluation.BestRankingScoresOne | brain/src/hippo_brain/evaluation.py:66-84 | returning the ids by descending grade scores exactly one |
| Evaluation.NormalizedIffDistinct | brain/src/hippo_brain/evaluation.py:66-84 | NDCG stays at most one for all grades if and only if no id repeats inside the cutoff |
| Evaluation.RecallIsCoverage | brain/src/hippo_brain/evaluation.py:37-48 | with distinct ids recall is the share of relevant ids found, and one exactly if none is missing |
| Evaluation.Mrr | brain/src/hippo_brain/evaluation.py:51-63 | the reciprocal of the first relevant rank, zero exactly if nothing relevant is returned, undefined exactly if nothing is relevant |
| GradedMetrics.GradedRetrievalMetrics | brain/src/hippo_brain/evaluation.py:87-126 | raises exactly on repeats, a bad cutoff or a bad grade; on a fully judged pool every score is a fraction, recall grows with the cutoff, and a hit means positive recall or the empty id found; recall and rank are NaN exactly if only the empty id is relevant |
| GradedMetrics.GradesCount | brain/src/hippo_brain/evaluation.py:103-117 | every grade gains one less than its power of two, and is relevant exactly if that is at least three |
| GradedMetrics.UnjudgedAre | brain/src/hippo_brain/evaluation.py:102-107 | the unjudged results are exactly the returned ids without a grade, each counted once |
| EvalLinkage.WalkCommits | brain/src/hippo_brain/eval_linkage.py:285-327 | the walk with its running state reaches the verdict defined by the first step that fixes or cannot be read |
| EvalLinkage.FindFix | brain/src/hippo_brain/eval_linkage.py:238-327 | still there exactly if HEAD has the line and deleted exactly if HEAD lacks the file; an observed fix lacks the line and descends from a commit that held it, an inferred one leaves no ref with the line, and an error means some object cannot be read |
| EvalLinkageInputs.JudgedFrom | brain/src/hippo_brain/eval_linkage.py:156-175 | which history is judged, and whether guarded, for each combination of HEAD, the reviewed commit, the merge base and the last commit before the review |
| EvalLinkageInputs.DivergentReviewIsGuarded | brain/src/hippo_brain/eval_linkage.py:303-327 | for a reviewed commit that is not in HEAD's history, an observed fix is not older than the review, and one is inferred only once no branch contains the reviewed commit |
| EvalLinkageInputs.ObservesTheFirst | brain/src/hippo_brain/eval_linkage.py:282-312 | where objects can be read, the walk observes exactly the first commit that takes the line away, and otherwise answers by whether the line was still there |
| EvalLinkageInputs.NothingUnreadableIsSkipped | brain/src/hippo_brain/eval_linkage.py:282-312 | a step that needs an object that cannot be read, before any that takes the line away, makes the job raise |
| EvalLinkageInputs.OnlyUnreadableRaises | brain/src/hippo_brain/eval_linkage.py:276-330 | the job raises if the start of the walk cannot be read, and never unless the start, a walked commit, a parent of one or a branch tip cannot be |
| EvalLinkageInputs.InfersExactly | brain/src/hippo_brain/eval_linkage.py:313-330 | a commit is inferred exactly if it is the first in time that has the file, no branch holds the reviewed commit and no tip the line; every other answer names what is in the way |
| EvalLinkage.ObservedFixIsReal | brain/src/hippo_brain/eval_linkage.py:260-312 | an observed fix has the file without the line, descends from a commit that held it, is the first fixing step, is not before the review on a divergent branch, and HEAD lacks the line |
| EvalLinkage.InferredFixIsGuarded | brain/src/hippo_brain/eval_linkage.py:313-327 | an inferred fix is the first walked commit with the file from the review on, no branch tip holds the line, the reviewed branch is gone if divergent, and otherwise the walk never held the line |
| EvalLinkage.LinearHistoryIsExact | brain/src/hippo_brain/eval_linkage.py:285-312 | on a linear history a fix is observed exactly if some commit held the line, and it is then the first commit after that whose file lacks it |
| EvalLinkage.FixedIsLinear | brain/src/hippo_brain/eval_linkage.py:285-312 | a two-commit repository that meets every hypothesis of the two statements above, and its verdict |
| Jev.RoundedChoiceIsAccepted | brain/src/hippo_brain/jev.py:119-127 | every distribution rounded to hundredths passes the sum check, and a most probable option passes the highest-choice check |
| Jev.RoundedScoreIsAccepted | brain/src/hippo_brain/jev.py:128-133 | and the expected score, rounded on its own, passes the score check |
| Jev.SumToleranceIsTight | brain/src/hippo_brain/jev.py:119-120 | eight equal options rounded half up use the whole sum tolerance |
| Jev.ChoiceCheckIsExact | brain/src/hippo_brain/jev.py:121-126 | on values that are hundredths the choice check accepts exactly the highest options |
| Jev.DistributionCheckIsExact | brain/src/hippo_brain/jev.py:108-120 | values are accepted exactly if each is a share and their sum is off one by at most half a hundredth per value and a billionth |
| Jev.ExpectedLevel | brain/src/hippo_brain/jev.py:130 | the expected score of a certain level is that level, and expectation is additive |
| Jev.ScoreCheckIsExact | brain/src/hippo_brain/jev.py:128-133 | a score answer is accepted exactly if it lies on the scale and is off the expected score by at most the tolerance |
| Jev.ChoiceAnswerIsExact | brain/src/hippo_brain/jev.py:121-127 | a choice answer is accepted exactly if it is an option that no other exceeds by more than a thousandth |
| Worktrees.SubIsPass | brain/src/hippo_brain/entity_resolver.py:53-64 | substituting on the characters is one pass over the segments that skips a triple right after a dropped one |
| Worktrees.StripWorktreePrefix | brain/src/hippo_brain/entity_resolver.py:133-148 | the loop with its early exit is the bounded number of substitutions |
| Worktrees.PassesOnlyDrop | brain/src/hippo_brain/entity_resolver.py:133-148 | every pass deletes whole worktree triples and nothing else |
| Worktrees.PassLowersPairs | brain/src/hippo_brain/entity_resolver.py:141-147 | a pass that changes a path without doubled `.claude` segments lowers the number of worktree pairs |
| Worktrees.PassLowersTrees | brain/src/hippo_brain/entity_resolver.py:141-147 | a pass that changes any path lowers the number of `worktrees` segments that have something after them |
| Worktrees.StripReachesFixpoint | brain/src/hippo_brain/entity_resolver.py:133-148 | where no two adjacent segments are both `.claude`, or at most one `worktrees` segment more than the count has something after it, the counted passes end with no worktree triple left |
| Worktrees.NestedWorktreeSurvives | brain/src/hippo_brain/entity_resolver.py:142-148 | a path with doubled `.claude` segments whose result still names a worktree |
| JsonEscapes.RepairDecodes | brain/src/hippo_brain/enrichment.py:258-274 | the repaired text is well escaped, and decodes to the original's escapes with each lone backslash literal |
| JsonEscapes.RepairIsIdentityIffWellEscaped | brain/src/hippo_brain/enrichment.py:258-274 | repair leaves text alone if and only if it was well escaped |
| JsonEscapes.RepairTwiceIsOnce | brain/src/hippo_brain/enrichment.py:258-274 | repairing twice changes nothing more |
| JsonEscapes.BackslashGoes | brain/src/hippo_brain/enrichment.py:258-274 | a backslash is kept exactly if one of eight characters or `u` and four hexadecimal digits of either case follow; any other is doubled |
| JsonEscapes.UnitReadsBack | brain/src/hippo_brain/enrichment.py:258-274 | every UTF-16 unit escaped in four hexadecimal digits survives the repair and is read back as that unit, whatever follows |

## Left out

- SQL text, connections, schema probes, file locks and telemetry: each `BEGIN IMMEDIATE` block is one step.
- LLM, embedding and Jev calls, HTTP and MCP servers, command lines, prompts and rendering.
- The Rust daemon, the watchdog and the reaper are environment steps that may overwrite, requeue or unlock any row at any time.
- `_claim_gate`, the enabled flag's configuration and `schema_ready`: the schema is present and the caller passes the flag.
- `claim_pending_memories`: which rows a claim takes and in what order is free; any claimable set may be taken.
- `_drop_already_enriched_claude_segments`: the node check and the update of one segment are one step, and claiming one working directory is one step.
- `upsert_entities`, project attribution, taxonomy categories and the classification enqueue at the end of a write: rows of other tables are opaque labels.
- `finalize_superseded_revision`, redaction and chunking: a revision keeps a digest and a number of chunks.
- Of ingest: filename categories, source health, and errors of reading the file. Where several documents match one stamp, in different repositories, the one with the least id is taken.
- ClassificationRuns.EveryReachableRowIsOk: the node-merge migration is not a step of the runs; MergeKeepsOrderIff says when it would keep the rows in order.
- AgenticReplacement.OneNodePerSegment: the runs leave out the node-merge migration, after which one node can observe two segments and, as for overlapping batches, stays when one of them is written again.
- `reconcile_configured_sources`, `revision_retention_from_config` and the polling loops: plain iteration.
- `_normalize_href`, path resolution under the memory directory and markdown link extraction: an href comes classified as inside or elsewhere, and a text with the target paths of its links.
- Vectors in auto-memory: only whether they can be reached. When tombstoning without sqlite-vec the code leaves the vector behind, which this model does not show.
- Statistics, dry runs and logging of the two migrations; rows created at the same instant are taken in id order.
- DedupNodes.RefusedIff: of the foreign key check over the whole database only the node links are modelled, so a run that some other dangling row stops is not shown as refused.
- Git itself: the merge base, the path-limited walk and ancestry are given; failures of git commands other than a missing object are not modelled.
- `write_verdicts`, PR notes and the hourly loop of the linkage job.
- Exact floating point and `log2`: reals and any positive non-increasing discount.
- `source_diversity`, `near_duplicate_density`, `summary_coherence`, bootstrap intervals, decision rules and lesson counters: they would add only easy members.
- `_chunk_events`, `claim_pending_events_by_session`, `canonicalize` beyond worktree stripping, and the shell-event queue: the same shapes as the agentic queue and the segmenter, or a parameter.
- Worktrees.StripReachesFixpoint: paths with doubled `.claude` segments and more `worktrees` segments than the count allows for are left open; some of them are stripped as well, and no exact criterion short of running the passes is given.
- EvalLinkage.LinearHistoryIsExact: stated for linear, readable histories that contain the reviewed commit, because a path-limited walk over merges is given, not computed.
- Segments: branch names and the session metadata that every segment copies; a usage block is a number of tokens.
