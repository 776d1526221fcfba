# Kaizen record plane: model and proofs

Kaizen keeps agent work in a local database: append-only event logs, hash-chained revisions, embedding
indexes, snapshots of skill packages. This project models the operations that write those tables as
steps over a state, and the algorithms beside them, and proves what holds over whole runs. Each state
step is a method whose contract states the whole new state as a function of the old one, and the laws
are lemmas about that function and about every sequence of steps. Check it with
`dafny verify dfyconfig.toml`.

## What is proved, by area

- **Orchestration ledger** (`Reduction`, `Ledger`, `LedgerLaws`, `Histories`, `Gates`). Run state is a fold
  of an event log. It does not depend on delivery order; logs are numbered 1..n under duplicate
  deliveries; the cached columns agree with the fold in every reachable state; each operation is accepted
  or refused exactly as the log says, and one finalization closes a run to T8 for good; the completion
  gate and the session digest count exactly the open spans of the live runs. What a `child_leak` proves
  about the log is stated, and that it is reachable.
- **Clustering** (`Clusters`). In-place union-find with path halving computes graph reachability, and its
  output is the only one that meets the contract.
- **Chunking and fusion** (`Chunking`, `Fusion`, `Text`). Exact offsets, one chunk for each
  non-whitespace character, one chunk for a text within the cap, the count bound, the forced greedy
  merge; rank fusion that forgets list order and keeps dominance.
- **Search and titles** (`Like`, `Titles`). Escaped LIKE is substring search; titles have a normal form
  that one pass does not always reach.
- **Transactions** (`Retry`, `Sessions`). One commit at most, each result traced to the attempt that gave
  it, a back-off budget used up exactly by exhaustion, ownership that moves one epoch at a time, one
  decision per approval.
- **Revisions** (`Records`). Hash chains intact under stale reads; Q2 and W2 behind the gate.
- **Migration** (`Migration`). Nothing is lost in any run; the exact condition for denial; for all roots
  but a listed directory's `evals`, a run that is not denied settles every surface, verifies, and leaves a
  second plan that only keeps stubs.
- **Skill snapshots** (`SkillContexts`, `Snapshots`, `SnapshotStatus`). The writer against the integrity
  verifier, the exact condition under which they agree, and what `current` implies.
- **Smaller machines** (`ModelIndex`, `FollowUps`, `Dco`). Activation means coverage, and exactly when the
  separate accesses of its commands break that; the queue is FIFO; sign-off lines parse uniquely and the
  verdict names exactly the unsigned commits.

`Orders` holds stable sorting and its uniqueness laws, `Wrappers` the option and result types.

## Where the code and what is said of it differ

The model follows the code.

- A comment (kaizen_components/agent_runs.py:243-244) says a leak only comes from crashes or data older than the gate. T6
  never asks whether a run is terminal, so a child opened after a clean success leaks
  (`Histories.LeakReachable`), and T6 itself accepts a success finalization over an open child, past the
  gate (`Histories.LeakWithoutGate`). `Histories.DeliveryLeaksIff` says exactly which deliveries leak. A
  later failing finalization event hides a leak (`Reduction.LastFinalizationWins`).
- Canonicalising a title is not idempotent: a cut that falls behind a blank leaves the blank
  (`Titles.CanonicalTwice` gives the exact case).
- An applied skill snapshot fails its own verification, and its plan is never a no-op again, exactly when
  two names that fold alike were recorded in descending order (`Snapshots.ApplyThenVerify`).
- Coverage at activation rests on the chunks a back-fill listed still being there when it inserts. It
  lists them before its transaction, and the count comparison can then be met by embeddings of chunks that
  are gone: exactly when they make up for those that are bare (`ModelIndex.StaleBackfillMisleadsIff`).
- "The active index is never prunable" (kaizen_components/model_index.py:126) holds of the model the command activated or saw
  active. The deletion is a later transaction, and takes the index of the model active by then exactly if it
  was planned earlier (`ModelIndex.DeletionLosesActiveIff`, with a run in `ModelIndex.RetentionsRace`).
- An update writes back the fields it did not name as it read them before its transaction. Such a field
  survives exactly if nobody changed it in between (`Records.StaleFieldsReturn`); two updates of one head
  lose a body (`Records.ConcurrentUpdateLost`). The chain stays intact all the same.
- Migration over overlapping roots stops half-way with a denial exactly if a sibling is to be relocated
  twice (`Migration.DeniedIffRelocatedTwice`); the backup copies exist then, but the manifest that lists
  them is never written (`Migration.Disk.Apply`). It settles in a state that does not verify where a root is
  the `evals` of a directory that stays listed (`Migration.EvalsRootNeverSettles`).
- Docstrings in kaizen_components/migration_learning.py say that walk errors are ignored; the code raises them.
- The recursive chunker never advances on a nonempty text at a cap of zero (`Chunking.ZeroCapStalls`), so
  its contract asks for a cap of at least one there.

## Model

| member | source | states |
|---|---|---|
| Clusters.SingleLinkClusters | kaizen_components/dedup.py:34-60 | for every n, score and threshold the clusters partition 0..n-1, two indices share one iff a path of pairs at or above the threshold joins them, each is ascending and they stand in order of least member |
| Clusters.Find | kaizen_components/dedup.py:38-42 | path halving, in place, returns the root of the tree and leaves every index under the root it had |
| Clusters.Unite | kaizen_components/dedup.py:44-53 | attaching one root under the other makes the represented graph the old one plus that pair, and nothing else |
| Clusters.SameRootIffLinked | kaizen_components/dedup.py:38-53 | in a forest that represents a graph, equal roots are graph reachability |
| Clusters.HalvingKeepsForest | kaizen_components/dedup.py:40 | redirecting a node to its grandparent shortens its way to the same root and changes no other |
| Clusters.UnionKeepsRepresents | kaizen_components/dedup.py:50-53 | merging two root classes represents the graph with the pair added |
| Clusters.ClusteringUnique | kaizen_components/dedup.py:34-60 | the graph alone fixes the result, clusters and order included: no two different lists meet the contract |
| Clusters.HigherThresholdSplits | kaizen_components/dedup.py:34-60 | raising the threshold only splits clusters |
| Reduction.Reduce | kaizen_components/agent_runs.py:201-250 | the sort and the single pass yield the projection the laws below are about |
| Reduction.ReduceOrderIndependent | kaizen_components/agent_runs.py:201-250 | events with distinct ids reduce to the same full state, list order included, in whatever order they arrive |
| Reduction.DistinctIdsNeverTie | kaizen_components/agent_runs.py:205 | the sort key is strict once ids differ |
| Reduction.OpenListMeaning | kaizen_components/agent_runs.py:195-231 | each open list names exactly the correlation ids opened and not closed, each once |
| Reduction.OpenCountMeaning | kaizen_components/agent_runs.py:227-231 | each open list has as many members as its kind has open spans in the events |
| Reduction.OpenListOrder | kaizen_components/agent_runs.py:222-231 | an open list stands in the order of the first events of its spans |
| Reduction.TerminalMeaning | kaizen_components/agent_runs.py:214-226 | a run is terminal iff some finalization event exists |
| Reduction.LastFinalizationWins | kaizen_components/agent_runs.py:207-235 | the last finalization in key order decides the reduced terminal state |
| Reduction.LastFailureWins | kaizen_components/agent_runs.py:207-250 | the reduced failure category is the kind of the last failing point in key order, and there is none without one |
| Reduction.SeenMeaning | kaizen_components/agent_runs.py:210-219 | first and last seen are the first and last nonempty creation times in key order |
| Reduction.PhaseMovesForward | kaizen_components/agent_runs.py:195-198 | appending events takes a span only from never open to open to closed |
| Ledger.FindSource | kaizen_components/agent_runs.py:498-509 | the duplicate probe finds a row of that source id exactly where there is one |
| Ledger.Tables.StartRun | kaizen_components/agent_runs.py:408-430 | T5 inserts the run or is refused; the whole new state |
| Ledger.Tables.AddEvent | kaizen_components/agent_runs.py:494-539 | T6 replays, refuses, or appends at the next number and refreshes the cache; the whole new state |
| Ledger.Tables.Finalize | kaizen_components/agent_runs.py:609-657 | T8 refuses a second or a premature success, or appends the finalization and refreshes the cache; the whole new state |
| Ledger.Tables.RefreshCache | kaizen_components/agent_runs.py:327-333 | only the cached columns of the one run change |
| Ledger.ExecKeepsInv | kaizen_components/agent_runs.py:494-657 | after any run of T5, T6 and T8: numbers 1..n, each source id once per run, event ids unique, cache equal to the recomputed state |
| Ledger.AppendKeepsInv | kaizen_components/agent_runs.py:511-537 | the same for one appended row, from MAX(sequence_no) + 1 |
| LedgerLaws.DeliveryExact | kaizen_components/agent_runs.py:494-537 | each reason T6 refuses for, in order; a source id already in the log is reported and changes nothing; else the draft is appended, field by field, under the next number |
| LedgerLaws.FinalizeExact | kaizen_components/agent_runs.py:609-655 | T8 is refused as already finalized iff the log holds a finalization, a success as not terminal iff something is open in the log, and else lands under a new id, with the marker of its conclusion and the forced closes counted in the events; a refusal changes nothing |
| LedgerLaws.FinalizedOnce | kaizen_components/agent_runs.py:616-623 | after an accepted T8 every later T8 on that run is refused, whatever comes between |
| LedgerLaws.CacheMeaning | kaizen_components/agent_runs.py:318-333 | in every reachable ledger the cached label says started, completed, failed, waiting or running exactly as the events do |
| LedgerLaws.FailureCached | kaizen_components/agent_runs.py:207-250 | an event that T6 appends sets the cached failure category to its own kind iff that is one of the four failures, and leaves the column alone otherwise |
| Histories.Redelivery | kaizen_components/agent_runs.py:496-509 | re-delivering a source id after any history reports the first id, number and hash and changes nothing |
| Histories.DeliveryLands | kaizen_components/agent_runs.py:511-539 | an accepted delivery is in the log under what it reported |
| Histories.ExecExtendsLog | kaizen_components/agent_runs.py:511-537 | no step rewrites a log: the earlier one stays a prefix |
| Histories.CacheTerminal | kaizen_components/agent_runs.py:318-335 | in every reachable ledger the cached label is terminal iff the recomputed state is |
| Histories.LogIsSorted | kaizen_components/agent_runs.py:205 | a reachable log is already in key order |
| Histories.LeakMeaning | kaizen_components/agent_runs.py:240-246 | a leak is exactly an open child under a last finalization that reads success |
| Histories.SuccessSawNothingOpen | kaizen_components/agent_runs.py:619-631 | a T8 success commits only with no child and no approval open |
| Histories.LeakOpenedAfterSuccess | kaizen_components/agent_runs.py:240-246 | if a run that T8 closed with success leaks later, every leaked child has an open event and all of them are sequenced after that finalization |
| Histories.LeakReachable | kaizen_components/agent_runs.py:494-539 | the leak is reachable: T6 never asks whether the run is terminal |
| Histories.AppendLeaksIff | kaizen_components/agent_runs.py:240-246 | an event makes a leak-free log leak iff it is a success finalization over an open child, or opens a child never closed after a last word of success |
| Histories.DeliveryLeaksIff | kaizen_components/agent_runs.py:494-539 | the same of a T6 delivery in any reachable ledger, read off its draft |
| Histories.LeakWithoutGate | kaizen_components/schemas/registry.py:123-134 | the second route is reachable: T6 takes a success finalization while a child is open, with no gate |
| Gates.TaskLiveOrchestration | kaizen_components/agent_runs.py:295-315 | the gate recomputes from events and sums over the blocking runs |
| Gates.GateMeaning | kaizen_components/agent_runs.py:295-315 | it passes iff no linked run lacks a finalization while a child or approval is open; else it names just those runs, each once, with the numbers of children and of approvals open in their events |
| Gates.BlocksMeaning | kaizen_components/agent_runs.py:253-256 | a run blocks iff it has no finalization and an open child or approval |
| Gates.PrefilterExact | kaizen_components/agent_runs.py:690-727 | on a reachable ledger the cached pre-filter skips exactly the terminal runs |
| Gates.SessionDigest | kaizen_components/agent_runs.py:690-727 | counts over every non-terminal run of the scan, the waiting ones, their children and the leaking runs of the table; the lists cut at the limit |
| Gates.DigestMeaning | kaizen_components/agent_runs.py:694-714 | the active and the waiting runs are those without a finalization, and of these those with an approval open in their events, in scan order, with the counts of their events |
| Gates.Scan | kaizen_components/agent_runs.py:694-714 | the pre-filtered scan lists every non-terminal run, in scan order |
| Gates.FindChildLeaks | kaizen_components/agent_runs.py:673-687 | the canary recomputes every run and keeps the leaking ones in table order |
| Gates.LeakingRunsMeaning | kaizen_components/agent_runs.py:673-687 | these are exactly the runs whose last finalization reads success over an open child |
| Gates.UngatedLeakPasses | kaizen_components/agent_runs.py:253-256 | a run that T6 alone finalized over an open child no longer blocks Q2 or W2 |
| Records.Plane.AddRecord | kaizen_components/task_records.py:84-147 | a new head with revision 1, or a refusal that changes nothing |
| Records.Plane.CommitUpdate | kaizen_components/task_records.py:168-219 | gate, chain to the head of that moment, number by count; the whole new state |
| Records.Plane.AddVerification | kaizen_components/proof_artifacts.py:198-221 | Q2 inserts or is refused by the gate |
| Records.NamedFieldsLand | kaizen_components/task_records.py:156-217 | a field the update names holds that value afterwards, in head and revision, whatever was committed since the read; no other record changes |
| Records.ChainsIntact | kaizen_components/task_records.py:150-220 | under every interleaving of stale reads, updates and ledger steps: revisions 1..n, each previous hash that of the revision before, the head equal to revision n |
| Records.RevisedKeepsChain | kaizen_components/plan_records.py:111-135 | one more revision keeps the chain, for tasks, lifecycle records and plans alike |
| Records.RevisionsAppendOnly | kaizen_components/plan_records.py:93-140 | no action rewrites an earlier revision |
| Records.StaleFieldsReturn | kaizen_components/task_records.py:156-219 | a field an update does not name goes back to the value it read, so it survives the commit iff nobody changed it since; and a draft commits at most once |
| Records.ConcurrentUpdateLost | kaizen_components/task_records.py:156-219 | for every record and every text: of two updates that read one head, the body the first commits is gone after the second, which never named it |
| Records.UnchangedHashKeepsFields | kaizen_components/task_records.py:190-199 | where the head still has the hash that was read, in any interleaving, no field has changed |
| Records.TaskCloseGate | kaizen_components/task_records.py:171-189 | W2 reaches a terminal status only with no linked live run, and is refused for it iff one exists, named and counted |
| Records.TerminalSpelling | kaizen_components/task_records.py:23-28 | a status counts as terminal iff it spells one of the four words, up to capitals and outer whitespace |
| Records.SuccessVerificationGate | kaizen_components/proof_artifacts.py:198-221 | Q2 success is recorded iff no linked live run exists |
| Retry.WithRetry | kaizen_components/db_retry.py:47-83 | commits once if it returns a value and never otherwise; ends at the first attempt that succeeds, its COMMIT included, or fails beyond retry, with just the scheduled sleeps before it |
| Retry.DelaySum | kaizen_components/db_retry.py:31-44 | k sleeps take the share 1 + ... + k of the budget |
| Retry.BackoffBudget | kaizen_components/db_retry.py:31-44 | the sleeps stay within the budget for any two or more attempts, and reach it iff all but the last attempt were followed by one |
| Retry.DenialsPropagate | kaizen_components/db_retry.py:47-83 | a call never runs past an attempt whose operation raises a denial; if it ends there it ends with that denial and without effect, whatever the denial's text |
| Sessions.WriteTx | kaizen_components/db.py:451-484 | a call answers as its operation does on the state of its last attempt if nothing faults there, else with the error of that attempt, unless it is retryable and attempts are left |
| Sessions.CleanCall | kaizen_components/db.py:451-484 | with no fault at the first attempt and no retryable error of its own, a call takes one attempt and answers as its operation |
| Sessions.WritesExact | kaizen_components/session_records.py:529-552 | an instruction lands last, under the next ordinal, as given; a request lands open; a transition sets the state asked for; nothing else changes |
| Sessions.AttachExact | kaizen_components/session_records.py:737-757 | an owned session is handed over iff owner and epoch both match; else nothing changes |
| Sessions.OwnershipChange | kaizen_components/session_records.py:737-757 | owner and epoch of an owned session change only by a matching attach, and by one epoch |
| Sessions.OneAttachPerEpoch | kaizen_components/session_records.py:716-757 | after one attach at an epoch every later one at that epoch is stale, whatever happens between |
| Sessions.FencedWriteExact | kaizen_components/db.py:457-484 | a fenced instruction, approval request or decision does what it does unfenced iff the session is the writer's (at the epoch asked for) or unowned; else it is stale and changes nothing |
| Sessions.DisplacedOwnerRefused | kaizen_components/session_records.py:294-301 | a node that lost a session writes, asks and decides nothing in it until an attach hands it back |
| Sessions.ApprovalKeepsSession | kaizen_components/session_records.py:646-662 | an approval never changes its session, so the fence chosen by the preliminary read is the right one when the decision lands |
| Sessions.DisplacedDecisionRefused | kaizen_components/session_records.py:760-786 | a decision under the fence of the approval's own session is refused to a displaced node |
| Sessions.ExecKeepsOrdinals | kaizen_components/session_records.py:529-560 | instruction ordinals are 1..n per session in every history |
| Sessions.OneDecision | kaizen_components/session_records.py:167-244 | an approval is decided once: every later transition is refused and the decision stands |
| Chunking.RecursiveChunk | kaizen_components/evidence.py:237-260 | the window loop terminates for every text at a cap of at least one, and for the empty text at any, and emits the chunks the laws below are about, none longer than the cap asked for |
| Chunking.WindowBreaks | kaizen_components/evidence.py:244-251 | the break is the window's last paragraph break or, where it holds none at all, its last sentence break; the window ends just inside it if it lies past the middle, and is full otherwise |
| Chunking.ChunksFollowRule | kaizen_components/evidence.py:237-260 | the chunks are the stripped windows that the rule allows, one after the other, and it allows one each time |
| Chunking.ShortTextOneChunk | kaizen_components/evidence.py:237-260 | a text within the cap that is not all whitespace is one chunk: itself, stripped, at its exact offsets |
| Chunking.ZeroCapStalls | kaizen_components/evidence.py:243-259 | at a cap of zero the next window starts where this one does |
| Chunking.ChunksGood | kaizen_components/evidence.py:237-260 | chunks are ordered, disjoint, equal to the text between their offsets, within the cap, trimmed, with only whitespace outside them |
| Chunking.OneHolder | kaizen_components/evidence.py:237-260 | each non-whitespace character lies in exactly one chunk |
| Chunking.ChunkCount | kaizen_components/evidence.py:237-260 | at most 2 * length / m + 1 chunks |
| Chunking.ChunksWithinWordLimit | kaizen_components/evidence.py:237-260 | no chunk exceeds the word limit that the insert enforces |
| Chunking.SemanticChunk | kaizen_components/evidence.py:288-316 | the merge cuts exactly where the distance or the size rule demands |
| Chunking.GreedyUnique | kaizen_components/evidence.py:288-316 | that rule leaves one way to cut the segments |
| Chunking.GroupWithinCap | kaizen_components/evidence.py:288-316 | a merged chunk exceeds the cap only when it is a single segment |
| Chunking.MergedJoins | kaizen_components/evidence.py:309-311 | segments of one chunk join with one blank line |
| Fusion.RrfFuse | kaizen_components/evidence.py:720-733 | each id of the union once, with its first record and exact reciprocal-rank sum, in decreasing score with id tie-break |
| Fusion.FuseList | kaizen_components/evidence.py:720-733 | one ranking adds its reciprocal ranks and nothing else |
| Fusion.FusionOrderIndependent | kaizen_components/evidence.py:720-733 | the id order does not depend on the order of the lists |
| Fusion.DominanceKept | kaizen_components/evidence.py:720-733 | an id ahead of another in every list that ranks the other is ahead in the fusion |
| Fusion.ScorePermutation | kaizen_components/evidence.py:720-733 | a score does not depend on the order of the lists |
| Fusion.ScoreJoined | kaizen_components/evidence.py:723-727 | scores add up over the lists |
| Fusion.FirstRecordIsEarliest | kaizen_components/evidence.py:726 | the record kept is that of the first list ranking the id, at its first rank there |
| Like.ThreeReplacesEscape | kaizen_components/text_search.py:17-24 | the three successive replaces are one per-character escape |
| Like.LikeIsSubstring | kaizen_components/text_search.py:17-24 | the pattern matches a text iff the query occurs in it, up to the engine's folding |
| Like.UnescapeEscaped | kaizen_components/text_search.py:17-24 | unescaping gives the query back |
| Titles.CanonicalFixpoints | kaizen_components/session_protocol.py:55-66 | canonicalising leaves alone exactly the nonempty single-spaced trimmed strings within the limit |
| Titles.AcceptedTitles | kaizen_components/session_records.py:247-267 | C1 accepts exactly those (that also pass the safety scan), unchanged |
| Titles.CanonicalKeeps | kaizen_components/session_protocol.py:55-60 | what canonicalising keeps of any text: the front stretch, as long as the limit allows, of the single-spaced text with the same characters in the same words |
| Text.CollapsedKeeps | kaizen_components/session_protocol.py:57-58 | collapsing keeps every character that is no whitespace, in order, and keeps apart or together what was |
| Titles.CanonicalTwice | kaizen_components/session_protocol.py:55-66 | twice always reaches that form or nothing; once does except exactly when the cut falls behind a blank |
| Titles.OncePlainlyFails | kaizen_components/session_protocol.py:55-66 | such a prompt exists, so plain idempotence is false |
| ModelIndex.Index.ActivateModel | kaizen_components/model_index.py:82-122 | activation, then the list, then the deletion, with any commits of others in between; the whole new state |
| ModelIndex.Index.PruneToKeep | kaizen_components/model_index.py:70-79 | what it drops is decided on the list it read, and deleted from the rows as they are by then |
| ModelIndex.Index.Prune | kaizen_components/model_index.py:125-152 | decides on the active model and the list as read one after the other, and deletes later, or refuses |
| ModelIndex.Index.DeleteModels | kaizen_components/model_index.py:59-67 | exactly the rows of those models go |
| ModelIndex.BehaviourKeepsInv | kaizen_components/evidence.py:568-615 | in every interleaving of the separate accesses, no embedding outlives its chunk up to a moment iff every back-fill insert so far still found the chunks it had listed |
| ModelIndex.RechunkExact | kaizen_components/evidence.py:568-615 | re-chunking replaces the chunks and embeddings of its document, keeps all others and embeds the new ones; refused iff an id is taken or listed twice |
| ModelIndex.BackfillExact | kaizen_components/model_ops.py:200-217 | a back-fill adds an embedding for each listed chunk that has none, and nothing else |
| ModelIndex.BackfillKeepsInvIff | kaizen_components/model_ops.py:184-217 | one insert keeps the invariant iff every listed chunk is still there, which can be read off before it |
| ModelIndex.AtomicBackfillFinds | kaizen_components/model_ops.py:184-217 | so it does when it inserts on the state it listed |
| ModelIndex.CountIsCardinality | kaizen_components/model_index.py:82-122 | the row count of a model is the number of its chunks |
| ModelIndex.ActivationMeansCoverage | kaizen_components/model_index.py:82-122 | comparing two counts decides coverage: activation succeeds iff every chunk has an embedding of the model |
| ModelIndex.ActivationExact | kaizen_components/model_index.py:86-114 | a refused activation changes nothing and tells an absent index from an incomplete one, with the numbers; an accepted one changes the active model only |
| ModelIndex.StaleBackfillMisleadsIff | kaizen_components/model_index.py:86-109 | after any back-fill, activation succeeds iff the bare chunks are no more than the listed ones that are gone, and misleads iff there is a bare chunk besides |
| ModelIndex.StaleBackfillMisleads | kaizen_components/model_ops.py:184-217 | it happens: a re-chunk between the list and the insert makes the counts agree by accident |
| ModelIndex.PruneSpares | kaizen_components/model_index.py:125-152 | a deletion decided earlier spares every model it does not name and the one that was seen active, so also the active one if that has not changed |
| ModelIndex.RetentionKeepsNewest | kaizen_components/model_index.py:70-79 | a retention decided earlier never drops the model it activated nor one newer than another it keeps, and leaves at most keep models unless a new one came in between |
| ModelIndex.SurplusCount | kaizen_components/model_index.py:70-79 | it drops no more than has to go to meet the window, and nothing without one |
| ModelIndex.PruneTargetsMeaning | kaizen_components/model_index.py:125-149 | previous names the newest other model, all-but-active all others, a model itself if listed; the one seen active is refused |
| ModelIndex.LatestMeaning | kaizen_components/model_index.py:40-43 | a model is as recent as its most recent embedding |
| ModelIndex.LosesActiveIff | kaizen_components/model_index.py:59-67 | a deletion takes embeddings of the active model iff that model is indexed and named |
| ModelIndex.DeletionLosesActiveIff | kaizen_components/model_index.py:70-152 | in every interleaving a deletion carries out a plan made by an earlier read, and takes embeddings of the model active by then iff it is indexed and in that plan; never if it is still the one the command activated or saw |
| ModelIndex.RetentionsRace | kaizen_components/model_index.py:116-122 | it happens: of two activations whose retentions interleave, the first deletes the whole index of the second |
| Migration.StubsAreStubs | kaizen_components/markdown_exports.py:24-44 | every stub written is recognised as one |
| Migration.StubsOfFamily | kaizen_components/markdown_exports.py:24-32 | each stub is headed by its surface's name and gives the list, query and inspect commands of that surface's own record family |
| Migration.Disk.Roots | kaizen_components/migration_learning.py:68-77 | the requested roots, or the repository's own, pass iff all lie in the allowlist |
| Migration.TargetDirs | kaizen_components/migration_learning.py:109-120 | the root and every directory reached without a pruned name that holds a surface or a SKILL.md, each once, sorted |
| Migration.Disk.Walk | kaizen_components/migration_learning.py:256-265 | every existing root's surfaces, and the roots that are missing, in order |
| Migration.Disk.DryRun | kaizen_components/migration_learning.py:123-174 | the plan of that walk |
| Migration.PlanMeaning | kaizen_components/migration_learning.py:123-174 | the plan holds exactly the actions due on each listed surface |
| Migration.Disk.Perform | kaizen_components/migration_learning.py:198-247 | one action, refused or carried out; the whole new state |
| Migration.Disk.Apply | kaizen_components/migration_learning.py:177-253 | plans, then runs the plan to its end or to the first refused action, whose partial effect is stated too; the manifest is written iff it ran to its end and backed something up |
| Migration.Disk.Verify | kaizen_components/migration_learning.py:255-270 | reports the missing roots, the targets that are no stubs and the old siblings that remain |
| Migration.UnmigratedMeaning | kaizen_components/migration_learning.py:255-270 | a path is reported iff it is one of these |
| Migration.MigrationLosesNothing | kaizen_components/migration_learning.py:186-247 | at every moment of every run, over any roots and even when it ends denied, each original file is as it was or its content is in the backups |
| Migration.DeniedIffRelocatedTwice | kaizen_components/migration_learning.py:224-245 | on allowed roots apply is denied iff its plan relocates one sibling twice |
| Migration.RunSettles | kaizen_components/migration_learning.py:177-253 | where no target is another's old sibling, each listed surface ends as the stub it had, the stub moved to it, or a fresh one of its own family, and no old sibling is left |
| Migration.OthersUntouched | kaizen_components/migration_learning.py:177-253 | no other file changes, and only directories above targets appear |
| Migration.RepeatedStep | kaizen_components/migration_learning.py:190-245 | an action attempted twice leaves the files and backups of the first attempt, and a relocation is refused the second time |
| Migration.ChangesReported | kaizen_components/migration_learning.py:206-252 | every path that reads differently afterwards is reported as changed, a relocated sibling through its target, and only targets and old siblings are |
| Migration.SlotsOfApartRoots | kaizen_components/migration_learning.py:15-27 | roots of which none lies in another never alias, because evals is pruned |
| Migration.MigrationSettles | kaizen_components/migration_learning.py:109-270 | over any roots, nested or repeated, none of which is a listed directory's evals: apply goes through iff its plan relocates no sibling twice, and then every surface is settled, verify reports exactly the missing roots, a second plan only keeps stubs and nothing else changed |
| Migration.ApartRootsSettle | kaizen_components/migration_learning.py:109-270 | over roots of which none lies in another, one root above all, it always goes through |
| Migration.SlotsOfPlainRoots | kaizen_components/migration_learning.py:15-27 | evals is pruned, so slots alias only where a root is a listed directory's evals |
| Migration.FileSystemKept | kaizen_components/migration_learning.py:198-247 | every action keeps directories closed under parents and files inside directories |
| Migration.AliasNeverVerifies | kaizen_components/migration_learning.py:255-270 | while a listed target is another listed slot's old sibling, verify fails |
| Migration.EvalsRootNeverSettles | kaizen_components/migration_learning.py:177-270 | so it fails after every run, complete or not, over a root that is the evals of a listed directory which is itself a root or holds a SKILL.md |
| Migration.RepeatedRootDenied | kaizen_components/migration_learning.py:224-232 | a root listed twice is denied as soon as a sibling must be relocated |
| Migration.EvalsRootNeverVerifies | kaizen_components/migration_learning.py:255-270 | a root together with its own evals directory never verifies, on any files |
| SkillContexts.ReadPackages | kaizen_components/skill_context.py:303-423 | reads every package or refuses; refused iff one is unsound or a name comes twice |
| SkillContexts.Normalize | kaizen_components/skill_context.py:272-424 | succeeds iff the scan is complete and for these hosts, the policy scope fits and the packages are clean; the result is normal and loses none |
| SkillContexts.NoDefectSound | kaizen_components/skill_context.py:331-399 | a package without defect yields facts with one face a host, in order, of known states |
| SkillContexts.DefectExact | kaizen_components/skill_context.py:314-404 | when a package is refused, and when as a policy fault |
| SkillContexts.StableSort | kaizen_components/skill_context.py:424 | sorting by folded name leaves records whose names fold alike in the order they were in |
| SkillContexts.ResortRestores | kaizen_components/skill_context.py:690-694 | re-sorting what is read back in name order restores the recorded order iff names that fold alike were in name order |
| SkillContexts.CaseTwinsDescend | kaizen_components/skill_context.py:424 | "a" found before "A" is such a failing order |
| Snapshots.VerifyCurrent | kaizen_components/skill_context.py:607-703 | accepts iff counts, order of hosts, every hash and the rebuilt inventory agree |
| Snapshots.AlteredSurface | kaizen_components/skill_context.py:639-652 | a surface row altered under its old hash is noticed |
| Snapshots.AlteredContext | kaizen_components/skill_context.py:654-688 | so is a context row |
| Snapshots.AlteredSync | kaizen_components/skill_context.py:618-637 | so is the sync row |
| Snapshots.RowsCounted | kaizen_components/skill_context.py:627-694 | two intact views of one sync row have as many rows and the same inventory |
| Snapshots.Store.Persist | kaizen_components/skill_context.py:748-853 | a no-op iff the current snapshot is intact and of this very plan; else the whole new state, and the names added, updated, retired |
| Snapshots.Store.Sync | kaizen_components/skill_context.py:706-868 | apply replans, refuses unless the confirmed hash is that plan's and nothing is in the way, else persists; a refusal changes nothing |
| Snapshots.ConfirmedIsReviewed | kaizen_components/skill_context.py:717-739 | what is applied is the plan that was confirmed, down to each record, host and the test flag |
| Snapshots.ChangesMeaning | kaizen_components/skill_context.py:845-852 | the changes lead from the old names to the new ones, and of the names that stay exactly those with another hash are updated |
| Snapshots.Store.InsertRows | kaizen_components/skill_context.py:803-844 | one context row a record, one surface row a face |
| Snapshots.Store.Unset | kaizen_components/skill_context.py:770-771 | only the flag of the current production row falls |
| Snapshots.FacesForReordered | kaizen_components/skill_context.py:638-652 | grouping the surfaces by context does not depend on the order read |
| Snapshots.NewRowRebuilds | kaizen_components/skill_context.py:653-689 | the verifier rebuilds from the rows of a record that very record |
| Snapshots.SortRebuilt | kaizen_components/skill_context.py:690-694 | rebuilding rows in name order is ordering the rebuilt records by name |
| Snapshots.AppliedKeepsInv | kaizen_components/skill_context.py:748-844 | after any apply: at most one current row and no test one, ids unique, one row a skill and one a host, no dangling reference |
| Snapshots.HistoryKept | kaizen_components/skill_context.py:770-844 | an apply rewrites nothing but the flag of the row that was current |
| Snapshots.NewView | kaizen_components/skill_context.py:568-597 | after a production apply the current rows are the new ones alone |
| Snapshots.ApplyThenVerify | kaizen_components/skill_context.py:607-879 | after a production apply its snapshot is the current one; the verifier accepts it, and applying the plan again is a no-op, iff names that fold alike were recorded in name order |
| Snapshots.DistinctFoldsAscend | kaizen_components/skill_context.py:424 | in particular whenever no two names fold alike |
| Snapshots.TestApplySpares | kaizen_components/skill_context.py:770-799 | a test apply leaves the production view as it was |
| Snapshots.LastApplyStands | kaizen_components/skill_context.py:748-879 | after any run of applies, tests and no-ops included, the current snapshot is that of the last production request |
| SnapshotStatus.Status | kaizen_components/skill_context.py:1147-1319 | unavailable without a snapshot or with one that fails verification; else current, freshness, drift and unsynced counts, the freshness counts adding up to the stored skills and the invalid unsynced ones |
| SnapshotStatus.Drift | kaizen_components/skill_context.py:1243-1269 | the number of keys two dictionaries do not agree on |
| SnapshotStatus.SameIndex | kaizen_components/skill_context.py:1228-1242 | a dictionary depends on which pairs it is built from, not on their order, where keys do not clash |
| SnapshotStatus.CurrentMeaning | kaizen_components/skill_context.py:1226-1290 | over an intact snapshot current holds iff the live records are the stored ones, hosts agree and there is no orphan |
| SnapshotStatus.CurrentMeansNoDrift | kaizen_components/skill_context.py:1226-1290 | then surface, policy and publication drift are zero and no skill is unsynced |
| SnapshotStatus.CurrentMeansFresh | kaizen_components/skill_context.py:1186-1227 | if moreover the files found are those that were discovered, no stored skill is stale or missing |
| FollowUps.FollowUpQueue.Enqueue | extension/src/followUpQueue.ts:47-58 | refuses empty text and a full queue, else appends under the next number; the whole new state |
| FollowUps.FollowUpQueue.BeginDispatch | extension/src/followUpQueue.ts:61-65 | offers the head iff idle, not paused and not empty |
| FollowUps.FollowUpQueue.AcknowledgeDurable | extension/src/followUpQueue.ts:68-73 | removes only the dispatching head |
| FollowUps.FollowUpQueue.RejectDispatch | extension/src/followUpQueue.ts:76-78 | keeps the head |
| FollowUps.FollowUpQueue.Pause | extension/src/followUpQueue.ts:81-85 | pauses a nonempty queue only |
| FollowUps.FollowUpQueue.Clear | extension/src/followUpQueue.ts:87-91 | empties the queue but not the numbering |
| FollowUps.TrimMeaning | extension/src/followUpQueue.ts:48 | trimming leaves the stretch between the outer whitespace |
| FollowUps.OfferIsHead | extension/src/followUpQueue.ts:61-78 | what is offered is the head; refused it is offered again, acknowledged under its own id it leaves the front |
| FollowUps.ClearExact | extension/src/followUpQueue.ts:87-91 | numbering goes on after a clear |
| FollowUps.QueueIsFifo | extension/src/followUpQueue.ts:29-91 | in every history: at most ten items, numbers strictly increasing, the dispatching one is the head of an unpaused queue, paused means nonempty, and accepted since the last clear = acknowledged then pending |
| FollowUps.PausedHolds | extension/src/followUpQueue.ts:61-91 | a paused queue offers and loses nothing until it is cleared |
| Dco.AcceptedLines | security/validate_dco.py:472-492 | a line is accepted iff it reads as prefix, valid name, nonempty local part and domain |
| Dco.SignoffUnique | security/validate_dco.py:472-492 | and it reads so in one way only |
| Dco.LinesRejoin | security/validate_dco.py:495-500 | the lines are the message cut at every newline and nowhere else |
| Dco.NoCarriageReturn | security/validate_dco.py:495-500 | no line of a message holds a line end of any style |
| Dco.LineEndsCut | security/validate_dco.py:495-500 | each of the three line ends separates the lines on its sides, so a message has a sign-off iff a part has |
| Dco.Evaluate | security/validate_dco.py:514-535 | checked + exempt = total, and failed is, in order, just the commits neither exempt nor signed off |
| Dco.ShasJoined | security/validate_dco.py:519-529 | both lists follow the commits one by one |
| Dco.AppendUnique | security/validate_dco.py:426-432 | appends a page, or finds the repeated SHA iff there is one |
| Dco.CollectCommits | security/validate_dco.py:435-469 | succeeds iff the pages bind the pull request and cover it: distinct SHAs, the declared count, the head last; each refusal is justified |
| Dco.Validate | security/validate_dco.py:538-562 | gives a verdict iff the pages bind and cover the pull request and its second reading equals the first; passes iff every collected commit is exempt or signed off |

## Left out

- Clusters.SingleLinkClusters: takes the pair similarities as given numbers; cosine, norms and the check that all vectors have one dimension are not modelled.
- Fusion.RrfFuse: scores are exact reals; floating-point sums and the display rounding are not modelled, and the order they could change is not claimed for them.
- Retry.WithRetry: an attempt that raises leaves no effect and transactions commit in some serial order; the engine's conflict detection, connections, clocks and which error messages are transient are parameters or assumptions.
- Retry.BackoffBudget: over real arithmetic; the back-off of one single attempt is zero and is not part of it.
- Records.TaskCloseGate: holds at the commit under that serial order; without it two transactions could pass the gate on stale reads.
- Like.LikeIsSubstring: case folding is any function on single characters.
- Titles.AcceptedTitles: the sensitive-content scan is a predicate.
- Chunking.SemanticChunk: the distance between neighbouring segments is a function of the later index.
- Migration.Disk.Apply: symbolic links, path resolution, walk errors, directories that carry a surface's name, byte-order marks, and backup file names are not modelled; a backup is its source path and content.
- Migration.MigrationSettles: assumes no other writer between the plan, the run and the verification.
- Migration.EvalsRootNeverSettles: says nothing of a root that is the `evals` of a listed directory which the run itself takes off the list (no root, no SKILL.md); its verification then depends on the order of the roots.
- Chunking.RecursiveChunk: on a nonempty text asks for a cap of at least one; below zero the source's slices count from the end of the text, which is not modelled.
- SkillContexts.Normalize: covers and validator messages arrive cleaned and paths split; two names that fold alike inside `covers` have no fixed order in the code either.
- Snapshots.Store.Persist: ids are newly drawn; event rows, time stamps and the JSON columns are not modelled.
- Snapshots.VerifyCurrent: hashes are symbolic, equal exactly on equal material, so their textual form is not checked.
- SnapshotStatus.Status: the per-state totals for display and the per-skill detail list are not modelled.
- ModelIndex.BehaviourKeepsInv: creation times are integers, each access is atomic, and vectors are not modelled.
- Sessions.OneDecision: says nothing of two approvals open under one correlation id, which the code allows.
- FollowUps.QueueIsFifo: an item's id is its number; the preview of the view is not modelled.
- Dco.Validate: HTTP, JSON, pagination links, and event parsing are not modelled; pages and both readings of the pull request arrive parsed and the trust in the bot is a parameter.
- Text.Lower: lowers the ASCII letters, which decides membership in the sets of words it is compared with.
- SQL text, schema migration, purging of test rows (which can leave scores of a run under a deleted test case), redaction, schema validation of payloads, goals, mode profiles, the resume of conversations and the reference validators beside them: plumbing or one-branch checks.
- Network, subprocess and model back-ends, the extension's views, reports and the command line: input and output.
