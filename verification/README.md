# Verified model of Cranus

A Dafny model of the parts of Cranus whose correctness depends on more than one
function at a time: the entity-resolution store, the web crawler's frontier, the
structural chunker, job dispatch, the citation pipeline, rank fusion, the research
agent's loop, relation extraction, the incremental audit export and engagement
scope. Code that changes things step by step is a class or a loop proved against a
specification function; what the system promises is then proved of that function,
for every input, every run or every reachable state.

`dafny verify dfyconfig.toml` checks the whole project.

## How the model is laid out

| file | what it holds |
|---|---|
| `EntityTables.dfy`, `MergeWitness.dfy`, `SessionWitness.dfy` | entities, mentions, candidates, edges, reviews and their Neo4j mirror as values; every row-level step; invariants of every legal run; a run whose merge loses the mirror, and the method calls that write it |
| `Ingestion.dfy`, `EntityResolution.dfy` | the rows a document adds to each table; the class `Session`: ingestion, human review, the batch pass, each write recorded in a ghost log |
| `BatchPass.dfy`, `BatchTypes.dfy`, `Clustering.dfy` | the greedy pass over scored pairs, what the passes of all types come to, and the connected components they stay inside |
| `Pages.dfy`, `Crawler.dfy` | the web and the trails through it; the class `WebCrawler` and its bounded breadth-first search |
| `Units.dfy`, `ByteTokens.dfy`, `Windows.dfy`, `Chunking.dfy` | lines and token pieces, tokens that stand for bytes, window packing, chunks with offsets |
| `JobQueue.dfy`, `Dispatch.dfy` | job rows under many workers; polling and Kafka delivery on top |
| `Citations.dfy`, `Synthesis.dfy` | the sentence and citation parser, and the printer it reads back |
| `Fusion.dfy` | reciprocal rank fusion and candidate deduplication |
| `Agent.dfy` | the class `AgentBudget` and the agent's loop |
| `Relations.dfy`, `Extraction.dfy`, `SentenceEnds.dfy` | relation patterns over dependency parses; the same said of parse and mentions alone; what a sentence gives in the end |
| `Voice.dfy`, `Rewording.dfy`, `Voices.dfy`, `VoiceWitness.dfy`, `AcquiredWitness.dfy`, `TriggerWitness.dfy` | active and passive clauses; the passive sentence in its own words; when both give the same, and three sentences whose voices differ |
| `AuditExport.dfy`, `Engagements.dfy` | the audit export and target scope |
| `Ordering.dfy`, `Text.dfy`, `Prelude.dfy` | stable sort, string primitives, `Option` and `Result` |

`Session.Valid` says that the tables are what a legal log makes of empty ones, so
`EveryRunKeepsInvariant` speaks about every state any mixture of ingestion, batch
and decision steps can reach; `ValidMeansInvariant` hands it to the methods.

## What is assumed

- Named-entity recognition, dependency parses, Splink's predictions, similarity
  scores, block keys, lower-casing, web answers, the language model and the
  tools are inputs: arbitrary functions or values.
- Splink pairs two different records (`Distinct`).
- `ExactCuts`, of lines too long for a chunk only: at every cut the decoded prefix
  goes on as the line does. The chunker's comment claims more of its tokenizer
  (`src/cranus/ingestion/chunking.py:56-58`; `ExactPrefixes`, which is enough), but
  coming back whole does not imply it (`SomeCutInexact`). Nothing else about the
  tokenizer is assumed; lines that fit are never decoded.
- `CountsNoMore`, for the token bound of such lines alone: a decoded piece counts no
  more tokens than it was decoded from.
- `Proper`: the word class of regular expressions contains no bracket, no full
  stop and no white space.
- `WellFormed` parses refer to tokens of their own sentence.
- Ids come from a counter; they stand for fresh random ids.

## What the code does not keep

Each of these has its exact condition and an input or run that meets it.

- A success that was committed and then followed by an exception, be it a lost
  acknowledgement or a log line that raises, is overwritten by a failure
  (`TerminalOverwrittenIff`, `OverwriteArmedIff`; `SomeRunOverwrites`).
- The synthesizer's answer cites more than the first five sources exactly when a
  snippet itself brackets the id of a later one (`RoundTrip`; `SixthSourceCited`).
- The pieces of a line that is too long are slices of it at their offsets only when
  its cuts are exact, which a tokenizer may fail even if every text comes back from
  its tokens (`PiecesTileIff`; `SomeCutInexact`): for tokens that stand for bytes, only
  when no cut falls inside a character (`BytePiecesTileIff`).
- A chunk's text is the exact text between its offsets only when the newlines around
  its units are as many as it joins (`ChunkIsSliceIff`; `SomeChunkInexact`).
- Neo4j no longer mirrors the tables after any merge that does something
  (`MergeKeepsMirrorIff`), a merge of two joined entities leaves a self-loop
  (`MergeMakesSelfLoopIff`), and edges that get the same ends are not united
  (`MergeKeepsUniqueIff`; `SomeRunLosesAll`).
- The export misses for good every row that becomes visible after a newer row was
  exported (`ExportCompleteIff`; `StaleRowIsMissed`, `ExportCanMiss`).
- The agent reports `max_steps_exhausted` also when it stopped for tokens
  (`ReasonMisleadsIff`; `TokensCanRunOut`), and never looks at which ids `finish`
  lists as citations (`SupportIsListedIff`; `SupportCanBeUnlisted`).
- What a sentence gives depends on its voice. Acquisition verbs stand for the same pairs
  in both voices, but the fallback takes two organizations in the order of the text,
  which the passive turns round (`AcquiredVoicesAgreeIff`; `SomeAcquisitionTurns`).
  Founders are lost in the passive form, which is made up for only by the fallback for
  one person and one organization (`FoundedVoicesAgreeIff`, `SoleFoundedVoicesAgreeIff`),
  couples of founders by nothing (`CouplesAgreeIff`, `SoleCouplesAgreeIff`;
  `SomeVoicesDiffer`). And only one of the two voices may have a trigger
  (`SomeTriggerMissing`).

## Model

| member | source | states |
|---|---|---|
| EntityTables.MergeConserves | src/cranus/graph/entity_resolution/review.py:45-68 | merging two distinct live entities is a pure renaming: the one kept changes in nothing but its aliases, which gain the other's name and aliases; no edge, mention, candidate or review row goes away, edge and mention references are renamed, review references cleared |
| EntityTables.MergeLosesNothingIff | src/cranus/storage/models/edges.py:22-27 | a merge of live entities drops no edge and unlinks no mention if and only if the two differ or nothing refers to the one merged with itself |
| EntityTables.MergeKeepsSupport | src/cranus/graph/entity_resolution/review.py:59-68 | a promoted candidate that justifies an edge still justifies it after a merge has renamed both |
| EntityTables.MergeKeepsJustification | src/cranus/graph/entity_resolution/review.py:59-68 | merges keep edge justification in both directions |
| EntityTables.DecidedMerge | src/cranus/graph/entity_resolution/review.py:32-42 | a decision merges exactly when it says so and both ends are still live, and then merges two distinct entities of one type |
| EntityTables.DecisionKeepsFirst | src/cranus/graph/entity_resolution/review.py:32-42 | a merge decided on folds the review's second entity into its first, and writes only that and the decision |
| EntityTables.PromotionJustified | src/cranus/graph/pipeline.py:141-178 | promoting a candidate adds only evidence it supports, and the edge shows its chunk |
| EntityTables.PromotionWrites | src/cranus/graph/pipeline.py:141-178 | a promotion inserts an edge between the entities of the candidate's mentions with its type, its confidence and its chunk as the only evidence, or adds its chunk to an edge that has these ends and this type; no other edge changes |
| EntityTables.StepKeepsInvariant | src/cranus/graph/entity_resolution/review.py:20-68 | each step of ingestion, batch pass or decision keeps live references, surface forms, review soundness and edge justification |
| EntityTables.EveryRunKeepsInvariant | src/cranus/graph/pipeline.py:35-180 | all four hold in every state any run reaches |
| EntityTables.MergeFreeRunMirrors | src/cranus/graph/pipeline.py:114-178 | after every run that merges nothing, Neo4j mirrors the entity and edge tables, no edge is a self-loop and no triple has two edges |
| EntityTables.MergeKeepsMirrorIff | src/cranus/graph/entity_resolution/review.py:45-68 | a merge keeps the mirror in agreement if and only if it does nothing |
| EntityTables.MergeMakesSelfLoopIff | src/cranus/graph/entity_resolution/review.py:59-62 | a merge leaves no self-loop if and only if no edge joined the two entities |
| EntityTables.MergeKeepsUniqueIff | src/cranus/graph/entity_resolution/review.py:59-62 | after a merge there is one edge per (from, to, type) if and only if no two edges of one type get the same ends |
| MergeWitness.SomeRunLosesAll | src/cranus/graph/pipeline.py:35-89 | one document is processed and the question it raises is answered with a merge: the mirror agrees and edges are simple before the answer; after it there is a stale mirror, a self-loop and two edges for one triple |
| SessionWitness.WriteRun | src/cranus/graph/pipeline.py:35-89 | the calls that processing the document and answering its question make, in their order, write exactly that run |
| EntityResolution.Session.ValidMeansInvariant | src/cranus/graph/pipeline.py:35-180 | every reachable session state satisfies the invariants, and the mirror agrees while nothing was merged |
| EntityResolution.Session.MergeRows | src/cranus/graph/entity_resolution/review.py:45-68 | the statements of a merge, with the foreign keys firing on the delete, do what `MergeEntities` says, for every pair of possibly missing ids; of the entity kept they change the aliases alone |
| EntityResolution.Session.Decide | src/cranus/graph/entity_resolution/review.py:32-42 | fails without effect exactly when the review is missing; otherwise records the decision and merges when told to, as one legal step |
| EntityResolution.Session.FindBestMatch | src/cranus/graph/pipeline.py:92-107 | returns a positive-scoring eligible entity that none beats, or none if no eligible entity scores above zero |
| EntityResolution.Session.BestMatchIs | src/cranus/graph/pipeline.py:92-107 | the best match has the mention's type, a positive score, and the mention's block or an alias equal to it but for case; no other such entity scores higher, and without one none scores above zero |
| EntityResolution.Session.ResolveMention | src/cranus/graph/pipeline.py:92-125 | the entity returned has the mention's type and answers to its text; which entity, alias and review rows appear is fixed by the best match and the two thresholds |
| EntityResolution.Session.AddMentions | src/cranus/graph/pipeline.py:44-57 | one pending row per mention, in order, other rows untouched |
| EntityResolution.Session.AddCandidates | src/cranus/graph/pipeline.py:59-76 | one pending candidate per relation whose spans are both mentions, in order, other rows untouched |
| Ingestion.BySpanIsLast | src/cranus/graph/pipeline.py:60-60 | a span is looked up to the row of the last mention that has it |
| EntityResolution.Session.ResolveMentions | src/cranus/graph/pipeline.py:78-85 | resolves exactly the given rows and counts created entities and queued reviews |
| EntityResolution.Session.PromoteCandidate | src/cranus/graph/pipeline.py:141-178 | promotes a candidate if and only if it is promotable, extending an edge of its triple or inserting one when there is none |
| EntityResolution.Session.PromoteEdgeCandidates | src/cranus/graph/pipeline.py:128-180 | promotes exactly the promotable pending candidates of the chunks and counts the new edges |
| EntityResolution.Session.ProcessChunk | src/cranus/graph/pipeline.py:39-85 | a chunk adds one row per reported mention, in order, with its chunk, text, type and confidence, and one candidate per relation with both spans among them, joining the rows of the last mentions with those spans; nothing else is added, and each row is attached to what its best match and the thresholds say |
| EntityResolution.Session.ProcessChunks | src/cranus/graph/pipeline.py:39-85 | the rows of a document are those of its chunks, chunk after chunk; the mentions counted are those reported |
| EntityResolution.Session.ProcessDocument | src/cranus/graph/pipeline.py:35-89 | the new mention rows, in the order of their ids, are one per mention reported for each chunk in turn, the new candidates one per relation with both spans reported; every new mention is attached to its best match or to a new entity as the thresholds say, one after the other; the statistics equal the growth of each table; entities only gain names; no promotable candidate of the document is left |
| EntityResolution.Session.TakePair | src/cranus/graph/entity_resolution/splink_batch.py:129-138 | one turn of the pass: two live sides at the merge threshold fold the second into the first, at the review threshold they are asked about, otherwise nothing happens; tables and counters keep in step |
| EntityResolution.Session.ResolveType | src/cranus/graph/entity_resolution/splink_batch.py:113-138 | skips small types and failed predictions without effect; otherwise folds the tables along the pass over the sorted pairs and counts merges and questions |
| EntityResolution.Session.RunBatchResolution | src/cranus/graph/entity_resolution/splink_batch.py:141-160 | each type once, in any order; the tables are the old ones with every entity replaced by its home under the passes of all types, each the pass its type would have had alone; what has gone is the second side of a strong pair of its type, no strong pair keeps both sides, and the questions asked are those about review-band pairs that do; `merged` is the drop in entities, `queued` the growth of reviews |
| BatchPass.PassProgress | src/cranus/graph/entity_resolution/splink_batch.py:128-138 | merges form a forest with live roots inside the components of the strong pairs; each entity dropped is the second side of a strong pair and shares the home of the first; every strong pair has lost a side |
| BatchPass.PassAsksExactly | src/cranus/graph/entity_resolution/splink_batch.py:129-138 | with pairs in descending order, exactly the review-band pairs with both sides live at the end are asked about, in order |
| BatchPass.BatchCharacterised | src/cranus/graph/entity_resolution/splink_batch.py:127-138 | all of this for any predictions, through the descending sort |
| BatchPass.BatchStrongestFirst | src/cranus/graph/entity_resolution/splink_batch.py:127-138 | of every strong pair of members one side goes in a merge along a pair at least as strong, perhaps the pair itself, and merges into an entity come from pairs at least as strong as the one that later takes it away |
| BatchTypes.BatchComesTo | src/cranus/graph/entity_resolution/splink_batch.py:141-160 | over all types, said of predictions and tables alone: what has gone is the second side of a strong pair of its type with enough entities, what is left has only gained aliases, no strong pair keeps both sides, and the new questions are those about the pairs in the review band that do |
| BatchPass.FoldStep | src/cranus/graph/entity_resolution/splink_batch.py:132-135 | after a merge every table is still the old one with each entity replaced by its home, names inherited, cleared reviews accounted for |
| BatchPass.FoldedConcat | src/cranus/graph/entity_resolution/splink_batch.py:153-156 | two passes one after the other fold the tables as one pass with the actions of both |
| Clustering.ClusterPairs | src/cranus/graph/entity_resolution/clustering.py:11-18 | disjoint clusters of more than one member; two nodes share one if and only if a path of pairs at the threshold joins them |
| Clustering.SameBlockIffConnected | src/cranus/graph/entity_resolution/clustering.py:11-18 | in the partition built so far, sharing a block is being connected |
| Clustering.AddPairKeepsPartition | src/cranus/graph/entity_resolution/clustering.py:13-17 | adding a pair keeps the blocks the connected components |
| Crawler.WebCrawler.Discover | src/cranus/connectors/web_crawler.py:89-131 | terminates; emits each page once at its true shortest distance, closer pages first; every page is reached by a trail of open pages whose domains are listed, or are those of the seeds if none is; if the queue empties, exactly the pages on such trails within the depth bound, in the order of first discovery; otherwise exactly `max_pages`; the cache holds the emitted pages |
| Pages.ReachedIff | src/cranus/connectors/web_crawler.py:98-131 | a page is reached in `n` steps if and only if a trail of `n` links between open pages of allowed domains leads from a seed to it |
| Crawler.WebCrawler.ReachedEmittedOrWaiting | src/cranus/connectors/web_crawler.py:104-131 | a page reachable within the bound is emitted in time unless something at least as close still waits |
| Crawler.WebCrawler.HeadAtDistance | src/cranus/connectors/web_crawler.py:104-108 | an unseen page at the head of the queue is at exactly its queue depth, and everything closer is emitted |
| Crawler.WebCrawler.VisitHead | src/cranus/connectors/web_crawler.py:108-131 | visiting the head keeps every invariant of the search |
| Crawler.WebCrawler.TakeHead | src/cranus/connectors/web_crawler.py:105-131 | the head is emitted, cached and followed exactly when unseen, allowed, fetched and HTML; otherwise dropped |
| Crawler.WebCrawler.EmptyQueueIsComplete | src/cranus/connectors/web_crawler.py:104-131 | with an empty queue, emitted is the same as reachable within the depth bound |
| Crawler.WebCrawler.CacheHolds | src/cranus/connectors/web_crawler.py:124-124 | the cache holds the content of exactly the emitted pages besides what it held |
| Units.SplitUnits | src/cranus/ingestion/chunking.py:34-46 | the units are ordered disjoint slices, stripped non-blank lines, one newline at least between any two, nothing but white space outside them, even when lines repeat |
| Units.HardSplit | src/cranus/ingestion/chunking.py:53-71 | piece `k` is what tokens from `k * max_tokens` on add to the decoded prefix |
| Units.CutPieceIs | src/cranus/ingestion/chunking.py:60-70 | piece `k` runs from where the text of the first `k * max_tokens` tokens ends to where that of `max_tokens` more ends, or of all, and holds what the longer text adds |
| Units.PiecesTileIff | src/cranus/ingestion/chunking.py:53-71 | the pieces are adjacent slices that make up the unit if and only if at every cut the decoded prefix goes on as the unit does |
| ByteTokens.BytePiecesTileIff | src/cranus/ingestion/chunking.py:53-71 | if tokens stand for UTF-8 bytes and a character cut short decodes to U+FFFD: if and only if no cut falls inside a character, other than U+FFFD itself |
| ByteTokens.ExactCutsIff | src/cranus/ingestion/chunking.py:56-58 | for such tokens, the cuts are exact if and only if each leaves every character whole |
| Units.ExactPrefixesSuffice | src/cranus/ingestion/chunking.py:56-58 | prefixes that decode to prefixes, as the comment claims, are enough wherever the cuts fall |
| Units.SomeCutInexact | src/cranus/ingestion/chunking.py:56-58 | a tokenizer from whose tokens every text comes back and whose cuts are not exact |
| Windows.Packing.WindowsChained | src/cranus/ingestion/chunking.py:93-138 | every window goes on while it holds less than the target and the next unit fits, and no further; starts strictly increase, ends never move back, no unit is skipped; what is repeated is the longest run within the budget, or one unit, and never the whole window; ends move on if and only if what is repeated leaves room; at most as many windows as units |
| Windows.Packing.OverlapBounds | src/cranus/ingestion/chunking.py:126-138 | of the units of a window as many are repeated as the budget allows: one more would exceed it, unless only the window's first is left |
| Windows.Packing.WindowsWithinMaxIff | src/cranus/ingestion/chunking.py:97-105 | every window's summed unit tokens stay within the maximum if and only if every unit's do |
| Windows.Packing.Located | src/cranus/ingestion/chunking.py:93-138 | every unit lies in some window |
| Chunking.FitUnits | src/cranus/ingestion/chunking.py:80-86 | a line that fits stays as it is, one that is too long is replaced by its pieces; if such lines are cut exactly, the fitted units tile the text, hold no newline, and stand on a non-space behind every gap; if their decoded pieces count no more than their tokens, every unit stays within the maximum |
| Chunking.PackWindow | src/cranus/ingestion/chunking.py:94-105 | the greedy loop ends its window where the specification says and counts its tokens |
| Chunking.StepBack | src/cranus/ingestion/chunking.py:126-138 | the backward loop repeats as many units as the specification says, which `OverlapBounds` proves the most that fit |
| Chunking.PackUnits | src/cranus/ingestion/chunking.py:88-140 | one chunk per window of the packing, numbered in order |
| Chunking.ChunkText | src/cranus/ingestion/chunking.py:74-140 | no chunks exactly for blank texts; otherwise one chunk for each window over the lines or their pieces, each with its units' text, offsets and tokens, every window full and its overlap as long as the budget allows; the units tile the text, given exact cuts of the lines that are too long; under the counting hypothesis for them every chunk's unit tokens sum to no more than the maximum |
| Chunking.ChunkIsSliceUpToSpaces | src/cranus/ingestion/chunking.py:107-115 | up to white space a chunk's text is the text between its offsets |
| Chunking.ChunkIsSliceIff | src/cranus/ingestion/chunking.py:107-115 | to the character it is, if and only if around its non-empty units the text has as many newlines as the chunk joins and nothing else |
| Chunking.SomeChunkInexact | src/cranus/ingestion/chunking.py:107-115 | two lines that fit with a blank line between them give one chunk, and it is not the slice |
| Chunking.EveryCharacterInSomeChunk | src/cranus/ingestion/chunking.py:74-140 | every non-space character lies between the offsets of some chunk |
| JobQueue.StepKeepsExclusive | src/cranus/worker/jobs.py:23-97 | in every interleaving of locks, commits, rollbacks, crashes and finishes, a job stays with the one worker whose claim committed and is not executed twice |
| JobQueue.StepKeepsStatusesForward | src/cranus/worker/jobs.py:23-97 | committed statuses go pending, running, then succeeded or failed, apart from a success that an exception followed |
| JobQueue.TerminalOverwrittenIff | src/cranus/worker/jobs.py:77-97 | a terminal status changes if and only if a failure is written behind a committed success |
| JobQueue.OverwriteArmedIff | src/cranus/worker/jobs.py:80-84 | that situation arises if and only if the success commits and an exception follows it |
| JobQueue.SuccessCanBeOverwritten | src/cranus/worker/jobs.py:80-97 | from every state in which a job ran well, that can happen |
| JobQueue.ClaimCommits | src/cranus/worker/jobs.py:23-68 | an idle worker can claim any pending row that no one holds, and with the commit the row is running and its own |
| JobQueue.OutcomeWritten | src/cranus/worker/jobs.py:70-97 | a run that went well is written as succeeded, any other as failed, and the worker is free again |
| JobQueue.CrashAnytime | src/cranus/worker/jobs.py:23-68 | a crash at any point releases an open claim and keeps every committed row |
| JobQueue.StepRefinesTakeOnce | src/cranus/worker/jobs.py:23-68 | every step is a step of an abstract queue, in which the pending rows are available and a job belongs to the worker whose claim committed, or changes nothing there; only the commit of a claim takes a job |
| Dispatch.EveryRunIsSafe | src/cranus/worker/kafka_queue.py:46-84 | over all runs of both backends with rebalances, crashes, redeliveries and offset commits that land late, out of order or never: exclusive execution, forward statuses, and every message below a committed offset has had its handler attempted |
| Dispatch.BusKeepsOffsets | src/cranus/worker/kafka_queue.py:70-82 | each move keeps the commit discipline, whenever an asynchronous commit lands |
| Dispatch.MoveRefinesTakeOnce | src/cranus/worker/main.py:48-67 | both backends take jobs from that one take-once queue |
| Dispatch.AtMostOneRun | src/cranus/worker/main.py:51-57 | no two connector starts in any run, finished or cut short, are of the same job |
| Dispatch.ClaimByIdIff | src/cranus/worker/kafka_queue.py:77-79 | a delivery can be worked on if and only if its message names a job that is pending and not held |
| Dispatch.EveryRunWorksOnNamed | src/cranus/worker/main.py:51-57 | in every run, the job a worker holds, runs or has run under a delivery is the one its message names |
| Dispatch.CrashRedelivers | src/cranus/worker/kafka_queue.py:46-84 | after a crash another worker is given the first message above the committed offset |
| Dispatch.HandledThenCommitted | src/cranus/worker/kafka_queue.py:70-82 | when the handler has returned, exactly the offset behind its message can be committed |
| Dispatch.SomeRunOverwrites | src/cranus/worker/jobs.py:80-97 | a run in which a success is overwritten by a failure |
| Citations.VerifyCitations | src/cranus/query/verify.py:31-53 | the loop computes the kept sentences, numbered claims, confidence and verdict of the specification |
| Citations.VerifiedKeeps | src/cranus/query/verify.py:31-53 | one numbered claim for each sentence that cites something valid, in order, with the valid ids it cites as often as it does; their text joined, their share of the sentences as confidence |
| Citations.SentencesOfText | src/cranus/query/verify.py:12-35 | no sentence has an end mark before white space, all but the last end in an end mark, and together they are the answer up to white space |
| Citations.CitesAreAll | src/cranus/query/verify.py:13-40 | the ids found are those of all brackets around word characters and hyphens, in order |
| Citations.SentencesAre | src/cranus/query/verify.py:12-35 | every sentence is non-blank, stripped and free of breaks, and all but the last end in an end mark |
| Citations.SentencesOfJoin | src/cranus/query/verify.py:35-51 | such sentences joined with spaces split back into themselves |
| Citations.VerificationIsIdempotent | src/cranus/query/verify.py:31-53 | verifying an accepted answer again gives the same text and claims with confidence one |
| Citations.KeptGrows | src/cranus/query/verify.py:39-44 | with fewer valid ids the kept sentences are a filtering, in order, of those kept with more |
| Citations.CitesOfSentences | src/cranus/query/verify.py:12-40 | splitting an answer into sentences loses no citation and makes none up |
| Citations.VerifiedCites | src/cranus/query/verify.py:31-53 | the claims are supported by exactly the valid ids the answer cites, in order; insufficient if and only if there are none |
| Synthesis.Synthesize | src/cranus/query/llm_client.py:62-75 | prints one cited sentence for each of the first five sources |
| Synthesis.SynthesizedIs | src/cranus/query/llm_client.py:62-75 | the answer is one sentence for each of the first five sources, its snippet and its id in brackets, joined with spaces |
| Synthesis.SnippetIs | src/cranus/query/llm_client.py:67-69 | a snippet is the stripped text on one line, of more than 220 characters what stands before the last gap among the first 220, without the full stops at its end |
| Synthesis.RoundTrip | src/cranus/query/llm_client.py:62-75 | print then verify: never insufficient, cites each of the first five sources, nothing but sources, and beyond the five exactly what the snippets bracket |
| Synthesis.NoBracketInsufficient | src/cranus/query/llm_client.py:62-64 | an answer without brackets, as the one given without sources, is verified as insufficient |
| Synthesis.SixthSourceCited | src/cranus/query/llm_client.py:66-74 | six sources of which the sixth is cited, because the first one's snippet brackets its id |
| Fusion.RrfMerge | src/cranus/retrieval/fusion.py:21-36 | the dictionaries end up with one entry per id in order of first appearance, scored by the sum over all lists, then sorted stably; fails exactly when a negative rank constant makes a divisor zero at some rank in the lists |
| Fusion.FusedIs | src/cranus/retrieval/fusion.py:26-36 | one entry for each id with the document and text of its first item, sorted by total score, equal scores by first appearance |
| Fusion.ScoreIsSum | src/cranus/retrieval/fusion.py:26-28 | the score of an id is the sum, over the ranks at which it stands in each list, of one over the constant plus the rank |
| Fusion.FirstsDistinct | src/cranus/retrieval/fusion.py:26-29 | one entry per id, for exactly the ids in the lists, each an item of the lists |
| Fusion.ScoreIgnoresListOrder | src/cranus/retrieval/fusion.py:26-28 | scores do not depend on the order of the lists |
| Fusion.FusionRespectsDominance | src/cranus/retrieval/fusion.py:21-36 | with duplicate-free lists a chunk that outranks another wherever the other appears precedes it in the result |
| Fusion.Dedupe | src/cranus/query/pipeline.py:174-179 | exactly one candidate per id, the first of the best-scored, in descending order |
| Fusion.DedupedInOrder | src/cranus/query/pipeline.py:174-179 | equal scores stay in the order in which the ids first appear |
| Fusion.FusedStays | src/cranus/query/pipeline.py:98-101 | deduplicating a fused list changes nothing |
| Fusion.FusedWithGraph | src/cranus/query/pipeline.py:98-101 | together with graph candidates, a fused result stays if and only if no graph candidate of its id scores higher |
| Ordering.SortDescCorrect | src/cranus/retrieval/fusion.py:35-35 | the descending sort is ordered, a permutation, and stable |
| Ordering.SortDescPlaces | src/cranus/retrieval/fusion.py:35-35 | where each element of the sorted list comes from: no place twice, greater keys first, equal keys as they stood |
| Agent.KeyIdentifies | src/cranus/agent/guardrails.py:31-31 | keys of known tools agree if and only if tool and arguments do |
| Agent.TakeTurn | src/cranus/agent/loop.py:52-79 | one turn executes, skips or finishes as the specification says and keeps the budget in step with the history |
| Agent.StepIs | src/cranus/agent/loop.py:52-79 | every step of a run takes the action the model proposes then, and finishes, is unknown, a duplicate or executed by its tool's name and the calls executed before |
| Agent.RunAgent | src/cranus/agent/loop.py:51-96 | the loop takes the one course the budgets and the model determine, logs one tool call per step and then why it stopped, and reports that course |
| Agent.RunEnds | src/cranus/agent/loop.py:51-96 | only the last step of a run is a `finish`; the answer it gives, if it lists a citation, is what is verified, against the gathered ids, and otherwise the empty one |
| Agent.RunsAreBounded | src/cranus/agent/loop.py:51-64 | for any model: at most the smaller budget of steps, tokens over by less than the last action, and it stops only when finished or exhausted |
| Agent.TokensAreWords | src/cranus/agent/guardrails.py:38-40 | the tokens of a text are its longest runs of characters that are not white space, but at least one |
| Agent.RunsOneWay | src/cranus/agent/loop.py:51-64 | budgets and model determine the number of steps: no two runs differ |
| Agent.ReasonMisleadsIff | src/cranus/agent/loop.py:49-51 | "max_steps_exhausted" is logged with steps left if and only if some smaller number of steps uses up the tokens with no `finish` on the way |
| Agent.TokensCanRunOut | src/cranus/agent/loop.py:49-51 | it is, for any model that never finishes, with five steps and one token |
| Agent.ExecutedIffNew | src/cranus/agent/loop.py:66-79 | a retrieval call is executed if and only if the same call was not executed earlier in the run |
| Agent.NoCallTwice | src/cranus/agent/loop.py:70-72 | no two executed calls have the same tool and arguments |
| Agent.GatheredIs | src/cranus/agent/loop.py:81-82 | the gathered ids are exactly those some executed call returned, each held once |
| Agent.GatheredInOrder | src/cranus/agent/loop.py:81-82 | for each id returned the item returned last, in the order in which the ids came first |
| Agent.SupportIsRetrieved | src/cranus/agent/loop.py:86-96 | an id supports a claim if and only if the answer cites it inline and a call executed in this run returned it |
| Agent.SupportIsListedIff | src/cranus/agent/loop.py:60-62 | the ids supporting claims are among the citations `finish` lists if and only if every returned id the answer cites inline is |
| Agent.SupportCanBeUnlisted | src/cranus/agent/loop.py:92-96 | a run whose claim is supported by an id that is not listed |
| Agent.SourcesAreTheSupport | src/cranus/agent/loop.py:102-108 | the listed sources are the gathered items that support a claim, each once |
| Agent.SourcesInOrder | src/cranus/agent/loop.py:102-108 | the listed sources stand in the order in which they were gathered |
| Relations.ArgMentions | src/cranus/graph/relation_extraction.py:88-100 | the loops collect the attached mentions of the specification, each once |
| Relations.ArgsIff | src/cranus/graph/relation_extraction.py:88-100 | a mention is collected if and only if a child with one of the dependencies, or a token coordinated with it, brings it |
| Extraction.ArgsInOrder | src/cranus/graph/relation_extraction.py:88-100 | each mention is collected once, in the order in which children and the tokens coordinated with them bring them |
| Extraction.MentionOfIs | src/cranus/graph/relation_extraction.py:79-97 | a token stands for the first mention that holds it, or, if none does, for the first that holds its head |
| Extraction.FoundersAre | src/cranus/graph/relation_extraction.py:103-130 | the founders at a verb: the subjects of the first coordinated verb above it that has any, three heads up at most, or else, where that chain ends at a relative clause, the word it modifies, or else the agents |
| Relations.AcquiredPairsIff | src/cranus/graph/relation_extraction.py:188-200 | the (target, buyer) pairs are the different organizations that are object and subject, or passive subject and agent, of the verb |
| Relations.AcquiredIff | src/cranus/graph/relation_extraction.py:187-200 | which ACQUIRED relations a token gives: those pairs, if it is an acquisition verb in a sentence with a trigger |
| Relations.FoundedIff | src/cranus/graph/relation_extraction.py:170-185 | which FOUNDED and CO_FOUNDED_WITH relations a token gives, in both directions |
| Relations.SubsidiaryIff | src/cranus/graph/relation_extraction.py:202-227 | which SUBSIDIARY_OF relations a token gives, by either pattern, in both directions |
| Extraction.FallbackIff | src/cranus/graph/relation_extraction.py:229-241 | which relations the fallbacks give: the only person and the only organization, the only two organizations in order, each if a trigger occurs and the parse gave none of the kind |
| Extraction.CandidatesIff | src/cranus/graph/relation_extraction.py:147-241 | a relation is a candidate if and only if a token or a fallback of some sentence with mentions and a trigger gives it |
| Relations.ExtractRelations | src/cranus/graph/relation_extraction.py:147-259 | the loops give the first candidate of every key, sentence by sentence |
| Relations.ExtractedTyped | src/cranus/graph/relation_extraction.py:147-259 | every relation has the endpoint types of its kind and both ends in the one sentence that is its evidence |
| Relations.DeduplicationIs | src/cranus/graph/relation_extraction.py:243-259 | what is kept is, in order, the first candidate of each key, and no key is lost |
| Extraction.TriplesOnce | src/cranus/graph/relation_extraction.py:243-259 | of candidates with the same spans and kind exactly the first is kept |
| Voice.AcquiredVoiceInvariance | src/cranus/graph/relation_extraction.py:187-200 | the passive form of any active clause gives the same (target, buyer) pairs, whatever is coordinated |
| Voice.PassiveStandsFor | src/cranus/graph/relation_extraction.py:103-200 | what all verbs of the passive form stand for, whoever takes over whose subjects, is read off the active sentence |
| Rewording.FoundReworded | src/cranus/graph/relation_extraction.py:79-200 | what verbs stand for depends on the parse and on what stands where, not on offsets, order of mentions or words |
| SentenceEnds.GivenInTheEnd | src/cranus/graph/relation_extraction.py:151-241 | the ends of a sentence's relations of one kind are the pairs its verbs give, or if there are none and a trigger occurs, what the fallback gives |
| Voices.AcquiredVoicesAgreeIff | src/cranus/graph/relation_extraction.py:147-241 | a sentence and its passive form, in its own words and order, give the same ACQUIRED relations in the end if and only if, with a trigger in both, a verb stands for some pair, there are not two organizations, or the two come in the same order; with a trigger in one, if and only if there is nothing to give |
| AcquiredWitness.SomeAcquisitionTurns | src/cranus/graph/relation_extraction.py:239-241 | "Ann of Acme acquired Beta" gives (Acme, Beta), "Beta was acquired by Ann of Acme" gives (Beta, Acme) |
| TriggerWitness.SomeTriggerMissing | src/cranus/graph/relation_extraction.py:156-161 | "Acme acquires Beta" gives no acquisition, "Beta was acquired by Acme" gives one |
| Voices.OneOfEachFounded | src/cranus/graph/relation_extraction.py:235-238 | with one person and one organization in a sentence with a founding trigger, FOUNDED joins exactly these two, whatever the parse |
| Voices.FoundedVoicesAgreeIff | src/cranus/graph/relation_extraction.py:169-238 | with a trigger in both voices, they give the same FOUNDED relations in the end if and only if there is one person and one organization, or all verbs stand for the same in both, read off the active sentence; with a trigger in one, if and only if that one has nothing to give |
| Voices.SoleFoundedVoicesAgreeIff | src/cranus/graph/relation_extraction.py:169-238 | with no other founding verb and no organization as complement: if and only if there is one of each, or the active clause has no person or no organization; trigger cases alike |
| Voices.CouplesAgreeIff | src/cranus/graph/relation_extraction.py:180-185 | the same for CO_FOUNDED_WITH, which has no fallback |
| Voices.SoleCouplesAgreeIff | src/cranus/graph/relation_extraction.py:180-185 | for a sole founding verb with at most one person as founder in the passive: if and only if the active sentence has no trigger or no couple |
| VoiceWitness.SomeVoicesDiffer | src/cranus/graph/relation_extraction.py:170-185 | "Ann and Bob cofounded Acme" gives FOUNDED for both and a couple, "Acme was cofounded by Ann and Bob" neither |
| AuditExport.Watermark | src/cranus/storage/iceberg_export.py:67-73 | none for an empty table, otherwise the greatest timestamp in it |
| AuditExport.AuditTable.Export | src/cranus/storage/iceberg_export.py:98-124 | an export is one step of the run and reports how much the table grew |
| AuditExport.EveryRunConserves | src/cranus/storage/iceberg_export.py:98-122 | in every run each row of the log is exported once, pending, or late, and the table is in timestamp order |
| AuditExport.NoRowTwice | src/cranus/storage/iceberg_export.py:98-122 | no row is exported twice |
| AuditExport.ExportCompleteIff | src/cranus/storage/iceberg_export.py:98-122 | after an export the table equals the log if and only if no row ever came late |
| AuditExport.InTimeNeverLate | src/cranus/storage/iceberg_export.py:103-105 | rows newer than all exported ones when they appear are never late |
| AuditExport.StaleRowIsMissed | src/cranus/storage/iceberg_export.py:103-105 | a row that is not newer is missed by the next export |
| AuditExport.LateStaysLate | src/cranus/storage/iceberg_export.py:103-105 | a late row is late in every continuation |
| AuditExport.ExportCanMiss | src/cranus/storage/iceberg_export.py:76-81 | some run of inserts and exports ends with a table that is not the log |
| Engagements.InScopeIffLabelSuffix | src/cranus/governance/engagements.py:19-24 | a request is in scope if and only if the labels of the engagement's target are the last labels of the request's |
| Engagements.ScopeIsOfCores | src/cranus/governance/engagements.py:19-24 | outer white space and case make no difference: a request is in scope if and only if its lower-case core is the target's or ends in a dot and the target's |
| Engagements.ScopeIsPartialOrder | src/cranus/governance/engagements.py:19-24 | scope is reflexive, transitive, and antisymmetric on normalised targets |

## Left out

- Job rows, workers and the Kafka consumer are steps on values rather than classes with methods: the claims are about interleavings of transactions, which no single method body shows. Objects, sessions and identity maps are not captured there.
- `claim_next_job` takes some claimable row; that it prefers the oldest is not modelled, nor are `locked_by`, timestamps and stored results.
- A crashed worker leaves its job running; nothing is claimed about jobs being finished eventually.
- Alias lists are sets: the code rebuilds them from a set, in no particular order.
- Rows come out of a query in any order, and any edge of a triple may be the one that gains evidence.
- Spans of stored mentions are used to build candidates and then not kept in the rows.
- Each ingestion, decision and merge statement is one atomic change; flushing and rollback of database sessions are not modelled.
- ChunkText: requires `chunk_max_tokens` to be positive; with zero the code raises.
- The token count of a joined chunk, newlines included, is not bounded; sums of unit counts are.
- `discover` is modelled as the whole list of pages; a caller that stops iterating early is not. Redirects, robots files, waiting between requests, header checks and link parsing are part of the answer a URL gives.
- Scores and confidences are real numbers, not floating point.
- The agent's wall-clock time, answer hash, watermark text and license filter (which lets every gathered item pass, as none carries a license) are not modelled; an exception in a tool ends the code's run and has no counterpart here.
- Python's `json.dumps` of arguments is an input; two arguments that print alike count as the same.
- Whether a mention object is the same or merely equal makes no difference: a token is always looked up to the first mention that contains it.
- Rows of the audit export with equal timestamps come in log order; the database may order them otherwise.
- Connectors other than the crawler, transcription, OCR, embeddings, reranking, API routers, authentication, access checks, rate limits and scheduling: thin or foreign code that would only add easy members.
- FusionRespectsDominance: is about rank constants that are not negative; with a negative one shares do not fall with the rank.
- RunBatchResolution: does not repeat the total of scored pairs, which `ResolveType` states per type.
- AcquiredVoiceInvariance: supposes that the verb's children hang on it and that its subjects have mentions of their own, or that "by" stands in the mention, if any, the verb stands in.
- AcquiredVoicesAgreeIff: supposes the same of the verb whose clause is turned, that the parse is a tree, and that the passive sentence has the same names and parse, auxiliaries left out; its words, triggers, offsets and order of mentions are its own.
- FoundedVoicesAgreeIff: supposes what AcquiredVoicesAgreeIff does.
- CouplesAgreeIff: supposes what AcquiredVoicesAgreeIff does.
- Subsidiaries are not compared across voices; their verb pattern is passive only.
- ExactCutsIff: how the tokenizer decodes a character cut short is an assumption about its library (`ByteLevel`).
- The wording of the answer given without sources: any text without brackets has the property proved.
