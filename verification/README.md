# agentic-rag core, modelled in Dafny

agentic-rag answers questions about a directory of Markdown documents. It has
two halves, and this project models both.

**Indexing.** A hierarchical chunker cuts each document into *parent*
sections of at least 2000 characters and *child* fragments (500 characters,
100 overlap). The split pass cuts sections longer than 10000 characters, but
the clean pass that follows can glue a short piece back on, so a parent can
still exceed 10000 characters. The parent sections are built in four passes:

1. Header splitting.
2. Merging sections that are too short, joining their heading metadata as a
   trail such as `Introduction -> Background`.
3. Splitting sections that are too long.
4. A second clean-up of short fragments.

Each parent gets the id `{stem}_parent_{i}`. Every child carries its parent's
id in its metadata. Parents are saved in a file-per-id *parent store*, and
children go to a vector index.

**Answering.** A LangGraph workflow runs these nodes in order:

1. `summarize` compresses the recent conversation. When it calls the model,
   it also sends a reset marker into the answers list.
2. `analyze_rewrite` passes the latest message through as the single
   rewritten question.
3. `route_after_rewrite` either pauses before `human_input` or fans out one
   `process_question` subgraph run per rewritten question.
4. Each subgraph run is a ReAct agent/tools loop. Its tools search the child
   index and fetch parents from the store, and it ends by extracting one
   indexed answer record.
5. The `accumulate_or_reset` reducer collects the answer records of the
   parallel runs.
6. `aggregate` sorts the records by index, numbers them `Answer 1..N` and asks
   the model for one final message.

Modules:

| file | module | what it holds |
|---|---|---|
| strings.dfy | `Strings` | `Option`; Python's `sep.join`, `str(n)` for naturals and `str.strip()` |
| documents.dfy | `Documents` | the `Document` record; the library text splitter as a function parameter |
| chunker.dfy | `DocumentChunker` | the merge, split and clean passes; parent ids and children; the per-document and per-directory pipeline |
| store.dfy | `ParentStore` | the store as a map from parent id to the JSON object `save` writes |
| tools.dfy | `Tools` | the search and parent-fetch tools: formatting, sentinels and error strings |
| graph_state.dfy | `GraphState` | messages, answer records, the reducer, the state records and how a node's return is merged into the state |
| edges.dfy | `Edges` | `route_after_rewrite` and the `Send` fan-out |
| nodes.dfy | `Nodes` | the five node functions, with the language model as a function parameter |
| graph.dfy | `Graph` | the main graph and subgraph edges; execution with the pause before `human_input` |
| pipeline.dfy | `Pipeline` | properties that span modules: chunk, save, retrieve, and fan-out, reduce, aggregate |

Places where the code does something other than what its own comments or
its apparent purpose suggest. The model follows the code:

- The comment on the clean pass (project/document_chunker.py:163-167) says
  a short fragment left after splitting is merged once more, glued onto the
  next or the previous block. In the code, a short chunk with no kept chunk
  before it and no chunk after it is dropped instead. The same happens to
  any document whose whole text is shorter than 2000 characters. See
  `DocumentChunker.SingleShortSectionYieldsNothing` and
  `DocumentChunker.CleanLossless`.
- The split pass exists to keep parents within 10000 characters
  (project/document_chunker.py:137-139). The clean pass runs after it and
  glues a short piece onto the previous kept chunk, which can push that chunk
  past 10000 characters again. With a section of 11000 characters cut into
  10000 and 1000, and a following section of 5000, the first of the two
  parents has 11002 characters. See `DocumentChunker.CleanCanExceedMax`.
- `summarize` emits the reset marker only on the path where it calls the
  model. On its two early returns, with fewer than four messages or with no
  qualifying message before the latest, the answers already in the state
  stay. See `Pipeline.SummarizeClearsOnlyOnModelPath`. Whether a later turn
  can reach an early return with answers from an earlier turn depends on the
  messages that subgraph runs hand back to the main graph, which this model
  leaves out. If a run's messages are merged into the main list, every turn
  after a completed fan-out has at least four messages, the first of them
  the user's, so `summarize` calls the model and the old answers are cleared
  (`Pipeline.SummarizeClearsOnLaterTurns`). Only when they are not merged
  can a stale answer survive and sort first (`Pipeline.StaleAnswerSortsFirst`).
- The store writes the keys `page_content` and `metadata`. The parent-fetch
  tool reads the keys `parent_id` and `content`. So a parent that was found
  is always shown with id `n/a` and empty content. See
  `Tools.FoundParentShowsNoContent` and `Pipeline.RetrievedParentIsEmpty`.

## Model

| member | source | states |
|---|---|---|
| DocumentChunker.MergeMetadataLoop | project/document_chunker.py:112-116 | Merging metadata gives the union of the keys. A key in both maps becomes `old -> new`. A key only in the incoming section is copied as is. A key only in the buffer keeps its value. The result equals the per-key merge map the model uses |
| DocumentChunker.MergeLoop | project/document_chunker.py:102-121 | The merge loop emits only chunks of at least MIN_PARENT_SIZE characters. The buffer left at the end is shorter than that. The number of emitted chunks never shrinks. If there was any input, something is emitted or left in the buffer |
| DocumentChunker.MergeLoopKeepsEmitted | project/document_chunker.py:118-121 | Emitted chunks are never taken back: the chunks emitted so far stay, unchanged and in order, at the head of the loop's result |
| DocumentChunker.MergeEmptiness | project/document_chunker.py:99-131 | The merge result is empty exactly when the input is empty |
| DocumentChunker.MergeSizes | project/document_chunker.py:104-131 | After merging, every chunk reaches MIN_PARENT_SIZE unless the result is a single chunk. A short first chunk means it is the only one |
| DocumentChunker.MergeLoopLossless | project/document_chunker.py:104-121 | The merge loop's invariant: the emitted chunks, the buffer and the unvisited sections, joined with a blank line, never change |
| DocumentChunker.MergeLossless | project/document_chunker.py:94-131 | Merging loses no text and keeps its order: the output contents joined with `\n\n` equal the input contents joined the same way |
| DocumentChunker.MergeTwoShortSections | project/document_chunker.py:104-121 | A short section followed by another becomes one chunk. The contents are glued with `\n\n` and the metadata is merged key by key |
| DocumentChunker.MergeTrailingKeepsMetadata | project/document_chunker.py:124-127 | A short trailing buffer is glued onto the content of the last emitted chunk. Its own metadata is dropped |
| DocumentChunker.SplitDistributes | project/document_chunker.py:141-156 | The split pass works chunk by chunk in order: splitting a concatenation concatenates the splits |
| DocumentChunker.SplitKeepsShortInPlace | project/document_chunker.py:143-145 | A chunk within MAX_PARENT_SIZE reappears unchanged, between the splits of its neighbours |
| DocumentChunker.SplitIdentityWhenBounded | project/document_chunker.py:143-145 | When no chunk exceeds MAX_PARENT_SIZE, the split pass returns its input |
| DocumentChunker.SplitBounded | project/document_chunker.py:146-154 | If the library splitter honours its chunk size, no chunk after the split pass exceeds MAX_PARENT_SIZE |
| DocumentChunker.CleanLoop | project/document_chunker.py:166-183 | Every chunk the clean loop keeps reaches MIN_PARENT_SIZE. Once a chunk has been kept, the result is never empty |
| DocumentChunker.CleanSmallChunks | project/document_chunker.py:161-183 | Every chunk of the clean pass reaches MIN_PARENT_SIZE |
| DocumentChunker.CleanLoopKeepsText | project/document_chunker.py:170-181 | Once a chunk has been kept, the clean loop loses no text: gluing a short chunk onto the last kept one preserves the `\n\n` join |
| DocumentChunker.CleanLoopFromNothing | project/document_chunker.py:170-183 | Before anything is kept, the loop's result is empty exactly when the remaining text, joined, is shorter than MIN_PARENT_SIZE. Otherwise the join is preserved |
| DocumentChunker.CleanLossless | project/document_chunker.py:161-183 | The clean pass returns nothing exactly when the whole joined text is shorter than MIN_PARENT_SIZE. Otherwise it loses no text and keeps the order |
| DocumentChunker.CleanLoopIdentity | project/document_chunker.py:170-181 | On chunks that all reach MIN_PARENT_SIZE, the clean loop only appends them to the kept list |
| DocumentChunker.CleanIdempotent | project/document_chunker.py:161-183 | Cleaning twice is cleaning once |
| DocumentChunker.CleanDropsLoneShortChunk | project/document_chunker.py:170-183 | A single short chunk has no kept chunk before it and no chunk after it, so it is dropped |
| DocumentChunker.ParentIdInjective | project/document_chunker.py:197 | `{stem}_parent_{i}` determines both the stem and the ordinal i |
| DocumentChunker.ParentPairSpec | project/document_chunker.py:195-203 | The i-th pair has the id `{stem}_parent_{i}` and the parent's content. Its metadata has `source = {stem}.pdf` and `parent_id` equal to the id, and every other key is kept |
| DocumentChunker.PairsFromSpec | project/document_chunker.py:195-203 | There is one (id, parent) pair per parent, in parent order |
| DocumentChunker.CreateChildChunks | project/document_chunker.py:188-214 | The source's single loop appends exactly the pairs and children that the recursive definitions give |
| DocumentChunker.ChildrenLinked | project/document_chunker.py:205-214 | Every child's `parent_id` is the id of the parent it was split from |
| DocumentChunker.ParentIdsDistinct | project/document_chunker.py:195-203 | The parent ids within one document are pairwise distinct |
| DocumentChunker.CleanCanExceedMax | project/document_chunker.py:170-181 | As written, the clean pass can push a parent that is not the last one past MAX_PARENT_SIZE: with a splitter that cuts 11000 characters into 10000 and 1000, sections of 11000 and 5000 characters give two parents, the first with 11002 characters |
| DocumentChunker.ChunkDocumentParentsAtLeastMin | project/document_chunker.py:68-89 | Every parent the per-document pipeline produces reaches MIN_PARENT_SIZE |
| DocumentChunker.SingleShortSectionYieldsNothing | project/document_chunker.py:68-89 | A document whose header split gives one short section produces no parent and no child |
| DocumentChunker.DocumentPairIds | project/document_chunker.py:195-203 | The k-th pair of a document has the id `{stem}_parent_{k}` |
| DocumentChunker.DirectoryIdsFromStems | project/document_chunker.py:52-63 | Every parent id of a directory run is `{stem}_parent_{i}` for the stem of one of its documents |
| DocumentChunker.DirectoryIdsDistinct | project/document_chunker.py:52-63 | Documents with distinct stems get pairwise distinct parent ids across the whole directory, so no save overwrites another |
| Strings.NatToStringRoundTrip | project/document_chunker.py:197 | The decimal numeral written into a parent id reads back as the ordinal |
| Strings.StripSpec | project/rag_agent/tools.py:68 | `strip()` returns a slice of the text. Everything cut off on either side is whitespace, and the slice neither starts nor ends with whitespace |
| Strings.StripIdempotent | project/rag_agent/tools.py:68 | Stripping twice is stripping once |
| ParentStore.Save | project/db/parent_store_manager.py:52-65 | `save` adds the id to the stored ids and nothing else |
| ParentStore.SaveMany | project/db/parent_store_manager.py:70-77 | `save_many` adds exactly the ids of its pairs |
| ParentStore.LoadAfterSave | project/db/parent_store_manager.py:62-65 | After a save, the id loads `{"page_content": c, "metadata": m}`, and every other id loads what it loaded before |
| ParentStore.SaveOverwrites | project/db/parent_store_manager.py:62-65 | Saving an id twice keeps only the later record |
| ParentStore.SaveManyLastWins | project/db/parent_store_manager.py:70-77 | After `save_many`, an id loads the document of its last occurrence in the list. An id absent from the list loads what it loaded before |
| ParentStore.LoadNeverSaved | project/db/parent_store_manager.py:94-95 | An id that was never saved loads None |
| ParentStore.LoadContentAfterSaveMany | project/db/parent_store_manager.py:102-106 | After `save_many` on an empty store, `load_content` finds a record exactly for the ids in the list, each holding the document of the id's last occurrence |
| ParentStore.StoredRecordFields | project/db/parent_store_manager.py:62-65 | A record loaded after `save_many` has no top-level `parent_id` or `content` string. Its only string field is `page_content`, holding the text of a pair saved under that id |
| ParentStore.SaveManyDistinct | project/db/parent_store_manager.py:70-77 | When the ids are distinct, every pair loads back its own document |
| Tools.SearchAsksOnce | project/rag_agent/tools.py:57 | The search tool depends only on the index's answer to the query with `k = limit` and score threshold 0.7 |
| Tools.SearchOutcomesDistinguishable | project/rag_agent/tools.py:49-73 | An index failure reads as `RETRIEVAL_ERROR: ` followed by the message. No hits read exactly `NO_RELEVANT_CHUNKS`. Hits read as neither |
| Tools.SearchSingleHit | project/rag_agent/tools.py:65-70 | A single hit is shown as its block alone: `Parent ID: `, the id, `\nFile Name: `, the source, `\nContent: ` and the stripped text |
| Tools.SearchHitsConcatenate | project/rag_agent/tools.py:65-70 | The hits are shown one block per hit in result order, separated by a blank line: the text for hits a + b is the text for a, `\n\n`, then the text for b |
| Tools.SearchParentIdRoundTrip | project/rag_agent/tools.py:65-70 | The parent id printed for the first hit is read back from the tool's text, when the id contains no newline |
| Tools.FoundParentShowsNoContent | project/rag_agent/tools.py:95-99 | A found parent record is shown with id `n/a`, its metadata's `source` (default `unknown`) and empty content |
| Tools.RetrieveOutcomesDistinguishable | project/rag_agent/tools.py:84-102 | A failure reads as `PARENT_RETRIEVAL_ERROR: ` followed by the message. A missing parent reads exactly `NO_PARENT_DOCUMENT`. A found parent starts with `Parent ID: ` |
| GraphState.ResetFreeWritesCompose | project/rag_agent/graph_state.py:25 | Two reset-free writes, one after the other, equal one write of both. No branch's records are overwritten by another's |
| GraphState.ResetBatchDiscardsItsRecords | project/rag_agent/graph_state.py:21-23 | A reset batch discards the records that arrive with it as well |
| GraphState.ReducerKeepsNoMarkers | project/rag_agent/graph_state.py:18-25 | The reducer never stores a reset marker |
| GraphState.ApplyWritesSpec | project/rag_agent/graph_state.py:54 | Over any sequence of writes, the answers are exactly the records written after the last reset, in arrival order. With no reset, they sit on top of the initial list |
| GraphState.Apply | project/rag_agent/graph_state.py:30-54 | Merging a node's return keeps the old messages as a prefix, with the new ones after them. The answers are unchanged when the node returns none |
| GraphState.ApplyKeepsNoMarkers | project/rag_agent/graph_state.py:54 | No node's return can leave a reset marker in the state's answers |
| GraphState.NoUpdateIsIdentity | project/rag_agent/graph_state.py:30-54 | Returning an empty dict leaves the state unchanged |
| GraphState.ApplyAgent | project/rag_agent/graph_state.py:59-72 | A subgraph update appends messages and never changes the task's question or index |
| Edges.RouteAfterRewrite | project/rag_agent/edges.py:28-61 | The router goes to `human_input` exactly when the flag is missing or false. Otherwise it sends one `process_question` run per rewritten question, each with an empty message list |
| Edges.FanoutCarriesQuestions | project/rag_agent/edges.py:48-61 | Reading the questions back from the sends gives the rewritten questions, in order. Task i has index i, so the indices are 0..N-1 and pairwise distinct |
| Edges.RouteEdgeCases | project/rag_agent/edges.py:36-39 | A missing or false flag routes to `human_input`. A clear state with no questions sends nothing |
| Nodes.Relevant | project/rag_agent/nodes.py:46-50 | The filtered list is no longer than its input, and it holds only human messages and AI messages without tool calls |
| Nodes.RelevantMembership | project/rag_agent/nodes.py:46-50 | A message is kept exactly when it is in the history and qualifies |
| Nodes.RelevantAppend | project/rag_agent/nodes.py:46-50 | Filtering keeps order: filtering a concatenation concatenates the filtered parts |
| Nodes.SummaryWindow | project/rag_agent/nodes.py:57 | The window is the last six qualifying messages, or all of them when there are fewer |
| Nodes.WindowSlides | project/rag_agent/nodes.py:57 | On a long history, one more qualifying message drops the oldest from the window and adds the new one at its end |
| Nodes.TranscriptAppend | project/rag_agent/nodes.py:56-59 | The transcript shows each window message once, in order |
| Nodes.Summarize | project/rag_agent/nodes.py:34-83 | `summarize` returns only a summary, plus possibly the single reset marker. Without the marker, the summary is empty |
| Nodes.SummarizeResetIff | project/rag_agent/nodes.py:39-83 | The reset marker is emitted exactly when there are at least four messages and some message before the latest qualifies |
| Nodes.SummaryIgnoresLatest | project/rag_agent/nodes.py:46-47 | The summary never depends on the latest message |
| Nodes.Rewrite | project/rag_agent/nodes.py:89-111 | After the rewrite, the question is clear and the original query is the latest message's text. That text is the only rewritten question, and messages, answers and summary are unchanged |
| Nodes.HumanInput | project/rag_agent/nodes.py:117-124 | `human_input` leaves the state unchanged |
| Nodes.AgentNode | project/rag_agent/nodes.py:130-156 | On an empty scratchpad the node adds the question as a human message, then the model's answer. Afterwards it adds only the model's next answer |
| Nodes.AgentSeesHistory | project/rag_agent/nodes.py:139-156 | On its second turn, the model sees the system prompt, the question, its own first answer and the tool results, in that order |
| Nodes.ExtractFinalAnswer | project/rag_agent/nodes.py:162-192 | The answer is the text of the latest AI message that has text and no tool call, or `Unable to generate an answer.` when there is none. The answer is never empty and is recorded with the task's index and question |
| Nodes.InsertByIndex | project/rag_agent/nodes.py:207 | Insertion adds exactly one element, keeping all the others |
| Nodes.InsertKeepsSorted | project/rag_agent/nodes.py:207 | Inserting into a list sorted by index keeps it sorted |
| Nodes.SortByIndex | project/rag_agent/nodes.py:207 | Sorting is a permutation of the records and is ordered by index |
| Nodes.SortedUnique | project/rag_agent/nodes.py:207 | A sorted permutation of a list with strictly increasing indices is that list |
| Nodes.SortIgnoresArrivalOrder | project/rag_agent/nodes.py:207 | Records with distinct indices sort to the same list, whatever order they arrived in |
| Nodes.FormatAnswersBlocks | project/rag_agent/nodes.py:210-212 | The formatted text is the blocks `\nAnswer k:\n<answer>\n` for k = 1..N, in list order |
| Nodes.Aggregate | project/rag_agent/nodes.py:198-228 | `aggregate` adds exactly one AI message without tool calls and returns no other key. With no answers, the message is `No answers were generated.` |
| Nodes.AggregateIgnoresArrivalOrder | project/rag_agent/nodes.py:198-228 | Two states holding the same distinctly indexed records, in any order, make the same aggregation call and return the same message |
| Graph.MainPathPrefix | project/rag_agent/graph.py:126-127 | Every run starts with `summarize`, then `analyze_rewrite` |
| Graph.HumanInputOnlyViaRouter | project/rag_agent/graph.py:132-135 | `human_input` is entered only from `analyze_rewrite` on the router's `human_input` answer, and it leads back to `analyze_rewrite` |
| Graph.EndOnlyAfterAggregate | project/rag_agent/graph.py:138-139 | END is reached only from `aggregate`, which follows `process_question`. Nothing follows END |
| Graph.PausesBeforeHumanInput | project/rag_agent/graph.py:145-148 | No step enters `human_input` directly. A pause happens exactly after `analyze_rewrite` on the `human_input` route, and it is in front of `human_input` |
| Graph.RunStopsWhenNotRunning | project/rag_agent/graph.py:145-148 | A paused or finished run stays where it is until resumed |
| Graph.UnclearQuestionPauses | project/rag_agent/graph.py:126-148 | An unclear question pauses the run in front of `human_input` after three steps. Resuming goes on to `analyze_rewrite` |
| Graph.ClearQuestionFinishes | project/rag_agent/graph.py:126-139 | A clear question with at least one rewritten question reaches `process_question` in three steps and the end in five |
| Graph.EmptyFanoutFinishesEarly | project/rag_agent/graph.py:132 | A clear state with no rewritten question schedules no run, and the graph ends without `aggregate` |
| Graph.SubPathShape | project/rag_agent/graph.py:80-99 | A finished subgraph run starts with `agent` and ends with `agent`, `extract_answer`, END. `extract_answer` runs once, and every `tools` step sits between two `agent` steps |
| Graph.SubRunIsPath | project/rag_agent/graph.py:89-96 | For every k, the subgraph can loop through the tools k times before answering |
| Pipeline.ChildFindsItsParent | project/document_chunker.py:195-214 | After a document's parents are saved, every child's `parent_id` loads the parent the child was split from |
| Pipeline.RetrievedParentIsEmpty | project/rag_agent/tools.py:95-99 | Fetching a saved parent through the tool shows id `n/a`, the file `{stem}.pdf` and no content |
| Pipeline.RewriteThenRoute | project/rag_agent/nodes.py:95-111 | After the pass-through rewrite, the router sends exactly one run, carrying the latest message's text with index 0 and an empty scratchpad |
| Pipeline.FanInRestoresQuestionOrder | project/rag_agent/graph_state.py:54 | Whatever order the runs finish in, the reducer collects every record. Sorting then puts record i with question i and that run's answer |
| Pipeline.FanInIgnoresArrivalOrder | project/rag_agent/nodes.py:198-228 | Two arrival orders of the same runs' records give the same final message |
| Pipeline.SummarizeClearsOnlyOnModelPath | project/rag_agent/nodes.py:39-83 | With fewer than four messages the previous answers survive. When the model is called they are cleared |
| Pipeline.SummarizeClearsOnLaterTurns | project/rag_agent/nodes.py:39-53 | With at least four messages, the first of them a user message, neither early return applies: the reset marker is emitted and the answers are cleared |
| Pipeline.StaleAnswerSortsFirst | project/rag_agent/nodes.py:207 | The sort is stable: a stale record with the same index as a new one sorts before it |

## Left out

- File I/O: documents are given as (stem, text) pairs in the order of the sorted paths. The glob, `Path.stem` and the JSON encoding of the store files are not modelled.
- The library splitters (Markdown header splitting and recursive character splitting): their algorithms are function parameters. Only their calling convention is modelled: chunk size, overlap, and a metadata copy per piece.
- The language model: its answers are an uninterpreted function of the call it receives. The prompt texts come from a prompts module that is not part of this model, so they are parameters too.
- `tools_condition` and `ToolNode`: the tool-call decision is a boolean per step, and the tool results are appended messages.
- `add_messages`: modelled as appending. Replacing or removing messages by id is not modelled.
- The merging of a subgraph run's own messages into the main graph's message list when the run finishes. Only its answer record is modelled. So the model cannot decide whether a turn after a completed fan-out can still hit one of `summarize`'s early returns. `Pipeline.SummarizeClearsOnLaterTurns` shows it cannot once the list holds four messages and starts with the user's.
- LangGraph itself: checkpointing, thread ids, real parallelism, the recursion limit, and the super-step semantics beyond the order in which writes reach the reducer.
- The `print` calls in `analyze_and_rewrite_query` and `create_agent_graph`. The rewrite node's unused model parameter.
- `Exception` messages: a failing index or store is modelled as an outcome carrying a message string.
- project/db/vector_db_manager.py, project/util.py, project/core/rag_system.py, project/core/chat_interface.py and project/app.py are not part of this model. Neither are the rest of project/config.py or project/rag_agent/schemas.py.
- Nodes.Aggregate: requires that the answers hold no reset marker, because sorting by `x["index"]` would raise `KeyError` on one. The reducer guarantees this (`GraphState.ReducerKeepsNoMarkers`, `GraphState.ApplyKeepsNoMarkers`), so the error path is not modelled.
- Nodes.Rewrite: requires at least one message. The `IndexError` on an empty history is not modelled, because the graph always starts from a user message.
- Nodes.SortByIndex: states a sorted permutation. Stability (the tie order of Python's `sorted`) holds by construction and is shown only for the two-record case in `Pipeline.StaleAnswerSortsFirst`.
- DocumentChunker.SplitBounded: the bound holds only if the library splitter honours its chunk size, which the model cannot see.
- DocumentChunker.MergeSmallParents, DocumentChunker.SplitLargeParents, DocumentChunker.ChunkDocument and DocumentChunker.ChunkDirectory: they are plain definitions, and what they promise is stated by the lemmas about them in the table above.
- ParentStore.StringField, ParentStore.Load, ParentStore.LoadContent and GraphState.AccumulateOrReset: their contracts only spell out their definitions. What they mean is stated by `ParentStore.LoadAfterSave`, `ParentStore.LoadNeverSaved`, `ParentStore.SaveManyLastWins`, `ParentStore.LoadContentAfterSaveMany` and `ParentStore.StoredRecordFields` for the store. For the reducer it is `GraphState.ApplyWritesSpec`, `GraphState.ResetFreeWritesCompose` and `GraphState.ReducerKeepsNoMarkers`.
- ParentStore.LoadNeverSaved: the store is keyed by the raw id string. The source resolves the file `{parent_id}.json` as a path under the store directory (project/db/parent_store_manager.py:89-95), and the id comes from the model (project/rag_agent/tools.py:88). So an id such as `./a_parent_0` or `x/../a_parent_0` reads the file saved under `a_parent_0`, and an absolute path reads a file outside the store. For such ids the source can load a record that was never saved under that exact string. Path resolution is not modelled.
- Tools.SearchChildChunks and Tools.RetrieveParentChunks: they are plain definitions, and what they promise is stated by the lemmas about them in the table above.
