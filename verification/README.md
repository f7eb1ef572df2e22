# Verified models of the Zeppelin Embed bindings and tools

Zeppelin Embed is an embeddable search store with a C ABI, a Node binding and a
set of maintenance scripts. This project models the algorithmic code around the
engine and proves what that code is for. Each module follows one component:

- `Closure`, `Backlog`: dependency walking and backlog validation
  (`scripts/planning/validate-backlog.py`).
- `FilterCompiler`, `FilterArray`, `FilterEngine`, `FilterFields`: a nested
  JavaScript filter, on an arbitrary heap with sharing and cycles, is compiled to
  a flat node array by the addon and decoded by the engine's C ABI. The main
  result is `FilterFields.Apply`: on every heap the two stages together give what
  the fields of the objects say, and refuse exactly when an object is malformed,
  met twice or too deep, or the filter is beyond the engine's limits.
- `Unicode`, `Snippet`: conversion of UTF-8 highlight ranges to UTF-16 ranges.
- `WriteQueue`, `Cancellation`, `Ownership`: the concurrent part of the binding,
  as transition systems over every interleaving. `WriteQueueLaws` and
  `OwnershipLaws` state what the runs do without the functions that define the
  steps.
- `Registry`, `SlotTable`: the handle table the engine keeps behind it. `Registry`
  says how a close moves through the flags of a live handle; `SlotTable` proves
  its slots and generations against that, and `Ownership` builds on it.
- `Ndcg`, `FrozenSplit`: ranking metrics and the seeded calibration split.
- `WalRepair`, `WalLaws`, `BatchPools`, `CoffArchive`: buffer and pool codecs.
- `Identity`: UUIDs, 128-bit ids and their decimal text.
- `Prelude`, `Bytes`, `Decimal`: shared vocabulary.

`dafny verify dfyconfig.toml` checks the whole project.

Three promises hold only under a condition. The model keeps the code as it is and
gives the condition exactly:

- A filter that the addon compiles cleanly need not be readable by the engine.
  The addon admits 33 levels (depth 0 to 32), the engine 32 (it starts counting
  at 1), and the engine takes at most 2^20 nodes while the addon takes any number
  that fits 32 bits. `FilterFields.Apply` and `FilterEngine.ReadIffWithinLimits`
  say that a meaningful filter is read, with its full meaning, if and only if it
  is within both limits; `FilterEngine.DeepestFilterIsRefused` and
  `FilterEngine.WideFilterIsRefused` are inputs beyond each.
- Every live handle has exactly one owner, if and only if no close whose result
  is thrown away (finalizer, failed wrap, abandoned open) has panicked inside the
  store (`Ownership.ExactlyOneOwnerIffNoDiscardPanicked`), so always in runs
  without panics (`Ownership.PanicFreeRunsKeepOwners`).
  `Ownership.FinalizerCanLoseAHandle` is a run that loses one. No close is ever
  refused, panics or not (`Ownership.NoCloseIsRefused`), and a `close()` that
  panicked can be repeated.
- A synchronous write leaves the auto-seal counter an upper bound for good, if and
  only if no queued job is between its seal and the counter reset that follows
  (`WriteQueue.SyncWriteSafeIffQuiet`). A caller cannot see that window;
  awaiting every mutation, as `bindings/node/index.d.ts:633-639` asks, rules it
  out (`WriteQueue.IdleIsQuiet`). `WriteQueue.WindowArises` reaches the window
  with and without auto-merge.

Engine calls succeed or fail nondeterministically. Native outcomes, the hash,
the schema check of filter leaves, the logarithmic discount and the random
generator are parameters.

## Model

| member | source | states |
|---|---|---|
| Closure.Walk.Visit | scripts/planning/validate-backlog.py:69-78 | finishing adds the key and only keys reachable from it, restores the set of keys in progress, and keeps a dependency-first order of everything seen; a missing key really is missing and reachable, a cycle key really lies on a cycle and is reachable |
| Closure.Close | scripts/planning/validate-backlog.py:65-82 | succeeds if and only if every key reachable from the start list exists and lies on no cycle, and then returns exactly the reachable set, whatever the order of starts sharing one seen set; rejections name a reachable culprit |
| Closure.PathsDescend | scripts/planning/validate-backlog.py:69-78 | along a completion order every path moves strictly to earlier keys |
| Closure.TopologicalIsClosed | scripts/planning/validate-backlog.py:69-82 | keys in a completion order reach only keys of that order, all present and on no cycle |
| Closure.StackClosesCycle | scripts/planning/validate-backlog.py:71 | a key met while still being visited closes a cycle through itself |
| Closure.AcyclicPathsAreDistinct | scripts/planning/validate-backlog.py:65-82 | in an acyclic graph no path meets a key twice |
| Backlog.FullDictIsFaithful | scripts/planning/validate-backlog.py:88-91 | a dictionary comprehension is as long as its list exactly when the keys are distinct, and then every entry is kept |
| Backlog.LoadIsConsistent | scripts/planning/validate-backlog.py:88-91 | the length comparison accepts exactly the exports in which no key and no id is used twice |
| Backlog.LoadIsFaithful | scripts/planning/validate-backlog.py:88-91 | then each ticket keeps its own status and its id names its own key |
| Backlog.GraphHasExactlyTheEdges | scripts/planning/validate-backlog.py:93-99 | the live graph has a node per ticket and an arc exactly where some exported edge says so |
| Backlog.BuildGraph | scripts/planning/validate-backlog.py:93-99 | accepts exactly when every edge resolves and no two edges say the same, and builds that graph |
| Backlog.ScanCandidates | scripts/planning/validate-backlog.py:121-127 | the loop accepts exactly when candidate names differ and each candidate passes, and collects their dependencies |
| Backlog.CheckCandidates | scripts/planning/validate-backlog.py:121-154 | accepts exactly when names differ and each candidate's recorded, expected and live prerequisites agree and its ticket obeys the review and starting rules |
| Backlog.CheckRelease | scripts/planning/validate-backlog.py:155-157 | accepts exactly when the candidates reachable from the release candidate are all candidates and all index rows |
| Backlog.CheckLiveRelease | scripts/planning/validate-backlog.py:160-162 | accepts exactly when the live closure of the release ticket succeeds, holds every implementation and required ticket and not the deferred one |
| Backlog.CandidateEdgeIsLive | scripts/planning/validate-backlog.py:139-142 | a recorded dependency between candidates is a live one between their tickets |
| Backlog.ReleaseWaitsForImplementation | scripts/planning/validate-backlog.py:155-161 | the candidate closure lifts to the live graph: every implementation ticket is reachable from the release candidate's ticket, so a live release check started at that ticket cannot fail for one of them |
| Backlog.ValidateBoard | scripts/planning/validate-backlog.py:93-162 | accepts exactly the boards with clean edges, no cycle, known statuses, the full inventory, finished planning tickets, agreeing candidates, closed candidates, unchanged follow-ups and a complete live release closure |
| Backlog.Validate | scripts/planning/validate-backlog.py:85-164 | accepts exactly the exports without duplicates whose board is acceptable; the result is healthy and the frontier is exactly the todo implementation tickets whose prerequisites are all done |
| Backlog.EveryImplementationTicketWasChecked | scripts/planning/validate-backlog.py:112-114 | the inventory check and the release closure together force the per-candidate rules onto every implementation ticket, though the loop runs over candidates |
| Backlog.LiveGraphIsAcyclic | scripts/planning/validate-backlog.py:100 | a board that passed the closure has no cycle and no dangling prerequisite anywhere |
| Backlog.AcceptedIsHealthy | scripts/planning/validate-backlog.py:100-157 | acceptance implies acyclicity, resolved edges, the review prerequisite and the starting rules for every implementation ticket |
| Backlog.StatusIsExported | scripts/planning/validate-backlog.py:88-91 | the status the validator sees of a ticket is the exported one |
| Backlog.LiveIsExported | scripts/planning/validate-backlog.py:93-99 | the live graph has an arc exactly where an exported edge names the two tickets |
| Backlog.CandidatePrerequisites | scripts/planning/validate-backlog.py:139-142 | the live prerequisites of a candidate's ticket are exactly the review, the tickets of the candidates it depends on and its extra ones |
| Backlog.AcceptedExport | scripts/planning/validate-backlog.py:115-159 | in an accepted export planning tickets are done, follow-ups have exactly their recorded prerequisites, and candidates exactly the review, their dependencies and their extra ones |
| Backlog.StartedLate | scripts/planning/validate-backlog.py:151-154 | in an accepted export an implementation ticket that is not todo has the review and every exported prerequisite done |
| Backlog.ReleaseReaches | scripts/planning/validate-backlog.py:160-162 | the release ticket waits, directly or not, for every implementation and required ticket and not for the deferred one |
| Backlog.FrontierIsExported | scripts/planning/validate-backlog.py:163-164 | the frontier is the implementation tickets exported as todo whose exported prerequisites are all exported as done |
| Backlog.StartedAfterPrerequisites | scripts/planning/validate-backlog.py:151-154 | on a healthy board everything reached from a started implementation ticket through implementation tickets is done |
| Backlog.WaitsAreBounded | scripts/planning/validate-backlog.py:100-102 | a walk over unfinished prerequisites is never longer than the backlog |
| Backlog.UnblockerReached | scripts/planning/validate-backlog.py:163-164 | any such walk extends to one that ends at a frontier ticket, a ticket in progress or an unfinished ticket outside the set |
| Backlog.WaitingTicketHasUnblocker | scripts/planning/validate-backlog.py:163-164 | from every todo implementation ticket such an end is reachable |
| FilterCompiler.CleanOutlineIsUnfolding | bindings/node/native/addon.cc:1002-1154 | a compilation without poison encodes exactly the tree the graph unfolds to and expands exactly its preorder |
| FilterCompiler.RegularOutline | bindings/node/native/addon.cc:1002-1154 | a graph without repeats, overdepth or non-objects is never poisoned: its unfolding is built, or the 32-bit slot range runs out |
| FilterCompiler.OutlineAccounts | bindings/node/native/addon.cc:1011-1022 | on any heap no object is expanded twice and the slots taken are those the tree needs |
| FilterCompiler.SlotsAreConserved | bindings/node/native/addon.cc:1132-1142 | slots taken equal the child counts of the objects expanded |
| FilterArray.EncodingSurvives | bindings/node/native/addon.cc:1139-1151 | a tree in the array survives any change outside its own slots |
| FilterArray.EncodingsSurvive | bindings/node/native/addon.cc:1139-1151 | so do earlier siblings while later ones grow the array |
| FilterArray.ConnectiveWritten | bindings/node/native/addon.cc:1131-1151 | reserving the range, then writing the node, then parsing the children into the range amounts to writing the connective |
| FilterArray.FilterStorage.ParseNode | bindings/node/native/addon.cc:1002-1154 | reports exactly the outline's argument error, or leaves exactly the outline's tree at its slot and behind the old end of the array, touching no other slot |
| FilterArray.FilterStorage.ParseChildren | bindings/node/native/addon.cc:1143-1151 | the same for the loop over a child range |
| FilterEngine.PoisonIsRejected | crates/zeppelin-embed-ffi/src/lib.rs:716-760 | the engine refuses both poison encodings, whatever it has visited |
| FilterEngine.DecodeReadsTree | crates/zeppelin-embed-ffi/src/lib.rs:731-880 | decoding at the root of an encoded tree gives the tree's interpretation and marks exactly its slots as visited |
| FilterEngine.PoisonHasNoMeaning | bindings/node/native/addon.cc:1005-1032 | poison anywhere in a tree leaves the whole without meaning |
| FilterEngine.CleanIffRegular | bindings/node/native/addon.cc:1005-1032 | when nothing is thrown, the output is free of poison if and only if no object was met twice, none was too deep and none was a non-object |
| FilterEngine.ThrownIsUnreadable | bindings/node/native/addon.cc:1034-1142 | an argument error is thrown only for filters that are not regular or whose nodes exceed the 32-bit range |
| FilterEngine.CleanTreeTiles | bindings/node/native/addon.cc:1131-1151 | the child ranges of a clean tree point forward, are disjoint and cover all its slots |
| FilterEngine.ForwardTreeIffClean | bindings/node/native/addon.cc:1005-1032 | the array is a forward tree (ranges inside, forward, disjoint, covering all but the root) if and only if it is free of poison |
| FilterEngine.InterpretIsDenote | crates/zeppelin-embed-ffi/src/lib.rs:738-740 | the engine's depth limit refuses exactly the trees with too many levels and has no other effect on what they denote |
| FilterEngine.DecodedArrayHasMeaning | crates/zeppelin-embed-ffi/src/lib.rs:882-908 | what the engine decodes from a written array is what the filter denotes if it is within both limits, and nothing otherwise |
| FilterEngine.WrittenArrayIsAccounted | bindings/node/native/addon.cc:1132-1151 | node count is one plus the child counts of the expanded objects, and the array is a forward tree if and only if the graph is regular |
| FilterEngine.ParseFilter | bindings/node/native/addon.cc:1156-1194 | terminates on every heap with the outline's error, or with an array that encodes the outline, expands each object once, conserves slots and is a forward tree exactly on regular graphs |
| FilterEngine.ReadIffWithinLimits | crates/zeppelin-embed-ffi/src/lib.rs:738-740 | a meaningful filter has at most 33 levels, and the engine reads it if and only if it has at most 32 levels and at most 2^20 nodes |
| FilterEngine.DeepestFilterIsRefused | bindings/node/native/addon.cc:1005-1010 | a filter of 33 levels that has a meaning and is refused |
| FilterEngine.WideFilterIsRefused | crates/zeppelin-embed-ffi/src/lib.rs:887-892 | filters of two levels and more than 2^20 nodes that have a meaning and are refused |
| FilterFields.OperationIsCode | bindings/node/native/addon.cc:1039-1050 | the operator of an object is the number of its name among the ten; a missing, mistyped or unknown operator is an error of its own |
| FilterFields.ValuesParse | bindings/node/native/addon.cc:1073-1086 | values that are all given are taken in order |
| FilterFields.ValuesFail | bindings/node/native/addon.cc:1073-1086 | otherwise the error is that of a value that is missing or mistyped |
| FilterFields.LeafIsAccepted | bindings/node/native/addon.cc:1050-1114 | a well-formed leaf becomes the node with its operator number, column, values or bounds, bounds inclusive by default, and no children |
| FilterFields.ConnectiveIsAccepted | bindings/node/native/addon.cc:1115-1130 | a well-formed connective keeps its operator and its children in order |
| FilterFields.FaultIsReported | bindings/node/native/addon.cc:1034-1130 | a malformed object is refused with a fault it has, naming the field |
| FilterFields.AcceptedIffWellFormed | bindings/node/native/addon.cc:1033-1130 | an object is accepted if and only if its operator is known and the operands that operator needs are given, each of the right kind |
| FilterFields.LeafMeansWhatItSays | crates/zeppelin-embed-ffi/src/lib.rs:757-860 | decoding a compiled leaf gives the predicate its named fields describe if the schema admits it, and nothing otherwise |
| FilterFields.ConnectiveMeansWhatItSays | crates/zeppelin-embed-ffi/src/lib.rs:845-874 | and, or and not combine their children, not exactly one |
| FilterFields.UnfoldsAsSaid | bindings/node/native/addon.cc:1002-1154 | the tree the graph unfolds to exists exactly if all objects down to depth 32 are well formed, and denotes what the fields say, with the same height and size |
| FilterFields.ReadingIsWanted | crates/zeppelin-embed-ffi/src/lib.rs:731-908 | what the engine makes of a filter is what its fields say within the limits of 32 levels and 2^20 nodes |
| FilterFields.RefusedForAReason | bindings/node/native/addon.cc:1034-1142 | an error is thrown only because the slots run out or for a fault that some object has |
| FilterFields.Compile | bindings/node/native/addon.cc:1156-1194 | refuses on a heap of well-formed objects only when the slots run out, a proper filter exactly then; the array is a forward tree exactly for proper filters |
| FilterFields.Apply | crates/zeppelin-embed-ffi/src/lib.rs:731-908 | on every heap, compiling and decoding gives what the fields say if no object is met twice, all are well formed down to depth 32 and the filter has at most 32 levels and 2^20 nodes, and nothing otherwise |
| Unicode.Utf8Injective | bindings/node/native/addon.cc:4169-4184 | UTF-8 (section 3 of RFC 3629) is injective, so a byte slice determines its text |
| Unicode.LeadByte | bindings/node/native/addon.cc:4178-4180 | lead bytes give the sequence length and are told from continuation bytes by their top bits |
| Unicode.PayloadInverts | bindings/node/native/addon.cc:4178-4180 | the payload bits of an encoding are the scalar value |
| Unicode.SurrogatesCarry | bindings/node/native/addon.cc:4180 | a UTF-16 pair is a high and a low surrogate carrying ten bits each; any other scalar is its own unit |
| Snippet.UnitsCountCodeUnits | bindings/node/native/addon.cc:4177-4181 | the byte rule counts exactly the UTF-16 code units (section 2.1 of RFC 2781) of valid text |
| Snippet.Cursor.Advance | bindings/node/native/addon.cc:4169-4184 | fails, moving nothing, exactly when the offset lies behind the cursor or outside the excerpt; otherwise counts the units passed, modulo 2^32 |
| Snippet.Cursor.Take | bindings/node/native/addon.cc:4224-4245 | one highlight: succeeds exactly when it starts at or after the cursor, does not go backwards and stays inside |
| Snippet.ConvertHighlights | bindings/node/native/addon.cc:4220-4246 | errors exactly on lists that go backwards or leave the excerpt; every range is converted independently of the route the cursor took |
| Snippet.CutOut | bindings/node/native/addon.cc:4169-4184 | two character boundaries cut the same characters out of both encodings |
| Snippet.HighlightIsTheSameText | bindings/node/native/addon.cc:4160-4168 | between character boundaries the UTF-16 slice is the UTF-16 form of the text of the byte slice |
| Snippet.ConvertedHighlightsAreExact | bindings/node/native/addon.cc:4220-4246 | so each converted highlight cuts exactly its own text out of the JavaScript string |
| Snippet.BoundaryIsVisible | bindings/node/native/addon.cc:4179 | an offset is a character boundary if and only if it is the end or not on a continuation byte |
| WriteQueue.Open | bindings/node/index.js:194-218 | succeeds exactly when the migration report, the seal asked for by a policy and the merge asked for by auto-merge all succeed; a store opened with auto-seal starts with nothing unsealed and counter zero, without a policy the tail stays |
| WriteQueue.Store.Seal | bindings/node/index.js:584-589 | succeeds exactly when seal and, with auto-merge, merge succeed; only success resets the counter, an error leaves it; the counter stays an upper bound |
| WriteQueue.Store.Write | bindings/node/index.js:478-485 | a write at the threshold happens only behind a seal and merge that succeeded, an error adds no documents, a success adds its count, and the counter stays an upper bound |
| WriteQueue.Store.DeleteWhere | bindings/node/index.js:510-514 | counting the deleted number only after the call comes to the same as a write counted beforehand, and keeps the counter an upper bound |
| WriteQueue.Store.ReindexText | bindings/node/index.js:578-582 | success leaves nothing unsealed and counter zero, an error leaves the counter and adds nothing unsealed; the counter stays an upper bound |
| WriteQueue.SyncWriteKeepsBound | bindings/node/index.js:478-514 | a counted write keeps the counter an upper bound, an error means its documents are not in, and unsealed documents stay below threshold plus one batch |
| WriteQueue.SubmitKeeps | bindings/node/index.js:389-393 | queueing keeps the invariant of chain, order and counts |
| WriteQueue.StartKeeps | bindings/node/index.js:390 | so does starting a job, and the job started is the next one submitted |
| WriteQueue.AnswerKeeps | bindings/node/index.js:397-404 | so does any success or failure of a native call |
| WriteQueue.ContinueKeeps | bindings/node/index.js:395-407 | so does resuming after an await |
| WriteQueue.SettleKeeps | bindings/node/index.js:391-392 | so does settling the swallowed and the caller's promise |
| WriteQueue.SyncKeeps | bindings/node/index.js:478-514 | so do synchronous seals and reindexing at any time, and synchronous writes while no job is between its seal and its counter reset |
| WriteQueue.IdleIsQuiet | bindings/node/index.d.ts:633-639 | once every mutation was awaited no job is in that window |
| WriteQueue.StepKeeps | bindings/node/index.js:389-452 | every enabled step keeps the invariant |
| WriteQueue.RunKeeps | bindings/node/index.js:389-452 | every state of every run from an opened store satisfies it |
| WriteQueue.OneRunsAtATime | bindings/node/index.js:388-393 | while a job runs, all earlier ones have finished and all later ones wait |
| WriteQueue.RunsInSubmissionOrder | bindings/node/index.js:388-393 | in every run jobs start in submission order, each only after all earlier results settled and with nothing in flight |
| WriteQueue.CallersGetTheirOwnOutcome | bindings/node/index.js:389-407 | a settled job really ran, its outcome is the last answer to its own native calls, all before it succeeded, the caller gets that outcome, and an upsert succeeds if and only if its documents were written |
| WriteQueue.CounterNeverBelow | bindings/node/index.js:395-407 | in every run with auto-seal on, the counter is never below the unsealed documents except for a write whose reply is under way |
| WriteQueue.WritesStartBelowThreshold | bindings/node/index.js:397-403 | in every run a queued job asks for its write only when counter and unsealed documents are below the threshold |
| WriteQueue.QueueStepsUseUpWork | bindings/node/index.js:389-407 | every step of the queue itself decreases a measure |
| WriteQueue.NeverStuck | bindings/node/index.js:389-407 | as long as a caller waits some step of the queue is enabled, so no failure blocks a later job |
| WriteQueue.WriteInWindowIsLost | bindings/node/index.js:397-401 | a synchronous write made between a job's seal and its counter reset is lost to the counter: the queue's own steps go on to counter zero with all its documents unsealed |
| WriteQueue.SyncWriteSafeIffQuiet | bindings/node/index.js:395-407 | a synchronous write of some documents leaves the counter an upper bound under every continuation and every engine answer, if and only if no job is in that window |
| WriteQueue.WindowArises | bindings/node/index.js:397-401 | a concrete run that enters the window, with and without auto-merge |
| WriteQueueLaws.StartFollows | bindings/node/index.js:397-402 | an upsert that starts below the threshold, or without auto-seal, asks for its write; one that starts at it asks for a seal |
| WriteQueueLaws.JobsFollowTheirScript | bindings/node/index.js:395-444 | in every run a job makes the calls of its kind in order, one reply per call, and succeeds only after the last: write alone below the threshold, seal, merge if configured and write at it |
| WriteQueueLaws.UpsertBelowThresholdOnlyWrites | bindings/node/index.js:397-402 | in every run an upsert started below the threshold makes exactly one native call, the write, and its caller gets that answer |
| WriteQueueLaws.UpsertAtThresholdSealsFirst | bindings/node/index.js:397-402 | in every run an upsert started at the threshold writes only behind a seal, and merge, that succeeded |
| WriteQueueLaws.CounterStep | bindings/node/index.js:395-407 | a step resets the counter exactly when everything counted was sealed, and merged if configured, and adds exactly the documents of a write whose success it sees |
| WriteQueueLaws.CounterIsExact | bindings/node/index.js:395-407 | in every run the counter is exactly the number of documents written since the last full seal |
| WriteQueueLaws.SubmittedJobIsLast | bindings/node/index.js:389-393 | a submitted job is queued last, with its own kind, and waits |
| WriteQueueLaws.RepliesAreTheAnswers | bindings/node/index.js:389-407 | in every run the replies of a job are the engine's answers to it, in order |
| Cancellation.DispatchHitsListeners | bindings/node/index.js:226-229 | an abort reaches exactly the calls still listening to that signal, each once |
| Cancellation.BeginKeeps | bindings/node/index.js:222-230 | opening a call, already aborted or not, queued or not, keeps the token invariant |
| Cancellation.AbortKeeps | bindings/node/index.js:226-229 | so does an abort |
| Cancellation.SettleKeeps | bindings/node/index.js:231-234 | so does the finally block |
| Cancellation.StepKeeps | bindings/node/index.js:222-235 | so does every step |
| Cancellation.RunKeeps | bindings/node/index.js:137-155 | so every state of every run satisfies it |
| Cancellation.TokensAreSafe | bindings/node/index.js:220-235 | the engine is never given a freed handle; a token stays open for the whole native run, is cancelled at most once, by its own signal and always by it while unfinished, and is freed exactly once, after the run |
| Cancellation.FinishedCallsStay | bindings/node/index.js:150-154 | a finished call is never touched again, so nothing is cancelled after being freed |
| Cancellation.CallsRunToTheirEnd | bindings/node/index.js:222-235 | a queued call runs until its worker stops and is over once it settles, its token gone; one that cannot be queued is over at once |
| SlotTable.Decode | crates/zeppelin-embed-ffi/src/slots.rs:55-73 | an accepted handle re-encodes to itself and exactly the handles of generation zero are refused |
| SlotTable.DecodeInverts | crates/zeppelin-embed-ffi/src/slots.rs:75-83 | every slot and positive generation is recovered from its handle |
| Registry.ClosedOnce | crates/zeppelin-embed-ffi/src/slots.rs:225-269 | an open handle is admitted once: a second close is refused during the first, finds nothing after it, and releases the handle if the first panicked; no other handle is touched |
| SlotTable.Table.Insert | crates/zeppelin-embed-ffi/src/slots.rs:108-166 | succeeds exactly if a slot is reusable or there is room for one more; the new handle was never issued before, is live with clear flags, and no other live handle changes |
| SlotTable.Table.Resolve | crates/zeppelin-embed-ffi/src/slots.rs:188-192 | succeeds exactly for handles that name their slot's present tenant |
| SlotTable.Table.Lookup | crates/zeppelin-embed-ffi/src/slots.rs:183-223 | succeeds exactly for live, unpoisoned, not closing handles and yields the store the handle was issued for |
| SlotTable.Table.Release | crates/zeppelin-embed-ffi/src/slots.rs:261-267 | kills exactly the slot's tenant and moves to the next generation, retiring the slot on overflow |
| SlotTable.Table.BeginClose | crates/zeppelin-embed-ffi/src/slots.rs:225-250 | a live handle is refused exactly while it is closing and not poisoned; a poisoned one is released at once, any other is marked and its own store returned |
| SlotTable.Table.FinishClose | crates/zeppelin-embed-ffi/src/slots.rs:252-269 | removes exactly the handle it is given from the live handles, or changes nothing |
| SlotTable.Table.Poison | crates/zeppelin-embed-ffi/src/slots.rs:288-300 | marks exactly the live slot of the handle and touches no other flag |
| SlotTable.Close | crates/zeppelin-embed-ffi/src/lib.rs:3168-3185 | begin, store close and finish composed: the live handles afterwards and the status for every admission and every end of the store's own close, a panic leaving the handle live and poisoned |
| Ownership.OpenKeeps | bindings/node/native/addon.cc:1460-1585 | opening and wrapping, or failing to wrap, keeps the invariant of owners, registry and references |
| Ownership.ExecuteOpenKeeps | bindings/node/native/addon.cc:348-364 | so does the worker of an asynchronous open |
| Ownership.CompleteOpenKeeps | bindings/node/native/addon.cc:1589-1696 | so does handing the handle over to a wrapper, or closing it when that is not possible |
| Ownership.AfterCallKeeps | crates/zeppelin-embed-ffi/src/lib.rs:72-82 | so does a call that ends in a caught panic, which only poisons its handle |
| Ownership.QueueCallKeeps | bindings/node/native/addon.cc:393-427 | so does queueing a call, which references its receiver |
| Ownership.ExecuteCallKeeps | bindings/node/native/addon.cc:348-364 | so does running it at any time, also during a close |
| Ownership.CompleteCallKeeps | bindings/node/native/addon.cc:366-391 | so does completing it, which drops exactly that reference |
| Ownership.CloseStoreKeeps | bindings/node/native/addon.cc:3631-3654 | so does the begin of a close, admitted or of a poisoned or dead handle |
| Ownership.FinalizeKeeps | bindings/node/native/addon.cc:1426-1433 | so does the finalizer, which hands the handle to the thread that closes it |
| Ownership.FinishCloseKeeps | crates/zeppelin-embed-ffi/src/lib.rs:3177-3181 | so does the end of a close, by success, error or panic of the store |
| Ownership.StepKeeps | bindings/node/native/addon.cc:337-427 | so does every step |
| Ownership.RunKeeps | bindings/node/native/addon.cc:1412-1451 | so every state of every run satisfies it |
| Ownership.OwnershipIsSafe | bindings/node/native/addon.cc:337-427 | in every run no handle has two owners, none is released twice or live afterwards, a pending worker's receiver still exists, and a promise is settled once exactly when its worker has completed |
| Ownership.NoCloseIsRefused | crates/zeppelin-embed-ffi/src/slots.rs:225-250 | in every run, panics included, the addon never asks to close a handle whose close is under way, and a poisoned handle it asks to close is released |
| Ownership.LossIsDiscardPanic | bindings/node/native/addon.cc:1426-1451 | a step loses a live handle exactly when it is the panicking end of a close whose result is thrown away |
| Ownership.LostIffDiscardPanicked | bindings/node/native/addon.cc:1426-1451 | nothing is lost in a run if and only if no step so far was of that kind |
| Ownership.ExactlyOneOwnerIffNoDiscardPanicked | bindings/node/native/addon.cc:1412-1451 | at every state of every run, every live handle has exactly one owner if and only if no step so far was of that kind |
| Ownership.PanicFreeRunsKeepOwners | bindings/node/native/addon.cc:1412-1451 | in a run without panics every live handle has exactly one owner |
| Ownership.PanickedCloseCanBeRepeated | bindings/node/native/addon.cc:3643-3646 | after a close() that panicked the wrapper still owns the handle, and the next close releases it and clears the wrapper |
| Ownership.FinalizerCanLoseAHandle | bindings/node/native/addon.cc:1426-1433 | a concrete run after which a live, poisoned store has no owner |
| OwnershipLaws.CloseEmptiesIffItSucceeds | bindings/node/native/addon.cc:3643-3648 | at the end of a close() the wrapper's handle is 0 if the store's close succeeded and the old handle otherwise; the handle stays live exactly after a panic |
| OwnershipLaws.CloseBegins | bindings/node/native/addon.cc:3639-3646 | a close() on a poisoned handle empties the wrapper at once, on a dead handle changes nothing, and is admitted otherwise |
| OwnershipLaws.HandlesAreLiveUnlessCloseFailed | bindings/node/native/addon.cc:1412-1424 | in every run a wrapper's non-zero handle is live if and only if the store's own close has not failed under close() on that wrapper |
| OwnershipLaws.HandleStays | bindings/node/native/addon.cc:1412-1451 | a step takes no handle from the registry but that of the owner whose handle it closes |
| OwnershipLaws.PoisonedIffPanicked | crates/zeppelin-embed-ffi/src/lib.rs:72-82 | in every run a live handle is poisoned if and only if a call on it, or its close, has panicked |
| OwnershipLaws.LiveOrReleased | crates/zeppelin-embed-ffi/src/slots.rs:108-269 | in every run each handle ever opened is either live or has been released, once |
| OwnershipLaws.WorkersActOnTheirReceiver | bindings/node/native/addon.cc:393-427 | in every run a pending worker carries the handle of its receiver, unless that was closed, and the receiver still exists |
| OwnershipLaws.OpenedStoreIsUsable | bindings/node/native/addon.cc:1435-1451 | a store just opened can be called, closed and dropped, under a live handle |
| OwnershipLaws.StepsAdvance | bindings/node/native/addon.cc:348-427 | workers are queued with their target, executed with their outcome and completed; wrappers are dropped and finalized |
| Ndcg.SortedIsDescendingPermutation | scripts/astra-query-compare.py:109 | the ideal list is the grades, each as often as it occurs, in descending order |
| Ndcg.UniqueIsDistinct | scripts/astra-query-compare.py:111 | deduplication keeps exactly the ids that occur, each once |
| Ndcg.UniqueGrows | scripts/astra-query-compare.py:111 | a longer ranking only adds unique ids behind the earlier ones, so they stand in the order of their first occurrence |
| Ndcg.GetFinds | scripts/astra-query-compare.py:114 | a judged document has its own grade |
| Ndcg.GetMisses | scripts/astra-query-compare.py:114 | any other document has grade 0 |
| Ndcg.DcgIsWeightedSum | scripts/astra-query-compare.py:109-118 | a discounted gain is the total of the first k entries, each times the weight of its rank counted from 0 |
| Ndcg.ParentGainInFull | scripts/astra-query-compare.py:114 | the parent gain is the total of the grades of the first k unique ids, each times the weight of its place |
| Ndcg.ChunkGainInFull | scripts/astra-query-compare.py:115-120 | the chunk gain is the total over the first k ranks of the grades of first occurrences, each times the weight of its rank |
| Ndcg.IdealInFull | scripts/astra-query-compare.py:109 | the ideal is the total of the k largest grades, each times the weight of its place |
| Ndcg.TopIsLargest | scripts/astra-query-compare.py:109 | no m of the grades sum to more than the first m of the ideal list |
| Ndcg.DistinctIdsDrawDistinctGrades | scripts/astra-query-compare.py:114 | distinct documents draw their grades from distinct entries |
| Ndcg.PrefixDominated | scripts/astra-query-compare.py:109-114 | every prefix of the deduplicated gains is dominated by the ideal prefix |
| Ndcg.DominatedPrefixesDominateDcg | scripts/astra-query-compare.py:109-114 | dominated prefixes give a dominated discounted sum, for every positive non-increasing discount |
| Ndcg.ParentAtMostIdeal | scripts/astra-query-compare.py:109-114 | the gain of any ranking, with any duplicates, is at most the ideal |
| Ndcg.ChunkAtMostParent | scripts/astra-query-compare.py:114-121 | gains counted at original chunk ranks never exceed those of the deduplicated ranking |
| Ndcg.IdealIsAttained | scripts/astra-query-compare.py:109-114 | some ranking scores exactly the ideal, so the bound is sharp |
| Ndcg.WithoutRepeatsChunkIsParent | scripts/astra-query-compare.py:111-121 | without duplicates the two figures agree |
| Ndcg.NdcgBounds | scripts/astra-query-compare.py:105-125 | 0 <= chunk-rank nDCG <= unique-parent nDCG <= 1 for every ranking and every k with non-zero ideal |
| Ndcg.ChunkLoop | scripts/astra-query-compare.py:115-120 | the loop over the ranks sums the gains of first occurrences at their original ranks |
| Ndcg.Score | scripts/astra-query-compare.py:107-121 | both scores of exactly the rankings with a non-zero ideal, in order |
| Ndcg.ScoredOneByOne | scripts/astra-query-compare.py:107-113 | each ranking is scored by itself, exactly if its ideal is not 0, in order |
| Ndcg.SumIsTotal | scripts/astra-query-compare.py:122-124 | the sum of one entry is that entry, and sums add up |
| Ndcg.Mean | scripts/astra-query-compare.py:122-124 | the mean times the number of entries is their total |
| Ndcg.MeansOrdered | scripts/astra-query-compare.py:122-123 | the means are ordered and lie between 0 and 1 |
| Ndcg.Metrics | scripts/astra-query-compare.py:105-125 | fails exactly on an unknown query or when nothing is scored; otherwise each reported mean times its number of entries is their total, for both scores and for the unique counts, the minimum is the least count, and with non-negative grades the scores are ordered and within [0, 1] |
| FrozenSplit.ChoicesFit | scripts/astra-query-compare.py:45-51 | the swap partners drawn for any seed stay at or below their position |
| FrozenSplit.KnownAnswers | scripts/astra-query-compare.py:46-49 | the mixer gives the published first words of SplitMix64 |
| FrozenSplit.RemainderIsLeft | scripts/astra-query-compare.py:50 | the partner is what is left of the state after whole turns of upper + 1 |
| FrozenSplit.ChoiceAt | scripts/astra-query-compare.py:45-50 | the partner of each position is picked from the state after as many steps as positions were visited |
| FrozenSplit.TopOfShuffle | scripts/astra-query-compare.py:51 | the position being filled receives the element at its partner |
| FrozenSplit.ShuffleKeepsElements | scripts/astra-query-compare.py:45-51 | swapping by any such partners permutes |
| FrozenSplit.ShuffleIsInjective | scripts/astra-query-compare.py:45-51 | different partners give different orders |
| FrozenSplit.ShuffleIsSurjective | scripts/astra-query-compare.py:45-51 | every order is given by some partners, so partners and orders correspond one to one |
| FrozenSplit.OrderIsPermutation | scripts/astra-query-compare.py:41-52 | the order is a permutation of 0 to count - 1 for every generator that picks in range |
| FrozenSplit.FisherYates | scripts/astra-query-compare.py:41-52 | the in-place loop computes that order |
| FrozenSplit.Order | scripts/astra-query-compare.py:41-52 | with the 64-bit mixer, for every count and seed |
| FrozenSplit.SeedIsReduced | scripts/astra-query-compare.py:43-46 | seeds that agree modulo 2^64 give the same order |
| FrozenSplit.PickedCounts | scripts/astra-query-compare.py:63 | distinct positions select as many ids |
| FrozenSplit.KeepCounts | scripts/astra-query-compare.py:65-66 | filtering a list without repeats by some of its members keeps each once |
| FrozenSplit.SplitIsExact | scripts/astra-query-compare.py:63-66 | with distinct ids the parts are disjoint, cover the judged ids and have the requested sizes |
| FrozenSplit.Freeze | scripts/astra-query-compare.py:55-66 | refuses exactly when judged and eligible ids do not match or none is eligible; otherwise filters the eligible ids, in query order, by the ids the seeded order puts first; with distinct ids the parts are disjoint, cover the judged ids and have the sizes of a Python slice, negative counts included |
| WalRepair.RepairFrameFixes | fuzz/fuzz_targets/native_graph_wal.rs:124-132 | after one turn span, header and trailer checksums of the frame all match the final bytes |
| WalRepair.RepairFromIsConsistent | fuzz/fuzz_targets/native_graph_wal.rs:115-134 | after the loop every walked frame's checksums match the final bytes |
| WalRepair.RepairFromKeepsFrames | fuzz/fuzz_targets/native_graph_wal.rs:115-134 | frame boundaries and kinds are unchanged |
| WalRepair.RepairedIsSound | fuzz/fuzz_targets/native_graph_wal.rs:105-134 | header and all frame checksums match and the frames are those of the input, for every buffer and every hash |
| WalRepair.SoundIsKept | fuzz/fuzz_targets/native_graph_wal.rs:105-134 | a sound buffer is left as it is |
| WalRepair.RepairIsIdempotent | fuzz/fuzz_targets/native_graph_wal.rs:105-134 | a second repair changes nothing |
| WalRepair.OnlyChecksumsChange | fuzz/fuzz_targets/native_graph_wal.rs:112-132 | bytes outside checksum fields are never written |
| WalRepair.RepairedIsUnique | fuzz/fuzz_targets/native_graph_wal.rs:105-134 | the repair is the only sound buffer that agrees with the input outside the checksum fields |
| WalRepair.StampSpan | fuzz/fuzz_targets/native_graph_wal.rs:125-128 | a commit frame of sufficient length gets the checksum of the bytes since the last begin frame |
| WalRepair.StampEnds | fuzz/fuzz_targets/native_graph_wal.rs:129-132 | then header, then trailer checksum |
| WalRepair.RepairNext | fuzz/fuzz_targets/native_graph_wal.rs:115-133 | one turn in place: stops exactly when the frame does not fit |
| WalRepair.Repair | fuzz/fuzz_targets/native_graph_wal.rs:105-134 | the in-place loop computes the repaired buffer; one shorter than a file header is left alone |
| WalLaws.WalkMeetsTheFrames | fuzz/fuzz_targets/native_graph_wal.rs:115-124 | the frames lie one behind the other from byte 64, each 72 bytes plus the little-endian number in its bytes 8 to 11, of the kind in its bytes 4 and 5, and stop only where none fits |
| WalLaws.RepairedFramesMatch | fuzz/fuzz_targets/native_graph_wal.rs:121-132 | after the repair every frame of the input carries the checksums of the final bytes: header, trailer and, for a commit of length 16 or more, the bytes from the last begin frame (byte 64 if none) up to it |
| WalLaws.RepairWritesOnlyChecksums | fuzz/fuzz_targets/native_graph_wal.rs:113-132 | no byte outside those fields is written |
| WalLaws.ChecksumBytes | fuzz/fuzz_targets/native_graph_wal.rs:113-114 | a stored checksum is the hash, least significant byte first |
| Bytes.WordsSurvive | fuzz/fuzz_targets/native_graph_wal.rs:116 | reading a written word gives the word |
| Bytes.BytesSurvive | fuzz/fuzz_targets/native_graph_wal.rs:116 | writing a read word gives the bytes |
| Bytes.ShortWords | fuzz/fuzz_targets/native_graph_wal.rs:116-124 | two and four bytes are read least significant first |
| BatchPools.ItemSurvives | scripts/graph-workloads.py:348-379 | a readable item keeps its whole content under every later append |
| BatchPools.Writer.Span | scripts/graph-workloads.py:350-351 | the range returned reads back the text, earlier bytes are kept |
| BatchPools.Writer.StringValues | scripts/graph-workloads.py:357-359 | a list of strings reads back in order |
| BatchPools.Writer.Value | scripts/graph-workloads.py:352-363 | every scalar kind, nested lists included, reads back from its index |
| BatchPools.Writer.Properties | scripts/graph-workloads.py:366-369 | the property range reads back names and values in order |
| BatchPools.Writer.Names | scripts/graph-workloads.py:371 | the label range reads back the labels in order |
| BatchPools.Writer.TextAndVector | scripts/graph-workloads.py:371-372 | optional text and vector read back, absent ones as absent |
| BatchPools.Writer.NodeImage | scripts/graph-workloads.py:370-373 | a node image reads back whole |
| BatchPools.Writer.RelationshipImage | scripts/graph-workloads.py:374-375 | so does a relationship image |
| BatchPools.Writer.Item | scripts/graph-workloads.py:379 | the item row reads back its namespace and key |
| BatchPools.Writer.Change | scripts/graph-workloads.py:366-379 | one turn appends one item that reads back the change |
| BatchPools.WriteBatch | scripts/graph-workloads.py:348-379 | the pools read back every change in order, part by part: key, properties, labels, text, vector, kind, and each end as the last node of the batch with its key or as its own id |
| BatchPools.LocalNodesAreNodes | scripts/graph-workloads.py:364-365 | the local index names nodes with that key and knows every node key |
| BatchPools.LocalEndsNameTheirNode | scripts/graph-workloads.py:376-378 | an end is external, with its own id, exactly when the batch has no such node; a local end names an item that reads back as a node of that namespace and key |
| BatchPools.TagsOfValues | crates/zeppelin-embed-ffi/tests/c/graph_workload.c:59 | tag 1 is a boolean, 2 an integer, 3 the bits of a double, 4 a string, 7 a list, of strings when its kind is 4 |
| BatchPools.KindsOfRows | scripts/graph-workloads.py:373-379 | an item is a node (0) or a relationship (1), an end an id (1) or an item (2) |
| CoffArchive.ReadMember | scripts/release/package-native.py:35-44 | accepts exactly a complete header with end mark, readable size, fitting extent and ASCII name |
| CoffArchive.Walk | scripts/release/package-native.py:31-52 | accepts exactly the archives whose members end at the end of file and hold an entry; entries keep order, duplicates and bodies, index members are dropped, the last name table counts |
| CoffArchive.AcceptedIsTiled | scripts/release/package-native.py:34-52 | accepted bytes are tiled exactly by even-padded members: no gap, overlap or leftover |
| CoffArchive.PaddedNumeralParses | scripts/release/package-native.py:38 | the space-padded decimal size field parses to the size |
| CoffArchive.SignedNumeralParses | scripts/release/package-native.py:38 | a sign in front of the size is taken as such |
| CoffArchive.BlockReads | scripts/release/package-native.py:34-50 | a written member, anywhere in a file, reads back its name and body and ends where the next begins |
| CoffArchive.WrittenArchiveReadsBack | scripts/release/package-native.py:31-52 | serialising any list of members and walking it returns its entries in order, bodies byte for byte, duplicates kept, and its name table |
| CoffArchive.LabelsAreComponents | scripts/release/package-native.py:57-67 | a label is one plain path component without separators or colon |
| CoffArchive.BasenameIsLastComponent | scripts/release/package-native.py:65 | the basename is what stands behind the last slash or backslash, or the whole name |
| CoffArchive.LongNameResolves | scripts/release/package-native.py:57-62 | a "/offset" entry resolves to the name stored at that offset, under either terminator |
| CoffArchive.Extract | scripts/release/package-native.py:31-67 | the walk followed by the loop over its entries: refuses exactly when the walk or some label does, else every label with its body in order |
| CoffArchive.EntriesAreLabelled | scripts/release/package-native.py:57-67 | names later in the table do not disturb the labels of earlier entries |
| CoffArchive.ArchiveRoundTrip | scripts/release/package-native.py:31-67 | archiving any objects under names of any length, in the header with or without a closing slash or through a name table, behind any linker indexes, and extracting them gives every basename and body in order |
| Identity.PaddedIsFixedWidth | bindings/node/index.js:661 | padding the shortest hexadecimal numeral gives the fixed-width one |
| Identity.DashesGone | bindings/node/index.js:646 | removing the dashes of an accepted string leaves its 32 digits, from which it can be rebuilt |
| Identity.IdRoundTrip | bindings/node/index.js:635-669 | every id below 2^128 survives the trip through its UUID (section 4 of RFC 9562) |
| Identity.UuidRoundTrip | bindings/node/index.js:620-669 | every accepted string comes back in lower case, from an id below 2^128 |
| Identity.AcceptedIffUuid | bindings/node/index.js:620 | a string is accepted if and only if it has 36 characters, dashes at 8, 13, 18 and 23 and hexadecimal digits of either case elsewhere |
| Identity.UuidIsBigEndian | bindings/node/index.js:661-668 | the UUID of an id shows its hexadecimal digits, most significant first, in lower case |
| Identity.IdIsBigEndian | bindings/node/index.js:646 | the id of an accepted string has the digits it shows, most significant first |
| Identity.SplitJoins | scripts/graph-workloads.py:302 | joining the two words of an id gives the id |
| Identity.JoinSplits | scripts/graph-workloads.py:324 | splitting the join of two words gives the words |
| Identity.DivideFullWidth | bindings/swift/Examples/GraphWorkload.swift:13 | quotient and remainder of a two-word dividend, both in range |
| Identity.DivideByTen | bindings/swift/Examples/GraphWorkload.swift:12-15 | the two divisions of one turn divide the 128-bit value by ten |
| Identity.FullId | bindings/swift/Examples/GraphWorkload.swift:9-18 | the loop yields the decimal numeral of high * 2^64 + low with every full-width division in range |
| Identity.IdSurvivesTheWords | scripts/graph-workloads.py:302-324 | an id sent as two words and printed is its own canonical numeral and no other id's |
| Decimal.DigitsHaveValue | bindings/swift/Examples/GraphWorkload.swift:9-18 | the numeral has the number's value and no leading zero |
| Decimal.CanonicalIsUnique | bindings/swift/Examples/GraphWorkload.swift:9-18 | a numeral without leading zero is the numeral of its value |

## Left out

- Argument marshalling, error texts and error translation of the Node addon, and JavaScript getters with side effects: an object is read as one fixed record of fields.
- Engine behaviour behind the C ABI (search, scan, purge, seal internals): each call is a nondeterministic success or failure with the stated effect; the schema check of filter leaves is the parameter `admits`, and the final planner validation of a decoded predicate is not part of this model.
- Allocation failures in the filter decoder and the handle table, and a registry mutex poisoned by a panic inside the registry itself.
- Per-slot error strings, epochs, writer locks and purge tokens of the handle table.
- Ownership.StepKeeps: one JavaScript environment, so one thread that closes; handle freshness is taken from the engine, as SlotTable.Table.Insert proves it of the table; environments torn down with work still queued are not modelled.
- SlotTable.Close: other threads acting between begin and finish are the subject of Ownership, not of this method.
- WriteQueue.CounterNeverBelow: purge, dropPartition, applyRetention and graphApply are not counted by the source and are taken to leave the number of unsealed documents unchanged.
- Cancellation.StepKeeps: a token that the engine fails to create leaves no state and is no step; native cancel and free are taken to succeed on handles the engine knows.
- Backlog.CheckCandidates: titles, themes, labels, epics, descriptions and hashes of tickets are not modelled; fixed inventories are fields of `Plan`.
- Backlog.ValidateBoard: the comparison of control keys, workstreams and epics with fixed tables is not modelled.
- Backlog.Validate: the same comparisons, the tracker prefix and the sorting of the frontier are not modelled.
- Closure.Close: Python's recursion limit is not modelled; the walk goes as deep as the graph.
- Ndcg.NdcgBounds: reals instead of floating point, any positive non-increasing discount instead of the reciprocal logarithm, and a non-negative k.
- Snippet.ConvertedHighlightsAreExact: for excerpts below 2^32 UTF-16 units, which every JavaScript string is; the cursor's wrap-around itself is in Snippet.Cursor.Advance.
- FrozenSplit.Order: nothing is proved about the statistical quality of the 64-bit mixer; file input and output of `freeze` are not modelled.
- WalRepair.Repair: the hash is an uninterpreted function from byte strings to 64-bit words.
- BatchPools.WriteBatch: strings are given as encoded bytes, properties as already sorted lists; the fixed 27/110/20x768 dimension check and the text file format are not modelled.
- CoffArchive.Extract: the object-copy and archiver tools that follow are not modelled, nor is the UTF-8 validity of long names.
- Identity.FullId: yields the digits as numbers; shifts and masks are written as division, remainder and multiplication.
- Release checkers, benchmark drivers, packaging, type declarations and the other examples: they start processes, copy files or declare data and hold no algorithm of their own.
