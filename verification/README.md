# OpenRTC: verified model of the collaborative core

OpenRTC lets many clients share rooms. This project models, in Dafny, the parts of it whose correctness spans many
functions or whole runs, and proves what they are for:

- **JSON Patch** (`Json*.dfy`, `SortedKeys.dfy`, `Decimal.dfy`): JSON Pointer text (RFC 6901), the six JSON Patch
  operations (RFC 6902) and the diff that compiles two trees to a patch. The diff reaches its target for every pair of
  trees in which no change lies below an empty-string key, and for no other pair; and for a tree it was not taken from,
  exactly when the diff carries that tree there (`JsonDiffTransfer`). `JsonPatchLaws` says what test, copy and move do.
- **Live builder** (`LiveBuilder.dfy`): list, map and object calls, compiled to patches at a nested node, act on that
  node as the sequence or map operation they name, and on nothing else.
- **Undo and redo** (`StorageHistory.dfy`, `StorageSpans.dfy`, `StorageRecording.dfy`): the stacks describe one line of
  documents with the current one on it, through undo, redo, pause spans, truncation to 100 entries and clearing; and in
  every run, also with undos and redos inside pause spans, unrecorded writes and other writers' documents, which
  recorded change the next undo or redo is for, when exactly it shows that change's document, and which writes are
  recorded at all.
- **Optimistic storage** (`StorageReplica.dfy`, `StorageClient.dfy`, `StorageSettlement.dfy`, `StorageFold.dfy`,
  `StorageLimits.dfy`, `StorageOutcomes.dfy`, `StorageRooms.dfy`): the client's storage maps as a state machine over
  calls, server messages and failures.
  `StorageReplica` says what each event makes of the state, `StorageClient` is the object whose methods do it, the
  others prove what holds of runs, which steps keep the replica in step with the server and which do not, which promises
  are resolved, and what an event leaves alone.
- **Query language** (`JsonString.dfy`, `Query*.dfy`): the TypeScript printer and the Go tokeniser and parser. What one
  prints the other reads, exactly.
- **Yjs compaction** (`YjsCompaction.dfy`, `YjsCompactionProtocol.dfy`, `YjsCompactionLoss.dfy`,
  `YjsCompactionDecision.dfy`): when a room is compacted; load, merge and atomic replacement of the snapshot, interleaved
  with appends, failures, lost replies and retries; when nothing is lost, and in runs without any guard exactly what is. A Y document is a set of operations and merging is union.
- **Event cursor** (`EventCursor.dfy`), **Yjs provider** (`YjsProvider.dfy`, `SubdocFraming.dfy`), **inbox**
  (`Inbox.dfy`) and **webhook retries** (`WebhookRetry.dfy`).

Loops and objects of the source are methods and classes here, each proved equal to a specification function; the laws
are lemmas about those functions. `dafny verify dfyconfig.toml` checks everything.

## What was found

- `joinJSONPointer` strips trailing slashes, so a change below an empty-string key has no address: the diff fails or
  leaves another tree exactly then (`JsonDiffLimits.DiffReachesTargetIff`), and so does undo
  (`StorageHistory.UndoOneWriteIff`).
- The local document is not always the pending mutations replayed on the server's. `StorageFold.StepInStepIff` gives,
  for every kind of step, the guard that holds exactly when the step keeps every room in step. `StorageLimits` has runs
  from the empty client that end out of step: a stale acknowledgement, a failed send (in one run it shows an append
  twice, in another it rejects a removal that was sent), a failed replay, a refusal while another mutation is pending,
  and a closed socket that leaves a rejected document on show. Any later accepted document whose replay succeeds heals
  the room (`StorageFold.AcceptedMessageHeals`).
- An undo or redo inside a pause span with writes moves the document and not the span's entry, so the entry need not
  lead back to the document its first write found: `StorageSpans.SpanReturnsIff` says when it does,
  `StorageSpans.UndoInsideSpanLosesA` and `StorageSpans.RedoInsideSpanLeavesA` are runs in which it does not.
- A Redis append takes its sequence (INCR) before it becomes visible (ZADD). If a compaction passes in between, the
  update is lost, and comes back only if it is appended again (`YjsCompactionLoss.LostForGood`).
  `YjsCompactionLoss.EveryRunIsAccountedFor` says of every run what is saved and what is lost;
  `YjsCompactionProtocol.OutOfOrderAppendIsLost` is such a run.
- A subdocument's queue is deleted before it is applied, so an update that cannot be applied takes those queued behind
  it with it (`YjsProvider.FramesLostInRun`).
- `roomQuery` and `threadQuery` do not check the server's limit of 1024 bytes: a longer query prints but is refused
  (`QueryRoundTrip.LongIdIsRefused`).
- With a limit, the incremental inbox can show less than the recomputed one (`Inbox.LimitForgets`), exactly when a
  notification cut off earlier should have come back (`Inbox.LimitedAgreesIff`).

## Model

| member | source | states |
|---|---|---|
| JsonPointer.UnescapeEscape | packages/client/src/index.ts:6353-6368 | unescaping undoes escaping for every part, whatever mix of `/`, `~`, `~0`, `~1` it holds |
| JsonPointer.ParsePointerOf | packages/client/src/index.ts:6353-6368 | parsing the JSON Pointer text built from some parts gives those parts, empty ones included |
| JsonPointer.JoinExtends | packages/client/src/index.ts:6370-6376 | a join names the base's parts without the empty ones at its end, then the new part |
| JsonPointer.JoinAppendsIff | packages/client/src/index.ts:6370-6376 | a join appends exactly its part if and only if the base does not end in an empty part |
| JsonPointer.JoinPartsRoundTripIff | packages/client/src/index.ts:6233-6235 | joined parts read back as themselves if and only if no part but the last is empty |
| JsonPointer.ParseIndexOfPrinted | packages/client/src/index.ts:6378-6388 | the array-index parser inverts decimal printing inside the bounds and reports out-of-bounds otherwise |
| JsonPointer.ParseIndexInjective | packages/client/src/index.ts:6378-6388 | accepted index texts that denote the same index are the same text |
| Decimal.PrintsBack | packages/client/src/index.ts:6264-6269 | a numeral the index pattern accepts is the printed form of its value |
| Json.PutFrame | packages/client/src/index.ts:6300-6351 | changing the node at one location leaves every location outside it as it was |
| Json.PutAppend | packages/client/src/index.ts:6342-6351 | changing a node through its container is changing it inside the subtree that holds it |
| JsonPatch.GetPatchValue | packages/client/src/index.ts:6283-6298 | the walking loop finds the value at the JSON Pointer path, with the same error otherwise |
| JsonPatch.GetPatchParent | packages/client/src/index.ts:6342-6351 | looking parts up one by one through one-part pointers finds the parent of the last part, and only a container passes |
| JsonPatch.ApplyJsonPatchOptimistic | packages/client/src/index.ts:6123-6158 | operations take effect in order and the first error ends the patch |
| JsonPatch.SetBelow | packages/client/src/index.ts:6300-6321 | setting below a node is setting in that node alone, errors included |
| JsonPatch.RemoveBelow | packages/client/src/index.ts:6323-6340 | removing below a node is removing in that node alone, errors included |
| JsonPatch.SetKey | packages/client/src/index.ts:6300-6321 | a set addressed to a child changes the container at the base and nothing else |
| JsonPatch.RemoveKey | packages/client/src/index.ts:6323-6340 | a removal addressed to a child changes the container at the base and nothing else |
| JsonPatch.ApplyAppend | packages/client/src/index.ts:6123-6158 | a patch in two halves is the first half, then the second on its result, or the first half's error |
| JsonPatchLaws.TestGuards | packages/client/src/index.ts:6138-6142 | a patch that opens with a test does what the rest of it does if the document holds the value there, and fails otherwise |
| JsonPatchLaws.CopyIsAdd | packages/client/src/index.ts:6143-6147 | a copy adds the value its source holds, and fails when it holds none |
| JsonPatchLaws.CopyToMember | packages/client/src/index.ts:6143-6147 | after a copy to a record's member, the member holds the source's value and every location outside it, the source included, is as it was |
| JsonPatchLaws.MoveIsRemoveThenAdd | packages/client/src/index.ts:6148-6154 | a move is the removal of its source and then an addition of the value that was there |
| JsonPatchLaws.MembersCommute | packages/client/src/index.ts:6300-6340 | removing one member and setting another outside it can be done in either order |
| JsonPatchLaws.MoveIsCopyThenRemove | packages/client/src/index.ts:6143-6154 | between members outside each other, a move is that copy followed by the removal of its source |
| SortedKeys.SortedInOrder | packages/client/src/index.ts:6400-6401 | the keys the diff walks are each of the record's keys once, in code-unit order |
| JsonDiff.DiffJsonPatch | packages/client/src/index.ts:6394-6419 | the two loops and the recursion produce the specified operation list |
| JsonDiffProofs.RemovalsApply | packages/client/src/index.ts:6404-6408 | the removals of a record delete exactly the keys the target lacks |
| JsonDiffProofs.ChangesApply | packages/client/src/index.ts:6409-6416 | the second loop sets exactly the listed keys to their target values |
| JsonDiffProofs.DiffAt | packages/client/src/index.ts:6394-6419 | a diff taken at a node, applied to any document that holds the node there, replaces that node by its target and changes nothing else |
| JsonDiffProofs.DiffReachesTarget | packages/client/src/index.ts:6394-6419 | for every sound equality test, applying the diff never fails and gives the target when each change has an address |
| JsonDiffLimits.DiffStaysUnder | packages/client/src/index.ts:6394-6419 | for every equality test, every operation of a diff taken at a node has its path under that node |
| JsonDiffLimits.LostAt | packages/client/src/index.ts:6394-6419 | a change below an empty key is never made: the patch fails or leaves another tree there |
| JsonDiffLimits.DiffReachesTargetIff | packages/client/src/index.ts:6394-6419 | with exact equality, the diff reaches its target if and only if no change lies below an empty-string key |
| JsonDiffLimits.EmptyKeyExample | packages/client/src/index.ts:6370-6376 | a smallest pair of trees whose diff does not reach its target |
| JsonDiffProofs.CarriedDiffAt | packages/client/src/index.ts:6394-6419 | a diff, applied to a document that holds a node it carries, turns that node into its target and changes nothing else |
| JsonDiffTransfer.MissesAt | packages/client/src/index.ts:6394-6419 | a diff never brings a node it does not carry to its target: the patch fails or another tree stands there |
| JsonDiffTransfer.DiffCarriesIff | packages/client/src/index.ts:6394-6419 | for every equality test and any tree at all, the diff of an addressable change takes the tree to its target if and only if the tree agrees where the diff changes nothing and has the members it goes into, and no others |
| LiveBuilder.ListCallRefines | packages/client/src/index.ts:5142-5190 | append, insert, replace and remove act on the list at the base path as the sequence operation, and fail exactly when it does |
| LiveBuilder.MoveRefines | packages/client/src/index.ts:5192-5204 | a list move is remove-then-insert, and fails unless both indexes are in range |
| LiveBuilder.EntriesRefine | packages/client/src/index.ts:5094-5133 | a patch of entries sets them in order on the record at the base path |
| LiveBuilder.RemovalsRefine | packages/client/src/index.ts:6243-6262 | deleting keys removes exactly them, and fails if one is missing or repeated |
| LiveBuilder.CallRefines | packages/client/src/index.ts:5094-5204 | every live call, compiled at a node's path and applied, is its own operation on that node |
| LiveBuilder.CallTouchesOnlyItsNode | packages/client/src/index.ts:5094-5204 | a live call leaves every location outside its node as it was |
| LiveBuilder.MoveKeepsItems | packages/client/src/index.ts:5192-5204 | a move keeps the items of the list |
| LiveBuilder.MoveAndBack | packages/client/src/index.ts:5192-5204 | moving an item and moving it back gives the same document |
| LiveBuilder.NodeDataPathIff | packages/client/src/index.ts:6207-6213 | a node's path reaches its data if and only if no part of it is empty |
| LiveBuilder.PathFormsAgree | packages/client/src/index.ts:6215-6231 | a path given as a pointer and as a list of keys is the same path |
| LiveBuilder.MutationBuilder.Push | packages/client/src/index.ts:5261-5263 | a call appends its operations to the queue, or throws and appends nothing |
| LiveBuilder.PushesBuildQueue | packages/client/src/index.ts:5229-5264 | calls pushed one after another build the queue of those that do not throw, in order |
| LiveBuilder.QueueRefusedIff | packages/client/src/index.ts:5229-5264 | a queue that stops at the first throw is refused exactly when one of its calls throws |
| LiveBuilder.QueueRefines | packages/client/src/index.ts:5229-5264 | one mutation built from calls on many nodes does what the calls mean, one after another; if one of them has no effect, it throws or the mutation fails |
| StorageHistory.RoomHistory.CommitEntry | packages/client/src/index.ts:4061-4078 | an entry holds both diffs; it clears the redo stack, keeps the newest 100, and is dropped when a diff is empty |
| StorageHistory.RoomHistory.RecordEntry | packages/client/src/index.ts:4041-4059 | equal documents record nothing; a pause span gathers into one group |
| StorageHistory.RoomHistory.UndoStorage | packages/client/src/index.ts:4080-4121 | moves the last entry to the redo stack and patches the document; a patch that fails puts the entry back |
| StorageHistory.RoomHistory.RedoStorage | packages/client/src/index.ts:4080-4121 | the same in the other direction |
| StorageHistory.RoomHistory.ResumeStorageHistory | packages/client/src/index.ts:2786-2804 | only the outermost resume commits the group |
| StorageHistory.UndoMovesBack | packages/client/src/index.ts:4080-4121 | on a timeline an undo reaches the document before, and a redo undoes it exactly |
| StorageHistory.RedoMovesOn | packages/client/src/index.ts:4080-4121 | on a timeline a redo reaches the document after, and an undo undoes it exactly |
| StorageHistory.UndoTimes | packages/client/src/index.ts:4080-4121 | k undos lead to the document k entries back |
| StorageHistory.UndoRedoIdentity | packages/client/src/index.ts:4080-4121 | k undos and k redos give back document and both stacks |
| StorageHistory.CommitKeepsTimeline | packages/client/src/index.ts:4061-4078 | committing extends the line of documents, drops the undone part, and forgets the oldest beyond 100 |
| StorageHistory.RunKeepsTimeline | packages/client/src/index.ts:4030-4121 | over every run whose undos and redos inside written spans change nothing, the stacks describe one line of documents with the current one on it |
| StorageHistory.LinearHistory | packages/client/src/index.ts:2781-2804 | after any such run from empty stacks, k undos and k redos change nothing |
| StorageHistory.UndoWrites | packages/client/src/index.ts:4030-4121 | after n writes, k undos bring back the document before the k-th last one |
| StorageHistory.PauseSpanIsOneEntry | packages/client/src/index.ts:2781-2804 | a pause span becomes one entry whose undo returns to the document before the span |
| StorageHistory.UndoOneWriteIff | packages/client/src/index.ts:4061-4121 | an undo brings the document back if and only if the way back has no change below an empty key |
| StorageRecording.DepthsAreCounts | packages/client/src/index.ts:2781-2829 | over every run the disabled and paused depths are the numbers of disables and pauses not finished; finishing with none open changes nothing |
| StorageRecording.WriteIsRecorded | packages/client/src/index.ts:4030-4078 | in every run, a changing write outside spans with no disable open is the next undo entry, and its undo returns to the document before it when the diff carries it |
| StorageRecording.WriteIsNotRecorded | packages/client/src/index.ts:4030-4040 | a write while a disable is open, an unrecorded write and another writer's document move the document and leave stacks and group alone |
| StorageRecording.WriteIsGathered | packages/client/src/index.ts:4041-4059 | inside a span such a write extends the group from the document its first write found |
| StorageRecording.GroupIsRecorded | packages/client/src/index.ts:2786-2804 | the resume that closes a span makes the group the next undo entry if it has a diff both ways |
| StorageRecording.ClearForgets | packages/client/src/index.ts:2774-2779 | clearing forgets stacks and group and keeps the document and the depths |
| StorageRecording.UndoMovesOrStays | packages/client/src/index.ts:4080-4121 | an undo moves one entry across or changes nothing, and no entry is lost |
| StorageRecording.RedoMovesOrStays | packages/client/src/index.ts:4080-4121 | the same of a redo |
| StorageSpans.UndoShowsIff | packages/client/src/index.ts:4080-4121 | whatever document an undo finds, it ends at the one before its entry if and only if the entry's diff carries it there |
| StorageSpans.RedoShowsIff | packages/client/src/index.ts:4080-4121 | the same of a redo and the document after its entry |
| StorageSpans.EntriesAreRecorded | packages/client/src/index.ts:4030-4078 | over every run, each entry on either stack is of a change one of its events recorded: a write outside spans, or the end of a span that gathered it |
| StorageSpans.GroupIsGathered | packages/client/src/index.ts:4041-4059 | a span under way goes from the document its first recorded write found to the document last recorded |
| StorageSpans.NextUndoOfAnyRun | packages/client/src/index.ts:4030-4121 | after every run of the writer's calls and other writers' documents, the next undo is that of a recorded change, with the same exact condition |
| StorageSpans.NextRedoOfAnyRun | packages/client/src/index.ts:4030-4121 | the same of the next redo |
| StorageSpans.SpanReturnsIff | packages/client/src/index.ts:2781-2804 | whatever happens in a pause span, its entry goes back to the document its first recorded write found, if and only if the diff from the last document recorded carries the one the span ends with |
| StorageSpans.SpanOpenedByWrite | packages/client/src/index.ts:2781-2804 | a span that opens with a write goes back to the document before the span, under the same condition |
| StorageSpans.WholeDocumentsReturn | packages/client/src/index.ts:2781-2804 | a document that is no record comes back whatever the undos and redos in the span did |
| StorageSpans.UndoInsideSpanLosesA | packages/client/src/index.ts:4041-4121 | a run with an undo inside a span whose undo does not return |
| StorageSpans.RedoInsideSpanLeavesA | packages/client/src/index.ts:4041-4121 | a run with a redo inside a span whose undo does not return |
| StorageClient.OpenRTCClient.MutateStorage | packages/client/src/index.ts:3280-3367 | what issuing a mutation makes of the storage maps, the pending mutations and the promises, also when the patch or the send fails |
| StorageClient.OpenRTCClient.ReapplyPendingStorageMutations | packages/client/src/index.ts:3774-3809 | pending mutations replay in issue order; the first that fails is dropped and rejected and none is shown |
| StorageClient.OpenRTCClient.ApplyAuthoritative | packages/client/src/index.ts:3733-3750 | a stale document only refreshes the status; another is stored and the pending mutations replayed on it |
| StorageClient.OpenRTCClient.HandleStorageAck | packages/client/src/index.ts:3631-3655 | the acknowledged mutation stops being pending first and its promise is resolved last, stale or not |
| StorageClient.OpenRTCClient.HandleStorageDocument | packages/client/src/index.ts:3617-3674 | snapshots and updates are taken alike, a delete as no document |
| StorageClient.OpenRTCClient.ApplyConflictRepair | packages/client/src/index.ts:3831-3873 | an accepted repair takes the document, replays without the refused mutation and puts that one back last; a stale one only refreshes the status |
| StorageClient.OpenRTCClient.HandleConflict | packages/client/src/index.ts:3672-3697 | after a repair the refused mutation is rejected without rollback; without a repair it is rolled back |
| StorageClient.OpenRTCClient.RejectStorageRequest | packages/client/src/index.ts:3875-3898 | the refused mutation is dropped, rolled back or refreshed, and rejected |
| StorageClient.OpenRTCClient.RollbackStorageMutation | packages/client/src/index.ts:3926-3941 | the document of the time of issue comes back and the other pending mutations replay on it |
| StorageClient.OpenRTCClient.HandleSocketClosed | packages/client/src/index.ts:3911-3924 | every pending mutation is rolled back and rejected; a reset forgets all rooms |
| StorageClient.OpenRTCClient.LeaveRoom | packages/client/src/index.ts:4169-4191 | the room is forgotten and its mutations rejected without rolling back |
| StorageSettlement.StepCounts | packages/client/src/index.ts:3280-3367 | every kind of step keeps each mutation counted once, pending or settled |
| StorageSettlement.EveryMutationIsAccountedFor | packages/client/src/index.ts:3875-3924 | in every run an issued mutation is either pending or its promise settled exactly once |
| StorageOutcomes.StepResolvesIff | packages/client/src/index.ts:3631-3655 | one step resolves a pending mutation with a document if and only if it is its acknowledgement carrying that document |
| StorageOutcomes.ResolvedIffAcknowledged | packages/client/src/index.ts:3631-3655 | over every run, a promise is resolved with a document if and only if an acknowledgement of it with that document arrived while it was pending |
| StorageOutcomes.OthersAreRejected | packages/client/src/index.ts:3875-3924 | over every run, a promise is rejected if and only if its mutation was issued, is not pending and was never acknowledged while pending |
| StorageRooms.StepLeavesOtherRooms | packages/client/src/index.ts:3280-3367 | an event leaves document, status, sequence and pending mutations of every room it is not for |
| StorageRooms.RunLeavesOtherRooms | packages/client/src/index.ts:3617-3697 | over every run, a room that no event is for stays as it was |
| StorageRooms.DocumentIsTakenIff | packages/client/src/index.ts:3733-3750 | a server document becomes the room's, with its sequence, unless its sequence is no newer; then the status alone may change |
| StorageRooms.StatusAfterDocument | packages/client/src/index.ts:3733-3809 | the status, the document on show and what is rejected after a server document, from what is pending and how it replays |
| StorageRooms.ConflictIsTakenIff | packages/client/src/index.ts:3831-3873 | a conflict's document becomes the room's unless its sequence is older; then the conflict does what a refusal does |
| StorageRooms.ConflictWithoutRoom | packages/client/src/index.ts:3831-3846 | a conflict that names no room is for its mutation's room, and without one does nothing |
| StorageRooms.IssueIsShown | packages/client/src/index.ts:3280-3367 | a sent mutation is pending last, remembers the document shown before it and shows its effect where there is a document |
| StorageRooms.FailedPatchIsRejected | packages/client/src/index.ts:3280-3367 | a patch that fails on the document shown is rejected with nothing else changed |
| StorageRooms.RefusalUndoesIssue | packages/client/src/index.ts:3926-3941 | the refusal of a room's only mutation puts all documents and pending mutations back |
| StorageRooms.FailedSendUndoesIssue | packages/client/src/index.ts:3355-3366 | so does a send that fails when nothing else is pending in the room |
| StorageRooms.UndefinedDocumentIff | packages/client/src/index.ts:6123-6158 | on an undefined document an operation goes through if and only if it sets the root or copies the root to itself |
| StorageSettlement.ConflictKeepsSafe | packages/client/src/index.ts:3831-3898 | setting the refused mutation aside and back leaves no room synchronized with something pending |
| StorageSettlement.RunKeepsStatusSafe | packages/client/src/index.ts:3733-3809 | after every step of every run a synchronized room has nothing pending |
| StorageSettlement.RunSequenceNeverDecreases | packages/client/src/index.ts:3733-3750 | a room's storage sequence never decreases until the room is reset |
| StorageFold.AcceptedMessageHeals | packages/client/src/index.ts:3733-3750 | an accepted document whose replay succeeds puts the room in step from any state |
| StorageFold.StepInStepIff | packages/client/src/index.ts:3280-3367 | for every event, the step keeps every room in step if and only if its guard, evaluated before the step, holds |
| StorageFold.UnsentInStepIff | packages/client/src/index.ts:3355-3366 | a failed send keeps a room in step if and only if replaying the others on the document put back changes nothing, or, where that fails, the others without the failing one give that document |
| StorageFold.AckInStepIff | packages/client/src/index.ts:3631-3655 | the exact condition for an acknowledgement, stale or not, known or not, whether its replay succeeds or fails |
| StorageFold.ConflictInStepIff | packages/client/src/index.ts:3831-3898 | the exact condition for a conflict, accepted or stale, whether its replay succeeds or fails |
| StorageFold.RefusalInStepIff | packages/client/src/index.ts:3926-3941 | the exact condition for a refusal, whether the replay on the document rolled back to succeeds or fails |
| StorageFold.CloseInStepIff | packages/client/src/index.ts:3911-3924 | a closed socket shows what the room's last pending mutation saw when issued, and is in step if and only if that is the server's document |
| StorageFold.RunKeepsInStep | packages/client/src/index.ts:3617-3697 | over every run whose steps meet their guards, each room shows its pending mutations replayed in issue order on the newest accepted server document |
| StorageFold.ClientsAgree | packages/client/src/index.ts:3733-3809 | two clients of one server at the same sequence with nothing pending show the same document |
| StorageLimits.StaleAckInStepIff | packages/client/src/index.ts:3631-3655 | after a stale acknowledgement the room is in step if and only if the mutations after the acknowledged one, replayed without it, end at the document shown |
| StorageLimits.StaleAckOfLastIff | packages/client/src/index.ts:3631-3655 | if it was the room's last mutation: if and only if it changed nothing |
| StorageLimits.StaleAckBeforeSetIff | packages/client/src/index.ts:3631-3655 | if a whole document is set later: if and only if the mutations in between replay without it |
| StorageLimits.FailedReplayIff | packages/client/src/index.ts:3774-3809 | after a failed replay, of whatever message, the room is in step if and only if the mutations left lead back to the document taken |
| StorageLimits.FailedReplayOfLastIff | packages/client/src/index.ts:3774-3809 | if the last mutation is the one that fails: if and only if the earlier ones change nothing |
| StorageLimits.RefusalIff | packages/client/src/index.ts:3926-3941 | a refusal whose replay goes through is in step if and only if the later mutations end alike after the earlier ones on the server's document and on the one put back |
| StorageLimits.RefusalFailingIff | packages/client/src/index.ts:3926-3941 | a refusal whose replay fails is in step if and only if the others, on the server's document, give the one put back |
| StorageLimits.RefusalOfOldestIsSafe | packages/client/src/index.ts:3926-3941 | the oldest mutation, issued on what is still the server's document, is refused safely if the rest replays |
| StorageLimits.RefusalOfLastIff | packages/client/src/index.ts:3926-3941 | the last mutation is refused safely if and only if the earlier ones change nothing when replayed on what they show |
| StorageLimits.RefusalBeforeSetIsSafe | packages/client/src/index.ts:3926-3941 | with a whole document set later, a refusal is safe when what lies between replays |
| StorageLimits.UnsentAfterSetIsSafe | packages/client/src/index.ts:3355-3366 | a failed send is safe when a whole document is pending and what comes before it replays |
| StorageLimits.StaleAckLeavesSecondCopy | packages/client/src/index.ts:3631-3655 | a run in which a stale acknowledgement leaves an append in the document twice |
| StorageLimits.FailedSendShowsTwice | packages/client/src/index.ts:3355-3366 | a run in which a failed send shows another append twice |
| StorageLimits.FailedSendRejectsAnother | packages/client/src/index.ts:3355-3366 | a run in which a failed send drops and rejects a mutation that was sent, with its effect still on show |
| StorageLimits.FailedReplayHidesAnother | packages/client/src/index.ts:3786-3798 | a run in which a failed replay leaves another pending mutation not shown |
| StorageLimits.RefusalShowsTwice | packages/client/src/index.ts:3926-3941 | a run in which a refusal shows another append twice |
| StorageLimits.CloseShowsRejected | packages/client/src/index.ts:3911-3924 | a run in which a closed socket leaves a rejected document on show |
| JsonString.UnquoteQuote | server/internal/admin/service.go:2735-2775 | reading a JSON string undoes writing it, for every string |
| JsonString.SimpleEscapesRead | server/internal/admin/service.go:2735-2775 | each two-character escape is read as its character |
| JsonString.CodeUnitEscapeReads | server/internal/admin/service.go:2735-2775 | an escaped code unit is its character, and an unpaired surrogate the replacement character |
| JsonString.SurrogatePairReads | server/internal/admin/service.go:2735-2775 | two escaped surrogates are the one character they stand for |
| JsonString.BadTextIsRefused | server/internal/admin/service.go:2735-2775 | control characters, unknown escapes and unclosed text are refused |
| QueryTokens.SplitRoomListQuery | server/internal/admin/service.go:2620-2660 | the one-pass automaton finds the tokens that reading token by token finds |
| QueryTokens.TokensIff | server/internal/admin/service.go:2620-2660 | a text is split into these tokens if and only if it is them in order, each balanced, with only white space around and between |
| QueryTokens.SplitJoin | server/internal/admin/service.go:2620-2660 | splitting undoes joining balanced tokens by spaces |
| QueryText.PrintQuery | packages/client/src/index.ts:1004-1018 | one part per defined clause in order, the first bad clause's error, and at most 20 clauses |
| QueryParser.ParseListQuery | server/internal/admin/service.go:2568-2592 | trims, limits, splits and parses, with the first refused clause's error |
| QueryAcceptance.AcceptedIff | server/internal/admin/service.go:2568-2618 | a query is read as these clauses if and only if it is blank and there are none, or within both limits it is those tokens, each read as its clause |
| QueryAcceptance.ErrorIsFirst | server/internal/admin/service.go:2568-2618 | the error is that of the first clause refused |
| QueryAcceptance.ClauseNeedsBoth | server/internal/admin/service.go:2662-2686 | a clause without a colon, or with nothing before or behind the first one, is refused |
| QueryAcceptance.AcceptedClauseIsWellFormed | server/internal/admin/service.go:2662-2733 | accepted clauses are non-empty ids, the two flags of threads, and metadata paths |
| QueryAcceptance.WildcardIs | server/internal/admin/service.go:2662-2733 | a wildcard asks for a metadata key to exist and is refused for ids and flags |
| QueryAcceptance.MetadataPathIff | server/internal/admin/service.go:2777-2827 | a field names a metadata path if and only if it spells it with dots or with brackets |
| QueryAcceptance.UnquotedScalars | server/internal/admin/service.go:2752-2775 | what unquoted words and numbers are read as |
| QueryAcceptance.CompositesAreRefused | server/internal/admin/service.go:2752-2775 | objects and lists are refused as values |
| QueryRoundTrip.PartIsRead | packages/client/src/index.ts:1020-1062 | every printed clause is one balanced token |
| QueryRoundTrip.PartReadsBack | server/internal/admin/service.go:2662-2733 | the parser reads a printed clause as the clause that was meant: same path, same scalar type and value |
| QueryRoundTrip.ServerReadsClientQuery | server/internal/admin/service.go:2568-2618 | a printed query is read as exactly its clauses if it has at most 1024 bytes, and refused as too long otherwise |
| QueryRoundTrip.LongIdIsRefused | server/internal/admin/service.go:2568-2592 | a search for an id of 1020 characters or more prints and is refused as too long |
| YjsCompaction.CompactYjsDocument | packages/yjs-compactor/src/index.ts:85-120 | the loop joins the snapshot with every update above the checkpoint and throws at the first bad one |
| YjsCompaction.CompactedCovers | packages/yjs-compactor/src/index.ts:50-83 | a compaction holds exactly the snapshot and the loaded updates, up to the highest sequence loaded |
| YjsCompaction.YjsRedisStore.Load | packages/yjs-compactor/src/redis-store.ts:50-76 | the loops give the legacy updates with sequence 0, then the log above the checkpoint in order |
| YjsCompaction.YjsRedisStore.CompactRoom | packages/yjs-compactor/src/index.ts:50-83 | one attempt skips, throws or replaces the snapshot as decided, whichever command fails |
| YjsCompactionDecision.TotalBytesIsSum | packages/yjs-compactor/src/index.ts:50-83 | the size compared is the sum of the update sizes |
| YjsCompactionDecision.CompactsIff | packages/yjs-compactor/src/index.ts:50-83 | a room is compacted if and only if it has updates, all sequenced, of the root and not empty, as many and as large together as asked |
| YjsCompactionDecision.SkipsIff | packages/yjs-compactor/src/index.ts:50-83 | each reason to skip and each refusal has its exact condition |
| YjsCompactionDecision.ReadyRoomIsCompacted | packages/yjs-compactor/src/index.ts:50-83 | progress: an attempt without fault on such a room empties its log and makes the highest sequence the checkpoint |
| YjsCompactionDecision.AttemptThrowsIff | packages/yjs-compactor/src/runner.ts:191-214 | an attempt throws if and only if a command it gets to fails or an update it would merge is empty |
| YjsCompactionDecision.AttemptCompactsIff | packages/yjs-compactor/src/index.ts:50-83 | an attempt changes the store if and only if the room is ready and the transaction runs, whether or not its reply arrives |
| YjsCompactionDecision.LoadedInOrder | packages/yjs-compactor/src/redis-store.ts:50-76 | a load is the legacy updates in order and then exactly the log above the checkpoint, ascending |
| YjsCompaction.CompactRoomWithRetry | packages/yjs-compactor/src/runner.ts:191-214 | the store is what that many attempts make of it, with at most one more attempt than retries, stopping at the first that does not throw |
| YjsCompactionProtocol.RetriesKeepDocument | packages/yjs-compactor/src/runner.ts:191-214 | any number of attempts, whatever fails in them, change no rebuilt document and never lower the checkpoint |
| YjsCompactionProtocol.RetryAfterLostReply | packages/yjs-compactor/src/runner.ts:191-214 | after a transaction whose reply was lost, the retry finds nothing left to compact and does not throw |
| YjsCompactionProtocol.ReplaceKeepsDocument | packages/yjs-compactor/src/redis-store.ts:78-94 | the transaction changes no rebuilt document |
| YjsCompactionProtocol.StepKeepsGood | packages/yjs-compactor/src/index.ts:50-83 | each step keeps the rebuilt document equal to everything published and never lowers the checkpoint |
| YjsCompactionProtocol.CompactionLosesNothing | packages/yjs-compactor/src/redis-store.ts:50-94 | over every interleaving, failure, lost reply and retry in which appends become visible above the horizon, nothing is lost or invented |
| YjsCompactionProtocol.AtomicAppendsAreNeverLost | packages/yjs-compactor/src/runner.ts:191-214 | with atomic appends the same holds of every run without any guard |
| YjsCompactionProtocol.LatePublishIff | server/internal/cluster/redis.go:1862-1886 | an append visible at or below the checkpoint survives if and only if its operations were known |
| YjsCompactionProtocol.OvertakenPublishIff | server/internal/cluster/redis.go:1862-1886 | an append visible below the checkpoint being made survives the transaction, if that comes next, if and only if its operations were known |
| YjsCompactionProtocol.UnreadPublishIff | packages/yjs-compactor/src/redis-store.ts:50-94 | an append visible after the log was read, at or below the highest sequence read, survives merge and transaction, if those come next, if and only if its operations were known |
| YjsCompactionLoss.EveryRunIsAccountedFor | packages/yjs-compactor/src/redis-store.ts:50-94 | over every run, with no guard, a reader rebuilds exactly what the ledger of appends says was saved or is undecided, and nothing is lost if and only if all that was lost was also appended otherwise |
| YjsCompactionLoss.LostForGood | packages/yjs-compactor/src/redis-store.ts:50-94 | over every later run, what a reader does not rebuild comes back only if it is appended again |
| YjsCompactionProtocol.OutOfOrderAppendIsLost | server/internal/cluster/redis.go:1862-1886 | a run in which an update is lost |
| EventCursor.StepKeepsCaught | packages/client/src/index.ts:3572-3607 | every step keeps the delivered events one gapless block of the log |
| EventCursor.DeliveredFromCursor | packages/client/src/index.ts:2568-2592 | over any number of disconnects the delivered events are a prefix of the log above the starting cursor, each once, and all of it when the open connection has nothing more to send |
| EventCursor.DeliveredWithoutCursor | packages/client/src/index.ts:2568-2592 | without a starting cursor they are still one gapless block |
| EventCursor.FirstAboveSplits | packages/client/src/index.ts:2568-2592 | the replay starts at the first event above the cursor: none before it is above, all from it on are |
| EventCursor.AcksOfRun | packages/client/src/index.ts:3572-3607 | over every run the acknowledgements are, in order, the events delivered while the socket stayed open |
| EventCursor.AllDeliveriesAreAcked | packages/client/src/index.ts:3572-3607 | when it always stayed open they are the deliveries |
| YjsProvider.OpenRTCYjsProvider.HandleLocalUpdate | packages/yjs/src/index.ts:383-392 | a local update is sent, or a sync is owed |
| YjsProvider.OpenRTCYjsProvider.LoadOfflineUpdates | packages/yjs/src/index.ts:798-815 | stored updates join the document and a sync is owed if there were any; a load that throws keeps those before the failure and owes nothing new |
| YjsProvider.NoLocalUpdateIsForgotten | packages/yjs/src/index.ts:594-615 | in every run each local update is contained in a frame given to an open socket, or a sync is owed |
| YjsProvider.OpeningPaysSync | packages/yjs/src/index.ts:607-615 | after the socket opens no sync is owed and every local update is in a frame |
| YjsProvider.LocalUpdatesAreSent | packages/yjs/src/index.ts:383-392 | over every run, once the socket is open at or after a local update, the update is in a frame, then and ever after |
| YjsProvider.OfflineUpdatesAreSent | packages/yjs/src/index.ts:798-815 | what was stored offline is in a frame once the socket opens after the load |
| YjsProvider.DocumentIsAllBrought | packages/yjs/src/index.ts:383-392 | over every run the document is what it was and all that was brought, and no frame holds more than it |
| YjsProvider.RequestsAreAnswered | packages/yjs/src/index.ts:594-605 | an open socket answers a state vector with exactly what is missing, and a snapshot is the whole document |
| YjsProvider.SocketStateIs | packages/yjs/src/index.ts:594-605 | a closed socket takes no frames |
| YjsProvider.OpenRTCYjsProvider.BindSubdoc | packages/yjs/src/index.ts:476-555 | binding replaces another document of the guid and applies the queue in order; an update that throws loses itself and the rest of the queue |
| YjsProvider.OpenRTCYjsProvider.HandleRemoteSubdocFrame | packages/yjs/src/index.ts:457-468 | a frame for a bound guid is applied, or lost if it throws; another is queued |
| YjsProvider.NextFrameGoesTo | packages/yjs/src/index.ts:457-555 | binding and unbinding decide whether the next frame reaches a document or the queue |
| YjsProvider.EarlyFramesKeepTheirOrder | packages/yjs/src/index.ts:457-555 | per guid, frames received are frames settled, applied or lost, then frames queued, in order of arrival, and a bound guid has no queue |
| YjsProvider.FramesLostInRun | packages/yjs/src/index.ts:541-555 | over every run, the frames lost are those that throw and those in one queue behind one that throws |
| YjsProvider.NothingThrownNothingLost | packages/yjs/src/index.ts:541-555 | when everything can be applied, every frame settled was applied |
| SubdocFraming.EncodeSubdocPayload | packages/yjs/src/index.ts:1236-1247 | fills the array with the 16-bit length, guid and update, and refuses guids of 0 or more than 65535 bytes |
| SubdocFraming.DecodeOfEncoded | packages/yjs/src/index.ts:1236-1265 | decoding undoes encoding if and only if guid and update are not empty |
| SubdocFraming.EncodedOfDecoded | packages/yjs/src/index.ts:1249-1265 | an accepted payload is the encoding of what was decoded from it |
| Inbox.TakenIs | packages/client/src/index.ts:1255-1284 | a delta keeps, removes and replaces exactly the notifications it names, and ids stay unique |
| Inbox.MaterializeIs | packages/client/src/index.ts:1242-1253 | the shown list is the matching notifications, sorted, each once |
| Inbox.ShownAre | packages/client/src/index.ts:1242-1253 | shown are exactly the user's notifications, unread if asked, newest first, ties broken by the texts |
| Inbox.DeltaRemoves | packages/client/src/index.ts:1255-1284 | a delta removes only what it deletes or replaces |
| Inbox.IncrementalIsRecomputed | packages/client/src/index.ts:1286-1295 | for every order of texts, taking deltas into the shown list equals taking them into the full list and filtering and sorting once |
| Inbox.LimitedAgreesIff | packages/client/src/index.ts:1255-1284 | with a limit, the delta taken into the shown list gives the recomputed list if and only if nothing cut off stays, or the limit is filled by what ranks before the first of it |
| Inbox.LimitedRunAgrees | packages/client/src/index.ts:1286-1295 | over every run of such deltas the limited inbox is the recomputed one, limited |
| Inbox.RoomForAll | packages/client/src/index.ts:1286-1295 | a limit with room for all notifications and deltas misses nothing |
| Inbox.LimitForgets | packages/client/src/index.ts:5960-5971 | a list and a delta for which the limited lists differ |
| WebhookRetry.RetryDue | server/internal/admin/webhooks.go:180-209 | exactly the listed records that are due are tried, each once, and their number is returned |
| WebhookRetry.DelaysAre | server/internal/admin/webhooks.go:242-250 | the delays double from one minute and stay at 32 |
| WebhookRetry.ScanTriesIff | server/internal/admin/webhooks.go:180-209 | a scan tries a delivery if and only if its last attempt failed, it is not the tenth, and its time has come |
| WebhookRetry.AttemptRecords | server/internal/admin/webhooks.go:211-240 | what an attempt leaves in the record: delivered, failed with the next time, or dead at the tenth |
| WebhookRetry.SettledForGood | server/internal/admin/webhooks.go:180-209 | over every run a delivered or dead delivery is never tried again |
| WebhookRetry.FailingDeliveryDies | server/internal/admin/webhooks.go:211-240 | a delivery that always fails is tried by each late enough scan and is dead exactly from its tenth attempt on |
| WebhookRetry.WaitedInAll | server/internal/admin/webhooks.go:242-250 | the nine delays add up to 159 minutes |
| WebhookRetry.RetriesAreBounded | server/internal/admin/webhooks.go:180-250 | at most ten attempts; failed exactly after one to nine attempts of which the last failed; the tenth starts 159 minutes or more after the first |

## Left out

- Object key order: `jsonEqual` compares serialised text, which depends on it. The diff is proved for every equality test that implies equal trees, and the `test` operation compares trees.
- Trees are values. The source edits a private clone in place, so nothing outside can see the difference; aliasing inside one tree is not modelled.
- Numbers in trees are integers; floating-point printing and reading is not modelled.
- QueryText.PrintQuery: numbers are safe integers, as they are in QueryRoundTrip.PartReadsBack; printing a floating-point number is not modelled.
- QueryParser.ParseListQuery: an unquoted number that is no plain integer is kept as text, where the source reads a floating-point number.
- Lone surrogates, `__proto__` keys, and undefined values inside patches. A document may be undefined, a node may not.
- StorageHistory.LinearHistory: covers one writer whose writes are acknowledged one by one and recorded. Other events that change the document without an entry (an undo or redo inside a span with writes, unrecorded writes, other writers' documents) are outside it and covered by `StorageSpans` instead.
- StorageHistory.RunKeepsTimeline: the same; such runs are outside it.
- StorageRecording.WriteIsRecorded: a write of a room that has a document and nothing else pending; the first document of a room has none before it, and the source records no entry for it.
- JsonDiffLimits.DiffReachesTargetIff: for exact equality of trees, as is `JsonDiffLimits.LostAt`; the source's test also tells key orders apart, which trees here do not have. `JsonDiffTransfer.DiffCarriesIff` holds for every test.
- StorageFold.RunKeepsInStep: covers the steps whose guard holds; by `StorageFold.StepInStepIff` the others do not keep every room in step.
- Storage reads in flight, their waiters, emitted events, operation ids and expected sequences: the model has only the status a read sets. A mutation refused for a bad expected sequence never becomes pending.
- A user callback that re-enters the client while it emits.
- QueryRoundTrip.ServerReadsClientQuery: the printer never writes bracket paths or unquoted text; how those are read is in `QueryAcceptance`. The room and thread variants, which differ in their special fields and in error texts, are one definition with a parameter.
- Matching parsed queries against rooms and threads, and paging.
- Yjs itself: updates are sets of operations, merging is union, encoded sizes are any positive number. Base64, hashes and JSON records of the store are not modelled.
- More than one compactor on a room: the store has no compare-and-set on the checkpoint.
- EventCursor.DeliveredFromCursor: the server is one that replays above the sequence it is given and then continues in order; without a sequence it sends only later events, so what was published before the first delivery may be missed.
- Subdocument frames below the bytes: text decoding of guids and the pending sync of single subdocuments.
- Inbox.IncrementalIsRecomputed: the locale's order is any total order in which different texts are never equal, timestamps are parseable, and the limit is a number.
- Webhooks: manual retries, signatures, HTTP and a store that refuses updates.
- WebSockets, timers, HTTP handlers, authentication, metrics, configuration, user-interface packages.
