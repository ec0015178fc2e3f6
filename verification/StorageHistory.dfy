/** Undo and redo of one room's storage, for one writer whose writes are acknowledged one at a time. */
module StorageHistory {
  import opened Wrappers
  import opened JsonPointer
  import opened Json
  import opened JsonPatch
  import opened JsonDiff
  import opened JsonDiffProofs
  import JsonDiffLimits

  const MAX_STORAGE_HISTORY_ENTRIES: nat := 100

  datatype Entry = Entry(undoOperations: seq<Operation>, redoOperations: seq<Operation>)

  datatype Group = Group(before: Json, after: Json)

  datatype History = History(
    document: Json,
    undo: seq<Entry>,
    redo: seq<Entry>,
    group: Option<Group>,
    pauseDepth: nat,
    disabledDepth: nat)

  function LatestEntries(stack: seq<Entry>): seq<Entry> {
    if |stack| > MAX_STORAGE_HISTORY_ENTRIES then stack[|stack| - MAX_STORAGE_HISTORY_ENTRIES..] else stack
  }

  /** `commitStorageHistoryEntry` */
  function Commit(same: Equality, h: History, before: Json, after: Json): History {
    var entry := Entry(Diff(same, after, before, ""), Diff(same, before, after, ""));
    if entry.redoOperations == [] || entry.undoOperations == [] then h
    else h.(undo := LatestEntries(h.undo + [entry]), redo := [])
  }

  /** `recordStorageHistoryEntry` */
  function Record(same: Equality, h: History, before: Json, after: Json): History {
    if same(before, after) then h
    else if h.pauseDepth > 0 then
      h.(group := Some(if h.group.Some? then h.group.value.(after := after) else Group(before, after)))
    else Commit(same, h, before, after)
  }

  /** A write acknowledged with the document it made: `recordStorageHistoryFromMutation`. */
  function Write(same: Equality, h: History, after: Json, addToHistory: bool): History {
    var written := h.(document := after);
    if !addToHistory || h.disabledDepth > 0 then written else Record(same, written, h.document, after)
  }

  /** `applyStorageHistoryEntry("undo")`. A patch that fails puts the entry back. */
  function Undo(h: History): History {
    if h.undo == [] then h
    else
      var entry := Last(h.undo);
      match Apply(h.document, entry.undoOperations)
      case Ok(document) => h.(document := document, undo := Init(h.undo), redo := h.redo + [entry])
      case Err(_) => h
  }

  function Redo(h: History): History {
    if h.redo == [] then h
    else
      var entry := Last(h.redo);
      match Apply(h.document, entry.redoOperations)
      case Ok(document) => h.(document := document, redo := Init(h.redo), undo := h.undo + [entry])
      case Err(_) => h
  }

  function Pause(h: History): History {
    h.(pauseDepth := h.pauseDepth + 1)
  }

  function Resume(same: Equality, h: History): History {
    if h.pauseDepth == 0 then h
    else if h.pauseDepth > 1 then h.(pauseDepth := h.pauseDepth - 1)
    else
      var resumed := h.(pauseDepth := 0, group := None);
      if h.group.Some? then Commit(same, resumed, h.group.value.before, h.group.value.after) else resumed
  }

  /** `disableStorageHistory` on entry to its callback, and when the callback is done. */
  function Disable(h: History): History {
    h.(disabledDepth := h.disabledDepth + 1)
  }

  function Enable(h: History): History {
    h.(disabledDepth := if h.disabledDepth <= 1 then 0 else h.disabledDepth - 1)
  }

  function Clear(h: History): History {
    h.(undo := [], redo := [], group := None)
  }

  // ---------------------------------------------------------------- the client's fields

  class RoomHistory {
    const same: Equality
    var document: Json
    var undoStack: seq<Entry>
    var redoStack: seq<Entry>
    var pausedGroup: Option<Group>
    var pauseDepth: nat
    var disabledDepth: nat

    function State(): History
      reads this
    {
      History(document, undoStack, redoStack, pausedGroup, pauseDepth, disabledDepth)
    }

    constructor (same: Equality, document: Json)
      ensures this.same == same && State() == History(document, [], [], None, 0, 0)
    {
      this.same := same;
      this.document := document;
      undoStack, redoStack, pausedGroup, pauseDepth, disabledDepth := [], [], None, 0, 0;
    }

    method CommitEntry(before: Json, after: Json)
      modifies this
      ensures State() == Commit(same, old(State()), before, after)
    {
      var redoOperations := DiffJsonPatch(same, before, after, "");
      var undoOperations := DiffJsonPatch(same, after, before, "");
      if |redoOperations| == 0 || |undoOperations| == 0 {
        return;
      }
      undoStack := undoStack + [Entry(undoOperations, redoOperations)];
      if |undoStack| > MAX_STORAGE_HISTORY_ENTRIES {
        undoStack := undoStack[|undoStack| - MAX_STORAGE_HISTORY_ENTRIES..];
      }
      redoStack := [];
    }

    method RecordEntry(before: Json, after: Json)
      modifies this
      ensures State() == Record(same, old(State()), before, after)
    {
      if same(before, after) {
        return;
      }
      if pauseDepth > 0 {
        if pausedGroup.Some? {
          pausedGroup := Some(pausedGroup.value.(after := after));
        } else {
          pausedGroup := Some(Group(before, after));
        }
        return;
      }
      CommitEntry(before, after);
    }

    method Acknowledge(after: Json, addToHistory: bool)
      modifies this
      ensures State() == Write(same, old(State()), after, addToHistory)
    {
      var previous := document;
      document := after;
      if !addToHistory || disabledDepth > 0 {
        return;
      }
      RecordEntry(previous, after);
    }

    method UndoStorage() returns (ok: bool)
      modifies this
      ensures State() == Undo(old(State()))
      ensures ok <==> old(undoStack) == [] || Apply(old(document), Last(old(undoStack)).undoOperations).Ok?
    {
      if |undoStack| == 0 {
        return true;
      }
      var entry := Last(undoStack);
      undoStack := Init(undoStack);
      redoStack := redoStack + [entry];
      var patched := ApplyJsonPatchOptimistic(document, entry.undoOperations);
      if patched.Err? {
        redoStack := Init(redoStack);
        undoStack := undoStack + [entry];
        assert undoStack == old(undoStack);
        return false;
      }
      document := patched.value;
      return true;
    }

    method RedoStorage() returns (ok: bool)
      modifies this
      ensures State() == Redo(old(State()))
      ensures ok <==> old(redoStack) == [] || Apply(old(document), Last(old(redoStack)).redoOperations).Ok?
    {
      if |redoStack| == 0 {
        return true;
      }
      var entry := Last(redoStack);
      redoStack := Init(redoStack);
      undoStack := undoStack + [entry];
      var patched := ApplyJsonPatchOptimistic(document, entry.redoOperations);
      if patched.Err? {
        undoStack := Init(undoStack);
        redoStack := redoStack + [entry];
        assert redoStack == old(redoStack);
        return false;
      }
      document := patched.value;
      return true;
    }

    method PauseStorageHistory()
      modifies this
      ensures State() == Pause(old(State()))
    {
      pauseDepth := pauseDepth + 1;
    }

    method ResumeStorageHistory()
      modifies this
      ensures State() == Resume(same, old(State()))
    {
      if pauseDepth == 0 {
        return;
      }
      if pauseDepth > 1 {
        pauseDepth := pauseDepth - 1;
        return;
      }
      pauseDepth := 0;
      var group := pausedGroup;
      pausedGroup := None;
      if group.Some? {
        CommitEntry(group.value.before, group.value.after);
      }
    }

    method BeginDisabled()
      modifies this
      ensures State() == Disable(old(State()))
    {
      disabledDepth := disabledDepth + 1;
    }

    method FinishDisabled()
      modifies this
      ensures State() == Enable(old(State()))
    {
      disabledDepth := if disabledDepth <= 1 then 0 else disabledDepth - 1;
    }

    method ClearStorageHistory()
      modifies this
      ensures State() == Clear(old(State()))
    {
      undoStack, redoStack, pausedGroup := [], [], None;
    }
  }

  // ---------------------------------------------------------------- the timeline

  function Reverse<T>(s: seq<T>): (r: seq<T>)
    ensures |r| == |s|
  {
    if s == [] then [] else [Last(s)] + Reverse(Init(s))
  }

  /** All entries in the order of the documents they join: done ones, then undone ones. */
  function Entries(h: History): seq<Entry> {
    h.undo + Reverse(h.redo)
  }

  /** The document the stacks stand at: a pause span counts only once it is committed. */
  function Anchor(h: History): Json {
    if h.group.Some? then h.group.value.before else h.document
  }

  ghost predicate Links(entry: Entry, before: Json, after: Json) {
    && Apply(before, entry.redoOperations) == Ok(after)
    && Apply(after, entry.undoOperations) == Ok(before)
  }

  /** `docs` is the room's line of documents; the undo stack says how far along it the anchor is. */
  ghost predicate Timeline(h: History, docs: seq<Json>) {
    && |docs| == |Entries(h)| + 1
    && docs[|h.undo|] == Anchor(h)
    && (forall i :: 0 <= i < |Entries(h)| ==> Links(Entries(h)[i], docs[i], docs[i + 1]))
    && (h.group.Some? ==> h.group.value.after == h.document && h.pauseDepth > 0)
  }

  ghost predicate Reversible(same: Equality, before: Json, after: Json) {
    Addressable(same, before, after) && Addressable(same, after, before)
  }

  /** An entry that goes from one stack to the other stays where it is on the line. */
  lemma {:induction false} EntriesShift(undo: seq<Entry>, entry: Entry, redo: seq<Entry>)
    ensures undo + Reverse(redo + [entry]) == undo + [entry] + Reverse(redo)
    ensures (undo + [entry] + Reverse(redo))[|undo|] == entry
  {
    assert Last(redo + [entry]) == entry && Init(redo + [entry]) == redo;
    assert undo + ([entry] + Reverse(redo)) == undo + [entry] + Reverse(redo);
  }

  lemma {:induction false} UndoMovesBack(h: History, docs: seq<Json>)
    requires Timeline(h, docs) && h.group.None? && h.undo != []
    ensures Timeline(Undo(h), docs)
    ensures Undo(h).document == docs[|h.undo| - 1] && Undo(h).undo == Init(h.undo) && Redo(Undo(h)) == h
  {
    var n, entry := |h.undo| - 1, Last(h.undo);
    assert h.undo == Init(h.undo) + [entry];
    EntriesShift(Init(h.undo), entry, h.redo);
    assert Entries(h)[n] == entry && Links(entry, docs[n], docs[n + 1]);
    var back := Undo(h);
    assert back == h.(document := docs[n], undo := Init(h.undo), redo := h.redo + [entry]);
    assert Entries(back) == Entries(h) && Init(back.redo) == h.redo;
  }

  lemma {:induction false} RedoMovesOn(h: History, docs: seq<Json>)
    requires Timeline(h, docs) && h.group.None? && h.redo != []
    ensures Timeline(Redo(h), docs)
    ensures Redo(h).document == docs[|h.undo| + 1] && Redo(h).redo == Init(h.redo) && Undo(Redo(h)) == h
  {
    var n, entry := |h.undo|, Last(h.redo);
    assert h.redo == Init(h.redo) + [entry];
    EntriesShift(h.undo, entry, Init(h.redo));
    assert Entries(h)[n] == entry && Links(entry, docs[n], docs[n + 1]);
    var on := Redo(h);
    assert on == h.(document := docs[n + 1], redo := Init(h.redo), undo := h.undo + [entry]);
    assert Entries(on) == Entries(h) && Init(on.undo) == h.undo;
  }

  function Times(h: History, k: nat, back: bool): History {
    if k == 0 then h
    else
      var earlier := Times(h, k - 1, back);
      if back then Undo(earlier) else Redo(earlier)
  }

  /** k undos lead to the document k entries back on the timeline. */
  lemma {:induction false} UndoTimes(h: History, docs: seq<Json>, k: nat)
    requires Timeline(h, docs) && h.group.None? && k <= |h.undo|
    ensures Timeline(Times(h, k, true), docs) && Times(h, k, true).group.None?
    ensures Times(h, k, true).document == docs[|h.undo| - k]
    ensures |Times(h, k, true).undo| == |h.undo| - k
  {
    if k > 0 {
      UndoTimes(h, docs, k - 1);
      UndoMovesBack(Times(h, k - 1, true), docs);
    }
  }

  lemma {:induction false} RedoOfUndo(h: History, docs: seq<Json>, k: nat, j: nat)
    requires Timeline(h, docs) && h.group.None? && j <= k <= |h.undo|
    ensures Times(Times(h, k, true), j, false) == Times(h, k - j, true)
    decreases j
  {
    if j > 0 {
      RedoOfUndo(h, docs, k, j - 1);
      RedoAfterUndos(h, docs, k - j);
    }
  }

  lemma RedoAfterUndos(h: History, docs: seq<Json>, k: nat)
    requires Timeline(h, docs) && h.group.None? && k < |h.undo|
    ensures Redo(Times(h, k + 1, true)) == Times(h, k, true)
  {
    UndoTimes(h, docs, k);
    UndoMovesBack(Times(h, k, true), docs);
  }

  /** k undos followed by k redos give back the document and both stacks, exactly. */
  lemma UndoRedoIdentity(h: History, docs: seq<Json>, k: nat)
    requires Timeline(h, docs) && h.group.None? && k <= |h.undo|
    ensures Times(Times(h, k, true), k, false) == h
  {
    RedoOfUndo(h, docs, k, k);
  }

  // ---------------------------------------------------------------- every run keeps a timeline

  lemma DiffsLink(same: Equality, before: Json, after: Json)
    requires Sound(same) && Reversible(same, before, after)
    ensures Links(Entry(Diff(same, after, before, ""), Diff(same, before, after, "")), before, after)
    ensures Diff(same, before, after, "") == [] || Diff(same, after, before, "") == [] ==> before == after
  {
    DiffReachesTarget(same, before, after);
    DiffReachesTarget(same, after, before);
    assert Apply(before, []) == Ok(before) && Apply(after, []) == Ok(after);
  }

  /** The line of documents after an entry is committed at the anchor. */
  function Committed(same: Equality, h: History, docs: seq<Json>, before: Json, after: Json): seq<Json>
    requires |h.undo| < |docs|
  {
    if Diff(same, before, after, "") == [] || Diff(same, after, before, "") == [] then docs
    else
      var grown := docs[..|h.undo| + 1] + [after];
      grown[if |h.undo| + 1 > MAX_STORAGE_HISTORY_ENTRIES then |h.undo| + 1 - MAX_STORAGE_HISTORY_ENTRIES else 0..]
  }

  /** Pushing an entry at the anchor continues the line of documents up to it. */
  lemma {:induction false} PushKeepsLinks(h: History, docs: seq<Json>, entry: Entry, before: Json, after: Json)
    requires |docs| == |Entries(h)| + 1 && docs[|h.undo|] == before && Links(entry, before, after)
    requires forall i :: 0 <= i < |Entries(h)| ==> Links(Entries(h)[i], docs[i], docs[i + 1])
    ensures var stack, grown := h.undo + [entry], docs[..|h.undo| + 1] + [after];
            forall i :: 0 <= i < |stack| ==> Links(stack[i], grown[i], grown[i + 1])
  {
    var stack, grown := h.undo + [entry], docs[..|h.undo| + 1] + [after];
    forall i | 0 <= i < |stack|
      ensures Links(stack[i], grown[i], grown[i + 1])
    {
      if i < |h.undo| {
        assert Entries(h)[i] == stack[i];
      }
    }
  }

  /** Dropping the oldest entries drops the oldest documents. */
  lemma {:induction false} TrimKeepsLinks(next: History, stack: seq<Entry>, grown: seq<Json>)
    requires |grown| == |stack| + 1 && forall i :: 0 <= i < |stack| ==> Links(stack[i], grown[i], grown[i + 1])
    requires next.undo == LatestEntries(stack) && next.redo == [] && next.group.None?
    requires Last(grown) == next.document
    ensures Timeline(next, grown[|stack| - |next.undo|..])
  {
    var dropped := |stack| - |next.undo|;
    assert Entries(next) == next.undo;
    assert forall i :: 0 <= i < |next.undo| ==> next.undo[i] == stack[i + dropped];
  }

  lemma {:induction false} PushKeepsTimeline(h: History, docs: seq<Json>, entry: Entry, before: Json, after: Json)
    requires Timeline(h.(document := before), docs) && h.group.None? && h.document == after
    requires Links(entry, before, after)
    ensures var kept := LatestEntries(h.undo + [entry]);
            Timeline(h.(undo := kept, redo := []), (docs[..|h.undo| + 1] + [after])[|h.undo| + 1 - |kept|..])
  {
    var stack := h.undo + [entry];
    assert Entries(h.(document := before)) == Entries(h);
    PushKeepsLinks(h, docs, entry, before, after);
    TrimKeepsLinks(h.(undo := LatestEntries(stack), redo := []), stack, docs[..|h.undo| + 1] + [after]);
  }

  lemma {:induction false} CommittedIs(same: Equality, h: History, docs: seq<Json>, before: Json, after: Json)
    requires |h.undo| < |docs|
    ensures var entry := Entry(Diff(same, after, before, ""), Diff(same, before, after, ""));
            var kept := LatestEntries(h.undo + [entry]);
            Committed(same, h, docs, before, after)
            == if entry.redoOperations == [] || entry.undoOperations == [] then docs
               else (docs[..|h.undo| + 1] + [after])[|h.undo| + 1 - |kept|..]
  {
  }

  lemma {:induction false} CommitKeepsTimeline(same: Equality, h: History, docs: seq<Json>, before: Json, after: Json)
    requires Sound(same) && Reversible(same, before, after)
    requires Timeline(h.(document := before), docs) && h.group.None? && h.document == after
    ensures Timeline(Commit(same, h, before, after), Committed(same, h, docs, before, after))
  {
    DiffsLink(same, before, after);
    CommittedIs(same, h, docs, before, after);
    var entry := Entry(Diff(same, after, before, ""), Diff(same, before, after, ""));
    if entry.redoOperations != [] && entry.undoOperations != [] {
      PushKeepsTimeline(h, docs, entry, before, after);
    } else {
      assert h.(document := before) == h;
    }
  }

  /** What may happen to a room: the writer's own calls, and documents of other writers. */
  datatype Event =
    | Wrote(after: Json)
    | WroteUnrecorded(after: Json)
    | Received(document: Json)
    | Undid
    | Redid
    | Paused
    | Resumed
    | Cleared
    | DisabledHistory
    | EnabledHistory

  function Step(same: Equality, h: History, e: Event): History {
    match e
    case Wrote(after) => Write(same, h, after, true)
    case WroteUnrecorded(after) => Write(same, h, after, false)
    case Received(document) => h.(document := document)
    case DisabledHistory => Disable(h)
    case EnabledHistory => Enable(h)
    case Undid => Undo(h)
    case Redid => Redo(h)
    case Paused => Pause(h)
    case Resumed => Resume(same, h)
    case Cleared => Clear(h)
  }

  /** Changes have addresses and are recorded, and undo and redo inside a pause span with writes change nothing. */
  ghost predicate Linear(same: Equality, h: History, e: Event) {
    match e
    case Wrote(after) => Reversible(same, h.document, after) && (h.disabledDepth > 0 ==> after == h.document)
    case WroteUnrecorded(after) => after == h.document
    case Received(document) => document == h.document
    case Undid => h.group.None? || Undo(h) == h
    case Redid => h.group.None? || Redo(h) == h
    case Resumed => h.group.Some? ==> Reversible(same, h.group.value.before, h.group.value.after)
    case _ => true
  }

  function NextDocs(same: Equality, h: History, docs: seq<Json>, e: Event): seq<Json>
    requires |h.undo| < |docs|
  {
    match e
    case Wrote(after) =>
      if same(h.document, after) || h.pauseDepth > 0 || h.disabledDepth > 0 then docs
      else Committed(same, h, docs, h.document, after)
    case Resumed =>
      if h.pauseDepth == 1 && h.group.Some? then Committed(same, h, docs, h.group.value.before, h.group.value.after)
      else docs
    case Cleared => [h.document]
    case _ => docs
  }

  lemma {:induction false} SameEntries(h: History, next: History, docs: seq<Json>)
    requires Timeline(h, docs) && next.undo == h.undo && next.redo == h.redo && Anchor(next) == Anchor(h)
    requires next.group.Some? ==> next.group.value.after == next.document && next.pauseDepth > 0
    ensures Timeline(next, docs)
  {
    assert Entries(next) == Entries(h);
  }

  lemma {:induction false} CommitWriteKeepsTimeline(same: Equality, h: History, docs: seq<Json>, after: Json)
    requires Sound(same) && Timeline(h, docs) && Reversible(same, h.document, after) && h.group.None?
    ensures Timeline(Commit(same, h.(document := after), h.document, after),
                     Committed(same, h, docs, h.document, after))
  {
    var written := h.(document := after);
    assert written.(document := h.document) == h;
    CommitKeepsTimeline(same, written, docs, h.document, after);
  }

  lemma {:induction false} WriteKeepsTimeline(same: Equality, h: History, docs: seq<Json>, after: Json)
    requires Sound(same) && Timeline(h, docs) && Linear(same, h, Wrote(after))
    ensures Timeline(Write(same, h, after, true), NextDocs(same, h, docs, Wrote(after)))
  {
    if same(h.document, after) || h.disabledDepth > 0 {
      SameEntries(h, h.(document := after), docs);
    } else if h.pauseDepth > 0 {
      SameEntries(h, Record(same, h.(document := after), h.document, after), docs);
    } else {
      CommitWriteKeepsTimeline(same, h, docs, after);
    }
  }

  lemma {:induction false} ResumeKeepsTimeline(same: Equality, h: History, docs: seq<Json>)
    requires Sound(same) && Timeline(h, docs) && Linear(same, h, Resumed)
    ensures Timeline(Resume(same, h), NextDocs(same, h, docs, Resumed))
  {
    if h.pauseDepth == 1 && h.group.Some? {
      CommitGroupKeepsTimeline(same, h, docs);
    } else {
      SameEntries(h, Resume(same, h), docs);
    }
  }

  lemma {:induction false} CommitGroupKeepsTimeline(same: Equality, h: History, docs: seq<Json>)
    requires Sound(same) && Timeline(h, docs) && h.group.Some?
    requires Reversible(same, h.group.value.before, h.group.value.after)
    ensures var group := h.group.value;
            Timeline(Commit(same, h.(pauseDepth := 0, group := None), group.before, group.after),
                     Committed(same, h, docs, group.before, group.after))
  {
    var group := h.group.value;
    GroupAtAnchor(h, docs);
    CommitKeepsTimeline(same, h.(pauseDepth := 0, group := None), docs, group.before, group.after);
  }

  lemma {:induction false} GroupAtAnchor(h: History, docs: seq<Json>)
    requires Timeline(h, docs) && h.group.Some?
    ensures Timeline(h.(pauseDepth := 0, group := None, document := h.group.value.before), docs)
    ensures h.group.value.after == h.document
  {
    SameEntries(h, h.(pauseDepth := 0, group := None, document := h.group.value.before), docs);
  }

  lemma StepKeepsTimeline(same: Equality, h: History, docs: seq<Json>, e: Event)
    requires Sound(same) && Timeline(h, docs) && Linear(same, h, e)
    ensures Timeline(Step(same, h, e), NextDocs(same, h, docs, e))
  {
    match e {
      case Wrote(after) => WriteKeepsTimeline(same, h, docs, after);
      case Undid =>
        if h.undo != [] && h.group.None? {
          UndoMovesBack(h, docs);
        }
      case Redid =>
        if h.redo != [] && h.group.None? {
          RedoMovesOn(h, docs);
        }
      case Paused => SameEntries(h, Pause(h), docs);
      case Resumed => ResumeKeepsTimeline(same, h, docs);
      case Cleared => assert Entries(Clear(h)) == [];
      case WroteUnrecorded(after) => SameEntries(h, Step(same, h, e), docs);
      case Received(document) => SameEntries(h, Step(same, h, e), docs);
      case DisabledHistory => SameEntries(h, Disable(h), docs);
      case EnabledHistory => SameEntries(h, Enable(h), docs);
    }
  }

  function Run(same: Equality, h: History, events: seq<Event>): History
    decreases |events|
  {
    if events == [] then h else Run(same, Step(same, h, events[0]), events[1..])
  }

  ghost predicate LinearRun(same: Equality, h: History, events: seq<Event>)
    decreases |events|
  {
    events == [] || (Linear(same, h, events[0]) && LinearRun(same, Step(same, h, events[0]), events[1..]))
  }

  function RunDocs(same: Equality, h: History, docs: seq<Json>, events: seq<Event>): seq<Json>
    requires Sound(same) && Timeline(h, docs) && LinearRun(same, h, events)
    decreases |events|
  {
    if events == [] then docs
    else
      StepKeepsTimeline(same, h, docs, events[0]);
      RunDocs(same, Step(same, h, events[0]), NextDocs(same, h, docs, events[0]), events[1..])
  }

  /** Over every linear run the stacks describe one line of documents with the room's document on it. */
  lemma {:induction false} RunKeepsTimeline(same: Equality, h: History, docs: seq<Json>, events: seq<Event>)
    requires Sound(same) && Timeline(h, docs) && LinearRun(same, h, events)
    ensures Timeline(Run(same, h, events), RunDocs(same, h, docs, events))
    decreases |events|
  {
    if events != [] {
      StepKeepsTimeline(same, h, docs, events[0]);
      RunKeepsTimeline(same, Step(same, h, events[0]), NextDocs(same, h, docs, events[0]), events[1..]);
    }
  }

  /** So after any linear run, any number of undos and as many redos change nothing. */
  lemma LinearHistory(same: Equality, document: Json, events: seq<Event>, k: nat)
    requires Sound(same)
    requires LinearRun(same, History(document, [], [], None, 0, 0), events)
    requires var h := Run(same, History(document, [], [], None, 0, 0), events); h.group.None? && k <= |h.undo|
    ensures var h := Run(same, History(document, [], [], None, 0, 0), events);
            Times(Times(h, k, true), k, false) == h
  {
    var start := History(document, [], [], None, 0, 0);
    assert Timeline(start, [document]);
    RunKeepsTimeline(same, start, [document], events);
    UndoRedoIdentity(Run(same, start, events), RunDocs(same, start, [document], events), k);
  }

  // ---------------------------------------------------------------- consecutive writes

  function WriteAll(same: Equality, h: History, writes: seq<Json>): History
    decreases |writes|
  {
    if writes == [] then h else Write(same, WriteAll(same, h, Init(writes)), Last(writes), true)
  }

  function DocumentBefore(h: History, writes: seq<Json>, i: nat): Json
    requires i <= |writes|
  {
    if i == 0 then h.document else writes[i - 1]
  }

  ghost predicate Distinguishable(same: Equality, h: History, writes: seq<Json>) {
    forall i :: 0 <= i < |writes| ==>
      Reversible(same, DocumentBefore(h, writes, i), writes[i]) && DocumentBefore(h, writes, i) != writes[i]
  }

  /** Read backwards from `at`, the line shows the documents of the writes. */
  ghost predicate Shows(line: seq<Json>, at: nat, h: History, writes: seq<Json>) {
    at < |line| &&
    forall i {:trigger DocumentBefore(h, writes, i)} ::
      0 <= i <= |writes| && |writes| - i <= at ==> line[at - (|writes| - i)] == DocumentBefore(h, writes, i)
  }

  lemma {:induction false} ShowsOneMore(line: seq<Json>, at: nat, h: History, writes: seq<Json>, dropped: nat)
    requires writes != [] && Shows(line, at, h, Init(writes)) && dropped <= at + 1
    ensures Shows((line[..at + 1] + [Last(writes)])[dropped..], at + 1 - dropped, h, writes)
  {
    var grown := line[..at + 1] + [Last(writes)];
    forall i | 0 <= i <= |writes| && |writes| - i <= at + 1 - dropped
      ensures grown[dropped..][at + 1 - dropped - (|writes| - i)] == DocumentBefore(h, writes, i)
    {
      if i < |writes| {
        assert DocumentBefore(h, Init(writes), i) == DocumentBefore(h, writes, i);
      }
    }
  }

  /** One write to a new document puts that document next on the line and drops what the depth does not keep. */
  lemma {:induction false} WriteExtendsLine(
    same: Equality, h: History, docs: seq<Json>, after: Json) returns (dropped: nat)
    requires Sound(same) && Timeline(h, docs) && h.group.None? && h.pauseDepth == 0 && h.disabledDepth == 0
    requires Reversible(same, h.document, after) && h.document != after
    ensures var next := Write(same, h, after, true);
            && dropped <= |h.undo| + 1 && |next.undo| == |h.undo| + 1 - dropped
            && (dropped > 0 ==> |next.undo| == MAX_STORAGE_HISTORY_ENTRIES)
            && Timeline(next, (docs[..|h.undo| + 1] + [after])[dropped..])
            && next.group.None? && next.pauseDepth == 0 && next.disabledDepth == 0 && next.document == after
  {
    DiffsLink(same, h.document, after);
    var entry := Entry(Diff(same, after, h.document, ""), Diff(same, h.document, after, ""));
    var written := h.(document := after);
    assert written.(document := h.document) == h;
    PushKeepsTimeline(written, docs, entry, h.document, after);
    assert Write(same, h, after, true) == Commit(same, written, h.document, after);
    dropped := |h.undo| + 1 - |LatestEntries(h.undo + [entry])|;
  }

  /** `end`, reached from `h` by `writes`, stands on a line of documents that shows them. */
  ghost predicate Reached(h: History, writes: seq<Json>, end: History, line: seq<Json>) {
    && Timeline(end, line)
    && end.group.None? && end.pauseDepth == 0 && end.disabledDepth == 0
    && end.document == DocumentBefore(h, writes, |writes|)
    && (|end.undo| >= MAX_STORAGE_HISTORY_ENTRIES || |end.undo| == |h.undo| + |writes|)
    && Shows(line, |end.undo|, h, writes)
  }

  lemma {:induction false} ReachedByOneMore(
    h: History, writes: seq<Json>, middle: History, earlier: seq<Json>, next: History, dropped: nat)
    requires writes != [] && |middle.undo| < |earlier| && Shows(earlier, |middle.undo|, h, Init(writes))
    requires |middle.undo| >= MAX_STORAGE_HISTORY_ENTRIES || |middle.undo| == |h.undo| + |Init(writes)|
    requires dropped <= |middle.undo| + 1 && |next.undo| == |middle.undo| + 1 - dropped
    requires dropped > 0 ==> |next.undo| == MAX_STORAGE_HISTORY_ENTRIES
    requires Timeline(next, (earlier[..|middle.undo| + 1] + [Last(writes)])[dropped..])
    requires next.group.None? && next.pauseDepth == 0 && next.disabledDepth == 0 && next.document == Last(writes)
    ensures Reached(h, writes, next, (earlier[..|middle.undo| + 1] + [Last(writes)])[dropped..])
  {
    ShowsOneMore(earlier, |middle.undo|, h, writes, dropped);
  }

  lemma {:induction false} WriteReaches(
    same: Equality, h: History, writes: seq<Json>, middle: History, earlier: seq<Json>)
    returns (line: seq<Json>)
    requires Sound(same) && writes != [] && Reached(h, Init(writes), middle, earlier)
    requires Distinguishable(same, h, writes)
    ensures Reached(h, writes, Write(same, middle, Last(writes), true), line)
  {
    DistinguishableInit(same, h, writes);
    var dropped := WriteExtendsLine(same, middle, earlier, Last(writes));
    line := (earlier[..|middle.undo| + 1] + [Last(writes)])[dropped..];
    ReachedByOneMore(h, writes, middle, earlier, Write(same, middle, Last(writes), true), dropped);
  }

  lemma {:induction false} WritesExtendLine(same: Equality, h: History, docs: seq<Json>, writes: seq<Json>)
      returns (line: seq<Json>)
    requires Sound(same) && Timeline(h, docs) && h.group.None? && h.pauseDepth == 0 && h.disabledDepth == 0
    requires Distinguishable(same, h, writes)
    ensures Reached(h, writes, WriteAll(same, h, writes), line)
    decreases |writes|
  {
    line := docs;
    if writes != [] {
      DistinguishableInit(same, h, writes);
      line := WritesExtendLine(same, h, docs, Init(writes));
      line := WriteReaches(same, h, writes, WriteAll(same, h, Init(writes)), line);
    }
  }

  lemma DistinguishableInit(same: Equality, h: History, writes: seq<Json>)
    requires writes != [] && Distinguishable(same, h, writes)
    ensures Distinguishable(same, h, Init(writes))
    ensures var middle := DocumentBefore(h, Init(writes), |writes| - 1);
            Reversible(same, middle, Last(writes)) && middle != Last(writes)
  {
    assert forall i :: 0 <= i < |writes| ==> DocumentBefore(h, Init(writes), i) == DocumentBefore(h, writes, i);
  }

  lemma UndoFromLine(h: History, writes: seq<Json>, end: History, line: seq<Json>, k: nat)
    requires Reached(h, writes, end, line) && k <= |writes| && k <= MAX_STORAGE_HISTORY_ENTRIES
    ensures Times(end, k, true).document == DocumentBefore(h, writes, |writes| - k)
  {
    UndoTimes(end, line, k);
    assert DocumentBefore(h, writes, |writes| - k) == line[|end.undo| - k];
  }

  /**
    n writes to distinct documents: k undos, for k up to n and to the depth kept, bring back the document that
    stood before the k-th last write.
   */
  lemma {:induction false} UndoWrites(same: Equality, h: History, docs: seq<Json>, writes: seq<Json>, k: nat)
    requires Sound(same) && Timeline(h, docs) && h.group.None? && h.pauseDepth == 0 && h.disabledDepth == 0
    requires Distinguishable(same, h, writes) && k <= |writes| && k <= MAX_STORAGE_HISTORY_ENTRIES
    ensures Times(WriteAll(same, h, writes), k, true).document == DocumentBefore(h, writes, |writes| - k)
  {
    var line := WritesExtendLine(same, h, docs, writes);
    var end := WriteAll(same, h, writes);
    UndoFromLine(h, writes, end, line, k);
  }

  // ---------------------------------------------------------------- pause spans

  lemma {:induction false} PausedWrites(same: Equality, h: History, writes: seq<Json>)
    requires Sound(same) && h.group.None? && h.pauseDepth > 0 && h.disabledDepth == 0 && writes != []
    ensures var end := WriteAll(same, h, writes);
            && end.undo == h.undo && end.redo == h.redo
            && end.pauseDepth == h.pauseDepth && end.disabledDepth == 0
            && end.document == Last(writes)
            && (if end.group.Some? then end.group.value == Group(h.document, end.document)
                else end.document == h.document)
    decreases |writes|
  {
    var init := Init(writes);
    if init == [] {
      assert WriteAll(same, h, init) == h;
    } else {
      PausedWrites(same, h, init);
    }
  }

  /** A pause span becomes one entry: undoing it returns to the document before the span, whatever was written in it. */
  lemma PauseSpanIsOneEntry(same: Equality, h: History, docs: seq<Json>, writes: seq<Json>)
    requires Sound(same) && Timeline(h, docs) && h.group.None? && h.pauseDepth == 0 && h.disabledDepth == 0
    requires writes != [] && Last(writes) != h.document && Reversible(same, h.document, Last(writes))
    ensures var end := Resume(same, WriteAll(same, Pause(h), writes));
            && end.document == Last(writes) && end.redo == [] && end.group.None?
            && Undo(end).document == h.document
            && (|h.undo| < MAX_STORAGE_HISTORY_ENTRIES ==> Undo(end).undo == h.undo)
            && Redo(Undo(end)) == end
  {
    PausedWrites(same, Pause(h), writes);
    var span := WriteAll(same, Pause(h), writes);
    var resumed := span.(pauseDepth := 0, group := None);
    SameEntries(h, resumed.(document := h.document), docs);
    CommitKeepsTimeline(same, resumed, docs, h.document, Last(writes));
    DiffsLink(same, h.document, Last(writes));
    var end := Resume(same, span);
    UndoMovesBack(end, Committed(same, resumed, docs, h.document, Last(writes)));
  }

  /** One write and one undo: the document comes back exactly when the way back has no change below an empty key. */
  lemma UndoOneWriteIff(h: History, after: Json)
    requires h.group.None? && h.pauseDepth == 0 && h.disabledDepth == 0 && h.document != after
    ensures Undo(Write(TreeEqual, h, after, true)).document == h.document <==> Addressable(TreeEqual, after, h.document)
  {
    var before := h.document;
    JsonDiffLimits.DiffReachesTargetIff(after, before);
    JsonDiffLimits.DiffReachesTargetIff(before, after);
    var written := Write(TreeEqual, h, after, true);
    DiffNotEmpty(before, after);
    DiffNotEmpty(after, before);
    assert Last(h.undo + [Entry(Diff(TreeEqual, after, before, ""), Diff(TreeEqual, before, after, ""))])
        == Last(written.undo);
  }

  lemma DiffNotEmpty(before: Json, after: Json)
    requires before != after
    ensures Diff(TreeEqual, before, after, "") != []
    decreases before
  {
    if before.Obj? && after.Obj? {
      JsonDiffLimits.RecordsDiffer(before, after, "");
    }
  }
}
