/** Which writes of a run are recorded: those outside spans, while no disabling of history is open. */
module StorageRecording {
  import opened Wrappers
  import opened JsonPointer
  import opened Json
  import opened JsonPatch
  import opened JsonDiff
  import opened JsonDiffProofs
  import opened StorageHistory
  import opened StorageSpans

  /** How many disablings of history are not finished; finishing one when none is open changes nothing. */
  function OpenDisables(events: seq<Event>): nat
    decreases |events|
  {
    if events == [] then 0
    else
      var earlier := OpenDisables(Init(events));
      if Last(events).DisabledHistory? then earlier + 1
      else if Last(events).EnabledHistory? && earlier > 0 then earlier - 1
      else earlier
  }

  /** How many pauses are not resumed; resuming when none is open changes nothing. */
  function OpenPauses(events: seq<Event>): nat
    decreases |events|
  {
    if events == [] then 0
    else
      var earlier := OpenPauses(Init(events));
      if Last(events).Paused? then earlier + 1
      else if Last(events).Resumed? && earlier > 0 then earlier - 1
      else earlier
  }

  /** The depths a room keeps are these counts, over every run. */
  lemma {:induction false} DepthsAreCounts(same: Equality, start: History, events: seq<Event>)
    requires start.pauseDepth == 0 && start.disabledDepth == 0
    ensures Run(same, start, events).disabledDepth == OpenDisables(events)
    ensures Run(same, start, events).pauseDepth == OpenPauses(events)
    decreases |events|
  {
    if events != [] {
      assert events == Init(events) + [Last(events)];
      RunSnoc(same, start, Init(events), Last(events));
      DepthsAreCounts(same, start, Init(events));
    }
  }

  /** Only a span under way holds a group. */
  lemma {:induction false} GroupOnlyInSpan(same: Equality, start: History, events: seq<Event>)
    requires start.pauseDepth == 0 && start.group.None?
    ensures Run(same, start, events).group.Some? ==> Run(same, start, events).pauseDepth > 0
    decreases |events|
  {
    if events != [] {
      assert events == Init(events) + [Last(events)];
      RunSnoc(same, start, Init(events), Last(events));
      GroupOnlyInSpan(same, start, Init(events));
    }
  }

  /**
    The converse of every entry's being recorded: a write outside spans, with no disabling open, that changes the
    document is the next undo entry, and its undo goes back to the document before it when the diff carries it there.
   */
  lemma {:induction false} WriteIsRecorded(same: Equality, start: History, events: seq<Event>, after: Json)
    requires start.pauseDepth == 0 && start.disabledDepth == 0
    requires OpenDisables(events) == 0 && OpenPauses(events) == 0
    requires var before := Run(same, start, events).document;
             && !same(before, after) && Diff(same, before, after, "") != [] && Diff(same, after, before, "") != []
    ensures var h, next := Run(same, start, events), Run(same, start, events + [Wrote(after)]);
            && next.document == after && next.redo == []
            && MadeOf(same, next.undo, h.document, after)
            && |next.undo| == (if |h.undo| < 100 then |h.undo| + 1 else 100)
            && (|h.undo| < 100 ==> Init(next.undo) == h.undo)
            && (Addressable(same, after, h.document) && Carries(same, after, after, h.document) ==>
                  UndoShows(next, h.document))
  {
    DepthsAreCounts(same, start, events);
    RunSnoc(same, start, events, Wrote(after));
    var h := Run(same, start, events);
    AtMostKept(same, h, after);
    var next := Write(same, h, after, true);
    if Addressable(same, after, h.document) {
      UndoShowsIff(same, next, h.document, after);
    }
  }

  lemma {:induction false} AtMostKept(same: Equality, h: History, after: Json)
    requires h.pauseDepth == 0 && h.disabledDepth == 0 && !same(h.document, after)
    requires Diff(same, h.document, after, "") != [] && Diff(same, after, h.document, "") != []
    ensures var next := Write(same, h, after, true);
            && next.document == after && next.redo == []
            && MadeOf(same, next.undo, h.document, after)
            && |next.undo| == (if |h.undo| < 100 then |h.undo| + 1 else 100)
            && (|h.undo| < 100 ==> Init(next.undo) == h.undo)
  {
    var entry := Entry(Diff(same, after, h.document, ""), Diff(same, h.document, after, ""));
    assert Last(h.undo + [entry]) == entry && Init(h.undo + [entry]) == h.undo;
  }

  /** While a disabling is open, or by the writer's wish, a write moves the document and records nothing. */
  lemma {:induction false} WriteIsNotRecorded(same: Equality, start: History, events: seq<Event>, e: Event)
    requires start.pauseDepth == 0 && start.disabledDepth == 0
    requires (e.Wrote? && OpenDisables(events) > 0) || e.WroteUnrecorded? || e.Received?
    ensures var h, next := Run(same, start, events), Run(same, start, events + [e]);
            && next.undo == h.undo && next.redo == h.redo && next.group == h.group
            && next.document == (if e.Received? then e.document else e.after)
  {
    DepthsAreCounts(same, start, events);
    RunSnoc(same, start, events, e);
  }

  /** Inside a span a recorded write is gathered, not pushed. */
  lemma {:induction false} WriteIsGathered(same: Equality, start: History, events: seq<Event>, after: Json)
    requires start.pauseDepth == 0 && start.disabledDepth == 0
    requires OpenDisables(events) == 0 && OpenPauses(events) > 0 && !same(Run(same, start, events).document, after)
    ensures var h, next := Run(same, start, events), Run(same, start, events + [Wrote(after)]);
            && next.undo == h.undo && next.redo == h.redo && next.document == after
            && next.group == Some(Group(if h.group.Some? then h.group.value.before else h.document, after))
  {
    DepthsAreCounts(same, start, events);
    RunSnoc(same, start, events, Wrote(after));
  }

  /** The resume that closes a span pushes the gathered change if it has a diff both ways, and drops what was undone. */
  lemma {:induction false} GroupIsRecorded(same: Equality, start: History, events: seq<Event>)
    requires start.pauseDepth == 0 && start.disabledDepth == 0 && OpenPauses(events) == 1
    ensures var h, next := Run(same, start, events), Run(same, start, events + [Resumed]);
            && next.group.None? && next.document == h.document
            && (h.group.None? ==> next.undo == h.undo && next.redo == h.redo)
            && (h.group.Some? ==>
                  var before, after := h.group.value.before, h.group.value.after;
                  Diff(same, before, after, "") != [] && Diff(same, after, before, "") != [] ==>
                    MadeOf(same, next.undo, before, after) && next.redo == [])
  {
    DepthsAreCounts(same, start, events);
    RunSnoc(same, start, events, Resumed);
    var h := Run(same, start, events);
    if h.group.Some? {
      var entry := Entry(Diff(same, h.group.value.after, h.group.value.before, ""),
                         Diff(same, h.group.value.before, h.group.value.after, ""));
      assert Last(h.undo + [entry]) == entry;
    }
  }

  /** Clearing forgets both stacks and the span's group, so that an undo or a redo after it changes nothing. */
  lemma {:induction false} ClearForgets(same: Equality, start: History, events: seq<Event>)
    ensures var h, next := Run(same, start, events), Run(same, start, events + [Cleared]);
            && next == History(h.document, [], [], None, h.pauseDepth, h.disabledDepth)
            && Undo(next) == next && Redo(next) == next
  {
    RunSnoc(same, start, events, Cleared);
  }

  /** An undo or redo loses no entry: it moves one across, or leaves the room as it was. */
  lemma {:induction false} UndoMovesOrStays(h: History)
    ensures Entries(Undo(h)) == Entries(h)
    ensures Undo(h) == h || (h.undo != [] && Undo(h).undo == Init(h.undo)
                             && Ok(Undo(h).document) == Apply(h.document, Last(h.undo).undoOperations))
    ensures h.undo != [] && Apply(h.document, Last(h.undo).undoOperations).Ok? ==> Undo(h).undo == Init(h.undo)
  {
    if h.undo != [] {
      EntriesShift(Init(h.undo), Last(h.undo), h.redo);
      assert h.undo == Init(h.undo) + [Last(h.undo)];
    }
  }

  lemma {:induction false} RedoMovesOrStays(h: History)
    ensures Entries(Redo(h)) == Entries(h)
    ensures Redo(h) == h || (h.redo != [] && Redo(h).redo == Init(h.redo)
                             && Ok(Redo(h).document) == Apply(h.document, Last(h.redo).redoOperations))
    ensures h.redo != [] && Apply(h.document, Last(h.redo).redoOperations).Ok? ==> Redo(h).redo == Init(h.redo)
  {
    if h.redo != [] {
      EntriesShift(h.undo, Last(h.redo), Init(h.redo));
      assert h.redo == Init(h.redo) + [Last(h.redo)];
    }
  }
}
