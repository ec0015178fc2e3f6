/** Undo and redo on another document than the entry was made for: inside pause spans, and after others' edits. */
module StorageSpans {
  import opened Wrappers
  import opened JsonPointer
  import opened Json
  import opened JsonPatch
  import opened JsonDiff
  import opened JsonDiffProofs
  import opened JsonDiffTransfer
  import opened StorageHistory
  import SortedKeys

  predicate Made(same: Equality, entry: Entry, before: Json, after: Json) {
    entry == Entry(Diff(same, after, before, ""), Diff(same, before, after, ""))
  }

  /** The last entry was made of the change from `before` to `after`. */
  predicate MadeOf(same: Equality, stack: seq<Entry>, before: Json, after: Json) {
    stack != [] && Made(same, Last(stack), before, after)
  }

  /** The undo goes through and shows `document`; a patch that fails leaves entry and document where they are. */
  predicate UndoShows(h: History, document: Json) {
    h.undo != [] && Undo(h).undo == Init(h.undo) && Undo(h).document == document
  }

  predicate RedoShows(h: History, document: Json) {
    h.redo != [] && Redo(h).redo == Init(h.redo) && Redo(h).document == document
  }

  /** Whatever document an undo finds, it ends at the one before the entry if and only if the entry carries it there. */
  lemma UndoShowsIff(same: Equality, h: History, before: Json, after: Json)
    requires MadeOf(same, h.undo, before, after) && Addressable(same, after, before)
    ensures UndoShows(h, before) <==> Carries(same, h.document, after, before)
  {
    DiffCarriesIff(same, h.document, after, before);
    assert |Init(h.undo)| < |h.undo|;
  }

  lemma RedoShowsIff(same: Equality, h: History, before: Json, after: Json)
    requires MadeOf(same, h.redo, before, after) && Addressable(same, before, after)
    ensures RedoShows(h, after) <==> Carries(same, h.document, before, after)
  {
    DiffCarriesIff(same, h.document, before, after);
    assert |Init(h.redo)| < |h.redo|;
  }

  // ---------------------------------------------------------------- every run at all

  lemma {:induction false} RunSnoc(same: Equality, h: History, events: seq<Event>, e: Event)
    ensures Run(same, h, events + [e]) == Step(same, Run(same, h, events), e)
    decreases |events|
  {
    if events == [] {
      assert events + [e] == [e] && [e][1..] == [];
    } else {
      assert (events + [e])[1..] == events[1..] + [e] && (events + [e])[0] == events[0];
      RunSnoc(same, Step(same, h, events[0]), events[1..], e);
    }
  }

  /** The state a run is in when its i-th event comes. */
  function At(same: Equality, start: History, events: seq<Event>, i: nat): History
    requires i <= |events|
  {
    Run(same, start, events[..i])
  }

  lemma AtNext(same: Equality, start: History, events: seq<Event>, i: nat)
    requires i < |events|
    ensures At(same, start, events, i + 1) == Step(same, At(same, start, events, i), events[i])
  {
    TakeSnoc(events, i);
    RunSnoc(same, start, events[..i], events[i]);
  }

  /** Event i of the run records the change: a write outside spans, or the end of a span that gathered it. */
  ghost predicate Records(
    same: Equality, start: History, events: seq<Event>, i: nat, before: Json, after: Json)
  {
    i < |events| &&
    var h := At(same, start, events, i);
    || (events[i] == Wrote(after) && h.document == before && h.pauseDepth == 0 && h.disabledDepth == 0)
    || (events[i].Resumed? && h.pauseDepth == 1 && h.group == Some(Group(before, after)))
  }

  /** The entry was made of a change that one of the first n events recorded. */
  ghost predicate IsRecorded(same: Equality, start: History, events: seq<Event>, n: nat, entry: Entry) {
    exists i: nat, before, after ::
      i < n && Records(same, start, events, i, before, after) && Made(same, entry, before, after)
  }

  ghost predicate AllRecorded(same: Equality, start: History, events: seq<Event>, n: nat, stack: seq<Entry>) {
    forall entry :: entry in stack ==> IsRecorded(same, start, events, n, entry)
  }

  /** A step puts on the stacks what was on them, and at most the entry of the change it records. */
  lemma StepPushes(same: Equality, h: History, e: Event) returns (entry: Entry, before: Json, after: Json)
    ensures Made(same, entry, before, after)
    ensures forall x :: x in Step(same, h, e).undo || x in Step(same, h, e).redo ==>
              x in h.undo || x in h.redo ||
              (x == entry &&
               (|| (e == Wrote(after) && h.document == before && h.pauseDepth == 0 && h.disabledDepth == 0)
                || (e.Resumed? && h.pauseDepth == 1 && h.group == Some(Group(before, after)))))
  {
    match e {
      case Wrote(document) => before, after := h.document, document;
      case _ =>
        if h.group.Some? {
          before, after := h.group.value.before, h.group.value.after;
        } else {
          before, after := h.document, h.document;
        }
    }
    entry := Entry(Diff(same, after, before, ""), Diff(same, before, after, ""));
    assert forall x :: x in LatestEntries(h.undo + [entry]) ==> x in h.undo || x == entry;
  }

  /** Every entry on either stack of any run was recorded by one of its events. */
  lemma {:induction false} EntriesAreRecorded(same: Equality, start: History, events: seq<Event>, n: nat)
    requires start.undo == [] && start.redo == [] && n <= |events|
    ensures AllRecorded(same, start, events, n, At(same, start, events, n).undo)
    ensures AllRecorded(same, start, events, n, At(same, start, events, n).redo)
  {
    if n == 0 {
      assert At(same, start, events, 0) == start;
    } else {
      EntriesAreRecorded(same, start, events, n - 1);
      AtNext(same, start, events, n - 1);
      var h := At(same, start, events, n - 1);
      var entry, before, after := StepPushes(same, h, events[n - 1]);
      forall x | x in Step(same, h, events[n - 1]).undo || x in Step(same, h, events[n - 1]).redo
        ensures IsRecorded(same, start, events, n, x)
      {
        if x in h.undo || x in h.redo {
          assert IsRecorded(same, start, events, n - 1, x);
        } else {
          assert Records(same, start, events, n - 1, before, after) && Made(same, x, before, after);
        }
      }
    }
  }

  /** A span under way gathers from the document its first recorded write found to the document last recorded. */
  lemma {:induction false} GroupIsGathered(same: Equality, start: History, events: seq<Event>, n: nat)
      returns (first: nat, last: nat)
    requires start.group.None? && n <= |events| && At(same, start, events, n).group.Some?
    ensures first <= last < n && events[first].Wrote? && events[last].Wrote?
    ensures At(same, start, events, first).group.None?
    ensures At(same, start, events, n).group == Some(Group(At(same, start, events, first).document, events[last].after))
  {
    assert At(same, start, events, 0) == start;
    first, last := 0, 0;
    if n > 0 {
      AtNext(same, start, events, n - 1);
      var h := At(same, start, events, n - 1);
      if h.group.Some? {
        first, last := GroupIsGathered(same, start, events, n - 1);
        if At(same, start, events, n).group != h.group {
          last := n - 1;
        }
      } else {
        first, last := n - 1, n - 1;
      }
    }
  }

  /**
    Every run of the writer's calls and other writers' documents, in any order whatever: the next undo goes back over
    one change the run recorded, and shows the document before that change if and only if the change's own diff carries
    the document there.
   */
  lemma NextUndoOfAnyRun(same: Equality, start: History, events: seq<Event>)
      returns (i: nat, before: Json, after: Json)
    requires start.undo == [] && start.redo == [] && Run(same, start, events).undo != []
    ensures var h := Run(same, start, events);
            && Records(same, start, events, i, before, after) && MadeOf(same, h.undo, before, after)
            && (Addressable(same, after, before) ==>
                  (UndoShows(h, before) <==> Carries(same, h.document, after, before)))
  {
    var h := Run(same, start, events);
    EntriesAreRecorded(same, start, events, |events|);
    assert events[..|events|] == events && Last(h.undo) in h.undo;
    assert IsRecorded(same, start, events, |events|, Last(h.undo));
    i, before, after :|
      i < |events| && Records(same, start, events, i, before, after) && Made(same, Last(h.undo), before, after);
    if Addressable(same, after, before) {
      UndoShowsIff(same, h, before, after);
    }
  }

  lemma NextRedoOfAnyRun(same: Equality, start: History, events: seq<Event>)
      returns (i: nat, before: Json, after: Json)
    requires start.undo == [] && start.redo == [] && Run(same, start, events).redo != []
    ensures var h := Run(same, start, events);
            && Records(same, start, events, i, before, after) && MadeOf(same, h.redo, before, after)
            && (Addressable(same, before, after) ==>
                  (RedoShows(h, after) <==> Carries(same, h.document, before, after)))
  {
    var h := Run(same, start, events);
    EntriesAreRecorded(same, start, events, |events|);
    assert events[..|events|] == events && Last(h.redo) in h.redo;
    assert IsRecorded(same, start, events, |events|, Last(h.redo));
    i, before, after :|
      i < |events| && Records(same, start, events, i, before, after) && Made(same, Last(h.redo), before, after);
    if Addressable(same, before, after) {
      RedoShowsIff(same, h, before, after);
    }
  }

  // ---------------------------------------------------------------- undo and redo inside a pause span

  /** What may happen inside a span: all but pausing, resuming and clearing. */
  predicate InSpan(e: Event) {
    !e.Paused? && !e.Resumed? && !e.Cleared?
  }

  lemma {:induction false} SpanKeepsDepth(same: Equality, h: History, events: seq<Event>)
    requires forall e :: e in events ==> InSpan(e)
    ensures Run(same, h, events).pauseDepth == h.pauseDepth
    decreases |events|
  {
    if events != [] {
      assert InSpan(events[0]);
      SpanKeepsDepth(same, Step(same, h, events[0]), events[1..]);
    }
  }

  /** The entry a span's group is committed as, and what its undo does to the document the span ends with. */
  lemma GroupReturnsIff(same: Equality, s: History, before: Json, written: Json)
    requires s.group == Some(Group(before, written)) && s.pauseDepth == 1 && Addressable(same, written, before)
    requires Diff(same, before, written, "") != [] && Diff(same, written, before, "") != []
    ensures MadeOf(same, Resume(same, s).undo, before, written)
    ensures UndoShows(Resume(same, s), before) <==> Carries(same, s.document, written, before)
  {
    var entry := Entry(Diff(same, written, before, ""), Diff(same, before, written, ""));
    var end := Resume(same, s);
    assert end.undo == LatestEntries(s.undo + [entry]) && Last(end.undo) == entry && end.document == s.document;
    UndoShowsIff(same, end, before, written);
  }

  /**
    A pause span with anything in it: if it recorded a write, its one entry goes back to the document its first recorded
    write found, if and only if the diff from the last document recorded carries the document the span ends with.
   */
  lemma SpanReturnsIff(same: Equality, h: History, events: seq<Event>) returns (first: nat, last: nat)
    requires h.group.None? && h.pauseDepth == 0 && forall e :: e in events ==> InSpan(e)
    requires Run(same, Pause(h), events).group.Some?
    ensures first <= last < |events| && events[first].Wrote? && events[last].Wrote?
    ensures var s := Run(same, Pause(h), events);
            var before, written := At(same, Pause(h), events, first).document, events[last].after;
            && s.group == Some(Group(before, written))
            && (Addressable(same, written, before)
                && Diff(same, before, written, "") != [] && Diff(same, written, before, "") != [] ==>
                  && MadeOf(same, Resume(same, s).undo, before, written)
                  && (UndoShows(Resume(same, s), before) <==> Carries(same, s.document, written, before)))
  {
    assert events[..|events|] == events;
    first, last := GroupIsGathered(same, Pause(h), events, |events|);
    SpanKeepsDepth(same, Pause(h), events);
    var s := Run(same, Pause(h), events);
    var before, written := s.group.value.before, s.group.value.after;
    if Addressable(same, written, before)
       && Diff(same, before, written, "") != [] && Diff(same, written, before, "") != [] {
      GroupReturnsIff(same, s, before, written);
    }
  }

  /** A span that opens with a write goes back to the document before the span, under the same condition. */
  lemma {:induction false} SpanOpenedByWrite(same: Equality, h: History, first: Json, events: seq<Event>)
    requires h.group.None? && h.pauseDepth == 0 && h.disabledDepth == 0 && !same(h.document, first)
    requires forall e :: e in events ==> InSpan(e)
    ensures var s := Run(same, Step(same, Pause(h), Wrote(first)), events);
            && s.group.Some? && s.group.value.before == h.document && s.pauseDepth == 1
            && var written := s.group.value.after;
            (Addressable(same, written, h.document)
             && Diff(same, h.document, written, "") != [] && Diff(same, written, h.document, "") != [] ==>
               && MadeOf(same, Resume(same, s).undo, h.document, written)
               && (UndoShows(Resume(same, s), h.document) <==> Carries(same, s.document, written, h.document)))
  {
    var begun := Step(same, Pause(h), Wrote(first));
    SpanKeepsGroup(same, begun, events);
    SpanKeepsDepth(same, begun, events);
    var s := Run(same, begun, events);
    var before, written := h.document, s.group.value.after;
    if Addressable(same, written, before)
       && Diff(same, before, written, "") != [] && Diff(same, written, before, "") != [] {
      GroupReturnsIff(same, s, before, written);
    }
  }

  /** What happens inside a span moves the document and leaves alone where the span's group began. */
  lemma {:induction false} SpanKeepsGroup(same: Equality, h: History, events: seq<Event>)
    requires h.group.Some? && h.pauseDepth > 0 && forall e :: e in events ==> InSpan(e)
    ensures Run(same, h, events).group.Some? && Run(same, h, events).group.value.before == h.group.value.before
    decreases |events|
  {
    if events != [] {
      var next := Step(same, h, events[0]);
      assert events[0] in events && InSpan(events[0]);
      assert next.group.Some? && next.group.value.before == h.group.value.before;
      SpanKeepsGroup(same, next, events[1..]);
    }
  }

  /** Documents that are no records come back, whatever happened in the span. */
  lemma WholeDocumentsReturn(same: Equality, h: History, first: Json, events: seq<Event>)
    requires h.group.None? && h.pauseDepth == 0 && h.disabledDepth == 0 && !same(h.document, first)
    requires forall e :: e in events ==> InSpan(e)
    requires !h.document.Obj?
    ensures var s := Run(same, Step(same, Pause(h), Wrote(first)), events);
            && s.group.Some?
            && (!same(h.document, s.group.value.after) && !same(s.group.value.after, h.document) ==>
                  UndoShows(Resume(same, s), h.document))
  {
    SpanOpenedByWrite(same, h, first, events);
  }

  // ---------------------------------------------------------------- spans that do not return

  function EntryOf(before: Json, after: Json): Entry {
    Entry(Diff(TreeEqual, after, before, ""), Diff(TreeEqual, before, after, ""))
  }

  lemma FirstWrite(start: Json, first: Json)
    requires start != first
    ensures Step(TreeEqual, History(start, [], [], None, 0, 0), Wrote(first))
         == History(first, [EntryOf(start, first)], [], None, 0, 0)
  {
    DiffNotEmpty(start, first);
    DiffNotEmpty(first, start);
    assert [] + [EntryOf(start, first)] == [EntryOf(start, first)];
  }

  lemma {:induction false} FirstUndone(start: Json, first: Json)
    requires Addressable(TreeEqual, first, start)
    ensures Undo(History(first, [EntryOf(start, first)], [], None, 0, 0))
         == History(start, [], [EntryOf(start, first)], None, 0, 0)
  {
    DiffReachesTarget(TreeEqual, first, start);
    assert Init([EntryOf(start, first)]) == [];
  }

  lemma {:induction false} SpanBegins(h: History, second: Json)
    requires h.group.None? && h.pauseDepth == 0 && h.disabledDepth == 0 && h.document != second
    ensures Step(TreeEqual, Pause(h), Wrote(second))
         == h.(document := second, group := Some(Group(h.document, second)), pauseDepth := 1)
  {
  }

  lemma {:induction false} RunOne(h: History, e: Event)
    ensures Run(TreeEqual, h, [e]) == Step(TreeEqual, h, e)
  {
    assert [e][1..] == [];
    assert Run(TreeEqual, Step(TreeEqual, h, e), []) == Step(TreeEqual, h, e);
  }

  /** An undo that does not show the document leaves another one on show, if another one was there. */
  lemma {:induction false} UndoneElsewhere(h: History, document: Json)
    requires h.document != document && h.undo != [] && !UndoShows(h, document)
    ensures Undo(h).document != document
  {
  }

  /** A span that writes another document and undoes the change before it. */
  lemma {:induction false} UndoInSpan(h: History, second: Json, left: Json)
    requires h.group.None? && h.pauseDepth == 0 && h.disabledDepth == 0 && h.undo != []
    requires h.document != second && left != h.document
    requires Addressable(TreeEqual, second, h.document) && !Carries(TreeEqual, left, second, h.document)
    requires Apply(second, Last(h.undo).undoOperations) == Ok(left)
    ensures var s := Run(TreeEqual, Step(TreeEqual, Pause(h), Wrote(second)), [Undid]);
            s.document == left && Undo(Resume(TreeEqual, s)).document != h.document
  {
    SpanBegins(h, second);
    var begun := h.(document := second, group := Some(Group(h.document, second)), pauseDepth := 1);
    RunOne(begun, Undid);
    var s := Undo(begun);
    DiffNotEmpty(h.document, second);
    DiffNotEmpty(second, h.document);
    GroupReturnsIff(TreeEqual, s, h.document, second);
    UndoneElsewhere(Resume(TreeEqual, s), h.document);
  }

  /** The same with a redo. */
  lemma {:induction false} RedoInSpan(h: History, second: Json, left: Json)
    requires h.group.None? && h.pauseDepth == 0 && h.disabledDepth == 0 && h.redo != []
    requires h.document != second && left != h.document
    requires Addressable(TreeEqual, second, h.document) && !Carries(TreeEqual, left, second, h.document)
    requires Apply(second, Last(h.redo).redoOperations) == Ok(left)
    ensures var s := Run(TreeEqual, Step(TreeEqual, Pause(h), Wrote(second)), [Redid]);
            s.document == left && Undo(Resume(TreeEqual, s)).document != h.document
  {
    SpanBegins(h, second);
    var begun := h.(document := second, group := Some(Group(h.document, second)), pauseDepth := 1);
    RunOne(begun, Redid);
    var s := Redo(begun);
    DiffNotEmpty(h.document, second);
    DiffNotEmpty(second, h.document);
    GroupReturnsIff(TreeEqual, s, h.document, second);
    UndoneElsewhere(Resume(TreeEqual, s), h.document);
  }

  /** One write, then a span that undoes it. */
  lemma {:induction false} UndoRun(start: Json, first: Json, second: Json, left: Json)
    requires start != first && first != second && left != first
    requires Addressable(TreeEqual, second, first) && !Carries(TreeEqual, left, second, first)
    requires Apply(second, Diff(TreeEqual, first, start, "")) == Ok(left)
    ensures var wrote := Step(TreeEqual, History(start, [], [], None, 0, 0), Wrote(first));
            var s := Run(TreeEqual, Step(TreeEqual, Pause(wrote), Wrote(second)), [Undid]);
            wrote.document == first && s.document == left && Undo(Resume(TreeEqual, s)).document != first
  {
    FirstWrite(start, first);
    UndoInSpan(History(first, [EntryOf(start, first)], [], None, 0, 0), second, left);
  }

  /** One write, undone, then a span that redoes it. */
  lemma {:induction false} RedoRun(start: Json, first: Json, second: Json, left: Json)
    requires start != first && start != second && left != start && Addressable(TreeEqual, first, start)
    requires Addressable(TreeEqual, second, start) && !Carries(TreeEqual, left, second, start)
    requires Apply(second, Diff(TreeEqual, start, first, "")) == Ok(left)
    ensures var wrote := Step(TreeEqual, History(start, [], [], None, 0, 0), Wrote(first));
            var undone := Step(TreeEqual, wrote, Undid);
            var s := Run(TreeEqual, Step(TreeEqual, Pause(undone), Wrote(second)), [Redid]);
            undone.document == start && s.document == left && Undo(Resume(TreeEqual, s)).document != start
  {
    FirstWrite(start, first);
    FirstUndone(start, first);
    RedoInSpan(History(start, [], [EntryOf(start, first)], None, 0, 0), second, left);
  }

  lemma SortedOne(key: string)
    ensures SortedKeys.Sorted({key}) == [key] && SortedKeys.Sorted({}) == []
  {
    assert SortedKeys.Least({key}) == key;
    assert {key} - {key} == {};
  }

  /** The diff that removes one member removes it from every record that has it. */
  lemma {:induction false} OneRemoved(fields: map<string, Json>, key: string, value: Json)
    requires key in fields
    ensures IsBase("")
    ensures Apply(Obj(fields), Diff(TreeEqual, Obj(map[key := value]), Obj(map[]), "")) == Ok(Obj(fields - {key}))
  {
    var doc, one, none := Obj(fields), Obj(map[key := value]), Obj(map[]);
    SortedOne(key);
    assert PointerOf([]) == "" && one.fields.Keys == {key} && none.fields.Keys == {} && key !in none.fields;
    assert GetAt(doc, []) == Ok(doc);
    RemovalsApply(doc, [], [key], none.fields);
    assert Without(fields, [key], none.fields) == fields - {key};
    assert Changes(TreeEqual, "", [], one, none) == [];
    var removals := Removals("", [key], none.fields);
    assert Diff(TreeEqual, one, none, "") == removals + [] == removals;
  }

  /** The diff that adds one member adds it to every record. */
  lemma {:induction false} OneAdded(fields: map<string, Json>, key: string, value: Json)
    ensures IsBase("")
    ensures Apply(Obj(fields), Diff(TreeEqual, Obj(map[]), Obj(map[key := value]), "")) == Ok(Obj(fields[key := value]))
  {
    var doc, one, none := Obj(fields), Obj(map[key := value]), Obj(map[]);
    SortedOne(key);
    assert PointerOf([]) == "" && one.fields.Keys == {key} && none.fields.Keys == {} && key !in none.fields;
    assert GetAt(doc, []) == Ok(doc) && key in one.fields;
    ChangesApply(TreeEqual, doc, [], [key], none, one);
    assert Overlay(fields, [key], one.fields) == fields[key := value];
    assert Removals("", [], one.fields) == [];
    var changes := Changes(TreeEqual, "", [key], none, one);
    assert Diff(TreeEqual, none, one, "") == [] + changes == changes;
  }

  const BARE: Json := Obj(map[])
  const ONLY_A: Json := Obj(map["a" := Num(1)])
  const ONLY_B: Json := Obj(map["b" := Num(1)])
  const BOTH: Json := Obj(map["a" := Num(1), "b" := Num(1)])

  lemma Different()
    ensures "a" != "b" && ONLY_A != BARE && ONLY_B != BARE && ONLY_A != BOTH && ONLY_B != ONLY_A && BOTH != BARE
    ensures BOTH.fields - {"a"} == ONLY_B.fields && ONLY_B.fields["a" := Num(1)] == BOTH.fields
  {
    assert "a"[0] != "b"[0];
    assert "a" in ONLY_A.fields && "b" in BOTH.fields && "b" !in ONLY_A.fields && "b" in ONLY_B.fields;
  }

  /** Write a, pause, write b, undo a, resume, undo: the span's undo does not bring a back. */
  lemma {:induction false} UndoInsideSpanLosesA()
    ensures var wrote := Step(TreeEqual, History(BARE, [], [], None, 0, 0), Wrote(ONLY_A));
            var s := Run(TreeEqual, Step(TreeEqual, Pause(wrote), Wrote(BOTH)), [Undid]);
            && wrote.document == ONLY_A && s.document == ONLY_B
            && Undo(Resume(TreeEqual, s)).document != ONLY_A
  {
    Different();
    OneRemoved(BOTH.fields, "a", Num(1));
    assert "a" in BOTH.fields && "a" !in ONLY_B.fields;
    assert !Carries(TreeEqual, ONLY_B, BOTH, ONLY_A);
    UndoRun(BARE, ONLY_A, BOTH, ONLY_B);
  }

  /** Write a, undo it, pause, write b, redo a, resume, undo: a stays. */
  lemma {:induction false} RedoInsideSpanLeavesA()
    ensures var wrote := Step(TreeEqual, History(BARE, [], [], None, 0, 0), Wrote(ONLY_A));
            var undone := Step(TreeEqual, wrote, Undid);
            var s := Run(TreeEqual, Step(TreeEqual, Pause(undone), Wrote(ONLY_B)), [Redid]);
            && undone.document == BARE && s.document == BOTH
            && Undo(Resume(TreeEqual, s)).document != BARE
  {
    Different();
    OneAdded(ONLY_B.fields, "a", Num(1));
    assert "a" in BOTH.fields && "a" !in ONLY_B.fields && "a" !in BARE.fields;
    assert !Carries(TreeEqual, BOTH, ONLY_B, BARE);
    RedoRun(BARE, ONLY_A, ONLY_B, BOTH);
  }
}
