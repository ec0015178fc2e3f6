/** What one event does to one room: which documents are taken, what the status says then, and what stays untouched. */
module StorageRooms {
  import opened Wrappers
  import opened Json
  import opened JsonPatch
  import opened StorageReplica
  import opened StorageSettlement
  import opened StorageFold

  // ---------------------------------------------------------------- rooms do not touch each other

  /** All that the client keeps for one room. */
  datatype View =
    View(shown: Option<Doc>, status: Status, sequence: Option<nat>, base: Option<Doc>, pending: seq<Mutation>)

  function ViewOf(s: State, room: Room): View {
    View(if room in s.docs then Some(s.docs[room]) else None,
         StatusOf(s, room),
         if room in s.sequences then Some(s.sequences[room]) else None,
         if room in s.base then Some(s.base[room]) else None,
         PendingOf(s.pending, room))
  }

  /** The rooms an event is for: the one it names and the one whose mutation it answers. */
  predicate Concerns(s: State, e: Event, room: Room) {
    match e
    case Issue(named, _, _) => room == named
    case Snapshot(named, _, _) => room == named
    case Ack(request, named, _, _, _) => room == named || Answers(s, request, room)
    case Update(named, _, _, _) => room == named
    case Conflict(request, target, _, _) => target == Some(room) || Answers(s, request, room)
    case Refusal(request) => Answers(s, request, room)
    case LoadRequested(named) => room == named
    case LoadFailed(named) => room == named
    case SocketClosed(reset) => reset || PendingOf(s.pending, room) != []
    case Leave(named) => room == named
  }

  predicate Answers(s: State, request: Option<nat>, room: Room) {
    Requested(s, request).Some? && Requested(s, request).value.room == room
  }

  lemma ReapplyLeaves(s: State, named: Room, doc: Doc, room: Room)
    requires NoRepeats(s) && room != named
    ensures ViewOf(Reapply(s, named, doc), room) == ViewOf(s, room)
  {
    var pending := PendingOf(s.pending, named);
    PendingOfIn(s.pending, named);
    ReplayFailsAtPending(doc, pending);
    if pending != [] && ReplayOn(doc, pending).FailedAt? {
      DropElsewhere(s, ReplayOn(doc, pending).mutation, room);
    }
  }

  lemma SameCounts(s: State, t: State)
    requires NoRepeats(s) && t.pending == s.pending && t.settled == s.settled
    ensures NoRepeats(t)
  {
    forall id: nat ensures Count(t, id) <= 1 {
      assert Count(t, id) == Count(s, id);
    }
  }

  lemma AdoptLeaves(s: State, named: Room, doc: Doc, isDelete: bool, room: Room)
    requires NoRepeats(s) && room != named
    ensures ViewOf(Adopt(s, named, doc, isDelete), room) == ViewOf(s, room)
  {
    var stored := s.(
      docs := if isDelete && doc.Undefined? then s.docs - {named} else s.docs[named := doc],
      base := s.base[named := doc]);
    var shown := SetStatus(stored, named, Synchronized);
    SameCounts(s, shown);
    ReapplyLeaves(shown, named, doc, room);
  }

  lemma AuthoritativeLeaves(s: State, named: Room, doc: Doc, sequence: Option<nat>, isDelete: bool, room: Room)
    requires NoRepeats(s) && room != named
    ensures ViewOf(Authoritative(s, named, doc, sequence, isDelete), room) == ViewOf(s, room)
  {
    if !Stale(s, named, sequence) {
      SameCounts(s, Sequenced(s, named, sequence));
      AdoptLeaves(Sequenced(s, named, sequence), named, EventDocument(doc, isDelete), isDelete, room);
    }
  }

  lemma RollbackLeaves(s: State, m: Mutation, room: Room)
    requires NoRepeats(s) && room != m.room
    ensures ViewOf(Rollback(s, m), room) == ViewOf(s, room)
  {
    var rolled := s.(docs := if m.hadPrevious then s.docs[m.room := m.previous] else s.docs - {m.room});
    var failed := SetStatus(rolled, m.room, Failed);
    SameCounts(s, failed);
    ReapplyLeaves(failed, m.room, if m.hadPrevious then m.previous else Undefined, room);
  }

  lemma RolledBackLeaves(s: State, m: Mutation, room: Room)
    requires NoRepeats(s) && m in s.pending && room != m.room
    ensures ViewOf(RolledBack(s, m), room) == ViewOf(s, room)
  {
    DropNoRepeats(s, m);
    DropElsewhere(s, m, room);
    RollbackLeaves(Drop(s, m.id), m, room);
  }

  lemma RejectLeaves(s: State, request: Option<nat>, rollback: bool, room: Room)
    requires NoRepeats(s) && !Answers(s, request, room)
    ensures ViewOf(RejectRequest(s, request, rollback), room) == ViewOf(s, room)
  {
    var found := Requested(s, request);
    if found.Some? {
      DropElsewhere(s, found.value, room);
      if rollback {
        RolledBackLeaves(s, found.value, room);
      }
    }
  }

  lemma {:induction false} IssueLeaves(s: State, named: Room, payload: Payload, sent: bool, room: Room)
    requires CountedOnce(s) && room != named
    ensures ViewOf(Issued(s, named, payload, sent), room) == ViewOf(s, room)
  {
    var m := NewMutation(s, named, payload);
    var queued := Queued(s, named, payload);
    PendingOfAppend(s.pending, [m], room);
    assert ViewOf(queued, room) == ViewOf(s, room);
    if !sent && !(Shows(s, named, payload) && Effect(Previous(s, named), payload).Err?) {
      forall id: nat ensures Count(queued, id) <= 1 {
        InPendingSnoc(s.pending, m, id);
        assert Count(s, id) <= 1;
      }
      RolledBackLeaves(queued, m, room);
    }
  }

  lemma {:induction false} AckLeaves(
    s: State, request: Option<nat>, named: Room, doc: Doc, sequence: Option<nat>, isDelete: bool, room: Room)
    requires NoRepeats(s) && room != named && !Answers(s, request, room)
    ensures ViewOf(Acked(s, request, named, doc, sequence, isDelete), room) == ViewOf(s, room)
  {
    var found := Requested(s, request);
    if found.Some? {
      DropNoRepeats(s, found.value);
      DropElsewhere(s, found.value, room);
      AuthoritativeLeaves(Drop(s, found.value.id), named, doc, sequence, isDelete, room);
    } else {
      AuthoritativeLeaves(s, named, doc, sequence, isDelete, room);
    }
  }

  lemma {:induction false} RepairLeaves(
    s: State, m: Mutation, named: Room, doc: Doc, sequence: Option<nat>, room: Room)
    requires NoRepeats(s) && Find(s.pending, m.id) == Some(m) && room != named && room != m.room
    ensures ViewOf(RejectRequest(Repaired(s, Some(m.id), named, doc, sequence), Some(m.id), false), room)
         == ViewOf(s, room)
  {
    var aside := Drop(s, m.id);
    DropNoRepeats(s, m);
    DropElsewhere(s, m, room);
    var sequenced := Sequenced(aside, named, sequence);
    SameCounts(aside, sequenced);
    AdoptLeaves(sequenced, named, doc, false, room);
    var adopted := Adopt(sequenced, named, doc, false);
    InPendingWithout(s.pending, m.id, m.id);
    AdoptPending(sequenced, named, doc, false, m.id);
    RefusedLeaves(adopted, m, room);
  }

  /** A mutation put back at the end and refused leaves the other rooms alone. */
  lemma {:induction false} RefusedLeaves(adopted: State, m: Mutation, room: Room)
    requires InPending(adopted.pending, m.id) == 0 && room != m.room
    ensures ViewOf(RejectRequest(adopted.(pending := adopted.pending + [m]), Some(m.id), false), room)
         == ViewOf(adopted, room)
  {
    var back := adopted.(pending := adopted.pending + [m]);
    FreshIsFound(adopted.pending, m);
    assert Drop(back, m.id) == adopted;
    assert RejectRequest(back, Some(m.id), false) == Settle(Refresh(adopted, m.room), m.id, Rejected);
    RefreshLeaves(adopted, m, room);
  }

  lemma RefreshLeaves(s: State, m: Mutation, room: Room)
    requires room != m.room
    ensures ViewOf(Settle(Refresh(s, m.room), m.id, Rejected), room) == ViewOf(s, room)
  {
  }

  lemma {:induction false} FreshIsFound(pending: seq<Mutation>, m: Mutation)
    requires InPending(pending, m.id) == 0
    ensures Find(pending + [m], m.id) == Some(m) && WithoutId(pending + [m], m.id) == pending
  {
    if pending == [] {
      assert pending + [m] == [m];
    } else {
      assert (pending + [m])[1..] == pending[1..] + [m];
      FreshIsFound(pending[1..], m);
    }
  }

  lemma {:induction false} ConflictLeaves(
    s: State, request: Option<nat>, target: Option<Room>, doc: Doc, sequence: Option<nat>, room: Room)
    requires NoRepeats(s) && target != Some(room) && !Answers(s, request, room)
    ensures ViewOf(Conflicted(s, request, target, doc, sequence), room) == ViewOf(s, room)
  {
    var found := Requested(s, request);
    var named := RepairRoom(s, request, target, sequence);
    if named.None? {
      SameCounts(s, StaleRepair(s, request, target));
      RejectLeaves(StaleRepair(s, request, target), request, true, room);
    } else if found.Some? {
      RepairLeaves(s, found.value, named.value, doc, sequence, room);
    } else {
      UnknownConflictLeaves(s, request, named.value, doc, sequence, room);
    }
  }

  lemma {:induction false} UnknownConflictLeaves(
    s: State, request: Option<nat>, named: Room, doc: Doc, sequence: Option<nat>, room: Room)
    requires NoRepeats(s) && Requested(s, request).None? && room != named
    ensures ViewOf(RejectRequest(Repaired(s, request, named, doc, sequence), request, false), room) == ViewOf(s, room)
  {
    var sequenced := Sequenced(s, named, sequence);
    SameCounts(s, sequenced);
    AdoptLeaves(sequenced, named, doc, false, room);
    var adopted := Adopt(sequenced, named, doc, false);
    if request.Some? {
      NoneFound(s.pending, request.value);
      AdoptPending(sequenced, named, doc, false, request.value);
      if Find(adopted.pending, request.value).Some? {
        InPendingMember(adopted.pending, Find(adopted.pending, request.value).value);
      }
    }
  }

  lemma {:induction false} RejectAllLeaves(s: State, mutations: seq<Mutation>, room: Room)
    requires s.pending == [] && PendingOf(mutations, room) == []
    ensures ViewOf(RejectAll(s, mutations), room) == ViewOf(s, room)
    decreases |mutations|
  {
    if mutations != [] {
      var m := mutations[0];
      RejectAllLeaves(Settle(Rollback(s, m), m.id, Rejected), mutations[1..], room);
    }
  }

  /** An event leaves all that is kept for every room it is not for as it was. */
  lemma {:induction false} StepLeavesOtherRooms(s: State, e: Event, room: Room)
    requires CountedOnce(s) && !Concerns(s, e, room)
    ensures ViewOf(Step(s, e), room) == ViewOf(s, room)
  {
    CountedNoRepeats(s);
    match e {
      case Issue(named, payload, sent) => IssueLeaves(s, named, payload, sent, room);
      case Snapshot(named, doc, sequence) => AuthoritativeLeaves(s, named, doc, sequence, false, room);
      case Ack(request, named, doc, sequence, isDelete) =>
        AckLeaves(s, request, named, doc, sequence, isDelete, room);
      case Update(named, doc, sequence, isDelete) => AuthoritativeLeaves(s, named, doc, sequence, isDelete, room);
      case Conflict(request, target, doc, sequence) => ConflictLeaves(s, request, target, doc, sequence, room);
      case Refusal(request) => RejectLeaves(s, request, true, room);
      case LoadRequested(_) =>
      case LoadFailed(_) =>
      case SocketClosed(_) => RejectAllLeaves(s.(pending := []), s.pending, room);
      case Leave(named) => PendingOfWithoutRoom(s.pending, named, room);
    }
  }

  /** No event of the run is for the room when its turn comes. */
  predicate NeverConcerned(s: State, events: seq<Event>, room: Room)
    decreases |events|
  {
    events == [] || (!Concerns(s, events[0], room) && NeverConcerned(Step(s, events[0]), events[1..], room))
  }

  /** Over every run, a room that no event is for keeps document, status, sequence and pending mutations. */
  lemma {:induction false} RunLeavesOtherRooms(s: State, events: seq<Event>, room: Room)
    requires CountedOnce(s) && NeverConcerned(s, events, room)
    ensures ViewOf(Run(s, events), room) == ViewOf(s, room)
    decreases |events|
  {
    if events != [] {
      StepConserves(s, events[0]);
      StepLeavesOtherRooms(s, events[0], room);
      RunLeavesOtherRooms(Step(s, events[0]), events[1..], room);
    }
  }

  // ---------------------------------------------------------------- which documents are taken

  /** A server document is taken unless its sequence is no newer; one not taken changes the status alone. */
  lemma DocumentIsTakenIff(s: State, room: Room, doc: Doc, sequence: Option<nat>, isDelete: bool)
    ensures var next := Step(s, Update(room, doc, sequence, isDelete));
            var newest := if room in s.sequences then s.sequences[room] else 0;
            if sequence.Some? && sequence.value <= newest then next == s.(status := next.status)
            else
              && next.base == s.base[room := if isDelete && doc == Defined(Null) then Undefined else doc]
              && next.sequences == (if sequence.Some? then s.sequences[room := sequence.value] else s.sequences)
  {
  }

  /** The status and the document on show after a server message, from what is pending in the room. */
  lemma StatusAfterDocument(s: State, room: Room, doc: Doc, sequence: Option<nat>, isDelete: bool)
    ensures var next := Step(s, Update(room, doc, sequence, isDelete));
            var newest := if room in s.sequences then s.sequences[room] else 0;
            var taken := if isDelete && doc == Defined(Null) then Undefined else doc;
            var pending := PendingOf(s.pending, room);
            if sequence.Some? && sequence.value <= newest then
              StatusOf(next, room) == if pending != [] then Synchronizing
                                      else if room in s.docs then Synchronized else NotLoaded
            else if pending == [] then
              && StatusOf(next, room).Synchronized? && Previous(next, room) == taken
              && (room in next.docs <==> !(isDelete && taken.Undefined?))
              && next.settled == s.settled
            else if ReplayOn(taken, pending).Replayed? then
              && StatusOf(next, room).Synchronizing? && room in next.docs
              && next.docs[room] == ReplayOn(taken, pending).doc
              && next.settled == s.settled
            else
              && StatusOf(next, room).Failed? && Previous(next, room) == taken
              && next.settled == s.settled + [Settlement(ReplayOn(taken, pending).mutation.id, Rejected)]
  {
  }

  /** A conflict's document is taken unless its sequence is older; without one the conflict is a plain refusal. */
  lemma {:induction false} ConflictIsTakenIff(
    s: State, request: Option<nat>, room: Room, doc: Doc, sequence: Option<nat>)
    ensures var next := Step(s, Conflict(request, Some(room), doc, sequence));
            var newest := if room in s.sequences then s.sequences[room] else 0;
            if sequence.Some? && sequence.value < newest then
              next.(status := map[]) == Step(s, Refusal(request)).(status := map[])
            else
              && next.base == s.base[room := doc]
              && next.sequences == if sequence.Some? then s.sequences[room := sequence.value] else s.sequences
  {
    if RepairRoom(s, request, Some(room), sequence).None? {
      RefusalIgnoresStatus(s, StaleRepair(s, request, Some(room)).status, request);
    }
  }

  lemma {:induction false} RefusalIgnoresStatus(s: State, status: map<Room, Status>, request: Option<nat>)
    ensures RejectRequest(s.(status := status), request, true).(status := map[])
         == RejectRequest(s, request, true).(status := map[])
  {
    var found := Requested(s, request);
    if found.Some? {
      RollbackIgnoresStatus(Drop(s, found.value.id), status, found.value);
    }
  }

  lemma {:induction false} RollbackIgnoresStatus(s: State, status: map<Room, Status>, m: Mutation)
    ensures Rollback(s.(status := status), m).(status := map[]) == Rollback(s, m).(status := map[])
  {
  }

  /** A conflict that names no room is for the room of its mutation, and without one changes nothing. */
  lemma {:induction false} ConflictWithoutRoom(s: State, request: Option<nat>, doc: Doc, sequence: Option<nat>)
    ensures var found := Requested(s, request);
            Step(s, Conflict(request, None, doc, sequence))
            == if found.None? then s else Step(s, Conflict(request, Some(found.value.room), doc, sequence))
  {
  }

  // ---------------------------------------------------------------- issuing and taking back

  /** A mutation that is sent records what the room showed, and shows its own effect where there is a document. */
  lemma IssueIsShown(s: State, room: Room, payload: Payload)
    requires payload.SetTo? || room !in s.docs || Effect(s.docs[room], payload).Ok?
    ensures var next := Step(s, Issue(room, payload, true));
            && next.pending
               == s.pending + [Mutation(s.counter, room, payload, room in s.docs,
                                        if room in s.docs then s.docs[room] else Undefined)]
            && next.counter == s.counter + 1 && next.settled == s.settled && StatusOf(next, room).Synchronizing?
            && (payload.SetTo? ==> next.docs == s.docs[room := Defined(payload.document)])
            && (payload.PatchWith? && room in s.docs ==>
                  next.docs == s.docs[room := Effect(s.docs[room], payload).value])
            && (payload.PatchWith? && room !in s.docs ==> next.docs == s.docs)
  {
  }

  /** A patch that fails on the document shown is rejected at once, before anything is shown or pending. */
  lemma FailedPatchIsRejected(s: State, room: Room, payload: Payload, sent: bool)
    requires room in s.docs && Effect(s.docs[room], payload).Err?
    ensures Step(s, Issue(room, payload, sent))
         == s.(counter := s.counter + 1, settled := s.settled + [Settlement(s.counter, Rejected)])
  {
  }

  lemma {:induction false} RollbackOfOnly(s: State, m: Mutation)
    requires PendingOf(s.pending, m.room) == []
    ensures Rollback(s, m)
         == SetStatus(s.(docs := if m.hadPrevious then s.docs[m.room := m.previous] else s.docs - {m.room}),
                      m.room, Failed)
  {
  }

  /** Rolling back the newest mutation when its room has no other puts the document back. */
  lemma {:induction false} NewestIsTakenBack(s: State, room: Room, payload: Payload)
    requires CountedOnce(s) && PendingOf(s.pending, room) == []
    ensures var m := NewMutation(s, room, payload);
            var queued := Queued(s, room, payload);
            var next := RolledBack(queued, m);
            && Find(queued.pending, m.id) == Some(m)
            && next.docs == s.docs && next.pending == s.pending && StatusOf(next, room).Failed?
            && next.settled == s.settled + [Settlement(s.counter, Rejected)]
            && next.base == s.base && next.sequences == s.sequences
  {
    var m := NewMutation(s, room, payload);
    assert Count(s, s.counter) == 0;
    FreshIsFound(s.pending, m);
    var dropped := Drop(Queued(s, room, payload), m.id);
    assert dropped.pending == s.pending;
    RollbackOfOnly(dropped, m);
    assert (if m.hadPrevious then dropped.docs[room := m.previous] else dropped.docs - {room}) == s.docs;
  }

  /** A refusal that comes before anything else is pending in the room takes the mutation back without a trace. */
  lemma {:induction false} RefusalUndoesIssue(s: State, room: Room, payload: Payload)
    requires CountedOnce(s) && PendingOf(s.pending, room) == []
    requires payload.SetTo? || room !in s.docs || Effect(s.docs[room], payload).Ok?
    ensures var next := Step(Step(s, Issue(room, payload, true)), Refusal(Some(s.counter)));
            && next.docs == s.docs && next.pending == s.pending && StatusOf(next, room).Failed?
            && next.settled == s.settled + [Settlement(s.counter, Rejected)]
            && next.base == s.base && next.sequences == s.sequences
  {
    NewestIsTakenBack(s, room, payload);
  }

  /** So does a send that fails. */
  lemma {:induction false} FailedSendUndoesIssue(s: State, room: Room, payload: Payload)
    requires CountedOnce(s) && PendingOf(s.pending, room) == []
    requires payload.SetTo? || room !in s.docs || Effect(s.docs[room], payload).Ok?
    ensures var next := Step(s, Issue(room, payload, false));
            && next.docs == s.docs && next.pending == s.pending && StatusOf(next, room).Failed?
            && next.settled == s.settled + [Settlement(s.counter, Rejected)]
            && next.base == s.base && next.sequences == s.sequences
  {
    NewestIsTakenBack(s, room, payload);
  }

  // ---------------------------------------------------------------- documents that are undefined

  /** An operation on an undefined document has an effect only at its root: a value set there, or a copy of it. */
  lemma {:induction false} UndefinedDocumentIff(operation: Operation)
    ensures StepDoc(Undefined, operation).Ok?
       <==> || ((operation.op.Add? || operation.op.Replace?) && operation.value.Some? && operation.path == "")
            || (operation.op.Copy? && operation.from == Some("") && operation.path == "")
    ensures StepDoc(Undefined, operation).Ok? ==>
              StepDoc(Undefined, operation).value
              == if operation.op.Copy? then Undefined else Defined(operation.value.value)
  {
  }
}
