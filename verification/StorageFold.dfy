/** What the local document is: the pending mutations replayed, in order, on the newest accepted server document. */
module StorageFold {
  import opened Wrappers
  import opened JsonPointer
  import opened Json
  import opened JsonPatch
  import opened StorageReplica
  import opened StorageSettlement

  ghost predicate InStep(s: State, room: Room) {
    room in s.base ==> ReplayOn(s.base[room], PendingOf(s.pending, room)) == Replayed(Previous(s, room))
  }

  ghost predicate AllInStep(s: State) {
    forall room :: InStep(s, room)
  }

  ghost predicate NoRepeats(s: State) {
    forall id: nat {:trigger Count(s, id)} :: Count(s, id) <= 1
  }

  lemma CountedNoRepeats(s: State)
    requires CountedOnce(s)
    ensures NoRepeats(s)
  {
  }

  // ---------------------------------------------------------------- replaying

  lemma {:induction false} ReplayAppend(doc: Doc, first: seq<Mutation>, second: seq<Mutation>)
    ensures ReplayOn(doc, first).Replayed? ==>
              ReplayOn(doc, first + second) == ReplayOn(ReplayOn(doc, first).doc, second)
    decreases |first|
  {
    if first == [] {
      assert first + second == second;
    } else {
      assert (first + second)[1..] == first[1..] + second;
      match Effect(doc, first[0].payload)
      case Ok(next) => ReplayAppend(next, first[1..], second);
      case Err(_) =>
    }
  }

  lemma {:induction false} WithoutIdElsewhere(pending: seq<Mutation>, id: nat, room: Room)
    requires forall m :: m in pending && m.room == room ==> m.id != id
    ensures PendingOf(WithoutId(pending, id), room) == PendingOf(pending, room)
  {
    if pending != [] {
      assert forall m :: m in pending[1..] ==> m in pending;
      assert pending[0] in pending;
      WithoutIdElsewhere(pending[1..], id, room);
      var rest := WithoutId(pending[1..], id);
      assert pending[0].id != id ==> ([pending[0]] + rest)[1..] == rest;
    }
  }

  /** Ids name one mutation, so a mutation of one room is no mutation of another. */
  lemma {:induction false} SameIdSameMutation(pending: seq<Mutation>, m: Mutation, n: Mutation)
    requires m in pending && n in pending && m.id == n.id && InPending(pending, m.id) <= 1
    ensures m == n
  {
    if pending[0] == m || pending[0] == n {
      if m != n {
        var other := if pending[0] == m then n else m;
        assert other in pending[1..];
        InPendingMember(pending[1..], other);
        assert false;
      }
    } else {
      SameIdSameMutation(pending[1..], m, n);
    }
  }

  lemma DropElsewhere(s: State, m: Mutation, other: Room)
    requires NoRepeats(s) && m in s.pending && m.room != other
    ensures PendingOf(Drop(s, m.id).pending, other) == PendingOf(s.pending, other)
  {
    forall n | n in s.pending && n.room == other ensures n.id != m.id {
      assert Count(s, m.id) <= 1;
      if n.id == m.id {
        SameIdSameMutation(s.pending, m, n);
        assert false;
      }
    }
    WithoutIdElsewhere(s.pending, m.id, other);
  }

  // ---------------------------------------------------------------- replaying on a document shown

  function Requested(s: State, request: Option<nat>): Option<Mutation> {
    if request.Some? then Find(s.pending, request.value) else None
  }

  /** The document a rollback shows. */
  function RolledTo(m: Mutation): Doc {
    if m.hadPrevious then m.previous else Undefined
  }

  /**
    Replaying the pending mutations on the document shown ends in step with the server's: the replay that succeeds
    gives what it gives on the server's document, and the one that fails leaves a document the remaining ones give.
   */
  predicate ShowsAgain(base: Doc, shown: Doc, pending: seq<Mutation>, room: Room) {
    match ReplayOn(shown, PendingOf(pending, room))
    case Replayed(final) => ReplayOn(base, PendingOf(pending, room)) == Replayed(final)
    case FailedAt(m) => ReplayOn(base, PendingOf(WithoutId(pending, m.id), room)) == Replayed(shown)
  }

  /** Without this mutation the others still give the document shown. */
  predicate Droppable(s: State, m: Mutation) {
    m.room in s.base ==>
      ReplayOn(s.base[m.room], PendingOf(WithoutId(s.pending, m.id), m.room)) == Replayed(Previous(s, m.room))
  }

  predicate RollsBack(s: State, m: Mutation) {
    m.room in s.base ==> ShowsAgain(s.base[m.room], RolledTo(m), WithoutId(s.pending, m.id), m.room)
  }

  /** What a closed socket leaves on show: every pending mutation is rolled back in turn, so the last one decides. */
  function ShownAfterClose(s: State, room: Room): Doc {
    var pending := PendingOf(s.pending, room);
    if pending == [] then Previous(s, room) else RolledTo(Last(pending))
  }

  lemma ReapplyInStepIff(s: State, room: Room, doc: Doc)
    requires Previous(s, room) == doc
    ensures InStep(Reapply(s, room, doc), room)
       <==> (room in s.base ==> ShowsAgain(s.base[room], doc, s.pending, room))
  {
  }

  lemma ReapplyElsewhere(s: State, room: Room, doc: Doc, other: Room)
    requires NoRepeats(s) && other != room
    ensures InStep(Reapply(s, room, doc), other) <==> InStep(s, other)
  {
    var pending := PendingOf(s.pending, room);
    PendingOfIn(s.pending, room);
    ReplayFailsAtPending(doc, pending);
    if pending != [] && ReplayOn(doc, pending).FailedAt? {
      DropElsewhere(s, ReplayOn(doc, pending).mutation, other);
    }
  }

  // ---------------------------------------------------------------- accepted documents

  /** A document taken as the server's puts the room in step exactly when its replay shows again. */
  lemma {:induction false} AdoptInStepIff(s: State, room: Room, doc: Doc, isDelete: bool, other: Room)
    requires NoRepeats(s)
    ensures InStep(Adopt(s, room, doc, isDelete), other)
       <==> if other == room then ShowsAgain(doc, doc, s.pending, room) else InStep(s, other)
  {
    var stored := s.(
      docs := if isDelete && doc.Undefined? then s.docs - {room} else s.docs[room := doc],
      base := s.base[room := doc]);
    var shown := SetStatus(stored, room, Synchronized);
    if other == room {
      ReapplyInStepIff(shown, room, doc);
    } else {
      assert forall id: nat :: Count(shown, id) == Count(s, id);
      ReapplyElsewhere(shown, room, doc, other);
      assert InStep(shown, other) <==> InStep(s, other);
    }
  }

  /** A server message for a loaded room heals it: accepted, with a replay that succeeds, it ends in step. */
  lemma AcceptedMessageHeals(s: State, room: Room, doc: Doc, sequence: Option<nat>, isDelete: bool)
    requires !Stale(s, room, sequence)
    requires ReplayOn(EventDocument(doc, isDelete), PendingOf(s.pending, room)).Replayed?
    ensures var after := Authoritative(s, room, doc, sequence, isDelete);
            room in after.base && after.base[room] == EventDocument(doc, isDelete) && InStep(after, room)
  {
  }

  lemma {:induction false} AuthoritativeInStepIff(
    s: State, room: Room, doc: Doc, sequence: Option<nat>, isDelete: bool, other: Room)
    requires NoRepeats(s)
    ensures InStep(Authoritative(s, room, doc, sequence, isDelete), other)
       <==> var taken := EventDocument(doc, isDelete);
            if Stale(s, room, sequence) || other != room then InStep(s, other)
            else ShowsAgain(taken, taken, s.pending, room)
  {
    if !Stale(s, room, sequence) {
      var sequenced := Sequenced(s, room, sequence);
      assert forall id: nat :: Count(sequenced, id) == Count(s, id);
      AdoptInStepIff(sequenced, room, EventDocument(doc, isDelete), isDelete, other);
    }
  }

  // ---------------------------------------------------------------- one step, exactly

  /**
    The guard of a step, to be evaluated before it. It holds of every issue that is sent to a loaded room and of every
    document whose replay succeeds; for the rest it says what the mutations dropped or replayed twice must not change.
   */
  predicate Regular(s: State, e: Event) {
    match e
    case Issue(room, payload, sent) =>
      var effect := Effect(Previous(s, room), payload);
      (room in s.base && !(Shows(s, room, payload) && effect.Err?) ==>
         if sent then Shows(s, room, payload) || effect == Ok(Previous(s, room))
         else ShowsAgain(s.base[room], Previous(s, room), s.pending, room))
    case Snapshot(room, doc, sequence) => Stale(s, room, sequence) || ShowsAgain(doc, doc, s.pending, room)
    case Update(room, doc, sequence, isDelete) =>
      var taken := EventDocument(doc, isDelete);
      Stale(s, room, sequence) || ShowsAgain(taken, taken, s.pending, room)
    case Ack(request, room, doc, sequence, isDelete) =>
      var taken := EventDocument(doc, isDelete);
      (match Requested(s, request)
       case None => Stale(s, room, sequence) || ShowsAgain(taken, taken, s.pending, room)
       case Some(m) =>
         && (Stale(s, room, sequence) || ShowsAgain(taken, taken, WithoutId(s.pending, m.id), room))
         && ((m.room == room && !Stale(s, room, sequence)) || Droppable(s, m)))
    case Conflict(request, target, doc, sequence) =>
      (match (RepairRoom(s, request, target, sequence), Requested(s, request))
       case (Some(room), Some(m)) =>
         ShowsAgain(doc, doc, WithoutId(s.pending, m.id), room) && (m.room == room || Droppable(s, m))
       case (Some(room), None) => ShowsAgain(doc, doc, s.pending, room)
       case (None, Some(m)) => RollsBack(s, m)
       case (None, None) => true)
    case Refusal(request) => Requested(s, request).Some? ==> RollsBack(s, Requested(s, request).value)
    case SocketClosed(reset) => reset || forall room | room in s.base :: s.base[room] == ShownAfterClose(s, room)
    case _ => true
  }

  lemma {:induction false} QueuedInStepIff(s: State, room: Room, payload: Payload, other: Room)
    requires InStep(s, other)
    requires Shows(s, room, payload) ==> Effect(Previous(s, room), payload).Ok?
    ensures InStep(Queued(s, room, payload), other)
       <==> (other == room && room in s.base && !Shows(s, room, payload) ==>
               Effect(Previous(s, room), payload) == Ok(Previous(s, room)))
  {
    var m := NewMutation(s, room, payload);
    PendingOfAppend(s.pending, [m], other);
    assert [m][1..] == [];
    if other == room {
      if room in s.base {
        assert PendingOf([m], room) == [m];
        ReplayAppend(s.base[room], PendingOf(s.pending, room), [m]);
        ReplayOfOne(Previous(s, room), m);
      }
    } else {
      assert PendingOf([m], other) == [];
      assert PendingOf(s.pending, other) + [] == PendingOf(s.pending, other);
    }
  }

  lemma {:induction false} ReplayOfOne(doc: Doc, m: Mutation)
    ensures ReplayOn(doc, [m])
         == if Effect(doc, m.payload).Ok? then Replayed(Effect(doc, m.payload).value) else FailedAt(m)
  {
    assert [m][1..] == [];
    if Effect(doc, m.payload).Ok? {
      assert ReplayOn(Effect(doc, m.payload).value, []) == Replayed(Effect(doc, m.payload).value);
    }
  }

  lemma {:induction false} RolledBackInStepIff(s: State, m: Mutation, other: Room)
    requires NoRepeats(s) && m in s.pending && InStep(s, other)
    ensures InStep(RolledBack(s, m), other) <==> (other == m.room ==> RollsBack(s, m))
  {
    var dropped := Drop(s, m.id);
    var rolled := dropped.(docs := if m.hadPrevious then s.docs[m.room := m.previous] else s.docs - {m.room});
    var shown := SetStatus(rolled, m.room, Failed);
    DropNoRepeats(s, m);
    assert forall id: nat :: Count(shown, id) == Count(dropped, id);
    var after := Reapply(shown, m.room, RolledTo(m));
    assert Rollback(dropped, m) == after;
    assert InStep(Settle(after, m.id, Rejected), other) <==> InStep(after, other);
    if other == m.room {
      ReapplyInStepIff(shown, m.room, RolledTo(m));
    } else {
      ReapplyElsewhere(shown, m.room, RolledTo(m), other);
      DropElsewhere(s, m, other);
      assert InStep(shown, other) <==> InStep(s, other);
    }
  }

  /**
    A send that fails puts back the document of the time of issue and replays the others on it, though it already
    shows them: the room stays in step exactly when that second replay changes nothing, or, where it fails, when the
    document put back is what the others give without the one that failed.
   */
  lemma {:induction false} UnsentInStepIff(s: State, room: Room, payload: Payload, other: Room)
    requires CountedOnce(s) && InStep(s, other)
    requires Shows(s, room, payload) ==> Effect(Previous(s, room), payload).Ok?
    ensures InStep(Issued(s, room, payload, false), other)
       <==> (other == room && room in s.base ==>
               var again := ReplayOn(Previous(s, room), PendingOf(s.pending, room));
               if again.Replayed? then again.doc == Previous(s, room)
               else ReplayOn(s.base[room], PendingOf(WithoutId(s.pending, again.mutation.id), room))
                    == Replayed(Previous(s, room)))
  {
    var m := NewMutation(s, room, payload);
    var queued := Queued(s, room, payload);
    forall n | n in s.pending ensures n.id != m.id {
      InPendingMember(s.pending, n);
      assert Count(s, n.id) == if n.id < s.counter then 1 else 0;
    }
    WithoutFresh(s.pending, m);
    var dropped := Drop(queued, m.id);
    assert dropped.pending == s.pending;
    var shown := SetStatus(
      dropped.(docs := if m.hadPrevious then queued.docs[room := m.previous] else queued.docs - {room}), room, Failed);
    CountedNoRepeats(s);
    assert forall id: nat :: Count(shown, id) == Count(s, id);
    var after := Reapply(shown, room, RolledTo(m));
    assert Rollback(dropped, m) == after && RolledTo(m) == Previous(s, room);
    assert Issued(s, room, payload, false) == Settle(after, m.id, Rejected);
    assert InStep(Settle(after, m.id, Rejected), other) <==> InStep(after, other);
    if other == room {
      ReapplyInStepIff(shown, room, RolledTo(m));
    } else {
      ReapplyElsewhere(shown, room, RolledTo(m), other);
      assert InStep(shown, other) <==> InStep(s, other);
    }
  }

  lemma {:induction false} IssueInStepIff(s: State, room: Room, payload: Payload, sent: bool, other: Room)
    requires CountedOnce(s) && InStep(s, other)
    ensures InStep(Issued(s, room, payload, sent), other)
       <==> (other == room ==> Regular(s, Issue(room, payload, sent)))
  {
    if Shows(s, room, payload) && Effect(Previous(s, room), payload).Err? {
      assert InStep(Settle(s.(counter := s.counter + 1), s.counter, Rejected), other);
    } else if sent {
      QueuedInStepIff(s, room, payload, other);
    } else {
      UnsentInStepIff(s, room, payload, other);
    }
  }

  lemma {:induction false} WithoutFresh(pending: seq<Mutation>, m: Mutation)
    requires forall n :: n in pending ==> n.id != m.id
    ensures WithoutId(pending + [m], m.id) == pending
  {
    if pending == [] {
      assert pending + [m] == [m];
    } else {
      assert (pending + [m])[1..] == pending[1..] + [m];
      assert forall n :: n in pending[1..] ==> n in pending;
      WithoutFresh(pending[1..], m);
    }
  }

  lemma DropNoRepeats(s: State, m: Mutation)
    requires NoRepeats(s) && m in s.pending
    ensures NoRepeats(Drop(s, m.id))
  {
    forall id: nat ensures Count(Drop(s, m.id), id) <= 1 {
      assert Count(s, id) <= 1;
      DropCounts(s, m, id);
    }
  }

  lemma DropInStepIff(s: State, m: Mutation, other: Room)
    requires NoRepeats(s) && m in s.pending && InStep(s, other)
    ensures InStep(Drop(s, m.id), other) <==> (other == m.room ==> Droppable(s, m))
  {
    if other != m.room {
      DropElsewhere(s, m, other);
    }
  }

  /** What an acknowledgement must not change in one room. */
  predicate AckKeeps(
    s: State, request: Option<nat>, room: Room, doc: Doc, sequence: Option<nat>, isDelete: bool, other: Room)
  {
    var taken := EventDocument(doc, isDelete);
    match Requested(s, request)
    case None => other == room && !Stale(s, room, sequence) ==> ShowsAgain(taken, taken, s.pending, room)
    case Some(m) =>
      if other == room && !Stale(s, room, sequence) then ShowsAgain(taken, taken, WithoutId(s.pending, m.id), room)
      else other == m.room ==> Droppable(s, m)
  }

  lemma {:induction false} AckInStepIff(
    s: State, request: Option<nat>, room: Room, doc: Doc, sequence: Option<nat>, isDelete: bool, other: Room)
    requires NoRepeats(s) && InStep(s, other)
    ensures InStep(Acked(s, request, room, doc, sequence, isDelete), other)
       <==> AckKeeps(s, request, room, doc, sequence, isDelete, other)
  {
    match Requested(s, request)
    case None => AuthoritativeInStepIff(s, room, doc, sequence, isDelete, other);
    case Some(m) =>
      DropNoRepeats(s, m);
      DropInStepIff(s, m, other);
      AuthoritativeInStepIff(Drop(s, m.id), room, doc, sequence, isDelete, other);
      var taken := Authoritative(Drop(s, m.id), room, doc, sequence, isDelete);
      assert InStep(Settle(taken, m.id, Resolved(doc)), other) <==> InStep(taken, other);
  }

  // ---------------------------------------------------------------- conflict repairs

  lemma {:induction false} NoneToDrop(pending: seq<Mutation>, id: nat)
    requires InPending(pending, id) == 0
    ensures WithoutId(pending, id) == pending
  {
    if pending != [] {
      NoneToDrop(pending[1..], id);
    }
  }

  /** Taking a document drops at most the mutation whose replay fails. */
  lemma AdoptPending(s: State, room: Room, doc: Doc, isDelete: bool, id: nat)
    requires InPending(s.pending, id) == 0
    ensures InPending(Adopt(s, room, doc, isDelete).pending, id) == 0
  {
    var pending := PendingOf(s.pending, room);
    if pending != [] && ReplayOn(doc, pending).FailedAt? {
      InPendingWithout(s.pending, ReplayOn(doc, pending).mutation.id, id);
    }
  }

  /** The refused mutation, set aside for the replay, leaves no trace when it is put back and rejected. */
  lemma {:induction false} RefusedInStepIff(adopted: State, m: Mutation, other: Room)
    requires InPending(adopted.pending, m.id) == 0
    ensures InStep(RejectRequest(adopted.(pending := adopted.pending + [m]), Some(m.id), false), other)
       <==> InStep(adopted, other)
  {
    var back := adopted.(pending := adopted.pending + [m]);
    FindAppended(adopted.pending, m);
    WithoutIdAppend(adopted.pending, m);
    NoneToDrop(adopted.pending, m.id);
    var found := Find(back.pending, m.id).value;
    assert Drop(back, found.id) == adopted;
    assert InStep(Settle(Refresh(adopted, found.room), found.id, Rejected), other) <==> InStep(adopted, other);
  }

  lemma {:induction false} RepairInStepIff(
    s: State, m: Mutation, room: Room, doc: Doc, sequence: Option<nat>, other: Room)
    requires NoRepeats(s) && InStep(s, other) && Find(s.pending, m.id) == Some(m)
    ensures InStep(RejectRequest(Repaired(s, Some(m.id), room, doc, sequence), Some(m.id), false), other)
       <==> if other == room then ShowsAgain(doc, doc, WithoutId(s.pending, m.id), room)
            else other == m.room ==> Droppable(s, m)
  {
    var aside := Sequenced(Drop(s, m.id), room, sequence);
    var adopted := Adopt(aside, room, doc, false);
    DropNoRepeats(s, m);
    DropInStepIff(s, m, other);
    assert forall id: nat :: Count(aside, id) == Count(Drop(s, m.id), id);
    AdoptInStepIff(aside, room, doc, false, other);
    InPendingWithout(s.pending, m.id, m.id);
    AdoptPending(aside, room, doc, false, m.id);
    RefusedInStepIff(adopted, m, other);
  }

  lemma {:induction false} UnknownRepairInStepIff(
    s: State, request: Option<nat>, room: Room, doc: Doc, sequence: Option<nat>, other: Room)
    requires NoRepeats(s) && InStep(s, other) && Requested(s, request).None?
    ensures InStep(RejectRequest(Repaired(s, request, room, doc, sequence), request, false), other)
       <==> (other == room ==> ShowsAgain(doc, doc, s.pending, room))
  {
    var sequenced := Sequenced(s, room, sequence);
    assert forall id: nat :: Count(sequenced, id) == Count(s, id);
    AdoptInStepIff(sequenced, room, doc, false, other);
    var adopted := Adopt(sequenced, room, doc, false);
    if request.Some? {
      NoneFound(s.pending, request.value);
      AdoptPending(sequenced, room, doc, false, request.value);
      if Find(adopted.pending, request.value).Some? {
        InPendingMember(adopted.pending, Find(adopted.pending, request.value).value);
      }
    }
    assert RejectRequest(adopted, request, false) == adopted;
  }

  lemma {:induction false} NoneFound(pending: seq<Mutation>, id: nat)
    requires Find(pending, id).None?
    ensures InPending(pending, id) == 0
  {
    if pending != [] {
      NoneFound(pending[1..], id);
    }
  }

  lemma RefusalInStepIff(s: State, request: Option<nat>, other: Room)
    requires NoRepeats(s) && InStep(s, other)
    ensures InStep(RejectRequest(s, request, true), other)
       <==> (Requested(s, request).Some? && other == Requested(s, request).value.room ==>
               RollsBack(s, Requested(s, request).value))
  {
    if Requested(s, request).Some? {
      RolledBackInStepIff(s, Requested(s, request).value, other);
    }
  }

  /** What a conflict repair must not change in one room. */
  predicate ConflictKeeps(
    s: State, request: Option<nat>, target: Option<Room>, doc: Doc, sequence: Option<nat>, other: Room)
  {
    match (RepairRoom(s, request, target, sequence), Requested(s, request))
    case (Some(room), Some(m)) =>
      if other == room then ShowsAgain(doc, doc, WithoutId(s.pending, m.id), room)
      else other == m.room ==> Droppable(s, m)
    case (Some(room), None) => other == room ==> ShowsAgain(doc, doc, s.pending, room)
    case (None, Some(m)) => other == m.room ==> RollsBack(s, m)
    case (None, None) => true
  }

  lemma {:induction false} ConflictInStepIff(
    s: State, request: Option<nat>, target: Option<Room>, doc: Doc, sequence: Option<nat>, other: Room)
    requires NoRepeats(s) && InStep(s, other)
    ensures InStep(Conflicted(s, request, target, doc, sequence), other)
       <==> ConflictKeeps(s, request, target, doc, sequence, other)
  {
    match RepairRoom(s, request, target, sequence)
    case Some(room) =>
      if Requested(s, request).Some? {
        RepairInStepIff(s, Requested(s, request).value, room, doc, sequence, other);
      } else {
        UnknownRepairInStepIff(s, request, room, doc, sequence, other);
      }
    case None =>
      var refreshed := StaleRepair(s, request, target);
      assert refreshed.(status := s.status) == s;
      assert forall id: nat :: Count(refreshed, id) == Count(s, id);
      RefusalInStepIff(refreshed, request, other);
  }

  // ---------------------------------------------------------------- closing and leaving

  /** Rolling back all that was pending, one after another, shows what the last one of the room saw when issued. */
  lemma {:induction false} RejectAllShows(s: State, mutations: seq<Mutation>, room: Room)
    requires s.pending == []
    ensures var after := RejectAll(s, mutations);
            && after.pending == []
            && Previous(after, room) == if PendingOf(mutations, room) == [] then Previous(s, room)
                                        else RolledTo(Last(PendingOf(mutations, room)))
    decreases |mutations|
  {
    if mutations != [] {
      var m := mutations[0];
      var next := Settle(Rollback(s, m), m.id, Rejected);
      assert next.pending == [];
      assert Previous(next, room) == if m.room == room then RolledTo(m) else Previous(s, room);
      RejectAllShows(next, mutations[1..], room);
    }
  }

  lemma {:induction false} CloseInStepIff(s: State, room: Room)
    ensures Closed(s, false).pending == [] && Previous(Closed(s, false), room) == ShownAfterClose(s, room)
    ensures InStep(Closed(s, false), room) <==> (room in s.base ==> s.base[room] == ShownAfterClose(s, room))
  {
    RejectAllShows(s.(pending := []), s.pending, room);
  }

  lemma LeaveInStep(s: State, room: Room, other: Room)
    requires InStep(s, other)
    ensures InStep(Left(s, room), other)
  {
    PendingOfWithoutRoom(s.pending, room, other);
  }

  // ---------------------------------------------------------------- every step

  lemma {:induction false} AuthoritativeRegularIff(
    s: State, room: Room, doc: Doc, sequence: Option<nat>, isDelete: bool)
    requires NoRepeats(s) && AllInStep(s)
    ensures AllInStep(Authoritative(s, room, doc, sequence, isDelete))
         <==> Regular(s, Update(room, doc, sequence, isDelete))
  {
    var next := Authoritative(s, room, doc, sequence, isDelete);
    AuthoritativeInStepIff(s, room, doc, sequence, isDelete, room);
    if Regular(s, Update(room, doc, sequence, isDelete)) {
      forall other ensures InStep(next, other) {
        assert InStep(s, other);
        AuthoritativeInStepIff(s, room, doc, sequence, isDelete, other);
      }
    }
  }

  lemma {:induction false} IssueRegularIff(s: State, room: Room, payload: Payload, sent: bool)
    requires CountedOnce(s) && AllInStep(s)
    ensures AllInStep(Issued(s, room, payload, sent)) <==> Regular(s, Issue(room, payload, sent))
  {
    var next := Issued(s, room, payload, sent);
    assert InStep(s, room);
    IssueInStepIff(s, room, payload, sent, room);
    if Regular(s, Issue(room, payload, sent)) {
      forall other ensures InStep(next, other) {
        assert InStep(s, other);
        IssueInStepIff(s, room, payload, sent, other);
      }
    }
  }

  lemma AckGuards(s: State, request: Option<nat>, room: Room, doc: Doc, sequence: Option<nat>, isDelete: bool)
    ensures Regular(s, Ack(request, room, doc, sequence, isDelete))
       <==> forall other :: AckKeeps(s, request, room, doc, sequence, isDelete, other)
  {
    if forall other :: AckKeeps(s, request, room, doc, sequence, isDelete, other) {
      assert AckKeeps(s, request, room, doc, sequence, isDelete, room);
      if Requested(s, request).Some? {
        assert AckKeeps(s, request, room, doc, sequence, isDelete, Requested(s, request).value.room);
      }
    }
  }

  lemma {:induction false} AckRegularIff(
    s: State, request: Option<nat>, room: Room, doc: Doc, sequence: Option<nat>, isDelete: bool)
    requires NoRepeats(s) && AllInStep(s)
    ensures AllInStep(Acked(s, request, room, doc, sequence, isDelete))
       <==> Regular(s, Ack(request, room, doc, sequence, isDelete))
  {
    var next := Acked(s, request, room, doc, sequence, isDelete);
    forall other ensures InStep(next, other) <==> AckKeeps(s, request, room, doc, sequence, isDelete, other) {
      assert InStep(s, other);
      AckInStepIff(s, request, room, doc, sequence, isDelete, other);
    }
    AckGuards(s, request, room, doc, sequence, isDelete);
  }

  lemma ConflictGuards(s: State, request: Option<nat>, target: Option<Room>, doc: Doc, sequence: Option<nat>)
    ensures Regular(s, Conflict(request, target, doc, sequence))
       <==> forall other :: ConflictKeeps(s, request, target, doc, sequence, other)
  {
    if forall other :: ConflictKeeps(s, request, target, doc, sequence, other) {
      if RepairRoom(s, request, target, sequence).Some? {
        assert ConflictKeeps(s, request, target, doc, sequence, RepairRoom(s, request, target, sequence).value);
      }
      if Requested(s, request).Some? {
        assert ConflictKeeps(s, request, target, doc, sequence, Requested(s, request).value.room);
      }
    }
  }

  lemma {:induction false} ConflictRegularIff(
    s: State, request: Option<nat>, target: Option<Room>, doc: Doc, sequence: Option<nat>)
    requires NoRepeats(s) && AllInStep(s)
    ensures AllInStep(Conflicted(s, request, target, doc, sequence))
       <==> Regular(s, Conflict(request, target, doc, sequence))
  {
    var next := Conflicted(s, request, target, doc, sequence);
    forall other ensures InStep(next, other) <==> ConflictKeeps(s, request, target, doc, sequence, other) {
      assert InStep(s, other);
      ConflictInStepIff(s, request, target, doc, sequence, other);
    }
    ConflictGuards(s, request, target, doc, sequence);
  }

  lemma {:induction false} RefusalRegularIff(s: State, request: Option<nat>)
    requires NoRepeats(s) && AllInStep(s)
    ensures AllInStep(RejectRequest(s, request, true)) <==> Regular(s, Refusal(request))
  {
    var next := RejectRequest(s, request, true);
    if Requested(s, request).Some? {
      var other := Requested(s, request).value.room;
      assert InStep(s, other);
      RefusalInStepIff(s, request, other);
    }
    if Regular(s, Refusal(request)) {
      forall other ensures InStep(next, other) {
        assert InStep(s, other);
        RefusalInStepIff(s, request, other);
      }
    }
  }

  lemma {:induction false} CloseRegularIff(s: State, reset: bool)
    requires AllInStep(s)
    ensures AllInStep(Closed(s, reset)) <==> Regular(s, SocketClosed(reset))
  {
    if !reset {
      forall room
        ensures InStep(Closed(s, false), room) <==> (room in s.base ==> s.base[room] == ShownAfterClose(s, room))
      {
        CloseInStepIff(s, room);
      }
    }
  }

  /** The exact reach of the replica invariant: a step keeps every room in step if and only if its guard holds. */
  lemma {:induction false} StepInStepIff(s: State, e: Event)
    requires CountedOnce(s) && AllInStep(s)
    ensures AllInStep(Step(s, e)) <==> Regular(s, e)
  {
    CountedNoRepeats(s);
    match e {
      case Issue(room, payload, sent) => IssueRegularIff(s, room, payload, sent);
      case Snapshot(room, doc, sequence) => AuthoritativeRegularIff(s, room, doc, sequence, false);
      case Update(room, doc, sequence, isDelete) => AuthoritativeRegularIff(s, room, doc, sequence, isDelete);
      case Ack(request, room, doc, sequence, isDelete) => AckRegularIff(s, request, room, doc, sequence, isDelete);
      case Conflict(request, target, doc, sequence) => ConflictRegularIff(s, request, target, doc, sequence);
      case Refusal(request) => RefusalRegularIff(s, request);
      case SocketClosed(reset) => CloseRegularIff(s, reset);
      case Leave(room) =>
        forall other ensures InStep(Left(s, room), other) {
          assert InStep(s, other);
          LeaveInStep(s, room, other);
        }
      case LoadRequested(room) => assert forall other :: InStep(Step(s, e), other) <==> InStep(s, other);
      case LoadFailed(room) => assert forall other :: InStep(Step(s, e), other) <==> InStep(s, other);
    }
  }

  ghost predicate RegularRun(s: State, events: seq<Event>)
    decreases |events|
  {
    events == [] || (Regular(s, events[0]) && RegularRun(Step(s, events[0]), events[1..]))
  }

  /**
    The replica invariant: over every run of regular steps, each loaded room shows its pending mutations replayed in
    issue order on the newest accepted server document.
   */
  lemma {:induction false} RunKeepsInStep(s: State, events: seq<Event>)
    requires CountedOnce(s) && AllInStep(s) && RegularRun(s, events)
    ensures AllInStep(Run(s, events))
    decreases |events|
  {
    if events != [] {
      StepInStepIff(s, events[0]);
      StepConserves(s, events[0]);
      RunKeepsInStep(Step(s, events[0]), events[1..]);
    }
  }

  lemma EmptyInStep()
    ensures CountedOnce(EMPTY) && AllInStep(EMPTY)
  {
    forall id: nat ensures Count(EMPTY, id) == 0 {
    }
  }

  // ---------------------------------------------------------------- agreement

  /** A server that gives every document of a room its own sequence. */
  type Server = (Room, nat) -> Doc

  ghost predicate FromServer(e: Event, server: Server) {
    match e
    case Snapshot(room, doc, sequence) => sequence.Some? && doc == server(room, sequence.value)
    case Ack(_, room, doc, sequence, isDelete) =>
      sequence.Some? && EventDocument(doc, isDelete) == server(room, sequence.value)
    case Update(room, doc, sequence, isDelete) =>
      sequence.Some? && EventDocument(doc, isDelete) == server(room, sequence.value)
    case Conflict(_, target, doc, sequence) =>
      target.Some? && sequence.Some? && doc == server(target.value, sequence.value)
    case _ => true
  }

  ghost predicate GroundedIn(base: map<Room, Doc>, sequences: map<Room, nat>, server: Server) {
    forall room :: room in base ==> room in sequences && base[room] == server(room, sequences[room])
  }

  ghost predicate Grounded(s: State, server: Server) {
    GroundedIn(s.base, s.sequences, server)
  }

  lemma AuthoritativeGrounded(s: State, room: Room, doc: Doc, sequence: nat, isDelete: bool, server: Server)
    requires Grounded(s, server) && EventDocument(doc, isDelete) == server(room, sequence)
    ensures Grounded(Authoritative(s, room, doc, Some(sequence), isDelete), server)
  {
    if !Stale(s, room, Some(sequence)) {
      var after := Authoritative(s, room, doc, Some(sequence), isDelete);
      assert after.base == s.base[room := server(room, sequence)] && after.sequences == s.sequences[room := sequence];
    }
  }

  lemma AckGrounded(
    s: State, request: Option<nat>, room: Room, doc: Doc, sequence: nat, isDelete: bool, server: Server)
    requires Grounded(s, server) && EventDocument(doc, isDelete) == server(room, sequence)
    ensures Grounded(Acked(s, request, room, doc, Some(sequence), isDelete), server)
  {
    AuthoritativeGrounded(s, room, doc, sequence, isDelete, server);
    if request.Some? {
      AuthoritativeGrounded(Drop(s, request.value), room, doc, sequence, isDelete, server);
    }
  }

  lemma {:induction false} ConflictGrounded(
    s: State, request: Option<nat>, room: Room, doc: Doc, sequence: nat, server: Server)
    requires Grounded(s, server) && doc == server(room, sequence)
    ensures Grounded(Conflicted(s, request, Some(room), doc, Some(sequence)), server)
  {
    if RepairRoom(s, request, Some(room), Some(sequence)).None? {
      assert StaleRepair(s, request, Some(room)).base == s.base;
    } else {
      var repaired := Repaired(s, request, room, doc, Some(sequence));
      assert repaired.base == s.base[room := doc] && repaired.sequences == s.sequences[room := sequence];
      assert Grounded(repaired, server);
    }
  }

  lemma IssueGrounded(s: State, room: Room, payload: Payload, sent: bool)
    ensures Issued(s, room, payload, sent).base == s.base && Issued(s, room, payload, sent).sequences == s.sequences
  {
  }

  lemma StepKeepsGrounded(s: State, e: Event, server: Server)
    requires Grounded(s, server) && FromServer(e, server)
    ensures Grounded(Step(s, e), server)
  {
    match e {
      case Issue(room, payload, sent) => IssueGrounded(s, room, payload, sent);
      case Snapshot(room, doc, sequence) => AuthoritativeGrounded(s, room, doc, sequence.value, false, server);
      case Update(room, doc, sequence, isDelete) =>
        AuthoritativeGrounded(s, room, doc, sequence.value, isDelete, server);
      case Ack(request, room, doc, sequence, isDelete) =>
        AckGrounded(s, request, room, doc, sequence.value, isDelete, server);
      case Conflict(request, target, doc, sequence) =>
        ConflictGrounded(s, request, target.value, doc, sequence.value, server);
      case Refusal(request) =>
      case LoadRequested(room) =>
      case LoadFailed(room) =>
      case SocketClosed(reset) =>
      case Leave(room) =>
    }
  }

  lemma {:induction false} RunKeepsGrounded(s: State, events: seq<Event>, server: Server)
    requires Grounded(s, server) && forall e :: e in events ==> FromServer(e, server)
    ensures Grounded(Run(s, events), server)
    decreases |events|
  {
    if events != [] {
      assert events[0] in events;
      StepKeepsGrounded(s, events[0], server);
      RunKeepsGrounded(Step(s, events[0]), events[1..], server);
    }
  }

  /** Two clients of one server that stand at the same sequence with nothing pending show the same document. */
  lemma {:induction false} ClientsAgree(mine: seq<Event>, yours: seq<Event>, server: Server, room: Room)
    requires RegularRun(EMPTY, mine) && RegularRun(EMPTY, yours)
    requires forall e :: e in mine ==> FromServer(e, server)
    requires forall e :: e in yours ==> FromServer(e, server)
    requires var s, t := Run(EMPTY, mine), Run(EMPTY, yours);
             && room in s.base && room in t.base
             && PendingOf(s.pending, room) == [] && PendingOf(t.pending, room) == []
             && SequenceOf(s, room) == SequenceOf(t, room)
    ensures Previous(Run(EMPTY, mine), room) == Previous(Run(EMPTY, yours), room)
         == server(room, SequenceOf(Run(EMPTY, mine), room))
  {
    EmptyInStep();
    RunKeepsInStep(EMPTY, mine);
    RunKeepsInStep(EMPTY, yours);
    assert Grounded(EMPTY, server);
    RunKeepsGrounded(EMPTY, mine, server);
    RunKeepsGrounded(EMPTY, yours, server);
    assert InStep(Run(EMPTY, mine), room) && InStep(Run(EMPTY, yours), room);
  }
}
