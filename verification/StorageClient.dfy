/** The client object: the maps it keeps for storage and the handlers that update them. */
module StorageClient {
  import opened Wrappers
  import opened JsonPointer
  import opened Json
  import opened JsonPatch
  import opened StorageReplica

  class OpenRTCClient {
    var storageByRoom: map<Room, Doc>
    var storageStatusByRoom: map<Room, Status>
    var storageSequenceByRoom: map<Room, nat>
    var pendingStorageMutations: seq<Mutation>
    var settlements: seq<Settlement>
    var requestCounter: nat
    ghost var accepted: map<Room, Doc>

    ghost function Now(): State
      reads this
    {
      State(storageByRoom, storageStatusByRoom, storageSequenceByRoom, pendingStorageMutations, settlements,
            requestCounter, accepted)
    }

    constructor ()
      ensures Now() == EMPTY
    {
      storageByRoom, storageStatusByRoom, storageSequenceByRoom := map[], map[], map[];
      pendingStorageMutations, settlements, requestCounter := [], [], 0;
      accepted := map[];
    }

    method SetStorageStatus(room: Room, status: Status)
      modifies this`storageStatusByRoom
      ensures Now() == SetStatus(old(Now()), room, status)
    {
      if status.NotLoaded? {
        storageStatusByRoom := storageStatusByRoom - {room};
      } else {
        storageStatusByRoom := storageStatusByRoom[room := status];
      }
    }

    method SettlePromise(id: nat, outcome: Outcome)
      modifies this`settlements
      ensures Now() == Settle(old(Now()), id, outcome)
    {
      settlements := settlements + [Settlement(id, outcome)];
    }

    method RefreshStorageStatus(room: Room)
      modifies this`storageStatusByRoom
      ensures Now() == Refresh(old(Now()), room)
    {
      if |PendingOf(pendingStorageMutations, room)| > 0 {
        SetStorageStatus(room, Synchronizing);
        return;
      }
      SetStorageStatus(room, if room in storageByRoom then Synchronized else NotLoaded);
    }

    /** One pending mutation on a document: `applyPendingStorageMutation` with its loop over operations. */
    method ApplyPending(document: Doc, payload: Payload) returns (r: Result<Doc, Error>)
      ensures r == Effect(document, payload)
    {
      if payload.SetTo? {
        return Ok(Defined(payload.document));
      }
      var operations := payload.operations;
      var next := document;
      for i := 0 to |operations|
        invariant ApplyDoc(document, operations) == ApplyDoc(next, operations[i..])
      {
        assert operations[i..][1..] == operations[i + 1..];
        var step := StepDoc(next, operations[i]);
        if step.Err? {
          return Err(step.error);
        }
        next := step.value;
      }
      return Ok(next);
    }

    /** `reapplyPendingStorageMutations`: replays in issue order and stops at the first mutation that fails. */
    method ReapplyPendingStorageMutations(room: Room, baseDocument: Doc)
      modifies this
      ensures Now() == Reapply(old(Now()), room, baseDocument)
    {
      var pending := PendingOf(pendingStorageMutations, room);
      if |pending| == 0 {
        return;
      }
      var document := baseDocument;
      for i := 0 to |pending|
        invariant Now() == old(Now())
        invariant ReplayOn(baseDocument, pending) == ReplayOn(document, pending[i..])
      {
        assert pending[i..][1..] == pending[i + 1..];
        var result := ApplyPending(document, pending[i].payload);
        if result.Err? {
          pendingStorageMutations := WithoutId(pendingStorageMutations, pending[i].id);
          SettlePromise(pending[i].id, Rejected);
          SetStorageStatus(room, Failed);
          return;
        }
        document := result.value;
      }
      storageByRoom := storageByRoom[room := document];
      SetStorageStatus(room, Synchronizing);
    }

    method AdoptDocument(room: Room, document: Doc, isDelete: bool)
      modifies this
      ensures Now() == Adopt(old(Now()), room, document, isDelete)
    {
      if isDelete && document.Undefined? {
        storageByRoom := storageByRoom - {room};
      } else {
        storageByRoom := storageByRoom[room := document];
      }
      accepted := accepted[room := document];
      SetStorageStatus(room, Synchronized);
      ReapplyPendingStorageMutations(room, document);
    }

    /** `applyAuthoritativeStorageMessage` */
    method ApplyAuthoritative(room: Room, document: Doc, sequence: Option<nat>, isDelete: bool) returns (applied: bool)
      modifies this
      ensures Now() == Authoritative(old(Now()), room, document, sequence, isDelete)
      ensures applied <==> !Stale(old(Now()), room, sequence)
    {
      if sequence.Some? {
        var previousSequence := if room in storageSequenceByRoom then storageSequenceByRoom[room] else 0;
        if sequence.value <= previousSequence {
          RefreshStorageStatus(room);
          return false;
        }
        storageSequenceByRoom := storageSequenceByRoom[room := sequence.value];
      }
      AdoptDocument(room, EventDocument(document, isDelete), isDelete);
      return true;
    }

    method RollbackStorageMutation(mutation: Mutation)
      modifies this
      ensures Now() == Rollback(old(Now()), mutation)
    {
      if mutation.hadPrevious {
        storageByRoom := storageByRoom[mutation.room := mutation.previous];
        SetStorageStatus(mutation.room, Failed);
        ReapplyPendingStorageMutations(mutation.room, mutation.previous);
        return;
      }
      storageByRoom := storageByRoom - {mutation.room};
      SetStorageStatus(mutation.room, Failed);
      ReapplyPendingStorageMutations(mutation.room, Undefined);
    }

    /** `mutateStorage`; `sent` says whether the socket takes the message. */
    method MutateStorage(room: Room, payload: Payload, sent: bool)
      modifies this
      ensures Now() == Issued(old(Now()), room, payload, sent)
    {
      var id := requestCounter;
      requestCounter := requestCounter + 1;
      var hadPrevious := room in storageByRoom;
      var previous := if hadPrevious then storageByRoom[room] else Undefined;
      var mutation := Mutation(id, room, payload, hadPrevious, previous);
      var optimistic := ApplyPending(previous, payload);
      if (payload.SetTo? || hadPrevious) && optimistic.Err? {
        SettlePromise(id, Rejected);
        return;
      }
      pendingStorageMutations := pendingStorageMutations + [mutation];
      if payload.SetTo? || hadPrevious {
        storageByRoom := storageByRoom[room := optimistic.value];
      }
      SetStorageStatus(room, Synchronizing);
      assert Now() == Queued(old(Now()), room, payload);
      if !sent {
        pendingStorageMutations := WithoutId(pendingStorageMutations, id);
        RollbackStorageMutation(mutation);
        SettlePromise(id, Rejected);
      }
    }

    method HandleStorageAck(request: Option<nat>, room: Room, document: Doc, sequence: Option<nat>, isDelete: bool)
      modifies this
      ensures Now() == Acked(old(Now()), request, room, document, sequence, isDelete)
    {
      var pending := if request.Some? then Find(pendingStorageMutations, request.value) else None;
      if pending.Some? {
        pendingStorageMutations := WithoutId(pendingStorageMutations, request.value);
      }
      var applied := ApplyAuthoritative(room, document, sequence, isDelete);
      if pending.Some? {
        SettlePromise(request.value, Resolved(document));
      }
    }

    /** STORAGE_SNAPSHOT, and STORAGE_UPDATE with its delete kind. */
    method HandleStorageDocument(room: Room, document: Doc, sequence: Option<nat>, isDelete: bool)
      modifies this
      ensures Now() == Step(old(Now()), Update(room, document, sequence, isDelete))
      ensures !isDelete ==> Now() == Step(old(Now()), Snapshot(room, document, sequence))
    {
      var applied := ApplyAuthoritative(room, document, sequence, isDelete);
    }

    method RejectStorageRequest(request: Option<nat>, rollback: bool)
      modifies this
      ensures Now() == RejectRequest(old(Now()), request, rollback)
    {
      if request.None? {
        return;
      }
      var found := Find(pendingStorageMutations, request.value);
      if found.None? {
        return;
      }
      pendingStorageMutations := WithoutId(pendingStorageMutations, found.value.id);
      if rollback {
        RollbackStorageMutation(found.value);
      } else {
        RefreshStorageStatus(found.value.room);
      }
      SettlePromise(found.value.id, Rejected);
    }

    /** `applyStorageConflictRepair`: says whether the document was taken; the excluded mutation goes back last. */
    method ApplyConflictRepair(request: Option<nat>, target: Option<Room>, document: Doc, sequence: Option<nat>)
      returns (repaired: bool)
      modifies this
      ensures repaired <==> RepairRoom(old(Now()), request, target, sequence).Some?
      ensures Now() == match RepairRoom(old(Now()), request, target, sequence)
                       case Some(room) => Repaired(old(Now()), request, room, document, sequence)
                       case None => StaleRepair(old(Now()), request, target)
    {
      var excluded := if request.Some? then Find(pendingStorageMutations, request.value) else None;
      if target.None? && excluded.None? {
        return false;
      }
      var room := if target.Some? then target.value else excluded.value.room;
      if sequence.Some? {
        var previousSequence := if room in storageSequenceByRoom then storageSequenceByRoom[room] else 0;
        if sequence.value < previousSequence {
          RefreshStorageStatus(room);
          return false;
        }
        storageSequenceByRoom := storageSequenceByRoom[room := sequence.value];
      }
      if excluded.Some? {
        pendingStorageMutations := WithoutId(pendingStorageMutations, request.value);
      }
      AdoptDocument(room, document, false);
      if excluded.Some? {
        pendingStorageMutations := pendingStorageMutations + [excluded.value];
      }
      return true;
    }

    /** ERROR with code STORAGE_CONFLICT and a document: the repair, then the refusal. */
    method HandleConflict(request: Option<nat>, target: Option<Room>, document: Doc, sequence: Option<nat>)
      modifies this
      ensures Now() == Conflicted(old(Now()), request, target, document, sequence)
    {
      var repaired := ApplyConflictRepair(request, target, document, sequence);
      RejectStorageRequest(request, !repaired);
    }

    /** `handleSocketClosed` and `close`: `rejectPendingStorage`, then `resetRooms` when nothing is preserved. */
    method HandleSocketClosed(reset: bool)
      modifies this
      ensures Now() == Closed(old(Now()), reset)
    {
      var mutations := pendingStorageMutations;
      pendingStorageMutations := [];
      ghost var emptied := Now();
      for i := 0 to |mutations|
        invariant RejectAll(emptied, mutations) == RejectAll(Now(), mutations[i..])
      {
        assert mutations[i..][1..] == mutations[i + 1..];
        RollbackStorageMutation(mutations[i]);
        SettlePromise(mutations[i].id, Rejected);
      }
      if reset {
        storageByRoom, storageStatusByRoom, storageSequenceByRoom := map[], map[], map[];
        accepted := map[];
      }
    }

    /** The storage part of `leave`. */
    method LeaveRoom(room: Room)
      modifies this
      ensures Now() == Left(old(Now()), room)
    {
      var leaving := PendingOf(pendingStorageMutations, room);
      storageByRoom := storageByRoom - {room};
      storageSequenceByRoom := storageSequenceByRoom - {room};
      accepted := accepted - {room};
      pendingStorageMutations := WithoutRoom(pendingStorageMutations, room);
      ghost var reset := Now();
      for i := 0 to |leaving|
        invariant SettleAll(reset, leaving) == SettleAll(Now(), leaving[i..])
      {
        assert leaving[i..][1..] == leaving[i + 1..];
        SettlePromise(leaving[i].id, Rejected);
      }
      SetStorageStatus(room, NotLoaded);
    }
  }
}
