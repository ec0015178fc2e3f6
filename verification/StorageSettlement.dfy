/** What holds of every run of the replica, however it goes: settlement, status and sequences. */
module StorageSettlement {
  import opened Wrappers
  import opened StorageReplica

  // ---------------------------------------------------------------- settlement is conserved

  function InPending(pending: seq<Mutation>, id: nat): nat {
    if pending == [] then 0 else (if pending[0].id == id then 1 else 0) + InPending(pending[1..], id)
  }

  function InSettled(settled: seq<Settlement>, id: nat): nat
    decreases |settled|
  {
    if settled == [] then 0 else InSettled(Init(settled), id) + (if Last(settled).id == id then 1 else 0)
  }

  /** How often the state knows of a mutation, pending or settled. */
  function Count(s: State, id: nat): nat {
    InPending(s.pending, id) + InSettled(s.settled, id)
  }

  ghost predicate CountedOnce(s: State) {
    forall id: nat {:trigger Count(s, id)} :: Count(s, id) == if id < s.counter then 1 else 0
  }

  lemma {:induction false} InPendingSnoc(pending: seq<Mutation>, m: Mutation, id: nat)
    ensures InPending(pending + [m], id) == InPending(pending, id) + (if m.id == id then 1 else 0)
  {
    if pending == [] {
      assert pending + [m] == [m];
    } else {
      assert (pending + [m])[1..] == pending[1..] + [m];
      InPendingSnoc(pending[1..], m, id);
    }
  }

  lemma {:induction false} InPendingMember(pending: seq<Mutation>, m: Mutation)
    requires m in pending
    ensures InPending(pending, m.id) >= 1
  {
    if pending[0] != m {
      InPendingMember(pending[1..], m);
    }
  }

  lemma {:induction false} InPendingWithout(pending: seq<Mutation>, dropped: nat, id: nat)
    ensures InPending(WithoutId(pending, dropped), id) == if id == dropped then 0 else InPending(pending, id)
  {
    if pending != [] {
      InPendingWithout(pending[1..], dropped, id);
    }
  }

  lemma {:induction false} InPendingByRoom(pending: seq<Mutation>, room: Room, id: nat)
    ensures InPending(pending, id)
         == InPending(WithoutRoom(pending, room), id) + InPending(PendingOf(pending, room), id)
  {
    if pending != [] {
      InPendingByRoom(pending[1..], room, id);
    }
  }

  lemma {:induction false} PendingOfIn(pending: seq<Mutation>, room: Room)
    ensures forall m :: m in PendingOf(pending, room) ==> m in pending && m.room == room
  {
    if pending != [] {
      PendingOfIn(pending[1..], room);
    }
  }

  lemma {:induction false} ReplayFailsAtPending(doc: Doc, pending: seq<Mutation>)
    ensures ReplayOn(doc, pending).FailedAt? ==> ReplayOn(doc, pending).mutation in pending
    decreases |pending|
  {
    if pending != [] && Effect(doc, pending[0].payload).Ok? {
      ReplayFailsAtPending(Effect(doc, pending[0].payload).value, pending[1..]);
    }
  }

  /** Dropping a known mutation and settling it, whatever happens between, counts it as often as before. */
  lemma DropCounts(s: State, m: Mutation, id: nat)
    requires Count(s, id) <= 1 && m in s.pending
    ensures Count(Drop(s, m.id), id) == Count(s, id) - (if m.id == id then 1 else 0)
  {
    InPendingMember(s.pending, m);
    InPendingWithout(s.pending, m.id, id);
  }

  lemma SettleCounts(s: State, settled: nat, outcome: Outcome, id: nat)
    ensures Count(Settle(s, settled, outcome), id) == Count(s, id) + (if settled == id then 1 else 0)
  {
    assert Init(s.settled + [Settlement(settled, outcome)]) == s.settled;
  }

  lemma ReapplyCounts(s: State, room: Room, doc: Doc, id: nat)
    requires Count(s, id) <= 1
    ensures Count(Reapply(s, room, doc), id) == Count(s, id)
    ensures s.pending == [] ==> Reapply(s, room, doc) == s
  {
    var pending := PendingOf(s.pending, room);
    PendingOfIn(s.pending, room);
    ReplayFailsAtPending(doc, pending);
    if pending != [] && ReplayOn(doc, pending).FailedAt? {
      var m := ReplayOn(doc, pending).mutation;
      DropCounts(s, m, id);
      SettleCounts(Drop(s, m.id), m.id, Rejected, id);
    }
  }

  lemma AdoptCounts(s: State, room: Room, doc: Doc, isDelete: bool, id: nat)
    requires Count(s, id) <= 1
    ensures Count(Adopt(s, room, doc, isDelete), id) == Count(s, id)
  {
    var stored := s.(
      docs := if isDelete && doc.Undefined? then s.docs - {room} else s.docs[room := doc],
      base := s.base[room := doc]);
    ReapplyCounts(SetStatus(stored, room, Synchronized), room, doc, id);
  }

  lemma AuthoritativeCounts(s: State, room: Room, doc: Doc, sequence: Option<nat>, isDelete: bool, id: nat)
    requires Count(s, id) <= 1
    ensures Count(Authoritative(s, room, doc, sequence, isDelete), id) == Count(s, id)
    ensures Authoritative(s, room, doc, sequence, isDelete).counter == s.counter
  {
    if !Stale(s, room, sequence) {
      AdoptCounts(Sequenced(s, room, sequence), room, EventDocument(doc, isDelete), isDelete, id);
    }
  }

  lemma RollbackCounts(s: State, m: Mutation, id: nat)
    requires Count(s, id) <= 1
    ensures Count(Rollback(s, m), id) == Count(s, id)
    ensures s.pending == [] ==> Rollback(s, m).pending == []
  {
    var rolled := s.(docs := if m.hadPrevious then s.docs[m.room := m.previous] else s.docs - {m.room});
    ReapplyCounts(SetStatus(rolled, m.room, Failed), m.room, if m.hadPrevious then m.previous else Undefined, id);
  }

  lemma RolledBackCounts(s: State, m: Mutation, id: nat)
    requires Count(s, id) <= 1 && m in s.pending
    ensures Count(RolledBack(s, m), id) == Count(s, id)
  {
    DropCounts(s, m, id);
    RollbackCounts(Drop(s, m.id), m, id);
    SettleCounts(Rollback(Drop(s, m.id), m), m.id, Rejected, id);
  }

  lemma RefusedCounts(s: State, m: Mutation, id: nat)
    requires Count(s, id) <= 1 && m in s.pending
    ensures Count(Settle(Refresh(Drop(s, m.id), m.room), m.id, Rejected), id) == Count(s, id)
  {
    DropCounts(s, m, id);
    var refreshed := Refresh(Drop(s, m.id), m.room);
    assert refreshed.pending == Drop(s, m.id).pending && refreshed.settled == s.settled;
    SettleCounts(refreshed, m.id, Rejected, id);
  }

  lemma RejectCounts(s: State, request: Option<nat>, rollback: bool, id: nat)
    requires Count(s, id) <= 1
    ensures Count(RejectRequest(s, request, rollback), id) == Count(s, id)
  {
    if request.Some? && Find(s.pending, request.value).Some? {
      var m := Find(s.pending, request.value).value;
      if rollback {
        RolledBackCounts(s, m, id);
      } else {
        RefusedCounts(s, m, id);
      }
    }
  }

  lemma {:induction false} IssueCounts(s: State, room: Room, payload: Payload, sent: bool, id: nat)
    requires Count(s, id) <= 1 && (id == s.counter ==> Count(s, id) == 0)
    ensures Count(Issued(s, room, payload, sent), id) == Count(s, id) + (if id == s.counter then 1 else 0)
    ensures Issued(s, room, payload, sent).counter == s.counter + 1
  {
    if Shows(s, room, payload) && Effect(Previous(s, room), payload).Err? {
      SettleCounts(s.(counter := s.counter + 1), s.counter, Rejected, id);
    } else {
      InPendingSnoc(s.pending, NewMutation(s, room, payload), id);
      if !sent {
        RolledBackCounts(Queued(s, room, payload), NewMutation(s, room, payload), id);
      }
    }
  }

  lemma AckCounts(
    s: State, request: Option<nat>, room: Room, doc: Doc, sequence: Option<nat>, isDelete: bool, id: nat)
    requires Count(s, id) <= 1
    ensures Count(Acked(s, request, room, doc, sequence, isDelete), id) == Count(s, id)
    ensures Acked(s, request, room, doc, sequence, isDelete).counter == s.counter
  {
    if request.Some? && Find(s.pending, request.value).Some? {
      DropCounts(s, Find(s.pending, request.value).value, id);
      AuthoritativeCounts(Drop(s, request.value), room, doc, sequence, isDelete, id);
      SettleCounts(Authoritative(Drop(s, request.value), room, doc, sequence, isDelete),
                   request.value, Resolved(doc), id);
    } else {
      AuthoritativeCounts(s, room, doc, sequence, isDelete, id);
    }
  }

  lemma RepairedCounts(s: State, request: Option<nat>, room: Room, doc: Doc, sequence: Option<nat>, id: nat)
    requires Count(s, id) <= 1
    ensures Count(Repaired(s, request, room, doc, sequence), id) == Count(s, id)
    ensures Repaired(s, request, room, doc, sequence).counter == s.counter
  {
    var excluded := if request.Some? then Find(s.pending, request.value) else None;
    if excluded.Some? {
      var aside := Drop(s, excluded.value.id);
      DropCounts(s, excluded.value, id);
      AdoptCounts(Sequenced(aside, room, sequence), room, doc, false, id);
      InPendingSnoc(Adopt(Sequenced(aside, room, sequence), room, doc, false).pending, excluded.value, id);
    } else {
      AdoptCounts(Sequenced(s, room, sequence), room, doc, false, id);
    }
  }

  lemma ConflictCounts(
    s: State, request: Option<nat>, target: Option<Room>, doc: Doc, sequence: Option<nat>, id: nat)
    requires Count(s, id) <= 1
    ensures Count(Conflicted(s, request, target, doc, sequence), id) == Count(s, id)
    ensures Conflicted(s, request, target, doc, sequence).counter == s.counter
  {
    match RepairRoom(s, request, target, sequence)
    case None =>
      assert StaleRepair(s, request, target).(status := s.status) == s;
      RejectCounts(StaleRepair(s, request, target), request, true, id);
    case Some(room) =>
      RepairedCounts(s, request, room, doc, sequence, id);
      RejectCounts(Repaired(s, request, room, doc, sequence), request, false, id);
  }

  lemma {:induction false} RejectAllCounts(s: State, mutations: seq<Mutation>, id: nat)
    requires s.pending == [] && Count(s, id) + InPending(mutations, id) <= 1
    ensures Count(RejectAll(s, mutations), id) == Count(s, id) + InPending(mutations, id)
    ensures RejectAll(s, mutations).pending == []
    decreases |mutations|
  {
    if mutations != [] {
      var m := mutations[0];
      RollbackCounts(s, m, id);
      SettleCounts(Rollback(s, m), m.id, Rejected, id);
      RejectAllCounts(Settle(Rollback(s, m), m.id, Rejected), mutations[1..], id);
    }
  }

  lemma {:induction false} SettleAllCounts(s: State, mutations: seq<Mutation>, id: nat)
    ensures Count(SettleAll(s, mutations), id) == Count(s, id) + InPending(mutations, id)
    decreases |mutations|
  {
    if mutations != [] {
      SettleCounts(s, mutations[0].id, Rejected, id);
      SettleAllCounts(Settle(s, mutations[0].id, Rejected), mutations[1..], id);
    }
  }

  lemma LeaveCounts(s: State, room: Room, id: nat)
    ensures Count(Left(s, room), id) == Count(s, id) && Left(s, room).counter == s.counter
  {
    InPendingByRoom(s.pending, room, id);
    var reset := s.(docs := s.docs - {room}, sequences := s.sequences - {room}, base := s.base - {room},
                    pending := WithoutRoom(s.pending, room));
    SettleAllCounts(reset, PendingOf(s.pending, room), id);
  }

  function IssuedBy(e: Event): nat {
    if e.Issue? then 1 else 0
  }

  lemma StepCounts(s: State, e: Event, id: nat)
    requires Count(s, id) == if id < s.counter then 1 else 0
    ensures Count(Step(s, e), id) == if id < s.counter + IssuedBy(e) then 1 else 0
    ensures Step(s, e).counter == s.counter + IssuedBy(e)
  {
    match e {
      case Issue(room, payload, sent) => IssueCounts(s, room, payload, sent, id);
      case Snapshot(room, doc, sequence) => AuthoritativeCounts(s, room, doc, sequence, false, id);
      case Ack(request, room, doc, sequence, isDelete) => AckCounts(s, request, room, doc, sequence, isDelete, id);
      case Update(room, doc, sequence, isDelete) => AuthoritativeCounts(s, room, doc, sequence, isDelete, id);
      case Conflict(request, target, doc, sequence) => ConflictCounts(s, request, target, doc, sequence, id);
      case Refusal(request) => RejectCounts(s, request, true, id);
      case LoadRequested(room) =>
      case LoadFailed(room) =>
      case SocketClosed(reset) => RejectAllCounts(s.(pending := []), s.pending, id);
      case Leave(room) => LeaveCounts(s, room, id);
    }
  }

  lemma StepConserves(s: State, e: Event)
    requires CountedOnce(s)
    ensures CountedOnce(Step(s, e))
  {
    var next := Step(s, e);
    forall id: nat ensures Count(next, id) == if id < next.counter then 1 else 0 {
      assert Count(s, id) == if id < s.counter then 1 else 0;
      StepCounts(s, e, id);
    }
  }

  lemma {:induction false} RunConserves(s: State, events: seq<Event>)
    requires CountedOnce(s)
    ensures CountedOnce(Run(s, events))
    decreases |events|
  {
    if events != [] {
      StepConserves(s, events[0]);
      RunConserves(Step(s, events[0]), events[1..]);
    }
  }

  /** In every run, a mutation once issued is either pending or settled, and settled once only. */
  lemma EveryMutationIsAccountedFor(events: seq<Event>, id: nat)
    ensures var s := Run(EMPTY, events);
            InPending(s.pending, id) + InSettled(s.settled, id) == if id < s.counter then 1 else 0
  {
    assert CountedOnce(EMPTY) by {
      forall id: nat ensures Count(EMPTY, id) == 0 {
      }
    }
    RunConserves(EMPTY, events);
    assert Count(Run(EMPTY, events), id) == if id < Run(EMPTY, events).counter then 1 else 0;
  }

  // ---------------------------------------------------------------- status

  /** A room shown as synchronized has nothing pending. */
  ghost predicate StatusSafe(s: State) {
    forall room :: StatusOf(s, room).Synchronized? ==> PendingOf(s.pending, room) == []
  }

  lemma {:induction false} WithoutIdKeepsEmpty(pending: seq<Mutation>, id: nat, room: Room)
    requires PendingOf(pending, room) == []
    ensures PendingOf(WithoutId(pending, id), room) == []
  {
    if pending != [] {
      WithoutIdKeepsEmpty(pending[1..], id, room);
    }
  }

  lemma {:induction false} PendingOfAppend(first: seq<Mutation>, second: seq<Mutation>, room: Room)
    ensures PendingOf(first + second, room) == PendingOf(first, room) + PendingOf(second, room)
  {
    if first == [] {
      assert first + second == second;
    } else {
      assert (first + second)[1..] == first[1..] + second;
      PendingOfAppend(first[1..], second, room);
    }
  }

  lemma {:induction false} PendingOfWithoutRoom(pending: seq<Mutation>, room: Room, other: Room)
    ensures PendingOf(WithoutRoom(pending, room), other) == if other == room then [] else PendingOf(pending, other)
  {
    if pending != [] {
      PendingOfWithoutRoom(pending[1..], room, other);
      var rest := WithoutRoom(pending[1..], room);
      assert pending[0].room != room ==> ([pending[0]] + rest)[1..] == rest;
    }
  }

  lemma DropKeepsSafe(s: State, id: nat)
    requires StatusSafe(s)
    ensures StatusSafe(Drop(s, id))
  {
    forall room | StatusOf(s, room).Synchronized? ensures PendingOf(Drop(s, id).pending, room) == [] {
      WithoutIdKeepsEmpty(s.pending, id, room);
    }
  }

  /** Safe everywhere but perhaps in one room. */
  ghost predicate SafeElsewhere(s: State, room: Room) {
    forall other :: other != room && StatusOf(s, other).Synchronized? ==> PendingOf(s.pending, other) == []
  }

  lemma ReapplyMakesSafe(s: State, room: Room, doc: Doc)
    requires SafeElsewhere(s, room) && (StatusOf(s, room).Synchronized? || StatusOf(s, room).Failed?)
    ensures StatusSafe(Reapply(s, room, doc))
  {
    var pending := PendingOf(s.pending, room);
    if pending != [] && ReplayOn(doc, pending).FailedAt? {
      var m := ReplayOn(doc, pending).mutation;
      forall other | other != room && StatusOf(s, other).Synchronized?
        ensures PendingOf(WithoutId(s.pending, m.id), other) == []
      {
        WithoutIdKeepsEmpty(s.pending, m.id, other);
      }
    }
  }

  lemma AdoptMakesSafe(s: State, room: Room, doc: Doc, isDelete: bool)
    requires SafeElsewhere(s, room)
    ensures StatusSafe(Adopt(s, room, doc, isDelete))
  {
    var stored := s.(
      docs := if isDelete && doc.Undefined? then s.docs - {room} else s.docs[room := doc],
      base := s.base[room := doc]);
    ReapplyMakesSafe(SetStatus(stored, room, Synchronized), room, doc);
  }

  lemma AuthoritativeKeepsSafe(s: State, room: Room, doc: Doc, sequence: Option<nat>, isDelete: bool)
    requires StatusSafe(s)
    ensures StatusSafe(Authoritative(s, room, doc, sequence, isDelete))
  {
    if !Stale(s, room, sequence) {
      AdoptMakesSafe(Sequenced(s, room, sequence), room, EventDocument(doc, isDelete), isDelete);
    }
  }

  lemma RollbackMakesSafe(s: State, m: Mutation)
    requires SafeElsewhere(s, m.room)
    ensures StatusSafe(Rollback(s, m))
  {
    var rolled := s.(docs := if m.hadPrevious then s.docs[m.room := m.previous] else s.docs - {m.room});
    ReapplyMakesSafe(SetStatus(rolled, m.room, Failed), m.room, if m.hadPrevious then m.previous else Undefined);
  }

  lemma RolledBackMakesSafe(s: State, m: Mutation)
    requires StatusSafe(s)
    ensures StatusSafe(RolledBack(s, m))
  {
    DropKeepsSafe(s, m.id);
    RollbackMakesSafe(Drop(s, m.id), m);
  }

  lemma RejectKeepsSafe(s: State, request: Option<nat>, rollback: bool)
    requires StatusSafe(s)
    ensures StatusSafe(RejectRequest(s, request, rollback))
  {
    if request.Some? && Find(s.pending, request.value).Some? {
      var m := Find(s.pending, request.value).value;
      DropKeepsSafe(s, m.id);
      RolledBackMakesSafe(s, m);
    }
  }

  lemma IssueKeepsSafe(s: State, room: Room, payload: Payload, sent: bool)
    requires StatusSafe(s)
    ensures StatusSafe(Issued(s, room, payload, sent))
  {
    var m := NewMutation(s, room, payload);
    var queued := Queued(s, room, payload);
    forall other | StatusOf(queued, other).Synchronized? ensures PendingOf(queued.pending, other) == [] {
      PendingOfAppend(s.pending, [m], other);
      assert StatusOf(s, other).Synchronized? && other != room;
      assert PendingOf([m], other) == [];
    }
    RolledBackMakesSafe(queued, m);
  }

  /** The refused mutation is back among the pending ones, under a synchronized status, only inside the step. */
  lemma {:induction false} ConflictKeepsSafe(
    s: State, request: Option<nat>, target: Option<Room>, doc: Doc, sequence: Option<nat>)
    requires StatusSafe(s)
    ensures StatusSafe(Conflicted(s, request, target, doc, sequence))
  {
    match RepairRoom(s, request, target, sequence)
    case None => RejectKeepsSafe(StaleRepair(s, request, target), request, true);
    case Some(room) =>
      var excluded := if request.Some? then Find(s.pending, request.value) else None;
      if excluded.Some? {
        DropKeepsSafe(s, excluded.value.id);
        var aside := Sequenced(Drop(s, excluded.value.id), room, sequence);
        AdoptMakesSafe(aside, room, doc, false);
        ReturnedIsRejected(Adopt(aside, room, doc, false), excluded.value);
      } else {
        AdoptMakesSafe(Sequenced(s, room, sequence), room, doc, false);
        RejectKeepsSafe(Adopt(Sequenced(s, room, sequence), room, doc, false), request, false);
      }
  }

  lemma ReturnedIsRejected(adopted: State, m: Mutation)
    requires StatusSafe(adopted)
    ensures StatusSafe(RejectRequest(adopted.(pending := adopted.pending + [m]), Some(m.id), false))
  {
    var back := adopted.(pending := adopted.pending + [m]);
    FindAppended(adopted.pending, m);
    var found := Find(back.pending, m.id).value;
    WithoutIdAppend(adopted.pending, m);
    DropKeepsSafe(adopted, m.id);
    assert Drop(back, found.id) == Drop(adopted, m.id);
  }

  lemma {:induction false} WithoutIdAppend(pending: seq<Mutation>, m: Mutation)
    ensures WithoutId(pending + [m], m.id) == WithoutId(pending, m.id)
  {
    if pending == [] {
      assert pending + [m] == [m];
    } else {
      assert (pending + [m])[1..] == pending[1..] + [m];
      WithoutIdAppend(pending[1..], m);
    }
  }

  lemma FindAppended(pending: seq<Mutation>, m: Mutation)
    ensures Find(pending + [m], m.id).Some?
  {
    assert (pending + [m])[|pending|] == m;
  }

  lemma {:induction false} RejectAllMakesSafe(s: State, mutations: seq<Mutation>)
    requires s.pending == []
    ensures RejectAll(s, mutations).pending == []
    decreases |mutations|
  {
    if mutations != [] {
      assert Rollback(s, mutations[0]).pending == [];
      RejectAllMakesSafe(Settle(Rollback(s, mutations[0]), mutations[0].id, Rejected), mutations[1..]);
    }
  }

  lemma StepKeepsSafe(s: State, e: Event)
    requires StatusSafe(s)
    ensures StatusSafe(Step(s, e))
  {
    match e {
      case Issue(room, payload, sent) => IssueKeepsSafe(s, room, payload, sent);
      case Snapshot(room, doc, sequence) => AuthoritativeKeepsSafe(s, room, doc, sequence, false);
      case Ack(request, room, doc, sequence, isDelete) =>
        if request.Some? {
          DropKeepsSafe(s, request.value);
          AuthoritativeKeepsSafe(Drop(s, request.value), room, doc, sequence, isDelete);
        }
        AuthoritativeKeepsSafe(s, room, doc, sequence, isDelete);
      case Update(room, doc, sequence, isDelete) => AuthoritativeKeepsSafe(s, room, doc, sequence, isDelete);
      case Conflict(request, target, doc, sequence) => ConflictKeepsSafe(s, request, target, doc, sequence);
      case Refusal(request) => RejectKeepsSafe(s, request, true);
      case LoadRequested(room) =>
      case LoadFailed(room) =>
      case SocketClosed(reset) => RejectAllMakesSafe(s.(pending := []), s.pending);
      case Leave(room) =>
        forall other
          ensures PendingOf(WithoutRoom(s.pending, room), other)
               == if other == room then [] else PendingOf(s.pending, other)
        {
          PendingOfWithoutRoom(s.pending, room, other);
        }
    }
  }

  /** After every step of every run, a room shown as synchronized has nothing pending. */
  lemma {:induction false} RunKeepsStatusSafe(s: State, events: seq<Event>)
    requires StatusSafe(s)
    ensures StatusSafe(Run(s, events))
    decreases |events|
  {
    if events != [] {
      StepKeepsSafe(s, events[0]);
      RunKeepsStatusSafe(Step(s, events[0]), events[1..]);
    }
  }

  // ---------------------------------------------------------------- sequences

  predicate Resets(e: Event, room: Room) {
    e == Leave(room) || e == SocketClosed(true)
  }

  lemma {:induction false} ConflictSequence(
    s: State, request: Option<nat>, target: Option<Room>, doc: Doc, sequence: Option<nat>, room: Room)
    ensures SequenceOf(Conflicted(s, request, target, doc, sequence), room) >= SequenceOf(s, room)
  {
    match RepairRoom(s, request, target, sequence)
    case None => assert RejectRequest(StaleRepair(s, request, target), request, true).sequences == s.sequences;
    case Some(repaired) =>
      var taken := Repaired(s, request, repaired, doc, sequence);
      assert RejectRequest(taken, request, false).sequences == Sequenced(s, repaired, sequence).sequences;
  }

  lemma SequenceNeverDecreases(s: State, e: Event, room: Room)
    requires !Resets(e, room)
    ensures SequenceOf(Step(s, e), room) >= SequenceOf(s, room)
  {
    match e {
      case Issue(messageRoom, payload, sent) => assert Issued(s, messageRoom, payload, sent).sequences == s.sequences;
      case Conflict(request, target, doc, sequence) => ConflictSequence(s, request, target, doc, sequence, room);
      case Ack(request, messageRoom, doc, sequence, isDelete) =>
        AckSequence(s, request, messageRoom, doc, sequence, isDelete, room);
      case Snapshot(messageRoom, doc, sequence) => AuthoritativeSequence(s, messageRoom, doc, sequence, false, room);
      case Update(messageRoom, doc, sequence, isDelete) =>
        AuthoritativeSequence(s, messageRoom, doc, sequence, isDelete, room);
      case _ =>
    }
  }

  lemma AuthoritativeSequence(
    s: State, messageRoom: Room, doc: Doc, sequence: Option<nat>, isDelete: bool, room: Room)
    ensures SequenceOf(Authoritative(s, messageRoom, doc, sequence, isDelete), room) >= SequenceOf(s, room)
  {
    var sequenced := Sequenced(s, messageRoom, sequence);
    assert Stale(s, messageRoom, sequence) || SequenceOf(sequenced, room) >= SequenceOf(s, room);
  }

  lemma AckSequence(
    s: State, request: Option<nat>, messageRoom: Room, doc: Doc, sequence: Option<nat>, isDelete: bool, room: Room)
    ensures SequenceOf(Acked(s, request, messageRoom, doc, sequence, isDelete), room) >= SequenceOf(s, room)
  {
    AuthoritativeSequence(s, messageRoom, doc, sequence, isDelete, room);
    if request.Some? && Find(s.pending, request.value).Some? {
      var dropped := Drop(s, request.value);
      AuthoritativeSequence(dropped, messageRoom, doc, sequence, isDelete, room);
      var taken := Authoritative(dropped, messageRoom, doc, sequence, isDelete);
      assert Settle(taken, request.value, Resolved(doc)).sequences == taken.sequences;
    }
  }

  /** Along any stretch of a run in which the room is not reset, its storage sequence never goes back. */
  lemma {:induction false} RunSequenceNeverDecreases(s: State, events: seq<Event>, room: Room)
    requires forall e :: e in events ==> !Resets(e, room)
    ensures SequenceOf(Run(s, events), room) >= SequenceOf(s, room)
    decreases |events|
  {
    if events != [] {
      assert events[0] in events;
      SequenceNeverDecreases(s, events[0], room);
      RunSequenceNeverDecreases(Step(s, events[0]), events[1..], room);
    }
  }
}
