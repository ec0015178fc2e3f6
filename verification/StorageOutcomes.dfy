/** How each mutation's promise is settled: resolved by its acknowledgement, rejected by everything else. */
module StorageOutcomes {
  import opened Wrappers
  import opened Json
  import opened JsonPatch
  import opened StorageReplica
  import opened StorageSettlement

  ghost predicate IsPending(s: State, id: nat) {
    exists m :: m in s.pending && m.id == id
  }

  /** Nothing settled is unsettled, and everything newly settled is rejected. */
  ghost predicate OnlyRejects(before: seq<Settlement>, after: seq<Settlement>) {
    && (forall x :: x in before ==> x in after)
    && (forall x :: x in after ==> x in before || x.outcome.Rejected?)
  }

  lemma ReapplyOnlyRejects(s: State, room: Room, doc: Doc)
    ensures OnlyRejects(s.settled, Reapply(s, room, doc).settled)
  {
  }

  lemma AdoptOnlyRejects(s: State, room: Room, doc: Doc, isDelete: bool)
    ensures OnlyRejects(s.settled, Adopt(s, room, doc, isDelete).settled)
  {
  }

  lemma AuthoritativeOnlyRejects(s: State, room: Room, doc: Doc, sequence: Option<nat>, isDelete: bool)
    ensures OnlyRejects(s.settled, Authoritative(s, room, doc, sequence, isDelete).settled)
  {
    if !Stale(s, room, sequence) {
      AdoptOnlyRejects(Sequenced(s, room, sequence), room, EventDocument(doc, isDelete), isDelete);
    }
  }

  lemma RollbackOnlyRejects(s: State, m: Mutation)
    ensures OnlyRejects(s.settled, Rollback(s, m).settled)
  {
  }

  lemma RejectOnlyRejects(s: State, request: Option<nat>, rollback: bool)
    ensures OnlyRejects(s.settled, RejectRequest(s, request, rollback).settled)
  {
    if request.Some? && Find(s.pending, request.value).Some? && rollback {
      RollbackOnlyRejects(Drop(s, Find(s.pending, request.value).value.id), Find(s.pending, request.value).value);
    }
  }

  lemma IssueOnlyRejects(s: State, room: Room, payload: Payload, sent: bool)
    ensures OnlyRejects(s.settled, Issued(s, room, payload, sent).settled)
  {
    var m := NewMutation(s, room, payload);
    RollbackOnlyRejects(Drop(Queued(s, room, payload), m.id), m);
  }

  lemma ConflictOnlyRejects(s: State, request: Option<nat>, target: Option<Room>, doc: Doc, sequence: Option<nat>)
    ensures OnlyRejects(s.settled, Conflicted(s, request, target, doc, sequence).settled)
  {
    match RepairRoom(s, request, target, sequence)
    case None => RejectOnlyRejects(StaleRepair(s, request, target), request, true);
    case Some(room) =>
      var excluded := if request.Some? then Find(s.pending, request.value) else None;
      var aside := if excluded.Some? then Drop(s, excluded.value.id) else s;
      AdoptOnlyRejects(Sequenced(aside, room, sequence), room, doc, false);
      RejectOnlyRejects(Repaired(s, request, room, doc, sequence), request, false);
  }

  lemma {:induction false} RejectAllOnlyRejects(s: State, mutations: seq<Mutation>)
    ensures OnlyRejects(s.settled, RejectAll(s, mutations).settled)
    decreases |mutations|
  {
    if mutations != [] {
      RollbackOnlyRejects(s, mutations[0]);
      RejectAllOnlyRejects(Settle(Rollback(s, mutations[0]), mutations[0].id, Rejected), mutations[1..]);
    }
  }

  lemma {:induction false} SettleAllOnlyRejects(s: State, mutations: seq<Mutation>)
    ensures OnlyRejects(s.settled, SettleAll(s, mutations).settled)
    decreases |mutations|
  {
    if mutations != [] {
      SettleAllOnlyRejects(Settle(s, mutations[0].id, Rejected), mutations[1..]);
    }
  }

  /** The event is an acknowledgement of the mutation, with the document, while the mutation is pending. */
  ghost predicate Acknowledges(s: State, e: Event, id: nat, doc: Doc) {
    e.Ack? && e.request == Some(id) && e.doc == doc && IsPending(s, id)
  }

  lemma FindPending(s: State, id: nat)
    ensures Find(s.pending, id).Some? <==> IsPending(s, id)
  {
  }

  lemma AckResolves(s: State, request: Option<nat>, room: Room, doc: Doc, sequence: Option<nat>, isDelete: bool)
    ensures var after := Acked(s, request, room, doc, sequence, isDelete).settled;
            && (forall x :: x in s.settled ==> x in after)
            && (forall x :: x in after ==>
                  x in s.settled || x.outcome.Rejected?
                  || (request == Some(x.id) && x.outcome == Resolved(doc) && IsPending(s, x.id)))
            && (request.Some? && IsPending(s, request.value) ==> Settlement(request.value, Resolved(doc)) in after)
  {
    AuthoritativeOnlyRejects(s, room, doc, sequence, isDelete);
    if request.Some? {
      FindPending(s, request.value);
      AuthoritativeOnlyRejects(Drop(s, request.value), room, doc, sequence, isDelete);
    }
  }

  /** One step resolves exactly the mutation it acknowledges. */
  lemma {:induction false} StepResolvesIff(s: State, e: Event, id: nat, doc: Doc)
    ensures Settlement(id, Resolved(doc)) in Step(s, e).settled
       <==> Settlement(id, Resolved(doc)) in s.settled || Acknowledges(s, e, id, doc)
  {
    match e {
      case Issue(room, payload, sent) => IssueOnlyRejects(s, room, payload, sent);
      case Snapshot(room, taken, sequence) => AuthoritativeOnlyRejects(s, room, taken, sequence, false);
      case Ack(request, room, taken, sequence, isDelete) => AckResolves(s, request, room, taken, sequence, isDelete);
      case Update(room, taken, sequence, isDelete) => AuthoritativeOnlyRejects(s, room, taken, sequence, isDelete);
      case Conflict(request, target, taken, sequence) => ConflictOnlyRejects(s, request, target, taken, sequence);
      case Refusal(request) => RejectOnlyRejects(s, request, true);
      case LoadRequested(room) =>
      case LoadFailed(room) =>
      case SocketClosed(reset) => RejectAllOnlyRejects(s.(pending := []), s.pending);
      case Leave(room) =>
        var reset := s.(docs := s.docs - {room}, sequences := s.sequences - {room}, base := s.base - {room},
                        pending := WithoutRoom(s.pending, room));
        SettleAllOnlyRejects(reset, PendingOf(s.pending, room));
    }
  }

  lemma {:induction false} RunSnoc(s: State, events: seq<Event>, e: Event)
    ensures Run(s, events + [e]) == Step(Run(s, events), e)
    decreases |events|
  {
    if events == [] {
      assert events + [e] == [e] && [e][1..] == [];
    } else {
      assert (events + [e])[1..] == events[1..] + [e] && (events + [e])[0] == events[0];
      RunSnoc(Step(s, events[0]), events[1..], e);
    }
  }

  /** One of the first n events acknowledged the mutation with the document while the mutation was pending. */
  ghost predicate WasAcknowledged(events: seq<Event>, n: nat, id: nat, doc: Doc) {
    exists i: nat :: i < n && i < |events| && Acknowledges(Run(EMPTY, events[..i]), events[i], id, doc)
  }

  /**
    Over every run: a mutation's promise is resolved with a document if and only if an acknowledgement of it arrived,
    with that document, while it was pending.
   */
  lemma {:induction false} ResolvedIffAcknowledged(events: seq<Event>, n: nat, id: nat, doc: Doc)
    requires n <= |events|
    ensures Settlement(id, Resolved(doc)) in Run(EMPTY, events[..n]).settled <==> WasAcknowledged(events, n, id, doc)
  {
    if n > 0 {
      TakeSnoc(events, n - 1);
      RunSnoc(EMPTY, events[..n - 1], events[n - 1]);
      StepResolvesIff(Run(EMPTY, events[..n - 1]), events[n - 1], id, doc);
      ResolvedIffAcknowledged(events, n - 1, id, doc);
      if WasAcknowledged(events, n, id, doc) {
        var i: nat :| i < n && i < |events| && Acknowledges(Run(EMPTY, events[..i]), events[i], id, doc);
        assert i < n - 1 || i == n - 1;
      }
    }
  }

  lemma {:induction false} SettledIsCounted(settled: seq<Settlement>, id: nat)
    ensures InSettled(settled, id) > 0 <==> exists x :: x in settled && x.id == id
    decreases |settled|
  {
    if settled != [] {
      SettledIsCounted(Init(settled), id);
      assert settled == Init(settled) + [Last(settled)];
      assert Last(settled) in settled && forall x :: x in settled <==> x in Init(settled) || x == Last(settled);
    }
  }

  lemma {:induction false} PendingIsCounted(s: State, id: nat)
    ensures InPending(s.pending, id) > 0 <==> IsPending(s, id)
  {
    if IsPending(s, id) {
      var m :| m in s.pending && m.id == id;
      InPendingMember(s.pending, m);
    } else {
      NotPending(s.pending, id);
    }
  }

  lemma {:induction false} NotPending(pending: seq<Mutation>, id: nat)
    requires forall m :: m in pending ==> m.id != id
    ensures InPending(pending, id) == 0
  {
    if pending != [] {
      assert pending[0] in pending && forall m :: m in pending[1..] ==> m in pending;
      NotPending(pending[1..], id);
    }
  }

  /**
    And every other issued mutation that is not pending any more was rejected: by its own failure, a refusal, a failed
    replay, a failed send, a closed socket or a room left.
   */
  lemma {:induction false} OthersAreRejected(events: seq<Event>, id: nat)
    ensures var s := Run(EMPTY, events);
            Settlement(id, Rejected) in s.settled
            <==> id < s.counter && !IsPending(s, id) && forall doc :: !WasAcknowledged(events, |events|, id, doc)
  {
    var s := Run(EMPTY, events);
    assert events[..|events|] == events;
    EveryMutationIsAccountedFor(events, id);
    SettledIsCounted(s.settled, id);
    PendingIsCounted(s, id);
    forall doc ensures Settlement(id, Resolved(doc)) in s.settled <==> WasAcknowledged(events, |events|, id, doc) {
      ResolvedIffAcknowledged(events, |events|, id, doc);
    }
    forall x, y | x in s.settled && y in s.settled && x.id == y.id == id ensures x == y {
      SettledOnce(s.settled, x, y);
    }
    if x :| x in s.settled && x.id == id {
      assert x == Settlement(id, x.outcome);
      match x.outcome {
        case Rejected => assert forall doc :: Settlement(id, Resolved(doc)) !in s.settled;
        case Resolved(doc) =>
          assert WasAcknowledged(events, |events|, id, doc) && Settlement(id, Rejected) !in s.settled;
      }
    } else {
      assert forall doc :: Settlement(id, Resolved(doc)) !in s.settled;
    }
  }

  lemma {:induction false} SettledOnce(settled: seq<Settlement>, x: Settlement, y: Settlement)
    requires x in settled && y in settled && x.id == y.id && InSettled(settled, x.id) <= 1
    ensures x == y
    decreases |settled|
  {
    var init, last := Init(settled), Last(settled);
    assert settled == init + [last];
    assert forall z :: z in settled <==> z in init || z == last;
    SettledIsCounted(init, x.id);
    if x in init && y in init {
      SettledOnce(init, x, y);
    }
  }
}
