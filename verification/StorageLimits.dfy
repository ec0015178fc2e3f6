/**
  Where the replica invariant stops: what a stale acknowledgement and a failed replay must not change, and runs from
  the empty client that end out of step.
 */
module StorageLimits {
  import opened Wrappers
  import opened JsonPointer
  import opened Json
  import opened JsonPatch
  import opened StorageReplica
  import opened StorageSettlement
  import opened StorageFold

  // ---------------------------------------------------------------- dropping one of several

  lemma {:induction false} PendingOfWithoutId(pending: seq<Mutation>, id: nat, room: Room)
    ensures PendingOf(WithoutId(pending, id), room) == WithoutId(PendingOf(pending, room), id)
  {
    if pending != [] {
      PendingOfWithoutId(pending[1..], id, room);
      var rest := WithoutId(pending[1..], id);
      assert pending[0].id != id ==> ([pending[0]] + rest)[0] == pending[0] && ([pending[0]] + rest)[1..] == rest;
      var others := PendingOf(pending[1..], room);
      assert pending[0].room == room ==>
          ([pending[0]] + others)[0] == pending[0] && ([pending[0]] + others)[1..] == others;
    }
  }

  lemma {:induction false} InPendingAppend(first: seq<Mutation>, second: seq<Mutation>, id: nat)
    ensures InPending(first + second, id) == InPending(first, id) + InPending(second, id)
  {
    if first == [] {
      assert first + second == second;
    } else {
      assert (first + second)[1..] == first[1..] + second;
      InPendingAppend(first[1..], second, id);
    }
  }

  lemma {:induction false} WithoutIdOfAppend(first: seq<Mutation>, second: seq<Mutation>, id: nat)
    ensures WithoutId(first + second, id) == WithoutId(first, id) + WithoutId(second, id)
  {
    if first == [] {
      assert first + second == second;
    } else {
      assert (first + second)[1..] == first[1..] + second && (first + second)[0] == first[0];
      WithoutIdOfAppend(first[1..], second, id);
    }
  }

  /** A mutation dropped from the middle of its room's pending ones leaves those before and those after it. */
  lemma {:induction false} DropFromMiddle(
    pending: seq<Mutation>, room: Room, first: seq<Mutation>, m: Mutation, rest: seq<Mutation>)
    requires PendingOf(pending, room) == first + [m] + rest && InPending(pending, m.id) <= 1
    ensures PendingOf(WithoutId(pending, m.id), room) == first + rest
  {
    InPendingByRoom(pending, room, m.id);
    InPendingAppend(first + [m], rest, m.id);
    InPendingAppend(first, [m], m.id);
    assert [m][1..] == [] && InPending([m], m.id) == 1;
    NoneToDrop(first, m.id);
    NoneToDrop(rest, m.id);
    PendingOfWithoutId(pending, m.id, room);
    WithoutIdOfAppend(first + [m], rest, m.id);
    WithoutIdOfAppend(first, [m], m.id);
    assert WithoutId([m], m.id) == [];
  }

  /** What a replay makes of one mutation among others. */
  lemma {:induction false} ReplayOfMiddle(doc: Doc, first: seq<Mutation>, m: Mutation, rest: seq<Mutation>)
    requires ReplayOn(doc, first).Replayed?
    ensures ReplayOn(doc, first + [m] + rest)
         == var effect := Effect(ReplayOn(doc, first).doc, m.payload);
            if effect.Ok? then ReplayOn(effect.value, rest) else FailedAt(m)
    ensures ReplayOn(doc, first + rest) == ReplayOn(ReplayOn(doc, first).doc, rest)
  {
    ReplayAppend(doc, first, [m] + rest);
    ReplayAppend(doc, first, rest);
    assert first + [m] + rest == first + ([m] + rest);
    assert ([m] + rest)[0] == m && ([m] + rest)[1..] == rest;
  }

  lemma {:induction false} ReplayFailureStays(doc: Doc, first: seq<Mutation>, second: seq<Mutation>)
    requires ReplayOn(doc, first).FailedAt?
    ensures ReplayOn(doc, first + second) == ReplayOn(doc, first)
    decreases |first|
  {
    assert (first + second)[1..] == first[1..] + second && (first + second)[0] == first[0];
    if Effect(doc, first[0].payload).Ok? {
      ReplayFailureStays(Effect(doc, first[0].payload).value, first[1..], second);
    }
  }

  // ---------------------------------------------------------------- stale acknowledgements

  /**
    A stale acknowledgement drops a mutation and keeps its effect: the room stays in step if and only if the ones
    after it, replayed without it, still end at the document shown.
   */
  lemma {:induction false} StaleAckInStepIff(
    s: State, first: seq<Mutation>, m: Mutation, rest: seq<Mutation>, doc: Doc, sequence: Option<nat>, isDelete: bool)
    requires NoRepeats(s) && InStep(s, m.room) && m.room in s.base
    requires Find(s.pending, m.id) == Some(m) && PendingOf(s.pending, m.room) == first + [m] + rest
    requires Stale(s, m.room, sequence)
    ensures ReplayOn(s.base[m.room], first).Replayed?
    ensures InStep(Acked(s, Some(m.id), m.room, doc, sequence, isDelete), m.room)
       <==> ReplayOn(ReplayOn(s.base[m.room], first).doc, rest) == Replayed(Previous(s, m.room))
  {
    assert Count(s, m.id) <= 1;
    AckInStepIff(s, Some(m.id), m.room, doc, sequence, isDelete, m.room);
    DropFromMiddle(s.pending, m.room, first, m, rest);
    assert first + [m] + rest == first + ([m] + rest);
    if ReplayOn(s.base[m.room], first).FailedAt? {
      ReplayFailureStays(s.base[m.room], first, [m] + rest);
    }
    ReplayOfMiddle(s.base[m.room], first, m, rest);
  }

  /** The room's last mutation, acknowledged late, keeps the room in step if and only if it changed nothing. */
  lemma {:induction false} StaleAckOfLastIff(
    s: State, first: seq<Mutation>, m: Mutation, doc: Doc, sequence: Option<nat>, isDelete: bool)
    requires NoRepeats(s) && InStep(s, m.room) && m.room in s.base
    requires Find(s.pending, m.id) == Some(m) && PendingOf(s.pending, m.room) == first + [m]
    requires Stale(s, m.room, sequence)
    ensures ReplayOn(s.base[m.room], first).Replayed?
    ensures var before := ReplayOn(s.base[m.room], first).doc;
            InStep(Acked(s, Some(m.id), m.room, doc, sequence, isDelete), m.room)
            <==> Effect(before, m.payload) == Ok(before)
  {
    assert first + [m] + [] == first + [m];
    StaleAckInStepIff(s, first, m, [], doc, sequence, isDelete);
    ReplayOfMiddle(s.base[m.room], first, m, []);
  }

  /** With a whole document set after it, the mutations in between decide: they must replay without it. */
  lemma {:induction false} StaleAckBeforeSetIff(
    s: State, first: seq<Mutation>, m: Mutation, between: seq<Mutation>, whole: Mutation, later: seq<Mutation>,
    doc: Doc, sequence: Option<nat>, isDelete: bool)
    requires NoRepeats(s) && InStep(s, m.room) && m.room in s.base && whole.payload.SetTo?
    requires Find(s.pending, m.id) == Some(m)
    requires PendingOf(s.pending, m.room) == first + [m] + (between + [whole] + later)
    requires Stale(s, m.room, sequence)
    ensures ReplayOn(s.base[m.room], first).Replayed?
    ensures InStep(Acked(s, Some(m.id), m.room, doc, sequence, isDelete), m.room)
       <==> ReplayOn(ReplayOn(s.base[m.room], first).doc, between).Replayed?
  {
    var rest := between + [whole] + later;
    StaleAckInStepIff(s, first, m, rest, doc, sequence, isDelete);
    ReplayOfMiddle(s.base[m.room], first, m, rest);
    var before := ReplayOn(s.base[m.room], first).doc;
    ReplayEndsAfterSet(before, between, whole, later);
    ReplayEndsAfterSet(Effect(before, m.payload).value, between, whole, later);
  }

  lemma {:induction false} ReplayEndsAfterSet(doc: Doc, between: seq<Mutation>, whole: Mutation, later: seq<Mutation>)
    requires whole.payload.SetTo?
    ensures ReplayOn(doc, between + [whole] + later)
         == if ReplayOn(doc, between).Replayed? then ReplayOn(Defined(whole.payload.document), later)
            else ReplayOn(doc, between)
  {
    if ReplayOn(doc, between).Replayed? {
      ReplayOfMiddle(doc, between, whole, later);
    } else {
      ReplayFailureStays(doc, between, [whole] + later);
      assert between + [whole] + later == between + ([whole] + later);
    }
  }

  // ---------------------------------------------------------------- failed replays

  /**
    A document taken as the server's on which a pending mutation fails: that one is dropped and none is shown, so the
    room is in step if and only if the others, replayed, lead back to the document taken. It covers snapshots,
    updates, acknowledgements and repairs, which all show what they take through `ShowsAgain`.
   */
  lemma {:induction false} FailedReplayIff(
    taken: Doc, pending: seq<Mutation>, room: Room, first: seq<Mutation>, failed: Mutation, rest: seq<Mutation>)
    requires PendingOf(pending, room) == first + [failed] + rest && InPending(pending, failed.id) <= 1
    requires ReplayOn(taken, first).Replayed? && Effect(ReplayOn(taken, first).doc, failed.payload).Err?
    ensures ReplayOn(taken, PendingOf(pending, room)) == FailedAt(failed)
    ensures ShowsAgain(taken, taken, pending, room) <==> ReplayOn(ReplayOn(taken, first).doc, rest) == Replayed(taken)
  {
    ReplayOfMiddle(taken, first, failed, rest);
    DropFromMiddle(pending, room, first, failed, rest);
  }

  /** When the last mutation is the one that fails, the earlier ones must have changed nothing. */
  lemma {:induction false} FailedReplayOfLastIff(
    taken: Doc, pending: seq<Mutation>, room: Room, first: seq<Mutation>, failed: Mutation)
    requires PendingOf(pending, room) == first + [failed] && InPending(pending, failed.id) <= 1
    requires ReplayOn(taken, first).Replayed? && Effect(ReplayOn(taken, first).doc, failed.payload).Err?
    ensures ShowsAgain(taken, taken, pending, room) <==> ReplayOn(taken, first) == Replayed(taken)
  {
    assert first + [failed] + [] == first + [failed];
    FailedReplayIff(taken, pending, room, first, failed, []);
  }

  // ---------------------------------------------------------------- refusals

  lemma RefusalReplays(s: State, first: seq<Mutation>, m: Mutation, rest: seq<Mutation>)
    requires NoRepeats(s) && PendingOf(s.pending, m.room) == first + [m] + rest
    ensures PendingOf(WithoutId(s.pending, m.id), m.room) == first + rest
  {
    assert Count(s, m.id) <= 1;
    DropFromMiddle(s.pending, m.room, first, m, rest);
  }

  /**
    A refusal puts back the document of the time of issue and replays the others on it. Where that replay goes through,
    the room stays in step if and only if the mutations after the refused one end at the same document, whether they
    follow the earlier ones on the server's document or on the one put back.
   */
  lemma {:induction false} RefusalIff(s: State, first: seq<Mutation>, m: Mutation, rest: seq<Mutation>)
    requires NoRepeats(s) && m.room in s.base && PendingOf(s.pending, m.room) == first + [m] + rest
    requires ReplayOn(s.base[m.room], first).Replayed? && ReplayOn(RolledTo(m), first).Replayed?
    requires ReplayOn(ReplayOn(RolledTo(m), first).doc, rest).Replayed?
    ensures RollsBack(s, m)
       <==> ReplayOn(ReplayOn(s.base[m.room], first).doc, rest) == ReplayOn(ReplayOn(RolledTo(m), first).doc, rest)
  {
    RefusalReplays(s, first, m, rest);
    ReplayAppend(s.base[m.room], first, rest);
    ReplayAppend(RolledTo(m), first, rest);
  }

  /** Where a mutation fails on the document put back, that document is shown, and must be what the others give. */
  lemma {:induction false} RefusalFailingIff(
    s: State, first: seq<Mutation>, m: Mutation, rest: seq<Mutation>,
    left: seq<Mutation>, failed: Mutation, right: seq<Mutation>)
    requires NoRepeats(s) && m.room in s.base && PendingOf(s.pending, m.room) == first + [m] + rest
    requires first + rest == left + [failed] + right
    requires ReplayOn(RolledTo(m), left).Replayed? && Effect(ReplayOn(RolledTo(m), left).doc, failed.payload).Err?
    ensures RollsBack(s, m) <==> ReplayOn(s.base[m.room], left + right) == Replayed(RolledTo(m))
  {
    RefusalReplays(s, first, m, rest);
    ReplayOfMiddle(RolledTo(m), left, failed, right);
    InPendingWithout(s.pending, m.id, failed.id);
    assert Count(s, failed.id) <= 1;
    DropFromMiddle(WithoutId(s.pending, m.id), m.room, left, failed, right);
  }

  /** A room's oldest mutation, issued on what is still the server's document, is refused safely if the rest replays. */
  lemma {:induction false} RefusalOfOldestIsSafe(s: State, m: Mutation, rest: seq<Mutation>)
    requires NoRepeats(s) && m.room in s.base && PendingOf(s.pending, m.room) == [m] + rest
    requires RolledTo(m) == s.base[m.room] && ReplayOn(s.base[m.room], rest).Replayed?
    ensures RollsBack(s, m)
  {
    assert [] + [m] + rest == [m] + rest;
    RefusalIff(s, [], m, rest);
  }

  /**
    The room's last mutation, issued on what the earlier ones give: its refusal is safe if and only if the earlier
    ones, on show already, change nothing when they are replayed.
   */
  lemma {:induction false} RefusalOfLastIff(s: State, first: seq<Mutation>, m: Mutation)
    requires NoRepeats(s) && m.room in s.base && PendingOf(s.pending, m.room) == first + [m]
    requires ReplayOn(s.base[m.room], first) == Replayed(RolledTo(m)) && ReplayOn(RolledTo(m), first).Replayed?
    ensures RollsBack(s, m) <==> ReplayOn(RolledTo(m), first) == Replayed(RolledTo(m))
  {
    assert first + [m] + [] == first + [m];
    RefusalIff(s, first, m, []);
  }

  /** With a whole document set after it, a refusal is safe when what lies between replays on both documents. */
  lemma {:induction false} RefusalBeforeSetIsSafe(
    s: State, first: seq<Mutation>, m: Mutation, between: seq<Mutation>, whole: Mutation, later: seq<Mutation>)
    requires NoRepeats(s) && m.room in s.base && InStep(s, m.room) && whole.payload.SetTo?
    requires PendingOf(s.pending, m.room) == first + [m] + (between + [whole] + later)
    requires ReplayOn(s.base[m.room], first).Replayed? && ReplayOn(RolledTo(m), first).Replayed?
    requires ReplayOn(ReplayOn(s.base[m.room], first).doc, between).Replayed?
    requires ReplayOn(ReplayOn(RolledTo(m), first).doc, between).Replayed?
    ensures RollsBack(s, m)
  {
    var rest := between + [whole] + later;
    ReplayOfMiddle(s.base[m.room], first, m, rest);
    var shown := Effect(ReplayOn(s.base[m.room], first).doc, m.payload).value;
    ReplayEndsAfterSet(shown, between, whole, later);
    ReplayEndsAfterSet(ReplayOn(s.base[m.room], first).doc, between, whole, later);
    ReplayEndsAfterSet(ReplayOn(RolledTo(m), first).doc, between, whole, later);
    RefusalIff(s, first, m, rest);
  }

  // ---------------------------------------------------------------- failed sends

  /** A failed send is safe when a whole document is pending and what comes before it replays on the document shown. */
  lemma {:induction false} UnsentAfterSetIsSafe(
    s: State, room: Room, payload: Payload, between: seq<Mutation>, whole: Mutation, later: seq<Mutation>)
    requires CountedOnce(s) && InStep(s, room) && room in s.base && whole.payload.SetTo?
    requires Shows(s, room, payload) ==> Effect(Previous(s, room), payload).Ok?
    requires PendingOf(s.pending, room) == between + [whole] + later
    requires ReplayOn(Previous(s, room), between).Replayed?
    ensures InStep(Issued(s, room, payload, false), room)
  {
    UnsentInStepIff(s, room, payload, room);
    ReplayEndsAfterSet(Previous(s, room), between, whole, later);
    ReplayEndsAfterSet(s.base[room], between, whole, later);
  }

  // ---------------------------------------------------------------- runs that end out of step

  const ROOM: Room := "room"

  function Append(n: int): Payload {
    PatchWith([AddOp("/-", Num(n))])
  }

  lemma AppendTo(items: seq<Json>, n: int)
    ensures Effect(Defined(Arr(items)), Append(n)) == Ok(Defined(Arr(items + [Num(n)])))
  {
    var op := AddOp("/-", Num(n));
    PointerOfDash();
    SetKey(Arr(items), [], "-", Num(n), AddMode);
    assert ["-"] == [] + ["-"];
    assert InsertAt(items, |items|, Num(n)) == items + [Num(n)];
    assert ApplyOne(Arr(items), op) == Ok(Arr(items + [Num(n)]));
    assert StepDoc(Defined(Arr(items)), op) == Ok(Defined(Arr(items + [Num(n)])));
    assert ApplyDoc(Defined(Arr(items + [Num(n)])), []) == Ok(Defined(Arr(items + [Num(n)])));
    assert [op][1..] == [];
  }

  lemma PointerOfDash()
    ensures PointerOf(["-"]) == "/-"
  {
    EscapeStep("-");
    assert Escape("-") == "-";
    assert PointerOf(["-"]) == "/" + Escape("-") + PointerOf([]);
  }

  const APPENDED: Doc := Defined(Arr([Num(7)]))
  const TWICE: Doc := Defined(Arr([Num(7), Num(7)]))

  function AppendMutation(): Mutation {
    Mutation(0, ROOM, Append(7), true, Defined(Arr([])))
  }

  /** A room loaded with a document at sequence 1. */
  function Loaded(doc: Doc): State {
    State(map[ROOM := doc], map[ROOM := Synchronized], map[ROOM := 1], [], [], 0, map[ROOM := doc])
  }

  lemma Loads(doc: Doc)
    ensures Step(EMPTY, Snapshot(ROOM, doc, Some(1))) == Loaded(doc)
  {
  }

  lemma OnlyPending(m: Mutation)
    ensures PendingOf([m], m.room) == [m] && WithoutId([m], m.id) == [] && Find([m], m.id) == Some(m)
  {
    assert [m][1..] == [];
  }

  lemma TwoPending(m: Mutation, n: Mutation)
    requires m.room == n.room && m.id != n.id
    ensures [m] + [n] == [m, n] && PendingOf([m, n], m.room) == [m, n] && Find([m, n], n.id) == Some(n)
    ensures WithoutId([m, n], m.id) == [n] && WithoutId([m, n], n.id) == [m]
  {
    OnlyPending(n);
    assert [m, n][0] == m && [m, n][1..] == [n] && [m] + [n] == [m, n];
    assert WithoutId([m, n], n.id) == [m] + WithoutId([n], n.id);
    assert WithoutId([n], m.id) == [n] + WithoutId([], m.id);
  }

  /** The room after one sent mutation that shows `shown`. */
  function OneSent(doc: Doc, payload: Payload, shown: Doc): State {
    State(map[ROOM := shown], map[ROOM := Synchronizing], map[ROOM := 1],
          [Mutation(0, ROOM, payload, true, doc)], [], 1, map[ROOM := doc])
  }

  lemma Sends(doc: Doc, payload: Payload, shown: Doc)
    requires Effect(doc, payload) == Ok(shown)
    ensures Step(Step(EMPTY, Snapshot(ROOM, doc, Some(1))), Issue(ROOM, payload, true)) == OneSent(doc, payload, shown)
  {
    Loads(doc);
    assert [] + [Mutation(0, ROOM, payload, true, doc)] == [Mutation(0, ROOM, payload, true, doc)];
  }

  /** A whole document set next, which shows over the first mutation. */
  function SetNext(s: State, document: Json): State {
    s.(docs := map[ROOM := Defined(document)], counter := 2,
       pending := s.pending + [Mutation(1, ROOM, SetTo(document), true, Previous(s, ROOM))])
  }

  lemma SetsNext(doc: Doc, payload: Payload, shown: Doc, document: Json)
    ensures var s := OneSent(doc, payload, shown);
            Step(s, Issue(ROOM, SetTo(document), true)) == SetNext(s, document)
  {
  }

  /** Rolling back one mutation of a room while another is pending. */
  lemma {:induction false} RollsBackOver(s: State, m: Mutation, n: Mutation)
    requires s.pending == [m] && m.room == n.room == ROOM && n.hadPrevious
    ensures var after := Settle(Rollback(s, n), n.id, Rejected);
            && after.base == s.base
            && var again := Effect(n.previous, m.payload);
            if again.Ok? then after.pending == [m] && Previous(after, ROOM) == again.value
            else after.pending == [] && Previous(after, ROOM) == n.previous
  {
    OnlyPending(m);
    ReplayOfOne(n.previous, m);
    var rolled := SetStatus(s.(docs := s.docs[ROOM := n.previous]), ROOM, Failed);
    assert rolled.pending == [m] && Previous(rolled, ROOM) == n.previous;
    assert Rollback(s, n) == Reapply(rolled, ROOM, n.previous);
  }

  /** A snapshot is taken and the one pending mutation replayed on it. */
  lemma {:induction false} SnapshotReplays(s: State, m: Mutation, taken: Doc, q: nat, again: Doc)
    requires s.pending == [m] && m.room == ROOM && SequenceOf(s, ROOM) < q && Effect(taken, m.payload) == Ok(again)
    ensures var after := Step(s, Snapshot(ROOM, taken, Some(q)));
            && after.pending == [m] && SequenceOf(after, ROOM) == q
            && ROOM in after.base && after.base[ROOM] == taken && Previous(after, ROOM) == again
  {
    OnlyPending(m);
    ReplayOfOne(taken, m);
  }

  lemma {:induction false} StaleAckDrops(s: State, m: Mutation, doc: Doc, q: nat)
    requires s.pending == [m] && m.room == ROOM && Stale(s, ROOM, Some(q))
    ensures var after := Step(s, Ack(Some(m.id), ROOM, doc, Some(q), false));
            after.pending == [] && after.base == s.base && Previous(after, ROOM) == Previous(s, ROOM)
  {
    OnlyPending(m);
    assert Stale(Drop(s, m.id), ROOM, Some(q));
    assert Step(s, Ack(Some(m.id), ROOM, doc, Some(q), false))
         == Settle(Refresh(Drop(s, m.id), ROOM), m.id, Resolved(doc));
  }

  /**
    An acknowledgement overtaken by a snapshot that already holds the mutation: the snapshot shows it twice, the stale
    acknowledgement removes it from the pending ones, and the second copy stays.
   */
  lemma {:induction false} StaleAckLeavesSecondCopy()
    ensures var appended := Step(Step(EMPTY, Snapshot(ROOM, Defined(Arr([])), Some(1))), Issue(ROOM, Append(7), true));
            var shown := Step(appended, Snapshot(ROOM, APPENDED, Some(2)));
            var s := Step(shown, Ack(Some(0), ROOM, APPENDED, Some(2), false));
            && s.pending == [] && ROOM in s.base && s.base[ROOM] == APPENDED && Previous(s, ROOM) == TWICE
            && !InStep(s, ROOM)
  {
    AppendTo([], 7);
    AppendTo([Num(7)], 7);
    assert [] + [Num(7)] == [Num(7)] && [Num(7)] + [Num(7)] == [Num(7), Num(7)];
    Sends(Defined(Arr([])), Append(7), APPENDED);
    var appended, m := OneSent(Defined(Arr([])), Append(7), APPENDED), AppendMutation();
    SnapshotReplays(appended, m, APPENDED, 2, TWICE);
    StaleAckDrops(Step(appended, Snapshot(ROOM, APPENDED, Some(2))), m, APPENDED, 2);
    assert ReplayOn(APPENDED, []) == Replayed(APPENDED) && APPENDED != TWICE;
  }

  /** A set whose send fails: the document before it comes back and the first mutation is replayed on it. */
  lemma {:induction false} SetUnsent(doc: Doc, payload: Payload, shown: Doc, document: Json)
    ensures var s := OneSent(doc, payload, shown);
            var after := Step(s, Issue(ROOM, SetTo(document), false));
            && after.base == s.base
            && var again := Effect(shown, payload);
            if again.Ok? then after.pending == s.pending && Previous(after, ROOM) == again.value
            else after.pending == [] && Previous(after, ROOM) == shown
  {
    var s := OneSent(doc, payload, shown);
    var m, n := s.pending[0], NewMutation(s, ROOM, SetTo(document));
    TwoPending(m, n);
    var dropped := Drop(Queued(s, ROOM, SetTo(document)), n.id);
    assert dropped.pending == [m] && dropped.base == s.base;
    assert Step(s, Issue(ROOM, SetTo(document), false)) == Settle(Rollback(dropped, n), n.id, Rejected);
    RollsBackOver(dropped, m, n);
  }

  /** The set, sent and then refused: the same. */
  lemma {:induction false} SetRefused(doc: Doc, payload: Payload, shown: Doc, document: Json)
    ensures var s := SetNext(OneSent(doc, payload, shown), document);
            var after := Step(s, Refusal(Some(1)));
            && after.base == s.base
            && var again := Effect(shown, payload);
            if again.Ok? then after.pending == [s.pending[0]] && Previous(after, ROOM) == again.value
            else after.pending == [] && Previous(after, ROOM) == shown
  {
    var s := SetNext(OneSent(doc, payload, shown), document);
    var m, n := s.pending[0], s.pending[1];
    TwoPending(m, n);
    assert Step(s, Refusal(Some(1))) == Settle(Rollback(Drop(s, 1), n), 1, Rejected);
    RollsBackOver(Drop(s, 1), m, n);
  }

  /** A send that fails while an append is pending: the append, already on show, is replayed and shown twice. */
  lemma {:induction false} FailedSendShowsTwice()
    ensures var appended := Step(Step(EMPTY, Snapshot(ROOM, Defined(Arr([])), Some(1))), Issue(ROOM, Append(7), true));
            var s := Step(appended, Issue(ROOM, SetTo(Null), false));
            && s.pending == [AppendMutation()] && ROOM in s.base && s.base[ROOM] == Defined(Arr([]))
            && Previous(s, ROOM) == TWICE && !InStep(s, ROOM)
  {
    AppendTo([], 7);
    AppendTo([Num(7)], 7);
    assert [] + [Num(7)] == [Num(7)] && [Num(7)] + [Num(7)] == [Num(7), Num(7)];
    Sends(Defined(Arr([])), Append(7), APPENDED);
    SetUnsent(Defined(Arr([])), Append(7), APPENDED, Null);
    OnlyPending(AppendMutation());
    ReplayOfOne(Defined(Arr([])), AppendMutation());
  }

  const WITH_A: Doc := Defined(Obj(map["a" := Num(1)]))
  const BARE: Doc := Defined(Obj(map[]))
  const REMOVE_A: Payload := PatchWith([RemoveOp("/a")])

  lemma RemoveAOnce()
    ensures Effect(WITH_A, REMOVE_A) == Ok(BARE) && Effect(BARE, REMOVE_A).Err?
  {
    var op := RemoveOp("/a");
    EscapeStep("a");
    assert Escape("a") == "a" && PointerOf(["a"]) == "/" + Escape("a") + PointerOf([]);
    assert [] + ["a"] == ["a"] && [op][1..] == [];
    RemoveKey(WITH_A.json, [], "a");
    RemoveKey(BARE.json, [], "a");
    assert map["a" := Num(1)] - {"a"} == map[];
    assert StepDoc(WITH_A, op) == Ok(BARE) && StepDoc(BARE, op).Err?;
    assert ApplyDoc(BARE, []) == Ok(BARE);
  }

  /** A send that fails while a removal is pending: its replay fails, so the removal, already sent, is rejected too. */
  lemma FailedSendRejectsAnother()
    ensures var removed := Step(Step(EMPTY, Snapshot(ROOM, WITH_A, Some(1))), Issue(ROOM, REMOVE_A, true));
            var s := Step(removed, Issue(ROOM, SetTo(Null), false));
            && removed.pending != [] && s.pending == [] && ROOM in s.base && s.base[ROOM] == WITH_A
            && Previous(s, ROOM) == BARE && !InStep(s, ROOM)
  {
    RemoveAOnce();
    Sends(WITH_A, REMOVE_A, BARE);
    SetUnsent(WITH_A, REMOVE_A, BARE, Null);
    assert ReplayOn(WITH_A, []) == Replayed(WITH_A) && "a" in WITH_A.json.fields && "a" !in BARE.json.fields;
  }

  /** A snapshot on which the first of two mutations fails: the second stays pending and is not shown. */
  lemma {:induction false} FirstFails(s: State, taken: Doc, q: nat)
    requires |s.pending| == 2 && s.pending[0].room == s.pending[1].room == ROOM && s.pending[0].id != s.pending[1].id
    requires SequenceOf(s, ROOM) < q && Effect(taken, s.pending[0].payload).Err?
    requires Effect(taken, s.pending[1].payload) != Ok(taken)
    ensures var after := Step(s, Snapshot(ROOM, taken, Some(q)));
            && after.pending == [s.pending[1]] && ROOM in after.base && after.base[ROOM] == taken
            && Previous(after, ROOM) == taken && !InStep(after, ROOM)
  {
    var m, n := s.pending[0], s.pending[1];
    assert s.pending == [m, n];
    TwoPending(m, n);
    OnlyPending(n);
    assert ReplayOn(taken, [m, n]) == FailedAt(m);
    ReplayOfOne(taken, n);
  }

  /** A replay that fails: another writer removed the member first, and the document set after it is not shown. */
  lemma {:induction false} FailedReplayHidesAnother()
    ensures var removed := Step(Step(EMPTY, Snapshot(ROOM, WITH_A, Some(1))), Issue(ROOM, REMOVE_A, true));
            var s := Step(Step(removed, Issue(ROOM, SetTo(Null), true)), Snapshot(ROOM, BARE, Some(2)));
            && |s.pending| == 1 && s.pending[0].payload == SetTo(Null) && ROOM in s.base && s.base[ROOM] == BARE
            && Previous(s, ROOM) == BARE && !InStep(s, ROOM)
  {
    RemoveAOnce();
    Sends(WITH_A, REMOVE_A, BARE);
    SetsNext(WITH_A, REMOVE_A, BARE, Null);
    FirstFails(SetNext(OneSent(WITH_A, REMOVE_A, BARE), Null), BARE, 2);
  }

  /** A refusal while an append is pending: the document of the time of issue shows the append, and shows it again. */
  lemma {:induction false} RefusalShowsTwice()
    ensures var appended := Step(Step(EMPTY, Snapshot(ROOM, Defined(Arr([])), Some(1))), Issue(ROOM, Append(7), true));
            var s := Step(Step(appended, Issue(ROOM, SetTo(Null), true)), Refusal(Some(1)));
            && s.pending == [AppendMutation()] && ROOM in s.base && s.base[ROOM] == Defined(Arr([]))
            && Previous(s, ROOM) == TWICE && !InStep(s, ROOM)
  {
    AppendTo([], 7);
    AppendTo([Num(7)], 7);
    assert [] + [Num(7)] == [Num(7)] && [Num(7)] + [Num(7)] == [Num(7), Num(7)];
    Sends(Defined(Arr([])), Append(7), APPENDED);
    SetsNext(Defined(Arr([])), Append(7), APPENDED, Null);
    SetRefused(Defined(Arr([])), Append(7), APPENDED, Null);
    OnlyPending(AppendMutation());
    ReplayOfOne(Defined(Arr([])), AppendMutation());
  }

  lemma {:induction false} ClosesOver(s: State, room: Room)
    requires |s.pending| == 2 && s.pending[0].room == s.pending[1].room == room && s.pending[0].id != s.pending[1].id
    requires room in s.base && RolledTo(s.pending[1]) != s.base[room]
    ensures var after := Closed(s, false);
            && after.pending == [] && after.base == s.base && Previous(after, room) == RolledTo(s.pending[1])
            && !InStep(after, room)
  {
    assert s.pending == [s.pending[0], s.pending[1]];
    TwoPending(s.pending[0], s.pending[1]);
    CloseInStepIff(s, room);
  }

  /** A socket closed while two sets are pending: the first, rejected, stays on show with nothing pending. */
  lemma {:induction false} CloseShowsRejected()
    ensures var first := Step(Step(EMPTY, Snapshot(ROOM, Defined(Num(0)), Some(1))), Issue(ROOM, SetTo(Num(1)), true));
            var s := Step(Step(first, Issue(ROOM, SetTo(Num(2)), true)), SocketClosed(false));
            && s.pending == [] && ROOM in s.base && s.base[ROOM] == Defined(Num(0))
            && Previous(s, ROOM) == Defined(Num(1)) && !InStep(s, ROOM)
  {
    Sends(Defined(Num(0)), SetTo(Num(1)), Defined(Num(1)));
    SetsNext(Defined(Num(0)), SetTo(Num(1)), Defined(Num(1)), Num(2));
    var s := SetNext(OneSent(Defined(Num(0)), SetTo(Num(1)), Defined(Num(1))), Num(2));
    ClosesOver(s, ROOM);
  }
}
