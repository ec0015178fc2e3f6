/** The Yjs provider's bookkeeping: local updates not sent yet, and subdocument frames that arrive early. */
module YjsProvider {
  import opened Wrappers

  /** One operation of a Y document; an update is a set of them, and applying it is union. */
  type YOp = nat
  type Update = set<YOp>
  type Guid = string
  type DocId = nat

  // ---------------------------------------------------------------- local updates

  /** `frames` are the payloads of root update frames handed to an open socket; `local` is every local update seen. */
  datatype Root = Root(doc: Update, open: bool, pendingLocalSync: bool, frames: seq<Update>, local: seq<Update>)

  datatype RootEvent =
    | LocalUpdate(update: Update)
    | RemoteUpdate(update: Update)
    | OfflineLoaded(updates: seq<Update>)
    | OfflineFailed(appliedUpdates: seq<Update>)
    | Opened
    | Closed
    | SendSnapshot
    | StateVectorRequest(known: Update)

  function JoinUpdates(updates: seq<Update>): Update {
    if updates == [] then {} else JoinUpdates(Init(updates)) + Last(updates)
  }

  /** `sendFrame` for a root update; nothing is sent unless the socket is open. */
  function Sent(r: Root, update: Update): Root {
    if r.open then r.(frames := r.frames + [update]) else r
  }

  /** `flushPendingLocalSync` */
  function Flushed(r: Root): Root {
    if r.pendingLocalSync && r.open then Sent(r, r.doc).(pendingLocalSync := false) else r
  }

  function RootStep(r: Root, e: RootEvent): Root {
    match e
    case LocalUpdate(update) =>
      var seen := r.(doc := r.doc + update, local := r.local + [update]);
      if r.open then Sent(seen, update) else seen.(pendingLocalSync := true)
    case RemoteUpdate(update) => r.(doc := r.doc + update)
    case OfflineLoaded(updates) =>
      r.(doc := r.doc + JoinUpdates(updates), pendingLocalSync := r.pendingLocalSync || updates != [])
    case OfflineFailed(appliedUpdates) => r.(doc := r.doc + JoinUpdates(appliedUpdates))
    case Opened => Flushed(r.(open := true))
    case Closed => r.(open := false)
    case SendSnapshot => Sent(r, r.doc)
    case StateVectorRequest(known) => Sent(r, r.doc - known)
  }

  ghost predicate NothingForgotten(r: Root) {
    && (forall u :: u in r.local ==> u <= r.doc)
    && (r.pendingLocalSync || forall u :: u in r.local ==> Carried(r.frames, u))
  }

  ghost predicate Carried(frames: seq<Update>, u: Update) {
    exists i :: 0 <= i < |frames| && u <= frames[i]
  }

  lemma CarriedLonger(frames: seq<Update>, frame: Update, u: Update)
    requires Carried(frames, u) || u <= frame
    ensures Carried(frames + [frame], u)
  {
    if Carried(frames, u) {
      var i :| 0 <= i < |frames| && u <= frames[i];
      assert (frames + [frame])[i] == frames[i];
    } else {
      assert (frames + [frame])[|frames|] == frame;
    }
  }

  lemma RootStepForgetsNothing(r: Root, e: RootEvent)
    requires NothingForgotten(r)
    ensures NothingForgotten(RootStep(r, e))
  {
    var after := RootStep(r, e);
    if |after.frames| > |r.frames| && !after.pendingLocalSync {
      forall u | u in after.local ensures Carried(after.frames, u) {
        CarriedLonger(r.frames, Last(after.frames), u);
      }
    }
  }

  function RootRun(r: Root, events: seq<RootEvent>): Root
    decreases |events|
  {
    if events == [] then r else RootRun(RootStep(r, events[0]), events[1..])
  }

  /** In every run, each local update is in some frame given to an open socket, or the provider still owes a sync. */
  lemma {:induction false} NoLocalUpdateIsForgotten(r: Root, events: seq<RootEvent>)
    requires NothingForgotten(r)
    ensures NothingForgotten(RootRun(r, events))
    decreases |events|
  {
    if events != [] {
      RootStepForgetsNothing(r, events[0]);
      NoLocalUpdateIsForgotten(RootStep(r, events[0]), events[1..]);
    }
  }

  /** Opening the socket pays the sync that is owed: nothing is owed any more, and all that was local is in a frame. */
  lemma {:induction false} OpeningPaysSync(r: Root)
    requires NothingForgotten(r)
    ensures var after := RootStep(r, Opened);
            after.open && !after.pendingLocalSync && forall u :: u in after.local ==> Carried(after.frames, u)
  {
    if r.pendingLocalSync {
      forall u | u in r.local ensures Carried(r.frames + [r.doc], u) {
        CarriedLonger(r.frames, r.doc, u);
      }
    }
  }

  /** While the socket is open, every local update is in a frame. */
  ghost predicate SentWhenOpen(r: Root) {
    r.open ==> forall u :: u in r.local ==> Carried(r.frames, u)
  }

  lemma {:induction false} StepSendsWhenOpen(r: Root, e: RootEvent)
    requires NothingForgotten(r) && SentWhenOpen(r)
    ensures SentWhenOpen(RootStep(r, e))
  {
    var after := RootStep(r, e);
    if e.Opened? {
      OpeningPaysSync(r);
    } else if r.open {
      forall u | u in after.local ensures Carried(after.frames, u) {
        if after.frames != r.frames {
          CarriedLonger(r.frames, Last(after.frames), u);
        }
      }
    }
  }

  lemma {:induction false} StepKeepsFrames(r: Root, e: RootEvent)
    ensures r.frames <= RootStep(r, e).frames && r.local <= RootStep(r, e).local && r.doc <= RootStep(r, e).doc
  {
  }

  lemma {:induction false} RunKeepsFrames(r: Root, events: seq<RootEvent>)
    ensures r.frames <= RootRun(r, events).frames && r.local <= RootRun(r, events).local
    ensures r.doc <= RootRun(r, events).doc
    decreases |events|
  {
    if events != [] {
      StepKeepsFrames(r, events[0]);
      RunKeepsFrames(RootStep(r, events[0]), events[1..]);
    }
  }

  lemma {:induction false} RunSendsWhenOpen(r: Root, events: seq<RootEvent>)
    requires NothingForgotten(r) && SentWhenOpen(r)
    ensures NothingForgotten(RootRun(r, events)) && SentWhenOpen(RootRun(r, events))
    decreases |events|
  {
    if events != [] {
      RootStepForgetsNothing(r, events[0]);
      StepSendsWhenOpen(r, events[0]);
      RunSendsWhenOpen(RootStep(r, events[0]), events[1..]);
    }
  }

  /**
    Every local update leaves the client: once the socket has been open at or after it, it is in some frame, then and
    ever after.
   */
  lemma {:induction false} LocalUpdatesAreSent(r: Root, events: seq<RootEvent>, later: seq<RootEvent>, u: Update)
    requires NothingForgotten(r) && SentWhenOpen(r)
    requires RootRun(r, events).open && u in RootRun(r, events).local
    ensures Carried(RootRun(r, events).frames, u) && Carried(RootRun(RootRun(r, events), later).frames, u)
  {
    var reached := RootRun(r, events);
    RunSendsWhenOpen(r, events);
    RunKeepsFrames(reached, later);
    var i :| 0 <= i < |reached.frames| && u <= reached.frames[i];
    assert RootRun(reached, later).frames[i] == reached.frames[i];
  }

  /** What an event brings into the document. */
  function Brought(e: RootEvent): Update {
    match e
    case LocalUpdate(update) => update
    case RemoteUpdate(update) => update
    case OfflineLoaded(updates) => JoinUpdates(updates)
    case OfflineFailed(appliedUpdates) => JoinUpdates(appliedUpdates)
    case _ => {}
  }

  function BroughtBy(events: seq<RootEvent>): Update {
    if events == [] then {} else Brought(events[0]) + BroughtBy(events[1..])
  }

  lemma {:induction false} JoinUpdatesIs(updates: seq<Update>)
    ensures forall op :: op in JoinUpdates(updates) <==> exists i :: 0 <= i < |updates| && op in updates[i]
  {
    if updates != [] {
      JoinUpdatesIs(Init(updates));
      assert forall i :: 0 <= i < |updates| - 1 ==> Init(updates)[i] == updates[i];
    }
  }

  /** Over every run the document is what it was and all that was brought, no more, and no frame holds more than it. */
  lemma {:induction false} DocumentIsAllBrought(r: Root, events: seq<RootEvent>)
    requires forall i :: 0 <= i < |r.frames| ==> r.frames[i] <= r.doc
    ensures var end := RootRun(r, events);
            end.doc == r.doc + BroughtBy(events) && forall i :: 0 <= i < |end.frames| ==> end.frames[i] <= end.doc
    decreases |events|
  {
    if events != [] {
      DocumentIsAllBrought(RootStep(r, events[0]), events[1..]);
    }
  }

  /** A peer that says what it knows is sent the rest, while the socket is open; a snapshot is the whole document. */
  lemma {:induction false} RequestsAreAnswered(r: Root, known: Update)
    requires r.open
    ensures var answered := RootStep(r, StateVectorRequest(known));
            && |answered.frames| == |r.frames| + 1
            && known + Last(answered.frames) == known + r.doc && known !! Last(answered.frames)
    ensures var snapshot := RootStep(r, SendSnapshot);
            |snapshot.frames| == |r.frames| + 1 && Last(snapshot.frames) == r.doc
  {
  }

  /** The socket is open from an opening to the next close, and a closed one takes no frames. */
  lemma {:induction false} SocketStateIs(r: Root, e: RootEvent)
    ensures RootStep(r, e).open == (e.Opened? || (r.open && !e.Closed?))
    ensures !RootStep(r, e).open ==> RootStep(r, e).frames == r.frames
  {
  }

  /** In the document, and in a frame or owed to the peer. */
  ghost predicate Owed(r: Root, u: Update) {
    u <= r.doc && (r.pendingLocalSync || Carried(r.frames, u))
  }

  lemma {:induction false} StepKeepsOwed(r: Root, e: RootEvent, u: Update)
    requires Owed(r, u)
    ensures Owed(RootStep(r, e), u)
    ensures e.Opened? ==> Carried(RootStep(r, e).frames, u)
  {
    var after := RootStep(r, e);
    if after.frames != r.frames && (Carried(r.frames, u) || u <= Last(after.frames)) {
      CarriedLonger(r.frames, Last(after.frames), u);
    }
  }

  lemma {:induction false} RunKeepsOwed(r: Root, events: seq<RootEvent>, u: Update)
    requires Owed(r, u)
    ensures Owed(RootRun(r, events), u)
    decreases |events|
  {
    if events != [] {
      StepKeepsOwed(r, events[0], u);
      RunKeepsOwed(RootStep(r, events[0]), events[1..], u);
    }
  }

  /** What was stored offline is sent as well: the next time the socket opens it is in a frame, and stays in one. */
  lemma {:induction false} OfflineUpdatesAreSent(
    r: Root, updates: seq<Update>, before: seq<RootEvent>, after: seq<RootEvent>)
    requires updates != []
    ensures var reopened := RootStep(RootRun(RootStep(r, OfflineLoaded(updates)), before), Opened);
            && Carried(reopened.frames, JoinUpdates(updates))
            && Carried(RootRun(reopened, after).frames, JoinUpdates(updates))
  {
    var u, loaded := JoinUpdates(updates), RootStep(r, OfflineLoaded(updates));
    RunKeepsOwed(loaded, before, u);
    StepKeepsOwed(RootRun(loaded, before), Opened, u);
    var reopened := RootStep(RootRun(loaded, before), Opened);
    RunKeepsFrames(reopened, after);
    var i :| 0 <= i < |reopened.frames| && u <= reopened.frames[i];
    assert RootRun(reopened, after).frames[i] == reopened.frames[i];
  }

  // ---------------------------------------------------------------- early subdocument frames

  datatype Arrival = Arrival(guid: Guid, update: Update)

  /** A frame the provider is done with: applied to the subdocument, or lost. */
  datatype Settled = Settled(arrival: Arrival, applied: bool)

  /** `settled` and `received` record all frames in order; `bound` and `queues` are the provider's maps. */
  datatype Subdocs = Subdocs(
    bound: map<Guid, DocId>,
    queues: map<Guid, seq<Update>>,
    settled: seq<Settled>,
    received: seq<Arrival>)

  datatype SubdocEvent = Receive(arrival: Arrival) | Bind(guid: Guid, doc: DocId) | Unbind(guid: Guid, doc: DocId)

  function QueueOf(s: Subdocs, guid: Guid): seq<Update> {
    if guid in s.queues then s.queues[guid] else []
  }

  function Tagged(guid: Guid, updates: seq<Update>): seq<Arrival> {
    seq(|updates|, i requires 0 <= i < |updates| => Arrival(guid, updates[i]))
  }

  predicate AnyThrows(throws: Update -> bool, updates: seq<Update>) {
    exists i | 0 <= i < |updates| :: throws(updates[i])
  }

  lemma AnyThrowsSnoc(throws: Update -> bool, updates: seq<Update>, i: nat)
    requires i < |updates|
    ensures AnyThrows(throws, updates[..i + 1]) <==> AnyThrows(throws, updates[..i]) || throws(updates[i])
    ensures throws(updates[i]) ==> AnyThrows(throws, updates)
  {
    assert updates[..i + 1][i] == updates[i];
    if AnyThrows(throws, updates[..i]) {
      var k :| 0 <= k < i && throws(updates[..i][k]);
      assert updates[..i + 1][k] == updates[..i][k];
    }
  }

  /** Applying a queue that is already deleted: what throws and everything after it is lost. */
  function AppliedQueue(throws: Update -> bool, guid: Guid, updates: seq<Update>): seq<Settled> {
    seq(|updates|, i requires 0 <= i < |updates| =>
      Settled(Arrival(guid, updates[i]), !AnyThrows(throws, updates[..i + 1])))
  }

  function Arrivals(settled: seq<Settled>): seq<Arrival> {
    seq(|settled|, i requires 0 <= i < |settled| => settled[i].arrival)
  }

  /** `throws` says which updates `Y.applyUpdate` cannot apply. */
  function SubdocStep(throws: Update -> bool, s: Subdocs, e: SubdocEvent): Subdocs {
    match e
    case Receive(a) =>
      var seen := s.(received := s.received + [a]);
      if a.guid in s.bound then seen.(settled := s.settled + [Settled(a, !throws(a.update))])
      else seen.(queues := s.queues[a.guid := QueueOf(s, a.guid) + [a.update]])
    case Bind(guid, doc) =>
      if guid in s.bound && s.bound[guid] == doc then s
      else
        s.(bound := s.bound[guid := doc],
           queues := s.queues - {guid},
           settled := s.settled + AppliedQueue(throws, guid, QueueOf(s, guid)))
    case Unbind(guid, doc) =>
      if guid in s.bound && s.bound[guid] == doc then s.(bound := s.bound - {guid}) else s
  }

  function UpdatesFor(arrivals: seq<Arrival>, guid: Guid): seq<Update> {
    if arrivals == [] then []
    else UpdatesFor(Init(arrivals), guid) + (if Last(arrivals).guid == guid then [Last(arrivals).update] else [])
  }

  lemma {:induction false} UpdatesForAppend(first: seq<Arrival>, second: seq<Arrival>, guid: Guid)
    ensures UpdatesFor(first + second, guid) == UpdatesFor(first, guid) + UpdatesFor(second, guid)
    decreases |second|
  {
    if second == [] {
      assert first + second == first;
    } else {
      assert Init(first + second) == first + Init(second) && Last(first + second) == Last(second);
      UpdatesForAppend(first, Init(second), guid);
    }
  }

  lemma UpdatesForSnoc(arrivals: seq<Arrival>, a: Arrival, guid: Guid)
    ensures UpdatesFor(arrivals + [a], guid)
         == UpdatesFor(arrivals, guid) + (if a.guid == guid then [a.update] else [])
  {
    assert Init(arrivals + [a]) == arrivals;
  }

  lemma {:induction false} UpdatesForTagged(guid: Guid, updates: seq<Update>, other: Guid)
    ensures UpdatesFor(Tagged(guid, updates), other) == if other == guid then updates else []
  {
    if updates != [] {
      assert Tagged(guid, updates) == Tagged(guid, Init(updates)) + [Arrival(guid, Last(updates))];
      UpdatesForSnoc(Tagged(guid, Init(updates)), Arrival(guid, Last(updates)), other);
      UpdatesForTagged(guid, Init(updates), other);
      assert updates == Init(updates) + [Last(updates)];
    }
  }

  /** Per guid: received is settled, then queued, in order of arrival; and a bound guid has no queue. */
  ghost predicate InOrder(s: Subdocs) {
    && (forall guid: Guid {:trigger UpdatesFor(s.received, guid)} ::
          UpdatesFor(s.received, guid) == UpdatesFor(Arrivals(s.settled), guid) + QueueOf(s, guid))
    && (forall guid :: guid in s.bound ==> guid !in s.queues)
  }

  lemma ArrivalsAppend(first: seq<Settled>, second: seq<Settled>)
    ensures Arrivals(first + second) == Arrivals(first) + Arrivals(second)
  {
  }

  lemma ArrivalsOfQueue(throws: Update -> bool, guid: Guid, updates: seq<Update>)
    ensures Arrivals(AppliedQueue(throws, guid, updates)) == Tagged(guid, updates)
  {
  }

  lemma {:induction false} SettledSnoc(settled: seq<Settled>, x: Settled, guid: Guid)
    ensures UpdatesFor(Arrivals(settled + [x]), guid)
         == UpdatesFor(Arrivals(settled), guid) + (if x.arrival.guid == guid then [x.arrival.update] else [])
  {
    ArrivalsAppend(settled, [x]);
    assert Arrivals([x]) == [x.arrival];
    UpdatesForSnoc(Arrivals(settled), x.arrival, guid);
  }

  lemma {:induction false} SettledQueue(
    throws: Update -> bool, settled: seq<Settled>, bound: Guid, updates: seq<Update>, guid: Guid)
    ensures UpdatesFor(Arrivals(settled + AppliedQueue(throws, bound, updates)), guid)
         == UpdatesFor(Arrivals(settled), guid) + (if guid == bound then updates else [])
  {
    ArrivalsAppend(settled, AppliedQueue(throws, bound, updates));
    ArrivalsOfQueue(throws, bound, updates);
    UpdatesForAppend(Arrivals(settled), Tagged(bound, updates), guid);
    UpdatesForTagged(bound, updates, guid);
  }

  lemma {:induction false} ReceiveBoundInOrder(throws: Update -> bool, s: Subdocs, a: Arrival, guid: Guid)
    requires InOrder(s) && a.guid in s.bound
    ensures var after := SubdocStep(throws, s, Receive(a));
            UpdatesFor(after.received, guid) == UpdatesFor(Arrivals(after.settled), guid) + QueueOf(after, guid)
  {
    var settled, queue := UpdatesFor(Arrivals(s.settled), guid), QueueOf(s, guid);
    assert UpdatesFor(s.received, guid) == settled + queue;
    assert a.guid == guid ==> queue == [];
    UpdatesForSnoc(s.received, a, guid);
    SettledSnoc(s.settled, Settled(a, !throws(a.update)), guid);
  }

  lemma {:induction false} ReceiveInOrder(throws: Update -> bool, s: Subdocs, a: Arrival, guid: Guid)
    requires InOrder(s)
    ensures var after := SubdocStep(throws, s, Receive(a));
            UpdatesFor(after.received, guid) == UpdatesFor(Arrivals(after.settled), guid) + QueueOf(after, guid)
  {
    if a.guid in s.bound {
      ReceiveBoundInOrder(throws, s, a, guid);
    } else {
      assert UpdatesFor(s.received, guid) == UpdatesFor(Arrivals(s.settled), guid) + QueueOf(s, guid);
      UpdatesForSnoc(s.received, a, guid);
    }
  }

  lemma {:induction false} BindInOrder(throws: Update -> bool, s: Subdocs, bound: Guid, doc: DocId, guid: Guid)
    requires InOrder(s)
    ensures var after := SubdocStep(throws, s, Bind(bound, doc));
            UpdatesFor(after.received, guid) == UpdatesFor(Arrivals(after.settled), guid) + QueueOf(after, guid)
  {
    var queue, settled := QueueOf(s, bound), UpdatesFor(Arrivals(s.settled), guid);
    assert UpdatesFor(s.received, guid) == settled + QueueOf(s, guid);
    if !(bound in s.bound && s.bound[bound] == doc) {
      SettledQueue(throws, s.settled, bound, queue, guid);
      var after := SubdocStep(throws, s, Bind(bound, doc));
      assert after.settled == s.settled + AppliedQueue(throws, bound, queue) && after.received == s.received;
      assert QueueOf(after, guid) == if guid == bound then [] else QueueOf(s, guid);
      assert settled + [] == settled && settled + queue + [] == settled + queue;
    }
  }

  lemma SubdocStepInOrder(throws: Update -> bool, s: Subdocs, e: SubdocEvent)
    requires InOrder(s)
    ensures InOrder(SubdocStep(throws, s, e))
  {
    var after := SubdocStep(throws, s, e);
    forall guid: Guid
      ensures UpdatesFor(after.received, guid) == UpdatesFor(Arrivals(after.settled), guid) + QueueOf(after, guid)
    {
      assert UpdatesFor(s.received, guid) == UpdatesFor(Arrivals(s.settled), guid) + QueueOf(s, guid);
      match e {
        case Receive(a) => ReceiveInOrder(throws, s, a, guid);
        case Bind(bound, doc) => BindInOrder(throws, s, bound, doc, guid);
        case Unbind(_, _) =>
      }
    }
  }

  function SubdocRun(throws: Update -> bool, s: Subdocs, events: seq<SubdocEvent>): Subdocs
    decreases |events|
  {
    if events == [] then s else SubdocRun(throws, SubdocStep(throws, s, events[0]), events[1..])
  }

  /**
    Over every run of binding, unbinding and rebinding, and whatever cannot be applied, each frame is settled once and
    in order, or still queued.
   */
  lemma {:induction false} EarlyFramesKeepTheirOrder(throws: Update -> bool, s: Subdocs, events: seq<SubdocEvent>)
    requires InOrder(s)
    ensures InOrder(SubdocRun(throws, s, events))
    decreases |events|
  {
    if events != [] {
      SubdocStepInOrder(throws, s, events[0]);
      EarlyFramesKeepTheirOrder(throws, SubdocStep(throws, s, events[0]), events[1..]);
    }
  }

  /** What throws is lost, and a lost frame that does not throw was queued behind a lost one of its guid. */
  predicate LostRightly(throws: Update -> bool, settled: seq<Settled>, i: nat)
    requires i < |settled|
  {
    var thrown := throws(settled[i].arrival.update);
    && (thrown ==> !settled[i].applied)
    && (!settled[i].applied && !thrown ==>
          i > 0 && !settled[i - 1].applied && settled[i - 1].arrival.guid == settled[i].arrival.guid)
  }

  ghost predicate LostBehindThrown(throws: Update -> bool, settled: seq<Settled>) {
    forall i :: 0 <= i < |settled| ==> LostRightly(throws, settled, i)
  }

  lemma {:induction false} QueueLosesBehindThrown(throws: Update -> bool, guid: Guid, updates: seq<Update>)
    ensures LostBehindThrown(throws, AppliedQueue(throws, guid, updates))
  {
    var settled := AppliedQueue(throws, guid, updates);
    forall i | 0 <= i < |settled| ensures LostRightly(throws, settled, i) {
      assert updates[..i + 1][i] == updates[i];
      if !settled[i].applied && !throws(updates[i]) {
        var k :| 0 <= k < i + 1 && throws(updates[..i + 1][k]);
        assert k < i && updates[..i][k] == updates[k] && updates[..i - 1 + 1] == updates[..i];
      }
    }
  }

  lemma LostBehindThrownAppend(throws: Update -> bool, first: seq<Settled>, second: seq<Settled>)
    requires LostBehindThrown(throws, first) && LostBehindThrown(throws, second)
    ensures LostBehindThrown(throws, first + second)
  {
    var all := first + second;
    forall i | 0 <= i < |all| ensures LostRightly(throws, all, i) {
      if i < |first| {
        assert LostRightly(throws, first, i);
      } else {
        assert LostRightly(throws, second, i - |first|);
      }
    }
  }

  /** Exactly which frames are lost, over every run: those that throw, and those in one queue behind one that throws. */
  lemma {:induction false} FramesLostInRun(throws: Update -> bool, s: Subdocs, events: seq<SubdocEvent>)
    requires LostBehindThrown(throws, s.settled)
    ensures LostBehindThrown(throws, SubdocRun(throws, s, events).settled)
    decreases |events|
  {
    if events != [] {
      match events[0] {
        case Receive(a) => LostBehindThrownAppend(throws, s.settled, [Settled(a, !throws(a.update))]);
        case Bind(guid, doc) =>
          QueueLosesBehindThrown(throws, guid, QueueOf(s, guid));
          LostBehindThrownAppend(throws, s.settled, AppliedQueue(throws, guid, QueueOf(s, guid)));
        case Unbind(_, _) =>
      }
      FramesLostInRun(throws, SubdocStep(throws, s, events[0]), events[1..]);
    }
  }

  /** When everything can be applied, no frame is lost. */
  lemma NothingThrownNothingLost(throws: Update -> bool, s: Subdocs, events: seq<SubdocEvent>)
    requires s.settled == [] && forall u :: !throws(u)
    ensures forall x :: x in SubdocRun(throws, s, events).settled ==> x.applied
  {
    FramesLostInRun(throws, s, events);
    AllApplied(throws, SubdocRun(throws, s, events).settled);
  }

  lemma {:induction false} AllApplied(throws: Update -> bool, settled: seq<Settled>)
    requires LostBehindThrown(throws, settled) && forall u :: !throws(u)
    ensures forall x :: x in settled ==> x.applied
  {
    if settled != [] {
      var init, last := Init(settled), |settled| - 1;
      forall i | 0 <= i < last ensures LostRightly(throws, init, i) {
        assert LostRightly(throws, settled, i);
      }
      AllApplied(throws, init);
      assert LostRightly(throws, settled, last);
      assert last > 0 ==> settled[last - 1] in init;
      assert settled[last].applied;
      assert settled == init + [settled[last]];
    }
  }

  /** Binding and unbinding decide where the next frame goes: to the document bound last, or to the queue. */
  lemma {:induction false} NextFrameGoesTo(throws: Update -> bool, s: Subdocs, guid: Guid, doc: DocId, update: Update)
    requires InOrder(s)
    ensures var bound := SubdocStep(throws, s, Bind(guid, doc));
            && guid in bound.bound && bound.bound[guid] == doc
            && QueueOf(SubdocStep(throws, bound, Receive(Arrival(guid, update))), guid) == []
    ensures guid in s.bound && s.bound[guid] == doc ==>
              var unbound := SubdocStep(throws, s, Unbind(guid, doc));
              && guid !in unbound.bound && unbound.settled == s.settled
              && QueueOf(SubdocStep(throws, unbound, Receive(Arrival(guid, update))), guid) == [update]
    ensures !(guid in s.bound && s.bound[guid] == doc) ==> SubdocStep(throws, s, Unbind(guid, doc)) == s
  {
  }

  // ---------------------------------------------------------------- the provider object

  class OpenRTCYjsProvider {
    const throws: Update -> bool
    var doc: Update
    var socketOpen: bool
    var pendingLocalSync: bool
    var subdocs: map<Guid, DocId>
    var pendingSubdocUpdates: map<Guid, seq<Update>>
    ghost var frames: seq<Update>
    ghost var local: seq<Update>
    ghost var settled: seq<Settled>
    ghost var received: seq<Arrival>

    ghost function RootState(): Root
      reads this
    {
      Root(doc, socketOpen, pendingLocalSync, frames, local)
    }

    ghost function SubdocState(): Subdocs
      reads this
    {
      Subdocs(subdocs, pendingSubdocUpdates, settled, received)
    }

    constructor (throws: Update -> bool, doc: Update)
      ensures this.throws == throws
      ensures RootState() == Root(doc, false, false, [], [])
      ensures SubdocState() == Subdocs(map[], map[], [], [])
      ensures NothingForgotten(RootState()) && InOrder(SubdocState())
    {
      this.throws := throws;
      this.doc, socketOpen, pendingLocalSync := doc, false, false;
      subdocs, pendingSubdocUpdates := map[], map[];
      frames, local, settled, received := [], [], [], [];
    }

    method SendFrame(update: Update) returns (sent: bool)
      modifies this
      ensures RootState() == Sent(old(RootState()), update) && SubdocState() == old(SubdocState())
      ensures sent == socketOpen
    {
      if !socketOpen {
        return false;
      }
      frames := frames + [update];
      return true;
    }

    method HandleLocalUpdate(update: Update)
      modifies this
      ensures RootState() == RootStep(old(RootState()), LocalUpdate(update)) && SubdocState() == old(SubdocState())
    {
      doc := doc + update;
      local := local + [update];
      var sent := SendFrame(update);
      if !sent {
        pendingLocalSync := true;
      }
    }

    /** `loadOfflineUpdatesOnce`; `fails` is the index of the first update that cannot be applied, if there is one. */
    method LoadOfflineUpdates(updates: seq<Update>, fails: Option<nat>) returns (loaded: bool)
      modifies this
      ensures loaded <==> !(fails.Some? && fails.value < |updates|)
      ensures RootState() == RootStep(old(RootState()), if loaded then OfflineLoaded(updates)
                                                        else OfflineFailed(updates[..fails.value]))
      ensures SubdocState() == old(SubdocState())
    {
      for i := 0 to |updates|
        invariant fails.Some? ==> i <= fails.value
        invariant RootState() == old(RootState()).(doc := old(doc) + JoinUpdates(updates[..i]))
        invariant SubdocState() == old(SubdocState())
      {
        if fails == Some(i) {
          return false;
        }
        assert Init(updates[..i + 1]) == updates[..i];
        doc := doc + updates[i];
      }
      assert updates[..|updates|] == updates;
      if |updates| > 0 {
        pendingLocalSync := true;
      }
      return true;
    }

    method OnOpen()
      modifies this
      ensures RootState() == RootStep(old(RootState()), Opened) && SubdocState() == old(SubdocState())
    {
      socketOpen := true;
      if pendingLocalSync {
        var sent := SendFrame(doc);
        if sent {
          pendingLocalSync := false;
        }
      }
    }

    method HandleRemoteSubdocFrame(guid: Guid, update: Update) returns (thrown: bool)
      modifies this
      ensures SubdocState() == SubdocStep(throws, old(SubdocState()), Receive(Arrival(guid, update)))
      ensures thrown <==> guid in old(subdocs) && throws(update)
      ensures RootState() == old(RootState())
    {
      received := received + [Arrival(guid, update)];
      if guid in subdocs {
        settled := settled + [Settled(Arrival(guid, update), !throws(update))];
        return throws(update);
      }
      var updates := if guid in pendingSubdocUpdates then pendingSubdocUpdates[guid] else [];
      pendingSubdocUpdates := pendingSubdocUpdates[guid := updates + [update]];
      return false;
    }

    /** The queue is deleted before its updates are applied, so the loop that throws drops the rest of them. */
    method BindSubdoc(guid: Guid, subdoc: DocId) returns (thrown: bool)
      modifies this
      ensures SubdocState() == SubdocStep(throws, old(SubdocState()), Bind(guid, subdoc))
      ensures thrown <==> old(!(guid in subdocs && subdocs[guid] == subdoc)
                              && AnyThrows(throws, QueueOf(SubdocState(), guid)))
      ensures RootState() == old(RootState())
    {
      if guid in subdocs && subdocs[guid] == subdoc {
        return false;
      }
      if guid in subdocs {
        UnbindSubdoc(guid, subdocs[guid]);
      }
      subdocs := subdocs[guid := subdoc];
      var updates := if guid in pendingSubdocUpdates then pendingSubdocUpdates[guid] else [];
      pendingSubdocUpdates := pendingSubdocUpdates - {guid};
      ghost var before, outcome := settled, AppliedQueue(throws, guid, updates);
      for i := 0 to |updates|
        invariant settled == before + outcome[..i] && !AnyThrows(throws, updates[..i])
        invariant subdocs == old(subdocs)[guid := subdoc] && pendingSubdocUpdates == old(pendingSubdocUpdates) - {guid}
        invariant RootState() == old(RootState()) && received == old(received)
      {
        TakeSnoc(outcome, i);
        AnyThrowsSnoc(throws, updates, i);
        if throws(updates[i]) {
          settled := before + outcome;
          return true;
        }
        settled := settled + [Settled(Arrival(guid, updates[i]), true)];
      }
      assert outcome[..|updates|] == outcome && updates[..|updates|] == updates;
      return false;
    }

    method UnbindSubdoc(guid: Guid, subdoc: DocId)
      modifies this
      ensures SubdocState() == SubdocStep(throws, old(SubdocState()), Unbind(guid, subdoc))
      ensures RootState() == old(RootState())
    {
      if guid in subdocs && subdocs[guid] == subdoc {
        subdocs := subdocs - {guid};
      }
    }
  }
}
