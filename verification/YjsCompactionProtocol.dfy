/**
  Compaction while writers keep appending. An append takes a sequence first and becomes visible later; the compactor
  reads the store in several commands, decides, and replaces the snapshot in one transaction; any command may fail,
  and the reply of the transaction may be lost after it took effect.
 */
module YjsCompactionProtocol {
  import opened Wrappers
  import opened YjsCompaction

  /** How far the compactor has come. A crash or a failed command leaves it idle, ready for a retry from the start. */
  datatype Phase =
    | Idle
    | NoV2Snapshot
    | HaveSnapshot(checkpoint: nat, snapshot: Option<Bytes>)
    | HaveLegacy(checkpoint: nat, snapshot: Option<Bytes>, legacy: seq<Bytes>)
    | Loaded(input: Input)
    | Merged(target: nat, merged: Bytes)

  datatype State = State(
    store: Store,
    /** Appends that have their sequence but are not visible yet. */
    inFlight: map<nat, LogRecord>,
    phase: Phase,
    /** Everything the room ever held: not kept by the system, only spoken of. */
    published: set<YOp>)

  datatype Event =
    | Reserve(record: LogRecord)
    | Publish(sequence: nat)
    | Advance
    | LostReply
    | Fail

  function Advanced(encodedSize: set<YOp> -> nat, options: Options, s: State): State
    requires Encodes(encodedSize)
  {
    match s.phase
    case Idle =>
      s.(phase := match s.store.snapshot
                  case Some(record) => HaveSnapshot(record.checkpoint, Some(record.bytes))
                  case None => NoV2Snapshot)
    case NoV2Snapshot => s.(phase := HaveSnapshot(0, s.store.legacySnapshot))
    case HaveSnapshot(checkpoint, snapshot) => s.(phase := HaveLegacy(checkpoint, snapshot, s.store.legacyUpdates))
    case HaveLegacy(checkpoint, snapshot, legacy) =>
      s.(phase := Loaded(Input(snapshot, checkpoint,
                               LegacyInputs(legacy) + Ranged(s.store.log, checkpoint, s.store.counter))))
    case Loaded(input) =>
      s.(phase := match Decide(encodedSize, options, input)
                  case Compacted(checkpoint, snapshot) => Merged(checkpoint, snapshot)
                  case _ => Idle)
    case Merged(checkpoint, snapshot) => s.(store := Replaced(s.store, checkpoint, snapshot), phase := Idle)
  }

  predicate Enabled(s: State, e: Event) {
    match e
    case Publish(sequence) => sequence in s.inFlight
    case LostReply => s.phase.Merged?
    case _ => true
  }

  function Step(encodedSize: set<YOp> -> nat, options: Options, s: State, e: Event): State
    requires Encodes(encodedSize) && Enabled(s, e)
  {
    match e
    case Reserve(record) =>
      var sequence := s.store.counter + 1;
      s.(store := s.store.(counter := sequence), inFlight := s.inFlight[sequence := record])
    case Publish(sequence) =>
      s.(store := s.store.(log := s.store.log[sequence := s.inFlight[sequence]]),
         inFlight := s.inFlight - {sequence},
         published := s.published + s.inFlight[sequence].bytes.ops)
    case Advance => Advanced(encodedSize, options, s)
    case LostReply => Advanced(encodedSize, options, s)
    case Fail => s.(phase := Idle)
  }

  // ---------------------------------------------------------------- what every step keeps

  /** Sequences given out are positive, never above the counter, and each is in flight or in the log, not both. */
  ghost predicate Sequencing(s: State) {
    && (forall q :: q in s.store.log ==> 0 < q <= s.store.counter)
    && (forall q :: q in s.inFlight ==> 0 < q <= s.store.counter && q !in s.store.log)
    && Checkpoint(s.store) <= s.store.counter
  }

  /** The checkpoint the store has, or will have if the compaction under way goes through. */
  function Horizon(s: State): nat {
    match s.phase
    case Loaded(input) => MaxSeq(input.updates, input.checkpoint)
    case Merged(checkpoint, _) => checkpoint
    case _ => Checkpoint(s.store)
  }

  /** The log between the checkpoint and a bound. */
  function Span(log: map<nat, LogRecord>, low: nat, high: nat): set<YOp> {
    set q, op | q in log && low < q <= high && op in log[q].bytes.ops :: op
  }

  /** What the compactor holds is what the store still says, as far as it reaches. */
  ghost predicate Faithful(s: State) {
    match s.phase
    case Idle => true
    case NoV2Snapshot => s.store.snapshot.None?
    case HaveSnapshot(checkpoint, snapshot) =>
      checkpoint == Checkpoint(s.store) && snapshot == LoadedSnapshot(s.store)
    case HaveLegacy(checkpoint, snapshot, legacy) =>
      checkpoint == Checkpoint(s.store) && snapshot == LoadedSnapshot(s.store) && legacy == s.store.legacyUpdates
    case Loaded(input) =>
      && input.checkpoint == Checkpoint(s.store) && input.snapshot == LoadedSnapshot(s.store)
      && (s.store.legacyUpdates != [] ==> exists u :: u in input.updates && u.sequence == 0)
      && (forall u :: u in input.updates && u.sequence > 0 ==>
            u.sequence > input.checkpoint && u.sequence in s.store.log
            && u == Sequenced(u.sequence, s.store.log[u.sequence].kind, s.store.log[u.sequence].bytes))
      && (forall q :: q in s.store.log && input.checkpoint < q <= Horizon(s) ==>
            Sequenced(q, s.store.log[q].kind, s.store.log[q].bytes) in input.updates)
      && Horizon(s) <= s.store.counter
    case Merged(checkpoint, snapshot) =>
      && Checkpoint(s.store) <= checkpoint <= s.store.counter
      && s.store.legacyUpdates == []
      && snapshot.ops == SnapshotOps(LoadedSnapshot(s.store)) + Span(s.store.log, Checkpoint(s.store), checkpoint)
  }

  ghost predicate Good(s: State) {
    Sequencing(s) && Faithful(s) && Rebuilt(s.store) == s.published
  }

  /** The one guard of safety: an append becomes visible above the checkpoint in force and the one being made. */
  predicate AboveHorizon(s: State, e: Event) {
    e.Publish? ==> e.sequence > Horizon(s)
  }

  lemma SequencingKept(encodedSize: set<YOp> -> nat, options: Options, s: State, e: Event)
    requires Encodes(encodedSize) && Enabled(s, e) && Sequencing(s) && Faithful(s)
    ensures Sequencing(Step(encodedSize, options, s, e))
  {
  }

  lemma LoadIsFaithful(encodedSize: set<YOp> -> nat, options: Options, s: State)
    requires Encodes(encodedSize) && Sequencing(s) && Faithful(s) && s.phase.HaveLegacy?
    ensures Faithful(Advanced(encodedSize, options, s))
  {
    var store := s.store;
    var ranged := Ranged(store.log, s.phase.checkpoint, store.counter);
    var updates := LegacyInputs(s.phase.legacy) + ranged;
    RangedIn(store.log, s.phase.checkpoint, store.counter);
    LegacyInputsIn(s.phase.legacy);
    assert forall u :: u in updates <==> u in LegacyInputs(s.phase.legacy) || u in ranged;
    if store.legacyUpdates != [] {
      assert LegacyInputs(s.phase.legacy)[0] in updates;
    }
    MaxSeqBounds(updates, s.phase.checkpoint);
  }

  lemma DecisionIsFaithful(encodedSize: set<YOp> -> nat, options: Options, s: State)
    requires Encodes(encodedSize) && Sequencing(s) && Faithful(s) && s.phase.Loaded?
    ensures Faithful(Advanced(encodedSize, options, s))
  {
    var input := s.phase.input;
    var decision := Decide(encodedSize, options, input);
    if decision.Compacted? {
      CompactedCovers(encodedSize, options, input);
      MaxSeqBounds(input.updates, input.checkpoint);
      OpsOfIn(input.updates);
      var span := Span(s.store.log, input.checkpoint, decision.checkpoint);
      forall op ensures op in OpsOf(input.updates) <==> op in span {
        if op in OpsOf(input.updates) {
          var u :| u in input.updates && op in u.bytes.ops;
          assert u.sequence in s.store.log && u.sequence <= decision.checkpoint;
        }
        if op in span {
          var q :| q in s.store.log && input.checkpoint < q <= decision.checkpoint && op in s.store.log[q].bytes.ops;
          assert Sequenced(q, s.store.log[q].kind, s.store.log[q].bytes) in input.updates;
        }
      }
    }
  }

  /** The transaction changes no rebuilt document: what it trims is what it put in the snapshot. */
  lemma ReplaceKeepsDocument(s: State)
    requires Sequencing(s) && Faithful(s) && s.phase.Merged?
    ensures Rebuilt(Replaced(s.store, s.phase.target, s.phase.merged)) == Rebuilt(s.store)
  {
    var store, checkpoint := s.store, s.phase.target;
    var after := Replaced(store, checkpoint, s.phase.merged);
    forall op ensures op in LogOps(store.log, Checkpoint(store)) <==>
                      op in Span(store.log, Checkpoint(store), checkpoint) || op in LogOps(after.log, checkpoint) {
      if op in LogOps(store.log, Checkpoint(store)) {
        var q :| q in store.log && q > Checkpoint(store) && op in store.log[q].bytes.ops;
        assert q <= checkpoint || (q in after.log && op in after.log[q].bytes.ops);
      }
      if op in LogOps(after.log, checkpoint) {
        var q :| q in after.log && q > checkpoint && op in after.log[q].bytes.ops;
        assert q in store.log && q > Checkpoint(store);
      }
    }
    assert LegacyOps([]) == {};
  }

  lemma SpanBelow(log: map<nat, LogRecord>, sequence: nat, record: LogRecord, low: nat, high: nat)
    requires high < sequence
    ensures Span(log[sequence := record], low, high) == Span(log, low, high)
  {
    var grown := log[sequence := record];
    forall op | op in Span(log, low, high) ensures op in Span(grown, low, high) {
      var q :| q in log && low < q <= high && op in log[q].bytes.ops;
      assert q in grown && grown[q] == log[q];
    }
  }

  lemma PublishAdds(s: State, sequence: nat)
    requires sequence in s.inFlight && sequence !in s.store.log
    ensures var after := s.store.(log := s.store.log[sequence := s.inFlight[sequence]]);
            && Rebuilt(after) == Rebuilt(s.store) + (if sequence > Checkpoint(s.store)
                                                     then s.inFlight[sequence].bytes.ops else {})
            && forall low: nat, high: nat :: high < sequence ==>
                 Span(after.log, low, high) == Span(s.store.log, low, high)
  {
    var record := s.inFlight[sequence];
    var log := s.store.log[sequence := record];
    var low := Checkpoint(s.store);
    forall op ensures op in LogOps(log, low) <==>
                      op in LogOps(s.store.log, low) || (sequence > low && op in record.bytes.ops) {
      if op in LogOps(s.store.log, low) {
        var q :| q in s.store.log && q > low && op in s.store.log[q].bytes.ops;
        assert q in log && log[q] == s.store.log[q];
      }
      if sequence > low && op in record.bytes.ops {
        assert sequence in log && op in log[sequence].bytes.ops;
      }
    }
    forall low: nat, high: nat | high < sequence ensures Span(log, low, high) == Span(s.store.log, low, high) {
      SpanBelow(s.store.log, sequence, record, low, high);
    }
  }

  /** The first commands of the compactor only read. */
  lemma {:induction false} ReadKeepsGood(encodedSize: set<YOp> -> nat, options: Options, s: State)
    requires Encodes(encodedSize) && Good(s) && !s.phase.Merged?
    ensures Good(Advanced(encodedSize, options, s))
    ensures Advanced(encodedSize, options, s).store == s.store
  {
    match s.phase {
      case HaveLegacy(_, _, _) => LoadIsFaithful(encodedSize, options, s);
      case Loaded(_) => DecisionIsFaithful(encodedSize, options, s);
      case _ =>
    }
  }

  lemma {:induction false} ReplaceKeepsGood(encodedSize: set<YOp> -> nat, options: Options, s: State)
    requires Encodes(encodedSize) && Good(s) && s.phase.Merged?
    ensures Good(Advanced(encodedSize, options, s))
    ensures Checkpoint(Advanced(encodedSize, options, s).store) >= Checkpoint(s.store)
  {
    ReplaceKeepsDocument(s);
  }

  lemma {:induction false} PublishKeepsGood(encodedSize: set<YOp> -> nat, options: Options, s: State, sequence: nat)
    requires Encodes(encodedSize) && Good(s) && sequence in s.inFlight && sequence > Horizon(s)
    ensures Good(Step(encodedSize, options, s, Publish(sequence)))
  {
    if s.phase.Loaded? {
      MaxSeqBounds(s.phase.input.updates, s.phase.input.checkpoint);
    }
    PublishAdds(s, sequence);
  }

  lemma {:induction false} StepKeepsGood(encodedSize: set<YOp> -> nat, options: Options, s: State, e: Event)
    requires Encodes(encodedSize) && Enabled(s, e) && Good(s) && AboveHorizon(s, e)
    ensures Good(Step(encodedSize, options, s, e))
    ensures Checkpoint(Step(encodedSize, options, s, e).store) >= Checkpoint(s.store)
  {
    match e {
      case Reserve(_) => SequencingKept(encodedSize, options, s, e);
      case Publish(sequence) => PublishKeepsGood(encodedSize, options, s, sequence);
      case Fail =>
      case _ =>
        if s.phase.Merged? {
          ReplaceKeepsGood(encodedSize, options, s);
        } else {
          ReadKeepsGood(encodedSize, options, s);
        }
    }
  }

  // ---------------------------------------------------------------- whole runs

  function Run(encodedSize: set<YOp> -> nat, options: Options, s: State, events: seq<Event>): Option<State>
    requires Encodes(encodedSize)
    decreases |events|
  {
    if events == [] then Some(s)
    else if !Enabled(s, events[0]) then None
    else Run(encodedSize, options, Step(encodedSize, options, s, events[0]), events[1..])
  }

  ghost predicate InOrder(encodedSize: set<YOp> -> nat, options: Options, s: State, events: seq<Event>)
    requires Encodes(encodedSize)
    decreases |events|
  {
    events != [] && Enabled(s, events[0]) ==>
      AboveHorizon(s, events[0]) && InOrder(encodedSize, options, Step(encodedSize, options, s, events[0]), events[1..])
  }

  /** No interleaving, failure or retry loses or invents an operation, and the checkpoint only grows. */
  lemma {:induction false} CompactionLosesNothing(
    encodedSize: set<YOp> -> nat, options: Options, s: State, events: seq<Event>)
    requires Encodes(encodedSize) && Good(s) && InOrder(encodedSize, options, s, events)
    ensures Run(encodedSize, options, s, events).Some? ==>
              var after := Run(encodedSize, options, s, events).value;
              Good(after) && Checkpoint(after.store) >= Checkpoint(s.store)
    decreases |events|
  {
    if events != [] && Enabled(s, events[0]) {
      StepKeepsGood(encodedSize, options, s, events[0]);
      CompactionLosesNothing(encodedSize, options, Step(encodedSize, options, s, events[0]), events[1..]);
    }
  }

  /** Runs whose appends are atomic: each is reserved and published at once. */
  datatype Move = Append(record: LogRecord) | Compactor(event: Event)

  predicate IsCompactorEvent(s: State, e: Event) {
    (e.Advance? || e.Fail? || e.LostReply?) && Enabled(s, e)
  }

  function Moved(encodedSize: set<YOp> -> nat, options: Options, s: State, move: Move): State
    requires Encodes(encodedSize)
  {
    match move
    case Append(record) =>
      var reserved := Step(encodedSize, options, s, Reserve(record));
      Step(encodedSize, options, reserved, Publish(reserved.store.counter))
    case Compactor(e) => if IsCompactorEvent(s, e) then Step(encodedSize, options, s, e) else s
  }

  function Moves(encodedSize: set<YOp> -> nat, options: Options, s: State, moves: seq<Move>): State
    requires Encodes(encodedSize)
    decreases |moves|
  {
    if moves == [] then s else Moves(encodedSize, options, Moved(encodedSize, options, s, moves[0]), moves[1..])
  }

  lemma MoveKeepsGood(encodedSize: set<YOp> -> nat, options: Options, s: State, move: Move)
    requires Encodes(encodedSize) && Good(s)
    ensures Good(Moved(encodedSize, options, s, move))
    ensures Checkpoint(Moved(encodedSize, options, s, move).store) >= Checkpoint(s.store)
  {
    match move {
      case Append(record) =>
        StepKeepsGood(encodedSize, options, s, Reserve(record));
        var reserved := Step(encodedSize, options, s, Reserve(record));
        assert Horizon(s) <= s.store.counter;
        StepKeepsGood(encodedSize, options, reserved, Publish(reserved.store.counter));
      case Compactor(e) =>
        if IsCompactorEvent(s, e) {
          StepKeepsGood(encodedSize, options, s, e);
        }
    }
  }

  /**
    With atomic appends nothing at all is assumed about the run: whatever the interleaving with the compactor, its
    failures and retries, the rebuilt document is the join of everything appended.
   */
  lemma {:induction false} AtomicAppendsAreNeverLost(
    encodedSize: set<YOp> -> nat, options: Options, s: State, moves: seq<Move>)
    requires Encodes(encodedSize) && Good(s)
    ensures var after := Moves(encodedSize, options, s, moves);
            Good(after) && Rebuilt(after.store) == after.published && Checkpoint(after.store) >= Checkpoint(s.store)
    decreases |moves|
  {
    if moves != [] {
      MoveKeepsGood(encodedSize, options, s, moves[0]);
      AtomicAppendsAreNeverLost(encodedSize, options, Moved(encodedSize, options, s, moves[0]), moves[1..]);
    }
  }

  // ---------------------------------------------------------------- one compactor alone

  /** A store as it is between compactions. */
  ghost predicate InUse(store: Store) {
    (forall q :: q in store.log ==> 0 < q <= store.counter) && Checkpoint(store) <= store.counter
  }

  function Resting(store: Store): State {
    State(store, map[], Idle, Rebuilt(store))
  }

  /** The commands of a load, one after another, read what the store says. */
  lemma LoadSteps(encodedSize: set<YOp> -> nat, options: Options, store: Store)
    requires Encodes(encodedSize) && InUse(store)
    ensures Good(Resting(store).(phase := Loaded(InputOf(store))))
  {
    var s := Resting(store);
    var read := s.(phase := HaveLegacy(Checkpoint(store), LoadedSnapshot(store), store.legacyUpdates));
    assert Good(read);
    StepKeepsGood(encodedSize, options, read, Advance);
  }

  /** An attempt, whatever fails in it, changes no rebuilt document and never lowers the checkpoint. */
  lemma AttemptKeepsDocument(encodedSize: set<YOp> -> nat, options: Options, store: Store, fault: Fault)
    requires Encodes(encodedSize) && InUse(store)
    ensures var after := Attempted(encodedSize, options, store, fault).0;
            InUse(after) && Rebuilt(after) == Rebuilt(store) && Checkpoint(after) >= Checkpoint(store)
  {
    var loaded := Resting(store).(phase := Loaded(InputOf(store)));
    LoadSteps(encodedSize, options, store);
    if Decide(encodedSize, options, InputOf(store)).Compacted? {
      StepKeepsGood(encodedSize, options, loaded, Advance);
      var merged := Step(encodedSize, options, loaded, Advance);
      StepKeepsGood(encodedSize, options, merged, Advance);
    }
  }

  /** So do any number of retries. */
  lemma {:induction false} RetriesKeepDocument(
    encodedSize: set<YOp> -> nat, options: Options, store: Store, faults: nat -> Fault, n: nat)
    requires Encodes(encodedSize) && InUse(store)
    ensures var after := AttemptedTimes(encodedSize, options, store, faults, n);
            InUse(after) && Rebuilt(after) == Rebuilt(store) && Checkpoint(after) >= Checkpoint(store)
  {
    if n > 0 {
      RetriesKeepDocument(encodedSize, options, store, faults, n - 1);
      AttemptKeepsDocument(
        encodedSize, options, AttemptedTimes(encodedSize, options, store, faults, n - 1), faults(n - 1));
    }
  }

  /** After a transaction whose reply was lost, the retry finds nothing left to compact, and does not throw. */
  lemma RetryAfterLostReply(encodedSize: set<YOp> -> nat, options: Options, store: Store)
    requires Encodes(encodedSize) && InUse(store) && Decide(encodedSize, options, InputOf(store)).Compacted?
    ensures var after := Attempted(encodedSize, options, store, ReplyLost).0;
            && Decide(encodedSize, options, InputOf(after)) == Skipped(NoUpdates)
            && Attempted(encodedSize, options, after, NoFault) == (after, false)
  {
    LoadSteps(encodedSize, options, store);
    StepKeepsGood(encodedSize, options, Resting(store).(phase := Loaded(InputOf(store))), Advance);
    NothingAbove(encodedSize, options, store);
    var after := Attempted(encodedSize, options, store, ReplyLost).0;
    assert after.legacyUpdates == [] && after.log == map[];
    NothingRanged(after.log, Checkpoint(after), after.counter);
    assert InputOf(after).updates == [];
  }

  lemma {:induction false} NothingAbove(encodedSize: set<YOp> -> nat, options: Options, store: Store)
    requires Encodes(encodedSize) && InUse(store) && Decide(encodedSize, options, InputOf(store)).Compacted?
    ensures forall q :: q in store.log ==> q <= Decide(encodedSize, options, InputOf(store)).checkpoint
  {
    LoadSteps(encodedSize, options, store);
    var input := InputOf(store);
    CompactedCovers(encodedSize, options, input);
    MaxSeqBounds(input.updates, input.checkpoint);
    RangedIn(store.log, input.checkpoint, store.counter);
    var ranged := Ranged(store.log, input.checkpoint, store.counter);
    assert forall u :: u in ranged ==> u in input.updates;
    forall q | q in store.log ensures q <= MaxSeq(input.updates, input.checkpoint) {
      if q > input.checkpoint {
        assert Sequenced(q, store.log[q].kind, store.log[q].bytes) in ranged;
      }
    }
  }

  lemma {:induction false} NothingRanged(log: map<nat, LogRecord>, low: nat, high: nat)
    requires forall q :: q in log ==> !(low < q <= high)
    ensures Ranged(log, low, high) == []
  {
    if high > low {
      NothingRanged(log, low, high - 1);
    }
  }

  // ---------------------------------------------------------------- where the guard fails

  /** An append that becomes visible at or below the checkpoint survives exactly when its operations were known. */
  lemma LatePublishIff(encodedSize: set<YOp> -> nat, options: Options, s: State, sequence: nat)
    requires Encodes(encodedSize) && Good(s) && sequence in s.inFlight && sequence <= Checkpoint(s.store)
    ensures var after := Step(encodedSize, options, s, Publish(sequence));
            Rebuilt(after.store) == after.published <==> s.inFlight[sequence].bytes.ops <= s.published
  {
    PublishAdds(s, sequence);
    var ops := s.inFlight[sequence].bytes.ops;
    assert s.published + ops == s.published <==> ops <= s.published;
  }

  /**
    An append that becomes visible between the merge and the transaction, below the checkpoint being made, survives
    the transaction exactly when its operations were known already.
   */
  lemma OvertakenPublishIff(encodedSize: set<YOp> -> nat, options: Options, s: State, sequence: nat)
    requires Encodes(encodedSize) && Good(s) && s.phase.Merged?
    requires sequence in s.inFlight && Checkpoint(s.store) < sequence <= s.phase.target
    ensures var published := Step(encodedSize, options, s, Publish(sequence));
            var replaced := Step(encodedSize, options, published, Advance);
            Rebuilt(replaced.store) == replaced.published <==> s.inFlight[sequence].bytes.ops <= s.published
  {
    PublishAdds(s, sequence);
    var published := Step(encodedSize, options, s, Publish(sequence));
    var ops := s.inFlight[sequence].bytes.ops;
    ReplaceKeepsDocument(s);
    var with := Replaced(published.store, s.phase.target, s.phase.merged);
    var without := Replaced(s.store, s.phase.target, s.phase.merged);
    assert with.log == without.log;
    assert Rebuilt(with) == Rebuilt(without) == s.published;
    assert s.published + ops == s.published <==> ops <= s.published;
  }

  /**
    The same of an append that becomes visible after the log was read and before the merge, at or below the highest
    sequence read: it is not among the updates merged, and the transaction trims it.
   */
  lemma {:induction false} UnreadPublishIff(
    encodedSize: set<YOp> -> nat, options: Options, s: State, sequence: nat)
    requires Encodes(encodedSize) && Good(s) && s.phase.Loaded?
    requires Decide(encodedSize, options, s.phase.input).Compacted?
    requires sequence in s.inFlight && Checkpoint(s.store) < sequence <= Horizon(s)
    ensures var published := Step(encodedSize, options, s, Publish(sequence));
            var merged := Step(encodedSize, options, published, Advance);
            var replaced := Step(encodedSize, options, merged, Advance);
            Rebuilt(replaced.store) == replaced.published <==> s.inFlight[sequence].bytes.ops <= s.published
  {
    var merged := Step(encodedSize, options, s, Advance);
    StepKeepsGood(encodedSize, options, s, Advance);
    CompactedCovers(encodedSize, options, s.phase.input);
    assert Step(encodedSize, options, Step(encodedSize, options, s, Publish(sequence)), Advance)
        == Step(encodedSize, options, merged, Publish(sequence));
    OvertakenPublishIff(encodedSize, options, merged, sequence);
  }

  function One(ops: set<YOp>): nat {
    1
  }

  const FIRST: LogRecord := LogRecord(RootUpdate, RawBytes({1}, 1))
  const SECOND: LogRecord := LogRecord(RootUpdate, RawBytes({2}, 1))
  const NO_LIMITS: Options := Options(None, None)

  /** Two writers take sequences 1 and 2; the second becomes visible, a compaction runs, then the first does. */
  function Example(steps: nat): State
    requires steps <= 10
  {
    if steps == 0 then State(Store(None, None, [], map[], 0), map[], Idle, {})
    else
      var before := Example(steps - 1);
      var e := if steps == 1 then Reserve(FIRST) else if steps == 2 then Reserve(SECOND)
               else if steps == 3 then Publish(2) else if steps < 10 then Advance else Publish(1);
      if Enabled(before, e) then Step(One, NO_LIMITS, before, e) else before
  }

  lemma ExampleLoads()
    ensures Example(7) == State(Store(None, None, [], map[2 := SECOND], 2), map[1 := FIRST],
                                Loaded(Input(None, 0, [Sequenced(2, RootUpdate, SECOND.bytes)])), {2})
  {
    assert Example(1) == State(Store(None, None, [], map[], 1), map[1 := FIRST], Idle, {});
    assert Example(2) == State(Store(None, None, [], map[], 2), map[1 := FIRST, 2 := SECOND], Idle, {});
    assert Example(3) == State(Store(None, None, [], map[2 := SECOND], 2), map[1 := FIRST], Idle, {2});
    assert Example(4).phase == NoV2Snapshot;
    assert Example(5).phase == HaveSnapshot(0, None);
    assert Example(6) == Example(3).(phase := HaveLegacy(0, None, []));
    var log := Example(6).store.log;
    assert Ranged(log, 0, 0) == [] && Ranged(log, 0, 1) == [];
    assert Ranged(log, 0, 2) == [Sequenced(2, RootUpdate, SECOND.bytes)];
    assert LegacyInputs([]) + Ranged(log, 0, 2) == Ranged(log, 0, 2);
  }

  lemma ExampleDecides()
    ensures Decide(One, NO_LIMITS, Input(None, 0, [Sequenced(2, RootUpdate, SECOND.bytes)]))
         == Compacted(2, RawBytes({2}, 1))
  {
    var update := Sequenced(2, RootUpdate, SECOND.bytes);
    AboveAll([update], 0);
    assert [update][1..] == [];
    assert OpsOf([update]) == {2} && MaxSeq([update], 0) == 2 && Objection([update]).None?;
  }

  lemma ExampleCompacts()
    ensures Example(9) == State(Store(Some(SnapshotRecord(2, RawBytes({2}, 1))), None, [], map[], 2),
                                map[1 := FIRST], Idle, {2})
  {
    ExampleLoads();
    ExampleDecides();
    assert Example(8) == Example(7).(phase := Merged(2, RawBytes({2}, 1)));
    assert Example(9) == Example(8).(store := Replaced(Example(8).store, 2, RawBytes({2}, 1)), phase := Idle);
    assert (map q | q in map[2 := SECOND] && q > 2 :: map[2 := SECOND][q]) == map[];
  }

  /** The first writer's update is lost for good: below the checkpoint, it is neither read nor merged again. */
  lemma OutOfOrderAppendIsLost()
    ensures Example(10).published == {1, 2} && Rebuilt(Example(10).store) == {2}
  {
    ExampleCompacts();
    assert Enabled(Example(9), Publish(1));
    assert Example(10) == Step(One, NO_LIMITS, Example(9), Publish(1));
    assert Example(10).store.log == map[1 := FIRST];
    assert LogOps(map[1 := FIRST], 2) == {} && LegacyOps([]) == {};
  }
}
