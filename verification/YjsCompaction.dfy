/** Compacting one room's Yjs updates: what is merged, when it is skipped, and how the store is read and replaced. */
module YjsCompaction {
  import opened Wrappers

  /** One operation of a Y document. Merging updates joins their operations; the rest of Yjs is not modelled. */
  type YOp = nat

  datatype RawBytes = RawBytes(ops: set<YOp>, size: nat)

  /** An encoded update; empty bytes hold nothing. */
  type Bytes = b: RawBytes | b.size == 0 ==> b.ops == {} witness RawBytes({}, 0)

  datatype Kind = RootUpdate | SubdocUpdate

  datatype Sequenced = Sequenced(sequence: nat, kind: Kind, bytes: Bytes)

  /** `YjsCompactionInput`: legacy updates come with sequence 0. */
  datatype Input = Input(snapshot: Option<Bytes>, checkpoint: nat, updates: seq<Sequenced>)

  datatype Options = Options(minUpdates: Option<nat>, minBytes: Option<nat>)

  datatype Skip = NoUpdates | BelowThreshold | LegacyUpdates | SubdocUpdates

  datatype Failure = NothingToCompact | BadSequence | EmptyUpdate | SubdocInRoot

  datatype Outcome =
    | Compacted(checkpoint: nat, snapshot: Bytes)
    | Skipped(reason: Skip)
    | Refused(failure: Failure)

  /** The size of a document encoded again: whatever it is, Yjs never encodes to no bytes at all. */
  ghost predicate Encodes(encodedSize: set<YOp> -> nat) {
    forall ops :: encodedSize(ops) > 0
  }

  function OpsOf(updates: seq<Sequenced>): set<YOp> {
    if updates == [] then {} else updates[0].bytes.ops + OpsOf(updates[1..])
  }

  function JoinAll(inputs: seq<Bytes>): set<YOp> {
    if inputs == [] then {} else JoinAll(Init(inputs)) + Last(inputs).ops
  }

  function Above(updates: seq<Sequenced>, checkpoint: nat): seq<Sequenced> {
    if updates == [] then []
    else (if updates[0].sequence > checkpoint then [updates[0]] else []) + Above(updates[1..], checkpoint)
  }

  function MaxSeq(updates: seq<Sequenced>, checkpoint: nat): nat {
    if updates == [] then checkpoint
    else
      var rest := MaxSeq(updates[1..], checkpoint);
      if updates[0].sequence > rest then updates[0].sequence else rest
  }

  function TotalBytes(updates: seq<Sequenced>): nat {
    if updates == [] then 0 else updates[0].bytes.size + TotalBytes(updates[1..])
  }

  /** The first reason an update cannot be merged. */
  function Objection(updates: seq<Sequenced>): Option<Failure> {
    if updates == [] then None
    else if updates[0].sequence == 0 then Some(BadSequence)
    else if updates[0].bytes.size == 0 then Some(EmptyUpdate)
    else if updates[0].kind.SubdocUpdate? then Some(SubdocInRoot)
    else Objection(updates[1..])
  }

  function SnapshotOps(snapshot: Option<Bytes>): set<YOp> {
    if snapshot.Some? then snapshot.value.ops else {}
  }

  /** `compactYjsDocument` */
  function CompactDocument(encodedSize: set<YOp> -> nat, input: Input): Outcome
    requires Encodes(encodedSize)
  {
    var updates := Above(input.updates, input.checkpoint);
    if updates == [] && input.snapshot.None? then Refused(NothingToCompact)
    else if Objection(updates).Some? then Refused(Objection(updates).value)
    else if updates == [] && input.snapshot.value.size == 0 then Refused(NothingToCompact)
    else
      var ops := SnapshotOps(input.snapshot) + OpsOf(updates);
      Compacted(MaxSeq(updates, input.checkpoint), RawBytes(ops, encodedSize(ops)))
  }

  /** `compactRoom` after the load: the order of its checks decides the reason given. */
  function Decide(encodedSize: set<YOp> -> nat, options: Options, input: Input): Outcome
    requires Encodes(encodedSize)
  {
    var sequenced := Above(input.updates, 0);
    if |sequenced| < |input.updates| then Skipped(LegacyUpdates)
    else if exists u :: u in sequenced && u.kind.SubdocUpdate? then Skipped(SubdocUpdates)
    else if sequenced == [] then Skipped(NoUpdates)
    else if options.minUpdates.Some? && |sequenced| < options.minUpdates.value then Skipped(BelowThreshold)
    else if options.minBytes.Some? && TotalBytes(sequenced) < options.minBytes.value then Skipped(BelowThreshold)
    else CompactDocument(encodedSize, input.(updates := sequenced))
  }

  lemma {:induction false} AboveIn(updates: seq<Sequenced>, checkpoint: nat)
    ensures forall u :: u in Above(updates, checkpoint) <==> u in updates && u.sequence > checkpoint
    ensures |Above(updates, checkpoint)| <= |updates|
    ensures |Above(updates, checkpoint)| == |updates| <==> forall u :: u in updates ==> u.sequence > checkpoint
  {
    if updates != [] {
      AboveIn(updates[1..], checkpoint);
      assert forall u :: u in updates <==> u == updates[0] || u in updates[1..];
    }
  }

  lemma {:induction false} AboveAll(updates: seq<Sequenced>, checkpoint: nat)
    requires forall u :: u in updates ==> u.sequence > checkpoint
    ensures Above(updates, checkpoint) == updates
  {
    if updates != [] {
      assert updates[0] in updates && forall u :: u in updates[1..] ==> u in updates;
      AboveAll(updates[1..], checkpoint);
    }
  }

  lemma {:induction false} MaxSeqBounds(updates: seq<Sequenced>, checkpoint: nat)
    ensures MaxSeq(updates, checkpoint) >= checkpoint
    ensures forall u :: u in updates ==> u.sequence <= MaxSeq(updates, checkpoint)
    ensures MaxSeq(updates, checkpoint) == checkpoint
         || exists u :: u in updates && u.sequence == MaxSeq(updates, checkpoint)
  {
    if updates != [] {
      MaxSeqBounds(updates[1..], checkpoint);
      assert forall u :: u in updates <==> u == updates[0] || u in updates[1..];
    }
  }

  lemma {:induction false} OpsOfIn(updates: seq<Sequenced>)
    ensures forall op :: op in OpsOf(updates) <==> exists u :: u in updates && op in u.bytes.ops
  {
    if updates != [] {
      OpsOfIn(updates[1..]);
      assert forall u :: u in updates <==> u == updates[0] || u in updates[1..];
    }
  }

  lemma {:induction false} OpsOfSnoc(updates: seq<Sequenced>, u: Sequenced)
    ensures OpsOf(updates + [u]) == OpsOf(updates) + u.bytes.ops
  {
    OpsOfIn(updates + [u]);
    OpsOfIn(updates);
    assert forall v :: v in updates + [u] <==> v in updates || v == u;
    assert u in updates + [u];
  }

  lemma {:induction false} ObjectionAppend(first: seq<Sequenced>, second: seq<Sequenced>)
    ensures Objection(first + second) == if Objection(first).Some? then Objection(first) else Objection(second)
  {
    if first == [] {
      assert first + second == second;
    } else {
      assert (first + second)[1..] == first[1..] + second;
      ObjectionAppend(first[1..], second);
    }
  }

  /** `compactYjsDocument` itself: collects what is to be merged in a loop that throws at the first bad update. */
  method CompactYjsDocument(encodedSize: set<YOp> -> nat, input: Input) returns (r: Outcome)
    requires Encodes(encodedSize)
    ensures r == CompactDocument(encodedSize, input)
  {
    var updates := Above(input.updates, input.checkpoint);
    if |updates| == 0 && input.snapshot.None? {
      return Refused(NothingToCompact);
    }
    var mergedInputs: seq<Bytes> := [];
    if input.snapshot.Some? && input.snapshot.value.size > 0 {
      mergedInputs := [input.snapshot.value];
    }
    for i := 0 to |updates|
      invariant Objection(updates[..i]).None?
      invariant JoinAll(mergedInputs) == SnapshotOps(input.snapshot) + OpsOf(updates[..i])
      invariant mergedInputs == [] <==> i == 0 && (input.snapshot.None? || input.snapshot.value.size == 0)
    {
      var update := updates[i];
      TakeSnoc(updates, i);
      ObjectionAppend(updates[..i], [update]);
      OpsOfSnoc(updates[..i], update);
      if Objection([update]).Some? {
        ObjectionAppend(updates[..i + 1], updates[i + 1..]);
        assert updates[..i + 1] + updates[i + 1..] == updates;
        return Refused(Objection([update]).value);
      }
      assert Init(mergedInputs + [update.bytes]) == mergedInputs;
      mergedInputs := mergedInputs + [update.bytes];
    }
    assert updates[..|updates|] == updates;
    if |mergedInputs| == 0 {
      return Refused(NothingToCompact);
    }
    var ops := JoinAll(mergedInputs);
    return Compacted(MaxSeq(updates, input.checkpoint), RawBytes(ops, encodedSize(ops)));
  }

  /** A compaction joins the snapshot with exactly the updates it covers, all of them above the old checkpoint. */
  lemma CompactedCovers(encodedSize: set<YOp> -> nat, options: Options, input: Input)
    requires Encodes(encodedSize) && Decide(encodedSize, options, input).Compacted?
    requires forall u :: u in input.updates && u.sequence > 0 ==> u.sequence > input.checkpoint
    ensures var r := Decide(encodedSize, options, input);
            && r.snapshot.ops == SnapshotOps(input.snapshot) + OpsOf(input.updates)
            && r.checkpoint == MaxSeq(input.updates, input.checkpoint)
            && forall u :: u in input.updates ==> u.sequence > 0 && u.kind.RootUpdate?
  {
    AboveIn(input.updates, 0);
    AboveAll(input.updates, 0);
    AboveAll(input.updates, input.checkpoint);
  }

  // ---------------------------------------------------------------- the store

  datatype SnapshotRecord = SnapshotRecord(checkpoint: nat, bytes: Bytes)

  datatype LogRecord = LogRecord(kind: Kind, bytes: Bytes)

  /** One room's keys: the v2 snapshot, the legacy snapshot and list, the v2 log by sequence, and the counter. */
  datatype Store = Store(
    snapshot: Option<SnapshotRecord>,
    legacySnapshot: Option<Bytes>,
    legacyUpdates: seq<Bytes>,
    log: map<nat, LogRecord>,
    counter: nat)

  function Checkpoint(store: Store): nat {
    if store.snapshot.Some? then store.snapshot.value.checkpoint else 0
  }

  /** `loadSnapshot` */
  function LoadedSnapshot(store: Store): Option<Bytes> {
    if store.snapshot.Some? then Some(store.snapshot.value.bytes) else store.legacySnapshot
  }

  function LegacyInputs(updates: seq<Bytes>): seq<Sequenced> {
    if updates == [] then [] else LegacyInputs(Init(updates)) + [Sequenced(0, RootUpdate, Last(updates))]
  }

  /** `ZRANGEBYSCORE (low +inf`, in sequence order, up to the last sequence given out. */
  function Ranged(log: map<nat, LogRecord>, low: nat, high: nat): seq<Sequenced> {
    if high <= low then []
    else Ranged(log, low, high - 1) + (if high in log then [Sequenced(high, log[high].kind, log[high].bytes)] else [])
  }

  /** `compact`: the transaction that replaces the snapshot and trims the log. */
  function Replaced(store: Store, checkpoint: nat, snapshot: Bytes): Store {
    store.(snapshot := Some(SnapshotRecord(checkpoint, snapshot)),
           log := map q | q in store.log && q > checkpoint :: store.log[q])
  }

  function LegacyOps(updates: seq<Bytes>): set<YOp> {
    set i, op | 0 <= i < |updates| && op in updates[i].ops :: op
  }

  function LogOps(log: map<nat, LogRecord>, low: nat): set<YOp> {
    set q, op | q in log && q > low && op in log[q].bytes.ops :: op
  }

  /** The document a reader rebuilds: the snapshot joined with the legacy updates and the log above the checkpoint. */
  function Rebuilt(store: Store): set<YOp> {
    SnapshotOps(LoadedSnapshot(store)) + LegacyOps(store.legacyUpdates) + LogOps(store.log, Checkpoint(store))
  }

  lemma {:induction false} RangedIn(log: map<nat, LogRecord>, low: nat, high: nat)
    ensures forall u :: u in Ranged(log, low, high) <==>
              low < u.sequence <= high && u.sequence in log &&
              u == Sequenced(u.sequence, log[u.sequence].kind, log[u.sequence].bytes)
  {
    if high > low {
      RangedIn(log, low, high - 1);
    }
  }

  lemma {:induction false} LegacyInputsIn(updates: seq<Bytes>)
    ensures |LegacyInputs(updates)| == |updates|
    ensures forall u :: u in LegacyInputs(updates) ==> u.sequence == 0
  {
    if updates != [] {
      LegacyInputsIn(Init(updates));
    }
  }

  /** The store object: `load` and `compact` as the compactor calls them when nothing else runs in between. */
  class YjsRedisStore {
    var snapshotV2: Option<SnapshotRecord>
    var legacySnapshot: Option<Bytes>
    var legacyUpdates: seq<Bytes>
    var log: map<nat, LogRecord>
    var counter: nat

    function Contents(): Store
      reads this
    {
      Store(snapshotV2, legacySnapshot, legacyUpdates, log, counter)
    }

    constructor (store: Store)
      ensures Contents() == store
    {
      snapshotV2, legacySnapshot, legacyUpdates := store.snapshot, store.legacySnapshot, store.legacyUpdates;
      log, counter := store.log, store.counter;
    }

    method Load() returns (input: Input)
      ensures input.snapshot == LoadedSnapshot(Contents()) && input.checkpoint == Checkpoint(Contents())
      ensures input.updates == LegacyInputs(legacyUpdates) + Ranged(log, input.checkpoint, counter)
    {
      var checkpoint := if snapshotV2.Some? then snapshotV2.value.checkpoint else 0;
      var snapshot := if snapshotV2.Some? then Some(snapshotV2.value.bytes) else legacySnapshot;
      var updates: seq<Sequenced> := [];
      for i := 0 to |legacyUpdates|
        invariant updates == LegacyInputs(legacyUpdates[..i])
      {
        assert Init(legacyUpdates[..i + 1]) == legacyUpdates[..i];
        updates := updates + [Sequenced(0, RootUpdate, legacyUpdates[i])];
      }
      assert legacyUpdates[..|legacyUpdates|] == legacyUpdates;
      var q := checkpoint;
      while q < counter
        invariant checkpoint <= q && (q <= counter || q == checkpoint)
        invariant updates == LegacyInputs(legacyUpdates) + Ranged(log, checkpoint, q)
      {
        q := q + 1;
        if q in log {
          updates := updates + [Sequenced(q, log[q].kind, log[q].bytes)];
        }
      }
      input := Input(snapshot, checkpoint, updates);
    }

    method Compact(checkpoint: nat, snapshot: Bytes)
      modifies this
      ensures Contents() == Replaced(old(Contents()), checkpoint, snapshot)
    {
      snapshotV2 := Some(SnapshotRecord(checkpoint, snapshot));
      log := map q | q in log && q > checkpoint :: log[q];
    }

    /** `compactRoom` when nothing else runs in between; `fault` is the command of this attempt that fails. */
    method CompactRoom(encodedSize: set<YOp> -> nat, options: Options, fault: Fault)
      returns (thrown: bool, outcome: Outcome)
      requires Encodes(encodedSize)
      modifies this
      ensures outcome == Decide(encodedSize, options, InputOf(old(Contents())))
      ensures (Contents(), thrown) == Attempted(encodedSize, options, old(Contents()), fault)
    {
      outcome := Decide(encodedSize, options, InputOf(Contents()));
      if fault.LoadFails? {
        return true, outcome;
      }
      var input := Load();
      var sequenced := Above(input.updates, 0);
      if |sequenced| < |input.updates| {
        return false, Skipped(LegacyUpdates);
      }
      if exists u :: u in sequenced && u.kind.SubdocUpdate? {
        return false, Skipped(SubdocUpdates);
      }
      if |sequenced| == 0 {
        return false, Skipped(NoUpdates);
      }
      if options.minUpdates.Some? && |sequenced| < options.minUpdates.value {
        return false, Skipped(BelowThreshold);
      }
      if options.minBytes.Some? && TotalBytes(sequenced) < options.minBytes.value {
        return false, Skipped(BelowThreshold);
      }
      var result := CompactYjsDocument(encodedSize, input.(updates := sequenced));
      if result.Refused? || fault.CompactFails? {
        return true, result;
      }
      Compact(result.checkpoint, result.snapshot);
      return fault.ReplyLost?, result;
    }
  }

  /** Which command of an attempt fails: the load, the transaction, or only the reply of one that took effect. */
  datatype Fault = NoFault | LoadFails | CompactFails | ReplyLost

  function InputOf(store: Store): Input {
    var checkpoint := Checkpoint(store);
    Input(LoadedSnapshot(store), checkpoint,
          LegacyInputs(store.legacyUpdates) + Ranged(store.log, checkpoint, store.counter))
  }

  /** The store after one attempt, and whether it throws. */
  function Attempted(encodedSize: set<YOp> -> nat, options: Options, store: Store, fault: Fault): (Store, bool)
    requires Encodes(encodedSize)
  {
    if fault.LoadFails? then (store, true)
    else
      match Decide(encodedSize, options, InputOf(store))
      case Skipped(_) => (store, false)
      case Refused(_) => (store, true)
      case Compacted(checkpoint, snapshot) =>
        if fault.CompactFails? then (store, true)
        else (Replaced(store, checkpoint, snapshot), fault.ReplyLost?)
  }

  // ---------------------------------------------------------------- retries

  /** The store after the first n attempts, the i-th of which meets `faults(i)`. */
  function AttemptedTimes(
    encodedSize: set<YOp> -> nat, options: Options, store: Store, faults: nat -> Fault, n: nat): Store
    requires Encodes(encodedSize)
  {
    if n == 0 then store
    else Attempted(encodedSize, options, AttemptedTimes(encodedSize, options, store, faults, n - 1), faults(n - 1)).0
  }

  predicate Throws(
    encodedSize: set<YOp> -> nat, options: Options, store: Store, faults: nat -> Fault, i: nat)
    requires Encodes(encodedSize)
  {
    Attempted(encodedSize, options, AttemptedTimes(encodedSize, options, store, faults, i), faults(i)).1
  }

  /** `compactRoomWithRetry`: attempts until one does not throw, but no more than the retries allow. */
  method CompactRoomWithRetry(
    store: YjsRedisStore, encodedSize: set<YOp> -> nat, options: Options, faults: nat -> Fault, roomRetries: nat)
    returns (failed: bool, made: nat)
    requires Encodes(encodedSize)
    modifies store
    ensures 1 <= made <= roomRetries + 1
    ensures store.Contents() == AttemptedTimes(encodedSize, options, old(store.Contents()), faults, made)
    ensures forall i :: 0 <= i < made - 1 ==> Throws(encodedSize, options, old(store.Contents()), faults, i)
    ensures failed <==> Throws(encodedSize, options, old(store.Contents()), faults, made - 1)
    ensures failed ==> made == roomRetries + 1
  {
    var attempt := 0;
    while true
      invariant 0 <= attempt <= roomRetries
      invariant store.Contents() == AttemptedTimes(encodedSize, options, old(store.Contents()), faults, attempt)
      invariant forall i :: 0 <= i < attempt ==> Throws(encodedSize, options, old(store.Contents()), faults, i)
      decreases roomRetries - attempt
    {
      var thrown, outcome := store.CompactRoom(encodedSize, options, faults(attempt));
      if !thrown {
        return false, attempt + 1;
      }
      if attempt >= roomRetries {
        return true, attempt + 1;
      }
      attempt := attempt + 1;
    }
  }
}
