/** When exactly a room is compacted, skipped or refused, and that a compaction makes progress. */
module YjsCompactionDecision {
  import opened Wrappers
  import opened YjsCompaction
  import opened YjsCompactionProtocol

  /** The sizes of the updates, added up from the first on. */
  function SizeSum(updates: seq<Sequenced>): nat
    decreases |updates|
  {
    if updates == [] then 0 else SizeSum(Init(updates)) + Last(updates).bytes.size
  }

  /** All updates have a sequence and belong to the root document. */
  ghost predicate AllSequencedRoots(updates: seq<Sequenced>) {
    forall u :: u in updates ==> u.sequence > 0 && u.kind.RootUpdate?
  }

  predicate Enough(options: Options, updates: seq<Sequenced>) {
    && (options.minUpdates.Some? ==> |updates| >= options.minUpdates.value)
    && (options.minBytes.Some? ==> SizeSum(updates) >= options.minBytes.value)
  }

  /** What a room must hold to be compacted. */
  ghost predicate Ready(options: Options, updates: seq<Sequenced>) {
    && updates != [] && AllSequencedRoots(updates) && Enough(options, updates)
    && forall u :: u in updates ==> u.bytes.size > 0
  }

  // ---------------------------------------------------------------- sums and objections

  lemma {:induction false} TotalBytesAppend(first: seq<Sequenced>, second: seq<Sequenced>)
    ensures TotalBytes(first + second) == TotalBytes(first) + TotalBytes(second)
  {
    if first == [] {
      assert first + second == second;
    } else {
      assert (first + second)[1..] == first[1..] + second && (first + second)[0] == first[0];
      TotalBytesAppend(first[1..], second);
    }
  }

  lemma {:induction false} TotalBytesIsSum(updates: seq<Sequenced>)
    ensures TotalBytes(updates) == SizeSum(updates)
    decreases |updates|
  {
    if updates != [] {
      var last := Last(updates);
      assert updates == Init(updates) + [last] && [last][1..] == [];
      TotalBytesAppend(Init(updates), [last]);
      TotalBytesIsSum(Init(updates));
      assert TotalBytes([last]) == last.bytes.size;
    }
  }

  lemma {:induction false} ObjectionIff(updates: seq<Sequenced>)
    requires AllSequencedRoots(updates)
    ensures Objection(updates).None? <==> forall u :: u in updates ==> u.bytes.size > 0
    ensures Objection(updates).Some? ==> Objection(updates) == Some(EmptyUpdate)
  {
    if updates != [] {
      assert updates[0] in updates && forall u :: u in updates <==> u == updates[0] || u in updates[1..];
      ObjectionIff(updates[1..]);
    }
  }

  // ---------------------------------------------------------------- the decision

  lemma {:induction false} DecideOnSequenced(encodedSize: set<YOp> -> nat, options: Options, input: Input)
    requires Encodes(encodedSize) && AllSequencedRoots(input.updates) && input.updates != []
    requires forall u :: u in input.updates ==> u.sequence > input.checkpoint
    ensures Decide(encodedSize, options, input).Compacted? <==> Ready(options, input.updates)
    ensures Decide(encodedSize, options, input) == Skipped(BelowThreshold) <==> !Enough(options, input.updates)
    ensures Enough(options, input.updates) && !Ready(options, input.updates) ==>
              Decide(encodedSize, options, input) == Refused(EmptyUpdate)
  {
    AboveAll(input.updates, 0);
    AboveAll(input.updates, input.checkpoint);
    TotalBytesIsSum(input.updates);
    ObjectionIff(input.updates);
  }

  /**
    Exactly when a room is compacted: it has updates, all of them sequenced root updates that are not empty, and as many
    and as large as the options ask for.
   */
  lemma {:induction false} CompactsIff(encodedSize: set<YOp> -> nat, options: Options, input: Input)
    requires Encodes(encodedSize)
    requires forall u :: u in input.updates && u.sequence > 0 ==> u.sequence > input.checkpoint
    ensures Decide(encodedSize, options, input).Compacted? <==> Ready(options, input.updates)
  {
    AboveIn(input.updates, 0);
    if AllSequencedRoots(input.updates) && input.updates != [] {
      DecideOnSequenced(encodedSize, options, input);
    } else if forall u :: u in input.updates ==> u.sequence > 0 {
      AboveAll(input.updates, 0);
    }
  }

  /** And why it is not: the first of these that applies. */
  lemma {:induction false} SkipsIff(encodedSize: set<YOp> -> nat, options: Options, input: Input)
    requires Encodes(encodedSize)
    requires forall u :: u in input.updates && u.sequence > 0 ==> u.sequence > input.checkpoint
    ensures var outcome := Decide(encodedSize, options, input);
            var sequenced := forall u :: u in input.updates ==> u.sequence > 0;
            && (outcome == Skipped(LegacyUpdates) <==> !sequenced)
            && (outcome == Skipped(SubdocUpdates) <==> sequenced && !AllSequencedRoots(input.updates))
            && (outcome == Skipped(NoUpdates) <==> input.updates == [])
            && (outcome == Skipped(BelowThreshold) <==>
                  input.updates != [] && AllSequencedRoots(input.updates) && !Enough(options, input.updates))
            && (outcome.Refused? <==>
                  && input.updates != [] && AllSequencedRoots(input.updates) && Enough(options, input.updates)
                  && exists u :: u in input.updates && u.bytes.size == 0)
  {
    AboveIn(input.updates, 0);
    if AllSequencedRoots(input.updates) && input.updates != [] {
      DecideOnSequenced(encodedSize, options, input);
    } else if forall u :: u in input.updates ==> u.sequence > 0 {
      AboveAll(input.updates, 0);
    }
  }

  // ---------------------------------------------------------------- progress

  lemma {:induction false} LoadedAboveCheckpoint(store: Store)
    ensures var input := InputOf(store);
            forall u :: u in input.updates && u.sequence > 0 ==>
              u.sequence > input.checkpoint && u.sequence in store.log
  {
    RangedIn(store.log, Checkpoint(store), store.counter);
    LegacyInputsIn(store.legacyUpdates);
    var input := InputOf(store);
    assert forall u :: u in input.updates ==>
             u in LegacyInputs(store.legacyUpdates) || u in Ranged(store.log, Checkpoint(store), store.counter);
  }

  /**
    Progress: when a room in use is ready, an attempt in which nothing fails does not throw, makes the highest sequence
    in the log the checkpoint, and leaves nothing in the log.
   */
  lemma {:induction false} ReadyRoomIsCompacted(encodedSize: set<YOp> -> nat, options: Options, store: Store)
    requires Encodes(encodedSize) && InUse(store) && Ready(options, InputOf(store).updates)
    ensures var (after, thrown) := Attempted(encodedSize, options, store, NoFault);
            && !thrown && after.log == map[]
            && Checkpoint(after) in store.log && Checkpoint(after) > Checkpoint(store)
            && forall q :: q in store.log ==> q <= Checkpoint(after)
  {
    var input := InputOf(store);
    LoadedAboveCheckpoint(store);
    CompactsIff(encodedSize, options, input);
    CompactedCovers(encodedSize, options, input);
    MaxSeqBounds(input.updates, input.checkpoint);
    NothingAbove(encodedSize, options, store);
    assert input.updates[0] in input.updates;
  }

  /** And nothing that fails in an attempt on a room that is not ready changes the store. */
  lemma {:induction false} OthersAreLeft(
    encodedSize: set<YOp> -> nat, options: Options, store: Store, fault: Fault)
    requires Encodes(encodedSize) && !Ready(options, InputOf(store).updates)
    ensures Attempted(encodedSize, options, store, fault).0 == store
  {
    LoadedAboveCheckpoint(store);
    CompactsIff(encodedSize, options, InputOf(store));
  }

  /** An attempt throws when a command fails that it gets to, or when an update it would merge is empty. */
  lemma {:induction false} AttemptThrowsIff(
    encodedSize: set<YOp> -> nat, options: Options, store: Store, fault: Fault)
    requires Encodes(encodedSize)
    ensures var updates := InputOf(store).updates;
            var merges := updates != [] && AllSequencedRoots(updates) && Enough(options, updates);
            Attempted(encodedSize, options, store, fault).1
            <==> fault.LoadFails? || (merges && !Ready(options, updates)) || (merges && !fault.NoFault?)
  {
    LoadedAboveCheckpoint(store);
    SkipsIff(encodedSize, options, InputOf(store));
    CompactsIff(encodedSize, options, InputOf(store));
  }

  /** It changes the store exactly when the room is ready and the transaction runs, whether or not its reply arrives. */
  lemma {:induction false} AttemptCompactsIff(
    encodedSize: set<YOp> -> nat, options: Options, store: Store, fault: Fault)
    requires Encodes(encodedSize) && InUse(store)
    ensures var after := Attempted(encodedSize, options, store, fault).0;
            if Ready(options, InputOf(store).updates) && (fault.NoFault? || fault.ReplyLost?) then
              after == Attempted(encodedSize, options, store, NoFault).0 && Checkpoint(after) > Checkpoint(store)
            else after == store
  {
    if Ready(options, InputOf(store).updates) {
      ReadyRoomIsCompacted(encodedSize, options, store);
    } else {
      OthersAreLeft(encodedSize, options, store, fault);
    }
  }

  // ---------------------------------------------------------------- what is loaded

  lemma {:induction false} LegacyInputsAre(updates: seq<Bytes>, i: nat)
    requires i < |updates|
    ensures |LegacyInputs(updates)| == |updates| && LegacyInputs(updates)[i] == Sequenced(0, RootUpdate, updates[i])
    decreases |updates|
  {
    LegacyInputsIn(updates);
    LegacyInputsIn(Init(updates));
    if i < |updates| - 1 {
      LegacyInputsAre(Init(updates), i);
    }
  }

  lemma {:induction false} RangedAscends(log: map<nat, LogRecord>, low: nat, high: nat)
    ensures var loaded := Ranged(log, low, high);
            forall i, j :: 0 <= i < j < |loaded| ==> loaded[i].sequence < loaded[j].sequence
  {
    if high > low {
      RangedAscends(log, low, high - 1);
      RangedIn(log, low, high - 1);
      assert forall u :: u in Ranged(log, low, high - 1) ==> u.sequence < high;
    }
  }

  /** A record of the log as it is loaded. */
  function Loaded(log: map<nat, LogRecord>, q: nat): Sequenced
    requires q in log
  {
    Sequenced(q, log[q].kind, log[q].bytes)
  }

  /** In order of sequence, exactly the records of the log above a checkpoint. */
  ghost predicate LogAbove(loaded: seq<Sequenced>, log: map<nat, LogRecord>, checkpoint: nat) {
    && (forall i, j :: 0 <= i < j < |loaded| ==> loaded[i].sequence < loaded[j].sequence)
    && (forall u :: u in loaded ==> u.sequence > checkpoint && u.sequence in log && u == Loaded(log, u.sequence))
    && (forall q :: q in log && q > checkpoint ==> Loaded(log, q) in loaded)
  }

  lemma {:induction false} RangedIsLogAbove(log: map<nat, LogRecord>, checkpoint: nat, counter: nat)
    requires forall q :: q in log ==> q <= counter
    ensures LogAbove(Ranged(log, checkpoint, counter), log, checkpoint)
  {
    RangedIn(log, checkpoint, counter);
    RangedAscends(log, checkpoint, counter);
    forall q | q in log && q > checkpoint ensures Loaded(log, q) in Ranged(log, checkpoint, counter) {
      assert Loaded(log, q).sequence == q;
    }
  }

  /**
    What an attempt loads: the legacy updates in order, without sequence, and then the records of the log above the
    checkpoint, each once and in order of their sequence.
   */
  lemma {:induction false} LoadedInOrder(store: Store)
    requires InUse(store)
    ensures var loaded := InputOf(store).updates;
            var n := |store.legacyUpdates|;
            && n <= |loaded|
            && (forall i :: 0 <= i < n ==> loaded[i] == Sequenced(0, RootUpdate, store.legacyUpdates[i]))
            && LogAbove(loaded[n..], store.log, Checkpoint(store))
  {
    var legacy := store.legacyUpdates;
    var ranged := Ranged(store.log, Checkpoint(store), store.counter);
    LegacyInputsIn(legacy);
    forall i | 0 <= i < |legacy| ensures LegacyInputs(legacy)[i] == Sequenced(0, RootUpdate, legacy[i]) {
      LegacyInputsAre(legacy, i);
    }
    RangedIsLogAbove(store.log, Checkpoint(store), store.counter);
    assert InputOf(store).updates[|legacy|..] == ranged;
  }
}
