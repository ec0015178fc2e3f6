/**
  What becomes of every append in every run of the compaction protocol, with no guard on the run: which are saved and
  which are lost.
 */
module YjsCompactionLoss {
  import opened Wrappers
  import opened YjsCompaction
  import opened YjsCompactionProtocol

  /**
    The appends that became visible at or below the horizon of a compaction under way, and the operations of those
    saved and those lost so far.
   */
  datatype Ledger = Ledger(late: set<nat>, saved: set<YOp>, lost: set<YOp>)

  function LateOps(log: map<nat, LogRecord>, late: set<nat>): set<YOp> {
    set q, op | q in late && q in log && op in log[q].bytes.ops :: op
  }

  /** What one step does to the ledger: a late append is lost when the transaction goes through, and saved if not. */
  function Entered(encodedSize: set<YOp> -> nat, options: Options, s: State, l: Ledger, e: Event): Ledger
    requires Encodes(encodedSize) && Enabled(s, e)
  {
    match e
    case Publish(q) =>
      var ops := s.inFlight[q].bytes.ops;
      if q <= Checkpoint(s.store) then l.(lost := l.lost + ops)
      else if q <= Horizon(s) then l.(late := l.late + {q})
      else l.(saved := l.saved + ops)
    case Reserve(_) => l
    case Fail => Ledger({}, l.saved + LateOps(s.store.log, l.late), l.lost)
    case _ =>
      if s.phase.Merged? then Ledger({}, l.saved, l.lost + LateOps(s.store.log, l.late))
      else if Step(encodedSize, options, s, e).phase.Merged? then l
      else Ledger({}, l.saved + LateOps(s.store.log, l.late), l.lost)
  }

  function Book(encodedSize: set<YOp> -> nat, options: Options, s: State, l: Ledger, events: seq<Event>): Ledger
    requires Encodes(encodedSize)
    decreases |events|
  {
    if events == [] || !Enabled(s, events[0]) then l
    else Book(encodedSize, options, Step(encodedSize, options, s, events[0]),
              Entered(encodedSize, options, s, l, events[0]), events[1..])
  }

  /** The state without the late appends, and with what is saved as all that was published. */
  function Twin(s: State, l: Ledger): State {
    s.(store := s.store.(log := s.store.log - l.late), published := l.saved)
  }

  ghost predicate Balanced(s: State, l: Ledger) {
    && Sequencing(s)
    && (l.late != {} ==> s.phase.Loaded? || s.phase.Merged?)
    && (forall q :: q in l.late ==> q in s.store.log && Checkpoint(s.store) < q <= Horizon(s))
    && Good(Twin(s, l))
    && s.published == l.saved + LateOps(s.store.log, l.late) + l.lost
  }

  // ---------------------------------------------------------------- the ledger says what a reader rebuilds

  lemma RebuiltIs(s: State, l: Ledger)
    requires Balanced(s, l)
    ensures Rebuilt(s.store) == l.saved + LateOps(s.store.log, l.late)
  {
    var low, log, twin := Checkpoint(s.store), s.store.log, Twin(s, l).store;
    assert LoadedSnapshot(twin) == LoadedSnapshot(s.store) && Checkpoint(twin) == low;
    forall op ensures op in LogOps(log, low) <==> op in LogOps(twin.log, low) || op in LateOps(s.store.log, l.late) {
      if op in LogOps(log, low) {
        var q :| q in log && q > low && op in log[q].bytes.ops;
        assert q in l.late || (q in twin.log && twin.log[q] == log[q]);
      }
      if op in LogOps(twin.log, low) {
        var q :| q in twin.log && q > low && op in twin.log[q].bytes.ops;
        assert q in log && log[q] == twin.log[q];
      }
      if op in LateOps(s.store.log, l.late) {
        var q :| q in l.late && q in log && op in log[q].bytes.ops;
        assert q > low;
      }
    }
  }

  // ---------------------------------------------------------------- every step balances

  lemma {:induction false} ReserveBalances(
    encodedSize: set<YOp> -> nat, options: Options, s: State, l: Ledger, record: LogRecord)
    requires Encodes(encodedSize) && Balanced(s, l)
    ensures Balanced(Step(encodedSize, options, s, Reserve(record)), l)
  {
    var next := Step(encodedSize, options, s, Reserve(record));
    StepKeepsGood(encodedSize, options, Twin(s, l), Reserve(record));
    assert Twin(next, l) == Step(encodedSize, options, Twin(s, l), Reserve(record));
    assert LateOps(next.store.log, l.late) == LateOps(s.store.log, l.late);
  }

  lemma LateOpsKept(log: map<nat, LogRecord>, late: set<nat>, sequence: nat, record: LogRecord)
    requires sequence !in late
    ensures LateOps(log[sequence := record], late) == LateOps(log, late)
  {
    var grown := log[sequence := record];
    forall op | op in LateOps(log, late) ensures op in LateOps(grown, late) {
      var q :| q in late && q in log && op in log[q].bytes.ops;
      assert q in grown && grown[q] == log[q];
    }
  }

  lemma LateOpsMore(log: map<nat, LogRecord>, late: set<nat>, sequence: nat, record: LogRecord)
    requires sequence !in late
    ensures LateOps(log[sequence := record], late + {sequence}) == LateOps(log, late) + record.bytes.ops
  {
    var grown := log[sequence := record];
    forall op ensures op in LateOps(grown, late + {sequence}) <==> op in LateOps(log, late) || op in record.bytes.ops {
      if op in record.bytes.ops {
        assert sequence in late + {sequence} && sequence in grown && op in grown[sequence].bytes.ops;
      }
      if op in LateOps(log, late) {
        var q :| q in late && q in log && op in log[q].bytes.ops;
        assert q in late + {sequence} && q in grown && op in grown[q].bytes.ops;
      }
    }
  }

  /** Visible above the horizon: saved. */
  lemma {:induction false} TimelyBalances(encodedSize: set<YOp> -> nat, options: Options, s: State, l: Ledger, q: nat)
    requires Encodes(encodedSize) && Balanced(s, l) && q in s.inFlight && q > Horizon(s)
    ensures Balanced(Step(encodedSize, options, s, Publish(q)), Entered(encodedSize, options, s, l, Publish(q)))
  {
    var next, book := Step(encodedSize, options, s, Publish(q)), Entered(encodedSize, options, s, l, Publish(q));
    assert Horizon(s) >= Checkpoint(s.store) by {
      HorizonAbove(Twin(s, l));
    }
    StepKeepsGood(encodedSize, options, Twin(s, l), Publish(q));
    assert q !in l.late;
    assert next.store.log - l.late == (s.store.log - l.late)[q := s.inFlight[q]];
    assert Twin(next, book) == Step(encodedSize, options, Twin(s, l), Publish(q));
    LateOpsKept(s.store.log, l.late, q, s.inFlight[q]);
  }

  lemma HorizonAbove(s: State)
    requires Good(s)
    ensures Horizon(s) >= Checkpoint(s.store)
  {
    if s.phase.Loaded? {
      MaxSeqBounds(s.phase.input.updates, s.phase.input.checkpoint);
    }
  }

  lemma {:induction false} FewerInFlight(s: State, q: nat)
    requires Good(s)
    ensures Good(s.(inFlight := s.inFlight - {q}))
  {
  }

  lemma {:induction false} IdleIsGood(s: State)
    requires Sequencing(s) && Rebuilt(s.store) == s.published
    ensures Good(s.(phase := Idle))
  {
  }

  /** Visible between the checkpoint in force and the one being made: not decided yet. */
  lemma {:induction false} OvertakenBalances(
    encodedSize: set<YOp> -> nat, options: Options, s: State, l: Ledger, q: nat)
    requires Encodes(encodedSize) && Balanced(s, l) && q in s.inFlight && Checkpoint(s.store) < q <= Horizon(s)
    ensures Balanced(Step(encodedSize, options, s, Publish(q)), Entered(encodedSize, options, s, l, Publish(q)))
  {
    var next, book := Step(encodedSize, options, s, Publish(q)), Entered(encodedSize, options, s, l, Publish(q));
    assert q !in s.store.log && q !in l.late;
    assert next.store.log - book.late == s.store.log - l.late;
    FewerInFlight(Twin(s, l), q);
    assert Twin(next, book) == Twin(s, l).(inFlight := next.inFlight);
    LateOpsMore(s.store.log, l.late, q, s.inFlight[q]);
    assert LateOps(next.store.log, book.late) == LateOps(s.store.log, l.late) + s.inFlight[q].bytes.ops;
  }

  lemma SpanAbove(log: map<nat, LogRecord>, q: nat, record: LogRecord, low: nat, high: nat)
    requires q <= low
    ensures Span(log[q := record], low, high) == Span(log, low, high)
  {
    var grown := log[q := record];
    forall op | op in Span(log, low, high) ensures op in Span(grown, low, high) {
      var r :| r in log && low < r <= high && op in log[r].bytes.ops;
      assert r in grown && grown[r] == log[r];
    }
  }

  /** Visible at or below the checkpoint: lost at once. */
  lemma {:induction false} BelowKeepsGood(s: State, q: nat)
    requires Good(s) && q in s.inFlight && q <= Checkpoint(s.store)
    ensures Good(s.(store := s.store.(log := s.store.log[q := s.inFlight[q]]), inFlight := s.inFlight - {q}))
  {
    PublishAdds(s, q);
    if s.phase.Merged? {
      SpanAbove(s.store.log, q, s.inFlight[q], Checkpoint(s.store), s.phase.target);
    }
  }

  lemma {:induction false} BelowBalances(encodedSize: set<YOp> -> nat, options: Options, s: State, l: Ledger, q: nat)
    requires Encodes(encodedSize) && Balanced(s, l) && q in s.inFlight && q <= Checkpoint(s.store)
    ensures Balanced(Step(encodedSize, options, s, Publish(q)), Entered(encodedSize, options, s, l, Publish(q)))
  {
    var next, book := Step(encodedSize, options, s, Publish(q)), Entered(encodedSize, options, s, l, Publish(q));
    assert q !in l.late;
    BelowKeepsGood(Twin(s, l), q);
    assert next.store.log - l.late == (s.store.log - l.late)[q := s.inFlight[q]];
    LateOpsKept(s.store.log, l.late, q, s.inFlight[q]);
    assert LateOps(next.store.log, l.late) == LateOps(s.store.log, l.late);
  }

  /** A compaction that ends without its transaction: what came late is read by the next one. */
  lemma {:induction false} GivenUpBalances(s: State, l: Ledger)
    requires Balanced(s, l)
    ensures Balanced(s.(phase := Idle), Ledger({}, l.saved + LateOps(s.store.log, l.late), l.lost))
  {
    var next, book := s.(phase := Idle), Ledger({}, l.saved + LateOps(s.store.log, l.late), l.lost);
    RebuiltIs(s, l);
    assert s.store.log - {} == s.store.log;
    assert Twin(next, book) == next.(published := book.saved);
    IdleIsGood(s.(published := book.saved));
    assert LateOps(next.store.log, {}) == {};
  }

  /** The transaction trims what came late. */
  lemma {:induction false} ReplaceBalances(encodedSize: set<YOp> -> nat, options: Options, s: State, l: Ledger)
    requires Encodes(encodedSize) && Balanced(s, l) && s.phase.Merged?
    ensures Balanced(Advanced(encodedSize, options, s), Ledger({}, l.saved, l.lost + LateOps(s.store.log, l.late)))
  {
    var next, book := Advanced(encodedSize, options, s), Ledger({}, l.saved, l.lost + LateOps(s.store.log, l.late));
    var twin := Twin(s, l);
    StepKeepsGood(encodedSize, options, twin, Advance);
    assert next.store.log == Advanced(encodedSize, options, twin).store.log;
    assert next.store.log - {} == next.store.log;
    assert Twin(next, book) == Advanced(encodedSize, options, twin);
    assert LateOps(next.store.log, {}) == {};
  }

  /** The commands before the transaction: with nothing late, or after the log was read. */
  lemma {:induction false} ReadBalances(encodedSize: set<YOp> -> nat, options: Options, s: State, l: Ledger)
    requires Encodes(encodedSize) && Balanced(s, l) && !s.phase.Merged?
    ensures Balanced(Advanced(encodedSize, options, s), Entered(encodedSize, options, s, l, Advance))
  {
    var next, twin := Advanced(encodedSize, options, s), Twin(s, l);
    if s.phase.Loaded? {
      if next.phase.Merged? {
        StepKeepsGood(encodedSize, options, twin, Advance);
        CompactedCovers(encodedSize, options, s.phase.input);
        assert Twin(next, l) == Advanced(encodedSize, options, twin);
        assert LateOps(next.store.log, l.late) == LateOps(s.store.log, l.late);
      } else {
        GivenUpBalances(s, l);
      }
    } else {
      StepKeepsGood(encodedSize, options, twin, Advance);
      assert l.late == {} && s.store.log - {} == s.store.log;
      assert LateOps(s.store.log, {}) == {} && LateOps(next.store.log, {}) == {} && l.saved + {} == l.saved;
      assert Twin(next, l) == Advanced(encodedSize, options, twin);
    }
  }

  lemma StepBalances(encodedSize: set<YOp> -> nat, options: Options, s: State, l: Ledger, e: Event)
    requires Encodes(encodedSize) && Enabled(s, e) && Balanced(s, l)
    ensures Balanced(Step(encodedSize, options, s, e), Entered(encodedSize, options, s, l, e))
  {
    match e {
      case Reserve(record) => ReserveBalances(encodedSize, options, s, l, record);
      case Publish(q) =>
        if q <= Checkpoint(s.store) {
          BelowBalances(encodedSize, options, s, l, q);
        } else if q <= Horizon(s) {
          OvertakenBalances(encodedSize, options, s, l, q);
        } else {
          TimelyBalances(encodedSize, options, s, l, q);
        }
      case Fail => GivenUpBalances(s, l);
      case LostReply => ReplaceBalances(encodedSize, options, s, l);
      case Advance =>
        if s.phase.Merged? {
          ReplaceBalances(encodedSize, options, s, l);
        } else {
          ReadBalances(encodedSize, options, s, l);
        }
    }
  }

  // ---------------------------------------------------------------- every run

  lemma {:induction false} RunBalances(
    encodedSize: set<YOp> -> nat, options: Options, s: State, l: Ledger, events: seq<Event>)
    requires Encodes(encodedSize) && Balanced(s, l)
    ensures Run(encodedSize, options, s, events).Some? ==>
              Balanced(Run(encodedSize, options, s, events).value, Book(encodedSize, options, s, l, events))
    decreases |events|
  {
    if events != [] && Enabled(s, events[0]) {
      StepBalances(encodedSize, options, s, l, events[0]);
      RunBalances(encodedSize, options, Step(encodedSize, options, s, events[0]),
                  Entered(encodedSize, options, s, l, events[0]), events[1..]);
    }
  }

  lemma OpensBalanced(s: State)
    requires Good(s)
    ensures Balanced(s, Ledger({}, s.published, {}))
  {
    assert s.store.log - {} == s.store.log && LateOps(s.store.log, {}) == {};
  }

  /**
    Every run, whatever its order of appends, failures and retries: a reader rebuilds exactly what was saved and what is
    still undecided, and nothing is lost if and only if all that was lost was also appended otherwise.
   */
  lemma EveryRunIsAccountedFor(encodedSize: set<YOp> -> nat, options: Options, s: State, events: seq<Event>)
    requires Encodes(encodedSize) && Good(s) && Run(encodedSize, options, s, events).Some?
    ensures var after := Run(encodedSize, options, s, events).value;
            var l := Book(encodedSize, options, s, Ledger({}, s.published, {}), events);
            && Rebuilt(after.store) == l.saved + LateOps(after.store.log, l.late)
            && after.published == Rebuilt(after.store) + l.lost
            && (Rebuilt(after.store) == after.published <==> l.lost <= l.saved + LateOps(after.store.log, l.late))
            && (after.phase.Idle? ==> Rebuilt(after.store) == l.saved)
  {
    OpensBalanced(s);
    RunBalances(encodedSize, options, s, Ledger({}, s.published, {}), events);
    var after := Run(encodedSize, options, s, events).value;
    var l := Book(encodedSize, options, s, Ledger({}, s.published, {}), events);
    RebuiltIs(after, l);
    assert l.late == {} ==> LateOps(after.store.log, l.late) == {};
  }

  /** The operations made visible during a run. */
  function PublishedIn(encodedSize: set<YOp> -> nat, options: Options, s: State, events: seq<Event>): set<YOp>
    requires Encodes(encodedSize)
    decreases |events|
  {
    if events == [] || !Enabled(s, events[0]) then {}
    else
      var later := PublishedIn(encodedSize, options, Step(encodedSize, options, s, events[0]), events[1..]);
      if events[0].Publish? then s.inFlight[events[0].sequence].bytes.ops + later else later
  }

  lemma StepRebuildsNoMore(encodedSize: set<YOp> -> nat, options: Options, s: State, l: Ledger, e: Event)
    requires Encodes(encodedSize) && Enabled(s, e) && Balanced(s, l)
    ensures Rebuilt(Step(encodedSize, options, s, e).store)
         <= Rebuilt(s.store) + if e.Publish? then s.inFlight[e.sequence].bytes.ops else {}
  {
    var next, book := Step(encodedSize, options, s, e), Entered(encodedSize, options, s, l, e);
    StepBalances(encodedSize, options, s, l, e);
    RebuiltIs(s, l);
    if e.Publish? {
      PublishAdds(s, e.sequence);
    } else {
      RebuiltIs(next, book);
      assert LateOps(next.store.log, {}) == {};
      assert LateOps(next.store.log, l.late) <= LateOps(s.store.log, l.late);
    }
  }

  /** Lost for good: over every later run, what a reader does not rebuild comes back only if it is appended again. */
  lemma {:induction false} LostForGood(
    encodedSize: set<YOp> -> nat, options: Options, s: State, l: Ledger, events: seq<Event>)
    requires Encodes(encodedSize) && Balanced(s, l) && Run(encodedSize, options, s, events).Some?
    ensures Rebuilt(Run(encodedSize, options, s, events).value.store)
         <= Rebuilt(s.store) + PublishedIn(encodedSize, options, s, events)
    decreases |events|
  {
    if events != [] {
      StepRebuildsNoMore(encodedSize, options, s, l, events[0]);
      StepBalances(encodedSize, options, s, l, events[0]);
      LostForGood(encodedSize, options, Step(encodedSize, options, s, events[0]),
                  Entered(encodedSize, options, s, l, events[0]), events[1..]);
    }
  }
}
