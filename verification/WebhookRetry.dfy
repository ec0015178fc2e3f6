/** Webhook deliveries: how one record changes with each attempt, and when the worker tries again. */
module WebhookRetry {
  import opened Wrappers

  const MINUTE: nat := 60
  const MAX_ATTEMPTS: nat := 10

  datatype Status = Pending | Failed | Delivered | Dead

  /** Times are in seconds. */
  datatype Record = Record(
    status: Status, attempts: nat, lastStatusCode: nat, failedLast: bool, updatedAt: nat, nextAttemptAt: Option<nat>)

  function PowerOfTwo(n: nat): nat {
    if n == 0 then 1 else 2 * PowerOfTwo(n - 1)
  }

  /** `webhookRetryDelay` */
  function RetryDelay(attempts: nat): nat {
    var clamped := if attempts < 1 then 1 else if attempts > 6 then 6 else attempts;
    PowerOfTwo(clamped - 1) * MINUTE
  }

  function Updated(record: Record, statusCode: nat, failed: bool, now: nat): Record {
    var attempts := record.attempts + 1;
    if !failed then Record(Delivered, attempts, statusCode, false, now, None)
    else if attempts >= MAX_ATTEMPTS then Record(Dead, attempts, statusCode, true, now, None)
    else Record(Failed, attempts, statusCode, true, now, Some(now + RetryDelay(attempts)))
  }

  /** The fields of a stored record, as `updateWebhookDeliveryRecord` assigns them. */
  class DeliveryRecord {
    var status: Status
    var attempts: nat
    var lastStatusCode: nat
    var failedLast: bool
    var updatedAt: nat
    var nextAttemptAt: Option<nat>

    function Fields(): Record
      reads this
    {
      Record(status, attempts, lastStatusCode, failedLast, updatedAt, nextAttemptAt)
    }

    constructor (now: nat)
      ensures Fields() == Record(Pending, 0, 0, false, now, None)
    {
      status, attempts, lastStatusCode, failedLast, updatedAt, nextAttemptAt := Pending, 0, 0, false, now, None;
    }

    method Update(statusCode: nat, failed: bool, now: nat)
      modifies this
      ensures Fields() == Updated(old(Fields()), statusCode, failed, now)
    {
      attempts := attempts + 1;
      lastStatusCode := statusCode;
      updatedAt := now;
      failedLast := failed;
      if failed {
        status := Failed;
        nextAttemptAt := Some(updatedAt + RetryDelay(attempts));
        if attempts >= MAX_ATTEMPTS {
          status := Dead;
          nextAttemptAt := None;
        }
      } else {
        status := Delivered;
        nextAttemptAt := None;
      }
    }
  }

  /** Whether the worker tries a listed record at `now`. */
  predicate Due(record: Record, now: nat) {
    !record.status.Dead? && !(record.nextAttemptAt.Some? && record.nextAttemptAt.value > now)
  }

  datatype Attempt = Attempt(statusCode: nat, failed: bool, finished: nat)

  /** The record after its attempt, if it is due. */
  function Retried(record: Record, attempt: Attempt, now: nat): Record {
    if Due(record, now) then Updated(record, attempt.statusCode, attempt.failed, attempt.finished) else record
  }

  function DueAmong(records: seq<Record>, now: nat): set<nat> {
    set i: nat | i < |records| && Due(records[i], now)
  }

  lemma DueAmongSnoc(records: seq<Record>, i: nat, now: nat)
    requires i < |records|
    ensures |DueAmong(records[..i + 1], now)| == |DueAmong(records[..i], now)| + (if Due(records[i], now) then 1 else 0)
  {
    var before, after := DueAmong(records[..i], now), DueAmong(records[..i + 1], now);
    assert after == if Due(records[i], now) then before + {i} else before;
  }

  /** `retryDueWebhookDeliveries` over the listed records, with what each attempt came to; says how many were due. */
  method RetryDue(listed: seq<DeliveryRecord>, attempts: seq<Attempt>, now: nat) returns (retried: nat)
    requires |attempts| == |listed|
    requires forall i, j :: 0 <= i < j < |listed| ==> listed[i] != listed[j]
    modifies listed
    ensures retried == |set i: nat | i < |listed| && Due(old(listed[i].Fields()), now)|
    ensures forall i :: 0 <= i < |listed| ==> listed[i].Fields() == Retried(old(listed[i].Fields()), attempts[i], now)
  {
    ghost var records := seq(|listed|, i requires 0 <= i < |listed| reads listed => listed[i].Fields());
    retried := 0;
    for i := 0 to |listed|
      invariant retried == |DueAmong(records[..i], now)|
      invariant forall k :: i <= k < |listed| ==> listed[k].Fields() == records[k]
      invariant forall k :: 0 <= k < i ==> listed[k].Fields() == Retried(records[k], attempts[k], now)
    {
      DueAmongSnoc(records, i, now);
      var record := listed[i];
      if record.status.Dead? {
        continue;
      }
      if record.nextAttemptAt.Some? && record.nextAttemptAt.value > now {
        continue;
      }
      record.Update(attempts[i].statusCode, attempts[i].failed, attempts[i].finished);
      retried := retried + 1;
    }
    assert records[..|listed|] == records;
    assert DueAmong(records, now) == set i: nat | i < |listed| && Due(old(listed[i].Fields()), now);
  }

  // ---------------------------------------------------------------- one delivery over time

  /** A delivery's first attempt, then what the worker does at each of its scans; a scan lists failed records only. */
  datatype Event = First(attempt: Attempt) | Scan(now: nat, attempt: Attempt)

  /** `firstFinished` is when the first attempt was recorded, `lastStarted` when the latest one was begun. */
  datatype Delivery = Delivery(record: Record, firstFinished: nat, lastStarted: nat)

  predicate Enabled(d: Delivery, e: Event) {
    match e
    case First(attempt) => d.record.status.Pending? && attempt.finished >= d.record.updatedAt
    case Scan(now, attempt) => now <= attempt.finished && d.record.updatedAt <= now
  }

  predicate Tries(d: Delivery, e: Event) {
    e.First? || (d.record.status.Failed? && Due(d.record, e.now))
  }

  function Step(d: Delivery, e: Event): Delivery
    requires Enabled(d, e)
  {
    if !Tries(d, e) then d
    else
      var record := Updated(d.record, e.attempt.statusCode, e.attempt.failed, e.attempt.finished);
      match e
      case First(attempt) => Delivery(record, attempt.finished, d.lastStarted)
      case Scan(now, attempt) => Delivery(record, d.firstFinished, now)
  }

  /** The delays the worker has waited out, at least, before attempt number `attempts + 1`. */
  function Waited(attempts: nat): nat {
    if attempts == 0 then 0 else Waited(attempts - 1) + RetryDelay(attempts)
  }

  ghost predicate Bounded(d: Delivery) {
    var r := d.record;
    && r.attempts <= MAX_ATTEMPTS
    && (r.status.Pending? <==> r.attempts == 0)
    && (r.status.Failed? <==> 1 <= r.attempts < MAX_ATTEMPTS && r.failedLast)
    && (r.status.Dead? <==> r.attempts == MAX_ATTEMPTS && r.failedLast)
    && (r.nextAttemptAt.Some? <==> r.status.Failed?)
    && (r.status.Failed? ==> r.nextAttemptAt.value >= d.firstFinished + Waited(r.attempts))
    && (r.attempts >= 2 ==> d.lastStarted >= d.firstFinished + Waited(r.attempts - 1))
  }

  lemma StepStaysBounded(d: Delivery, e: Event)
    requires Bounded(d) && Enabled(d, e)
    ensures Bounded(Step(d, e))
  {
  }

  lemma WaitedInAll()
    ensures Waited(9) == 159 * MINUTE
  {
    assert PowerOfTwo(1) == 2 && PowerOfTwo(2) == 4 && PowerOfTwo(3) == 8 && PowerOfTwo(4) == 16 && PowerOfTwo(5) == 32;
    assert Waited(1) == 1 * MINUTE && Waited(2) == 3 * MINUTE && Waited(3) == 7 * MINUTE && Waited(4) == 15 * MINUTE;
    assert Waited(5) == 31 * MINUTE && Waited(6) == 63 * MINUTE && Waited(7) == 95 * MINUTE;
    assert Waited(8) == 127 * MINUTE;
  }

  function Run(d: Delivery, events: seq<Event>): Option<Delivery>
    decreases |events|
  {
    if events == [] then Some(d) else if Enabled(d, events[0]) then Run(Step(d, events[0]), events[1..]) else None
  }

  lemma {:induction false} RunStaysBounded(d: Delivery, events: seq<Event>)
    requires Bounded(d)
    ensures Run(d, events).Some? ==> Bounded(Run(d, events).value)
    decreases |events|
  {
    if events != [] && Enabled(d, events[0]) {
      StepStaysBounded(d, events[0]);
      RunStaysBounded(Step(d, events[0]), events[1..]);
    }
  }

  /**
    Whatever the endpoint answers and whenever the worker scans: at most ten attempts; a record is failed exactly when
    one to nine attempts were made and the last failed; and a tenth attempt starts 159 minutes or more after the first.
   */
  lemma RetriesAreBounded(created: nat, events: seq<Event>)
    requires Run(Delivery(Record(Pending, 0, 0, false, created, None), created, created), events).Some?
    ensures var d := Run(Delivery(Record(Pending, 0, 0, false, created, None), created, created), events).value;
            && d.record.attempts <= 10
            && (d.record.status.Failed? <==> 1 <= d.record.attempts <= 9 && d.record.failedLast)
            && (d.record.nextAttemptAt.Some? <==> d.record.status.Failed?)
            && (d.record.attempts == 10 ==> d.lastStarted >= d.firstFinished + 159 * MINUTE)
  {
    RunStaysBounded(Delivery(Record(Pending, 0, 0, false, created, None), created, created), events);
    WaitedInAll();
  }

  // ---------------------------------------------------------------- the worker does try again

  /** The delays: they double from one minute and stay at 32. */
  lemma DelaysAre()
    ensures RetryDelay(1) == 1 * MINUTE && RetryDelay(2) == 2 * MINUTE && RetryDelay(3) == 4 * MINUTE
    ensures RetryDelay(4) == 8 * MINUTE && RetryDelay(5) == 16 * MINUTE
    ensures forall n: nat :: n >= 6 ==> RetryDelay(n) == 32 * MINUTE
  {
    assert PowerOfTwo(1) == 2 && PowerOfTwo(2) == 4 && PowerOfTwo(3) == 8 && PowerOfTwo(4) == 16 && PowerOfTwo(5) == 32;
  }

  /** A scan tries a delivery if and only if its last attempt failed, it is not the tenth, and its time has come. */
  lemma ScanTriesIff(d: Delivery, now: nat, attempt: Attempt)
    requires Bounded(d) && Enabled(d, Scan(now, attempt))
    ensures var after := Step(d, Scan(now, attempt));
            && (after != d && after.record.attempts == d.record.attempts + 1
                <==> 1 <= d.record.attempts < 10 && d.record.failedLast && d.record.nextAttemptAt.value <= now)
            && (after == d || after.record.attempts == d.record.attempts + 1)
  {
  }

  /** What an attempt leaves in the record. */
  lemma AttemptRecords(d: Delivery, e: Event)
    requires Bounded(d) && Enabled(d, e) && Tries(d, e)
    ensures var r := Step(d, e).record;
            && r.lastStatusCode == e.attempt.statusCode && r.failedLast == e.attempt.failed
            && r.updatedAt == e.attempt.finished && r.attempts == d.record.attempts + 1
            && (r.status.Delivered? <==> !e.attempt.failed)
            && (r.status.Dead? <==> e.attempt.failed && r.attempts == 10)
            && (r.status.Failed? ==> r.nextAttemptAt == Some(e.attempt.finished + RetryDelay(r.attempts)))
            && (e.First? || e.now == Step(d, e).lastStarted)
  {
  }

  /** A delivered or dead delivery is never tried again. */
  lemma {:induction false} SettledForGood(d: Delivery, events: seq<Event>)
    requires Bounded(d) && (d.record.status.Delivered? || d.record.status.Dead?) && Run(d, events).Some?
    ensures Run(d, events) == Some(d)
    decreases |events|
  {
    if events != [] {
      assert Step(d, events[0]) == d;
      SettledForGood(d, events[1..]);
    }
  }

  /** Scans that always come late enough and always fail: each tries again, and the tenth attempt is the last. */
  ghost predicate AlwaysFails(d: Delivery, events: seq<Event>)
    decreases |events|
  {
    events == []
    || (&& events[0].Scan? && events[0].attempt.failed && Enabled(d, events[0])
        && (d.record.nextAttemptAt.Some? ==> d.record.nextAttemptAt.value <= events[0].now)
        && AlwaysFails(Step(d, events[0]), events[1..]))
  }

  lemma {:induction false} FailingDeliveryDies(d: Delivery, events: seq<Event>)
    requires Bounded(d) && d.record.failedLast && d.record.attempts >= 1 && AlwaysFails(d, events)
    ensures Run(d, events).Some?
    ensures var end := Run(d, events).value;
            && end.record.attempts == (if d.record.attempts + |events| < 10 then d.record.attempts + |events| else 10)
            && (end.record.status.Dead? <==> d.record.attempts + |events| >= 10)
    decreases |events|
  {
    if events != [] {
      StepStaysBounded(d, events[0]);
      if d.record.attempts == 10 {
        assert Step(d, events[0]) == d;
      }
      FailingDeliveryDies(Step(d, events[0]), events[1..]);
    }
  }
}
