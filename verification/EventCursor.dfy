/** Sequenced room events over reconnects: the client's cursor against a server that replays above it. */
module EventCursor {
  import opened Wrappers

  /** The client's side of one room: the last sequence taken, what was handed to listeners, what was acknowledged. */
  datatype Client = Client(last: Option<nat>, delivered: seq<nat>, acked: seq<nat>)

  /** The EVENT handler. `canSend` says whether the socket is still open once the listeners have run. */
  function Handle(c: Client, sequence: nat, canSend: bool): Client {
    if sequence <= (if c.last.Some? then c.last.value else 0) then c
    else Client(Some(sequence), c.delivered + [sequence], if canSend then c.acked + [sequence] else c.acked)
  }

  /** `sendJoin`: the sequence the client asks to resume after, if it has one. */
  function ResumeAfter(c: Client, start: Option<nat>): Option<nat> {
    var after := if c.last.Some? then c.last else start;
    if after.Some? && after.value > 0 then after else None
  }

  class RoomEvents {
    var lastEventSequence: Option<nat>
    var delivered: seq<nat>
    var acked: seq<nat>

    function Now(): Client
      reads this
    {
      Client(lastEventSequence, delivered, acked)
    }

    constructor ()
      ensures Now() == Client(None, [], [])
    {
      lastEventSequence, delivered, acked := None, [], [];
    }

    method HandleEvent(sequence: nat, canSend: bool)
      modifies this
      ensures Now() == Handle(old(Now()), sequence, canSend)
    {
      var previousSequence := if lastEventSequence.Some? then lastEventSequence.value else 0;
      if sequence <= previousSequence {
        return;
      }
      lastEventSequence := Some(sequence);
      delivered := delivered + [sequence];
      if canSend {
        acked := acked + [sequence];
      }
    }

    method SendJoin(start: Option<nat>) returns (afterSeq: Option<nat>)
      ensures afterSeq == ResumeAfter(Now(), start)
    {
      var afterSequence := if lastEventSequence.Some? then lastEventSequence else start;
      if afterSequence.Some? && afterSequence.value > 0 {
        return afterSequence;
      }
      return None;
    }
  }

  // ---------------------------------------------------------------- client and server together

  /** `next` is the index of the next event the server sends on the open connection. */
  datatype Link = Down | Up(next: nat)

  datatype State = State(log: seq<nat>, counter: nat, client: Client, link: Link)

  datatype Event =
    | Publish(gap: nat)
    | Join
    | Deliver(canSend: bool)
    | Resend(index: nat)
    | Disconnect

  /** Index of the first logged event above a sequence. */
  function FirstAbove(log: seq<nat>, after: nat): (i: nat)
    ensures i <= |log|
  {
    if log == [] || log[0] > after then 0 else 1 + FirstAbove(log[1..], after)
  }

  predicate Enabled(s: State, e: Event) {
    match e
    case Join => s.link.Down?
    case Deliver(_) => s.link.Up? && s.link.next < |s.log|
    case Resend(index) => s.link.Up? && s.client.delivered != [] && index < s.link.next && index < |s.log|
    case _ => true
  }

  /** The server replays above the sequence asked for; without one it sends only what comes later. */
  function Step(start: Option<nat>, s: State, e: Event): State
    requires Enabled(s, e)
  {
    match e
    case Publish(gap) => s.(counter := s.counter + gap + 1, log := s.log + [s.counter + gap + 1])
    case Join =>
      s.(link := Up(match ResumeAfter(s.client, start)
                    case Some(after) => FirstAbove(s.log, after)
                    case None => |s.log|))
    case Deliver(canSend) =>
      s.(client := Handle(s.client, s.log[s.link.next], canSend), link := Up(s.link.next + 1))
    case Resend(index) => s.(client := Handle(s.client, s.log[index], true))
    case Disconnect => s.(link := Down)
  }

  predicate Increasing(log: seq<nat>) {
    forall i, j | 0 <= i < j < |log| :: log[i] < log[j]
  }

  /** The client has delivered the block of the log that starts at `first`, and acknowledged nothing else. */
  ghost predicate Took(c: Client, log: seq<nat>, first: nat) {
    var n := |c.delivered|;
    && first + n <= |log| && c.delivered == log[first..first + n]
    && (if n == 0 then c.last.None? else c.last == Some(log[first + n - 1]))
    && (forall a :: a in c.acked ==> a in c.delivered)
  }

  /** Logged sequences ascend, are positive, and none is above the counter. */
  ghost predicate Logged(log: seq<nat>, counter: nat) {
    Increasing(log) && forall i :: 0 <= i < |log| ==> 0 < log[i] <= counter
  }

  /** The block starts where the caller's cursor says, if there is one. */
  ghost predicate Anchored(start: Option<nat>, s: State, first: nat) {
    && (start.Some? ==> start.value <= s.counter)
    && (match ResumeAfter(Client(None, [], []), start)
        case Some(after) => first == FirstAbove(s.log, after)
        case None => true)
  }

  /** The open connection continues where the block ends. */
  ghost predicate Continues(start: Option<nat>, s: State, first: nat) {
    var n := |s.client.delivered|;
    s.link.Up? ==>
      s.link.next <= |s.log| && (n > 0 || ResumeAfter(s.client, start).Some? ==> s.link.next == first + n)
  }

  /** The block of the log that starts at `first` has been delivered, each event once and in order, and nothing else. */
  ghost predicate Caught(start: Option<nat>, s: State, first: nat) {
    && Logged(s.log, s.counter) && Took(s.client, s.log, first)
    && Anchored(start, s, first) && Continues(start, s, first)
  }

  lemma {:induction false} FirstAboveIs(log: seq<nat>, after: nat, i: nat)
    requires Increasing(log) && i <= |log|
    requires i > 0 ==> log[i - 1] <= after
    requires i < |log| ==> log[i] > after
    ensures FirstAbove(log, after) == i
    decreases i
  {
    if i > 0 {
      assert i > 1 ==> log[0] < log[i - 1];
      assert forall j :: 0 <= j < |log| - 1 ==> log[1..][j] == log[j + 1];
      FirstAboveIs(log[1..], after, i - 1);
    }
  }

  lemma {:induction false} FirstAboveStable(log: seq<nat>, after: nat, sequence: nat)
    requires sequence > after
    ensures FirstAbove(log + [sequence], after) == FirstAbove(log, after)
  {
    if log != [] && log[0] <= after {
      assert (log + [sequence])[1..] == log[1..] + [sequence];
      FirstAboveStable(log[1..], after, sequence);
    }
  }

  /** Where the delivered block starts: fixed by the starting cursor, else by the connection that delivered first. */
  function NextFirst(s: State, first: nat, e: Event): nat {
    if e.Deliver? && s.client.delivered == [] && s.link.Up? then s.link.next else first
  }

  lemma {:induction false} LoggedMore(log: seq<nat>, counter: nat, sequence: nat)
    requires Logged(log, counter) && sequence > counter
    ensures Logged(log + [sequence], sequence)
  {
    var grown := log + [sequence];
    forall i, j | 0 <= i < j < |grown| ensures grown[i] < grown[j] {
      assert grown[i] == log[i];
    }
  }

  lemma {:induction false} TookOfMore(c: Client, log: seq<nat>, first: nat, sequence: nat)
    requires Took(c, log, first)
    ensures Took(c, log + [sequence], first)
  {
    var n := |c.delivered|;
    assert (log + [sequence])[first..first + n] == log[first..first + n];
  }

  lemma {:induction false} AnchoredOfMore(start: Option<nat>, s: State, first: nat, gap: nat)
    requires Anchored(start, s, first)
    ensures Anchored(start, Step(start, s, Publish(gap)), first)
  {
    if start.Some? {
      FirstAboveStable(s.log, start.value, s.counter + gap + 1);
    }
  }

  lemma {:induction false} PublishKeepsCaught(start: Option<nat>, s: State, first: nat, gap: nat)
    requires Caught(start, s, first)
    ensures Caught(start, Step(start, s, Publish(gap)), first)
  {
    var sequence := s.counter + gap + 1;
    LoggedMore(s.log, s.counter, sequence);
    TookOfMore(s.client, s.log, first, sequence);
    AnchoredOfMore(start, s, first, gap);
  }

  lemma {:induction false} JoinKeepsCaught(start: Option<nat>, s: State, first: nat)
    requires Caught(start, s, first) && s.link.Down?
    ensures Caught(start, Step(start, s, Join), first)
  {
    var n := |s.client.delivered|;
    if n > 0 {
      FirstAboveIs(s.log, s.log[first + n - 1], first + n);
    }
  }

  /** The event the server sends next follows the block, or starts it. */
  lemma {:induction false} NextFollows(start: Option<nat>, s: State, first: nat, canSend: bool)
    requires Caught(start, s, first) && Enabled(s, Deliver(canSend))
    ensures var at := NextFirst(s, first, Deliver(canSend));
            s.link.next == at + |s.client.delivered| && Took(s.client, s.log, at) && Anchored(start, s, at)
  {
  }

  lemma {:induction false} DeliverKeepsCaught(start: Option<nat>, s: State, first: nat, canSend: bool)
    requires Caught(start, s, first) && Enabled(s, Deliver(canSend))
    ensures Caught(start, Step(start, s, Deliver(canSend)), NextFirst(s, first, Deliver(canSend)))
  {
    NextFollows(start, s, first, canSend);
    HandleNext(s.client, s.log, NextFirst(s, first, Deliver(canSend)), canSend);
  }

  lemma {:induction false} HandleNext(client: Client, log: seq<nat>, at: nat, canSend: bool)
    requires Took(client, log, at) && at + |client.delivered| < |log| && Increasing(log)
    requires log[at + |client.delivered|] > 0
    ensures var after := Handle(client, log[at + |client.delivered|], canSend);
            Took(after, log, at) && |after.delivered| == |client.delivered| + 1
  {
    var n := |client.delivered|;
    assert log[at..at + n + 1] == log[at..at + n] + [log[at + n]];
    assert n > 0 ==> log[at + n - 1] < log[at + n];
  }

  lemma StepKeepsCaught(start: Option<nat>, s: State, first: nat, e: Event)
    requires Caught(start, s, first) && Enabled(s, e)
    ensures Caught(start, Step(start, s, e), NextFirst(s, first, e))
  {
    match e {
      case Publish(gap) => PublishKeepsCaught(start, s, first, gap);
      case Join => JoinKeepsCaught(start, s, first);
      case Deliver(canSend) => DeliverKeepsCaught(start, s, first, canSend);
      case Resend(index) =>
        assert s.log[index] <= s.log[first + |s.client.delivered| - 1];
        assert Step(start, s, e) == s;
      case Disconnect =>
    }
  }

  function Run(start: Option<nat>, s: State, events: seq<Event>): Option<State>
    decreases |events|
  {
    if events == [] then Some(s)
    else if !Enabled(s, events[0]) then None
    else Run(start, Step(start, s, events[0]), events[1..])
  }

  lemma {:induction false} RunKeepsCaught(
    start: Option<nat>, s: State, first: nat, events: seq<Event>) returns (end: nat)
    requires Caught(start, s, first) && Run(start, s, events).Some?
    ensures Caught(start, Run(start, s, events).value, end)
    decreases |events|
  {
    end := first;
    if events != [] {
      StepKeepsCaught(start, s, first, events[0]);
      end := RunKeepsCaught(start, Step(start, s, events[0]), NextFirst(s, first, events[0]), events[1..]);
    }
  }

  /**
    Exactly once. Over any number of disconnects and resends, a client that starts from a cursor has delivered a prefix
    of the log above that cursor, in order and without repetition, has acknowledged only what it delivered, and has
    delivered all of it whenever the open connection has nothing more to send.
   */
  lemma DeliveredFromCursor(log: seq<nat>, counter: nat, start: nat, events: seq<Event>)
    requires Increasing(log) && (forall i :: 0 <= i < |log| ==> 0 < log[i] <= counter) && 0 < start <= counter
    requires Run(Some(start), State(log, counter, Client(None, [], []), Down), events).Some?
    ensures var s := Run(Some(start), State(log, counter, Client(None, [], []), Down), events).value;
            && s.client.delivered <= s.log[FirstAbove(s.log, start)..]
            && Increasing(s.log)
            && (forall a :: a in s.client.acked ==> a in s.client.delivered)
            && (s.link.Up? && s.link.next == |s.log| ==> s.client.delivered == s.log[FirstAbove(s.log, start)..])
  {
    var s0 := State(log, counter, Client(None, [], []), Down);
    assert Caught(Some(start), s0, FirstAbove(log, start));
    var first := RunKeepsCaught(Some(start), s0, FirstAbove(log, start), events);
  }

  /** Without a starting cursor the delivered events are still one gapless block of the log. */
  lemma DeliveredWithoutCursor(log: seq<nat>, counter: nat, events: seq<Event>) returns (first: nat)
    requires Increasing(log) && (forall i :: 0 <= i < |log| ==> 0 < log[i] <= counter)
    requires Run(None, State(log, counter, Client(None, [], []), Down), events).Some?
    ensures var s := Run(None, State(log, counter, Client(None, [], []), Down), events).value;
            && first <= |s.log| && s.client.delivered <= s.log[first..]
            && (forall a :: a in s.client.acked ==> a in s.client.delivered)
            && (s.link.Up? && s.link.next == |s.log| && s.client.delivered != [] ==>
                  s.client.delivered == s.log[first..])
  {
    var s0 := State(log, counter, Client(None, [], []), Down);
    assert Caught(None, s0, 0);
    first := RunKeepsCaught(None, s0, 0, events);
  }

  /** The server's replay starts at the first event above the cursor: what is before it is not above, the rest is. */
  lemma {:induction false} FirstAboveSplits(log: seq<nat>, after: nat)
    requires Increasing(log)
    ensures forall i :: 0 <= i < |log| ==> (log[i] > after <==> i >= FirstAbove(log, after))
  {
    if log != [] && log[0] <= after {
      assert forall i, j :: 0 <= i < j < |log| - 1 ==> log[1..][i] == log[i + 1] && log[1..][j] == log[j + 1];
      FirstAboveSplits(log[1..], after);
      assert forall i :: 1 <= i < |log| ==> log[i] == log[1..][i - 1];
    } else if log != [] {
      assert forall i :: 1 <= i < |log| ==> log[0] < log[i];
    }
  }

  /** Each delivery hands over exactly the event sent, and acknowledges it exactly when the socket is still open. */
  lemma {:induction false} EachDeliveryIsAcked(start: Option<nat>, s: State, first: nat, e: Event)
    requires Caught(start, s, first) && Enabled(s, e)
    ensures var next := Step(start, s, e);
            if e.Deliver? then
              && next.client.delivered == s.client.delivered + [s.log[s.link.next]]
              && next.client.acked == s.client.acked + (if e.canSend then [s.log[s.link.next]] else [])
            else next.client.delivered == s.client.delivered && next.client.acked == s.client.acked
  {
    match e {
      case Deliver(canSend) =>
        NextFollows(start, s, first, canSend);
        var n := |s.client.delivered|;
        assert n > 0 ==> s.log[s.link.next - 1] < s.log[s.link.next];
      case Resend(index) => assert s.log[index] <= s.log[first + |s.client.delivered| - 1];
      case _ =>
    }
  }

  /** What the acknowledgements of a run are: the deliveries during which the socket stayed open. */
  function Sent(start: Option<nat>, s: State, events: seq<Event>): seq<nat>
    decreases |events|
  {
    if events == [] || !Enabled(s, events[0]) then []
    else SentBy(s, events[0]) + Sent(start, Step(start, s, events[0]), events[1..])
  }

  function SentBy(s: State, e: Event): seq<nat>
    requires Enabled(s, e)
  {
    if e.Deliver? && e.canSend then [s.log[s.link.next]] else []
  }

  lemma {:induction false} AcksOfStep(start: Option<nat>, s: State, first: nat, e: Event)
    requires Caught(start, s, first) && Enabled(s, e)
    ensures Step(start, s, e).client.acked == s.client.acked + SentBy(s, e)
  {
    EachDeliveryIsAcked(start, s, first, e);
  }

  lemma Associates(a: seq<nat>, b: seq<nat>, c: seq<nat>)
    ensures (a + b) + c == a + (b + c)
  {
  }

  lemma {:induction false} AcksOfRun(start: Option<nat>, s: State, first: nat, events: seq<Event>)
    requires Caught(start, s, first) && Run(start, s, events).Some?
    ensures Run(start, s, events).value.client.acked == s.client.acked + Sent(start, s, events)
    decreases |events|
  {
    if events != [] {
      var next := Step(start, s, events[0]);
      StepKeepsCaught(start, s, first, events[0]);
      AcksOfStep(start, s, first, events[0]);
      AcksOfRun(start, next, NextFirst(s, first, events[0]), events[1..]);
      Associates(s.client.acked, SentBy(s, events[0]), Sent(start, next, events[1..]));
    }
  }

  /** When the socket stays open during every delivery, the acknowledgements are the deliveries, in order. */
  lemma {:induction false} AllDeliveriesAreAcked(start: Option<nat>, s: State, first: nat, events: seq<Event>)
    requires Caught(start, s, first) && Run(start, s, events).Some? && s.client.acked == s.client.delivered
    requires forall e :: e in events && e.Deliver? ==> e.canSend
    ensures Run(start, s, events).value.client.acked == Run(start, s, events).value.client.delivered
    decreases |events|
  {
    if events != [] {
      assert events[0] in events && forall e :: e in events[1..] ==> e in events;
      StepKeepsCaught(start, s, first, events[0]);
      EachDeliveryIsAcked(start, s, first, events[0]);
      AllDeliveriesAreAcked(start, Step(start, s, events[0]), NextFirst(s, first, events[0]), events[1..]);
    }
  }
}
