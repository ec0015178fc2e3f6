/** The optimistic storage replica: its state, and what each message, call and failure makes of it. */
module StorageReplica {
  import opened Wrappers
  import opened JsonPointer
  import opened Json
  import opened JsonPatch

  type Room = string

  /** A stored document. A deleted or never-loaded document is `undefined` in the source. */
  datatype Doc = Undefined | Defined(json: Json)

  datatype Status = NotLoaded | Loading | Synchronizing | Synchronized | Failed

  datatype Payload = SetTo(document: Json) | PatchWith(operations: seq<Operation>)

  /** `PendingStorageMutation` */
  datatype Mutation = Mutation(id: nat, room: Room, payload: Payload, hadPrevious: bool, previous: Doc)

  datatype Outcome = Resolved(document: Doc) | Rejected

  datatype Settlement = Settlement(id: nat, outcome: Outcome)

  datatype State = State(
    docs: map<Room, Doc>,
    status: map<Room, Status>,
    sequences: map<Room, nat>,
    pending: seq<Mutation>,
    settled: seq<Settlement>,
    counter: nat,
    /** The newest accepted server document of each room: not a field of the source, kept to state what `docs` means. */
    base: map<Room, Doc>)

  const EMPTY: State := State(map[], map[], map[], [], [], 0, map[])

  // ---------------------------------------------------------------- documents and mutations

  /** `applyJSONPatchOptimistic` one operation at a time, on a document that may be undefined. */
  function StepDoc(doc: Doc, operation: Operation): Result<Doc, Error> {
    match doc
    case Defined(json) =>
      var next :- ApplyOne(json, operation);
      Ok(Defined(next))
    case Undefined => StepUndefined(operation)
  }

  function StepUndefined(operation: Operation): Result<Doc, Error> {
    match operation.op
    case Add => SetUndefined(operation)
    case Replace => SetUndefined(operation)
    case Remove =>
      var parts :- Parse(operation.path);
      Err(if parts == [] then RootRemoval else NoParent(parts))
    case Test =>
      if operation.value.None? then Err(MissingValue)
      else
        var parts :- Parse(operation.path);
        Err(if parts == [] then TestFailed else MissingPath)
    case Copy =>
      if operation.from.None? then Err(MissingFrom)
      else
        var from :- Parse(operation.from.value);
        if from != [] then Err(MissingPath)
        else
          var parts :- Parse(operation.path);
          if parts == [] then Ok(Undefined) else Err(NoParent(parts))
    case Move =>
      if operation.from.None? then Err(MissingFrom)
      else
        var from :- Parse(operation.from.value);
        Err(if from == [] then RootRemoval else MissingPath)
  }

  function SetUndefined(operation: Operation): Result<Doc, Error> {
    if operation.value.None? then Err(MissingValue)
    else
      var parts :- Parse(operation.path);
      if parts == [] then Ok(Defined(operation.value.value)) else Err(NoParent(parts))
  }

  function NoParent(parts: seq<string>): Error {
    if |parts| == 1 then NotAContainer else MissingPath
  }

  function ApplyDoc(doc: Doc, operations: seq<Operation>): Result<Doc, Error>
    decreases |operations|
  {
    if operations == [] then Ok(doc)
    else
      var next :- StepDoc(doc, operations[0]);
      ApplyDoc(next, operations[1..])
  }

  /** `applyPendingStorageMutation` */
  function Effect(doc: Doc, payload: Payload): Result<Doc, Error> {
    match payload
    case SetTo(document) => Ok(Defined(document))
    case PatchWith(operations) => ApplyDoc(doc, operations)
  }

  function PendingOf(pending: seq<Mutation>, room: Room): seq<Mutation> {
    if pending == [] then []
    else if pending[0].room == room then [pending[0]] + PendingOf(pending[1..], room)
    else PendingOf(pending[1..], room)
  }

  function WithoutId(pending: seq<Mutation>, id: nat): seq<Mutation> {
    if pending == [] then []
    else if pending[0].id == id then WithoutId(pending[1..], id)
    else [pending[0]] + WithoutId(pending[1..], id)
  }

  function WithoutRoom(pending: seq<Mutation>, room: Room): seq<Mutation> {
    if pending == [] then []
    else if pending[0].room == room then WithoutRoom(pending[1..], room)
    else [pending[0]] + WithoutRoom(pending[1..], room)
  }

  function Find(pending: seq<Mutation>, id: nat): (r: Option<Mutation>)
    ensures r.Some? ==> r.value in pending && r.value.id == id
    ensures r.None? ==> forall m :: m in pending ==> m.id != id
  {
    if pending == [] then None else if pending[0].id == id then Some(pending[0]) else Find(pending[1..], id)
  }

  /** The pending mutations replayed in issue order: the document they give, or the first that fails. */
  datatype Replay = Replayed(doc: Doc) | FailedAt(mutation: Mutation)

  function ReplayOn(doc: Doc, pending: seq<Mutation>): Replay
    decreases |pending|
  {
    if pending == [] then Replayed(doc)
    else
      match Effect(doc, pending[0].payload)
      case Ok(next) => ReplayOn(next, pending[1..])
      case Err(_) => FailedAt(pending[0])
  }

  // ---------------------------------------------------------------- private steps

  function StatusOf(s: State, room: Room): Status {
    if room in s.status then s.status[room] else NotLoaded
  }

  function SetStatus(s: State, room: Room, status: Status): State {
    s.(status := if status.NotLoaded? then s.status - {room} else s.status[room := status])
  }

  function Settle(s: State, id: nat, outcome: Outcome): State {
    s.(settled := s.settled + [Settlement(id, outcome)])
  }

  function Drop(s: State, id: nat): State {
    s.(pending := WithoutId(s.pending, id))
  }

  /** `refreshStorageStatus` */
  function Refresh(s: State, room: Room): State {
    if PendingOf(s.pending, room) != [] then SetStatus(s, room, Synchronizing)
    else SetStatus(s, room, if room in s.docs then Synchronized else NotLoaded)
  }

  /** `reapplyPendingStorageMutations` */
  function Reapply(s: State, room: Room, doc: Doc): (r: State)
    ensures r.sequences == s.sequences && r.counter == s.counter && r.base == s.base
  {
    var pending := PendingOf(s.pending, room);
    if pending == [] then s
    else
      match ReplayOn(doc, pending)
      case Replayed(final) => SetStatus(s.(docs := s.docs[room := final]), room, Synchronizing)
      case FailedAt(m) => SetStatus(Settle(Drop(s, m.id), m.id, Rejected), room, Failed)
  }

  /** `applyStorageMessage` for a document of the server, and what rests on it. */
  function Adopt(s: State, room: Room, doc: Doc, isDelete: bool): (r: State)
    ensures r.sequences == s.sequences && r.counter == s.counter && r.base == s.base[room := doc]
  {
    var stored := s.(
      docs := if isDelete && doc.Undefined? then s.docs - {room} else s.docs[room := doc],
      base := s.base[room := doc]);
    Reapply(SetStatus(stored, room, Synchronized), room, doc)
  }

  function SequenceOf(s: State, room: Room): nat {
    if room in s.sequences then s.sequences[room] else 0
  }

  predicate Stale(s: State, room: Room, sequence: Option<nat>) {
    sequence.Some? && sequence.value <= SequenceOf(s, room)
  }

  function Sequenced(s: State, room: Room, sequence: Option<nat>): State {
    if sequence.Some? then s.(sequences := s.sequences[room := sequence.value]) else s
  }

  /** `storageEventDocument` */
  function EventDocument(doc: Doc, isDelete: bool): Doc {
    if isDelete && doc == Defined(Null) then Undefined else doc
  }

  /** `applyAuthoritativeStorageMessage` */
  function Authoritative(s: State, room: Room, doc: Doc, sequence: Option<nat>, isDelete: bool): State {
    if Stale(s, room, sequence) then Refresh(s, room)
    else Adopt(Sequenced(s, room, sequence), room, EventDocument(doc, isDelete), isDelete)
  }

  /** `rollbackStorageMutation` */
  function Rollback(s: State, m: Mutation): (r: State)
    ensures r.sequences == s.sequences && r.counter == s.counter && r.base == s.base
  {
    var rolled := s.(docs := if m.hadPrevious then s.docs[m.room := m.previous] else s.docs - {m.room});
    Reapply(SetStatus(rolled, m.room, Failed), m.room, if m.hadPrevious then m.previous else Undefined)
  }

  // ---------------------------------------------------------------- events

  datatype Event =
    | Issue(room: Room, payload: Payload, sent: bool)
    | Snapshot(room: Room, doc: Doc, sequence: Option<nat>)
    | Ack(request: Option<nat>, room: Room, doc: Doc, sequence: Option<nat>, isDelete: bool)
    | Update(room: Room, doc: Doc, sequence: Option<nat>, isDelete: bool)
    | Conflict(request: Option<nat>, target: Option<Room>, doc: Doc, sequence: Option<nat>)
    | Refusal(request: Option<nat>)
    | LoadRequested(room: Room)
    | LoadFailed(room: Room)
    | SocketClosed(reset: bool)
    | Leave(room: Room)

  function Previous(s: State, room: Room): Doc {
    if room in s.docs then s.docs[room] else Undefined
  }

  function NewMutation(s: State, room: Room, payload: Payload): Mutation {
    Mutation(s.counter, room, payload, room in s.docs, Previous(s, room))
  }

  /** Whether an optimistic document can be shown: a set always, a patch only on a loaded document. */
  predicate Shows(s: State, room: Room, payload: Payload) {
    payload.SetTo? || room in s.docs
  }

  /** The mutation recorded as pending and, where possible, its effect shown. */
  function Queued(s: State, room: Room, payload: Payload): State {
    var optimistic := Effect(Previous(s, room), payload);
    SetStatus(
      s.(counter := s.counter + 1,
         pending := s.pending + [NewMutation(s, room, payload)],
         docs := if Shows(s, room, payload) && optimistic.Ok? then s.docs[room := optimistic.value] else s.docs),
      room, Synchronizing)
  }

  /** A mutation that stops being pending is rolled back and its promise rejected. */
  function RolledBack(s: State, m: Mutation): State {
    Settle(Rollback(Drop(s, m.id), m), m.id, Rejected)
  }

  /** `mutateStorage` */
  function Issued(s: State, room: Room, payload: Payload, sent: bool): State {
    if Shows(s, room, payload) && Effect(Previous(s, room), payload).Err? then
      Settle(s.(counter := s.counter + 1), s.counter, Rejected)
    else if sent then Queued(s, room, payload)
    else RolledBack(Queued(s, room, payload), NewMutation(s, room, payload))
  }

  /** STORAGE_ACK: the mutation stops being pending before the document is taken, and is resolved after. */
  function Acked(s: State, request: Option<nat>, room: Room, doc: Doc, sequence: Option<nat>, isDelete: bool): State {
    if request.Some? && Find(s.pending, request.value).Some? then
      Settle(Authoritative(Drop(s, request.value), room, doc, sequence, isDelete), request.value, Resolved(doc))
    else Authoritative(s, room, doc, sequence, isDelete)
  }

  /** The room a conflict repair is for, when it is accepted. */
  function RepairRoom(s: State, request: Option<nat>, target: Option<Room>, sequence: Option<nat>): Option<Room> {
    var excluded := if request.Some? then Find(s.pending, request.value) else None;
    if target.None? && excluded.None? then None
    else
      var room := if target.Some? then target.value else excluded.value.room;
      if sequence.Some? && sequence.value < SequenceOf(s, room) then None else Some(room)
  }

  /** `applyStorageConflictRepair` of an accepted repair; the refused mutation is set aside during the replay. */
  function Repaired(s: State, request: Option<nat>, room: Room, doc: Doc, sequence: Option<nat>): (r: State)
    ensures r.sequences == Sequenced(s, room, sequence).sequences && r.base == s.base[room := doc]
  {
    var excluded := if request.Some? then Find(s.pending, request.value) else None;
    var aside := if excluded.Some? then Drop(s, excluded.value.id) else s;
    var adopted := Adopt(Sequenced(aside, room, sequence), room, doc, false);
    if excluded.Some? then adopted.(pending := adopted.pending + [excluded.value]) else adopted
  }

  /** The room whose status a stale repair refreshes. */
  function StaleRepair(s: State, request: Option<nat>, target: Option<Room>): (r: State)
    ensures r.(status := s.status) == s
  {
    var excluded := if request.Some? then Find(s.pending, request.value) else None;
    if target.Some? then Refresh(s, target.value)
    else if excluded.Some? then Refresh(s, excluded.value.room) else s
  }

  /** `rejectStorageRequest` for a mutation */
  function RejectRequest(s: State, request: Option<nat>, rollback: bool): (r: State)
    ensures r.sequences == s.sequences && r.counter == s.counter && r.base == s.base
  {
    if request.None? then s
    else
      match Find(s.pending, request.value)
      case None => s
      case Some(m) =>
        if rollback then RolledBack(s, m) else Settle(Refresh(Drop(s, m.id), m.room), m.id, Rejected)
  }

  function Conflicted(s: State, request: Option<nat>, target: Option<Room>, doc: Doc, sequence: Option<nat>): State {
    match RepairRoom(s, request, target, sequence)
    case Some(room) => RejectRequest(Repaired(s, request, room, doc, sequence), request, false)
    case None => RejectRequest(StaleRepair(s, request, target), request, true)
  }

  function RejectAll(s: State, mutations: seq<Mutation>): (r: State)
    ensures r.sequences == s.sequences && r.counter == s.counter && r.base == s.base
    decreases |mutations|
  {
    if mutations == [] then s
    else RejectAll(Settle(Rollback(s, mutations[0]), mutations[0].id, Rejected), mutations[1..])
  }

  function SettleAll(s: State, mutations: seq<Mutation>): (r: State)
    ensures r.(settled := s.settled) == s
    decreases |mutations|
  {
    if mutations == [] then s else SettleAll(Settle(s, mutations[0].id, Rejected), mutations[1..])
  }

  /** `rejectPendingStorage`, and `resetRooms` when local state is not preserved. */
  function Closed(s: State, reset: bool): State {
    var rejected := RejectAll(s.(pending := []), s.pending);
    if reset then rejected.(docs := map[], status := map[], sequences := map[], base := map[]) else rejected
  }

  /** `leave`: the room is reset and its mutations rejected without rolling back. */
  function Left(s: State, room: Room): State {
    var reset := s.(docs := s.docs - {room}, sequences := s.sequences - {room}, base := s.base - {room},
                    pending := WithoutRoom(s.pending, room));
    SetStatus(SettleAll(reset, PendingOf(s.pending, room)), room, NotLoaded)
  }

  function Step(s: State, e: Event): State {
    match e
    case Issue(room, payload, sent) => Issued(s, room, payload, sent)
    case Snapshot(room, doc, sequence) => Authoritative(s, room, doc, sequence, false)
    case Ack(request, room, doc, sequence, isDelete) => Acked(s, request, room, doc, sequence, isDelete)
    case Update(room, doc, sequence, isDelete) => Authoritative(s, room, doc, sequence, isDelete)
    case Conflict(request, target, doc, sequence) => Conflicted(s, request, target, doc, sequence)
    case Refusal(request) => RejectRequest(s, request, true)
    case LoadRequested(room) => SetStatus(s, room, Loading)
    case LoadFailed(room) => SetStatus(s, room, Failed)
    case SocketClosed(reset) => Closed(s, reset)
    case Leave(room) => Left(s, room)
  }

  function Run(s: State, events: seq<Event>): State
    decreases |events|
  {
    if events == [] then s else Run(Step(s, events[0]), events[1..])
  }
}
