/** Live objects, maps and lists: calls that compile to patches on one node of the document. */
module LiveBuilder {
  import opened Wrappers
  import opened JsonPointer
  import opened Json
  import opened JsonPatch
  import Decimal

  // ---------------------------------------------------------------- patch constructors

  /** `liveObjectPatch` and `liveMapPatch`: one `add` per entry, in order. */
  function SetFields(entries: seq<(string, Json)>, basePath: string): Result<seq<Operation>, Error> {
    if entries == [] then Err(BadArgument) else AddEntries(entries, basePath)
  }

  function AddEntries(entries: seq<(string, Json)>, basePath: string): Result<seq<Operation>, Error> {
    if entries == [] then Ok([])
    else
      var path :- Join(basePath, entries[0].0);
      var rest :- AddEntries(entries[1..], basePath);
      Ok([AddOp(path, entries[0].1)] + rest)
  }

  /** `liveRecordDelete`: one `remove` per key; keys must be non-empty. */
  function DeleteKeys(keys: seq<string>, basePath: string): Result<seq<Operation>, Error> {
    if keys == [] then Err(BadArgument) else RemoveEach(keys, basePath)
  }

  function RemoveEach(keys: seq<string>, basePath: string): Result<seq<Operation>, Error> {
    if keys == [] then Ok([])
    else if keys[0] == "" then Err(BadArgument)
    else
      var path :- Join(basePath, keys[0]);
      var rest :- RemoveEach(keys[1..], basePath);
      Ok([RemoveOp(path)] + rest)
  }

  function ListIndexPath(index: int, basePath: string): Result<string, Error> {
    if index < 0 then Err(BadArgument) else Join(basePath, Decimal.FromNat(index))
  }

  function ListAppend(value: Json, basePath: string): Result<seq<Operation>, Error> {
    var path :- Join(basePath, "-");
    Ok([AddOp(path, value)])
  }

  function ListInsert(index: int, value: Json, basePath: string): Result<seq<Operation>, Error> {
    var path :- ListIndexPath(index, basePath);
    Ok([AddOp(path, value)])
  }

  function ListReplace(index: int, value: Json, basePath: string): Result<seq<Operation>, Error> {
    var path :- ListIndexPath(index, basePath);
    Ok([ReplaceOp(path, value)])
  }

  function ListRemove(index: int, basePath: string): Result<seq<Operation>, Error> {
    var path :- ListIndexPath(index, basePath);
    Ok([RemoveOp(path)])
  }

  function ListMove(fromIndex: int, toIndex: int, basePath: string): Result<seq<Operation>, Error> {
    var from :- ListIndexPath(fromIndex, basePath);
    var path :- ListIndexPath(toIndex, basePath);
    Ok([MoveOp(from, path)])
  }

  /** A caller's path: none, text, or a list of keys and indexes. */
  datatype PathItem = Key(key: string) | Index(index: int)
  datatype LivePath = NoPath | TextPath(text: string) | ListPath(items: seq<PathItem>)

  function ItemParts(items: seq<PathItem>): Result<seq<string>, Error> {
    if items == [] then Ok([])
    else if items[0].Index? && items[0].index < 0 then Err(BadArgument)
    else
      var rest :- ItemParts(items[1..]);
      Ok([if items[0].Key? then items[0].key else Decimal.FromNat(items[0].index)] + rest)
  }

  /** `liveStoragePathParts` */
  function PathParts(path: LivePath): Result<seq<string>, Error> {
    match path
    case NoPath => Ok([])
    case TextPath(text) => if text == "" then Ok([]) else if text[0] == '/' then Parse(text) else Ok([text])
    case ListPath(items) => ItemParts(items)
  }

  /** `liveNodeDataPath`: where the data of the node reached by `parts` is kept. */
  function NodeDataPath(parts: seq<string>): Result<string, Error> {
    if parts == [] then Ok("/data") else JoinParts("/data", parts + ["data"])
  }

  /** The parts a node's data path is meant to name. */
  function NodeDataParts(parts: seq<string>): seq<string> {
    if parts == [] then ["data"] else ["data"] + parts + ["data"]
  }

  // ---------------------------------------------------------------- what each call means

  datatype Call =
    | Append(value: Json)
    | Insert(index: int, value: Json)
    | ReplaceItem(index: int, value: Json)
    | RemoveItem(index: int)
    | MoveItem(fromIndex: int, toIndex: int)
    | SetEntries(entries: seq<(string, Json)>)
    | RemoveKeys(keys: seq<string>)
  {
    predicate OnList() {
      !SetEntries? && !RemoveKeys?
    }
  }

  function Compile(call: Call, basePath: string): Result<seq<Operation>, Error> {
    match call
    case Append(value) => ListAppend(value, basePath)
    case Insert(index, value) => ListInsert(index, value, basePath)
    case ReplaceItem(index, value) => ListReplace(index, value, basePath)
    case RemoveItem(index) => ListRemove(index, basePath)
    case MoveItem(fromIndex, toIndex) => ListMove(fromIndex, toIndex, basePath)
    case SetEntries(entries) => SetFields(entries, basePath)
    case RemoveKeys(keys) => DeleteKeys(keys, basePath)
  }

  predicate Fits(node: Json, call: Call) {
    if call.OnList() then node.Arr? else node.Obj?
  }

  function MoveWithin<T>(items: seq<T>, i: nat, j: nat): seq<T>
    requires i < |items| && j < |items|
  {
    InsertAt(DeleteAt(items, i), j, items[i])
  }

  function SetAll(fields: map<string, Json>, entries: seq<(string, Json)>): map<string, Json>
    decreases |entries|
  {
    if entries == [] then fields else SetAll(fields[entries[0].0 := entries[0].1], entries[1..])
  }

  /** The call as an operation on the sequence or the map the node holds. `None`: it has no effect but an error. */
  function Act(node: Json, call: Call): Option<Json>
    requires Fits(node, call)
  {
    match call
    case Append(value) => Some(Arr(node.items + [value]))
    case Insert(i, value) => if 0 <= i <= |node.items| then Some(Arr(InsertAt(node.items, i, value))) else None
    case ReplaceItem(i, value) => if 0 <= i < |node.items| then Some(Arr(node.items[i := value])) else None
    case RemoveItem(i) => if 0 <= i < |node.items| then Some(Arr(DeleteAt(node.items, i))) else None
    case MoveItem(i, j) =>
      if 0 <= i < |node.items| && 0 <= j < |node.items| then Some(Arr(MoveWithin(node.items, i, j))) else None
    case SetEntries(entries) => if entries == [] then None else Some(Obj(SetAll(node.fields, entries)))
    case RemoveKeys(keys) =>
      if keys != [] && "" !in keys && Distinct(keys) && forall key | key in keys :: key in node.fields
      then Some(Obj(node.fields - set key | key in keys)) else None
  }

  predicate Distinct(keys: seq<string>) {
    keys == [] || (keys[0] !in keys[1..] && Distinct(keys[1..]))
  }

  /** A call run against a document: compiled at the base path, then applied. */
  function Run(doc: Json, basePath: string, call: Call): Result<Json, Error> {
    var operations :- Compile(call, basePath);
    Apply(doc, operations)
  }

  ghost predicate Refines(doc: Json, parts: seq<string>, result: Result<Json, Error>, node: Option<Json>)
    requires GetAt(doc, parts).Ok?
  {
    match node
    case Some(n) => result == Ok(PutAt(doc, parts, n))
    case None => result.Err?
  }

  lemma JoinOne(parts: seq<string>, key: string)
    requires EndsNonEmpty(parts)
    ensures Join(PointerOf(parts), key) == Ok(PointerOf(parts + [key]))
  {
    JoinAppendsIff(parts, key);
  }

  lemma DashIsNoIndex()
    ensures !Decimal.IsCanonical("-")
  {
    assert !Decimal.IsDigit("-"[0]);
  }

  /** One `add` or `replace` on a child of the node, compiled and applied. */
  lemma SetRuns(doc: Json, parts: seq<string>, key: string, value: Json, mode: Mode)
    requires EndsNonEmpty(parts) && GetAt(doc, parts).Ok?
    ensures Join(PointerOf(parts), key) == Ok(PointerOf(parts + [key]))
    ensures Apply(doc, [if mode == AddMode then AddOp(PointerOf(parts + [key]), value)
                        else ReplaceOp(PointerOf(parts + [key]), value)])
         == Within(doc, parts, SetChild(GetAt(doc, parts).value, key, value, mode))
  {
    JoinOne(parts, key);
    SetKey(doc, parts, key, value, mode);
    ApplySingle(doc, if mode == AddMode then AddOp(PointerOf(parts + [key]), value)
                     else ReplaceOp(PointerOf(parts + [key]), value));
  }

  lemma RemoveRuns(doc: Json, parts: seq<string>, key: string)
    requires EndsNonEmpty(parts) && GetAt(doc, parts).Ok?
    ensures Join(PointerOf(parts), key) == Ok(PointerOf(parts + [key]))
    ensures Apply(doc, [RemoveOp(PointerOf(parts + [key]))])
         == Within(doc, parts, RemoveChild(GetAt(doc, parts).value, key))
  {
    JoinOne(parts, key);
    RemoveKey(doc, parts, key);
    ApplySingle(doc, RemoveOp(PointerOf(parts + [key])));
  }

  lemma ItemEffects(items: seq<Json>, i: nat, value: Json)
    ensures SetChild(Arr(items), Decimal.FromNat(i), value, AddMode)
         == if i <= |items| then Ok(Arr(InsertAt(items, i, value))) else Err(IndexOutOfBounds)
    ensures SetChild(Arr(items), Decimal.FromNat(i), value, ReplaceMode)
         == if i < |items| then Ok(Arr(items[i := value])) else Err(IndexOutOfBounds)
    ensures RemoveChild(Arr(items), Decimal.FromNat(i))
         == if i < |items| then Ok(Arr(DeleteAt(items, i))) else Err(IndexOutOfBounds)
    ensures Child(Arr(items), Decimal.FromNat(i)) == if i < |items| then Ok(items[i]) else Err(IndexOutOfBounds)
  {
    DashIsNoIndex();
  }

  lemma {:induction false} AppendRefines(doc: Json, parts: seq<string>, value: Json)
    requires EndsNonEmpty(parts) && GetAt(doc, parts).Ok? && GetAt(doc, parts).value.Arr?
    ensures Refines(doc, parts, Run(doc, PointerOf(parts), Append(value)), Act(GetAt(doc, parts).value, Append(value)))
  {
    var items := GetAt(doc, parts).value.items;
    SetRuns(doc, parts, "-", value, AddMode);
    assert InsertAt(items, |items|, value) == items + [value];
    assert SetChild(Arr(items), "-", value, AddMode) == Ok(Arr(items + [value]));
  }

  lemma {:induction false} InsertRefines(doc: Json, parts: seq<string>, i: int, value: Json)
    requires EndsNonEmpty(parts) && GetAt(doc, parts).Ok? && GetAt(doc, parts).value.Arr?
    ensures Refines(doc, parts, Run(doc, PointerOf(parts), Insert(i, value)),
                    Act(GetAt(doc, parts).value, Insert(i, value)))
  {
    if i >= 0 {
      SetRuns(doc, parts, Decimal.FromNat(i), value, AddMode);
      ItemEffects(GetAt(doc, parts).value.items, i, value);
    }
  }

  lemma {:induction false} ReplaceRefines(doc: Json, parts: seq<string>, i: int, value: Json)
    requires EndsNonEmpty(parts) && GetAt(doc, parts).Ok? && GetAt(doc, parts).value.Arr?
    ensures Refines(doc, parts, Run(doc, PointerOf(parts), ReplaceItem(i, value)),
                    Act(GetAt(doc, parts).value, ReplaceItem(i, value)))
  {
    if i >= 0 {
      SetRuns(doc, parts, Decimal.FromNat(i), value, ReplaceMode);
      ItemEffects(GetAt(doc, parts).value.items, i, value);
    }
  }

  lemma {:induction false} RemoveRefines(doc: Json, parts: seq<string>, i: int)
    requires EndsNonEmpty(parts) && GetAt(doc, parts).Ok? && GetAt(doc, parts).value.Arr?
    ensures Refines(doc, parts, Run(doc, PointerOf(parts), RemoveItem(i)), Act(GetAt(doc, parts).value, RemoveItem(i)))
  {
    if i >= 0 {
      RemoveRuns(doc, parts, Decimal.FromNat(i));
      ItemEffects(GetAt(doc, parts).value.items, i, Null);
    }
  }

  lemma {:induction false} ListCallRefines(doc: Json, parts: seq<string>, call: Call)
    requires EndsNonEmpty(parts) && GetAt(doc, parts).Ok? && GetAt(doc, parts).value.Arr?
    requires call.OnList() && !call.MoveItem?
    ensures Refines(doc, parts, Run(doc, PointerOf(parts), call), Act(GetAt(doc, parts).value, call))
  {
    match call {
      case Append(value) => AppendRefines(doc, parts, value);
      case Insert(i, value) => InsertRefines(doc, parts, i, value);
      case ReplaceItem(i, value) => ReplaceRefines(doc, parts, i, value);
      case RemoveItem(i) => RemoveRefines(doc, parts, i);
    }
  }

  /** The `move` operation between two children of a list: read, remove, then insert into what is left. */
  lemma {:induction false} MoveRuns(doc: Json, parts: seq<string>, i: nat, j: nat)
    requires GetAt(doc, parts).Ok? && GetAt(doc, parts).value.Arr?
    ensures var items := GetAt(doc, parts).value.items;
            var move := MoveOp(PointerOf(parts + [Decimal.FromNat(i)]), PointerOf(parts + [Decimal.FromNat(j)]));
            if i < |items| && j < |items|
            then ApplyOne(doc, move) == Ok(PutAt(doc, parts, Arr(MoveWithin(items, i, j))))
            else ApplyOne(doc, move).Err?
  {
    var items := GetAt(doc, parts).value.items;
    ItemEffects(items, i, Null);
    GetOfChild(doc, parts, Decimal.FromNat(i));
    if i < |items| {
      RemoveKey(doc, parts, Decimal.FromNat(i));
      PutsBack(doc, parts, i, j);
    }
  }

  /** The second half of a move: the item goes into the list it was taken from. */
  lemma {:induction false} PutsBack(doc: Json, parts: seq<string>, i: nat, j: nat)
    requires GetAt(doc, parts).Ok? && GetAt(doc, parts).value.Arr? && i < |GetAt(doc, parts).value.items|
    ensures var items := GetAt(doc, parts).value.items;
            var taken := PutAt(doc, parts, Arr(DeleteAt(items, i)));
            var put := Set(taken, PointerOf(parts + [Decimal.FromNat(j)]), items[i], AddMode);
            if j < |items| then put == Ok(PutAt(doc, parts, Arr(MoveWithin(items, i, j)))) else put.Err?
  {
    var items := GetAt(doc, parts).value.items;
    var shorter := DeleteAt(items, i);
    GetPut(doc, parts, Arr(shorter));
    ItemEffects(shorter, j, items[i]);
    SetKey(PutAt(doc, parts, Arr(shorter)), parts, Decimal.FromNat(j), items[i], AddMode);
    if j < |items| {
      PutPut(doc, parts, Arr(shorter), Arr(MoveWithin(items, i, j)));
    }
  }

  lemma GetOfChild(doc: Json, parts: seq<string>, key: string)
    requires GetAt(doc, parts).Ok?
    ensures Get(doc, PointerOf(parts + [key])) == Child(GetAt(doc, parts).value, key)
  {
    ParsePointerOf(parts + [key]);
    GetAppend(doc, parts, [key]);
    var node := GetAt(doc, parts).value;
    assert [key][1..] == [];
    assert Child(node, key).Ok? ==> GetAt(Child(node, key).value, []) == Child(node, key);
  }

  /** A list move is remove-then-insert on the node, and nothing at all unless both indexes are in range. */
  lemma {:induction false} MoveRefines(doc: Json, parts: seq<string>, i: int, j: int)
    requires EndsNonEmpty(parts) && GetAt(doc, parts).Ok? && GetAt(doc, parts).value.Arr?
    ensures Refines(doc, parts, Run(doc, PointerOf(parts), MoveItem(i, j)),
                    Act(GetAt(doc, parts).value, MoveItem(i, j)))
  {
    if i >= 0 && j >= 0 {
      var from, to := Decimal.FromNat(i), Decimal.FromNat(j);
      JoinOne(parts, from);
      JoinOne(parts, to);
      ApplySingle(doc, MoveOp(PointerOf(parts + [from]), PointerOf(parts + [to])));
      MoveRuns(doc, parts, i, j);
    }
  }

  lemma ApplyCons(doc: Json, first: Operation, rest: seq<Operation>)
    ensures Apply(doc, [first] + rest)
         == if Apply(doc, [first]).Ok? then Apply(Apply(doc, [first]).value, rest) else Apply(doc, [first])
  {
    ApplyAppend(doc, [first], rest);
  }

  lemma {:induction false} AddEntriesOk(entries: seq<(string, Json)>, basePath: string)
    requires IsBase(basePath)
    ensures AddEntries(entries, basePath).Ok?
    ensures entries != [] ==>
              AddEntries(entries, basePath).value
              == [AddOp(Join(basePath, entries[0].0).value, entries[0].1)] + AddEntries(entries[1..], basePath).value
  {
    if entries != [] {
      AddEntriesOk(entries[1..], basePath);
    }
  }

  lemma {:induction false} EntryRuns(doc: Json, parts: seq<string>, key: string, value: Json)
    requires EndsNonEmpty(parts) && GetAt(doc, parts).Ok? && GetAt(doc, parts).value.Obj?
    ensures Join(PointerOf(parts), key) == Ok(PointerOf(parts + [key]))
    ensures Apply(doc, [AddOp(PointerOf(parts + [key]), value)])
         == Ok(PutAt(doc, parts, Obj(GetAt(doc, parts).value.fields[key := value])))
  {
    SetRuns(doc, parts, key, value, AddMode);
  }

  lemma {:induction false} EntriesRefine(doc: Json, parts: seq<string>, entries: seq<(string, Json)>)
    requires EndsNonEmpty(parts) && GetAt(doc, parts).Ok? && GetAt(doc, parts).value.Obj?
    ensures IsBase(PointerOf(parts)) && AddEntries(entries, PointerOf(parts)).Ok?
    ensures Apply(doc, AddEntries(entries, PointerOf(parts)).value)
         == Ok(PutAt(doc, parts, Obj(SetAll(GetAt(doc, parts).value.fields, entries))))
    decreases |entries|
  {
    PointerIsBase(parts);
    AddEntriesOk(entries, PointerOf(parts));
    var fields := GetAt(doc, parts).value.fields;
    if entries == [] {
      PutGet(doc, parts);
    } else {
      var key, value := entries[0].0, entries[0].1;
      var changed := Obj(fields[key := value]);
      EntryRuns(doc, parts, key, value);
      GetPut(doc, parts, changed);
      EntriesRefine(PutAt(doc, parts, changed), parts, entries[1..]);
      PutThenPut(doc, parts, [AddOp(PointerOf(parts + [key]), value)], changed,
                 AddEntries(entries[1..], PointerOf(parts)).value, Obj(SetAll(fields, entries)));
    }
  }

  lemma {:induction false} RemoveEachOk(keys: seq<string>, basePath: string)
    requires IsBase(basePath)
    ensures RemoveEach(keys, basePath).Ok? <==> "" !in keys
  {
    if keys != [] {
      assert keys == [keys[0]] + keys[1..];
      RemoveEachOk(keys[1..], basePath);
    }
  }

  lemma LeftAfter(fields: map<string, Json>, keys: seq<string>)
    requires keys != []
    ensures fields - (set key | key in keys) == (fields - {keys[0]}) - (set key | key in keys[1..])
    ensures (Distinct(keys) && forall key | key in keys :: key in fields)
       <==> keys[0] in fields && Distinct(keys[1..]) && forall key | key in keys[1..] :: key in fields - {keys[0]}
  {
    assert keys == [keys[0]] + keys[1..];
  }

  ghost predicate AllThere(fields: map<string, Json>, keys: seq<string>) {
    Distinct(keys) && forall key | key in keys :: key in fields
  }

  /** What the removal of keys from the record at `parts` must come to. */
  ghost predicate Removed(doc: Json, parts: seq<string>, keys: seq<string>, result: Result<Json, Error>)
    requires GetAt(doc, parts).Ok? && GetAt(doc, parts).value.Obj?
  {
    var fields := GetAt(doc, parts).value.fields;
    if AllThere(fields, keys) then result == Ok(PutAt(doc, parts, Obj(fields - set key | key in keys)))
    else result.Err?
  }

  lemma {:induction false} RemovalsRefine(doc: Json, parts: seq<string>, keys: seq<string>)
    requires EndsNonEmpty(parts) && GetAt(doc, parts).Ok? && GetAt(doc, parts).value.Obj?
    requires "" !in keys
    ensures RemoveEach(keys, PointerOf(parts)).Ok?
    ensures Removed(doc, parts, keys, Apply(doc, RemoveEach(keys, PointerOf(parts)).value))
    decreases |keys|
  {
    PointerIsBase(parts);
    RemoveEachOk(keys, PointerOf(parts));
    var fields := GetAt(doc, parts).value.fields;
    if keys == [] {
      PutGet(doc, parts);
      assert fields - (set key | key in keys) == fields;
    } else {
      var key, rest := keys[0], keys[1..];
      RemoveRuns(doc, parts, key);
      RemoveEachOk(rest, PointerOf(parts));
      var later := RemoveEach(rest, PointerOf(parts)).value;
      ApplyCons(doc, RemoveOp(PointerOf(parts + [key])), later);
      if key in fields {
        var next := PutAt(doc, parts, Obj(fields - {key}));
        GetPut(doc, parts, Obj(fields - {key}));
        RemovalsRefine(next, parts, rest);
        RemovedFirst(doc, parts, keys, Apply(next, later));
      } else {
        LeftAfter(fields, keys);
      }
    }
  }

  lemma {:induction false} RemovedFirst(doc: Json, parts: seq<string>, keys: seq<string>, result: Result<Json, Error>)
    requires GetAt(doc, parts).Ok? && GetAt(doc, parts).value.Obj? && keys != []
    requires var fields := GetAt(doc, parts).value.fields;
             var next := PutAt(doc, parts, Obj(fields - {keys[0]}));
             && keys[0] in fields && GetAt(next, parts) == Ok(Obj(fields - {keys[0]}))
             && Removed(next, parts, keys[1..], result)
    ensures Removed(doc, parts, keys, result)
  {
    var fields := GetAt(doc, parts).value.fields;
    LeftAfter(fields, keys);
    PutPut(doc, parts, Obj(fields - {keys[0]}), Obj(fields - set key | key in keys));
  }

  /** Every call, compiled at a node's path and applied, is its own operation on that node, or fails when that fails. */
  lemma CallRefines(doc: Json, parts: seq<string>, call: Call)
    requires EndsNonEmpty(parts) && GetAt(doc, parts).Ok? && Fits(GetAt(doc, parts).value, call)
    ensures Refines(doc, parts, Run(doc, PointerOf(parts), call), Act(GetAt(doc, parts).value, call))
  {
    PointerIsBase(parts);
    match call {
      case SetEntries(entries) => EntriesRefine(doc, parts, entries);
      case RemoveKeys(keys) =>
        RemoveEachOk(keys, PointerOf(parts));
        if "" !in keys {
          RemovalsRefine(doc, parts, keys);
        }
      case MoveItem(i, j) => MoveRefines(doc, parts, i, j);
      case _ => ListCallRefines(doc, parts, call);
    }
  }

  /** A call that succeeds leaves every location outside its node as it was. */
  lemma CallTouchesOnlyItsNode(doc: Json, parts: seq<string>, call: Call, elsewhere: seq<string>)
    requires EndsNonEmpty(parts) && GetAt(doc, parts).Ok? && Fits(GetAt(doc, parts).value, call)
    requires Run(doc, PointerOf(parts), call).Ok? && Diverge(parts, elsewhere)
    ensures GetAt(Run(doc, PointerOf(parts), call).value, elsewhere) == GetAt(doc, elsewhere)
  {
    CallRefines(doc, parts, call);
    PutFrame(doc, parts, Act(GetAt(doc, parts).value, call).value, elsewhere);
  }

  // ---------------------------------------------------------------- moves

  lemma MoveKeepsItems<T>(items: seq<T>, i: nat, j: nat)
    requires i < |items| && j < |items|
    ensures multiset(MoveWithin(items, i, j)) == multiset(items)
  {
    InsertAddsItem(DeleteAt(items, i), j, items[i]);
    InsertAddsItem(DeleteAt(items, i), i, items[i]);
    assert InsertAt(DeleteAt(items, i), i, items[i]) == items;
  }

  lemma InsertAddsItem<T>(items: seq<T>, i: nat, item: T)
    requires i <= |items|
    ensures multiset(InsertAt(items, i, item)) == multiset(items) + multiset{item}
  {
    assert items == items[..i] + items[i..];
  }

  lemma MoveBack<T>(items: seq<T>, i: nat, j: nat)
    requires i < |items| && j < |items|
    ensures MoveWithin(MoveWithin(items, i, j), j, i) == items
  {
    var rest := DeleteAt(items, i);
    var moved := MoveWithin(items, i, j);
    assert moved[j] == items[i];
    assert DeleteAt(moved, j) == rest;
    assert InsertAt(rest, i, items[i]) == items;
  }

  /** Moving an item and moving it back gives the document back. */
  lemma {:induction false} MoveAndBack(doc: Json, parts: seq<string>, i: nat, j: nat)
    requires EndsNonEmpty(parts) && GetAt(doc, parts).Ok? && GetAt(doc, parts).value.Arr?
    requires i < |GetAt(doc, parts).value.items| && j < |GetAt(doc, parts).value.items|
    ensures Run(doc, PointerOf(parts), MoveItem(i, j)).Ok?
    ensures Run(Run(doc, PointerOf(parts), MoveItem(i, j)).value, PointerOf(parts), MoveItem(j, i)) == Ok(doc)
  {
    var items := GetAt(doc, parts).value.items;
    MoveRefines(doc, parts, i, j);
    var moved := Arr(MoveWithin(items, i, j));
    GetPut(doc, parts, moved);
    MoveRefines(PutAt(doc, parts, moved), parts, j, i);
    MoveBack(items, i, j);
    PutPut(doc, parts, moved, Arr(items));
    PutGet(doc, parts);
  }

  // ---------------------------------------------------------------- node paths

  lemma {:induction false} JoinPartsFrom(first: string, parts: seq<string>)
    ensures JoinParts(PointerOf([first]), parts) == JoinParts("", [first] + parts)
    decreases |parts|
  {
    if parts == [] {
      JoinPartsOfOne(first);
      assert [first] + parts == [first];
    } else {
      JoinPartsFrom(first, Init(parts));
      assert Init([first] + parts) == [first] + Init(parts);
      assert Last([first] + parts) == Last(parts);
    }
  }

  lemma {:induction false} JoinPartsOfOne(part: string)
    ensures JoinParts("", [part]) == Ok(PointerOf([part]))
  {
    JoinExtends([], part);
    assert Init([part]) == [] && [] + [part] == [part];
    assert DropTrailingEmpty([]) == [];
    assert PointerOf([]) == "" && JoinParts("", []) == Ok("");
  }

  lemma DataPointer()
    ensures PointerOf(["data"]) == "/data"
  {
    EscapeStep("data");
    EscapeStep("ata");
    EscapeStep("ta");
    EscapeStep("a");
    assert Escape("data") == "data";
    assert PointerOf(["data"]) == "/" + Escape("data") + PointerOf([]);
  }

  lemma InnerOfDataParts(parts: seq<string>)
    ensures NoEmptyInner(["data"] + parts + ["data"]) <==> "" !in parts
  {
    var whole := ["data"] + parts + ["data"];
    assert forall i :: 0 <= i < |parts| ==> parts[i] == whole[i + 1];
    assert forall i :: 1 <= i < |whole| - 1 ==> whole[i] == parts[i - 1];
  }

  /** A node's path reaches its data exactly when no part of it is empty. */
  lemma NodeDataPathIff(parts: seq<string>)
    ensures NodeDataPath(parts) == Ok(PointerOf(NodeDataParts(parts))) <==> "" !in parts
    ensures EndsNonEmpty(NodeDataParts(parts))
  {
    DataPointer();
    if parts != [] {
      var whole := ["data"] + parts + ["data"];
      JoinPartsFrom("data", parts + ["data"]);
      assert ["data"] + (parts + ["data"]) == whole;
      JoinPartsCollapses(whole);
      CollapseKeepsIff(whole);
      InnerOfDataParts(parts);
      if PointerOf(Collapse(whole)) == PointerOf(whole) {
        PointerOfInjective(Collapse(whole), whole);
      }
    }
  }

  function Keys(parts: seq<string>): seq<PathItem> {
    if parts == [] then [] else [Key(parts[0])] + Keys(parts[1..])
  }

  lemma {:induction false} ItemPartsOfKeys(parts: seq<string>)
    ensures ItemParts(Keys(parts)) == Ok(parts)
  {
    if parts != [] {
      ItemPartsOfKeys(parts[1..]);
      assert Keys(parts)[1..] == Keys(parts[1..]) && parts == [parts[0]] + parts[1..];
    }
  }

  /** A pointer and the list of its keys are the same path, whatever characters the keys hold. */
  lemma PathFormsAgree(parts: seq<string>)
    ensures PathParts(TextPath(PointerOf(parts))) == PathParts(ListPath(Keys(parts))) == Ok(parts)
  {
    ItemPartsOfKeys(parts);
    ParsePointerOf(parts);
  }

  // ---------------------------------------------------------------- a queue of calls

  /** The builder: calls through node handles append their patches to one queue; a call that throws appends nothing. */
  class MutationBuilder {
    var queuedOperations: seq<Operation>

    constructor ()
      ensures queuedOperations == []
    {
      queuedOperations := [];
    }

    method Push(parts: seq<string>, call: Call) returns (error: Option<Error>)
      modifies this
      ensures queuedOperations == Pushed(old(queuedOperations), Step(parts, call))
      ensures error == match Compile(call, PointerOf(parts))
                       case Ok(_) => None
                       case Err(e) => Some(e)
    {
      var operations := Compile(call, PointerOf(parts));
      if operations.Err? {
        return Some(operations.error);
      }
      queuedOperations := queuedOperations + operations.value;
      return None;
    }
  }

  datatype Step = Step(parts: seq<string>, call: Call)

  predicate Compiles(step: Step) {
    Compile(step.call, PointerOf(step.parts)).Ok?
  }

  /** The queue after one call through the handle of the node at `step.parts`. */
  function Pushed(queue: seq<Operation>, step: Step): seq<Operation> {
    if Compiles(step) then queue + Compile(step.call, PointerOf(step.parts)).value else queue
  }

  /** `toJSONPatch` of a builder after `steps`, whoever caught the errors of those that threw. */
  function PushedAll(queue: seq<Operation>, steps: seq<Step>): seq<Operation>
    decreases |steps|
  {
    if steps == [] then queue else PushedAll(Pushed(queue, steps[0]), steps[1..])
  }

  /** `toJSONPatch` of a builder whose user stops at the first call that throws. */
  function Queue(steps: seq<Step>): Result<seq<Operation>, Error>
    decreases |steps|
  {
    if steps == [] then Ok([])
    else
      var first :- Compile(steps[0].call, PointerOf(steps[0].parts));
      var rest :- Queue(steps[1..]);
      Ok(first + rest)
  }

  function Compiling(steps: seq<Step>): seq<Step> {
    if steps == [] then []
    else if Compiles(steps[0]) then [steps[0]] + Compiling(steps[1..])
    else Compiling(steps[1..])
  }

  lemma {:induction false} QueueCons(step: Step, rest: seq<Step>)
    ensures Queue([step] + rest)
         == if Compiles(step) && Queue(rest).Ok?
            then Ok(Compile(step.call, PointerOf(step.parts)).value + Queue(rest).value)
            else Err(if Compiles(step) then Queue(rest).error else Compile(step.call, PointerOf(step.parts)).error)
  {
    assert ([step] + rest)[0] == step && ([step] + rest)[1..] == rest;
  }

  /** Pushing calls one after another builds the queue of those that do not throw, in order, and nothing else. */
  lemma {:induction false} PushesBuildQueue(queue: seq<Operation>, steps: seq<Step>)
    ensures Queue(Compiling(steps)).Ok? && PushedAll(queue, steps) == queue + Queue(Compiling(steps)).value
    decreases |steps|
  {
    if steps != [] {
      var step, rest := steps[0], steps[1..];
      PushesBuildQueue(Pushed(queue, step), rest);
      if Compiles(step) {
        PushedFirst(queue, step, Compiling(rest));
      }
    }
  }

  lemma {:induction false} PushedFirst(queue: seq<Operation>, step: Step, rest: seq<Step>)
    requires Compiles(step) && Queue(rest).Ok?
    ensures Queue([step] + rest).Ok?
    ensures Pushed(queue, step) + Queue(rest).value == queue + Queue([step] + rest).value
  {
    QueueCons(step, rest);
    var first, others := Compile(step.call, PointerOf(step.parts)).value, Queue(rest).value;
    assert queue + first + others == queue + (first + others);
  }

  /** A queue is refused exactly when one of its calls throws. */
  lemma {:induction false} QueueRefusedIff(steps: seq<Step>)
    ensures Queue(steps).Ok? <==> Compiling(steps) == steps
    decreases |steps|
  {
    if steps != [] {
      var step, rest := steps[0], steps[1..];
      assert steps == [step] + rest;
      QueueRefusedIff(rest);
      QueueCons(step, rest);
      CompilingNoLonger(rest);
      assert ([step] + Compiling(rest))[1..] == Compiling(rest);
    }
  }

  lemma {:induction false} CompilingNoLonger(steps: seq<Step>)
    ensures |Compiling(steps)| <= |steps|
  {
    if steps != [] {
      CompilingNoLonger(steps[1..]);
    }
  }

  /** Each call finds its node, of its kind, as far as the calls before it have an effect. */
  ghost predicate AllTyped(doc: Json, steps: seq<Step>)
    decreases |steps|
  {
    steps == [] ||
    var parts, call := steps[0].parts, steps[0].call;
    && EndsNonEmpty(parts) && GetAt(doc, parts).Ok? && Fits(GetAt(doc, parts).value, call)
    && var changed := Act(GetAt(doc, parts).value, call);
       (changed.Some? ==> AllTyped(PutAt(doc, parts, changed.value), steps[1..]))
  }

  /** Each call has an effect, one after another. */
  ghost predicate AllFit(doc: Json, steps: seq<Step>)
    requires AllTyped(doc, steps)
    decreases |steps|
  {
    steps == [] ||
    var changed := Act(GetAt(doc, steps[0].parts).value, steps[0].call);
    changed.Some? && AllFit(PutAt(doc, steps[0].parts, changed.value), steps[1..])
  }

  function ActAll(doc: Json, steps: seq<Step>): Json
    requires AllTyped(doc, steps) && AllFit(doc, steps)
    decreases |steps|
  {
    if steps == [] then doc
    else
      var node := GetAt(doc, steps[0].parts).value;
      ActAll(PutAt(doc, steps[0].parts, Act(node, steps[0].call).value), steps[1..])
  }

  /**
    One mutation built from many calls on many nodes does what the calls mean, one after another; and when one of them
    has no effect, that call throws or the whole mutation fails.
   */
  lemma {:induction false} QueueRefines(doc: Json, steps: seq<Step>)
    requires AllTyped(doc, steps)
    ensures AllFit(doc, steps) ==> Queue(steps).Ok? && Apply(doc, Queue(steps).value) == Ok(ActAll(doc, steps))
    ensures !AllFit(doc, steps) ==> Queue(steps).Err? || Apply(doc, Queue(steps).value).Err?
    decreases |steps|
  {
    if steps != [] {
      var parts, call := steps[0].parts, steps[0].call;
      CallRefines(doc, parts, call);
      var changed := Act(GetAt(doc, parts).value, call);
      if changed.Some? {
        QueueRefines(PutAt(doc, parts, changed.value), steps[1..]);
      }
      if Queue(steps).Ok? {
        ApplyAppend(doc, Compile(call, PointerOf(parts)).value, Queue(steps[1..]).value);
      }
    }
  }
}
