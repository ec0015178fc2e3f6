/** JSON Patch (RFC 6902) as the client applies it optimistically. */
module JsonPatch {
  import opened Wrappers
  import opened JsonPointer
  import opened Json

  datatype OpKind = Add | Remove | Replace | Move | Copy | Test

  datatype Operation = Operation(op: OpKind, path: string, from: Option<string>, value: Option<Json>)

  datatype Mode = AddMode | ReplaceMode

  function AddOp(path: string, value: Json): Operation {
    Operation(Add, path, None, Some(value))
  }

  function ReplaceOp(path: string, value: Json): Operation {
    Operation(Replace, path, None, Some(value))
  }

  function RemoveOp(path: string): Operation {
    Operation(Remove, path, None, None)
  }

  function MoveOp(from: string, path: string): Operation {
    Operation(Move, path, Some(from), None)
  }

  // ---------------------------------------------------------------- one container

  function InsertAt<T>(s: seq<T>, i: nat, x: T): seq<T>
    requires i <= |s|
  {
    s[..i] + [x] + s[i..]
  }

  function DeleteAt<T>(s: seq<T>, i: nat): seq<T>
    requires i < |s|
  {
    s[..i] + s[i + 1..]
  }

  /** What `setPatchValue` does to the container that holds its target. */
  function SetChild(container: Json, key: string, value: Json, mode: Mode): Result<Json, Error> {
    match container
    case Arr(items) =>
      var index :- if key == "-" && mode == AddMode then Ok(|items|) else ParseIndex(key, |items|, mode == AddMode);
      Ok(Arr(if mode == AddMode then InsertAt(items, index, value) else items[index := value]))
    case Obj(fields) =>
      if mode == ReplaceMode && key !in fields then Err(MissingPath) else Ok(Obj(fields[key := value]))
    case _ => Err(NotAContainer)
  }

  /** What `removePatchValue` does to the container that holds its target. */
  function RemoveChild(container: Json, key: string): Result<Json, Error> {
    match container
    case Arr(items) =>
      var index :- ParseIndex(key, |items|, false);
      Ok(Arr(DeleteAt(items, index)))
    case Obj(fields) => if key in fields then Ok(Obj(fields - {key})) else Err(MissingPath)
    case _ => Err(NotAContainer)
  }

  // ---------------------------------------------------------------- the document

  function SetAt(doc: Json, parts: seq<string>, value: Json, mode: Mode): Result<Json, Error> {
    if parts == [] then Ok(value)
    else
      var container :- GetAt(doc, Init(parts));
      var changed :- SetChild(container, Last(parts), value, mode);
      Ok(PutAt(doc, Init(parts), changed))
  }

  function RemoveAt(doc: Json, parts: seq<string>): Result<Json, Error> {
    if parts == [] then Err(RootRemoval)
    else
      var container :- GetAt(doc, Init(parts));
      var changed :- RemoveChild(container, Last(parts));
      Ok(PutAt(doc, Init(parts), changed))
  }

  function Get(doc: Json, path: string): Result<Json, Error> {
    var parts :- Parse(path);
    GetAt(doc, parts)
  }

  function Set(doc: Json, path: string, value: Json, mode: Mode): Result<Json, Error> {
    var parts :- Parse(path);
    SetAt(doc, parts, value, mode)
  }

  function Delete(doc: Json, path: string): Result<Json, Error> {
    var parts :- Parse(path);
    RemoveAt(doc, parts)
  }

  /** RFC 6902, section 4: the effect of one operation. */
  function ApplyOne(doc: Json, operation: Operation): Result<Json, Error> {
    match operation.op
    case Add =>
      if operation.value.None? then Err(MissingValue) else Set(doc, operation.path, operation.value.value, AddMode)
    case Replace =>
      if operation.value.None? then Err(MissingValue) else Set(doc, operation.path, operation.value.value, ReplaceMode)
    case Remove => Delete(doc, operation.path)
    case Test =>
      if operation.value.None? then Err(MissingValue)
      else
        var found :- Get(doc, operation.path);
        if found == operation.value.value then Ok(doc) else Err(TestFailed)
    case Copy =>
      if operation.from.None? then Err(MissingFrom)
      else
        var value :- Get(doc, operation.from.value);
        Set(doc, operation.path, value, AddMode)
    case Move =>
      if operation.from.None? then Err(MissingFrom)
      else
        var value :- Get(doc, operation.from.value);
        var removed :- Delete(doc, operation.from.value);
        Set(removed, operation.path, value, AddMode)
  }

  /** RFC 6902, section 5: operations apply in order and the first error ends the patch. */
  function Apply(doc: Json, operations: seq<Operation>): Result<Json, Error>
    decreases |operations|
  {
    if operations == [] then Ok(doc)
    else
      var next :- ApplyOne(doc, operations[0]);
      Apply(next, operations[1..])
  }

  // ---------------------------------------------------------------- the source's loops

  /** `getPatchValue`: walks down from the root, one part a turn. */
  method GetPatchValue(document: Json, path: string) returns (r: Result<Json, Error>)
    ensures r == Get(document, path)
  {
    var parsed := Parse(path);
    if parsed.Err? {
      return Err(parsed.error);
    }
    var parts := parsed.value;
    var current := document;
    for i := 0 to |parts|
      invariant GetAt(document, parts) == GetAt(current, parts[i..])
    {
      var child := Child(current, parts[i]);
      if child.Err? {
        return Err(child.error);
      }
      assert parts[i..][1..] == parts[i + 1..];
      current := child.value;
    }
    return Ok(current);
  }

  /** `getPatchParent`: each part is escaped into a pointer of its own and looked up. */
  method GetPatchParent(document: Json, parts: seq<string>) returns (r: Result<Json, Error>)
    requires parts != []
    ensures r == match GetAt(document, Init(parts))
                 case Ok(node) => if node.IsContainer() then Ok(node) else Err(NotAContainer)
                 case Err(e) => Err(e)
  {
    var current := document;
    var above := Init(parts);
    for i := 0 to |above|
      invariant GetAt(document, above) == GetAt(current, above[i..])
    {
      assert PointerOf([above[i]]) == "/" + Escape(above[i]) + PointerOf([]) == "/" + Escape(above[i]);
      ParsePointerOf([above[i]]);
      var step := GetPatchValue(current, "/" + Escape(above[i]));
      assert step == GetAt(current, [above[i]]) == Child(current, above[i]) by {
        if Child(current, above[i]).Ok? {
          assert GetAt(Child(current, above[i]).value, []) == Child(current, above[i]);
          assert [above[i]][1..] == [];
        }
      }
      if step.Err? {
        return Err(step.error);
      }
      assert above[i..][1..] == above[i + 1..];
      current := step.value;
    }
    assert GetAt(current, []) == Ok(current);
    if !current.IsContainer() {
      return Err(NotAContainer);
    }
    return Ok(current);
  }

  /** `applyJSONPatchOptimistic`: a fold over the operations that stops at the first error. */
  method ApplyJsonPatchOptimistic(document: Json, operations: seq<Operation>) returns (r: Result<Json, Error>)
    ensures r == Apply(document, operations)
  {
    var next := document;
    for i := 0 to |operations|
      invariant Apply(document, operations) == Apply(next, operations[i..])
    {
      var step := ApplyOne(next, operations[i]);
      assert operations[i..][1..] == operations[i + 1..];
      if step.Err? {
        return Err(step.error);
      }
      next := step.value;
    }
    return Ok(next);
  }

  // ---------------------------------------------------------------- laws of patches

  lemma {:induction false} ApplyAppend(doc: Json, first: seq<Operation>, second: seq<Operation>)
    ensures Apply(doc, first + second) ==
            if Apply(doc, first).Ok? then Apply(Apply(doc, first).value, second) else Apply(doc, first)
    decreases |first|
  {
    if first == [] {
      assert first + second == second;
    } else {
      assert (first + second)[1..] == first[1..] + second;
      if ApplyOne(doc, first[0]).Ok? {
        ApplyAppend(ApplyOne(doc, first[0]).value, first[1..], second);
      }
    }
  }

  /** Two patches that each rewrite the node at `parts` rewrite it one after the other. */
  lemma {:induction false} PutThenPut(
    doc: Json, parts: seq<string>, first: seq<Operation>, middle: Json, second: seq<Operation>, final: Json)
    requires GetAt(doc, parts).Ok? && Apply(doc, first) == Ok(PutAt(doc, parts, middle))
    requires GetAt(PutAt(doc, parts, middle), parts).Ok?
    requires Apply(PutAt(doc, parts, middle), second) == Ok(PutAt(PutAt(doc, parts, middle), parts, final))
    ensures Apply(doc, first + second) == Ok(PutAt(doc, parts, final))
  {
    ApplyAppend(doc, first, second);
    PutPut(doc, parts, middle, final);
  }

  lemma ApplySingle(doc: Json, operation: Operation)
    ensures Apply(doc, [operation]) == ApplyOne(doc, operation)
  {
    if ApplyOne(doc, operation).Ok? {
      assert Apply(ApplyOne(doc, operation).value, []) == ApplyOne(doc, operation);
    }
  }

  /** `result` of work on a node, seen from the document the node sits in. */
  function Within(doc: Json, base: seq<string>, result: Result<Json, Error>): Result<Json, Error>
    requires GetAt(doc, base).Ok?
  {
    match result
    case Ok(node) => Ok(PutAt(doc, base, node))
    case Err(e) => Err(e)
  }

  /** Setting below a node is setting in that node alone, errors included. */
  lemma SetBelow(doc: Json, base: seq<string>, parts: seq<string>, value: Json, mode: Mode)
    requires GetAt(doc, base).Ok? && parts != []
    ensures SetAt(doc, base + parts, value, mode) ==
            Within(doc, base, SetAt(GetAt(doc, base).value, parts, value, mode))
  {
    var whole := base + parts;
    assert Init(whole) == base + Init(parts) && Last(whole) == Last(parts);
    GetAppend(doc, base, Init(parts));
    var node := GetAt(doc, base).value;
    if GetAt(node, Init(parts)).Ok? {
      var changed := SetChild(GetAt(node, Init(parts)).value, Last(parts), value, mode);
      if changed.Ok? {
        PutAppend(doc, base, Init(parts), changed.value);
      }
    }
  }

  lemma {:induction false} RemoveBelow(doc: Json, base: seq<string>, parts: seq<string>)
    requires GetAt(doc, base).Ok? && parts != []
    ensures RemoveAt(doc, base + parts) == Within(doc, base, RemoveAt(GetAt(doc, base).value, parts))
  {
    var whole := base + parts;
    assert Init(whole) == base + Init(parts) && Last(whole) == Last(parts);
    GetAppend(doc, base, Init(parts));
    var node := GetAt(doc, base).value;
    if GetAt(node, Init(parts)).Ok? {
      var changed := RemoveChild(GetAt(node, Init(parts)).value, Last(parts));
      if changed.Ok? {
        PutAppend(doc, base, Init(parts), changed.value);
      }
    }
  }

  /** Operations on a direct child of the node at `base`, as the builders and the diff emit them. */
  lemma {:induction false} SetKey(doc: Json, base: seq<string>, key: string, value: Json, mode: Mode)
    requires GetAt(doc, base).Ok?
    ensures Set(doc, PointerOf(base + [key]), value, mode) ==
            Within(doc, base, SetChild(GetAt(doc, base).value, key, value, mode))
  {
    ParsePointerOf(base + [key]);
    SetBelow(doc, base, [key], value, mode);
    SetAlone(GetAt(doc, base).value, key, value, mode);
  }

  lemma {:induction false} SetAlone(node: Json, key: string, value: Json, mode: Mode)
    ensures SetAt(node, [key], value, mode) == SetChild(node, key, value, mode)
  {
    assert Init([key]) == [] && Last([key]) == key;
  }

  lemma {:induction false} RemoveKey(doc: Json, base: seq<string>, key: string)
    requires GetAt(doc, base).Ok?
    ensures Delete(doc, PointerOf(base + [key])) == Within(doc, base, RemoveChild(GetAt(doc, base).value, key))
  {
    ParsePointerOf(base + [key]);
    RemoveBelow(doc, base, [key]);
    RemoveAlone(GetAt(doc, base).value, key);
  }

  lemma {:induction false} RemoveAlone(node: Json, key: string)
    ensures RemoveAt(node, [key]) == RemoveChild(node, key)
  {
    assert Init([key]) == [] && Last([key]) == key;
  }
}
