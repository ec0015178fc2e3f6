/** `diffJSONPatch`: the patch that turns one tree into another. */
module JsonDiff {
  import opened Wrappers
  import opened JsonPointer
  import opened Json
  import opened JsonPatch
  import SortedKeys

  /** The equality test the diff runs first. The source compares serialised text, which depends on key order. */
  type Equality = (Json, Json) -> bool

  ghost predicate Sound(same: Equality) {
    forall x, y :: same(x, y) ==> x == y
  }

  function TreeEqual(x: Json, y: Json): bool {
    x == y
  }

  function JoinPath(path: string, key: string): string
    requires IsBase(path)
  {
    Join(path, key).value
  }

  lemma JoinPathIsBase(path: string, key: string)
    requires IsBase(path)
    ensures IsBase(JoinPath(path, key))
  {
    var joined := JoinPath(path, key);
    var base := NormalizedBase(path);
    StripKeepsHead(joined);
    assert joined[0] == '/';
  }

  lemma {:induction false} StripKeepsHead(path: string)
    ensures StripSlashes(path) <= path
  {
    if path != "" && Last(path) == '/' {
      StripKeepsHead(Init(path));
    }
  }

  function Removals(path: string, keys: seq<string>, kept: map<string, Json>): seq<Operation>
    requires IsBase(path)
    decreases |keys|
  {
    if keys == [] then []
    else (if keys[0] in kept then [] else [RemoveOp(JoinPath(path, keys[0]))]) + Removals(path, keys[1..], kept)
  }

  function Changes(same: Equality, path: string, keys: seq<string>, before: Json, after: Json): seq<Operation>
    requires IsBase(path) && before.Obj? && after.Obj?
    requires forall key :: key in keys ==> key in after.fields
    decreases before, 1, |keys|
  {
    if keys == [] then []
    else
      JoinPathIsBase(path, keys[0]);
      KeyChanges(same, before, after, keys[0], JoinPath(path, keys[0])) + Changes(same, path, keys[1..], before, after)
  }

  /** The operations of one key of the second loop. */
  function KeyChanges(same: Equality, before: Json, after: Json, key: string, path: string): seq<Operation>
    requires before.Obj? && after.Obj? && key in after.fields && IsBase(path)
    decreases before, 0
  {
    if key in before.fields then Diff(same, before.fields[key], after.fields[key], path)
    else [AddOp(path, after.fields[key])]
  }

  function Diff(same: Equality, before: Json, after: Json, path: string): seq<Operation>
    requires IsBase(path)
    decreases before, 2
  {
    if same(before, after) then []
    else if before.Obj? && after.Obj? then
      Removals(path, SortedKeys.Sorted(before.fields.Keys), after.fields)
      + Changes(same, path, SortedKeys.Sorted(after.fields.Keys), before, after)
    else [ReplaceOp(path, after)]
  }

  lemma {:induction false} RemovalsSnoc(path: string, keys: seq<string>, key: string, kept: map<string, Json>)
    requires IsBase(path)
    ensures Removals(path, keys + [key], kept)
         == Removals(path, keys, kept) + (if key in kept then [] else [RemoveOp(JoinPath(path, key))])
    decreases |keys|
  {
    if keys != [] {
      assert (keys + [key])[1..] == keys[1..] + [key];
      RemovalsSnoc(path, keys[1..], key, kept);
    }
  }

  lemma {:induction false} ChangesSnoc(
    same: Equality, path: string, keys: seq<string>, key: string, before: Json, after: Json)
    requires IsBase(path) && before.Obj? && after.Obj? && key in after.fields
    requires forall k :: k in keys ==> k in after.fields
    ensures IsBase(JoinPath(path, key))
    ensures Changes(same, path, keys + [key], before, after)
         == Changes(same, path, keys, before, after)
          + KeyChanges(same, before, after, key, JoinPath(path, key))
    decreases |keys|
  {
    JoinPathIsBase(path, key);
    if keys != [] {
      assert (keys + [key])[1..] == keys[1..] + [key] && (keys + [key])[0] == keys[0];
      ChangesSnoc(same, path, keys[1..], key, before, after);
    } else {
      assert keys + [key] == [key] && [key][1..] == [];
    }
  }

  /** One turn of the second loop. */
  lemma ChangesNext(
    same: Equality, path: string, keys: seq<string>, i: nat, before: Json, after: Json, sofar: seq<Operation>)
    requires IsBase(path) && before.Obj? && after.Obj? && i < |keys|
    requires forall key :: key in keys ==> key in after.fields
    ensures IsBase(JoinPath(path, keys[i]))
    ensures sofar + Changes(same, path, keys[..i + 1], before, after)
         == sofar + Changes(same, path, keys[..i], before, after)
          + KeyChanges(same, before, after, keys[i], JoinPath(path, keys[i]))
  {
    TakeSnoc(keys, i);
    ChangesSnoc(same, path, keys[..i], keys[i], before, after);
  }

  /** `diffJSONPatch` itself: two loops over sorted keys that fill one operation list. */
  method DiffJsonPatch(same: Equality, before: Json, after: Json, path: string) returns (operations: seq<Operation>)
    requires IsBase(path)
    ensures operations == Diff(same, before, after, path)
    decreases before
  {
    if same(before, after) {
      return [];
    }
    if !(before.Obj? && after.Obj?) {
      return [ReplaceOp(path, after)];
    }
    operations := [];
    var beforeKeys := SortedKeys.Sorted(before.fields.Keys);
    var afterKeys := SortedKeys.Sorted(after.fields.Keys);
    for i := 0 to |beforeKeys|
      invariant operations == Removals(path, beforeKeys[..i], after.fields)
    {
      var key := beforeKeys[i];
      TakeSnoc(beforeKeys, i);
      RemovalsSnoc(path, beforeKeys[..i], key, after.fields);
      if key !in after.fields {
        operations := operations + [RemoveOp(JoinPath(path, key))];
      }
    }
    ghost var removed := operations;
    for i := 0 to |afterKeys|
      invariant operations == removed + Changes(same, path, afterKeys[..i], before, after)
    {
      var key := afterKeys[i];
      ChangesNext(same, path, afterKeys, i, before, after, removed);
      if key !in before.fields {
        operations := operations + [AddOp(JoinPath(path, key), after.fields[key])];
      } else {
        var nested := DiffJsonPatch(same, before.fields[key], after.fields[key], JoinPath(path, key));
        operations := operations + nested;
      }
    }
    assert beforeKeys[..|beforeKeys|] == beforeKeys && afterKeys[..|afterKeys|] == afterKeys;
  }
}
