/** What the diff is for: applied to the first tree it yields the second, whenever every change has an address. */
module JsonDiffProofs {
  import opened Wrappers
  import opened JsonPointer
  import opened Json
  import opened JsonPatch
  import opened JsonDiff
  import SortedKeys

  /** No change lies below an empty-string key. Joining drops trailing slashes, so such a change has no pointer. */
  predicate Addressable(same: Equality, before: Json, after: Json) {
    same(before, after)
    || !before.Obj?
    || !after.Obj?
    || forall key | key in before.fields && key in after.fields ::
         if key == ""
         then same(before.fields[key], after.fields[key]) || !before.fields[key].Obj? || !after.fields[key].Obj?
         else Addressable(same, before.fields[key], after.fields[key])
  }

  /**
    The diff from `before` to `after` carries `other` to `after` as well: `other` agrees where the diff changes
    nothing, has the members it removes or goes into, and no member it does not know.
   */
  predicate Carries(same: Equality, other: Json, before: Json, after: Json)
    decreases before
  {
    if same(before, after) then other == after
    else if before.Obj? && after.Obj? then
      && other.Obj?
      && (forall key | key in other.fields :: key in before.fields || key in after.fields)
      && (forall key | key in before.fields :: key in other.fields)
      && (forall key | key in before.fields && key in after.fields ::
            Carries(same, other.fields[key], before.fields[key], after.fields[key]))
    else true
  }

  /** A sound diff carries the tree it was taken from. */
  lemma {:induction false} CarriesItself(same: Equality, before: Json, after: Json)
    requires Sound(same)
    ensures Carries(same, before, before, after)
    decreases before
  {
    if before.Obj? && after.Obj? {
      forall key | key in before.fields && key in after.fields
        ensures Carries(same, before.fields[key], before.fields[key], after.fields[key])
      {
        CarriesItself(same, before.fields[key], after.fields[key]);
      }
    }
  }

  function Without(fields: map<string, Json>, keys: seq<string>, kept: map<string, Json>): map<string, Json> {
    map key | key in fields && !(key in keys && key !in kept) :: fields[key]
  }

  function Overlay(fields: map<string, Json>, keys: seq<string>, after: map<string, Json>): map<string, Json>
    requires forall key :: key in keys ==> key in after
  {
    map key | key in fields.Keys + after.Keys && (key in fields || key in keys) ::
      if key in keys then after[key] else fields[key]
  }

  lemma WithoutStep(fields: map<string, Json>, keys: seq<string>, kept: map<string, Json>)
    requires keys != [] && keys[0] in fields && NoDuplicates(keys)
    ensures Without(fields, keys, kept)
         == Without(if keys[0] in kept then fields else fields - {keys[0]}, keys[1..], kept)
    ensures keys[0] !in keys[1..] && NoDuplicates(keys[1..])
  {
    assert keys == [keys[0]] + keys[1..];
  }

  lemma OverlayStep(fields: map<string, Json>, keys: seq<string>, after: map<string, Json>)
    requires keys != [] && NoDuplicates(keys) && forall key :: key in keys ==> key in after
    ensures Overlay(fields, keys, after) == Overlay(fields[keys[0] := after[keys[0]]], keys[1..], after)
    ensures keys[0] !in keys[1..] && NoDuplicates(keys[1..])
  {
    assert keys == [keys[0]] + keys[1..];
  }

  lemma OverlayAll(other: map<string, Json>, before: map<string, Json>, after: map<string, Json>)
    requires other.Keys <= before.Keys + after.Keys
    ensures Overlay(Without(other, SortedKeys.Sorted(before.Keys), after), SortedKeys.Sorted(after.Keys), after)
         == after
  {
    var result := Overlay(Without(other, SortedKeys.Sorted(before.Keys), after), SortedKeys.Sorted(after.Keys), after);
    assert forall key :: key in result <==> key in after;
  }

  lemma {:induction false} RemovalsApply(doc: Json, parts: seq<string>, keys: seq<string>, kept: map<string, Json>)
    requires EndsNonEmpty(parts) && GetAt(doc, parts).Ok? && GetAt(doc, parts).value.Obj?
    requires NoDuplicates(keys) && forall key :: key in keys ==> key in GetAt(doc, parts).value.fields
    ensures IsBase(PointerOf(parts))
    ensures Apply(doc, Removals(PointerOf(parts), keys, kept))
         == Ok(PutAt(doc, parts, Obj(Without(GetAt(doc, parts).value.fields, keys, kept))))
    decreases |keys|
  {
    PointerIsBase(parts);
    var fields := GetAt(doc, parts).value.fields;
    if keys == [] {
      assert Without(fields, keys, kept) == fields;
      PutGet(doc, parts);
    } else if keys[0] in kept {
      WithoutStep(fields, keys, kept);
      RemovalsApply(doc, parts, keys[1..], kept);
      assert Removals(PointerOf(parts), keys, kept) == Removals(PointerOf(parts), keys[1..], kept);
    } else {
      WithoutStep(fields, keys, kept);
      JoinAppendsIff(parts, keys[0]);
      RemoveKey(doc, parts, keys[0]);
      var smaller := Obj(fields - {keys[0]});
      var next := PutAt(doc, parts, smaller);
      GetPut(doc, parts, smaller);
      RemovalsApply(next, parts, keys[1..], kept);
      ApplySingle(doc, RemoveOp(PointerOf(parts + [keys[0]])));
      PutThenPut(doc, parts, [RemoveOp(PointerOf(parts + [keys[0]]))], smaller,
                 Removals(PointerOf(parts), keys[1..], kept), Obj(Without(fields, keys, kept)));
    }
  }

  /** One key of the second loop, seen as an assignment to that key. */
  lemma {:induction false} ChangeApply(
    same: Equality, doc: Json, parts: seq<string>, key: string, before: Json, after: Json)
    requires EndsNonEmpty(parts) && GetAt(doc, parts).Ok? && GetAt(doc, parts).value.Obj?
    requires before.Obj? && after.Obj? && key in after.fields
    requires !same(before, after) && Addressable(same, before, after)
    requires var fields := GetAt(doc, parts).value.fields;
             key in before.fields ==> key in fields && Carries(same, fields[key], before.fields[key], after.fields[key])
    ensures IsBase(PointerOf(parts)) && IsBase(JoinPath(PointerOf(parts), key))
    ensures Apply(doc, KeyChanges(same, before, after, key, JoinPath(PointerOf(parts), key)))
         == Ok(PutAt(doc, parts, Obj(GetAt(doc, parts).value.fields[key := after.fields[key]])))
    decreases before, 0
  {
    JoinPathAppends(parts, key);
    if key !in before.fields {
      AddedKey(doc, parts, key, after.fields[key]);
    } else {
      ChildApply(same, doc, parts, key, before.fields[key], after.fields[key]);
    }
  }

  /** The nested diff of a key both records have. */
  lemma {:induction false} ChildApply(
    same: Equality, doc: Json, parts: seq<string>, key: string, before: Json, after: Json)
    requires EndsNonEmpty(parts) && GetAt(doc, parts).Ok? && GetAt(doc, parts).value.Obj?
    requires key in GetAt(doc, parts).value.fields && Carries(same, GetAt(doc, parts).value.fields[key], before, after)
    requires same(before, after) || !before.Obj? || !after.Obj? || (key != "" && Addressable(same, before, after))
    ensures IsBase(PointerOf(parts + [key]))
    ensures Apply(doc, Diff(same, before, after, PointerOf(parts + [key])))
         == Ok(PutAt(doc, parts, Obj(GetAt(doc, parts).value.fields[key := after])))
    decreases before, 4
  {
    JoinPathAppends(parts, key);
    if same(before, after) {
      ChildKept(doc, parts, key);
    } else if before.Obj? && after.Obj? {
      AtChild(doc, parts, key, after);
      CarriedDiffAt(same, doc, parts + [key], before, after);
    } else {
      ReplacedKey(doc, parts, key, after);
    }
  }

  lemma {:induction false} ChildKept(doc: Json, parts: seq<string>, key: string)
    requires GetAt(doc, parts).Ok? && GetAt(doc, parts).value.Obj? && key in GetAt(doc, parts).value.fields
    ensures var fields := GetAt(doc, parts).value.fields;
            Apply(doc, []) == Ok(PutAt(doc, parts, Obj(fields[key := fields[key]])))
  {
    var fields := GetAt(doc, parts).value.fields;
    PutGet(doc, parts);
    assert fields[key := fields[key]] == fields;
  }

  /** The child of a record is the node one part further down. */
  lemma {:induction false} AtChild(doc: Json, parts: seq<string>, key: string, child: Json)
    requires GetAt(doc, parts).Ok? && GetAt(doc, parts).value.Obj? && key in GetAt(doc, parts).value.fields
    ensures GetAt(doc, parts + [key]) == Ok(GetAt(doc, parts).value.fields[key])
    ensures PutAt(doc, parts + [key], child) == PutAt(doc, parts, Obj(GetAt(doc, parts).value.fields[key := child]))
    ensures key != "" ==> EndsNonEmpty(parts + [key])
  {
    GetAppend(doc, parts, [key]);
    GetChildAlone(GetAt(doc, parts).value, key);
    PutChildAlone(doc, parts, key, child);
    assert Last(parts + [key]) == key;
  }

  lemma {:induction false} ReplacedKey(doc: Json, parts: seq<string>, key: string, value: Json)
    requires EndsNonEmpty(parts) && GetAt(doc, parts).Ok? && GetAt(doc, parts).value.Obj?
    requires key in GetAt(doc, parts).value.fields
    ensures Apply(doc, [ReplaceOp(PointerOf(parts + [key]), value)])
         == Ok(PutAt(doc, parts, Obj(GetAt(doc, parts).value.fields[key := value])))
  {
    SetKey(doc, parts, key, value, ReplaceMode);
    ApplySingle(doc, ReplaceOp(PointerOf(parts + [key]), value));
  }

  lemma {:induction false} AddedKey(doc: Json, parts: seq<string>, key: string, value: Json)
    requires EndsNonEmpty(parts) && GetAt(doc, parts).Ok? && GetAt(doc, parts).value.Obj?
    ensures Apply(doc, [AddOp(PointerOf(parts + [key]), value)])
         == Ok(PutAt(doc, parts, Obj(GetAt(doc, parts).value.fields[key := value])))
  {
    SetKey(doc, parts, key, value, AddMode);
    ApplySingle(doc, AddOp(PointerOf(parts + [key]), value));
  }

  lemma JoinPathAppends(parts: seq<string>, key: string)
    requires EndsNonEmpty(parts)
    ensures IsBase(PointerOf(parts)) && JoinPath(PointerOf(parts), key) == PointerOf(parts + [key])
    ensures IsBase(PointerOf(parts + [key]))
  {
    PointerIsBase(parts);
    PointerIsBase(parts + [key]);
    JoinAppendsIff(parts, key);
  }

  lemma GetChildAlone(node: Json, key: string)
    ensures GetAt(node, [key]) == Child(node, key)
  {
    if Child(node, key).Ok? {
      assert GetAt(Child(node, key).value, []) == Child(node, key);
      assert [key][1..] == [];
    }
  }

  lemma PutChildAlone(doc: Json, parts: seq<string>, key: string, child: Json)
    requires GetAt(doc, parts).Ok? && GetAt(doc, parts).value.Obj? && key in GetAt(doc, parts).value.fields
    ensures GetAt(doc, parts + [key]).Ok?
    ensures PutAt(doc, parts + [key], child) == PutAt(doc, parts, Obj(GetAt(doc, parts).value.fields[key := child]))
  {
    var node := GetAt(doc, parts).value;
    GetAppend(doc, parts, [key]);
    GetChildAlone(node, key);
    PutAppend(doc, parts, [key], child);
    assert [key][1..] == [];
    assert PutAt(node, [key], child) == WithChild(node, key, child);
  }

  lemma {:induction false} ChangesApply(
    same: Equality, doc: Json, parts: seq<string>, keys: seq<string>, before: Json, after: Json)
    requires EndsNonEmpty(parts) && GetAt(doc, parts).Ok? && GetAt(doc, parts).value.Obj?
    requires before.Obj? && after.Obj? && NoDuplicates(keys)
    requires forall key :: key in keys ==> key in after.fields
    requires !same(before, after) && Addressable(same, before, after)
    requires var fields := GetAt(doc, parts).value.fields;
             forall key :: key in keys && key in before.fields ==>
               key in fields && Carries(same, fields[key], before.fields[key], after.fields[key])
    ensures IsBase(PointerOf(parts))
    ensures Apply(doc, Changes(same, PointerOf(parts), keys, before, after))
         == Ok(PutAt(doc, parts, Obj(Overlay(GetAt(doc, parts).value.fields, keys, after.fields))))
    decreases before, 1, |keys|
  {
    PointerIsBase(parts);
    var fields := GetAt(doc, parts).value.fields;
    if keys == [] {
      assert Overlay(fields, keys, after.fields) == fields;
      PutGet(doc, parts);
    } else {
      var key, rest := keys[0], keys[1..];
      OverlayStep(fields, keys, after.fields);
      ChangeApply(same, doc, parts, key, before, after);
      var path := PointerOf(parts);
      var first := KeyChanges(same, before, after, key, JoinPath(path, key));
      var changed := Obj(fields[key := after.fields[key]]);
      var next := PutAt(doc, parts, changed);
      GetPut(doc, parts, changed);
      ChangesApply(same, next, parts, rest, before, after);
      PutThenPut(doc, parts, first, changed, Changes(same, path, rest, before, after),
                 Obj(Overlay(fields, keys, after.fields)));
    }
  }

  /** The two loops together, on the records at `parts`. */
  lemma {:induction false} RecordsAt(same: Equality, doc: Json, parts: seq<string>, before: Json, after: Json)
    requires Addressable(same, before, after) && !same(before, after) && before.Obj? && after.Obj?
    requires EndsNonEmpty(parts) && GetAt(doc, parts).Ok? && IsBase(PointerOf(parts))
    requires Carries(same, GetAt(doc, parts).value, before, after)
    ensures Apply(doc, Removals(PointerOf(parts), SortedKeys.Sorted(before.fields.Keys), after.fields)
                     + Changes(same, PointerOf(parts), SortedKeys.Sorted(after.fields.Keys), before, after))
         == Ok(PutAt(doc, parts, after))
    decreases before, 2
  {
    var beforeKeys := SortedKeys.Sorted(before.fields.Keys);
    var afterKeys := SortedKeys.Sorted(after.fields.Keys);
    SortedKeys.SortedInOrder(before.fields.Keys);
    SortedKeys.SortedInOrder(after.fields.Keys);
    RemovalsApply(doc, parts, beforeKeys, after.fields);
    var fields := GetAt(doc, parts).value.fields;
    var common := Obj(Without(fields, beforeKeys, after.fields));
    var next := PutAt(doc, parts, common);
    GetPut(doc, parts, common);
    ChangesApply(same, next, parts, afterKeys, before, after);
    OverlayAll(fields, before.fields, after.fields);
    PutThenPut(doc, parts, Removals(PointerOf(parts), beforeKeys, after.fields), common,
               Changes(same, PointerOf(parts), afterKeys, before, after), after);
  }

  /** A diff, applied to a document that holds a node it carries, changes that node alone, and to its target. */
  lemma {:induction false} CarriedDiffAt(same: Equality, doc: Json, parts: seq<string>, before: Json, after: Json)
    requires Addressable(same, before, after)
    requires EndsNonEmpty(parts) && GetAt(doc, parts).Ok? && Carries(same, GetAt(doc, parts).value, before, after)
    ensures IsBase(PointerOf(parts))
    ensures Apply(doc, Diff(same, before, after, PointerOf(parts))) == Ok(PutAt(doc, parts, after))
    decreases before, 3
  {
    PointerIsBase(parts);
    if same(before, after) {
      PutGet(doc, parts);
    } else if before.Obj? && after.Obj? {
      RecordsAt(same, doc, parts, before, after);
    } else {
      ReplaceAt(doc, parts, after);
      ApplySingle(doc, ReplaceOp(PointerOf(parts), after));
    }
  }

  /** A diff taken at a node, applied to a document that holds the node there, changes that node alone. */
  lemma DiffAt(same: Equality, doc: Json, parts: seq<string>, before: Json, after: Json)
    requires Sound(same) && Addressable(same, before, after)
    requires EndsNonEmpty(parts) && GetAt(doc, parts) == Ok(before)
    ensures IsBase(PointerOf(parts))
    ensures Apply(doc, Diff(same, before, after, PointerOf(parts))) == Ok(PutAt(doc, parts, after))
  {
    CarriesItself(same, before, after);
    CarriedDiffAt(same, doc, parts, before, after);
  }

  lemma {:induction false} ReplaceAt(doc: Json, parts: seq<string>, value: Json)
    requires GetAt(doc, parts).Ok?
    ensures Set(doc, PointerOf(parts), value, ReplaceMode) == Ok(PutAt(doc, parts, value))
  {
    ParsePointerOf(parts);
    if parts != [] {
      assert parts == Init(parts) + [Last(parts)];
      ReplaceBelow(doc, Init(parts), Last(parts), value);
    }
  }

  lemma {:induction false} ReplaceBelow(doc: Json, above: seq<string>, key: string, value: Json)
    requires GetAt(doc, above + [key]).Ok?
    ensures Set(doc, PointerOf(above + [key]), value, ReplaceMode) == Ok(PutAt(doc, above + [key], value))
  {
    GetAppend(doc, above, [key]);
    var node := GetAt(doc, above).value;
    GetChildAlone(node, key);
    SetKey(doc, above, key, value, ReplaceMode);
    ReplaceAlone(node, key, value);
    PutAppend(doc, above, [key], value);
  }

  lemma {:induction false} ReplaceAlone(node: Json, key: string, value: Json)
    requires Child(node, key).Ok?
    ensures SetChild(node, key, value, ReplaceMode) == Ok(PutAt(node, [key], value))
  {
    assert [key][1..] == [];
    assert PutAt(node, [key], value) == WithChild(node, key, value);
  }

  /** The diff never fails on its own input and reaches its target, for every sound equality test. */
  lemma DiffReachesTarget(same: Equality, before: Json, after: Json)
    requires Sound(same) && Addressable(same, before, after)
    ensures IsBase("")
    ensures Apply(before, Diff(same, before, after, "")) == Ok(after)
  {
    assert PointerOf([]) == "";
    DiffAt(same, before, [], before, after);
  }
}
