/** A diff applied to another tree than the one it was taken from: exactly when it still reaches its target. */
module JsonDiffTransfer {
  import opened Wrappers
  import opened JsonPointer
  import opened Json
  import opened JsonPatch
  import opened JsonDiff
  import opened JsonDiffProofs
  import opened JsonDiffLimits
  import SortedKeys

  /** An operation strictly below the node at `parts`. */
  ghost predicate Inside(operation: Operation, parts: seq<string>) {
    exists rest :: At(operation, parts, rest)
  }

  // ---------------------------------------------------------------- the operations of a record's diff

  lemma {:induction false} RemovalsInside(keys: seq<string>, kept: map<string, Json>, parts: seq<string>)
    requires EndsNonEmpty(parts)
    ensures IsBase(PointerOf(parts))
    ensures forall op :: op in Removals(PointerOf(parts), keys, kept) ==> Inside(op, parts)
    decreases |keys|
  {
    PointerIsBase(parts);
    if keys != [] {
      ExtendEmpty(parts, parts, keys[0]);
      assert At(RemoveOp(JoinPath(PointerOf(parts), keys[0])), parts, [keys[0]]);
      RemovalsInside(keys[1..], kept, parts);
    }
  }

  /** What `Addressable` says of one key of two records. */
  predicate KeyAddressable(same: Equality, before: Json, after: Json, key: string) {
    same(before, after) || !before.Obj? || !after.Obj? || (key != "" && Addressable(same, before, after))
  }

  lemma {:induction false} KeyInside(same: Equality, before: Json, after: Json, key: string, parts: seq<string>)
    requires EndsNonEmpty(parts) && before.Obj? && after.Obj? && key in after.fields
    requires key in before.fields ==> KeyAddressable(same, before.fields[key], after.fields[key], key)
    ensures IsBase(PointerOf(parts + [key]))
    ensures forall op :: op in KeyChanges(same, before, after, key, PointerOf(parts + [key])) ==> Inside(op, parts)
  {
    PointerIsBase(parts + [key]);
    if key !in before.fields {
      assert At(AddOp(PointerOf(parts + [key]), after.fields[key]), parts, [key]);
    } else if key == "" {
      assert At(ReplaceOp(PointerOf(parts + [key]), after.fields[key]), parts, [key]);
    } else {
      DiffOfKeyBelow(same, before.fields[key], after.fields[key], parts, key);
      forall op | Below(op, parts, key) ensures Inside(op, parts) {
      }
    }
  }

  lemma {:induction false} ChangesInside(
    same: Equality, keys: seq<string>, before: Json, after: Json, parts: seq<string>)
    requires EndsNonEmpty(parts) && before.Obj? && after.Obj?
    requires forall key :: key in keys ==> key in after.fields
    requires forall key :: key in keys && key in before.fields ==>
               KeyAddressable(same, before.fields[key], after.fields[key], key)
    ensures IsBase(PointerOf(parts))
    ensures forall op :: op in Changes(same, PointerOf(parts), keys, before, after) ==> Inside(op, parts)
    decreases |keys|
  {
    PointerIsBase(parts);
    if keys != [] {
      ExtendEmpty(parts, parts, keys[0]);
      KeyInside(same, before, after, keys[0], parts);
      ChangesInside(same, keys[1..], before, after, parts);
      assert Changes(same, PointerOf(parts), keys, before, after)
          == KeyChanges(same, before, after, keys[0], PointerOf(parts + [keys[0]]))
             + Changes(same, PointerOf(parts), keys[1..], before, after);
    }
  }

  /** All operations of the diff of two records at `parts` are strictly below it. */
  lemma {:induction false} RecordDiffInside(same: Equality, before: Json, after: Json, parts: seq<string>)
    requires EndsNonEmpty(parts) && before.Obj? && after.Obj? && Addressable(same, before, after)
    ensures IsBase(PointerOf(parts))
    ensures forall op :: op in Diff(same, before, after, PointerOf(parts)) ==> Inside(op, parts)
  {
    PointerIsBase(parts);
    if !same(before, after) {
      RemovalsInside(SortedKeys.Sorted(before.fields.Keys), after.fields, parts);
      ChangesInside(same, SortedKeys.Sorted(after.fields.Keys), before, after, parts);
    }
  }

  // ---------------------------------------------------------------- nodes an operation cannot make

  lemma InsideStep(doc: Json, operation: Operation, parts: seq<string>)
    requires Inside(operation, parts) && GetAt(doc, parts).Ok? && ApplyOne(doc, operation).Ok?
    ensures GetAt(ApplyOne(doc, operation).value, parts).Ok?
    ensures !GetAt(doc, parts).value.Obj? ==> !GetAt(ApplyOne(doc, operation).value, parts).value.Obj?
  {
    var rest :| At(operation, parts, rest);
    ParsePointerOf(parts + rest);
    var node := GetAt(doc, parts).value;
    if operation.op.Remove? {
      RemoveBelow(doc, parts, rest);
      var changed := RemoveAt(node, rest).value;
      GetPut(doc, parts, changed);
      KindKept(node, rest, changed);
    } else {
      var mode := if operation.op.Add? then AddMode else ReplaceMode;
      SetBelow(doc, parts, rest, operation.value.value, mode);
      var changed := SetAt(node, rest, operation.value.value, mode).value;
      GetPut(doc, parts, changed);
      KindKept(node, rest, changed);
    }
  }

  /** Work strictly below a node leaves it the kind of node it was. */
  lemma KindKept(node: Json, rest: seq<string>, changed: Json)
    requires rest != []
    requires RemoveAt(node, rest) == Ok(changed)
          || exists value, mode :: SetAt(node, rest, value, mode) == Ok(changed)
    ensures node.Obj? <==> changed.Obj?
  {
    if |rest| == 1 {
      assert Init(rest) == [];
    } else {
      assert Init(rest)[0] == rest[0];
    }
  }

  lemma {:induction false} NoRecordStays(doc: Json, operations: seq<Operation>, parts: seq<string>)
    requires forall op :: op in operations ==> Inside(op, parts)
    requires GetAt(doc, parts).Ok? && !GetAt(doc, parts).value.Obj? && Apply(doc, operations).Ok?
    ensures GetAt(Apply(doc, operations).value, parts).Ok? && !GetAt(Apply(doc, operations).value, parts).value.Obj?
    decreases |operations|
  {
    if operations != [] {
      assert Inside(operations[0], parts);
      InsideStep(doc, operations[0], parts);
      NoRecordStays(ApplyOne(doc, operations[0]).value, operations[1..], parts);
    }
  }

  /** Nothing can be done below a member that is not there. */
  lemma MissingStays(doc: Json, operations: seq<Operation>, parts: seq<string>, key: string)
    requires forall op :: op in operations ==> Inside(op, parts + [key])
    requires GetAt(doc, parts).Ok? && GetAt(doc, parts).value.Obj? && key !in GetAt(doc, parts).value.fields
    ensures operations == [] || Apply(doc, operations).Err?
  {
    if operations != [] {
      var op := operations[0];
      assert Inside(op, parts + [key]);
      var rest :| At(op, parts + [key], rest);
      assert parts + [key] + rest == parts + ([key] + rest);
      ParsePointerOf(parts + [key] + rest);
      var whole := [key] + rest;
      assert Init(whole)[0] == key;
      var node := GetAt(doc, parts).value;
      if op.op.Remove? {
        RemoveBelow(doc, parts, whole);
        assert RemoveAt(node, whole).Err?;
      } else {
        var mode := if op.op.Add? then AddMode else ReplaceMode;
        if op.value.Some? {
          SetBelow(doc, parts, whole, op.value.value, mode);
          assert SetAt(node, whole, op.value.value, mode).Err?;
        }
      }
      assert ApplyOne(doc, op).Err?;
    }
  }

  lemma {:induction false} RemovalsFail(
    doc: Json, parts: seq<string>, keys: seq<string>, kept: map<string, Json>, missing: string)
    requires EndsNonEmpty(parts) && missing in keys && missing !in kept
    requires GetAt(doc, parts).Ok? && GetAt(doc, parts).value.Obj? && missing !in GetAt(doc, parts).value.fields
    ensures IsBase(PointerOf(parts)) && Apply(doc, Removals(PointerOf(parts), keys, kept)).Err?
    decreases |keys|
  {
    PointerIsBase(parts);
    var key, rest := keys[0], keys[1..];
    if key in kept {
      RemovalsFail(doc, parts, rest, kept, missing);
      assert Removals(PointerOf(parts), keys, kept) == Removals(PointerOf(parts), rest, kept);
    } else {
      JoinPathAppends(parts, key);
      RemoveKey(doc, parts, key);
      var op := RemoveOp(PointerOf(parts + [key]));
      ApplySingle(doc, op);
      ApplyAppend(doc, [op], Removals(PointerOf(parts), rest, kept));
      var fields := GetAt(doc, parts).value.fields;
      if key in fields {
        GetPut(doc, parts, Obj(fields - {key}));
        RemovalsFail(PutAt(doc, parts, Obj(fields - {key})), parts, rest, kept, missing);
      }
    }
  }

  // ---------------------------------------------------------------- one key at fault

  /** The child at `key` is missing, or is one the nested diff does not carry. */
  predicate KeyAtOdds(same: Equality, child: Result<Json, Error>, before: Json, after: Json) {
    child.Err? || !Carries(same, child.value, before, after)
  }

  lemma {:induction false} KeyStaysWrong(
    same: Equality, doc: Json, parts: seq<string>, key: string, before: Json, after: Json)
    requires EndsNonEmpty(parts) && GetAt(doc, parts).Ok? && GetAt(doc, parts).value.Obj?
    requires KeyAddressable(same, before, after, key)
    requires KeyAtOdds(same, Child(GetAt(doc, parts).value, key), before, after)
    ensures IsBase(PointerOf(parts + [key]))
    ensures var r := Apply(doc, Diff(same, before, after, PointerOf(parts + [key])));
            r.Err? || (GetAt(r.value, parts).Ok? && GetAt(r.value, parts).value.Obj?
                       && Child(GetAt(r.value, parts).value, key) != Ok(after))
    decreases before, 4
  {
    JoinPathAppends(parts, key);
    var node := GetAt(doc, parts).value;
    var ops := Diff(same, before, after, PointerOf(parts + [key]));
    if same(before, after) {
      assert Apply(doc, ops) == Ok(doc);
    } else if !before.Obj? || !after.Obj? {
      SetKey(doc, parts, key, after, ReplaceMode);
      ApplySingle(doc, ReplaceOp(PointerOf(parts + [key]), after));
    } else if Child(node, key).Err? {
      assert EndsNonEmpty(parts + [key]);
      RecordDiffInside(same, before, after, parts + [key]);
      MissingStays(doc, ops, parts, key);
    } else {
      ChildStaysWrong(same, doc, parts, key, before, after);
    }
  }

  lemma {:induction false} ChildStaysWrong(
    same: Equality, doc: Json, parts: seq<string>, key: string, before: Json, after: Json)
    requires key != "" && EndsNonEmpty(parts) && GetAt(doc, parts).Ok? && GetAt(doc, parts).value.Obj?
    requires Addressable(same, before, after) && before.Obj? && after.Obj?
    requires Child(GetAt(doc, parts).value, key).Ok?
    requires !Carries(same, Child(GetAt(doc, parts).value, key).value, before, after)
    ensures IsBase(PointerOf(parts + [key]))
    ensures var r := Apply(doc, Diff(same, before, after, PointerOf(parts + [key])));
            r.Err? || (GetAt(r.value, parts).Ok? && GetAt(r.value, parts).value.Obj?
                       && Child(GetAt(r.value, parts).value, key) != Ok(after))
    decreases before, 3
  {
    GetAppend(doc, parts, [key]);
    GetChildAlone(GetAt(doc, parts).value, key);
    MissesAt(same, doc, parts + [key], before, after);
    DiffOfKeyBelow(same, before, after, parts, key);
    var ops := Diff(same, before, after, PointerOf(parts + [key]));
    if Apply(doc, ops).Ok? {
      var next := Apply(doc, ops).value;
      KeyChangesKeepRecord(doc, ops, parts, key);
      GetAppend(next, parts, [key]);
      GetChildAlone(GetAt(next, parts).value, key);
    }
  }

  lemma {:induction false} ChangesStayWrong(
    same: Equality, doc: Json, parts: seq<string>, keys: seq<string>, wrong: string, before: Json, after: Json)
    requires EndsNonEmpty(parts) && GetAt(doc, parts).Ok? && GetAt(doc, parts).value.Obj?
    requires before.Obj? && after.Obj? && NoDuplicates(keys) && wrong in keys && wrong in before.fields
    requires forall key :: key in keys ==> key in after.fields
    requires !same(before, after) && Addressable(same, before, after)
    requires KeyAtOdds(same, Child(GetAt(doc, parts).value, wrong), before.fields[wrong], after.fields[wrong])
    ensures IsBase(PointerOf(parts))
    ensures var r := Apply(doc, Changes(same, PointerOf(parts), keys, before, after));
            r.Err? || (GetAt(r.value, parts).Ok?
                       && Child(GetAt(r.value, parts).value, wrong) != Ok(after.fields[wrong]))
    decreases before, 0, |keys|
  {
    var key, rest := keys[0], keys[1..];
    assert keys == [key] + rest;
    JoinPathAppends(parts, key);
    var first := KeyChanges(same, before, after, key, PointerOf(parts + [key]));
    var others := Changes(same, PointerOf(parts), rest, before, after);
    ApplyAppend(doc, first, others);
    if Apply(doc, first).Ok? {
      var next := Apply(doc, first).value;
      if key == wrong {
        KeyStaysWrong(same, doc, parts, wrong, before.fields[wrong], after.fields[wrong]);
        OthersElsewhere(same, rest, before, after, parts, wrong);
        StaysLost(next, others, parts, wrong, after.fields[wrong]);
      } else {
        KeyElsewhere(same, before, after, key, wrong, parts);
        OthersKeep(doc, first, parts, wrong);
        ChangesStayWrong(same, next, parts, rest, wrong, before, after);
      }
    }
  }

  // ---------------------------------------------------------------- the iff

  /** The record at `parts` has a member no side of the diff knows: it stays. */
  lemma StrangerStays(same: Equality, doc: Json, parts: seq<string>, before: Json, after: Json, stranger: string)
    requires EndsNonEmpty(parts) && GetAt(doc, parts).Ok? && GetAt(doc, parts).value.Obj?
    requires before.Obj? && after.Obj? && !same(before, after) && Addressable(same, before, after)
    requires stranger in GetAt(doc, parts).value.fields && stranger !in before.fields && stranger !in after.fields
    ensures IsBase(PointerOf(parts))
    ensures var r := Apply(doc, Diff(same, before, after, PointerOf(parts)));
            r.Err? || GetAt(r.value, parts) != Ok(after)
  {
    SortedKeys.SortedInOrder(before.fields.Keys);
    SortedKeys.SortedInOrder(after.fields.Keys);
    RemovalsElsewhere(SortedKeys.Sorted(before.fields.Keys), after.fields, parts, stranger);
    OthersElsewhere(same, SortedKeys.Sorted(after.fields.Keys), before, after, parts, stranger);
    var ops := Diff(same, before, after, PointerOf(parts));
    if Apply(doc, ops).Ok? {
      OthersKeep(doc, ops, parts, stranger);
    }
  }

  /** A member of both sides is missing, or is not carried. */
  lemma {:induction false} SharedKeyMisses(
    same: Equality, doc: Json, parts: seq<string>, before: Json, after: Json, wrong: string)
    requires EndsNonEmpty(parts) && GetAt(doc, parts).Ok? && GetAt(doc, parts).value.Obj?
    requires before.Obj? && after.Obj? && !same(before, after) && Addressable(same, before, after)
    requires wrong in before.fields && wrong in after.fields
    requires KeyAtOdds(same, Child(GetAt(doc, parts).value, wrong), before.fields[wrong], after.fields[wrong])
    ensures IsBase(PointerOf(parts))
    ensures var r := Apply(doc, Diff(same, before, after, PointerOf(parts)));
            r.Err? || GetAt(r.value, parts) != Ok(after)
    decreases before, 1
  {
    PointerIsBase(parts);
    SortedKeys.SortedInOrder(after.fields.Keys);
    var removals := Removals(PointerOf(parts), SortedKeys.Sorted(before.fields.Keys), after.fields);
    var changes := Changes(same, PointerOf(parts), SortedKeys.Sorted(after.fields.Keys), before, after);
    ApplyAppend(doc, removals, changes);
    if Apply(doc, removals).Ok? {
      RemovalsElsewhere(SortedKeys.Sorted(before.fields.Keys), after.fields, parts, wrong);
      OthersKeep(doc, removals, parts, wrong);
      ChangesStayWrong(
        same, Apply(doc, removals).value, parts, SortedKeys.Sorted(after.fields.Keys), wrong, before, after);
    }
  }

  /** A diff never brings a node it does not carry to its target. */
  lemma {:induction false} MissesAt(same: Equality, doc: Json, parts: seq<string>, before: Json, after: Json)
    requires EndsNonEmpty(parts) && GetAt(doc, parts).Ok? && Addressable(same, before, after)
    requires !Carries(same, GetAt(doc, parts).value, before, after)
    ensures IsBase(PointerOf(parts))
    ensures var r := Apply(doc, Diff(same, before, after, PointerOf(parts)));
            r.Err? || GetAt(r.value, parts) != Ok(after)
    decreases before, 2
  {
    PointerIsBase(parts);
    var other := GetAt(doc, parts).value;
    if !same(before, after) {
      if !other.Obj? {
        RecordDiffInside(same, before, after, parts);
        var ops := Diff(same, before, after, PointerOf(parts));
        if Apply(doc, ops).Ok? {
          NoRecordStays(doc, ops, parts);
        }
      } else if key :| key in other.fields && key !in before.fields && key !in after.fields {
        StrangerStays(same, doc, parts, before, after, key);
      } else if key :| key in before.fields && key !in after.fields && key !in other.fields {
        SortedKeys.SortedInOrder(before.fields.Keys);
        RemovalsFail(doc, parts, SortedKeys.Sorted(before.fields.Keys), after.fields, key);
        ApplyAppend(doc, Removals(PointerOf(parts), SortedKeys.Sorted(before.fields.Keys), after.fields),
                    Changes(same, PointerOf(parts), SortedKeys.Sorted(after.fields.Keys), before, after));
      } else {
        var key :| key in before.fields && key in after.fields &&
                   KeyAtOdds(same, Child(other, key), before.fields[key], after.fields[key]);
        SharedKeyMisses(same, doc, parts, before, after, key);
      }
    }
  }

  /**
    The exact reach of a diff on any tree at all: for every equality test, and for every change that has an address,
    the patch takes the tree to its target if and only if the diff carries it there.
   */
  lemma {:induction false} DiffCarriesIff(same: Equality, other: Json, before: Json, after: Json)
    requires Addressable(same, before, after)
    ensures IsBase("")
    ensures Apply(other, Diff(same, before, after, "")) == Ok(after) <==> Carries(same, other, before, after)
  {
    assert PointerOf([]) == "" && GetAt(other, []) == Ok(other);
    if Carries(same, other, before, after) {
      CarriedDiffAt(same, other, [], before, after);
    } else {
      MissesAt(same, other, [], before, after);
    }
  }
}
