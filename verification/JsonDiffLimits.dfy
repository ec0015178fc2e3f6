/** The diff meets its purpose on no more inputs than it must: a change below an empty-string key is always lost. */
module JsonDiffLimits {
  import opened Wrappers
  import opened JsonPointer
  import opened Json
  import opened JsonPatch
  import opened JsonDiff
  import opened JsonDiffProofs
  import SortedKeys

  /** An operation of the three kinds a diff emits, at `rest` below the node at `parts`. */
  ghost predicate At(operation: Operation, parts: seq<string>, rest: seq<string>) {
    rest != [] && operation.path == PointerOf(parts + rest)
    && (operation.op.Add? || operation.op.Remove? || operation.op.Replace?)
  }

  ghost predicate Below(operation: Operation, parts: seq<string>, key: string) {
    exists rest :: At(operation, parts, rest) && rest[0] == key
  }

  ghost predicate Elsewhere(operation: Operation, parts: seq<string>, key: string) {
    exists rest :: At(operation, parts, rest) && rest[0] != key
  }

  /** Whatever this operation does at the empty key of the node at `parts`, it does not put `target` there. */
  ghost predicate Misses(operation: Operation, parts: seq<string>, target: Json) {
    exists rest :: At(operation, parts, rest) && (rest[0] == "" ==> rest == [""] && operation.value != Some(target))
  }

  // ---------------------------------------------------------------- one operation below a record

  lemma RecordStep(doc: Json, operation: Operation, parts: seq<string>, rest: seq<string>)
    requires At(operation, parts, rest)
    requires GetAt(doc, parts).Ok? && GetAt(doc, parts).value.Obj?
    requires ApplyOne(doc, operation).Ok?
    ensures GetAt(ApplyOne(doc, operation).value, parts).Ok?
    ensures StepOf(GetAt(doc, parts).value, GetAt(ApplyOne(doc, operation).value, parts).value, operation, rest)
  {
    ParsePointerOf(parts + rest);
    var node := GetAt(doc, parts).value;
    var changed;
    if operation.op.Remove? {
      RemoveBelow(doc, parts, rest);
      changed := RemoveAt(node, rest);
    } else {
      var mode := if operation.op.Add? then AddMode else ReplaceMode;
      SetBelow(doc, parts, rest, operation.value.value, mode);
      changed := SetAt(node, rest, operation.value.value, mode);
    }
    GetPut(doc, parts, changed.value);
    NodeStep(node, changed.value, operation, rest);
  }

  /** What an operation may do to a record: touch one key, and at that key itself write only its own value. */
  ghost predicate StepOf(node: Json, next: Json, operation: Operation, rest: seq<string>)
    requires rest != []
  {
    && next.Obj?
    && (forall key :: key != rest[0] ==> Child(next, key) == Child(node, key))
    && (|rest| == 1 && Child(next, rest[0]).Ok? ==> operation.value == Some(Child(next, rest[0]).value))
  }

  lemma NodeStep(node: Json, next: Json, operation: Operation, rest: seq<string>)
    requires node.Obj? && rest != []
    requires
      || (operation.op.Remove? && RemoveAt(node, rest) == Ok(next))
      || (operation.value.Some? && exists mode :: SetAt(node, rest, operation.value.value, mode) == Ok(next))
    ensures StepOf(node, next, operation, rest)
  {
    if |rest| == 1 {
      assert Init(rest) == [];
    } else {
      assert Init(rest)[0] == rest[0];
      assert exists child :: next == WithChild(node, rest[0], child);
    }
  }

  /** Operations under other keys leave a key of a record as it was. */
  lemma {:induction false} OthersKeep(doc: Json, operations: seq<Operation>, parts: seq<string>, key: string)
    requires forall op :: op in operations ==> Elsewhere(op, parts, key)
    requires GetAt(doc, parts).Ok? && GetAt(doc, parts).value.Obj?
    requires Apply(doc, operations).Ok?
    ensures GetAt(Apply(doc, operations).value, parts).Ok? && GetAt(Apply(doc, operations).value, parts).value.Obj?
    ensures Child(GetAt(Apply(doc, operations).value, parts).value, key) == Child(GetAt(doc, parts).value, key)
    decreases |operations|
  {
    if operations != [] {
      assert Elsewhere(operations[0], parts, key);
      var rest :| At(operations[0], parts, rest) && rest[0] != key;
      RecordStep(doc, operations[0], parts, rest);
      OthersKeep(ApplyOne(doc, operations[0]).value, operations[1..], parts, key);
    }
  }

  lemma {:induction false} MissesKeep(doc: Json, operations: seq<Operation>, parts: seq<string>, target: Json)
    requires forall op :: op in operations ==> Misses(op, parts, target)
    requires GetAt(doc, parts).Ok? && GetAt(doc, parts).value.Obj?
    requires Child(GetAt(doc, parts).value, "") != Ok(target)
    requires Apply(doc, operations).Ok?
    ensures GetAt(Apply(doc, operations).value, parts).Ok?
    ensures Child(GetAt(Apply(doc, operations).value, parts).value, "") != Ok(target)
    decreases |operations|
  {
    if operations != [] {
      assert Misses(operations[0], parts, target);
      var rest :| At(operations[0], parts, rest)
                  && (rest[0] == "" ==> rest == [""] && operations[0].value != Some(target));
      RecordStep(doc, operations[0], parts, rest);
      MissesKeep(ApplyOne(doc, operations[0]).value, operations[1..], parts, target);
    }
  }

  // ---------------------------------------------------------------- where a diff's operations go

  lemma JoinPathOf(parts: seq<string>, key: string)
    ensures IsBase(PointerOf(parts)) && JoinPath(PointerOf(parts), key) == PointerOf(Extend(parts, key))
    ensures IsBase(PointerOf(Extend(parts, key)))
    ensures EndsNonEmpty(parts) ==> Extend(parts, key) == parts + [key]
  {
    JoinExtends(parts, key);
    PointerIsBase(parts);
    PointerIsBase(Extend(parts, key));
  }

  /** The two loops of the diff of two records. */
  function RecordChanges(same: Equality, before: Json, after: Json, path: string): seq<Operation>
    requires IsBase(path) && before.Obj? && after.Obj?
  {
    Removals(path, SortedKeys.Sorted(before.fields.Keys), after.fields)
    + Changes(same, path, SortedKeys.Sorted(after.fields.Keys), before, after)
  }

  lemma DiffOfRecords(same: Equality, before: Json, after: Json, path: string)
    requires IsBase(path) && before.Obj? && after.Obj?
    ensures Diff(same, before, after, path)
         == if same(before, after) then [] else RecordChanges(same, before, after, path)
  {
  }

  lemma DiffOfLeaf(same: Equality, before: Json, after: Json, path: string)
    requires IsBase(path) && !(before.Obj? && after.Obj?)
    ensures Diff(same, before, after, path) == if same(before, after) then [] else [ReplaceOp(path, after)]
  {
  }

  lemma AllStart(first: seq<Operation>, second: seq<Operation>, base: seq<string>)
    requires forall op :: op in first ==> StartsWith(op, base)
    requires forall op :: op in second ==> StartsWith(op, base)
    ensures forall op :: op in first + second ==> StartsWith(op, base)
  {
  }

  ghost predicate StartsWith(operation: Operation, base: seq<string>) {
    exists rest :: operation.path == PointerOf(base + rest)
                   && (operation.op.Add? || operation.op.Remove? || operation.op.Replace?)
  }

  /** Every operation of a diff taken under `base` has its path under `base`. */
  lemma {:induction false} DiffStaysUnder(
    same: Equality, before: Json, after: Json, parts: seq<string>, base: seq<string>)
    requires base <= DropTrailingEmpty(parts)
    ensures IsBase(PointerOf(parts))
    ensures forall op :: op in Diff(same, before, after, PointerOf(parts)) ==> StartsWith(op, base)
    decreases before, 1, 0
  {
    var path := PointerOf(parts);
    PointerIsBase(parts);
    if before.Obj? && after.Obj? {
      RemovalsStayUnder(SortedKeys.Sorted(before.fields.Keys), after.fields, parts, base);
      ChangesStayUnder(same, SortedKeys.Sorted(after.fields.Keys), before, after, parts, base);
      AllStart(Removals(path, SortedKeys.Sorted(before.fields.Keys), after.fields),
               Changes(same, path, SortedKeys.Sorted(after.fields.Keys), before, after), base);
      DiffOfRecords(same, before, after, path);
    } else {
      PartsStart(parts, base, after);
      DiffOfLeaf(same, before, after, path);
    }
  }

  lemma {:induction false} PartsStart(parts: seq<string>, base: seq<string>, value: Json)
    requires base <= DropTrailingEmpty(parts)
    ensures StartsWith(ReplaceOp(PointerOf(parts), value), base)
  {
    DropTrailingEmptyShortens(parts);
    assert parts == base + parts[|base|..];
  }

  lemma {:induction false} RemovalsStayUnder(
    keys: seq<string>, kept: map<string, Json>, parts: seq<string>, base: seq<string>)
    requires base <= DropTrailingEmpty(parts) && IsBase(PointerOf(parts))
    ensures forall op :: op in Removals(PointerOf(parts), keys, kept) ==> StartsWith(op, base)
    decreases |keys|
  {
    if keys != [] {
      JoinPathOf(parts, keys[0]);
      ExtendStaysUnder(parts, keys[0], base);
      assert StartsWith(RemoveOp(JoinPath(PointerOf(parts), keys[0])), base);
      RemovalsStayUnder(keys[1..], kept, parts, base);
    }
  }

  lemma ExtendStaysUnder(parts: seq<string>, key: string, base: seq<string>)
    requires base <= DropTrailingEmpty(parts)
    ensures Extend(parts, key) == base + Extend(parts, key)[|base|..]
    ensures base <= DropTrailingEmpty(Extend(parts, key))
  {
    DropTrailingEmptyShortens(parts);
    assert Init(Extend(parts, key)) == DropTrailingEmpty(parts);
    assert DropTrailingEmpty(DropTrailingEmpty(parts)) == DropTrailingEmpty(parts);
  }

  lemma {:induction false} ChangesStayUnder(
    same: Equality, keys: seq<string>, before: Json, after: Json, parts: seq<string>, base: seq<string>)
    requires base <= DropTrailingEmpty(parts) && IsBase(PointerOf(parts))
    requires before.Obj? && after.Obj? && forall key :: key in keys ==> key in after.fields
    ensures forall op :: op in Changes(same, PointerOf(parts), keys, before, after) ==> StartsWith(op, base)
    decreases before, 0, |keys|
  {
    if keys != [] {
      var key := keys[0];
      JoinPathOf(parts, key);
      ExtendStaysUnder(parts, key, base);
      if key in before.fields {
        DiffStaysUnder(same, before.fields[key], after.fields[key], Extend(parts, key), base);
      } else {
        assert StartsWith(AddOp(JoinPath(PointerOf(parts), key), after.fields[key]), base);
      }
      ChangesStayUnder(same, keys[1..], before, after, parts, base);
    }
  }

  /** The diff of one non-empty key works below that key. */
  lemma DiffOfKeyBelow(same: Equality, before: Json, after: Json, parts: seq<string>, key: string)
    requires key != "" && EndsNonEmpty(parts)
    ensures IsBase(PointerOf(parts + [key]))
    ensures forall op :: op in Diff(same, before, after, PointerOf(parts + [key])) ==> Below(op, parts, key)
  {
    DiffStaysUnder(same, before, after, parts + [key], parts + [key]);
    forall op | StartsWith(op, parts + [key]) ensures Below(op, parts, key) {
      StartsWithBelow(op, parts, key);
    }
  }

  lemma StartsWithBelow(operation: Operation, parts: seq<string>, key: string)
    requires StartsWith(operation, parts + [key])
    ensures Below(operation, parts, key)
  {
    var rest :| operation.path == PointerOf(parts + [key] + rest);
    assert parts + [key] + rest == parts + ([key] + rest);
    assert At(operation, parts, [key] + rest);
  }

  // ---------------------------------------------------------------- changes below the empty key

  lemma BelowMisses(operation: Operation, parts: seq<string>, key: string, target: Json)
    requires key != "" && Below(operation, parts, key)
    ensures Misses(operation, parts, target)
  {
    var rest :| At(operation, parts, rest) && rest[0] == key;
  }

  lemma DiffOfKeyMisses(same: Equality, before: Json, after: Json, parts: seq<string>, key: string, target: Json)
    requires key != "" && EndsNonEmpty(parts)
    ensures IsBase(PointerOf(parts + [key]))
    ensures forall op :: op in Diff(same, before, after, PointerOf(parts + [key])) ==> Misses(op, parts, target)
  {
    DiffOfKeyBelow(same, before, after, parts, key);
    forall op | Below(op, parts, key) ensures Misses(op, parts, target) {
      BelowMisses(op, parts, key, target);
    }
  }

  lemma {:induction false} RemovalsMiss(
    keys: seq<string>, kept: map<string, Json>, path: seq<string>, parts: seq<string>, target: Json)
    requires EndsNonEmpty(parts) && (path == parts || path == parts + [""])
    ensures IsBase(PointerOf(path))
    ensures forall op :: op in Removals(PointerOf(path), keys, kept) ==> Misses(op, parts, target)
    decreases |keys|
  {
    PointerIsBase(path);
    if keys != [] {
      ExtendEmpty(path, parts, keys[0]);
      assert At(RemoveOp(JoinPath(PointerOf(path), keys[0])), parts, [keys[0]]);
      RemovalsMiss(keys[1..], kept, path, parts, target);
    }
  }

  /** Joining below an empty key loses that key. */
  lemma ExtendEmpty(path: seq<string>, parts: seq<string>, key: string)
    requires EndsNonEmpty(parts) && (path == parts || path == parts + [""])
    ensures IsBase(PointerOf(path)) && JoinPath(PointerOf(path), key) == PointerOf(parts + [key])
  {
    JoinPathOf(path, key);
    assert Init(parts + [""]) == parts && Last(parts + [""]) == "";
    assert DropTrailingEmpty(parts) == parts;
    assert DropTrailingEmpty(parts + [""]) == parts;
  }

  lemma {:induction false} OneStepMisses(operation: Operation, parts: seq<string>, key: string, target: Json)
    requires operation.path == PointerOf(parts + [key]) && (operation.op.Add? || operation.op.Replace?)
    requires key == "" ==> operation.value != Some(target)
    ensures Misses(operation, parts, target)
  {
    assert At(operation, parts, [key]);
  }

  /** What the diff emits at or below an empty key never writes the empty key's own target. */
  lemma {:induction false} EmptyKeyMisses(same: Equality, before: Json, after: Json, parts: seq<string>, target: Json)
    requires EndsNonEmpty(parts) && (after < target || (after == target && before.Obj? && after.Obj?))
    ensures IsBase(PointerOf(parts + [""]))
    ensures forall op :: op in Diff(same, before, after, PointerOf(parts + [""])) ==> Misses(op, parts, target)
    decreases before, 2
  {
    PointerIsBase(parts + [""]);
    if before.Obj? && after.Obj? {
      EmptyRecordMisses(same, before, after, parts, target);
      DiffOfRecords(same, before, after, PointerOf(parts + [""]));
    } else {
      OneStepMisses(ReplaceOp(PointerOf(parts + [""]), after), parts, "", target);
      DiffOfLeaf(same, before, after, PointerOf(parts + [""]));
    }
  }

  lemma AllMiss(first: seq<Operation>, second: seq<Operation>, parts: seq<string>, target: Json)
    requires forall op :: op in first ==> Misses(op, parts, target)
    requires forall op :: op in second ==> Misses(op, parts, target)
    ensures forall op :: op in first + second ==> Misses(op, parts, target)
  {
  }

  lemma {:induction false} EmptyRecordMisses(
    same: Equality, before: Json, after: Json, parts: seq<string>, target: Json)
    requires EndsNonEmpty(parts) && (after < target || after == target) && before.Obj? && after.Obj?
    ensures IsBase(PointerOf(parts + [""]))
    ensures forall op :: op in RecordChanges(same, before, after, PointerOf(parts + [""])) ==> Misses(op, parts, target)
    decreases before, 1, 1
  {
    var path := parts + [""];
    PointerIsBase(path);
    RemovalsMiss(SortedKeys.Sorted(before.fields.Keys), after.fields, path, parts, target);
    ChangesMiss(same, SortedKeys.Sorted(after.fields.Keys), before, after, path, parts, target);
    AllMiss(Removals(PointerOf(path), SortedKeys.Sorted(before.fields.Keys), after.fields),
            Changes(same, PointerOf(path), SortedKeys.Sorted(after.fields.Keys), before, after), parts, target);
  }

  lemma {:induction false} KeyMisses(
    same: Equality, key: string, before: Json, after: Json, parts: seq<string>, target: Json)
    requires EndsNonEmpty(parts) && before.Obj? && after.Obj? && key in after.fields
    requires key == "" ==> after.fields[key] < target ||
                           (key in before.fields && after.fields[key] == target
                            && before.fields[key].Obj? && target.Obj?)
    ensures IsBase(PointerOf(parts + [key]))
    ensures forall op :: op in KeyChanges(same, before, after, key, PointerOf(parts + [key])) ==>
         Misses(op, parts, target)
    decreases before, 0
  {
    PointerIsBase(parts + [key]);
    if key !in before.fields {
      OneStepMisses(AddOp(PointerOf(parts + [key]), after.fields[key]), parts, key, target);
    } else if key == "" {
      EmptyKeyMisses(same, before.fields[key], after.fields[key], parts, target);
    } else {
      DiffOfKeyMisses(same, before.fields[key], after.fields[key], parts, key, target);
    }
  }

  lemma {:induction false} ChangesMiss(
    same: Equality, keys: seq<string>, before: Json, after: Json, path: seq<string>, parts: seq<string>, target: Json)
    requires EndsNonEmpty(parts) && (path == parts || path == parts + [""])
    requires before.Obj? && after.Obj? && forall key :: key in keys ==> key in after.fields
    requires "" in after.fields ==>
               after.fields[""] < target ||
               ("" in before.fields && after.fields[""] == target && before.fields[""].Obj? && target.Obj?)
    ensures IsBase(PointerOf(path))
    ensures forall op :: op in Changes(same, PointerOf(path), keys, before, after) ==> Misses(op, parts, target)
    decreases before, 1, 0, |keys|
  {
    PointerIsBase(path);
    if keys != [] {
      ExtendEmpty(path, parts, keys[0]);
      KeyMisses(same, keys[0], before, after, parts, target);
      ChangesMiss(same, keys[1..], before, after, path, parts, target);
      assert Changes(same, PointerOf(path), keys, before, after)
          == KeyChanges(same, before, after, keys[0], PointerOf(parts + [keys[0]]))
             + Changes(same, PointerOf(path), keys[1..], before, after);
    }
  }

  // ---------------------------------------------------------------- the limit

  /** A change below the empty key of the record at `parts` is lost. */
  lemma EmptyKeyLost(doc: Json, parts: seq<string>, before: Json, after: Json)
    requires EndsNonEmpty(parts) && GetAt(doc, parts) == Ok(before) && before.Obj? && after.Obj?
    requires "" in before.fields && "" in after.fields && before.fields[""] != after.fields[""]
    requires before.fields[""].Obj? && after.fields[""].Obj?
    ensures IsBase(PointerOf(parts))
    ensures var r := Apply(doc, Diff(TreeEqual, before, after, PointerOf(parts)));
            r.Err? || (GetAt(r.value, parts).Ok? && Child(GetAt(r.value, parts).value, "") != Ok(after.fields[""]))
  {
    PointerIsBase(parts);
    var target := after.fields[""];
    RemovalsMiss(SortedKeys.Sorted(before.fields.Keys), after.fields, parts, parts, target);
    ChangesMiss(TreeEqual, SortedKeys.Sorted(after.fields.Keys), before, after, parts, parts, target);
    var ops := Diff(TreeEqual, before, after, PointerOf(parts));
    if Apply(doc, ops).Ok? {
      MissesKeep(doc, ops, parts, target);
    }
  }

  /** Keys of the second loop other than `lost` leave the value under `lost` alone. */
  lemma {:induction false} KeyElsewhere(
    same: Equality, before: Json, after: Json, key: string, lost: string, parts: seq<string>)
    requires EndsNonEmpty(parts) && before.Obj? && after.Obj? && key in after.fields && key != lost
    requires key == "" && key in before.fields ==>
               same(before.fields[key], after.fields[key]) || !before.fields[key].Obj? || !after.fields[key].Obj?
    ensures IsBase(PointerOf(parts + [key]))
    ensures forall op :: op in KeyChanges(same, before, after, key, PointerOf(parts + [key])) ==>
         Elsewhere(op, parts, lost)
  {
    PointerIsBase(parts + [key]);
    if key !in before.fields {
      assert At(AddOp(PointerOf(parts + [key]), after.fields[key]), parts, [key]);
    } else if key == "" {
      assert At(ReplaceOp(PointerOf(parts + [key]), after.fields[key]), parts, [key]);
    } else {
      DiffOfKeyBelow(same, before.fields[key], after.fields[key], parts, key);
    }
  }

  lemma {:induction false} RemovalsElsewhere(
    keys: seq<string>, kept: map<string, Json>, parts: seq<string>, lost: string)
    requires EndsNonEmpty(parts) && (lost in kept || lost !in keys)
    ensures IsBase(PointerOf(parts))
    ensures forall op :: op in Removals(PointerOf(parts), keys, kept) ==> Elsewhere(op, parts, lost)
    decreases |keys|
  {
    PointerIsBase(parts);
    if keys != [] {
      ExtendEmpty(parts, parts, keys[0]);
      assert At(RemoveOp(JoinPath(PointerOf(parts), keys[0])), parts, [keys[0]]);
      RemovalsElsewhere(keys[1..], kept, parts, lost);
    }
  }

  /** The diff of an unaddressable key leaves something other than the target under that key. */
  lemma {:induction false} KeyLost(doc: Json, parts: seq<string>, lost: string, before: Json, after: Json)
    requires EndsNonEmpty(parts) && GetAt(doc, parts).Ok? && GetAt(doc, parts).value.Obj? && lost != ""
    requires !Addressable(TreeEqual, before, after) && Child(GetAt(doc, parts).value, lost) == Ok(before)
    ensures IsBase(PointerOf(parts + [lost]))
    ensures var r := Apply(doc, Diff(TreeEqual, before, after, PointerOf(parts + [lost])));
            r.Err? || (GetAt(r.value, parts).Ok? && GetAt(r.value, parts).value.Obj?
                       && Child(GetAt(r.value, parts).value, lost) != Ok(after))
    decreases before, 3
  {
    GetAppend(doc, parts, [lost]);
    GetChildAlone(GetAt(doc, parts).value, lost);
    LostAt(doc, parts + [lost], before, after);
    DiffOfKeyBelow(TreeEqual, before, after, parts, lost);
    var ops := Diff(TreeEqual, before, after, PointerOf(parts + [lost]));
    if Apply(doc, ops).Ok? {
      var next := Apply(doc, ops).value;
      KeyChangesKeepRecord(doc, ops, parts, lost);
      GetAppend(next, parts, [lost]);
      GetChildAlone(GetAt(next, parts).value, lost);
    }
  }

  /** Once a key's own diff has lost a change, the rest of the patch does not repair it. */
  lemma {:induction false} ChangesLose(
    doc: Json, parts: seq<string>, keys: seq<string>, lost: string, before: Json, after: Json)
    requires EndsNonEmpty(parts) && GetAt(doc, parts).Ok? && GetAt(doc, parts).value.Obj?
    requires before.Obj? && after.Obj? && NoDuplicates(keys) && lost in keys && lost != ""
    requires forall key :: key in keys ==> key in after.fields
    requires "" in before.fields && "" in after.fields ==>
               before.fields[""] == after.fields[""] || !before.fields[""].Obj? || !after.fields[""].Obj?
    requires lost in before.fields && !Addressable(TreeEqual, before.fields[lost], after.fields[lost])
    requires Child(GetAt(doc, parts).value, lost) == Ok(before.fields[lost])
    ensures IsBase(PointerOf(parts))
    ensures var r := Apply(doc, Changes(TreeEqual, PointerOf(parts), keys, before, after));
            r.Err? || (GetAt(r.value, parts).Ok? && Child(GetAt(r.value, parts).value, lost) != Ok(after.fields[lost]))
    decreases before, 0, |keys|
  {
    var key, rest := keys[0], keys[1..];
    assert keys == [key] + rest;
    JoinPathAppends(parts, key);
    var first := KeyChanges(TreeEqual, before, after, key, PointerOf(parts + [key]));
    var others := Changes(TreeEqual, PointerOf(parts), rest, before, after);
    ApplyAppend(doc, first, others);
    if Apply(doc, first).Ok? {
      if key == lost {
        FirstLoses(doc, parts, rest, lost, before, after);
      } else {
        KeyElsewhere(TreeEqual, before, after, key, lost, parts);
        OthersKeep(doc, first, parts, lost);
        ChangesLose(Apply(doc, first).value, parts, rest, lost, before, after);
      }
    }
  }

  /** The lost key's own diff comes first, and the rest of the patch leaves its result. */
  lemma {:induction false} FirstLoses(
    doc: Json, parts: seq<string>, rest: seq<string>, lost: string, before: Json, after: Json)
    requires EndsNonEmpty(parts) && GetAt(doc, parts).Ok? && GetAt(doc, parts).value.Obj?
    requires before.Obj? && after.Obj? && lost !in rest && lost != ""
    requires forall key :: key in rest ==> key in after.fields
    requires "" in before.fields && "" in after.fields ==>
               before.fields[""] == after.fields[""] || !before.fields[""].Obj? || !after.fields[""].Obj?
    requires lost in before.fields && lost in after.fields
    requires !Addressable(TreeEqual, before.fields[lost], after.fields[lost])
    requires Child(GetAt(doc, parts).value, lost) == Ok(before.fields[lost])
    ensures IsBase(PointerOf(parts + [lost])) && IsBase(PointerOf(parts))
    ensures var first := Apply(doc, KeyChanges(TreeEqual, before, after, lost, PointerOf(parts + [lost])));
            first.Ok? ==>
              var r := Apply(first.value, Changes(TreeEqual, PointerOf(parts), rest, before, after));
              r.Err? || (GetAt(r.value, parts).Ok?
                         && Child(GetAt(r.value, parts).value, lost) != Ok(after.fields[lost]))
    decreases before, 0, 0
  {
    JoinPathAppends(parts, lost);
    KeyLost(doc, parts, lost, before.fields[lost], after.fields[lost]);
    OthersElsewhere(TreeEqual, rest, before, after, parts, lost);
    var first := Apply(doc, KeyChanges(TreeEqual, before, after, lost, PointerOf(parts + [lost])));
    if first.Ok? {
      var others := Changes(TreeEqual, PointerOf(parts), rest, before, after);
      StaysLost(first.value, others, parts, lost, after.fields[lost]);
    }
  }

  lemma StaysLost(doc: Json, operations: seq<Operation>, parts: seq<string>, lost: string, target: Json)
    requires GetAt(doc, parts).Ok? && GetAt(doc, parts).value.Obj? && Child(GetAt(doc, parts).value, lost) != Ok(target)
    requires forall op :: op in operations ==> Elsewhere(op, parts, lost)
    ensures var r := Apply(doc, operations);
            r.Err? || (GetAt(r.value, parts).Ok? && Child(GetAt(r.value, parts).value, lost) != Ok(target))
  {
    if Apply(doc, operations).Ok? {
      OthersKeep(doc, operations, parts, lost);
    }
  }

  lemma {:induction false} KeyChangesKeepRecord(doc: Json, operations: seq<Operation>, parts: seq<string>, key: string)
    requires forall op :: op in operations ==> Below(op, parts, key)
    requires GetAt(doc, parts).Ok? && GetAt(doc, parts).value.Obj?
    requires Apply(doc, operations).Ok?
    ensures GetAt(Apply(doc, operations).value, parts).Ok? && GetAt(Apply(doc, operations).value, parts).value.Obj?
    decreases |operations|
  {
    if operations != [] {
      assert Below(operations[0], parts, key);
      var rest :| At(operations[0], parts, rest) && rest[0] == key;
      RecordStep(doc, operations[0], parts, rest);
      KeyChangesKeepRecord(ApplyOne(doc, operations[0]).value, operations[1..], parts, key);
    }
  }

  lemma {:induction false} OthersElsewhere(
    same: Equality, keys: seq<string>, before: Json, after: Json, parts: seq<string>, lost: string)
    requires EndsNonEmpty(parts) && before.Obj? && after.Obj? && lost !in keys
    requires forall key :: key in keys ==> key in after.fields
    requires "" in before.fields && "" in after.fields ==>
               same(before.fields[""], after.fields[""]) || !before.fields[""].Obj? || !after.fields[""].Obj?
    ensures IsBase(PointerOf(parts))
    ensures forall op :: op in Changes(same, PointerOf(parts), keys, before, after) ==> Elsewhere(op, parts, lost)
    decreases |keys|
  {
    PointerIsBase(parts);
    if keys != [] {
      ExtendEmpty(parts, parts, keys[0]);
      KeyElsewhere(same, before, after, keys[0], lost, parts);
      OthersElsewhere(same, keys[1..], before, after, parts, lost);
      assert Changes(same, PointerOf(parts), keys, before, after)
          == KeyChanges(same, before, after, keys[0], PointerOf(parts + [keys[0]]))
             + Changes(same, PointerOf(parts), keys[1..], before, after);
    }
  }

  lemma {:induction false} LostInRecords(doc: Json, parts: seq<string>, before: Json, after: Json, lost: string)
    requires EndsNonEmpty(parts) && GetAt(doc, parts) == Ok(before) && before.Obj? && after.Obj?
    requires "" in before.fields && "" in after.fields ==>
               before.fields[""] == after.fields[""] || !before.fields[""].Obj? || !after.fields[""].Obj?
    requires lost in before.fields && lost in after.fields && lost != ""
    requires !Addressable(TreeEqual, before.fields[lost], after.fields[lost])
    ensures IsBase(PointerOf(parts))
    ensures var r := Apply(doc, Removals(PointerOf(parts), SortedKeys.Sorted(before.fields.Keys), after.fields)
                              + Changes(TreeEqual, PointerOf(parts),
                                        SortedKeys.Sorted(after.fields.Keys), before, after));
            r.Err? || (GetAt(r.value, parts).Ok? && Child(GetAt(r.value, parts).value, lost) != Ok(after.fields[lost]))
    decreases before, 1
  {
    PointerIsBase(parts);
    var removals := Removals(PointerOf(parts), SortedKeys.Sorted(before.fields.Keys), after.fields);
    var afterKeys := SortedKeys.Sorted(after.fields.Keys);
    SortedKeys.SortedInOrder(after.fields.Keys);
    ApplyAppend(doc, removals, Changes(TreeEqual, PointerOf(parts), afterKeys, before, after));
    if Apply(doc, removals).Ok? {
      RemovalsElsewhere(SortedKeys.Sorted(before.fields.Keys), after.fields, parts, lost);
      OthersKeep(doc, removals, parts, lost);
      ChangesLose(Apply(doc, removals).value, parts, afterKeys, lost, before, after);
    }
  }

  /** A key at fault: the empty one itself, or else one with the fault below it. */
  lemma KeyAtFault(before: Json, after: Json) returns (lost: string)
    requires !Addressable(TreeEqual, before, after)
    ensures before.Obj? && after.Obj? && lost in before.fields && lost in after.fields
    ensures lost == "" ==>
              before.fields[""] != after.fields[""] && before.fields[""].Obj? && after.fields[""].Obj?
    ensures lost != "" ==>
              && !Addressable(TreeEqual, before.fields[lost], after.fields[lost])
              && ("" in before.fields && "" in after.fields ==>
                    before.fields[""] == after.fields[""] || !before.fields[""].Obj? || !after.fields[""].Obj?)
  {
    if "" in before.fields && "" in after.fields && before.fields[""] != after.fields[""]
       && before.fields[""].Obj? && after.fields[""].Obj? {
      lost := "";
    } else {
      lost :| lost in before.fields && lost in after.fields && lost != ""
              && !Addressable(TreeEqual, before.fields[lost], after.fields[lost]);
    }
  }

  /** A change without an address is not made: the patch fails or leaves another tree in its place. */
  lemma {:induction false} LostAt(doc: Json, parts: seq<string>, before: Json, after: Json)
    requires EndsNonEmpty(parts) && GetAt(doc, parts) == Ok(before) && !Addressable(TreeEqual, before, after)
    ensures IsBase(PointerOf(parts))
    ensures var r := Apply(doc, Diff(TreeEqual, before, after, PointerOf(parts)));
            r.Err? || GetAt(r.value, parts) != Ok(after)
    decreases before, 2
  {
    var lost := KeyAtFault(before, after);
    if lost == "" {
      EmptyKeyLost(doc, parts, before, after);
    } else {
      LostInRecords(doc, parts, before, after, lost);
    }
  }

  /** Different records have a non-empty diff, addressable or not. */
  lemma {:induction false} RecordsDiffer(before: Json, after: Json, path: string)
    requires before.Obj? && after.Obj? && before != after && IsBase(path)
    ensures Diff(TreeEqual, before, after, path) != []
    decreases before, 1
  {
    if key :| key in before.fields && key !in after.fields {
      RemovalsContain(path, SortedKeys.Sorted(before.fields.Keys), after.fields, key);
    } else {
      var key :| key in after.fields && (key in before.fields ==> before.fields[key] != after.fields[key]);
      ChangesContain(path, SortedKeys.Sorted(after.fields.Keys), before, after, key);
    }
  }

  lemma {:induction false} RemovalsContain(path: string, keys: seq<string>, kept: map<string, Json>, key: string)
    requires IsBase(path) && key in keys && key !in kept
    ensures Removals(path, keys, kept) != []
    decreases |keys|
  {
    if keys[0] != key {
      RemovalsContain(path, keys[1..], kept, key);
    }
  }

  lemma {:induction false} ChangesContain(path: string, keys: seq<string>, before: Json, after: Json, key: string)
    requires IsBase(path) && before.Obj? && after.Obj? && key in keys
    requires forall k :: k in keys ==> k in after.fields
    requires key in before.fields ==> before.fields[key] != after.fields[key]
    ensures Changes(TreeEqual, path, keys, before, after) != []
    decreases before, 0, |keys|
  {
    JoinPathIsBase(path, keys[0]);
    assert Changes(TreeEqual, path, keys, before, after)
        == KeyChanges(TreeEqual, before, after, keys[0], JoinPath(path, keys[0]))
           + Changes(TreeEqual, path, keys[1..], before, after);
    if keys[0] != key {
      ChangesContain(path, keys[1..], before, after, key);
    } else if key in before.fields && before.fields[key].Obj? && after.fields[key].Obj? {
      RecordsDiffer(before.fields[key], after.fields[key], JoinPath(path, key));
    }
  }

  /**
    The exact reach of the diff. With an equality test that tells trees apart exactly, the patch turns the first
    tree into the second if and only if no change lies below an empty-string key.
   */
  lemma {:induction false} DiffReachesTargetIff(before: Json, after: Json)
    ensures IsBase("")
    ensures Apply(before, Diff(TreeEqual, before, after, "")) == Ok(after) <==> Addressable(TreeEqual, before, after)
  {
    assert PointerOf([]) == "";
    if Addressable(TreeEqual, before, after) {
      DiffReachesTarget(TreeEqual, before, after);
    } else {
      LostAt(before, [], before, after);
    }
  }

  /** A smallest lost change: the patch fails because it looks for the inner key at the root. */
  lemma EmptyKeyExample()
    ensures IsBase("")
    ensures var before := Obj(map["" := Obj(map["a" := Num(1)])]);
            var after := Obj(map["" := Obj(map["a" := Num(2)])]);
            Apply(before, Diff(TreeEqual, before, after, "")) != Ok(after)
  {
    var before := Obj(map["" := Obj(map["a" := Num(1)])]);
    var after := Obj(map["" := Obj(map["a" := Num(2)])]);
    assert before.fields[""].fields["a"] != after.fields[""].fields["a"];
    assert before.fields[""] != after.fields[""];
    assert before != after;
    DiffReachesTargetIff(before, after);
  }
}
