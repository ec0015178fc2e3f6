/** What the operations that read the document promise (RFC 6902, sections 4.4 to 4.6): move, copy and test. */
module JsonPatchLaws {
  import opened Wrappers
  import opened JsonPointer
  import opened Json
  import opened JsonPatch

  function TestOp(path: string, value: Json): Operation {
    Operation(Test, path, None, Some(value))
  }

  function CopyOp(from: string, path: string): Operation {
    Operation(Copy, path, Some(from), None)
  }

  // ---------------------------------------------------------------- test

  /** A patch that opens with a test does what the rest does where the document holds the value, and fails elsewhere. */
  lemma {:induction false} TestGuards(doc: Json, p: seq<string>, value: Json, rest: seq<Operation>)
    ensures GetAt(doc, p) == Ok(value) ==> Apply(doc, [TestOp(PointerOf(p), value)] + rest) == Apply(doc, rest)
    ensures GetAt(doc, p) != Ok(value) ==> Apply(doc, [TestOp(PointerOf(p), value)] + rest).Err?
  {
    ParsePointerOf(p);
    var test := TestOp(PointerOf(p), value);
    ApplySingle(doc, test);
    ApplyAppend(doc, [test], rest);
  }

  // ---------------------------------------------------------------- copy

  /** A copy adds the value found at its source, and fails when there is none. */
  lemma {:induction false} CopyIsAdd(doc: Json, p: seq<string>, path: string)
    ensures GetAt(doc, p).Ok? ==>
              Apply(doc, [CopyOp(PointerOf(p), path)]) == Apply(doc, [AddOp(path, GetAt(doc, p).value)])
    ensures GetAt(doc, p).Err? ==> Apply(doc, [CopyOp(PointerOf(p), path)]).Err?
  {
    ParsePointerOf(p);
    ApplySingle(doc, CopyOp(PointerOf(p), path));
    if GetAt(doc, p).Ok? {
      ApplySingle(doc, AddOp(path, GetAt(doc, p).value));
    }
  }

  /** The record at q with a member set. */
  function WithMember(doc: Json, q: seq<string>, key: string, value: Json): Json
    requires GetAt(doc, q).Ok? && GetAt(doc, q).value.Obj?
  {
    PutAt(doc, q, Obj(GetAt(doc, q).value.fields[key := value]))
  }

  function WithoutMember(doc: Json, p: seq<string>, key: string): Json
    requires GetAt(doc, p).Ok? && GetAt(doc, p).value.Obj?
  {
    PutAt(doc, p, Obj(GetAt(doc, p).value.fields - {key}))
  }

  /** Setting a member, new or not, leaves every location outside it as it was. */
  lemma {:induction false} MemberFrame(doc: Json, q: seq<string>, key: string, value: Json, location: seq<string>)
    requires GetAt(doc, q).Ok? && GetAt(doc, q).value.Obj? && Diverge(q + [key], location)
    ensures GetAt(WithMember(doc, q, key, value), location) == GetAt(doc, location)
    decreases |q|
  {
    if q == [] {
      assert q + [key] == [key] && !Diverge([key][1..], location[1..]);
    } else {
      assert (q + [key])[0] == q[0] && (q + [key])[1..] == q[1..] + [key];
      var child := Child(doc, q[0]).value;
      if q[0] == location[0] {
        MemberFrame(child, q[1..], key, value, location[1..]);
      } else {
        ChildFrame(doc, q[0], location[0], WithMember(child, q[1..], key, value));
      }
    }
  }

  lemma {:induction false} MemberHolds(doc: Json, q: seq<string>, key: string, value: Json)
    requires GetAt(doc, q).Ok? && GetAt(doc, q).value.Obj?
    ensures GetAt(WithMember(doc, q, key, value), q + [key]) == Ok(value)
  {
    var changed := Obj(GetAt(doc, q).value.fields[key := value]);
    GetPut(doc, q, changed);
    GetAppend(WithMember(doc, q, key, value), q, [key]);
    assert GetAt(value, []) == Ok(value) && [key][1..] == [];
  }

  lemma {:induction false} AddsMember(doc: Json, q: seq<string>, key: string, value: Json)
    requires GetAt(doc, q).Ok? && GetAt(doc, q).value.Obj?
    ensures Apply(doc, [AddOp(PointerOf(q + [key]), value)]) == Ok(WithMember(doc, q, key, value))
  {
    SetKey(doc, q, key, value, AddMode);
    ApplySingle(doc, AddOp(PointerOf(q + [key]), value));
  }

  /**
    A copy to a member of a record puts the source's value there and changes no location outside that member, so a
    source outside it stays.
   */
  lemma {:induction false} CopyToMember(doc: Json, p: seq<string>, q: seq<string>, key: string)
    requires GetAt(doc, p).Ok? && GetAt(doc, q).Ok? && GetAt(doc, q).value.Obj?
    ensures var r := Apply(doc, [CopyOp(PointerOf(p), PointerOf(q + [key]))]);
            && r.Ok?
            && GetAt(r.value, q + [key]) == GetAt(doc, p)
            && (forall location :: Diverge(q + [key], location) ==> GetAt(r.value, location) == GetAt(doc, location))
  {
    var value := GetAt(doc, p).value;
    CopyIsAdd(doc, p, PointerOf(q + [key]));
    AddsMember(doc, q, key, value);
    MemberHolds(doc, q, key, value);
    forall location | Diverge(q + [key], location)
      ensures GetAt(WithMember(doc, q, key, value), location) == GetAt(doc, location)
    {
      MemberFrame(doc, q, key, value, location);
    }
  }

  // ---------------------------------------------------------------- move

  /** A move is a removal of its source and then an addition of the value that was there. */
  lemma {:induction false} MoveIsRemoveThenAdd(doc: Json, p: seq<string>, path: string)
    ensures GetAt(doc, p).Ok? ==>
              Apply(doc, [MoveOp(PointerOf(p), path)])
              == Apply(doc, [RemoveOp(PointerOf(p)), AddOp(path, GetAt(doc, p).value)])
    ensures GetAt(doc, p).Err? ==> Apply(doc, [MoveOp(PointerOf(p), path)]).Err?
  {
    ParsePointerOf(p);
    ApplySingle(doc, MoveOp(PointerOf(p), path));
    if GetAt(doc, p).Ok? {
      var remove, add := RemoveOp(PointerOf(p)), AddOp(path, GetAt(doc, p).value);
      assert [remove] + [add] == [remove, add];
      ApplyAppend(doc, [remove], [add]);
      ApplySingle(doc, remove);
      if ApplyOne(doc, remove).Ok? {
        ApplySingle(ApplyOne(doc, remove).value, add);
      }
    }
  }

  lemma WithChildCommutes(node: Json, p: string, first: Json, q: string, second: Json)
    requires Child(node, p).Ok? && Child(node, q).Ok? && p != q
    ensures Child(WithChild(node, p, first), q).Ok? && Child(WithChild(node, q, second), p).Ok?
    ensures WithChild(WithChild(node, p, first), q, second) == WithChild(WithChild(node, q, second), p, first)
  {
    ChildFrame(node, p, q, first);
    ChildFrame(node, q, p, second);
    if node.Arr? {
      var i, j := ParseIndex(p, |node.items|, false).value, ParseIndex(q, |node.items|, false).value;
      if i == j {
        ParseIndexInjective(p, q, |node.items|);
      }
      assert node.items[i := first][j := second] == node.items[j := second][i := first];
    } else {
      assert node.fields[p := first][q := second] == node.fields[q := second][p := first];
    }
  }

  /** Removing one member and setting another that diverges from it can be done in either order. */
  lemma {:induction false} MembersCommute(
    doc: Json, p: seq<string>, gone: string, q: seq<string>, key: string, value: Json)
    requires GetAt(doc, p).Ok? && GetAt(doc, p).value.Obj? && GetAt(doc, q).Ok? && GetAt(doc, q).value.Obj?
    requires Diverge(p + [gone], q + [key])
    ensures var removed, filled := WithoutMember(doc, p, gone), WithMember(doc, q, key, value);
            && GetAt(removed, q).Ok? && GetAt(removed, q).value.Obj?
            && GetAt(filled, p).Ok? && GetAt(filled, p).value.Obj?
            && (gone in GetAt(doc, p).value.fields ==> gone in GetAt(filled, p).value.fields)
            && WithMember(removed, q, key, value) == WithoutMember(filled, p, gone)
    decreases |p|
  {
    if p == [] && q == [] {
      assert p + [gone] == [gone] && q + [key] == [key] && !Diverge([gone][1..], [key][1..]);
      assert doc.fields[key := value] - {gone} == (doc.fields - {gone})[key := value];
    } else if p == [] {
      RemovedBeside(doc, gone, q, key, value);
    } else if q == [] {
      SetBeside(doc, p, gone, key, value);
    } else {
      if p[0] == q[0] {
        assert (p + [gone])[0] == p[0] && (p + [gone])[1..] == p[1..] + [gone];
        assert (q + [key])[0] == q[0] && (q + [key])[1..] == q[1..] + [key];
        MembersCommute(Child(doc, p[0]).value, p[1..], gone, q[1..], key, value);
        MembersBelow(doc, p, gone, q, key, value);
      } else {
        MembersApart(doc, p, gone, q, key, value);
      }
    }
  }

  /** Both members lie below one child, in which they can be done in either order. */
  lemma {:induction false} MembersBelow(
    doc: Json, p: seq<string>, gone: string, q: seq<string>, key: string, value: Json)
    requires GetAt(doc, p).Ok? && GetAt(doc, p).value.Obj? && GetAt(doc, q).Ok? && GetAt(doc, q).value.Obj?
    requires p != [] && q != [] && p[0] == q[0]
    requires var child := Child(doc, p[0]).value;
             var removed, filled := WithoutMember(child, p[1..], gone), WithMember(child, q[1..], key, value);
             && GetAt(removed, q[1..]).Ok? && GetAt(removed, q[1..]).value.Obj?
             && GetAt(filled, p[1..]).Ok? && GetAt(filled, p[1..]).value.Obj?
             && (gone in GetAt(child, p[1..]).value.fields ==> gone in GetAt(filled, p[1..]).value.fields)
             && WithMember(removed, q[1..], key, value) == WithoutMember(filled, p[1..], gone)
    ensures var removed, filled := WithoutMember(doc, p, gone), WithMember(doc, q, key, value);
            && GetAt(removed, q).Ok? && GetAt(removed, q).value.Obj?
            && GetAt(filled, p).Ok? && GetAt(filled, p).value.Obj?
            && (gone in GetAt(doc, p).value.fields ==> gone in GetAt(filled, p).value.fields)
            && WithMember(removed, q, key, value) == WithoutMember(filled, p, gone)
  {
  }

  /** The two members lie below different children. */
  lemma {:induction false} MembersApart(
    doc: Json, p: seq<string>, gone: string, q: seq<string>, key: string, value: Json)
    requires GetAt(doc, p).Ok? && GetAt(doc, p).value.Obj? && GetAt(doc, q).Ok? && GetAt(doc, q).value.Obj?
    requires p != [] && q != [] && p[0] != q[0]
    ensures var removed, filled := WithoutMember(doc, p, gone), WithMember(doc, q, key, value);
            && GetAt(removed, q) == GetAt(doc, q) && GetAt(filled, p) == GetAt(doc, p)
            && WithMember(removed, q, key, value) == WithoutMember(filled, p, gone)
  {
    var less := WithoutMember(Child(doc, p[0]).value, p[1..], gone);
    var more := WithMember(Child(doc, q[0]).value, q[1..], key, value);
    ChildFrame(doc, p[0], q[0], less);
    ChildFrame(doc, q[0], p[0], more);
    WithChildCommutes(doc, p[0], less, q[0], more);
  }

  /** The member removed is one of the root, and the one set lies below another member of the root. */
  lemma {:induction false} RemovedBeside(doc: Json, gone: string, q: seq<string>, key: string, value: Json)
    requires doc.Obj? && q != [] && GetAt(doc, q).Ok? && GetAt(doc, q).value.Obj? && Diverge([gone], q + [key])
    ensures var removed, filled := WithoutMember(doc, [], gone), WithMember(doc, q, key, value);
            && GetAt(removed, q).Ok? && GetAt(removed, q).value.Obj?
            && filled.Obj? && (gone in doc.fields ==> gone in filled.fields)
            && WithMember(removed, q, key, value) == WithoutMember(filled, [], gone)
  {
    assert (q + [key])[0] == q[0] && !Diverge([gone][1..], (q + [key])[1..]);
    var more := WithMember(Child(doc, q[0]).value, q[1..], key, value);
    assert (doc.fields - {gone})[q[0] := more] == doc.fields[q[0] := more] - {gone};
  }

  lemma {:induction false} SetBeside(doc: Json, p: seq<string>, gone: string, key: string, value: Json)
    requires doc.Obj? && p != [] && GetAt(doc, p).Ok? && GetAt(doc, p).value.Obj? && Diverge(p + [gone], [key])
    ensures var removed, filled := WithoutMember(doc, p, gone), WithMember(doc, [], key, value);
            && removed.Obj?
            && GetAt(filled, p) == GetAt(doc, p)
            && WithMember(removed, [], key, value) == WithoutMember(filled, p, gone)
  {
    assert (p + [gone])[0] == p[0] && !Diverge((p + [gone])[1..], [key][1..]);
    var less := WithoutMember(Child(doc, p[0]).value, p[1..], gone);
    assert doc.fields[p[0] := less][key := value] == doc.fields[key := value][p[0] := less];
  }

  lemma {:induction false} RemovesMember(doc: Json, p: seq<string>, key: string)
    requires GetAt(doc, p).Ok? && GetAt(doc, p).value.Obj? && key in GetAt(doc, p).value.fields
    ensures Apply(doc, [RemoveOp(PointerOf(p + [key]))]) == Ok(WithoutMember(doc, p, key))
  {
    RemoveKey(doc, p, key);
    ApplySingle(doc, RemoveOp(PointerOf(p + [key])));
  }

  /** Between members that diverge, a move is the copy followed by the removal of the source. */
  lemma {:induction false} MoveIsCopyThenRemove(doc: Json, p: seq<string>, gone: string, q: seq<string>, key: string)
    requires GetAt(doc, p).Ok? && GetAt(doc, p).value.Obj? && gone in GetAt(doc, p).value.fields
    requires GetAt(doc, q).Ok? && GetAt(doc, q).value.Obj? && Diverge(p + [gone], q + [key])
    ensures var from, to := PointerOf(p + [gone]), PointerOf(q + [key]);
            && Apply(doc, [MoveOp(from, to)]).Ok?
            && Apply(doc, [MoveOp(from, to)]) == Apply(doc, [CopyOp(from, to), RemoveOp(from)])
  {
    var from, to := PointerOf(p + [gone]), PointerOf(q + [key]);
    var value := GetAt(doc, p).value.fields[gone];
    GetAppend(doc, p, [gone]);
    assert GetAt(value, []) == Ok(value) && [gone][1..] == [];
    assert GetAt(doc, p + [gone]) == Ok(value);
    MembersCommute(doc, p, gone, q, key, value);
    MoveIsRemoveThenAdd(doc, p + [gone], to);
    RemovesMember(doc, p, gone);
    ApplyAppend(doc, [RemoveOp(from)], [AddOp(to, value)]);
    assert [RemoveOp(from)] + [AddOp(to, value)] == [RemoveOp(from), AddOp(to, value)];
    AddsMember(WithoutMember(doc, p, gone), q, key, value);
    CopyIsAdd(doc, p + [gone], to);
    AddsMember(doc, q, key, value);
    ApplyAppend(doc, [CopyOp(from, to)], [RemoveOp(from)]);
    assert [CopyOp(from, to)] + [RemoveOp(from)] == [CopyOp(from, to), RemoveOp(from)];
    RemovesMember(WithMember(doc, q, key, value), p, gone);
  }
}
