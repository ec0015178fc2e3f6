/** JSON trees, and the one child step that pointers, patches and diffs share. */
module Json {
  import opened Wrappers
  import opened JsonPointer

  datatype Json =
    | Null
    | Bool(b: bool)
    | Num(n: int)
    | Str(s: string)
    | Arr(items: seq<Json>)
    | Obj(fields: map<string, Json>)
  {
    predicate IsContainer() {
      Arr? || Obj?
    }
  }

  /** One step of `getPatchValue`. */
  function Child(node: Json, part: string): (r: Result<Json, Error>)
    ensures r.Ok? ==> r.value < node
  {
    match node
    case Arr(items) =>
      var index :- ParseIndex(part, |items|, false);
      Ok(items[index])
    case Obj(fields) => if part in fields then Ok(fields[part]) else Err(MissingPath)
    case _ => Err(MissingPath)
  }

  /** The container with an existing child replaced. */
  function WithChild(node: Json, part: string, child: Json): (r: Json)
    requires Child(node, part).Ok?
    ensures Child(r, part) == Ok(child)
  {
    match node
    case Arr(items) => Arr(items[ParseIndex(part, |items|, false).value := child])
    case Obj(fields) => Obj(fields[part := child])
  }

  /** The value `parts` names, as `getPatchValue` finds it. */
  function GetAt(doc: Json, parts: seq<string>): Result<Json, Error>
    decreases |parts|
  {
    if parts == [] then Ok(doc)
    else
      var child :- Child(doc, parts[0]);
      GetAt(child, parts[1..])
  }

  /** The tree after the node at `parts` has been changed to `node`. */
  function PutAt(doc: Json, parts: seq<string>, node: Json): Json
    requires GetAt(doc, parts).Ok?
    decreases |parts|
  {
    if parts == [] then node
    else WithChild(doc, parts[0], PutAt(Child(doc, parts[0]).value, parts[1..], node))
  }

  /** Two locations neither of which contains the other. */
  predicate Diverge(p: seq<string>, q: seq<string>)
    decreases |p|
  {
    p != [] && q != [] && (p[0] != q[0] || Diverge(p[1..], q[1..]))
  }

  // ---------------------------------------------------------------- laws of the tree

  lemma ChildFrame(node: Json, p: string, q: string, child: Json)
    requires Child(node, p).Ok? && p != q
    ensures Child(WithChild(node, p, child), q) == Child(node, q)
  {
    if node.Arr? && Child(node, q).Ok? &&
       ParseIndex(p, |node.items|, false).value == ParseIndex(q, |node.items|, false).value {
      ParseIndexInjective(p, q, |node.items|);
    }
  }

  lemma {:induction false} GetAppend(doc: Json, p: seq<string>, q: seq<string>)
    ensures GetAt(doc, p + q) == if GetAt(doc, p).Ok? then GetAt(GetAt(doc, p).value, q) else GetAt(doc, p)
    decreases |p|
  {
    if p == [] {
      assert p + q == q;
    } else {
      assert (p + q)[1..] == p[1..] + q;
      if Child(doc, p[0]).Ok? {
        GetAppend(Child(doc, p[0]).value, p[1..], q);
      }
    }
  }

  lemma {:induction false} GetPut(doc: Json, p: seq<string>, node: Json)
    requires GetAt(doc, p).Ok?
    ensures GetAt(PutAt(doc, p, node), p) == Ok(node)
    decreases |p|
  {
    if p != [] {
      GetPut(Child(doc, p[0]).value, p[1..], node);
    }
  }

  lemma {:induction false} PutGet(doc: Json, p: seq<string>)
    requires GetAt(doc, p).Ok?
    ensures PutAt(doc, p, GetAt(doc, p).value) == doc
    decreases |p|
  {
    if p != [] {
      PutGet(Child(doc, p[0]).value, p[1..]);
    }
  }

  lemma {:induction false} PutPut(doc: Json, p: seq<string>, first: Json, second: Json)
    requires GetAt(doc, p).Ok?
    ensures GetAt(PutAt(doc, p, first), p).Ok?
    ensures PutAt(PutAt(doc, p, first), p, second) == PutAt(doc, p, second)
    decreases |p|
  {
    GetPut(doc, p, first);
    if p != [] {
      var child := Child(doc, p[0]).value;
      PutPut(child, p[1..], first, second);
      WithChildTwice(doc, p[0], PutAt(child, p[1..], first), PutAt(child, p[1..], second));
    }
  }

  lemma WithChildTwice(node: Json, p: string, first: Json, second: Json)
    requires Child(node, p).Ok?
    ensures WithChild(WithChild(node, p, first), p, second) == WithChild(node, p, second)
  {
  }

  lemma {:induction false} PutAppend(doc: Json, p: seq<string>, q: seq<string>, node: Json)
    requires GetAt(doc, p + q).Ok?
    ensures GetAt(doc, p).Ok? && GetAt(GetAt(doc, p).value, q).Ok?
    ensures PutAt(doc, p + q, node) == PutAt(doc, p, PutAt(GetAt(doc, p).value, q, node))
    decreases |p|
  {
    GetAppend(doc, p, q);
    if p == [] {
      assert p + q == q;
    } else {
      assert (p + q)[1..] == p[1..] + q;
      PutAppend(Child(doc, p[0]).value, p[1..], q, node);
    }
  }

  /** Changing one location leaves every location outside it as it was. */
  lemma {:induction false} PutFrame(doc: Json, p: seq<string>, node: Json, q: seq<string>)
    requires GetAt(doc, p).Ok? && Diverge(p, q)
    ensures GetAt(PutAt(doc, p, node), q) == GetAt(doc, q)
    decreases |p|
  {
    if p[0] == q[0] {
      PutFrame(Child(doc, p[0]).value, p[1..], node, q[1..]);
    } else {
      ChildFrame(doc, p[0], q[0], PutAt(Child(doc, p[0]).value, p[1..], node));
    }
  }

  lemma {:induction false} DivergeAt(p: seq<string>, q: seq<string>, i: nat)
    requires i < |p| && i < |q| && p[..i] == q[..i] && p[i] != q[i]
    ensures Diverge(p, q)
    decreases i
  {
    if i > 0 {
      assert p[0] == p[..i][0] == q[..i][0] == q[0];
      assert p[1..][..i - 1] == p[..i][1..] == q[..i][1..] == q[1..][..i - 1];
      DivergeAt(p[1..], q[1..], i - 1);
    }
  }
}
