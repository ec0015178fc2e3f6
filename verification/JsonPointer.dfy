/** JSON Pointer text (RFC 6901): escaping, splitting, joining and array indexes. */
module JsonPointer {
  import opened Wrappers
  import Decimal

  datatype Error =
    | InvalidPointer
    | MissingPath
    | NotAContainer
    | InvalidIndex
    | IndexOutOfBounds
    | RootRemoval
    | MissingValue
    | MissingFrom
    | TestFailed
    | BadArgument

  /** `s.replace(/c/g, text)` */
  function ReplaceChar(s: string, c: char, text: string): string {
    if s == "" then "" else (if s[0] == c then text else [s[0]]) + ReplaceChar(s[1..], c, text)
  }

  /** `s.replace(/ab/g, to)`, scanning left to right. */
  function ReplacePair(s: string, a: char, b: char, to: char): string {
    if |s| < 2 then s
    else if s[0] == a && s[1] == b then [to] + ReplacePair(s[2..], a, b, to)
    else [s[0]] + ReplacePair(s[1..], a, b, to)
  }

  function Escape(part: string): string {
    ReplaceChar(ReplaceChar(part, '~', "~0"), '/', "~1")
  }

  function Unescape(part: string): string {
    ReplacePair(ReplacePair(part, '~', '1', '/'), '~', '0', '~')
  }

  /** `s.split(sep)` for a one-character separator. */
  function Split(s: string, sep: char): (parts: seq<string>)
    ensures parts != []
  {
    if s == "" then [""]
    else
      var rest := Split(s[1..], sep);
      if s[0] == sep then [""] + rest else [[s[0]] + rest[0]] + rest[1..]
  }

  function UnescapeAll(parts: seq<string>): (r: seq<string>)
    ensures |r| == |parts|
  {
    if parts == [] then [] else [Unescape(parts[0])] + UnescapeAll(parts[1..])
  }

  function Parse(path: string): Result<seq<string>, Error> {
    if path == "" then Ok([])
    else if path[0] != '/' then Err(InvalidPointer)
    else Ok(UnescapeAll(Split(path[1..], '/')))
  }

  /** RFC 6901, section 3: the JSON Pointer text for `parts`. */
  function PointerOf(parts: seq<string>): string {
    if parts == [] then "" else "/" + Escape(parts[0]) + PointerOf(parts[1..])
  }

  /** `path.replace(/\/+$/, "")` */
  function StripSlashes(path: string): string {
    if path != "" && Last(path) == '/' then StripSlashes(Init(path)) else path
  }

  function NormalizedBase(basePath: string): string {
    if basePath == "" || basePath == "/" then "" else StripSlashes(basePath)
  }

  /** Whether `joinJSONPointer` accepts the base. */
  predicate IsBase(basePath: string) {
    var base := NormalizedBase(basePath);
    base == "" || base[0] == '/'
  }

  function Join(basePath: string, part: string): Result<string, Error> {
    if IsBase(basePath) then Ok(NormalizedBase(basePath) + "/" + Escape(part)) else Err(InvalidPointer)
  }

  function JoinParts(basePath: string, parts: seq<string>): Result<string, Error>
    decreases |parts|
  {
    if parts == [] then Ok(basePath)
    else
      var path :- JoinParts(basePath, Init(parts));
      Join(path, Last(parts))
  }

  /** What a join keeps of the parts before it: trailing slashes, hence trailing empty parts, are dropped. */
  function DropTrailingEmpty(parts: seq<string>): seq<string> {
    if parts != [] && Last(parts) == "" then DropTrailingEmpty(Init(parts)) else parts
  }

  /** Parts named by joining one more part to `PointerOf(parts)`. */
  function Extend(parts: seq<string>, part: string): (r: seq<string>)
    ensures r != [] && Last(r) == part
  {
    DropTrailingEmpty(parts) + [part]
  }

  predicate EndsNonEmpty(parts: seq<string>) {
    parts == [] || Last(parts) != ""
  }

  predicate NoEmptyInner(parts: seq<string>) {
    forall i :: 0 <= i < |parts| - 1 ==> parts[i] != ""
  }

  // ---------------------------------------------------------------- escaping

  lemma {:induction false} EscapeStep(part: string)
    requires part != ""
    ensures Escape(part) ==
            (if part[0] == '~' then "~0" else if part[0] == '/' then "~1" else [part[0]]) + Escape(part[1..])
  {
    var first := ReplaceChar(part, '~', "~0");
    var rest := ReplaceChar(part[1..], '~', "~0");
    if part[0] == '~' {
      assert first == ['~'] + (['0'] + rest);
      assert first[1..] == ['0'] + rest;
      assert (['0'] + rest)[1..] == rest;
      assert ReplaceChar(['0'] + rest, '/', "~1") == ['0'] + ReplaceChar(rest, '/', "~1");
    } else {
      assert first[1..] == rest;
    }
  }

  /** No escaped part holds a separator, and only the empty part escapes to the empty text. */
  lemma {:induction false} EscapeHasNoSlash(part: string)
    ensures '/' !in Escape(part)
    ensures Escape(part) == "" <==> part == ""
  {
    if part != "" {
      EscapeStep(part);
      EscapeHasNoSlash(part[1..]);
    }
  }

  /** `~1` is undone first, so what is left is the text with only its tildes still doubled. */
  lemma {:induction false} UnescapeSlashes(part: string)
    ensures ReplacePair(Escape(part), '~', '1', '/') == ReplaceChar(part, '~', "~0")
  {
    if part != "" {
      EscapeStep(part);
      UnescapeSlashes(part[1..]);
      var tail := Escape(part[1..]);
      if part[0] == '~' {
        assert Escape(part) == ['~'] + (['0'] + tail);
        assert (['0'] + tail)[1..] == tail;
        assert ReplacePair(['0'] + tail, '~', '1', '/') == ['0'] + ReplacePair(tail, '~', '1', '/');
      } else if part[0] == '/' {
        assert Escape(part) == "~1" + tail;
        assert Escape(part)[2..] == tail;
      } else {
        assert Escape(part)[1..] == tail;
        assert |Escape(part)| < 2 ==> tail == "";
      }
    }
  }

  lemma {:induction false} UnescapeTildes(part: string)
    ensures ReplacePair(ReplaceChar(part, '~', "~0"), '~', '0', '~') == part
  {
    if part != "" {
      UnescapeTildes(part[1..]);
      var tail := ReplaceChar(part[1..], '~', "~0");
      var s := ReplaceChar(part, '~', "~0");
      if part[0] == '~' {
        assert s[2..] == tail;
      } else {
        assert s[1..] == tail;
        assert |s| < 2 ==> tail == "";
      }
      assert part == [part[0]] + part[1..];
    }
  }

  lemma UnescapeEscape(part: string)
    ensures Unescape(Escape(part)) == part
  {
    UnescapeSlashes(part);
    UnescapeTildes(part);
  }

  // ---------------------------------------------------------------- parsing

  lemma {:induction false} SplitFirst(head: string, tail: string)
    requires '/' !in head
    ensures Split(head, '/') == [head]
    ensures Split(head + "/" + tail, '/') == [head] + Split(tail, '/')
  {
    var s := head + "/" + tail;
    if head == "" {
      assert s[1..] == tail;
    } else {
      SplitFirst(head[1..], tail);
      assert s[1..] == head[1..] + "/" + tail;
      assert head == [head[0]] + head[1..];
      assert '/' !in head[1..];
    }
  }

  lemma SplitPointerHead(part: string, tail: string)
    ensures UnescapeAll(Split(Escape(part), '/')) == [part]
    ensures UnescapeAll(Split(Escape(part) + "/" + tail, '/')) == [part] + UnescapeAll(Split(tail, '/'))
  {
    EscapeHasNoSlash(part);
    UnescapeEscape(part);
    SplitFirst(Escape(part), tail);
    var after := Split(tail, '/');
    assert ([Escape(part)] + after)[0] == Escape(part) && ([Escape(part)] + after)[1..] == after;
    assert UnescapeAll([Escape(part)][1..]) == [];
  }

  lemma {:induction false} PointerTail(parts: seq<string>)
    requires parts != []
    ensures |parts| == 1 ==> PointerOf(parts)[1..] == Escape(parts[0])
    ensures |parts| > 1 ==> PointerOf(parts)[1..] == Escape(parts[0]) + "/" + PointerOf(parts[1..])[1..]
  {
    var rest := PointerOf(parts[1..]);
    assert ("/" + Escape(parts[0]) + rest)[1..] == Escape(parts[0]) + rest;
    if |parts| > 1 {
      SlashBetween(Escape(parts[0]), rest);
    }
  }

  lemma SlashBetween(head: string, rest: string)
    requires rest != "" && rest[0] == '/'
    ensures head + rest == head + "/" + rest[1..]
  {
  }

  lemma {:induction false} SplitPointer(parts: seq<string>)
    requires parts != []
    ensures UnescapeAll(Split(PointerOf(parts)[1..], '/')) == parts
  {
    PointerTail(parts);
    if |parts| == 1 {
      SplitPointerHead(parts[0], "");
    } else {
      SplitPointerHead(parts[0], PointerOf(parts[1..])[1..]);
      SplitPointer(parts[1..]);
    }
  }

  /** RFC 6901, sections 3 and 4: parsing undoes escaping and joining, for all parts, empty ones included. */
  lemma ParsePointerOf(parts: seq<string>)
    ensures Parse(PointerOf(parts)) == Ok(parts)
  {
    if parts != [] {
      SplitPointer(parts);
    }
  }

  lemma PointerOfInjective(p: seq<string>, q: seq<string>)
    requires PointerOf(p) == PointerOf(q)
    ensures p == q
  {
    ParsePointerOf(p);
    ParsePointerOf(q);
  }

  // ---------------------------------------------------------------- joining

  lemma {:induction false} PointerOfSnoc(parts: seq<string>, part: string)
    ensures PointerOf(parts + [part]) == PointerOf(parts) + "/" + Escape(part)
  {
    if parts == [] {
      assert PointerOf([part]) == "/" + Escape(part) + PointerOf([]);
    } else {
      assert (parts + [part])[1..] == parts[1..] + [part];
      PointerOfSnoc(parts[1..], part);
    }
  }

  lemma {:induction false} StripPointer(parts: seq<string>)
    ensures StripSlashes(PointerOf(parts)) == PointerOf(DropTrailingEmpty(parts))
    decreases |parts|
  {
    if parts != [] {
      var init, part := Init(parts), Last(parts);
      assert parts == init + [part];
      PointerOfSnoc(init, part);
      EscapeHasNoSlash(part);
      if part == "" {
        assert Escape(part) == "";
        assert Init(PointerOf(parts)) == PointerOf(init);
        StripPointer(init);
      } else {
        assert Last(PointerOf(parts)) == Last(Escape(part));
      }
    }
  }

  lemma NormalizedBaseOfPointer(parts: seq<string>)
    ensures NormalizedBase(PointerOf(parts)) == PointerOf(DropTrailingEmpty(parts))
    ensures IsBase(PointerOf(parts))
  {
    StripPointer(parts);
    assert PointerOf(parts) == "/" ==> StripSlashes("/") == "";
  }

  lemma PointerIsBase(parts: seq<string>)
    ensures IsBase(PointerOf(parts))
  {
    NormalizedBaseOfPointer(parts);
  }

  /** Joining onto any pointer names the parts without their trailing empty ones, then the new part. */
  lemma JoinExtends(parts: seq<string>, part: string)
    ensures Join(PointerOf(parts), part) == Ok(PointerOf(Extend(parts, part)))
  {
    NormalizedBaseOfPointer(parts);
    PointerOfSnoc(DropTrailingEmpty(parts), part);
  }

  /** A join appends exactly its part if and only if the base does not end in an empty part. */
  lemma JoinAppendsIff(parts: seq<string>, part: string)
    ensures Join(PointerOf(parts), part) == Ok(PointerOf(parts + [part])) <==> EndsNonEmpty(parts)
  {
    JoinExtends(parts, part);
    if !EndsNonEmpty(parts) {
      DropTrailingEmptyShortens(parts);
      if PointerOf(Extend(parts, part)) == PointerOf(parts + [part]) {
        PointerOfInjective(Extend(parts, part), parts + [part]);
        assert false;
      }
    }
  }

  lemma {:induction false} DropTrailingEmptyShortens(parts: seq<string>)
    ensures |DropTrailingEmpty(parts)| <= |parts|
    ensures !EndsNonEmpty(parts) ==> |DropTrailingEmpty(parts)| < |parts|
    ensures EndsNonEmpty(DropTrailingEmpty(parts))
    ensures DropTrailingEmpty(parts) == parts[..|DropTrailingEmpty(parts)|]
    decreases |parts|
  {
    if !EndsNonEmpty(parts) {
      DropTrailingEmptyShortens(Init(parts));
    }
  }

  /** Parts that survive a chain of joins. */
  function Collapse(parts: seq<string>): seq<string>
    decreases |parts|
  {
    if parts == [] then [] else Extend(Collapse(Init(parts)), Last(parts))
  }

  lemma {:induction false} JoinPartsCollapses(parts: seq<string>)
    ensures JoinParts("", parts) == Ok(PointerOf(Collapse(parts)))
    decreases |parts|
  {
    if parts != [] {
      JoinPartsCollapses(Init(parts));
      JoinExtends(Collapse(Init(parts)), Last(parts));
    }
  }

  lemma {:induction false} CollapseNoLonger(parts: seq<string>)
    ensures |Collapse(parts)| <= |parts|
    decreases |parts|
  {
    if parts != [] {
      CollapseNoLonger(Init(parts));
      DropTrailingEmptyShortens(Collapse(Init(parts)));
    }
  }

  lemma {:induction false} CollapseKeeps(parts: seq<string>)
    requires NoEmptyInner(parts)
    ensures Collapse(parts) == parts
    decreases |parts|
  {
    if parts != [] {
      var init := Init(parts);
      assert forall i :: 0 <= i < |init| ==> init[i] == parts[i];
      CollapseKeeps(init);
      assert DropTrailingEmpty(init) == init;
      assert parts == init + [Last(parts)];
    }
  }

  lemma {:induction false} CollapseLoses(parts: seq<string>)
    requires Collapse(parts) == parts
    ensures NoEmptyInner(parts)
    decreases |parts|
  {
    if parts != [] {
      var init := Init(parts);
      DropTrailingEmptyShortens(Collapse(init));
      CollapseNoLonger(init);
      assert DropTrailingEmpty(Collapse(init)) == init by {
        assert parts == init + [Last(parts)];
      }
      assert |Collapse(init)| == |init|;
      CollapseLoses(init);
      assert forall i :: 0 <= i < |init| ==> parts[i] == init[i];
    }
  }

  lemma CollapseKeepsIff(parts: seq<string>)
    ensures Collapse(parts) == parts <==> NoEmptyInner(parts)
  {
    if NoEmptyInner(parts) {
      CollapseKeeps(parts);
    }
    if Collapse(parts) == parts {
      CollapseLoses(parts);
    }
  }

  /** The builder's pointers read back as their parts exactly when no part but the last is empty. */
  lemma JoinPartsRoundTripIff(parts: seq<string>)
    ensures JoinParts("", parts).Ok?
    ensures Parse(JoinParts("", parts).value) == Ok(parts) <==> NoEmptyInner(parts)
  {
    JoinPartsCollapses(parts);
    ParsePointerOf(Collapse(parts));
    CollapseKeepsIff(parts);
  }

  // ---------------------------------------------------------------- array indexes

  /** `parsePatchArrayIndex`: canonical decimal, at most `length` (`allowEnd`) or `length - 1`. */
  function ParseIndex(part: string, length: nat, allowEnd: bool): (r: Result<nat, Error>)
    ensures r.Ok? ==> r.value < length || (allowEnd && r.value == length)
  {
    if !Decimal.IsCanonical(part) then Err(InvalidIndex)
    else
      var index := Decimal.Value(part);
      if index < length || (allowEnd && index == length) then Ok(index) else Err(IndexOutOfBounds)
  }

  /** The index parser inverts decimal printing, inside the bounds and only there. */
  lemma ParseIndexOfPrinted(n: nat, length: nat, allowEnd: bool)
    ensures ParseIndex(Decimal.FromNat(n), length, allowEnd) ==
            if n < length || (allowEnd && n == length) then Ok(n) else Err(IndexOutOfBounds)
  {
  }

  /** Two accepted index texts denote the same index only if they are the same text. */
  lemma ParseIndexInjective(p: string, q: string, length: nat)
    requires ParseIndex(p, length, false).Ok? && ParseIndex(q, length, false).Ok?
    requires ParseIndex(p, length, false).value == ParseIndex(q, length, false).value
    ensures p == q
  {
    Decimal.CanonicalInjective(p, q);
  }
}
