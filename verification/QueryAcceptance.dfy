/** Exactly which texts the server's query parsers accept, and as what. */
module QueryAcceptance {
  import opened Wrappers
  import opened QueryTokens
  import opened QueryText
  import opened QueryParser
  import opened QueryRoundTrip
  import JsonPointer
  import JsonString
  import Decimal

  // ---------------------------------------------------------------- trimming

  predicate AllTrimmed(s: string) {
    forall i | 0 <= i < |s| :: IsTrimmed(s[i])
  }

  lemma {:induction false} TrimLeftIs(s: string) returns (left: string)
    ensures s == left + TrimLeft(s) && AllTrimmed(left)
    ensures TrimLeft(s) != "" ==> !IsTrimmed(TrimLeft(s)[0])
  {
    if s != "" && IsTrimmed(s[0]) {
      var more := TrimLeftIs(s[1..]);
      left := [s[0]] + more;
      assert s == [s[0]] + s[1..];
    } else {
      left := "";
    }
  }

  lemma {:induction false} TrimRightIs(s: string) returns (right: string)
    ensures s == TrimRight(s) + right && AllTrimmed(right)
    ensures TrimRight(s) != "" ==> !IsTrimmed(Last(TrimRight(s)))
    decreases |s|
  {
    if s != "" && IsTrimmed(Last(s)) {
      var more := TrimRightIs(Init(s));
      right := more + [Last(s)];
      assert s == Init(s) + [Last(s)];
    } else {
      right := "";
    }
  }

  /** What is trimmed is white space at both ends, and all of it. */
  lemma {:induction false} TrimSpaceIs(s: string) returns (left: string, right: string)
    ensures s == left + TrimSpace(s) + right && AllTrimmed(left) && AllTrimmed(right)
    ensures TrimSpace(s) != "" ==> !IsTrimmed(TrimSpace(s)[0]) && !IsTrimmed(Last(TrimSpace(s)))
  {
    left := TrimLeftIs(s);
    right := TrimRightIs(TrimLeft(s));
    if TrimSpace(s) != "" {
      assert TrimLeft(s)[0] == TrimSpace(s)[0];
    }
  }

  // ---------------------------------------------------------------- whole queries

  /** Each part is read as the clause at its place. */
  ghost predicate ReadsAs(dialect: Dialect, parts: seq<string>, clauses: seq<Clause>) {
    |parts| == |clauses| && forall i :: 0 <= i < |parts| ==> ParseClause(dialect, parts[i]) == Ok(clauses[i])
  }

  lemma {:induction false} ClausesIff(dialect: Dialect, parts: seq<string>, clauses: seq<Clause>)
    ensures ParseClauses(dialect, parts) == Ok(clauses) <==> ReadsAs(dialect, parts, clauses)
    decreases |parts|
  {
    if parts != [] {
      if clauses != [] {
        ClausesIff(dialect, parts[1..], clauses[1..]);
        assert clauses == [clauses[0]] + clauses[1..];
        if ReadsAs(dialect, parts, clauses) {
          assert forall i :: 0 <= i < |parts| - 1 ==>
                   parts[1..][i] == parts[i + 1] && clauses[1..][i] == clauses[i + 1];
        }
        if ReadsAs(dialect, parts[1..], clauses[1..]) && ParseClause(dialect, parts[0]) == Ok(clauses[0]) {
          forall i | 0 <= i < |parts| ensures ParseClause(dialect, parts[i]) == Ok(clauses[i]) {
            if i > 0 {
              assert parts[i] == parts[1..][i - 1] && clauses[i] == clauses[1..][i - 1];
            }
          }
        }
      }
    }
  }

  /** The error of a list of clauses is that of the first one refused. */
  lemma {:induction false} ErrorIsFirst(dialect: Dialect, parts: seq<string>, i: nat)
    requires i < |parts| && ParseClause(dialect, parts[i]).Err?
    requires forall j :: 0 <= j < i ==> ParseClause(dialect, parts[j]).Ok?
    ensures ParseClauses(dialect, parts) == Err(ParseClause(dialect, parts[i]).error)
    decreases i
  {
    if i > 0 {
      assert ParseClause(dialect, parts[0]).Ok?;
      assert forall j :: 0 <= j < i - 1 ==> parts[1..][j] == parts[j + 1];
      ErrorIsFirst(dialect, parts[1..], i - 1);
    }
  }

  /**
    A query is accepted as these clauses if and only if it is blank and there are none, or it has at most 1024 bytes and
    is at most 20 tokens, each of which is read as the clause at its place.
   */
  lemma {:induction false} AcceptedIff(dialect: Dialect, text: string, clauses: seq<Clause>)
    ensures ParseQuery(dialect, text) == Ok(clauses)
       <==> if TrimSpace(text) == "" then clauses == []
            else && ByteLength(TrimSpace(text)) <= 1024
                 && 1 <= |clauses| <= 20
                 && exists parts :: Reads(TrimSpace(text), parts) && ReadsAs(dialect, parts, clauses)
  {
    var raw := TrimSpace(text);
    if raw != "" {
      if Tokens(raw).Ok? {
        var parts := Tokens(raw).value;
        TokensIff(raw, parts);
        ClausesIff(dialect, parts, clauses);
      }
      forall parts | Reads(raw, parts) ensures Tokens(raw) == Ok(parts) {
        TokensIff(raw, parts);
      }
    }
  }

  // ---------------------------------------------------------------- one clause

  /** A clause needs a field and a value, with the first colon between them. */
  lemma {:induction false} ClauseNeedsBoth(dialect: Dialect, raw: string)
    ensures ':' !in raw || raw[0] == ':' || IndexOf(raw, ':') == |raw| - 1 ==>
              ParseClause(dialect, raw) == Err(BadClause)
  {
    if ':' in raw {
      assert raw == raw[..IndexOf(raw, ':')] + raw[IndexOf(raw, ':')..];
    }
  }

  /** What an accepted clause may be. */
  predicate WellFormed(dialect: Dialect, clause: Clause) {
    match clause
    case IdContains(id) => dialect.Rooms? && id != ""
    case Flag(field, _) => dialect.Threads? && (field == "resolved" || field == "unread")
    case MetadataExists(path) => IsPath(path)
    case MetadataEquals(path, _) => IsPath(path)
  }

  lemma {:induction false} AcceptedClauseIsWellFormed(dialect: Dialect, raw: string)
    requires ParseClause(dialect, raw).Ok?
    ensures WellFormed(dialect, ParseClause(dialect, raw).value)
  {
  }

  /** A wildcard asks for a metadata key to exist; it is refused for ids and flags. */
  lemma {:induction false} WildcardIs(dialect: Dialect, field: string)
    requires ':' !in field && field != ""
    ensures dialect.Rooms? && field == "id" ==> ParseClause(dialect, field + ":*").Err?
    ensures dialect.Threads? && (field == "resolved" || field == "unread") ==> ParseClause(dialect, field + ":*").Err?
    ensures MetadataPath(field).Ok? && field != "id" && field != "resolved" && field != "unread" ==>
              ParseClause(dialect, field + ":*") == Ok(MetadataExists(MetadataPath(field).value))
  {
    IndexOfFirst(field, ':', "*");
    var raw := field + ":*";
    assert raw == field + [':'] + "*" && raw[..|field|] == field && raw[|field| + 1..] == "*";
  }

  // ---------------------------------------------------------------- metadata paths

  function Bracketed(path: seq<string>): string {
    if path == [] then "" else "[\"" + path[0] + "\"]" + Bracketed(path[1..])
  }

  predicate KeyText(s: string) {
    forall i | 0 <= i < |s| :: IsKeyChar(s[i])
  }

  lemma {:induction false} PairAfterKey(key: string, rest: string)
    requires KeyText(key)
    ensures IndexOfPair(key + "\"]" + rest, '"', ']') == |key|
  {
    var s := key + "\"]" + rest;
    if key != "" {
      assert IsKeyChar(key[0]) && s[0] == key[0];
      assert s[1..] == key[1..] + "\"]" + rest;
      assert forall i :: 0 <= i < |key[1..]| ==> key[1..][i] == key[i + 1];
      PairAfterKey(key[1..], rest);
    }
  }

  lemma {:induction false} BracketsRead(path: seq<string>)
    requires forall i :: 0 <= i < |path| ==> KeyText(path[i])
    ensures BracketPath(Bracketed(path)) == Ok(path)
    decreases |path|
  {
    if path != [] {
      var key, rest := path[0], path[1..];
      var s := Bracketed(path);
      var inner := key + "\"]" + Bracketed(rest);
      BracketedCons(key, rest);
      assert path == [key] + rest;
      assert s == "[\"" + inner && s[..2] == "[\"" && s[2..] == inner;
      PairAfterKey(key, Bracketed(rest));
      assert inner[..|key|] == key && inner[|key| + 2..] == Bracketed(rest);
      BracketsRead(rest);
    }
  }

  lemma {:induction false} OneBracketBack(inner: string, end: nat, more: string)
    requires end + 2 <= |inner| && inner[end] == '"' && inner[end + 1] == ']' && inner[end + 2..] == more
    ensures inner == inner[..end] + "\"]" + more
  {
  }

  lemma {:induction false} BracketsAreRead(rest: string)
    requires BracketPath(rest).Ok?
    ensures rest == Bracketed(BracketPath(rest).value)
    decreases |rest|
  {
    if rest != "" {
      var inner := rest[2..];
      var end := IndexOfPair(inner, '"', ']');
      BracketsAreRead(inner[end + 2..]);
      OneBracketBack(inner, end, inner[end + 2..]);
      BracketedCons(inner[..end], BracketPath(inner[end + 2..]).value);
      assert rest == "[\"" + inner;
    }
  }

  lemma {:induction false} BracketedCons(key: string, path: seq<string>)
    ensures Bracketed([key] + path) == "[\"" + (key + "\"]" + Bracketed(path))
  {
    assert ([key] + path)[0] == key && ([key] + path)[1..] == path;
  }

  function DotJoined(path: seq<string>): string
    requires path != []
    decreases |path|
  {
    if |path| == 1 then path[0] else path[0] + "." + DotJoined(path[1..])
  }

  lemma {:induction false} SplitAtDot(key: string, rest: string)
    requires KeyText(key)
    ensures JsonPointer.Split(key, '.') == [key]
    ensures JsonPointer.Split(key + "." + rest, '.') == [key] + JsonPointer.Split(rest, '.')
  {
    var s := key + "." + rest;
    if key == "" {
      assert s[1..] == rest;
    } else {
      assert IsKeyChar(key[0]);
      assert forall i :: 0 <= i < |key[1..]| ==> key[1..][i] == key[i + 1];
      SplitAtDot(key[1..], rest);
      assert s[1..] == key[1..] + "." + rest && key == [key[0]] + key[1..];
    }
  }

  lemma {:induction false} DotsRead(path: seq<string>)
    requires path != [] && forall i :: 0 <= i < |path| ==> KeyText(path[i])
    ensures JsonPointer.Split(DotJoined(path), '.') == path
    decreases |path|
  {
    if |path| == 1 {
      SplitAtDot(path[0], "");
    } else {
      DotsRead(path[1..]);
      SplitAtDot(path[0], DotJoined(path[1..]));
    }
  }

  lemma {:induction false} DotsAreRead(s: string)
    ensures s == DotJoined(JsonPointer.Split(s, '.'))
  {
    if s != "" {
      var rest := JsonPointer.Split(s[1..], '.');
      DotsAreRead(s[1..]);
      assert s == [s[0]] + s[1..];
      if s[0] == '.' {
        assert ([""] + rest)[1..] == rest;
        assert "" + "." + DotJoined(rest) == "." + DotJoined(rest);
      } else {
        FirstCharJoins(s[0], rest);
      }
    }
  }

  lemma {:induction false} FirstCharJoins(c: char, rest: seq<string>)
    requires rest != []
    ensures DotJoined([[c] + rest[0]] + rest[1..]) == [c] + DotJoined(rest)
  {
    var parts := [[c] + rest[0]] + rest[1..];
    if |rest| > 1 {
      assert parts[1..] == rest[1..];
      assert [c] + rest[0] + "." + DotJoined(rest[1..]) == [c] + (rest[0] + "." + DotJoined(rest[1..]));
    }
  }

  lemma KeysAreText(path: seq<string>)
    requires IsPath(path)
    ensures forall i :: 0 <= i < |path| ==> KeyText(path[i])
  {
    forall i | 0 <= i < |path| ensures KeyText(path[i]) {
      assert IsPathKey(path[i]);
    }
  }

  /** Both spellings of a path are read as it. */
  lemma {:induction false} SpellingsAreRead(path: seq<string>)
    requires IsPath(path)
    ensures MetadataPath("metadata." + DotJoined(path)) == Ok(path)
    ensures MetadataPath("metadata" + Bracketed(path)) == Ok(path)
  {
    KeysAreText(path);
    DotsRead(path);
    BracketsRead(path);
    var dotted, bracketed := "metadata." + DotJoined(path), "metadata" + Bracketed(path);
    assert dotted[..9] == METADATA && dotted[9..] == DotJoined(path);
    assert bracketed[8..] == Bracketed(path) && bracketed[8] == '[' && bracketed[..9] == "metadata[";
    assert METADATA[8] == '.';
  }

  /** And no other field is. */
  lemma {:induction false} ReadPathsAreSpelled(field: string)
    requires MetadataPath(field).Ok?
    ensures var path := MetadataPath(field).value;
            && IsPath(path)
            && (field == "metadata." + DotJoined(path) || field == "metadata" + Bracketed(path))
  {
    if HasPrefix(field, METADATA) {
      DotsAreRead(field[9..]);
      assert field == field[..9] + field[9..];
    } else {
      BracketsAreRead(field[8..]);
      assert field[..8] == field[..9][..8] == "metadata";
      assert field == field[..8] + field[8..];
    }
  }

  /** A field names a metadata path if and only if it spells it with dots or with brackets. */
  lemma MetadataPathIff(field: string, path: seq<string>)
    requires IsPath(path)
    ensures MetadataPath(field) == Ok(path)
       <==> field == "metadata." + DotJoined(path) || field == "metadata" + Bracketed(path)
  {
    SpellingsAreRead(path);
    if MetadataPath(field) == Ok(path) {
      ReadPathsAreSpelled(field);
    }
  }

  // ---------------------------------------------------------------- scalars

  /** What unquoted text is read as; objects and lists are refused. */
  lemma {:induction false} UnquotedScalars(n: nat)
    ensures ParseScalar("true") == Ok(BoolScalar(true)) && ParseScalar("false") == Ok(BoolScalar(false))
    ensures ParseScalar("null") == Ok(NilScalar)
    ensures n <= MAX_SAFE_INTEGER ==> ParseScalar("+" + Decimal.FromNat(n)) == Ok(NumberScalar(n))
  {
    var digits := Decimal.FromNat(n);
    var s := "+" + digits;
    assert s[0] == '+' && s[1..] == digits && digits != "" && Decimal.AllDigits(digits);
    assert !StartsWith(s, '"') && !StartsWith(s, '{') && !StartsWith(s, '[');
    assert s != "true" && s != "false" && s != "null" by {
      assert "true"[0] == 't' && "false"[0] == 'f' && "null"[0] == 'n';
    }
  }

  lemma {:induction false} CompositesAreRefused(s: string)
    ensures ParseScalar("{" + s) == Err(BadValue) && ParseScalar("[" + s) == Err(BadValue)
  {
    assert ("{" + s)[0] == '{' && ("[" + s)[0] == '[';
    assert "true"[0] == 't' && "false"[0] == 'f' && "null"[0] == 'n';
  }
}
