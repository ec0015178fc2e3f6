/** The query parsers of the server: `parseRoomListQuery` and `parseThreadListQuery`. */
module QueryParser {
  import opened Wrappers
  import opened QueryTokens
  import opened QueryText
  import JsonPointer
  import JsonString
  import Decimal

  /** A parsed scalar. Unquoted text that is no plain integer is left as it is, a number or a string to the server. */
  datatype Scalar =
    | StringScalar(s: string)
    | NumberScalar(n: int)
    | BoolScalar(b: bool)
    | NilScalar
    | BareScalar(raw: string)

  datatype Clause =
    | IdContains(id: string)
    | Flag(field: string, value: bool)
    | MetadataExists(path: seq<string>)
    | MetadataEquals(path: seq<string>, scalar: Scalar)

  const MAX_QUERY_BYTES: nat := 1024

  /** Bytes of a character in UTF-8. */
  function CharBytes(c: char): nat {
    if c as int < 0x80 then 1 else if c as int < 0x800 then 2 else if c as int < 0x10000 then 3 else 4
  }

  /** `len(raw)` in the server's language. */
  function ByteLength(s: string): nat {
    if s == "" then 0 else CharBytes(s[0]) + ByteLength(s[1..])
  }

  /** Unicode White_Space, as `strings.TrimSpace` trims it. */
  predicate IsTrimmed(c: char) {
    var code := c as int;
    9 <= code <= 13 || code == 32 || code == 0x85 || code == 0xA0 || code == 0x1680 || 0x2000 <= code <= 0x200A
    || code == 0x2028 || code == 0x2029 || code == 0x202F || code == 0x205F || code == 0x3000
  }

  function TrimLeft(s: string): string {
    if s != "" && IsTrimmed(s[0]) then TrimLeft(s[1..]) else s
  }

  function TrimRight(s: string): string
    decreases |s|
  {
    if s != "" && IsTrimmed(Last(s)) then TrimRight(Init(s)) else s
  }

  function TrimSpace(s: string): string {
    TrimRight(TrimLeft(s))
  }

  /** Where `c` first occurs, or the length of the text. */
  function IndexOf(s: string, c: char): (i: nat)
    ensures i <= |s|
    ensures i < |s| ==> s[i] == c
    ensures c !in s[..i]
  {
    if s == "" || s[0] == c then 0 else 1 + IndexOf(s[1..], c)
  }

  /** Where the two-character `pair` first occurs, or the length of the text. */
  function IndexOfPair(s: string, a: char, b: char): (i: nat)
    ensures i <= |s|
    ensures i < |s| ==> i + 1 < |s| && s[i] == a && s[i + 1] == b
  {
    if s == "" then 0
    else if |s| >= 2 && s[0] == a && s[1] == b then 0
    else 1 + IndexOfPair(s[1..], a, b)
  }

  predicate StartsWith(s: string, c: char) {
    s != "" && s[0] == c
  }

  /** Decimal integer text, with an optional sign. */
  predicate IsIntegerText(s: string) {
    var digits := if StartsWith(s, '-') || StartsWith(s, '+') then s[1..] else s;
    digits != "" && Decimal.AllDigits(digits)
  }

  function IntegerValue(s: string): int
    requires IsIntegerText(s)
  {
    if StartsWith(s, '-') then -(Decimal.Value(s[1..]) as int)
    else if StartsWith(s, '+') then Decimal.Value(s[1..]) else Decimal.Value(s)
  }

  /** `parseRoomQueryScalarValue` */
  function ParseScalar(raw: string): Result<Scalar, QueryError> {
    if StartsWith(raw, '"') then
      match JsonString.Unquote(raw)
      case Some(s) => Ok(StringScalar(s))
      case None => Err(BadValue)
    else if raw == "true" then Ok(BoolScalar(true))
    else if raw == "false" then Ok(BoolScalar(false))
    else if raw == "null" then Ok(NilScalar)
    else if StartsWith(raw, '{') || StartsWith(raw, '[') then Err(BadValue)
    else if IsIntegerText(raw) && -MAX_SAFE_INTEGER <= IntegerValue(raw) <= MAX_SAFE_INTEGER then
      Ok(NumberScalar(IntegerValue(raw)))
    else Ok(BareScalar(raw))
  }

  /** `parseRoomQueryStringValue` */
  function ParseIdValue(raw: string): Result<string, QueryError> {
    if raw == "*" then Err(BadValue)
    else if StartsWith(raw, '"') then
      match JsonString.Unquote(raw)
      case Some(s) => if s == "" then Err(BadValue) else Ok(s)
      case None => Err(BadValue)
    else Ok(raw)
  }

  /** `validateRoomQueryMetadataPath` */
  function ValidPath(path: seq<string>): Result<seq<string>, QueryError> {
    if IsPath(path) then Ok(path) else Err(BadPath)
  }

  /** `parseRoomQueryBracketPath`, after the leading `metadata`. */
  function BracketPath(rest: string): Result<seq<string>, QueryError>
    decreases |rest|
  {
    if rest == "" then Ok([])
    else if !HasPrefix(rest, "[\"") then Err(BadPath)
    else
      var inner := rest[2..];
      var end := IndexOfPair(inner, '"', ']');
      if end == |inner| then Err(BadPath)
      else
        var more :- BracketPath(inner[end + 2..]);
        Ok([inner[..end]] + more)
  }

  /** `parseRoomQueryMetadataPath` and `parseThreadQueryMetadataPath` */
  function MetadataPath(field: string): Result<seq<string>, QueryError> {
    if HasPrefix(field, METADATA) then ValidPath(JsonPointer.Split(field[|METADATA|..], '.'))
    else if HasPrefix(field, "metadata[") then
      var path :- BracketPath(field[8..]);
      ValidPath(path)
    else Err(BadPath)
  }

  /** `parseRoomListQueryClause` and `parseThreadListQueryClause` */
  function ParseClause(dialect: Dialect, raw: string): Result<Clause, QueryError> {
    var colon := IndexOf(raw, ':');
    if colon == |raw| || colon == 0 || colon + 1 == |raw| then Err(BadClause)
    else
      var field, value := raw[..colon], raw[colon + 1..];
      if dialect.Rooms? && field == "id" then
        var id :- ParseIdValue(value);
        Ok(IdContains(id))
      else if dialect.Threads? && IsFlag(field) then
        if value == "*" then Err(BadValue)
        else
          var scalar :- ParseScalar(value);
          if scalar.BoolScalar? then Ok(Flag(field, scalar.b)) else Err(BadValue)
      else
        var path :- MetadataPath(field);
        if value == "*" then Ok(MetadataExists(path))
        else
          var scalar :- ParseScalar(value);
          Ok(MetadataEquals(path, scalar))
  }

  function ParseClauses(dialect: Dialect, parts: seq<string>): Result<seq<Clause>, QueryError>
    decreases |parts|
  {
    if parts == [] then Ok([])
    else
      var clause :- ParseClause(dialect, parts[0]);
      var rest :- ParseClauses(dialect, parts[1..]);
      Ok([clause] + rest)
  }

  function ParseQuery(dialect: Dialect, text: string): Result<seq<Clause>, QueryError> {
    var raw := TrimSpace(text);
    if raw == "" then Ok([])
    else if ByteLength(raw) > MAX_QUERY_BYTES then Err(TooLong)
    else
      var parts :- Split(raw);
      if |parts| > MAX_CLAUSES then Err(TooManyClauses) else ParseClauses(dialect, parts)
  }

  lemma ClausesNext(dialect: Dialect, parts: seq<string>, i: nat, clauses: seq<Clause>)
    requires i < |parts|
    ensures Joined(clauses, ParseClauses(dialect, parts[i..]))
         == var clause := ParseClause(dialect, parts[i]);
            if clause.Ok? then Joined(clauses + [clause.value], ParseClauses(dialect, parts[i + 1..]))
            else Err(clause.error)
  {
    assert parts[i..][0] == parts[i] && parts[i..][1..] == parts[i + 1..];
    var clause, rest := ParseClause(dialect, parts[i]), ParseClauses(dialect, parts[i + 1..]);
    if clause.Ok? && rest.Ok? {
      assert clauses + ([clause.value] + rest.value) == clauses + [clause.value] + rest.value;
    }
  }

  /** The parser itself: splits, then appends one clause per part until one is refused. */
  method ParseListQuery(dialect: Dialect, text: string) returns (r: Result<seq<Clause>, QueryError>)
    ensures r == ParseQuery(dialect, text)
  {
    var raw := TrimSpace(text);
    if raw == "" {
      return Ok([]);
    }
    if ByteLength(raw) > MAX_QUERY_BYTES {
      return Err(TooLong);
    }
    var split := SplitRoomListQuery(raw);
    if split.Err? {
      return Err(split.error);
    }
    var parts := split.value;
    if |parts| > MAX_CLAUSES {
      return Err(TooManyClauses);
    }
    r := ParseParts(dialect, parts);
  }

  method ParseParts(dialect: Dialect, parts: seq<string>) returns (r: Result<seq<Clause>, QueryError>)
    ensures r == ParseClauses(dialect, parts)
  {
    var clauses: seq<Clause> := [];
    assert parts[0..] == parts;
    assert ParseClauses(dialect, parts).Ok? ==>
        [] + ParseClauses(dialect, parts).value == ParseClauses(dialect, parts).value;
    for i := 0 to |parts|
      invariant ParseClauses(dialect, parts) == Joined(clauses, ParseClauses(dialect, parts[i..]))
    {
      ClausesNext(dialect, parts, i, clauses);
      var clause := ParseClause(dialect, parts[i]);
      if clause.Err? {
        return Err(clause.error);
      }
      clauses := clauses + [clause.value];
    }
    assert clauses + [] == clauses;
    return Ok(clauses);
  }

  function Joined(clauses: seq<Clause>, rest: Result<seq<Clause>, QueryError>): Result<seq<Clause>, QueryError> {
    if rest.Ok? then Ok(clauses + rest.value) else rest
  }
}
