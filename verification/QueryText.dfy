/** The query printers of the client: `roomQuery` and `threadQuery`. */
module QueryText {
  import opened Wrappers
  import opened QueryTokens
  import JsonPointer
  import JsonString
  import Decimal

  /** The two query languages. They differ only in their fields that are not metadata. */
  datatype Dialect = Rooms | Threads

  const MAX_SAFE_INTEGER: int := 9007199254740991

  /** Numbers are safe integers here: they print in decimal and read back as the same float64. */
  type SafeInteger = n: int | -MAX_SAFE_INTEGER <= n <= MAX_SAFE_INTEGER

  datatype Value = Text(s: string) | Number(n: SafeInteger) | Truth(b: bool) | Nothing | Exists

  /** One entry of the clauses record; `None` is an undefined value, which is skipped. */
  datatype Entry = Entry(field: string, value: Option<Value>)

  predicate IsKeyChar(c: char) {
    'a' <= c <= 'z' || 'A' <= c <= 'Z' || '0' <= c <= '9' || c == '_' || c == '-'
  }

  /** `/^[A-Za-z0-9_-]{1,64}$/` */
  predicate IsPathKey(key: string) {
    1 <= |key| <= 64 && forall i | 0 <= i < |key| :: IsKeyChar(key[i])
  }

  predicate IsPath(path: seq<string>) {
    1 <= |path| <= 8 && forall i | 0 <= i < |path| :: IsPathKey(path[i])
  }

  predicate IsFlag(field: string) {
    field == "resolved" || field == "unread"
  }

  /** `String.prototype.trim` leaves nothing. */
  predicate IsBlank(s: string) {
    forall i | 0 <= i < |s| :: IsScriptSpace(s[i])
  }

  predicate IsScriptSpace(c: char) {
    var code := c as int;
    9 <= code <= 13 || code == 32 || code == 0xA0 || code == 0x1680 || 0x2000 <= code <= 0x200A
    || code == 0x2028 || code == 0x2029 || code == 0x202F || code == 0x205F || code == 0x3000 || code == 0xFEFF
  }

  predicate HasPrefix(s: string, prefix: string) {
    |prefix| <= |s| && s[..|prefix|] == prefix
  }

  const METADATA: string := "metadata."

  /** `normalizeRoomQueryField` and `normalizeThreadQueryField` */
  function NormalizeField(dialect: Dialect, field: string, value: Value): Result<string, QueryError> {
    if dialect.Rooms? && field == "id" then (if value.Exists? then Err(BadField) else Ok(field))
    else if dialect.Threads? && IsFlag(field) then (if value.Truth? then Ok(field) else Err(BadField))
    else if !HasPrefix(field, METADATA) then Err(BadField)
    else if IsPath(JsonPointer.Split(field[|METADATA|..], '.')) then Ok(field)
    else Err(BadField)
  }

  function FromInt(n: int): string {
    if n < 0 then "-" + Decimal.FromNat(-n) else Decimal.FromNat(n)
  }

  /** `formatRoomQueryValue` and `formatThreadQueryValue` */
  function FormatValue(dialect: Dialect, field: string, value: Value): Result<string, QueryError> {
    if value.Exists? then Ok("*")
    else if dialect.Rooms? && field == "id" && (!value.Text? || IsBlank(value.s)) then Err(BadValue)
    else
      match value
      case Text(s) => Ok(JsonString.Quote(s))
      case Number(n) => Ok(FromInt(n))
      case Truth(b) => Ok(if b then "true" else "false")
      case _ => Ok("null")
  }

  function Part(dialect: Dialect, field: string, value: Value): Result<string, QueryError> {
    var name :- NormalizeField(dialect, field, value);
    var text :- FormatValue(dialect, field, value);
    Ok(name + ":" + text)
  }

  function Parts(dialect: Dialect, clauses: seq<Entry>): Result<seq<string>, QueryError>
    decreases |clauses|
  {
    if clauses == [] then Ok([])
    else if clauses[0].value.None? then Parts(dialect, clauses[1..])
    else
      var part :- Part(dialect, clauses[0].field, clauses[0].value.value);
      var rest :- Parts(dialect, clauses[1..]);
      Ok([part] + rest)
  }

  const MAX_CLAUSES: nat := 20

  function QueryOf(dialect: Dialect, clauses: seq<Entry>): Result<string, QueryError> {
    var parts :- Parts(dialect, clauses);
    if |parts| > MAX_CLAUSES then Err(TooManyClauses) else Ok(JoinSpace(parts))
  }

  lemma PartsNext(dialect: Dialect, clauses: seq<Entry>, i: nat, parts: seq<string>)
    requires i < |clauses|
    ensures clauses[i].value.None? ==> Parts(dialect, clauses[i..]) == Parts(dialect, clauses[i + 1..])
    ensures clauses[i].value.Some? ==>
              Prepend(parts, Parts(dialect, clauses[i..]))
              == var part := Part(dialect, clauses[i].field, clauses[i].value.value);
                 if part.Ok? then Prepend(parts + [part.value], Parts(dialect, clauses[i + 1..])) else Err(part.error)
  {
    assert clauses[i..][0] == clauses[i] && clauses[i..][1..] == clauses[i + 1..];
    var rest := Parts(dialect, clauses[i + 1..]);
    if clauses[i].value.Some? && Part(dialect, clauses[i].field, clauses[i].value.value).Ok? && rest.Ok? {
      var part := Part(dialect, clauses[i].field, clauses[i].value.value).value;
      assert parts + ([part] + rest.value) == parts + [part] + rest.value;
    }
  }

  /** `roomQuery` and `threadQuery`: a loop that pushes one part per clause and throws at the first bad one. */
  method PrintQuery(dialect: Dialect, clauses: seq<Entry>) returns (r: Result<string, QueryError>)
    ensures r == QueryOf(dialect, clauses)
  {
    var parts: seq<string> := [];
    assert clauses[0..] == clauses;
    assert Parts(dialect, clauses).Ok? ==> [] + Parts(dialect, clauses).value == Parts(dialect, clauses).value;
    for i := 0 to |clauses|
      invariant Parts(dialect, clauses) == Prepend(parts, Parts(dialect, clauses[i..]))
    {
      PartsNext(dialect, clauses, i, parts);
      var entry := clauses[i];
      if entry.value.None? {
        continue;
      }
      var part := Part(dialect, entry.field, entry.value.value);
      if part.Err? {
        return Err(part.error);
      }
      parts := parts + [part.value];
    }
    assert Parts(dialect, clauses) == Ok(parts + []) && parts + [] == parts;
    if |parts| > MAX_CLAUSES {
      return Err(TooManyClauses);
    }
    return Ok(JoinSpace(parts));
  }
}
