/** What the client prints, the server reads: every query, its clauses and no others. */
module QueryRoundTrip {
  import opened Wrappers
  import opened QueryTokens
  import opened QueryText
  import opened QueryParser
  import JsonPointer
  import JsonString
  import Decimal

  // ---------------------------------------------------------------- meaning

  function ScalarOf(value: Value): Scalar
    requires !value.Exists?
  {
    match value
    case Text(s) => StringScalar(s)
    case Number(n) => NumberScalar(n)
    case Truth(b) => BoolScalar(b)
    case Nothing => NilScalar
  }

  /** The clause an entry is meant as. */
  function ClauseOf(dialect: Dialect, field: string, value: Value): Clause
    requires Part(dialect, field, value).Ok?
  {
    if dialect.Rooms? && field == "id" then IdContains(value.s)
    else if dialect.Threads? && IsFlag(field) then Flag(field, value.b)
    else
      var path := JsonPointer.Split(field[|METADATA|..], '.');
      if value.Exists? then MetadataExists(path) else MetadataEquals(path, ScalarOf(value))
  }

  function Meaning(dialect: Dialect, clauses: seq<Entry>): seq<Clause>
    requires Parts(dialect, clauses).Ok?
    decreases |clauses|
  {
    if clauses == [] then []
    else if clauses[0].value.None? then Meaning(dialect, clauses[1..])
    else [ClauseOf(dialect, clauses[0].field, clauses[0].value.value)] + Meaning(dialect, clauses[1..])
  }

  // ---------------------------------------------------------------- printed parts are balanced tokens

  /** Characters that mean nothing to the splitter. */
  predicate IsPlain(s: string) {
    forall i | 0 <= i < |s| :: !IsSpace(s[i]) && s[i] != '"' && s[i] != '\\'
  }

  lemma {:induction false} PlainIsRead(s: string)
    requires IsPlain(s)
    ensures TokenLength(s, START) == |s| && After(s, START) == START
  {
    if s != "" {
      assert IsPlain(s[1..]) by {
        assert forall i :: 0 <= i < |s[1..]| ==> s[1..][i] == s[i + 1];
      }
      PlainIsRead(s[1..]);
    }
  }

  const QUOTED: Lexer := Lexer(true, false)

  lemma {:induction false} UnquotedCharsAreRead(s: string)
    requires '"' !in s && '\\' !in s
    ensures TokenLength(s, QUOTED) == |s| && After(s, QUOTED) == QUOTED
  {
    if s != "" {
      UnquotedCharsAreRead(s[1..]);
    }
  }

  lemma EscapePairIsRead(c: char)
    ensures TokenLength(['\\', c], QUOTED) == 2 && After(['\\', c], QUOTED) == QUOTED
  {
    var escaped := Lexer(true, true);
    assert ['\\', c][1..] == [c] && [c][1..] == "";
    assert Next(QUOTED, '\\') == escaped && Next(escaped, c) == QUOTED;
    assert TokenLength([c], escaped) == 1 && After([c], escaped) == QUOTED;
  }

  lemma EscapedCharIsRead(c: char)
    ensures var e := JsonString.EscapeChar(c);
            TokenLength(e, QUOTED) == |e| && After(e, QUOTED) == QUOTED
  {
    var e := JsonString.EscapeChar(c);
    if |e| == 1 {
      UnquotedCharsAreRead(e);
    } else {
      assert e == ['\\', e[1]] + e[2..];
      EscapePairIsRead(e[1]);
      UnquotedCharsAreRead(e[2..]);
      TokenOfPrefix(['\\', e[1]], e[2..], QUOTED);
    }
  }

  lemma {:induction false} EscapedTextIsRead(s: string)
    ensures var e := JsonString.EscapeText(s);
            TokenLength(e, QUOTED) == |e| && After(e, QUOTED) == QUOTED
  {
    if s != "" {
      EscapedCharIsRead(s[0]);
      EscapedTextIsRead(s[1..]);
      TokenOfPrefix(JsonString.EscapeChar(s[0]), JsonString.EscapeText(s[1..]), QUOTED);
    }
  }

  lemma {:induction false} QuoteIsRead()
    ensures TokenLength("\"", START) == 1 && After("\"", START) == QUOTED
    ensures TokenLength("\"", QUOTED) == 1 && After("\"", QUOTED) == START
  {
    var quote := "\"";
    assert quote[0] == '"' && quote[1..] == "";
    assert Next(START, '"') == QUOTED && Next(QUOTED, '"') == START;
  }

  lemma {:induction false} QuotedIsRead(s: string)
    ensures TokenLength(JsonString.Quote(s), START) == |JsonString.Quote(s)|
    ensures After(JsonString.Quote(s), START) == START
  {
    var e := JsonString.EscapeText(s);
    EscapedTextIsRead(s);
    QuoteIsRead();
    TokenOfPrefix(e, "\"", QUOTED);
    TokenOfPrefix("\"", e + "\"", START);
    assert JsonString.Quote(s) == "\"" + (e + "\"");
  }

  lemma FromIntIsPlain(n: int)
    ensures IsPlain(FromInt(n)) && FromInt(n) != "" && Decimal.IsDigit(Last(FromInt(n)))
    ensures IsIntegerText(FromInt(n)) && IntegerValue(FromInt(n)) == n
    ensures FromInt(n)[0] == '-' || Decimal.IsDigit(FromInt(n)[0])
  {
    if n < 0 {
      var digits := Decimal.FromNat(-n);
      assert FromInt(n)[1..] == digits;
      assert forall i :: 1 <= i < |FromInt(n)| ==> FromInt(n)[i] == digits[i - 1];
    }
  }

  lemma ValueIsRead(dialect: Dialect, field: string, value: Value)
    requires FormatValue(dialect, field, value).Ok?
    ensures var text := FormatValue(dialect, field, value).value;
            text != "" && TokenLength(text, START) == |text| && After(text, START) == START && !IsTrimmed(Last(text))
  {
    match value {
      case Text(s) => QuotedIsRead(s);
      case Number(n) =>
        FromIntIsPlain(n);
        PlainIsRead(FromInt(n));
      case Truth(b) => PlainIsRead(if b then "true" else "false");
      case Nothing => PlainIsRead("null");
      case Exists => PlainIsRead("*");
    }
  }

  // ---------------------------------------------------------------- fields

  lemma {:induction false} SplitPartsPlain(s: string)
    requires forall i :: 0 <= i < |JsonPointer.Split(s, '.')| ==> IsPathKey(JsonPointer.Split(s, '.')[i])
    ensures forall i :: 0 <= i < |s| ==> IsKeyChar(s[i]) || s[i] == '.'
  {
    SplitKeeps(s);
  }

  predicate KeyChars(s: string) {
    forall i | 0 <= i < |s| :: IsKeyChar(s[i])
  }

  /** Splitting at dots loses no other character. */
  lemma {:induction false} SplitKeeps(s: string)
    requires forall i :: 0 <= i < |JsonPointer.Split(s, '.')| ==> KeyChars(JsonPointer.Split(s, '.')[i])
    ensures forall i :: 0 <= i < |s| ==> IsKeyChar(s[i]) || s[i] == '.'
  {
    if s != "" {
      var parts, rest := JsonPointer.Split(s, '.'), JsonPointer.Split(s[1..], '.');
      if s[0] == '.' {
        assert forall i :: 0 <= i < |rest| ==> rest[i] == parts[i + 1];
      } else {
        assert parts[0] == [s[0]] + rest[0];
        assert IsKeyChar(parts[0][0]);
        forall i | 0 <= i < |rest| ensures KeyChars(rest[i]) {
          if i == 0 {
            assert forall k :: 0 <= k < |rest[0]| ==> rest[0][k] == parts[0][k + 1];
          } else {
            assert rest[i] == parts[i];
          }
        }
      }
      SplitKeeps(s[1..]);
      assert forall i :: 1 <= i < |s| ==> s[i] == s[1..][i - 1];
    }
  }

  lemma FieldIsPlain(dialect: Dialect, field: string, value: Value)
    requires NormalizeField(dialect, field, value).Ok?
    ensures IsPlain(field) && ':' !in field && field != "" && !IsTrimmed(field[0])
  {
    if HasPrefix(field, METADATA) {
      var rest := field[|METADATA|..];
      SplitPartsPlain(rest);
      assert field == METADATA + rest;
      forall i | 0 <= i < |field| ensures IsKeyChar(field[i]) || field[i] == '.' {
        if i >= |METADATA| {
          assert field[i] == rest[i - |METADATA|];
        } else {
          assert field[i] == METADATA[i];
        }
      }
      assert field[0] == METADATA[0];
    }
  }

  // ---------------------------------------------------------------- one part

  lemma IndexOfFirst(head: string, c: char, tail: string)
    requires c !in head
    ensures IndexOf(head + [c] + tail, c) == |head|
  {
    assert (head + [c] + tail)[|head|] == c;
  }

  lemma PartIsRead(dialect: Dialect, field: string, value: Value)
    requires Part(dialect, field, value).Ok?
    ensures var part := Part(dialect, field, value).value;
            Balanced(part) && !IsTrimmed(part[0]) && !IsTrimmed(Last(part))
  {
    var text := FormatValue(dialect, field, value).value;
    FieldIsPlain(dialect, field, value);
    ValueIsRead(dialect, field, value);
    var head := field + ":";
    assert IsPlain(head);
    PlainIsRead(head);
    TokenOfPrefix(head, text, START);
  }

  lemma {:induction false} NumberReadsBack(n: SafeInteger)
    ensures ParseScalar(FromInt(n)) == Ok(NumberScalar(n)) && FromInt(n) != "*"
  {
    FromIntIsPlain(n);
    assert FromInt(n)[0] != 't' && FromInt(n)[0] != 'f' && FromInt(n)[0] != 'n';
  }

  lemma {:induction false} ScalarReadsBack(value: Value)
    requires !value.Exists?
    ensures var text := FormatValue(Threads, "", value).value;
            ParseScalar(text) == Ok(ScalarOf(value)) && text != "*"
  {
    match value {
      case Text(s) => JsonString.UnquoteQuote(s);
      case Number(n) => NumberReadsBack(n);
      case Truth(b) =>
      case Nothing =>
    }
  }

  lemma IdReadsBack(s: string)
    requires !IsBlank(s)
    ensures ParseIdValue(JsonString.Quote(s)) == Ok(s)
  {
    JsonString.UnquoteQuote(s);
  }

  lemma {:induction false} PartReadsBack(dialect: Dialect, field: string, value: Value)
    requires Part(dialect, field, value).Ok?
    ensures ParseClause(dialect, Part(dialect, field, value).value) == Ok(ClauseOf(dialect, field, value))
  {
    var text := FormatValue(dialect, field, value).value;
    var part := field + ":" + text;
    FieldIsPlain(dialect, field, value);
    ValueIsRead(dialect, field, value);
    assert part == field + [':'] + text;
    IndexOfFirst(field, ':', text);
    assert part[..|field|] == field && part[|field| + 1..] == text;
    if dialect.Rooms? && field == "id" {
      IdReadsBack(value.s);
    } else if !value.Exists? {
      ScalarReadsBack(value);
      assert text == FormatValue(Threads, "", value).value;
    }
  }

  // ---------------------------------------------------------------- the query

  lemma {:induction false} PartsReadBack(dialect: Dialect, clauses: seq<Entry>)
    requires Parts(dialect, clauses).Ok?
    ensures var parts := Parts(dialect, clauses).value;
            && ParseClauses(dialect, parts) == Ok(Meaning(dialect, clauses))
            && |parts| == |Meaning(dialect, clauses)|
            && forall t :: t in parts ==> Balanced(t) && !IsTrimmed(t[0]) && !IsTrimmed(Last(t))
    decreases |clauses|
  {
    if clauses != [] {
      PartsReadBack(dialect, clauses[1..]);
      if clauses[0].value.Some? {
        var field, value := clauses[0].field, clauses[0].value.value;
        PartIsRead(dialect, field, value);
        PartReadsBack(dialect, field, value);
        var rest := Parts(dialect, clauses[1..]).value;
        assert ([Part(dialect, field, value).value] + rest)[1..] == rest;
      }
    }
  }

  lemma {:induction false} JoinedIsTrimmed(parts: seq<string>)
    requires parts != [] && forall t :: t in parts ==> t != "" && !IsTrimmed(t[0]) && !IsTrimmed(Last(t))
    ensures JoinSpace(parts) != "" && !IsTrimmed(JoinSpace(parts)[0]) && !IsTrimmed(Last(JoinSpace(parts)))
  {
    assert parts[0] in parts;
    if |parts| > 1 {
      assert forall t :: t in parts[1..] ==> t in parts;
      JoinedIsTrimmed(parts[1..]);
    }
  }

  /**
    The round trip between the two languages. A query the client prints is read by the server as exactly its clauses,
    in order, if and only if it fits the byte limit, which the client does not check; else it is refused as too long.
   */
  lemma ServerReadsClientQuery(dialect: Dialect, clauses: seq<Entry>)
    requires QueryOf(dialect, clauses).Ok?
    ensures var text := QueryOf(dialect, clauses).value;
            ParseQuery(dialect, text)
            == if ByteLength(text) <= MAX_QUERY_BYTES then Ok(Meaning(dialect, clauses)) else Err(TooLong)
  {
    PartsReadBack(dialect, clauses);
    var parts := Parts(dialect, clauses).value;
    if parts != [] {
      JoinedIsTrimmed(parts);
      SplitJoin(parts);
    }
  }

  // ---------------------------------------------------------------- queries too long for the server

  lemma {:induction false} BytesAtLeastLength(s: string)
    ensures ByteLength(s) >= |s|
  {
    if s != "" {
      BytesAtLeastLength(s[1..]);
    }
  }

  lemma {:induction false} EscapedNoShorter(s: string)
    ensures |JsonString.EscapeText(s)| >= |s|
  {
    if s != "" {
      EscapedNoShorter(s[1..]);
    }
  }

  /** The client prints a search for a long id, and the server refuses it. */
  lemma LongIdIsRefused(id: string)
    requires !IsBlank(id) && |id| >= 1020
    ensures var clauses := [Entry("id", Some(Text(id)))];
            QueryOf(Rooms, clauses).Ok? && ParseQuery(Rooms, QueryOf(Rooms, clauses).value) == Err(TooLong)
  {
    var clauses := [Entry("id", Some(Text(id)))];
    var part := "id" + ":" + JsonString.Quote(id);
    assert Part(Rooms, "id", Text(id)) == Ok(part);
    assert clauses[1..] == [] && Parts(Rooms, []) == Ok([]) && [part] + [] == [part];
    assert Parts(Rooms, clauses) == Ok([part]);
    EscapedNoShorter(id);
    BytesAtLeastLength(part);
    ServerReadsClientQuery(Rooms, clauses);
  }

  const LONG_ID: string := seq(1020, _ => 'x')

  lemma LongQueryExample()
    ensures var text := QueryOf(Rooms, [Entry("id", Some(Text(LONG_ID)))]);
            text.Ok? && ParseQuery(Rooms, text.value) == Err(TooLong)
  {
    assert LONG_ID[0] == 'x' && |LONG_ID| == 1020;
    LongIdIsRefused(LONG_ID);
  }
}
