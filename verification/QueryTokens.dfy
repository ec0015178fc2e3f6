/** The query splitter of the server: a quote and escape automaton over the text. */
module QueryTokens {
  import opened Wrappers

  datatype QueryError = BadField | BadValue | TooLong | TooManyClauses | Unterminated | NoClause | BadClause | BadPath

  predicate IsSpace(c: char) {
    c == ' ' || c == '\t' || c == '\n' || c == '\r'
  }

  datatype Lexer = Lexer(inQuote: bool, escaped: bool)

  const START: Lexer := Lexer(false, false)

  function Next(q: Lexer, c: char): Lexer {
    if q.escaped then q.(escaped := false)
    else if c == '\\' && q.inQuote then q.(escaped := true)
    else if c == '"' then q.(inQuote := !q.inQuote)
    else q
  }

  /** White space that is neither quoted nor escaped ends a token. */
  predicate Ends(q: Lexer, c: char) {
    IsSpace(c) && !q.inQuote && !q.escaped
  }

  /** How much of `s` belongs to a token read in state `q`. */
  function TokenLength(s: string, q: Lexer): (n: nat)
    ensures n <= |s|
  {
    if s == "" || Ends(q, s[0]) then 0 else 1 + TokenLength(s[1..], Next(q, s[0]))
  }

  function After(s: string, q: Lexer): Lexer {
    if s == "" then q else After(s[1..], Next(q, s[0]))
  }

  /** The tokens of a text, one after another: skip white space, take a token, go on. */
  function Tokens(s: string): Result<seq<string>, QueryError>
    decreases |s|
  {
    if s == "" then Ok([])
    else if IsSpace(s[0]) then Tokens(s[1..])
    else
      var n := TokenLength(s, START);
      if n == |s| then (if After(s, START) == START then Ok([s]) else Err(Unterminated))
      else
        var rest :- Tokens(s[n..]);
        Ok([s[..n]] + rest)
  }

  function Split(raw: string): Result<seq<string>, QueryError> {
    var parts :- Tokens(raw);
    if parts == [] then Err(NoClause) else Ok(parts)
  }

  function Prepend(parts: seq<string>, rest: Result<seq<string>, QueryError>): Result<seq<string>, QueryError> {
    if rest.Ok? then Ok(parts + rest.value) else rest
  }

  // ---------------------------------------------------------------- what the splitter accepts

  /** A text read as one token: not empty, no white space outside quotes, every quote closed. */
  predicate Balanced(t: string) {
    t != "" && TokenLength(t, START) == |t| && After(t, START) == START
  }

  predicate AllSpace(s: string) {
    forall i | 0 <= i < |s| :: IsSpace(s[i])
  }

  /** `s` is the given tokens in order, each balanced, with nothing but white space around and between them. */
  ghost predicate Reads(s: string, parts: seq<string>)
    decreases |parts|
  {
    if parts == [] then AllSpace(s)
    else exists gap: nat :: ReadsAfter(s, gap, parts)
  }

  ghost predicate ReadsAfter(s: string, gap: nat, parts: seq<string>)
    requires parts != []
    decreases |parts|, 0
  {
    var end := gap + |parts[0]|;
    && end <= |s| && AllSpace(s[..gap]) && s[gap..end] == parts[0] && Balanced(parts[0])
    && (end == |s| || IsSpace(s[end]))
    && Reads(s[end..], parts[1..])
  }

  lemma {:induction false} TokenOfPrefix(t: string, rest: string, q: Lexer)
    requires TokenLength(t, q) == |t|
    ensures TokenLength(t + rest, q) == |t| + TokenLength(rest, After(t, q))
    ensures After(t + rest, q) == After(rest, After(t, q))
  {
    if t == "" {
      assert t + rest == rest;
    } else {
      assert (t + rest)[1..] == t[1..] + rest;
      TokenOfPrefix(t[1..], rest, Next(q, t[0]));
    }
  }

  /** A token that stops before the end of the text stops at unquoted white space, with every quote closed. */
  lemma {:induction false} TokenStopsAtSpace(s: string, q: Lexer)
    ensures var n := TokenLength(s, q);
            && TokenLength(s[..n], q) == n
            && (n < |s| ==> IsSpace(s[n]) && After(s[..n], q) == START)
  {
    var n := TokenLength(s, q);
    if s != "" && !Ends(q, s[0]) {
      TokenStopsAtSpace(s[1..], Next(q, s[0]));
      assert s[..n][1..] == s[1..][..n - 1];
    }
  }

  lemma {:induction false} SkipGap(s: string, gap: nat)
    requires gap <= |s| && AllSpace(s[..gap])
    ensures Tokens(s) == Tokens(s[gap..])
    decreases gap
  {
    if gap > 0 {
      assert IsSpace(s[..gap][0]);
      assert s[1..][..gap - 1] == s[..gap][1..];
      SkipGap(s[1..], gap - 1);
      assert s[1..][gap - 1..] == s[gap..];
    } else {
      assert s[0..] == s;
    }
  }

  lemma {:induction false} BalancedStart(t: string)
    requires Balanced(t)
    ensures !IsSpace(t[0])
  {
  }

  /** A balanced token followed by white space is the first token of the text. */
  lemma {:induction false} TokensOfFirst(t: string, tail: string)
    requires Balanced(t) && tail != "" && IsSpace(tail[0])
    ensures Tokens(t + tail) == Prepend([t], Tokens(tail)) == Prepend([t], Tokens(tail[1..]))
  {
    var s := t + tail;
    BalancedStart(t);
    TokenOfPrefix(t, tail, START);
    assert Ends(START, tail[0]);
    assert s[..|t|] == t && s[|t|..] == tail && s[0] == t[0];
  }

  lemma {:induction false} TokensOfOnly(t: string)
    requires Balanced(t)
    ensures Tokens(t) == Ok([t])
  {
    BalancedStart(t);
  }

  /** A balanced token, then nothing or white space and further tokens. */
  lemma {:induction false} TokensOfMore(t: string, tail: string, rest: seq<string>)
    requires Balanced(t) && (tail == "" || IsSpace(tail[0])) && Tokens(tail) == Ok(rest)
    ensures Tokens(t + tail) == Ok([t] + rest)
  {
    if tail == "" {
      TokensOfOnly(t);
      assert t + tail == t && [t] + rest == [t];
    } else {
      TokensOfFirst(t, tail);
    }
  }

  /** Completeness: a text that reads as these tokens is split into them. */
  lemma {:induction false} ReadsAreTokens(s: string, parts: seq<string>)
    requires Reads(s, parts)
    ensures Tokens(s) == Ok(parts)
    decreases |parts|
  {
    if parts == [] {
      SkipGap(s, |s|);
    } else {
      var gap: nat :| ReadsAfter(s, gap, parts);
      var t, end := parts[0], gap + |parts[0]|;
      ReadsAreTokens(s[end..], parts[1..]);
      TokensOfMore(t, s[end..], parts[1..]);
      assert s[gap..] == t + s[end..];
      SkipGap(s, gap);
      assert parts == [t] + parts[1..];
    }
  }

  /** Soundness: an accepted text is its tokens, in order, with only white space outside them. */
  lemma {:induction false} TokensRead(s: string)
    requires Tokens(s).Ok?
    ensures Reads(s, Tokens(s).value)
    decreases |s|
  {
    if s == "" {
    } else if IsSpace(s[0]) {
      TokensRead(s[1..]);
      ReadsWithSpace(s, Tokens(s).value);
    } else {
      var n := TokenLength(s, START);
      TokenStopsAtSpace(s, START);
      assert s[0..n] == s[..n];
      if n == |s| {
        assert s[..n] == s;
        assert ReadsAfter(s, 0, [s]);
      } else {
        TokensRead(s[n..]);
        var rest := Tokens(s[n..]).value;
        assert ([s[..n]] + rest)[1..] == rest;
        assert ReadsAfter(s, 0, [s[..n]] + rest);
      }
    }
  }

  lemma ReadsWithSpace(s: string, parts: seq<string>)
    requires s != "" && IsSpace(s[0]) && Reads(s[1..], parts)
    ensures Reads(s, parts)
  {
    if parts == [] {
      assert forall i :: 1 <= i < |s| ==> s[i] == s[1..][i - 1];
    } else {
      var gap: nat :| ReadsAfter(s[1..], gap, parts);
      var end := gap + |parts[0]|;
      assert s[1..][gap..end] == s[gap + 1..end + 1];
      assert s[1..][end..] == s[end + 1..];
      assert s[..gap + 1] == [s[0]] + s[1..][..gap];
      assert ReadsAfter(s, gap + 1, parts);
    }
  }

  /** The splitter accepts a text with these tokens exactly when the text reads as them. */
  lemma TokensIff(s: string, parts: seq<string>)
    ensures Tokens(s) == Ok(parts) <==> Reads(s, parts)
  {
    if Tokens(s) == Ok(parts) {
      TokensRead(s);
    }
    if Reads(s, parts) {
      ReadsAreTokens(s, parts);
    }
  }

  function JoinSpace(parts: seq<string>): string {
    if parts == [] then "" else if |parts| == 1 then parts[0] else parts[0] + " " + JoinSpace(parts[1..])
  }

  lemma {:induction false} TokensAfterSpace(s: string)
    ensures Tokens(" " + s) == Tokens(s)
  {
    assert (" " + s)[1..] == s;
  }

  lemma {:induction false} JoinSpaceOfMore(t: string, rest: seq<string>)
    ensures rest == [] ==> JoinSpace([t] + rest) == t
    ensures rest != [] ==> JoinSpace([t] + rest) == t + (" " + JoinSpace(rest))
  {
    assert ([t] + rest)[0] == t && ([t] + rest)[1..] == rest;
    assert t + " " + JoinSpace(rest) == t + (" " + JoinSpace(rest));
  }

  lemma {:induction false} TokensOfJoin(parts: seq<string>)
    requires forall t :: t in parts ==> Balanced(t)
    ensures Tokens(JoinSpace(parts)) == Ok(parts)
    decreases |parts|
  {
    if parts != [] {
      var t, rest := parts[0], parts[1..];
      assert parts == [t] + rest && t in parts && forall u :: u in rest ==> u in parts;
      JoinSpaceOfMore(t, rest);
      if rest == [] {
        TokensOfOnly(t);
        assert parts == [t];
      } else {
        TokensOfJoin(rest);
        TokensAfterSpace(JoinSpace(rest));
        TokensOfMore(t, " " + JoinSpace(rest), rest);
      }
    }
  }

  /** Splitting undoes joining balanced tokens by single spaces. */
  lemma {:induction false} SplitJoin(parts: seq<string>)
    requires forall t :: t in parts ==> Balanced(t)
    ensures Tokens(JoinSpace(parts)) == Ok(parts)
    ensures parts != [] ==> Split(JoinSpace(parts)) == Ok(parts)
  {
    TokensOfJoin(parts);
  }

  // ---------------------------------------------------------------- the source's loop

  /** `splitRoomListQuery`: one pass with a start index and two flags. */
  method SplitRoomListQuery(raw: string) returns (r: Result<seq<string>, QueryError>)
    ensures r == Split(raw)
  {
    var parts: seq<string> := [];
    var start := -1;
    var inQuote, escaped := false, false;
    assert raw[0..] == raw;
    assert Tokens(raw) == Prepend(parts, Tokens(raw[0..])) by {
      assert Tokens(raw).Ok? ==> [] + Tokens(raw).value == Tokens(raw).value;
    }
    for index := 0 to |raw|
      invariant -1 <= start < index
      invariant start == -1 ==> !inQuote && !escaped && Tokens(raw) == Prepend(parts, Tokens(raw[index..]))
      invariant start >= 0 ==> Tokens(raw) == Prepend(parts, Tokens(raw[start..])) && !IsSpace(raw[start])
      invariant start >= 0 ==> TokenLength(raw[start..index], START) == index - start
      invariant start >= 0 ==> After(raw[start..index], START) == Lexer(inQuote, escaped)
    {
      var ch := raw[index];
      if start == -1 {
        assert raw[index..][1..] == raw[index + 1..];
        if IsSpace(ch) {
          continue;
        }
        start := index;
        assert raw[start..index] == "";
      }
      ghost var q := Lexer(inQuote, escaped);
      TokenSnoc(raw, start, index, q);
      if escaped {
        escaped := false;
        continue;
      }
      if ch == '\\' && inQuote {
        escaped := true;
        continue;
      }
      if ch == '"' {
        inQuote := !inQuote;
        continue;
      }
      if IsSpace(ch) && !inQuote {
        TokenTaken(raw, start, index, parts);
        parts := parts + [raw[start..index]];
        start := -1;
      }
    }
    assert raw[|raw|..] == "" && (start >= 0 ==> raw[start..|raw|] == raw[start..]);
    assert start == -1 ==> Tokens(raw) == Ok(parts + []) && parts + [] == parts;
    if escaped || inQuote {
      return Err(Unterminated);
    }
    if start != -1 {
      parts := parts + [raw[start..]];
    }
    if |parts| == 0 {
      return Err(NoClause);
    }
    return Ok(parts);
  }

  /** One more character of a token. */
  lemma TokenSnoc(raw: string, start: nat, index: nat, q: Lexer)
    requires start <= index < |raw| && TokenLength(raw[start..index], START) == index - start
    requires After(raw[start..index], START) == q
    ensures !Ends(q, raw[index]) ==> TokenLength(raw[start..index + 1], START) == index + 1 - start
    ensures After(raw[start..index + 1], START) == Next(q, raw[index])
  {
    var c := raw[index..index + 1];
    assert raw[start..index + 1] == raw[start..index] + c;
    TokenOfPrefix(raw[start..index], c, START);
    assert c[1..] == "";
  }

  lemma PrependTwice(parts: seq<string>, t: string, rest: Result<seq<string>, QueryError>)
    ensures Prepend(parts, Prepend([t], rest)) == Prepend(parts + [t], rest)
  {
    if rest.Ok? {
      assert parts + ([t] + rest.value) == parts + [t] + rest.value;
    }
  }

  /** A token ended by white space. */
  lemma {:induction false} TokenTaken(raw: string, start: nat, index: nat, parts: seq<string>)
    requires start < index < |raw| && !IsSpace(raw[start]) && TokenLength(raw[start..index], START) == index - start
    requires After(raw[start..index], START) == START && IsSpace(raw[index])
    requires Tokens(raw) == Prepend(parts, Tokens(raw[start..]))
    ensures Tokens(raw) == Prepend(parts + [raw[start..index]], Tokens(raw[index + 1..]))
  {
    var t := raw[start..index];
    var tail := raw[index..];
    assert raw[start..] == t + tail && tail[1..] == raw[index + 1..];
    TokensOfFirst(t, tail);
    PrependTwice(parts, t, Tokens(raw[index + 1..]));
  }
}
