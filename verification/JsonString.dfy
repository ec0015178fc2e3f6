/** JSON string text (RFC 8259, section 7): what `JSON.stringify` writes and `json.Unmarshal` reads. */
module JsonString {
  import opened Wrappers

  const BACKSPACE: char := 8 as char
  const FORM_FEED: char := 12 as char
  const REPLACEMENT: char := 0xFFFD as char

  predicate IsHexDigit(c: char) {
    '0' <= c <= '9' || 'a' <= c <= 'f' || 'A' <= c <= 'F'
  }

  function HexValue(c: char): (v: nat)
    requires IsHexDigit(c)
    ensures v < 16
  {
    if '0' <= c <= '9' then c as int - '0' as int
    else if 'a' <= c <= 'f' then c as int - 'a' as int + 10
    else c as int - 'A' as int + 10
  }

  function HexChar(v: nat): (c: char)
    requires v < 16
    ensures IsHexDigit(c) && HexValue(c) == v && c != '"' && c != '\\' && c >= ' '
  {
    if v < 10 then ('0' as int + v) as char else ('a' as int + v - 10) as char
  }

  /** One character as `JSON.stringify` writes it. */
  function EscapeChar(c: char): string {
    if c == '"' then "\\\""
    else if c == '\\' then "\\\\"
    else if c == BACKSPACE then "\\b"
    else if c == FORM_FEED then "\\f"
    else if c == '\n' then "\\n"
    else if c == '\r' then "\\r"
    else if c == '\t' then "\\t"
    else if c < ' ' then "\\u00" + [HexChar(c as int / 16), HexChar(c as int % 16)]
    else [c]
  }

  function EscapeText(s: string): string {
    if s == "" then "" else EscapeChar(s[0]) + EscapeText(s[1..])
  }

  /** `JSON.stringify` of a well-formed string. */
  function Quote(s: string): string {
    "\"" + EscapeText(s) + "\""
  }

  predicate IsJsonSpace(c: char) {
    c == ' ' || c == '\t' || c == '\n' || c == '\r'
  }

  /** The character a two-character escape stands for. */
  function SimpleEscape(c: char): Option<char> {
    if c == '"' || c == '\\' || c == '/' then Some(c)
    else if c == 'b' then Some(BACKSPACE)
    else if c == 'f' then Some(FORM_FEED)
    else if c == 'n' then Some('\n')
    else if c == 'r' then Some('\r')
    else if c == 't' then Some('\t')
    else None
  }

  /** The code unit of `uXXXX`, when `s` starts with one. */
  function CodeUnit(s: string): (r: Option<nat>)
    ensures r.Some? ==> r.value < 0x10000 && |s| >= 5
  {
    if |s| >= 5 && s[0] == 'u' && IsHexDigit(s[1]) && IsHexDigit(s[2]) && IsHexDigit(s[3]) && IsHexDigit(s[4])
    then Some(HexValue(s[1]) * 0x1000 + HexValue(s[2]) * 0x100 + HexValue(s[3]) * 0x10 + HexValue(s[4]))
    else None
  }

  /** The low surrogate that `s` spells next, if any. */
  function LowSurrogate(s: string): (r: Option<nat>)
    ensures r.Some? ==> 0xDC00 <= r.value < 0xE000 && |s| >= 6
  {
    if |s| >= 6 && s[0] == '\\' && CodeUnit(s[1..]).Some? && 0xDC00 <= CodeUnit(s[1..]).value < 0xE000
    then CodeUnit(s[1..]) else None
  }

  function PairChar(high: nat, low: nat): char
    requires 0xD800 <= high < 0xDC00 && 0xDC00 <= low < 0xE000
  {
    ((high - 0xD800) * 0x400 + (low - 0xDC00) + 0x10000) as char
  }

  /** The text after an opening quote, up to and including the closing one; only JSON white space may follow. */
  function UnescapeText(s: string): Option<string>
    decreases |s|
  {
    if s == "" then None
    else if s[0] == '"' then if forall i | 1 <= i < |s| :: IsJsonSpace(s[i]) then Some("") else None
    else if s[0] < ' ' then None
    else if s[0] != '\\' then Prepend(s[0], UnescapeText(s[1..]))
    else if |s| < 2 then None
    else if SimpleEscape(s[1]).Some? then Prepend(SimpleEscape(s[1]).value, UnescapeText(s[2..]))
    else
      match CodeUnit(s[1..])
      case None => None
      case Some(unit) =>
        if 0xD800 <= unit < 0xDC00 && LowSurrogate(s[6..]).Some? then
          Prepend(PairChar(unit, LowSurrogate(s[6..]).value), UnescapeText(s[12..]))
        else Prepend(if 0xD800 <= unit < 0xE000 then REPLACEMENT else unit as char, UnescapeText(s[6..]))
  }

  function Prepend(c: char, rest: Option<string>): Option<string> {
    if rest.Some? then Some([c] + rest.value) else None
  }

  /** `json.Unmarshal` into a string, of text that starts with a quote. */
  function Unquote(s: string): Option<string>
    requires s != "" && s[0] == '"'
  {
    UnescapeText(s[1..])
  }

  lemma EscapedCharReadsBack(c: char, rest: string)
    ensures UnescapeText(EscapeChar(c) + rest) == Prepend(c, UnescapeText(rest))
  {
    var s := EscapeChar(c) + rest;
    if |EscapeChar(c)| == 1 {
      assert s[1..] == rest;
    } else if |EscapeChar(c)| == 2 {
      assert s[2..] == rest;
    } else {
      assert s[1..] == "u00" + [HexChar(c as int / 16), HexChar(c as int % 16)] + rest;
      assert s[6..] == rest;
    }
  }

  /** Reading undoes writing, for every string. */
  lemma {:induction false} UnquoteQuote(s: string)
    ensures Unquote(Quote(s)) == Some(s)
    ensures UnescapeText(EscapeText(s) + "\"") == Some(s)
  {
    assert Quote(s)[1..] == EscapeText(s) + "\"";
    if s == "" {
      assert EscapeText(s) + "\"" == "\"";
    } else {
      UnquoteQuote(s[1..]);
      EscapedCharReadsBack(s[0], EscapeText(s[1..]) + "\"");
      assert EscapeText(s) + "\"" == EscapeChar(s[0]) + (EscapeText(s[1..]) + "\"");
      assert s == [s[0]] + s[1..];
    }
  }

  // ---------------------------------------------------------------- escapes the client does not write

  function Hex4(unit: nat): string
    requires unit < 0x10000
  {
    [HexChar(unit / 0x1000), HexChar(unit / 0x100 % 0x10), HexChar(unit / 0x10 % 0x10), HexChar(unit % 0x10)]
  }

  lemma {:induction false} HexDigitsAddUp(unit: nat)
    requires unit < 0x10000
    ensures unit / 0x1000 * 0x1000 + unit / 0x100 % 0x10 * 0x100 + unit / 0x10 % 0x10 * 0x10 + unit % 0x10 == unit
  {
    var tens := unit / 0x10;
    var hundreds := tens / 0x10;
    assert unit / 0x100 == hundreds;
    assert unit / 0x1000 == hundreds / 0x10;
    assert hundreds == hundreds / 0x10 * 0x10 + hundreds % 0x10;
  }

  lemma {:induction false} CodeUnitReads(unit: nat, rest: string)
    requires unit < 0x10000
    ensures CodeUnit("u" + Hex4(unit) + rest) == Some(unit)
  {
    var digits := Hex4(unit);
    var s := "u" + digits + rest;
    assert s[1] == digits[0] && s[2] == digits[1] && s[3] == digits[2] && s[4] == digits[3];
    assert HexValue(s[1]) == unit / 0x1000 && HexValue(s[2]) == unit / 0x100 % 0x10;
    assert HexValue(s[3]) == unit / 0x10 % 0x10 && HexValue(s[4]) == unit % 0x10;
    HexDigitsAddUp(unit);
  }

  /** Capital hex digits mean the same. */
  lemma {:induction false} CapitalHexDigits(v: nat)
    requires 10 <= v < 16
    ensures var c := ('A' as int + v - 10) as char; IsHexDigit(c) && HexValue(c) == v
  {
  }

  /** The two-character escapes: a letter and what it stands for. */
  const SIMPLE_ESCAPES: seq<(char, char)> := [
    ('"', '"'), ('\\', '\\'), ('/', '/'), ('b', 8 as char), ('f', 12 as char), ('n', 10 as char), ('r', 13 as char),
    ('t', 9 as char)]

  lemma {:induction false} SimpleEscapesRead(escape: (char, char), rest: string)
    requires escape in SIMPLE_ESCAPES
    ensures UnescapeText(['\\', escape.0] + rest) == Prepend(escape.1, UnescapeText(rest))
  {
    var s := ['\\', escape.0] + rest;
    assert s[0] == '\\' && s[1] == escape.0 && s[2..] == rest;
    assert SimpleEscape(escape.0) == Some(escape.1);
  }

  /** An escaped code unit is its character; a surrogate that is not one half of a pair is the replacement character. */
  lemma {:induction false} CodeUnitEscapeReads(unit: nat, rest: string)
    requires unit < 0x10000 && (0xD800 <= unit < 0xDC00 ==> LowSurrogate(rest).None?)
    ensures UnescapeText("\\" + ("u" + Hex4(unit) + rest))
         == Prepend(if 0xD800 <= unit < 0xE000 then REPLACEMENT else unit as char, UnescapeText(rest))
  {
    var tail := "u" + Hex4(unit) + rest;
    var s := "\\" + tail;
    CodeUnitReads(unit, rest);
    assert s[1..] == tail && s[1] == 'u' && s[6..] == rest;
  }

  /** A pair of escaped surrogates is the one character they stand for. */
  lemma {:induction false} SurrogatePairReads(high: nat, low: nat, rest: string)
    requires 0xD800 <= high < 0xDC00 && 0xDC00 <= low < 0xE000
    ensures UnescapeText("\\" + ("u" + Hex4(high) + ("\\" + ("u" + Hex4(low) + rest))))
         == Prepend(((high - 0xD800) * 0x400 + (low - 0xDC00) + 0x10000) as char, UnescapeText(rest))
  {
    var inner := "u" + Hex4(low) + rest;
    var second := "\\" + inner;
    var tail := "u" + Hex4(high) + second;
    CodeUnitReads(low, rest);
    CodeUnitReads(high, second);
    assert second[1..] == inner && LowSurrogate(second) == Some(low);
    PairIsRead("\\" + tail, tail, second, rest, high, low);
  }

  lemma {:induction false} PairIsRead(s: string, tail: string, second: string, rest: string, high: nat, low: nat)
    requires s == "\\" + tail && |tail| >= 5 && tail[5..] == second && |second| >= 6 && second[6..] == rest
    requires tail[0] == 'u' && CodeUnit(tail) == Some(high) && 0xD800 <= high < 0xDC00
    requires LowSurrogate(second) == Some(low)
    ensures UnescapeText(s) == Prepend(PairChar(high, low), UnescapeText(rest))
  {
    assert s[1..] == tail && s[1] == 'u' && s[6..] == second && s[12..] == second[6..];
  }

  /** Every character beyond the first plane has such a pair. */
  lemma {:induction false} EveryCharHasPair(c: char) returns (high: nat, low: nat)
    requires c as int >= 0x10000
    ensures 0xD800 <= high < 0xDC00 && 0xDC00 <= low < 0xE000
    ensures ((high - 0xD800) * 0x400 + (low - 0xDC00) + 0x10000) as char == c
  {
    high, low := 0xD800 + (c as int - 0x10000) / 0x400, 0xDC00 + (c as int - 0x10000) % 0x400;
  }

  /** What is refused: control characters, unknown escapes, and text without its closing quote. */
  lemma {:induction false} BadTextIsRefused(c: char, rest: string)
    ensures c < ' ' ==> UnescapeText([c] + rest) == None
    ensures SimpleEscape(c).None? && c != 'u' ==> UnescapeText(['\\', c] + rest) == None
    ensures UnescapeText("") == None && UnescapeText("\\") == None
    ensures (exists i :: 0 <= i < |rest| && !IsJsonSpace(rest[i])) ==> UnescapeText("\"" + rest) == None
  {
    var s := ['\\', c] + rest;
    assert s[1..][0] == c;
    if i :| 0 <= i < |rest| && !IsJsonSpace(rest[i]) {
      assert ("\"" + rest)[i + 1] == rest[i];
    }
  }
}
