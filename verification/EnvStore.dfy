/** The Copilot settings file: `KEY = value` lines, values quoted and escaped when they hold a blank, a
    hash, a double quote or a backslash. */
module EnvStore {
  import opened Wrappers

  const COPILOT_ENV_KEYS: seq<string> :=
    ["COPILOT_ENABLED", "COPILOT_PROVIDER", "OPENAI_API_KEY", "COPILOT_MODEL", "COPILOT_BASE_URL"]

  // ----- Python's string operations -----

  /** The characters `splitlines` breaks at; a CR followed by an LF is one break. */
  predicate IsLineBreak(c: char) {
    || '\n' <= c <= '\r'
    || '\U{1C}' <= c <= '\U{1E}' || c == '\U{85}' || c == '\U{2028}' || c == '\U{2029}'
  }

  /** `str.isspace`. */
  predicate IsSpace(c: char) {
    || IsLineBreak(c) || c == '\t' || c == ' ' || c == '\U{1F}' || c == '\U{A0}' || c == '\U{1680}'
    || '\U{2000}' <= c <= '\U{200A}' || c == '\U{202F}' || c == '\U{205F}' || c == '\U{3000}'
  }

  predicate NoBreaks(s: string) {
    forall c <- s :: !IsLineBreak(c)
  }

  function LStrip(s: string): string {
    if s != "" && IsSpace(s[0]) then LStrip(s[1..]) else s
  }

  function RStrip(s: string): string {
    if s != "" && IsSpace(s[|s| - 1]) then RStrip(s[..|s| - 1]) else s
  }

  function Strip(s: string): string {
    RStrip(LStrip(s))
  }

  /** `str.replace`: left to right, without overlaps. */
  function Replace(s: string, find: string, put: string): string
    requires find != ""
  {
    if s == "" then ""
    else if find <= s then put + Replace(s[|find|..], find, put)
    else [s[0]] + Replace(s[1..], find, put)
  }

  /** `s.split(" #", 1)[0]`, which is all of `s` when the separator is absent. */
  function BeforeComment(s: string): string {
    if s == "" || " #" <= s then "" else [s[0]] + BeforeComment(s[1..])
  }

  function FirstBreak(s: string): (n: nat)
    ensures n <= |s|
  {
    if s == "" || IsLineBreak(s[0]) then 0 else 1 + FirstBreak(s[1..])
  }

  function SplitLines(s: string): seq<string> {
    if s == "" then []
    else
      var n := FirstBreak(s);
      if n == |s| then [s]
      else [s[..n]] + SplitLines(s[n + (if "\r\n" <= s[n..] then 2 else 1)..])
  }

  // ----- One value -----

  predicate NeedsQuotes(value: string) {
    exists c <- value :: c == ' ' || c == '\t' || c == '#' || c == '"' || c == '\\'
  }

  function Escape(value: string): string {
    Replace(Replace(value, "\\", "\\\\"), "\"", "\\\"")
  }

  function Unescape(inner: string): string {
    Replace(Replace(inner, "\\\"", "\""), "\\\\", "\\")
  }

  /** What `_format_env_line` puts after the equals sign and its space. */
  function FormatValue(value: string): string {
    if NeedsQuotes(value) then "\"" + Escape(value) + "\"" else value
  }

  function FormatLine(key: string, value: string): string {
    if value == "" then key + " =" else key + " = " + FormatValue(value)
  }

  function ParseValue(raw: string): string {
    var s := Strip(raw);
    if s == "" then ""
    else if (s[0] == '"' || s[0] == '\'') && s[|s| - 1] == s[0] then
      Unescape(if |s| == 1 then "" else s[1..|s| - 1])
    else RStrip(BeforeComment(s))
  }

  // ----- Unescape undoes Escape -----

  function DoubledChar(c: char): string {
    if c == '\\' then "\\\\" else [c]
  }

  function EscapedChar(c: char): string {
    if c == '\\' then "\\\\" else if c == '"' then "\\\"" else [c]
  }

  function Doubled(value: string): string {
    if value == "" then "" else DoubledChar(value[0]) + Doubled(value[1..])
  }

  function Escaped(value: string): string {
    if value == "" then "" else EscapedChar(value[0]) + Escaped(value[1..])
  }

  lemma ReplaceHit(s: string, find: string, put: string)
    requires find != ""
    ensures Replace(find + s, find, put) == put + Replace(s, find, put)
  {
    assert (find + s)[|find|..] == s;
  }

  /** No match can begin with c before s. */
  lemma ReplaceSkips(c: char, s: string, find: string, put: string)
    requires find != "" && (c != find[0] || (|find| > 1 && (s == "" || s[0] != find[1])))
    ensures Replace([c] + s, find, put) == [c] + Replace(s, find, put)
  {
    var all := [c] + s;
    assert all[1..] == s;
    assert all[0] == c && (s != "" ==> all[1] == s[0]);
  }

  lemma ReplaceSkipsTwo(c: char, s: string, find: string, put: string)
    requires find != "" && (c != find[0] || (|find| > 1 && c != find[1] && (s == "" || s[0] != find[1])))
    ensures Replace([c, c] + s, find, put) == [c, c] + Replace(s, find, put)
  {
    ReplaceSkips(c, s, find, put);
    ReplaceSkips(c, [c] + s, find, put);
    assert [c, c] + s == [c] + ([c] + s);
  }

  lemma FirstReplaceOne(c: char, s: string)
    ensures Replace([c] + s, "\\", "\\\\") == DoubledChar(c) + Replace(s, "\\", "\\\\")
  {
    if c == '\\' { ReplaceHit(s, "\\", "\\\\"); } else { ReplaceSkips(c, s, "\\", "\\\\"); }
  }

  lemma SecondReplaceOne(c: char, s: string)
    ensures Replace(DoubledChar(c) + s, "\"", "\\\"") == EscapedChar(c) + Replace(s, "\"", "\\\"")
  {
    if c == '\\' {
      ReplaceSkipsTwo(c, s, "\"", "\\\"");
    } else if c == '"' {
      ReplaceHit(s, "\"", "\\\"");
    } else {
      ReplaceSkips(c, s, "\"", "\\\"");
    }
  }

  lemma {:induction false} FirstReplace(value: string)
    ensures Replace(value, "\\", "\\\\") == Doubled(value)
  {
    if value != "" {
      FirstReplace(value[1..]);
      FirstReplaceOne(value[0], value[1..]);
      assert value == [value[0]] + value[1..];
    }
  }

  lemma {:induction false} SecondReplace(value: string)
    ensures Replace(Doubled(value), "\"", "\\\"") == Escaped(value)
  {
    if value != "" {
      SecondReplace(value[1..]);
      SecondReplaceOne(value[0], Doubled(value[1..]));
    }
  }

  lemma EscapeIsEscaped(value: string)
    ensures Escape(value) == Escaped(value)
  {
    FirstReplace(value);
    SecondReplace(value);
  }

  lemma FirstUnescapeOne(c: char, s: string)
    requires s == "" || s[0] != '"'
    ensures Replace(EscapedChar(c) + s, "\\\"", "\"") == DoubledChar(c) + Replace(s, "\\\"", "\"")
  {
    if c == '\\' {
      ReplaceSkipsTwo(c, s, "\\\"", "\"");
    } else if c == '"' {
      ReplaceHit(s, "\\\"", "\"");
    } else {
      ReplaceSkips(c, s, "\\\"", "\"");
    }
  }

  lemma SecondUnescapeOne(c: char, s: string)
    ensures Replace(DoubledChar(c) + s, "\\\\", "\\") == [c] + Replace(s, "\\\\", "\\")
  {
    if c == '\\' { ReplaceHit(s, "\\\\", "\\"); } else { ReplaceSkips(c, s, "\\\\", "\\"); }
  }

  /** The first of the two unescaping passes takes back exactly the second escaping pass. */
  lemma {:induction false} FirstUnescape(value: string)
    ensures Replace(Escaped(value), "\\\"", "\"") == Doubled(value)
  {
    if value != "" {
      FirstUnescape(value[1..]);
      FirstUnescapeOne(value[0], Escaped(value[1..]));
    }
  }

  lemma {:induction false} SecondUnescape(value: string)
    ensures Replace(Doubled(value), "\\\\", "\\") == value
  {
    if value != "" {
      SecondUnescape(value[1..]);
      SecondUnescapeOne(value[0], Doubled(value[1..]));
      assert value == [value[0]] + value[1..];
    }
  }

  /** The two replaces of the reader, in their order, undo the two of the writer for every string. */
  lemma UnescapeEscape(value: string)
    ensures Unescape(Escape(value)) == value
  {
    EscapeIsEscaped(value);
    FirstUnescape(value);
    SecondUnescape(value);
  }

  // ----- Which values survive -----

  /** Quoted values always survive; a bare one must not begin or end with white space, nor both begin
      and end with a single quote. */
  predicate Survives(value: string) {
    || value == "" || (exists c <- value :: c in " \t#\"\\")
    || (&& !IsSpace(value[0]) && !IsSpace(value[|value| - 1])
        && !(value[0] == '\'' && value[|value| - 1] == '\''))
  }

  lemma {:induction false} LStripShrinks(s: string)
    ensures |LStrip(s)| <= |s| && (s != "" && IsSpace(s[0]) ==> |LStrip(s)| < |s|)
  {
    if s != "" && IsSpace(s[0]) { LStripShrinks(s[1..]); }
  }

  lemma {:induction false} RStripShrinks(s: string)
    ensures |RStrip(s)| <= |s| && (s != "" && IsSpace(s[|s| - 1]) ==> |RStrip(s)| < |s|)
  {
    if s != "" && IsSpace(s[|s| - 1]) { RStripShrinks(s[..|s| - 1]); }
  }

  lemma {:induction false} BareHasNoComment(s: string)
    requires forall c <- s :: c != ' '
    ensures BeforeComment(s) == s
  {
    if s != "" {
      assert s[0] in s && forall c <- s[1..] :: c in s;
      BareHasNoComment(s[1..]);
    }
  }

  lemma {:induction false} BareIsNotUnescaped(s: string)
    requires forall c <- s :: c != '\\'
    ensures Unescape(s) == s
  {
    NothingToReplace(s, "\\\"", "\"");
    NothingToReplace(s, "\\\\", "\\");
  }

  lemma {:induction false} NothingToReplace(s: string, find: string, put: string)
    requires find != "" && find[0] == '\\' && forall c <- s :: c != '\\'
    ensures Replace(s, find, put) == s
  {
    if s != "" {
      assert s[0] in s && forall c <- s[1..] :: c in s;
      assert !(find <= s);
      NothingToReplace(s[1..], find, put);
    }
  }

  lemma QuotedValueRoundTrips(value: string)
    requires NeedsQuotes(value)
    ensures ParseValue(FormatValue(value)) == value
  {
    var raw := FormatValue(value);
    assert raw[0] == '"' && raw[|raw| - 1] == '"' && raw[1..|raw| - 1] == Escape(value);
    assert Strip(raw) == raw;
    UnescapeEscape(value);
  }

  /** A value without blanks at its ends: single quotes around it are lost. */
  lemma StrippedBareReads(value: string)
    requires value != "" && !NeedsQuotes(value) && Strip(value) == value
    ensures ParseValue(value) == value <==> !(value[0] == '\'' && value[|value| - 1] == '\'')
  {
    assert value[0] in value && forall c <- value :: c != ' ' && c != '"' && c != '\\';
    if value[0] == '\'' && value[|value| - 1] == '\'' {
      var inner := if |value| == 1 then "" else value[1..|value| - 1];
      assert forall c <- inner :: c in value;
      BareIsNotUnescaped(inner);
    } else {
      LStripShrinks(value);
      LStripKeeps(value);
      RStripShrinks(LStrip(value));
      BareHasNoComment(value);
    }
  }

  lemma BareValueRoundTrips(value: string)
    requires value != "" && !NeedsQuotes(value)
    ensures ParseValue(value) == value <==> Survives(value)
  {
    LStripShrinks(value);
    RStripShrinks(LStrip(value));
    RStripShrinks(value);
    LStripKeeps(value);
    RStripKeeps(value);
    assert NeedsQuotes(value) <==> exists c <- value :: c in " \t#\"\\";
    if Strip(value) == value { StrippedBareReads(value); } else { ParseShrinks(value); }
  }

  lemma {:induction false} ReplaceShrinks(s: string, find: string, put: string)
    requires 0 < |put| <= |find|
    ensures |Replace(s, find, put)| <= |s|
  {
    if s == "" {
    } else if find <= s {
      ReplaceShrinks(s[|find|..], find, put);
    } else {
      ReplaceShrinks(s[1..], find, put);
    }
  }

  lemma {:induction false} BeforeCommentShrinks(s: string)
    ensures |BeforeComment(s)| <= |s|
  {
    if s != "" && !(" #" <= s) { BeforeCommentShrinks(s[1..]); }
  }

  lemma ParseShrinks(raw: string)
    ensures |ParseValue(raw)| <= |Strip(raw)|
    ensures Strip(raw) == raw || |Strip(raw)| < |raw|
  {
    var s := Strip(raw);
    LStripShrinks(raw);
    RStripShrinks(LStrip(raw));
    LStripKeeps(raw);
    RStripKeeps(LStrip(raw));
    if s != "" {
      var inner := if |s| == 1 then "" else s[1..|s| - 1];
      ReplaceShrinks(inner, "\\\"", "\"");
      ReplaceShrinks(Replace(inner, "\\\"", "\""), "\\\\", "\\");
      BeforeCommentShrinks(s);
      RStripShrinks(BeforeComment(s));
    }
  }

  lemma LStripKeeps(s: string)
    ensures s == "" || !IsSpace(s[0]) ==> LStrip(s) == s
  {
  }

  lemma RStripKeeps(s: string)
    ensures s == "" || !IsSpace(s[|s| - 1]) ==> RStrip(s) == s
  {
  }

  /** Exactly the surviving values read back as they were written. */
  lemma ValueRoundTrips(value: string)
    ensures ParseValue(FormatValue(value)) == value <==> Survives(value)
  {
    if NeedsQuotes(value) {
      QuotedValueRoundTrips(value);
    } else if value != "" {
      BareValueRoundTrips(value);
    }
  }

  // ----- One line -----

  predicate IsBlank(c: char) {
    c == ' ' || c == '\t'
  }

  predicate IsKeyStart(c: char) {
    'A' <= c <= 'Z' || 'a' <= c <= 'z' || c == '_'
  }

  predicate IsKeyChar(c: char) {
    IsKeyStart(c) || '0' <= c <= '9'
  }

  predicate IsKey(key: string) {
    key != "" && IsKeyStart(key[0]) && forall c <- key :: IsKeyChar(c)
  }

  function SkipBlanks(s: string): string {
    if s != "" && IsBlank(s[0]) then SkipBlanks(s[1..]) else s
  }

  function KeyLength(s: string): (n: nat)
    ensures n <= |s|
  {
    if s != "" && IsKeyChar(s[0]) then 1 + KeyLength(s[1..]) else 0
  }

  /** `_ENV_LINE_RE`: optional blanks, an optional hash, a key, an equals sign; the raw value is the rest. */
  function MatchLine(line: string): Option<(string, string)> {
    var a := SkipBlanks(line);
    var b := if a != "" && a[0] == '#' then SkipBlanks(a[1..]) else a;
    if b == "" || !IsKeyStart(b[0]) then None
    else
      var n := KeyLength(b);
      var c := SkipBlanks(b[n..]);
      if c == "" || c[0] != '=' then None else Some((b[..n], SkipBlanks(c[1..])))
  }

  lemma {:induction false} KeyLengthOfKey(key: string, rest: string)
    requires (forall c <- key :: IsKeyChar(c)) && (rest == "" || !IsKeyChar(rest[0]))
    ensures KeyLength(key + rest) == |key|
  {
    if key != "" {
      assert key[0] in key && forall c <- key[1..] :: c in key;
      KeyLengthOfKey(key[1..], rest);
      assert (key + rest)[1..] == key[1..] + rest;
    } else {
      assert key + rest == rest;
    }
  }

  lemma MatchKey(key: string, rest: string, raw: string)
    requires IsKey(key) && rest != "" && !IsKeyChar(rest[0]) && SkipBlanks(rest) == "=" + raw
    ensures MatchLine(key + rest) == Some((key, SkipBlanks(raw)))
  {
    var line := key + rest;
    assert line[0] == key[0] && key[0] in key;
    KeyLengthOfKey(key, rest);
    assert line[|key|..] == rest && line[..|key|] == key;
    assert ("=" + raw)[1..] == raw;
  }

  lemma SkipOneBlank(s: string)
    requires s == "" || !IsBlank(s[0])
    ensures SkipBlanks(" " + s) == s && SkipBlanks(s) == s
  {
    assert (" " + s)[1..] == s;
  }

  lemma MatchRaw(key: string, raw: string)
    requires IsKey(key) && raw != "" && !IsBlank(raw[0])
    ensures MatchLine(key + (" = " + raw)) == Some((key, raw))
  {
    var value := "=" + (" " + raw);
    SkipOneBlank(value);
    SkipOneBlank(raw);
    assert " " + value == " = " + raw;
    MatchKey(key, " = " + raw, " " + raw);
  }

  lemma MatchNothing(key: string)
    requires IsKey(key)
    ensures MatchLine(key + " =") == Some((key, ""))
  {
    SkipOneBlank("=");
    assert " " + "=" == " =" && "=" + "" == "=";
    MatchKey(key, " =", "");
  }

  lemma MatchFormatted(key: string, value: string)
    requires IsKey(key)
    ensures MatchLine(FormatLine(key, value)) == Some((key, FormatValue(value)))
  {
    if value == "" {
      MatchNothing(key);
    } else {
      var raw := FormatValue(value);
      assert value[0] in value && raw != "" && !IsBlank(raw[0]);
      MatchRaw(key, raw);
      assert key + " = " + raw == key + (" = " + raw);
    }
  }

  /** How a setting is written: quoted as soon as it holds a blank, a hash, a double quote or a backslash, and
      then with every quote and backslash escaped. */
  lemma WrittenLine(key: string, value: string)
    ensures value == "" ==> FormatLine(key, value) == key + " ="
    ensures (exists c <- value :: c in " \t#\"\\") ==>
              FormatLine(key, value) == key + " = " + ("\"" + Escaped(value) + "\"")
    ensures value != "" && !(exists c <- value :: c in " \t#\"\\") ==> FormatLine(key, value) == key + " = " + value
  {
    EscapeIsEscaped(value);
  }

  // ----- Lines written by hand -----

  predicate Blanks(s: string) {
    forall c <- s :: c == ' ' || c == '\t'
  }

  /** Letters, digits and underscores, no digit first. */
  predicate IsName(key: string) {
    && key != "" && !('0' <= key[0] <= '9')
    && forall c <- key :: 'A' <= c <= 'Z' || 'a' <= c <= 'z' || '0' <= c <= '9' || c == '_'
  }

  lemma NameIsKey(key: string)
    ensures IsName(key) <==> IsKey(key)
  {
    if key != "" { assert key[0] in key; }
  }

  /** Optional blanks, an optional hash and blanks behind it, the key, an equals sign between optional blanks,
      and the raw value up to the end of the line. */
  ghost predicate IsLineOf(line: string, key: string, raw: string, lead: string, mark: string, indent: string,
                           before: string, after: string)
  {
    && Blanks(lead) && mark in {"", "#"} && Blanks(indent) && Blanks(before) && Blanks(after) && IsName(key)
    && (raw == "" || (raw[0] != ' ' && raw[0] != '\t'))
    && line == lead + (mark + (indent + (key + (before + ("=" + (after + raw))))))
  }

  lemma {:induction false} SkipAll(b: string, s: string)
    requires Blanks(b) && (s == "" || !IsBlank(s[0]))
    ensures SkipBlanks(b + s) == s
  {
    if b == "" {
      assert b + s == s;
    } else {
      assert b[0] in b && forall c <- b[1..] :: c in b;
      SkipAll(b[1..], s);
      assert (b + s)[1..] == b[1..] + s;
    }
  }

  lemma {:induction false} SkippedBlanks(s: string) returns (b: string)
    ensures Blanks(b) && s == b + SkipBlanks(s) && (SkipBlanks(s) == "" || !IsBlank(SkipBlanks(s)[0]))
  {
    b := "";
    if s != "" && IsBlank(s[0]) {
      b := SkippedBlanks(s[1..]);
      b := [s[0]] + b;
      assert s == [s[0]] + s[1..];
    }
  }

  lemma {:induction false} KeyLengthTakesKey(s: string)
    ensures forall c <- s[..KeyLength(s)] :: IsKeyChar(c)
  {
    if s != "" && IsKeyChar(s[0]) {
      KeyLengthTakesKey(s[1..]);
      assert s[..KeyLength(s)] == [s[0]] + s[1..][..KeyLength(s[1..])];
    }
  }

  lemma LineOfMatches(line: string, key: string, raw: string, lead: string, mark: string, indent: string,
                      before: string, after: string)
    requires IsLineOf(line, key, raw, lead, mark, indent, before, after)
    ensures MatchLine(line) == Some((key, raw))
  {
    var value := "=" + (after + raw);
    var rest := before + value;
    NameIsKey(key);
    assert key[0] in key && IsKeyStart(key[0]) && !IsBlank(key[0]);
    assert rest[0] == if before == "" then '=' else before[0];
    assert before != "" ==> before[0] in before;
    SkipAll(after, raw);
    SkipAll(before, value);
    assert value[1..] == after + raw;
    KeyLengthOfKey(key, rest);
    assert (key + rest)[..|key|] == key && (key + rest)[|key|..] == rest;
    SkipAll(indent, key + rest);
    if mark == "#" {
      SkipAll(lead, mark + (indent + (key + rest)));
      assert (mark + (indent + (key + rest)))[1..] == indent + (key + rest);
    } else {
      assert lead + (mark + (indent + (key + rest))) == (lead + indent) + (key + rest);
      assert Blanks(lead + indent);
      SkipAll(lead + indent, key + rest);
    }
  }

  lemma MatchedStart(line: string) returns (lead: string, mark: string, indent: string, b: string)
    ensures Blanks(lead) && mark in {"", "#"} && Blanks(indent) && line == lead + (mark + (indent + b))
    ensures var a := SkipBlanks(line); b == if a != "" && a[0] == '#' then SkipBlanks(a[1..]) else a
  {
    lead := SkippedBlanks(line);
    var a := SkipBlanks(line);
    mark, indent, b := "", "", a;
    if a != "" && a[0] == '#' {
      mark, b := "#", SkipBlanks(a[1..]);
      indent := SkippedBlanks(a[1..]);
      assert a == mark + a[1..];
    } else {
      assert a == mark + (indent + a);
    }
  }

  lemma MatchedRest(b: string) returns (before: string, after: string)
    requires b != "" && IsKeyStart(b[0])
    requires var c := SkipBlanks(b[KeyLength(b)..]); c != "" && c[0] == '='
    ensures var key, raw := b[..KeyLength(b)], SkipBlanks(SkipBlanks(b[KeyLength(b)..])[1..]);
            && IsKey(key) && Blanks(before) && Blanks(after) && (raw == "" || !IsBlank(raw[0]))
            && b == key + (before + ("=" + (after + raw)))
  {
    var n := KeyLength(b);
    KeyLengthTakesKey(b);
    assert b == b[..n] + b[n..] && b[..n][0] == b[0];
    before := SkippedBlanks(b[n..]);
    var c := SkipBlanks(b[n..]);
    assert c == "=" + c[1..];
    after := SkippedBlanks(c[1..]);
  }

  lemma MatchedLine(line: string) returns (lead: string, mark: string, indent: string, before: string, after: string)
    requires MatchLine(line).Some?
    ensures var (key, raw) := MatchLine(line).value; IsLineOf(line, key, raw, lead, mark, indent, before, after)
  {
    var b;
    lead, mark, indent, b := MatchedStart(line);
    before, after := MatchedRest(b);
    NameIsKey(MatchLine(line).value.0);
  }

  /** Exactly the lines of this form are settings, commented out or not. */
  lemma MatchesExactly(line: string, key: string, raw: string)
    ensures MatchLine(line) == Some((key, raw)) <==>
            exists lead, mark, indent, before, after :: IsLineOf(line, key, raw, lead, mark, indent, before, after)
  {
    if MatchLine(line) == Some((key, raw)) {
      var lead, mark, indent, before, after := MatchedLine(line);
    }
    if lead, mark, indent, before, after :| IsLineOf(line, key, raw, lead, mark, indent, before, after) {
      LineOfMatches(line, key, raw, lead, mark, indent, before, after);
    }
  }

  /** A comment begins somewhere. */
  predicate HasComment(s: string) {
    s != "" && (" #" <= s || HasComment(s[1..]))
  }

  lemma {:induction false} CommentIsCut(v: string, rest: string)
    requires !HasComment(v) && v != "" && v[|v| - 1] != ' ' && (rest == "" || " #" <= rest)
    ensures BeforeComment(v + rest) == v
  {
    var s := v + rest;
    assert s[1..] == v[1..] + rest;
    if |v| > 1 {
      CommentIsCut(v[1..], rest);
    } else {
      assert s[1..] == rest && BeforeComment(rest) == "";
    }
  }

  lemma {:induction false} HasCommentBehind(a: string, s: string)
    requires HasComment(s)
    ensures HasComment(a + s)
  {
    if a == "" {
      assert a + s == s;
    } else {
      HasCommentBehind(a[1..], s);
      assert (a + s)[1..] == a[1..] + s;
    }
  }

  /** Replacing escapes never hides a comment. */
  lemma {:induction false} ReplaceKeepsComment(s: string, find: string, put: string)
    requires |find| == 2 && find[0] == '\\' && find[1] in {'"', '\\'} && HasComment(s)
    ensures HasComment(Replace(s, find, put))
  {
    if find <= s {
      assert s[0] == find[0] && s[1] == find[1] && s[1..][1..] == s[2..];
      assert s[1..][0] == s[1];
      assert HasComment(s[2..]);
      ReplaceKeepsComment(s[2..], find, put);
      HasCommentBehind(put, Replace(s[2..], find, put));
    } else {
      var t := Replace(s[1..], find, put);
      if " #" <= s {
        assert s[0] == ' ' && s[1] == '#' && s[1..][0] == '#';
        assert t[0] == '#';
        assert " #" <= [s[0]] + t;
      } else {
        ReplaceKeepsComment(s[1..], find, put);
        HasCommentBehind([s[0]], t);
      }
    }
  }

  /** The comment happens to end in the quote the value begins with, so that the two are taken for a pair. */
  predicate LooksQuoted(v: string, comment: string)
    requires v != ""
  {
    (v[0] == '"' || v[0] == '\'') && RStrip(comment) != "" && RStrip(comment)[|RStrip(comment)| - 1] == v[0]
  }

  lemma {:induction false} RStripBehind(a: string, b: string)
    requires a != "" && !IsSpace(a[|a| - 1])
    ensures RStrip(a + b) == a + RStrip(b)
  {
    if b == "" {
      assert a + b == a;
    } else {
      assert (a + b)[|a + b| - 1] == b[|b| - 1];
      if IsSpace(b[|b| - 1]) {
        assert (a + b)[..|a + b| - 1] == a + b[..|b| - 1];
        RStripBehind(a, b[..|b| - 1]);
      }
    }
  }

  lemma StripCommented(v: string, comment: string)
    requires v != "" && !IsSpace(v[0])
    ensures Strip(v + (" #" + comment)) == v + (" #" + RStrip(comment))
  {
    assert v + (" #" + comment) == (v + " #") + comment;
    assert v + (" #" + RStrip(comment)) == (v + " #") + RStrip(comment);
    RStripBehind(v + " #", comment);
  }

  /** Taken for a quoted string, it reads as something that still has a comment in it. */
  lemma PairedReads(v: string, comment: string)
    requires v != "" && comment != ""
    ensures var s := v + (" #" + comment); HasComment(Unescape(s[1..|s| - 1]))
  {
    var s := v + (" #" + comment);
    var inner, cut := s[1..|s| - 1], comment[..|comment| - 1];
    assert inner == v[1..] + (" #" + cut);
    assert " #" <= " #" + cut;
    HasCommentBehind(v[1..], " #" + cut);
    ReplaceKeepsComment(inner, "\\\"", "\"");
    ReplaceKeepsComment(Replace(inner, "\\\"", "\""), "\\\\", "\\");
  }

  lemma LastOfCommented(v: string, comment: string)
    ensures var s := v + (" #" + comment);
            s[|s| - 1] == if comment == "" then '#' else comment[|comment| - 1]
  {
  }

  predicate Quoted(s: string) {
    s != "" && (s[0] == '"' || s[0] == '\'') && s[|s| - 1] == s[0]
  }

  lemma ParseStripped(raw: string, s: string)
    requires Strip(raw) == s && |s| > 1
    ensures ParseValue(raw) == if Quoted(s) then Unescape(s[1..|s| - 1]) else RStrip(BeforeComment(s))
  {
  }

  lemma CommentedParses(raw: string, v: string, rest: string)
    requires v != "" && !IsSpace(v[|v| - 1]) && !HasComment(v) && " #" <= rest
    requires Strip(raw) == v + rest && !Quoted(v + rest)
    ensures ParseValue(raw) == v
  {
    ParseStripped(raw, v + rest);
    CommentIsCut(v, rest);
    RStripKeeps(v);
  }

  lemma PairedParses(raw: string, v: string, comment: string)
    requires v != "" && comment != "" && !HasComment(v)
    requires Strip(raw) == v + (" #" + comment) && Quoted(v + (" #" + comment))
    ensures ParseValue(raw) != v
  {
    ParseStripped(raw, v + (" #" + comment));
    PairedReads(v, comment);
  }

  /** A bare value with a comment behind it reads as the value, unless value and comment look like a quoted
      string. */
  lemma CommentedValueReads(v: string, comment: string)
    requires v != "" && !IsSpace(v[0]) && !IsSpace(v[|v| - 1]) && !HasComment(v)
    ensures ParseValue(v + (" #" + comment)) == v <==> !LooksQuoted(v, comment)
  {
    var raw, c := v + (" #" + comment), RStrip(comment);
    var rest := " #" + c;
    StripCommented(v, comment);
    LastOfCommented(v, c);
    if Quoted(v + rest) { PairedParses(raw, v, c); } else { CommentedParses(raw, v, rest); }
  }

  /** A bare value without one reads as it is, unless it begins and ends with the same quote. */
  lemma PlainValueReads(v: string)
    requires v != "" && !IsSpace(v[0]) && !IsSpace(v[|v| - 1]) && !HasComment(v)
    requires !((v[0] == '"' || v[0] == '\'') && v[|v| - 1] == v[0])
    ensures ParseValue(v) == v
  {
    assert v + "" == v;
    CommentIsCut(v, "");
  }

  /** A quoted value reads as what the quotes enclose, unescaped, hashes and blanks included. */
  lemma QuotedReads(quote: char, inner: string)
    requires quote == '"' || quote == '\''
    ensures ParseValue([quote] + inner + [quote]) == Unescape(inner)
  {
    var raw := [quote] + inner + [quote];
    assert raw[0] == quote && raw[|raw| - 1] == quote && raw[1..|raw| - 1] == inner;
    assert Strip(raw) == raw;
  }

  // ----- The file -----

  type Env = map<string, string>

  function AddLine(env: Env, line: string): Env {
    match MatchLine(line)
    case None => env
    case Some((key, raw)) => env[key := ParseValue(raw)]
  }

  function ReadLines(lines: seq<string>, env: Env): Env {
    if lines == [] then env else ReadLines(lines[1..], AddLine(env, lines[0]))
  }

  /** `read_env_file`; None stands for a path that is no file. */
  function ReadFile(file: Option<string>): Env {
    if file.None? then map[] else ReadLines(SplitLines(file.value), map[])
  }

  /** The line of a key that has a value, with its line break. */
  function LineOf(key: string, env: Env): string {
    if key in env then FormatLine(key, env[key]) + "\n" else ""
  }

  function Render(keys: seq<string>, env: Env): string {
    if keys == [] then "" else LineOf(keys[0], env) + Render(keys[1..], env)
  }

  function Restrict(keys: seq<string>, env: Env): Env {
    map k | k in keys && k in env :: env[k]
  }

  /** One line break in front of the rest of a file. */
  predicate IsBreak(brk: string, rest: string) {
    brk == "\r\n" || (|brk| == 1 && IsLineBreak(brk[0]) && !(brk == "\r" && "\n" <= rest))
  }

  lemma {:induction false} FirstBreakBefore(line: string, tail: string)
    requires NoBreaks(line) && tail != "" && IsLineBreak(tail[0])
    ensures FirstBreak(line + tail) == |line|
  {
    if line != "" {
      assert line[0] in line && forall c <- line[1..] :: c in line;
      FirstBreakBefore(line[1..], tail);
      assert (line + tail)[1..] == line[1..] + tail;
    }
  }

  /** Whatever break ends it, a line is read as it is. */
  lemma LineEnds(line: string, brk: string, rest: string)
    requires NoBreaks(line) && IsBreak(brk, rest)
    ensures SplitLines(line + brk + rest) == [line] + SplitLines(rest)
  {
    var s := line + brk + rest;
    assert s == line + (brk + rest);
    FirstBreakBefore(line, brk + rest);
    assert s[..|line|] == line && s[|line|..] == brk + rest && s[|line| + |brk|..] == rest;
    assert "\r\n" <= s[|line|..] <==> brk == "\r\n";
  }

  lemma {:induction false} EscapedNoBreaks(value: string)
    requires NoBreaks(value)
    ensures NoBreaks(Escaped(value))
  {
    if value != "" {
      assert value[0] in value && forall c <- value[1..] :: c in value;
      EscapedNoBreaks(value[1..]);
    }
  }

  lemma FormattedNoBreaks(key: string, value: string)
    requires IsKey(key) && NoBreaks(value)
    ensures NoBreaks(FormatLine(key, value))
  {
    EscapeIsEscaped(value);
    EscapedNoBreaks(value);
    assert forall c <- key :: IsKeyChar(c) && !IsLineBreak(c);
    assert NoBreaks(FormatValue(value));
    assert NoBreaks(" = ") && NoBreaks(" =");
  }

  /** What reading the rendered lines adds, key by key. */
  function ReadBack(keys: seq<string>, env: Env, start: Env): Env {
    if keys == [] then start
    else ReadBack(keys[1..], env,
           if keys[0] in env then start[keys[0] := ParseValue(FormatValue(env[keys[0]]))] else start)
  }

  lemma {:induction false} ReadRendered(keys: seq<string>, env: Env, start: Env)
    requires forall k <- keys :: IsKey(k) && (k in env ==> NoBreaks(env[k]))
    ensures ReadLines(SplitLines(Render(keys, env)), start) == ReadBack(keys, env, start)
  {
    if keys != [] {
      var key, rest := keys[0], Render(keys[1..], env);
      assert key in keys && forall k <- keys[1..] :: k in keys;
      if key in env {
        var line := FormatLine(key, env[key]);
        FormattedNoBreaks(key, env[key]);
        LineEnds(line, "\n", rest);
        assert FormatLine(key, env[key]) + "\n" + rest == line + "\n" + rest;
        MatchFormatted(key, env[key]);
        assert ([line] + SplitLines(rest))[1..] == SplitLines(rest);
        ReadRendered(keys[1..], env, AddLine(start, line));
      } else {
        assert Render(keys, env) == rest;
        ReadRendered(keys[1..], env, start);
      }
    }
  }

  lemma {:induction false} ReadBackContents(keys: seq<string>, env: Env, start: Env)
    ensures var r := ReadBack(keys, env, start);
            && (forall k :: k in r <==> k in start || (k in keys && k in env))
            && forall k <- r :: r[k] == if k in keys && k in env then ParseValue(FormatValue(env[k])) else start[k]
  {
    if keys != [] {
      assert forall k :: k in keys <==> k == keys[0] || k in keys[1..];
      ReadBackContents(keys[1..], env,
        if keys[0] in env then start[keys[0] := ParseValue(FormatValue(env[keys[0]]))] else start);
    }
  }

  /** A hand-written line with a comment, commented out or not, sets its key to the value before the comment. */
  lemma HandWrittenLine(env: Env, line: string, key: string, v: string, comment: string, lead: string, mark: string,
                        indent: string, before: string, after: string)
    requires v != "" && !IsSpace(v[0]) && !IsSpace(v[|v| - 1]) && !HasComment(v) && !LooksQuoted(v, comment)
    requires IsLineOf(line, key, v + (" #" + comment), lead, mark, indent, before, after)
    ensures AddLine(env, line) == env[key := v]
  {
    LineOfMatches(line, key, v + (" #" + comment), lead, mark, indent, before, after);
    CommentedValueReads(v, comment);
  }

  // ----- No value ever read holds a line break -----

  lemma {:induction false} ReplaceNoBreaks(s: string, find: string, put: string)
    requires find != "" && NoBreaks(s) && NoBreaks(put)
    ensures NoBreaks(Replace(s, find, put))
  {
    if s == "" {
    } else if find <= s {
      assert forall c <- s[|find|..] :: c in s;
      ReplaceNoBreaks(s[|find|..], find, put);
    } else {
      assert s[0] in s && forall c <- s[1..] :: c in s;
      ReplaceNoBreaks(s[1..], find, put);
    }
  }

  lemma {:induction false} StripNoBreaks(s: string)
    requires NoBreaks(s)
    ensures NoBreaks(LStrip(s)) && NoBreaks(RStrip(s)) && NoBreaks(BeforeComment(s)) && NoBreaks(SkipBlanks(s))
    decreases |s|
  {
    if s != "" {
      assert s[0] in s && (forall c <- s[1..] :: c in s) && (forall c <- s[..|s| - 1] :: c in s);
      StripNoBreaks(s[1..]);
      StripNoBreaks(s[..|s| - 1]);
    }
  }

  lemma ParseNoBreaks(raw: string)
    requires NoBreaks(raw)
    ensures NoBreaks(ParseValue(raw))
  {
    StripNoBreaks(raw);
    StripNoBreaks(LStrip(raw));
    var s := Strip(raw);
    if s != "" {
      StripNoBreaks(s);
      StripNoBreaks(BeforeComment(s));
      var inner := if |s| == 1 then "" else s[1..|s| - 1];
      assert forall c <- inner :: c in s;
      ReplaceNoBreaks(inner, "\\\"", "\"");
      ReplaceNoBreaks(Replace(inner, "\\\"", "\""), "\\\\", "\\");
    }
  }

  lemma AddLineNoBreaks(env: Env, line: string)
    requires NoBreaks(line) && forall k <- env :: NoBreaks(env[k])
    ensures forall k <- AddLine(env, line) :: NoBreaks(AddLine(env, line)[k])
  {
    if MatchLine(line).Some? {
      StripNoBreaks(line);
      var a := SkipBlanks(line);
      assert forall c <- a[1..] :: c in a;
      if a != "" { StripNoBreaks(a[1..]); }
      var b := if a != "" && a[0] == '#' then SkipBlanks(a[1..]) else a;
      assert forall c <- b[KeyLength(b)..] :: c in b;
      StripNoBreaks(b[KeyLength(b)..]);
      var d := SkipBlanks(b[KeyLength(b)..]);
      assert forall c <- d[1..] :: c in d;
      StripNoBreaks(d[1..]);
      ParseNoBreaks(SkipBlanks(d[1..]));
    }
  }

  lemma {:induction false} FirstBreakNoBreaks(s: string)
    ensures NoBreaks(s[..FirstBreak(s)])
  {
    if s != "" && !IsLineBreak(s[0]) {
      FirstBreakNoBreaks(s[1..]);
      assert s[..FirstBreak(s)] == [s[0]] + s[1..][..FirstBreak(s[1..])];
    }
  }

  lemma {:induction false} SplitNoBreaks(s: string)
    ensures forall line <- SplitLines(s) :: NoBreaks(line)
    decreases |s|
  {
    if s != "" {
      var n := FirstBreak(s);
      FirstBreakNoBreaks(s);
      if n == |s| {
        assert s[..n] == s;
      } else {
        SplitNoBreaks(s[n + (if "\r\n" <= s[n..] then 2 else 1)..]);
      }
    }
  }

  lemma {:induction false} ReadNoBreaks(lines: seq<string>, env: Env)
    requires (forall line <- lines :: NoBreaks(line)) && forall k <- env :: NoBreaks(env[k])
    ensures forall k <- ReadLines(lines, env) :: NoBreaks(ReadLines(lines, env)[k])
  {
    if lines != [] {
      assert lines[0] in lines && forall line <- lines[1..] :: line in lines;
      AddLineNoBreaks(env, lines[0]);
      ReadNoBreaks(lines[1..], AddLine(env, lines[0]));
    }
  }

  // ----- Main result -----

  lemma CopilotKeysAreKeys()
    ensures forall k <- COPILOT_ENV_KEYS :: IsKey(k)
  {
  }

  lemma BreakFreeFile(keys: seq<string>, env: Env)
    requires forall k <- keys :: IsKey(k) && (k in env ==> NoBreaks(env[k]))
    ensures ReadFile(Some(Render(keys, env))) == Restrict(keys, env)
            <==> forall k <- Restrict(keys, env) :: Survives(env[k])
  {
    ReadRendered(keys, env, map[]);
    ReadBackContents(keys, env, map[]);
    var read, kept := ReadBack(keys, env, map[]), Restrict(keys, env);
    assert read.Keys == kept.Keys;
    forall k | k in kept ensures read[k] == kept[k] <==> Survives(env[k]) { ValueRoundTrips(env[k]); }
  }

  lemma NoBreakIsRead(file: Option<string>)
    ensures forall k <- ReadFile(file) :: NoBreaks(ReadFile(file)[k])
  {
    if file.Some? {
      SplitNoBreaks(file.value);
      ReadNoBreaks(SplitLines(file.value), map[]);
    }
  }

  /** Reading the written file gives the merged settings back exactly when every one of them is free of
      line breaks and survives quoting. */
  lemma FileRoundTrips(keys: seq<string>, env: Env)
    requires forall k <- keys :: IsKey(k)
    ensures ReadFile(Some(Render(keys, env))) == Restrict(keys, env)
            <==> forall k <- Restrict(keys, env) :: NoBreaks(env[k]) && Survives(env[k])
  {
    var kept := Restrict(keys, env);
    if k :| k in kept && !NoBreaks(env[k]) {
      NoBreakIsRead(Some(Render(keys, env)));
      assert kept[k] == env[k];
    } else {
      forall k | k in keys && k in env ensures NoBreaks(env[k]) { assert k in kept; }
      BreakFreeFile(keys, env);
    }
  }

  method ReadEnvFile(file: Option<string>) returns (values: Env)
    ensures values == ReadFile(file)
  {
    if file.None? { return map[]; }
    values := map[];
    var lines := SplitLines(file.value);
    for i := 0 to |lines|
      invariant ReadLines(lines[i..], values) == ReadFile(file)
    {
      var found := MatchLine(lines[i]);
      if found.Some? {
        values := values[found.value.0 := ParseValue(found.value.1)];
      }
    }
  }

  function Join(lines: seq<string>): string {
    if lines == [] then ""
    else if |lines| == 1 then lines[0]
    else Join(lines[..|lines| - 1]) + "\n" + lines[|lines| - 1]
  }

  lemma AppendAssociates(a: string, b: string, c: string)
    ensures a + (b + c) == a + b + c
  {
  }

  lemma {:induction false} RenderSnoc(keys: seq<string>, key: string, env: Env)
    ensures Render(keys + [key], env) == Render(keys, env) + LineOf(key, env)
  {
    if keys == [] {
      assert ([] + [key])[1..] == [];
    } else {
      RenderSnoc(keys[1..], key, env);
      assert (keys + [key])[1..] == keys[1..] + [key];
      AppendAssociates(LineOf(keys[0], env), Render(keys[1..], env), LineOf(key, env));
    }
  }

  /** The lines as the file's text. */
  function Text(lines: seq<string>): string {
    if lines == [] then "" else Join(lines) + "\n"
  }

  lemma TextSnoc(lines: seq<string>, line: string)
    ensures Text(lines + [line]) == Text(lines) + (line + "\n")
  {
    assert (lines + [line])[..|lines|] == lines;
    if lines != [] {
      AppendAssociates(Join(lines) + "\n", line, "\n");
    }
  }

  lemma FormatOneMore(keys: seq<string>, i: nat, env: Env, lines: seq<string>)
    requires i < |keys| && Text(lines) == Render(keys[..i], env)
    ensures Text(if keys[i] in env then lines + [FormatLine(keys[i], env[keys[i]])] else lines) ==
            Render(keys[..i + 1], env)
  {
    assert keys[..i + 1] == keys[..i] + [keys[i]];
    RenderSnoc(keys[..i], keys[i], env);
    if keys[i] in env { TextSnoc(lines, FormatLine(keys[i], env[keys[i]])); }
  }

  method FormatLines(keys: seq<string>, env: Env) returns (lines: seq<string>)
    ensures Text(lines) == Render(keys, env)
    ensures forall line <- lines :: line != ""
  {
    lines := [];
    for i := 0 to |keys|
      invariant Text(lines) == Render(keys[..i], env)
      invariant forall line <- lines :: line != ""
    {
      FormatOneMore(keys, i, env, lines);
      if keys[i] in env {
        var line := FormatLine(keys[i], env[keys[i]]);
        assert '=' in line;
        lines := lines + [line];
      }
    }
    assert keys[..|keys|] == keys;
  }

  /** `write_env_file`: the file's settings overridden by the new ones; what it leaves reads back as that
      merge, cut to the Copilot keys, exactly when all its values survive. */
  method WriteEnvFile(file: Option<string>, values: Env) returns (content: string)
    ensures var merged := ReadFile(file) + values;
            var kept := Restrict(COPILOT_ENV_KEYS, merged);
            && content == Render(COPILOT_ENV_KEYS, merged)
            && (ReadFile(Some(content)) == kept <==> forall k <- kept :: NoBreaks(merged[k]) && Survives(merged[k]))
  {
    var existing := ReadEnvFile(file);
    var merged := existing + values;
    var lines := FormatLines(COPILOT_ENV_KEYS, merged);
    content := Join(lines);
    if |lines| == 1 { assert lines[0] in lines; }
    if content != "" { content := content + "\n"; }
    CopilotKeysAreKeys();
    FileRoundTrips(COPILOT_ENV_KEYS, merged);
  }
}
