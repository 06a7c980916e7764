/**
 Editing the daemon's env file (bud/src/lifecycle.rs): reading `KEY='value'` lines, setting one key
 and removing one key, as functions on the text of the file.
 */
module EnvFile {
  import opened Wrappers
  import opened Collections
  import opened EnvText

  datatype Assignment = Assignment(key: string, value: string)

  predicate KeyChar(c: char) {
    'a' <= c <= 'z' || 'A' <= c <= 'Z' || '0' <= c <= '9' || c == '_'
  }

  predicate Legal(key: string) {
    key != "" && forall i :: 0 <= i < |key| ==> KeyChar(key[i])
  }

  // ---------------------------------------------------------------------------
  // Quoting
  // ---------------------------------------------------------------------------

  const QUOTE_IN_QUOTES := "'\\''"

  function Escape(value: string): string {
    if value == "" then "" else (if value[0] == '\'' then QUOTE_IN_QUOTES else [value[0]]) + Escape(value[1..])
  }

  function Unescape(s: string): string {
    if s == "" then ""
    else if QUOTE_IN_QUOTES <= s then "'" + Unescape(s[|QUOTE_IN_QUOTES|..])
    else [s[0]] + Unescape(s[1..])
  }

  /** `sh_single_quote`. */
  function Quote(value: string): string {
    "'" + Escape(value) + "'"
  }

  predicate Enclosed(raw: string, mark: char) {
    |raw| >= 2 && raw[0] == mark && raw[|raw| - 1] == mark
  }

  function Unquote(raw: string): string {
    if Enclosed(raw, '\'') then Unescape(raw[1..|raw| - 1])
    else if Enclosed(raw, '"') then raw[1..|raw| - 1]
    else raw
  }

  lemma {:induction false} UnescapeEscape(value: string)
    ensures Unescape(Escape(value)) == value
    ensures '\n' !in value ==> '\n' !in Escape(value)
  {
    if value != "" {
      var rest := Escape(value[1..]);
      UnescapeEscape(value[1..]);
      if value[0] == '\'' {
        assert (QUOTE_IN_QUOTES + rest)[|QUOTE_IN_QUOTES|..] == rest;
      } else {
        assert ([value[0]] + rest)[0] == value[0] && ([value[0]] + rest)[1..] == rest;
        assert QUOTE_IN_QUOTES[0] == '\'';
      }
      assert value == [value[0]] + value[1..];
    }
  }

  /** Quoted text is read back as it was, whatever quotes and backslashes it holds. */
  lemma UnquoteQuote(value: string)
    ensures Unquote(Quote(value)) == value
    ensures '\n' !in value ==> '\n' !in Quote(value)
  {
    UnescapeEscape(value);
    var q := Quote(value);
    assert q[0] == '\'' && q[|q| - 1] == '\'' && q[1..|q| - 1] == Escape(value);
  }

  /** Double quotes are taken off as they are, and text without matching quotes is left alone. */
  lemma UnquoteOthers(s: string)
    ensures Unquote("\"" + s + "\"") == s
    ensures s == "" || (s[0] != '\'' && s[0] != '"') ==> Unquote(s) == s
  {
    var q := "\"" + s + "\"";
    assert q[0] == '"' && q[|q| - 1] == '"' && q[1..|q| - 1] == s;
  }

  /** The characters of keys: ASCII letters and digits, and the underscore. */
  lemma KeyChars(c: char)
    ensures KeyChar(c) <==> var n := c as int; 48 <= n <= 57 || 65 <= n <= 90 || n == 95 || 97 <= n <= 122
  {
  }

  // ---------------------------------------------------------------------------
  // One line
  // ---------------------------------------------------------------------------

  /** The key in front of the equals sign. */
  function KeyOf(before: string): string {
    Trim(StripExports(Trim(before)))
  }

  /** The assignment that a trimmed line makes, if it makes one. */
  function ParseText(text: string): Option<Assignment> {
    var e := IndexOf(text, '=');
    if text == "" || text[0] == '#' || e == |text| || !Legal(KeyOf(text[..e])) then None
    else Some(Assignment(KeyOf(text[..e]), Unquote(Trim(text[e + 1..]))))
  }

  function ParseLine(line: string): Option<Assignment> {
    ParseText(Trim(line))
  }

  predicate Assigns(line: string, key: string) {
    ParseLine(line).Some? && ParseLine(line).value.key == key
  }

  /** What the editing functions look at: the line from the name on. */
  function Bare(line: string): string {
    TrimStart(StripExports(TrimStart(line)))
  }

  /** Lines that setting `key` replaces. */
  predicate Matches(line: string, key: string) {
    var e := IndexOf(Bare(line), '=');
    e < |Bare(line)| && Trim(Bare(line)[..e]) == key
  }

  /** Lines that removing `key` takes out. */
  predicate Removed(line: string, key: string) {
    key + "=" <= Bare(line)
  }

  /** Lines with only the word `export`, one or more times, before the equals sign. */
  predicate BareExportLine(line: string) {
    var text := TrimStart(line);
    var e := IndexOf(text, '=');
    e < |text| && BareExport(text[..e])
  }

  /** The equals sign and what is before it survive trimming the end. */
  lemma TrimKeepsName(before: string, rest: string)
    requires '=' !in before && rest != "" && rest[0] == '='
    ensures TrimEnd(before + rest) == before + TrimEnd(rest) && TrimEnd(rest) != "" && TrimEnd(rest)[0] == '='
    ensures IndexOf(TrimEnd(before + rest), '=') == |before|
  {
    TrimEndSuffix(before, rest);
    TrimEndBlank(rest);
    assert !Blank(rest);
    IndexOfAfter(before, TrimEnd(rest), '=');
  }

  /** The name in front of the equals sign, as the editing functions see it. */
  lemma BareName(before: string, rest: string)
    requires '=' !in before && rest != "" && rest[0] == '='
    ensures TrimStart(StripExports(before + rest)) == TrimStart(StripExports(before)) + rest
    ensures IndexOf(TrimStart(StripExports(before + rest)), '=') == |TrimStart(StripExports(before))|
  {
    StripExportsPrefix(before, rest);
    TrimStartPrefix(StripExports(before), rest);
    StripExportsWithout(before, '=');
    TrimStartWithout(StripExports(before), '=');
    IndexOfAfter(TrimStart(StripExports(before)), rest, '=');
  }

  /** The text before the first equals sign of a line, if it has one. */
  function Before(line: string): Option<string> {
    var text := TrimStart(line);
    var e := IndexOf(text, '=');
    if e == |text| then None else Some(text[..e])
  }

  lemma MatchesMeans(line: string, key: string)
    ensures Matches(line, key) <==> Before(line).Some? && Trim(StripExports(Before(line).value)) == key
  {
    var text := TrimStart(line);
    var e := IndexOf(text, '=');
    BeforeIndex(text, '=');
    if e < |text| {
      assert text == text[..e] + text[e..];
      BareName(text[..e], text[e..]);
      TrimStartTwice(StripExports(text[..e]));
    } else {
      StripExportsWithout(text, '=');
      TrimStartWithout(StripExports(text), '=');
      IndexOfNone(Bare(line), '=');
    }
  }

  lemma CommentHasNoKey(before: string)
    requires before != "" && before[0] == '#'
    ensures !Legal(KeyOf(before))
  {
    assert EXPORT[0] == 'e' && TrimStart(before) == before;
    TrimEndBlank(before);
    assert Trim(before) != "" && Trim(before)[0] == '#';
    assert StripExports(Trim(before)) == Trim(before);
    TrimEndTwice(before);
    assert Trim(Trim(before)) == Trim(before);
  }

  lemma ParsedName(before: string, rest: string, key: string)
    requires '=' !in before && rest != "" && rest[0] == '=' && Legal(key)
    ensures var parsed := ParseText(TrimEnd(before + rest));
      parsed.Some? && parsed.value.key == key <==> KeyOf(before) == key
  {
    TrimKeepsName(before, rest);
    assert (before + TrimEnd(rest))[..|before|] == before;
    if before != "" && before[0] == '#' {
      CommentHasNoKey(before);
    }
  }

  lemma AssignsMeans(line: string, key: string)
    requires Legal(key)
    ensures Assigns(line, key) <==> Before(line).Some? && KeyOf(Before(line).value) == key
  {
    var text := TrimStart(line);
    var e := IndexOf(text, '=');
    BeforeIndex(text, '=');
    if e < |text| {
      assert text == text[..e] + text[e..];
      ParsedName(text[..e], text[e..], key);
    } else {
      TrimEndBlank(text);
      IndexOfNone(Trim(line), '=');
    }
  }

  lemma KeyOfName(before: string)
    requires before != "" ==> !White(before[0])
    ensures KeyOf(before) == if BareExport(before) then "export" else Trim(StripExports(before))
    ensures BareExport(before) ==> Trim(StripExports(before)) == ""
  {
    assert TrimStart(before) == before;
    TrimThenStrip(before);
    TrimStartBlank(StripExports(before));
  }

  /**
   A line assigns a key exactly when setting that key would replace the line; the one exception is
   the key `export`, which a line with nothing but the word `export` before its equals sign also
   assigns without being replaced.
   */
  lemma AssignsIffMatches(line: string, key: string)
    requires Legal(key)
    ensures Assigns(line, key) <==> Matches(line, key) || (key == "export" && BareExportLine(line))
    ensures !(Matches(line, key) && BareExportLine(line))
  {
    AssignsMeans(line, key);
    MatchesMeans(line, key);
    if Before(line).Some? {
      TrimStartBlank(line);
      KeyOfName(Before(line).value);
    }
  }

  lemma LegalIsText(key: string)
    requires Legal(key)
    ensures Trim(key) == key && StripExports(key) == key && '=' !in key
    ensures key[0] != '#' && !White(key[0])
  {
    assert KeyChar(key[0]) && KeyChar(key[|key| - 1]);
    assert ' ' !in key;
    StripNothing(key);
  }

  /** Removal sees exactly the assignments without white space before the equals sign. */
  predicate Spaced(line: string) {
    var e := IndexOf(Bare(line), '=');
    0 < e && White(Bare(line)[e - 1])
  }

  lemma NameThenEquals(bare: string, key: string)
    requires Legal(key) && (bare != "" ==> !White(bare[0]))
    requires key + "=" <= bare
    ensures IndexOf(bare, '=') == |key| && bare[..|key|] == key && !White(bare[|key| - 1])
  {
    LegalIsText(key);
    assert bare == key + bare[|key|..] && bare[|key|..][0] == '=';
    IndexOfAfter(key, bare[|key|..], '=');
    assert KeyChar(key[|key| - 1]);
  }

  lemma TightName(bare: string, key: string, e: nat)
    requires e < |bare| && bare[e] == '=' && Legal(key) && !White(bare[0])
    requires Trim(bare[..e]) == key && (e > 0 ==> !White(bare[e - 1]))
    ensures key + "=" <= bare
  {
    assert e > 0;
    TrimNothing(bare[..e]);
    assert bare[..e + 1] == key + "=";
  }

  lemma RemovedIffMatches(line: string, key: string)
    requires Legal(key)
    ensures Removed(line, key) <==> Matches(line, key) && !Spaced(line)
  {
    TrimStartBlank(StripExports(TrimStart(line)));
    if Removed(line, key) {
      NameThenEquals(Bare(line), key);
      LegalIsText(key);
    }
    if Matches(line, key) && !Spaced(line) {
      TightName(Bare(line), key, IndexOf(Bare(line), '='));
    }
  }

  lemma PlainText(text: string, key: string, raw: string)
    requires Legal(key) && text == key + ("=" + raw) && Trim(raw) == raw
    ensures ParseText(text) == Some(Assignment(key, Unquote(raw)))
  {
    LegalIsText(key);
    assert KeyOf(key) == key;
    assert text[..|key|] == key && text[|key| + 1..] == raw && text[0] == key[0];
    IndexOfAfter(key, "=" + raw, '=');
  }

  /** The line written for a key is read back as that key with that value. */
  lemma WrittenLine(key: string, value: string)
    requires Legal(key)
    ensures ParseLine(key + "=" + Quote(value)) == Some(Assignment(key, value))
    ensures Matches(key + "=" + Quote(value), key) && !Spaced(key + "=" + Quote(value))
  {
    var q := Quote(value);
    var line := key + "=" + q;
    assert q[0] == '\'' && q[|q| - 1] == '\'' && line[0] == key[0] && line[|line| - 1] == '\'';
    assert line == key + ("=" + q);
    LegalIsText(key);
    TrimNothing(q);
    TrimNothing(line);
    PlainText(line, key, q);
    UnquoteQuote(value);
    WrittenBare(line, key, q);
    RemovedIffMatches(line, key);
  }

  lemma WrittenBare(line: string, key: string, raw: string)
    requires Legal(key) && line == key + ("=" + raw)
    ensures Bare(line) == line && Removed(line, key)
  {
    LegalIsText(key);
    assert line[0] == key[0];
    StripExportsPrefix(key, "=" + raw);
    assert line[..|key| + 1] == key + "=";
  }

  lemma BeforeNone(line: string)
    requires '=' !in line
    ensures Before(line) == None
  {
    TrimStartWithout(line, '=');
    IndexOfNone(TrimStart(line), '=');
  }

  lemma BeforeSame(before: string, rest: string)
    requires '=' !in before && rest != "" && rest[0] == '='
    ensures Before(before + (rest + "\r")) == Before(before + rest)
  {
    BeforeOf(before, rest);
    BeforeOf(before, rest + "\r");
  }

  /** A trailing carriage return does not change what is before the equals sign. */
  lemma BeforeStripped(line: string)
    ensures Before(StripCr(line)) == Before(line)
  {
    var cut := StripCr(line);
    if cut != line {
      assert line == cut + "\r";
      var e := IndexOf(cut, '=');
      BeforeIndex(cut, '=');
      if e < |cut| {
        assert line == cut[..e] + (cut[e..] + "\r") && cut == cut[..e] + cut[e..];
        BeforeSame(cut[..e], cut[e..]);
      } else {
        BeforeNone(line);
        BeforeNone(cut);
      }
    }
  }

  lemma BeforeOf(before: string, rest: string)
    requires '=' !in before && rest != "" && rest[0] == '='
    ensures Before(before + rest) == Some(TrimStart(before))
  {
    TrimStartPrefix(before, rest);
    TrimStartWithout(before, '=');
    IndexOfAfter(TrimStart(before), rest, '=');
    assert (TrimStart(before) + rest)[..|TrimStart(before)|] == TrimStart(before);
  }

  lemma MatchesStripped(line: string, key: string)
    ensures Matches(StripCr(line), key) <==> Matches(line, key)
    ensures BareExportLine(StripCr(line)) <==> BareExportLine(line)
  {
    BeforeStripped(line);
    MatchesMeans(line, key);
    MatchesMeans(StripCr(line), key);
  }

  lemma {:induction false} UnescapeWithout(s: string, c: char)
    requires c !in s && c != '\''
    ensures c !in Unescape(s)
  {
    if s != "" {
      if QUOTE_IN_QUOTES <= s {
        UnescapeWithout(s[|QUOTE_IN_QUOTES|..], c);
      } else {
        UnescapeWithout(s[1..], c);
      }
    }
  }

  lemma TrimWithout(s: string, c: char)
    requires c !in s
    ensures c !in Trim(s)
  {
    TrimStartWithout(s, c);
    TrimEndBlank(TrimStart(s));
  }

  lemma UnquoteWithout(raw: string, c: char)
    requires c !in raw && c != '\''
    ensures c !in Unquote(raw)
  {
    if Enclosed(raw, '\'') {
      UnescapeWithout(raw[1..|raw| - 1], c);
    }
  }

  /** The value read from a line holds no newline. */
  lemma ParsedOneLine(line: string)
    requires '\n' !in line
    ensures ParseLine(line).Some? ==> '\n' !in ParseLine(line).value.value
  {
    TrimWithout(line, '\n');
    var text := Trim(line);
    var e := IndexOf(text, '=');
    if e < |text| {
      TrimWithout(text[e + 1..], '\n');
      UnquoteWithout(Trim(text[e + 1..]), '\n');
    }
  }

  /** Lines that differ in a trailing carriage return make the same assignment. */
  lemma ParseStripped(line: string)
    ensures ParseLine(StripCr(line)) == ParseLine(line)
  {
    if line != "" && line[|line| - 1] == '\r' {
      TrimEitherWay(line);
      TrimEitherWay(StripCr(line));
    }
  }

  // ---------------------------------------------------------------------------
  // Lines of a text
  // ---------------------------------------------------------------------------

  function StripCr(line: string): string {
    if line != "" && line[|line| - 1] == '\r' then line[..|line| - 1] else line
  }

  /** `str::lines`: a carriage return before a newline goes, one at the very end of the text stays. */
  function Lines(text: string): seq<string> {
    if text == "" then []
    else
      var n := IndexOf(text, '\n');
      if n == |text| then [text] else [StripCr(text[..n])] + Lines(text[n + 1..])
  }

  function Join(lines: seq<string>): string {
    if lines == [] then "" else if |lines| == 1 then lines[0] else lines[0] + "\n" + Join(lines[1..])
  }

  /** What the editing functions write. */
  function Unlines(lines: seq<string>): string {
    Join(lines) + "\n"
  }

  predicate OneLine(s: string) { '\n' !in s }

  predicate AllLines(lines: seq<string>) {
    forall i :: 0 <= i < |lines| ==> OneLine(lines[i])
  }

  lemma {:induction false} LinesAreLines(text: string)
    ensures AllLines(Lines(text))
  {
    if text != "" {
      var n := IndexOf(text, '\n');
      assert OneLine(text[..n]) && OneLine(StripCr(text[..n]));
      if n < |text| {
        LinesAreLines(text[n + 1..]);
      } else {
        assert text[..n] == text;
      }
    }
  }

  function StripAll(lines: seq<string>): seq<string> {
    if lines == [] then [] else [StripCr(lines[0])] + StripAll(lines[1..])
  }

  lemma FirstLine(line: string, rest: string)
    requires OneLine(line)
    ensures Lines(line + "\n" + rest) == [StripCr(line)] + Lines(rest)
  {
    var text := line + "\n" + rest;
    assert text[..|line|] == line && text[|line|] == '\n' && text[|line| + 1..] == rest;
    IndexOfIs(text, '\n', |line|);
  }

  predicate EndsLine(text: string) {
    text == "" || text[|text| - 1] == '\n'
  }

  lemma CutLine(text: string) returns (line: string, rest: string)
    requires text != "" && EndsLine(text)
    ensures text == line + "\n" + rest && OneLine(line) && EndsLine(rest)
  {
    var n := IndexOf(text, '\n');
    BeforeIndex(text, '\n');
    assert text[|text| - 1] in text;
    line, rest := text[..n], text[n + 1..];
    assert rest != "" ==> rest[|rest| - 1] == text[|text| - 1];
  }

  lemma Regrouped(line: string, rest: string, b: string)
    ensures (line + "\n" + rest) + b == line + "\n" + (rest + b)
  {
  }

  lemma LinesConcatFirst(line: string, rest: string, b: string)
    requires OneLine(line) && Lines(rest + b) == Lines(rest) + Lines(b)
    ensures Lines((line + "\n" + rest) + b) == Lines(line + "\n" + rest) + Lines(b)
  {
    Regrouped(line, rest, b);
    FirstLine(line, rest);
    FirstLine(line, rest + b);
    Append([StripCr(line)], Lines(rest), Lines(b));
  }

  /** At the end of a line, a text can be cut and its parts read one after the other. */
  lemma {:induction false} LinesConcat(a: string, b: string)
    requires EndsLine(a)
    ensures Lines(a + b) == Lines(a) + Lines(b)
    decreases |a|
  {
    if a == "" {
      assert a + b == b;
    } else {
      var line, rest := CutLine(a);
      LinesConcat(rest, b);
      LinesConcatFirst(line, rest, b);
    }
  }

  /** The lines, each with its newline. */
  function Ended(lines: seq<string>): (r: string)
    ensures EndsLine(r)
  {
    if lines == [] then "" else lines[0] + "\n" + Ended(lines[1..])
  }

  lemma EndedFirst(line: string, lines: seq<string>)
    ensures Ended([line] + lines) == line + "\n" + Ended(lines)
  {
    assert ([line] + lines)[1..] == lines;
  }

  lemma {:induction false} EndedConcat(a: seq<string>, b: seq<string>)
    ensures Ended(a + b) == Ended(a) + Ended(b)
  {
    if a == [] {
      assert a + b == b;
    } else {
      assert a + b == [a[0]] + (a[1..] + b);
      EndedFirst(a[0], a[1..] + b);
      EndedConcat(a[1..], b);
    }
  }

  lemma {:induction false} LinesEnded(lines: seq<string>)
    requires AllLines(lines)
    ensures Lines(Ended(lines)) == StripAll(lines)
  {
    if lines != [] {
      LinesEnded(lines[1..]);
      FirstLine(lines[0], Ended(lines[1..]));
    }
  }

  lemma {:induction false} UnlinesEnded(lines: seq<string>)
    requires lines != []
    ensures Unlines(lines) == Ended(lines)
  {
    if |lines| == 1 {
      assert lines[1..] == [];
    } else {
      UnlinesEnded(lines[1..]);
      assert Unlines(lines) == lines[0] + "\n" + Unlines(lines[1..]);
    }
  }

  /** What is written as lines is read as lines, but for trailing carriage returns. */
  lemma {:induction false} LinesUnlines(lines: seq<string>)
    requires AllLines(lines)
    ensures Lines(Unlines(lines)) == if lines == [] then [""] else StripAll(lines)
  {
    if lines == [] {
      FirstLine("", "");
      assert "" + "\n" + "" == Unlines(lines);
    } else if |lines| == 1 {
      FirstLine(lines[0], "");
      assert lines[0] + "\n" + "" == Unlines(lines);
      assert Lines("") == [] && StripAll(lines[1..]) == [];
    } else {
      LinesUnlines(lines[1..]);
      FirstLine(lines[0], Unlines(lines[1..]));
      assert lines[0] + "\n" + Unlines(lines[1..]) == Unlines(lines);
    }
  }

  // ---------------------------------------------------------------------------
  // Assignments
  // ---------------------------------------------------------------------------

  /** The assignment of a line as a list of at most one. */
  function Made(line: string): seq<Assignment> {
    match ParseLine(line)
    case Some(a) => [a]
    case None => []
  }

  function Assignments(lines: seq<string>): seq<Assignment> {
    if lines == [] then [] else Made(lines[0]) + Assignments(lines[1..])
  }

  /** The assignments of a file. */
  function Parse(text: string): seq<Assignment> {
    Assignments(Lines(text))
  }

  /** The assignments of one key, and those of all others. */
  function Of(assignments: seq<Assignment>, key: string): seq<Assignment> {
    if assignments == [] then []
    else (if assignments[0].key == key then [assignments[0]] else []) + Of(assignments[1..], key)
  }

  function Others(assignments: seq<Assignment>, key: string): seq<Assignment> {
    if assignments == [] then []
    else (if assignments[0].key == key then [] else [assignments[0]]) + Others(assignments[1..], key)
  }

  lemma {:induction false} AssignmentsStripped(lines: seq<string>)
    ensures Assignments(StripAll(lines)) == Assignments(lines)
  {
    if lines != [] {
      ParseStripped(lines[0]);
      AssignmentsStripped(lines[1..]);
      assert StripAll(lines)[0] == StripCr(lines[0]) && StripAll(lines)[1..] == StripAll(lines[1..]);
    }
  }

  /** Writing lines and reading the file again gives the assignments of those lines. */
  lemma ParseUnlines(lines: seq<string>)
    requires AllLines(lines)
    ensures Parse(Unlines(lines)) == Assignments(lines)
  {
    LinesUnlines(lines);
    AssignmentsStripped(lines);
    if lines == [] {
      assert Assignments([""]) == [] by {
        assert [""][1..] == [];
        assert ParseLine("") == None;
      }
    }
  }

  method ParseEnvFile(text: string) returns (vars: seq<Assignment>)
    ensures vars == Parse(text)
  {
    vars := [];
    var lines := Lines(text);
    for i := 0 to |lines|
      invariant vars + Assignments(lines[i..]) == Assignments(lines)
    {
      assert lines[i..][0] == lines[i] && lines[i..][1..] == lines[i + 1..];
      vars := vars + Made(lines[i]);
    }
  }
}
