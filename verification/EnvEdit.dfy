/**
 Setting and removing a key in the daemon's env file (bud/src/lifecycle.rs), and what reading the
 edited file gives.
 */
module EnvEdit {
  import opened Wrappers
  import opened Collections
  import opened EnvText
  import opened EnvFile

  /** The file as the editing functions find it. */
  datatype File = Text(text: string) | Missing | Unreadable

  // ---------------------------------------------------------------------------
  // Setting a key
  // ---------------------------------------------------------------------------

  function Written(key: string, value: string): string {
    key + "=" + Quote(value)
  }

  /** The first line for the key becomes `quoted`, further ones go; without any, it is added at the end. */
  function UpsertLines(lines: seq<string>, key: string, quoted: string, replaced: bool): seq<string> {
    var line := if replaced then [] else [quoted];
    if lines == [] then line
    else if Matches(lines[0], key) then line + UpsertLines(lines[1..], key, quoted, true)
    else [lines[0]] + UpsertLines(lines[1..], key, quoted, replaced)
  }

  function Upsert(text: string, key: string, value: string): string {
    Unlines(UpsertLines(Lines(text), key, Written(key, value), false))
  }

  lemma UpsertLine(lines: seq<string>, i: nat, key: string, quoted: string, replaced: bool)
    requires i < |lines|
    ensures UpsertLines(lines[i..], key, quoted, replaced) ==
      if Matches(lines[i], key) then (if replaced then [] else [quoted]) + UpsertLines(lines[i + 1..], key, quoted, true)
      else [lines[i]] + UpsertLines(lines[i + 1..], key, quoted, replaced)
  {
    assert lines[i..][0] == lines[i] && lines[i..][1..] == lines[i + 1..];
  }

  method ReplaceLines(content: seq<string>, key: string, quoted: string) returns (lines: seq<string>)
    ensures lines == UpsertLines(content, key, quoted, false)
  {
    lines := [];
    var replaced := false;
    assert content[0..] == content;
    for i := 0 to |content|
      invariant lines + UpsertLines(content[i..], key, quoted, replaced) == UpsertLines(content, key, quoted, false)
    {
      UpsertLine(content, i, key, quoted, replaced);
      var matched := Matches(content[i], key);
      if matched {
        if !replaced {
          Append(lines, [quoted], UpsertLines(content[i + 1..], key, quoted, true));
          lines := lines + [quoted];
          replaced := true;
        } else {
          assert [] + UpsertLines(content[i + 1..], key, quoted, true) == UpsertLines(content[i + 1..], key, quoted, true);
        }
      } else {
        Append(lines, [content[i]], UpsertLines(content[i + 1..], key, quoted, replaced));
        lines := lines + [content[i]];
      }
    }
    if !replaced {
      lines := lines + [quoted];
    }
  }

  method UpsertEnvVar(file: File, key: string, value: string) returns (written: Result<string>)
    ensures file.Text? ==> written == Ok(Upsert(file.text, key, value))
    ensures file.Missing? ==> written == Ok(Upsert("", key, value))
    ensures file.Unreadable? ==> written == Err
  {
    if file.Unreadable? {
      return Err;
    }
    var content := if file.Text? then file.text else "";
    var lines := ReplaceLines(Lines(content), key, Written(key, value));
    return Ok(Unlines(lines));
  }

  // ---------------------------------------------------------------------------
  // Removing a key
  // ---------------------------------------------------------------------------

  function RemoveLines(lines: seq<string>, key: string): seq<string> {
    if lines == [] then []
    else (if Removed(lines[0], key) then [] else [lines[0]]) + RemoveLines(lines[1..], key)
  }

  predicate AnyRemoved(lines: seq<string>, key: string) {
    lines != [] && (Removed(lines[0], key) || AnyRemoved(lines[1..], key))
  }

  /** The text after removal; it is not rewritten unless some line goes. */
  function Remove(text: string, key: string): string {
    if AnyRemoved(Lines(text), key) then Unlines(RemoveLines(Lines(text), key)) else text
  }

  lemma {:induction false} NothingRemoved(lines: seq<string>, key: string)
    requires !AnyRemoved(lines, key)
    ensures RemoveLines(lines, key) == lines
  {
    if lines != [] {
      NothingRemoved(lines[1..], key);
    }
  }

  lemma RemoveLine(lines: seq<string>, i: nat, key: string)
    requires i < |lines|
    ensures AnyRemoved(lines[i..], key) <==> Removed(lines[i], key) || AnyRemoved(lines[i + 1..], key)
    ensures RemoveLines(lines[i..], key)
         == (if Removed(lines[i], key) then [] else [lines[i]]) + RemoveLines(lines[i + 1..], key)
  {
    assert lines[i..][0] == lines[i] && lines[i..][1..] == lines[i + 1..];
  }

  method FilterLines(content: seq<string>, key: string) returns (lines: seq<string>, removed: bool)
    ensures lines == RemoveLines(content, key)
    ensures removed <==> AnyRemoved(content, key)
  {
    lines, removed := [], false;
    assert content[0..] == content;
    for i := 0 to |content|
      invariant lines + RemoveLines(content[i..], key) == RemoveLines(content, key)
      invariant removed || AnyRemoved(content[i..], key) <==> AnyRemoved(content, key)
    {
      RemoveLine(content, i, key);
      var matched := Removed(content[i], key);
      if matched {
        assert [] + RemoveLines(content[i + 1..], key) == RemoveLines(content[i + 1..], key);
        removed := true;
      } else {
        Append(lines, [content[i]], RemoveLines(content[i + 1..], key));
        lines := lines + [content[i]];
      }
    }
  }

  method RemoveEnvVar(file: File, key: string) returns (removed: Result<bool>, written: Option<string>)
    ensures file.Missing? ==> removed == Ok(false) && written == None
    ensures file.Unreadable? ==> removed == Err && written == None
    ensures file.Text? ==> removed == Ok(AnyRemoved(Lines(file.text), key))
    ensures file.Text? ==> Remove(file.text, key) == (if written.Some? then written.value else file.text)
    ensures written.Some? <==> removed == Ok(true)
  {
    if file.Missing? {
      return Ok(false), None;
    } else if file.Unreadable? {
      return Err, None;
    }
    var lines, any := FilterLines(Lines(file.text), key);
    return Ok(any), if any then Some(Unlines(lines)) else None;
  }

  // ---------------------------------------------------------------------------
  // Assignments of one key and of the others
  // ---------------------------------------------------------------------------

  lemma {:induction false} OfConcat(a: seq<Assignment>, b: seq<Assignment>, key: string)
    ensures Of(a + b, key) == Of(a, key) + Of(b, key)
  {
    if a == [] {
      assert a + b == b;
    } else {
      assert (a + b)[0] == a[0] && (a + b)[1..] == a[1..] + b;
      OfConcat(a[1..], b, key);
    }
  }

  lemma {:induction false} OthersConcat(a: seq<Assignment>, b: seq<Assignment>, key: string)
    ensures Others(a + b, key) == Others(a, key) + Others(b, key)
  {
    if a == [] {
      assert a + b == b;
    } else {
      assert (a + b)[0] == a[0] && (a + b)[1..] == a[1..] + b;
      OthersConcat(a[1..], b, key);
    }
  }

  lemma SplitMade(line: string, key: string)
    ensures Of(Made(line), key) == if Assigns(line, key) then Made(line) else []
    ensures Others(Made(line), key) == if Assigns(line, key) then [] else Made(line)
    ensures |Made(line)| <= 1 && (Assigns(line, key) ==> |Made(line)| == 1)
  {
    var m := Made(line);
    if m != [] {
      assert m[1..] == [];
    }
  }

  /** One line in front of others. */
  lemma SplitLine(line: string, lines: seq<string>, key: string)
    ensures Of(Assignments([line] + lines), key)
         == (if Assigns(line, key) then Made(line) else []) + Of(Assignments(lines), key)
    ensures Others(Assignments([line] + lines), key)
         == (if Assigns(line, key) then [] else Made(line)) + Others(Assignments(lines), key)
  {
    assert ([line] + lines)[1..] == lines;
    SplitMade(line, key);
    OfConcat(Made(line), Assignments(lines), key);
    OthersConcat(Made(line), Assignments(lines), key);
  }

  /** Lines that still assign the key although setting it does not replace them. */
  predicate Missed(line: string, key: string) {
    key == "export" && BareExportLine(line)
  }

  function Misses(lines: seq<string>, key: string): nat {
    if lines == [] then 0 else (if Missed(lines[0], key) then 1 else 0) + Misses(lines[1..], key)
  }

  /** The lines that are not for the key. */
  function Unmatched(lines: seq<string>, key: string): seq<string> {
    if lines == [] then []
    else (if Matches(lines[0], key) then [] else [lines[0]]) + Unmatched(lines[1..], key)
  }

  predicate NoneMatches(lines: seq<string>, key: string) {
    lines == [] || (!Matches(lines[0], key) && NoneMatches(lines[1..], key))
  }

  lemma UnmatchedLine(line: string, lines: seq<string>, key: string)
    ensures Unmatched([line] + lines, key)
         == (if Matches(line, key) then [] else [line]) + Unmatched(lines, key)
  {
    assert ([line] + lines)[1..] == lines;
  }

  lemma {:induction false} UpsertReplaced(lines: seq<string>, key: string, quoted: string)
    ensures UpsertLines(lines, key, quoted, true) == Unmatched(lines, key)
  {
    if lines != [] {
      UpsertReplaced(lines[1..], key, quoted);
    }
  }

  /** The lines in front of the first line for the key, and those behind it that are not for the key. */
  function LinesBefore(lines: seq<string>, key: string): seq<string> {
    if lines == [] || Matches(lines[0], key) then [] else [lines[0]] + LinesBefore(lines[1..], key)
  }

  function LinesBehind(lines: seq<string>, key: string): seq<string> {
    if lines == [] then []
    else if Matches(lines[0], key) then Unmatched(lines[1..], key)
    else LinesBehind(lines[1..], key)
  }

  lemma ShapeFirst(a: seq<string>, x: seq<string>, q: seq<string>, y: seq<string>)
    ensures a + (x + q + y) == (a + x) + q + y && a + (x + y) == (a + x) + y
  {
  }

  lemma ShapeHere(q: seq<string>, y: seq<string>)
    ensures [] + q + y == q + y && [] + y == y
  {
  }

  /** Setting a key puts one line among those that are not for the key; these stay as they are, in order. */
  lemma {:induction false} UpsertShape(lines: seq<string>, key: string, quoted: string)
    ensures UpsertLines(lines, key, quoted, false) == LinesBefore(lines, key) + [quoted] + LinesBehind(lines, key)
    ensures LinesBefore(lines, key) + LinesBehind(lines, key) == Unmatched(lines, key)
  {
    if lines == [] {
      ShapeHere([quoted], []);
    } else {
      var rest := lines[1..];
      UpsertReplaced(rest, key, quoted);
      ShapeHere([quoted], Unmatched(rest, key));
      UpsertShape(rest, key, quoted);
      ShapeFirst([lines[0]], LinesBefore(rest, key), [quoted], LinesBehind(rest, key));
    }
  }

  lemma {:induction false} UnmatchedAllLines(lines: seq<string>, key: string)
    requires AllLines(lines)
    ensures AllLines(Unmatched(lines, key))
  {
    if lines != [] {
      UnmatchedAllLines(lines[1..], key);
    }
  }

  /** The text written, and its lines, around those of the new line and its newline. */
  lemma UpsertText(text: string, key: string, value: string) returns (before: seq<string>, behind: seq<string>)
    ensures before + behind == Unmatched(Lines(text), key) && AllLines(before) && AllLines(behind)
    ensures Upsert(text, key, value) == Ended(before) + (Written(key, value) + "\n") + Ended(behind)
    ensures Lines(Upsert(text, key, value)) == StripAll(before) + Lines(Written(key, value) + "\n") + StripAll(behind)
  {
    var lines, quoted := Lines(text), Written(key, value);
    before, behind := LinesBefore(lines, key), LinesBehind(lines, key);
    UpsertShape(lines, key, quoted);
    LinesAreLines(text);
    UnmatchedAllLines(lines, key);
    SplitAllLines(before, behind);
    UnlinesEnded(before + [quoted] + behind);
    EndedConcat(before + [quoted], behind);
    EndedConcat(before, [quoted]);
    EndedOne(quoted);
    EndsWithin(Ended(before), quoted);
    LinesConcat(Ended(before) + (quoted + "\n"), Ended(behind));
    LinesConcat(Ended(before), quoted + "\n");
    LinesEnded(before);
    LinesEnded(behind);
  }

  lemma EndedOne(line: string)
    ensures Ended([line]) == line + "\n"
  {
    assert [line][1..] == [];
    assert line + "\n" + "" == line + "\n";
  }

  lemma EndsWithin(a: string, b: string)
    ensures EndsLine(a + (b + "\n"))
  {
    var s := a + (b + "\n");
    assert s[|s| - 1] == '\n';
  }

  lemma SplitAllLines(a: seq<string>, b: seq<string>)
    requires AllLines(a + b)
    ensures AllLines(a) && AllLines(b)
  {
    forall i | 0 <= i < |a| ensures OneLine(a[i]) {
      assert (a + b)[i] == a[i];
    }
    forall i | 0 <= i < |b| ensures OneLine(b[i]) {
      assert (a + b)[|a| + i] == b[i];
    }
  }

  // ---------------------------------------------------------------------------
  // Reading the edited file
  // ---------------------------------------------------------------------------

  lemma WrittenOneLine(key: string, value: string)
    requires Legal(key) && OneLine(value)
    ensures OneLine(Written(key, value))
  {
    UnquoteQuote(value);
    assert forall i :: 0 <= i < |key| ==> KeyChar(key[i]);
  }

  lemma {:induction false} MissesNone(lines: seq<string>, key: string)
    ensures Misses(lines, key) == 0 <==> forall i :: 0 <= i < |lines| ==> !Missed(lines[i], key)
  {
    if lines != [] {
      MissesNone(lines[1..], key);
      assert lines == [lines[0]] + lines[1..];
    }
  }

  /** No line assigns the key without being replaced. */
  ghost predicate Replaceable(text: string, key: string) {
    key == "export" ==> forall i :: 0 <= i < |Lines(text)| ==> !BareExportLine(Lines(text)[i])
  }

  lemma ReplaceableMisses(text: string, key: string)
    ensures Replaceable(text, key) <==> Misses(Lines(text), key) == 0
  {
    MissesNone(Lines(text), key);
  }

  lemma {:induction false} AssignmentsConcat(a: seq<string>, b: seq<string>)
    ensures Assignments(a + b) == Assignments(a) + Assignments(b)
  {
    if a == [] {
      assert a + b == b;
    } else {
      assert (a + b)[0] == a[0] && (a + b)[1..] == a[1..] + b;
      AssignmentsConcat(a[1..], b);
    }
  }

  lemma KeptFirst(line: string, lines: seq<string>, key: string)
    requires Legal(key)
    requires Others(Assignments(Unmatched(lines, key)), key) == Others(Assignments(lines), key)
    requires |Of(Assignments(Unmatched(lines, key)), key)| == Misses(lines, key)
    ensures Others(Assignments(Unmatched([line] + lines, key)), key) == Others(Assignments([line] + lines), key)
    ensures |Of(Assignments(Unmatched([line] + lines, key)), key)| == Misses([line] + lines, key)
  {
    AssignsIffMatches(line, key);
    UnmatchedLine(line, lines, key);
    assert ([line] + lines)[1..] == lines;
    SplitMade(line, key);
    SplitLine(line, lines, key);
    SplitLine(line, Unmatched(lines, key), key);
    assert [] + Unmatched(lines, key) == Unmatched(lines, key);
  }

  /** The lines that stay make all assignments of other keys, and those of the key that are missed. */
  lemma {:induction false} KeptAssignments(lines: seq<string>, key: string)
    requires Legal(key)
    ensures Others(Assignments(Unmatched(lines, key)), key) == Others(Assignments(lines), key)
    ensures |Of(Assignments(Unmatched(lines, key)), key)| == Misses(lines, key)
  {
    if lines != [] {
      KeptAssignments(lines[1..], key);
      KeptFirst(lines[0], lines[1..], key);
      assert lines == [lines[0]] + lines[1..];
    }
  }

  /** What the written line is read as; a newline in the value makes several lines of it. */
  function Inserted(key: string, value: string): seq<Assignment> {
    Parse(Written(key, value) + "\n")
  }

  lemma OneWritten(quoted: string)
    requires OneLine(quoted) && StripCr(quoted) == quoted
    ensures Lines(quoted + "\n") == [quoted] && Parse(quoted + "\n") == Made(quoted)
  {
    FirstLine(quoted, "");
    assert quoted + "\n" + "" == quoted + "\n";
    assert [quoted] + Lines("") == [quoted];
    AssignmentsOne(quoted);
  }

  lemma AssignmentsOne(line: string)
    ensures Assignments([line]) == Made(line)
  {
    assert [line][1..] == [];
    assert Made(line) + [] == Made(line);
  }

  lemma WrittenLines(key: string, value: string)
    requires Legal(key) && OneLine(value)
    ensures Lines(Written(key, value) + "\n") == [Written(key, value)]
    ensures Inserted(key, value) == [Assignment(key, value)]
  {
    var quoted := Written(key, value);
    WrittenOneLine(key, value);
    assert quoted[|quoted| - 1] == '\'';
    OneWritten(quoted);
    WrittenLine(key, value);
  }

  /** Reading the edited file: the inserted assignments stand among those of the lines that stay. */
  lemma UpsertAssignments(text: string, key: string, value: string)
    returns (before: seq<Assignment>, behind: seq<Assignment>)
    ensures before + behind == Assignments(Unmatched(Lines(text), key))
    ensures Parse(Upsert(text, key, value)) == before + Inserted(key, value) + behind
  {
    var xs, ys := UpsertText(text, key, value);
    var written := Lines(Written(key, value) + "\n");
    before, behind := Assignments(xs), Assignments(ys);
    AssignmentsConcat(xs, ys);
    AssignmentsConcat(StripAll(xs) + written, StripAll(ys));
    AssignmentsConcat(StripAll(xs), written);
    AssignmentsStripped(xs);
    AssignmentsStripped(ys);
  }

  lemma SplitAround(a: seq<Assignment>, x: seq<Assignment>, b: seq<Assignment>, key: string)
    ensures Of(a + x + b, key) == Of(a, key) + Of(x, key) + Of(b, key) && Of(a + b, key) == Of(a, key) + Of(b, key)
    ensures Others(a + x + b, key) == Others(a, key) + Others(x, key) + Others(b, key)
    ensures Others(a + b, key) == Others(a, key) + Others(b, key)
  {
    OfConcat(a + x, b, key);
    OfConcat(a, x, key);
    OfConcat(a, b, key);
    OthersConcat(a + x, b, key);
    OthersConcat(a, x, key);
    OthersConcat(a, b, key);
  }

  /** Setting a key leaves the other assignments, in order, exactly when it inserts none of them. */
  lemma UpsertOthers(text: string, key: string, value: string)
    requires Legal(key)
    ensures Others(Parse(Upsert(text, key, value)), key) == Others(Parse(text), key)
       <==> Others(Inserted(key, value), key) == []
    ensures |Of(Parse(Upsert(text, key, value)), key)| == Misses(Lines(text), key) + |Of(Inserted(key, value), key)|
  {
    var a, b := UpsertAssignments(text, key, value);
    var x := Inserted(key, value);
    SplitAround(a, x, b, key);
    KeptAssignments(Lines(text), key);
    if Others(x, key) == [] {
      assert Others(a, key) + [] == Others(a, key);
    }
  }

  lemma {:induction false} OfMember(assignments: seq<Assignment>, key: string, a: Assignment)
    requires a in Of(assignments, key)
    ensures a in assignments
  {
    if assignments != [] && a != assignments[0] {
      OfMember(assignments[1..], key, a);
    }
  }

  lemma {:induction false} AssignedOneLine(lines: seq<string>, a: Assignment)
    requires AllLines(lines) && a in Assignments(lines)
    ensures OneLine(a.value)
  {
    if a in Made(lines[0]) {
      assert OneLine(lines[0]);
      ParsedOneLine(lines[0]);
    } else {
      AssignedOneLine(lines[1..], a);
    }
  }

  /** A value with a newline cannot be read back. */
  lemma ReadOneLine(text: string, key: string, value: string)
    requires Of(Parse(text), key) == [Assignment(key, value)]
    ensures OneLine(value)
  {
    OfMember(Parse(text), key, Assignment(key, value));
    LinesAreLines(text);
    AssignedOneLine(Lines(text), Assignment(key, value));
  }

  /**
   Setting a key, for every text and every value: the key has the new value and no other exactly
   when the value has no newline and, if the key is the word `export`, no line has nothing else
   before its equals sign.  A value without a newline leaves the other assignments, in order.
   */
  lemma UpsertParses(text: string, key: string, value: string)
    requires Legal(key)
    ensures OneLine(value) ==> Others(Parse(Upsert(text, key, value)), key) == Others(Parse(text), key)
    ensures Of(Parse(Upsert(text, key, value)), key) == [Assignment(key, value)]
       <==> OneLine(value) && Replaceable(text, key)
  {
    UpsertOthers(text, key, value);
    ReplaceableMisses(text, key);
    if Of(Parse(Upsert(text, key, value)), key) == [Assignment(key, value)] {
      ReadOneLine(Upsert(text, key, value), key, value);
    }
    if OneLine(value) {
      WrittenLines(key, value);
      OneAssignment(Assignment(key, value));
      if Replaceable(text, key) {
        UpsertValue(text, key, value);
      }
    }
  }

  lemma OneAssignment(a: Assignment)
    ensures Of([a], a.key) == [a] && Others([a], a.key) == []
  {
    assert [a][1..] == [];
  }

  lemma UpsertValue(text: string, key: string, value: string)
    requires Legal(key) && OneLine(value) && Replaceable(text, key)
    ensures Of(Parse(Upsert(text, key, value)), key) == [Assignment(key, value)]
  {
    var a, b := UpsertAssignments(text, key, value);
    SplitAround(a, Inserted(key, value), b, key);
    KeptAssignments(Lines(text), key);
    ReplaceableMisses(text, key);
    WrittenLines(key, value);
    OneAssignment(Assignment(key, value));
    assert Of(a, key) == [] && Of(b, key) == [];
  }

  lemma BareExportText(raw: string)
    ensures BareExportLine(EXPORT + ("=" + raw))
  {
    var text := EXPORT + ("=" + raw);
    assert text[0] == 'e' && TrimStart(text) == text;
    IndexOfAfter(EXPORT, "=" + raw, '=');
    assert text[..|EXPORT|] == EXPORT;
    StripOne("");
    assert EXPORT + "" == EXPORT;
  }

  lemma SingleLine(text: string)
    requires OneLine(text) && text != ""
    ensures Lines(text) == [text]
  {
    IndexOfNone(text, '\n');
  }

  lemma ExportLegal()
    ensures Legal("export")
  {
  }

  lemma NotReplaceable(text: string)
    requires Lines(text) == [text] && BareExportLine(text)
    ensures !Replaceable(text, "export")
  {
    assert Lines(text)[0] == text;
  }

  /** The exception, for any value: `export =…` is read as an assignment of `export` and stays. */
  lemma ExportNotReplaced(raw: string, value: string)
    requires OneLine(raw)
    ensures Of(Parse(Upsert(EXPORT + ("=" + raw), "export", value)), "export") != [Assignment("export", value)]
  {
    var text := EXPORT + ("=" + raw);
    BareExportText(raw);
    SingleLine(text);
    NotReplaceable(text);
    ExportLegal();
    UpsertParses(text, "export", value);
  }

  /** Lines that still assign the key after it is removed. */
  predicate Stuck(line: string, key: string) {
    (Matches(line, key) && Spaced(line)) || Missed(line, key)
  }

  predicate AnyStuck(lines: seq<string>, key: string) {
    lines != [] && (Stuck(lines[0], key) || AnyStuck(lines[1..], key))
  }

  /** Removal takes out lines that assign the key; of those it leaves, exactly the stuck ones assign it. */
  lemma RemovedAssigns(line: string, key: string)
    requires Legal(key)
    ensures Removed(line, key) ==> Assigns(line, key) && !Stuck(line, key)
    ensures !Removed(line, key) ==> (Assigns(line, key) <==> Stuck(line, key))
  {
    RemovedIffMatches(line, key);
    AssignsIffMatches(line, key);
  }

  lemma RemoveFirst(line: string, rest: seq<string>, after: seq<string>, key: string)
    requires Legal(key)
    requires Others(Assignments(after), key) == Others(Assignments(rest), key)
    requires Of(Assignments(after), key) == [] <==> !AnyStuck(rest, key)
    ensures var kept := (if Removed(line, key) then [] else [line]) + after;
      && Others(Assignments(kept), key) == Others(Assignments([line] + rest), key)
      && (Of(Assignments(kept), key) == [] <==> !Stuck(line, key) && !AnyStuck(rest, key))
  {
    RemovedAssigns(line, key);
    SplitMade(line, key);
    SplitLine(line, rest, key);
    SplitLine(line, after, key);
    assert [] + after == after;
  }

  lemma {:induction false} RemoveAssignments(lines: seq<string>, key: string)
    requires Legal(key)
    ensures Others(Assignments(RemoveLines(lines, key)), key) == Others(Assignments(lines), key)
    ensures Of(Assignments(RemoveLines(lines, key)), key) == [] <==> !AnyStuck(lines, key)
  {
    if lines != [] {
      var line, rest := lines[0], lines[1..];
      assert lines == [line] + rest;
      RemoveAssignments(rest, key);
      RemoveFirst(line, rest, RemoveLines(rest, key), key);
    }
  }

  lemma {:induction false} RemoveKeepsLines(lines: seq<string>, key: string)
    requires AllLines(lines)
    ensures AllLines(RemoveLines(lines, key))
  {
    if lines != [] {
      RemoveKeepsLines(lines[1..], key);
    }
  }

  /**
   Removing a key: the other assignments stay, in order, and no assignment of the key is left,
   exactly unless some line has white space between that key and its equals sign (or, for the word
   `export`, nothing else before it).
   */
  lemma RemoveParses(text: string, key: string)
    requires Legal(key)
    ensures Others(Parse(Remove(text, key)), key) == Others(Parse(text), key)
    ensures Of(Parse(Remove(text, key)), key) == [] <==> !AnyStuck(Lines(text), key)
  {
    LinesAreLines(text);
    RemoveKeepsLines(Lines(text), key);
    ParseUnlines(RemoveLines(Lines(text), key));
    RemoveAssignments(Lines(text), key);
    if !AnyRemoved(Lines(text), key) {
      NothingRemoved(Lines(text), key);
    }
  }

  lemma SpacedOneLine(key: string, raw: string)
    requires Legal(key) && OneLine(raw)
    ensures OneLine((key + " ") + ("=" + raw))
  {
    assert forall i :: 0 <= i < |key| ==> KeyChar(key[i]);
  }

  lemma StuckLine(text: string, key: string)
    requires OneLine(text) && Stuck(text, key) && text != ""
    ensures AnyStuck(Lines(text), key)
  {
    SingleLine(text);
    assert [text][0] == text;
  }

  /** Such lines exist: a space before the equals sign hides an assignment from removal. */
  lemma SpacedNotRemoved(key: string, raw: string)
    requires Legal(key) && key != "export" && OneLine(raw)
    ensures Of(Parse(Remove((key + " ") + ("=" + raw), key)), key) != []
  {
    var text := (key + " ") + ("=" + raw);
    SpacedLine(key, raw);
    SpacedOneLine(key, raw);
    StuckLine(text, key);
    RemoveParses(text, key);
  }

  lemma ExportName(key: string)
    requires Legal(key) && EXPORT <= key + " "
    ensures key == "export"
  {
    assert (key + " ")[6] == ' ';
    assert |key| > 6 ==> KeyChar(key[6]);
    assert key == (key + " ")[..6] == EXPORT[..6];
  }

  lemma SpacedName(key: string)
    requires Legal(key) && key != "export"
    ensures StripExports(key + " ") == key + " " && TrimStart(key + " ") == key + " " && Trim(key + " ") == key
  {
    var name := key + " ";
    LegalIsText(key);
    if EXPORT <= name {
      ExportName(key);
    }
    assert name[0] == key[0];
    TrimEndSuffix(key, " ");
  }

  lemma NamedBare(name: string, rest: string)
    requires '=' !in name && rest != "" && rest[0] == '=' && name != "" && !White(name[0]) && StripExports(name) == name
    ensures Bare(name + rest) == name + rest && IndexOf(Bare(name + rest), '=') == |name|
  {
    var text := name + rest;
    assert text[0] == name[0];
    assert TrimStart(text) == text && TrimStart(name) == name;
    BareName(name, rest);
  }

  /** A line made of a name without prefixes or leading white space, and the rest from the equals sign on. */
  lemma NamedLine(name: string, rest: string, key: string)
    requires '=' !in name && rest != "" && rest[0] == '=' && name != "" && !White(name[0])
    requires StripExports(name) == name && Trim(name) == key
    ensures Matches(name + rest, key) && (White(name[|name| - 1]) ==> Spaced(name + rest))
  {
    NamedBare(name, rest);
    NameOf(name, rest);
  }

  lemma NameOf(name: string, rest: string)
    requires name != "" && rest != ""
    ensures |name| < |name + rest| && (name + rest)[..|name|] == name && (name + rest)[|name| - 1] == name[|name| - 1]
  {
  }

  lemma SpacedLine(key: string, raw: string)
    requires Legal(key) && key != "export"
    ensures Stuck((key + " ") + ("=" + raw), key)
  {
    LegalIsText(key);
    SpacedName(key);
    NamedLine(key + " ", "=" + raw, key);
  }

  lemma {:induction false} AnyStuckConcat(a: seq<string>, b: seq<string>, key: string)
    ensures AnyStuck(a + b, key) <==> AnyStuck(a, key) || AnyStuck(b, key)
  {
    if a == [] {
      assert a + b == b;
    } else {
      assert (a + b)[0] == a[0] && (a + b)[1..] == a[1..] + b;
      AnyStuckConcat(a[1..], b, key);
    }
  }

  lemma {:induction false} StripAllConcat(a: seq<string>, b: seq<string>)
    ensures StripAll(a + b) == StripAll(a) + StripAll(b)
  {
    if a == [] {
      assert a + b == b;
    } else {
      assert (a + b)[0] == a[0] && (a + b)[1..] == a[1..] + b;
      StripAllConcat(a[1..], b);
    }
  }

  lemma StuckFirst(line: string, lines: seq<string>, key: string)
    ensures AnyStuck(StripAll([line] + lines), key) <==> Stuck(StripCr(line), key) || AnyStuck(StripAll(lines), key)
  {
    assert ([line] + lines)[1..] == lines;
    assert StripAll([line] + lines)[1..] == StripAll(lines);
  }

  lemma KeptStuck(line: string, key: string)
    requires !Matches(line, key)
    ensures Stuck(StripCr(line), key) <==> Missed(line, key)
  {
    MatchesStripped(line, key);
  }

  lemma MatchedNotMissed(line: string, key: string)
    requires Matches(line, key) && Legal(key)
    ensures !Missed(line, key)
  {
    AssignsIffMatches(line, key);
  }

  /** Of the lines that stay, removal overlooks exactly the missed ones. */
  lemma {:induction false} AllKeptStuck(lines: seq<string>, key: string)
    requires Legal(key)
    ensures AnyStuck(StripAll(Unmatched(lines, key)), key) <==> Misses(lines, key) > 0
  {
    if lines != [] {
      AllKeptStuck(lines[1..], key);
      if Matches(lines[0], key) {
        MatchedNotMissed(lines[0], key);
        assert [] + Unmatched(lines[1..], key) == Unmatched(lines[1..], key);
      } else {
        KeptStuck(lines[0], key);
        StuckFirst(lines[0], Unmatched(lines[1..], key), key);
      }
    }
  }

  lemma WrittenUnstuck(key: string, value: string)
    requires Legal(key) && OneLine(value)
    ensures !AnyStuck(Lines(Written(key, value) + "\n"), key)
  {
    WrittenLines(key, value);
    WrittenLine(key, value);
    AssignsIffMatches(Written(key, value), key);
    assert [Written(key, value)][1..] == [];
  }

  /**
   Setting a key and then removing it, for every text and every value: no assignment of it is left
   exactly when the key was replaceable and the written lines hold none that removal overlooks;
   that is the case for every value without a newline, and then all other assignments stay.
   */
  lemma RemoveAfterUpsert(text: string, key: string, value: string)
    requires Legal(key)
    ensures Of(Parse(Remove(Upsert(text, key, value), key)), key) == []
       <==> Replaceable(text, key) && !AnyStuck(Lines(Written(key, value) + "\n"), key)
    ensures OneLine(value) ==> !AnyStuck(Lines(Written(key, value) + "\n"), key)
    ensures OneLine(value) ==> Others(Parse(Remove(Upsert(text, key, value), key)), key) == Others(Parse(text), key)
  {
    RemoveParses(Upsert(text, key, value), key);
    UpsertParses(text, key, value);
    UpsertStuck(text, key, value);
    if OneLine(value) {
      WrittenUnstuck(key, value);
    }
  }

  lemma UpsertStuck(text: string, key: string, value: string)
    requires Legal(key)
    ensures AnyStuck(Lines(Upsert(text, key, value)), key)
       <==> !Replaceable(text, key) || AnyStuck(Lines(Written(key, value) + "\n"), key)
  {
    var xs, ys := UpsertText(text, key, value);
    var written := Lines(Written(key, value) + "\n");
    AnyStuckConcat(StripAll(xs) + written, StripAll(ys), key);
    AnyStuckConcat(StripAll(xs), written, key);
    StripAllConcat(xs, ys);
    AnyStuckConcat(StripAll(xs), StripAll(ys), key);
    AllKeptStuck(Lines(text), key);
    ReplaceableMisses(text, key);
  }
}
