/**
 Whether setting a key in the daemon's env file keeps all other lines byte for byte, as the comment
 on `upsert_env_var` in bud/src/lifecycle.rs says.
 */
module EnvBytes {
  import opened Collections
  import opened EnvText
  import opened EnvFile
  import opened EnvEdit

  // ---------------------------------------------------------------------------
  // Lines with their terminators
  // ---------------------------------------------------------------------------

  /** The lines of a text, byte for byte: each with its newline, if it has one. */
  function RawLines(text: string): seq<string> {
    if text == "" then []
    else
      var n := IndexOf(text, '\n');
      if n == |text| then [text] else [text[..n + 1]] + RawLines(text[n + 1..])
  }

  /** What the program reads as the line. */
  function Content(raw: string): string {
    if raw != "" && raw[|raw| - 1] == '\n' then StripCr(raw[..|raw| - 1]) else raw
  }

  function Contents(raws: seq<string>): seq<string> {
    if raws == [] then [] else [Content(raws[0])] + Contents(raws[1..])
  }

  /** The raw lines that are not for the key. */
  function RawUnmatched(raws: seq<string>, key: string): seq<string> {
    if raws == [] then []
    else (if Matches(Content(raws[0]), key) then [] else [raws[0]]) + RawUnmatched(raws[1..], key)
  }

  function TerminatedAll(raws: seq<string>): seq<string> {
    if raws == [] then [] else [Terminated(raws[0])] + TerminatedAll(raws[1..])
  }

  predicate EndsCrLf(raw: string) {
    |raw| >= 2 && raw[|raw| - 2] == '\r' && raw[|raw| - 1] == '\n'
  }

  predicate AnyCrLf(raws: seq<string>) {
    raws != [] && (EndsCrLf(raws[0]) || AnyCrLf(raws[1..]))
  }

  /** The lines, each as the program writes it. */
  function WrittenAll(lines: seq<string>): seq<string> {
    if lines == [] then [] else [lines[0] + "\n"] + WrittenAll(lines[1..])
  }

  /** The text, with a newline at the end if there is any text. */
  function Terminated(text: string): string {
    if text == "" || text[|text| - 1] == '\n' then text else text + "\n"
  }

  lemma FirstRaw(line: string, rest: string)
    requires OneLine(line)
    ensures RawLines(line + "\n" + rest) == [line + "\n"] + RawLines(rest)
  {
    var text := line + "\n" + rest;
    assert text[..|line| + 1] == line + "\n" && text[|line|] == '\n' && text[|line| + 1..] == rest;
    IndexOfIs(text, '\n', |line|);
  }

  lemma ContentOf(line: string)
    ensures Content(line + "\n") == StripCr(line)
  {
    assert (line + "\n")[..|line|] == line;
  }

  /** Raw lines are the lines that the program reads. */
  lemma {:induction false} RawContents(text: string)
    ensures Contents(RawLines(text)) == Lines(text)
  {
    var n := IndexOf(text, '\n');
    BeforeIndex(text, '\n');
    if n < |text| {
      var line, rest := text[..n], text[n + 1..];
      assert text == line + "\n" + rest;
      RawContents(rest);
      FirstRaw(line, rest);
      FirstLine(line, rest);
      ContentOf(line);
      ContentsFirst(line + "\n", RawLines(rest));
    } else if text != "" {
      assert RawLines(text) == [text] && [text][1..] == [] && text[|text| - 1] in text;
    }
  }

  lemma ContentsFirst(raw: string, raws: seq<string>)
    ensures Contents([raw] + raws) == [Content(raw)] + Contents(raws)
  {
    assert ([raw] + raws)[1..] == raws;
  }

  lemma RawConcatFirst(line: string, rest: string, b: string)
    requires OneLine(line) && RawLines(rest + b) == RawLines(rest) + RawLines(b)
    ensures RawLines((line + "\n" + rest) + b) == RawLines(line + "\n" + rest) + RawLines(b)
  {
    Regrouped(line, rest, b);
    FirstRaw(line, rest);
    FirstRaw(line, rest + b);
    Append([line + "\n"], RawLines(rest), RawLines(b));
  }

  lemma {:induction false} RawConcat(a: string, b: string)
    requires EndsLine(a)
    ensures RawLines(a + b) == RawLines(a) + RawLines(b)
    decreases |a|
  {
    if a == "" {
      assert a + b == b;
    } else {
      var line, rest := CutLine(a);
      RawConcat(rest, b);
      RawConcatFirst(line, rest, b);
    }
  }

  lemma {:induction false} RawEnded(lines: seq<string>)
    requires AllLines(lines)
    ensures RawLines(Ended(lines)) == WrittenAll(lines)
  {
    if lines != [] {
      RawEnded(lines[1..]);
      FirstRaw(lines[0], Ended(lines[1..]));
    }
  }

  lemma {:induction false} WrittenConcat(a: seq<string>, b: seq<string>)
    ensures WrittenAll(a + b) == WrittenAll(a) + WrittenAll(b)
  {
    if a == [] {
      assert a + b == b;
    } else {
      assert (a + b)[0] == a[0] && (a + b)[1..] == a[1..] + b;
      WrittenConcat(a[1..], b);
    }
  }

  lemma RawUnmatchedFirst(raw: string, raws: seq<string>, key: string)
    ensures RawUnmatched([raw] + raws, key)
         == (if Matches(Content(raw), key) then [] else [raw]) + RawUnmatched(raws, key)
  {
    assert ([raw] + raws)[1..] == raws;
  }

  lemma {:induction false} RawUnmatchedConcat(a: seq<string>, b: seq<string>, key: string)
    ensures RawUnmatched(a + b, key) == RawUnmatched(a, key) + RawUnmatched(b, key)
  {
    if a == [] {
      assert a + b == b;
    } else {
      var first, rest := a[0], a[1..];
      assert a == [first] + rest && a + b == [first] + (rest + b);
      RawUnmatchedConcat(rest, b, key);
      RawUnmatchedFirst(first, rest, key);
      RawUnmatchedFirst(first, rest + b, key);
      Append(if Matches(Content(first), key) then [] else [first], RawUnmatched(rest, key), RawUnmatched(b, key));
    }
  }

  // ---------------------------------------------------------------------------
  // The lines that are not for the key
  // ---------------------------------------------------------------------------

  /** Lines that are not for the key are not for it after they are written, either. */
  lemma {:induction false} WrittenUnmatched(lines: seq<string>, key: string)
    requires NoneMatches(lines, key)
    ensures RawUnmatched(WrittenAll(lines), key) == WrittenAll(lines)
  {
    if lines != [] {
      WrittenUnmatched(lines[1..], key);
      ContentOf(lines[0]);
      MatchesStripped(lines[0], key);
      RawUnmatchedFirst(lines[0] + "\n", WrittenAll(lines[1..]), key);
    }
  }

  lemma {:induction false} UnmatchedNone(lines: seq<string>, key: string)
    ensures NoneMatches(Unmatched(lines, key), key)
  {
    if lines != [] {
      UnmatchedNone(lines[1..], key);
      if !Matches(lines[0], key) {
        NoneFirst(lines[0], Unmatched(lines[1..], key), key);
      } else {
        assert [] + Unmatched(lines[1..], key) == Unmatched(lines[1..], key);
      }
    }
  }

  lemma NoneFirst(line: string, lines: seq<string>, key: string)
    requires !Matches(line, key) && NoneMatches(lines, key)
    ensures NoneMatches([line] + lines, key)
  {
    assert ([line] + lines)[1..] == lines;
  }

  lemma {:induction false} NoneSplit(a: seq<string>, b: seq<string>, key: string)
    requires NoneMatches(a + b, key)
    ensures NoneMatches(a, key) && NoneMatches(b, key)
  {
    if a == [] {
      assert a + b == b;
    } else {
      assert (a + b)[0] == a[0] && (a + b)[1..] == a[1..] + b;
      NoneSplit(a[1..], b, key);
    }
  }

  /** Rewriting one raw line keeps it, newline added, exactly when it does not end in CR LF. */
  lemma RewrittenKept(raw: string)
    requires raw != ""
    ensures Content(raw) + "\n" == Terminated(raw) <==> !EndsCrLf(raw)
  {
    if raw[|raw| - 1] == '\n' {
      var line := raw[..|raw| - 1];
      assert raw == line + "\n";
      if StripCr(line) != line {
        assert |StripCr(line) + "\n"| < |raw|;
      }
    }
  }

  predicate NoneEmpty(raws: seq<string>) {
    raws == [] || (raws[0] != "" && NoneEmpty(raws[1..]))
  }

  lemma {:induction false} RawNonempty(text: string)
    ensures NoneEmpty(RawLines(text))
  {
    var n := IndexOf(text, '\n');
    BeforeIndex(text, '\n');
    if n < |text| {
      var line, rest := text[..n], text[n + 1..];
      assert text == line + "\n" + rest;
      RawNonempty(rest);
      FirstRaw(line, rest);
      NonemptyFirst(line + "\n", RawLines(rest));
    } else if text != "" {
      assert [text][1..] == [];
    }
  }

  lemma NonemptyFirst(raw: string, raws: seq<string>)
    requires raw != "" && NoneEmpty(raws)
    ensures NoneEmpty([raw] + raws)
  {
    assert ([raw] + raws)[1..] == raws;
  }

  lemma SameFirst(x: string, a: seq<string>, y: string, b: seq<string>)
    ensures [x] + a == [y] + b <==> x == y && a == b
  {
    assert ([x] + a)[0] == x && ([x] + a)[1..] == a && ([y] + b)[0] == y && ([y] + b)[1..] == b;
  }

  lemma {:induction false} AllRewritten(raws: seq<string>, key: string)
    requires NoneEmpty(raws)
    ensures WrittenAll(Unmatched(Contents(raws), key)) == TerminatedAll(RawUnmatched(raws, key))
       <==> !AnyCrLf(RawUnmatched(raws, key))
    ensures |Unmatched(Contents(raws), key)| == |RawUnmatched(raws, key)|
  {
    if raws != [] {
      var raw, rest := raws[0], raws[1..];
      assert raws == [raw] + rest;
      AllRewritten(rest, key);
      ContentsFirst(raw, rest);
      UnmatchedLine(Content(raw), Contents(rest), key);
      RawUnmatchedFirst(raw, rest, key);
      if Matches(Content(raw), key) {
        Nothing(Unmatched(Contents(rest), key));
        Nothing(RawUnmatched(rest, key));
      } else {
        RewrittenFirst(raw, Unmatched(Contents(rest), key), RawUnmatched(rest, key));
      }
    }
  }

  lemma Nothing(a: seq<string>)
    ensures [] + a == a
  {
  }

  lemma RewrittenFirst(raw: string, lines: seq<string>, raws: seq<string>)
    requires raw != ""
    requires WrittenAll(lines) == TerminatedAll(raws) <==> !AnyCrLf(raws)
    ensures WrittenAll([Content(raw)] + lines) == TerminatedAll([raw] + raws) <==> !AnyCrLf([raw] + raws)
  {
    assert ([Content(raw)] + lines)[1..] == lines && ([raw] + raws)[1..] == raws;
    RewrittenKept(raw);
    SameFirst(Content(raw) + "\n", WrittenAll(lines), Terminated(raw), TerminatedAll(raws));
  }

  lemma {:induction false} Lengths(lines: seq<string>)
    ensures |WrittenAll(lines)| == |lines| == |TerminatedAll(lines)|
  {
    if lines != [] {
      Lengths(lines[1..]);
    }
  }

  /** The raw lines of the edited file that are not for the key, around those of the new line. */
  lemma UpsertRaw(text: string, key: string, value: string) returns (before: seq<string>, behind: seq<string>)
    ensures before + behind == WrittenAll(Unmatched(Lines(text), key))
    ensures RawUnmatched(RawLines(Upsert(text, key, value)), key)
         == before + RawUnmatched(RawLines(Written(key, value) + "\n"), key) + behind
  {
    var xs, ys := UpsertText(text, key, value);
    var written := Written(key, value) + "\n";
    before, behind := WrittenAll(xs), WrittenAll(ys);
    WrittenConcat(xs, ys);
    EndsWithin(Ended(xs), Written(key, value));
    RawConcat(Ended(xs) + written, Ended(ys));
    RawConcat(Ended(xs), written);
    RawEnded(xs);
    RawEnded(ys);
    RawUnmatchedConcat(before + RawLines(written), behind, key);
    RawUnmatchedConcat(before, RawLines(written), key);
    UnmatchedNone(Lines(text), key);
    NoneSplit(xs, ys, key);
    WrittenUnmatched(xs, key);
    WrittenUnmatched(ys, key);
  }

  lemma SameAround(a: seq<string>, x: seq<string>, b: seq<string>, c: seq<string>)
    requires |a + b| == |c|
    ensures a + x + b == c <==> x == [] && a + b == c
  {
    if x == [] {
      assert a + x + b == a + b;
    }
  }

  /**
   Setting a key, for every text, key and value: the lines that are not for the key are kept byte for
   byte, the last one ended by a newline, exactly when none of them ends in CR LF and the new line
   brings no such lines with it.
   */
  lemma UpsertRawLines(text: string, key: string, value: string)
    ensures RawUnmatched(RawLines(Upsert(text, key, value)), key) == TerminatedAll(RawUnmatched(RawLines(text), key))
       <==> !AnyCrLf(RawUnmatched(RawLines(text), key)) && RawUnmatched(RawLines(Written(key, value) + "\n"), key) == []
  {
    var a, b := UpsertRaw(text, key, value);
    RawContents(text);
    RawNonempty(text);
    AllRewritten(RawLines(text), key);
    Lengths(Unmatched(Lines(text), key));
    Lengths(RawUnmatched(RawLines(text), key));
    SameAround(a, RawUnmatched(RawLines(Written(key, value) + "\n"), key), b,
               TerminatedAll(RawUnmatched(RawLines(text), key)));
  }

  /** A value without a newline brings no other lines: the CR LF line endings alone decide. */
  lemma OtherLinesKept(text: string, key: string, value: string)
    requires Legal(key) && OneLine(value)
    ensures RawUnmatched(RawLines(Upsert(text, key, value)), key) == TerminatedAll(RawUnmatched(RawLines(text), key))
       <==> !AnyCrLf(RawUnmatched(RawLines(text), key))
  {
    UpsertRawLines(text, key, value);
    WrittenNothing(key, value);
  }

  lemma WrittenNothing(key: string, value: string)
    requires Legal(key) && OneLine(value)
    ensures RawUnmatched(RawLines(Written(key, value) + "\n"), key) == []
  {
    var quoted := Written(key, value);
    WrittenOneLine(key, value);
    WrittenLine(key, value);
    RawEnded([quoted]);
    EndedOne(quoted);
    assert quoted[|quoted| - 1] == '\'';
    ContentOf(quoted);
    RawUnmatchedFirst(quoted + "\n", [], key);
    assert [quoted][1..] == [] && [quoted + "\n"] + [] == [quoted + "\n"];
  }

  /** Such files exist: with a CR LF line for another key, that line is not kept, whatever the rest. */
  lemma CrLfLost(line: string, rest: string, key: string, value: string)
    requires OneLine(line) && !Matches(line, key)
    ensures var text := (line + "\r") + "\n" + rest;
      RawUnmatched(RawLines(Upsert(text, key, value)), key) != TerminatedAll(RawUnmatched(RawLines(text), key))
  {
    var raw := (line + "\r") + "\n";
    FirstRaw(line + "\r", rest);
    ContentOf(line + "\r");
    assert StripCr(line + "\r") == line;
    RawUnmatchedFirst(raw, RawLines(rest), key);
    assert EndsCrLf(raw);
    UpsertRawLines((line + "\r") + "\n" + rest, key, value);
  }

  // ---------------------------------------------------------------------------
  // A new key
  // ---------------------------------------------------------------------------

  predicate CrLfAt(text: string, i: int) {
    0 <= i < |text| - 1 && text[i] == '\r' && text[i + 1] == '\n'
  }

  ghost predicate HasCrLf(text: string) {
    exists i :: CrLfAt(text, i)
  }

  lemma TerminatedRest(line: string, rest: string)
    ensures Terminated(line + "\n" + rest) == line + "\n" + Terminated(rest)
  {
    var text := line + "\n" + rest;
    if rest == "" {
      assert text == line + "\n" && text[|text| - 1] == '\n';
    } else {
      assert text[|text| - 1] == rest[|rest| - 1];
    }
  }

  lemma CrLfFirst(line: string, rest: string)
    requires OneLine(line)
    ensures HasCrLf(line + "\n" + rest) <==> StripCr(line) != line || HasCrLf(rest)
  {
    var text := line + "\n" + rest;
    if StripCr(line) != line {
      assert CrLfAt(text, |line| - 1);
    }
    if HasCrLf(rest) {
      var i :| CrLfAt(rest, i);
      assert CrLfAt(text, |line| + 1 + i);
    }
    if HasCrLf(text) {
      var i :| CrLfAt(text, i);
      assert forall k :: 0 <= k < |line| ==> text[k] == line[k] && line[k] in line;
      if i > |line| {
        assert CrLfAt(rest, i - |line| - 1);
      }
    }
  }

  /** Reading lines and writing them again keeps every byte exactly when no line ends in CR LF. */
  lemma {:induction false} LinesKeepBytes(text: string)
    ensures |Ended(Lines(text))| <= |Terminated(text)|
    ensures Ended(Lines(text)) == Terminated(text) <==> !HasCrLf(text)
  {
    var n := IndexOf(text, '\n');
    BeforeIndex(text, '\n');
    if n < |text| {
      var line, rest := text[..n], text[n + 1..];
      assert text == line + "\n" + rest;
      LinesKeepBytes(rest);
      TerminatedRest(line, rest);
      CrLfFirst(line, rest);
      FirstLine(line, rest);
      EndedFirst(StripCr(line), Lines(rest));
      if StripCr(line) == line {
        SameRest(line + "\n", Ended(Lines(rest)), Terminated(rest));
      }
    } else if text != "" {
      EndedFirst(text, []);
      assert [text] + [] == Lines(text);
    }
  }

  lemma SameRest(a: string, b: string, c: string)
    ensures a + b == a + c <==> b == c
  {
    assert (a + b)[|a|..] == b && (a + c)[|a|..] == c;
  }

  lemma {:induction false} UpsertAppends(lines: seq<string>, key: string, quoted: string)
    requires NoneMatches(lines, key)
    ensures UpsertLines(lines, key, quoted, false) == lines + [quoted]
  {
    if lines == [] {
      assert lines + [quoted] == [quoted];
    } else {
      var rest := lines[1..];
      assert lines == [lines[0]] + rest;
      Append([lines[0]], rest, [quoted]);
      UpsertAppends(rest, key, quoted);
    }
  }

  /**
   In particular, when the key is new, the whole text is kept and gains one line exactly when no line
   ends in CR LF.
   */
  lemma UpsertBytes(text: string, key: string, value: string)
    requires NoneMatches(Lines(text), key)
    ensures Upsert(text, key, value) == Terminated(text) + (Written(key, value) + "\n") <==> !HasCrLf(text)
  {
    var quoted, last := Written(key, value), Written(key, value) + "\n";
    UpsertAppends(Lines(text), key, quoted);
    UnlinesEnded(Lines(text) + [quoted]);
    EndedConcat(Lines(text), [quoted]);
    EndedOne(quoted);
    LinesKeepBytes(text);
    SameStart(Ended(Lines(text)), Terminated(text), last);
  }

  lemma SameStart(a: string, b: string, c: string)
    ensures a + c == b + c <==> a == b
  {
    if a + c == b + c {
      assert |a| == |b| && (a + c)[..|a|] == a && (b + c)[..|b|] == b;
    }
  }
}
