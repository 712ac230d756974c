/** The theme-file parser of src/user/ThemeManager.ts: fields introduced by `###CapRoverTheme.<name>:` lines. */
module ThemeParser {
  import opened Wrappers
  import opened Text

  const MARKER := "###CapRoverTheme."

  /** `split('\n')`: at least one line. */
  function Lines(s: string): (ls: seq<string>)
    ensures ls != []
    decreases |s|
  {
    var n := LineEnd(s);
    if n == |s| then [s] else [s[..n]] + Lines(s[n + 1..])
  }

  /** Where the first line ends. */
  function LineEnd(s: string): (n: nat)
    ensures n <= |s| && (n < |s| ==> s[n] == '\n')
  {
    if s == "" || s[0] == '\n' then 0 else 1 + LineEnd(s[1..])
  }

  lemma {:induction false} FirstLineHasNoBreak(s: string)
    ensures '\n' !in s[..LineEnd(s)]
  {
    if s != "" && s[0] != '\n' {
      FirstLineHasNoBreak(s[1..]);
      assert s[..LineEnd(s)] == [s[0]] + s[1..][..LineEnd(s[1..])];
    }
  }

  predicate IsMarker(line: string) {
    MARKER <= line
  }

  /** `line.substring(start, line.length - 1).trim()`, where `start` is just after the first dot. `substring`
      swaps bounds that are out of order, as they are for a bare marker. */
  function FieldName(line: string): string
    requires IsMarker(line)
  {
    var start, end := |MARKER|, |line| - 1;
    Trim(if start <= end then line[start..end] else line[end..start])
  }

  /** The parser's state: the field being filled and the raw contents so far. */
  datatype State = State(current: Option<string>, result: map<string, string>)

  function Feed(s: State, line: string): State {
    if IsMarker(line) then
      State(Some(FieldName(line)), s.result[FieldName(line) := ""])
    else if s.current.Some? && s.current.value != "" && s.current.value in s.result then
      var was := s.result[s.current.value];
      s.(result := s.result[s.current.value := if |was| > 0 then was + ['\n'] + line else was + line])
    else s
  }

  function FeedAll(s: State, lines: seq<string>): State
    decreases |lines|
  {
    if lines == [] then s else FeedAll(Feed(s, lines[0]), lines[1..])
  }

  function TrimValues(m: map<string, string>): map<string, string> {
    map k | k in m :: Trim(m[k])
  }

  function Parse(input: string): map<string, string> {
    TrimValues(FeedAll(State(None, map[]), Lines(input)).result)
  }

  method ParseCapRoverTheme(input: string) returns (result: map<string, string>)
    ensures result == Parse(input)
  {
    result := map[];
    var lines := Lines(input);
    var currentField: Option<string> := None;
    ghost var final := FeedAll(State(None, map[]), lines);
    for i := 0 to |lines|
      invariant currentField.Some? ==> currentField.value in result
      invariant FeedAll(State(currentField, result), lines[i..]) == final
    {
      var line := lines[i];
      assert lines[i..][1..] == lines[i + 1..];
      if IsMarker(line) {
        currentField := Some(FieldName(line));
        result := result[currentField.value := ""];
      } else if currentField.Some? && currentField.value != "" {
        if |result[currentField.value]| > 0 {
          result := result[currentField.value := result[currentField.value] + ['\n'] + line];
        } else {
          result := result[currentField.value := result[currentField.value] + line];
        }
      }
    }
    ghost var raw := result;
    var keys := result.Keys;
    while keys != {}
      invariant result.Keys == raw.Keys && keys <= raw.Keys
      invariant forall k :: k in raw ==> result[k] == if k in keys then raw[k] else Trim(raw[k])
      decreases keys
    {
      var key :| key in keys;
      result := result[key := Trim(result[key])];
      keys := keys - {key};
    }
  }

  // ---------------------------------------------------------------------------------------------
  // Printing
  // ---------------------------------------------------------------------------------------------

  datatype Field = Field(name: string, content: string)

  /** Fields that can be printed: trimmed names on one line, and trimmed contents no line of which is a marker. */
  predicate Printable(f: Field) {
    && f.name != "" && Trimmed(f.name) && '\n' !in f.name
    && Trimmed(f.content) && forall l :: l in Lines(f.content) ==> !IsMarker(l)
  }

  function Heading(f: Field): string {
    MARKER + f.name + ":"
  }

  function Print(fields: seq<Field>): string {
    if fields == [] then ""
    else
      Heading(fields[0]) + ['\n'] + fields[0].content + if |fields| == 1 then "" else ['\n'] + Print(fields[1..])
  }

  function AsMap(fields: seq<Field>): map<string, string> {
    if fields == [] then map[] else map[fields[0].name := fields[0].content] + AsMap(fields[1..])
  }

  lemma {:induction false} LineEndOf(line: string, rest: string)
    requires '\n' !in line
    ensures LineEnd(line + ['\n'] + rest) == |line| && LineEnd(line) == |line|
  {
    if line != "" {
      assert (line + ['\n'] + rest)[1..] == line[1..] + ['\n'] + rest;
      LineEndOf(line[1..], rest);
    }
  }

  lemma LinesOfLine(line: string, rest: string)
    requires '\n' !in line
    ensures Lines(line + ['\n'] + rest) == [line] + Lines(rest)
    ensures Lines(line) == [line]
  {
    var s := line + ['\n'] + rest;
    LineEndOf(line, rest);
    assert s[..|line|] == line && s[|line| + 1..] == rest;
  }

  lemma Assoc<T>(a: seq<T>, b: seq<T>, c: seq<T>)
    ensures a + b + c == a + (b + c)
  {
  }

  /** Lines of two texts with a line break between them. */
  lemma {:induction false} LinesJoin(a: string, b: string)
    ensures Lines(a + ['\n'] + b) == Lines(a) + Lines(b)
    decreases |a|
  {
    var n := LineEnd(a);
    FirstLineHasNoBreak(a);
    if n == |a| {
      assert a[..n] == a;
      LinesOfLine(a, b);
    } else {
      LinesJoin(a[n + 1..], b);
      LinesJoinStep(a, a[..n], a[n + 1..], b);
    }
  }

  lemma LinesJoinStep(a: string, line: string, rest: string, b: string)
    requires '\n' !in line && a == line + ['\n'] + rest
    requires Lines(rest + ['\n'] + b) == Lines(rest) + Lines(b)
    ensures Lines(a + ['\n'] + b) == Lines(a) + Lines(b)
  {
    var below := rest + ['\n'] + b;
    LinesOfLine(line, below);
    LinesOfLine(line, rest);
    Assoc([line], Lines(rest), Lines(b));
    Assoc(line + ['\n'], rest, ['\n'] + b);
    Assoc(rest, ['\n'], b);
    Assoc(a, ['\n'], b);
    assert a + ['\n'] + b == line + ['\n'] + below;
  }

  function PrintLines(fields: seq<Field>): seq<string> {
    if fields == [] then [] else [Heading(fields[0])] + Lines(fields[0].content) + PrintLines(fields[1..])
  }

  lemma {:induction false} LinesOfPrint(fields: seq<Field>)
    requires fields != [] && forall f :: f in fields ==> '\n' !in f.name
    ensures Lines(Print(fields)) == PrintLines(fields)
    decreases |fields|
  {
    var f := fields[0];
    assert f in fields;
    HeadingIsOneLine(f);
    LinesOfLine(Heading(f), f.content);
    if |fields| == 1 {
      assert PrintLines(fields) == [Heading(f)] + Lines(f.content) + [];
      assert Print(fields) == Heading(f) + ['\n'] + f.content;
    } else {
      LinesOfPrint(fields[1..]);
      LinesOfFirst(f, Print(fields[1..]), Print(fields));
    }
  }

  lemma LinesOfFirst(f: Field, more: string, all: string)
    requires '\n' !in f.name && all == Heading(f) + ['\n'] + f.content + (['\n'] + more)
    ensures Lines(all) == [Heading(f)] + Lines(f.content) + Lines(more)
  {
    HeadingIsOneLine(f);
    assert all == Heading(f) + ['\n'] + (f.content + ['\n'] + more);
    LinesOfLine(Heading(f), f.content + ['\n'] + more);
    LinesJoin(f.content, more);
    Assoc([Heading(f)], Lines(f.content), Lines(more));
  }

  lemma HeadingIsOneLine(f: Field)
    requires '\n' !in f.name
    ensures '\n' !in Heading(f)
  {
  }

  // ---------------------------------------------------------------------------------------------
  // Round trip
  // ---------------------------------------------------------------------------------------------

  /** Lines joined with line breaks. */
  function Join(lines: seq<string>): string {
    if lines == [] then "" else if |lines| == 1 then lines[0] else lines[0] + ['\n'] + Join(lines[1..])
  }

  lemma {:induction false} JoinOfLines(s: string)
    ensures Join(Lines(s)) == s
    decreases |s|
  {
    var n := LineEnd(s);
    if n == |s| {
      assert Lines(s) == [s];
    } else {
      JoinOfLines(s[n + 1..]);
      JoinCons(s[..n], Lines(s[n + 1..]));
      assert s[..n] + ['\n'] + s[n + 1..] == s;
    }
  }

  lemma JoinCons(line: string, lines: seq<string>)
    requires lines != []
    ensures Join([line] + lines) == line + ['\n'] + Join(lines)
  {
    assert ([line] + lines)[1..] == lines;
  }

  lemma {:induction false} FeedConcat(s: State, a: seq<string>, b: seq<string>)
    ensures FeedAll(s, a + b) == FeedAll(FeedAll(s, a), b)
    decreases |a|
  {
    if a == [] {
      assert a + b == b;
    } else {
      assert (a + b)[1..] == a[1..] + b;
      FeedConcat(Feed(s, a[0]), a[1..], b);
    }
  }

  function Filled(s: State, content: string): State
    requires s.current.Some?
  {
    s.(result := s.result[s.current.value := content])
  }

  /** Content lines after a nonempty start are appended with their line breaks. */
  lemma {:induction false} FeedMore(s: State, lines: seq<string>)
    requires s.current.Some? && s.current.value != "" && s.current.value in s.result && s.result[s.current.value] != ""
    requires forall l :: l in lines ==> !IsMarker(l)
    ensures FeedAll(s, lines) == Filled(s, if lines == [] then s.result[s.current.value]
                                           else s.result[s.current.value] + ['\n'] + Join(lines))
    decreases |lines|
  {
    var k, was := s.current.value, s.result[s.current.value];
    if lines == [] {
      assert s.result[k := was] == s.result;
    } else {
      var t := Feed(s, lines[0]);
      assert lines[0] in lines;
      assert t.result[k] == was + ['\n'] + lines[0];
      FeedMore(t, lines[1..]);
      var next := if lines[1..] == [] then t.result[k] else t.result[k] + ['\n'] + Join(lines[1..]);
      assert next == was + ['\n'] + Join(lines);
      assert t.result[k := next] == s.result[k := next];
    }
  }

  lemma FilledTwice(s: State, a: string, b: string)
    requires s.current.Some?
    ensures Filled(Filled(s, a), b) == Filled(s, b)
  {
  }

  lemma FirstLineOfTrimmed(content: string)
    requires Trimmed(content) && |Lines(content)| > 1
    ensures Lines(content)[0] != ""
  {
    assert IsSpace('\n') && (Lines(content)[0] == "" <==> LineEnd(content) == 0);
  }

  /** A printable content's lines rebuild it. */
  lemma FeedContent(s: State, content: string)
    requires s.current.Some? && s.current.value != "" && s.current.value in s.result && s.result[s.current.value] == ""
    requires Trimmed(content) && forall l :: l in Lines(content) ==> !IsMarker(l)
    ensures FeedAll(s, Lines(content)) == Filled(s, content)
  {
    var (line, more) := (Lines(content)[0], Lines(content)[1..]);
    JoinOfLines(content);
    var t := Feed(s, line);
    assert Lines(content) == [line] + more;
    assert "" + line == line;
    assert t == Filled(s, line);
    if more != [] {
      FirstLineOfTrimmed(content);
      FeedMore(t, more);
      JoinCons(line, more);
      FilledTwice(s, line, content);
    }
  }

  lemma HeadingNames(f: Field)
    requires Trimmed(f.name)
    ensures IsMarker(Heading(f)) && FieldName(Heading(f)) == f.name
  {
    TrimIsTrimmed(f.name);
    var h := Heading(f);
    assert h[|MARKER|..|h| - 1] == f.name;
  }

  ghost predicate AllPrintable(fields: seq<Field>) {
    forall f :: f in fields ==> Printable(f)
  }

  ghost predicate DistinctNames(fields: seq<Field>) {
    forall i, j :: 0 <= i < j < |fields| ==> fields[i].name != fields[j].name
  }

  lemma {:induction false} FeedPrinted(s: State, fields: seq<Field>)
    requires AllPrintable(fields)
    requires DistinctNames(fields)
    ensures FeedAll(s, PrintLines(fields)).result == s.result + AsMap(fields)
    decreases |fields|
  {
    if fields != [] {
      var (f, more) := (fields[0], fields[1..]);
      assert f in fields && forall g :: g in more ==> g in fields;
      var first := [Heading(f)] + Lines(f.content);
      FeedField(s, f);
      PrintFirst(fields, first, more);
      FeedConcat(s, first, PrintLines(more));
      FeedPrinted(FeedAll(s, first), more);
      assert f.name !in AsMap(more) by { AsMapKeys(more); }
      MapCons(s.result, f, AsMap(more));
    }
  }

  lemma PrintFirst(fields: seq<Field>, first: seq<string>, more: seq<Field>)
    requires fields != [] && first == [Heading(fields[0])] + Lines(fields[0].content) && more == fields[1..]
    ensures PrintLines(fields) == first + PrintLines(more)
    ensures AsMap(fields) == map[fields[0].name := fields[0].content] + AsMap(more)
  {
  }

  lemma MapCons(m: map<string, string>, f: Field, rest: map<string, string>)
    ensures m[f.name := f.content] + rest == m + (map[f.name := f.content] + rest)
  {
  }

  lemma FeedField(s: State, f: Field)
    requires Printable(f)
    ensures FeedAll(s, [Heading(f)] + Lines(f.content)).result == s.result[f.name := f.content]
  {
    HeadingNames(f);
    var t := Feed(s, Heading(f));
    FeedContent(t, f.content);
    assert ([Heading(f)] + Lines(f.content))[1..] == Lines(f.content);
    assert FeedAll(s, [Heading(f)] + Lines(f.content)) == FeedAll(t, Lines(f.content));
    assert t.result[f.name := f.content] == s.result[f.name := f.content];
  }

  lemma AsMapKeys(fields: seq<Field>)
    ensures forall k :: k in AsMap(fields) <==> exists i :: 0 <= i < |fields| && fields[i].name == k
  {
    if fields != [] {
      AsMapKeys(fields[1..]);
      assert forall i :: 1 <= i < |fields| ==> fields[i] == fields[1..][i - 1];
    }
  }

  lemma {:induction false} AsMapTrimmed(fields: seq<Field>)
    requires forall f :: f in fields ==> Trimmed(f.content)
    ensures TrimValues(AsMap(fields)) == AsMap(fields)
  {
    if fields != [] {
      assert fields[0] in fields;
      TrimIsTrimmed(fields[0].content);
      AsMapTrimmed(fields[1..]);
      var (m, n) := (AsMap(fields), AsMap(fields[1..]));
      forall k | k in m ensures Trim(m[k]) == m[k] {
        if k in n { assert TrimValues(n)[k] == n[k]; }
      }
    }
  }

  /** Printing distinct fields and parsing them gives the same fields back. */
  lemma RoundTrip(fields: seq<Field>)
    requires AllPrintable(fields)
    requires DistinctNames(fields)
    ensures Parse(Print(fields)) == AsMap(fields)
  {
    FeedPrint(State(None, map[]), fields);
    ContentsAreTrimmed(fields);
  }

  lemma ContentsAreTrimmed(fields: seq<Field>)
    requires AllPrintable(fields)
    ensures TrimValues(AsMap(fields)) == AsMap(fields)
  {
    assert forall f :: f in fields ==> Printable(f) && Trimmed(f.content);
    AsMapTrimmed(fields);
  }

  lemma FeedPrint(start: State, fields: seq<Field>)
    requires start == State(None, map[]) && AllPrintable(fields)
    requires DistinctNames(fields)
    ensures FeedAll(start, Lines(Print(fields))).result == AsMap(fields)
  {
    if fields == [] {
      assert Lines("") == [""];
    } else {
      assert forall f :: f in fields ==> Printable(f) && '\n' !in f.name;
      LinesOfPrint(fields);
      FeedFromStart(start, fields);
    }
  }

  lemma FeedFromStart(s: State, fields: seq<Field>)
    requires s.result == map[] && AllPrintable(fields)
    requires DistinctNames(fields)
    ensures FeedAll(s, PrintLines(fields)).result == AsMap(fields)
  {
    FeedPrinted(s, fields);
    assert s.result + AsMap(fields) == AsMap(fields);
  }

  /** An illustration: a bare marker line, with no name and no colon, names a field by the marker's own dot. */
  lemma BareMarkerIsDot()
    ensures IsMarker(MARKER) && FieldName(MARKER) == "."
  {
    assert MARKER[|MARKER| - 1..|MARKER|] == ".";
    TrimIsTrimmed(".");
  }

  // ---------------------------------------------------------------------------------------------
  // Every input
  // ---------------------------------------------------------------------------------------------

  ghost predicate NoMarkers(lines: seq<string>) {
    forall l :: l in lines ==> !IsMarker(l)
  }

  lemma TrimSkipsBreak(s: string)
    ensures Trim(['\n'] + s) == Trim(s)
  {
    assert (['\n'] + s)[1..] == s && IsSpace('\n');
  }

  /** The lines of one field, however many of them are empty. */
  lemma {:induction false} FeedSection(s: State, lines: seq<string>) returns (content: string)
    requires s.current.Some? && s.current.value != "" && s.current.value in s.result && s.result[s.current.value] == ""
    requires NoMarkers(lines)
    ensures FeedAll(s, lines) == Filled(s, content) && Trim(content) == Trim(Join(lines))
    decreases |lines|
  {
    content := "";
    if lines == [] {
      assert s.result[s.current.value := ""] == s.result;
    } else {
      var (line, more) := (lines[0], lines[1..]);
      assert line in lines && forall l :: l in more ==> l in lines;
      assert lines == [line] + more && "" + line == line;
      var t := Feed(s, line);
      assert t == Filled(s, line);
      if line == "" {
        content := FeedSection(t, more);
        if more != [] {
          JoinCons(line, more);
          TrimSkipsBreak(Join(more));
        }
      } else {
        FeedMore(t, more);
        content := if more == [] then line else line + ['\n'] + Join(more);
        if more != [] { JoinCons(line, more); }
      }
      FilledTwice(s, line, content);
    }
  }

  lemma {:induction false} FeedUnnamed(s: State, lines: seq<string>)
    requires NoMarkers(lines) && (s.current.None? || s.current.value == "")
    ensures FeedAll(s, lines) == s
    decreases |lines|
  {
    if lines != [] {
      assert lines[0] in lines && forall l :: l in lines[1..] ==> l in lines;
      FeedUnnamed(s, lines[1..]);
    }
  }

  /** Lines of other fields leave a field alone. */
  lemma {:induction false} FeedOthers(s: State, lines: seq<string>, name: string)
    requires s.current != Some(name) && name in s.result
    requires forall l :: l in lines && IsMarker(l) ==> FieldName(l) != name
    ensures var t := FeedAll(s, lines); name in t.result && t.result[name] == s.result[name]
    decreases |lines|
  {
    if lines != [] {
      assert lines[0] in lines && forall l :: l in lines[1..] ==> l in lines;
      FeedOthers(Feed(s, lines[0]), lines[1..], name);
    }
  }

  lemma {:induction false} FieldsAreMarked(s: State, lines: seq<string>, name: string)
    ensures name in FeedAll(s, lines).result
       <==> name in s.result || exists l :: l in lines && IsMarker(l) && FieldName(l) == name
    decreases |lines|
  {
    if lines != [] {
      assert lines == [lines[0]] + lines[1..];
      FieldsAreMarked(Feed(s, lines[0]), lines[1..], name);
    }
  }

  /** The parts of a file around the last marker line of a field: what precedes it, the field's own lines up to the next
      marker, and the rest. */
  ghost predicate LastSection(lines: seq<string>, before: seq<string>, marker: string, own: seq<string>,
                              after: seq<string>) {
    && lines == before + ([marker] + (own + after)) && IsMarker(marker) && NoMarkers(own)
    && (after != [] ==> IsMarker(after[0]))
    && forall l :: l in after && IsMarker(l) ==> FieldName(l) != FieldName(marker)
  }

  /** For every input: a field's content is the text between its last marker line and the next marker line, trimmed;
      a field without a name has none. */
  lemma ContentExactly(input: string, before: seq<string>, marker: string, own: seq<string>, after: seq<string>)
    requires LastSection(Lines(input), before, marker, own, after)
    ensures var name := FieldName(marker);
            name in Parse(input) && Parse(input)[name] == if name == "" then "" else Trim(Join(own))
  {
    var name := FieldName(marker);
    var s := FeedAll(State(None, map[]), before);
    var t := Feed(s, marker);
    FeedConcat(State(None, map[]), before, [marker] + (own + after));
    assert ([marker] + (own + after))[1..] == own + after;
    FeedConcat(t, own, after);
    TrimIsTrimmed("");
    if name == "" {
      FeedUnnamed(t, own);
    } else {
      var content := FeedSection(t, own);
    }
    var u := FeedAll(t, own);
    if after != [] {
      assert after == [after[0]] + after[1..] && after[0] in after;
      assert forall l :: l in after[1..] ==> l in after;
      FeedOthers(Feed(u, after[0]), after[1..], name);
    }
  }

  /** The fields are exactly those that some marker line names; all text before the first marker line is ignored. */
  lemma FieldsExactly(input: string, name: string)
    ensures name in Parse(input) <==> exists l :: l in Lines(input) && IsMarker(l) && FieldName(l) == name
  {
    FieldsAreMarked(State(None, map[]), Lines(input), name);
  }

  /** A marker line's field name: what stands between its marker and its last character, trimmed. */
  lemma FieldNameExactly(name: string, last: char)
    ensures IsMarker(MARKER + name + [last]) && FieldName(MARKER + name + [last]) == Trim(name)
  {
    var line := MARKER + name + [last];
    assert line[|MARKER|..|line| - 1] == name;
  }
}
