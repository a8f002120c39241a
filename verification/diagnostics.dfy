/** The translation of Svelte diagnostics into esbuild messages, shared by both plugin
    generations (`convertMessages` in src/plugin.ts, `convertMessage` in src/index.ts):
    the line excerpt, the span length, and the optional move of the start position
    through the preprocessor's sourcemap. */
module Diagnostics {
  import opened Wrappers
  import opened JsStrings
  import opened Messages

  // ---------------------------------------------------------------------------
  // lines

  /** The characters `/\r\n|\r|\n/` matches on its own. */
  predicate IsBreak(c: char) {
    c == '\r' || c == '\n'
  }

  predicate NoBreak(s: string) {
    forall i :: 0 <= i < |s| ==> !IsBreak(s[i])
  }

  /** `s.split(/\r\n|\r|\n/g)`: a `\r\n` pair is one separator. */
  function SplitLines(s: string): (r: seq<string>)
    ensures |r| >= 1
    ensures forall i :: 0 <= i < |r| ==> NoBreak(r[i])
    decreases |s|
  {
    if |s| == 0 then [""]
    else if s[0] == '\r' && |s| > 1 && s[1] == '\n' then [""] + SplitLines(s[2..])
    else if IsBreak(s[0]) then [""] + SplitLines(s[1..])
    else
      var rest := SplitLines(s[1..]);
      [[s[0]] + rest[0]] + rest[1..]
  }

  /** `s` with every `\r\n` and every lone `\r` written as `\n`. */
  function NormalizeNewlines(s: string): (r: string)
    decreases |s|
  {
    if |s| == 0 then ""
    else if s[0] == '\r' && |s| > 1 && s[1] == '\n' then "\n" + NormalizeNewlines(s[2..])
    else if s[0] == '\r' then "\n" + NormalizeNewlines(s[1..])
    else [s[0]] + NormalizeNewlines(s[1..])
  }

  /** The number of line terminators in `s`, a `\r\n` pair counting once. */
  function CountBreaks(s: string): nat
    decreases |s|
  {
    if |s| == 0 then 0
    else if s[0] == '\r' && |s| > 1 && s[1] == '\n' then 1 + CountBreaks(s[2..])
    else if IsBreak(s[0]) then 1 + CountBreaks(s[1..])
    else CountBreaks(s[1..])
  }

  /** The lines, joined again with `\n`, are the text with its line endings made `\n`:
      splitting loses nothing but the kind of each line terminator. */
  lemma {:induction false} JoinSplitLines(s: string)
    ensures Join(SplitLines(s), "\n") == NormalizeNewlines(s)
    decreases |s|
  {
    if |s| > 0 {
      if s[0] == '\r' && |s| > 1 && s[1] == '\n' {
        JoinSplitLines(s[2..]);
        JoinCons("", SplitLines(s[2..]));
      } else if IsBreak(s[0]) {
        JoinSplitLines(s[1..]);
        JoinCons("", SplitLines(s[1..]));
      } else {
        var rest := SplitLines(s[1..]);
        JoinSplitLines(s[1..]);
        var r := [[s[0]] + rest[0]] + rest[1..];
        if |rest| == 1 {
          assert Join(r, "\n") == [s[0]] + rest[0];
        } else {
          assert r[1..] == rest[1..];
          assert Join(rest, "\n") == rest[0] + "\n" + Join(rest[1..], "\n");
        }
      }
    }
  }

  lemma JoinCons(head: string, tail: seq<string>)
    requires |tail| > 0
    ensures Join([head] + tail, "\n") == head + "\n" + Join(tail, "\n")
  {
    assert ([head] + tail)[1..] == tail;
  }

  /** A line ended by `\n` is the first piece of the split, and the split goes on with
      the rest. */
  lemma {:induction false} SplitLinesLine(a: string, b: string)
    requires NoBreak(a)
    ensures SplitLines(a + "\n" + b) == [a] + SplitLines(b)
    decreases |a|
  {
    var s := a + "\n" + b;
    if |a| == 0 {
      assert s[0] == '\n' && s[1..] == b;
    } else {
      assert s[0] == a[0] && s[1..] == a[1..] + "\n" + b;
      SplitLinesLine(a[1..], b);
      assert [a[0]] + a[1..] == a;
    }
  }

  /** There is one line more than there are line terminators. */
  lemma {:induction false} SplitLinesCount(s: string)
    ensures |SplitLines(s)| == CountBreaks(s) + 1
    decreases |s|
  {
    if |s| > 0 {
      if s[0] == '\r' && |s| > 1 && s[1] == '\n' {
        SplitLinesCount(s[2..]);
      } else {
        SplitLinesCount(s[1..]);
      }
    }
  }

  /** A text without line terminators is a single line. */
  lemma {:induction false} SplitLinesSingle(s: string)
    requires NoBreak(s)
    ensures SplitLines(s) == [s]
    decreases |s|
  {
    if |s| > 0 {
      SplitLinesSingle(s[1..]);
      assert [s[0]] + s[1..] == s;
    }
  }

  /** `lines[line - 1]`: JavaScript array indexing, `undefined` out of range. */
  function LineAt(lines: seq<string>, line: int): (r: Option<string>)
    ensures r.Some? <==> 1 <= line <= |lines|
    ensures r.Some? ==> r.value == lines[line - 1]
  {
    if 1 <= line <= |lines| then Some(lines[line - 1]) else None
  }

  // ---------------------------------------------------------------------------
  // sourcemap lookup

  /** What `originalPositionFor` returns: each field may be `null`. */
  datatype OriginalPos = OriginalPos(source: Option<string>, line: Option<int>, column: Option<int>)

  /** The start position after the lookup: it moves only when a sourcemap is present and
      the lookup finds a source (a non-empty string, since `""` is falsy); a missing line
      or column keeps the old one. */
  function Remap<M>(start: Position, sm: Option<M>, lookup: (M, Position) -> OriginalPos): (r: Position)
    ensures sm.Some? ==>
      var pos := lookup(sm.value, start);
      pos.source.Some? && pos.source.value != "" && pos.line.Some? && pos.column.Some? ==>
        r == Position(pos.line.value, pos.column.value)
  {
    if sm.None? then start
    else
      var pos := lookup(sm.value, start);
      if pos.source.Some? && pos.source.value != "" then
        Position(pos.line.GetOr(start.line), pos.column.GetOr(start.column))
      else start
  }

  /** The start position is only ever overwritten by what the lookup found. */
  lemma RemapOnlyWithSource<M>(start: Position, sm: Option<M>, lookup: (M, Position) -> OriginalPos)
    ensures Remap(start, sm, lookup) != start ==>
      && sm.Some?
      && var pos := lookup(sm.value, start);
      && pos.source.Some? && pos.source.value != ""
      && (Remap(start, sm, lookup).line == start.line || pos.line == Some(Remap(start, sm, lookup).line))
      && (Remap(start, sm, lookup).column == start.column || pos.column == Some(Remap(start, sm, lookup).column))
    ensures sm.None? ==> Remap(start, sm, lookup) == start
  {
  }

  // ---------------------------------------------------------------------------
  // one message

  /** What `lineText.length` throws when the excerpt line does not exist. */
  const TypeErrorText: string := "Cannot read properties of undefined (reading 'length')"

  /** Which file a location names: the diagnostic's own `filename` (src/plugin.ts) or a
      name the caller supplies (src/index.ts). */
  datatype FileChoice = OwnFilename | Named(name: string)

  function FileFor(d: Diagnostic, choice: FileChoice): Option<string> {
    match choice
    case OwnFilename => d.filename
    case Named(n) => Some(n)
  }

  /** One diagnostic translated against `code`, or the `TypeError` that reading the
      length of a missing excerpt line throws. A span over several lines reaches the
      end of its first line, measured as JavaScript measures it, in UTF-16 code units;
      columns are taken as the compiler and the lookup report them. */
  function Convert<M>(d: Diagnostic, choice: FileChoice, code: string, sm: Option<M>,
                            lookup: (M, Position) -> OriginalPos): (r: Result<Message, string>)
    ensures r.Err? <==>
      && d.start.Some? && d.end.Some?
      && d.start.value.line != d.end.value.line
      && LineAt(SplitLines(code), d.start.value.line).None?
    ensures r.Err? ==> r.error == TypeErrorText
    ensures r.Ok? ==> r.value.text == d.message
    ensures r.Ok? ==> (r.value.location.Some? <==> d.start.Some? && d.end.Some?)
    ensures r.Ok? && r.value.location.Some? ==>
      var loc := r.value.location.value;
      var s := d.start.value;
      var p := Remap(s, sm, lookup);
      && loc.file == FileFor(d, choice)
      && loc.line == Some(p.line) && loc.column == Some(p.column)
      && loc.lineText == LineAt(SplitLines(code), s.line)
      && loc.length.Some?
      && (s.line == d.end.value.line ==> loc.length.value == d.end.value.column - p.column)
      && (s.line != d.end.value.line ==> loc.length.value == Utf16Length(loc.lineText.value) - p.column)
  {
    if d.start.Some? && d.end.Some? then
      var s := d.start.value;
      var lineText := LineAt(SplitLines(code), s.line);
      if s.line != d.end.value.line && lineText.None? then Err(TypeErrorText)
      else
        var lineEnd := if s.line == d.end.value.line then d.end.value.column else Utf16Length(lineText.value);
        var p := Remap(s, sm, lookup);
        Ok(Message(d.message, Some(Location(FileFor(d, choice), Some(p.line), Some(p.column),
                                              Some(lineEnd - p.column), lineText))))
    else Ok(TextOnly(d.message))
  }

  /** `messages.map(convert)`: every message in order, or the first `TypeError`. */
  function ConvertAll<M>(ds: seq<Diagnostic>, choice: FileChoice, code: string, sm: Option<M>,
                               lookup: (M, Position) -> OriginalPos): (r: Result<seq<Message>, string>)
    ensures r.Ok? <==> forall i :: 0 <= i < |ds| ==> Convert(ds[i], choice, code, sm, lookup).Ok?
    ensures r.Ok? ==> |r.value| == |ds|
    ensures r.Ok? ==> forall i :: 0 <= i < |ds| ==> r.value[i] == Convert(ds[i], choice, code, sm, lookup).value
    ensures r.Err? ==> r.error == TypeErrorText
    decreases |ds|
  {
    if |ds| == 0 then Ok([])
    else
      match Convert(ds[0], choice, code, sm, lookup)
      case Err(e) => Err(e)
      case Ok(m) =>
        match ConvertAll(ds[1..], choice, code, sm, lookup)
        case Err(e) => Err(e)
        case Ok(ms) =>
          assert forall i :: 1 <= i < |ds| ==> ds[i] == ds[1..][i - 1];
          Ok([m] + ms)
  }

  /** The excerpt is one line of the code: it has no line terminator, and it is the
      `line`-th of the pieces whose `\n`-join is the code with normalised line endings. */
  lemma ExcerptIsLine<M>(d: Diagnostic, choice: FileChoice, code: string, sm: Option<M>,
                               lookup: (M, Position) -> OriginalPos)
    requires Convert(d, choice, code, sm, lookup).Ok?
    requires Convert(d, choice, code, sm, lookup).value.location.Some?
    ensures var loc := Convert(d, choice, code, sm, lookup).value.location.value;
      loc.lineText.Some? ==>
        && NoBreak(loc.lineText.value)
        && 1 <= d.start.value.line <= |SplitLines(code)|
        && loc.lineText.value == SplitLines(code)[d.start.value.line - 1]
        && Join(SplitLines(code), "\n") == NormalizeNewlines(code)
  {
    JoinSplitLines(code);
  }

  /** Without a sourcemap, a span on one line has the length of its columns and a span
      over several lines reaches the end of its first line. */
  lemma SpanWithoutMap<M>(d: Diagnostic, choice: FileChoice, code: string,
                                lookup: (M, Position) -> OriginalPos)
    requires d.start.Some? && d.end.Some?
    requires Convert(d, choice, code, None, lookup).Ok?
    ensures var loc := Convert(d, choice, code, None, lookup).value.location.value;
      && loc.line == Some(d.start.value.line)
      && loc.column == Some(d.start.value.column)
      && (d.start.value.line == d.end.value.line ==>
            loc.length == Some(d.end.value.column - d.start.value.column))
      && (d.start.value.line != d.end.value.line ==>
            loc.length == Some(Utf16Length(SplitLines(code)[d.start.value.line - 1]) - d.start.value.column))
  {
  }

  /** A span from the start of a line holding a character beyond the Basic Multilingual
      Plane to the next line reaches over two code units for that character: the line
      `a😀b` has length 4, not 3. */
  lemma AstralLineLength<M>(choice: FileChoice, lookup: (M, Position) -> OriginalPos)
    ensures var d := Diagnostic("m", Some(Position(1, 0)), Some(Position(2, 1)), None);
      var r := Convert(d, choice, "a\U{1F600}b\nc", None, lookup);
      && r.Ok? && r.value.location.Some?
      && r.value.location.value.lineText == Some("a\U{1F600}b")
      && r.value.location.value.length == Some(4)
  {
    var code := "a\U{1F600}b\nc";
    var line := "a\U{1F600}b";
    assert code == line + "\n" + "c";
    SplitLinesLine(line, "c");
    SplitLinesSingle("c");
    assert Utf16Length(line) == 4 by {
      assert line[1..] == "\U{1F600}b";
      assert line[1..][1..] == "b";
      assert line[1..][1..][1..] == "";
    }
  }

  /** Code without line terminators: a start on line 1 gets the whole code as excerpt. */
  lemma SingleLineExcerpt<M>(d: Diagnostic, choice: FileChoice, code: string, sm: Option<M>,
                                   lookup: (M, Position) -> OriginalPos)
    requires NoBreak(code)
    requires d.start.Some? && d.end.Some? && d.start.value.line == 1
    ensures Convert(d, choice, code, sm, lookup).Ok?
    ensures Convert(d, choice, code, sm, lookup).value.location.value.lineText == Some(code)
  {
    SplitLinesSingle(code);
  }
}
