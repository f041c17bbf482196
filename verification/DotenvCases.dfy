// What each kind of line, and each kind of value, comes to.
module DotenvCases {
  import opened Wrappers
  import opened PyStr
  import opened Dotenv
  import opened DotenvText
  import Seqs

  // -- characters --------------------------------------------------------------

  // What ends a line, what a name is made of, and what counts as a space.
  lemma CharacterClasses(c: char)
    ensures IsBoundary(c) <==> c in "\n\r\U{0B}\U{0C}\U{1C}\U{1D}\U{1E}\U{85}\U{2028}\U{2029}"
    ensures IsNameStart(c) <==> 0x41 <= c as int <= 0x5A || 0x61 <= c as int <= 0x7A || c as int == 0x5F
    ensures IsNameChar(c) <==> IsNameStart(c) || 0x30 <= c as int <= 0x39
  {
  }

  lemma SpaceClass(c: char)
    ensures IsSpace(c) <==>
      || c in "\t\n\U{0B}\U{0C}\r\U{1C}\U{1D}\U{1E}\U{1F} \U{85}\U{A0}\U{1680}\U{2028}\U{2029}\U{202F}\U{205F}\U{3000}"
      || c in "\U{2000}\U{2001}\U{2002}\U{2003}\U{2004}\U{2005}\U{2006}\U{2007}\U{2008}\U{2009}\U{200A}"
  {
  }

  // -- lines -------------------------------------------------------------------

  // Lines and what ends them, put back together.
  function Rebuilt(lines: seq<string>, ends: seq<string>): (text: string)
    requires |ends| == |lines|
  {
    if lines == [] then "" else lines[0] + ends[0] + Rebuilt(lines[1..], ends[1..])
  }

  // A return and newline together, any other boundary alone, or the end of the text.
  predicate IsLineEnd(end: string) {
    end == "\r\n" || (|end| == 1 && IsBoundary(end[0])) || end == ""
  }

  // No line holds a boundary, only the last may lack an end, and no return is taken apart
  // from a newline after it.
  predicate WellEnded(lines: seq<string>, ends: seq<string>) {
    && |ends| == |lines|
    && (forall i :: 0 <= i < |ends| ==> IsLineEnd(ends[i]) && OneLine(lines[i]))
    && (forall i :: 0 <= i < |ends| - 1 ==> ends[i] != "")
    && (ends != [] && ends[|ends| - 1] == "" ==> lines[|ends| - 1] != "")
    && (forall i :: 0 <= i < |ends| - 1 && ends[i] == "\r" ==>
          lines[i + 1] != "" || (ends[i + 1] != "" && ends[i + 1][0] != '\n'))
  }

  // A text is its lines and their ends.
  lemma {:induction false} SplitLinesExactly(text: string) returns (ends: seq<string>)
    ensures |ends| == |SplitLines(text)| && WellEnded(SplitLines(text), ends) && Rebuilt(SplitLines(text), ends) == text
  {
    hide WellEnded;
    if text == "" {
      ends := [];
      NoLines();
    } else {
      var n := LineEnd(text);
      if n == |text| {
        ends := [""];
        LastLine(text);
      } else {
        var step := if text[n] == '\r' && n + 1 < |text| && text[n + 1] == '\n' then 2 else 1;
        var rest := SplitLinesExactly(text[n + step..]);
        assert OneLine(text[..n]);
        ends := [text[n..n + step]] + rest;
        RebuiltFirst(text, n, step, rest);
        EndedFirst(text, n, step, rest);
      }
    }
  }

  lemma NoLines()
    ensures WellEnded([], []) && Rebuilt([], []) == ""
  {
  }

  lemma LastLine(text: string)
    requires text != "" && OneLine(text)
    ensures WellEnded([text], [""]) && Rebuilt([text], [""]) == text
  {
    assert [text][1..] == [] && [""][1..] == [];
  }

  lemma EndedFirst(text: string, n: nat, step: nat, rest: seq<string>)
    requires n < |text| && IsBoundary(text[n]) && OneLine(text[..n])
    requires step == if text[n] == '\r' && n + 1 < |text| && text[n + 1] == '\n' then 2 else 1
    requires WellEnded(SplitLines(text[n + step..]), rest) && Rebuilt(SplitLines(text[n + step..]), rest) == text[n + step..]
    ensures WellEnded([text[..n]] + SplitLines(text[n + step..]), [text[n..n + step]] + rest)
  {
    hide SplitLines, Rebuilt;
    var lines, ends := SplitLines(text[n + step..]), [text[n..n + step]] + rest;
    StartOf(text[n + step..], rest);
    assert IsLineEnd(text[n..n + step]) by {
      assert step == 2 ==> text[n..n + step] == "\r\n";
    }
    EndsShift(text[..n], lines, text[n..n + step], rest);
  }

  lemma EndsShift(line: string, lines: seq<string>, end: string, ends: seq<string>)
    requires WellEnded(lines, ends) && IsLineEnd(end) && end != "" && OneLine(line)
    requires ends != [] && end == "\r" ==> lines[0] != "" || (ends[0] != "" && ends[0][0] != '\n')
    ensures WellEnded([line] + lines, [end] + ends)
  {
    hide IsLineEnd, OneLine;
  }

  lemma RebuiltFirst(text: string, n: nat, step: nat, rest: seq<string>)
    requires n + step <= |text| && |rest| == |SplitLines(text[n + step..])|
    requires Rebuilt(SplitLines(text[n + step..]), rest) == text[n + step..]
    ensures Rebuilt([text[..n]] + SplitLines(text[n + step..]), [text[n..n + step]] + rest) == text
  {
    hide SplitLines;
    var lines := [text[..n]] + SplitLines(text[n + step..]);
    var ends := [text[n..n + step]] + rest;
    assert lines[1..] == SplitLines(text[n + step..]) && ends[1..] == rest;
    assert text == text[..n] + text[n..n + step] + text[n + step..];
  }

  // The first line and its end are how the text starts.
  lemma StartOf(text: string, ends: seq<string>)
    requires |ends| == |SplitLines(text)| && Rebuilt(SplitLines(text), ends) == text
    ensures ends != [] && SplitLines(text)[0] == "" && ends[0] != "" ==> text != "" && text[0] == ends[0][0]
  {
  }

  // Blank lines and comments say nothing.
  lemma SkippedExactly(lines: seq<string>, index: nat, seen: map<string, nat>)
    requires index < |lines|
    requires (forall i :: 0 <= i < |lines[index]| ==> IsSpace(lines[index][i])) || Strip(lines[index])[..1] == "#"
    ensures ParseFrom(lines, index, seen) == ParseFrom(lines, index + 1, seen)
  {
    hide Strip, Assignment, Value;
    BlankStrips(lines[index]);
  }

  // -- assignments -------------------------------------------------------------

  // `export` and the spaces after it go.
  lemma ExportDropped(spaces: string, rest: string)
    requires spaces != "" && forall i :: 0 <= i < |spaces| ==> IsSpace(spaces[i])
    requires rest != "" && !IsSpace(rest[0])
    ensures DropExport("export" + spaces + rest) == rest
  {
    var s := "export" + spaces + rest;
    assert s[..6] == "export" && s[6] == spaces[0] && s[6..] == spaces + rest;
    StripLeading(spaces, rest);
  }

  lemma {:induction false} StripLeading(spaces: string, rest: string)
    requires forall i :: 0 <= i < |spaces| ==> IsSpace(spaces[i])
    requires rest != "" && !IsSpace(rest[0])
    ensures StripLeft(spaces + rest) == rest
  {
    if spaces == "" {
      assert spaces + rest == rest;
    } else {
      Seqs.TailOfConcat(spaces, rest);
      StripLeading(spaces[1..], rest);
    }
  }

  // Nothing else does: a line that does not start with `export` and a space is left alone.
  lemma OnlyExportDropped(line: string)
    requires |line| <= 6 || line[..6] != "export" || !IsSpace(line[6])
    ensures DropExport(line) == line
  {
  }

  // A line without `=` is an error, and so is one whose name, up to the first `=` and
  // stripped, is not a proper one, or is set already; otherwise what follows is the value.
  lemma AssignmentExactly(name: string, rest: string, number: nat, seen: map<string, nat>)
    requires forall i :: 0 <= i < |name| ==> name[i] != '='
    requires DropExport(name + "=" + rest) == name + "=" + rest && DropExport(name) == name
    ensures Assignment(name, number, seen) == Err(DotenvError(number, NoSeparator))
    ensures Assignment(name + "=" + rest, number, seen)
         == if !IsName(Strip(name)) then Err(DotenvError(number, BadName))
            else if Strip(name) in seen then Err(DotenvError(number, AlreadySet(seen[Strip(name)])))
            else Ok((Strip(name), rest))
  {
    hide DropExport, Strip, IsName, Separator;
    SeparatorAfter(name, rest);
    NoSeparatorIn(name);
    var line := name + "=" + rest;
    assert line[..|name|] == name && line[|name| + 1..] == rest;
  }

  lemma {:induction false} NoSeparatorIn(s: string)
    requires forall i :: 0 <= i < |s| ==> s[i] != '='
    ensures Separator(s) == None
  {
    if s != "" {
      NoSeparatorIn(s[1..]);
    }
  }

  // The second assignment to a name is an error naming the line of the first.
  lemma {:induction false} SecondIsRefused(names: seq<string>, values: seq<string>, first: nat, second: nat, index: nat,
                                           seen: map<string, nat>)
    requires |names| == |values| && index <= second < |names| && first < second && names[first] == names[second]
    requires forall i :: 0 <= i < |names| ==> IsName(names[i])
    requires forall i, j :: 0 <= i < j < second ==> names[i] != names[j]
    requires forall i :: 0 <= i < index ==> names[i] in seen && seen[names[i]] == i + 1
    requires forall i :: index <= i < second ==> names[i] !in seen
    ensures ParseFrom(LinesOf(names, values), index, seen) == Err(DotenvError(second + 1, AlreadySet(first + 1)))
    decreases |names| - index
  {
    hide Strip, Assignment, Value, Line, IsName;
    var lines, number := LinesOf(names, values), index + 1;
    if index < second {
      LineRead(names[index], values[index], number, seen);
      QuotedValueRead(values[index], lines, number, number);
      SecondIsRefused(names, values, first, second, number, seen[names[index] := number]);
    } else {
      LineRead(names[index], values[index], number, map[]);
      LineRefused(names[index], values[index], number, seen);
    }
  }

  lemma LineRefused(name: string, value: string, number: nat, seen: map<string, nat>)
    requires IsName(name) && name in seen
    ensures Assignment(Line(name, value), number, seen) == Err(DotenvError(number, AlreadySet(seen[name])))
  {
    hide Strip, DropExport, Separator, Quoted;
    forall i | 0 <= i < |name| ensures name[i] != '=' {
      NameCharacters(name, i);
    }
    NameCharacters(name, 0);
    NameCharacters(name, |name| - 1);
    StripNothing(name);
    NoExport(name, Quoted(value));
    OnlyExportName(name);
    AssignmentExactly(name, Quoted(value), number, seen);
  }

  lemma OnlyExportName(name: string)
    requires IsName(name)
    ensures DropExport(name) == name
  {
    if |name| > 6 {
      NameCharacters(name, 6);
    }
  }

  // -- values ------------------------------------------------------------------

  // An unquoted value ends before the first comment, and at the end of the line, and is
  // stripped: nothing in it is unescaped.
  lemma UnquotedExactly(remainder: string, lines: seq<string>, index: nat, number: nat, end: nat)
    requires index <= |lines|
    requires var body := Strip(remainder); end <= |body| && (body != "" ==> body[0] != '"' && body[0] != '\'')
    requires end < |Strip(remainder)| ==> CommentAt(Strip(remainder), end)
    requires forall i :: 0 <= i < end ==> !CommentAt(Strip(remainder), i)
    ensures Value(remainder, lines, index, number) == Ok((Strip(Strip(remainder)[..end]), 0))
  {
    hide Strip;
  }

  // Single quotes are literal, backslashes and all.
  lemma SingleQuoted(value: string, lines: seq<string>, index: nat, number: nat)
    requires index <= |lines| && '\'' !in value
    ensures Value("'" + value + "'", lines, index, number) == Ok((value, 0))
  {
    hide Strip;
    var body := "'" + value + "'";
    StripNothing(body);
    assert body[1..] == value + "'";
    ClosesAfter(value, "");
    assert value + "'" + "" == value + "'";
    assert (value + "'")[..|value|] == value && (value + "'")[|value| + 1..] == "";
    assert Strip("") == "" by { assert |Strip("")| <= 0; }
  }

  lemma {:induction false} ClosesAfter(value: string, rest: string)
    requires '\'' !in value
    ensures ClosingQuote(value + "'" + rest, '\'') == Some(|value|)
  {
    var text := value + "'" + rest;
    if value != "" {
      ClosesAfter(value[1..], rest);
      assert text[1..] == value[1..] + "'" + rest;
      assert text[0] == value[0] && value[0] in value;
    }
  }

  lemma {:induction false} ClosesBefore(value: string, rest: string)
    ensures ClosingQuote(Escape(value) + "\"" + rest, '"') == Some(|Escape(value)|)
  {
    hide ClosingQuote;
    if value != "" {
      ClosesBefore(value[1..], rest);
      NotClosedBy(value[0], Escape(value[1..]) + "\"" + rest);
      assert Escape(value) + "\"" + rest == EscapeChar(value[0]) + (Escape(value[1..]) + "\"" + rest);
    } else {
      assert Escape(value) + "\"" + rest == "\"" + rest;
      QuoteClosesNow(rest);
    }
  }

  lemma QuoteClosesNow(rest: string)
    ensures ClosingQuote("\"" + rest, '"') == Some(0)
  {
  }

  lemma {:induction false} NeverCloses(value: string)
    ensures ClosingQuote(Escape(value), '"') == None
  {
    hide ClosingQuote;
    if value != "" {
      NeverCloses(value[1..]);
      NotClosedBy(value[0], Escape(value[1..]));
    } else {
      NothingCloses('"');
    }
  }

  // After the closing quote only a comment may follow.
  lemma AfterTheQuote(value: string, tail: string, lines: seq<string>, index: nat, number: nat)
    requires index <= |lines| && tail != "" && !IsSpace(tail[|tail| - 1])
    ensures Value(Quoted(value) + tail, lines, index, number)
         == if Strip(tail)[..1] == "#" then Ok((value, 0)) else Err(DotenvError(number, TrailingText))
  {
    hide Strip, QuotedValue, Escape;
    var body := Quoted(value) + tail;
    StripNothing(body);
    assert body[0] == '"' && body[1..] == Escape(value) + "\"" + tail;
    QuotedThen(value, tail, lines, index, number);
  }

  lemma QuotedThen(value: string, tail: string, lines: seq<string>, index: nat, number: nat)
    requires index <= |lines| && tail != "" && !IsSpace(tail[|tail| - 1])
    ensures QuotedValue(Escape(value) + "\"" + tail, '"', lines, index, 0, number)
         == if Strip(tail)[..1] == "#" then Ok((value, 0)) else Err(DotenvError(number, TrailingText))
  {
    hide Strip, ClosingQuote, Unescape, Escape;
    var buffer := Escape(value) + "\"" + tail;
    BlankStrips(tail);
    ClosesBefore(value, tail);
    UnescapeInvertsEscape(value);
    assert buffer[..|Escape(value)|] == Escape(value) && buffer[|Escape(value)| + 1..] == tail;
  }

  // A quoted value goes on over lines, joined by newlines; running out of them is an error.
  lemma QuotedOverLines(value: string, more: string, lines: seq<string>, index: nat, number: nat)
    requires index <= |lines|
    requires Escape(value) != "" ==> !IsSpace(Escape(value)[|Escape(value)| - 1])
    ensures index == |lines| ==> Value("\"" + Escape(value), lines, index, number) == Err(DotenvError(number, Unterminated))
    ensures index < |lines| && lines[index] == Escape(more) + "\"" ==>
      Value("\"" + Escape(value), lines, index, number) == Ok((value + "\n" + more, 1))
  {
    hide Strip;
    var body := "\"" + Escape(value);
    StripNothing(body);
    assert body[1..] == Escape(value);
    NeverCloses(value);
    if index < |lines| && lines[index] == Escape(more) + "\"" {
      JoinedLines(value, more, lines, index, number);
    }
  }

  lemma JoinedLines(value: string, more: string, lines: seq<string>, index: nat, number: nat)
    requires index < |lines| && lines[index] == Escape(more) + "\""
    ensures QuotedValue(Escape(value) + "\n" + lines[index], '"', lines, index, 1, number) == Ok((value + "\n" + more, 1))
  {
    hide Strip, ClosingQuote, Unescape, Escape;
    var raw := Escape(value) + "\n" + Escape(more);
    var buffer := Escape(value) + "\n" + lines[index];
    assert buffer == raw + "\"";
    ClosesAfterNewline(value, more);
    UnescapeOverNewline(value, more);
    assert buffer[..|raw|] == raw && buffer[|raw| + 1..] == "";
    assert Strip("") == "" by { assert |Strip("")| <= 0; }
  }

  lemma {:induction false} ClosesAfterNewline(value: string, more: string)
    ensures ClosingQuote(Escape(value) + "\n" + Escape(more) + "\"", '"') == Some(|Escape(value) + "\n" + Escape(more)|)
  {
    hide ClosingQuote;
    var end := "\n" + Escape(more) + "\"";
    if value != "" {
      ClosesAfterNewline(value[1..], more);
      NotClosedBy(value[0], Escape(value[1..]) + "\n" + Escape(more) + "\"");
      assert Escape(value) + "\n" + Escape(more) + "\""
          == EscapeChar(value[0]) + (Escape(value[1..]) + "\n" + Escape(more) + "\"");
    } else {
      ClosesAtTheEnd(more);
      assert Escape(value) + "\n" + Escape(more) + "\"" == "\n" + (Escape(more) + "\"");
      NewlineDoesNotClose(Escape(more) + "\"");
    }
  }

  lemma NewlineDoesNotClose(rest: string)
    ensures ClosingQuote("\n" + rest, '"') == Later(ClosingQuote(rest, '"'), 1)
  {
    assert ("\n" + rest)[1..] == rest;
  }

  lemma {:induction false} UnescapeOverNewline(value: string, more: string)
    ensures Unescape(Escape(value) + "\n" + Escape(more)) == value + "\n" + more
  {
    hide Unescape;
    if value != "" {
      var first, rest := EscapeChar(value[0]), Escape(value[1..]) + "\n" + Escape(more);
      UnescapeOverNewline(value[1..], more);
      assert Escape(value) + "\n" + Escape(more) == first + rest;
      UnescapeFirst(value[0], rest);
      assert value + "\n" + more == [value[0]] + (value[1..] + "\n" + more);
    } else {
      UnescapeInvertsEscape(more);
      assert Escape(value) + "\n" + Escape(more) == "\n" + Escape(more);
      UnescapeNewline(Escape(more));
      assert value + "\n" + more == "\n" + more;
    }
  }

  lemma UnescapeNewline(rest: string)
    ensures Unescape("\n" + rest) == "\n" + Unescape(rest)
  {
    assert ("\n" + rest)[1..] == rest;
  }

  lemma UnescapeFirst(c: char, rest: string)
    ensures Unescape(EscapeChar(c) + rest) == [c] + Unescape(rest)
  {
    var first := EscapeChar(c);
    assert (first + rest)[|first|..] == rest;
    assert (first + rest)[0] == first[0] && (|first| == 2 ==> (first + rest)[1] == first[1]);
  }

  // The six escapes, any other kept with its backslash, and a backslash at the very end.
  lemma EscapesExactly(c: char, rest: string)
    ensures
      Unescape(['\\', c] + rest)
        == (if c == 'n' then "\n" else if c == 'r' then "\r" else if c == 't' then "\t"
            else if c == '\\' || c == '"' || c == '\'' then [c]
            else ['\\', c]) + Unescape(rest)
    ensures Unescape("\\") == "\\"
  {
    assert (['\\', c] + rest)[2..] == rest;
    assert "\\"[1..] == "" && Unescape("") == "";
  }
}
