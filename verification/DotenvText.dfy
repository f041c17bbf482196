// Which values an environment file can carry: writing any of them down, quoted and escaped,
// and parsing the file gives it back.
module DotenvText {
  import opened Wrappers
  import opened PyStr
  import opened Dotenv
  import Seqs

  // -- writing -----------------------------------------------------------------

  function EscapeChar(c: char): (s: string)
    ensures 1 <= |s| <= 2
  {
    match c
    case '\\' => "\\\\"
    case '"' => "\\\""
    case '\n' => "\\n"
    case '\r' => "\\r"
    case '\t' => "\\t"
    case _ => [c]
  }

  function Escape(value: string): (s: string) {
    if value == "" then "" else EscapeChar(value[0]) + Escape(value[1..])
  }

  function Quoted(value: string): (s: string) {
    "\"" + Escape(value) + "\""
  }

  function Line(name: string, value: string): (line: string) {
    name + "=" + Quoted(value)
  }

  // The lines that assign `values[i]` to `names[i]`.
  function LinesOf(names: seq<string>, values: seq<string>): (lines: seq<string>)
    requires |names| == |values|
    ensures |lines| == |names|
    ensures forall i :: 0 <= i < |names| ==> lines[i] == Line(names[i], values[i])
  {
    seq(|names|, i requires 0 <= i < |names| => Line(names[i], values[i]))
  }

  function Join(lines: seq<string>): (text: string) {
    if lines == [] then "" else lines[0] + "\n" + Join(lines[1..])
  }

  // -- lines -------------------------------------------------------------------

  predicate OneLine(s: string) {
    forall i :: 0 <= i < |s| ==> !IsBoundary(s[i])
  }

  lemma {:induction false} LineEndAt(line: string, rest: string)
    requires OneLine(line)
    ensures LineEnd(line + "\n" + rest) == |line|
  {
    var text := line + "\n" + rest;
    assert text[|line|] == '\n';
    assert forall i :: 0 <= i < |line| ==> text[i] == line[i];
  }

  lemma {:induction false} SplitInvertsJoin(lines: seq<string>)
    requires forall i :: 0 <= i < |lines| ==> OneLine(lines[i])
    ensures SplitLines(Join(lines)) == lines
  {
    if lines != [] {
      var text := Join(lines);
      LineEndAt(lines[0], Join(lines[1..]));
      SplitInvertsJoin(lines[1..]);
      assert text[..|lines[0]|] == lines[0] && text[|lines[0]| + 1..] == Join(lines[1..]);
      assert text[|lines[0]|] == '\n';
      Seqs.Uncons(lines);
    }
  }

  lemma {:induction false} SplitGivesLines(text: string)
    ensures forall i :: 0 <= i < |SplitLines(text)| ==> OneLine(SplitLines(text)[i])
  {
    if text != "" {
      var n := LineEnd(text);
      if n < |text| {
        SplitGivesLines(text[n + 1..]);
        if text[n] == '\r' && n + 1 < |text| && text[n + 1] == '\n' {
          SplitGivesLines(text[n + 2..]);
        }
      }
    }
  }

  // -- one value ---------------------------------------------------------------

  lemma {:induction false} UnescapeInvertsEscape(value: string)
    ensures Unescape(Escape(value)) == value
  {
    if value != "" {
      var first, rest := EscapeChar(value[0]), Escape(value[1..]);
      UnescapeInvertsEscape(value[1..]);
      assert (first + rest)[|first|..] == rest;
      assert (first + rest)[0] == first[0] && (|first| == 2 ==> (first + rest)[1] == first[1]);
      Seqs.Uncons(value);
    }
  }

  lemma NotClosedBy(c: char, rest: string)
    ensures ClosingQuote(EscapeChar(c) + rest, '"') == Later(ClosingQuote(rest, '"'), |EscapeChar(c)|)
  {
    var first := EscapeChar(c);
    var text := first + rest;
    assert text[|first|..] == rest;
    assert text[0] == first[0] && first[0] != '"';
    assert |first| == 2 <==> first[0] == '\\';
  }

  lemma {:induction false} ClosesAtTheEnd(value: string)
    ensures ClosingQuote(Escape(value) + "\"", '"') == Some(|Escape(value)|)
  {
    hide ClosingQuote;
    if value != "" {
      ClosesAtTheEnd(value[1..]);
      NotClosedBy(value[0], Escape(value[1..]) + "\"");
      Seqs.Associate(EscapeChar(value[0]), Escape(value[1..]), "\"");
    } else {
      assert Escape(value) + "\"" == "\"";
      QuoteCloses();
    }
  }

  lemma QuoteCloses()
    ensures ClosingQuote("\"", '"') == Some(0)
  {
  }

  lemma StripNothing(s: string)
    requires s != "" && !IsSpace(s[0]) && !IsSpace(s[|s| - 1])
    ensures Strip(s) == s
  {
  }

  lemma QuotedValueRead(value: string, lines: seq<string>, index: nat, number: nat)
    requires index <= |lines|
    ensures Value(Quoted(value), lines, index, number) == Ok((value, 0))
  {
    hide Strip;
    var body, buffer := Quoted(value), Escape(value) + "\"";
    StripNothing(body);
    assert body[0] == '"' && body[1..] == buffer;
    ClosesAtTheEnd(value);
    UnescapeInvertsEscape(value);
    assert buffer[..|Escape(value)|] == Escape(value) && buffer[|Escape(value)| + 1..] == "";
    assert Strip("") == "" by {
      assert |Strip("")| <= 0;
    }
  }

  // -- one line ----------------------------------------------------------------

  lemma NameCharacters(name: string, i: nat)
    requires IsName(name) && i < |name|
    ensures !IsSpace(name[i]) && name[i] != '=' && name[i] != '#' && !IsBoundary(name[i])
  {
  }

  lemma {:induction false} SeparatorAfter(name: string, rest: string)
    requires forall i :: 0 <= i < |name| ==> name[i] != '='
    ensures Separator(name + "=" + rest) == Some(|name|)
  {
    var s := name + "=" + rest;
    if name != "" {
      SeparatorAfter(name[1..], rest);
      assert s[1..] == name[1..] + "=" + rest;
    }
  }

  // A name followed by `=` is no export prefix.
  lemma NoExport(name: string, rest: string)
    requires IsName(name)
    ensures DropExport(name + "=" + rest) == name + "=" + rest
  {
    var s := name + "=" + rest;
    if |name| < 6 {
      assert s[|name|] == '=';
      assert |s| > 6 ==> s[..6][|name|] == '=';
      assert forall i :: 0 <= i < 6 ==> "export"[i] != '=';
    } else if |name| == 6 {
      assert s[6] == '=';
    } else {
      assert s[6] == name[6];
      NameCharacters(name, 6);
    }
  }

  lemma LineRead(name: string, value: string, number: nat, seen: map<string, nat>)
    requires IsName(name) && name !in seen
    ensures
      var line := Line(name, value);
      && Strip(line) == line && line != "" && line[0] != '#'
      && Assignment(line, number, seen) == Ok((name, Quoted(value)))
  {
    hide Strip, IsName, DropExport, Separator, Quoted;
    var line, at := Line(name, value), |name|;
    assert name != "" by {
      NameNotEmpty(name);
    }
    NameCharacters(name, 0);
    NameCharacters(name, at - 1);
    QuotedEnds(value);
    assert line[0] == name[0] && line[|line| - 1] == Quoted(value)[|Quoted(value)| - 1];
    StripNothing(line);
    StripNothing(name);
    NoExport(name, Quoted(value));
    forall i | 0 <= i < |name| ensures name[i] != '=' {
      NameCharacters(name, i);
    }
    SeparatorAfter(name, Quoted(value));
    assert line[..at] == name && line[at + 1..] == Quoted(value);
  }

  lemma NameNotEmpty(name: string)
    requires IsName(name)
    ensures name != ""
  {
  }

  lemma QuotedEnds(value: string)
    ensures Quoted(value) != "" && Quoted(value)[|Quoted(value)| - 1] == '"'
  {
  }

  // -- whole files -------------------------------------------------------------

  // A value a file can carry: the only line boundaries in it are those with an escape.
  predicate Carried(value: string) {
    forall i :: 0 <= i < |value| && IsBoundary(value[i]) ==> value[i] == '\n' || value[i] == '\r'
  }

  lemma {:induction false} EscapedIsOneLine(value: string)
    requires Carried(value)
    ensures OneLine(Escape(value))
  {
    if value != "" {
      EscapedIsOneLine(value[1..]);
      assert OneLine(EscapeChar(value[0]));
    }
  }

  lemma LineIsOneLine(name: string, value: string)
    requires IsName(name) && Carried(value)
    ensures OneLine(Line(name, value))
  {
    EscapedIsOneLine(value);
    forall i | 0 <= i < |name| ensures !IsBoundary(name[i]) {
      NameCharacters(name, i);
    }
  }

  // Whatever a file holds, each of the values read from it could be written.
  lemma {:induction false} UnescapedCarried(text: string)
    requires Carried(text)
    ensures Carried(Unescape(text))
  {
    if text != "" {
      if text[0] == '\\' && |text| > 1 {
        UnescapedCarried(text[2..]);
      } else {
        UnescapedCarried(text[1..]);
      }
    }
  }

  lemma StripCarried(s: string)
    requires Carried(s)
    ensures Carried(Strip(s))
  {
    var left := StripLeft(s);
    assert forall i :: 0 <= i < |left| ==> left[i] == s[|s| - |left| + i];
    assert forall i :: 0 <= i < |Strip(s)| ==> Strip(s)[i] == left[i];
  }

  lemma {:induction false} QuotedValueCarried(buffer: string, quote: char, lines: seq<string>, index: nat,
                                              consumed: nat, number: nat)
    requires index + consumed <= |lines| && Carried(buffer)
    requires forall i :: 0 <= i < |lines| ==> OneLine(lines[i])
    requires QuotedValue(buffer, quote, lines, index, consumed, number).Ok?
    ensures Carried(QuotedValue(buffer, quote, lines, index, consumed, number).value.0)
    decreases |lines| - index - consumed
  {
    hide Strip;
    match ClosingQuote(buffer, quote) {
      case Some(end) => UnescapedCarried(buffer[..end]);
      case None => QuotedValueCarried(buffer + "\n" + lines[index + consumed], quote, lines, index, consumed + 1, number);
    }
  }

  lemma ValueCarried(remainder: string, lines: seq<string>, index: nat, number: nat)
    requires index <= |lines| && Carried(remainder)
    requires forall i :: 0 <= i < |lines| ==> OneLine(lines[i])
    requires Value(remainder, lines, index, number).Ok?
    ensures Carried(Value(remainder, lines, index, number).value.0)
  {
    hide Strip;
    StripCarried(remainder);
    var body := Strip(remainder);
    if body == "" || (body[0] != '"' && body[0] != '\'') {
      StripCarried(body[..CommentStart(body)]);
    } else {
      QuotedValueCarried(body[1..], body[0], lines, index, 0, number);
    }
  }

  lemma AssignmentCarried(line: string, number: nat, seen: map<string, nat>)
    requires Carried(line) && Assignment(line, number, seen).Ok?
    ensures Carried(Assignment(line, number, seen).value.1)
  {
    var dropped := DropExport(line);
    assert Carried(dropped) by {
      assert forall i :: 0 <= i < |dropped| ==> dropped[i] == line[|line| - |dropped| + i];
    }
  }

  lemma {:induction false} ParsedCarried(lines: seq<string>, index: nat, seen: map<string, nat>)
    requires index <= |lines| && ParseFrom(lines, index, seen).Ok?
    requires forall i :: 0 <= i < |lines| ==> OneLine(lines[i])
    ensures
      var entries := ParseFrom(lines, index, seen).value;
      forall i :: 0 <= i < |entries| ==> Carried(entries[i].value)
    decreases |lines| - index
  {
    hide Strip, Assignment, Value, Carried;
    if index < |lines| {
      var number, stripped := index + 1, Strip(lines[index]);
      if stripped == "" || stripped[0] == '#' {
        ParsedCarried(lines, number, seen);
      } else {
        var (name, remainder) := Assignment(stripped, number, seen).value;
        var (value, consumed) := Value(remainder, lines, number, number).value;
        LineCarried(lines[index]);
        StripCarried(lines[index]);
        AssignmentCarried(stripped, number, seen);
        ValueCarried(remainder, lines, number, number);
        ParsedCarried(lines, number + consumed, seen[name := number]);
      }
    }
  }

  lemma LineCarried(line: string)
    requires OneLine(line)
    ensures Carried(line)
  {
  }

  function Written(names: seq<string>, values: seq<string>): (entries: seq<Entry>)
    requires |names| == |values|
    ensures |entries| == |names|
    ensures forall i :: 0 <= i < |names| ==> entries[i] == Entry(names[i], values[i], i + 1)
  {
    seq(|names|, i requires 0 <= i < |names| => Entry(names[i], values[i], i + 1))
  }

  lemma {:induction false} LinesRead(names: seq<string>, values: seq<string>, index: nat, seen: map<string, nat>)
    requires |names| == |values| && index <= |names|
    requires forall i :: 0 <= i < |names| ==> IsName(names[i])
    requires forall i, j :: 0 <= i < j < |names| ==> names[i] != names[j]
    requires forall i :: index <= i < |names| ==> names[i] !in seen
    ensures ParseFrom(LinesOf(names, values), index, seen) == Ok(Written(names, values)[index..])
    decreases |names| - index
  {
    hide Strip, Assignment, Value, Line, IsName;
    if index < |names| {
      var lines, number := LinesOf(names, values), index + 1;
      LineRead(names[index], values[index], number, seen);
      QuotedValueRead(values[index], lines, number, number);
      LinesRead(names, values, number, seen[names[index] := number]);
      assert Written(names, values)[index..] == [Entry(names[index], values[index], number)] + Written(names, values)[number..];
    }
  }

  // A file written from distinct proper names parses back to exactly what was written if,
  // and only if, each value could be: no other line boundary than newline and return.
  lemma WrittenThenRead(names: seq<string>, values: seq<string>)
    requires |names| == |values|
    requires forall i :: 0 <= i < |names| ==> IsName(names[i])
    requires forall i, j :: 0 <= i < j < |names| ==> names[i] != names[j]
    ensures Parse(Join(LinesOf(names, values))) == Ok(Written(names, values))
      <==> forall i :: 0 <= i < |values| ==> Carried(values[i])
  {
    hide IsName, Carried, OneLine;
    var text := Join(LinesOf(names, values));
    if forall i :: 0 <= i < |values| ==> Carried(values[i]) {
      forall i | 0 <= i < |names| ensures OneLine(LinesOf(names, values)[i]) {
        LineIsOneLine(names[i], values[i]);
      }
      SplitInvertsJoin(LinesOf(names, values));
      LinesRead(names, values, 0, map[]);
      assert Written(names, values)[0..] == Written(names, values);
    } else {
      var i :| 0 <= i < |values| && !Carried(values[i]);
      assert Written(names, values)[i].value == values[i];
      if Parse(text).Ok? {
        SplitGivesLines(text);
        ParsedCarried(SplitLines(text), 0, map[]);
      }
    }
  }
}
