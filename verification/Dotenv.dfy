// Environment files: parsing one, and applying it, again and again, to an environment.
module Dotenv {
  import opened Wrappers
  import opened PyStr
  import Seqs

  datatype Entry = Entry(name: string, value: string, line: nat)

  datatype Cause = NoSeparator | BadName | AlreadySet(onLine: nat) | TrailingText | Unterminated

  datatype DotenvError = DotenvError(line: nat, cause: Cause)

  // -- lines -------------------------------------------------------------------

  // What `str.splitlines` splits at.
  predicate IsBoundary(c: char) {
    var v := c as int;
    10 <= v <= 13 || 28 <= v <= 30 || v == 0x85 || v == 0x2028 || v == 0x2029
  }

  function LineEnd(text: string): (n: nat)
    ensures n <= |text|
    ensures forall i :: 0 <= i < n ==> !IsBoundary(text[i])
    ensures n < |text| ==> IsBoundary(text[n])
  {
    if text == "" || IsBoundary(text[0]) then 0 else 1 + LineEnd(text[1..])
  }

  function SplitLines(text: string): (lines: seq<string>) {
    if text == "" then []
    else
      var n := LineEnd(text);
      if n == |text| then [text]
      else if text[n] == '\r' && n + 1 < |text| && text[n + 1] == '\n' then [text[..n]] + SplitLines(text[n + 2..])
      else [text[..n]] + SplitLines(text[n + 1..])
  }

  // -- values ------------------------------------------------------------------

  // Where a quoted value ends; an escaped double quote does not end it.
  function ClosingQuote(text: string, quote: char): (end: Option<nat>)
    ensures end.Some? ==> end.value < |text| && text[end.value] == quote
  {
    if text == "" then None
    else if quote == '"' && text[0] == '\\' then
      if |text| == 1 then None else Later(ClosingQuote(text[2..], quote), 2)
    else if text[0] == quote then Some(0)
    else Later(ClosingQuote(text[1..], quote), 1)
  }

  function Later(end: Option<nat>, steps: nat): (later: Option<nat>) {
    match end
    case None => None
    case Some(i) => Some(i + steps)
  }

  // An escape no one defined keeps its backslash.
  function EscapeOf(c: char): (s: string) {
    match c
    case 'n' => "\n"
    case 'r' => "\r"
    case 't' => "\t"
    case '\\' => "\\"
    case '"' => "\""
    case '\'' => "'"
    case _ => ['\\', c]
  }

  function Unescape(text: string): (s: string) {
    if text == "" then ""
    else if text[0] == '\\' && |text| > 1 then EscapeOf(text[1]) + Unescape(text[2..])
    else [text[0]] + Unescape(text[1..])
  }

  // A `#` that comes first or after a space.
  predicate CommentAt(body: string, i: int) {
    || (i == 0 && body != "" && body[0] == '#')
    || (0 <= i && i + 1 < |body| && IsSpace(body[i]) && body[i + 1] == '#')
  }

  // Where the comment of an unquoted value starts.
  function CommentStart(body: string): (i: nat)
    ensures i <= |body|
    ensures i < |body| ==> CommentAt(body, i)
    ensures forall j :: 0 <= j < i ==> !CommentAt(body, j)
  {
    if body != "" && body[0] == '#' then 0 else CommentAfterSpace(body)
  }

  function CommentAfterSpace(body: string): (i: nat)
    ensures i <= |body|
    ensures forall j :: 0 <= j < i && j + 1 < |body| ==> !(IsSpace(body[j]) && body[j + 1] == '#')
    ensures i < |body| ==> i + 1 < |body| && IsSpace(body[i]) && body[i + 1] == '#'
  {
    if |body| < 2 then |body|
    else if IsSpace(body[0]) && body[1] == '#' then 0
    else 1 + CommentAfterSpace(body[1..])
  }

  // The rest of a quoted value, `buffer` being what follows its opening quote, and how many
  // further lines it takes.
  function QuotedValue(buffer: string, quote: char, lines: seq<string>, index: nat, consumed: nat, number: nat)
    : (r: Result<(string, nat), DotenvError>)
    requires index + consumed <= |lines|
    ensures r.Ok? ==> consumed <= r.value.1 && index + r.value.1 <= |lines|
    decreases |lines| - index - consumed
  {
    match ClosingQuote(buffer, quote)
    case Some(end) =>
      var trailing := Strip(buffer[end + 1..]);
      if trailing != "" && trailing[0] != '#' then Err(DotenvError(number, TrailingText))
      else Ok((if quote == '"' then Unescape(buffer[..end]) else buffer[..end], consumed))
    case None =>
      if index + consumed >= |lines| then Err(DotenvError(number, Unterminated))
      else QuotedValue(buffer + "\n" + lines[index + consumed], quote, lines, index, consumed + 1, number)
  }

  function Value(remainder: string, lines: seq<string>, index: nat, number: nat): (r: Result<(string, nat), DotenvError>)
    requires index <= |lines|
    ensures r.Ok? ==> index + r.value.1 <= |lines|
  {
    var body := Strip(remainder);
    if body == "" || (body[0] != '"' && body[0] != '\'') then Ok((Strip(body[..CommentStart(body)]), 0))
    else QuotedValue(body[1..], body[0], lines, index, 0, number)
  }

  // -- a file ------------------------------------------------------------------

  predicate IsNameStart(c: char) {
    'A' <= c <= 'Z' || 'a' <= c <= 'z' || c == '_'
  }

  predicate IsNameChar(c: char) {
    IsNameStart(c) || '0' <= c <= '9'
  }

  predicate IsName(s: string) {
    s != "" && IsNameStart(s[0]) && forall i :: 0 <= i < |s| ==> IsNameChar(s[i])
  }

  function DropExport(s: string): (t: string) {
    if |s| > 6 && s[..6] == "export" && IsSpace(s[6]) then StripLeft(s[6..]) else s
  }

  // Where the first `=` is.
  function Separator(s: string): (i: Option<nat>)
    ensures i.Some? ==> i.value < |s| && s[i.value] == '='
  {
    if s == "" then None
    else if s[0] == '=' then Some(0)
    else Later(Separator(s[1..]), 1)
  }

  // What a line that is neither blank nor a comment assigns: the name, and what follows
  // the `=`.
  function Assignment(line: string, number: nat, seen: map<string, nat>): (r: Result<(string, string), DotenvError>)
    ensures r.Ok? ==> IsName(r.value.0) && r.value.0 !in seen
  {
    var s := DropExport(line);
    match Separator(s)
    case None => Err(DotenvError(number, NoSeparator))
    case Some(at) =>
      var name := Strip(s[..at]);
      if !IsName(name) then Err(DotenvError(number, BadName))
      else if name in seen then Err(DotenvError(number, AlreadySet(seen[name])))
      else Ok((name, s[at + 1..]))
  }

  function Prepend(entries: seq<Entry>, rest: Result<seq<Entry>, DotenvError>): (r: Result<seq<Entry>, DotenvError>) {
    match rest
    case Err(e) => Err(e)
    case Ok(more) => Ok(entries + more)
  }

  // The entries of `lines` from `index` on, `seen` being the names set before.
  function ParseFrom(lines: seq<string>, index: nat, seen: map<string, nat>): (r: Result<seq<Entry>, DotenvError>)
    requires index <= |lines|
    decreases |lines| - index
  {
    if index == |lines| then Ok([])
    else
      var number := index + 1;
      var stripped := Strip(lines[index]);
      if stripped == "" || stripped[0] == '#' then ParseFrom(lines, number, seen)
      else
        match Assignment(stripped, number, seen)
        case Err(e) => Err(e)
        case Ok((name, remainder)) =>
          match Value(remainder, lines, number, number)
          case Err(e) => Err(e)
          case Ok((value, consumed)) =>
            Prepend([Entry(name, value, number)], ParseFrom(lines, number + consumed, seen[name := number]))
  }

  function Parse(text: string): (r: Result<seq<Entry>, DotenvError>) {
    ParseFrom(SplitLines(text), 0, map[])
  }

  predicate DistinctNames(entries: seq<Entry>) {
    forall i, j :: 0 <= i < j < |entries| ==> entries[i].name != entries[j].name
  }

  // Whatever a file holds: no name is set twice, each is a proper name, and the line
  // numbers rise.
  lemma {:induction false} ParsedNames(lines: seq<string>, index: nat, seen: map<string, nat>)
    requires index <= |lines| && ParseFrom(lines, index, seen).Ok?
    ensures
      var entries := ParseFrom(lines, index, seen).value;
      && DistinctNames(entries)
      && (forall i :: 0 <= i < |entries| ==> IsName(entries[i].name) && entries[i].name !in seen)
      && (forall i :: 0 <= i < |entries| ==> index < entries[i].line <= |lines|)
      && (forall i, j :: 0 <= i < j < |entries| ==> entries[i].line < entries[j].line)
    decreases |lines| - index
  {
    hide Assignment, Value, IsName, Strip;
    if index < |lines| {
      var number := index + 1;
      var stripped := Strip(lines[index]);
      if stripped == "" || stripped[0] == '#' {
        ParsedNames(lines, number, seen);
      } else {
        var (name, remainder) := Assignment(stripped, number, seen).value;
        var (value, consumed) := Value(remainder, lines, number, number).value;
        ParsedNames(lines, number + consumed, seen[name := number]);
      }
    }
  }

  // -- the loops ---------------------------------------------------------------

  function From(text: string, position: nat): (rest: string) {
    if position <= |text| then text[position..] else ""
  }

  method FindClosingQuote(text: string, quote: char) returns (end: Option<nat>)
    ensures end == ClosingQuote(text, quote)
  {
    hide ClosingQuote;
    var position := 0;
    assert ClosingQuote("", quote) == None by {
      NothingCloses(quote);
    }
    while position < |text|
      invariant position <= |text| + 1
      invariant ClosingQuote(text, quote) == Later(ClosingQuote(From(text, position), quote), position)
    {
      ClosingQuoteAt(text, quote, position);
      var c := text[position];
      if quote == '"' && c == '\\' {
        position := position + 2;
        continue;
      }
      if c == quote {
        return Some(position);
      }
      position := position + 1;
    }
    return None;
  }

  lemma NothingCloses(quote: char)
    ensures ClosingQuote("", quote) == None
  {
  }

  lemma ClosingQuoteAt(text: string, quote: char, position: nat)
    requires position < |text|
    ensures ClosingQuote(From(text, position), quote)
         == if quote == '"' && text[position] == '\\' then Later(ClosingQuote(From(text, position + 2), quote), 2)
            else if text[position] == quote then Some(0)
            else Later(ClosingQuote(From(text, position + 1), quote), 1)
  {
    var rest := text[position..];
    assert rest[1..] == From(text, position + 1);
    assert |rest| > 1 ==> rest[2..] == From(text, position + 2);
  }

  method UnescapeText(text: string) returns (out: string)
    ensures out == Unescape(text)
  {
    out := "";
    var position := 0;
    while position < |text|
      invariant position <= |text|
      invariant out + Unescape(text[position..]) == Unescape(text)
    {
      var rest := text[position..];
      if text[position] == '\\' && position + 1 < |text| {
        assert rest[2..] == text[position + 2..];
        Seqs.Associate(out, EscapeOf(text[position + 1]), Unescape(text[position + 2..]));
        out := out + EscapeOf(text[position + 1]);
        position := position + 2;
      } else {
        assert rest[1..] == text[position + 1..];
        Seqs.Associate(out, [text[position]], Unescape(text[position + 1..]));
        out := out + [text[position]];
        position := position + 1;
      }
    }
    assert text[position..] == "";
  }

  method ReadValue(remainder: string, lines: seq<string>, index: nat, number: nat)
    returns (r: Result<(string, nat), DotenvError>)
    requires index <= |lines|
    ensures r == Value(remainder, lines, index, number)
  {
    hide Strip, ClosingQuote, Unescape, CommentStart;
    var body := Strip(remainder);
    if body == "" || (body[0] != '"' && body[0] != '\'') {
      return Ok((Strip(body[..CommentStart(body)]), 0));
    }
    var quote, buffer, consumed := body[0], body[1..], 0;
    while true
      invariant index + consumed <= |lines|
      invariant QuotedValue(buffer, quote, lines, index, consumed, number) == Value(remainder, lines, index, number)
      decreases |lines| - index - consumed
    {
      var end := FindClosingQuote(buffer, quote);
      if end != None {
        var trailing := Strip(buffer[end.value + 1..]);
        if trailing != "" && trailing[0] != '#' {
          return Err(DotenvError(number, TrailingText));
        }
        var raw := buffer[..end.value];
        if quote == '"' {
          raw := UnescapeText(raw);
        }
        return Ok((raw, consumed));
      }
      if index + consumed >= |lines| {
        return Err(DotenvError(number, Unterminated));
      }
      buffer := buffer + "\n" + lines[index + consumed];
      consumed := consumed + 1;
    }
  }

  method ParseDotenv(text: string) returns (r: Result<seq<Entry>, DotenvError>)
    ensures r == Parse(text)
    ensures r.Ok? ==> DistinctNames(r.value)
  {
    hide Strip, Value, Assignment, DistinctNames;
    var lines := SplitLines(text);
    var entries: seq<Entry> := [];
    var seen: map<string, nat> := map[];
    var index := 0;
    PrependNothing(ParseFrom(lines, 0, map[]));
    while index < |lines|
      invariant index <= |lines|
      invariant Parse(text) == Prepend(entries, ParseFrom(lines, index, seen))
      decreases |lines| - index
    {
      var number := index + 1;
      var stripped := Strip(lines[index]);
      index := index + 1;
      if stripped == "" || stripped[0] == '#' {
        continue;
      }
      var assignment := Assignment(stripped, number, seen);
      if assignment.Err? {
        return Err(assignment.error);
      }
      var (name, remainder) := assignment.value;
      seen := seen[name := number];
      var read := ReadValue(remainder, lines, index, number);
      if read.Err? {
        return Err(read.error);
      }
      var (value, consumed) := read.value;
      index := index + consumed;
      PrependTwice(entries, [Entry(name, value, number)], ParseFrom(lines, index, seen));
      entries := entries + [Entry(name, value, number)];
    }
    assert entries + [] == entries;
    if Parse(text).Ok? {
      ParsedNames(lines, 0, map[]);
    }
    return Ok(entries);
  }

  lemma PrependTwice(a: seq<Entry>, b: seq<Entry>, rest: Result<seq<Entry>, DotenvError>)
    ensures Prepend(a, Prepend(b, rest)) == Prepend(a + b, rest)
  {
    if rest.Ok? {
      Seqs.Associate(a, b, rest.value);
    }
  }

  lemma PrependNothing(rest: Result<seq<Entry>, DotenvError>)
    ensures Prepend([], rest) == rest
  {
    if rest.Ok? {
      assert [] + rest.value == rest.value;
    }
  }

  // -- applying a file ---------------------------------------------------------

  type Vars = map<string, string>

  datatype Applied = Applied(vars: Vars, applied: seq<string>, shadowed: seq<string>)

  // Sets the entries in turn, leaving alone the names that are taken.
  function SetEntries(vars: Vars, entries: seq<Entry>): (r: Applied) {
    if entries == [] then Applied(vars, [], [])
    else
      var before, e := SetEntries(vars, entries[..|entries| - 1]), entries[|entries| - 1];
      if e.name in before.vars then before.(shadowed := before.shadowed + [e.name])
      else Applied(before.vars[e.name := e.value], before.applied + [e.name], before.shadowed)
  }

  function NamesIn(names: seq<string>): (s: set<string>) {
    set n | n in names
  }

  // What was set by the last load goes first.
  function Apply(vars: Vars, entries: seq<Entry>, owned: seq<string>): (r: Applied) {
    SetEntries(vars - NamesIn(owned), entries)
  }

  // Taking back the names a load applied restores the environment it found.
  lemma {:induction false} TakenBack(vars: Vars, entries: seq<Entry>)
    ensures
      var r := SetEntries(vars, entries);
      && r.vars - NamesIn(r.applied) == vars
      && r.vars.Keys == vars.Keys + NamesIn(r.applied)
      && NamesIn(r.applied) !! vars.Keys
  {
    if entries != [] {
      var e := entries[|entries| - 1];
      var before := SetEntries(vars, entries[..|entries| - 1]);
      TakenBack(vars, entries[..|entries| - 1]);
      OneMore(before.applied, e.name);
    }
  }

  lemma OneMore(names: seq<string>, name: string)
    ensures NamesIn(names + [name]) == NamesIn(names) + {name}
  {
  }

  // Loading one file after another, each load given what the one before had applied.
  function Reloaded(vars: Vars, files: seq<seq<Entry>>): (r: Applied) {
    if files == [] then Applied(vars, [], [])
    else
      var before := Reloaded(vars, files[..|files| - 1]);
      Apply(before.vars, files[|files| - 1], before.applied)
  }

  // However many files were loaded before, the environment, and what counts as applied and
  // as shadowed, are as if the last one had been loaded first: an edited value is picked
  // up, and a deleted line is noticed.
  lemma {:induction false} ReloadForgetsHistory(vars: Vars, files: seq<seq<Entry>>)
    requires files != []
    ensures Reloaded(vars, files) == SetEntries(vars, files[|files| - 1])
  {
    var n := |files| - 1;
    var before := Reloaded(vars, files[..n]);
    if n > 0 {
      ReloadForgetsHistory(vars, files[..n]);
      TakenBack(vars, files[n - 1]);
    } else {
      assert files[..0] == [];
      assert vars - NamesIn([]) == vars;
    }
  }

  function NamesOf(entries: seq<Entry>): (names: set<string>) {
    set e | e in entries :: e.name
  }

  lemma NamesOfInit(entries: seq<Entry>)
    requires entries != []
    ensures NamesOf(entries) == NamesOf(entries[..|entries| - 1]) + {entries[|entries| - 1].name}
    ensures DistinctNames(entries) ==> entries[|entries| - 1].name !in NamesOf(entries[..|entries| - 1])
  {
    var n := |entries| - 1;
    assert entries == entries[..n] + [entries[n]];
    if DistinctNames(entries) {
      forall e | e in entries[..n] ensures e.name != entries[n].name {
        var i :| 0 <= i < n && entries[..n][i] == e;
        assert entries[i] == e;
      }
    }
  }

  // And loading one file gives every name the environment lacked the value the file gives
  // it, leaves every other name as it was, and reports which is which.
  lemma {:induction false} LoadedNames(vars: Vars, entries: seq<Entry>)
    requires DistinctNames(entries)
    ensures
      var r := SetEntries(vars, entries);
      && r.vars.Keys == vars.Keys + NamesOf(entries)
      && (forall n :: n in vars ==> r.vars[n] == vars[n])
      && NamesIn(r.applied) == NamesOf(entries) - vars.Keys
      && NamesIn(r.shadowed) == NamesOf(entries) * vars.Keys
  {
    hide DistinctNames;
    if entries != [] {
      var n := |entries| - 1;
      var before := SetEntries(vars, entries[..n]);
      DistinctInit(entries);
      NamesOfInit(entries);
      LoadedNames(vars, entries[..n]);
      hide NamesOf, NamesIn;
      OneMore(before.applied, entries[n].name);
      OneMore(before.shadowed, entries[n].name);
    }
  }

  lemma DistinctInit(entries: seq<Entry>)
    requires DistinctNames(entries) && entries != []
    ensures DistinctNames(entries[..|entries| - 1])
  {
  }

  lemma {:induction false} LoadedValue(vars: Vars, entries: seq<Entry>, i: nat)
    requires DistinctNames(entries) && i < |entries| && entries[i].name !in vars
    ensures entries[i].name in SetEntries(vars, entries).vars
    ensures SetEntries(vars, entries).vars[entries[i].name] == entries[i].value
  {
    var n := |entries| - 1;
    NamesOfInit(entries);
    LoadedNames(vars, entries[..n]);
    if i < n {
      LoadedValue(vars, entries[..n], i);
      assert entries[..n][i] == entries[i];
    }
  }

  // The process environment, changed in place.
  class Environment {
    var vars: Vars

    constructor (vars: Vars)
      ensures this.vars == vars
    {
      this.vars := vars;
    }

    method ApplyDotenv(entries: seq<Entry>, owned: seq<string>) returns (applied: seq<string>, shadowed: seq<string>)
      modifies this
      ensures Applied(vars, applied, shadowed) == Apply(old(vars), entries, owned)
    {
      for i := 0 to |owned|
        invariant vars == old(vars) - NamesIn(owned[..i])
      {
        assert owned[..i + 1] == owned[..i] + [owned[i]];
        OneMore(owned[..i], owned[i]);
        vars := vars - {owned[i]};
      }
      assert owned[..|owned|] == owned;
      ghost var cleared := vars;
      applied, shadowed := [], [];
      for i := 0 to |entries|
        invariant Applied(vars, applied, shadowed) == SetEntries(cleared, entries[..i])
      {
        assert entries[..i + 1][..i] == entries[..i];
        if entries[i].name in vars {
          shadowed := shadowed + [entries[i].name];
          continue;
        }
        vars := vars[entries[i].name := entries[i].value];
        applied := applied + [entries[i].name];
      }
      assert entries[..|entries|] == entries;
    }
  }
}
