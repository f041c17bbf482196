// Byte-limited truncation and splitting of text, never inside a code point.
module TextSplit {
  import opened Bytes
  import opened Wrappers
  import opened Utf8
  import Seqs

  // How many leading code points of `s` encode to at most `maxBytes` bytes.
  function Fit(s: string, maxBytes: int): (n: nat)
    ensures n <= |s|
  {
    if s == "" || |EncodeChar(s[0])| > maxBytes then 0
    else 1 + Fit(s[1..], maxBytes - |EncodeChar(s[0])|)
  }

  // What a byte-limited field keeps of `s`.
  function Truncated(s: string, maxBytes: int): (b: seq<Byte>) {
    Encode(s[..Fit(s, maxBytes)])
  }

  // `Fit` is the longest prefix within the limit: it fits, and no longer one does.
  lemma {:induction false} FitIsLongest(s: string, maxBytes: int, n: nat)
    requires n <= |s|
    ensures n <= Fit(s, maxBytes) && 0 <= maxBytes ==> |Encode(s[..n])| <= maxBytes
    ensures |Encode(s[..n])| <= maxBytes ==> n <= Fit(s, maxBytes)
  {
    if n > 0 {
      assert s[..n][1..] == s[1..][..n - 1];
      FitIsLongest(s[1..], maxBytes - |EncodeChar(s[0])|, n - 1);
    }
  }

  lemma TruncatedLength(s: string, maxBytes: int)
    ensures |Truncated(s, maxBytes)| <= if maxBytes < 0 then 0 else maxBytes
    ensures |Encode(s)| <= maxBytes ==> Truncated(s, maxBytes) == Encode(s)
  {
    FitIsLongest(s, maxBytes, Fit(s, maxBytes));
    FitIsLongest(s, maxBytes, |s|);
    assert s[..|s|] == s;
  }

  lemma ContinuationsOf(kept: seq<Byte>, middle: seq<Byte>, tail: seq<Byte>)
    requires middle != [] && !IsContinuation(middle[0])
    requires forall i :: 1 <= i < |middle| ==> IsContinuation(middle[i])
    ensures
      var all := kept + middle + tail;
      && all[..|kept|] == kept
      && !IsContinuation(all[|kept|])
      && forall i :: |kept| < i < |kept| + |middle| ==> IsContinuation(all[i])
  {
    var all := kept + middle + tail;
    forall i | |kept| < i < |kept| + |middle| ensures IsContinuation(all[i]) {
      assert all[i] == middle[i - |kept|];
    }
  }

  // A code point that does not fit straddles the limit, so its first byte is where
  // walking back over continuation bytes stops.
  lemma CutLandsOnBoundary(s: string, maxBytes: int)
    requires 0 < maxBytes < |Encode(s)|
    ensures
      var kept, all := Truncated(s, maxBytes), Encode(s);
      && |kept| <= maxBytes
      && kept == all[..|kept|]
      && !IsContinuation(all[|kept|])
      && forall i :: |kept| < i <= maxBytes ==> IsContinuation(all[i])
  {
    var n := Fit(s, maxBytes);
    TruncatedLength(s, maxBytes);
    assert s[..|s|] == s;
    FitIsLongest(s, maxBytes, n + 1);
    EncodeAt(s, n);
    var middle := EncodeChar(s[n]);
    ContinuationsOf(Truncated(s, maxBytes), middle, Encode(s[n + 1..]));
  }

  // Truncates the encoding of `text` to whole code points.
  method Utf8Truncate(text: string, maxBytes: int) returns (kept: seq<Byte>)
    ensures kept == Truncated(text, maxBytes)
    ensures |kept| <= maxBytes || kept == []
  {
    TruncatedLength(text, maxBytes);
    if maxBytes <= 0 {
      return [];
    }
    var encoded := Encode(text);
    if |encoded| <= maxBytes {
      return encoded;
    }
    CutLandsOnBoundary(text, maxBytes);
    ghost var boundary := |Truncated(text, maxBytes)|;
    var cut := maxBytes;
    while cut > 0 && IsContinuation(encoded[cut])
      invariant boundary <= cut <= maxBytes
    {
      cut := cut - 1;
    }
    return encoded[..cut];
  }

  // `str.rfind(" ")`
  function LastSpace(s: string): (i: int)
    ensures -1 <= i < |s|
    ensures 0 <= i ==> s[i] == ' '
    ensures forall j :: i < j < |s| ==> s[j] != ' '
  {
    if s == "" then -1
    else if s[|s| - 1] == ' ' then |s| - 1
    else LastSpace(s[..|s| - 1])
  }

  // How many spaces `str.lstrip(" ")` removes.
  function LeadingSpaces(s: string): (n: nat)
    ensures n <= |s|
    ensures forall i :: 0 <= i < n ==> s[i] == ' '
    ensures n < |s| ==> s[n] != ' '
  {
    if s == "" || s[0] != ' ' then 0 else 1 + LeadingSpaces(s[1..])
  }

  // How many code points the next chunk of `s` takes: the longest fitting prefix,
  // cut back to its last space when that leaves it at least half full.
  function ChunkLength(s: string, maxBytes: int): (n: nat)
    ensures n <= Fit(s, maxBytes)
    ensures 0 < Fit(s, maxBytes) ==> 0 < n
  {
    var fit := Fit(s, maxBytes);
    if fit < |s| then
      var splitAt := LastSpace(s[..fit]);
      if splitAt > 0 && splitAt >= fit / 2 then splitAt else fit
    else
      fit
  }

  function AfterChunk(s: string, maxBytes: int): (rest: string) {
    var tail := s[ChunkLength(s, maxBytes)..];
    tail[LeadingSpaces(tail)..]
  }

  // The chunks of `s`, or None when some code point cannot be emitted.
  function Split(s: string, maxBytes: int): (chunks: Option<seq<string>>)
    decreases |s|
  {
    if s == "" then Some([])
    else if Fit(s, maxBytes) == 0 then None
    else
      match Split(AfterChunk(s, maxBytes), maxBytes)
      case None => None
      case Some(rest) => Some([s[..ChunkLength(s, maxBytes)]] + rest)
  }

  function EncodeAll(chunks: seq<string>): (encoded: seq<seq<Byte>>)
    ensures |encoded| == |chunks|
    ensures forall i :: 0 <= i < |chunks| ==> encoded[i] == Encode(chunks[i])
  {
    seq(|chunks|, i requires 0 <= i < |chunks| => Encode(chunks[i]))
  }

  // After emitting `done`, splitting `remaining` is all that is left of splitting `text`.
  ghost predicate SplitSoFar(text: string, maxBytes: int, done: seq<string>, remaining: string) {
    match Split(remaining, maxBytes)
    case Some(rest) => Split(text, maxBytes) == Some(done + rest)
    case None => Split(text, maxBytes) == None
  }

  lemma SplitStart(text: string, maxBytes: int)
    ensures SplitSoFar(text, maxBytes, [], text)
  {
    match Split(text, maxBytes) {
      case Some(rest) => assert [] + rest == rest;
      case None =>
    }
  }

  lemma CandidateDecodes(s: string, maxBytes: int)
    ensures Decode(Truncated(s, maxBytes)) == Some(s[..Fit(s, maxBytes)])
    ensures Truncated(s, maxBytes) == [] <==> Fit(s, maxBytes) == 0
  {
    DecodeInvertsEncode(s[..Fit(s, maxBytes)]);
  }

  lemma EncodeAllAppend(done: seq<string>, chunk: string)
    ensures EncodeAll(done + [chunk]) == EncodeAll(done) + [Encode(chunk)]
  {
  }

  lemma SplitStep(text: string, maxBytes: int, done: seq<string>, remaining: string)
    requires SplitSoFar(text, maxBytes, done, remaining) && Fit(remaining, maxBytes) > 0
    ensures
      var chunk := remaining[..ChunkLength(remaining, maxBytes)];
      && SplitSoFar(text, maxBytes, done + [chunk], AfterChunk(remaining, maxBytes))
      && EncodeAll(done) + [Encode(chunk)] == EncodeAll(done + [chunk])
  {
    hide Fit, ChunkLength, Encode;
    var chunk := remaining[..ChunkLength(remaining, maxBytes)];
    EncodeAllAppend(done, chunk);
    match Split(AfterChunk(remaining, maxBytes), maxBytes) {
      case Some(rest) => Seqs.Associate(done, [chunk], rest);
      case None =>
    }
  }

  datatype SplitError = NotPositive | TooSmall

  method Utf8Split(text: string, maxBytes: int) returns (r: Result<seq<seq<Byte>>, SplitError>)
    ensures maxBytes <= 0 ==> r == Err(NotPositive)
    ensures 0 < maxBytes ==>
      match Split(text, maxBytes)
      case Some(chunks) => r == Ok(EncodeAll(chunks))
      case None => r == Err(TooSmall)
  {
    if maxBytes <= 0 {
      return Err(NotPositive);
    }
    if text == "" {
      return Ok([]);
    }
    var chunks: seq<seq<Byte>> := [];
    ghost var done: seq<string> := [];
    SplitStart(text, maxBytes);
    var remaining := text;
    while remaining != ""
      invariant chunks == EncodeAll(done)
      invariant SplitSoFar(text, maxBytes, done, remaining)
      decreases |remaining|
    {
      var candidate := Utf8Truncate(remaining, maxBytes);
      CandidateDecodes(remaining, maxBytes);
      if candidate == [] {
        return Err(TooSmall);
      }
      var consumed := Decode(candidate).value;
      if |consumed| < |remaining| {
        var splitAt := LastSpace(consumed);
        if splitAt > 0 && splitAt >= |consumed| / 2 {
          consumed := consumed[..splitAt];
        }
      }
      assert consumed == remaining[..ChunkLength(remaining, maxBytes)];
      SplitStep(text, maxBytes, done, remaining);
      chunks := chunks + [Encode(consumed)];
      done := done + [consumed];
      var tail := remaining[|consumed|..];
      remaining := tail[LeadingSpaces(tail)..];
    }
    assert done + [] == done;
    return Ok(chunks);
  }

  // -- what the chunks are ---------------------------------------------------

  function Spaces(n: nat): (s: string)
    ensures |s| == n && forall i :: 0 <= i < n ==> s[i] == ' '
  {
    seq(n, _ => ' ')
  }

  // The chunks put back together, with `gaps[i]` spaces after chunk i.
  function Rejoin(chunks: seq<string>, gaps: seq<nat>): (s: string)
    requires |chunks| == |gaps|
  {
    if chunks == [] then "" else chunks[0] + Spaces(gaps[0]) + Rejoin(chunks[1..], gaps[1..])
  }

  lemma RejoinCons(chunk: string, more: seq<string>, gap: nat, gaps: seq<nat>)
    requires |more| == |gaps|
    ensures Rejoin([chunk] + more, [gap] + gaps) == chunk + Spaces(gap) + Rejoin(more, gaps)
  {
    assert ([chunk] + more)[1..] == more && ([gap] + gaps)[1..] == gaps;
  }

  lemma DropSpaces(s: string, n: nat, gap: nat)
    requires n + gap <= |s| && forall i :: n <= i < n + gap ==> s[i] == ' '
    ensures s == s[..n] + Spaces(gap) + s[n..][gap..]
  {
  }

  predicate FullBefore(chunk: string, next: string, maxBytes: int) {
    next != "" ==> |Encode(chunk)| + |EncodeChar(next[0])| > maxBytes
  }

  lemma HardCut(s: string, maxBytes: int)
    requires 0 < Fit(s, maxBytes)
    requires ChunkLength(s, maxBytes) < |s| && LeadingSpaces(s[ChunkLength(s, maxBytes)..]) == 0
    ensures FullBefore(s[..ChunkLength(s, maxBytes)], AfterChunk(s, maxBytes), maxBytes)
  {
    var n := ChunkLength(s, maxBytes);
    assert s[n..][0] == s[n];
    FitIsLongest(s, maxBytes, n + 1);
    EncodeAt(s, n);
  }

  // How many spaces are dropped after each chunk of `s`.
  function Gaps(s: string, maxBytes: int): (gaps: seq<nat>)
    ensures Split(s, maxBytes).Some? ==> |gaps| == |Split(s, maxBytes).value|
    decreases |s|
  {
    if s == "" || Fit(s, maxBytes) == 0 then []
    else [LeadingSpaces(s[ChunkLength(s, maxBytes)..])] + Gaps(AfterChunk(s, maxBytes), maxBytes)
  }

  // Only spaces at the cuts are lost.
  lemma {:induction false} SplitKeepsText(s: string, maxBytes: int)
    requires Split(s, maxBytes).Some?
    ensures Rejoin(Split(s, maxBytes).value, Gaps(s, maxBytes)) == s
    decreases |s|
  {
    if s != "" {
      var n := ChunkLength(s, maxBytes);
      var tail, rest := s[n..], AfterChunk(s, maxBytes);
      var gap := LeadingSpaces(tail);
      var more, gaps := Split(rest, maxBytes).value, Gaps(rest, maxBytes);
      SplitKeepsText(rest, maxBytes);
      RejoinCons(s[..n], more, gap, gaps);
      DropSpaces(s, n, gap);
    }
  }

  ghost predicate CutsWell(chunks: seq<string>, gaps: seq<nat>, maxBytes: int) {
    && |gaps| == |chunks|
    && (forall i :: 0 <= i < |chunks| ==> chunks[i] != "" && |Encode(chunks[i])| <= maxBytes)
    && (forall i :: 1 <= i < |chunks| ==> chunks[i][0] != ' ')
    && (forall i :: 0 <= i < |chunks| - 1 && gaps[i] == 0 ==> FullBefore(chunks[i], chunks[i + 1], maxBytes))
  }

  lemma PrependChunk(chunk: string, more: seq<string>, gap: nat, gaps: seq<nat>, maxBytes: int)
    requires chunk != "" && |Encode(chunk)| <= maxBytes
    requires CutsWell(more, gaps, maxBytes)
    requires more != [] ==> more[0][0] != ' ' && (gap == 0 ==> FullBefore(chunk, more[0], maxBytes))
    ensures CutsWell([chunk] + more, [gap] + gaps, maxBytes)
  {
    hide FullBefore, Encode;
  }

  // Every chunk is non-empty and within the limit, no chunk after the first starts with a
  // space, and a cut that drops no space is made only where nothing more would have fitted.
  lemma {:induction false} SplitCutsWell(s: string, maxBytes: int)
    requires Split(s, maxBytes).Some?
    ensures CutsWell(Split(s, maxBytes).value, Gaps(s, maxBytes), maxBytes)
    decreases |s|
  {
    if s != "" {
      var n := ChunkLength(s, maxBytes);
      var rest := AfterChunk(s, maxBytes);
      FitIsLongest(s, maxBytes, n);
      SplitCutsWell(rest, maxBytes);
      if rest != "" && LeadingSpaces(s[n..]) == 0 {
        HardCut(s, maxBytes);
      }
      assert rest != "" ==> rest[0] != ' ' && Split(rest, maxBytes).value[0] == rest[..ChunkLength(rest, maxBytes)];
      PrependChunk(s[..n], Split(rest, maxBytes).value, LeadingSpaces(s[n..]), Gaps(rest, maxBytes), maxBytes);
    }
  }

  // The prefix of `fit` code points is the longest within the limit.
  predicate FitsLongest(s: string, maxBytes: int, fit: nat)
    requires fit <= |s|
  {
    |Encode(s[..fit])| <= maxBytes && (fit < |s| ==> |Encode(s[..fit + 1])| > maxBytes)
  }

  // A space before `fit` that leaves a chunk at least half full.
  predicate GoodBreak(s: string, fit: nat, k: int)
    requires fit <= |s|
  {
    0 < k < fit && k >= fit / 2 && s[k] == ' '
  }

  // Where a chunk ends: at the end of the text if all of it fits; else at the last space of
  // what fits, if that leaves the chunk half full; else where nothing more fits.
  ghost predicate EndsWell(s: string, fit: nat, n: nat)
    requires n <= fit <= |s|
  {
    if fit == |s| then n == fit
    else if exists k :: GoodBreak(s, fit, k) then GoodBreak(s, fit, n) && forall k :: GoodBreak(s, fit, k) ==> k <= n
    else n == fit
  }

  // Every chunk ends there, and the spaces after it, and only spaces, are skipped.
  lemma ChunkEndsWell(s: string, maxBytes: int) returns (n: nat, fit: nat, gap: nat)
    requires s != "" && 0 < maxBytes && Split(s, maxBytes).Some?
    ensures 0 < n <= fit <= |s| && FitsLongest(s, maxBytes, fit) && EndsWell(s, fit, n)
    ensures n + gap <= |s| && (forall k :: n <= k < n + gap ==> s[k] == ' ') && (n + gap < |s| ==> s[n + gap] != ' ')
    ensures Split(s[n + gap..], maxBytes).Some?
    ensures Split(s, maxBytes).value == [s[..n]] + Split(s[n + gap..], maxBytes).value
  {
    hide Encode, Fit, ChunkLength, LeadingSpaces, EndsWell, FitsLongest;
    fit, n := Fit(s, maxBytes), ChunkLength(s, maxBytes);
    LongestIs(s, maxBytes);
    EndIs(s, maxBytes);
    gap := LeadingSpaces(s[n..]);
    Seqs.DropTwice(s, n, gap);
    forall k | n <= k < n + gap ensures s[k] == ' ' {
      assert s[n..][k - n] == s[k];
    }
    assert n + gap < |s| ==> s[n..][gap] == s[n + gap];
  }

  lemma LongestIs(s: string, maxBytes: int)
    requires 0 < maxBytes
    ensures FitsLongest(s, maxBytes, Fit(s, maxBytes))
  {
    hide Encode;
    var fit := Fit(s, maxBytes);
    FitIsLongest(s, maxBytes, fit);
    if fit < |s| {
      FitIsLongest(s, maxBytes, fit + 1);
    }
  }

  lemma EndIs(s: string, maxBytes: int)
    ensures EndsWell(s, Fit(s, maxBytes), ChunkLength(s, maxBytes))
  {
    hide Fit;
    var fit := Fit(s, maxBytes);
    LastSpaceBefore(s, fit);
    if fit < |s| {
      var splitAt := LastSpace(s[..fit]);
      assert forall k :: GoodBreak(s, fit, k) ==> k <= splitAt;
      assert GoodBreak(s, fit, splitAt) <==> splitAt > 0 && splitAt >= fit / 2;
    }
  }

  lemma LastSpaceBefore(s: string, fit: nat)
    requires fit <= |s|
    ensures
      var k := LastSpace(s[..fit]);
      && -1 <= k < fit && (k >= 0 ==> s[k] == ' ') && forall j :: k < j < fit ==> s[j] != ' '
  {
    assert forall j :: 0 <= j < fit ==> s[..fit][j] == s[j];
  }

  lemma DroppedCanBeEmitted(s: string, maxBytes: int)
    requires 0 < maxBytes
    ensures
      var n := ChunkLength(s, maxBytes);
      forall i :: 0 <= i < n + LeadingSpaces(s[n..]) ==> |EncodeChar(s[i])| <= maxBytes
  {
    var n := ChunkLength(s, maxBytes);
    var tail := s[n..];
    forall i | 0 <= i < n + LeadingSpaces(tail) ensures |EncodeChar(s[i])| <= maxBytes {
      if i < n {
        FitIsLongest(s, maxBytes, i + 1);
        EncodeAt(s, i);
      } else {
        assert tail[i - n] == ' ';
      }
    }
  }

  // Splitting fails exactly when the text holds a code point longer than the limit,
  // so never from four bytes up.
  lemma {:induction false} SplitFailsExactly(s: string, maxBytes: int)
    requires 0 < maxBytes
    ensures Split(s, maxBytes) == None <==> exists i :: 0 <= i < |s| && |EncodeChar(s[i])| > maxBytes
    decreases |s|
  {
    if s != "" {
      if Fit(s, maxBytes) > 0 {
        var n := ChunkLength(s, maxBytes);
        var dropped := n + LeadingSpaces(s[n..]);
        Seqs.DropTwice(s, n, dropped - n);
        SplitFailsExactly(s[dropped..], maxBytes);
        DroppedCanBeEmitted(s, maxBytes);
        if i :| dropped <= i < |s| && |EncodeChar(s[i])| > maxBytes {
          assert s[dropped..][i - dropped] == s[i];
        }
      } else {
        assert |EncodeChar(s[0])| > maxBytes;
      }
    }
  }
}
