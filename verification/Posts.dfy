// Post text: what is stored of an inbound message, and the plaintext pushed to clients.
module Posts {
  import opened Bytes
  import opened Wrappers
  import opened Crypto
  import opened Packet
  import opened TextSplit
  import PyStr
  import Utf8

  const MAX_RAW_TX_PACKET := 174
  const MAX_POST_TEXT_LEN := 151
  const PUSH_OVERHEAD := TEXT_PREFIX_LEN + SIGNED_AUTHOR_PREFIX_LEN

  // Largest plaintext a datagram can carry over a path of `pathBytes` bytes.
  function MaxPlaintextLen(pathBytes: nat): (n: nat)
    ensures n % CIPHER_BLOCK_SIZE == 0
  {
    var budget := MAX_RAW_TX_PACKET - 2 - pathBytes - DATAGRAM_HEADER_LEN - CIPHER_MAC_SIZE;
    if budget < CIPHER_BLOCK_SIZE then 0 else budget / CIPHER_BLOCK_SIZE * CIPHER_BLOCK_SIZE
  }

  // The stored form of an inbound text: its longest prefix of at most 151 bytes.
  function PostText(decoded: string): (text: string)
    ensures text <= decoded
    ensures |Utf8.Encode(text)| <= MAX_POST_TEXT_LEN
  {
    FitIsLongest(decoded, MAX_POST_TEXT_LEN, Fit(decoded, MAX_POST_TEXT_LEN));
    decoded[..Fit(decoded, MAX_POST_TEXT_LEN)]
  }

  // It is what decoding the truncated encoding gives.
  lemma PostTextDecodes(decoded: string)
    ensures Utf8.Decode(Truncated(decoded, MAX_POST_TEXT_LEN)) == Some(PostText(decoded))
  {
    CandidateDecodes(decoded, MAX_POST_TEXT_LEN);
  }

  function PushTextBudget(pathBytes: nat): (n: nat)
    ensures n <= MAX_POST_TEXT_LEN
  {
    var room := MaxPlaintextLen(pathBytes) - PUSH_OVERHEAD;
    var positive := if room < 0 then 0 else room;
    if positive < MAX_POST_TEXT_LEN then positive else MAX_POST_TEXT_LEN
  }

  // The plaintext of a pushed post, or None where packing the timestamp into four bytes
  // would fail.
  function BuildPush(postTs: int, author: Key, text: string, attempt: int, pathBytes: nat): (plaintext: Option<seq<Byte>>) {
    if 0 <= postTs < U32_LIMIT then
      var flags := SignedPlain.Code() * 4 + attempt % 4;
      Some(U32(postTs) + [flags] + author[..SIGNED_AUTHOR_PREFIX_LEN] + Truncated(text, PushTextBudget(pathBytes)))
    else
      None
  }

  // The message a client should read out of that plaintext.
  function PushMessage(postTs: int, author: Key, text: string, attempt: int, pathBytes: nat): (m: TextMessage)
    ensures m.txtType.SignedPlain? && m.timestamp == postTs
    ensures 0 <= postTs < U32_LIMIT ==> m.Valid()
  {
    TextMessage(postTs, SignedPlain, attempt % 4,
                author[..SIGNED_AUTHOR_PREFIX_LEN] + Truncated(text, PushTextBudget(pathBytes)))
  }

  // The push opened, trimmed and re-encoded by the client is byte for byte what was
  // sent, for any author key -- zero bytes in its prefix included.
  lemma ClientReadsPush(postTs: int, author: Key, text: string, attempt: int, pathBytes: nat, padding: nat)
    requires 0 <= postTs < U32_LIMIT && '\0' !in text
    ensures
      var plaintext := BuildPush(postTs, author, text, attempt, pathBytes).value;
      var m := PushMessage(postTs, author, text, attempt, pathBytes);
      && DecodeText(plaintext + Zeros(padding)) == Ok(m)
      && m.Encode() == plaintext
      && m.text[..SIGNED_AUTHOR_PREFIX_LEN] == author[..SIGNED_AUTHOR_PREFIX_LEN]
      && m.Body() == Truncated(text, PushTextBudget(pathBytes))
  {
    var plaintext := BuildPush(postTs, author, text, attempt, pathBytes).value;
    var m := PushMessage(postTs, author, text, attempt, pathBytes);
    var kept := Truncated(text, PushTextBudget(pathBytes));
    Utf8.EncodeKeepsNul(text[..Fit(text, PushTextBudget(pathBytes))]);
    assert m.text[SIGNED_AUTHOR_PREFIX_LEN..] == kept;
    assert m.Encode() == plaintext;
    SignedTextSurvivesPadding(m, padding);
  }

  // And only then: from a push whose text holds a NUL the client reads a shorter message,
  // whose encoding is not what the room hashed.
  lemma ReadBackExactly(postTs: int, author: Key, text: string, attempt: int, pathBytes: nat, padding: nat)
    requires 0 <= postTs < U32_LIMIT
    ensures
      var plaintext := BuildPush(postTs, author, text, attempt, pathBytes).value;
      var kept := text[..Fit(text, PushTextBudget(pathBytes))];
      && DecodeText(plaintext + Zeros(padding)).Ok?
      && (DecodeText(plaintext + Zeros(padding)).value.Encode() == plaintext <==> '\0' !in kept)
  {
    hide U32, ReadU32, CString, Fit;
    var m := PushMessage(postTs, author, text, attempt, pathBytes);
    var plaintext := BuildPush(postTs, author, text, attempt, pathBytes).value;
    var kept := text[..Fit(text, PushTextBudget(pathBytes))];
    Utf8.EncodeKeepsNul(kept);
    assert m.Encode() == plaintext && m.text[SIGNED_AUTHOR_PREFIX_LEN..] == Utf8.Encode(kept);
    if '\0' !in kept {
      SignedTextSurvivesPadding(m, padding);
    } else {
      NulShortensSignedText(m, padding);
    }
  }

  // A welcome message broken into chunks that fit one push over the longest path.
  function SplitWelcome(text: string): (chunks: seq<string>) {
    if PyStr.Strip(text) == "" then []
    else
      match Split(text, PushTextBudget(MAX_PATH_SIZE))
      case Some(chunks) => chunks
      case None => []
  }

  lemma ChunksNeverCutAgain(text: string, budget: int, wider: int)
    requires 4 <= budget <= wider
    ensures
      && Split(text, budget).Some?
      && Rejoin(Split(text, budget).value, Gaps(text, budget)) == text
      && forall i :: 0 <= i < |Split(text, budget).value| ==>
           var chunk := Split(text, budget).value[i];
           chunk != "" && Truncated(chunk, wider) == Utf8.Encode(chunk)
  {
    SplitFailsExactly(text, budget);
    SplitKeepsText(text, budget);
    SplitCutsWell(text, budget);
    var chunks := Split(text, budget).value;
    forall i | 0 <= i < |chunks| ensures Truncated(chunks[i], wider) == Utf8.Encode(chunks[i]) {
      TruncatedLength(chunks[i], wider);
    }
  }

  // No chunk is ever cut again on its way out, by any route of up to 64 bytes, and the
  // chunks hold the whole text but for the spaces dropped between them.
  lemma WelcomeChunksFit(text: string, pathBytes: nat)
    requires pathBytes <= MAX_PATH_SIZE && PyStr.Strip(text) != ""
    ensures
      var chunks := SplitWelcome(text);
      && Split(text, PushTextBudget(MAX_PATH_SIZE)) == Some(chunks)
      && chunks != []
      && Rejoin(chunks, Gaps(text, PushTextBudget(MAX_PATH_SIZE))) == text
      && forall i :: 0 <= i < |chunks| ==>
           chunks[i] != "" && Truncated(chunks[i], PushTextBudget(pathBytes)) == Utf8.Encode(chunks[i])
  {
    hide Rejoin, Gaps, Truncated, PushTextBudget;
    WelcomeBudget(pathBytes);
    ChunksNeverCutAgain(text, PushTextBudget(MAX_PATH_SIZE), PushTextBudget(pathBytes));
  }

  // A blank welcome is none.
  lemma BlankWelcome(text: string)
    requires forall i :: 0 <= i < |text| ==> PyStr.IsSpace(text[i])
    ensures SplitWelcome(text) == []
  {
    hide PyStr.Strip;
    PyStr.BlankStrips(text);
  }

  lemma WelcomeBudget(pathBytes: nat)
    requires pathBytes <= MAX_PATH_SIZE
    ensures PushTextBudget(MAX_PATH_SIZE) == 87 <= PushTextBudget(pathBytes)
  {
  }

  lemma PiecesNulFree(text: string, maxBytes: int)
    requires '\0' !in text
    ensures '\0' !in text[..ChunkLength(text, maxBytes)] && '\0' !in AfterChunk(text, maxBytes)
    ensures 0 < Fit(text, maxBytes) ==> |AfterChunk(text, maxBytes)| < |text|
  {
    hide Fit, ChunkLength, LeadingSpaces;
  }

  // Chunks introduce no NUL: each is a piece of the text.
  lemma {:induction false} ChunksNulFree(text: string, maxBytes: int, i: nat)
    requires '\0' !in text && Split(text, maxBytes).Some? && i < |Split(text, maxBytes).value|
    ensures '\0' !in Split(text, maxBytes).value[i]
    decreases |text|
  {
    hide Fit, ChunkLength, AfterChunk;
    PiecesNulFree(text, maxBytes);
    if i > 0 {
      ChunksNulFree(AfterChunk(text, maxBytes), maxBytes, i - 1);
    }
  }

  lemma WelcomeNulFree(text: string)
    requires '\0' !in text
    ensures forall i :: 0 <= i < |SplitWelcome(text)| ==> '\0' !in SplitWelcome(text)[i]
  {
    hide Split;
    forall i | 0 <= i < |SplitWelcome(text)| ensures '\0' !in SplitWelcome(text)[i] {
      ChunksNulFree(text, PushTextBudget(MAX_PATH_SIZE), i);
    }
  }
}
