// How large the frames handed to the companion node get. Its buffer takes raw packets of
// at most 174 bytes.
module Frames {
  import opened Bytes
  import opened Wrappers
  import opened Crypto
  import opened Packet
  import opened Posts
  import opened TextSplit
  import Utf8

  const RESPONSE_TIMESTAMP_LEN := 4
  const ACL_ENTRY_LEN := 7
  const LOGIN_RESPONSE_LEN := 13
  const SERVER_STATS_LEN := 52

  // The payload of a sealed datagram.
  function DatagramPayload(prim: Primitives, dest: Byte, src: Byte, secret: Key, plaintext: seq<Byte>): (payload: seq<Byte>) {
    [dest, src] + prim.EncryptThenMac(secret, plaintext)
  }

  function FrameFor(routeType: RouteType, payloadType: PayloadType, payload: seq<Byte>, path: seq<Byte>,
                    hashSize: int): (f: Frame) {
    Frame(routeType, payloadType, payload, path, hashSize, (0, 0), 0)
  }

  predicate Transmittable(f: Frame) {
    f.Valid() && |f.Encode()| <= MAX_RAW_TX_PACKET
  }

  // A valid return path, as learned from a PATH packet and short enough for a packet.
  predicate Sendable(path: seq<Byte>, hashSize: int) {
    && 1 <= hashSize <= MAX_PATH_HASH_SIZE
    && |path| % hashSize == 0
    && |path| <= MAX_PATH_SIZE
    && |path| / hashSize <= MAX_HOPS
  }

  lemma BlockLimit(n: nat, budget: nat)
    ensures n + Padding(n) <= budget <==> n <= budget / CIPHER_BLOCK_SIZE * CIPHER_BLOCK_SIZE
  {
    var blocks := (n + Padding(n)) / CIPHER_BLOCK_SIZE;
    assert n + Padding(n) == blocks * CIPHER_BLOCK_SIZE;
    assert blocks * CIPHER_BLOCK_SIZE - CIPHER_BLOCK_SIZE < n;
  }

  // A datagram can be transmitted exactly when its plaintext is within the limit for
  // the path.
  lemma DatagramFits(prim: Primitives, routeType: RouteType, payloadType: PayloadType, dest: Byte, src: Byte,
                     secret: Key, plaintext: seq<Byte>, path: seq<Byte>, hashSize: int)
    requires prim.Sound() && Sendable(path, hashSize)
    requires !routeType.HasTransportCodes()
    ensures Transmittable(FrameFor(routeType, payloadType, DatagramPayload(prim, dest, src, secret, plaintext), path, hashSize))
      <==> |plaintext| <= MaxPlaintextLen(|path|)
  {
    SealedLengthIs(prim, secret, plaintext);
    var budget := MAX_RAW_TX_PACKET - 2 - |path| - DATAGRAM_HEADER_LEN - CIPHER_MAC_SIZE;
    BlockLimit(|plaintext|, budget);
    assert MaxPlaintextLen(|path|) == budget / CIPHER_BLOCK_SIZE * CIPHER_BLOCK_SIZE;
  }

  lemma PushLength(postTs: int, author: Key, text: string, attempt: int, pathBytes: nat)
    requires pathBytes <= MAX_PATH_SIZE
    ensures BuildPush(postTs, author, text, attempt, pathBytes).Some? ==>
      |BuildPush(postTs, author, text, attempt, pathBytes).value| <= MaxPlaintextLen(pathBytes)
  {
    TruncatedLength(text, PushTextBudget(pathBytes));
  }

  // Every push fits, direct or flooded: a flood carries no path, so it has more room.
  lemma PushFits(prim: Primitives, dest: Byte, src: Byte, secret: Key, postTs: int, author: Key, text: string,
                 attempt: int, path: seq<Byte>, hashSize: int)
    requires prim.Sound() && Sendable(path, hashSize) && 0 <= postTs < U32_LIMIT
    ensures
      var plaintext := BuildPush(postTs, author, text, attempt, |path|).value;
      var payload := DatagramPayload(prim, dest, src, secret, plaintext);
      && Transmittable(FrameFor(Direct, TxtMsg, payload, path, hashSize))
      && Transmittable(FrameFor(Flood, TxtMsg, payload, [], 1))
  {
    var plaintext := BuildPush(postTs, author, text, attempt, |path|).value;
    PushLength(postTs, author, text, attempt, |path|);
    DatagramFits(prim, Direct, TxtMsg, dest, src, secret, plaintext, path, hashSize);
    DatagramFits(prim, Flood, TxtMsg, dest, src, secret, plaintext, [], 1);
  }

  // A push of the first `n` code points of a text.
  function PushOf(postTs: int, author: Key, text: string, attempt: int, n: nat): (plaintext: seq<Byte>)
    requires 0 <= postTs < U32_LIMIT && n <= |text|
  {
    U32(postTs) + [8 + attempt % 4] + author[..4] + Utf8.Encode(text[..n])
  }

  // A push takes as much of its text as can be sent: the first `n` code points, and with one
  // more either the text would pass the 151 bytes of a post or the datagram could not be
  // transmitted.
  lemma PushIsLongest(prim: Primitives, dest: Byte, src: Byte, secret: Key, postTs: int, author: Key, text: string,
                      attempt: int, path: seq<Byte>, hashSize: int) returns (n: nat)
    requires prim.Sound() && Sendable(path, hashSize) && 0 <= postTs < U32_LIMIT
    ensures n <= |text| && BuildPush(postTs, author, text, attempt, |path|) == Some(PushOf(postTs, author, text, attempt, n))
    ensures n < |text| ==>
      || |Utf8.Encode(text[..n + 1])| > 151
      || !Transmittable(FrameFor(Direct, TxtMsg,
                                 DatagramPayload(prim, dest, src, secret, PushOf(postTs, author, text, attempt, n + 1)),
                                 path, hashSize))
  {
    hide Utf8.Encode, U32, MaxPlaintextLen, DatagramPayload, FrameFor, Transmittable;
    var budget := PushTextBudget(|path|);
    n := Fit(text, budget);
    if n < |text| {
      FitIsLongest(text, budget, n + 1);
      DatagramFits(prim, Direct, TxtMsg, dest, src, secret, PushOf(postTs, author, text, attempt, n + 1), path, hashSize);
      SmallPlaintext(|path|);
    }
  }

  lemma SmallPlaintext(pathBytes: nat)
    requires pathBytes <= MAX_PATH_SIZE
    ensures 96 <= MaxPlaintextLen(pathBytes) <= 160
  {
  }

  // A text that the limit of a post and the path leave room for is pushed whole; so every
  // stored post is, to a client with no known path.
  lemma PushedWhole(postTs: int, author: Key, text: string, attempt: int, pathBytes: nat)
    requires 0 <= postTs < U32_LIMIT && pathBytes <= MAX_PATH_SIZE && |Utf8.Encode(text)| <= 151
    ensures 9 + |Utf8.Encode(text)| <= MaxPlaintextLen(pathBytes) || pathBytes == 0 ==>
      BuildPush(postTs, author, text, attempt, pathBytes)
        == Some(U32(postTs) + [8 + attempt % 4] + author[..4] + Utf8.Encode(text))
  {
    hide Utf8.Encode, U32;
    TruncatedLength(text, PushTextBudget(pathBytes));
  }

  // So does every console reply: its text is cut to the room the path leaves.
  lemma ConsoleReplyFits(prim: Primitives, dest: Byte, src: Byte, secret: Key, now: int, text: string,
                         path: seq<Byte>, hashSize: int)
    requires prim.Sound() && Sendable(path, hashSize) && 0 <= now < U32_LIMIT
    ensures
      var body := Truncated(text, MaxPlaintextLen(|path|) - TEXT_PREFIX_LEN);
      var payload := DatagramPayload(prim, dest, src, secret, TextMessage(now, CliData, 0, body).Encode());
      && Transmittable(FrameFor(Direct, TxtMsg, payload, path, hashSize))
      && Transmittable(FrameFor(Flood, TxtMsg, payload, [], 1))
  {
    var body := Truncated(text, MaxPlaintextLen(|path|) - TEXT_PREFIX_LEN);
    var plaintext := TextMessage(now, CliData, 0, body).Encode();
    TruncatedLength(text, MaxPlaintextLen(|path|) - TEXT_PREFIX_LEN);
    DatagramFits(prim, Direct, TxtMsg, dest, src, secret, plaintext, path, hashSize);
    DatagramFits(prim, Flood, TxtMsg, dest, src, secret, plaintext, [], 1);
  }

  // The declared members as far as one packet over the longest path can list them.
  method AccessListReply(members: seq<(Key, Byte)>) returns (reply: seq<Byte>)
    ensures |reply| == ACL_ENTRY_LEN * Listed(members)
    ensures forall i :: 0 <= i < Listed(members) ==>
      reply[ACL_ENTRY_LEN * i..ACL_ENTRY_LEN * i + ACL_ENTRY_LEN] == members[i].0[..6] + [members[i].1]
  {
    var budget := MaxPlaintextLen(MAX_PATH_SIZE) - RESPONSE_TIMESTAMP_LEN;
    var capacity := budget / ACL_ENTRY_LEN;
    reply := [];
    var count := if |members| <= capacity then |members| else capacity;
    for i := 0 to count
      invariant |reply| == ACL_ENTRY_LEN * i
      invariant forall j :: 0 <= j < i ==>
        reply[ACL_ENTRY_LEN * j..ACL_ENTRY_LEN * j + ACL_ENTRY_LEN] == members[j].0[..6] + [members[j].1]
    {
      reply := reply + members[i].0[..6] + [members[i].1];
    }
  }

  function Listed(members: seq<(Key, Byte)>): (n: nat)
    ensures n <= |members| && n <= 13
  {
    if |members| <= 13 then |members| else 13
  }

  // The three responses the room sends -- login, status, access list -- fit one direct
  // packet over any path.
  lemma DirectResponseFits(prim: Primitives, dest: Byte, src: Byte, secret: Key, payload: seq<Byte>,
                           members: seq<(Key, Byte)>, path: seq<Byte>, hashSize: int)
    requires prim.Sound() && Sendable(path, hashSize)
    requires
      || |payload| == LOGIN_RESPONSE_LEN
      || |payload| == RESPONSE_TIMESTAMP_LEN + SERVER_STATS_LEN
      || |payload| == RESPONSE_TIMESTAMP_LEN + ACL_ENTRY_LEN * Listed(members)
    ensures Transmittable(FrameFor(Direct, Response, DatagramPayload(prim, dest, src, secret, payload), path, hashSize))
  {
    DatagramFits(prim, Direct, Response, dest, src, secret, payload, path, hashSize);
  }

  // A response to a flooded request travels inside a path return, flooded back.
  function Bundle(prim: Primitives, dest: Byte, src: Byte, secret: Key, path: seq<Byte>, hashSize: int,
                  payload: seq<Byte>): (f: Frame)
    requires Sendable(path, hashSize)
  {
    var bundled := PathReturn(path, hashSize, Response.Code(), payload);
    FrameFor(Flood, Path, DatagramPayload(prim, dest, src, secret, bundled.Encode()), [], hashSize)
  }

  lemma BundleFits(prim: Primitives, dest: Byte, src: Byte, secret: Key, path: seq<Byte>, hashSize: int, payload: seq<Byte>)
    requires prim.Sound() && Sendable(path, hashSize)
    ensures Transmittable(Bundle(prim, dest, src, secret, path, hashSize, payload)) <==> 2 + |path| + |payload| <= 160
  {
    var bundled := PathReturn(path, hashSize, Response.Code(), payload);
    DatagramFits(prim, Flood, Path, dest, src, secret, bundled.Encode(), [], hashSize);
  }

  // Login and status bundles always fit. The access list is sized for a direct packet
  // only: bundled, a full list of 13 members over a 64-byte path is the one that does not.
  lemma BundledResponsesFit(prim: Primitives, dest: Byte, src: Byte, secret: Key, path: seq<Byte>, hashSize: int,
                            payload: seq<Byte>, members: seq<(Key, Byte)>)
    requires prim.Sound() && Sendable(path, hashSize)
    ensures |payload| == LOGIN_RESPONSE_LEN || |payload| == RESPONSE_TIMESTAMP_LEN + SERVER_STATS_LEN ==>
      Transmittable(Bundle(prim, dest, src, secret, path, hashSize, payload))
    ensures |payload| == RESPONSE_TIMESTAMP_LEN + ACL_ENTRY_LEN * Listed(members) ==>
      (Transmittable(Bundle(prim, dest, src, secret, path, hashSize, payload)) <==> !(|members| >= 13 && |path| == MAX_PATH_SIZE))
  {
    BundleFits(prim, dest, src, secret, path, hashSize, payload);
  }

  // The acknowledgement a client computes from the frame it received is the one the room
  // is waiting for.
  lemma AckAgreement(prim: Primitives, dest: Byte, src: Byte, secret: Key, client: Key, postTs: int, author: Key,
                     text: string, attempt: int, path: seq<Byte>)
    requires prim.Sound() && 0 <= postTs < U32_LIMIT && '\0' !in text
    ensures
      var plaintext := BuildPush(postTs, author, text, attempt, |path|).value;
      var payload := DatagramPayload(prim, dest, src, secret, plaintext);
      && prim.MacThenDecrypt(secret, payload[DATAGRAM_HEADER_LEN..]).Ok?
      && var received := prim.MacThenDecrypt(secret, payload[DATAGRAM_HEADER_LEN..]).value;
      && DecodeText(received).Ok?
      && var m := DecodeText(received).value;
      && prim.AckHash(m.Encode(), client) == prim.AckHash(plaintext, client)
      && m.timestamp == postTs
      && m.Body() == Truncated(text, PushTextBudget(|path|))
  {
    var plaintext := BuildPush(postTs, author, text, attempt, |path|).value;
    var payload := DatagramPayload(prim, dest, src, secret, plaintext);
    assert payload[DATAGRAM_HEADER_LEN..] == prim.EncryptThenMac(secret, plaintext);
    prim.OpenInvertsSeal(secret, plaintext);
    ClientReadsPush(postTs, author, text, attempt, |path|, Padding(|plaintext|));
  }
}
