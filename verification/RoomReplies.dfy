// What the room sends back, and what it makes of the answers.
module RoomReplies {
  import opened Bytes
  import opened Wrappers
  import opened Crypto
  import opened Packet
  import opened Posts
  import opened Sync
  import opened Repo
  import opened RoomSpec
  import opened RoomInvariant
  import opened RoomRuns
  import opened RoomSchedule
  import opened RoomQuiet
  import opened RoomProgress
  import Frames
  import Acl

  // A client's text is acknowledged exactly when its session is known, the message is no
  // replay, the role may post and an answer can be addressed; and the acknowledgement is
  // the hash of what the client itself encoded, cipher padding or not.
  lemma TextAcknowledgedExactly(env: Env, w: World, key: Key, m: TextMessage, padding: nat, clock: Readings)
    requires m.Valid() && m.txtType.Plain? && 0 !in m.text
    ensures DecodeText(m.Encode() + Zeros(padding)) == Ok(m)
    ensures
      var found := Find(w.sessions, key);
      var answered := found.Some?
                      && var s := w.sessions[found.value];
                         s.lastTimestamp <= m.timestamp && (s.role.ReadWrite? || s.role.Admin?) && s.Addressable();
      OnText(env, w, key, m, clock).sent == if answered then [TextAck(key, env.prim.digest(m.Encode() + key))] else []
  {
    hide StorePost, PostText, DecodeText, TextMessage.Encode;
    PlainTextSurvivesPadding(m, padding);
  }

  function Least(n: nat, limit: nat): (least: nat) {
    if n < limit then n else limit
  }

  // A keep-alive whose first four data bytes are a timestamp other than zero makes it the
  // cursor, forwards or backwards, in memory and on disk. The answer, over a known path that
  // fits a packet, is the hash of its first nine bytes and the number of posts above that
  // cursor it is owed, as far as a byte counts. Its slot is free again.
  lemma KeepAliveClaims(env: Env, w: World, i: nat, timestamp: int, since: int, rest: seq<Byte>, now: int)
    requires Inv(env, w) && i < |w.sessions| && w.sessions[i].lastTimestamp <= timestamp
    requires 0 <= timestamp < U32_LIMIT && 0 < since < U32_LIMIT
    ensures
      var plaintext := U32(timestamp) + [2] + U32(since) + rest;
      && DecodeRequest(plaintext).Ok?
      && var s, e := w.sessions[i], OnRequest(env, w, w.sessions[i].key, DecodeRequest(plaintext).value, true, now);
         && i < |e.world.sessions|
         && e.world.sessions[i] == s.(syncSince := since, lastTimestamp := timestamp, lastActivity := now, pushFailures := 0,
                                      pendingAck := None)
         && s.key in e.world.db.clients && e.world.db.clients[s.key].syncSince == since
         && e.world.db.posts == w.db.posts && e.world.log.history == w.log.history
         && e.world.log.TrackOf(s.key) == (if since == s.syncSince then w.log.TrackOf(s.key)
                                           else Track(since, |w.log.history| - |w.db.posts|, []))
         && e.sent == if s.outPathLen != 0xFF && |s.outPath| <= 64 then
                        [KeepAliveAck(s.key, env.prim.digest(plaintext[..9] + s.key), Least(|Owed(w.db.posts, s.key, since)|, 255))]
                      else []
  {
    hide Inv, Owed, U32, SessionOk, RowOk, OnRequest, ForceSince, DecodeRequest, ServerRequest.Encode;
    var plaintext := U32(timestamp) + [2] + U32(since) + rest;
    RequestBytes(timestamp, 2, U32(since) + rest);
    assert plaintext == U32(timestamp) + [2] + (U32(since) + rest);
    ClaimBytes(since, rest);
    FindsItself(env, w, i);
    AtSession(env, w, i);
    CursorOf(env, w, i);
    FirstNine(plaintext);
    KeepAliveAt(env, w, i, ServerRequest(timestamp, 2, U32(since) + rest), since, now);
  }

  // A keep-alive claiming `since`, or nothing at all.
  lemma KeepAliveAt(env: Env, w: World, i: nat, request: ServerRequest, since: int, now: int)
    requires i < |w.sessions| && Find(w.sessions, w.sessions[i].key) == Some(i) && w.sessions[i].key in w.db.clients
    requires 0 <= |w.log.history| - |w.db.posts|
    requires request.Valid() && request.reqType == 2 && w.sessions[i].lastTimestamp <= request.timestamp
    requires since == ForceSince(request.data)
    ensures
      var s, e := w.sessions[i], OnRequest(env, w, w.sessions[i].key, request, true, now);
      var forced := since > 0 && since != s.syncSince;
      var cursor := if forced then since else s.syncSince;
      && i < |e.world.sessions|
      && e.world.sessions[i] == s.(syncSince := cursor, lastTimestamp := request.timestamp, lastActivity := now,
                                   pushFailures := 0, pendingAck := None)
      && e.world.db.posts == w.db.posts && e.world.log.history == w.log.history
      && e.world.db.clients == (if forced then w.db.clients[s.key := w.db.clients[s.key].(syncSince := since)]
                                else w.db.clients)
      && e.world.log.tracks == (if forced then w.log.tracks[s.key := Track(since, |w.log.history| - |w.db.posts|, [])]
                                else w.log.tracks)
      && e.sent == if s.outPathLen != 0xFF && |s.outPath| <= 64 then
                     [KeepAliveAck(s.key, env.prim.AckHash(Slice(request.Encode(), 0, 9), s.key),
                                   Least(|Owed(w.db.posts, s.key, cursor)|, 255))]
                   else []
  {
    hide Owed, ServerRequest.Encode, Slice, ForceSince;
  }

  // With fewer than four data bytes, or a zero, it claims nothing: cursor and account stay.
  lemma KeepAliveWithoutClaim(env: Env, w: World, i: nat, timestamp: int, data: seq<Byte>, now: int)
    requires Inv(env, w) && i < |w.sessions| && w.sessions[i].lastTimestamp <= timestamp
    requires 0 <= timestamp < U32_LIMIT && (|data| < 4 || data[..4] == [0, 0, 0, 0])
    ensures
      var plaintext := U32(timestamp) + [2] + data;
      && DecodeRequest(plaintext).Ok?
      && var s, e := w.sessions[i], OnRequest(env, w, w.sessions[i].key, DecodeRequest(plaintext).value, true, now);
         && i < |e.world.sessions|
         && e.world.sessions[i] == s.(lastTimestamp := timestamp, lastActivity := now, pushFailures := 0, pendingAck := None)
         && e.world.db == w.db && e.world.log.history == w.log.history && e.world.log.tracks == w.log.tracks
         && e.sent == if s.outPathLen != 0xFF && |s.outPath| <= 64 then
                        [KeepAliveAck(s.key, env.prim.digest((if |plaintext| < 9 then plaintext else plaintext[..9]) + s.key),
                                      Least(|Owed(w.db.posts, s.key, s.syncSince)|, 255))]
                      else []
  {
    hide Inv, Owed, U32, SessionOk, RowOk, OnRequest, ForceSince, DecodeRequest, ServerRequest.Encode;
    var plaintext := U32(timestamp) + [2] + data;
    RequestBytes(timestamp, 2, data);
    NoClaimBytes(data);
    FindsItself(env, w, i);
    AtSession(env, w, i);
    FirstNine(plaintext);
    KeepAliveAt(env, w, i, ServerRequest(timestamp, 2, data), 0, now);
  }

  lemma FirstNine(b: seq<Byte>)
    ensures Slice(b, 0, 9) == if |b| < 9 then b else b[..9]
  {
  }

  lemma NoClaimBytes(data: seq<Byte>)
    requires |data| < 4 || data[..4] == [0, 0, 0, 0]
    ensures ForceSince(data) == 0
  {
    if |data| >= 4 {
      assert forall k :: 0 <= k < 4 ==> data[k] == data[..4][k] == 0;
    }
  }

  lemma RequestBytes(timestamp: int, reqType: Byte, data: seq<Byte>)
    requires 0 <= timestamp < U32_LIMIT
    ensures
      var plaintext := U32(timestamp) + [reqType] + data;
      && DecodeRequest(plaintext) == Ok(ServerRequest(timestamp, reqType, data))
      && ServerRequest(timestamp, reqType, data).Encode() == plaintext
  {
    var plaintext := U32(timestamp) + [reqType] + data;
    U32RoundTrip(timestamp);
    assert forall k :: 0 <= k < 4 ==> plaintext[k] == U32(timestamp)[k];
    assert plaintext[4] == reqType && plaintext[5..] == data;
  }

  lemma ClaimBytes(since: int, rest: seq<Byte>)
    requires 0 <= since < U32_LIMIT
    ensures ForceSince(U32(since) + rest) == since
  {
    var data := U32(since) + rest;
    U32RoundTrip(since);
    assert forall k :: 0 <= k < 4 ==> data[k] == U32(since)[k];
  }

  // What the answer counts is everything still owed of the whole history since the claim.
  lemma KeepAliveTellsWhatIsOwed(env: Env, w: World, i: nat, request: ServerRequest, now: int)
    requires Inv(env, w) && i < |w.sessions| && request.Valid() && request.reqType == 2
    requires w.sessions[i].lastTimestamp <= request.timestamp
    ensures
      var s, e := w.sessions[i], OnRequest(env, w, w.sessions[i].key, request, true, now);
      && s.key in e.world.log.tracks && s.key in e.world.db.clients
      && var track, cursor := e.world.log.tracks[s.key], e.world.db.clients[s.key].syncSince;
         && track.from <= |e.world.log.history|
         && e.sent == if s.outPathLen != 0xFF && |s.outPath| <= 64 then
                        [KeepAliveAck(s.key, env.prim.AckHash(Slice(request.Encode(), 0, 9), s.key),
                                      Least(|Owed(e.world.log.history[track.from..], s.key, cursor)|, 255))]
                      else []
  {
    hide Inv, Owed, ServerRequest.Encode, Slice, ForceSince;
    var key, e := w.sessions[i].key, OnRequest(env, w, w.sessions[i].key, request, true, now);
    FindsItself(env, w, i);
    AtSession(env, w, i);
    OnRequestKeeps(env, w, key, request, true, now);
    OwedIsStored(env, e.world, key);
  }

  lemma FindsItself(env: Env, w: World, i: nat)
    requires Inv(env, w) && i < |w.sessions|
    ensures Find(w.sessions, w.sessions[i].key) == Some(i)
  {
    hide SessionAt, RowAt, HistoryOk;
  }

  // Acknowledging a welcome chunk takes it off the queue and moves no cursor.
  lemma WelcomeAcknowledged(env: Env, w: World, checksum: seq<Byte>, i: nat)
    requires Inv(env, w) && Waiting(w.sessions, checksum) == Some(i) && w.sessions[i].pushIsWelcome
    ensures
      var s, w' := w.sessions[i], OnAck(w, checksum);
      && s.welcome != []
      && w'.sessions == w.sessions[i := s.(welcome := s.welcome[1..], pendingAck := None, pushFailures := 0)]
      && w'.db == w.db && w'.log.history == w.log.history && w'.log.tracks == w.log.tracks
  {
    hide Inv, RowOk, PathOk, AcksPush;
    AtSession(env, w, i);
  }

  // A push of a welcome chunk: the checksum its client computes from the datagram is the one
  // awaited, and accepting it for that session takes exactly that chunk off the queue.
  lemma WelcomePushedThenAcknowledged(env: Env, w: World, tick: Tick, secret: Key, dest: Byte, src: Byte, plaintext: seq<Byte>)
    requires env.prim.Sound() && Inv(env, w) && w.sessions != []
    requires PushOnce(env, w, tick).sent == [WelcomePush(w.sessions[Visited(w)].key, plaintext)]
    requires w.sessions[Visited(w)].welcome != [] && '\0' !in w.sessions[Visited(w)].welcome[0]
    ensures
      var i := Visited(w);
      var s, pushed := w.sessions[i], PushOnce(env, w, tick).world;
      var checksum := ClientChecksum(env, secret, s.key, Frames.DatagramPayload(env.prim, dest, src, secret, plaintext));
      && i < |pushed.sessions| && checksum.Some?
      && pushed.sessions[i].pendingAck == checksum
      && Waiting(pushed.sessions, checksum.value).Some?
      && (Waiting(pushed.sessions, checksum.value) == Some(i) ==>
           var acked := OnAck(pushed, checksum.value);
           && i < |acked.sessions| && acked.sessions[i].welcome == s.welcome[1..]
           && acked.sessions[i].syncSince == s.syncSince && acked.sessions[i].pendingAck == None
           && acked.db == w.db)
  {
    hide Inv, Owed, BuildPush, PushOnce, OnAck, Frames.DatagramPayload, ClientChecksum, BuildsPush, Waiting;
    var i := Visited(w);
    var s, pushed := w.sessions[i], PushOnce(env, w, tick).world;
    var chunk := Post(tick.uniqueNow, env.roomKey, s.welcome[0]);
    PushOnceKeeps(env, w, tick);
    WelcomeSource(env, w, tick, plaintext);
    ChecksumOfPush(env, secret, s.key, dest, src, chunk, tick.attempt, s.outPath, plaintext);
    var checksum := env.prim.AckHash(plaintext, s.key);
    assert Waiting(pushed.sessions, checksum).Some?;
    if Waiting(pushed.sessions, checksum) == Some(i) {
      WelcomeAcknowledged(env, pushed, checksum, i);
    }
  }

  lemma WelcomeSource(env: Env, w: World, tick: Tick, plaintext: seq<Byte>)
    requires w.sessions != []
    requires PushOnce(env, w, tick).sent == [WelcomePush(w.sessions[Visited(w)].key, plaintext)]
    requires w.sessions[Visited(w)].welcome != [] && '\0' !in w.sessions[Visited(w)].welcome[0]
    ensures
      var i := Visited(w);
      var s, w' := w.sessions[i], PushOnce(env, w, tick).world;
      && BuildsPush(Post(tick.uniqueNow, env.roomKey, s.welcome[0]), tick.attempt, |s.outPath|, plaintext)
      && i < |w'.sessions| && w'.db == w.db
      && w'.sessions[i].pendingAck == Some(env.prim.AckHash(plaintext, s.key))
      && w'.sessions[i].pushIsWelcome && w'.sessions[i].welcome == s.welcome && w'.sessions[i].syncSince == s.syncSince
  {
    hide AckTimeout, NextUnsynced;
  }

  // A login under a welcome without NULs leaves only such chunks to be sent.
  lemma LoginQueuesNulFree(env: Env, w: World, key: Key, login: LoginRequest, flood: bool, now: int)
    requires w.settings.welcome.Some? ==> '\0' !in w.settings.welcome.value
    requires forall i, c :: 0 <= i < |w.sessions| && 0 <= c < |w.sessions[i].welcome| ==> '\0' !in w.sessions[i].welcome[c]
    ensures
      var w' := Login(env, w, key, login, flood, now).world;
      forall i, c :: 0 <= i < |w'.sessions| && 0 <= c < |w'.sessions[i].welcome| ==> '\0' !in w'.sessions[i].welcome[c]
  {
    hide Acl.Resolve, SplitWelcome, RecordLogin;
    if w.settings.welcome.Some? {
      WelcomeNulFree(w.settings.welcome.value);
    }
  }

  // The hash size a packed path length names.
  function HashSize(packed: int): (size: nat)
    ensures size > 0
  {
    if packed < 0 then 1 else packed / 64 + 1
  }

  // How long a push waits for its answer: longer the more hops the path has.
  function Patience(env: Env, s: Session): (t: real) {
    if s.HasOutPath() then
      env.timings.pushTimeoutBase + env.timings.pushAckTimeoutFactor * (|s.outPath| / HashSize(s.outPathLen) + 1) as real
    else env.timings.pushAckTimeoutFlood
  }

  // A push made holds its slot for exactly that long, and costs one failure when it is over.
  lemma SlotHeldUntilTimeout(env: Env, w: World, tick: Tick, later: real)
    requires Inv(env, w) && w.sessions != [] && PushOnce(env, w, tick).sent != []
    ensures
      var i, pushed := Visited(w), PushOnce(env, w, tick).world;
      && i < |pushed.sessions| && pushed.sessions[i].pendingAck.Some?
      && var s := ExpirePendingAcks(pushed, later).sessions[i];
         && (s.pendingAck.Some? <==> later < tick.armAt + Patience(env, w.sessions[i]))
         && s.pushFailures == pushed.sessions[i].pushFailures + if s.pendingAck.Some? then 0 else 1
  {
    hide Inv, SessionOk, RowOk, AckTimeout, Patience;
    AtSession(env, w, Visited(w));
    ArmedAt(env, w, tick);
    PatienceIs(env, w, Visited(w), tick.armAt);
  }

  lemma ArmedAt(env: Env, w: World, tick: Tick)
    requires w.sessions != [] && PushOnce(env, w, tick).sent != []
    ensures
      var i, pushed := Visited(w), PushOnce(env, w, tick).world;
      && i < |pushed.sessions| && pushed.sessions[i].pendingAck.Some?
      && pushed.sessions[i].ackTimeout == AckTimeout(env, w.sessions[i], tick.armAt)
  {
    hide BuildPush, NextUnsynced;
  }

  lemma PatienceIs(env: Env, w: World, i: nat, now: real)
    requires Inv(env, w) && i < |w.sessions|
    ensures AckTimeout(env, w.sessions[i], now) == now + Patience(env, w.sessions[i])
  {
    hide Inv, SlotOk, AirtimeOk, EffectsOk, RowOk;
    AtSession(env, w, i);
    var s := w.sessions[i];
    if s.HasOutPath() {
      HopsOf(s.outPath, s.outPathLen);
    }
  }

  lemma HopsOf(path: seq<Byte>, packed: int)
    requires PathOk(path, packed) && packed != OUT_PATH_UNKNOWN
    ensures |path| / HashSize(packed) == packed % 64
  {
    assert 0 <= packed < 192;
    assert 1 <= HashSize(packed) <= 3;
    Hops(packed % 64, HashSize(packed));
  }
}
