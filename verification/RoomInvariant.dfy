// What every step of the room keeps.
module RoomInvariant {
  import opened Bytes
  import opened Wrappers
  import opened Crypto
  import opened Packet
  import opened Posts
  import opened Acl
  import opened Sync
  import opened Repo
  import opened RoomSpec
  import Seqs
  import Utf8

  // A text fit for storing: no NUL, and within the 151 bytes of a post.
  predicate StorableText(text: string) {
    '\0' !in text && |Utf8.Encode(text)| <= MAX_POST_TEXT_LEN
  }

  // The posts stored are the end of the history: everything before the cut is gone,
  // everything after it is there, and the newest post always is.
  ghost predicate HistoryOk(history: seq<Post>, posts: seq<Post>) {
    && Increasing(history)
    && |posts| <= |history|
    && posts == history[|history| - |posts|..]
    && (history != [] ==> posts != [])
    && forall i :: 0 <= i < |history| ==> StorableText(history[i].text)
  }

  // A client's row against its claim: the posts acknowledged since are exactly the foreign
  // ones between the claim and the cursor, and nothing above the cursor has been pruned.
  ghost predicate RowOk(history: seq<Post>, cut: int, key: Key, row: Row, track: Track) {
    && track.from <= cut <= |history|
    && track.claim <= row.syncSince
    && (row.syncSince == track.claim || (history != [] && row.syncSince <= history[|history| - 1].ts))
    && (forall i :: track.from <= i < cut ==> history[i].ts <= row.syncSince)
    && track.acked == Select(history[track.from..], key, track.claim, row.syncSince)
  }

  ghost predicate PathOk(path: seq<Byte>, packed: int) {
    || (path == [] && packed == OUT_PATH_UNKNOWN)
    || (0 <= packed < 0xC0 && |path| == packed % 64 * (packed / 64 + 1))
  }

  // A checksum some push of this message to this client would be acknowledged with.
  ghost predicate AcksPush(env: Env, checksum: seq<Byte>, key: Key, ts: int, author: Key, text: string) {
    exists attempt: int, pathBytes: nat ::
      && BuildPush(ts, author, text, attempt, pathBytes).Some?
      && checksum == env.prim.AckHash(BuildPush(ts, author, text, attempt, pathBytes).value, key)
  }

  // The slot of a session: a pending post push is for the oldest post owed to the client,
  // with no welcome left to say; a pending welcome push is for the head of the queue.
  ghost predicate SlotOk(env: Env, posts: seq<Post>, life: Life, s: Session) {
    s.pendingAck.Some? ==>
      if s.pushIsWelcome then
        && s.welcome != []
        && exists ts: int :: AcksPush(env, s.pendingAck.value, s.key, ts, env.roomKey, s.welcome[0])
      else
        var owed := Owed(posts, s.key, s.syncSince);
        && s.welcome == []
        && owed != []
        && life.inFlight == Some(owed[0])
        && s.pushPostTs == owed[0].ts
        && AcksPush(env, s.pendingAck.value, s.key, owed[0].ts, owed[0].author, owed[0].text)
  }

  function Pending(s: Session): (n: nat) {
    if s.pendingAck.Some? then 1 else 0
  }

  // Airtime: the pushes since the failure counter was reset are accounted for, within
  // the limit.
  ghost predicate AirtimeOk(env: Env, life: Life, s: Session) {
    && life.pushes <= s.pushFailures + Pending(s)
    && s.pushFailures + Pending(s) <= env.timings.maxPushFailures
  }

  // The timestamps that had an effect rise strictly, up to the last one seen.
  ghost predicate EffectsOk(life: Life, s: Session) {
    && (forall i, j :: 0 <= i < j < |life.effects| ==> life.effects[i] < life.effects[j])
    && (forall i :: 0 <= i < |life.effects| ==> life.effects[i] <= s.lastTimestamp)
  }

  // Memory agrees with disk.
  ghost predicate MatchesRow(row: Row, s: Session) {
    && s.syncSince == row.syncSince
    && s.outPath == row.outPath
    && s.outPathLen == row.outPathLen
  }

  ghost predicate SessionOk(env: Env, posts: seq<Post>, row: Row, life: Life, s: Session) {
    && env.usable(s.key)
    && MatchesRow(row, s)
    && PathOk(s.outPath, s.outPathLen)
    && SlotOk(env, posts, life, s)
    && AirtimeOk(env, life, s)
    && EffectsOk(life, s)
  }

  predicate Distinct(sessions: seq<Session>) {
    forall i, j :: 0 <= i < j < |sessions| ==> sessions[i].key != sessions[j].key
  }

  predicate HasSession(sessions: seq<Session>, key: Key) {
    exists i :: 0 <= i < |sessions| && sessions[i].key == key
  }

  ghost predicate SessionAt(env: Env, w: World, i: nat)
    requires i < |w.sessions|
  {
    var s := w.sessions[i];
    && s.key in w.db.clients
    && s.key in w.log.lives
    && SessionOk(env, w.db.posts, w.db.clients[s.key], w.log.lives[s.key], s)
  }

  ghost predicate RowAt(env: Env, w: World, key: Key)
    requires key in w.db.clients
  {
    && key in w.log.tracks
    && PathOk(w.db.clients[key].outPath, w.db.clients[key].outPathLen)
    && RowOk(w.log.history, w.Cut(), key, w.db.clients[key], w.log.tracks[key])
    && (env.usable(key) ==> HasSession(w.sessions, key))
  }

  ghost predicate Inv(env: Env, w: World) {
    && w.settings.Valid()
    && HistoryOk(w.log.history, w.db.posts)
    && Distinct(w.sessions)
    && (forall i :: 0 <= i < |w.sessions| ==> SessionAt(env, w, i))
    && (forall k :: k in w.db.clients ==> RowAt(env, w, k))
  }

  // -- steps that touch one client -------------------------------------------

  // `w'` differs from `w` only in what it holds of the client of session `i`.
  ghost predicate OnlyClient(w: World, w': World, i: nat)
    requires i < |w.sessions|
  {
    var key := w.sessions[i].key;
    && w'.settings == w.settings
    && w'.db.posts == w.db.posts
    && w'.log.history == w.log.history
    && |w'.sessions| == |w.sessions|
    && w'.sessions[i].key == key
    && (forall j :: 0 <= j < |w.sessions| && j != i ==> w'.sessions[j] == w.sessions[j])
    && w'.db.clients.Keys == w.db.clients.Keys
    && (forall k :: k in w.db.clients && k != key ==> w'.db.clients[k] == w.db.clients[k])
    && (forall k :: k != key ==> (k in w'.log.tracks <==> k in w.log.tracks))
    && (forall k :: k != key && k in w.log.tracks ==> w'.log.tracks[k] == w.log.tracks[k])
    && (forall k :: k != key ==> (k in w'.log.lives <==> k in w.log.lives))
    && (forall k :: k != key && k in w.log.lives ==> w'.log.lives[k] == w.log.lives[k])
  }

  lemma OneClientStep(env: Env, w: World, w': World, i: nat)
    requires Inv(env, w) && i < |w.sessions| && OnlyClient(w, w', i)
    requires
      var key, s := w.sessions[i].key, w'.sessions[i];
      && key in w'.db.clients && key in w'.log.lives && key in w'.log.tracks
      && SessionOk(env, w'.db.posts, w'.db.clients[key], w'.log.lives[key], s)
      && RowOk(w'.log.history, w'.Cut(), key, w'.db.clients[key], w'.log.tracks[key])
    ensures Inv(env, w')
  {
    hide RowOk, HistoryOk, PathOk, SlotOk, AirtimeOk, EffectsOk;
    var key := w.sessions[i].key;
    forall j | 0 <= j < |w'.sessions| ensures SessionAt(env, w', j) {
      if j != i {
        assert SessionAt(env, w, j) && w.sessions[j].key != key;
      }
    }
    forall k | k in w'.db.clients ensures RowAt(env, w', k) {
      assert RowAt(env, w, k);
      SameKeys(w.sessions, w'.sessions, k);
    }
  }

  lemma SameKeys(sessions: seq<Session>, sessions': seq<Session>, key: Key)
    requires |sessions| == |sessions'| && forall i :: 0 <= i < |sessions| ==> sessions'[i].key == sessions[i].key
    ensures HasSession(sessions, key) ==> HasSession(sessions', key)
  {
    if HasSession(sessions, key) {
      var i :| 0 <= i < |sessions| && sessions[i].key == key;
      assert sessions'[i].key == key;
    }
  }

  // What the invariant says of one session, for use in the steps below.
  lemma AtSession(env: Env, w: World, i: nat)
    requires Inv(env, w) && i < |w.sessions|
    ensures
      var s := w.sessions[i];
      && s.key in w.db.clients && s.key in w.log.lives && s.key in w.log.tracks
      && SessionOk(env, w.db.posts, w.db.clients[s.key], w.log.lives[s.key], s)
      && RowOk(w.log.history, w.Cut(), s.key, w.db.clients[s.key], w.log.tracks[s.key])
      && 0 <= w.Cut() <= |w.log.history|
      && Increasing(w.db.posts)
  {
    hide SessionOk, RowOk, PathOk, StorableText;
    assert SessionAt(env, w, i) && RowAt(env, w, w.sessions[i].key);
  }

  // A fresh claim starts with nothing acknowledged and nothing missing.
  lemma FreshClaim(history: seq<Post>, cut: nat, key: Key, row: Row)
    requires cut <= |history|
    ensures RowOk(history, cut, key, row, Track(row.syncSince, cut, []))
  {
    SelectEmpty(history[cut..], key, row.syncSince, row.syncSince);
  }

  lemma HeardKeeps(env: Env, w: World, i: nat, timestamp: int, now: int)
    requires Inv(env, w) && i < |w.sessions| && w.sessions[i].lastTimestamp <= timestamp
    ensures Inv(env, Heard(w, i, timestamp, now))
  {
    hide Inv, RowOk, PathOk, Owed, AcksPush;
    AtSession(env, w, i);
    OneClientStep(env, w, Heard(w, i, timestamp, now), i);
  }

  lemma KeepAliveKeeps(env: Env, w: World, i: nat, request: ServerRequest)
    requires Inv(env, w) && i < |w.sessions| && request.Valid()
    requires w.log.LifeOf(w.sessions[i].key).pushes == 0
    ensures Inv(env, OnKeepAlive(env, w, i, request).world)
  {
    hide Inv, RowOk, PathOk, Owed, AcksPush, ForceSince;
    AtSession(env, w, i);
    var w' := OnKeepAlive(env, w, i, request).world;
    var key := w.sessions[i].key;
    FreshClaim(w.log.history, w.Cut(), key, w'.db.clients[key]);
    OneClientStep(env, w, w', i);
  }

  lemma LearnPathKeeps(env: Env, w: World, i: nat, p: PathReturn, now: int)
    requires Inv(env, w) && i < |w.sessions| && p.Valid()
    ensures Inv(env, LearnPath(w, i, p, now))
  {
    hide Inv, Owed, AcksPush, Select;
    AtSession(env, w, i);
    HopsExact(|p.path|, p.pathHashSize);
    OneClientStep(env, w, LearnPath(w, i, p, now), i);
  }

  // An acknowledged post is the oldest one owed: the cursor passes it and nothing else.
  lemma AcknowledgedKeeps(env: Env, w: World, i: nat)
    requires Inv(env, w) && i < |w.sessions| && w.sessions[i].pendingAck.Some?
    ensures Inv(env, Acknowledged(w, i))
  {
    hide Inv, RowOk, PathOk, AcksPush;
    AtSession(env, w, i);
    var s := w.sessions[i];
    if !s.pushIsWelcome {
      AckMovesCursor(env, w, s.key);
    }
    OneClientStep(env, w, Acknowledged(w, i), i);
  }

  lemma AckMovesCursor(env: Env, w: World, key: Key)
    requires Inv(env, w) && key in w.db.clients
    requires Owed(w.db.posts, key, w.db.clients[key].syncSince) != []
    ensures key in w.log.tracks
    ensures
      var row, track := w.db.clients[key], w.log.tracks[key];
      var oldest := Owed(w.db.posts, key, row.syncSince)[0];
      && row.syncSince < oldest.ts
      && RowOk(w.log.history, w.Cut(), key, row.(syncSince := oldest.ts), track.(acked := track.acked + [oldest]))
  {
    hide SessionAt, HistoryOk, RowOk, PathOk, HasSession, Owed, Select;
    assert RowAt(env, w, key);
    RowAdvances(w.log.history, w.db.posts, key, w.db.clients[key], w.log.tracks[key]);
  }

  lemma RowAdvances(history: seq<Post>, posts: seq<Post>, key: Key, row: Row, track: Track)
    requires HistoryOk(history, posts) && RowOk(history, |history| - |posts|, key, row, track)
    requires Owed(posts, key, row.syncSince) != []
    ensures
      var oldest := Owed(posts, key, row.syncSince)[0];
      && row.syncSince < oldest.ts
      && RowOk(history, |history| - |posts|, key, row.(syncSince := oldest.ts), track.(acked := track.acked + [oldest]))
  {
    hide StorableText, Owed, Select;
    var cut := |history| - |posts|;
    OwedSinceClaim(history, cut, track.from, key, row.syncSince);
    SelectUpToOldestOwed(history[track.from..], key, track.claim, row.syncSince);
    StoredBelowNewest(history, posts, key, row.syncSince);
  }

  lemma OwedSinceClaim(history: seq<Post>, cut: nat, from: nat, key: Key, since: int)
    requires from <= cut <= |history| && forall i :: from <= i < cut ==> history[i].ts <= since
    ensures Owed(history[cut..], key, since) == Owed(history[from..], key, since)
  {
    hide Owed;
    Seqs.DropTwice(history, from, cut - from);
    OwedAfterDrop(history[from..], cut - from, key, since);
  }

  lemma StoredBelowNewest(history: seq<Post>, posts: seq<Post>, key: Key, since: int)
    requires HistoryOk(history, posts) && Owed(posts, key, since) != []
    ensures history != [] && Owed(posts, key, since)[0].ts <= history[|history| - 1].ts
  {
    hide StorableText, Owed;
    var oldest := Owed(posts, key, since)[0];
    OwedMembers(posts, key, since, oldest);
    var j :| 0 <= j < |posts| && posts[j] == oldest;
    assert history[|history| - |posts| + j] == oldest;
  }

  lemma OnAckKeeps(env: Env, w: World, checksum: seq<Byte>)
    requires Inv(env, w)
    ensures Inv(env, OnAck(w, checksum))
  {
    match Waiting(w.sessions, checksum) {
      case None =>
      case Some(i) => AcknowledgedKeeps(env, w, i);
    }
  }

  lemma OnPathReturnKeeps(env: Env, w: World, key: Key, p: PathReturn, now: int)
    requires Inv(env, w) && p.Valid()
    ensures Inv(env, OnPathReturn(w, key, p, now))
  {
    match Find(w.sessions, key) {
      case None =>
      case Some(i) =>
        LearnPathKeeps(env, w, i, p, now);
        if p.extraType % 16 == AckType.Code() && |p.extra| >= ACK_LEN {
          OnAckKeeps(env, LearnPath(w, i, p, now), p.extra[..ACK_LEN]);
        }
    }
  }

  // -- pushing ---------------------------------------------------------------

  lemma ExpireKeeps(env: Env, w: World, now: real)
    requires Inv(env, w)
    ensures Inv(env, ExpirePendingAcks(w, now))
  {
    hide RowOk, PathOk, HistoryOk, Owed, AcksPush;
    var w' := ExpirePendingAcks(w, now);
    forall i | 0 <= i < |w'.sessions| ensures SessionAt(env, w', i) {
      assert SessionAt(env, w, i);
    }
    forall k | k in w'.db.clients ensures RowAt(env, w', k) {
      assert RowAt(env, w, k);
      SameKeys(w.sessions, w'.sessions, k);
    }
  }

  lemma ArmKeeps(env: Env, w: World, i: nat, plaintext: seq<Byte>, post: Option<Post>, sent: Sent, tick: Tick)
    requires Inv(env, w) && i < |w.sessions| && Eligible(env, w.sessions[i])
    requires
      var s := w.sessions[i];
      var checksum := env.prim.AckHash(plaintext, s.key);
      if post == None then
        s.welcome != [] && exists ts: int :: AcksPush(env, checksum, s.key, ts, env.roomKey, s.welcome[0])
      else
        var owed := Owed(w.db.posts, s.key, s.syncSince);
        && s.welcome == [] && owed != [] && post.value == owed[0]
        && AcksPush(env, checksum, s.key, post.value.ts, post.value.author, post.value.text)
    ensures Inv(env, Arm(env, w, i, plaintext, post, sent, tick).world)
  {
    hide Inv, RowOk, PathOk, Owed, AcksPush, AckTimeout;
    AtSession(env, w, i);
    OneClientStep(env, w, Arm(env, w, i, plaintext, post, sent, tick).world, i);
  }

  lemma AcksItsOwnPush(env: Env, key: Key, ts: int, author: Key, text: string, attempt: int, pathBytes: nat)
    requires BuildPush(ts, author, text, attempt, pathBytes).Some?
    ensures AcksPush(env, env.prim.AckHash(BuildPush(ts, author, text, attempt, pathBytes).value, key), key, ts, author, text)
  {
    hide BuildPush;
  }

  lemma PushToKeeps(env: Env, w: World, i: nat, tick: Tick)
    requires Inv(env, w) && i < |w.sessions|
    ensures Inv(env, PushTo(env, w, i, tick).world)
  {
    hide Inv, RowOk, PathOk, BuildPush, AcksPush, Arm, SessionOk;
    AtSession(env, w, i);
    var s := w.sessions[i];
    if Eligible(env, s) {
      var next := NextUnsynced(w.db.posts, s.key, s.syncSince, tick.now - env.timings.postSyncDelay);
      NextUnsyncedIsOldestOwed(w.db.posts, s.key, s.syncSince, tick.now - env.timings.postSyncDelay);
      if s.welcome != [] {
        var built := BuildPush(tick.uniqueNow, env.roomKey, s.welcome[0], tick.attempt, |s.outPath|);
        if built.Some? {
          AcksItsOwnPush(env, s.key, tick.uniqueNow, env.roomKey, s.welcome[0], tick.attempt, |s.outPath|);
          ArmKeeps(env, w, i, built.value, None, WelcomePush(s.key, built.value), tick);
        }
      } else if next.Some? {
        var post := next.value;
        var built := BuildPush(post.ts, post.author, post.text, tick.attempt, |s.outPath|);
        if built.Some? {
          AcksItsOwnPush(env, s.key, post.ts, post.author, post.text, tick.attempt, |s.outPath|);
          ArmKeeps(env, w, i, built.value, Some(post), PostPush(s.key, post, built.value), tick);
        }
      }
    }
  }

  lemma TurnKeeps(env: Env, w: World, roundRobin: nat)
    requires Inv(env, w)
    ensures Inv(env, w.(roundRobin := roundRobin))
  {
    hide SessionOk, RowOk, PathOk, HistoryOk, HasSession;
    var w' := w.(roundRobin := roundRobin);
    assert forall i :: 0 <= i < |w.sessions| && SessionAt(env, w, i) ==> SessionAt(env, w', i);
    assert forall k :: k in w.db.clients && RowAt(env, w, k) ==> RowAt(env, w', k);
  }

  lemma PushOnceKeeps(env: Env, w: World, tick: Tick)
    requires Inv(env, w)
    ensures Inv(env, PushOnce(env, w, tick).world)
  {
    hide Inv, PushTo;
    ExpireKeeps(env, w, tick.expireAt);
    var expired := ExpirePendingAcks(w, tick.expireAt);
    if expired.sessions != [] {
      var n := |expired.sessions|;
      var visited := expired.roundRobin % n;
      TurnKeeps(env, expired, (visited + 1) % n);
      PushToKeeps(env, expired.(roundRobin := (visited + 1) % n), visited, tick);
    }
  }

  // -- storing a post --------------------------------------------------------

  lemma EffectKeeps(env: Env, w: World, i: nat, timestamp: int)
    requires Inv(env, w) && i < |w.sessions|
    requires w.sessions[i].lastTimestamp == timestamp
    requires
      var effects := w.log.LifeOf(w.sessions[i].key).effects;
      forall j :: 0 <= j < |effects| ==> effects[j] < timestamp
    ensures Inv(env, WithEffect(w, w.sessions[i].key, timestamp))
  {
    hide Inv, RowOk, PathOk, Owed, AcksPush;
    AtSession(env, w, i);
    OneClientStep(env, w, WithEffect(w, w.sessions[i].key, timestamp), i);
  }

  // The new timestamp is above every timestamp the room ever issued, whatever the clock
  // says: the newest post is always still in the table.
  lemma NextPostTsIsNew(history: seq<Post>, posts: seq<Post>, now: int)
    requires HistoryOk(history, posts)
    ensures forall i :: 0 <= i < |history| ==> history[i].ts < NextPostTs(posts, now)
  {
    if history != [] {
      var last := history[|history| - 1];
      assert posts[|posts| - 1] == last && last in posts;
    }
  }

  // Retention never removes the post just added.
  lemma StoredHistoryOk(history: seq<Post>, posts: seq<Post>, post: Post, clients: Clients, settings: Settings, now: int)
    returns (dropped: nat)
    requires HistoryOk(history, posts) && settings.Valid()
    requires post.ts == NextPostTs(posts, now) && StorableText(post.text)
    ensures
      var olderThan := if settings.postRetention.Some? then Some(now - settings.postRetention.value) else None;
      var kept := PrunePosts(posts + [post], clients, olderThan, settings.maxPosts);
      && dropped <= |posts|
      && kept == (posts + [post])[dropped..]
      && HistoryOk(history + [post], kept)
      && forall i :: 0 <= i < dropped ==> AtOrBelowFloor(clients, posts[i].ts)
  {
    hide StorableText, PrunePosts, NextPostTs;
    var olderThan := if settings.postRetention.Some? then Some(now - settings.postRetention.value) else None;
    NextPostTsIsNew(history, posts, now);
    var cut := |history| - |posts|;
    var all := posts + [post];
    assert all == (history + [post])[cut..];
    assert Increasing(history + [post]);
    dropped := PruneDropsPrefix(all, clients, olderThan, settings.maxPosts);
    assert !Doomed(all[|posts|], 1, clients, olderThan, settings.maxPosts);
    forall i | 0 <= i < dropped ensures AtOrBelowFloor(clients, posts[i].ts) {
      assert all[i] == posts[i];
    }
    assert all[dropped..] == (history + [post])[cut + dropped..];
  }

  // A row that survives keeps its acknowledged posts and loses none it is owed.
  lemma RowAfterStore(history: seq<Post>, posts: seq<Post>, post: Post, dropped: nat, key: Key, row: Row, track: Track)
    requires HistoryOk(history, posts) && RowOk(history, |history| - |posts|, key, row, track)
    requires dropped <= |posts| && forall i :: 0 <= i < dropped ==> posts[i].ts <= row.syncSince
    requires forall i :: 0 <= i < |history| ==> history[i].ts < post.ts
    ensures RowOk(history + [post], |history| - |posts| + dropped, key, row, track)
    ensures Owed((posts + [post])[dropped..], key, row.syncSince)
         == Owed(posts, key, row.syncSince) + Owed([post], key, row.syncSince)
  {
    var cut := |history| - |posts|;
    forall i | track.from <= i < cut + dropped ensures (history + [post])[i].ts <= row.syncSince {
      if i >= cut {
        assert history[i] == posts[i - cut];
      }
    }
    assert (history + [post])[track.from..] == history[track.from..] + [post];
    SelectConcat(history[track.from..], [post], key, track.claim, row.syncSince);
    SelectEmpty([post], key, track.claim, row.syncSince);
    OwedAfterDrop(posts + [post], dropped, key, row.syncSince);
    OwedConcat(posts, [post], key, row.syncSince);
  }

  lemma KeepSessionsDistinct(sessions: seq<Session>, forgotten: set<Key>)
    requires Distinct(sessions)
    ensures Distinct(KeepSessions(sessions, forgotten))
  {
    if sessions != [] {
      KeepSessionsDistinct(sessions[1..], forgotten);
      var rest := KeepSessions(sessions[1..], forgotten);
      forall j | 0 <= j < |rest| ensures rest[j].key != sessions[0].key {
        assert rest[j] in sessions[1..];
      }
    }
  }

  lemma SessionAfterStore(env: Env, posts: seq<Post>, posts': seq<Post>, more: seq<Post>, row: Row, life: Life, s: Session)
    requires SessionOk(env, posts, row, life, s)
    requires Owed(posts', s.key, s.syncSince) == Owed(posts, s.key, s.syncSince) + more
    ensures SessionOk(env, posts', row, life, s)
  {
    hide Owed, AcksPush, PathOk;
  }

  lemma StorePostKeeps(env: Env, w: World, author: Key, text: string, now: int, sweptAt: int)
    requires Inv(env, w) && StorableText(text)
    ensures Inv(env, StorePost(w, author, text, now, sweptAt))
  {
    hide StorableText, SessionOk, RowOk, PathOk, Owed, PrunePosts, NextPostTs, AtOrBelowFloor;
    var post := Post(NextPostTs(w.db.posts, now), author, text);
    var clients := RetainedClients(w.settings, w.db.clients, w.sessions, sweptAt);
    var w' := StorePost(w, author, text, now, sweptAt);
    var dropped := StoredHistoryOk(w.log.history, w.db.posts, post, clients, w.settings, now);
    NextPostTsIsNew(w.log.history, w.db.posts, now);
    var forgotten := w.db.clients.Keys - clients.Keys;
    KeepSessionsDistinct(w.sessions, forgotten);
    forall k | k in clients
      ensures RowAt(env, w', k)
      ensures Owed(w'.db.posts, k, clients[k].syncSince)
           == Owed(w.db.posts, k, clients[k].syncSince) + Owed([post], k, clients[k].syncSince)
    {
      assert RowAt(env, w, k);
      FloorBelowCursor(clients, w.db.posts[..dropped], k);
      RowAfterStore(w.log.history, w.db.posts, post, dropped, k, clients[k], w.log.tracks[k]);
      if env.usable(k) {
        var j :| 0 <= j < |w.sessions| && w.sessions[j].key == k;
        assert w.sessions[j] in w.sessions && w.sessions[j] in w'.sessions;
      }
    }
    forall i | 0 <= i < |w'.sessions| ensures SessionAt(env, w', i) {
      var s := w'.sessions[i];
      assert s in w'.sessions && s in w.sessions;
      var j :| 0 <= j < |w.sessions| && w.sessions[j] == s;
      AtSession(env, w, j);
      MatchesCursor(env, w.db.posts, w.db.clients[s.key], w.log.lives[s.key], s);
      SessionAfterStore(env, w.db.posts, w'.db.posts, Owed([post], s.key, s.syncSince),
                        clients[s.key], w.log.lives[s.key], s);
    }
  }

  lemma MatchesCursor(env: Env, posts: seq<Post>, row: Row, life: Life, s: Session)
    requires SessionOk(env, posts, row, life, s)
    ensures s.syncSince == row.syncSince
  {
  }

  lemma FloorBelowCursor(clients: Clients, posts: seq<Post>, key: Key)
    requires key in clients && forall i :: 0 <= i < |posts| ==> AtOrBelowFloor(clients, posts[i].ts)
    ensures forall i :: 0 <= i < |posts| ==> posts[i].ts <= clients[key].syncSince
  {
    forall i | 0 <= i < |posts| ensures posts[i].ts <= clients[key].syncSince {
      assert AtOrBelowFloor(clients, posts[i].ts);
    }
  }

  // -- handlers --------------------------------------------------------------

  lemma PostTextStorable(env: Env, raw: seq<Byte>)
    requires env.Sound() && 0 !in raw
    ensures StorableText(PostText(env.lossy(raw)))
  {
    hide Utf8.Encode;
    assert PostText(env.lossy(raw)) <= env.lossy(raw);
  }

  lemma OnTextKeeps(env: Env, w: World, key: Key, m: TextMessage, clock: Readings)
    requires env.Sound() && Inv(env, w) && m.Valid() && 0 !in m.Body()
    ensures Inv(env, OnText(env, w, key, m, clock).world)
  {
    hide Inv, StorableText, StorePost, RowOk, SlotOk, PathOk, PostText;
    var found := Find(w.sessions, key);
    if found != None && !m.txtType.SignedPlain? && m.timestamp >= w.sessions[found.value].lastTimestamp {
      var i := found.value;
      AtSession(env, w, i);
      var heard := Heard(w, i, m.timestamp, clock.heardAt);
      HeardKeeps(env, w, i, m.timestamp, clock.heardAt);
      if m.timestamp != w.sessions[i].lastTimestamp {
        assert heard.log.LifeOf(key).effects == w.log.lives[key].effects;
        EffectKeeps(env, heard, i, m.timestamp);
        var done := WithEffect(heard, key, m.timestamp);
        if m.txtType.CliData? {
          if env.console(m.Body()).RoomPost? {
            PostTextStorable(env, env.console(m.Body()).message);
            StorePostKeeps(env, done, env.roomKey, PostText(env.lossy(env.console(m.Body()).message)),
                           clock.storedAt, clock.sweptAt);
          }
        } else {
          PostTextStorable(env, m.Body());
          StorePostKeeps(env, done, key, PostText(env.lossy(m.Body())), clock.storedAt, clock.sweptAt);
        }
      }
    }
  }

  lemma OnRequestKeeps(env: Env, w: World, key: Key, request: ServerRequest, direct: bool, now: int)
    requires Inv(env, w) && request.Valid()
    ensures Inv(env, OnRequest(env, w, key, request, direct, now).world)
  {
    hide Inv;
    var found := Find(w.sessions, key);
    if found != None && request.timestamp >= w.sessions[found.value].lastTimestamp {
      HeardKeeps(env, w, found.value, request.timestamp, now);
      KeepAliveKeeps(env, Heard(w, found.value, request.timestamp, now), found.value, request);
    }
  }

  lemma LoginKeeps(env: Env, w: World, key: Key, login: LoginRequest, flood: bool, now: int)
    requires Inv(env, w)
    ensures Inv(env, Login(env, w, key, login, flood, now).world)
  {
    hide Inv, RowOk, RecordLogin, LoggedIn, Resolve, Find;
    var e := Login(env, w, key, login, flood, now);
    var found := Find(w.sessions, key);
    if e.world != w {
      CutInRange(env, w);
      if found.Some? {
        KnownLoginKeeps(env, w, key, login, flood, now);
      } else {
        NewLoginKeeps(env, w, key, login, flood, now);
      }
    }
  }

  lemma KnownLoginKeeps(env: Env, w: World, key: Key, login: LoginRequest, flood: bool, now: int)
    requires Inv(env, w) && 0 <= w.Cut() <= |w.log.history| && Find(w.sessions, key).Some?
    requires Login(env, w, key, login, flood, now).world != w
    ensures Inv(env, Login(env, w, key, login, flood, now).world)
  {
    hide Inv, RowOk, Owed, AcksPush, Resolve, SplitWelcome, Find;
    var w' := Login(env, w, key, login, flood, now).world;
    var i := Find(w.sessions, key).value;
    FreshClaim(w.log.history, w.Cut(), key, w'.db.clients[key]);
    AtSession(env, w, i);
    OneClientStep(env, w, w', i);
  }

  lemma NewLoginKeeps(env: Env, w: World, key: Key, login: LoginRequest, flood: bool, now: int)
    requires Inv(env, w) && 0 <= w.Cut() <= |w.log.history| && Find(w.sessions, key) == None
    requires Login(env, w, key, login, flood, now).world != w
    ensures Inv(env, Login(env, w, key, login, flood, now).world)
  {
    hide Inv, RowOk, Owed, AcksPush, Resolve, SplitWelcome, Find;
    var w' := Login(env, w, key, login, flood, now).world;
    FreshClaim(w.log.history, w.Cut(), key, w'.db.clients[key]);
    UnknownHasNoRow(env, w, key);
    NewClientKeeps(env, w, w', key);
  }

  lemma CutInRange(env: Env, w: World)
    requires Inv(env, w)
    ensures 0 <= w.Cut() <= |w.log.history|
  {
    hide SessionAt, RowAt;
  }

  // A client without a session has no row either, unless its key is unusable.
  lemma UnknownHasNoRow(env: Env, w: World, key: Key)
    requires Inv(env, w) && Find(w.sessions, key) == None && env.usable(key)
    ensures key !in w.db.clients
  {
    hide SessionAt, RowOk, PathOk, HistoryOk;
    assert key in w.db.clients ==> RowAt(env, w, key);
  }

  // `w'` is `w` with a session, a row, a track and a life for the client `key` added.
  ghost predicate AddsClient(w: World, w': World, key: Key) {
    && |w'.sessions| == |w.sessions| + 1
    && w'.sessions[..|w.sessions|] == w.sessions
    && w'.sessions[|w.sessions|].key == key
    && w'.settings == w.settings && w'.db.posts == w.db.posts && w'.log.history == w.log.history
    && w'.db.clients.Keys == w.db.clients.Keys + {key}
    && (forall k :: k in w.db.clients && k != key ==> w'.db.clients[k] == w.db.clients[k])
    && (forall k :: k != key && k in w.log.tracks ==> k in w'.log.tracks && w'.log.tracks[k] == w.log.tracks[k])
    && (forall k :: k != key && k in w.log.lives ==> k in w'.log.lives && w'.log.lives[k] == w.log.lives[k])
    && key in w'.log.lives && key in w'.log.tracks
  }

  lemma NewClientSession(env: Env, w: World, w': World, key: Key, i: nat)
    requires Inv(env, w) && Find(w.sessions, key) == None && AddsClient(w, w', key)
    requires i < |w'.sessions| && (i == |w.sessions| ==> SessionAt(env, w', i))
    ensures SessionAt(env, w', i)
  {
    hide RowAt, SessionOk;
    if i < |w.sessions| {
      assert SessionAt(env, w, i) && w'.sessions[i] == w.sessions[i];
    }
  }

  lemma NewClientRow(env: Env, w: World, w': World, key: Key, k: Key)
    requires Inv(env, w) && AddsClient(w, w', key) && k in w.db.clients && k != key
    ensures RowAt(env, w', k)
  {
    hide SessionAt, RowOk, PathOk, HasSession;
    assert RowAt(env, w, k);
    MoreSessions(w.sessions, w'.sessions, k);
  }

  lemma NewClientKeeps(env: Env, w: World, w': World, key: Key)
    requires Inv(env, w) && Find(w.sessions, key) == None && key !in w.db.clients && AddsClient(w, w', key)
    requires PathOk(w'.db.clients[key].outPath, w'.db.clients[key].outPathLen)
    requires SessionOk(env, w'.db.posts, w'.db.clients[key], w'.log.lives[key], w'.sessions[|w.sessions|])
    requires RowOk(w'.log.history, w'.Cut(), key, w'.db.clients[key], w'.log.tracks[key])
    ensures Inv(env, w')
  {
    hide SessionOk, RowOk, HistoryOk, PathOk, HasSession, Distinct, SessionAt, RowAt, Find;
    assert Distinct(w'.sessions) by {
      DistinctWith(w.sessions, w'.sessions);
    }
    assert w'.sessions[|w.sessions|].key == key && SessionAt(env, w', |w.sessions|) by {
      NewSessionAt(env, w', |w.sessions|);
    }
    forall i | 0 <= i < |w'.sessions| ensures SessionAt(env, w', i) {
      NewClientSession(env, w, w', key, i);
    }
    forall k | k in w'.db.clients ensures RowAt(env, w', k) {
      if k == key {
        MoreSessions(w.sessions, w'.sessions, key);
        NewRowAt(env, w', key);
      } else {
        NewClientRow(env, w, w', key, k);
      }
    }
  }

  lemma NewSessionAt(env: Env, w: World, i: nat)
    requires i < |w.sessions| && w.sessions[i].key in w.db.clients && w.sessions[i].key in w.log.lives
    requires SessionOk(env, w.db.posts, w.db.clients[w.sessions[i].key], w.log.lives[w.sessions[i].key], w.sessions[i])
    ensures SessionAt(env, w, i)
  {
    hide SessionOk;
  }

  lemma NewRowAt(env: Env, w: World, key: Key)
    requires key in w.db.clients && key in w.log.tracks && HasSession(w.sessions, key)
    requires PathOk(w.db.clients[key].outPath, w.db.clients[key].outPathLen)
    requires RowOk(w.log.history, w.Cut(), key, w.db.clients[key], w.log.tracks[key])
    ensures RowAt(env, w, key)
  {
    hide RowOk, PathOk, HasSession;
  }

  lemma DistinctWith(sessions: seq<Session>, sessions': seq<Session>)
    requires |sessions'| == |sessions| + 1 && sessions'[..|sessions|] == sessions
    requires Distinct(sessions) && Find(sessions, sessions'[|sessions|].key) == None
    ensures Distinct(sessions')
  {
    hide Find;
    assert forall i :: 0 <= i < |sessions| ==> sessions'[i] == sessions[i];
  }

  lemma MoreSessions(sessions: seq<Session>, sessions': seq<Session>, key: Key)
    requires |sessions'| == |sessions| + 1 && sessions'[..|sessions|] == sessions
    ensures HasSession(sessions', key) <==> HasSession(sessions, key) || sessions'[|sessions|].key == key
  {
    assert forall i :: 0 <= i < |sessions| ==> sessions'[i] == sessions[i];
  }

  lemma ApplySettingsKeeps(env: Env, w: World, settings: Settings)
    requires Inv(env, w) && settings.Valid()
    ensures Inv(env, ApplySettings(w, settings))
  {
    hide RowOk, PathOk, HistoryOk, Owed, AcksPush, Resettled;
    var w' := ApplySettings(w, settings);
    forall i | 0 <= i < |w'.sessions| ensures SessionAt(env, w', i) {
      assert SessionAt(env, w, i);
    }
    forall k | k in w'.db.clients ensures RowAt(env, w', k) {
      assert RowAt(env, w, k);
      SameKeys(w.sessions, w'.sessions, k);
    }
  }

  lemma {:induction false} ResumeMembers(env: Env, settings: Settings, clients: Clients, listing: seq<Key>)
    requires forall k :: k in listing ==> k in clients
    requires forall i, j :: 0 <= i < j < |listing| ==> listing[i] != listing[j]
    ensures
      var sessions := Resume(env, settings, clients, listing);
      && Distinct(sessions)
      && (forall i :: 0 <= i < |sessions| ==>
           && sessions[i].key in listing && env.usable(sessions[i].key)
           && sessions[i] == Resumed(settings, sessions[i].key, clients[sessions[i].key]))
  {
    hide Resumed;
    if listing != [] {
      ResumeMembers(env, settings, clients, listing[1..]);
      ResumedKey(settings, listing[0], clients[listing[0]]);
    }
  }

  // Every listed client with a usable key gets its session back.
  lemma {:induction false} ResumeCovers(env: Env, settings: Settings, clients: Clients, listing: seq<Key>, key: Key)
    requires forall k :: k in listing ==> k in clients
    requires key in listing && env.usable(key)
    ensures HasSession(Resume(env, settings, clients, listing), key)
  {
    hide Resumed;
    var first, rest := listing[0], Resume(env, settings, clients, listing[1..]);
    ResumedKey(settings, first, clients[first]);
    var sessions := Resume(env, settings, clients, listing);
    if key == first {
      assert sessions[0].key == key;
    } else {
      Seqs.Uncons(listing);
      ResumeCovers(env, settings, clients, listing[1..], key);
      var j :| 0 <= j < |rest| && rest[j].key == key;
      assert sessions[if env.usable(first) then j + 1 else j].key == key;
    }
  }

  lemma ResumedKey(settings: Settings, key: Key, row: Row)
    ensures Resumed(settings, key, row).key == key
  {
  }

  lemma RestartKeeps(env: Env, w: World, settings: Settings, listing: seq<Key>, now: int)
    requires Inv(env, w) && settings.Valid()
    requires IsListing(ClientsAtStart(w, settings, now), listing)
    ensures Inv(env, Restart(env, w, settings, listing, now))
  {
    hide RowOk, HistoryOk, Resume, PathOk, ResolveWithoutPassword;
    var clients := ClientsAtStart(w, settings, now);
    var w' := Restart(env, w, settings, listing, now);
    ResumeMembers(env, settings, clients, listing);
    forall i | 0 <= i < |w'.sessions| ensures SessionAt(env, w', i) {
      var key := w'.sessions[i].key;
      assert w'.sessions[i] in w'.sessions;
      assert RowAt(env, w, key);
    }
    forall k | k in clients ensures RowAt(env, w', k) {
      assert RowAt(env, w, k);
      if env.usable(k) {
        ResumeCovers(env, settings, clients, listing, k);
      }
    }
  }
}
