// Runs from an empty database that end where the documentation says none does.
module RoomWitness {
  import opened Bytes
  import opened Wrappers
  import opened Crypto
  import opened Packet
  import opened Posts
  import opened Sync
  import opened Repo
  import opened Acl
  import opened RoomSpec
  import opened RoomInvariant
  import opened RoomRuns
  import opened RoomSchedule
  import opened RoomQuiet
  import opened RoomProgress
  import opened RoomEdges

  // -- two clients, one post ---------------------------------------------------

  // Client `key` is granted a role, and `author`, another, may post `body`.
  predicate Cast(env: Env, settings: Settings, key: Key, author: Key, body: seq<Byte>) {
    && key != author && env.usable(key) && Resolve(settings, key, []).Some?
    && CanPost(env, settings, author, body)
  }

  // Nothing is in flight.
  predicate Idle(w: World) {
    forall i :: 0 <= i < |w.sessions| ==> w.sessions[i].pendingAck == None
  }

  function PathAt(key: Key, path: seq<Byte>, hashSize: int, now: int): (e: Event)
    requires PathReturn(path, hashSize, 0xFF, []).Valid()
    ensures e.PathIn?
  {
    PathIn(key, PathReturn(path, hashSize, 0xFF, []).Encode(), now)
  }

  lemma PathStep(env: Env, w: World, key: Key, path: seq<Byte>, hashSize: int, now: int)
    requires PathReturn(path, hashSize, 0xFF, []).Valid() && Find(w.sessions, key).Some?
    ensures BundledAck(PathAt(key, path, hashSize, now).plaintext) == None
    ensures Step(env, w, PathAt(key, path, hashSize, now))
         == LearnPath(w, Find(w.sessions, key).value, PathReturn(path, hashSize, 0xFF, []), now)
  {
    hide LearnPath, DecodePathReturn;
    PathReturnRoundTrip(PathReturn(path, hashSize, 0xFF, []));
  }

  // What the runs below share: `key` logs in, sends a path, `author` logs in and posts.
  function Opening(key: Key, author: Key, body: seq<Byte>, path: seq<Byte>, hashSize: int, now: int): (events: seq<Event>)
    requires PathReturn(path, hashSize, 0xFF, []).Valid()
  {
    [LoginAt(key, 1, 1, now), PathAt(key, path, hashSize, now), LoginAt(author, 1, 1, now),
     TextAt(author, 2, body, Readings(now, now, now))]
  }

  // Its end: `key`, at the first place, is owed the one post.
  ghost predicate Opened(w: World, settings: Settings, key: Key, author: Key, text: string, path: seq<Byte>,
                         packed: int, now: int) {
    && w.settings == settings && w.roundRobin == 0 && Idle(w)
    && w.db.posts == [Post(now, author, text)]
    && key in w.db.clients && w.db.clients[key].syncSince == 1 && w.db.clients[key].lastActivity == now
    && |w.sessions| == 2 && w.sessions[0].key == key && w.sessions[1].key == author
    && w.sessions[1].lastTimestamp == 2 && w.sessions[1].role.MayPost()
    && var s := w.sessions[0];
       && s.syncSince == 1 && s.lastActivity == now && s.pushFailures == 0 && s.welcome == []
       && s.outPath == path && s.outPathLen == packed
  }

  function Newcomer(key: Key, grant: Grant, now: int): (s: Session) {
    Session(key, grant.role, grant.source, 1, 1, [], OUT_PATH_UNKNOWN, now, None, 0, false, 0.0, 0, [])
  }

  lemma FreshLogin(env: Env, w: World, key: Key, now: int)
    requires env.usable(key) && Resolve(w.settings, key, []).Some? && Find(w.sessions, key) == None
    ensures
      var w' := Step(env, w, LoginAt(key, 1, 1, now));
      && w'.sessions == w.sessions + [Newcomer(key, Resolve(w.settings, key, []).value, now)]
      && w'.settings == w.settings && w'.roundRobin == w.roundRobin
      && w'.db.posts == w.db.posts && w'.log.history == w.log.history
      && w'.db.clients.Keys == w.db.clients.Keys + {key}
      && (forall k :: k in w.db.clients && k != key ==> w'.db.clients[k] == w.db.clients[k])
      && w'.db.clients[key].syncSince == 1 && w'.db.clients[key].lastActivity == now
  {
    hide Resolve, Find;
    LoginStep(env, w, key, 1, 1, now);
  }

  lemma AllRecent(settings: Settings, clients: Clients, sessions: seq<Session>, sweptAt: int)
    requires forall k :: k in clients ==> RecentLogin(settings, clients[k], sweptAt)
    ensures RetainedClients(settings, clients, sessions, sweptAt) == clients
  {
    hide InFlightKeys;
  }

  lemma {:induction false} KeepAll(sessions: seq<Session>)
    ensures KeepSessions(sessions, {}) == sessions
  {
    if sessions != [] {
      KeepAll(sessions[1..]);
    }
  }

  // Storing a post when every client logged in lately touches no session and no row.
  lemma NobodyForgotten(w: World, author: Key, text: string, now: int, sweptAt: int)
    requires forall k :: k in w.db.clients ==> RecentLogin(w.settings, w.db.clients[k], sweptAt)
    ensures
      var w' := StorePost(w, author, text, now, sweptAt);
      && w'.sessions == w.sessions && w'.db.clients == w.db.clients
      && w'.settings == w.settings && w'.roundRobin == w.roundRobin
      && w'.log.history == w.log.history + [Post(NextPostTs(w.db.posts, now), author, text)]
  {
    hide RecentLogin, RetainedClients, KeepSessions, PrunePosts, NextPostTs;
    AllRecent(w.settings, w.db.clients, w.sessions, sweptAt);
    KeepAll(w.sessions);
    assert w.db.clients.Keys - w.db.clients.Keys == {};
  }

  // The first three events.
  lemma BothIn(env: Env, settings: Settings, key: Key, author: Key, path: seq<Byte>, hashSize: int, now: int)
    requires PathReturn(path, hashSize, 0xFF, []).Valid()
    requires key != author && env.usable(key) && env.usable(author)
    requires Resolve(settings, key, []).Some? && Resolve(settings, author, []).Some?
    ensures
      var w1 := Step(env, Empty(settings), LoginAt(key, 1, 1, now));
      var w2 := Step(env, w1, PathAt(key, path, hashSize, now));
      var w := Step(env, w2, LoginAt(author, 1, 1, now));
      && w.settings == settings && w.roundRobin == 0 && w.db.posts == [] && w.log.history == []
      && w.sessions == [Newcomer(key, Resolve(settings, key, []).value, now)
                          .(outPath := path, outPathLen := PathReturn(path, hashSize, 0xFF, []).PackedLength()),
                        Newcomer(author, Resolve(settings, author, []).value, now)]
      && w.db.clients.Keys == {key, author}
      && w.db.clients[key].syncSince == 1
      && w.db.clients[key].lastActivity == now && w.db.clients[author].lastActivity == now
  {
    hide Resolve, Step, PathReturn.PackedLength;
    var w0 := Empty(settings);
    assert CanHappen(w0, LoginAt(key, 1, 1, now));
    FreshLogin(env, w0, key, now);
    var w1 := Step(env, w0, LoginAt(key, 1, 1, now));
    assert w1.sessions[0].key == key;
    FoundFirst(w1.sessions, key, 0);
    PathStep(env, w1, key, path, hashSize, now);
    var w2 := Step(env, w1, PathAt(key, path, hashSize, now));
    assert |w2.sessions| == 1 && w2.sessions[0].key == key;
    assert Find(w2.sessions, author) == None;
    FreshLogin(env, w2, author, now);
  }

  lemma OpeningIsRun(env: Env, settings: Settings, key: Key, author: Key, body: seq<Byte>, path: seq<Byte>,
                     hashSize: int, now: int)
    requires settings.Valid() && (settings.clientRetention.Some? ==> settings.clientRetention.value >= 0)
    requires env.Sound() && Cast(env, settings, key, author, body) && PathReturn(path, hashSize, 0xFF, []).Valid()
    ensures
      var events := Opening(key, author, body, path, hashSize, now);
      && IsRun(env, Empty(settings), events)
      && var w := Run(env, Empty(settings), events);
         && Inv(env, w)
         && Opened(w, settings, key, author, PostText(env.lossy(body)), path,
                   PathReturn(path, hashSize, 0xFF, []).PackedLength(), now)
  {
    hide Resolve, Step, PathReturn.PackedLength, Inv, Opening, LoginAt, TextAt, PathAt, PostText;
    var events := Opening(key, author, body, path, hashSize, now);
    OpeningSteps(env, settings, key, author, body, path, hashSize, now);
    EveryRunKeepsTheInvariant(env, settings, events);
    OnePost(env, Run(env, Empty(settings), events));
  }

  lemma OnePost(env: Env, w: World)
    requires Inv(env, w) && |w.log.history| == 1
    ensures w.db.posts == w.log.history
  {
    hide SessionAt, RowAt, StorableText;
  }

  lemma OpeningSteps(env: Env, settings: Settings, key: Key, author: Key, body: seq<Byte>, path: seq<Byte>,
                     hashSize: int, now: int)
    requires (settings.clientRetention.Some? ==> settings.clientRetention.value >= 0)
    requires Cast(env, settings, key, author, body) && PathReturn(path, hashSize, 0xFF, []).Valid()
    ensures
      var events := Opening(key, author, body, path, hashSize, now);
      && IsRun(env, Empty(settings), events)
      && var w := Run(env, Empty(settings), events);
         && w.log.history == [Post(now, author, PostText(env.lossy(body)))]
         && (w.db.posts == w.log.history ==>
               Opened(w, settings, key, author, PostText(env.lossy(body)), path,
                      PathReturn(path, hashSize, 0xFF, []).PackedLength(), now))
  {
    hide Resolve, Step, PathReturn.PackedLength, LoginAt, TextAt, PathAt, PostText, StorePost;
    var events := Opening(key, author, body, path, hashSize, now);
    BothIn(env, settings, key, author, path, hashSize, now);
    FourSteps(env, Empty(settings), events);
    var w3 := Step(env, Step(env, Step(env, Empty(settings), events[0]), events[1]), events[2]);
    assert w3.sessions[1].key == author && w3.sessions[0].key == key;
    FoundFirst(w3.sessions, author, 1);
    TextStored(env, w3, author, 2, body, Readings(now, now, now));
    var done := WithEffect(Heard(w3, 1, 2, now), author, 2);
    NobodyForgotten(done, author, PostText(env.lossy(body)), now, now);
  }

  // -- a path too long for a packet --------------------------------------------

  // A client may send a path of 126 bytes. From then on, whenever it is its turn and it is
  // owed a settled post, the push step raises: here after five events, the first four of
  // them from two clients doing nothing else.
  lemma LongPathEndsTheProcess(env: Env, settings: Settings, key: Key, author: Key, body: seq<Byte>, now: int, tick: Tick)
    requires settings.Valid() && (settings.clientRetention.Some? ==> settings.clientRetention.value >= 0)
    requires env.Sound() && Cast(env, settings, key, author, body) && env.timings.maxPushFailures > 0
    requires 1 < now <= tick.now - env.timings.postSyncDelay
    ensures PathReturn(Zeros(126), 2, 0xFF, []).Valid()
    ensures
      var events := Opening(key, author, body, Zeros(126), 2, now);
      IsRun(env, Empty(settings), events) && PushOnce(env, Run(env, Empty(settings), events), tick).outcome == Raised
  {
    hide Run, IsRun, Inv, Opening, PushOnce;
    var p := PathReturn(Zeros(126), 2, 0xFF, []);
    assert p.Valid() && p.PackedLength() == 127;
    OpeningIsRun(env, settings, key, author, body, Zeros(126), 2, now);
    var w := Run(env, Empty(settings), Opening(key, author, body, Zeros(126), 2, now));
    PostsIncrease(env, w);
    RaisesExactly(env, w, tick);
    FirstIsOwed(w, key, author, PostText(env.lossy(body)), now);
    assert Visited(w) == 0 by {
      FirstPlace(w);
    }
  }

  lemma FirstPlace(w: World)
    requires w.roundRobin == 0 && w.sessions != []
    ensures Visited(w) == 0
  {
  }

  lemma FirstIsOwed(w: World, key: Key, author: Key, text: string, now: int)
    requires w.db.posts == [Post(now, author, text)] && key != author && now > 1
    ensures Owed(w.db.posts, key, 1) == [Post(now, author, text)]
  {
    assert w.db.posts[1..] == [];
  }

  // The path is in the database, so a restart does not help: the next turn of that client
  // raises again.
  lemma RaisesAfterRestart(env: Env, w: World, settings: Settings, listing: seq<Key>, now: int, tick: Tick)
    requires Inv(env, w) && settings.Valid() && IsListing(ClientsAtStart(w, settings, now), listing)
    requires Restart(env, w, settings, listing, now).sessions != [] && env.timings.maxPushFailures > 0
    requires
      var w' := Restart(env, w, settings, listing, now);
      var key := w'.sessions[Visited(w')].key;
      && key in w.db.clients
      && var row := w.db.clients[key];
         && row.lastActivity != 0 && row.outPathLen != OUT_PATH_UNKNOWN && |row.outPath| > MAX_PATH_SIZE
         && Owed(w.db.posts, key, row.syncSince) != []
         && Owed(w.db.posts, key, row.syncSince)[0].ts <= tick.now - env.timings.postSyncDelay
    ensures PushOnce(env, Restart(env, w, settings, listing, now), tick).outcome == Raised
  {
    hide Inv, Owed, PushOnce, Visited, ResolveWithoutPassword, RetainedClients;
    var w' := Restart(env, w, settings, listing, now);
    ResumeMembers(env, settings, ClientsAtStart(w, settings, now), listing);
    PostsIncrease(env, w);
    RaisesExactly(env, w', tick);
  }

  // -- a client that is owed a post --------------------------------------------

  // With idle clients kept for ten seconds: a client that logged in at 5 and was heard at
  // 99, in a run of the room, is owed a post and forgotten at 100.
  lemma OwedClientForgotten(env: Env, settings: Settings, key: Key, author: Key, body: seq<Byte>)
    requires settings.Valid() && settings.clientRetention == Some(10)
    requires env.Sound() && Cast(env, settings, key, author, body)
    ensures PathReturn([], 1, 0xFF, []).Valid()
    ensures
      var opening := Opening(key, author, body, [], 1, 5);
      && IsRun(env, Empty(settings), opening)
      && var w := Step(env, Run(env, Empty(settings), opening), PathAt(key, [], 1, 99));
         && key in w.db.clients && w.sessions != [] && w.sessions[0].key == key && w.sessions[0].lastActivity == 99
         && OwedTo(w, 0) == [Post(5, author, PostText(env.lossy(body)))]
         && key !in Step(env, w, TextAt(author, 3, body, Readings(100, 100, 100))).db.clients
  {
    hide Run, IsRun, Inv, Resolve, Opening, Step, PostText, StorePost, PathAt, TextAt;
    OpeningIsRun(env, settings, key, author, body, [], 1, 5);
    var start := Run(env, Empty(settings), Opening(key, author, body, [], 1, 5));
    FoundFirst(start.sessions, key, 0);
    PathStep(env, start, key, [], 1, 99);
    var w := Step(env, start, PathAt(key, [], 1, 99));
    FirstIsOwed(w, key, author, PostText(env.lossy(body)), 5);
    assert w.sessions[0].key == key && w.sessions[1].key == author;
    FoundFirst(w.sessions, author, 1);
    TextStored(env, w, author, 3, body, Readings(100, 100, 100));
    var done := WithEffect(Heard(w, 1, 3, 100), author, 3);
    SurvivesExactly(done, author, PostText(env.lossy(body)), 100, 100, key);
    assert Idle(done);
  }
}
