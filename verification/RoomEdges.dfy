// Where the room does less than a reader may expect, and exactly when.
module RoomEdges {
  import opened Bytes
  import opened Wrappers
  import opened Crypto
  import opened Packet
  import opened Posts
  import opened Sync
  import opened Repo
  import opened Acl
  import opened RoomSpec
  import opened RoomInvariant
  import opened RoomRuns
  import opened RoomQuiet
  import opened RoomProgress

  // -- who is forgotten --------------------------------------------------------

  // A push to `key` is in flight.
  predicate InFlight(w: World, key: Key) {
    exists i :: 0 <= i < |w.sessions| && w.sessions[i].key == key && w.sessions[i].pendingAck.Some?
  }

  // The last login of a client is recent enough, if that matters at all.
  predicate RecentLogin(settings: Settings, row: Row, sweptAt: int) {
    settings.clientRetention == None || row.lastActivity >= sweptAt - settings.clientRetention.value
  }

  // A client survives the storing of a post exactly when its last login is recent enough or
  // a push to it is in flight. Being owed posts does not protect it, nor does having talked
  // since it logged in.
  lemma SurvivesExactly(w: World, author: Key, text: string, now: int, sweptAt: int, key: Key)
    requires key in w.db.clients
    ensures key in StorePost(w, author, text, now, sweptAt).db.clients
      <==> RecentLogin(w.settings, w.db.clients[key], sweptAt) || InFlight(w, key)
  {
    hide PrunePosts, NextPostTs;
    if key in InFlightKeys(w.sessions) {
      var s :| s in w.sessions && s.pendingAck.Some? && s.key == key;
    }
  }

  // And it survives a start exactly when its last login is recent enough: nothing is in
  // flight then.
  lemma SurvivesStartExactly(env: Env, w: World, settings: Settings, listing: seq<Key>, now: int, key: Key)
    requires key in w.db.clients && IsListing(ClientsAtStart(w, settings, now), listing)
    ensures key in Restart(env, w, settings, listing, now).db.clients
      <==> RecentLogin(settings, w.db.clients[key], now)
  {
    hide Resume, FreshLives;
  }

  // Only a login refreshes what those decisions read: whatever else a client sends, its row
  // keeps its last login and the timestamp of it.
  lemma OnlyLoginTouchesActivity(env: Env, w: World, e: Event, key: Key)
    requires CanHappen(w, e) && !e.LoginIn?
    requires key in w.db.clients && key in Step(env, w, e).db.clients
    ensures
      var row, row' := w.db.clients[key], Step(env, w, e).db.clients[key];
      row'.lastActivity == row.lastActivity && row'.lastTimestamp == row.lastTimestamp
  {
    match e {
      case TextIn(sender, plaintext, clock) =>
        if DecodeText(plaintext).Ok? {
          TextKeepsActivity(env, w, sender, DecodeText(plaintext).value, clock, key);
        }
      case RequestIn(sender, plaintext, direct, now) =>
        if DecodeRequest(plaintext).Ok? {
          RequestKeepsActivity(env, w, sender, DecodeRequest(plaintext).value, direct, now, key);
        }
      case PathIn(sender, plaintext, now) =>
        if DecodePathReturn(plaintext).Ok? {
          PathReturnInverse(plaintext);
          PathKeepsActivity(w, sender, DecodePathReturn(plaintext).value, now, key);
        }
      case AckIn(checksum) => AckKeepsActivity(w, checksum, key);
      case PushStep(tick) => PushOnceFrame(env, w, tick);
      case _ =>
    }
  }

  lemma TextKeepsActivity(env: Env, w: World, sender: Key, m: TextMessage, clock: Readings, key: Key)
    requires m.Valid()
    requires key in w.db.clients && key in OnText(env, w, sender, m, clock).world.db.clients
    ensures OnText(env, w, sender, m, clock).world.db.clients[key] == w.db.clients[key]
  {
    hide PrunePosts, NextPostTs, PruneClients, PostText;
  }

  lemma RequestKeepsActivity(env: Env, w: World, sender: Key, request: ServerRequest, direct: bool, now: int, key: Key)
    requires request.Valid() && key in w.db.clients
    ensures key in OnRequest(env, w, sender, request, direct, now).world.db.clients
    ensures
      var row, row' := w.db.clients[key], OnRequest(env, w, sender, request, direct, now).world.db.clients[key];
      row'.lastActivity == row.lastActivity && row'.lastTimestamp == row.lastTimestamp
  {
    hide CountUnsynced, ForceSince;
  }

  lemma PathKeepsActivity(w: World, sender: Key, p: PathReturn, now: int, key: Key)
    requires p.Valid() && key in w.db.clients
    ensures key in OnPathReturn(w, sender, p, now).db.clients
    ensures
      var row, row' := w.db.clients[key], OnPathReturn(w, sender, p, now).db.clients[key];
      row'.lastActivity == row.lastActivity && row'.lastTimestamp == row.lastTimestamp
  {
    hide OnAck;
    match Find(w.sessions, sender) {
      case None =>
      case Some(i) => AckKeepsActivity(LearnPath(w, i, p, now), if |p.extra| >= ACK_LEN then p.extra[..ACK_LEN] else [], key);
    }
  }

  lemma AckKeepsActivity(w: World, checksum: seq<Byte>, key: Key)
    requires key in w.db.clients
    ensures key in OnAck(w, checksum).db.clients
    ensures
      var row, row' := w.db.clients[key], OnAck(w, checksum).db.clients[key];
      row'.lastActivity == row.lastActivity && row'.lastTimestamp == row.lastTimestamp
  {
  }

  // -- what an acknowledgement means -------------------------------------------

  // An acknowledged text has been stored exactly when it is newer than anything the
  // session has taken and not empty. An equal timestamp counts as a retry, whatever kind
  // of message took it before, so an acknowledgement alone does not mean stored.
  lemma AckedTextStoredExactly(env: Env, w: World, key: Key, m: TextMessage, clock: Readings)
    requires m.Valid() && m.txtType.Plain? && Find(w.sessions, key).Some?
    requires OnText(env, w, key, m, clock).sent != []
    ensures
      var s := w.sessions[Find(w.sessions, key).value];
      var text := PostText(env.lossy(m.Body()));
      if m.timestamp > s.lastTimestamp && text != "" then
        OnText(env, w, key, m, clock).world.log.history
          == w.log.history + [Post(NextPostTs(w.db.posts, clock.storedAt), key, text)]
      else
        OnText(env, w, key, m, clock).world.log.history == w.log.history
  {
    hide PrunePosts, NextPostTs, RetainedClients, PostText;
  }

  // For instance: a client that may post sends a request, and then a text in the same
  // second. The text is acknowledged, and lost.
  lemma RequestSwallowsText(env: Env, w: World, i: nat, request: ServerRequest, m: TextMessage, direct: bool,
                            now: int, clock: Readings)
    requires i < |w.sessions| && Find(w.sessions, w.sessions[i].key) == Some(i)
    requires
      var s := w.sessions[i];
      && s.role.MayPost() && s.Addressable()
      && request.Valid() && s.lastTimestamp <= request.timestamp
      && m.Valid() && m.txtType.Plain? && m.timestamp == request.timestamp
    ensures
      var key := w.sessions[i].key;
      var asked := OnRequest(env, w, key, request, direct, now).world;
      var e := OnText(env, asked, key, m, clock);
      e.sent == [TextAck(key, env.prim.AckHash(m.Encode(), key))] && e.world.log.history == w.log.history
  {
    hide OnRequest, OnText, TextMessage.Encode;
    var key := w.sessions[i].key;
    var asked := OnRequest(env, w, key, request, direct, now).world;
    AskedAt(env, w, i, request, direct, now);
    RetryAcknowledged(env, asked, i, m, clock);
  }

  lemma AskedAt(env: Env, w: World, i: nat, request: ServerRequest, direct: bool, now: int)
    requires i < |w.sessions| && Find(w.sessions, w.sessions[i].key) == Some(i)
    requires request.Valid() && w.sessions[i].lastTimestamp <= request.timestamp
    ensures
      var key := w.sessions[i].key;
      var asked := OnRequest(env, w, key, request, direct, now).world;
      && asked.log.history == w.log.history && |asked.sessions| == |w.sessions| && Find(asked.sessions, key) == Some(i)
      && var s, s' := w.sessions[i], asked.sessions[i];
         && s'.key == key && s'.lastTimestamp == request.timestamp && s'.role == s.role
         && s'.outPath == s.outPath && s'.outPathLen == s.outPathLen
  {
    hide CountUnsynced, ForceSince;
    SameKeysFound(w.sessions, OnRequest(env, w, w.sessions[i].key, request, direct, now).world.sessions, w.sessions[i].key);
  }

  lemma RetryAcknowledged(env: Env, w: World, i: nat, m: TextMessage, clock: Readings)
    requires i < |w.sessions| && Find(w.sessions, w.sessions[i].key) == Some(i)
    requires
      var s := w.sessions[i];
      && s.role.MayPost() && s.Addressable()
      && m.Valid() && m.txtType.Plain? && m.timestamp == s.lastTimestamp
    ensures
      var key, e := w.sessions[i].key, OnText(env, w, w.sessions[i].key, m, clock);
      e.sent == [TextAck(key, env.prim.AckHash(m.Encode(), key))] && e.world.log.history == w.log.history
  {
    hide TextMessage.Encode, Find, StorePost, PostText;
  }

  lemma SameKeysFound(sessions: seq<Session>, sessions': seq<Session>, key: Key)
    requires |sessions'| == |sessions| && forall i :: 0 <= i < |sessions| ==> sessions'[i].key == sessions[i].key
    ensures Find(sessions', key) == Find(sessions, key)
  {
  }

  // -- steps of a run, for the runs below --------------------------------------

  function LoginAt(key: Key, timestamp: int, since: int, now: int): (e: Event)
    requires 0 <= timestamp < U32_LIMIT && 0 <= since < U32_LIMIT
    ensures e.LoginIn?
  {
    LoginIn(key, LoginRequest(timestamp, since, []).Encode(), true, now)
  }

  function TextAt(key: Key, timestamp: int, body: seq<Byte>, clock: Readings): (e: Event)
    requires 0 <= timestamp < U32_LIMIT
    ensures e.TextIn?
  {
    TextIn(key, TextMessage(timestamp, Plain, 0, body).Encode(), clock)
  }

  lemma NoPadding(b: seq<Byte>)
    ensures b + Zeros(0) == b
  {
  }

  lemma LoginStep(env: Env, w: World, key: Key, timestamp: int, since: int, now: int)
    requires 0 <= timestamp < U32_LIMIT && 0 <= since < U32_LIMIT
    ensures Step(env, w, LoginAt(key, timestamp, since, now))
         == Login(env, w, key, LoginRequest(timestamp, since, []), true, now).world
  {
    hide Login, DecodeLogin, LoginRequest.Encode;
    var login := LoginRequest(timestamp, since, []);
    LoginSurvivesPadding(login, 0);
    NoPadding(login.Encode());
  }

  lemma TextStep(env: Env, w: World, key: Key, timestamp: int, body: seq<Byte>, clock: Readings)
    requires 0 <= timestamp < U32_LIMIT && 0 !in body
    ensures Step(env, w, TextAt(key, timestamp, body, clock))
         == OnText(env, w, key, TextMessage(timestamp, Plain, 0, body), clock).world
  {
    hide OnText, DecodeText, TextMessage.Encode;
    var m := TextMessage(timestamp, Plain, 0, body);
    PlainTextSurvivesPadding(m, 0);
    NoPadding(m.Encode());
  }

  // A client that is granted a role logs in by flood, claiming to hold some posts.
  lemma LoggedInAt(env: Env, w: World, key: Key, timestamp: int, since: int, now: int)
    requires 0 <= timestamp < U32_LIMIT && 0 < since < U32_LIMIT
    requires env.usable(key) && Resolve(w.settings, key, []).Some?
    requires LastSeen(w, key).Some? ==> LastSeen(w, key).value < timestamp
    ensures
      var w', grant := Step(env, w, LoginAt(key, timestamp, since, now)), Resolve(w.settings, key, []).value;
      && w'.settings == w.settings && w'.db.posts == w.db.posts && w'.log.history == w.log.history
      && w'.roundRobin == w.roundRobin
      && w'.db.clients.Keys == w.db.clients.Keys + {key}
      && (forall k :: k in w.db.clients && k != key ==> w'.db.clients[k] == w.db.clients[k])
      && w'.db.clients[key].syncSince == since && w'.db.clients[key].lastActivity == now
      && Find(w'.sessions, key).Some?
      && var s := w'.sessions[Find(w'.sessions, key).value];
         && s.role == grant.role && s.syncSince == since && s.lastTimestamp == timestamp && s.lastActivity == now
         && s.pendingAck == None && s.pushFailures == 0 && s.outPath == [] && s.outPathLen == OUT_PATH_UNKNOWN
  {
    hide Resolve, Find;
    LoginStep(env, w, key, timestamp, since, now);
    FoundAfterLogin(env, w, key, LoginRequest(timestamp, since, []), now);
  }

  lemma FoundAfterLogin(env: Env, w: World, key: Key, login: LoginRequest, now: int)
    requires env.usable(key) && Resolve(w.settings, key, login.password).Some?
    requires LastSeen(w, key).Some? ==> LastSeen(w, key).value < login.timestamp
    ensures
      var sessions := Login(env, w, key, login, true, now).world.sessions;
      Find(sessions, key) == if Find(w.sessions, key).Some? then Find(w.sessions, key) else Some(|w.sessions|)
  {
    hide Resolve, SplitWelcome, RecordLogin;
    var sessions := Login(env, w, key, login, true, now).world.sessions;
    var i := if Find(w.sessions, key).Some? then Find(w.sessions, key).value else |w.sessions|;
    assert sessions[i].key == key && forall j :: 0 <= j < i ==> sessions[j].key != key;
    FoundFirst(sessions, key, i);
  }

  lemma FoundFirst(sessions: seq<Session>, key: Key, i: nat)
    requires i < |sessions| && sessions[i].key == key && forall j :: 0 <= j < i ==> sessions[j].key != key
    ensures Find(sessions, key) == Some(i)
  {
    var found := Find(sessions, key);
    assert found.Some?;
  }

  // A client that may post sends a text newer than anything it sent, which is not empty.
  lemma TextStored(env: Env, w: World, key: Key, timestamp: int, body: seq<Byte>, clock: Readings)
    requires 0 <= timestamp < U32_LIMIT && 0 !in body && PostText(env.lossy(body)) != ""
    requires LastSeen(w, key).Some? && LastSeen(w, key).value < timestamp
    requires w.sessions[Find(w.sessions, key).value].role.MayPost()
    ensures
      var heard := Heard(w, Find(w.sessions, key).value, timestamp, clock.heardAt);
      Step(env, w, TextAt(key, timestamp, body, clock))
        == StorePost(WithEffect(heard, key, timestamp), key, PostText(env.lossy(body)), clock.storedAt, clock.sweptAt)
  {
    hide StorePost, PostText, Heard, WithEffect;
    TextStep(env, w, key, timestamp, body, clock);
  }

  // -- retention into the future -----------------------------------------------

  // The premise of a run in which someone posts.
  predicate CanPost(env: Env, settings: Settings, key: Key, body: seq<Byte>) {
    && env.usable(key)
    && Resolve(settings, key, []).Some? && Resolve(settings, key, []).value.role.MayPost()
    && 0 !in body && PostText(env.lossy(body)) != ""
  }

  // With a negative retention a post goes in the transaction that stores it, unless someone
  // has yet to receive it, and leaves the table as it was.
  lemma NothingStays(w: World, author: Key, text: string, now: int, sweptAt: int)
    requires w.settings.postRetention.Some? && w.settings.postRetention.value < 0
    requires w.db.posts == [] && forall k :: k in w.db.clients ==> now <= w.db.clients[k].syncSince
    ensures
      var w' := StorePost(w, author, text, now, sweptAt);
      && w'.db.posts == [] && w'.log.history == w.log.history + [Post(now, author, text)] && w'.settings == w.settings
      && w'.db.clients.Keys <= w.db.clients.Keys
  {
    hide KeepSessions;
    var post := Post(now, author, text);
    assert w.db.posts + [post] == [post] && [post][1..] == [];
    var clients := RetainedClients(w.settings, w.db.clients, w.sessions, sweptAt);
    var olderThan := Some(now - w.settings.postRetention.value);
    assert PrunePosts([post], clients, olderThan, w.settings.maxPosts) == [] by {
      assert Doomed(post, 1, clients, olderThan, w.settings.maxPosts);
    }
  }

  // Two posts at one reading of the clock get one timestamp, for every negative retention.
  lemma NegativeRetentionRepeatsTimestamp(w: World, author: Key, text: string, more: string, now: int, sweptAt: int)
    requires w.settings.postRetention.Some? && w.settings.postRetention.value < 0
    requires w.db.posts == [] && forall k :: k in w.db.clients ==> now <= w.db.clients[k].syncSince
    ensures
      var w' := StorePost(StorePost(w, author, text, now, sweptAt), author, more, now, sweptAt);
      w'.log.history == w.log.history + [Post(now, author, text), Post(now, author, more)]
  {
    hide StorePost;
    NothingStays(w, author, text, now, sweptAt);
    StoreKeepsRows(w, author, text, now, sweptAt);
    NothingStays(StorePost(w, author, text, now, sweptAt), author, more, now, sweptAt);
  }

  lemma StoreKeepsRows(w: World, author: Key, text: string, now: int, sweptAt: int)
    ensures
      var clients := StorePost(w, author, text, now, sweptAt).db.clients;
      forall k :: k in clients ==> k in w.db.clients && clients[k] == w.db.clients[k]
  {
    hide PrunePosts, NextPostTs, KeepSessions;
  }

  // A client that logs in, claiming every post up to 7, and posts at 7 on the clock.
  lemma LoginAndPost(env: Env, w: World, key: Key, body: seq<Byte>, timestamp: int)
    requires CanPost(env, w.settings, key, body) && 0 <= timestamp < U32_LIMIT - 1
    requires w.settings.postRetention.Some? && w.settings.postRetention.value < 0
    requires w.db.posts == [] && w.db.clients.Keys <= {key} && AloneUpTo(w, key, timestamp - 1)
    ensures
      var w1 := Step(env, w, LoginAt(key, timestamp, 7, 7));
      var w2 := Step(env, w1, TextAt(key, timestamp + 1, body, Readings(7, 7, 7)));
      && w2.settings == w.settings && w2.db.posts == [] && w2.db.clients.Keys <= {key}
      && w2.log.history == w.log.history + [Post(7, key, PostText(env.lossy(body)))]
      && AloneUpTo(w2, key, timestamp + 1)
  {
    hide Step, Resolve, PostText, StorePost, Find, LoginAt, TextAt;
    AloneSeen(w, key, timestamp - 1);
    var clock := Readings(7, 7, 7);
    var w1 := Step(env, w, LoginAt(key, timestamp, 7, 7));
    LoggedInAt(env, w, key, timestamp, 7, 7);
    TextStored(env, w1, key, timestamp + 1, body, clock);
    var i := Find(w1.sessions, key).value;
    var done := WithEffect(Heard(w1, i, timestamp + 1, 7), key, timestamp + 1);
    NothingStays(done, key, PostText(env.lossy(body)), 7, 7);
    AloneAfterLogin(env, w, key, timestamp, 7, 7);
    AloneAfterStore(done, key, PostText(env.lossy(body)), key, timestamp + 1);
  }

  // At most the one session, of client `key`, which has taken no newer timestamp.
  predicate AloneUpTo(w: World, key: Key, bound: int) {
    |w.sessions| <= 1 && forall i :: 0 <= i < |w.sessions| ==> w.sessions[i].key == key && w.sessions[i].lastTimestamp <= bound
  }

  lemma AloneSeen(w: World, key: Key, bound: int)
    requires AloneUpTo(w, key, bound)
    ensures LastSeen(w, key).Some? ==> LastSeen(w, key).value <= bound
  {
  }

  lemma AloneAfterLogin(env: Env, w: World, key: Key, timestamp: int, since: int, now: int)
    requires 0 <= timestamp < U32_LIMIT && 0 <= since < U32_LIMIT && AloneUpTo(w, key, timestamp - 1)
    ensures AloneUpTo(Step(env, w, LoginAt(key, timestamp, since, now)), key, timestamp)
  {
    hide Resolve, SplitWelcome, RecordLogin;
    LoginStep(env, w, key, timestamp, since, now);
  }

  lemma AloneAfterStore(w: World, author: Key, text: string, key: Key, bound: int)
    requires AloneUpTo(w, key, bound)
    ensures AloneUpTo(StorePost(w, author, text, 7, 7), key, bound)
  {
    hide PrunePosts, NextPostTs, RetainedClients;
    var w' := StorePost(w, author, text, 7, 7);
    KeepShrinks(w.sessions, w.db.clients.Keys - RetainedClients(w.settings, w.db.clients, w.sessions, 7).Keys);
    forall i | 0 <= i < |w'.sessions| ensures w'.sessions[i].key == key && w'.sessions[i].lastTimestamp <= bound {
      assert w'.sessions[i] in w'.sessions && w'.sessions[i] in w.sessions;
    }
  }

  // A room in which someone can post gives out rising timestamps in every run if and only
  // if its post retention is not negative.
  lemma TimestampsRiseExactly(env: Env, settings: Settings, key: Key, body: seq<Byte>)
    requires settings.maxPosts.Some? ==> settings.maxPosts.value > 0
    requires env.Sound() && CanPost(env, settings, key, body)
    ensures AlwaysRising(env, settings) <==> (settings.postRetention.Some? ==> settings.postRetention.value >= 0)
  {
    hide IsRun, Run, Inv, CanPost;
    if settings.postRetention.Some? && settings.postRetention.value < 0 {
      var events := RepeatingRun(env, settings, key, body);
      NotRising(7, key, PostText(env.lossy(body)));
    } else {
      forall events | IsRun(env, Empty(settings), events)
        ensures Increasing(Run(env, Empty(settings), events).log.history)
      {
        HistoryOnlyGrows(env, settings, events);
      }
    }
  }

  lemma NotRising(ts: int, author: Key, text: string)
    ensures !Increasing([Post(ts, author, text), Post(ts, author, text)])
  {
    var history := [Post(ts, author, text), Post(ts, author, text)];
    assert history[0].ts == history[1].ts;
  }

  ghost predicate AlwaysRising(env: Env, settings: Settings) {
    forall events :: IsRun(env, Empty(settings), events) ==> Increasing(Run(env, Empty(settings), events).log.history)
  }

  lemma RepeatingRun(env: Env, settings: Settings, key: Key, body: seq<Byte>) returns (events: seq<Event>)
    requires settings.postRetention.Some? && settings.postRetention.value < 0 && CanPost(env, settings, key, body)
    ensures IsRun(env, Empty(settings), events)
    ensures
      var text := PostText(env.lossy(body));
      Run(env, Empty(settings), events).log.history == [Post(7, key, text), Post(7, key, text)]
  {
    hide Step, CanPost, PostText, AloneUpTo, LoginAt, TextAt;
    var clock := Readings(7, 7, 7);
    events := [LoginAt(key, 1, 7, 7), TextAt(key, 2, body, clock), LoginAt(key, 3, 7, 7), TextAt(key, 4, body, clock)];
    var w := Empty(settings);
    assert AloneUpTo(w, key, 0) by { NobodySeen(settings, key); }
    assert CanHappen(w, events[0]) && CanHappen(w, events[1]);
    LoginAndPost(env, w, key, body, 1);
    var w2 := Step(env, Step(env, w, events[0]), events[1]);
    LoginAndPost(env, w2, key, body, 3);
    FourSteps(env, w, events);
  }

  lemma NobodySeen(settings: Settings, key: Key)
    ensures AloneUpTo(Empty(settings), key, 0)
  {
  }

  lemma FourSteps(env: Env, w: World, events: seq<Event>)
    requires |events| == 4 && forall i :: 0 <= i < 4 ==> !events[i].Reload? && !events[i].Reboot?
    ensures IsRun(env, w, events)
    ensures Run(env, w, events) == Step(env, Step(env, Step(env, Step(env, w, events[0]), events[1]), events[2]), events[3])
  {
    hide Step;
    var w1 := Step(env, w, events[0]);
    var w2 := Step(env, w1, events[1]);
    var w3 := Step(env, w2, events[2]);
    var a, b, c := events[1..], events[2..], events[3..];
    assert a[0] == events[1] && a[1..] == b && b[0] == events[2] && b[1..] == c && c[0] == events[3] && c[1..] == [];
    assert IsRun(env, w3, c) && Run(env, w3, c) == Step(env, w3, events[3]);
    assert IsRun(env, w2, b) && Run(env, w2, b) == Run(env, w3, c);
    assert IsRun(env, w1, a) && Run(env, w1, a) == Run(env, w2, b);
  }
}
