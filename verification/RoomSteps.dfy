// What the packets of a client come to, field by field.
module RoomSteps {
  import opened Bytes
  import opened Wrappers
  import opened Crypto
  import opened Packet
  import opened Posts
  import opened Acl
  import opened Sync
  import opened Repo
  import opened RoomSpec
  import opened RoomInvariant
  import opened RoomRuns
  import opened RoomEdges
  import Frames

  // -- logins ------------------------------------------------------------------

  // A login is refused, without answer or effect, exactly when its key is unusable, nothing
  // grants it a role, or its session has seen as new a timestamp.
  lemma LoginRefusedExactly(env: Env, w: World, key: Key, login: LoginRequest, flood: bool, now: int)
    ensures
      var replay := LastSeen(w, key).Some? && login.timestamp <= LastSeen(w, key).value;
      !env.usable(key) || Resolve(w.settings, key, login.password) == None || replay ==>
        Login(env, w, key, login, flood, now) == Effect(w, [])
    ensures
      var replay := LastSeen(w, key).Some? && login.timestamp <= LastSeen(w, key).value;
      var w' := Login(env, w, key, login, flood, now).world;
      env.usable(key) && Resolve(w.settings, key, login.password).Some? && !replay ==>
        HasSession(w'.sessions, key) && key in w'.db.clients
  {
    hide Resolve, SplitWelcome, RecordLogin;
    var w' := Login(env, w, key, login, flood, now).world;
    var found := Find(w.sessions, key);
    if w' != w {
      assert w'.sessions[if found.Some? then found.value else |w.sessions|].key == key;
    }
  }

  // A granted login sets every field of the row that depends on it: the claim is its cursor,
  // the timestamp its guard against replays, and a flood forgets the path. No other row
  // changes, and a fresh account of what is acknowledged is opened.
  lemma LoginRowExactly(env: Env, w: World, key: Key, login: LoginRequest, flood: bool, now: int, grant: Grant)
    requires env.usable(key) && Resolve(w.settings, key, login.password) == Some(grant)
    requires LastSeen(w, key).Some? ==> LastSeen(w, key).value < login.timestamp
    ensures
      var w' := Login(env, w, key, login, flood, now).world;
      var clients, clients' := w.db.clients, w'.db.clients;
      && clients'.Keys == clients.Keys + {key}
      && (forall k :: k in clients && k != key ==> clients'[k] == clients[k])
      && var row := clients'[key];
         && row.lastRole == grant.role.Permission()
         && row.lastTimestamp == login.timestamp && row.lastActivity == now && row.syncSince == login.syncSince
         && row.firstSeen == (if key in clients then clients[key].firstSeen else now)
         && row.outPath == (if flood || key !in clients then [] else clients[key].outPath)
         && row.outPathLen == (if flood || key !in clients then 0xFF else clients[key].outPathLen)
    ensures |w.db.posts| <= |w.log.history| ==>
      Login(env, w, key, login, flood, now).world.log.tracks
        == w.log.tracks[key := Track(login.syncSince, |w.log.history| - |w.db.posts|, [])]
  {
    hide Resolve, LoggedIn, NewSession;
  }

  // And every field of the session: the same, with a free slot and no failure counted; a
  // client that holds nothing is welcomed. It is answered if the answer can be addressed.
  lemma LoginSessionExactly(env: Env, w: World, key: Key, login: LoginRequest, flood: bool, now: int, grant: Grant)
    requires env.usable(key) && Resolve(w.settings, key, login.password) == Some(grant)
    requires LastSeen(w, key).Some? ==> LastSeen(w, key).value < login.timestamp
    ensures
      var w' := Login(env, w, key, login, flood, now).world;
      var found := Find(w.sessions, key);
      var i := if found.Some? then found.value else |w.sessions|;
      && w'.settings == w.settings && w'.db.posts == w.db.posts && w'.log.history == w.log.history
      && w'.roundRobin == w.roundRobin
      && |w'.sessions| == (if found.Some? then |w.sessions| else |w.sessions| + 1)
      && (forall j :: 0 <= j < |w.sessions| && j != i ==> w'.sessions[j] == w.sessions[j])
      && var s := w'.sessions[i];
         && s.key == key && s.role == grant.role && s.source == grant.source
         && s.syncSince == login.syncSince && s.lastTimestamp == login.timestamp && s.lastActivity == now
         && s.pendingAck == None && s.pushFailures == 0
         && s.outPath == (if flood || found == None then [] else w.sessions[i].outPath)
         && s.outPathLen == (if flood || found == None then 0xFF else w.sessions[i].outPathLen)
         && s.welcome == if login.syncSince == 0 && w.settings.welcome.Some? && w.settings.welcome.value != ""
                         then SplitWelcome(w.settings.welcome.value)
                         else if found == None then [] else w.sessions[i].welcome
    ensures
      var e, found := Login(env, w, key, login, flood, now), Find(w.sessions, key);
      var reachable := flood || found == None || w.sessions[found.value].Addressable();
      e.sent == if reachable then [LoginReply(key, grant.role.Permission())] else []
  {
    hide Resolve, SplitWelcome, RecordLogin;
  }

  // -- replays across a restart ------------------------------------------------

  // The client has a row throughout.
  ghost predicate RowStays(env: Env, w: World, events: seq<Event>, key: Key)
    requires IsRun(env, w, events)
    decreases |events|
  {
    && key in w.db.clients
    && (events != [] ==> RowStays(env, Step(env, w, events[0]), events[1..], key))
  }

  predicate NoLoginFrom(events: seq<Event>, key: Key) {
    forall i :: 0 <= i < |events| && events[i].LoginIn? ==> events[i].key != key
  }

  lemma OthersLogin(env: Env, w: World, e: Event, key: Key)
    requires CanHappen(w, e) && e.LoginIn? && e.key != key && key in w.db.clients
    ensures key in Step(env, w, e).db.clients && Step(env, w, e).db.clients[key] == w.db.clients[key]
  {
    hide Resolve, SplitWelcome, DecodeLogin;
  }

  // Until its client logs in again, a row keeps the timestamp of the last login, whatever
  // else happens, restarts included.
  lemma {:induction false} RowKeepsTimestamp(env: Env, w: World, events: seq<Event>, key: Key)
    requires IsRun(env, w, events) && RowStays(env, w, events, key) && NoLoginFrom(events, key)
    ensures key in Run(env, w, events).db.clients
    ensures Run(env, w, events).db.clients[key].lastTimestamp == w.db.clients[key].lastTimestamp
    decreases |events|
  {
    hide Step, CanHappen;
    if events != [] {
      var w1 := Step(env, w, events[0]);
      RowIsThere(env, w1, events[1..], key);
      if events[0].LoginIn? {
        OthersLogin(env, w, events[0], key);
      } else {
        OnlyLoginTouchesActivity(env, w, events[0], key);
      }
      RowKeepsTimestamp(env, w1, events[1..], key);
    }
  }

  lemma RowIsThere(env: Env, w: World, events: seq<Event>, key: Key)
    requires IsRun(env, w, events) && RowStays(env, w, events, key)
    ensures key in w.db.clients
  {
  }

  // Directly after a restart that keeps the client, a login no newer than the one its row
  // remembers is refused.
  lemma ReplayRefusedAfterRestart(env: Env, w: World, settings: Settings, listing: seq<Key>, restartAt: int, key: Key,
                                  replay: LoginRequest, flood: bool, now: int)
    requires Inv(env, w) && settings.Valid() && env.usable(key)
    requires IsListing(ClientsAtStart(w, settings, restartAt), listing) && key in ClientsAtStart(w, settings, restartAt)
    requires replay.timestamp <= w.db.clients[key].lastTimestamp
    ensures
      var w' := Restart(env, w, settings, listing, restartAt);
      Login(env, w', key, replay, flood, now) == Effect(w', [])
  {
    hide Inv, Restart, Login, ClientsAtStart, MatchesRow, ResolveWithoutPassword, Owed;
    var w' := Restart(env, w, settings, listing, restartAt);
    RestartResumes(env, w, settings, listing, restartAt, key);
    LoginRefusedExactly(env, w', key, replay, flood, now);
    FoundHas(w'.sessions, key);
  }

  lemma FoundHas(sessions: seq<Session>, key: Key)
    requires HasSession(sessions, key)
    ensures Find(sessions, key).Some? && sessions[Find(sessions, key).value].key == key
  {
  }

  // So a captured login is worth nothing: after it was granted, and then anything that leaves
  // the client its row, and then a restart that keeps it, no login with its timestamp or an
  // older one has any effect.
  lemma CapturedLoginRefused(env: Env, w: World, key: Key, login: LoginRequest, flood: bool, now: int, events: seq<Event>,
                             settings: Settings, listing: seq<Key>, restartAt: int, replay: LoginRequest, later: int)
    requires env.Sound() && Inv(env, w) && env.usable(key) && Resolve(w.settings, key, login.password).Some?
    requires LastSeen(w, key).Some? ==> LastSeen(w, key).value < login.timestamp
    requires
      var w1 := Login(env, w, key, login, flood, now).world;
      IsRun(env, w1, events) && RowStays(env, w1, events, key) && NoLoginFrom(events, key)
    requires
      var w2 := Run(env, Login(env, w, key, login, flood, now).world, events);
      && settings.Valid() && IsListing(ClientsAtStart(w2, settings, restartAt), listing)
      && key in ClientsAtStart(w2, settings, restartAt)
    requires replay.timestamp <= login.timestamp
    ensures
      var w3 := Restart(env, Run(env, Login(env, w, key, login, flood, now).world, events), settings, listing, restartAt);
      Login(env, w3, key, replay, flood, later) == Effect(w3, [])
  {
    hide Inv, Restart, Login, ClientsAtStart, Run, IsRun, Resolve, RowStays;
    var w1 := Login(env, w, key, login, flood, now).world;
    var w2 := Run(env, w1, events);
    LoginRowExactly(env, w, key, login, flood, now, Resolve(w.settings, key, login.password).value);
    LoginKeeps(env, w, key, login, flood, now);
    RunKeeps(env, w1, events);
    RowKeepsTimestamp(env, w1, events, key);
    ReplayRefusedAfterRestart(env, w2, settings, listing, restartAt, key, replay, flood, later);
  }

  // -- being heard -------------------------------------------------------------

  // A text older than the last message, or of a type a room does not take, or from no known
  // client, does nothing; so does such a request.
  lemma IgnoredExactly(env: Env, w: World, key: Key, m: TextMessage, clock: Readings, request: ServerRequest, direct: bool, now: int)
    requires m.Valid() && request.Valid()
    ensures LastSeen(w, key) == None || m.timestamp < LastSeen(w, key).value || m.txtType.SignedPlain? ==>
      OnText(env, w, key, m, clock) == Effect(w, [])
    ensures LastSeen(w, key) == None || request.timestamp < LastSeen(w, key).value ==>
      OnRequest(env, w, key, request, direct, now) == Effect(w, [])
  {
  }

  // Any other text moves the replay guard to its timestamp, counts as activity, and makes
  // the client eligible for pushes again; nothing else of its session changes.
  lemma TextHeard(env: Env, w: World, i: nat, m: TextMessage, clock: Readings)
    requires i < |w.sessions| && Find(w.sessions, w.sessions[i].key) == Some(i) && Distinct(w.sessions)
    requires m.Valid() && !m.txtType.SignedPlain? && w.sessions[i].lastTimestamp <= m.timestamp
    ensures
      var s, sessions := w.sessions[i], OnText(env, w, w.sessions[i].key, m, clock).world.sessions;
      forall j :: 0 <= j < |sessions| && sessions[j].key == s.key ==>
        sessions[j] == s.(lastTimestamp := m.timestamp, lastActivity := clock.heardAt, pushFailures := 0)
  {
    var s, w' := w.sessions[i], OnText(env, w, w.sessions[i].key, m, clock).world;
    hide OnText, StorePost;
    OnTextOutcome(env, w, s.key, m, clock, i);
    var heard := Heard(w, i, m.timestamp, clock.heardAt);
    var done := WithEffect(heard, s.key, m.timestamp);
    assert done.sessions == heard.sessions;
    if author, text :| w' == StorePost(done, author, text, clock.storedAt, clock.sweptAt) {
      KeptSessions(done, author, text, clock.storedAt, clock.sweptAt);
    }
  }

  lemma KeptSessions(w: World, author: Key, text: string, now: int, sweptAt: int)
    ensures forall j :: 0 <= j < |StorePost(w, author, text, now, sweptAt).sessions| ==>
      StorePost(w, author, text, now, sweptAt).sessions[j] in w.sessions
  {
    hide PrunePosts, NextPostTs, RetainedClients;
    var sessions := StorePost(w, author, text, now, sweptAt).sessions;
    assert forall j :: 0 <= j < |sessions| ==> sessions[j] in sessions;
  }

  // A request that is no keep-alive over a direct route is just heard.
  lemma RequestHeard(env: Env, w: World, i: nat, request: ServerRequest, direct: bool, now: int)
    requires i < |w.sessions| && Find(w.sessions, w.sessions[i].key) == Some(i)
    requires request.Valid() && w.sessions[i].lastTimestamp <= request.timestamp && (request.reqType != 2 || !direct)
    ensures
      var s, e := w.sessions[i], OnRequest(env, w, w.sessions[i].key, request, direct, now);
      && e.sent == [] && e.world.db == w.db && e.world.log.history == w.log.history && e.world.log.tracks == w.log.tracks
      && e.world.sessions
           == w.sessions[i := s.(lastTimestamp := request.timestamp, lastActivity := now, pushFailures := 0)]
  {
  }

  // -- what is stored ----------------------------------------------------------

  // A plain text adds a post, by its sender and under the next timestamp, exactly when the
  // sender may write, the timestamp is new, and the text is not empty; and that is when the
  // log counts an effect.
  lemma TextStoredExactly(env: Env, w: World, i: nat, m: TextMessage, clock: Readings)
    requires i < |w.sessions| && Find(w.sessions, w.sessions[i].key) == Some(i)
    requires m.Valid() && m.txtType.Plain?
    ensures
      var s, text := w.sessions[i], PostText(env.lossy(m.text));
      var stored := (s.role.ReadWrite? || s.role.Admin?) && m.timestamp > s.lastTimestamp && text != "";
      var log := OnText(env, w, s.key, m, clock).world.log;
      && log.history == w.log.history + (if stored then [Post(NextPostTs(w.db.posts, clock.storedAt), s.key, text)] else [])
      && log.LifeOf(s.key).effects == w.log.LifeOf(s.key).effects + if stored then [m.timestamp] else []
  {
    hide PrunePosts, NextPostTs, RetainedClients, PostText;
  }

  // A console line is never acknowledged, and adds a post, by the room itself, exactly when
  // an admin sends it for the first time and it is a posting command.
  lemma ConsoleStoresExactly(env: Env, w: World, i: nat, m: TextMessage, clock: Readings)
    requires i < |w.sessions| && Find(w.sessions, w.sessions[i].key) == Some(i)
    requires m.Valid() && m.txtType.CliData?
    ensures
      var s, e := w.sessions[i], OnText(env, w, w.sessions[i].key, m, clock);
      && e.sent == []
      && e.world.log.LifeOf(s.key).effects
           == w.log.LifeOf(s.key).effects + (if s.role == Admin && m.timestamp > s.lastTimestamp then [m.timestamp] else [])
      && e.world.log.history
           == w.log.history
              + if s.role == Admin && m.timestamp > s.lastTimestamp && env.console(m.text).RoomPost?
                then [Post(NextPostTs(w.db.posts, clock.storedAt), env.roomKey, PostText(env.lossy(env.console(m.text).message)))]
                else []
  {
    hide PrunePosts, NextPostTs, RetainedClients, PostText;
  }

  // What is left of the table after a post is stored: the new post, and every other that is
  // neither too old nor beyond the count, or that some client left has not passed.
  lemma StoreKeepsExactly(w: World, author: Key, text: string, now: int, sweptAt: int, i: nat)
    requires Increasing(w.db.posts) && i <= |w.db.posts|
    ensures
      var w' := StorePost(w, author, text, now, sweptAt);
      var all := w.db.posts + [Post(NextPostTs(w.db.posts, now), author, text)];
      all[i] in w'.db.posts
        <==>
        || (&& (w.settings.postRetention == None || all[i].ts >= now - w.settings.postRetention.value)
            && (w.settings.maxPosts == None || |all| - i <= w.settings.maxPosts.value))
        || exists k :: k in w'.db.clients && w'.db.clients[k].syncSince < all[i].ts
  {
    hide PrunePosts, RetainedClients, KeepSessions, NextPostTs;
    var w' := StorePost(w, author, text, now, sweptAt);
    var all := w.db.posts + [Post(NextPostTs(w.db.posts, now), author, text)];
    assert forall j :: 0 <= j < |w.db.posts| ==> w.db.posts[j] in w.db.posts;
    assert Increasing(all);
    PrunedExactly(all, w'.db.clients,
                  if w.settings.postRetention.Some? then Some(now - w.settings.postRetention.value) else None,
                  w.settings.maxPosts, i);
  }

  // -- paths, slots and reloads ------------------------------------------------

  // A path return gives session and row its path, the packed length naming hash size and
  // hops, and counts as activity of the session.
  lemma PathLearned(env: Env, w: World, i: nat, p: PathReturn, now: int)
    requires i < |w.sessions| && Find(w.sessions, w.sessions[i].key) == Some(i) && w.sessions[i].key in w.db.clients
    requires p.Valid() && (p.extraType % 16 != 3 || |p.extra| < 4)
    ensures
      var s, w' := w.sessions[i], OnPathReturn(w, w.sessions[i].key, p, now);
      var packed := (p.pathHashSize - 1) * 64 + |p.path| / p.pathHashSize;
      && w'.sessions == w.sessions[i := s.(outPath := p.path, outPathLen := packed, lastActivity := now)]
      && w'.db.clients == w.db.clients[s.key := w.db.clients[s.key].(outPath := p.path, outPathLen := packed)]
      && w'.db.posts == w.db.posts && w'.log == w.log
  {
  }

  // With an acknowledgement in it, that is taken as if it had come on its own just after.
  lemma PathWithAck(env: Env, w: World, i: nat, p: PathReturn, now: int)
    requires i < |w.sessions| && Find(w.sessions, w.sessions[i].key) == Some(i)
    requires p.Valid() && p.extraType % 16 == 3 && |p.extra| >= 4
    ensures
      OnPathReturn(w, w.sessions[i].key, p, now)
        == OnAck(OnPathReturn(w, w.sessions[i].key, p.(extra := []), now), p.extra[..4])
  {
    hide OnAck;
  }

  // A path can be sent over exactly when a packet with it can be built.
  lemma AddressableExactly(s: Session)
    requires PathOk(s.outPath, s.outPathLen) && s.outPathLen != 0xFF
    ensures s.Addressable() <==> Frames.FrameFor(Direct, TxtMsg, [0], s.outPath, s.outPathLen / 64 + 1).Valid()
  {
    Hops(s.outPathLen % 64, s.outPathLen / 64 + 1);
  }

  // A slot is cleared when its time has come, at the cost of one failure, and no other.
  lemma ExpiredExactly(w: World, now: real, i: nat)
    requires i < |w.sessions|
    ensures
      var s, s' := w.sessions[i], ExpirePendingAcks(w, now).sessions[i];
      s' == if s.pendingAck.Some? && now >= s.ackTimeout then s.(pendingAck := None, pushFailures := s.pushFailures + 1) else s
  {
  }

  // A reload gives members their declared role, former members that of a stranger, or of a
  // guest, and leaves every other role, and everything else, alone.
  lemma ReloadedExactly(w: World, settings: Settings, i: nat)
    requires i < |w.sessions|
    ensures
      var s, w' := w.sessions[i], ApplySettings(w, settings);
      && w'.settings == settings && |w'.sessions| == |w.sessions|
      && w'.sessions[i]
           == if s.key in settings.members then s.(role := settings.members[s.key], source := Member)
              else if s.source != Member then s
              else s.(role := if settings.allowUnknown.Some? then settings.allowUnknown.value else Guest,
                      source := AllowUnknown)
  {
  }

  // The keys of a listing that can be used, in its order.
  function UsableOf(env: Env, listing: seq<Key>): (keys: seq<Key>) {
    if listing == [] then [] else (if env.usable(listing[0]) then [listing[0]] else []) + UsableOf(env, listing[1..])
  }

  function KeysOf(sessions: seq<Session>): (keys: seq<Key>)
    ensures |keys| == |sessions|
  {
    seq(|sessions|, i requires 0 <= i < |sessions| => sessions[i].key)
  }

  // A restart opens the sessions in the order the database lists the clients.
  lemma {:induction false} ResumedInOrder(env: Env, settings: Settings, clients: Clients, listing: seq<Key>)
    requires forall k :: k in listing ==> k in clients
    ensures KeysOf(Resume(env, settings, clients, listing)) == UsableOf(env, listing)
  {
    if listing != [] {
      ResumedInOrder(env, settings, clients, listing[1..]);
    }
  }
}
