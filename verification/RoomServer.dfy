// The room as the program runs it: session objects updated in place, an ordered table of
// them, and a store whose rows change under it. Each method is one step of the state
// machine, proved equal to the step of the same name on values.
module RoomServer {
  import opened Bytes
  import opened Wrappers
  import opened Crypto
  import opened Packet
  import opened Posts
  import opened Acl
  import opened Sync
  import opened Repo
  import Spec = RoomSpec
  import opened RoomInvariant
  import Runs = RoomRuns
  import Seqs

  // The posts and client rows of one room. Each method is one transaction.
  class Store {
    var posts: seq<Post>
    var clients: Clients

    constructor ()
      ensures posts == [] && clients == map[]
    {
      posts, clients := [], map[];
    }

    function View(): (db: Db)
      reads this
    {
      Db(posts, clients)
    }

    method AddPost(author: Key, text: string, ts: int) returns (post: Post)
      modifies this`posts
      ensures post == Post(ts, author, text)
      ensures posts == old(posts) + [post]
    {
      post := Post(ts, author, text);
      posts := posts + [post];
    }

    // `min(sync_since)` over the clients; None when there is none.
    method Floor() returns (floor: Option<int>)
      ensures floor == None <==> clients == map[]
      ensures floor.Some? ==> exists k :: k in clients && clients[k].syncSince == floor.value
      ensures floor.Some? ==> forall k :: k in clients ==> floor.value <= clients[k].syncSince
    {
      floor := None;
      var rest := clients.Keys;
      while rest != {}
        invariant rest <= clients.Keys
        invariant floor == None <==> rest == clients.Keys
        invariant floor.Some? ==> exists k :: k in clients && clients[k].syncSince == floor.value
        invariant floor.Some? ==> forall k :: k in clients && k !in rest ==> floor.value <= clients[k].syncSince
        decreases |rest|
      {
        var k :| k in rest;
        if floor == None || clients[k].syncSince < floor.value {
          floor := Some(clients[k].syncSince);
        }
        rest := rest - {k};
      }
    }

    // Posts go that a policy dooms and that are at or below the floor. With the table in
    // order, what stays is its end: no gap, and nothing above a cursor gone.
    method PrunePosts(olderThan: Option<int>, keepNewest: Option<int>) returns (removed: nat)
      modifies this`posts
      ensures removed == |old(posts)| - |posts|
      ensures Increasing(old(posts)) ==>
        && posts == old(posts)[removed..]
        && forall i :: 0 <= i < removed ==> forall k :: k in clients ==> old(posts)[i].ts <= clients[k].syncSince
      ensures posts == Repo.PrunePosts(old(posts), clients, olderThan, keepNewest)
    {
      hide Repo.PrunePosts, Doomed;
      ghost var before := posts;
      ghost var spec := Repo.PrunePosts(before, clients, olderThan, keepNewest);
      var floor := Floor();
      var kept: seq<Post> := [];
      PruneNone(before, clients, olderThan, keepNewest);
      for i := 0 to |posts|
        invariant |kept| <= i
        invariant posts == before
        invariant kept + Repo.PrunePosts(before[i..], clients, olderThan, keepNewest) == spec
      {
        var p := posts[i];
        var tooOld := olderThan.Some? && p.ts < olderThan.value;
        var pastCount := keepNewest.Some? && i < |posts| - keepNewest.value;
        var goes := (tooOld || pastCount) && (floor == None || p.ts <= floor.value);
        DoomedByFloor(before, i, clients, floor, olderThan, keepNewest);
        PruneNext(kept, before, i, clients, olderThan, keepNewest);
        if !goes {
          kept := kept + [p];
        }
      }
      PruneNone(before, clients, olderThan, keepNewest);
      removed := |posts| - |kept|;
      posts := kept;
      if Increasing(before) {
        SuffixStays(before, clients, olderThan, keepNewest, removed);
      }
    }

    static lemma PruneNone(posts: seq<Post>, clients: Clients, olderThan: Option<int>, keepNewest: Option<int>)
      ensures [] + Repo.PrunePosts(posts[0..], clients, olderThan, keepNewest)
           == Repo.PrunePosts(posts, clients, olderThan, keepNewest)
      ensures posts[|posts|..] == [] && Repo.PrunePosts([], clients, olderThan, keepNewest) == []
      ensures forall kept: seq<Post> :: kept + [] == kept
    {
      assert posts[0..] == posts;
    }

    // Comparing with the lowest cursor is comparing with every cursor.
    static lemma DoomedByFloor(posts: seq<Post>, i: nat, clients: Clients, floor: Option<int>, olderThan: Option<int>,
                               keepNewest: Option<int>)
      requires i < |posts|
      requires floor == None <==> clients == map[]
      requires floor.Some? ==> exists k :: k in clients && clients[k].syncSince == floor.value
      requires floor.Some? ==> forall k :: k in clients ==> floor.value <= clients[k].syncSince
      ensures Doomed(posts[i], |posts| - i, clients, olderThan, keepNewest)
        <==> (|| (olderThan.Some? && posts[i].ts < olderThan.value)
              || (keepNewest.Some? && i < |posts| - keepNewest.value))
             && (floor == None || posts[i].ts <= floor.value)
    {
      FloorIsLowest(clients, floor, posts[i].ts);
    }

    static lemma PruneNext(kept: seq<Post>, posts: seq<Post>, i: nat, clients: Clients, olderThan: Option<int>,
                           keepNewest: Option<int>)
      requires i < |posts|
      ensures
        var goes := Doomed(posts[i], |posts| - i, clients, olderThan, keepNewest);
        kept + Repo.PrunePosts(posts[i..], clients, olderThan, keepNewest)
          == (if goes then kept else kept + [posts[i]]) + Repo.PrunePosts(posts[i + 1..], clients, olderThan, keepNewest)
    {
      hide Doomed;
      assert posts[i..][1..] == posts[i + 1..];
      var rest := Repo.PrunePosts(posts[i + 1..], clients, olderThan, keepNewest);
      Seqs.Associate(kept, [posts[i]], rest);
      assert kept + ([] + rest) == kept + rest;
    }

    static lemma FloorIsLowest(clients: Clients, floor: Option<int>, ts: int)
      requires floor == None <==> clients == map[]
      requires floor.Some? ==> exists k :: k in clients && clients[k].syncSince == floor.value
      requires floor.Some? ==> forall k :: k in clients ==> floor.value <= clients[k].syncSince
      ensures AtOrBelowFloor(clients, ts) <==> floor == None || ts <= floor.value
    {
    }

    static lemma SuffixStays(posts: seq<Post>, clients: Clients, olderThan: Option<int>, keepNewest: Option<int>,
                             removed: nat)
      requires Increasing(posts) && removed == |posts| - |Repo.PrunePosts(posts, clients, olderThan, keepNewest)|
      ensures Repo.PrunePosts(posts, clients, olderThan, keepNewest) == posts[removed..]
      ensures forall i :: 0 <= i < removed ==> forall k :: k in clients ==> posts[i].ts <= clients[k].syncSince
    {
      var dropped := PruneDropsPrefix(posts, clients, olderThan, keepNewest);
      assert dropped == removed;
      forall i | 0 <= i < removed ensures AtOrBelowFloor(clients, posts[i].ts) {
        assert Doomed(posts[i], |posts| - i, clients, olderThan, keepNewest);
      }
    }

    method PruneClients(olderThan: int, keep: set<Key>) returns (doomed: set<Key>)
      modifies this`clients
      ensures clients == Repo.PruneClients(old(clients), olderThan, keep)
      ensures doomed == old(clients).Keys - clients.Keys
    {
      doomed := set k | k in clients && clients[k].lastActivity < olderThan && k !in keep;
      clients := clients - doomed;
      assert clients == Repo.PruneClients(old(clients), olderThan, keep);
    }

    method RecordLogin(key: Key, role: int, senderTimestamp: int, syncSince: int, now: int, resetOutPath: bool)
      returns (row: Row)
      modifies this`clients
      ensures clients.Keys == old(clients).Keys + {key}
      ensures forall k :: k in old(clients) && k != key ==> clients[k] == old(clients)[k]
      ensures row == clients[key]
      ensures row.lastRole == role && row.lastTimestamp == senderTimestamp
      ensures row.syncSince == syncSince && row.lastActivity == now
      ensures row.firstSeen == if key in old(clients) then old(clients)[key].firstSeen else now
      ensures
        var forgetful := resetOutPath || key !in old(clients);
        && row.outPath == (if forgetful then [] else old(clients)[key].outPath)
        && row.outPathLen == if forgetful then 0xFF else old(clients)[key].outPathLen
      ensures clients == Repo.RecordLogin(old(clients), key, role, senderTimestamp, syncSince, now, resetOutPath)
    {
      row := if key in clients then clients[key] else Row(0, 0, 0, [], OUT_PATH_UNKNOWN, now, 0);
      row := row.(lastRole := role, lastTimestamp := senderTimestamp, syncSince := syncSince, lastActivity := now);
      if resetOutPath {
        row := row.(outPath := [], outPathLen := OUT_PATH_UNKNOWN);
      }
      clients := clients[key := row];
    }

    // One row gets the path; its cursor, and every other row, is as it was.
    method SetOutPath(key: Key, path: seq<Byte>, pathLen: int)
      modifies this`clients
      ensures OnlyRow(old(clients), clients, key)
      ensures key in clients ==> clients[key] == old(clients)[key].(outPath := path, outPathLen := pathLen)
      ensures clients == Repo.SetOutPath(old(clients), key, path, pathLen)
    {
      if key in clients {
        clients := clients[key := clients[key].(outPath := path, outPathLen := pathLen)];
      }
    }

    // The cursor of one row becomes the newer of what it was and `postTs`.
    method AdvanceSync(key: Key, postTs: int)
      modifies this`clients
      ensures OnlyRow(old(clients), clients, key)
      ensures key in clients ==>
        clients[key] == old(clients)[key].(syncSince := Max(old(clients)[key].syncSince, postTs))
      ensures clients == Repo.AdvanceSync(old(clients), key, postTs)
    {
      if key in clients && clients[key].syncSince < postTs {
        clients := clients[key := clients[key].(syncSince := postTs)];
      }
    }

    // The cursor of one row becomes `syncSince`, whatever it was.
    method ForceSyncSince(key: Key, syncSince: int)
      modifies this`clients
      ensures OnlyRow(old(clients), clients, key)
      ensures key in clients ==> clients[key] == old(clients)[key].(syncSince := syncSince)
      ensures clients == Repo.ForceSyncSince(old(clients), key, syncSince)
    {
      if key in clients {
        clients := clients[key := clients[key].(syncSince := syncSince)];
      }
    }

    // No row comes or goes, and no other than that of `key` changes.
    static predicate OnlyRow(before: Clients, after: Clients, key: Key) {
      after.Keys == before.Keys && forall k :: k in before && k != key ==> after[k] == before[k]
    }
  }

  // One client's live state.
  class ClientSession {
    const key: Key
    var role: Role
    var source: RoleSource
    var syncSince: int
    var lastTimestamp: int
    var outPath: seq<Byte>
    var outPathLen: int
    var lastActivity: int
    var pendingAck: Option<seq<Byte>>
    var pushPostTs: int
    var pushIsWelcome: bool
    var ackTimeout: real
    var pushFailures: nat
    var welcome: seq<string>

    constructor (key: Key, role: Role, source: RoleSource)
      ensures this.key == key && View() == Spec.NewSession(key, Grant(role, source))
    {
      this.key, this.role, this.source := key, role, source;
      syncSince, lastTimestamp := 0, 0;
      outPath, outPathLen, lastActivity := [], OUT_PATH_UNKNOWN, 0;
      pendingAck, pushPostTs, pushIsWelcome := None, 0, false;
      ackTimeout, pushFailures, welcome := 0.0, 0, [];
    }

    function View(): (s: Spec.Session)
      reads this
      ensures s.key == key
    {
      Spec.Session(key, role, source, syncSince, lastTimestamp, outPath, outPathLen, lastActivity, pendingAck,
                   pushPostTs, pushIsWelcome, ackTimeout, pushFailures, welcome)
    }

    predicate HasOutPath()
      reads this
    {
      outPathLen != OUT_PATH_UNKNOWN
    }

    // Awaits `checksum` for a push, until a time still to be set.
    method Arm(checksum: seq<Byte>, postTs: int, isWelcome: bool)
      modifies this`pendingAck, this`pushPostTs, this`pushIsWelcome
      ensures View() == old(View()).(pendingAck := Some(checksum), pushPostTs := postTs, pushIsWelcome := isWelcome)
    {
      pendingAck, pushPostTs, pushIsWelcome := Some(checksum), postTs, isWelcome;
    }

    method ExpirePendingAck(now: real)
      modifies this`pendingAck, this`pushFailures
      ensures View() == Spec.Expired(old(View()), now)
    {
      if pendingAck != None && now >= ackTimeout {
        pendingAck := None;
        pushFailures := pushFailures + 1;
      }
    }

    method ApplySettings(settings: Settings)
      modifies this`role, this`source
      ensures View() == Spec.Resettled(settings, old(View()))
    {
      if key in settings.members {
        role, source := settings.members[key], Member;
      } else if source == Member {
        role, source := ResolveWithoutPassword(settings, key).role, AllowUnknown;
      }
    }

    method ForgetPath()
      modifies this`outPath, this`outPathLen
      ensures outPath == [] && outPathLen == OUT_PATH_UNKNOWN
    {
      outPath, outPathLen := [], OUT_PATH_UNKNOWN;
    }
  }

  class Room {
    const env: Spec.Env
    const store: Store
    var settings: Settings
    // The session table in insertion order; each key has at most one entry.
    var sessions: seq<ClientSession>
    var roundRobin: nat
    ghost var log: Spec.Log

    ghost predicate Valid()
      reads this, sessions
    {
      Apart(sessions)
    }

    // No session, and no key, is in the table twice.
    static ghost predicate Apart(table: seq<ClientSession>) {
      && (forall i, j :: 0 <= i < j < |table| ==> table[i] != table[j])
      && (forall i, j :: 0 <= i < j < |table| ==> table[i].key != table[j].key)
    }

    static ghost function ViewsOf(sessions: seq<ClientSession>): (views: seq<Spec.Session>)
      reads sessions
      ensures |views| == |sessions|
      ensures forall i :: 0 <= i < |sessions| ==> views[i] == sessions[i].View()
    {
      seq(|sessions|, i requires 0 <= i < |sessions| reads sessions => sessions[i].View())
    }

    ghost function Views(): (views: seq<Spec.Session>)
      reads this, sessions
    {
      ViewsOf(sessions)
    }

    ghost function State(): (w: Spec.World)
      reads this, store, sessions
    {
      Spec.World(settings, store.View(), Views(), roundRobin, log)
    }

    // A room over an existing store, before `Start`. `log` is what is known of its past.
    constructor (env: Spec.Env, store: Store, settings: Settings, ghost log: Spec.Log)
      ensures this.store == store && this.env == env
      ensures Valid() && sessions == []
      ensures State() == Spec.World(settings, store.View(), [], 0, log)
    {
      this.env, this.store, this.settings, this.log := env, store, settings, log;
      sessions, roundRobin := [], 0;
      new;
      assert Views() == [];
    }

    // Only the session at `i` has changed.
    twostate lemma OneSessionChanged(i: nat)
      requires i < |sessions| && sessions == old(sessions)
      requires forall j :: 0 <= j < |sessions| && j != i ==> sessions[j].View() == old(sessions[j].View())
      ensures Views() == old(Views())[i := sessions[i].View()]
    {
    }

    lemma FindAt(i: nat)
      requires Valid() && i < |sessions|
      ensures Spec.Find(Views(), sessions[i].key) == Some(i)
    {
      var found := Spec.Find(Views(), sessions[i].key);
      assert Views()[i].key == sessions[i].key;
      assert found.Some? && Views()[found.value].key == sessions[found.value].key;
    }

    method FindSession(key: Key) returns (i: Option<nat>)
      requires Valid()
      ensures i == Spec.Find(Views(), key)
    {
      for n := 0 to |sessions|
        invariant forall j :: 0 <= j < n ==> sessions[j].key != key
      {
        if sessions[n].key == key {
          return Some(n);
        }
      }
      return None;
    }

    // -- acknowledgements ----------------------------------------------------

    // Takes the acknowledgement session `i` was waiting for.
    method Acknowledge(i: nat)
      requires Valid() && i < |sessions|
      modifies this`log, store, sessions
      ensures Valid()
      ensures State() == Spec.Acknowledged(old(State()), i)
    {
      var session := sessions[i];
      ghost var life := log.LifeOf(session.key);
      session.pendingAck := None;
      session.pushFailures := 0;
      if session.pushIsWelcome {
        if session.welcome != [] {
          session.welcome := session.welcome[1..];
        }
      } else {
        session.syncSince := session.pushPostTs;
        store.AdvanceSync(session.key, session.pushPostTs);
        ghost var track := log.TrackOf(session.key);
        ghost var acked := if life.inFlight.Some? then track.acked + [life.inFlight.value] else track.acked;
        log := log.(tracks := log.tracks[session.key := track.(acked := acked)]);
      }
      log := log.(lives := log.lives[session.key := life.(pushes := 0, inFlight := None)]);
      OneSessionChanged(i);
    }

    method OnAck(checksum: seq<Byte>) returns (matched: bool)
      requires Valid()
      modifies this`log, store, sessions
      ensures Valid()
      ensures State() == Spec.OnAck(old(State()), checksum)
      ensures matched <==> Spec.Waiting(old(Views()), checksum).Some?
    {
      hide Spec.Acknowledged;
      for i := 0 to |sessions|
        invariant forall j :: 0 <= j < i ==> sessions[j].pendingAck != Some(checksum)
        invariant State() == old(State()) && Valid()
      {
        if sessions[i].pendingAck == Some(checksum) {
          assert Spec.Waiting(Views(), checksum) == Some(i);
          Acknowledge(i);
          return true;
        }
      }
      return false;
    }

    // -- path returns --------------------------------------------------------

    method OnPathReturn(i: nat, p: PathReturn, now: int)
      requires Valid() && i < |sessions| && p.Valid()
      modifies this`log, store, sessions
      ensures Valid()
      ensures State() == Spec.OnPathReturn(old(State()), sessions[i].key, p, now)
    {
      hide Spec.OnAck, Spec.LearnPath;
      FindAt(i);
      LearnPath(i, p, now);
      if p.extraType % 16 == AckType.Code() && |p.extra| >= ACK_LEN {
        var _ := OnAck(p.extra[..ACK_LEN]);
      }
    }

    method LearnPath(i: nat, p: PathReturn, now: int)
      requires Valid() && i < |sessions| && p.Valid()
      modifies store, sessions[i]
      ensures Valid()
      ensures State() == Spec.LearnPath(old(State()), i, p, now)
    {
      var session := sessions[i];
      session.outPath := p.path;
      session.outPathLen := p.PackedLength();
      session.lastActivity := now;
      store.SetOutPath(session.key, p.path, p.PackedLength());
      OneSessionChanged(i);
    }

    // -- login ---------------------------------------------------------------

    // Adds a session for a client that has none.
    method AddSession(session: ClientSession)
      requires Valid() && forall j :: 0 <= j < |sessions| ==> sessions[j].key != session.key
      modifies this`sessions
      ensures Valid() && sessions == old(sessions) + [session]
      ensures Views() == old(Views()) + [session.View()]
    {
      AppendView(sessions, session);
      assert session !in sessions;
      sessions := sessions + [session];
    }

    lemma UnknownKey(key: Key)
      requires Spec.Find(Views(), key) == None
      ensures forall j :: 0 <= j < |sessions| ==> sessions[j].key != key
    {
      forall j | 0 <= j < |sessions| ensures sessions[j].key != key {
        assert Views()[j].key != key;
      }
    }

    method Login(key: Key, login: LoginRequest, flood: bool, now: int) returns (sent: seq<Spec.Sent>)
      requires Valid()
      modifies this`sessions, this`log, store, sessions
      ensures Valid() && old(sessions) <= sessions && fresh(sessions[|old(sessions)|..])
      ensures Spec.Effect(State(), sent) == Spec.Login(env, old(State()), key, login, flood, now)
    {
      hide Spec.LoggedIn, Spec.Login, Resolve, Repo.RecordLogin, Spec.NewSession, LoginLog, LoginSessions, ViewsOf, Spec.Find;
      var grant := Resolve(settings, key, login.password);
      var found := FindSession(key);
      ghost var w := State();
      if !env.usable(key) || grant == None
         || (found.Some? && login.timestamp <= sessions[found.value].lastTimestamp) {
        LoginRefused(env, w, key, login, flood, now);
        return [];
      }
      var role := grant.value.role.Permission();
      RecordGranted(key, role, login, flood, now, found);
      assert Views() == w.sessions;
      var session := Seat(key, grant.value, login, flood, now, found);
      LoginGranted(env, w, key, login, flood, now, grant.value, found);
      assert State() == Spec.Login(env, w, key, login, flood, now).world;
      return if flood || session.View().Addressable() then [Spec.LoginReply(key, role)] else [];
    }

    // The database half of a granted login.
    method RecordGranted(key: Key, role: int, login: LoginRequest, flood: bool, now: int, ghost found: Option<nat>)
      modifies this`log, store`clients
      ensures log == LoginLog(old(State()), key, login, found)
      ensures store.clients == Repo.RecordLogin(old(store.clients), key, role, login.timestamp, login.syncSince, now, flood)
    {
      hide Repo.RecordLogin, LoginLog;
      ghost var w := State();
      var _ := store.RecordLogin(key, role, login.timestamp, login.syncSince, now, flood);
      log := LoginLog(w, key, login, found);
    }

    // The session a granted login opens or brings up to date.
    method Seat(key: Key, grant: Grant, login: LoginRequest, flood: bool, now: int, found: Option<nat>)
      returns (session: ClientSession)
      requires Valid() && found == Spec.Find(Views(), key)
      modifies this`sessions, sessions
      ensures Valid() && old(sessions) <= sessions && fresh(sessions[|old(sessions)|..])
      ensures Views() == LoginSessions(settings, old(Views()), key, grant, login, flood, now, found)
      ensures session.View() == Views()[if found.Some? then found.value else old(|sessions|)]
    {
      hide Spec.LoggedIn, Spec.NewSession;
      if found.Some? {
        session := sessions[found.value];
        Admit(session, grant, login, flood, now);
        OneSessionChanged(found.value);
      } else {
        UnknownKey(key);
        session := new ClientSession(key, grant.role, grant.source);
        Admit(session, grant, login, flood, now);
        AddSession(session);
      }
    }

    // The claim and the life a granted login opens.
    static ghost function LoginLog(w: Spec.World, key: Key, login: LoginRequest, found: Option<nat>): (log: Spec.Log) {
      var life := if found.Some? then w.log.LifeOf(key).(pushes := 0, inFlight := None) else Spec.Life([], 0, None);
      var track := Spec.Track(login.syncSince, if w.Cut() < 0 then 0 else w.Cut(), []);
      w.log.(tracks := w.log.tracks[key := track], lives := w.log.lives[key := life])
    }

    static ghost function LoginSessions(settings: Settings, table: seq<Spec.Session>, key: Key, grant: Grant,
                                        login: LoginRequest, flood: bool, now: int, found: Option<nat>)
      : (sessions: seq<Spec.Session>)
      requires found.Some? ==> found.value < |table|
      ensures |sessions| == if found.Some? then |table| else |table| + 1
    {
      if found.Some? then
        table[found.value := Spec.LoggedIn(settings, table[found.value], grant, login, flood, now)]
      else table + [Spec.LoggedIn(settings, Spec.NewSession(key, grant), grant, login, flood, now)]
    }

    static predicate Refused(env: Spec.Env, w: Spec.World, key: Key, login: LoginRequest) {
      var found := Spec.Find(w.sessions, key);
      || !env.usable(key)
      || Resolve(w.settings, key, login.password) == None
      || (found.Some? && login.timestamp <= w.sessions[found.value].lastTimestamp)
    }

    static lemma LoginRefused(env: Spec.Env, w: Spec.World, key: Key, login: LoginRequest, flood: bool, now: int)
      requires Refused(env, w, key, login)
      ensures Spec.Login(env, w, key, login, flood, now) == Spec.Effect(w, [])
    {
    }

    static lemma LoginGranted(env: Spec.Env, w: Spec.World, key: Key, login: LoginRequest, flood: bool, now: int,
                              grant: Grant, found: Option<nat>)
      requires !Refused(env, w, key, login)
      requires found == Spec.Find(w.sessions, key) && Some(grant) == Resolve(w.settings, key, login.password)
      ensures
        var role := grant.role.Permission();
        var sessions := LoginSessions(w.settings, w.sessions, key, grant, login, flood, now, found);
        var updated := sessions[if found.Some? then found.value else |w.sessions|];
        Spec.Login(env, w, key, login, flood, now)
          == Spec.Effect(
               Spec.World(w.settings,
                          Db(w.db.posts, Repo.RecordLogin(w.db.clients, key, role, login.timestamp, login.syncSince, now, flood)),
                          sessions, w.roundRobin, LoginLog(w, key, login, found)),
               if flood || updated.Addressable() then [Spec.LoginReply(key, role)] else [])
    {
      hide Spec.LoggedIn, Resolve, Repo.RecordLogin, Spec.NewSession;
    }

    static lemma AppendView(table: seq<ClientSession>, session: ClientSession)
      ensures ViewsOf(table + [session]) == ViewsOf(table) + [session.View()]
    {
    }

    // Brings a session up to date with a login that was granted.
    method Admit(session: ClientSession, grant: Grant, login: LoginRequest, flood: bool, now: int)
      modifies session
      ensures session.View() == Spec.LoggedIn(settings, old(session.View()), grant, login, flood, now)
    {
      session.role := grant.role;
      session.source := grant.source;
      session.syncSince := login.syncSince;
      session.lastTimestamp := login.timestamp;
      session.lastActivity := now;
      session.pendingAck := None;
      session.pushFailures := 0;
      if flood {
        session.ForgetPath();
      }
      if login.syncSince == 0 && settings.welcome.Some? && settings.welcome.value != "" {
        session.welcome := SplitWelcome(settings.welcome.value);
      }
    }

    // -- posts ---------------------------------------------------------------

    // Applies the client retention policy. A client with a push in flight is live
    // whatever its row says.
    method PruneClients(now: int) returns (forgotten: set<Key>)
      modifies store`clients
      ensures store.clients == Spec.RetainedClients(settings, old(store.clients), Views(), now)
      ensures forgotten == old(store.clients).Keys - store.clients.Keys
    {
      if settings.clientRetention == None {
        return {};
      }
      var inFlight := set s | s in sessions && s.pendingAck.Some? :: s.key;
      assert inFlight == Spec.InFlightKeys(Views()) by {
        forall k | k in inFlight ensures k in Spec.InFlightKeys(Views()) {
          var s :| s in sessions && s.pendingAck.Some? && s.key == k;
          var j :| 0 <= j < |sessions| && sessions[j] == s;
          assert Views()[j] in Views();
        }
        forall k | k in Spec.InFlightKeys(Views()) ensures k in inFlight {
          var v :| v in Views() && v.pendingAck.Some? && v.key == k;
          var j :| 0 <= j < |sessions| && Views()[j] == v;
          assert sessions[j] in sessions;
        }
      }
      forgotten := store.PruneClients(now - settings.clientRetention.value, inFlight);
    }

    // Drops the in-memory half of clients the database has forgotten.
    method ForgetSessions(forgotten: set<Key>)
      requires Valid()
      modifies this`sessions
      ensures Valid() && forall s <- sessions :: s in old(sessions)
      ensures Views() == Spec.KeepSessions(old(Views()), forgotten)
    {
      hide Spec.KeepSessions;
      KeptViews(sessions, forgotten);
      KeptApart(sessions, forgotten);
      KeptMembers(sessions, forgotten);
      sessions := Kept(sessions, forgotten);
    }

    // The table without the entries of `forgotten`, the others in their order.
    static function Kept(table: seq<ClientSession>, forgotten: set<Key>): (kept: seq<ClientSession>) {
      if table == [] then []
      else (if table[0].key in forgotten then [] else [table[0]]) + Kept(table[1..], forgotten)
    }

    static lemma {:induction false} KeptApart(table: seq<ClientSession>, forgotten: set<Key>)
      requires Apart(table)
      ensures Apart(Kept(table, forgotten))
    {
      if table != [] {
        KeptApart(table[1..], forgotten);
        KeptMembers(table[1..], forgotten);
        assert forall s <- table[1..] :: s != table[0] && s.key != table[0].key;
        FirstApart(table[0], table[1..], Kept(table[1..], forgotten));
      }
    }

    static lemma FirstApart(first: ClientSession, more: seq<ClientSession>, rest: seq<ClientSession>)
      requires forall s <- more :: s != first && s.key != first.key
      requires Apart(rest) && forall s <- rest :: s in more
      ensures Apart([first] + rest)
    {
      assert forall i :: 0 <= i < |rest| ==> rest[i] in rest && rest[i] in more;
    }

    static lemma {:induction false} KeptMembers(table: seq<ClientSession>, forgotten: set<Key>)
      ensures forall s <- Kept(table, forgotten) :: s in table && s.key !in forgotten
    {
      if table != [] {
        KeptMembers(table[1..], forgotten);
      }
    }

    static lemma {:induction false} KeptViews(table: seq<ClientSession>, forgotten: set<Key>)
      ensures ViewsOf(Kept(table, forgotten)) == Spec.KeepSessions(ViewsOf(table), forgotten)
    {
      if table != [] {
        KeptViews(table[1..], forgotten);
        assert ViewsOf(table)[1..] == ViewsOf(table[1..]);
        if table[0].key !in forgotten {
          PrependView(table[0], Kept(table[1..], forgotten));
        }
      }
    }

    static lemma PrependView(session: ClientSession, kept: seq<ClientSession>)
      ensures ViewsOf([session] + kept) == [session.View()] + ViewsOf(kept)
    {
    }

    method StorePost(author: Key, text: string, now: int, sweptAt: int) returns (ts: int)
      requires Valid()
      modifies this`sessions, this`log, store
      ensures Valid() && forall s <- sessions :: s in old(sessions)
      ensures State() == Spec.StorePost(old(State()), author, text, now, sweptAt)
      ensures ts == NextPostTs(old(store.posts), now)
    {
      hide Repo.PrunePosts, NextPostTs, Spec.RetainedClients, Spec.KeepSessions;
      ghost var post := Post(NextPostTs(store.posts, now), author, text);
      var forgotten: set<Key>;
      ts, forgotten := AddAndPrune(author, text, now, sweptAt);
      log := log.(history := log.history + [post]);
      assert Views() == old(Views());
      ForgetSessions(forgotten);
    }

    // The transaction of a new post: add it, then apply both retention policies, clients
    // first.
    method AddAndPrune(author: Key, text: string, now: int, sweptAt: int) returns (ts: int, forgotten: set<Key>)
      modifies store
      ensures ts == NextPostTs(old(store.posts), now)
      ensures store.clients == Spec.RetainedClients(settings, old(store.clients), Views(), sweptAt)
      ensures forgotten == old(store.clients).Keys - store.clients.Keys
      ensures store.posts
           == Repo.PrunePosts(old(store.posts) + [Post(ts, author, text)], store.clients,
                              if settings.postRetention.Some? then Some(now - settings.postRetention.value) else None,
                              settings.maxPosts)
    {
      hide Repo.PrunePosts, NextPostTs, Spec.RetainedClients;
      ts := NextPostTs(store.posts, now);
      var _ := store.AddPost(author, text, ts);
      forgotten := PruneClients(sweptAt);
      var _ := store.PrunePosts(if settings.postRetention.Some? then Some(now - settings.postRetention.value) else None,
                                settings.maxPosts);
    }

    // Returns whether to acknowledge the message.
    method AcceptPost(key: Key, role: Role, m: TextMessage, isRetry: bool, clock: Spec.Readings) returns (accepted: bool)
      requires Valid()
      modifies this`sessions, this`log, store
      ensures Valid() && forall s <- sessions :: s in old(sessions)
      ensures (State(), accepted) == Spec.AcceptPost(env, old(State()), key, role, m, isRetry, clock)
    {
      hide Spec.StorePost;
      if !role.MayPost() {
        return false;
      }
      if isRetry {
        return true;
      }
      var text := PostText(env.lossy(m.Body()));
      if text == "" {
        return true;
      }
      ghost var life := log.LifeOf(key);
      log := log.(lives := log.lives[key := life.(effects := life.effects + [m.timestamp])]);
      assert State() == Spec.WithEffect(old(State()), key, m.timestamp);
      var _ := StorePost(key, text, clock.storedAt, clock.sweptAt);
      return true;
    }

    method RunConsole(key: Key, role: Role, m: TextMessage, isRetry: bool, clock: Spec.Readings)
      requires Valid()
      modifies this`sessions, this`log, store
      ensures Valid() && forall s <- sessions :: s in old(sessions)
      ensures State() == Spec.RunConsole(env, old(State()), key, role, m, isRetry, clock)
    {
      hide Spec.StorePost;
      if role != Admin || isRetry {
        return;
      }
      ghost var life := log.LifeOf(key);
      log := log.(lives := log.lives[key := life.(effects := life.effects + [m.timestamp])]);
      assert State() == Spec.WithEffect(old(State()), key, m.timestamp);
      match env.console(m.Body()) {
        case Other =>
        case RoomPost(message) =>
          var _ := StorePost(env.roomKey, PostText(env.lossy(message)), clock.storedAt, clock.sweptAt);
      }
    }

    // Any message that is no replay resets the failure counter: the client is talking.
    method Hear(i: nat, timestamp: int, now: int)
      requires Valid() && i < |sessions|
      modifies this`log, sessions[i]
      ensures Valid() && State() == Spec.Heard(old(State()), i, timestamp, now)
      ensures sessions[i].role == old(sessions[i].role)
      ensures sessions[i].outPath == old(sessions[i].outPath) && sessions[i].outPathLen == old(sessions[i].outPathLen)
    {
      var session := sessions[i];
      session.lastTimestamp := timestamp;
      session.lastActivity := now;
      session.pushFailures := 0;
      log := log.(lives := log.lives[session.key := log.LifeOf(session.key).(pushes := 0)]);
      OneSessionChanged(i);
    }

    method OnText(i: nat, m: TextMessage, clock: Spec.Readings) returns (sent: seq<Spec.Sent>)
      requires Valid() && i < |sessions| && m.Valid()
      modifies this`sessions, this`log, store, sessions
      ensures Valid() && forall s <- sessions :: s in old(sessions)
      ensures Spec.Effect(State(), sent) == Spec.OnText(env, old(State()), old(sessions[i].key), m, clock)
    {
      hide Spec.AcceptPost, Spec.RunConsole, Spec.Heard;
      FindAt(i);
      var session := sessions[i];
      if m.txtType.SignedPlain? || m.timestamp < session.lastTimestamp {
        return [];
      }
      var isRetry := m.timestamp == session.lastTimestamp;
      Hear(i, m.timestamp, clock.heardAt);
      if m.txtType.CliData? {
        RunConsole(session.key, session.role, m, isRetry, clock);
        return [];
      }
      var accepted := AcceptPost(session.key, session.role, m, isRetry, clock);
      sent := if accepted && session.View().Addressable() then [Spec.TextAck(session.key, env.prim.AckHash(m.Encode(), session.key))] else [];
    }

    // -- requests ------------------------------------------------------------

    // Takes the claim a keep-alive makes, in memory and on disk.
    method ForceCursor(i: nat, forceSince: int)
      requires Valid() && i < |sessions|
      modifies this`log, store, sessions[i]
      ensures Valid() && State() == Spec.ForceCursor(old(State()), i, forceSince)
    {
      var session := sessions[i];
      if forceSince > 0 && forceSince != session.syncSince {
        ghost var cut := State().Cut();
        session.syncSince := forceSince;
        store.ForceSyncSince(session.key, forceSince);
        log := log.(tracks := log.tracks[session.key := Spec.Track(forceSince, if cut < 0 then 0 else cut, [])]);
        OneSessionChanged(i);
      }
    }

    method ClearSlot(i: nat)
      requires Valid() && i < |sessions|
      modifies this`log, sessions[i]
      ensures Valid() && State() == Spec.ClearSlot(old(State()), i)
    {
      var session := sessions[i];
      session.pendingAck := None;
      log := log.(lives := log.lives[session.key := log.LifeOf(session.key).(inFlight := None)]);
      OneSessionChanged(i);
    }

    method OnKeepAlive(i: nat, request: ServerRequest) returns (sent: seq<Spec.Sent>)
      requires Valid() && i < |sessions| && request.Valid()
      modifies this`log, store, sessions[i]
      ensures Valid()
      ensures Spec.Effect(State(), sent) == Spec.OnKeepAlive(env, old(State()), i, request)
    {
      hide CountUnsynced, Spec.ForceSince, Spec.ForceCursor, Spec.ClearSlot;
      ForceCursor(i, Spec.ForceSince(request.data));
      ClearSlot(i);
      var session := sessions[i];
      if !session.HasOutPath() || |session.outPath| > MAX_PATH_SIZE {
        return [];
      }
      var checksum := env.prim.AckHash(Slice(request.Encode(), 0, 9), session.key);
      var unsynced := CountUnsynced(store.posts, session.key, session.syncSince);
      return [Spec.KeepAliveAck(session.key, checksum, if unsynced < 0xFF then unsynced else 0xFF)];
    }

    method OnRequest(i: nat, request: ServerRequest, direct: bool, now: int) returns (sent: seq<Spec.Sent>)
      requires Valid() && i < |sessions| && request.Valid()
      modifies this`log, store, sessions
      ensures Valid()
      ensures Spec.Effect(State(), sent) == Spec.OnRequest(env, old(State()), sessions[i].key, request, direct, now)
    {
      hide Spec.Heard, Spec.OnKeepAlive;
      FindAt(i);
      if request.timestamp < sessions[i].lastTimestamp {
        return [];
      }
      Hear(i, request.timestamp, now);
      if request.reqType == Spec.KEEP_ALIVE && direct {
        sent := OnKeepAlive(i, request);
        return;
      }
      return [];
    }

    // -- the push loop -------------------------------------------------------

    method ExpirePendingAcks(now: real)
      requires Valid()
      modifies sessions
      ensures Valid() && State() == Spec.ExpirePendingAcks(old(State()), now)
    {
      for i := 0 to |sessions|
        invariant forall j :: 0 <= j < i ==> sessions[j].View() == Spec.Expired(old(sessions[j].View()), now)
        invariant forall j :: i <= j < |sessions| ==> sessions[j].View() == old(sessions[j].View())
      {
        hide Spec.Expired;
        sessions[i].ExpirePendingAck(now);
      }
      assert Views() == Spec.ExpirePendingAcks(old(State()), now).sessions by {
        hide Spec.Expired;
      }
    }

    // Arms the slot of session `i` and sends. A path too long for a packet raises once the
    // slot is armed.
    method Push(i: nat, plaintext: seq<Byte>, ghost post: Option<Post>, postTs: int, isWelcome: bool, tick: Spec.Tick,
                ghost sent: Spec.Sent)
      returns (outcome: Spec.Outcome)
      requires Valid() && i < |sessions|
      requires isWelcome == (post == None) && postTs == if post.Some? then post.value.ts else 0
      modifies this`log, sessions[i]
      ensures Valid() && outcome == if old(sessions[i].View()).Addressable() then Spec.Pushed else Spec.Raised
      ensures State() == Spec.Arm(env, old(State()), i, plaintext, post, sent, tick).world
    {
      hide Spec.AckTimeout;
      var session := sessions[i];
      var timeout := Spec.AckTimeout(env, session.View(), tick.armAt);
      session.Arm(env.prim.AckHash(plaintext, session.key), postTs, isWelcome);
      ghost var life := log.LifeOf(session.key);
      log := log.(lives := log.lives[session.key := life.(pushes := life.pushes + 1, inFlight := post)]);
      if session.HasOutPath() && |session.outPath| > MAX_PATH_SIZE {
        outcome := Spec.Raised;
      } else {
        session.ackTimeout := timeout;
        outcome := Spec.Pushed;
      }
      OneSessionChanged(i);
    }

    method PushOnce(tick: Spec.Tick) returns (outcome: Spec.Outcome, sent: seq<Spec.Sent>)
      requires Valid()
      modifies this`roundRobin, this`log, sessions
      ensures Valid()
      ensures Spec.PushResult(State(), outcome, sent) == Spec.PushOnce(env, old(State()), tick)
    {
      hide Spec.PushTo, Spec.ExpirePendingAcks;
      ExpirePendingAcks(tick.expireAt);
      if sessions == [] {
        return Spec.Idle, [];
      }
      roundRobin := roundRobin % |sessions|;
      var i := roundRobin;
      roundRobin := (roundRobin + 1) % |sessions|;
      outcome, sent := PushTo(i, tick);
    }

    // The turn of session `i`: a welcome chunk if any is queued, else the oldest post owed.
    method PushTo(i: nat, tick: Spec.Tick) returns (outcome: Spec.Outcome, sent: seq<Spec.Sent>)
      requires Valid() && i < |sessions|
      modifies this`log, sessions[i]
      ensures Valid()
      ensures Spec.PushResult(State(), outcome, sent) == Spec.PushTo(env, old(State()), i, tick)
    {
      hide Spec.Arm, BuildPush, NextUnsynced;
      var session := sessions[i];
      if session.pendingAck != None || session.lastActivity == 0
         || session.pushFailures >= env.timings.maxPushFailures {
        return Spec.Idle, [];
      }
      if session.welcome != [] {
        var built := BuildPush(tick.uniqueNow, env.roomKey, session.welcome[0], tick.attempt, |session.outPath|);
        if built == None {
          return Spec.Raised, [];
        }
        outcome := Push(i, built.value, None, 0, true, tick, Spec.WelcomePush(session.key, built.value));
        sent := if outcome == Spec.Pushed then [Spec.WelcomePush(session.key, built.value)] else [];
        ArmResult(old(State()), i, built.value, None, Spec.WelcomePush(session.key, built.value), tick);
        return;
      }
      var next := NextUnsynced(store.posts, session.key, session.syncSince, tick.now - env.timings.postSyncDelay);
      if next == None {
        return Spec.Idle, [];
      }
      var post := next.value;
      var built := BuildPush(post.ts, post.author, post.text, tick.attempt, |session.outPath|);
      if built == None {
        return Spec.Raised, [];
      }
      outcome := Push(i, built.value, next, post.ts, false, tick, Spec.PostPush(session.key, post, built.value));
      sent := if outcome == Spec.Pushed then [Spec.PostPush(session.key, post, built.value)] else [];
      ArmResult(old(State()), i, built.value, next, Spec.PostPush(session.key, post, built.value), tick);
    }

    lemma ArmResult(w: Spec.World, i: nat, plaintext: seq<Byte>, post: Option<Post>, sent: Spec.Sent, tick: Spec.Tick)
      requires i < |w.sessions|
      ensures
        var r := Spec.Arm(env, w, i, plaintext, post, sent, tick);
        if w.sessions[i].Addressable() then r.outcome == Spec.Pushed && r.sent == [sent]
        else r.outcome == Spec.Raised && r.sent == []
    {
    }

    // -- configuration ---------------------------------------------------

    method ApplySettings(settings: Settings)
      requires Valid()
      modifies this`settings, sessions
      ensures Valid() && State() == Spec.ApplySettings(old(State()), settings)
    {
      this.settings := settings;
      for i := 0 to |sessions|
        invariant this.settings == settings
        invariant forall j :: 0 <= j < i ==> sessions[j].View() == Spec.Resettled(settings, old(sessions[j].View()))
        invariant forall j :: i <= j < |sessions| ==> sessions[j].View() == old(sessions[j].View())
      {
        hide Spec.Resettled;
        sessions[i].ApplySettings(settings);
      }
      assert Views() == Spec.ApplySettings(old(State()), settings).sessions by {
        hide Spec.Resettled;
      }
    }

    // -- events --------------------------------------------------------------

    // What the program calls: each takes what a packet decrypted to, is the step of a run
    // for that event, and keeps the invariant all the guarantees over runs rest on. An
    // undecodable plaintext is dropped.

    method ReceiveLogin(key: Key, plaintext: seq<Byte>, flood: bool, now: int) returns (sent: seq<Spec.Sent>)
      requires Valid() && Inv(env, State())
      modifies this`sessions, this`log, store, sessions
      ensures Valid() && Inv(env, State())
      ensures State() == Runs.Step(env, old(State()), Runs.LoginIn(key, plaintext, flood, now))
    {
      hide Inv, Spec.Login, DecodeLogin;
      var decoded := DecodeLogin(plaintext);
      if decoded.Err? {
        return [];
      }
      LoginKeeps(env, State(), key, decoded.value, flood, now);
      sent := Login(key, decoded.value, flood, now);
    }

    method ReceiveText(i: nat, plaintext: seq<Byte>, clock: Spec.Readings) returns (sent: seq<Spec.Sent>)
      requires Valid() && i < |sessions| && env.Sound() && Inv(env, State())
      modifies this`sessions, this`log, store, sessions
      ensures Valid() && Inv(env, State())
      ensures State() == Runs.Step(env, old(State()), Runs.TextIn(old(sessions[i].key), plaintext, clock))
    {
      hide Inv, Spec.OnText, DecodeText;
      var decoded := DecodeText(plaintext);
      if decoded.Err? {
        return [];
      }
      DecodedBodyNulFree(plaintext);
      OnTextKeeps(env, State(), sessions[i].key, decoded.value, clock);
      sent := OnText(i, decoded.value, clock);
    }

    method ReceiveRequest(i: nat, plaintext: seq<Byte>, direct: bool, now: int) returns (sent: seq<Spec.Sent>)
      requires Valid() && i < |sessions| && Inv(env, State())
      modifies this`log, store, sessions
      ensures Valid() && Inv(env, State())
      ensures State() == Runs.Step(env, old(State()), Runs.RequestIn(sessions[i].key, plaintext, direct, now))
    {
      hide Inv, Spec.OnRequest, DecodeRequest;
      var decoded := DecodeRequest(plaintext);
      if decoded.Err? {
        return [];
      }
      OnRequestKeeps(env, State(), sessions[i].key, decoded.value, direct, now);
      sent := OnRequest(i, decoded.value, direct, now);
    }

    method ReceivePath(i: nat, plaintext: seq<Byte>, now: int)
      requires Valid() && i < |sessions| && Inv(env, State())
      modifies this`log, store, sessions
      ensures Valid() && Inv(env, State())
      ensures State() == Runs.Step(env, old(State()), Runs.PathIn(sessions[i].key, plaintext, now))
    {
      hide Inv, Spec.OnPathReturn, DecodePathReturn;
      var decoded := DecodePathReturn(plaintext);
      if decoded.Err? {
        return;
      }
      PathReturnInverse(plaintext);
      OnPathReturnKeeps(env, State(), sessions[i].key, decoded.value, now);
      OnPathReturn(i, decoded.value, now);
    }

    method ReceiveAck(checksum: seq<Byte>) returns (matched: bool)
      requires Valid() && Inv(env, State())
      modifies this`log, store, sessions
      ensures Valid() && Inv(env, State())
      ensures State() == Runs.Step(env, old(State()), Runs.AckIn(checksum))
      ensures matched <==> Spec.Waiting(old(Views()), checksum).Some?
    {
      hide Inv, Spec.OnAck;
      OnAckKeeps(env, State(), checksum);
      matched := OnAck(checksum);
    }

    // A step that raises ends the push loop, and with it the process: only a restart
    // follows.
    method PushStep(tick: Spec.Tick) returns (outcome: Spec.Outcome, sent: seq<Spec.Sent>)
      requires Valid() && Inv(env, State())
      modifies this`roundRobin, this`log, sessions
      ensures Valid() && Inv(env, State())
      ensures State() == Runs.Step(env, old(State()), Runs.PushStep(tick))
      ensures outcome == Spec.PushOnce(env, old(State()), tick).outcome
    {
      hide Inv, Spec.PushOnce;
      PushOnceKeeps(env, State(), tick);
      outcome, sent := PushOnce(tick);
    }

    method Reload(settings: Settings)
      requires Valid() && settings.Valid() && Inv(env, State())
      modifies this`settings, sessions
      ensures Valid() && Inv(env, State())
      ensures State() == Runs.Step(env, old(State()), Runs.Reload(settings))
    {
      hide Inv, Spec.ApplySettings;
      ApplySettingsKeeps(env, State(), settings);
      ApplySettings(settings);
    }

    // A new process starts on the database that `before` left behind.
    method Restart(ghost before: Spec.World, listing: seq<Key>, now: int)
      requires Valid() && sessions == [] && roundRobin == 0 && settings.Valid()
      requires Inv(env, before) && store.View() == before.db && log == before.log
      requires IsListing(Spec.ClientsAtStart(before, settings, now), listing)
      modifies this`sessions, this`log, store`clients
      ensures Valid() && Inv(env, State())
      ensures State() == Runs.Step(env, before, Runs.Reboot(settings, listing, now))
    {
      hide Inv, Spec.RetainedClients, Spec.Resume, Spec.FreshLives;
      RestartKeeps(env, before, settings, listing, now);
      Start(listing, now);
    }

    // -- start ---------------------------------------------------------------

    // Brings back the clients the database knows, in the order it lists them, after
    // retention has been applied.
    method Start(listing: seq<Key>, now: int)
      requires Valid() && sessions == [] && roundRobin == 0
      requires IsListing(Spec.ClientsAtStart(State(), settings, now), listing)
      modifies this`sessions, this`log, store`clients
      ensures Valid()
      ensures State() == Spec.Restart(env, old(State()), settings, listing, now)
    {
      hide Spec.Resume, Spec.RetainedClients, Spec.FreshLives;
      assert Views() == [] && Spec.InFlightKeys([]) == {};
      var _ := PruneClients(now);
      ResumeAll(listing);
      log := log.(lives := Spec.FreshLives(Views()));
    }

    method ResumeAll(listing: seq<Key>)
      requires sessions == [] && IsListing(store.clients, listing)
      modifies this`sessions
      ensures Valid() && Views() == Spec.Resume(env, settings, store.clients, listing)
    {
      hide Spec.Resumed, Spec.Resume;
      ResumeNone(env, settings, store.clients);
      assert Views() == [] && listing[..0] == [];
      for i := 0 to |listing|
        invariant Valid()
        invariant forall j :: 0 <= j < |sessions| ==> sessions[j].key in listing[..i]
        invariant Views() == Spec.Resume(env, settings, store.clients, listing[..i])
      {
        var key := listing[i];
        NotListedYet(listing, i);
        ResumeOneMore(env, settings, store.clients, listing, i);
        if env.usable(key) {
          var session := Resume(key);
          AddSession(session);
        }
      }
      assert listing[..|listing|] == listing;
    }

    // The session of a client known from its row.
    method Resume(key: Key) returns (session: ClientSession)
      requires key in store.clients
      ensures fresh(session) && session.key == key
      ensures session.View() == Spec.Resumed(settings, key, store.clients[key])
    {
      var grant := ResolveWithoutPassword(settings, key);
      var row := store.clients[key];
      session := new ClientSession(key, grant.role, grant.source);
      session.syncSince := row.syncSince;
      session.lastTimestamp := row.lastTimestamp;
      session.outPath := row.outPath;
      session.outPathLen := row.outPathLen;
      session.lastActivity := row.lastActivity;
    }

    static lemma NotListedYet(listing: seq<Key>, i: nat)
      requires i < |listing| && forall j, k :: 0 <= j < k < |listing| ==> listing[j] != listing[k]
      ensures listing[i] !in listing[..i] && listing[i] in listing[..i + 1]
      ensures forall k :: k in listing[..i] ==> k in listing[..i + 1]
    {
      assert listing[..i + 1] == listing[..i] + [listing[i]];
    }

    static lemma ResumeNone(env: Spec.Env, settings: Settings, clients: Clients)
      ensures Spec.Resume(env, settings, clients, []) == []
    {
    }

    static lemma {:induction false} ResumeOneMore(env: Spec.Env, settings: Settings, clients: Clients,
                                                  listing: seq<Key>, i: nat)
      requires i < |listing| && forall k :: k in listing ==> k in clients
      ensures
        var earlier := Spec.Resume(env, settings, clients, listing[..i]);
        Spec.Resume(env, settings, clients, listing[..i + 1])
          == if env.usable(listing[i]) then earlier + [Spec.Resumed(settings, listing[i], clients[listing[i]])] else earlier
    {
      hide Spec.Resumed;
      if i > 0 {
        ResumeOneMore(env, settings, clients, listing[1..], i - 1);
        assert listing[..i][1..] == listing[1..][..i - 1] && listing[..i + 1][1..] == listing[1..][..i];
      } else {
        assert listing[..1] == [listing[0]] && listing[..0] == [];
      }
    }
  }
}
