// One hosted room as a state machine on values: what each packet, push step, reload and
// restart does to the sessions and the database. Every handler is one atomic step.
//
// Beside the state proper runs a log, written and never read by the steps: the whole
// history of posts, what each client claimed and acknowledged since, and what each live
// session has caused so far. The invariants are stated against it.
module RoomSpec {
  import opened Bytes
  import opened Wrappers
  import opened Crypto
  import opened Packet
  import opened Posts
  import opened Acl
  import opened Sync
  import opened Repo

  datatype Timings = Timings(
    pushAckTimeoutFlood: real,
    pushTimeoutBase: real,
    pushAckTimeoutFactor: real,
    postSyncDelay: int,
    maxPushFailures: nat
  )

  // What a console line does. Only posting touches what is modelled.
  datatype ConsoleAction = Other | RoomPost(message: seq<Byte>)

  // What never changes while the room runs.
  datatype Env = Env(
    prim: Primitives,
    lossy: seq<Byte> -> string,            // UTF-8 decoding with replacement
    console: seq<Byte> -> ConsoleAction,
    usable: Key -> bool,                   // whether a key yields a shared secret
    roomKey: Key,
    timings: Timings
  ) {
    // Replacing undecodable bytes introduces no NUL, and a console line without NULs
    // posts none.
    ghost predicate Sound() {
      && (forall b: seq<Byte> {:trigger lossy(b)} :: 0 !in b ==> '\0' !in lossy(b))
      && (forall b: seq<Byte> {:trigger console(b)} :: 0 !in b && console(b).RoomPost? ==> 0 !in console(b).message)
    }
  }

  datatype Session = Session(
    key: Key,
    role: Role,
    source: RoleSource,
    syncSince: int,
    lastTimestamp: int,
    outPath: seq<Byte>,
    outPathLen: int,
    lastActivity: int,
    pendingAck: Option<seq<Byte>>,
    pushPostTs: int,
    pushIsWelcome: bool,
    ackTimeout: real,
    pushFailures: nat,
    welcome: seq<string>
  ) {
    predicate HasOutPath() {
      outPathLen != OUT_PATH_UNKNOWN
    }

    // Whether a packet addressed to this client can be built: over a known path it must
    // not exceed the 64 bytes a packet can carry.
    predicate Addressable() {
      HasOutPath() ==> |outPath| <= MAX_PATH_SIZE
    }
  }

  // What a client claimed to hold, how much of the history was already gone then, and
  // which posts it has acknowledged since.
  datatype Track = Track(claim: int, from: nat, acked: seq<Post>)

  // What a live session has caused: the client timestamps that stored a post or ran a
  // console command, the pushes since its failure counter was reset, the post in flight.
  datatype Life = Life(effects: seq<int>, pushes: nat, inFlight: Option<Post>)

  datatype Log = Log(history: seq<Post>, tracks: map<Key, Track>, lives: map<Key, Life>) {
    function TrackOf(key: Key): (t: Track) {
      if key in tracks then tracks[key] else Track(0, 0, [])
    }

    function LifeOf(key: Key): (l: Life) {
      if key in lives then lives[key] else Life([], 0, None)
    }
  }

  datatype World = World(settings: Settings, db: Db, sessions: seq<Session>, roundRobin: nat, log: Log) {
    // How many posts of the history have been pruned.
    function Cut(): (n: int) {
      |log.history| - |db.posts|
    }

    function WithLife(key: Key, life: Life): (w: World) {
      this.(log := log.(lives := log.lives[key := life]))
    }

    function WithSession(i: nat, s: Session): (w: World)
      requires i < |sessions|
    {
      this.(sessions := sessions[i := s])
    }

    function WithClients(clients: Clients): (w: World) {
      this.(db := db.(clients := clients))
    }
  }

  // What goes on the air.
  datatype Sent =
    | LoginReply(to: Key, permission: Byte)
    | TextAck(to: Key, checksum: seq<Byte>)
    | KeepAliveAck(to: Key, checksum: seq<Byte>, waiting: Byte)
    | PostPush(to: Key, post: Post, plaintext: seq<Byte>)
    | WelcomePush(to: Key, plaintext: seq<Byte>)

  datatype Effect = Effect(world: World, sent: seq<Sent>)

  function Find(sessions: seq<Session>, key: Key): (i: Option<nat>)
    ensures i.Some? ==> i.value < |sessions| && sessions[i.value].key == key
    ensures i.Some? ==> forall j :: 0 <= j < i.value ==> sessions[j].key != key
    ensures i == None ==> forall j :: 0 <= j < |sessions| ==> sessions[j].key != key
  {
    if sessions == [] then None
    else if sessions[0].key == key then Some(0)
    else
      match Find(sessions[1..], key)
      case None => None
      case Some(i) => Some(i + 1)
  }

  // -- login -----------------------------------------------------------------

  function NewSession(key: Key, grant: Grant): (s: Session) {
    Session(key, grant.role, grant.source, 0, 0, [], OUT_PATH_UNKNOWN, 0, None, 0, false, 0.0, 0, [])
  }

  function LoggedIn(settings: Settings, session: Session, grant: Grant, login: LoginRequest, flood: bool,
                    now: int): (s: Session) {
    var s := session.(role := grant.role, source := grant.source, syncSince := login.syncSince,
                      lastTimestamp := login.timestamp, lastActivity := now, pendingAck := None, pushFailures := 0);
    var routed := if flood then s.(outPath := [], outPathLen := OUT_PATH_UNKNOWN) else s;
    if login.syncSince == 0 && settings.welcome.Some? && settings.welcome.value != "" then
      routed.(welcome := SplitWelcome(settings.welcome.value))
    else routed
  }

  function Login(env: Env, w: World, key: Key, login: LoginRequest, flood: bool, now: int): (e: Effect) {
    var grant := Resolve(w.settings, key, login.password);
    var found := Find(w.sessions, key);
    if !env.usable(key) || grant == None then Effect(w, [])
    else if found.Some? && login.timestamp <= w.sessions[found.value].lastTimestamp then Effect(w, [])
    else
      var role := grant.value.role.Permission();
      var clients := RecordLogin(w.db.clients, key, role, login.timestamp, login.syncSince, now, flood);
      var session := if found.Some? then w.sessions[found.value] else NewSession(key, grant.value);
      var updated := LoggedIn(w.settings, session, grant.value, login, flood, now);
      var sessions := if found.Some? then w.sessions[found.value := updated] else w.sessions + [updated];
      var life := if found.Some? then w.log.LifeOf(key).(pushes := 0, inFlight := None) else Life([], 0, None);
      var track := Track(login.syncSince, if w.Cut() < 0 then 0 else w.Cut(), []);
      var log := w.log.(tracks := w.log.tracks[key := track], lives := w.log.lives[key := life]);
      Effect(w.(db := w.db.(clients := clients), sessions := sessions, log := log),
             if flood || updated.Addressable() then [LoginReply(key, role)] else [])
  }

  // -- posts -----------------------------------------------------------------

  function InFlightKeys(sessions: seq<Session>): (keys: set<Key>) {
    set s | s in sessions && s.pendingAck.Some? :: s.key
  }

  function RetainedClients(settings: Settings, clients: Clients, sessions: seq<Session>, now: int): (kept: Clients)
    ensures forall k :: k in kept ==> k in clients && kept[k] == clients[k]
  {
    match settings.clientRetention
    case None => clients
    case Some(retention) => PruneClients(clients, now - retention, InFlightKeys(sessions))
  }

  // The sessions of the clients the database still knows, or never knew.
  function KeepSessions(sessions: seq<Session>, forgotten: set<Key>): (kept: seq<Session>)
    ensures forall s :: s in kept <==> s in sessions && s.key !in forgotten
  {
    if sessions == [] then []
    else
      assert sessions == [sessions[0]] + sessions[1..];
      (if sessions[0].key in forgotten then [] else [sessions[0]]) + KeepSessions(sessions[1..], forgotten)
  }

  // The clock is read once for the post and its age, and again for the idle clients.
  function StorePost(w: World, author: Key, text: string, now: int, sweptAt: int): (stored: World) {
    var post := Post(NextPostTs(w.db.posts, now), author, text);
    var clients := RetainedClients(w.settings, w.db.clients, w.sessions, sweptAt);
    var olderThan := if w.settings.postRetention.Some? then Some(now - w.settings.postRetention.value) else None;
    var posts := PrunePosts(w.db.posts + [post], clients, olderThan, w.settings.maxPosts);
    w.(db := Db(posts, clients),
       sessions := KeepSessions(w.sessions, w.db.clients.Keys - clients.Keys),
       log := w.log.(history := w.log.history + [post]))
  }

  // A message that is no replay: the client is heard, and pushes to it resume.
  function Heard(w: World, i: nat, timestamp: int, now: int): (heard: World)
    requires i < |w.sessions|
  {
    var s := w.sessions[i];
    w.WithSession(i, s.(lastTimestamp := timestamp, lastActivity := now, pushFailures := 0))
     .WithLife(s.key, w.log.LifeOf(s.key).(pushes := 0))
  }

  function WithEffect(w: World, key: Key, timestamp: int): (done: World) {
    var life := w.log.LifeOf(key);
    w.WithLife(key, life.(effects := life.effects + [timestamp]))
  }

  // The clock readings a text takes: when it is heard, when its post is stored, and when
  // idle clients are swept in the same transaction.
  datatype Readings = Readings(heardAt: int, storedAt: int, sweptAt: int)

  // Whether a post is to be acknowledged, and the state after storing it if it is new.
  function AcceptPost(env: Env, w: World, key: Key, role: Role, m: TextMessage, isRetry: bool, clock: Readings)
    : (r: (World, bool))
  {
    if !role.MayPost() then (w, false)
    else if isRetry then (w, true)
    else
      var text := PostText(env.lossy(m.Body()));
      if text == "" then (w, true)
      else (StorePost(WithEffect(w, key, m.timestamp), key, text, clock.storedAt, clock.sweptAt), true)
  }

  function RunConsole(env: Env, w: World, key: Key, role: Role, m: TextMessage, isRetry: bool, clock: Readings): (r: World) {
    if !role.Admin? || isRetry then w
    else
      var done := WithEffect(w, key, m.timestamp);
      match env.console(m.Body())
      case Other => done
      case RoomPost(message) => StorePost(done, env.roomKey, PostText(env.lossy(message)), clock.storedAt, clock.sweptAt)
  }

  function OnText(env: Env, w: World, key: Key, m: TextMessage, clock: Readings): (e: Effect)
    requires m.Valid()
  {
    var found := Find(w.sessions, key);
    if found == None || m.txtType.SignedPlain? then Effect(w, [])
    else
      var s := w.sessions[found.value];
      if m.timestamp < s.lastTimestamp then Effect(w, [])
      else
        var isRetry := m.timestamp == s.lastTimestamp;
        var heard := Heard(w, found.value, m.timestamp, clock.heardAt);
        if m.txtType.CliData? then Effect(RunConsole(env, heard, key, s.role, m, isRetry, clock), [])
        else
          var (world, accepted) := AcceptPost(env, heard, key, s.role, m, isRetry, clock);
          Effect(world, if accepted && s.Addressable() then [TextAck(key, env.prim.AckHash(m.Encode(), key))] else [])
  }

  // -- requests --------------------------------------------------------------

  const KEEP_ALIVE := 2

  // The newest timestamp a keep-alive claims to hold; 0 when it claims nothing.
  function ForceSince(data: seq<Byte>): (since: int)
    ensures 0 <= since
  {
    if |data| >= 4 then ReadU32(data, 0) else 0
  }

  // The claim of a keep-alive, applied to memory and disk.
  function ForceCursor(w: World, i: nat, since: int): (forced: World)
    requires i < |w.sessions|
    ensures |forced.sessions| == |w.sessions|
  {
    var s := w.sessions[i];
    if since > 0 && since != s.syncSince then
      var track := Track(since, if w.Cut() < 0 then 0 else w.Cut(), []);
      w.WithSession(i, s.(syncSince := since))
       .WithClients(ForceSyncSince(w.db.clients, s.key, since))
       .(log := w.log.(tracks := w.log.tracks[s.key := track]))
    else w
  }

  function ClearSlot(w: World, i: nat): (cleared: World)
    requires i < |w.sessions|
    ensures |cleared.sessions| == |w.sessions|
  {
    var s := w.sessions[i];
    w.WithSession(i, s.(pendingAck := None)).WithLife(s.key, w.log.LifeOf(s.key).(inFlight := None))
  }

  function OnKeepAlive(env: Env, w: World, i: nat, request: ServerRequest): (e: Effect)
    requires i < |w.sessions| && request.Valid()
  {
    var world := ClearSlot(ForceCursor(w, i, ForceSince(request.data)), i);
    var s := world.sessions[i];
    var waiting := CountUnsynced(world.db.posts, s.key, s.syncSince);
    Effect(world,
           if s.HasOutPath() && |s.outPath| <= MAX_PATH_SIZE then
             [KeepAliveAck(s.key, env.prim.AckHash(Slice(request.Encode(), 0, 9), s.key), if waiting < 0xFF then waiting else 0xFF)]
           else [])
  }

  // Answers to requests other than keep-alives change nothing and are not modelled.
  function OnRequest(env: Env, w: World, key: Key, request: ServerRequest, direct: bool, now: int): (e: Effect)
    requires request.Valid()
  {
    var found := Find(w.sessions, key);
    if found == None || request.timestamp < w.sessions[found.value].lastTimestamp then Effect(w, [])
    else
      var heard := Heard(w, found.value, request.timestamp, now);
      if request.reqType == KEEP_ALIVE && direct then OnKeepAlive(env, heard, found.value, request)
      else Effect(heard, [])
  }

  // -- path returns and acknowledgements -------------------------------------

  function Waiting(sessions: seq<Session>, checksum: seq<Byte>): (i: Option<nat>)
    ensures i.Some? ==> i.value < |sessions| && sessions[i.value].pendingAck == Some(checksum)
    ensures i.Some? ==> forall j :: 0 <= j < i.value ==> sessions[j].pendingAck != Some(checksum)
    ensures i == None ==> forall j :: 0 <= j < |sessions| ==> sessions[j].pendingAck != Some(checksum)
  {
    if sessions == [] then None
    else if sessions[0].pendingAck == Some(checksum) then Some(0)
    else
      match Waiting(sessions[1..], checksum)
      case None => None
      case Some(i) => Some(i + 1)
  }

  // Session `i` has acknowledged its push: the next welcome chunk is up, or the cursor
  // moves to the post, in memory and on disk.
  function Acknowledged(w: World, i: nat): (world: World)
    requires i < |w.sessions|
  {
    var s := w.sessions[i];
    var life := w.log.LifeOf(s.key);
    var settled := s.(pendingAck := None, pushFailures := 0);
    if s.pushIsWelcome then
      w.WithSession(i, settled.(welcome := if s.welcome == [] then [] else s.welcome[1..]))
       .WithLife(s.key, life.(pushes := 0, inFlight := None))
    else
      var track := w.log.TrackOf(s.key);
      var acked := if life.inFlight.Some? then track.acked + [life.inFlight.value] else track.acked;
      var logged := w.log.(tracks := w.log.tracks[s.key := track.(acked := acked)]);
      w.(log := logged)
       .WithSession(i, settled.(syncSince := s.pushPostTs))
       .WithClients(AdvanceSync(w.db.clients, s.key, s.pushPostTs))
       .WithLife(s.key, life.(pushes := 0, inFlight := None))
  }

  function OnAck(w: World, checksum: seq<Byte>): (world: World) {
    match Waiting(w.sessions, checksum)
    case None => w
    case Some(i) => Acknowledged(w, i)
  }

  function LearnPath(w: World, i: nat, p: PathReturn, now: int): (world: World)
    requires i < |w.sessions| && p.Valid()
  {
    var s := w.sessions[i];
    w.WithSession(i, s.(outPath := p.path, outPathLen := p.PackedLength(), lastActivity := now))
     .WithClients(SetOutPath(w.db.clients, s.key, p.path, p.PackedLength()))
  }

  function OnPathReturn(w: World, key: Key, p: PathReturn, now: int): (world: World)
    requires p.Valid()
  {
    match Find(w.sessions, key)
    case None => w
    case Some(i) =>
      var learned := LearnPath(w, i, p, now);
      if p.extraType % 16 == AckType.Code() && |p.extra| >= ACK_LEN then OnAck(learned, p.extra[..ACK_LEN])
      else learned
  }

  // -- the push loop ---------------------------------------------------------

  function Expired(s: Session, now: real): (e: Session)
    ensures e.key == s.key
  {
    if s.pendingAck == None || now < s.ackTimeout then s
    else s.(pendingAck := None, pushFailures := s.pushFailures + 1)
  }

  function ExpirePendingAcks(w: World, now: real): (world: World)
    ensures |world.sessions| == |w.sessions|
    ensures forall i :: 0 <= i < |w.sessions| ==> world.sessions[i] == Expired(w.sessions[i], now)
    ensures world == w.(sessions := world.sessions)
  {
    w.(sessions := seq(|w.sessions|, i requires 0 <= i < |w.sessions| => Expired(w.sessions[i], now)))
  }

  // The clock readings and the random bits one push step takes.
  datatype Tick = Tick(expireAt: real, now: int, uniqueNow: int, attempt: int, armAt: real)

  datatype Outcome = Idle | Pushed | Raised

  datatype PushResult = PushResult(world: World, outcome: Outcome, sent: seq<Sent>)

  predicate Eligible(env: Env, s: Session) {
    s.pendingAck == None && s.lastActivity != 0 && s.pushFailures < env.timings.maxPushFailures
  }

  function AckTimeout(env: Env, s: Session, now: real): (t: real) {
    var t := env.timings;
    now + if s.HasOutPath() then t.pushTimeoutBase + t.pushAckTimeoutFactor * (s.outPathLen % 64 + 1) as real
          else t.pushAckTimeoutFlood
  }

  // Arms the slot of session `i` with the expected acknowledgement. A path too long for a
  // packet raises after that, before the timeout is set.
  function Arm(env: Env, w: World, i: nat, plaintext: seq<Byte>, post: Option<Post>, sent: Sent, tick: Tick): (r: PushResult)
    requires i < |w.sessions|
  {
    var s := w.sessions[i];
    var life := w.log.LifeOf(s.key);
    var armed := s.(pendingAck := Some(env.prim.AckHash(plaintext, s.key)),
                    pushPostTs := if post.Some? then post.value.ts else 0,
                    pushIsWelcome := post == None);
    var logged := w.WithLife(s.key, life.(pushes := life.pushes + 1, inFlight := post));
    if s.Addressable() then
      PushResult(logged.WithSession(i, armed.(ackTimeout := AckTimeout(env, s, tick.armAt))), Pushed, [sent])
    else
      PushResult(logged.WithSession(i, armed), Raised, [])
  }

  function PushTo(env: Env, w: World, i: nat, tick: Tick): (r: PushResult)
    requires i < |w.sessions|
  {
    var s := w.sessions[i];
    if !Eligible(env, s) then PushResult(w, Idle, [])
    else if s.welcome != [] then
      match BuildPush(tick.uniqueNow, env.roomKey, s.welcome[0], tick.attempt, |s.outPath|)
      case None => PushResult(w, Raised, [])
      case Some(plaintext) => Arm(env, w, i, plaintext, None, WelcomePush(s.key, plaintext), tick)
    else
      match NextUnsynced(w.db.posts, s.key, s.syncSince, tick.now - env.timings.postSyncDelay)
      case None => PushResult(w, Idle, [])
      case Some(post) =>
        match BuildPush(post.ts, post.author, post.text, tick.attempt, |s.outPath|)
        case None => PushResult(w, Raised, [])
        case Some(plaintext) => Arm(env, w, i, plaintext, Some(post), PostPush(s.key, post, plaintext), tick)
  }

  // One round-robin step: whatever the visited session's turn brings, the next call
  // visits the next one.
  function PushOnce(env: Env, w: World, tick: Tick): (r: PushResult) {
    var expired := ExpirePendingAcks(w, tick.expireAt);
    if expired.sessions == [] then PushResult(expired, Idle, [])
    else
      var n := |expired.sessions|;
      var visited := expired.roundRobin % n;
      PushTo(env, expired.(roundRobin := (visited + 1) % n), visited, tick)
  }

  // -- configuration and restart ---------------------------------------------

  function Resettled(settings: Settings, s: Session): (r: Session)
    ensures r == s.(role := r.role, source := r.source)
  {
    if s.key in settings.members then s.(role := settings.members[s.key], source := Member)
    else if s.source.Member? then
      var grant := ResolveWithoutPassword(settings, s.key);
      s.(role := grant.role, source := AllowUnknown)
    else s
  }

  function ApplySettings(w: World, settings: Settings): (world: World)
    ensures |world.sessions| == |w.sessions|
    ensures forall i :: 0 <= i < |w.sessions| ==> world.sessions[i] == Resettled(settings, w.sessions[i])
    ensures world == w.(settings := settings, sessions := world.sessions)
  {
    w.(settings := settings,
       sessions := seq(|w.sessions|, i requires 0 <= i < |w.sessions| => Resettled(settings, w.sessions[i])))
  }

  function Resumed(settings: Settings, key: Key, row: Row): (s: Session) {
    NewSession(key, ResolveWithoutPassword(settings, key))
      .(syncSince := row.syncSince, lastTimestamp := row.lastTimestamp, outPath := row.outPath,
        outPathLen := row.outPathLen, lastActivity := row.lastActivity)
  }

  // Sessions for the listed clients, skipping keys that yield no shared secret.
  function Resume(env: Env, settings: Settings, clients: Clients, listing: seq<Key>): (sessions: seq<Session>)
    requires forall k :: k in listing ==> k in clients
  {
    if listing == [] then []
    else
      (if env.usable(listing[0]) then [Resumed(settings, listing[0], clients[listing[0]])] else [])
      + Resume(env, settings, clients, listing[1..])
  }

  function FreshLives(sessions: seq<Session>): (lives: map<Key, Life>) {
    map s <- sessions :: s.key := Life([], 0, None)
  }

  function ClientsAtStart(w: World, settings: Settings, now: int): (clients: Clients) {
    RetainedClients(settings, w.db.clients, [], now)
  }

  // The process dies and a new one starts on the same database. `listing` is the order
  // in which the database lists the clients that survive retention.
  function Restart(env: Env, w: World, settings: Settings, listing: seq<Key>, now: int): (world: World)
    requires IsListing(ClientsAtStart(w, settings, now), listing)
  {
    var clients := ClientsAtStart(w, settings, now);
    var sessions := Resume(env, settings, clients, listing);
    World(settings, Db(w.db.posts, clients), sessions, 0, w.log.(lives := FreshLives(sessions)))
  }
}
