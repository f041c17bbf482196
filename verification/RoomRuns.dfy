// Whole runs of a room: any sequence of packets, push steps, reloads and restarts, with
// any clock readings, from an empty database.
module RoomRuns {
  import opened Bytes
  import opened Wrappers
  import opened Crypto
  import opened Packet
  import opened Posts
  import opened Acl
  import opened Sync
  import opened Repo
  import opened RoomSpec
  import opened RoomInvariant

  // What can happen to a room. Plaintexts are whatever bytes a packet decrypted to.
  datatype Event =
    | LoginIn(key: Key, plaintext: seq<Byte>, flood: bool, now: int)
    | TextIn(key: Key, plaintext: seq<Byte>, clock: Readings)
    | RequestIn(key: Key, plaintext: seq<Byte>, direct: bool, now: int)
    | PathIn(key: Key, plaintext: seq<Byte>, now: int)
    | AckIn(checksum: seq<Byte>)
    | PushStep(tick: Tick)
    | Reload(settings: Settings)
    | Reboot(settings: Settings, listing: seq<Key>, now: int)

  // A configuration that passed validation, and a listing the database could have given.
  ghost predicate CanHappen(w: World, e: Event) {
    match e
    case Reload(settings) => settings.Valid()
    case Reboot(settings, listing, now) => settings.Valid() && IsListing(ClientsAtStart(w, settings, now), listing)
    case _ => true
  }

  ghost function Step(env: Env, w: World, e: Event): (w': World)
    requires CanHappen(w, e)
  {
    match e
    case LoginIn(key, plaintext, flood, now) =>
      (match DecodeLogin(plaintext)
       case Err(_) => w
       case Ok(login) => Login(env, w, key, login, flood, now).world)
    case TextIn(key, plaintext, clock) =>
      (match DecodeText(plaintext)
       case Err(_) => w
       case Ok(m) => OnText(env, w, key, m, clock).world)
    case RequestIn(key, plaintext, direct, now) =>
      (match DecodeRequest(plaintext)
       case Err(_) => w
       case Ok(request) => OnRequest(env, w, key, request, direct, now).world)
    case PathIn(key, plaintext, now) =>
      (match DecodePathReturn(plaintext)
       case Err(_) => w
       case Ok(p) => PathReturnInverse(plaintext); OnPathReturn(w, key, p, now))
    case AckIn(checksum) => OnAck(w, checksum)
    case PushStep(tick) => PushOnce(env, w, tick).world
    case Reload(settings) => ApplySettings(w, settings)
    case Reboot(settings, listing, now) => Restart(env, w, settings, listing, now)
  }

  ghost predicate IsRun(env: Env, w: World, events: seq<Event>)
    decreases |events|
  {
    events != [] ==> CanHappen(w, events[0]) && IsRun(env, Step(env, w, events[0]), events[1..])
  }

  ghost function Run(env: Env, w: World, events: seq<Event>): (w': World)
    requires IsRun(env, w, events)
    decreases |events|
  {
    if events == [] then w else Run(env, Step(env, w, events[0]), events[1..])
  }

  function Empty(settings: Settings): (w: World) {
    World(settings, Db([], map[]), [], 0, Log([], map[], map[]))
  }

  lemma StepKeeps(env: Env, w: World, e: Event)
    requires env.Sound() && Inv(env, w) && CanHappen(w, e)
    ensures Inv(env, Step(env, w, e))
  {
    hide Inv, Login, OnText, OnRequest, OnPathReturn, OnAck, PushOnce, Restart;
    match e {
      case LoginIn(key, plaintext, flood, now) =>
        if DecodeLogin(plaintext).Ok? {
          LoginKeeps(env, w, key, DecodeLogin(plaintext).value, flood, now);
        }
      case TextIn(key, plaintext, clock) =>
        if DecodeText(plaintext).Ok? {
          DecodedBodyNulFree(plaintext);
          OnTextKeeps(env, w, key, DecodeText(plaintext).value, clock);
        }
      case RequestIn(key, plaintext, direct, now) =>
        if DecodeRequest(plaintext).Ok? {
          OnRequestKeeps(env, w, key, DecodeRequest(plaintext).value, direct, now);
        }
      case PathIn(key, plaintext, now) =>
        if DecodePathReturn(plaintext).Ok? {
          PathReturnInverse(plaintext);
          OnPathReturnKeeps(env, w, key, DecodePathReturn(plaintext).value, now);
        }
      case AckIn(checksum) => OnAckKeeps(env, w, checksum);
      case PushStep(tick) => PushOnceKeeps(env, w, tick);
      case Reload(settings) => ApplySettingsKeeps(env, w, settings);
      case Reboot(settings, listing, now) => RestartKeeps(env, w, settings, listing, now);
    }
  }

  lemma {:induction false} RunKeeps(env: Env, w: World, events: seq<Event>)
    requires env.Sound() && Inv(env, w) && IsRun(env, w, events)
    ensures Inv(env, Run(env, w, events))
    decreases |events|
  {
    hide Inv, Step;
    if events != [] {
      StepKeeps(env, w, events[0]);
      RunKeeps(env, Step(env, w, events[0]), events[1..]);
    }
  }

  lemma EveryRunKeepsTheInvariant(env: Env, settings: Settings, events: seq<Event>)
    requires env.Sound() && settings.Valid() && IsRun(env, Empty(settings), events)
    ensures Inv(env, Run(env, Empty(settings), events))
  {
    RunKeeps(env, Empty(settings), events);
  }

  // -- the sync guarantee ----------------------------------------------------

  // In every run, what a client has acknowledged since its last claim is, in order and
  // once each, every post it did not write between the claim and its cursor, out of those
  // still stored when it claimed or issued since. The session agrees on the cursor.
  lemma GapFreeSync(env: Env, settings: Settings, events: seq<Event>, key: Key)
    requires env.Sound() && settings.Valid() && IsRun(env, Empty(settings), events)
    requires key in Run(env, Empty(settings), events).db.clients
    ensures
      var w := Run(env, Empty(settings), events);
      && key in w.log.tracks
      && var track, cursor := w.log.tracks[key], w.db.clients[key].syncSince;
      && track.from <= |w.log.history|
      && Increasing(track.acked)
      && (forall p :: p in track.acked <==>
           p in w.log.history[track.from..] && p.author != key && track.claim < p.ts <= cursor)
      && forall i :: 0 <= i < |w.sessions| && w.sessions[i].key == key ==> w.sessions[i].syncSince == cursor
  {
    hide Run, StorableText, PathOk, SlotOk, HasSession, Select;
    EveryRunKeepsTheInvariant(env, settings, events);
    var w := Run(env, Empty(settings), events);
    assert RowAt(env, w, key);
    var track, row := w.log.tracks[key], w.db.clients[key];
    var since := w.log.history[track.from..];
    SelectIncreasing(since, key, track.claim, row.syncSince);
    forall p ensures p in track.acked <==> p in since && p.author != key && track.claim < p.ts <= row.syncSince {
      SelectMembers(since, key, track.claim, row.syncSince, p);
    }
    forall i | 0 <= i < |w.sessions| && w.sessions[i].key == key ensures w.sessions[i].syncSince == row.syncSince {
      assert SessionAt(env, w, i);
    }
  }

  // In every run, everything a known client is still owed is still stored: of the posts
  // stored when it claimed or issued since, no prune has taken one above its cursor.
  lemma NothingOwedIsLost(env: Env, settings: Settings, events: seq<Event>, key: Key)
    requires env.Sound() && settings.Valid() && IsRun(env, Empty(settings), events)
    requires key in Run(env, Empty(settings), events).db.clients
    ensures
      var w := Run(env, Empty(settings), events);
      && key in w.log.tracks
      && var from, cursor := w.log.tracks[key].from, w.db.clients[key].syncSince;
      && from <= |w.log.history|
      && Owed(w.log.history[from..], key, cursor) == Owed(w.db.posts, key, cursor)
      && (forall p :: p in w.log.history[from..] && p.ts > cursor ==> p in w.db.posts)
  {
    hide Run, Inv, Owed;
    EveryRunKeepsTheInvariant(env, settings, events);
    OwedIsStored(env, Run(env, Empty(settings), events), key);
  }

  lemma OwedIsStored(env: Env, w: World, key: Key)
    requires Inv(env, w) && key in w.db.clients
    ensures
      && key in w.log.tracks
      && var from, cursor := w.log.tracks[key].from, w.db.clients[key].syncSince;
      && from <= |w.log.history|
      && Owed(w.log.history[from..], key, cursor) == Owed(w.db.posts, key, cursor)
      && (forall p :: p in w.log.history[from..] && p.ts > cursor ==> p in w.db.posts)
  {
    hide StorableText, PathOk, SessionAt, HasSession, Select, Owed;
    assert RowAt(env, w, key);
    var from, cut := w.log.tracks[key].from, w.Cut();
    var since := w.log.history[from..];
    assert since[cut - from..] == w.db.posts;
    OwedAfterDrop(since, cut - from, key, w.db.clients[key].syncSince);
    AboveIsAfter(since, cut - from, w.db.clients[key].syncSince);
  }

  lemma AboveIsAfter(posts: seq<Post>, n: nat, cursor: int)
    requires n <= |posts| && forall i :: 0 <= i < n ==> posts[i].ts <= cursor
    ensures forall p :: p in posts && p.ts > cursor ==> p in posts[n..]
  {
    forall p | p in posts && p.ts > cursor ensures p in posts[n..] {
      var i :| 0 <= i < |posts| && posts[i] == p;
      assert posts[n..][i - n] == p;
    }
  }

  // In every run, with any clock, timestamps rise strictly over the whole history, the
  // stored posts are its end, and the newest post is never pruned.
  lemma HistoryOnlyGrows(env: Env, settings: Settings, events: seq<Event>)
    requires env.Sound() && settings.Valid() && IsRun(env, Empty(settings), events)
    ensures
      var w := Run(env, Empty(settings), events);
      && Increasing(w.log.history)
      && |w.db.posts| <= |w.log.history|
      && w.db.posts == w.log.history[|w.log.history| - |w.db.posts|..]
      && (w.log.history != [] ==> w.db.posts != [])
      && forall p :: p in w.log.history ==> StorableText(p.text)
  {
    hide Run, StorableText, SessionAt, RowAt;
    EveryRunKeepsTheInvariant(env, settings, events);
  }

  // Memory and disk agree in every run, on exactly the clients that can be talked to.
  lemma MemoryMatchesDisk(env: Env, settings: Settings, events: seq<Event>)
    requires env.Sound() && settings.Valid() && IsRun(env, Empty(settings), events)
    ensures
      var w := Run(env, Empty(settings), events);
      && (forall k :: (k in w.db.clients && env.usable(k)) <==> HasSession(w.sessions, k))
      && Distinct(w.sessions)
      && forall i :: 0 <= i < |w.sessions| ==>
           w.sessions[i].key in w.db.clients && MatchesRow(w.db.clients[w.sessions[i].key], w.sessions[i])
  {
    hide Run, PathOk, SlotOk, AirtimeOk, EffectsOk, RowOk, HistoryOk;
    EveryRunKeepsTheInvariant(env, settings, events);
    var w := Run(env, Empty(settings), events);
    forall k ensures (k in w.db.clients && env.usable(k)) <==> HasSession(w.sessions, k) {
      if k in w.db.clients {
        assert RowAt(env, w, k);
      }
      if HasSession(w.sessions, k) {
        var i :| 0 <= i < |w.sessions| && w.sessions[i].key == k;
        assert SessionAt(env, w, i);
      }
    }
    forall i | 0 <= i < |w.sessions|
      ensures w.sessions[i].key in w.db.clients && MatchesRow(w.db.clients[w.sessions[i].key], w.sessions[i])
    {
      assert SessionAt(env, w, i);
    }
  }

  // In every run, each session's slot is sound, its airtime is bounded, and its effects
  // happened at strictly rising timestamps.
  lemma EverySessionBehaves(env: Env, settings: Settings, events: seq<Event>, i: nat)
    requires env.Sound() && settings.Valid() && IsRun(env, Empty(settings), events)
    requires i < |Run(env, Empty(settings), events).sessions|
    ensures
      var w := Run(env, Empty(settings), events);
      var s, life := w.sessions[i], w.log.LifeOf(w.sessions[i].key);
      && SlotOk(env, w.db.posts, life, s)
      && life.pushes <= s.pushFailures + Pending(s) <= env.timings.maxPushFailures
      && EffectsOk(life, s)
  {
    hide Run, PathOk, SlotOk, RowAt, HistoryOk, EffectsOk;
    EveryRunKeepsTheInvariant(env, settings, events);
    assert SessionAt(env, Run(env, Empty(settings), events), i);
  }

  // -- acknowledgements and restarts -----------------------------------------

  // The forward-only guard on disk never stops a real acknowledgement: the cursor moves to
  // the acknowledged post in memory and on disk, exactly one post fewer is owed, and the
  // one acknowledged is the oldest.
  lemma AckAdvancesByOne(env: Env, w: World, checksum: seq<Byte>, i: nat)
    requires Inv(env, w) && Waiting(w.sessions, checksum) == Some(i) && !w.sessions[i].pushIsWelcome
    ensures
      var s, s' := w.sessions[i], OnAck(w, checksum).sessions[i];
      var clients := OnAck(w, checksum).db.clients;
      var owed := Owed(w.db.posts, s.key, s.syncSince);
      && owed != []
      && s.syncSince < s'.syncSince == owed[0].ts == s.pushPostTs
      && s.key in clients && clients[s.key].syncSince == s'.syncSince
      && Owed(w.db.posts, s.key, s'.syncSince) == owed[1..]
      && CountUnsynced(w.db.posts, s.key, s'.syncSince) == CountUnsynced(w.db.posts, s.key, s.syncSince) - 1
      && OnAck(w, checksum).log.TrackOf(s.key).acked == w.log.TrackOf(s.key).acked + [owed[0]]
      && s'.pendingAck == None && s'.pushFailures == 0 && s'.welcome == s.welcome
  {
    hide Inv, RowOk, PathOk, AcksPush, Owed;
    AtSession(env, w, i);
    var s := w.sessions[i];
    AckMovesCursor(env, w, s.key);
    OwedAfterOldest(w.db.posts, s.key, s.syncSince);
  }

  // A restart moves no retained client's cursor, loses nothing it is owed, and forgets only
  // what cannot survive: what was in flight and how often it failed.
  lemma RestartResumes(env: Env, w: World, settings: Settings, listing: seq<Key>, now: int, key: Key)
    requires Inv(env, w) && settings.Valid()
    requires IsListing(ClientsAtStart(w, settings, now), listing)
    requires key in ClientsAtStart(w, settings, now)
    ensures
      var w' := Restart(env, w, settings, listing, now);
      && w'.db.clients[key] == w.db.clients[key]
      && w'.db.posts == w.db.posts && w'.log.history == w.log.history && w'.log.tracks == w.log.tracks
      && (env.usable(key) <==> HasSession(w'.sessions, key))
      && forall i :: 0 <= i < |w'.sessions| && w'.sessions[i].key == key ==>
           var s := w'.sessions[i];
           && MatchesRow(w.db.clients[key], s)
           && s.lastTimestamp == w.db.clients[key].lastTimestamp
           && s.lastActivity == w.db.clients[key].lastActivity
           && Grant(s.role, s.source) == ResolveWithoutPassword(settings, key)
           && s.pendingAck == None && s.pushFailures == 0 && s.welcome == []
           && (forall j :: 0 <= j < |w.sessions| && w.sessions[j].key == key ==>
                 && s.syncSince == w.sessions[j].syncSince
                 && Owed(w'.db.posts, key, s.syncSince) == Owed(w.db.posts, key, w.sessions[j].syncSince))
  {
    hide RowOk, HistoryOk, PathOk, SlotOk, AirtimeOk, EffectsOk, Resume, Owed, ResolveWithoutPassword;
    var w' := Restart(env, w, settings, listing, now);
    ResumeMembers(env, settings, ClientsAtStart(w, settings, now), listing);
    assert key in listing;
    if env.usable(key) {
      ResumeCovers(env, settings, ClientsAtStart(w, settings, now), listing, key);
    }
    assert env.usable(key) <==> HasSession(w'.sessions, key);
    forall j | 0 <= j < |w.sessions| && w.sessions[j].key == key
      ensures w.sessions[j].syncSince == w.db.clients[key].syncSince
    {
      assert SessionAt(env, w, j);
    }
  }

  // -- replays ---------------------------------------------------------------

  // The newest client timestamp a live session has taken.
  function LastSeen(w: World, key: Key): (t: Option<int>) {
    match Find(w.sessions, key)
    case None => None
    case Some(i) => Some(w.sessions[i].lastTimestamp)
  }

  // The session of `key` lives through all of `events`.
  ghost predicate LivesThrough(env: Env, w: World, events: seq<Event>, key: Key)
    requires IsRun(env, w, events)
    decreases |events|
  {
    && LastSeen(w, key).Some?
    && (events != [] ==> !events[0].Reboot? && LivesThrough(env, Step(env, w, events[0]), events[1..], key))
  }

  // Sessions keep their places, and no client's newest timestamp goes back.
  ghost predicate TimesRise(sessions: seq<Session>, sessions': seq<Session>) {
    && |sessions| <= |sessions'|
    && forall i :: 0 <= i < |sessions| ==>
         sessions'[i].key == sessions[i].key && sessions'[i].lastTimestamp >= sessions[i].lastTimestamp
  }

  predicate NotBefore(t: Option<int>, t': Option<int>) {
    t.Some? && t'.Some? ==> t'.value >= t.value
  }

  lemma {:induction false} FindInPlace(sessions: seq<Session>, sessions': seq<Session>, key: Key)
    requires TimesRise(sessions, sessions') && Find(sessions, key).Some?
    ensures Find(sessions', key) == Find(sessions, key)
  {
    if sessions[0].key != key {
      FindInPlace(sessions[1..], sessions'[1..], key);
    }
  }

  lemma {:induction false} FindAmongKept(sessions: seq<Session>, forgotten: set<Key>, key: Key)
    requires key !in forgotten && Find(sessions, key).Some?
    ensures
      var kept := KeepSessions(sessions, forgotten);
      Find(kept, key).Some? && kept[Find(kept, key).value] == sessions[Find(sessions, key).value]
  {
    var rest := KeepSessions(sessions[1..], forgotten);
    if sessions[0].key == key {
      assert KeepSessions(sessions, forgotten) == [sessions[0]] + rest;
    } else {
      FindAmongKept(sessions[1..], forgotten, key);
      if sessions[0].key in forgotten {
        assert KeepSessions(sessions, forgotten) == rest;
      } else {
        assert KeepSessions(sessions, forgotten)[1..] == rest;
      }
    }
  }

  lemma StorePostTimes(w: World, author: Key, text: string, now: int, sweptAt: int, key: Key)
    requires LastSeen(w, key).Some?
    ensures NotBefore(LastSeen(w, key), LastSeen(StorePost(w, author, text, now, sweptAt), key))
  {
    hide PrunePosts, NextPostTs, RetainedClients;
    var w' := StorePost(w, author, text, now, sweptAt);
    var forgotten := w.db.clients.Keys - RetainedClients(w.settings, w.db.clients, w.sessions, sweptAt).Keys;
    assert forall i :: 0 <= i < |w'.sessions| ==> w'.sessions[i] in w'.sessions && w'.sessions[i].key !in forgotten;
    if key !in forgotten {
      FindAmongKept(w.sessions, forgotten, key);
    }
  }

  lemma InPlaceTimes(w: World, w': World, key: Key)
    requires TimesRise(w.sessions, w'.sessions)
    ensures NotBefore(LastSeen(w, key), LastSeen(w', key))
  {
    if Find(w.sessions, key).Some? {
      FindInPlace(w.sessions, w'.sessions, key);
    }
  }

  // What a text can lead to: nothing, being heard, an effect, or a stored post.
  ghost predicate TextOutcome(w: World, heard: World, done: World, clock: Readings, w': World) {
    w' == w || w' == heard || w' == done || exists author, text :: w' == StorePost(done, author, text, clock.storedAt, clock.sweptAt)
  }

  lemma OnTextOutcome(env: Env, w: World, sender: Key, m: TextMessage, clock: Readings, i: nat)
    requires m.Valid() && Find(w.sessions, sender) == Some(i)
    ensures
      var heard := Heard(w, i, m.timestamp, clock.heardAt);
      TextOutcome(w, heard, WithEffect(heard, sender, m.timestamp), clock, OnText(env, w, sender, m, clock).world)
    ensures m.timestamp < w.sessions[i].lastTimestamp ==> OnText(env, w, sender, m, clock).world == w
    ensures m.timestamp >= w.sessions[i].lastTimestamp && !m.txtType.SignedPlain? ==>
      var heard, w' := Heard(w, i, m.timestamp, clock.heardAt), OnText(env, w, sender, m, clock).world;
      TextOutcome(heard, heard, WithEffect(heard, sender, m.timestamp), clock, w')
  {
    hide StorePost, PostText, Heard, WithEffect;
  }

  lemma OutcomeTimes(w: World, heard: World, done: World, clock: Readings, w': World, key: Key)
    requires TextOutcome(w, heard, done, clock, w') && LastSeen(w, key).Some?
    requires TimesRise(w.sessions, heard.sessions) && done.sessions == heard.sessions
    ensures NotBefore(LastSeen(w, key), LastSeen(w', key))
  {
    hide StorePost;
    FindInPlace(w.sessions, heard.sessions, key);
    if w' != w && w' != heard && w' != done {
      var author, text :| w' == StorePost(done, author, text, clock.storedAt, clock.sweptAt);
      StorePostTimes(done, author, text, clock.storedAt, clock.sweptAt, key);
    }
  }

  lemma OnTextTimes(env: Env, w: World, sender: Key, m: TextMessage, clock: Readings, key: Key)
    requires m.Valid() && LastSeen(w, key).Some?
    ensures NotBefore(LastSeen(w, key), LastSeen(OnText(env, w, sender, m, clock).world, key))
  {
    var w' := OnText(env, w, sender, m, clock).world;
    hide OnText, TextOutcome;
    match Find(w.sessions, sender) {
      case None => UnknownSender(env, w, sender, m, clock);
      case Some(i) =>
        OnTextOutcome(env, w, sender, m, clock, i);
        if m.timestamp >= w.sessions[i].lastTimestamp {
          var heard := Heard(w, i, m.timestamp, clock.heardAt);
          OutcomeTimes(w, heard, WithEffect(heard, sender, m.timestamp), clock, w', key);
        }
    }
  }

  lemma UnknownSender(env: Env, w: World, sender: Key, m: TextMessage, clock: Readings)
    requires m.Valid() && Find(w.sessions, sender) == None
    ensures OnText(env, w, sender, m, clock).world == w
  {
  }

  // While a session lives, the newest timestamp it has taken never goes back.
  lemma StepTimes(env: Env, w: World, e: Event, key: Key)
    requires CanHappen(w, e) && !e.Reboot? && LastSeen(w, key).Some?
    ensures NotBefore(LastSeen(w, key), LastSeen(Step(env, w, e), key))
  {
    hide OnText, LastSeen, PushOnce, Login, OnRequest, OnPathReturn, OnAck;
    var w' := Step(env, w, e);
    match e {
      case LoginIn(sender, plaintext, flood, now) =>
        if DecodeLogin(plaintext).Ok? {
          LoginTimes(env, w, sender, DecodeLogin(plaintext).value, flood, now);
        }
        InPlaceTimes(w, w', key);
      case TextIn(sender, plaintext, clock) =>
        if DecodeText(plaintext).Ok? {
          OnTextTimes(env, w, sender, DecodeText(plaintext).value, clock, key);
        }
      case RequestIn(sender, plaintext, direct, now) =>
        if DecodeRequest(plaintext).Ok? {
          RequestTimes(env, w, sender, DecodeRequest(plaintext).value, direct, now);
        }
        InPlaceTimes(w, w', key);
      case PathIn(sender, plaintext, now) =>
        if DecodePathReturn(plaintext).Ok? {
          PathReturnInverse(plaintext);
          PathTimes(w, sender, DecodePathReturn(plaintext).value, now);
        }
        InPlaceTimes(w, w', key);
      case AckIn(checksum) =>
        AckTimes(w, checksum);
        InPlaceTimes(w, w', key);
      case PushStep(tick) =>
        PushOnceTimes(env, w, tick);
        InPlaceTimes(w, w', key);
      case Reload(settings) =>
        InPlaceTimes(w, w', key);
    }
  }

  lemma LoginTimes(env: Env, w: World, sender: Key, login: LoginRequest, flood: bool, now: int)
    ensures TimesRise(w.sessions, Login(env, w, sender, login, flood, now).world.sessions)
  {
    hide Resolve, SplitWelcome, RecordLogin;
  }

  lemma RequestTimes(env: Env, w: World, sender: Key, request: ServerRequest, direct: bool, now: int)
    requires request.Valid()
    ensures TimesRise(w.sessions, OnRequest(env, w, sender, request, direct, now).world.sessions)
  {
    hide CountUnsynced, ForceSince;
  }

  lemma AckTimes(w: World, checksum: seq<Byte>)
    ensures TimesRise(w.sessions, OnAck(w, checksum).sessions)
  {
  }

  lemma PathTimes(w: World, sender: Key, p: PathReturn, now: int)
    requires p.Valid()
    ensures TimesRise(w.sessions, OnPathReturn(w, sender, p, now).sessions)
  {
    hide OnAck;
    if Find(w.sessions, sender).Some? && |p.extra| >= ACK_LEN {
      AckTimes(LearnPath(w, Find(w.sessions, sender).value, p, now), p.extra[..ACK_LEN]);
    }
  }

  lemma PushOnceTimes(env: Env, w: World, tick: Tick)
    ensures TimesRise(w.sessions, PushOnce(env, w, tick).world.sessions)
  {
    var expired := ExpirePendingAcks(w, tick.expireAt);
    if expired.sessions != [] {
      var n := |expired.sessions|;
      var visited := expired.roundRobin % n;
      PushToTimes(env, expired.(roundRobin := (visited + 1) % n), visited, tick);
    }
  }

  lemma PushToTimes(env: Env, w: World, i: nat, tick: Tick)
    requires i < |w.sessions|
    ensures TimesRise(w.sessions, PushTo(env, w, i, tick).world.sessions)
    ensures |PushTo(env, w, i, tick).world.sessions| == |w.sessions|
  {
    hide BuildPush, NextUnsynced;
  }

  lemma {:induction false} RunTimes(env: Env, w: World, events: seq<Event>, key: Key)
    requires IsRun(env, w, events) && LivesThrough(env, w, events, key)
    ensures LastSeen(Run(env, w, events), key).Some?
    ensures LastSeen(Run(env, w, events), key).value >= LastSeen(w, key).value
    decreases |events|
  {
    hide Step, LastSeen;
    if events != [] {
      var w1 := Step(env, w, events[0]);
      StepTimes(env, w, events[0], key);
      assert LastSeen(w1, key).Some?;
      RunTimes(env, w1, events[1..], key);
    }
  }

  // A text no newer than the last one seen stores nothing and runs nothing.
  lemma OldTextHasNoEffect(env: Env, w: World, key: Key, m: TextMessage, clock: Readings)
    requires m.Valid() && LastSeen(w, key).Some? && m.timestamp <= LastSeen(w, key).value
    ensures
      var w' := OnText(env, w, key, m, clock).world;
      && w'.log.history == w.log.history && w'.db == w.db
      && w'.log.LifeOf(key).effects == w.log.LifeOf(key).effects
  {
  }

  lemma TextTakesTimestamp(env: Env, w: World, key: Key, m: TextMessage, clock: Readings)
    requires m.Valid() && LastSeen(w, key).Some? && !m.txtType.SignedPlain?
    requires LastSeen(OnText(env, w, key, m, clock).world, key).Some?
    ensures LastSeen(OnText(env, w, key, m, clock).world, key).value >= m.timestamp
  {
    hide OnText;
    var i := Find(w.sessions, key).value;
    OnTextOutcome(env, w, key, m, clock, i);
    if m.timestamp >= w.sessions[i].lastTimestamp {
      var heard := Heard(w, i, m.timestamp, clock.heardAt);
      FindInPlace(w.sessions, heard.sessions, key);
      OutcomeTimes(heard, heard, WithEffect(heard, key, m.timestamp), clock, OnText(env, w, key, m, clock).world, key);
    }
  }

  // At most once: after a message has been handled, no message with the same or an older
  // timestamp, however often and whenever it arrives while the session lives, stores
  // another post or runs another command.
  lemma AtMostOnce(env: Env, w: World, key: Key, first: seq<Byte>, clock: Readings, events: seq<Event>, again: seq<Byte>,
                   later: Readings)
    requires LastSeen(w, key).Some?
    requires DecodeText(first).Ok? && !DecodeText(first).value.txtType.SignedPlain?
    requires DecodeText(again).Ok? && DecodeText(again).value.timestamp <= DecodeText(first).value.timestamp
    requires
      var w1 := Step(env, w, TextIn(key, first, clock));
      IsRun(env, w1, events) && LivesThrough(env, w1, events, key)
    ensures
      var w2 := Run(env, Step(env, w, TextIn(key, first, clock)), events);
      var w3 := Step(env, w2, TextIn(key, again, later));
      && w3.log.history == w2.log.history && w3.db == w2.db
      && w3.log.LifeOf(key).effects == w2.log.LifeOf(key).effects
  {
    hide OnText, LastSeen, Run, PushOnce, OnRequest, Login;
    var w1 := Step(env, w, TextIn(key, first, clock));
    var w2 := Run(env, w1, events);
    AliveAtStart(env, w1, events, key);
    TextTakesTimestamp(env, w, key, DecodeText(first).value, clock);
    RunTimes(env, w1, events, key);
    OldTextHasNoEffect(env, w2, key, DecodeText(again).value, later);
  }

  lemma AliveAtStart(env: Env, w: World, events: seq<Event>, key: Key)
    requires IsRun(env, w, events) && LivesThrough(env, w, events, key)
    ensures LastSeen(w, key).Some?
  {
  }
}
