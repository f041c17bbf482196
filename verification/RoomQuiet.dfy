// What other clients cannot do: through any run in which a client sends nothing, its
// session, its account and the posts it is owed stay, and new posts only join the end.
module RoomQuiet {
  import opened Bytes
  import opened Wrappers
  import opened Crypto
  import opened Packet
  import opened Posts
  import opened Sync
  import opened Repo
  import opened Acl
  import opened RoomSpec
  import opened RoomInvariant
  import opened RoomRuns
  import opened RoomSchedule

  // The acknowledgement a path return carries, if any.
  function BundledAck(plaintext: seq<Byte>): (checksum: Option<seq<Byte>>) {
    match DecodePathReturn(plaintext)
    case Err(_) => None
    case Ok(p) =>
      if p.extraType % 16 == AckType.Code() && |p.extra| >= ACK_LEN then Some(p.extra[..ACK_LEN]) else None
  }

  // An event other than a packet from client `key`.
  predicate FromOthers(e: Event, key: Key) {
    match e
    case LoginIn(sender, _, _, _) => sender != key
    case TextIn(sender, _, _) => sender != key
    case RequestIn(sender, _, _, _) => sender != key
    case PathIn(sender, _, _) => sender != key
    case _ => true
  }

  // An event that is neither a packet from the client of session `j`, nor its
  // acknowledgement, nor its turn while its slot is free, nor the end of its slot.
  predicate Quiet(w: World, e: Event, j: nat)
    requires j < |w.sessions|
  {
    var s := w.sessions[j];
    && FromOthers(e, s.key)
    && match e
       case AckIn(checksum) => Waiting(w.sessions, checksum) != Some(j)
       case PathIn(_, plaintext, _) =>
         BundledAck(plaintext).Some? ==> Waiting(w.sessions, BundledAck(plaintext).value) != Some(j)
       case PushStep(tick) => Expired(s, tick.expireAt) == s && (Visited(w) == j ==> s.pendingAck.Some?)
       case Reboot(_, _, _) => false
       case _ => true
  }

  // Session `j` is as it was, but for a role a reload may have changed; so are its account
  // and what it has caused; and the history has only grown.
  ghost predicate Untouched(w: World, w': World, j: nat)
    requires j < |w.sessions|
  {
    && j < |w'.sessions|
    && w'.sessions[j] == w.sessions[j].(role := w'.sessions[j].role, source := w'.sessions[j].source)
    && w'.log.TrackOf(w.sessions[j].key) == w.log.TrackOf(w.sessions[j].key)
    && w'.log.LifeOf(w.sessions[j].key) == w.log.LifeOf(w.sessions[j].key)
    && w.log.history <= w'.log.history
  }

  lemma {:induction false} NoneForgotten(sessions: seq<Session>, forgotten: set<Key>)
    requires |KeepSessions(sessions, forgotten)| == |sessions|
    ensures KeepSessions(sessions, forgotten) == sessions
  {
    if sessions != [] {
      KeepShrinks(sessions[1..], forgotten);
      NoneForgotten(sessions[1..], forgotten);
    }
  }

  lemma {:induction false} KeepShrinks(sessions: seq<Session>, forgotten: set<Key>)
    ensures |KeepSessions(sessions, forgotten)| <= |sessions|
  {
    if sessions != [] {
      KeepShrinks(sessions[1..], forgotten);
    }
  }

  lemma StoreLeaves(w: World, author: Key, text: string, now: int, sweptAt: int, j: nat)
    requires j < |w.sessions| && |StorePost(w, author, text, now, sweptAt).sessions| == |w.sessions|
    ensures Untouched(w, StorePost(w, author, text, now, sweptAt), j)
  {
    hide RetainedClients, PrunePosts, NextPostTs, KeepSessions;
    var forgotten := w.db.clients.Keys - RetainedClients(w.settings, w.db.clients, w.sessions, sweptAt).Keys;
    NoneForgotten(w.sessions, forgotten);
  }

  lemma TextLeaves(env: Env, w: World, sender: Key, m: TextMessage, clock: Readings, j: nat)
    requires m.Valid() && j < |w.sessions| && sender != w.sessions[j].key
    requires |OnText(env, w, sender, m, clock).world.sessions| == |w.sessions|
    ensures Untouched(w, OnText(env, w, sender, m, clock).world, j)
  {
    var w' := OnText(env, w, sender, m, clock).world;
    hide OnText, StorePost, Heard, WithEffect, Untouched;
    match Find(w.sessions, sender) {
      case None =>
        UnknownSender(env, w, sender, m, clock);
        SameUntouched(w, j);
      case Some(i) =>
        OnTextOutcome(env, w, sender, m, clock, i);
        var heard := Heard(w, i, m.timestamp, clock.heardAt);
        var done := WithEffect(heard, sender, m.timestamp);
        SameUntouched(w, j);
        HeardLeaves(w, i, m.timestamp, clock.heardAt, j);
        if author, text :| w' == StorePost(done, author, text, clock.storedAt, clock.sweptAt) {
          StoreLeaves(done, author, text, clock.storedAt, clock.sweptAt, j);
          UntouchedTwice(w, done, w', j);
        }
    }
  }

  lemma HeardLeaves(w: World, i: nat, timestamp: int, now: int, j: nat)
    requires i < |w.sessions| && j < |w.sessions| && w.sessions[i].key != w.sessions[j].key
    ensures
      var heard := Heard(w, i, timestamp, now);
      && Untouched(w, heard, j) && Untouched(w, WithEffect(heard, w.sessions[i].key, timestamp), j)
      && |heard.sessions| == |w.sessions|
      && WithEffect(heard, w.sessions[i].key, timestamp).sessions == heard.sessions
  {
  }

  lemma LoginLeaves(env: Env, w: World, sender: Key, login: LoginRequest, flood: bool, now: int, j: nat)
    requires j < |w.sessions| && sender != w.sessions[j].key
    ensures Untouched(w, Login(env, w, sender, login, flood, now).world, j)
  {
    hide Resolve, SplitWelcome, RecordLogin;
  }

  lemma RequestLeaves(env: Env, w: World, sender: Key, request: ServerRequest, direct: bool, now: int, j: nat)
    requires request.Valid() && j < |w.sessions| && sender != w.sessions[j].key
    ensures Untouched(w, OnRequest(env, w, sender, request, direct, now).world, j)
  {
    hide CountUnsynced, ForceSince;
  }

  lemma AckLeaves(w: World, checksum: seq<Byte>, j: nat)
    requires Distinct(w.sessions) && j < |w.sessions| && Waiting(w.sessions, checksum) != Some(j)
    ensures Untouched(w, OnAck(w, checksum), j)
  {
  }

  lemma SameWaiting(sessions: seq<Session>, sessions': seq<Session>, checksum: seq<Byte>)
    requires |sessions'| == |sessions|
    requires forall i :: 0 <= i < |sessions| ==> sessions'[i].pendingAck == sessions[i].pendingAck
    ensures Waiting(sessions', checksum) == Waiting(sessions, checksum)
  {
  }

  lemma PathLeaves(w: World, sender: Key, plaintext: seq<Byte>, now: int, j: nat)
    requires Distinct(w.sessions) && DecodePathReturn(plaintext).Ok? && DecodePathReturn(plaintext).value.Valid()
    requires j < |w.sessions| && Quiet(w, PathIn(sender, plaintext, now), j)
    ensures Untouched(w, OnPathReturn(w, sender, DecodePathReturn(plaintext).value, now), j)
  {
    hide DecodePathReturn, OnAck, Waiting;
    var p := DecodePathReturn(plaintext).value;
    match Find(w.sessions, sender) {
      case None =>
      case Some(i) =>
        var learned := LearnPath(w, i, p, now);
        assert Distinct(learned.sessions) && Untouched(w, learned, j);
        if BundledAck(plaintext).Some? {
          SameWaiting(w.sessions, learned.sessions, BundledAck(plaintext).value);
          AckLeaves(learned, BundledAck(plaintext).value, j);
        }
    }
  }

  lemma PushLeaves(env: Env, w: World, tick: Tick, j: nat)
    requires Distinct(w.sessions) && j < |w.sessions| && Quiet(w, PushStep(tick), j)
    ensures Untouched(w, PushOnce(env, w, tick).world, j)
  {
    hide BuildPush, NextUnsynced, AckTimeout;
  }

  lemma StepLeaves(env: Env, w: World, e: Event, j: nat)
    requires Distinct(w.sessions) && CanHappen(w, e) && j < |w.sessions| && Quiet(w, e, j)
    requires SameClients(w, Step(env, w, e))
    ensures Untouched(w, Step(env, w, e), j)
  {
    hide Login, OnText, OnRequest, OnPathReturn, OnAck, PushOnce, Waiting, Untouched, BundledAck;
    match e {
      case LoginIn(sender, plaintext, flood, now) =>
        if DecodeLogin(plaintext).Ok? {
          LoginLeaves(env, w, sender, DecodeLogin(plaintext).value, flood, now, j);
        } else {
          SameUntouched(w, j);
        }
      case TextIn(sender, plaintext, clock) =>
        if DecodeText(plaintext).Ok? {
          TextLeaves(env, w, sender, DecodeText(plaintext).value, clock, j);
        } else {
          SameUntouched(w, j);
        }
      case RequestIn(sender, plaintext, direct, now) =>
        if DecodeRequest(plaintext).Ok? {
          RequestLeaves(env, w, sender, DecodeRequest(plaintext).value, direct, now, j);
        } else {
          SameUntouched(w, j);
        }
      case PathIn(sender, plaintext, now) =>
        if DecodePathReturn(plaintext).Ok? {
          PathReturnInverse(plaintext);
          PathLeaves(w, sender, plaintext, now, j);
        } else {
          SameUntouched(w, j);
        }
      case AckIn(checksum) => AckLeaves(w, checksum, j);
      case PushStep(tick) => PushLeaves(env, w, tick, j);
      case Reload(settings) => ReloadLeaves(w, settings, j);
    }
  }

  lemma SameUntouched(w: World, j: nat)
    requires j < |w.sessions|
    ensures Untouched(w, w, j)
  {
  }

  lemma ReloadLeaves(w: World, settings: Settings, j: nat)
    requires j < |w.sessions|
    ensures Untouched(w, ApplySettings(w, settings), j)
  {
    hide Resettled;
  }

  // Every event from number `first` up to number `upTo` is quiet for session `j`.
  ghost predicate QuietFrom(env: Env, w: World, events: seq<Event>, j: nat, first: nat, upTo: nat)
    requires Steady(env, w, events) && upTo <= |events|
  {
    forall i :: first <= i < upTo ==> j < |Before(env, w, events, i).sessions| && Quiet(Before(env, w, events, i), events[i], j)
  }

  lemma UntouchedTwice(w: World, w1: World, w2: World, j: nat)
    requires j < |w.sessions| && Untouched(w, w1, j) && Untouched(w1, w2, j)
    ensures Untouched(w, w2, j)
  {
  }

  lemma {:induction false} RunLeaves(env: Env, w: World, events: seq<Event>, j: nat, first: nat, upTo: nat)
    requires env.Sound() && Inv(env, w) && Steady(env, w, events) && j < |w.sessions|
    requires first <= upTo <= |events| && QuietFrom(env, w, events, j, first, upTo)
    ensures
      var start, end := Before(env, w, events, first), Before(env, w, events, upTo);
      j < |start.sessions| && Untouched(start, end, j)
    decreases upTo
  {
    hide Inv, Untouched, Quiet, Step;
    BeforeKeeps(env, w, events, first);
    var start := Before(env, w, events, first);
    if upTo > first {
      var last := Before(env, w, events, upTo - 1);
      RunLeaves(env, w, events, j, first, upTo - 1);
      BeforeNext(env, w, events, upTo - 1);
      BeforeKeeps(env, w, events, upTo - 1);
      InvDistinct(env, last);
      StepLeaves(env, last, events[upTo - 1], j);
      UntouchedTwice(start, last, Before(env, w, events, upTo), j);
    } else {
      SameUntouched(start, j);
    }
  }

  lemma InvDistinct(env: Env, w: World)
    requires Inv(env, w)
    ensures Distinct(w.sessions)
  {
    hide SessionAt, RowAt, HistoryOk;
  }

  // The posts the client of session `j` is owed.
  function OwedTo(w: World, j: nat): (owed: seq<Post>)
    requires j < |w.sessions|
  {
    Owed(w.db.posts, w.sessions[j].key, w.sessions[j].syncSince)
  }

  // What an untouched client is owed is what it was owed, and new posts after that.
  lemma OwedGrows(env: Env, w: World, w': World, j: nat)
    requires Inv(env, w) && Inv(env, w') && j < |w.sessions| && Untouched(w, w', j)
    ensures
      var s := w.sessions[j];
      OwedTo(w', j) == OwedTo(w, j) + Owed(w'.log.history[|w.log.history|..], s.key, s.syncSince)
  {
    hide Inv, Owed, SessionOk, RowOk;
    var s, history, history' := w.sessions[j], w.log.history, w'.log.history;
    AtSession(env, w, j);
    AtSession(env, w', j);
    CursorOf(env, w, j);
    CursorOf(env, w', j);
    OwedIsStored(env, w, s.key);
    OwedIsStored(env, w', s.key);
    var from := w.log.tracks[s.key].from;
    assert history'[from..] == history[from..] + history'[|history|..];
    OwedConcat(history[from..], history'[|history|..], s.key, s.syncSince);
  }

  lemma CursorOf(env: Env, w: World, j: nat)
    requires Inv(env, w) && j < |w.sessions|
    ensures w.sessions[j].key in w.db.clients && w.db.clients[w.sessions[j].key].syncSince == w.sessions[j].syncSince
  {
    hide Inv;
    AtSession(env, w, j);
  }
}
