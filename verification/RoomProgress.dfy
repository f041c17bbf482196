// The push loop makes progress: the round robin starves nobody while the process lives, and
// each acknowledged push brings a client one message closer to being in step.
module RoomProgress {
  import opened Bytes
  import opened Wrappers
  import opened Crypto
  import opened Packet
  import opened Posts
  import opened Sync
  import opened Repo
  import opened RoomSpec
  import opened RoomInvariant
  import opened RoomRuns
  import opened RoomSchedule
  import opened RoomQuiet
  import Frames

  // -- steps that raise --------------------------------------------------------

  predicate FitsU32(n: int) {
    0 <= n < U32_LIMIT
  }

  // What a push step comes to, in terms of what is stored: it sends to the session whose
  // turn it is if its slot is free or has just timed out, it has been heard from, its
  // failures are below the limit, and it has a welcome chunk or a settled post to come. It
  // raises if the timestamp to send does not fit 32 bits or the path a packet.
  lemma PushOutcomeExactly(env: Env, w: World, tick: Tick)
    requires Increasing(w.db.posts)
    ensures w.sessions == [] ==> PushOnce(env, w, tick).outcome == Idle
    ensures w.sessions != [] ==>
      var s := w.sessions[w.roundRobin % |w.sessions|];
      var late := s.pendingAck.Some? && tick.expireAt >= s.ackTimeout;
      var failures := s.pushFailures + if late then 1 else 0;
      var owed := Owed(w.db.posts, s.key, s.syncSince);
      var due :=
        && (s.pendingAck == None || late)
        && s.lastActivity != 0
        && failures < env.timings.maxPushFailures
        && (s.welcome != [] || (owed != [] && owed[0].ts <= tick.now - env.timings.postSyncDelay));
      PushOnce(env, w, tick).outcome
        == if !due then Idle
           else
             var ts := if s.welcome != [] then tick.uniqueNow else owed[0].ts;
             if 0 <= ts < 0x1_0000_0000 && (s.outPathLen == 0xFF || |s.outPath| <= 64) then Pushed else Raised
  {
    hide Owed, NextUnsynced, AckTimeout, Increasing;
    if w.sessions != [] {
      var s := w.sessions[w.roundRobin % |w.sessions|];
      NextUnsyncedIsOldestOwed(w.db.posts, s.key, s.syncSince, tick.now - env.timings.postSyncDelay);
    }
  }

  // In particular it raises, and with it ends the push loop and the process, exactly when the
  // client whose turn it is could be sent something but its stored path is longer than a
  // packet carries, or the timestamp to send does not fit 32 bits.
  lemma RaisesExactly(env: Env, w: World, tick: Tick)
    requires Increasing(w.db.posts)
    ensures PushOnce(env, w, tick).outcome == Raised
      <==>
      && w.sessions != []
      && var s := Expired(w.sessions[Visited(w)], tick.expireAt);
         var owed := Owed(w.db.posts, s.key, s.syncSince);
         && s.pendingAck == None && s.lastActivity != 0 && s.pushFailures < env.timings.maxPushFailures
         && if s.welcome != [] then !FitsU32(tick.uniqueNow) || !s.Addressable()
            else
              && owed != [] && owed[0].ts <= tick.now - env.timings.postSyncDelay
              && (!FitsU32(owed[0].ts) || !s.Addressable())
  {
    hide Owed, NextUnsynced, AckTimeout, Increasing;
    if w.sessions != [] {
      var s := Expired(w.sessions[Visited(w)], tick.expireAt);
      NextUnsyncedIsOldestOwed(w.db.posts, s.key, s.syncSince, tick.now - env.timings.postSyncDelay);
    }
  }

  // -- turns that serve --------------------------------------------------------

  // Session `j` has a message that `tick` may send: a welcome chunk, or a settled post.
  predicate HasMessage(env: Env, w: World, j: nat, tick: Tick)
    requires j < |w.sessions|
  {
    if w.sessions[j].welcome != [] then FitsU32(tick.uniqueNow)
    else
      && OwedTo(w, j) != []
      && FitsU32(OwedTo(w, j)[0].ts) && OwedTo(w, j)[0].ts <= tick.now - env.timings.postSyncDelay
  }

  // The plaintext of that message: the head of the welcome queue, signed by the room, or the
  // oldest post owed.
  function Message(env: Env, w: World, j: nat, tick: Tick): (plaintext: seq<Byte>)
    requires j < |w.sessions| && HasMessage(env, w, j, tick)
  {
    var s := w.sessions[j];
    if s.welcome != [] then BuildPush(tick.uniqueNow, env.roomKey, s.welcome[0], tick.attempt, |s.outPath|).value
    else
      var post := OwedTo(w, j)[0];
      BuildPush(post.ts, post.author, post.text, tick.attempt, |s.outPath|).value
  }

  // The push of it.
  function MessagePush(env: Env, w: World, j: nat, tick: Tick): (sent: Sent)
    requires j < |w.sessions| && HasMessage(env, w, j, tick)
  {
    var s := w.sessions[j];
    if s.welcome != [] then WelcomePush(s.key, Message(env, w, j, tick))
    else PostPush(s.key, OwedTo(w, j)[0], Message(env, w, j, tick))
  }

  // What its turn brings to a session that can be pushed to.
  lemma TurnServes(env: Env, w: World, tick: Tick)
    requires w.sessions != [] && Increasing(w.db.posts)
    requires
      var s := w.sessions[Visited(w)];
      && s.pendingAck == None && s.lastActivity != 0 && s.pushFailures < env.timings.maxPushFailures
      && s.Addressable() && HasMessage(env, w, Visited(w), tick)
    ensures
      var i, r := Visited(w), PushOnce(env, w, tick);
      var s := w.sessions[i];
      && r.outcome == Pushed && r.sent == [MessagePush(env, w, i, tick)]
      && r.world.db == w.db && r.world.log.history == w.log.history && r.world.log.tracks == w.log.tracks
      && r.world.log.LifeOf(s.key)
           == w.log.LifeOf(s.key).(pushes := w.log.LifeOf(s.key).pushes + 1,
                                   inFlight := if s.welcome != [] then None else Some(OwedTo(w, i)[0]))
      && |r.world.sessions| == |w.sessions|
      && var s' := r.world.sessions[i];
         && s'.pendingAck == Some(env.prim.AckHash(Message(env, w, i, tick), s.key))
         && s' == s.(pendingAck := s'.pendingAck, pushPostTs := s'.pushPostTs, pushIsWelcome := s.welcome != [],
                     ackTimeout := s'.ackTimeout)
  {
    hide Owed, NextUnsynced, AckTimeout, Increasing;
    var s := w.sessions[Visited(w)];
    NextUnsyncedIsOldestOwed(w.db.posts, s.key, s.syncSince, tick.now - env.timings.postSyncDelay);
  }

  // -- service within a round --------------------------------------------------

  // Nothing in the run comes from the client of session `j`.
  predicate AllFromOthers(events: seq<Event>, key: Key) {
    forall i :: 0 <= i < |events| ==> FromOthers(events[i], key)
  }

  // Some push step before event `i` raises, so that the process does not live to take it.
  ghost predicate Interrupted(env: Env, w: World, events: seq<Event>, i: nat)
    requires Steady(env, w, events) && i <= |events|
  {
    exists k :: 0 <= k < i && events[k].PushStep? && PushOnce(env, Before(env, w, events, k), events[k].tick).outcome == Raised
  }

  // The event that is the next turn of session `j`.
  function NextTurn(w: World, events: seq<Event>, j: nat): (i: nat)
    requires j < |w.sessions| && Wait(w.roundRobin, |w.sessions|, j) < Pushes(events, |events|)
    ensures i < |events| && events[i].PushStep?
  {
    NthPush(events, Wait(w.roundRobin, |w.sessions|, j))
  }

  lemma QuietWhileFree(w: World, e: Event, j: nat)
    requires j < |w.sessions| && w.sessions[j].pendingAck == None && !e.Reboot?
    requires FromOthers(e, w.sessions[j].key) && (e.PushStep? ==> Visited(w) != j)
    ensures Quiet(w, e, j)
  {
    hide BundledAck, Visited;
  }

  // Until its turn, a client that sends nothing keeps what it has.
  lemma {:induction false} UntouchedUntilTurn(env: Env, w: World, events: seq<Event>, j: nat, i: nat)
    requires env.Sound() && Inv(env, w) && Steady(env, w, events) && j < |w.sessions|
    requires w.sessions[j].pendingAck == None && AllFromOthers(events, w.sessions[j].key)
    requires Wait(w.roundRobin, |w.sessions|, j) < Pushes(events, |events|) && i <= NextTurn(w, events, j)
    ensures Untouched(w, Before(env, w, events, i), j)
  {
    hide Inv, Quiet, Step, FromOthers, Wait, Visited;
    if i > 0 {
      var last := Before(env, w, events, i - 1);
      UntouchedUntilTurn(env, w, events, j, i - 1);
      BeforeNext(env, w, events, i - 1);
      BeforeKeeps(env, w, events, i - 1);
      InvDistinct(env, last);
      NoTurnBefore(env, w, events, j, i - 1);
      QuietWhileFree(last, events[i - 1], j);
      StepLeaves(env, last, events[i - 1], j);
      UntouchedTwice(w, last, Before(env, w, events, i), j);
    } else {
      SameUntouched(w, j);
    }
  }

  lemma SameMessage(env: Env, w: World, w': World, j: nat, tick: Tick)
    requires Inv(env, w) && Inv(env, w') && j < |w.sessions| && Untouched(w, w', j)
    requires w.sessions[j].Addressable() && HasMessage(env, w, j, tick)
    ensures w'.sessions[j].Addressable() && HasMessage(env, w', j, tick)
    ensures MessagePush(env, w', j, tick) == MessagePush(env, w, j, tick)
  {
    hide Inv, BuildPush, Owed;
    OwedGrows(env, w, w', j);
  }

  // A client with a free slot, a usable path and a message to be sent gets that very message
  // within one round, whatever arrives from others meanwhile, in any number, order and
  // mixture, unless the process ends before its turn.
  lemma ServedWithinRound(env: Env, w: World, events: seq<Event>, j: nat)
    requires env.Sound() && Inv(env, w) && Steady(env, w, events) && j < |w.sessions|
    requires Pushes(events, |events|) >= |w.sessions| && AllFromOthers(events, w.sessions[j].key)
    requires
      var s := w.sessions[j];
      && s.pendingAck == None && s.lastActivity != 0 && s.pushFailures < env.timings.maxPushFailures
      && s.Addressable()
    requires HasMessage(env, w, j, events[NextTurn(w, events, j)].tick)
    ensures
      var i := NextTurn(w, events, j);
      && Pushes(events, i) < |w.sessions|
      && (|| Interrupted(env, w, events, i)
          || (&& PushOnce(env, Before(env, w, events, i), events[i].tick).outcome == Pushed
              && PushOnce(env, Before(env, w, events, i), events[i].tick).sent == [MessagePush(env, w, j, events[i].tick)]))
  {
    hide Inv, Wait, Visited, PushOnce, MessagePush, HasMessage, Session.Addressable, Interrupted;
    var i := TurnComes(env, w, events, j);
    var before := Before(env, w, events, i);
    UntouchedUntilTurn(env, w, events, j, i);
    BeforeKeeps(env, w, events, i);
    SameMessage(env, w, before, j, events[i].tick);
    PostsIncrease(env, before);
    TurnServes(env, before, events[i].tick);
  }

  lemma PostsIncrease(env: Env, w: World)
    requires Inv(env, w)
    ensures Increasing(w.db.posts)
  {
    hide SessionAt, RowAt, StorableText;
  }

  // A path and timestamps that fit keep a step from raising, whoever's turn it is.
  lemma NothingRaises(env: Env, w: World, tick: Tick)
    requires Increasing(w.db.posts) && FitsU32(tick.uniqueNow)
    requires forall i :: 0 <= i < |w.sessions| ==> w.sessions[i].Addressable()
    requires forall i :: 0 <= i < |w.db.posts| ==> FitsU32(w.db.posts[i].ts)
    ensures PushOnce(env, w, tick).outcome != Raised
  {
    hide PushOnce, Owed;
    RaisesExactly(env, w, tick);
    if w.sessions != [] {
      var s := Expired(w.sessions[Visited(w)], tick.expireAt);
      OwedFit(w.db.posts, s.key, s.syncSince);
    }
  }

  lemma OwedFit(posts: seq<Post>, key: Key, since: int)
    requires forall i :: 0 <= i < |posts| ==> FitsU32(posts[i].ts)
    ensures Owed(posts, key, since) != [] ==> FitsU32(Owed(posts, key, since)[0].ts)
  {
    hide Owed;
    var owed := Owed(posts, key, since);
    if owed != [] {
      OwedMembers(posts, key, since, owed[0]);
    }
  }

  lemma PushOnceFrame(env: Env, w: World, tick: Tick)
    ensures
      var w' := PushOnce(env, w, tick).world;
      && w'.settings == w.settings && w'.db == w.db && w'.log.history == w.log.history
      && |w'.sessions| == |w.sessions|
      && (forall i :: 0 <= i < |w.sessions| ==> w'.sessions[i].key == w.sessions[i].key)
      && (w.sessions != [] ==>
           && w'.roundRobin == (Visited(w) + 1) % |w.sessions|
           && forall i :: 0 <= i < |w.sessions| && i != Visited(w) ==>
                w'.sessions[i] == Expired(w.sessions[i], tick.expireAt))
  {
    hide BuildPush, NextUnsynced, AckTimeout;
  }

  // -- from the push to the cursor -------------------------------------------

  // What a client makes of a received datagram: the checksum it acknowledges with, the hash
  // of the message as it would encode it and of its own key.
  function ClientChecksum(env: Env, secret: Key, key: Key, payload: seq<Byte>): (checksum: Option<seq<Byte>>) {
    if |payload| < DATAGRAM_HEADER_LEN then None
    else
      match env.prim.MacThenDecrypt(secret, payload[DATAGRAM_HEADER_LEN..])
      case Err(_) => None
      case Ok(received) =>
        match DecodeText(received)
        case Err(_) => None
        case Ok(m) => if m.Valid() then Some(env.prim.digest(m.Encode() + key)) else None
  }

  // End to end: the acknowledgement a client computes from the datagram a push sent it is
  // accepted, and, unless another session awaits the very same checksum, moves that
  // client's cursor past exactly the pushed post.
  lemma PushedThenAcknowledged(env: Env, w: World, tick: Tick, secret: Key, dest: Byte, src: Byte, post: Post,
                               plaintext: seq<Byte>)
    requires env.Sound() && env.prim.Sound() && Inv(env, w) && w.sessions != []
    requires PushOnce(env, w, tick).sent == [PostPush(w.sessions[Visited(w)].key, post, plaintext)]
    ensures
      var i := Visited(w);
      var pushed := PushOnce(env, w, tick).world;
      var key := w.sessions[i].key;
      var checksum := ClientChecksum(env, secret, key, Frames.DatagramPayload(env.prim, dest, src, secret, plaintext));
      && i < |pushed.sessions| && checksum.Some?
      && pushed.sessions[i].pendingAck == checksum
      && Waiting(pushed.sessions, checksum.value).Some?
      && (Waiting(pushed.sessions, checksum.value) == Some(i) ==>
           var acked := OnAck(pushed, checksum.value);
           && i < |acked.sessions| && acked.sessions[i].syncSince == post.ts
           && key in acked.db.clients && acked.db.clients[key].syncSince == post.ts
           && Owed(w.db.posts, key, w.sessions[i].syncSince) != []
           && Owed(acked.db.posts, key, post.ts) == Owed(w.db.posts, key, w.sessions[i].syncSince)[1..]
           && CountUnsynced(acked.db.posts, key, post.ts) == CountUnsynced(w.db.posts, key, w.sessions[i].syncSince) - 1)
  {
    hide Inv, Owed, BuildPush, PushOnce, OnAck, Frames.DatagramPayload, ClientChecksum, BuildsPush, Waiting;
    var i := Visited(w);
    var s := w.sessions[i];
    var pushed := PushOnce(env, w, tick).world;
    PushOnceFrame(env, w, tick);
    PushOnceKeeps(env, w, tick);
    PushSource(env, w, tick, post, plaintext);
    ChecksumOfPush(env, secret, s.key, dest, src, post, tick.attempt, s.outPath, plaintext);
    var checksum := env.prim.AckHash(plaintext, s.key);
    assert Waiting(pushed.sessions, checksum).Some?;
    if Waiting(pushed.sessions, checksum) == Some(i) {
      AckOfPush(env, pushed, checksum, i);
    }
  }

  lemma AckOfPush(env: Env, w: World, checksum: seq<Byte>, i: nat)
    requires Inv(env, w) && Waiting(w.sessions, checksum) == Some(i) && !w.sessions[i].pushIsWelcome
    ensures
      var s, acked := w.sessions[i], OnAck(w, checksum);
      && i < |acked.sessions| && acked.sessions[i].syncSince == s.pushPostTs
      && s.key in acked.db.clients && acked.db.clients[s.key].syncSince == s.pushPostTs
      && acked.db.posts == w.db.posts
      && Owed(w.db.posts, s.key, s.syncSince) != []
      && Owed(w.db.posts, s.key, s.pushPostTs) == Owed(w.db.posts, s.key, s.syncSince)[1..]
  {
    hide Inv, Owed, OnAck;
    AckAdvancesByOne(env, w, checksum, i);
    AckFrame(w, checksum);
  }

  lemma AckFrame(w: World, checksum: seq<Byte>)
    ensures |OnAck(w, checksum).sessions| == |w.sessions| && OnAck(w, checksum).db.posts == w.db.posts
  {
  }

  predicate BuildsPush(post: Post, attempt: int, pathBytes: nat, plaintext: seq<Byte>) {
    && 0 <= post.ts < U32_LIMIT && '\0' !in post.text
    && BuildPush(post.ts, post.author, post.text, attempt, pathBytes) == Some(plaintext)
  }

  lemma ChecksumOfPush(env: Env, secret: Key, key: Key, dest: Byte, src: Byte, post: Post, attempt: int, path: seq<Byte>,
                       plaintext: seq<Byte>)
    requires env.prim.Sound() && BuildsPush(post, attempt, |path|, plaintext)
    ensures ClientChecksum(env, secret, key, Frames.DatagramPayload(env.prim, dest, src, secret, plaintext))
         == Some(env.prim.AckHash(plaintext, key))
  {
    hide BuildPush, DecodeText;
    Frames.AckAgreement(env.prim, dest, src, secret, key, post.ts, post.author, post.text, attempt, path);
  }

  lemma PushToSource(env: Env, w: World, i: nat, tick: Tick, post: Post, plaintext: seq<Byte>)
    requires i < |w.sessions| && PushTo(env, w, i, tick).sent == [PostPush(w.sessions[i].key, post, plaintext)]
    requires forall p <- w.db.posts :: '\0' !in p.text
    ensures
      var s, w' := w.sessions[i], PushTo(env, w, i, tick).world;
      && BuildsPush(post, tick.attempt, |s.outPath|, plaintext)
      && i < |w'.sessions|
      && w'.sessions[i].pendingAck == Some(env.prim.AckHash(plaintext, s.key))
      && w'.sessions[i].pushPostTs == post.ts && !w'.sessions[i].pushIsWelcome
      && w'.sessions[i].syncSince == s.syncSince
  {
    hide AckTimeout;
  }

  // What a post push says and leaves behind.
  lemma PushSource(env: Env, w: World, tick: Tick, post: Post, plaintext: seq<Byte>)
    requires Inv(env, w) && w.sessions != []
    requires PushOnce(env, w, tick).sent == [PostPush(w.sessions[Visited(w)].key, post, plaintext)]
    ensures
      var i := Visited(w);
      var s, pushed := w.sessions[i], PushOnce(env, w, tick).world.sessions;
      && BuildsPush(post, tick.attempt, |s.outPath|, plaintext)
      && i < |pushed|
      && pushed[i].pendingAck == Some(env.prim.AckHash(plaintext, s.key))
      && pushed[i].pushPostTs == post.ts && !pushed[i].pushIsWelcome && pushed[i].syncSince == s.syncSince
  {
    hide Inv, PushTo, BuildsPush;
    StoredTextsNulFree(env, w);
    var expired := ExpirePendingAcks(w, tick.expireAt);
    var n := |expired.sessions|;
    var visited := expired.roundRobin % n;
    PushToSource(env, expired.(roundRobin := (visited + 1) % n), visited, tick, post, plaintext);
  }

  lemma StoredTextsNulFree(env: Env, w: World)
    requires Inv(env, w)
    ensures forall p <- w.db.posts :: '\0' !in p.text
  {
    hide SessionAt, RowAt;
    forall p | p in w.db.posts ensures '\0' !in p.text {
      var j :| 0 <= j < |w.db.posts| && w.db.posts[j] == p;
      assert w.log.history[w.Cut() + j] == p;
    }
  }
}
