// Catching up: a client that answers what it is sent gets its whole backlog, welcome first
// and then the posts, oldest first, one message a round, whatever the others do meanwhile.
module RoomCatchUp {
  import opened Bytes
  import opened Wrappers
  import opened Sync
  import opened RoomSpec
  import opened RoomInvariant
  import opened RoomRuns
  import opened RoomSchedule
  import opened RoomQuiet
  import opened RoomProgress
  import opened RoomReplies
  import Seqs

  // A session with a free slot, heard from, within its failures, over a usable path.
  ghost predicate Ready(env: Env, w: World, j: nat) {
    && Inv(env, w) && j < |w.sessions|
    && var s := w.sessions[j];
       && s.pendingAck == None && s.lastActivity != 0 && s.pushFailures < env.timings.maxPushFailures
       && s.Addressable()
  }

  // The clock of `tick` suits what session `j` is to be sent next.
  predicate Timely(env: Env, w: World, j: nat, tick: Tick)
    requires j < |w.sessions|
  {
    if w.sessions[j].welcome != [] then FitsU32(tick.uniqueNow)
    else
      OwedTo(w, j) != [] ==>
        FitsU32(OwedTo(w, j)[0].ts) && OwedTo(w, j)[0].ts <= tick.now - env.timings.postSyncDelay
  }

  // Events up to the answer of client `j`: its turn is among them, anything may arrive from
  // others before and after, no step raises, and from the turn on its slot does not time out.
  ghost predicate Round(env: Env, w: World, j: nat, events: seq<Event>) {
    && j < |w.sessions| && Steady(env, w, events)
    && AllFromOthers(events, w.sessions[j].key)
    && !Interrupted(env, w, events, |events|)
    && Wait(w.roundRobin, |w.sessions|, j) < Pushes(events, |events|)
    && Timely(env, w, j, events[NextTurn(w, events, j)].tick)
    && QuietFrom(env, w, events, j, NextTurn(w, events, j) + 1, |events|)
    && Credited(Before(env, w, events, |events|), j)
  }

  // The checksum session `j` awaits is awaited by no session before it.
  predicate Credited(w: World, j: nat) {
    j < |w.sessions| && w.sessions[j].pendingAck.Some? ==>
      Waiting(w.sessions, w.sessions[j].pendingAck.value) == Some(j)
  }

  // Those events, and then the answer.
  ghost function AfterRound(env: Env, w: World, j: nat, events: seq<Event>): (w': World)
    requires Round(env, w, j, events)
  {
    var end := Before(env, w, events, |events|);
    if j < |end.sessions| && end.sessions[j].pendingAck.Some? then OnAck(end, end.sessions[j].pendingAck.value) else end
  }

  // The end of a round: the message that was next is in the slot, and nothing else of the
  // client has changed.
  lemma RoundPends(env: Env, w: World, j: nat, events: seq<Event>)
    requires env.Sound() && Ready(env, w, j) && Round(env, w, j, events)
    requires w.sessions[j].welcome != [] || OwedTo(w, j) != []
    ensures
      var end := Before(env, w, events, |events|);
      && Inv(env, end) && j < |end.sessions| && |end.sessions| == |w.sessions|
      && w.log.history <= end.log.history
      && end.log.TrackOf(w.sessions[j].key) == w.log.TrackOf(w.sessions[j].key)
      && OwedTo(w, j) <= OwedTo(end, j)
      && var s, s' := w.sessions[j], end.sessions[j];
         && s'.pendingAck.Some?
         && s' == s.(role := s'.role, source := s'.source, pendingAck := s'.pendingAck, pushPostTs := s'.pushPostTs,
                     pushIsWelcome := s.welcome != [], ackTimeout := s'.ackTimeout)
  {
    hide Inv, Wait, Visited, PushOnce, Message, Session.Addressable, Interrupted, Owed, QuietFrom, Credited;
    var turn := TurnComes(env, w, events, j);
    var tick, before, after := events[turn].tick, Before(env, w, events, turn), Before(env, w, events, turn + 1);
    UntouchedUntilTurn(env, w, events, j, turn);
    BeforeKeeps(env, w, events, turn);
    SameMessage(env, w, before, j, tick);
    OwedGrows(env, w, before, j);
    PostsIncrease(env, before);
    TurnServes(env, before, tick);
    BeforeNext(env, w, events, turn);
    BeforeKeeps(env, w, events, turn + 1);
    BeforeKeeps(env, w, events, |events|);
    RunLeaves(env, w, events, j, turn + 1, |events|);
    OwedGrows(env, after, Before(env, w, events, |events|), j);
  }

  // One round and its answer deliver the next message and leave the session ready for the
  // one after.
  lemma RoundDelivers(env: Env, w: World, j: nat, events: seq<Event>)
    requires env.Sound() && Ready(env, w, j) && Round(env, w, j, events)
    requires w.sessions[j].welcome != [] || OwedTo(w, j) != []
    ensures
      var w' := AfterRound(env, w, j, events);
      && Ready(env, w', j) && w.log.history <= w'.log.history
      && var s, s' := w.sessions[j], w'.sessions[j];
         && s'.key == s.key
         && if s.welcome != [] then
              && s'.welcome == s.welcome[1..] && s'.syncSince == s.syncSince
              && OwedTo(w, j) <= OwedTo(w', j)
              && w'.log.TrackOf(s.key) == w.log.TrackOf(s.key)
            else
              && s'.welcome == [] && s'.syncSince == OwedTo(w, j)[0].ts
              && OwedTo(w, j)[1..] <= OwedTo(w', j)
              && var track := w.log.TrackOf(s.key);
                 w'.log.TrackOf(s.key) == track.(acked := track.acked + [OwedTo(w, j)[0]])
  {
    hide Inv, Steady, Before, Owed, Round, Waiting;
    RoundPends(env, w, j, events);
    RoundCredited(env, w, j, events);
    var end := Before(env, w, events, |events|);
    var checksum := end.sessions[j].pendingAck.value;
    OnAckKeeps(env, end, checksum);
    if w.sessions[j].welcome != [] {
      WelcomeAcknowledged(env, end, checksum, j);
    } else {
      AckAdvancesByOne(env, end, checksum, j);
      AckSettles(end, checksum, j);
    }
  }

  lemma RoundCredited(env: Env, w: World, j: nat, events: seq<Event>)
    requires Round(env, w, j, events)
    ensures Steady(env, w, events) && Credited(Before(env, w, events, |events|), j)
  {
  }

  lemma AckSettles(w: World, checksum: seq<Byte>, j: nat)
    requires Waiting(w.sessions, checksum) == Some(j) && !w.sessions[j].pushIsWelcome
    ensures
      var s, w' := w.sessions[j], OnAck(w, checksum);
      && |w'.sessions| == |w.sessions| && w'.db.posts == w.db.posts && w'.log.history == w.log.history
      && w'.sessions[j] == s.(pendingAck := None, pushFailures := 0, syncSince := s.pushPostTs)
  {
  }

  ghost predicate Rounds(env: Env, w: World, j: nat, rounds: seq<seq<Event>>)
    decreases |rounds|
  {
    rounds != [] ==> Round(env, w, j, rounds[0]) && Rounds(env, AfterRound(env, w, j, rounds[0]), j, rounds[1..])
  }

  ghost function AfterRounds(env: Env, w: World, j: nat, rounds: seq<seq<Event>>): (w': World)
    requires Rounds(env, w, j, rounds)
    decreases |rounds|
  {
    if rounds == [] then w else AfterRounds(env, AfterRound(env, w, j, rounds[0]), j, rounds[1..])
  }

  // After as many answered rounds as there are welcome chunks and posts in `backlog`, both
  // are delivered: the queue is empty, and the posts acknowledged are the backlog, in order.
  lemma {:induction false} CatchesUp(env: Env, w: World, j: nat, rounds: seq<seq<Event>>, backlog: seq<Post>)
    requires env.Sound() && Ready(env, w, j) && Rounds(env, w, j, rounds)
    requires backlog <= OwedTo(w, j) && |rounds| == |w.sessions[j].welcome| + |backlog|
    ensures
      var w' := AfterRounds(env, w, j, rounds);
      && Ready(env, w', j) && w.log.history <= w'.log.history
      && var s, s' := w.sessions[j], w'.sessions[j];
         && s'.key == s.key && s'.welcome == []
         && w'.log.TrackOf(s.key) == w.log.TrackOf(s.key).(acked := w.log.TrackOf(s.key).acked + backlog)
         && s'.syncSince == if backlog == [] then s.syncSince else backlog[|backlog| - 1].ts
    decreases |rounds|
  {
    hide Ready, Round, AfterRound, Owed;
    ReadyIsThere(env, w, j);
    var s, acked := w.sessions[j], w.log.TrackOf(w.sessions[j].key).acked;
    if rounds == [] {
      assert acked + backlog == acked;
    } else {
      var w1 := AfterRound(env, w, j, rounds[0]);
      RoundDelivers(env, w, j, rounds[0]);
      ReadyIsThere(env, w1, j);
      if s.welcome != [] {
        PrefixTwice(backlog, OwedTo(w, j), OwedTo(w1, j));
        CatchesUp(env, w1, j, rounds[1..], backlog);
      } else {
        PrefixTail(backlog, OwedTo(w, j));
        PrefixTwice(backlog[1..], OwedTo(w, j)[1..], OwedTo(w1, j));
        CatchesUp(env, w1, j, rounds[1..], backlog[1..]);
        Seqs.Uncons(backlog);
        Seqs.Associate(acked, [backlog[0]], backlog[1..]);
      }
    }
  }

  lemma ReadyIsThere(env: Env, w: World, j: nat)
    requires Ready(env, w, j)
    ensures j < |w.sessions|
  {
    hide Inv;
  }

  lemma PrefixTwice(a: seq<Post>, b: seq<Post>, c: seq<Post>)
    requires a <= b && b <= c
    ensures a <= c
  {
  }

  lemma PrefixTail(a: seq<Post>, b: seq<Post>)
    requires a <= b && a != []
    ensures b != [] && a[0] == b[0] && a[1..] <= b[1..]
  {
  }

  // With the whole backlog delivered, all that is still owed was posted in the meantime.
  lemma CaughtUp(env: Env, w: World, j: nat, rounds: seq<seq<Event>>)
    requires env.Sound() && Ready(env, w, j) && Rounds(env, w, j, rounds)
    requires |rounds| == |w.sessions[j].welcome| + |OwedTo(w, j)|
    ensures
      var w' := AfterRounds(env, w, j, rounds);
      && Ready(env, w', j) && w.log.history <= w'.log.history
      && w'.sessions[j].welcome == []
      && w'.log.TrackOf(w.sessions[j].key).acked == w.log.TrackOf(w.sessions[j].key).acked + OwedTo(w, j)
      && forall p :: p in OwedTo(w', j) ==> p in w'.log.history[|w.log.history|..]
  {
    hide Inv, Owed, Rounds, AfterRounds, Session.Addressable, Select;
    var owed, w' := OwedTo(w, j), AfterRounds(env, w, j, rounds);
    CatchesUp(env, w, j, rounds, owed);
    forall p | p in OwedTo(w', j) ensures p in w'.log.history[|w.log.history|..] {
      OnlyNewOwed(env, w, w', j, p);
    }
  }

  lemma OnlyNewOwed(env: Env, w: World, w': World, j: nat, p: Post)
    requires Inv(env, w) && Inv(env, w') && j < |w.sessions| && j < |w'.sessions|
    requires w.log.history <= w'.log.history && w'.sessions[j].key == w.sessions[j].key
    requires w'.log.TrackOf(w.sessions[j].key).from == w.log.TrackOf(w.sessions[j].key).from
    requires w'.sessions[j].syncSince == NewestOwed(w, j)
    requires p in OwedTo(w', j)
    ensures p in w'.log.history[|w.log.history|..]
  {
    hide Inv, OwedTo;
    var history, history' := w.log.history, w'.log.history;
    var i := StoredAbove(env, w', j, p);
    if i < |history| {
      KnownBelow(env, w, j, i);
    }
    assert history'[|history|..][i - |history|] == p;
  }

  // The cursor once all that is owed now has been acknowledged.
  function NewestOwed(w: World, j: nat): (ts: int)
    requires j < |w.sessions|
  {
    var owed := OwedTo(w, j);
    if owed == [] then w.sessions[j].syncSince else owed[|owed| - 1].ts
  }

  // A post owed sits in the history after what was gone at the client's claim.
  lemma StoredAbove(env: Env, w: World, j: nat, p: Post) returns (i: nat)
    requires Inv(env, w) && j < |w.sessions| && p in OwedTo(w, j)
    ensures w.log.TrackOf(w.sessions[j].key).from <= i < |w.log.history| && w.log.history[i] == p
    ensures IsOwed(p, w.sessions[j].key, w.sessions[j].syncSince)
  {
    hide SessionOk, StorableText, PathOk, HasSession, Owed, Select;
    var s := w.sessions[j];
    AtSession(env, w, j);
    OwedMembers(w.db.posts, s.key, s.syncSince, p);
    var k :| 0 <= k < |w.db.posts| && w.db.posts[k] == p;
    i := w.Cut() + k;
  }

  // What the client did not write and was there at its claim is not newer than all it is
  // owed.
  lemma KnownBelow(env: Env, w: World, j: nat, i: nat)
    requires Inv(env, w) && j < |w.sessions|
    requires w.log.TrackOf(w.sessions[j].key).from <= i < |w.log.history|
    requires w.log.history[i].author != w.sessions[j].key
    ensures w.log.history[i].ts <= NewestOwed(w, j)
  {
    hide Inv, Owed;
    var s, p, owed := w.sessions[j], w.log.history[i], OwedTo(w, j);
    AtSession(env, w, j);
    CursorOf(env, w, j);
    OwedIsStored(env, w, s.key);
    assert w.log.history[w.log.tracks[s.key].from..][i - w.log.tracks[s.key].from] == p;
    OwedMembers(w.db.posts, s.key, s.syncSince, p);
    OwedIncreasing(w.db.posts, s.key, s.syncSince);
    if owed != [] {
      OwedMembers(w.db.posts, s.key, s.syncSince, owed[|owed| - 1]);
    }
  }
}
