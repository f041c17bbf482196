// The database of one room: its posts in timestamp order and its client rows. Every
// function here is one transaction.
module Repo {
  import opened Bytes
  import opened Wrappers
  import opened Crypto
  import opened Sync

  const OUT_PATH_UNKNOWN := 0xFF

  datatype Row = Row(
    lastRole: int,
    lastTimestamp: int,
    syncSince: int,
    outPath: seq<Byte>,
    outPathLen: int,
    firstSeen: int,
    lastActivity: int
  )

  type Clients = map<Key, Row>

  datatype Db = Db(posts: seq<Post>, clients: Clients)

  // The newest timestamp in the table.
  function LatestTs(posts: seq<Post>): (latest: int)
    requires posts != []
    ensures exists p :: p in posts && p.ts == latest
    ensures forall p :: p in posts ==> p.ts <= latest
  {
    if |posts| == 1 then
      assert posts[0] in posts;
      posts[0].ts
    else
      var others := LatestTs(posts[1..]);
      assert posts == [posts[0]] + posts[1..];
      if posts[0].ts > others then posts[0].ts else others
  }

  function NextPostTs(posts: seq<Post>, now: int): (ts: int)
    ensures ts >= now
    ensures forall p :: p in posts ==> p.ts < ts
    ensures ts == now || exists p :: p in posts && p.ts + 1 == ts
  {
    if posts == [] then now
    else if now > LatestTs(posts) + 1 then now
    else LatestTs(posts) + 1
  }

  // The oldest post owed to `key` that has settled, that is, is not newer than the limit.
  function NextUnsynced(posts: seq<Post>, key: Key, since: int, notNewerThan: int): (next: Option<Post>)
    ensures next.Some? ==> next.value in posts && IsOwed(next.value, key, since) && next.value.ts <= notNewerThan
    ensures next == None ==> forall p :: p in posts && IsOwed(p, key, since) ==> p.ts > notNewerThan
  {
    if posts == [] then None
    else
      assert posts == [posts[0]] + posts[1..];
      if IsOwed(posts[0], key, since) && posts[0].ts <= notNewerThan then Some(posts[0])
      else NextUnsynced(posts[1..], key, since, notNewerThan)
  }

  // With posts in order, that is the oldest owed post of all, once it has settled.
  lemma {:induction false} NextUnsyncedIsOldestOwed(posts: seq<Post>, key: Key, since: int, notNewerThan: int)
    requires Increasing(posts)
    ensures
      var owed := Owed(posts, key, since);
      NextUnsynced(posts, key, since, notNewerThan)
        == if owed != [] && owed[0].ts <= notNewerThan then Some(owed[0]) else None
  {
    if posts != [] {
      if IsOwed(posts[0], key, since) {
        assert forall p :: p in posts[1..] ==> posts[0].ts < p.ts;
      } else {
        NextUnsyncedIsOldestOwed(posts[1..], key, since, notNewerThan);
      }
    }
  }

  function CountUnsynced(posts: seq<Post>, key: Key, since: int): (n: nat) {
    |Owed(posts, key, since)|
  }

  // -- pruning ---------------------------------------------------------------

  // No client in the room has its cursor below `ts`.
  predicate AtOrBelowFloor(clients: Clients, ts: int) {
    forall k <- clients.Keys :: ts <= clients[k].syncSince
  }

  // Whether retention removes `p`, `rank` posts being at least as new as it: too old OR
  // past the count, but never above the lowest cursor in the room.
  predicate Doomed(p: Post, rank: nat, clients: Clients, olderThan: Option<int>, keepNewest: Option<int>) {
    && (|| (olderThan.Some? && p.ts < olderThan.value)
        || (keepNewest.Some? && rank > keepNewest.value))
    && AtOrBelowFloor(clients, p.ts)
  }

  function PrunePosts(posts: seq<Post>, clients: Clients, olderThan: Option<int>, keepNewest: Option<int>): (kept: seq<Post>) {
    if posts == [] then []
    else
      (if Doomed(posts[0], |posts|, clients, olderThan, keepNewest) then [] else [posts[0]])
      + PrunePosts(posts[1..], clients, olderThan, keepNewest)
  }

  lemma {:induction false} NothingDoomed(posts: seq<Post>, clients: Clients, olderThan: Option<int>, keepNewest: Option<int>)
    requires forall i :: 0 <= i < |posts| ==> !Doomed(posts[i], |posts| - i, clients, olderThan, keepNewest)
    ensures PrunePosts(posts, clients, olderThan, keepNewest) == posts
  {
    if posts != [] {
      NothingDoomed(posts[1..], clients, olderThan, keepNewest);
    }
  }

  // However the two policies combine, what goes is a prefix of the table, every removed
  // post being doomed, so at or below every surviving cursor, and every kept one not.
  lemma {:induction false} PruneDropsPrefix(posts: seq<Post>, clients: Clients, olderThan: Option<int>, keepNewest: Option<int>)
    returns (dropped: nat)
    requires Increasing(posts)
    ensures dropped <= |posts|
    ensures PrunePosts(posts, clients, olderThan, keepNewest) == posts[dropped..]
    ensures forall i :: 0 <= i < |posts| ==>
      (i < dropped <==> Doomed(posts[i], |posts| - i, clients, olderThan, keepNewest))
  {
    hide Doomed;
    if posts == [] || !Doomed(posts[0], |posts|, clients, olderThan, keepNewest) {
      if posts != [] {
        SpareAll(posts, clients, olderThan, keepNewest);
      }
      NothingDoomed(posts, clients, olderThan, keepNewest);
      dropped := 0;
    } else {
      var more := PruneDropsPrefix(posts[1..], clients, olderThan, keepNewest);
      dropped := 1 + more;
      forall i | 0 <= i < |posts|
        ensures i < dropped <==> Doomed(posts[i], |posts| - i, clients, olderThan, keepNewest)
      {
        if i > 0 {
          assert posts[i] == posts[1..][i - 1];
        }
      }
    }
  }

  // So a post goes if and only if it is too old, or is not among the newest kept, and is at
  // or below the cursor of every client.
  lemma PrunedExactly(posts: seq<Post>, clients: Clients, olderThan: Option<int>, keepNewest: Option<int>, i: nat)
    requires Increasing(posts) && i < |posts|
    ensures
      posts[i] in PrunePosts(posts, clients, olderThan, keepNewest)
      <==>
      || (&& (olderThan == None || posts[i].ts >= olderThan.value)
          && (keepNewest == None || |posts| - i <= keepNewest.value))
      || exists k :: k in clients && clients[k].syncSince < posts[i].ts
  {
    var dropped := PruneDropsPrefix(posts, clients, olderThan, keepNewest);
    assert posts[i] in posts[dropped..] <==> i >= dropped by {
      if i >= dropped {
        assert posts[dropped..][i - dropped] == posts[i];
      } else {
        assert forall j :: dropped <= j < |posts| ==> posts[j].ts != posts[i].ts;
      }
    }
    assert Doomed(posts[i], |posts| - i, clients, olderThan, keepNewest) <==> i < dropped;
  }

  lemma SpareAll(posts: seq<Post>, clients: Clients, olderThan: Option<int>, keepNewest: Option<int>)
    requires Increasing(posts) && posts != [] && !Doomed(posts[0], |posts|, clients, olderThan, keepNewest)
    ensures forall i :: 0 <= i < |posts| ==> !Doomed(posts[i], |posts| - i, clients, olderThan, keepNewest)
  {
    hide Doomed;
    forall i | 0 <= i < |posts| ensures !Doomed(posts[i], |posts| - i, clients, olderThan, keepNewest) {
      if i > 0 && Doomed(posts[i], |posts| - i, clients, olderThan, keepNewest) {
        DoomedDownward(posts[0], posts[i], |posts|, |posts| - i, clients, olderThan, keepNewest);
      }
    }
  }

  lemma DoomedDownward(older: Post, newer: Post, olderRank: nat, newerRank: nat, clients: Clients,
                       olderThan: Option<int>, keepNewest: Option<int>)
    requires older.ts < newer.ts && newerRank <= olderRank
    requires Doomed(newer, newerRank, clients, olderThan, keepNewest)
    ensures Doomed(older, olderRank, clients, olderThan, keepNewest)
  {
  }

  // Forgets clients whose row has been idle since before `olderThan`, unless kept.
  function PruneClients(clients: Clients, olderThan: int, keep: set<Key>): (kept: Clients)
    ensures forall k :: k in kept <==> k in clients && (clients[k].lastActivity >= olderThan || k in keep)
    ensures forall k :: k in kept ==> kept[k] == clients[k]
  {
    map k | k in clients && (clients[k].lastActivity >= olderThan || k in keep) :: clients[k]
  }

  // -- client rows -----------------------------------------------------------

  function RecordLogin(clients: Clients, key: Key, role: int, senderTimestamp: int, syncSince: int, now: int,
                       resetOutPath: bool): (updated: Clients)
    ensures updated.Keys == clients.Keys + {key}
    ensures forall k :: k in clients && k != key ==> updated[k] == clients[k]
  {
    var known := if key in clients then clients[key] else Row(0, 0, 0, [], OUT_PATH_UNKNOWN, now, 0);
    var seen := known.(lastRole := role, lastTimestamp := senderTimestamp, syncSince := syncSince, lastActivity := now);
    clients[key := if resetOutPath then seen.(outPath := [], outPathLen := OUT_PATH_UNKNOWN) else seen]
  }

  function SetOutPath(clients: Clients, key: Key, path: seq<Byte>, pathLen: int): (updated: Clients)
    ensures updated.Keys == clients.Keys
  {
    if key in clients then clients[key := clients[key].(outPath := path, outPathLen := pathLen)] else clients
  }

  // Forward only: a late acknowledgement must not undo progress.
  function AdvanceSync(clients: Clients, key: Key, postTs: int): (updated: Clients)
    ensures updated.Keys == clients.Keys
  {
    if key in clients && clients[key].syncSince < postTs then
      clients[key := clients[key].(syncSince := postTs)]
    else clients
  }

  // Backwards or not, exactly what the client asked for.
  function ForceSyncSince(clients: Clients, key: Key, syncSince: int): (updated: Clients)
    ensures updated.Keys == clients.Keys
  {
    if key in clients then clients[key := clients[key].(syncSince := syncSince)] else clients
  }

  function Max(a: int, b: int): (m: int) {
    if a < b then b else a
  }

  // Acknowledgements may arrive late, twice or out of order: what counts is the newest post
  // among them.
  lemma AcksInAnyOrder(clients: Clients, key: Key, a: int, b: int)
    ensures AdvanceSync(AdvanceSync(clients, key, a), key, b) == AdvanceSync(clients, key, Max(a, b))
    ensures AdvanceSync(AdvanceSync(clients, key, b), key, a) == AdvanceSync(clients, key, Max(a, b))
  {
    if key in clients {
      var row := clients[key];
      assert AdvanceSync(clients, key, Max(a, b))
          == clients[key := row.(syncSince := Max(row.syncSince, Max(a, b)))];
    }
  }

  // A claim forgets every acknowledgement and every claim before it.
  lemma LastClaimCounts(clients: Clients, key: Key, before: int, since: int)
    ensures ForceSyncSince(AdvanceSync(clients, key, before), key, since) == ForceSyncSince(clients, key, since)
    ensures ForceSyncSince(ForceSyncSince(clients, key, before), key, since) == ForceSyncSince(clients, key, since)
  {
    if key in clients {
      var row := clients[key];
      assert ForceSyncSince(clients, key, since) == clients[key := row.(syncSince := since)];
    }
  }

  // A path learned moves no cursor, and so nothing anyone is owed nor the floor of pruning.
  lemma PathMovesNoCursor(clients: Clients, key: Key, path: seq<Byte>, pathLen: int, k: Key, ts: int)
    requires k in clients
    ensures SetOutPath(clients, key, path, pathLen)[k].syncSince == clients[k].syncSince
    ensures SetOutPath(clients, key, path, pathLen)[k].lastActivity == clients[k].lastActivity
    ensures AtOrBelowFloor(SetOutPath(clients, key, path, pathLen), ts) <==> AtOrBelowFloor(clients, ts)
  {
    var updated := SetOutPath(clients, key, path, pathLen);
    assert forall j :: j in clients ==> updated[j].syncSince == clients[j].syncSince;
  }

  // `order` is a listing of every row by first sight; ties may come in any order.
  ghost predicate IsListing(clients: Clients, order: seq<Key>) {
    && (forall k :: k in order <==> k in clients)
    && (forall i, j :: 0 <= i < j < |order| ==> order[i] != order[j])
    && (forall i, j :: 0 <= i < j < |order| ==> clients[order[i]].firstSeen <= clients[order[j]].firstSeen)
  }
}
