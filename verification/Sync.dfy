// Posts, and which of them a client is owed. A cursor `since` means: everything this
// client did not write itself and that is newer than `since` is still owed to it.
module Sync {
  import opened Crypto
  import Seqs

  datatype Post = Post(ts: int, author: Key, text: string)

  ghost predicate Increasing(posts: seq<Post>) {
    forall i, j :: 0 <= i < j < |posts| ==> posts[i].ts < posts[j].ts
  }

  predicate IsOwed(p: Post, key: Key, since: int) {
    p.ts > since && p.author != key
  }

  // The posts owed to `key`, oldest first.
  function Owed(posts: seq<Post>, key: Key, since: int): (owed: seq<Post>)
    ensures |owed| <= |posts|
  {
    if posts == [] then []
    else (if IsOwed(posts[0], key, since) then [posts[0]] else []) + Owed(posts[1..], key, since)
  }

  // The posts not written by `key` with `after` < ts <= `upTo`, oldest first.
  function Select(posts: seq<Post>, key: Key, after: int, upTo: int): (selected: seq<Post>)
    ensures |selected| <= |posts|
  {
    if posts == [] then []
    else
      (if IsOwed(posts[0], key, after) && posts[0].ts <= upTo then [posts[0]] else [])
      + Select(posts[1..], key, after, upTo)
  }

  lemma {:induction false} OwedMembers(posts: seq<Post>, key: Key, since: int, p: Post)
    ensures p in Owed(posts, key, since) <==> p in posts && IsOwed(p, key, since)
  {
    if posts != [] {
      OwedMembers(posts[1..], key, since, p);
      assert posts == [posts[0]] + posts[1..];
    }
  }

  lemma {:induction false} OwedConcat(a: seq<Post>, b: seq<Post>, key: Key, since: int)
    ensures Owed(a + b, key, since) == Owed(a, key, since) + Owed(b, key, since)
  {
    hide IsOwed;
    if a == [] {
      assert a + b == b;
    } else {
      OwedConcat(a[1..], b, key, since);
      Seqs.TailOfConcat(a, b);
      var first := if IsOwed(a[0], key, since) then [a[0]] else [];
      Seqs.Associate(first, Owed(a[1..], key, since), Owed(b, key, since));
    }
  }

  lemma {:induction false} SelectConcat(a: seq<Post>, b: seq<Post>, key: Key, after: int, upTo: int)
    ensures Select(a + b, key, after, upTo) == Select(a, key, after, upTo) + Select(b, key, after, upTo)
  {
    hide IsOwed;
    if a == [] {
      assert a + b == b;
    } else {
      SelectConcat(a[1..], b, key, after, upTo);
      Seqs.TailOfConcat(a, b);
      var first := if IsOwed(a[0], key, after) && a[0].ts <= upTo then [a[0]] else [];
      Seqs.Associate(first, Select(a[1..], key, after, upTo), Select(b, key, after, upTo));
    }
  }

  lemma {:induction false} NothingOwedBelow(posts: seq<Post>, key: Key, since: int)
    requires forall i :: 0 <= i < |posts| ==> posts[i].ts <= since
    ensures Owed(posts, key, since) == []
  {
    if posts != [] {
      NothingOwedBelow(posts[1..], key, since);
    }
  }

  // Dropping posts at or below the cursor leaves what is owed alone.
  lemma OwedAfterDrop(posts: seq<Post>, n: nat, key: Key, since: int)
    requires n <= |posts| && forall i :: 0 <= i < n ==> posts[i].ts <= since
    ensures Owed(posts[n..], key, since) == Owed(posts, key, since)
  {
    assert posts == posts[..n] + posts[n..];
    OwedConcat(posts[..n], posts[n..], key, since);
    NothingOwedBelow(posts[..n], key, since);
  }

  lemma {:induction false} SelectEmpty(posts: seq<Post>, key: Key, after: int, upTo: int)
    requires forall i :: 0 <= i < |posts| ==> posts[i].ts <= after || posts[i].ts > upTo
    ensures Select(posts, key, after, upTo) == []
  {
    if posts != [] {
      SelectEmpty(posts[1..], key, after, upTo);
    }
  }

  // Moving the cursor from `since` to the oldest owed post takes in that post and no other.
  lemma {:induction false} SelectUpToOldestOwed(posts: seq<Post>, key: Key, after: int, since: int)
    requires Increasing(posts) && after <= since && Owed(posts, key, since) != []
    ensures
      var oldest := Owed(posts, key, since)[0];
      && Select(posts, key, after, oldest.ts) == Select(posts, key, after, since) + [oldest]
      && since < oldest.ts
  {
    var oldest := Owed(posts, key, since)[0];
    if posts[0].ts > since && posts[0].author != key {
      SelectEmpty(posts[1..], key, after, oldest.ts);
      SelectEmpty(posts, key, after, since);
    } else {
      SelectUpToOldestOwed(posts[1..], key, after, since);
    }
  }

  // ... and leaves exactly the others owed.
  lemma {:induction false} OwedAfterOldest(posts: seq<Post>, key: Key, since: int)
    requires Increasing(posts) && Owed(posts, key, since) != []
    ensures
      var oldest := Owed(posts, key, since)[0];
      Owed(posts, key, oldest.ts) == Owed(posts, key, since)[1..]
  {
    var oldest := Owed(posts, key, since)[0];
    if posts[0].ts > since && posts[0].author != key {
      OwedSame(posts[1..], key, since, oldest.ts);
    } else {
      OwedAfterOldest(posts[1..], key, since);
      OwedMembers(posts[1..], key, since, oldest);
    }
  }

  lemma {:induction false} OwedSame(posts: seq<Post>, key: Key, since: int, later: int)
    requires forall i :: 0 <= i < |posts| ==> posts[i].ts > since && posts[i].ts > later
    ensures Owed(posts, key, since) == Owed(posts, key, later)
  {
    if posts != [] {
      OwedSame(posts[1..], key, since, later);
    }
  }

  lemma {:induction false} OwedIncreasing(posts: seq<Post>, key: Key, since: int)
    requires Increasing(posts)
    ensures Increasing(Owed(posts, key, since))
  {
    if posts != [] {
      OwedIncreasing(posts[1..], key, since);
      forall j | 0 <= j < |Owed(posts[1..], key, since)|
        ensures posts[0].ts < Owed(posts[1..], key, since)[j].ts
      {
        OwedMembers(posts[1..], key, since, Owed(posts[1..], key, since)[j]);
      }
    }
  }

  lemma {:induction false} SelectMembers(posts: seq<Post>, key: Key, after: int, upTo: int, p: Post)
    ensures p in Select(posts, key, after, upTo) <==> p in posts && IsOwed(p, key, after) && p.ts <= upTo
  {
    if posts != [] {
      SelectMembers(posts[1..], key, after, upTo, p);
      assert posts == [posts[0]] + posts[1..];
    }
  }

  lemma {:induction false} SelectIncreasing(posts: seq<Post>, key: Key, after: int, upTo: int)
    requires Increasing(posts)
    ensures Increasing(Select(posts, key, after, upTo))
  {
    if posts != [] {
      SelectIncreasing(posts[1..], key, after, upTo);
      forall j | 0 <= j < |Select(posts[1..], key, after, upTo)|
        ensures posts[0].ts < Select(posts[1..], key, after, upTo)[j].ts
      {
        SelectMembers(posts[1..], key, after, upTo, Select(posts[1..], key, after, upTo)[j]);
      }
    }
  }
}
