// The seen-packet table: a bounded list of packet hashes, oldest first, kept up to date in
// place. It is proved to answer the question it stands for: was this hash marked less than
// `ttl` ago, with fewer than `capacity` other hashes marked since?
module SeenTable {
  import opened Bytes
  import opened Wrappers
  import Seqs

  type Hash = seq<Byte>

  // One mark: what was seen, and the clock reading it was stamped with.
  datatype Marked = Marked(hash: Hash, at: real)

  // -- the question, on the whole history of marks -----------------------------

  // The last mark of `h`, if it was ever marked.
  function LastIndex(marks: seq<Marked>, h: Hash): (i: Option<nat>)
    ensures i.Some? ==> i.value < |marks| && marks[i.value].hash == h
    ensures i.Some? ==> forall j :: i.value < j < |marks| ==> marks[j].hash != h
    ensures i == None ==> forall j :: 0 <= j < |marks| ==> marks[j].hash != h
  {
    if marks == [] then None
    else if marks[|marks| - 1].hash == h then Some(|marks| - 1)
    else LastIndex(marks[..|marks| - 1], h)
  }

  function HashesOf(marks: seq<Marked>): (hashes: set<Hash>) {
    set m | m in marks :: m.hash
  }

  predicate Recent(marks: seq<Marked>, h: Hash, now: real, ttl: real, capacity: nat) {
    match LastIndex(marks, h)
    case None => false
    case Some(i) => marks[i].at > now - ttl && |HashesOf(marks[i + 1..])| < capacity
  }

  // -- the last marks, in order ------------------------------------------------

  // Removing the entry of `h`, if there is one.
  function Without(entries: seq<Marked>, h: Hash): (rest: seq<Marked>) {
    if entries == [] then []
    else if entries[0].hash == h then entries[1..]
    else [entries[0]] + Without(entries[1..], h)
  }

  // The last mark of every hash, oldest first.
  function LastMarks(marks: seq<Marked>): (last: seq<Marked>) {
    if marks == [] then []
    else
      var m := marks[|marks| - 1];
      Without(LastMarks(marks[..|marks| - 1]), m.hash) + [m]
  }

  predicate Distinct(entries: seq<Marked>) {
    forall i, j :: 0 <= i < j < |entries| ==> entries[i].hash != entries[j].hash
  }

  predicate Ordered(entries: seq<Marked>) {
    forall i, j :: 0 <= i < j < |entries| ==> entries[i].at <= entries[j].at
  }

  predicate Holds(entries: seq<Marked>, h: Hash) {
    exists i :: 0 <= i < |entries| && entries[i].hash == h
  }

  lemma {:induction false} WithoutAbsent(entries: seq<Marked>, h: Hash)
    requires !Holds(entries, h)
    ensures Without(entries, h) == entries
  {
    if entries != [] {
      assert forall i :: 0 <= i < |entries[1..]| ==> entries[1..][i] == entries[i + 1];
      WithoutAbsent(entries[1..], h);
    }
  }

  // Removing keeps the table distinct and ordered, and takes out `h`.
  lemma {:induction false} WithoutShape(entries: seq<Marked>, h: Hash)
    requires Distinct(entries)
    ensures Distinct(Without(entries, h)) && !Holds(Without(entries, h), h)
    ensures Ordered(entries) ==> Ordered(Without(entries, h))
    ensures forall m :: m in Without(entries, h) ==> m in entries
  {
    if entries != [] {
      Seqs.Uncons(entries);
      if entries[0].hash != h {
        WithoutShape(entries[1..], h);
        WithFirst(entries[0], entries[1..], Without(entries[1..], h), h);
      }
    }
  }

  lemma WithFirst(first: Marked, more: seq<Marked>, rest: seq<Marked>, h: Hash)
    requires Distinct([first] + more) && first.hash != h
    requires Distinct(rest) && !Holds(rest, h) && (Ordered(more) ==> Ordered(rest))
    requires forall m :: m in rest ==> m in more
    ensures Distinct([first] + rest) && !Holds([first] + rest, h)
    ensures Ordered([first] + more) ==> Ordered([first] + rest)
  {
    var all := [first] + more;
    assert all[0] == first && all[1..] == more;
    forall i | 0 <= i < |rest| ensures rest[i].hash != first.hash && (Ordered(all) ==> first.at <= rest[i].at) {
      FoundIn(all, rest[i]);
    }
    FirstThen(first, rest);
  }

  lemma FoundIn(all: seq<Marked>, m: Marked)
    requires Distinct(all) && all != [] && m in all[1..]
    ensures m.hash != all[0].hash && (Ordered(all) ==> all[0].at <= m.at)
  {
    var j :| 0 <= j < |all| - 1 && all[1..][j] == m;
    assert all[j + 1] == m;
  }

  lemma FirstThen(first: Marked, rest: seq<Marked>)
    requires Distinct(rest) && forall i :: 0 <= i < |rest| ==> rest[i].hash != first.hash
    ensures Distinct([first] + rest)
    ensures Ordered(rest) && (forall i :: 0 <= i < |rest| ==> first.at <= rest[i].at) ==> Ordered([first] + rest)
  {
  }

  lemma {:induction false} LastMarksShape(marks: seq<Marked>)
    ensures Distinct(LastMarks(marks))
    ensures forall m :: m in LastMarks(marks) ==> m in marks
    ensures Ordered(marks) ==> Ordered(LastMarks(marks))
  {
    hide Without, Holds;
    if marks != [] {
      hide Ordered, Distinct;
      var n := |marks| - 1;
      LastMarksShape(marks[..n]);
      WithoutShape(LastMarks(marks[..n]), marks[n].hash);
      WithLast(Without(LastMarks(marks[..n]), marks[n].hash), marks[n]);
      assert forall m :: m in marks[..n] ==> m in marks;
      if Ordered(marks) {
        OrderedInit(marks);
      }
    }
  }

  lemma OrderedInit(marks: seq<Marked>)
    requires Ordered(marks) && marks != []
    ensures Ordered(marks[..|marks| - 1])
    ensures forall m :: m in marks[..|marks| - 1] ==> m.at <= marks[|marks| - 1].at
  {
    var init := marks[..|marks| - 1];
    forall m | m in init ensures m.at <= marks[|marks| - 1].at {
      var j :| 0 <= j < |init| && init[j] == m;
      assert marks[j] == m;
    }
  }

  lemma WithLast(kept: seq<Marked>, m: Marked)
    requires Distinct(kept) && !Holds(kept, m.hash)
    ensures Distinct(kept + [m])
    ensures Ordered(kept) && (forall k :: k in kept ==> k.at <= m.at) ==> Ordered(kept + [m])
  {
    assert forall i :: 0 <= i < |kept| ==> kept[i] in kept;
  }

  lemma HashesOfAppend(marks: seq<Marked>, m: Marked)
    ensures HashesOf(marks + [m]) == HashesOf(marks) + {m.hash}
  {
  }

  lemma SuffixWithout(last: seq<Marked>, missing: nat, h: Hash)
    requires missing <= |last| && forall i :: missing <= i < |last| ==> last[i].hash != h
    ensures Without(last[missing..], h) == last[missing..]
  {
    assert forall i :: 0 <= i < |last[missing..]| ==> last[missing..][i] == last[missing + i];
    WithoutAbsent(last[missing..], h);
  }

  lemma HashesOfCons(m: Marked, marks: seq<Marked>)
    ensures HashesOf([m] + marks) == {m.hash} + HashesOf(marks)
  {
  }

  lemma {:induction false} HashesLess(entries: seq<Marked>, h: Hash)
    requires Distinct(entries)
    ensures HashesOf(Without(entries, h)) == HashesOf(entries) - {h}
  {
    if entries != [] {
      Seqs.Uncons(entries);
      if entries[0].hash == h {
        assert forall m: Marked :: m in entries[1..] ==> m.hash != h;
      } else {
        HashesLess(entries[1..], h);
        HashesOfCons(entries[0], entries[1..]);
        HashesOfCons(entries[0], Without(entries[1..], h));
      }
    }
  }

  // Removing `h` from a table, seen from the entry at `i`, which ends up at `k`.
  lemma {:induction false} WithoutBeyond(entries: seq<Marked>, i: nat, h: Hash) returns (k: nat)
    requires Distinct(entries) && i < |entries| && entries[i].hash != h
    ensures k < |Without(entries, h)| && Without(entries, h)[k] == entries[i]
    ensures Without(entries, h)[k + 1..] == Without(entries[i + 1..], h)
  {
    var rest := entries[1..];
    if entries[0].hash == h {
      k := i - 1;
      SuffixWithout(entries, i + 1, h);
      Seqs.DropTwice(entries, 1, i);
    } else if i == 0 {
      k := 0;
    } else {
      var j := WithoutBeyond(rest, i - 1, h);
      k := j + 1;
      Seqs.DropTwice(entries, 1, i);
      Seqs.ConsAt(entries[0], Without(rest, h), j);
    }
  }

  // Where a hash sits in the table of last marks says both when it was last marked and
  // which hashes have been marked since.
  lemma {:induction false} LastMarkOf(marks: seq<Marked>, h: Hash) returns (k: nat)
    requires LastIndex(marks, h).Some?
    ensures k < |LastMarks(marks)| && LastMarks(marks)[k] == marks[LastIndex(marks, h).value]
    ensures HashesOf(marks[LastIndex(marks, h).value + 1..]) == HashesOf(LastMarks(marks)[k + 1..])
  {
    hide Without;
    var n := |marks| - 1;
    var init, m := marks[..n], marks[n];
    var before := LastMarks(init);
    LastMarksShape(init);
    if m.hash == h {
      k := |LastMarks(marks)| - 1;
    } else {
      var i := LastMarkOf(init, h);
      k := WithoutBeyond(before, i, m.hash);
      MarkedBeyond(before, i, k, m);
      var j := LastIndex(marks, h).value;
      assert marks[j + 1..] == init[j + 1..] + [m];
      HashesOfAppend(init[j + 1..], m);
    }
  }

  lemma MarkedBeyond(before: seq<Marked>, i: nat, k: nat, m: Marked)
    requires Distinct(before) && i < |before| && k < |Without(before, m.hash)|
    requires Without(before, m.hash)[k + 1..] == Without(before[i + 1..], m.hash)
    ensures HashesOf((Without(before, m.hash) + [m])[k + 1..]) == HashesOf(before[i + 1..]) + {m.hash}
  {
    hide Without;
    var kept := Without(before, m.hash);
    HashesLess(before[i + 1..], m.hash);
    assert (kept + [m])[k + 1..] == kept[k + 1..] + [m];
    HashesOfAppend(kept[k + 1..], m);
  }

  lemma LastMarksComplete(marks: seq<Marked>, h: Hash)
    ensures Holds(LastMarks(marks), h) <==> LastIndex(marks, h).Some?
  {
    LastMarksShape(marks);
    if LastIndex(marks, h).Some? {
      var k := LastMarkOf(marks, h);
      assert LastMarks(marks)[k].hash == h;
    } else {
      assert forall k :: 0 <= k < |LastMarks(marks)| ==> LastMarks(marks)[k] in marks;
    }
  }

  lemma {:induction false} DistinctCount(entries: seq<Marked>)
    requires Distinct(entries)
    ensures |HashesOf(entries)| == |entries|
  {
    if entries != [] {
      var n := |entries| - 1;
      DistinctCount(entries[..n]);
      assert entries == entries[..n] + [entries[n]];
      HashesOfAppend(entries[..n], entries[n]);
      assert entries[n].hash !in HashesOf(entries[..n]);
    }
  }

  // -- the table ---------------------------------------------------------------

  // What may be left out of the table of last marks: entries too old, and entries with at
  // least `capacity` hashes after them.
  ghost predicate Stale(last: seq<Marked>, i: nat, now: real, ttl: real, capacity: nat)
    requires i < |last|
  {
    last[i].at <= now - ttl || |last| - i > capacity
  }

  // `entries` is the end of the table of last marks, and only stale entries are missing.
  ghost predicate Represents(entries: seq<Marked>, marks: seq<Marked>, now: real, ttl: real, capacity: nat) {
    var last := LastMarks(marks);
    && |entries| <= |last|
    && entries == last[|last| - |entries|..]
    && AllStale(last, |last| - |entries|, now, ttl, capacity)
  }

  // A table whose entries are all fresh and within the capacity answers the question.
  lemma HoldsExactlyRecent(entries: seq<Marked>, marks: seq<Marked>, h: Hash, now: real, ttl: real, capacity: nat)
    requires Represents(entries, marks, now, ttl, capacity) && |entries| <= capacity
    requires forall i :: 0 <= i < |entries| ==> entries[i].at > now - ttl
    ensures Holds(entries, h) <==> Recent(marks, h, now, ttl, capacity)
  {
    var last := LastMarks(marks);
    var missing := |last| - |entries|;
    LastMarksShape(marks);
    LastMarksComplete(marks, h);
    if LastIndex(marks, h).Some? {
      var k := LastMarkOf(marks, h);
      DistinctCount(last[k + 1..]);
      if k >= missing {
        assert entries[k - missing] == last[k];
      } else {
        assert Stale(last, k, now, ttl, capacity);
        assert !Holds(entries, h) by {
          assert forall i :: 0 <= i < |entries| ==> entries[i] == last[i + missing];
        }
      }
    } else {
      assert forall i :: 0 <= i < |entries| ==> entries[i] == last[i + missing];
    }
  }

  // Removing `h` from a table, seen from its end: of the first `missing` entries, `still`
  // are left.
  function Still(last: seq<Marked>, missing: nat, h: Hash): (still: nat)
    ensures still <= missing
  {
    if missing == 0 || last == [] then 0
    else if last[0].hash == h then missing - 1
    else 1 + Still(last[1..], missing - 1, h)
  }

  lemma {:induction false} SuffixWithoutAny(last: seq<Marked>, missing: nat, h: Hash)
    requires Distinct(last) && missing <= |last|
    ensures Still(last, missing, h) <= |Without(last, h)|
    ensures Without(last[missing..], h) == Without(last, h)[Still(last, missing, h)..]
  {
    if missing > 0 {
      Seqs.DropTwice(last, 1, missing - 1);
      if last[0].hash == h {
        SuffixWithout(last, missing, h);
      } else {
        SuffixWithoutAny(last[1..], missing - 1, h);
      }
    }
  }

  lemma {:induction false} WithoutShort(last: seq<Marked>, h: Hash)
    ensures |Without(last, h)| >= |last| - 1
  {
    if last != [] && last[0].hash != h {
      WithoutShort(last[1..], h);
    }
  }

  // An entry still missing was missing before, and no fewer entries follow it.
  lemma {:induction false} StillFrom(last: seq<Marked>, missing: nat, h: Hash, i: nat) returns (j: nat)
    requires missing <= |last| && i < Still(last, missing, h)
    ensures i <= j < missing && i < |Without(last, h)| && Without(last, h)[i] == last[j]
    ensures |Without(last, h)| + 1 - i >= |last| - j
  {
    WithoutShort(last, h);
    if last[0].hash == h {
      j := i + 1;
    } else if i == 0 {
      j := 0;
    } else {
      var k := StillFrom(last[1..], missing - 1, h, i - 1);
      j := k + 1;
    }
  }

  ghost predicate AllStale(last: seq<Marked>, missing: nat, now: real, ttl: real, capacity: nat)
    requires missing <= |last|
  {
    forall i :: 0 <= i < missing ==> Stale(last, i, now, ttl, capacity)
  }

  // The entry of `m` moves to the end: what was missing and is still missing is as stale
  // as before.
  lemma MoveToEnd(last: seq<Marked>, missing: nat, m: Marked, now: real, ttl: real, capacity: nat)
    requires Distinct(last) && missing <= |last| && AllStale(last, missing, now, ttl, capacity)
    ensures
      var entries', last' := Without(last[missing..], m.hash) + [m], Without(last, m.hash) + [m];
      && |entries'| <= |last'|
      && entries' == last'[|last'| - |entries'|..]
      && AllStale(last', |last'| - |entries'|, now, ttl, capacity)
  {
    hide Without, Still;
    var kept, still := Without(last, m.hash), Still(last, missing, m.hash);
    SuffixWithoutAny(last, missing, m.hash);
    assert (kept + [m])[still..] == kept[still..] + [m];
    forall i | 0 <= i < still ensures Stale(kept + [m], i, now, ttl, capacity) {
      var j := StillFrom(last, missing, m.hash, i);
      assert Stale(last, j, now, ttl, capacity);
    }
  }

  // Marking `m`: its hash moves to the end, and the rest still stands.
  lemma MarkRepresents(entries: seq<Marked>, marks: seq<Marked>, m: Marked, now: real, ttl: real, capacity: nat)
    requires Represents(entries, marks, now, ttl, capacity)
    ensures Represents(Without(entries, m.hash) + [m], marks + [m], now, ttl, capacity)
  {
    hide Without, Stale;
    var last := LastMarks(marks);
    LastMarksShape(marks);
    MoveToEnd(last, |last| - |entries|, m, now, ttl, capacity);
    assert (marks + [m])[..|marks|] == marks;
  }

  lemma TimePasses(entries: seq<Marked>, marks: seq<Marked>, now: real, later: real, ttl: real, capacity: nat)
    requires Represents(entries, marks, now, ttl, capacity) && now <= later
    ensures Represents(entries, marks, later, ttl, capacity)
  {
    var last := LastMarks(marks);
    forall i | 0 <= i < |last| - |entries| ensures Stale(last, i, later, ttl, capacity) {
      assert Stale(last, i, now, ttl, capacity);
    }
  }

  lemma NothingMarked(now: real, ttl: real, capacity: nat)
    ensures Represents([], [], now, ttl, capacity)
  {
  }

  lemma StillOrdered(marks: seq<Marked>, m: Marked)
    requires Ordered(marks) && forall i :: 0 <= i < |marks| ==> marks[i].at <= m.at
    ensures Ordered(marks + [m])
  {
  }

  lemma EntriesOrdered(entries: seq<Marked>, marks: seq<Marked>, now: real, ttl: real, capacity: nat)
    requires Represents(entries, marks, now, ttl, capacity) && Ordered(marks)
    ensures Ordered(entries)
  {
    LastMarksShape(marks);
  }

  // Dropping the oldest entry is allowed when it is stale.
  lemma DropRepresents(entries: seq<Marked>, marks: seq<Marked>, now: real, ttl: real, capacity: nat)
    requires Represents(entries, marks, now, ttl, capacity) && entries != []
    requires entries[0].at <= now - ttl || |entries| > capacity
    ensures Represents(entries[1..], marks, now, ttl, capacity)
  {
    var last := LastMarks(marks);
    var missing := |last| - |entries|;
    assert last[missing] == entries[0];
    assert Stale(last, missing, now, ttl, capacity);
  }

  class Table {
    const ttl: real
    const capacity: nat
    // Insertion-ordered, one entry per hash.
    var entries: seq<Marked>
    // Every mark ever made, and the last clock reading.
    ghost var marks: seq<Marked>
    ghost var clock: real

    ghost predicate Valid()
      reads this
    {
      && ttl > 0.0 && capacity > 0
      && |entries| <= capacity
      && Represents(entries, marks, clock, ttl, capacity)
      && Ordered(marks)
      && (forall i :: 0 <= i < |marks| ==> marks[i].at <= clock)
    }

    constructor (ttl: real, capacity: nat, ghost now: real)
      requires ttl > 0.0 && capacity > 0
      ensures Valid() && marks == [] && clock == now
      ensures this.ttl == ttl && this.capacity == capacity
    {
      hide LastMarks, Stale;
      NothingMarked(now, ttl, capacity);
      this.ttl, this.capacity := ttl, capacity;
      entries, marks, clock := [], [], now;
    }

    // Drops the entries that have outlived their time.
    method Expire(now: real)
      requires Valid() && clock <= now
      modifies this`entries, this`clock
      ensures Valid() && clock == now
      ensures forall i :: 0 <= i < |entries| ==> entries[i].at > now - ttl
    {
      TimePasses(entries, marks, clock, now, ttl, capacity);
      clock := now;
      while entries != []
        invariant Valid() && clock == now
        decreases |entries|
      {
        if entries[0].at > now - ttl {
          EntriesOrdered(entries, marks, clock, ttl, capacity);
          return;
        }
        DropRepresents(entries, marks, now, ttl, capacity);
        entries := entries[1..];
      }
    }

    // Records a hash as seen at `stamp`, the clock having been read at `now` to expire.
    method Mark(h: Hash, now: real, stamp: real)
      requires Valid() && clock <= now <= stamp
      modifies this
      ensures Valid() && clock == stamp
      ensures marks == old(marks) + [Marked(h, stamp)]
    {
      hide Represents, Without, Ordered;
      Expire(now);
      TimePasses(entries, marks, now, stamp, ttl, capacity);
      clock := stamp;
      ghost var m := Marked(h, stamp);
      MarkRepresents(entries, marks, m, clock, ttl, capacity);
      StillOrdered(marks, m);
      marks := marks + [m];
      entries := Without(entries, h);
      entries := entries + [Marked(h, stamp)];
      while |entries| > capacity
        invariant Represents(entries, marks, clock, ttl, capacity)
        invariant marks == old(marks) + [m] && clock == stamp
        decreases |entries|
      {
        DropRepresents(entries, marks, clock, ttl, capacity);
        entries := entries[1..];
      }
    }

    // Whether a hash was already known; it is marked either way. The clock is read to
    // expire before the test, again before the mark, and once more to stamp it.
    method CheckAndMark(h: Hash, now: real, again: real, stamp: real) returns (seen: bool)
      requires Valid() && clock <= now <= again <= stamp
      modifies this
      ensures Valid() && clock == stamp
      ensures seen <==> Recent(old(marks), h, now, ttl, capacity)
      ensures marks == old(marks) + [Marked(h, stamp)]
    {
      Expire(now);
      HoldsExactlyRecent(entries, marks, h, now, ttl, capacity);
      seen := Holds(entries, h);
      Mark(h, again, stamp);
    }
  }
}
