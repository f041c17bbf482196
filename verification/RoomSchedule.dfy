// Whose turn it is: the round-robin order over runs in which anything may arrive between
// two push steps, and what such a run leaves alone.
module RoomSchedule {
  import opened Crypto
  import opened Packet
  import opened Posts
  import opened Repo
  import opened RoomSpec
  import opened RoomInvariant
  import opened RoomRuns

  // -- runs with a fixed set of clients ----------------------------------------

  // The same clients are in the same places.
  predicate SameClients(w: World, w': World) {
    && |w'.sessions| == |w.sessions|
    && forall i :: 0 <= i < |w.sessions| ==> w'.sessions[i].key == w.sessions[i].key
  }

  // A run within one process, through which no client comes or goes.
  ghost predicate Steady(env: Env, w: World, events: seq<Event>)
    decreases |events|
  {
    events != [] ==>
      && CanHappen(w, events[0]) && !events[0].Reboot?
      && SameClients(w, Step(env, w, events[0]))
      && Steady(env, Step(env, w, events[0]), events[1..])
  }

  // The state before event `i` of a run, or at its end.
  ghost function Before(env: Env, w: World, events: seq<Event>, i: nat): (w': World)
    requires Steady(env, w, events) && i <= |events|
    decreases |events|
  {
    if i == 0 then w else Before(env, Step(env, w, events[0]), events[1..], i - 1)
  }

  // Push steps among the first `i` events.
  function Pushes(events: seq<Event>, i: nat): (n: nat)
    requires i <= |events|
    ensures n <= i
  {
    if i == 0 then 0 else (if events[0].PushStep? then 1 else 0) + Pushes(events[1..], i - 1)
  }

  lemma {:induction false} SteadyIsRun(env: Env, w: World, events: seq<Event>)
    requires Steady(env, w, events)
    ensures IsRun(env, w, events) && Run(env, w, events) == Before(env, w, events, |events|)
    decreases |events|
  {
    hide Step, CanHappen, SameClients;
    if events != [] {
      SteadyIsRun(env, Step(env, w, events[0]), events[1..]);
    }
  }

  lemma {:induction false} BeforeNext(env: Env, w: World, events: seq<Event>, i: nat)
    requires Steady(env, w, events) && i < |events|
    ensures CanHappen(Before(env, w, events, i), events[i]) && !events[i].Reboot?
    ensures Before(env, w, events, i + 1) == Step(env, Before(env, w, events, i), events[i])
    ensures SameClients(Before(env, w, events, i), Before(env, w, events, i + 1))
    decreases |events|
  {
    hide Step, CanHappen, SameClients;
    if i > 0 {
      BeforeNext(env, Step(env, w, events[0]), events[1..], i - 1);
      assert events[1..][i - 1] == events[i];
    }
  }

  lemma {:induction false} PushesNext(events: seq<Event>, i: nat)
    requires i < |events|
    ensures Pushes(events, i + 1) == Pushes(events, i) + if events[i].PushStep? then 1 else 0
  {
    if i > 0 {
      PushesNext(events[1..], i - 1);
    }
  }

  lemma {:induction false} PushesRise(events: seq<Event>, i: nat, k: nat)
    requires i <= k <= |events|
    ensures Pushes(events, i) <= Pushes(events, k)
    decreases k
  {
    if i < k {
      PushesNext(events, k - 1);
      PushesRise(events, i, k - 1);
    }
  }

  // Where the push step with `n` push steps before it is.
  function NthPush(events: seq<Event>, n: nat): (i: nat)
    requires n < Pushes(events, |events|)
    ensures i < |events| && events[i].PushStep?
    ensures Pushes(events, i) == n
  {
    if events[0].PushStep? && n == 0 then 0
    else 1 + NthPush(events[1..], if events[0].PushStep? then n - 1 else n)
  }

  lemma {:induction false} BeforeKeeps(env: Env, w: World, events: seq<Event>, i: nat)
    requires env.Sound() && Inv(env, w) && Steady(env, w, events) && i <= |events|
    ensures Inv(env, Before(env, w, events, i)) && SameClients(w, Before(env, w, events, i))
    decreases |events|
  {
    hide Inv, Step;
    if i > 0 {
      StepKeeps(env, w, events[0]);
      BeforeKeeps(env, Step(env, w, events[0]), events[1..], i - 1);
    }
  }

  // -- turns -------------------------------------------------------------------

  function Place(turn: nat, n: nat): (i: nat)
    requires n > 0
    ensures i < n
  {
    turn % n
  }

  // The session whose turn the next push step is.
  function Visited(w: World): (i: nat)
    requires w.sessions != []
    ensures i < |w.sessions|
  {
    Place(w.roundRobin, |w.sessions|)
  }

  lemma ModUnique(x: int, q: int, r: int, n: int)
    requires x == q * n + r && 0 <= r < n
    ensures x % n == r
  {
    var d := x / n - q;
    assert x == x / n * n + x % n;
    assert d * n == r - x % n;
    assert d > 0 ==> d * n >= n;
    assert d < 0 ==> d * n <= -n;
  }

  lemma ModPlus(a: nat, b: nat, n: nat)
    requires n > 0
    ensures (a % n + b) % n == (a + b) % n
  {
    var q, x := a / n, a % n + b;
    assert a + b == (q + x / n) * n + x % n by {
      assert a == q * n + a % n && x == x / n * n + x % n;
      assert (q + x / n) * n == q * n + x / n * n;
    }
    ModUnique(a + b, q + x / n, x % n, n);
  }

  // Of all events only a push step moves the turn on.
  lemma StepTurns(env: Env, w: World, e: Event)
    requires CanHappen(w, e) && !e.Reboot?
    ensures Step(env, w, e).roundRobin
         == if e.PushStep? && w.sessions != [] then Place(Visited(w) + 1, |w.sessions|) else w.roundRobin
  {
    hide CountUnsynced, ForceSince, DecodeRequest, DecodeLogin, RecordLogin, LoggedIn, OnText, OnPathReturn, PushOnce;
    match e {
      case TextIn(sender, plaintext, clock) =>
        if DecodeText(plaintext).Ok? {
          OnTextTurns(env, w, sender, DecodeText(plaintext).value, clock);
        }
      case PathIn(sender, plaintext, now) =>
        if DecodePathReturn(plaintext).Ok? {
          PathReturnInverse(plaintext);
          PathTurns(w, sender, DecodePathReturn(plaintext).value, now);
        }
      case PushStep(tick) => PushTurns(env, w, tick);
      case _ =>
    }
  }

  lemma OnTextTurns(env: Env, w: World, sender: Key, m: TextMessage, clock: Readings)
    requires m.Valid()
    ensures OnText(env, w, sender, m, clock).world.roundRobin == w.roundRobin
  {
    hide PostText, RetainedClients, PrunePosts, NextPostTs, KeepSessions;
  }

  lemma PathTurns(w: World, sender: Key, p: PathReturn, now: int)
    requires p.Valid()
    ensures OnPathReturn(w, sender, p, now).roundRobin == w.roundRobin
  {
  }

  lemma PushTurns(env: Env, w: World, tick: Tick)
    ensures PushOnce(env, w, tick).world.roundRobin
         == if w.sessions != [] then Place(Visited(w) + 1, |w.sessions|) else w.roundRobin
  {
    hide BuildPush, NextUnsynced, AckTimeout;
  }

  lemma TurnMovesOn(start: nat, more: nat, n: nat)
    requires n > 0
    ensures Place(Place(Place(start, n) + 1, n) + more, n) == Place(start + (1 + more), n)
  {
    ModPlus(start, 1, n);
    ModPlus(start + 1, more, n);
  }

  // After any run with a fixed set of clients, the turn is as many places on as there were
  // push steps.
  lemma {:induction false} TurnAfter(env: Env, w: World, events: seq<Event>, i: nat)
    requires w.sessions != [] && Steady(env, w, events) && i <= |events|
    ensures Before(env, w, events, i).sessions != []
    ensures Visited(Before(env, w, events, i)) == Place(w.roundRobin + Pushes(events, i), |w.sessions|)
    decreases |events|
  {
    hide Step, CanHappen, Place;
    if i > 0 {
      var n, w1 := |w.sessions|, Step(env, w, events[0]);
      StepTurns(env, w, events[0]);
      TurnAfter(env, w1, events[1..], i - 1);
      TurnMovesOn(w.roundRobin, Pushes(events[1..], i - 1), n);
    }
  }

  // How many turns from `start` until it is `j`'s.
  function Wait(start: nat, n: nat, j: nat): (i: nat)
    requires j < n
    ensures i < n
  {
    (n + j - start % n) % n
  }

  lemma WaitIsRight(start: nat, n: nat, j: nat)
    requires j < n
    ensures Place(start + Wait(start, n, j), n) == j
  {
    var q, r, i := start / n, start % n, Wait(start, n, j);
    if j >= r {
      ModUnique(n + j - r, 1, j - r, n);
      ModUnique(start + i, q, j, n);
    } else {
      ModUnique(n + j - r, 0, n + j - r, n);
      ModUnique(start + i, q + 1, j, n);
    }
  }

  lemma WaitIsOnly(start: nat, n: nat, i: nat, k: nat)
    requires i < k < n
    ensures Place(start + i, n) != Place(start + k, n)
  {
    var a, b := start + i, start + k;
    var d := b / n - a / n;
    assert b - a == d * n + (b % n - a % n);
    assert d >= 1 ==> d * n >= n;
    assert d <= 0 ==> d * n <= 0;
  }

  // Event `i` is a push step at the turn of session `j`.
  ghost predicate TurnOf(env: Env, w: World, events: seq<Event>, i: nat, j: nat)
    requires Steady(env, w, events) && i < |events|
  {
    events[i].PushStep? && Before(env, w, events, i).sessions != [] && Visited(Before(env, w, events, i)) == j
  }

  ghost predicate HasTurn(env: Env, w: World, events: seq<Event>, j: nat)
    requires Steady(env, w, events)
  {
    exists i :: 0 <= i < |events| && TurnOf(env, w, events, i, j)
  }

  // Over any run of n sessions that holds n push steps, whatever arrives between them, each
  // session has exactly one turn.
  lemma EachVisitedOnce(env: Env, w: World, events: seq<Event>)
    requires w.sessions != [] && Steady(env, w, events) && Pushes(events, |events|) == |w.sessions|
    ensures forall j :: 0 <= j < |w.sessions| ==> HasTurn(env, w, events, j)
    ensures forall i, k, j :: 0 <= i < k < |events| && TurnOf(env, w, events, i, j) ==> !TurnOf(env, w, events, k, j)
  {
    hide Before, Steady, Visited, Place;
    var n := |w.sessions|;
    forall j | 0 <= j < n ensures HasTurn(env, w, events, j) {
      var i := TurnComes(env, w, events, j);
    }
    forall i, k, j | 0 <= i < k < |events| && TurnOf(env, w, events, i, j) ensures !TurnOf(env, w, events, k, j) {
      if events[k].PushStep? {
        TurnAfter(env, w, events, i);
        TurnAfter(env, w, events, k);
        PushesNext(events, i);
        PushesNext(events, k);
        PushesRise(events, i + 1, k);
        PushesRise(events, k + 1, |events|);
        WaitIsOnly(w.roundRobin, n, Pushes(events, i), Pushes(events, k));
      }
    }
  }

  // The turn of session `j` comes with the push step after `Wait` others.
  lemma TurnComes(env: Env, w: World, events: seq<Event>, j: nat) returns (i: nat)
    requires j < |w.sessions| && Steady(env, w, events)
    requires Wait(w.roundRobin, |w.sessions|, j) < Pushes(events, |events|)
    ensures i == NthPush(events, Wait(w.roundRobin, |w.sessions|, j)) && TurnOf(env, w, events, i, j)
  {
    hide Before, Steady, Place;
    i := NthPush(events, Wait(w.roundRobin, |w.sessions|, j));
    TurnAfter(env, w, events, i);
    WaitIsRight(w.roundRobin, |w.sessions|, j);
  }

  // And not before that.
  lemma NoTurnBefore(env: Env, w: World, events: seq<Event>, j: nat, i: nat)
    requires j < |w.sessions| && Steady(env, w, events)
    requires Wait(w.roundRobin, |w.sessions|, j) < Pushes(events, |events|)
    requires i < NthPush(events, Wait(w.roundRobin, |w.sessions|, j))
    ensures !TurnOf(env, w, events, i, j)
  {
    hide Before, Steady, Place;
    var n, wait := |w.sessions|, Wait(w.roundRobin, |w.sessions|, j);
    var turn := NthPush(events, wait);
    if events[i].PushStep? {
      PushesNext(events, i);
      PushesRise(events, i + 1, turn);
      TurnAfter(env, w, events, i);
      WaitIsRight(w.roundRobin, n, j);
      WaitIsOnly(w.roundRobin, n, Pushes(events, i), wait);
    }
  }
}
