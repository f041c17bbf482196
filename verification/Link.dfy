// The outbound queue of the companion link, which outlives connections, and the delays
// between them. A step is what happens between two awaits: queueing a packet is one, and
// the send loop is cut at the event it waits on and at the write to the transport.
module Link {
  import opened Bytes
  import opened Wrappers
  import opened Posts
  import Seqs

  const SEND_RAW_PACKET := 65

  datatype Item = Item(payload: seq<Byte>, expiresAt: real)

  // Where the send loop stands. `Down`: no connection, no loop. `Writing`: the write of
  // the head, begun at `since`, has not returned.
  datatype Phase = Down | Running | Waiting | Writing(since: real)

  // How an item left the queue.
  datatype Fate = Delivered(item: Item, since: real) | Dropped(item: Item, now: real)

  // The queue, its event, and a record of what came in, what left, and every write begun.
  datatype State = State(
    outbound: seq<Item>,
    ready: bool,
    phase: Phase,
    enqueued: seq<Item>,
    fates: seq<Fate>,
    writes: seq<(Item, real)>
  )

  datatype LinkError = TooLong | BadPriority

  // -- the steps ---------------------------------------------------------------

  function Enqueue(s: State, item: Item): (s': State) {
    s.(outbound := s.outbound + [item], ready := true, enqueued := s.enqueued + [item])
  }

  // One turn of the send loop up to its next await: sleep on an empty queue, drop a head
  // that has expired, or begin to write the head.
  function Turn(s: State, now: real): (s': State)
    requires s.phase.Running?
  {
    if s.outbound == [] then s.(ready := false, phase := Waiting)
    else
      var head := s.outbound[0];
      if now > head.expiresAt then
        s.(outbound := s.outbound[1..], fates := s.fates + [Dropped(head, now)])
      else
        s.(phase := Writing(now), writes := s.writes + [(head, now)])
  }

  function Wake(s: State): (s': State)
    requires s.phase.Waiting? && s.ready
  {
    s.(phase := Running)
  }

  // The write returned.
  function Written(s: State): (s': State)
    requires s.phase.Writing? && s.outbound != []
  {
    s.(outbound := s.outbound[1..], phase := Running, fates := s.fates + [Delivered(s.outbound[0], s.phase.since)])
  }

  // The connection is up: a fresh send loop starts.
  function Up(s: State): (s': State)
    requires s.phase.Down?
  {
    s.(phase := Running)
  }

  // The connection is gone, in the middle of a write or not. The queue is left as it is.
  function Lost(s: State): (s': State) {
    s.(phase := Down)
  }

  datatype Event = Queue(item: Item) | Tick(now: real) | Woken | WriteReturned | Connected | Disconnected

  predicate CanHappen(s: State, e: Event) {
    match e
    case Queue(_) => true
    case Tick(_) => s.phase.Running?
    case Woken => s.phase.Waiting? && s.ready
    case WriteReturned => s.phase.Writing? && s.outbound != []
    case Connected => s.phase.Down?
    case Disconnected => true
  }

  function Step(s: State, e: Event): (s': State)
    requires CanHappen(s, e)
  {
    match e
    case Queue(item) => Enqueue(s, item)
    case Tick(now) => Turn(s, now)
    case Woken => Wake(s)
    case WriteReturned => Written(s)
    case Connected => Up(s)
    case Disconnected => Lost(s)
  }

  const EMPTY := State([], false, Down, [], [], [])

  predicate IsRun(s: State, events: seq<Event>)
    decreases |events|
  {
    events != [] ==> CanHappen(s, events[0]) && IsRun(Step(s, events[0]), events[1..])
  }

  function Run(s: State, events: seq<Event>): (s': State)
    requires IsRun(s, events)
    decreases |events|
  {
    if events == [] then s else Run(Step(s, events[0]), events[1..])
  }

  // -- what every run keeps ----------------------------------------------------

  function ItemsOf(fates: seq<Fate>): (items: seq<Item>)
    ensures |items| == |fates|
    ensures forall i :: 0 <= i < |fates| ==> items[i] == fates[i].item
  {
    seq(|fates|, i requires 0 <= i < |fates| => fates[i].item)
  }

  lemma ItemsOfAppend(fates: seq<Fate>, fate: Fate)
    ensures ItemsOf(fates + [fate]) == ItemsOf(fates) + [fate.item]
  {
  }

  // Nothing is lost or reordered: what came in is what has left, in order, followed by
  // what is still queued.
  predicate Conserved(s: State) {
    s.enqueued == ItemsOf(s.fates) + s.outbound
  }

  // Writes begin in time, and items are dropped only out of time.
  predicate InTime(s: State) {
    && (forall i :: 0 <= i < |s.writes| ==> s.writes[i].1 <= s.writes[i].0.expiresAt)
    && (forall i :: 0 <= i < |s.fates| ==>
          match s.fates[i]
          case Delivered(item, since) => (item, since) in s.writes
          case Dropped(item, now) => now > item.expiresAt)
  }

  // A write in progress is of the head, and was begun.
  predicate WritingHead(s: State) {
    s.phase.Writing? ==> s.outbound != [] && (s.outbound[0], s.phase.since) in s.writes
  }

  // A loop asleep has nothing to send, or its wakeup is on the way.
  predicate NoLostWakeup(s: State) {
    s.phase.Waiting? && s.outbound != [] ==> s.ready
  }

  predicate Sound(s: State) {
    Conserved(s) && InTime(s) && WritingHead(s) && NoLostWakeup(s)
  }

  lemma EnqueueKeeps(s: State, item: Item)
    requires Sound(s)
    ensures Sound(Enqueue(s, item))
  {
    Seqs.Associate(ItemsOf(s.fates), s.outbound, [item]);
  }

  lemma LeavesQueue(s: State, fate: Fate)
    requires Conserved(s) && s.outbound != [] && fate.item == s.outbound[0]
    ensures s.enqueued == ItemsOf(s.fates + [fate]) + s.outbound[1..]
  {
    ItemsOfAppend(s.fates, fate);
    Seqs.Uncons(s.outbound);
    Seqs.Associate(ItemsOf(s.fates), [s.outbound[0]], s.outbound[1..]);
  }

  lemma TurnKeeps(s: State, now: real)
    requires Sound(s) && s.phase.Running?
    ensures Sound(Turn(s, now))
  {
    if s.outbound != [] && now > s.outbound[0].expiresAt {
      LeavesQueue(s, Dropped(s.outbound[0], now));
    }
  }

  lemma WrittenKeeps(s: State)
    requires Sound(s) && s.phase.Writing?
    ensures Sound(Written(s))
  {
    LeavesQueue(s, Delivered(s.outbound[0], s.phase.since));
  }

  lemma StepKeeps(s: State, e: Event)
    requires Sound(s) && CanHappen(s, e)
    ensures Sound(Step(s, e))
  {
    match e {
      case Queue(item) => EnqueueKeeps(s, item);
      case Tick(now) => TurnKeeps(s, now);
      case WriteReturned => WrittenKeeps(s);
      case _ =>
    }
  }

  // Across any number of disconnects and reconnects.
  lemma {:induction false} EveryRunConserves(s: State, events: seq<Event>)
    requires Sound(s) && IsRun(s, events)
    ensures Sound(Run(s, events))
    decreases |events|
  {
    hide Sound;
    if events != [] {
      StepKeeps(s, events[0]);
      EveryRunConserves(Step(s, events[0]), events[1..]);
    }
  }

  // A connection lost in the middle of a write leaves the item at the head, and the next
  // connection begins with it while it is in time.
  lemma FailedWriteIsRetried(s: State, now: real)
    requires Sound(s) && s.phase.Writing?
    ensures
      var again := Turn(Up(Lost(s)), now);
      && Up(Lost(s)).outbound == s.outbound && Up(Lost(s)).fates == s.fates
      && (now <= s.outbound[0].expiresAt ==>
            again.phase == Writing(now) && again.outbound == s.outbound)
      && (now > s.outbound[0].expiresAt ==> again.fates == s.fates + [Dropped(s.outbound[0], now)])
  {
  }

  // -- the queue drains --------------------------------------------------------

  // What becomes of the head when its turn comes and the node answers.
  function Settle(s: State, now: real): (s': State)
    requires s.phase.Running? && s.outbound != []
  {
    var t := Turn(s, now);
    if t.phase.Writing? then Written(t) else t
  }

  function FateAt(item: Item, now: real): (fate: Fate) {
    if now > item.expiresAt then Dropped(item, now) else Delivered(item, now)
  }

  // The loop left alone until it sleeps, its i-th item coming up at `clock(i)`.
  function Drain(s: State, clock: nat -> real): (s': State)
    requires s.phase.Running?
    decreases |s.outbound|
  {
    if s.outbound == [] then Turn(s, clock(|s.fates|)) else Drain(Settle(s, clock(|s.fates|)), clock)
  }

  lemma SettleOne(s: State, now: real)
    requires Sound(s) && s.phase.Running? && s.outbound != []
    ensures
      var s' := Settle(s, now);
      && Sound(s') && s'.phase.Running? && s'.enqueued == s.enqueued
      && s'.outbound == s.outbound[1..]
      && s'.fates == s.fates + [FateAt(s.outbound[0], now)]
      && |s.fates| < |s.enqueued| && s.outbound[0] == s.enqueued[|s.fates|]
  {
    hide Sound;
    TurnKeeps(s, now);
    var t := Turn(s, now);
    if t.phase.Writing? {
      WrittenKeeps(t);
    }
    HeadIsNext(s);
  }

  lemma HeadIsNext(s: State)
    requires Sound(s) && s.outbound != []
    ensures |s.fates| < |s.enqueued| && s.outbound[0] == s.enqueued[|s.fates|]
  {
  }

  // Left alone, the loop deals with every queued item once, in order: written if its turn
  // came in time, dropped otherwise; then it sleeps.
  lemma {:induction false} Drains(s: State, clock: nat -> real)
    requires Sound(s) && s.phase.Running?
    ensures
      var s' := Drain(s, clock);
      && Sound(s') && s'.outbound == [] && s'.phase == Waiting && s'.enqueued == s.enqueued
      && |s'.fates| == |s.enqueued| && s.fates <= s'.fates
      && forall i :: |s.fates| <= i < |s'.fates| ==> s'.fates[i] == FateAt(s.enqueued[i], clock(i))
    decreases |s.outbound|
  {
    var n := |s.fates|;
    if s.outbound == [] {
      TurnKeeps(s, clock(n));
    } else {
      hide Sound, Settle, FateAt;
      SettleOne(s, clock(n));
      Drains(Settle(s, clock(n)), clock);
    }
  }

  // -- reconnect delays --------------------------------------------------------

  // How one connection ended: after how long, whether the firmware proved unusable, and
  // whether a stop had been asked for by then or during the sleep that follows.
  datatype SessionEnd = SessionEnd(lasted: real, unsupported: bool, stopped: bool, stoppedAsleep: bool)

  function Pow2(n: nat): (p: real)
    ensures p >= 1.0
  {
    if n == 0 then 1.0 else 2.0 * Pow2(n - 1)
  }

  function Min(a: real, b: real): (m: real) {
    if a <= b then a else b
  }

  // How many short connections came in a row, up to the one at `i`, after the last long
  // one or the first of all.
  function ShortRun(sessions: seq<SessionEnd>, i: nat, maxDelay: real): (n: nat)
    requires i < |sessions|
  {
    if i == 0 || sessions[i].lasted > 2.0 * maxDelay then 0 else 1 + ShortRun(sessions, i - 1, maxDelay)
  }

  // The delay doubles with each short connection, up to the maximum.
  function Delay(minDelay: real, maxDelay: real, n: nat): (d: real) {
    if n == 0 then minDelay else Min(minDelay * Pow2(n), maxDelay)
  }

  lemma DelayDoubles(minDelay: real, maxDelay: real, n: nat)
    requires 0.0 <= maxDelay
    ensures Min(Delay(minDelay, maxDelay, n) * 2.0, maxDelay) == Delay(minDelay, maxDelay, n + 1)
  {
    assert minDelay * Pow2(n + 1) == minDelay * Pow2(n) * 2.0;
  }

  // So the first sleep, and the one after a connection that lasted more than twice the
  // maximum, is the minimum; any other is twice the one before, up to the maximum.
  lemma SleepsFollow(sessions: seq<SessionEnd>, sleeps: seq<real>, minDelay: real, maxDelay: real, i: nat)
    requires 0.0 <= maxDelay && i < |sleeps| <= |sessions|
    requires forall j :: 0 <= j < |sleeps| ==> sleeps[j] == Delay(minDelay, maxDelay, ShortRun(sessions, j, maxDelay))
    ensures
      sleeps[i] == if i == 0 || sessions[i].lasted > 2.0 * maxDelay then minDelay
                   else if 2.0 * sleeps[i - 1] <= maxDelay then 2.0 * sleeps[i - 1]
                   else maxDelay
  {
    hide Delay;
    DelayFirst(minDelay, maxDelay);
    if i > 0 {
      DelayDoubles(minDelay, maxDelay, ShortRun(sessions, i - 1, maxDelay));
    }
  }

  lemma DelayFirst(minDelay: real, maxDelay: real)
    ensures Delay(minDelay, maxDelay, 0) == minDelay
  {
  }

  lemma DelayInBounds(minDelay: real, maxDelay: real, n: nat)
    requires 0.0 <= minDelay <= maxDelay
    ensures minDelay <= Delay(minDelay, maxDelay, n) <= maxDelay
  {
    assert minDelay * Pow2(n) >= minDelay * 1.0;
  }

  class CompanionLink {
    const minDelay: real
    const maxDelay: real
    var outbound: seq<Item>
    var ready: bool
    var phase: Phase
    ghost var enqueued: seq<Item>
    ghost var fates: seq<Fate>
    ghost var writes: seq<(Item, real)>

    ghost function View(): (s: State)
      reads this
    {
      State(outbound, ready, phase, enqueued, fates, writes)
    }

    constructor (minDelay: real, maxDelay: real)
      ensures View() == EMPTY && Sound(View())
      ensures this.minDelay == minDelay && this.maxDelay == maxDelay
    {
      this.minDelay, this.maxDelay := minDelay, maxDelay;
      outbound, ready, phase := [], false, Down;
      enqueued, fates, writes := [], [], [];
    }

    method SendPacket(raw: seq<Byte>, priority: int, ttl: real, now: real) returns (r: Result<(), LinkError>)
      requires Sound(View())
      modifies this
      ensures Sound(View())
      ensures |raw| > MAX_RAW_TX_PACKET ==> r == Err(TooLong)
      ensures |raw| <= MAX_RAW_TX_PACKET && !(0 <= priority <= 0xFF) ==> r == Err(BadPriority)
      ensures r.Err? ==> View() == old(View())
      ensures r.Ok? ==>
        && 0 <= priority <= 0xFF
        && View() == Enqueue(old(View()), Item([SEND_RAW_PACKET, priority] + raw, now + ttl))
        && |outbound[|outbound| - 1].payload| <= MAX_RAW_TX_PACKET + 2
    {
      if |raw| > MAX_RAW_TX_PACKET {
        return Err(TooLong);
      }
      if !(0 <= priority <= 0xFF) {
        return Err(BadPriority);
      }
      var item := Item([SEND_RAW_PACKET, priority] + raw, now + ttl);
      EnqueueKeeps(View(), item);
      outbound := outbound + [item];
      ready := true;
      enqueued := enqueued + [item];
      return Ok(());
    }

    // One turn of the send loop; returns the bytes to write, if any.
    method SendLoopTurn(now: real) returns (write: Option<seq<Byte>>)
      requires Sound(View()) && phase.Running?
      modifies this
      ensures Sound(View()) && View() == Turn(old(View()), now)
      ensures write == if phase.Writing? then Some(outbound[0].payload) else None
    {
      TurnKeeps(View(), now);
      if outbound == [] {
        ready := false;
        phase := Waiting;
        return None;
      }
      var item := outbound[0];
      if now > item.expiresAt {
        outbound := outbound[1..];
        fates := fates + [Dropped(item, now)];
        return None;
      }
      phase := Writing(now);
      writes := writes + [(item, now)];
      return Some(item.payload);
    }

    method WriteReturns()
      requires Sound(View()) && phase.Writing?
      modifies this
      ensures Sound(View()) && View() == Written(old(View()))
    {
      WrittenKeeps(View());
      fates := fates + [Delivered(outbound[0], phase.since)];
      outbound := outbound[1..];
      phase := Running;
    }

    // The event a sleeping loop waits for has been set.
    method Wakes()
      requires Sound(View()) && phase.Waiting? && ready
      modifies this`phase
      ensures Sound(View()) && View() == Wake(old(View()))
    {
      phase := Running;
    }

    // A connection has completed its handshake: its send loop starts.
    method Connects()
      requires Sound(View()) && phase.Down?
      modifies this`phase
      ensures Sound(View()) && View() == Up(old(View()))
    {
      phase := Running;
    }

    // The connection is gone, and its send loop with it, wherever it stood.
    method Disconnects()
      requires Sound(View())
      modifies this`phase
      ensures Sound(View()) && View() == Lost(old(View()))
    {
      phase := Down;
    }

    // Supervises connections until stopped, or until one shows that the firmware cannot
    // transmit. `sessions` is how they end; `sleeps`, the pauses between them.
    method Supervise(sessions: seq<SessionEnd>) returns (sleeps: seq<real>, unsupported: bool)
      requires 0.0 <= maxDelay
      ensures |sleeps| <= |sessions|
      ensures forall i :: 0 <= i < |sleeps| ==> sleeps[i] == Delay(minDelay, maxDelay, ShortRun(sessions, i, maxDelay))
      ensures forall i :: 0 <= i < |sleeps| ==> !sessions[i].unsupported && !sessions[i].stopped
      ensures forall i :: 0 <= i < |sleeps| - 1 ==> !sessions[i].stoppedAsleep
      ensures unsupported <==>
        && |sleeps| < |sessions| && sessions[|sleeps|].unsupported
        && (|sleeps| > 0 ==> !sessions[|sleeps| - 1].stoppedAsleep)
      ensures !unsupported && |sleeps| < |sessions| ==>
        sessions[|sleeps|].stopped || (|sleeps| > 0 && sessions[|sleeps| - 1].stoppedAsleep)
    {
      hide Delay, Min;
      var delay := minDelay;
      assert delay == Delay(minDelay, maxDelay, 0) by {
        DelayFirst(minDelay, maxDelay);
      }
      sleeps := [];
      for i := 0 to |sessions|
        invariant |sleeps| == i
        invariant delay == Delay(minDelay, maxDelay, if i == 0 then 0 else ShortRun(sessions, i - 1, maxDelay) + 1)
        invariant forall j :: 0 <= j < i ==> sleeps[j] == Delay(minDelay, maxDelay, ShortRun(sessions, j, maxDelay))
        invariant forall j :: 0 <= j < i ==>
          !sessions[j].unsupported && !sessions[j].stopped && !sessions[j].stoppedAsleep
      {
        var session := sessions[i];
        if session.unsupported {
          return sleeps, true;
        }
        if session.stopped {
          return sleeps, false;
        }
        if session.lasted > 2.0 * maxDelay {
          delay := minDelay;
          DelayFirst(minDelay, maxDelay);
        }
        assert delay == Delay(minDelay, maxDelay, ShortRun(sessions, i, maxDelay));
        sleeps := sleeps + [delay];
        if session.stoppedAsleep {
          return sleeps, false;
        }
        DelayDoubles(minDelay, maxDelay, ShortRun(sessions, i, maxDelay));
        delay := Min(delay * 2.0, maxDelay);
      }
      return sleeps, false;
    }
  }
}
