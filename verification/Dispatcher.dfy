// Routing between the node and the rooms it hosts: every packet sent or received is marked
// in the seen table, and only packets not seen recently are offered to rooms.
module Dispatcher {
  import opened Bytes
  import opened Wrappers
  import opened Crypto
  import opened Packet
  import opened SeenTable

  const ANON_HEADER_LEN := 33

  // A room as routing sees it. The address is the first byte of its public key.
  datatype Room = Room(id: nat, nodeHash: Byte)

  // -- what the dispatcher has done --------------------------------------------

  // One packet sent, or one well-formed packet received and the rooms it was offered to.
  datatype Event =
    | Sent(hash: Hash, flood: bool, stamp: real)
    | Received(hash: Hash, flood: bool, now: real, stamp: real, duplicate: bool, offered: seq<Room>)

  function MarksOf(log: seq<Event>): (marks: seq<Marked>)
    ensures |marks| == |log|
    ensures forall i :: 0 <= i < |log| ==> marks[i] == Marked(log[i].hash, log[i].stamp)
  {
    seq(|log|, i requires 0 <= i < |log| => Marked(log[i].hash, log[i].stamp))
  }

  // A packet counts as a duplicate exactly while its hash is in the window, and a duplicate
  // is offered to no room.
  ghost predicate Honest(log: seq<Event>, i: nat, ttl: real, capacity: nat)
    requires i < |log|
  {
    log[i].Received? ==>
      && (log[i].duplicate <==> Recent(MarksOf(log[..i]), log[i].hash, log[i].now, ttl, capacity))
      && (log[i].duplicate ==> log[i].offered == [])
  }

  ghost predicate AllHonest(log: seq<Event>, ttl: real, capacity: nat) {
    forall i :: 0 <= i < |log| ==> Honest(log, i, ttl, capacity)
  }

  lemma StillHonest(log: seq<Event>, e: Event, ttl: real, capacity: nat)
    requires AllHonest(log, ttl, capacity)
    requires e.Received? ==>
      && (e.duplicate <==> Recent(MarksOf(log), e.hash, e.now, ttl, capacity))
      && (e.duplicate ==> e.offered == [])
    ensures AllHonest(log + [e], ttl, capacity)
    ensures MarksOf(log + [e]) == MarksOf(log) + [Marked(e.hash, e.stamp)]
  {
    var longer := log + [e];
    forall i | 0 <= i < |longer| ensures Honest(longer, i, ttl, capacity) {
      if i < |log| {
        assert Honest(log, i, ttl, capacity) && longer[..i] == log[..i];
      } else {
        assert longer[..i] == log;
      }
    }
  }

  // Once a packet has been sent or received, it reaches a room again only after the window
  // has closed: every mark of it is at least `ttl` old, or `capacity` other packets have
  // been marked since the last one. So a packet heard by several routes is handled once,
  // and so is one this node hears repeated after sending it.
  lemma OfferedOnlyOutsideWindow(log: seq<Event>, i: nat, j: nat, ttl: real, capacity: nat) returns (last: nat)
    requires AllHonest(log, ttl, capacity) && i < j < |log|
    requires log[i].hash == log[j].hash && log[j].Received? && log[j].offered != []
    ensures i <= last < j && log[last].hash == log[i].hash
    ensures forall k :: last < k < j ==> log[k].hash != log[i].hash
    ensures log[last].stamp <= log[j].now - ttl || |HashesOf(MarksOf(log[last + 1..j]))| >= capacity
  {
    assert Honest(log, j, ttl, capacity);
    var marks := MarksOf(log[..j]);
    assert marks[i].hash == log[i].hash;
    last := LastIndex(marks, log[i].hash).value;
    assert marks[last + 1..] == MarksOf(log[last + 1..j]);
    forall k | last < k < j ensures log[k].hash != log[i].hash {
      assert marks[k].hash == log[k].hash;
    }
  }

  // -- counters ----------------------------------------------------------------

  datatype Radio = Radio(
    packetsRecv: nat, packetsSent: nat,
    sentFlood: nat, sentDirect: nat, recvFlood: nat, recvDirect: nat,
    floodDups: nat, directDups: nat, errEvents: nat
  )

  // What the counters should read after `log` and `errors` undecodable packets.
  function Tally(log: seq<Event>, errors: nat): (radio: Radio) {
    if log == [] then Radio(0, 0, 0, 0, 0, 0, 0, 0, errors)
    else Counted(Tally(log[..|log| - 1], errors), log[|log| - 1])
  }

  function Counted(r: Radio, e: Event): (radio: Radio) {
    match e
    case Sent(_, true, _) => r.(packetsSent := r.packetsSent + 1, sentFlood := r.sentFlood + 1)
    case Sent(_, false, _) => r.(packetsSent := r.packetsSent + 1, sentDirect := r.sentDirect + 1)
    case Received(_, true, _, _, duplicate, _) =>
      r.(packetsRecv := r.packetsRecv + 1, recvFlood := r.recvFlood + 1,
         floodDups := r.floodDups + if duplicate then 1 else 0)
    case Received(_, false, _, _, duplicate, _) =>
      r.(packetsRecv := r.packetsRecv + 1, recvDirect := r.recvDirect + 1,
         directDups := r.directDups + if duplicate then 1 else 0)
  }

  lemma TallyAppend(log: seq<Event>, e: Event, errors: nat)
    ensures Tally(log + [e], errors) == Counted(Tally(log, errors), e)
  {
    assert (log + [e])[..|log|] == log;
  }

  // Every packet is counted once, and duplicates are among the received.
  lemma {:induction false} CountersBalance(log: seq<Event>, errors: nat)
    ensures
      var r := Tally(log, errors);
      && r.packetsRecv == r.recvFlood + r.recvDirect
      && r.packetsSent == r.sentFlood + r.sentDirect
      && r.packetsRecv + r.packetsSent == |log|
      && r.floodDups <= r.recvFlood && r.directDups <= r.recvDirect
      && r.errEvents == errors
  {
    if log != [] {
      CountersBalance(log[..|log| - 1], errors);
    }
  }

  // How many events are of a kind.
  function Count(log: seq<Event>, kind: Event -> bool): (n: nat) {
    if log == [] then 0 else Count(log[..|log| - 1], kind) + if kind(log[|log| - 1]) then 1 else 0
  }

  // Each counter counts what it says.
  lemma {:induction false} CountersExactly(log: seq<Event>, errors: nat)
    ensures
      var r := Tally(log, errors);
      && r.sentFlood == Count(log, (e: Event) => e.Sent? && e.flood)
      && r.sentDirect == Count(log, (e: Event) => e.Sent? && !e.flood)
      && r.recvFlood == Count(log, (e: Event) => e.Received? && e.flood)
      && r.recvDirect == Count(log, (e: Event) => e.Received? && !e.flood)
      && r.floodDups == Count(log, (e: Event) => e.Received? && e.flood && e.duplicate)
      && r.directDups == Count(log, (e: Event) => e.Received? && !e.flood && e.duplicate)
  {
    if log != [] {
      CountersExactly(log[..|log| - 1], errors);
    }
  }

  // -- routing -----------------------------------------------------------------

  function RoomsWith(rooms: seq<Room>, nodeHash: int): (some: seq<Room>) {
    if rooms == [] then []
    else
      RoomsWith(rooms[..|rooms| - 1], nodeHash)
      + if rooms[|rooms| - 1].nodeHash == nodeHash then [rooms[|rooms| - 1]] else []
  }

  lemma {:induction false} RoomsWithMembers(rooms: seq<Room>, nodeHash: int, room: Room)
    ensures room in RoomsWith(rooms, nodeHash) <==> room in rooms && room.nodeHash == nodeHash
  {
    if rooms != [] {
      var n := |rooms| - 1;
      RoomsWithMembers(rooms[..n], nodeHash, room);
      assert rooms == rooms[..n] + [rooms[n]];
    }
  }

  lemma RoomsWithAppend(rooms: seq<Room>, room: Room, nodeHash: int)
    ensures RoomsWith(rooms + [room], nodeHash)
         == RoomsWith(rooms, nodeHash) + if room.nodeHash == nodeHash then [room] else []
  {
    assert (rooms + [room])[..|rooms|] == rooms;
  }

  // The rooms a packet is for: all of them for an acknowledgement, which names no
  // destination; those at the address for the addressed types; None for the rest.
  function Addressees(rooms: seq<Room>, packet: Frame): (some: Option<seq<Room>>) {
    match packet.payloadType
    case AckType => Some(rooms)
    case AnonReq =>
      if |packet.payload| <= ANON_HEADER_LEN + CIPHER_MAC_SIZE then None
      else Some(RoomsWith(rooms, packet.payload[0]))
    case Req | Response | TxtMsg | Path =>
      if |packet.payload| <= DATAGRAM_HEADER_LEN + CIPHER_MAC_SIZE then None
      else Some(RoomsWith(rooms, packet.payload[0]))
    case _ => None
  }

  // Which rooms that is. An acknowledgement is for every room; an anonymous request of more
  // than 35 bytes, and a datagram of more than 4, for the rooms whose address is its first
  // byte; everything else for none.
  lemma AddressedExactly(rooms: seq<Room>, packet: Frame, room: Room)
    ensures
      var code, length := packet.payloadType.Code(), |packet.payload|;
      && (code == 3 ==> Addressees(rooms, packet) == Some(rooms))
      && ((code == 7 && length > 35) || (code in {0, 1, 2, 8} && length > 4) ==>
            && Addressees(rooms, packet).Some?
            && (room in Addressees(rooms, packet).value <==> room in rooms && room.nodeHash == packet.payload[0]))
      && ((code == 7 && length <= 35) || (code in {0, 1, 2, 8} && length <= 4) || code in {4, 5, 6, 9, 10, 11, 15} ==>
            Addressees(rooms, packet) == None)
  {
    if packet.payload != [] {
      RoomsWithMembers(rooms, packet.payload[0], room);
    }
  }

  // Candidates are asked in turn until one claims the packet.
  ghost predicate AskedInTurn(candidates: seq<Room>, claims: Room -> bool, asked: seq<Room>, claimed: bool) {
    && asked <= candidates
    && (forall i :: 0 <= i < |asked| - 1 ==> !claims(asked[i]))
    && if claimed then asked != [] && claims(asked[|asked| - 1])
       else asked == candidates && forall i :: 0 <= i < |asked| ==> !claims(asked[i])
  }

  class Dispatcher {
    const hashOf: (PayloadType, seq<Byte>) -> Hash
    const seen: Table
    var rooms: seq<Room>
    // Rooms by address; two may share one.
    var byHash: map<int, seq<Room>>
    var radio: Radio
    ghost var log: seq<Event>
    ghost var errors: nat

    ghost predicate Indexed()
      reads this
    {
      forall h: int :: RoomsWith(rooms, h) == if h in byHash then byHash[h] else []
    }

    ghost predicate Valid()
      reads this, seen
    {
      && seen.Valid()
      && seen.marks == MarksOf(log)
      && AllHonest(log, seen.ttl, seen.capacity)
      && radio == Tally(log, errors)
      && Indexed()
    }

    constructor (rooms: seq<Room>, seen: Table, hashOf: (PayloadType, seq<Byte>) -> Hash)
      requires seen.Valid() && seen.marks == []
      ensures Valid() && this.rooms == rooms && this.seen == seen && this.hashOf == hashOf && log == []
    {
      this.hashOf, this.seen, this.rooms := hashOf, seen, rooms;
      byHash := map[];
      radio := Radio(0, 0, 0, 0, 0, 0, 0, 0, 0);
      log, errors := [], 0;
      new;
      for i := 0 to |rooms|
        invariant this.rooms == rooms && radio == Tally([], 0) && log == [] && errors == 0
        invariant forall h: int :: RoomsWith(rooms[..i], h) == if h in byHash then byHash[h] else []
      {
        assert rooms[..i + 1] == rooms[..i] + [rooms[i]];
        forall h: int ensures RoomsWith(rooms[..i + 1], h)
                           == RoomsWith(rooms[..i], h) + if rooms[i].nodeHash == h then [rooms[i]] else [] {
          RoomsWithAppend(rooms[..i], rooms[i], h);
        }
        Index(rooms[i]);
      }
      assert rooms[..|rooms|] == rooms;
    }

    method Index(room: Room)
      modifies this`byHash
      ensures byHash == old(byHash)[room.nodeHash := (if room.nodeHash in old(byHash) then old(byHash)[room.nodeHash] else []) + [room]]
    {
      var bucket := if room.nodeHash in byHash then byHash[room.nodeHash] else [];
      byHash := byHash[room.nodeHash := bucket + [room]];
    }

    method AddRoom(room: Room)
      requires Valid()
      modifies this`rooms, this`byHash
      ensures Valid() && rooms == old(rooms) + [room] && log == old(log)
    {
      hide RoomsWith, Tally, AllHonest, Represents;
      forall h: int ensures RoomsWith(rooms + [room], h)
                         == RoomsWith(rooms, h) + if room.nodeHash == h then [room] else [] {
        RoomsWithAppend(rooms, room, h);
      }
      rooms := rooms + [room];
      Index(room);
    }

    // Marks a packet, counts it, and returns the bytes to hand to the link. Marking comes
    // first: the echo may arrive before the link has finished.
    method Send(packet: Frame, now: real, stamp: real) returns (raw: seq<Byte>)
      requires Valid() && packet.Valid() && seen.clock <= now <= stamp
      modifies this`radio, this`log, seen
      ensures Valid() && raw == packet.Encode()
      ensures log == old(log) + [Sent(hashOf(packet.payloadType, packet.payload), packet.routeType.IsFlood(), stamp)]
    {
      hide RoomsWith, Tally, AllHonest, Represents, Ordered, Frame.Encode, MarksOf;
      var h := hashOf(packet.payloadType, packet.payload);
      seen.Mark(h, now, stamp);
      var flood := packet.routeType.IsFlood();
      CountSent(flood);
      StillHonest(log, Sent(h, flood, stamp), seen.ttl, seen.capacity);
      TallyAppend(log, Sent(h, flood, stamp), errors);
      log := log + [Sent(h, flood, stamp)];
      return packet.Encode();
    }

    // Handles what the node heard. `claims` says which rooms would claim the packet.
    method Dispatch(raw: seq<Byte>, claims: Room -> bool, now: real, again: real, stamp: real) returns (claimed: bool)
      requires Valid() && seen.clock <= now <= again <= stamp
      modifies this`radio, this`log, this`errors, seen
      ensures Valid()
      ensures DecodeFrame(raw).Err? ==> !claimed && log == old(log) && errors == old(errors) + 1
      ensures DecodeFrame(raw).Ok? ==>
        var packet := DecodeFrame(raw).value;
        var h := hashOf(packet.payloadType, packet.payload);
        && |log| == |old(log)| + 1 && log[..|old(log)|] == old(log) && errors == old(errors)
        && var e := log[|old(log)|];
           && e.Received?
           && e == Received(h, packet.routeType.IsFlood(), now, stamp, e.duplicate, e.offered)
           && (e.duplicate <==> Recent(old(seen.marks), h, now, seen.ttl, seen.capacity))
           && (if e.duplicate then e.offered == [] && !claimed
               else match Addressees(rooms, packet)
                    case None => e.offered == [] && !claimed
                    case Some(candidates) => AskedInTurn(candidates, claims, e.offered, claimed))
    {
      hide RoomsWith, Tally, AllHonest, Represents, Ordered, DecodeFrame, MarksOf, Recent, Addressees, AskedInTurn;
      var decoded := DecodeFrame(raw);
      if decoded.Err? {
        radio := radio.(errEvents := radio.errEvents + 1);
        ErrorsCounted(log, errors);
        errors := errors + 1;
        return false;
      }
      var packet := decoded.value;
      var flood := packet.routeType.IsFlood();
      var h := hashOf(packet.payloadType, packet.payload);
      var duplicate := seen.CheckAndMark(h, now, again, stamp);
      ghost var offered: seq<Room> := [];
      if duplicate {
        claimed := false;
      } else {
        claimed, offered := Route(packet, claims);
      }
      CountReceived(flood, duplicate);
      ghost var e := Received(h, flood, now, stamp, duplicate, offered);
      StillHonest(log, e, seen.ttl, seen.capacity);
      TallyAppend(log, e, errors);
      log := log + [e];
    }

    method CountSent(flood: bool)
      modifies this`radio
      ensures forall h, stamp :: radio == Counted(old(radio), Sent(h, flood, stamp))
    {
      radio := radio.(packetsSent := radio.packetsSent + 1);
      if flood {
        radio := radio.(sentFlood := radio.sentFlood + 1);
      } else {
        radio := radio.(sentDirect := radio.sentDirect + 1);
      }
    }

    method CountReceived(flood: bool, duplicate: bool)
      modifies this`radio
      ensures forall h, now, stamp, offered :: radio == Counted(old(radio), Received(h, flood, now, stamp, duplicate, offered))
    {
      radio := radio.(packetsRecv := radio.packetsRecv + 1);
      if flood {
        radio := radio.(recvFlood := radio.recvFlood + 1);
      } else {
        radio := radio.(recvDirect := radio.recvDirect + 1);
      }
      if duplicate {
        if flood {
          radio := radio.(floodDups := radio.floodDups + 1);
        } else {
          radio := radio.(directDups := radio.directDups + 1);
        }
      }
    }

    lemma {:induction false} ErrorsCounted(log: seq<Event>, errors: nat)
      ensures Tally(log, errors + 1) == Tally(log, errors).(errEvents := Tally(log, errors).errEvents + 1)
    {
      if log != [] {
        ErrorsCounted(log[..|log| - 1], errors);
      }
    }

    method Route(packet: Frame, claims: Room -> bool) returns (claimed: bool, ghost offered: seq<Room>)
      requires Indexed()
      ensures match Addressees(rooms, packet)
              case None => offered == [] && !claimed
              case Some(candidates) => AskedInTurn(candidates, claims, offered, claimed)
    {
      var candidates := Candidates(packet);
      offered := [];
      if candidates == None {
        return false, [];
      }
      var asked := candidates.value;
      for i := 0 to |asked|
        invariant offered == asked[..i]
        invariant forall j :: 0 <= j < i ==> !claims(asked[j])
      {
        offered := asked[..i + 1];
        if claims(asked[i]) {
          return true, offered;
        }
      }
      return false, offered;
    }

    method Candidates(packet: Frame) returns (some: Option<seq<Room>>)
      requires Indexed()
      ensures some == Addressees(rooms, packet)
    {
      match packet.payloadType {
        case AckType =>
          return Some(rooms);
        case AnonReq =>
          if |packet.payload| <= ANON_HEADER_LEN + CIPHER_MAC_SIZE {
            return None;
          }
        case Req | Response | TxtMsg | Path =>
          if |packet.payload| <= DATAGRAM_HEADER_LEN + CIPHER_MAC_SIZE {
            return None;
          }
        case _ =>
          return None;
      }
      var address: int := packet.payload[0];
      return Some(if address in byHash then byHash[address] else []);
    }
  }
}
