/** The packet accumulator as an object. Each method is proved to be the sequence of lock sections that the
    hand-off machine interleaves with the room threads. */
module PacketAccumulation {
  import opened RelayTypes
  import opened HandOff

  /** PacketAccumulator::addPacket: the packet section, then the member section. */
  function WithPacket(s: Rooms, room: Key, p: Packet, handle: int): Rooms {
    if room !in s.packets then s
    else Section(Section(s, Append(room, p)), Enroll(room, Connection(p.identifier, handle)))
  }

  function WithRoom(s: Rooms, room: Key): Rooms {
    if room in s.packets then s else Section(Section(s, CreatePackets(room)), CreateHandles(room))
  }

  function WithoutRoom(s: Rooms, room: Key): Rooms {
    if room !in s.packets then s else Section(Section(s, ErasePackets(room)), EraseHandles(room))
  }

  /** How many other identifiers the room has. */
  function CountOthers(members: seq<Connection>, identifier: int): int {
    |members| - (if Enrolled(members, identifier) then 1 else 0)
  }

  /** std::find_if over the members of a room. */
  method FindMember(members: seq<Connection>, identifier: int) returns (i: nat)
    ensures i <= |members|
    ensures i < |members| ==> members[i].identifier == identifier
    ensures forall k :: 0 <= k < i ==> members[k].identifier != identifier
    ensures i < |members| <==> Enrolled(members, identifier)
  {
    i := 0;
    while i < |members| && members[i].identifier != identifier
      invariant i <= |members|
      invariant forall k :: 0 <= k < i ==> members[k].identifier != identifier
    {
      i := i + 1;
    }
  }

  /** Erasing the first match is Without. */
  lemma {:induction false} WithoutErasesFirst(members: seq<Connection>, identifier: int, i: nat)
    requires i <= |members| && forall k :: 0 <= k < i ==> members[k].identifier != identifier
    requires i < |members| ==> members[i].identifier == identifier
    ensures Without(members, identifier) == if i < |members| then members[..i] + members[i + 1..] else members
  {
    if i == 0 {
    } else {
      WithoutErasesFirst(members[1..], identifier, i - 1);
      if i < |members| {
        assert members[..i] == [members[0]] + members[1..][..i - 1];
        assert members[i + 1..] == members[1..][i..];
      }
    }
  }

  class PacketAccumulator {
    var packets: map<Key, seq<Packet>>
    var handles: map<Key, seq<Connection>>
    ghost var accepted: map<Key, seq<Packet>>
    ghost var fates: map<Key, seq<Fate>>

    ghost function View(): Rooms
      reads this
    {
      Rooms(packets, handles, accepted, fates)
    }

    constructor ()
      ensures View() == Rooms(map[], map[], map[], map[])
    {
      packets, handles, accepted, fates := map[], map[], map[], map[];
    }

    method HasRoom(room: Key) returns (present: bool)
      ensures present <==> room in View().packets
    {
      present := room in packets;
    }

    method AddPacket(room: Key, p: Packet, handle: int)
      modifies this
      ensures View() == WithPacket(old(View()), room, p, handle)
    {
      if room !in packets {
        return;
      }
      packets := packets[room := packets[room] + [p]];
      accepted := accepted[room := Get(accepted, room) + [p]];
      var members := if room in handles then handles[room] else [];
      var i := FindMember(members, p.identifier);
      if i == |members| {
        members := members + [Connection(p.identifier, handle)];
      }
      handles := handles[room := members];
    }

    method RemoveConnection(identifier: int)
      modifies this
      ensures View() == Section(old(View()), Withdraw(identifier))
    {
      var todo := handles.Keys;
      while todo != {}
        invariant todo <= handles.Keys == old(handles).Keys
        invariant forall r :: r in todo ==> handles[r] == old(handles)[r]
        invariant forall r :: r in handles && r !in todo ==> handles[r] == Without(old(handles)[r], identifier)
        invariant packets == old(packets) && accepted == old(accepted) && fates == old(fates)
      {
        var r :| r in todo;
        var members := handles[r];
        var i := FindMember(members, identifier);
        WithoutErasesFirst(members, identifier, i);
        if i < |members| {
          handles := handles[r := members[..i] + members[i + 1..]];
        }
        todo := todo - {r};
      }
    }

    /** `start` is whether RoomManager::createRoom is called. */
    method CreateRoom(room: Key) returns (start: bool)
      modifies this
      ensures View() == WithRoom(old(View()), room)
      ensures start <==> room !in old(View()).packets
    {
      if room in packets {
        return false;
      }
      packets := packets[room := []];
      handles := handles[room := []];
      start := true;
    }

    method DestroyRoom(room: Key)
      modifies this
      ensures View() == WithoutRoom(old(View()), room)
    {
      if room !in packets {
        return;
      }
      fates := fates[room := Get(fates, room) + [Discarded(packets[room])]];
      packets := packets - {room};
      handles := handles - {room};
    }

    method GetConnections(room: Key) returns (connections: seq<Connection>)
      ensures connections == Get(View().handles, room)
    {
      connections := [];
      if room !in handles {
        return;
      }
      connections := handles[room];
    }

    method GetConnectionCountWithoutConnection(identifier: int, room: Key) returns (count: int)
      ensures count == CountOthers(Get(View().handles, room), identifier)
    {
      if room !in handles {
        return 0;
      }
      count := |handles[room]|;
      var i := FindMember(handles[room], identifier);
      if i != |handles[room]| {
        count := count - 1;
      }
    }

    /** Called by room thread `caller`, which the history records as the taker. */
    method GetPackets(room: Key, ghost caller: nat) returns (batch: seq<Packet>)
      modifies this
      ensures batch == Get(old(View()).packets, room)
      ensures View() == if batch == [] then old(View()) else TakePackets(old(View()), room, caller)
    {
      batch := [];
      if room !in packets {
        return;
      }
      batch := packets[room];
      packets := packets[room := []];
      if batch != [] {
        fates := fates[room := Get(fates, room) + [Drained(caller, batch)]];
      } else {
        assert packets == old(packets);
      }
    }
  }
}
