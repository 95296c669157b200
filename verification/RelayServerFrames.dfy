/** Exactly what closing, messages and ticks of one connection change, and that they leave everybody else alone. */
module RelayServerFrames {
  import opened RelayTypes
  import opened HandOff
  import opened HandOffDelivery
  import opened PacketAccumulation
  import opened RelayServerTheorems
  import M = RelayServerModel

  // ---------- opening ----------

  /** Opening maps at most its own handle, and touches no moon and no room. */
  lemma OpenLeavesOthers(s: M.Server, h: int)
    requires Consistent(s) && h !in s.ids
    ensures var s' := M.Open(s, h);
            && s'.ids - {h} == s.ids && s'.moons == s.moons && s'.rooms == s.rooms
            && (forall i :: i in s'.reserved <==> i in s.reserved || (h in s'.ids && i == s'.ids[h]))
  {
    assert s.ids - {h} == s.ids;
  }

  // ---------- closing ----------

  /** The room goes with the connection: it is its moon's room, and no other moon has it. */
  predicate GoesWith(s: M.Server, id: int, room: Key) {
    id in s.moons && s.moons[id] == room && !HasOtherMoon(s.moons, id, room)
  }

  lemma OtherMoonIsRemaining(moons: map<int, Key>, id: int, room: Key)
    ensures M.HasMoon(moons - {id}, room) <==> HasOtherMoon(moons, id, room)
  {
    if other :| other in moons && other != id && moons[other] == room {
      assert other in moons - {id} && (moons - {id})[other] == room;
    }
  }

  /** Closing takes the connection's own handle, identifier and moon entry, and no other. */
  lemma CloseForgetsOne(s: M.Server, h: int)
    requires Consistent(s)
    ensures var s' := M.Close(s, h); var id := M.IdOf(s, h);
            && s'.ids == s.ids - {h}
            && s'.moons == s.moons - {id}
            && (forall i :: i in s'.reserved <==> i in s.reserved && i != id)
  {
    ReleaseKeepsIds(s, h);
    RemoveAllRemoves(s.reserved, M.IdOf(s, h));
    if M.IdOf(s, h) == 0 {
      assert s.moons - {0} == s.moons;
      assert s.ids - {h} == s.ids;
    }
  }

  lemma LeavingTakesOneRoom(s: M.Server, id: int, room: Key)
    ensures var rooms := M.LeaveAsMoon(s, id).rooms;
            && (room in rooms.packets <==> room in s.rooms.packets && !GoesWith(s, id, room))
            && (room in rooms.packets ==> rooms.packets[room] == s.rooms.packets[room])
    ensures s.rooms.handles.Keys == s.rooms.packets.Keys ==>
              Get(M.LeaveAsMoon(s, id).rooms.handles, room)
              == if GoesWith(s, id, room) then [] else Get(s.rooms.handles, room)
  {
    if id in s.moons {
      OtherMoonIsRemaining(s.moons, id, s.moons[id]);
    }
  }

  lemma WithdrawTakesOneMember(rooms: Rooms, id: int, room: Key)
    requires Distinct(Get(rooms.handles, room))
    ensures forall m :: m in Get(Section(rooms, Withdraw(id)).handles, room)
                        <==> m in Get(rooms.handles, room) && m.identifier != id
  {
    WithoutDistinct(Get(rooms.handles, room), id);
  }

  /** Closing destroys the room of a last moon and no other. Every other room stays with its pending packets and its
      members, but for the one that left. */
  lemma CloseLeavesOthers(s: M.Server, h: int, room: Key)
    requires Consistent(s)
    ensures var rooms := M.Close(s, h).rooms; var id := M.IdOf(s, h);
            && (room in rooms.packets <==> room in s.rooms.packets && !GoesWith(s, id, room))
            && (room in rooms.packets ==> rooms.packets[room] == s.rooms.packets[room])
    ensures var members := Get(M.Close(s, h).rooms.handles, room); var id := M.IdOf(s, h);
            forall m :: m in members <==>
                          m in Get(s.rooms.handles, room) && m.identifier != id && !GoesWith(s, id, room)
  {
    var id := M.IdOf(s, h);
    LeavingTakesOneRoom(s, id, room);
    WithdrawTakesOneMember(M.LeaveAsMoon(s, id).rooms, id, room);
  }

  // ---------- messages ----------

  /** The members other than the one asking. */
  function Others(members: seq<Connection>, identifier: int): set<Connection> {
    set m | m in members && m.identifier != identifier
  }

  /** The count is the number of members that are not the asking one. */
  lemma {:induction false} CountIsOthers(members: seq<Connection>, identifier: int)
    requires Distinct(members)
    ensures CountOthers(members, identifier) == |Others(members, identifier)|
    decreases |members|
  {
    if members == [] {
      assert Others(members, identifier) == {};
    } else {
      var front, last := members[..|members| - 1], members[|members| - 1];
      assert members == front + [last];
      CountIsOthers(front, identifier);
      OneMoreOther(front, last, identifier);
      OneMoreEnrolled(front, last, identifier);
    }
  }

  lemma OneMoreOther(front: seq<Connection>, last: Connection, identifier: int)
    requires Distinct(front + [last])
    ensures |Others(front + [last], identifier)|
            == |Others(front, identifier)| + (if last.identifier == identifier then 0 else 1)
  {
    var others := Others(front, identifier);
    var members := front + [last];
    assert last !in front by {
      assert members[|front|] == last;
      assert forall i :: 0 <= i < |front| ==> members[i] == front[i];
    }
    assert Others(front + [last], identifier) == if last.identifier == identifier then others else others + {last};
  }

  lemma OneMoreEnrolled(front: seq<Connection>, last: Connection, identifier: int)
    requires Distinct(front + [last])
    ensures Enrolled(front + [last], identifier) <==> Enrolled(front, identifier) || last.identifier == identifier
    ensures last.identifier == identifier ==> !Enrolled(front, identifier)
  {
    var members := front + [last];
    assert members[|front|] == last;
    assert forall i :: 0 <= i < |front| ==> members[i] == front[i];
  }

  /** A message is accepted if and only if it comes over a known connection, carries a key of a room and no more than a
      packet, and is the moon's own or finds the room with fewer others than its limit. */
  lemma AcceptedIff(s: M.Server, h: int, message: string, room: Key, limit: int)
    requires Consistent(s)
    ensures M.Message(s, h, message, room, limit).1 == M.Accepted
            <==> && h in s.ids
                 && HASH_LENGTH <= |message| <= HASH_LENGTH + MAX_PACKET_SIZE
                 && room != EMPTY_KEY
                 && (room == message[..HASH_LENGTH]
                     || (room in s.rooms.packets && |Others(Get(s.rooms.handles, room), s.ids[h])| < limit))
  {
    if h in s.ids {
      CountIsOthers(Get(s.rooms.handles, room), s.ids[h]);
    }
  }

  /** Which guard refuses a message that is not accepted. */
  lemma RefusedBecause(s: M.Server, h: int, message: string, room: Key, limit: int)
    requires Consistent(s)
    ensures match M.Message(s, h, message, room, limit).1
            case NoIdentifier => h !in s.ids
            case TooShort => |message| < HASH_LENGTH
            case EmptyRoom => room == EMPTY_KEY
            case RoomMissing => room !in s.rooms.packets && room != message[..HASH_LENGTH]
            case TooLong => |message| > HASH_LENGTH + MAX_PACKET_SIZE
            case Full => h in s.ids && room in s.rooms.packets && room != message[..HASH_LENGTH]
                         && limit <= |Others(s.rooms.handles[room], s.ids[h])|
            case Accepted => h in s.ids
  {
    if h in s.ids {
      CountIsOthers(Get(s.rooms.handles, room), s.ids[h]);
    }
  }

  lemma PacketEnrols(rooms: Rooms, room: Key, p: Packet, h: int, r: Key, m: Connection)
    requires room in rooms.packets
    ensures var before, after := Get(rooms.handles, r), Get(WithPacket(rooms, room, p, h).handles, r);
            m in after <==>
              || m in before
              || (r == room && m == Connection(p.identifier, h) && !Enrolled(before, p.identifier))
  {
  }

  lemma RegisterKeepsMembers(s: M.Server, id: int, room: Key, r: Key)
    requires s.rooms.handles.Keys == s.rooms.packets.Keys
    ensures Get(M.Register(s, id, room).rooms.handles, r) == Get(s.rooms.handles, r)
  {
  }

  /** An accepted message enrols its sender in its room, unless the identifier is a member already, and changes no other
      membership. */
  lemma AcceptedMembers(s: M.Server, h: int, message: string, room: Key, limit: int, r: Key, m: Connection)
    requires Consistent(s) && M.Message(s, h, message, room, limit).1 == M.Accepted
    ensures var before, after := Get(s.rooms.handles, r), Get(M.Message(s, h, message, room, limit).0.rooms.handles, r);
            m in after <==>
              || m in before
              || (r == room && m == Connection(M.IdOf(s, h), h) && !Enrolled(before, M.IdOf(s, h)))
  {
    var id := M.IdOf(s, h);
    var t := if room == message[..HASH_LENGTH] then M.Register(s, id, room) else s;
    RegisterKeepsMembers(s, id, room, r);
    PacketEnrols(t.rooms, room, M.PacketOf(id, message), h, r, m);
  }
}
