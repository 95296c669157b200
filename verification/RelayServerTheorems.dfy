/** What every run of the websocket handlers keeps. */
module RelayServerTheorems {
  import opened RelayTypes
  import opened HandOff
  import opened HandOffDelivery
  import opened PacketAccumulation
  import M = RelayServerModel

  /** Identifiers: distinct, in range, each held by exactly one handle. */
  ghost predicate IdsOk(ids: map<int, int>, reserved: seq<int>) {
    && (forall h :: h in ids ==> ids[h] in reserved)
    && (forall i :: i in reserved ==> 1 <= i < M.UINT16_MAX && exists h :: h in ids && ids[h] == i)
    && (forall h, g :: h in ids && g in ids && ids[h] == ids[g] ==> h == g)
    && NoDuplicates(reserved)
  }

  predicate NoDuplicates(xs: seq<int>) {
    forall i, j :: 0 <= i < j < |xs| ==> xs[i] != xs[j]
  }

  /** Rooms: pending packets and member lists go together; members are distinct and hold reserved identifiers. */
  ghost predicate RoomsOk(rooms: Rooms, reserved: seq<int>) {
    && rooms.handles.Keys == rooms.packets.Keys
    && (forall room :: room in rooms.handles ==> Distinct(rooms.handles[room]))
    && (forall room, m :: room in rooms.handles && m in rooms.handles[room] ==> m.identifier in reserved)
  }

  /** Moons: registered identifiers are reserved and their rooms exist. */
  ghost predicate MoonsOk(moons: map<int, Key>, rooms: Rooms, reserved: seq<int>) {
    forall id :: id in moons ==> id in reserved && moons[id] in rooms.packets
  }

  ghost predicate Consistent(s: M.Server) {
    && IdsOk(s.ids, s.reserved)
    && RoomsOk(s.rooms, s.reserved)
    && MoonsOk(s.moons, s.rooms, s.reserved)
  }

  /** Opens come with handles that are not mapped yet. */
  predicate Fresh(s: M.Server, e: M.Event) {
    e.Opened? ==> e.h !in s.ids
  }

  /** The handle gets an identifier exactly when one is free, and that identifier is no member or moon anywhere. */
  lemma OpenKeepsConsistent(s: M.Server, h: int)
    requires Consistent(s) && h !in s.ids
    ensures var s' := M.Open(s, h);
            && Consistent(s')
            && (h in s'.ids <==> exists i :: M.Free(s.reserved, i))
            && (h in s'.ids ==>
                 && s'.ids[h] !in s'.moons
                 && forall room, m :: room in s'.rooms.handles && m in s'.rooms.handles[room] ==>
                      m.identifier != s'.ids[h])
  {
    var id := M.HighestFree(s.reserved, M.UINT16_MAX);
    if id != 0 {
      assert M.Free(s.reserved, id);
      var s' := M.Open(s, h);
      assert s'.ids[h] == id;
      forall i | i in s'.reserved
        ensures 1 <= i < M.UINT16_MAX && exists g :: g in s'.ids && s'.ids[g] == i
      {
        if i != id {
          var g :| g in s.ids && s.ids[g] == i;
          assert g in s'.ids && s'.ids[g] == i;
        }
      }
    }
  }

  lemma {:induction false} RemoveAllRemoves(xs: seq<int>, x: int)
    ensures forall y :: y in M.RemoveAll(xs, x) <==> y in xs && y != x
    ensures NoDuplicates(xs) ==> NoDuplicates(M.RemoveAll(xs, x))
  {
    if xs == [] {
    } else {
      var front := xs[..|xs| - 1];
      RemoveAllRemoves(front, x);
      assert xs == front + [xs[|xs| - 1]];
      var rest := M.RemoveAll(front, x);
      if NoDuplicates(xs) {
        forall i | 0 <= i < |rest|
          ensures rest[i] != xs[|xs| - 1]
        {
          assert rest[i] in rest;
        }
      }
    }
  }

  lemma ReleaseKeepsIds(s: M.Server, h: int)
    requires IdsOk(s.ids, s.reserved)
    ensures IdsOk(M.Release(s, h).ids, M.Release(s, h).reserved)
    ensures forall i :: i in M.Release(s, h).reserved <==> i in s.reserved && !(h in s.ids && i == s.ids[h])
  {
    if h in s.ids {
      var s' := M.Release(s, h);
      RemoveAllRemoves(s.reserved, s.ids[h]);
      forall i | i in s'.reserved
        ensures exists g :: g in s'.ids && s'.ids[g] == i
      {
        var g :| g in s.ids && s.ids[g] == i;
        assert g in s'.ids && s'.ids[g] == i;
      }
    }
  }

  /** The room of a registered moon survives the departure of another moon. */
  lemma LeaveAsMoonKeepsMoons(s: M.Server, id: int)
    requires Consistent(s)
    ensures Consistent(M.LeaveAsMoon(s, id)) && id !in M.LeaveAsMoon(s, id).moons
    ensures M.LeaveAsMoon(s, id).ids == s.ids && M.LeaveAsMoon(s, id).reserved == s.reserved
  {
  }

  lemma WithdrawKeepsRooms(rooms: Rooms, reserved: seq<int>, id: int)
    requires RoomsOk(rooms, reserved)
    ensures var rooms' := Section(rooms, Withdraw(id));
            && RoomsOk(rooms', reserved) && rooms'.packets == rooms.packets
            && (forall room, m :: room in rooms'.handles && m in rooms'.handles[room] ==> m.identifier != id)
  {
    forall room | room in rooms.handles
      ensures var rest := Without(rooms.handles[room], id);
              && Distinct(rest) && forall m :: m in rest ==> m in rooms.handles[room] && m.identifier != id
    {
      WithoutDistinct(rooms.handles[room], id);
    }
  }

  /** Closing forgets the identifier everywhere, so whoever gets it next starts with no membership. */
  lemma CloseKeepsConsistent(s: M.Server, h: int)
    requires Consistent(s)
    ensures var s' := M.Close(s, h); var id := M.IdOf(s, h);
            && Consistent(s')
            && h !in s'.ids && id !in s'.reserved && id !in s'.moons
            && (forall room, m :: room in s'.rooms.handles && m in s'.rooms.handles[room] ==> m.identifier != id)
  {
    var id := M.IdOf(s, h);
    LeaveAsMoonKeepsMoons(s, id);
    var t := M.LeaveAsMoon(s, id);
    WithdrawKeepsRooms(t.rooms, t.reserved, id);
    ReleaseKeepsIds(t, h);
  }

  lemma RegisterKeepsConsistent(s: M.Server, id: int, room: Key)
    requires Consistent(s) && id in s.reserved
    ensures Consistent(M.Register(s, id, room)) && room in M.Register(s, id, room).rooms.packets
  {
  }

  lemma StoreKeepsConsistent(s: M.Server, h: int, id: int, message: string, room: Key, moonClient: bool)
    requires Consistent(s) && id in s.reserved
    requires HASH_LENGTH <= |message| <= HASH_LENGTH + MAX_PACKET_SIZE
    ensures Consistent(M.Store(s, h, id, message, room, moonClient))
  {
  }

  lemma MessageKeepsConsistent(s: M.Server, h: int, message: string, room: Key, limit: int)
    requires Consistent(s)
    ensures Consistent(M.Message(s, h, message, room, limit).0)
  {
    var id := M.IdOf(s, h);
    if id != 0 && |message| >= HASH_LENGTH {
      var moonClient := room == message[..HASH_LENGTH];
      if moonClient {
        RegisterKeepsConsistent(s, id, room);
      }
      if |message| <= HASH_LENGTH + MAX_PACKET_SIZE {
        StoreKeepsConsistent(if moonClient then M.Register(s, id, room) else s, h, id, message, room, moonClient);
      }
    }
  }

  lemma ApplyKeepsConsistent(s: M.Server, e: M.Event)
    requires Consistent(s) && Fresh(s, e)
    ensures Consistent(M.Apply(s, e))
  {
    match e
    case Opened(h) => OpenKeepsConsistent(s, h);
    case Closed(h) => CloseKeepsConsistent(s, h);
    case Received(h, message, room, limit) => MessageKeepsConsistent(s, h, message, room, limit);
    case Ticked(_, _) =>
  }

  ghost predicate FreshRun(events: seq<M.Event>) {
    forall i :: 0 <= i < |events| ==> Fresh(M.Run(M.INITIAL, events[..i]), events[i])
  }

  lemma FreshPrefix(events: seq<M.Event>)
    requires FreshRun(events) && events != []
    ensures FreshRun(events[..|events| - 1])
    ensures Fresh(M.Run(M.INITIAL, events[..|events| - 1]), events[|events| - 1])
  {
    var front := events[..|events| - 1];
    forall i | 0 <= i < |front|
      ensures Fresh(M.Run(M.INITIAL, front[..i]), front[i])
    {
      assert front[..i] == events[..i];
    }
  }

  /** Identifier, membership and moon consistency over every run of opens, closes, messages and ticks. In particular
      every registered moon's room exists: no room is destroyed while a moon of it remains. */
  lemma {:induction false} RunsStayConsistent(events: seq<M.Event>)
    requires FreshRun(events)
    ensures Consistent(M.Run(M.INITIAL, events))
    decreases |events|
  {
    if events == [] {
    } else {
      FreshPrefix(events);
      RunsStayConsistent(events[..|events| - 1]);
      ApplyKeepsConsistent(M.Run(M.INITIAL, events[..|events| - 1]), events[|events| - 1]);
    }
  }

  // ---------- rooms and moons ----------

  /** The rooms that exist are exactly those of the registered moons. */
  ghost predicate RoomsAreMoonRooms(s: M.Server) {
    forall room :: room in s.rooms.packets <==> M.HasMoon(s.moons, room)
  }

  /** The message is a moon's, from the last registered moon of another room. */
  predicate Abandons(s: M.Server, h: int, message: string, room: Key) {
    var id := M.IdOf(s, h);
    && |message| >= HASH_LENGTH && room != EMPTY_KEY && room == message[..HASH_LENGTH]
    && id in s.moons && s.moons[id] != room && !HasOtherMoon(s.moons, id, s.moons[id])
  }

  lemma LeavingKeepsMoonRooms(s: M.Server, id: int)
    requires RoomsAreMoonRooms(s)
    ensures RoomsAreMoonRooms(M.LeaveAsMoon(s, id))
  {
    if id in s.moons {
      var moons := s.moons - {id};
      forall room
        ensures M.HasMoon(s.moons, room) <==> room == s.moons[id] || M.HasMoon(moons, room)
      {
        if other :| other in s.moons && s.moons[other] == room && room != s.moons[id] {
          assert other in moons && moons[other] == room;
        }
      }
    }
  }

  lemma CloseKeepsMoonRooms(s: M.Server, h: int)
    requires RoomsAreMoonRooms(s)
    ensures RoomsAreMoonRooms(M.Close(s, h))
  {
    LeavingKeepsMoonRooms(s, M.IdOf(s, h));
    var t := M.LeaveAsMoon(s, M.IdOf(s, h));
    assert M.Close(s, h).moons == t.moons && M.Close(s, h).rooms.packets == t.rooms.packets;
  }

  /** Registration keeps rooms and moons matched exactly when it does not take the last moon from another room. */
  lemma RegisterAndMoonRooms(s: M.Server, id: int, room: Key)
    requires Consistent(s) && RoomsAreMoonRooms(s)
    ensures var s' := M.Register(s, id, room);
            RoomsAreMoonRooms(s') <==>
            !(id in s.moons && s.moons[id] != room && !HasOtherMoon(s.moons, id, s.moons[id]))
  {
    var s' := M.Register(s, id, room);
    assert s'.moons[id] == room;
    forall r
      ensures M.HasMoon(s'.moons, r) <==> r == room || HasOtherMoon(s.moons, id, r)
      ensures M.HasMoon(s.moons, r) <==> (id in s.moons && s.moons[id] == r) || HasOtherMoon(s.moons, id, r)
      ensures r in s'.rooms.packets <==> r in s.rooms.packets || r == room
    {
      if other :| other in s.moons && other != id && s.moons[other] == r {
        assert other in s'.moons && s'.moons[other] == r;
      }
    }
  }

  predicate HasOtherMoon(moons: map<int, Key>, id: int, room: Key) {
    exists other :: other in moons && other != id && moons[other] == room
  }

  lemma StoreKeepsKeys(s: M.Server, h: int, id: int, message: string, room: Key, moonClient: bool)
    requires HASH_LENGTH <= |message| <= HASH_LENGTH + MAX_PACKET_SIZE
    ensures M.Store(s, h, id, message, room, moonClient).rooms.packets.Keys == s.rooms.packets.Keys
    ensures M.Store(s, h, id, message, room, moonClient).moons == s.moons
  {
  }

  /** A message breaks the match between rooms and moons exactly when it abandons a room. */
  lemma MessageAndMoonRooms(s: M.Server, h: int, message: string, room: Key, limit: int)
    requires Consistent(s) && RoomsAreMoonRooms(s)
    ensures RoomsAreMoonRooms(M.Message(s, h, message, room, limit).0) <==> !Abandons(s, h, message, room)
  {
    var id := M.IdOf(s, h);
    if id != 0 && |message| >= HASH_LENGTH && room != EMPTY_KEY {
      var moonClient := room == message[..HASH_LENGTH];
      if moonClient {
        RegisterAndMoonRooms(s, id, room);
      }
      if |message| <= HASH_LENGTH + MAX_PACKET_SIZE {
        StoreKeepsKeys(if moonClient then M.Register(s, id, room) else s, h, id, message, room, moonClient);
      }
    }
  }

  predicate StaysLoyal(s: M.Server, e: M.Event) {
    e.Received? ==> !Abandons(s, e.h, e.message, e.room)
  }

  /** Over every run in which no message abandons a room, rooms and moons match throughout. */
  lemma {:induction false} LoyalRunsMatchRoomsAndMoons(events: seq<M.Event>)
    requires FreshRun(events)
    requires forall i :: 0 <= i < |events| ==> StaysLoyal(M.Run(M.INITIAL, events[..i]), events[i])
    ensures RoomsAreMoonRooms(M.Run(M.INITIAL, events))
    decreases |events|
  {
    if events == [] {
    } else {
      var front := events[..|events| - 1];
      forall i | 0 <= i < |front|
        ensures StaysLoyal(M.Run(M.INITIAL, front[..i]), front[i])
      {
        assert front[..i] == events[..i];
      }
      FreshPrefix(events);
      LoyalRunsMatchRoomsAndMoons(front);
      RunsStayConsistent(front);
      var s := M.Run(M.INITIAL, front);
      match events[|events| - 1]
      case Opened(_) =>
      case Closed(h) => CloseKeepsMoonRooms(s, h);
      case Received(h, message, room, limit) => MessageAndMoonRooms(s, h, message, room, limit);
      case Ticked(_, _) =>
    }
  }

  /** One moon that sends two moon keys leaves a room without a moon, and closing does not remove it. */
  lemma TwoMoonKeysOrphanARoom(h: int, first: Key, second: Key, limit: int)
    requires |first| == HASH_LENGTH && |second| == HASH_LENGTH
    requires first != second && first != EMPTY_KEY && second != EMPTY_KEY
    ensures var s := M.Run(M.INITIAL, [M.Opened(h), M.Received(h, first, first, limit),
                                       M.Received(h, second, second, limit), M.Closed(h)]);
            s.moons == map[] && first in s.rooms.packets
  {
    RunOfFour(M.INITIAL, M.Opened(h), M.Received(h, first, first, limit), M.Received(h, second, second, limit),
              M.Closed(h));
    SecondKeyOrphans(M.Open(M.INITIAL, h), h, first, second, limit);
  }

  lemma RunOfFour(s: M.Server, a: M.Event, b: M.Event, c: M.Event, d: M.Event)
    ensures M.Run(s, [a, b, c, d]) == M.Apply(M.Apply(M.Apply(M.Apply(s, a), b), c), d)
  {
    assert [a, b, c, d] == [] + [a] + [b] + [c] + [d];
    RunExtends(s, [] + [a] + [b] + [c], d);
    RunExtends(s, [] + [a] + [b], c);
    RunExtends(s, [] + [a], b);
    RunExtends(s, [], a);
  }

  lemma SecondKeyOrphans(s: M.Server, h: int, first: Key, second: Key, limit: int)
    requires M.IdOf(s, h) != 0 && s.moons == map[]
    requires |first| == HASH_LENGTH && |second| == HASH_LENGTH
    requires first != second && first != EMPTY_KEY && second != EMPTY_KEY
    ensures var s' := M.Close(M.Message(M.Message(s, h, first, first, limit).0, h, second, second, limit).0, h);
            s'.moons == map[] && first in s'.rooms.packets
  {
    MoonKeyRegisters(s, h, first, limit);
    var t := M.Message(s, h, first, first, limit).0;
    MoonKeyRegisters(t, h, second, limit);
    OnlyMoonLeaves(M.Message(t, h, second, second, limit).0, h, first);
  }

  lemma OnlyMoonLeaves(s: M.Server, h: int, other: Key)
    requires M.IdOf(s, h) in s.moons && s.moons.Keys == {M.IdOf(s, h)}
    requires other in s.rooms.packets && s.moons[M.IdOf(s, h)] != other
    ensures M.Close(s, h).moons == map[] && other in M.Close(s, h).rooms.packets
  {
    assert s.moons - {M.IdOf(s, h)} == map[];
  }

  lemma RunExtends(s: M.Server, events: seq<M.Event>, e: M.Event)
    ensures M.Run(s, events + [e]) == M.Apply(M.Run(s, events), e)
  {
    assert (events + [e])[..|events|] == events;
  }

  lemma MoonKeyRegisters(s: M.Server, h: int, key: Key, limit: int)
    requires M.IdOf(s, h) != 0 && |key| == HASH_LENGTH && key != EMPTY_KEY
    ensures var s' := M.Message(s, h, key, key, limit).0;
            && s'.ids == s.ids && s'.moons == s.moons[M.IdOf(s, h) := key]
            && s'.rooms.packets.Keys == s.rooms.packets.Keys + {key}
  {
    assert key[..HASH_LENGTH] == key;
  }

  // ---------- payload and player cap ----------

  /** The stored packet holds exactly the bytes after the key: the 16-bit length loses nothing. */
  lemma PacketCarriesMessage(id: int, message: string)
    requires HASH_LENGTH <= |message| <= HASH_LENGTH + MAX_PACKET_SIZE
    ensures Payload(M.PacketOf(id, message)) == message[HASH_LENGTH..]
  {
  }

  lemma PacketIsQueued(rooms: Rooms, room: Key, p: Packet, h: int)
    requires room in rooms.packets
    ensures var rooms' := WithPacket(rooms, room, p, h);
            && rooms'.packets == rooms.packets[room := rooms.packets[room] + [p]]
            && room in rooms'.handles && Enrolled(rooms'.handles[room], p.identifier)
  {
    var members := Get(rooms.handles, room);
    var m := Connection(p.identifier, h);
    assert (members + [m])[|members|] == m;
  }

  /** An accepted message adds exactly its bytes after the key, under the sender's identifier, to its room and to no
      other, and makes the sender a member. */
  lemma AcceptedMessageIsQueued(s: M.Server, h: int, message: string, room: Key, limit: int)
    requires Consistent(s) && M.Message(s, h, message, room, limit).1 == M.Accepted
    ensures var s' := M.Message(s, h, message, room, limit).0; var id := M.IdOf(s, h);
            && id != 0 && room in s'.rooms.packets && room in s'.rooms.handles
            && Enrolled(s'.rooms.handles[room], id)
            && exists p: Packet :: p.identifier == id && Payload(p) == message[HASH_LENGTH..]
                                   && s'.rooms.packets == s.rooms.packets[room := Get(s.rooms.packets, room) + [p]]
  {
    var id := M.IdOf(s, h);
    var p := M.PacketOf(id, message);
    var t := if room == message[..HASH_LENGTH] then M.Register(s, id, room) else s;
    PacketCarriesMessage(id, message);
    PacketIsQueued(t.rooms, room, p, h);
    var s' := M.Message(s, h, message, room, limit).0;
    assert s'.rooms == WithPacket(t.rooms, room, p, h);
    assert s'.rooms.packets == s.rooms.packets[room := Get(s.rooms.packets, room) + [p]];
  }

  /** Any other outcome leaves every room's packets and members as they were, but may have created an empty room. */
  lemma RefusedMessageChangesNoRoom(s: M.Server, h: int, message: string, room: Key, limit: int)
    requires Consistent(s) && M.Message(s, h, message, room, limit).1 != M.Accepted
    ensures var s' := M.Message(s, h, message, room, limit).0;
            && s'.ids == s.ids && s'.reserved == s.reserved
            && s.rooms.packets.Keys <= s'.rooms.packets.Keys <= s.rooms.packets.Keys + {room}
            && (forall r :: Get(s'.rooms.packets, r) == Get(s.rooms.packets, r)
                            && Get(s'.rooms.handles, r) == Get(s.rooms.handles, r))
            && (s'.rooms != s.rooms ==>
                  M.Message(s, h, message, room, limit).1 == M.TooLong && room == message[..HASH_LENGTH])
  {
  }

  /** Members of a room whose entry was first made with the player key. */
  function PlayerCount(members: seq<Connection>, room: Key, players: set<(Key, int)>): nat {
    if members == [] then 0
    else
      PlayerCount(members[..|members| - 1], room, players)
      + (if (room, members[|members| - 1].identifier) in players then 1 else 0)
  }

  lemma {:induction false} PlayerCountBounds(members: seq<Connection>, room: Key, players: set<(Key, int)>)
    ensures PlayerCount(members, room, players) <= |members|
  {
    if members == [] {
    } else {
      PlayerCountBounds(members[..|members| - 1], room, players);
    }
  }

  /** Only the pairs of the members themselves matter. */
  lemma {:induction false} PlayerCountFrame(members: seq<Connection>, room: Key, a: set<(Key, int)>, b: set<(Key, int)>)
    requires forall m :: m in members ==> ((room, m.identifier) in a <==> (room, m.identifier) in b)
    ensures PlayerCount(members, room, a) == PlayerCount(members, room, b)
  {
    if members == [] {
    } else {
      assert forall m :: m in members[..|members| - 1] ==> m in members;
      assert members[|members| - 1] in members;
      PlayerCountFrame(members[..|members| - 1], room, a, b);
    }
  }

  lemma {:induction false} PlayerCountConcat(a: seq<Connection>, b: seq<Connection>, room: Key,
                                             players: set<(Key, int)>)
    ensures PlayerCount(a + b, room, players) == PlayerCount(a, room, players) + PlayerCount(b, room, players)
  {
    if b == [] {
      assert a + b == a;
    } else {
      assert (a + b)[..|a + b| - 1] == a + b[..|b| - 1];
      PlayerCountConcat(a, b[..|b| - 1], room, players);
    }
  }

  lemma {:induction false} WithoutCountsNoMore(members: seq<Connection>, id: int, room: Key, players: set<(Key, int)>)
    ensures PlayerCount(Without(members, id), room, players) <= PlayerCount(members, room, players)
  {
    if members == [] {
    } else {
      assert members == [members[0]] + members[1..];
      PlayerCountConcat([members[0]], members[1..], room, players);
      if members[0].identifier != id {
        WithoutCountsNoMore(members[1..], id, room, players);
        PlayerCountConcat([members[0]], Without(members[1..], id), room, players);
      }
    }
  }

  /** The other members: their entry was first made with the moon key. */
  function MoonCount(members: seq<Connection>, room: Key, players: set<(Key, int)>): nat {
    if members == [] then 0
    else
      MoonCount(members[..|members| - 1], room, players)
      + (if (room, members[|members| - 1].identifier) in players then 0 else 1)
  }

  lemma {:induction false} CountsPartition(members: seq<Connection>, room: Key, players: set<(Key, int)>)
    ensures |members| == PlayerCount(members, room, players) + MoonCount(members, room, players)
  {
    if members == [] {
    } else {
      CountsPartition(members[..|members| - 1], room, players);
    }
  }

  /** At most `limit` members of the room came in as players. */
  predicate WithinCap(s: M.Server, room: Key, limit: nat) {
    PlayerCount(Get(s.rooms.handles, room), room, s.players) <= limit
  }

  lemma CloseKeepsCap(s: M.Server, h: int, room: Key, limit: nat)
    requires Consistent(s) && WithinCap(s, room, limit)
    ensures WithinCap(M.Close(s, h), room, limit)
  {
    var id := M.IdOf(s, h);
    var t := M.LeaveAsMoon(s, id);
    var s' := M.Close(s, h);
    if room in t.rooms.handles {
      var members := s.rooms.handles[room];
      assert t.rooms.handles[room] == members && s'.rooms.handles[room] == Without(members, id);
      WithoutDistinct(members, id);
      WithoutCountsNoMore(members, id, room, s.players);
      PlayerCountFrame(Without(members, id), room, s.players, s'.players);
    }
  }

  lemma RegisterKeepsCap(s: M.Server, id: int, other: Key, room: Key, limit: nat)
    requires Consistent(s) && WithinCap(s, room, limit)
    ensures WithinCap(M.Register(s, id, other), room, limit)
  {
    var s' := M.Register(s, id, other);
    if room != other || room in s.rooms.packets {
      PlayerCountFrame(Get(s.rooms.handles, room), room, s.players, s'.players);
    }
  }

  lemma StoreKeepsCap(s: M.Server, h: int, id: int, message: string, other: Key, moonClient: bool,
                      room: Key, limit: nat)
    requires Consistent(s) && WithinCap(s, room, limit)
    requires HASH_LENGTH <= |message| <= HASH_LENGTH + MAX_PACKET_SIZE
    requires other == room && !moonClient ==> CountOthers(Get(s.rooms.handles, room), id) < limit
    ensures WithinCap(M.Store(s, h, id, message, other, moonClient), room, limit)
  {
    var s' := M.Store(s, h, id, message, other, moonClient);
    var members := Get(s.rooms.handles, room);
    if other != room || room !in s.rooms.packets || Enrolled(members, id) {
      PlayerCountFrame(members, room, s.players, s'.players);
    } else {
      NewcomerIsUncounted(members, id, room, s.players, s'.players);
      PlayerCountConcat(members, [Connection(id, h)], room, s'.players);
      PlayerCountBounds(members, room, s.players);
      assert [Connection(id, h)][..0] == [];
    }
  }

  lemma NewcomerIsUncounted(members: seq<Connection>, id: int, room: Key, a: set<(Key, int)>, b: set<(Key, int)>)
    requires !Enrolled(members, id) && (b == a + {(room, id)} || b == a - {(room, id)})
    ensures PlayerCount(members, room, a) == PlayerCount(members, room, b)
  {
    forall m | m in members
      ensures m.identifier != id
    {
    }
    PlayerCountFrame(members, room, a, b);
  }

  lemma MessageKeepsCap(s: M.Server, h: int, message: string, other: Key, answered: int, room: Key, limit: nat)
    requires Consistent(s) && WithinCap(s, room, limit) && (other == room ==> answered == limit)
    ensures WithinCap(M.Message(s, h, message, other, answered).0, room, limit)
  {
    var id := M.IdOf(s, h);
    if id != 0 && |message| >= HASH_LENGTH && other != EMPTY_KEY {
      var moonClient := other == message[..HASH_LENGTH];
      var t := s;
      if moonClient {
        t := M.Register(s, id, other);
        RegisterKeepsCap(s, id, other, room, limit);
        RegisterKeepsConsistent(s, id, other);
      }
      if M.Message(s, h, message, other, answered).1 == M.Accepted {
        StoreKeepsCap(t, h, id, message, other, moonClient, room, limit);
      }
    }
  }

  /** While a room's limit stays what it is, no run lets more than `limit` members in through the player key, so the
      room never has more than `limit` members beyond those first let in as moons. */
  lemma {:induction false} RunsKeepPlayerCap(events: seq<M.Event>, room: Key, limit: nat)
    requires FreshRun(events)
    requires forall i :: 0 <= i < |events| && events[i].Received? && events[i].room == room ==> events[i].limit == limit
    ensures WithinCap(M.Run(M.INITIAL, events), room, limit)
    ensures var s := M.Run(M.INITIAL, events); var members := Get(s.rooms.handles, room);
            |members| <= limit + MoonCount(members, room, s.players)
    decreases |events|
  {
    var after := M.Run(M.INITIAL, events);
    CountsPartition(Get(after.rooms.handles, room), room, after.players);
    if events == [] {
    } else {
      FreshPrefix(events);
      var front := events[..|events| - 1];
      RunsKeepPlayerCap(front, room, limit);
      RunsStayConsistent(front);
      var s := M.Run(M.INITIAL, front);
      match events[|events| - 1]
      case Opened(_) =>
      case Closed(h) => CloseKeepsCap(s, h, room, limit);
      case Received(h, message, other, answered) => MessageKeepsCap(s, h, message, other, answered, room, limit);
      case Ticked(_, _) =>
    }
  }

  // ---------- room threads between the lock sections of a handler ----------

  /** Equal up to the contents of the pending vectors and the record of where those went. */
  predicate SameButPending(a: Rooms, b: Rooms) {
    a.handles == b.handles && a.packets.Keys == b.packets.Keys && a.accepted == b.accepted
  }

  /** A room thread's getPackets is invisible to the handlers, and no section of a handler can tell apart two states
      that differ only in what is pending; so it does not matter between which sections room threads run. */
  lemma TicksAreInvisible(a: Rooms, b: Rooms, section: Action, room: Key, c: nat)
    requires SameButPending(a, b)
    ensures room in a.packets ==> SameButPending(TakePackets(a, room, c), b)
    ensures SameButPending(Section(a, section), Section(b, section))
  {
    if section.Withdraw? {
      assert Section(a, section).handles == Section(b, section).handles;
    }
  }

  predicate SameServerButPending(s: M.Server, t: M.Server) {
    && SameButPending(s.rooms, t.rooms)
    && s.ids == t.ids && s.reserved == t.reserved && s.moons == t.moons && s.players == t.players
  }

  /** The same for whole handlers: outcome and everything but the pending contents agree. */
  lemma HandlersIgnorePending(s: M.Server, t: M.Server, e: M.Event)
    requires SameServerButPending(s, t)
    ensures SameServerButPending(M.Apply(s, e), M.Apply(t, e))
    ensures e.Received? ==>
              M.Message(s, e.h, e.message, e.room, e.limit).1 == M.Message(t, e.h, e.message, e.room, e.limit).1
  {
    match e
    case Opened(_) =>
    case Closed(h) => CloseIgnoresPending(s, t, h);
    case Received(h, message, room, limit) => MessageIgnoresPending(s, t, h, message, room, limit);
    case Ticked(_, _) =>
  }

  lemma LeavingIgnoresPending(s: M.Server, t: M.Server, id: int)
    requires SameServerButPending(s, t)
    ensures SameServerButPending(M.LeaveAsMoon(s, id), M.LeaveAsMoon(t, id))
  {
  }

  lemma CloseIgnoresPending(s: M.Server, t: M.Server, h: int)
    requires SameServerButPending(s, t)
    ensures SameServerButPending(M.Close(s, h), M.Close(t, h))
  {
    var id := M.IdOf(s, h);
    LeavingIgnoresPending(s, t, id);
    TicksAreInvisible(M.LeaveAsMoon(s, id).rooms, M.LeaveAsMoon(t, id).rooms, Withdraw(id), EMPTY_KEY, 0);
  }

  lemma RegisterIgnoresPending(s: M.Server, t: M.Server, id: int, room: Key)
    requires SameServerButPending(s, t)
    ensures SameServerButPending(M.Register(s, id, room), M.Register(t, id, room))
  {
  }

  lemma MessageIgnoresPending(s: M.Server, t: M.Server, h: int, message: string, room: Key, limit: int)
    requires SameServerButPending(s, t)
    ensures M.Message(s, h, message, room, limit).1 == M.Message(t, h, message, room, limit).1
    ensures SameServerButPending(M.Message(s, h, message, room, limit).0, M.Message(t, h, message, room, limit).0)
  {
    var id := M.IdOf(s, h);
    RegisterIgnoresPending(s, t, id, room);
    var r, q := M.Register(s, id, room), M.Register(t, id, room);
    if HASH_LENGTH <= |message| <= HASH_LENGTH + MAX_PACKET_SIZE {
      StoreIgnoresPending(s, t, h, id, message, room, room == message[..HASH_LENGTH]);
      StoreIgnoresPending(r, q, h, id, message, room, room == message[..HASH_LENGTH]);
    }
  }

  lemma StoreIgnoresPending(s: M.Server, t: M.Server, h: int, id: int, message: string, room: Key, moonClient: bool)
    requires SameServerButPending(s, t)
    requires HASH_LENGTH <= |message| <= HASH_LENGTH + MAX_PACKET_SIZE
    ensures SameServerButPending(M.Store(s, h, id, message, room, moonClient),
                                 M.Store(t, h, id, message, room, moonClient))
  {
  }
}
