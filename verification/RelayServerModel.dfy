/** The websocket handlers of RelayServer as functions on the relay's state. Handlers run one after another; the
    room threads' getPackets may come between any two of them. */
module RelayServerModel {
  import opened RelayTypes
  import opened HandOff
  import opened PacketAccumulation

  const UINT16_MAX := 65535

  /** `ids` is m_handlePointerToIdentifierMap. `players` is history: the (room, identifier) pairs whose member entry
      was first made by a message with the player key. */
  datatype Server = Server(
    ids: map<int, int>, reserved: seq<int>, moons: map<int, Key>, rooms: Rooms, players: set<(Key, int)>)

  const INITIAL := Server(map[], [], map[], Rooms(map[], map[], map[], map[]), {})

  datatype Outcome = NoIdentifier | TooShort | EmptyRoom | RoomMissing | TooLong | Full | Accepted

  predicate Free(reserved: seq<int>, i: int) {
    1 <= i < UINT16_MAX && i !in reserved
  }

  /** claimIdentifier keeps overwriting its candidate, so the highest free identifier wins; 0 when none is free. */
  function HighestFree(reserved: seq<int>, below: int): (r: int)
    requires 1 <= below <= UINT16_MAX
    ensures r == 0 || (Free(reserved, r) && r < below)
    ensures forall i :: r < i < below ==> !Free(reserved, i)
    decreases below
  {
    if below == 1 then 0
    else if below - 1 !in reserved then below - 1
    else HighestFree(reserved, below - 1)
  }

  function IdOf(s: Server, h: int): int {
    if h in s.ids then s.ids[h] else 0
  }

  function Open(s: Server, h: int): Server {
    var id := HighestFree(s.reserved, UINT16_MAX);
    if id == 0 then s else s.(ids := s.ids[h := id], reserved := s.reserved + [id])
  }

  function RemoveAll(xs: seq<int>, x: int): seq<int> {
    if xs == [] then []
    else RemoveAll(xs[..|xs| - 1], x) + (if xs[|xs| - 1] == x then [] else [xs[|xs| - 1]])
  }

  /** releaseIdentifier. */
  function Release(s: Server, h: int): Server {
    if h !in s.ids then s else s.(ids := s.ids - {h}, reserved := RemoveAll(s.reserved, s.ids[h]))
  }

  predicate HasMoon(moons: map<int, Key>, room: Key) {
    exists id :: id in moons && moons[id] == room
  }

  /** The scan over m_moonIdentifierToRoomMap. */
  method OtherMoonRemains(moons: map<int, Key>, room: Key) returns (remaining: bool)
    ensures remaining <==> HasMoon(moons, room)
  {
    var rest := moons.Items;
    while rest != {}
      invariant rest <= moons.Items
      invariant forall id :: id in moons && (id, moons[id]) !in rest ==> moons[id] != room
    {
      var otherMoon :| otherMoon in rest;
      var id := otherMoon.0;
      assert id in moons && moons[id] == otherMoon.1;
      if otherMoon.1 == room {
        assert HasMoon(moons, moons[id]);
        return true;
      }
      rest := rest - {otherMoon};
    }
    remaining := false;
  }

  /** The first block of onClose: a moon leaves its room, and the last moon takes the room with it. */
  function LeaveAsMoon(s: Server, id: int): Server {
    if id !in s.moons then s
    else
      var room := s.moons[id];
      var moons := s.moons - {id};
      if HasMoon(moons, room) then s.(moons := moons)
      else s.(moons := moons, rooms := WithoutRoom(s.rooms, room), players := set p | p in s.players && p.0 != room)
  }

  function Close(s: Server, h: int): Server {
    var id := IdOf(s, h);
    var t := LeaveAsMoon(s, id);
    Release(t.(rooms := Section(t.rooms, Withdraw(id)), players := set p | p in t.players && p.1 != id), h)
  }

  /** memcpy of the payload into a zeroed array, with the length cut to 16 bits. */
  function PacketOf(id: int, message: string): Packet
    requires HASH_LENGTH <= |message| <= HASH_LENGTH + MAX_PACKET_SIZE
  {
    var length := (|message| - HASH_LENGTH) % 0x1_0000;
    RawPacket(id, message[HASH_LENGTH..HASH_LENGTH + length] + seq(MAX_PACKET_SIZE - length, _ => '\0'), length)
  }

  /** The moon registers itself and, if need be, its room. */
  function Register(s: Server, id: int, room: Key): Server {
    s.(moons := s.moons[id := room], rooms := WithRoom(s.rooms, room),
       players := if room in s.rooms.packets then s.players else set p | p in s.players && p.0 != room)
  }

  /** Storing the packet; a sender that is new to the room is recorded as moon or player. */
  function Store(s: Server, h: int, id: int, message: string, room: Key, moonClient: bool): Server
    requires HASH_LENGTH <= |message| <= HASH_LENGTH + MAX_PACKET_SIZE
  {
    s.(rooms := WithPacket(s.rooms, room, PacketOf(id, message), h),
       players := if room !in s.rooms.packets || Enrolled(Get(s.rooms.handles, room), id) then s.players
                  else if moonClient then s.players - {(room, id)}
                  else s.players + {(room, id)})
  }

  /** onMessage. `room` is what getRoom answered for the first four bytes, `limit` what getPlayerLimit answered. */
  function Message(s: Server, h: int, message: string, room: Key, limit: int): (Server, Outcome) {
    var id := IdOf(s, h);
    if id == 0 then (s, NoIdentifier)
    else if |message| < HASH_LENGTH then (s, TooShort)
    else if room == EMPTY_KEY then (s, EmptyRoom)
    else
      var moonClient := room == message[..HASH_LENGTH];
      if !moonClient && room !in s.rooms.packets then (s, RoomMissing)
      else
        var t := if moonClient then Register(s, id, room) else s;
        if |message| > HASH_LENGTH + MAX_PACKET_SIZE then (t, TooLong)
        else if !moonClient && CountOthers(Get(t.rooms.handles, room), id) >= limit then (t, Full)
        else (Store(t, h, id, message, room, moonClient), Accepted)
  }

  datatype Event =
    | Opened(h: int)
    | Closed(h: int)
    | Received(h: int, message: string, room: Key, limit: int)
    | Ticked(room: Key, caller: nat)

  function Apply(s: Server, e: Event): Server {
    match e
    case Opened(h) => Open(s, h)
    case Closed(h) => Close(s, h)
    case Received(h, message, room, limit) => Message(s, h, message, room, limit).0
    case Ticked(room, caller) =>
      if Get(s.rooms.packets, room) == [] then s else s.(rooms := TakePackets(s.rooms, room, caller))
  }

  function Run(s: Server, events: seq<Event>): Server {
    if events == [] then s else Apply(Run(s, events[..|events| - 1]), events[|events| - 1])
  }
}
