/** The relay server as an object: its handlers, with the loops of the source, compute the model's handlers. */
module RelayServing {
  import opened RelayTypes
  import opened HandOff
  import opened PacketAccumulation
  import opened KeyManagement
  import M = RelayServerModel

  class RelayServer {
    var ids: map<int, int>
    var reserved: seq<int>
    var moons: map<int, Key>
    const keyManager: KeyManager
    const accumulator: PacketAccumulator
    ghost var players: set<(Key, int)>

    ghost function View(): M.Server
      reads this, accumulator
    {
      M.Server(ids, reserved, moons, accumulator.View(), players)
    }

    constructor (keyManager: KeyManager)
      ensures View() == M.INITIAL && this.keyManager == keyManager && fresh(accumulator)
    {
      ids, reserved, moons, players := map[], [], map[], {};
      this.keyManager := keyManager;
      accumulator := new PacketAccumulator();
    }

    method OnOpen(h: int)
      modifies this
      ensures View() == M.Open(old(View()), h)
    {
      var _ := ClaimIdentifier(h);
    }

    /** Returns the highest free identifier, or 0 exactly when none is free. */
    method ClaimIdentifier(h: int) returns (identifier: int)
      modifies this
      ensures View() == M.Open(old(View()), h)
      ensures identifier != 0 ==> M.Free(old(reserved), identifier) && ids == old(ids)[h := identifier]
      ensures forall i :: identifier < i ==> !M.Free(old(reserved), i)
      ensures identifier == 0 <==> forall i :: !M.Free(old(reserved), i)
    {
      identifier := 0;
      var i := 1;
      while i < M.UINT16_MAX
        invariant 1 <= i <= M.UINT16_MAX
        invariant identifier == M.HighestFree(reserved, i)
      {
        if i !in reserved {
          identifier := i;
        }
        i := i + 1;
      }
      if identifier == 0 {
        return;
      }
      reserved := reserved + [identifier];
      ids := ids[h := identifier];
    }

    method GetIdentifier(h: int) returns (identifier: int)
      ensures identifier == M.IdOf(View(), h)
    {
      if h !in ids {
        return 0;
      }
      identifier := ids[h];
    }

    method ReleaseIdentifier(h: int)
      modifies this
      ensures View() == M.Release(old(View()), h)
    {
      if h !in ids {
        return;
      }
      var identifier := ids[h];
      ids := ids - {h};
      var kept: seq<int> := [];
      for i := 0 to |reserved|
        invariant kept == M.RemoveAll(reserved[..i], identifier)
        invariant ids == old(ids) - {h} && reserved == old(reserved) && moons == old(moons) && players == old(players)
      {
        assert reserved[..i + 1][..i] == reserved[..i];
        if reserved[i] != identifier {
          kept := kept + [reserved[i]];
        }
      }
      assert reserved[..|reserved|] == reserved;
      reserved := kept;
    }

    method OnClose(h: int)
      modifies this, accumulator
      ensures View() == M.Close(old(View()), h)
    {
      var identifier := GetIdentifier(h);
      if identifier in moons {
        var room := moons[identifier];
        moons := moons - {identifier};
        var remaining := M.OtherMoonRemains(moons, room);
        if !remaining {
          accumulator.DestroyRoom(room);
          players := set p | p in players && p.0 != room;
        }
      }
      assert View() == M.LeaveAsMoon(old(View()), identifier);
      accumulator.RemoveConnection(identifier);
      players := set p | p in players && p.1 != identifier;
      ReleaseIdentifier(h);
    }

    method OnMessage(h: int, message: string) returns (outcome: M.Outcome)
      modifies this, accumulator
      ensures var room := if |message| < HASH_LENGTH then EMPTY_KEY
                          else RoomOf(keyManager.keys, message[..HASH_LENGTH]);
              (View(), outcome) == M.Message(old(View()), h, message, room, LimitOf(keyManager.keys, room))
    {
      var identifier := GetIdentifier(h);
      if identifier == 0 {
        return M.NoIdentifier;
      }
      if |message| < HASH_LENGTH {
        return M.TooShort;
      }
      var hash := message[..HASH_LENGTH];
      var room := keyManager.GetRoom(hash);
      if room == EMPTY_KEY {
        return M.EmptyRoom;
      }
      var moonClient := room == hash;
      if moonClient {
        moons := moons[identifier := room];
      }
      var present := accumulator.HasRoom(room);
      if !present {
        if !moonClient {
          return M.RoomMissing;
        }
        var _ := accumulator.CreateRoom(room);
        players := set p | p in players && p.0 != room;
      }
      assert View() == if moonClient then M.Register(old(View()), identifier, room) else old(View());
      if |message| > HASH_LENGTH + MAX_PACKET_SIZE {
        return M.TooLong;
      }
      var limit := keyManager.GetPlayerLimit(room);
      var count := accumulator.GetConnectionCountWithoutConnection(identifier, room);
      if !moonClient && count >= limit {
        return M.Full;
      }
      Enqueue(h, identifier, message, room, moonClient);
      outcome := M.Accepted;
    }

    /** Builds the packet and stores it. */
    method Enqueue(h: int, identifier: int, message: string, room: Key, ghost moonClient: bool)
      requires HASH_LENGTH <= |message| <= HASH_LENGTH + MAX_PACKET_SIZE
      modifies this, accumulator
      ensures View() == M.Store(old(View()), h, identifier, message, room, moonClient)
    {
      var length := (|message| - HASH_LENGTH) % 0x1_0000;
      var bytes := seq(MAX_PACKET_SIZE, _ => '\0');
      bytes := message[HASH_LENGTH..HASH_LENGTH + length] + bytes[length..];
      var packet: Packet := RawPacket(identifier, bytes, length);
      assert packet == M.PacketOf(identifier, message);
      players := M.Store(View(), h, identifier, message, room, moonClient).players;
      accumulator.AddPacket(room, packet, h);
    }
  }
}
