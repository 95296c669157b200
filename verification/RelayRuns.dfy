/** Runs of the whole relay on which it does not do what one would expect. */
module RelayRuns {
  import opened Integers
  import opened RelayTypes
  import opened RelaySystem
  import opened RelayEndToEnd
  import opened RelayServerTheorems
  import opened RelaySystemTheorems
  import opened HandOffInvariant
  import opened PacketAccumulation
  import H = HandOff
  import L = RoomLifecycle
  import M = RelayServerModel

  // ---------- the websocket thread alone ----------

  /** Nobody is inside createRoom and nothing waits to be reaped. */
  predicate Quiet(registry: L.State) {
    && |registry.creators| == 1 && registry.creators[0].pc.Outside?
    && registry.roomMutex == None && registry.completedMutex == None && registry.completed == []
  }

  lemma Go(s: System, n: nat, moves: seq<Move>, move: Move) returns (s': System, longer: seq<Move>)
    requires Reachable(s, n, moves) && Step(s, move).Some?
    ensures Reachable(s', n, longer) && s' == Step(s, move).value
  {
    longer, s' := moves + [move], Step(s, move).value;
    assert longer[..|longer| - 1] == moves;
  }

  function NewCaller(room: Key): H.Caller {
    H.Caller(H.CheckRoom, room, [], [], [], [], [])
  }

  /** What an uncontended call of createRoom does. */
  function Started(s: System, room: Key): System {
    var registry := s.registry.(creators := [L.Creator(L.Outside, room)]);
    if room in registry.roomThreads then s.(registry := registry)
    else
      s.(registry := registry.(threads := registry.threads + [L.RoomThread(room, L.Looping)],
                               roomThreads := registry.roomThreads[room := |registry.threads|]),
         hand := s.hand.(pool := s.hand.pool.(callers := s.hand.pool.callers + [NewCaller(room)])))
  }

  /** createRoom up to its decision. */
  lemma CallReachesDecide(s: System, n: nat, moves: seq<Move>, room: Key) returns (s': System, longer: seq<Move>)
    requires Reachable(s, n, moves)
    requires s.registry.creators == [L.Creator(L.WantRoom, room)] && s.registry.roomMutex == None
    requires s.registry.completedMutex == None && s.registry.completed == []
    ensures Reachable(s', n, longer)
    ensures s' == s.(registry := s.registry.(creators := [L.Creator(L.Decide, room)], roomMutex := Some(0)))
  {
    s', longer := Go(s, n, moves, CreateRoomAct);
    assert s'.registry.creators == [L.Creator(L.WantCompleted, room)];
    s', longer := Go(s', n, longer, CreateRoomAct);
    assert s'.registry.creators == [L.Creator(L.Reap(0), room)];
    s', longer := Go(s', n, longer, CreateRoomAct);
    assert s'.registry.creators == [L.Creator(L.Clear, room)];
    s', longer := Go(s', n, longer, CreateRoomAct);
    assert s'.registry.creators == [L.Creator(L.Decide, room)];
  }

  lemma DecideReturns(s: System, n: nat, moves: seq<Move>, room: Key) returns (s': System, longer: seq<Move>)
    requires Reachable(s, n, moves)
    requires s.registry.creators == [L.Creator(L.Decide, room)] && s.registry.roomMutex == Some(0)
    ensures Reachable(s', n, longer) && s' == Started(s.(registry := s.registry.(roomMutex := None)), room)
  {
    DecideStarts(s, room);
    s', longer := Go(s, n, moves, CreateRoomAct);
    CallUnlocks(s', room);
    s', longer := Go(s', n, longer, CreateRoomAct);
  }

  lemma DecideStarts(s: System, room: Key)
    requires s.registry.creators == [L.Creator(L.Decide, room)]
    ensures CreateRoomStep(s).Some?
    ensures var s', started := CreateRoomStep(s).value, Started(s, room);
            s' == started.(registry := started.registry.(creators := [L.Creator(L.Unlock, room)]))
  {
    assert CreateRoomStep(s).value.registry.creators == [L.Creator(L.Unlock, room)];
  }

  lemma CallUnlocks(s: System, room: Key)
    requires s.registry.creators == [L.Creator(L.Unlock, room)]
    ensures CreateRoomStep(s).Some?
    ensures CreateRoomStep(s).value
            == s.(registry := s.registry.(creators := [L.Creator(L.Outside, room)], roomMutex := None))
  {
    assert CreateRoomStep(s).value.registry.creators == [L.Creator(L.Outside, room)];
  }

  /** One item of the handler, with the whole of createRoom where it is called. */
  function AloneStep(s: System): System
    requires s.todo != []
  {
    var item := s.todo[0];
    var rest := s.(todo := Next(s.hand.rooms, item) + s.todo[1..]);
    if item.StartThread? then Started(rest, item.room)
    else rest.(hand := s.hand.(rooms := After(s.hand.rooms, item)))
  }

  lemma AloneStepHappens(s: System, n: nat, moves: seq<Move>) returns (s': System, longer: seq<Move>)
    requires Reachable(s, n, moves) && Quiet(s.registry) && s.todo != []
    ensures Reachable(s', n, longer) && s' == AloneStep(s) && Quiet(s'.registry)
  {
    s', longer := Go(s, n, moves, Handle);
    if s.todo[0].StartThread? {
      var room := s.todo[0].room;
      assert s'.registry.creators == [L.Creator(L.WantRoom, room)];
      s', longer := CallReachesDecide(s', n, longer, room);
      s', longer := DecideReturns(s', n, longer, room);
    }
  }

  function Alone(s: System): System
    decreases Work(s.todo)
  {
    if s.todo == [] then s
    else
      StepIsLess(s.hand.rooms, s.todo);
      Alone(AloneStep(s))
  }

  lemma {:induction false} AloneHappens(s: System, n: nat, moves: seq<Move>) returns (s': System, longer: seq<Move>)
    requires Reachable(s, n, moves) && Quiet(s.registry)
    ensures Reachable(s', n, longer) && s' == Alone(s) && Quiet(s'.registry)
    decreases Work(s.todo)
  {
    s', longer := s, moves;
    if s.todo == [] {
    } else {
      StepIsLess(s.hand.rooms, s.todo);
      s', longer := AloneStepHappens(s, n, moves);
      s', longer := AloneHappens(s', n, longer);
    }
  }

  /** Running alone is performing, and leaves everything but accumulator, threads and registry as it is. */
  lemma {:induction false} AlonePerforms(s: System)
    ensures var t := Alone(s);
            && t.todo == [] && t.hand.rooms == Perform(s.hand.rooms, s.todo) && t.events == s.events
            && t.ids == s.ids && t.reserved == s.reserved && t.moons == s.moons && t.players == s.players
    decreases Work(s.todo)
  {
    if s.todo == [] {
    } else {
      StepIsLess(s.hand.rooms, s.todo);
      AlonePerforms(AloneStep(s));
    }
  }

  predicate StartsNothing(item: Todo) {
    !item.AskRoom? && !item.CreatePackets? && !item.CreateHandles? && !item.StartThread?
  }

  lemma {:induction false} AloneStartsNothing(s: System)
    requires forall i :: 0 <= i < |s.todo| ==> StartsNothing(s.todo[i])
    ensures Alone(s).registry == s.registry && Alone(s).hand.pool == s.hand.pool
    decreases Work(s.todo)
  {
    if s.todo == [] {
    } else {
      StepIsLess(s.hand.rooms, s.todo);
      AloneStartsNothing(AloneStep(s));
    }
  }

  /** A moon's message that finds no room. */
  predicate CreatesRoom(s: M.Server, e: M.Event) {
    && e.Received? && M.IdOf(s, e.h) != 0 && e.room != EMPTY_KEY && e.room !in s.rooms.packets
    && |e.message| >= HASH_LENGTH && e.room == e.message[..HASH_LENGTH]
  }

  lemma AloneCreates(s: System, q: Request)
    requires s.todo == [AskRoom(q)] && FromMoon(q) && q.room !in s.hand.rooms.packets
    ensures Alone(s).registry == Started(s, q.room).registry && Alone(s).hand.pool == Started(s, q.room).hand.pool
  {
    var s1 := AloneStep(s);
    assert s1.todo == [CreatePackets(q.room), AskCount(q)];
    var s2 := AloneStep(s1);
    assert s2.todo == [CreateHandles(q.room), StartThread(q.room), AskCount(q)];
    var s3 := AloneStep(s2);
    assert s3.todo == [StartThread(q.room), AskCount(q)];
    var s4 := AloneStep(s3);
    assert s4.todo == [AskCount(q)];
    AloneStartsNothing(s4);
    assert Alone(s) == Alone(s1) == Alone(s2) == Alone(s3) == Alone(s4);
  }

  lemma AloneFindsRoom(s: System, q: Request)
    requires s.todo == [AskRoom(q)] && (q.room in s.hand.rooms.packets || !FromMoon(q))
    ensures Alone(s).registry == s.registry && Alone(s).hand.pool == s.hand.pool
  {
    AloneStartsNothing(AloneStep(s));
  }

  /** A handler that nobody interrupts is the model's handler, and starts a thread where it creates a room. */
  lemma EventRuns(s: System, n: nat, moves: seq<Move>, e: M.Event) returns (s': System, longer: seq<Move>)
    requires Reachable(s, n, moves) && Quiet(s.registry) && s.todo == [] && !e.Ticked? && Fresh(View(s), e)
    ensures Reachable(s', n, longer) && Quiet(s'.registry) && s'.todo == [] && View(s') == M.Apply(View(s), e)
    ensures var t := if CreatesRoom(View(s), e) then Started(s, e.room) else s;
            s'.registry == t.registry && s'.hand.pool == t.hand.pool
  {
    var b;
    b, longer := Go(s, n, moves, Begin(e));
    s', longer := AloneHappens(b, n, longer);
    AlonePerforms(b);
    PlanIsHandler(View(s), e);
    BegunStarts(s, e, b);
  }

  lemma BegunStarts(s: System, e: M.Event, b: System)
    requires BeginStep(s, e) == Some(b)
    ensures var t := if CreatesRoom(View(s), e) then Started(s, e.room) else s;
            Alone(b).registry == t.registry && Alone(b).hand.pool == t.hand.pool
  {
    if e.Received? && b.todo != [] {
      if CreatesRoom(View(s), e) {
        AloneCreates(b, b.todo[0].q);
      } else {
        AloneFindsRoom(b, b.todo[0].q);
      }
    } else {
      AloneStartsNothing(b);
    }
  }

  // ---------- a room without a thread ----------

  lemma OpenIntoNothing(s: M.Server, h: int)
    requires s.ids == map[] && s.reserved == []
    ensures M.Open(s, h) == s.(ids := map[h := 65534], reserved := [65534])
  {
  }

  lemma CloseToNothing(s: M.Server, h: int, room: Key)
    requires s.ids == map[h := 65534] && s.reserved == [65534] && s.moons == map[65534 := room]
    requires s.rooms.packets.Keys == {room}
    ensures var s' := M.Close(s, h);
            s'.ids == map[] && s'.reserved == [] && s'.moons == map[] && s'.rooms.packets == map[]
  {
    assert s.moons - {65534} == map[] && s.ids - {h} == map[];
    assert [65534][..0] == [];
    assert s.rooms.packets - {room} == map[];
  }

  predicate Empty(s: System) {
    s.todo == [] && s.ids == map[] && s.reserved == [] && s.moons == map[] && s.hand.rooms.packets == map[]
  }

  predicate OneMoon(s: System, h: int, room: Key) {
    && s.todo == [] && s.ids == map[h := 65534] && s.reserved == [65534] && s.moons == map[65534 := room]
    && s.hand.rooms.packets.Keys == {room}
  }

  lemma MoonArrives(s: System, n: nat, moves: seq<Move>, room: Key, h: int, limit: int)
      returns (s': System, longer: seq<Move>)
    requires Reachable(s, n, moves) && Quiet(s.registry) && Empty(s) && |room| == HASH_LENGTH && room != EMPTY_KEY
    ensures Reachable(s', n, longer) && Quiet(s'.registry) && OneMoon(s', h, room)
    ensures s'.registry == Started(s, room).registry && s'.hand.pool == Started(s, room).hand.pool
    ensures View(s') == M.Message(M.Open(View(s), h), h, room, room, limit).0
  {
    s', longer := EventRuns(s, n, moves, M.Opened(h));
    MoonRegisters(View(s), h, room, limit);
    StartedAlike(s, s', room);
    s', longer := EventRuns(s', n, longer, M.Received(h, room, room, limit));
  }

  lemma MoonRegisters(s: M.Server, h: int, room: Key, limit: int)
    requires s.ids == map[] && s.reserved == [] && s.moons == map[] && s.rooms.packets == map[]
    requires |room| == HASH_LENGTH && room != EMPTY_KEY
    ensures CreatesRoom(M.Open(s, h), M.Received(h, room, room, limit))
    ensures var s' := M.Message(M.Open(s, h), h, room, room, limit).0;
            && s'.ids == map[h := 65534] && s'.reserved == [65534] && s'.moons == map[65534 := room]
            && s'.rooms.packets.Keys == {room}
  {
    OpenIntoNothing(s, h);
    MoonKeyRegisters(M.Open(s, h), h, room, limit);
    assert room[..HASH_LENGTH] == room;
  }

  lemma StartedAlike(s: System, t: System, room: Key)
    requires s.registry == t.registry && s.hand.pool == t.hand.pool
    ensures Started(s, room).registry == Started(t, room).registry
    ensures Started(s, room).hand.pool == Started(t, room).hand.pool
  {
  }

  lemma MoonLeaves(s: System, n: nat, moves: seq<Move>, room: Key, h: int) returns (s': System, longer: seq<Move>)
    requires Reachable(s, n, moves) && Quiet(s.registry) && OneMoon(s, h, room)
    ensures Reachable(s', n, longer) && Quiet(s'.registry) && Empty(s')
    ensures s'.registry == s.registry && s'.hand.pool == s.hand.pool
  {
    CloseToNothing(View(s), h, room);
    s', longer := EventRuns(s, n, moves, M.Closed(h));
  }

  /** The thread sees that its room is gone. */
  lemma ThreadLeaves(s: System, n: nat, moves: seq<Move>, room: Key) returns (s': System, longer: seq<Move>)
    requires Reachable(s, n, moves) && s.registry.threads == [L.RoomThread(room, L.Looping)]
    requires s.hand.pool.callers == [NewCaller(room)] && room !in s.hand.rooms.packets
    ensures Reachable(s', n, longer)
    ensures s' == s.(registry := s.registry.(threads := [L.RoomThread(room, L.LeftLoop)]),
                     hand := s.hand.(pool := s.hand.pool.(callers := [NewCaller(room).(pc := H.Left)])))
  {
    CheckMovesBoth(s, 0);
    s', longer := Go(s, n, moves, ThreadAct(0));
    assert s'.registry.threads == [L.RoomThread(room, L.LeftLoop)];
    assert s'.hand.pool.callers == [NewCaller(room).(pc := H.Left)];
  }

  /** It announces its end. */
  lemma ThreadEnds(s: System, n: nat, moves: seq<Move>, room: Key) returns (s': System, longer: seq<Move>)
    requires Reachable(s, n, moves) && s.registry.threads == [L.RoomThread(room, L.LeftLoop)]
    requires |s.hand.pool.callers| == 1 && s.registry.completedMutex == None
    ensures Reachable(s', n, longer) && s'.registry.threads == [L.RoomThread(room, L.Ended)]
    ensures s' == s.(registry := s'.registry)
  {
    s', longer := Go(s, n, moves, ThreadAct(0));
    assert s'.registry.threads == [L.RoomThread(room, L.Announcing)];
    s', longer := Go(s', n, longer, ThreadAct(0));
    assert s'.registry.threads == [L.RoomThread(room, L.Announced)];
    s', longer := Go(s', n, longer, ThreadAct(0));
    assert s'.registry.threads == [L.RoomThread(room, L.Ended)];
  }

  /** A moon creates its room, closes, and returns after the room's thread has seen that the room is gone and before
      it has said so: the room exists, its moon is registered, and its only thread has ended. */
  lemma RecreatedRoomStaysWithoutThread(room: Key, h: int, limit: int, n: nat)
    requires |room| == HASH_LENGTH && room != EMPTY_KEY
    ensures exists s, moves ::
              && Reachable(s, n, moves) && OneMoon(s, h, room)
              && s.registry.threads == [L.RoomThread(room, L.Ended)]
              && |s.hand.pool.callers| == 1 && s.hand.pool.callers[0].pc.Left?
  {
    var s, moves := MoonArrives(Initial(n), n, [], room, h, limit);
    assert s.registry.threads == [L.RoomThread(room, L.Looping)] && s.hand.pool.callers == [NewCaller(room)];
    s, moves := MoonLeaves(s, n, moves, room, h);
    s, moves := ThreadLeaves(s, n, moves, room);
    s, moves := MoonArrives(s, n, moves, room, h, limit);
    assert s.registry.threads == [L.RoomThread(room, L.LeftLoop)];
    s, moves := ThreadEnds(s, n, moves, room);
    assert Reachable(s, n, moves) && OneMoon(s, h, room);
  }

  // ---------- an overflow ----------

  const ONE_WORKER: nat := 1
  const FIRST_JOB := H.Job(0, 1, 0)
  const SEARCHING := H.Search(0)
  const ACQUIRING := H.AcquireController(0)
  const WRITING_TASK := H.SetTask(0)
  const WRITING_DONE := H.SetDone(0)
  const WAKING := H.Wake(0)
  const THREAD_STEP := H.CallerAct(0)
  const WORKER_STEP := H.WorkerAct(0)

  function Repeat(p: Packet, n: nat): seq<Packet> {
    if n == 0 then [] else Repeat(p, n - 1) + [p]
  }

  lemma OwedAppend(front: seq<Packet>, p: Packet, identifier: int)
    requires p.identifier != identifier
    ensures Owed(front + [p], identifier) == Owed(front, identifier) + Payload(p)
  {
    assert (front + [p])[..|front + [p]| - 1] == front;
  }

  lemma {:induction false} OwedRepeat(front: seq<Packet>, p: Packet, n: nat, identifier: int)
    requires p.identifier != identifier && p.length == MAX_PACKET_SIZE
    ensures |Owed(front + Repeat(p, n), identifier)| >= n * MAX_PACKET_SIZE
  {
    if n == 0 {
    } else {
      var shorter := front + Repeat(p, n - 1);
      OwedRepeat(front, p, n - 1, identifier);
      assert Owed(front + Repeat(p, n), identifier) == Owed(shorter, identifier) + Payload(p) by {
        OwedAppend(shorter, p, identifier);
        assert front + Repeat(p, n) == shorter + [p];
      }
    }
  }

  const MOON_ID := 65534
  const PLAYER_ID := 65533

  /** The moon's own first message leaves an empty packet and its member entry. */
  lemma MoonStoresPacket(s: M.Server, h: int, room: Key, limit: int)
    requires s.ids == map[] && s.reserved == [] && s.rooms.packets == map[]
    requires |room| == HASH_LENGTH && room != EMPTY_KEY
    ensures var s' := M.Message(M.Open(s, h), h, room, room, limit).0;
            && s'.ids == map[h := MOON_ID] && s'.reserved == [MOON_ID]
            && s'.rooms.packets == map[room := [M.PacketOf(MOON_ID, room)]]
            && H.Get(s'.rooms.handles, room) == [Connection(MOON_ID, h)]
  {
    OpenIntoNothing(s, h);
    assert room[..HASH_LENGTH] == room;
    var p := M.PacketOf(MOON_ID, room);
    assert [] + [p] == [p];
    assert M.Message(M.Open(s, h), h, room, room, limit).0.rooms == WithPacket(WithRoom(s.rooms, room), room, p, h);
  }

  lemma PlayerOpens(s: M.Server, h: int)
    requires s.reserved == [MOON_ID] && h !in s.ids
    ensures M.Open(s, h) == s.(ids := s.ids[h := PLAYER_ID], reserved := [MOON_ID, PLAYER_ID])
  {
    assert MOON_ID in s.reserved && PLAYER_ID !in s.reserved;
  }

  predicate PlayerMayFill(s: M.Server, h: int, room: Key, first: Connection, message: string) {
    && h in s.ids && s.ids[h] == PLAYER_ID && first.identifier != PLAYER_ID
    && room != EMPTY_KEY && room in s.rooms.packets && room in s.rooms.handles
    && (s.rooms.handles[room] == [first] || s.rooms.handles[room] == [first, Connection(PLAYER_ID, h)])
    && |message| == HASH_LENGTH + MAX_PACKET_SIZE && message[..HASH_LENGTH] != room
  }

  lemma PlayerStoresPacket(s: M.Server, h: int, room: Key, first: Connection, message: string, limit: int)
    requires PlayerMayFill(s, h, room, first, message) && limit >= 2
    ensures var s' := M.Message(s, h, message, room, limit).0; var p := M.PacketOf(PLAYER_ID, message);
            && PlayerMayFill(s', h, room, first, message)
            && s'.rooms.packets[room] == s.rooms.packets[room] + [p]
            && s'.rooms.handles[room] == [first, Connection(PLAYER_ID, h)]
  {
    var members := s.rooms.handles[room];
    assert members[0] == first;
    assert [first, Connection(PLAYER_ID, h)][1].identifier == PLAYER_ID;
  }

  const WAITING_WORKER :=
    H.Worker(H.Await, false, true, None, None, false, H.Alive, None)

  function WaitingSystem(): System {
    Initial(ONE_WORKER).(
      hand := H.Initial(ONE_WORKER).(pool := H.Initial(ONE_WORKER).pool.(workers := [WAITING_WORKER])))
  }

  /** The only worker offers itself. */
  lemma WorkerWaits() returns (s: System, moves: seq<Move>)
    ensures Reachable(s, ONE_WORKER, moves) && s == WaitingSystem()
  {
    s, moves := Go(Initial(ONE_WORKER), ONE_WORKER, [], WorkerAct(0));
    s, moves := Go(s, ONE_WORKER, moves, WorkerAct(0));
    s, moves := Go(s, ONE_WORKER, moves, WorkerAct(0));
    s, moves := Go(s, ONE_WORKER, moves, WorkerAct(0));
    assert s.hand.pool.workers == [WAITING_WORKER];
  }

  /** One worker, one room thread at the head of its loop. */
  predicate Ready(s: System, room: Key) {
    && s.hand.pool == H.Initial(ONE_WORKER).pool.(workers := [WAITING_WORKER], callers := [NewCaller(room)])
    && s.registry.threads == [L.RoomThread(room, L.Looping)] && Quiet(s.registry) && s.todo == []
  }

  lemma PlayerArrives(room: Key, moon: int, player: int, limit: int) returns (s: System, moves: seq<Move>)
    requires |room| == HASH_LENGTH && room != EMPTY_KEY && moon != player
    ensures Reachable(s, ONE_WORKER, moves) && Ready(s, room) && player in s.ids && s.ids[player] == PLAYER_ID
    ensures s.hand.rooms.packets == map[room := [M.PacketOf(MOON_ID, room)]]
    ensures H.Get(s.hand.rooms.handles, room) == [Connection(MOON_ID, moon)]
  {
    var w;
    w, moves := WorkerWaits();
    s, moves := MoonArrives(w, ONE_WORKER, moves, room, moon, limit);
    MoonStoresPacket(View(w), moon, room, limit);
    PlayerOpens(View(s), player);
    s, moves := EventRuns(s, ONE_WORKER, moves, M.Opened(player));
  }

  lemma PlayerSends(s: System, moves: seq<Move>, room: Key, first: Connection, player: int, message: string, limit: int)
      returns (s': System, longer: seq<Move>)
    requires Reachable(s, ONE_WORKER, moves) && Ready(s, room) && limit >= 2
    requires PlayerMayFill(View(s), player, room, first, message)
    ensures Reachable(s', ONE_WORKER, longer) && Ready(s', room)
    ensures PlayerMayFill(View(s'), player, room, first, message)
    ensures s'.hand.rooms.packets[room] == s.hand.rooms.packets[room] + [M.PacketOf(PLAYER_ID, message)]
    ensures s'.hand.rooms.handles[room] == [first, Connection(PLAYER_ID, player)]
  {
    PlayerStoresPacket(View(s), player, room, first, message, limit);
    s', longer := EventRuns(s, ONE_WORKER, moves, M.Received(player, message, room, limit));
  }

  /** k messages of the player are pending behind the moon's. */
  lemma {:induction false} PlayerFills(room: Key, moon: int, player: int, message: string, limit: int, k: nat)
      returns (s: System, moves: seq<Move>)
    requires |room| == HASH_LENGTH && room != EMPTY_KEY && moon != player && limit >= 2
    requires |message| == HASH_LENGTH + MAX_PACKET_SIZE && message[..HASH_LENGTH] != room
    ensures Reachable(s, ONE_WORKER, moves) && Ready(s, room)
    ensures PlayerMayFill(View(s), player, room, Connection(MOON_ID, moon), message)
    ensures s.hand.rooms.packets[room] == Filled(M.PacketOf(MOON_ID, room), M.PacketOf(PLAYER_ID, message), k)
    decreases k
  {
    FilledGrows(M.PacketOf(MOON_ID, room), M.PacketOf(PLAYER_ID, message), k);
    if k == 0 {
      s, moves := PlayerArrives(room, moon, player, limit);
      assert PlayerMayFill(View(s), player, room, Connection(MOON_ID, moon), message);
    } else {
      s, moves := PlayerFills(room, moon, player, message, limit, k - 1);
      s, moves := PlayerSends(s, moves, room, Connection(MOON_ID, moon), player, message, limit);
    }
  }

  function Filled(first: Packet, p: Packet, k: nat): seq<Packet> {
    [first] + Repeat(p, k)
  }

  lemma FilledGrows(first: Packet, p: Packet, k: nat)
    ensures Filled(first, p, k) == if k == 0 then [first] else Filled(first, p, k - 1) + [p]
  {
  }

  /** The only room thread in a tick. */
  function Ticking(pc: H.CallerPc, room: Key, members: seq<Connection>, batch: seq<Packet>): H.Caller {
    H.Caller(pc, room, batch, members, [], [H.Tick(batch, members)], [])
  }

  /** A step of the room thread inside its loop, and of a worker. */
  lemma ThreadGoes(s: System, moves: seq<Move>, a: H.Action) returns (s': System, longer: seq<Move>)
    requires Reachable(s, ONE_WORKER, moves) && (a == THREAD_STEP || a == WORKER_STEP) && H.Step(s.hand, a).Some?
    requires a.CallerAct? ==> |s.registry.threads| == 1 && s.registry.threads[0].pc.Looping?
                              && |s.hand.pool.callers| == 1 && !s.hand.pool.callers[0].pc.CheckRoom?
    ensures Reachable(s', ONE_WORKER, longer) && s' == s.(hand := H.Step(s.hand, a).value)
  {
    s', longer := Go(s, ONE_WORKER, moves, if a.CallerAct? then ThreadAct(0) else WorkerAct(0));
  }

  /** The room thread takes the batch and the members. */
  lemma TickStarts(s: System, moves: seq<Move>, room: Key) returns (s': System, longer: seq<Move>)
    requires Reachable(s, ONE_WORKER, moves) && Ready(s, room)
    requires room in s.hand.rooms.packets && s.hand.rooms.packets[room] != []
    ensures Reachable(s', ONE_WORKER, longer) && s'.registry.threads == [L.RoomThread(room, L.Looping)]
    ensures var members := H.Get(s.hand.rooms.handles, room);
            s'.hand.pool == s.hand.pool.(callers := [Ticking(H.Fan, room, members, s.hand.rooms.packets[room])])
  {
    var batch, members := s.hand.rooms.packets[room], H.Get(s.hand.rooms.handles, room);
    CheckMovesBoth(s, 0);
    s', longer := Go(s, ONE_WORKER, moves, ThreadAct(0));
    assert s'.hand.pool.callers == [NewCaller(room).(pc := H.Drain)] && s'.hand.rooms == s.hand.rooms;
    assert s'.registry.threads == [L.RoomThread(room, L.Looping)];
    s', longer := ThreadGoes(s', longer, THREAD_STEP);
    assert s'.hand.pool.callers == [NewCaller(room).(pc := H.Snapshot, packets := batch)];
    s', longer := ThreadGoes(s', longer, THREAD_STEP);
    assert s'.hand.pool.callers[0].ticks == [H.Tick(batch, members)];
    assert s'.hand.pool.callers == [Ticking(H.Fan, room, members, batch)];
  }

  const CLAIMED_WORKER := WAITING_WORKER.(threadLocked := true, claimant := Some(0))

  /** It finds the worker. */
  lemma WorkerIsClaimed(s: System, moves: seq<Move>, room: Key, members: seq<Connection>, batch: seq<Packet>)
      returns (s': System, longer: seq<Move>)
    requires Reachable(s, ONE_WORKER, moves) && s.registry.threads == [L.RoomThread(room, L.Looping)] && members != []
    requires s.hand.pool == H.Initial(ONE_WORKER).pool.(workers := [WAITING_WORKER],
                                               callers := [Ticking(H.Fan, room, members, batch)])
    ensures Reachable(s', ONE_WORKER, longer) && s'.registry == s.registry && s'.hand.pool.workers == [CLAIMED_WORKER]
    ensures s'.hand.pool.callers == [Ticking(ACQUIRING, room, members, batch)]
    ensures s'.hand.pool.locks == map[FIRST_JOB := false]
  {
    s', longer := ThreadGoes(s, moves, THREAD_STEP);
    assert s'.hand.pool.callers == [Ticking(SEARCHING, room, members, batch)];
    assert s'.hand.pool.workers == [WAITING_WORKER];
    s', longer := ThreadGoes(s', longer, THREAD_STEP);
    assert s'.hand.pool.workers == [CLAIMED_WORKER];
    assert s'.hand.pool.callers == [Ticking(ACQUIRING, room, members, batch)];
  }

  /** It writes the first job into the worker. */
  lemma JobIsAssigned(s: System, moves: seq<Move>, room: Key, members: seq<Connection>, batch: seq<Packet>)
      returns (s': System, longer: seq<Move>)
    requires Reachable(s, ONE_WORKER, moves) && s.registry.threads == [L.RoomThread(room, L.Looping)] && members != []
    requires s.hand.pool.workers == [CLAIMED_WORKER] && s.hand.pool.locks == map[FIRST_JOB := false]
    requires s.hand.pool.callers == [Ticking(ACQUIRING, room, members, batch)]
    ensures Reachable(s', ONE_WORKER, longer) && s'.registry == s.registry
    ensures s'.hand.pool.callers == [Ticking(WRITING_DONE, room, members, batch)]
    ensures s'.hand.pool.workers == [CLAIMED_WORKER.(task := Some(FIRST_JOB))]
  {
    s', longer := ThreadGoes(s, moves, THREAD_STEP);
    assert s'.hand.pool.callers == [Ticking(WRITING_TASK, room, members, batch)];
    assert s'.hand.pool.workers == [CLAIMED_WORKER];
    s', longer := ThreadGoes(s', longer, THREAD_STEP);
    assert s'.hand.pool.callers == [Ticking(WRITING_DONE, room, members, batch)];
    assert s'.hand.pool.workers == [CLAIMED_WORKER.(task := Some(FIRST_JOB))];
  }

  lemma JobIsComplete(s: System, moves: seq<Move>, room: Key, members: seq<Connection>, batch: seq<Packet>)
      returns (s': System, longer: seq<Move>)
    requires Reachable(s, ONE_WORKER, moves) && s.registry.threads == [L.RoomThread(room, L.Looping)] && members != []
    requires s.hand.pool.workers == [CLAIMED_WORKER.(task := Some(FIRST_JOB))]
    requires s.hand.pool.callers == [Ticking(WRITING_DONE, room, members, batch)]
    ensures Reachable(s', ONE_WORKER, longer) && s'.registry == s.registry
    ensures s'.hand.pool.callers == [Ticking(WAKING, room, members, batch)]
    ensures var j := Some(FIRST_JOB); s'.hand.pool.workers == [CLAIMED_WORKER.(task := j, done := j)]
  {
    s', longer := ThreadGoes(s, moves, THREAD_STEP);
    assert s'.hand.pool.callers == [Ticking(WAKING, room, members, batch)];
    assert s'.hand.pool.workers == [CLAIMED_WORKER.(task := Some(FIRST_JOB), done := Some(FIRST_JOB))];
  }

  /** It hands the job over. */
  lemma JobStarts(s: System, moves: seq<Move>, room: Key, members: seq<Connection>, batch: seq<Packet>)
      returns (s': System, longer: seq<Move>)
    requires Reachable(s, ONE_WORKER, moves) && s.registry.threads == [L.RoomThread(room, L.Looping)] && members != []
    requires var j := Some(FIRST_JOB); s.hand.pool.workers == [CLAIMED_WORKER.(task := j, done := j)]
    requires s.hand.pool.callers == [Ticking(WAKING, room, members, batch)]
    ensures Reachable(s', ONE_WORKER, longer) && |s'.hand.pool.callers| == 1
    ensures var j := Some(FIRST_JOB);
            s'.hand.pool.workers == [H.Worker(H.Await, true, false, j, j, false, H.Alive, None)]
    ensures s'.hand.pool.callers[0].packets == batch && s'.hand.pool.callers[0].connections == members
  {
    s', longer := ThreadGoes(s, moves, THREAD_STEP);
  }

  /** The worker counts more than an int holds. */
  lemma JobOverflows(s: System, moves: seq<Move>, m: Connection) returns (s': System, longer: seq<Move>)
    requires Reachable(s, ONE_WORKER, moves) && |s.hand.pool.callers| == 1
    requires |s.hand.pool.callers[0].connections| > 0 && s.hand.pool.callers[0].connections[0] == m
    requires var j := Some(FIRST_JOB);
             s.hand.pool.workers == [H.Worker(H.Await, true, false, j, j, false, H.Alive, None)]
    requires |Owed(s.hand.pool.callers[0].packets, m.identifier)| > INT_MAX
    ensures Reachable(s', ONE_WORKER, longer) && !Defined(s'.hand.pool)
  {
    var worker := s.hand.pool.workers[0];
    s', longer := ThreadGoes(s, moves, WORKER_STEP);
    assert s'.hand.pool.workers == [worker.(runningLocked := true, pc := H.ExitTest)];
    s', longer := ThreadGoes(s', longer, WORKER_STEP);
    assert s'.hand.pool.workers == [worker.(runningLocked := true, pc := H.Count)];
    assert s'.hand.pool.callers == s.hand.pool.callers;
    s', longer := ThreadGoes(s', longer, WORKER_STEP);
    assert s'.hand.pool.workers[0].pc.Crashed?;
  }

  /** One moon, one player and 131072 messages of the largest size before the room thread's first tick: the moon's job
      overflows its counter. */
  lemma OverflowIsReachable(room: Key, moon: int, player: int, message: string, limit: int)
    requires |room| == HASH_LENGTH && room != EMPTY_KEY && moon != player && limit >= 2
    requires |message| == HASH_LENGTH + MAX_PACKET_SIZE && message[..HASH_LENGTH] != room
    ensures exists s, moves :: Reachable(s, ONE_WORKER, moves) && !Defined(s.hand.pool)
  {
    var p := M.PacketOf(PLAYER_ID, message);
    var s, moves := PlayerFills(room, moon, player, message, limit, 131072);
    var batch, members := s.hand.rooms.packets[room], H.Get(s.hand.rooms.handles, room);
    assert |Owed(batch, MOON_ID)| > INT_MAX by {
      OwedRepeat([M.PacketOf(MOON_ID, room)], p, 131072, MOON_ID);
    }
    assert members[0] == Connection(MOON_ID, moon);
    s, moves := TickStarts(s, moves, room);
    s, moves := WorkerIsClaimed(s, moves, room, members, batch);
    s, moves := JobIsAssigned(s, moves, room, members, batch);
    s, moves := JobIsComplete(s, moves, room, members, batch);
    s, moves := JobStarts(s, moves, room, members, batch);
    s, moves := JobOverflows(s, moves, members[0]);
  }
}
