/** What members are sent, in terms of the messages that the handlers accepted. */
module RelayEndToEnd {
  import opened RelayTypes
  import opened RelaySystem
  import opened RelaySystemTheorems
  import opened RelayServerTheorems
  import opened HandOffInvariant
  import opened HandOffDelivery
  import opened HandOffTheorems
  import opened HandOffOverflow
  import opened PacketAccumulation
  import opened MoonKeys
  import H = HandOff
  import M = RelayServerModel

  // ---------- interleaved handlers compute the handlers ----------

  /** The accumulator after one item, if nobody interferes. */
  function After(rooms: H.Rooms, item: Todo): H.Rooms {
    if SectionOf(item).Some? then H.Section(rooms, SectionOf(item).value) else rooms
  }

  /** No item brings more work than it is. */
  function Weight(item: Todo): nat {
    match item
    case AskRoom(_) => 8
    case AskCount(_) => 4
    case CreatePackets(_) => 3
    case AppendPacket(_) => 2
    case ErasePackets(_) => 2
    case _ => 1
  }

  function Work(todo: seq<Todo>): nat {
    if todo == [] then 0 else Weight(todo[0]) + Work(todo[1..])
  }

  lemma {:induction false} WorkConcat(a: seq<Todo>, b: seq<Todo>)
    ensures Work(a + b) == Work(a) + Work(b)
  {
    if a == [] {
      assert a + b == b;
    } else {
      assert (a + b)[1..] == a[1..] + b;
      WorkConcat(a[1..], b);
    }
  }

  lemma NextIsLess(rooms: H.Rooms, item: Todo)
    ensures Work(Next(rooms, item)) < Weight(item)
  {
    var next := Next(rooms, item);
    if |next| == 1 {
      WorkOfOne(next[0]);
      assert next == [next[0]];
    } else if |next| == 2 {
      assert next == [next[0]] + [next[1]];
      WorkConcat([next[0]], [next[1]]);
      WorkOfOne(next[0]);
      WorkOfOne(next[1]);
    }
  }

  lemma WorkOfOne(item: Todo)
    ensures Work([item]) == Weight(item)
  {
    assert [item][1..] == [];
  }

  lemma StepIsLess(rooms: H.Rooms, todo: seq<Todo>)
    requires todo != []
    ensures Work(Next(rooms, todo[0]) + todo[1..]) < Work(todo)
  {
    NextIsLess(rooms, todo[0]);
    WorkConcat(Next(rooms, todo[0]), todo[1..]);
  }

  /** The accumulator once the handler has finished, if nobody interferes. */
  function Perform(rooms: H.Rooms, todo: seq<Todo>): H.Rooms
    decreases Work(todo)
  {
    if todo == [] then rooms
    else
      StepIsLess(rooms, todo);
      Perform(After(rooms, todo[0]), Next(rooms, todo[0]) + todo[1..])
  }

  lemma {:induction false} PerformConcat(rooms: H.Rooms, a: seq<Todo>, b: seq<Todo>)
    ensures Perform(rooms, a + b) == Perform(Perform(rooms, a), b)
    decreases Work(a)
  {
    if a == [] {
      assert a + b == b;
    } else {
      var next := Next(rooms, a[0]);
      assert (a + b)[1..] == a[1..] + b && next + (a[1..] + b) == (next + a[1..]) + b;
      StepIsLess(rooms, a);
      PerformConcat(After(rooms, a[0]), next + a[1..], b);
    }
  }

  lemma PerformOne(rooms: H.Rooms, item: Todo)
    ensures Perform(rooms, [item]) == Perform(After(rooms, item), Next(rooms, item))
  {
    assert Next(rooms, item) + [item][1..] == Next(rooms, item);
  }

  /** An item after which there is nothing more to do. */
  lemma PerformLast(rooms: H.Rooms, item: Todo)
    requires Next(rooms, item) == []
    ensures Perform(rooms, [item]) == After(rooms, item)
  {
    PerformOne(rooms, item);
  }

  lemma PerformTwo(rooms: H.Rooms, a: Todo, b: Todo)
    ensures Perform(rooms, [a, b]) == Perform(Perform(rooms, [a]), [b])
  {
    assert [a, b] == [a] + [b];
    PerformConcat(rooms, [a], [b]);
  }

  lemma ErasingRemovesRoom(rooms: H.Rooms, room: Key)
    ensures Perform(rooms, [ErasePackets(room)]) == WithoutRoom(rooms, room)
  {
    PerformOne(rooms, ErasePackets(room));
    PerformLast(After(rooms, ErasePackets(room)), EraseHandles(room));
  }

  lemma CreatingAddsRoom(rooms: H.Rooms, room: Key)
    ensures Perform(rooms, [CreatePackets(room)]) == WithRoom(rooms, room)
  {
    PerformOne(rooms, CreatePackets(room));
    if room !in rooms.packets {
      var once := After(rooms, CreatePackets(room));
      PerformTwo(once, CreateHandles(room), StartThread(room));
      PerformLast(once, CreateHandles(room));
      PerformLast(After(once, CreateHandles(room)), StartThread(room));
    }
  }

  lemma AppendingAddsPacket(rooms: H.Rooms, q: Request)
    requires HASH_LENGTH <= |q.message| <= HASH_LENGTH + MAX_PACKET_SIZE
    ensures Perform(rooms, [AppendPacket(q)]) == WithPacket(rooms, q.room, M.PacketOf(q.id, q.message), q.h)
  {
    PerformOne(rooms, AppendPacket(q));
    PerformLast(After(rooms, AppendPacket(q)), EnrollMember(q));
  }

  /** What a message does once its room is settled. */
  function Counted(rooms: H.Rooms, q: Request): H.Rooms
    requires |q.message| >= HASH_LENGTH
  {
    if |q.message| > HASH_LENGTH + MAX_PACKET_SIZE then rooms
    else if !FromMoon(q) && CountOthers(H.Get(rooms.handles, q.room), q.id) >= q.limit then rooms
    else WithPacket(rooms, q.room, M.PacketOf(q.id, q.message), q.h)
  }

  lemma CountingDecides(rooms: H.Rooms, q: Request)
    requires |q.message| >= HASH_LENGTH
    ensures Perform(rooms, [AskCount(q)]) == Counted(rooms, q)
  {
    PerformOne(rooms, AskCount(q));
    if Next(rooms, AskCount(q)) != [] {
      AppendingAddsPacket(rooms, q);
    }
  }

  lemma AskingDecides(rooms: H.Rooms, q: Request)
    requires |q.message| >= HASH_LENGTH
    ensures Perform(rooms, [AskRoom(q)])
         == if FromMoon(q) then Counted(WithRoom(rooms, q.room), q)
            else if q.room in rooms.packets then Counted(rooms, q) else rooms
  {
    PerformOne(rooms, AskRoom(q));
    if q.room in rooms.packets {
      CountingDecides(rooms, q);
    } else if FromMoon(q) {
      PerformTwo(rooms, CreatePackets(q.room), AskCount(q));
      CreatingAddsRoom(rooms, q.room);
      CountingDecides(WithRoom(rooms, q.room), q);
    }
  }

  /** A handler's steps, run in order with their readings, are the handler. */
  lemma PlanIsHandler(s: M.Server, e: M.Event)
    requires !e.Ticked?
    ensures Perform(s.rooms, Plan(s, e)) == M.Apply(s, e).rooms
  {
    match e
    case Opened(_) =>
    case Closed(h) => PlanIsClose(s, h);
    case Received(h, message, room, limit) => PlanIsMessage(s, h, message, room, limit);
  }

  lemma PlanIsClose(s: M.Server, h: int)
    ensures Perform(s.rooms, Plan(s, M.Closed(h))) == M.Close(s, h).rooms
  {
    var id := M.IdOf(s, h);
    var left := M.LeaveAsMoon(s, id).rooms;
    if id in s.moons && !M.HasMoon(s.moons - {id}, s.moons[id]) {
      var room := s.moons[id];
      assert Plan(s, M.Closed(h)) == [ErasePackets(room), Withdraw(id)];
      PerformTwo(s.rooms, ErasePackets(room), Withdraw(id));
      ErasingRemovesRoom(s.rooms, room);
    } else {
      assert Plan(s, M.Closed(h)) == [Withdraw(id)];
    }
    PerformLast(left, Withdraw(id));
  }

  lemma PlanIsMessage(s: M.Server, h: int, message: string, room: Key, limit: int)
    ensures Perform(s.rooms, Plan(s, M.Received(h, message, room, limit)))
         == M.Message(s, h, message, room, limit).0.rooms
  {
    var q := Request(M.IdOf(s, h), h, message, room, limit);
    if q.id != 0 && |message| >= HASH_LENGTH && room != EMPTY_KEY {
      AskingDecides(s.rooms, q);
    }
  }

  /** What room threads take makes no difference to what a handler reads. */
  lemma NextIgnoresPending(a: H.Rooms, b: H.Rooms, item: Todo)
    requires SameButPending(a, b)
    ensures Next(a, item) == Next(b, item) && SameButPending(After(a, item), After(b, item))
  {
    if SectionOf(item).Some? {
      TicksAreInvisible(a, b, SectionOf(item).value, EMPTY_KEY, 0);
    }
  }

  /** Nor to what it will have done. */
  lemma {:induction false} PerformIgnoresPending(a: H.Rooms, b: H.Rooms, todo: seq<Todo>)
    requires SameButPending(a, b)
    ensures SameButPending(Perform(a, todo), Perform(b, todo))
    decreases Work(todo)
  {
    if todo == [] {
    } else {
      NextIgnoresPending(a, b, todo[0]);
      StepIsLess(a, todo);
      PerformIgnoresPending(After(a, todo[0]), After(b, todo[0]), Next(a, todo[0]) + todo[1..]);
    }
  }

  /** The websocket side once the running handler has finished. */
  function Finished(s: System): M.Server {
    View(s).(rooms := Perform(s.hand.rooms, s.todo))
  }

  /** It is what the handlers compute one after another, up to what room threads have taken. */
  ghost predicate Agrees(s: System) {
    && FreshRun(s.events)
    && SameServerButPending(Finished(s), M.Run(M.INITIAL, s.events))
  }

  lemma FreshExtends(events: seq<M.Event>, e: M.Event)
    requires FreshRun(events) && Fresh(M.Run(M.INITIAL, events), e)
    ensures FreshRun(events + [e])
  {
    forall i | 0 <= i < |events + [e]|
      ensures Fresh(M.Run(M.INITIAL, (events + [e])[..i]), (events + [e])[i])
    {
      assert (events + [e])[..i] == events[..i];
    }
  }

  lemma BeginAgrees(s: System, e: M.Event)
    requires Agrees(s) && BeginStep(s, e).Some?
    ensures Agrees(BeginStep(s, e).value)
  {
    PlanIsHandler(View(s), e);
    assert Finished(s) == View(s);
    HandlersIgnorePending(View(s), M.Run(M.INITIAL, s.events), e);
    FreshExtends(s.events, e);
    RunExtends(M.INITIAL, s.events, e);
  }

  lemma QuietAgrees(s: System, s': System)
    requires Agrees(s) && SameButPending(s'.hand.rooms, s.hand.rooms) && s'.todo == s.todo && s'.events == s.events
    requires s'.ids == s.ids && s'.reserved == s.reserved && s'.moons == s.moons && s'.players == s.players
    ensures Agrees(s')
  {
    PerformIgnoresPending(s'.hand.rooms, s.hand.rooms, s.todo);
  }

  lemma HandleAgrees(s: System)
    requires Agrees(s) && s.todo != [] && HandleStep(s).Some?
    ensures Agrees(HandleStep(s).value)
  {
    assert HandleStep(s).value.hand.rooms == After(s.hand.rooms, s.todo[0]);
  }

  /** Steps of workers and room threads leave the accumulator alone but for pending packets. */
  lemma ThreadsOnlyTake(hand: H.State, a: H.Action)
    requires H.Step(hand, a).Some? && (a.CallerAct? || a.WorkerAct? || a.DestructorAct? || a.Spawn?)
    ensures SameButPending(H.Step(hand, a).value.rooms, hand.rooms)
  {
    if a.CallerAct? && hand.pool.callers[a.c].pc.Drain? {
      var room := hand.pool.callers[a.c].room;
      assert room in hand.rooms.packets || H.Get(hand.rooms.packets, room) == [];
    }
  }

  lemma StepAgrees(s: System, move: Move)
    requires Agrees(s) && Step(s, move).Some?
    ensures Agrees(Step(s, move).value)
  {
    if move.Begin? {
      BeginAgrees(s, move.e);
    } else if move.Handle? {
      HandleAgrees(s);
    } else {
      OthersOnlyTake(s, move);
      QuietAgrees(s, Step(s, move).value);
    }
  }

  lemma OthersOnlyTake(s: System, move: Move)
    requires Step(s, move).Some? && !move.Begin? && !move.Handle?
    ensures var s' := Step(s, move).value;
            && SameButPending(s'.hand.rooms, s.hand.rooms) && s'.todo == s.todo && s'.events == s.events
            && s'.ids == s.ids && s'.reserved == s.reserved && s'.moons == s.moons && s'.players == s.players
  {
    if move.ThreadAct? && H.Step(s.hand, H.CallerAct(move.t)).Some? {
      ThreadsOnlyTake(s.hand, H.CallerAct(move.t));
    } else if move.WorkerAct? {
      ThreadsOnlyTake(s.hand, H.WorkerAct(move.w));
    } else if move.DestructorAct? {
      ThreadsOnlyTake(s.hand, H.DestructorAct(move.w));
    }
  }

  /** At every moment of every interleaving, finishing the running handler gives what the handlers compute one after
      another from the events so far; so everything proved of those runs holds between handlers. */
  lemma {:induction false} ReachableAgrees(s: System, workerCount: nat, moves: seq<Move>)
    requires Reachable(s, workerCount, moves)
    ensures Agrees(s)
    decreases |moves|
  {
    if moves == [] {
    } else {
      var t := Run(Initial(workerCount), moves[..|moves| - 1]).value;
      ReachableAgrees(t, workerCount, moves[..|moves| - 1]);
      StepAgrees(t, moves[|moves| - 1]);
    }
  }

  /** In particular the five collections are consistent between handlers, whatever the room threads do meanwhile. */
  lemma ConsistentBetweenHandlers(s: System, workerCount: nat, moves: seq<Move>)
    requires Reachable(s, workerCount, moves) && s.todo == []
    ensures Consistent(View(s))
  {
    ReachableAgrees(s, workerCount, moves);
    RunsStayConsistent(s.events);
    assert Finished(s) == View(s);
  }

  /** When no connection sends two moon keys, the rooms between handlers are those of the registered moons. */
  lemma MoonRoomsBetweenHandlers(s: System, workerCount: nat, moves: seq<Move>)
    requires Reachable(s, workerCount, moves) && s.todo == [] && OneMoonKeyEach(s.events)
    ensures RoomsAreMoonRooms(View(s))
  {
    ReachableAgrees(s, workerCount, moves);
    OneMoonKeyEachMatchesRooms(s.events);
    assert Finished(s) == View(s);
  }

  /** The player cap holds between handlers. */
  lemma PlayerCapBetweenHandlers(s: System, workerCount: nat, moves: seq<Move>, room: Key, limit: nat)
    requires Reachable(s, workerCount, moves) && s.todo == []
    requires forall i :: 0 <= i < |s.events| && s.events[i].Received? && s.events[i].room == room ==>
               s.events[i].limit == limit
    ensures WithinCap(View(s), room, limit)
    ensures var members := H.Get(s.hand.rooms.handles, room);
            |members| <= limit + MoonCount(members, room, s.players)
  {
    ReachableAgrees(s, workerCount, moves);
    RunsKeepPlayerCap(s.events, room, limit);
    assert Finished(s) == View(s);
  }

  // ---------- accepted packets are accepted messages ----------

  /** The messages accepted for a room, in order: the sender's identifier and what follows the key. */
  function Messages(events: seq<M.Event>, room: Key): seq<(int, string)> {
    if events == [] then []
    else
      var front, e := events[..|events| - 1], events[|events| - 1];
      Messages(front, room) + MessageOf(M.Run(M.INITIAL, front), e, room)
  }

  function MessageOf(s: M.Server, e: M.Event, room: Key): seq<(int, string)> {
    if e.Received? && e.room == room && |e.message| >= HASH_LENGTH
       && M.Message(s, e.h, e.message, e.room, e.limit).1 == M.Accepted
    then [(M.IdOf(s, e.h), e.message[HASH_LENGTH..])] else []
  }

  predicate Carries(packets: seq<Packet>, messages: seq<(int, string)>) {
    && |packets| == |messages|
    && forall i :: 0 <= i < |packets| ==> packets[i].identifier == messages[i].0 && Payload(packets[i]) == messages[i].1
  }

  /** What one event adds to the accepted packets of a room. */
  lemma ApplyAccepts(s: M.Server, e: M.Event, room: Key, messages: seq<(int, string)>)
    requires Carries(H.Get(s.rooms.accepted, room), messages)
    ensures Carries(H.Get(M.Apply(s, e).rooms.accepted, room), messages + MessageOf(s, e, room))
  {
    if MessageOf(s, e, room) == [] {
      NothingAccepted(s, e, room);
      assert messages + [] == messages;
    } else {
      var p := M.PacketOf(M.IdOf(s, e.h), e.message);
      PacketCarriesMessage(M.IdOf(s, e.h), e.message);
      OneAccepted(s, e.h, e.message, room, e.limit);
    }
  }

  lemma OneAccepted(s: M.Server, h: int, message: string, room: Key, limit: int)
    requires |message| >= HASH_LENGTH && M.Message(s, h, message, room, limit).1 == M.Accepted
    ensures |message| <= HASH_LENGTH + MAX_PACKET_SIZE
    ensures H.Get(M.Message(s, h, message, room, limit).0.rooms.accepted, room)
            == H.Get(s.rooms.accepted, room) + [M.PacketOf(M.IdOf(s, h), message)]
  {
    var id := M.IdOf(s, h);
    var t := if room == message[..HASH_LENGTH] then M.Register(s, id, room) else s;
    assert t.rooms.accepted == s.rooms.accepted && room in t.rooms.packets;
    StoreAccepts(t.rooms, room, M.PacketOf(id, message), h);
  }

  lemma StoreAccepts(rooms: H.Rooms, room: Key, p: Packet, h: int)
    requires room in rooms.packets
    ensures H.Get(WithPacket(rooms, room, p, h).accepted, room) == H.Get(rooms.accepted, room) + [p]
  {
  }

  lemma NothingAccepted(s: M.Server, e: M.Event, room: Key)
    requires MessageOf(s, e, room) == []
    ensures H.Get(M.Apply(s, e).rooms.accepted, room) == H.Get(s.rooms.accepted, room)
  {
    match e
    case Opened(_) =>
    case Closed(h) => CloseAcceptsNothing(s, h);
    case Received(h, message, other, limit) => MessageAcceptsElsewhere(s, h, message, other, limit, room);
    case Ticked(_, _) =>
  }

  lemma CloseAcceptsNothing(s: M.Server, h: int)
    ensures M.Close(s, h).rooms.accepted == s.rooms.accepted
  {
    var t := M.LeaveAsMoon(s, M.IdOf(s, h));
    assert t.rooms.accepted == s.rooms.accepted;
  }

  lemma MessageAcceptsElsewhere(s: M.Server, h: int, message: string, other: Key, limit: int, room: Key)
    requires other != room || M.Message(s, h, message, other, limit).1 != M.Accepted
    ensures H.Get(M.Message(s, h, message, other, limit).0.rooms.accepted, room) == H.Get(s.rooms.accepted, room)
  {
    var id := M.IdOf(s, h);
    assert M.Register(s, id, other).rooms.accepted == s.rooms.accepted;
  }

  lemma {:induction false} AcceptedAreMessages(events: seq<M.Event>, room: Key)
    ensures Carries(H.Get(M.Run(M.INITIAL, events).rooms.accepted, room), Messages(events, room))
    decreases |events|
  {
    if events == [] {
    } else {
      var front := events[..|events| - 1];
      AcceptedAreMessages(front, room);
      ApplyAccepts(M.Run(M.INITIAL, front), events[|events| - 1], room, Messages(front, room));
    }
  }

  lemma SectionOnlyAdds(rooms: H.Rooms, a: H.Action, room: Key)
    ensures H.Get(rooms.accepted, room) <= H.Get(H.Section(rooms, a).accepted, room)
  {
  }

  lemma {:induction false} PerformOnlyAdds(rooms: H.Rooms, todo: seq<Todo>, room: Key)
    ensures H.Get(rooms.accepted, room) <= H.Get(Perform(rooms, todo).accepted, room)
    decreases Work(todo)
  {
    if todo == [] {
    } else {
      if SectionOf(todo[0]).Some? {
        SectionOnlyAdds(rooms, SectionOf(todo[0]).value, room);
      }
      StepIsLess(rooms, todo);
      PerformOnlyAdds(After(rooms, todo[0]), Next(rooms, todo[0]) + todo[1..], room);
    }
  }

  /** The packets accepted so far are the first accepted messages, and all of them between handlers. */
  lemma AcceptedSoFar(s: System, workerCount: nat, moves: seq<Move>, room: Key)
    requires Reachable(s, workerCount, moves)
    ensures var accepted, messages := H.Get(s.hand.rooms.accepted, room), Messages(s.events, room);
            && |accepted| <= |messages| && Carries(accepted, messages[..|accepted|])
            && (s.todo == [] ==> |accepted| == |messages|)
  {
    ReachableAgrees(s, workerCount, moves);
    AcceptedAreMessages(s.events, room);
    PerformOnlyAdds(s.hand.rooms, s.todo, room);
  }

  // ---------- the stream of a member ----------

  /** What those messages say that are not the member's own. */
  function Bodies(messages: seq<(int, string)>, identifier: int): string {
    if messages == [] then []
    else
      var (sender, body) := messages[|messages| - 1];
      Bodies(messages[..|messages| - 1], identifier) + (if sender == identifier then [] else body)
  }

  lemma {:induction false} OwedAreBodies(packets: seq<Packet>, messages: seq<(int, string)>, identifier: int)
    requires Carries(packets, messages)
    ensures Owed(packets, identifier) == Bodies(messages, identifier)
  {
    if packets == [] {
    } else {
      OwedAreBodies(packets[..|packets| - 1], messages[..|messages| - 1], identifier);
    }
  }

  lemma StretchIsBodies(accepted: seq<Packet>, messages: seq<(int, string)>, from: nat, to: nat, identifier: int)
    requires from <= to <= |accepted| <= |messages| && Carries(accepted, messages[..|accepted|])
    ensures Flatten(Foreign(accepted[from..to], identifier)) == Bodies(messages[from..to], identifier)
  {
    forall i | from <= i < to
      ensures accepted[i].identifier == messages[i].0 && Payload(accepted[i]) == messages[i].1
    {
      assert messages[..|accepted|][i] == messages[i];
    }
    OwedAreBodies(accepted[from..to], messages[from..to], identifier);
    OwedIsFlattenedForeign(accepted[from..to], identifier);
  }

  /** As long as no tick owes a member more than an int counts, the whole system is free of undefined behaviour. */
  lemma FittingSystemIsDefined(s: System, workerCount: nat, moves: seq<Move>)
    requires Reachable(s, workerCount, moves) && TotalsFit(s.hand.pool)
    ensures Defined(s.hand.pool)
  {
    var actions, registryActions := RunProjects(s, workerCount, moves);
    FittingRunsAreDefined(s.hand, workerCount, actions);
  }

  /** The messages accepted for a room so far. */
  function Heard(s: System, room: Key): seq<(int, string)> {
    Messages(s.events, room)
  }

  /** What the messages of the others between two positions say. */
  function SaidBetween(messages: seq<(int, string)>, from: nat, to: nat, identifier: int): string
    requires from <= to <= |messages|
  {
    Bodies(messages[from..to], identifier)
  }

  /** End to end, over every interleaving of handlers, createRoom, room threads and workers: for any stretch of a
      room's life that thread c drained, and a connection in all its snapshots of that stretch, what the connection
      was sent for it is exactly what the accepted messages of the others say in that stretch, in order. */
  lemma MembersHearTheOthers(s: System, workerCount: nat, moves: seq<Move>, c: nat, m: Connection,
                             past: seq<H.Fate>, life: seq<H.Fate>, rest: seq<H.Fate>) returns (said: string)
    requires Reachable(s, workerCount, moves) && Defined(s.hand.pool) && c < |s.hand.pool.callers|
    requires !Busy(s.hand.pool.callers[c].pc) && !s.hand.pool.callers[c].pc.Snapshot?
    requires H.Get(s.hand.rooms.fates, s.hand.pool.callers[c].room) == past + life + rest
    requires NeverDiscarded(life) && (life != [] ==> life[0].caller == c)
    requires PresentFor(s.hand.pool.callers[c].ticks, m, DrainCount(past, c), |life|)
    ensures SentFor(s.hand.pool.callers[c], m, DrainCount(past, c), |life|, said)
    ensures var room := s.hand.pool.callers[c].room; var messages := Heard(s, room);
            var from, to := PacketCount(past), PacketCount(past) + PacketCount(life);
            && to <= |messages| && said == SaidBetween(messages, from, to, m.identifier)
            && (rest == [] && s.todo == [] ==> to == |messages| - |H.Get(s.hand.rooms.packets, room)|)
  {
    said := DrainedStretchIsSent(s, workerCount, moves, c, m, past, life, rest);
    AcceptedSaysMessages(s, workerCount, moves, s.hand.pool.callers[c].room, PacketCount(past),
                         PacketCount(past) + PacketCount(life), m.identifier, said);
  }

  /** In a stretch of one life the drainer needs no assumption. */
  lemma DrainedStretchIsSent(s: System, workerCount: nat, moves: seq<Move>, c: nat, m: Connection,
                             past: seq<H.Fate>, life: seq<H.Fate>, rest: seq<H.Fate>) returns (said: string)
    requires Reachable(s, workerCount, moves) && Defined(s.hand.pool) && c < |s.hand.pool.callers|
    requires !Busy(s.hand.pool.callers[c].pc) && !s.hand.pool.callers[c].pc.Snapshot?
    requires H.Get(s.hand.rooms.fates, s.hand.pool.callers[c].room) == past + life + rest
    requires NeverDiscarded(life) && (life != [] ==> life[0].caller == c)
    requires PresentFor(s.hand.pool.callers[c].ticks, m, DrainCount(past, c), |life|)
    ensures SentFor(s.hand.pool.callers[c], m, DrainCount(past, c), |life|, said)
    ensures var room := s.hand.pool.callers[c].room; var accepted := H.Get(s.hand.rooms.accepted, room);
            var from, to := PacketCount(past), PacketCount(past) + PacketCount(life);
            && to <= |accepted| && said == CarriedBetween(accepted, from, to, m.identifier)
            && (rest == [] ==> to == |accepted| - |H.Get(s.hand.rooms.packets, room)|)
  {
    if life != [] {
      OneDrainerInALife(s, workerCount, moves, s.hand.pool.callers[c].room, past, life, rest);
    }
    var actions, registryActions := RunProjects(s, workerCount, moves);
    said := WholeRunDelivery(s.hand, workerCount, actions, c, m, past, life, rest);
  }

  lemma AcceptedSaysMessages(s: System, workerCount: nat, moves: seq<Move>, room: Key, from: nat, to: nat,
                             identifier: int, said: string)
    requires Reachable(s, workerCount, moves) && from <= to <= |H.Get(s.hand.rooms.accepted, room)|
    requires said == CarriedBetween(H.Get(s.hand.rooms.accepted, room), from, to, identifier)
    ensures to <= |Heard(s, room)| && said == SaidBetween(Heard(s, room), from, to, identifier)
    ensures s.todo == [] ==> |H.Get(s.hand.rooms.accepted, room)| == |Heard(s, room)|
  {
    AcceptedSoFar(s, workerCount, moves, room);
    StretchIsBodies(H.Get(s.hand.rooms.accepted, room), Heard(s, room), from, to, identifier);
  }

  /** The plain case: a room in its first life with nothing pending, and a connection there from the first tick on. It
      has been sent everything that the others said. */
  lemma FirstLifeHearsEverything(s: System, workerCount: nat, moves: seq<Move>, c: nat, m: Connection)
    requires Reachable(s, workerCount, moves) && Defined(s.hand.pool) && c < |s.hand.pool.callers| && s.todo == []
    requires var pc := s.hand.pool.callers[c].pc; !Busy(pc) && !pc.Snapshot? && !pc.Left?
    requires NeverDiscarded(H.Get(s.hand.rooms.fates, s.hand.pool.callers[c].room))
    requires H.Get(s.hand.rooms.packets, s.hand.pool.callers[c].room) == []
    requires AlwaysMember(s.hand.pool.callers[c].ticks, m)
    ensures Stream(s.hand.pool.callers[c].sent, m)
            == Bodies(Heard(s, s.hand.pool.callers[c].room), m.identifier)
  {
    var caller := s.hand.pool.callers[c];
    var fates := H.Get(s.hand.rooms.fates, caller.room);
    assert OnlyDrainer(fates, c) by {
      TickerDrains(s, workerCount, moves, c);
    }
    assert |caller.ticks| == |fates| by {
      TicksOfFirstLife(s, workerCount, moves, c, m);
    }
    assert fates == [] + fates + [];
    var said := MembersHearTheOthers(s, workerCount, moves, c, m, [], fates, []);
    var messages := Heard(s, caller.room);
    assert messages[0..|messages|] == messages;
    WholeStream(caller, m, said);
  }

  lemma WholeStream(caller: H.Caller, m: Connection, said: string)
    requires SentFor(caller, m, 0, |caller.ticks|, said)
    ensures Stream(caller.sent, m) == said
  {
    assert caller.ticks[..0] == [] && caller.ticks[|caller.ticks|..] == [];
  }

  lemma TicksOfFirstLife(s: System, workerCount: nat, moves: seq<Move>, c: nat, m: Connection)
    requires Reachable(s, workerCount, moves) && Defined(s.hand.pool) && c < |s.hand.pool.callers|
    requires !Busy(s.hand.pool.callers[c].pc) && !s.hand.pool.callers[c].pc.Snapshot?
    requires OnlyDrainer(H.Get(s.hand.rooms.fates, s.hand.pool.callers[c].room), c)
    ensures |s.hand.pool.callers[c].ticks| == |H.Get(s.hand.rooms.fates, s.hand.pool.callers[c].room)|
  {
    var actions, registryActions := RunProjects(s, workerCount, moves);
    TicksDeliverBatches(s.hand, workerCount, actions, c, m);
    OneBatchPerDrain(H.Get(s.hand.rooms.fates, s.hand.pool.callers[c].room), c);
    OneBatchPerTick(s.hand.pool.callers[c].ticks);
  }

  /** A thread that still ticks is the one that drains the present life of its room. */
  lemma TickerDrains(s: System, workerCount: nat, moves: seq<Move>, c: nat)
    requires Reachable(s, workerCount, moves) && c < |s.hand.pool.callers| && !s.hand.pool.callers[c].pc.Left?
    requires NeverDiscarded(H.Get(s.hand.rooms.fates, s.hand.pool.callers[c].room))
    ensures var fates := H.Get(s.hand.rooms.fates, s.hand.pool.callers[c].room);
            OnlyDrainer(fates, c)
  {
    var room := s.hand.pool.callers[c].room;
    var fates := H.Get(s.hand.rooms.fates, room);
    ReachableOk(s, workerCount, moves);
    assert LifeOk(s.hand, room);
    if fates != [] {
      assert fates == [] + fates + [];
      OneDrainerInALife(s, workerCount, moves, room, [], fates, []);
      OneTicksPerRoom(s, fates[|fates| - 1].caller, c);
    }
  }

  // ---------- at every moment ----------

  lemma OwedOfPrefix(a: seq<Packet>, b: seq<Packet>, identifier: int)
    requires a <= b
    ensures Owed(a, identifier) <= Owed(b, identifier)
  {
    assert b == a + b[|a|..];
    OwedConcat(a, b[|a|..], identifier);
  }

  lemma {:induction false} BodiesOfPrefix(messages: seq<(int, string)>, n: nat, identifier: int)
    requires n <= |messages|
    ensures Bodies(messages[..n], identifier) <= Bodies(messages, identifier)
    decreases |messages|
  {
    if n == |messages| {
      assert messages[..n] == messages;
    } else {
      var front := messages[..|messages| - 1];
      assert front[..n] == messages[..n];
      BodiesOfPrefix(front, n, identifier);
    }
  }

  /** The batches of the ticks so far are all that was drained, but for one that is about to become a tick. */
  lemma TickedIsPrefix(fates: seq<H.Fate>, caller: H.Caller, c: nat)
    requires OnlyDrainer(fates, c)
    requires DrainedBy(fates, c) == Batches(caller.ticks) + (if caller.pc.Snapshot? then [caller.packets] else [])
    ensures Joined(Batches(caller.ticks)) <= Departed(fates)
  {
    OnlyDrainerTakesAll(fates, c);
    var batches, drained := Batches(caller.ticks), DrainedBy(fates, c);
    if caller.pc.Snapshot? {
      assert drained[..|drained| - 1] == batches;
    } else {
      assert drained == batches;
    }
  }

  /** At every moment, in the middle of ticks and handlers too, a member of all snapshots of a room's first life has
      been sent a prefix of what the others have said. */
  lemma NobodyHearsMore(s: System, workerCount: nat, moves: seq<Move>, c: nat, m: Connection)
    requires Reachable(s, workerCount, moves) && Defined(s.hand.pool)
    requires c < |s.hand.pool.callers| && !s.hand.pool.callers[c].pc.Left?
    requires NeverDiscarded(H.Get(s.hand.rooms.fates, s.hand.pool.callers[c].room))
    requires AlwaysMember(s.hand.pool.callers[c].ticks, m)
    ensures var caller := s.hand.pool.callers[c];
            Stream(caller.sent, m) <= Bodies(Heard(s, caller.room), m.identifier)
  {
    var caller, id := s.hand.pool.callers[c], m.identifier;
    var fates, accepted := H.Get(s.hand.rooms.fates, caller.room), H.Get(s.hand.rooms.accepted, caller.room);
    var ticked := Joined(Batches(caller.ticks));
    assert Stream(caller.sent, m) <= Owed(ticked, id) by {
      var actions, registryActions := RunProjects(s, workerCount, moves);
      StreamIsAtMostATickBehind(s.hand, workerCount, actions, c, m);
      ExpectedIsOwed(caller.ticks, m);
    }
    assert ticked <= accepted by {
      TickedWasAccepted(s, workerCount, moves, c);
    }
    OwedOfPrefix(ticked, accepted, id);
    AcceptedSoFar(s, workerCount, moves, caller.room);
    OwedAreBodies(accepted, Heard(s, caller.room)[..|accepted|], id);
    BodiesOfPrefix(Heard(s, caller.room), |accepted|, id);
  }

  lemma TickedWasAccepted(s: System, workerCount: nat, moves: seq<Move>, c: nat)
    requires Reachable(s, workerCount, moves) && Defined(s.hand.pool)
    requires c < |s.hand.pool.callers| && !s.hand.pool.callers[c].pc.Left?
    requires NeverDiscarded(H.Get(s.hand.rooms.fates, s.hand.pool.callers[c].room))
    ensures var caller := s.hand.pool.callers[c];
            Joined(Batches(caller.ticks)) <= H.Get(s.hand.rooms.accepted, caller.room)
  {
    var caller := s.hand.pool.callers[c];
    var fates := H.Get(s.hand.rooms.fates, caller.room);
    TickerDrains(s, workerCount, moves, c);
    var actions, registryActions := RunProjects(s, workerCount, moves);
    ReachableDelivery(s.hand, workerCount, actions);
    assert DrainOk(s.hand.rooms.fates, caller, c) && RoomOk(s.hand.rooms, caller.room);
    TickedIsPrefix(fates, caller, c);
  }
}
