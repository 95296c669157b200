/** The whole relay: the websocket thread with its handlers, the room registry, the room threads and the workers,
    interleaved. A handler is a list of things still to do, each one step: a lock section, a reading of the accumulator
    under its lock, or the call of createRoom, for whose return it waits. What it reads decides what it does next.
    Room threads are started and ended by the registry's rules. */
module RelaySystem {
  import opened RelayTypes
  import opened PacketAccumulation
  import H = HandOff
  import L = RoomLifecycle
  import M = RelayServerModel

  /** A message under way, with what the key table answered. */
  datatype Request = Request(id: int, h: int, message: string, room: Key, limit: int)

  datatype Todo =
    | AskRoom(q: Request)
    | CreatePackets(room: Key) | CreateHandles(room: Key) | StartThread(room: Key)
    | AskCount(q: Request)
    | AppendPacket(q: Request) | EnrollMember(q: Request)
    | ErasePackets(room: Key) | EraseHandles(room: Key)
    | Withdraw(id: int)

  /** Room thread t is thread t of the registry and caller t of the pool. `events` is history. */
  datatype System = System(
    hand: H.State, registry: L.State,
    ids: map<int, int>, reserved: seq<int>, moons: map<int, Key>, players: set<(Key, int)>,
    todo: seq<Todo>, events: seq<M.Event>)

  datatype Move =
    | Begin(e: M.Event) | Handle | CreateRoomAct | ThreadAct(t: nat) | WorkerAct(w: nat) | DestructorAct(w: nat)

  function Initial(workerCount: nat): System {
    System(H.Initial(workerCount), L.Initial(1), map[], [], map[], {}, [], [])
  }

  function View(s: System): M.Server {
    M.Server(s.ids, s.reserved, s.moons, s.hand.rooms, s.players)
  }

  predicate FromMoon(q: Request) {
    |q.message| >= HASH_LENGTH && q.room == q.message[..HASH_LENGTH]
  }

  /** What a handler sets out to do; it knows its own maps and the key table, and nothing yet of the accumulator. */
  function Plan(s: M.Server, e: M.Event): seq<Todo> {
    match e
    case Opened(_) => []
    case Closed(h) =>
      var id := M.IdOf(s, h);
      (if id in s.moons && !M.HasMoon(s.moons - {id}, s.moons[id]) then [ErasePackets(s.moons[id])] else [])
      + [Withdraw(id)]
    case Received(h, message, room, limit) =>
      if M.IdOf(s, h) == 0 || |message| < HASH_LENGTH || room == EMPTY_KEY then []
      else [AskRoom(Request(M.IdOf(s, h), h, message, room, limit))]
    case Ticked(_, _) => []
  }

  /** The lock section of an item, if it is one that writes. */
  function SectionOf(item: Todo): Option<H.Action> {
    match item
    case CreatePackets(room) => Some(H.CreatePackets(room))
    case CreateHandles(room) => Some(H.CreateHandles(room))
    case AppendPacket(q) =>
      if HASH_LENGTH <= |q.message| <= HASH_LENGTH + MAX_PACKET_SIZE
      then Some(H.Append(q.room, M.PacketOf(q.id, q.message))) else None
    case EnrollMember(q) => Some(H.Enroll(q.room, Connection(q.id, q.h)))
    case ErasePackets(room) => Some(H.ErasePackets(room))
    case EraseHandles(room) => Some(H.EraseHandles(room))
    case Withdraw(id) => Some(H.Withdraw(id))
    case _ => None
  }

  /** What the handler does next, from what the item found in the accumulator under its lock. */
  function Next(rooms: H.Rooms, item: Todo): seq<Todo> {
    match item
    case AskRoom(q) =>
      if q.room in rooms.packets then [AskCount(q)]
      else if FromMoon(q) then [CreatePackets(q.room), AskCount(q)]
      else []
    case CreatePackets(room) => if room in rooms.packets then [] else [CreateHandles(room), StartThread(room)]
    case AskCount(q) =>
      if |q.message| > HASH_LENGTH + MAX_PACKET_SIZE then []
      else if !FromMoon(q) && CountOthers(H.Get(rooms.handles, q.room), q.id) >= q.limit then []
      else [AppendPacket(q)]
    case AppendPacket(q) => if q.room in rooms.packets then [EnrollMember(q)] else []
    case ErasePackets(room) => if room in rooms.packets then [EraseHandles(room)] else []
    case _ => []
  }

  /** The websocket thread is not inside createRoom. */
  predicate HandlerFree(s: System) {
    |s.registry.creators| == 1 && s.registry.creators[0].pc.Outside?
  }

  function Step(s: System, move: Move): Option<System> {
    match move
    case Begin(e) => BeginStep(s, e)
    case Handle => if s.todo == [] || !HandlerFree(s) then None else HandleStep(s)
    case CreateRoomAct => CreateRoomStep(s)
    case ThreadAct(t) => ThreadStep(s, t)
    case WorkerAct(w) => WithHand(s, H.Step(s.hand, H.WorkerAct(w)))
    case DestructorAct(w) => WithHand(s, H.Step(s.hand, H.DestructorAct(w)))
  }

  function WithHand(s: System, hand: Option<H.State>): Option<System> {
    match hand
    case None => None
    case Some(h) => Some(s.(hand := h))
  }

  function WithRegistry(s: System, registry: Option<L.State>): Option<System> {
    match registry
    case None => None
    case Some(r) => Some(s.(registry := r))
  }

  /** The next open, close or message. The handler's own maps are read and written by the websocket thread alone, so
      they change at once; `players` is history. */
  function BeginStep(s: System, e: M.Event): Option<System> {
    if s.todo != [] || !HandlerFree(s) || e.Ticked? || (e.Opened? && e.h in s.ids) then None
    else
      var after := M.Apply(View(s), e);
      Some(s.(ids := after.ids, reserved := after.reserved, moons := after.moons, players := after.players,
              todo := Plan(View(s), e), events := s.events + [e]))
  }

  function HandleStep(s: System): Option<System>
    requires s.todo != []
  {
    var item := s.todo[0];
    var rest := s.(todo := Next(s.hand.rooms, item) + s.todo[1..]);
    if item.StartThread? then WithRegistry(rest, L.Step(s.registry, L.Call(0, item.room)))
    else if SectionOf(item).Some? then WithHand(rest, H.Step(s.hand, SectionOf(item).value))
    else Some(rest)
  }

  /** A step inside createRoom; the one that starts a thread starts its tick loop. */
  function CreateRoomStep(s: System): Option<System> {
    match L.Step(s.registry, L.CreatorAct(0))
    case None => None
    case Some(r) =>
      if |r.threads| > |s.registry.threads| then
        WithHand(s.(registry := r), H.Step(s.hand, H.Spawn(r.threads[|s.registry.threads|].room)))
      else Some(s.(registry := r))
  }

  /** A room thread: its tick loop, then its end. Both sides of hasRoom() move together. */
  function ThreadStep(s: System, t: nat): Option<System> {
    if t >= |s.registry.threads| || t >= |s.hand.pool.callers| then None
    else if !s.registry.threads[t].pc.Looping? then WithRegistry(s, L.Step(s.registry, L.ThreadAct(t, false)))
    else if !s.hand.pool.callers[t].pc.CheckRoom? then WithHand(s, H.Step(s.hand, H.CallerAct(t)))
    else
      var present := s.hand.pool.callers[t].room in s.hand.rooms.packets;
      match L.Step(s.registry, L.ThreadAct(t, present))
      case None => None
      case Some(r) => WithHand(s.(registry := r), H.Step(s.hand, H.CallerAct(t)))
  }

  function Run(s: System, moves: seq<Move>): Option<System> {
    if moves == [] then Some(s)
    else
      match Run(s, moves[..|moves| - 1])
      case None => None
      case Some(t) => Step(t, moves[|moves| - 1])
  }

  predicate Reachable(s: System, workerCount: nat, moves: seq<Move>) {
    Run(Initial(workerCount), moves) == Some(s)
  }

  // ---------- every run of the system is a run of its parts ----------

  lemma StepProjects(s: System, move: Move)
    requires Step(s, move).Some?
    ensures var s' := Step(s, move).value;
            && (s'.hand == s.hand || exists a :: H.Step(s.hand, a) == Some(s'.hand))
            && (s'.registry == s.registry || exists a :: L.Step(s.registry, a) == Some(s'.registry))
  {
  }

  /** The hand-off theorems and the registry theorems hold of the whole system. */
  lemma {:induction false} RunProjects(s: System, workerCount: nat, moves: seq<Move>)
      returns (actions: seq<H.Action>, registryActions: seq<L.Action>)
    requires Reachable(s, workerCount, moves)
    ensures H.Reachable(s.hand, workerCount, actions) && L.Reachable(s.registry, 1, registryActions)
    decreases |moves|
  {
    if moves == [] {
      actions, registryActions := [], [];
    } else {
      var t := Run(Initial(workerCount), moves[..|moves| - 1]).value;
      var move := moves[|moves| - 1];
      actions, registryActions := RunProjects(t, workerCount, moves[..|moves| - 1]);
      StepProjects(t, move);
      if s.hand != t.hand {
        var a :| H.Step(t.hand, a) == Some(s.hand);
        assert (actions + [a])[..|actions|] == actions;
        actions := actions + [a];
      }
      if s.registry != t.registry {
        var a :| L.Step(t.registry, a) == Some(s.registry);
        assert (registryActions + [a])[..|registryActions|] == registryActions;
        registryActions := registryActions + [a];
      }
    }
  }
}
