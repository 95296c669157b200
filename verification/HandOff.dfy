/** The worker hand-off protocol (RelayThread, RelayThreadPool, Semaphore) driven by the tick loops of the
    room threads (RoomManager), as a transition system. Every semaphore operation, every lock section and
    every access to a shared field is one step; any number of workers and room threads interleave freely. */
module HandOff {
  import opened Integers
  import opened RelayTypes

  /** The job a room thread submits for one member in one tick. Ticks count from 1. */
  datatype Job = Job(caller: nat, tick: nat, index: nat)

  /** The statement of the worker loop that runs next; the job itself reads the batch twice, once to count
      and once to copy. Crashed stands for undefined behaviour: an empty function, a dangling connection,
      an int counter beyond INT_MAX or a copy past the end of the byte buffer. */
  datatype WorkerPc =
    | LoopTest | RunRelease | RunAcquire | ThreadRelease | Await | ExitTest
    | Count | Copy(capacity: nat) | CallDone | Exited | Crashed

  /** Progress of the destructor of a worker. */
  datatype DestructorPc = Alive | SettingExit | Waking | Joining | Destroyed

  /** A RelayThread. `claimant` records which caller's lock() succeeded, until that caller's run() returns. */
  datatype Worker = Worker(
    pc: WorkerPc, threadLocked: bool, runningLocked: bool,
    task: Option<Job>, done: Option<Job>, exit: bool,
    destructor: DestructorPc, claimant: Option<nat>)

  datatype CallerPc =
    | CheckRoom | Drain | Snapshot
    | Fan | Search(k: nat) | AcquireController(k: nat) | SetTask(k: nat) | SetDone(k: nat) | Wake(k: nat)
    | Join(i: nat) | JoinRelease(i: nat) | Left

  datatype Tick = Tick(batch: seq<Packet>, members: seq<Connection>)

  datatype Send = Send(job: Job, member: Connection, bytes: string)

  /** A RelayThreadController; `worker` records who accepted the job. */
  datatype Controller = Controller(job: Job, worker: nat)

  /** A room thread: the vectors its jobs refer to, and the history of its ticks and of what was sent for it. */
  datatype Caller = Caller(
    pc: CallerPc, room: Key, packets: seq<Packet>, connections: seq<Connection>, controllers: seq<Controller>,
    ticks: seq<Tick>, sent: seq<Send>)

  /** Where accepted packets of a room went: to the room thread that swapped them out, or away with the room. */
  datatype Fate = Drained(caller: nat, batch: seq<Packet>) | Discarded(batch: seq<Packet>)

  /** Workers and room threads. `locks` holds the controllers' semaphores; `ran` and `finished` are history. */
  datatype Pool = Pool(
    workers: seq<Worker>, callers: seq<Caller>, locks: map<Job, bool>, ran: multiset<Job>, finished: multiset<Job>)

  /** The packet accumulator; `accepted` and `fates` are history. */
  datatype Rooms = Rooms(
    packets: map<Key, seq<Packet>>, handles: map<Key, seq<Connection>>,
    accepted: map<Key, seq<Packet>>, fates: map<Key, seq<Fate>>)

  datatype State = State(pool: Pool, rooms: Rooms)

  datatype Action =
    | WorkerAct(w: nat)
    | CallerAct(c: nat)
    | DestructorAct(w: nat)
    | Spawn(room: Key)
    | Append(room: Key, packet: Packet)
    | Enroll(room: Key, member: Connection)
    | Withdraw(identifier: int)
    | CreatePackets(room: Key)
    | CreateHandles(room: Key)
    | ErasePackets(room: Key)
    | EraseHandles(room: Key)

  const NEW_WORKER := Worker(LoopTest, true, false, None, None, false, Alive, None)

  function Initial(workerCount: nat): State {
    State(Pool(seq(workerCount, _ => NEW_WORKER), [], map[], multiset{}, multiset{}), Rooms(map[], map[], map[], map[]))
  }

  function Get<K, V>(m: map<K, seq<V>>, k: K): seq<V> {
    if k in m then m[k] else []
  }

  /** The member list of a room without the first entry of an identifier. */
  function Without(members: seq<Connection>, identifier: int): seq<Connection> {
    if members == [] then []
    else if members[0].identifier == identifier then members[1..]
    else [members[0]] + Without(members[1..], identifier)
  }

  predicate Enrolled(members: seq<Connection>, identifier: int) {
    exists i :: 0 <= i < |members| && members[i].identifier == identifier
  }

  function CurrentJob(s: Pool, c: nat): Job
    requires c < |s.callers|
  {
    Job(c, |s.callers[c].ticks|, |s.callers[c].controllers|)
  }

  /** One step of the system; None when the actor is blocked or does not exist. */
  function Step(s: State, a: Action): Option<State> {
    match a
    case WorkerAct(w) => if w < |s.pool.workers| then With(s, WorkerStep(s.pool, w)) else None
    case CallerAct(c) => if c < |s.pool.callers| then CallerStep(s, c) else None
    case DestructorAct(w) =>
      if w < |s.pool.workers| then With(s, UpdateWorker(s.pool, w, DestructorStep(s.pool.workers[w]))) else None
    case Spawn(room) =>
      Some(s.(pool := s.pool.(callers := s.pool.callers + [Caller(CheckRoom, room, [], [], [], [], [])])))
    case _ => Some(s.(rooms := Section(s.rooms, a)))
  }

  function With(s: State, pool: Option<Pool>): Option<State> {
    match pool
    case None => None
    case Some(p) => Some(s.(pool := p))
  }

  /** The lock sections of PacketAccumulator that the websocket thread runs. */
  function Section(s: Rooms, a: Action): Rooms {
    match a
    case Append(room, p) =>
      if room !in s.packets then s
      else s.(packets := s.packets[room := s.packets[room] + [p]],
              accepted := s.accepted[room := Get(s.accepted, room) + [p]])
    case Enroll(room, m) =>
      var members := Get(s.handles, room);
      s.(handles := s.handles[room := if Enrolled(members, m.identifier) then members else members + [m]])
    case Withdraw(id) => s.(handles := map r | r in s.handles :: Without(s.handles[r], id))
    case CreatePackets(room) => if room in s.packets then s else s.(packets := s.packets[room := []])
    case CreateHandles(room) => s.(handles := s.handles[room := []])
    case ErasePackets(room) =>
      if room !in s.packets then s
      else s.(packets := s.packets - {room},
              fates := s.fates[room := Get(s.fates, room) + [Discarded(s.packets[room])]])
    case EraseHandles(room) => s.(handles := s.handles - {room})
    case _ => s
  }

  /** RelayThread.cpp:10-26. */
  function WorkerStep(s: Pool, w: nat): Option<Pool>
    requires w < |s.workers|
  {
    match s.workers[w].pc
    case Count => Some(CountStep(s, w))
    case Copy(capacity) => Some(CopyStep(s, w, capacity))
    case CallDone => Some(DoneStep(s, w))
    case _ => UpdateWorker(s, w, LoopStep(s.workers[w]))
  }

  /** The statements of the worker loop around the call of the job. */
  function LoopStep(k: Worker): Option<Worker> {
    match k.pc
    case LoopTest => Some(k.(pc := if k.exit then Exited else RunRelease))
    case RunRelease => Some(k.(runningLocked := false, pc := RunAcquire))
    case RunAcquire => if k.runningLocked then None else Some(k.(runningLocked := true, pc := ThreadRelease))
    case ThreadRelease => Some(k.(threadLocked := false, pc := Await))
    case Await => if k.runningLocked then None else Some(k.(runningLocked := true, pc := ExitTest))
    case ExitTest => Some(k.(pc := if k.exit then Exited else Count))
    case _ => None
  }

  /** RelayThread.cpp:31-43. */
  function DestructorStep(k: Worker): Option<Worker> {
    match k.destructor
    case Alive => if k.threadLocked then None else Some(k.(threadLocked := true, destructor := SettingExit))
    case SettingExit => Some(k.(exit := true, destructor := Waking))
    case Waking => Some(k.(runningLocked := false, destructor := Joining))
    case Joining => if k.pc.Exited? then Some(k.(destructor := Destroyed)) else None
    case Destroyed => None
  }

  function UpdateWorker(s: Pool, w: nat, k: Option<Worker>): Option<Pool>
    requires w < |s.workers|
  {
    match k
    case None => None
    case Some(k') => Some(SetWorker(s, w, k'))
  }

  function SetWorker(s: Pool, w: nat, k: Worker): Pool
    requires w < |s.workers|
  {
    s.(workers := s.workers[w := k])
  }

  /** The job finds its room thread's vectors by reference. */
  predicate Resolves(s: Pool, task: Option<Job>) {
    task.Some? && task.value.caller < |s.callers| && task.value.index < |s.callers[task.value.caller].connections|
  }

  function Bytes(s: Pool, j: Job): string
    requires Resolves(s, Some(j))
  {
    Owed(s.callers[j.caller].packets, s.callers[j.caller].connections[j.index].identifier)
  }

  /** Payload lengths are not negative, so the int counter overflows exactly when the total does not fit. */
  function CountStep(s: Pool, w: nat): Pool
    requires w < |s.workers|
  {
    var k := s.workers[w];
    SetWorker(s, w, k.(pc := if Resolves(s, k.task) && |Bytes(s, k.task.value)| <= INT_MAX
                               then Copy(|Bytes(s, k.task.value)|) else Crashed))
  }

  /** Copies into the buffer sized by the counting pass, then sends the whole buffer. */
  function CopyStep(s: Pool, w: nat, capacity: nat): Pool
    requires w < |s.workers|
  {
    var k := s.workers[w];
    if !Resolves(s, k.task) || |Bytes(s, k.task.value)| > capacity then SetWorker(s, w, k.(pc := Crashed))
    else
      var j := k.task.value;
      var caller := s.callers[j.caller];
      var bytes := Bytes(s, j) + seq(capacity - |Bytes(s, j)|, _ => '\0');
      var caller' := caller.(sent := caller.sent + [Send(j, caller.connections[j.index], bytes)]);
      SetWorker(s, w, k.(pc := CallDone)).(callers := s.callers[j.caller := caller'], ran := s.ran + multiset{j})
  }

  /** m_done() releases the semaphore of the controller it captured. */
  function DoneStep(s: Pool, w: nat): Pool
    requires w < |s.workers|
  {
    var k := s.workers[w];
    var s' := SetWorker(s, w, k.(pc := LoopTest));
    if k.done.None? then s'
    else s'.(locks := s.locks[k.done.value := false], finished := s.finished + multiset{k.done.value})
  }

  function SetCaller(s: Pool, c: nat, caller: Caller): Pool
    requires c < |s.callers|
  {
    s.(callers := s.callers[c := caller])
  }

  /** The tick loop (RoomManager.cpp:30-78) with RelayThreadPool::run and join in line. */
  function CallerStep(s: State, c: nat): Option<State>
    requires c < |s.pool.callers|
  {
    var caller := s.pool.callers[c];
    if caller.pc.CheckRoom? then Some(s.(pool := Enter(s.pool, c, caller.room in s.rooms.packets)))
    else if caller.pc.Drain? then Some(DrainStep(s, c))
    else if caller.pc.Snapshot? then Some(s.(pool := TakeMembers(s.pool, c, Get(s.rooms.handles, caller.room))))
    else if caller.pc.Fan? || caller.pc.Join? || caller.pc.JoinRelease? then With(s, TickStep(s.pool, c))
    else With(s, SubmitStep(s.pool, c))
  }

  /** hasRoom() has answered. */
  function Enter(s: Pool, c: nat, present: bool): Pool
    requires c < |s.callers|
  {
    SetCaller(s, c, s.callers[c].(pc := if present then Drain else Left))
  }

  /** getPackets() has swapped the pending vector out. */
  function TakeBatch(s: Pool, c: nat, batch: seq<Packet>): Pool
    requires c < |s.callers|
  {
    SetCaller(s, c, s.callers[c].(packets := batch, pc := if batch == [] then CheckRoom else Snapshot))
  }

  function DrainStep(s: State, c: nat): State
    requires c < |s.pool.callers|
  {
    var room := s.pool.callers[c].room;
    var batch := Get(s.rooms.packets, room);
    State(TakeBatch(s.pool, c, batch), if batch == [] then s.rooms else TakePackets(s.rooms, room, c))
  }

  function TakePackets(s: Rooms, room: Key, c: nat): Rooms {
    s.(packets := s.packets[room := []],
       fates := s.fates[room := Get(s.fates, room) + [Drained(c, Get(s.packets, room))]])
  }

  /** getConnections() has copied the members. */
  function TakeMembers(s: Pool, c: nat, members: seq<Connection>): Pool
    requires c < |s.callers|
  {
    var caller := s.callers[c];
    SetCaller(s, c, caller.(connections := members, controllers := [], pc := Fan,
                            ticks := caller.ticks + [Tick(caller.packets, members)]))
  }

  /** The heads of the fan-out and join loops, and RelayThreadController::join. */
  function TickStep(s: Pool, c: nat): Option<Pool>
    requires c < |s.callers|
  {
    var caller := s.callers[c];
    match caller.pc
    case Fan =>
      if |caller.controllers| < |caller.connections| then
        Some(SetCaller(s, c, caller.(pc := Search(0))).(locks := s.locks[CurrentJob(s, c) := false]))
      else Some(SetCaller(s, c, caller.(pc := Join(0))))
    case Join(i) =>
      if i >= |caller.controllers| then Some(SetCaller(s, c, caller.(pc := CheckRoom)))
      else
        var j := caller.controllers[i].job;
        if j in s.locks && s.locks[j] then None
        else Some(SetCaller(s, c, caller.(pc := JoinRelease(i))).(locks := s.locks[j := true]))
    case JoinRelease(i) =>
      if i >= |caller.controllers| then None
      else
        Some(SetCaller(s, c, caller.(pc := Join(i + 1))).(locks := s.locks[caller.controllers[i].job := false]))
    case _ => None
  }

  /** RelayThreadPool.cpp:7-19: spin over the workers' lock(), then hand the job over with run(). */
  function SubmitStep(s: Pool, c: nat): Option<Pool>
    requires c < |s.callers|
  {
    var caller := s.callers[c];
    var j := CurrentJob(s, c);
    match caller.pc
    case Search(k) =>
      if k >= |s.workers| then Some(SetCaller(s, c, caller.(pc := Search(0))))
      else if s.workers[k].threadLocked then Some(SetCaller(s, c, caller.(pc := Search(k + 1))))
      else
        Some(SetWorker(SetCaller(s, c, caller.(pc := AcquireController(k))), k,
                       s.workers[k].(threadLocked := true, claimant := Some(c))))
    case AcquireController(k) =>
      if j in s.locks && s.locks[j] then None
      else Some(SetCaller(s, c, caller.(pc := SetTask(k))).(locks := s.locks[j := true]))
    case SetTask(k) =>
      if k >= |s.workers| then None
      else Some(SetWorker(SetCaller(s, c, caller.(pc := SetDone(k))), k, s.workers[k].(task := Some(j))))
    case SetDone(k) =>
      if k >= |s.workers| then None
      else Some(SetWorker(SetCaller(s, c, caller.(pc := Wake(k))), k, s.workers[k].(done := Some(j))))
    case Wake(k) =>
      if k >= |s.workers| then None
      else
        Some(SetWorker(SetCaller(s, c, caller.(pc := Fan, controllers := caller.controllers + [Controller(j, k)])), k,
                       s.workers[k].(runningLocked := false, claimant := None)))
    case _ => None
  }

  /** The state after a sequence of steps, or None when one of them is blocked. */
  function Run(s: State, actions: seq<Action>): Option<State> {
    if actions == [] then Some(s)
    else
      match Run(s, actions[..|actions| - 1])
      case None => None
      case Some(t) => Step(t, actions[|actions| - 1])
  }

  predicate Reachable(s: State, workerCount: nat, actions: seq<Action>) {
    Run(Initial(workerCount), actions) == Some(s)
  }
}
