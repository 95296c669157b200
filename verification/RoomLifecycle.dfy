/** The life of room threads (RoomManager): creation and reaping in createRoom under two mutexes, and the end of a
    thread, which announces itself under one of them. Any number of threads may call createRoom; every lock
    operation, every join and every access to the shared collections is one step. */
module RoomLifecycle {
  import opened RelayTypes

  /** A room thread: ticking while its room exists, then announcing its end under m_completedMutex. */
  datatype ThreadPc = Looping | LeftLoop | Announcing | Announced | Ended

  datatype RoomThread = RoomThread(room: Key, pc: ThreadPc)

  /** A caller of createRoom. Crashed stands for joining a default-constructed std::thread. */
  datatype CreatorPc =
    | Outside | WantRoom | WantCompleted | Reap(i: nat) | JoinThread(i: nat) | Clear | Decide | Unlock | Crashed

  datatype Creator = Creator(pc: CreatorPc, room: Key)

  datatype Owner = ByCreator(id: nat) | ByThread(id: nat)

  /** `joined` is history: the threads that have been joined. */
  datatype State = State(
    creators: seq<Creator>, threads: seq<RoomThread>,
    roomMutex: Option<nat>, completedMutex: Option<Owner>,
    roomThreads: map<Key, nat>, completed: seq<Key>, joined: set<nat>)

  datatype Action =
    | Call(c: nat, room: Key)
    | CreatorAct(c: nat)
    | ThreadAct(t: nat, roomExists: bool)

  function Initial(creatorCount: nat): State {
    State(seq(creatorCount, _ => Creator(Outside, EMPTY_KEY)), [], None, None, map[], [], {})
  }

  function Step(s: State, a: Action): Option<State> {
    match a
    case Call(c, room) =>
      if c < |s.creators| && s.creators[c].pc.Outside? then Some(SetCreator(s, c, Creator(WantRoom, room))) else None
    case CreatorAct(c) => if c < |s.creators| then CreatorStep(s, c) else None
    case ThreadAct(t, roomExists) => if t < |s.threads| then ThreadStep(s, t, roomExists) else None
  }

  function SetCreator(s: State, c: nat, creator: Creator): State
    requires c < |s.creators|
  {
    s.(creators := s.creators[c := creator])
  }

  function GoTo(s: State, c: nat, pc: CreatorPc): State
    requires c < |s.creators|
  {
    SetCreator(s, c, s.creators[c].(pc := pc))
  }

  /** RoomManager.cpp:8-25 and 84. */
  function CreatorStep(s: State, c: nat): Option<State>
    requires c < |s.creators|
  {
    var room := s.creators[c].room;
    match s.creators[c].pc
    case Outside => None
    case WantRoom => if s.roomMutex.Some? then None else Some(GoTo(s, c, WantCompleted).(roomMutex := Some(c)))
    case WantCompleted =>
      if s.completedMutex.Some? then None else Some(GoTo(s, c, Reap(0)).(completedMutex := Some(ByCreator(c))))
    case Reap(i) => Some(GoTo(s, c, if i < |s.completed| then JoinThread(i) else Clear))
    case JoinThread(i) => JoinStep(s, c, i)
    case Clear => Some(GoTo(s, c, Decide).(completed := [], completedMutex := None))
    case Decide => Some(DecideStep(s, c, room))
    case Unlock => Some(GoTo(s, c, Outside).(roomMutex := None))
    case Crashed => None
  }

  /** m_roomThreads[completedRoom].join() and erase: operator[] default-constructs a missing entry, and join
      waits until the thread has ended. */
  function JoinStep(s: State, c: nat, i: nat): Option<State>
    requires c < |s.creators|
  {
    if i >= |s.completed| || s.completed[i] !in s.roomThreads then Some(GoTo(s, c, Crashed))
    else
      var t := s.roomThreads[s.completed[i]];
      if t >= |s.threads| || s.threads[t].pc != Ended then None
      else
        Some(GoTo(s, c, Reap(i + 1)).(roomThreads := s.roomThreads - {s.completed[i]}, joined := s.joined + {t}))
  }

  function DecideStep(s: State, c: nat, room: Key): State
    requires c < |s.creators|
  {
    if room in s.roomThreads then GoTo(s, c, Unlock)
    else
      GoTo(s, c, Unlock).(threads := s.threads + [RoomThread(room, Looping)],
                          roomThreads := s.roomThreads[room := |s.threads|])
  }

  /** RoomManager.cpp:30 and 80-83; the body of a tick is not part of this machine. */
  function ThreadStep(s: State, t: nat, roomExists: bool): Option<State>
    requires t < |s.threads|
  {
    var thread := s.threads[t];
    match thread.pc
    case Looping => Some(SetThread(s, t, if roomExists then Looping else LeftLoop))
    case LeftLoop =>
      if s.completedMutex.Some? then None else Some(SetThread(s, t, Announcing).(completedMutex := Some(ByThread(t))))
    case Announcing => Some(SetThread(s, t, Announced).(completed := s.completed + [thread.room]))
    case Announced => Some(SetThread(s, t, Ended).(completedMutex := None))
    case Ended => None
  }

  function SetThread(s: State, t: nat, pc: ThreadPc): State
    requires t < |s.threads|
  {
    s.(threads := s.threads[t := s.threads[t].(pc := pc)])
  }

  function Run(s: State, actions: seq<Action>): Option<State> {
    if actions == [] then Some(s)
    else
      match Run(s, actions[..|actions| - 1])
      case None => None
      case Some(t) => Step(t, actions[|actions| - 1])
  }

  predicate Reachable(s: State, creatorCount: nat, actions: seq<Action>) {
    Run(Initial(creatorCount), actions) == Some(s)
  }

  // ---------- invariant ----------

  predicate HoldsRoom(pc: CreatorPc) {
    !pc.Outside? && !pc.WantRoom?
  }

  predicate HoldsCompleted(pc: CreatorPc) {
    pc.Reap? || pc.JoinThread? || pc.Clear?
  }

  /** How many announcements the running clean-up has already dealt with. */
  function Reaped(s: State): nat {
    if s.completedMutex.Some? && s.completedMutex.value.ByCreator? && s.completedMutex.value.id < |s.creators| then
      var pc := s.creators[s.completedMutex.value.id].pc;
      if pc.Reap? || pc.JoinThread? then pc.i else if pc.Clear? then |s.completed| else 0
    else 0
  }

  /** An announcement of this room that no clean-up has dealt with. */
  predicate Pending(s: State, room: Key) {
    exists i :: Reaped(s) <= i < |s.completed| && s.completed[i] == room
  }

  predicate CreatorOk(s: State, c: nat)
    requires c < |s.creators|
  {
    var pc := s.creators[c].pc;
    && !pc.Crashed?
    && (HoldsRoom(pc) <==> s.roomMutex == Some(c))
    && (HoldsCompleted(pc) <==> s.completedMutex == Some(ByCreator(c)))
    && (pc.Reap? ==> pc.i <= |s.completed|)
    && (pc.JoinThread? ==> pc.i < |s.completed|)
  }

  /** A thread is joined, or it is the registered thread of its room; what it has announced is still on record. */
  predicate ThreadOk(s: State, t: nat)
    requires t < |s.threads|
  {
    var thread := s.threads[t];
    && (thread.pc.Announcing? || thread.pc.Announced? <==> s.completedMutex == Some(ByThread(t)))
    && (t in s.joined ==> thread.pc.Ended?)
    && (t !in s.joined ==> thread.room in s.roomThreads && s.roomThreads[thread.room] == t)
    && (t !in s.joined ==>
          (thread.pc.Announced? || thread.pc.Ended? <==> Pending(s, thread.room)))
  }

  predicate RegistryOk(s: State) {
    && (forall room :: room in s.roomThreads ==>
          && s.roomThreads[room] < |s.threads| && s.roomThreads[room] !in s.joined
          && s.threads[s.roomThreads[room]].room == room)
    && (forall i :: Reaped(s) <= i < |s.completed| ==> s.completed[i] in s.roomThreads)
    && (forall i, j :: 0 <= i < j < |s.completed| ==> s.completed[i] != s.completed[j])
    && (s.roomMutex.Some? ==> s.roomMutex.value < |s.creators|)
    && (s.completedMutex.Some? ==>
          match s.completedMutex.value
          case ByCreator(c) => c < |s.creators|
          case ByThread(t) => t < |s.threads|)
    && (forall t :: t in s.joined ==> t < |s.threads|)
  }

  predicate Inv(s: State) {
    && RegistryOk(s)
    && (forall c :: 0 <= c < |s.creators| ==> CreatorOk(s, c))
    && (forall t :: 0 <= t < |s.threads| ==> ThreadOk(s, t))
  }

  lemma InitialInv(creatorCount: nat)
    ensures Inv(Initial(creatorCount))
  {
  }

  lemma CreatorKeepsInv(s: State, c: nat)
    requires Inv(s) && c < |s.creators| && CreatorStep(s, c).Some?
    requires !s.creators[c].pc.JoinThread? && !s.creators[c].pc.Decide?
    ensures Inv(CreatorStep(s, c).value)
  {
    assert CreatorOk(s, c);
    var s' := CreatorStep(s, c).value;
    forall d | 0 <= d < |s'.creators|
      ensures CreatorOk(s', d)
    {
      assert CreatorOk(s, d);
    }
    forall t | 0 <= t < |s'.threads|
      ensures ThreadOk(s', t)
    {
      assert ThreadOk(s, t);
    }
  }

  /** The joined thread has already ended, and its room's entry is the one to erase. */
  lemma ReapedThreadHasEnded(s: State, c: nat)
    requires Inv(s) && c < |s.creators| && s.creators[c].pc.JoinThread?
    ensures var i := s.creators[c].pc.i;
            && i < |s.completed| && s.completed[i] in s.roomThreads
            && var t := s.roomThreads[s.completed[i]];
               t < |s.threads| && t !in s.joined && s.threads[t] == RoomThread(s.completed[i], Ended)
  {
    assert CreatorOk(s, c);
    var i := s.creators[c].pc.i;
    assert Pending(s, s.completed[i]);
    assert ThreadOk(s, s.roomThreads[s.completed[i]]);
  }

  lemma JoinKeepsInv(s: State, c: nat)
    requires Inv(s) && c < |s.creators| && s.creators[c].pc.JoinThread? && CreatorStep(s, c).Some?
    ensures Inv(CreatorStep(s, c).value)
  {
    ReapedThreadHasEnded(s, c);
    assert CreatorOk(s, c);
    var s' := CreatorStep(s, c).value;
    var i := s.creators[c].pc.i;
    forall d | 0 <= d < |s'.creators|
      ensures CreatorOk(s', d)
    {
      assert CreatorOk(s, d);
    }
    forall t | 0 <= t < |s'.threads|
      ensures ThreadOk(s', t)
    {
      assert ThreadOk(s, t);
    }
  }

  lemma DecideKeepsInv(s: State, c: nat)
    requires Inv(s) && c < |s.creators| && s.creators[c].pc.Decide?
    ensures Inv(CreatorStep(s, c).value)
  {
    assert CreatorOk(s, c);
    var s' := CreatorStep(s, c).value;
    forall d | 0 <= d < |s'.creators|
      ensures CreatorOk(s', d)
    {
      assert CreatorOk(s, d);
    }
    forall t | 0 <= t < |s'.threads|
      ensures ThreadOk(s', t)
    {
      if t < |s.threads| {
        assert ThreadOk(s, t);
      }
    }
  }

  lemma ThreadKeepsInv(s: State, t: nat, roomExists: bool)
    requires Inv(s) && t < |s.threads| && ThreadStep(s, t, roomExists).Some?
    ensures Inv(ThreadStep(s, t, roomExists).value)
  {
    if s.threads[t].pc.Announcing? {
      AnnouncingKeepsInv(s, t, roomExists);
    } else {
      QuietThreadKeepsInv(s, t, roomExists);
    }
  }

  /** The other steps of a thread leave the announcements alone. */
  lemma QuietThreadKeepsInv(s: State, t: nat, roomExists: bool)
    requires Inv(s) && t < |s.threads| && ThreadStep(s, t, roomExists).Some? && !s.threads[t].pc.Announcing?
    ensures Inv(ThreadStep(s, t, roomExists).value)
  {
    assert ThreadOk(s, t);
    var s' := ThreadStep(s, t, roomExists).value;
    forall d | 0 <= d < |s'.creators|
      ensures CreatorOk(s', d)
    {
      assert CreatorOk(s, d);
    }
    PendingGrows(s, t, roomExists);
    forall u | 0 <= u < |s'.threads|
      ensures ThreadOk(s', u)
    {
      assert ThreadOk(s, u);
    }
  }

  lemma AnnouncingKeepsInv(s: State, t: nat, roomExists: bool)
    requires Inv(s) && t < |s.threads| && s.threads[t].pc.Announcing?
    ensures Inv(ThreadStep(s, t, roomExists).value)
  {
    assert ThreadOk(s, t);
    var s' := ThreadStep(s, t, roomExists).value;
    forall d | 0 <= d < |s'.creators|
      ensures CreatorOk(s', d)
    {
      assert CreatorOk(s, d);
    }
    assert !Pending(s, s.threads[t].room);
    PendingGrows(s, t, roomExists);
    forall u | 0 <= u < |s'.threads|
      ensures ThreadOk(s', u)
    {
      assert ThreadOk(s, u);
    }
  }

  lemma PendingGrows(s: State, t: nat, roomExists: bool)
    requires Inv(s) && t < |s.threads| && ThreadStep(s, t, roomExists).Some?
    ensures forall room :: Pending(ThreadStep(s, t, roomExists).value, room)
                           <==> Pending(s, room) || (s.threads[t].pc.Announcing? && room == s.threads[t].room)
  {
    assert ThreadOk(s, t);
    var s' := ThreadStep(s, t, roomExists).value;
    if s.threads[t].pc.Announcing? {
      assert s'.completed[|s.completed|] == s.threads[t].room;
    }
    forall room | Pending(s, room)
      ensures Pending(s', room)
    {
      var i :| Reaped(s) <= i < |s.completed| && s.completed[i] == room;
      assert s'.completed[i] == room;
    }
  }

  lemma StepKeepsInv(s: State, a: Action)
    requires Inv(s) && Step(s, a).Some?
    ensures Inv(Step(s, a).value)
  {
    if a.ThreadAct? {
      ThreadKeepsInv(s, a.t, a.roomExists);
    } else if a.CreatorAct? && s.creators[a.c].pc.JoinThread? {
      JoinKeepsInv(s, a.c);
    } else if a.CreatorAct? && s.creators[a.c].pc.Decide? {
      DecideKeepsInv(s, a.c);
    } else if a.CreatorAct? {
      CreatorKeepsInv(s, a.c);
    } else {
      CallKeepsInv(s, a.c, a.room);
    }
  }

  lemma CallKeepsInv(s: State, c: nat, room: Key)
    requires Inv(s) && c < |s.creators| && s.creators[c].pc.Outside?
    ensures Inv(SetCreator(s, c, Creator(WantRoom, room)))
  {
    assert CreatorOk(s, c);
    var s' := SetCreator(s, c, Creator(WantRoom, room));
    forall d | 0 <= d < |s'.creators|
      ensures CreatorOk(s', d)
    {
      assert CreatorOk(s, d);
    }
    forall t | 0 <= t < |s'.threads|
      ensures ThreadOk(s', t)
    {
      assert ThreadOk(s, t);
    }
  }

  lemma {:induction false} ReachableInv(s: State, creatorCount: nat, actions: seq<Action>)
    requires Reachable(s, creatorCount, actions)
    ensures Inv(s)
    decreases |actions|
  {
    if actions == [] {
      InitialInv(creatorCount);
    } else {
      var front := actions[..|actions| - 1];
      ReachableInv(Run(Initial(creatorCount), front).value, creatorCount, front);
      StepKeepsInv(Run(Initial(creatorCount), front).value, actions[|actions| - 1]);
    }
  }

  // ---------- what every run keeps ----------

  /** A room never has two threads that are not yet joined, whatever the interleaving. */
  lemma OneThreadPerRoom(s: State, creatorCount: nat, actions: seq<Action>, t: nat, u: nat)
    requires Reachable(s, creatorCount, actions) && t < |s.threads| && u < |s.threads|
    requires t !in s.joined && u !in s.joined && s.threads[t].room == s.threads[u].room
    ensures t == u
  {
    ReachableInv(s, creatorCount, actions);
    assert ThreadOk(s, t) && ThreadOk(s, u);
  }

  /** m_completedThreads has no duplicates, and outside a clean-up names only registered rooms, exactly those whose
      unjoined thread has announced its end. */
  lemma CompletedIsConsistent(s: State, creatorCount: nat, actions: seq<Action>)
    requires Reachable(s, creatorCount, actions)
    ensures forall i, j :: 0 <= i < j < |s.completed| ==> s.completed[i] != s.completed[j]
    ensures (forall c :: 0 <= c < |s.creators| ==> !HoldsCompleted(s.creators[c].pc)) ==>
              forall room :: room in s.completed <==>
                && room in s.roomThreads && s.roomThreads[room] < |s.threads|
                && (s.threads[s.roomThreads[room]].pc.Announced? || s.threads[s.roomThreads[room]].pc.Ended?)
  {
    ReachableInv(s, creatorCount, actions);
    if forall c :: 0 <= c < |s.creators| ==> !HoldsCompleted(s.creators[c].pc) {
      forall c | 0 <= c < |s.creators|
        ensures s.completedMutex != Some(ByCreator(c))
      {
        assert CreatorOk(s, c);
      }
      forall room
        ensures room in s.completed <==> Pending(s, room)
        ensures room in s.roomThreads ==> ThreadOk(s, s.roomThreads[room])
      {
      }
    }
  }

  /** The clean-up never joins a default-constructed thread, and its join never waits: the thread has ended and so
      holds no lock. */
  lemma ReapingNeverBlocks(s: State, creatorCount: nat, actions: seq<Action>, c: nat)
    requires Reachable(s, creatorCount, actions) && c < |s.creators|
    ensures !s.creators[c].pc.Crashed?
    ensures s.creators[c].pc.JoinThread? ==>
              && CreatorStep(s, c).Some? && !CreatorStep(s, c).value.creators[c].pc.Crashed?
              && var room := s.completed[s.creators[c].pc.i];
                 && room in s.roomThreads && s.roomThreads[room] < |s.threads|
                 && s.threads[s.roomThreads[room]] == RoomThread(room, Ended)
                 && s.completedMutex != Some(ByThread(s.roomThreads[room]))
  {
    ReachableInv(s, creatorCount, actions);
    assert CreatorOk(s, c);
    if s.creators[c].pc.JoinThread? {
      ReapedThreadHasEnded(s, c);
    }
  }

  /** Whoever a call of createRoom is waiting for. */
  function Blocker(s: State, c: nat): Action
    requires c < |s.creators|
  {
    var holder := if s.creators[c].pc.WantRoom? && s.roomMutex.Some? then s.roomMutex.value else c;
    if s.completedMutex.Some? && s.completedMutex.value.ByThread?
       && holder < |s.creators| && s.creators[holder].pc.WantCompleted?
    then ThreadAct(s.completedMutex.value.id, false)
    else CreatorAct(holder)
  }

  /** No deadlock: whatever a call of createRoom waits for, the thread it waits for can step. */
  lemma NoDeadlock(s: State, creatorCount: nat, actions: seq<Action>, c: nat)
    requires Reachable(s, creatorCount, actions) && c < |s.creators| && !s.creators[c].pc.Outside?
    ensures Step(s, Blocker(s, c)).Some?
  {
    ReachableInv(s, creatorCount, actions);
    var holder := if s.creators[c].pc.WantRoom? && s.roomMutex.Some? then s.roomMutex.value else c;
    assert CreatorOk(s, c) && CreatorOk(s, holder);
    if s.completedMutex.Some? {
      match s.completedMutex.value
      case ByCreator(d) => assert CreatorOk(s, d);
      case ByThread(t) => assert ThreadOk(s, t);
    }
    if s.creators[holder].pc.JoinThread? {
      ReapedThreadHasEnded(s, holder);
    }
  }

  /** createRoom leaves a ticking thread for its room exactly when no registered thread of the room has already
      left its loop. */
  lemma DecideLeavesTickingThread(s: State, creatorCount: nat, actions: seq<Action>, c: nat)
    requires Reachable(s, creatorCount, actions) && c < |s.creators| && s.creators[c].pc.Decide?
    ensures var s' := CreatorStep(s, c).value; var room := s.creators[c].room;
            (exists t :: 0 <= t < |s'.threads| && s'.threads[t] == RoomThread(room, Looping))
            <==> (room in s.roomThreads && s.roomThreads[room] < |s.threads| ==>
                    s.threads[s.roomThreads[room]].pc.Looping?)
  {
    ReachableInv(s, creatorCount, actions);
    var s' := CreatorStep(s, c).value;
    var room := s.creators[c].room;
    forall t | 0 <= t < |s.threads|
      ensures s.threads[t] == RoomThread(room, Looping) ==> room in s.roomThreads && s.roomThreads[room] == t
    {
      assert ThreadOk(s, t);
    }
    if room in s.roomThreads {
      assert s'.threads == s.threads;
    } else {
      assert s'.threads[|s.threads|] == RoomThread(room, Looping);
    }
  }
}
