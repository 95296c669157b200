/** Delivery over whole runs: what is accepted for a room, what its room thread drains, what each member is sent. */
module HandOffDelivery {
  import opened RelayTypes
  import opened HandOff
  import opened HandOffInvariant

  /** All packets that left the pending vector of a room, in order. */
  function Departed(fates: seq<Fate>): seq<Packet> {
    if fates == [] then [] else Departed(fates[..|fates| - 1]) + fates[|fates| - 1].batch
  }

  /** The batches that room thread c swapped out. */
  function DrainedBy(fates: seq<Fate>, c: nat): seq<seq<Packet>> {
    if fates == [] then []
    else
      var f := fates[|fates| - 1];
      DrainedBy(fates[..|fates| - 1], c) + (if f.Drained? && f.caller == c then [f.batch] else [])
  }

  function Batches(ticks: seq<Tick>): seq<seq<Packet>> {
    if ticks == [] then [] else Batches(ticks[..|ticks| - 1]) + [ticks[|ticks| - 1].batch]
  }

  /** The bytes sent to a member, in order. */
  function Stream(sent: seq<Send>, m: Connection): string {
    if sent == [] then []
    else
      var e := sent[|sent| - 1];
      Stream(sent[..|sent| - 1], m) + (if e.member == m then e.bytes else [])
  }

  /** What the ticks in whose snapshot a member appears owe it. */
  function Expected(ticks: seq<Tick>, m: Connection): string {
    if ticks == [] then []
    else
      var t := ticks[|ticks| - 1];
      Expected(ticks[..|ticks| - 1], m) + (if m in t.members then Owed(t.batch, m.identifier) else [])
  }

  predicate Distinct(members: seq<Connection>) {
    forall i, j :: 0 <= i < j < |members| ==> members[i].identifier != members[j].identifier
  }

  /** The job for member m in the current tick has run. */
  predicate Served(s: Pool, c: nat, m: Connection)
    requires c < |s.callers| && |s.callers[c].ticks| > 0
  {
    var n := |s.callers[c].ticks|;
    var members := s.callers[c].ticks[n - 1].members;
    exists i :: 0 <= i < |members| && members[i] == m && s.ran[Job(c, n, i)] == 1
  }

  predicate StreamOk(s: Pool, c: nat, m: Connection)
    requires c < |s.callers|
  {
    var caller := s.callers[c];
    Stream(caller.sent, m) ==
    if caller.ticks == [] then []
    else
      var n := |caller.ticks|;
      Expected(caller.ticks[..n - 1], m)
      + (if Served(s, c, m) then Owed(caller.ticks[n - 1].batch, m.identifier) else [])
  }

  ghost predicate StreamsOk(s: Pool, c: nat)
    requires c < |s.callers|
  {
    && (forall i :: 0 <= i < |s.callers[c].ticks| ==> Distinct(s.callers[c].ticks[i].members))
    && (forall m :: StreamOk(s, c, m))
  }

  /** Packets of a room are conserved, in order. */
  predicate RoomOk(s: Rooms, room: Key) {
    Get(s.accepted, room) == Departed(Get(s.fates, room)) + Get(s.packets, room)
  }

  /** A room thread ticks exactly over the batches it drained. */
  predicate DrainOk(fates: map<Key, seq<Fate>>, caller: Caller, c: nat) {
    DrainedBy(Get(fates, caller.room), c)
    == Batches(caller.ticks) + (if caller.pc.Snapshot? then [caller.packets] else [])
  }

  /** Threads that do not exist yet have drained nothing. */
  predicate DrainersExist(fates: map<Key, seq<Fate>>, count: nat) {
    forall room, i :: room in fates && 0 <= i < |fates[room]| && fates[room][i].Drained? ==>
      fates[room][i].caller < count
  }

  ghost predicate Delivery(s: State) {
    && (forall room: Key :: RoomOk(s.rooms, room))
    && (forall room :: room in s.rooms.handles ==> Distinct(s.rooms.handles[room]))
    && DrainersExist(s.rooms.fates, |s.pool.callers|)
    && (forall c :: 0 <= c < |s.pool.callers| ==> DrainOk(s.rooms.fates, s.pool.callers[c], c))
    && (forall c :: 0 <= c < |s.pool.callers| ==> StreamsOk(s.pool, c))
  }

  lemma {:induction false} WithoutDistinct(members: seq<Connection>, identifier: int)
    requires Distinct(members)
    ensures var rest := Without(members, identifier);
            && Distinct(rest) && !Enrolled(rest, identifier)
            && (forall m :: m in rest <==> m in members && m.identifier != identifier)
  {
    if members == [] {
    } else if members[0].identifier == identifier {
      assert members == [members[0]] + members[1..];
    } else {
      WithoutDistinct(members[1..], identifier);
      var rest := Without(members[1..], identifier);
      assert Without(members, identifier) == [members[0]] + rest;
      assert members == [members[0]] + members[1..];
      forall j | 0 <= j < |rest|
        ensures rest[j].identifier != members[0].identifier
      {
        assert rest[j] in members[1..];
      }
    }
  }

  /** Nothing that delivery speaks about changes for this caller. */
  predicate SameHistory(a: Caller, b: Caller) {
    && a.ticks == b.ticks && a.sent == b.sent && a.room == b.room
    && a.pc.Snapshot? == b.pc.Snapshot? && (a.pc.Snapshot? ==> a.packets == b.packets)
  }

  predicate Silent(s: Pool, s': Pool) {
    && s'.ran == s.ran && |s'.callers| == |s.callers|
    && forall c :: 0 <= c < |s.callers| ==> SameHistory(s.callers[c], s'.callers[c])
  }

  lemma StreamFrame(s: Pool, s': Pool, c: nat)
    requires c < |s.callers| && c < |s'.callers| && StreamsOk(s, c)
    requires s'.callers[c].ticks == s.callers[c].ticks && s'.callers[c].sent == s.callers[c].sent
    requires forall j: Job :: j.caller == c ==> s'.ran[j] == s.ran[j]
    ensures StreamsOk(s', c)
  {
    forall m
      ensures StreamOk(s', c, m)
    {
      assert StreamOk(s, c, m);
      assert |s.callers[c].ticks| > 0 ==> (Served(s', c, m) <==> Served(s, c, m));
    }
  }

  lemma SilentKeepsDelivery(s: State, p: Pool)
    requires Delivery(s) && Silent(s.pool, p)
    ensures Delivery(s.(pool := p))
  {
    forall c | 0 <= c < |p.callers|
      ensures DrainOk(s.rooms.fates, p.callers[c], c) && StreamsOk(p, c)
    {
      assert SameHistory(s.pool.callers[c], p.callers[c]) && DrainOk(s.rooms.fates, s.pool.callers[c], c);
      StreamFrame(s.pool, p, c);
    }
  }

  /** One job sends to one member exactly what its batch owes it. */
  lemma SendKeepsDelivery(s: State, w: nat)
    requires Inv(s.pool) && Delivery(s) && w < |s.pool.workers| && s.pool.workers[w].pc.Copy?
    ensures Delivery(s.(pool := CopyStep(s.pool, w, s.pool.workers[w].pc.capacity)))
  {
    var p := s.pool;
    assert WorkerOk(p.workers[w]) && FlightOk(p, w);
    CopyFits(p, w);
    var j := p.workers[w].task.value;
    var send := Send(j, p.callers[j.caller].connections[j.index], Bytes(p, j));
    var p' := AfterSend(p, w, send);
    assert CallerOk(p, j.caller);
    forall c | 0 <= c < |p'.callers|
      ensures DrainOk(s.rooms.fates, p'.callers[c], c) && StreamsOk(p', c)
    {
      assert DrainOk(s.rooms.fates, p.callers[c], c);
      if c == j.caller {
        SendExtendsStream(p, w, send);
      } else {
        StreamFrame(p, p', c);
      }
    }
  }

  lemma SendExtendsStream(s: Pool, w: nat, send: Send)
    requires w < |s.workers| && send.job.caller < |s.callers| && StreamsOk(s, send.job.caller)
    requires var j := send.job; var caller := s.callers[j.caller];
             && TickOk(caller) && Busy(caller.pc) && j.tick == |caller.ticks| && j.index < |caller.connections|
             && s.ran[j] == 0
             && send.member == caller.connections[j.index]
             && send.bytes == Owed(caller.packets, send.member.identifier)
    ensures StreamsOk(AfterSend(s, w, send), send.job.caller)
  {
    var s' := AfterSend(s, w, send);
    var c := send.job.caller;
    var sent' := s'.callers[c].sent;
    assert sent'[..|sent'| - 1] == s.callers[c].sent;
    forall m
      ensures StreamOk(s', c, m)
    {
      assert StreamOk(s, c, m);
      SendServes(s, w, send, m);
    }
  }

  /** Members are distinct, so a send serves its own member, for the first time, and no other. */
  lemma SendServes(s: Pool, w: nat, send: Send, m: Connection)
    requires w < |s.workers| && send.job.caller < |s.callers| && StreamsOk(s, send.job.caller)
    requires var j := send.job; var caller := s.callers[j.caller];
             && TickOk(caller) && Busy(caller.pc) && j.tick == |caller.ticks| && j.index < |caller.connections|
             && s.ran[j] == 0 && send.member == caller.connections[j.index]
    ensures var s' := AfterSend(s, w, send); var c := send.job.caller;
            if m == send.member then Served(s', c, m) && !Served(s, c, m) else Served(s', c, m) == Served(s, c, m)
  {
    var s' := AfterSend(s, w, send);
    var c := send.job.caller;
    var n := |s.callers[c].ticks|;
    var members := s.callers[c].ticks[n - 1].members;
    assert Distinct(members);
    if m == send.member {
      assert members[send.job.index] == m && s'.ran[Job(c, n, send.job.index)] == 1;
    }
  }

  lemma FatesGrow(fates: seq<Fate>, f: Fate)
    ensures Departed(fates + [f]) == Departed(fates) + f.batch
    ensures forall c :: DrainedBy(fates + [f], c)
                        == DrainedBy(fates, c) + (if f.Drained? && f.caller == c then [f.batch] else [])
  {
    assert (fates + [f])[..|fates + [f]| - 1] == fates;
  }

  /** A drained batch leaves the pending vector whole. */
  lemma TakePacketsKeepsRooms(s: Rooms, room: Key, c: nat, r: Key)
    requires RoomOk(s, r)
    ensures RoomOk(TakePackets(s, room, c), r)
  {
    FatesGrow(Get(s.fates, room), Drained(c, Get(s.packets, room)));
  }

  /** It becomes the next tick of the thread that took it. */
  lemma TakerTicksNext(s: Rooms, caller: Caller, c: nat)
    requires DrainOk(s.fates, caller, c) && !caller.pc.Snapshot?
    ensures DrainOk(TakePackets(s, caller.room, c).fates,
                    caller.(pc := Snapshot, packets := Get(s.packets, caller.room)), c)
  {
    FatesGrow(Get(s.fates, caller.room), Drained(c, Get(s.packets, caller.room)));
  }

  /** And of no other thread. */
  lemma OthersTickOn(s: Rooms, room: Key, c: nat, caller: Caller, d: nat)
    requires DrainOk(s.fates, caller, d) && c != d
    ensures DrainOk(TakePackets(s, room, c).fates, caller, d)
  {
    FatesGrow(Get(s.fates, room), Drained(c, Get(s.packets, room)));
  }

  lemma TakeBatchKeepsDrains(s: State, c: nat, d: nat)
    requires c < |s.pool.callers| && s.pool.callers[c].pc.Drain? && d < |s.pool.callers|
    requires DrainOk(s.rooms.fates, s.pool.callers[d], d)
    ensures DrainOk(DrainStep(s, c).rooms.fates, DrainStep(s, c).pool.callers[d], d)
  {
    if Get(s.rooms.packets, s.pool.callers[c].room) != [] {
      if c == d {
        TakerTicksNext(s.rooms, s.pool.callers[c], c);
      } else {
        OthersTickOn(s.rooms, s.pool.callers[c].room, c, s.pool.callers[d], d);
      }
    }
  }

  lemma DrainKeepsDelivery(s: State, c: nat)
    requires Delivery(s) && c < |s.pool.callers| && s.pool.callers[c].pc.Drain?
    ensures Delivery(DrainStep(s, c))
  {
    var s' := DrainStep(s, c);
    forall r: Key
      ensures RoomOk(s'.rooms, r)
    {
      assert RoomOk(s.rooms, r);
      TakePacketsKeepsRooms(s.rooms, s.pool.callers[c].room, c, r);
    }
    forall d | 0 <= d < |s'.pool.callers|
      ensures DrainOk(s'.rooms.fates, s'.pool.callers[d], d) && StreamsOk(s'.pool, d)
    {
      assert DrainOk(s.rooms.fates, s.pool.callers[d], d);
      TakeBatchKeepsDrains(s, c, d);
      StreamFrame(s.pool, s'.pool, d);
    }
  }

  /** Between ticks every member of the last snapshot has been served. */
  lemma AllServed(s: Pool, c: nat, m: Connection)
    requires Inv(s) && c < |s.callers| && !Busy(s.callers[c].pc) && |s.callers[c].ticks| > 0
    ensures Served(s, c, m) <==> m in s.callers[c].ticks[|s.callers[c].ticks| - 1].members
  {
    var n := |s.callers[c].ticks|;
    var members := s.callers[c].ticks[n - 1].members;
    forall i | 0 <= i < |members|
      ensures s.ran[Job(c, n, i)] == 1
    {
      assert JobOk(s, Job(c, n, i));
    }
  }

  lemma IdleStream(s: Pool, c: nat, m: Connection)
    requires Inv(s) && c < |s.callers| && StreamsOk(s, c) && !Busy(s.callers[c].pc)
    ensures Stream(s.callers[c].sent, m) == Expected(s.callers[c].ticks, m)
  {
    assert StreamOk(s, c, m);
    if s.callers[c].ticks != [] {
      AllServed(s, c, m);
    }
  }

  lemma TakeMembersKeepsStreams(s: Pool, c: nat, members: seq<Connection>)
    requires Inv(s) && c < |s.callers| && StreamsOk(s, c) && s.callers[c].pc.Snapshot? && Distinct(members)
    ensures StreamsOk(TakeMembers(s, c, members), c)
  {
    var s' := TakeMembers(s, c, members);
    var ticks' := s'.callers[c].ticks;
    assert ticks'[..|ticks'| - 1] == s.callers[c].ticks;
    forall m
      ensures StreamOk(s', c, m)
    {
      IdleStream(s, c, m);
      forall i: nat
        ensures s.ran[Job(c, |ticks'|, i)] == 0
      {
        assert JobOk(s, Job(c, |ticks'|, i));
      }
    }
  }

  lemma SnapshotKeepsDelivery(s: State, c: nat)
    requires Inv(s.pool) && Delivery(s) && c < |s.pool.callers| && s.pool.callers[c].pc.Snapshot?
    ensures Delivery(CallerStep(s, c).value)
  {
    var members := Get(s.rooms.handles, s.pool.callers[c].room);
    var p' := TakeMembers(s.pool, c, members);
    forall d | 0 <= d < |p'.callers|
      ensures DrainOk(s.rooms.fates, p'.callers[d], d) && StreamsOk(p', d)
    {
      assert DrainOk(s.rooms.fates, s.pool.callers[d], d);
      if d == c {
        TakeMembersKeepsStreams(s.pool, c, members);
        var ticks' := p'.callers[c].ticks;
        assert ticks'[..|ticks'| - 1] == s.pool.callers[c].ticks;
      } else {
        StreamFrame(s.pool, p', d);
      }
    }
  }

  lemma SpawnKeepsDelivery(s: State, room: Key)
    requires Inv(s.pool) && Delivery(s)
    ensures Delivery(Step(s, Spawn(room)).value)
  {
    var p' := Step(s, Spawn(room)).value.pool;
    forall d | 0 <= d < |p'.callers|
      ensures DrainOk(s.rooms.fates, p'.callers[d], d) && StreamsOk(p', d)
    {
      if d < |s.pool.callers| {
        assert DrainOk(s.rooms.fates, s.pool.callers[d], d);
        StreamFrame(s.pool, p', d);
      } else {
        NeverDrained(Get(s.rooms.fates, room), d);
      }
    }
  }

  lemma {:induction false} NeverDrained(fates: seq<Fate>, c: nat)
    requires forall i :: 0 <= i < |fates| && fates[i].Drained? ==> fates[i].caller != c
    ensures DrainedBy(fates, c) == []
  {
    if fates == [] {
    } else {
      NeverDrained(fates[..|fates| - 1], c);
    }
  }

  /** Destroying a room discards its pending packets whole; the other sections move nothing out. */
  lemma SectionKeepsRooms(s: Rooms, a: Action, r: Key)
    requires RoomOk(s, r)
    ensures RoomOk(Section(s, a), r)
  {
    if a.ErasePackets? && a.room in s.packets {
      FatesGrow(Get(s.fates, a.room), Discarded(s.packets[a.room]));
    }
  }

  lemma SectionKeepsDrains(s: Rooms, a: Action, caller: Caller, c: nat)
    requires DrainOk(s.fates, caller, c)
    ensures DrainOk(Section(s, a).fates, caller, c)
  {
    if a.ErasePackets? && a.room in s.packets {
      FatesGrow(Get(s.fates, a.room), Discarded(s.packets[a.room]));
    }
  }

  lemma SectionKeepsHandles(s: Rooms, a: Action)
    requires forall room :: room in s.handles ==> Distinct(s.handles[room])
    ensures forall room :: room in Section(s, a).handles ==> Distinct(Section(s, a).handles[room])
  {
    forall room | room in Section(s, a).handles
      ensures Distinct(Section(s, a).handles[room])
    {
      if a.Withdraw? {
        WithoutDistinct(s.handles[room], a.identifier);
      }
    }
  }

  lemma SectionKeepsDelivery(s: State, a: Action)
    requires Delivery(s)
    ensures Delivery(s.(rooms := Section(s.rooms, a)))
  {
    forall r: Key
      ensures RoomOk(Section(s.rooms, a), r)
    {
      assert RoomOk(s.rooms, r);
      SectionKeepsRooms(s.rooms, a, r);
    }
    forall c | 0 <= c < |s.pool.callers|
      ensures DrainOk(Section(s.rooms, a).fates, s.pool.callers[c], c)
    {
      assert DrainOk(s.rooms.fates, s.pool.callers[c], c);
      SectionKeepsDrains(s.rooms, a, s.pool.callers[c], c);
    }
    SectionKeepsHandles(s.rooms, a);
  }

  lemma StepKeepsDelivery(s: State, a: Action)
    requires Inv(s.pool) && Delivery(s) && Step(s, a).Some?
    ensures Delivery(Step(s, a).value)
  {
    if a.CallerAct? {
      CallerKeepsDelivery(s, a.c);
    } else if a.WorkerAct? && s.pool.workers[a.w].pc.Copy? {
      SendKeepsDelivery(s, a.w);
    } else if a.WorkerAct? {
      SilentKeepsDelivery(s, WorkerStep(s.pool, a.w).value);
    } else if a.DestructorAct? {
      SilentKeepsDelivery(s, SetWorker(s.pool, a.w, DestructorStep(s.pool.workers[a.w]).value));
    } else if a.Spawn? {
      SpawnKeepsDelivery(s, a.room);
    } else {
      SectionKeepsDelivery(s, a);
    }
  }

  lemma CallerKeepsDelivery(s: State, c: nat)
    requires Inv(s.pool) && Delivery(s) && c < |s.pool.callers| && CallerStep(s, c).Some?
    ensures Delivery(CallerStep(s, c).value)
  {
    var caller := s.pool.callers[c];
    if caller.pc.Drain? {
      DrainKeepsDelivery(s, c);
    } else if caller.pc.Snapshot? {
      SnapshotKeepsDelivery(s, c);
    } else {
      var p' := CallerStep(s, c).value.pool;
      if Submitting(caller.pc) {
        SilentSubmit(s.pool, c);
      } else if !caller.pc.CheckRoom? {
        SilentTick(s.pool, c);
      }
      SilentKeepsDelivery(s, p');
    }
  }

  lemma SilentSubmit(s: Pool, c: nat)
    requires c < |s.callers| && SubmitStep(s, c).Some?
    ensures Silent(s, SubmitStep(s, c).value)
  {
  }

  lemma SilentTick(s: Pool, c: nat)
    requires c < |s.callers| && TickStep(s, c).Some?
    ensures Silent(s, TickStep(s, c).value)
  {
  }

  lemma {:induction false} ReachableDelivery(s: State, workerCount: nat, actions: seq<Action>)
    requires Reachable(s, workerCount, actions) && Defined(s.pool)
    ensures Inv(s.pool) && Delivery(s)
    decreases |actions|
  {
    if actions == [] {
      InitialInv(workerCount);
    } else {
      var front, a := actions[..|actions| - 1], actions[|actions| - 1];
      var t := Run(Initial(workerCount), front).value;
      CrashIsFinal(t, a);
      ReachableDelivery(t, workerCount, front);
      StepKeepsInv(t, a);
      StepKeepsDelivery(t, a);
    }
  }
}
