/** What the hand-off protocol and the tick loops guarantee in every reachable state. */
module HandOffTheorems {
  import opened RelayTypes
  import opened HandOff
  import opened HandOffInvariant
  import opened HandOffDelivery

  /** A submitted job runs at most once and finishes at most once, after it ran; both have happened exactly once
      when the tick is over, and neither for a job that was never submitted. */
  lemma ExactlyOnce(s: State, workerCount: nat, actions: seq<Action>, j: Job)
    requires Reachable(s, workerCount, actions) && Defined(s.pool)
    ensures s.pool.finished[j] <= s.pool.ran[j] <= 1
    ensures !Submitted(s.pool, j) ==> s.pool.ran[j] == 0
    ensures Submitted(s.pool, j) && !Current(s.pool, j) ==> s.pool.ran[j] == 1 && s.pool.finished[j] == 1
  {
    ReachableInv(s, workerCount, actions);
    assert JobOk(s.pool, j);
  }

  /** The worker signals the job it ran, on the first signal of that job. */
  lemma SignalsItsOwnJob(s: State, workerCount: nat, actions: seq<Action>, w: nat)
    requires Reachable(s, workerCount, actions) && Defined(s.pool) && w < |s.pool.workers|
    ensures s.pool.workers[w].pc.CallDone? ==>
              && s.pool.workers[w].task.Some? && s.pool.workers[w].done == s.pool.workers[w].task
              && s.pool.ran[s.pool.workers[w].done.value] == 1 && s.pool.finished[s.pool.workers[w].done.value] == 0
  {
    ReachableInv(s, workerCount, actions);
    assert WorkerOk(s.pool.workers[w]) && FlightOk(s.pool, w);
  }

  /** Whoever writes m_function, m_done or m_exit is the only one to hold the worker, and the worker waits on
      m_runningLock, which only the writer's own later release opens. */
  lemma NoDataRace(s: State, workerCount: nat, actions: seq<Action>, w: nat)
    requires Reachable(s, workerCount, actions) && Defined(s.pool) && w < |s.pool.workers|
    ensures var k := s.pool.workers[w];
            forall c :: 0 <= c < |s.pool.callers| && Claimed(s.pool.callers[c].pc) == Some(w) ==>
              && k.pc == Await && k.runningLocked && k.threadLocked && k.destructor == Alive
              && forall d :: 0 <= d < |s.pool.callers| && Claimed(s.pool.callers[d].pc) == Some(w) ==> d == c
    ensures var k := s.pool.workers[w];
            k.destructor == SettingExit ==>
              && k.pc == Await && k.runningLocked
              && forall c :: 0 <= c < |s.pool.callers| ==> Claimed(s.pool.callers[c].pc) != Some(w)
  {
    ReachableInv(s, workerCount, actions);
    assert WorkerOk(s.pool.workers[w]);
    forall c | 0 <= c < |s.pool.callers| && Claimed(s.pool.callers[c].pc) == Some(w)
      ensures s.pool.workers[w].claimant == Some(c)
    {
      assert CallerOk(s.pool, c);
    }
  }

  /** join() returns from its acquire only when the job has run and signalled. */
  lemma JoinWaits(s: State, workerCount: nat, actions: seq<Action>, c: nat)
    requires Reachable(s, workerCount, actions) && Defined(s.pool)
    requires c < |s.pool.callers| && s.pool.callers[c].pc.JoinRelease?
    ensures var caller := s.pool.callers[c];
            && caller.pc.i < |caller.controllers|
            && s.pool.ran[caller.controllers[caller.pc.i].job] == 1
            && s.pool.finished[caller.controllers[caller.pc.i].job] == 1
  {
    ReachableInv(s, workerCount, actions);
    assert CallerOk(s.pool, c);
    var caller := s.pool.callers[c];
    assert ControllerOk(s.pool, c, caller.pc.i);
    assert JobOk(s.pool, caller.controllers[caller.pc.i].job);
  }

  /** The vectors that the jobs of caller c refer to are the same. */
  predicate SameVectors(p: Pool, p': Pool, c: nat) {
    && c < |p.callers| && c < |p'.callers|
    && p'.callers[c].packets == p.callers[c].packets && p'.callers[c].connections == p.callers[c].connections
  }

  /** No step of anybody changes the vectors that a job in flight refers to. */
  lemma JoinBarrier(s: State, workerCount: nat, actions: seq<Action>, w: nat, a: Action)
    requires Reachable(s, workerCount, actions) && Defined(s.pool)
    requires w < |s.pool.workers| && InFlight(s.pool.workers[w])
    requires Step(s, a).Some?
    ensures s.pool.workers[w].task.Some?
    ensures SameVectors(s.pool, Step(s, a).value.pool, s.pool.workers[w].task.value.caller)
  {
    ReachableInv(s, workerCount, actions);
    assert WorkerOk(s.pool.workers[w]) && FlightOk(s.pool, w);
    var c := s.pool.workers[w].task.value.caller;
    if a.CallerAct? {
      CallerKeepsVectors(s, a.c, c);
    } else if a.WorkerAct? {
      WorkerKeepsVectors(s.pool, a.w, c);
    }
  }

  lemma CallerKeepsVectors(s: State, c: nat, d: nat)
    requires c < |s.pool.callers| && CallerStep(s, c).Some? && d < |s.pool.callers|
    requires c == d ==> Busy(s.pool.callers[c].pc)
    ensures SameVectors(s.pool, CallerStep(s, c).value.pool, d)
  {
  }

  lemma WorkerKeepsVectors(s: Pool, w: nat, d: nat)
    requires w < |s.workers| && WorkerStep(s, w).Some? && d < |s.callers|
    ensures SameVectors(s, WorkerStep(s, w).value, d)
  {
  }

  /** Once a destructor holds a worker, no job is in flight there, every job handed to it has finished, and the
      destructor returns only when the thread has left its loop. */
  lemma DestructorIsLast(s: State, workerCount: nat, actions: seq<Action>, w: nat)
    requires Reachable(s, workerCount, actions) && Defined(s.pool)
    requires w < |s.pool.workers| && s.pool.workers[w].destructor != Alive
    ensures !InFlight(s.pool.workers[w])
    ensures s.pool.workers[w].destructor == Destroyed ==> s.pool.workers[w].pc == Exited
    ensures forall c, i :: 0 <= c < |s.pool.callers| && Busy(s.pool.callers[c].pc)
                           && 0 <= i < |s.pool.callers[c].controllers|
                           && s.pool.callers[c].controllers[i].worker == w ==>
                             s.pool.finished[s.pool.callers[c].controllers[i].job] == 1
  {
    ReachableInv(s, workerCount, actions);
    assert WorkerOk(s.pool.workers[w]);
    forall c, i | 0 <= c < |s.pool.callers| && Busy(s.pool.callers[c].pc)
                  && 0 <= i < |s.pool.callers[c].controllers| && s.pool.callers[c].controllers[i].worker == w
      ensures s.pool.finished[s.pool.callers[c].controllers[i].job] == 1
    {
      assert CallerOk(s.pool, c);
      assert ControllerOk(s.pool, c, i);
      assert JobOk(s.pool, s.pool.callers[c].controllers[i].job);
    }
  }

  /** The job a worker owns: in flight, or about to be handed over by the caller that claimed the worker. */
  function OwnedBy(s: Pool, w: nat): Option<Job>
    requires w < |s.workers|
  {
    var k := s.workers[w];
    if InFlight(k) then k.task
    else if k.claimant.Some? && k.claimant.value < |s.callers| then Some(CurrentJob(s, k.claimant.value))
    else None
  }

  predicate Owned(s: Pool, j: Job) {
    exists w :: 0 <= w < |s.workers| && OwnedBy(s, w) == Some(j)
  }

  /** The caller has not obtained a worker for this job of its current tick. */
  predicate Waiting(s: Pool, j: Job)
    requires j.caller < |s.callers|
  {
    var caller := s.callers[j.caller];
    j.index > |caller.controllers| || (j.index == |caller.controllers| && Claimed(caller.pc) == None)
  }

  /** Each job of a running tick is waiting, owned by a worker, or finished, and never two of these. */
  lemma JobIsInOnePlace(s: State, workerCount: nat, actions: seq<Action>, j: Job)
    requires Reachable(s, workerCount, actions) && Defined(s.pool) && Current(s.pool, j)
    requires j.index < |s.pool.callers[j.caller].connections|
    ensures Waiting(s.pool, j) || Owned(s.pool, j) || s.pool.finished[j] == 1
    ensures Waiting(s.pool, j) ==> !Owned(s.pool, j) && s.pool.finished[j] == 0
    ensures Owned(s.pool, j) ==> s.pool.finished[j] == 0
  {
    ReachableInv(s, workerCount, actions);
    var p := s.pool;
    assert CallerOk(p, j.caller) && JobOk(p, j);
    var caller := p.callers[j.caller];
    forall w | 0 <= w < |p.workers| && OwnedBy(p, w) == Some(j)
      ensures p.finished[j] == 0 && !Waiting(p, j)
    {
      assert WorkerOk(p.workers[w]) && ClaimOk(p, w) && FlightOk(p, w);
    }
    if j.index < |caller.controllers| {
      assert ControllerOk(p, j.caller, j.index);
      if p.finished[j] == 0 {
        assert OwnedBy(p, caller.controllers[j.index].worker) == Some(j);
      }
    } else if !Waiting(p, j) {
      var w := Claimed(caller.pc).value;
      assert WorkerOk(p.workers[w]) && ClaimOk(p, w);
      assert OwnedBy(p, w) == Some(j);
    }
  }

  /** No two workers own the same job (a worker owns at most one by definition). */
  lemma OneOwner(s: State, workerCount: nat, actions: seq<Action>, v: nat, w: nat)
    requires Reachable(s, workerCount, actions) && Defined(s.pool) && v < |s.pool.workers| && w < |s.pool.workers|
    requires OwnedBy(s.pool, v).Some? && OwnedBy(s.pool, v) == OwnedBy(s.pool, w)
    ensures v == w
  {
    ReachableInv(s, workerCount, actions);
    assert WorkerOk(s.pool.workers[v]) && WorkerOk(s.pool.workers[w]);
    assert ClaimOk(s.pool, v) && ClaimOk(s.pool, w) && FlightOk(s.pool, v) && FlightOk(s.pool, w);
  }

  function OwnedJobs(s: Pool, count: nat): set<Job>
    requires count <= |s.workers|
  {
    set w | 0 <= w < count && OwnedBy(s, w).Some? :: OwnedBy(s, w).value
  }

  /** The first workers own at most one job each. */
  lemma {:induction false} OwnedAtMostWorkers(s: Pool, count: nat)
    requires count <= |s.workers|
    ensures |OwnedJobs(s, count)| <= count
  {
    if count == 0 {
      assert OwnedJobs(s, 0) == {};
    } else {
      OwnedAtMostWorkers(s, count - 1);
      var last := OwnedBy(s, count - 1);
      assert OwnedJobs(s, count) == OwnedJobs(s, count - 1) + (if last.Some? then {last.value} else {});
    }
  }

  /** Over every set of jobs: no more of them are handed over and unfinished than there are workers. */
  lemma UnfinishedAtMostWorkers(s: State, workerCount: nat, actions: seq<Action>, jobs: set<Job>)
    requires Reachable(s, workerCount, actions) && Defined(s.pool)
    requires forall j :: j in jobs ==> Submitted(s.pool, j) && s.pool.finished[j] == 0
    ensures |jobs| <= |s.pool.workers|
  {
    ReachableInv(s, workerCount, actions);
    OwnedAtMostWorkers(s.pool, |s.pool.workers|);
    forall j | j in jobs
      ensures j in OwnedJobs(s.pool, |s.pool.workers|)
    {
      UnfinishedIsOwned(s, workerCount, actions, j);
      var w :| 0 <= w < |s.pool.workers| && OwnedBy(s.pool, w) == Some(j);
    }
    SubsetIsSmaller(jobs, OwnedJobs(s.pool, |s.pool.workers|));
  }

  lemma UnfinishedIsOwned(s: State, workerCount: nat, actions: seq<Action>, j: Job)
    requires Reachable(s, workerCount, actions) && Defined(s.pool)
    requires Submitted(s.pool, j) && s.pool.finished[j] == 0
    ensures Owned(s.pool, j)
  {
    ReachableInv(s, workerCount, actions);
    assert JobOk(s.pool, j) && CallerOk(s.pool, j.caller);
    JobIsInOnePlace(s, workerCount, actions, j);
  }

  lemma SubsetIsSmaller<T>(a: set<T>, b: set<T>)
    requires a <= b
    ensures |a| <= |b|
  {
    assert b == a + (b - a);
  }

  /** How far a worker is from offering itself again, or its destructor from returning. */
  function Rank(s: Pool, w: nat): nat
    requires w < |s.workers|
  {
    var k := s.workers[w];
    match k.pc
    case Await =>
      if k.destructor == SettingExit then 5
      else if k.destructor == Waking then 4
      else if k.destructor == Joining then 3
      else if !k.runningLocked then 16
      else if k.claimant.Some? && k.claimant.value < |s.callers| then ClaimRank(s.callers[k.claimant.value].pc)
      else 0
    case ExitTest => if k.exit then 2 else 15
    case Count => 14
    case Copy(_) => 13
    case CallDone => 12
    case LoopTest => 11
    case RunRelease => 10
    case RunAcquire => 9
    case ThreadRelease => 8
    case Exited => if k.destructor == Destroyed then 0 else 1
    case Crashed => 0
  }

  function ClaimRank(pc: CallerPc): nat {
    match pc
    case AcquireController(_) => 20
    case SetTask(_) => 19
    case SetDone(_) => 18
    case _ => 17
  }

  /** The actor whose turn it is at a worker that is neither claimable nor destroyed. */
  function Responsible(s: Pool, w: nat): Action
    requires w < |s.workers|
  {
    var k := s.workers[w];
    if k.pc == Await && k.claimant.Some? then CallerAct(k.claimant.value)
    else if k.destructor == SettingExit || k.destructor == Waking || (k.destructor == Joining && k.pc == Exited) then
      DestructorAct(w)
    else WorkerAct(w)
  }

  predicate Claimable(k: Worker) {
    k.pc == Await && !k.threadLocked
  }

  /** Every worker is claimable, or destroyed, or the actor responsible for it can step, and that step brings
      the worker strictly closer, unless it is the one that overflows the counter. */
  lemma Progress(s: State, workerCount: nat, actions: seq<Action>, w: nat)
    requires Reachable(s, workerCount, actions) && Defined(s.pool) && w < |s.pool.workers|
    requires !Claimable(s.pool.workers[w]) && s.pool.workers[w].destructor != Destroyed
    ensures var a := Responsible(s.pool, w);
            && Step(s, a).Some?
            && |Step(s, a).value.pool.workers| == |s.pool.workers|
            && (Defined(Step(s, a).value.pool) ==> Rank(Step(s, a).value.pool, w) < Rank(s.pool, w))
  {
    ReachableInv(s, workerCount, actions);
    var p := s.pool;
    var k := p.workers[w];
    assert WorkerOk(k) && ClaimOk(p, w) && FlightOk(p, w);
    if k.claimant.Some? {
      ClaimantProgresses(p, k.claimant.value, w);
    } else if Responsible(p, w).WorkerAct? {
      WorkerIsEnabled(p, w);
      WorkerRankNeverGrows(p, w);
    }
  }

  lemma WorkerIsEnabled(p: Pool, w: nat)
    requires Inv(p) && w < |p.workers| && !Claimable(p.workers[w]) && p.workers[w].destructor != Destroyed
    requires p.workers[w].claimant == None && Responsible(p, w).WorkerAct?
    ensures WorkerStep(p, w).Some?
  {
    assert WorkerOk(p.workers[w]);
  }

  lemma ClaimantProgresses(p: Pool, c: nat, w: nat)
    requires Inv(p) && c < |p.callers| && w < |p.workers| && p.workers[w].claimant == Some(c)
    ensures SubmitStep(p, c).Some? && |SubmitStep(p, c).value.workers| == |p.workers|
    ensures Rank(SubmitStep(p, c).value, w) < Rank(p, w)
  {
    assert CallerOk(p, c) && ClaimOk(p, w) && WorkerOk(p.workers[w]);
  }

  /** A caller blocked in join() waits for a worker that has its job in flight, so the wait is covered by Progress. */
  lemma BlockedJoinIsServed(s: State, workerCount: nat, actions: seq<Action>, c: nat)
    requires Reachable(s, workerCount, actions) && Defined(s.pool) && c < |s.pool.callers|
    requires s.pool.callers[c].pc.Join? && CallerStep(s, c).None?
    ensures var caller := s.pool.callers[c];
            && caller.pc.i < |caller.controllers|
            && var Controller(j, w) := caller.controllers[caller.pc.i];
               w < |s.pool.workers| && InFlight(s.pool.workers[w]) && s.pool.workers[w].task == Some(j)
  {
    ReachableInv(s, workerCount, actions);
    assert CallerOk(s.pool, c);
    assert ControllerOk(s.pool, c, s.pool.callers[c].pc.i);
    assert JobOk(s.pool, s.pool.callers[c].controllers[s.pool.callers[c].pc.i].job);
  }

  /** Nobody's step moves a worker that is not claimable away from being claimable. */
  lemma RankNeverGrows(s: State, workerCount: nat, actions: seq<Action>, w: nat, a: Action)
    requires Reachable(s, workerCount, actions) && Defined(s.pool) && w < |s.pool.workers| && Step(s, a).Some?
    requires !Claimable(s.pool.workers[w])
    ensures |Step(s, a).value.pool.workers| == |s.pool.workers|
    ensures Rank(Step(s, a).value.pool, w) <= Rank(s.pool, w)
  {
    ReachableInv(s, workerCount, actions);
    var p := s.pool;
    assert WorkerOk(p.workers[w]) && ClaimOk(p, w) && FlightOk(p, w);
    if a.CallerAct? {
      CallerRankNeverGrows(s, a.c, w);
    } else if a.WorkerAct? && a.w == w {
      WorkerRankNeverGrows(p, w);
    } else if a.WorkerAct? {
      OtherWorkerLeavesWorker(p, a.w, w);
    }
  }

  lemma CallerRankNeverGrows(s: State, c: nat, w: nat)
    requires Inv(s.pool) && c < |s.pool.callers| && w < |s.pool.workers| && CallerStep(s, c).Some?
    requires !Claimable(s.pool.workers[w])
    ensures |CallerStep(s, c).value.pool.workers| == |s.pool.workers|
    ensures Rank(CallerStep(s, c).value.pool, w) <= Rank(s.pool, w)
  {
    assert WorkerOk(s.pool.workers[w]) && ClaimOk(s.pool, w);
    if s.pool.workers[w].claimant == Some(c) {
      ClaimantProgresses(s.pool, c, w);
    } else {
      OtherCallerLeavesWorker(s, c, w);
    }
  }

  lemma WorkerRankNeverGrows(p: Pool, w: nat)
    requires Inv(p) && w < |p.workers| && WorkerStep(p, w).Some?
    ensures |WorkerStep(p, w).value.workers| == |p.workers|
    ensures Rank(WorkerStep(p, w).value, w) < Rank(p, w)
  {
    assert WorkerOk(p.workers[w]) && FlightOk(p, w);
    if p.workers[w].pc.Copy? {
      CopyFits(p, w);
    }
  }

  lemma OtherWorkerLeavesWorker(p: Pool, v: nat, w: nat)
    requires Inv(p) && v < |p.workers| && w < |p.workers| && v != w && WorkerStep(p, v).Some?
    ensures var p' := WorkerStep(p, v).value;
            |p'.workers| == |p.workers| && |p'.callers| == |p.callers| && Rank(p', w) == Rank(p, w)
  {
    assert WorkerOk(p.workers[v]) && FlightOk(p, v);
    if p.workers[v].pc.Copy? {
      CopyFits(p, v);
    }
  }

  lemma OtherCallerLeavesWorker(s: State, c: nat, w: nat)
    requires Inv(s.pool) && c < |s.pool.callers| && w < |s.pool.workers| && CallerStep(s, c).Some?
    requires !Claimable(s.pool.workers[w]) && s.pool.workers[w].claimant != Some(c)
    ensures var p' := CallerStep(s, c).value.pool;
            && |p'.workers| == |s.pool.workers| && p'.workers[w] == s.pool.workers[w]
            && |p'.callers| == |s.pool.callers|
            && (forall d :: 0 <= d < |p'.callers| && d != c ==> p'.callers[d] == s.pool.callers[d])
  {
    assert CallerOk(s.pool, c) && WorkerOk(s.pool.workers[w]);
  }

  /** Every accepted packet of a room left the pending vector with exactly one drained or discarded batch, or is
      still pending; order is kept throughout. */
  lemma PacketsAreConserved(s: State, workerCount: nat, actions: seq<Action>, room: Key)
    requires Reachable(s, workerCount, actions) && Defined(s.pool)
    ensures Get(s.rooms.accepted, room) == Departed(Get(s.rooms.fates, room)) + Get(s.rooms.packets, room)
  {
    ReachableDelivery(s, workerCount, actions);
    assert RoomOk(s.rooms, room);
  }

  /** Between ticks, a thread has ticked over exactly the batches it drained, and each member has been sent what
      those of them owe it in whose snapshot it appears. */
  lemma TicksDeliverBatches(s: State, workerCount: nat, actions: seq<Action>, c: nat, m: Connection)
    requires Reachable(s, workerCount, actions) && Defined(s.pool) && c < |s.pool.callers|
    requires !Busy(s.pool.callers[c].pc) && !s.pool.callers[c].pc.Snapshot?
    ensures var caller := s.pool.callers[c];
            && DrainedBy(Get(s.rooms.fates, caller.room), c) == Batches(caller.ticks)
            && Stream(caller.sent, m) == Expected(caller.ticks, m)
  {
    ReachableDelivery(s, workerCount, actions);
    assert DrainOk(s.rooms.fates, s.pool.callers[c], c);
    IdleStream(s.pool, c, m);
  }

  /** At every moment a stream is a prefix of what the ticks owe, and lacks at most the last tick's part. */
  lemma StreamIsAtMostATickBehind(s: State, workerCount: nat, actions: seq<Action>, c: nat, m: Connection)
    requires Reachable(s, workerCount, actions) && Defined(s.pool) && c < |s.pool.callers|
    ensures var caller := s.pool.callers[c]; var ticks := caller.ticks;
            && Stream(caller.sent, m) <= Expected(ticks, m)
            && (ticks != [] ==> Expected(ticks[..|ticks| - 1], m) <= Stream(caller.sent, m))
  {
    ReachableDelivery(s, workerCount, actions);
    assert StreamsOk(s.pool, c) && StreamOk(s.pool, c, m);
    var ticks := s.pool.callers[c].ticks;
    if ticks != [] && Served(s.pool, c, m) {
      var last := ticks[|ticks| - 1];
      assert m in last.members;
    }
  }

  predicate AlwaysMember(ticks: seq<Tick>, m: Connection) {
    forall i :: 0 <= i < |ticks| ==> m in ticks[i].members
  }

  function Joined(batches: seq<seq<Packet>>): seq<Packet> {
    if batches == [] then [] else Joined(batches[..|batches| - 1]) + batches[|batches| - 1]
  }

  /** For a constant member the tick boundaries do not show in the stream. */
  lemma {:induction false} ExpectedIsOwed(ticks: seq<Tick>, m: Connection)
    requires AlwaysMember(ticks, m)
    ensures Expected(ticks, m) == Owed(Joined(Batches(ticks)), m.identifier)
  {
    if ticks == [] {
    } else {
      var front := ticks[..|ticks| - 1];
      var batch := ticks[|ticks| - 1].batch;
      ExpectedIsOwed(front, m);
      OwedConcat(Joined(Batches(front)), batch, m.identifier);
      assert Batches(ticks)[..|Batches(ticks)| - 1] == Batches(front);
    }
  }

  predicate OnlyDrainer(fates: seq<Fate>, c: nat) {
    forall i :: 0 <= i < |fates| ==> fates[i].Drained? && fates[i].caller == c
  }

  lemma {:induction false} OnlyDrainerTakesAll(fates: seq<Fate>, c: nat)
    requires OnlyDrainer(fates, c)
    ensures Joined(DrainedBy(fates, c)) == Departed(fates)
  {
    if fates == [] {
    } else {
      var front := fates[..|fates| - 1];
      OnlyDrainerTakesAll(front, c);
      var batches := DrainedBy(fates, c);
      assert batches[..|batches| - 1] == DrainedBy(front, c);
    }
  }

  lemma {:induction false} DrainsConcat(a: seq<Fate>, b: seq<Fate>, c: nat)
    ensures DrainedBy(a + b, c) == DrainedBy(a, c) + DrainedBy(b, c)
  {
    if b == [] {
      assert a + b == a;
    } else {
      var front := b[..|b| - 1];
      assert (a + b)[..|a + b| - 1] == a + front;
      DrainsConcat(a, front, c);
    }
  }

  lemma {:induction false} DepartedConcat(a: seq<Fate>, b: seq<Fate>)
    ensures Departed(a + b) == Departed(a) + Departed(b)
  {
    if b == [] {
      assert a + b == a;
    } else {
      var front, batch := b[..|b| - 1], b[|b| - 1].batch;
      assert Departed(a + b) == Departed(a + front) + batch by {
        assert (a + b)[..|a + b| - 1] == a + front;
      }
      DepartedConcat(a, front);
      assert Departed(a) + Departed(front) + batch == Departed(a) + (Departed(front) + batch);
    }
  }

  lemma {:induction false} BatchesConcat(a: seq<Tick>, b: seq<Tick>)
    ensures Batches(a + b) == Batches(a) + Batches(b)
  {
    if b == [] {
      assert a + b == a;
    } else {
      var front := b[..|b| - 1];
      assert (a + b)[..|a + b| - 1] == a + front;
      BatchesConcat(a, front);
    }
  }

  lemma {:induction false} ExpectedConcat(a: seq<Tick>, b: seq<Tick>, m: Connection)
    ensures Expected(a + b, m) == Expected(a, m) + Expected(b, m)
  {
    if b == [] {
      assert a + b == a;
    } else {
      var front := b[..|b| - 1];
      assert (a + b)[..|a + b| - 1] == a + front;
      ExpectedConcat(a, front, m);
    }
  }

  lemma {:induction false} OneBatchPerTick(ticks: seq<Tick>)
    ensures |Batches(ticks)| == |ticks|
  {
    if ticks == [] {
    } else {
      OneBatchPerTick(ticks[..|ticks| - 1]);
    }
  }

  lemma {:induction false} OneBatchPerDrain(fates: seq<Fate>, c: nat)
    requires OnlyDrainer(fates, c)
    ensures |DrainedBy(fates, c)| == |fates|
  {
    if fates == [] {
    } else {
      OneBatchPerDrain(fates[..|fates| - 1], c);
    }
  }

  /** Equal concatenations with equal first parts have equal second parts. */
  lemma SplitAt<T>(whole: seq<T>, a: seq<T>, b: seq<T>, c: seq<T>)
    requires whole == a + b + c
    ensures whole[..|a|] == a && whole[|a|..|a| + |b|] == b && whole[|a| + |b|..] == c
  {
  }

  /** The ticks over the batches of a stretch of a room's history. */
  lemma StretchOfTicks(past: seq<Fate>, life: seq<Fate>, rest: seq<Fate>, ticks: seq<Tick>, c: nat, m: Connection)
    requires DrainedBy(past + life + rest, c) == Batches(ticks) && OnlyDrainer(life, c)
    ensures var t := |DrainedBy(past, c)|;
            && t + |life| <= |ticks|
            && Batches(ticks[t..t + |life|]) == DrainedBy(life, c)
            && Expected(ticks, m)
               == Expected(ticks[..t], m) + Expected(ticks[t..t + |life|], m) + Expected(ticks[t + |life|..], m)
  {
    var t := |DrainedBy(past, c)|;
    DrainsConcat(past + life, rest, c);
    DrainsConcat(past, life, c);
    OneBatchPerDrain(life, c);
    OneBatchPerTick(ticks);
    var u := t + |life|;
    assert ticks == ticks[..t] + ticks[t..u] + ticks[u..];
    BatchesConcat(ticks[..t] + ticks[t..u], ticks[u..]);
    BatchesConcat(ticks[..t], ticks[t..u]);
    ExpectedConcat(ticks[..t] + ticks[t..u], ticks[u..], m);
    ExpectedConcat(ticks[..t], ticks[t..u], m);
    OneBatchPerTick(ticks[..t]);
    OneBatchPerTick(ticks[t..u]);
    SplitAt(Batches(ticks), DrainedBy(past, c), DrainedBy(life, c), DrainedBy(rest, c));
    SplitAt(Batches(ticks), Batches(ticks[..t]), Batches(ticks[t..u]), Batches(ticks[u..]));
  }

  /** How many batches of a history thread c drained, and how many packets left with it. */
  function DrainCount(fates: seq<Fate>, c: nat): nat {
    |DrainedBy(fates, c)|
  }

  function PacketCount(fates: seq<Fate>): nat {
    |Departed(fates)|
  }

  /** What m was sent says `said` for the n ticks from the t-th on, and for the others what they owe m. */
  predicate SentFor(caller: Caller, m: Connection, t: nat, n: nat, said: string) {
    t + n <= |caller.ticks| && Around(Stream(caller.sent, m), caller.ticks, m, t, n, said)
  }

  predicate Around(stream: string, ticks: seq<Tick>, m: Connection, t: nat, n: nat, said: string)
    requires t + n <= |ticks|
  {
    stream == Expected(ticks[..t], m) + said + Expected(ticks[t + n..], m)
  }

  /** m is in the snapshots of those ticks. */
  predicate PresentFor(ticks: seq<Tick>, m: Connection, t: nat, n: nat) {
    t + n <= |ticks| ==> AlwaysMember(ticks[t..t + n], m)
  }

  /** What the packets of the others between two positions carry. */
  function CarriedBetween(packets: seq<Packet>, from: nat, to: nat, identifier: int): string
    requires from <= to <= |packets|
  {
    Flatten(Foreign(packets[from..to], identifier))
  }

  /** Whole-run delivery, for any stretch `life` of a room's history in which one thread drained every batch, be it a
      whole life of the room or the part in which a member was there: between ticks, a connection in all snapshots of
      that stretch has been sent for it exactly the payloads of the packets of the others accepted in it, whatever
      came before and after. A stretch up to the present ends with the last accepted packet that is not pending. */
  lemma WholeRunDelivery(s: State, workerCount: nat, actions: seq<Action>, c: nat, m: Connection,
                         past: seq<Fate>, life: seq<Fate>, rest: seq<Fate>) returns (said: string)
    requires Reachable(s, workerCount, actions) && Defined(s.pool) && c < |s.pool.callers|
    requires !Busy(s.pool.callers[c].pc) && !s.pool.callers[c].pc.Snapshot?
    requires Get(s.rooms.fates, s.pool.callers[c].room) == past + life + rest && OnlyDrainer(life, c)
    requires PresentFor(s.pool.callers[c].ticks, m, DrainCount(past, c), |life|)
    ensures SentFor(s.pool.callers[c], m, DrainCount(past, c), |life|, said)
    ensures var room := s.pool.callers[c].room;
            var accepted, pending := Get(s.rooms.accepted, room), Get(s.rooms.packets, room);
            var from, to := PacketCount(past), PacketCount(past) + PacketCount(life);
            && to <= |accepted| && said == CarriedBetween(accepted, from, to, m.identifier)
            && accepted[from..to] == Departed(life)
            && (rest == [] ==> to == |accepted| - |pending|)
  {
    TicksDeliverBatches(s, workerCount, actions, c, m);
    PacketsAreConserved(s, workerCount, actions, s.pool.callers[c].room);
    said := SentStretch(s.pool.callers[c], c, m, past, life, rest);
    AcceptedStretch(past, life, rest, Get(s.rooms.accepted, s.pool.callers[c].room),
                    Get(s.rooms.packets, s.pool.callers[c].room));
  }

  lemma SentStretch(caller: Caller, c: nat, m: Connection, past: seq<Fate>, life: seq<Fate>, rest: seq<Fate>)
      returns (said: string)
    requires DrainedBy(past + life + rest, c) == Batches(caller.ticks) && OnlyDrainer(life, c)
    requires Stream(caller.sent, m) == Expected(caller.ticks, m)
    requires PresentFor(caller.ticks, m, DrainCount(past, c), |life|)
    ensures SentFor(caller, m, DrainCount(past, c), |life|, said)
    ensures said == Flatten(Foreign(Departed(life), m.identifier))
  {
    var t := DrainCount(past, c);
    StretchOfTicks(past, life, rest, caller.ticks, c, m);
    said := Expected(caller.ticks[t..t + |life|], m);
    ExpectedOfStretch(life, caller.ticks[t..t + |life|], c, m);
  }

  lemma ExpectedOfStretch(life: seq<Fate>, ticks: seq<Tick>, c: nat, m: Connection)
    requires OnlyDrainer(life, c) && Batches(ticks) == DrainedBy(life, c) && AlwaysMember(ticks, m)
    ensures Expected(ticks, m) == Flatten(Foreign(Departed(life), m.identifier))
  {
    ExpectedIsOwed(ticks, m);
    OnlyDrainerTakesAll(life, c);
    OwedIsFlattenedForeign(Departed(life), m.identifier);
  }

  lemma SecondOfFour<T>(whole: seq<T>, a: seq<T>, b: seq<T>, c: seq<T>, d: seq<T>)
    requires whole == a + b + c + d
    ensures |a| + |b| <= |whole| && whole[|a|..|a| + |b|] == b
    ensures c == [] ==> |a| + |b| == |whole| - |d|
  {
  }

  lemma AcceptedStretch(past: seq<Fate>, life: seq<Fate>, rest: seq<Fate>, accepted: seq<Packet>, pending: seq<Packet>)
    requires accepted == Departed(past + life + rest) + pending
    ensures var from, to := PacketCount(past), PacketCount(past) + PacketCount(life);
            && to <= |accepted| && (rest == [] ==> to == |accepted| - |pending|)
            && accepted[from..to] == Departed(life)
  {
    assert Departed(past + life + rest) == Departed(past) + Departed(life) + Departed(rest) by {
      DepartedConcat(past + life, rest);
      DepartedConcat(past, life);
    }
    SecondOfFour(accepted, Departed(past), Departed(life), Departed(rest), pending);
  }
}
