/** The inductive invariant of the hand-off protocol and its preservation by every step. */
module HandOffInvariant {
  import opened RelayTypes
  import opened HandOff

  /** Between the snapshot of the members and the end of the join loop. */
  predicate Busy(pc: CallerPc) {
    !(pc.CheckRoom? || pc.Drain? || pc.Snapshot? || pc.Left?)
  }

  /** The worker whose lock() this caller holds. */
  function Claimed(pc: CallerPc): Option<nat> {
    match pc
    case AcquireController(k) => Some(k)
    case SetTask(k) => Some(k)
    case SetDone(k) => Some(k)
    case Wake(k) => Some(k)
    case _ => None
  }

  predicate Submitting(pc: CallerPc) {
    pc.Search? || Claimed(pc).Some?
  }

  /** From the wake-up in run() until m_done() has run. */
  predicate InFlight(k: Worker) {
    || (k.pc == Await && !k.runningLocked && k.destructor == Alive)
    || (k.pc == ExitTest && !k.exit)
    || k.pc.Count? || k.pc.Copy? || k.pc.CallDone?
  }

  /** Lock bits, exit flag and destructor progress at each statement of the worker loop. */
  predicate WorkerOk(k: Worker) {
    && (k.claimant.Some? <==> k.pc == Await && k.threadLocked && k.runningLocked && k.destructor == Alive)
    && (InFlight(k) ==> k.task.Some? && k.done == k.task)
    && match k.pc
       case LoopTest => k.threadLocked && !k.exit && k.destructor == Alive
       case RunRelease => k.threadLocked && !k.exit && k.destructor == Alive
       case RunAcquire => k.threadLocked && !k.runningLocked && !k.exit && k.destructor == Alive
       case ThreadRelease => k.threadLocked && k.runningLocked && !k.exit && k.destructor == Alive
       case Await =>
         && (!k.threadLocked ==> k.runningLocked && k.destructor == Alive)
         && (k.exit <==> k.destructor == Waking || k.destructor == Joining)
         && (k.destructor == SettingExit || k.destructor == Waking ==> k.runningLocked)
         && (k.destructor == Joining ==> !k.runningLocked)
         && k.destructor != Destroyed
       case ExitTest =>
         && k.threadLocked && k.runningLocked
         && (k.destructor == Alive || k.destructor == Joining)
         && (k.exit <==> k.destructor == Joining)
       case Count => k.threadLocked && k.runningLocked && !k.exit && k.destructor == Alive
       case Copy(_) => k.threadLocked && k.runningLocked && !k.exit && k.destructor == Alive
       case CallDone => k.threadLocked && k.runningLocked && !k.exit && k.destructor == Alive
       case Exited => k.threadLocked && k.exit && (k.destructor == Joining || k.destructor == Destroyed)
       case Crashed => false
  }

  /** A claim is mutual: the worker knows its claimant and the claimant its worker. */
  predicate ClaimOk(s: Pool, w: nat)
    requires w < |s.workers|
  {
    var k := s.workers[w];
    k.claimant.Some? ==>
      && k.claimant.value < |s.callers|
      && var c := k.claimant.value;
         var pc := s.callers[c].pc;
         && Claimed(pc) == Some(w)
         && (pc.SetDone? || pc.Wake? ==> k.task == Some(CurrentJob(s, c)))
         && (pc.Wake? ==> k.done == k.task)
  }

  /** A job in flight belongs to a room thread that is still in the tick of the job and remembers the worker. */
  predicate FlightOk(s: Pool, w: nat)
    requires w < |s.workers|
  {
    var k := s.workers[w];
    InFlight(k) ==>
      && k.task.Some?
      && var j := k.task.value;
         && j.caller < |s.callers|
         && var caller := s.callers[j.caller];
            && Busy(caller.pc) && j.tick == |caller.ticks| && j.index < |caller.controllers|
            && caller.controllers[j.index] == Controller(j, w)
            && s.finished[j] == 0
            && s.ran[j] == (if k.pc.CallDone? then 1 else 0)
            && (k.pc.Copy? ==> j.index < |caller.connections| && k.pc.capacity == |Bytes(s, j)|)
  }

  /** The vectors the jobs refer to are those of the current tick. */
  predicate TickOk(caller: Caller) {
    Busy(caller.pc) ==>
      && |caller.ticks| > 0
      && caller.ticks[|caller.ticks| - 1] == Tick(caller.packets, caller.connections)
      && |caller.controllers| <= |caller.connections|
      && (Submitting(caller.pc) ==> |caller.controllers| < |caller.connections|)
      && (caller.pc.Join? || caller.pc.JoinRelease? ==> |caller.controllers| == |caller.connections|)
      && (caller.pc.Join? ==> caller.pc.i <= |caller.controllers|)
      && (caller.pc.JoinRelease? ==> caller.pc.i < |caller.controllers|)
  }

  /** The i-th job of the current tick: in flight at its worker, or finished; its semaphore says which, except
      while join() holds it. */
  predicate ControllerOk(s: Pool, c: nat, i: nat)
    requires c < |s.callers| && i < |s.callers[c].controllers|
  {
    var caller := s.callers[c];
    var Controller(j, w) := caller.controllers[i];
    && j == Job(c, |caller.ticks|, i)
    && j in s.locks
    && w < |s.workers|
    && (s.finished[j] == 0 ==> InFlight(s.workers[w]) && s.workers[w].task == Some(j))
    && (s.locks[j] <==> s.finished[j] == 0 || caller.pc == JoinRelease(i))
    && ((caller.pc.Join? || caller.pc.JoinRelease?) && i < caller.pc.i ==> s.finished[j] == 1)
    && (caller.pc == JoinRelease(i) ==> s.finished[j] == 1)
  }

  predicate CallerOk(s: Pool, c: nat)
    requires c < |s.callers|
  {
    var caller := s.callers[c];
    && TickOk(caller)
    && (Claimed(caller.pc).Some? ==>
          var w := Claimed(caller.pc).value;
          w < |s.workers| && s.workers[w].claimant == Some(c))
    && (Busy(caller.pc) ==> forall i :: 0 <= i < |caller.controllers| ==> ControllerOk(s, c, i))
    && (Submitting(caller.pc) ==>
          var j := CurrentJob(s, c);
          j in s.locks && (s.locks[j] <==> !caller.pc.Search? && !caller.pc.AcquireController?))
  }

  /** run() has returned for this job. */
  predicate Submitted(s: Pool, j: Job) {
    && j.caller < |s.callers|
    && var caller := s.callers[j.caller];
       && 1 <= j.tick <= |caller.ticks|
       && j.index < |caller.ticks[j.tick - 1].members|
       && (j.tick == |caller.ticks| && Busy(caller.pc) ==> j.index < |caller.controllers|)
  }

  /** Submitted in a tick whose join loop is not over. */
  predicate Current(s: Pool, j: Job) {
    && j.caller < |s.callers|
    && j.tick == |s.callers[j.caller].ticks|
    && Busy(s.callers[j.caller].pc)
  }

  predicate JobOk(s: Pool, j: Job) {
    && s.finished[j] <= s.ran[j] <= 1
    && (s.ran[j] == 1 ==> Submitted(s, j))
    && (Submitted(s, j) && !Current(s, j) ==> s.finished[j] == 1)
  }

  ghost predicate Inv(s: Pool) {
    && (forall w :: 0 <= w < |s.workers| ==> WorkerOk(s.workers[w]))
    && (forall w :: 0 <= w < |s.workers| ==> ClaimOk(s, w))
    && (forall w :: 0 <= w < |s.workers| ==> FlightOk(s, w))
    && (forall c :: 0 <= c < |s.callers| ==> CallerOk(s, c))
    && (forall j :: JobOk(s, j))
  }

  /** No undefined behaviour has occurred. */
  predicate Defined(s: Pool) {
    forall w :: 0 <= w < |s.workers| ==> !s.workers[w].pc.Crashed?
  }

  lemma InitialInv(workerCount: nat)
    ensures Inv(Initial(workerCount).pool)
  {
  }

  /** Steps of a worker or its destructor that touch only that worker and neither start nor end a job. */
  lemma LocalKeepsInv(s: Pool, w: nat, k': Worker)
    requires Inv(s) && w < |s.workers| && WorkerOk(k')
    requires var k := s.workers[w];
             && k'.task == k.task && k'.done == k.done && k'.claimant == k.claimant
             && InFlight(k') == InFlight(k)
             && !k.pc.Copy? && !k.pc.CallDone? && !k'.pc.CallDone?
             && (k'.pc.Copy? ==> InFlight(k) && Resolves(s, k.task) && k'.pc.capacity == |Bytes(s, k.task.value)|)
    ensures Inv(SetWorker(s, w, k'))
  {
    var s' := SetWorker(s, w, k');
    forall v | 0 <= v < |s'.workers|
      ensures ClaimOk(s', v) && FlightOk(s', v)
    {
      assert ClaimOk(s, v) && FlightOk(s, v);
    }
    forall c | 0 <= c < |s'.callers|
      ensures CallerOk(s', c)
    {
      assert CallerOk(s, c);
      forall i | Busy(s'.callers[c].pc) && 0 <= i < |s'.callers[c].controllers|
        ensures ControllerOk(s', c, i)
      {
        assert ControllerOk(s, c, i);
        var v := s.callers[c].controllers[i].worker;
        assert s'.workers[v] == if v == w then k' else s.workers[v];
      }
    }
    forall j
      ensures JobOk(s', j)
    {
      assert JobOk(s, j);
    }
  }

  /** A job that a busy caller has in its controllers counts as submitted. */
  lemma CurrentIsSubmitted(s: Pool, j: Job)
    requires j.caller < |s.callers| && CallerOk(s, j.caller)
    requires Current(s, j) && j.index < |s.callers[j.caller].controllers|
    ensures Submitted(s, j)
  {
  }

  /** The state after worker w has sent the bytes of its job. */
  function AfterSend(s: Pool, w: nat, send: Send): Pool
    requires w < |s.workers| && send.job.caller < |s.callers|
  {
    var c := send.job.caller;
    s.(workers := s.workers[w := s.workers[w].(pc := CallDone)],
       callers := s.callers[c := s.callers[c].(sent := s.callers[c].sent + [send])],
       ran := s.ran + multiset{send.job})
  }

  /** The copying pass finds the batch the counting pass saw, so the buffer fits exactly and nothing is undefined. */
  lemma CopyFits(s: Pool, w: nat)
    requires w < |s.workers| && s.workers[w].pc.Copy? && FlightOk(s, w)
    ensures var j := s.workers[w].task.value;
            && Resolves(s, Some(j))
            && CopyStep(s, w, s.workers[w].pc.capacity)
               == AfterSend(s, w, Send(j, s.callers[j.caller].connections[j.index], Bytes(s, j)))
  {
    var j := s.workers[w].task.value;
    assert Bytes(s, j) + seq(0, _ => '\0') == Bytes(s, j);
  }

  lemma CopyKeepsInv(s: Pool, w: nat)
    requires Inv(s) && w < |s.workers| && s.workers[w].pc.Copy?
    ensures Inv(CopyStep(s, w, s.workers[w].pc.capacity))
  {
    assert WorkerOk(s.workers[w]) && FlightOk(s, w);
    CopyFits(s, w);
    var j := s.workers[w].task.value;
    SendKeepsInv(s, w, Send(j, s.callers[j.caller].connections[j.index], Bytes(s, j)));
  }

  lemma SendKeepsInv(s: Pool, w: nat, send: Send)
    requires Inv(s) && w < |s.workers| && s.workers[w].pc.Copy? && s.workers[w].task == Some(send.job)
    requires send.job.caller < |s.callers|
    ensures Inv(AfterSend(s, w, send))
  {
    assert WorkerOk(s.workers[w]) && FlightOk(s, w) && ClaimOk(s, w);
    var s' := AfterSend(s, w, send);
    assert CallerOk(s, send.job.caller);
    CurrentIsSubmitted(s, send.job);
    forall v | 0 <= v < |s'.workers|
      ensures ClaimOk(s', v) && FlightOk(s', v)
    {
      assert ClaimOk(s, v) && FlightOk(s, v);
    }
    forall c | 0 <= c < |s'.callers|
      ensures CallerOk(s', c)
    {
      SendKeepsCaller(s, w, send, c);
    }
    forall i
      ensures JobOk(s', i)
    {
      assert JobOk(s, i);
      assert Submitted(s', i) <==> Submitted(s, i);
    }
  }

  lemma SendKeepsCaller(s: Pool, w: nat, send: Send, c: nat)
    requires Inv(s) && w < |s.workers| && s.workers[w].pc.Copy? && s.workers[w].task == Some(send.job)
    requires send.job.caller < |s.callers| && c < |s.callers|
    ensures CallerOk(AfterSend(s, w, send), c)
  {
    assert CallerOk(s, c);
    var s' := AfterSend(s, w, send);
    forall i | Busy(s'.callers[c].pc) && 0 <= i < |s'.callers[c].controllers|
      ensures ControllerOk(s', c, i)
    {
      assert ControllerOk(s, c, i);
      var v := s.callers[c].controllers[i].worker;
      assert s'.workers[v] == if v == w then s.workers[w].(pc := CallDone) else s.workers[v];
    }
  }

  lemma DoneKeepsInv(s: Pool, w: nat)
    requires Inv(s) && w < |s.workers| && s.workers[w].pc.CallDone?
    ensures Inv(DoneStep(s, w))
  {
    assert WorkerOk(s.workers[w]) && FlightOk(s, w) && ClaimOk(s, w);
    var s' := DoneStep(s, w);
    forall v | 0 <= v < |s'.workers|
      ensures ClaimOk(s', v) && FlightOk(s', v)
    {
      assert ClaimOk(s, v) && FlightOk(s, v);
    }
    forall c | 0 <= c < |s'.callers|
      ensures CallerOk(s', c)
    {
      DoneKeepsCaller(s, w, c);
    }
    forall i
      ensures JobOk(s', i)
    {
      assert JobOk(s, i);
      assert Submitted(s', i) <==> Submitted(s, i);
    }
  }

  lemma DoneKeepsCaller(s: Pool, w: nat, c: nat)
    requires Inv(s) && w < |s.workers| && s.workers[w].pc.CallDone? && c < |s.callers|
    ensures CallerOk(DoneStep(s, w), c)
  {
    assert WorkerOk(s.workers[w]) && FlightOk(s, w) && CallerOk(s, c);
    var s' := DoneStep(s, w);
    forall i | Busy(s'.callers[c].pc) && 0 <= i < |s'.callers[c].controllers|
      ensures ControllerOk(s', c, i)
    {
      assert ControllerOk(s, c, i);
      var v := s.callers[c].controllers[i].worker;
      assert s'.workers[v] == if v == w then s.workers[w].(pc := LoopTest) else s.workers[v];
    }
  }

  lemma CountKeepsInv(s: Pool, w: nat)
    requires Inv(s) && w < |s.workers| && s.workers[w].pc.Count? && Defined(CountStep(s, w))
    ensures Inv(CountStep(s, w))
  {
    assert WorkerOk(s.workers[w]) && FlightOk(s, w);
    var j := s.workers[w].task.value;
    assert CallerOk(s, j.caller);
    assert !CountStep(s, w).workers[w].pc.Crashed?;
    LocalKeepsInv(s, w, s.workers[w].(pc := Copy(|Bytes(s, j)|)));
  }

  /** Around the job, the loop keeps the lock discipline and neither starts nor ends a job. */
  lemma LoopStepOk(k: Worker)
    requires WorkerOk(k) && LoopStep(k).Some?
    ensures var k' := LoopStep(k).value;
            && WorkerOk(k') && InFlight(k') == InFlight(k)
            && k'.task == k.task && k'.done == k.done && k'.claimant == k.claimant
            && !k'.pc.Copy? && !k'.pc.CallDone?
  {
  }

  lemma DestructorStepOk(k: Worker)
    requires WorkerOk(k) && DestructorStep(k).Some?
    ensures var k' := DestructorStep(k).value;
            && WorkerOk(k') && InFlight(k') == InFlight(k)
            && k'.task == k.task && k'.done == k.done && k'.claimant == k.claimant
            && !k.pc.Copy? && !k.pc.CallDone? && k'.pc == k.pc
  {
  }

  lemma WorkerKeepsInv(s: Pool, w: nat)
    requires Inv(s) && w < |s.workers| && WorkerStep(s, w).Some? && Defined(WorkerStep(s, w).value)
    ensures Inv(WorkerStep(s, w).value)
  {
    var pc := s.workers[w].pc;
    if pc.Count? {
      CountKeepsInv(s, w);
    } else if pc.Copy? {
      CopyKeepsInv(s, w);
    } else if pc.CallDone? {
      DoneKeepsInv(s, w);
    } else {
      LoopStepOk(s.workers[w]);
      LocalKeepsInv(s, w, LoopStep(s.workers[w]).value);
    }
  }

  lemma DestructorKeepsInv(s: Pool, w: nat)
    requires Inv(s) && w < |s.workers| && DestructorStep(s.workers[w]).Some?
    ensures Inv(SetWorker(s, w, DestructorStep(s.workers[w]).value))
  {
    DestructorStepOk(s.workers[w]);
    LocalKeepsInv(s, w, DestructorStep(s.workers[w]).value);
  }

  /** Caller c moves, together with at most one worker that is idle or claimed by c. */
  predicate CallerMoves(s: Pool, s': Pool, c: nat, k: nat) {
    && c < |s.callers| && |s'.callers| == |s.callers| && |s'.workers| == |s.workers|
    && (forall d :: 0 <= d < |s.callers| && d != c ==> s'.callers[d] == s.callers[d])
    && (forall v :: 0 <= v < |s.workers| && v != k ==> s'.workers[v] == s.workers[v])
    && (k < |s.workers| ==>
          || s'.workers[k] == s.workers[k]
          || (!InFlight(s.workers[k]) && (s.workers[k].claimant == None || s.workers[k].claimant == Some(c))))
    && s'.ran == s.ran && s'.finished == s.finished
  }

  ghost predicate OtherLocksSame(s: Pool, s': Pool, c: nat) {
    forall j: Job :: j.caller != c ==> (j in s.locks <==> j in s'.locks) && (j in s.locks ==> s'.locks[j] == s.locks[j])
  }

  /** The invariant of everything that does not belong to the caller that moved. */
  ghost predicate OthersOk(s: Pool, c: nat, k: nat) {
    && (forall d :: 0 <= d < |s.callers| && d != c ==> CallerOk(s, d))
    && (forall v :: 0 <= v < |s.workers| && v != k ==>
          && WorkerOk(s.workers[v])
          && (s.workers[v].claimant != Some(c) ==> ClaimOk(s, v))
          && (InFlight(s.workers[v]) && s.workers[v].task.value.caller != c ==> FlightOk(s, v)))
    && (forall j: Job :: j.caller != c ==> JobOk(s, j))
  }

  lemma OthersKeepInv(s: Pool, s': Pool, c: nat, k: nat)
    requires Inv(s) && CallerMoves(s, s', c, k) && OtherLocksSame(s, s', c)
    ensures OthersOk(s', c, k)
  {
    forall d | 0 <= d < |s'.callers| && d != c
      ensures CallerOk(s', d)
    {
      assert CallerOk(s, d);
      forall i | Busy(s'.callers[d].pc) && 0 <= i < |s'.callers[d].controllers|
        ensures ControllerOk(s', d, i)
      {
        assert ControllerOk(s, d, i);
        var v := s.callers[d].controllers[i].worker;
        assert s'.workers[v] == s.workers[v] || !InFlight(s.workers[v]);
      }
    }
    forall v | 0 <= v < |s'.workers| && v != k
      ensures WorkerOk(s'.workers[v])
      ensures s'.workers[v].claimant != Some(c) ==> ClaimOk(s', v)
      ensures InFlight(s'.workers[v]) && s'.workers[v].task.value.caller != c ==> FlightOk(s', v)
    {
      assert WorkerOk(s.workers[v]) && ClaimOk(s, v) && FlightOk(s, v);
    }
    forall j: Job | j.caller != c
      ensures JobOk(s', j)
    {
      assert JobOk(s, j);
    }
  }

  /** The caller keeps its tick, its controllers and its vectors. */
  predicate SameTick(a: Caller, b: Caller) {
    && a.ticks == b.ticks && a.controllers == b.controllers
    && a.packets == b.packets && a.connections == b.connections
    && Busy(a.pc) == Busy(b.pc)
  }

  /** Steps of a caller within its tick that hand nothing over yet. */
  lemma QuietKeepsInv(s: Pool, s': Pool, c: nat, k: nat)
    requires Inv(s) && CallerMoves(s, s', c, k) && OtherLocksSame(s, s', c)
    requires SameTick(s.callers[c], s'.callers[c]) && CallerOk(s', c)
    requires Claimed(s.callers[c].pc) == None || Claimed(s.callers[c].pc) == Some(k)
    requires k < |s.workers| ==>
               WorkerOk(s'.workers[k]) && ClaimOk(s', k) && !InFlight(s'.workers[k])
    ensures Inv(s')
  {
    OthersKeepInv(s, s', c, k);
    forall v | 0 <= v < |s'.workers|
      ensures WorkerOk(s'.workers[v]) && ClaimOk(s', v) && FlightOk(s', v)
    {
      assert WorkerOk(s.workers[v]) && ClaimOk(s, v) && FlightOk(s, v);
    }
    forall j: Job
      ensures JobOk(s', j)
    {
      assert JobOk(s, j);
    }
  }

  /** A caller outside its fan-out and join loops has no job in flight. */
  lemma IdleHasNoFlight(s: Pool, c: nat)
    requires Inv(s) && c < |s.callers|
    requires !Busy(s.callers[c].pc)
             || (s.callers[c].pc.Join? && s.callers[c].pc.i >= |s.callers[c].controllers|)
    ensures forall w :: 0 <= w < |s.workers| && InFlight(s.workers[w]) ==> s.workers[w].task.value.caller != c
    ensures forall w :: 0 <= w < |s.workers| ==> s.workers[w].claimant != Some(c)
  {
    assert CallerOk(s, c);
    forall i | Busy(s.callers[c].pc) && 0 <= i < |s.callers[c].controllers|
      ensures s.finished[s.callers[c].controllers[i].job] == 1
    {
      assert ControllerOk(s, c, i);
    }
    forall w | 0 <= w < |s.workers|
      ensures InFlight(s.workers[w]) ==> s.workers[w].task.value.caller != c
      ensures s.workers[w].claimant != Some(c)
    {
      assert WorkerOk(s.workers[w]) && FlightOk(s, w) && ClaimOk(s, w);
    }
  }

  /** Steps by which a caller enters or leaves a tick, or changes its vectors between ticks. */
  lemma BoundaryKeepsInv(s: Pool, s': Pool, c: nat)
    requires Inv(s) && c < |s.callers| && s'.workers == s.workers && s'.locks == s.locks
    requires CallerMoves(s, s', c, |s.workers|)
    requires !Busy(s.callers[c].pc)
             || (s.callers[c].pc.Join? && s.callers[c].pc.i >= |s.callers[c].controllers|)
    requires CallerOk(s', c) && Claimed(s'.callers[c].pc) == None
    requires forall j: Job :: j.caller == c ==> JobOk(s', j)
    ensures Inv(s')
  {
    OthersKeepInv(s, s', c, |s.workers|);
    IdleHasNoFlight(s, c);
    forall v | 0 <= v < |s'.workers|
      ensures WorkerOk(s'.workers[v]) && ClaimOk(s', v) && FlightOk(s', v)
    {
      assert WorkerOk(s.workers[v]) && ClaimOk(s, v) && FlightOk(s, v);
    }
  }

  lemma SameTicksKeepJobs(s: Pool, s': Pool, c: nat)
    requires Inv(s) && c < |s.callers| && |s'.callers| == |s.callers|
    requires s'.ran == s.ran && s'.finished == s.finished
    requires s'.callers[c].ticks == s.callers[c].ticks && !Busy(s.callers[c].pc) && !Busy(s'.callers[c].pc)
    ensures forall j: Job :: j.caller == c ==> JobOk(s', j)
  {
    forall j: Job | j.caller == c
      ensures JobOk(s', j)
    {
      assert JobOk(s, j);
    }
  }

  lemma EnterKeepsInv(s: Pool, c: nat, present: bool)
    requires Inv(s) && c < |s.callers| && s.callers[c].pc.CheckRoom?
    ensures Inv(Enter(s, c, present))
  {
    SameTicksKeepJobs(s, Enter(s, c, present), c);
    BoundaryKeepsInv(s, Enter(s, c, present), c);
  }

  lemma TakeBatchKeepsInv(s: Pool, c: nat, batch: seq<Packet>)
    requires Inv(s) && c < |s.callers| && s.callers[c].pc.Drain?
    ensures Inv(TakeBatch(s, c, batch))
  {
    SameTicksKeepJobs(s, TakeBatch(s, c, batch), c);
    BoundaryKeepsInv(s, TakeBatch(s, c, batch), c);
  }

  lemma TakeMembersKeepsInv(s: Pool, c: nat, members: seq<Connection>)
    requires Inv(s) && c < |s.callers| && s.callers[c].pc.Snapshot?
    ensures Inv(TakeMembers(s, c, members))
  {
    assert CallerOk(s, c);
    var s' := TakeMembers(s, c, members);
    forall j: Job | j.caller == c
      ensures JobOk(s', j)
    {
      assert JobOk(s, j);
    }
    BoundaryKeepsInv(s, s', c);
  }

  lemma JoinEndKeepsInv(s: Pool, c: nat)
    requires Inv(s) && c < |s.callers| && s.callers[c].pc.Join? && s.callers[c].pc.i >= |s.callers[c].controllers|
    ensures Inv(TickStep(s, c).value)
  {
    assert CallerOk(s, c);
    var s' := TickStep(s, c).value;
    forall j: Job | j.caller == c
      ensures JobOk(s', j)
    {
      assert JobOk(s, j);
      if Submitted(s, j) && Current(s, j) {
        assert ControllerOk(s, c, j.index);
      }
    }
    BoundaryKeepsInv(s, s', c);
  }

  /** While a caller submits, its earlier controllers are untouched. */
  lemma ControllersFrame(s: Pool, s': Pool, c: nat, k: nat)
    requires Inv(s) && CallerMoves(s, s', c, k)
    requires Busy(s.callers[c].pc) && !s.callers[c].pc.Join? && !s.callers[c].pc.JoinRelease?
    requires !s'.callers[c].pc.JoinRelease? && (s'.callers[c].pc.Join? ==> s'.callers[c].pc.i == 0)
    requires s'.callers[c].ticks == s.callers[c].ticks && s.callers[c].controllers <= s'.callers[c].controllers
    requires forall j :: j in s.locks && j != CurrentJob(s, c) ==> j in s'.locks && s'.locks[j] == s.locks[j]
    ensures forall i :: 0 <= i < |s.callers[c].controllers| ==> ControllerOk(s', c, i)
  {
    assert CallerOk(s, c);
    forall i | 0 <= i < |s.callers[c].controllers|
      ensures ControllerOk(s', c, i)
    {
      assert ControllerOk(s, c, i);
      var v := s.callers[c].controllers[i].worker;
      assert s'.workers[v] == s.workers[v] || !InFlight(s.workers[v]);
    }
  }

  /** Before run(): the controller's semaphore is created, or the fan-out is over. */
  lemma FanKeepsInv(s: Pool, c: nat)
    requires Inv(s) && c < |s.callers| && s.callers[c].pc.Fan?
    ensures Inv(TickStep(s, c).value)
  {
    assert CallerOk(s, c);
    var s' := TickStep(s, c).value;
    assert JobOk(s, CurrentJob(s, c));
    ControllersFrame(s, s', c, |s.workers|);
    QuietKeepsInv(s, s', c, |s.workers|);
  }

  lemma SearchOnKeepsInv(s: Pool, c: nat)
    requires Inv(s) && c < |s.callers| && s.callers[c].pc.Search?
    requires s.callers[c].pc.k < |s.workers| ==> s.workers[s.callers[c].pc.k].threadLocked
    ensures Inv(SubmitStep(s, c).value)
  {
    assert CallerOk(s, c);
    var s' := SubmitStep(s, c).value;
    ControllersFrame(s, s', c, |s.workers|);
    QuietKeepsInv(s, s', c, |s.workers|);
  }

  /** lock() returns true: only an idle worker has its m_threadLock free. */
  lemma ClaimKeepsInv(s: Pool, c: nat)
    requires Inv(s) && c < |s.callers| && s.callers[c].pc.Search?
    requires s.callers[c].pc.k < |s.workers| && !s.workers[s.callers[c].pc.k].threadLocked
    ensures Inv(SubmitStep(s, c).value)
  {
    assert CallerOk(s, c);
    var s' := SubmitStep(s, c).value;
    var k := s.callers[c].pc.k;
    assert WorkerOk(s.workers[k]) && ClaimOk(s, k);
    ControllersFrame(s, s', c, k);
    QuietKeepsInv(s, s', c, k);
  }

  lemma AcquireKeepsInv(s: Pool, c: nat)
    requires Inv(s) && c < |s.callers| && SubmitStep(s, c).Some? && s.callers[c].pc.AcquireController?
    ensures Inv(SubmitStep(s, c).value)
  {
    assert CallerOk(s, c);
    var s' := SubmitStep(s, c).value;
    var k := s.callers[c].pc.k;
    assert WorkerOk(s.workers[k]) && ClaimOk(s, k);
    ControllersFrame(s, s', c, k);
    QuietKeepsInv(s, s', c, k);
  }

  lemma AssignKeepsInv(s: Pool, c: nat)
    requires Inv(s) && c < |s.callers| && SubmitStep(s, c).Some?
    requires s.callers[c].pc.SetTask? || s.callers[c].pc.SetDone?
    ensures Inv(SubmitStep(s, c).value)
  {
    assert CallerOk(s, c);
    var s' := SubmitStep(s, c).value;
    var k := s.callers[c].pc.k;
    assert WorkerOk(s.workers[k]) && ClaimOk(s, k);
    ControllersFrame(s, s', c, k);
    QuietKeepsInv(s, s', c, k);
  }

  lemma JoinStepsKeepInv(s: Pool, c: nat)
    requires Inv(s) && c < |s.callers| && TickStep(s, c).Some?
    requires s.callers[c].pc.JoinRelease? || (s.callers[c].pc.Join? && s.callers[c].pc.i < |s.callers[c].controllers|)
    ensures Inv(TickStep(s, c).value)
  {
    assert CallerOk(s, c);
    var s' := TickStep(s, c).value;
    assert ControllerOk(s, c, s.callers[c].pc.i);
    assert JobOk(s, s.callers[c].controllers[s.callers[c].pc.i].job);
    forall i | 0 <= i < |s'.callers[c].controllers|
      ensures ControllerOk(s', c, i)
    {
      assert ControllerOk(s, c, i);
    }
    QuietKeepsInv(s, s', c, |s.workers|);
  }

  /** run() releases m_runningLock: the job is now in flight. */
  lemma WakeKeepsInv(s: Pool, c: nat)
    requires Inv(s) && c < |s.callers| && s.callers[c].pc.Wake? && SubmitStep(s, c).Some?
    ensures Inv(SubmitStep(s, c).value)
  {
    assert CallerOk(s, c);
    var s' := SubmitStep(s, c).value;
    var k := s.callers[c].pc.k;
    assert WorkerOk(s.workers[k]) && ClaimOk(s, k);
    OthersKeepInv(s, s', c, k);
    ControllersFrame(s, s', c, k);
    WakeKeepsJobs(s, c);
    forall v | 0 <= v < |s'.workers|
      ensures WorkerOk(s'.workers[v]) && ClaimOk(s', v) && FlightOk(s', v)
    {
      WakeKeepsWorker(s, c, v);
    }
  }

  /** The worker that was woken has the job; the others keep theirs. */
  lemma WakeKeepsWorker(s: Pool, c: nat, v: nat)
    requires Inv(s) && c < |s.callers| && s.callers[c].pc.Wake? && SubmitStep(s, c).Some? && v < |s.workers|
    ensures var s' := SubmitStep(s, c).value;
            v < |s'.workers| && WorkerOk(s'.workers[v]) && ClaimOk(s', v) && FlightOk(s', v)
  {
    assert CallerOk(s, c);
    assert WorkerOk(s.workers[v]) && ClaimOk(s, v) && FlightOk(s, v);
    assert JobOk(s, CurrentJob(s, c));
  }

  lemma WakeKeepsJobs(s: Pool, c: nat)
    requires Inv(s) && c < |s.callers| && s.callers[c].pc.Wake? && SubmitStep(s, c).Some?
    ensures s.ran[CurrentJob(s, c)] == 0 && s.finished[CurrentJob(s, c)] == 0
    ensures forall j :: JobOk(SubmitStep(s, c).value, j)
  {
    assert JobOk(s, CurrentJob(s, c));
    var s' := SubmitStep(s, c).value;
    forall j
      ensures JobOk(s', j)
    {
      assert JobOk(s, j);
    }
  }

  lemma TickKeepsInv(s: Pool, c: nat)
    requires Inv(s) && c < |s.callers| && TickStep(s, c).Some?
    ensures Inv(TickStep(s, c).value)
  {
    var pc := s.callers[c].pc;
    if pc.Fan? {
      FanKeepsInv(s, c);
    } else if pc.Join? && pc.i >= |s.callers[c].controllers| {
      JoinEndKeepsInv(s, c);
    } else {
      JoinStepsKeepInv(s, c);
    }
  }

  lemma SubmitKeepsInv(s: Pool, c: nat)
    requires Inv(s) && c < |s.callers| && SubmitStep(s, c).Some?
    ensures Inv(SubmitStep(s, c).value)
  {
    var pc := s.callers[c].pc;
    if pc.Search? {
      if pc.k < |s.workers| && !s.workers[pc.k].threadLocked {
        ClaimKeepsInv(s, c);
      } else {
        SearchOnKeepsInv(s, c);
      }
    } else if pc.AcquireController? {
      AcquireKeepsInv(s, c);
    } else if pc.Wake? {
      WakeKeepsInv(s, c);
    } else {
      AssignKeepsInv(s, c);
    }
  }

  lemma CallerKeepsInv(s: State, c: nat)
    requires Inv(s.pool) && c < |s.pool.callers| && CallerStep(s, c).Some?
    ensures Inv(CallerStep(s, c).value.pool)
  {
    var caller := s.pool.callers[c];
    if caller.pc.CheckRoom? {
      EnterKeepsInv(s.pool, c, caller.room in s.rooms.packets);
    } else if caller.pc.Drain? {
      TakeBatchKeepsInv(s.pool, c, Get(s.rooms.packets, caller.room));
    } else if caller.pc.Snapshot? {
      TakeMembersKeepsInv(s.pool, c, Get(s.rooms.handles, caller.room));
    } else if caller.pc.Fan? || caller.pc.Join? || caller.pc.JoinRelease? {
      TickKeepsInv(s.pool, c);
    } else {
      SubmitKeepsInv(s.pool, c);
    }
  }

  lemma SpawnKeepsInv(s: Pool, caller: Caller)
    requires Inv(s) && caller.pc == CheckRoom && caller.ticks == []
    ensures Inv(s.(callers := s.callers + [caller]))
  {
    var s' := s.(callers := s.callers + [caller]);
    forall w | 0 <= w < |s'.workers|
      ensures ClaimOk(s', w) && FlightOk(s', w)
    {
      assert ClaimOk(s, w) && FlightOk(s, w);
    }
    forall c | 0 <= c < |s.callers|
      ensures CallerOk(s', c)
    {
      assert CallerOk(s, c);
      forall i | Busy(s'.callers[c].pc) && 0 <= i < |s'.callers[c].controllers|
        ensures ControllerOk(s', c, i)
      {
        assert ControllerOk(s, c, i);
      }
    }
    forall j
      ensures JobOk(s', j)
    {
      assert JobOk(s, j);
    }
  }

  lemma StepKeepsInv(s: State, a: Action)
    requires Inv(s.pool) && Step(s, a).Some? && Defined(Step(s, a).value.pool)
    ensures Inv(Step(s, a).value.pool)
  {
    if a.WorkerAct? {
      WorkerKeepsInv(s.pool, a.w);
    } else if a.DestructorAct? {
      DestructorKeepsInv(s.pool, a.w);
    } else if a.CallerAct? {
      CallerKeepsInv(s, a.c);
    } else if a.Spawn? {
      SpawnKeepsInv(s.pool, Caller(CheckRoom, a.room, [], [], [], [], []));
    }
  }

  /** A crashed worker stays crashed. */
  lemma CrashIsFinal(s: State, a: Action)
    requires Step(s, a).Some? && Defined(Step(s, a).value.pool)
    ensures Defined(s.pool)
  {
    var p' := Step(s, a).value.pool;
    forall w | 0 <= w < |s.pool.workers|
      ensures w < |p'.workers| && (s.pool.workers[w].pc.Crashed? ==> p'.workers[w].pc.Crashed?)
    {
      CrashedWorkerStays(s, a, w);
    }
  }

  lemma CrashedWorkerStays(s: State, a: Action, w: nat)
    requires Step(s, a).Some? && w < |s.pool.workers|
    ensures var p' := Step(s, a).value.pool;
            w < |p'.workers| && (s.pool.workers[w].pc.Crashed? ==> p'.workers[w].pc.Crashed?)
  {
    if a.CallerAct? {
      CallerKeepsWorkerPc(s, a.c, w);
    } else if a.WorkerAct? {
      WorkersCrashAlone(s.pool, a.w, w);
    }
  }

  lemma CallerKeepsWorkerPc(s: State, c: nat, w: nat)
    requires c < |s.pool.callers| && CallerStep(s, c).Some? && w < |s.pool.workers|
    ensures var p' := CallerStep(s, c).value.pool; w < |p'.workers| && p'.workers[w].pc == s.pool.workers[w].pc
  {
  }

  lemma WorkersCrashAlone(s: Pool, v: nat, w: nat)
    requires v < |s.workers| && w < |s.workers| && WorkerStep(s, v).Some?
    ensures |WorkerStep(s, v).value.workers| == |s.workers|
    ensures v != w || s.workers[w].pc.Crashed? ==> WorkerStep(s, v).value.workers[w] == s.workers[w]
  {
  }

  lemma {:induction false} ReachableInv(s: State, workerCount: nat, actions: seq<Action>)
    requires Reachable(s, workerCount, actions) && Defined(s.pool)
    ensures Inv(s.pool)
    decreases |actions|
  {
    if actions == [] {
      InitialInv(workerCount);
    } else {
      var front, a := actions[..|actions| - 1], actions[|actions| - 1];
      var t := Run(Initial(workerCount), front).value;
      CrashIsFinal(t, a);
      ReachableInv(t, workerCount, front);
      StepKeepsInv(t, a);
    }
  }
}
