/** The one source of undefined behaviour in the tick: a batch that owes a member more bytes than an int counts. */
module HandOffOverflow {
  import opened Integers
  import opened RelayTypes
  import opened HandOff
  import opened HandOffInvariant

  /** The tick owes no member more than an int can count. */
  predicate TickFits(t: Tick) {
    forall k :: 0 <= k < |t.members| ==> |Owed(t.batch, t.members[k].identifier)| <= INT_MAX
  }

  predicate TotalsFit(s: Pool) {
    forall c, i :: 0 <= c < |s.callers| && 0 <= i < |s.callers[c].ticks| ==> TickFits(s.callers[c].ticks[i])
  }

  /** The step is the counting pass of a job whose member is owed too much. */
  predicate Overflows(s: Pool, a: Action) {
    && a.WorkerAct? && a.w < |s.workers| && s.workers[a.w].pc.Count?
    && Resolves(s, s.workers[a.w].task) && |Bytes(s, s.workers[a.w].task.value)| > INT_MAX
  }

  /** A step causes undefined behaviour if and only if it counts more than INT_MAX bytes; the tick at fault is on
      record. */
  lemma CrashesExactlyOnOverflow(s: State, workerCount: nat, actions: seq<Action>, a: Action)
    requires Reachable(s, workerCount, actions) && Defined(s.pool) && Step(s, a).Some?
    ensures Defined(Step(s, a).value.pool) <==> !Overflows(s.pool, a)
    ensures Overflows(s.pool, a) ==> !TotalsFit(s.pool)
  {
    ReachableInv(s, workerCount, actions);
    if a.WorkerAct? {
      WorkerCrashes(s.pool, a.w);
    } else if a.CallerAct? {
      forall w | 0 <= w < |s.pool.workers|
        ensures CallerStep(s, a.c).value.pool.workers[w].pc == s.pool.workers[w].pc
      {
        CallerKeepsWorkerPc(s, a.c, w);
      }
      CallerKeepsWorkerCount(s, a.c);
    }
  }

  lemma CallerKeepsWorkerCount(s: State, c: nat)
    requires c < |s.pool.callers| && CallerStep(s, c).Some?
    ensures |CallerStep(s, c).value.pool.workers| == |s.pool.workers|
  {
  }

  lemma WorkerCrashes(s: Pool, w: nat)
    requires Inv(s) && w < |s.workers| && WorkerStep(s, w).Some?
    ensures Defined(WorkerStep(s, w).value) <==> !Overflows(s, WorkerAct(w))
    ensures Overflows(s, WorkerAct(w)) ==> !TotalsFit(s)
  {
    var s' := WorkerStep(s, w).value;
    assert WorkerOk(s.workers[w]) && FlightOk(s, w);
    if s.workers[w].pc.Count? {
      CountCrashes(s, w);
    } else if s.workers[w].pc.Copy? {
      CopyFits(s, w);
    }
    forall v | 0 <= v < |s.workers|
      ensures |s'.workers| == |s.workers| && WorkerOk(s.workers[v])
      ensures v != w ==> s'.workers[v] == s.workers[v]
    {
      WorkersCrashAlone(s, w, v);
    }
  }

  lemma CountCrashes(s: Pool, w: nat)
    requires Inv(s) && w < |s.workers| && s.workers[w].pc.Count?
    ensures CountStep(s, w).workers[w].pc.Crashed? <==> Overflows(s, WorkerAct(w))
    ensures Overflows(s, WorkerAct(w)) ==> !TotalsFit(s)
  {
    assert WorkerOk(s.workers[w]) && FlightOk(s, w);
    var j := s.workers[w].task.value;
    assert CallerOk(s, j.caller);
    if TotalsFit(s) {
      var caller := s.callers[j.caller];
      assert TickFits(caller.ticks[|caller.ticks| - 1]);
    }
  }

  /** Room threads only add ticks. */
  lemma TicksOnlyGrow(s: State, a: Action)
    requires Step(s, a).Some?
    ensures |s.pool.callers| <= |Step(s, a).value.pool.callers|
    ensures forall c :: 0 <= c < |s.pool.callers| ==>
              s.pool.callers[c].ticks <= Step(s, a).value.pool.callers[c].ticks
  {
    if a.WorkerAct? {
      WorkerKeepsTicks(s.pool, a.w);
    } else if a.CallerAct? {
      CallerTicksGrow(s, a.c);
    }
  }

  lemma WorkerKeepsTicks(s: Pool, w: nat)
    requires w < |s.workers| && WorkerStep(s, w).Some?
    ensures |WorkerStep(s, w).value.callers| == |s.callers|
    ensures forall c :: 0 <= c < |s.callers| ==> WorkerStep(s, w).value.callers[c].ticks == s.callers[c].ticks
  {
  }

  lemma CallerTicksGrow(s: State, c: nat)
    requires c < |s.pool.callers| && CallerStep(s, c).Some?
    ensures |CallerStep(s, c).value.pool.callers| == |s.pool.callers|
    ensures forall d :: 0 <= d < |s.pool.callers| ==>
              s.pool.callers[d].ticks <= CallerStep(s, c).value.pool.callers[d].ticks
  {
  }

  lemma FittingBefore(s: State, a: Action)
    requires Step(s, a).Some? && TotalsFit(Step(s, a).value.pool)
    ensures TotalsFit(s.pool)
  {
    TicksOnlyGrow(s, a);
    forall c, i | 0 <= c < |s.pool.callers| && 0 <= i < |s.pool.callers[c].ticks|
      ensures TickFits(s.pool.callers[c].ticks[i])
    {
      assert s.pool.callers[c].ticks[i] == Step(s, a).value.pool.callers[c].ticks[i];
    }
  }

  /** As long as every tick so far owes each member at most INT_MAX bytes, no undefined behaviour has occurred. */
  lemma {:induction false} FittingRunsAreDefined(s: State, workerCount: nat, actions: seq<Action>)
    requires Reachable(s, workerCount, actions) && TotalsFit(s.pool)
    ensures Defined(s.pool)
    decreases |actions|
  {
    if actions == [] {
    } else {
      var front, a := actions[..|actions| - 1], actions[|actions| - 1];
      var t := Run(Initial(workerCount), front).value;
      FittingBefore(t, a);
      FittingRunsAreDefined(t, workerCount, front);
      CrashesExactlyOnOverflow(t, workerCount, front, a);
    }
  }
}
