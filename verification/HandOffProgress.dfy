/** That the room threads get on: a search finds a free worker, a tick takes what is pending and whoever is enrolled,
    and every step inside a tick brings its end nearer. */
module HandOffProgress {
  import opened RelayTypes
  import opened HandOff
  import opened HandOffInvariant
  import opened HandOffDelivery
  import opened HandOffTheorems

  // ---------- the search of the pool ----------

  /** n steps of caller c, one after another. */
  function CallerSteps(s: State, c: nat, n: nat): Option<State>
    decreases n
  {
    if n == 0 then Some(s)
    else
      match Step(s, CallerAct(c))
      case None => None
      case Some(t) => CallerSteps(t, c, n - 1)
  }

  /** The first worker from the k-th on whose lock() would succeed is the v-th. */
  predicate FirstFree(workers: seq<Worker>, k: nat, v: nat) {
    k <= v < |workers| && !workers[v].threadLocked && forall i :: k <= i < v ==> workers[i].threadLocked
  }

  /** After n steps of its own the caller has locked worker v, which nobody held. */
  predicate Claims(s: State, c: nat, n: nat, v: nat) {
    match CallerSteps(s, c, n)
    case None => false
    case Some(t) =>
      && c < |t.pool.callers| && t.pool.callers[c].pc == AcquireController(v)
      && |t.pool.workers| == |s.pool.workers| && v < |s.pool.workers|
      && t.pool.workers == s.pool.workers[v := s.pool.workers[v].(threadLocked := true, claimant := Some(c))]
  }

  /** A search reaches the first free worker from where it stands in as many steps as it has to look at workers. */
  lemma {:induction false} SearchFindsFirstFree(s: State, c: nat, k: nat, v: nat)
    requires c < |s.pool.callers| && s.pool.callers[c].pc == Search(k) && FirstFree(s.pool.workers, k, v)
    ensures Claims(s, c, v + 1 - k, v)
    decreases v - k
  {
    var t := CallerStep(s, c).value;
    if k == v {
      assert CallerSteps(t, c, 0) == Some(t);
    } else {
      assert t.pool.callers[c].pc == Search(k + 1) && t.pool.workers == s.pool.workers;
      SearchFindsFirstFree(t, c, k + 1, v);
    }
  }

  /** A search that finds no free worker ahead starts over, and takes the first free one from the beginning. */
  lemma {:induction false} SearchFindsAfterWrapping(s: State, c: nat, k: nat, v: nat)
    requires c < |s.pool.callers| && s.pool.callers[c].pc == Search(k) && k <= |s.pool.workers|
    requires forall i :: k <= i < |s.pool.workers| ==> s.pool.workers[i].threadLocked
    requires FirstFree(s.pool.workers, 0, v)
    ensures Claims(s, c, |s.pool.workers| + 1 - k + v + 1, v)
    decreases |s.pool.workers| - k
  {
    var t := CallerStep(s, c).value;
    assert t.pool.workers == s.pool.workers;
    if k == |s.pool.workers| {
      assert t.pool.callers[c].pc == Search(0);
      SearchFindsFirstFree(t, c, 0, v);
    } else {
      assert t.pool.callers[c].pc == Search(k + 1);
      SearchFindsAfterWrapping(t, c, k + 1, v);
    }
  }

  /** The first free worker exists when any is free. */
  lemma {:induction false} SomeFirstFree(workers: seq<Worker>, k: nat, w: nat) returns (v: nat)
    requires k <= w < |workers| && !workers[w].threadLocked
    ensures FirstFree(workers, k, v) && v <= w
    decreases w - k
  {
    v := k;
    if !workers[k].threadLocked {
    } else {
      v := SomeFirstFree(workers, k + 1, w);
    }
  }

  /** Whenever some worker is free, a searching caller left to itself locks one within two rounds. */
  lemma SearchSucceeds(s: State, c: nat, k: nat, w: nat)
    requires c < |s.pool.callers| && s.pool.callers[c].pc == Search(k) && k <= |s.pool.workers|
    requires w < |s.pool.workers| && !s.pool.workers[w].threadLocked
    ensures exists n: nat, v: nat :: n <= 2 * |s.pool.workers| + 1 && Claims(s, c, n, v)
    ensures k <= w ==>
              exists n: nat, v: nat :: n <= w + 1 - k && FirstFree(s.pool.workers, k, v) && Claims(s, c, n, v)
  {
    if i :| k <= i < |s.pool.workers| && !s.pool.workers[i].threadLocked {
      var v := SomeFirstFree(s.pool.workers, k, if k <= w then w else i);
      SearchFindsFirstFree(s, c, k, v);
      assert Claims(s, c, v + 1 - k, v);
    } else {
      var v := SomeFirstFree(s.pool.workers, 0, w);
      SearchFindsAfterWrapping(s, c, k, v);
    }
  }

  // ---------- a tick takes what is there ----------

  /** A step adds to the ticks of at most one thread, and then one tick, over what that thread drained and the members
      the room has at that moment. */
  lemma TickTakesMembers(s: State, a: Action, c: nat)
    requires Step(s, a).Some? && c < |s.pool.callers|
    ensures var s' := Step(s, a).value;
            && c < |s'.pool.callers|
            && (s'.pool.callers[c].ticks != s.pool.callers[c].ticks ==>
                  && a == CallerAct(c) && s.pool.callers[c].pc.Snapshot?
                  && s'.pool.callers[c].ticks
                     == s.pool.callers[c].ticks
                        + [Tick(s.pool.callers[c].packets, Get(s.rooms.handles, s.pool.callers[c].room))])
            && s'.pool.callers[c].room == s.pool.callers[c].room
  {
    if a.WorkerAct? {
      WorkerAddsNoTick(s.pool, a.w, c);
    } else if a.CallerAct? {
      CallerAddsTick(s, a.c, c);
    }
  }

  lemma WorkerAddsNoTick(s: Pool, w: nat, c: nat)
    requires w < |s.workers| && WorkerStep(s, w).Some? && c < |s.callers|
    ensures |WorkerStep(s, w).value.callers| == |s.callers|
    ensures WorkerStep(s, w).value.callers[c].ticks == s.callers[c].ticks
    ensures WorkerStep(s, w).value.callers[c].room == s.callers[c].room
  {
  }

  lemma CallerAddsTick(s: State, d: nat, c: nat)
    requires d < |s.pool.callers| && CallerStep(s, d).Some? && c < |s.pool.callers|
    ensures var s' := CallerStep(s, d).value; var caller := s.pool.callers[c];
            && c < |s'.pool.callers| && s'.pool.callers[c].room == caller.room
            && s'.pool.callers[c].ticks
               == if d == c && caller.pc.Snapshot?
                  then caller.ticks + [Tick(caller.packets, Get(s.rooms.handles, caller.room))] else caller.ticks
  {
    if Submitting(s.pool.callers[d].pc) {
      SubmitAddsNoTick(s.pool, d, c);
    } else if Busy(s.pool.callers[d].pc) {
      RoundAddsNoTick(s.pool, d, c);
    }
  }

  lemma SubmitAddsNoTick(s: Pool, d: nat, c: nat)
    requires d < |s.callers| && SubmitStep(s, d).Some? && c < |s.callers|
    ensures var callers := SubmitStep(s, d).value.callers;
            |callers| == |s.callers| && callers[c].ticks == s.callers[c].ticks && callers[c].room == s.callers[c].room
  {
  }

  lemma RoundAddsNoTick(s: Pool, d: nat, c: nat)
    requires d < |s.callers| && TickStep(s, d).Some? && c < |s.callers|
    ensures var callers := TickStep(s, d).value.callers;
            |callers| == |s.callers| && callers[c].ticks == s.callers[c].ticks && callers[c].room == s.callers[c].room
  {
  }

  /** A connection that is enrolled stays so until it is withdrawn or its room's members are erased or made anew. */
  lemma MembersStay(s: State, a: Action, room: Key, m: Connection)
    requires Step(s, a).Some? && m in Get(s.rooms.handles, room) && Distinct(Get(s.rooms.handles, room))
    ensures m in Get(Step(s, a).value.rooms.handles, room)
            <==> a != Withdraw(m.identifier) && a != EraseHandles(room) && a != CreateHandles(room)
  {
    if a.WorkerAct? || a.DestructorAct? || a.CallerAct? {
    } else {
      SectionKeepsMembers(s.rooms, a, room, m);
    }
  }

  lemma SectionKeepsMembers(rooms: Rooms, a: Action, room: Key, m: Connection)
    requires m in Get(rooms.handles, room) && Distinct(Get(rooms.handles, room))
    ensures m in Get(Section(rooms, a).handles, room)
            <==> a != Withdraw(m.identifier) && a != EraseHandles(room) && a != CreateHandles(room)
  {
    if a.Withdraw? {
      WithoutDistinct(rooms.handles[room], a.identifier);
    }
  }

  /** The ticks of a thread, none before it exists. */
  function TicksOf(s: State, c: nat): seq<Tick> {
    if c < |s.pool.callers| then s.pool.callers[c].ticks else []
  }

  /** A step while a connection is enrolled in the thread's room adds no tick without it. */
  lemma EnrolledStep(s: State, a: Action, c: nat, m: Connection)
    requires Step(s, a).Some? && c < |Step(s, a).value.pool.callers|
    requires m in Get(s.rooms.handles, Step(s, a).value.pool.callers[c].room)
    ensures var before, after := TicksOf(s, c), TicksOf(Step(s, a).value, c);
            after == before || (|after| == |before| + 1 && after[..|before|] == before && m in after[|before|].members)
    ensures c < |s.pool.callers| ==> Step(s, a).value.pool.callers[c].room == s.pool.callers[c].room
  {
    if c < |s.pool.callers| {
      TickTakesMembers(s, a, c);
    } else {
      NewThreadHasNoTicks(s, a, c);
    }
  }

  lemma NewThreadHasNoTicks(s: State, a: Action, c: nat)
    requires Step(s, a).Some? && |s.pool.callers| <= c < |Step(s, a).value.pool.callers|
    ensures TicksOf(Step(s, a).value, c) == []
  {
    if a.WorkerAct? {
      WorkerKeepsCallerCount(s.pool, a.w);
    } else if a.CallerAct? {
      CallerKeepsCallerCount(s, a.c);
    }
  }

  lemma WorkerKeepsCallerCount(s: Pool, w: nat)
    requires w < |s.workers| && WorkerStep(s, w).Some?
    ensures |WorkerStep(s, w).value.callers| == |s.callers|
  {
  }

  lemma CallerKeepsCallerCount(s: State, c: nat)
    requires c < |s.pool.callers| && CallerStep(s, c).Some?
    ensures |CallerStep(s, c).value.pool.callers| == |s.pool.callers|
  {
  }

  /** A thread whose room has something pending, left to itself, takes all of it into a tick with all members. */
  lemma TickBegins(s: State, c: nat)
    requires c < |s.pool.callers| && s.pool.callers[c].pc.CheckRoom?
    requires Get(s.rooms.packets, s.pool.callers[c].room) != []
    ensures CallerSteps(s, c, 3).Some?
    ensures var caller := s.pool.callers[c]; var t := CallerSteps(s, c, 3).value;
            && c < |t.pool.callers| && t.pool.callers[c].pc.Fan? && t.pool.callers[c].controllers == []
            && t.pool.callers[c].ticks
               == caller.ticks + [Tick(Get(s.rooms.packets, caller.room), Get(s.rooms.handles, caller.room))]
            && Get(t.rooms.packets, caller.room) == []
  {
    var s1 := CallerStep(s, c).value;
    assert s1.pool.callers[c].pc.Drain? && s1.rooms == s.rooms;
    var s2 := CallerStep(s1, c).value;
    assert s2.pool.callers[c].pc.Snapshot?;
    var s3 := CallerStep(s2, c).value;
    assert CallerSteps(s2, c, 1) == Some(s3) by {
      assert CallerSteps(s3, c, 0) == Some(s3);
    }
    assert CallerSteps(s1, c, 2) == CallerSteps(s2, c, 1);
  }

  /** A round that finds nothing pending ends where it began and has taken nothing. */
  lemma EmptyRoundReturns(s: State, c: nat)
    requires c < |s.pool.callers| && s.pool.callers[c].pc.CheckRoom?
    requires s.pool.callers[c].room in s.rooms.packets && s.rooms.packets[s.pool.callers[c].room] == []
    ensures var caller := s.pool.callers[c].(packets := []);
            CallerSteps(s, c, 2) == Some(s.(pool := s.pool.(callers := s.pool.callers[c := caller])))
  {
    var s1 := CallerStep(s, c).value;
    var s2 := CallerStep(s1, c).value;
    assert CallerSteps(s1, c, 1) == Some(s2) by {
      assert CallerSteps(s2, c, 0) == Some(s2);
    }
    var caller := s.pool.callers[c].(packets := []);
    assert s2.pool.callers == s.pool.callers[c := caller];
  }

  /** The thread goes on when its room exists and ends when it does not. */
  lemma ThreadEndsWithRoom(s: State, c: nat)
    requires c < |s.pool.callers| && s.pool.callers[c].pc.CheckRoom?
    ensures var t := CallerStep(s, c);
            && t.Some? && t.value.rooms == s.rooms && c < |t.value.pool.callers|
            && (t.value.pool.callers[c].pc == if s.pool.callers[c].room in s.rooms.packets then Drain else Left)
  {
  }

  // ---------- a tick comes to its end ----------

  /** How far a thread is from the end of its tick. */
  function TickRank(caller: Caller): int {
    var members, left := |caller.connections|, |caller.connections| - |caller.controllers|;
    match caller.pc
    case Fan => 7 * left + 2 * members + 2
    case Search(_) => 7 * left + 2 * members + 1
    case AcquireController(_) => 7 * left + 2 * members
    case SetTask(_) => 7 * left + 2 * members - 1
    case SetDone(_) => 7 * left + 2 * members - 2
    case Wake(_) => 7 * left + 2 * members - 3
    case Join(i) => 2 * (members - i) + 1
    case JoinRelease(i) => 2 * (members - i)
    case _ => 0
  }

  /** Inside a tick every step of the thread brings its end nearer, but for a search that looks at a busy worker. It is
      blocked nowhere but in join(). */
  lemma TickProgresses(s: State, workerCount: nat, actions: seq<Action>, c: nat)
    requires Reachable(s, workerCount, actions) && Defined(s.pool)
    requires c < |s.pool.callers| && Busy(s.pool.callers[c].pc)
    ensures var caller := s.pool.callers[c];
            && 0 < TickRank(caller)
            && (CallerStep(s, c).None? ==> caller.pc.Join?)
            && (CallerStep(s, c).Some? ==>
                  && c < |CallerStep(s, c).value.pool.callers|
                  && var after := CallerStep(s, c).value.pool.callers[c];
                     0 <= TickRank(after) < TickRank(caller) || (caller.pc.Search? && after.pc.Search?))
  {
    ReachableInv(s, workerCount, actions);
    assert CallerOk(s.pool, c);
    if Submitting(s.pool.callers[c].pc) {
      SubmitProgresses(s.pool, c);
    } else {
      RoundProgresses(s.pool, c);
    }
  }

  lemma SubmitProgresses(p: Pool, c: nat)
    requires Inv(p) && c < |p.callers| && Submitting(p.callers[c].pc)
    ensures var caller := p.callers[c];
            && 0 < TickRank(caller) && SubmitStep(p, c).Some? && c < |SubmitStep(p, c).value.callers|
            && var after := SubmitStep(p, c).value.callers[c];
               0 <= TickRank(after) < TickRank(caller) || (caller.pc.Search? && after.pc.Search?)
  {
    assert CallerOk(p, c);
  }

  lemma RoundProgresses(p: Pool, c: nat)
    requires Inv(p) && c < |p.callers|
    requires var pc := p.callers[c].pc; pc.Fan? || pc.Join? || pc.JoinRelease?
    ensures var caller := p.callers[c];
            && 0 < TickRank(caller)
            && (TickStep(p, c).None? ==> caller.pc.Join?)
            && (TickStep(p, c).Some? ==>
                  && c < |TickStep(p, c).value.callers|
                  && 0 <= TickRank(TickStep(p, c).value.callers[c]) < TickRank(caller))
  {
    assert CallerOk(p, c);
  }

  // ---------- destruction ----------

  /** A destructor takes hold of its worker as soon as nobody else holds it, and from then on the worker is never
      claimable again, so that Progress leads to its destruction. */
  lemma DestructorClaims(s: State, workerCount: nat, actions: seq<Action>, w: nat)
    requires Reachable(s, workerCount, actions) && Defined(s.pool) && w < |s.pool.workers|
    ensures var k := s.pool.workers[w];
            k.destructor == Alive ==>
              && (Step(s, DestructorAct(w)).Some? <==> !k.threadLocked)
              && (!k.threadLocked ==>
                    && w < |Step(s, DestructorAct(w)).value.pool.workers|
                    && Step(s, DestructorAct(w)).value.pool.workers[w]
                       == k.(threadLocked := true, destructor := SettingExit))
    ensures s.pool.workers[w].destructor != Alive ==> !Claimable(s.pool.workers[w])
  {
    ReachableInv(s, workerCount, actions);
    assert WorkerOk(s.pool.workers[w]);
  }

  // ---------- interference ----------

  /** Nobody else changes how far it is. */
  lemma OthersKeepTickRank(s: State, a: Action, c: nat)
    requires Step(s, a).Some? && a != CallerAct(c) && c < |s.pool.callers|
    ensures c < |Step(s, a).value.pool.callers|
    ensures TickRank(Step(s, a).value.pool.callers[c]) == TickRank(s.pool.callers[c])
    ensures Step(s, a).value.pool.callers[c].pc == s.pool.callers[c].pc
  {
    if a.WorkerAct? {
      WorkerKeepsCallerPc(s.pool, a.w, c);
    } else if a.CallerAct? {
      CallerKeepsOthers(s, a.c, c);
    }
  }

  lemma WorkerKeepsCallerPc(s: Pool, w: nat, c: nat)
    requires w < |s.workers| && WorkerStep(s, w).Some? && c < |s.callers|
    ensures |WorkerStep(s, w).value.callers| == |s.callers|
    ensures var after := WorkerStep(s, w).value.callers[c];
            after.pc == s.callers[c].pc && after.connections == s.callers[c].connections
            && after.controllers == s.callers[c].controllers
  {
  }

  lemma CallerKeepsOthers(s: State, d: nat, c: nat)
    requires d < |s.pool.callers| && CallerStep(s, d).Some? && c < |s.pool.callers| && c != d
    ensures c < |CallerStep(s, d).value.pool.callers|
    ensures CallerStep(s, d).value.pool.callers[c] == s.pool.callers[c]
  {
  }
}
