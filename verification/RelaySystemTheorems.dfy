/** End to end: rooms are drained by one thread per life, and what members are sent are the messages of the others. */
module RelaySystemTheorems {
  import opened RelayTypes
  import opened RelaySystem
  import opened HandOffDelivery
  import opened HandOffTheorems
  import opened RelayServerTheorems
  import opened HandOffInvariant
  import H = HandOff
  import L = RoomLifecycle
  import M = RelayServerModel

  // ---------- one drainer per life ----------

  /** Room thread t ticks as long as the registry has it in its loop. */
  predicate LinkedAt(s: System, t: nat)
    requires t < |s.registry.threads| && t < |s.hand.pool.callers|
  {
    && s.hand.pool.callers[t].room == s.registry.threads[t].room
    && (s.registry.threads[t].pc.Looping? <==> !s.hand.pool.callers[t].pc.Left?)
  }

  predicate ThreadsLinked(s: System) {
    && |s.hand.pool.callers| == |s.registry.threads|
    && forall t :: 0 <= t < |s.registry.threads| ==> LinkedAt(s, t)
  }

  /** Whoever drained the room last, in its present life, is still ticking. */
  predicate LifeOk(hand: H.State, room: Key) {
    var fates := H.Get(hand.rooms.fates, room);
    fates != [] && fates[|fates| - 1].Drained? ==>
      && room in hand.rooms.packets
      && var c := fates[|fates| - 1].caller;
         c < |hand.pool.callers| && hand.pool.callers[c].room == room && !hand.pool.callers[c].pc.Left?
  }

  /** Two batches drained in a row went to the same thread. */
  predicate OneDrainerPerLife(fates: seq<H.Fate>) {
    forall i :: 0 <= i < |fates| - 1 && fates[i].Drained? && fates[i + 1].Drained? ==>
      fates[i].caller == fates[i + 1].caller
  }

  ghost predicate SystemOk(s: System) {
    && L.Inv(s.registry) && ThreadsLinked(s)
    && (forall room :: LifeOk(s.hand, room))
    && (forall room: Key :: OneDrainerPerLife(H.Get(s.hand.rooms.fates, room)))
  }

  /** Two threads that tick for the same room are the same thread. */
  lemma OneTicksPerRoom(s: System, t: nat, u: nat)
    requires L.Inv(s.registry) && ThreadsLinked(s) && t < |s.hand.pool.callers| && u < |s.hand.pool.callers|
    requires s.hand.pool.callers[t].room == s.hand.pool.callers[u].room
    requires !s.hand.pool.callers[t].pc.Left? && !s.hand.pool.callers[u].pc.Left?
    ensures t == u
  {
    assert LinkedAt(s, t) && LinkedAt(s, u);
    assert L.ThreadOk(s.registry, t) && L.ThreadOk(s.registry, u);
  }

  /** The pool side of a step that drains nothing, ends no tick loop and removes no room. */
  predicate Uneventful(hand: H.State, hand': H.State) {
    && |hand'.pool.callers| == |hand.pool.callers| && hand'.rooms == hand.rooms
    && forall c :: 0 <= c < |hand.pool.callers| ==>
         && hand'.pool.callers[c].room == hand.pool.callers[c].room
         && hand'.pool.callers[c].pc.Left? == hand.pool.callers[c].pc.Left?
  }

  lemma WorkerIsUneventful(hand: H.State, w: nat)
    requires H.Step(hand, H.WorkerAct(w)).Some?
    ensures Uneventful(hand, H.Step(hand, H.WorkerAct(w)).value)
  {
  }

  lemma CallerIsUneventful(hand: H.State, c: nat)
    requires H.Step(hand, H.CallerAct(c)).Some?
    requires !hand.pool.callers[c].pc.CheckRoom? && !hand.pool.callers[c].pc.Drain?
    ensures Uneventful(hand, H.Step(hand, H.CallerAct(c)).value)
  {
    if Submitting(hand.pool.callers[c].pc) {
      SubmitIsUneventful(hand, c);
    }
  }

  lemma SubmitIsUneventful(hand: H.State, c: nat)
    requires c < |hand.pool.callers| && H.SubmitStep(hand.pool, c).Some?
    ensures Uneventful(hand, hand.(pool := H.SubmitStep(hand.pool, c).value))
  {
  }

  lemma UneventfulKeepsOk(s: System, hand: H.State)
    requires SystemOk(s) && Uneventful(s.hand, hand)
    ensures SystemOk(s.(hand := hand))
  {
    forall t | 0 <= t < |s.registry.threads|
      ensures LinkedAt(s.(hand := hand), t)
    {
      assert LinkedAt(s, t);
    }
    forall room
      ensures LifeOk(hand, room)
    {
      assert LifeOk(s.hand, room);
    }
  }

  /** A batch goes to the thread that took the one before, unless the room was destroyed in between. */
  lemma DrainKeepsOk(s: System, c: nat)
    requires SystemOk(s) && c < |s.hand.pool.callers| && s.hand.pool.callers[c].pc.Drain?
    ensures SystemOk(s.(hand := H.DrainStep(s.hand, c)))
  {
    var hand' := H.DrainStep(s.hand, c);
    var taken := s.hand.pool.callers[c].room;
    forall t | 0 <= t < |s.registry.threads|
      ensures LinkedAt(s.(hand := hand'), t)
    {
      assert LinkedAt(s, t);
    }
    forall room
      ensures LifeOk(hand', room) && OneDrainerPerLife(H.Get(hand'.rooms.fates, room))
    {
      assert LifeOk(s.hand, room) && OneDrainerPerLife(H.Get(s.hand.rooms.fates, room));
      var fates := H.Get(s.hand.rooms.fates, room);
      if room == taken && fates != [] && fates[|fates| - 1].Drained? {
        OneTicksPerRoom(s, fates[|fates| - 1].caller, c);
      }
    }
  }

  lemma SectionKeepsOk(s: System, item: Todo)
    requires SystemOk(s) && SectionOf(item).Some?
    ensures H.Step(s.hand, SectionOf(item).value).Some?
    ensures SystemOk(s.(hand := H.Step(s.hand, SectionOf(item).value).value))
  {
    var hand' := s.hand.(rooms := H.Section(s.hand.rooms, SectionOf(item).value));
    forall t | 0 <= t < |s.registry.threads|
      ensures LinkedAt(s.(hand := hand'), t)
    {
      assert LinkedAt(s, t);
    }
    forall room
      ensures LifeOk(hand', room) && OneDrainerPerLife(H.Get(hand'.rooms.fates, room))
    {
      assert LifeOk(s.hand, room) && OneDrainerPerLife(H.Get(s.hand.rooms.fates, room));
    }
  }

  /** Both sides of hasRoom(). */
  lemma CheckMovesBoth(s: System, t: nat)
    requires t < |s.hand.pool.callers| && s.hand.pool.callers[t].pc.CheckRoom?
    requires t < |s.registry.threads| && s.registry.threads[t].pc.Looping?
    ensures var present := s.hand.pool.callers[t].room in s.hand.rooms.packets;
            var registry := L.SetThread(s.registry, t, if present then L.Looping else L.LeftLoop);
            && L.Step(s.registry, L.ThreadAct(t, present)) == Some(registry)
            && ThreadStep(s, t) == Some(s.(registry := registry,
                                           hand := s.hand.(pool := H.Enter(s.hand.pool, t, present))))
  {
  }

  /** hasRoom() answers: a thread that leaves its loop has not drained the present life of its room. */
  lemma CheckKeepsOk(s: System, t: nat)
    requires SystemOk(s) && t < |s.hand.pool.callers| && s.hand.pool.callers[t].pc.CheckRoom?
    requires s.registry.threads[t].pc.Looping? && ThreadStep(s, t).Some?
    ensures SystemOk(ThreadStep(s, t).value)
  {
    CheckMovesBoth(s, t);
    var s' := ThreadStep(s, t).value;
    assert LinkedAt(s, t);
    var present := s.hand.pool.callers[t].room in s.hand.rooms.packets;
    L.StepKeepsInv(s.registry, L.ThreadAct(t, present));
    forall u | 0 <= u < |s'.registry.threads|
      ensures LinkedAt(s', u)
    {
      assert LinkedAt(s, u);
    }
    forall room
      ensures LifeOk(s'.hand, room)
    {
      assert LifeOk(s.hand, room);
    }
  }

  /** A registry step that starts no thread and lets none leave its loop. */
  lemma RegistryKeepsOk(s: System, a: L.Action)
    requires SystemOk(s) && L.Step(s.registry, a).Some?
    requires var r := L.Step(s.registry, a).value;
             && |r.threads| == |s.registry.threads|
             && forall t :: 0 <= t < |r.threads| ==>
                  && r.threads[t].room == s.registry.threads[t].room
                  && r.threads[t].pc.Looping? == s.registry.threads[t].pc.Looping?
    ensures SystemOk(s.(registry := L.Step(s.registry, a).value))
  {
    L.StepKeepsInv(s.registry, a);
    var s' := s.(registry := L.Step(s.registry, a).value);
    forall t | 0 <= t < |s'.registry.threads|
      ensures LinkedAt(s', t)
    {
      assert LinkedAt(s, t);
    }
  }

  /** createRoom leaves the threads alone or starts one. */
  lemma CreatorThreads(registry: L.State)
    requires L.Step(registry, L.CreatorAct(0)).Some?
    ensures var threads := L.Step(registry, L.CreatorAct(0)).value.threads;
            || threads == registry.threads
            || (|threads| == |registry.threads| + 1 && threads[..|registry.threads|] == registry.threads
                && threads[|registry.threads|].pc.Looping?)
  {
  }

  lemma SpawnKeepsOk(s: System, registry: L.State)
    requires SystemOk(s) && L.Inv(registry) && |registry.threads| == |s.registry.threads| + 1
    requires registry.threads[..|s.registry.threads|] == s.registry.threads
    requires registry.threads[|s.registry.threads|].pc.Looping?
    ensures SystemOk(s.(registry := registry,
                        hand := H.Step(s.hand, H.Spawn(registry.threads[|s.registry.threads|].room)).value))
  {
    var n := |s.registry.threads|;
    var s' := s.(registry := registry, hand := H.Step(s.hand, H.Spawn(registry.threads[n].room)).value);
    forall t | 0 <= t < n + 1
      ensures LinkedAt(s', t)
    {
      if t < n {
        assert LinkedAt(s, t) && registry.threads[t] == registry.threads[..n][t];
      }
    }
    forall room
      ensures LifeOk(s'.hand, room)
    {
      assert LifeOk(s.hand, room);
    }
  }

  lemma CreateRoomKeepsOk(s: System)
    requires SystemOk(s) && CreateRoomStep(s).Some?
    ensures SystemOk(CreateRoomStep(s).value)
  {
    CreatorThreads(s.registry);
    if L.Step(s.registry, L.CreatorAct(0)).value.threads == s.registry.threads {
      RegistryKeepsOk(s, L.CreatorAct(0));
    } else {
      L.StepKeepsInv(s.registry, L.CreatorAct(0));
      SpawnKeepsOk(s, L.Step(s.registry, L.CreatorAct(0)).value);
    }
  }

  lemma ThreadKeepsOk(s: System, t: nat)
    requires SystemOk(s) && ThreadStep(s, t).Some?
    ensures SystemOk(ThreadStep(s, t).value)
  {
    assert LinkedAt(s, t);
    if !s.registry.threads[t].pc.Looping? {
      RegistryKeepsOk(s, L.ThreadAct(t, false));
    } else if s.hand.pool.callers[t].pc.CheckRoom? {
      CheckKeepsOk(s, t);
    } else if s.hand.pool.callers[t].pc.Drain? {
      DrainKeepsOk(s, t);
    } else {
      CallerIsUneventful(s.hand, t);
      UneventfulKeepsOk(s, H.Step(s.hand, H.CallerAct(t)).value);
    }
  }

  lemma HandleKeepsOk(s: System)
    requires SystemOk(s) && s.todo != [] && HandleStep(s).Some?
    ensures SystemOk(HandleStep(s).value)
  {
    var item := s.todo[0];
    var rest := s.(todo := Next(s.hand.rooms, item) + s.todo[1..]);
    assert SystemOk(rest) by {
      RestIsOk(s, rest);
    }
    if item.StartThread? {
      RegistryKeepsOk(rest, L.Call(0, item.room));
    } else if SectionOf(item).Some? {
      SectionKeepsOk(rest, item);
    }
  }

  /** The invariant is about the pool and the registry alone. */
  lemma RestIsOk(s: System, s': System)
    requires SystemOk(s) && s'.hand == s.hand && s'.registry == s.registry
    ensures SystemOk(s')
  {
    forall t | 0 <= t < |s'.registry.threads|
      ensures LinkedAt(s', t)
    {
      assert LinkedAt(s, t);
    }
  }

  lemma StepKeepsOk(s: System, move: Move)
    requires SystemOk(s) && Step(s, move).Some?
    ensures SystemOk(Step(s, move).value)
  {
    if move.Begin? {
      RestIsOk(s, Step(s, move).value);
    } else if move.Handle? {
      HandleKeepsOk(s);
    } else if move.CreateRoomAct? {
      CreateRoomKeepsOk(s);
    } else if move.ThreadAct? {
      ThreadKeepsOk(s, move.t);
    } else if move.WorkerAct? {
      WorkerIsUneventful(s.hand, move.w);
      UneventfulKeepsOk(s, H.Step(s.hand, H.WorkerAct(move.w)).value);
    } else {
      UneventfulKeepsOk(s, H.Step(s.hand, H.DestructorAct(move.w)).value);
    }
  }

  lemma {:induction false} ReachableOk(s: System, workerCount: nat, moves: seq<Move>)
    requires Reachable(s, workerCount, moves)
    ensures SystemOk(s)
    decreases |moves|
  {
    if moves == [] {
    } else {
      var t := Run(Initial(workerCount), moves[..|moves| - 1]).value;
      ReachableOk(t, workerCount, moves[..|moves| - 1]);
      StepKeepsOk(t, moves[|moves| - 1]);
    }
  }

  /** In the whole relay a room thread in its loop can do whatever it can do in the hand-off machine, so what that
      machine says about searches and ticks coming to their end holds here. */
  lemma ThreadsRunFreely(s: System, workerCount: nat, moves: seq<Move>, t: nat)
    requires Reachable(s, workerCount, moves) && t < |s.registry.threads| && s.registry.threads[t].pc.Looping?
    ensures t < |s.hand.pool.callers| && !s.hand.pool.callers[t].pc.Left?
    ensures match H.CallerStep(s.hand, t)
            case None => ThreadStep(s, t) == None
            case Some(hand) => ThreadStep(s, t).Some? && ThreadStep(s, t).value.hand == hand
  {
    ReachableOk(s, workerCount, moves);
    assert LinkedAt(s, t);
  }

  /** So can a worker and its destructor, and the websocket thread inside createRoom. */
  lemma OthersRunFreely(s: System, w: nat)
    ensures Step(s, WorkerAct(w)) == WithHand(s, H.Step(s.hand, H.WorkerAct(w)))
    ensures Step(s, DestructorAct(w)) == WithHand(s, H.Step(s.hand, H.DestructorAct(w)))
    ensures match L.Step(s.registry, L.CreatorAct(0))
            case None => Step(s, CreateRoomAct) == None
            case Some(registry) => Step(s, CreateRoomAct).Some? && Step(s, CreateRoomAct).value.registry == registry
  {
  }

  predicate NeverDiscarded(fates: seq<H.Fate>) {
    forall i :: 0 <= i < |fates| ==> fates[i].Drained?
  }

  lemma {:induction false} SameDrainerThroughout(life: seq<H.Fate>)
    requires OneDrainerPerLife(life) && NeverDiscarded(life) && life != []
    ensures OnlyDrainer(life, life[0].caller)
  {
    var n := |life|;
    if n == 1 {
    } else {
      var front := life[..n - 1];
      SameDrainerThroughout(front);
      assert life[n - 2].caller == front[n - 2].caller == life[0].caller;
      assert life[n - 2].Drained? && life[n - 2 + 1].Drained?;
      forall i | 0 <= i < n
        ensures life[i].Drained? && life[i].caller == life[0].caller
      {
        assert i < n - 1 ==> life[i] == front[i];
      }
    }
  }

  lemma StretchOfLife(past: seq<H.Fate>, life: seq<H.Fate>, rest: seq<H.Fate>)
    requires OneDrainerPerLife(past + life + rest)
    ensures OneDrainerPerLife(life)
  {
    var fates := past + life + rest;
    forall i | 0 <= i < |life| - 1 && life[i].Drained? && life[i + 1].Drained?
      ensures life[i].caller == life[i + 1].caller
    {
      var k := |past| + i;
      assert fates[k] == life[i] && fates[k + 1] == life[i + 1];
    }
  }

  /** Between a room's creation and its destruction at most one thread takes its packets. */
  lemma OneDrainerInALife(s: System, workerCount: nat, moves: seq<Move>, room: Key,
                          past: seq<H.Fate>, life: seq<H.Fate>, rest: seq<H.Fate>)
    requires Reachable(s, workerCount, moves)
    requires H.Get(s.hand.rooms.fates, room) == past + life + rest && NeverDiscarded(life) && life != []
    ensures OnlyDrainer(life, life[0].caller)
  {
    ReachableOk(s, workerCount, moves);
    assert OneDrainerPerLife(H.Get(s.hand.rooms.fates, room));
    StretchOfLife(past, life, rest);
    SameDrainerThroughout(life);
  }
}
