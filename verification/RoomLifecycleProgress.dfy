/** That room threads and calls of createRoom get on: a clean-up leaves no announced thread registered, a call comes to
    its end, and a thread that has left its loop ends. */
module RoomLifecycleProgress {
  import opened RelayTypes
  import opened RoomLifecycle

  // ---------- the clean-up ----------

  predicate HasAnnounced(pc: ThreadPc) {
    pc.Announced? || pc.Ended?
  }

  /** The clean-up reaps every thread that has announced its end: when it gives the lock back, none of them is
      registered any more. */
  lemma CleanUpTakesAll(s: State, creatorCount: nat, actions: seq<Action>, c: nat)
    requires Reachable(s, creatorCount, actions) && c < |s.creators| && s.creators[c].pc.Clear?
    ensures var s' := CreatorStep(s, c).value;
            && CreatorStep(s, c).Some? && s'.completed == [] && s'.completedMutex == None
            && (forall room :: room in s'.roomThreads ==>
                  && s'.roomThreads[room] < |s'.threads|
                  && s'.threads[s'.roomThreads[room]].room == room
                  && !HasAnnounced(s'.threads[s'.roomThreads[room]].pc))
            && (forall t :: 0 <= t < |s'.threads| ==> (t in s'.joined <==> HasAnnounced(s'.threads[t].pc)))
  {
    ReachableInv(s, creatorCount, actions);
    assert CreatorOk(s, c);
    forall t | 0 <= t < |s.threads|
      ensures t in s.joined <==> HasAnnounced(s.threads[t].pc)
    {
      assert ThreadOk(s, t) && !Pending(s, s.threads[t].room);
    }
  }

  // ---------- a call comes to its end ----------

  /** How far a call of createRoom is from its end. */
  function CallRank(s: State, c: nat): int
    requires c < |s.creators|
  {
    var n := |s.completed|;
    match s.creators[c].pc
    case WantRoom => 2 * n + 6
    case WantCompleted => 2 * n + 5
    case Reap(i) => 2 * (n - i) + 4
    case JoinThread(i) => 2 * (n - i) + 3
    case Clear => 3
    case Decide => 2
    case Unlock => 1
    case Outside => 0
    case Crashed => 0
  }

  /** Every step of a call brings its end nearer. It waits for nothing but the two mutexes. */
  lemma CallProgresses(s: State, creatorCount: nat, actions: seq<Action>, c: nat)
    requires Reachable(s, creatorCount, actions) && c < |s.creators| && !s.creators[c].pc.Outside?
    ensures CreatorStep(s, c).None? <==>
              || (s.creators[c].pc.WantRoom? && s.roomMutex.Some?)
              || (s.creators[c].pc.WantCompleted? && s.completedMutex.Some?)
    ensures var next := CreatorStep(s, c);
            next.Some? ==> c < |next.value.creators| && 0 <= CallRank(next.value, c) < CallRank(s, c)
  {
    ReachableInv(s, creatorCount, actions);
    assert CreatorOk(s, c);
    if s.creators[c].pc.JoinThread? {
      ReapedThreadHasEnded(s, c);
    }
  }

  /** Nobody else sets a call back that has both mutexes, or has given the second back. */
  lemma OthersKeepCallRank(s: State, creatorCount: nat, actions: seq<Action>, a: Action, c: nat)
    requires Reachable(s, creatorCount, actions) && Step(s, a).Some? && a != CreatorAct(c)
    requires c < |s.creators| && HoldsRoom(s.creators[c].pc) && !s.creators[c].pc.WantCompleted?
    ensures c < |Step(s, a).value.creators| && Step(s, a).value.creators[c] == s.creators[c]
    ensures CallRank(Step(s, a).value, c) == CallRank(s, c)
  {
    ReachableInv(s, creatorCount, actions);
    assert CreatorOk(s, c);
    forall d | 0 <= d < |s.creators| && d != c
      ensures !HoldsRoom(s.creators[d].pc)
    {
      assert CreatorOk(s, d);
    }
    if a.ThreadAct? {
      assert ThreadOk(s, a.t);
    }
  }

  // ---------- a thread ends ----------

  /** How far a thread that has left its loop is from its end. */
  function EndRank(pc: ThreadPc): nat {
    match pc
    case Looping => 4
    case LeftLoop => 3
    case Announcing => 2
    case Announced => 1
    case Ended => 0
  }

  /** Out of its loop a thread waits for nothing but the announcement mutex, whose holder can step, and every step
      brings its end nearer. */
  lemma ThreadEnds(s: State, creatorCount: nat, actions: seq<Action>, t: nat, roomExists: bool)
    requires Reachable(s, creatorCount, actions) && t < |s.threads|
    requires !s.threads[t].pc.Looping? && !s.threads[t].pc.Ended?
    ensures var next := ThreadStep(s, t, roomExists);
            && (next.None? <==> s.threads[t].pc.LeftLoop? && s.completedMutex.Some?)
            && (next.Some? ==> t < |next.value.threads|
                               && EndRank(next.value.threads[t].pc) < EndRank(s.threads[t].pc))
    ensures s.completedMutex.Some? ==>
              Step(s, match s.completedMutex.value
                      case ByCreator(c) => CreatorAct(c)
                      case ByThread(u) => ThreadAct(u, roomExists)).Some?
  {
    ReachableInv(s, creatorCount, actions);
    if s.completedMutex.Some? {
      match s.completedMutex.value
      case ByThread(u) => assert ThreadOk(s, u);
      case ByCreator(c) =>
        assert CreatorOk(s, c);
        if s.creators[c].pc.JoinThread? {
          ReapedThreadHasEnded(s, c);
        }
    }
  }
}
