/** Who is in a tick: a connection that stays enrolled in a room is in every tick that the room's thread adds. */
module RelayEnrolment {
  import opened RelayTypes
  import opened RelaySystem
  import opened RelaySystemTheorems
  import opened RelayEndToEnd
  import opened HandOffOverflow
  import opened HandOffProgress
  import opened HandOffTheorems
  import opened HandOffInvariant
  import H = HandOff

  predicate Enrols(hand: H.State, room: Key, m: Connection) {
    m in H.Get(hand.rooms.handles, room)
  }

  predicate RoomIs(hand: H.State, c: nat, room: Key) {
    c < |hand.pool.callers| ==> hand.pool.callers[c].room == room
  }

  /** Thread c of `after` has the ticks it had, and then only ticks with m. */
  predicate OnlyTicksWith(before: seq<H.Tick>, after: seq<H.Tick>, m: Connection) {
    before <= after && AlwaysMember(after[|before|..], m)
  }

  lemma OnlyTicksWithChain(a: seq<H.Tick>, b: seq<H.Tick>, c: seq<H.Tick>, m: Connection)
    requires OnlyTicksWith(a, b, m) && OnlyTicksWith(b, c, m)
    ensures OnlyTicksWith(a, c, m)
  {
    var added, first, second := c[|a|..], b[|a|..], c[|b|..];
    forall i | 0 <= i < |added|
      ensures m in added[i].members
    {
      if |a| + i < |b| {
        assert added[i] == c[|a| + i] == b[|a| + i] == first[i];
      } else {
        assert added[i] == second[|a| + i - |b|];
      }
    }
  }

  lemma HandStepTicks(s: H.State, a: H.Action, c: nat, room: Key, m: Connection)
    requires H.Step(s, a).Some? && Enrols(s, room, m) && RoomIs(H.Step(s, a).value, c, room)
    ensures RoomIs(s, c, room)
    ensures OnlyTicksWith(TicksOf(s, c), TicksOf(H.Step(s, a).value, c), m)
  {
    if c < |s.pool.callers| {
      TickTakesMembers(s, a, c);
    }
    if c < |H.Step(s, a).value.pool.callers| {
      EnrolledStep(s, a, c, m);
    }
  }

  lemma SystemStepTicks(s: System, move: Move, c: nat, room: Key, m: Connection)
    requires Step(s, move).Some? && Enrols(s.hand, room, m) && RoomIs(Step(s, move).value.hand, c, room)
    ensures RoomIs(s.hand, c, room)
    ensures OnlyTicksWith(TicksOf(s.hand, c), TicksOf(Step(s, move).value.hand, c), m)
  {
    var s' := Step(s, move).value;
    StepProjects(s, move);
    if s'.hand != s.hand {
      var a :| H.Step(s.hand, a) == Some(s'.hand);
      HandStepTicks(s.hand, a, c, room, m);
    }
  }

  /** m is a member of the room in every state from the k-th of the run on. */
  ghost predicate EnrolledSince(workerCount: nat, moves: seq<Move>, k: nat, room: Key, m: Connection) {
    forall i :: k <= i < |moves| ==> EnrolledAt(workerCount, moves[..i], room, m)
  }

  predicate EnrolledAt(workerCount: nat, moves: seq<Move>, room: Key, m: Connection) {
    match Run(Initial(workerCount), moves)
    case None => false
    case Some(s) => Enrols(s.hand, room, m)
  }

  /** The ticks of thread c at that point. */
  function TicksAt(workerCount: nat, moves: seq<Move>, c: nat): seq<H.Tick> {
    match Run(Initial(workerCount), moves)
    case None => []
    case Some(s) => TicksOf(s.hand, c)
  }

  lemma {:induction false} EnrolledTicks(s: System, workerCount: nat, moves: seq<Move>, k: nat, c: nat, room: Key,
                                         m: Connection)
    requires Reachable(s, workerCount, moves) && k <= |moves| && RoomIs(s.hand, c, room)
    requires EnrolledSince(workerCount, moves, k, room, m)
    ensures OnlyTicksWith(TicksAt(workerCount, moves[..k], c), TicksOf(s.hand, c), m)
    decreases |moves|
  {
    if k == |moves| {
      assert moves[..k] == moves;
    } else {
      var front := moves[..|moves| - 1];
      var t := Run(Initial(workerCount), front).value;
      assert EnrolledAt(workerCount, front, room, m);
      SystemStepTicks(t, moves[|moves| - 1], c, room, m);
      forall i | k <= i < |front|
        ensures EnrolledAt(workerCount, front[..i], room, m)
      {
        assert front[..i] == moves[..i];
      }
      EnrolledTicks(t, workerCount, front, k, c, room, m);
      assert front[..k] == moves[..k];
      OnlyTicksWithChain(TicksAt(workerCount, front[..k], c), TicksOf(t.hand, c), TicksOf(s.hand, c), m);
    }
  }

  /** Whoever is enrolled from some point of the run on is in every tick after it. */
  lemma EnrolledIsPresent(s: System, workerCount: nat, moves: seq<Move>, k: nat, c: nat, m: Connection, t: nat, n: nat)
    requires Reachable(s, workerCount, moves) && k <= |moves| && c < |s.hand.pool.callers|
    requires EnrolledSince(workerCount, moves, k, s.hand.pool.callers[c].room, m)
    requires |TicksAt(workerCount, moves[..k], c)| <= t
    ensures PresentFor(s.hand.pool.callers[c].ticks, m, t, n)
  {
    var before, ticks := TicksAt(workerCount, moves[..k], c), s.hand.pool.callers[c].ticks;
    EnrolledTicks(s, workerCount, moves, k, c, s.hand.pool.callers[c].room, m);
    LaterTicks(before, ticks, m, t, n);
  }

  lemma LaterTicks(before: seq<H.Tick>, ticks: seq<H.Tick>, m: Connection, t: nat, n: nat)
    requires OnlyTicksWith(before, ticks, m) && |before| <= t
    ensures PresentFor(ticks, m, t, n)
  {
    if t + n <= |ticks| {
      var added, stretch := ticks[|before|..], ticks[t..t + n];
      forall i | 0 <= i < n
        ensures m in stretch[i].members
      {
        assert stretch[i] == added[t + i - |before|];
      }
    }
  }

  /** End to end, from enrolment: a connection that is a member from some point of the run on was sent exactly what the
      accepted messages of the others say in any stretch that thread c drained after that point. */
  lemma EnrolledHearTheOthers(s: System, workerCount: nat, moves: seq<Move>, k: nat, c: nat, m: Connection,
                              past: seq<H.Fate>, life: seq<H.Fate>, rest: seq<H.Fate>) returns (said: string)
    requires Reachable(s, workerCount, moves) && Defined(s.hand.pool) && c < |s.hand.pool.callers|
    requires !Busy(s.hand.pool.callers[c].pc) && !s.hand.pool.callers[c].pc.Snapshot?
    requires H.Get(s.hand.rooms.fates, s.hand.pool.callers[c].room) == past + life + rest
    requires NeverDiscarded(life) && (life != [] ==> life[0].caller == c)
    requires k <= |moves| && EnrolledSince(workerCount, moves, k, s.hand.pool.callers[c].room, m)
    requires |TicksAt(workerCount, moves[..k], c)| <= DrainCount(past, c)
    ensures SentFor(s.hand.pool.callers[c], m, DrainCount(past, c), |life|, said)
    ensures var room := s.hand.pool.callers[c].room; var messages := Heard(s, room);
            var from, to := PacketCount(past), PacketCount(past) + PacketCount(life);
            && to <= |messages| && said == SaidBetween(messages, from, to, m.identifier)
            && (rest == [] && s.todo == [] ==> to == |messages| - |H.Get(s.hand.rooms.packets, room)|)
  {
    EnrolledIsPresent(s, workerCount, moves, k, c, m, DrainCount(past, c), |life|);
    said := MembersHearTheOthers(s, workerCount, moves, c, m, past, life, rest);
  }
}
