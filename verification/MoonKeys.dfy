/** When no connection sends two different moon keys, the existing rooms are the rooms of the registered moons. The
    assumption speaks of the events alone. */
module MoonKeys {
  import opened RelayTypes
  import M = RelayServerModel
  import opened RelayServerTheorems

  predicate SendsMoonKey(e: M.Event) {
    e.Received? && e.room != EMPTY_KEY && |e.message| >= HASH_LENGTH && e.message[..HASH_LENGTH] == e.room
  }

  /** The moon key last sent over handle h by its present connection. */
  function LastMoonKey(events: seq<M.Event>, h: int): Option<Key> {
    if events == [] then None
    else
      var e := events[|events| - 1];
      if (e.Opened? || e.Closed?) && e.h == h then None
      else if SendsMoonKey(e) && e.h == h then Some(e.room)
      else LastMoonKey(events[..|events| - 1], h)
  }

  /** After `events`, e does not bring a second moon key to its connection. */
  predicate KeepsItsKey(events: seq<M.Event>, e: M.Event) {
    SendsMoonKey(e) ==> LastMoonKey(events, e.h) == None || LastMoonKey(events, e.h) == Some(e.room)
  }

  ghost predicate OneMoonKeyEach(events: seq<M.Event>) {
    forall i :: 0 <= i < |events| ==> KeepsItsKey(events[..i], events[i])
  }

  /** A registered moon's room is the key its connection last sent. */
  ghost predicate MoonsRemembered(events: seq<M.Event>, s: M.Server) {
    forall h :: h in s.ids && s.ids[h] in s.moons ==> LastMoonKey(events, h) == Some(s.moons[s.ids[h]])
  }

  lemma MessageMoons(s: M.Server, h: int, message: string, room: Key, limit: int)
    ensures var s' := M.Message(s, h, message, room, limit).0;
            && s'.ids == s.ids && s'.reserved == s.reserved
            && s'.moons == if M.IdOf(s, h) != 0 && SendsMoonKey(M.Received(h, message, room, limit))
                           then s.moons[M.IdOf(s, h) := room] else s.moons
  {
  }

  lemma ApplyRemembers(events: seq<M.Event>, s: M.Server, e: M.Event)
    requires Consistent(s) && Fresh(s, e) && MoonsRemembered(events, s)
    ensures MoonsRemembered(events + [e], M.Apply(s, e))
  {
    assert (events + [e])[..|events|] == events;
    var s' := M.Apply(s, e);
    if e.Received? {
      MessageMoons(s, e.h, e.message, e.room, e.limit);
    }
    forall h | h in s'.ids && s'.ids[h] in s'.moons
      ensures LastMoonKey(events + [e], h) == Some(s'.moons[s'.ids[h]])
    {
      assert h in s.ids && s'.ids[h] == s.ids[h];
    }
  }

  /** A remembered moon that sends its one key abandons nothing. */
  lemma OneKeyIsLoyal(events: seq<M.Event>, s: M.Server, e: M.Event)
    requires Consistent(s) && MoonsRemembered(events, s) && KeepsItsKey(events, e)
    ensures StaysLoyal(s, e)
  {
  }

  lemma PrefixIsConsistent(events: seq<M.Event>, n: nat)
    requires FreshRun(events) && n <= |events|
    ensures Consistent(M.Run(M.INITIAL, events[..n]))
  {
    forall i | 0 <= i < n
      ensures Fresh(M.Run(M.INITIAL, events[..n][..i]), events[..n][i])
    {
      assert events[..n][..i] == events[..i];
    }
    RunsStayConsistent(events[..n]);
  }

  lemma OneMoreRemembers(events: seq<M.Event>, e: M.Event)
    requires var s := M.Run(M.INITIAL, events); Consistent(s) && Fresh(s, e) && MoonsRemembered(events, s)
    ensures MoonsRemembered(events + [e], M.Run(M.INITIAL, events + [e]))
  {
    ApplyRemembers(events, M.Run(M.INITIAL, events), e);
    RunExtends(M.INITIAL, events, e);
  }

  lemma {:induction false} RunsRemember(events: seq<M.Event>, n: nat)
    requires FreshRun(events) && n <= |events|
    ensures MoonsRemembered(events[..n], M.Run(M.INITIAL, events[..n]))
    decreases n
  {
    if n == 0 {
    } else {
      RunsRemember(events, n - 1);
      PrefixIsConsistent(events, n - 1);
      OneMoreRemembers(events[..n - 1], events[n - 1]);
      assert events[..n] == events[..n - 1] + [events[n - 1]];
    }
  }

  /** Over every run in which no connection sends two different moon keys, the set of existing rooms is exactly the
      image of the moon map. */
  lemma OneMoonKeyEachMatchesRooms(events: seq<M.Event>)
    requires FreshRun(events) && OneMoonKeyEach(events)
    ensures RoomsAreMoonRooms(M.Run(M.INITIAL, events))
  {
    forall i | 0 <= i < |events|
      ensures StaysLoyal(M.Run(M.INITIAL, events[..i]), events[i])
    {
      PrefixIsConsistent(events, i);
      RunsRemember(events, i);
      OneKeyIsLoyal(events[..i], M.Run(M.INITIAL, events[..i]), events[i]);
    }
    LoyalRunsMatchRoomsAndMoons(events);
  }
}
