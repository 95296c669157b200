/** Exactly which runs of ContiguousQueue are first-in-first-out. Whether a run survives is decided from its pushes and
    pops alone; a run that does not survive trips an assert, and one that does gives what a plain queue gives. */
module ContiguousQueueRuns {
  import opened Integers
  import opened RelayTypes
  import opened ContiguousQueues

  /** What matters of the layout for the future. Whole: all entries are reached from the first slot, which thinks that
      the slot at position `last` of the list precedes it (-1: none); `room` bounds the list once it has become a ring.
      Cut: only the first `visible` entries are still reached. */
  datatype Mode = Whole(room: Option<nat>, last: int) | Cut(room: Option<nat>, visible: nat)

  const CLEAN := Whole(None, -1)

  /** A push onto n entries; a ring takes no more than it has room for. */
  function AfterPush(mode: Mode, n: nat): Option<Mode> {
    if mode.room == Some(n) then None else Some(mode)
  }

  /** A pop from n entries. */
  function AfterPop(mode: Mode, n: nat): Option<Mode>
    requires n > 0
  {
    match mode
    case Whole(room, last) =>
      if last == -1 then Some(if n >= 2 then mode else Whole(room, 0))
      else if last <= 0 then Some(if n >= 2 then Whole(room, n - 1) else mode)
      else if n == 1 then Some(Whole(Some(last + 1), 0))
      else if last >= n then Some(Whole(Some(last + 1), last))
      else if last == n - 1 then Some(Whole(Some(n), n - 2))
      else Some(Cut(room, last))
    case Cut(room, visible) => if visible >= 2 then Some(Cut(room, visible - 1)) else None
  }

  /** Every pop finds an entry. */
  predicate NoUnderflow<T>(n: nat, ops: seq<Op<T>>)
    decreases |ops|
  {
    ops == [] || if ops[0].Push? then NoUnderflow(n + 1, ops[1..]) else n > 0 && NoUnderflow(n - 1, ops[1..])
  }

  /** Computed from the operations, without any layout. */
  predicate Survives<T>(mode: Mode, n: nat, ops: seq<Op<T>>)
    requires NoUnderflow(n, ops)
    decreases |ops|
  {
    if ops == [] then true
    else if ops[0].Push? then AfterPush(mode, n).Some? && Survives(AfterPush(mode, n).value, n + 1, ops[1..])
    else AfterPop(mode, n).Some? && Survives(AfterPop(mode, n).value, n - 1, ops[1..])
  }

  // ---------- layouts ----------

  predicate Places(order: seq<int>, n: nat) {
    && (forall i :: 0 <= i < |order| ==> 0 <= order[i] < n)
    && (forall i, j :: 0 <= i < j < |order| ==> order[i] != order[j])
  }

  predicate At<T>(q: Queue<T>, order: seq<int>, i: nat)
    requires i < |order| && Places(order, |q.slots|)
  {
    && q.slots[order[i]].active == (i < q.count)
    && (i + 1 < |order| ==> q.slots[order[i]].next == order[i + 1])
  }

  /** Where the list ends: nowhere, or back in itself. */
  predicate Closed<T>(q: Queue<T>, order: seq<int>, room: Option<nat>)
    requires |order| > 0 && Places(order, |q.slots|)
  {
    var next := q.slots[order[|order| - 1]].next;
    if room.None? then next == -1 else |order| == room.value && next in order
  }

  predicate WholeOk<T>(q: Queue<T>, room: Option<nat>, last: int, order: seq<int>) {
    && |order| > 0 && Places(order, |q.slots|)
    && 0 <= q.count <= |order|
    && (forall i :: 0 <= i < |order| ==> At(q, order, i))
    && q.first == order[0] && q.current == order[if q.count == 0 then 0 else q.count - 1]
    && -1 <= last < |order| && q.slots[order[0]].last == (if last == -1 then -1 else order[last])
    && Closed(q, order, room)
  }

  ghost predicate Holds<T>(q: Queue<T>, order: seq<int>, n: nat, held: seq<T>)
    requires Places(order, |q.slots|) && n <= |order|
  {
    n <= |held| && forall i :: 0 <= i < n ==> held[i] == q.slots[order[i]].entry
  }

  predicate RingAt<T>(q: Queue<T>, ring: seq<int>, i: nat)
    requires i < |ring| && Places(ring, |q.slots|)
  {
    && q.slots[ring[i]].active
    && q.slots[ring[i]].next == ring[if i + 1 < |ring| then i + 1 else 0]
  }

  predicate TailAt<T>(q: Queue<T>, tail: seq<int>, i: nat)
    requires i < |tail| && Places(tail, |q.slots|)
  {
    && !q.slots[tail[i]].active
    && (i + 1 < |tail| ==> q.slots[tail[i]].next == tail[i + 1])
  }

  /** The slot whose link ends the list behind the current slot. */
  function End<T>(q: Queue<T>, tail: seq<int>): int {
    if tail == [] then q.current else tail[|tail| - 1]
  }

  predicate CutOk<T>(q: Queue<T>, room: Option<nat>, ring: seq<int>, tail: seq<int>) {
    && |ring| > 0 && Places(ring, |q.slots|) && Places(tail, |q.slots|)
    && |ring| < q.count && q.first == ring[0] && q.slots[q.first].last == ring[|ring| - 1]
    && (forall i :: 0 <= i < |ring| ==> RingAt(q, ring, i))
    && q.Has(q.current) && q.current !in ring && q.slots[q.current].active
    && (tail != [] ==> q.slots[q.current].next == tail[0])
    && (forall i :: 0 <= i < |tail| ==> TailAt(q, tail, i))
    && var next := q.slots[End(q, tail)].next;
       if room.None? then next == -1
       else |tail| == room.value - q.count && q.Has(next) && (q.slots[next].active || next in tail)
  }

  /** The queue is in this mode and its plain contents are `held`. */
  ghost predicate InMode<T>(q: Queue<T>, mode: Mode, held: seq<T>) {
    && q.count == |held|
    && match mode
       case Whole(room, last) =>
         if mode == CLEAN then WellLinked(q) && Contents(q) == held
         else last >= 0 && exists order :: WholeOk(q, room, last, order) && Holds(q, order, q.count, held)
       case Cut(room, visible) =>
         exists ring, tail :: CutOk(q, room, ring, tail) && |ring| == visible && Holds(q, ring, visible, held)
  }

  // ---------- what a pop does to a slot ----------

  lemma UnlinkedAt<T>(q: Queue<T>, a: int, k: int)
    requires q.Has(a) && q.Has(q.current) && q.Has(k)
    requires q.slots[a].last < |q.slots| && q.slots[a].next < |q.slots|
    ensures |Unlinked(q, a)| == |q.slots|
    ensures var u, s := Unlinked(q, a)[k], q.slots[k];
            var l, b, c := q.slots[a].last, q.slots[a].next, q.current;
            && u.entry == s.entry && u.active == (s.active && k != a)
            && u.next == (if k == a then (if c == l then b else q.slots[c].next)
                          else if k == c then a else if k == l then b else s.next)
            && (k == a ==> u.last == c)
            && (k == b && b != a ==> u.last == l)
  {
  }

  /** Popping one of several entries. */
  lemma PopMovesOn<T>(q: Queue<T>, b: int)
    requires q.Has(q.first) && q.Has(q.current) && q.count >= 2 && q.slots[q.first].last < |q.slots|
    requires q.slots[q.first].next == b && q.Has(b) && q.slots[b].active
    ensures Popped(q) == if b == q.first then None
                         else Some((q.slots[q.first].entry,
                                    q.(slots := Unlinked(q, q.first), first := b, count := q.count - 1)))
  {
    UnlinkedAt(q, q.first, b);
  }

  /** Popping the only entry. */
  lemma PopEmpties<T>(q: Queue<T>)
    requires q.Has(q.first) && q.Has(q.current) && q.count == 1
    requires q.slots[q.first].last < |q.slots| && q.slots[q.first].next < |q.slots|
    ensures Popped(q) == Some((q.slots[q.first].entry,
                               q.(slots := Unlinked(q, q.first), first := q.current, count := 0)))
  {
  }

  // ---------- pops of a whole list ----------

  /** The first m positions with the first one moved behind position n - 1. */
  function Turned(order: seq<int>, n: nat, m: nat): (r: seq<int>)
    requires 1 <= n <= m <= |order|
    ensures |r| == m
    ensures forall i :: 0 <= i < m ==> r[i] == order[if i < n - 1 then i + 1 else if i == n - 1 then 0 else i]
  {
    Rotated(order[..m], n)
  }

  lemma TurnedPlaces(order: seq<int>, n: nat, m: nat, size: nat)
    requires 1 <= n <= m <= |order| && Places(order, size)
    ensures Places(Turned(order, n, m), size)
    ensures forall x :: x in order[..m] ==> x in Turned(order, n, m)
  {
    var turned := Turned(order, n, m);
    forall x | x in order[..m]
      ensures x in turned
    {
      var j :| 0 <= j < m && order[j] == x;
      assert turned[if j == 0 then n - 1 else if j < n then j - 1 else j] == x;
    }
  }

  /** The three ways in which a pop leaves a whole list of several entries: m positions remain. */
  predicate Turns(n: nat, length: nat, room: Option<nat>, last: int, m: nat, next: Mode) {
    || (last == 0 && m == length && next == Whole(room, n - 1))
    || (last >= n && m == last + 1 && next == Whole(Some(m), last))
    || (last == n - 1 && m == n && next == Whole(Some(n), n - 2))
  }

  /** The pop itself. */
  lemma WholePops<T>(q: Queue<T>, room: Option<nat>, last: int, order: seq<int>)
    requires WholeOk(q, room, last, order) && q.count >= 2 && last >= 0
    ensures q.slots[q.first].last == order[last] && q.slots[q.first].next == order[1]
    ensures Popped(q) == Some((q.slots[order[0]].entry,
                               q.(slots := Unlinked(q, q.first), first := order[1], count := q.count - 1)))
    ensures |Unlinked(q, q.first)| == |q.slots|
  {
    assert At(q, order, 0) && At(q, order, 1);
    UnlinkedAt(q, q.first, q.first);
    PopMovesOn(q, order[1]);
  }

  lemma TurnedAt<T>(q: Queue<T>, room: Option<nat>, last: int, order: seq<int>, m: nat, next: Mode, i: nat)
    requires WholeOk(q, room, last, order) && q.count >= 2 && last >= 0
    requires q.count <= m <= |order| && Turns(q.count, |order|, room, last, m, next) && i < m
    requires q.slots[q.first].last == order[last] && q.slots[q.first].next == order[1]
    requires Places(Turned(order, q.count, m), |q.slots|) && |Unlinked(q, q.first)| == |q.slots|
    ensures At(q.(slots := Unlinked(q, q.first), first := order[1], count := q.count - 1), Turned(order, q.count, m), i)
  {
    var n := q.count;
    assert At(q, order, 0) && At(q, order, n - 1);
    var j := if i < n - 1 then i + 1 else if i == n - 1 then 0 else i;
    assert At(q, order, j);
    UnlinkedAt(q, q.first, order[j]);
  }

  lemma TurnedCloses<T>(q: Queue<T>, room: Option<nat>, last: int, order: seq<int>, m: nat, next: Mode)
    requires WholeOk(q, room, last, order) && q.count >= 2 && last >= 0
    requires q.count <= m <= |order| && Turns(q.count, |order|, room, last, m, next)
    requires q.slots[q.first].last == order[last] && q.slots[q.first].next == order[1]
    requires Places(Turned(order, q.count, m), |q.slots|) && |Unlinked(q, q.first)| == |q.slots|
    ensures Closed(q.(slots := Unlinked(q, q.first), first := order[1], count := q.count - 1),
                   Turned(order, q.count, m), next.room)
    ensures Unlinked(q, q.first)[order[1]].last == Turned(order, q.count, m)[next.last]
  {
    var n := q.count;
    var turned := Turned(order, n, m);
    assert At(q, order, 0) && At(q, order, n - 1) && At(q, order, |order| - 1);
    UnlinkedAt(q, q.first, order[1]);
    UnlinkedAt(q, q.first, turned[m - 1]);
    assert turned[0] == order[1];
    TurnedPlaces(order, n, m, |q.slots|);
    if m == |order| {
      assert order[..m] == order;
    }
  }

  lemma WholeTurns<T>(q: Queue<T>, room: Option<nat>, last: int, order: seq<int>, m: nat, next: Mode, held: seq<T>)
    requires WholeOk(q, room, last, order) && q.count >= 2 && last >= 0 && |held| == q.count
    requires Holds(q, order, q.count, held)
    requires q.count <= m <= |order| && Turns(q.count, |order|, room, last, m, next)
    ensures Popped(q).Some? && Popped(q).value.0 == held[0] && InMode(Popped(q).value.1, next, held[1..])
  {
    WholePops(q, room, last, order);
    var r, turned := Popped(q).value.1, Turned(order, q.count, m);
    TurnedPlaces(order, q.count, m, |q.slots|);
    forall i | 0 <= i < m
      ensures At(r, turned, i)
    {
      TurnedAt(q, room, last, order, m, next, i);
    }
    TurnedCloses(q, room, last, order, m, next);
    assert At(q, order, q.count - 1);
    forall i | 0 <= i < q.count - 1
      ensures held[1..][i] == r.slots[turned[i]].entry
    {
      UnlinkedAt(q, q.first, order[i + 1]);
    }
    assert WholeOk(r, next.room, next.last, turned) && Holds(r, turned, r.count, held[1..]);
  }

  // ---------- the pop that empties ----------

  /** The list keeps its first m positions, and the first slot is preceded by itself. */
  lemma WholeEmpties<T>(q: Queue<T>, room: Option<nat>, last: int, order: seq<int>, m: nat, held: seq<T>)
    requires WholeOk(q, room, last, order) && q.count == 1 == |held| && Holds(q, order, 1, held)
    requires m == if last >= 1 then last + 1 else |order|
    ensures Popped(q).Some? && Popped(q).value.0 == held[0]
    ensures InMode(Popped(q).value.1, Whole(if last >= 1 then Some(m) else room, 0), [])
  {
    assert At(q, order, 0) && At(q, order, |order| - 1);
    PopEmpties(q);
    var r, kept := Popped(q).value.1, order[..m];
    UnlinkedAt(q, q.first, q.first);
    forall i | 0 <= i < m
      ensures At(r, kept, i)
    {
      assert At(q, order, i);
      UnlinkedAt(q, q.first, order[i]);
    }
    UnlinkedAt(q, q.first, order[m - 1]);
    EmptiedCloses(q, room, last, order, m);
    assert WholeOk(r, if last >= 1 then Some(m) else room, 0, kept) && Holds(r, kept, 0, []);
  }

  lemma EmptiedCloses<T>(q: Queue<T>, room: Option<nat>, last: int, order: seq<int>, m: nat)
    requires WholeOk(q, room, last, order) && q.count == 1
    requires m == if last >= 1 then last + 1 else |order|
    requires q.slots[q.first].last < |q.slots| && q.slots[q.first].next < |q.slots|
    ensures |Unlinked(q, q.first)| == |q.slots|
    ensures Closed(q.(slots := Unlinked(q, q.first), first := q.current, count := 0), order[..m],
                   if last >= 1 then Some(m) else room)
  {
    assert At(q, order, 0) && At(q, order, |order| - 1);
    UnlinkedAt(q, q.first, order[m - 1]);
    var kept := order[..m];
    if last >= 1 {
      assert kept[1] == order[1];
    } else {
      assert kept == order;
    }
  }

  // ---------- the pop that cuts the list ----------

  /** With the named slot occupied and not the current one, only the entries up to it are reached any longer. */
  lemma WholeIsCut<T>(q: Queue<T>, room: Option<nat>, last: int, order: seq<int>, held: seq<T>)
    requires WholeOk(q, room, last, order) && 1 <= last < q.count - 1 && |held| == q.count
    requires Holds(q, order, q.count, held)
    ensures Popped(q).Some? && Popped(q).value.0 == held[0]
    ensures InMode(Popped(q).value.1, Cut(room, last), held[1..])
  {
    WholePops(q, room, last, order);
    var n, r := q.count, Popped(q).value.1;
    var ring, tail := order[1..last + 1], [order[0]] + order[n..];
    assert Places(ring, |r.slots|) && Places(tail, |r.slots|);
    CutRing(q, room, last, order, held);
    forall i | 0 <= i < |tail|
      ensures TailAt(r, tail, i)
    {
      CutTailAt(q, room, last, order, i);
    }
    CutKeepsCurrent(q, room, last, order);
    CutEnds(q, room, last, order);
    UnlinkedAt(q, q.first, order[1]);
    assert CutOk(r, room, ring, tail) && |ring| == last && Holds(r, ring, last, held[1..]);
  }

  lemma CutRing<T>(q: Queue<T>, room: Option<nat>, last: int, order: seq<int>, held: seq<T>)
    requires WholeOk(q, room, last, order) && 1 <= last < q.count - 1 && |held| == q.count
    requires Holds(q, order, q.count, held) && Places(order[1..last + 1], |q.slots|)
    requires Popped(q).Some?
    requires Popped(q).value.1 == q.(slots := Unlinked(q, q.first), first := order[1], count := q.count - 1)
    requires |Unlinked(q, q.first)| == |q.slots|
    ensures var r, ring := Popped(q).value.1, order[1..last + 1];
            (forall i :: 0 <= i < last ==> RingAt(r, ring, i)) && Holds(r, ring, last, held[1..])
  {
    var r, ring := Popped(q).value.1, order[1..last + 1];
    assert At(q, order, 0);
    forall i | 0 <= i < last
      ensures RingAt(r, ring, i) && held[1..][i] == r.slots[ring[i]].entry
    {
      assert At(q, order, i + 1);
      UnlinkedAt(q, q.first, order[i + 1]);
    }
  }

  lemma CutTailAt<T>(q: Queue<T>, room: Option<nat>, last: int, order: seq<int>, i: nat)
    requires WholeOk(q, room, last, order) && 1 <= last < q.count - 1
    requires i < |[order[0]] + order[q.count..]|
    requires Popped(q).Some?
    requires Popped(q).value.1 == q.(slots := Unlinked(q, q.first), first := order[1], count := q.count - 1)
    requires |Unlinked(q, q.first)| == |q.slots|
    requires Places([order[0]] + order[q.count..], |q.slots|)
    ensures TailAt(Popped(q).value.1, [order[0]] + order[q.count..], i)
  {
    var n := q.count;
    assert At(q, order, 0) && At(q, order, n - 1);
    if i == 0 {
      UnlinkedAt(q, q.first, order[0]);
    } else {
      assert At(q, order, n + i - 1);
      UnlinkedAt(q, q.first, order[n + i - 1]);
    }
  }

  lemma CutKeepsCurrent<T>(q: Queue<T>, room: Option<nat>, last: int, order: seq<int>)
    requires WholeOk(q, room, last, order) && 1 <= last < q.count - 1
    requires Popped(q).Some?
    requires Popped(q).value.1 == q.(slots := Unlinked(q, q.first), first := order[1], count := q.count - 1)
    requires |Unlinked(q, q.first)| == |q.slots|
    ensures q.current !in order[1..last + 1]
    ensures Unlinked(q, q.first)[q.current].active && Unlinked(q, q.first)[q.current].next == order[0]
  {
    assert At(q, order, q.count - 1) && At(q, order, 0);
    UnlinkedAt(q, q.first, q.current);
  }

  lemma CutEnds<T>(q: Queue<T>, room: Option<nat>, last: int, order: seq<int>)
    requires WholeOk(q, room, last, order) && 1 <= last < q.count - 1
    requires Popped(q).Some?
    requires Popped(q).value.1 == q.(slots := Unlinked(q, q.first), first := order[1], count := q.count - 1)
    requires |Unlinked(q, q.first)| == |q.slots|
    ensures var r := Popped(q).value.1; var tail := [order[0]] + order[q.count..];
            && |tail| == |order| - q.count + 1
            && var next := r.slots[tail[|tail| - 1]].next;
               if room.None? then next == -1
               else r.Has(next) && (r.slots[next].active || next in tail)
  {
    var n := q.count;
    var tail := [order[0]] + order[n..];
    assert At(q, order, 0) && At(q, order, n - 1) && At(q, order, |order| - 1);
    UnlinkedAt(q, q.first, tail[|tail| - 1]);
    if room.Some? {
      var next := q.slots[order[|order| - 1]].next;
      var j :| 0 <= j < |order| && order[j] == next;
      assert At(q, order, j);
      UnlinkedAt(q, q.first, next);
      if j == 0 {
        assert tail[0] == next;
      } else if j >= n {
        assert tail[j - n + 1] == next;
      }
    }
  }

  // ---------- pops of a cut list ----------

  lemma CutPops<T>(q: Queue<T>, room: Option<nat>, ring: seq<int>, tail: seq<int>, held: seq<T>)
    requires CutOk(q, room, ring, tail) && |ring| >= 2 && |held| == q.count && Holds(q, ring, |ring|, held)
    ensures Popped(q).Some? && Popped(q).value.0 == held[0]
    ensures InMode(Popped(q).value.1, Cut(room, |ring| - 1), held[1..])
  {
    assert RingAt(q, ring, 0) && RingAt(q, ring, 1);
    PopMovesOn(q, ring[1]);
    var r, shorter, longer := Popped(q).value.1, ring[1..], [ring[0]] + tail;
    UnlinkedAt(q, q.first, ring[0]);
    UnlinkedAt(q, q.first, ring[1]);
    UnlinkedAt(q, q.first, q.current);
    CutPopPlaces(q, room, ring, tail);
    forall i | 0 <= i < |shorter|
      ensures RingAt(r, shorter, i) && held[1..][i] == r.slots[shorter[i]].entry
    {
      assert RingAt(q, ring, i + 1);
      UnlinkedAt(q, q.first, ring[i + 1]);
    }
    forall i | 0 <= i < |longer|
      ensures TailAt(r, longer, i)
    {
      CutPopTail(q, room, ring, tail, i);
    }
    CutPopEnds(q, room, ring, tail);
    assert CutOk(r, room, shorter, longer) && Holds(r, shorter, |shorter|, held[1..]);
  }

  lemma CutPopPlaces<T>(q: Queue<T>, room: Option<nat>, ring: seq<int>, tail: seq<int>)
    requires CutOk(q, room, ring, tail) && |ring| >= 2
    ensures Places(ring[1..], |q.slots|) && Places([ring[0]] + tail, |q.slots|) && q.current !in ring[1..]
  {
    assert RingAt(q, ring, 0);
    forall i | 0 <= i < |tail|
      ensures tail[i] != ring[0]
    {
      assert TailAt(q, tail, i);
    }
  }

  lemma CutPopTail<T>(q: Queue<T>, room: Option<nat>, ring: seq<int>, tail: seq<int>, i: nat)
    requires CutOk(q, room, ring, tail) && |ring| >= 2 && i <= |tail| && q.slots[q.first].next == ring[1]
    requires |Unlinked(q, q.first)| == |q.slots| && Places([ring[0]] + tail, |q.slots|)
    ensures TailAt(q.(slots := Unlinked(q, q.first), first := ring[1], count := q.count - 1), [ring[0]] + tail, i)
  {
    assert RingAt(q, ring, 0) && RingAt(q, ring, |ring| - 1);
    if i == 0 {
      UnlinkedAt(q, q.first, ring[0]);
    } else {
      assert TailAt(q, tail, i - 1);
      UnlinkedAt(q, q.first, tail[i - 1]);
    }
  }

  lemma CutPopEnds<T>(q: Queue<T>, room: Option<nat>, ring: seq<int>, tail: seq<int>)
    requires CutOk(q, room, ring, tail) && |ring| >= 2 && q.slots[q.first].next == ring[1]
    requires |Unlinked(q, q.first)| == |q.slots|
    ensures var r := q.(slots := Unlinked(q, q.first), first := ring[1], count := q.count - 1);
            var longer := [ring[0]] + tail;
            var next := r.slots[End(r, longer)].next;
            if room.None? then next == -1
            else |longer| == room.value - r.count && r.Has(next) && (r.slots[next].active || next in longer)
  {
    var longer, next := [ring[0]] + tail, q.slots[End(q, tail)].next;
    assert RingAt(q, ring, 0) && RingAt(q, ring, |ring| - 1);
    if tail == [] {
      UnlinkedAt(q, q.first, ring[0]);
    } else {
      assert TailAt(q, tail, |tail| - 1);
      UnlinkedAt(q, q.first, tail[|tail| - 1]);
    }
    if room.Some? {
      UnlinkedAt(q, q.first, next);
      assert longer[0] == ring[0] && longer[1..] == tail;
    }
  }

  /** The last reachable entry names itself as its successor. */
  lemma CutFails<T>(q: Queue<T>, room: Option<nat>, ring: seq<int>, tail: seq<int>)
    requires CutOk(q, room, ring, tail) && |ring| == 1
    ensures Popped(q) == None
  {
    assert RingAt(q, ring, 0);
    PopMovesOn(q, q.first);
  }

  // ---------- pushes ----------

  /** With a free slot behind the current one. */
  lemma WholeFits<T>(q: Queue<T>, room: Option<nat>, last: int, order: seq<int>, held: seq<T>, x: T)
    requires WholeOk(q, room, last, order) && q.count < |order| && last >= 0 && |held| == q.count
    requires Holds(q, order, q.count, held)
    ensures Pushed(q, x).Some? && InMode(Pushed(q, x).value, Whole(room, last), held + [x])
  {
    assert At(q, order, q.count) && At(q, order, 0);
    if q.count > 0 {
      assert At(q, order, q.count - 1);
    }
    var r := Activated(q.(current := order[q.count]), x);
    assert Pushed(q, x) == Some(r);
    forall i | 0 <= i < |order|
      ensures At(r, order, i)
    {
      assert At(q, order, i);
    }
    assert WholeOk(r, room, last, order) && Holds(r, order, r.count, held + [x]);
  }

  /** A ring without a free slot. */
  lemma WholeIsFull<T>(q: Queue<T>, room: Option<nat>, last: int, order: seq<int>, x: T)
    requires WholeOk(q, room, last, order) && q.count == |order| && room.Some?
    ensures Pushed(q, x) == None
  {
    assert At(q, order, q.count - 1);
    var j :| 0 <= j < |order| && order[j] == q.slots[order[|order| - 1]].next;
    assert At(q, order, j);
  }

  function NewSlots(start: nat, size: nat): (r: seq<int>)
    requires start <= size
    ensures |r| == size - start && forall i :: 0 <= i < |r| ==> r[i] == start + i
  {
    seq(size - start, k => start + k)
  }

  /** A full list that ends nowhere is grown first. */
  lemma WholeGrows<T>(q: Queue<T>, last: int, order: seq<int>, held: seq<T>, x: T)
    requires WholeOk(q, None, last, order) && q.count == |order| && last >= 0 && |held| == q.count
    requires Holds(q, order, q.count, held)
    ensures var g := Resized(q, 2 * |q.slots|); var longer := order + NewSlots(|q.slots|, 2 * |q.slots|);
            && WholeOk(g, None, last, longer) && Holds(g, longer, g.count, held) && g.count < |longer|
            && g.count == q.count && Pushed(q, x) == Pushed(g, x)
  {
    var n, size := |q.slots|, 2 * |q.slots|;
    assert At(q, order, q.count - 1);
    ResizedSlots(q, size);
    var g, longer := Resized(q, size), order + NewSlots(n, size);
    assert Places(longer, size);
    forall i | 0 <= i < |longer|
      ensures At(g, longer, i)
    {
      if i < |order| {
        assert At(q, order, i);
      }
    }
    GrownFirst(q, order);
    assert longer[|longer| - 1] == size - 1;
  }

  lemma GrownFirst<T>(q: Queue<T>, order: seq<int>)
    requires |order| > 0 && Places(order, |q.slots|) && q.Has(q.current) && q.slots[q.current].next == -1
    ensures var g := Resized(q, 2 * |q.slots|);
            order[0] < |g.slots| && g.slots[order[0]].last == q.slots[order[0]].last
  {
  }

  lemma CutFits<T>(q: Queue<T>, room: Option<nat>, ring: seq<int>, tail: seq<int>, held: seq<T>, x: T)
    requires CutOk(q, room, ring, tail) && tail != [] && |held| == q.count && Holds(q, ring, |ring|, held)
    ensures Pushed(q, x).Some? && InMode(Pushed(q, x).value, Cut(room, |ring|), held + [x])
  {
    assert TailAt(q, tail, 0);
    var r, shorter := Activated(q.(current := tail[0]), x), tail[1..];
    assert Pushed(q, x) == Some(r);
    CutFitsRing(q, room, ring, tail, x);
    forall i | 0 <= i < |ring|
      ensures (held + [x])[i] == r.slots[ring[i]].entry
    {
      assert ring[i] != tail[0];
    }
    CutFitsTail(q, room, ring, tail, x);
    assert CutOk(r, room, ring, shorter) && Holds(r, ring, |ring|, held + [x]);
  }

  lemma CutFitsRing<T>(q: Queue<T>, room: Option<nat>, ring: seq<int>, tail: seq<int>, x: T)
    requires CutOk(q, room, ring, tail) && tail != []
    ensures var r := Activated(q.(current := tail[0]), x);
            forall i :: 0 <= i < |ring| ==> RingAt(r, ring, i) && ring[i] != tail[0]
  {
    var r := Activated(q.(current := tail[0]), x);
    assert TailAt(q, tail, 0);
    forall i | 0 <= i < |ring|
      ensures RingAt(r, ring, i) && ring[i] != tail[0]
    {
      assert RingAt(q, ring, i);
    }
  }

  lemma CutFitsTail<T>(q: Queue<T>, room: Option<nat>, ring: seq<int>, tail: seq<int>, x: T)
    requires CutOk(q, room, ring, tail) && tail != []
    ensures var r, shorter := Activated(q.(current := tail[0]), x), tail[1..];
            && Places(shorter, |r.slots|) && (forall i :: 0 <= i < |shorter| ==> TailAt(r, shorter, i))
            && (shorter != [] ==> r.slots[r.current].next == shorter[0])
            && var next := r.slots[End(r, shorter)].next;
               if room.None? then next == -1
               else |shorter| == room.value - r.count && r.Has(next) && (r.slots[next].active || next in shorter)
  {
    var r, shorter := Activated(q.(current := tail[0]), x), tail[1..];
    assert TailAt(q, tail, 0);
    forall i | 0 <= i < |shorter|
      ensures TailAt(r, shorter, i)
    {
      assert TailAt(q, tail, i + 1);
    }
    assert r.slots[End(r, shorter)].next == q.slots[End(q, tail)].next;
    assert tail == [tail[0]] + shorter;
  }

  lemma CutIsFull<T>(q: Queue<T>, room: Option<nat>, ring: seq<int>, tail: seq<int>, x: T)
    requires CutOk(q, room, ring, tail) && tail == [] && room.Some?
    ensures Pushed(q, x) == None
  {
  }

  lemma CutGrows<T>(q: Queue<T>, ring: seq<int>, held: seq<T>, x: T)
    requires CutOk(q, None, ring, []) && |held| == q.count && Holds(q, ring, |ring|, held)
    ensures var g := Resized(q, 2 * |q.slots|); var tail := NewSlots(|q.slots|, 2 * |q.slots|);
            && CutOk(g, None, ring, tail) && tail != [] && Holds(g, ring, |ring|, held)
            && g.count == q.count && Pushed(q, x) == Pushed(g, x)
  {
    var size := 2 * |q.slots|;
    ResizedSlots(q, size);
    var g, tail := Resized(q, size), NewSlots(|q.slots|, size);
    GrownFirst(q, ring);
    forall i | 0 <= i < |ring|
      ensures RingAt(g, ring, i)
    {
      assert RingAt(q, ring, i);
    }
    forall i | 0 <= i < |tail|
      ensures TailAt(g, tail, i)
    {
    }
  }

  // ---------- every step follows the mode ----------

  lemma CleanIsWhole<T>(q: Queue<T>, held: seq<T>) returns (order: seq<int>)
    requires InMode(q, CLEAN, held) && q.slots != []
    ensures WholeOk(q, None, -1, order) && Holds(q, order, q.count, held)
  {
    order :| Linked(q, order);
    ContentsFollowOrder(q, order);
    forall i | 0 <= i < |order|
      ensures At(q, order, i)
    {
      assert SlotOk(q, order, i);
    }
    assert SlotOk(q, order, |order| - 1);
  }

  lemma WholePushFollowsMode<T>(q: Queue<T>, room: Option<nat>, last: int, order: seq<int>, held: seq<T>, x: T)
    requires WholeOk(q, room, last, order) && last >= 0 && |held| == q.count && Holds(q, order, q.count, held)
    ensures Pushed(q, x).Some? <==> AfterPush(Whole(room, last), |held|).Some?
    ensures Pushed(q, x).Some? ==> InMode(Pushed(q, x).value, Whole(room, last), held + [x])
  {
    if q.count < |order| {
      WholeFits(q, room, last, order, held, x);
    } else if room.Some? {
      WholeIsFull(q, room, last, order, x);
    } else {
      WholeGrows(q, last, order, held, x);
      WholeFits(Resized(q, 2 * |q.slots|), None, last, order + NewSlots(|q.slots|, 2 * |q.slots|), held, x);
    }
  }

  lemma CutPushFollowsMode<T>(q: Queue<T>, room: Option<nat>, ring: seq<int>, tail: seq<int>, held: seq<T>, x: T)
    requires CutOk(q, room, ring, tail) && |held| == q.count && Holds(q, ring, |ring|, held)
    ensures Pushed(q, x).Some? <==> AfterPush(Cut(room, |ring|), |held|).Some?
    ensures Pushed(q, x).Some? ==> InMode(Pushed(q, x).value, Cut(room, |ring|), held + [x])
  {
    if tail != [] {
      CutFits(q, room, ring, tail, held, x);
    } else if room.Some? {
      CutIsFull(q, room, ring, tail, x);
    } else {
      CutGrows(q, ring, held, x);
      CutFits(Resized(q, 2 * |q.slots|), None, ring, NewSlots(|q.slots|, 2 * |q.slots|), held, x);
    }
  }

  lemma PushFollowsMode<T>(q: Queue<T>, mode: Mode, held: seq<T>, x: T)
    requires InMode(q, mode, held)
    ensures Pushed(q, x).Some? <==> AfterPush(mode, |held|).Some?
    ensures Pushed(q, x).Some? ==> InMode(Pushed(q, x).value, mode, held + [x])
  {
    if mode == CLEAN {
      PushAppends(q, x);
    } else if mode.Whole? {
      var order :| WholeOk(q, mode.room, mode.last, order) && Holds(q, order, q.count, held);
      WholePushFollowsMode(q, mode.room, mode.last, order, held, x);
    } else {
      var ring, tail :| CutOk(q, mode.room, ring, tail) && |ring| == mode.visible && Holds(q, ring, mode.visible, held);
      CutPushFollowsMode(q, mode.room, ring, tail, held, x);
    }
  }

  lemma WholePopFollowsMode<T>(q: Queue<T>, room: Option<nat>, last: int, held: seq<T>)
    requires InMode(q, Whole(room, last), held) && held != [] && last >= 0
    ensures Popped(q).Some? && Popped(q).value.0 == held[0]
    ensures InMode(Popped(q).value.1, AfterPop(Whole(room, last), |held|).value, held[1..])
  {
    var n, next := |held|, AfterPop(Whole(room, last), |held|).value;
    var order :| WholeOk(q, room, last, order) && Holds(q, order, q.count, held);
    if n == 1 {
      WholeEmpties(q, room, last, order, if last >= 1 then last + 1 else |order|, held);
      assert held[1..] == [];
    } else if 1 <= last < n - 1 {
      WholeIsCut(q, room, last, order, held);
    } else {
      var m := if last == 0 then |order| else if last == n - 1 then n else last + 1;
      WholeTurns(q, room, last, order, m, next, held);
    }
  }

  lemma PopFollowsMode<T>(q: Queue<T>, mode: Mode, held: seq<T>)
    requires InMode(q, mode, held) && held != []
    ensures Popped(q).Some? <==> AfterPop(mode, |held|).Some?
    ensures Popped(q).Some? ==>
              && Popped(q).value.0 == held[0]
              && InMode(Popped(q).value.1, AfterPop(mode, |held|).value, held[1..])
  {
    if mode == CLEAN && |held| >= 2 {
      PopTakesOldest(q);
      var (x, r) := Popped(q).value;
      assert ([x] + Contents(r))[1..] == Contents(r);
    } else if mode == CLEAN {
      var order := CleanIsWhole(q, held);
      WholeEmpties(q, None, -1, order, |order|, held);
      assert held[1..] == [];
    } else if mode.Whole? {
      WholePopFollowsMode(q, mode.room, mode.last, held);
    } else {
      var ring, tail :| CutOk(q, mode.room, ring, tail) && |ring| == mode.visible && Holds(q, ring, mode.visible, held);
      if |ring| == 1 {
        CutFails(q, mode.room, ring, tail);
      } else {
        CutPops(q, mode.room, ring, tail, held);
      }
    }
  }

  /** The run survives exactly when no assert fails on it, and then gives what a plain queue gives. */
  ghost predicate Settled<T>(q: Queue<T>, mode: Mode, held: seq<T>, ops: seq<Op<T>>)
    requires NoUnderflow(|held|, ops)
  {
    && (Run(q, ops).Some? <==> Survives(mode, |held|, ops))
    && (Run(q, ops).Some? ==> Run(q, ops).value.0 == RunPlain(held, ops).0)
  }

  lemma PushSettles<T>(q: Queue<T>, mode: Mode, held: seq<T>, ops: seq<Op<T>>)
    requires ops != [] && ops[0].Push? && NoUnderflow(|held|, ops) && NoUnderflow(|held| + 1, ops[1..])
    requires Pushed(q, ops[0].entry).Some? <==> AfterPush(mode, |held|).Some?
    requires Pushed(q, ops[0].entry).Some? ==>
               Settled(Pushed(q, ops[0].entry).value, AfterPush(mode, |held|).value, held + [ops[0].entry], ops[1..])
    ensures Settled(q, mode, held, ops)
  {
    var x := ops[0].entry;
    if Pushed(q, x).Some? && Run(Pushed(q, x).value, ops[1..]).Some? {
      RunStarts(q, ops, [], Pushed(q, x).value);
      PlainStarts(held, ops, [], held + [x]);
    }
  }

  lemma PopSettles<T>(q: Queue<T>, mode: Mode, held: seq<T>, ops: seq<Op<T>>)
    requires held != [] && ops != [] && ops[0].Pop? && NoUnderflow(|held|, ops) && NoUnderflow(|held| - 1, ops[1..])
    requires Popped(q).Some? <==> AfterPop(mode, |held|).Some?
    requires Popped(q).Some? ==>
               && Popped(q).value.0 == held[0]
               && Settled(Popped(q).value.1, AfterPop(mode, |held|).value, held[1..], ops[1..])
    ensures Settled(q, mode, held, ops)
  {
    if Popped(q).Some? && Run(Popped(q).value.1, ops[1..]).Some? {
      RunStarts(q, ops, [held[0]], Popped(q).value.1);
      assert [held[0]] + held[1..] == held;
      PlainStarts(held, ops, [held[0]], held[1..]);
    }
  }

  lemma {:induction false} ExactlyTheSurvivors<T>(q: Queue<T>, mode: Mode, held: seq<T>, ops: seq<Op<T>>)
    requires InMode(q, mode, held) && NoUnderflow(|held|, ops)
    ensures Settled(q, mode, held, ops)
    decreases |ops|
  {
    if ops == [] {
    } else if ops[0].Push? {
      var x := ops[0].entry;
      PushFollowsMode(q, mode, held, x);
      if Pushed(q, x).Some? {
        ExactlyTheSurvivors(Pushed(q, x).value, mode, held + [x], ops[1..]);
      }
      PushSettles(q, mode, held, ops);
    } else {
      PopFollowsMode(q, mode, held);
      if Popped(q).Some? {
        ExactlyTheSurvivors(Popped(q).value.1, AfterPop(mode, |held|).value, held[1..], ops[1..]);
      }
      PopSettles(q, mode, held, ops);
    }
  }

  /** From the constructor on, for every initial size: a run is first-in-first-out, and trips no assert, if and only if
      it survives. */
  lemma FifoIffSurvives<T>(blank: T, size: nat, ops: seq<Op<T>>)
    requires NoUnderflow(0, ops)
    ensures Run(Created(blank, size), ops).Some? <==> Survives(CLEAN, 0, ops)
    ensures Run(Created(blank, size), ops).Some? ==> Run(Created(blank, size), ops).value.0 == RunPlain([], ops).0
  {
    CreatedIsWellLinked(blank, size);
    ExactlyTheSurvivors(Created(blank, size), CLEAN, [], ops);
  }

  /** Runs that empty the queue at most with their last operation survive; they are not the only ones. */
  lemma {:induction false} FilledRunsSurvive<T>(n: nat, ops: seq<Op<T>>)
    requires StaysFilled(n, ops)
    ensures NoUnderflow(n, ops) && Survives(CLEAN, n, ops)
    decreases |ops|
  {
    if ops == [] {
    } else if ops[0].Push? {
      FilledRunsSurvive(n + 1, ops[1..]);
    } else if |ops| == 1 {
      assert ops[1..] == [];
    } else {
      FilledRunsSurvive(n - 1, ops[1..]);
    }
  }
}
