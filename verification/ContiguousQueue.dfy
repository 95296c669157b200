/** ContiguousQueue: a FIFO queue kept as a linked list inside one growable vector, occupied slots first. */
module ContiguousQueues {
  import opened Integers
  import opened RelayTypes

  const INITIAL_QUEUE_SIZE := 10

  datatype Slot<T> = Slot(last: int, next: int, active: bool, entry: T)

  /** `blank` is a default-constructed entry. */
  datatype Queue<T> = Queue(blank: T, slots: seq<Slot<T>>, first: int, current: int, count: int) {
    predicate Has(i: int) {
      0 <= i < |slots|
    }
  }

  function FreshSlot<T>(blank: T, i: nat, start: nat, size: nat): Slot<T> {
    Slot(if i == start then -1 else i - 1, if i == size - 1 then -1 else i + 1, false, blank)
  }

  function FreshSlots<T>(blank: T, start: nat, size: nat): (r: seq<Slot<T>>)
    requires start <= size
    ensures |r| == size - start
    ensures forall i :: 0 <= i < |r| ==> r[i] == FreshSlot(blank, start + i, start, size)
  {
    seq(size - start, k requires 0 <= k => FreshSlot(blank, start + k, start, size))
  }

  /** resize. It declines to grow while the current slot has a successor. */
  function Resized<T>(q: Queue<T>, size: nat): Queue<T> {
    var start := |q.slots|;
    if size <= start || (start > 0 && (!q.Has(q.current) || q.slots[q.current].next != -1)) then q
    else
      var grown := q.slots + FreshSlots(q.blank, start, size);
      if start == 0 then q.(slots := grown)
      else
        var linked := grown[q.current := grown[q.current].(next := start)];
        q.(slots := linked[start := linked[start].(last := q.current)])
  }

  function Created<T>(blank: T, size: nat): Queue<T> {
    Resized(Queue(blank, [], 0, 0, 0), size)
  }

  /** Marks the current slot as occupied. */
  function Activated<T>(q: Queue<T>, x: T): Queue<T>
    requires q.Has(q.current)
  {
    q.(slots := q.slots[q.current := q.slots[q.current].(active := true, entry := x)], count := q.count + 1)
  }

  /** push; None where an assert of the source fails or an index leaves the vector. */
  function Pushed<T>(q: Queue<T>, x: T): Option<Queue<T>> {
    var r := if q.slots == [] then Resized(q, INITIAL_QUEUE_SIZE) else q;
    if !r.Has(r.current) then None
    else if !r.slots[r.current].active then Some(Activated(r, x))
    else
      var g := if r.slots[r.current].next == -1 then Resized(r, 2 * |r.slots|) else r;
      var next := g.slots[g.current].next;
      if !g.Has(next) || g.slots[next].active then None
      else Some(Activated(g.(current := next), x))
  }

  /** The vector after lines 73-86 of remove. */
  function Unlinked<T>(q: Queue<T>, index: int): seq<Slot<T>>
    requires q.Has(index) && q.Has(q.current)
    requires q.slots[index].last < |q.slots| && q.slots[index].next < |q.slots|
  {
    var last, next := q.slots[index].last, q.slots[index].next;
    var s1 := if last >= 0 then q.slots[last := q.slots[last].(next := next)] else q.slots;
    var s2 := if next >= 0 then s1[next := s1[next].(last := last)] else s1;
    var oldNext := s2[q.current].next;
    var s3 := s2[q.current := s2[q.current].(next := index)];
    s3[index := s3[index].(last := q.current, next := oldNext, active := false)]
  }

  /** remove, exactly as written: the slot after the removed one keeps its old `last`. */
  function Removed<T>(q: Queue<T>, index: int): Option<Queue<T>> {
    if !q.Has(index) || !q.Has(q.current) then None
    else if q.slots[index].last >= |q.slots| || q.slots[index].next >= |q.slots| then None
    else
      var next := q.slots[index].next;
      var r := q.(slots := Unlinked(q, index), count := q.count - 1);
      if index != q.first then Some(r)
      else if r.count <= 0 then Some(r.(first := q.current))
      else if !r.Has(next) || !r.slots[next].active then None
      else Some(r.(first := next))
  }

  /** pop: the entry and the queue left. */
  function Popped<T>(q: Queue<T>): Option<(T, Queue<T>)> {
    if !q.Has(q.first) then None
    else
      match Removed(q, q.first)
      case None => None
      case Some(r) => Some((q.slots[q.first].entry, r))
  }

  // ----- What the layout means -----

  /** The slots met by following up to k `next` links. */
  function Chain<T>(q: Queue<T>, at: int, k: nat): (r: seq<int>)
    ensures forall i :: 0 <= i < |r| ==> 0 <= r[i] < |q.slots|
    decreases k
  {
    if k == 0 || !q.Has(at) then [] else [at] + Chain(q, q.slots[at].next, k - 1)
  }

  function EntriesAt<T>(q: Queue<T>, indices: seq<int>): (r: seq<T>)
    requires forall i :: 0 <= i < |indices| ==> 0 <= indices[i] < |q.slots|
    ensures |r| == |indices| && forall i :: 0 <= i < |r| ==> r[i] == q.slots[indices[i]].entry
  {
    seq(|indices|, i requires 0 <= i < |indices| => q.slots[indices[i]].entry)
  }

  /** The queued entries, oldest first, read off along the links. */
  function Contents<T>(q: Queue<T>): seq<T>
    requires q.count >= 0
  {
    EntriesAt(q, Chain(q, q.first, q.count))
  }

  predicate Permutes(order: seq<int>, n: nat) {
    && |order| == n
    && (forall i :: 0 <= i < n ==> 0 <= order[i] < n)
    && (forall i, j :: 0 <= i < j < n ==> order[i] != order[j])
  }

  /** Position i of the list: its link leads to the next position, and it is occupied exactly when i < count. */
  predicate SlotOk<T>(q: Queue<T>, order: seq<int>, i: nat)
    requires i < |order| && Permutes(order, |q.slots|)
  {
    && q.slots[order[i]].next == (if i + 1 < |order| then order[i + 1] else -1)
    && q.slots[order[i]].active == (i < q.count)
  }

  /** `order` lists the slots from the first one along the `next` links, the occupied ones before the free ones. */
  predicate Linked<T>(q: Queue<T>, order: seq<int>) {
    && Permutes(order, |q.slots|)
    && 0 <= q.count <= |q.slots|
    && (forall i :: 0 <= i < |order| ==> SlotOk(q, order, i))
    && (if q.slots == [] then q.first == 0 && q.current == 0
        else
          && q.first == order[0]
          && q.current == order[if q.count == 0 then 0 else q.count - 1]
          && q.slots[q.first].last == -1)
  }

  ghost predicate WellLinked<T>(q: Queue<T>) {
    exists order :: Linked(q, order)
  }

  lemma {:induction false} ChainFollowsOrder<T>(q: Queue<T>, order: seq<int>, i: nat, k: nat)
    requires Linked(q, order) && i + k <= |order| && i < |order|
    ensures Chain(q, order[i], k) == order[i..i + k]
    decreases k
  {
    if k == 0 {
    } else {
      assert SlotOk(q, order, i);
      if k > 1 {
        ChainFollowsOrder(q, order, i + 1, k - 1);
      }
    }
  }

  lemma ContentsFollowOrder<T>(q: Queue<T>, order: seq<int>)
    requires Linked(q, order)
    ensures |Contents(q)| == q.count
    ensures forall i :: 0 <= i < q.count ==> Contents(q)[i] == q.slots[order[i]].entry
  {
    if q.slots != [] {
      ChainFollowsOrder(q, order, 0, q.count);
    }
  }

  function Below(n: nat): (r: set<int>)
    ensures |r| == n && forall i :: i in r <==> 0 <= i < n
  {
    if n == 0 then {} else Below(n - 1) + {n - 1}
  }

  function Seen(order: seq<int>, k: nat): (r: set<int>)
    requires k <= |order| && forall i, j :: 0 <= i < j < |order| ==> order[i] != order[j]
    ensures |r| == k && forall x :: x in r <==> x in order[..k]
  {
    if k == 0 then {}
    else
      assert order[..k] == order[..k - 1] + [order[k - 1]];
      Seen(order, k - 1) + {order[k - 1]}
  }

  lemma SameSizeSubset(a: set<int>, b: set<int>)
    requires a <= b && |a| == |b|
    ensures a == b
  {
    assert |b - a| == |b| - |a|;
    assert b == a + (b - a);
  }

  /** A permutation reaches every slot. */
  lemma PermutationIsOnto(order: seq<int>, n: nat, slot: int)
    requires Permutes(order, n) && 0 <= slot < n
    ensures slot in order
  {
    var seen := Seen(order, n);
    assert order[..n] == order;
    forall x | x in seen
      ensures x in Below(n)
    {
      var i :| 0 <= i < n && order[i] == x;
    }
    SameSizeSubset(seen, Below(n));
  }

  /** From the first slot the links visit every slot exactly once, the occupied ones being those up to the current. */
  lemma LinksVisitEverySlotOnce<T>(q: Queue<T>)
    requires WellLinked(q)
    ensures var visited := Chain(q, q.first, |q.slots|);
            && Permutes(visited, |q.slots|)
            && (forall slot :: 0 <= slot < |q.slots| ==> slot in visited)
            && (forall i :: 0 <= i < |visited| ==> (q.slots[visited[i]].active <==> i < q.count))
            && (q.count > 0 ==> q.current == visited[q.count - 1])
  {
    var order :| Linked(q, order);
    if q.slots != [] {
      ChainFollowsOrder(q, order, 0, |q.slots|);
      var visited := Chain(q, q.first, |q.slots|);
      assert visited == order;
      forall slot | 0 <= slot < |q.slots|
        ensures slot in visited
      {
        PermutationIsOnto(order, |q.slots|, slot);
      }
      forall i | 0 <= i < |visited|
        ensures q.slots[visited[i]].active <==> i < q.count
      {
        assert SlotOk(q, order, i);
      }
    }
  }

  // ----- Growing -----

  function Extended(order: seq<int>, size: nat): (r: seq<int>)
    requires |order| <= size
    ensures |r| == size
    ensures forall i :: 0 <= i < size ==> r[i] == if i < |order| then order[i] else i
  {
    order + seq(size - |order|, k => |order| + k)
  }

  lemma ExtendedPermutes(order: seq<int>, size: nat)
    requires |order| <= size && Permutes(order, |order|)
    ensures Permutes(Extended(order, size), size)
  {
  }

  /** Growing at the end of the list changes one link and adds a chain of free slots. */
  lemma ResizedSlots<T>(q: Queue<T>, size: nat)
    requires |q.slots| < size
    requires q.slots != [] ==> q.Has(q.current) && q.slots[q.current].next == -1
    ensures var r := Resized(q, size);
            && r == q.(slots := r.slots) && |r.slots| == size
            && (forall k :: 0 <= k < |q.slots| ==>
                 r.slots[k] == if k == q.current then q.slots[k].(next := |q.slots|) else q.slots[k])
            && (forall k :: |q.slots| <= k < size ==>
                 !r.slots[k].active && r.slots[k].next == if k == size - 1 then -1 else k + 1)
            && (q.slots == [] ==> r.slots[0].last == -1)
  {
  }

  /** Growing a full or an empty vector keeps the list and adds free slots at its end. */
  lemma ResizeKeepsLinks<T>(q: Queue<T>, order: seq<int>, size: nat)
    requires Linked(q, order) && q.count == |q.slots| < size
    ensures Linked(Resized(q, size), Extended(order, size))
    ensures Resized(q, size).count == q.count && |Resized(q, size).slots| == size && Resized(q, size).blank == q.blank
    ensures Contents(Resized(q, size)) == Contents(q)
  {
    var r, all, n := Resized(q, size), Extended(order, size), |q.slots|;
    if n > 0 {
      assert SlotOk(q, order, n - 1);
    }
    ResizedSlots(q, size);
    ExtendedPermutes(order, size);
    forall i | 0 <= i < size
      ensures SlotOk(r, all, i)
    {
      ResizedPosition(q, order, size, i);
    }
    ContentsFollowOrder(q, order);
    ContentsFollowOrder(r, all);
  }

  lemma ResizedPosition<T>(q: Queue<T>, order: seq<int>, size: nat, i: nat)
    requires Linked(q, order) && q.count == |q.slots| < size && i < size
    requires Permutes(Extended(order, size), size) && |Resized(q, size).slots| == size
    ensures SlotOk(Resized(q, size), Extended(order, size), i)
  {
    var n := |q.slots|;
    if n > 0 {
      assert SlotOk(q, order, n - 1);
    }
    ResizedSlots(q, size);
    if i < n {
      assert SlotOk(q, order, i);
    }
  }

  lemma ActivateKeepsLinks<T>(q: Queue<T>, order: seq<int>, x: T)
    requires Linked(q, order) && q.count < |q.slots|
    ensures Linked(Activated(q.(current := order[q.count]), x), order)
    ensures Contents(Activated(q.(current := order[q.count]), x)) == Contents(q) + [x]
  {
    var r := Activated(q.(current := order[q.count]), x);
    forall i | 0 <= i < |order|
      ensures SlotOk(r, order, i)
    {
      assert SlotOk(q, order, i);
    }
    ContentsFollowOrder(q, order);
    ContentsFollowOrder(r, order);
  }

  // ----- push and pop on a well-linked queue -----

  /** With a free slot, push takes the position after the current one. */
  lemma PushTakesNextPosition<T>(q: Queue<T>, order: seq<int>, x: T)
    requires Linked(q, order) && q.count < |q.slots|
    ensures Pushed(q, x) == Some(Activated(q.(current := order[q.count]), x))
  {
    assert SlotOk(q, order, q.count);
    if q.count > 0 {
      assert SlotOk(q, order, q.count - 1);
    }
  }

  /** A full vector is grown first. */
  lemma PushGrowsWhenFull<T>(q: Queue<T>, order: seq<int>, x: T)
    requires Linked(q, order) && q.count == |q.slots|
    ensures Pushed(q, x) == Pushed(Resized(q, if q.slots == [] then INITIAL_QUEUE_SIZE else 2 * |q.slots|), x)
  {
    if q.slots != [] {
      assert SlotOk(q, order, q.count - 1);
      ResizedSlots(q, 2 * |q.slots|);
    }
  }

  /** push never trips an assert, appends, and doubles the vector only when it is full. */
  lemma PushAppends<T>(q: Queue<T>, x: T)
    requires WellLinked(q)
    ensures Pushed(q, x).Some?
    ensures var r := Pushed(q, x).value;
            && WellLinked(r) && r.count == q.count + 1 && Contents(r) == Contents(q) + [x] && r.blank == q.blank
            && |r.slots| == if q.slots == [] then INITIAL_QUEUE_SIZE
                            else if q.count == |q.slots| then 2 * |q.slots| else |q.slots|
  {
    var order :| Linked(q, order);
    if q.count < |q.slots| {
      PushTakesNextPosition(q, order, x);
      ActivateKeepsLinks(q, order, x);
    } else {
      var size := if q.slots == [] then INITIAL_QUEUE_SIZE else 2 * |q.slots|;
      PushGrowsWhenFull(q, order, x);
      ResizeKeepsLinks(q, order, size);
      PushTakesNextPosition(Resized(q, size), Extended(order, size), x);
      ActivateKeepsLinks(Resized(q, size), Extended(order, size), x);
    }
  }

  /** The list after a pop: the first slot moves behind the last occupied one. */
  function Rotated(order: seq<int>, count: nat): (r: seq<int>)
    requires 1 <= count <= |order|
    ensures |r| == |order|
    ensures forall i :: 0 <= i < |r| ==> r[i] == order[if i < count - 1 then i + 1 else if i == count - 1 then 0 else i]
  {
    order[1..count] + [order[0]] + order[count..]
  }

  /** Removing the first slot a of at least two entries, with b next and c the last occupied slot: a goes behind c. */
  lemma UnlinkedSlots<T>(q: Queue<T>, a: int, b: int, c: int)
    requires q.Has(a) && q.Has(b) && q.Has(c) && a != b && a != c && q.current == c
    requires q.slots[a].last == -1 && q.slots[a].next == b && q.slots[c].next < |q.slots|
    ensures var s := Unlinked(q, a);
            && |s| == |q.slots|
            && (forall k :: 0 <= k < |s| ==>
                 && s[k].entry == q.slots[k].entry
                 && s[k].active == (k != a && q.slots[k].active)
                 && s[k].next == if k == a then q.slots[c].next else if k == c then a else q.slots[k].next)
            && s[b].last == -1
  {
  }

  lemma PopIsUnlink<T>(q: Queue<T>, order: seq<int>)
    requires Linked(q, order) && q.count >= 2
    ensures q.slots[q.first].last < |q.slots| && q.slots[q.first].next < |q.slots|
    ensures Popped(q) == Some((q.slots[order[0]].entry,
                               q.(slots := Unlinked(q, q.first), first := order[1], count := q.count - 1)))
  {
    assert SlotOk(q, order, 0) && SlotOk(q, order, 1) && SlotOk(q, order, q.count - 1);
    UnlinkedSlots(q, order[0], order[1], order[q.count - 1]);
  }

  lemma PoppedPosition<T>(q: Queue<T>, order: seq<int>, r: Queue<T>, i: nat)
    requires Linked(q, order) && q.count >= 2 && i < |order|
    requires q.slots[q.first].last < |q.slots| && q.slots[q.first].next < |q.slots|
    requires r == q.(slots := Unlinked(q, q.first), first := order[1], count := q.count - 1)
    requires |r.slots| == |order| && Permutes(Rotated(order, q.count), |order|)
    ensures SlotOk(r, Rotated(order, q.count), i)
  {
    assert SlotOk(q, order, 0) && SlotOk(q, order, 1) && SlotOk(q, order, q.count - 1);
    UnlinkedSlots(q, order[0], order[1], order[q.count - 1]);
    assert SlotOk(q, order, i);
    if i + 1 < |order| {
      assert SlotOk(q, order, i + 1);
    }
  }

  lemma PopRelinks<T>(q: Queue<T>, order: seq<int>, r: Queue<T>)
    requires Linked(q, order) && q.count >= 2
    requires Popped(q) == Some((q.slots[order[0]].entry, r))
    ensures Linked(r, Rotated(order, q.count)) && r.count == q.count - 1 && r.blank == q.blank
    ensures |r.slots| == |q.slots| && forall k :: 0 <= k < |q.slots| ==> r.slots[k].entry == q.slots[k].entry
  {
    PopIsUnlink(q, order);
    var all := Rotated(order, q.count);
    assert SlotOk(q, order, 0) && SlotOk(q, order, q.count - 1);
    UnlinkedSlots(q, order[0], order[1], order[q.count - 1]);
    assert Permutes(all, |order|);
    forall i | 0 <= i < |all|
      ensures SlotOk(r, all, i)
    {
      PoppedPosition(q, order, r, i);
    }
  }

  lemma PopKeepsLinks<T>(q: Queue<T>, order: seq<int>)
    requires Linked(q, order) && q.count >= 2
    ensures Popped(q).Some?
    ensures var (x, r) := Popped(q).value;
            && WellLinked(r) && r.count == q.count - 1 && r.blank == q.blank
            && |r.slots| == |q.slots| && [x] + Contents(r) == Contents(q)
  {
    PopIsUnlink(q, order);
    var (x, r) := Popped(q).value;
    PopRelinks(q, order, r);
    ContentsFollowOrder(q, order);
    ContentsFollowOrder(r, Rotated(order, q.count));
    assert [x] + Contents(r) == Contents(q);
  }

  /** pop returns the oldest entry and keeps the rest. The list stays well linked if and only if the queue does not
      become empty: emptying it leaves the first slot preceded by itself. */
  lemma PopTakesOldest<T>(q: Queue<T>)
    requires WellLinked(q) && q.count >= 1
    ensures Popped(q).Some?
    ensures var (x, r) := Popped(q).value;
            && r.count == q.count - 1 && [x] + Contents(r) == Contents(q)
            && |r.slots| == |q.slots| && r.blank == q.blank
            && (WellLinked(r) <==> q.count >= 2)
            && (q.count == 1 ==> r.slots[r.first].last == r.first)
  {
    var order :| Linked(q, order);
    if q.count >= 2 {
      PopKeepsLinks(q, order);
    } else {
      assert SlotOk(q, order, 0);
      ContentsFollowOrder(q, order);
      var r := Popped(q).value.1;
      assert r.slots[r.first].last == r.first;
    }
  }

  // ----- Runs -----

  datatype Op<T> = Push(entry: T) | Pop

  function Apply<T>(q: Queue<T>, op: Op<T>): Option<(seq<T>, Queue<T>)> {
    match op
    case Push(x) => (match Pushed(q, x) case None => None case Some(r) => Some(([], r)))
    case Pop => (match Popped(q) case None => None case Some((x, r)) => Some(([x], r)))
  }

  /** The popped entries and the final queue. */
  function Run<T>(q: Queue<T>, ops: seq<Op<T>>): Option<(seq<T>, Queue<T>)>
    decreases |ops|
  {
    if ops == [] then Some(([], q))
    else
      match Apply(q, ops[0])
      case None => None
      case Some((out, r)) =>
        match Run(r, ops[1..])
        case None => None
        case Some((rest, end)) => Some((out + rest, end))
  }

  /** The same operations on a plain sequence. */
  function RunPlain<T>(held: seq<T>, ops: seq<Op<T>>): (seq<T>, seq<T>)
    decreases |ops|
  {
    if ops == [] then ([], held)
    else
      match ops[0]
      case Push(x) => RunPlain(held + [x], ops[1..])
      case Pop =>
        if held == [] then RunPlain(held, ops[1..])
        else
          var (out, end) := RunPlain(held[1..], ops[1..]);
          ([held[0]] + out, end)
  }

  /** The largest size on the way. */
  function Peak<T>(size: nat, ops: seq<Op<T>>): (peak: nat)
    ensures peak >= size
    decreases |ops|
  {
    if ops == [] then size
    else if ops[0].Push? then Peak(size + 1, ops[1..])
    else
      var rest := Peak(if size == 0 then 0 else size - 1, ops[1..]);
      if rest < size then size else rest
  }

  /** Every pop finds an entry and only the last operation may empty the queue. */
  predicate StaysFilled<T>(size: nat, ops: seq<Op<T>>)
    decreases |ops|
  {
    ops == []
    || if ops[0].Push? then StaysFilled(size + 1, ops[1..])
       else size >= 1 && (size >= 2 || |ops| == 1) && StaysFilled(size - 1, ops[1..])
  }

  /** The capacity the first push finds or makes. */
  function Capacity<T>(q: Queue<T>): nat {
    if q.slots == [] then INITIAL_QUEUE_SIZE else |q.slots|
  }

  /** One operation more in front. */
  lemma RunStarts<T>(q: Queue<T>, ops: seq<Op<T>>, out: seq<T>, r: Queue<T>)
    requires ops != [] && Apply(q, ops[0]) == Some((out, r)) && Run(r, ops[1..]).Some?
    ensures Run(q, ops) == Some((out + Run(r, ops[1..]).value.0, Run(r, ops[1..]).value.1))
  {
  }

  lemma PlainStarts<T>(held: seq<T>, ops: seq<Op<T>>, out: seq<T>, left: seq<T>)
    requires ops != []
    requires if ops[0].Push? then out == [] && left == held + [ops[0].entry] else |out| == 1 && out + left == held
    ensures RunPlain(held, ops) == (out + RunPlain(left, ops[1..]).0, RunPlain(left, ops[1..]).1)
  {
    if ops[0].Push? {
      assert out + RunPlain(left, ops[1..]).0 == RunPlain(left, ops[1..]).0;
    } else {
      assert held != [] && held[1..] == left && [held[0]] == out;
    }
  }

  /** What one operation does to the represented sequence. */
  lemma ApplyIsPlain<T>(q: Queue<T>, op: Op<T>)
    requires WellLinked(q) && (op.Pop? ==> q.count >= 1)
    ensures Apply(q, op).Some?
    ensures var (out, r) := Apply(q, op).value;
            && r.count == (if op.Push? then q.count + 1 else q.count - 1)
            && (if op.Push? then out == [] && Contents(r) == Contents(q) + [op.entry]
                else |out| == 1 && out + Contents(r) == Contents(q))
            && (WellLinked(r) <==> r.count > 0)
            && 0 < |r.slots| <= Max(Capacity(q), 2 * r.count)
  {
    if op.Push? {
      PushAppends(q, op.entry);
    } else {
      PopTakesOldest(q);
    }
  }

  /** On this run no assert fails, the popped entries and what remains are those of a plain queue, and the vector is no
      longer than it started (10 if it started empty) or twice the peak size. */
  ghost predicate IsFifo<T>(q: Queue<T>, ops: seq<Op<T>>)
    requires q.count >= 0
  {
    match Run(q, ops)
    case None => false
    case Some((out, end)) =>
      && end.count >= 0
      && RunPlain(Contents(q), ops) == (out, Contents(end))
      && |end.slots| <= Max(Capacity(q), 2 * Peak(q.count, ops))
  }

  lemma PeakOfRest<T>(size: nat, ops: seq<Op<T>>)
    requires ops != [] && (ops[0].Pop? ==> size >= 1)
    ensures Peak(size, ops) >= Peak(if ops[0].Push? then size + 1 else size - 1, ops[1..])
  {
  }

  lemma FirstStep<T>(q: Queue<T>, ops: seq<Op<T>>)
    requires WellLinked(q) && ops != [] && StaysFilled(q.count, ops)
    ensures Apply(q, ops[0]).Some?
    ensures var r := Apply(q, ops[0]).value.1;
            && r.count >= 0 && StaysFilled(r.count, ops[1..])
            && (ops[1..] == [] || WellLinked(r))
  {
    ApplyIsPlain(q, ops[0]);
  }

  lemma FirstStepIsPlain<T>(q: Queue<T>, ops: seq<Op<T>>, out: seq<T>, r: Queue<T>)
    requires WellLinked(q) && ops != [] && StaysFilled(q.count, ops)
    requires Apply(q, ops[0]) == Some((out, r)) && r.count >= 0
    ensures RunPlain(Contents(q), ops) == (out + RunPlain(Contents(r), ops[1..]).0, RunPlain(Contents(r), ops[1..]).1)
    ensures 0 < |r.slots| <= Max(Capacity(q), 2 * r.count)
    ensures r.count <= Peak(r.count, ops[1..]) <= Peak(q.count, ops)
  {
    ApplyIsPlain(q, ops[0]);
    PlainStarts(Contents(q), ops, out, Contents(r));
    PeakOfRest(q.count, ops);
  }

  lemma OneMoreIsFifo<T>(q: Queue<T>, ops: seq<Op<T>>, out: seq<T>, r: Queue<T>)
    requires ops != [] && q.count >= 0 && r.count >= 0 && IsFifo(r, ops[1..]) && Apply(q, ops[0]) == Some((out, r))
    requires RunPlain(Contents(q), ops) == (out + RunPlain(Contents(r), ops[1..]).0, RunPlain(Contents(r), ops[1..]).1)
    requires 0 < |r.slots| <= Max(Capacity(q), 2 * r.count)
    requires r.count <= Peak(r.count, ops[1..]) <= Peak(q.count, ops)
    ensures IsFifo(q, ops)
  {
    RunStarts(q, ops, out, r);
  }

  /** Every run that empties the queue at most with its last operation is a run of a plain queue. */
  lemma {:induction false} RunsAreFifo<T>(q: Queue<T>, ops: seq<Op<T>>)
    requires WellLinked(q) && StaysFilled(q.count, ops)
    ensures IsFifo(q, ops)
    decreases |ops|
  {
    if ops == [] {
    } else {
      FirstStep(q, ops);
      var (out, r) := Apply(q, ops[0]).value;
      if ops[1..] != [] {
        RunsAreFifo(r, ops[1..]);
      }
      FirstStepIsPlain(q, ops, out, r);
      OneMoreIsFifo(q, ops, out, r);
    }
  }

  lemma CreatedIsWellLinked<T>(blank: T, size: nat)
    ensures WellLinked(Created(blank, size)) && Created(blank, size).count == 0 && |Created(blank, size).slots| == size
    ensures Contents(Created(blank, size)) == []
  {
    var empty := Queue(blank, [], 0, 0, 0);
    assert Linked(empty, []);
    if size > 0 {
      ResizeKeepsLinks(empty, [], size);
    }
  }

  /** The same from the constructor on. */
  lemma RunsFromNewAreFifo<T>(blank: T, size: nat, ops: seq<Op<T>>)
    requires StaysFilled(0, ops)
    ensures Run(Created(blank, size), ops).Some?
    ensures Run(Created(blank, size), ops).value.1.count >= 0
    ensures var (out, end) := Run(Created(blank, size), ops).value;
            && RunPlain([], ops) == (out, Contents(end))
            && |end.slots| <= Max(if size == 0 then INITIAL_QUEUE_SIZE else size, 2 * Peak(0, ops))
  {
    CreatedIsWellLinked(blank, size);
    RunsAreFifo(Created(blank, size), ops);
  }

  // ----- A run outside the restriction -----

  /** The queue is emptied once, refilled, and never empty again before its last operation. */
  const EMPTIED_ONCE: seq<Op<int>> := [Push(0), Pop, Push(1), Push(2), Pop, Push(3), Push(4), Pop, Pop]

  /** The states of that run; only the first three slots change. */
  function StateAfter(k: nat, tail: seq<Slot<int>>, third: int): Queue<int>
    requires k <= 8
  {
    var c := Slot(1, third, false, 0);
    match k
    case 0 => Queue(0, [Slot(-1, 1, false, 0), Slot(0, 2, false, 0), c] + tail, 0, 0, 0)
    case 1 => Queue(0, [Slot(-1, 1, true, 0), Slot(0, 2, false, 0), c] + tail, 0, 0, 1)
    case 2 => Queue(0, [Slot(0, 1, false, 0), Slot(-1, 2, false, 0), c] + tail, 0, 0, 0)
    case 3 => Queue(0, [Slot(0, 1, true, 1), Slot(-1, 2, false, 0), c] + tail, 0, 0, 1)
    case 4 => Queue(0, [Slot(0, 1, true, 1), Slot(-1, 2, true, 2), c] + tail, 0, 1, 2)
    case 5 => Queue(0, [Slot(1, 2, false, 1), Slot(0, 0, true, 2), c] + tail, 1, 1, 1)
    case 6 => Queue(0, [Slot(1, 2, true, 3), Slot(0, 0, true, 2), c] + tail, 1, 0, 2)
    case 7 => Queue(0, [Slot(1, 2, true, 3), Slot(0, 0, true, 2), c.(active := true, entry := 4)] + tail, 1, 2, 3)
    case 8 => Queue(0, [Slot(0, 0, true, 3), Slot(2, third, false, 2), Slot(1, 1, true, 4)] + tail, 0, 2, 2)
  }

  lemma NextState(k: nat, tail: seq<Slot<int>>, third: int)
    requires k < 8 && third < 3 + |tail|
    ensures Apply(StateAfter(k, tail, third), EMPTIED_ONCE[k]).Some?
    ensures Apply(StateAfter(k, tail, third), EMPTIED_ONCE[k]).value.1 == StateAfter(k + 1, tail, third)
  {
    assert Apply(StateAfter(k, tail, third), EMPTIED_ONCE[k]).Some?;
    var r, e := Apply(StateAfter(k, tail, third), EMPTIED_ONCE[k]).value.1, StateAfter(k + 1, tail, third);
    assert r.slots == e.slots;
  }

  lemma {:induction false} RunFails(k: nat, tail: seq<Slot<int>>, third: int)
    requires k <= 8 && third < 3 + |tail|
    ensures Run(StateAfter(k, tail, third), EMPTIED_ONCE[k..]) == None
    decreases 8 - k
  {
    if k == 8 {
    } else {
      NextState(k, tail, third);
      RunFails(k + 1, tail, third);
      assert EMPTIED_ONCE[k..][1..] == EMPTIED_ONCE[k + 1..];
    }
  }

  /** From every capacity of at least 3, the default one included, the last pop of this run trips the assert on line 92
      although two entries are queued: emptying once is enough to lose the FIFO property. */
  lemma EmptyingOnceCanBreakTheQueue(size: nat)
    requires size >= 3
    ensures !StaysFilled(0, EMPTIED_ONCE)
    ensures Run(Created(0, size), EMPTIED_ONCE) == None
  {
    assert EMPTIED_ONCE[1..][0] == Pop && |EMPTIED_ONCE[1..]| == 8;
    var q := Created(0, size);
    var tail, third := q.slots[3..], q.slots[2].next;
    assert q.slots == StateAfter(0, tail, third).slots;
    RunFails(0, tail, third);
    assert EMPTIED_ONCE[0..] == EMPTIED_ONCE;
  }

  // ----- The object -----

  /** The class itself. A method's `ok` is false exactly where an assert of the source fails or an index leaves the
      vector; the object is then of no further use. */
  class ContiguousQueue<T> {
    const blank: T
    var queued: seq<Slot<T>>
    var firstIndex: int
    var currentIndex: int
    var activeCount: int

    function State(): Queue<T>
      reads this
    {
      Queue(blank, queued, firstIndex, currentIndex, activeCount)
    }

    predicate InVector()
      reads this
    {
      0 <= firstIndex < Max(1, |queued|) && 0 <= currentIndex < Max(1, |queued|)
    }

    constructor (blank: T, size: nat)
      ensures InVector() && State() == Created(blank, size) && WellLinked(State()) && Contents(State()) == []
    {
      this.blank := blank;
      queued := [];
      firstIndex, currentIndex, activeCount := 0, 0, 0;
      new;
      Resize(size);
      CreatedIsWellLinked(blank, size);
    }

    /** m_queued.resize and the loop that links the new slots. */
    method AddSlots(size: nat)
      requires |queued| < size
      modifies this`queued
      ensures queued == old(queued) + FreshSlots(blank, |old(queued)|, size)
    {
      var start := |queued|;
      ghost var was := queued;
      queued := queued + seq(size - start, _ => Slot(0, 0, false, blank));
      for i := start to size
        invariant |queued| == size && queued[..start] == was
        invariant forall k :: start <= k < i ==> queued[k] == FreshSlot(blank, k, start, size)
        invariant forall k :: start <= k < size ==> queued[k].entry == blank
      {
        queued := queued[i := queued[i].(last := if i == start then -1 else i - 1)];
        queued := queued[i := queued[i].(next := if i == |queued| - 1 then -1 else i + 1)];
        queued := queued[i := queued[i].(active := false)];
      }
      assert queued == queued[..start] + queued[start..];
      assert queued[start..] == FreshSlots(blank, start, size);
    }

    method Resize(size: nat)
      requires InVector()
      modifies this`queued
      ensures InVector() && State() == Resized(old(State()), size)
    {
      if size <= |queued| {
        return;
      }
      if queued != [] && queued[currentIndex].next != -1 {
        return;
      }
      var start := |queued|;
      AddSlots(size);
      if start > 0 {
        queued := queued[currentIndex := queued[currentIndex].(next := start)];
        queued := queued[start := queued[start].(last := currentIndex)];
      }
    }

    method Push(entry: T) returns (ok: bool)
      requires InVector()
      modifies this
      ensures ok <==> Pushed(old(State()), entry).Some?
      ensures ok ==> InVector() && State() == Pushed(old(State()), entry).value
    {
      if queued == [] {
        Resize(INITIAL_QUEUE_SIZE);
      }
      if !queued[currentIndex].active {
        queued := queued[currentIndex := queued[currentIndex].(active := true, entry := entry)];
        activeCount := activeCount + 1;
        return true;
      }
      if queued[currentIndex].next == -1 {
        Resize(|queued| * 2);
      }
      var next := queued[currentIndex].next;
      if !(0 <= next < |queued|) || queued[next].active {
        return false;
      }
      currentIndex := next;
      queued := queued[currentIndex := queued[currentIndex].(active := true, entry := entry)];
      activeCount := activeCount + 1;
      ok := true;
    }

    /** Takes a slot out of the list and puts it behind the current one. */
    method Unlink(index: int)
      requires InVector() && 0 <= index < |queued|
      requires queued[index].last < |queued| && queued[index].next < |queued|
      modifies this`queued
      ensures queued == Unlinked(old(State()), index)
    {
      var lastIndex, nextIndex := queued[index].last, queued[index].next;
      if lastIndex >= 0 {
        queued := queued[lastIndex := queued[lastIndex].(next := nextIndex)];
      }
      if nextIndex >= 0 {
        queued := queued[nextIndex := queued[nextIndex].(last := lastIndex)];
      }
      var oldNextIndex := queued[currentIndex].next;
      queued := queued[currentIndex := queued[currentIndex].(next := index)];
      queued := queued[index := queued[index].(last := currentIndex, next := oldNextIndex, active := false)];
    }

    method Remove(index: int) returns (ok: bool)
      requires InVector()
      modifies this
      ensures ok <==> Removed(old(State()), index).Some?
      ensures ok ==> InVector() && State() == Removed(old(State()), index).value
    {
      if !(0 <= index < |queued|) || queued[index].last >= |queued| || queued[index].next >= |queued| {
        return false;
      }
      var nextIndex := queued[index].next;
      Unlink(index);
      activeCount := activeCount - 1;
      if index == firstIndex {
        if activeCount > 0 {
          if !(0 <= nextIndex < |queued|) || !queued[nextIndex].active {
            return false;
          }
          firstIndex := nextIndex;
        } else {
          firstIndex := currentIndex;
        }
      }
      ok := true;
    }

    method Pop() returns (entry: Option<T>)
      requires InVector()
      modifies this
      ensures entry.Some? <==> Popped(old(State())).Some?
      ensures entry.Some? ==> InVector() && (entry.value, State()) == Popped(old(State())).value
    {
      if !(0 <= firstIndex < |queued|) {
        return None;
      }
      var first := queued[firstIndex].entry;
      var ok := Remove(firstIndex);
      entry := if ok then Some(first) else None;
    }
  }
}
