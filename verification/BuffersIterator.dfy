/** asio::buffers_iterator: a random-access cursor over a sequence of byte buffers, any of which may be empty. */
module BufferCursors {
  function Flat<T>(buffers: seq<seq<T>>): seq<T> {
    if buffers == [] then [] else buffers[0] + Flat(buffers[1..])
  }

  /** Total size of the first n buffers. */
  function Start<T>(buffers: seq<seq<T>>, n: nat): nat
    requires n <= |buffers|
  {
    if n == 0 then 0 else Start(buffers, n - 1) + |buffers[n - 1]|
  }

  datatype Cursor = Cursor(buffer: nat, offset: nat)

  /** The normalised cursor of a flat position: inside a non-empty buffer, or at the end of the sequence. */
  predicate At<T>(buffers: seq<seq<T>>, position: nat, c: Cursor) {
    && c.buffer <= |buffers|
    && Start(buffers, c.buffer) + c.offset == position
    && (if c.buffer < |buffers| then c.offset < |buffers[c.buffer]| else c.offset == 0)
  }

  lemma {:induction false} StartMonotone<T>(buffers: seq<seq<T>>, m: nat, n: nat)
    requires m <= n <= |buffers|
    ensures Start(buffers, m) <= Start(buffers, n)
  {
    if m == n {
    } else {
      StartMonotone(buffers, m, n - 1);
    }
  }

  /** A position has one normalised cursor. */
  lemma CursorIsUnique<T>(buffers: seq<seq<T>>, position: nat, a: Cursor, b: Cursor)
    requires At(buffers, position, a) && At(buffers, position, b)
    ensures a == b
  {
    if a.buffer < b.buffer {
      StartMonotone(buffers, a.buffer + 1, b.buffer);
    } else if b.buffer < a.buffer {
      StartMonotone(buffers, b.buffer + 1, a.buffer);
    }
  }

  lemma {:induction false} StartOfTail<T>(buffers: seq<seq<T>>, n: nat)
    requires 0 < n <= |buffers|
    ensures Start(buffers, n) == |buffers[0]| + Start(buffers[1..], n - 1)
  {
    if n <= 1 {
    } else {
      StartOfTail(buffers, n - 1);
    }
  }

  lemma {:induction false} FlatSize<T>(buffers: seq<seq<T>>)
    ensures |Flat(buffers)| == Start(buffers, |buffers|)
  {
    if buffers == [] {
    } else {
      FlatSize(buffers[1..]);
      StartOfTail(buffers, |buffers|);
    }
  }

  /** A cursor inside a buffer reads the byte at its flat position. */
  lemma {:induction false} CursorReadsFlat<T>(buffers: seq<seq<T>>, position: nat, c: Cursor)
    requires At(buffers, position, c) && c.buffer < |buffers|
    ensures position < |Flat(buffers)| && Flat(buffers)[position] == buffers[c.buffer][c.offset]
  {
    if c.buffer == 0 {
    } else {
      StartOfTail(buffers, c.buffer);
      CursorReadsFlat(buffers[1..], position - |buffers[0]|, Cursor(c.buffer - 1, c.offset));
    }
  }

  lemma EndCursor<T>(buffers: seq<seq<T>>, position: nat, c: Cursor)
    requires At(buffers, position, c)
    ensures position <= |Flat(buffers)|
    ensures c.buffer == |buffers| <==> position == |Flat(buffers)|
  {
    FlatSize(buffers);
    if c.buffer < |buffers| {
      StartMonotone(buffers, c.buffer + 1, |buffers|);
    }
  }

  class BuffersIterator<T> {
    const buffers: seq<seq<T>>
    var currentBuffer: seq<T>
    var currentBufferPosition: nat
    var current: nat
    var position: nat

    /** The cursor is the normalised one; at the end the copy of the current buffer is left as it happens to be. */
    ghost predicate Valid()
      reads this
    {
      && At(buffers, position, Cursor(current, currentBufferPosition))
      && (current < |buffers| ==> currentBuffer == buffers[current])
    }

    constructor Begin(buffers: seq<seq<T>>)
      ensures Valid() && this.buffers == buffers && position == 0
    {
      this.buffers := buffers;
      currentBuffer, currentBufferPosition, current, position := [], 0, 0, 0;
      new;
      while current != |buffers|
        invariant current <= |buffers| && Start(buffers, current) == 0
        invariant this.buffers == buffers && position == 0 && currentBufferPosition == 0
        decreases |buffers| - current
      {
        currentBuffer := buffers[current];
        if |currentBuffer| > 0 {
          break;
        }
        current := current + 1;
      }
    }

    constructor End(buffers: seq<seq<T>>)
      ensures Valid() && this.buffers == buffers && position == |Flat(buffers)|
    {
      this.buffers := buffers;
      currentBuffer, currentBufferPosition, current, position := [], 0, 0, 0;
      new;
      while current != |buffers|
        invariant current <= |buffers| && position == Start(buffers, current)
        invariant this.buffers == buffers && currentBufferPosition == 0
        decreases |buffers| - current
      {
        position := position + |buffers[current]|;
        current := current + 1;
      }
      FlatSize(buffers);
    }

    method Dereference() returns (x: T)
      requires Valid() && position < |Flat(buffers)|
      ensures x == Flat(buffers)[position]
    {
      EndCursor(buffers, position, Cursor(current, currentBufferPosition));
      CursorReadsFlat(buffers, position, Cursor(current, currentBufferPosition));
      x := currentBuffer[currentBufferPosition];
    }

    method Increment()
      requires Valid() && position < |Flat(buffers)|
      modifies this
      ensures Valid() && position == old(position) + 1
    {
      EndCursor(buffers, position, Cursor(current, currentBufferPosition));
      position := position + 1;
      currentBufferPosition := currentBufferPosition + 1;
      if currentBufferPosition != |currentBuffer| {
        return;
      }
      current := current + 1;
      currentBufferPosition := 0;
      while current != |buffers|
        invariant current <= |buffers| && currentBufferPosition == 0
        invariant Start(buffers, current) == position == old(position) + 1
        decreases |buffers| - current
      {
        currentBuffer := buffers[current];
        if |currentBuffer| > 0 {
          return;
        }
        current := current + 1;
      }
    }

    method Decrement()
      requires Valid() && position > 0
      modifies this
      ensures Valid() && position == old(position) - 1
    {
      position := position - 1;
      if currentBufferPosition != 0 {
        currentBufferPosition := currentBufferPosition - 1;
        return;
      }
      var iter: nat := current;
      while iter != 0
        invariant iter <= current <= |buffers| && Start(buffers, iter) == position + 1
        invariant current == old(current) && position == old(position) - 1
      {
        iter := iter - 1;
        var buffer := buffers[iter];
        if |buffer| > 0 {
          current := iter;
          currentBuffer := buffer;
          currentBufferPosition := |buffer| - 1;
          return;
        }
      }
    }

    method Advance(n: int)
      requires Valid() && 0 <= position + n <= |Flat(buffers)|
      modifies this
      ensures Valid() && position == old(position) + n
    {
      EndCursor(buffers, position, Cursor(current, currentBufferPosition));
      if n > 0 {
        Forward(n);
      } else if n < 0 {
        Backward(-n);
      }
    }

    method Forward(distance: nat)
      requires Valid() && 0 < distance && position + distance <= |Flat(buffers)|
      modifies this
      ensures Valid() && position == old(position) + distance
    {
      var n := distance;
      EndCursor(buffers, position, Cursor(current, currentBufferPosition));
      FlatSize(buffers);
      while true
        invariant current < |buffers| && currentBuffer == buffers[current]
        invariant currentBufferPosition <= |currentBuffer|
        invariant Start(buffers, current) + currentBufferPosition == position
        invariant 0 <= n && position + n == old(position) + distance <= Start(buffers, |buffers|)
        decreases |buffers| - current
      {
        var balance := |currentBuffer| - currentBufferPosition;
        if balance > n {
          position := position + n;
          currentBufferPosition := currentBufferPosition + n;
          return;
        }
        n := n - balance;
        position := position + balance;
        current := current + 1;
        if current == |buffers| {
          assert n == 0;
          currentBuffer := [];
          currentBufferPosition := 0;
          return;
        }
        currentBuffer := buffers[current];
        currentBufferPosition := 0;
      }
    }

    method Backward(distance: nat)
      requires Valid() && 0 < distance <= position
      modifies this
      ensures Valid() && position == old(position) - distance
    {
      var n := distance;
      while true
        invariant 0 < n <= position && position - n == old(position) - distance
        invariant current <= |buffers| && Start(buffers, current) + currentBufferPosition == position
        invariant current < |buffers| ==> currentBuffer == buffers[current] && currentBufferPosition <= |currentBuffer|
        invariant current == |buffers| ==> currentBufferPosition == 0
        decreases current
      {
        if currentBufferPosition >= n {
          position := position - n;
          currentBufferPosition := currentBufferPosition - n;
          return;
        }
        n := n - currentBufferPosition;
        position := position - currentBufferPosition;
        // at the first buffer the distance would be used up, so there is a buffer before this one
        assert current != 0;
        var iter: nat := current;
        while iter != 0
          invariant iter <= current && Start(buffers, iter) == position
          invariant current <= |buffers| && position >= n > 0
        {
          iter := iter - 1;
          var buffer := buffers[iter];
          if |buffer| > 0 {
            current := iter;
            currentBuffer := buffer;
            currentBufferPosition := |buffer|;
            break;
          }
        }
      }
    }

    constructor Copy(other: BuffersIterator<T>)
      requires other.Valid()
      ensures Valid() && buffers == other.buffers && position == other.position
    {
      buffers := other.buffers;
      currentBuffer, currentBufferPosition := other.currentBuffer, other.currentBufferPosition;
      current, position := other.current, other.position;
    }

    /** operator[]. */
    method Element(difference: int) returns (x: T)
      requires Valid() && 0 <= position + difference < |Flat(buffers)|
      ensures x == Flat(buffers)[position + difference]
    {
      var tmp := new BuffersIterator.Copy(this);
      tmp.Advance(difference);
      x := tmp.Dereference();
    }

    /** Any in-bounds walk of ++, -- and advance stays on normalised cursors and ends where the moves add up to. */
    method Walk(moves: seq<Move>)
      requires Valid() && InBounds(moves, position, |Flat(buffers)|)
      modifies this
      ensures Valid() && position == old(position) + Distance(moves)
    {
      for i := 0 to |moves|
        invariant Valid() && InBounds(moves[i..], position, |Flat(buffers)|)
        invariant position + Distance(moves[i..]) == old(position) + Distance(moves)
      {
        assert moves[i..][0] == moves[i] && moves[i..][1..] == moves[i + 1..];
        match moves[i]
        case Plus => Increment();
        case Minus => Decrement();
        case By(n) => Advance(n);
      }
    }

    /** advance(n) followed by advance(-n) restores the cursor. */
    method ThereAndBack(n: int)
      requires Valid() && 0 <= position + n <= |Flat(buffers)|
      modifies this
      ensures Valid() && position == old(position)
      ensures current == old(current) && currentBufferPosition == old(currentBufferPosition)
    {
      EndCursor(buffers, position, Cursor(current, currentBufferPosition));
      Advance(n);
      Advance(-n);
      CursorIsUnique(buffers, position, Cursor(current, currentBufferPosition),
                     old(Cursor(current, currentBufferPosition)));
    }
  }

  datatype Move = Plus | Minus | By(n: int)

  function Step(move: Move): int {
    match move
    case Plus => 1
    case Minus => -1
    case By(n) => n
  }

  function Distance(moves: seq<Move>): int {
    if moves == [] then 0 else Step(moves[0]) + Distance(moves[1..])
  }

  predicate InBounds(moves: seq<Move>, position: int, total: nat) {
    && 0 <= position <= total
    && (moves != [] ==> InBounds(moves[1..], position + Step(moves[0]), total))
  }

  /** The route does not matter: two iterators over the same buffers that compare equal have the same cursor, so
      advance(n) ends where n single steps do. */
  lemma EqualIteratorsAgree<T>(a: BuffersIterator<T>, b: BuffersIterator<T>)
    requires a.Valid() && b.Valid() && a.buffers == b.buffers && a.position == b.position
    ensures a.current == b.current && a.currentBufferPosition == b.currentBufferPosition
    ensures a.position < |Flat(a.buffers)| ==> a.currentBuffer == b.currentBuffer
  {
    CursorIsUnique(a.buffers, a.position, Cursor(a.current, a.currentBufferPosition),
                   Cursor(b.current, b.currentBufferPosition));
    EndCursor(a.buffers, a.position, Cursor(a.current, a.currentBufferPosition));
  }
}
