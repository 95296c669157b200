/** asio::basic_streambuf as a byte queue over one growable array. Offsets stand for the stream pointers. */
module StreamBuffers {
  import opened Integers

  const BUFFER_DELTA := 128

  /** static_cast<int> of a size. */
  function ToInt(n: nat): int {
    var low := n % 0x1_0000_0000;
    if low <= INT_MAX then low else low - 0x1_0000_0000
  }

  lemma ToIntIsExact(n: nat)
    ensures ToInt(n) == n <==> n <= INT_MAX
  {
  }

  /** What data() reads when its bytes have been moved down by g while the pointers stayed: its own tail and then its
      last g characters again. */
  function Shifted<T>(data: seq<T>, g: nat): seq<T> {
    if g <= |data| then data[g..] + data[|data| - g..] else data
  }

  lemma ShiftedData<T>(before: seq<T>, after: seq<T>, g: nat, p: nat)
    requires |before| == |after| && g <= p <= |before|
    requires after[..p - g] == before[g..p] && after[p - g..] == before[p - g..]
    ensures after[g..p] == Shifted(before[g..p], g)
  {
    var data := before[g..p];
    if g <= p - g {
      assert after[g..p] == after[..p - g][g..] + after[p - g..][..g];
      assert before[p - g..][..g] == data[|data| - g..];
    } else {
      assert after[g..p] == after[p - g..][2 * g - p..g];
      assert data == before[p - g..][2 * g - p..g];
    }
  }

  /** The data survives a failed reserve if and only if it moved past all of itself or repeats with period g. */
  lemma ShiftedIsUnchanged<T>(data: seq<T>, g: nat)
    ensures Shifted(data, g) == data <==> g >= |data| || forall i :: 0 <= i < |data| - g ==> data[i] == data[i + g]
  {
    var after := Shifted(data, g);
    if g < |data| {
      assert forall i :: 0 <= i < |data| ==> after[i] == if i < |data| - g then data[i + g] else data[i];
      if after == data {
        assert forall i :: 0 <= i < |data| - g ==> after[i] == data[i];
      }
    }
  }

  /** Beyond an int the pointer moves by another amount, backwards up to 4 GiB. */
  lemma ToIntWraps(n: nat)
    requires n > INT_MAX
    ensures ToInt(n) < n && (n < 0x1_0000_0000 ==> ToInt(n) == n - 0x1_0000_0000 < 0)
  {
  }

  lemma DropFromBoth<T>(held: array<T>, g: nat, p: nat, history: seq<T>, used: nat, m: nat)
    requires g + m <= p <= held.Length && used <= |history| && held[g..p] == history[used..]
    ensures used + m <= |history|
    ensures held[g + m..p] == held[g..p][m..] && history[used + m..] == history[used..][m..]
  {
  }

  class StreamBuffer<T(0)> {
    const maxSize: nat
    var buffer: array<T>
    var getNext: int
    var getEnd: int
    var putNext: int
    var putEnd: int
    /** History: everything committed, and how much of it has been consumed. */
    ghost var committed: seq<T>
    ghost var consumed: nat

    ghost predicate Valid()
      reads this, buffer
    {
      && 0 <= getNext <= getEnd <= putNext <= putEnd <= maxSize
      && buffer.Length == (if putEnd == 0 then 1 else putEnd)
      && consumed <= |committed|
      && Data() == committed[consumed..]
    }

    /** data(). */
    ghost function Data(): seq<T>
      requires 0 <= getNext <= putNext <= buffer.Length
      reads this, buffer
    {
      buffer[getNext..putNext]
    }

    constructor (maxSize: nat)
      ensures Valid() && Data() == [] && committed == [] && this.maxSize == maxSize && fresh(buffer)
      ensures getNext == 0 && putEnd == Min(maxSize, BUFFER_DELTA)
    {
      var end := Min(maxSize, BUFFER_DELTA);
      this.maxSize := maxSize;
      buffer := new T[if end < 1 then 1 else end];
      getNext, getEnd, putNext, putEnd := 0, 0, 0, end;
      committed, consumed := [], 0;
    }

    method Size() returns (n: int)
      requires Valid()
      ensures n == |committed| - consumed && n <= maxSize
    {
      n := putNext - getNext;
    }

    /** memmove of the get area to the start of the array. */
    method ShiftDown()
      requires Valid()
      modifies buffer
      ensures buffer[..putNext - getNext] == old(buffer[getNext..putNext])
      ensures buffer[putNext - getNext..] == old(buffer[putNext - getNext..])
    {
      var size := putNext - getNext;
      for i := 0 to size
        invariant buffer[..i] == old(buffer[getNext..getNext + i])
        invariant buffer[i..] == old(buffer[i..])
      {
        assert buffer[getNext + i] == buffer[i..][getNext] == old(buffer[getNext + i]);
        buffer[i] := buffer[getNext + i];
        assert buffer[..i + 1] == old(buffer[getNext..getNext + i + 1]);
        assert buffer[i + 1..] == old(buffer[i..])[1..];
      }
    }

    /** vector::resize to a larger size. */
    method Grow(length: nat)
      requires buffer.Length <= length
      modifies this`buffer
      ensures buffer.Length == length && buffer[..old(buffer.Length)] == old(buffer[..])
      ensures fresh(buffer)
    {
      var smaller, bigger := buffer, new T[length];
      for i := 0 to smaller.Length
        invariant bigger[..i] == smaller[..i] && smaller[..] == old(buffer[..])
      {
        bigger[i] := smaller[i];
      }
      assert smaller[..smaller.Length] == smaller[..];
      buffer := bigger;
    }

    /** setg and setp after the get area has moved to the start. */
    method Rewind(size: nat, end: nat, ghost data: seq<T>)
      requires size <= end <= maxSize && buffer.Length == (if end == 0 then 1 else end)
      requires buffer[..size] == data && consumed <= |committed| && data == committed[consumed..]
      modifies this`getNext, this`getEnd, this`putNext, this`putEnd
      ensures Valid() && Data() == data && getNext == 0 && putNext == size && putEnd == end
    {
      getNext, getEnd, putNext, putEnd := 0, size, size, end;
    }

    /** Fails where reserve throws length_error, exactly when the bytes held and n more exceed the maximum. The bytes
        have then already been shifted while the pointers stay. */
    method Reserve(n: nat) returns (ok: bool)
      requires Valid()
      modifies this, buffer
      ensures ok <==> old(putNext - getNext) + n <= maxSize
      ensures committed == old(committed) && consumed == old(consumed)
      ensures ok ==> Valid() && Data() == old(Data()) && putNext + n <= putEnd
      ensures ok ==> buffer == old(buffer) || fresh(buffer)
      ensures ok ==> getNext == if n <= old(putEnd - putNext) then old(getNext) else 0
      ensures !ok ==> buffer == old(buffer) && getNext == old(getNext) && putNext == old(putNext)
      ensures !ok ==> Data() == Shifted(old(Data()), getNext)
    {
      if n <= putEnd - putNext {
        return true;
      }
      var size := putNext - getNext;
      ghost var before, data := buffer[..], Data();
      if getNext > 0 {
        ShiftDown();
      }
      assert buffer[..size] == data;
      var end := putEnd;
      if n > putEnd - size {
        if n <= maxSize && size <= maxSize - n {
          end := size + n;
          Grow(if end < 1 then 1 else end);
          assert buffer[..size] == data;
        } else {
          ShiftedData(before, buffer[..], getNext, putNext);
          return false;
        }
      }
      Rewind(size, end, data);
      ok := true;
    }

    /** The output area of n characters starts at putNext. A failure leaves the data shifted under unmoved pointers. */
    method Prepare(n: nat) returns (ok: bool)
      requires Valid()
      modifies this, buffer
      ensures ok <==> old(|Data()|) + n <= maxSize
      ensures committed == old(committed) && consumed == old(consumed)
      ensures ok ==> Valid() && Data() == old(Data()) && putNext + n <= putEnd && putEnd <= buffer.Length
      ensures ok ==> buffer == old(buffer) || fresh(buffer)
      ensures ok ==> getNext == if n <= old(putEnd - putNext) then old(getNext) else 0
      ensures !ok ==> buffer == old(buffer) && getNext == old(getNext) && putNext == old(putNext)
      ensures !ok ==> Data() == Shifted(old(Data()), getNext)
    {
      ok := Reserve(n);
    }

    /** The caller fills the output area. */
    method Fill(bytes: seq<T>)
      requires Valid() && putNext + |bytes| <= putEnd
      modifies buffer
      ensures Valid() && Data() == old(Data())
      ensures buffer[putNext..putNext + |bytes|] == bytes
    {
      ghost var data := Data();
      for i := 0 to |bytes|
        invariant buffer[putNext..putNext + i] == bytes[..i] && Data() == data
      {
        buffer[putNext + i] := bytes[i];
        assert buffer[putNext..putNext + i + 1] == bytes[..i + 1];
      }
    }

    /** Appends up to n characters of the output area to the data, exactly as far as pbump's int reaches. */
    method Commit(n: nat)
      requires Valid()
      modifies this
      ensures var m := Min(n, old(putEnd - putNext));
              && putNext == old(putNext) + ToInt(m)
              && (m <= INT_MAX <==> putNext == old(putNext) + m)
              && (m <= INT_MAX ==>
                    && Valid() && Data() == old(Data()) + old(buffer[putNext..putNext + m])
                    && committed == old(committed) + old(buffer[putNext..putNext + m]))
      ensures consumed == old(consumed) && buffer == old(buffer) && putEnd == old(putEnd) && getNext == old(getNext)
    {
      var m := Min(n, putEnd - putNext);
      if m <= INT_MAX {
        committed := committed + buffer[putNext..putNext + m];
      }
      ToIntIsExact(m);
      putNext := putNext + ToInt(m);
      getEnd := putNext;
      assert m <= INT_MAX ==> Data() == old(Data()) + old(buffer[putNext..putNext + m]);
    }

    /** gbump. */
    method AdvanceGet(m: nat)
      requires Valid() && getNext + m <= putNext
      modifies this`getNext, this`consumed
      ensures getNext == old(getNext) + ToInt(m)
      ensures m <= INT_MAX <==> getNext == old(getNext) + m
      ensures m <= INT_MAX && getNext <= getEnd ==>
                Valid() && Data() == old(Data())[m..] && consumed == old(consumed) + m
    {
      ghost var exact := m <= INT_MAX;
      var next := getNext + ToInt(m);
      assert exact <==> next == getNext + m by {
        ToIntIsExact(m);
      }
      if exact {
        DropFromBoth(buffer, getNext, putNext, committed, consumed, m);
        consumed := consumed + m;
      }
      getNext := next;
    }

    /** Drops up to n characters from the front of the data, exactly as far as gbump's int reaches. */
    method Consume(n: nat)
      requires Valid()
      modifies this
      ensures var m := Min(n, old(|Data()|));
              && getNext == old(getNext) + ToInt(m)
              && (m <= INT_MAX <==> getNext == old(getNext) + m)
              && (m <= INT_MAX ==> Valid() && Data() == old(Data())[m..] && consumed == old(consumed) + m)
      ensures committed == old(committed) && buffer == old(buffer) && putNext == old(putNext) && putEnd == old(putEnd)
    {
      if getEnd < putNext {
        getEnd := putNext;
      }
      var m := n;
      if getNext + n > putNext {
        m := putNext - getNext;
      }
      AdvanceGet(m);
    }
  }

  // ---------- runs on which the promises fail ----------

  /** "abc" committed, "a" consumed, then more prepared than the maximum of 4 allows: data() changes from "bc" to
      "cc". */
  method FailedPrepareChangesData() returns (ok: bool, before: string, after: string)
    ensures !ok && before == "bc" && after == "cc"
  {
    var b := new StreamBuffer<char>(4);
    ok := b.Prepare(3);
    b.Fill("abc");
    b.Commit(3);
    assert b.Data() == "abc" && b.getNext == 0;
    b.Consume(1);
    before := b.buffer[b.getNext..b.putNext];
    assert before == "abc"[1..] == "bc" && b.getNext == 1;
    ok := b.Prepare(3);
    after := b.buffer[b.getNext..b.putNext];
    assert after == Shifted("bc", 1) == "c" + "c";
  }

  /** Committing 2 GiB at once moves the put pointer before the buffer. */
  method LargeCommitMovesBack() returns (room: int, putNext: int)
    ensures room >= 0x8000_0000 && putNext == -0x8000_0000
  {
    var b := new StreamBuffer<char>(0x8000_0000);
    var ready := b.Prepare(0x8000_0000);
    room := b.putEnd - b.putNext;
    ToIntWraps(0x8000_0000);
    b.Commit(0x8000_0000);
    putNext := b.putNext;
  }

  /** So does consuming 2 GiB, committed in two parts, to the get pointer. */
  method LargeConsumeMovesBack() returns (size: int, getNext: int)
    ensures size == 0x8000_0000 && getNext == -0x8000_0000
  {
    var b := new StreamBuffer<char>(0x8000_0000);
    var ready := b.Prepare(0x8000_0000);
    b.Commit(0x4000_0000);
    b.Commit(0x4000_0000);
    size := b.Size();
    ToIntWraps(0x8000_0000);
    b.Consume(0x8000_0000);
    getNext := b.getNext;
  }
}
