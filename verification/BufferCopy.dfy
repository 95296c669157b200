/** asio::buffer_copy: gather from one sequence of memory regions and scatter into another, over one memory. */
module BufferCopying {
  import opened Integers

  /** mutable_buffer and const_buffer: a start address and a size. */
  datatype Buffer = Buffer(data: nat, size: nat) {
    /** operator+=: moves the start, at most to the end. */
    function Plus(n: nat): Buffer {
      var offset := if n < size then n else size;
      Buffer(data + offset, size - offset)
    }

    /** asio::buffer(b, max): the first max bytes. */
    function Limit(max: nat): Buffer {
      Buffer(data, if size < max then size else max)
    }

    function Addresses(): seq<nat> {
      seq(size, i requires 0 <= i => data + i)
    }
  }

  /** The addresses that the buffers from the i-th on cover, in order. */
  function Tail(buffers: seq<Buffer>, i: nat): seq<nat>
    requires i <= |buffers|
    decreases |buffers| - i
  {
    if i == |buffers| then [] else buffers[i].Addresses() + Tail(buffers, i + 1)
  }

  /** The addresses a buffer sequence covers. */
  function Span(buffers: seq<Buffer>): seq<nat> {
    Tail(buffers, 0)
  }

  predicate Within(buffers: seq<Buffer>, size: nat) {
    forall i :: 0 <= i < |Span(buffers)| ==> Span(buffers)[i] < size
  }

  /** The two sequences share no address and the target names none twice (memcpy's requirement). */
  predicate Disjoint(target: seq<Buffer>, source: seq<Buffer>) {
    && (forall i, j :: 0 <= i < j < |Span(target)| ==> Span(target)[i] != Span(target)[j])
    && (forall i, j :: 0 <= i < |Span(target)| && 0 <= j < |Span(source)| ==> Span(target)[i] != Span(source)[j])
  }

  /** The first n target bytes are the first n source bytes; everything else is unchanged. */
  predicate Copied<T(==)>(before: seq<T>, after: seq<T>, to: seq<nat>, from: seq<nat>, n: nat) {
    && |after| == |before| && n <= |to| && n <= |from|
    && (forall i :: 0 <= i < n ==> to[i] < |after| && from[i] < |before| && after[to[i]] == before[from[i]])
    && (forall a :: 0 <= a < |after| && a !in to[..n] ==> after[a] == before[a])
  }

  /** Copying a stretch after n bytes have been copied copies n more. */
  lemma CopiedFurther<T>(before: seq<T>, middle: seq<T>, after: seq<T>, to: seq<nat>, from: seq<nat>, n: nat, m: nat)
    requires Copied(before, middle, to, from, n) && n + m <= |to| && n + m <= |from|
    requires Copied(middle, after, to[n..], from[n..], m)
    requires forall i, j :: 0 <= i < j < |to| ==> to[i] != to[j]
    requires forall i, j :: 0 <= i < |to| && 0 <= j < |from| ==> to[i] != from[j]
    ensures Copied(before, after, to, from, n + m)
  {
    forall i | 0 <= i < n + m
      ensures to[i] < |after| && from[i] < |before| && after[to[i]] == before[from[i]]
    {
      if i < n {
        forall j | 0 <= j < m
          ensures to[n..][..m][j] != to[i]
        {
        }
        assert to[i] !in to[n..][..m];
      } else {
        assert to[n..][i - n] == to[i] && from[n..][i - n] == from[i];
        assert from[i] !in to[..n];
      }
    }
    forall a | 0 <= a < |after| && a !in to[..n + m]
      ensures after[a] == before[a]
    {
      assert forall k :: 0 <= k < n ==> to[..n][k] == to[..n + m][k];
      assert forall k :: 0 <= k < m ==> to[n..][..m][k] == to[..n + m][n + k];
    }
  }

  method BufferSize(buffers: seq<Buffer>) returns (total: nat)
    ensures total == |Span(buffers)|
  {
    total := 0;
    for i := 0 to |buffers|
      invariant total + |Tail(buffers, i)| == |Span(buffers)|
    {
      total := total + buffers[i].size;
    }
  }

  /** Two buffers without a common address. */
  predicate Apart(a: Buffer, b: Buffer) {
    a.size == 0 || b.size == 0 || a.data + a.size <= b.data || b.data + b.size <= a.data
  }

  lemma ApartOrCommonAddress(a: Buffer, b: Buffer)
    ensures Apart(a, b)
            || exists i, j :: 0 <= i < a.size && 0 <= j < b.size && a.Addresses()[i] == b.Addresses()[j]
  {
    if !Apart(a, b) {
      var common := if a.data < b.data then b.data else a.data;
      assert a.Addresses()[common - a.data] == b.Addresses()[common - b.data];
    }
  }

  /** A copied address range, in terms of the two buffers' addresses. */
  lemma RangeIsCopied<T>(before: seq<T>, after: seq<T>, t: Buffer, s: Buffer, n: nat)
    requires |after| == |before| && n <= t.size && n <= s.size
    requires t.data + n <= |before| && s.data + n <= |before|
    requires forall a :: t.data <= a < t.data + n ==> after[a] == before[a + s.data - t.data]
    requires forall a :: 0 <= a < |before| && !(t.data <= a < t.data + n) ==> after[a] == before[a]
    ensures Copied(before, after, t.Addresses(), s.Addresses(), n)
  {
    forall i | 0 <= i < n
      ensures after[t.Addresses()[i]] == before[s.Addresses()[i]]
    {
      assert after[t.data + i] == before[t.data + i + s.data - t.data];
    }
    forall a | t.data <= a < t.data + n
      ensures a in t.Addresses()[..n]
    {
      assert t.Addresses()[..n][a - t.data] == a;
    }
  }

  /** memcpy of the smaller size. */
  method BufferCopy1<T>(mem: array<T>, target: Buffer, source: Buffer) returns (n: nat)
    requires target.data + target.size <= mem.Length && source.data + source.size <= mem.Length
    requires Apart(target, source)
    modifies mem
    ensures n == Min(target.size, source.size)
    ensures Copied(old(mem[..]), mem[..], target.Addresses(), source.Addresses(), n)
  {
    n := if target.size < source.size then target.size else source.size;
    for i := 0 to n
      invariant forall a :: target.data <= a < target.data + i ==> mem[a] == old(mem[a + source.data - target.data])
      invariant forall a :: 0 <= a < mem.Length && !(target.data <= a < target.data + i) ==> mem[a] == old(mem[a])
    {
      mem[target.data + i] := mem[source.data + i];
    }
    RangeIsCopied(old(mem[..]), mem[..], target, source, n);
  }

  /** After `done` bytes of a span, buffer i is next, from `offset` on. */
  predicate Rest(buffers: seq<Buffer>, i: nat, offset: nat, done: nat) {
    && i <= |buffers| && done <= |Span(buffers)|
    && (if i < |buffers| then offset <= buffers[i].size else offset == 0)
    && offset <= |Tail(buffers, i)|
    && Span(buffers)[done..] == Tail(buffers, i)[offset..]
  }

  /** The addresses of the next buffer come next in the span. */
  lemma NextInSpan(buffers: seq<Buffer>, i: nat, offset: nat, done: nat)
    requires Rest(buffers, i, offset, done) && i < |buffers|
    ensures var b := buffers[i].Plus(offset);
            done + b.size <= |Span(buffers)| && Span(buffers)[done..done + b.size] == b.Addresses()
  {
    var b := buffers[i].Plus(offset);
    assert Tail(buffers, i)[offset..][..b.size] == b.Addresses();
    assert Span(buffers)[done..][..b.size] == Span(buffers)[done..done + b.size];
  }

  /** Consuming n bytes of the next buffer moves past it exactly when it is used up. */
  lemma RestAdvances(buffers: seq<Buffer>, i: nat, offset: nat, done: nat, n: nat)
    requires Rest(buffers, i, offset, done) && i < |buffers| && n <= buffers[i].Plus(offset).size
    ensures if n == buffers[i].Plus(offset).size then Rest(buffers, i + 1, 0, done + n)
            else Rest(buffers, i, offset + n, done + n)
  {
    NextInSpan(buffers, i, offset, done);
    assert Span(buffers)[done + n..] == Span(buffers)[done..][n..];
    assert Tail(buffers, i)[offset..][n..] == Tail(buffers, i)[offset + n..];
    if n == buffers[i].Plus(offset).size {
      assert Tail(buffers, i)[offset + n..] == Tail(buffers, i + 1);
    }
  }

  /** Nothing is left after the last buffer. */
  lemma RestEnds(buffers: seq<Buffer>, done: nat)
    requires Rest(buffers, |buffers|, 0, done)
    ensures done == |Span(buffers)|
  {
  }

  predicate ReadyToCopy<T>(mem: array<T>, target: seq<Buffer>, source: seq<Buffer>) {
    Within(target, mem.Length) && Within(source, mem.Length) && Disjoint(target, source)
  }

  /** Stretches of the two spans may be copied with memcpy. */
  lemma StretchesApart(size: nat, target: seq<Buffer>, source: seq<Buffer>, done: nat, t: Buffer, s: Buffer)
    requires Within(target, size) && Within(source, size) && Disjoint(target, source)
    requires done + t.size <= |Span(target)| && Span(target)[done..done + t.size] == t.Addresses()
    requires done + s.size <= |Span(source)| && Span(source)[done..done + s.size] == s.Addresses()
    ensures Apart(t, s)
    ensures 0 < t.size ==> t.data + t.size <= size
    ensures 0 < s.size ==> s.data + s.size <= size
  {
    forall i | 0 <= i < t.size
      ensures t.Addresses()[i] == Span(target)[done + i]
    {
    }
    forall j | 0 <= j < s.size
      ensures s.Addresses()[j] == Span(source)[done + j]
    {
    }
    ApartOrCommonAddress(t, s);
    if 0 < t.size {
      assert t.Addresses()[t.size - 1] < size;
    }
    if 0 < s.size {
      assert s.Addresses()[s.size - 1] < size;
    }
  }

  lemma StretchPrefix(span: seq<nat>, done: nat, b: Buffer, n: nat)
    requires done + b.size <= |span| && span[done..done + b.size] == b.Addresses() && n <= b.size
    ensures n <= |span[done..]| && span[done..][..n] == b.Addresses()[..n]
  {
    assert span[done..][..n] == span[done..done + b.size][..n];
  }

  lemma SamePrefixCopied<T>(before: seq<T>, after: seq<T>, t: seq<nat>, s: seq<nat>, to: seq<nat>, from: seq<nat>,
                            n: nat)
    requires Copied(before, after, t, s, n) && n <= |to| && n <= |from|
    requires t[..n] == to[..n] && s[..n] == from[..n]
    ensures Copied(before, after, to, from, n)
  {
    forall i | 0 <= i < n
      ensures to[i] == t[i] && from[i] == s[i]
    {
      assert to[i] == to[..n][i] && t[i] == t[..n][i] && from[i] == from[..n][i] && s[i] == s[..n][i];
    }
  }

  /** One memcpy inside a longer copy. */
  method CopyStretch<T>(mem: array<T>, ghost before: seq<T>, ghost target: seq<Buffer>, ghost source: seq<Buffer>,
                        ghost done: nat, t: Buffer, s: Buffer) returns (n: nat)
    requires ReadyToCopy(mem, target, source)
    requires done + t.size <= |Span(target)| && Span(target)[done..done + t.size] == t.Addresses()
    requires done + s.size <= |Span(source)| && Span(source)[done..done + s.size] == s.Addresses()
    requires Copied(before, mem[..], Span(target), Span(source), done)
    modifies mem
    ensures n == Min(t.size, s.size)
    ensures Copied(before, mem[..], Span(target), Span(source), done + n)
  {
    StretchesApart(mem.Length, target, source, done, t, s);
    ghost var middle := mem[..];
    n := 0;
    if t.size > 0 && s.size > 0 {
      n := BufferCopy1(mem, t, s);
      StretchPrefix(Span(target), done, t, n);
      StretchPrefix(Span(source), done, s, n);
      SamePrefixCopied(middle, mem[..], t.Addresses(), s.Addresses(), Span(target)[done..], Span(source)[done..], n);
      CopiedFurther(before, middle, mem[..], Span(target), Span(source), done, n);
    }
  }

  lemma LimitedStretch(span: seq<nat>, done: nat, b: Buffer, max: nat)
    requires done + b.size <= |span| && span[done..done + b.size] == b.Addresses()
    ensures var l := b.Limit(max); span[done..done + l.size] == l.Addresses()
  {
    var l := b.Limit(max);
    assert span[done..done + l.size] == span[done..done + b.size][..l.size];
  }

  /** How far a many-to-many copy has come. */
  datatype Place = Place(i: nat, targetOffset: nat, j: nat, sourceOffset: nat, total: nat)

  predicate InStep(target: seq<Buffer>, source: seq<Buffer>, p: Place) {
    Rest(target, p.i, p.targetOffset, p.total) && Rest(source, p.j, p.sourceOffset, p.total)
  }

  predicate CopiedTo<T(==)>(before: seq<T>, now: seq<T>, target: seq<Buffer>, source: seq<Buffer>, p: Place) {
    InStep(target, source, p) && Copied(before, now, Span(target), Span(source), p.total)
  }

  /** The place after n more bytes: past each buffer that is used up. */
  function Onward(target: seq<Buffer>, source: seq<Buffer>, p: Place, n: nat): Place
    requires p.i < |target| && p.j < |source|
  {
    var targetDone := n == target[p.i].Plus(p.targetOffset).size;
    var sourceDone := n == source[p.j].Plus(p.sourceOffset).size;
    Place(if targetDone then p.i + 1 else p.i, if targetDone then 0 else p.targetOffset + n,
          if sourceDone then p.j + 1 else p.j, if sourceDone then 0 else p.sourceOffset + n,
          p.total + n)
  }

  lemma OnwardStaysInStep(target: seq<Buffer>, source: seq<Buffer>, p: Place, n: nat)
    requires InStep(target, source, p) && p.i < |target| && p.j < |source|
    requires n <= target[p.i].Plus(p.targetOffset).size && n <= source[p.j].Plus(p.sourceOffset).size
    ensures InStep(target, source, Onward(target, source, p, n))
  {
    RestAdvances(target, p.i, p.targetOffset, p.total, n);
    RestAdvances(source, p.j, p.sourceOffset, p.total, n);
  }

  /** The next stretches of both spans, the source one limited. */
  lemma NextStretches(target: seq<Buffer>, source: seq<Buffer>, p: Place, max: nat)
    requires InStep(target, source, p) && p.i < |target| && p.j < |source|
    ensures var t, s := target[p.i].Plus(p.targetOffset), source[p.j].Plus(p.sourceOffset).Limit(max);
            && p.total + t.size <= |Span(target)| && Span(target)[p.total..p.total + t.size] == t.Addresses()
            && p.total + s.size <= |Span(source)| && Span(source)[p.total..p.total + s.size] == s.Addresses()
  {
    NextInSpan(target, p.i, p.targetOffset, p.total);
    NextInSpan(source, p.j, p.sourceOffset, p.total);
    LimitedStretch(Span(source), p.total, source[p.j].Plus(p.sourceOffset), max);
  }

  /** The memcpy of one round of the many-to-many loops, of at most `max` bytes. */
  method CopyRound<T>(mem: array<T>, ghost before: seq<T>, target: seq<Buffer>, source: seq<Buffer>, p: Place, max: nat)
    returns (copied: nat)
    requires ReadyToCopy(mem, target, source) && p.i < |target| && p.j < |source|
    requires CopiedTo(before, mem[..], target, source, p)
    modifies mem
    ensures copied == Min(Min(target[p.i].Plus(p.targetOffset).size, source[p.j].Plus(p.sourceOffset).size), max)
    ensures CopiedTo(before, mem[..], target, source, Onward(target, source, p, copied))
  {
    NextStretches(target, source, p, max);
    copied := CopyStretch(mem, before, target, source, p.total, target[p.i].Plus(p.targetOffset),
                          source[p.j].Plus(p.sourceOffset).Limit(max));
    OnwardStaysInStep(target, source, p, copied);
  }

  /** Moving past the buffers that are used up. */
  method MoveOn(target: seq<Buffer>, source: seq<Buffer>, p: Place, copied: nat) returns (q: Place)
    requires p.i < |target| && p.j < |source|
    ensures q == Onward(target, source, p, copied)
  {
    var i, targetOffset, j, sourceOffset := p.i, p.targetOffset, p.j, p.sourceOffset;
    if copied == target[p.i].Plus(p.targetOffset).size {
      i, targetOffset := i + 1, 0;
    } else {
      targetOffset := targetOffset + copied;
    }
    if copied == source[p.j].Plus(p.sourceOffset).size {
      j, sourceOffset := j + 1, 0;
    } else {
      sourceOffset := sourceOffset + copied;
    }
    q := Place(i, targetOffset, j, sourceOffset, p.total + copied);
  }

  lemma CopyEnds<T>(before: seq<T>, now: seq<T>, target: seq<Buffer>, source: seq<Buffer>, p: Place)
    requires CopiedTo(before, now, target, source, p) && (p.i == |target| || p.j == |source|)
    ensures p.total == Min(|Span(target)|, |Span(source)|)
  {
    if p.i == |target| {
      RestEnds(target, p.total);
    }
    if p.j == |source| {
      RestEnds(source, p.total);
    }
  }

  /** buffer_copy from many buffers to many. */
  method CopyManyMany<T>(mem: array<T>, target: seq<Buffer>, source: seq<Buffer>) returns (total: nat)
    requires ReadyToCopy(mem, target, source)
    modifies mem
    ensures total == Min(|Span(target)|, |Span(source)|)
    ensures Copied(old(mem[..]), mem[..], Span(target), Span(source), total)
  {
    var p := Place(0, 0, 0, 0, 0);
    while p.i != |target| && p.j != |source|
      invariant CopiedTo(old(mem[..]), mem[..], target, source, p)
      decreases |target| - p.i + |source| - p.j
    {
      var copied := CopyRound(mem, old(mem[..]), target, source, p, source[p.j].size);
      p := MoveOn(target, source, p, copied);
    }
    CopyEnds(old(mem[..]), mem[..], target, source, p);
    total := p.total;
  }

  /** The same with a bound: ends early when the bound is reached. */
  method CopyManyManyMax<T>(mem: array<T>, target: seq<Buffer>, source: seq<Buffer>, max: nat) returns (total: nat)
    requires ReadyToCopy(mem, target, source)
    modifies mem
    ensures total == Min(Min(|Span(target)|, |Span(source)|), max)
    ensures Copied(old(mem[..]), mem[..], Span(target), Span(source), total)
  {
    var p := Place(0, 0, 0, 0, 0);
    while p.total != max && p.i != |target| && p.j != |source|
      invariant p.total <= max && CopiedTo(old(mem[..]), mem[..], target, source, p)
      decreases |target| - p.i + |source| - p.j + max - p.total
    {
      var copied := CopyRound(mem, old(mem[..]), target, source, p, max - p.total);
      p := MoveOn(target, source, p, copied);
    }
    if p.i == |target| || p.j == |source| {
      CopyEnds(old(mem[..]), mem[..], target, source, p);
    }
    total := p.total;
  }

  lemma SpanOfOne(b: Buffer)
    ensures Span([b]) == b.Addresses()
  {
    assert Tail([b], 1) == [];
    assert b.Addresses() + [] == b.Addresses();
  }

  /** buffer_copy between single buffers, without and with a bound. */
  method CopyOneOne<T>(mem: array<T>, target: Buffer, source: Buffer) returns (total: nat)
    requires ReadyToCopy(mem, [target], [source])
    modifies mem
    ensures total == Min(target.size, source.size)
    ensures Copied(old(mem[..]), mem[..], Span([target]), Span([source]), total)
  {
    SpanOfOne(target);
    SpanOfOne(source);
    total := CopyStretch(mem, mem[..], [target], [source], 0, target, source);
  }

  method CopyOneOneMax<T>(mem: array<T>, target: Buffer, source: Buffer, max: nat) returns (total: nat)
    requires ReadyToCopy(mem, [target], [source])
    modifies mem
    ensures total == Min(Min(target.size, source.size), max)
    ensures Copied(old(mem[..]), mem[..], Span([target]), Span([source]), total)
  {
    SpanOfOne(target);
    SpanOfOne(source);
    LimitedStretch(Span([source]), 0, source, max);
    total := CopyStretch(mem, mem[..], [target], [source], 0, target, source.Limit(max));
  }

  /** A single buffer of which `done` bytes are used: what is left, and the whole buffers of the other side. */
  predicate LeftOver(one: Buffer, rest: Buffer, many: seq<Buffer>, i: nat, done: nat) {
    && done <= one.size && rest == one.Plus(done)
    && i <= |many| && done <= |Span(many)|
    && (rest.size == 0 || Rest(many, i, 0, done))
  }

  lemma LeftOverAdvances(one: Buffer, rest: Buffer, many: seq<Buffer>, i: nat, done: nat, n: nat)
    requires LeftOver(one, rest, many, i, done) && rest.size != 0 && i < |many| && n == Min(rest.size, many[i].size)
    ensures LeftOver(one, rest.Plus(n), many, i + 1, done + n)
  {
    assert many[i].Plus(0) == many[i];
    NextInSpan(many, i, 0, done);
    RestAdvances(many, i, 0, done, n);
  }

  lemma LeftOverNext(one: Buffer, max: nat, rest: Buffer, many: seq<Buffer>, i: nat, done: nat)
    requires LeftOver(one.Limit(max), rest, many, i, done) && rest.size != 0 && i < |many|
    ensures done + rest.size <= |Span([one])| && Span([one])[done..done + rest.size] == rest.Addresses()
    ensures done + many[i].size <= |Span(many)| && Span(many)[done..done + many[i].size] == many[i].Addresses()
  {
    SpanOfOne(one);
    assert many[i].Plus(0) == many[i];
    NextInSpan(many, i, 0, done);
  }

  lemma LeftOverEnds(one: Buffer, rest: Buffer, many: seq<Buffer>, i: nat, done: nat)
    requires LeftOver(one, rest, many, i, done) && (rest.size == 0 || i == |many|)
    ensures done == Min(one.size, |Span(many)|)
  {
    if rest.size != 0 {
      RestEnds(many, done);
    }
  }

  /** buffer_copy into one buffer from many; the remaining target shrinks from the front. */
  method CopyOneMany<T>(mem: array<T>, target: Buffer, source: seq<Buffer>, max: nat) returns (total: nat)
    requires ReadyToCopy(mem, [target], source)
    modifies mem
    ensures total == Min(Min(target.size, |Span(source)|), max)
    ensures Copied(old(mem[..]), mem[..], Span([target]), Span(source), total)
  {
    total := 0;
    SpanOfOne(target);
    var targetBuffer := target.Limit(max);
    var j := 0;
    while targetBuffer.size != 0 && j != |source|
      invariant LeftOver(target.Limit(max), targetBuffer, source, j, total)
      invariant Copied(old(mem[..]), mem[..], Span([target]), Span(source), total)
      decreases |source| - j
    {
      LeftOverNext(target, max, targetBuffer, source, j, total);
      var copied := CopyStretch(mem, old(mem[..]), [target], source, total, targetBuffer, source[j]);
      LeftOverAdvances(target.Limit(max), targetBuffer, source, j, total, copied);
      total := total + copied;
      targetBuffer := targetBuffer.Plus(copied);
      j := j + 1;
    }
    LeftOverEnds(target.Limit(max), targetBuffer, source, j, total);
  }

  /** buffer_copy from one buffer into many. */
  method CopyManyOne<T>(mem: array<T>, target: seq<Buffer>, source: Buffer, max: nat) returns (total: nat)
    requires ReadyToCopy(mem, target, [source])
    modifies mem
    ensures total == Min(Min(|Span(target)|, source.size), max)
    ensures Copied(old(mem[..]), mem[..], Span(target), Span([source]), total)
  {
    total := 0;
    SpanOfOne(source);
    var sourceBuffer := source.Limit(max);
    var i := 0;
    while sourceBuffer.size != 0 && i != |target|
      invariant LeftOver(source.Limit(max), sourceBuffer, target, i, total)
      invariant Copied(old(mem[..]), mem[..], Span(target), Span([source]), total)
      decreases |target| - i
    {
      LeftOverNext(source, max, sourceBuffer, target, i, total);
      var copied := CopyStretch(mem, old(mem[..]), target, [source], total, target[i], sourceBuffer);
      LeftOverAdvances(source.Limit(max), sourceBuffer, target, i, total, copied);
      total := total + copied;
      sourceBuffer := sourceBuffer.Plus(copied);
      i := i + 1;
    }
    LeftOverEnds(source.Limit(max), sourceBuffer, target, i, total);
  }

  /** The bytes at a span of addresses, flattened. */
  function Gather<T>(mem: seq<T>, span: seq<nat>): seq<T>
    requires forall i :: 0 <= i < |span| ==> span[i] < |mem|
  {
    seq(|span|, i requires 0 <= i < |span| => mem[span[i]])
  }

  /** In terms of flat byte strings: the target starts with the source's prefix and keeps the rest of its bytes, and
      the source is what it was. */
  lemma CopyIsFlatPrefix<T>(before: seq<T>, after: seq<T>, target: seq<Buffer>, source: seq<Buffer>, n: nat)
    requires Within(target, |before|) && Within(source, |before|) && Disjoint(target, source)
    requires Copied(before, after, Span(target), Span(source), n)
    ensures Gather(after, Span(target)) == Gather(before, Span(source))[..n] + Gather(before, Span(target))[n..]
    ensures Gather(after, Span(source)) == Gather(before, Span(source))
  {
    var to, from := Span(target), Span(source);
    forall i | n <= i < |to|
      ensures to[i] !in to[..n]
    {
    }
    forall j | 0 <= j < |from|
      ensures from[j] !in to[..n]
    {
    }
  }
}
