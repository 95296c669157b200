/** The job body of the room tick: one pass counts the bytes a member is owed, a second pass copies them into a buffer
    of exactly that many bytes. */
module BufferAssembly {
  import opened Integers
  import opened RelayTypes

  /** What one packet adds. */
  lemma OwedStep(batch: seq<Packet>, identifier: int, i: nat)
    requires i < |batch|
    ensures Owed(batch[..i + 1], identifier)
         == Owed(batch[..i], identifier) + if batch[i].identifier == identifier then [] else Payload(batch[i])
  {
    assert batch[..i + 1][..i] == batch[..i];
  }

  /** A shorter batch is owed a prefix. */
  lemma {:induction false} OwedPrefix(batch: seq<Packet>, identifier: int, i: nat)
    requires i <= |batch|
    ensures Owed(batch[..i], identifier) <= Owed(batch, identifier)
  {
    assert batch == batch[..i] + batch[i..];
    OwedConcat(batch[..i], batch[i..], identifier);
  }

  /** The counting pass. `fits` is false exactly where the int counter would overflow; the total then does not matter
      because the C++ behaviour is undefined. */
  method CountBytes(packets: seq<Packet>, identifier: int) returns (byteCount: nat, fits: bool)
    ensures fits <==> |Owed(packets, identifier)| <= INT_MAX
    ensures fits ==> byteCount == |Owed(packets, identifier)|
  {
    byteCount := 0;
    for i := 0 to |packets|
      invariant byteCount == |Owed(packets[..i], identifier)| <= INT_MAX
    {
      OwedStep(packets, identifier, i);
      if packets[i].identifier == identifier {
        continue;
      }
      if byteCount + packets[i].length > INT_MAX {
        OwedPrefix(packets, identifier, i + 1);
        return byteCount, false;
      }
      byteCount := byteCount + packets[i].length;
    }
    assert packets[..|packets|] == packets;
    fits := true;
  }

  /** std::memcpy of the first `length` bytes of `source`; the precondition is that it stays inside both. */
  method Memcpy(bytes: array<char>, at: nat, source: string, length: nat)
    requires at + length <= bytes.Length && length <= |source|
    modifies bytes
    ensures bytes[..at] == old(bytes[..at])
    ensures bytes[at..at + length] == source[..length]
    ensures bytes[at + length..] == old(bytes[at + length..])
  {
    for k := 0 to length
      invariant bytes[..at] == old(bytes[..at])
      invariant bytes[at..at + k] == source[..k]
      invariant bytes[at + length..] == old(bytes[at + length..])
    {
      bytes[at + k] := source[k];
      assert bytes[at..at + k + 1] == bytes[at..at + k] + [source[k]];
    }
  }

  /** Both passes: what is sent is what the member is owed, and the second pass ends where the first one counted. */
  method Assemble(packets: seq<Packet>, identifier: int) returns (bytes: array<char>, currentIndex: nat, fits: bool)
    ensures fits <==> |Owed(packets, identifier)| <= INT_MAX
    ensures fits ==> currentIndex == bytes.Length && bytes[..] == Owed(packets, identifier)
  {
    var byteCount;
    byteCount, fits := CountBytes(packets, identifier);
    currentIndex := 0;
    if !fits {
      bytes := new char[0];
      return;
    }
    bytes := new char[byteCount];
    for i := 0 to |packets|
      invariant currentIndex <= bytes.Length
      invariant bytes[..currentIndex] == Owed(packets[..i], identifier)
    {
      OwedStep(packets, identifier, i);
      if packets[i].identifier == identifier {
        continue;
      }
      OwedPrefix(packets, identifier, i + 1);
      ghost var done := bytes[..currentIndex];
      var next := currentIndex + packets[i].length;
      Memcpy(bytes, currentIndex, packets[i].bytes, packets[i].length);
      assert bytes[..next] == done + bytes[currentIndex..next];
      currentIndex := next;
    }
    assert packets[..|packets|] == packets;
  }
}
