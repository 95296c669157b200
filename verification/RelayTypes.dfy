/** Values shared by the relay's components. A C++ char (one byte) is a Dafny char. */
module RelayTypes {
  datatype Option<+T> = None | Some(value: T)

  const HASH_LENGTH := 4
  const MAX_PACKET_SIZE := 16384
  const DEFAULT_PLAYER_LIMIT := 80

  /** A room key, std::array<char, HASH_LENGTH>. */
  type Key = string

  const EMPTY_KEY: Key := ['\0', '\0', '\0', '\0']

  /** ReceivedPacket: a fixed byte array of which the first `length` bytes count. */
  datatype RawPacket = RawPacket(identifier: int, bytes: string, length: int)

  type Packet = p: RawPacket | |p.bytes| == MAX_PACKET_SIZE && 0 <= p.length <= MAX_PACKET_SIZE
    witness RawPacket(0, seq(MAX_PACKET_SIZE, _ => '\0'), 0)

  function Payload(p: Packet): string {
    p.bytes[..p.length]
  }

  /** ReceivedConnection: an identifier and the websocket handle it was enrolled with. */
  datatype Connection = Connection(identifier: int, handle: int)

  /** What a member is owed from a batch: the payloads of everybody else's packets, in order. */
  function Owed(batch: seq<Packet>, identifier: int): string {
    if batch == [] then []
    else
      var p := batch[|batch| - 1];
      Owed(batch[..|batch| - 1], identifier) + (if p.identifier == identifier then [] else Payload(p))
  }

  /** The flattened payloads of the packets that are not the member's own, filtered first. */
  function Foreign(batch: seq<Packet>, identifier: int): seq<Packet> {
    if batch == [] then []
    else (if batch[0].identifier == identifier then [] else [batch[0]]) + Foreign(batch[1..], identifier)
  }

  function Flatten(packets: seq<Packet>): string {
    if packets == [] then [] else Payload(packets[0]) + Flatten(packets[1..])
  }

  lemma {:induction false} OwedConcat(a: seq<Packet>, b: seq<Packet>, identifier: int)
    ensures Owed(a + b, identifier) == Owed(a, identifier) + Owed(b, identifier)
  {
    if b == [] {
      assert a + b == a;
    } else {
      var front := b[..|b| - 1];
      assert (a + b)[..|a + b| - 1] == a + front;
      OwedConcat(a, front, identifier);
    }
  }

  lemma OwedOfOne(p: Packet, identifier: int)
    ensures Owed([p], identifier) == if p.identifier == identifier then [] else Payload(p)
  {
    assert [p][..0] == [];
  }

  lemma FlattenFirst(p: Packet, rest: seq<Packet>)
    ensures Flatten([p] + rest) == Payload(p) + Flatten(rest)
  {
    assert ([p] + rest)[1..] == rest;
  }

  /** The accumulating form agrees with filter-then-flatten. */
  lemma {:induction false} OwedIsFlattenedForeign(batch: seq<Packet>, identifier: int)
    ensures Owed(batch, identifier) == Flatten(Foreign(batch, identifier))
  {
    if batch == [] {
    } else {
      var p, rest := batch[0], Foreign(batch[1..], identifier);
      OwedIsFlattenedForeign(batch[1..], identifier);
      assert Owed(batch, identifier) == Owed([p], identifier) + Owed(batch[1..], identifier) by {
        assert batch == [p] + batch[1..];
        OwedConcat([p], batch[1..], identifier);
      }
      OwedOfOne(p, identifier);
      FlattenFirst(p, rest);
      assert [] + rest == rest;
    }
  }
}
