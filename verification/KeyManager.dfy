/** The table of access keys: rebuilt from the key files in directory order, searched front to back. */
module KeyManagement {
  import opened RelayTypes
  import opened KeyFile

  /** The table that refreshKeys builds from the raw file texts in directory order. */
  function Table(texts: seq<string>): seq<AccessKeys> {
    if texts == [] then []
    else
      var entry := ParseFile(StripNewlines(texts[|texts| - 1]));
      Table(texts[..|texts| - 1]) + (if entry.Some? then [entry.value] else [])
  }

  predicate Opens(entry: AccessKeys, key: Key) {
    entry.moonKey == key || entry.playerKey == key
  }

  predicate Known(table: seq<AccessKeys>, key: Key) {
    exists i :: 0 <= i < |table| && Opens(table[i], key)
  }

  /** The entry a front-to-back search stops at. */
  function Find(table: seq<AccessKeys>, key: Key): (r: Option<AccessKeys>)
    ensures r.Some? <==> Known(table, key)
    ensures r.Some? ==> r.value in table && Opens(r.value, key)
  {
    if table == [] then None
    else if Opens(table[0], key) then
      assert Opens(table[0], key);
      Some(table[0])
    else
      assert forall i :: 1 <= i < |table| ==> table[i] == table[1..][i - 1];
      Find(table[1..], key)
  }

  function RoomOf(table: seq<AccessKeys>, key: Key): Key {
    if Find(table, key).Some? then Find(table, key).value.moonKey else EMPTY_KEY
  }

  function LimitOf(table: seq<AccessKeys>, key: Key): int {
    if Find(table, key).Some? then Find(table, key).value.playerLimit else 0
  }

  lemma {:induction false} FindIsFirst(table: seq<AccessKeys>, key: Key, i: nat)
    requires i <= |table| && forall k :: 0 <= k < i ==> !Opens(table[k], key)
    requires i < |table| ==> Opens(table[i], key)
    ensures Find(table, key) == if i < |table| then Some(table[i]) else None
  {
    if i == 0 {
    } else {
      FindIsFirst(table[1..], key, i - 1);
    }
  }

  class KeyManager {
    var keys: seq<AccessKeys>

    constructor (texts: seq<string>)
      ensures keys == Table(texts)
    {
      keys := [];
      new;
      RefreshKeys(texts);
    }

    /** Builds a fresh vector in a loop and swaps it in. */
    method RefreshKeys(texts: seq<string>)
      modifies this
      ensures keys == Table(texts)
    {
      var rebuilt: seq<AccessKeys> := [];
      for i := 0 to |texts|
        invariant rebuilt == Table(texts[..i])
      {
        var contents := StripNewlines(texts[i]);
        assert texts[..i + 1][..i] == texts[..i];
        if |contents| < HASH_LENGTH * 2 + 1 {
          continue;
        }
        var moonKey, playerKey: Key := [], [];
        for j := 0 to HASH_LENGTH
          invariant moonKey == contents[..j]
          invariant playerKey == contents[HASH_LENGTH + 1..HASH_LENGTH + 1 + j]
        {
          moonKey := moonKey + [contents[j]];
          playerKey := playerKey + [contents[j + HASH_LENGTH + 1]];
        }
        var playerLimit := DEFAULT_PLAYER_LIMIT;
        if |contents| > HASH_LENGTH * 2 + 1 {
          playerLimit := ParseLimit(contents[HASH_LENGTH * 2 + 2..]);
        }
        rebuilt := rebuilt + [AccessKeys(moonKey, playerKey, playerLimit)];
      }
      assert texts[..|texts|] == texts;
      keys := rebuilt;
    }

    method Search(key: Key) returns (i: nat)
      ensures i <= |keys|
      ensures i < |keys| ==> Opens(keys[i], key) && Find(keys, key) == Some(keys[i])
      ensures i == |keys| ==> Find(keys, key) == None
    {
      i := 0;
      while i < |keys| && !Opens(keys[i], key)
        invariant i <= |keys|
        invariant forall k :: 0 <= k < i ==> !Opens(keys[k], key)
      {
        i := i + 1;
      }
      FindIsFirst(keys, key, i);
    }

    method GetRoom(key: Key) returns (room: Key)
      ensures room == RoomOf(keys, key)
    {
      var i := Search(key);
      room := if i < |keys| then keys[i].moonKey else EMPTY_KEY;
    }

    method GetPlayerLimit(key: Key) returns (limit: int)
      ensures limit == LimitOf(keys, key)
    {
      var i := Search(key);
      limit := if i < |keys| then keys[i].playerLimit else 0;
    }

    method HasKey(key: Key) returns (known: bool)
      ensures known <==> Known(keys, key)
    {
      var i := Search(key);
      known := i < |keys|;
    }
  }

  predicate ShareNoKey(a: AccessKeys, b: AccessKeys) {
    && a.moonKey != b.moonKey && a.moonKey != b.playerKey
    && a.playerKey != b.moonKey && a.playerKey != b.playerKey
  }

  /** No two entries share a key. */
  predicate DistinctKeys(table: seq<AccessKeys>) {
    forall i, j :: 0 <= i < j < |table| ==> ShareNoKey(table[i], table[j])
  }

  /** With distinct keys the position of an entry does not matter. */
  lemma DistinctKeysAnyOrder(table: seq<AccessKeys>, entry: AccessKeys)
    requires DistinctKeys(table) && entry in table
    ensures RoomOf(table, entry.moonKey) == entry.moonKey && RoomOf(table, entry.playerKey) == entry.moonKey
    ensures LimitOf(table, entry.moonKey) == entry.playerLimit && LimitOf(table, entry.playerKey) == entry.playerLimit
  {
    OnlyEntryOpens(table, entry, entry.moonKey);
    OnlyEntryOpens(table, entry, entry.playerKey);
  }

  lemma OnlyEntryOpens(table: seq<AccessKeys>, entry: AccessKeys, key: Key)
    requires DistinctKeys(table) && entry in table && Opens(entry, key)
    ensures Find(table, key) == Some(entry)
  {
    var i :| 0 <= i < |table| && table[i] == entry;
    assert Opens(table[i], key);
    var found := Find(table, key).value;
    var j :| 0 <= j < |table| && table[j] == found;
    assert i == j || (i < j && ShareNoKey(table[i], table[j])) || (j < i && ShareNoKey(table[j], table[i]));
  }
}
