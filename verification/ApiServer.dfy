/** The key store behind APIServer: a map from id to file text, changed by /create, /delete and /limit one request
    at a time, and the lookups that the key table built from it supports. */
module ApiService {
  import opened Integers
  import opened RelayTypes
  import opened KeyFile
  import opened KeyManagement

  type Store = map<string, string>

  const MAX_ATTEMPTS := 1024

  predicate IsAlphanumeric(c: char) {
    IsDigit(c) || 'a' <= c <= 'z' || 'A' <= c <= 'Z'
  }

  /** The regular expression [0-9a-zA-Z]+. */
  predicate MatchesAlphanumeric(s: string) {
    s != [] && forall i :: 0 <= i < |s| ==> IsAlphanumeric(s[i])
  }

  /** What randomString(HASH_LENGTH) can return. */
  predicate RandomKey(key: Key) {
    |key| == HASH_LENGTH && MatchesAlphanumeric(key)
  }

  /** The path made from the id names a file of its own right in the key directory. /delete and /limit check more than
      this, /create checks nothing. */
  predicate PlainId(id: string) {
    forall i :: 0 <= i < |id| ==> id[i] != '/' && id[i] != '\0'
  }

  predicate StartsWith(s: string, prefix: string) {
    prefix <= s
  }

  /** The name of the file that the path "../keys/" + id + ".txt" reaches: leading parts that stay in the key
      directory do not matter. */
  function Name(id: string): string {
    if StartsWith(id, "./") then Name(id[2..])
    else if StartsWith(id, "/") then Name(id[1..])
    else if StartsWith(id, "../keys/") then Name(id[8..])
    else id
  }

  lemma PlainIsItsName(id: string)
    requires PlainId(id)
    ensures Name(id) == id
  {
    assert "./"[1] == '/' && "/"[0] == '/' && "../keys/"[2] == '/';
  }

  /** Leading parts that stay in the directory reach the file that the rest reaches. */
  lemma DetoursReachTheSameFile(id: string)
    ensures Name("./" + id) == Name("/" + id) == Name("../keys/" + id) == Name(id)
  {
    var here, root, back := "./" + id, "/" + id, "../keys/" + id;
    assert "./" <= here && here[2..] == id;
    assert "/" <= root && root[1..] == id && root[0] == '/' && "./"[0] == '.';
    assert "../keys/" <= back && back[8..] == id && back[0] == '.' && back[1] == '.' && "./"[1] == '/' == "/"[0];
  }

  /** The file lies outside the key directory. */
  predicate Escapes(name: string) {
    StartsWith(name, "../") && (PlainId(name[3..]) || Escapes(name[3..]))
  }

  /** The two kinds of ids whose files this model places. */
  predicate Placed(id: string) {
    PlainId(Name(id)) || Escapes(Name(id))
  }

  function Entry(text: string): Option<AccessKeys> {
    ParseFile(StripNewlines(text))
  }

  /** What the files of the key directory say; files too short to hold two keys say nothing. */
  function Entries(files: Store): map<string, AccessKeys> {
    map id | id in files && PlainId(id) && Entry(files[id]).Some? :: Entry(files[id]).value
  }

  /** All keys of a set of entries. */
  function KeysOf(entries: map<string, AccessKeys>): set<Key> {
    (set id | id in entries :: entries[id].moonKey) + (set id | id in entries :: entries[id].playerKey)
  }

  function StoreKeys(files: Store): set<Key> {
    KeysOf(Entries(files))
  }

  /** A listing of the key directory: every id whose file lies there once, in any order. */
  ghost predicate Lists(order: seq<string>, files: Store) {
    && (forall id :: id in order <==> id in files && PlainId(id))
    && (forall i, j :: 0 <= i < j < |order| ==> order[i] != order[j])
  }

  function Texts(order: seq<string>, files: Store): seq<string>
    requires forall id :: id in order ==> id in files
  {
    seq(|order|, i requires 0 <= i < |order| => files[order[i]])
  }

  /** The table reflects the store, for some listing of the directory. */
  ghost predicate Loaded(table: seq<AccessKeys>, files: Store) {
    exists order :: Lists(order, files) && table == Table(Texts(order, files))
  }

  /** The first of `tries` draws that is not taken. */
  function FirstFree(taken: set<Key>, draws: nat -> Key, start: nat, tries: nat): Option<nat>
    decreases tries
  {
    if tries == 0 then None
    else if draws(start) in taken then FirstFree(taken, draws, start + 1, tries - 1)
    else Some(start)
  }

  predicate AllTaken(taken: set<Key>, draws: nat -> Key, from: nat, to: nat) {
    forall n :: from <= n < to ==> draws(n) in taken
  }

  lemma {:induction false} FirstFreeIsFirst(taken: set<Key>, draws: nat -> Key, start: nat, tries: nat)
    ensures var r := FirstFree(taken, draws, start, tries);
            && (r.Some? ==> start <= r.value < start + tries && draws(r.value) !in taken)
            && AllTaken(taken, draws, start, if r.Some? then r.value else start + tries)
    decreases tries
  {
    if tries == 0 || draws(start) !in taken {
    } else {
      FirstFreeIsFirst(taken, draws, start + 1, tries - 1);
    }
  }

  /** The chosen keys are the first draws that are new to the store, the moon key also to the player key; when there
      is no pair, one of the two searches has spent all its attempts on taken keys. */
  lemma ChosenPairIsNew(taken: set<Key>, draws: nat -> Key)
    ensures match ChoosePair(taken, draws)
            case Some((moon, player)) =>
              && draws(moon) !in taken && draws(player) !in taken && draws(moon) != draws(player)
              && player < MAX_ATTEMPTS && player < moon <= player + MAX_ATTEMPTS
              && AllTaken(taken, draws, 0, player)
              && AllTaken(taken + {draws(player)}, draws, player + 1, moon)
            case None =>
              || AllTaken(taken, draws, 0, MAX_ATTEMPTS)
              || (exists player :: 0 <= player < MAX_ATTEMPTS && draws(player) !in taken
                    && AllTaken(taken + {draws(player)}, draws, player + 1, player + 1 + MAX_ATTEMPTS))
  {
    FirstFreeIsFirst(taken, draws, 0, MAX_ATTEMPTS);
    var player := FirstFree(taken, draws, 0, MAX_ATTEMPTS);
    if player.Some? {
      var avoid := taken + {draws(player.value)};
      FirstFreeIsFirst(avoid, draws, player.value + 1, MAX_ATTEMPTS);
    }
  }

  /** The key pair of /create as draw numbers: a player key, then a moon key from the following draws. */
  function ChoosePair(taken: set<Key>, draws: nat -> Key): Option<(nat, nat)> {
    var player := FirstFree(taken, draws, 0, MAX_ATTEMPTS);
    if player.None? then None
    else
      var moon := FirstFree(taken + {draws(player.value)}, draws, player.value + 1, MAX_ATTEMPTS);
      if moon.None? then None else Some((moon.value, player.value))
  }

  /** /create: nothing is written when no pair is found. */
  function Create(files: Store, id: string, limit: nat, draws: nat -> Key): Store {
    match ChoosePair(StoreKeys(files), draws)
    case None => files
    case Some((moon, player)) => files[Name(id) := Format(draws(moon), draws(player), limit)]
  }

  function Delete(files: Store, id: string): Store {
    if id in files && MatchesAlphanumeric(id) then files - {id} else files
  }

  function SetLimit(files: Store, id: string, limit: nat): Store {
    if id in files && MatchesAlphanumeric(id) && Relimit(StripNewlines(files[id]), limit).Some? then
      files[id := Relimit(StripNewlines(files[id]), limit).value]
    else files
  }

  datatype Status = Ok | BadRequest | ServerError

  /** The answer of /get: an empty object, the keys and limit, or the out_of_range that substr throws. */
  datatype GetAnswer = NoFile | Keys(entry: AccessKeys) | Thrown

  function LimitFrom(limitText: Option<string>): nat {
    if limitText.Some? then ParseLimit(limitText.value) else DEFAULT_PLAYER_LIMIT
  }

  lemma KnownAppend(table: seq<AccessKeys>, entry: AccessKeys, key: Key)
    ensures Known(table + [entry], key) <==> Known(table, key) || Opens(entry, key)
  {
    assert (table + [entry])[|table|] == entry;
    forall i | 0 <= i < |table|
      ensures (table + [entry])[i] == table[i]
    {
    }
  }

  predicate TextHasKey(text: string, key: Key) {
    Entry(text).Some? && Opens(Entry(text).value, key)
  }

  predicate SomeTextHasKey(texts: seq<string>, key: Key) {
    exists i :: 0 <= i < |texts| && TextHasKey(texts[i], key)
  }

  lemma SomeTextAppend(texts: seq<string>, last: string, key: Key)
    ensures SomeTextHasKey(texts + [last], key) <==> SomeTextHasKey(texts, key) || TextHasKey(last, key)
  {
    assert (texts + [last])[|texts|] == last;
    forall i | 0 <= i < |texts|
      ensures (texts + [last])[i] == texts[i]
    {
    }
  }

  lemma {:induction false} TableHasKey(texts: seq<string>, key: Key)
    ensures Known(Table(texts), key) <==> SomeTextHasKey(texts, key)
  {
    if texts == [] {
    } else {
      var front, last := texts[..|texts| - 1], texts[|texts| - 1];
      TableHasKey(front, key);
      assert texts == front + [last];
      SomeTextAppend(front, last, key);
      if Entry(last).Some? {
        KnownAppend(Table(front), Entry(last).value, key);
        assert Table(texts) == Table(front) + [Entry(last).value];
      } else {
        assert Table(front) + [] == Table(front);
      }
    }
  }

  /** Whether a key is taken does not depend on the order of the directory. */
  lemma KnownIsStoreKey(order: seq<string>, files: Store, key: Key)
    requires Lists(order, files)
    ensures Known(Table(Texts(order, files)), key) <==> key in StoreKeys(files)
  {
    var texts := Texts(order, files);
    TableHasKey(texts, key);
    if key in StoreKeys(files) {
      var id :| id in Entries(files) && Opens(Entries(files)[id], key);
      assert id in order;
      var i :| 0 <= i < |order| && order[i] == id;
      assert TextHasKey(texts[i], key);
    }
    if Known(Table(texts), key) {
      var i :| 0 <= i < |texts| && TextHasKey(texts[i], key);
      assert order[i] in order && order[i] in Entries(files);
    }
  }

  class ApiServer {
    var files: Store
    const keyManager: KeyManager

    constructor ()
      ensures files == map[] && Loaded(keyManager.keys, files)
    {
      files := map[];
      keyManager := new KeyManager([]);
      new;
      assert Lists([], files) && Texts([], files) == [];
    }

    /** The directory iterator: some order of the ids. */
    method ListDirectory() returns (order: seq<string>)
      ensures Lists(order, files)
    {
      order := [];
      var rest := set id | id in files && PlainId(id);
      while rest != {}
        invariant forall id :: id in rest ==> id in files && PlainId(id)
        invariant forall id :: id in order <==> id in files && PlainId(id) && id !in rest
        invariant forall i, j :: 0 <= i < j < |order| ==> order[i] != order[j]
      {
        var id :| id in rest;
        order := order + [id];
        rest := rest - {id};
      }
    }

    method Refresh()
      modifies keyManager
      ensures Loaded(keyManager.keys, files)
      ensures forall key :: Known(keyManager.keys, key) <==> key in StoreKeys(files)
    {
      var order := ListDirectory();
      keyManager.RefreshKeys(Texts(order, files));
      forall key
        ensures Known(Table(Texts(order, files)), key) <==> key in StoreKeys(files)
      {
        KnownIsStoreKey(order, files, key);
      }
    }

    /** One do-while loop of /create. `used` counts the draws before it. */
    method ChooseKey(draws: nat -> Key, used: nat, avoid: set<Key>, ghost stored: set<Key>) returns (r: Option<nat>)
      requires forall key :: Known(keyManager.keys, key) <==> key in stored
      ensures r == FirstFree(stored + avoid, draws, used, MAX_ATTEMPTS)
    {
      ghost var taken := stored + avoid;
      ghost var wanted := FirstFree(taken, draws, used, MAX_ATTEMPTS);
      var attempts := 0;
      while true
        invariant attempts <= MAX_ATTEMPTS
        invariant wanted == FirstFree(taken, draws, used + attempts, MAX_ATTEMPTS - attempts)
        decreases MAX_ATTEMPTS - attempts
      {
        var candidate := draws(used + attempts);
        attempts := attempts + 1;
        if attempts > MAX_ATTEMPTS {
          return None;
        }
        var known := keyManager.HasKey(candidate);
        assert known || candidate in avoid <==> candidate in taken;
        if !(known || candidate in avoid) {
          return Some(used + attempts - 1);
        }
      }
      r := None;
    }

    method ChoosePairOfKeys(draws: nat -> Key, ghost stored: set<Key>) returns (r: Option<(nat, nat)>)
      requires forall key :: Known(keyManager.keys, key) <==> key in stored
      ensures r == ChoosePair(stored, draws)
    {
      assert stored + {} == stored;
      var player := ChooseKey(draws, 0, {}, stored);
      if player.None? {
        return None;
      }
      var moon := ChooseKey(draws, player.value + 1, {draws(player.value)}, stored);
      if moon.None? {
        return None;
      }
      r := Some((moon.value, player.value));
    }

    /** Returns the pair that the response carries; None is the 500 of exhausted attempts. */
    method HandleCreate(id: string, limitText: Option<string>, draws: nat -> Key) returns (r: Option<AccessKeys>)
      modifies this, keyManager
      ensures files == Create(old(files), id, LimitFrom(limitText), draws)
      ensures Loaded(keyManager.keys, files)
      ensures match ChoosePair(StoreKeys(old(files)), draws)
              case None => r == None
              case Some((moon, player)) => r == Some(AccessKeys(draws(moon), draws(player), LimitFrom(limitText)))
      ensures r.Some? ==> match limitText
                          case None => r.value.playerLimit == DEFAULT_PLAYER_LIMIT
                          case Some(text) => r.value.playerLimit == ParseLimit(text)
    {
      Refresh();
      var pair := ChoosePairOfKeys(draws, StoreKeys(files));
      if pair.None? {
        return None;
      }
      var moonHash, playerHash := draws(pair.value.0), draws(pair.value.1);
      files := files[Name(id) := Format(moonHash, playerHash, LimitFrom(limitText))];
      Refresh();
      r := Some(AccessKeys(moonHash, playerHash, LimitFrom(limitText)));
    }

    method HandleDelete(id: string) returns (status: Status)
      modifies this
      ensures files == Delete(old(files), id)
      ensures status == Ok <==> id in old(files) && MatchesAlphanumeric(id)
      ensures status == ServerError <==> id !in old(files)
      ensures status == Ok ==> id !in files
      ensures status != Ok ==> files == old(files)
    {
      if id !in files {
        return ServerError;
      }
      if !MatchesAlphanumeric(id) {
        return BadRequest;
      }
      files := files - {id};
      status := Ok;
    }

    method HandleLimit(id: string, limitText: string) returns (status: Status)
      modifies this
      ensures files == SetLimit(old(files), id, ParseLimit(limitText))
      ensures status == BadRequest <==> id in old(files) && !MatchesAlphanumeric(id)
      ensures status == Ok <==> id in old(files) && MatchesAlphanumeric(id)
                                && Relimit(StripNewlines(old(files)[id]), ParseLimit(limitText)).Some?
      ensures status != Ok ==> files == old(files)
    {
      if id !in files {
        return ServerError;
      }
      if !MatchesAlphanumeric(id) {
        return BadRequest;
      }
      var contents := StripNewlines(files[id]);
      if |contents| < HASH_LENGTH + 1 {
        return ServerError;
      }
      var moonHash := Substring(contents, 0, HASH_LENGTH);
      var playerHash := Substring(contents, HASH_LENGTH + 1, HASH_LENGTH);
      files := files[id := Format(moonHash, playerHash, ParseLimit(limitText))];
      status := Ok;
    }

    /** The file is read without any check of the id; one shorter than a key and a character throws. */
    method HandleGet(id: string) returns (r: GetAnswer)
      modifies keyManager
      ensures Loaded(keyManager.keys, files)
      ensures r == NoFile <==> Name(id) !in files
      ensures r == Thrown <==> Name(id) in files && |StripNewlines(files[Name(id)])| < HASH_LENGTH + 1
      ensures r.Keys? ==> Name(id) in files && ParseForGet(StripNewlines(files[Name(id)])) == Some(r.entry)
    {
      Refresh();
      if Name(id) !in files {
        return NoFile;
      }
      var contents := StripNewlines(files[Name(id)]);
      if |contents| < HASH_LENGTH + 1 {
        return Thrown;
      }
      var moonHash := Substring(contents, 0, HASH_LENGTH);
      var playerHash := Substring(contents, HASH_LENGTH + 1, HASH_LENGTH);
      var limitText := Decimal(DEFAULT_PLAYER_LIMIT);
      if |contents| > HASH_LENGTH * 2 + 1 {
        limitText := contents[HASH_LENGTH * 2 + 2..];
      }
      r := Keys(AccessKeys(moonHash, playerHash, ParseLimit(limitText)));
    }
  }

  // ---------- runs of requests ----------

  /** `draws` is the random source of a /create. */
  datatype Request =
    | RequestCreate(id: string, limitText: Option<string>, draws: nat -> Key)
    | RequestDelete(id: string)
    | RequestLimit(id: string, newLimit: string)

  function Apply(files: Store, r: Request): Store {
    match r
    case RequestCreate(id, limitText, draws) => Create(files, id, LimitFrom(limitText), draws)
    case RequestDelete(id) => Delete(files, id)
    case RequestLimit(id, newLimit) => SetLimit(files, id, ParseLimit(newLimit))
  }

  function Serve(files: Store, requests: seq<Request>): Store {
    if requests == [] then files
    else Apply(Serve(files, requests[..|requests| - 1]), requests[|requests| - 1])
  }

  /** Draws are what randomString can return. */
  ghost predicate WellFormed(r: Request) {
    r.RequestCreate? ==> Placed(r.id) && forall n :: RandomKey(r.draws(n))
  }

  /** The entries of a store whose files all came from /create and /limit. */
  predicate GoodEntry(entry: AccessKeys) {
    && RandomKey(entry.moonKey) && RandomKey(entry.playerKey) && entry.moonKey != entry.playerKey
    && 0 <= entry.playerLimit <= INT_MAX
  }

  /** All moon and player keys of the entries are pairwise distinct. */
  ghost predicate AllDistinct(entries: map<string, AccessKeys>) {
    && (forall id :: id in entries ==> GoodEntry(entries[id]))
    && (forall id, other :: id in entries && other in entries && id != other ==>
          ShareNoKey(entries[id], entries[other]))
  }

  /** Every file of the key directory holds exactly its entry. */
  predicate Prints(files: Store, entries: map<string, AccessKeys>) {
    forall id :: id in files && PlainId(id) ==> id in entries && files[id] == Print(entries[id])
  }

  ghost predicate StoreOk(files: Store) {
    Prints(files, Entries(files)) && AllDistinct(Entries(files))
  }

  function Print(entry: AccessKeys): string {
    Format(entry.moonKey, entry.playerKey, if entry.playerLimit < 0 then 0 else entry.playerLimit)
  }

  lemma PrintThenParse(entry: AccessKeys)
    requires GoodEntry(entry)
    ensures NoNewlines(Print(entry)) && Entry(Print(entry)) == Some(entry)
    ensures forall limit: nat :: Relimit(Print(entry), limit) == Some(Print(entry.(playerLimit := limit)))
  {
    KeyFileRoundTrip(entry.moonKey, entry.playerKey, entry.playerLimit);
    DecimalIsClean(entry.playerLimit);
    assert NoNewlines(" ");
    assert Substring(Print(entry), 0, HASH_LENGTH) == entry.moonKey;
    assert Substring(Print(entry), HASH_LENGTH + 1, HASH_LENGTH) == entry.playerKey;
  }

  lemma EntriesAfterWrite(files: Store, id: string, text: string)
    requires Entry(text).Some? && PlainId(id)
    ensures Entries(files[id := text]) == Entries(files)[id := Entry(text).value]
  {
  }

  /** Writing a printed entry is an update of the entries. */
  lemma WriteKeepsStoreOk(files: Store, id: string, entry: AccessKeys)
    requires StoreOk(files) && GoodEntry(entry) && PlainId(id)
    requires AllDistinct(Entries(files)[id := entry])
    ensures Entries(files[id := Print(entry)]) == Entries(files)[id := entry]
    ensures StoreOk(files[id := Print(entry)])
  {
    PrintThenParse(entry);
    EntriesAfterWrite(files, id, Print(entry));
  }

  lemma FreshPairStaysDistinct(entries: map<string, AccessKeys>, id: string, entry: AccessKeys)
    requires AllDistinct(entries) && GoodEntry(entry)
    requires entry.moonKey !in KeysOf(entries) && entry.playerKey !in KeysOf(entries)
    ensures AllDistinct(entries[id := entry])
  {
    forall other | other in entries
      ensures ShareNoKey(entries[other], entry) && ShareNoKey(entry, entries[other])
    {
      assert entries[other].moonKey in KeysOf(entries) && entries[other].playerKey in KeysOf(entries);
    }
  }

  lemma CreateKeepsStoreOk(files: Store, id: string, limit: nat, draws: nat -> Key)
    requires StoreOk(files) && limit <= INT_MAX && Placed(id) && forall n :: RandomKey(draws(n))
    ensures StoreOk(Create(files, id, limit, draws))
  {
    match ChoosePair(StoreKeys(files), draws)
    case None =>
    case Some((moon, player)) =>
      var entry := AccessKeys(draws(moon), draws(player), limit);
      if PlainId(Name(id)) {
        ChosenPairIsNew(StoreKeys(files), draws);
        FreshPairStaysDistinct(Entries(files), Name(id), entry);
        WriteKeepsStoreOk(files, Name(id), entry);
      } else {
        EscapedKeepsStoreOk(files, Name(id), Format(draws(moon), draws(player), limit));
      }
  }

  /** A file outside the key directory changes nothing that the directory says. */
  lemma EscapedFileIsUnlisted(files: Store, name: string, text: string)
    requires Escapes(name)
    ensures !PlainId(name) && Entries(files[name := text]) == Entries(files)
  {
    assert name[2] == "../"[2] == '/';
  }

  lemma EscapedKeepsStoreOk(files: Store, name: string, text: string)
    requires StoreOk(files) && Escapes(name)
    ensures StoreOk(files[name := text])
  {
    EscapedFileIsUnlisted(files, name, text);
  }

  lemma RelimitOfGoodFile(files: Store, id: string, limit: nat)
    requires StoreOk(files) && id in files && PlainId(id) && limit <= INT_MAX
    ensures id in Entries(files)
    ensures Relimit(StripNewlines(files[id]), limit) == Some(Print(Entries(files)[id].(playerLimit := limit)))
  {
    PrintThenParse(Entries(files)[id]);
    StripKeepsClean(files[id]);
  }

  lemma NewLimitStaysDistinct(entries: map<string, AccessKeys>, id: string, limit: nat)
    requires AllDistinct(entries) && id in entries && limit <= INT_MAX
    ensures AllDistinct(entries[id := entries[id].(playerLimit := limit)])
  {
  }

  lemma AlphanumericIsPlain(id: string)
    requires MatchesAlphanumeric(id)
    ensures PlainId(id)
  {
    forall i | 0 <= i < |id|
      ensures id[i] != '/' && id[i] != '\0'
    {
      assert IsAlphanumeric(id[i]);
    }
  }

  /** /limit keeps every key and changes one limit. */
  lemma SetLimitKeepsStoreOk(files: Store, id: string, limit: nat)
    requires StoreOk(files) && limit <= INT_MAX
    ensures StoreOk(SetLimit(files, id, limit))
    ensures id in files && MatchesAlphanumeric(id) ==>
              && id in Entries(files)
              && Entries(SetLimit(files, id, limit)) == Entries(files)[id := Entries(files)[id].(playerLimit := limit)]
  {
    if id in files && MatchesAlphanumeric(id) {
      AlphanumericIsPlain(id);
      RelimitOfGoodFile(files, id, limit);
      NewLimitStaysDistinct(Entries(files), id, limit);
      WriteKeepsStoreOk(files, id, Entries(files)[id].(playerLimit := limit));
    }
  }

  lemma EntriesAfterDelete(files: Store, id: string)
    ensures Entries(files - {id}) == Entries(files) - {id}
  {
  }

  lemma FewerStayDistinct(entries: map<string, AccessKeys>, id: string)
    requires AllDistinct(entries)
    ensures AllDistinct(entries - {id})
  {
  }

  lemma DeleteKeepsStoreOk(files: Store, id: string)
    requires StoreOk(files)
    ensures StoreOk(Delete(files, id))
  {
    EntriesAfterDelete(files, id);
    FewerStayDistinct(Entries(files), id);
  }

  lemma ApplyKeepsStoreOk(files: Store, r: Request)
    requires StoreOk(files) && WellFormed(r)
    ensures StoreOk(Apply(files, r))
  {
    match r
    case RequestCreate(id, limitText, draws) => CreateKeepsStoreOk(files, id, LimitFrom(limitText), draws);
    case RequestDelete(id) => DeleteKeepsStoreOk(files, id);
    case RequestLimit(id, newLimit) => SetLimitKeepsStoreOk(files, id, ParseLimit(newLimit));
  }

  /** Every run of requests from an empty store keeps all keys of the key directory pairwise distinct. */
  lemma {:induction false} RunsKeepKeysDistinct(requests: seq<Request>)
    requires forall i :: 0 <= i < |requests| ==> WellFormed(requests[i])
    ensures StoreOk(Serve(map[], requests))
  {
    if requests == [] {
    } else {
      RunsKeepKeysDistinct(requests[..|requests| - 1]);
      ApplyKeepsStoreOk(Serve(map[], requests[..|requests| - 1]), requests[|requests| - 1]);
    }
  }

  /** No file outside the key directory is created. */
  predicate StaysInside(r: Request) {
    r.RequestCreate? ==> PlainId(Name(r.id))
  }

  /** On runs that stay inside, the key directory holds every file, so no two files at all share a key. */
  lemma {:induction false} InsideRunsShareNoKey(requests: seq<Request>)
    requires forall i :: 0 <= i < |requests| ==> WellFormed(requests[i]) && StaysInside(requests[i])
    ensures var files := Serve(map[], requests);
            && StoreOk(files)
            && (forall id :: id in files ==> PlainId(id) && Entry(files[id]).Some?)
            && (forall id, other :: id in files && other in files && id != other ==>
                  ShareNoKey(Entry(files[id]).value, Entry(files[other]).value))
  {
    RunsKeepKeysDistinct(requests);
    InsideRunsStayPlain(requests);
    var files := Serve(map[], requests);
    forall id | id in files
      ensures id in Entries(files) && Entries(files)[id] == Entry(files[id]).value
    {
      assert PlainId(id);
    }
  }

  lemma {:induction false} InsideRunsStayPlain(requests: seq<Request>)
    requires forall i :: 0 <= i < |requests| ==> StaysInside(requests[i])
    ensures forall id :: id in Serve(map[], requests) ==> PlainId(id)
  {
    if requests == [] {
    } else {
      InsideRunsStayPlain(requests[..|requests| - 1]);
    }
  }

  lemma {:induction false} TableFollowsOrder(order: seq<string>, files: Store)
    requires forall id :: id in order ==> id in files && id in Entries(files)
    ensures var table := Table(Texts(order, files));
            |table| == |order| && forall i :: 0 <= i < |order| ==> table[i] == Entries(files)[order[i]]
  {
    if order == [] {
    } else {
      var front := order[..|order| - 1];
      TableFollowsOrder(front, files);
      assert Texts(order, files)[..|order| - 1] == Texts(front, files);
      assert order[|order| - 1] in order;
    }
  }

  lemma TableIsDistinct(order: seq<string>, files: Store)
    requires StoreOk(files) && Lists(order, files)
    ensures DistinctKeys(Table(Texts(order, files)))
  {
    var table := Table(Texts(order, files));
    TableFollowsOrder(order, files);
    forall i | 0 <= i < |order|
      ensures order[i] in Entries(files) && table[i] == Entries(files)[order[i]]
    {
      assert order[i] in order;
    }
  }

  /** After a refresh, both keys of a file give its moon key and its limit, and exactly the keys of no file give the
      empty room, whatever the order of the directory. */
  lemma LookupIgnoresDirectoryOrder(order: seq<string>, files: Store)
    requires StoreOk(files) && Lists(order, files)
    ensures var table := Table(Texts(order, files));
            forall id :: id in files && PlainId(id) ==>
              var entry := Entries(files)[id];
              && RoomOf(table, entry.moonKey) == entry.moonKey && RoomOf(table, entry.playerKey) == entry.moonKey
              && LimitOf(table, entry.moonKey) == entry.playerLimit
              && LimitOf(table, entry.playerKey) == entry.playerLimit
  {
    var table := Table(Texts(order, files));
    TableFollowsOrder(order, files);
    TableIsDistinct(order, files);
    forall id | id in files && PlainId(id)
      ensures var entry := Entries(files)[id];
              && RoomOf(table, entry.moonKey) == entry.moonKey && RoomOf(table, entry.playerKey) == entry.moonKey
              && LimitOf(table, entry.moonKey) == entry.playerLimit
              && LimitOf(table, entry.playerKey) == entry.playerLimit
    {
      assert id in order;
      var i :| 0 <= i < |order| && order[i] == id;
      assert table[i] in table;
      DistinctKeysAnyOrder(table, table[i]);
    }
  }

  lemma RandomKeyIsNotEmpty(key: Key)
    requires RandomKey(key)
    ensures key != EMPTY_KEY
  {
    assert IsAlphanumeric(key[0]);
  }

  lemma NoTableEntryIsEmpty(order: seq<string>, files: Store, i: nat)
    requires StoreOk(files) && Lists(order, files) && i < |Table(Texts(order, files))|
    ensures Table(Texts(order, files))[i].moonKey != EMPTY_KEY
  {
    TableFollowsOrder(order, files);
    assert order[i] in order;
    RandomKeyIsNotEmpty(Entries(files)[order[i]].moonKey);
  }

  lemma UnknownKeysGiveEmptyRoom(order: seq<string>, files: Store, key: Key)
    requires StoreOk(files) && Lists(order, files)
    ensures RoomOf(Table(Texts(order, files)), key) == EMPTY_KEY <==> key !in StoreKeys(files)
  {
    KnownIsStoreKey(order, files, key);
    var table := Table(Texts(order, files));
    if Known(table, key) {
      var i :| 0 <= i < |table| && table[i] == Find(table, key).value;
      NoTableEntryIsEmpty(order, files, i);
    }
  }

  /** The end-to-end statement: over any run of requests, any two listings of the directory answer alike. */
  lemma ListingsAnswerAlike(requests: seq<Request>, order: seq<string>, other: seq<string>, key: Key)
    requires forall i :: 0 <= i < |requests| ==> WellFormed(requests[i])
    requires var files := Serve(map[], requests); Lists(order, files) && Lists(other, files)
    ensures var files := Serve(map[], requests);
            && RoomOf(Table(Texts(order, files)), key) == RoomOf(Table(Texts(other, files)), key)
            && LimitOf(Table(Texts(order, files)), key) == LimitOf(Table(Texts(other, files)), key)
  {
    var files := Serve(map[], requests);
    RunsKeepKeysDistinct(requests);
    LookupIgnoresDirectoryOrder(order, files);
    LookupIgnoresDirectoryOrder(other, files);
    KnownIsStoreKey(order, files, key);
    KnownIsStoreKey(other, files, key);
    if key in StoreKeys(files) {
      var id :| id in Entries(files) && Opens(Entries(files)[id], key);
    }
  }

  // ---------- what a request leaves alone ----------

  /** The file that a request is about. */
  function Target(r: Request): string {
    match r
    case RequestCreate(id, _, _) => Name(id)
    case RequestDelete(id) => id
    case RequestLimit(id, _) => id
  }

  /** No request touches any other file, nor its own one when it is refused. */
  lemma OtherFilesKeepText(files: Store, r: Request, name: string)
    requires name != Target(r) || Refused(files, r)
    ensures name in Apply(files, r) <==> name in files
    ensures name in files ==> Apply(files, r)[name] == files[name]
  {
    match r
    case RequestCreate(id, limitText, draws) =>
    case RequestDelete(id) =>
    case RequestLimit(id, newLimit) =>
  }

  /** The draws are all taken, there is no such file, the id is not alphanumeric, or the file is too short. */
  predicate Refused(files: Store, r: Request) {
    match r
    case RequestCreate(_, _, draws) => ChoosePair(StoreKeys(files), draws).None?
    case RequestDelete(id) => id !in files || !MatchesAlphanumeric(id)
    case RequestLimit(id, _) =>
      id !in files || !MatchesAlphanumeric(id) || |StripNewlines(files[id])| < HASH_LENGTH + 1
  }

  lemma DeletedIsGone(files: Store, id: string)
    requires id in files && MatchesAlphanumeric(id)
    ensures id !in Delete(files, id) && id !in Entries(Delete(files, id))
    ensures forall other :: other in Delete(files, id) <==> other in files && other != id
  {
  }

  /** A delete takes the two keys of its file out of the store and no other key. */
  lemma DeletedKeysAreFree(files: Store, id: string)
    requires StoreOk(files) && id in files && MatchesAlphanumeric(id)
    ensures id in Entries(files)
    ensures var gone := Entries(files)[id];
            StoreKeys(Delete(files, id)) == StoreKeys(files) - {gone.moonKey, gone.playerKey}
  {
    AlphanumericIsPlain(id);
    DeletedIsGone(files, id);
    EntriesAfterDelete(files, id);
    KeysWithout(Entries(files), id);
  }

  lemma KeysWithout(entries: map<string, AccessKeys>, id: string)
    requires AllDistinct(entries) && id in entries
    ensures KeysOf(entries - {id}) == KeysOf(entries) - {entries[id].moonKey, entries[id].playerKey}
  {
    forall key
      ensures key in KeysOf(entries - {id}) <==> key in KeysOf(entries) && !Opens(entries[id], key)
    {
      KeyWithout(entries, id, key);
    }
  }

  lemma KeyWithout(entries: map<string, AccessKeys>, id: string, key: Key)
    requires AllDistinct(entries) && id in entries
    ensures key in KeysOf(entries - {id}) <==> key in KeysOf(entries) && !Opens(entries[id], key)
  {
    var rest := entries - {id};
    KeyIsOfSome(entries, key);
    KeyIsOfSome(rest, key);
    if other :| other in entries && Opens(entries[other], key) && !Opens(entries[id], key) {
      assert other in rest && rest[other] == entries[other];
    }
    if other :| other in rest && Opens(rest[other], key) {
      assert ShareNoKey(entries[other], entries[id]);
    }
  }

  lemma KeyIsOfSome(entries: map<string, AccessKeys>, key: Key)
    ensures key in KeysOf(entries) <==> exists id :: id in entries && Opens(entries[id], key)
  {
  }

  /** After a delete and a refresh, in any order of the directory, both keys of the file give the empty room, and every
      other key gives the room and the limit that it gave before. */
  lemma DeleteClosesOneRoom(files: Store, id: string, before: seq<string>, after: seq<string>, key: Key)
    requires StoreOk(files) && id in files && MatchesAlphanumeric(id)
    requires Lists(before, files) && Lists(after, Delete(files, id))
    ensures id in Entries(files)
    ensures var was, now := Table(Texts(before, files)), Table(Texts(after, Delete(files, id)));
            if Opens(Entries(files)[id], key) then RoomOf(now, key) == EMPTY_KEY
            else RoomOf(now, key) == RoomOf(was, key) && LimitOf(now, key) == LimitOf(was, key)
  {
    DeletedKeysAreFree(files, id);
    if Opens(Entries(files)[id], key) {
      DeleteKeepsStoreOk(files, id);
      UnknownAnswers(after, Delete(files, id), key);
    } else {
      OtherKeysAnswerAlike(files, id, before, after, key);
    }
  }

  lemma OtherKeysAnswerAlike(files: Store, id: string, before: seq<string>, after: seq<string>, key: Key)
    requires StoreOk(files) && id in Entries(files) && MatchesAlphanumeric(id) && !Opens(Entries(files)[id], key)
    requires Lists(before, files) && Lists(after, Delete(files, id))
    ensures var was, now := Table(Texts(before, files)), Table(Texts(after, Delete(files, id)));
            RoomOf(now, key) == RoomOf(was, key) && LimitOf(now, key) == LimitOf(was, key)
  {
    DeleteKeepsStoreOk(files, id);
    EntriesAfterDelete(files, id);
    KeyWithout(Entries(files), id, key);
    AnswersFollowEntries(before, files, after, Delete(files, id), key);
  }

  /** Two stores of which one has some entries of the other give the same answer for a key of these, or of no entry. */
  lemma AnswersFollowEntries(before: seq<string>, files: Store, after: seq<string>, fewer: Store, key: Key)
    requires StoreOk(files) && StoreOk(fewer) && Lists(before, files) && Lists(after, fewer)
    requires forall id :: id in Entries(fewer) ==> id in Entries(files) && Entries(files)[id] == Entries(fewer)[id]
    requires key in StoreKeys(files) ==> key in StoreKeys(fewer)
    ensures var was, now := Table(Texts(before, files)), Table(Texts(after, fewer));
            RoomOf(now, key) == RoomOf(was, key) && LimitOf(now, key) == LimitOf(was, key)
  {
    if key in StoreKeys(fewer) {
      var id := IdOf(Entries(fewer), key);
      KnownAnswers(before, files, id, key);
      KnownAnswers(after, fewer, id, key);
    } else {
      UnknownAnswers(before, files, key);
      UnknownAnswers(after, fewer, key);
    }
  }

  lemma IdOf(entries: map<string, AccessKeys>, key: Key) returns (id: string)
    requires key in KeysOf(entries)
    ensures id in entries && Opens(entries[id], key)
  {
    id :| id in entries && Opens(entries[id], key);
  }

  lemma UnknownAnswers(order: seq<string>, files: Store, key: Key)
    requires StoreOk(files) && Lists(order, files) && key !in StoreKeys(files)
    ensures RoomOf(Table(Texts(order, files)), key) == EMPTY_KEY && LimitOf(Table(Texts(order, files)), key) == 0
  {
    KnownIsStoreKey(order, files, key);
  }

  lemma KnownAnswers(order: seq<string>, files: Store, id: string, key: Key)
    requires StoreOk(files) && Lists(order, files) && id in Entries(files) && Opens(Entries(files)[id], key)
    ensures var table, entry := Table(Texts(order, files)), Entries(files)[id];
            RoomOf(table, key) == entry.moonKey && LimitOf(table, key) == entry.playerLimit
  {
    LookupIgnoresDirectoryOrder(order, files);
  }

  // ---------- ids that leave the key directory ----------

  /** After /create the directory holds the new keys if and only if the id did not leave it. If it did, the directory
      still says what it said, and the same draws give the same pair again. */
  lemma CreatedKeysAreTaken(files: Store, id: string, limit: nat, draws: nat -> Key)
    requires StoreOk(files) && limit <= INT_MAX && (forall n :: RandomKey(draws(n))) && Placed(id)
    requires ChoosePair(StoreKeys(files), draws).Some?
    ensures var (moon, player) := ChoosePair(StoreKeys(files), draws).value;
            var keys := StoreKeys(Create(files, id, limit, draws));
            && (draws(moon) in keys <==> PlainId(Name(id)))
            && (draws(player) in keys <==> PlainId(Name(id)))
            && (!PlainId(Name(id)) ==> keys == StoreKeys(files)
                                       && ChoosePair(keys, draws) == ChoosePair(StoreKeys(files), draws))
  {
    var (moon, player) := ChoosePair(StoreKeys(files), draws).value;
    ChosenPairIsNew(StoreKeys(files), draws);
    if PlainId(Name(id)) {
      CreatedEntry(files, id, limit, draws);
    } else {
      EscapedFileIsUnlisted(files, Name(id), Format(draws(moon), draws(player), limit));
    }
  }

  /** After /create and a refresh the new keys open the new room if and only if the id did not leave the directory. */
  lemma CreatedKeysOpenTheirRoom(files: Store, id: string, limit: nat, draws: nat -> Key, order: seq<string>)
    requires StoreOk(files) && limit <= INT_MAX && (forall n :: RandomKey(draws(n))) && Placed(id)
    requires ChoosePair(StoreKeys(files), draws).Some? && Lists(order, Create(files, id, limit, draws))
    ensures var (moon, player) := ChoosePair(StoreKeys(files), draws).value;
            var table := Table(Texts(order, Create(files, id, limit, draws)));
            && (RoomOf(table, draws(moon)) == draws(moon) <==> PlainId(Name(id)))
            && (RoomOf(table, draws(player)) == draws(moon) <==> PlainId(Name(id)))
            && (!PlainId(Name(id)) ==> RoomOf(table, draws(moon)) == EMPTY_KEY == RoomOf(table, draws(player)))
  {
    var (moon, player) := ChoosePair(StoreKeys(files), draws).value;
    var files' := Create(files, id, limit, draws);
    CreateKeepsStoreOk(files, id, limit, draws);
    CreatedKeysAreTaken(files, id, limit, draws);
    RandomKeyIsNotEmpty(draws(moon));
    if PlainId(Name(id)) {
      CreatedEntry(files, id, limit, draws);
      LookupIgnoresDirectoryOrder(order, files');
    } else {
      UnknownKeysGiveEmptyRoom(order, files', draws(moon));
      UnknownKeysGiveEmptyRoom(order, files', draws(player));
    }
  }

  lemma CreatedEntry(files: Store, id: string, limit: nat, draws: nat -> Key)
    requires StoreOk(files) && limit <= INT_MAX && (forall n :: RandomKey(draws(n))) && PlainId(Name(id))
    requires ChoosePair(StoreKeys(files), draws).Some?
    ensures var (moon, player) := ChoosePair(StoreKeys(files), draws).value;
            var entries := Entries(Create(files, id, limit, draws));
            Name(id) in entries && entries[Name(id)] == AccessKeys(draws(moon), draws(player), limit)
  {
    var (moon, player) := ChoosePair(StoreKeys(files), draws).value;
    ChosenPairIsNew(StoreKeys(files), draws);
    PrintThenParse(AccessKeys(draws(moon), draws(player), limit));
    EntriesAfterWrite(files, Name(id), Format(draws(moon), draws(player), limit));
  }

  /** An id that goes up names a file outside. */
  lemma UpEscapes(x: string)
    requires PlainId(x)
    ensures Name("../" + x) == "../" + x && Escapes("../" + x)
  {
    var up := "../" + x;
    assert up[0] == '.' && up[1] == '.' && up[3..] == x && "../" <= up;
    assert "./"[1] == '/' && "/"[0] == '/';
    assert "../keys/"[7] == '/' && (|up| > 7 ==> up[7] == x[4]);
  }

  /** So no two files share a key as long as nothing leaves the directory (InsideRunsShareNoKey), and one create that
      does is enough: from any good store, a file outside and then one inside, created with the same draws, hold the
      same keys. */
  lemma EscapedKeysRepeat(files: Store, outside: string, inside: string, limit: nat, draws: nat -> Key)
    requires StoreOk(files) && (forall n :: RandomKey(draws(n))) && ChoosePair(StoreKeys(files), draws).Some?
    requires Escapes(Name(outside)) && PlainId(Name(inside)) && limit <= INT_MAX
    ensures var after := Create(Create(files, outside, limit, draws), inside, limit, draws);
            && Name(outside) in after && Name(inside) in after && Name(outside) != Name(inside)
            && after[Name(outside)] == after[Name(inside)]
            && Entry(after[Name(inside)]).Some? && StoreOk(after)
  {
    var (moon, player) := ChoosePair(StoreKeys(files), draws).value;
    var once := Create(files, outside, limit, draws);
    var text := Format(draws(moon), draws(player), limit);
    EscapedFileIsUnlisted(files, Name(outside), text);
    assert once == files[Name(outside) := text] && ChoosePair(StoreKeys(once), draws) == Some((moon, player));
    assert StoreOk(once) by {
      CreateKeepsStoreOk(files, outside, limit, draws);
    }
    assert Create(once, inside, limit, draws) == once[Name(inside) := text];
    assert StoreOk(Create(once, inside, limit, draws)) by {
      CreateKeepsStoreOk(once, inside, limit, draws);
    }
    TextHasEntry(files, limit, draws);
  }

  lemma TextHasEntry(files: Store, limit: nat, draws: nat -> Key)
    requires limit <= INT_MAX && (forall n :: RandomKey(draws(n))) && ChoosePair(StoreKeys(files), draws).Some?
    ensures var (moon, player) := ChoosePair(StoreKeys(files), draws).value;
            Entry(Format(draws(moon), draws(player), limit)).Some?
  {
    var (moon, player) := ChoosePair(StoreKeys(files), draws).value;
    ChosenPairIsNew(StoreKeys(files), draws);
    PrintThenParse(AccessKeys(draws(moon), draws(player), limit));
  }
}
