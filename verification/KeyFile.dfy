/** The text of a key file: printed by APIServer, parsed by KeyManager and again by APIServer. */
module KeyFile {
  import opened Integers
  import opened RelayTypes

  datatype AccessKeys = AccessKeys(moonKey: Key, playerKey: Key, playerLimit: int)

  predicate IsDigit(c: char) {
    '0' <= c <= '9'
  }

  predicate AllDigits(s: string) {
    forall i :: 0 <= i < |s| ==> IsDigit(s[i])
  }

  /** The regular expression [0-9]+. */
  predicate MatchesDigits(s: string) {
    s != [] && AllDigits(s)
  }

  function DigitValue(c: char): nat
    requires IsDigit(c)
  {
    c as int - '0' as int
  }

  function Value(s: string): nat
    requires AllDigits(s)
  {
    if s == [] then 0 else 10 * Value(s[..|s| - 1]) + DigitValue(s[|s| - 1])
  }

  /** std::to_string of a non-negative int. */
  function Decimal(n: nat): (s: string)
    ensures MatchesDigits(s)
  {
    (if n < 10 then [] else Decimal(n / 10)) + [('0' as int + n % 10) as char]
  }

  /** std::stoi behind the regular expression; its out_of_range is caught and gives the default. */
  function ParseLimit(s: string): (limit: int)
    ensures 0 <= limit <= INT_MAX
  {
    if MatchesDigits(s) && Value(s) <= INT_MAX then Value(s) else DEFAULT_PLAYER_LIMIT
  }

  /** readFile drops carriage returns and line feeds. */
  function StripNewlines(s: string): string {
    if s == [] then []
    else StripNewlines(s[..|s| - 1]) + (if s[|s| - 1] in "\r\n" then [] else [s[|s| - 1]])
  }

  /** What /create and /limit write. */
  function Format(moonKey: string, playerKey: string, limit: nat): string {
    moonKey + " " + playerKey + " " + Decimal(limit)
  }

  /** KeyManager::refreshKeys on the contents of one file. */
  function ParseFile(contents: string): Option<AccessKeys> {
    if |contents| < HASH_LENGTH * 2 + 1 then None
    else
      Some(AccessKeys(contents[..HASH_LENGTH], contents[HASH_LENGTH + 1..HASH_LENGTH * 2 + 1],
                      if |contents| > HASH_LENGTH * 2 + 1 then ParseLimit(contents[HASH_LENGTH * 2 + 2..])
                      else DEFAULT_PLAYER_LIMIT))
  }

  function Substring(s: string, from: nat, count: nat): string
    requires from <= |s|
  {
    if from + count <= |s| then s[from..from + count] else s[from..]
  }

  /** /get on the same contents; None is the out_of_range of substr. */
  function ParseForGet(contents: string): Option<AccessKeys> {
    if |contents| < HASH_LENGTH + 1 then None
    else
      Some(AccessKeys(Substring(contents, 0, HASH_LENGTH), Substring(contents, HASH_LENGTH + 1, HASH_LENGTH),
                      ParseLimit(if |contents| > HASH_LENGTH * 2 + 1 then contents[HASH_LENGTH * 2 + 2..]
                                 else Decimal(DEFAULT_PLAYER_LIMIT))))
  }

  /** /limit rewrites the contents with a new limit; None is the out_of_range of substr. */
  function Relimit(contents: string, limit: nat): Option<string> {
    if |contents| < HASH_LENGTH + 1 then None
    else Some(Format(Substring(contents, 0, HASH_LENGTH), Substring(contents, HASH_LENGTH + 1, HASH_LENGTH), limit))
  }

  predicate NoNewlines(s: string) {
    forall i :: 0 <= i < |s| ==> s[i] != '\r' && s[i] != '\n'
  }

  lemma {:induction false} StripKeepsClean(s: string)
    requires NoNewlines(s)
    ensures StripNewlines(s) == s
  {
    if s == [] {
    } else {
      StripKeepsClean(s[..|s| - 1]);
    }
  }

  /** Dropping line ends is done character by character and leaves none. */
  lemma {:induction false} StripConcat(a: string, b: string)
    ensures StripNewlines(a + b) == StripNewlines(a) + StripNewlines(b)
  {
    if b == [] {
      assert a + b == a;
    } else {
      assert (a + b)[..|a + b| - 1] == a + b[..|b| - 1];
      StripConcat(a, b[..|b| - 1]);
    }
  }

  lemma {:induction false} StripDropsLineEnds(s: string)
    ensures NoNewlines(StripNewlines(s))
    ensures forall c :: c in StripNewlines(s) <==> c in s && c != '\r' && c != '\n'
    decreases |s|
  {
    if s == [] {
    } else {
      assert s == s[..|s| - 1] + [s[|s| - 1]];
      StripDropsLineEnds(s[..|s| - 1]);
    }
  }

  /** stoi inverts to_string. */
  lemma {:induction false} DecimalRoundTrip(n: nat)
    ensures Value(Decimal(n)) == n
  {
    var s := Decimal(n);
    if n < 10 {
      assert s[..|s| - 1] == [];
    } else {
      DecimalRoundTrip(n / 10);
      assert s[..|s| - 1] == Decimal(n / 10);
    }
  }

  function Zeros(k: nat): string {
    seq(k, _ => '0')
  }

  /** The text says n, with k zeros in front. */
  predicate Says(text: string, k: nat, n: nat) {
    text == Zeros(k) + Decimal(n)
  }

  lemma {:induction false} ZerosDoNotCount(k: nat, s: string)
    requires AllDigits(s)
    ensures AllDigits(Zeros(k) + s) && Value(Zeros(k) + s) == Value(s)
    decreases k + |s|
  {
    var text := Zeros(k) + s;
    if s != [] {
      assert text[..|text| - 1] == Zeros(k) + s[..|s| - 1];
      ZerosDoNotCount(k, s[..|s| - 1]);
    } else if k > 0 {
      assert text[..|text| - 1] == Zeros(k - 1) + [];
      ZerosDoNotCount(k - 1, []);
    }
  }

  /** Every text of digits is a decimal number behind zeros. */
  lemma {:induction false} DigitsSayNumber(s: string) returns (k: nat, n: nat)
    requires MatchesDigits(s)
    ensures Says(s, k, n)
    decreases |s|
  {
    var front, last := s[..|s| - 1], s[|s| - 1];
    assert s == front + [last] && IsDigit(last);
    if front == [] {
      k, n := 0, DigitValue(last);
      DecimalOfDigit(last);
    } else {
      k, n := DigitsSayNumber(front);
      OneMoreDigit(front, k, n, last);
      k, n := if n == 0 then k + 1 else k, 10 * n + DigitValue(last);
    }
  }

  lemma DecimalOfDigit(c: char)
    requires IsDigit(c)
    ensures Decimal(DigitValue(c)) == [c] && Says([c], 0, DigitValue(c))
  {
    assert Decimal(DigitValue(c)) == [] + [c];
  }

  lemma OneMoreDigit(front: string, k: nat, n: nat, c: char)
    requires Says(front, k, n) && IsDigit(c)
    ensures Says(front + [c], if n == 0 then k + 1 else k, 10 * n + DigitValue(c))
  {
    if n == 0 {
      DecimalOfDigit(c);
      DecimalOfDigit('0');
      assert Zeros(k) + ['0'] == Zeros(k + 1);
    } else {
      DecimalExtends(n, c);
      assert front + [c] == Zeros(k) + (Decimal(n) + [c]);
    }
  }

  lemma DecimalExtends(n: nat, c: char)
    requires n > 0 && IsDigit(c)
    ensures Decimal(10 * n + DigitValue(c)) == Decimal(n) + [c]
  {
  }

  /** A limit is read as the number that its text says, with any zeros in front, as far as an int goes. */
  lemma LimitSaysNumber(text: string, k: nat, n: nat)
    requires Says(text, k, n)
    ensures ParseLimit(text) == if n <= INT_MAX then n else DEFAULT_PLAYER_LIMIT
  {
    ZerosDoNotCount(k, Decimal(n));
    DecimalRoundTrip(n);
  }

  /** Every other text gives the default. */
  lemma OtherTextGivesDefault(text: string)
    requires !exists k: nat, n: nat :: Says(text, k, n) && n <= INT_MAX
    ensures ParseLimit(text) == DEFAULT_PLAYER_LIMIT
  {
    if MatchesDigits(text) {
      var k, n := DigitsSayNumber(text);
      LimitSaysNumber(text, k, n);
    }
  }

  /** What each place of a key file is for, whatever stands between: four characters, one, four, and after one more the
      text of the limit. */
  lemma FieldsOfFile(moonKey: Key, first: char, playerKey: Key, rest: string)
    requires |moonKey| == HASH_LENGTH && |playerKey| == HASH_LENGTH
    ensures ParseFile(moonKey + [first] + playerKey + rest)
            == Some(AccessKeys(moonKey, playerKey, if rest == [] then DEFAULT_PLAYER_LIMIT else ParseLimit(rest[1..])))
  {
    var contents := moonKey + [first] + playerKey + rest;
    assert contents[..HASH_LENGTH] == moonKey;
    assert contents[HASH_LENGTH + 1..HASH_LENGTH * 2 + 1] == playerKey;
    assert rest != [] ==> contents[HASH_LENGTH * 2 + 2..] == rest[1..];
  }

  /** /get and /limit take what there is of a player key that the file cuts short. */
  lemma CutFile(moonKey: Key, first: char, playerKey: string, limit: nat)
    requires |moonKey| == HASH_LENGTH && |playerKey| <= HASH_LENGTH
    ensures ParseForGet(moonKey + [first] + playerKey) == Some(AccessKeys(moonKey, playerKey, DEFAULT_PLAYER_LIMIT))
    ensures Relimit(moonKey + [first] + playerKey, limit) == Some(Format(moonKey, playerKey, limit))
  {
    var contents := moonKey + [first] + playerKey;
    assert contents[..HASH_LENGTH] == moonKey && Substring(contents, 0, HASH_LENGTH) == moonKey;
    assert contents[HASH_LENGTH + 1..] == playerKey == contents[HASH_LENGTH + 1..|contents|];
    DecimalRoundTrip(DEFAULT_PLAYER_LIMIT);
  }

  lemma DecimalIsClean(n: nat)
    ensures NoNewlines(Decimal(n))
  {
    forall i | 0 <= i < |Decimal(n)|
      ensures IsDigit(Decimal(n)[i])
    {
    }
  }

  /** Reading back what was written gives the same keys and limit, through either parser. */
  lemma KeyFileRoundTrip(moonKey: Key, playerKey: Key, limit: nat)
    requires |moonKey| == HASH_LENGTH && |playerKey| == HASH_LENGTH && NoNewlines(moonKey) && NoNewlines(playerKey)
    requires limit <= INT_MAX
    ensures var contents := StripNewlines(Format(moonKey, playerKey, limit));
            && contents == Format(moonKey, playerKey, limit)
            && ParseFile(contents) == Some(AccessKeys(moonKey, playerKey, limit))
            && ParseForGet(contents) == Some(AccessKeys(moonKey, playerKey, limit))
  {
    var text := Format(moonKey, playerKey, limit);
    DecimalIsClean(limit);
    DecimalRoundTrip(limit);
    assert NoNewlines(" ");
    StripKeepsClean(text);
    var rest := " " + Decimal(limit);
    assert rest[1..] == Decimal(limit);
    assert text == moonKey + [' '] + playerKey + rest;
    FieldsOfFile(moonKey, ' ', playerKey, rest);
    ParsersAgree(text);
  }

  /** The two parsers agree on exactly the contents that refreshKeys accepts. */
  lemma ParsersAgree(contents: string)
    ensures ParseFile(contents).Some? <==> |contents| >= HASH_LENGTH * 2 + 1
    ensures ParseFile(contents).Some? || ParseForGet(contents).None? <==> ParseForGet(contents) == ParseFile(contents)
  {
    DecimalRoundTrip(DEFAULT_PLAYER_LIMIT);
  }

  /** /limit keeps the keys of a file and sets its limit. */
  lemma RelimitKeepsKeys(contents: string, limit: nat)
    requires ParseFile(contents).Some? && NoNewlines(contents) && limit <= INT_MAX
    ensures Relimit(contents, limit).Some?
    ensures ParseFile(StripNewlines(Relimit(contents, limit).value))
            == Some(ParseFile(contents).value.(playerLimit := limit))
  {
    KeyFileRoundTrip(contents[..HASH_LENGTH], contents[HASH_LENGTH + 1..HASH_LENGTH * 2 + 1], limit);
  }

  /** The limit a request may carry survives the file: whatever text it was given, the stored one parses back. */
  lemma LimitTextSettles(text: string)
    ensures ParseLimit(Decimal(ParseLimit(text))) == ParseLimit(text)
  {
    DecimalRoundTrip(ParseLimit(text));
  }
}
