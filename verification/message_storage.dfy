/** message_storage.py: the per-recipient message log.  Each recipient's log
    is one JSON array under `messages/<sanitised name>.json`; here the whole
    directory is a map from sanitised name to log. */
module MessageStorage {
  import opened Basics
  import opened PyStr
  import opened Primitives
  import opened UserFiles

  /** The exceptions `sanitize_username` and `save_message` raise. */
  datatype StoreError =
    | PathTraversal                    // ValueError: path separators or traversal sequences
    | InvalidCharacters                // ValueError: outside [A-Za-z0-9_-]+
    | MissingKeys(keys: seq<string>)   // ValueError: required keys absent, in required order
    | BlankValues(keys: seq<string>)   // ValueError: required values not non-blank strings
    | BadTimestamp                     // ValueError: timestamp is not ISO-8601
    | LockTimeout                      // TimeoutError: lock not acquired within 5 seconds

  // ---------------------------------------------------------------------
  // Usernames
  // ---------------------------------------------------------------------

  predicate IsSafeChar(c: char) {
    'A' <= c <= 'Z' || 'a' <= c <= 'z' || '0' <= c <= '9' || c == '_' || c == '-'
  }

  /** The full match of `[A-Za-z0-9_-]+`. */
  predicate IsSafeName(s: string) {
    |s| > 0 && forall i :: 0 <= i < |s| ==> IsSafeChar(s[i])
  }

  /** `'/' in s or '\\' in s or '..' in s`. */
  predicate HasTraversal(s: string) {
    '/' in s || '\\' in s || ContainsPair(s, '.', '.')
  }

  /** `r` is `s` with every ASCII upper-case letter replaced by its lower case. */
  predicate LowercaseOf(s: string, r: string) {
    && |r| == |s|
    && forall i :: 0 <= i < |s| ==>
         if 'A' <= s[i] <= 'Z' then r[i] as int == s[i] as int + 32 else r[i] == s[i]
  }

  /** `sanitize_username`: rejects traversal first, then anything outside the
      safe character class, and returns the lower-cased name. */
  function Sanitize(username: string): (r: Result<string, StoreError>)
    ensures HasTraversal(username) ==> r == Failure(PathTraversal)
    ensures !HasTraversal(username) && r.Failure? ==> r == Failure(InvalidCharacters)
    ensures r.Success? <==> IsSafeName(username)
    ensures r.Success? ==> LowercaseOf(username, r.value) && IsSafeName(r.value)
    ensures r.Success? ==> forall i :: 0 <= i < |r.value| ==> !IsUpper(r.value[i])
  {
    if HasTraversal(username) then Failure(PathTraversal)
    else if !IsSafeName(username) then Failure(InvalidCharacters)
    else Success(Lower(username))
  }

  /** A sanitised name sanitises to itself. */
  lemma SanitizeIdempotent(username: string)
    requires Sanitize(username).Success?
    ensures Sanitize(Sanitize(username).value) == Sanitize(username)
  {
    var r := Sanitize(username).value;
    assert forall i :: 0 <= i < |r| ==> LowerChar(r[i]) == r[i];
    assert Lower(r) == r;
  }

  /** Two accepted names share a log exactly when they agree up to ASCII case. */
  lemma SanitizeIgnoresCase(s: string, t: string)
    requires Sanitize(s).Success? && Sanitize(t).Success?
    ensures Sanitize(s) == Sanitize(t) <==>
              |s| == |t| && forall i :: 0 <= i < |s| ==> LowerChar(s[i]) == LowerChar(t[i])
  {
    if |s| == |t| && forall i :: 0 <= i < |s| ==> LowerChar(s[i]) == LowerChar(t[i]) {
      assert Lower(s) == Lower(t);
    }
  }

  /** Worked rejections: traversal sequences and separators are refused
      before the character check, which refuses the empty name and dots. */
  lemma SanitizeRejectsExamples()
    ensures Sanitize("../etc") == Failure(PathTraversal)
    ensures Sanitize("a/b") == Failure(PathTraversal)
    ensures Sanitize("a\\b") == Failure(PathTraversal)
    ensures Sanitize("") == Failure(InvalidCharacters)
    ensures Sanitize("a.b") == Failure(InvalidCharacters)
  {
    assert ContainsPair("../etc", '.', '.') by { assert "../etc"[0] == '.' && "../etc"[1] == '.'; }
    assert "a/b"[1] == '/';
    assert "a\\b"[1] == '\\';
    assert !IsSafeChar("a.b"[1]);
    assert !HasTraversal("a.b");
  }

  /** Worked acceptances: a safe lower-case name is kept, and two spellings
      differing in case reach the same log. */
  lemma SanitizeAcceptsExamples()
    ensures Sanitize("alice-1") == Success("alice-1")
    ensures Sanitize("Bob") == Sanitize("bob") == Success("bob")
  {
    assert !HasTraversal("alice-1");
    assert Lower("alice-1") == "alice-1";
    assert !HasTraversal("Bob") && !HasTraversal("bob");
    assert Lower("Bob") == "bob";
    assert Lower("bob") == "bob";
  }

  // ---------------------------------------------------------------------
  // Envelopes and their validation
  // ---------------------------------------------------------------------

  /** The six keys `save_message` requires, in the order it reports them. */
  const RequiredKeys: seq<string> :=
    ["from_user", "to_user", "encrypted_message", "encrypted_key", "nonce", "timestamp"]

  /** A message envelope as composed by the senders: the required six keys. */
  datatype Envelope = Envelope(fromUser: string, toUser: string, sealed: Sealed, timestamp: string) {
    /** The dictionary handed to `save_message`. */
    function ToDocument(): Document {
      map["from_user" := Str(fromUser),
          "to_user" := Str(toUser),
          "encrypted_message" := Str(sealed.encryptedMessage),
          "encrypted_key" := Str(sealed.encryptedKey),
          "nonce" := Str(sealed.nonce),
          "timestamp" := Str(timestamp)]
    }
  }

  /** An envelope's document carries its sender, recipient and timestamp, and
      its three sealed parts read back as the sealed message. */
  lemma EnvelopeFields(e: Envelope)
    ensures var d := e.ToDocument();
            && "from_user" in d && d["from_user"] == Str(e.fromUser)
            && "to_user" in d && d["to_user"] == Str(e.toUser)
            && "timestamp" in d && d["timestamp"] == Str(e.timestamp)
            && SealedIn(d) == Some(e.sealed)
  {
  }

  /** `isinstance(v, str) and v.strip()`. */
  predicate IsNonBlankStr(v: Value) {
    v.Str? && !IsBlank(v.text)
  }

  /** What `save_message` accepts: all six keys present with non-blank
      string values, and a timestamp `fromisoformat` parses. */
  predicate WellFormed(pkg: Document, isIsoTimestamp: string -> bool) {
    && (forall k :: k in RequiredKeys ==> k in pkg && IsNonBlankStr(pkg[k]))
    && "timestamp" in pkg && pkg["timestamp"].Str? && isIsoTimestamp(pkg["timestamp"].text)
  }

  /** `[k for k in keys if k not in pkg]` (message_storage.py:60). */
  function MissingFrom(keys: seq<string>, pkg: Document): (r: seq<string>)
    ensures |r| <= |keys|
  {
    if keys == [] then []
    else
      var rest := MissingFrom(keys[1..], pkg);
      if keys[0] !in pkg then [keys[0]] + rest else rest
  }

  /** The missing keys are exactly the asked-about keys absent from `pkg`, so
      none is missing exactly when all are present. */
  lemma {:induction false} MissingFromMembers(keys: seq<string>, pkg: Document)
    ensures forall k :: k in MissingFrom(keys, pkg) <==> k in keys && k !in pkg
    ensures MissingFrom(keys, pkg) == [] <==> forall k :: k in keys ==> k in pkg
  {
    if keys != [] {
      MissingFromMembers(keys[1..], pkg);
      assert forall k :: k in keys <==> k == keys[0] || k in keys[1..];
    }
  }

  /** `[k for k in keys if not isinstance(pkg.get(k), str) or not pkg.get(k).strip()]`
      (message_storage.py:64). */
  function BadValuesFrom(keys: seq<string>, pkg: Document): (r: seq<string>)
    ensures |r| <= |keys|
  {
    if keys == [] then []
    else
      var rest := BadValuesFrom(keys[1..], pkg);
      if !(keys[0] in pkg && IsNonBlankStr(pkg[keys[0]])) then [keys[0]] + rest else rest
  }

  /** The keys with bad values are exactly the asked-about keys that are
      absent or not a non-blank string, so none is bad exactly when all are good. */
  lemma {:induction false} BadValuesFromMembers(keys: seq<string>, pkg: Document)
    ensures forall k :: k in BadValuesFrom(keys, pkg) <==> k in keys && !(k in pkg && IsNonBlankStr(pkg[k]))
    ensures BadValuesFrom(keys, pkg) == [] <==> forall k :: k in keys ==> k in pkg && IsNonBlankStr(pkg[k])
  {
    if keys != [] {
      BadValuesFromMembers(keys[1..], pkg);
      assert forall k :: k in keys <==> k == keys[0] || k in keys[1..];
    }
  }

  /** The missing keys come out in key order: the report for a concatenation
      is the concatenated reports (with `MissingFromMembers` and the length
      bound, one key is reported alone exactly when it is absent). */
  lemma {:induction false} MissingFromInOrder(a: seq<string>, b: seq<string>, pkg: Document)
    ensures MissingFrom(a + b, pkg) == MissingFrom(a, pkg) + MissingFrom(b, pkg)
  {
    if a == [] {
      assert a + b == b;
    } else {
      var ab := a + b;
      assert ab[0] == a[0] && ab[1..] == a[1..] + b;
      MissingFromInOrder(a[1..], b, pkg);
    }
  }

  /** The keys with bad values come out in key order, as in `MissingFromInOrder`. */
  lemma {:induction false} BadValuesFromInOrder(a: seq<string>, b: seq<string>, pkg: Document)
    ensures BadValuesFrom(a + b, pkg) == BadValuesFrom(a, pkg) + BadValuesFrom(b, pkg)
  {
    if a == [] {
      assert a + b == b;
    } else {
      var ab := a + b;
      assert ab[0] == a[0] && ab[1..] == a[1..] + b;
      BadValuesFromInOrder(a[1..], b, pkg);
    }
  }

  /** The checks of `save_message` before it touches storage, in the order it
      makes them: missing keys, then blank or non-string values, then the
      timestamp. */
  function Validate(pkg: Document, isIsoTimestamp: string -> bool): (r: Result<(), StoreError>)
    ensures r.Success? <==> WellFormed(pkg, isIsoTimestamp)
    ensures r.Failure? ==> r.error.MissingKeys? || r.error.BlankValues? || r.error.BadTimestamp?
    ensures r.Failure? && r.error.MissingKeys? ==>
              && r.error.keys == MissingFrom(RequiredKeys, pkg)
              && r.error.keys != []
              && forall k :: k in r.error.keys <==> k in RequiredKeys && k !in pkg
    ensures r.Failure? && r.error.BlankValues? ==>
              && (forall k :: k in RequiredKeys ==> k in pkg)
              && r.error.keys == BadValuesFrom(RequiredKeys, pkg)
              && r.error.keys != []
              && forall k :: k in r.error.keys <==> k in RequiredKeys && !IsNonBlankStr(pkg[k])
    ensures r.Failure? && r.error.BadTimestamp? ==>
              && (forall k :: k in RequiredKeys ==> k in pkg && IsNonBlankStr(pkg[k]))
              && !isIsoTimestamp(pkg["timestamp"].text)
  {
    assert RequiredKeys[5] == "timestamp";
    MissingFromMembers(RequiredKeys, pkg);
    BadValuesFromMembers(RequiredKeys, pkg);
    if MissingFrom(RequiredKeys, pkg) != [] then Failure(MissingKeys(MissingFrom(RequiredKeys, pkg)))
    else if BadValuesFrom(RequiredKeys, pkg) != [] then Failure(BlankValues(BadValuesFrom(RequiredKeys, pkg)))
    else if !isIsoTimestamp(pkg["timestamp"].text) then Failure(BadTimestamp)
    else Success(())
  }

  /** An envelope whose six fields are non-blank and whose timestamp parses
      passes validation. */
  lemma EnvelopeValidates(e: Envelope, isIsoTimestamp: string -> bool)
    requires !IsBlank(e.fromUser) && !IsBlank(e.toUser)
    requires !IsBlank(e.sealed.encryptedMessage) && !IsBlank(e.sealed.encryptedKey)
    requires !IsBlank(e.sealed.nonce) && !IsBlank(e.timestamp)
    requires isIsoTimestamp(e.timestamp)
    ensures Validate(e.ToDocument(), isIsoTimestamp) == Success(())
  {
    var d := e.ToDocument();
    assert IsNonBlankStr(Str(e.fromUser)) && IsNonBlankStr(Str(e.toUser));
    assert IsNonBlankStr(Str(e.sealed.encryptedMessage)) && IsNonBlankStr(Str(e.sealed.encryptedKey));
    assert IsNonBlankStr(Str(e.sealed.nonce)) && IsNonBlankStr(Str(e.timestamp));
    forall k | k in RequiredKeys
      ensures k in d && IsNonBlankStr(d[k])
    {
    }
  }

  // ---------------------------------------------------------------------
  // The log store
  // ---------------------------------------------------------------------

  /** The content of `messages/<name>.json`: a parsed array of envelopes, or
      text that does not parse as JSON. */
  datatype Log = Entries(items: seq<Document>) | CorruptLog

  /** The `messages/` directory, keyed by sanitised recipient name. */
  type Store = map<string, Log>

  /** The log `_write_message` starts from: a missing or corrupt file reads as
      empty. */
  function Existing(store: Store, key: string): (r: seq<Document>)
    ensures key in store && store[key].Entries? ==> r == store[key].items
    ensures key !in store || store[key].CorruptLog? ==> r == []
  {
    if key in store && store[key].Entries? then store[key].items else []
  }

  /** The `to_user` text of a package, blank when it has none. */
  function Recipient(pkg: Document): string {
    if "to_user" in pkg && pkg["to_user"].Str? then pkg["to_user"].text else ""
  }

  /** `_write_message`: the recipient's log becomes the old log (empty when
      missing or corrupt) followed by the package; no other log changes. */
  function WriteMessage(store: Store, key: string, pkg: Document): (r: Store)
    ensures r.Keys == store.Keys + {key}
    ensures r[key] == Entries(Existing(store, key) + [pkg])
    ensures forall k :: k in store && k != key ==> r[k] == store[k]
  {
    store[key := Entries(Existing(store, key) + [pkg])]
  }

  /** `save_message`: validate, sanitise the recipient, take the lock, append.
      `lockAcquired` says whether the lock was obtained within the timeout
      (or no lock library is installed). */
  function SaveMessage(store: Store, pkg: Document, isIsoTimestamp: string -> bool,
                       lockAcquired: bool): (r: Result<Store, StoreError>)
    ensures r.Success? <==> && WellFormed(pkg, isIsoTimestamp)
                            && Sanitize(Recipient(pkg)).Success?
                            && lockAcquired
    ensures Validate(pkg, isIsoTimestamp).Failure? ==>
              r == Failure(Validate(pkg, isIsoTimestamp).error)
    ensures Validate(pkg, isIsoTimestamp).Success? && Sanitize(Recipient(pkg)).Failure? ==>
              r == Failure(Sanitize(Recipient(pkg)).error)
    ensures WellFormed(pkg, isIsoTimestamp) && Sanitize(Recipient(pkg)).Success? && !lockAcquired ==>
              r == Failure(LockTimeout)
    ensures r.Success? ==>
              var key := Sanitize(Recipient(pkg)).value;
              && r.value.Keys == store.Keys + {key}
              && r.value[key] == Entries(Existing(store, key) + [pkg])
              && forall k :: k in store && k != key ==> r.value[k] == store[k]
  {
    match Validate(pkg, isIsoTimestamp)
    case Failure(e) => Failure(e)
    case Success(_) =>
      assert RequiredKeys[1] == "to_user";
      match Sanitize(Recipient(pkg))
      case Failure(e) => Failure(e)
      case Success(key) =>
        if !lockAcquired then Failure(LockTimeout)
        else Success(WriteMessage(store, key, pkg))
  }

  /** `get_messages_for_user`: the stored log, or `[]` when it is missing or
      corrupt; an invalid name raises. */
  function Fetch(store: Store, username: string): (r: Result<seq<Document>, StoreError>)
    ensures r.Success? <==> Sanitize(username).Success?
    ensures r.Failure? ==> r.error == Sanitize(username).error
    ensures r.Success? ==>
              var key := Sanitize(username).value;
              && (key in store && store[key].Entries? ==> r.value == store[key].items)
              && (key !in store || store[key].CorruptLog? ==> r.value == [])
  {
    match Sanitize(username)
    case Failure(e) => Failure(e)
    case Success(key) => Success(Existing(store, key))
  }

  /** `clear_messages_for_user`: removes the log file if there is one. */
  function Clear(store: Store, username: string): (r: Result<Store, StoreError>)
    ensures r.Success? <==> Sanitize(username).Success?
    ensures r.Failure? ==> r.error == Sanitize(username).error
    ensures r.Success? ==>
              && r.value.Keys == store.Keys - {Sanitize(username).value}
              && forall k :: k in r.value ==> r.value[k] == store[k]
  {
    match Sanitize(username)
    case Failure(e) => Failure(e)
    case Success(key) => Success(store - {key})
  }

  /** After a save, fetching any name that sanitises to the recipient returns
      the previous log with the package appended last. */
  lemma FetchAfterSave(store: Store, pkg: Document, isIsoTimestamp: string -> bool,
                       lockAcquired: bool, username: string)
    requires SaveMessage(store, pkg, isIsoTimestamp, lockAcquired).Success?
    requires Sanitize(username) == Sanitize(Recipient(pkg))
    ensures Fetch(store, username).Success?
    ensures Fetch(SaveMessage(store, pkg, isIsoTimestamp, lockAcquired).value, username)
            == Success(Fetch(store, username).value + [pkg])
  {
  }

  /** A save leaves every other recipient's log as it was. */
  lemma FetchAfterSaveElsewhere(store: Store, pkg: Document, isIsoTimestamp: string -> bool,
                                lockAcquired: bool, username: string)
    requires SaveMessage(store, pkg, isIsoTimestamp, lockAcquired).Success?
    requires Sanitize(username).Success? && Sanitize(username) != Sanitize(Recipient(pkg))
    ensures Fetch(SaveMessage(store, pkg, isIsoTimestamp, lockAcquired).value, username)
            == Fetch(store, username)
  {
  }

  /** After clearing, the log reads as empty under every spelling of the name,
      and every other user's log reads as before. */
  lemma FetchAfterClear(store: Store, username: string, other: string)
    requires Clear(store, username).Success?
    ensures Sanitize(other) == Sanitize(username) ==> Fetch(Clear(store, username).value, other) == Success([])
    ensures Sanitize(other).Success? && Sanitize(other) != Sanitize(username)
            ==> Fetch(Clear(store, username).value, other) == Fetch(store, other)
  {
  }

  /** Clearing twice is clearing once, and clearing an absent log changes nothing. */
  lemma ClearIdempotent(store: Store, username: string)
    requires Clear(store, username).Success?
    ensures Clear(Clear(store, username).value, username) == Clear(store, username)
    ensures Sanitize(username).value !in store ==> Clear(store, username) == Success(store)
  {
    var key := Sanitize(username).value;
    assert (store - {key}) - {key} == store - {key};
    if key !in store {
      assert store - {key} == store;
    }
  }

  // ---------------------------------------------------------------------
  // Public keys
  // ---------------------------------------------------------------------

  /** `get_user_public_key`: the `public_key` field of `Users/<username>.json`,
      looked up under the exact name given, without sanitising; `None` when
      the file is missing, does not parse, or lacks the field. */
  function GetUserPublicKey(users: UserDir, username: string): (r: Option<Value>)
    ensures r.Some? <==> && username in users && users[username].Record?
                         && "public_key" in users[username].doc
    ensures r.Some? ==> r.value == users[username].doc["public_key"]
  {
    if username in users && users[username].Record? && "public_key" in users[username].doc
    then Some(users[username].doc["public_key"])
    else None
  }
}
