/** messaging.py: composing and saving an envelope, and reading a log back
    through decryption. */
module Messaging {
  import opened Basics
  import opened PyStr
  import opened Primitives
  import opened UserFiles
  import opened MessageStorage

  // ---------------------------------------------------------------------
  // Sending
  // ---------------------------------------------------------------------

  /** The package `send_message_programmatic` saves: the six envelope keys
      and the caller's `from_user_id`. */
  function ProgrammaticPackage(fromUserId: Value, e: Envelope): (r: Document)
    ensures r.Keys == e.ToDocument().Keys + {"from_user_id"}
    ensures r["from_user_id"] == fromUserId
    ensures forall k :: k in e.ToDocument() && k != "from_user_id" ==> r[k] == e.ToDocument()[k]
  {
    e.ToDocument()["from_user_id" := fromUserId]
  }

  /** `send_message_programmatic`: look up the recipient's public key, encrypt,
      save.  `coins` stands for the fresh AES key and nonce, `now` for
      `datetime.now().isoformat()`, `lockAcquired` for the storage lock.
      Every exception is caught and reported as `false`. */
  function SendProgrammatic(store: Store, users: UserDir, p: Primitives, fromUserId: Value,
                            fromUsername: string, toUsername: string, text: string,
                            coins: Bytes, now: string, lockAcquired: bool): (r: (Store, bool))
    ensures !r.1 ==> r.0 == store
    ensures (GetUserPublicKey(users, toUsername).None? || !Truthy(GetUserPublicKey(users, toUsername).value))
            ==> !r.1
    ensures r.1 ==>
              && GetUserPublicKey(users, toUsername).Some?
              && EncryptFor(p, text, GetUserPublicKey(users, toUsername).value, coins).Some?
    ensures r.1 ==>
              && Fetch(store, toUsername).Success?
              && var before := Fetch(store, toUsername).value;
              && var sealed := EncryptFor(p, text, GetUserPublicKey(users, toUsername).value, coins).value;
              && Fetch(r.0, toUsername)
                 == Success(before + [ProgrammaticPackage(fromUserId, Envelope(fromUsername, toUsername, sealed, now))])
    ensures GetUserPublicKey(users, toUsername).Some? && Truthy(GetUserPublicKey(users, toUsername).value)
            && EncryptFor(p, text, GetUserPublicKey(users, toUsername).value, coins).Some? ==>
              var sealed := EncryptFor(p, text, GetUserPublicKey(users, toUsername).value, coins).value;
              var pkg := ProgrammaticPackage(fromUserId, Envelope(fromUsername, toUsername, sealed, now));
              (r.1 <==> SaveMessage(store, pkg, p.isIsoTimestamp, lockAcquired).Success?)
  {
    match GetUserPublicKey(users, toUsername)
    case None => (store, false)
    case Some(publicKey) =>
      if !Truthy(publicKey) then (store, false)
      else match EncryptFor(p, text, publicKey, coins)
        case None => (store, false)
        case Some(sealed) =>
          var pkg := ProgrammaticPackage(fromUserId, Envelope(fromUsername, toUsername, sealed, now));
          assert Recipient(pkg) == toUsername;
          match SaveMessage(store, pkg, p.isIsoTimestamp, lockAcquired)
          case Failure(_) => (store, false)
          case Success(saved) => (saved, true)
  }

  /** A successful programmatic send leaves every other recipient's log as
      it was. */
  lemma SendProgrammaticElsewhere(store: Store, users: UserDir, p: Primitives, fromUserId: Value,
                                  fromUsername: string, toUsername: string, text: string,
                                  coins: Bytes, now: string, lockAcquired: bool, other: string)
    requires SendProgrammatic(store, users, p, fromUserId, fromUsername, toUsername, text, coins, now, lockAcquired).1
    requires Sanitize(other).Success? && Sanitize(other) != Sanitize(toUsername)
    ensures Fetch(SendProgrammatic(store, users, p, fromUserId, fromUsername, toUsername, text, coins, now, lockAcquired).0, other)
            == Fetch(store, other)
  {
    var sealed := EncryptFor(p, text, GetUserPublicKey(users, toUsername).value, coins).value;
    var pkg := ProgrammaticPackage(fromUserId, Envelope(fromUsername, toUsername, sealed, now));
    assert Recipient(pkg) == toUsername;
    FetchAfterSaveElsewhere(store, pkg, p.isIsoTimestamp, lockAcquired, other);
  }

  /** The saved package carries the caller's sender, sender id and recipient. */
  lemma ProgrammaticPackageFields(fromUserId: Value, e: Envelope)
    ensures var pkg := ProgrammaticPackage(fromUserId, e);
            && pkg["from_user"] == Str(e.fromUser)
            && pkg["from_user_id"] == fromUserId
            && pkg["to_user"] == Str(e.toUser)
            && pkg.Keys == e.ToDocument().Keys + {"from_user_id"}
  {
  }

  /** What `send_message_ui` ends with. */
  datatype UiOutcome = EmptyRecipient | RecipientNotFound | EmptyMessage | Sent | SendFailed

  /** `send_message_ui` given the two stripped answers to its prompts: an
      empty recipient, an unknown recipient or an empty message returns
      before anything is encrypted or saved. */
  function SendUi(store: Store, users: UserDir, p: Primitives, senderUsername: string,
                  recipientInput: string, messageInput: string,
                  coins: Bytes, now: string, lockAcquired: bool): (r: (Store, UiOutcome))
    ensures r.1 != Sent ==> r.0 == store
    ensures Strip(recipientInput) == [] ==> r.1 == EmptyRecipient
    ensures Strip(recipientInput) != []
            && (GetUserPublicKey(users, Strip(recipientInput)).None?
                || !Truthy(GetUserPublicKey(users, Strip(recipientInput)).value))
            ==> r.1 == RecipientNotFound
    ensures Strip(recipientInput) != [] && GetUserPublicKey(users, Strip(recipientInput)).Some?
            && Truthy(GetUserPublicKey(users, Strip(recipientInput)).value)
            && Strip(messageInput) == []
            ==> r.1 == EmptyMessage
    ensures r.1 == Sent ==>
              && Strip(messageInput) != []
              && var recipient := Strip(recipientInput);
              && GetUserPublicKey(users, recipient).Some?
              && EncryptFor(p, Strip(messageInput), GetUserPublicKey(users, recipient).value, coins).Some?
              && var sealed := EncryptFor(p, Strip(messageInput), GetUserPublicKey(users, recipient).value, coins).value;
              && SaveMessage(store, Envelope(senderUsername, recipient, sealed, now).ToDocument(),
                             p.isIsoTimestamp, lockAcquired) == Success(r.0)
    ensures var recipient := Strip(recipientInput);
            recipient != [] && Strip(messageInput) != []
            && GetUserPublicKey(users, recipient).Some? && Truthy(GetUserPublicKey(users, recipient).value) ==>
              && (EncryptFor(p, Strip(messageInput), GetUserPublicKey(users, recipient).value, coins).None?
                  ==> r == (store, SendFailed))
              && (EncryptFor(p, Strip(messageInput), GetUserPublicKey(users, recipient).value, coins).Some? ==>
                    var sealed := EncryptFor(p, Strip(messageInput), GetUserPublicKey(users, recipient).value, coins).value;
                    var saved := SaveMessage(store, Envelope(senderUsername, recipient, sealed, now).ToDocument(),
                                             p.isIsoTimestamp, lockAcquired);
                    && (saved.Failure? ==> r == (store, SendFailed))
                    && (saved.Success? ==> r == (saved.value, Sent)))
  {
    var recipient := Strip(recipientInput);
    if recipient == [] then (store, EmptyRecipient)
    else match GetUserPublicKey(users, recipient)
      case None => (store, RecipientNotFound)
      case Some(publicKey) =>
        if !Truthy(publicKey) then (store, RecipientNotFound)
        else
          var text := Strip(messageInput);
          if text == [] then (store, EmptyMessage)
          else match EncryptFor(p, text, publicKey, coins)
            case None => (store, SendFailed)
            case Some(sealed) =>
              match SaveMessage(store, Envelope(senderUsername, recipient, sealed, now).ToDocument(),
                                p.isIsoTimestamp, lockAcquired)
              case Failure(_) => (store, SendFailed)
              case Success(saved) => (saved, Sent)
  }

  // ---------------------------------------------------------------------
  // Reading
  // ---------------------------------------------------------------------

  /** One entry of `read_messages_programmatic`; sender and timestamp fall
      back to `'Unknown'`. */
  datatype ReadEntry = ReadEntry(from: Value, message: string, timestamp: Value)

  /** The entry for one stored envelope, `None` when reading or decrypting it
      raises (the bare `except` skips it). */
  function ReadEntryOf(p: Primitives, msg: Document, key: PrivateKey): (r: Option<ReadEntry>)
    ensures r.Some? <==> OpenEnvelope(p, msg, key).Some?
    ensures r.Some? ==> r.value.message == OpenEnvelope(p, msg, key).value
    ensures r.Some? ==> r.value.from == Get(msg, "from_user", Str("Unknown"))
    ensures r.Some? ==> r.value.timestamp == Get(msg, "timestamp", Str("Unknown"))
  {
    match OpenEnvelope(p, msg, key)
    case None => None
    case Some(text) =>
      Some(ReadEntry(Get(msg, "from_user", Str("Unknown")), text, Get(msg, "timestamp", Str("Unknown"))))
  }

  /** The entries of `msgs[i..]` whose envelopes open, in log order. */
  function ReadableFrom(p: Primitives, msgs: seq<Document>, key: PrivateKey, i: nat): (r: seq<ReadEntry>)
    requires i <= |msgs|
    ensures |r| <= |msgs| - i
    decreases |msgs| - i
  {
    if i == |msgs| then []
    else
      (match ReadEntryOf(p, msgs[i], key) case None => [] case Some(e) => [e])
      + ReadableFrom(p, msgs, key, i + 1)
  }

  /** The positions in `msgs[i..]` of the envelopes that open, ascending. */
  function PositionsFrom(p: Primitives, msgs: seq<Document>, key: PrivateKey, i: nat): seq<nat>
    requires i <= |msgs|
    decreases |msgs| - i
  {
    if i == |msgs| then []
    else (if ReadEntryOf(p, msgs[i], key).Some? then [i] else []) + PositionsFrom(p, msgs, key, i + 1)
  }

  /** The read entries are the envelopes at the chosen positions: one
      position per entry, each inside the log, each opening to its entry. */
  lemma {:induction false} ReadableAtPositions(p: Primitives, msgs: seq<Document>, key: PrivateKey, i: nat)
    requires i <= |msgs|
    ensures |PositionsFrom(p, msgs, key, i)| == |ReadableFrom(p, msgs, key, i)|
    ensures forall j :: 0 <= j < |PositionsFrom(p, msgs, key, i)| ==>
              && i <= PositionsFrom(p, msgs, key, i)[j] < |msgs|
              && ReadEntryOf(p, msgs[PositionsFrom(p, msgs, key, i)[j]], key)
                 == Some(ReadableFrom(p, msgs, key, i)[j])
    decreases |msgs| - i
  {
    if i < |msgs| {
      ReadableAtPositions(p, msgs, key, i + 1);
      var rest, later := PositionsFrom(p, msgs, key, i + 1), ReadableFrom(p, msgs, key, i + 1);
      var e := ReadEntryOf(p, msgs[i], key);
      if e.Some? {
        assert PositionsFrom(p, msgs, key, i) == [i] + rest;
        assert ReadableFrom(p, msgs, key, i) == [e.value] + later;
      } else {
        assert PositionsFrom(p, msgs, key, i) == rest;
        assert ReadableFrom(p, msgs, key, i) == later;
      }
    }
  }

  /** The positions chosen from `msgs[i..]` lie inside that suffix. */
  lemma {:induction false} PositionsFromBound(p: Primitives, msgs: seq<Document>, key: PrivateKey, i: nat)
    requires i <= |msgs|
    ensures forall j :: 0 <= j < |PositionsFrom(p, msgs, key, i)| ==>
              i <= PositionsFrom(p, msgs, key, i)[j] < |msgs|
    decreases |msgs| - i
  {
    if i < |msgs| {
      PositionsFromBound(p, msgs, key, i + 1);
    }
  }

  /** The chosen positions strictly ascend, so the read entries keep log order. */
  lemma {:induction false} PositionsAscend(p: Primitives, msgs: seq<Document>, key: PrivateKey, i: nat)
    requires i <= |msgs|
    ensures forall j, k :: 0 <= j < k < |PositionsFrom(p, msgs, key, i)| ==>
              PositionsFrom(p, msgs, key, i)[j] < PositionsFrom(p, msgs, key, i)[k]
    decreases |msgs| - i
  {
    if i < |msgs| {
      PositionsAscend(p, msgs, key, i + 1);
      PositionsFromBound(p, msgs, key, i + 1);
      var rest := PositionsFrom(p, msgs, key, i + 1);
      if ReadEntryOf(p, msgs[i], key).Some? {
        var idx := [i] + rest;
        assert PositionsFrom(p, msgs, key, i) == idx;
        forall j, k | 0 <= j < k < |idx| ensures idx[j] < idx[k] {
          assert idx[k] == rest[k - 1];
          if j > 0 {
            assert idx[j] == rest[j - 1];
          }
        }
      }
    }
  }

  /** Every envelope that opens is chosen: with `ReadableAtPositions` and
      `PositionsAscend`, the read entries are an order-preserving selection
      of exactly the envelopes that open. */
  lemma {:induction false} PositionsCover(p: Primitives, msgs: seq<Document>, key: PrivateKey, i: nat)
    requires i <= |msgs|
    ensures forall n :: i <= n < |msgs| && ReadEntryOf(p, msgs[n], key).Some? ==>
              n in PositionsFrom(p, msgs, key, i)
    decreases |msgs| - i
  {
    if i < |msgs| {
      PositionsCover(p, msgs, key, i + 1);
      var rest := PositionsFrom(p, msgs, key, i + 1);
      assert PositionsFrom(p, msgs, key, i)
             == (if ReadEntryOf(p, msgs[i], key).Some? then [i] else []) + rest;
    }
  }

  /** Reading a log with one more envelope at the end reads what was read
      before, followed by that envelope's entry if it opens. */
  lemma {:induction false} ReadableAppend(p: Primitives, msgs: seq<Document>, m: Document, key: PrivateKey, i: nat)
    requires i <= |msgs|
    ensures ReadableFrom(p, msgs + [m], key, i)
            == ReadableFrom(p, msgs, key, i)
               + (match ReadEntryOf(p, m, key) case None => [] case Some(e) => [e])
    decreases |msgs| - i
  {
    var tail := match ReadEntryOf(p, m, key) case None => [] case Some(e) => [e];
    if i == |msgs| {
      assert (msgs + [m])[i] == m;
      assert ReadableFrom(p, msgs + [m], key, i) == tail + ReadableFrom(p, msgs + [m], key, i + 1);
    } else {
      ReadableAppend(p, msgs, m, key, i + 1);
      assert (msgs + [m])[i] == msgs[i];
      var head := match ReadEntryOf(p, msgs[i], key) case None => [] case Some(e) => [e];
      assert ReadableFrom(p, msgs + [m], key, i) == head + ReadableFrom(p, msgs + [m], key, i + 1);
      assert ReadableFrom(p, msgs, key, i) == head + ReadableFrom(p, msgs, key, i + 1);
    }
  }

  /** After a save, a reader sharing the recipient's log reads what it read
      before, followed by the saved envelope's entry if it opens. */
  lemma ReadAfterSave(store: Store, pkg: Document, isIsoTimestamp: string -> bool, lockAcquired: bool,
                      p: Primitives, reader: string, key: PrivateKey)
    requires SaveMessage(store, pkg, isIsoTimestamp, lockAcquired).Success?
    requires Sanitize(reader) == Sanitize(Recipient(pkg))
    ensures var after := SaveMessage(store, pkg, isIsoTimestamp, lockAcquired).value;
            && Fetch(store, reader).Success? && Fetch(after, reader).Success?
            && ReadableFrom(p, Fetch(after, reader).value, key, 0)
               == ReadableFrom(p, Fetch(store, reader).value, key, 0)
                  + (match ReadEntryOf(p, pkg, key) case None => [] case Some(e) => [e])
  {
    FetchAfterSave(store, pkg, isIsoTimestamp, lockAcquired, reader);
    ReadableAppend(p, Fetch(store, reader).value, pkg, key, 0);
  }

  /** What a successful programmatic send to the key `pem` saved. */
  lemma ProgrammaticSave(store: Store, users: UserDir, p: Primitives, fromUserId: Value,
                         fromUsername: string, toUsername: string, text: string,
                         coins: Bytes, now: string, lockAcquired: bool, pem: string)
    requires SendProgrammatic(store, users, p, fromUserId, fromUsername, toUsername, text, coins, now, lockAcquired).1
    requires GetUserPublicKey(users, toUsername) == Some(Str(pem))
    ensures var pkg := ProgrammaticPackage(fromUserId, Envelope(fromUsername, toUsername, p.encrypt(text, pem, coins).value, now));
            && p.encrypt(text, pem, coins).Some?
            && Recipient(pkg) == toUsername
            && SaveMessage(store, pkg, p.isIsoTimestamp, lockAcquired)
               == Success(SendProgrammatic(store, users, p, fromUserId, fromUsername, toUsername, text, coins, now, lockAcquired).0)
  {
    var e := Envelope(fromUsername, toUsername, p.encrypt(text, pem, coins).value, now);
    EnvelopeFields(e);
  }

  /** A programmatic package sealed for `pem` reads back as its plaintext
      under a key that opens `pem`. */
  lemma ProgrammaticEntry(p: Primitives, fromUserId: Value, fromUsername: string, toUsername: string,
                          text: string, pem: string, coins: Bytes, now: string, key: PrivateKey)
    requires p.encrypt(text, pem, coins).Some? && Opens(p, pem, key)
    ensures ReadEntryOf(p, ProgrammaticPackage(fromUserId, Envelope(fromUsername, toUsername, p.encrypt(text, pem, coins).value, now)), key)
            == Some(ReadEntry(Str(fromUsername), text, Str(now)))
  {
    var e := Envelope(fromUsername, toUsername, p.encrypt(text, pem, coins).value, now);
    EnvelopeFields(e);
    assert SealedIn(ProgrammaticPackage(fromUserId, e)) == Some(e.sealed);
  }

  /** A message sent with `send_message_programmatic` is read back, last and
      in plain text, by a reader whose name shares the recipient's log and
      whose private key opens what is encrypted to the recipient's key. */
  lemma ReadAfterSend(store: Store, users: UserDir, p: Primitives, fromUserId: Value,
                      fromUsername: string, toUsername: string, text: string,
                      coins: Bytes, now: string, lockAcquired: bool,
                      reader: string, pem: string, key: PrivateKey)
    requires SendProgrammatic(store, users, p, fromUserId, fromUsername, toUsername, text, coins, now, lockAcquired).1
    requires GetUserPublicKey(users, toUsername) == Some(Str(pem))
    requires Sanitize(reader) == Sanitize(toUsername)
    requires Opens(p, pem, key)
    ensures var after := SendProgrammatic(store, users, p, fromUserId, fromUsername, toUsername, text, coins, now, lockAcquired).0;
            && Fetch(store, reader).Success? && Fetch(after, reader).Success?
            && ReadableFrom(p, Fetch(after, reader).value, key, 0)
               == ReadableFrom(p, Fetch(store, reader).value, key, 0) + [ReadEntry(Str(fromUsername), text, Str(now))]
  {
    ProgrammaticSave(store, users, p, fromUserId, fromUsername, toUsername, text, coins, now, lockAcquired, pem);
    ProgrammaticEntry(p, fromUserId, fromUsername, toUsername, text, pem, coins, now, key);
    var pkg := ProgrammaticPackage(fromUserId, Envelope(fromUsername, toUsername, p.encrypt(text, pem, coins).value, now));
    ReadAfterSave(store, pkg, p.isIsoTimestamp, lockAcquired, p, reader, key);
  }

  /** `read_messages_programmatic`: fetch the log (an invalid name gives
      `[]`) and keep, in order, the entries of the envelopes that open. */
  method ReadMessages(store: Store, p: Primitives, userId: string, key: PrivateKey) returns (r: seq<ReadEntry>)
    ensures Fetch(store, userId).Failure? ==> r == []
    ensures Fetch(store, userId).Success? ==> r == ReadableFrom(p, Fetch(store, userId).value, key, 0)
  {
    var fetched := Fetch(store, userId);
    if fetched.Failure? {
      return [];
    }
    var messages := fetched.value;
    r := [];
    var i := 0;
    while i < |messages|
      invariant 0 <= i <= |messages|
      invariant r + ReadableFrom(p, messages, key, i) == ReadableFrom(p, messages, key, 0)
    {
      var entry := ReadEntryOf(p, messages[i], key);
      var later := ReadableFrom(p, messages, key, i + 1);
      if entry.Some? {
        assert ReadableFrom(p, messages, key, i) == [entry.value] + later;
        assert (r + [entry.value]) + later == r + ([entry.value] + later);
        r := r + [entry.value];
      } else {
        assert ReadableFrom(p, messages, key, i) == later;
      }
      i := i + 1;
    }
  }
}
