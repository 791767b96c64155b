/** flask-api-backend.py: the JSON endpoints as transitions of the server
    state, each answering with an HTTP status and a body. */
module Api {
  import opened Basics
  import opened PyStr
  import opened Primitives
  import opened UserFiles
  import opened MessageStorage
  import opened Auth

  /** An entry of `active_sessions`. */
  datatype Session = Session(username: string, privateKey: PrivateKey, publicKey: Value)

  /** The user and key directories, the in-memory sessions, and the message logs. */
  datatype State = State(users: UserDir, keys: KeyStore, sessions: map<string, Session>, logs: Store)

  /** One element of the `messages` list of a successful inbox reply. */
  datatype InboxEntry = InboxEntry(id: nat, from: Value, message: string, timestamp: Value)

  /** The JSON bodies the endpoints answer with; `ServerError` is a 500 whose
      text is the message of whatever exception was raised. */
  datatype Body =
    | ErrorMessage(text: string)
    | ServerError
    | SignedUp(username: string)
    | LoggedIn(username: string, token: string)
    | LoggedOut
    | MessageSent
    | Inbox(messages: seq<InboxEntry>)

  datatype Response = Response(status: int, body: Body)

  datatype Reply = Reply(state: State, response: Response)

  /** `request.json`: `None` when the body is not a JSON object. */
  type Request = Option<Document>

  const InvalidCredentials := "Invalid username or password"
  const NotAuthenticated := "Not authenticated"

  function Fail(status: int, text: string): Response {
    Response(status, ErrorMessage(text))
  }

  /** `data.get(key, '').strip()`: `None` when the value is not a string and
      `.strip` raises. */
  function Field(req: Document, key: string): (r: Option<string>)
    ensures key !in req ==> r == Some([])
    ensures key in req && req[key].Str? ==> r == Some(Strip(req[key].text))
    ensures key in req && !req[key].Str? ==> r == None
  {
    if key !in req then Some(Strip([]))
    else match req[key]
      case Str(text) => Some(Strip(text))
      case NonStr(_) => None
  }

  /** `session_token in active_sessions`, and the session it names. */
  function ActiveSession(sessions: map<string, Session>, req: Document): (r: Option<Session>)
    ensures r.Some? <==> "session_token" in req && req["session_token"].Str?
                         && req["session_token"].text in sessions
    ensures r.Some? ==> r.value == sessions[req["session_token"].text]
  {
    if "session_token" in req && req["session_token"].Str? && req["session_token"].text in sessions
    then Some(sessions[req["session_token"].text])
    else None
  }

  // ---------------------------------------------------------------------
  // /api/signup
  // ---------------------------------------------------------------------

  /** `POST /api/signup`.  `listing` is what listing `Users/` returned,
      `freshSalt` and `kp` the salt and key pair drawn for the new account. */
  function Signup(st: State, req: Request, p: Primitives, listing: Option<seq<string>>,
                  freshSalt: Bytes32, kp: KeyPair): (r: Reply)
    ensures r.response.status in {200, 400, 500}
    ensures r.response.status != 200 ==> r.state == st
    ensures req.None? || Field(req.value, "username").None? || Field(req.value, "password").None?
            ==> r.response == Response(500, ServerError)
    ensures req.Some? && Field(req.value, "username").Some? && Field(req.value, "password").Some? ==>
              var u, pw := Field(req.value, "username").value, Field(req.value, "password").value;
              && (|u| < 3 ==> r.response == Fail(400, "Username must be at least 3 characters"))
              && (|u| >= 3 && |pw| < 8 ==> r.response == Fail(400, "Password must be at least 8 characters"))
              && (|u| >= 3 && |pw| >= 8 && u in LoadAllUsers(listing) ==>
                    r.response == Fail(400, "Username already taken"))
              && (r.response.status == 200 <==> |u| >= 3 && |pw| >= 8 && u !in LoadAllUsers(listing))
              && (r.response.status == 200 ==>
                    var a := CreateAccount(p, st.users, st.keys, u, pw, freshSalt, kp);
                    r == Reply(st.(users := a.users, keys := a.keys), Response(200, SignedUp(u))))
  {
    match req
    case None => Reply(st, Response(500, ServerError))
    case Some(data) =>
      match Field(data, "username")
      case None => Reply(st, Response(500, ServerError))
      case Some(u) =>
        match Field(data, "password")
        case None => Reply(st, Response(500, ServerError))
        case Some(pw) =>
          if |u| < 3 then Reply(st, Fail(400, "Username must be at least 3 characters"))
          else if |pw| < 8 then Reply(st, Fail(400, "Password must be at least 8 characters"))
          else if u in LoadAllUsers(listing) then Reply(st, Fail(400, "Username already taken"))
          else
            var a := CreateAccount(p, st.users, st.keys, u, pw, freshSalt, kp);
            Reply(st.(users := a.users, keys := a.keys), Response(200, SignedUp(u)))
  }

  // ---------------------------------------------------------------------
  // /api/login
  // ---------------------------------------------------------------------

  /** `Verify_password(password, user_data['password_hash'], user_data['salt'])`
      on a loaded record: `None` when a key is missing or the salt is not a
      decodable string (the call raises); a stored hash that is not a string
      never compares equal. */
  function CheckStoredPassword(p: Primitives, password: string, doc: Document): (r: Option<bool>)
    ensures r.Some? <==> && "password_hash" in doc && "salt" in doc && doc["salt"].Str?
                         && p.b64decode(doc["salt"].text).Some?
    ensures r == Some(true) <==> && "password_hash" in doc && doc["password_hash"].Str?
                                 && "salt" in doc && doc["salt"].Str?
                                 && VerifyPassword(p, password, doc["password_hash"].text, doc["salt"].text) == Some(true)
  {
    if "password_hash" !in doc || "salt" !in doc || !doc["salt"].Str? then None
    else
      var hash := doc["password_hash"];
      match VerifyPassword(p, password, if hash.Str? then hash.text else [], doc["salt"].text)
      case None => None
      case Some(ok) => Some(ok && hash.Str?)
  }

  /** `POST /api/login`.  `token` is the fresh `os.urandom(32).hex()`. */
  function Login(st: State, req: Request, p: Primitives, listing: Option<seq<string>>,
                 token: string): (r: Reply)
    ensures r.response.status in {200, 400, 401, 500}
    ensures r.response.status != 200 ==> r.state == st
    ensures r.response.status == 401 ==> r.response == Fail(401, InvalidCredentials)
    ensures req.None? || Field(req.value, "username").None? || Field(req.value, "password").None?
            ==> r.response == Response(500, ServerError)
    ensures req.Some? && Field(req.value, "username").Some? && Field(req.value, "password").Some? ==>
              var u, pw := Field(req.value, "username").value, Field(req.value, "password").value;
              && (u == [] || pw == [] ==> r.response == Fail(400, "Username and password required"))
              && (u != [] && pw != [] && u !in LoadAllUsers(listing) ==> r.response.status == 401)
              && (u != [] && pw != [] && u in LoadAllUsers(listing) ==>
                    && (LoadUser(st.users, u).Failure? ==> r.response == Response(500, ServerError))
                    && (LoadUser(st.users, u) in {Success(None), Success(Some(map[]))} ==> r.response.status == 401)
                    && (LoadUser(st.users, u).Success? && LoadUser(st.users, u).value.Some?
                        && LoadUser(st.users, u).value.value != map[] ==>
                          var doc := LoadUser(st.users, u).value.value;
                          && (CheckStoredPassword(p, pw, doc) == Some(false) ==> r.response.status == 401)
                          && (CheckStoredPassword(p, pw, doc).None? ==> r.response == Response(500, ServerError))
                          && (CheckStoredPassword(p, pw, doc) == Some(true) ==>
                                && (u !in st.keys || p.unlockKey(st.keys[u], pw).None?
                                    ==> r.response == Fail(500, "Failed to load encryption keys"))
                                && (u in st.keys && p.unlockKey(st.keys[u], pw).Some? && "public_key" !in doc
                                    ==> r.response == Response(500, ServerError)))))
    ensures r.response.status == 200 ==>
              && req.Some? && Field(req.value, "username").Some? && Field(req.value, "password").Some?
              && var u, pw := Field(req.value, "username").value, Field(req.value, "password").value;
              && u in LoadAllUsers(listing) && u in st.users && st.users[u].Record?
              && var doc := st.users[u].doc;
              && CheckStoredPassword(p, pw, doc) == Some(true)
              && u in st.keys && p.unlockKey(st.keys[u], pw).Some?
              && "public_key" in doc
              && r.state == st.(sessions := st.sessions[token := Session(u, p.unlockKey(st.keys[u], pw).value, doc["public_key"])])
              && r.response == Response(200, LoggedIn(u, token))
  {
    match req
    case None => Reply(st, Response(500, ServerError))
    case Some(data) =>
      match Field(data, "username")
      case None => Reply(st, Response(500, ServerError))
      case Some(u) =>
        match Field(data, "password")
        case None => Reply(st, Response(500, ServerError))
        case Some(pw) =>
          if u == [] || pw == [] then Reply(st, Fail(400, "Username and password required"))
          else if u !in LoadAllUsers(listing) then Reply(st, Fail(401, InvalidCredentials))
          else match LoadUser(st.users, u)
            case Failure(_) => Reply(st, Response(500, ServerError))
            case Success(None) => Reply(st, Fail(401, InvalidCredentials))
            case Success(Some(doc)) =>
              if doc == map[] then Reply(st, Fail(401, InvalidCredentials))
              else match CheckStoredPassword(p, pw, doc)
                case None => Reply(st, Response(500, ServerError))
                case Some(false) => Reply(st, Fail(401, InvalidCredentials))
                case Some(true) =>
                  if u !in st.keys || p.unlockKey(st.keys[u], pw).None? then
                    Reply(st, Fail(500, "Failed to load encryption keys"))
                  else if "public_key" !in doc then Reply(st, Response(500, ServerError))
                  else
                    var session := Session(u, p.unlockKey(st.keys[u], pw).value, doc["public_key"]);
                    Reply(st.(sessions := st.sessions[token := session]), Response(200, LoggedIn(u, token)))
  }

  /** A successful login adds exactly one session when the token is new, and
      leaves every other session as it was. */
  lemma LoginAddsOneSession(st: State, req: Request, p: Primitives, listing: Option<seq<string>>,
                            token: string)
    requires Login(st, req, p, listing, token).response.status == 200
    requires token !in st.sessions
    ensures var after := Login(st, req, p, listing, token).state.sessions;
            && after.Keys == st.sessions.Keys + {token}
            && |after| == |st.sessions| + 1
            && forall t :: t in st.sessions ==> after[t] == st.sessions[t]
  {
    var u, pw := Field(req.value, "username").value, Field(req.value, "password").value;
    var session := Session(u, p.unlockKey(st.keys[u], pw).value, st.users[u].doc["public_key"]);
    assert Login(st, req, p, listing, token).state.sessions == st.sessions[token := session];
    MapInsertGrows(st.sessions, token, session);
  }

  /** Login answers the one 401 exactly for an unlisted user, a missing or
      empty record, or a wrong password. */
  lemma LoginRejectsExactly(st: State, req: Request, p: Primitives, listing: Option<seq<string>>,
                            token: string)
    ensures Login(st, req, p, listing, token).response.status == 401 <==>
              && req.Some? && Field(req.value, "username").Some? && Field(req.value, "password").Some?
              && var u, pw := Field(req.value, "username").value, Field(req.value, "password").value;
              && u != [] && pw != []
              && (|| u !in LoadAllUsers(listing)
                  || LoadUser(st.users, u) in {Success(None), Success(Some(map[]))}
                  || (&& LoadUser(st.users, u).Success? && LoadUser(st.users, u).value.Some?
                      && CheckStoredPassword(p, pw, LoadUser(st.users, u).value.value) == Some(false)))
  {
  }

  lemma MapInsertGrows<K, V>(m: map<K, V>, k: K, v: V)
    requires k !in m
    ensures m[k := v].Keys == m.Keys + {k} && |m[k := v]| == |m| + 1
  {
    assert m[k := v].Keys == m.Keys + {k};
  }

  // ---------------------------------------------------------------------
  // /api/logout
  // ---------------------------------------------------------------------

  /** `POST /api/logout`: drops the session if the token names one, and
      succeeds either way. */
  function Logout(st: State, req: Request): (r: Reply)
    ensures r.response.status == 200 <==> req.Some?
    ensures req.None? ==> r == Reply(st, Response(500, ServerError))
    ensures req.Some? ==> r.response.body == LoggedOut
    ensures r.state.users == st.users && r.state.keys == st.keys && r.state.logs == st.logs
    ensures req.Some? && ActiveSession(st.sessions, req.value).Some? ==>
              r.state.sessions == st.sessions - {req.value["session_token"].text}
    ensures req.Some? && ActiveSession(st.sessions, req.value).None? ==> r.state == st
  {
    match req
    case None => Reply(st, Response(500, ServerError))
    case Some(data) =>
      if ActiveSession(st.sessions, data).Some? then
        Reply(st.(sessions := st.sessions - {data["session_token"].text}), Response(200, LoggedOut))
      else Reply(st, Response(200, LoggedOut))
  }

  /** Logging out twice with the same request is logging out once, and the
      token no longer opens a session. */
  lemma LogoutIdempotent(st: State, req: Request)
    ensures var once := Logout(st, req);
            Logout(once.state, req) == once
    ensures req.Some? ==> ActiveSession(Logout(st, req).state.sessions, req.value).None?
  {
    var once := Logout(st, req);
    if req.Some? && ActiveSession(st.sessions, req.value).Some? {
      var t := req.value["session_token"].text;
      assert (st.sessions - {t}) - {t} == st.sessions - {t};
    }
  }

  // ---------------------------------------------------------------------
  // /api/send
  // ---------------------------------------------------------------------

  /** `POST /api/send`.  `coins` stands for the fresh AES key and nonce, `now`
      for `datetime.now().isoformat()`, `lockAcquired` for the storage lock.
      Both fields are stripped before the session is checked. */
  function Send(st: State, req: Request, p: Primitives, coins: Bytes, now: string,
                lockAcquired: bool): (r: Reply)
    ensures r.response.status in {200, 400, 401, 404, 500}
    ensures r.response.status != 200 ==> r.state == st
    ensures r.state.users == st.users && r.state.keys == st.keys && r.state.sessions == st.sessions
    ensures req.None? || Field(req.value, "recipient").None? || Field(req.value, "message").None?
            ==> r.response == Response(500, ServerError)
    ensures r.response.status == 401 <==>
              && req.Some? && Field(req.value, "recipient").Some? && Field(req.value, "message").Some?
              && ActiveSession(st.sessions, req.value).None?
    ensures r.response.status == 401 ==> r.response == Fail(401, NotAuthenticated)
    ensures req.Some? && Field(req.value, "recipient").Some? && Field(req.value, "message").Some?
            && ActiveSession(st.sessions, req.value).Some? ==>
              var to, text := Field(req.value, "recipient").value, Field(req.value, "message").value;
              && (to == [] || text == [] ==> r.response == Fail(400, "Recipient and message required"))
              && (to != [] && text != [] && (GetUserPublicKey(st.users, to).None? || !Truthy(GetUserPublicKey(st.users, to).value))
                  ==> r.response == Fail(404, "User " + to + " not found"))
    ensures r.response.status == 200 ==>
              && req.Some? && ActiveSession(st.sessions, req.value).Some?
              && Field(req.value, "recipient").Some? && Field(req.value, "message").Some?
              && var from := ActiveSession(st.sessions, req.value).value.username;
              && var to, text := Field(req.value, "recipient").value, Field(req.value, "message").value;
              && to != [] && text != []
              && GetUserPublicKey(st.users, to).Some?
              && EncryptFor(p, text, GetUserPublicKey(st.users, to).value, coins).Some?
              && var pkg := Envelope(from, to, EncryptFor(p, text, GetUserPublicKey(st.users, to).value, coins).value, now).ToDocument();
              && SaveMessage(st.logs, pkg, p.isIsoTimestamp, lockAcquired) == Success(r.state.logs)
              && r.response == Response(200, MessageSent)
    ensures req.Some? && Field(req.value, "recipient").Some? && Field(req.value, "message").Some?
            && ActiveSession(st.sessions, req.value).Some? ==>
              var from := ActiveSession(st.sessions, req.value).value.username;
              var to, text := Field(req.value, "recipient").value, Field(req.value, "message").value;
              to != [] && text != []
              && GetUserPublicKey(st.users, to).Some? && Truthy(GetUserPublicKey(st.users, to).value) ==>
                && (EncryptFor(p, text, GetUserPublicKey(st.users, to).value, coins).None?
                    ==> r.response == Response(500, ServerError))
                && (EncryptFor(p, text, GetUserPublicKey(st.users, to).value, coins).Some? ==>
                      var pkg := Envelope(from, to, EncryptFor(p, text, GetUserPublicKey(st.users, to).value, coins).value, now).ToDocument();
                      && (SaveMessage(st.logs, pkg, p.isIsoTimestamp, lockAcquired).Failure?
                          ==> r.response == Response(500, ServerError))
                      && (SaveMessage(st.logs, pkg, p.isIsoTimestamp, lockAcquired).Success? ==>
                            && r.response.status == 200
                            && r.state.logs == SaveMessage(st.logs, pkg, p.isIsoTimestamp, lockAcquired).value))
  {
    match req
    case None => Reply(st, Response(500, ServerError))
    case Some(data) =>
      match Field(data, "recipient")
      case None => Reply(st, Response(500, ServerError))
      case Some(to) =>
        match Field(data, "message")
        case None => Reply(st, Response(500, ServerError))
        case Some(text) =>
          match ActiveSession(st.sessions, data)
          case None => Reply(st, Fail(401, NotAuthenticated))
          case Some(session) =>
            if to == [] || text == [] then Reply(st, Fail(400, "Recipient and message required"))
            else match GetUserPublicKey(st.users, to)
              case None => Reply(st, Fail(404, "User " + to + " not found"))
              case Some(publicKey) =>
                if !Truthy(publicKey) then Reply(st, Fail(404, "User " + to + " not found"))
                else match EncryptFor(p, text, publicKey, coins)
                  case None => Reply(st, Response(500, ServerError))
                  case Some(sealed) =>
                    var pkg := Envelope(session.username, to, sealed, now).ToDocument();
                    match SaveMessage(st.logs, pkg, p.isIsoTimestamp, lockAcquired)
                    case Failure(_) => Reply(st, Response(500, ServerError))
                    case Success(logs) => Reply(st.(logs := logs), Response(200, MessageSent))
  }

  /** A successful send appends exactly one envelope, from the session's user,
      to the recipient's log and to no other. */
  lemma SendAppendsOneEnvelope(st: State, req: Request, p: Primitives, coins: Bytes, now: string,
                               lockAcquired: bool)
    requires Send(st, req, p, coins, now, lockAcquired).response.status == 200
    ensures && req.Some? && Field(req.value, "recipient").Some? && ActiveSession(st.sessions, req.value).Some?
            && var after := Send(st, req, p, coins, now, lockAcquired).state.logs;
            && var to := Field(req.value, "recipient").value;
            && Fetch(st.logs, to).Success? && Fetch(after, to).Success?
            && var before, afterLog := Fetch(st.logs, to).value, Fetch(after, to).value;
            && |afterLog| == |before| + 1 && afterLog[..|before|] == before
            && "from_user" in afterLog[|before|] && "to_user" in afterLog[|before|]
            && afterLog[|before|]["from_user"] == Str(ActiveSession(st.sessions, req.value).value.username)
            && afterLog[|before|]["to_user"] == Str(to)
            && forall u :: Sanitize(u).Success? && Sanitize(u) != Sanitize(to) ==> Fetch(after, u) == Fetch(st.logs, u)
  {
    var to := Field(req.value, "recipient").value;
    var from := ActiveSession(st.sessions, req.value).value.username;
    var text := Field(req.value, "message").value;
    var sealed := EncryptFor(p, text, GetUserPublicKey(st.users, to).value, coins).value;
    var pkg := Envelope(from, to, sealed, now).ToDocument();
    EnvelopeFields(Envelope(from, to, sealed, now));
    assert Recipient(pkg) == to;
    FetchAfterSave(st.logs, pkg, p.isIsoTimestamp, lockAcquired, to);
    var before := Fetch(st.logs, to).value;
    assert (before + [pkg])[..|before|] == before;
    forall u | Sanitize(u).Success? && Sanitize(u) != Sanitize(to)
      ensures Fetch(Send(st, req, p, coins, now, lockAcquired).state.logs, u) == Fetch(st.logs, u)
    {
      FetchAfterSaveElsewhere(st.logs, pkg, p.isIsoTimestamp, lockAcquired, u);
    }
  }

  // ---------------------------------------------------------------------
  // /api/inbox
  // ---------------------------------------------------------------------

  /** The inbox entry for the envelope at position `id - 1`; `None` when it
      lacks a sealed part or does not decrypt (the loop then raises). */
  function InboxEntryOf(p: Primitives, msg: Document, key: PrivateKey, id: nat): (r: Option<InboxEntry>)
    ensures r.Some? <==> OpenEnvelope(p, msg, key).Some?
    ensures r.Some? ==> r.value == InboxEntry(id, Get(msg, "from_user", Str("Unknown")),
                                              OpenEnvelope(p, msg, key).value, Get(msg, "timestamp", Str("")))
  {
    match OpenEnvelope(p, msg, key)
    case None => None
    case Some(text) => Some(InboxEntry(id, Get(msg, "from_user", Str("Unknown")), text, Get(msg, "timestamp", Str(""))))
  }

  /** The decrypted inbox of a log: one entry per envelope, numbered from 1,
      or `None` as soon as one envelope does not open. */
  function InboxEntries(p: Primitives, msgs: seq<Document>, key: PrivateKey): (r: Option<seq<InboxEntry>>)
    ensures r.Some? <==> forall j :: 0 <= j < |msgs| ==> OpenEnvelope(p, msgs[j], key).Some?
    ensures r.Some? ==> |r.value| == |msgs|
    ensures r.Some? ==> forall j :: 0 <= j < |msgs| ==>
              r.value[j] == InboxEntry(j + 1, Get(msgs[j], "from_user", Str("Unknown")),
                                       OpenEnvelope(p, msgs[j], key).value, Get(msgs[j], "timestamp", Str("")))
    decreases |msgs|
  {
    if msgs == [] then Some([])
    else
      var prefix := msgs[..|msgs| - 1];
      match InboxEntries(p, prefix, key)
      case None => None
      case Some(entries) =>
        match InboxEntryOf(p, msgs[|msgs| - 1], key, |prefix| + 1)
        case None => None
        case Some(e) => Some(entries + [e])
  }

  /** `POST /api/inbox`: the session user's log, decrypted with the session's
      private key.  It never changes the state. */
  function GetInbox(st: State, req: Request, p: Primitives): (r: Reply)
    ensures r.state == st
    ensures r.response.status in {200, 401, 500}
    ensures req.None? ==> r.response == Response(500, ServerError)
    ensures r.response.status == 401 <==> req.Some? && ActiveSession(st.sessions, req.value).None?
    ensures r.response.status == 401 ==> r.response == Fail(401, NotAuthenticated)
    ensures r.response.status == 500 ==> r.response == Response(500, ServerError)
    ensures r.response.status == 200 <==>
              && req.Some? && ActiveSession(st.sessions, req.value).Some?
              && var s := ActiveSession(st.sessions, req.value).value;
              && Fetch(st.logs, s.username).Success?
              && InboxEntries(p, Fetch(st.logs, s.username).value, s.privateKey).Some?
    ensures r.response.status == 200 ==>
              var s := ActiveSession(st.sessions, req.value).value;
              r.response == Response(200, Inbox(InboxEntries(p, Fetch(st.logs, s.username).value, s.privateKey).value))
  {
    match req
    case None => Reply(st, Response(500, ServerError))
    case Some(data) =>
      match ActiveSession(st.sessions, data)
      case None => Reply(st, Fail(401, NotAuthenticated))
      case Some(session) =>
        match Fetch(st.logs, session.username)
        case Failure(_) => Reply(st, Response(500, ServerError))
        case Success(messages) =>
          match InboxEntries(p, messages, session.privateKey)
          case None => Reply(st, Response(500, ServerError))
          case Some(entries) => Reply(st, Response(200, Inbox(entries)))
  }

  /** The ids of a successful inbox reply are 1, 2, ..., n for a log of n
      envelopes. */
  lemma InboxIdsCount(st: State, req: Request, p: Primitives)
    requires GetInbox(st, req, p).response.status == 200
    ensures var s := ActiveSession(st.sessions, req.value).value;
            var entries := GetInbox(st, req, p).response.body.messages;
            && |entries| == |Fetch(st.logs, s.username).value|
            && forall j :: 0 <= j < |entries| ==> entries[j].id == j + 1
  {
  }
  // ---------------------------------------------------------------------
  // End to end
  // ---------------------------------------------------------------------

  /** The converse of the success clause of `Login`: a listed user with a
      non-empty record, a matching password, an unlockable key file and a
      public key is logged in under the fresh token. */
  lemma LoginSucceeds(st: State, req: Request, p: Primitives, listing: Option<seq<string>>,
                      token: string)
    requires req.Some? && Field(req.value, "username").Some? && Field(req.value, "password").Some?
    requires var u, pw := Field(req.value, "username").value, Field(req.value, "password").value;
             && u != [] && pw != [] && u in LoadAllUsers(listing)
             && u in st.users && st.users[u].Record? && st.users[u].doc != map[]
             && CheckStoredPassword(p, pw, st.users[u].doc) == Some(true)
             && u in st.keys && p.unlockKey(st.keys[u], pw).Some?
             && "public_key" in st.users[u].doc
    ensures Login(st, req, p, listing, token).response
            == Response(200, LoggedIn(Field(req.value, "username").value, token))
  {
    var u, pw := Field(req.value, "username").value, Field(req.value, "password").value;
    var doc := st.users[u].doc;
    assert LoadUser(st.users, u) == Success(Some(doc));
    assert !(u !in st.keys || p.unlockKey(st.keys[u], pw).None?);
  }

  /** Logging in with the credentials just signed up succeeds, given a
      listing of the new user directory. */
  lemma SignupThenLogin(st: State, signupReq: Request, p: Primitives, listing: Option<seq<string>>,
                        freshSalt: Bytes32, kp: KeyPair, loginReq: Request, names: seq<string>,
                        token: string)
    requires Base64RoundTrips(p) && KeyCustodyRoundTrips(p)
    requires Signup(st, signupReq, p, listing, freshSalt, kp).response.status == 200
    requires loginReq.Some?
    requires Field(loginReq.value, "username") == Field(signupReq.value, "username")
    requires Field(loginReq.value, "password") == Field(signupReq.value, "password")
    requires IsListingOf(names, Signup(st, signupReq, p, listing, freshSalt, kp).state.users)
    ensures var after := Signup(st, signupReq, p, listing, freshSalt, kp).state;
            var u := Field(signupReq.value, "username").value;
            Login(after, loginReq, p, Some(names), token).response == Response(200, LoggedIn(u, token))
  {
    var u, pw := Field(signupReq.value, "username").value, Field(signupReq.value, "password").value;
    var a := CreateAccount(p, st.users, st.keys, u, pw, freshSalt, kp);
    var after := st.(users := a.users, keys := a.keys);
    assert Signup(st, signupReq, p, listing, freshSalt, kp).state == after;
    AccountCredentials(p, st.users, st.keys, u, pw, freshSalt, kp);
    ListingMembership(names, after.users, u);
    assert "username" in after.users[u].doc;
    assert pw != [] by { assert |pw| >= 8; }
    LoginSucceeds(after, loginReq, p, Some(names), token);
  }

  /** Appending an envelope that opens extends a decrypted inbox by one entry
      numbered after the others. */
  lemma InboxEntriesAppend(p: Primitives, msgs: seq<Document>, pkg: Document, key: PrivateKey)
    requires InboxEntries(p, msgs, key).Some? && OpenEnvelope(p, pkg, key).Some?
    ensures InboxEntries(p, msgs + [pkg], key)
            == Some(InboxEntries(p, msgs, key).value + [InboxEntryOf(p, pkg, key, |msgs| + 1).value])
  {
    assert (msgs + [pkg])[..|msgs|] == msgs;
  }

  /** When a session's log grows by one envelope that opens, a successful
      inbox reply grows by that envelope's entry. */
  lemma InboxAfterAppend(st: State, after: State, req: Request, p: Primitives, pkg: Document)
    requires after.sessions == st.sessions
    requires GetInbox(st, req, p).response.status == 200
    requires var s := ActiveSession(st.sessions, req.value).value;
             && Fetch(after.logs, s.username) == Success(Fetch(st.logs, s.username).value + [pkg])
             && OpenEnvelope(p, pkg, s.privateKey).Some?
    ensures var s := ActiveSession(st.sessions, req.value).value;
            var before := GetInbox(st, req, p).response.body.messages;
            GetInbox(after, req, p).response
            == Response(200, Inbox(before + [InboxEntryOf(p, pkg, s.privateKey, |before| + 1).value]))
  {
    var s := ActiveSession(st.sessions, req.value).value;
    var msgs := Fetch(st.logs, s.username).value;
    InboxEntriesAppend(p, msgs, pkg, s.privateKey);
  }

  /** A message sent to a user shows up, decrypted, as the next entry of the
      inbox of any session whose name shares the recipient's log, provided
      the session's private key opens what is encrypted to the recipient's
      public key. */
  lemma InboxAfterSend(st: State, sendReq: Request, p: Primitives, coins: Bytes, now: string,
                       lockAcquired: bool, inboxReq: Request, pem: string)
    requires Send(st, sendReq, p, coins, now, lockAcquired).response.status == 200
    requires GetUserPublicKey(st.users, Field(sendReq.value, "recipient").value) == Some(Str(pem))
    requires inboxReq.Some? && ActiveSession(st.sessions, inboxReq.value).Some?
    requires Sanitize(ActiveSession(st.sessions, inboxReq.value).value.username)
             == Sanitize(Field(sendReq.value, "recipient").value)
    requires Opens(p, pem, ActiveSession(st.sessions, inboxReq.value).value.privateKey)
    requires GetInbox(st, inboxReq, p).response.status == 200
    ensures var after := Send(st, sendReq, p, coins, now, lockAcquired).state;
            var before := GetInbox(st, inboxReq, p).response.body.messages;
            var from := ActiveSession(st.sessions, sendReq.value).value.username;
            var text := Field(sendReq.value, "message").value;
            GetInbox(after, inboxReq, p).response
            == Response(200, Inbox(before + [InboxEntry(|before| + 1, Str(from), text, Str(now))]))
  {
    var after := Send(st, sendReq, p, coins, now, lockAcquired).state;
    var to, text := Field(sendReq.value, "recipient").value, Field(sendReq.value, "message").value;
    var from := ActiveSession(st.sessions, sendReq.value).value.username;
    var s := ActiveSession(st.sessions, inboxReq.value).value;
    var sealed := p.encrypt(text, pem, coins).value;
    var pkg := Envelope(from, to, sealed, now).ToDocument();
    assert SaveMessage(st.logs, pkg, p.isIsoTimestamp, lockAcquired) == Success(after.logs);
    EnvelopeFields(Envelope(from, to, sealed, now));
    assert Recipient(pkg) == to;
    FetchAfterSave(st.logs, pkg, p.isIsoTimestamp, lockAcquired, s.username);
    assert OpenEnvelope(p, pkg, s.privateKey) == Some(text);
    var before := GetInbox(st, inboxReq, p).response.body.messages;
    InboxAfterAppend(st, after, inboxReq, p, pkg);
    assert InboxEntryOf(p, pkg, s.privateKey, |before| + 1).value
           == InboxEntry(|before| + 1, Str(from), text, Str(now));
  }
}
