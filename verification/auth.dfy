/** auth.py: password hashing, the user directory listing, and the
    acceptance rules and files of sign-up. */
module Auth {
  import opened Basics
  import opened PyStr
  import opened Primitives
  import opened UserFiles
  import MessageStorage

  /** The 32 random bytes `secrets.token_bytes(32)` draws for a new salt. */
  type Bytes32 = b: Bytes | |b| == 32 witness [0, 0, 0, 0, 0, 0, 0, 0, 0, 0, 0, 0, 0, 0, 0, 0, 0, 0, 0, 0, 0, 0, 0, 0, 0, 0, 0, 0, 0, 0, 0, 0]

  /** Filler for the fresh-salt argument when a salt is supplied (it is then unused). */
  const UnusedSalt: Bytes32 := [0, 0, 0, 0, 0, 0, 0, 0, 0, 0, 0, 0, 0, 0, 0, 0, 0, 0, 0, 0, 0, 0, 0, 0, 0, 0, 0, 0, 0, 0, 0, 0]

  // ---------------------------------------------------------------------
  // Password hashing
  // ---------------------------------------------------------------------

  /** The base64 text of the 32-byte PBKDF2 key for `password` under `salt`. */
  function Derive(p: Primitives, password: string, salt: Bytes): string {
    p.b64encode(p.kdf(password, salt))
  }

  /** `hash_password(password, salt)`: with no salt a fresh one is drawn,
      otherwise the given base64 salt is decoded (which may raise).  Returns
      the base64 hash and the base64 salt. */
  function HashPassword(p: Primitives, password: string, salt: Option<string>,
                        freshSalt: Bytes32): (r: Option<(string, string)>)
    ensures salt.None? ==> r.Some?
    ensures salt.Some? ==> (r.Some? <==> p.b64decode(salt.value).Some?)
    ensures salt.Some? && r.Some? ==> r.value.1 == p.b64encode(p.b64decode(salt.value).value)
  {
    match salt
    case None => Some((Derive(p, password, freshSalt), p.b64encode(freshSalt)))
    case Some(text) =>
      match p.b64decode(text)
      case None => None
      case Some(bytes) => Some((Derive(p, password, bytes), p.b64encode(bytes)))
  }

  /** The hash and a freshly drawn salt are base64 texts of 32 bytes each. */
  lemma HashIs32Bytes(p: Primitives, password: string, freshSalt: Bytes32)
    requires Base64RoundTrips(p) && KdfYields32Bytes(p)
    ensures var (h, s) := HashPassword(p, password, None, freshSalt).value;
            && p.b64decode(h).Some? && |p.b64decode(h).value| == 32
            && p.b64decode(s) == Some(freshSalt)
  {
  }

  /** A salt produced by `hash_password` comes back unchanged when it is
      supplied again, and so does the hash. */
  lemma SaltRoundTrips(p: Primitives, password: string, freshSalt: Bytes32, other: Bytes32)
    requires Base64RoundTrips(p)
    ensures var (h, s) := HashPassword(p, password, None, freshSalt).value;
            HashPassword(p, password, Some(s), other) == Some((h, s))
  {
  }

  /** `Verify_password`: re-derive under the stored salt and compare with the
      stored hash; `None` when the stored salt does not decode (the call
      raises). */
  function VerifyPassword(p: Primitives, password: string, storedHash: string,
                          storedSalt: string): (r: Option<bool>)
    ensures r.Some? <==> p.b64decode(storedSalt).Some?
    ensures r.Some? ==> (r.value <==> Derive(p, password, p.b64decode(storedSalt).value) == storedHash)
  {
    match HashPassword(p, password, Some(storedSalt), UnusedSalt)
    case None => None
    case Some((calculated, _)) => Some(calculated == storedHash)
  }

  /** A password verifies against its own hash and salt. */
  lemma VerifyAcceptsOwnHash(p: Primitives, password: string, freshSalt: Bytes32)
    requires Base64RoundTrips(p)
    ensures var (h, s) := HashPassword(p, password, None, freshSalt).value;
            VerifyPassword(p, password, h, s) == Some(true)
  {
  }

  /** A password whose derived key under the stored salt differs from the
      stored one is rejected. */
  lemma VerifyRejectsOtherPassword(p: Primitives, password: string, other: string, freshSalt: Bytes32)
    requires Base64RoundTrips(p)
    requires p.kdf(other, freshSalt) != p.kdf(password, freshSalt)
    ensures var (h, s) := HashPassword(p, password, None, freshSalt).value;
            VerifyPassword(p, other, h, s) == Some(false)
  {
    var (h, s) := HashPassword(p, password, None, freshSalt).value;
    assert p.b64decode(s) == Some(freshSalt);
  }

  // ---------------------------------------------------------------------
  // The user directory
  // ---------------------------------------------------------------------

  /** Why `load_user` raises: the file is not valid JSON. */
  datatype LoadError = CorruptUserFile

  /** `load_user`: `None` when the file is missing; a file that does not
      parse re-raises. */
  function LoadUser(users: UserDir, username: string): (r: Result<Option<Document>, LoadError>)
    ensures r == Success(None) <==> username !in users
    ensures r.Failure? <==> username in users && users[username].CorruptRecord?
    ensures r.Success? && r.value.Some? ==> users[username] == Record(r.value.value)
  {
    if username !in users then Success(None)
    else match users[username]
      case Record(doc) => Success(Some(doc))
      case CorruptRecord => Failure(CorruptUserFile)
  }

  /** The `.json` entries of a listing with the five-character suffix removed,
      in listing order. */
  function JsonStems(names: seq<string>): (r: seq<string>)
    ensures |r| <= |names|
    ensures forall u {:trigger u in r} :: u in r <==> u + ".json" in names
  {
    if names == [] then []
    else
      var head := if EndsWith(names[0], ".json") then [names[0][..|names[0]| - 5]] else [];
      assert forall u :: u in head <==> names[0] == u + ".json" by {
        forall u ensures u in head <==> names[0] == u + ".json" {
          StemOf(names[0], u);
        }
      }
      assert forall n :: n in names <==> n == names[0] || n in names[1..];
      head + JsonStems(names[1..])
  }

  /** `load_all_users`, given what `os.listdir("Users")` returned; `None`
      stands for a missing directory or a listing that raised, which both
      give `[]`. */
  function LoadAllUsers(listing: Option<seq<string>>): (r: seq<string>)
    ensures listing.None? ==> r == []
    ensures listing.Some? ==> |r| <= |listing.value|
    ensures listing.Some? ==> forall u :: u in r <==> u + ".json" in listing.value
  {
    match listing
    case None => []
    case Some(names) => JsonStems(names)
  }

  /** Listing order is kept: the stems of a concatenation are the
      concatenated stems. */
  lemma {:induction false} JsonStemsAppend(a: seq<string>, b: seq<string>)
    ensures JsonStems(a + b) == JsonStems(a) + JsonStems(b)
  {
    if a == [] {
      assert a + b == b;
    } else {
      assert (a + b)[0] == a[0];
      assert (a + b)[1..] == a[1..] + b;
      var head := if EndsWith(a[0], ".json") then [a[0][..|a[0]| - 5]] else [];
      assert JsonStems(a + b) == head + JsonStems(a[1..] + b);
      JsonStemsAppend(a[1..], b);
    }
  }

  /** A name is a `.json` entry with the suffix removed exactly when the name
      with `.json` appended is that entry. */
  lemma StemOf(n: string, u: string)
    ensures (EndsWith(n, ".json") && n[..|n| - 5] == u) <==> n == u + ".json"
  {
    if n == u + ".json" {
      assert n[|n| - 5..] == ".json";
      assert n[..|n| - 5] == u;
    }
    if EndsWith(n, ".json") && n[..|n| - 5] == u {
      assert n == n[..|n| - 5] + n[|n| - 5..];
    }
  }

  /** A listing that shows exactly the user files of `users`. */
  ghost predicate IsListingOf(names: seq<string>, users: UserDir) {
    && (forall u :: u in users ==> u + ".json" in names)
    && (forall n :: n in names && EndsWith(n, ".json") ==> n[..|n| - 5] in users)
  }

  /** Under a faithful listing, `username in load_all_users()` is membership
      in the directory. */
  lemma ListingMembership(names: seq<string>, users: UserDir, u: string)
    requires IsListingOf(names, users)
    ensures u in LoadAllUsers(Some(names)) <==> u in users
  {
    if u + ".json" in names {
      StemOf(u + ".json", u);
    }
  }

  // ---------------------------------------------------------------------
  // Sign-up
  // ---------------------------------------------------------------------

  /** The files under `Keys/`: `<username>.key` holds the password-encrypted
      private key. */
  type KeyStore = map<string, string>

  /** `gen_keypair` followed by `serialize_public_key`. */
  datatype KeyPair = KeyPair(privateKey: PrivateKey, publicPem: string)

  /** The record saved to `Users/<username>.json`. */
  datatype UserRecord = UserRecord(username: string, passwordHash: string, salt: string, publicKey: string) {
    function ToDocument(): Document {
      map["username" := Str(username),
          "password_hash" := Str(passwordHash),
          "salt" := Str(salt),
          "public_key" := Str(publicKey)]
    }
  }

  /** Why an interactive sign-up attempt is sent back to its prompt. */
  datatype SignUpError = EmptyUsername | UsernameTaken | PasswordTooShort | PasswordMismatch

  /** The directories after a sign-up, and the name signed up. */
  datatype Account = Account(users: UserDir, keys: KeyStore, username: string)

  /** The username prompt of `sign_up`: the stripped input must be non-empty
      and not among the names listed when sign-up began. */
  function CheckUsername(input: string, allUsers: seq<string>): (r: Result<string, SignUpError>)
    ensures r.Success? <==> Strip(input) != [] && Strip(input) !in allUsers
    ensures r.Success? ==> r.value == Strip(input)
    ensures r == Failure(EmptyUsername) <==> Strip(input) == []
    ensures r.Failure? ==> r.error == EmptyUsername || r.error == UsernameTaken
  {
    var name := Strip(input);
    if name == [] then Failure(EmptyUsername)
    else if name in allUsers then Failure(UsernameTaken)
    else Success(name)
  }

  /** The password prompts of `sign_up`: at least 8 characters after strip,
      and the stripped confirmation equal to it. */
  function CheckPassword(input: string, confirm: string): (r: Result<string, SignUpError>)
    ensures r.Success? <==> |Strip(input)| >= 8 && Strip(confirm) == Strip(input)
    ensures r.Success? ==> r.value == Strip(input)
    ensures r == Failure(PasswordTooShort) <==> |Strip(input)| < 8
    ensures r.Failure? ==> r.error == PasswordTooShort || r.error == PasswordMismatch
  {
    var password := Strip(input);
    if |password| < 8 then Failure(PasswordTooShort)
    else if Strip(confirm) != password then Failure(PasswordMismatch)
    else Success(password)
  }

  /** What a completed sign-up writes: the user record and the encrypted
      private key, both under the exact username. */
  function CreateAccount(p: Primitives, users: UserDir, keys: KeyStore, username: string,
                         password: string, freshSalt: Bytes32, kp: KeyPair): (a: Account)
    ensures a.username == username
    ensures a.users.Keys == users.Keys + {username}
    ensures a.keys.Keys == keys.Keys + {username}
    ensures forall u :: u in users && u != username ==> a.users[u] == users[u]
    ensures forall u :: u in keys && u != username ==> a.keys[u] == keys[u]
    ensures a.keys[username] == p.lockKey(kp.privateKey, password)
    ensures var (h, s) := HashPassword(p, password, None, freshSalt).value;
            a.users[username] == Record(UserRecord(username, h, s, kp.publicPem).ToDocument())
  {
    var (h, s) := HashPassword(p, password, None, freshSalt).value;
    var record := UserRecord(username, h, s, kp.publicPem);
    Account(users[username := Record(record.ToDocument())],
            keys[username := p.lockKey(kp.privateKey, password)],
            username)
  }

  /** One pass through `sign_up` with the given answers to its prompts. */
  function SignUp(p: Primitives, users: UserDir, keys: KeyStore, allUsers: seq<string>,
                  usernameInput: string, passwordInput: string, confirmInput: string,
                  freshSalt: Bytes32, kp: KeyPair): (r: Result<Account, SignUpError>)
    ensures r.Success? <==> CheckUsername(usernameInput, allUsers).Success?
                            && CheckPassword(passwordInput, confirmInput).Success?
    ensures CheckUsername(usernameInput, allUsers).Failure? ==>
              r == Failure(CheckUsername(usernameInput, allUsers).error)
    ensures CheckUsername(usernameInput, allUsers).Success? && CheckPassword(passwordInput, confirmInput).Failure? ==>
              r == Failure(CheckPassword(passwordInput, confirmInput).error)
    ensures r.Success? ==>
              r.value == CreateAccount(p, users, keys, Strip(usernameInput), Strip(passwordInput), freshSalt, kp)
  {
    match CheckUsername(usernameInput, allUsers)
    case Failure(e) => Failure(e)
    case Success(username) =>
      match CheckPassword(passwordInput, confirmInput)
      case Failure(e) => Failure(e)
      case Success(password) => Success(CreateAccount(p, users, keys, username, password, freshSalt, kp))
  }

  /** After sign-up, the stored record verifies the password, the key file
      unlocks under it, and the public key is found under the exact name. */
  lemma AccountCredentials(p: Primitives, users: UserDir, keys: KeyStore, username: string,
                           password: string, freshSalt: Bytes32, kp: KeyPair)
    requires Base64RoundTrips(p) && KeyCustodyRoundTrips(p)
    ensures var a := CreateAccount(p, users, keys, username, password, freshSalt, kp);
            && a.users[username].Record?
            && var doc := a.users[username].doc;
            && "password_hash" in doc && doc["password_hash"].Str?
            && "salt" in doc && doc["salt"].Str?
            && VerifyPassword(p, password, doc["password_hash"].text, doc["salt"].text) == Some(true)
            && p.unlockKey(a.keys[username], password) == Some(kp.privateKey)
            && MessageStorage.GetUserPublicKey(a.users, username) == Some(Str(kp.publicPem))
  {
    VerifyAcceptsOwnHash(p, password, freshSalt);
  }
}
