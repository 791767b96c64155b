# E2E messenger core in Dafny

A Dafny model of the sequential core of a small end-to-end encrypted
messenger written in Python. Users sign up with a username and password.
The program keeps a per-user JSON record (password hash, salt, PEM public
key) under `Users/`. It keeps a password-encrypted private key under
`Keys/`, and a log of sealed envelopes per recipient under `messages/`.
Messages are encrypted to the recipient's public key with hybrid
AES-GCM/RSA-OAEP. Both a terminal UI and a Flask JSON API drive the same
storage functions.

The model is functional. Directories are maps, and logs are sequences of
JSON documents. The Flask handlers are pure transitions over
`(users, keys, sessions, logs)` that return an HTTP status and a body.
Cryptography, PBKDF2, base64, PEM key custody and ISO-8601 parsing are
opaque functions held in a `Primitives` record. The few facts the proofs
need about them are named hypotheses (`Base64RoundTrips`,
`KdfYields32Bytes`, `KeyCustodyRoundTrips`, `Opens`), and they appear only
as lemma preconditions.

Modules, one per source file plus shared foundations:

- `Basics`: `Option`, `Result`, and a JSON value that is either a string or
  a non-string with a Python truth value; dictionaries are
  `map<string, Value>`.
- `PyStr`: Python's `str.strip` (over Python's whitespace code points),
  ASCII `lower`, `endswith` and substring tests.
- `Primitives`: the opaque library calls and the reading of the three
  sealed parts of an envelope.
- `UserFiles`: the `Users/` directory, a map from the raw file stem to a
  parsed record or an unparsable file.
- `MessageStorage`: `message_storage.py`.
- `Auth`: `auth.py`.
- `Messaging`: `messaging.py`.
- `Api`: `flask-api-backend.py`.

There are two separate key spaces. User files and key files are keyed by
the raw, case-sensitive username. Message logs are keyed by the sanitised,
lower-cased name. So `"Bob"` and `"bob"` can both sign up, since the
sign-up check is case-sensitive membership in the directory listing, and
they then share one message log (`MessageStorage.SanitizeAcceptsExamples`,
`MessageStorage.SanitizeIgnoresCase`). Usernames are therefore not
unique up to case, although the shared log suggests they were meant to
be; the model keeps the behaviour as written.

Other behaviour the model keeps as written:

- Login with a user file that is not valid JSON answers 500, not 401,
  because `load_user` re-raises the decode error (auth.py:39-41).
- `flask-api-backend.py:17` imports `EncryptionError` and `DecryptionError`,
  which `encryption.py` does not define, so the module as written does not
  import. The handlers are modelled as if those names were bound to
  exception classes that nothing raises. An encryption failure is then a
  500 from the generic handler. An inbox with any envelope that does not
  open is also a 500, so the placeholder entry of lines 236-244 never
  appears.

## Model

| member | source | states |
|---|---|---|
| `MessageStorage.Sanitize` | message_storage.py:26-40 | a name with `/`, `\` or `..` fails with the traversal error; otherwise it fails with the invalid-characters error unless it is a non-empty string over `[A-Za-z0-9_-]`; on success the result is the character-wise ASCII lowercase of the input and is itself a safe lower-case name |
| `MessageStorage.SanitizeIdempotent` | message_storage.py:40 | sanitising a sanitised name gives the same name back |
| `MessageStorage.SanitizeIgnoresCase` | message_storage.py:40 | two valid names reach the same log exactly when they agree letter by letter up to ASCII case |
| `MessageStorage.SanitizeRejectsExamples` | message_storage.py:34-38 | `../etc`, `a/b` and `a\b` are traversal errors; `""` and `a.b` are invalid-character errors |
| `MessageStorage.SanitizeAcceptsExamples` | message_storage.py:37-40 | `alice-1` is kept as is; `Bob` and `bob` both become `bob` |
| `MessageStorage.EnvelopeFields` | flask-api-backend.py:182-189 | the envelope dictionary carries the sender, recipient and timestamp as strings, and its three sealed parts read back as the sealed message |
| `MessageStorage.MissingFrom` | message_storage.py:60 | reports at most one key per key asked about |
| `MessageStorage.MissingFromMembers` | message_storage.py:60 | reports exactly the asked-about keys absent from the package, and nothing exactly when all are present |
| `MessageStorage.MissingFromInOrder` | message_storage.py:60-62 | the report keeps the order of the asked-about keys: the report for a concatenation is the two reports concatenated |
| `MessageStorage.BadValuesFrom` | message_storage.py:64 | reports at most one key per key asked about |
| `MessageStorage.BadValuesFromMembers` | message_storage.py:64 | reports exactly the asked-about keys whose value is absent or not a non-blank string, and nothing exactly when all are good |
| `MessageStorage.BadValuesFromInOrder` | message_storage.py:64-66 | the report keeps the order of the asked-about keys: the report for a concatenation is the two reports concatenated |
| `MessageStorage.Validate` | message_storage.py:59-71 | succeeds exactly on well-formed packages; otherwise reports missing keys first, then non-string or blank values, then an unparsable timestamp; the reported keys are the missing (or bad) keys in the order of the required list |
| `MessageStorage.EnvelopeValidates` | message_storage.py:59-71 | an envelope whose six fields are non-blank and whose timestamp parses passes validation |
| `MessageStorage.SaveMessage` | message_storage.py:43-104 | succeeds exactly when the package validates, its recipient sanitises and the lock is acquired; errors come in that order and leave the store unchanged; on success the recipient's log becomes the old log (empty if missing or corrupt) plus the whole package, and every other log is untouched |
| `MessageStorage.Existing` | message_storage.py:95-102 | the log a write starts from is the stored log, or empty when the file is missing or not valid JSON |
| `MessageStorage.WriteMessage` | message_storage.py:93-104 | the recipient's log becomes the log it starts from followed by the package; no other log changes and no log is created except the recipient's |
| `MessageStorage.Fetch` | message_storage.py:124-147 | fails exactly when the name does not sanitise; otherwise returns the stored log, or `[]` when it is missing or corrupt |
| `MessageStorage.Clear` | message_storage.py:194-205 | fails exactly when the name does not sanitise; otherwise removes that one log and keeps all others |
| `MessageStorage.FetchAfterSave` | message_storage.py:93-104 | after a save, fetching under any name that sanitises like the recipient returns the earlier log with the package appended last |
| `MessageStorage.FetchAfterSaveElsewhere` | message_storage.py:75-76 | a save does not change what any other recipient fetches |
| `MessageStorage.FetchAfterClear` | message_storage.py:201-205 | after a clear, the user fetches `[]` and every other user fetches what they fetched before |
| `MessageStorage.ClearIdempotent` | message_storage.py:204-205 | clearing twice is clearing once, and clearing an absent log changes nothing |
| `MessageStorage.GetUserPublicKey` | message_storage.py:150-170 | finds the `public_key` value of the user file under the exact, unsanitised name; a missing file, an unparsable file or a record without the key gives nothing |
| `PyStr.Leading` | flask-api-backend.py:47 | counts exactly the leading whitespace characters that `strip` removes |
| `PyStr.Trailing` | flask-api-backend.py:47 | counts exactly the trailing whitespace characters that `strip` removes |
| `PyStr.Strip` | flask-api-backend.py:47 | the result is empty exactly when the input is all whitespace, and otherwise starts and ends with a non-whitespace character |
| `PyStr.StripRemovesOnlyEnds` | flask-api-backend.py:47 | the stripped text is a contiguous part of the input with only whitespace before and after it |
| `PyStr.Lower` | message_storage.py:40 | keeps the length, lower-cases character by character, and leaves no ASCII capital |
| `PyStr.LowerIdempotent` | message_storage.py:40 | lower-casing twice is lower-casing once, and text without ASCII capitals is unchanged |
| `PyStr.LowerChar` | message_storage.py:40 | the lower-case character is never an ASCII capital |
| `Primitives.EncryptFor` | encryption.py:15-64 | a public key that is not a string cannot be encrypted to; otherwise it is the opaque hybrid encryption |
| `Primitives.SealedIn` | messaging.py:207-212 | the three sealed parts are read only when all three keys are present and hold strings |
| `Primitives.OpenEnvelope` | messaging.py:207-214 | an envelope opens only when its sealed parts are readable and they decrypt under the key |
| `Auth.HashPassword` | auth.py:66-85 | with no salt it always succeeds; with a supplied salt it succeeds exactly when that salt decodes, and returns that salt decoded and re-encoded |
| `Auth.HashIs32Bytes` | auth.py:67-74 | the hash decodes to 32 bytes and the fresh salt decodes to the 32 drawn bytes |
| `Auth.SaltRoundTrips` | auth.py:69-83 | supplying a salt that hashing produced gives back the same hash and salt |
| `Auth.VerifyPassword` | auth.py:88-90 | answers exactly when the stored salt decodes, and says yes exactly when re-deriving under that salt equals the stored hash |
| `Auth.VerifyAcceptsOwnHash` | test-and-demo-script.py:74-78 | a password verifies against the hash and salt produced for it |
| `Auth.VerifyRejectsOtherPassword` | test-and-demo-script.py:80-85 | a password whose derived key under the stored salt differs from that of the hashed password is rejected |
| `Auth.LoadUser` | auth.py:31-41 | a missing file gives no record, an unparsable file is an error, and otherwise the parsed record is returned |
| `Auth.JsonStems` | auth.py:49-52 | `u` is a stem exactly when `u.json` is listed, and there are never more stems than listed names |
| `Auth.LoadAllUsers` | auth.py:44-56 | a failed listing gives `[]`; otherwise `u` is reported exactly when `u.json` is listed |
| `Auth.JsonStemsAppend` | auth.py:49-52 | listing order is kept: the stems of a concatenation are the concatenated stems |
| `Auth.StemOf` | auth.py:50-51 | removing `.json` from a name gives `u` exactly when the name is `u.json` |
| `Auth.ListingMembership` | auth.py:44-56 | under a faithful listing, being reported is the same as having a user file |
| `Auth.CheckUsername` | auth.py:151-160 | a username is accepted exactly when it is non-empty after stripping and not in the list taken at the start; the stripped name is kept |
| `Auth.CheckPassword` | auth.py:171-191 | a password is accepted exactly when it has at least 8 characters after stripping and the stripped confirmation equals it |
| `Auth.CreateAccount` | auth.py:203-222 | writes exactly one user record `{username, password_hash, salt, public_key}` and one key blob, both under the exact username, and leaves every other file alone |
| `Auth.SignUp` | auth.py:143-222 | sign-up completes exactly when both prompts accept, the username prompt's rejection is reported first, otherwise the password prompt's own reason (too short, or no match) is reported, and a completion writes the account for the stripped name and password |
| `Auth.AccountCredentials` | auth.py:213-222 | after sign-up the stored record verifies the password, the key blob unlocks under it, and the public key is found under the exact name |
| `Messaging.SendProgrammatic` | messaging.py:145-187 | a missing or empty public key gives false; when encryption succeeds, the result is true exactly when the save succeeds; false leaves the store unchanged; true appends the package for the sender, sender id and recipient to the recipient's log |
| `Messaging.SendProgrammaticElsewhere` | messaging.py:172-184 | a successful programmatic send leaves every other recipient's log as it was |
| `Messaging.ProgrammaticSave` | messaging.py:167-184 | a successful send saved the package built from its arguments and the encryption to the recipient's key |
| `Messaging.ProgrammaticPackage` | messaging.py:172-180 | the package has the envelope's keys plus `from_user_id`, which holds the caller's id, and every envelope key keeps its value |
| `Messaging.ProgrammaticPackageFields` | messaging.py:172-180 | the saved package carries the sender, the sender id and the recipient given, on top of the envelope's keys |
| `Messaging.SendUi` | messaging.py:14-78 | a blank recipient, an unknown recipient or a blank message each end the call before anything is encrypted or saved, in that order; any outcome other than sent leaves the store unchanged; sent means the envelope was saved; past the guards a failed encryption or a failed save is reported as a send failure with the store unchanged, and a successful encryption and save is sent, with the saved store |
| `Messaging.ReadEntryOf` | messaging.py:205-218 | an entry exists exactly when the envelope opens; it holds the plaintext, with `from_user` and `timestamp` falling back to `'Unknown'` |
| `Messaging.ReadableFrom` | messaging.py:205-222 | reading a suffix of the log gives at most one entry per envelope in it; which entries, and in what order, is stated by `ReadableAtPositions`, `PositionsAscend` and `PositionsCover` |
| `Messaging.ReadableAtPositions` | messaging.py:205-222 | each read entry is the entry of the envelope at its chosen position, one position per entry |
| `Messaging.PositionsFromBound` | messaging.py:205-222 | the positions chosen from a suffix of the log lie inside that suffix |
| `Messaging.PositionsAscend` | messaging.py:205-222 | the chosen positions strictly ascend, so entries keep log order |
| `Messaging.PositionsCover` | messaging.py:205-222 | every envelope that opens is chosen, so only the undecryptable ones are skipped |
| `Messaging.ProgrammaticEntry` | messaging.py:205-218 | a package sealed for a public key reads back, under a private key that opens it, as the sender, the plaintext and the timestamp |
| `Messaging.ReadableAppend` | messaging.py:205-222 | reading a log with one more envelope at the end reads the earlier entries followed by that envelope's entry, if it opens |
| `Messaging.ReadAfterSave` | messaging.py:190-222 | after a save, a reader sharing the recipient's log reads what it read before followed by the saved envelope's entry, if it opens |
| `Messaging.ReadAfterSend` | messaging.py:145-228 | a message sent programmatically is read back last, in plain text, by a reader sharing the recipient's log whose key opens the recipient's encryption |
| `Messaging.ReadMessages` | messaging.py:190-228 | a name that does not sanitise gives `[]`; otherwise the result is the in-order entries of the envelopes that open |
| `Basics.Get` | flask-api-backend.py:47-48 | `d.get(key, default)` is the stored value when the key is present and the default otherwise |
| `Api.Field` | flask-api-backend.py:47-48 | an absent field reads as `""`, a string field is stripped, and a non-string field raises |
| `Api.ActiveSession` | flask-api-backend.py:162-165 | a session is found exactly when the request's token is a string naming an active session |
| `Api.Signup` | flask-api-backend.py:42-84 | a malformed request is a 500; a username under 3 characters, then a password under 8, then a listed username give their 400 messages with nothing written; otherwise the account is created under the stripped name and password and the reply is 200 |
| `Api.CheckStoredPassword` | flask-api-backend.py:107 | the check answers exactly when the record has both fields and a decodable string salt, and says yes exactly when the stored hash is a string the password verifies against |
| `Api.Login` | flask-api-backend.py:86-132 | every 401 is the same "Invalid username or password" reply and changes nothing; blank fields give 400, an unlisted user, a missing or empty record, or a wrong password give 401, a corrupt record gives 500; a record whose hash or salt is missing or whose salt does not decode gives 500; a key file that does not unlock gives 500 "Failed to load encryption keys"; a record without a public key gives 500; success needs a listed record, a verified password, an unlockable key and a public key, and adds exactly the session for the fresh token |
| `Api.LoginRejectsExactly` | flask-api-backend.py:94-108 | the 401 is answered exactly for an unlisted user, a missing or empty record, or a wrong password, after non-blank fields |
| `Api.MapInsertGrows` | flask-api-backend.py:117-122 | storing a session under a new token adds exactly that key and grows the session map by one |
| `Api.LoginAddsOneSession` | flask-api-backend.py:116-122 | a successful login with a new token adds exactly one session and keeps all others |
| `Api.LoginSucceeds` | flask-api-backend.py:94-129 | a listed user with a non-empty record, the right password, an unlockable key and a public key is logged in |
| `Api.Logout` | flask-api-backend.py:134-150 | any JSON request succeeds; an active token is removed and nothing else changes |
| `Api.LogoutIdempotent` | flask-api-backend.py:139-147 | logging out twice is logging out once, and afterwards the token names no session |
| `Api.Send` | flask-api-backend.py:152-199 | non-string fields give 500 before the token is checked; an inactive token gives the 401 "Not authenticated"; a blank field gives 400; an unknown recipient gives 404; past those checks a failed encryption or a failed save gives 500; only a 200 changes state, and then the envelope from the session's user was saved; conversely an active session with non-blank fields, a truthy public key, a successful encryption and a successful save answers 200 with the saved logs |
| `Api.SendAppendsOneEnvelope` | flask-api-backend.py:182-191 | a successful send appends exactly one envelope, with `from_user` the session's username, to the recipient's log and to no other |
| `Api.InboxEntryOf` | flask-api-backend.py:219-235 | an entry exists exactly when the envelope opens, numbered as given, with `from` falling back to `'Unknown'` and `timestamp` to `''` |
| `Api.InboxEntries` | flask-api-backend.py:215-235 | there is an inbox exactly when every envelope opens; it has one entry per envelope, in log order, the j-th numbered j+1 |
| `Api.GetInbox` | flask-api-backend.py:201-252 | never changes state; an inactive token is the 401 "Not authenticated"; 200 exactly when the session's log is fetched and every envelope opens, with the decrypted entries; every other failure is the generic 500 |
| `Api.InboxIdsCount` | flask-api-backend.py:229-230 | a successful inbox has as many entries as the log, with ids 1 to n |
| `Api.SignupThenLogin` | flask-api-backend.py:42-129 | logging in with the credentials just signed up succeeds |
| `Api.InboxEntriesAppend` | flask-api-backend.py:218-235 | appending an envelope that opens extends the inbox by its entry, numbered last |
| `Api.InboxAfterAppend` | flask-api-backend.py:215-249 | when a session's log grows by an envelope that opens, its inbox grows by that entry |
| `Api.InboxAfterSend` | flask-api-backend.py:152-249 | a message sent to a user appears, decrypted, as the next inbox entry of a session sharing the recipient's log whose key opens the recipient's encryption |

Helpers without a row of their own, whose meaning is stated by the members
above: `Envelope.ToDocument` (by `MessageStorage.EnvelopeFields`),
`UserRecord.ToDocument` (by `Auth.CreateAccount` and `Auth.AccountCredentials`),
`Auth.Derive` (by `Auth.VerifyPassword`), and `MessageStorage.Recipient`
(by `MessageStorage.SaveMessage` and `MessageStorage.FetchAfterSave`).

## Left out

- Cryptography internals: AES-256-GCM, RSA-OAEP, PBKDF2-HMAC-SHA256 (section 5.2 of RFC 8018), base64 (section 4 of RFC 4648), PEM serialisation and password-protected key custody are opaque functions. Only the round-trip hypotheses named above, and in one lemma the fact that two passwords derive different keys under one salt, are assumed, and only where a lemma says so.
- Randomness: the fresh salt, the RSA key pair, the AES key and nonce, and the session token are parameters.
- The clock: `datetime.now().isoformat()` is a parameter `now`, and `datetime.fromisoformat` is the opaque predicate `isIsoTimestamp`.
- File mechanics: directory creation, the temp file, `fsync`, the atomic rename and temp cleanup. Concurrency and lock waiting are out of scope too. The lock is a flag `lockAcquired`, and a failure to get the lock is the timeout error. When `filelock` is not installed the write happens directly, which is the same as passing `true`.
- Type errors: a non-string username or a non-dict package (the `TypeError` branches of `sanitize_username` and `save_message`). Also non-object JSON in a user file, a log or a request, beyond "not a JSON object". Also an unhashable session token, which would make the membership test raise.
- I/O failures other than a missing or unparsable file: a failed write gives a 500 or a false in the source and is not modelled.
- Path semantics: user-file names are used as map keys. What the operating system would do with separators in an unsanitised name is not modelled.
- The terminal UI: menus, prompts, screen clearing, sleeps, `check_inbox_ui`, `main.py`, and the interactive loops of `sign_up`. `Auth.SignUp` models one pass with the final answers to the prompts.
- `get_all_users` and `/api/users`, `/api/health`, and Flask/CORS plumbing.
- Sign-up-and-login.py is not part of this model: it is an older single-file variant that the rest of the program does not use.
- message_sending.py is not part of this model: it is a stand-alone demo script.
- `Api.CheckStoredPassword`: a salt stored as JSON `null` makes `hash_password` draw a fresh random salt. The model treats it like any other non-string salt, as a 500, instead of the practically certain 401.
- `Api.Signup`, `Api.Login`, `Api.Logout`, `Api.Send` and `Api.GetInbox`: the body of a 500 from the generic exception handler carries no exception text (`ServerError`).
- `Api.InboxEntryOf`: the constant `'decrypted': True` field of each entry is not represented.
