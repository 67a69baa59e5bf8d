# Note4Keep backend: a Dafny model of its request logic

Note4Keep is a small notes service written in Rust with axum and MongoDB. Users
register and log in with a username and a password. They receive a token and
send it back in the `Authorization` header of the eight authenticated note
handlers. Each of them changes and returns only the caller's own notes; the
id check of `create_note` is the one lookup that reads every user's notes,
and it only decides whether to answer CONFLICT. The one note
route `main` actually serves, `/api/notes`, is `get_all_notes`: it returns
every user's notes without authentication, and it is left out of this model.

This project models that request logic and proves what it promises:

- `get_token`: reading the bearer token out of the `Authorization` header
  (module `TokenHeader`, with the Rust string helpers it uses in `Text`);
- `mongo_query_error`: the guard on search phrases (module `MongoHealth`);
- `random_id`: the 24-character id generator (module `RandomIds`);
- `check_integrity`: the start-up check of the environment (module `Integrity`);
- the note handlers `get_notes`, `create_note`, `some_note`, `spec_note`,
  `delete_spec_note`, `delete_notes`, `delete_all_notes` and `update_note`
  (module `NotesHandlers`, class `NotesService`), over the `notes` collection
  (module `NotesTable`);
- the account handlers `create_user` and `log_in` (module `UsersHandlers`,
  class `UsersService`).

The collections are in-memory state. `notes` is a sequence of records in
insertion order. `users` is a map keyed by username, because both account
handlers look users up by username only. The handlers are methods that update
this state.

The token check `compare_jwt` is an opaque function from a token to an
optional `userid`. The same holds for `encrypt`, `compare` and `create_jwt`,
each of which may fail. The database's evaluation of a `$regex` is an opaque
predicate too. Each service object receives these functions when it is built.

Every call to the database driver may fail, and that choice is
nondeterministic (`Driver.DriverCall`). Each handler contract therefore
reads "INTERNAL_SERVER_ERROR, or the precise outcome", with one exception:
`delete_notes` never answers INTERNAL_SERVER_ERROR. A failed lookup skips the
id, and a failed `delete_one` counts the id as not deleted.

The random draws of `random_id`, bcrypt's salt and `Utc::now()` are inputs.
The `async` code is modelled as sequential code.

The central property is tenancy. Each of the eight authenticated note
handlers filters every update, every delete and every query whose notes it
returns on the `userid` that `compare_jwt` returned (`create_note` checks its
fresh id against all notes, but writes only the caller's note). So each of
them ends in a state where the notes of every other user are exactly as they
were (`NotesTable.OnlyOwnerTouched`).
Each of them also keeps note ids unique (`NotesService.Valid`).

Behaviour of the code worth noting:

- `get_token` accepts an empty token and needs no separator after the
  scheme: `"Bearer"` and `"Bearer   "` give the empty token, and
  `"BearerXabc"` gives `"abc"`.
- A header value that is not visible ASCII (an obs-text byte from 0x80 to
  0xFF) gives INTERNAL_SERVER_ERROR.
- A `compare` failure in `log_in` gives INTERNAL_SERVER_ERROR; a wrong
  password gives UNAUTHORIZED.
- The token claims hold the username, user id, email and the instant they
  were built (`iat`), and nothing else: no expiry.

## Model

| member | source | states |
|---|---|---|
| Text.SkipChars | src/utils/get_token.rs:20 | skipping n characters keeps the length minus n (nothing when the text is shorter) and keeps every later character in place |
| Text.Trim | src/utils/get_token.rs:22 | the result of `trim` neither starts nor ends with whitespace and is no longer than its input |
| Text.AsciiLowercase | src/utils/get_token.rs:14 | lower-casing keeps the length; the scheme test relies on this |
| Text.TrimIsTrimOf | src/utils/get_token.rs:22 | `trim` removes only whitespace, and only from the two ends: its result is a window of the input and everything outside the window is whitespace |
| Text.TrimPadded | src/utils/get_token.rs:22 | the converse: padding a string that neither starts nor ends with whitespace with whitespace on both sides and trimming gives it back |
| Text.TrimKeepsTrimmed | src/utils/get_token.rs:22 | `trim` leaves a string that neither starts nor ends with whitespace unchanged |
| Text.TrimIdempotent | src/utils/get_token.rs:22 | trimming twice is trimming once |
| Text.DecimalString | src/utils/random_id.rs:21-23 | `to_string` of a natural number is a non-empty string of digits, one character long exactly when the number is below 10, with no leading zero |
| TokenHeader.ToStr | src/utils/get_token.rs:6-12 | `to_str` succeeds exactly when every byte is a tab or visible ASCII, and then keeps every byte as one character |
| TokenHeader.ToStrBytes | src/utils/get_token.rs:6-12 | `to_str` turns the bytes of visible ASCII text back into that same text |
| TokenHeader.GetToken | src/utils/get_token.rs:3-28 | a missing header gives BAD_REQUEST; a header that is not visible ASCII gives INTERNAL_SERVER_ERROR; otherwise the result is a token exactly when the lower-cased value starts with "bearer", and BAD_REQUEST when it does not; a token is trimmed, at most max(0, length - 7) long, and is the text after the first 7 characters with whitespace removed from both ends only |
| TokenHeader.BearerPasses | src/utils/get_token.rs:14 | a value starting with "Bearer" or "bearer" passes the scheme test |
| TokenHeader.AcceptedValue | src/utils/get_token.rs:14-24 | for visible ASCII text starting with "Bearer" or "bearer", the token is the text without its first 7 characters, trimmed |
| TokenHeader.SchemeMatchIgnoresCase | src/utils/get_token.rs:14-18 | the scheme test accepts a value exactly when its first six characters spell "bearer" in any mix of cases |
| TokenHeader.MissingOrForeignSchemeIsBadRequest | src/utils/get_token.rs:4-26 | no header, or the header "Basic xyz", gives BAD_REQUEST |
| TokenHeader.InvisibleByteIsInternalError | src/utils/get_token.rs:6-11 | a header holding the obs-text byte 0xE9 gives INTERNAL_SERVER_ERROR; bytes from 0x80 to 0xFF are the ones that reach this branch, since the HTTP parser refuses control bytes in header values |
| TokenHeader.LowerCaseSchemeExample | src/utils/get_token.rs:20-24 | "bearer abc123" gives the token "abc123" |
| TokenHeader.TrimmedTokenExample | src/utils/get_token.rs:20-24 | "Bearer   xyz  " gives the token "xyz" |
| TokenHeader.EmptyTokenAccepted | src/utils/get_token.rs:14-24 | "Bearer" and "Bearer   " both give the empty token, not an error |
| TokenHeader.NoSeparatorNeeded | src/utils/get_token.rs:20-22 | the seventh character is dropped whatever it is: "BearerXabc" gives "abc" |
| MongoHealth.MongoQueryError | src/utils/mongo_health.rs:3-17 | the answer is true exactly when the input holds one of the characters of "*/!-,`[", although the loop stops at the first hit |
| MongoHealth.HasSpecialCharConcat | src/utils/mongo_health.rs:6-14 | a concatenation is flagged exactly when one of its parts is |
| MongoHealth.OrdinaryCharNeverFlags | src/utils/mongo_health.rs:1-7 | inserting any character outside the set anywhere never changes the answer |
| MongoHealth.MongoQueryErrorExamples | src/utils/mongo_health.rs:1-17 | the empty string and "a.b?c(1)" are not flagged; each of the seven special characters is |
| RandomIds.Piece | src/utils/random_id.rs:11-23 | every round appends exactly one character, a lower-case letter or a digit, so the fallback 'a' is never taken |
| RandomIds.IdFromDraws | src/utils/random_id.rs:6-24 | the text n rounds build has n characters, all in [a-z0-9] |
| RandomIds.RandomId | src/utils/random_id.rs:5-28 | the id is the text the 24 draws build, and it has 24 characters, each in [a-z0-9] |
| RandomIds.DrawFor | src/utils/random_id.rs:9-23 | every letter and digit is appended by some possible round |
| RandomIds.EveryIdIsReachable | src/utils/random_id.rs:5-28 | every string over [a-z0-9] is built by some sequence of possible draws, so the shape above is exact |
| Integrity.CheckIntegrity | src/utils/check_integrity.rs:6-30 | the check completes exactly when each of SECRET, PORT and MONGODB_URI is a key of the environment; a panic names one of those keys that is missing |
| Integrity.Flags | src/utils/check_integrity.rs:8-20 | the flag map `comprobe` has exactly the three important keys, and all its flags are set exactly when all three keys are present in the environment |
| Integrity.FlagsStep | src/utils/check_integrity.rs:14-20 | scanning one more pair sets exactly the flag of its key when that key is important, and leaves the map as it was otherwise |
| Integrity.FlagsOnlyRise | src/utils/check_integrity.rs:10-20 | the flag map's keys are always the three important keys, and scanning more pairs only moves a flag from false to true |
| Integrity.OrderIsIrrelevant | src/utils/check_integrity.rs:14-20 | reordering the environment does not change the outcome |
| Integrity.ExtraKeysAreIrrelevant | src/utils/check_integrity.rs:14-20 | adding pairs with other keys does not change the outcome |
| Integrity.ValuesAreIgnored | src/utils/check_integrity.rs:14 | values are never read, so a key with an empty value counts as present |
| Integrity.CheckIntegrityExamples | src/utils/check_integrity.rs:4-28 | a full environment with an empty PORT value passes; one without PORT fails |
| NotesTable.NotesOf | src/handlers/notes.rs:98 | the notes selected by `{"user": userid}` are exactly the notes of the table owned by that user |
| NotesTable.IdFilterMatchesAtMostOne | src/handlers/notes.rs:163 | in a table with unique note ids, a filter naming a note id matches at most one note, so the match `find_one`, `delete_one` and `update_one` take does not depend on the table's order |
| NotesTable.FirstMatch | src/handlers/notes.rs:163 | the position `find_one` stops at matches the filter, and no earlier note matches |
| NotesTable.FindOne | src/handlers/notes.rs:163 | `find_one` finds a note exactly when some note of the table matches the filter, and the note it returns matches |
| NotesTable.DeleteOne | src/handlers/notes.rs:338 | `delete_one` changes nothing when no note matches; otherwise it removes exactly the one matched note and keeps every note the filter does not match |
| NotesTable.DeleteMany | src/handlers/notes.rs:455 | `delete_many` keeps exactly the notes the filter does not match |
| NotesTable.UpdateOne | src/handlers/notes.rs:490-505 | `update_one` rewrites only the first matched note, only its title, priority and text; note_id, user and date of every note stay the same and no other note changes |
| NotesTable.SortedMeansNewestFirst | src/handlers/notes.rs:99 | in a list where each note is at least as recent as the next, every note is at least as recent as every later one |
| NotesTable.InsertByDate | src/handlers/notes.rs:99 | inserting into a newest-first list gives a newest-first list of the same notes plus the new one |
| NotesTable.SortByDateDesc | src/handlers/notes.rs:99 | the order of `sort: {"date": -1}` is newest first and holds the same notes |
| NotesTable.NotesOfAppend | src/handlers/notes.rs:98 | the notes of one user in two tables put together are that user's notes in each, in order |
| NotesTable.NotesOfSplit | src/handlers/notes.rs:98 | a user's notes can be read off the table in three parts around any position |
| NotesTable.OnlyOwnerTouchedTrans | src/handlers/notes.rs:379-407 | two steps that each leave other users' notes alone leave them alone together |
| NotesTable.InsertTouchesOnlyOwner | src/handlers/notes.rs:154-182 | inserting a note owned by the caller leaves every other user's notes as they were and adds it to the caller's notes |
| NotesTable.DeleteOneTouchesOnlyOwner | src/handlers/notes.rs:325-352 | a `delete_one` filtered on the caller's userid leaves every other user's notes as they were |
| NotesTable.DeleteManyTouchesOnlyOwner | src/handlers/notes.rs:453-459 | a `delete_many` filtered on the caller's userid leaves every other user's notes as they were and leaves the caller none |
| NotesTable.UpdateOneTouchesOnlyOwner | src/handlers/notes.rs:490-509 | an `update_one` filtered on the caller's userid leaves every other user's notes as they were |
| NotesTable.InsertFreshKeepsIdsUnique | src/handlers/notes.rs:163-182 | inserting a note whose id `find_one` did not find keeps note ids unique |
| NotesTable.DeleteOneKeepsIdsUnique | src/handlers/notes.rs:338 | deleting one note keeps note ids unique |
| NotesTable.UpdateOneKeepsIdsUnique | src/handlers/notes.rs:505 | the `$set` update keeps note ids unique |
| NotesTable.DeleteManyKeepsIdsUnique | src/handlers/notes.rs:455 | deleting many notes keeps note ids unique |
| NotesTable.DeleteEach | src/handlers/notes.rs:400-407 | the table after one `delete_one` on (id, caller) per id in order: each call removes at most one note, so the table loses at most as many notes as there are ids |
| NotesTable.OwnedIds | src/handlers/notes.rs:379-394 | the requested ids the lookups of `delete_notes` can find: exactly the requested ids for which the caller has a note, no more of them than requested |
| NotesTable.AttemptsAreOwnedRequests | src/handlers/notes.rs:379-407 | ids split into confirmed and refused deletions, drawn from what the lookups found, are requested ids the caller owns and are no more than the requested ids |
| NotesHandlers.NotesService.LookUpOwned | src/handlers/notes.rs:379-394 | the first loop of `delete_notes` collects, as a multiset, only requested ids the caller owns; a failed lookup skips the id |
| NotesHandlers.NotesService.DeleteAttempts | src/handlers/notes.rs:396-407 | the second loop of `delete_notes`: every looked-up id ends up exactly once among the confirmed or the refused deletions, and the table is exactly the result of the confirmed `delete_one` calls in order |
| NotesTable.DeleteEachTouchesOnlyOwner | src/handlers/notes.rs:400-407 | the successful deletions of `delete_notes`, one after another, leave every other user's notes as they were, remove no note that is not the caller's with a requested id, add nothing, and keep ids unique |
| NotesHandlers.Authenticate | src/handlers/notes.rs:88-96 | the authentication every protected handler starts with: a request without the header is a BAD_REQUEST whatever `compare_jwt` says, and authentication fails only with BAD_REQUEST, UNAUTHORIZED or INTERNAL_SERVER_ERROR |
| NotesHandlers.AuthenticateOutcomes | src/handlers/notes.rs:88-96 | a `get_token` failure is answered with its own status and a `compare_jwt` failure with UNAUTHORIZED, and otherwise the caller is the userid of the claims; UNAUTHORIZED only when a token was read and `compare_jwt` refused it |
| NotesHandlers.SearchPattern | src/handlers/notes.rs:220-222 | the `$regex` of `some_note` is the phrase, unchanged, between a leading and a trailing `.*` |
| NotesHandlers.TitleSearch | src/handlers/notes.rs:229 | the filter of `some_note` selects exactly the caller's notes whose title the database matches against the pattern |
| NotesHandlers.DrainCursor | src/handlers/notes.rs:232-246 | draining a cursor collects exactly its notes, in order; only the loop of `some_note` can fail, and then nothing is returned |
| NotesHandlers.DeleteNotesReply | src/handlers/notes.rs:409-430 | the answer of `delete_notes` is NOT_FOUND exactly when no deletion succeeded; otherwise OK with the "all deleted" message exactly when no deletion was refused |
| NotesHandlers.NotesService.GetNotes | src/handlers/notes.rs:82-131 | on authentication failure the status of `Authenticate`; otherwise INTERNAL_SERVER_ERROR, NO_CONTENT when the caller has no notes, or OK with exactly the caller's notes, newest first |
| NotesHandlers.NotesService.CreateNote | src/handlers/notes.rs:134-188 | on authentication failure its status and no change; CONFLICT, with no change, only when the generated id is taken, and never success then; on success exactly one note is appended, with the generated id, the request's title, priority and text, the caller as owner and the given date; other users' notes and id uniqueness are kept |
| NotesHandlers.NotesService.SomeNote | src/handlers/notes.rs:191-260 | a phrase that is empty or holds a special character is a BAD_REQUEST before the token is read; otherwise the authentication status, INTERNAL_SERVER_ERROR, NO_CONTENT when nothing matches, or OK with exactly the caller's notes whose title matches ".*phrase.*", newest first |
| NotesHandlers.NotesService.SpecNote | src/handlers/notes.rs:263-302 | on authentication failure its status; NOT_FOUND when the caller has no note with that id; otherwise that note or INTERNAL_SERVER_ERROR |
| NotesHandlers.NotesService.DeleteSpecNote | src/handlers/notes.rs:305-354 | on authentication failure its status and no change; NOT_FOUND, with no change, exactly when the caller has no note with that id; on success exactly that note is removed, and other users' notes and id uniqueness are kept |
| NotesHandlers.NotesService.DeleteNotes | src/handlers/notes.rs:356-431 | on authentication failure its status and no change; otherwise the ids whose deletion was tried are, as a multiset, among the requested ids the caller owns, and they split exactly into confirmed and refused deletions; the table is exactly the result of the confirmed `delete_one` calls in order, so only notes of the caller with a requested id are removed, other users' notes are kept and ids stay unique; the answer is the one `DeleteNotesReply` gives for the confirmed and refused counts, never INTERNAL_SERVER_ERROR |
| NotesHandlers.NotesService.DeleteAllNotes | src/handlers/notes.rs:434-467 | on authentication failure its status and no change; on success the caller has no notes left and every other user's notes are as they were; a driver error changes nothing |
| NotesHandlers.NotesService.UpdateNote | src/handlers/notes.rs:470-515 | on authentication failure its status and no change; NOT_FOUND, with no change, when the caller has no note with that id; on success the `$set` update of that note, and other users' notes and id uniqueness are kept |
| UsersHandlers.NewUser | src/handlers/users.rs:84-98 | the stored record has the fresh id, the request's username and email, the digest as password and no ip |
| UsersHandlers.LogInDecision | src/handlers/users.rs:135-168 | NOT_FOUND exactly when the username is unknown; UNAUTHORIZED exactly when `compare` says false; a token exactly when `compare` says true and `create_jwt` succeeds, issued for the request's username, the stored id and email, and the current instant |
| UsersHandlers.UsersService.CreateUser | src/handlers/users.rs:56-117 | an existing username gives CONFLICT (or a driver error) before any hashing and changes nothing; a hashing failure changes nothing; otherwise the table gains exactly the record `NewUser` builds, and the token is issued for the stored username, id and email at the registration instant; a `create_jwt` failure after the insert leaves the user stored |
| UsersHandlers.UsersService.LogIn | src/handlers/users.rs:120-169 | the table is only read; the answer is INTERNAL_SERVER_ERROR from the driver or the one `LogInDecision` gives, and a token only for a password `compare` accepts |
| UsersHandlers.LogInAfterCreateUser | src/handlers/users.rs:84-159 | when `compare` accepts a password against its digest, logging in after registration calls `create_jwt` with the username, id and email registration stored, and answers with the token it builds at the log-in instant |
| UsersHandlers.WrongPasswordNeverLogsIn | src/handlers/users.rs:141-168 | a password `compare` does not accept never logs in; a `compare` failure is INTERNAL_SERVER_ERROR |
| UsersHandlers.CreateUserKeepsOtherLogIns | src/handlers/users.rs:100 | registering one username leaves every other username's log-in outcome unchanged |

## Left out

- `get_all_notes` (in `handlers/notes.rs` and again in `main.rs`, where it is the handler routed at `/api/notes`) and `list_users` are not modelled: they dump a whole collection without authentication, so tenancy does not hold for them, and their only other behaviour is a panic on a database error.
- The bodies of `compare_jwt`, `encrypt`, `compare` and `create_jwt` are opaque functions: bcrypt's internals, token signing and the claims layout are not modelled. The token code in the repository builds claims and returns nothing, and `compare_jwt` is not defined at all.
- The stored password is stated to be `encrypt`'s output. That it differs from the plaintext is a property of bcrypt, which is not modelled.
- `compare_jwt` is modelled as deterministic. The token has no expiry. `create_jwt` takes the clock reading as an input, so two tokens agree only when built from the same claims at the same instant.
- Mongo's evaluation of the `$regex` built by `some_note` is an opaque predicate. Only the pattern string `.*phrase.*` and the userid filter are modelled.
- Dates are plain integers; only their order is used. `Utc::now()` is an input, and the RFC 3339 text `get_notes` sends is not modelled, so `NoteList` holds the records themselves.
- The JSON bodies are modelled as their message text; the key names (`Response` in `create_note`, `response` elsewhere) are not.
- NotesHandlers.NotesService.GetNotes: a stream error inside the cursor loop panics in the source (`unwrap`). The model's loop has no error step, so it does not model that panic.
- Database failures are one nondeterministic outcome per driver call. The model does not say why a call fails or what it leaves behind. A failed `insert_one`, `delete_one`, `delete_many` or `update_one` is taken to change nothing.
- Integrity.CheckIntegrity: which missing key the panic names depends on `HashMap` iteration order. The model only states that the named key is one of the missing ones. The panic message text is not modelled.
- Integrity.CheckIntegrity: `check_integrity` reads the process environment; the model takes the list of pairs as a parameter. `env::vars()` panics when any variable's key or value is not valid Unicode, even when all three keys are present; a list of strings cannot hold such a variable, so that panic is not modelled.
- The random generator behind `random_id` is an input. Uniqueness of user ids is not checked by the source and is not claimed.
- `some_note` passes a `&String` where `mongo_query_error` takes a `String`, so this snapshot does not compile. The model uses the intended check of the phrase.
- Logging (`println!`, `error!`), the router, server bootstrap, CORS and timeouts (`main.rs`) and the Mongo client setup (`db/connect.rs`) are I/O and are not modelled.
- The commented-out `UserOptions` code in `db/models.rs` is dead code and is not modelled.
