# Notes backend: a Dafny model of its request handlers

The system is a small note-taking backend. Users register and log in. Each
user then creates, edits, pins, deletes, lists and searches their own notes.
This project models the decision logic of its route handlers (`index.js`) and
the Note schema (`models/note.model.js`). The document store is replaced by
an in-memory store.

- `basics.dfy`, module `Basics`: optional request-body fields (`Option`), a
  `Result` type, and JavaScript truthiness as the handlers apply it. A string
  counts as given only when present and non-empty. An array counts whenever
  present, even `[]`. A boolean counts only when present and `true`.
- `note_model.dfy`, module `NoteModel`: the `Note` record, the fields a
  caller may hand to the model constructor, the schema defaults (`isPinned`
  false, `tags` empty, `createdOn` the single timestamp taken when the schema
  was defined) and the required-path check that `save()` performs (`Build`).
  A required String path rejects the empty string as well as a missing value.
- `routes.dfy`, module `Routes`:
  - the response datatype: status, error flag, message and payload;
  - the read-only routes (login, get-user, get-all-notes, search-notes) as
    functions over the tables;
  - class `NotesApp`, holding the users table and the notes table as maps
    from id to record, with one method per route that changes the store
    (create-account, add-note, edit-note, delete-note, update-note-Pinned).

Ids come from counters, so ascending id order is insertion order. The
read-only queries take the counter as `bound` and walk the ids below it in
that order. This stands in for the store's document order. The caller's
identity, which the token middleware decodes from the bearer token, is a
plain `caller` argument of every protected route.

`Routes.EndToEnd` (with `FirstUserSteps` and `SecondUserSteps`) is a client
of the routes. User A registers, logs in, creates a note, edits its title and
pins it. User B registers and creates a note. The client shows, from the
route contracts alone, that A lists only the edited, pinned note and B lists
only their own unpinned one.

`NotesApp.Valid()` is the store invariant every mutating route keeps:
- ids are below the counters;
- emails are unique;
- every account has a non-empty full name, email and password;
- every note satisfies the schema's required paths;
- every note carries the schema's one default `createdOn`.

Where the code departs from what the routes evidently intend, the model
follows the code:
- edit-note drops an explicit `isPinned: false`, because it tests `isPinned`
  for truthiness;
- every note gets the timestamp computed when the schema was defined, not its
  own creation time;
- search uses a case-insensitive regular expression, not a plain substring
  test;
- login answers an unknown email and a wrong password with status 200 and the
  error flag set, and a missing field with 400;
- nothing in the code checks that a note's owner exists in the users table,
  so the model does not claim that invariant.

## Model

| member | source | states |
|---|---|---|
| `NoteModel.Build` | models/note.model.js:4-29 | a note is refused exactly when title or content is missing or empty or userId is missing, naming each unsatisfied path; otherwise `isPinned` defaults to false, `tags` to `[]`, `createdOn` to the schema's timestamp, and the given fields are kept |
| `NoteModel.SharedCreatedOn` | models/note.model.js:13-16 | any two notes built from one schema without their own `createdOn` carry the same timestamp |
| `Routes.FindByEmail` | index.js:57 | the `findOne({ email })` lookup of create-account and, identically, of login at index.js:95: finds the first account in id order whose email equals the given one, and finds none exactly when no account below the bound has it |
| `Routes.Login` | index.js:83-122 | email is checked before password (400 each); an unknown email gives 200 "User not found!"; a wrong password for the account found gives 200 "Invalid credentials!"; a matching password gives 200 "Login successful!" with the email and a token carrying that account, so a success always names an account whose email and password both equal the given ones |
| `Routes.LoginFinalElseUnreachable` | index.js:105-121 | for string-valued email and password, the final `else` of login is dead: no such request gets its 400 "Invalid credentials!", and a 400 only ever means a missing email or password |
| `Routes.LoginSucceedsIff` | index.js:95-116 | with unique emails, login succeeds if and only if some account below the bound has both the given email and the given password |
| `Routes.GetUser` | index.js:125-142 | 200 exactly when the caller's account exists; the profile has exactly the keys fullName, email, " _id" (leading space) and createdOn, never password or `_id`; an unknown caller gets a bare 401 |
| `Routes.Find` | index.js:291-297 | the store query returns every stored note below the bound that passes the filter, each as stored, once, in id order, and nothing else |
| `Routes.GetAllNotes` | index.js:215-230 | returns exactly the caller's notes, each once, with every pinned note before every unpinned one |
| `Routes.PinnedThenUnpinned` | index.js:219 | the caller's pinned notes followed by the caller's unpinned notes form a list in which no id appears twice and every pinned note precedes every unpinned one |
| `Routes.FindSeesOnlyFiltered` | index.js:291-297 | a store query answers the same on two tables that agree on the notes its filter accepts |
| `Routes.OwnerIsolation` | index.js:219 | owner scoping of the `userId` filters here and at index.js:291-297: get-all-notes and search-notes give a caller the same answer on any two tables that hold the same notes for that caller, whatever other users' notes they hold |
| `Routes.SearchNotes` | index.js:282-308 | a missing or empty query gets 400 whatever the store holds; otherwise the result is exactly the caller's notes whose title or content matches the query, in store order |
| `Routes.VerbatimOccurrenceMatches` | index.js:294-295 | for the case-insensitive matcher, a query that occurs verbatim in a text matches it |
| `Routes.IgnoreCaseContainsIff` | index.js:294-295 | the case-insensitive matcher accepts a query exactly when some window of the text equals it up to the case of ASCII letters |
| `Routes.SearchFindsVerbatim` | index.js:291-297 | a search with the case-insensitive matcher returns every note of the caller whose title or content contains the query verbatim |
| `Routes.NotesApp.QueriesCoverStore` | index.js:219 | on a valid store, with the note counter as the bound, get-all-notes lists every note the caller owns, and search-notes (index.js:291-297) every such note that matches a non-empty query |
| `Routes.NotesApp.LoginCoversUsers` | index.js:95-116 | on a valid store, with the user counter as the bound, login succeeds if and only if some stored account has both the given email and the given password |
| `Routes.NotesApp.CreateAccount` | index.js:40-80 | fullName, email and password are required in that order (400); a taken email gets 200 with the error flag and leaves the store unchanged; otherwise exactly one account is added under a fresh id, with a token for it; email uniqueness is kept |
| `Routes.NotesApp.AddNote` | index.js:145-176 | title is required before content (400, store unchanged); otherwise exactly one note is added under a fresh id, owned by the caller, unpinned, with the given tags or `[]`, and all other notes are unchanged |
| `Routes.NotesApp.EditNote` | index.js:179-212 | 400 "No Changes Provided!" with the store unchanged when title, content and tags are all falsy, even if isPinned is given; 404 unless the caller owns the note; otherwise only the truthy fields are overwritten, owner and timestamp are kept, no other note changes, and no edit ever unpins a note |
| `Routes.NotesApp.DeleteNote` | index.js:233-252 | 404 with the store unchanged unless the caller owns the note; otherwise exactly that note is removed |
| `Routes.NotesApp.UpdateNotePinned` | index.js:255-279 | 404 with the store unchanged unless the caller owns the note; otherwise isPinned takes the given value, false included, an absent value reading back as the default false, and nothing else changes |

## Left out

- HTTP plumbing: environment loading, the database connection, static
  files, CORS, the health route `GET /` and `app.listen`. Responses are
  values of the `Response` datatype, not HTTP/JSON.
- Tokens: signing and verifying JWTs, and the `authenticateToken` middleware
  with its 401 for a missing or bad token. The middleware's module is not
  part of this model. The caller's id is an argument. A token is modelled by
  its claims: the user record and the `"36000m"` lifetime.
- `models/user.model.js` is not part of this model. A user is a full name, an
  email, a password and a `createdOn` value, which create-account takes as an
  argument.
- Store failures: the 500 branches. A failing `save()` or query, and a
  malformed note id that the store cannot cast, are not modelled. Validation
  on `save()` cannot fail on any modelled path: add-note checks title and
  content first (the method asserts this), and edits only write truthy values.
- Id generation: ObjectIds are replaced by counters. The order of notes within
  the pinned group and within the unpinned group is store order; the model
  uses ascending id. A note whose `isPinned` was unset by update-note-Pinned
  sorts at the end of the unpinned group in the store; the model orders it
  with the other unpinned notes.
- Routes.SearchNotes: the regular-expression engine is not modelled. The test
  `new RegExp(query, "i")` is a function argument `matches`. The
  `IgnoreCaseContains` matcher covers only queries without metacharacters,
  and folds only ASCII letters. Invalid patterns, which throw, are not
  modelled.
- Request bodies and query strings hold only strings, string arrays and
  booleans. Other JSON values, and Mongoose's casting of them, are not
  modelled. That includes numbers in string fields, objects used as query
  operators, and a repeated query-string key such as `?query=&query=`, which
  arrives as an array, is truthy, passes the 400 check of search-notes and
  becomes the pattern ",".
- Routes.LoginFinalElseUnreachable: holds only for string-valued fields. The
  body `{"email": {"$ne": null}, "password": <the first account's password>}`
  makes the lookup return the first account, passes the password check, and
  then fails `userInfo.email == email`, so that request does get the final
  400 "Invalid credentials!".
- Documents are values: edit-note and update-note-Pinned modify a copy of the
  fetched document and write it back, as `save()` does. Aliasing between
  document objects is not modelled.
- Concurrency: each route runs as one atomic step, so interleaved requests
  and last-writer-wins races are not modelled.
- Routes.NotesApp.UpdateNotePinned: when isPinned is absent, the note in the
  response of that same request has no isPinned field at all. The model
  returns it with the stored default, false.
- Routes.NotesApp.CreateAccount: the returned `user` is the stored record and
  its id; the store's version key `__v` is not modelled.
